/** The evidence rule over a model's answer (reconcileResult in backend/src/scoring/parse.ts). */
module Reconcile {
  import opened Options
  import opened ScoreMath
  import Text

  datatype Requirement = Requirement(id: string, criterion: string, weight: Weight)

  datatype EvidenceStatus = NoEvidence | Unverified | Verified

  /** One item of the model's answer. */
  datatype Answer = Answer(requirementId: string, verdict: Verdict, evidence: Option<string>, note: string)

  datatype Evaluation = Evaluation(
    requirementId: string,
    verdict: Verdict,
    modelVerdict: Verdict,
    evidence: Option<string>,
    evidenceStatus: EvidenceStatus,
    note: string)

  datatype ScoringError = DuplicateIds | UnknownId | SkippedRequirement

  /** `canonicalForMatch`: NFKC, lower case, letters and digits only. Any function will do here. */
  type Canonical = string -> string

  predicate DistinctIds(answers: seq<Answer>) {
    forall i, j :: 0 <= i < j < |answers| ==> answers[i].requirementId != answers[j].requirementId
  }

  predicate Names(answers: seq<Answer>, id: string) {
    exists i :: 0 <= i < |answers| && answers[i].requirementId == id
  }

  predicate IsRequirement(requirements: seq<Requirement>, id: string) {
    exists i :: 0 <= i < |requirements| && requirements[i].id == id
  }

  /** The last answer under an id, as a Map built from the list holds it. */
  function AnswerFor(answers: seq<Answer>, id: string): (a: Answer)
    requires Names(answers, id)
    ensures a in answers && a.requirementId == id
  {
    var n := |answers| - 1;
    if answers[n].requirementId == id then answers[n]
    else
      var i :| 0 <= i < |answers| && answers[i].requirementId == id;
      assert answers[..n][i].requirementId == id;
      AnswerFor(answers[..n], id)
  }

  function StatusOf(a: Answer, resume: string, canonical: Canonical): EvidenceStatus {
    if a.evidence.None? || canonical(a.evidence.value) == "" then NoEvidence
    else if Text.Includes(canonical(resume), canonical(a.evidence.value)) then Verified
    else Unverified
  }

  function Evaluate(a: Answer, r: Requirement, resume: string, canonical: Canonical): Evaluation {
    var status := StatusOf(a, resume, canonical);
    Evaluation(
      r.id,
      if a.verdict.Strong? && !status.Verified? then Partial else a.verdict,
      a.verdict,
      if status.NoEvidence? then None else a.evidence,
      status,
      a.note)
  }

  function ReconcileResult(answers: seq<Answer>, requirements: seq<Requirement>, resume: string, canonical: Canonical)
    : Result<seq<Evaluation>, ScoringError>
  {
    if !DistinctIds(answers) then Err(DuplicateIds)
    else if exists a :: a in answers && !IsRequirement(requirements, a.requirementId) then Err(UnknownId)
    else if exists r :: r in requirements && !Names(answers, r.id) then Err(SkippedRequirement)
    else Ok(seq(|requirements|, i requires 0 <= i < |requirements| =>
      Evaluate(AnswerFor(answers, requirements[i].id), requirements[i], resume, canonical)))
  }

  /** STRONG stands only on a quote that is not empty and occurs in the resume, both folded alike. */
  predicate Sound(e: Evaluation, resume: string, canonical: Canonical) {
    && (e.verdict.Strong? ==> e.evidenceStatus.Verified?)
    && (e.evidenceStatus.Verified? ==>
          e.evidence.Some? && canonical(e.evidence.value) != "" &&
          Text.Includes(canonical(resume), canonical(e.evidence.value)))
  }

  /** One evaluation per requirement, in the requirements' order, each resting on the evidence rule. */
  predicate Complete(es: seq<Evaluation>, requirements: seq<Requirement>, resume: string, canonical: Canonical) {
    && |es| == |requirements|
    && forall i :: 0 <= i < |es| ==> es[i].requirementId == requirements[i].id && Sound(es[i], resume, canonical)
  }

  /** The quote is not blank, and occurs in the resume, both folded alike. */
  predicate Occurs(a: Answer, resume: string, canonical: Canonical) {
    a.evidence.Some? && canonical(a.evidence.value) != "" &&
    exists i, j :: 0 <= i <= j <= |canonical(resume)| && canonical(resume)[i..j] == canonical(a.evidence.value)
  }

  /**
   What an evaluation keeps of the answer it came from: all of it, but a STRONG without a quote that
   occurs in the resume drops to PARTIAL, and a blank quote is dropped.
   */
  ghost predicate Keeps(e: Evaluation, a: Answer, resume: string, canonical: Canonical) {
    var blank := a.evidence.None? || canonical(a.evidence.value) == "";
    && e.requirementId == a.requirementId && e.modelVerdict == a.verdict && e.note == a.note
    && e.verdict == (if a.verdict == Strong && !Occurs(a, resume, canonical) then Partial else a.verdict)
    && e.evidenceStatus ==
         (if blank then NoEvidence else if Occurs(a, resume, canonical) then Verified else Unverified)
    && e.evidence == (if blank then None else a.evidence)
  }

  function NamedIds(answers: seq<Answer>): set<string> {
    set a | a in answers :: a.requirementId
  }

  function KnownIds(requirements: seq<Requirement>): set<string> {
    set q | q in requirements :: q.id
  }

  lemma IdsByMembership(answers: seq<Answer>, requirements: seq<Requirement>, id: string)
    ensures id in NamedIds(answers) <==> Names(answers, id)
    ensures id in KnownIds(requirements) <==> IsRequirement(requirements, id)
  {
    if id in NamedIds(answers) {
      var a :| a in answers && a.requirementId == id;
    }
    if Names(answers, id) {
      var i :| 0 <= i < |answers| && answers[i].requirementId == id;
      assert answers[i] in answers;
    }
    if id in KnownIds(requirements) {
      var q :| q in requirements && q.id == id;
    }
    if IsRequirement(requirements, id) {
      var i :| 0 <= i < |requirements| && requirements[i].id == id;
      assert requirements[i] in requirements;
    }
  }

  /** An answer is accepted exactly when its ids are the requirements' ids, each once. */
  lemma AcceptedExactly(answers: seq<Answer>, requirements: seq<Requirement>, resume: string, canonical: Canonical)
    ensures ReconcileResult(answers, requirements, resume, canonical).Ok? <==>
      DistinctIds(answers) && NamedIds(answers) == KnownIds(requirements)
  {
    forall id ensures id in NamedIds(answers) <==> Names(answers, id) {
      IdsByMembership(answers, requirements, id);
    }
    forall id ensures id in KnownIds(requirements) <==> IsRequirement(requirements, id) {
      IdsByMembership(answers, requirements, id);
    }
    forall a | a in answers ensures a.requirementId in NamedIds(answers) {}
    forall q | q in requirements ensures q.id in KnownIds(requirements) {}
  }

  /**
   A refused answer is refused for a repeated id, else for one no requirement has, else for a requirement
   left out.
   */
  lemma RefusedBecause(answers: seq<Answer>, requirements: seq<Requirement>, resume: string, canonical: Canonical)
    ensures ReconcileResult(answers, requirements, resume, canonical).Err? ==>
      ReconcileResult(answers, requirements, resume, canonical).error ==
        if (exists i, j :: 0 <= i < j < |answers| && answers[i].requirementId == answers[j].requirementId)
        then DuplicateIds
        else if !(NamedIds(answers) <= KnownIds(requirements)) then UnknownId
        else SkippedRequirement
  {
    forall id ensures id in KnownIds(requirements) <==> IsRequirement(requirements, id) {
      IdsByMembership(answers, requirements, id);
    }
    if a :| a in answers && !IsRequirement(requirements, a.requirementId) {
      assert a.requirementId in NamedIds(answers);
    }
    if id :| id in NamedIds(answers) && id !in KnownIds(requirements) {
      var a :| a in answers && a.requirementId == id;
    }
  }

  lemma EvaluationIsSound(a: Answer, r: Requirement, resume: string, canonical: Canonical)
    requires a.requirementId == r.id
    ensures var e := Evaluate(a, r, resume, canonical);
      e.requirementId == r.id && Sound(e, resume, canonical) && Keeps(e, a, resume, canonical)
  {
    if a.evidence.Some? {
      IncludesMeansOccurs(canonical(resume), canonical(a.evidence.value));
    }
  }

  lemma IncludesMeansOccurs(s: string, part: string)
    ensures Text.Includes(s, part) <==> exists i, j :: 0 <= i <= j <= |s| && s[i..j] == part
  {
    if Text.Includes(s, part) {
      var i :| 0 <= i <= |s| - |part| && Text.OccursAt(s, part, i);
      assert s[i..i + |part|] == part;
    }
    if i, j :| 0 <= i <= j <= |s| && s[i..j] == part {
      assert Text.OccursAt(s, part, i);
    }
  }

  ghost predicate KeepsSome(e: Evaluation, answers: seq<Answer>, resume: string, canonical: Canonical) {
    exists a :: a in answers && Keeps(e, a, resume, canonical)
  }

  /** What comes out covers every requirement with its own answer, and only STRONG is ever lowered. */
  lemma ReconciledExactly(answers: seq<Answer>, requirements: seq<Requirement>, resume: string, canonical: Canonical)
    requires ReconcileResult(answers, requirements, resume, canonical).Ok?
    ensures Complete(ReconcileResult(answers, requirements, resume, canonical).value, requirements, resume, canonical)
    ensures forall e :: e in ReconcileResult(answers, requirements, resume, canonical).value ==>
      KeepsSome(e, answers, resume, canonical)
  {
    var es := ReconcileResult(answers, requirements, resume, canonical).value;
    forall i | 0 <= i < |requirements|
      ensures es[i].requirementId == requirements[i].id && Sound(es[i], resume, canonical)
      ensures KeepsSome(es[i], answers, resume, canonical)
    {
      var a := AnswerFor(answers, requirements[i].id);
      EvaluationIsSound(a, requirements[i], resume, canonical);
      assert es[i] == Evaluate(a, requirements[i], resume, canonical);
      assert Keeps(es[i], a, resume, canonical);
    }
  }
}
