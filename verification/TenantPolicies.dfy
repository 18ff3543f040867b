/**
 What the parent lookups of a row policy are for (backend/prisma/migrations,
 20261007090000_tenant_row_level_security): with them on every reference companies meet in unique keys
 only, and without them a row can hang on another company's row and go when that goes.
 */
module TenantPolicies {
  import opened Options
  import opened TenantScope
  import opened TenantReferences
  import opened TenantRuns

  // ---- Every parent looked up ----

  ghost predicate LooksUp(s: Schema) {
    forall m, row, ref :: ref in s.refs(m, row) ==> s.looked(m, ref)
  }

  /** Every company's references stay at home, and keys hold. */
  ghost predicate AllSettled(s: Schema, db: Db) {
    KeysHold(s, db) && forall company: string :: AtHome(s, db, company)
  }

  lemma SettledView(s: Schema, db: Db, company: string)
    requires AllSettled(s, db)
    ensures Settled(s, db, OwnPart(db, company), company)
  {
    OwnPartViews(db, company);
    assert AtHome(s, db, company);
  }

  /** An own row of a draft that the policy lets pass finds its parents among the company's rows, before or after. */
  lemma OwnParent(s: Schema, db: Db, call: Call, row: Row, model: string, ref: Ref)
    requires LooksUp(s) && AllSettled(s, db) && Scoped(call.operation, call.args, call.company).Ok? && call.bound
    requires !Refused(s, db, DraftOf(s, db, call), call)
    requires row.company == call.company && HoldsRef(s, DraftOf(s, db, call), model, row, ref)
    ensures Satisfied(s, OwnPart(db, call.company), ref) ||
      Satisfied(s, OwnPart(DraftOf(s, db, call), call.company), ref)
  {
    var next, own := DraftOf(s, db, call), OwnPart(db, call.company);
    MineMembers(TableOf(next, model), call.company);
    MineMembers(TableOf(db, model), call.company);
    TableAfterWrite(db, call.model, TableOf(next, call.model), model);
    if row in TableOf(db, model) {
      SettledView(s, db, call.company);
      assert HoldsRef(s, own, model, row, ref);
    } else {
      assert model == call.model && s.looked(model, ref);
    }
  }

  lemma PartMembers(db: Db, company: string, model: string)
    ensures forall row :: row in TableOf(OwnPart(db, company), model) <==>
      row in TableOf(db, model) && row.company == company
  {
    MineMembers(TableOf(db, model), company);
  }

  /** A draft that the policy lets pass leans on no other company's row. */
  lemma NeverLeans(s: Schema, db: Db, call: Call)
    requires Lawful(s) && LooksUp(s) && AllSettled(s, db)
    requires Scoped(call.operation, call.args, call.company).Ok? && call.bound
    requires !Refused(s, db, DraftOf(s, db, call), call)
    ensures !LeansOnOthers(s, DraftOf(s, db, call), call.company)
  {
    var next := DraftOf(s, db, call);
    var own := OwnPart(next, call.company);
    if LeansOnOthers(s, next, call.company) {
      var model, row, ref :| HoldsRef(s, own, model, row, ref) && !Satisfied(s, own, ref);
      PartMembers(next, call.company, model);
      PartMembers(next, call.company, ref.model);
      assert HoldsRef(s, next, model, row, ref);
      OwnParent(s, db, call, row, model, ref);
      PartMembers(db, call.company, ref.model);
      var was :| was in TableOf(db, ref.model) && was.company == call.company && s.names(ref, was);
      var now :| now in TableOf(next, ref.model) && s.names(ref, now);
      assert now.company != call.company;
      OthersStay(s, db, call, ref.model, now);
      NamedOnce(s, db, ref, was, now);
      assert false;
    }
  }

  /** A draft has the rows of others that were there. */
  lemma OthersStay(s: Schema, db: Db, call: Call, model: string, row: Row)
    requires Scoped(call.operation, call.args, call.company).Ok? && row.company != call.company
    ensures row in TableOf(DraftOf(s, db, call), model) <==> row in TableOf(db, model)
  {
    var next, view := DraftOf(s, db, call), OwnPart(db, row.company);
    OwnPartViews(db, row.company);
    DraftOfOther(s, db, view, call, row.company);
    assert TableOf(view, model) == Mine(TableOf(db, model), row.company);
    assert TableOf(view, model) == Mine(TableOf(next, model), row.company);
    MineMembers(TableOf(db, model), row.company);
    MineMembers(TableOf(next, model), row.company);
  }

  /** While everyone's references stay at home, nobody else's row refers to a key that the caller changes. */
  lemma NeverHoldsUp(s: Schema, db: Db, call: Call)
    requires AllSettled(s, db) && Scoped(call.operation, call.args, call.company).Ok?
    ensures !HoldsUpOthers(s, DraftOf(s, db, call), call.company)
  {
    var next := DraftOf(s, db, call);
    var own := OwnPart(next, call.company);
    if !Dangles(s, own) {
      forall model, row, ref | HoldsRef(s, next, model, row, ref) ensures Satisfied(s, next, ref) {
        PartMembers(next, call.company, model);
        PartMembers(next, call.company, ref.model);
        if row.company == call.company {
          assert HoldsRef(s, own, model, row, ref);
        } else {
          OthersStay(s, db, call, model, row);
          PartMembers(db, row.company, model);
          PartMembers(db, row.company, ref.model);
          assert AtHome(s, db, row.company) && HoldsRef(s, OwnPart(db, row.company), model, row, ref);
          var p :| p in TableOf(OwnPart(db, row.company), ref.model) && s.names(ref, p);
          OthersStay(s, db, call, ref.model, p);
        }
      }
    }
  }

  /** The call is its company's own, no policy refuses it, and it has a unique key of somebody else's row. */
  ghost predicate BlockedCall(s: Schema, db: Db, call: Call, company: string) {
    call.company == company && Scoped(call.operation, call.args, company).Ok? &&
    !Refused(s, db, DraftOf(s, db, call), call) &&
    Blocked(s.engine(call.model), TableOf(DraftOf(s, db, call), call.model), company)
  }

  /** The call goes through with a reference that only another company's row satisfies. */
  ghost predicate Leans(s: Schema, db: Db, call: Call) {
    Scoped(call.operation, call.args, call.company).Ok? && !IsDelete(call.operation) &&
    !Refused(s, db, DraftOf(s, db, call), call) && LeansOnOthers(s, DraftOf(s, db, call), call.company)
  }

  lemma DisturbedMeansBlocked(s: Schema, db: Db, call: Call, company: string)
    requires Lawful(s) && AllSettled(s, db) && !Leans(s, db, call)
    ensures Disturbed(s, db, call, company) <==> BlockedCall(s, db, call, company)
  {
    if Scoped(call.operation, call.args, call.company).Ok? {
      NeverHoldsUp(s, db, call);
    }
  }

  lemma BlockedChangesNothing(s: Schema, db: Db, call: Call)
    requires BlockedCall(s, db, call, call.company)
    ensures Step(s, db, call).0 == db
  {
  }

  lemma StepStaysSettled(s: Schema, db: Db, call: Call)
    requires Lawful(s) && AllSettled(s, db) && !Leans(s, db, call)
    ensures AllSettled(s, Step(s, db, call).0)
  {
    var after := Step(s, db, call).0;
    StepKeepsKeys(s, db, call);
    DisturbedMeansBlocked(s, db, call, call.company);
    if Disturbed(s, db, call, call.company) {
      BlockedChangesNothing(s, db, call);
    } else {
      forall company: string ensures AtHome(s, after, company) {
        var view := OwnPart(db, company);
        SettledView(s, db, company);
        if company == call.company {
          OwnStep(s, db, view, call);
          HomeView(s, after, StepAlone(s, view, call).0, company);
        } else {
          StepOfOther(s, db, view, call, company);
          HomeView(s, after, view, company);
        }
      }
    }
  }

  ghost predicate Unblocked(s: Schema, db: Db, calls: seq<Call>, company: string)
    decreases |calls|
  {
    calls == [] ||
    (!BlockedCall(s, db, calls[0], company) && Unblocked(s, Step(s, db, calls[0]).0, calls[1..], company))
  }

  /** Every reference that a call of the run writes finds a row of the caller's own. */
  ghost predicate NoneLeans(s: Schema, db: Db, calls: seq<Call>)
    decreases |calls|
  {
    calls == [] || (!Leans(s, db, calls[0]) && NoneLeans(s, Step(s, db, calls[0]).0, calls[1..]))
  }

  lemma {:induction false} UndisturbedMeansUnblocked(s: Schema, db: Db, calls: seq<Call>, company: string)
    requires Lawful(s) && AllSettled(s, db) && NoneLeans(s, db, calls)
    ensures Undisturbed(s, db, calls, company) <==> Unblocked(s, db, calls, company)
    ensures AllSettled(s, Run(s, db, calls).0)
    decreases |calls|
  {
    if calls != [] {
      DisturbedMeansBlocked(s, db, calls[0], company);
      StepStaysSettled(s, db, calls[0]);
      UndisturbedMeansUnblocked(s, Step(s, db, calls[0]).0, calls[1..], company);
    }
  }

  /**
   As long as every written reference finds a row of the caller's own, in any run from a database whose
   references stay at home a company's replies are those of its own calls alone exactly when none of
   them is blocked by a unique key of another company, and all references stay at home.
   */
  lemma HomelyRunsMeetInKeysOnly(s: Schema, db: Db, calls: seq<Call>, company: string)
    requires Lawful(s) && AllSettled(s, db) && NoneLeans(s, db, calls)
    ensures |Run(s, db, calls).1| == |calls| && AllSettled(s, Run(s, db, calls).0)
    ensures RunAlone(s, OwnPart(db, company), CallsOf(calls, company)).1 ==
      RepliesTo(calls, Run(s, db, calls).1, company)
      <==> Unblocked(s, db, calls, company)
  {
    SettledView(s, db, company);
    UndisturbedMeansUnblocked(s, db, calls, company);
    CompaniesDoNotInterfere(s, db, OwnPart(db, company), calls, company);
  }

  /** That is so whenever the policies look every parent up and every call is bound by them. */
  lemma {:induction false} LookedUpRunsAreHomely(s: Schema, db: Db, calls: seq<Call>)
    requires Lawful(s) && LooksUp(s) && AllSettled(s, db) && forall c :: c in calls ==> c.bound
    ensures NoneLeans(s, db, calls)
    decreases |calls|
  {
    if calls != [] {
      assert calls[0] in calls;
      LookedUpCallsAreHomely(s, db, calls[0]);
      StepStaysSettled(s, db, calls[0]);
      LookedUpRunsAreHomely(s, Step(s, db, calls[0]).0, calls[1..]);
    }
  }

  lemma LookedUpCallsAreHomely(s: Schema, db: Db, call: Call)
    requires Lawful(s) && LooksUp(s) && AllSettled(s, db) && call.bound
    ensures !Leans(s, db, call)
  {
    if Scoped(call.operation, call.args, call.company).Ok? && !Refused(s, db, DraftOf(s, db, call), call) {
      NeverLeans(s, db, call);
    }
  }

  lemma {:induction false} BlockedCallsAreTold(s: Schema, db: Db, calls: seq<Call>, company: string)
    requires |Run(s, db, calls).1| == |calls| && !Unblocked(s, db, calls, company)
    ensures Ok(UniqueViolation) in RepliesTo(calls, Run(s, db, calls).1, company)
    decreases |calls|
  {
    FirstCall(s, db, calls, company);
    if !BlockedCall(s, db, calls[0], company) {
      BlockedCallsAreTold(s, Step(s, db, calls[0]).0, calls[1..], company);
    }
  }

  /** A company that is never told of a repeated key then has the rows and replies of its own calls alone. */
  lemma UnviolatedRunsAgree(s: Schema, db: Db, calls: seq<Call>, company: string)
    requires Lawful(s) && AllSettled(s, db) && NoneLeans(s, db, calls)
    ensures |Run(s, db, calls).1| == |calls|
    ensures Ok(UniqueViolation) !in RepliesTo(calls, Run(s, db, calls).1, company) ==>
      var (end, replies) := RunAlone(s, OwnPart(db, company), CallsOf(calls, company));
      && Views(end, Run(s, db, calls).0, company)
      && replies == RepliesTo(calls, Run(s, db, calls).1, company)
  {
    SettledView(s, db, company);
    UndisturbedMeansUnblocked(s, db, calls, company);
    CompaniesDoNotInterfere(s, db, OwnPart(db, company), calls, company);
    if !Unblocked(s, db, calls, company) {
      BlockedCallsAreTold(s, db, calls, company);
    }
  }

  // ---- Without the lookup ----

  predicate SameCell(r: Row, q: Row, column: string) {
    column in r.cells && column in q.cells && r.cells[column] == q.cells[column]
  }

  /** Rows with an id and perhaps a verified domain, each unique whoever owns it. */
  function PlainEngine(): Engine {
    Engine((column, v, row: Row) => Get(row.cells, column) == v, (fields, _) => fields, (_, cells) => cells, _ => "",
           (_, _, _) => Undefined, (r, q) => SameCell(r, q, "id") || SameCell(r, q, "domain"))
  }

  function CandidateRefs(model: string, row: Row): set<Ref> {
    if model == "ResumeFile" && "candidateId" in row.cells
    then {Ref("Candidate", row.cells["candidateId"], Cascade)} else {}
  }

  /** Resume files, which go with the candidate they belong to; the policy looks up no candidate. */
  function ResumeSchema(): Schema {
    Schema(_ => PlainEngine(), CandidateRefs,
           (ref: Ref, row: Row) => "id" in row.cells && row.cells["id"] == ref.key,
           (model, cells, lost) =>
             if CandidateRefs(model, Row("", cells)) * lost == {} then cells else cells - {"candidateId"},
           (_, _) => false)
  }

  lemma DetachedCandidate(m: string, row: Row, lost: set<Ref>)
    ensures var left := Detached(ResumeSchema(), m, row, lost);
      && CandidateRefs(m, left) == CandidateRefs(m, row) - lost
      && forall column :: column != "candidateId" ==>
           (column in left.cells <==> column in row.cells) && Get(left.cells, column) == Get(row.cells, column)
  {
  }

  lemma ResumeSchemaIsLawful()
    ensures Lawful(ResumeSchema())
  {
    var s := ResumeSchema();
    forall m, row, lost
      ensures s.refs(m, Detached(s, m, row, lost)) == s.refs(m, row) - lost
      ensures forall ref :: s.names(ref, Detached(s, m, row, lost)) <==> s.names(ref, row)
      ensures forall q :: Collide(s.engine(m), Detached(s, m, row, lost), q) ==> Collide(s.engine(m), row, q)
    {
      DetachedCandidate(m, row, lost);
    }
  }

  lemma NewRow(company: string, fields: Fields, home: Option<string>, data: Value)
    requires "company" !in fields && "companyId" !in fields
    requires (home == Some(company) && data == Rec(fields)) ||
      (home == None && data == Rec(fields["companyId" := Str(company)]))
    ensures CreatedRows(PlainEngine(), home, [data], 0) == Some([Row(company, fields)])
  {
    assert FieldsOf(data) - {"companyId"} == fields;
    assert [data][1..] == [] && CreatedRows(PlainEngine(), home, [data][1..], 1) == Some([]);
    assert CreatedRow(PlainEngine(), home, data, 0) == Some(Row(company, fields));
    assert [Row(company, fields)] + [] == [Row(company, fields)];
  }

  /** A new row joins the end of its table. */
  lemma NewRowDraft(db: Db, model: string, company: string, fields: Fields) returns (call: Call)
    requires "company" !in fields && "companyId" !in fields
    ensures call == Call(company, model, Create, NO_ARGS.(data := Rec(fields)), 0, true)
    ensures Scoped(Create, call.args, company).Ok?
    ensures Draft(PlainEngine(), None, Create, Scoped(Create, call.args, company).value, 0, TableOf(db, model)) ==
      (TableOf(db, model) + [Row(company, fields)], Answered(Undefined))
    ensures Draft(PlainEngine(), Some(company), Create, call.args, 0, []) ==
      ([Row(company, fields)], Answered(Undefined))
  {
    call := Call(company, model, Create, NO_ARGS.(data := Rec(fields)), 0, true);
    var scoped := Scoped(Create, call.args, company).value;
    NewRow(company, fields, None, Rec(fields["companyId" := Str(company)]));
    NewRow(company, fields, Some(company), Rec(fields));
    DraftOfCreate(PlainEngine(), None, Create, scoped, 0, TableOf(db, model));
    DraftOfCreate(PlainEngine(), Some(company), Create, call.args, 0, []);
    assert [] + [Row(company, fields)] == [Row(company, fields)];
  }

  lemma OneRowRepeatsNothing(t: Table)
    requires |t| <= 1
    ensures !Clashes(PlainEngine(), t)
  {
    assert t != [] ==> t[1..] == [];
  }

  lemma NothingRefused(db: Db, draft: Db, call: Call)
    ensures !Refused(ResumeSchema(), db, draft, call)
  {
  }

  function CandidateOf(id: string): Row {
    Row("a", map["id" := Str(id)])
  }

  function FileOf(id: string): Row {
    Row("b", map["candidateId" := Str(id)])
  }

  /** A candidate of company a. */
  function BeforeUpload(id: string): Db {
    map["Candidate" := [CandidateOf(id)]]
  }

  /** And a resume file of company b that refers to it. */
  function AfterUpload(id: string): Db {
    BeforeUpload(id)["ResumeFile" := [FileOf(id)]]
  }

  /** Company b adds a resume file to company a's candidate. */
  function Upload(id: string): Call {
    Call("b", "ResumeFile", Create, NO_ARGS.(data := Rec(FileOf(id).cells)), 0, true)
  }

  /** Company a deletes its candidate. */
  function Removal(id: string): Call {
    Call("a", "Candidate", Delete, NO_ARGS.(where := Rec(CandidateOf(id).cells)), 0, true)
  }

  lemma UploadSettled(id: string)
    ensures AllSettled(ResumeSchema(), BeforeUpload(id)) && !Dangles(ResumeSchema(), AfterUpload(id))
  {
    var s, db, after := ResumeSchema(), BeforeUpload(id), AfterUpload(id);
    forall m: string ensures !Clashes(s.engine(m), TableOf(db, m)) {
      OneRowRepeatsNothing(TableOf(db, m));
    }
    forall company: string ensures AtHome(s, db, company) {
      forall m, row, ref ensures !HoldsRef(s, OwnPart(db, company), m, row, ref) {
        PartMembers(db, company, m);
      }
    }
    forall m, row, ref | HoldsRef(s, after, m, row, ref) ensures Satisfied(s, after, ref) {
      assert CandidateOf(id) in TableOf(after, ref.model) && s.names(ref, CandidateOf(id));
    }
  }

  lemma UploadGoesIn(id: string)
    ensures Step(ResumeSchema(), BeforeUpload(id), Upload(id)) == (AfterUpload(id), Ok(Answered(Undefined)))
  {
    var s, db := ResumeSchema(), BeforeUpload(id);
    var call := NewRowDraft(db, "ResumeFile", "b", FileOf(id).cells);
    UploadSettled(id);
    assert TableOf(db, "ResumeFile") + [FileOf(id)] == [FileOf(id)];
    assert DraftOf(s, db, call) == AfterUpload(id);
    OneRowRepeatsNothing([FileOf(id)]);
    NothingRefused(db, AfterUpload(id), call);
  }

  lemma UploadFailsAlone(id: string)
    ensures StepAlone(ResumeSchema(), OwnPart(BeforeUpload(id), "b"), Upload(id)).1 == Ok(ForeignKeyViolation)
  {
    var s, view := ResumeSchema(), OwnPart(BeforeUpload(id), "b");
    var call := NewRowDraft(view, "ResumeFile", "b", FileOf(id).cells);
    var draft := view["ResumeFile" := [FileOf(id)]];
    MineOfCons(CandidateOf(id), [], "b");
    assert [CandidateOf(id)] + [] == [CandidateOf(id)];
    assert TableOf(view, "ResumeFile") == [] && TableOf(draft, "Candidate") == [];
    OneRowRepeatsNothing([FileOf(id)]);
    NothingRefused(view, draft, call);
    var ref := Ref("Candidate", Str(id), Cascade);
    assert HoldsRef(s, draft, "ResumeFile", FileOf(id), ref) && !Satisfied(s, draft, ref);
  }

  lemma CandidateIsRemoved(id: string) returns (args: Args)
    ensures Scoped(Delete, Removal(id).args, "a") == Ok(args)
    ensures Draft(PlainEngine(), None, Delete, args, 0, [CandidateOf(id)]) == ([], Answered(Undefined))
  {
    var e, where := PlainEngine(), CandidateOf(id).cells;
    args := Scoped(Delete, Removal(id).args, "a").value;
    ScopedMatches(e, Rec(where), "a", CandidateOf(id));
    FirstRow(e, FieldsOf(args.where), Undefined, CandidateOf(id), [], false);
    assert [CandidateOf(id)] + [] == [CandidateOf(id)];
    assert Matches(e, where, CandidateOf(id));
  }

  lemma RemovalTakesTheFile(id: string)
    ensures TableOf(Step(ResumeSchema(), AfterUpload(id), Removal(id)).0, "ResumeFile") == []
  {
    var s, db := ResumeSchema(), AfterUpload(id);
    var args := CandidateIsRemoved(id);
    var next := db["Candidate" := []];
    assert DraftOf(s, db, Removal(id)) == next;
    OneRowRepeatsNothing([]);
    NothingRefused(db, next, Removal(id));
    var ref := Ref("Candidate", Str(id), Cascade);
    assert ref in s.refs("ResumeFile", FileOf(id)) && Orphaned(s, next, ref, 0);
    assert Falls(s, next, "ResumeFile", FileOf(id), 1);
    assert [FileOf(id)][1..] == [] && Kept(s, next, "ResumeFile", []) == [];
    assert Kept(s, next, "ResumeFile", [FileOf(id)]) == [];
    TableOfSweep(s, next, "ResumeFile");
  }

  /**
   Where the policy of ResumeFile looks no candidate up: company b's file with a candidate of company
   a goes in, though it would fail alone, and is gone once company a deletes the candidate.
   */
  lemma FileOfForeignCandidate(id: string)
    ensures Lawful(ResumeSchema()) && AllSettled(ResumeSchema(), BeforeUpload(id))
    ensures var (after, reply) := Step(ResumeSchema(), BeforeUpload(id), Upload(id));
      && reply == Ok(Answered(Undefined)) && TableOf(after, "ResumeFile") == [FileOf(id)]
      && StepAlone(ResumeSchema(), OwnPart(BeforeUpload(id), "b"), Upload(id)).1 == Ok(ForeignKeyViolation)
      && TableOf(Step(ResumeSchema(), after, Removal(id)).0, "ResumeFile") == []
  {
    ResumeSchemaIsLawful();
    UploadSettled(id);
    UploadGoesIn(id);
    UploadFailsAlone(id);
    RemovalTakesTheFile(id);
  }

  /** A unique key is seen across companies: what alone succeeds fails once another company verified the domain. */
  lemma VerifiedDomainBlocks(domain: string)
    ensures var s, fields := ResumeSchema(), map["domain" := Str(domain)];
      var db: Db := map["CompanyDomain" := [Row("a", fields)]];
      var call := Call("b", "CompanyDomain", Create, NO_ARGS.(data := Rec(fields)), 0, true);
      && AllSettled(s, db) && BlockedCall(s, db, call, "b")
      && Step(s, db, call).1 == Ok(UniqueViolation)
      && StepAlone(s, OwnPart(db, "b"), call).1 == Ok(Answered(Undefined))
  {
    var s, fields := ResumeSchema(), map["domain" := Str(domain)];
    var taken, mine := Row("a", fields), Row("b", fields);
    var db: Db := map["CompanyDomain" := [taken]];
    var view := OwnPart(db, "b");
    var call := NewRowDraft(db, "CompanyDomain", "b", fields);
    var call' := NewRowDraft(view, "CompanyDomain", "b", fields);
    assert call == call';
    MineOfCons(taken, [], "b");
    MineOfCons(taken, [mine], "b");
    MineOfCons(mine, [], "b");
    assert [taken] + [] == [taken] && [taken] + [mine] == [taken, mine] && [mine] + [] == [mine] &&
      [] + [mine] == [mine];
    assert ClashesWith(PlainEngine(), taken, [mine]) by {
      assert Collide(PlainEngine(), taken, mine);
    }
    assert [taken, mine][1..] == [mine];
    OneRowRepeatsNothing([mine]);
    NothingRefused(db, DraftOf(s, db, call), call);
    NothingRefused(view, view["CompanyDomain" := [mine]], call);
    DomainsSettled(db, taken);
    DomainsSettled(view["CompanyDomain" := [mine]], mine);
  }

  lemma DomainsSettled(db: Db, row: Row)
    requires db.Keys == {"CompanyDomain"} && db["CompanyDomain"] == [row]
    ensures AllSettled(ResumeSchema(), db) && !Dangles(ResumeSchema(), db)
  {
    forall m: string ensures !Clashes(PlainEngine(), TableOf(db, m)) {
      OneRowRepeatsNothing(TableOf(db, m));
    }
    forall company: string ensures AtHome(ResumeSchema(), db, company) {
      forall m, held, ref ensures !HoldsRef(ResumeSchema(), OwnPart(db, company), m, held, ref) {
        PartMembers(db, company, m);
      }
    }
  }
}
