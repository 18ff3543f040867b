/**
 What the queue decides, case by case (processRun in backend/src/scoring/queue.ts, requestScoring in
 backend/src/services/scoring.ts), said of the tables alone.
 */
module ScoringDecisions {
  import opened Collections
  import opened Options
  import opened Leases
  import opened Ordering
  import opened Reconcile
  import opened ScoringTables
  import opened ScoringSafety
  import opened ScoringRuns
  import Text

  // ---- What becomes of a claimed run ----

  /** The first thing that forbids scoring the application now, in the order in which it is reported. */
  function FirstObjection(db: Tables, applicationId: nat, overBudget: Option<string>): Option<string>
    requires Linked(db) && applicationId in db.applications
  {
    var a := db.applications[applicationId];
    var c := db.candidates[a.candidateId];
    if a.deleted || a.companyId !in db.policies then Some(REMOVED)
    else if |Text.Trim(c.resumeText)| < 200 then Some(TOO_SHORT)
    else if |db.jobs[a.jobId].requirements| == 0 then Some(NO_REQUIREMENTS)
    else if c.aiOptOutAt.Some? then Some(OPTED_OUT)
    else if db.policies[a.companyId].aiNoticeRequired && c.aiNoticeAt.None? then Some(NOTICE_REQUIRED)
    else overBudget
  }

  lemma PlanFollowsObjection(db: Tables, id: nat, settings: Settings, overBudget: Option<string>)
    requires Linked(db) && id in db.runs
    ensures var plan := PlanRun(db, id, settings, overBudget);
      FirstObjection(db, db.runs[id].applicationId, overBudget) == if plan.Refuse? then Some(plan.message) else None
  {
  }

  /** There is no objection exactly when the application may be scored. */
  lemma ObjectionsAreComplete(db: Tables, applicationId: nat)
    requires Linked(db) && applicationId in db.applications
    ensures FirstObjection(db, applicationId, None).None? <==> MayBeScored(db, applicationId)
  {
  }

  /** The run is over with this outcome, and no longer anyone's. */
  predicate EndsAs(r: Run, r': Run, outcome: RunOutcome, now: int) {
    r'.lease.status == Settled(outcome) && r'.lease.lockedAt.None? && r'.finishedAt == Some(now) &&
    r'.lease.tokens == r.lease.tokens && r'.applicationId == r.applicationId
  }

  /** The run waits at least 8 s, and as long as the provider asked for. */
  predicate WaitsAfter(r: Run, r': Run, f: Failure, now: int) {
    r'.lease.status.Queued? && r'.lease.lockedAt.None? && r'.lease.tokens == r.lease.tokens &&
    r'.lease.nextAttemptAt >= now + 8_000 &&
    (f.retryAfterMs.Some? ==> r'.lease.nextAttemptAt >= now + f.retryAfterMs.value)
  }

  /** What the run is changed to, alone. */
  predicate ChangesOnly(db: Tables, db': Tables, id: nat) {
    && id in db.runs && id in db'.runs && db'.runs == db.runs[id := db'.runs[id]]
    && db'.candidates == db.candidates && db'.jobs == db.jobs && db'.policies == db.policies
  }

  lemma OwnerFails(db: Tables, t: Ticket, message: string, now: int)
    requires t.id in db.runs && Owned(db.runs[t.id].lease, t)
    ensures var db' := FailRun(db, t, message, now);
      && ChangesOnly(db, db', t.id) && db' == db.(runs := db'.runs)
      && EndsAs(db.runs[t.id], db'.runs[t.id], Failed(message), now)
  {
  }

  lemma OwnerRetries(db: Tables, t: Ticket, f: Failure, now: int, random: real)
    requires t.id in db.runs && Owned(db.runs[t.id].lease, t) && t.attempts >= 1 && 0.0 <= random < 1.0
    ensures var db' := RetryOrFail(db, t, f, now, random);
      var r, r' := db.runs[t.id], db'.runs[t.id];
      && ChangesOnly(db, db', t.id) && db' == db.(runs := db'.runs)
      && if !f.retryable then EndsAs(r, r', Failed(if f.misconfigured then MISCONFIGURED else f.message), now)
         else if t.attempts >= 4 then EndsAs(r, r', Failed(PROVIDER_UNAVAILABLE), now)
         else WaitsAfter(r, r', f, now)
  {
    RetryDelayBounds(t.attempts, f.retryAfterMs, random);
  }

  /**
   The run keeps what it was scored on and its summary, the evaluations join it with the criterion and
   weight of their requirements, and its application shows its score; no other application changes.
   */
  predicate Records(db: Tables, db': Tables, id: nat, input: Input, settings: Settings, summary: string,
                    es: seq<Evaluation>)
  {
    id in db.runs && id in db'.runs && id in db'.evaluations &&
    var r', a := db'.runs[id], db.runs[id].applicationId;
    && r'.input == Some(input) && r'.scoredWith == Some(settings) && r'.aiSummary == Some(summary)
    && a in db'.applications && a in db.applications
    && db'.applications == db.applications[a := db.applications[a].(
         latestScoringRunId := Some(id), aiScore := r'.aiScore, aiSummary := Some(summary), scoredAt := r'.finishedAt)]
    && db'.evaluations == db.evaluations[id := db'.evaluations[id]]
    && |db'.evaluations[id]| == |EvaluationsOf(db, id)| + |es|
    && EvaluationsOf(db, id) <= db'.evaluations[id]
    && (forall i :: 0 <= i < |es| ==> db'.evaluations[id][|EvaluationsOf(db, id)| + i].evaluation == es[i])
  }

  lemma OwnerFinishes(db: Tables, t: Ticket, work: Work, model: string, summary: string, es: seq<Evaluation>, now: int)
    requires Linked(db) && t.id in db.runs && Owned(db.runs[t.id].lease, t)
    ensures var db' := FinishRun(db, t, work, model, summary, es, now);
      && ChangesOnly(db, db', t.id) && EndsAs(db.runs[t.id], db'.runs[t.id], Succeeded, now)
      && Records(db, db', t.id, Input(work.job, work.resume), work.settings.(model := model), summary, es)
  {
  }

  /** What an application is scored on: its job, and the resume, redacted if the company wants it so. */
  function InputOf(db: Tables, applicationId: nat): Input
    requires Linked(db) && applicationId in db.applications
    requires db.applications[applicationId].companyId in db.policies
  {
    var a := db.applications[applicationId];
    var c := db.candidates[a.candidateId];
    Input(db.jobs[a.jobId], if db.policies[a.companyId].aiRedactPii then c.redactedText else c.resumeText)
  }

  lemma PlanIsInput(db: Tables, id: nat, settings: Settings, overBudget: Option<string>)
    requires Linked(db) && id in db.runs && PlanRun(db, id, settings, overBudget).Evaluate?
    ensures var work := PlanRun(db, id, settings, overBudget).work;
      && db.applications[db.runs[id].applicationId].companyId in db.policies
      && Input(work.job, work.resume) == InputOf(db, db.runs[id].applicationId) && work.settings == settings
  {
  }

  /**
   What becomes of a run whose newest claim is processed undisturbed: FAILED with the first objection;
   else, on an error, FAILED with what it means or QUEUED at least 8 s and as long as the provider asks;
   else SUCCEEDED with what it was scored on. It is never left RUNNING, and no other run changes.
   */
  lemma CurrentClaimIsDecided(db: Tables, t: Ticket, settings: Settings, overBudget: Option<string>, reply: Reply,
                              now: int, random: real)
    requires Linked(db) && Held(db, t) && Valid(db.runs[t.id].lease, MAX_ATTEMPTS) && 0.0 <= random < 1.0
    requires db.runs[t.id].lease.status.Running? && t.attempts == db.runs[t.id].lease.attempts
    ensures var db' := ProcessRun(db, t, settings, overBudget, reply, now, random);
      ChangesOnly(db, db', t.id) &&
      var r, r' := db.runs[t.id], db'.runs[t.id];
      var objection := FirstObjection(db, r.applicationId, overBudget);
      && !r'.lease.status.Running?
      && (objection.Some? || reply.Errored? ==> db' == db.(runs := db'.runs))
      && if objection.Some? then EndsAs(r, r', Failed(objection.value), now)
         else match reply
           case Evaluated(model, summary, es) =>
             && EndsAs(r, r', Succeeded, now) && db.applications[r.applicationId].companyId in db.policies
             && Records(db, db', t.id, InputOf(db, r.applicationId), settings.(model := model), summary, es)
           case Errored(f) =>
             if !f.retryable then EndsAs(r, r', Failed(if f.misconfigured then MISCONFIGURED else f.message), now)
             else if t.attempts >= 4 then EndsAs(r, r', Failed(PROVIDER_UNAVAILABLE), now)
             else WaitsAfter(r, r', f, now)
  {
    FenceIsNewestClaim(db.runs[t.id].lease, t, MAX_ATTEMPTS);
    PlanFollowsObjection(db, t.id, settings, overBudget);
    match PlanRun(db, t.id, settings, overBudget)
    case Refuse(message) => OwnerFails(db, t, message, now);
    case Evaluate(work) =>
      match reply
      case Errored(f) => OwnerRetries(db, t, f, now, random);
      case Evaluated(model, summary, es) =>
        PlanIsInput(db, t.id, settings, overBudget);
        OwnerFinishes(db, t, work, model, summary, es, now);
  }

  /** And any other claim, processed late, changes nothing. */
  lemma LateClaimIsIgnored(db: Tables, t: Ticket, settings: Settings, overBudget: Option<string>, reply: Reply,
                           now: int, random: real)
    requires Linked(db) && Held(db, t) && Valid(db.runs[t.id].lease, MAX_ATTEMPTS)
    requires !(db.runs[t.id].lease.status.Running? && t.attempts == db.runs[t.id].lease.attempts)
    ensures ProcessRun(db, t, settings, overBudget, reply, now, random) == db
  {
    FenceIsNewestClaim(db.runs[t.id].lease, t, MAX_ATTEMPTS);
    assert db.runs[t.id := db.runs[t.id]] == db.runs;
  }

  // ---- What a request is answered ----

  /** Why a request is refused before anything is looked for, in the order in which that is checked. */
  function RequestObjection(db: Tables, asker: Asker, a: nat): Option<RequestError>
    requires Linked(db)
  {
    if a !in db.applications || db.applications[a].companyId != asker.companyId || db.applications[a].deleted ||
       !asker.visible then Some(NotFound)
    else if |Text.Trim(db.candidates[db.applications[a].candidateId].resumeText)| < 200 then Some(TooShort)
    else if |db.jobs[db.applications[a].jobId].requirements| == 0 then Some(NoRequirements)
    else if asker.companyId !in db.policies then Some(NotFound)
    else
      var c := db.candidates[db.applications[a].candidateId];
      if c.aiOptOutAt.Some? || (db.policies[asker.companyId].aiNoticeRequired && c.aiNoticeAt.None?)
      then Some(NotPermitted) else None
  }

  /** A run of the application that waits or runs. */
  predicate InFlight(db: Tables, a: nat, r: nat) {
    r in db.runs && db.runs[r].applicationId == a &&
      (db.runs[r].lease.status.Queued? || db.runs[r].lease.status.Running?)
  }

  /** A SUCCEEDED run of the application under this hash. */
  predicate Matching(db: Tables, a: nat, hash: Digest, r: nat) {
    r in db.runs && db.runs[r].applicationId == a && db.runs[r].inputHash == hash &&
    db.runs[r].lease.status == Settled(Succeeded)
  }

  /** One more run: the asker's, queued and due at once, never claimed. */
  predicate Adds(db: Tables, db': Tables, id: nat, asker: Asker, a: nat, hash: Digest, now: int) {
    && id in db'.runs && db' == db.(runs := db.runs[id := db'.runs[id]])
    && var r := db'.runs[id];
       && r.companyId == asker.companyId && r.applicationId == a && r.createdAt == now
       && r.settings == asker.settings && r.inputHash == hash && r.finishedAt.None? && r.aiScore.None?
       && r.lease.status.Queued? && r.lease.nextAttemptAt == now && r.lease.lockedAt.None?
       && r.lease.attempts == 0 && r.lease.tokens == []
  }

  lemma FlightsAreActive(db: Tables, a: nat)
    ensures ActiveRuns(db, a) != {} <==> exists r :: InFlight(db, a, r)
  {
    forall r ensures InFlight(db, a, r) <==> r in ActiveRuns(db, a) {}
  }

  lemma NewestMatch(db: Tables, a: nat, hash: Digest)
    ensures var m := LatestMatch(db, a, hash);
      && (m.Some? <==> exists r :: Matching(db, a, hash, r))
      && (m.Some? ==> Matching(db, a, hash, m.value))
      && (m.Some? ==> forall r :: Matching(db, a, hash, r) ==> db.runs[r].createdAt <= db.runs[m.value].createdAt)
  {
    forall r ensures Matching(db, a, hash, r) <==> IsMatch(db, a, hash, r) {}
    var keys := set r | r in db.runs && IsMatch(db, a, hash, r) :: Key(-db.runs[r].createdAt, 0, r);
    forall r | IsMatch(db, a, hash, r) ensures Key(-db.runs[r].createdAt, 0, r) in keys {}
  }

  /** The application shows this run, and nothing else changed. */
  predicate PointsTo(db: Tables, db': Tables, a: nat, run: nat) {
    && db' == db.(applications := db'.applications) && db'.applications.Keys == db.applications.Keys
    && a in db'.applications && db'.applications[a].latestScoringRunId == Some(run)
    && forall q :: q in db.applications && q != a ==> db'.applications[q] == db.applications[q]
  }

  lemma PointAtPoints(db: Tables, a: nat, run: nat)
    requires a in db.applications && run in db.runs
    ensures PointsTo(db, PointAt(db, a, run), a, run)
  {
  }

  lemma RefusedRequest(db: Tables, asker: Asker, a: nat, newId: nat, now: int)
    requires Linked(db) && RequestObjection(db, asker, a).Some?
    ensures RequestScoring(db, asker, a, newId, now) == (db, Err(RequestObjection(db, asker, a).value))
  {
  }

  /** What a request that nothing stands in the way of comes to, by what is there. */
  lemma LetThrough(db: Tables, asker: Asker, a: nat, newId: nat, now: int)
    returns (hash: Digest, active: bool, matched: Option<nat>)
    requires Linked(db) && RequestObjection(db, asker, a).None?
    ensures db.applications[a].companyId in db.policies && db.applications[a].companyId == asker.companyId
    ensures hash == ScoringInputHash(InputOf(db, a).job, InputOf(db, a).resume, asker.settings)
    ensures active <==> exists r :: InFlight(db, a, r)
    ensures matched == LatestMatch(db, a, hash)
    ensures var (db', result) := RequestScoring(db, asker, a, newId, now);
      if active then db' == db && result.Ok? && result.value.InProgress? && InFlight(db, a, result.value.run)
      else if matched.Some? then db' == PointAt(db, a, matched.value) && result == Ok(Reused(matched.value))
      else if !asker.budget then db' == db && result == Err(OverBudget)
      else if !asker.quota then db' == db && result == Err(OverQuota)
      else result == Ok(Created(newId)) && Adds(db, db', newId, asker, a, hash, now)
  {
    FlightsAreActive(db, a);
    active := ActiveRuns(db, a) != {};
    hash := ScoringInputHash(InputOf(db, a).job, InputOf(db, a).resume, asker.settings);
    matched := LatestMatch(db, a, hash);
  }

  /**
   What a request is answered: the first objection; else a run in flight; else the newest SUCCEEDED run
   on the same inputs and settings, which the application then shows; else, within budget and quota, a
   new queued run. Nothing else changes.
   */
  lemma RequestIsAnswered(db: Tables, asker: Asker, a: nat, newId: nat, now: int)
    requires Linked(db)
    ensures var (db', result) := RequestScoring(db, asker, a, newId, now);
      var objection := RequestObjection(db, asker, a);
      if objection.Some? then db' == db && result == Err(objection.value)
      else
        && a in db.applications && db.applications[a].companyId in db.policies
        && var hash := ScoringInputHash(InputOf(db, a).job, InputOf(db, a).resume, asker.settings);
           if exists r :: InFlight(db, a, r)
           then db' == db && result.Ok? && result.value.InProgress? && InFlight(db, a, result.value.run)
           else if exists r :: Matching(db, a, hash, r) then
             && result.Ok? && result.value.Reused? && Matching(db, a, hash, result.value.run)
             && (forall r :: Matching(db, a, hash, r) ==>
                   db.runs[r].createdAt <= db.runs[result.value.run].createdAt)
             && PointsTo(db, db', a, result.value.run)
           else if !asker.budget then db' == db && result == Err(OverBudget)
           else if !asker.quota then db' == db && result == Err(OverQuota)
           else result == Ok(Created(newId)) && Adds(db, db', newId, asker, a, hash, now)
  {
    if RequestObjection(db, asker, a).Some? {
      RefusedRequest(db, asker, a, newId, now);
    } else {
      var hash, active, matched := LetThrough(db, asker, a, newId, now);
      NewestMatch(db, a, hash);
      if matched.Some? {
        PointAtPoints(db, a, matched.value);
      }
    }
  }

  // ---- Whom a bulk request queues ----

  /** An application to the job, in the asker's company, that shows no score. */
  predicate ShowsNone(db: Tables, asker: Asker, jobId: nat, a: nat) {
    a in db.applications && db.applications[a].jobId == jobId && db.applications[a].companyId == asker.companyId &&
    !db.applications[a].deleted && db.applications[a].latestScoringRunId.None?
  }

  ghost predicate Busy(db: Tables, a: nat) {
    exists r :: InFlight(db, a, r)
  }

  /** The candidate opted out, or was not given the notice that the company requires. */
  predicate Barred(db: Tables, p: Policy, a: nat)
    requires Linked(db)
  {
    a in db.applications &&
    var c := db.candidates[db.applications[a].candidateId];
    c.aiOptOutAt.Some? || (p.aiNoticeRequired && c.aiNoticeAt.None?)
  }

  predicate Short(db: Tables, a: nat)
    requires Linked(db)
  {
    a in db.applications && |Text.Trim(db.candidates[db.applications[a].candidateId].resumeText)| < 200
  }

  ghost predicate Eligible(db: Tables, asker: Asker, jobId: nat, p: Policy, a: nat)
    requires Linked(db)
  {
    ShowsNone(db, asker, jobId, a) && !Busy(db, a) && !Barred(db, p, a) && !Short(db, a)
  }

  predicate AppliedBefore(db: Tables, a: nat, b: nat) {
    a in db.applications && b in db.applications &&
    (db.applications[a].createdAt < db.applications[b].createdAt ||
     (db.applications[a].createdAt == db.applications[b].createdAt && a < b))
  }

  lemma ApplicantsInOrder(db: Tables, asker: Asker, jobId: nat)
    ensures var ids := UnscoredApplicants(db, asker, jobId);
      forall i, j :: 0 <= i < j < |ids| ==> AppliedBefore(db, ids[i], ids[j])
  {
    var ids := UnscoredApplicants(db, asker, jobId);
    var keys := set a | a in db.applications &&
      IsUnscored(db, asker, jobId, a) :: Key(db.applications[a].createdAt, 0, a);
    forall i, j | 0 <= i < j < |ids| ensures AppliedBefore(db, ids[i], ids[j]) {
      assert ids[i] in ids && ids[j] in ids;
      var k, l := Key(db.applications[ids[i]].createdAt, 0, ids[i]), Key(db.applications[ids[j]].createdAt, 0, ids[j]);
      assert k in keys && l in keys;
      SortedIdsAscend(keys, k, l, i, j);
    }
  }

  lemma FiltersMean(db: Tables, p: Policy, a: nat)
    requires Linked(db) && a in db.applications
    ensures MayScore(db, p)(a) <==> !Barred(db, p, a)
    ensures HasResume(db)(a) <==> !Short(db, a)
    ensures (IsBusy(db)(a) <==> Busy(db, a)) && (IsIdle(db)(a) <==> !Busy(db, a))
  {
    FlightsAreActive(db, a);
    assert db.applications[a].candidateId in db.candidates;
    var c := db.candidates[db.applications[a].candidateId];
    assert MayScore(db, p)(a) <==> !Refused(c, p);
    assert HasResume(db)(a) <==> LongEnough(c);
    assert Refused(c, p) <==> c.aiOptOutAt.Some? || (p.aiNoticeRequired && c.aiNoticeAt.None?);
  }

  lemma SiftedMembers(db: Tables, asker: Asker, jobId: nat, p: Policy, a: nat)
    ensures var s := Sift(db, asker, jobId, p);
      && (a in s.unscored <==> IsUnscored(db, asker, jobId, a))
      && (a in s.busy <==> a in s.unscored && IsBusy(db)(a)) && (a in s.idle <==> a in s.unscored && IsIdle(db)(a))
      && (a in s.permitted <==> a in s.idle && MayScore(db, p)(a))
      && (a in s.scorable <==> a in s.permitted && HasResume(db)(a))
  {
    var s := Sift(db, asker, jobId, p);
    FilterMembers(s.unscored, IsBusy(db));
    FilterMembers(s.unscored, IsIdle(db));
    FilterMembers(s.idle, MayScore(db, p));
    FilterMembers(s.permitted, HasResume(db));
  }

  lemma SiftedAre(db: Tables, asker: Asker, jobId: nat, p: Policy, a: nat)
    requires Linked(db)
    ensures var s := Sift(db, asker, jobId, p);
      && (a in s.unscored <==> ShowsNone(db, asker, jobId, a))
      && (a in s.busy <==> ShowsNone(db, asker, jobId, a) && Busy(db, a))
      && (a in s.idle <==> ShowsNone(db, asker, jobId, a) && !Busy(db, a))
      && (a in s.permitted <==> ShowsNone(db, asker, jobId, a) && !Busy(db, a) && !Barred(db, p, a))
      && (a in s.scorable <==> Eligible(db, asker, jobId, p, a))
  {
    SiftedMembers(db, asker, jobId, p, a);
    if IsUnscored(db, asker, jobId, a) {
      FiltersMean(db, p, a);
    }
  }

  lemma SiftedAreDistinct(db: Tables, asker: Asker, jobId: nat, p: Policy)
    ensures var s := Sift(db, asker, jobId, p);
      Distinct(s.busy) && Distinct(s.idle) && Distinct(s.permitted) && Distinct(s.scorable)
  {
    var s := Sift(db, asker, jobId, p);
    FilterKeepsDistinct(s.unscored, IsBusy(db));
    FilterKeepsDistinct(s.unscored, IsIdle(db));
    FilterKeepsDistinct(s.idle, MayScore(db, p));
    FilterKeepsDistinct(s.permitted, HasResume(db));
  }

  /** The job's open applications, by what a bulk request makes of them. */
  ghost function InFlightOnes(db: Tables, asker: Asker, jobId: nat): set<nat> {
    set a | a in db.applications && ShowsNone(db, asker, jobId, a) && Busy(db, a)
  }

  ghost function BarredOnes(db: Tables, asker: Asker, jobId: nat, p: Policy): set<nat>
    requires Linked(db)
  {
    set a | a in db.applications && ShowsNone(db, asker, jobId, a) && !Busy(db, a) && Barred(db, p, a)
  }

  ghost function ShortOnes(db: Tables, asker: Asker, jobId: nat, p: Policy): set<nat>
    requires Linked(db)
  {
    set a | a in db.applications && ShowsNone(db, asker, jobId, a) && !Busy(db, a) && !Barred(db, p, a) && Short(db, a)
  }

  ghost function EligibleOnes(db: Tables, asker: Asker, jobId: nat, p: Policy): set<nat>
    requires Linked(db)
  {
    set a | a in db.applications && Eligible(db, asker, jobId, p, a)
  }

  /** The sizes of the lists, by the sets they list. */
  lemma SizesOfSets(s: Sifted, busy: set<nat>, idle: set<nat>, permitted: set<nat>, eligible: set<nat>,
                    barred: set<nat>, short: set<nat>)
    requires Distinct(s.busy) && Distinct(s.idle) && Distinct(s.permitted) && Distinct(s.scorable)
    requires forall a :: (a in s.busy <==> a in busy) && (a in s.scorable <==> a in eligible)
    requires forall a :: (a in s.idle <==> a in idle) && (a in s.permitted <==> a in permitted)
    requires forall a :: (a in barred <==> a in idle && a !in permitted) && (a in permitted ==> a in idle)
    requires forall a :: (a in short <==> a in permitted && a !in eligible) && (a in eligible ==> a in permitted)
    ensures |s.busy| == |busy| && |s.scorable| == |eligible|
    ensures |s.idle| - |s.permitted| == |barred| && |s.permitted| - |s.scorable| == |short|
  {
    DistinctSize(s.busy, busy);
    DistinctSize(s.idle, idle);
    DistinctSize(s.permitted, permitted);
    DistinctSize(s.scorable, eligible);
    assert barred == idle - permitted && permitted <= idle && short == permitted - eligible && eligible <= permitted;
  }

  lemma SiftedSets(db: Tables, asker: Asker, jobId: nat, p: Policy, a: nat)
    requires Linked(db)
    ensures var s := Sift(db, asker, jobId, p);
      && (a in s.busy <==> a in InFlightOnes(db, asker, jobId))
      && (a in s.scorable <==> a in EligibleOnes(db, asker, jobId, p))
      && (a in BarredOnes(db, asker, jobId, p) <==> a in s.idle && a !in s.permitted)
      && (a in ShortOnes(db, asker, jobId, p) <==> a in s.permitted && a !in s.scorable)
      && (a in s.permitted ==> a in s.idle) && (a in s.scorable ==> a in s.permitted)
  {
    SiftedAre(db, asker, jobId, p, a);
  }

  lemma SiftedSizes(db: Tables, asker: Asker, jobId: nat, p: Policy, s: Sifted)
    requires Linked(db) && s == Sift(db, asker, jobId, p)
    ensures |s.busy| == |InFlightOnes(db, asker, jobId)| && |s.scorable| == |EligibleOnes(db, asker, jobId, p)|
    ensures |s.idle| - |s.permitted| == |BarredOnes(db, asker, jobId, p)|
    ensures |s.permitted| - |s.scorable| == |ShortOnes(db, asker, jobId, p)|
  {
    var busy, eligible := InFlightOnes(db, asker, jobId), EligibleOnes(db, asker, jobId, p);
    var barred, short := BarredOnes(db, asker, jobId, p), ShortOnes(db, asker, jobId, p);
    forall a: nat
      ensures (a in s.busy <==> a in busy) && (a in s.scorable <==> a in eligible)
      ensures a in barred <==> a in s.idle && a !in s.permitted
      ensures a in short <==> a in s.permitted && a !in s.scorable
      ensures (a in s.permitted ==> a in s.idle) && (a in s.scorable ==> a in s.permitted)
    {
      SiftedSets(db, asker, jobId, p, a);
    }
    SiftedAreDistinct(db, asker, jobId, p);
    SizesOfSets(s, busy, (set a | a in s.idle), (set a | a in s.permitted), eligible, barred, short);
  }

  /** What the counts of a bulk request count: applicants in flight, barred, too short of text, and the rest. */
  lemma CountsAreOf(db: Tables, asker: Asker, jobId: nat, p: Policy)
    requires Linked(db)
    ensures var r, eligible := BulkCounts(db, asker, jobId, p), |EligibleOnes(db, asker, jobId, p)|;
      && r.alreadyQueued == |InFlightOnes(db, asker, jobId)|
      && r.excluded == |BarredOnes(db, asker, jobId, p)|
      && r.skipped == |ShortOnes(db, asker, jobId, p)|
      && r.queued == (if eligible <= 200 then eligible else 200) && r.remaining == eligible - r.queued
  {
    SiftedSizes(db, asker, jobId, p, Sift(db, asker, jobId, p));
  }

  lemma ScorableInOrder(db: Tables, asker: Asker, jobId: nat, p: Policy)
    ensures var q := Sift(db, asker, jobId, p).scorable;
      forall i, j :: 0 <= i < j < |q| ==> AppliedBefore(db, q[i], q[j])
  {
    var s, before := Sift(db, asker, jobId, p), (x: nat, y: nat) => AppliedBefore(db, x, y);
    ApplicantsInOrder(db, asker, jobId);
    FilterKeepsOrder(s.unscored, IsIdle(db), before);
    FilterKeepsOrder(s.idle, MayScore(db, p), before);
    FilterKeepsOrder(s.permitted, HasResume(db), before);
    var q := s.scorable;
    forall i, j | 0 <= i < j < |q| ensures AppliedBefore(db, q[i], q[j]) {
      assert before(q[i], q[j]);
    }
  }

  /** What comes before in a list, and is not cut off, is before whatever is. */
  lemma BeforeTheCut(q: seq<nat>, n: nat, a: nat, b: nat) returns (i: nat, j: nat)
    requires n <= |q| && a in q[..n] && b in q && b !in q[..n]
    ensures i < j < |q| && q[i] == a && q[j] == b
  {
    i :| 0 <= i < n && q[..n][i] == a;
    j :| 0 <= j < |q| && q[j] == b;
    assert forall k :: 0 <= k < n ==> q[k] == q[..n][k] && q[..n][k] in q[..n];
  }

  lemma CutKeepsOrder(db: Tables, q: seq<nat>, n: nat, a: nat, b: nat)
    requires forall i, j :: 0 <= i < j < |q| ==> AppliedBefore(db, q[i], q[j])
    requires n <= |q| && a in q[..n] && b in q && b !in q[..n]
    ensures AppliedBefore(db, a, b)
  {
    var i, j := BeforeTheCut(q, n, a, b);
  }

  /** A bulk request takes eligible applicants, and of those the ones who applied first. */
  lemma BatchIsFirstEligible(db: Tables, asker: Asker, jobId: nat, p: Policy, a: nat, b: nat)
    requires Linked(db)
    ensures var batch := BulkBatch(db, asker, jobId, p);
      && (a in batch ==> Eligible(db, asker, jobId, p, a))
      && (a in batch && b !in batch && Eligible(db, asker, jobId, p, b) ==> AppliedBefore(db, a, b))
  {
    var q, n := Sift(db, asker, jobId, p).scorable, |BulkBatch(db, asker, jobId, p)|;
    BatchIsCut(db, asker, jobId, p, q, n);
    SiftedSets(db, asker, jobId, p, a);
    SiftedSets(db, asker, jobId, p, b);
    if a in q[..n] && b in q && b !in q[..n] {
      ScorableInOrder(db, asker, jobId, p);
      CutKeepsOrder(db, q, n, a, b);
    }
  }

  lemma BatchIsCut(db: Tables, asker: Asker, jobId: nat, p: Policy, q: seq<nat>, n: nat)
    requires q == Sift(db, asker, jobId, p).scorable && n == |BulkBatch(db, asker, jobId, p)|
    ensures n <= |q| && BulkBatch(db, asker, jobId, p) == q[..n]
  {
  }

  /** A run as a request adds it: the asker's, on the application's inputs now, queued, due at once, never claimed. */
  predicate IsNew(db: Tables, r: Run, asker: Asker, a: nat, now: int)
    requires Linked(db)
  {
    && a in db.applications && db.applications[a].companyId in db.policies
    && r.companyId == asker.companyId && r.applicationId == a && r.createdAt == now && r.settings == asker.settings
    && r.inputHash == ScoringInputHash(InputOf(db, a).job, InputOf(db, a).resume, asker.settings)
    && r.lease.status.Queued? && r.lease.nextAttemptAt == now && r.lease.lockedAt.None?
    && r.lease.attempts == 0 && r.lease.tokens == [] && r.finishedAt.None? && r.aiScore.None?
  }

  lemma {:induction false} CreatedAreNew(db: Tables, asker: Asker, batch: seq<nat>, ids: seq<nat>, now: int, i: nat)
    requires i < |batch| <= |ids| && Linked(db) && asker.companyId in db.policies && Distinct(ids)
    requires forall a :: a in batch ==> a in db.applications && db.applications[a].companyId == asker.companyId
    ensures ids[i] in CreateRuns(db, asker, batch, ids, now).runs
    ensures IsNew(db, CreateRuns(db, asker, batch, ids, now).runs[ids[i]], asker, batch[i], now)
    decreases |batch|
  {
    var input := CurrentInput(db, batch[0]);
    var run := NewRun(asker, batch[0], ScoringInputHash(input.job, input.resume, asker.settings), now);
    var first := WithRun(db, ids[0], run);
    if i == 0 {
      CreateRunsQueues(first, asker, batch[1..], ids[1..], now);
      assert ids[0] !in ids[1..][..|batch| - 1];
      FirstIsNew(db, asker, batch[0], now);
    } else {
      CreatedAreNew(first, asker, batch[1..], ids[1..], now, i - 1);
    }
  }

  lemma FirstIsNew(db: Tables, asker: Asker, a: nat, now: int)
    requires Linked(db) && asker.companyId in db.policies
    requires a in db.applications && db.applications[a].companyId == asker.companyId
    ensures var input := CurrentInput(db, a);
      IsNew(db, NewRun(asker, a, ScoringInputHash(input.job, input.resume, asker.settings), now), asker, a, now)
  {
  }

  /** What a bulk request is refused for before anybody is counted. */
  function BulkObjection(db: Tables, asker: Asker, jobId: nat): Option<RequestError> {
    if jobId !in db.jobs || !asker.visible then Some(NotFound)
    else if |db.jobs[jobId].requirements| == 0 then Some(NoRequirements)
    else if asker.companyId !in db.policies then Some(NotFound)
    else None
  }

  lemma BulkRefused(db: Tables, asker: Asker, jobId: nat, ids: seq<nat>, now: int)
    requires Linked(db) && |ids| >= MAX_BULK_SCORING && BulkObjection(db, asker, jobId).Some?
    ensures RequestJobScoring(db, asker, jobId, ids, now) == (db, Err(BulkObjection(db, asker, jobId).value))
  {
  }

  lemma BulkLetThrough(db: Tables, asker: Asker, jobId: nat, p: Policy, ids: seq<nat>, now: int, batch: seq<nat>,
                       counts: BulkResult)
    requires Linked(db) && |ids| >= MAX_BULK_SCORING && BulkObjection(db, asker, jobId).None?
    requires asker.companyId in db.policies && p == db.policies[asker.companyId]
    requires batch == BulkBatch(db, asker, jobId, p) && counts == BulkCounts(db, asker, jobId, p)
    requires forall a :: a in batch ==> a in db.applications && db.applications[a].companyId == asker.companyId
    requires |batch| <= |ids|
    ensures |batch| == counts.queued
    ensures RequestJobScoring(db, asker, jobId, ids, now) ==
      if batch == [] then (db, Ok(counts))
      else if !asker.budget then (db, Err(OverBudget))
      else if !asker.quota then (db, Err(OverQuota))
      else (CreateRuns(db, asker, batch, ids, now), Ok(counts))
  {
  }

  /**
   What a bulk request is answered: the first objection; the counts, if nobody is eligible; a spent budget
   or quota; or else the counts, and a new run for each of the batch. Nothing else changes.
   */
  lemma BulkIsAnswered(db: Tables, asker: Asker, jobId: nat, ids: seq<nat>, now: int) returns (batch: seq<nat>)
    requires Linked(db) && |ids| >= MAX_BULK_SCORING && Distinct(ids)
    ensures |batch| <= |ids| && (asker.companyId in db.policies ==>
      batch == BulkBatch(db, asker, jobId, db.policies[asker.companyId]))
    ensures var (db', result) := RequestJobScoring(db, asker, jobId, ids, now);
      var objection := BulkObjection(db, asker, jobId);
      if objection.Some? then db' == db && result == Err(objection.value)
      else
        && asker.companyId in db.policies
        && var counts := BulkCounts(db, asker, jobId, db.policies[asker.companyId]);
           if counts.queued == 0 then db' == db && result == Ok(counts)
           else if !asker.budget then db' == db && result == Err(OverBudget)
           else if !asker.quota then db' == db && result == Err(OverQuota)
           else
             && result == Ok(counts) && |batch| == counts.queued && Queues(db, db', batch, ids, now)
             && forall i :: 0 <= i < |batch| ==>
                  ids[i] in db'.runs && IsNew(db, db'.runs[ids[i]], asker, batch[i], now)
  {
    batch := [];
    if asker.companyId in db.policies {
      batch := BulkBatch(db, asker, jobId, db.policies[asker.companyId]);
    }
    if BulkObjection(db, asker, jobId).Some? {
      BulkRefused(db, asker, jobId, ids, now);
    } else {
      var p := db.policies[asker.companyId];
      BatchFits(db, asker, jobId, p, batch);
      BulkLetThrough(db, asker, jobId, p, ids, now, batch, BulkCounts(db, asker, jobId, p));
      CreateRunsQueues(db, asker, batch, ids, now);
      forall i: nat | i < |batch|
        ensures ids[i] in CreateRuns(db, asker, batch, ids, now).runs
        ensures IsNew(db, CreateRuns(db, asker, batch, ids, now).runs[ids[i]], asker, batch[i], now)
      {
        CreatedAreNew(db, asker, batch, ids, now, i);
      }
    }
  }
}
