/** The scoring queue over whole runs: any number of workers, requests and edits, in any interleaving. */
module ScoringRuns {
  import opened Collections
  import opened Options
  import opened Leases
  import opened Ordering
  import opened Reconcile
  import opened ScoreMath
  import opened ScoringTables
  import opened ScoringSafety
  import Text

  ghost predicate Possible(db: Tables, steps: seq<Step>, canonical: Canonical)
    requires Linked(db)
    decreases |steps|
  {
    steps == [] ||
    (Allowed(db, steps[0], canonical) && Linked(Next(db, steps[0], canonical)) &&
     Possible(Next(db, steps[0], canonical), steps[1..], canonical))
  }

  ghost function Exec(db: Tables, steps: seq<Step>, canonical: Canonical): Tables
    requires Linked(db) && Possible(db, steps, canonical)
    decreases |steps|
  {
    if steps == [] then db else Exec(Next(db, steps[0], canonical), steps[1..], canonical)
  }

  /** How many steps change a run. */
  ghost function Changes(db: Tables, steps: seq<Step>, id: nat, canonical: Canonical): nat
    requires Linked(db) && Possible(db, steps, canonical)
    decreases |steps|
  {
    if steps == [] then 0 else
    var db' := Next(db, steps[0], canonical);
    (if id in db.runs && id in db'.runs && db.runs[id] != db'.runs[id] then 1 else 0) +
      Changes(db', steps[1..], id, canonical)
  }

  /** A workspace before anything was scored. */
  predicate Initial(db: Tables) {
    Linked(db) && db.runs == map[] && forall a :: a in db.applications ==> NeverScored(db.applications[a])
  }

  lemma InitialInv(db: Tables, canonical: Canonical)
    requires Initial(db)
    ensures Inv(db, canonical)
  {
    assert RunningRuns(db) == {};
    forall c ensures |RunningOf(db, c)| <= TENANT_CONCURRENCY {
      assert RunningOf(db, c) == {};
    }
    forall a | a in db.applications ensures MirrorsItsRun(db, a) {
      assert NeverScored(db.applications[a]);
    }
  }

  /** Every state any run reaches satisfies the invariant. */
  lemma {:induction false} RunKeepsInv(db: Tables, steps: seq<Step>, canonical: Canonical)
    requires Inv(db, canonical) && Possible(db, steps, canonical)
    ensures Inv(Exec(db, steps, canonical), canonical)
    decreases |steps|
  {
    if steps != [] {
      StepKeepsInv(db, steps[0], canonical);
      RunKeepsInv(Next(db, steps[0], canonical), steps[1..], canonical);
    }
  }

  /** Caps, one active run per application, distinct tokens and bounded claims in every reachable state. */
  lemma ReachableIsSafe(db: Tables, steps: seq<Step>, canonical: Canonical)
    requires Initial(db) && Possible(db, steps, canonical)
    ensures var end := Exec(db, steps, canonical);
      && |set r | r in end.runs && end.runs[r].lease.status.Running?| <= 8
      && (forall c: nat :: |RunningIn(end, c)| <= 2)
      && (forall q, r :: q in end.runs && r in end.runs && q != r ==>
            || end.runs[q].applicationId != end.runs[r].applicationId
            || end.runs[q].lease.status.Settled? || end.runs[r].lease.status.Settled?)
      && (forall r :: r in end.runs ==> Distinct(end.runs[r].lease.tokens))
      && (forall r :: r in end.runs ==> |end.runs[r].lease.tokens| <= 4)
      && (forall r :: r in end.runs && end.runs[r].lease.status.Queued? ==> end.runs[r].lease.attempts < 4)
  {
    InitialInv(db, canonical);
    RunKeepsInv(db, steps, canonical);
    var end := Exec(db, steps, canonical);
    forall r | r in end.runs
      ensures Distinct(end.runs[r].lease.tokens) && |end.runs[r].lease.tokens| <= MAX_ATTEMPTS
    {
      assert Valid(end.runs[r].lease, MAX_ATTEMPTS);
    }
    assert RunningRuns(end) == set r | r in end.runs && end.runs[r].lease.status.Running?;
    forall c: nat ensures |RunningIn(end, c)| <= 2 {
      assert RunningIn(end, c) == RunningOf(end, c);
    }
    forall q, r | q in end.runs && r in end.runs && end.runs[q].applicationId == end.runs[r].applicationId &&
      !end.runs[q].lease.status.Settled? && !end.runs[r].lease.status.Settled? ensures q == r
    {
      assert ActiveFor(end, end.runs[q].applicationId, q) && ActiveFor(end, end.runs[q].applicationId, r);
    }
  }

  /** The company's running runs. */
  function RunningIn(db: Tables, company: nat): set<nat> {
    set r | r in db.runs && db.runs[r].lease.status.Running? && db.runs[r].companyId == company
  }

  /** In every reachable state a displayed score is its run's, and explains itself. */
  lemma ReachableScoresAgree(db: Tables, steps: seq<Step>, canonical: Canonical, a: nat)
    requires Initial(db) && Possible(db, steps, canonical)
    requires a in Exec(db, steps, canonical).applications
    requires Exec(db, steps, canonical).applications[a].latestScoringRunId.Some?
    ensures var end := Exec(db, steps, canonical);
      var app := end.applications[a];
      && app.latestScoringRunId.value in end.runs
      && var r, es := end.runs[app.latestScoringRunId.value], EvaluationsOf(end, app.latestScoringRunId.value);
         && r.applicationId == a && r.lease.status == Settled(Succeeded)
         && app.aiScore == r.aiScore == Some(ScoreOf(Scorables(es)))
         && app.aiSummary == r.aiSummary && app.scoredAt == r.finishedAt
         && r.input.Some?
         && Complete(Reconciled(es), r.input.value.job.requirements, r.input.value.resume, canonical)
         && (forall i :: 0 <= i < |es| ==>
               es[i].evaluation.verdict.Strong? ==> es[i].evaluation.evidenceStatus.Verified?)
  {
    InitialInv(db, canonical);
    RunKeepsInv(db, steps, canonical);
    var end := Exec(db, steps, canonical);
    assert MirrorsItsRun(end, a);
    var id := end.applications[a].latestScoringRunId.value;
    var es := EvaluationsOf(end, id);
    assert RecordOk(end.runs[id], es, canonical);
    forall i | 0 <= i < |es| ensures es[i].evaluation.verdict.Strong? ==> es[i].evaluation.evidenceStatus.Verified? {
      assert Sound(Reconciled(es)[i], end.runs[id].input.value.resume, canonical);
    }
  }

  lemma StepBoundsWork(db: Tables, s: Step, id: nat, canonical: Canonical)
    requires Inv(db, canonical) && Allowed(db, s, canonical) && id in db.runs
    ensures var db' := Next(db, s, canonical);
      && id in db'.runs && db'.runs[id].lease.attempts <= MAX_ATTEMPTS && db.runs[id].lease.attempts <= MAX_ATTEMPTS
      && db.runs[id].lease.tokens <= db'.runs[id].lease.tokens
      && (db'.runs[id] == db.runs[id] ||
          Remaining(db'.runs[id].lease, MAX_ATTEMPTS) < Remaining(db.runs[id].lease, MAX_ATTEMPTS))
  {
    StepKeepsInv(db, s, canonical);
    assert Valid(db.runs[id].lease, MAX_ATTEMPTS);
    var db' := Next(db, s, canonical);
    if AllMove(db, db') {
      assert Moves(db.runs[id], db'.runs[id]);
    }
  }

  /**
   What a stretch of work may have done to a run: nothing it had is lost, and each change used up a step it
   had left.
   */
  ghost predicate Worked(r: Run, end: Run, changes: nat) {
    && r.lease.attempts <= MAX_ATTEMPTS && end.lease.attempts <= MAX_ATTEMPTS
    && r.lease.tokens <= end.lease.tokens
    && changes + Remaining(end.lease, MAX_ATTEMPTS) <= Remaining(r.lease, MAX_ATTEMPTS) <= 2 * MAX_ATTEMPTS
    && (r.lease.status.Settled? ==> end == r)
  }

  lemma WorkAdds(r: Run, mid: Run, end: Run, changes: nat)
    requires Worked(r, mid, if mid == r then 0 else 1) && Worked(mid, end, changes)
    ensures Worked(r, end, (if mid == r then 0 else 1) + changes)
  {
  }

  /** The first step counts exactly if it changes the run. */
  lemma FirstStepOf(db: Tables, steps: seq<Step>, id: nat, canonical: Canonical) returns (db': Tables)
    requires Linked(db) && Possible(db, steps, canonical) && id in db.runs && steps != []
    ensures Allowed(db, steps[0], canonical) && db' == Next(db, steps[0], canonical)
    ensures Linked(db') && Possible(db', steps[1..], canonical)
    ensures Exec(db, steps, canonical) == Exec(db', steps[1..], canonical)
    ensures id !in db'.runs ||
      Changes(db, steps, id, canonical) ==
        (if db'.runs[id] == db.runs[id] then 0 else 1) + Changes(db', steps[1..], id, canonical)
  {
    db' := Next(db, steps[0], canonical);
  }

  lemma StepWorks(db: Tables, s: Step, id: nat, canonical: Canonical, db': Tables)
    requires Inv(db, canonical) && Allowed(db, s, canonical) && id in db.runs && db' == Next(db, s, canonical)
    ensures id in db'.runs && Worked(db.runs[id], db'.runs[id], if db'.runs[id] == db.runs[id] then 0 else 1)
  {
    StepBoundsWork(db, s, id, canonical);
    assert Valid(db.runs[id].lease, MAX_ATTEMPTS);
  }

  /**
   Whatever the interleaving, a run is changed at most twice for each attempt it has left, keeps
   the claims it has had, and once settled is never changed again.
   */
  lemma {:induction false} WorkIsBounded(db: Tables, steps: seq<Step>, id: nat, canonical: Canonical)
    requires Inv(db, canonical) && Possible(db, steps, canonical) && id in db.runs
    ensures id in Exec(db, steps, canonical).runs
    ensures Worked(db.runs[id], Exec(db, steps, canonical).runs[id], Changes(db, steps, id, canonical))
    decreases |steps|
  {
    if steps == [] {
      assert Valid(db.runs[id].lease, MAX_ATTEMPTS);
    } else {
      var db' := FirstStepOf(db, steps, id, canonical);
      StepKeepsInv(db, steps[0], canonical);
      StepWorks(db, steps[0], id, canonical, db');
      WorkIsBounded(db', steps[1..], id, canonical);
      WorkAdds(db.runs[id], db'.runs[id], Exec(db', steps[1..], canonical).runs[id],
               Changes(db', steps[1..], id, canonical));
    }
  }

  lemma FinishKeepsEvaluations(db: Tables, s: Step, id: nat, canonical: Canonical)
    requires Linked(db) && Allowed(db, s, canonical) && s.Finish? && id in db.runs && db.runs[id].lease.status.Settled?
    ensures EvaluationsOf(Next(db, s, canonical), id) == EvaluationsOf(db, id)
  {
  }

  /** Only requests and finished runs could touch the evaluations. */
  lemma QueueStepsKeepEvaluations(db: Tables, s: Step, canonical: Canonical)
    requires Linked(db) && Allowed(db, s, canonical) && (s.Claim? || s.Recover? || s.Edit?)
    ensures Next(db, s, canonical).evaluations == db.evaluations
  {
  }

  lemma FailuresKeepEvaluations(db: Tables, s: Step, canonical: Canonical)
    requires Linked(db) && Allowed(db, s, canonical) && (s.Fail? || s.Retry?)
    ensures Next(db, s, canonical).evaluations == db.evaluations
  {
  }

  lemma {:induction false} CreateRunsKeepsEvaluations(db: Tables, asker: Asker, batch: seq<nat>, ids: seq<nat>,
                                                      now: int)
    requires |batch| <= |ids| && Linked(db) && asker.companyId in db.policies
    requires forall a :: a in batch ==> a in db.applications && db.applications[a].companyId == asker.companyId
    ensures CreateRuns(db, asker, batch, ids, now).evaluations == db.evaluations
    decreases |batch|
  {
    if batch != [] {
      var input := CurrentInput(db, batch[0]);
      var hash := ScoringInputHash(input.job, input.resume, asker.settings);
      CreateRunsKeepsEvaluations(WithRun(db, ids[0], NewRun(asker, batch[0], hash, now)), asker, batch[1..],
                                 ids[1..], now);
    }
  }

  lemma BatchKeepsEvaluations(db: Tables, asker: Asker, jobId: nat, p: Policy, ids: seq<nat>, now: int)
    requires Linked(db) && |ids| >= MAX_BULK_SCORING && asker.companyId in db.policies
    ensures CreateRuns(db, asker, BulkBatch(db, asker, jobId, p), ids, now).evaluations == db.evaluations
  {
    CreateRunsKeepsEvaluations(db, asker, BulkBatch(db, asker, jobId, p), ids, now);
  }

  lemma BulkKeepsEvaluations(db: Tables, asker: Asker, jobId: nat, ids: seq<nat>, now: int)
    requires Linked(db) && |ids| >= MAX_BULK_SCORING
    ensures RequestJobScoring(db, asker, jobId, ids, now).0.evaluations == db.evaluations
  {
    RequestJobEffect(db, asker, jobId, ids, now);
    if asker.companyId in db.policies {
      BatchKeepsEvaluations(db, asker, jobId, db.policies[asker.companyId], ids, now);
    }
  }

  lemma RequestsKeepEvaluations(db: Tables, s: Step, canonical: Canonical)
    requires Linked(db) && Allowed(db, s, canonical) && (s.Request? || s.RequestJob?)
    ensures Next(db, s, canonical).evaluations == db.evaluations
  {
    match s
    case Request(asker, a, newId, now) => RequestEffect(db, asker, a, newId, now);
    case RequestJob(asker, jobId, ids, now) => BulkKeepsEvaluations(db, asker, jobId, ids, now);
  }

  lemma StepKeepsEvaluations(db: Tables, s: Step, id: nat, canonical: Canonical)
    requires Linked(db) && Allowed(db, s, canonical) && id in db.runs && db.runs[id].lease.status.Settled?
    ensures EvaluationsOf(Next(db, s, canonical), id) == EvaluationsOf(db, id)
  {
    if s.Finish? {
      FinishKeepsEvaluations(db, s, id, canonical);
    } else if s.Request? || s.RequestJob? {
      RequestsKeepEvaluations(db, s, canonical);
    } else if s.Fail? || s.Retry? {
      FailuresKeepEvaluations(db, s, canonical);
    } else {
      QueueStepsKeepEvaluations(db, s, canonical);
    }
  }

  lemma SettledStaysSettled(db: Tables, s: Step, id: nat, canonical: Canonical)
    requires Inv(db, canonical) && Allowed(db, s, canonical) && id in db.runs && db.runs[id].lease.status.Settled?
    ensures var db' := Next(db, s, canonical);
      id in db'.runs && db'.runs[id] == db.runs[id]
  {
    StepBoundsWork(db, s, id, canonical);
  }

  /** The evaluations of a settled run are written once and for all. */
  lemma {:induction false} EvaluationsAreWrittenOnce(db: Tables, steps: seq<Step>, id: nat, canonical: Canonical)
    requires Inv(db, canonical) && Possible(db, steps, canonical) && id in db.runs
    requires db.runs[id].lease.status.Settled?
    ensures EvaluationsOf(Exec(db, steps, canonical), id) == EvaluationsOf(db, id)
    decreases |steps|
  {
    if steps != [] {
      StepKeepsInv(db, steps[0], canonical);
      SettledStaysSettled(db, steps[0], id, canonical);
      StepKeepsEvaluations(db, steps[0], id, canonical);
      EvaluationsAreWrittenOnce(Next(db, steps[0], canonical), steps[1..], id, canonical);
    }
  }

  // ---- What single steps mean ----

  /** A worker whose claim is not the run's newest, or whose run is settled or requeued, changes nothing. */
  lemma LateWorkerChangesNothing(db: Tables, s: Step, canonical: Canonical)
    requires Inv(db, canonical) && Allowed(db, s, canonical)
    requires s.Fail? || s.Retry? || s.Finish?
    requires !(db.runs[s.t.id].lease.status.Running? && s.t.attempts == db.runs[s.t.id].lease.attempts)
    ensures Next(db, s, canonical) == db
  {
    var t := s.t;
    var r := db.runs[t.id];
    FenceIsNewestClaim(r.lease, t, MAX_ATTEMPTS);
    assert db.runs[t.id := r] == db.runs;
    if s.Retry? {
      var message, at := RetryEffect(db, t, s.failure, s.now, s.random);
    }
  }

  /** And the holder of the newest claim of a running run always has its way: the step settles or requeues it. */
  lemma CurrentWorkerActs(db: Tables, s: Step, canonical: Canonical)
    requires Inv(db, canonical) && Allowed(db, s, canonical)
    requires s.Fail? || s.Retry? || s.Finish?
    requires db.runs[s.t.id].lease.status.Running? && s.t.attempts == db.runs[s.t.id].lease.attempts
    ensures var l := Next(db, s, canonical).runs[s.t.id].lease;
      match s
      case Fail(_, message, _) => l.status == Settled(Failed(message))
      case Finish(_, _, _, _) => l.status == Settled(Succeeded)
      case Retry(t, f, now, _) =>
        if f.retryable && t.attempts < MAX_ATTEMPTS then l.status.Queued? && l.nextAttemptAt >= now + 8_000
        else l.status.Settled? && l.status.outcome.Failed?
      case _ => true
  {
    FenceIsNewestClaim(db.runs[s.t.id].lease, s.t, MAX_ATTEMPTS);
    if s.Retry? {
      RetryDelayBounds(s.t.attempts, s.failure.retryAfterMs, s.random);
    }
  }

  lemma NextRunIsEarliest(db: Tables, now: int)
    ensures NextRun(db, now).None? <==> |RunningRuns(db)| >= GLOBAL_CONCURRENCY || Claimable(db, now) == {}
    ensures NextRun(db, now).Some? ==> forall r :: r in Claimable(db, now) ==>
      r == NextRun(db, now).value || Less(QueueKey(db, NextRun(db, now).value), QueueKey(db, r))
  {
    var keys := set r | r in Claimable(db, now) :: QueueKey(db, r);
    forall r | r in Claimable(db, now) ensures QueueKey(db, r) in keys {}
    if Claimable(db, now) != {} {
      var r :| r in Claimable(db, now);
      assert QueueKey(db, r) in keys;
    }
  }

  /** A due run of a company with fewer than two running. */
  predicate Waiting(db: Tables, r: nat, now: int) {
    r in db.runs && db.runs[r].lease.status.Queued? && db.runs[r].lease.nextAttemptAt <= now &&
    |RunningIn(db, db.runs[r].companyId)| < 2
  }

  lemma WaitingIsClaimable(db: Tables, r: nat, now: int)
    ensures Waiting(db, r, now) <==> r in Claimable(db, now)
  {
    if r in db.runs {
      assert RunningOf(db, db.runs[r].companyId) == RunningIn(db, db.runs[r].companyId);
    }
  }

  /** Earlier by the time it is due, then by its creation, then by id. */
  predicate Earlier(db: Tables, r: nat, q: nat)
    requires r in db.runs && q in db.runs
  {
    var x, y := db.runs[r].lease.nextAttemptAt, db.runs[q].lease.nextAttemptAt;
    x < y ||
    (x == y && (db.runs[r].createdAt < db.runs[q].createdAt || (db.runs[r].createdAt == db.runs[q].createdAt && r < q)))
  }

  /** The run is running under a new token that the ticket carries, and nothing else changed. */
  predicate HandsOut(db: Tables, db': Tables, t: Ticket, now: int) {
    t.id in db.runs &&
    var l := db.runs[t.id].lease;
    && t == Ticket(t.id, l.attempts + 1, now) && now !in l.tokens && l.attempts < 4
    && db' == db.(runs := db.runs[t.id := db.runs[t.id].(lease := l.(
         status := Running, lockedAt := Some(now), attempts := l.attempts + 1, tokens := l.tokens + [now]))])
    && Issued(db'.runs[t.id].lease, t)
  }

  lemma ClaimHandsOut(db: Tables, now: int, id: nat)
    requires NextRun(db, now) == Some(id) && Valid(db.runs[id].lease, MAX_ATTEMPTS)
    ensures var (db', claimed) := ClaimNext(db, now);
      claimed.Some? && claimed.value.id == id && HandsOut(db, db', claimed.value, now)
  {
    NewTokenIsNew(db.runs[id].lease, now, MAX_ATTEMPTS);
  }

  lemma NextRunWaits(db: Tables, now: int)
    ensures var next := NextRun(db, now);
      && (next.None? <==>
            |set q | q in db.runs && db.runs[q].lease.status.Running?| >= 8 || forall r :: !Waiting(db, r, now))
      && (next.Some? ==> Waiting(db, next.value, now))
      && (next.Some? ==> forall r :: Waiting(db, r, now) ==> r == next.value || Earlier(db, next.value, r))
  {
    assert RunningRuns(db) == set q | q in db.runs && db.runs[q].lease.status.Running?;
    forall r ensures Waiting(db, r, now) <==> r in Claimable(db, now) {
      WaitingIsClaimable(db, r, now);
    }
    NextRunIsEarliest(db, now);
  }

  /**
   Claiming: nothing is taken exactly when eight runs are running or no due run belongs to a company
   with fewer than two; otherwise the earliest due such run is, under a new token, and no other changes.
   */
  lemma ClaimTakesEarliest(db: Tables, now: int, canonical: Canonical)
    requires Inv(db, canonical)
    ensures var (db', claimed) := ClaimNext(db, now);
      && (claimed.None? <==>
            |set q | q in db.runs && db.runs[q].lease.status.Running?| >= 8 || forall r :: !Waiting(db, r, now))
      && (claimed.None? ==> db' == db)
      && (claimed.Some? ==>
            && Waiting(db, claimed.value.id, now)
            && (forall r :: Waiting(db, r, now) ==> r == claimed.value.id || Earlier(db, claimed.value.id, r))
            && HandsOut(db, db', claimed.value, now))
  {
    NextRunWaits(db, now);
    var next := NextRun(db, now);
    if next.Some? {
      assert Valid(db.runs[next.value].lease, MAX_ATTEMPTS);
      ClaimHandsOut(db, now, next.value);
    }
  }

  /** A SUCCEEDED run of the application, scored on the inputs and settings of this moment. */
  ghost predicate IsCurrent(db: Tables, asker: Asker, a: nat, r: nat)
    requires Linked(db)
  {
    && a in db.applications && asker.companyId in db.policies && db.applications[a].companyId == asker.companyId
    && r in db.runs && db.runs[r].applicationId == a && HasSucceeded(db.runs[r])
    && db.runs[r].input == Some(CurrentInput(db, a)) && db.runs[r].scoredWith == Some(asker.settings)
  }

  /** The application now shows this run's score. */
  ghost predicate Shows(db: Tables, db': Tables, a: nat, r: nat) {
    && db'.runs == db.runs && a in db'.applications && db'.applications[a].latestScoringRunId == Some(r)
    && MirrorsItsRun(db', a)
  }

  /** A run handed out as reused was scored on exactly the inputs and settings a new run would be. */
  lemma ReusedScoredOnCurrentInputs(db: Tables, asker: Asker, a: nat, newId: nat, now: int, canonical: Canonical,
                                    r: nat)
    requires Inv(db, canonical) && newId !in db.runs
    requires RequestScoring(db, asker, a, newId, now).1 == Ok(Reused(r))
    ensures IsCurrent(db, asker, a, r) && Shows(db, RequestScoring(db, asker, a, newId, now).0, a, r)
  {
    RequestEffect(db, asker, a, newId, now);
    assert RecordOk(db.runs[r], EvaluationsOf(db, r), canonical);
    PointAtKeepsMirrors(db, a, r);
    var input := CurrentInput(db, a);
    assert db.runs[r].inputHash == ScoringInputHash(input.job, input.resume, asker.settings);
    SameHashSameInputs(db.runs[r].input.value, db.runs[r].scoredWith.value, input, asker.settings);
  }

  lemma SameHashSameInputs(i: Input, s: Settings, j: Input, u: Settings)
    requires ScoringInputHash(i.job, i.resume, s) == ScoringInputHash(j.job, j.resume, u)
    ensures i == j && s == u
  {
  }

  lemma CreatedMeansNothingMatched(db: Tables, asker: Asker, a: nat, newId: nat, now: int)
    requires Linked(db) && RequestScoring(db, asker, a, newId, now).1 == Ok(Created(newId))
    ensures var db' := RequestScoring(db, asker, a, newId, now).0;
      && asker.budget && asker.quota && newId in db'.runs
      && forall q :: !IsMatch(db, a, db'.runs[newId].inputHash, q)
  {
  }

  /** A request queues a run only when none is active and none scored the same inputs; else nothing is spent. */
  lemma RequestQueuesOnlyWhenNeeded(db: Tables, asker: Asker, a: nat, newId: nat, now: int)
    requires Linked(db) && OneActiveRun(db) && newId !in db.runs
    ensures var (db', result) := RequestScoring(db, asker, a, newId, now);
      match result
      case Err(_) => db' == db
      case Ok(InProgress(r)) => db' == db && ActiveFor(db, a, r) && forall q :: ActiveFor(db, a, q) ==> q == r
      case Ok(Reused(r)) => db'.runs == db.runs
      case Ok(Created(r)) =>
        && r == newId && db'.runs.Keys == db.runs.Keys + {r} && ActiveFor(db', a, r)
        && asker.budget && asker.quota
        && (forall q :: !ActiveFor(db, a, q))
        && (forall q :: !IsMatch(db, a, db'.runs[r].inputHash, q))
  {
    RequestEffect(db, asker, a, newId, now);
    var (db', result) := RequestScoring(db, asker, a, newId, now);
    match result
    case Ok(Created(r)) =>
      CreatedMeansNothingMatched(db, asker, a, newId, now);
      assert forall q :: ActiveFor(db, a, q) ==> q in ActiveRuns(db, a);
    case _ =>
  }

  // ---- Processing, and what a request finds afterwards ----

  /** What an asker of the run's company, whom nothing else stands in the way of, is told. */
  function AskedAgain(db: Tables, id: nat, settings: Settings, newId: nat, now: int): Result<Requested, RequestError>
    requires Linked(db) && id in db.runs
  {
    var asker := Asker(db.runs[id].companyId, settings, true, true, true);
    RequestScoring(db, asker, db.runs[id].applicationId, newId, now).1
  }

  /**
   Queued work is checked again: a worker evaluates exactly what a request of this moment would be let
   through for.
   */
  lemma WorkerChecksWhatRequestsCheck(db: Tables, id: nat, settings: Settings, newId: nat, now: int)
    requires Linked(db) && id in db.runs
    ensures var plan := PlanRun(db, id, settings, None);
      && (plan.Evaluate? <==> AskedAgain(db, id, settings, newId, now).Ok?)
      && (plan.Evaluate? ==>
            && db.applications[db.runs[id].applicationId].companyId in db.policies
            && Input(plan.work.job, plan.work.resume) == CurrentInput(db, db.runs[id].applicationId))
  {
  }

  /** Nothing about the application, its candidate, job or company forbids scoring it. */
  predicate MayBeScored(db: Tables, applicationId: nat)
    requires Linked(db) && applicationId in db.applications
  {
    var a := db.applications[applicationId];
    var c, job := db.candidates[a.candidateId], db.jobs[a.jobId];
    && !a.deleted && a.companyId in db.policies
    && |Text.Trim(c.resumeText)| >= MIN_RESUME_LENGTH && |job.requirements| > 0
    && c.aiOptOutAt.None? && (db.policies[a.companyId].aiNoticeRequired ==> c.aiNoticeAt.Some?)
  }

  /**
   A claim that is processed undisturbed succeeds exactly when it is the newest of a running run, the
   application may still be scored, the budget lasts, and the model's answer was accepted.
   */
  lemma ScoredExactlyWhen(db: Tables, t: Ticket, settings: Settings, overBudget: Option<string>, reply: Reply,
                          now: int, random: real)
    requires Linked(db) && Held(db, t) && Valid(db.runs[t.id].lease, MAX_ATTEMPTS) && !HasSucceeded(db.runs[t.id])
    ensures var db' := ProcessRun(db, t, settings, overBudget, reply, now, random);
      HasSucceeded(db'.runs[t.id]) <==>
        && db.runs[t.id].lease.status.Running? && t.attempts == db.runs[t.id].lease.attempts
        && MayBeScored(db, db.runs[t.id].applicationId) && overBudget.None? && reply.Evaluated?
  {
    FenceIsNewestClaim(db.runs[t.id].lease, t, MAX_ATTEMPTS);
  }

  lemma FinishingLeavesNoActiveRun(db: Tables, t: Ticket, work: Work, model: string, summary: string,
                                   es: seq<Evaluation>, at: int)
    requires Linked(db) && OneActiveRun(db) && t.id in db.runs && Owned(db.runs[t.id].lease, t)
    ensures ActiveRuns(FinishRun(db, t, work, model, summary, es, at), db.runs[t.id].applicationId) == {}
  {
    var db', a := FinishRun(db, t, work, model, summary, es, at), db.runs[t.id].applicationId;
    forall q ensures !ActiveFor(db', a, q) {
      if ActiveFor(db', a, q) {
        assert ActiveFor(db, a, q) && ActiveFor(db, a, t.id);
        assert false;
      }
    }
  }

  /** Finishing adds the run to the matches of its own hash, and changes no other match. */
  lemma FinishingAddsItsMatch(db: Tables, t: Ticket, work: Work, model: string, summary: string,
                              es: seq<Evaluation>, at: int, hash: Digest)
    requires Linked(db) && t.id in db.runs && Owned(db.runs[t.id].lease, t)
    ensures var a := db.runs[t.id].applicationId;
      LatestMatch(FinishRun(db, t, work, model, summary, es, at), a, hash).Some? <==>
        hash == ScoringInputHash(work.job, work.resume, Used(work, model)) || LatestMatch(db, a, hash).Some?
  {
    var db', a := FinishRun(db, t, work, model, summary, es, at), db.runs[t.id].applicationId;
    forall q
      ensures IsMatch(db', a, hash, q) <==>
        (q == t.id && hash == ScoringInputHash(work.job, work.resume, Used(work, model))) || IsMatch(db, a, hash, q)
    {
    }
    assert IsMatch(db', a, hash, t.id) <==> hash == ScoringInputHash(work.job, work.resume, Used(work, model));
  }

  /**
   A score just written is reused by the next request exactly when the configured model answered,
   or some earlier run matches. Otherwise, as after the answer of a fallback model, a run is queued.
   */
  lemma FreshScoreIsReusedExactly(db: Tables, t: Ticket, settings: Settings, model: string, summary: string,
                                  es: seq<Evaluation>, at: int, newId: nat, now: int)
    requires Linked(db) && OneActiveRun(db) && t.id in db.runs && Owned(db.runs[t.id].lease, t)
    requires PlanRun(db, t.id, settings, None).Evaluate?
    ensures var a := db.runs[t.id].applicationId;
      var work := PlanRun(db, t.id, settings, None).work;
      var again := AskedAgain(FinishRun(db, t, work, model, summary, es, at), t.id, settings, newId, now);
      var matched := LatestMatch(db, a, ScoringInputHash(work.job, work.resume, settings)).Some?;
      && again.Ok?
      && (again.value.Reused? <==> model == settings.model || matched)
      && (again.value == Created(newId) <==> model != settings.model && !matched)
  {
    var work := PlanRun(db, t.id, settings, None).work;
    FinishingLeavesNoActiveRun(db, t, work, model, summary, es, at);
    FinishingAddsItsMatch(db, t, work, model, summary, es, at, ScoringInputHash(work.job, work.resume, settings));
  }

  /** A running run, claimed at 0, of an application whose resume is long enough and whose job asks for one thing. */
  function Example(settings: Settings, resume: string): Tables {
    var job := Job("Engineer", "", [Requirement("r1", "Writes Go", Must)]);
    var hash := ScoringInputHash(job, resume, settings);
    var run := Run(0, 0, 0, settings, hash, Claimed(Fresh(0), 0), None, None, None, None, None);
    Tables(map[0 := run], map[], map[0 := Application(0, 0, 0, 0, false, None, None, None, None)],
           map[0 := Candidate(resume, resume, None, None)], map[0 := job], map[0 := Policy(false, false)])
  }

  /** After the answer of a fallback model the same question is asked, and paid for, again. */
  lemma FallbackAnswerIsPaidTwice(es: seq<Evaluation>)
    ensures var settings, resume := Settings("primary", "v1", 0.0, 0), seq(200, _ => 'a');
      var db, t := Example(settings, resume), Ticket(0, 1, 0);
      && Linked(db) && Owned(db.runs[0].lease, t) && PlanRun(db, 0, settings, None).Evaluate?
      && AskedAgain(FinishRun(db, t, PlanRun(db, 0, settings, None).work, "fallback", "", es, 1), 0, settings, 1, 2) ==
           Ok(Created(1))
  {
    var settings, resume := Settings("primary", "v1", 0.0, 0), seq(200, _ => 'a');
    var db, t := Example(settings, resume), Ticket(0, 1, 0);
    assert Text.Trim(resume) == resume;
    var hash := ScoringInputHash(db.jobs[0], resume, settings);
    assert forall r :: !IsMatch(db, 0, hash, r);
    FreshScoreIsReusedExactly(db, t, settings, "fallback", "", es, 1, 1, 2);
  }

  /** Asked under prompt v1 and scored under v2, the run's columns give a hash that is not its own. */
  lemma RedeployedColumnsDoNotExplain(resume: string, summary: string, aiScore: int)
    ensures var asked, scored := Settings("primary", "v1", 0.0, 0), Settings("primary", "v2", 0.0, 0);
      var db := Example(asked, resume);
      var r' := FinishedRow(db.runs[0], Ticket(0, 1, 0), Work(db.jobs[0], resume, scored), "primary", summary,
                            aiScore, 1);
      r'.inputHash != ScoringInputHash(db.jobs[0], resume, r'.settings)
  {
    var asked, scored := Settings("primary", "v1", 0.0, 0), Settings("primary", "v2", 0.0, 0);
    var db := Example(asked, resume);
    assert "v1"[1] != "v2"[1];
    SettingsColumnsExplainTheRun(db.runs[0], Ticket(0, 1, 0), Work(db.jobs[0], resume, scored), "primary", summary,
                                 aiScore, 1);
  }

  // ---- Recovery ----

  /**
   Recovery touches exactly the runs whose worker has been silent for more than three minutes: those
   with attempts left are due at once with the claims they had, the others are FAILED, and a younger
   claim is left alone. Doing it again changes nothing.
   */
  lemma RecoveryLeavesNoneStale(db: Tables, now: int)
    ensures var db' := RecoverStale(db, now);
      && db' == db.(runs := db'.runs) && db'.runs.Keys == db.runs.Keys && RecoverStale(db', now) == db'
      && forall r :: r in db.runs ==>
           var was, l, l' := db.runs[r], db.runs[r].lease, db'.runs[r].lease;
           && (db'.runs[r] != was <==> l.status.Running? && l.lockedAt.Some? && l.lockedAt.value < now - 180_000)
           && (l'.status.Running? && l'.lockedAt.Some? ==> now - 180_000 <= l'.lockedAt.value)
           && (db'.runs[r] != was ==>
                 && l'.attempts == l.attempts && l'.tokens == l.tokens && l'.lockedAt.None?
                 && if l.attempts < 4 then l'.status.Queued? && l'.nextAttemptAt == now
                    else l'.status == Settled(Failed(PROVIDER_UNAVAILABLE)) && db'.runs[r].finishedAt == Some(now))
  {
    var db' := RecoverStale(db, now);
    assert RecoverStale(db', now).runs == db'.runs;
  }

  // ---- Bulk requests ----

  /** One fresh queued run for each of the batch, under the first of the ids, and no other run touched. */
  ghost predicate Queues(db: Tables, db': Tables, batch: seq<nat>, ids: seq<nat>, now: int)
    requires |batch| <= |ids|
  {
    && (forall r :: r in db'.runs <==> r in db.runs || r in ids[..|batch|])
    && (forall i :: 0 <= i < |batch| ==>
          ids[i] in db'.runs && db'.runs[ids[i]].applicationId == batch[i] && db'.runs[ids[i]].lease == Fresh(now))
    && (forall r :: r in db.runs && r !in ids[..|batch|] ==> r in db'.runs && db'.runs[r] == db.runs[r])
  }

  lemma QueuesOneMore(db: Tables, first: Tables, end: Tables, r: Run, batch: seq<nat>, ids: seq<nat>, now: int)
    requires 0 < |batch| <= |ids| && Distinct(ids) && first == WithRun(db, ids[0], r)
    requires r.applicationId == batch[0] && r.lease == Fresh(now) && Queues(first, end, batch[1..], ids[1..], now)
    ensures Queues(db, end, batch, ids, now)
  {
    assert ids[..|batch|] == [ids[0]] + ids[1..][..|batch| - 1];
    assert ids[0] !in ids[1..][..|batch| - 1];
    assert ids[0] in first.runs;
    forall i | 0 <= i < |batch|
      ensures ids[i] in end.runs && end.runs[ids[i]].applicationId == batch[i] && end.runs[ids[i]].lease == Fresh(now)
    {
      assert i > 0 ==> ids[i] == ids[1..][i - 1] && batch[i] == batch[1..][i - 1];
    }
  }

  lemma {:induction false} CreateRunsQueues(db: Tables, asker: Asker, batch: seq<nat>, ids: seq<nat>, now: int)
    requires |batch| <= |ids| && Linked(db) && asker.companyId in db.policies && Distinct(ids)
    requires forall a :: a in batch ==> a in db.applications && db.applications[a].companyId == asker.companyId
    ensures Queues(db, CreateRuns(db, asker, batch, ids, now), batch, ids, now)
    decreases |batch|
  {
    if batch != [] {
      var input := CurrentInput(db, batch[0]);
      var hash := ScoringInputHash(input.job, input.resume, asker.settings);
      var run := NewRun(asker, batch[0], hash, now);
      CreateRunsQueues(WithRun(db, ids[0], run), asker, batch[1..], ids[1..], now);
      QueuesOneMore(db, WithRun(db, ids[0], run), CreateRuns(db, asker, batch, ids, now), run, batch, ids, now);
    }
  }

  /**
   A bulk request queues as many runs as it says, each for an applicant of its own who had none, and touches
   no other.
   */
  lemma BulkRequestQueuesWhatItSays(db: Tables, asker: Asker, jobId: nat, ids: seq<nat>, now: int)
    returns (batch: seq<nat>)
    requires Linked(db) && |ids| >= MAX_BULK_SCORING && Distinct(ids) && forall i :: i in ids ==> i !in db.runs
    ensures |batch| <= |ids| && Queues(db, RequestJobScoring(db, asker, jobId, ids, now).0, batch, ids, now)
    ensures Distinct(batch) && forall a :: a in batch ==> IsUnscored(db, asker, jobId, a) && ActiveRuns(db, a) == {}
    ensures match RequestJobScoring(db, asker, jobId, ids, now).1
            case Ok(result) => |batch| == result.queued
            case Err(_) => batch == []
  {
    var ok, after;
    batch, ok, after := BulkOutcome(db, asker, jobId, ids, now);
    if ok {
      BatchQueues(db, asker, jobId, db.policies[asker.companyId], batch, ids, now);
    }
  }

  lemma BatchQueues(db: Tables, asker: Asker, jobId: nat, p: Policy, batch: seq<nat>, ids: seq<nat>, now: int)
    requires Linked(db) && |ids| >= MAX_BULK_SCORING && Distinct(ids) && asker.companyId in db.policies
    requires batch == BulkBatch(db, asker, jobId, p)
    ensures Queues(db, CreateRuns(db, asker, batch, ids, now), batch, ids, now)
    ensures Distinct(batch) && forall a :: a in batch ==> IsUnscored(db, asker, jobId, a) && ActiveRuns(db, a) == {}
  {
    BulkBatchIsIdle(db, asker, jobId, p);
    CreateRunsQueues(db, asker, batch, ids, now);
  }

  /** A bulk request queues the batch it reports, or nothing. */
  lemma BulkOutcome(db: Tables, asker: Asker, jobId: nat, ids: seq<nat>, now: int)
    returns (batch: seq<nat>, ok: bool, after: Tables)
    requires Linked(db) && |ids| >= MAX_BULK_SCORING
    ensures var (db', reply) := RequestJobScoring(db, asker, jobId, ids, now);
      && after == db' && (ok <==> reply.Ok?) && (ok ==> |batch| == reply.value.queued) && (!ok ==> batch == [])
    ensures ok ==> asker.companyId in db.policies && batch == BulkBatch(db, asker, jobId, db.policies[asker.companyId])
    ensures ok ==> after == CreateRuns(db, asker, batch, ids, now)
    ensures !ok ==> after == db
  {
    ok, after := RequestJobScoring(db, asker, jobId, ids, now).1.Ok?, RequestJobScoring(db, asker, jobId, ids, now).0;
    batch := if ok then BulkBatch(db, asker, jobId, db.policies[asker.companyId]) else [];
  }

  lemma CountsAddUp(db: Tables, asker: Asker, jobId: nat, p: Policy)
    ensures var r := BulkCounts(db, asker, jobId, p);
      && r.queued + r.alreadyQueued + r.skipped + r.excluded + r.remaining == |UnscoredApplicants(db, asker, jobId)|
      && r.queued <= MAX_BULK_SCORING && (r.remaining > 0 ==> r.queued == MAX_BULK_SCORING)
  {
    FilterSplits(UnscoredApplicants(db, asker, jobId), IsIdle(db), IsBusy(db));
  }

  /** Every unscored applicant of the job is counted exactly once. */
  lemma BulkRequestCountsEveryone(db: Tables, asker: Asker, jobId: nat, ids: seq<nat>, now: int)
    requires Linked(db) && |ids| >= MAX_BULK_SCORING
    ensures var result := RequestJobScoring(db, asker, jobId, ids, now).1;
      result.Ok? ==>
        var r := result.value;
        && r.queued + r.alreadyQueued + r.skipped + r.excluded + r.remaining == |UnscoredApplicants(db, asker, jobId)|
        && r.queued <= MAX_BULK_SCORING && (r.remaining > 0 ==> r.queued == MAX_BULK_SCORING)
  {
    if asker.companyId in db.policies {
      CountsAddUp(db, asker, jobId, db.policies[asker.companyId]);
    }
  }

  /**
   The settings columns of a finished run are those it was scored with exactly when the deployment
   that asked for it and the one that ran it agree on prompt version, temperature and seed.
   */
  lemma SettingsColumnsExplainTheRun(r: Run, t: Ticket, work: Work, model: string, summary: string, aiScore: int,
                                     at: int)
    requires Owned(r.lease, t)
    ensures var r' := FinishedRow(r, t, work, model, summary, aiScore, at);
      r'.inputHash == ScoringInputHash(work.job, work.resume, r'.settings) <==>
        r.settings.promptVersion == work.settings.promptVersion &&
        r.settings.temperature == work.settings.temperature && r.settings.seed == work.settings.seed
  {
  }
}
