/** What every reachable state of the scoring queue satisfies, and what whole runs of it keep. */
module ScoringSafety {
  import opened Arith
  import opened Backoff
  import opened Collections
  import opened Options
  import opened Leases
  import opened Ordering
  import opened Reconcile
  import opened ScoreMath
  import opened ScoringTables

  // ---- Steps ----

  /** One transaction. Tickets may be any ever issued, and `work` anything a worker read at any time. */
  datatype Step =
    | Request(asker: Asker, applicationId: nat, newId: nat, now: int)
    | RequestJob(asker: Asker, jobId: nat, ids: seq<nat>, now: int)
    | Claim(now: int)
    | Recover(now: int)
    | Fail(t: Ticket, message: string, now: int)
    | Retry(t: Ticket, failure: Failure, now: int, random: real)
    | Finish(t: Ticket, work: Work, outcome: ModelOutcome, finishedAt: int)
    | Edit(applications: map<nat, Application>, candidates: map<nat, Candidate>,
           jobs: map<nat, Job>, policies: map<nat, Policy>)

  predicate DistinctRequirements(rs: seq<Requirement>) {
    forall i, j :: 0 <= i < j < |rs| ==> rs[i].id != rs[j].id
  }

  predicate Held(db: Tables, t: Ticket) {
    t.id in db.runs && Issued(db.runs[t.id].lease, t)
  }

  predicate SameScore(a: Application, b: Application) {
    a.latestScoringRunId == b.latestScoringRunId && a.aiScore == b.aiScore && a.aiSummary == b.aiSummary &&
    a.scoredAt == b.scoredAt
  }

  predicate NeverScored(a: Application) {
    a.latestScoringRunId.None? && a.aiScore.None? && a.aiSummary.None? && a.scoredAt.None?
  }

  /** Other parts of the product add, change and soft-delete applications, but leave score columns alone. */
  predicate ScoresUntouched(before: map<nat, Application>, after: map<nat, Application>) {
    && before.Keys <= after.Keys
    && (forall a :: a in before ==> after[a].companyId == before[a].companyId && SameScore(before[a], after[a]))
    && (forall a :: a in after && a !in before ==> NeverScored(after[a]))
  }

  /** If the retry requeues its run, the run is due after the token it gives up. */
  predicate DueAfterToken(t: Ticket, f: Failure, now: int, random: real)
    requires t.attempts >= 1
  {
    f.retryable && t.attempts < MAX_ATTEMPTS ==> t.lockedAt < now + RetryDelayMs(t.attempts, f.retryAfterMs, random)
  }

  /**
   What the environment guarantees of a step. Clocks may step either way, but not so far back that
   a requeue falls due before the claim it gives up. Ids are fresh. Requirement ids are a primary key, and the model's
   answer passed the evidence rule for the very job and resume it was asked about.
   */
  predicate Allowed(db: Tables, s: Step, canonical: Canonical)
    requires Linked(db)
  {
    match s
    case Request(_, _, newId, _) => newId !in db.runs
    case RequestJob(_, _, ids, _) => |ids| >= MAX_BULK_SCORING && Distinct(ids) &&
      forall i :: i in ids ==> i !in db.runs
    case Claim(_) => true
    case Recover(_) => true
    case Fail(t, _, _) => Held(db, t)
    case Retry(t, f, now, random) => Held(db, t) && 0.0 <= random < 1.0 && DueAfterToken(t, f, now, random)
    case Finish(t, work, outcome, _) =>
      && Held(db, t) && DistinctRequirements(work.job.requirements)
      && ReconcileResult(outcome.answers, work.job.requirements, work.resume, canonical).Ok?
    case Edit(applications, candidates, jobs, policies) =>
      && ScoresUntouched(db.applications, applications)
      && Linked(db.(applications := applications, candidates := candidates, jobs := jobs, policies := policies))
  }

  function Next(db: Tables, s: Step, canonical: Canonical): Tables
    requires Linked(db) && Allowed(db, s, canonical)
  {
    match s
    case Request(asker, a, newId, now) => RequestScoring(db, asker, a, newId, now).0
    case RequestJob(asker, jobId, ids, now) => RequestJobScoring(db, asker, jobId, ids, now).0
    case Claim(now) => ClaimNext(db, now).0
    case Recover(now) => RecoverStale(db, now)
    case Fail(t, message, now) => FailRun(db, t, message, now)
    case Retry(t, failure, now, random) => RetryOrFail(db, t, failure, now, random)
    case Finish(t, work, outcome, finishedAt) =>
      FinishRun(db, t, work, outcome.model, outcome.summary,
                ReconcileResult(outcome.answers, work.job.requirements, work.resume, canonical).value, finishedAt)
    case Edit(applications, candidates, jobs, policies) =>
      db.(applications := applications, candidates := candidates, jobs := jobs, policies := policies)
  }

  // ---- The invariant ----

  function Reconciled(es: seq<StoredEvaluation>): seq<Evaluation> {
    seq(|es|, i requires 0 <= i < |es| => es[i].evaluation)
  }

  /** A SUCCEEDED run: its score is its evaluations', and they cover exactly what it was scored on. */
  ghost predicate ScoredOk(r: Run, es: seq<StoredEvaluation>, canonical: Canonical) {
    && r.finishedAt.Some? && r.aiSummary.Some? && r.input.Some? && r.scoredWith.Some?
    && r.aiScore == Some(ScoreOf(Scorables(es)))
    && r.inputHash == ScoringInputHash(r.input.value.job, r.input.value.resume, r.scoredWith.value)
    && Complete(Reconciled(es), r.input.value.job.requirements, r.input.value.resume, canonical)
    && (forall i :: 0 <= i < |es| ==>
          es[i].criterion == r.input.value.job.requirements[i].criterion &&
          es[i].weight == r.input.value.job.requirements[i].weight)
  }

  predicate HasSucceeded(r: Run) {
    r.lease.status == Settled(Succeeded)
  }

  /** Evaluations exist for SUCCEEDED runs only. */
  ghost predicate RecordOk(r: Run, es: seq<StoredEvaluation>, canonical: Canonical) {
    if HasSucceeded(r) then ScoredOk(r, es, canonical) else es == []
  }

  /** The denormalised columns are those of a SUCCEEDED run of this very application. */
  ghost predicate MirrorsItsRun(db: Tables, a: nat)
    requires a in db.applications
  {
    var app := db.applications[a];
    match app.latestScoringRunId
    case None => app.aiScore.None? && app.aiSummary.None? && app.scoredAt.None?
    case Some(r) =>
      && r in db.runs && db.runs[r].applicationId == a && HasSucceeded(db.runs[r])
      && app.aiScore == db.runs[r].aiScore && app.aiSummary == db.runs[r].aiSummary
      && app.scoredAt == db.runs[r].finishedAt
  }

  ghost predicate LeasesValid(db: Tables) {
    forall r :: r in db.runs ==> Valid(db.runs[r].lease, MAX_ATTEMPTS)
  }

  ghost predicate RecordsOk(db: Tables, canonical: Canonical) {
    forall r :: r in db.runs ==> RecordOk(db.runs[r], EvaluationsOf(db, r), canonical)
  }

  ghost predicate ApplicationsOk(db: Tables) {
    forall a :: a in db.applications ==> MirrorsItsRun(db, a)
  }

  /** At most one QUEUED or RUNNING run for an application. */
  ghost predicate OneActiveRun(db: Tables) {
    forall a, q, r :: ActiveFor(db, a, q) && ActiveFor(db, a, r) ==> q == r
  }

  ghost predicate WithinCaps(db: Tables) {
    && |RunningRuns(db)| <= GLOBAL_CONCURRENCY
    && forall c :: |RunningOf(db, c)| <= TENANT_CONCURRENCY
  }

  ghost predicate Inv(db: Tables, canonical: Canonical) {
    Linked(db) && LeasesValid(db) && RecordsOk(db, canonical) && ApplicationsOk(db) && OneActiveRun(db) &&
      WithinCaps(db)
  }

  // ---- Sets of running runs ----

  ghost predicate NoNewRunning(db: Tables, db': Tables) {
    forall r :: r in db'.runs && db'.runs[r].lease.status.Running? ==>
      r in db.runs && db.runs[r].lease.status.Running? && db.runs[r].companyId == db'.runs[r].companyId
  }

  lemma CapsShrink(db: Tables, db': Tables)
    requires WithinCaps(db) && NoNewRunning(db, db')
    ensures WithinCaps(db')
  {
    SubsetSize(RunningRuns(db'), RunningRuns(db));
    forall c ensures |RunningOf(db', c)| <= TENANT_CONCURRENCY {
      SubsetSize(RunningOf(db', c), RunningOf(db, c));
    }
  }

  // ---- Steps that only move existing runs forward ----

  /**
   How one row may change: same owner, no reactivation, the claims it had, and if it changes at
   all then with fewer steps left. A settled row has none left, so it never changes.
   */
  ghost predicate Moves(r: Run, r': Run) {
    && r'.companyId == r.companyId && r'.applicationId == r.applicationId
    && (r'.lease.Active() ==> r.lease.Active())
    && r.lease.tokens <= r'.lease.tokens
    && r.lease.attempts <= MAX_ATTEMPTS && r'.lease.attempts <= MAX_ATTEMPTS
    && (r' == r || Remaining(r'.lease, MAX_ATTEMPTS) < Remaining(r.lease, MAX_ATTEMPTS))
  }

  ghost predicate AllMove(db: Tables, db': Tables) {
    && db'.runs.Keys == db.runs.Keys
    && forall r :: r in db.runs ==> Moves(db.runs[r], db'.runs[r])
  }

  /** A move to a valid lease that does not succeed. */
  ghost predicate GoodMove(r: Run, r': Run) {
    Moves(r, r') && Valid(r'.lease, MAX_ATTEMPTS) && (HasSucceeded(r') ==> r' == r)
  }

  /** No table but the runs changes. */
  ghost predicate AllGood(db: Tables, db': Tables) {
    && db' == db.(runs := db'.runs)
    && db'.runs.Keys == db.runs.Keys
    && forall r :: r in db.runs ==> GoodMove(db.runs[r], db'.runs[r])
  }

  lemma MovesKeepOneActive(db: Tables, db': Tables)
    requires OneActiveRun(db) && AllMove(db, db')
    ensures OneActiveRun(db')
  {
    forall a, q, r | ActiveFor(db', a, q) && ActiveFor(db', a, r) ensures q == r {
      assert ActiveFor(db, a, q) && ActiveFor(db, a, r);
    }
  }

  lemma GoodMovesKeepRecords(db: Tables, db': Tables, canonical: Canonical)
    requires RecordsOk(db, canonical) && AllGood(db, db')
    ensures RecordsOk(db', canonical)
  {
    forall r | r in db'.runs ensures RecordOk(db'.runs[r], EvaluationsOf(db', r), canonical) {
      assert GoodMove(db.runs[r], db'.runs[r]);
      assert RecordOk(db.runs[r], EvaluationsOf(db, r), canonical);
    }
  }

  lemma GoodMovesKeepMirrors(db: Tables, db': Tables)
    requires ApplicationsOk(db) && AllGood(db, db')
    ensures ApplicationsOk(db')
  {
    forall a | a in db'.applications ensures MirrorsItsRun(db', a) {
      assert MirrorsItsRun(db, a);
      var latest := db.applications[a].latestScoringRunId;
      if latest.Some? {
        assert GoodMove(db.runs[latest.value], db'.runs[latest.value]);
      }
    }
  }

  lemma GoodMovesKeepInv(db: Tables, db': Tables, canonical: Canonical)
    requires Inv(db, canonical) && AllGood(db, db') && WithinCaps(db')
    ensures Inv(db', canonical) && AllMove(db, db')
  {
    assert AllMove(db, db');
    MovesKeepOneActive(db, db');
    GoodMovesKeepRecords(db, db', canonical);
    GoodMovesKeepMirrors(db, db');
    assert LeasesValid(db') by {
      forall r | r in db'.runs ensures Valid(db'.runs[r].lease, MAX_ATTEMPTS) {
        assert GoodMove(db.runs[r], db'.runs[r]);
      }
    }
  }

  lemma OneMoreRunning(db: Tables, id: nat, r: Run)
    requires id in db.runs && r.companyId == db.runs[id].companyId && r.lease.status.Running?
    requires |RunningRuns(db)| < GLOBAL_CONCURRENCY && |RunningOf(db, r.companyId)| < TENANT_CONCURRENCY
    requires WithinCaps(db)
    ensures WithinCaps(WithRun(db, id, r))
  {
    var db' := WithRun(db, id, r);
    assert RunningRuns(db') == RunningRuns(db) + {id};
    forall c ensures |RunningOf(db', c)| <= TENANT_CONCURRENCY {
      if c == r.companyId {
        assert RunningOf(db', c) == RunningOf(db, c) + {id};
      } else {
        assert RunningOf(db', c) == RunningOf(db, c);
      }
    }
  }

  lemma ClaimKeepsCaps(db: Tables, now: int)
    requires WithinCaps(db)
    ensures WithinCaps(ClaimNext(db, now).0)
  {
    var next := NextRun(db, now);
    if next.Some? {
      OneMoreRunning(db, next.value, db.runs[next.value].(lease := Claimed(db.runs[next.value].lease, now)));
    }
  }

  lemma OneGoodMove(db: Tables, id: nat, r: Run)
    requires LeasesValid(db) && id in db.runs && GoodMove(db.runs[id], r)
    ensures AllGood(db, WithRun(db, id, r))
  {
  }

  lemma OneMoveKeepsInv(db: Tables, id: nat, r: Run, canonical: Canonical)
    requires Inv(db, canonical) && id in db.runs && GoodMove(db.runs[id], r) && WithinCaps(WithRun(db, id, r))
    ensures Inv(WithRun(db, id, r), canonical) && AllMove(db, WithRun(db, id, r))
  {
    OneGoodMove(db, id, r);
    GoodMovesKeepInv(db, WithRun(db, id, r), canonical);
  }

  /** The same for a move that does not start running. */
  lemma OneQuietMoveKeepsInv(db: Tables, id: nat, r: Run, canonical: Canonical)
    requires Inv(db, canonical) && id in db.runs && GoodMove(db.runs[id], r)
    requires r.lease.status.Running? ==> db.runs[id].lease.status.Running?
    ensures Inv(WithRun(db, id, r), canonical) && AllMove(db, WithRun(db, id, r))
  {
    CapsShrink(db, WithRun(db, id, r));
    OneMoveKeepsInv(db, id, r, canonical);
  }

  lemma ClaimKeepsInv(db: Tables, now: int, canonical: Canonical)
    requires Inv(db, canonical)
    ensures Inv(ClaimNext(db, now).0, canonical) && AllMove(db, ClaimNext(db, now).0)
  {
    ClaimKeepsCaps(db, now);
    var next := NextRun(db, now);
    if next.Some? {
      var r := db.runs[next.value];
      ClaimIsGoodMove(r, now);
      OneMoveKeepsInv(db, next.value, r.(lease := Claimed(r.lease, now)), canonical);
    }
  }

  lemma ClaimIsGoodMove(r: Run, now: int)
    requires Valid(r.lease, MAX_ATTEMPTS) && Due(r.lease, now)
    ensures GoodMove(r, r.(lease := Claimed(r.lease, now)))
  {
    ClaimedValid(r.lease, now, MAX_ATTEMPTS);
  }

  lemma RecoverMoves(db: Tables, r: nat, now: int)
    requires r in db.runs && Valid(db.runs[r].lease, MAX_ATTEMPTS)
    ensures r in RecoverStale(db, now).runs && GoodMove(db.runs[r], RecoverStale(db, now).runs[r])
  {
    RecoveredValid(db.runs[r].lease, now, STALE_RUN_MS, MAX_ATTEMPTS, Failed(PROVIDER_UNAVAILABLE));
  }

  lemma RecoverKeepsInv(db: Tables, now: int, canonical: Canonical)
    requires Inv(db, canonical)
    ensures Inv(RecoverStale(db, now), canonical) && AllMove(db, RecoverStale(db, now))
  {
    var db' := RecoverStale(db, now);
    forall r | r in db.runs ensures GoodMove(db.runs[r], db'.runs[r]) {
      RecoverMoves(db, r, now);
    }
    CapsShrink(db, db');
    GoodMovesKeepInv(db, db', canonical);
  }

  lemma FailRowMoves(r: Run, t: Ticket, message: string, now: int)
    requires Valid(r.lease, MAX_ATTEMPTS)
    ensures GoodMove(r, FailRow(r, t, message, now))
    ensures FailRow(r, t, message, now).lease.status.Running? ==> r.lease.status.Running?
  {
    SettledByValid(r.lease, t, Failed(message), MAX_ATTEMPTS);
  }

  lemma FailKeepsInv(db: Tables, t: Ticket, message: string, now: int, canonical: Canonical)
    requires Inv(db, canonical)
    ensures Inv(FailRun(db, t, message, now), canonical) && AllMove(db, FailRun(db, t, message, now))
  {
    if t.id in db.runs {
      FailRowMoves(db.runs[t.id], t, message, now);
      OneQuietMoveKeepsInv(db, t.id, FailRow(db.runs[t.id], t, message, now), canonical);
    }
  }

  /** The delay is at least 8 s and at least what the provider asked for; it never passes 6 minutes on its own. */
  lemma RetryDelayBounds(attempt: nat, retryAfterMs: Option<nat>, random: real)
    requires attempt >= 1 && 0.0 <= random < 1.0
    ensures 8_000 <= RetryDelayMs(attempt, retryAfterMs, random)
    ensures retryAfterMs.Some? ==> retryAfterMs.value <= RetryDelayMs(attempt, retryAfterMs, random)
    ensures RetryDelayMs(attempt, retryAfterMs, random) <=
              Max(360_000, if retryAfterMs.Some? then retryAfterMs.value else 0)
  {
    ExponentialBounds(BASE_BACKOFF_MS, MAX_BACKOFF_MS, attempt);
    JitteredBounds(Exponential(BASE_BACKOFF_MS, MAX_BACKOFF_MS, attempt), random);
  }

  lemma RequeueRowMoves(r: Run, t: Ticket, at: int)
    requires Valid(r.lease, MAX_ATTEMPTS) && Issued(r.lease, t) && t.attempts < MAX_ATTEMPTS && t.lockedAt < at
    ensures GoodMove(r, RequeueRow(r, t, at))
    ensures RequeueRow(r, t, at).lease.status.Running? ==> r.lease.status.Running?
  {
    RequeuedValid(r.lease, t, at, MAX_ATTEMPTS);
  }

  lemma RequeueKeepsInv(db: Tables, t: Ticket, at: int, canonical: Canonical)
    requires Inv(db, canonical) && Held(db, t) && t.attempts < MAX_ATTEMPTS && t.lockedAt < at
    ensures var db' := WithRun(db, t.id, RequeueRow(db.runs[t.id], t, at)); Inv(db', canonical) && AllMove(db, db')
  {
    RequeueRowMoves(db.runs[t.id], t, at);
    OneQuietMoveKeepsInv(db, t.id, RequeueRow(db.runs[t.id], t, at), canonical);
  }

  /** The delays before the second, third and fourth attempt: 10, 20 and 40 s, or a fifth less or more. */
  lemma RetryDelaysDouble(attempt: nat, random: real)
    requires 1 <= attempt <= 3 && 0.0 <= random < 1.0
    ensures var delay := RetryDelayMs(attempt, None, random);
      attempt == 1 ==> 8_000 <= delay <= 12_000
    ensures attempt == 2 ==> 16_000 <= RetryDelayMs(attempt, None, random) <= 24_000
    ensures attempt == 3 ==> 32_000 <= RetryDelayMs(attempt, None, random) <= 48_000
  {
    ExponentialDoubles(BASE_BACKOFF_MS, MAX_BACKOFF_MS, 1);
    ExponentialDoubles(BASE_BACKOFF_MS, MAX_BACKOFF_MS, 2);
    JitteredBounds(Exponential(BASE_BACKOFF_MS, MAX_BACKOFF_MS, attempt), random);
  }

  /**
   A retry fails the run, or puts it back for at least 8 s ahead: past its token unless the clock was set
   back as far.
   */
  lemma RetryEffect(db: Tables, t: Ticket, f: Failure, now: int, random: real)
    returns (message: Option<string>, at: int)
    requires t.id in db.runs && t.attempts >= 1 && 0.0 <= random < 1.0
    ensures message.None? <==> f.retryable && t.attempts < MAX_ATTEMPTS
    ensures message.Some? ==> RetryOrFail(db, t, f, now, random) == FailRun(db, t, message.value, now)
    ensures message.None? ==> now + 8_000 <= at
    ensures message.None? && DueAfterToken(t, f, now, random) ==> t.lockedAt < at
    ensures t.lockedAt < now + 8_000 ==> DueAfterToken(t, f, now, random)
    ensures message.None? ==>
      RetryOrFail(db, t, f, now, random) == WithRun(db, t.id, RequeueRow(db.runs[t.id], t, at))
  {
    at := now + RetryDelayMs(t.attempts, f.retryAfterMs, random);
    RetryDelayBounds(t.attempts, f.retryAfterMs, random);
    message := if !f.retryable then Some(if f.misconfigured then MISCONFIGURED else f.message)
               else if t.attempts >= MAX_ATTEMPTS then Some(PROVIDER_UNAVAILABLE) else None;
  }

  lemma RetryKeepsInv(db: Tables, t: Ticket, f: Failure, now: int, random: real, canonical: Canonical)
    requires Inv(db, canonical) && Held(db, t) && 0.0 <= random < 1.0 && DueAfterToken(t, f, now, random)
    ensures Inv(RetryOrFail(db, t, f, now, random), canonical) && AllMove(db, RetryOrFail(db, t, f, now, random))
  {
    var message, at := RetryEffect(db, t, f, now, random);
    if message.Some? {
      FailKeepsInv(db, t, message.value, now, canonical);
    } else {
      RequeueKeepsInv(db, t, at, canonical);
    }
  }

  // ---- Finishing ----

  lemma FoundById(requirements: seq<Requirement>, i: nat)
    requires DistinctRequirements(requirements) && i < |requirements|
    ensures RequirementById(requirements, requirements[i].id) == Some(requirements[i])
  {
    var r := RequirementById(requirements, requirements[i].id);
    assert IsRequirement(requirements, requirements[i].id);
    var j :| 0 <= j < |requirements| && requirements[j] == r.value;
  }

  /** What createMany writes is the accepted evaluations, each beside its own requirement. */
  lemma StoredBesideRequirements(es: seq<Evaluation>, requirements: seq<Requirement>)
    requires DistinctRequirements(requirements) && |es| == |requirements|
    requires forall i :: 0 <= i < |es| ==> es[i].requirementId == requirements[i].id
    ensures Reconciled(StoredAll(es, requirements)) == es
    ensures forall i :: 0 <= i < |es| ==>
      StoredAll(es, requirements)[i] == StoredEvaluation(requirements[i].criterion, requirements[i].weight, es[i])
  {
    var stored := StoredAll(es, requirements);
    forall i | 0 <= i < |es|
      ensures stored[i] == StoredEvaluation(requirements[i].criterion, requirements[i].weight, es[i])
    {
      FoundById(requirements, i);
    }
  }

  lemma FinishedRunOk(r: Run, t: Ticket, work: Work, outcome: ModelOutcome, finishedAt: int, canonical: Canonical)
    requires Owned(r.lease, t) && DistinctRequirements(work.job.requirements)
    requires ReconcileResult(outcome.answers, work.job.requirements, work.resume, canonical).Ok?
    ensures var es := ReconcileResult(outcome.answers, work.job.requirements, work.resume, canonical).value;
            var stored := StoredAll(es, work.job.requirements);
            ScoredOk(FinishedRow(r, t, work, outcome.model, outcome.summary, ScoreOf(Scorables(stored)), finishedAt),
                     stored, canonical)
  {
    ReconciledExactly(outcome.answers, work.job.requirements, work.resume, canonical);
    StoredBesideRequirements(
      ReconcileResult(outcome.answers, work.job.requirements, work.resume, canonical).value, work.job.requirements);
  }

  lemma OneRecordChanges(db: Tables, db': Tables, id: nat, r: Run, stored: seq<StoredEvaluation>, canonical: Canonical)
    requires Linked(db) && RecordsOk(db, canonical) && RecordOk(r, stored, canonical)
    requires db'.runs == db.runs[id := r] && db'.evaluations == db.evaluations[id := stored]
    ensures RecordsOk(db', canonical)
  {
    forall q | q in db'.runs ensures RecordOk(db'.runs[q], EvaluationsOf(db', q), canonical) {
      if q != id {
        assert RecordOk(db.runs[q], EvaluationsOf(db, q), canonical);
      }
    }
  }

  lemma NoRecordBefore(db: Tables, t: Ticket, canonical: Canonical)
    requires RecordsOk(db, canonical) && t.id in db.runs && Owned(db.runs[t.id].lease, t)
    ensures EvaluationsOf(db, t.id) == []
  {
    assert RecordOk(db.runs[t.id], EvaluationsOf(db, t.id), canonical);
  }

  lemma FinishKeepsRecords(db: Tables, t: Ticket, work: Work, outcome: ModelOutcome, finishedAt: int,
                           canonical: Canonical)
    requires Linked(db) && RecordsOk(db, canonical) && Allowed(db, Finish(t, work, outcome, finishedAt), canonical)
    requires Owned(db.runs[t.id].lease, t)
    ensures RecordsOk(Next(db, Finish(t, work, outcome, finishedAt), canonical), canonical)
  {
    var es := ReconcileResult(outcome.answers, work.job.requirements, work.resume, canonical).value;
    var stored := StoredAll(es, work.job.requirements);
    var r := FinishedRow(db.runs[t.id], t, work, outcome.model, outcome.summary, ScoreOf(Scorables(stored)),
                         finishedAt);
    FinishedRunOk(db.runs[t.id], t, work, outcome, finishedAt, canonical);
    NoRecordBefore(db, t, canonical);
    assert [] + stored == stored;
    OneRecordChanges(db, FinishRun(db, t, work, outcome.model, outcome.summary, es, finishedAt), t.id, r, stored,
                     canonical);
  }

  lemma FinishKeepsMirrors(db: Tables, t: Ticket, work: Work, model: string, summary: string,
                           es: seq<Evaluation>, finishedAt: int)
    requires Linked(db) && ApplicationsOk(db) && t.id in db.runs && Owned(db.runs[t.id].lease, t)
    ensures ApplicationsOk(FinishRun(db, t, work, model, summary, es, finishedAt))
  {
    var db' := FinishRun(db, t, work, model, summary, es, finishedAt);
    forall a | a in db'.applications ensures MirrorsItsRun(db', a) {
      assert MirrorsItsRun(db, a);
    }
  }

  lemma FinishedRowMoves(r: Run, t: Ticket, work: Work, model: string, summary: string, aiScore: int, finishedAt: int)
    requires Valid(r.lease, MAX_ATTEMPTS) && Owned(r.lease, t)
    ensures var r' := FinishedRow(r, t, work, model, summary, aiScore, finishedAt);
            Moves(r, r') && Valid(r'.lease, MAX_ATTEMPTS) && r'.lease.status.Settled?
  {
    SettledByValid(r.lease, t, Succeeded, MAX_ATTEMPTS);
  }

  lemma OneSettles(db: Tables, db': Tables, id: nat, r: Run)
    requires LeasesValid(db) && OneActiveRun(db) && WithinCaps(db) && id in db.runs && db'.runs == db.runs[id := r]
    requires Moves(db.runs[id], r) && Valid(r.lease, MAX_ATTEMPTS) && r.lease.status.Settled?
    ensures LeasesValid(db') && OneActiveRun(db') && WithinCaps(db') && AllMove(db, db')
  {
    MovesKeepOneActive(db, db');
    CapsShrink(db, db');
  }

  lemma FinishKeepsRest(db: Tables, t: Ticket, work: Work, model: string, summary: string,
                        es: seq<Evaluation>, finishedAt: int)
    requires Linked(db) && LeasesValid(db) && OneActiveRun(db) && WithinCaps(db)
    requires t.id in db.runs && Owned(db.runs[t.id].lease, t)
    ensures var db' := FinishRun(db, t, work, model, summary, es, finishedAt);
            Linked(db') && LeasesValid(db') && OneActiveRun(db') && WithinCaps(db') && AllMove(db, db')
  {
    var db' := FinishRun(db, t, work, model, summary, es, finishedAt);
    var aiScore := ScoreOf(Scorables(StoredAll(es, work.job.requirements)));
    FinishedRowMoves(db.runs[t.id], t, work, model, summary, aiScore, finishedAt);
    OneSettles(db, db', t.id, FinishedRow(db.runs[t.id], t, work, model, summary, aiScore, finishedAt));
  }

  lemma FinishKeepsInv(db: Tables, t: Ticket, work: Work, outcome: ModelOutcome, finishedAt: int, canonical: Canonical)
    requires Inv(db, canonical) && Allowed(db, Finish(t, work, outcome, finishedAt), canonical)
    ensures var db' := Next(db, Finish(t, work, outcome, finishedAt), canonical);
            Inv(db', canonical) && AllMove(db, db')
  {
    if Owned(db.runs[t.id].lease, t) {
      var es := ReconcileResult(outcome.answers, work.job.requirements, work.resume, canonical).value;
      FinishKeepsRest(db, t, work, outcome.model, outcome.summary, es, finishedAt);
      FinishKeepsRecords(db, t, work, outcome, finishedAt, canonical);
      FinishKeepsMirrors(db, t, work, outcome.model, outcome.summary, es, finishedAt);
    }
  }

  // ---- Requesting ----

  lemma CreateKeepsOneActive(db: Tables, id: nat, r: Run)
    requires OneActiveRun(db) && id !in db.runs && ActiveRuns(db, r.applicationId) == {}
    ensures OneActiveRun(WithRun(db, id, r))
  {
    var db' := WithRun(db, id, r);
    forall a, p, q | ActiveFor(db', a, p) && ActiveFor(db', a, q) ensures p == q {
      assert p != id ==> ActiveFor(db, a, p) && p in ActiveRuns(db, a);
      assert q != id ==> ActiveFor(db, a, q) && q in ActiveRuns(db, a);
    }
  }

  /** New runs appear; the old ones, and every evaluation, stay as they are. */
  ghost predicate OnlyAdds(db: Tables, db': Tables) {
    && db.runs.Keys <= db'.runs.Keys && db'.evaluations == db.evaluations
    && forall r :: r in db.runs ==> db'.runs[r] == db.runs[r]
  }

  lemma AddingKeepsRecords(db: Tables, db': Tables, canonical: Canonical)
    requires Linked(db) && RecordsOk(db, canonical) && OnlyAdds(db, db')
    requires forall r :: r in db'.runs && r !in db.runs ==> !HasSucceeded(db'.runs[r])
    ensures RecordsOk(db', canonical)
  {
    forall r | r in db'.runs ensures RecordOk(db'.runs[r], EvaluationsOf(db', r), canonical) {
      if r in db.runs {
        assert RecordOk(db.runs[r], EvaluationsOf(db, r), canonical);
      }
    }
  }

  lemma AddingKeepsMirrors(db: Tables, db': Tables)
    requires ApplicationsOk(db) && OnlyAdds(db, db') && ScoresUntouched(db.applications, db'.applications)
    ensures ApplicationsOk(db')
  {
    forall a | a in db'.applications ensures MirrorsItsRun(db', a) {
      if a in db.applications {
        assert MirrorsItsRun(db, a);
        assert SameScore(db.applications[a], db'.applications[a]);
      } else {
        assert NeverScored(db'.applications[a]);
      }
    }
  }

  lemma CreateOnlyAdds(db: Tables, id: nat, r: Run)
    requires Linked(db) && id !in db.runs
    requires r.applicationId in db.applications && r.companyId == db.applications[r.applicationId].companyId
    ensures Linked(WithRun(db, id, r)) && OnlyAdds(db, WithRun(db, id, r))
  {
  }

  lemma CreateKeepsLeases(db: Tables, id: nat, r: Run)
    requires LeasesValid(db) && WithinCaps(db) && id !in db.runs && Valid(r.lease, MAX_ATTEMPTS) &&
      r.lease.status.Queued?
    ensures LeasesValid(WithRun(db, id, r)) && WithinCaps(WithRun(db, id, r))
  {
    CapsShrink(db, WithRun(db, id, r));
  }

  lemma CreateKeepsInv(db: Tables, id: nat, r: Run, canonical: Canonical)
    requires Inv(db, canonical) && id !in db.runs
    requires r.applicationId in db.applications && r.companyId == db.applications[r.applicationId].companyId
    requires ActiveRuns(db, r.applicationId) == {} && Valid(r.lease, MAX_ATTEMPTS) && r.lease.status.Queued?
    ensures Inv(WithRun(db, id, r), canonical) && OnlyAdds(db, WithRun(db, id, r))
  {
    CreateOnlyAdds(db, id, r);
    CreateKeepsLeases(db, id, r);
    CreateKeepsOneActive(db, id, r);
    AddingKeepsRecords(db, WithRun(db, id, r), canonical);
    AddingKeepsMirrors(db, WithRun(db, id, r));
  }

  lemma SameRuns(db: Tables, db': Tables, canonical: Canonical)
    requires Linked(db) && LeasesValid(db) && RecordsOk(db, canonical) && OneActiveRun(db) && WithinCaps(db)
    requires db'.runs == db.runs && db'.evaluations == db.evaluations
    ensures LeasesValid(db') && RecordsOk(db', canonical) && OneActiveRun(db') && WithinCaps(db') && OnlyAdds(db, db')
  {
    AddingKeepsRecords(db, db', canonical);
    CapsShrink(db, db');
    forall a, p, q | ActiveFor(db', a, p) && ActiveFor(db', a, q) ensures p == q {
      assert ActiveFor(db, a, p) && ActiveFor(db, a, q);
    }
  }

  lemma PointAtKeepsMirrors(db: Tables, a: nat, r: nat)
    requires ApplicationsOk(db) && a in db.applications && r in db.runs
    requires db.runs[r].applicationId == a && HasSucceeded(db.runs[r])
    requires Linked(db)
    ensures ApplicationsOk(PointAt(db, a, r)) && Linked(PointAt(db, a, r))
    ensures PointAt(db, a, r) == db.(applications := PointAt(db, a, r).applications)
    ensures PointAt(db, a, r).applications[a].latestScoringRunId == Some(r)
  {
    var db' := PointAt(db, a, r);
    forall b | b in db'.applications ensures MirrorsItsRun(db', b) {
      assert MirrorsItsRun(db, b);
    }
  }

  lemma PointAtKeepsInv(db: Tables, a: nat, r: nat, canonical: Canonical)
    requires Inv(db, canonical) && a in db.applications && r in db.runs
    requires db.runs[r].applicationId == a && HasSucceeded(db.runs[r])
    ensures Inv(PointAt(db, a, r), canonical) && OnlyAdds(db, PointAt(db, a, r))
  {
    var db' := PointAt(db, a, r);
    PointAtKeepsMirrors(db, a, r);
    SameRuns(db, db', canonical);
  }

  /** The three things a request can do to the tables. */
  lemma RequestEffect(db: Tables, asker: Asker, a: nat, newId: nat, now: int)
    requires Linked(db)
    ensures var (db', result) := RequestScoring(db, asker, a, newId, now);
            match result
            case Ok(Reused(r)) => a in db.applications && r in db.runs && HasSucceeded(db.runs[r]) &&
                                  db.runs[r].applicationId == a && db' == PointAt(db, a, r)
            case Ok(Created(r)) => r == newId && a in db.applications && ActiveRuns(db, a) == {} &&
                                   asker.companyId == db.applications[a].companyId && newId in db'.runs &&
                                   db' == WithRun(db, newId, NewRun(asker, a, db'.runs[newId].inputHash, now))
            case _ => db' == db
  {
  }

  lemma RequestKeepsInv(db: Tables, asker: Asker, a: nat, newId: nat, now: int, canonical: Canonical)
    requires Inv(db, canonical) && newId !in db.runs
    ensures Inv(RequestScoring(db, asker, a, newId, now).0, canonical)
    ensures OnlyAdds(db, RequestScoring(db, asker, a, newId, now).0)
  {
    RequestEffect(db, asker, a, newId, now);
    var (db', result) := RequestScoring(db, asker, a, newId, now);
    match result
    case Ok(Reused(r)) => PointAtKeepsInv(db, a, r, canonical);
    case Ok(Created(_)) => CreateKeepsInv(db, newId, NewRun(asker, a, db'.runs[newId].inputHash, now), canonical);
    case _ =>
  }

  lemma {:induction false} CreateRunsKeepsInv(db: Tables, asker: Asker, batch: seq<nat>, ids: seq<nat>, now: int,
                                              canonical: Canonical)
    requires Inv(db, canonical) && |batch| <= |ids| && asker.companyId in db.policies
    requires forall a :: a in batch ==> a in db.applications && db.applications[a].companyId == asker.companyId
    requires Distinct(batch) && forall a :: a in batch ==> ActiveRuns(db, a) == {}
    requires Distinct(ids) && forall i :: i in ids ==> i !in db.runs
    ensures Inv(CreateRuns(db, asker, batch, ids, now), canonical)
    ensures OnlyAdds(db, CreateRuns(db, asker, batch, ids, now))
    decreases |batch|
  {
    if batch != [] {
      var input := CurrentInput(db, batch[0]);
      var r := NewRun(asker, batch[0], ScoringInputHash(input.job, input.resume, asker.settings), now);
      var db' := WithRun(db, ids[0], r);
      CreateKeepsInv(db, ids[0], r, canonical);
      forall a | a in batch[1..] ensures ActiveRuns(db', a) == {} {
        assert a != batch[0];
        assert a in batch;
        assert ActiveRuns(db', a) <= ActiveRuns(db, a);
      }
      forall i | i in ids[1..] ensures i !in db'.runs {
        assert i != ids[0] && i in ids;
      }
      CreateRunsKeepsInv(db', asker, batch[1..], ids[1..], now, canonical);
    }
  }

  lemma RequestJobEffect(db: Tables, asker: Asker, jobId: nat, ids: seq<nat>, now: int)
    requires Linked(db) && |ids| >= MAX_BULK_SCORING
    ensures var db' := RequestJobScoring(db, asker, jobId, ids, now).0;
            db' == db ||
            (asker.companyId in db.policies &&
             db' == CreateRuns(db, asker, BulkBatch(db, asker, jobId, db.policies[asker.companyId]), ids, now))
  {
  }

  lemma RequestJobKeepsInv(db: Tables, asker: Asker, jobId: nat, ids: seq<nat>, now: int, canonical: Canonical)
    requires Inv(db, canonical) && |ids| >= MAX_BULK_SCORING && Distinct(ids)
    requires forall i :: i in ids ==> i !in db.runs
    ensures Inv(RequestJobScoring(db, asker, jobId, ids, now).0, canonical)
    ensures OnlyAdds(db, RequestJobScoring(db, asker, jobId, ids, now).0)
  {
    RequestJobEffect(db, asker, jobId, ids, now);
    if asker.companyId in db.policies {
      var batch := BulkBatch(db, asker, jobId, db.policies[asker.companyId]);
      BatchFits(db, asker, jobId, db.policies[asker.companyId], batch);
      CreateRunsKeepsInv(db, asker, batch, ids, now, canonical);
    }
  }

  lemma BatchFits(db: Tables, asker: Asker, jobId: nat, p: Policy, batch: seq<nat>)
    requires batch == BulkBatch(db, asker, jobId, p)
    ensures |batch| <= MAX_BULK_SCORING && Distinct(batch) && forall a :: a in batch ==> ActiveRuns(db, a) == {}
    ensures forall a :: a in batch ==> a in db.applications && db.applications[a].companyId == asker.companyId
  {
    BulkBatchIsIdle(db, asker, jobId, p);
  }

  lemma EditKeepsInv(db: Tables, s: Step, canonical: Canonical)
    requires Inv(db, canonical) && s.Edit? && Allowed(db, s, canonical)
    ensures Inv(Next(db, s, canonical), canonical) && OnlyAdds(db, Next(db, s, canonical))
  {
    SameRuns(db, Next(db, s, canonical), canonical);
    AddingKeepsMirrors(db, Next(db, s, canonical));
  }

  /** Every step keeps the invariant, and only moves forward the runs there are. */
  lemma StepKeepsInv(db: Tables, s: Step, canonical: Canonical)
    requires Inv(db, canonical) && Allowed(db, s, canonical)
    ensures Inv(Next(db, s, canonical), canonical)
    ensures AllMove(db, Next(db, s, canonical)) || OnlyAdds(db, Next(db, s, canonical))
  {
    match s
    case Request(asker, a, newId, now) => RequestKeepsInv(db, asker, a, newId, now, canonical);
    case RequestJob(asker, jobId, ids, now) => RequestJobKeepsInv(db, asker, jobId, ids, now, canonical);
    case Claim(now) => ClaimKeepsInv(db, now, canonical);
    case Recover(now) => RecoverKeepsInv(db, now, canonical);
    case Fail(t, message, now) => FailKeepsInv(db, t, message, now, canonical);
    case Retry(t, f, now, random) => RetryKeepsInv(db, t, f, now, random, canonical);
    case Finish(t, work, outcome, finishedAt) => FinishKeepsInv(db, t, work, outcome, finishedAt, canonical);
    case Edit(_, _, _, _) => EditKeepsInv(db, s, canonical);
  }
}
