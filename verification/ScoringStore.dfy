/** The transactions as they run: tables updated in place, each proved to be its step. */
module ScoringStore {
  import opened Collections
  import opened Options
  import opened Leases
  import opened Ordering
  import opened Reconcile
  import opened ScoreMath
  import opened ScoringTables

  function BackInQueue(r: Run, now: int): Run {
    r.(lease := r.lease.(status := Queued, lockedAt := None, nextAttemptAt := now))
  }

  function GivenUp(r: Run, now: int): Run {
    r.(lease := r.lease.(status := Settled(Failed(PROVIDER_UNAVAILABLE)), lockedAt := None), finishedAt := Some(now))
  }

  /** The two updates of recovery never touch the same row, and together make the one recovery step. */
  lemma RunRecovers(r: Run, between: Run, after: Run, now: int)
    requires between == if Spare(r.lease, now, STALE_RUN_MS, MAX_ATTEMPTS) then BackInQueue(r, now) else r
    requires after == if Spent(between.lease, now, STALE_RUN_MS, MAX_ATTEMPTS) then GivenUp(between, now) else between
    ensures after == RecoverRun(r, now)
    ensures Spent(between.lease, now, STALE_RUN_MS, MAX_ATTEMPTS) ==> !Spare(r.lease, now, STALE_RUN_MS, MAX_ATTEMPTS)
    ensures after != r <==>
      Spare(r.lease, now, STALE_RUN_MS, MAX_ATTEMPTS) || Spent(between.lease, now, STALE_RUN_MS, MAX_ATTEMPTS)
  {
  }

  lemma RowsRecover(before: map<nat, Run>, spare: set<nat>, between: map<nat, Run>, spent: set<nat>,
                    after: map<nat, Run>, now: int)
    requires spare == set r | r in before && Spare(before[r].lease, now, STALE_RUN_MS, MAX_ATTEMPTS)
    requires between == map r | r in before :: if r in spare then BackInQueue(before[r], now) else before[r]
    requires spent == set r | r in between && Spent(between[r].lease, now, STALE_RUN_MS, MAX_ATTEMPTS)
    requires after == map r | r in between :: if r in spent then GivenUp(between[r], now) else between[r]
    ensures after == map r | r in before :: RecoverRun(before[r], now)
  {
    forall r | r in before ensures after[r] == RecoverRun(before[r], now) {
      RunRecovers(before[r], between[r], after[r], now);
    }
  }

  lemma RowsRecoverCounted(before: map<nat, Run>, spare: set<nat>, between: map<nat, Run>, spent: set<nat>,
                           after: map<nat, Run>, now: int)
    requires spare == set r | r in before && Spare(before[r].lease, now, STALE_RUN_MS, MAX_ATTEMPTS)
    requires between == map r | r in before :: if r in spare then BackInQueue(before[r], now) else before[r]
    requires spent == set r | r in between && Spent(between[r].lease, now, STALE_RUN_MS, MAX_ATTEMPTS)
    requires after == map r | r in between :: if r in spent then GivenUp(between[r], now) else between[r]
    ensures |spare| + |spent| == |set r | r in before && before[r] != after[r]|
  {
    forall r | r in before
      ensures !(r in spare && r in spent)
      ensures before[r] != after[r] <==> r in spare || r in spent
    {
      RunRecovers(before[r], between[r], after[r], now);
    }
    assert spare !! spent;
    assert (set r | r in before && before[r] != after[r]) == spare + spent;
  }

  /** Leaving out the saturated companies leaves the claimable runs. */
  lemma DueOfUnsaturated(db: Tables, now: int, saturated: set<nat>, due: set<nat>)
    requires saturated ==
      set r | r in db.runs && |RunningOf(db, db.runs[r].companyId)| >= TENANT_CONCURRENCY :: db.runs[r].companyId
    requires due == set r | r in db.runs && Due(db.runs[r].lease, now) && db.runs[r].companyId !in saturated
    ensures due == Claimable(db, now)
  {
  }

  lemma EarliestIsNext(db: Tables, now: int, due: set<nat>, keys: set<Key>)
    requires due == Claimable(db, now) && |RunningRuns(db)| < GLOBAL_CONCURRENCY
    requires keys == set r | r in due :: Key(db.runs[r].lease.nextAttemptAt, db.runs[r].createdAt, r)
    ensures NextRun(db, now) == if keys == {} then None else Some(Least(keys).id)
  {
    assert keys == set r | r in Claimable(db, now) :: QueueKey(db, r);
  }

  lemma ClaimsRun(db: Tables, now: int, id: nat, before: Lease<RunOutcome>, after: Lease<RunOutcome>)
    requires NextRun(db, now) == Some(id) && before == db.runs[id].lease
    requires after == before.(status := Running, lockedAt := Some(now), attempts := before.attempts + 1,
                              tokens := before.tokens + [now])
    ensures ClaimNext(db, now) ==
      (db.(runs := db.runs[id := db.runs[id].(lease := after)]), Some(Ticket(id, after.attempts, now)))
  {
  }

  class Store {
    var runs: map<nat, Run>
    var evaluations: map<nat, seq<StoredEvaluation>>
    var applications: map<nat, Application>
    var candidates: map<nat, Candidate>
    var jobs: map<nat, Job>
    var policies: map<nat, Policy>

    function Contents(): Tables
      reads this
    {
      Tables(runs, evaluations, applications, candidates, jobs, policies)
    }

    /** claimNextRun: the caps, then the earliest due run of an unsaturated company. */
    method ClaimNextRun(now: int) returns (claimed: Option<Ticket>)
      modifies this`runs
      ensures (Contents(), claimed) == ClaimNext(old(Contents()), now)
    {
      var totalRunning := |set r | r in runs && runs[r].lease.status.Running?|;
      assert (set r | r in runs && runs[r].lease.status.Running?) == RunningRuns(Contents());
      if totalRunning >= GLOBAL_CONCURRENCY {
        return None;
      }
      var saturated := set r | r in runs &&
        |RunningOf(Contents(), runs[r].companyId)| >= TENANT_CONCURRENCY :: runs[r].companyId;
      var due := set r | r in runs && runs[r].lease.status.Queued? && runs[r].lease.nextAttemptAt <= now &&
                         runs[r].companyId !in saturated;
      DueOfUnsaturated(Contents(), now, saturated, due);
      var keys := set r | r in due :: Key(runs[r].lease.nextAttemptAt, runs[r].createdAt, r);
      EarliestIsNext(Contents(), now, due, keys);
      if keys == {} {
        return None;
      }
      var id := Least(keys).id;
      var before := runs[id].lease;
      var lease := before.(status := Running, lockedAt := Some(now), attempts := before.attempts + 1,
                           tokens := before.tokens + [now]);
      ClaimsRun(Contents(), now, id, before, lease);
      runs := runs[id := runs[id].(lease := lease)];
      return Some(Ticket(id, lease.attempts, now));
    }

    /** The first update of recovery: back to the queue, under the row's attempts. */
    method RequeueStale(now: int) returns (ghost spare: set<nat>, count: nat)
      modifies this`runs
      ensures spare == set r | r in old(runs) && Spare(old(runs)[r].lease, now, STALE_RUN_MS, MAX_ATTEMPTS)
      ensures runs == map r | r in old(runs) :: if r in spare then BackInQueue(old(runs)[r], now) else old(runs)[r]
      ensures count == |spare|
      ensures forall r :: r in old(runs) && r !in spare ==> runs[r] == old(runs)[r]
      ensures forall r :: r in spare ==>
        Due(runs[r].lease, now) && runs[r].lease.attempts == old(runs)[r].lease.attempts < MAX_ATTEMPTS &&
        runs[r].lease.tokens == old(runs)[r].lease.tokens
    {
      var rows := set r | r in runs && Spare(runs[r].lease, now, STALE_RUN_MS, MAX_ATTEMPTS);
      spare, count := rows, |rows|;
      runs := map r | r in runs :: if r in rows then BackInQueue(runs[r], now) else runs[r];
    }

    /** The second: failed, once out of attempts. */
    method FailStale(now: int) returns (ghost spent: set<nat>, count: nat)
      modifies this`runs
      ensures spent == set r | r in old(runs) && Spent(old(runs)[r].lease, now, STALE_RUN_MS, MAX_ATTEMPTS)
      ensures runs == map r | r in old(runs) :: if r in spent then GivenUp(old(runs)[r], now) else old(runs)[r]
      ensures count == |spent|
      ensures forall r :: r in old(runs) && r !in spent ==> runs[r] == old(runs)[r]
      ensures forall r :: r in spent ==>
        runs[r].lease.status == Settled(Failed(PROVIDER_UNAVAILABLE)) && forall t :: !Owned(runs[r].lease, t)
    {
      var rows := set r | r in runs && Spent(runs[r].lease, now, STALE_RUN_MS, MAX_ATTEMPTS);
      spent, count := rows, |rows|;
      runs := map r | r in runs :: if r in rows then GivenUp(runs[r], now) else runs[r];
    }

    /** recoverStaleRuns: two updates in one transaction, and how many rows they touched. */
    method RecoverStaleRuns(now: int) returns (recovered: nat)
      modifies this`runs
      ensures Contents() == RecoverStale(old(Contents()), now)
      ensures recovered == |set r | r in old(runs) && old(runs)[r] != runs[r]|
    {
      ghost var before := runs;
      var spare, requeued := RequeueStale(now);
      ghost var between := runs;
      var spent, failed := FailStale(now);
      recovered := requeued + failed;
      RowsRecover(before, spare, between, spent, runs, now);
      RowsRecoverCounted(before, spare, between, spent, runs, now);
    }

    method FailRun(t: Ticket, message: string, now: int)
      modifies this`runs
      ensures Contents() == ScoringTables.FailRun(old(Contents()), t, message, now)
    {
      if t.id in runs && runs[t.id].lease.status.Running? && runs[t.id].lease.lockedAt == Some(t.lockedAt) {
        var lease := runs[t.id].lease.(status := Settled(Failed(message)), lockedAt := None);
        runs := runs[t.id := runs[t.id].(lease := lease, finishedAt := Some(now))];
      }
      assert t.id in old(runs) ==> runs == old(runs)[t.id := runs[t.id]];
    }

    method RetryOrFail(t: Ticket, failure: Failure, now: int, random: real)
      requires t.attempts >= 1
      modifies this`runs
      ensures Contents() == ScoringTables.RetryOrFail(old(Contents()), t, failure, now, random)
    {
      if !failure.retryable {
        FailRun(t, if failure.misconfigured then MISCONFIGURED else failure.message, now);
        return;
      }
      if t.attempts >= MAX_ATTEMPTS {
        FailRun(t, PROVIDER_UNAVAILABLE, now);
        return;
      }
      var delayMs := RetryDelayMs(t.attempts, failure.retryAfterMs, random);
      if t.id in runs && Owned(runs[t.id].lease, t) {
        var lease := runs[t.id].lease.(status := Queued, lockedAt := None, nextAttemptAt := now + delayMs);
        runs := runs[t.id := runs[t.id].(lease := lease)];
      }
      assert t.id in old(runs) ==> runs == old(runs)[t.id := runs[t.id]];
    }

    /** The final transaction of processRun; `count` is the fenced update's row count. */
    method Finish(t: Ticket, work: Work, model: string, summary: string, es: seq<Evaluation>, finishedAt: int)
      returns (count: nat)
      requires Linked(Contents())
      modifies this`runs, this`evaluations, this`applications
      ensures Contents() == FinishRun(old(Contents()), t, work, model, summary, es, finishedAt)
      ensures count == 1 <==> t.id in old(runs) && Owned(old(runs)[t.id].lease, t)
    {
      var rows := StoredAll(es, work.job.requirements);
      var aiScore := ComputeScore(Scorables(rows));
      if t.id !in runs || !Owned(runs[t.id].lease, t) {
        return 0;
      }
      var r := runs[t.id];
      var used := work.settings.(model := model);
      runs := runs[t.id := r.(
        lease := r.lease.(status := Settled(Succeeded), lockedAt := None),
        finishedAt := Some(finishedAt),
        settings := r.settings.(model := model),
        inputHash := ScoringInputHash(work.job, work.resume, used),
        input := Some(Input(work.job, work.resume)),
        aiScore := Some(aiScore),
        aiSummary := Some(summary),
        scoredWith := Some(used))];
      evaluations := evaluations[t.id := (if t.id in evaluations then evaluations[t.id] else []) + rows];
      applications := applications[r.applicationId := applications[r.applicationId].(
        latestScoringRunId := Some(t.id),
        aiScore := Some(aiScore),
        aiSummary := Some(summary),
        scoredAt := Some(finishedAt))];
      return 1;
    }

    /** processRun: the guards, the evaluator's reply, and the write they lead to. */
    method ProcessRun(t: Ticket, settings: Settings, overBudget: Option<string>, reply: Reply, now: int, random: real)
      requires Linked(Contents()) && t.id in runs && t.attempts >= 1
      modifies this`runs, this`evaluations, this`applications
      ensures Contents() == ScoringTables.ProcessRun(old(Contents()), t, settings, overBudget, reply, now, random)
    {
      var application := applications[runs[t.id].applicationId];
      if application.deleted || application.companyId !in policies {
        FailRun(t, REMOVED, now);
        return;
      }
      var candidate, job := candidates[application.candidateId], jobs[application.jobId];
      var policy := policies[application.companyId];
      if !LongEnough(candidate) {
        FailRun(t, TOO_SHORT, now);
        return;
      }
      if job.requirements == [] {
        FailRun(t, NO_REQUIREMENTS, now);
        return;
      }
      var refusal := ScoringRefusal(candidate, policy);
      if refusal.Some? {
        FailRun(t, refusal.value, now);
        return;
      }
      var resume := ScoringResume(candidate, policy);
      if overBudget.Some? {
        FailRun(t, overBudget.value, now);
        return;
      }
      match reply
      case Errored(failure) =>
        RetryOrFail(t, failure, now, random);
      case Evaluated(model, summary, es) =>
        var _ := Finish(t, Work(job, resume, settings), model, summary, es, now);
    }

    method RequestScoring(asker: Asker, applicationId: nat, newId: nat, now: int)
      returns (result: Result<Requested, RequestError>)
      requires Linked(Contents())
      modifies this`runs, this`applications
      ensures (Contents(), result) == ScoringTables.RequestScoring(old(Contents()), asker, applicationId, newId, now)
    {
      if applicationId !in applications || applications[applicationId].companyId != asker.companyId || !asker.visible {
        return Err(NotFound);
      }
      var application := applications[applicationId];
      if application.deleted {
        return Err(NotFound);
      }
      var candidate, job := candidates[application.candidateId], jobs[application.jobId];
      if !LongEnough(candidate) {
        return Err(TooShort);
      }
      if job.requirements == [] {
        return Err(NoRequirements);
      }
      if asker.companyId !in policies {
        return Err(NotFound);
      }
      var policy := policies[asker.companyId];
      if Refused(candidate, policy) {
        return Err(NotPermitted);
      }
      if ActiveRuns(Contents(), applicationId) != {} {
        return Ok(InProgress(SomeActiveRun(Contents(), applicationId)));
      }
      var inputHash := ScoringInputHash(job, ScoringResume(candidate, policy), asker.settings);
      var previous := LatestMatch(Contents(), applicationId, inputHash);
      if previous.Some? {
        var run := runs[previous.value];
        if application.latestScoringRunId != previous {
          applications := applications[applicationId := application.(
            latestScoringRunId := previous,
            aiScore := run.aiScore,
            aiSummary := run.aiSummary,
            scoredAt := run.finishedAt)];
        }
        return Ok(Reused(previous.value));
      }
      if !asker.budget {
        return Err(OverBudget);
      }
      if !asker.quota {
        return Err(OverQuota);
      }
      runs := runs[newId := NewRun(asker, applicationId, inputHash, now)];
      return Ok(Created(newId));
    }

    /** createMany of one new run for each application of the batch. */
    method CreateMany(asker: Asker, batch: seq<nat>, ids: seq<nat>, now: int)
      requires Linked(Contents()) && |batch| <= |ids| && asker.companyId in policies
      requires forall a :: a in batch ==> a in applications && applications[a].companyId == asker.companyId
      modifies this`runs
      ensures Contents() == CreateRuns(old(Contents()), asker, batch, ids, now)
    {
      assert batch[0..] == batch && ids[0..] == ids;
      for i := 0 to |batch|
        invariant Linked(Contents()) && Contents() == old(Contents()).(runs := runs)
        invariant CreateRuns(Contents(), asker, batch[i..], ids[i..], now) ==
          CreateRuns(old(Contents()), asker, batch, ids, now)
      {
        var a := applications[batch[i]];
        var hash := ScoringInputHash(jobs[a.jobId], ScoringResume(candidates[a.candidateId], policies[asker.companyId]),
                                     asker.settings);
        assert batch[i..][1..] == batch[i + 1..] && ids[i..][1..] == ids[i + 1..];
        runs := runs[ids[i] := NewRun(asker, batch[i], hash, now)];
      }
    }

    /** The filters of requestJobScoring, one after the other. */
    method SiftApplicants(asker: Asker, jobId: nat, policy: Policy) returns (sifted: Sifted)
      ensures sifted == Sift(Contents(), asker, jobId, policy)
    {
      var unscored := UnscoredApplicants(Contents(), asker, jobId);
      var alreadyQueued := Filter(unscored, IsBusy(Contents()));
      var idle := Filter(unscored, IsIdle(Contents()));
      var permitted := Filter(idle, MayScore(Contents(), policy));
      var scorable := Filter(permitted, HasResume(Contents()));
      return Sifted(unscored, alreadyQueued, idle, permitted, scorable);
    }

    method PickBatch(asker: Asker, jobId: nat, policy: Policy) returns (batch: seq<nat>, counts: BulkResult)
      ensures batch == BulkBatch(Contents(), asker, jobId, policy)
      ensures counts == BulkCounts(Contents(), asker, jobId, policy)
    {
      var s := SiftApplicants(asker, jobId, policy);
      batch := if |s.scorable| <= MAX_BULK_SCORING then s.scorable else s.scorable[..MAX_BULK_SCORING];
      counts := BulkResult(|batch|, |s.busy|, |s.permitted| - |s.scorable|, |s.idle| - |s.permitted|,
                           |s.scorable| - |batch|);
    }

    method RequestJobScoring(asker: Asker, jobId: nat, ids: seq<nat>, now: int)
      returns (result: Result<BulkResult, RequestError>)
      requires Linked(Contents()) && |ids| >= MAX_BULK_SCORING
      modifies this`runs
      ensures (Contents(), result) == ScoringTables.RequestJobScoring(old(Contents()), asker, jobId, ids, now)
    {
      if jobId !in jobs || !asker.visible {
        return Err(NotFound);
      }
      if jobs[jobId].requirements == [] {
        return Err(NoRequirements);
      }
      if asker.companyId !in policies {
        return Err(NotFound);
      }
      var db, policy := Contents(), policies[asker.companyId];
      var batch, counts := PickBatch(asker, jobId, policy);
      if |batch| == 0 {
        return Ok(counts);
      }
      if !asker.budget {
        return Err(OverBudget);
      }
      if !asker.quota {
        return Err(OverQuota);
      }
      CreateMany(asker, batch, ids, now);
      return Ok(counts);
    }
  }
}
