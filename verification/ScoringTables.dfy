/**
 The scoring queue as a database: its tables, and what each transaction does to them
 (backend/src/scoring/queue.ts, backend/src/services/scoring.ts).
 Every transaction is one atomic step. Ids stand for their rank in string order.
 */
module ScoringTables {
  import opened Arith
  import opened Backoff
  import opened Collections
  import opened Options
  import opened Leases
  import opened Ordering
  import opened Reconcile
  import opened ScoreMath
  import Text

  const TENANT_CONCURRENCY := 2
  const GLOBAL_CONCURRENCY := 8
  const MAX_ATTEMPTS := 4
  const BASE_BACKOFF_MS := 10_000
  const MAX_BACKOFF_MS := 300_000
  const STALE_RUN_MS := 180_000
  const MIN_RESUME_LENGTH := 200
  const MAX_BULK_SCORING := 200

  const PROVIDER_UNAVAILABLE := "The AI provider is unavailable right now. Try scoring again later."
  const MISCONFIGURED :=
    "AI scoring is misconfigured: the provider rejected the API key or model. " +
    "Ask an admin to check GROQ_API_KEY and GROQ_MODEL."

  datatype RunOutcome = Succeeded | Failed(error: string)

  datatype Settings = Settings(model: string, promptVersion: string, temperature: real, seed: int)

  datatype Job = Job(title: string, description: string, requirements: seq<Requirement>)

  /** The `input` column: what the model was given. */
  datatype Input = Input(job: Job, resume: string)

  /** SHA-256 over the canonical array, idealised as its preimage, so equal hashes mean equal fields. */
  datatype Digest = Digest(
    promptVersion: string, model: string, temperature: real, seed: int,
    title: string, description: string, requirements: seq<Requirement>, resume: string)

  datatype StoredEvaluation = StoredEvaluation(criterion: string, weight: Weight, evaluation: Evaluation)

  /** `scoredWith` is a history variable: the settings a SUCCEEDED run was in fact scored with. */
  datatype Run = Run(
    companyId: nat,
    applicationId: nat,
    createdAt: int,
    settings: Settings,
    inputHash: Digest,
    lease: Lease<RunOutcome>,
    finishedAt: Option<int>,
    aiScore: Option<int>,
    aiSummary: Option<string>,
    input: Option<Input>,
    scoredWith: Option<Settings>)

  datatype Candidate =
    Candidate(resumeText: string, redactedText: string, aiNoticeAt: Option<int>, aiOptOutAt: Option<int>)

  datatype Policy = Policy(aiRedactPii: bool, aiNoticeRequired: bool)

  datatype Application = Application(
    companyId: nat,
    jobId: nat,
    candidateId: nat,
    createdAt: int,
    deleted: bool,
    latestScoringRunId: Option<nat>,
    aiScore: Option<int>,
    aiSummary: Option<string>,
    scoredAt: Option<int>)

  datatype Tables = Tables(
    runs: map<nat, Run>,
    evaluations: map<nat, seq<StoredEvaluation>>,
    applications: map<nat, Application>,
    candidates: map<nat, Candidate>,
    jobs: map<nat, Job>,
    policies: map<nat, Policy>)

  /** The foreign keys the database enforces. */
  predicate Linked(db: Tables) {
    && (forall r :: r in db.runs ==>
          && db.runs[r].applicationId in db.applications
          && db.runs[r].companyId == db.applications[db.runs[r].applicationId].companyId)
    && (forall a :: a in db.applications ==>
          db.applications[a].candidateId in db.candidates && db.applications[a].jobId in db.jobs)
    && db.evaluations.Keys <= db.runs.Keys
  }

  function EvaluationsOf(db: Tables, id: nat): seq<StoredEvaluation> {
    if id in db.evaluations then db.evaluations[id] else []
  }

  // ---- Inputs ----

  function ScoringInputHash(job: Job, resume: string, settings: Settings): Digest {
    Digest(settings.promptVersion, settings.model, settings.temperature, settings.seed,
           job.title, job.description, job.requirements, resume)
  }

  function ScoringResume(c: Candidate, p: Policy): string {
    if p.aiRedactPii then c.redactedText else c.resumeText
  }

  const OPTED_OUT := "This candidate opted out of AI scoring. Review their application without it."
  const NOTICE_REQUIRED :=
    "Your workspace requires the AI notice before scoring. Record that this candidate was given it first."

  /** Why a candidate may not be scored, if they may not. */
  function ScoringRefusal(c: Candidate, p: Policy): Option<string> {
    if c.aiOptOutAt.Some? then Some(OPTED_OUT)
    else if p.aiNoticeRequired && c.aiNoticeAt.None? then Some(NOTICE_REQUIRED)
    else None
  }

  predicate Refused(c: Candidate, p: Policy) {
    ScoringRefusal(c, p).Some?
  }

  predicate LongEnough(c: Candidate) {
    |Text.Trim(c.resumeText)| >= MIN_RESUME_LENGTH
  }

  // ---- Claiming ----

  function RunningRuns(db: Tables): set<nat> {
    set r | r in db.runs && db.runs[r].lease.status.Running?
  }

  function RunningOf(db: Tables, companyId: nat): set<nat> {
    set r | r in db.runs && db.runs[r].lease.status.Running? && db.runs[r].companyId == companyId
  }

  function Claimable(db: Tables, now: int): set<nat> {
    set r | r in db.runs && Due(db.runs[r].lease, now) && |RunningOf(db, db.runs[r].companyId)| < TENANT_CONCURRENCY
  }

  function QueueKey(db: Tables, r: nat): Key
    requires r in db.runs
  {
    Key(db.runs[r].lease.nextAttemptAt, db.runs[r].createdAt, r)
  }

  function NextRun(db: Tables, now: int): (next: Option<nat>)
    ensures next.Some? ==> next.value in Claimable(db, now)
  {
    var keys := set r | r in Claimable(db, now) :: QueueKey(db, r);
    if |RunningRuns(db)| >= GLOBAL_CONCURRENCY || keys == {} then None
    else
      var k := Least(keys);
      Some(k.id)
  }

  function WithRun(db: Tables, id: nat, r: Run): Tables {
    db.(runs := db.runs[id := r])
  }

  function ClaimNext(db: Tables, now: int): (Tables, Option<Ticket>) {
    match NextRun(db, now)
    case None => (db, None)
    case Some(id) =>
      var r := db.runs[id].(lease := Claimed(db.runs[id].lease, now));
      (WithRun(db, id, r), Some(Ticket(id, r.lease.attempts, now)))
  }

  // ---- Recovery, failure, retry ----

  function RecoverRun(r: Run, now: int): Run {
    var l := Recovered(r.lease, now, STALE_RUN_MS, MAX_ATTEMPTS, Failed(PROVIDER_UNAVAILABLE));
    r.(lease := l, finishedAt := if l.status.Settled? && r.lease.Active() then Some(now) else r.finishedAt)
  }

  function RecoverStale(db: Tables, now: int): Tables {
    db.(runs := map r | r in db.runs :: RecoverRun(db.runs[r], now))
  }

  function FailRow(r: Run, t: Ticket, message: string, now: int): Run {
    if Owned(r.lease, t)
    then r.(lease := SettledBy(r.lease, t, Failed(message)), finishedAt := Some(now))
    else r
  }

  function FailRun(db: Tables, t: Ticket, message: string, now: int): Tables {
    if t.id in db.runs then WithRun(db, t.id, FailRow(db.runs[t.id], t, message, now)) else db
  }

  /** classifyProviderFailure's verdict on an error, with the message a permanent one is stored under. */
  datatype Failure = Failure(retryable: bool, misconfigured: bool, retryAfterMs: Option<nat>, message: string)

  /** Exponential with a jitter of 20% either way; `random` is Math.random's value. */
  function RetryDelayMs(attempt: nat, retryAfterMs: Option<nat>, random: real): int
    requires attempt >= 1
  {
    var jittered := Jittered(Exponential(BASE_BACKOFF_MS, MAX_BACKOFF_MS, attempt), random);
    Max(jittered, if retryAfterMs.Some? then retryAfterMs.value else 0)
  }

  function RequeueRow(r: Run, t: Ticket, at: int): Run {
    r.(lease := Requeued(r.lease, t, at))
  }

  function RetryOrFail(db: Tables, t: Ticket, f: Failure, now: int, random: real): Tables
    requires t.attempts >= 1
  {
    if !f.retryable then FailRun(db, t, if f.misconfigured then MISCONFIGURED else f.message, now)
    else if t.attempts >= MAX_ATTEMPTS then FailRun(db, t, PROVIDER_UNAVAILABLE, now)
    else if t.id in db.runs then
      WithRun(db, t.id, RequeueRow(db.runs[t.id], t, now + RetryDelayMs(t.attempts, f.retryAfterMs, random)))
    else db
  }

  // ---- Processing a claimed run ----

  /** What a worker decided to send to the model, from what it read after its claim. */
  datatype Work = Work(job: Job, resume: string, settings: Settings)

  datatype Plan = Refuse(message: string) | Evaluate(work: Work)

  const REMOVED := "This application was removed before it could be scored."
  const TOO_SHORT := "Add at least 200 characters of resume text before scoring."
  const NO_REQUIREMENTS := "This job has no requirements yet. Add requirements to define the scoring rubric."

  /** The guards of processRun. `overBudget` is the message of an exhausted AI budget, if it is exhausted. */
  function PlanRun(db: Tables, id: nat, settings: Settings, overBudget: Option<string>): Plan
    requires Linked(db) && id in db.runs
  {
    var a := db.applications[db.runs[id].applicationId];
    var c, job := db.candidates[a.candidateId], db.jobs[a.jobId];
    if a.deleted || a.companyId !in db.policies then Refuse(REMOVED)
    else if !LongEnough(c) then Refuse(TOO_SHORT)
    else if job.requirements == [] then Refuse(NO_REQUIREMENTS)
    else
      var p := db.policies[a.companyId];
      match ScoringRefusal(c, p)
      case Some(refusal) => Refuse(refusal)
      case None =>
        match overBudget
        case Some(message) => Refuse(message)
        case None => Evaluate(Work(job, ScoringResume(c, p), settings))
  }

  /** The model's answer, before the evidence rule; `model` is the one that answered. */
  datatype ModelOutcome = ModelOutcome(answers: seq<Answer>, summary: string, model: string)

  /** The requirement a Map from id to requirement holds: the last one under the id. */
  function RequirementById(requirements: seq<Requirement>, id: string): (r: Option<Requirement>)
    ensures r.Some? <==> IsRequirement(requirements, id)
    ensures r.Some? ==> r.value in requirements && r.value.id == id
  {
    if requirements == [] then None
    else
      var n := |requirements| - 1;
      if requirements[n].id == id then Some(requirements[n])
      else
        assert IsRequirement(requirements, id) ==> IsRequirement(requirements[..n], id) by {
          if IsRequirement(requirements, id) {
            var i :| 0 <= i < |requirements| && requirements[i].id == id;
            assert requirements[..n][i].id == id;
          }
        }
        RequirementById(requirements[..n], id)
  }

  function Stored(e: Evaluation, requirements: seq<Requirement>): StoredEvaluation {
    match RequirementById(requirements, e.requirementId)
    case Some(r) => StoredEvaluation(r.criterion, r.weight, e)
    case None => StoredEvaluation("", Nice, e)
  }

  function StoredAll(es: seq<Evaluation>, requirements: seq<Requirement>): seq<StoredEvaluation> {
    seq(|es|, i requires 0 <= i < |es| => Stored(es[i], requirements))
  }

  function Scorables(es: seq<StoredEvaluation>): seq<Scorable> {
    seq(|es|, i requires 0 <= i < |es| => Scorable(es[i].weight, es[i].evaluation.verdict))
  }

  /** The settings the answer came under: the model is the one that answered, perhaps a fallback. */
  function Used(work: Work, model: string): Settings {
    work.settings.(model := model)
  }

  function FinishedRow(r: Run, t: Ticket, work: Work, model: string, summary: string, aiScore: int,
                       finishedAt: int): Run
  {
    r.(
      lease := SettledBy(r.lease, t, Succeeded),
      finishedAt := Some(finishedAt),
      settings := r.settings.(model := model),
      inputHash := ScoringInputHash(work.job, work.resume, Used(work, model)),
      input := Some(Input(work.job, work.resume)),
      aiScore := Some(aiScore),
      aiSummary := Some(summary),
      scoredWith := Some(Used(work, model)))
  }

  /** The final transaction of processRun, on the evaluations the evidence rule accepted. */
  function FinishRun(db: Tables, t: Ticket, work: Work, model: string, summary: string,
                     es: seq<Evaluation>, finishedAt: int): Tables
    requires Linked(db)
  {
    if t.id !in db.runs || !Owned(db.runs[t.id].lease, t) then db else
    var stored := StoredAll(es, work.job.requirements);
    var r := FinishedRow(db.runs[t.id], t, work, model, summary, ScoreOf(Scorables(stored)), finishedAt);
    db.(
      runs := db.runs[t.id := r],
      evaluations := db.evaluations[t.id := EvaluationsOf(db, t.id) + stored],
      applications := db.applications[r.applicationId := Mirroring(db.applications[r.applicationId], t.id, r)])
  }

  /** What the evaluator comes back with: evaluations the evidence rule accepted, or an error. */
  datatype Reply = Evaluated(model: string, summary: string, es: seq<Evaluation>) | Errored(failure: Failure)

  /** processRun when nothing happens between its reads and its write. */
  function ProcessRun(db: Tables, t: Ticket, settings: Settings, overBudget: Option<string>, reply: Reply,
                      now: int, random: real): Tables
    requires Linked(db) && t.id in db.runs && t.attempts >= 1
  {
    match PlanRun(db, t.id, settings, overBudget)
    case Refuse(message) => FailRun(db, t, message, now)
    case Evaluate(work) =>
      match reply
      case Errored(failure) => RetryOrFail(db, t, failure, now, random)
      case Evaluated(model, summary, es) => FinishRun(db, t, work, model, summary, es, now)
  }

  /** The application with its score columns taken from a run. */
  function Mirroring(a: Application, id: nat, r: Run): Application {
    a.(latestScoringRunId := Some(id), aiScore := r.aiScore, aiSummary := r.aiSummary, scoredAt := r.finishedAt)
  }

  // ---- Requesting scores ----

  /** Who asks: `visible` is the role's access filter, `budget` and `quota` what the meters answer. */
  datatype Asker = Asker(companyId: nat, settings: Settings, visible: bool, budget: bool, quota: bool)

  datatype RequestError = NotFound | TooShort | NoRequirements | NotPermitted | OverBudget | OverQuota

  datatype Requested = InProgress(run: nat) | Reused(run: nat) | Created(run: nat)

  predicate ActiveFor(db: Tables, applicationId: nat, r: nat) {
    r in db.runs && db.runs[r].applicationId == applicationId && db.runs[r].lease.Active()
  }

  function ActiveRuns(db: Tables, applicationId: nat): set<nat> {
    set r | r in db.runs && ActiveFor(db, applicationId, r)
  }

  /** findFirst without an order; there is never more than one to find. */
  function SomeActiveRun(db: Tables, applicationId: nat): (r: nat)
    requires ActiveRuns(db, applicationId) != {}
    ensures ActiveFor(db, applicationId, r)
  {
    var keys := set r | r in ActiveRuns(db, applicationId) :: Key(0, 0, r);
    assert keys != {} by {
      var r :| r in ActiveRuns(db, applicationId);
      assert Key(0, 0, r) in keys;
    }
    Least(keys).id
  }

  predicate IsMatch(db: Tables, applicationId: nat, hash: Digest, r: nat) {
    && r in db.runs && db.runs[r].applicationId == applicationId
    && db.runs[r].inputHash == hash && db.runs[r].lease.status == Settled(Succeeded)
  }

  /** The newest SUCCEEDED run with this hash. Ties on createdAt, which the query leaves open, go to the lowest id. */
  function LatestMatch(db: Tables, applicationId: nat, hash: Digest): (m: Option<nat>)
    ensures m.Some? ==> IsMatch(db, applicationId, hash, m.value)
    ensures m.None? ==> forall r :: !IsMatch(db, applicationId, hash, r)
  {
    var keys := set r | r in db.runs && IsMatch(db, applicationId, hash, r) :: Key(-db.runs[r].createdAt, 0, r);
    if keys == {} then
      assert forall r :: IsMatch(db, applicationId, hash, r) ==> Key(-db.runs[r].createdAt, 0, r) in keys;
      None
    else Some(Least(keys).id)
  }

  function NewRun(asker: Asker, applicationId: nat, hash: Digest, now: int): Run {
    Run(asker.companyId, applicationId, now, asker.settings, hash, Fresh(now), None, None, None, None, None)
  }

  function PointAt(db: Tables, applicationId: nat, run: nat): Tables
    requires applicationId in db.applications && run in db.runs
  {
    var a, r := db.applications[applicationId], db.runs[run];
    if a.latestScoringRunId == Some(run) then db
    else db.(applications := db.applications[applicationId := Mirroring(a, run, r)])
  }

  /** The inputs a request made now would be scored on. */
  function CurrentInput(db: Tables, applicationId: nat): Input
    requires Linked(db) && applicationId in db.applications
    requires db.applications[applicationId].companyId in db.policies
  {
    var a := db.applications[applicationId];
    Input(db.jobs[a.jobId], ScoringResume(db.candidates[a.candidateId], db.policies[a.companyId]))
  }

  function RequestScoring(db: Tables, asker: Asker, applicationId: nat, newId: nat, now: int)
    : (Tables, Result<Requested, RequestError>)
    requires Linked(db)
  {
    if applicationId !in db.applications || db.applications[applicationId].companyId != asker.companyId ||
       !asker.visible || db.applications[applicationId].deleted then (db, Err(NotFound)) else
    var a := db.applications[applicationId];
    var c, job := db.candidates[a.candidateId], db.jobs[a.jobId];
    if !LongEnough(c) then (db, Err(TooShort))
    else if job.requirements == [] then (db, Err(NoRequirements))
    else if asker.companyId !in db.policies then (db, Err(NotFound))
    else if Refused(c, db.policies[asker.companyId]) then (db, Err(NotPermitted))
    else if ActiveRuns(db, applicationId) != {} then
      (db, Ok(InProgress(SomeActiveRun(db, applicationId))))
    else
      var input := CurrentInput(db, applicationId);
      var hash := ScoringInputHash(input.job, input.resume, asker.settings);
      match LatestMatch(db, applicationId, hash)
      case Some(run) => (PointAt(db, applicationId, run), Ok(Reused(run)))
      case None =>
        if !asker.budget then (db, Err(OverBudget))
        else if !asker.quota then (db, Err(OverQuota))
        else (WithRun(db, newId, NewRun(asker, applicationId, hash, now)), Ok(Created(newId)))
  }

  /** JobScoringRequestResult. */
  datatype BulkResult = BulkResult(queued: nat, alreadyQueued: nat, skipped: nat, excluded: nat, remaining: nat)

  predicate IsUnscored(db: Tables, asker: Asker, jobId: nat, a: nat) {
    && a in db.applications && db.applications[a].jobId == jobId && db.applications[a].companyId == asker.companyId
    && !db.applications[a].deleted && db.applications[a].latestScoringRunId.None?
  }

  /** The job's unscored applicants in the order they are taken. */
  function UnscoredApplicants(db: Tables, asker: Asker, jobId: nat): (ids: seq<nat>)
    ensures Distinct(ids)
    ensures forall a :: a in ids <==> IsUnscored(db, asker, jobId, a)
  {
    var keys := set a | a in db.applications &&
      IsUnscored(db, asker, jobId, a) :: Key(db.applications[a].createdAt, 0, a);
    assert forall a :: IsUnscored(db, asker, jobId, a) ==> Key(db.applications[a].createdAt, 0, a) in keys;
    SortedIds(keys)
  }

  function IsIdle(db: Tables): nat -> bool {
    (a: nat) => ActiveRuns(db, a) == {}
  }

  function IsBusy(db: Tables): nat -> bool {
    (a: nat) => ActiveRuns(db, a) != {}
  }

  function MayScore(db: Tables, p: Policy): nat -> bool {
    (a: nat) => a in db.applications && db.applications[a].candidateId in db.candidates &&
                !Refused(db.candidates[db.applications[a].candidateId], p)
  }

  function HasResume(db: Tables): nat -> bool {
    (a: nat) => a in db.applications && db.applications[a].candidateId in db.candidates &&
                LongEnough(db.candidates[db.applications[a].candidateId])
  }

  /** The applicants a bulk request sifts, each list a filter of the one before it. */
  datatype Sifted = Sifted(unscored: seq<nat>, busy: seq<nat>, idle: seq<nat>, permitted: seq<nat>, scorable: seq<nat>)

  function Sift(db: Tables, asker: Asker, jobId: nat, p: Policy): (s: Sifted)
    ensures |s.idle| >= |s.permitted| >= |s.scorable|
  {
    var unscored := UnscoredApplicants(db, asker, jobId);
    var idle := Filter(unscored, IsIdle(db));
    var permitted := Filter(idle, MayScore(db, p));
    Sifted(unscored, Filter(unscored, IsBusy(db)), idle, permitted, Filter(permitted, HasResume(db)))
  }

  lemma SiftedAreScorable(db: Tables, asker: Asker, jobId: nat, p: Policy)
    ensures var s := Sift(db, asker, jobId, p);
      Distinct(s.scorable) && forall a :: a in s.scorable ==> IsUnscored(db, asker, jobId, a) && IsIdle(db)(a)
  {
    var s := Sift(db, asker, jobId, p);
    FilterMembers(s.unscored, IsIdle(db));
    FilterMembers(s.idle, MayScore(db, p));
    FilterMembers(s.permitted, HasResume(db));
    FilterKeepsDistinct(s.unscored, IsIdle(db));
    FilterKeepsDistinct(s.idle, MayScore(db, p));
    FilterKeepsDistinct(s.permitted, HasResume(db));
  }

  function FirstFew(scorable: seq<nat>): (batch: seq<nat>)
    ensures |batch| <= MAX_BULK_SCORING && |batch| <= |scorable|
  {
    if |scorable| <= MAX_BULK_SCORING then scorable else scorable[..MAX_BULK_SCORING]
  }

  /** The applicants one bulk request queues: idle, permitted, long enough, at most MAX_BULK_SCORING. */
  function BulkBatch(db: Tables, asker: Asker, jobId: nat, p: Policy): (batch: seq<nat>)
    ensures |batch| <= MAX_BULK_SCORING && forall a :: a in batch ==> IsUnscored(db, asker, jobId, a)
  {
    SiftedAreScorable(db, asker, jobId, p);
    FirstFew(Sift(db, asker, jobId, p).scorable)
  }

  lemma BulkBatchIsIdle(db: Tables, asker: Asker, jobId: nat, p: Policy)
    ensures var batch := BulkBatch(db, asker, jobId, p);
      Distinct(batch) && forall a :: a in batch ==> ActiveRuns(db, a) == {}
  {
    SiftedAreScorable(db, asker, jobId, p);
  }

  function BulkCounts(db: Tables, asker: Asker, jobId: nat, p: Policy): BulkResult {
    var s := Sift(db, asker, jobId, p);
    var batch := FirstFew(s.scorable);
    BulkResult(|batch|, |s.busy|, |s.permitted| - |s.scorable|, |s.idle| - |s.permitted|, |s.scorable| - |batch|)
  }

  /** createMany: one run for each application, under fresh ids. */
  function CreateRuns(db: Tables, asker: Asker, batch: seq<nat>, ids: seq<nat>, now: int): Tables
    requires |batch| <= |ids| && Linked(db) && asker.companyId in db.policies
    requires forall a :: a in batch ==> a in db.applications && db.applications[a].companyId == asker.companyId
    decreases |batch|
  {
    if batch == [] then db else
    var input := CurrentInput(db, batch[0]);
    var hash := ScoringInputHash(input.job, input.resume, asker.settings);
    CreateRuns(WithRun(db, ids[0], NewRun(asker, batch[0], hash, now)), asker, batch[1..], ids[1..], now)
  }

  /** `visible` stands for the job being found within the asker's company and access. */
  function RequestJobScoring(db: Tables, asker: Asker, jobId: nat, ids: seq<nat>, now: int)
    : (Tables, Result<BulkResult, RequestError>)
    requires Linked(db) && |ids| >= MAX_BULK_SCORING
  {
    if jobId !in db.jobs || !asker.visible then (db, Err(NotFound))
    else if db.jobs[jobId].requirements == [] then (db, Err(NoRequirements))
    else if asker.companyId !in db.policies then (db, Err(NotFound))
    else
      var batch := BulkBatch(db, asker, jobId, db.policies[asker.companyId]);
      var result := BulkCounts(db, asker, jobId, db.policies[asker.companyId]);
      if batch == [] then (db, Ok(result))
      else if !asker.budget then (db, Err(OverBudget))
      else if !asker.quota then (db, Err(OverQuota))
      else (CreateRuns(db, asker, batch, ids, now), Ok(result))
  }
}
