/**
 Reporting AI usage to the billing meter behind a watermark (backend/src/billing/metering.ts), for
 one paying company. Passes may overlap, crash part way and meet gateway failures.
 */
module Metering {
  import opened Collections
  import opened Options
  import opened Ordering

  const SETTLE_MS := 5 * 60 * 1000
  const MAX_AGE_MS := 35 * 24 * 60 * 60 * 1000
  const BATCH_SIZE := 500

  /** A SUCCEEDED run of the company; its columns no longer change. */
  datatype Run = Run(finishedAt: int, promptTokens: Option<int>, completionTokens: Option<int>)

  type Runs = map<nat, Run>

  function OrZero(n: Option<int>): int {
    if n.Some? then n.value else 0
  }

  function TokensOf(run: Run): int {
    OrZero(run.promptTokens) + OrZero(run.completionTokens)
  }

  /** A meter event, identified by its run. */
  datatype Usage = Usage(run: nat, tokens: int, timestamp: int)

  function UsageOf(runs: Runs, id: nat): Usage
    requires id in runs
  {
    Usage(id, TokensOf(runs[id]), runs[id].finishedAt)
  }

  // ---- One pass ----

  function Eligible(runs: Runs, from: int, settled: int): set<Key> {
    set id | id in runs && from < runs[id].finishedAt <= settled :: Key(runs[id].finishedAt, 0, id)
  }

  /** The first runs past the watermark, by finish time and id. */
  function Batch(runs: Runs, from: int, settled: int): (batch: seq<Usage>)
    ensures |batch| <= BATCH_SIZE
  {
    var keys := Sorted(Eligible(runs, from, settled));
    assert forall k :: k in keys ==> k in Eligible(runs, from, settled) && k.id in runs;
    Read(runs, if |keys| <= BATCH_SIZE then keys else keys[..BATCH_SIZE])
  }

  function Read(runs: Runs, keys: seq<Key>): (batch: seq<Usage>)
    requires forall k :: k in keys ==> k.id in runs
    ensures |batch| == |keys|
    ensures forall i :: 0 <= i < |keys| ==> batch[i] == UsageOf(runs, keys[i].id)
  {
    if keys == [] then [] else [UsageOf(runs, keys[0].id)] + Read(runs, keys[1..])
  }

  predicate Reportable(u: Usage, oldest: int) {
    u.tokens > 0 && u.timestamp >= oldest
  }

  /** The first run of the batch whose report fails, if one does. */
  function FirstFailure(batch: seq<Usage>, oldest: int, down: set<nat>): (f: nat)
    ensures f <= |batch|
    ensures f < |batch| ==> Reportable(batch[f], oldest) && batch[f].run in down
  {
    if batch == [] || (Reportable(batch[0], oldest) && batch[0].run in down) then 0
    else 1 + FirstFailure(batch[1..], oldest, down)
  }

  /** The events a stretch of the batch stands for. */
  function Events(batch: seq<Usage>, oldest: int): (sent: seq<Usage>)
    ensures forall u :: u in sent <==> u in batch && Reportable(u, oldest)
  {
    if batch == [] then []
    else if Reportable(batch[0], oldest) then [batch[0]] + Events(batch[1..], oldest)
    else Events(batch[1..], oldest)
  }

  /** How far a pass got: up to the failure, else up to a full batch's last millisecond, else everything. */
  function CursorAfter(batch: seq<Usage>, settled: int, oldest: int, down: set<nat>): int {
    var f := FirstFailure(batch, oldest, down);
    if f < |batch| then batch[f].timestamp - 1
    else if |batch| == BATCH_SIZE then batch[|batch| - 1].timestamp - 1
    else settled
  }

  lemma {:induction false} NoFailureBefore(batch: seq<Usage>, oldest: int, down: set<nat>, i: nat)
    requires i < |batch| && forall j :: 0 <= j < i ==> !(Reportable(batch[j], oldest) && batch[j].run in down)
    ensures FirstFailure(batch, oldest, down) >= i
    ensures Reportable(batch[i], oldest) && batch[i].run in down ==> FirstFailure(batch, oldest, down) == i
    ensures !(Reportable(batch[i], oldest) && batch[i].run in down) ==> FirstFailure(batch, oldest, down) >= i + 1
  {
    if i > 0 {
      assert forall j :: 0 <= j < i - 1 ==> batch[1..][j] == batch[j + 1];
      NoFailureBefore(batch[1..], oldest, down, i - 1);
    }
  }

  lemma {:induction false} EventsAppend(batch: seq<Usage>, u: Usage, oldest: int)
    ensures Events(batch + [u], oldest) == Events(batch, oldest) + if Reportable(u, oldest) then [u] else []
  {
    if batch == [] {
      assert [u][1..] == [];
    } else {
      assert (batch + [u])[0] == batch[0] && (batch + [u])[1..] == batch[1..] + [u];
      EventsAppend(batch[1..], u, oldest);
    }
  }

  /** The loop of a pass over the runs it read. */
  method ReportBatch(batch: seq<Usage>, from: int, settled: int, oldest: int, down: set<nat>)
    returns (sent: seq<Usage>, reported: nat, cursor: int)
    requires |batch| <= BATCH_SIZE
    ensures sent == Events(batch[..FirstFailure(batch, oldest, down)], oldest)
    ensures reported == |sent|
    ensures cursor == CursorAfter(batch, settled, oldest, down)
  {
    sent, reported := [], 0;
    cursor := if |batch| < BATCH_SIZE then settled else from;
    var i := 0;
    while i < |batch|
      invariant 0 <= i <= |batch|
      invariant forall j :: 0 <= j < i ==> !(Reportable(batch[j], oldest) && batch[j].run in down)
      invariant sent == Events(batch[..i], oldest) && reported == |sent|
      invariant i == 0 ==> cursor == if |batch| < BATCH_SIZE then settled else from
      invariant i > 0 ==> cursor == if |batch| < BATCH_SIZE then settled else batch[i - 1].timestamp - 1
    {
      var run := batch[i];
      NoFailureBefore(batch, oldest, down, i);
      EventsAppend(batch[..i], run, oldest);
      assert batch[..i] + [run] == batch[..i + 1];
      if run.tokens > 0 && run.timestamp >= oldest {
        if run.run in down {
          cursor := run.timestamp - 1;
          return;
        }
        sent, reported := sent + [run], reported + 1;
      }
      if |batch| == BATCH_SIZE {
        cursor := run.timestamp - 1;
      }
      i := i + 1;
    }
    if |batch| > 0 {
      NoFailureBefore(batch, oldest, down, |batch| - 1);
    }
    assert batch[..|batch|] == batch;
  }

  function Keys(runs: Runs, from: int, settled: int): seq<Key> {
    Sorted(Eligible(runs, from, settled))
  }

  lemma EligibleKey(runs: Runs, from: int, settled: int, k: Key)
    ensures k in Eligible(runs, from, settled) <==>
      k.id in runs && from < runs[k.id].finishedAt <= settled && k == Key(runs[k.id].finishedAt, 0, k.id)
  {
  }

  /** Item i of the batch is the run of the i-th key. */
  lemma BatchItem(runs: Runs, from: int, settled: int, i: nat)
    requires i < |Batch(runs, from, settled)|
    ensures var batch, keys := Batch(runs, from, settled), Keys(runs, from, settled);
      && |batch| <= |keys| && keys[i].id in runs
      && batch[i] == UsageOf(runs, keys[i].id) && batch[i].timestamp == keys[i].first &&
        from < batch[i].timestamp <= settled
  {
    EligibleKey(runs, from, settled, Keys(runs, from, settled)[i]);
  }

  lemma KeysAscend(runs: Runs, from: int, settled: int, i: nat, j: nat)
    requires i <= j < |Keys(runs, from, settled)|
    ensures Keys(runs, from, settled)[i].first <= Keys(runs, from, settled)[j].first
  {
    var keys := Keys(runs, from, settled);
    assert i < j ==> Less(keys[i], keys[j]);
  }

  lemma KeyOfRun(runs: Runs, from: int, settled: int, id: nat) returns (i: nat)
    requires id in runs && from < runs[id].finishedAt <= settled
    ensures i < |Keys(runs, from, settled)| && Keys(runs, from, settled)[i] == Key(runs[id].finishedAt, 0, id)
  {
    var key := Key(runs[id].finishedAt, 0, id);
    EligibleKey(runs, from, settled, key);
    i :| 0 <= i < |Keys(runs, from, settled)| && Keys(runs, from, settled)[i] == key;
  }

  /** The batch holds every eligible run up to the cursor, all before the failure. */
  lemma BatchReachesCursor(runs: Runs, from: int, settled: int, oldest: int, down: set<nat>, id: nat)
    requires id in runs && from < runs[id].finishedAt <= settled
    requires runs[id].finishedAt <= CursorAfter(Batch(runs, from, settled), settled, oldest, down)
    ensures var batch := Batch(runs, from, settled);
      UsageOf(runs, id) in batch[..FirstFailure(batch, oldest, down)]
  {
    var batch := Batch(runs, from, settled);
    var f := FirstFailure(batch, oldest, down);
    var i := KeyOfRun(runs, from, settled, id);
    // The run the cursor stops short of, if it stops at all.
    var stop := if f < |batch| then f else |batch| - 1;
    if stop >= 0 {
      BatchItem(runs, from, settled, stop);
      if stop <= i {
        KeysAscend(runs, from, settled, stop, i);
      }
    }
    BatchItem(runs, from, settled, i);
    assert batch[..f][i] == UsageOf(runs, id);
  }

  lemma BatchIsPastWatermark(runs: Runs, from: int, settled: int, i: nat)
    requires i < |Batch(runs, from, settled)|
    ensures var batch := Batch(runs, from, settled);
      batch[i].run in runs && batch[i] == UsageOf(runs, batch[i].run) && from < batch[i].timestamp <= settled &&
      batch[i].timestamp <= batch[|batch| - 1].timestamp
  {
    var last := |Batch(runs, from, settled)| - 1;
    BatchItem(runs, from, settled, i);
    BatchItem(runs, from, settled, last);
    KeysAscend(runs, from, settled, i, last);
  }

  /**
   A failure-free pass moves the watermark, unless it read a full batch of runs that all finished
   in the first millisecond past it.
   */
  lemma PassAdvancesExactly(runs: Runs, from: int, settled: int, oldest: int, down: set<nat>)
    requires from < settled
    requires FirstFailure(Batch(runs, from, settled), oldest, down) == |Batch(runs, from, settled)|
    ensures var batch := Batch(runs, from, settled);
      CursorAfter(batch, settled, oldest, down) > from <==>
        !(|batch| == BATCH_SIZE && forall u :: u in batch ==> u.timestamp == from + 1)
  {
    var batch := Batch(runs, from, settled);
    if |batch| == BATCH_SIZE {
      var last := batch[BATCH_SIZE - 1];
      assert last in batch;
      forall u | u in batch ensures from < u.timestamp <= last.timestamp {
        var i :| 0 <= i < |batch| && batch[i] == u;
        BatchIsPastWatermark(runs, from, settled, i);
      }
    }
  }

  // ---- Overlapping passes ----

  function Settled(now: int): int { now - SETTLE_MS }

  function Oldest(settled: int): int { settled + SETTLE_MS - MAX_AGE_MS }

  /** What a pass holds in memory. */
  datatype Pass = Pass(from: int, settled: int, batch: seq<Usage>)

  /** horizon: the latest settle point any pass has read; start: where metering began. */
  datatype World = World(start: int, runs: Runs, meteredThrough: int, horizon: int, sent: set<Usage>, passes: seq<Pass>)

  datatype Step =
    | Finish(id: nat, run: Run)
    | Begin(now: int)
    | Crash(pass: nat, down: set<nat>, after: nat)
    | Commit(pass: nat, down: set<nat>)

  function Elements(q: seq<Usage>): set<Usage> { set u | u in q }

  function SentBy(p: Pass, down: set<nat>): seq<Usage> {
    Events(p.batch[..FirstFailure(p.batch, Oldest(p.settled), down)], Oldest(p.settled))
  }

  predicate Allowed(w: World, s: Step) {
    match s
    // A run shows up before it counts as settled.
    case Finish(id, run) => id !in w.runs && (run.finishedAt > w.horizon || run.finishedAt <= w.start)
    case Begin(now) => w.meteredThrough < Settled(now)
    case Crash(p, _, _) => p < |w.passes|
    case Commit(p, _) => p < |w.passes|
  }

  function Next(w: World, s: Step): World
    requires Allowed(w, s)
  {
    match s
    case Finish(id, run) => w.(runs := w.runs[id := run])
    case Begin(now) =>
      var settled := Settled(now);
      w.(horizon := if w.horizon < settled then settled else w.horizon,
         passes := w.passes + [Pass(w.meteredThrough, settled, Batch(w.runs, w.meteredThrough, settled))])
    case Crash(p, down, after) =>
      var sent := SentBy(w.passes[p], down);
      w.(sent := w.sent + Elements(if after < |sent| then sent[..after] else sent))
    case Commit(p, down) =>
      var pass := w.passes[p];
      var cursor := CursorAfter(pass.batch, pass.settled, Oldest(pass.settled), down);
      // The update compares with the watermark the pass read, not with the current one.
      w.(sent := w.sent + Elements(SentBy(pass, down)),
         meteredThrough := if cursor > pass.from then cursor else w.meteredThrough)
  }

  function Created(start: int, runs: Runs): World {
    World(start, runs, start, start, {}, [])
  }

  /** Every run with tokens that finished up to a time, and is not too old for the latest pass, has been sent. */
  ghost predicate CoveredTo(w: World, t: int) {
    forall id :: id in w.runs && Due(w, id, t) ==> UsageOf(w.runs, id) in w.sent
  }

  predicate Due(w: World, id: nat, t: int)
    requires id in w.runs
  {
    w.start < w.runs[id].finishedAt <= t && TokensOf(w.runs[id]) > 0 && w.runs[id].finishedAt >= Oldest(w.horizon)
  }

  ghost predicate PassHolds(w: World, p: Pass) {
    w.start <= p.from <= p.settled <= w.horizon && p.batch == Batch(w.runs, p.from, p.settled) && CoveredTo(w, p.from)
  }

  ghost predicate Inv(w: World) {
    && w.start <= w.meteredThrough <= w.horizon
    && CoveredTo(w, w.meteredThrough)
    && (forall p :: p in w.passes ==> PassHolds(w, p))
    && (forall u :: u in w.sent ==> u.run in w.runs && u == UsageOf(w.runs, u.run) && u.tokens > 0)
  }

  lemma LaterRunsChangeNoBatch(runs: Runs, id: nat, run: Run, from: int, settled: int)
    requires id !in runs && (run.finishedAt > settled || run.finishedAt <= from)
    ensures Batch(runs[id := run], from, settled) == Batch(runs, from, settled)
  {
    var more := runs[id := run];
    forall k ensures k in Eligible(more, from, settled) <==> k in Eligible(runs, from, settled) {
      EligibleKey(runs, from, settled, k);
      EligibleKey(more, from, settled, k);
    }
    forall k | k in Eligible(runs, from, settled) ensures k.id in runs {
      EligibleKey(runs, from, settled, k);
    }
    assert Eligible(more, from, settled) == Eligible(runs, from, settled);
    var keys := Sorted(Eligible(runs, from, settled));
    ReadUnchanged(runs, id, run, if |keys| <= BATCH_SIZE then keys else keys[..BATCH_SIZE]);
  }

  lemma {:induction false} ReadUnchanged(runs: Runs, id: nat, run: Run, keys: seq<Key>)
    requires id !in runs && forall k :: k in keys ==> k.id in runs
    ensures Read(runs[id := run], keys) == Read(runs, keys)
  {
    if keys != [] {
      ReadUnchanged(runs, id, run, keys[1..]);
    }
  }

  lemma SentIsFromRuns(w: World, p: Pass, down: set<nat>, u: Usage)
    requires PassHolds(w, p) && u in SentBy(p, down)
    ensures u.run in w.runs && u == UsageOf(w.runs, u.run) && u.tokens > 0
  {
    var i :| 0 <= i < |p.batch| && p.batch[i] == u;
    BatchIsPastWatermark(w.runs, p.from, p.settled, i);
  }

  /** A pass that commits has sent everything up to its cursor. */
  lemma CommitCovers(w: World, p: nat, down: set<nat>)
    requires Inv(w) && p < |w.passes|
    ensures var pass := w.passes[p];
      var cursor := CursorAfter(pass.batch, pass.settled, Oldest(pass.settled), down);
      cursor > pass.from ==> cursor <= w.horizon && CoveredTo(Next(w, Commit(p, down)), cursor)
  {
    var pass, after := w.passes[p], Next(w, Commit(p, down));
    var cursor := CursorAfter(pass.batch, pass.settled, Oldest(pass.settled), down);
    assert PassHolds(w, pass);
    CursorIsSettled(w.runs, pass.from, pass.settled, Oldest(pass.settled), down);
    forall id | id in w.runs && Due(w, id, cursor)
      ensures UsageOf(w.runs, id) in after.sent
    {
      if w.runs[id].finishedAt > pass.from {
        BatchReachesCursor(w.runs, pass.from, pass.settled, Oldest(pass.settled), down, id);
        assert UsageOf(w.runs, id) in SentBy(pass, down);
      }
    }
  }

  lemma CursorIsSettled(runs: Runs, from: int, settled: int, oldest: int, down: set<nat>)
    requires from <= settled
    ensures CursorAfter(Batch(runs, from, settled), settled, oldest, down) <= settled
  {
    var batch := Batch(runs, from, settled);
    var f := FirstFailure(batch, oldest, down);
    if f < |batch| {
      BatchIsPastWatermark(runs, from, settled, f);
    } else if |batch| == BATCH_SIZE {
      BatchIsPastWatermark(runs, from, settled, |batch| - 1);
    }
  }

  lemma FinishKeepsCover(w: World, id: nat, run: Run, t: int)
    requires Allowed(w, Finish(id, run)) && CoveredTo(w, t) && t <= w.horizon
    ensures CoveredTo(Next(w, Finish(id, run)), t)
  {
    var after := Next(w, Finish(id, run));
    forall i | i in after.runs && Due(after, i, t) ensures UsageOf(after.runs, i) in after.sent {
      assert i != id && i in w.runs && Due(w, i, t);
    }
  }

  lemma FinishKeepsInv(w: World, id: nat, run: Run)
    requires Inv(w) && Allowed(w, Finish(id, run))
    ensures Inv(Next(w, Finish(id, run)))
  {
    var after := Next(w, Finish(id, run));
    FinishKeepsCover(w, id, run, w.meteredThrough);
    forall p | p in w.passes ensures PassHolds(after, p) {
      FinishKeepsCover(w, id, run, p.from);
      LaterRunsChangeNoBatch(w.runs, id, run, p.from, p.settled);
    }
  }

  /** More reports, and a later horizon, keep what is covered. */
  lemma CoverGrows(w: World, after: World, t: int)
    requires CoveredTo(w, t) && after.start == w.start && after.runs == w.runs && w.horizon <= after.horizon &&
      w.sent <= after.sent
    ensures CoveredTo(after, t)
    ensures forall p :: PassHolds(w, p) ==> PassHolds(after, p)
  {
    forall p | PassHolds(w, p) ensures PassHolds(after, p) {
      assert forall id :: id in after.runs && Due(after, id, p.from) ==> Due(w, id, p.from);
    }
  }

  lemma BeginKeepsInv(w: World, now: int)
    requires Inv(w) && Allowed(w, Begin(now))
    ensures Inv(Next(w, Begin(now)))
  {
    CoverGrows(w, Next(w, Begin(now)), w.meteredThrough);
  }

  lemma SendingKeepsInv(w: World, p: nat, down: set<nat>, sent: set<Usage>, after: World)
    requires Inv(w) && p < |w.passes| && sent <= Elements(SentBy(w.passes[p], down))
    requires after == w.(sent := w.sent + sent)
    ensures Inv(after)
  {
    assert PassHolds(w, w.passes[p]);
    CoverGrows(w, after, w.meteredThrough);
    forall u | u in after.sent ensures u.run in w.runs && u == UsageOf(w.runs, u.run) && u.tokens > 0 {
      if u !in w.sent {
        SentIsFromRuns(w, w.passes[p], down, u);
      }
    }
  }

  lemma StepKeepsInv(w: World, s: Step)
    requires Inv(w) && Allowed(w, s)
    ensures Inv(Next(w, s))
  {
    match s
    case Finish(id, run) => FinishKeepsInv(w, id, run);
    case Begin(now) => BeginKeepsInv(w, now);
    case Crash(p, down, n) =>
      var sent := SentBy(w.passes[p], down);
      SendingKeepsInv(w, p, down, Elements(if n < |sent| then sent[..n] else sent), Next(w, s));
    case Commit(p, down) =>
      var sending := w.(sent := w.sent + Elements(SentBy(w.passes[p], down)));
      SendingKeepsInv(w, p, down, Elements(SentBy(w.passes[p], down)), sending);
      CommitCovers(w, p, down);
      assert PassHolds(w, w.passes[p]);
      assert Next(w, s) == sending.(meteredThrough := Next(w, s).meteredThrough);
      assert Next(w, s).meteredThrough == w.meteredThrough ==> Next(w, s) == sending;
      WatermarkMove(sending, Next(w, s));
  }

  lemma WatermarkMove(w: World, after: World)
    requires Inv(w) && after == w.(meteredThrough := after.meteredThrough)
    requires w.start <= after.meteredThrough <= w.horizon && CoveredTo(after, after.meteredThrough)
    ensures Inv(after)
  {
    CoverGrows(w, after, w.meteredThrough);
  }

  ghost predicate Reaches(w: World, steps: seq<Step>, end: World)
    decreases |steps|
  {
    if steps == [] then end == w else Allowed(w, steps[0]) && Reaches(Next(w, steps[0]), steps[1..], end)
  }

  /**
   However passes overlap, crash and fail: every run with tokens that finished after the start and up
   to the watermark, unless too old for the meter, has been reported, each under its own identifier
   with its own tokens.
   */
  lemma {:induction false} NoRunIsSkipped(w: World, steps: seq<Step>, end: World)
    requires Inv(w) && Reaches(w, steps, end)
    ensures Inv(end)
    decreases |steps|
  {
    if steps != [] {
      StepKeepsInv(w, steps[0]);
      NoRunIsSkipped(Next(w, steps[0]), steps[1..], end);
    }
  }

  /** The report of item i is tried and fails. */
  predicate Fails(batch: seq<Usage>, down: set<nat>, now: int, i: nat)
    requires i < |batch|
  {
    batch[i].tokens > 0 && batch[i].timestamp >= now - 3_024_000_000 && batch[i].run in down
  }

  predicate FailsFirst(batch: seq<Usage>, down: set<nat>, now: int, i: nat)
    requires i < |batch|
  {
    Fails(batch, down, now, i) && forall j :: 0 <= j < i ==> !Fails(batch, down, now, j)
  }

  lemma {:induction false} FirstFailureIsFirst(batch: seq<Usage>, now: int, down: set<nat>)
    ensures var f := FirstFailure(batch, now - 3_024_000_000, down);
      (f < |batch| ==> Fails(batch, down, now, f)) && forall i :: 0 <= i < f ==> !Fails(batch, down, now, i)
  {
    if batch != [] && !Fails(batch, down, now, 0) {
      FirstFailureIsFirst(batch[1..], now, down);
      var f := FirstFailure(batch, now - 3_024_000_000, down);
      forall i | 0 <= i < f ensures !Fails(batch, down, now, i) {
        assert i > 0 ==> Fails(batch, down, now, i) == Fails(batch[1..], down, now, i - 1);
      }
    }
  }

  /**
   How far a pass gets: to just before the first run whose report fails; else, after 500 runs, to just
   before the last of them; else to five minutes ago.
   */
  lemma PassCursorExactly(batch: seq<Usage>, now: int, down: set<nat>)
    requires |batch| <= 500
    ensures var cursor := CursorAfter(batch, now - 300_000, now - 3_024_000_000, down);
      && (forall i :: 0 <= i < |batch| && FailsFirst(batch, down, now, i) ==> cursor == batch[i].timestamp - 1)
      && ((forall i :: 0 <= i < |batch| ==> !Fails(batch, down, now, i)) ==>
            cursor == if |batch| == 500 then batch[499].timestamp - 1 else now - 300_000)
  {
    FirstFailureIsFirst(batch, now, down);
  }

  /** The tokens of a run, missing columns counting as none. */
  function Spent(run: Run): int {
    match (run.promptTokens, run.completionTokens)
    case (Some(p), Some(c)) => p + c
    case (Some(p), None) => p
    case (None, Some(c)) => c
    case (None, None) => 0
  }

  /**
   So in every reachable state each run that spent tokens and finished after the start and up to the
   watermark, at most 35 days before the latest pass, is on the meter with its tokens and finish time,
   and nothing else is.
   */
  lemma ReachableIsCovered(start: int, runs: Runs, steps: seq<Step>, end: World)
    requires Reaches(Created(start, runs), steps, end)
    ensures forall id :: id in end.runs ==>
      var run := end.runs[id];
      (Spent(run) > 0 && start < run.finishedAt <= end.meteredThrough &&
       run.finishedAt >= end.horizon + 300_000 - 3_024_000_000) ==>
        Usage(id, Spent(run), run.finishedAt) in end.sent
    ensures forall u :: u in end.sent ==>
      u.run in end.runs && u == Usage(u.run, Spent(end.runs[u.run]), end.runs[u.run].finishedAt) && u.tokens > 0
  {
    NoRunIsSkipped(Created(start, runs), steps, end);
    forall id | id in end.runs
      ensures UsageOf(end.runs, id) == Usage(id, Spent(end.runs[id]), end.runs[id].finishedAt)
    {
    }
    StartStays(Created(start, runs), steps, end);
  }

  lemma {:induction false} StartStays(w: World, steps: seq<Step>, end: World)
    requires Reaches(w, steps, end)
    ensures end.start == w.start
    decreases |steps|
  {
    if steps != [] {
      StartStays(Next(w, steps[0]), steps[1..], end);
    }
  }

  /**
   What one pass reports: of the first 500 runs past the watermark by finish time and id, none of them
   younger than five minutes, those before the first failure that spent tokens and are at most 35 days old.
   */
  lemma PassReportsExactly(runs: Runs, from: int, now: int, down: set<nat>, id: nat)
    requires id in runs
    ensures var pass := Pass(from, now - 300_000, Batch(runs, from, now - 300_000));
      var u := Usage(id, Spent(runs[id]), runs[id].finishedAt);
      && (u in pass.batch ==> from < runs[id].finishedAt <= now - 300_000)
      && (|pass.batch| < 500 && from < runs[id].finishedAt <= now - 300_000 ==> u in pass.batch)
      && (u in SentBy(pass, down) <==>
            && u in pass.batch[..FirstFailure(pass.batch, Oldest(pass.settled), down)]
            && u.tokens > 0 && u.timestamp >= now - 3_024_000_000)
  {
    var settled := now - 300_000;
    var batch := Batch(runs, from, settled);
    assert UsageOf(runs, id) == Usage(id, Spent(runs[id]), runs[id].finishedAt);
    if i: nat :| i < |batch| && batch[i] == UsageOf(runs, id) {
      BatchItem(runs, from, settled, i);
    }
    if |batch| < 500 && from < runs[id].finishedAt <= settled {
      var i := KeyOfRun(runs, from, settled, id);
      BatchItem(runs, from, settled, i);
      assert batch[i] == UsageOf(runs, id);
    }
  }

  // ---- A crowded millisecond ----

  /** The runs that finished in the millisecond after x. */
  function Crowd(runs: Runs, x: int): set<nat> {
    set id | id in runs && runs[id].finishedAt == x + 1
  }

  predicate Crowded(runs: Runs, x: int) {
    |Crowd(runs, x)| >= BATCH_SIZE
  }

  ghost predicate AmongFirst(keys: seq<Key>, n: nat, id: nat)
    requires n <= |keys|
  {
    exists i :: 0 <= i < n && keys[i].id == id
  }

  lemma {:induction false} OnlySoMany(keys: seq<Key>, n: nat, ids: set<nat>)
    requires n <= |keys| && forall id :: id in ids ==> AmongFirst(keys, n, id)
    ensures |ids| <= n
  {
    if n == 0 {
      assert ids == {};
    } else {
      var rest := ids - {keys[n - 1].id};
      forall id | id in rest ensures AmongFirst(keys, n - 1, id) {
        assert AmongFirst(keys, n, id);
      }
      OnlySoMany(keys, n - 1, rest);
      assert ids <= rest + {keys[n - 1].id};
      assert |rest + {keys[n - 1].id}| <= |rest| + 1;
      SubsetSize(ids, rest + {keys[n - 1].id});
    }
  }

  /** So many runs fill a batch, and it ends with them at the latest. */
  lemma CrowdFillsBatch(runs: Runs, from: int, settled: int, x: int)
    requires from <= x < settled && Crowded(runs, x)
    ensures |Batch(runs, from, settled)| == BATCH_SIZE && Batch(runs, from, settled)[BATCH_SIZE - 1].timestamp <= x + 1
  {
    var keys := Keys(runs, from, settled);
    forall id | id in Crowd(runs, x) ensures AmongFirst(keys, |keys|, id) {
      var i := KeyOfRun(runs, from, settled, id);
    }
    OnlySoMany(keys, |keys|, Crowd(runs, x));
    BatchItem(runs, from, settled, BATCH_SIZE - 1);
    if keys[BATCH_SIZE - 1].first > x + 1 {
      forall id | id in Crowd(runs, x) ensures AmongFirst(keys, BATCH_SIZE - 1, id) {
        var i := KeyOfRun(runs, from, settled, id);
        if i >= BATCH_SIZE - 1 {
          KeysAscend(runs, from, settled, BATCH_SIZE - 1, i);
        }
      }
      OnlySoMany(keys, BATCH_SIZE - 1, Crowd(runs, x));
    }
  }

  /** The cursor of a full batch is before its last run. */
  lemma FullBatchCursor(runs: Runs, from: int, settled: int, oldest: int, down: set<nat>, batch: seq<Usage>)
    requires batch == Batch(runs, from, settled) && |batch| == BATCH_SIZE
    ensures CursorAfter(batch, settled, oldest, down) < batch[BATCH_SIZE - 1].timestamp
  {
    var f := FirstFailure(batch, oldest, down);
    if f < |batch| {
      BatchIsPastWatermark(runs, from, settled, f);
    }
  }

  lemma CursorStopsAtCrowd(runs: Runs, from: int, settled: int, oldest: int, down: set<nat>, x: int)
    requires from <= x && from <= settled && Crowded(runs, x)
    ensures CursorAfter(Batch(runs, from, settled), settled, oldest, down) <= x
  {
    if settled <= x {
      CursorIsSettled(runs, from, settled, oldest, down);
    } else {
      CrowdFillsBatch(runs, from, settled, x);
      FullBatchCursor(runs, from, settled, oldest, down, Batch(runs, from, settled));
    }
  }

  lemma StepStopsAtCrowd(w: World, s: Step, x: int)
    requires Inv(w) && Allowed(w, s) && Crowded(w.runs, x) && w.meteredThrough <= x &&
      forall p :: p in w.passes ==> p.from <= x
    ensures var w' := Next(w, s);
      Crowded(w'.runs, x) && w'.meteredThrough <= x && forall p :: p in w'.passes ==> p.from <= x
  {
    match s
    case Finish(id, run) =>
      SubsetSize(Crowd(w.runs, x), Crowd(w.runs[id := run], x));
    case Commit(p, down) =>
      var pass := w.passes[p];
      assert PassHolds(w, pass);
      CursorStopsAtCrowd(w.runs, pass.from, pass.settled, Oldest(pass.settled), down, x);
    case _ =>
  }

  /**
   A millisecond in which a full batch of runs finished is never passed: whatever passes follow, the
   watermark stays before it, and no run after it is ever covered.
   */
  lemma {:induction false} CrowdIsNeverPassed(w: World, steps: seq<Step>, end: World, x: int)
    requires Inv(w) && Reaches(w, steps, end)
    requires Crowded(w.runs, x) && w.meteredThrough <= x && forall p :: p in w.passes ==> p.from <= x
    ensures end.meteredThrough <= x
    decreases |steps|
  {
    if steps != [] {
      StepKeepsInv(w, steps[0]);
      StepStopsAtCrowd(w, steps[0], x);
      CrowdIsNeverPassed(Next(w, steps[0]), steps[1..], end, x);
    }
  }

  /** n runs of one token each, all finished at 1. */
  function AtOnce(n: nat): (runs: Runs)
    ensures forall id: nat :: id in runs <==> id < n
    ensures forall id :: id in runs ==> runs[id].finishedAt == 1
  {
    if n == 0 then map[] else AtOnce(n - 1)[n - 1 := Run(1, Some(1), None)]
  }

  lemma {:induction false} CrowdOfAtOnce(n: nat)
    ensures |Crowd(AtOnce(n), 0)| == n
  {
    if n == 0 {
      assert Crowd(AtOnce(0), 0) == {};
    } else {
      CrowdOfAtOnce(n - 1);
      assert Crowd(AtOnce(n), 0) == Crowd(AtOnce(n - 1), 0) + {n - 1};
    }
  }

  /** So five hundred runs in the first millisecond of metering stop it for good. */
  lemma FiveHundredRunsStopMetering(steps: seq<Step>, end: World)
    requires Reaches(Created(0, AtOnce(BATCH_SIZE)), steps, end)
    ensures end.meteredThrough <= 0
  {
    CrowdOfAtOnce(BATCH_SIZE);
    CrowdIsNeverPassed(Created(0, AtOnce(BATCH_SIZE)), steps, end, 0);
  }

  // ---- The account row ----

  /** What a pass that meets no other reports, and where it leaves the watermark and the meter. */
  function AfterPass(runs: Runs, from: int, sent: set<Usage>, now: int, down: set<nat>): (nat, int, set<Usage>) {
    var settled := Settled(now);
    if from >= settled then (0, from, sent)
    else
      var pass := Pass(from, settled, Batch(runs, from, settled));
      var events, cursor := SentBy(pass, down), CursorAfter(pass.batch, settled, Oldest(settled), down);
      (|events|, if cursor > from then cursor else from, sent + Elements(events))
  }

  /** In the protocol that is a Begin followed by its Commit. */
  lemma PassIsBeginThenCommit(w: World, now: int, down: set<nat>)
    requires w.meteredThrough < Settled(now)
    ensures Allowed(w, Begin(now)) && Allowed(Next(w, Begin(now)), Commit(|w.passes|, down))
    ensures var end := Next(Next(w, Begin(now)), Commit(|w.passes|, down));
      var (_, meteredThrough, sent) := AfterPass(w.runs, w.meteredThrough, w.sent, now, down);
      end.meteredThrough == meteredThrough && end.sent == sent
  {
    var begun := Next(w, Begin(now));
    assert begun.passes[|w.passes|] ==
      Pass(w.meteredThrough, Settled(now), Batch(w.runs, w.meteredThrough, Settled(now)));
  }

  /** A pass starts at the watermark and reads what finished up to five minutes ago, if that is later. */
  lemma BeginReads(w: World, now: int)
    ensures Allowed(w, Begin(now)) <==> w.meteredThrough < now - 300_000
    ensures Allowed(w, Begin(now)) ==>
      var begun := Next(w, Begin(now));
      && begun.passes == w.passes + [Pass(w.meteredThrough, now - 300_000,
                                          Batch(w.runs, w.meteredThrough, now - 300_000))]
      && begun.runs == w.runs && begun.sent == w.sent && begun.meteredThrough == w.meteredThrough
  {
  }

  /**
   A pass that commits adds its events and moves the watermark exactly if it got past where it began, even
   back from where a pass that began later has moved it.
   */
  lemma CommitMovesExactly(w: World, p: nat, down: set<nat>, cursor: int)
    requires p < |w.passes| && w.passes[p].settled >= w.passes[p].from
    requires cursor == CursorAfter(w.passes[p].batch, w.passes[p].settled, Oldest(w.passes[p].settled), down)
    ensures var after := Next(w, Commit(p, down));
      && after.meteredThrough == (if cursor <= w.passes[p].from then w.meteredThrough else cursor)
      && after.sent == w.sent + Elements(SentBy(w.passes[p], down))
      && after.runs == w.runs && after.passes == w.passes
  {
  }

  /** A pass alone does nothing on what is younger than five minutes; else it reports, and never moves back. */
  lemma LonePassExactly(runs: Runs, from: int, sent: set<Usage>, now: int, down: set<nat>, settled: int, oldest: int)
    requires settled == now - 300_000 && oldest == now - 3_024_000_000
    ensures from >= settled ==> AfterPass(runs, from, sent, now, down) == (0, from, sent)
    ensures from < settled ==>
      var batch := Batch(runs, from, settled);
      var events, cursor := SentBy(Pass(from, settled, batch), down), CursorAfter(batch, settled, oldest, down);
      AfterPass(runs, from, sent, now, down) ==
        (|events|, if cursor > from then cursor else from, sent + Elements(events))
  {
    assert Settled(now) == settled && Oldest(settled) == oldest;
  }

  class BillingAccount {
    var meteredThrough: int
    var sent: set<Usage>

    constructor (start: int)
      ensures meteredThrough == start && sent == {}
    {
      meteredThrough, sent := start, {};
    }

    /** reportAiUsage for this account, no other pass running. */
    method ReportAiUsage(runs: Runs, now: int, down: set<nat>) returns (reported: nat)
      modifies this
      ensures (reported, meteredThrough, sent) == AfterPass(runs, old(meteredThrough), old(sent), now, down)
    {
      var settled, oldest := now - SETTLE_MS, now - MAX_AGE_MS;
      reported := 0;
      if meteredThrough < settled {
        var batch := Batch(runs, meteredThrough, settled);
        var events, n, cursor := ReportBatch(batch, meteredThrough, settled, oldest, down);
        sent := sent + Elements(events);
        reported := n;
        if cursor > meteredThrough {
          meteredThrough := cursor;
        }
      }
    }
  }
}
