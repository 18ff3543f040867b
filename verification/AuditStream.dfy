/**
 Delivery of one company's audit log to its SIEM (backend/src/audit/stream.ts, and the settings
 that disturb it, backend/src/services/audit.ts). A claim is fenced by its `lockedAt` alone, and
 the cursor moves after the batch was sent, so a crash in between re-sends.
 */
module AuditStream {
  import opened Arith
  import opened Options

  const STREAM_BATCH_SIZE := 500
  const STALE_LOCK_MS := 120_000
  const NOT_ENTITLED_RECHECK_MS := 3_600_000
  const MAX_BACKOFF_MS := 3_600_000

  datatype Stream = Stream(enabled: bool, cursorSeq: nat, failures: nat, nextAttemptAt: int, lockedAt: Option<int>)

  /** What a claim leaves in a worker's memory. */
  datatype Ticket = Ticket(lockedAt: int, cursorSeq: nat, failures: nat)

  /** One request that reached the destination, and the claim it was made under. */
  datatype Batch = Batch(claim: nat, seqs: seq<nat>)

  /**
   The stream's row, the seqs that survive in the log (`oldest` to `tip`, without gaps), and three
   history variables: every claim and every request so far, and the claims whose worker has made its
   update. `start` is the cursor the row was created with.
   */
  datatype World = World(
    stream: Stream, oldest: nat, tip: nat, start: nat, tickets: seq<Ticket>, batches: seq<Batch>, done: set<nat>)

  // ---- Transactions ----

  predicate Claimable(s: Stream, now: int) {
    s.enabled && s.nextAttemptAt <= now && (s.lockedAt.None? || s.lockedAt.value < now - STALE_LOCK_MS)
  }

  function ClaimedTicket(s: Stream, now: int): Ticket {
    Ticket(now, s.cursorSeq, s.failures)
  }

  predicate Owned(s: Stream, t: Ticket) {
    s.lockedAt == Some(t.lockedAt)
  }

  function BackoffMs(failures: nat): int {
    Min(MAX_BACKOFF_MS, 60_000 * Pow2(Max(0, failures - 1)))
  }

  function RecordFailure(s: Stream, t: Ticket): Stream {
    if Owned(s, t) then
      s.(failures := t.failures + 1, nextAttemptAt := t.lockedAt + BackoffMs(t.failures + 1), lockedAt := None)
    else s
  }

  function HoldUnentitled(s: Stream, t: Ticket): Stream {
    if Owned(s, t) then s.(nextAttemptAt := t.lockedAt + NOT_ENTITLED_RECHECK_MS, lockedAt := None) else s
  }

  function Release(s: Stream, t: Ticket): Stream {
    if Owned(s, t) then s.(lockedAt := None) else s
  }

  function Delivered(s: Stream, t: Ticket, lastSeq: nat): Stream {
    if Owned(s, t) then s.(cursorSeq := lastSeq, failures := 0, nextAttemptAt := t.lockedAt, lockedAt := None) else s
  }

  function SaveDestination(s: Stream, now: int): Stream {
    s.(enabled := true, failures := 0, nextAttemptAt := now, lockedAt := None)
  }

  function SetEnabled(s: Stream, enabled: bool, now: int): Stream {
    if enabled then s.(enabled := true, failures := 0, nextAttemptAt := now, lockedAt := None) else s.(enabled := false)
  }

  /** The batch query: surviving seqs above a cursor, ascending, at most STREAM_BATCH_SIZE. */
  function Rows(oldest: nat, tip: nat, cursor: nat): seq<nat> {
    var first := Max(cursor + 1, oldest);
    var count := Min(STREAM_BATCH_SIZE, tip + 1 - first);
    seq(Max(0, count), i requires 0 <= i => first + i)
  }

  // ---- Runs ----

  datatype Step =
    | Append
    | Purge(through: nat)
    | Claim(now: int)
    | Send(claim: nat)                // the destination has the batch; the worker may crash now
    | Settle(batch: nat)              // the cursor update of a worker whose batch was sent
    | Fail(claim: nat)
    | Hold(claim: nat)
    | Idle(claim: nat)                // nothing to send
    | Save(now: int)
    | Enable(enabled: bool, now: int)

  /** The claim's worker has made its request. */
  predicate Sent(w: World, k: nat) {
    exists b :: 0 <= b < |w.batches| && w.batches[b].claim == k
  }

  /** The claim's worker has not made its update yet; it may never do so. */
  predicate Pending(w: World, k: nat) {
    k < |w.tickets| && k !in w.done
  }

  /**
   Workers act on any claim ever made, however late: one request at most, and one update at most.
   A request may be answered too late, so that a failure is recorded of it. Purges keep the tip, as
   the log does.
   */
  predicate Allowed(w: World, s: Step) {
    match s
    case Append => true
    case Purge(through) => through < w.tip
    case Claim(now) => Claimable(w.stream, now)
    case Send(k) => Pending(w, k) && !Sent(w, k) && Rows(w.oldest, w.tip, w.tickets[k].cursorSeq) != []
    case Settle(b) => b < |w.batches| && Pending(w, w.batches[b].claim) && w.batches[b].seqs != []
    case Fail(k) => Pending(w, k)
    case Hold(k) => Pending(w, k) && !Sent(w, k)
    case Idle(k) => Pending(w, k) && !Sent(w, k)
    case Save(_) => true
    case Enable(_, _) => true
  }

  function Next(w: World, s: Step): World
    requires Allowed(w, s)
  {
    match s
    case Append => w.(tip := w.tip + 1)
    case Purge(through) => w.(oldest := Max(w.oldest, through + 1))
    case Claim(now) =>
      w.(stream := w.stream.(lockedAt := Some(now)), tickets := w.tickets + [ClaimedTicket(w.stream, now)])
    case Send(k) => w.(batches := w.batches + [Batch(k, Rows(w.oldest, w.tip, w.tickets[k].cursorSeq))])
    case Settle(b) =>
      var batch := w.batches[b];
      w.(stream := Delivered(w.stream, w.tickets[batch.claim], batch.seqs[|batch.seqs| - 1]),
         done := w.done + {batch.claim})
    case Fail(k) => w.(stream := RecordFailure(w.stream, w.tickets[k]), done := w.done + {k})
    case Hold(k) => w.(stream := HoldUnentitled(w.stream, w.tickets[k]), done := w.done + {k})
    case Idle(k) => w.(stream := Release(w.stream, w.tickets[k]), done := w.done + {k})
    case Save(now) => w.(stream := SaveDestination(w.stream, now))
    case Enable(enabled, now) => w.(stream := SetEnabled(w.stream, enabled, now))
  }

  ghost predicate Possible(w: World, steps: seq<Step>)
    decreases |steps|
  {
    steps == [] || (Allowed(w, steps[0]) && Possible(Next(w, steps[0]), steps[1..]))
  }

  ghost function Exec(w: World, steps: seq<Step>): World
    requires Possible(w, steps)
    decreases |steps|
  {
    if steps == [] then w else Exec(Next(w, steps[0]), steps[1..])
  }

  /** saveAuditStream's create: the stream starts at the newest entry. */
  function Created(oldest: nat, tip: nat, now: int): World {
    World(Stream(true, tip, 0, now, None), oldest, tip, tip, [], [], {})
  }

  // ---- What a step does to the row ----

  /**
   A stream can be claimed exactly when it is enabled, due, and unlocked or locked more than two minutes
   ago. The claim takes the lock and remembers the cursor and the failures, and nothing else changes.
   */
  lemma ClaimedExactly(w: World, now: int)
    ensures Allowed(w, Claim(now)) <==>
      && w.stream.enabled && w.stream.nextAttemptAt <= now
      && (w.stream.lockedAt.Some? ==> w.stream.lockedAt.value < now - 120_000)
    ensures Allowed(w, Claim(now)) ==>
      Next(w, Claim(now)) == w.(stream := w.stream.(lockedAt := Some(now)),
                                tickets := w.tickets + [Ticket(now, w.stream.cursorSeq, w.stream.failures)])
  {
  }

  /** The first failure waits a minute, and each further one twice as long, up to an hour. */
  lemma BackoffDoubles(failures: nat)
    requires failures >= 1
    ensures BackoffMs(1) == 60_000
    ensures BackoffMs(failures + 1) == Min(3_600_000, 2 * BackoffMs(failures))
  {
    assert Pow2(0) == 1 && Pow2(failures) == 2 * Pow2(failures - 1);
  }

  /** What the update of the worker that holds the lock leaves: nothing of the lock, and the row as the outcome says. */
  predicate Updates(s: Stream, s': Stream, t: Ticket, cursorSeq: nat, failures: nat, nextAttemptAt: int) {
    s.lockedAt == Some(t.lockedAt) && s' == s.(cursorSeq := cursorSeq, failures := failures,
                                               nextAttemptAt := nextAttemptAt, lockedAt := None)
  }

  /**
   A worker's update lands exactly while the lock carries its millisecond. A delivery moves the cursor to
   the batch's last entry and is due again at once; a failure counts one more and waits; a company
   without the feature waits an hour; with nothing to send, the lock is freed.
   */
  lemma UpdatedExactly(w: World, s: Step)
    requires Allowed(w, s) && (s.Settle? || s.Fail? || s.Hold? || s.Idle?)
    ensures var k := if s.Settle? then w.batches[s.batch].claim else s.claim;
      var t, was, now := w.tickets[k], w.stream, Next(w, s).stream;
      && Next(w, s) == w.(stream := now, done := w.done + {k})
      && (was.lockedAt != Some(t.lockedAt) ==> now == was)
      && (was.lockedAt == Some(t.lockedAt) ==>
            match s
            case Settle(b) => Updates(was, now, t, w.batches[b].seqs[|w.batches[b].seqs| - 1], 0, t.lockedAt)
            case Fail(_) =>
              Updates(was, now, t, was.cursorSeq, t.failures + 1, t.lockedAt + BackoffMs(t.failures + 1))
            case Hold(_) => Updates(was, now, t, was.cursorSeq, was.failures, t.lockedAt + 3_600_000)
            case Idle(_) => Updates(was, now, t, was.cursorSeq, was.failures, was.nextAttemptAt)
            case _ => true)
  {
  }

  // ---- Nothing is skipped, whatever the clocks ----

  /** An entry reached the destination at least once, or the retention policy deleted it. */
  predicate Accounted(w: World, n: nat) {
    n < w.oldest || exists b :: 0 <= b < |w.batches| && n in w.batches[b].seqs
  }

  predicate AccountedThrough(w: World, bound: nat) {
    forall n :: w.start < n <= bound ==> Accounted(w, n)
  }

  ghost predicate Covered(w: World) {
    && AccountedThrough(w, w.stream.cursorSeq)
    && (forall k :: 0 <= k < |w.tickets| ==> AccountedThrough(w, w.tickets[k].cursorSeq))
    && (forall b :: 0 <= b < |w.batches| ==>
          w.batches[b].seqs != [] ==> AccountedThrough(w, w.batches[b].seqs[|w.batches[b].seqs| - 1]))
  }

  /** The log only loses entries from the front, and the history only grows. */
  predicate Extends(w: World, w': World) {
    w'.oldest >= w.oldest && w'.start == w.start && w.batches <= w'.batches
  }

  lemma AccountedStays(w: World, w': World, bound: nat)
    requires Extends(w, w') && AccountedThrough(w, bound)
    ensures AccountedThrough(w', bound)
  {
    forall n | w.start < n <= bound ensures Accounted(w', n) {
      assert Accounted(w, n);
      if n >= w.oldest {
        var b :| 0 <= b < |w.batches| && n in w.batches[b].seqs;
        assert w'.batches[b] == w.batches[b];
      }
    }
  }

  /** A batch is the next surviving entries after the claim's cursor, in order and without a gap. */
  lemma RowsAreNextInOrder(oldest: nat, tip: nat, cursor: nat)
    ensures var rows := Rows(oldest, tip, cursor);
      && |rows| <= STREAM_BATCH_SIZE
      && (rows == [] <==> tip < Max(cursor + 1, oldest))
      && (forall i :: 0 <= i < |rows| ==> rows[i] == Max(cursor + 1, oldest) + i <= tip)
      && (forall n :: n > cursor && n >= oldest && rows != [] && n <= rows[|rows| - 1] ==> n in rows)
      && (0 < |rows| < STREAM_BATCH_SIZE ==> rows[|rows| - 1] == tip)
  {
    var rows := Rows(oldest, tip, cursor);
    forall n | n > cursor && n >= oldest && rows != [] && n <= rows[|rows| - 1] ensures n in rows {
      assert rows[n - Max(cursor + 1, oldest)] == n;
    }
  }

  lemma SendKeepsCovered(w: World, k: nat)
    requires Covered(w) && Allowed(w, Send(k))
    ensures Covered(Next(w, Send(k)))
  {
    var w', cursor := Next(w, Send(k)), w.tickets[k].cursorSeq;
    var rows := Rows(w.oldest, w.tip, cursor);
    RowsAreNextInOrder(w.oldest, w.tip, cursor);
    AccountedStays(w, w', w.stream.cursorSeq);
    forall j | 0 <= j < |w.tickets| ensures AccountedThrough(w', w.tickets[j].cursorSeq) {
      AccountedStays(w, w', w.tickets[j].cursorSeq);
    }
    forall n | w.start < n <= rows[|rows| - 1] ensures Accounted(w', n) {
      if n >= w.oldest && n > cursor {
        assert n in w'.batches[|w.batches|].seqs;
      }
    }
    forall b | 0 <= b < |w'.batches| && w'.batches[b].seqs != []
      ensures AccountedThrough(w', w'.batches[b].seqs[|w'.batches[b].seqs| - 1])
    {
      if b < |w.batches| {
        AccountedStays(w, w', w.batches[b].seqs[|w.batches[b].seqs| - 1]);
      }
    }
  }

  lemma StepKeepsCovered(w: World, s: Step)
    requires Covered(w) && Allowed(w, s)
    ensures Covered(Next(w, s))
  {
    if s.Send? {
      SendKeepsCovered(w, s.claim);
    } else {
      var w' := Next(w, s);
      assert w'.batches == w.batches && Extends(w, w');
      AccountedStays(w, w', w.stream.cursorSeq);
      forall k | 0 <= k < |w.tickets| ensures AccountedThrough(w', w.tickets[k].cursorSeq) {
        AccountedStays(w, w', w.tickets[k].cursorSeq);
      }
      forall b | 0 <= b < |w.batches| && w.batches[b].seqs != []
        ensures AccountedThrough(w', w.batches[b].seqs[|w.batches[b].seqs| - 1])
      {
        AccountedStays(w, w', w.batches[b].seqs[|w.batches[b].seqs| - 1]);
      }
    }
  }

  lemma {:induction false} ExecKeepsCovered(w: World, steps: seq<Step>)
    requires Covered(w) && Possible(w, steps)
    ensures Covered(Exec(w, steps)) && Exec(w, steps).start == w.start
    decreases |steps|
  {
    if steps != [] {
      StepKeepsCovered(w, steps[0]);
      ExecKeepsCovered(Next(w, steps[0]), steps[1..]);
    }
  }

  /**
   Delivery at least once: through any crashes, stale reclaims, failures, pauses, purges and saves,
   and with any clocks at all, every entry written after the stream was connected and at or below
   its cursor was sent, or had been purged.
   */
  lemma NothingIsSkipped(oldest: nat, tip: nat, now: int, steps: seq<Step>, n: nat)
    requires Possible(Created(oldest, tip, now), steps)
    requires tip < n <= Exec(Created(oldest, tip, now), steps).stream.cursorSeq
    ensures Accounted(Exec(Created(oldest, tip, now), steps), n)
  {
    ExecKeepsCovered(Created(oldest, tip, now), steps);
  }

  // ---- The cursor, and claims that share a millisecond ----

  /** The lock is the newest claim's, and every request is past the cursor its claim found. */
  ghost predicate LockIsNewest(w: World) {
    && (w.stream.lockedAt.Some? ==> w.tickets != [] && Owned(w.stream, w.tickets[|w.tickets| - 1]))
    && (forall b :: 0 <= b < |w.batches| ==>
          w.batches[b].claim < |w.tickets| &&
          forall i :: 0 <= i < |w.batches[b].seqs| ==> w.batches[b].seqs[i] > w.tickets[w.batches[b].claim].cursorSeq)
  }

  /** While the lock is held the cursor is where the newest claim found it. */
  ghost predicate CursorIsClaims(w: World) {
    w.stream.lockedAt.Some? && w.tickets != [] ==> w.stream.cursorSeq == w.tickets[|w.tickets| - 1].cursorSeq
  }

  ghost predicate LockOk(w: World) {
    LockIsNewest(w) && CursorIsClaims(w)
  }

  lemma StepKeepsLock(w: World, s: Step)
    requires LockOk(w) && Allowed(w, s)
    ensures LockOk(Next(w, s))
  {
    if s.Send? {
      RowsAreNextInOrder(w.oldest, w.tip, w.tickets[s.claim].cursorSeq);
    }
  }

  /** A worker's update lands exactly when the lock is held by the newest claim and carries its own millisecond. */
  lemma LateWorkerActsOnlyInTheSameMillisecond(w: World, k: nat)
    requires LockIsNewest(w) && k < |w.tickets|
    ensures Owned(w.stream, w.tickets[k]) <==>
      w.stream.lockedAt.Some? && w.tickets[k].lockedAt == w.tickets[|w.tickets| - 1].lockedAt
  {
  }

  /**
   The one way the cursor can go back: an update that passes for the newest claim's, of a batch that
   ends below where that claim found the cursor.
   */
  lemma StepLowersCursorExactly(w: World, s: Step)
    requires LockOk(w) && Allowed(w, s)
    ensures Next(w, s).stream.cursorSeq < w.stream.cursorSeq <==>
      && s.Settle? && w.stream.lockedAt.Some?
      && w.tickets[w.batches[s.batch].claim].lockedAt == w.tickets[|w.tickets| - 1].lockedAt
      && w.batches[s.batch].seqs[|w.batches[s.batch].seqs| - 1] < w.tickets[|w.tickets| - 1].cursorSeq
  {
  }

  /** No step of the run takes the cursor back. */
  ghost predicate KeepsCursor(w: World, steps: seq<Step>)
    requires Possible(w, steps)
    decreases |steps|
  {
    steps == [] ||
    (w.stream.cursorSeq <= Next(w, steps[0]).stream.cursorSeq && KeepsCursor(Next(w, steps[0]), steps[1..]))
  }

  /** When the claims of a run were made. */
  function ClaimTimes(steps: seq<Step>): seq<int> {
    if steps == [] then []
    else (if steps[0].Claim? then [steps[0].now] else []) + ClaimTimes(steps[1..])
  }

  /** Claims in one millisecond are next to each other. */
  predicate OnlyNeighboursShare(times: seq<int>) {
    forall i, j :: 0 <= i && i + 1 < j < |times| ==> times[i] != times[j]
  }

  function TimesOf(tickets: seq<Ticket>): seq<int> {
    seq(|tickets|, i requires 0 <= i < |tickets| => tickets[i].lockedAt)
  }

  lemma StepExtendsTimes(w: World, s: Step)
    requires Allowed(w, s)
    ensures TimesOf(Next(w, s).tickets) == TimesOf(w.tickets) + if s.Claim? then [s.now] else []
  {
  }

  /** The claim shares its millisecond with the one before it. */
  predicate Shares(w: World, k: nat)
    requires k < |w.tickets|
  {
    k > 0 && w.tickets[k - 1].lockedAt == w.tickets[k].lockedAt
  }

  /** Since the newest claim the cursor was moved by that claim, or by the one before it in the same millisecond. */
  ghost predicate MovedByNeighbour(w: World) {
    var m := |w.tickets| - 1;
    m >= 0 ==> w.stream.cursorSeq == w.tickets[m].cursorSeq || m in w.done || Shares(w, m)
  }

  /** A claim that finds its neighbour's millisecond, and the neighbour not done, finds its cursor as well. */
  ghost predicate NeighbourFound(w: World) {
    var m := |w.tickets| - 1;
    m >= 1 && Shares(w, m) && m - 1 !in w.done ==> w.tickets[m].cursorSeq == w.tickets[m - 1].cursorSeq
  }

  ghost predicate CursorOk(w: World) {
    LockOk(w) && MovedByNeighbour(w) && NeighbourFound(w) && forall k :: k in w.done ==> k < |w.tickets|
  }

  lemma StepKeepsCursor(w: World, s: Step)
    requires CursorOk(w) && Allowed(w, s) && OnlyNeighboursShare(TimesOf(Next(w, s).tickets))
    ensures CursorOk(Next(w, s)) && w.stream.cursorSeq <= Next(w, s).stream.cursorSeq
  {
    var times, m := TimesOf(Next(w, s).tickets), |w.tickets| - 1;
    StepKeepsLock(w, s);
    StepExtendsTimes(w, s);
    if s.Settle? {
      var k := w.batches[s.batch].claim;
      LateWorkerActsOnlyInTheSameMillisecond(w, k);
      if Owned(w.stream, w.tickets[k]) {
        assert times[k] == times[m];
        assert k == m || k == m - 1;
      }
    } else if s.Claim? && m >= 1 && Shares(w, m) {
      assert times[m - 1] != times[m + 1];
    }
  }

  lemma {:induction false} NeighboursKeepCursor(w: World, steps: seq<Step>)
    requires Possible(w, steps) && CursorOk(w) && OnlyNeighboursShare(TimesOf(w.tickets) + ClaimTimes(steps))
    ensures KeepsCursor(w, steps)
    decreases |steps|
  {
    if steps != [] {
      var w', times := Next(w, steps[0]), TimesOf(w.tickets) + ClaimTimes(steps);
      StepExtendsTimes(w, steps[0]);
      assert times == TimesOf(w'.tickets) + ClaimTimes(steps[1..]);
      assert TimesOf(w'.tickets) == times[..|w'.tickets|];
      StepKeepsCursor(w, steps[0]);
      NeighboursKeepCursor(w', steps[1..]);
    }
  }

  // ---- A run for any two claims that share a millisecond across a third ----

  lemma {:induction false} ExecConcat(w: World, a: seq<Step>, b: seq<Step>)
    requires Possible(w, a) && Possible(Exec(w, a), b)
    ensures Possible(w, a + b) && Exec(w, a + b) == Exec(Exec(w, a), b)
    ensures ClaimTimes(a + b) == ClaimTimes(a) + ClaimTimes(b)
    decreases |a|
  {
    if a == [] {
      assert a + b == b;
    } else {
      assert (a + b)[0] == a[0] && (a + b)[1..] == a[1..] + b;
      ExecConcat(Next(w, a[0]), a[1..], b);
    }
  }

  lemma {:induction false} KeepsConcat(w: World, a: seq<Step>, b: seq<Step>)
    requires Possible(w, a) && Possible(Exec(w, a), b) && Possible(w, a + b) && KeepsCursor(w, a + b)
    ensures KeepsCursor(w, a) && KeepsCursor(Exec(w, a), b)
    decreases |a|
  {
    if a == [] {
      assert a + b == b;
    } else {
      assert (a + b)[0] == a[0] && (a + b)[1..] == a[1..] + b;
      KeepsConcat(Next(w, a[0]), a[1..], b);
    }
  }

  /** A save frees the lock and makes the stream due, so that a claim can follow at any time. */
  function Reclaims(times: seq<int>): seq<Step> {
    if times == [] then [] else [Save(times[0]), Claim(times[0])] + Reclaims(times[1..])
  }

  /** What reclaims leave alone, and the tickets they add. */
  ghost predicate Reclaimed(w: World, end: World, times: seq<int>) {
    && end.oldest == w.oldest && end.tip == w.tip && end.batches == w.batches && end.done == w.done
    && end.stream.cursorSeq == w.stream.cursorSeq
    && w.tickets <= end.tickets && |end.tickets| == |w.tickets| + |times|
    && (forall i :: 0 <= i < |times| ==>
          end.tickets[|w.tickets| + i].lockedAt == times[i] &&
          end.tickets[|w.tickets| + i].cursorSeq == w.stream.cursorSeq)
    && end.stream.lockedAt == if times == [] then w.stream.lockedAt else Some(times[|times| - 1])
  }

  lemma TwoSteps(w: World, a: Step, b: Step)
    requires Allowed(w, a) && Allowed(Next(w, a), b)
    ensures Possible(w, [a, b]) && Exec(w, [a, b]) == Next(Next(w, a), b)
    ensures ClaimTimes([a, b]) == (if a.Claim? then [a.now] else []) + if b.Claim? then [b.now] else []
  {
    assert [a, b][1..] == [b] && [b][1..] == [];
    assert Possible(Next(w, a), [b]) && Exec(Next(w, a), [b]) == Next(Next(w, a), b);
    assert ClaimTimes([b][1..]) == [];
  }

  lemma ReclaimOnce(w: World, at: int)
    ensures Possible(w, [Save(at), Claim(at)]) && ClaimTimes([Save(at), Claim(at)]) == [at]
    ensures Reclaimed(w, Exec(w, [Save(at), Claim(at)]), [at])
  {
    TwoSteps(w, Save(at), Claim(at));
  }

  lemma ReclaimedMore(w: World, mid: World, end: World, at: int, times: seq<int>)
    requires Reclaimed(w, mid, [at]) && Reclaimed(mid, end, times)
    ensures Reclaimed(w, end, [at] + times)
  {
    forall i | 0 <= i < 1 + |times|
      ensures end.tickets[|w.tickets| + i].lockedAt == ([at] + times)[i] &&
              end.tickets[|w.tickets| + i].cursorSeq == w.stream.cursorSeq
    {
      if i == 0 {
        assert end.tickets[|w.tickets|] == mid.tickets[|w.tickets| + 0];
      } else {
        assert end.tickets[|mid.tickets| + (i - 1)].lockedAt == times[i - 1];
      }
    }
    if times == [] {
      assert end.stream.lockedAt == mid.stream.lockedAt;
    }
  }

  lemma {:induction false} ReclaimsRun(w: World, times: seq<int>)
    ensures Possible(w, Reclaims(times)) && ClaimTimes(Reclaims(times)) == times
    ensures Reclaimed(w, Exec(w, Reclaims(times)), times)
    decreases |times|
  {
    if times != [] {
      var once := [Save(times[0]), Claim(times[0])];
      ReclaimOnce(w, times[0]);
      ReclaimsRun(Exec(w, once), times[1..]);
      ExecConcat(w, once, Reclaims(times[1..]));
      ReclaimedMore(w, Exec(w, once), Exec(w, Reclaims(times)), times[0], times[1..]);
      assert [times[0]] + times[1..] == times;
    }
  }

  /** The run so far, and the state it has led to. */
  lemma Then(w: World, steps: seq<Step>, at: World, more: seq<Step>) returns (steps': seq<Step>, at': World)
    requires Possible(w, steps) && Exec(w, steps) == at && Possible(at, more)
    ensures steps' == steps + more && at' == Exec(at, more)
    ensures Possible(w, steps') && Exec(w, steps') == at'
    ensures ClaimTimes(steps') == ClaimTimes(steps) + ClaimTimes(more)
    ensures KeepsCursor(w, steps') ==> KeepsCursor(w, steps) && KeepsCursor(at, more)
  {
    ExecConcat(w, steps, more);
    steps', at' := steps + more, Exec(at, more);
    if KeepsCursor(w, steps') {
      KeepsConcat(w, steps, more);
    }
  }

  lemma ThenStep(w: World, steps: seq<Step>, at: World, s: Step) returns (steps': seq<Step>, at': World)
    requires Possible(w, steps) && Exec(w, steps) == at && Allowed(at, s)
    ensures steps' == steps + [s] && at' == Next(at, s)
    ensures Possible(w, steps') && Exec(w, steps') == at'
    ensures ClaimTimes(steps') == ClaimTimes(steps) + if s.Claim? then [s.now] else []
    ensures KeepsCursor(w, steps') ==> KeepsCursor(w, steps) && at.stream.cursorSeq <= at'.stream.cursorSeq
  {
    assert [s][1..] == [] && Possible(at, [s]) && Exec(at, [s]) == Next(at, s);
    assert ClaimTimes([s][1..]) == [];
    steps', at' := Then(w, steps, at, [s]);
  }

  lemma ThenReclaims(w: World, steps: seq<Step>, at: World, times: seq<int>) returns (steps': seq<Step>, at': World)
    requires Possible(w, steps) && Exec(w, steps) == at
    ensures Possible(w, steps') && Exec(w, steps') == at' && Reclaimed(at, at', times)
    ensures ClaimTimes(steps') == ClaimTimes(steps) + times
    ensures KeepsCursor(w, steps') ==> KeepsCursor(w, steps)
  {
    ReclaimsRun(at, times);
    steps', at' := Then(w, steps, at, Reclaims(times));
  }

  /** Worker i has sent the one entry there is. */
  ghost predicate OneSent(w: World, times: seq<int>, i: nat)
    requires i < |times|
  {
    && w.oldest == 1 && w.tip == 1 && w.stream.cursorSeq == 0 && w.done == {}
    && w.batches == [Batch(i, [1])] && |w.tickets| == i + 1 && w.tickets[i].lockedAt == times[i]
  }

  lemma OneWaits(times: seq<int>, i: nat) returns (steps: seq<Step>, w: World)
    requires i < |times|
    ensures Possible(Created(1, 0, 0), steps) && Exec(Created(1, 0, 0), steps) == w && ClaimTimes(steps) == times[..i]
    ensures w.oldest == 1 && w.tip == 1 && w.batches == [] && w.done == {} && w.stream.cursorSeq == 0 &&
      |w.tickets| == i
  {
    var start := Created(1, 0, 0);
    steps, w := ThenReclaims(start, [], start, times[..i]);
    steps, w := ThenStep(start, steps, w, Append);
  }

  lemma WorkerReadsOne(times: seq<int>, i: nat) returns (steps: seq<Step>, w: World)
    requires i < |times|
    ensures Possible(Created(1, 0, 0), steps) && Exec(Created(1, 0, 0), steps) == w
    ensures ClaimTimes(steps) == times[..i + 1] && OneSent(w, times, i)
  {
    var start := Created(1, 0, 0);
    steps, w := OneWaits(times, i);
    steps, w := ThenReclaims(start, steps, w, [times[i]]);
    assert w.tickets[i + 0].cursorSeq == 0 && Rows(1, 1, 0) == [1];
    steps, w := ThenStep(start, steps, w, Send(i));
    assert times[..i + 1] == times[..i] + [times[i]];
  }

  /** Worker i + 1 has delivered two, and worker i's update is still to come. */
  ghost predicate TwoDelivered(w: World, times: seq<int>, i: nat)
    requires i + 1 < |times|
  {
    && w.stream.cursorSeq == 2 && w.done == {i + 1} && |w.tickets| == i + 2 && w.tickets[i].lockedAt == times[i]
    && |w.batches| == 2 && w.batches[0] == Batch(i, [1])
  }

  lemma NextDeliversTwo(times: seq<int>, i: nat) returns (steps: seq<Step>, w: World)
    requires i + 1 < |times|
    ensures Possible(Created(1, 0, 0), steps) && Exec(Created(1, 0, 0), steps) == w
    ensures ClaimTimes(steps) == times[..i + 2] && TwoDelivered(w, times, i)
  {
    var start := Created(1, 0, 0);
    steps, w := WorkerReadsOne(times, i);
    steps, w := ThenStep(start, steps, w, Append);
    var was := w;
    steps, w := ThenReclaims(start, steps, w, [times[i + 1]]);
    assert w.tickets[i] == was.tickets[i];
    assert w.tickets[i + 1 + 0].cursorSeq == 0 && w.tickets[i + 1 + 0].lockedAt == times[i + 1] &&
      Rows(1, 2, 0) == [1, 2];
    steps, w := ThenStep(start, steps, w, Send(i + 1));
    steps, w := ThenStep(start, steps, w, Settle(1));
    assert times[..i + 2] == times[..i + 1] + [times[i + 1]];
  }

  /** Worker j holds the lock in worker i's millisecond, and worker i's update is still to come. */
  ghost predicate LatePending(w: World, i: nat) {
    && w.stream.cursorSeq == 2 && i !in w.done && i < |w.tickets| && Owned(w.stream, w.tickets[i])
    && |w.batches| == 2 && w.batches[0] == Batch(i, [1])
  }

  lemma LateWorkerPasses(times: seq<int>, i: nat, j: nat) returns (steps: seq<Step>, w: World)
    requires i + 1 < j < |times| && times[i] == times[j]
    ensures Possible(Created(1, 0, 0), steps) && Exec(Created(1, 0, 0), steps) == w
    ensures ClaimTimes(steps) == times[..j + 1] && LatePending(w, i)
  {
    steps, w := NextDeliversTwo(times, i);
    var was := w;
    steps, w := ThenReclaims(Created(1, 0, 0), steps, w, times[i + 2..j + 1]);
    assert w.tickets[i] == was.tickets[i];
    assert times[..j + 1] == times[..i + 2] + times[i + 2..j + 1];
  }

  /**
   Worker i reads one entry, worker i + 1 delivers that and the next, and once worker j has claimed
   in worker i's millisecond, worker i's late update passes for it and takes the cursor back.
   */
  lemma ApartTakesCursorBack(times: seq<int>, i: nat, j: nat) returns (steps: seq<Step>)
    requires i + 1 < j < |times| && times[i] == times[j]
    ensures Possible(Created(1, 0, 0), steps) && ClaimTimes(steps) == times && !KeepsCursor(Created(1, 0, 0), steps)
  {
    var w;
    steps, w := LateWorkerPasses(times, i, j);
    steps, w := ThenStep(Created(1, 0, 0), steps, w, Settle(0));
    steps, w := ThenReclaims(Created(1, 0, 0), steps, w, times[j + 1..]);
    assert times == times[..j + 1] + times[j + 1..];
  }

  /** Three claims in one millisecond are enough. */
  lemma SharedMillisecondCanTakeTheCursorBack() returns (steps: seq<Step>)
    ensures Possible(Created(1, 0, 0), steps) && ClaimTimes(steps) == [0, 0, 0]
    ensures !KeepsCursor(Created(1, 0, 0), steps)
  {
    steps := ApartTakesCursorBack([0, 0, 0], 0, 2);
  }

  /** Every run with these claim times keeps the cursor from going back. */
  ghost predicate SafeTimes(times: seq<int>) {
    forall oldest, tip, now, steps ::
      Possible(Created(oldest, tip, now), steps) && ClaimTimes(steps) == times ==>
        KeepsCursor(Created(oldest, tip, now), steps)
  }

  /**
   Exactly when faults only cause re-sends: the cursor never goes back, whatever else happens in a
   run with these claim times, if and only if no two claims with another between them share a millisecond.
   */
  lemma CursorNeverDecreases(times: seq<int>)
    ensures SafeTimes(times) <==> OnlyNeighboursShare(times)
  {
    if OnlyNeighboursShare(times) {
      forall oldest, tip, now, steps | Possible(Created(oldest, tip, now), steps) && ClaimTimes(steps) == times
        ensures KeepsCursor(Created(oldest, tip, now), steps)
      {
        assert TimesOf([]) + ClaimTimes(steps) == times;
        NeighboursKeepCursor(Created(oldest, tip, now), steps);
      }
    } else {
      var i, j :| 0 <= i && i + 1 < j < |times| && times[i] == times[j];
      var _ := ApartTakesCursorBack(times, i, j);
    }
  }

  // ---- The same on a row updated in place ----

  class StreamRow {
    var enabled: bool
    var cursorSeq: nat
    var failures: nat
    var nextAttemptAt: int
    var lockedAt: Option<int>

    function Row(): Stream
      reads this
    {
      Stream(enabled, cursorSeq, failures, nextAttemptAt, lockedAt)
    }

    method ClaimNextStream(now: int) returns (claimed: Option<Ticket>)
      modifies this
      ensures claimed == if Claimable(old(Row()), now) then Some(ClaimedTicket(old(Row()), now)) else None
      ensures Row() == if claimed.Some? then old(Row()).(lockedAt := Some(now)) else old(Row())
    {
      var staleBefore := now - STALE_LOCK_MS;
      if enabled && nextAttemptAt <= now && (lockedAt == None || lockedAt.value < staleBefore) {
        lockedAt := Some(now);
        return Some(Ticket(now, cursorSeq, failures));
      }
      return None;
    }

    /** deliverBatch after a claim: `entitled`, `readable` and `accepted` are what its calls answer. */
    method DeliverBatch(t: Ticket, oldest: nat, tip: nat, entitled: bool, readable: bool, accepted: bool)
      returns (sent: seq<nat>, more: bool)
      modifies this
      ensures sent == if entitled && readable && accepted then Rows(oldest, tip, t.cursorSeq) else []
      ensures more <==> |sent| == STREAM_BATCH_SIZE
      ensures Row() ==
        if !entitled then HoldUnentitled(old(Row()), t)
        else if !readable then RecordFailure(old(Row()), t)
        else if Rows(oldest, tip, t.cursorSeq) == [] then Release(old(Row()), t)
        else if !accepted then RecordFailure(old(Row()), t)
        else Delivered(old(Row()), t, sent[|sent| - 1])
    {
      var owned := lockedAt == Some(t.lockedAt);
      if !entitled {
        if owned {
          nextAttemptAt, lockedAt := t.lockedAt + NOT_ENTITLED_RECHECK_MS, None;
        }
        return [], false;
      }
      var rows := Rows(oldest, tip, t.cursorSeq);
      RowsAreNextInOrder(oldest, tip, t.cursorSeq);
      if readable && |rows| == 0 {
        if owned {
          lockedAt := None;
        }
        return [], false;
      }
      if !readable || !accepted {
        if owned {
          failures := t.failures + 1;
          nextAttemptAt, lockedAt := t.lockedAt + BackoffMs(failures), None;
        }
        return [], false;
      }
      if owned {
        cursorSeq, failures, nextAttemptAt, lockedAt := rows[|rows| - 1], 0, t.lockedAt, None;
      }
      return rows, |rows| == STREAM_BATCH_SIZE;
    }

    /** The stream is due at once, nobody who claimed it before still owns it, and delivery goes on where it was. */
    method Save(now: int)
      modifies this
      ensures Row() == SaveDestination(old(Row()), now) && cursorSeq == old(cursorSeq)
      ensures Claimable(Row(), now) && forall t :: !Owned(Row(), t)
    {
      enabled, failures, nextAttemptAt, lockedAt := true, 0, now, None;
    }

    /** Resuming is due at once and frees the lock; pausing stops claims but lets the current one finish. */
    method SetStreamEnabled(on: bool, now: int)
      modifies this
      ensures Row() == SetEnabled(old(Row()), on, now) && cursorSeq == old(cursorSeq)
      ensures on ==> Claimable(Row(), now) && forall t :: !Owned(Row(), t)
      ensures !on ==> forall later :: !Claimable(Row(), later)
      ensures !on ==> forall t :: Owned(Row(), t) <==> Owned(old(Row()), t)
    {
      if on {
        enabled, failures, nextAttemptAt, lockedAt := true, 0, now, None;
      } else {
        enabled := false;
      }
    }
  }
}
