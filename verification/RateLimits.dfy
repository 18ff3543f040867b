/**
 Sliding-window rate limits over two fixed windows (backend/src/rate-limit.ts). The window weight is
 kept exact: every comparison is multiplied by the window length. Times are milliseconds.
 */
module RateLimits {
  import opened Arith

  datatype RateLimit = RateLimit(max: int, windowMs: int)

  /** The primary key of a RateLimitCounter row. */
  datatype Slot = Slot(key: string, windowStart: int)

  datatype Counter = Counter(count: int, expiresAt: int)

  type Rows = map<Slot, Counter>

  function WindowStart(now: int, windowMs: int): int
    requires windowMs >= 1
  {
    now / windowMs * windowMs
  }

  predicate IsStart(s: int, windowMs: int)
    requires windowMs >= 1
  {
    WindowStart(s, windowMs) == s
  }

  lemma WindowOf(now: int, windowMs: int)
    requires windowMs >= 1
    ensures WindowStart(now, windowMs) <= now < WindowStart(now, windowMs) + windowMs
    ensures IsStart(WindowStart(now, windowMs), windowMs)
  {
    QuotientOfMultiple(now / windowMs, windowMs);
  }

  /** Two window starts are the same or a window apart. */
  lemma StartsAreApart(s: int, t: int, windowMs: int)
    requires windowMs >= 1 && IsStart(s, windowMs) && IsStart(t, windowMs) && s < t
    ensures s + windowMs <= t
  {
    var a, b := s / windowMs, t / windowMs;
    assert s == a * windowMs && t == b * windowMs;
    assert a >= b ==> a * windowMs >= b * windowMs;
    Scale(a + 1, b, windowMs);
    Distribute(a, 1, windowMs);
  }

  lemma PreviousStart(s: int, windowMs: int)
    requires windowMs >= 1 && IsStart(s, windowMs)
    ensures IsStart(s - windowMs, windowMs)
  {
    Distribute(s / windowMs, -1, windowMs);
    QuotientOfMultiple(s / windowMs - 1, windowMs);
  }

  function CountAt(rows: Rows, key: string, start: int): int {
    if Slot(key, start) in rows then rows[Slot(key, start)].count else 0
  }

  /** slidingCount, times the window length. */
  function SlidingCount(rows: Rows, key: string, windowMs: int, now: int): int
    requires windowMs >= 1
  {
    var start := WindowStart(now, windowMs);
    CountAt(rows, key, start - windowMs) * (start + windowMs - now) + CountAt(rows, key, start) * windowMs
  }

  /** peekRateLimit: would cost more units fit? */
  predicate Fits(rows: Rows, key: string, limit: RateLimit, cost: int, now: int)
    requires limit.windowMs >= 1
  {
    SlidingCount(rows, key, limit.windowMs, now) + cost * limit.windowMs <= limit.max * limit.windowMs
  }

  /** The check inside the INSERT: once without the current count and, if its row exists, once with it. */
  predicate Admits(rows: Rows, key: string, limit: RateLimit, cost: int, now: int)
    requires limit.windowMs >= 1
  {
    var start := WindowStart(now, limit.windowMs);
    var weighted := CountAt(rows, key, start - limit.windowMs) * (start + limit.windowMs - now);
    var budget := limit.max * limit.windowMs;
    && weighted + cost * limit.windowMs <= budget
    && (Slot(key, start) in rows ==>
          weighted + CountAt(rows, key, start) * limit.windowMs + cost * limit.windowMs <= budget)
  }

  function ExpiresAt(start: int, windowMs: int): int {
    start + 2 * windowMs
  }

  /** INSERT ... ON CONFLICT DO UPDATE: the count grows, the expiry of an existing row stays. */
  function AddTo(rows: Rows, slot: Slot, amount: int, windowMs: int): Rows {
    if slot in rows then rows[slot := rows[slot].(count := rows[slot].count + amount)]
    else rows[slot := Counter(amount, ExpiresAt(slot.windowStart, windowMs))]
  }

  function Spend(rows: Rows, key: string, limit: RateLimit, cost: int, now: int): Rows
    requires limit.windowMs >= 1
  {
    if Admits(rows, key, limit, cost, now)
    then AddTo(rows, Slot(key, WindowStart(now, limit.windowMs)), cost, limit.windowMs)
    else rows
  }

  function Record(rows: Rows, key: string, windowMs: int, amount: int, now: int): Rows
    requires windowMs >= 1
  {
    if amount <= 0 then rows else AddTo(rows, Slot(key, WindowStart(now, windowMs)), amount, windowMs)
  }

  function Clear(rows: Rows, key: string): Rows {
    map slot | slot in rows && slot.key != key :: rows[slot]
  }

  function Prune(rows: Rows, victims: set<Slot>): Rows {
    rows - victims
  }

  const PRUNE_BATCH := 1_000

  /** The rows one sweep may delete. */
  predicate Prunable(rows: Rows, victims: set<Slot>, now: int) {
    |victims| <= PRUNE_BATCH && forall v :: v in victims ==> v in rows && rows[v].expiresAt < now
  }

  function RetryAfter(now: int, windowMs: int): int
    requires windowMs >= 1
  {
    var seconds := (WindowStart(now, windowMs) + windowMs - now + 999) / 1000;
    if seconds < 1 then 1 else seconds
  }

  /** A refused caller is sent past the end of the window, to within the second. */
  lemma RetryReachesTheNextWindow(now: int, windowMs: int)
    requires windowMs >= 1
    ensures WindowStart(now, windowMs) + windowMs <= now + 1000 * RetryAfter(now, windowMs)
    ensures now + 1000 * (RetryAfter(now, windowMs) - 1) < WindowStart(now, windowMs) + windowMs
  {
    WindowOf(now, windowMs);
  }

  /** The two checks of the statement are the one check of peekRateLimit, as long as no count is negative. */
  lemma TwoStagesAreOneCheck(rows: Rows, key: string, limit: RateLimit, cost: int, now: int)
    requires limit.windowMs >= 1
    ensures Admits(rows, key, limit, cost, now) ==> Fits(rows, key, limit, cost, now)
    ensures CountAt(rows, key, WindowStart(now, limit.windowMs)) >= 0 ==>
      (Admits(rows, key, limit, cost, now) <==> Fits(rows, key, limit, cost, now))
  {
    var start := WindowStart(now, limit.windowMs);
    assert CountAt(rows, key, start) >= 0 ==> CountAt(rows, key, start) * limit.windowMs >= 0;
  }

  /** A row of a key tells when it stops counting. */
  predicate ExpiryKnown(rows: Rows, key: string, windowMs: int) {
    forall slot :: slot in rows && slot.key == key ==> rows[slot].expiresAt == ExpiresAt(slot.windowStart, windowMs)
  }

  /** A row that pruning may take counts in no window any more, now or later. */
  lemma PrunedRowsNoLongerCount(rows: Rows, key: string, windowMs: int, victims: set<Slot>, now: int, later: int)
    requires windowMs >= 1 && ExpiryKnown(rows, key, windowMs) && Prunable(rows, victims, now) && now <= later
    ensures SlidingCount(Prune(rows, victims), key, windowMs, later) == SlidingCount(rows, key, windowMs, later)
    ensures forall s :: ExpiresAt(s, windowMs) >= now ==> CountAt(Prune(rows, victims), key, s) == CountAt(rows, key, s)
  {
    WindowOf(later, windowMs);
    var start := WindowStart(later, windowMs);
    assert CountAt(Prune(rows, victims), key, start) == CountAt(rows, key, start);
    assert CountAt(Prune(rows, victims), key, start - windowMs) == CountAt(rows, key, start - windowMs);
  }

  /** Recorded usage counts in full at once, over the budget if need be, and for its own key alone. */
  lemma RecordedUsageCounts(rows: Rows, key: string, windowMs: int, amount: int, now: int)
    requires windowMs >= 1
    ensures var rows' := Record(rows, key, windowMs, amount, now);
      && SlidingCount(rows', key, windowMs, now) == SlidingCount(rows, key, windowMs, now) + Max(0, amount) * windowMs
      && (forall k, s :: k != key ==> CountAt(rows', k, s) == CountAt(rows, k, s))
      && (ExpiryKnown(rows, key, windowMs) ==> ExpiryKnown(rows', key, windowMs))
  {
    var start := WindowStart(now, windowMs);
    Distribute(CountAt(rows, key, start), Max(0, amount), windowMs);
  }

  /** After clearing, whatever fits an empty budget fits the key's, in any window; no other key notices. */
  lemma ClearedKeyStartsAfresh(rows: Rows, key: string, limit: RateLimit, cost: int, now: int)
    requires limit.windowMs >= 1
    ensures SlidingCount(Clear(rows, key), key, limit.windowMs, now) == 0
    ensures Admits(Clear(rows, key), key, limit, cost, now) <==> cost <= limit.max
    ensures forall k, s :: k != key ==> CountAt(Clear(rows, key), k, s) == CountAt(rows, k, s)
  {
    if cost > limit.max {
      Scale(limit.max + 1, cost, limit.windowMs);
      Distribute(limit.max, 1, limit.windowMs);
    } else {
      Scale(cost, limit.max, limit.windowMs);
    }
  }

  /** The counters shared by every app instance. */
  class Counters {
    var rows: Rows

    constructor ()
      ensures rows == map[]
    {
      rows := map[];
    }

    method Check(key: string, limit: RateLimit, cost: int, now: int) returns (allowed: bool, retryAfterSeconds: int)
      requires limit.windowMs >= 1
      modifies this
      ensures rows == Spend(old(rows), key, limit, cost, now)
      ensures allowed == Admits(old(rows), key, limit, cost, now)
      ensures retryAfterSeconds == if allowed then 0 else RetryAfter(now, limit.windowMs)
    {
      var current := WindowStart(now, limit.windowMs);
      var slot := Slot(key, current);
      var weighted := CountAt(rows, key, current - limit.windowMs) * (current + limit.windowMs - now);
      var budget := limit.max * limit.windowMs;
      allowed := false;
      if weighted + cost * limit.windowMs <= budget {
        if slot !in rows {
          rows := rows[slot := Counter(cost, current + limit.windowMs + limit.windowMs)];
          allowed := true;
        } else if weighted + rows[slot].count * limit.windowMs + cost * limit.windowMs <= budget {
          rows := rows[slot := rows[slot].(count := rows[slot].count + cost)];
          allowed := true;
        }
      }
      retryAfterSeconds := if allowed then 0 else RetryAfter(now, limit.windowMs);
    }

    method Peek(key: string, limit: RateLimit, cost: int, now: int) returns (allowed: bool, retryAfterSeconds: int)
      requires limit.windowMs >= 1
      ensures allowed == Fits(rows, key, limit, cost, now)
      ensures retryAfterSeconds == if allowed then 0 else RetryAfter(now, limit.windowMs)
    {
      var used := SlidingCount(rows, key, limit.windowMs, now);
      allowed := used + cost * limit.windowMs <= limit.max * limit.windowMs;
      retryAfterSeconds := if allowed then 0 else RetryAfter(now, limit.windowMs);
    }

    method RecordUsage(key: string, windowMs: int, amount: int, now: int)
      requires windowMs >= 1
      modifies this
      ensures rows == Record(old(rows), key, windowMs, amount, now)
      ensures SlidingCount(rows, key, windowMs, now) ==
        SlidingCount(old(rows), key, windowMs, now) + Max(0, amount) * windowMs
      ensures forall k, s :: k != key ==> CountAt(rows, k, s) == CountAt(old(rows), k, s)
    {
      RecordedUsageCounts(rows, key, windowMs, amount, now);
      if amount <= 0 {
        return;
      }
      var slot := Slot(key, WindowStart(now, windowMs));
      if slot in rows {
        rows := rows[slot := rows[slot].(count := rows[slot].count + amount)];
      } else {
        rows := rows[slot := Counter(amount, slot.windowStart + windowMs + windowMs)];
      }
    }

    method ClearRateLimit(key: string)
      modifies this
      ensures rows == Clear(old(rows), key)
      ensures forall slot :: slot in rows ==> slot.key != key
      ensures forall k, s :: k != key ==> CountAt(rows, k, s) == CountAt(old(rows), k, s)
    {
      rows := map slot | slot in rows && slot.key != key :: rows[slot];
    }

    /** maybePrune, when the dice say so: the database picks the rows. */
    method Sweep(now: int, victims: set<Slot>)
      requires Prunable(rows, victims, now)
      modifies this
      ensures rows == Prune(old(rows), victims)
      ensures forall key, windowMs, later :: windowMs >= 1 && later >= now && ExpiryKnown(old(rows), key, windowMs) ==>
        SlidingCount(rows, key, windowMs, later) == SlidingCount(old(rows), key, windowMs, later)
    {
      forall key, windowMs, later | windowMs >= 1 && later >= now && ExpiryKnown(rows, key, windowMs)
        ensures SlidingCount(Prune(rows, victims), key, windowMs, later) == SlidingCount(rows, key, windowMs, later)
      {
        PrunedRowsNoLongerCount(rows, key, windowMs, victims, now, later);
      }
      rows := rows - victims;
    }
  }

  // ---- Runs ----

  datatype Event =
    | Check(key: string, limit: RateLimit, cost: int, now: int)
    | Usage(key: string, windowMs: int, amount: int, now: int)
    | Cleared(key: string, now: int)
    | Sweep(victims: set<Slot>, now: int)

  predicate WellFormed(event: Event) {
    match event
    case Check(_, limit, _, _) => limit.windowMs >= 1
    case Usage(_, windowMs, _, _) => windowMs >= 1
    case _ => true
  }

  function Next(rows: Rows, event: Event): Rows
    requires WellFormed(event)
  {
    match event
    case Check(key, limit, cost, now) => Spend(rows, key, limit, cost, now)
    case Usage(key, windowMs, amount, now) => Record(rows, key, windowMs, amount, now)
    case Cleared(key, _) => Clear(rows, key)
    case Sweep(victims, _) => Prune(rows, victims)
  }

  /** Units admitted for one key, oldest first. */
  datatype Spent = Spent(at: int, cost: int)

  datatype State = State(rows: Rows, history: seq<Spent>, now: int)

  /**
   What may happen while a key is written by its own limiter alone: other keys are free, the clock never
   goes back.
   */
  ghost predicate Allowed(st: State, event: Event, key: string, limit: RateLimit) {
    && WellFormed(event)
    && event.now >= st.now
    && (event.Check? && event.key == key ==> event.limit == limit && event.cost >= 0)
    && (event.Usage? || event.Cleared? ==> event.key != key)
    && (event.Sweep? ==> Prunable(st.rows, event.victims, event.now))
  }

  function After(st: State, event: Event, key: string): State
    requires WellFormed(event)
  {
    var admitted := event.Check? && event.key == key && Admits(st.rows, key, event.limit, event.cost, event.now);
    State(Next(st.rows, event), st.history + (if admitted then [Spent(event.now, event.cost)] else []), event.now)
  }

  ghost predicate Reaches(st: State, events: seq<Event>, end: State, key: string, limit: RateLimit)
    decreases |events|
  {
    if events == [] then end == st
    else Allowed(st, events[0], key, limit) && Reaches(After(st, events[0], key), events[1..], end, key, limit)
  }

  /** Units admitted between two times, both included. */
  function SumIn(h: seq<Spent>, from: int, to: int): int {
    if h == [] then 0
    else
      var last := h[|h| - 1];
      SumIn(h[..|h| - 1], from, to) + if from <= last.at <= to then last.cost else 0
  }

  function SumOfWindow(h: seq<Spent>, start: int, windowMs: int): int {
    SumIn(h, start, start + windowMs - 1)
  }

  /** The last entry was within the sliding budget when it was admitted. */
  predicate WithinBudget(h: seq<Spent>, limit: RateLimit)
    requires limit.windowMs >= 1 && h != []
  {
    var now := h[|h| - 1].at;
    var start := WindowStart(now, limit.windowMs);
    SumOfWindow(h, start - limit.windowMs, limit.windowMs) * (start + limit.windowMs - now) +
      SumOfWindow(h, start, limit.windowMs) * limit.windowMs <= limit.max * limit.windowMs
  }

  /** Every entry was, in order of time. */
  predicate Admissible(h: seq<Spent>, limit: RateLimit, now: int)
    requires limit.windowMs >= 1
  {
    h == [] ||
    (var last := h[|h| - 1];
     last.at <= now && last.cost >= 0 && WithinBudget(h, limit) && Admissible(h[..|h| - 1], limit, last.at))
  }

  /** The counters of the windows that still count hold the units admitted in them. */
  ghost predicate Tracks(st: State, key: string, windowMs: int)
    requires windowMs >= 1
  {
    forall s :: IsStart(s, windowMs) && ExpiresAt(s, windowMs) >= st.now ==>
      CountAt(st.rows, key, s) == SumOfWindow(st.history, s, windowMs)
  }

  ghost predicate Inv(st: State, key: string, limit: RateLimit)
    requires limit.windowMs >= 1
  {
    ExpiryKnown(st.rows, key, limit.windowMs) && Tracks(st, key, limit.windowMs) &&
      Admissible(st.history, limit, st.now)
  }

  lemma OtherKeysKeepACount(rows: Rows, event: Event, key: string, s: int)
    requires WellFormed(event) && !event.Sweep? && event.key != key
    ensures CountAt(Next(rows, event), key, s) == CountAt(rows, key, s)
    ensures Slot(key, s) in Next(rows, event) <==> Slot(key, s) in rows
    ensures Slot(key, s) in rows ==> Next(rows, event)[Slot(key, s)] == rows[Slot(key, s)]
  {
  }

  lemma SumAppends(h: seq<Spent>, e: Spent, from: int, to: int)
    ensures SumIn(h + [e], from, to) == SumIn(h, from, to) + if from <= e.at <= to then e.cost else 0
  {
    assert (h + [e])[..|h|] == h;
  }

  /** An admitted unit lands in the counter and in the sum of the same window. */
  lemma AdmissionTracks(st: State, e: Spent, key: string, windowMs: int, after: State)
    requires windowMs >= 1 && Tracks(st, key, windowMs) && e.at >= st.now
    requires after == State(AddTo(st.rows, Slot(key, WindowStart(e.at, windowMs)), e.cost, windowMs),
                            st.history + [e], e.at)
    ensures Tracks(after, key, windowMs)
  {
    var current := WindowStart(e.at, windowMs);
    WindowOf(e.at, windowMs);
    forall s | IsStart(s, windowMs) && ExpiresAt(s, windowMs) >= e.at
      ensures CountAt(after.rows, key, s) == SumOfWindow(after.history, s, windowMs)
    {
      SumAppends(st.history, e, s, s + windowMs - 1);
      if s < current {
        StartsAreApart(s, current, windowMs);
      } else if s > current {
        StartsAreApart(current, s, windowMs);
      }
    }
  }

  lemma AdmissionIsWithinBudget(st: State, event: Event, key: string, limit: RateLimit)
    requires limit.windowMs >= 1 && Inv(st, key, limit) && Allowed(st, event, key, limit)
    requires event.Check? && event.key == key && Admits(st.rows, key, limit, event.cost, event.now)
    ensures Admissible(After(st, event, key).history, limit, event.now)
  {
    var windowMs, e := limit.windowMs, Spent(event.now, event.cost);
    var current, h := WindowStart(event.now, windowMs), st.history + [e];
    WindowOf(event.now, windowMs);
    PreviousStart(current, windowMs);
    TwoStagesAreOneCheck(st.rows, key, limit, event.cost, event.now);
    SumAppends(st.history, e, current, current + windowMs - 1);
    SumAppends(st.history, e, current - windowMs, current - 1);
    assert h[..|h| - 1] == st.history && h[|h| - 1] == e;
    assert CountAt(st.rows, key, current - windowMs) == SumOfWindow(h, current - windowMs, windowMs);
    assert CountAt(st.rows, key, current) + event.cost == SumOfWindow(h, current, windowMs);
    Distribute(CountAt(st.rows, key, current), event.cost, windowMs);
    assert WithinBudget(h, limit);
    AdmissibleLater(st.history, limit, st.now, event.now);
  }

  lemma AdmissibleLater(h: seq<Spent>, limit: RateLimit, now: int, later: int)
    requires limit.windowMs >= 1 && Admissible(h, limit, now) && now <= later
    ensures Admissible(h, limit, later)
  {
  }

  lemma SweepKeepsInv(st: State, event: Event, key: string, limit: RateLimit)
    requires limit.windowMs >= 1 && Inv(st, key, limit) && Allowed(st, event, key, limit) && event.Sweep?
    ensures Inv(After(st, event, key), key, limit)
  {
    AdmissibleLater(st.history, limit, st.now, event.now);
    PrunedRowsNoLongerCount(st.rows, key, limit.windowMs, event.victims, event.now, event.now);
    assert After(st, event, key).history == st.history;
  }

  lemma OtherKeysKeepInv(st: State, event: Event, key: string, limit: RateLimit)
    requires limit.windowMs >= 1 && Inv(st, key, limit) && Allowed(st, event, key, limit)
    requires !event.Sweep? && event.key != key
    ensures Inv(After(st, event, key), key, limit)
  {
    AdmissibleLater(st.history, limit, st.now, event.now);
    var after := After(st, event, key);
    assert after.history == st.history;
    forall s | IsStart(s, limit.windowMs) && ExpiresAt(s, limit.windowMs) >= event.now
      ensures CountAt(after.rows, key, s) == SumOfWindow(after.history, s, limit.windowMs)
    {
      OtherKeysKeepACount(st.rows, event, key, s);
    }
    forall slot: Slot | slot in after.rows && slot.key == key
      ensures after.rows[slot].expiresAt == ExpiresAt(slot.windowStart, limit.windowMs)
    {
      OtherKeysKeepACount(st.rows, event, key, slot.windowStart);
    }
  }

  lemma CheckKeepsInv(st: State, event: Event, key: string, limit: RateLimit)
    requires limit.windowMs >= 1 && Inv(st, key, limit) && Allowed(st, event, key, limit)
    requires event.Check? && event.key == key
    ensures Inv(After(st, event, key), key, limit)
  {
    if Admits(st.rows, key, limit, event.cost, event.now) {
      AdmissionTracks(st, Spent(event.now, event.cost), key, limit.windowMs, After(st, event, key));
      AdmissionIsWithinBudget(st, event, key, limit);
    } else {
      AdmissibleLater(st.history, limit, st.now, event.now);
      assert After(st, event, key) == State(st.rows, st.history, event.now);
    }
  }

  lemma StepKeepsInv(st: State, event: Event, key: string, limit: RateLimit)
    requires limit.windowMs >= 1 && Inv(st, key, limit) && Allowed(st, event, key, limit)
    ensures Inv(After(st, event, key), key, limit)
  {
    if event.Sweep? {
      SweepKeepsInv(st, event, key, limit);
    } else if event.key != key {
      OtherKeysKeepInv(st, event, key, limit);
    } else {
      CheckKeepsInv(st, event, key, limit);
    }
  }

  lemma {:induction false} RunKeepsInv(st: State, events: seq<Event>, end: State, key: string, limit: RateLimit)
    requires limit.windowMs >= 1 && Inv(st, key, limit) && Reaches(st, events, end, key, limit)
    ensures Inv(end, key, limit)
    decreases |events|
  {
    if events != [] {
      StepKeepsInv(st, events[0], key, limit);
      RunKeepsInv(After(st, events[0], key), events[1..], end, key, limit);
    }
  }

  // ---- What a check admits, by the history ----

  /** The key's history after an event of any kind: usage is added whatever the budget, clearing forgets it. */
  function Logged(st: State, event: Event, key: string): State
    requires WellFormed(event)
  {
    var history :=
      if event.Usage? && event.key == key && event.amount > 0 then st.history + [Spent(event.now, event.amount)]
      else if event.Cleared? && event.key == key then []
      else After(st, event, key).history;
    State(Next(st.rows, event), history, event.now)
  }

  /** A key is used under one window length, and the clock never goes back. */
  ghost predicate Orderly(st: State, event: Event, key: string, windowMs: int) {
    && WellFormed(event) && event.now >= st.now
    && (event.Check? && event.key == key ==> event.limit.windowMs == windowMs && event.cost >= 0)
    && (event.Usage? && event.key == key ==> event.windowMs == windowMs)
    && (event.Sweep? ==> Prunable(st.rows, event.victims, event.now))
  }

  ghost predicate Leads(st: State, events: seq<Event>, end: State, key: string, windowMs: int)
    decreases |events|
  {
    if events == [] then end == st
    else Orderly(st, events[0], key, windowMs) && Leads(Logged(st, events[0], key), events[1..], end, key, windowMs)
  }

  ghost predicate Exact(st: State, key: string, windowMs: int)
    requires windowMs >= 1
  {
    ExpiryKnown(st.rows, key, windowMs) && Tracks(st, key, windowMs) &&
    forall e :: e in st.history ==> e.cost >= 0
  }

  lemma SpendingKeepsExact(st: State, e: Spent, key: string, windowMs: int, after: State)
    requires windowMs >= 1 && Exact(st, key, windowMs) && e.at >= st.now && e.cost >= 0
    requires after == State(AddTo(st.rows, Slot(key, WindowStart(e.at, windowMs)), e.cost, windowMs),
                            st.history + [e], e.at)
    ensures Exact(after, key, windowMs)
  {
    AdmissionTracks(st, e, key, windowMs, after);
  }

  lemma IdlingKeepsExact(st: State, event: Event, key: string, windowMs: int, after: State)
    requires windowMs >= 1 && Exact(st, key, windowMs) && WellFormed(event) && event.now >= st.now
    requires event.Sweep? ==> Prunable(st.rows, event.victims, event.now)
    requires event.Sweep? || event.key != key || Next(st.rows, event) == st.rows
    requires after == State(Next(st.rows, event), st.history, event.now)
    ensures Exact(after, key, windowMs)
  {
    if event.Sweep? {
      PrunedRowsNoLongerCount(st.rows, key, windowMs, event.victims, event.now, event.now);
    } else if event.key != key {
      forall s ensures CountAt(after.rows, key, s) == CountAt(st.rows, key, s) {
        OtherKeysKeepACount(st.rows, event, key, s);
      }
      forall slot: Slot | slot in after.rows && slot.key == key
        ensures after.rows[slot].expiresAt == ExpiresAt(slot.windowStart, windowMs)
      {
        OtherKeysKeepACount(st.rows, event, key, slot.windowStart);
      }
    }
  }

  lemma EventKeepsExact(st: State, event: Event, key: string, windowMs: int)
    requires windowMs >= 1 && Exact(st, key, windowMs) && Orderly(st, event, key, windowMs)
    ensures Exact(Logged(st, event, key), key, windowMs)
  {
    var after := Logged(st, event, key);
    if event.Sweep? || event.key != key {
      assert after.history == st.history;
      IdlingKeepsExact(st, event, key, windowMs, after);
    } else if event.Cleared? {
      assert forall s :: CountAt(after.rows, key, s) == 0 == SumOfWindow([], s, windowMs);
    } else if after.history == st.history {
      IdlingKeepsExact(st, event, key, windowMs, after);
    } else {
      var e := Spent(event.now, if event.Check? then event.cost else event.amount);
      SpendingKeepsExact(st, e, key, windowMs, after);
    }
  }

  lemma {:induction false} RunKeepsExact(st: State, events: seq<Event>, end: State, key: string, windowMs: int)
    requires windowMs >= 1 && Exact(st, key, windowMs) && Leads(st, events, end, key, windowMs)
    ensures Exact(end, key, windowMs)
    decreases |events|
  {
    if events != [] {
      EventKeepsExact(st, events[0], key, windowMs);
      RunKeepsExact(Logged(st, events[0], key), events[1..], end, key, windowMs);
    }
  }

  lemma {:induction false} SumIsNatural(h: seq<Spent>, from: int, to: int)
    requires forall e :: e in h ==> e.cost >= 0
    ensures SumIn(h, from, to) >= 0
  {
    if h != [] {
      SumIsNatural(h[..|h| - 1], from, to);
      assert h[|h| - 1] in h;
    }
  }

  /** The k-th window is the one that starts at k times its length. */
  lemma WindowNumber(now: int, windowMs: int, k: int)
    requires windowMs >= 1 && k * windowMs <= now < (k + 1) * windowMs
    ensures WindowStart(now, windowMs) == k * windowMs && IsStart(k * windowMs, windowMs)
    ensures (k - 1) * windowMs == k * windowMs - windowMs
  {
    Distribute(k, 1, windowMs);
    Distribute(k, -1, windowMs);
    UniqueRemainder(now, k, windowMs, now - k * windowMs);
    QuotientOfMultiple(k, windowMs);
  }

  /**
   What a check answers, by what was spent: after any run of checks, recorded usage, clearing and
   pruning, and other keys' events, cost more units at a time in the k-th window are admitted, and
   spent, exactly when the units of the window before, times the part of it that the last windowMs
   still cover, and those of this window leave room for them. Peeking says the same.
   */
  lemma AdmittedExactly(events: seq<Event>, end: State, key: string, limit: RateLimit, start: int, cost: int, now: int,
                        k: int)
    requires limit.windowMs >= 1 && Leads(State(map[], [], start), events, end, key, limit.windowMs)
    requires cost >= 0 && end.now <= now && k * limit.windowMs <= now < (k + 1) * limit.windowMs
    ensures var w := limit.windowMs;
      var room :=
        SumIn(end.history, (k - 1) * w, k * w - 1) * ((k + 1) * w - now) +
        (SumIn(end.history, k * w, (k + 1) * w - 1) + cost) * w <= limit.max * w;
      && (Fits(end.rows, key, limit, cost, now) <==> room)
      && Logged(end, Check(key, limit, cost, now), key).history ==
           if room then end.history + [Spent(now, cost)] else end.history
  {
    var w := limit.windowMs;
    RunKeepsExact(State(map[], [], start), events, end, key, w);
    WindowNumber(now, w, k);
    PreviousStart(k * w, w);
    Distribute(k, 1, w);
    SumIsNatural(end.history, k * w, k * w + w - 1);
    TwoStagesAreOneCheck(end.rows, key, limit, cost, now);
    RoomLeft(CountAt(end.rows, key, k * w - w), CountAt(end.rows, key, k * w), cost, k * w + w - now, w, limit.max);
  }

  lemma RoomLeft(before: int, current: int, cost: int, weight: int, w: int, max: int)
    ensures before * weight + current * w + cost * w <= max * w <==> before * weight + (current + cost) * w <= max * w
  {
    Distribute(current, cost, w);
  }

  // ---- The bound ----

  lemma {:induction false} SumsAreOrdered(h: seq<Spent>, limit: RateLimit, now: int, from: int, to: int, start: int)
    requires limit.windowMs >= 1 && Admissible(h, limit, now)
    ensures SumIn(h, from, to) >= 0
    ensures from >= start && now < start + limit.windowMs ==>
      SumIn(h, from, to) <= SumOfWindow(h, start, limit.windowMs)
    ensures from >= start - limit.windowMs && now < start + limit.windowMs ==>
      SumIn(h, from, to) <= SumOfWindow(h, start - limit.windowMs, limit.windowMs) +
        SumOfWindow(h, start, limit.windowMs)
  {
    if h != [] {
      var last := h[|h| - 1];
      AdmissibleLater(h[..|h| - 1], limit, last.at, now);
      SumsAreOrdered(h[..|h| - 1], limit, now, from, to, start);
    }
  }

  lemma DropWeighted(a: int, b: int, weight: int, windowMs: int, max: int)
    requires windowMs >= 1 && a >= 0 && weight >= 0 && a * weight + b * windowMs <= max * windowMs
    ensures b <= max
  {
    assert a * weight >= 0;
    assert b > max ==> b * windowMs >= (max + 1) * windowMs;
    Distribute(max, 1, windowMs);
  }

  /** No window ever holds more than max. */
  lemma {:induction false} WindowHoldsAtMostMax(h: seq<Spent>, limit: RateLimit, now: int, start: int)
    requires limit.windowMs >= 1 && limit.max >= 0 && IsStart(start, limit.windowMs) && Admissible(h, limit, now)
    ensures SumOfWindow(h, start, limit.windowMs) <= limit.max
  {
    if h != [] {
      var last, windowMs := h[|h| - 1], limit.windowMs;
      if start <= last.at < start + windowMs {
        var current := WindowStart(last.at, windowMs);
        WindowOf(last.at, windowMs);
        if current < start {
          StartsAreApart(current, start, windowMs);
        } else if start < current {
          StartsAreApart(start, current, windowMs);
        }
        SumsAreOrdered(h, limit, now, current - windowMs, current - 1, current);
        DropWeighted(SumOfWindow(h, current - windowMs, windowMs), SumOfWindow(h, current, windowMs),
                     current + windowMs - last.at, windowMs, limit.max);
      } else {
        WindowHoldsAtMostMax(h[..|h| - 1], limit, last.at, start);
      }
    }
  }

  /** Two windows together, the first weighted by what the second has not covered yet. */
  lemma TwoWindows(a: int, b: int, elapsed: int, d: int, windowMs: int, max: int)
    requires 0 <= a <= max && 0 <= elapsed <= d && a * (windowMs - elapsed) + b * windowMs <= max * windowMs
    ensures (a + b) * windowMs <= max * (windowMs + d)
  {
    assert a * (windowMs - elapsed) == a * windowMs - a * elapsed;
    assert a * elapsed <= max * d by {
      assert a * elapsed <= max * elapsed;
      assert max * elapsed <= max * d;
    }
  }

  /** An interval whose last unit is the last of all. */
  lemma IntervalEndingHere(h: seq<Spent>, limit: RateLimit, now: int, a: int, d: int)
    requires limit.windowMs >= 1 && limit.max >= 0 && h != [] && Admissible(h, limit, now) && 0 <= d <= limit.windowMs
    requires now == h[|h| - 1].at && a <= now <= a + d
    ensures SumIn(h, a, a + d) * limit.windowMs <= limit.max * (limit.windowMs + d)
  {
    var windowMs := limit.windowMs;
    var start := WindowStart(now, windowMs);
    WindowOf(now, windowMs);
    PreviousStart(start, windowMs);
    SumsAreOrdered(h, limit, now, a, a + d, start);
    SumsAreOrdered(h, limit, now, start - windowMs, start - 1, start);
    WindowHoldsAtMostMax(h, limit, now, start);
    WindowHoldsAtMostMax(h, limit, now, start - windowMs);
    var before, current := SumOfWindow(h, start - windowMs, windowMs), SumOfWindow(h, start, windowMs);
    if a >= start {
      Scale(SumIn(h, a, a + d), limit.max, windowMs);
      NonNegativeProduct(limit.max, d);
      Distribute(windowMs, d, limit.max);
    } else {
      TwoWindows(before, current, now - start, d, windowMs, limit.max);
      Scale(SumIn(h, a, a + d), before + current, windowMs);
    }
  }

  /** In any interval of length d, at most max * (1 + d / windowMs) units were admitted. */
  lemma {:induction false} IntervalBound(h: seq<Spent>, limit: RateLimit, now: int, a: int, d: int)
    requires limit.windowMs >= 1 && limit.max >= 0 && Admissible(h, limit, now) && 0 <= d <= limit.windowMs
    ensures SumIn(h, a, a + d) * limit.windowMs <= limit.max * (limit.windowMs + d)
  {
    if h == [] {
      NonNegativeProduct(limit.max, limit.windowMs + d);
    } else {
      var last := h[|h| - 1];
      if a <= last.at <= a + d {
        IntervalEndingHere(h, limit, last.at, a, d);
      } else {
        IntervalBound(h[..|h| - 1], limit, last.at, a, d);
      }
    }
  }

  /**
   For a key that only its own limiter writes, whatever happens to other keys and however rows are
   pruned: the units admitted in any interval of length d up to a window stay within max * (1 + d / windowMs).
   */
  lemma SlidingWindowHolds(events: seq<Event>, end: State, key: string, limit: RateLimit, start: int, a: int, d: int)
    requires limit.windowMs >= 1 && limit.max >= 0 && 0 <= d <= limit.windowMs
    requires Reaches(State(map[], [], start), events, end, key, limit)
    ensures SumIn(end.history, a, a + d) * limit.windowMs <= limit.max * (limit.windowMs + d)
  {
    RunKeepsInv(State(map[], [], start), events, end, key, limit);
    IntervalBound(end.history, limit, end.now, a, d);
  }
}
