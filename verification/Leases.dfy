/**
 The lease columns that ScoringRun, ResumeFile and EmailMessage rows share, and the
 transitions their queues make on them: claim, stale recovery, fenced requeue, fenced settle.

 `tokens` is a history variable: every `lockedAt` ever handed to a worker for the row, oldest
 first. No transition reads it. A worker may hold any claim in that history, however old,
 so a late worker is simply a step taken with an old ticket.
 */
module Leases {
  import opened Options

  /** QUEUED, RUNNING (SENDING for email), or one of the queue's terminal statuses. */
  datatype Status<+O> = Queued | Running | Settled(outcome: O)

  datatype Lease<+O> = Lease(
    status: Status<O>,
    attempts: nat,
    nextAttemptAt: int,
    lockedAt: Option<int>,
    tokens: seq<int>)
  {
    predicate Active() { !status.Settled? }
  }

  /** What a claim leaves in a worker's memory. */
  datatype Ticket = Ticket(id: nat, attempts: nat, lockedAt: int)

  function Fresh<O>(now: int): Lease<O> {
    Lease(Queued, 0, now, None, [])
  }

  predicate Due<O>(l: Lease<O>, now: int) {
    l.status.Queued? && l.nextAttemptAt <= now
  }

  function Claimed<O>(l: Lease<O>, now: int): Lease<O> {
    l.(status := Running, lockedAt := Some(now), attempts := l.attempts + 1, tokens := l.tokens + [now])
  }

  predicate Stale<O>(l: Lease<O>, staleBefore: int) {
    l.status.Running? && l.lockedAt.Some? && l.lockedAt.value < staleBefore
  }

  /** A stale row goes back to the queue, or settles as `giveUp` once out of attempts. */
  function Recovered<O>(l: Lease<O>, now: int, staleMs: int, max: nat, giveUp: O): Lease<O> {
    if !Stale(l, now - staleMs) then l
    else if l.attempts < max then l.(status := Queued, lockedAt := None, nextAttemptAt := now)
    else l.(status := Settled(giveUp), lockedAt := None)
  }

  /** The `(status, lockedAt)` fence. */
  predicate Owned<O>(l: Lease<O>, t: Ticket) {
    l.status.Running? && l.lockedAt == Some(t.lockedAt)
  }

  function Requeued<O>(l: Lease<O>, t: Ticket, at: int): Lease<O> {
    if Owned(l, t) then l.(status := Queued, lockedAt := None, nextAttemptAt := at) else l
  }

  function SettledBy<O>(l: Lease<O>, t: Ticket, outcome: O): Lease<O> {
    if Owned(l, t) then l.(status := Settled(outcome), lockedAt := None) else l
  }

  /** The claim was handed out at some time, and may still sit in a worker's memory. */
  predicate Issued<O>(l: Lease<O>, t: Ticket) {
    0 < t.attempts <= |l.tokens| && l.tokens[t.attempts - 1] == t.lockedAt
  }

  predicate Increasing(s: seq<int>) {
    forall i, j :: 0 <= i < j < |s| ==> s[i] < s[j]
  }

  predicate Valid<O>(l: Lease<O>, max: nat) {
    && |l.tokens| == l.attempts <= max
    && Increasing(l.tokens)
    && match l.status
       case Queued => l.lockedAt.None? && l.attempts < max
                      && (l.attempts > 0 ==> l.tokens[l.attempts - 1] < l.nextAttemptAt)
       case Running => l.attempts > 0 && l.lockedAt == Some(l.tokens[l.attempts - 1])
       case Settled(_) => l.lockedAt.None? && l.attempts > 0
  }

  /**
   The fence singles out the newest claim of a running row: however many claims are still in
   workers' memories, the one whose write lands is the last one handed out.
   */
  lemma FenceIsNewestClaim<O>(l: Lease<O>, t: Ticket, max: nat)
    requires Valid(l, max) && Issued(l, t)
    ensures Owned(l, t) <==> l.status.Running? && t.attempts == l.attempts
  {
    if l.status.Running? && t.attempts < l.attempts {
      assert l.tokens[t.attempts - 1] < l.tokens[l.attempts - 1];
    }
  }

  lemma ClaimedValid<O>(l: Lease<O>, now: int, max: nat)
    requires Valid(l, max) && Due(l, now)
    ensures Valid(Claimed(l, now), max)
    ensures forall t :: Issued(l, t) ==> t.lockedAt < now && Issued(Claimed(l, now), t)
  {
    forall t | Issued(l, t) ensures t.lockedAt < now {
      assert l.tokens[t.attempts - 1] <= l.tokens[l.attempts - 1];
    }
  }

  lemma NewTokenIsNew<O>(l: Lease<O>, now: int, max: nat)
    requires Valid(l, max) && Due(l, now)
    ensures now !in l.tokens
  {
    forall i | 0 <= i < |l.tokens| ensures l.tokens[i] < now {
      assert l.tokens[i] <= l.tokens[l.attempts - 1];
    }
  }

  lemma RecoveredValid<O>(l: Lease<O>, now: int, staleMs: nat, max: nat, giveUp: O)
    requires Valid(l, max)
    ensures Valid(Recovered(l, now, staleMs, max, giveUp), max)
  {
  }

  /**
   Recovery takes exactly the running rows whose worker was last heard of more than staleMs ago. With
   attempts left they are due at once, else they settle; the claims they had stay.
   */
  lemma RecoveredExactly<O>(l: Lease<O>, now: int, staleMs: int, max: nat, giveUp: O)
    ensures var after := Recovered(l, now, staleMs, max, giveUp);
      && (after != l <==> l.status.Running? && l.lockedAt.Some? && l.lockedAt.value < now - staleMs)
      && (after != l && l.attempts < max ==>
            after.status.Queued? && after.nextAttemptAt == now && after.lockedAt.None?)
      && (after != l && l.attempts >= max ==> after.status == Settled(giveUp) && after.lockedAt.None?)
      && after.attempts == l.attempts && after.tokens == l.tokens
  {
  }

  /** A requeue is safe when it lands after the token it gives up. */
  lemma RequeuedValid<O>(l: Lease<O>, t: Ticket, at: int, max: nat)
    requires Valid(l, max) && Issued(l, t) && t.attempts < max && t.lockedAt < at
    ensures Valid(Requeued(l, t, at), max)
  {
    if Owned(l, t) {
      FenceIsNewestClaim(l, t, max);
    }
  }

  lemma SettledByValid<O>(l: Lease<O>, t: Ticket, outcome: O, max: nat)
    requires Valid(l, max)
    ensures Valid(SettledBy(l, t, outcome), max)
  {
  }

  /**
   Exactly when a requeue keeps tokens apart: every later claim carries a new token if and only
   if the row becomes due after the token it gave up.
   */
  lemma RequeueSeparatesTokens<O>(l: Lease<O>, t: Ticket, at: int)
    requires Owned(l, t)
    ensures (forall now :: Due(Requeued(l, t, at), now) ==> now != t.lockedAt) <==> t.lockedAt < at
  {
    if at <= t.lockedAt {
      assert Due(Requeued(l, t, at), t.lockedAt);
    }
  }

  /**
   A clock set back past the delay does it: claimed at 20 s, retried at 0 with 10 s to wait, claimed at 20 s
   again.
   */
  lemma SetBackClockReusesToken<O>()
    ensures var first := Claimed<O>(Fresh(0), 20_000);
      var again := Claimed(Requeued(first, Ticket(0, 1, 20_000), 10_000), 20_000);
      && Due(Requeued(first, Ticket(0, 1, 20_000), 10_000), 20_000)
      && Issued(again, Ticket(0, 1, 20_000)) && Owned(again, Ticket(0, 1, 20_000)) && again.attempts == 2
  {
    var first := Claimed<O>(Fresh(0), 20_000);
    assert first.tokens[0] == 20_000;
  }

  // ---- Whole runs of one row ----

  /** One step of the protocol on a row. `t` is whatever ticket the acting worker remembers. */
  datatype Event<+O> =
    | Claim(now: int)
    | Recover(now: int, giveUp: O)
    | Requeue(t: Ticket, at: int)
    | Settle(t: Ticket, outcome: O)

  predicate Enabled<O>(l: Lease<O>, e: Event<O>, max: nat) {
    match e
    case Claim(now) => Due(l, now)
    case Recover(_, _) => true
    case Requeue(t, at) => Issued(l, t) && t.attempts < max && t.lockedAt < at
    case Settle(t, _) => Issued(l, t)
  }

  function Apply<O>(l: Lease<O>, e: Event<O>, staleMs: nat, max: nat): Lease<O> {
    match e
    case Claim(now) => Claimed(l, now)
    case Recover(now, giveUp) => Recovered(l, now, staleMs, max, giveUp)
    case Requeue(t, at) => Requeued(l, t, at)
    case Settle(t, outcome) => SettledBy(l, t, outcome)
  }

  predicate Possible<O>(l: Lease<O>, events: seq<Event<O>>, staleMs: nat, max: nat)
    decreases |events|
  {
    events == [] ||
    (Enabled(l, events[0], max) && Possible(Apply(l, events[0], staleMs, max), events[1..], staleMs, max))
  }

  function Run<O>(l: Lease<O>, events: seq<Event<O>>, staleMs: nat, max: nat): Lease<O>
    decreases |events|
  {
    if events == [] then l else Run(Apply(l, events[0], staleMs, max), events[1..], staleMs, max)
  }

  /** How many steps of the run changed the row. */
  function Changes<O(==)>(l: Lease<O>, events: seq<Event<O>>, staleMs: nat, max: nat): nat
    decreases |events|
  {
    if events == [] then 0 else
    var l' := Apply(l, events[0], staleMs, max);
    (if l' == l then 0 else 1) + Changes(l', events[1..], staleMs, max)
  }

  /** One more step counts exactly if it changes the row. */
  lemma {:induction false} ChangesCount<O>(l: Lease<O>, events: seq<Event<O>>, e: Event<O>, staleMs: nat, max: nat)
    ensures Changes(l, [], staleMs, max) == 0
    ensures Run(l, events + [e], staleMs, max) == Apply(Run(l, events, staleMs, max), e, staleMs, max)
    ensures Changes(l, events + [e], staleMs, max) == Changes(l, events, staleMs, max) +
      if Run(l, events + [e], staleMs, max) == Run(l, events, staleMs, max) then 0 else 1
    decreases |events|
  {
    if events == [] {
      assert [] + [e] == [e] && [e][1..] == [];
    } else {
      assert (events + [e])[1..] == events[1..] + [e];
      ChangesCount(Apply(l, events[0], staleMs, max), events[1..], e, staleMs, max);
    }
  }

  /** Bounds the steps a row has left: (attempts left, running), read lexicographically. */
  function Remaining<O>(l: Lease<O>, max: nat): nat
    requires l.attempts <= max
  {
    match l.status
    case Queued => 2 * (max - l.attempts)
    case Running => 2 * (max - l.attempts) + 1
    case Settled(_) => 0
  }

  lemma ApplyValid<O>(l: Lease<O>, e: Event<O>, staleMs: nat, max: nat)
    requires Valid(l, max) && Enabled(l, e, max)
    ensures Valid(Apply(l, e, staleMs, max), max)
    ensures l.tokens <= Apply(l, e, staleMs, max).tokens
    ensures l.status.Settled? ==> Apply(l, e, staleMs, max) == l
    ensures Apply(l, e, staleMs, max) != l ==> Remaining(Apply(l, e, staleMs, max), max) < Remaining(l, max)
  {
    match e
    case Claim(now) => ClaimedValid(l, now, max);
    case Recover(now, giveUp) => RecoveredValid(l, now, staleMs, max, giveUp);
    case Requeue(t, at) => RequeuedValid(l, t, at, max);
    case Settle(t, outcome) => SettledByValid(l, t, outcome, max);
  }

  /**
   The protocol over any run: any interleaving of claims, crashes (a claim nothing follows),
   stale recoveries, retries and late workers. Tokens stay pairwise distinct, the row is claimed
   at most `max` times and changed at most `2 * max` times, and a settled row never changes.
   */
  lemma {:induction false} LeaseRun<O>(l: Lease<O>, events: seq<Event<O>>, staleMs: nat, max: nat)
    requires Valid(l, max) && Possible(l, events, staleMs, max)
    ensures var end := Run(l, events, staleMs, max);
            && Valid(end, max)
            && l.tokens <= end.tokens
            && (l.status.Settled? ==> end == l)
            && Changes(l, events, staleMs, max) + Remaining(end, max) <= Remaining(l, max)
    decreases |events|
  {
    if events != [] {
      ApplyValid(l, events[0], staleMs, max);
      LeaseRun(Apply(l, events[0], staleMs, max), events[1..], staleMs, max);
    }
  }

  /** From a fresh row: distinct tokens, bounded claims, bounded work, whatever the interleaving. */
  lemma FreshLeaseRun<O>(created: int, events: seq<Event<O>>, staleMs: nat, max: nat)
    requires max > 0 && Possible(Fresh(created), events, staleMs, max)
    ensures var end := Run(Fresh(created), events, staleMs, max);
            && (forall i, j :: 0 <= i < j < |end.tokens| ==> end.tokens[i] != end.tokens[j])
            && |end.tokens| <= max
            && Changes(Fresh(created), events, staleMs, max) <= 2 * max
  {
    LeaseRun(Fresh(created), events, staleMs, max);
  }

  // ---- Recovery as the two updates it is ----

  /** The rows the first update takes: stale, with attempts left. */
  predicate Spare<O>(l: Lease<O>, now: int, staleMs: int, max: nat) {
    Stale(l, now - staleMs) && l.attempts < max
  }

  /** The rows the second takes: stale, out of attempts. */
  predicate Spent<O>(l: Lease<O>, now: int, staleMs: int, max: nat) {
    Stale(l, now - staleMs) && l.attempts >= max
  }

  /** The first update leaves the second its rows and adds none; together they are one recovery. */
  lemma TwoUpdatesRecover<O>(l: Lease<O>, between: Lease<O>, after: Lease<O>, now: int, staleMs: int, max: nat,
                             giveUp: O)
    requires between ==
      if Spare(l, now, staleMs, max) then l.(status := Queued, lockedAt := None, nextAttemptAt := now) else l
    requires after ==
      if Spent(between, now, staleMs, max) then between.(status := Settled(giveUp), lockedAt := None) else between
    ensures after == Recovered(l, now, staleMs, max, giveUp)
    ensures Spent(between, now, staleMs, max) <==> Spent(l, now, staleMs, max)
    ensures after != l <==> Spare(l, now, staleMs, max) || Spent(l, now, staleMs, max)
  {
  }
}
