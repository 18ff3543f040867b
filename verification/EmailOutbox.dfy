/**
 The email outbox (backend/src/email/outbox.ts, backend/src/email/policy.ts): the lease protocol
 with a sealed payload that must not outlive delivery, and provider events arriving later.
 Addresses are kept in lower case, as the case-insensitive comparisons see them.
 */
module EmailOutbox {
  import opened Arith
  import opened Backoff
  import opened Collections
  import opened Options
  import opened Leases
  import opened Ordering

  const MAX_EMAIL_ATTEMPTS := 6
  const BASE_BACKOFF_MS := 30_000
  const MAX_BACKOFF_MS := 1_800_000
  const STALE_SEND_MS := 120_000
  const EMAIL_RETENTION_MS := 2_592_000_000

  datatype EmailOutcome = Sent | Failed | Expired | Suppressed | Bounced | Complained

  datatype Message = Message(
    to: string,
    expiresAt: int,
    createdAt: int,
    payload: Option<string>,
    lease: Lease<EmailOutcome>,
    sentAt: Option<int>,
    deliveredAt: Option<int>,
    providerMessageId: Option<string>)

  datatype Tables = Tables(messages: map<nat, Message>)

  // ---- Retry policy ----

  function RetryDelayMs(attempt: nat, random: real): int
    requires attempt >= 1
  {
    Jittered(Exponential(BASE_BACKOFF_MS, MAX_BACKOFF_MS, attempt), random)
  }

  datatype GiveUp = Attempts | Expiry | Permanent

  datatype RetryDecision = RetryAt(nextAttemptAt: int) | DontRetry(reason: GiveUp)

  function DecideRetry(retryable: bool, attempts: nat, expiresAt: int, now: int, random: real): RetryDecision
    requires attempts >= 1
  {
    if !retryable then DontRetry(Permanent)
    else if attempts >= MAX_EMAIL_ATTEMPTS then DontRetry(Attempts)
    else
      var nextAttemptAt := now + RetryDelayMs(attempts, random);
      if nextAttemptAt >= expiresAt then DontRetry(Expiry) else RetryAt(nextAttemptAt)
  }

  /** A retry is scheduled only 24 s to 36 min ahead, and only while the link will still work when it lands. */
  lemma RetriesLandBeforeExpiry(retryable: bool, attempts: nat, expiresAt: int, now: int, random: real)
    requires attempts >= 1 && 0.0 <= random < 1.0
    ensures var d := DecideRetry(retryable, attempts, expiresAt, now, random);
      && (d.RetryAt? ==> now + 24_000 <= d.nextAttemptAt < expiresAt && d.nextAttemptAt <= now + 2_160_000)
      && (expiresAt > now + 2_160_000 ==> (d.RetryAt? <==> retryable && attempts < MAX_EMAIL_ATTEMPTS))
  {
    ExponentialBounds(BASE_BACKOFF_MS, MAX_BACKOFF_MS, attempts);
    JitteredBounds(Exponential(BASE_BACKOFF_MS, MAX_BACKOFF_MS, attempts), random);
  }

  // ---- Transactions ----

  function WithMessage(db: Tables, id: nat, m: Message): Tables {
    db.(messages := db.messages[id := m])
  }

  function DueMessages(db: Tables, now: int): set<nat> {
    set m | m in db.messages && Due(db.messages[m].lease, now)
  }

  function NextMessage(db: Tables, now: int): (next: Option<nat>)
    ensures next.Some? ==> next.value in DueMessages(db, now)
    ensures next.None? <==> DueMessages(db, now) == {}
  {
    var keys := set m | m in DueMessages(db, now) :: Key(db.messages[m].lease.nextAttemptAt, 0, m);
    assert forall m :: m in DueMessages(db, now) ==> Key(db.messages[m].lease.nextAttemptAt, 0, m) in keys;
    if keys == {} then None else Some(Least(keys).id)
  }

  function ClaimNext(db: Tables, now: int): (Tables, Option<Ticket>) {
    match NextMessage(db, now)
    case None => (db, None)
    case Some(id) =>
      var m := db.messages[id].(lease := Claimed(db.messages[id].lease, now));
      (WithMessage(db, id, m), Some(Ticket(id, m.lease.attempts, now)))
  }

  /** A message that gives up drops its payload with its lease. */
  function RecoverMessage(m: Message, now: int): Message {
    var l := Recovered(m.lease, now, STALE_SEND_MS, MAX_EMAIL_ATTEMPTS, Failed);
    m.(lease := l, payload := if m.lease.status.Running? && l.status.Settled? then None else m.payload)
  }

  function RecoverStale(db: Tables, now: int): Tables {
    db.(messages := map m | m in db.messages :: RecoverMessage(db.messages[m], now))
  }

  function Prune(db: Tables, now: int): Tables {
    db.(messages := map m | m in db.messages &&
      !(db.messages[m].createdAt < now - EMAIL_RETENTION_MS && db.messages[m].lease.status.Settled?) :: db.messages[m])
  }

  function SettledMessage(m: Message, t: Ticket, outcome: EmailOutcome): Message {
    if Owned(m.lease, t) then m.(lease := SettledBy(m.lease, t, outcome), payload := None) else m
  }

  /** What the transport answered. */
  datatype Delivery = Accepted(messageId: Option<string>) | Refused(retryable: bool)

  /**
   What a worker saw of its message before the settling write: the time of the expiry check, whether the
   address was suppressed when it looked, and whether the payload could be unsealed.
   */
  datatype Seen = Seen(readAt: int, suppressed: bool, readable: bool)

  /** processEmail for one claim: what it saw, what the transport answered, and the settling write at `doneAt`. */
  function Process(db: Tables, t: Ticket, seen: Seen, delivery: Delivery, doneAt: int, random: real): Tables
    requires t.id in db.messages && t.attempts >= 1
  {
    var m := db.messages[t.id];
    if m.expiresAt <= seen.readAt then WithMessage(db, t.id, SettledMessage(m, t, Expired))
    else if seen.suppressed then WithMessage(db, t.id, SettledMessage(m, t, Suppressed))
    else if !seen.readable then WithMessage(db, t.id, SettledMessage(m, t, Failed))
    else match delivery
      case Accepted(messageId) =>
        WithMessage(db, t.id,
          if Owned(m.lease, t)
          then SettledMessage(m, t, Sent).(sentAt := Some(doneAt), providerMessageId := messageId)
          else m)
      case Refused(retryable) =>
        match DecideRetry(retryable, t.attempts, m.expiresAt, doneAt, random)
        case RetryAt(at) => WithMessage(db, t.id, m.(lease := Requeued(m.lease, t, at)))
        case DontRetry(_) => WithMessage(db, t.id, SettledMessage(m, t, Failed))
  }

  /** An event's change to a message: `email.delivered`, or a terminal status. */
  datatype Change = Delivered(at: int) | Becomes(outcome: EmailOutcome)

  function Changed(m: Message, c: Change): Message {
    match c
    case Delivered(at) => m.(deliveredAt := Some(at))
    case Becomes(outcome) => m.(lease := m.lease.(status := Settled(outcome)))
  }

  function ById(db: Tables, messageId: string): set<nat> {
    set m | m in db.messages && db.messages[m].providerMessageId == Some(messageId)
  }

  function SentBefore(db: Tables, recipients: set<string>, at: int): set<nat> {
    set m | m in db.messages && db.messages[m].to in recipients && db.messages[m].sentAt.Some? &&
            db.messages[m].sentAt.value <= at
  }

  function SentAt(db: Tables, m: nat): int {
    if m in db.messages && db.messages[m].sentAt.Some? then db.messages[m].sentAt.value else 0
  }

  /**
   updateEventMessage: the messages with the provider's id, or else the last one sent to a recipient before
   the event.
   */
  function UpdateEventMessage(db: Tables, messageId: string, recipients: set<string>, at: int, c: Change): Tables {
    var byId := ById(db, messageId);
    if byId != {} then
      db.(messages := map m | m in db.messages :: if m in byId then Changed(db.messages[m], c) else db.messages[m])
    else
      var keys := set m | m in SentBefore(db, recipients, at) :: Key(-SentAt(db, m), 0, m);
      if keys == {} then db
      else var id := Least(keys).id; WithMessage(db, id, Changed(db.messages[id], c))
  }

  // ---- Runs ----

  datatype Step =
    | Enqueue(id: nat, to: string, payload: string, expiresAt: int, now: int)
    | Claim(now: int)
    | Recover(now: int)
    | Pruned(now: int)
    | Attempt(t: Ticket, seen: Seen, delivery: Delivery, doneAt: int, random: real)
    | Event(messageId: string, recipients: set<string>, at: int, change: Change)

  /** A late worker's message may have been pruned; its writes then find no row, so no step stands for them. */
  predicate Held(db: Tables, t: Ticket) {
    t.id in db.messages && Issued(db.messages[t.id].lease, t)
  }

  /** If the attempt is to be retried, it is due after the token it gives up. */
  predicate DueAfterToken(m: Message, t: Ticket, delivery: Delivery, doneAt: int, random: real)
    requires t.attempts >= 1
  {
    delivery.Refused? ==>
      match DecideRetry(delivery.retryable, t.attempts, m.expiresAt, doneAt, random)
      case RetryAt(at) => t.lockedAt < at
      case DontRetry(_) => true
  }

  /** Clocks may step, but not so far back that a requeue falls due before its claim. */
  predicate Allowed(db: Tables, s: Step) {
    match s
    case Enqueue(id, _, _, _, _) => id !in db.messages
    case Attempt(t, _, delivery, doneAt, random) =>
      Held(db, t) && 0.0 <= random < 1.0 && DueAfterToken(db.messages[t.id], t, delivery, doneAt, random)
    case Event(_, _, _, Becomes(outcome)) => outcome.Bounced? || outcome.Complained?
    case _ => true
  }

  function Next(db: Tables, s: Step): Tables
    requires Allowed(db, s)
  {
    match s
    case Enqueue(id, to, payload, expiresAt, now) =>
      WithMessage(db, id, Message(to, expiresAt, now, Some(payload), Fresh(now), None, None, None))
    case Claim(now) => ClaimNext(db, now).0
    case Recover(now) => RecoverStale(db, now)
    case Pruned(now) => Prune(db, now)
    case Attempt(t, seen, delivery, doneAt, random) => Process(db, t, seen, delivery, doneAt, random)
    case Event(messageId, recipients, at, change) => UpdateEventMessage(db, messageId, recipients, at, change)
  }

  ghost predicate Possible(db: Tables, steps: seq<Step>)
    decreases |steps|
  {
    steps == [] || (Allowed(db, steps[0]) && Possible(Next(db, steps[0]), steps[1..]))
  }

  ghost function Exec(db: Tables, steps: seq<Step>): Tables
    requires Possible(db, steps)
    decreases |steps|
  {
    if steps == [] then db else Exec(Next(db, steps[0]), steps[1..])
  }

  /** The payload is there exactly while it may still be sent, and only sent messages can meet a provider event. */
  ghost predicate MessageOk(m: Message) {
    && Valid(m.lease, MAX_EMAIL_ATTEMPTS)
    && (m.payload.Some? <==> m.lease.Active())
    && (m.sentAt.Some? || m.providerMessageId.Some? ==> m.lease.status.Settled?)
  }

  /** A message may be settled, requeued, claimed or relabelled, but not taken up again once settled. */
  ghost predicate Follows(m: Message, m': Message) {
    && MessageOk(m')
    && m'.to == m.to && m'.expiresAt == m.expiresAt && m'.createdAt == m.createdAt
    && m.lease.tokens <= m'.lease.tokens
    && (m.lease.status.Settled? ==> m'.lease.status.Settled? && m'.sentAt == m.sentAt)
    && (m.payload.None? ==> m'.payload.None?)
    && (m'.payload.Some? ==> m'.payload == m.payload)
  }

  ghost predicate Inv(db: Tables) {
    forall m :: m in db.messages ==> MessageOk(db.messages[m])
  }

  lemma ClaimFollows(m: Message, now: int)
    requires MessageOk(m) && Due(m.lease, now)
    ensures Follows(m, m.(lease := Claimed(m.lease, now)))
  {
    ClaimedValid(m.lease, now, MAX_EMAIL_ATTEMPTS);
  }

  lemma RecoverFollows(m: Message, now: int)
    requires MessageOk(m)
    ensures Follows(m, RecoverMessage(m, now))
  {
    RecoveredValid(m.lease, now, STALE_SEND_MS, MAX_EMAIL_ATTEMPTS, Failed);
  }

  lemma SettleFollows(m: Message, t: Ticket, outcome: EmailOutcome, sentAt: Option<int>, messageId: Option<string>)
    requires MessageOk(m)
    ensures Follows(m, SettledMessage(m, t, outcome))
    ensures Owned(m.lease, t) ==>
      Follows(m, SettledMessage(m, t, outcome).(sentAt := sentAt, providerMessageId := messageId))
  {
    SettledByValid(m.lease, t, outcome, MAX_EMAIL_ATTEMPTS);
  }

  lemma AttemptFollows(db: Tables, t: Ticket, seen: Seen, delivery: Delivery, doneAt: int, random: real)
    requires Held(db, t) && MessageOk(db.messages[t.id]) &&
      DueAfterToken(db.messages[t.id], t, delivery, doneAt, random)
    ensures var m' := Process(db, t, seen, delivery, doneAt, random).messages[t.id];
      Follows(db.messages[t.id], m')
  {
    var m := db.messages[t.id];
    SettleFollows(m, t, Expired, None, None);
    SettleFollows(m, t, Suppressed, None, None);
    SettleFollows(m, t, Failed, None, None);
    if delivery.Accepted? {
      SettleFollows(m, t, Sent, Some(doneAt), delivery.messageId);
    } else {
      var d := DecideRetry(delivery.retryable, t.attempts, m.expiresAt, doneAt, random);
      if d.RetryAt? {
        RequeuedValid(m.lease, t, d.nextAttemptAt, MAX_EMAIL_ATTEMPTS);
      }
    }
  }

  lemma EventFollows(db: Tables, messageId: string, recipients: set<string>, at: int, c: Change, m: nat)
    requires Inv(db) && m in db.messages && (c.Becomes? ==> c.outcome.Bounced? || c.outcome.Complained?)
    ensures m in UpdateEventMessage(db, messageId, recipients, at, c).messages
    ensures Follows(db.messages[m], UpdateEventMessage(db, messageId, recipients, at, c).messages[m])
  {
    assert MessageOk(db.messages[m]);
    if m in ById(db, messageId) || m in SentBefore(db, recipients, at) {
      assert Follows(db.messages[m], Changed(db.messages[m], c));
    }
  }

  lemma StepFollows(db: Tables, s: Step, m: nat)
    requires Inv(db) && Allowed(db, s) && m in db.messages
    ensures m in Next(db, s).messages ==> Follows(db.messages[m], Next(db, s).messages[m])
  {
    assert MessageOk(db.messages[m]);
    match s
    case Claim(now) =>
      if Due(db.messages[m].lease, now) {
        ClaimFollows(db.messages[m], now);
      }
    case Recover(now) => RecoverFollows(db.messages[m], now);
    case Attempt(t, seen, delivery, doneAt, random) =>
      assert MessageOk(db.messages[t.id]);
      AttemptFollows(db, t, seen, delivery, doneAt, random);
    case Event(messageId, recipients, at, change) => EventFollows(db, messageId, recipients, at, change, m);
    case _ =>
  }

  lemma StepKeepsInv(db: Tables, s: Step)
    requires Inv(db) && Allowed(db, s)
    ensures Inv(Next(db, s))
  {
    forall m | m in Next(db, s).messages ensures MessageOk(Next(db, s).messages[m]) {
      if m in db.messages {
        StepFollows(db, s, m);
      }
    }
  }

  /**
   In every reachable state a message holds its payload exactly while QUEUED or SENDING, was
   claimed at most six times, and never twice under one token.
   */
  lemma {:induction false} PayloadLivesExactlyWhileActive(db: Tables, steps: seq<Step>)
    requires Inv(db) && Possible(db, steps)
    ensures Inv(Exec(db, steps))
    ensures forall m :: m in Exec(db, steps).messages ==>
      var r := Exec(db, steps).messages[m];
      (r.payload.Some? <==> r.lease.Active()) && |r.lease.tokens| <= MAX_EMAIL_ATTEMPTS && Distinct(r.lease.tokens)
    decreases |steps|
  {
    if steps != [] {
      StepKeepsInv(db, steps[0]);
      PayloadLivesExactlyWhileActive(Next(db, steps[0]), steps[1..]);
    } else {
      forall m | m in db.messages ensures MessageOk(db.messages[m]) {}
    }
  }

  /** Once settled, a message is never queued, sent or given a payload again, for as long as its row lives. */
  lemma {:induction false} SettledMessagesStaySettled(db: Tables, steps: seq<Step>, m: nat)
    requires Inv(db) && Possible(db, steps) && m in db.messages && db.messages[m].lease.status.Settled?
    requires forall s :: s in steps && s.Enqueue? ==> s.id != m
    ensures m in Exec(db, steps).messages ==>
      var r := Exec(db, steps).messages[m];
      r.lease.status.Settled? && r.payload.None? && r.sentAt == db.messages[m].sentAt
    decreases |steps|
  {
    assert MessageOk(db.messages[m]);
    if steps != [] {
      StepFollows(db, steps[0], m);
      StepKeepsInv(db, steps[0]);
      if m in Next(db, steps[0]).messages {
        SettledMessagesStaySettled(Next(db, steps[0]), steps[1..], m);
      } else {
        GoneStaysGone(Next(db, steps[0]), steps[1..], m);
      }
    }
  }

  lemma {:induction false} GoneStaysGone(db: Tables, steps: seq<Step>, m: nat)
    requires Possible(db, steps) && m !in db.messages
    requires forall s :: s in steps && s.Enqueue? ==> s.id != m
    ensures m !in Exec(db, steps).messages
    decreases |steps|
  {
    if steps != [] {
      StaysGone(db, steps[0], m);
      GoneStaysGone(Next(db, steps[0]), steps[1..], m);
    }
  }

  lemma StaysGone(db: Tables, s: Step, m: nat)
    requires Allowed(db, s) && m !in db.messages && (s.Enqueue? ==> s.id != m)
    ensures m !in Next(db, s).messages
  {
  }

  /**
   A claim leads to SENT exactly when it is current, the link still works, the address was not suppressed
   when the worker looked, and the provider took it. A suppression that comes later does not stop it.
   */
  lemma SentExactlyWhen(db: Tables, t: Ticket, seen: Seen, delivery: Delivery, doneAt: int, random: real)
    requires Held(db, t) && MessageOk(db.messages[t.id])
    ensures var m, m' := db.messages[t.id], Process(db, t, seen, delivery, doneAt, random).messages[t.id];
      (m'.lease.status == Settled(Sent) && m.lease.status != Settled(Sent)) <==>
        (m.lease.status.Running? && t.attempts == m.lease.attempts && seen.readAt < m.expiresAt &&
         !seen.suppressed && seen.readable && delivery.Accepted?)
  {
    FenceIsNewestClaim(db.messages[t.id].lease, t, MAX_EMAIL_ATTEMPTS);
  }

  lemma OneMessageIsNext(db: Tables, id: nat, now: int)
    requires db.messages.Keys == {id} && Due(db.messages[id].lease, now)
    ensures NextMessage(db, now) == Some(id)
  {
    assert id in DueMessages(db, now);
  }

  lemma ThreeSteps(db: Tables, a: Step, b: Step, c: Step)
    requires Allowed(db, a) && Allowed(Next(db, a), b) && Allowed(Next(Next(db, a), b), c)
    ensures Possible(db, [a, b, c]) && Exec(db, [a, b, c]) == Next(Next(Next(db, a), b), c)
  {
    var last := Next(Next(Next(db, a), b), c);
    assert [a, b, c][1..] == [b, c] && [b, c][1..] == [c] && [c][1..] == [];
    assert Possible(last, []) && Exec(last, []) == last;
    assert Possible(Next(Next(db, a), b), [c]) && Exec(Next(Next(db, a), b), [c]) == last;
    assert Possible(Next(db, a), [b, c]) && Exec(Next(db, a), [b, c]) == last;
  }

  /** A message that is queued, claimed and accepted ends SENT, without its payload. */
  lemma MessageIsSent(to: string, payload: string, now: int, messageId: string) returns (steps: seq<Step>)
    ensures Possible(Tables(map[]), steps)
    ensures var end := Exec(Tables(map[]), steps);
      && end.messages.Keys == {7} && end.messages[7].lease.status == Settled(Sent) && end.messages[7].payload.None?
      && end.messages[7].sentAt == Some(now) && end.messages[7].providerMessageId == Some(messageId)
  {
    var db, enqueue, t := Tables(map[]), Enqueue(7, to, payload, now + 1, now), Ticket(7, 1, now);
    var attempt := Attempt(t, Seen(now, false, true), Accepted(Some(messageId)), now, 0.0);
    steps := [enqueue, Step.Claim(now), attempt];
    OneMessageIsNext(Next(db, enqueue), 7, now);
    ThreeSteps(db, enqueue, Step.Claim(now), attempt);
  }

  // ---- What becomes of one message ----

  lemma NextIsEarliest(db: Tables, now: int)
    requires NextMessage(db, now).Some?
    ensures var n := NextMessage(db, now).value;
      forall m :: m in DueMessages(db, now) ==>
        db.messages[n].lease.nextAttemptAt < db.messages[m].lease.nextAttemptAt ||
        (db.messages[n].lease.nextAttemptAt == db.messages[m].lease.nextAttemptAt && n <= m)
  {
    var keys := set m | m in DueMessages(db, now) :: Key(db.messages[m].lease.nextAttemptAt, 0, m);
    forall m | m in DueMessages(db, now) ensures Key(db.messages[m].lease.nextAttemptAt, 0, m) in keys {}
  }

  /** A claim takes the earliest due message, under a new token; nothing is claimed exactly when nothing is due. */
  lemma ClaimTakesEarliest(db: Tables, now: int)
    requires Inv(db)
    ensures var (db', claimed) := ClaimNext(db, now);
      var due := set m | m in db.messages && db.messages[m].lease.status.Queued? &&
                         db.messages[m].lease.nextAttemptAt <= now;
      && (claimed.None? <==> due == {}) && (claimed.None? ==> db' == db)
      && (claimed.Some? ==>
            var t := claimed.value;
            && t.id in due && db'.messages == db.messages[t.id := db.messages[t.id].(lease := db'.messages[t.id].lease)]
            && (forall m :: m in due ==>
                  db.messages[t.id].lease.nextAttemptAt < db.messages[m].lease.nextAttemptAt ||
                  (db.messages[t.id].lease.nextAttemptAt == db.messages[m].lease.nextAttemptAt && t.id <= m))
            && var l, l' := db.messages[t.id].lease, db'.messages[t.id].lease;
               && l'.status.Running? && l'.lockedAt == Some(now) && t == Ticket(t.id, l.attempts + 1, now)
               && l'.attempts == l.attempts + 1 <= 6 && l'.tokens == l.tokens + [now] && now !in l.tokens)
  {
    var next := NextMessage(db, now);
    if next.Some? {
      NextIsEarliest(db, now);
      assert MessageOk(db.messages[next.value]);
      NewTokenIsNew(db.messages[next.value].lease, now, MAX_EMAIL_ATTEMPTS);
    }
  }

  /**
   Recovery touches exactly the messages whose sender has been silent for more than two minutes: those
   with attempts left are due at once with their payload, the others FAILED without.
   */
  lemma RecoveryTakesSilentMessages(db: Tables, now: int)
    ensures var db' := RecoverStale(db, now);
      && db'.messages.Keys == db.messages.Keys
      && forall m :: m in db.messages ==>
           var was, after, l, l' := db.messages[m], db'.messages[m], db.messages[m].lease, db'.messages[m].lease;
           && (after != was <==> l.status.Running? && l.lockedAt.Some? && l.lockedAt.value < now - 120_000)
           && after == was.(lease := l', payload := after.payload) && l'.attempts == l.attempts && l'.tokens == l.tokens
           && (after != was ==>
                 l'.lockedAt.None? &&
                 if l.attempts < 6 then l'.status.Queued? && l'.nextAttemptAt == now && after.payload == was.payload
                 else l'.status == Settled(Failed) && after.payload.None?)
  {
    forall m | m in db.messages {
      RecoveredExactly(db.messages[m].lease, now, STALE_SEND_MS, MAX_EMAIL_ATTEMPTS, Failed);
    }
  }

  /** The delays before the next attempts: 30 s, doubling up to half an hour, or a fifth less or more. */
  lemma RetryDelaysDouble(attempt: nat, random: real)
    requires 1 <= attempt <= 5 && 0.0 <= random < 1.0
    ensures var delay := RetryDelayMs(attempt, random);
      && (attempt == 1 ==> 24_000 <= delay <= 36_000) && (attempt == 2 ==> 48_000 <= delay <= 72_000)
      && (attempt == 3 ==> 96_000 <= delay <= 144_000) && (attempt == 4 ==> 192_000 <= delay <= 288_000)
      && (attempt == 5 ==> 384_000 <= delay <= 576_000)
  {
    ExponentialDoubles(BASE_BACKOFF_MS, MAX_BACKOFF_MS, 1);
    ExponentialDoubles(BASE_BACKOFF_MS, MAX_BACKOFF_MS, 2);
    ExponentialDoubles(BASE_BACKOFF_MS, MAX_BACKOFF_MS, 3);
    ExponentialDoubles(BASE_BACKOFF_MS, MAX_BACKOFF_MS, 4);
    JitteredBounds(Exponential(BASE_BACKOFF_MS, MAX_BACKOFF_MS, attempt), random);
  }

  /** Pruning deletes exactly the messages that were settled and created more than thirty days ago. */
  lemma PrunedExactly(db: Tables, now: int, m: nat)
    ensures m in Prune(db, now).messages <==>
      m in db.messages &&
      (db.messages[m].lease.status.Queued? || db.messages[m].lease.status.Running? ||
       db.messages[m].createdAt >= now - 2_592_000_000)
    ensures m in Prune(db, now).messages ==> Prune(db, now).messages[m] == db.messages[m]
  {
  }

  /** Sent to one of the recipients, no later than the event. */
  predicate Eligible(m: Message, recipients: set<string>, at: int) {
    m.to in recipients && m.sentAt.Some? && m.sentAt.value <= at
  }

  /** What an event makes of a message: delivered at that time, or its new status; nothing else. */
  predicate Marked(m: Message, m': Message, c: Change) {
    match c
    case Delivered(at) => m' == m.(deliveredAt := Some(at))
    case Becomes(outcome) => m' == m.(lease := m'.lease) && m'.lease == m.lease.(status := Settled(outcome))
  }

  /** The event is taken for one about the message sent last to a recipient by then. */
  predicate ReachesLast(db: Tables, db': Tables, recipients: set<string>, at: int, c: Change, last: nat) {
    && last in db.messages && last in db'.messages && Eligible(db.messages[last], recipients, at)
    && Marked(db.messages[last], db'.messages[last], c)
    && db'.messages == db.messages[last := db'.messages[last]]
    && forall m :: m in db.messages && Eligible(db.messages[m], recipients, at) ==>
         db.messages[m].sentAt.value <= db.messages[last].sentAt.value
  }

  lemma LastSent(db: Tables, recipients: set<string>, at: int, keys: set<Key>)
    requires keys == set m | m in SentBefore(db, recipients, at) :: Key(-SentAt(db, m), 0, m)
    ensures forall m :: m in db.messages && Eligible(db.messages[m], recipients, at) ==> keys != {}
    ensures keys != {} ==>
      var last := Least(keys).id;
      && last in db.messages && Eligible(db.messages[last], recipients, at)
      && forall m :: m in db.messages && Eligible(db.messages[m], recipients, at) ==>
           db.messages[m].sentAt.value <= db.messages[last].sentAt.value
  {
    forall m | m in db.messages && Eligible(db.messages[m], recipients, at)
      ensures Key(-db.messages[m].sentAt.value, 0, m) in keys
    {
      assert m in SentBefore(db, recipients, at) && SentAt(db, m) == db.messages[m].sentAt.value;
    }
  }

  /**
   An event reaches the messages with the provider's id; if there are none, one of those sent last to a
   recipient by then; and no other message.
   */
  lemma EventReaches(db: Tables, messageId: string, recipients: set<string>, at: int, c: Change)
    ensures var db' := UpdateEventMessage(db, messageId, recipients, at, c);
      var named := set m | m in db.messages && db.messages[m].providerMessageId == Some(messageId);
      && db'.messages.Keys == db.messages.Keys
      && (forall m :: m in named ==> Marked(db.messages[m], db'.messages[m], c))
      && (named != {} ==> forall m :: m in db.messages && m !in named ==> db'.messages[m] == db.messages[m])
      && (named == {} && (forall m :: m in db.messages ==> !Eligible(db.messages[m], recipients, at)) ==> db' == db)
      && (named == {} && (exists m :: m in db.messages && Eligible(db.messages[m], recipients, at)) ==>
            exists last :: ReachesLast(db, db', recipients, at, c, last))
  {
    var db' := UpdateEventMessage(db, messageId, recipients, at, c);
    var keys := set m | m in SentBefore(db, recipients, at) :: Key(-SentAt(db, m), 0, m);
    assert ById(db, messageId) == set m | m in db.messages && db.messages[m].providerMessageId == Some(messageId);
    LastSent(db, recipients, at, keys);
    if ById(db, messageId) == {} && keys != {} {
      assert ReachesLast(db, db', recipients, at, c, Least(keys).id);
    }
    if m :| m in db.messages && Eligible(db.messages[m], recipients, at) {
      assert keys != {};
    }
    forall m | m in SentBefore(db, recipients, at)
      ensures m in db.messages && Eligible(db.messages[m], recipients, at)
    {
    }
  }

  /** The message is over with this outcome, without its payload, and no longer anyone's. */
  predicate EndsAs(m: Message, m': Message, outcome: EmailOutcome) {
    m' == m.(lease := m'.lease, payload := None) && m'.lease.tokens == m.lease.tokens &&
    m'.lease.status == Settled(outcome) && m'.lease.lockedAt.None?
  }

  /** The message waits for its next attempt with its payload. */
  predicate WaitsUntil(m: Message, m': Message, at: int) {
    m' == m.(lease := m'.lease) && m'.lease.tokens == m.lease.tokens &&
    m'.lease.status.Queued? && m'.lease.lockedAt.None? && m'.lease.nextAttemptAt == at
  }

  /**
   What becomes of a message whose newest claim is processed: EXPIRED, SUPPRESSED or, unreadable, FAILED
   before any delivery; SENT; or, refused, QUEUED for a retry that lands 24 s to 36 min ahead and before
   the expiry, and FAILED if the refusal is final, it was the sixth attempt, or no such time is left. It
   is never left SENDING, and no other message changes.
   */
  lemma CurrentClaimIsDecided(db: Tables, t: Ticket, seen: Seen, delivery: Delivery, doneAt: int, random: real)
    requires Held(db, t) && MessageOk(db.messages[t.id]) && 0.0 <= random < 1.0
    requires db.messages[t.id].lease.status.Running? && t.attempts == db.messages[t.id].lease.attempts
    ensures var db' := Process(db, t, seen, delivery, doneAt, random);
      && t.id in db'.messages && db'.messages == db.messages[t.id := db'.messages[t.id]]
      && var m, m' := db.messages[t.id], db'.messages[t.id];
         if m.expiresAt <= seen.readAt then EndsAs(m, m', Expired)
         else if seen.suppressed then EndsAs(m, m', Suppressed)
         else if !seen.readable then EndsAs(m, m', Failed)
         else match delivery
           case Accepted(messageId) =>
             m'.sentAt == Some(doneAt) && m'.providerMessageId == messageId &&
             EndsAs(m.(sentAt := m'.sentAt, providerMessageId := messageId), m', Sent)
           case Refused(retryable) =>
             && (EndsAs(m, m', Failed) || WaitsUntil(m, m', m'.lease.nextAttemptAt))
             && (m'.lease.status.Queued? ==>
                   && retryable && t.attempts < 6
                   && doneAt + 24_000 <= m'.lease.nextAttemptAt < m.expiresAt
                   && m'.lease.nextAttemptAt <= doneAt + 2_160_000)
             && (retryable && t.attempts < 6 && m.expiresAt > doneAt + 2_160_000 ==> m'.lease.status.Queued?)
  {
    var m := db.messages[t.id];
    FenceIsNewestClaim(m.lease, t, MAX_EMAIL_ATTEMPTS);
    if delivery.Refused? {
      RetriesLandBeforeExpiry(delivery.retryable, t.attempts, m.expiresAt, doneAt, random);
    }
  }

  /** And any other claim, processed late, changes nothing. */
  lemma LateClaimIsIgnored(db: Tables, t: Ticket, seen: Seen, delivery: Delivery, doneAt: int, random: real)
    requires Held(db, t) && MessageOk(db.messages[t.id])
    requires !(db.messages[t.id].lease.status.Running? && t.attempts == db.messages[t.id].lease.attempts)
    ensures Process(db, t, seen, delivery, doneAt, random) == db
  {
    FenceIsNewestClaim(db.messages[t.id].lease, t, MAX_EMAIL_ATTEMPTS);
    assert db.messages[t.id := db.messages[t.id]] == db.messages;
  }

  // ---- The same transactions on tables updated in place ----

  function BackInQueue(m: Message, now: int): Message {
    m.(lease := m.lease.(status := Queued, lockedAt := None, nextAttemptAt := now))
  }

  function GivenUp(m: Message): Message {
    m.(lease := m.lease.(status := Settled(Failed), lockedAt := None), payload := None)
  }

  /** Whoever gives up drops the payload; every other message keeps what it holds. */
  lemma MessageRecovers(m: Message, between: Message, after: Message, now: int)
    requires between == if Spare(m.lease, now, STALE_SEND_MS, MAX_EMAIL_ATTEMPTS) then BackInQueue(m, now) else m
    requires after == if Spent(between.lease, now, STALE_SEND_MS, MAX_EMAIL_ATTEMPTS) then GivenUp(between) else between
    ensures after == RecoverMessage(m, now)
    ensures Spent(between.lease, now, STALE_SEND_MS, MAX_EMAIL_ATTEMPTS) ==>
      !Spare(m.lease, now, STALE_SEND_MS, MAX_EMAIL_ATTEMPTS)
    ensures after != m <==>
      (Spare(m.lease, now, STALE_SEND_MS, MAX_EMAIL_ATTEMPTS) ||
        Spent(between.lease, now, STALE_SEND_MS, MAX_EMAIL_ATTEMPTS))
  {
    TwoUpdatesRecover(m.lease, between.lease, after.lease, now, STALE_SEND_MS, MAX_EMAIL_ATTEMPTS, Failed);
  }

  lemma MessagesRecover(before: map<nat, Message>, spare: set<nat>, between: map<nat, Message>, spent: set<nat>,
                        after: map<nat, Message>, now: int)
    requires spare == set m | m in before && Spare(before[m].lease, now, STALE_SEND_MS, MAX_EMAIL_ATTEMPTS)
    requires between == map m | m in before :: if m in spare then BackInQueue(before[m], now) else before[m]
    requires spent == set m | m in between && Spent(between[m].lease, now, STALE_SEND_MS, MAX_EMAIL_ATTEMPTS)
    requires after == map m | m in between :: if m in spent then GivenUp(between[m]) else between[m]
    ensures after == map m | m in before :: RecoverMessage(before[m], now)
  {
    forall m | m in before ensures after[m] == RecoverMessage(before[m], now) {
      MessageRecovers(before[m], between[m], after[m], now);
    }
  }

  lemma MessagesRecoverCounted(before: map<nat, Message>, spare: set<nat>, between: map<nat, Message>, spent: set<nat>,
                               after: map<nat, Message>, now: int)
    requires spare == set m | m in before && Spare(before[m].lease, now, STALE_SEND_MS, MAX_EMAIL_ATTEMPTS)
    requires between == map m | m in before :: if m in spare then BackInQueue(before[m], now) else before[m]
    requires spent == set m | m in between && Spent(between[m].lease, now, STALE_SEND_MS, MAX_EMAIL_ATTEMPTS)
    requires after == map m | m in between :: if m in spent then GivenUp(between[m]) else between[m]
    ensures |spare| + |spent| == |set m | m in before && before[m] != after[m]|
  {
    forall m | m in before
      ensures !(m in spare && m in spent)
      ensures before[m] != after[m] <==> m in spare || m in spent
    {
      MessageRecovers(before[m], between[m], after[m], now);
    }
    assert spare !! spent;
    assert (set m | m in before && before[m] != after[m]) == spare + spent;
  }

  class Store {
    var messages: map<nat, Message>

    function Contents(): Tables
      reads this
    {
      Tables(messages)
    }

    method ClaimNextEmail(now: int) returns (claimed: Option<Ticket>)
      modifies this`messages
      ensures (Contents(), claimed) == ClaimNext(old(Contents()), now)
    {
      var due := set m | m in messages && messages[m].lease.status.Queued? && messages[m].lease.nextAttemptAt <= now;
      assert due == DueMessages(Contents(), now);
      var keys := set m | m in due :: Key(messages[m].lease.nextAttemptAt, 0, m);
      assert keys == set m | m in DueMessages(Contents(), now) :: Key(messages[m].lease.nextAttemptAt, 0, m);
      if keys == {} {
        assert forall m :: m in due ==> Key(messages[m].lease.nextAttemptAt, 0, m) in keys;
        return None;
      }
      var id := Least(keys).id;
      var lease := messages[id].lease;
      lease := lease.(status := Running, lockedAt := Some(now), attempts := lease.attempts + 1,
                      tokens := lease.tokens + [now]);
      messages := messages[id := messages[id].(lease := lease)];
      return Some(Ticket(id, lease.attempts, now));
    }

    /** Two updates in one transaction, and how many messages they touched. */
    method RecoverStaleEmails(now: int) returns (recovered: nat)
      modifies this`messages
      ensures Contents() == RecoverStale(old(Contents()), now)
      ensures recovered == |set m | m in old(messages) && old(messages)[m] != messages[m]|
    {
      ghost var before := messages;
      var spare := set m | m in messages && Spare(messages[m].lease, now, STALE_SEND_MS, MAX_EMAIL_ATTEMPTS);
      messages := map m | m in messages :: if m in spare then BackInQueue(messages[m], now) else messages[m];
      ghost var between := messages;
      var spent := set m | m in messages && Spent(messages[m].lease, now, STALE_SEND_MS, MAX_EMAIL_ATTEMPTS);
      messages := map m | m in messages :: if m in spent then GivenUp(messages[m]) else messages[m];
      recovered := |spare| + |spent|;
      MessagesRecover(before, spare, between, spent, messages, now);
      MessagesRecoverCounted(before, spare, between, spent, messages, now);
    }

    /** By the provider's id or, when that finds nothing, the last message sent to a recipient before the event. */
    method ApplyEvent(messageId: string, recipients: set<string>, at: int, c: Change)
      modifies this`messages
      ensures Contents() == UpdateEventMessage(old(Contents()), messageId, recipients, at, c)
    {
      var byId := set m | m in messages && messages[m].providerMessageId == Some(messageId);
      assert byId == ById(Contents(), messageId);
      if byId != {} {
        messages := map m | m in messages :: if m in byId then Changed(messages[m], c) else messages[m];
        return;
      }
      var sent := set m | m in messages && messages[m].to in recipients && messages[m].sentAt.Some? &&
        messages[m].sentAt.value <= at;
      assert sent == SentBefore(Contents(), recipients, at);
      var keys := set m | m in sent :: Key(-messages[m].sentAt.value, 0, m);
      assert keys == set m | m in SentBefore(Contents(), recipients, at) :: Key(-SentAt(Contents(), m), 0, m);
      if keys != {} {
        var id := Least(keys).id;
        messages := messages[id := Changed(messages[id], c)];
      }
    }

    method ProcessEmail(t: Ticket, seen: Seen, delivery: Delivery, doneAt: int, random: real)
      requires t.id in messages && t.attempts >= 1
      modifies this`messages
      ensures Contents() == Process(old(Contents()), t, seen, delivery, doneAt, random)
    {
      var message := messages[t.id];
      if message.expiresAt <= seen.readAt {
        SettleRow(t, Expired);
        return;
      }
      if seen.suppressed {
        SettleRow(t, Suppressed);
        return;
      }
      if !seen.readable {
        SettleRow(t, Failed);
        return;
      }
      if delivery.Accepted? {
        var owned := message.lease.status.Running? && message.lease.lockedAt == Some(t.lockedAt);
        SettleRow(t, Sent);
        if owned {
          messages := messages[t.id :=
            messages[t.id].(sentAt := Some(doneAt), providerMessageId := delivery.messageId)];
        }
        return;
      }
      var decision := DecideRetry(delivery.retryable, t.attempts, message.expiresAt, doneAt, random);
      if decision.RetryAt? {
        if message.lease.status.Running? && message.lease.lockedAt == Some(t.lockedAt) {
          var lease := message.lease.(status := Queued, lockedAt := None, nextAttemptAt := decision.nextAttemptAt);
          message := message.(lease := lease);
        }
        messages := messages[t.id := message];
        return;
      }
      SettleRow(t, Failed);
    }

    /** settle: the fenced update that drops the payload. */
    method SettleRow(t: Ticket, outcome: EmailOutcome)
      requires t.id in messages
      modifies this`messages
      ensures messages == old(messages)[t.id := SettledMessage(old(messages)[t.id], t, outcome)]
      ensures !Owned(old(messages)[t.id].lease, t) ==> messages == old(messages)
      ensures Owned(old(messages)[t.id].lease, t) ==>
        messages[t.id].payload.None? && messages[t.id].lease.status == Settled(outcome) &&
        forall u :: !Owned(messages[t.id].lease, u)
    {
      var message := messages[t.id];
      if message.lease.status.Running? && message.lease.lockedAt == Some(t.lockedAt) {
        message := message.(lease := message.lease.(status := Settled(outcome), lockedAt := None), payload := None);
      }
      messages := messages[t.id := message];
    }

    method PruneEmails(now: int)
      modifies this`messages
      ensures Contents() == Prune(old(Contents()), now)
      ensures forall m :: m in old(messages) && old(messages)[m].lease.Active() ==>
        m in messages && messages[m] == old(messages)[m]
    {
      var dropped := set m | m in messages && messages[m].createdAt < now - EMAIL_RETENTION_MS &&
        messages[m].lease.status.Settled?;
      messages := map m | m in messages && m !in dropped :: messages[m];
    }
  }
}
