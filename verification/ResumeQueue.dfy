/**
 Uploaded resumes waiting to be read (backend/src/ingestion/queue.ts). Files finish in any
 order, yet the candidate ends up with the text of the newest upload that could be read.
 */
module ResumeQueue {
  import opened Collections
  import opened Options
  import opened Leases
  import opened Ordering

  const MAX_PARSE_ATTEMPTS := 3
  const BASE_BACKOFF_MS := 15_000
  const STALE_PARSE_MS := 180_000
  const UNAVAILABLE := "We couldn't read this file just now. Upload it again in a few minutes."

  datatype FileOutcome = Parsed | Failed(error: string)

  /** `text` is a history variable: what a PARSED file was read as. The table keeps only its length. */
  datatype File = File(candidateId: nat, createdAt: int, lease: Lease<FileOutcome>, text: string)
  {
    predicate IsParsed() { lease.status == Settled(Parsed) }
  }

  datatype Tables = Tables(files: map<nat, File>, resumeText: map<nat, string>)

  // ---- Transactions ----

  function DueFiles(db: Tables, now: int): set<nat> {
    set f | f in db.files && Due(db.files[f].lease, now)
  }

  function NextFile(db: Tables, now: int): (next: Option<nat>)
    ensures next.Some? ==> next.value in DueFiles(db, now)
    ensures next.None? <==> DueFiles(db, now) == {}
  {
    var keys := set f | f in DueFiles(db, now) :: Key(db.files[f].lease.nextAttemptAt, 0, f);
    assert forall f :: f in DueFiles(db, now) ==> Key(db.files[f].lease.nextAttemptAt, 0, f) in keys;
    if keys == {} then None else Some(Least(keys).id)
  }

  function WithFile(db: Tables, id: nat, f: File): Tables {
    db.(files := db.files[id := f])
  }

  function ClaimNext(db: Tables, now: int): (Tables, Option<Ticket>) {
    match NextFile(db, now)
    case None => (db, None)
    case Some(id) =>
      var f := db.files[id].(lease := Claimed(db.files[id].lease, now));
      (WithFile(db, id, f), Some(Ticket(id, f.lease.attempts, now)))
  }

  function RecoverFile(f: File, now: int): File {
    f.(lease := Recovered(f.lease, now, STALE_PARSE_MS, MAX_PARSE_ATTEMPTS, Failed(UNAVAILABLE)))
  }

  function RecoverStale(db: Tables, now: int): Tables {
    db.(files := map f | f in db.files :: RecoverFile(db.files[f], now))
  }

  function AfterFailure(db: Tables, t: Ticket, message: string): Tables
    requires t.id in db.files
  {
    WithFile(db, t.id, db.files[t.id].(lease := SettledBy(db.files[t.id].lease, t, Failed(message))))
  }

  /** BASE_BACKOFF_MS * 2 ** (attempts - 1). */
  function Delay(attempts: nat): (ms: int)
    requires attempts >= 1
    ensures ms >= BASE_BACKOFF_MS
  {
    if attempts == 1 then BASE_BACKOFF_MS else 2 * Delay(attempts - 1)
  }

  function AfterError(db: Tables, t: Ticket, now: int): Tables
    requires t.id in db.files && t.attempts >= 1
  {
    if t.attempts >= MAX_PARSE_ATTEMPTS then AfterFailure(db, t, UNAVAILABLE)
    else WithFile(db, t.id, db.files[t.id].(lease := Requeued(db.files[t.id].lease, t, now + Delay(t.attempts))))
  }

  predicate NewerParsed(db: Tables, id: nat)
    requires id in db.files
  {
    exists g :: g in db.files && db.files[g].candidateId == db.files[id].candidateId && db.files[g].IsParsed() &&
      db.files[g].createdAt > db.files[id].createdAt
  }

  /** The final transaction of processResumeFile. */
  function FinishParse(db: Tables, t: Ticket, text: string): Tables
    requires t.id in db.files
  {
    var f := db.files[t.id];
    if !Owned(f.lease, t) then db else
    var db' := WithFile(db, t.id, f.(lease := SettledBy(f.lease, t, Parsed), text := text));
    if NewerParsed(db', t.id) then db'
    else db'.(resumeText := db'.resumeText[f.candidateId := text])
  }

  // ---- Runs ----

  datatype Step =
    | Upload(id: nat, candidateId: nat, createdAt: int, now: int)
    | Claim(now: int)
    | Recover(now: int)
    | Fail(t: Ticket, message: string)
    | Retry(t: Ticket, now: int)
    | Parse(t: Ticket, text: string)

  predicate Held(db: Tables, t: Ticket) {
    t.id in db.files && Issued(db.files[t.id].lease, t)
  }

  /** Tickets may be any ever issued. Clocks may step, but not so far back that a requeue falls due before its claim. */
  predicate Allowed(db: Tables, s: Step) {
    match s
    case Upload(id, candidateId, _, _) => id !in db.files && candidateId in db.resumeText
    case Claim(_) => true
    case Recover(_) => true
    case Fail(t, _) => Held(db, t)
    case Retry(t, now) => Held(db, t) && (t.attempts < MAX_PARSE_ATTEMPTS ==> t.lockedAt < now + Delay(t.attempts))
    case Parse(t, _) => Held(db, t)
  }

  function Next(db: Tables, s: Step): Tables
    requires Allowed(db, s)
  {
    match s
    case Upload(id, candidateId, createdAt, now) => WithFile(db, id, File(candidateId, createdAt, Fresh(now), ""))
    case Claim(now) => ClaimNext(db, now).0
    case Recover(now) => RecoverStale(db, now)
    case Fail(t, message) => AfterFailure(db, t, message)
    case Retry(t, now) => AfterError(db, t, now)
    case Parse(t, text) => FinishParse(db, t, text)
  }

  ghost predicate Possible(db: Tables, steps: seq<Step>)
    decreases |steps|
  {
    steps == [] || (Allowed(db, steps[0]) && Possible(Next(db, steps[0]), steps[1..]))
  }

  ghost function Exec(db: Tables, steps: seq<Step>): Tables
    requires Possible(db, steps)
    decreases |steps|
  {
    if steps == [] then db else Exec(Next(db, steps[0]), steps[1..])
  }

  // ---- Newest upload wins ----

  ghost predicate LeasesValid(db: Tables) {
    forall f :: f in db.files ==> Valid(db.files[f].lease, MAX_PARSE_ATTEMPTS)
  }

  predicate ParsedFor(db: Tables, c: nat, f: nat) {
    f in db.files && db.files[f].candidateId == c && db.files[f].IsParsed()
  }

  /** A PARSED file that no PARSED file of the candidate is newer than, and whose text the candidate has. */
  ghost predicate Wins(db: Tables, c: nat, f: nat) {
    && ParsedFor(db, c, f) && c in db.resumeText && db.resumeText[c] == db.files[f].text
    && forall g :: ParsedFor(db, c, g) ==> db.files[g].createdAt <= db.files[f].createdAt
  }

  ghost predicate SettledWell(db: Tables, c: nat) {
    (exists f :: ParsedFor(db, c, f)) ==> exists f :: Wins(db, c, f)
  }

  ghost predicate NewestWins(db: Tables) {
    forall c :: SettledWell(db, c)
  }

  /** No file becomes or stops being PARSED. */
  ghost predicate NothingParsed(db: Tables, db': Tables) {
    && db'.resumeText == db.resumeText
    && forall c, f :: ParsedFor(db, c, f) || ParsedFor(db', c, f) ==>
         ParsedFor(db, c, f) && ParsedFor(db', c, f) && db'.files[f] == db.files[f]
  }

  lemma NothingParsedKeepsWinners(db: Tables, db': Tables)
    requires NewestWins(db) && NothingParsed(db, db')
    ensures NewestWins(db')
  {
    forall c ensures SettledWell(db', c) {
      assert SettledWell(db, c);
      if f :| ParsedFor(db', c, f) {
        assert ParsedFor(db, c, f);
        var g :| Wins(db, c, g);
        assert Wins(db', c, g);
      }
    }
  }

  lemma ParsedAfter(db: Tables, t: Ticket, text: string, c: nat, f: nat)
    requires t.id in db.files && Owned(db.files[t.id].lease, t)
    ensures ParsedFor(FinishParse(db, t, text), c, f) <==>
              ParsedFor(db, c, f) || (f == t.id && c == db.files[t.id].candidateId)
    ensures ParsedFor(db, c, f) ==> FinishParse(db, t, text).files[f] == db.files[f]
  {
  }

  lemma ParseKeepsWinner(db: Tables, t: Ticket, text: string, c: nat)
    requires t.id in db.files && Owned(db.files[t.id].lease, t) && SettledWell(db, c)
    ensures SettledWell(FinishParse(db, t, text), c)
  {
    var db' := FinishParse(db, t, text);
    forall f ensures ParsedFor(db', c, f) <==> ParsedFor(db, c, f) || (f == t.id && c == db.files[t.id].candidateId) {
      ParsedAfter(db, t, text, c, f);
    }
    if c == db.files[t.id].candidateId && !NewerParsed(db', t.id) {
      forall g | ParsedFor(db', c, g) ensures db'.files[g].createdAt <= db'.files[t.id].createdAt {}
      assert Wins(db', c, t.id);
    } else if h :| ParsedFor(db', c, h) &&
                   (c != db.files[t.id].candidateId || db'.files[h].createdAt > db'.files[t.id].createdAt) {
      assert ParsedFor(db, c, h);
      var g :| Wins(db, c, g);
      assert Wins(db', c, g);
    }
  }

  lemma ParseKeepsWinners(db: Tables, t: Ticket, text: string)
    requires NewestWins(db) && t.id in db.files
    ensures NewestWins(FinishParse(db, t, text))
  {
    if Owned(db.files[t.id].lease, t) {
      forall c ensures SettledWell(FinishParse(db, t, text), c) {
        assert SettledWell(db, c);
        ParseKeepsWinner(db, t, text, c);
      }
    }
  }

  lemma ClaimKeepsLeases(db: Tables, now: int)
    requires LeasesValid(db)
    ensures LeasesValid(ClaimNext(db, now).0)
  {
    var next := NextFile(db, now);
    if next.Some? {
      ClaimedValid(db.files[next.value].lease, now, MAX_PARSE_ATTEMPTS);
    }
  }

  lemma RecoverKeepsLeases(db: Tables, now: int)
    requires LeasesValid(db)
    ensures LeasesValid(RecoverStale(db, now))
  {
    forall f | f in db.files ensures Valid(RecoverFile(db.files[f], now).lease, MAX_PARSE_ATTEMPTS) {
      RecoveredValid(db.files[f].lease, now, STALE_PARSE_MS, MAX_PARSE_ATTEMPTS, Failed(UNAVAILABLE));
    }
  }

  lemma StepKeepsLeases(db: Tables, s: Step)
    requires LeasesValid(db) && Allowed(db, s)
    ensures LeasesValid(Next(db, s))
  {
    match s
    case Claim(now) => ClaimKeepsLeases(db, now);
    case Recover(now) => RecoverKeepsLeases(db, now);
    case Retry(t, now) =>
      if t.attempts < MAX_PARSE_ATTEMPTS {
        RequeuedValid(db.files[t.id].lease, t, now + Delay(t.attempts), MAX_PARSE_ATTEMPTS);
      }
    case _ =>
  }

  lemma StepParsesNothing(db: Tables, s: Step)
    requires LeasesValid(db) && Allowed(db, s) && !s.Parse?
    ensures NothingParsed(db, Next(db, s))
  {
  }

  lemma StepKeepsWinners(db: Tables, s: Step)
    requires LeasesValid(db) && NewestWins(db) && Allowed(db, s)
    ensures NewestWins(Next(db, s))
  {
    if s.Parse? {
      ParseKeepsWinners(db, s.t, s.text);
    } else {
      StepParsesNothing(db, s);
      NothingParsedKeepsWinners(db, Next(db, s));
    }
  }

  lemma {:induction false} RunKeepsWinners(db: Tables, steps: seq<Step>)
    requires LeasesValid(db) && NewestWins(db) && Possible(db, steps)
    ensures LeasesValid(Exec(db, steps)) && NewestWins(Exec(db, steps))
    decreases |steps|
  {
    if steps != [] {
      StepKeepsLeases(db, steps[0]);
      StepKeepsWinners(db, steps[0]);
      RunKeepsWinners(Next(db, steps[0]), steps[1..]);
    }
  }

  /**
   However uploads are claimed, retried, recovered and read: once any file of a candidate is
   PARSED, the resume text is that of a PARSED file with the greatest createdAt, and no file
   was ever claimed more than three times or twice under one token.
   */
  lemma NewestUploadWins(resumeText: map<nat, string>, steps: seq<Step>, f: nat)
    requires Possible(Tables(map[], resumeText), steps)
    requires f in Exec(Tables(map[], resumeText), steps).files
    ensures var end := Exec(Tables(map[], resumeText), steps);
      && |end.files[f].lease.tokens| <= MAX_PARSE_ATTEMPTS && Distinct(end.files[f].lease.tokens)
      && (end.files[f].IsParsed() ==> exists g :: Wins(end, end.files[f].candidateId, g))
  {
    RunKeepsWinners(Tables(map[], resumeText), steps);
    var end := Exec(Tables(map[], resumeText), steps);
    assert Valid(end.files[f].lease, MAX_PARSE_ATTEMPTS);
    assert SettledWell(end, end.files[f].candidateId);
    assert end.files[f].IsParsed() ==> ParsedFor(end, end.files[f].candidateId, f);
  }

  lemma OneFileIsNext(db: Tables, id: nat, now: int)
    requires db.files.Keys == {id} && Due(db.files[id].lease, now)
    ensures NextFile(db, now) == Some(id)
  {
    assert id in DueFiles(db, now);
  }

  lemma ThreeSteps(db: Tables, a: Step, b: Step, c: Step)
    requires Allowed(db, a) && Allowed(Next(db, a), b) && Allowed(Next(Next(db, a), b), c)
    ensures Possible(db, [a, b, c]) && Exec(db, [a, b, c]) == Next(Next(Next(db, a), b), c)
  {
    var last := Next(Next(Next(db, a), b), c);
    assert [a, b, c][1..] == [b, c] && [b, c][1..] == [c] && [c][1..] == [];
    assert Possible(last, []) && Exec(last, []) == last;
    assert Possible(Next(Next(db, a), b), [c]) && Exec(Next(Next(db, a), b), [c]) == last;
    assert Possible(Next(db, a), [b, c]) && Exec(Next(db, a), [b, c]) == last;
  }

  /** A file that is uploaded, claimed and read becomes the candidate's resume. */
  lemma UploadIsRead(text: string, now: int) returns (steps: seq<Step>)
    ensures Possible(Tables(map[], map[0 := ""]), steps)
    ensures var end := Exec(Tables(map[], map[0 := ""]), steps);
      end.files.Keys == {7} && end.files[7].IsParsed() && end.resumeText == map[0 := text]
  {
    var db, upload, t := Tables(map[], map[0 := ""]), Upload(7, 0, now, now), Ticket(7, 1, now);
    steps := [upload, Step.Claim(now), Parse(t, text)];
    OneFileIsNext(Next(db, upload), 7, now);
    ThreeSteps(db, upload, Step.Claim(now), Parse(t, text));
  }

  // ---- What becomes of one file ----

  /** A claim takes the earliest due file, under a new token; nothing is claimed exactly when nothing is due. */
  lemma ClaimTakesEarliest(db: Tables, now: int)
    requires LeasesValid(db)
    ensures var (db', claimed) := ClaimNext(db, now);
      var due := set f | f in db.files && db.files[f].lease.status.Queued? && db.files[f].lease.nextAttemptAt <= now;
      && (claimed.None? <==> due == {}) && (claimed.None? ==> db' == db)
      && (claimed.Some? ==>
            var t := claimed.value;
            && t.id in due && db'.resumeText == db.resumeText && db'.files == db.files[t.id := db'.files[t.id]]
            && (forall f :: f in due ==>
                  db.files[t.id].lease.nextAttemptAt < db.files[f].lease.nextAttemptAt ||
                  (db.files[t.id].lease.nextAttemptAt == db.files[f].lease.nextAttemptAt && t.id <= f))
            && var l, l' := db.files[t.id].lease, db'.files[t.id].lease;
               && l'.status.Running? && l'.lockedAt == Some(now) && t == Ticket(t.id, l.attempts + 1, now)
               && l'.attempts == l.attempts + 1 <= 3 && l'.tokens == l.tokens + [now] && now !in l.tokens)
  {
    var next := NextFile(db, now);
    if next.Some? {
      var keys := set f | f in DueFiles(db, now) :: Key(db.files[f].lease.nextAttemptAt, 0, f);
      forall f | f in DueFiles(db, now) ensures Key(db.files[f].lease.nextAttemptAt, 0, f) in keys {}
      NewTokenIsNew(db.files[next.value].lease, now, MAX_PARSE_ATTEMPTS);
    }
  }

  /**
   Recovery touches exactly the files whose worker has been silent for more than three minutes: those
   with attempts left are due at once, the others FAILED.
   */
  lemma RecoveryTakesSilentFiles(db: Tables, now: int)
    ensures var db' := RecoverStale(db, now);
      && db'.resumeText == db.resumeText && db'.files.Keys == db.files.Keys
      && forall f :: f in db.files ==>
           var was, after, l, l' := db.files[f], db'.files[f], db.files[f].lease, db'.files[f].lease;
           && (after != was <==> l.status.Running? && l.lockedAt.Some? && l.lockedAt.value < now - 180_000)
           && after == was.(lease := l') && l'.attempts == l.attempts && l'.tokens == l.tokens
           && (after != was ==>
                 l'.lockedAt.None? &&
                 if l.attempts < 3 then l'.status.Queued? && l'.nextAttemptAt == now
                 else l'.status == Settled(Failed(UNAVAILABLE)))
  {
    forall f | f in db.files {
      RecoveredExactly(db.files[f].lease, now, STALE_PARSE_MS, MAX_PARSE_ATTEMPTS, Failed(UNAVAILABLE));
    }
  }

  /**
   The newest claim of a running file decides it: FAILED with the message, or after an error QUEUED 15 s,
   then 30 s ahead, FAILED after the third, or PARSED. Any other claim changes nothing.
   */
  lemma ClaimIsDecided(db: Tables, s: Step)
    requires LeasesValid(db) && Allowed(db, s) && (s.Fail? || s.Retry? || s.Parse?)
    ensures var db', l := Next(db, s), db.files[s.t.id].lease;
      if !(l.status.Running? && s.t.attempts == l.attempts) then db' == db
      else
        && s.t.id in db'.files && db'.files == db.files[s.t.id := db'.files[s.t.id]]
        && (!s.Parse? ==> db'.resumeText == db.resumeText)
        && var l' := db'.files[s.t.id].lease;
           && l'.lockedAt.None? && l'.tokens == l.tokens
           && match s
              case Fail(_, message) => l'.status == Settled(Failed(message))
              case Parse(_, text) => l'.status == Settled(Parsed) && db'.files[s.t.id].text == text
              case Retry(t, now) =>
                if t.attempts < 3 then l'.status.Queued? && l'.nextAttemptAt == now + 15_000 * t.attempts
                else l'.status == Settled(Failed(UNAVAILABLE))
              case _ => true
  {
    var l := db.files[s.t.id].lease;
    FenceIsNewestClaim(l, s.t, MAX_PARSE_ATTEMPTS);
    assert db.files[s.t.id := db.files[s.t.id]] == db.files;
    if s.Retry? && s.t.attempts < 3 {
      assert Delay(1) == 15_000 && Delay(2) == 2 * Delay(1);
    }
  }

  // ---- The same transactions on tables updated in place ----

  function BackInQueue(f: File, now: int): File {
    f.(lease := f.lease.(status := Queued, lockedAt := None, nextAttemptAt := now))
  }

  function GivenUp(f: File): File {
    f.(lease := f.lease.(status := Settled(Failed(UNAVAILABLE)), lockedAt := None))
  }

  /** The two updates touch different files and together are the recovery. */
  lemma FilesRecover(before: map<nat, File>, spare: set<nat>, between: map<nat, File>, spent: set<nat>,
                     after: map<nat, File>, now: int)
    requires spare == set f | f in before && Spare(before[f].lease, now, STALE_PARSE_MS, MAX_PARSE_ATTEMPTS)
    requires between == map f | f in before :: if f in spare then BackInQueue(before[f], now) else before[f]
    requires spent == set f | f in between && Spent(between[f].lease, now, STALE_PARSE_MS, MAX_PARSE_ATTEMPTS)
    requires after == map f | f in between :: if f in spent then GivenUp(between[f]) else between[f]
    ensures after == map f | f in before :: RecoverFile(before[f], now)
  {
    forall f | f in before ensures after[f] == RecoverFile(before[f], now) {
      TwoUpdatesRecover(before[f].lease, between[f].lease, after[f].lease, now, STALE_PARSE_MS, MAX_PARSE_ATTEMPTS,
        Failed(UNAVAILABLE));
    }
  }

  lemma FilesRecoverCounted(before: map<nat, File>, spare: set<nat>, between: map<nat, File>, spent: set<nat>,
                            after: map<nat, File>, now: int)
    requires spare == set f | f in before && Spare(before[f].lease, now, STALE_PARSE_MS, MAX_PARSE_ATTEMPTS)
    requires between == map f | f in before :: if f in spare then BackInQueue(before[f], now) else before[f]
    requires spent == set f | f in between && Spent(between[f].lease, now, STALE_PARSE_MS, MAX_PARSE_ATTEMPTS)
    requires after == map f | f in between :: if f in spent then GivenUp(between[f]) else between[f]
    ensures |spare| + |spent| == |set f | f in before && before[f] != after[f]|
  {
    forall f | f in before
      ensures !(f in spare && f in spent)
      ensures before[f] != after[f] <==> f in spare || f in spent
    {
      TwoUpdatesRecover(before[f].lease, between[f].lease, after[f].lease, now, STALE_PARSE_MS, MAX_PARSE_ATTEMPTS,
        Failed(UNAVAILABLE));
    }
    assert spare !! spent;
    assert (set f | f in before && before[f] != after[f]) == spare + spent;
  }

  class Store {
    var files: map<nat, File>
    var resumeText: map<nat, string>

    function Contents(): Tables
      reads this
    {
      Tables(files, resumeText)
    }

    method ClaimNextResumeFile(now: int) returns (claimed: Option<Ticket>)
      modifies this`files
      ensures (Contents(), claimed) == ClaimNext(old(Contents()), now)
    {
      var due := set f | f in files && files[f].lease.status.Queued? && files[f].lease.nextAttemptAt <= now;
      assert due == DueFiles(Contents(), now);
      var keys := set f | f in due :: Key(files[f].lease.nextAttemptAt, 0, f);
      assert keys == set f | f in DueFiles(Contents(), now) :: Key(files[f].lease.nextAttemptAt, 0, f);
      if keys == {} {
        assert forall f :: f in due ==> Key(files[f].lease.nextAttemptAt, 0, f) in keys;
        return None;
      }
      var id := Least(keys).id;
      var lease := files[id].lease;
      lease := lease.(status := Running, lockedAt := Some(now), attempts := lease.attempts + 1,
                      tokens := lease.tokens + [now]);
      files := files[id := files[id].(lease := lease)];
      return Some(Ticket(id, lease.attempts, now));
    }

    /** Stores the text unless a newer upload has been read already; `applied` is what the audit entry says. */
    method Commit(t: Ticket, text: string) returns (applied: bool)
      requires t.id in files
      modifies this
      ensures Contents() == FinishParse(old(Contents()), t, text)
      ensures applied <==> Owned(old(files)[t.id].lease, t) && !NewerParsed(Contents(), t.id)
    {
      var file := files[t.id];
      if !(file.lease.status.Running? && file.lease.lockedAt == Some(t.lockedAt)) {
        return false;
      }
      files := files[t.id := file.(lease := file.lease.(status := Settled(Parsed), lockedAt := None), text := text)];
      var newer := exists g | g in files ::
        files[g].candidateId == file.candidateId && files[g].IsParsed() && files[g].createdAt > file.createdAt;
      applied := !newer;
      if applied {
        resumeText := resumeText[file.candidateId := text];
      }
    }

    /** Two updates in one transaction, and how many files they touched. */
    method RecoverStaleResumeFiles(now: int) returns (recovered: nat)
      modifies this`files
      ensures Contents() == RecoverStale(old(Contents()), now)
      ensures recovered == |set f | f in old(files) && old(files)[f] != files[f]|
    {
      ghost var before := files;
      var spare := set f | f in files && Spare(files[f].lease, now, STALE_PARSE_MS, MAX_PARSE_ATTEMPTS);
      files := map f | f in files :: if f in spare then BackInQueue(files[f], now) else files[f];
      ghost var between := files;
      var spent := set f | f in files && Spent(files[f].lease, now, STALE_PARSE_MS, MAX_PARSE_ATTEMPTS);
      files := map f | f in files :: if f in spent then GivenUp(files[f]) else files[f];
      recovered := |spare| + |spent|;
      FilesRecover(before, spare, between, spent, files, now);
      FilesRecoverCounted(before, spare, between, spent, files, now);
    }

    method FailFile(t: Ticket, message: string)
      requires t.id in files
      modifies this`files
      ensures Contents() == AfterFailure(old(Contents()), t, message)
      ensures !Owned(old(files)[t.id].lease, t) ==> files == old(files)
      ensures Owned(old(files)[t.id].lease, t) ==>
        files[t.id].lease.status == Settled(Failed(message)) && forall u :: !Owned(files[t.id].lease, u)
    {
      var lease := files[t.id].lease;
      if lease.status.Running? && lease.lockedAt == Some(t.lockedAt) {
        lease := lease.(status := Settled(Failed(message)), lockedAt := None);
      }
      files := files[t.id := files[t.id].(lease := lease)];
    }

    method RetryOrFail(t: Ticket, now: int)
      requires t.id in files && t.attempts >= 1
      modifies this`files
      ensures Contents() == AfterError(old(Contents()), t, now)
    {
      if t.attempts >= MAX_PARSE_ATTEMPTS {
        FailFile(t, UNAVAILABLE);
        return;
      }
      var lease := files[t.id].lease;
      if lease.status.Running? && lease.lockedAt == Some(t.lockedAt) {
        lease := lease.(status := Queued, lockedAt := None, nextAttemptAt := now + Delay(t.attempts));
      }
      files := files[t.id := files[t.id].(lease := lease)];
    }
  }
}
