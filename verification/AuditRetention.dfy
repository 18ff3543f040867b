/**
 Writing and purging the audit log: the sealing trigger (the audit_log migration) and
 purgeCompany (backend/src/audit/retention.ts). Whatever the order of the two, the log that is
 left verifies clean, because every cut is recorded by an entry that outlives it.
 */
module AuditRetention {
  import opened Arith
  import opened Options
  import opened AuditChain

  const DAY_MS := 86_400_000
  const MAX_PURGE_PER_RUN := 50_000

  /** audit_seal: the next seq, linked to the entry with the highest one. */
  function Seal(h: HashFn, log: seq<Entry>, content: Content, actorId: Option<string>): seq<Entry> {
    var seqNo := if log == [] then 1 else log[|log| - 1].seqNo + 1;
    var prevHash := if log == [] then None else Some(log[|log| - 1].hash);
    log + [Entry(seqNo, prevHash, h(prevHash, seqNo, content), content, actorId)]
  }

  /** The newest expired entry's seq: SELECT max(seq) WHERE createdAt < cutoff. */
  function Expired(log: seq<Entry>, cutoff: int): Option<int> {
    if log == [] then None
    else if log[|log| - 1].content.createdAt < cutoff then Some(log[|log| - 1].seqNo)
    else Expired(log[..|log| - 1], cutoff)
  }

  function EntryAt(log: seq<Entry>, seqNo: int): (e: Option<Entry>)
    ensures e.Some? ==> e.value in log && e.value.seqNo == seqNo
  {
    if log == [] then None
    else if log[0].seqNo == seqNo then Some(log[0])
    else EntryAt(log[1..], seqNo)
  }

  /** The boundary query: LEAST(expired, below_tip, batch_end), joined back to its entry. */
  function Boundary(log: seq<Entry>, cutoff: int): Option<Entry> {
    var expired := Expired(log, cutoff);
    if log == [] || expired.None? then None
    else EntryAt(log, Min(expired.value, Min(log[|log| - 1].seqNo - 1, log[0].seqNo + MAX_PURGE_PER_RUN - 1)))
  }

  /** What logActivity is given, apart from the cut. */
  datatype PurgeEntry = PurgeEntry(companyId: string, createdAt: int, summary: string, rest: string)

  function CutContent(p: PurgeEntry, boundary: Entry): Content {
    Content(p.companyId, p.createdAt, PURGE, "company", p.companyId, p.summary,
            Metadata(Some(boundary.seqNo), Some(boundary.hash), p.rest))
  }

  /** purgeCompany: the log it leaves and how many entries it deleted. */
  function Purge(h: HashFn, log: seq<Entry>, retentionDays: int, now: int, p: PurgeEntry): (seq<Entry>, nat) {
    match Boundary(log, now - retentionDays * DAY_MS)
    case None => (log, 0)
    case Some(boundary) =>
      var kept := Above(log, boundary.seqNo);
      if boundary.seqNo == 0 || boundary.hash == "" || |kept| >= |log| then (log, 0)
      else (Seal(h, kept, CutContent(p, boundary), None), |log| - |kept|)
  }

  /** ON DELETE SET NULL for the actor: the one change the guard trigger lets through. */
  function EraseActor(log: seq<Entry>, user: string): seq<Entry> {
    seq(|log|, i requires 0 <= i < |log| => if log[i].actorId == Some(user) then log[i].(actorId := None) else log[i])
  }

  /** Deleting an account clears it as the actor of its own entries, and changes nothing else of any entry. */
  lemma ErasedExactly(log: seq<Entry>, user: string, i: nat)
    requires i < |log|
    ensures |EraseActor(log, user)| == |log|
    ensures EraseActor(log, user)[i].(actorId := log[i].actorId) == log[i]
    ensures EraseActor(log, user)[i].actorId.None? <==> log[i].actorId.None? || log[i].actorId.value == user
    ensures log[i].actorId != Some(user) ==> EraseActor(log, user)[i] == log[i]
  {
  }

  // ---- Reachable logs ----

  datatype Step =
    | Append(content: Content, actorId: Option<string>)
    | PurgeRun(retentionDays: int, now: int, entry: PurgeEntry)
    | Erase(user: string)

  function Next(h: HashFn, log: seq<Entry>, s: Step): seq<Entry> {
    match s
    case Append(content, actorId) => Seal(h, log, content, actorId)
    case PurgeRun(retentionDays, now, entry) => Purge(h, log, retentionDays, now, entry).0
    case Erase(user) => EraseActor(log, user)
  }

  function Exec(h: HashFn, log: seq<Entry>, steps: seq<Step>): seq<Entry>
    decreases |steps|
  {
    if steps == [] then log else Exec(h, Next(h, log, steps[0]), steps[1..])
  }

  /** The log starts at 1, or right after a cut that one of its entries records. */
  predicate Anchored(log: seq<Entry>) {
    log != [] ==>
      if log[0].seqNo == 1 then log[0].prevHash.None?
      else log[0].prevHash.Some? && exists e :: e in log && RecordsCut(e, log[0].seqNo - 1, log[0].prevHash.value)
  }

  /** Entry i follows entry i - 1, and its hash is its own. */
  predicate Linked(h: HashFn, log: seq<Entry>, i: nat)
    requires i < |log|
  {
    && log[i].hash == ExpectedHash(h, log[i])
    && log[i].seqNo == log[0].seqNo + i
    && (i > 0 ==> log[i].prevHash == Some(log[i - 1].hash))
  }

  predicate Sealed(h: HashFn, log: seq<Entry>) {
    && (log != [] ==> log[0].seqNo >= 1)
    && (forall i :: 0 <= i < |log| ==> Linked(h, log, i))
    && Anchored(log)
  }

  lemma SealKeepsChain(h: HashFn, log: seq<Entry>, content: Content, actorId: Option<string>)
    requires log != [] && log[0].seqNo >= 1 && forall i :: 0 <= i < |log| ==> Linked(h, log, i)
    ensures var log' := Seal(h, log, content, actorId);
      log'[0] == log[0] && forall i :: 0 <= i < |log'| ==> Linked(h, log', i)
  {
    var log' := Seal(h, log, content, actorId);
    assert Linked(h, log, |log| - 1);
    forall i | 0 <= i < |log'| ensures Linked(h, log', i) {
      if i < |log| {
        assert Linked(h, log, i);
      }
    }
  }

  lemma SealKeepsSealed(h: HashFn, log: seq<Entry>, content: Content, actorId: Option<string>)
    requires Sealed(h, log)
    ensures Sealed(h, Seal(h, log, content, actorId))
  {
    var log' := Seal(h, log, content, actorId);
    if log == [] {
      assert Linked(h, log', 0);
    } else {
      SealKeepsChain(h, log, content, actorId);
      if log[0].seqNo != 1 {
        var e :| e in log && RecordsCut(e, log[0].seqNo - 1, log[0].prevHash.value);
        assert e in log';
      }
    }
  }

  lemma SealedIsAscending(h: HashFn, log: seq<Entry>)
    requires Sealed(h, log)
    ensures Ascending(log)
  {
    forall i, j | 0 <= i < j < |log| ensures log[i].seqNo < log[j].seqNo {
      assert Linked(h, log, i) && Linked(h, log, j);
    }
    forall i | 0 <= i < |log| ensures log[i].seqNo >= 1 {
      assert Linked(h, log, i);
    }
  }

  lemma ExpiredIsMember(log: seq<Entry>, cutoff: int)
    ensures Expired(log, cutoff).Some? ==>
      exists i :: 0 <= i < |log| && log[i].seqNo == Expired(log, cutoff).value && log[i].content.createdAt < cutoff
    ensures Expired(log, cutoff).None? ==> forall i :: 0 <= i < |log| ==> log[i].content.createdAt >= cutoff
  {
    if log != [] && log[|log| - 1].content.createdAt >= cutoff {
      var n := |log| - 1;
      ExpiredIsMember(log[..n], cutoff);
      if Expired(log, cutoff).Some? {
        var i :| 0 <= i < n && log[..n][i].seqNo == Expired(log, cutoff).value &&
          log[..n][i].content.createdAt < cutoff;
        assert log[i] == log[..n][i];
      }
    }
  }

  /** In a sealed log the row with a given number is the row at that offset. */
  lemma EntryAtOffset(h: HashFn, log: seq<Entry>, i: nat)
    requires Sealed(h, log) && i < |log|
    ensures EntryAt(log, log[0].seqNo + i) == Some(log[i])
  {
    SealedIsAscending(h, log);
    assert Linked(h, log, i);
    FindsIt(log, i);
  }

  lemma FindsIt(log: seq<Entry>, i: nat)
    requires i < |log| && forall j :: 0 <= j < i ==> log[j].seqNo != log[i].seqNo
    ensures EntryAt(log, log[i].seqNo) == Some(log[i])
  {
    if i > 0 {
      FindsIt(log[1..], i - 1);
    }
  }

  lemma FindsNothing(log: seq<Entry>, seqNo: int)
    requires forall j :: 0 <= j < |log| ==> log[j].seqNo != seqNo
    ensures EntryAt(log, seqNo) == None
  {
  }

  /**
   How much a purge of a sealed log deletes: a prefix, up to the newest expired entry, never the
   tip, never more than one batch; and nothing when no entry has expired.
   */
  function PurgeCount(log: seq<Entry>, cutoff: int): nat
    requires log != []
  {
    match Expired(log, cutoff)
    case None => 0
    case Some(expired) =>
      var n := Min(expired - log[0].seqNo + 1, Min(|log| - 1, MAX_PURGE_PER_RUN));
      if n < 0 then 0 else n
  }

  lemma BoundaryOfSealed(h: HashFn, log: seq<Entry>, cutoff: int)
    requires Sealed(h, log) && log != []
    ensures PurgeCount(log, cutoff) < |log|
    ensures Boundary(log, cutoff) ==
      if PurgeCount(log, cutoff) == 0 then None else Some(log[PurgeCount(log, cutoff) - 1])
  {
    var expired := Expired(log, cutoff);
    if expired.Some? {
      ExpiredIsMember(log, cutoff);
      var k :| 0 <= k < |log| && log[k].seqNo == expired.value && log[k].content.createdAt < cutoff;
      assert Linked(h, log, k) && Linked(h, log, |log| - 1);
      var n := PurgeCount(log, cutoff);
      if n == 0 {
        forall j | 0 <= j < |log| ensures log[j].seqNo != log[0].seqNo - 1 {
          assert Linked(h, log, j);
        }
        FindsNothing(log, log[0].seqNo - 1);
      } else {
        EntryAtOffset(h, log, n - 1);
      }
    }
  }

  lemma SuffixOfSealed(h: HashFn, log: seq<Entry>, n: nat)
    requires Sealed(h, log) && 0 < n < |log|
    ensures Above(log, log[n - 1].seqNo) == log[n..]
    ensures forall i :: 0 <= i < |log| - n ==> Linked(h, log[n..], i)
    ensures log[n..][0].seqNo >= 2 && log[n..][0].prevHash == Some(log[n - 1].hash) &&
            log[n..][0].seqNo == log[n - 1].seqNo + 1
  {
    SealedIsAscending(h, log);
    AboveIsSuffix(log, n);
    assert Linked(h, log, n) && Linked(h, log, n - 1);
    forall i | 0 <= i < |log| - n ensures Linked(h, log[n..], i) {
      assert Linked(h, log, n + i);
    }
  }

  /** A purge deletes PurgeCount entries from the front and appends the entry that records the cut, or does nothing. */
  lemma PurgeEffect(h: HashFn, log: seq<Entry>, retentionDays: int, now: int, p: PurgeEntry)
    requires Sealed(h, log) && log != []
    ensures var n := PurgeCount(log, now - retentionDays * DAY_MS);
      && n < |log|
      && Purge(h, log, retentionDays, now, p) ==
           if n == 0 || log[n - 1].hash == "" then (log, 0) else (Seal(h, log[n..], CutContent(p, log[n - 1]), None), n)
  {
    var cutoff := now - retentionDays * DAY_MS;
    var n := PurgeCount(log, cutoff);
    BoundaryOfSealed(h, log, cutoff);
    if n > 0 {
      SuffixOfSealed(h, log, n);
      assert Linked(h, log, n - 1);
    }
  }

  lemma CutIsExpired(h: HashFn, log: seq<Entry>, cutoff: int)
    requires Sealed(h, log) && log != [] && PurgeCount(log, cutoff) > 0
    ensures exists k :: PurgeCount(log, cutoff) - 1 <= k < |log| && log[k].content.createdAt < cutoff
  {
    ExpiredIsMember(log, cutoff);
    var k :| 0 <= k < |log| && log[k].seqNo == Expired(log, cutoff).value && log[k].content.createdAt < cutoff;
    assert Linked(h, log, k);
  }

  /** Nothing after the newest expired entry is expired. */
  lemma {:induction false} ExpiredIsNewest(log: seq<Entry>, cutoff: int)
    ensures Expired(log, cutoff).None? ==> forall i :: 0 <= i < |log| ==> log[i].content.createdAt >= cutoff
    ensures Expired(log, cutoff).Some? ==>
      exists k :: 0 <= k < |log| && log[k].seqNo == Expired(log, cutoff).value && log[k].content.createdAt < cutoff &&
        forall i :: k < i < |log| ==> log[i].content.createdAt >= cutoff
    decreases |log|
  {
    if log != [] && log[|log| - 1].content.createdAt >= cutoff {
      var n := |log| - 1;
      ExpiredIsNewest(log[..n], cutoff);
      if Expired(log, cutoff).Some? {
        var k :| 0 <= k < n && log[..n][k].seqNo == Expired(log, cutoff).value &&
          log[..n][k].content.createdAt < cutoff && forall i :: k < i < n ==> log[..n][i].content.createdAt >= cutoff;
        assert log[k] == log[..n][k];
        forall i | k < i < |log| ensures log[i].content.createdAt >= cutoff {
          assert i < n ==> log[i] == log[..n][i];
        }
      } else {
        forall i | 0 <= i < |log| ensures log[i].content.createdAt >= cutoff {
          assert i < n ==> log[i] == log[..n][i];
        }
      }
    } else if log != [] {
      assert log[|log| - 1].seqNo == Expired(log, cutoff).value;
    }
  }

  /** A purge that is stopped by neither the tip nor the batch leaves nothing expired behind. */
  lemma KeptIsYoung(h: HashFn, log: seq<Entry>, cutoff: int)
    requires Sealed(h, log) && log != []
    ensures var n := PurgeCount(log, cutoff);
      n < |log| - 1 && n < MAX_PURGE_PER_RUN ==> forall i :: n <= i < |log| ==> log[i].content.createdAt >= cutoff
  {
    ExpiredIsNewest(log, cutoff);
    if Expired(log, cutoff).Some? {
      var k :| 0 <= k < |log| && log[k].seqNo == Expired(log, cutoff).value && log[k].content.createdAt < cutoff &&
        forall i :: k < i < |log| ==> log[i].content.createdAt >= cutoff;
      assert Linked(h, log, k);
    }
  }

  /** A purge deletes exactly PurgeCount entries from the front and appends the entry that records the cut. */
  lemma PurgeIsPrefixCut(h: HashFn, log: seq<Entry>, retentionDays: int, now: int, p: PurgeEntry)
    requires Sealed(h, log) && log != [] && forall i :: 0 <= i < |log| ==> log[i].hash != ""
    ensures var n := PurgeCount(log, now - retentionDays * 86_400_000);
      && 0 <= n < |log| && n <= 50_000
      && (n < |log| - 1 && n < 50_000 ==>
            forall i :: n <= i < |log| ==> log[i].content.createdAt >= now - retentionDays * 86_400_000)
      && (Purge(h, log, retentionDays, now, p) ==
            if n == 0 then (log, 0) else (Seal(h, log[n..], CutContent(p, log[n - 1]), None), n))
      && (n > 0 ==> exists k :: n - 1 <= k < |log| && log[k].content.createdAt < now - retentionDays * 86_400_000)
  {
    PurgeEffect(h, log, retentionDays, now, p);
    ExpiredIsNewest(log, now - retentionDays * DAY_MS);
    KeptIsYoung(h, log, now - retentionDays * DAY_MS);
    if PurgeCount(log, now - retentionDays * DAY_MS) > 0 {
      CutIsExpired(h, log, now - retentionDays * DAY_MS);
    }
  }

  lemma CutKeepsSealed(h: HashFn, log: seq<Entry>, n: nat, p: PurgeEntry)
    requires Sealed(h, log) && 0 < n < |log|
    ensures Sealed(h, Seal(h, log[n..], CutContent(p, log[n - 1]), None))
  {
    SuffixOfSealed(h, log, n);
    SealKeepsChain(h, log[n..], CutContent(p, log[n - 1]), None);
    var log' := Seal(h, log[n..], CutContent(p, log[n - 1]), None);
    var cut := log'[|log'| - 1];
    assert cut in log' && RecordsCut(cut, log'[0].seqNo - 1, log'[0].prevHash.value);
  }

  lemma PurgeKeepsSealed(h: HashFn, log: seq<Entry>, retentionDays: int, now: int, p: PurgeEntry)
    requires Sealed(h, log)
    ensures Sealed(h, Purge(h, log, retentionDays, now, p).0)
    ensures log != [] ==> Purge(h, log, retentionDays, now, p).0 != []
  {
    if log != [] {
      var n := PurgeCount(log, now - retentionDays * DAY_MS);
      PurgeEffect(h, log, retentionDays, now, p);
      if n > 0 {
        CutKeepsSealed(h, log, n, p);
      }
    }
  }

  lemma EraseKeepsSealed(h: HashFn, log: seq<Entry>, user: string)
    requires Sealed(h, log)
    ensures Sealed(h, EraseActor(log, user))
  {
    var log' := EraseActor(log, user);
    forall i | 0 <= i < |log'| ensures Linked(h, log', i) {
      assert Linked(h, log, i);
    }
    if log != [] && log[0].seqNo != 1 {
      var e :| e in log && RecordsCut(e, log[0].seqNo - 1, log[0].prevHash.value);
      var i :| 0 <= i < |log| && log[i] == e;
      assert log'[i] in log' && RecordsCut(log'[i], log'[0].seqNo - 1, log'[0].prevHash.value);
    }
  }

  lemma {:induction false} ExecKeepsSealed(h: HashFn, log: seq<Entry>, steps: seq<Step>)
    requires Sealed(h, log)
    ensures Sealed(h, Exec(h, log, steps))
    decreases |steps|
  {
    if steps != [] {
      match steps[0] {
        case Append(content, actorId) => SealKeepsSealed(h, log, content, actorId);
        case PurgeRun(retentionDays, now, entry) => PurgeKeepsSealed(h, log, retentionDays, now, entry);
        case Erase(user) => EraseKeepsSealed(h, log, user);
      }
      ExecKeepsSealed(h, Next(h, log, steps[0]), steps[1..]);
    }
  }

  lemma SealedIsIntact(h: HashFn, log: seq<Entry>)
    requires Sealed(h, log) && log != []
    ensures Intact(h, Anchor(log), log)
  {
    forall i | 0 <= i < |log| ensures Fits(h, Anchor(log), log, i) {
      assert Linked(h, log, i);
      if i > 0 {
        assert Linked(h, log, i - 1);
      }
    }
  }

  /**
   Every log that sealing, purging and account erasure can produce, in any order and with any
   clocks, verifies clean: every entry is checked, and no fault is reported. No assumption on the hash.
   */
  lemma ReachableLogsVerifyClean(h: HashFn, steps: seq<Step>)
    ensures var log := Exec(h, [], steps);
      && Ascending(log) && VerifiedReport(h, log) == OnePass(h, log)
      && VerifiedReport(h, log).fault.None? && VerifiedReport(h, log).checked == |log|
      && (log != [] ==> VerifiedReport(h, log).lastSeq == Some(log[|log| - 1].seqNo))
  {
    ExecKeepsSealed(h, [], steps);
    var log := Exec(h, [], steps);
    SealedIsAscending(h, log);
    WholeLogIsReadExactly(h, log);
    if log != [] {
      SealedIsIntact(h, log);
      var _ := FindBreakIsFirstFault(h, Anchor(log), log);
    }
  }

  function Tip(log: seq<Entry>): int {
    if log == [] then 0 else log[|log| - 1].seqNo
  }

  /** The numbers a step gives out: an append's, or that of the entry which records a cut. */
  function Given(h: HashFn, log: seq<Entry>, s: Step): seq<int> {
    match s
    case Append(content, actorId) => [Tip(Next(h, log, s))]
    case PurgeRun(retentionDays, now, entry) =>
      if Purge(h, log, retentionDays, now, entry).1 > 0 then [Tip(Next(h, log, s))] else []
    case Erase(_) => []
  }

  function NumbersGiven(h: HashFn, log: seq<Entry>, steps: seq<Step>): seq<int>
    decreases |steps|
  {
    if steps == [] then [] else Given(h, log, steps[0]) + NumbersGiven(h, Next(h, log, steps[0]), steps[1..])
  }

  lemma StepRaisesTip(h: HashFn, log: seq<Entry>, s: Step)
    requires Sealed(h, log)
    ensures Sealed(h, Next(h, log, s))
    ensures Tip(Next(h, log, s)) == Tip(log) + |Given(h, log, s)|
  {
    match s
    case Append(content, actorId) => SealKeepsSealed(h, log, content, actorId);
    case PurgeRun(retentionDays, now, entry) =>
      PurgeKeepsSealed(h, log, retentionDays, now, entry);
      PurgeRaisesTip(h, log, retentionDays, now, entry);
    case Erase(user) => EraseKeepsSealed(h, log, user);
  }

  lemma PurgeRaisesTip(h: HashFn, log: seq<Entry>, retentionDays: int, now: int, p: PurgeEntry)
    requires Sealed(h, log)
    ensures var (log', deleted) := Purge(h, log, retentionDays, now, p);
      Tip(log') == Tip(log) + if deleted > 0 then 1 else 0
  {
    if log != [] {
      var n := PurgeCount(log, now - retentionDays * DAY_MS);
      PurgeEffect(h, log, retentionDays, now, p);
      if n > 0 {
        SealRaisesTip(h, log[n..], CutContent(p, log[n - 1]), None);
        assert log[n..][|log| - n - 1] == log[|log| - 1];
      }
    }
  }

  lemma SealRaisesTip(h: HashFn, log: seq<Entry>, content: Content, actorId: Option<string>)
    ensures Tip(Seal(h, log, content, actorId)) == Tip(log) + 1
  {
  }

  /**
   The newest entry outlives every purge, so the numbers given out are the ones that follow the tip,
   without a gap and in order, however much is purged in between: none is ever given out twice.
   */
  lemma {:induction false} NumbersNeverGoBack(h: HashFn, log: seq<Entry>, steps: seq<Step>)
    requires Sealed(h, log)
    ensures var given := NumbersGiven(h, log, steps);
      && (forall i :: 0 <= i < |given| ==> given[i] == Tip(log) + 1 + i)
      && Tip(Exec(h, log, steps)) == Tip(log) + |given|
    decreases |steps|
  {
    if steps != [] {
      StepRaisesTip(h, log, steps[0]);
      NumbersNeverGoBack(h, Next(h, log, steps[0]), steps[1..]);
    }
  }

  // ---- The same on a table updated in place ----

  class ActivityLog {
    var entries: seq<Entry>

    method LogActivity(h: HashFn, content: Content, actorId: Option<string>)
      modifies this
      ensures entries == Seal(h, old(entries), content, actorId)
    {
      var headSeq, headHash: Option<Hash> := 0, None;
      if |entries| > 0 {
        var head := entries[|entries| - 1];
        headSeq, headHash := head.seqNo, Some(head.hash);
      }
      headSeq := headSeq + 1;
      entries := entries + [Entry(headSeq, headHash, h(headHash, headSeq, content), content, actorId)];
    }

    method PurgeCompany(h: HashFn, retentionDays: int, now: int, p: PurgeEntry) returns (deleted: nat)
      modifies this
      ensures (entries, deleted) == Purge(h, old(entries), retentionDays, now, p)
    {
      var cutoff := now - retentionDays * DAY_MS;
      var boundary := Boundary(entries, cutoff);
      if boundary.None? || boundary.value.seqNo == 0 || boundary.value.hash == "" {
        return 0;
      }
      var before := |entries|;
      var kept := Above(entries, boundary.value.seqNo);
      if |kept| >= before {
        return 0;
      }
      entries := kept;
      deleted := before - |kept|;
      var metadata := Metadata(Some(boundary.value.seqNo), Some(boundary.value.hash), p.rest);
      LogActivity(h, Content(p.companyId, p.createdAt, PURGE, "company", p.companyId, p.summary, metadata), None);
    }
  }
}
