/**
 A company's audit hash chain: the check of consecutive entries (backend/src/audit/chain.ts),
 the batched verification of a whole log (backend/src/services/audit.ts), and what it proves.
 The hash is a parameter; it needs to be injective only where a lemma says so.
 */
module AuditChain {
  import opened Options

  type Hash = string

  /** The JSON metadata, with the two keys a purge's cut is looked up by. */
  datatype Metadata = Metadata(throughSeq: Option<int>, throughHash: Option<Hash>, rest: string)

  /** The fields audit_entry_hash covers besides the previous hash and seq. */
  datatype Content = Content(
    companyId: string, createdAt: int, action: string, entityType: string, entityId: string,
    summary: string, metadata: Metadata)

  /** One sealed row. The actor is not hashed: it is cleared when the account is deleted. */
  datatype Entry = Entry(seqNo: int, prevHash: Option<Hash>, hash: Hash, content: Content, actorId: Option<string>)

  type HashFn = (Option<Hash>, int, Content) -> Hash

  function ExpectedHash(h: HashFn, e: Entry): Hash {
    h(e.prevHash, e.seqNo, e.content)
  }

  datatype Link = Link(seqNo: int, hash: Hash)

  datatype Fault = Missing | Unlinked | Altered | Unanchored

  datatype Break = Break(seqNo: int, fault: Fault)

  // ---- findChainBreak ----

  /** What is wrong with one entry, given the link before it. */
  function FaultOf(h: HashFn, last: Option<Link>, e: Entry): Option<Break> {
    if last.None? && (e.seqNo != 1 || e.prevHash.Some?) then Some(Break(e.seqNo, Unanchored))
    else if last.Some? && e.seqNo != last.value.seqNo + 1 then Some(Break(last.value.seqNo + 1, Missing))
    else if last.Some? && e.prevHash != Some(last.value.hash) then Some(Break(e.seqNo, Unlinked))
    else if e.hash != ExpectedHash(h, e) then Some(Break(e.seqNo, Altered))
    else None
  }

  function LinkOf(e: Entry): Link {
    Link(e.seqNo, e.hash)
  }

  /** The link that stands before entry i. */
  function Before(previous: Option<Link>, entries: seq<Entry>, i: nat): Option<Link>
    requires i <= |entries|
  {
    if i == 0 then previous else Some(LinkOf(entries[i - 1]))
  }

  function FindBreak(h: HashFn, previous: Option<Link>, entries: seq<Entry>): Option<Break>
    decreases |entries|
  {
    if entries == [] then None
    else
      var b := FaultOf(h, previous, entries[0]);
      if b.Some? then b else FindBreak(h, Some(LinkOf(entries[0])), entries[1..])
  }

  /** Entries that form one chain from `previous`: each the next number, naming the hash before it, unaltered. */
  predicate Intact(h: HashFn, previous: Option<Link>, entries: seq<Entry>) {
    forall i :: 0 <= i < |entries| ==> Fits(h, previous, entries, i)
  }

  predicate Fits(h: HashFn, previous: Option<Link>, entries: seq<Entry>, i: nat)
    requires i < |entries|
  {
    FaultOf(h, Before(previous, entries, i), entries[i]).None?
  }

  /**
   What the faults mean. An entry that starts a chain is numbered 1 and names no hash before it. Any other
   is numbered next, or one is missing; names the hash before it, or is not linked; and hashes to its hash.
   */
  lemma FaultsMean(h: HashFn, last: Option<Link>, e: Entry)
    ensures FaultOf(h, last, e).None? <==>
      && e.hash == h(e.prevHash, e.seqNo, e.content)
      && (last.None? ==> e.seqNo == 1 && e.prevHash.None?)
      && (last.Some? ==> e.seqNo == last.value.seqNo + 1 && e.prevHash == Some(last.value.hash))
    ensures FaultOf(h, last, e).Some? ==>
      var Break(seqNo, fault) := FaultOf(h, last, e).value;
      && (fault.Unanchored? <==> last.None? && !(e.seqNo == 1 && e.prevHash.None?))
      && (fault.Missing? <==> last.Some? && e.seqNo != last.value.seqNo + 1)
      && (fault.Unlinked? <==> last.Some? && e.seqNo == last.value.seqNo + 1 && e.prevHash != Some(last.value.hash))
      && seqNo == if fault.Missing? then last.value.seqNo + 1 else e.seqNo
  {
  }

  /** What FindBreak returns is the fault of the first entry that has one, and None exactly on an intact chain. */
  lemma {:induction false} FindBreakIsFirstFault(h: HashFn, previous: Option<Link>, entries: seq<Entry>)
    returns (k: nat)
    ensures k <= |entries| && Intact(h, previous, entries[..k])
    ensures FindBreak(h, previous, entries).None? <==> k == |entries|
    ensures k < |entries| ==> FindBreak(h, previous, entries) == FaultOf(h, Before(previous, entries, k), entries[k])
    ensures FindBreak(h, previous, entries).None? <==> Intact(h, previous, entries)
    decreases |entries|
  {
    if entries == [] || FaultOf(h, previous, entries[0]).Some? {
      k := 0;
      assert entries != [] ==> Before(previous, entries, 0) == previous;
    } else {
      var first, rest := Some(LinkOf(entries[0])), entries[1..];
      var j := FindBreakIsFirstFault(h, first, rest);
      k := j + 1;
      forall i | 0 <= i < |rest| ensures Before(previous, entries, i + 1) == Before(first, rest, i) {}
      forall i | 0 <= i < k ensures Fits(h, previous, entries[..k], i) {
        if i > 0 {
          assert Fits(h, first, rest[..j], i - 1);
          assert Before(first, rest[..j], i - 1) == Before(previous, entries[..k], i);
          assert rest[..j][i - 1] == entries[..k][i];
        }
      }
    }
    assert k < |entries| ==> !Fits(h, previous, entries, k);
    assert entries[..|entries|] == entries;
  }

  lemma {:induction false} FindBreakAppend(h: HashFn, previous: Option<Link>, a: seq<Entry>, b: seq<Entry>)
    ensures FindBreak(h, previous, a + b) ==
      (if FindBreak(h, previous, a).Some? then FindBreak(h, previous, a)
       else FindBreak(h, Before(previous, a, |a|), b))
    decreases |a|
  {
    if a == [] {
      assert a + b == b;
    } else {
      assert (a + b)[1..] == a[1..] + b;
      FindBreakAppend(h, Some(LinkOf(a[0])), a[1..], b);
    }
  }

  /** After entries that pass, the next one decides: it is the break, or it passes too. */
  lemma NextEntryDecides(h: HashFn, previous: Option<Link>, entries: seq<Entry>, i: nat)
    requires i < |entries| && FindBreak(h, previous, entries[..i]).None?
    ensures var b := FaultOf(h, Before(previous, entries, i), entries[i]);
      && (b.Some? ==> FindBreak(h, previous, entries) == b)
      && (b.None? ==> FindBreak(h, previous, entries[..i + 1]).None?)
  {
    var passed, entry := entries[..i], entries[i];
    assert Before(previous, passed, i) == Before(previous, entries, i);
    assert entries == passed + entries[i..] && entries[i..][0] == entry;
    FindBreakAppend(h, previous, passed, entries[i..]);
    assert entries[..i + 1] == passed + [entry] && [entry][1..] == [];
    FindBreakAppend(h, previous, passed, [entry]);
  }

  method FindChainBreak(h: HashFn, previous: Option<Link>, entries: seq<Entry>) returns (r: Option<Break>)
    ensures r == FindBreak(h, previous, entries)
  {
    var last := previous;
    for i := 0 to |entries|
      invariant last == Before(previous, entries, i)
      invariant FindBreak(h, previous, entries[..i]).None?
    {
      var entry := entries[i];
      NextEntryDecides(h, previous, entries, i);
      if last.None? {
        if entry.seqNo != 1 || entry.prevHash.Some? {
          return Some(Break(entry.seqNo, Unanchored));
        }
      } else {
        if entry.seqNo != last.value.seqNo + 1 {
          return Some(Break(last.value.seqNo + 1, Missing));
        }
        if entry.prevHash != Some(last.value.hash) {
          return Some(Break(entry.seqNo, Unlinked));
        }
      }
      if entry.hash != h(entry.prevHash, entry.seqNo, entry.content) {
        return Some(Break(entry.seqNo, Altered));
      }
      last := Some(Link(entry.seqNo, entry.hash));
    }
    assert entries[..|entries|] == entries;
    return None;
  }

  // ---- verifyAuditLog ----

  /** A company's rows by seq, which is unique. */
  predicate Increasing(log: seq<Entry>) {
    forall i, j :: 0 <= i < j < |log| ==> log[i].seqNo < log[j].seqNo
  }

  /** And counted from 1, as the trigger counts. */
  predicate Ascending(log: seq<Entry>) {
    Increasing(log) && forall i :: 0 <= i < |log| ==> log[i].seqNo >= 1
  }

  /** Rows above a seq. */
  function Above(log: seq<Entry>, after: int): (rows: seq<Entry>) {
    if log == [] then []
    else if log[0].seqNo > after then [log[0]] + Above(log[1..], after)
    else Above(log[1..], after)
  }

  function Take(log: seq<Entry>, limit: nat): seq<Entry> {
    if |log| <= limit then log else log[..limit]
  }

  lemma {:induction false} AboveCut(log: seq<Entry>, n: nat, after: int)
    requires n <= |log|
    requires forall i :: 0 <= i < n ==> log[i].seqNo <= after
    requires forall i :: n <= i < |log| ==> log[i].seqNo > after
    ensures Above(log, after) == log[n..]
    decreases |log|
  {
    if log != [] {
      AboveCut(log[1..], if n == 0 then 0 else n - 1, after);
    }
  }

  function SeqBefore(log: seq<Entry>, n: nat): int
    requires n <= |log|
  {
    if n == 0 then 0 else log[n - 1].seqNo
  }

  /** The rows after the first n of an ascending log are those above the seq of the n-th. */
  lemma AboveIsSuffix(log: seq<Entry>, n: nat)
    requires Ascending(log) && n <= |log|
    ensures Above(log, SeqBefore(log, n)) == log[n..]
  {
    AboveCut(log, n, SeqBefore(log, n));
  }

  const PURGE := "audit.purge"

  /** An entry that records a cut of the chain at (throughSeq, throughHash). */
  predicate RecordsCut(e: Entry, throughSeq: int, throughHash: Hash) {
    e.content.action == PURGE && e.content.metadata.throughHash == Some(throughHash) &&
    e.content.metadata.throughSeq == Some(throughSeq)
  }

  function PurgeAnchor(log: seq<Entry>, first: Entry): Option<Link> {
    if first.prevHash.None? then None
    else if exists e :: e in log && RecordsCut(e, first.seqNo - 1, first.prevHash.value)
    then Some(Link(first.seqNo - 1, first.prevHash.value))
    else None
  }

  datatype Report = Report(checked: nat, firstSeq: Option<int>, lastSeq: Option<int>, fault: Option<Break>)

  function Below(entries: seq<Entry>, bound: int): seq<Entry> {
    if entries == [] then []
    else if entries[0].seqNo < bound then [entries[0]] + Below(entries[1..], bound)
    else Below(entries[1..], bound)
  }

  function Anchor(log: seq<Entry>): Option<Link> {
    AnchorIn(log, log)
  }

  /** Where rows may begin, by the purges that a log records. */
  function AnchorIn(log: seq<Entry>, rows: seq<Entry>): Option<Link> {
    if rows != [] && rows[0].seqNo > 1 then PurgeAnchor(log, rows[0]) else None
  }

  function LastSeq(previous: Option<Link>, entries: seq<Entry>): Option<int> {
    if entries != [] then Some(entries[|entries| - 1].seqNo)
    else if previous.Some? then Some(previous.value.seqNo)
    else None
  }

  /** One pass over rows that may begin at an anchor. */
  function PassFrom(h: HashFn, anchor: Option<Link>, rows: seq<Entry>): Report {
    if rows == [] then Report(0, None, None, None)
    else
      var fault := FindBreak(h, anchor, rows);
      var intact := if fault.Some? then Below(rows, fault.value.seqNo) else rows;
      Report(|intact|, Some(rows[0].seqNo), LastSeq(anchor, intact), fault)
  }

  /** One pass over the whole log. */
  function OnePass(h: HashFn, log: seq<Entry>): Report {
    PassFrom(h, Anchor(log), log)
  }

  /** The specification of the batched verification, which reads the rows above 0, though it looks for purges in all. */
  function VerifiedReport(h: HashFn, log: seq<Entry>): Report {
    PassFrom(h, AnchorIn(log, Above(log, 0)), Above(log, 0))
  }

  lemma {:induction false} BelowCut(log: seq<Entry>, n: nat, bound: int)
    requires n <= |log|
    requires forall i :: 0 <= i < n ==> log[i].seqNo < bound
    requires forall i :: n <= i < |log| ==> log[i].seqNo >= bound
    ensures Below(log, bound) == log[..n]
    decreases |log|
  {
    if log != [] {
      BelowCut(log[1..], if n == 0 then 0 else n - 1, bound);
    }
  }

  lemma FaultIsAtItsEntry(h: HashFn, last: Option<Link>, e: Entry)
    requires FaultOf(h, last, e).Some? && (last.Some? ==> last.value.seqNo < e.seqNo)
    ensures FaultOf(h, last, e).value.seqNo <= e.seqNo
    ensures last.Some? ==> last.value.seqNo < FaultOf(h, last, e).value.seqNo
  {
  }

  lemma AnchorIsBelow(log: seq<Entry>, rows: seq<Entry>)
    ensures AnchorIn(log, rows).Some? ==> IsAnchor(AnchorIn(log, rows), rows)
  {
  }

  predicate IsAnchor(anchor: Option<Link>, rows: seq<Entry>) {
    anchor.Some? ==> rows != [] && anchor.value.seqNo < rows[0].seqNo
  }

  /** A bound between two neighbours of an ascending log parts it there. */
  lemma BoundParts(log: seq<Entry>, m: nat, bound: int)
    requires Ascending(log) && m <= |log|
    requires (m > 0 ==> log[m - 1].seqNo < bound) && (m < |log| ==> bound <= log[m].seqNo)
    ensures forall i :: 0 <= i < m ==> log[i].seqNo < bound
    ensures forall i :: m <= i < |log| ==> log[i].seqNo >= bound
  {
  }

  lemma CutInLog(log: seq<Entry>, m: nat, bound: int)
    requires Ascending(log) && m < |log| && (m > 0 ==> log[m - 1].seqNo < bound) && bound <= log[m].seqNo
    ensures Below(log, bound) == log[..m]
  {
    BoundParts(log, m, bound);
    BelowCut(log, m, bound);
  }

  lemma CutInBatch(log: seq<Entry>, n: nat, size: nat, k: nat, bound: int)
    requires Ascending(log) && n + size <= |log| && k < size
    requires (n + k > 0 ==> log[n + k - 1].seqNo < bound) && bound <= log[n + k].seqNo
    ensures Below(log[n..n + size], bound) == log[n..n + k]
  {
    var batch := log[n..n + size];
    assert log[n..n + size][..k] == log[n..n + k];
    assert batch[k] == log[n + k] && (k > 0 ==> batch[k - 1] == log[n + k - 1]);
    CutInLog(batch, k, bound);
  }

  /** In a batch as in the whole log, the entries numbered below the first fault are those before it. */
  lemma BelowInBatch(h: HashFn, anchor: Option<Link>, log: seq<Entry>, n: nat, size: nat, k: nat)
    requires Ascending(log) && n + size <= |log| && k < size
    requires anchor.Some? ==> anchor.value.seqNo < log[0].seqNo
    requires FaultOf(h, Before(anchor, log, n + k), log[n + k]).Some?
    ensures var bound := FaultOf(h, Before(anchor, log, n + k), log[n + k]).value.seqNo;
      Below(log, bound) == log[..n + k] && Below(log[n..n + size], bound) == log[n..n + k]
  {
    FaultIsAtItsEntry(h, Before(anchor, log, n + k), log[n + k]);
    CutInLog(log, n + k, FaultOf(h, Before(anchor, log, n + k), log[n + k]).value.seqNo);
    CutInBatch(log, n, size, k, FaultOf(h, Before(anchor, log, n + k), log[n + k]).value.seqNo);
  }

  /** Where the first break of a batch is. */
  lemma FirstFaultInBatch(h: HashFn, anchor: Option<Link>, log: seq<Entry>, n: nat, size: nat) returns (k: nat)
    requires n + size <= |log| && FindBreak(h, Before(anchor, log, n), log[n..n + size]).Some?
    ensures k < size
    ensures FindBreak(h, Before(anchor, log, n), log[n..n + size]) == FaultOf(h, Before(anchor, log, n + k), log[n + k])
  {
    k := FindBreakIsFirstFault(h, Before(anchor, log, n), log[n..n + size]);
    assert Before(Before(anchor, log, n), log[n..n + size], k) == Before(anchor, log, n + k);
  }

  /** The report of a log whose first n entries pass and whose next batch does not. */
  lemma BatchFault(h: HashFn, anchor: Option<Link>, log: seq<Entry>, n: nat, size: nat)
    requires Ascending(log) && n < n + size <= |log| && IsAnchor(anchor, log)
    requires FindBreak(h, anchor, log[..n]).None?
    requires FindBreak(h, Before(anchor, log, n), log[n..n + size]).Some?
    ensures PassFrom(h, anchor, log) ==
      BrokenReport(log, n, Before(anchor, log, n), log[n..n + size],
                   FindBreak(h, Before(anchor, log, n), log[n..n + size]).value)
  {
    WholeFault(h, anchor, log, n, size);
    var k := FirstFaultInBatch(h, anchor, log, n, size);
    BelowInBatch(h, anchor, log, n, size, k);
  }

  /** What verifyAuditLog returns on a fault in a batch that follows `checked` entries. */
  function BrokenReport(log: seq<Entry>, checked: nat, previous: Option<Link>, entries: seq<Entry>,
                        fault: Break): Report
    requires log != []
  {
    var intact := Below(entries, fault.seqNo);
    Report(checked + |intact|, Some(log[0].seqNo), LastSeq(previous, intact), Some(fault))
  }

  /** A break found in a batch, after entries that pass, is the break of the whole log. */
  lemma WholeFault(h: HashFn, anchor: Option<Link>, log: seq<Entry>, n: nat, size: nat)
    requires n + size <= |log| && FindBreak(h, anchor, log[..n]).None?
    requires FindBreak(h, Before(anchor, log, n), log[n..n + size]).Some?
    ensures FindBreak(h, anchor, log) == FindBreak(h, Before(anchor, log, n), log[n..n + size])
  {
    assert log == log[..n] + (log[n..n + size] + log[n + size..]);
    assert Before(anchor, log[..n], n) == Before(anchor, log, n);
    FindBreakAppend(h, anchor, log[..n], log[n..n + size] + log[n + size..]);
    FindBreakAppend(h, Before(anchor, log, n), log[n..n + size], log[n + size..]);
  }

  lemma BatchPasses(h: HashFn, anchor: Option<Link>, log: seq<Entry>, n: nat, size: nat)
    requires n + size <= |log| && FindBreak(h, anchor, log[..n]).None?
    requires FindBreak(h, Before(anchor, log, n), log[n..n + size]).None?
    ensures FindBreak(h, anchor, log[..n + size]).None?
  {
    assert log[..n + size] == log[..n] + log[n..n + size];
    assert Before(anchor, log[..n], n) == Before(anchor, log, n);
    FindBreakAppend(h, anchor, log[..n], log[n..n + size]);
  }

  lemma {:induction false} AboveTwice(log: seq<Entry>, low: int, high: int)
    requires low <= high
    ensures Above(Above(log, low), high) == Above(log, high)
  {
    if log != [] {
      AboveTwice(log[1..], low, high);
      assert ([log[0]] + Above(log[1..], low))[1..] == Above(log[1..], low);
    }
  }

  /** The rows above a seq are the log from some row on. */
  lemma {:induction false} AboveStarts(log: seq<Entry>, after: int) returns (n: nat)
    requires Increasing(log)
    ensures n <= |log| && Above(log, after) == log[n..]
    ensures (forall i :: 0 <= i < n ==> log[i].seqNo <= after) && forall i :: n <= i < |log| ==> log[i].seqNo > after
  {
    n := 0;
    while n < |log| && log[n].seqNo <= after
      invariant n <= |log| && forall i :: 0 <= i < n ==> log[i].seqNo <= after
    {
      n := n + 1;
    }
    AboveCut(log, n, after);
  }

  lemma VisibleIsAscending(log: seq<Entry>)
    requires Increasing(log)
    ensures Ascending(Above(log, 0))
  {
    var _ := AboveStarts(log, 0);
  }

  /** The rows a batch query finds after the first `checked` ones. */
  lemma BatchRows(log: seq<Entry>, rows: seq<Entry>, checked: nat, limit: nat)
    requires Increasing(log) && rows == Above(log, 0) && checked <= |rows|
    ensures var entries := Take(Above(log, SeqBefore(rows, checked)), limit);
      && |entries| == (if |rows| - checked <= limit then |rows| - checked else limit)
      && entries == rows[checked..checked + |entries|]
  {
    VisibleIsAscending(log);
    AboveTwice(log, 0, SeqBefore(rows, checked));
    AboveIsSuffix(rows, checked);
  }

  /** The batch query: rows above a seq, ascending, at most `limit` of them. */
  method ReadBatch(log: seq<Entry>, afterSeq: int, limit: nat, ghost visible: seq<Entry>, ghost n: nat)
    returns (rows: seq<Entry>)
    requires Increasing(log) && visible == Above(log, 0) && n <= |visible| && afterSeq == SeqBefore(visible, n)
    ensures |rows| == if |visible| - n <= limit then |visible| - n else limit
    ensures rows == visible[n..n + |rows|]
  {
    BatchRows(log, visible, n, limit);
    rows := Take(Above(log, afterSeq), limit);
  }

  /** The state of the loop after `checked` of the rows passed. */
  ghost predicate Passed(h: HashFn, log: seq<Entry>, rows: seq<Entry>, checked: nat, afterSeq: int,
                         firstSeq: Option<int>, previous: Option<Link>)
  {
    && checked <= |rows| && afterSeq == SeqBefore(rows, checked)
    && firstSeq == (if checked == 0 then None else Some(rows[0].seqNo))
    && previous == (if checked == 0 then None else Some(LinkOf(rows[checked - 1])))
    && FindBreak(h, AnchorIn(log, rows), rows[..checked]).None?
  }

  lemma PassedAll(h: HashFn, log: seq<Entry>, rows: seq<Entry>, afterSeq: int, firstSeq: Option<int>,
                  previous: Option<Link>)
    requires rows == Above(log, 0) && Passed(h, log, rows, |rows|, afterSeq, firstSeq, previous)
    ensures VerifiedReport(h, log) ==
      Report(|rows|, firstSeq, if previous.Some? then Some(previous.value.seqNo) else None, None)
  {
    assert rows[..|rows|] == rows;
  }

  /** A batch in hand, with the link it must follow and the number the rows start with. */
  ghost predicate InHand(h: HashFn, log: seq<Entry>, rows: seq<Entry>, checked: nat, entries: seq<Entry>,
                         firstSeq: Option<int>, previous: Option<Link>)
  {
    && entries != [] && checked + |entries| <= |rows| && entries == rows[checked..checked + |entries|]
    && previous == Before(AnchorIn(log, rows), rows, checked) && firstSeq == Some(rows[0].seqNo)
    && FindBreak(h, AnchorIn(log, rows), rows[..checked]).None?
  }

  /** Before a batch is checked, `previous` is the link it must follow: for the first batch, the anchor. */
  lemma BatchStarts(h: HashFn, log: seq<Entry>, rows: seq<Entry>, checked: nat, entries: seq<Entry>, afterSeq: int,
                    firstSeq: Option<int>, previous: Option<Link>, firstSeq': Option<int>, previous': Option<Link>)
    requires Passed(h, log, rows, checked, afterSeq, firstSeq, previous)
    requires entries != [] && checked + |entries| <= |rows| && entries == rows[checked..checked + |entries|]
    requires firstSeq' == if firstSeq.None? then Some(entries[0].seqNo) else firstSeq
    requires previous' == if firstSeq.None? && entries[0].seqNo > 1 then PurgeAnchor(log, entries[0]) else previous
    ensures InHand(h, log, rows, checked, entries, firstSeq', previous')
  {
  }

  lemma BatchAdvances(h: HashFn, log: seq<Entry>, rows: seq<Entry>, checked: nat, entries: seq<Entry>,
                      firstSeq: Option<int>, previous: Option<Link>, last: Entry)
    requires InHand(h, log, rows, checked, entries, firstSeq, previous)
    requires FindBreak(h, previous, entries).None? && last == entries[|entries| - 1]
    ensures Passed(h, log, rows, checked + |entries|, last.seqNo, firstSeq, Some(LinkOf(last)))
  {
    BatchPasses(h, AnchorIn(log, rows), rows, checked, |entries|);
  }

  /** The fault of a batch that follows rows which pass. */
  lemma FaultyRows(h: HashFn, anchor: Option<Link>, rows: seq<Entry>, checked: nat, size: nat, entries: seq<Entry>,
                   previous: Option<Link>, fault: Option<Break>)
    requires Ascending(rows) && size > 0 && checked + size <= |rows| && entries == rows[checked..checked + size]
    requires IsAnchor(anchor, rows) && previous == Before(anchor, rows, checked)
    requires FindBreak(h, anchor, rows[..checked]).None? && fault == FindBreak(h, previous, entries) && fault.Some?
    ensures PassFrom(h, anchor, rows) == BrokenReport(rows, checked, previous, entries, fault.value)
  {
    BatchFault(h, anchor, rows, checked, size);
  }

  lemma FaultyBatch(h: HashFn, log: seq<Entry>, rows: seq<Entry>, checked: nat, entries: seq<Entry>,
                    firstSeq: Option<int>, previous: Option<Link>, fault: Option<Break>)
    requires Increasing(log) && rows == Above(log, 0) && InHand(h, log, rows, checked, entries, firstSeq, previous)
    requires fault == FindBreak(h, previous, entries) && fault.Some?
    ensures var intact := Below(entries, fault.value.seqNo);
      VerifiedReport(h, log) == Report(checked + |intact|, firstSeq, LastSeq(previous, intact), fault)
  {
    var anchor := AnchorIn(log, rows);
    VisibleIsAscending(log);
    AnchorIsBelow(log, rows);
    FaultyRows(h, anchor, rows, checked, |entries|, entries, previous, fault);
    assert VerifiedReport(h, log) == PassFrom(h, anchor, rows);
  }

  /** verifyAuditLog reads any log in batches, and reports what one pass over the rows above 0 would. */
  method VerifyAuditLog(h: HashFn, log: seq<Entry>, batchSize: nat) returns (report: Report)
    requires Increasing(log) && batchSize >= 1
    ensures report == VerifiedReport(h, log)
  {
    var previous: Option<Link>, afterSeq, firstSeq: Option<int>, checked: nat := None, 0, None, 0;
    ghost var rows := Above(log, 0);
    while true
      invariant Passed(h, log, rows, checked, afterSeq, firstSeq, previous)
      decreases |rows| - checked
    {
      var entries := ReadBatch(log, afterSeq, batchSize, rows, checked);
      if |entries| == 0 {
        break;
      }
      var first := entries[0];
      ghost var firstSeqWas, previousWas := firstSeq, previous;
      if firstSeq.None? {
        firstSeq := Some(first.seqNo);
        if first.seqNo > 1 {
          previous := PurgeAnchor(log, first);
        }
      }
      BatchStarts(h, log, rows, checked, entries, afterSeq, firstSeqWas, previousWas, firstSeq, previous);
      var fault := FindChainBreak(h, previous, entries);
      if fault.Some? {
        var intact := Below(entries, fault.value.seqNo);
        FaultyBatch(h, log, rows, checked, entries, firstSeq, previous, fault);
        return Report(checked + |intact|, firstSeq, LastSeq(previous, intact), fault);
      }
      var last := entries[|entries| - 1];
      BatchAdvances(h, log, rows, checked, entries, firstSeq, previous, last);
      checked := checked + |entries|;
      previous := Some(Link(last.seqNo, last.hash));
      afterSeq := last.seqNo;
      if |entries| < batchSize {
        break;
      }
    }
    PassedAll(h, log, rows, afterSeq, firstSeq, previous);
    return Report(checked, firstSeq, if previous.Some? then Some(previous.value.seqNo) else None, None);
  }

  /**
   The report of a pass, by the first faulty row k: the k rows before it are checked, and the report ends
   with the last of them, or, if there is none, with the anchor.
   */
  lemma ReportExactly(h: HashFn, anchor: Option<Link>, rows: seq<Entry>) returns (k: nat)
    requires Ascending(rows) && IsAnchor(anchor, rows) && rows != []
    ensures k <= |rows| && Intact(h, anchor, rows[..k])
    ensures k < |rows| ==> FaultOf(h, Before(anchor, rows, k), rows[k]).Some?
    ensures var report := PassFrom(h, anchor, rows);
      && report.checked == k && report.firstSeq == Some(rows[0].seqNo)
      && report.fault == (if k < |rows| then FaultOf(h, Before(anchor, rows, k), rows[k]) else None)
      && report.lastSeq ==
           if k > 0 then Some(rows[k - 1].seqNo) else if anchor.Some? then Some(anchor.value.seqNo) else None
  {
    k := FindBreakIsFirstFault(h, anchor, rows);
    if k < |rows| {
      assert rows[0..|rows|] == rows && rows[0..k] == rows[..k] && 0 + k == k;
      BelowInBatch(h, anchor, rows, 0, |rows|, k);
    }
  }

  /** Rows that begin past 1 are anchored exactly by a purge entry that records the number and hash before them. */
  lemma AnchoredExactly(log: seq<Entry>, rows: seq<Entry>)
    ensures AnchorIn(log, rows).Some? <==>
      && rows != [] && rows[0].seqNo > 1 && rows[0].prevHash.Some?
      && exists e :: e in log && e.content.action == "audit.purge" &&
           e.content.metadata.throughSeq == Some(rows[0].seqNo - 1) &&
           e.content.metadata.throughHash == rows[0].prevHash
    ensures AnchorIn(log, rows).Some? ==>
      AnchorIn(log, rows).value.seqNo == rows[0].seqNo - 1 && Some(AnchorIn(log, rows).value.hash) == rows[0].prevHash
  {
    if rows != [] && rows[0].prevHash.Some? {
      forall e ensures RecordsCut(e, rows[0].seqNo - 1, rows[0].prevHash.value) <==>
        e.content.action == "audit.purge" && e.content.metadata.throughSeq == Some(rows[0].seqNo - 1) &&
        e.content.metadata.throughHash == rows[0].prevHash
      {
      }
    }
  }

  // ---- Rows numbered below 1, which no trigger writes ----

  /**
   The report is that of one pass over the whole log exactly when no row is numbered below 1. One
   pass would always fault such a row; verifyAuditLog never reads it.
   */
  lemma WholeLogIsReadExactly(h: HashFn, log: seq<Entry>)
    requires Increasing(log)
    ensures VerifiedReport(h, log) == OnePass(h, log) <==> Ascending(log)
    ensures !Ascending(log) ==> OnePass(h, log).fault == Some(Break(log[0].seqNo, Unanchored))
  {
    var n := AboveStarts(log, 0);
    if n == 0 {
      assert log[0..] == log;
    } else {
      assert log[0].seqNo < 1 && !Ascending(log);
      assert n < |log| ==> log[n..][0].seqNo > 0;
    }
  }

  /** Some entry of a list records the cut before the first of the rows. */
  predicate Explains(log: seq<Entry>, rows: seq<Entry>) {
    rows != [] && rows[0].seqNo > 1 && rows[0].prevHash.Some? &&
    exists e :: e in log && RecordsCut(e, rows[0].seqNo - 1, rows[0].prevHash.value)
  }

  lemma ExplainedIsAnchored(log: seq<Entry>, rows: seq<Entry>)
    ensures AnchorIn(log, rows) ==
      if Explains(log, rows) then Some(Link(rows[0].seqNo - 1, rows[0].prevHash.value)) else None
  {
  }

  lemma UnexplainedIsFaulty(h: HashFn, rows: seq<Entry>, anchor: Link)
    requires rows != [] && rows[0].seqNo > 1
    ensures FindBreak(h, None, rows) == Some(Break(rows[0].seqNo, Unanchored))
    ensures anchor.seqNo == rows[0].seqNo - 1 ==> PassFrom(h, None, rows) != PassFrom(h, Some(anchor), rows)
  {
    var k := FindBreakIsFirstFault(h, Some(anchor), rows);
    assert FaultOf(h, None, rows[0]) == Some(Break(rows[0].seqNo, Unanchored));
  }

  /**
   A row it never reads can still pass for the purge that explains where the rows begin. It counts
   exactly when some row numbered below 1, and no row above 0, records the cut before the first of them.
   */
  lemma HiddenRowsCountExactly(h: HashFn, log: seq<Entry>)
    ensures var rows := Above(log, 0);
      VerifiedReport(h, log) != OnePass(h, rows) <==>
        && rows != [] && rows[0].seqNo > 1 && rows[0].prevHash.Some?
        && (exists e :: e in log && e.seqNo < 1 && RecordsCut(e, rows[0].seqNo - 1, rows[0].prevHash.value))
        && !exists e :: e in rows && RecordsCut(e, rows[0].seqNo - 1, rows[0].prevHash.value)
  {
    AboveIsPart(log, 0);
    HiddenRowsMatter(h, log, Above(log, 0));
  }

  lemma HiddenRowsMatter(h: HashFn, log: seq<Entry>, rows: seq<Entry>)
    requires forall e :: e in rows ==> e in log
    ensures PassFrom(h, AnchorIn(log, rows), rows) != PassFrom(h, Anchor(rows), rows) <==>
      Explains(log, rows) && !Explains(rows, rows)
  {
    ExplainedIsAnchored(log, rows);
    ExplainedIsAnchored(rows, rows);
    if Explains(log, rows) && !Explains(rows, rows) {
      UnexplainedIsFaulty(h, rows, Link(rows[0].seqNo - 1, rows[0].prevHash.value));
    }
  }

  lemma {:induction false} AboveIsPart(log: seq<Entry>, after: int)
    ensures forall e :: e in Above(log, after) <==> e in log && e.seqNo > after
  {
    if log != [] {
      AboveIsPart(log[1..], after);
    }
  }

  /** Such a row: numbered 0, recording a cut at 1, it makes a log that starts at 2 verify clean. */
  lemma HiddenPurgeAnchors(h: HashFn, content: Content, gone: Hash) returns (log: seq<Entry>)
    ensures Increasing(log) && VerifiedReport(h, log).fault.None?
    ensures OnePass(h, Above(log, 0)).fault == Some(Break(2, Unanchored))
  {
    var cut := content.(action := PURGE, metadata := Metadata(Some(1), Some(gone), ""));
    var forged := Entry(0, None, "", cut, None);
    var plain := content.(action := "", metadata := Metadata(None, None, ""));
    var entry := Entry(2, Some(gone), h(Some(gone), 2, plain), plain, None);
    log := [forged, entry];
    assert log[1..] == [entry] && Above([entry][1..], 0) == [] && Above([entry], 0) == [entry];
    assert Above(log, 0) == [entry] && forged in log && RecordsCut(forged, 1, gone);
    assert AnchorIn(log, [entry]) == Some(Link(1, gone)) && FaultOf(h, Some(Link(1, gone)), entry).None?;
    assert [entry][1..] == [] && FindBreak(h, Some(LinkOf(entry)), [entry][1..]).None?;
    assert !RecordsCut(entry, 1, gone);
  }

  // ---- Tamper evidence ----

  ghost predicate Injective(h: HashFn) {
    forall p, s, c, p', s', c' :: h(p, s, c) == h(p', s', c') ==> p == p' && s == s' && c == c'
  }

  /** Equal in everything the hash covers, and in the hash. */
  predicate SameHashed(a: Entry, b: Entry) {
    a.seqNo == b.seqNo && a.prevHash == b.prevHash && a.hash == b.hash && a.content == b.content
  }

  lemma IntactPrefix(h: HashFn, previous: Option<Link>, a: seq<Entry>, n: nat)
    requires Intact(h, previous, a) && n <= |a|
    ensures Intact(h, previous, a[..n])
  {
    forall i | 0 <= i < n ensures Fits(h, previous, a[..n], i) {
      assert Fits(h, previous, a, i);
    }
  }

  /** What an entry of an intact chain satisfies, spelled out. */
  lemma EntryOfIntact(h: HashFn, previous: Option<Link>, a: seq<Entry>, i: nat)
    requires Intact(h, previous, a) && i < |a|
    ensures a[i].hash == ExpectedHash(h, a[i])
    ensures i > 0 ==> a[i].seqNo == a[i - 1].seqNo + 1 && a[i].prevHash == Some(a[i - 1].hash)
    ensures i == 0 ==> a[i].seqNo == (if previous.Some? then previous.value.seqNo else 0) + 1
  {
    assert Fits(h, previous, a, i);
  }

  lemma SameHashSameFields(h: HashFn, x: Entry, y: Entry)
    requires Injective(h) && x.hash == ExpectedHash(h, x) && y.hash == ExpectedHash(h, y) && x.hash == y.hash
    ensures SameHashed(x, y)
  {
  }

  lemma {:induction false} SameEndSameChain(h: HashFn, previous: Option<Link>, a: seq<Entry>, b: seq<Entry>)
    requires Injective(h) && Intact(h, previous, a) && Intact(h, previous, b)
    requires |a| == |b| > 0 && a[|a| - 1].hash == b[|b| - 1].hash
    ensures forall i :: 0 <= i < |a| ==> SameHashed(a[i], b[i]) && a[i].(actorId := None) == b[i].(actorId := None)
    decreases |a|
  {
    var n := |a| - 1;
    EntryOfIntact(h, previous, a, n);
    EntryOfIntact(h, previous, b, n);
    SameHashSameFields(h, a[n], b[n]);
    if n > 0 {
      IntactPrefix(h, previous, a, n);
      IntactPrefix(h, previous, b, n);
      SameEndSameChain(h, previous, a[..n], b[..n]);
      forall i | 0 <= i < n ensures SameHashed(a[i], b[i]) && a[i].(actorId := None) == b[i].(actorId := None) {
        assert SameHashed(a[..n][i], b[..n][i]);
      }
    }
  }

  lemma {:induction false} IntactIsContiguous(h: HashFn, previous: Option<Link>, a: seq<Entry>, i: nat)
    requires Intact(h, previous, a) && i < |a|
    ensures a[i].seqNo == (if previous.Some? then previous.value.seqNo else 0) + 1 + i
  {
    EntryOfIntact(h, previous, a, i);
    if i > 0 {
      IntactIsContiguous(h, previous, a, i - 1);
    }
  }

  lemma SameLength(h: HashFn, previous: Option<Link>, a: seq<Entry>, b: seq<Entry>)
    requires Intact(h, previous, a) && Intact(h, previous, b) && a != [] && b != []
    requires a[|a| - 1].seqNo == b[|b| - 1].seqNo
    ensures |a| == |b|
  {
    IntactIsContiguous(h, previous, a, |a| - 1);
    IntactIsContiguous(h, previous, b, |b| - 1);
  }

  lemma PassedIsIntact(h: HashFn, previous: Option<Link>, a: seq<Entry>)
    requires FindBreak(h, previous, a).None?
    ensures Intact(h, previous, a)
  {
    var _ := FindBreakIsFirstFault(h, previous, a);
  }

  /**
   Tamper evidence: two chains that both pass from one anchor and end in the same entry number and
   hash agree on every hashed field of every entry. So nothing before a known tip can be added,
   removed, reordered or edited without the check finding it.
   */
  lemma TamperingIsFound(h: HashFn, previous: Option<Link>, a: seq<Entry>, b: seq<Entry>)
    requires Injective(h) && a != [] && b != []
    requires LinkOf(a[|a| - 1]) == LinkOf(b[|b| - 1])
    requires FindBreak(h, previous, a).None? && FindBreak(h, previous, b).None?
    ensures |a| == |b| && forall i :: 0 <= i < |a| ==> a[i].(actorId := None) == b[i].(actorId := None)
  {
    PassedIsIntact(h, previous, a);
    PassedIsIntact(h, previous, b);
    SameLength(h, previous, a, b);
    SameEndSameChain(h, previous, a, b);
  }
}
