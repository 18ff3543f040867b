/**
 verifyAuditLog beside everything else that happens to the log (backend/src/services/audit.ts): each of
 its queries is a step of its own, and entries are appended, purged and erased in between.
 */
module AuditWatch {
  import opened Arith
  import opened Options
  import opened AuditChain
  import opened AuditRetention

  // ---- The verifier between two queries ----

  datatype Verifier =
    | Reading(checked: nat, afterSeq: int, firstSeq: Option<int>, previous: Option<Link>)
    | Anchoring(entries: seq<Entry>)
    | Done(report: Report)

  const START := Reading(0, 0, None, None)

  function SeqOf(previous: Option<Link>): Option<int> {
    if previous.Some? then Some(previous.value.seqNo) else None
  }

  /** What becomes of a batch once the link it must follow is known. */
  function Check(h: HashFn, limit: nat, checked: nat, firstSeq: int, previous: Option<Link>,
                 entries: seq<Entry>): Verifier
    requires entries != []
  {
    var fault := FindBreak(h, previous, entries);
    if fault.Some? then
      var intact := Below(entries, fault.value.seqNo);
      Done(Report(checked + |intact|, Some(firstSeq), LastSeq(previous, intact), fault))
    else
      var last := LinkOf(entries[|entries| - 1]);
      if |entries| < limit then Done(Report(checked + |entries|, Some(firstSeq), Some(last.seqNo), None))
      else Reading(checked + |entries|, last.seqNo, Some(firstSeq), Some(last))
  }

  /** One query, of the next batch or of the purge that explains the first one, and what follows from it. */
  function Query(h: HashFn, limit: nat, v: Verifier, log: seq<Entry>): Verifier {
    match v
    case Reading(checked, afterSeq, firstSeq, previous) =>
      var entries := Take(Above(log, afterSeq), limit);
      if entries == [] then Done(Report(checked, firstSeq, SeqOf(previous), None))
      else if firstSeq.None? && entries[0].seqNo > 1 then Anchoring(entries)
      else Check(h, limit, checked, if firstSeq.Some? then firstSeq.value else entries[0].seqNo, previous, entries)
    case Anchoring(entries) =>
      if entries == [] then v else Check(h, limit, 0, entries[0].seqNo, PurgeAnchor(log, entries[0]), entries)
    case Done(_) => v
  }

  datatype Event = Queried | Changed(step: Step)

  /** The log and the verifier after some events. */
  function Watch(h: HashFn, limit: nat, log: seq<Entry>, v: Verifier, events: seq<Event>): (seq<Entry>, Verifier)
    decreases |events|
  {
    if events == [] then (log, v)
    else match events[0]
      case Queried => Watch(h, limit, log, Query(h, limit, v, log), events[1..])
      case Changed(step) => Watch(h, limit, Next(h, log, step), v, events[1..])
  }

  // ---- A log that stands still ----

  function Queries(h: HashFn, limit: nat, log: seq<Entry>, v: Verifier, n: nat): Verifier
    decreases n
  {
    if n == 0 then v else Queries(h, limit, log, Query(h, limit, v, log), n - 1)
  }

  lemma {:induction false} DoneStays(h: HashFn, limit: nat, log: seq<Entry>, v: Verifier, n: nat)
    requires v.Done?
    ensures Queries(h, limit, log, v, n) == v
  {
    if n > 0 {
      DoneStays(h, limit, log, v, n - 1);
    }
  }

  ghost predicate OnTheWay(h: HashFn, log: seq<Entry>, rows: seq<Entry>, v: Verifier) {
    v.Reading? && Passed(h, log, rows, v.checked, v.afterSeq, v.firstSeq, v.previous)
  }

  /** A batch that follows entries which pass: its fault is the report's, or the loop goes on, or it is done. */
  lemma CheckIsReport(h: HashFn, limit: nat, log: seq<Entry>, rows: seq<Entry>, checked: nat, entries: seq<Entry>,
                      firstSeq: int, previous: Option<Link>)
    requires Increasing(log) && rows == Above(log, 0) &&
      InHand(h, log, rows, checked, entries, Some(firstSeq), previous)
    requires |entries| == if |rows| - checked <= limit then |rows| - checked else limit
    ensures var v := Check(h, limit, checked, firstSeq, previous, entries);
      || v == Done(VerifiedReport(h, log))
      || (OnTheWay(h, log, rows, v) && v.checked == checked + |entries|)
  {
    var fault := FindBreak(h, previous, entries);
    if fault.Some? {
      FaultyBatch(h, log, rows, checked, entries, Some(firstSeq), previous, fault);
    } else {
      var last := entries[|entries| - 1];
      BatchAdvances(h, log, rows, checked, entries, Some(firstSeq), previous, last);
      if |entries| < limit {
        PassedAll(h, log, rows, last.seqNo, Some(firstSeq), Some(LinkOf(last)));
      }
    }
  }

  /** The next batch, checked against the link it must follow. */
  lemma NextBatch(h: HashFn, limit: nat, log: seq<Entry>, rows: seq<Entry>, v: Verifier)
    returns (entries: seq<Entry>, firstSeq: int, previous: Option<Link>)
    requires Increasing(log) && rows == Above(log, 0) && limit >= 1
    requires OnTheWay(h, log, rows, v) && v.checked < |rows|
    ensures entries == Take(Above(log, v.afterSeq), limit) && entries != []
    ensures firstSeq == if v.firstSeq.None? then entries[0].seqNo else v.firstSeq.value
    ensures previous == if v.firstSeq.None? && entries[0].seqNo > 1 then PurgeAnchor(log, entries[0]) else v.previous
    ensures v.firstSeq.None? ==> v.checked == 0
    ensures var w := Check(h, limit, v.checked, firstSeq, previous, entries);
      || w == Done(VerifiedReport(h, log))
      || (OnTheWay(h, log, rows, w) && v.checked < w.checked <= |rows|)
  {
    entries := Take(Above(log, v.afterSeq), limit);
    BatchRows(log, rows, v.checked, limit);
    firstSeq := if v.firstSeq.None? then entries[0].seqNo else v.firstSeq.value;
    previous := if v.firstSeq.None? && entries[0].seqNo > 1 then PurgeAnchor(log, entries[0]) else v.previous;
    BatchStarts(h, log, rows, v.checked, entries, v.afterSeq, v.firstSeq, v.previous, Some(firstSeq), previous);
    CheckIsReport(h, limit, log, rows, v.checked, entries, firstSeq, previous);
  }

  lemma OneQuery(h: HashFn, limit: nat, log: seq<Entry>, v: Verifier)
    ensures Queries(h, limit, log, v, 1) == Query(h, limit, v, log)
    ensures Queries(h, limit, log, v, 2) == Query(h, limit, Query(h, limit, v, log), log)
  {
    var w := Query(h, limit, v, log);
    assert Queries(h, limit, log, w, 0) == w && Queries(h, limit, log, w, 1) == Query(h, limit, w, log);
  }

  lemma NoBatchLeft(h: HashFn, limit: nat, log: seq<Entry>, rows: seq<Entry>, v: Verifier)
    requires Increasing(log) && rows == Above(log, 0)
    requires OnTheWay(h, log, rows, v) && v.checked == |rows|
    ensures Query(h, limit, v, log) == Done(VerifiedReport(h, log))
  {
    BatchRows(log, rows, v.checked, limit);
    PassedAll(h, log, rows, v.afterSeq, v.firstSeq, v.previous);
  }

  lemma TwoQueries(h: HashFn, limit: nat, log: seq<Entry>, rows: seq<Entry>, v: Verifier) returns (w: Verifier, k: nat)
    requires Increasing(log) && rows == Above(log, 0) && limit >= 1
    requires OnTheWay(h, log, rows, v)
    ensures 1 <= k <= 2 && w == Queries(h, limit, log, v, k)
    ensures w == Done(VerifiedReport(h, log)) || (OnTheWay(h, log, rows, w) && v.checked < w.checked <= |rows|)
  {
    OneQuery(h, limit, log, v);
    w, k := Query(h, limit, v, log), 1;
    if v.checked == |rows| {
      NoBatchLeft(h, limit, log, rows, v);
    } else {
      var entries, firstSeq, previous := NextBatch(h, limit, log, rows, v);
      if v.firstSeq.None? && entries[0].seqNo > 1 {
        w, k := Query(h, limit, w, log), 2;
      }
    }
  }

  lemma Onward(h: HashFn, limit: nat, log: seq<Entry>, rows: seq<Entry>, v: Verifier, n: nat)
    returns (w: Verifier, left: nat)
    requires Increasing(log) && rows == Above(log, 0) && limit >= 1 && OnTheWay(h, log, rows, v) && n >= 2
    ensures Queries(h, limit, log, v, n) == Queries(h, limit, log, w, left) && n - 2 <= left < n
    ensures w == Done(VerifiedReport(h, log)) || (OnTheWay(h, log, rows, w) && v.checked < w.checked <= |rows|)
  {
    var k: nat;
    w, k := TwoQueries(h, limit, log, rows, v);
    left := n - k;
    assert Queries(h, limit, log, v, n) == Queries(h, limit, log, w, left) by {
      QueriesAdd(h, limit, log, v, k, left);
    }
  }

  lemma {:induction false} StillFrom(h: HashFn, limit: nat, log: seq<Entry>, rows: seq<Entry>, v: Verifier, n: nat,
                                     ahead: nat)
    requires Increasing(log) && rows == Above(log, 0) && limit >= 1 && OnTheWay(h, log, rows, v)
    requires ahead == |rows| - v.checked && n >= 2 * ahead + 2
    ensures Queries(h, limit, log, v, n) == Done(VerifiedReport(h, log))
    decreases ahead
  {
    var w, left := Onward(h, limit, log, rows, v, n);
    if w.Done? {
      DoneStays(h, limit, log, w, left);
    } else {
      StillFrom(h, limit, log, rows, w, left, |rows| - w.checked);
    }
  }

  lemma {:induction false} QueriesAdd(h: HashFn, limit: nat, log: seq<Entry>, v: Verifier, k: nat, n: nat)
    ensures Queries(h, limit, log, v, k + n) == Queries(h, limit, log, Queries(h, limit, log, v, k), n)
    decreases k
  {
    if k > 0 {
      QueriesAdd(h, limit, log, Query(h, limit, v, log), k - 1, n);
    }
  }

  /** On any log that stands still, two queries a row and two more give the report of one pass. */
  lemma StillLogIsReportedInOnePass(h: HashFn, limit: nat, log: seq<Entry>, n: nat)
    requires Increasing(log) && limit >= 1 && n >= 2 * |log| + 2
    ensures Queries(h, limit, log, START, n) == Done(VerifiedReport(h, log))
  {
    AboveIsShorter(log, 0);
    assert Above(log, 0)[..0] == [];
    StillFrom(h, limit, log, Above(log, 0), START, n, |Above(log, 0)|);
  }

  lemma {:induction false} AboveIsShorter(log: seq<Entry>, after: int)
    ensures |Above(log, after)| <= |log|
  {
    if log != [] {
      AboveIsShorter(log[1..], after);
    }
  }

  // ---- An honest log that does not ----

  /** The link is one of the log's, or was before it was cut away. */
  ghost predicate KnowsLink(log: seq<Entry>, link: Link) {
    && 1 <= link.seqNo <= Tip(log)
    && (forall e :: e in log && e.seqNo == link.seqNo ==> e.hash == link.hash)
    && (forall e :: e in log && e.seqNo == link.seqNo + 1 ==> e.prevHash == Some(link.hash))
  }

  /** Entries that stood next to each other in a sealed log. */
  ghost predicate Consecutive(h: HashFn, entries: seq<Entry>) {
    forall i :: 0 <= i < |entries| ==> Linked(h, entries, i)
  }

  /** A report without a fault has checked every number from its first to its last, which is not below the tip. */
  predicate Complete(report: Report, tip: int) {
    report.fault.None? ==>
      if report.lastSeq.None? then report.checked == 0 && tip == 0
      else report.firstSeq.Some? && report.lastSeq.value >= tip &&
           report.checked == report.lastSeq.value - report.firstSeq.value + 1
  }

  /** What the verifier remembers of an honest log whose tip it was when it began. */
  ghost predicate Knows(h: HashFn, limit: nat, log: seq<Entry>, v: Verifier, tip: int) {
    0 <= tip <= Tip(log) &&
    match v
    case Reading(checked, afterSeq, firstSeq, previous) =>
      if firstSeq.None? then v == START
      else previous.Some? && previous.value.seqNo == afterSeq && checked == afterSeq - firstSeq.value + 1 &&
           KnowsLink(log, previous.value)
    case Anchoring(entries) =>
      && entries != [] && entries[0].seqNo > 1 && entries[0].prevHash.Some? && Consecutive(h, entries)
      && KnowsLink(log, LinkOf(entries[|entries| - 1]))
      && (|entries| < limit ==> tip <= entries[|entries| - 1].seqNo)
    case Done(report) => Complete(report, tip)
  }

  lemma SealKeepsLink(h: HashFn, log: seq<Entry>, link: Link, content: Content, actorId: Option<string>)
    requires KnowsLink(log, link) && log != []
    ensures KnowsLink(Seal(h, log, content, actorId), link)
  {
    assert log[|log| - 1] in log;
  }

  lemma CutKeepsLink(log: seq<Entry>, link: Link, n: nat)
    requires KnowsLink(log, link) && n < |log|
    ensures KnowsLink(log[n..], link) && Tip(log[n..]) == Tip(log)
  {
  }

  lemma EraseKeepsLink(log: seq<Entry>, link: Link, user: string)
    requires KnowsLink(log, link)
    ensures KnowsLink(EraseActor(log, user), link)
  {
    var log' := EraseActor(log, user);
    forall e | e in log'
      ensures exists d :: d in log && d.seqNo == e.seqNo && d.hash == e.hash && d.prevHash == e.prevHash
    {
      var i :| 0 <= i < |log'| && log'[i] == e;
      assert log[i] in log;
    }
  }

  lemma StepKeepsLink(h: HashFn, log: seq<Entry>, link: Link, step: Step)
    requires Sealed(h, log) && KnowsLink(log, link)
    ensures KnowsLink(Next(h, log, step), link)
  {
    match step
    case Append(content, actorId) => SealKeepsLink(h, log, link, content, actorId);
    case PurgeRun(retentionDays, now, entry) =>
      var n := PurgeCount(log, now - retentionDays * DAY_MS);
      PurgeEffect(h, log, retentionDays, now, entry);
      CutKeepsLink(log, link, n);
      if n > 0 {
        SealKeepsLink(h, log[n..], link, CutContent(entry, log[n - 1]), None);
      }
    case Erase(user) => EraseKeepsLink(log, link, user);
  }

  lemma StepKeepsKnows(h: HashFn, limit: nat, log: seq<Entry>, v: Verifier, tip: int, step: Step)
    requires Sealed(h, log) && Knows(h, limit, log, v, tip)
    ensures Sealed(h, Next(h, log, step)) && Knows(h, limit, Next(h, log, step), v, tip)
  {
    StepRaisesTip(h, log, step);
    if v.Reading? && v.firstSeq.Some? {
      StepKeepsLink(h, log, v.previous.value, step);
    } else if v.Anchoring? {
      StepKeepsLink(h, log, LinkOf(v.entries[|v.entries| - 1]), step);
    }
  }

  /** The next query comes in time: nothing unread was cut, or the purge that explains the beginning is still there. */
  ghost predicate InTime(log: seq<Entry>, v: Verifier) {
    match v
    case Reading(_, afterSeq, firstSeq, _) => firstSeq.Some? && log != [] ==> log[0].seqNo <= afterSeq + 1
    case Anchoring(entries) => entries != [] && PurgeAnchor(log, entries[0]).Some?
    case Done(_) => true
  }

  /** Consecutive entries pass once the first of them does. */
  lemma ConsecutivePasses(h: HashFn, previous: Option<Link>, entries: seq<Entry>)
    requires entries != [] && Consecutive(h, entries) && FaultOf(h, previous, entries[0]).None?
    ensures FindBreak(h, previous, entries).None?
  {
    forall i | 0 <= i < |entries| ensures Fits(h, previous, entries, i) {
      assert Linked(h, entries, i);
      if i > 0 {
        assert Linked(h, entries, i - 1);
      }
    }
    var _ := FindBreakIsFirstFault(h, previous, entries);
  }

  /** Where the rows above a number begin in a sealed log. */
  lemma AboveInSealed(h: HashFn, log: seq<Entry>, after: int) returns (n: nat)
    requires Sealed(h, log) && 0 <= after
    ensures n <= |log| && Above(log, after) == log[n..]
    ensures n == |log| <==> Tip(log) <= after
    ensures n < |log| ==> log[n].seqNo == Max(log[0].seqNo, after + 1)
    ensures n < |log| && after < log[0].seqNo ==> n == 0
  {
    SealedIsAscending(h, log);
    n := if log == [] || after < log[0].seqNo then 0 else Min(|log|, after - log[0].seqNo + 1);
    forall i | 0 <= i < |log| ensures log[i].seqNo == log[0].seqNo + i {
      assert Linked(h, log, i);
    }
    AboveCut(log, n, after);
  }

  lemma PartIsConsecutive(h: HashFn, log: seq<Entry>, n: nat, size: nat)
    requires Sealed(h, log) && n + size <= |log|
    ensures Consecutive(h, log[n..n + size])
    ensures size > 0 ==> log[n + size - 1].seqNo == log[n].seqNo + size - 1
  {
    var part := log[n..n + size];
    forall i | 0 <= i < size ensures Linked(h, part, i) {
      assert Linked(h, log, n + i) && Linked(h, log, n);
    }
    if size > 0 {
      assert Linked(h, log, n + size - 1) && Linked(h, log, n);
    }
  }

  /** A batch of a sealed log: consecutive entries, the last of which the log then knows. */
  lemma BatchOfSealed(h: HashFn, limit: nat, log: seq<Entry>, after: int) returns (entries: seq<Entry>)
    requires Sealed(h, log) && 0 <= after && limit >= 1
    ensures entries == Take(Above(log, after), limit)
    ensures entries == [] <==> Tip(log) <= after
    ensures entries != [] ==>
      && Consecutive(h, entries) && entries[0] in log && log != []
      && entries[0].seqNo == Max(log[0].seqNo, after + 1)
      && entries[|entries| - 1].seqNo == entries[0].seqNo + |entries| - 1
      && KnowsLink(log, LinkOf(entries[|entries| - 1]))
      && (|entries| < limit ==> entries[|entries| - 1].seqNo == Tip(log))
      && (after < log[0].seqNo ==> entries[0] == log[0])
  {
    var n := AboveInSealed(h, log, after);
    var size := Min(|log| - n, limit);
    entries := log[n..n + size];
    PartIsConsecutive(h, log, n, size);
    if size > 0 {
      KnowsOwnLink(h, log, n + size - 1);
    }
  }

  lemma KnowsOwnLink(h: HashFn, log: seq<Entry>, i: nat)
    requires Sealed(h, log) && i < |log|
    ensures KnowsLink(log, LinkOf(log[i]))
  {
    SealedIsAscending(h, log);
    forall e | e in log && e.seqNo == log[i].seqNo ensures e == log[i] {
      var j :| 0 <= j < |log| && log[j] == e;
      assert Linked(h, log, i) && Linked(h, log, j);
    }
    forall e | e in log && e.seqNo == log[i].seqNo + 1 ensures e.prevHash == Some(log[i].hash) {
      var j :| 0 <= j < |log| && log[j] == e;
      assert Linked(h, log, i) && Linked(h, log, j);
    }
    assert Linked(h, log, i);
  }

  /** The verifier has reported no fault. */
  predicate Clean(v: Verifier) {
    v.Done? ==> v.report.fault.None?
  }

  lemma CheckPasses(h: HashFn, limit: nat, log: seq<Entry>, checked: nat, firstSeq: int, previous: Option<Link>,
                    entries: seq<Entry>, tip: int)
    requires entries != [] && Consecutive(h, entries) && FaultOf(h, previous, entries[0]).None?
    requires 0 <= tip <= Tip(log) && KnowsLink(log, LinkOf(entries[|entries| - 1]))
    requires checked == entries[0].seqNo - firstSeq && (|entries| < limit ==> tip <= entries[|entries| - 1].seqNo)
    ensures var w := Check(h, limit, checked, firstSeq, previous, entries);
      Clean(w) && Knows(h, limit, log, w, tip) && (w.Reading? ==> w.afterSeq == entries[|entries| - 1].seqNo)
  {
    ConsecutivePasses(h, previous, entries);
    assert Linked(h, entries, |entries| - 1);
  }

  lemma ReadInTime(h: HashFn, limit: nat, log: seq<Entry>, v: Verifier, tip: int)
    requires limit >= 1 && Sealed(h, log) && v.Reading? && Knows(h, limit, log, v, tip) && InTime(log, v)
    ensures Clean(Query(h, limit, v, log)) && Knows(h, limit, log, Query(h, limit, v, log), tip)
  {
    var entries := BatchOfSealed(h, limit, log, v.afterSeq);
    if entries != [] {
      assert Linked(h, entries, 0);
      if v.firstSeq.Some? || entries[0].seqNo == 1 {
        var start := if v.firstSeq.Some? then v.firstSeq.value else 1;
        CheckPasses(h, limit, log, v.checked, start, v.previous, entries, tip);
      }
    }
  }

  /** In an honest log a query that comes in time finds no fault. */
  lemma QueryInTime(h: HashFn, limit: nat, log: seq<Entry>, v: Verifier, tip: int)
    requires limit >= 1 && Sealed(h, log) && Knows(h, limit, log, v, tip) && Clean(v) && InTime(log, v)
    ensures Clean(Query(h, limit, v, log)) && Knows(h, limit, log, Query(h, limit, v, log), tip)
  {
    match v
    case Done(_) =>
    case Anchoring(entries) =>
      assert Linked(h, entries, 0);
      CheckPasses(h, limit, log, 0, entries[0].seqNo, PurgeAnchor(log, entries[0]), entries, tip);
    case Reading(_, _, _, _) => ReadInTime(h, limit, log, v, tip);
  }

  /** What a query that comes too late reports: the next entry missing, or the first one unanchored. */
  function LateReport(v: Verifier): Report
    requires !v.Done? && (v.Anchoring? ==> v.entries != [])
  {
    match v
    case Reading(checked, afterSeq, firstSeq, _) =>
      Report(checked, firstSeq, Some(afterSeq), Some(Break(afterSeq + 1, Missing)))
    case Anchoring(entries) =>
      Report(0, Some(entries[0].seqNo), None, Some(Break(entries[0].seqNo, Unanchored)))
  }

  /** In an honest log a query that comes too late ends the verification with a fault. */
  lemma QueryTooLate(h: HashFn, limit: nat, log: seq<Entry>, v: Verifier, tip: int)
    requires limit >= 1 && Sealed(h, log) && Knows(h, limit, log, v, tip) && !InTime(log, v)
    ensures Query(h, limit, v, log) == Done(LateReport(v))
  {
    match v
    case Anchoring(entries) =>
      NoneBelow(h, entries, entries[0].seqNo);
    case Reading(checked, afterSeq, firstSeq, previous) =>
      var entries := BatchOfSealed(h, limit, log, afterSeq);
      FirstIsBelowTip(h, log);
      NoneBelow(h, entries, afterSeq + 1);
  }

  lemma FirstIsBelowTip(h: HashFn, log: seq<Entry>)
    requires Sealed(h, log) && log != []
    ensures log[0].seqNo <= Tip(log)
  {
    assert Linked(h, log, |log| - 1);
  }

  lemma NoneBelow(h: HashFn, entries: seq<Entry>, bound: int)
    requires Consecutive(h, entries) && entries != [] && entries[0].seqNo >= bound
    ensures Below(entries, bound) == []
  {
    forall i | 0 <= i < |entries| ensures entries[i].seqNo >= bound {
      assert Linked(h, entries, i);
    }
    BelowCut(entries, 0, bound);
  }

  /** A query that finds less than a batch ends the verification, with the tip it finds. */
  lemma ShortBatchEnds(h: HashFn, limit: nat, log: seq<Entry>, v: Verifier, tip: int)
    requires limit >= 1 && Sealed(h, log) && v.Reading? && Knows(h, limit, log, v, tip) && InTime(log, v)
    requires v.firstSeq.Some? && Tip(log) - v.afterSeq < limit
    ensures Query(h, limit, v, log) ==
      Done(Report(Tip(log) - v.firstSeq.value + 1, v.firstSeq, Some(Tip(log)), None))
  {
    var entries := BatchOfSealed(h, limit, log, v.afterSeq);
    if entries != [] {
      assert Linked(h, entries, 0);
      ConsecutivePasses(h, v.previous, entries);
    }
  }

  // ---- When a verification beside other steps reports clean ----

  /** Every query of a course of events comes in time. */
  ghost predicate AllInTime(h: HashFn, limit: nat, log: seq<Entry>, v: Verifier, events: seq<Event>)
    decreases |events|
  {
    events == [] || match events[0]
      case Queried => InTime(log, v) && AllInTime(h, limit, log, Query(h, limit, v, log), events[1..])
      case Changed(step) => AllInTime(h, limit, Next(h, log, step), v, events[1..])
  }

  lemma {:induction false} DoneIsFinal(h: HashFn, limit: nat, log: seq<Entry>, v: Verifier, events: seq<Event>)
    requires v.Done?
    ensures Watch(h, limit, log, v, events).1 == v
    decreases |events|
  {
    if events != [] {
      DoneIsFinal(h, limit, if events[0].Queried? then log else Next(h, log, events[0].step), v, events[1..]);
    }
  }

  lemma {:induction false} CleanExactly(h: HashFn, limit: nat, log: seq<Entry>, v: Verifier, tip: int,
                                        events: seq<Event>)
    requires limit >= 1 && Sealed(h, log) && Knows(h, limit, log, v, tip) && Clean(v)
    ensures var (_, w) := Watch(h, limit, log, v, events);
      && (Clean(w) <==> AllInTime(h, limit, log, v, events))
      && (w.Done? && Clean(w) ==> Complete(w.report, tip))
      && (!Clean(w) ==> w.report.fault.value.fault in {Missing, Unanchored})
    decreases |events|
  {
    if events != [] {
      match events[0]
      case Queried =>
        if InTime(log, v) {
          QueryInTime(h, limit, log, v, tip);
          CleanExactly(h, limit, log, Query(h, limit, v, log), tip, events[1..]);
        } else {
          QueryTooLate(h, limit, log, v, tip);
          DoneIsFinal(h, limit, log, Query(h, limit, v, log), events[1..]);
        }
      case Changed(step) =>
        StepKeepsKnows(h, limit, log, v, tip, step);
        CleanExactly(h, limit, Next(h, log, step), v, tip, events[1..]);
    }
  }

  /**
   A log that sealing, purging and erasure produced, verified while they go on: no fault is reported
   exactly when every query comes in time. A clean report has then checked every number from its first
   to its last, and none that was there at the beginning is above that.
   */
  lemma WatchedLogVerifiesCleanExactly(h: HashFn, limit: nat, before: seq<Step>, events: seq<Event>)
    requires limit >= 1
    ensures var log := Exec(h, [], before);
      var (_, w) := Watch(h, limit, log, START, events);
      && (Clean(w) <==> AllInTime(h, limit, log, START, events))
      && (w.Done? && Clean(w) ==> Complete(w.report, Tip(log)))
      && (!Clean(w) ==> w.report.fault.value.fault in {Missing, Unanchored})
  {
    ExecKeepsSealed(h, [], before);
    var log := Exec(h, [], before);
    if log != [] {
      FirstIsBelowTip(h, log);
    }
    CleanExactly(h, limit, log, START, Tip(log), events);
  }

  // ---- Which purges come between ----

  /** A purge between two batches spoils the next one exactly when it deletes an entry that was not read. */
  lemma PurgeSpoilsReadingExactly(h: HashFn, log: seq<Entry>, v: Verifier, retentionDays: int, now: int, p: PurgeEntry)
    requires Sealed(h, log) && log != [] && v.Reading? && v.firstSeq.Some?
    ensures var (after, deleted) := Purge(h, log, retentionDays, now, p);
      InTime(after, v) <==> log[0].seqNo + deleted <= v.afterSeq + 1
  {
    PurgeEffect(h, log, retentionDays, now, p);
    var n := PurgeCount(log, now - retentionDays * DAY_MS);
    assert Linked(h, log, n);
  }

  /** And one between the first batch and the anchor query, exactly when it deletes the purge that is looked for. */
  lemma PurgeSpoilsAnchorExactly(h: HashFn, log: seq<Entry>, v: Verifier, retentionDays: int, now: int, p: PurgeEntry)
    requires Sealed(h, log) && log != [] && v.Anchoring? && v.entries != [] && v.entries[0].prevHash.Some?
    requires v.entries[0].seqNo <= log[0].seqNo
    ensures var (after, deleted) := Purge(h, log, retentionDays, now, p);
      InTime(after, v) <==>
        deleted < |log| &&
        exists e :: e in log[deleted..] && RecordsCut(e, v.entries[0].seqNo - 1, v.entries[0].prevHash.value)
  {
    PurgeEffect(h, log, retentionDays, now, p);
    var n := PurgeCount(log, now - retentionDays * DAY_MS);
    assert log[0..] == log;
    if n > 0 {
      assert Linked(h, log, n - 1);
      SealMembers(h, log[n..], CutContent(p, log[n - 1]), None);
    }
  }

  lemma SealMembers(h: HashFn, log: seq<Entry>, content: Content, actorId: Option<string>)
    ensures var after := Seal(h, log, content, actorId);
      forall e :: e in after <==> e in log || e == after[|log|]
    ensures Seal(h, log, content, actorId)[|log|].content == content
  {
  }

  /** What keeps every later query in time as long as nothing is purged. */
  ghost predicate Undisturbed(log: seq<Entry>, v: Verifier) {
    InTime(log, v) &&
    (v.Anchoring? ==> v.entries != [] && log != [] && log[0].seqNo <= v.entries[|v.entries| - 1].seqNo + 1)
  }

  lemma {:induction false} OnlyPurgesSpoil(h: HashFn, limit: nat, log: seq<Entry>, v: Verifier, tip: int,
                                           events: seq<Event>)
    requires limit >= 1 && Sealed(h, log) && Knows(h, limit, log, v, tip) && Clean(v) && Undisturbed(log, v)
    requires forall e :: e in events && e.Changed? ==> !e.step.PurgeRun?
    ensures AllInTime(h, limit, log, v, events)
    decreases |events|
  {
    if events != [] {
      assert events[0] in events;
      match events[0]
      case Queried =>
        QueryInTime(h, limit, log, v, tip);
        QueryStaysUndisturbed(h, limit, log, v, tip);
        OnlyPurgesSpoil(h, limit, log, Query(h, limit, v, log), tip, events[1..]);
      case Changed(step) =>
        StepKeepsKnows(h, limit, log, v, tip, step);
        AdditionsDisturbNothing(h, log, v, step);
        OnlyPurgesSpoil(h, limit, Next(h, log, step), v, tip, events[1..]);
    }
  }

  lemma EraseKeepsAnchor(log: seq<Entry>, user: string, first: Entry)
    requires PurgeAnchor(log, first).Some?
    ensures PurgeAnchor(EraseActor(log, user), first).Some?
  {
    var e :| e in log && RecordsCut(e, first.seqNo - 1, first.prevHash.value);
    var i :| 0 <= i < |log| && log[i] == e;
    assert EraseActor(log, user)[i] in EraseActor(log, user);
    assert RecordsCut(EraseActor(log, user)[i], first.seqNo - 1, first.prevHash.value);
  }

  lemma AdditionsKeepBeginning(h: HashFn, log: seq<Entry>, step: Step)
    requires !step.PurgeRun?
    ensures log != [] ==> Next(h, log, step) != [] && Next(h, log, step)[0].seqNo == log[0].seqNo
    ensures forall first :: PurgeAnchor(log, first).Some? ==> PurgeAnchor(Next(h, log, step), first).Some?
  {
    forall first | PurgeAnchor(log, first).Some? ensures PurgeAnchor(Next(h, log, step), first).Some? {
      match step
      case Append(content, actorId) => SealMembers(h, log, content, actorId);
      case Erase(user) => EraseKeepsAnchor(log, user, first);
    }
  }

  lemma AdditionsDisturbNothing(h: HashFn, log: seq<Entry>, v: Verifier, step: Step)
    requires Undisturbed(log, v) && !step.PurgeRun? && (v.Reading? && v.firstSeq.Some? ==> log != [])
    ensures Undisturbed(Next(h, log, step), v)
  {
    AdditionsKeepBeginning(h, log, step);
  }

  lemma QueryStaysUndisturbed(h: HashFn, limit: nat, log: seq<Entry>, v: Verifier, tip: int)
    requires limit >= 1 && Sealed(h, log) && Knows(h, limit, log, v, tip) && Clean(v) && Undisturbed(log, v)
    ensures Undisturbed(log, Query(h, limit, v, log))
  {
    if v.Reading? {
      var entries := BatchOfSealed(h, limit, log, v.afterSeq);
    }
  }

  // ---- Two honest logs that are reported broken ----

  /** As the hash is a digest in hexadecimal. */
  ghost predicate NeverEmpty(h: HashFn) {
    forall p, s, c :: h(p, s, c) != ""
  }

  function Appends(content: Content, n: nat): seq<Step> {
    seq(n, _ => Append(content, None))
  }

  lemma {:induction false} ExecAppends(h: HashFn, log: seq<Entry>, content: Content, n: nat)
    requires Sealed(h, log) && forall e :: e in log ==> e.content == content
    ensures var after := Exec(h, log, Appends(content, n));
      && |after| == |log| + n && Sealed(h, after) && (forall e :: e in after ==> e.content == content)
      && Tip(after) == Tip(log) + n
    decreases n
  {
    if n > 0 {
      var next := Seal(h, log, content, None);
      SealKeepsSealed(h, log, content, None);
      SealMembers(h, log, content, None);
      assert Appends(content, n)[1..] == Appends(content, n - 1);
      ExecAppends(h, next, content, n - 1);
    }
  }

  /** A log of old entries alone: a purge leaves its newest one, unless that makes a batch too many. */
  lemma PurgeOfOld(h: HashFn, log: seq<Entry>, now: int, p: PurgeEntry)
    requires NeverEmpty(h) && Sealed(h, log) && 2 <= |log| <= MAX_PURGE_PER_RUN + 1
    requires forall e :: e in log ==> e.content.createdAt < now
    ensures var m := |log| - 1;
      Purge(h, log, 0, now, p) == (Seal(h, log[m..], CutContent(p, log[m - 1]), None), m)
  {
    var m := |log| - 1;
    PurgeEffect(h, log, 0, now, p);
    assert log[m] in log && Linked(h, log, m) && Linked(h, log, m - 1);
    assert PurgeCount(log, now) == m;
  }

  /** The first batch of a log that begins at 1. */
  lemma FirstBatch(h: HashFn, limit: nat, log: seq<Entry>) returns (v: Verifier)
    requires limit >= 1 && Sealed(h, log) && |log| >= limit && log[0].seqNo == 1
    ensures v == Query(h, limit, START, log) && Knows(h, limit, log, v, Tip(log))
    ensures v.Reading? && v.checked == limit && v.afterSeq == limit && v.firstSeq == Some(1)
  {
    FirstNumber(h, log);
    var entries := BatchOfSealed(h, limit, log, 0);
    ReadInTime(h, limit, log, START, Tip(log));
    v := Query(h, limit, START, log);
    assert |entries| == limit by {
      SealedIsAscending(h, log);
      AboveIsSuffix(log, 0);
      assert log[0..] == log;
    }
  }

  /** A purge between two batches: the first entry that the verifier has not read is reported missing. */
  lemma PurgeBetweenBatches(h: HashFn, limit: nat, content: Content, p: PurgeEntry)
    requires NeverEmpty(h) && 1 <= limit < MAX_PURGE_PER_RUN
    ensures var log := Exec(h, [], Appends(content, limit + 2));
      Watch(h, limit, log, START, [Queried, Changed(PurgeRun(0, content.createdAt + 1, p)), Queried]).1 ==
        Done(Report(limit, Some(1), Some(limit), Some(Break(limit + 1, Missing))))
  {
    var log, purge := Exec(h, [], Appends(content, limit + 2)), PurgeRun(0, content.createdAt + 1, p);
    ExecAppends(h, [], content, limit + 2);
    FirstNumber(h, log);
    WatchThree(h, limit, log, START, purge);
    var v := FirstBatch(h, limit, log);
    LateBatch(h, limit, log, v, content.createdAt + 1, p);
  }

  lemma LateBatch(h: HashFn, limit: nat, log: seq<Entry>, v: Verifier, now: int, p: PurgeEntry)
    requires NeverEmpty(h) && limit >= 1 && Sealed(h, log) && log != [] && log[0].seqNo == 1
    requires |log| == limit + 2 <= MAX_PURGE_PER_RUN + 1 && forall e :: e in log ==> e.content.createdAt < now
    requires Knows(h, limit, log, v, Tip(log))
    requires v.Reading? && v.checked == limit && v.afterSeq == limit && v.firstSeq == Some(1)
    ensures Query(h, limit, v, Next(h, log, PurgeRun(0, now, p))) ==
      Done(Report(limit, Some(1), Some(limit), Some(Break(limit + 1, Missing))))
  {
    StepKeepsKnows(h, limit, log, v, Tip(log), PurgeRun(0, now, p));
    PurgeOfOld(h, log, now, p);
    PurgeSpoilsReadingExactly(h, log, v, 0, now, p);
    QueryTooLate(h, limit, Next(h, log, PurgeRun(0, now, p)), v, Tip(log));
  }

  lemma FirstNumber(h: HashFn, log: seq<Entry>)
    requires Sealed(h, log) && log != []
    ensures Tip(log) == log[0].seqNo + |log| - 1
  {
    assert Linked(h, log, |log| - 1);
  }

  lemma WatchThree(h: HashFn, limit: nat, log: seq<Entry>, v: Verifier, step: Step)
    ensures Watch(h, limit, log, v, [Queried, Changed(step), Queried]).1 ==
      Query(h, limit, Query(h, limit, v, log), Next(h, log, step))
  {
    var events := [Queried, Changed(step), Queried];
    var w, after := Query(h, limit, v, log), Next(h, log, step);
    assert events[1..] == [Changed(step), Queried] && [Changed(step), Queried][1..] == [Queried] &&
      [Queried][1..] == [];
    assert Watch(h, limit, after, w, [Queried]) == Watch(h, limit, after, Query(h, limit, w, after), []);
    assert Watch(h, limit, log, w, [Changed(step), Queried]) == Watch(h, limit, after, w, [Queried]);
  }

  /** Two old entries, of which a purge has cut the first. */
  lemma PurgedOnce(h: HashFn, content: Content, p: PurgeEntry) returns (log: seq<Entry>, cut: Entry)
    requires NeverEmpty(h)
    ensures log == Exec(h, [], Appends(content, 2) + [PurgeRun(0, content.createdAt + 1, p)])
    ensures Sealed(h, log) && |log| == 2 && log[0].seqNo == 2 && log[0].content == content
    ensures cut.seqNo == 1 && log[1].content == CutContent(p, cut) && log[0].prevHash == Some(cut.hash)
  {
    var full, purge := Exec(h, [], Appends(content, 2)), PurgeRun(0, content.createdAt + 1, p);
    ExecAppends(h, [], content, 2);
    ExecThen(h, [], Appends(content, 2), purge);
    FirstNumber(h, full);
    PurgeOfOld(h, full, content.createdAt + 1, p);
    PurgeKeepsSealed(h, full, 0, content.createdAt + 1, p);
    log, cut := Next(h, full, purge), full[0];
    assert Linked(h, full, 1) && full[1..] == [full[1]];
    SealMembers(h, full[1..], CutContent(p, cut), None);
  }

  lemma {:induction false} ExecThen(h: HashFn, log: seq<Entry>, steps: seq<Step>, last: Step)
    ensures Exec(h, log, steps + [last]) == Next(h, Exec(h, log, steps), last)
    decreases |steps|
  {
    if steps == [] {
      assert [] + [last] == [last] && [last][1..] == [];
    } else {
      assert (steps + [last])[1..] == steps[1..] + [last];
      ExecThen(h, Next(h, log, steps[0]), steps[1..], last);
    }
  }

  /** One more entry and one more purge: the cut that explained the beginning is recorded no longer. */
  lemma PurgedTwice(h: HashFn, content: Content, p: PurgeEntry, log: seq<Entry>, cut: Entry) returns (after: seq<Entry>)
    requires NeverEmpty(h) && content.action != PURGE && p.createdAt <= content.createdAt
    requires Sealed(h, log) && |log| == 2 && log[0].seqNo == 2 && log[0].content == content
    requires cut.seqNo == 1 && log[1].content == CutContent(p, cut)
    ensures after == Next(h, Next(h, log, Append(content, None)), PurgeRun(0, content.createdAt + 1, p))
    ensures forall e, hash :: e in after ==> !RecordsCut(e, 1, hash)
  {
    var grown := Seal(h, log, content, None);
    SealKeepsSealed(h, log, content, None);
    SealMembers(h, log, content, None);
    FirstNumber(h, grown);
    assert forall e :: e in log ==> e == log[0] || e == log[1];
    PurgeOfOld(h, grown, content.createdAt + 1, p);
    after := Next(h, grown, PurgeRun(0, content.createdAt + 1, p));
    assert grown[2..] == [grown[2]] && Linked(h, grown, 1);
    SealMembers(h, grown[2..], CutContent(p, grown[1]), None);
  }

  /** The same between the first batch and the anchor query: an honest beginning is reported unanchored. */
  lemma PurgeBeforeAnchorQuery(h: HashFn, limit: nat, content: Content, p: PurgeEntry)
    requires NeverEmpty(h) && limit >= 1 && content.action != PURGE && p.createdAt <= content.createdAt
    ensures var purge := PurgeRun(0, content.createdAt + 1, p);
      var log := Exec(h, [], Appends(content, 2) + [purge]);
      var events := [Queried, Changed(Append(content, None)), Changed(purge), Queried];
      Watch(h, limit, log, START, events).1 == Done(Report(0, Some(2), None, Some(Break(2, Unanchored))))
  {
    var purge, append := PurgeRun(0, content.createdAt + 1, p), Append(content, None);
    var log, cut := PurgedOnce(h, content, p);
    var after := PurgedTwice(h, content, p, log, cut);
    FirstNumber(h, log);
    var entries := BatchOfSealed(h, limit, log, 0);
    var v := Anchoring(entries);
    ReadInTime(h, limit, log, START, 3);
    StepKeepsKnows(h, limit, log, v, 3, append);
    StepKeepsKnows(h, limit, Next(h, log, append), v, 3, purge);
    QueryTooLate(h, limit, after, v, 3);
    var events := [Queried, Changed(append), Changed(purge), Queried];
    assert events[1..] == [Changed(append), Changed(purge), Queried];
    WatchTwo(h, limit, log, v, append, purge);
  }

  lemma WatchTwo(h: HashFn, limit: nat, log: seq<Entry>, v: Verifier, step: Step, next: Step)
    ensures Watch(h, limit, log, v, [Changed(step), Changed(next), Queried]).1 ==
      Query(h, limit, v, Next(h, Next(h, log, step), next))
  {
    var mid := Next(h, log, step);
    var after := Next(h, mid, next);
    assert [Changed(step), Changed(next), Queried][1..] == [Changed(next), Queried];
    assert [Changed(next), Queried][1..] == [Queried] && [Queried][1..] == [];
    assert Watch(h, limit, after, v, [Queried]) == Watch(h, limit, after, Query(h, limit, v, after), []);
    assert Watch(h, limit, mid, v, [Changed(next), Queried]) == Watch(h, limit, after, v, [Queried]);
  }
}
