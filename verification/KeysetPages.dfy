/**
 Pages by keyset over a fixed table (keysetPage in backend/src/services/pagination.ts, and the
 export loop of backend/src/services/candidates.ts) against slices of one sorted list.
 */
module KeysetPages {
  import opened Arith
  import opened Options
  import opened SeekOrder

  // ---- Sorted listings ----

  ghost predicate Ordered(sort: Sort, scan: Direction, q: seq<Row>) {
    forall i, j :: 0 <= i < j < |q| ==> Before(sort, scan, q[i], q[j])
  }

  predicate IsFirst(sort: Sort, scan: Direction, s: set<Row>, r: Row) {
    r in s && forall t :: t in s ==> t == r || Before(sort, scan, r, t)
  }

  lemma FirstExists(sort: Sort, scan: Direction, s: set<Row>)
    requires s != {}
    ensures exists r :: IsFirst(sort, scan, s, r)
  {
    var r :| r in s;
    if s == {r} {
      assert IsFirst(sort, scan, s, r);
    } else {
      FirstExists(sort, scan, s - {r});
      var m :| IsFirst(sort, scan, s - {r}, m);
      var first := if Before(sort, scan, r, m) then r else m;
      forall t | t in s ensures t == first || Before(sort, scan, first, t) {
        BeforeIsStrictTotalOrder(sort, scan, r, m, t);
        assert t == r || t in s - {r};
      }
      assert IsFirst(sort, scan, s, first);
    }
  }

  /** The rows of a set in ORDER BY order. */
  ghost function List(sort: Sort, scan: Direction, s: set<Row>): seq<Row> {
    if s == {} then [] else
    FirstExists(sort, scan, s);
    var r :| IsFirst(sort, scan, s, r);
    [r] + List(sort, scan, s - {r})
  }

  lemma {:induction false} ListIsSorted(sort: Sort, scan: Direction, s: set<Row>)
    ensures Ordered(sort, scan, List(sort, scan, s)) && |List(sort, scan, s)| == |s|
    ensures forall r :: r in List(sort, scan, s) <==> r in s
  {
    if s != {} {
      FirstExists(sort, scan, s);
      var r :| IsFirst(sort, scan, s, r) && List(sort, scan, s) == [r] + List(sort, scan, s - {r});
      ListIsSorted(sort, scan, s - {r});
    }
  }

  lemma OrderedHasNoRepeats(sort: Sort, scan: Direction, p: seq<Row>)
    requires Ordered(sort, scan, p) && p != []
    ensures p[0] !in p[1..]
  {
    forall i | 1 <= i < |p| ensures p[i] != p[0] {
      BeforeIsStrictTotalOrder(sort, scan, p[0], p[i], p[0]);
    }
  }

  lemma SameFirst(sort: Sort, scan: Direction, p: seq<Row>, q: seq<Row>)
    requires Ordered(sort, scan, p) && Ordered(sort, scan, q) && p != [] && q != []
    requires p[0] in q && q[0] in p
    ensures p[0] == q[0]
  {
    BeforeIsStrictTotalOrder(sort, scan, p[0], q[0], q[0]);
  }

  lemma {:induction false} ListIsUnique(sort: Sort, scan: Direction, p: seq<Row>, q: seq<Row>)
    requires Ordered(sort, scan, p) && Ordered(sort, scan, q) && forall r :: r in p <==> r in q
    ensures p == q
  {
    assert p != [] ==> p[0] in q;
    assert q != [] ==> q[0] in p;
    if p != [] && q != [] {
      SameFirst(sort, scan, p, q);
      OrderedHasNoRepeats(sort, scan, p);
      OrderedHasNoRepeats(sort, scan, q);
      assert p == [p[0]] + p[1..] && q == [p[0]] + q[1..];
      forall r ensures r in p[1..] <==> r in q[1..] {
        assert r in p <==> r == p[0] || r in p[1..];
        assert r in q <==> r == p[0] || r in q[1..];
      }
      ListIsUnique(sort, scan, p[1..], q[1..]);
    }
  }

  /** A sorted sequence with the elements of a set is that set's list. */
  lemma IsList(sort: Sort, scan: Direction, s: set<Row>, q: seq<Row>)
    requires Ordered(sort, scan, q) && forall r :: r in q <==> r in s
    ensures List(sort, scan, s) == q
  {
    ListIsSorted(sort, scan, s);
    ListIsUnique(sort, scan, List(sort, scan, s), q);
  }

  /** The list of a set starts with its first row, whichever row that is. */
  lemma ListSplits(sort: Sort, scan: Direction, s: set<Row>, r: Row)
    requires IsFirst(sort, scan, s, r)
    ensures List(sort, scan, s) == [r] + List(sort, scan, s - {r})
  {
    var rest := List(sort, scan, s - {r});
    var q := [r] + rest;
    ListIsSorted(sort, scan, s - {r});
    forall i, j | 0 <= i < j < |q| ensures Before(sort, scan, q[i], q[j]) {
      assert q[j] == rest[j - 1] && rest[j - 1] in rest;
      if i > 0 {
        assert q[i] == rest[i - 1];
      }
    }
    IsList(sort, scan, s, q);
  }

  function Reverse(q: seq<Row>): (r: seq<Row>)
    ensures |r| == |q|
    ensures forall i :: 0 <= i < |q| ==> r[i] == q[|q| - 1 - i]
  {
    if q == [] then [] else Reverse(q[1..]) + [q[0]]
  }

  lemma ReverseSameRows(q: seq<Row>, x: Row)
    ensures x in Reverse(q) <==> x in q
  {
    var r := Reverse(q);
    if x in q {
      var i :| 0 <= i < |q| && q[i] == x;
      assert r[|q| - 1 - i] == x;
    }
  }

  lemma ReverseAscends(sort: Sort, scan: Direction, q: seq<Row>, r: seq<Row>)
    requires r == Reverse(q) && Ordered(sort, scan, q)
    ensures Ordered(sort, Flip(scan), r)
  {
    forall i, j | 0 <= i < j < |r| ensures Before(sort, Flip(scan), r[i], r[j]) {
      BeforeIsStrictTotalOrder(sort, scan, r[j], r[i], r[i]);
    }
  }

  /** A reversed scan lists the same rows backwards. */
  lemma ReversedScan(sort: Sort, scan: Direction, s: set<Row>)
    ensures List(sort, Flip(scan), s) == Reverse(List(sort, scan, s))
  {
    var q := List(sort, scan, s);
    var r := Reverse(q);
    ListIsSorted(sort, scan, s);
    ReverseAscends(sort, scan, q, r);
    forall x ensures x in r <==> x in q {
      ReverseSameRows(q, x);
    }
    IsList(sort, Flip(scan), s, r);
  }

  // ---- Queries ----

  function Take(q: seq<Row>, n: nat): seq<Row> {
    if |q| <= n then q else q[..n]
  }

  function Selected(table: set<Row>, w: Option<Where>): set<Row> {
    set r | r in table && (w.None? || Eval(w.value, r).True?)
  }

  ghost function Answer(sort: Sort, table: set<Row>, w: Option<Where>, scan: Direction, take: nat): seq<Row> {
    Take(List(sort, scan, Selected(table, w)), take)
  }

  /** How many rows of the list come strictly before a position, and how many are not after it. */
  function CountBefore(sort: Sort, scan: Direction, l: seq<Row>, at: Row): nat {
    if l == [] || !Before(sort, scan, l[0], at) then 0 else 1 + CountBefore(sort, scan, l[1..], at)
  }

  function CountThrough(sort: Sort, scan: Direction, l: seq<Row>, at: Row): nat {
    if l == [] || Before(sort, scan, at, l[0]) then 0 else 1 + CountThrough(sort, scan, l[1..], at)
  }

  lemma {:induction false} CountsPart(sort: Sort, scan: Direction, l: seq<Row>, at: Row)
    requires Ordered(sort, scan, l)
    ensures var m, n := CountBefore(sort, scan, l, at), CountThrough(sort, scan, l, at);
      && m <= n <= |l|
      && (forall i :: 0 <= i < |l| ==> (i < m <==> Before(sort, scan, l[i], at)))
      && (forall i :: 0 <= i < |l| ==> (i >= n <==> Before(sort, scan, at, l[i])))
  {
    if l != [] {
      CountsPart(sort, scan, l[1..], at);
      BeforeIsStrictTotalOrder(sort, scan, l[0], at, at);
      forall i | 1 <= i < |l|
        ensures Before(sort, scan, l[i], at) ==> Before(sort, scan, l[0], at)
        ensures Before(sort, scan, at, l[0]) ==> Before(sort, scan, at, l[i])
      {
        BeforeIsStrictTotalOrder(sort, scan, l[0], l[i], at);
        BeforeIsStrictTotalOrder(sort, scan, at, l[0], l[i]);
      }
      forall i | 1 <= i < |l| ensures l[i] == l[1..][i - 1] {}
    }
  }

  /** A row is in a suffix of a list without repeats exactly when it sits far enough along. */
  lemma InSuffix(sort: Sort, scan: Direction, l: seq<Row>, at: Row, r: Row)
    requires Ordered(sort, scan, l)
    ensures CountThrough(sort, scan, l, at) <= |l|
    ensures r in l[CountThrough(sort, scan, l, at)..] <==> r in l && Before(sort, scan, at, r)
  {
    CountsPart(sort, scan, l, at);
    var n := CountThrough(sort, scan, l, at);
    if r in l {
      var i :| 0 <= i < |l| && l[i] == r;
      assert i >= n ==> l[n..][i - n] == r;
    }
  }

  lemma InPrefix(sort: Sort, scan: Direction, l: seq<Row>, at: Row, r: Row)
    requires Ordered(sort, scan, l)
    ensures CountBefore(sort, scan, l, at) <= |l|
    ensures r in l[..CountBefore(sort, scan, l, at)] <==> r in l && Before(sort, scan, r, at)
  {
    CountsPart(sort, scan, l, at);
    var m := CountBefore(sort, scan, l, at);
    if r in l {
      var i :| 0 <= i < |l| && l[i] == r;
      assert i < m ==> l[..m][i] == r;
    }
  }

  /** A seek keeps the rows of the table past the cursor. */
  lemma SelectedBySeek(sort: Sort, table: set<Row>, at: Row, scan: Direction, r: Row)
    requires sort.Admits(at) && (r in table ==> sort.Admits(r))
    ensures r in Selected(table, Some(SeekWhere(sort, at, scan))) <==> r in table && Before(sort, scan, at, r)
  {
    if r in table {
      SeekIsExact(sort, at, scan, r);
    }
  }

  /** A forward seek lists the suffix of the list past the cursor. */
  lemma SeekAfter(sort: Sort, table: set<Row>, at: Row)
    requires sort.Admits(at) && forall r :: r in table ==> sort.Admits(r)
    ensures var scan := sort.DirectionOf();
      var l := List(sort, scan, table);
      CountThrough(sort, scan, l, at) <= |l| &&
      List(sort, scan, Selected(table, Some(SeekWhere(sort, at, scan)))) == l[CountThrough(sort, scan, l, at)..]
  {
    var scan := sort.DirectionOf();
    var l := List(sort, scan, table);
    ListIsSorted(sort, scan, table);
    CountsPart(sort, scan, l, at);
    var chosen, rest := Selected(table, Some(SeekWhere(sort, at, scan))), l[CountThrough(sort, scan, l, at)..];
    forall r ensures r in rest <==> r in chosen {
      InSuffix(sort, scan, l, at, r);
      SelectedBySeek(sort, table, at, scan, r);
    }
    IsList(sort, scan, chosen, rest);
  }

  /** A backward seek lists the prefix before the cursor, backwards. */
  lemma SeekBefore(sort: Sort, table: set<Row>, at: Row)
    requires sort.Admits(at) && forall r :: r in table ==> sort.Admits(r)
    ensures var scan := sort.DirectionOf();
      var l := List(sort, scan, table);
      CountBefore(sort, scan, l, at) <= |l| &&
      List(sort, Flip(scan), Selected(table, Some(SeekWhere(sort, at, Flip(scan))))) ==
        Reverse(l[..CountBefore(sort, scan, l, at)])
  {
    var scan := sort.DirectionOf();
    var l := List(sort, scan, table);
    ListIsSorted(sort, scan, table);
    CountsPart(sort, scan, l, at);
    var chosen, head := Selected(table, Some(SeekWhere(sort, at, Flip(scan)))), l[..CountBefore(sort, scan, l, at)];
    forall r ensures r in head <==> r in chosen {
      InPrefix(sort, scan, l, at, r);
      SelectedBySeek(sort, table, at, Flip(scan), r);
      BeforeIsStrictTotalOrder(sort, scan, r, at, at);
    }
    IsList(sort, scan, chosen, head);
    ReversedScan(sort, scan, chosen);
  }

  // ---- Cursors ----

  /** A decoded key: a string, by its rank if the sort can read it, a number, or null. */
  datatype CursorKey = Text(rank: Option<int>) | Number(n: int) | Null

  datatype Cursor = Cursor(key: CursorKey, id: int)

  /** encodeCursor and decodeCursor, over JSON and base64url. */
  datatype Codec = Codec(encode: Cursor -> string, decode: string -> Option<Cursor>)

  ghost predicate RoundTrips(codec: Codec) {
    forall c :: codec.encode(c) != "" && codec.decode(codec.encode(c)) == Some(c)
  }

  /** parseKey: the key a sort accepts from a cursor. */
  function ParseKey(sort: Sort, k: CursorKey): (key: Option<Option<int>>) {
    match k
    case Text(rank) => if sort.Score? || rank.None? then None else Some(rank)
    case Number(n) => if sort.Score? then Some(Some(n)) else None
    case Null => if sort.Score? then Some(None) else None
  }

  function CursorOf(sort: Sort, r: Row): Cursor {
    Cursor(if !sort.Score? then Text(r.key) else if r.key.Some? then Number(r.key.value) else Null, r.id)
  }

  datatype Params = Params(after: Option<string>, before: Option<string>)

  datatype Seek = Seek(at: Row, after: bool)

  predicate Given(p: Option<string>) {
    p.Some? && p.value != ""
  }

  function ResolveSeek(sort: Sort, codec: Codec, params: Params): (s: Option<Seek>)
    ensures s.Some? ==> sort.Admits(s.value.at)
  {
    var after := Given(params.after);
    var raw := if params.after.Some? then params.after else params.before;
    if (!after && !Given(params.before)) || !Given(raw) then None
    else match codec.decode(raw.value)
      case None => None
      case Some(cursor) =>
        match ParseKey(sort, cursor.key)
        case None => None
        case Some(key) => Some(Seek(Row(key, cursor.id), after))
  }

  /** The cursor of a row leads back to the row's position. */
  lemma CursorRoundTrips(sort: Sort, codec: Codec, r: Row)
    requires RoundTrips(codec) && sort.Admits(r)
    ensures forall before ::
      ResolveSeek(sort, codec, Params(Some(codec.encode(CursorOf(sort, r))), before)) == Some(Seek(r, true))
    ensures ResolveSeek(sort, codec, Params(None, Some(codec.encode(CursorOf(sort, r))))) == Some(Seek(r, false))
  {
  }

  /** A before cursor counts exactly when no after parameter is present: an empty one hides it. */
  lemma BeforeCursorIsReadExactlyWithoutAfter(sort: Sort, codec: Codec, after: Option<string>, r: Row)
    requires RoundTrips(codec) && sort.Admits(r) && (after == None || after == Some(""))
    ensures ResolveSeek(sort, codec, Params(after, Some(codec.encode(CursorOf(sort, r))))) == Some(Seek(r, false)) <==>
      after.None?
    ensures after == Some("") ==> ResolveSeek(sort, codec, Params(after, Some(codec.encode(CursorOf(sort, r))))).None?
  {
  }

  /** A cursor the sort can read: a date or name where it sorts by one, a number or null where it sorts by score. */
  predicate Readable(sort: Sort, c: Cursor) {
    match c.key
    case Text(rank) => !sort.Score? && rank.Some?
    case Number(_) => sort.Score?
    case Null => sort.Score?
  }

  /** A page starts at a cursor exactly when the parameter that counts decodes to one that the sort can read. */
  lemma CursorCountsExactly(sort: Sort, codec: Codec, params: Params)
    ensures var raw := if params.after.Some? then params.after else params.before;
      ResolveSeek(sort, codec, params).Some? <==>
        raw.Some? && raw.value != "" && codec.decode(raw.value).Some? && Readable(sort, codec.decode(raw.value).value)
    ensures ResolveSeek(sort, codec, params).Some? ==>
      (ResolveSeek(sort, codec, params).value.after <==> params.after.Some?)
  {
  }

  // ---- keysetPage ----

  /** The caller's query, by what its condition and its order are made of: the position to seek, the scan, the limit. */
  type Fetch = (Option<Row>, Direction, nat) -> seq<Row>

  /** The condition of a query. */
  function Condition(sort: Sort, at: Option<Row>, scan: Direction): Option<Where>
    requires at.Some? ==> sort.Admits(at.value)
  {
    if at.None? then None else Some(SeekWhere(sort, at.value, scan))
  }

  ghost predicate ReadsTable(sort: Sort, fetch: Fetch, table: set<Row>) {
    forall at: Option<Row>, scan, take :: (at.Some? ==> sort.Admits(at.value)) ==>
      fetch(at, scan, take) == Answer(sort, table, Condition(sort, at, scan), scan, take)
  }

  datatype Page = Page(items: seq<Row>, nextCursor: Option<string>, prevCursor: Option<string>)

  function Link(sort: Sort, codec: Codec, r: Row): Option<string> {
    Some(codec.encode(CursorOf(sort, r)))
  }

  /** The three ways keysetPage builds its answer from the rows it read, one more than a page if there are. */
  function AfterPage(sort: Sort, codec: Codec, rows: seq<Row>, pageSize: nat): Page
    requires pageSize >= 1 && |rows| > 0
  {
    var items := Take(rows, pageSize);
    Page(items, if |rows| > pageSize then Link(sort, codec, items[|items| - 1]) else None, Link(sort, codec, items[0]))
  }

  function BeforePage(sort: Sort, codec: Codec, rows: seq<Row>, pageSize: nat): Page
    requires pageSize >= 1 && |rows| > pageSize
  {
    var items := Reverse(Take(rows, pageSize));
    Page(items, Link(sort, codec, items[|items| - 1]), Link(sort, codec, items[0]))
  }

  function FirstPage(sort: Sort, codec: Codec, fetch: Fetch, pageSize: nat): Page
    requires pageSize >= 1
  {
    var rows := fetch(None, sort.DirectionOf(), pageSize + 1);
    var items := Take(rows, pageSize);
    Page(items, if |rows| > pageSize then Link(sort, codec, items[|items| - 1]) else None, None)
  }

  function KeysetPage(sort: Sort, codec: Codec, fetch: Fetch, params: Params, pageSize: nat): Page
    requires pageSize >= 1
  {
    match ResolveSeek(sort, codec, params)
    case None => FirstPage(sort, codec, fetch, pageSize)
    case Some(seek) =>
      var scan := if seek.after then sort.DirectionOf() else Flip(sort.DirectionOf());
      var rows := fetch(Some(seek.at), scan, pageSize + 1);
      if seek.after && |rows| > 0 then AfterPage(sort, codec, rows, pageSize)
      else if !seek.after && |rows| > pageSize then BeforePage(sort, codec, rows, pageSize)
      else FirstPage(sort, codec, fetch, pageSize)
  }

  // ---- Pages are slices of one list ----

  /** A query for page one, or past row k of the list in either scan, returns that piece of the list. */
  ghost predicate SlicesAt(sort: Sort, fetch: Fetch, l: seq<Row>, row: Option<nat>, take: nat)
    requires row.Some? ==> row.value < |l|
  {
    match row
    case None => fetch(None, sort.DirectionOf(), take) == Take(l, take)
    case Some(k) =>
      && sort.Admits(l[k])
      && fetch(Some(l[k]), sort.DirectionOf(), take) == Take(l[k + 1..], take)
      && fetch(Some(l[k]), Flip(sort.DirectionOf()), take) == Take(Reverse(l[..k]), take)
  }

  /** The queries keysetPage makes return pieces of one list. */
  ghost predicate Slices(sort: Sort, fetch: Fetch, l: seq<Row>) {
    forall row: Option<nat>, take: nat :: (row.Some? ==> row.value < |l|) ==> SlicesAt(sort, fetch, l, row, take)
  }

  ghost function Listing(sort: Sort, table: set<Row>): seq<Row> {
    List(sort, sort.DirectionOf(), table)
  }

  /** The list that is paged, spelled out: every row once, dates and names as asked, scores best first, none last. */
  lemma ListedInOrder(sort: Sort, table: set<Row>)
    requires forall r :: r in table ==> sort.Admits(r)
    ensures var l := Listing(sort, table);
      && |l| == |table| && (forall r :: r in l <==> r in table)
      && forall i, j :: 0 <= i < j < |l| ==>
           match sort
           case Score =>
             || (l[i].key.Some? && l[j].key.None?)
             || (l[i].key.Some? && l[j].key.Some? && l[i].key.value > l[j].key.value)
             || (l[i].key == l[j].key && l[i].id > l[j].id)
           case CreatedAt(d) => KeyOrder(d, l[i], l[j])
           case RowValue(d) => KeyOrder(d, l[i], l[j])
  {
    var l := Listing(sort, table);
    ListIsSorted(sort, sort.DirectionOf(), table);
    forall i, j | 0 <= i < j < |l| ensures Before(sort, sort.DirectionOf(), l[i], l[j]) {}
    forall r, s | r in table && s in table && Before(sort, sort.DirectionOf(), r, s)
      ensures !sort.Score? ==> KeyOrder(sort.d, r, s)
    {
      ListingOrder(sort, r, s);
    }
  }

  /** By key and then id, both ascending or both descending. */
  predicate KeyOrder(d: Direction, r: Row, s: Row) {
    r.key.Some? && s.key.Some? &&
    if d == Asc then r.key.value < s.key.value || (r.key.value == s.key.value && r.id < s.id)
    else r.key.value > s.key.value || (r.key.value == s.key.value && r.id > s.id)
  }

  lemma FetchTakes(sort: Sort, fetch: Fetch, table: set<Row>, at: Option<Row>, scan: Direction, take: nat, q: seq<Row>)
    requires ReadsTable(sort, fetch, table) && (at.Some? ==> sort.Admits(at.value))
    requires q == List(sort, scan, Selected(table, Condition(sort, at, scan)))
    ensures fetch(at, scan, take) == Take(q, take)
  {
  }

  lemma FetchAfter(sort: Sort, fetch: Fetch, table: set<Row>, at: Row, take: nat)
    requires ReadsTable(sort, fetch, table) && sort.Admits(at) && forall r :: r in table ==> sort.Admits(r)
    ensures var l := Listing(sort, table);
      var n := CountThrough(sort, sort.DirectionOf(), l, at);
      n <= |l| && fetch(Some(at), sort.DirectionOf(), take) == Take(l[n..], take)
  {
    SeekAfter(sort, table, at);
    var w := Condition(sort, Some(at), sort.DirectionOf());
    FetchTakes(sort, fetch, table, Some(at), sort.DirectionOf(), take,
               List(sort, sort.DirectionOf(), Selected(table, w)));
  }

  lemma FetchBefore(sort: Sort, fetch: Fetch, table: set<Row>, at: Row, take: nat)
    requires ReadsTable(sort, fetch, table) && sort.Admits(at) && forall r :: r in table ==> sort.Admits(r)
    ensures var l := Listing(sort, table);
      var m := CountBefore(sort, sort.DirectionOf(), l, at);
      m <= |l| && fetch(Some(at), Flip(sort.DirectionOf()), take) == Take(Reverse(l[..m]), take)
  {
    SeekBefore(sort, table, at);
    var scan := Flip(sort.DirectionOf());
    var w := Condition(sort, Some(at), scan);
    FetchTakes(sort, fetch, table, Some(at), scan, take, List(sort, scan, Selected(table, w)));
  }

  lemma CountsAtMember(sort: Sort, scan: Direction, l: seq<Row>, k: nat)
    requires Ordered(sort, scan, l) && k < |l|
    ensures CountBefore(sort, scan, l, l[k]) == k && CountThrough(sort, scan, l, l[k]) == k + 1
  {
    CountsPart(sort, scan, l, l[k]);
    BeforeIsStrictTotalOrder(sort, scan, l[k], l[k], l[k]);
    var m, n := CountBefore(sort, scan, l, l[k]), CountThrough(sort, scan, l, l[k]);
    assert !(k < m) && !(k >= n);
    if k > 0 {
      assert Before(sort, scan, l[k - 1], l[k]);
    }
    if k + 1 < |l| {
      assert Before(sort, scan, l[k], l[k + 1]);
    }
  }

  lemma TableSlicesAt(sort: Sort, fetch: Fetch, table: set<Row>, k: nat, take: nat, l: seq<Row>)
    requires ReadsTable(sort, fetch, table) && forall r :: r in table ==> sort.Admits(r)
    requires l == Listing(sort, table) && k < |l|
    ensures SlicesAt(sort, fetch, l, Some(k), take)
  {
    ListIsSorted(sort, sort.DirectionOf(), table);
    assert l[k] in l;
    CountsAtMember(sort, sort.DirectionOf(), l, k);
    FetchAfter(sort, fetch, table, l[k], take);
    FetchBefore(sort, fetch, table, l[k], take);
  }

  /** Queries on a table return pieces of its sorted list, whatever the sort. */
  lemma TableSlices(sort: Sort, fetch: Fetch, table: set<Row>)
    requires ReadsTable(sort, fetch, table) && forall r :: r in table ==> sort.Admits(r)
    ensures Slices(sort, fetch, Listing(sort, table)) && |Listing(sort, table)| == |table|
  {
    var l := Listing(sort, table);
    ListIsSorted(sort, sort.DirectionOf(), table);
    forall row: Option<nat>, take: nat | row.Some? ==> row.value < |l| ensures SlicesAt(sort, fetch, l, row, take) {
      match row
      case None =>
        assert Selected(table, None) == table;
        FetchTakes(sort, fetch, table, None, sort.DirectionOf(), take, l);
      case Some(k) => TableSlicesAt(sort, fetch, table, k, take, l);
    }
  }

  /** The slice of the list that starts at i. */
  function Slice(l: seq<Row>, i: nat, pageSize: nat): seq<Row>
    requires i <= |l|
  {
    l[i..Min(i + pageSize, |l|)]
  }

  function NextOf(sort: Sort, codec: Codec, l: seq<Row>, i: nat, pageSize: nat): Option<string>
    requires pageSize >= 1
  {
    if i + pageSize < |l| then Link(sort, codec, l[i + pageSize - 1]) else None
  }

  /** The page of the sorted list that starts at position i. */
  function SlicePage(sort: Sort, codec: Codec, l: seq<Row>, i: nat, pageSize: nat): Page
    requires pageSize >= 1 && i <= |l| && (i > 0 ==> i < |l|)
  {
    Page(Slice(l, i, pageSize), NextOf(sort, codec, l, i, pageSize), if i == 0 then None else Link(sort, codec, l[i]))
  }

  lemma FirstPageIsSlice(sort: Sort, codec: Codec, fetch: Fetch, pageSize: nat, l: seq<Row>)
    requires pageSize >= 1 && Slices(sort, fetch, l)
    ensures FirstPage(sort, codec, fetch, pageSize) == SlicePage(sort, codec, l, 0, pageSize)
  {
    assert SlicesAt(sort, fetch, l, None, pageSize + 1);
  }

  lemma TakeSlices(l: seq<Row>, n: nat, pageSize: nat)
    requires n <= |l|
    ensures Take(Take(l[n..], pageSize + 1), pageSize) == Slice(l, n, pageSize)
    ensures |Take(l[n..], pageSize + 1)| > pageSize <==> n + pageSize < |l|
    ensures Take(l[n..], pageSize + 1) == [] <==> n == |l|
  {
  }

  lemma AfterPageIsSlice(sort: Sort, codec: Codec, l: seq<Row>, n: nat, pageSize: nat)
    requires pageSize >= 1 && n < |l|
    ensures |Take(l[n..], pageSize + 1)| > 0
    ensures AfterPage(sort, codec, Take(l[n..], pageSize + 1), pageSize) ==
      Page(Slice(l, n, pageSize), NextOf(sort, codec, l, n, pageSize), Link(sort, codec, l[n]))
  {
    TakeSlices(l, n, pageSize);
  }

  /** After a cursor with n rows up to it: the next slice, or the first page when nothing is past it. */
  lemma PageAfterPosition(sort: Sort, codec: Codec, fetch: Fetch, params: Params, at: Row, pageSize: nat, l: seq<Row>,
                          n: nat)
    requires pageSize >= 1 && n <= |l| && ResolveSeek(sort, codec, params) == Some(Seek(at, true))
    requires fetch(Some(at), sort.DirectionOf(), pageSize + 1) == Take(l[n..], pageSize + 1)
    ensures KeysetPage(sort, codec, fetch, params, pageSize) ==
      if n == |l| then FirstPage(sort, codec, fetch, pageSize)
      else Page(Slice(l, n, pageSize), NextOf(sort, codec, l, n, pageSize), Link(sort, codec, l[n]))
  {
    TakeSlices(l, n, pageSize);
    if n < |l| {
      AfterPageIsSlice(sort, codec, l, n, pageSize);
    }
  }

  lemma TakeBackwards(l: seq<Row>, m: nat, pageSize: nat)
    requires m <= |l|
    ensures |Take(Reverse(l[..m]), pageSize + 1)| > pageSize <==> m > pageSize
    ensures m > pageSize ==> Reverse(Take(Take(Reverse(l[..m]), pageSize + 1), pageSize)) == l[m - pageSize..m]
  {
  }

  lemma BeforePageIsSlice(sort: Sort, codec: Codec, rows: seq<Row>, l: seq<Row>, m: nat, pageSize: nat)
    requires 1 <= pageSize < m <= |l| && |rows| > pageSize
    requires Reverse(Take(rows, pageSize)) == l[m - pageSize..m]
    ensures BeforePage(sort, codec, rows, pageSize) ==
      Page(l[m - pageSize..m], Link(sort, codec, l[m - 1]), Link(sort, codec, l[m - pageSize]))
  {
    var items := l[m - pageSize..m];
    assert items[0] == l[m - pageSize] && items[pageSize - 1] == l[m - 1];
  }

  /** Before a cursor with m rows before it: the slice that ends at it, or the first page when they fit on one. */
  lemma PageBeforePosition(sort: Sort, codec: Codec, fetch: Fetch, params: Params, at: Row, pageSize: nat, l: seq<Row>,
                           m: nat)
    requires pageSize >= 1 && m <= |l| && ResolveSeek(sort, codec, params) == Some(Seek(at, false))
    requires fetch(Some(at), Flip(sort.DirectionOf()), pageSize + 1) == Take(Reverse(l[..m]), pageSize + 1)
    ensures KeysetPage(sort, codec, fetch, params, pageSize) ==
      if m <= pageSize then FirstPage(sort, codec, fetch, pageSize)
      else Page(l[m - pageSize..m], Link(sort, codec, l[m - 1]), Link(sort, codec, l[m - pageSize]))
  {
    TakeBackwards(l, m, pageSize);
    if m > pageSize {
      BeforePageIsSlice(sort, codec, Take(Reverse(l[..m]), pageSize + 1), l, m, pageSize);
    }
  }

  /** Any cursor, its row still there or not: the slice of the list past it, page one when nothing is. */
  lemma PageAfterCursor(sort: Sort, codec: Codec, fetch: Fetch, table: set<Row>, params: Params, at: Row, pageSize: nat,
                        l: seq<Row>, n: nat)
    requires pageSize >= 1 && ReadsTable(sort, fetch, table) && forall r :: r in table ==> sort.Admits(r)
    requires ResolveSeek(sort, codec, params) == Some(Seek(at, true))
    requires l == Listing(sort, table) && n == CountThrough(sort, sort.DirectionOf(), l, at)
    ensures n <= |l|
    ensures KeysetPage(sort, codec, fetch, params, pageSize) ==
      if n == |l| then FirstPage(sort, codec, fetch, pageSize)
      else Page(Slice(l, n, pageSize), NextOf(sort, codec, l, n, pageSize), Link(sort, codec, l[n]))
  {
    FetchAfter(sort, fetch, table, at, pageSize + 1);
    PageAfterPosition(sort, codec, fetch, params, at, pageSize, l, n);
  }

  /** Any cursor: the slice of the list that ends at it, page one when no more than a page precedes it. */
  lemma PageBeforeCursor(sort: Sort, codec: Codec, fetch: Fetch, table: set<Row>, params: Params, at: Row,
                         pageSize: nat, l: seq<Row>, m: nat)
    requires pageSize >= 1 && ReadsTable(sort, fetch, table) && forall r :: r in table ==> sort.Admits(r)
    requires ResolveSeek(sort, codec, params) == Some(Seek(at, false))
    requires l == Listing(sort, table) && m == CountBefore(sort, sort.DirectionOf(), l, at)
    ensures m <= |l|
    ensures KeysetPage(sort, codec, fetch, params, pageSize) ==
      if m <= pageSize then FirstPage(sort, codec, fetch, pageSize)
      else Page(l[m - pageSize..m], Link(sort, codec, l[m - 1]), Link(sort, codec, l[m - pageSize]))
  {
    FetchBefore(sort, fetch, table, at, pageSize + 1);
    PageBeforePosition(sort, codec, fetch, params, at, pageSize, l, m);
  }

  /** The Next link of a page whose last row is row i of the list. */
  lemma NextAfterRow(sort: Sort, codec: Codec, fetch: Fetch, pageSize: nat, l: seq<Row>, i: nat)
    requires pageSize >= 1 && RoundTrips(codec) && Slices(sort, fetch, l) && i < |l|
    ensures KeysetPage(sort, codec, fetch, Params(Link(sort, codec, l[i]), None), pageSize) ==
      if i + 1 == |l| then FirstPage(sort, codec, fetch, pageSize) else SlicePage(sort, codec, l, i + 1, pageSize)
  {
    assert SlicesAt(sort, fetch, l, Some(i), pageSize + 1);
    CursorRoundTrips(sort, codec, l[i]);
    PageAfterPosition(sort, codec, fetch, Params(Link(sort, codec, l[i]), None), l[i], pageSize, l, i + 1);
  }

  /** The Prev link of a page whose first row is row k of the list. */
  lemma PageBeforeRow(sort: Sort, codec: Codec, fetch: Fetch, pageSize: nat, l: seq<Row>, k: nat, first: Page)
    returns (page: Page)
    requires pageSize >= 1 && RoundTrips(codec) && Slices(sort, fetch, l) && k < |l|
    requires first == FirstPage(sort, codec, fetch, pageSize)
    ensures page == KeysetPage(sort, codec, fetch, Params(None, Link(sort, codec, l[k])), pageSize)
    ensures page == if k <= pageSize then first
                    else Page(l[k - pageSize..k], Link(sort, codec, l[k - 1]), Link(sort, codec, l[k - pageSize]))
  {
    assert SlicesAt(sort, fetch, l, Some(k), pageSize + 1);
    CursorRoundTrips(sort, codec, l[k]);
    PageBeforePosition(sort, codec, fetch, Params(None, Link(sort, codec, l[k])), l[k], pageSize, l, k);
    page := KeysetPage(sort, codec, fetch, Params(None, Link(sort, codec, l[k])), pageSize);
  }

  lemma FirstPageOf(sort: Sort, codec: Codec, fetch: Fetch, pageSize: nat, l: seq<Row>) returns (first: Page)
    requires pageSize >= 1 && Slices(sort, fetch, l)
    ensures first == FirstPage(sort, codec, fetch, pageSize) && first == SlicePage(sort, codec, l, 0, pageSize)
  {
    FirstPageIsSlice(sort, codec, fetch, pageSize, l);
    first := FirstPage(sort, codec, fetch, pageSize);
  }

  /** The Prev link of the page at i + pageSize leads back to the page at i, be it page one. */
  lemma PrevOfSlice(sort: Sort, codec: Codec, fetch: Fetch, pageSize: nat, l: seq<Row>, i: nat)
    requires pageSize >= 1 && RoundTrips(codec) && Slices(sort, fetch, l) && i + pageSize < |l|
    ensures KeysetPage(sort, codec, fetch, Params(None, Link(sort, codec, l[i + pageSize])), pageSize) ==
      SlicePage(sort, codec, l, i, pageSize)
  {
    var k := i + pageSize;
    var first := FirstPageOf(sort, codec, fetch, pageSize, l);
    var page := PageBeforeRow(sort, codec, fetch, pageSize, l, k, first);
    InnerSlice(sort, codec, l, i, k, pageSize, first, page);
  }

  lemma InnerSlice(sort: Sort, codec: Codec, l: seq<Row>, i: nat, k: nat, pageSize: nat, first: Page, page: Page)
    requires pageSize >= 1 && i + pageSize == k < |l| && first == SlicePage(sort, codec, l, 0, pageSize)
    requires page == if k <= pageSize then first
                     else Page(l[k - pageSize..k], Link(sort, codec, l[k - 1]), Link(sort, codec, l[k - pageSize]))
    ensures page == SlicePage(sort, codec, l, i, pageSize)
  {
  }

  // ---- Following nextCursor ----

  /** The k-th page a reader gets who starts on page one and follows nextCursor. */
  function NthPage(sort: Sort, codec: Codec, fetch: Fetch, pageSize: nat, k: nat): Option<Page>
    requires pageSize >= 1
  {
    if k == 0 then Some(KeysetPage(sort, codec, fetch, Params(None, None), pageSize))
    else
      var last := NthPage(sort, codec, fetch, pageSize, k - 1);
      if last.None? || last.value.nextCursor.None? then None
      else Some(KeysetPage(sort, codec, fetch, Params(last.value.nextCursor, None), pageSize))
  }

  /** Where page k starts: at k * pageSize. */
  function Start(k: nat, pageSize: nat): nat {
    if k == 0 then 0 else Start(k - 1, pageSize) + pageSize
  }

  lemma {:induction false} StartIsMultiple(k: nat, pageSize: nat)
    ensures Start(k, pageSize) == k * pageSize
  {
    if k > 0 {
      StartIsMultiple(k - 1, pageSize);
      Distribute(k - 1, 1, pageSize);
    }
  }

  /** Page k of the list, if the list reaches that far. */
  function ListPage(sort: Sort, codec: Codec, l: seq<Row>, i: nat, pageSize: nat): Option<Page>
    requires pageSize >= 1
  {
    if i == 0 || i < |l| then Some(SlicePage(sort, codec, l, i, pageSize)) else None
  }

  /** What follows a slice is the next slice, or nothing. */
  lemma FollowSlice(sort: Sort, codec: Codec, fetch: Fetch, pageSize: nat, l: seq<Row>, i: nat,
                    last: Option<Page>, next: Option<Page>)
    requires pageSize >= 1 && RoundTrips(codec) && Slices(sort, fetch, l)
    requires last == ListPage(sort, codec, l, i, pageSize)
    requires next == if last.None? || last.value.nextCursor.None? then None
                     else Some(KeysetPage(sort, codec, fetch, Params(last.value.nextCursor, None), pageSize))
    ensures next == ListPage(sort, codec, l, i + pageSize, pageSize)
  {
    if i + pageSize < |l| {
      NextAfterRow(sort, codec, fetch, pageSize, l, i + pageSize - 1);
    }
  }

  lemma PageZero(sort: Sort, codec: Codec, fetch: Fetch, pageSize: nat, l: seq<Row>)
    requires pageSize >= 1 && Slices(sort, fetch, l)
    ensures NthPage(sort, codec, fetch, pageSize, 0) == ListPage(sort, codec, l, 0, pageSize)
  {
    assert ResolveSeek(sort, codec, Params(None, None)) == None;
    FirstPageIsSlice(sort, codec, fetch, pageSize, l);
  }

  lemma NthPageFollows(sort: Sort, codec: Codec, fetch: Fetch, pageSize: nat, k: nat, last: Option<Page>)
    requires pageSize >= 1 && k >= 1 && last == NthPage(sort, codec, fetch, pageSize, k - 1)
    ensures NthPage(sort, codec, fetch, pageSize, k) ==
      if last.None? || last.value.nextCursor.None? then None
      else Some(KeysetPage(sort, codec, fetch, Params(last.value.nextCursor, None), pageSize))
  {
  }

  lemma NthPageIsNextSlice(sort: Sort, codec: Codec, fetch: Fetch, pageSize: nat, k: nat, l: seq<Row>, i: nat)
    requires pageSize >= 1 && RoundTrips(codec) && Slices(sort, fetch, l) && k >= 1
    requires NthPage(sort, codec, fetch, pageSize, k - 1) == ListPage(sort, codec, l, i, pageSize)
    ensures NthPage(sort, codec, fetch, pageSize, k) == ListPage(sort, codec, l, i + pageSize, pageSize)
  {
    var last, next := NthPage(sort, codec, fetch, pageSize, k - 1), NthPage(sort, codec, fetch, pageSize, k);
    NthPageFollows(sort, codec, fetch, pageSize, k, last);
    FollowSlice(sort, codec, fetch, pageSize, l, i, last, next);
  }

  lemma {:induction false} PageFrom(sort: Sort, codec: Codec, fetch: Fetch, pageSize: nat, k: nat, l: seq<Row>, i: nat)
    requires pageSize >= 1 && RoundTrips(codec) && Slices(sort, fetch, l) && i == Start(k, pageSize)
    ensures NthPage(sort, codec, fetch, pageSize, k) == ListPage(sort, codec, l, i, pageSize)
    decreases k
  {
    if k == 0 {
      PageZero(sort, codec, fetch, pageSize, l);
    } else {
      var j := Start(k - 1, pageSize);
      PageFrom(sort, codec, fetch, pageSize, k - 1, l, j);
      NthPageIsNextSlice(sort, codec, fetch, pageSize, k, l, j);
    }
  }

  /** Page k is the slice at k * pageSize, if there is one. */
  lemma PagesAreSlices(sort: Sort, codec: Codec, fetch: Fetch, pageSize: nat, k: nat, l: seq<Row>)
    requires pageSize >= 1 && RoundTrips(codec) && Slices(sort, fetch, l)
    ensures NthPage(sort, codec, fetch, pageSize, k) == ListPage(sort, codec, l, k * pageSize, pageSize)
  {
    StartIsMultiple(k, pageSize);
    PageFrom(sort, codec, fetch, pageSize, k, l, k * pageSize);
  }

  /** The items of the first k pages, one after the other. */
  function ItemsThrough(sort: Sort, codec: Codec, fetch: Fetch, pageSize: nat, k: nat): seq<Row>
    requires pageSize >= 1
  {
    if k == 0 then [] else
    var page := NthPage(sort, codec, fetch, pageSize, k - 1);
    ItemsThrough(sort, codec, fetch, pageSize, k - 1) + (if page.Some? then page.value.items else [])
  }

  lemma ItemsFollow(sort: Sort, codec: Codec, fetch: Fetch, pageSize: nat, k: nat, page: Option<Page>)
    requires pageSize >= 1 && k >= 1 && page == NthPage(sort, codec, fetch, pageSize, k - 1)
    ensures ItemsThrough(sort, codec, fetch, pageSize, k) ==
      ItemsThrough(sort, codec, fetch, pageSize, k - 1) + (if page.Some? then page.value.items else [])
  {
  }

  lemma TakeThenSlice(sort: Sort, codec: Codec, l: seq<Row>, i: nat, pageSize: nat, page: Option<Page>)
    requires pageSize >= 1 && page == ListPage(sort, codec, l, i, pageSize)
    ensures Take(l, i + pageSize) == Take(l, i) + (if page.Some? then page.value.items else [])
  {
  }

  lemma ItemsGrow(sort: Sort, codec: Codec, l: seq<Row>, i: nat, pageSize: nat, page: Option<Page>, items: seq<Row>)
    requires pageSize >= 1 && page == ListPage(sort, codec, l, i, pageSize) && items == Take(l, i)
    ensures items + (if page.Some? then page.value.items else []) == Take(l, i + pageSize)
  {
    TakeThenSlice(sort, codec, l, i, pageSize, page);
  }

  lemma {:induction false} ItemsThroughIsPrefix(sort: Sort, codec: Codec, fetch: Fetch, pageSize: nat, k: nat,
                                                l: seq<Row>)
    requires pageSize >= 1 && RoundTrips(codec) && Slices(sort, fetch, l)
    ensures ItemsThrough(sort, codec, fetch, pageSize, k) == Take(l, Start(k, pageSize))
    decreases k
  {
    if k > 0 {
      ItemsThroughIsPrefix(sort, codec, fetch, pageSize, k - 1, l);
      PageFrom(sort, codec, fetch, pageSize, k - 1, l, Start(k - 1, pageSize));
      var page := NthPage(sort, codec, fetch, pageSize, k - 1);
      ItemsFollow(sort, codec, fetch, pageSize, k, page);
      ItemsGrow(sort, codec, l, Start(k - 1, pageSize), pageSize, page,
                ItemsThrough(sort, codec, fetch, pageSize, k - 1));
    }
  }

  function PageCount(n: nat, pageSize: nat): nat
    requires pageSize >= 1
  {
    if n == 0 then 1 else (n - 1) / pageSize + 1
  }

  lemma PageCountBounds(n: nat, pageSize: nat)
    requires pageSize >= 1
    ensures PageCount(n, pageSize) >= 1
    ensures (PageCount(n, pageSize) - 1) * pageSize <= n <= PageCount(n, pageSize) * pageSize
    ensures n > 0 ==> (PageCount(n, pageSize) - 1) * pageSize < n
  {
    if n > 0 {
      DivMod(n - 1, pageSize);
      QuotientIsNatural(n - 1, pageSize);
      Distribute((n - 1) / pageSize, 1, pageSize);
    }
  }

  /** Page k exists exactly for k below the page count. */
  lemma PageExists(n: nat, pageSize: nat, k: nat)
    requires pageSize >= 1
    ensures k < PageCount(n, pageSize) <==> Start(k, pageSize) == 0 || Start(k, pageSize) < n
  {
    var count := PageCount(n, pageSize);
    PageCountBounds(n, pageSize);
    StartIsMultiple(k, pageSize);
    if k < count {
      Scale(k, count - 1, pageSize);
    } else {
      Scale(count, k, pageSize);
    }
    assert k > 0 ==> Start(k, pageSize) > 0;
  }

  lemma FollowingNextReadsSlices(sort: Sort, codec: Codec, fetch: Fetch, pageSize: nat, l: seq<Row>)
    requires pageSize >= 1 && RoundTrips(codec) && Slices(sort, fetch, l)
    ensures ItemsThrough(sort, codec, fetch, pageSize, PageCount(|l|, pageSize)) == l
    ensures forall k: nat :: NthPage(sort, codec, fetch, pageSize, k).Some? <==> k < PageCount(|l|, pageSize)
  {
    var count := PageCount(|l|, pageSize);
    PageCountBounds(|l|, pageSize);
    StartIsMultiple(count, pageSize);
    ItemsThroughIsPrefix(sort, codec, fetch, pageSize, count, l);
    forall k: nat ensures NthPage(sort, codec, fetch, pageSize, k).Some? <==> k < count {
      PageExists(|l|, pageSize, k);
      PageFrom(sort, codec, fetch, pageSize, k, l, Start(k, pageSize));
    }
  }

  /**
   Following nextCursor from page one over a fixed table returns, page after page, exactly the
   sorted list, every row once, and ends after ceil(n / pageSize) pages, at least one.
   */
  lemma FollowingNextReadsTheList(sort: Sort, codec: Codec, fetch: Fetch, table: set<Row>, pageSize: nat)
    requires pageSize >= 1 && RoundTrips(codec) && ReadsTable(sort, fetch, table) &&
      forall r :: r in table ==> sort.Admits(r)
    ensures ItemsThrough(sort, codec, fetch, pageSize, PageCount(|table|, pageSize)) == Listing(sort, table)
    ensures forall k: nat :: NthPage(sort, codec, fetch, pageSize, k).Some? <==> k < PageCount(|table|, pageSize)
  {
    TableSlices(sort, fetch, table);
    FollowingNextReadsSlices(sort, codec, fetch, pageSize, Listing(sort, table));
  }

  lemma PrevOfPage(sort: Sort, codec: Codec, fetch: Fetch, pageSize: nat, l: seq<Row>, i: nat, before: Option<Page>,
                   page: Page)
    requires pageSize >= 1 && RoundTrips(codec) && Slices(sort, fetch, l)
    requires before == ListPage(sort, codec, l, i, pageSize) &&
      Some(page) == ListPage(sort, codec, l, i + pageSize, pageSize)
    ensures page.prevCursor.Some?
    ensures before == Some(KeysetPage(sort, codec, fetch, Params(None, page.prevCursor), pageSize))
  {
    PrevOfSlice(sort, codec, fetch, pageSize, l, i);
  }

  lemma NeighbouringPages(sort: Sort, codec: Codec, fetch: Fetch, pageSize: nat, k: nat, l: seq<Row>, i: nat)
    requires pageSize >= 1 && RoundTrips(codec) && Slices(sort, fetch, l) && k >= 1 && i == Start(k - 1, pageSize)
    ensures NthPage(sort, codec, fetch, pageSize, k - 1) == ListPage(sort, codec, l, i, pageSize)
    ensures NthPage(sort, codec, fetch, pageSize, k) == ListPage(sort, codec, l, i + pageSize, pageSize)
  {
    PageFrom(sort, codec, fetch, pageSize, k - 1, l, i);
    PageFrom(sort, codec, fetch, pageSize, k, l, i + pageSize);
  }

  lemma PrevUndoesNextInSlices(sort: Sort, codec: Codec, fetch: Fetch, pageSize: nat, k: nat, page: Page, l: seq<Row>)
    requires pageSize >= 1 && RoundTrips(codec) && Slices(sort, fetch, l)
    requires k >= 1 && NthPage(sort, codec, fetch, pageSize, k) == Some(page)
    ensures page.prevCursor.Some?
    ensures NthPage(sort, codec, fetch, pageSize, k - 1) ==
      Some(KeysetPage(sort, codec, fetch, Params(None, page.prevCursor), pageSize))
  {
    var i := Start(k - 1, pageSize);
    NeighbouringPages(sort, codec, fetch, pageSize, k, l, i);
    PrevOfPage(sort, codec, fetch, pageSize, l, i, NthPage(sort, codec, fetch, pageSize, k - 1), page);
  }

  /** The Prev link of any page but the first leads to the page it was reached from. */
  lemma PrevUndoesNext(sort: Sort, codec: Codec, fetch: Fetch, table: set<Row>, pageSize: nat, k: nat, page: Page)
    requires pageSize >= 1 && RoundTrips(codec) && ReadsTable(sort, fetch, table) &&
      forall r :: r in table ==> sort.Admits(r)
    requires k >= 1 && NthPage(sort, codec, fetch, pageSize, k) == Some(page)
    ensures page.prevCursor.Some?
    ensures NthPage(sort, codec, fetch, pageSize, k - 1) ==
      Some(KeysetPage(sort, codec, fetch, Params(None, page.prevCursor), pageSize))
  {
    TableSlices(sort, fetch, table);
    PrevUndoesNextInSlices(sort, codec, fetch, pageSize, k, page, Listing(sort, table));
  }

  /** Rows are left at or past a position exactly when not all of the list comes before it. */
  lemma RowsLeft(sort: Sort, scan: Direction, table: set<Row>, at: Row, l: seq<Row>)
    requires l == List(sort, scan, table)
    ensures CountBefore(sort, scan, l, at) <= |l|
    ensures CountBefore(sort, scan, l, at) < |l| <==> exists r :: r in table && !Before(sort, scan, r, at)
  {
    ListIsSorted(sort, scan, table);
    CountsPart(sort, scan, l, at);
    var m := CountBefore(sort, scan, l, at);
    if m < |l| {
      assert l[m] in l && !Before(sort, scan, l[m], at);
    } else {
      forall r | r in table ensures Before(sort, scan, r, at) {
        assert r in l;
      }
    }
  }

  lemma BackwardPageNext(sort: Sort, codec: Codec, fetch: Fetch, table: set<Row>, at: Row, pageSize: nat, l: seq<Row>,
                         m: nat)
    requires 1 <= pageSize && RoundTrips(codec) && sort.Admits(at)
    requires ReadsTable(sort, fetch, table) && forall r :: r in table ==> sort.Admits(r)
    requires l == Listing(sort, table) && pageSize < m == CountBefore(sort, sort.DirectionOf(), l, at) <= |l|
    ensures KeysetPage(sort, codec, fetch, Params(None, Link(sort, codec, at)), pageSize).nextCursor ==
      Link(sort, codec, l[m - 1])
  {
    CursorRoundTrips(sort, codec, at);
    PageBeforeCursor(sort, codec, fetch, table, Params(None, Link(sort, codec, at)), at, pageSize, l, m);
  }

  /** Only the Next link of the last row leads to page one, whose Prev link is empty. */
  lemma NextIsFirstPage(sort: Sort, codec: Codec, fetch: Fetch, pageSize: nat, l: seq<Row>, i: nat,
                        next: Option<string>)
    requires pageSize >= 1 && RoundTrips(codec) && Slices(sort, fetch, l) && i < |l| && next == Link(sort, codec, l[i])
    ensures i + 1 == |l| <==>
      KeysetPage(sort, codec, fetch, Params(next, None), pageSize) == FirstPage(sort, codec, fetch, pageSize)
  {
    NextAfterRow(sort, codec, fetch, pageSize, l, i);
    FirstPageIsSlice(sort, codec, fetch, pageSize, l);
  }

  lemma BackwardNextLeadsOn(sort: Sort, codec: Codec, fetch: Fetch, table: set<Row>, at: Row, pageSize: nat, page: Page,
                            l: seq<Row>, m: nat)
    requires 1 <= pageSize && RoundTrips(codec) && sort.Admits(at)
    requires ReadsTable(sort, fetch, table) && forall r :: r in table ==> sort.Admits(r)
    requires l == Listing(sort, table) && pageSize < m == CountBefore(sort, sort.DirectionOf(), l, at) <= |l|
    requires page == KeysetPage(sort, codec, fetch, Params(None, Link(sort, codec, at)), pageSize)
    ensures page.nextCursor.Some?
    ensures m < |l| <==>
      KeysetPage(sort, codec, fetch, Params(page.nextCursor, None), pageSize) != FirstPage(sort, codec, fetch, pageSize)
  {
    TableSlices(sort, fetch, table);
    BackwardPageNext(sort, codec, fetch, table, at, pageSize, l, m);
    NextIsFirstPage(sort, codec, fetch, pageSize, l, m - 1, page.nextCursor);
  }

  /**
   A page read backwards always offers a Next link. It leads on exactly when some row is left at or
   past the cursor it was read from; otherwise, its row and all later ones being gone, back to page one.
   */
  lemma NextOfBackwardPage(sort: Sort, codec: Codec, fetch: Fetch, table: set<Row>, at: Row, pageSize: nat, page: Page)
    requires pageSize >= 1 && RoundTrips(codec) && ReadsTable(sort, fetch, table) &&
      forall r :: r in table ==> sort.Admits(r)
    requires sort.Admits(at) && CountBefore(sort, sort.DirectionOf(), Listing(sort, table), at) > pageSize
    requires page == KeysetPage(sort, codec, fetch, Params(None, Link(sort, codec, at)), pageSize)
    ensures page.nextCursor.Some?
    ensures (exists r :: r in table && !Before(sort, sort.DirectionOf(), r, at)) <==>
      KeysetPage(sort, codec, fetch, Params(page.nextCursor, None), pageSize) != FirstPage(sort, codec, fetch, pageSize)
  {
    var l := Listing(sort, table);
    var m := CountBefore(sort, sort.DirectionOf(), l, at);
    RowsLeft(sort, sort.DirectionOf(), table, at, l);
    BackwardNextLeadsOn(sort, codec, fetch, table, at, pageSize, page, l, m);
  }

  lemma ListOfTwo(sort: Sort, r: Row, s: Row, at: Row)
    requires Before(sort, sort.DirectionOf(), r, s) && Before(sort, sort.DirectionOf(), s, at)
    ensures Listing(sort, {r, s}) == [r, s] && CountBefore(sort, sort.DirectionOf(), [r, s], at) == 2
  {
    IsList(sort, sort.DirectionOf(), {r, s}, [r, s]);
    BeforeIsStrictTotalOrder(sort, sort.DirectionOf(), r, s, at);
    assert [r, s][1..] == [s] && [s][1..] == [];
    assert CountBefore(sort, sort.DirectionOf(), [r, s][1..], at) == 1;
  }

  /**
   Of three rows, one a page, the last is deleted while it is on screen: Prev shows the second, and its Next
   page one.
   */
  lemma DeletedRowSendsNextToPageOne(codec: Codec, fetch: Fetch)
    requires RoundTrips(codec) && ReadsTable(RowValue(Asc), fetch, {Row(Some(1), 1), Row(Some(2), 2)})
    ensures var last := Link(RowValue(Asc), codec, Row(Some(3), 3));
      var page := KeysetPage(RowValue(Asc), codec, fetch, Params(None, last), 1);
      && page.items == [Row(Some(2), 2)] && page.nextCursor.Some?
      && KeysetPage(RowValue(Asc), codec, fetch, Params(page.nextCursor, None), 1) ==
        FirstPage(RowValue(Asc), codec, fetch, 1)
  {
    var sort, r, s, at := RowValue(Asc), Row(Some(1), 1), Row(Some(2), 2), Row(Some(3), 3);
    var params := Params(None, Link(sort, codec, at));
    ListOfTwo(sort, r, s, at);
    CursorRoundTrips(sort, codec, at);
    PageBeforeCursor(sort, codec, fetch, {r, s}, params, at, 1, [r, s], 2);
    NextOfBackwardPage(sort, codec, fetch, {r, s}, at, 1, KeysetPage(sort, codec, fetch, params, 1));
  }

  // ---- The export loop ----

  predicate LastWritten(sort: Sort, l: seq<Row>, n: nat, last: Option<Row>)
    requires n <= |l|
  {
    last == (if n == 0 then None else Some(l[n - 1])) && (last.Some? ==> sort.Admits(last.value))
  }

  lemma AnswerTakes(sort: Sort, table: set<Row>, w: Option<Where>, scan: Direction, take: nat, q: seq<Row>)
    requires q == List(sort, scan, Selected(table, w))
    ensures Answer(sort, table, w, scan, take) == Take(q, take)
  {
  }

  lemma FirstBatch(sort: Sort, table: set<Row>, batchSize: nat)
    ensures Answer(sort, table, None, sort.DirectionOf(), batchSize) == Take(Listing(sort, table), batchSize)
  {
    assert Selected(table, None) == table;
  }

  lemma LaterBatch(sort: Sort, table: set<Row>, at: Row, batchSize: nat, l: seq<Row>, n: nat)
    requires l == Listing(sort, table) && 0 < n <= |l| && at == l[n - 1] && forall r :: r in table ==> sort.Admits(r)
    ensures sort.Admits(at)
    ensures Answer(sort, table, Some(SeekWhere(sort, at, sort.DirectionOf())), sort.DirectionOf(), batchSize) ==
      Take(l[n..], batchSize)
  {
    var scan := sort.DirectionOf();
    ListIsSorted(sort, scan, table);
    assert at in l;
    SeekAfter(sort, table, at);
    CountsAtMember(sort, scan, l, n - 1);
    AnswerTakes(sort, table, Some(SeekWhere(sort, at, scan)), scan, batchSize, l[n..]);
  }

  lemma BatchIsSlice(sort: Sort, table: set<Row>, l: seq<Row>, n: nat, last: Option<Row>, batchSize: nat)
    requires l == Listing(sort, table) && n <= |l| && forall r :: r in table ==> sort.Admits(r)
    requires LastWritten(sort, l, n, last)
    ensures Answer(sort, table, Condition(sort, last, sort.DirectionOf()), sort.DirectionOf(), batchSize) ==
      Take(l[n..], batchSize)
  {
    if n == 0 {
      FirstBatch(sort, table, batchSize);
      assert l[0..] == l;
    } else {
      LaterBatch(sort, table, last.value, batchSize, l, n);
    }
  }

  lemma LastOfBatch(sort: Sort, table: set<Row>, l: seq<Row>, out: seq<Row>, keys: seq<Row>, last: Option<Row>)
    requires l == Listing(sort, table) && forall r :: r in table ==> sort.Admits(r)
    requires |out + keys| <= |l| && LastWritten(sort, l, |out|, last)
    requires keys != [] ==> keys[|keys| - 1] == l[|out + keys| - 1]
    ensures LastWritten(sort, l, |out + keys|, if keys == [] then last else Some(keys[|keys| - 1]))
  {
    ListIsSorted(sort, sort.DirectionOf(), table);
    if keys != [] {
      assert l[|out + keys| - 1] in l;
    }
  }

  lemma BatchExtends(l: seq<Row>, out: seq<Row>, keys: seq<Row>, batchSize: nat)
    requires |out| <= |l| && out == l[..|out|] && keys == Take(l[|out|..], batchSize)
    ensures |out + keys| <= |l| && out + keys == l[..|out + keys|]
    ensures keys != [] ==> keys[|keys| - 1] == l[|out + keys| - 1]
    ensures |keys| < batchSize ==> out + keys == l
  {
  }

  /** exportCandidatesCsv reads the table in batches by the same seek; a fixed table comes out once, in order. */
  method ExportRows(sort: Sort, ghost table: set<Row>, source: TableReader, batchSize: nat) returns (out: seq<Row>)
    requires batchSize >= 1 && source.table == table && forall r :: r in table ==> sort.Admits(r)
    ensures out == Listing(sort, table)
  {
    out := [];
    var last: Option<Row> := None;
    ghost var l := Listing(sort, table);
    while true
      invariant |out| <= |l| && out == l[..|out|] && LastWritten(sort, l, |out|, last)
      decreases |l| - |out|
    {
      BatchIsSlice(sort, table, l, |out|, last, batchSize);
      var keys := source.Fetch(sort, Condition(sort, last, sort.DirectionOf()), batchSize);
      BatchExtends(l, out, keys, batchSize);
      LastOfBatch(sort, table, l, out, keys, last);
      out := out + keys;
      if |keys| > 0 {
        last := Some(keys[|keys| - 1]);
      }
      if |keys| < batchSize {
        break;
      }
    }
  }

  /** The database connection of the export. */
  class TableReader {
    const table: set<Row>

    constructor (table: set<Row>)
      ensures this.table == table
    {
      this.table := table;
    }

    method FirstRow(sort: Sort, scan: Direction, s: set<Row>) returns (r: Row)
      requires s != {}
      ensures IsFirst(sort, scan, s, r)
    {
      FirstExists(sort, scan, s);
      r :| r in s && forall t :: t in s ==> t == r || Before(sort, scan, r, t);
    }

    method Fetch(sort: Sort, w: Option<Where>, take: nat) returns (rows: seq<Row>)
      ensures rows == Answer(sort, table, w, sort.DirectionOf(), take)
    {
      rows := [];
      var left := Selected(table, w);
      ghost var all := left;
      var scan := sort.DirectionOf();
      assert rows + List(sort, scan, left) == List(sort, scan, all);
      while |rows| < take && left != {}
        invariant |rows| <= take && rows + List(sort, scan, left) == List(sort, scan, all)
        decreases |left|
      {
        var r := FirstRow(sort, scan, left);
        ghost var tail := [r] + List(sort, scan, left - {r});
        ListSplits(sort, scan, left, r);
        assert rows + tail == rows + [r] + List(sort, scan, left - {r});
        rows, left := rows + [r], left - {r};
      }
      assert left == {} ==> List(sort, scan, left) == [];
      assert rows == Take(List(sort, scan, all), take) by {
        if left != {} {
          assert List(sort, scan, all)[..|rows|] == rows;
        }
      }
    }
  }
}
