/**
 The sorts of keyset pagination and their seek conditions in SQL's three-valued logic
 (backend/src/services/pagination.ts, applications.ts, candidates.ts). A row is reduced to its
 sort key, NULL or a number (dates and names by their rank), and its id.
 */
module SeekOrder {
  import opened Options

  datatype Direction = Asc | Desc

  function Flip(d: Direction): Direction {
    if d.Asc? then Desc else Asc
  }

  datatype Row = Row(key: Option<int>, id: int)

  /** CreatedAt: Prisma conditions with a redundant bound. RowValue: sqlSort. Score: nullable, best first. */
  datatype Sort = CreatedAt(d: Direction) | RowValue(d: Direction) | Score
  {
    function DirectionOf(): Direction {
      if Score? then Desc else d
    }

    /** createdAt and name are NOT NULL columns. */
    predicate Admits(r: Row) {
      Score? || r.key.Some?
    }
  }

  // ---- ORDER BY ----

  datatype Nulls = NullsFirst | NullsLast

  /** One column of ORDER BY: does x come strictly before y? */
  predicate ColumnBefore(d: Direction, nulls: Nulls, x: Option<int>, y: Option<int>) {
    match (x, y)
    case (None, None) => false
    case (None, Some(_)) => nulls.NullsFirst?
    case (Some(_), None) => nulls.NullsLast?
    case (Some(a), Some(b)) => if d.Asc? then a < b else a > b
  }

  /** The sorts' orderBy: the key column, then the id in the same direction. */
  predicate Before(sort: Sort, scan: Direction, r: Row, s: Row) {
    // Only scoreSort names a null order; the other keys are never null.
    var nulls := if scan.Desc? then NullsLast else NullsFirst;
    ColumnBefore(scan, nulls, r.key, s.key) || (r.key == s.key && if scan.Asc? then r.id < s.id else r.id > s.id)
  }

  lemma BeforeIsStrictTotalOrder(sort: Sort, scan: Direction, r: Row, s: Row, t: Row)
    ensures !Before(sort, scan, r, r)
    ensures Before(sort, scan, r, s) ==> !Before(sort, scan, s, r)
    ensures r == s || Before(sort, scan, r, s) || Before(sort, scan, s, r)
    ensures Before(sort, scan, r, s) && Before(sort, scan, s, t) ==> Before(sort, scan, r, t)
    ensures Before(sort, scan, r, s) <==> Before(sort, Flip(scan), s, r)
  {
  }

  /**
   What a sort puts first: dates and names as asked, ties by id in the same direction; scores best first,
   none last.
   */
  lemma ListingOrder(sort: Sort, r: Row, s: Row)
    requires sort.Admits(r) && sort.Admits(s)
    ensures Before(sort, sort.DirectionOf(), r, s) <==>
      match sort
      case CreatedAt(Asc) => r.key.value < s.key.value || (r.key == s.key && r.id < s.id)
      case CreatedAt(Desc) => r.key.value > s.key.value || (r.key == s.key && r.id > s.id)
      case RowValue(Asc) => r.key.value < s.key.value || (r.key == s.key && r.id < s.id)
      case RowValue(Desc) => r.key.value > s.key.value || (r.key == s.key && r.id > s.id)
      case Score =>
        || (r.key.Some? && s.key.None?)
        || (r.key.Some? && s.key.Some? && r.key.value > s.key.value)
        || (r.key == s.key && r.id > s.id)
  {
  }

  // ---- WHERE ----

  datatype Tri = True | False | Unknown

  function AndTri(a: Tri, b: Tri): Tri {
    if a.False? || b.False? then False else if a.Unknown? || b.Unknown? then Unknown else True
  }

  function OrTri(a: Tri, b: Tri): Tri {
    if a.True? || b.True? then True else if a.Unknown? || b.Unknown? then Unknown else False
  }

  function FromBool(b: bool): Tri {
    if b then True else False
  }

  datatype Where =
    | KeyLt(v: int) | KeyGt(v: int) | KeyLte(v: int) | KeyGte(v: int) | KeyEq(v: int)
    | KeyIsNull | KeyIsNotNull
    | IdLt(v: int) | IdGt(v: int)
    | And(a: Where, b: Where)
    | Or(a: Where, b: Where)
    | RowLt(k: int, i: int)
    | RowGt(k: int, i: int)

  function Compare(key: Option<int>, holds: int -> bool): Tri {
    if key.None? then Unknown else FromBool(holds(key.value))
  }

  function Eval(w: Where, r: Row): Tri {
    match w
    case KeyLt(v) => Compare(r.key, k => k < v)
    case KeyGt(v) => Compare(r.key, k => k > v)
    case KeyLte(v) => Compare(r.key, k => k <= v)
    case KeyGte(v) => Compare(r.key, k => k >= v)
    case KeyEq(v) => Compare(r.key, k => k == v)
    case KeyIsNull => FromBool(r.key.None?)
    case KeyIsNotNull => FromBool(r.key.Some?)
    case IdLt(v) => FromBool(r.id < v)
    case IdGt(v) => FromBool(r.id > v)
    case And(a, b) => AndTri(Eval(a, r), Eval(b, r))
    case Or(a, b) => OrTri(Eval(a, r), Eval(b, r))
    // Row-value comparison: by the first column, then, if those are equal, by the second.
    case RowLt(k, i) => OrTri(Compare(r.key, x => x < k), AndTri(Compare(r.key, x => x == k), FromBool(r.id < i)))
    case RowGt(k, i) => OrTri(Compare(r.key, x => x > k), AndTri(Compare(r.key, x => x == k), FromBool(r.id > i)))
  }

  // ---- seekWhere ----

  function PastKey(scan: Direction, v: int): Where {
    if scan.Desc? then KeyLt(v) else KeyGt(v)
  }

  function PastId(scan: Direction, v: int): Where {
    if scan.Desc? then IdLt(v) else IdGt(v)
  }

  function Through(scan: Direction, v: int): Where {
    if scan.Desc? then KeyLte(v) else KeyGte(v)
  }

  function SeekWhere(sort: Sort, at: Row, scan: Direction): Where
    requires sort.Admits(at)
  {
    match sort
    case CreatedAt(_) =>
      var key := at.key.value;
      And(Through(scan, key), Or(PastKey(scan, key), And(KeyEq(key), PastId(scan, at.id))))
    case RowValue(_) =>
      if scan.Desc? then RowLt(at.key.value, at.id) else RowGt(at.key.value, at.id)
    case Score =>
      var nullsLast := scan.Desc?;
      match at.key
      case None =>
        if nullsLast then And(KeyIsNull, PastId(scan, at.id))
        else Or(KeyIsNotNull, And(KeyIsNull, PastId(scan, at.id)))
      case Some(key) =>
        var past := Or(PastKey(scan, key), And(KeyEq(key), PastId(scan, at.id)));
        if nullsLast then Or(past, KeyIsNull) else past
  }

  /** The pair of conditions every seek is built on, unfolded. */
  lemma PastPair(scan: Direction, key: int, id: int, r: Row)
    ensures Eval(And(KeyEq(key), PastId(scan, id)), r) ==
      AndTri(Compare(r.key, k => k == key), FromBool(if scan.Desc? then r.id < id else r.id > id))
    ensures Eval(Or(PastKey(scan, key), And(KeyEq(key), PastId(scan, id))), r) ==
      OrTri(Compare(r.key, k => if scan.Desc? then k < key else k > key), Eval(And(KeyEq(key), PastId(scan, id)), r))
  {
  }

  /**
   A seek selects precisely the rows after the cursor in the scan's order: for every sort, in both
   scans, whether or not the cursor's own row still exists, and with NULL keys on either side.
   */
  lemma SeekIsExact(sort: Sort, at: Row, scan: Direction, r: Row)
    requires sort.Admits(at) && sort.Admits(r)
    ensures Eval(SeekWhere(sort, at, scan), r).True? <==> Before(sort, scan, at, r)
  {
    if at.key.Some? {
      PastPair(scan, at.key.value, at.id, r);
    } else {
      assert Eval(And(KeyIsNull, PastId(scan, at.id)), r).True? <==>
        r.key.None? && if scan.Desc? then r.id < at.id else r.id > at.id;
    }
  }

  /** The redundant bound of createdAtSort never costs a row. */
  lemma RedundantBoundIsRedundant(at: Row, scan: Direction, r: Row)
    requires at.key.Some? && r.key.Some?
    ensures Eval(SeekWhere(CreatedAt(Asc), at, scan), r) ==
      Eval(Or(PastKey(scan, at.key.value), And(KeyEq(at.key.value), PastId(scan, at.id))), r)
  {
    PastPair(scan, at.key.value, at.id, r);
  }
}
