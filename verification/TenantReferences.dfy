/**
 Foreign keys between the tables of the tenant models (backend/prisma/schema.prisma). They are looked
 up without regard to the company, and a delete reaches whatever refers to what it deletes.
 */
module TenantReferences {
  import opened Arith
  import opened Options
  import opened TenantScope

  /** The tables of the tenant models. */
  type Db = map<string, Table>

  function TableOf(db: Db, model: string): Table {
    if model in db then db[model] else []
  }

  datatype OnDelete = Cascade | SetNull

  /** A row's reference to the row of a model that has some key. */
  datatype Ref = Ref(model: string, key: Value, onDelete: OnDelete)

  /**
   What the schema says of the models: the engine of each, the references a row of it holds, which
   row a reference names, the columns of a row once some of its references are set to NULL, and the
   references that the policy of a model looks up among the rows its transaction may see.
   */
  datatype Schema = Schema(
    engine: string -> Engine,
    refs: (string, Row) -> set<Ref>,
    names: (Ref, Row) -> bool,
    detach: (string, Fields, set<Ref>) -> Fields,
    looked: (string, Ref) -> bool)

  function Detached(s: Schema, model: string, row: Row, lost: set<Ref>): Row {
    Row(row.company, s.detach(model, row.cells, lost))
  }

  // ---- Unique keys, which may be shared between companies ----

  /** Two rows with a unique key in common; a key may or may not include the company. */
  predicate Collide(e: Engine, r: Row, q: Row) {
    e.clash(r, q) || e.clash(q, r)
  }

  predicate ClashesWith(e: Engine, row: Row, t: Table) {
    exists q :: q in t && Collide(e, row, q)
  }

  predicate Clashes(e: Engine, t: Table) {
    t != [] && (ClashesWith(e, t[0], t[1..]) || Clashes(e, t[1..]))
  }

  ghost predicate KeysHold(s: Schema, db: Db) {
    forall m: string :: !Clashes(s.engine(m), TableOf(db, m))
  }

  lemma {:induction false} MineMembers(t: Table, company: string)
    ensures forall r :: r in Mine(t, company) <==> r in t && r.company == company
    ensures forall r :: r in Others(t, company) <==> r in t && r.company != company
  {
    if t != [] {
      MineMembers(t[1..], company);
      MineOfCons(t[0], t[1..], company);
      assert t == [t[0]] + t[1..];
    }
  }

  lemma {:induction false} TwoRowsClash(e: Engine, t: Table, p: Row, q: Row)
    requires p in t && q in t && p != q && Collide(e, p, q)
    ensures Clashes(e, t)
  {
    if t[0] == p {
      assert q in t[1..] && ClashesWith(e, t[0], t[1..]);
    } else if t[0] == q {
      assert p in t[1..] && Collide(e, q, p) && ClashesWith(e, t[0], t[1..]);
    } else {
      TwoRowsClash(e, t[1..], p, q);
    }
  }

  // ---- References ----

  ghost predicate Satisfied(s: Schema, db: Db, ref: Ref) {
    exists p :: p in TableOf(db, ref.model) && s.names(ref, p)
  }

  ghost predicate HoldsRef(s: Schema, db: Db, model: string, row: Row, ref: Ref) {
    row in TableOf(db, model) && ref in s.refs(model, row)
  }

  /** Some reference names no row. */
  ghost predicate Dangles(s: Schema, db: Db) {
    exists m, row, ref :: HoldsRef(s, db, m, row, ref) && !Satisfied(s, db, ref)
  }

  /**
   What a schema is: a reference names a row by a unique key; setting references to NULL removes
   them, and neither takes a key from the row that others refer to nor gives it one of another row.
   */
  ghost predicate Lawful(s: Schema) {
    && (forall ref, p, q :: s.names(ref, p) && s.names(ref, q) ==> Collide(s.engine(ref.model), p, q))
    && (forall m, row, lost :: s.refs(m, Detached(s, m, row, lost)) == s.refs(m, row) - lost)
    && (forall m, row, lost, ref :: s.names(ref, Detached(s, m, row, lost)) <==> s.names(ref, row))
    && (forall m, row, lost, q :: Collide(s.engine(m), Detached(s, m, row, lost), q) ==> Collide(s.engine(m), row, q))
  }

  lemma NamedOnce(s: Schema, db: Db, ref: Ref, p: Row, q: Row)
    requires Lawful(s) && KeysHold(s, db) && p in TableOf(db, ref.model) && q in TableOf(db, ref.model)
    requires s.names(ref, p) && s.names(ref, q)
    ensures p == q
  {
    if p != q {
      TwoRowsClash(s.engine(ref.model), TableOf(db, ref.model), p, q);
    }
  }

  // ---- Deletes ----

  /** The row falls within n rounds: it holds a cascading reference whose every row has fallen before. */
  ghost predicate Falls(s: Schema, db: Db, model: string, row: Row, n: nat)
    decreases n, 0
  {
    n > 0 && exists ref :: ref in s.refs(model, row) && ref.onDelete.Cascade? && Orphaned(s, db, ref, n - 1)
  }

  ghost predicate Orphaned(s: Schema, db: Db, ref: Ref, n: nat)
    decreases n, 1
  {
    forall p :: p in TableOf(db, ref.model) && s.names(ref, p) ==> Falls(s, db, ref.model, p, n)
  }

  ghost predicate Gone(s: Schema, db: Db, model: string, row: Row) {
    exists n: nat :: Falls(s, db, model, row, n)
  }

  /** No row that the reference names is left when the delete is done. */
  ghost predicate Lost(s: Schema, db: Db, ref: Ref) {
    forall p :: p in TableOf(db, ref.model) && s.names(ref, p) ==> Gone(s, db, ref.model, p)
  }

  ghost function LostRefs(s: Schema, db: Db, model: string, row: Row): set<Ref> {
    set ref | ref in s.refs(model, row) && Lost(s, db, ref)
  }

  /** What is left of a row that stays: itself, less the references it lost. */
  ghost function Left(s: Schema, db: Db, model: string, row: Row): Row {
    var lost := LostRefs(s, db, model, row);
    if lost == {} then row else Detached(s, model, row, lost)
  }

  ghost function Kept(s: Schema, db: Db, model: string, t: Table): Table {
    if t == [] then []
    else (if Gone(s, db, model, t[0]) then [] else [Left(s, db, model, t[0])]) + Kept(s, db, model, t[1..])
  }

  /** The database once ON DELETE CASCADE and ON DELETE SET NULL have run their course. */
  ghost function Sweep(s: Schema, db: Db): Db {
    map m | m in db :: Kept(s, db, m, db[m])
  }

  lemma TableOfSweep(s: Schema, db: Db, m: string)
    ensures TableOf(Sweep(s, db), m) == Kept(s, db, m, TableOf(db, m))
  {
  }

  lemma {:induction false} FallsSoon(s: Schema, db: Db, model: string, row: Row, n: nat, later: nat)
    requires Falls(s, db, model, row, n) && n <= later
    ensures Falls(s, db, model, row, later)
    decreases n
  {
    var ref :| ref in s.refs(model, row) && ref.onDelete.Cascade? && Orphaned(s, db, ref, n - 1);
    forall p | p in TableOf(db, ref.model) && s.names(ref, p) ensures Falls(s, db, ref.model, p, later - 1) {
      FallsSoon(s, db, ref.model, p, n - 1, later - 1);
    }
    assert Orphaned(s, db, ref, later - 1);
  }

  /** Rows that all fall have all fallen after some round. */
  lemma {:induction false} LastRound(s: Schema, db: Db, ref: Ref, t: Table) returns (n: nat)
    requires forall p :: p in t && s.names(ref, p) ==> Gone(s, db, ref.model, p)
    ensures forall p :: p in t && s.names(ref, p) ==> Falls(s, db, ref.model, p, n)
  {
    if t == [] {
      n := 0;
    } else {
      var k := LastRound(s, db, ref, t[1..]);
      n := k;
      if s.names(ref, t[0]) {
        assert t[0] in t;
        var first: nat :| Falls(s, db, ref.model, t[0], first);
        n := Max(k, first);
        FallsSoon(s, db, ref.model, t[0], first, n);
      }
      forall p | p in t && s.names(ref, p) ensures Falls(s, db, ref.model, p, n) {
        if p in t[1..] {
          FallsSoon(s, db, ref.model, p, k, n);
        }
      }
    }
  }

  /** A row goes exactly when it loses a cascading reference. */
  lemma GoneExactly(s: Schema, db: Db, model: string, row: Row)
    ensures Gone(s, db, model, row) <==> exists ref :: ref in LostRefs(s, db, model, row) && ref.onDelete.Cascade?
  {
    if Gone(s, db, model, row) {
      var n: nat :| Falls(s, db, model, row, n);
      var ref :| ref in s.refs(model, row) && ref.onDelete.Cascade? && Orphaned(s, db, ref, n - 1);
      forall p | p in TableOf(db, ref.model) && s.names(ref, p) ensures Gone(s, db, ref.model, p) {
        assert Falls(s, db, ref.model, p, n - 1);
      }
      assert ref in LostRefs(s, db, model, row);
    }
    if ref :| ref in LostRefs(s, db, model, row) && ref.onDelete.Cascade? {
      var n := LastRound(s, db, ref, TableOf(db, ref.model));
      assert Orphaned(s, db, ref, n);
      assert Falls(s, db, model, row, n + 1);
    }
  }

  lemma {:induction false} KeptMembers(s: Schema, db: Db, model: string, t: Table, row: Row)
    ensures row in t && !Gone(s, db, model, row) ==> Left(s, db, model, row) in Kept(s, db, model, t)
    ensures row in Kept(s, db, model, t) ==>
      exists q :: q in t && !Gone(s, db, model, q) && row == Left(s, db, model, q)
  {
    if t != [] {
      KeptMembers(s, db, model, t[1..], row);
    }
  }

  lemma LeftRefs(s: Schema, db: Db, model: string, row: Row)
    requires Lawful(s)
    ensures s.refs(model, Left(s, db, model, row)) == s.refs(model, row) - LostRefs(s, db, model, row)
    ensures forall ref :: s.names(ref, Left(s, db, model, row)) <==> s.names(ref, row)
    ensures Left(s, db, model, row) == row <==> LostRefs(s, db, model, row) == {}
    ensures Left(s, db, model, row).company == row.company
  {
    var lost := LostRefs(s, db, model, row);
    assert lost == {} ==> s.refs(model, row) - lost == s.refs(model, row);
    if ref :| ref in lost {
      assert ref in s.refs(model, row) && ref !in s.refs(model, row) - lost;
    }
  }

  /** A delete leaves no reference dangling: what it takes the row of goes along or lets go of it. */
  lemma SweptHolds(s: Schema, db: Db)
    requires Lawful(s)
    ensures !Dangles(s, Sweep(s, db))
  {
    var swept := Sweep(s, db);
    forall m, row, ref | HoldsRef(s, swept, m, row, ref) ensures Satisfied(s, swept, ref) {
      TableOfSweep(s, db, m);
      KeptMembers(s, db, m, TableOf(db, m), row);
      var was :| was in TableOf(db, m) && !Gone(s, db, m, was) && row == Left(s, db, m, was);
      LeftRefs(s, db, m, was);
      assert ref in s.refs(m, was) && !Lost(s, db, ref);
      var p :| p in TableOf(db, ref.model) && s.names(ref, p) && !Gone(s, db, ref.model, p);
      LeftRefs(s, db, ref.model, p);
      KeptMembers(s, db, ref.model, TableOf(db, ref.model), p);
      TableOfSweep(s, db, ref.model);
    }
  }

  lemma LeftCollide(s: Schema, db: Db, model: string, r: Row, q: Row)
    requires Lawful(s) && Collide(s.engine(model), Left(s, db, model, r), Left(s, db, model, q))
    ensures Collide(s.engine(model), r, q)
  {
    var e, left := s.engine(model), Left(s, db, model, q);
    assert Collide(e, r, left);
    assert Collide(e, left, r) && Collide(e, q, r);
  }

  lemma {:induction false} KeptKeepsKeys(s: Schema, db: Db, model: string, t: Table)
    requires Lawful(s) && !Clashes(s.engine(model), t)
    ensures !Clashes(s.engine(model), Kept(s, db, model, t))
  {
    if t != [] {
      var e, rest := s.engine(model), Kept(s, db, model, t[1..]);
      KeptKeepsKeys(s, db, model, t[1..]);
      assert [] + rest == rest;
      if !Gone(s, db, model, t[0]) {
        var left := Left(s, db, model, t[0]);
        forall q | q in rest ensures !Collide(e, left, q) {
          KeptMembers(s, db, model, t[1..], q);
          var was :| was in t[1..] && q == Left(s, db, model, was);
          if Collide(e, left, q) {
            LeftCollide(s, db, model, t[0], was);
            assert false;
          }
        }
        assert ([left] + rest)[1..] == rest;
      }
    }
  }

  /** A company's part of what is left is what is left of its part. */
  lemma {:induction false} KeptOfMine(s: Schema, db: Db, model: string, t: Table, company: string)
    requires Lawful(s)
    ensures Mine(Kept(s, db, model, t), company) == Kept(s, db, model, Mine(t, company))
  {
    if t != [] {
      var row, rest := t[0], Kept(s, db, model, t[1..]);
      KeptOfMine(s, db, model, t[1..], company);
      LeftRefs(s, db, model, row);
      MineOfCons(Left(s, db, model, row), rest, company);
      assert [] + rest == rest;
      if row.company == company {
        KeptOfCons(s, db, model, row, Mine(t[1..], company));
      }
      if Gone(s, db, model, row) {
        assert Kept(s, db, model, t) == rest;
      }
    }
  }

  lemma KeptOfCons(s: Schema, db: Db, model: string, row: Row, t: Table)
    ensures Kept(s, db, model, [row] + t) ==
      (if Gone(s, db, model, row) then [] else [Left(s, db, model, row)]) + Kept(s, db, model, t)
  {
    assert ([row] + t)[1..] == t;
  }

  lemma {:induction false} KeptIsShorter(s: Schema, db: Db, model: string, t: Table)
    ensures |Kept(s, db, model, t)| <= |t|
  {
    if t != [] {
      KeptIsShorter(s, db, model, t[1..]);
    }
  }

  /** Rows stay as they are exactly when none of them loses a reference. */
  lemma {:induction false} KeptUnchangedExactly(s: Schema, db: Db, model: string, t: Table)
    requires Lawful(s)
    ensures Kept(s, db, model, t) == t <==> forall row :: row in t ==> LostRefs(s, db, model, row) == {}
  {
    if t != [] {
      var row, rest := t[0], Kept(s, db, model, t[1..]);
      KeptUnchangedExactly(s, db, model, t[1..]);
      KeptIsShorter(s, db, model, t[1..]);
      GoneExactly(s, db, model, row);
      LeftRefs(s, db, model, row);
      assert t == [row] + t[1..];
      if !Gone(s, db, model, row) {
        assert Kept(s, db, model, t)[0] == Left(s, db, model, row) && Kept(s, db, model, t)[1..] == rest;
      }
    }
  }
}
