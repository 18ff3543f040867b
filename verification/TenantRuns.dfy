/**
 Whole runs of calls through the tenant clients of several companies, with unique keys and foreign
 keys, both of which look across companies: exactly when companies notice each other.
 */
module TenantRuns {
  import opened Collections
  import opened Options
  import opened TenantScope
  import opened TenantReferences

  // ---- Calls ----

  /** A query as a service of some company sends it, bound by the row policies or not (tenantTransaction, tenantDb). */
  datatype Call =
    Call(company: string, model: string, operation: Operation, args: Args, seed: int, bound: bool)

  /** What a call gives back: its outcome, or the error that stopped it. */
  type Reply = Result<Outcome, Violation>

  predicate IsDelete(operation: Operation) {
    operation.Delete? || operation.DeleteMany?
  }

  /** A database of one company's rows alone. */
  function OwnPart(db: Db, company: string): Db {
    map m | m in db :: Mine(db[m], company)
  }

  /** A policy refuses a written row when a reference it looks up names no row of the company. */
  ghost predicate Refuses(s: Schema, model: string, before: Db, draft: Db, company: string) {
    exists row, ref ::
      row in Mine(TableOf(draft, model), company) && row !in Mine(TableOf(before, model), company) &&
      ref in s.refs(model, row) && s.looked(model, ref) && !Satisfied(s, OwnPart(draft, company), ref)
  }

  ghost predicate Refused(s: Schema, before: Db, draft: Db, call: Call) {
    call.bound && Refuses(s, call.model, before, draft, call.company)
  }

  /**
   What becomes of a draft: rolled back when the policy refuses it, a table repeats a unique key or a
   reference dangles. A delete cascades instead. Changing a key that is referred to leaves the
   reference dangling.
   */
  ghost function Conclude(s: Schema, model: string, operation: Operation, refused: bool, before: Db, draft: Db,
                          got: Outcome)
    : (Db, Outcome)
  {
    if refused then (before, PolicyViolation)
    else if Clashes(s.engine(model), TableOf(draft, model)) then (before, UniqueViolation)
    else if IsDelete(operation) then (Sweep(s, draft), got)
    else if Dangles(s, draft) then (before, ForeignKeyViolation)
    else (draft, got)
  }

  ghost function Execute(s: Schema, home: Option<string>, call: Call, args: Args, db: Db): (Db, Outcome) {
    var (t, got) := Draft(s.engine(call.model), home, call.operation, args, call.seed, TableOf(db, call.model));
    var draft := db[call.model := t];
    Conclude(s, call.model, call.operation, Refused(s, db, draft, call), db, draft, got)
  }

  /** One call through the caller's tenant client, in the shared database. */
  ghost function Step(s: Schema, db: Db, call: Call): (Db, Reply) {
    match Scoped(call.operation, call.args, call.company)
    case Err(v) => (db, Err(v))
    case Ok(args) =>
      var (after, got) := Execute(s, None, call, args, db);
      (after, Ok(got))
  }

  /** The same call as the caller wrote it, in a database that holds the caller's company alone. */
  ghost function StepAlone(s: Schema, db: Db, call: Call): (Db, Reply) {
    match Scoped(call.operation, call.args, call.company)
    case Err(v) => (db, Err(v))
    case Ok(_) =>
      var (after, got) := Execute(s, Some(call.company), call, call.args, db);
      (after, Ok(got))
  }

  /** What a call would leave if no key stood in its way and nothing cascaded. */
  function DraftOf(s: Schema, db: Db, call: Call): Db
    requires Scoped(call.operation, call.args, call.company).Ok?
  {
    var args := Scoped(call.operation, call.args, call.company).value;
    db[call.model := Draft(s.engine(call.model), None, call.operation, args, call.seed, TableOf(db, call.model)).0]
  }

  // ---- One company's view ----

  ghost predicate Views(view: Db, db: Db, company: string) {
    forall m: string :: TableOf(view, m) == Mine(TableOf(db, m), company)
  }

  lemma OwnPartViews(db: Db, company: string)
    ensures Views(OwnPart(db, company), db, company)
  {
  }

  /** Every reference of the company's rows names a row of its own. */
  ghost predicate AtHome(s: Schema, db: Db, company: string) {
    !Dangles(s, OwnPart(db, company))
  }

  lemma DanglesAlike(s: Schema, a: Db, b: Db)
    requires forall m: string :: TableOf(a, m) == TableOf(b, m)
    ensures Dangles(s, a) <==> Dangles(s, b)
  {
    forall m, row, ref ensures HoldsRef(s, a, m, row, ref) <==> HoldsRef(s, b, m, row, ref) {}
    forall ref ensures Satisfied(s, a, ref) <==> Satisfied(s, b, ref) {}
  }

  lemma HomeView(s: Schema, db: Db, view: Db, company: string)
    requires Views(view, db, company)
    ensures AtHome(s, db, company) <==> !Dangles(s, view)
  {
    OwnPartViews(db, company);
    DanglesAlike(s, view, OwnPart(db, company));
  }

  lemma TableAfterWrite(db: Db, model: string, t: Table, m: string)
    ensures TableOf(db[model := t], m) == if m == model then t else TableOf(db, m)
  {
    if m != model {
      assert m in db[model := t] <==> m in db;
    }
  }

  lemma ViewAfterWrite(db: Db, view: Db, company: string, model: string, t: Table)
    requires Views(view, db, company)
    ensures Views(view[model := Mine(t, company)], db[model := t], company)
    ensures Mine(t, company) == Mine(TableOf(db, model), company) ==> Views(view, db[model := t], company)
  {
    forall m: string
      ensures TableOf(view[model := Mine(t, company)], m) == Mine(TableOf(db[model := t], m), company)
      ensures Mine(t, company) == Mine(TableOf(db, model), company) ==>
        TableOf(view, m) == Mine(TableOf(db[model := t], m), company)
    {
      TableAfterWrite(db, model, t, m);
      TableAfterWrite(view, model, Mine(t, company), m);
    }
  }

  // ---- Drafts ----

  lemma PartsOfParts(t: Table, company: string, other: string)
    requires company != other
    ensures Mine(Others(t, company), other) == Mine(t, other)
  {
  }

  lemma DraftFindsNoViolation(e: Engine, home: Option<string>, operation: Operation, args: Args, seed: int, t: Table)
    ensures Draft(e, home, operation, args, seed, t).1 != UniqueViolation
    ensures Draft(e, home, operation, args, seed, t).1 != ForeignKeyViolation
    ensures Draft(e, home, operation, args, seed, t).1 != PolicyViolation
  {
  }

  /** A draft leaves every other company's rows as they are. */
  lemma DraftOfOther(s: Schema, db: Db, view: Db, call: Call, company: string)
    requires Scoped(call.operation, call.args, call.company).Ok? && call.company != company && Views(view, db, company)
    ensures Views(view, DraftOf(s, db, call), company)
  {
    var t, u := TableOf(db, call.model), TableOf(DraftOf(s, db, call), call.model);
    ScopedDraft(s.engine(call.model), call.operation, call.args, call.company, call.seed, t);
    PartsOfParts(u, call.company, company);
    PartsOfParts(t, call.company, company);
    ViewAfterWrite(db, view, company, call.model, u);
  }

  /** A draft does to the caller's rows what the call as written would do in a database of their own. */
  lemma DraftOfOwn(s: Schema, db: Db, view: Db, call: Call)
    requires Scoped(call.operation, call.args, call.company).Ok? && Views(view, db, call.company)
    ensures var args := Scoped(call.operation, call.args, call.company).value;
      var (u, got) := Draft(s.engine(call.model), None, call.operation, args, call.seed, TableOf(db, call.model));
      var alone :=
        Draft(s.engine(call.model), Some(call.company), call.operation, call.args, call.seed,
              TableOf(view, call.model));
      && alone == (Mine(u, call.company), got) && DraftOf(s, db, call) == db[call.model := u]
      && got != UniqueViolation && got != ForeignKeyViolation
      && Views(view[call.model := alone.0], DraftOf(s, db, call), call.company)
  {
    var args := Scoped(call.operation, call.args, call.company).value;
    var e, t := s.engine(call.model), TableOf(db, call.model);
    ScopedDraft(e, call.operation, call.args, call.company, call.seed, t);
    DraftFindsNoViolation(e, None, call.operation, args, call.seed, t);
    ViewAfterWrite(db, view, call.company, call.model, Draft(e, None, call.operation, args, call.seed, t).0);
  }

  lemma {:induction false} DeletedIsPart(e: Engine, where: Fields, t: Table, all: bool)
    ensures forall row :: row in DeleteRows(e, where, t, all) ==> row in t
    ensures !Clashes(e, t) ==> !Clashes(e, DeleteRows(e, where, t, all))
  {
    if t != [] {
      var u := DeleteRows(e, where, t[1..], all);
      DeletedIsPart(e, where, t[1..], all);
      assert ([t[0]] + u)[1..] == u;
    }
  }

  lemma DeleteOnlyDeletes(s: Schema, db: Db, call: Call)
    requires Scoped(call.operation, call.args, call.company).Ok? && IsDelete(call.operation)
    ensures forall m, row :: row in TableOf(DraftOf(s, db, call), m) ==> row in TableOf(db, m)
    ensures KeysHold(s, db) ==> KeysHold(s, DraftOf(s, db, call))
  {
    var next, t := DraftOf(s, db, call), TableOf(db, call.model);
    var args := Scoped(call.operation, call.args, call.company).value;
    DeletedIsPart(s.engine(call.model), FieldsOf(args.where), t, call.operation.DeleteMany?);
    forall m: string ensures TableOf(next, m) == if m == call.model then TableOf(next, call.model) else TableOf(db, m) {
      TableAfterWrite(db, call.model, TableOf(next, call.model), m);
    }
  }

  // ---- Keys of others ----

  /** The draft repeats a key, though the caller's own part of it does not. */
  predicate Blocked(e: Engine, draft: Table, company: string) {
    Clashes(e, draft) && !Clashes(e, Mine(draft, company))
  }

  /** Some row of one table has a unique key of a row of the other. */
  predicate Meet(e: Engine, own: Table, others: Table) {
    exists r, q :: r in own && q in others && Collide(e, r, q)
  }

  lemma ClashesOfCons(e: Engine, row: Row, t: Table)
    ensures Clashes(e, [row] + t) <==> ClashesWith(e, row, t) || Clashes(e, t)
  {
    assert ([row] + t)[1..] == t;
  }

  lemma MeetOfCons(e: Engine, row: Row, own: Table, others: Table)
    ensures Meet(e, [row] + own, others) <==> ClashesWith(e, row, others) || Meet(e, own, others)
    ensures Meet(e, own, [row] + others) <==> ClashesWith(e, row, own) || Meet(e, own, others)
  {
    assert Meet(e, [row] + own, others) ==> ClashesWith(e, row, others) || Meet(e, own, others);
    if q :| q in own && Collide(e, row, q) {
      assert row in [row] + others && Collide(e, q, row);
    }
    if q :| q in others && Collide(e, row, q) {
      assert row in [row] + own;
    }
    if r, q :| r in own && q in others && Collide(e, r, q) {
      assert r in [row] + own && q in [row] + others;
    }
    if Meet(e, own, [row] + others) {
      var r, q :| r in own && q in [row] + others && Collide(e, r, q);
      assert q == row ==> Collide(e, row, r);
    }
  }

  /** A table repeats a key exactly when one of its two parts does, or the parts share one. */
  lemma {:induction false} ClashesByPart(e: Engine, t: Table, company: string)
    ensures Clashes(e, t) <==>
      Clashes(e, Mine(t, company)) || Clashes(e, Others(t, company)) || Meet(e, Mine(t, company), Others(t, company))
  {
    if t != [] {
      var row, mine, others := t[0], Mine(t[1..], company), Others(t[1..], company);
      ClashesByPart(e, t[1..], company);
      MineMembers(t[1..], company);
      assert ClashesWith(e, row, t[1..]) <==> ClashesWith(e, row, mine) || ClashesWith(e, row, others);
      ClashesOfCons(e, row, mine);
      ClashesOfCons(e, row, others);
      MeetOfCons(e, row, mine, others);
      MineOfCons(row, t[1..], company);
      assert t == [row] + t[1..];
    }
  }

  /**
   In tables whose keys hold, a caller can tell from its own draft: it is blocked exactly when what
   it would have alone repeats no key, yet has a key of some other company's row.
   */
  lemma BlockedExactly(s: Schema, db: Db, view: Db, call: Call)
    requires Scoped(call.operation, call.args, call.company).Ok? && KeysHold(s, db) && Views(view, db, call.company)
    ensures var e, t := s.engine(call.model), TableOf(db, call.model);
      var own := Draft(e, Some(call.company), call.operation, call.args, call.seed, TableOf(view, call.model)).0;
      Blocked(e, TableOf(DraftOf(s, db, call), call.model), call.company) <==>
        !Clashes(e, own) && Meet(e, own, Others(t, call.company))
  {
    var e, t := s.engine(call.model), TableOf(db, call.model);
    DraftOfOwn(s, db, view, call);
    ScopedDraft(e, call.operation, call.args, call.company, call.seed, t);
    assert !Clashes(e, t);
    ClashesByPart(e, t, call.company);
    ClashesByPart(e, TableOf(DraftOf(s, db, call), call.model), call.company);
  }

  // ---- References to rows of others ----

  /** A row of the caller's refers to a row that only another company has. */
  ghost predicate LeansOnOthers(s: Schema, draft: Db, company: string) {
    Dangles(s, OwnPart(draft, company)) && !Dangles(s, draft)
  }

  /** A row of another company refers to a row that the caller takes the key from. */
  ghost predicate HoldsUpOthers(s: Schema, draft: Db, company: string) {
    Dangles(s, draft) && !Dangles(s, OwnPart(draft, company))
  }

  /** Somebody else's row decides what becomes of the draft. */
  ghost predicate DraftDisturbed(s: Schema, model: string, operation: Operation, draft: Db, company: string) {
    Blocked(s.engine(model), TableOf(draft, model), company) ||
    (!Clashes(s.engine(model), TableOf(draft, model)) && !IsDelete(operation) &&
     (LeansOnOthers(s, draft, company) || HoldsUpOthers(s, draft, company)))
  }

  /** The call is its company's own, and somebody else's row decides its reply. */
  ghost predicate Disturbed(s: Schema, db: Db, call: Call, company: string) {
    call.company == company && Scoped(call.operation, call.args, company).Ok? &&
    !Refused(s, db, DraftOf(s, db, call), call) &&
    DraftDisturbed(s, call.model, call.operation, DraftOf(s, db, call), company)
  }

  /** Every row that a reference of the company's names is its own. */
  ghost predicate Homely(s: Schema, db: Db, company: string) {
    forall m, row, ref, p ::
      HoldsRef(s, db, m, row, ref) && row.company == company && p in TableOf(db, ref.model) && s.names(ref, p) ==>
        p.company == company
  }

  lemma HomeIsHomely(s: Schema, db: Db, view: Db, company: string)
    requires Lawful(s) && KeysHold(s, db) && Views(view, db, company) && !Dangles(s, view)
    ensures Homely(s, db, company)
  {
    forall m, row, ref, p |
      HoldsRef(s, db, m, row, ref) && row.company == company && p in TableOf(db, ref.model) && s.names(ref, p)
      ensures p.company == company
    {
      var q := OwnNamer(s, db, view, company, m, row, ref);
      NamedOnce(s, db, ref, p, q);
    }
  }

  lemma OwnNamer(s: Schema, db: Db, view: Db, company: string, m: string, row: Row, ref: Ref) returns (p: Row)
    requires Views(view, db, company) && !Dangles(s, view) && HoldsRef(s, db, m, row, ref) && row.company == company
    ensures p in TableOf(db, ref.model) && p in TableOf(view, ref.model) && s.names(ref, p) && p.company == company
  {
    MineMembers(TableOf(db, m), company);
    MineMembers(TableOf(db, ref.model), company);
    assert TableOf(view, m) == Mine(TableOf(db, m), company);
    assert HoldsRef(s, view, m, row, ref);
    p :| p in TableOf(view, ref.model) && s.names(ref, p);
  }

  /** When its references stay at home, what falls of a company's rows falls in a database of their own as well. */
  lemma {:induction false} FallsAlone(s: Schema, db: Db, view: Db, company: string, m: string, row: Row, n: nat)
    requires Views(view, db, company) && Homely(s, db, company) && row in TableOf(view, m)
    ensures Falls(s, db, m, row, n) <==> Falls(s, view, m, row, n)
    decreases n
  {
    MineMembers(TableOf(db, m), company);
    if n > 0 {
      forall ref | ref in s.refs(m, row) ensures Orphaned(s, db, ref, n - 1) <==> Orphaned(s, view, ref, n - 1) {
        assert HoldsRef(s, db, m, row, ref);
        MineMembers(TableOf(db, ref.model), company);
        forall p | p in TableOf(view, ref.model)
          ensures Falls(s, db, ref.model, p, n - 1) <==> Falls(s, view, ref.model, p, n - 1)
        {
          FallsAlone(s, db, view, company, ref.model, p, n - 1);
        }
      }
    }
  }

  lemma LeftAlone(s: Schema, db: Db, view: Db, company: string, m: string, row: Row)
    requires Views(view, db, company) && Homely(s, db, company) && row in TableOf(view, m)
    ensures Gone(s, db, m, row) <==> Gone(s, view, m, row)
    ensures Left(s, db, m, row) == Left(s, view, m, row)
  {
    forall n: nat ensures Falls(s, db, m, row, n) <==> Falls(s, view, m, row, n) {
      FallsAlone(s, db, view, company, m, row, n);
    }
    MineMembers(TableOf(db, m), company);
    forall ref | ref in s.refs(m, row) ensures Lost(s, db, ref) <==> Lost(s, view, ref) {
      assert HoldsRef(s, db, m, row, ref);
      MineMembers(TableOf(db, ref.model), company);
      forall p | p in TableOf(view, ref.model) ensures Gone(s, db, ref.model, p) <==> Gone(s, view, ref.model, p) {
        GoneAlone(s, db, view, company, ref.model, p);
      }
    }
    assert LostRefs(s, db, m, row) == LostRefs(s, view, m, row);
  }

  lemma GoneAlone(s: Schema, db: Db, view: Db, company: string, m: string, row: Row)
    requires Views(view, db, company) && Homely(s, db, company) && row in TableOf(view, m)
    ensures Gone(s, db, m, row) <==> Gone(s, view, m, row)
  {
    forall n: nat ensures Falls(s, db, m, row, n) <==> Falls(s, view, m, row, n) {
      FallsAlone(s, db, view, company, m, row, n);
    }
  }

  lemma {:induction false} KeptAlone(s: Schema, db: Db, view: Db, company: string, m: string, t: Table)
    requires Views(view, db, company) && Homely(s, db, company) && forall row :: row in t ==> row in TableOf(view, m)
    ensures Kept(s, db, m, t) == Kept(s, view, m, t)
  {
    if t != [] {
      LeftAlone(s, db, view, company, m, t[0]);
      KeptAlone(s, db, view, company, m, t[1..]);
    }
  }

  /** A delete then does to the company's rows what it would do in a database of their own. */
  lemma SweepAlone(s: Schema, db: Db, view: Db, company: string)
    requires Lawful(s) && Views(view, db, company) && Homely(s, db, company)
    ensures Views(Sweep(s, view), Sweep(s, db), company)
  {
    forall m: string ensures TableOf(Sweep(s, view), m) == Mine(TableOf(Sweep(s, db), m), company) {
      TableOfSweep(s, db, m);
      TableOfSweep(s, view, m);
      KeptOfMine(s, db, m, TableOf(db, m), company);
      KeptAlone(s, db, view, company, m, TableOf(view, m));
    }
  }

  lemma {:induction false} NothingFalls(s: Schema, db: Db, m: string, row: Row, n: nat)
    requires !Dangles(s, db) && row in TableOf(db, m)
    ensures !Falls(s, db, m, row, n)
    decreases n
  {
    if Falls(s, db, m, row, n) {
      var ref :| ref in s.refs(m, row) && ref.onDelete.Cascade? && Orphaned(s, db, ref, n - 1);
      assert HoldsRef(s, db, m, row, ref);
      var p :| p in TableOf(db, ref.model) && s.names(ref, p);
      NothingFalls(s, db, ref.model, p, n - 1);
    }
  }

  /** Where nothing dangles, a sweep changes nothing. */
  lemma NothingToSweep(s: Schema, db: Db, m: string)
    requires Lawful(s) && !Dangles(s, db)
    ensures TableOf(Sweep(s, db), m) == TableOf(db, m)
  {
    TableOfSweep(s, db, m);
    KeptUnchangedExactly(s, db, m, TableOf(db, m));
    forall row | row in TableOf(db, m) ensures LostRefs(s, db, m, row) == {} {
      forall ref | ref in s.refs(m, row) ensures !Lost(s, db, ref) {
        assert HoldsRef(s, db, m, row, ref);
        var p :| p in TableOf(db, ref.model) && s.names(ref, p);
        forall n: nat ensures !Falls(s, db, ref.model, p, n) {
          NothingFalls(s, db, ref.model, p, n);
        }
      }
    }
  }

  // ---- Steps in a company's view ----

  /** What every step keeps: keys that hold, and a company whose references stay at home. */
  ghost predicate Settled(s: Schema, db: Db, view: Db, company: string) {
    KeysHold(s, db) && Views(view, db, company) && !Dangles(s, view)
  }

  lemma SweepKeepsKeys(s: Schema, db: Db)
    requires Lawful(s) && KeysHold(s, db)
    ensures KeysHold(s, Sweep(s, db))
  {
    forall m: string ensures !Clashes(s.engine(m), TableOf(Sweep(s, db), m)) {
      TableOfSweep(s, db, m);
      KeptKeepsKeys(s, db, m, TableOf(db, m));
    }
  }

  lemma StepKeepsKeys(s: Schema, db: Db, call: Call)
    requires Lawful(s) && KeysHold(s, db)
    ensures KeysHold(s, Step(s, db, call).0)
  {
    if Scoped(call.operation, call.args, call.company).Ok? {
      var next := DraftOf(s, db, call);
      if !Clashes(s.engine(call.model), TableOf(next, call.model)) {
        forall m: string ensures !Clashes(s.engine(m), TableOf(next, m)) {
          TableAfterWrite(db, call.model, TableOf(next, call.model), m);
        }
        SweepKeepsKeys(s, next);
      }
    }
  }

  lemma StepOfOther(s: Schema, db: Db, view: Db, call: Call, company: string)
    requires Lawful(s) && Settled(s, db, view, company) && call.company != company
    ensures Settled(s, Step(s, db, call).0, view, company)
  {
    StepKeepsKeys(s, db, call);
    if Scoped(call.operation, call.args, call.company).Ok? {
      var next := DraftOf(s, db, call);
      DraftOfOther(s, db, view, call, company);
      if IsDelete(call.operation) {
        DeleteOnlyDeletes(s, db, call);
        HomeIsHomely(s, next, view, company);
        SweepAlone(s, next, view, company);
        forall m: string ensures TableOf(view, m) == Mine(TableOf(Sweep(s, next), m), company) {
          NothingToSweep(s, view, m);
        }
      }
    }
  }

  lemma DisturbedByFlags(s: Schema, model: string, operation: Operation, draft: Db, own: Db, company: string)
    returns (clashes: bool, dangles: bool, ownClashes: bool, ownDangles: bool)
    requires Views(own, draft, company)
    ensures clashes == Clashes(s.engine(model), TableOf(draft, model)) && dangles == Dangles(s, draft)
    ensures ownClashes == Clashes(s.engine(model), TableOf(own, model)) && ownDangles == Dangles(s, own)
    ensures ownClashes ==> clashes
    ensures DraftDisturbed(s, model, operation, draft, company) <==>
      (clashes && !ownClashes) || (!clashes && !IsDelete(operation) && dangles != ownDangles)
  {
    clashes, dangles := Clashes(s.engine(model), TableOf(draft, model)), Dangles(s, draft);
    ownClashes, ownDangles := Clashes(s.engine(model), TableOf(own, model)), Dangles(s, own);
    ClashesByPart(s.engine(model), TableOf(draft, model), company);
    HomeView(s, draft, own, company);
  }

  lemma ConcludeByFlags(s: Schema, model: string, operation: Operation, before: Db, draft: Db, got: Outcome,
                        refused: bool, clashes: bool, dangles: bool)
    returns (after: Db, reply: Outcome)
    requires clashes == Clashes(s.engine(model), TableOf(draft, model)) && dangles == Dangles(s, draft)
    ensures (after, reply) == Conclude(s, model, operation, refused, before, draft, got)
    ensures reply ==
      if refused then PolicyViolation
      else if clashes then UniqueViolation
      else if dangles && !IsDelete(operation) then ForeignKeyViolation
      else got
    ensures after ==
      if refused || clashes || (dangles && !IsDelete(operation)) then before
      else if IsDelete(operation) then Sweep(s, draft)
      else draft
  {
    after := Conclude(s, model, operation, refused, before, draft, got).0;
    reply := Conclude(s, model, operation, refused, before, draft, got).1;
  }

  lemma ConcludeAlike(s: Schema, model: string, operation: Operation, db: Db, draft: Db, view: Db, own: Db,
                      refused: bool, got: Outcome, company: string)
    returns (shared: (Db, Outcome), alone: (Db, Outcome))
    requires Lawful(s) && Views(view, db, company) && !Dangles(s, view) && Views(own, draft, company)
    requires IsDelete(operation) ==> Homely(s, draft, company)
    requires got != UniqueViolation && got != ForeignKeyViolation
    ensures shared == Conclude(s, model, operation, refused, db, draft, got)
    ensures alone == Conclude(s, model, operation, refused, view, own, got)
    ensures shared.1 == alone.1 <==> refused || !DraftDisturbed(s, model, operation, draft, company)
    ensures shared.1 == alone.1 ==> Views(alone.0, shared.0, company) && !Dangles(s, alone.0)
  {
    var clashes, dangles, ownClashes, ownDangles := DisturbedByFlags(s, model, operation, draft, own, company);
    var a, r := ConcludeByFlags(s, model, operation, db, draft, got, refused, clashes, dangles);
    var b, q := ConcludeByFlags(s, model, operation, view, own, got, refused, ownClashes, ownDangles);
    shared, alone := (a, r), (b, q);
    if IsDelete(operation) {
      SweepAlone(s, draft, own, company);
      SweptHolds(s, own);
    }
  }

  /** A policy looks at the company's rows alone. */
  lemma RefusedAlike(s: Schema, model: string, before: Db, draft: Db, view: Db, own: Db, company: string)
    requires Views(view, before, company) && Views(own, draft, company)
    ensures Refuses(s, model, before, draft, company) <==> Refuses(s, model, view, own, company)
  {
    OwnPartViews(draft, company);
    OwnPartViews(own, company);
    forall m: string ensures Mine(TableOf(own, m), company) == TableOf(own, m) {
      MineOfMine(TableOf(draft, m), company);
    }
    MineOfMine(TableOf(before, model), company);
    forall ref ensures Satisfied(s, OwnPart(draft, company), ref) <==> Satisfied(s, OwnPart(own, company), ref) {
      assert TableOf(OwnPart(draft, company), ref.model) == TableOf(OwnPart(own, company), ref.model);
    }
  }

  lemma {:induction false} MineOfMine(t: Table, company: string)
    ensures Mine(Mine(t, company), company) == Mine(t, company)
  {
    if t != [] {
      MineOfMine(t[1..], company);
      MineOfCons(t[0], Mine(t[1..], company), company);
    }
  }

  lemma StepConcludes(s: Schema, db: Db, view: Db, call: Call) returns (own: Db, refused: bool, got: Outcome)
    requires Scoped(call.operation, call.args, call.company).Ok? && Views(view, db, call.company)
    ensures refused == Refused(s, db, DraftOf(s, db, call), call)
    ensures var (after, reply) := Conclude(s, call.model, call.operation, refused, db, DraftOf(s, db, call), got);
      Step(s, db, call) == (after, Ok(reply))
    ensures var (after, reply) := Conclude(s, call.model, call.operation, refused, view, own, got);
      StepAlone(s, view, call) == (after, Ok(reply))
    ensures Views(own, DraftOf(s, db, call), call.company) && got != UniqueViolation && got != ForeignKeyViolation
  {
    var args := Scoped(call.operation, call.args, call.company).value;
    var e := s.engine(call.model);
    DraftOfOwn(s, db, view, call);
    got := Draft(e, None, call.operation, args, call.seed, TableOf(db, call.model)).1;
    own := view[call.model :=
      Draft(e, Some(call.company), call.operation, call.args, call.seed, TableOf(view, call.model)).0];
    refused := Refused(s, db, DraftOf(s, db, call), call);
    RefusedAlike(s, call.model, db, DraftOf(s, db, call), view, own, call.company);
  }

  lemma OwnDeleteIsHomely(s: Schema, db: Db, view: Db, call: Call)
    requires Lawful(s) && Settled(s, db, view, call.company)
    requires Scoped(call.operation, call.args, call.company).Ok? && IsDelete(call.operation)
    ensures Homely(s, DraftOf(s, db, call), call.company)
  {
    DeleteOnlyDeletes(s, db, call);
    HomeIsHomely(s, db, view, call.company);
    forall m, row, ref, p |
      HoldsRef(s, DraftOf(s, db, call), m, row, ref) && row.company == call.company &&
      p in TableOf(DraftOf(s, db, call), ref.model) && s.names(ref, p)
      ensures p.company == call.company
    {
      assert HoldsRef(s, db, m, row, ref);
    }
  }

  lemma OwnStep(s: Schema, db: Db, view: Db, call: Call)
    requires Lawful(s) && Settled(s, db, view, call.company)
    ensures StepAlone(s, view, call).1 == Step(s, db, call).1 <==> !Disturbed(s, db, call, call.company)
    ensures !Disturbed(s, db, call, call.company) ==>
      Settled(s, Step(s, db, call).0, StepAlone(s, view, call).0, call.company)
  {
    StepKeepsKeys(s, db, call);
    if Scoped(call.operation, call.args, call.company).Ok? {
      var own, refused, got := StepConcludes(s, db, view, call);
      if IsDelete(call.operation) {
        OwnDeleteIsHomely(s, db, view, call);
      }
      var _, _ :=
        ConcludeAlike(s, call.model, call.operation, db, DraftOf(s, db, call), view, own, refused, got, call.company);
    }
  }

  // ---- What a call does to the rows of others ----

  /** The delete takes the row from db: it is not in next, or goes with such a row within n cascades. */
  ghost predicate Doomed(s: Schema, db: Db, next: Db, model: string, row: Row, n: nat)
    decreases n
  {
    row !in TableOf(next, model) ||
    (n > 0 && exists ref, p ::
      ref in s.refs(model, row) && ref.onDelete.Cascade? && p in TableOf(db, ref.model) && s.names(ref, p) &&
      Doomed(s, db, next, ref.model, p, n - 1))
  }

  /** The delete takes a row that the reference names. */
  ghost predicate Taken(s: Schema, db: Db, next: Db, ref: Ref) {
    exists p, n: nat :: p in TableOf(db, ref.model) && s.names(ref, p) && Doomed(s, db, next, ref.model, p, n)
  }

  /** The row refers, cascading or not, to one that the delete takes. */
  ghost predicate RefersToDoomed(s: Schema, db: Db, next: Db, model: string, row: Row) {
    exists ref :: ref in s.refs(model, row) && Taken(s, db, next, ref)
  }

  /** A database after some rows were deleted from a sound one. */
  ghost predicate Thinned(s: Schema, db: Db, next: Db) {
    Lawful(s) && KeysHold(s, db) && !Dangles(s, db) &&
      forall m, row :: row in TableOf(next, m) ==> row in TableOf(db, m)
  }

  lemma {:induction false} FallsExactly(s: Schema, db: Db, next: Db, model: string, row: Row, n: nat)
    requires Thinned(s, db, next) && row in TableOf(next, model)
    ensures Falls(s, next, model, row, n) <==> Doomed(s, db, next, model, row, n)
    decreases n
  {
    if n > 0 {
      forall ref | ref in s.refs(model, row)
        ensures Orphaned(s, next, ref, n - 1) <==>
          exists p :: p in TableOf(db, ref.model) && s.names(ref, p) && Doomed(s, db, next, ref.model, p, n - 1)
      {
        var p := Namer(s, db, next, model, row, ref);
        if p in TableOf(next, ref.model) {
          FallsExactly(s, db, next, ref.model, p, n - 1);
        }
      }
    }
  }

  lemma Namer(s: Schema, db: Db, next: Db, model: string, row: Row, ref: Ref) returns (p: Row)
    requires Thinned(s, db, next) && row in TableOf(next, model) && ref in s.refs(model, row)
    ensures p in TableOf(db, ref.model) && s.names(ref, p)
    ensures forall q :: q in TableOf(db, ref.model) && s.names(ref, q) ==> q == p
    ensures forall q :: q in TableOf(next, ref.model) && s.names(ref, q) ==> q == p
  {
    assert HoldsRef(s, db, model, row, ref);
    p :| p in TableOf(db, ref.model) && s.names(ref, p);
    forall q | q in TableOf(db, ref.model) && s.names(ref, q) ensures q == p {
      NamedOnce(s, db, ref, p, q);
    }
  }

  lemma LostExactly(s: Schema, db: Db, next: Db, model: string, row: Row, ref: Ref)
    requires Thinned(s, db, next) && row in TableOf(next, model) && ref in s.refs(model, row)
    ensures Lost(s, next, ref) <==> Taken(s, db, next, ref)
  {
    var p := Namer(s, db, next, model, row, ref);
    if p !in TableOf(next, ref.model) {
      assert Doomed(s, db, next, ref.model, p, 0);
    } else {
      forall n: nat ensures Falls(s, next, ref.model, p, n) <==> Doomed(s, db, next, ref.model, p, n) {
        FallsExactly(s, db, next, ref.model, p, n);
      }
      assert Lost(s, next, ref) <==> Gone(s, next, ref.model, p);
      if Gone(s, next, ref.model, p) {
        var n: nat :| Falls(s, next, ref.model, p, n);
        assert Doomed(s, db, next, ref.model, p, n);
      }
    }
  }

  lemma LosesExactly(s: Schema, db: Db, next: Db, model: string, row: Row)
    requires Thinned(s, db, next) && row in TableOf(next, model)
    ensures LostRefs(s, next, model, row) != {} <==> RefersToDoomed(s, db, next, model, row)
  {
    if ref :| ref in LostRefs(s, next, model, row) {
      LostExactly(s, db, next, model, row, ref);
    }
    if RefersToDoomed(s, db, next, model, row) {
      var ref :| ref in s.refs(model, row) && Taken(s, db, next, ref);
      LostExactly(s, db, next, model, row, ref);
      assert ref in LostRefs(s, next, model, row);
    }
  }

  lemma DeletesAreNotRefused(s: Schema, db: Db, call: Call)
    requires Scoped(call.operation, call.args, call.company).Ok? && IsDelete(call.operation)
    ensures !Refused(s, db, DraftOf(s, db, call), call)
  {
    DeleteOnlyDeletes(s, db, call);
    MineMembers(TableOf(db, call.model), call.company);
    MineMembers(TableOf(DraftOf(s, db, call), call.model), call.company);
  }

  /**
   A call changes rows of another company in some table exactly when it is a delete and one of those
   rows refers to a row that it takes, itself or by a cascade.
   */
  lemma ChangesOthersExactly(s: Schema, db: Db, call: Call, other: string, model: string)
    requires Lawful(s) && KeysHold(s, db) && !Dangles(s, db) && other != call.company
    ensures Mine(TableOf(Step(s, db, call).0, model), other) != Mine(TableOf(db, model), other) <==>
      Scoped(call.operation, call.args, call.company).Ok? && IsDelete(call.operation) &&
      exists row :: row in Mine(TableOf(db, model), other) && RefersToDoomed(s, db, DraftOf(s, db, call), model, row)
  {
    if Scoped(call.operation, call.args, call.company).Ok? {
      var next, rows := DraftOf(s, db, call), Mine(TableOf(db, model), other);
      OwnPartViews(db, other);
      DraftOfOther(s, db, OwnPart(db, other), call, other);
      assert Mine(TableOf(next, model), other) == rows;
      if IsDelete(call.operation) {
        DeleteOnlyDeletes(s, db, call);
        DeletesAreNotRefused(s, db, call);
        TableOfSweep(s, next, model);
        KeptOfMine(s, next, model, TableOf(next, model), other);
        KeptUnchangedExactly(s, next, model, rows);
        MineMembers(TableOf(next, model), other);
        forall row | row in rows
          ensures LostRefs(s, next, model, row) != {} <==> RefersToDoomed(s, db, next, model, row)
        {
          LosesExactly(s, db, next, model, row);
        }
      }
    }
  }

  // ---- Runs ----

  ghost function Run(s: Schema, db: Db, calls: seq<Call>): (Db, seq<Reply>)
    decreases |calls|
  {
    if calls == [] then (db, []) else
    var (mid, reply) := Step(s, db, calls[0]);
    var (end, replies) := Run(s, mid, calls[1..]);
    (end, [reply] + replies)
  }

  ghost function RunAlone(s: Schema, db: Db, calls: seq<Call>): (Db, seq<Reply>)
    decreases |calls|
  {
    if calls == [] then (db, []) else
    var (mid, reply) := StepAlone(s, db, calls[0]);
    var (end, replies) := RunAlone(s, mid, calls[1..]);
    (end, [reply] + replies)
  }

  function CallsOf(calls: seq<Call>, company: string): seq<Call> {
    if calls == [] then []
    else if calls[0].company == company then [calls[0]] + CallsOf(calls[1..], company)
    else CallsOf(calls[1..], company)
  }

  /** The replies a company's own calls got in a run. */
  function RepliesTo(calls: seq<Call>, replies: seq<Reply>, company: string): seq<Reply>
    requires |calls| == |replies|
  {
    if calls == [] then []
    else if calls[0].company == company then [replies[0]] + RepliesTo(calls[1..], replies[1..], company)
    else RepliesTo(calls[1..], replies[1..], company)
  }

  lemma {:induction false} OneReplyPerCall(s: Schema, db: Db, calls: seq<Call>)
    ensures |Run(s, db, calls).1| == |calls|
    decreases |calls|
  {
    if calls != [] {
      OneReplyPerCall(s, Step(s, db, calls[0]).0, calls[1..]);
    }
  }

  /** No call of the company is disturbed, anywhere in the run. */
  ghost predicate Undisturbed(s: Schema, db: Db, calls: seq<Call>, company: string)
    decreases |calls|
  {
    calls == [] ||
    (!Disturbed(s, db, calls[0], company) && Undisturbed(s, Step(s, db, calls[0]).0, calls[1..], company))
  }

  lemma FirstCall(s: Schema, db: Db, calls: seq<Call>, company: string)
    requires calls != [] && |Run(s, db, calls).1| == |calls|
    ensures var mid := Step(s, db, calls[0]).0;
      && Run(s, db, calls).0 == Run(s, mid, calls[1..]).0
      && |Run(s, mid, calls[1..]).1| == |calls| - 1
      && RepliesTo(calls, Run(s, db, calls).1, company) ==
           (if calls[0].company == company then [Step(s, db, calls[0]).1] else []) +
             RepliesTo(calls[1..], Run(s, mid, calls[1..]).1, company)
  {
    assert Run(s, db, calls).1[1..] == Run(s, Step(s, db, calls[0]).0, calls[1..]).1;
  }

  lemma FirstCallAlone(s: Schema, view: Db, calls: seq<Call>, company: string)
    requires calls != []
    ensures RunAlone(s, view, CallsOf(calls, company)) ==
      if calls[0].company != company then RunAlone(s, view, CallsOf(calls[1..], company))
      else
        var (mid, reply) := StepAlone(s, view, calls[0]);
        var (end, replies) := RunAlone(s, mid, CallsOf(calls[1..], company));
        (end, [reply] + replies)
  {
    if calls[0].company == company {
      assert CallsOf(calls, company)[1..] == CallsOf(calls[1..], company);
    }
  }

  lemma ListsDiffer(x: Reply, y: Reply, a: seq<Reply>, b: seq<Reply>)
    ensures [x] + a == [y] + b <==> x == y && a == b
  {
    assert ([x] + a)[0] == x && ([x] + a)[1..] == a && ([y] + b)[0] == y && ([y] + b)[1..] == b;
  }

  /**
   Noninterference: in any run of calls by any companies, the replies to the calls of a company whose
   references start at home are those of its own calls alone, unscoped, in a database that never held
   anyone else, exactly when none of its calls is disturbed. Then its rows are those as well, and its
   references are still at home.
   */
  lemma {:induction false} CompaniesDoNotInterfere(s: Schema, db: Db, view: Db, calls: seq<Call>, company: string)
    requires Lawful(s) && Settled(s, db, view, company)
    ensures |Run(s, db, calls).1| == |calls|
    ensures RunAlone(s, view, CallsOf(calls, company)).1 == RepliesTo(calls, Run(s, db, calls).1, company) <==>
      Undisturbed(s, db, calls, company)
    ensures Undisturbed(s, db, calls, company) ==>
      Settled(s, Run(s, db, calls).0, RunAlone(s, view, CallsOf(calls, company)).0, company)
    decreases |calls|
  {
    OneReplyPerCall(s, db, calls);
    if calls != [] {
      var call, mid := calls[0], Step(s, db, calls[0]).0;
      FirstCall(s, db, calls, company);
      FirstCallAlone(s, view, calls, company);
      if call.company != company {
        StepOfOther(s, db, view, call, company);
        CompaniesDoNotInterfere(s, mid, view, calls[1..], company);
      } else {
        var (midAlone, reply) := StepAlone(s, view, call);
        OwnStep(s, db, view, call);
        ListsDiffer(reply, Step(s, db, call).1, RunAlone(s, midAlone, CallsOf(calls[1..], company)).1,
                    RepliesTo(calls[1..], Run(s, mid, calls[1..]).1, company));
        if !Disturbed(s, db, call, company) {
          CompaniesDoNotInterfere(s, mid, midAlone, calls[1..], company);
        }
      }
    }
  }

  lemma {:induction false} OthersDisturbNobody(s: Schema, db: Db, calls: seq<Call>, company: string)
    requires forall c :: c in calls ==> c.company != company
    ensures Undisturbed(s, db, calls, company) && CallsOf(calls, company) == []
    decreases |calls|
  {
    if calls != [] {
      OthersDisturbNobody(s, Step(s, db, calls[0]).0, calls[1..], company);
    }
  }

  /** While a company's references stay at home, no run of calls by others changes any of its rows. */
  lemma RunIsolates(s: Schema, db: Db, view: Db, calls: seq<Call>, company: string)
    requires Lawful(s) && Settled(s, db, view, company) && forall c :: c in calls ==> c.company != company
    ensures Settled(s, Run(s, db, calls).0, view, company)
  {
    OthersDisturbNobody(s, db, calls, company);
    CompaniesDoNotInterfere(s, db, view, calls, company);
  }
}
