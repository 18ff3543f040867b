/**
 The tenant client's query rewrite (backend/src/tenant-db.ts): filters get the company injected,
 creates get it set, and a query that names another company is refused.
 */
module TenantScope {
  import opened Collections
  import opened Options

  // ---- Query arguments ----

  /** A JavaScript value; Scalar stands for null, numbers, booleans and dates. */
  datatype Value = Undefined | Str(s: string) | Scalar(n: int) | Rec(fields: Fields) | Arr(items: seq<Value>)

  type Fields = map<string, Value>

  function Get(fields: Fields, key: string): Value {
    if key in fields then fields[key] else Undefined
  }

  /** isRecord, with the empty record for anything that is none. */
  function FieldsOf(v: Value): Fields {
    if v.Rec? then v.fields else map[]
  }

  datatype Operation =
    | FindUnique | FindUniqueOrThrow | FindFirst | FindFirstOrThrow | FindMany
    | Count | Aggregate | GroupBy
    | Update | UpdateMany | UpdateManyAndReturn
    | Delete | DeleteMany | Upsert
    | Create | CreateMany | CreateManyAndReturn
    | Unlisted

  const WHERE_OPERATIONS := {
    FindUnique, FindUniqueOrThrow, FindFirst, FindFirstOrThrow, FindMany, Count, Aggregate, GroupBy,
    Update, UpdateMany, UpdateManyAndReturn, Delete, DeleteMany, Upsert
  }

  const CREATE_OPERATIONS := {Create, CreateMany, CreateManyAndReturn}

  const UPDATE_OPERATIONS := {Update, UpdateMany, UpdateManyAndReturn}

  const TENANT_MODELS := {
    "Job", "Candidate", "Application", "ActivityLog", "ScoringRun", "CompanyDomain", "AuditStream",
    "Membership", "Department", "DepartmentMember", "JobAssignment", "FeatureFlagOverride", "ApiKey",
    "WebhookEndpoint", "WebhookDelivery", "ResumeFile", "BillingAccount", "IpAllowlistEntry",
    "SelfIdResponse", "SupportSession"
  }

  /** The arguments of a query; rest is everything the rewrite does not look at. */
  datatype Args = Args(where: Value, data: Value, create: Value, update: Value, rest: Fields)

  const NO_ARGS := Args(Undefined, Undefined, Undefined, Undefined, map[])

  // ---- The rewrite ----

  datatype Violation = NamesAnotherTenant | SetsCompanyRelation | MovesRows

  predicate SameTenant(v: Value, company: string) {
    v == Undefined || v == Str(company)
  }

  function ScopeWhere(where: Value, company: string): Result<Value, Violation> {
    var base := FieldsOf(where);
    if !SameTenant(Get(base, "companyId"), company) then Err(NamesAnotherTenant)
    else Ok(Rec(base["companyId" := Str(company)]))
  }

  function ScopeCreateData(data: Value, company: string): Result<Value, Violation> {
    var base := FieldsOf(data);
    if "company" in base then Err(SetsCompanyRelation)
    else if !SameTenant(Get(base, "companyId"), company) then Err(NamesAnotherTenant)
    else Ok(Rec(base["companyId" := Str(company)]))
  }

  function GuardUpdateData(data: Value, company: string): Option<Violation> {
    if !data.Rec? then None
    else if "company" in data.fields then Some(MovesRows)
    else if !SameTenant(Get(data.fields, "companyId"), company) then Some(NamesAnotherTenant)
    else None
  }

  function ScopeRows(items: seq<Value>, company: string): (r: Result<seq<Value>, Violation>)
    ensures r.Ok? ==> |r.value| == |items|
  {
    if items == [] then Ok([]) else
    match ScopeCreateData(items[0], company)
    case Err(e) => Err(e)
    case Ok(row) =>
      match ScopeRows(items[1..], company)
      case Err(e) => Err(e)
      case Ok(rows) => Ok([row] + rows)
  }

  function ScopeData(data: Value, company: string): Result<Value, Violation> {
    if data.Arr? then
      match ScopeRows(data.items, company)
      case Err(e) => Err(e)
      case Ok(rows) => Ok(Arr(rows))
    else ScopeCreateData(data, company)
  }

  /** What the rewrite makes of a query on a tenant model, or why it refuses it. */
  function Scoped(operation: Operation, args: Args, company: string): Result<Args, Violation> {
    if operation in CREATE_OPERATIONS then
      match ScopeData(args.data, company)
      case Err(e) => Err(e)
      case Ok(data) => Ok(args.(data := data))
    else if operation in WHERE_OPERATIONS then
      match ScopeWhere(args.where, company)
      case Err(e) => Err(e)
      case Ok(where) =>
        var refused := if operation in UPDATE_OPERATIONS then GuardUpdateData(args.data, company) else None;
        if refused.Some? then Err(refused.value)
        else if !operation.Upsert? then Ok(args.(where := where))
        else
          match ScopeCreateData(args.create, company)
          case Err(e) => Err(e)
          case Ok(create) =>
            if GuardUpdateData(args.update, company).Some? then Err(GuardUpdateData(args.update, company).value)
            else Ok(args.(where := where, create := create))
    else Ok(args)
  }

  /** scopeTenantArgs. Arguments that are no record count as none, except on models it leaves alone. */
  method ScopeTenantArgs(model: string, operation: Operation, args: Option<Args>, company: string)
    returns (r: Result<Option<Args>, Violation>)
    ensures model !in TENANT_MODELS ==> r == Ok(args)
    ensures model in TENANT_MODELS ==>
      r == match Scoped(operation, if args.Some? then args.value else NO_ARGS, company)
           case Err(e) => Err(e)
           case Ok(scoped) => Ok(Some(scoped))
  {
    if model !in TENANT_MODELS {
      return Ok(args);
    }
    var scoped := if args.Some? then args.value else NO_ARGS;
    if operation in WHERE_OPERATIONS {
      var where := ScopeWhere(scoped.where, company);
      if where.Err? {
        return Err(where.error);
      }
      scoped := scoped.(where := where.value);
    }
    if operation in UPDATE_OPERATIONS {
      var refused := GuardUpdateData(scoped.data, company);
      if refused.Some? {
        return Err(refused.value);
      }
    }
    if operation in CREATE_OPERATIONS {
      var data := ScopeData(scoped.data, company);
      if data.Err? {
        return Err(data.error);
      }
      scoped := scoped.(data := data.value);
    }
    if operation == Upsert {
      var create := ScopeCreateData(scoped.create, company);
      if create.Err? {
        return Err(create.error);
      }
      scoped := scoped.(create := create.value);
      var refused := GuardUpdateData(scoped.update, company);
      if refused.Some? {
        return Err(refused.value);
      }
    }
    r := Ok(Some(scoped));
  }

  /** A written record that neither names another company nor sets the relation. */
  predicate StaysIn(v: Value, company: string) {
    "company" !in FieldsOf(v) && SameTenant(Get(FieldsOf(v), "companyId"), company)
  }

  function Written(data: Value): seq<Value> {
    if data.Arr? then data.items else [data]
  }

  predicate AllStayIn(items: seq<Value>, company: string) {
    forall v :: v in items ==> StaysIn(v, company)
  }

  lemma {:induction false} RowsAcceptedExactly(items: seq<Value>, company: string)
    ensures ScopeRows(items, company).Ok? <==> AllStayIn(items, company)
  {
    if items != [] {
      RowsAcceptedExactly(items[1..], company);
      assert forall v :: v in items <==> v == items[0] || v in items[1..];
      assert AllStayIn(items, company) <==> StaysIn(items[0], company) && AllStayIn(items[1..], company);
    }
  }

  /** A query is refused exactly when its filter or a record it writes names another company or the relation. */
  lemma AcceptedExactly(operation: Operation, args: Args, company: string)
    ensures Scoped(operation, args, company).Ok? <==>
      && (operation in WHERE_OPERATIONS ==> SameTenant(Get(FieldsOf(args.where), "companyId"), company))
      && (operation in UPDATE_OPERATIONS ==> StaysIn(args.data, company))
      && (operation in CREATE_OPERATIONS ==> AllStayIn(Written(args.data), company))
      && (operation.Upsert? ==> StaysIn(args.create, company) && StaysIn(args.update, company))
  {
    if operation in CREATE_OPERATIONS {
      if args.data.Arr? {
        RowsAcceptedExactly(args.data.items, company);
      } else {
        assert AllStayIn([args.data], company) <==> StaysIn(args.data, company);
      }
    }
  }

  lemma ScopedRecordsAreScoped(v: Value, company: string)
    ensures ScopeWhere(v, company).Ok? ==> ScopeWhere(ScopeWhere(v, company).value, company) == ScopeWhere(v, company)
    ensures ScopeCreateData(v, company).Ok? ==>
      ScopeCreateData(ScopeCreateData(v, company).value, company) == ScopeCreateData(v, company)
  {
    var scoped := FieldsOf(v)["companyId" := Str(company)];
    assert scoped["companyId" := Str(company)] == scoped;
  }

  lemma {:induction false} ScopedRowsAreScoped(items: seq<Value>, company: string)
    requires ScopeRows(items, company).Ok?
    ensures ScopeRows(ScopeRows(items, company).value, company) == ScopeRows(items, company)
  {
    if items != [] {
      var scoped := ScopeRows(items, company).value;
      ScopedRowsAreScoped(items[1..], company);
      assert scoped[1..] == ScopeRows(items[1..], company).value;
      ScopedRecordsAreScoped(items[0], company);
      assert [scoped[0]] + scoped[1..] == scoped;
    }
  }

  /** A scoped query belongs to its company: the rewrite keeps it, and the client of any other refuses its filter. */
  lemma ScopedArgsBelongToOneCompany(operation: Operation, args: Args, company: string, other: string)
    requires Scoped(operation, args, company).Ok? && other != company
    ensures Scoped(operation, Scoped(operation, args, company).value, company) == Scoped(operation, args, company)
    ensures operation in WHERE_OPERATIONS ==>
      Scoped(operation, Scoped(operation, args, company).value, other) == Err(NamesAnotherTenant)
  {
    if operation in CREATE_OPERATIONS {
      if args.data.Arr? {
        ScopedRowsAreScoped(args.data.items, company);
      } else {
        ScopedRecordsAreScoped(args.data, company);
      }
    } else {
      ScopedRecordsAreScoped(args.where, company);
      ScopedRecordsAreScoped(args.create, company);
    }
  }

  // ---- What a query does to a table ----

  datatype Row = Row(company: string, cells: Fields)

  type Table = seq<Row>

  /**
   The parts of a query language the rewrite does not depend on: a filter's other conditions on a
   row, the columns of a new and of an updated row, the company a relation write names, the answer
   an operation gives for the rows it reached, and the unique keys.
   */
  datatype Engine = Engine(
    holds: (string, Value, Row) -> bool,
    build: (Fields, int) -> Fields,
    assign: (Fields, Fields) -> Fields,
    related: Value -> string,
    answer: (Operation, Fields, seq<Row>) -> Value,
    clash: (Row, Row) -> bool)

  predicate Matches(e: Engine, where: Fields, row: Row) {
    forall k :: k in where.Keys ==> Holds(e, k, where[k], row)
  }

  predicate Holds(e: Engine, key: string, v: Value, row: Row) {
    if v.Undefined? then true
    else if key == "companyId" && v.Str? then row.company == v.s
    else e.holds(key, v, row)
  }

  function Matching(e: Engine, where: Fields, t: Table): seq<Row> {
    if t == [] then []
    else if Matches(e, where, t[0]) then [t[0]] + Matching(e, where, t[1..])
    else Matching(e, where, t[1..])
  }

  /** The company a written record names, if it names one. */
  function NamedCompany(e: Engine, fields: Fields): Option<string> {
    if "company" in fields then Some(e.related(fields["company"]))
    else if Get(fields, "companyId").Str? then Some(fields["companyId"].s)
    else None
  }

  function Updated(e: Engine, data: Value, row: Row): Row {
    var fields := FieldsOf(data);
    var named := NamedCompany(e, fields);
    Row(if named.Some? then named.value else row.company, e.assign(fields - {"companyId"}, row.cells))
  }

  function UpdatedAll(e: Engine, data: Value, rows: seq<Row>): seq<Row> {
    if rows == [] then [] else [Updated(e, data, rows[0])] + UpdatedAll(e, data, rows[1..])
  }

  /** The table after an update of the first, or of every, matching row. */
  function UpdateRows(e: Engine, where: Fields, data: Value, t: Table, all: bool): Table {
    if t == [] then []
    else if !Matches(e, where, t[0]) then [t[0]] + UpdateRows(e, where, data, t[1..], all)
    else [Updated(e, data, t[0])] + if all then UpdateRows(e, where, data, t[1..], all) else t[1..]
  }

  function DeleteRows(e: Engine, where: Fields, t: Table, all: bool): Table {
    if t == [] then []
    else if !Matches(e, where, t[0]) then [t[0]] + DeleteRows(e, where, t[1..], all)
    else if all then DeleteRows(e, where, t[1..], all) else t[1..]
  }

  /** A new row belongs to the company its data names, else to the one company of its database. */
  function CreatedRow(e: Engine, home: Option<string>, data: Value, seed: int): Option<Row> {
    var fields := FieldsOf(data);
    var named := NamedCompany(e, fields);
    var company := if named.Some? then named else home;
    if company.None? then None else Some(Row(company.value, e.build(fields - {"companyId"}, seed)))
  }

  function CreatedRows(e: Engine, home: Option<string>, items: seq<Value>, seed: int): Option<seq<Row>> {
    if items == [] then Some([]) else
    var row, rows := CreatedRow(e, home, items[0], seed), CreatedRows(e, home, items[1..], seed + 1);
    if row.None? || rows.None? then None else Some([row.value] + rows.value)
  }

  datatype Outcome =
    | Answered(v: Value) | NotFound
    | PolicyViolation | UniqueViolation | ForeignKeyViolation
    | MissingCompany | Unsupported

  function DraftCreate(e: Engine, home: Option<string>, operation: Operation, items: seq<Value>, rest: Fields,
                       seed: int, t: Table)
    : (Table, Outcome)
  {
    match CreatedRows(e, home, items, seed)
    case None => (t, MissingCompany)
    case Some(rows) => (t + rows, Answered(e.answer(operation, rest, rows)))
  }

  /** An update or delete of all matching rows, or of one, which must exist. */
  function DraftUpdate(e: Engine, operation: Operation, where: Fields, data: Value, rest: Fields, t: Table,
                       all: bool)
    : (Table, Outcome)
  {
    var found := Matching(e, where, t);
    if all then (UpdateRows(e, where, data, t, true), Answered(e.answer(operation, rest, UpdatedAll(e, data, found))))
    else if found == [] then (t, NotFound)
    else (UpdateRows(e, where, data, t, false), Answered(e.answer(operation, rest, [Updated(e, data, found[0])])))
  }

  function DraftDelete(e: Engine, operation: Operation, where: Fields, rest: Fields, t: Table,
                       all: bool)
    : (Table, Outcome)
  {
    var found := Matching(e, where, t);
    if all then (DeleteRows(e, where, t, true), Answered(e.answer(operation, rest, found)))
    else if found == [] then (t, NotFound)
    else (DeleteRows(e, where, t, false), Answered(e.answer(operation, rest, [found[0]])))
  }

  /** An operation before its keys are checked. */
  function Draft(e: Engine, home: Option<string>, operation: Operation, args: Args, seed: int, t: Table)
    : (Table, Outcome)
  {
    var where := FieldsOf(args.where);
    match operation
    case Create | CreateMany | CreateManyAndReturn =>
      DraftCreate(e, home, operation, Written(args.data), args.rest, seed, t)
    case Update => DraftUpdate(e, operation, where, args.data, args.rest, t, false)
    case UpdateMany | UpdateManyAndReturn => DraftUpdate(e, operation, where, args.data, args.rest, t, true)
    case Delete => DraftDelete(e, operation, where, args.rest, t, false)
    case DeleteMany => DraftDelete(e, operation, where, args.rest, t, true)
    case Upsert =>
      if Matching(e, where, t) == [] then DraftCreate(e, home, operation, [args.create], args.rest, seed, t)
      else DraftUpdate(e, operation, where, args.update, args.rest, t, false)
    case Unlisted => (t, Unsupported)
    case _ => (t, Answered(e.answer(operation, args.rest, Matching(e, where, t))))
  }

  // ---- One company's part of a table ----

  function Mine(t: Table, company: string): Table {
    if t == [] then []
    else if t[0].company == company then [t[0]] + Mine(t[1..], company)
    else Mine(t[1..], company)
  }

  function Others(t: Table, company: string): Table {
    if t == [] then []
    else if t[0].company != company then [t[0]] + Others(t[1..], company)
    else Others(t[1..], company)
  }

  /** Every function on tables works from its first row. */
  lemma FirstRow(e: Engine, where: Fields, data: Value, row: Row, t: Table, all: bool)
    ensures Matching(e, where, [row] + t) ==
      if Matches(e, where, row) then [row] + Matching(e, where, t) else Matching(e, where, t)
    ensures UpdateRows(e, where, data, [row] + t, all) ==
      if !Matches(e, where, row) then [row] + UpdateRows(e, where, data, t, all)
      else [Updated(e, data, row)] + if all then UpdateRows(e, where, data, t, all) else t
    ensures DeleteRows(e, where, [row] + t, all) ==
      if !Matches(e, where, row) then [row] + DeleteRows(e, where, t, all)
      else if all then DeleteRows(e, where, t, all) else t
  {
    assert ([row] + t)[0] == row && ([row] + t)[1..] == t;
  }

  lemma MineOfCons(row: Row, t: Table, company: string)
    ensures Mine([row] + t, company) == if row.company == company then [row] + Mine(t, company) else Mine(t, company)
    ensures Others([row] + t, company) ==
      if row.company != company then [row] + Others(t, company) else Others(t, company)
  {
    assert ([row] + t)[0] == row && ([row] + t)[1..] == t;
  }

  lemma {:induction false} MineOfConcat(t: Table, u: Table, company: string)
    ensures Mine(t + u, company) == Mine(t, company) + Mine(u, company)
  {
    if t == [] {
      assert t + u == u;
    } else {
      MineOfConcat(t[1..], u, company);
      ConsConcat(t[0], t[1..], u);
      ConsConcat(t[0], Mine(t[1..], company), Mine(u, company));
      assert t == [t[0]] + t[1..];
      MineOfCons(t[0], t[1..] + u, company);
    }
  }

  lemma {:induction false} OthersOfConcat(t: Table, u: Table, company: string)
    ensures Others(t + u, company) == Others(t, company) + Others(u, company)
  {
    if t == [] {
      assert t + u == u;
    } else {
      OthersOfConcat(t[1..], u, company);
      ConsConcat(t[0], t[1..], u);
      ConsConcat(t[0], Others(t[1..], company), Others(u, company));
      assert t == [t[0]] + t[1..];
      MineOfCons(t[0], t[1..] + u, company);
    }
  }

  /** The scoped filter matches exactly the company's rows that the original one matches. */
  lemma ScopedMatches(e: Engine, where: Value, company: string, row: Row)
    requires ScopeWhere(where, company).Ok?
    ensures Matches(e, FieldsOf(ScopeWhere(where, company).value), row) <==>
      row.company == company && Matches(e, FieldsOf(where), row)
  {
    var base := FieldsOf(where);
    var scoped := base["companyId" := Str(company)];
    assert Holds(e, "companyId", Str(company), row) <==> row.company == company;
    if Matches(e, scoped, row) {
      assert "companyId" in scoped.Keys;
      forall k | k in base.Keys ensures Holds(e, k, base[k], row) {
        assert k in scoped.Keys;
      }
    } else if row.company == company && Matches(e, base, row) {
      forall k | k in scoped.Keys ensures Holds(e, k, scoped[k], row) {
        assert k == "companyId" || k in base.Keys;
      }
    }
  }

  lemma {:induction false} ScopedMatching(e: Engine, where: Value, company: string, t: Table)
    requires ScopeWhere(where, company).Ok?
    ensures Matching(e, FieldsOf(ScopeWhere(where, company).value), t) == Matching(e, FieldsOf(where), Mine(t, company))
  {
    if t != [] {
      ScopedMatches(e, where, company, t[0]);
      ScopedMatching(e, where, company, t[1..]);
      FirstRow(e, FieldsOf(where), Undefined, t[0], Mine(t[1..], company), true);
    }
  }

  lemma GuardedUpdateKeepsCompany(e: Engine, data: Value, company: string, row: Row)
    requires GuardUpdateData(data, company).None? && row.company == company
    ensures Updated(e, data, row).company == company
  {
  }

  lemma {:induction false} ScopedUpdate(e: Engine, where: Value, data: Value, company: string, t: Table, all: bool)
    requires ScopeWhere(where, company).Ok? && GuardUpdateData(data, company).None?
    ensures var u := UpdateRows(e, FieldsOf(ScopeWhere(where, company).value), data, t, all);
      && Mine(u, company) == UpdateRows(e, FieldsOf(where), data, Mine(t, company), all)
      && Others(u, company) == Others(t, company)
  {
    if t != [] {
      var scoped, row, after := FieldsOf(ScopeWhere(where, company).value), t[0], Updated(e, data, t[0]);
      var rest := UpdateRows(e, scoped, data, t[1..], all);
      ScopedMatches(e, where, company, row);
      ScopedUpdate(e, where, data, company, t[1..], all);
      FirstRow(e, FieldsOf(where), data, row, Mine(t[1..], company), all);
      MineOfCons(row, rest, company);
      MineOfCons(after, if all then rest else t[1..], company);
      if row.company == company {
        GuardedUpdateKeepsCompany(e, data, company, row);
      }
    }
  }

  lemma {:induction false} ScopedDelete(e: Engine, where: Value, company: string, t: Table, all: bool)
    requires ScopeWhere(where, company).Ok?
    ensures var u := DeleteRows(e, FieldsOf(ScopeWhere(where, company).value), t, all);
      && Mine(u, company) == DeleteRows(e, FieldsOf(where), Mine(t, company), all)
      && Others(u, company) == Others(t, company)
  {
    if t != [] {
      var scoped, row := FieldsOf(ScopeWhere(where, company).value), t[0];
      ScopedMatches(e, where, company, row);
      ScopedDelete(e, where, company, t[1..], all);
      FirstRow(e, FieldsOf(where), Undefined, row, Mine(t[1..], company), all);
      MineOfCons(row, DeleteRows(e, scoped, t[1..], all), company);
    }
  }

  lemma ScopedCreatedRow(e: Engine, data: Value, company: string, seed: int)
    requires ScopeCreateData(data, company).Ok?
    ensures var row := CreatedRow(e, None, ScopeCreateData(data, company).value, seed);
      row.Some? && row.value.company == company && row == CreatedRow(e, Some(company), data, seed)
  {
    var fields := FieldsOf(data);
    assert fields["companyId" := Str(company)] - {"companyId"} == fields - {"companyId"};
  }

  lemma {:induction false} ScopedCreatedRows(e: Engine, items: seq<Value>, company: string, seed: int)
    requires ScopeRows(items, company).Ok?
    ensures var rows := CreatedRows(e, None, ScopeRows(items, company).value, seed);
      && rows.Some? && rows == CreatedRows(e, Some(company), items, seed)
      && Mine(rows.value, company) == rows.value && Others(rows.value, company) == []
  {
    if items != [] {
      ScopedCreatedRow(e, items[0], company, seed);
      ScopedCreatedRows(e, items[1..], company, seed + 1);
      var scoped := ScopeRows(items, company).value;
      assert scoped[1..] == ScopeRows(items[1..], company).value;
    }
  }

  lemma ScopedDraftCreate(e: Engine, operation: Operation, items: seq<Value>, rest: Fields, company: string, seed: int,
                          t: Table)
    requires ScopeRows(items, company).Ok?
    ensures var (u, got) := DraftCreate(e, None, operation, ScopeRows(items, company).value, rest, seed, t);
      && (Mine(u, company), got) == DraftCreate(e, Some(company), operation, items, rest, seed, Mine(t, company))
      && Others(u, company) == Others(t, company)
  {
    ScopedCreatedRows(e, items, company, seed);
    var rows := CreatedRows(e, None, ScopeRows(items, company).value, seed).value;
    MineOfConcat(t, rows, company);
    OthersOfConcat(t, rows, company);
  }

  lemma OneRow(data: Value, company: string)
    requires ScopeCreateData(data, company).Ok?
    ensures ScopeRows([data], company) == Ok([ScopeCreateData(data, company).value])
  {
    assert [data][1..] == [];
    assert ScopeRows([data][1..], company) == Ok([]);
    var row := ScopeCreateData(data, company).value;
    assert [row] + [] == [row];
  }

  lemma ScopedDraftUpdate(e: Engine, operation: Operation, where: Value, data: Value, rest: Fields, company: string,
                          t: Table, all: bool)
    requires ScopeWhere(where, company).Ok? && GuardUpdateData(data, company).None?
    ensures var (u, got) := DraftUpdate(e, operation, FieldsOf(ScopeWhere(where, company).value), data, rest, t, all);
      && (Mine(u, company), got) == DraftUpdate(e, operation, FieldsOf(where), data, rest, Mine(t, company), all)
      && Others(u, company) == Others(t, company)
  {
    ScopedMatching(e, where, company, t);
    ScopedUpdate(e, where, data, company, t, all);
  }

  lemma ScopedDraftDelete(e: Engine, operation: Operation, where: Value, rest: Fields, company: string, t: Table,
                          all: bool)
    requires ScopeWhere(where, company).Ok?
    ensures var (u, got) := DraftDelete(e, operation, FieldsOf(ScopeWhere(where, company).value), rest, t, all);
      && (Mine(u, company), got) == DraftDelete(e, operation, FieldsOf(where), rest, Mine(t, company), all)
      && Others(u, company) == Others(t, company)
  {
    ScopedMatching(e, where, company, t);
    ScopedDelete(e, where, company, t, all);
  }

  lemma ScopedItems(data: Value, company: string)
    requires ScopeData(data, company).Ok?
    ensures ScopeRows(Written(data), company) == Ok(Written(ScopeData(data, company).value))
  {
    if !data.Arr? {
      OneRow(data, company);
    }
  }

  lemma DraftOfCreate(e: Engine, home: Option<string>, operation: Operation, args: Args, seed: int, t: Table)
    requires operation in CREATE_OPERATIONS
    ensures Draft(e, home, operation, args, seed, t) ==
      DraftCreate(e, home, operation, Written(args.data), args.rest, seed, t)
  {
  }

  lemma ScopedCreate(e: Engine, operation: Operation, args: Args, company: string, seed: int, t: Table)
    requires operation in CREATE_OPERATIONS && Scoped(operation, args, company).Ok?
    ensures var (u, got) := Draft(e, None, operation, Scoped(operation, args, company).value, seed, t);
      && (Mine(u, company), got) == Draft(e, Some(company), operation, args, seed, Mine(t, company))
      && Others(u, company) == Others(t, company)
  {
    ScopedItems(args.data, company);
    DraftOfCreate(e, None, operation, Scoped(operation, args, company).value, seed, t);
    DraftOfCreate(e, Some(company), operation, args, seed, Mine(t, company));
    ScopedDraftCreate(e, operation, Written(args.data), args.rest, company, seed, t);
  }

  lemma ScopedUpsert(e: Engine, args: Args, company: string, seed: int, t: Table)
    requires Scoped(Upsert, args, company).Ok?
    ensures var (u, got) := Draft(e, None, Upsert, Scoped(Upsert, args, company).value, seed, t);
      && (Mine(u, company), got) == Draft(e, Some(company), Upsert, args, seed, Mine(t, company))
      && Others(u, company) == Others(t, company)
  {
    ScopedMatching(e, args.where, company, t);
    OneRow(args.create, company);
    ScopedDraftCreate(e, Upsert, [args.create], args.rest, company, seed, t);
    ScopedDraftUpdate(e, Upsert, args.where, args.update, args.rest, company, t, false);
  }

  lemma DraftOfChange(e: Engine, home: Option<string>, operation: Operation, args: Args, seed: int, t: Table)
    requires operation in {Update, UpdateMany, UpdateManyAndReturn, Delete, DeleteMany}
    ensures var where := FieldsOf(args.where);
      Draft(e, home, operation, args, seed, t) ==
        if operation in UPDATE_OPERATIONS
        then DraftUpdate(e, operation, where, args.data, args.rest, t, !operation.Update?)
        else DraftDelete(e, operation, where, args.rest, t, !operation.Delete?)
  {
  }

  lemma ScopedChange(e: Engine, operation: Operation, args: Args, company: string, seed: int, t: Table)
    requires operation in {Update, UpdateMany, UpdateManyAndReturn, Delete, DeleteMany} &&
      Scoped(operation, args, company).Ok?
    ensures var (u, got) := Draft(e, None, operation, Scoped(operation, args, company).value, seed, t);
      && (Mine(u, company), got) == Draft(e, Some(company), operation, args, seed, Mine(t, company))
      && Others(u, company) == Others(t, company)
  {
    DraftOfChange(e, None, operation, Scoped(operation, args, company).value, seed, t);
    DraftOfChange(e, Some(company), operation, args, seed, Mine(t, company));
    if operation in UPDATE_OPERATIONS {
      ScopedDraftUpdate(e, operation, args.where, args.data, args.rest, company, t, !operation.Update?);
    } else {
      ScopedDraftDelete(e, operation, args.where, args.rest, company, t, !operation.Delete?);
    }
  }

  /**
   Before keys are checked, a scoped operation does to the company's part of the table what
   the original does in a database of that company alone, with the same answer, and nothing to the rest.
   */
  lemma ScopedDraft(e: Engine, operation: Operation, args: Args, company: string, seed: int, t: Table)
    requires Scoped(operation, args, company).Ok?
    ensures var (u, got) := Draft(e, None, operation, Scoped(operation, args, company).value, seed, t);
      && (Mine(u, company), got) == Draft(e, Some(company), operation, args, seed, Mine(t, company))
      && Others(u, company) == Others(t, company)
  {
    match operation
    case Create | CreateMany | CreateManyAndReturn => ScopedCreate(e, operation, args, company, seed, t);
    case Update | UpdateMany | UpdateManyAndReturn | Delete | DeleteMany =>
      ScopedChange(e, operation, args, company, seed, t);
    case Upsert => ScopedUpsert(e, args, company, seed, t);
    case Unlisted =>
    case _ => ScopedMatching(e, args.where, company, t);
  }

  // ---- The client cache ----

  /** A client pinned to one company. */
  datatype Client = Client(company: string)

  const MAX_CACHED_TENANTS := 1_000

  /** scopedClient: clients are kept per company and all dropped when the cache is full. */
  class TenantClients {
    var clients: map<string, Client>

    ghost predicate Valid()
      reads this
    {
      |clients| <= MAX_CACHED_TENANTS && forall c :: c in clients ==> clients[c].company == c
    }

    constructor ()
      ensures Valid() && clients == map[]
    {
      clients := map[];
    }

    method ScopedClient(company: string) returns (client: Client)
      requires Valid()
      modifies this
      ensures Valid() && client.company == company
      ensures company in clients && clients[company] == client
      ensures company in old(clients) ==> clients == old(clients)
      ensures company !in old(clients) && |old(clients)| < MAX_CACHED_TENANTS ==>
        clients == old(clients)[company := client]
    {
      if company in clients {
        return clients[company];
      }
      if |clients| >= MAX_CACHED_TENANTS {
        clients := map[];
      }
      client := Client(company);
      clients := clients[company := client];
    }
  }
}
