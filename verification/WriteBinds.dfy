/** The check that a projection's write statements name nothing that nothing supplies, and what it is worth. */
module WriteBinds {
  import Fields
  import opened MappingColumns
  import opened Results
  import opened ServerArgs
  import opened SqlBind
  import opened SqlLexer
  import opened SqlRewrite
  import Values
  import opened WriteParams

  /** A query: several statements, or one, and the names of its declared parameters. */
  datatype Query = Query(sql: string, statements: seq<string>, parameters: seq<string>)

  datatype Queries = Queries(create: Option<Query>, update: Option<Query>, updateStatus: Option<Query>,
                             delete: Option<Query>, markDeleted: Option<Query>, deleteCollection: Option<Query>)

  datatype Extra = Extra(name: string, served: Option<bool>, mapping: Option<Mapping>)

  datatype Spec = Spec(driver: string, version: string, mapping: Mapping, extras: seq<Extra>, queries: Queries)

  datatype WriteQuery = WriteQuery(verb: string, query: Query, hasObject: bool)

  datatype WriteVersion = WriteVersion(name: string, mapping: Mapping)

  /** `statementsOf`. */
  function StatementsOf(query: Query): seq<string> {
    if query.statements != [] then query.statements else if query.sql == "" then [] else [query.sql]
  }

  function IfDeclared(verb: string, query: Option<Query>, hasObject: bool): seq<WriteQuery> {
    if query.Some? then [WriteQuery(verb, query.value, hasObject)] else []
  }

  /** `writeQueries`. */
  function WriteQueries(qs: Queries): seq<WriteQuery> {
    IfDeclared("create", qs.create, true) + IfDeclared("update", qs.update, true)
    + IfDeclared("updateStatus", qs.updateStatus, true) + IfDeclared("delete", qs.delete, true)
    + IfDeclared("markDeleted", qs.markDeleted, true) + IfDeclared("deleteCollection", qs.deleteCollection, false)
  }

  /** A version is served with this mapping: its own, or else the projection's. */
  ghost predicate Serves(spec: Spec, version: WriteVersion) {
    || version == WriteVersion(spec.version, spec.mapping)
    || (exists i :: 0 <= i < |spec.extras|
          && spec.extras[i].served != Some(false) && ServedAs(spec, spec.extras[i]) == version)
  }

  function ServedAs(spec: Spec, extra: Extra): WriteVersion {
    WriteVersion(extra.name, if extra.mapping.Some? then extra.mapping.value else spec.mapping)
  }

  /** `writeVersions`. */
  method WriteVersions(spec: Spec) returns (versions: seq<WriteVersion>)
    ensures forall v :: v in versions <==> Serves(spec, v)
  {
    versions := [WriteVersion(spec.version, spec.mapping)];
    for i := 0 to |spec.extras|
      invariant forall v :: v in versions <==>
        || v == WriteVersion(spec.version, spec.mapping)
        || exists j :: 0 <= j < i && spec.extras[j].served != Some(false) && ServedAs(spec, spec.extras[j]) == v
    {
      if spec.extras[i].served != Some(false) { versions := versions + [ServedAs(spec, spec.extras[i])]; }
    }
  }

  /** What a write can name: the server's names, the mapped columns, and the declared parameters. */
  ghost function Supplied(mapping: Option<Mapping>, parameters: seq<string>): set<string> {
    SERVER_BINDS + (if mapping.Some? then ColumnNames(mapping.value) else {}) + set p | p in parameters
  }

  /** `suppliedBinds`. */
  method SuppliedBinds(mapping: Option<Mapping>, parameters: seq<string>) returns (supplied: set<string>)
    ensures supplied == Supplied(mapping, parameters)
  {
    hide ColumnNames, Reads;
    supplied := SERVER_BINDS;
    if mapping.Some? {
      var columns := Columns(mapping.value);
      var names := Names(mapping.value, columns);
      supplied := supplied + names;
    }
    for i := 0 to |parameters|
      invariant supplied == SERVER_BINDS + (if mapping.Some? then ColumnNames(mapping.value) else {})
                            + set p | p in parameters[..i]
    {
      assert parameters[..i + 1] == parameters[..i] + [parameters[i]];
      supplied := supplied + {parameters[i]};
    }
    assert parameters[..|parameters|] == parameters;
  }

  /** `MappingColumnNames`. */
  method Names(m: Mapping, columns: seq<MappedColumn>) returns (names: set<string>)
    requires forall c :: c in columns <==> Reads(m, c.column, c.usedFor)
    ensures names == ColumnNames(m)
  {
    hide ColumnNames, Reads;
    names := {};
    for i := 0 to |columns|
      invariant names == set j | 0 <= j < i :: columns[j].column
    {
      names := names + {columns[i].column};
    }
    forall c ensures c in ColumnNames(m) <==> exists j :: 0 <= j < |columns| && columns[j].column == c {
      NamesAreRead(m, c);
      if c in ColumnNames(m) {
        var use :| Reads(m, c, use);
        assert MappedColumn(c, use) in columns;
      }
      if j :| 0 <= j < |columns| && columns[j].column == c {
        assert columns[j] in columns;
        assert Reads(m, c, columns[j].usedFor);
      }
    }
  }

  /** The names a statement asks the driver for. */
  function StatementNames(stmt: string, driver: string, drivers: map<string, Style>): seq<string>
    requires driver in drivers
  {
    DriverNames(StatementTokens(stmt, DialectFor(driver)), drivers[driver])
  }

  ghost predicate NamesSupplied(names: seq<string>, supplied: set<string>) {
    forall n :: n in names ==> n in supplied
  }

  /** A statement names only what is supplied: for every served version, or, with no object behind it, at all. */
  ghost predicate Bindable(spec: Spec, drivers: map<string, Style>, write: WriteQuery, stmt: string) {
    && spec.driver in drivers
    && var names := StatementNames(stmt, spec.driver, drivers);
       if write.hasObject then
         forall v :: Serves(spec, v) ==> NamesSupplied(names, Supplied(Some(v.mapping), write.query.parameters))
       else NamesSupplied(names, Supplied(None, write.query.parameters))
  }

  ghost predicate QueryBindable(spec: Spec, drivers: map<string, Style>, write: WriteQuery) {
    forall s :: s in StatementsOf(write.query) ==> Bindable(spec, drivers, write, s)
  }

  ghost predicate AllBindable(spec: Spec, drivers: map<string, Style>) {
    forall w :: w in WriteQueries(spec.queries) ==> QueryBindable(spec, drivers, w)
  }

  /** A query can be bound, with or without an object behind it. */
  ghost predicate MayRun(spec: Spec, drivers: map<string, Style>, verb: string, query: Option<Query>, hasObject: bool) {
    query.Some? ==> forall s :: s in StatementsOf(query.value) ==>
      Bindable(spec, drivers, WriteQuery(verb, query.value, hasObject), s)
  }

  /** What is checked is every query that writes, and only the deletion of a collection without an object. */
  lemma EveryWriteChecked(spec: Spec, drivers: map<string, Style>)
    ensures AllBindable(spec, drivers) <==>
      && MayRun(spec, drivers, "create", spec.queries.create, true)
      && MayRun(spec, drivers, "update", spec.queries.update, true)
      && MayRun(spec, drivers, "updateStatus", spec.queries.updateStatus, true)
      && MayRun(spec, drivers, "delete", spec.queries.delete, true)
      && MayRun(spec, drivers, "markDeleted", spec.queries.markDeleted, true)
      && MayRun(spec, drivers, "deleteCollection", spec.queries.deleteCollection, false)
  {
    hide QueryBindable, MayRun;
    var qs := spec.queries;
    OneQuery(spec, drivers, "create", qs.create, true);
    OneQuery(spec, drivers, "update", qs.update, true);
    OneQuery(spec, drivers, "updateStatus", qs.updateStatus, true);
    OneQuery(spec, drivers, "delete", qs.delete, true);
    OneQuery(spec, drivers, "markDeleted", qs.markDeleted, true);
    OneQuery(spec, drivers, "deleteCollection", qs.deleteCollection, false);
    hide IfDeclared;
    var c, u, s := IfDeclared("create", qs.create, true), IfDeclared("update", qs.update, true),
                   IfDeclared("updateStatus", qs.updateStatus, true);
    var d, m, a := IfDeclared("delete", qs.delete, true), IfDeclared("markDeleted", qs.markDeleted, true),
                   IfDeclared("deleteCollection", qs.deleteCollection, false);
    assert forall w :: w in WriteQueries(qs) <==> w in c || w in u || w in s || w in d || w in m || w in a;
  }

  lemma OneQuery(spec: Spec, drivers: map<string, Style>, verb: string, query: Option<Query>, hasObject: bool)
    ensures MayRun(spec, drivers, verb, query, hasObject) <==>
      forall w :: w in IfDeclared(verb, query, hasObject) ==> QueryBindable(spec, drivers, w)
  {
    hide Bindable, StatementsOf;
    if query.Some? { assert WriteQuery(verb, query.value, hasObject) in IfDeclared(verb, query, hasObject); }
  }

  method Missing(names: seq<string>, supplied: set<string>) returns (missing: Option<string>)
    ensures missing.None? <==> NamesSupplied(names, supplied)
    ensures missing.Some? ==> missing.value in names && missing.value !in supplied
  {
    for i := 0 to |names|
      invariant forall j :: 0 <= j < i ==> names[j] in supplied
    {
      if names[i] !in supplied { return Some(names[i]); }
    }
    return None;
  }

  method CheckStatement(spec: Spec, drivers: map<string, Style>, write: WriteQuery, stmt: string,
                        versions: seq<WriteVersion>) returns (ok: bool)
    requires forall v :: v in versions <==> Serves(spec, v)
    ensures ok <==> Bindable(spec, drivers, write, stmt)
  {
    hide Serves, Supplied, NamesSupplied;
    var rewritten := Rewrite(stmt, spec.driver, drivers);
    if rewritten.Err? { return false; }
    var names := rewritten.value.1;
    assert names == StatementNames(stmt, spec.driver, drivers);
    if !write.hasObject {
      var supplied := SuppliedBinds(None, write.query.parameters);
      var missing := Missing(names, supplied);
      return missing.None?;
    }
    for i := 0 to |versions|
      invariant forall j :: 0 <= j < i ==>
        NamesSupplied(names, Supplied(Some(versions[j].mapping), write.query.parameters))
    {
      var supplied := SuppliedBinds(Some(versions[i].mapping), write.query.parameters);
      var missing := Missing(names, supplied);
      assert versions[i] in versions;
      if missing.Some? { return false; }
    }
    return true;
  }

  method CheckQuery(spec: Spec, drivers: map<string, Style>, write: WriteQuery, versions: seq<WriteVersion>)
    returns (ok: bool)
    requires forall v :: v in versions <==> Serves(spec, v)
    ensures ok <==> QueryBindable(spec, drivers, write)
  {
    hide Serves, Bindable;
    var statements := StatementsOf(write.query);
    for i := 0 to |statements|
      invariant forall j :: 0 <= j < i ==> Bindable(spec, drivers, write, statements[j])
    {
      var fine := CheckStatement(spec, drivers, write, statements[i], versions);
      assert statements[i] in statements;
      if !fine { return false; }
    }
    return true;
  }

  /** `CheckWriteBinds`: accepted exactly when every write statement can be bound through every served version. */
  method CheckWriteBinds(spec: Spec, drivers: map<string, Style>) returns (ok: bool)
    ensures ok <==> AllBindable(spec, drivers)
  {
    hide Serves, QueryBindable, WriteQueries;
    var versions := WriteVersions(spec);
    var writes := WriteQueries(spec.queries);
    for i := 0 to |writes|
      invariant forall j :: 0 <= j < i ==> QueryBindable(spec, drivers, writes[j])
    {
      var fine := CheckQuery(spec, drivers, writes[i], versions);
      assert writes[i] in writes;
      if !fine { return false; }
    }
    return true;
  }

  // Binding.

  /** What a write is bound from: the server's names, the object's columns, then the declared parameters. */
  method WriteArgs(m: Mapper, obj: ApiObject, server: Args, declared: Args) returns (r: Option<Args>)
    requires Checked(m) && SERVER_BINDS <= server.Keys
    ensures r.Some? ==> server.Keys + ColumnNames(m.mapping) + declared.Keys <= r.value.Keys
    ensures r.Some? ==> forall n :: n in SERVER_OWNED && n !in declared ==> r.value[n] == server[n]
  {
    hide ColumnNames, ChoosesRow, FieldsBound;
    var params := Params(m, obj);
    if params.None? { return None; }
    NotServerOwned(m, params.value);
    return Some(server + params.value + declared);
  }

  /** What the mapping binds is never a name the server owns. */
  lemma NotServerOwned(m: Mapper, params: Args)
    requires Checked(m) && params.Keys <= {"name", "namespace", ""} + ColumnNames(m.mapping)
    ensures params.Keys !! SERVER_OWNED
  {
    hide ColumnNames;
    assert "" !in SERVER_OWNED;
    NameIsNotOwned();
    forall c | c in params.Keys && c in ColumnNames(m.mapping) ensures c !in SERVER_OWNED {
      assert !IsReserved(c);
    }
  }

  lemma NameIsNotOwned()
    ensures "name" !in SERVER_OWNED && "namespace" !in SERVER_OWNED
  {
  }

  /** What the server knows of a request, and of the projection it is for. */
  datatype Request = Request(namespace: string, caller: Option<Caller>, selectable: seq<string>,
                             labelColumns: seq<string>)

  /** Validation has accepted the projection's selectable columns. */
  ghost predicate Selects(request: Request) {
    forall i :: 0 <= i < |request.selectable| ==> IsSelectable(request.selectable[i])
  }

  /** What a write has from the server: what every statement has, the object's name, and the version it is based on. */
  method ServerPart(request: Request, obj: ApiObject) returns (server: Args)
    requires Selects(request)
    ensures SERVER_BINDS <= server.Keys
    ensures forall n :: n in CALLER_BINDS ==> n in server && server[n] == CallerArgs(request.caller)[n]
  {
    NotTheCaller();
    hide SERVER_BINDS, CALLER_BINDS, CallerArgs, IsSelectable;
    server := BuiltinArgs(request.namespace, request.caller, request.selectable, request.labelColumns);
    server := server["name" := Fields.Plain(Values.Text(obj.name))];
    var version := if obj.resourceVersion == "" then NULL else Fields.Plain(Values.Text(obj.resourceVersion));
    server := server["resourceVersion" := version];
  }

  lemma NotTheCaller()
    ensures CALLER_BINDS <= SERVER_OWNED <= SERVER_BINDS
    ensures "name" !in CALLER_BINDS && "resourceVersion" !in CALLER_BINDS
  {
  }

  /**
   An accepted write always binds: no object of any served version leaves a statement without a value, and the caller's
   identity is the server's unless a declared parameter takes its name.
   */
  method RunWrite(spec: Spec, drivers: map<string, Style>, write: WriteQuery, stmt: string, version: WriteVersion,
                  m: Mapper, obj: ApiObject, request: Request, declared: Args)
    returns (args: Option<Args>, bound: Result<seq<Fields.Bound>, string>)
    requires AllBindable(spec, drivers) && write in WriteQueries(spec.queries) && write.hasObject
    requires stmt in StatementsOf(write.query) && Serves(spec, version)
    requires Checked(m) && m.mapping == version.mapping && Selects(request)
    requires declared.Keys == set p | p in write.query.parameters
    ensures args.Some? ==> bound.Ok? && spec.driver in drivers
    ensures args.Some? ==> forall n :: n in StatementNames(stmt, spec.driver, drivers) ==> n in args.value
    ensures args.Some? ==> bound.value == SqlBind.Values(StatementNames(stmt, spec.driver, drivers), args.value)
    ensures args.Some? ==> forall n :: n in CALLER_BINDS && n !in declared ==>
              n in args.value && args.value[n] == CallerArgs(request.caller)[n]
  {
    NotTheCaller();
    hide ColumnNames, Serves, WriteQueries, SERVER_BINDS, SERVER_OWNED, CALLER_BINDS, CallerArgs;
    assert QueryBindable(spec, drivers, write);
    assert Bindable(spec, drivers, write, stmt);
    var server := ServerPart(request, obj);
    args := WriteArgs(m, obj, server, declared);
    bound := Err("");
    if args.Some? {
      var rewritten := Rewrite(stmt, spec.driver, drivers);
      assert NamesSupplied(rewritten.value.1, Supplied(Some(version.mapping), write.query.parameters));
      bound := Bind(rewritten.value.1, args.value);
    }
  }

  /** So does an accepted write with no object behind it, from the server's names and the declared parameters alone. */
  method RunCollectionWrite(spec: Spec, drivers: map<string, Style>, write: WriteQuery, stmt: string,
                            request: Request, labelSelector: Option<string>, declared: Args)
    returns (args: Args, bound: Result<seq<Fields.Bound>, string>)
    requires AllBindable(spec, drivers) && write in WriteQueries(spec.queries) && !write.hasObject
    requires stmt in StatementsOf(write.query) && Selects(request)
    requires declared.Keys == set p | p in write.query.parameters
    ensures bound.Ok? && spec.driver in drivers
    ensures forall n :: n in StatementNames(stmt, spec.driver, drivers) ==> n in args
    ensures bound.value == SqlBind.Values(StatementNames(stmt, spec.driver, drivers), args)
  {
    hide WriteQueries, SERVER_BINDS, IsSelectable;
    assert QueryBindable(spec, drivers, write);
    assert Bindable(spec, drivers, write, stmt);
    args := BuiltinArgs(request.namespace, request.caller, request.selectable, request.labelColumns);
    if labelSelector.Some? { args := args["labelSelector" := Fields.Plain(Values.Text(labelSelector.value))]; }
    args := args + declared;
    var rewritten := Rewrite(stmt, spec.driver, drivers);
    assert NamesSupplied(rewritten.value.1, Supplied(None, write.query.parameters));
    bound := Bind(rewritten.value.1, args);
  }
}
