/** The parameters the server seeds for every statement: each a key, and the caller's identity never displaced. */
module ServerArgs {
  import opened Fields
  import opened MappingColumns
  import opened Results
  import opened Values
  import opened WriteParams

  /** Who is asking; the groups and the extra travel as JSON. */
  datatype Caller = Caller(name: string, uid: string, groups: Option<Json>, extra: Option<Json>)

  const CALLER_BINDS: set<string> := {"user", "userUID", "userGroups", "userExtra"}

  /** `callerArgs`: what a request without an identity, or a part of it, does not have is NULL. */
  function CallerArgs(caller: Option<Caller>): (args: Args)
    ensures args.Keys == CALLER_BINDS
  {
    if caller.None? then map["user" := NULL, "userUID" := NULL, "userGroups" := NULL, "userExtra" := NULL]
    else
      var c := caller.value;
      map["user" := Plain(Text(c.name)),
          "userUID" := if c.uid == "" then NULL else Plain(Text(c.uid)),
          "userGroups" := if c.groups.Some? then Encoded(c.groups.value) else NULL,
          "userExtra" := if c.extra.Some? then Encoded(c.extra.value) else NULL]
  }

  /** A column that a selectable field may have. */
  predicate IsSelectable(column: string) {
    column == "" || (column !in SERVER_BINDS && !(LABEL_BIND_PREFIX <= column))
  }

  /** `CheckSelectableColumns`: refused exactly when a column has a name that the server binds, or a label's prefix. */
  method CheckSelectableColumns(columns: seq<string>) returns (r: Result<(), string>)
    ensures r.Ok? <==> forall i :: 0 <= i < |columns| ==> IsSelectable(columns[i])
    ensures r.Err? ==> r.error in columns && !IsSelectable(r.error)
  {
    hide IsSelectable;
    for i := 0 to |columns|
      invariant forall j :: 0 <= j < i ==> IsSelectable(columns[j])
    {
      if !IsSelectable(columns[i]) { return Err(columns[i]); }
    }
    return Ok(());
  }

  /** The server's names are still there, bound to what they were. */
  ghost predicate Spared(args: Args, more: Args) {
    args.Keys <= more.Keys && forall n :: n in SERVER_BINDS && n in args ==> more[n] == args[n]
  }

  /** Of the server's names only `name_not` ends as the bind of a negated selector does. */
  lemma NegatedIsNotServers(column: string)
    requires IsSelectable(column) && column != ""
    ensures column + "_not" !in SERVER_BINDS
  {
    var bind := column + "_not";
    assert bind[|column|] == '_' && |bind| == |column| + 4;
    assert bind[..|column|] == column && "name_not"[..4] == "name";
    hide SERVER_BINDS, IsSelectable;
    FourFromTheEnd(bind);
  }

  lemma FourFromTheEnd(bind: string)
    requires |bind| >= 4 && bind[|bind| - 4] == '_' && bind != "name_not"
    ensures bind !in SERVER_BINDS
  {
    assert "user"[0] == 'u' && "userUID"[3] == 'r' && "userGroups"[6] == 'o' && "userExtra"[5] == 'x';
    assert "limit"[1] == 'i' && "offset"[2] == 'f' && "after"[1] == 'f' && "since"[1] == 'i';
    assert "labelSelector"[9] == 'c' && "resourceVersion"[11] == 's' && "name"[0] == 'n' && "namespace"[5] == 'p';
  }

  /** What is bound for a label begins as none of the server's names does. */
  lemma LabelIsNotServers(bind: string)
    requires LABEL_BIND_PREFIX <= bind
    ensures bind !in SERVER_BINDS
  {
    assert bind[0] == 'l' && bind[1] == 'a' && bind[5] == '_';
    assert "labelSelector"[5] == 'S' && "limit"[1] == 'i';
  }

  /** `bindSelectableFields` without a selector. */
  method BindSelectable(columns: seq<string>, args: Args) returns (r: Args)
    requires forall i :: 0 <= i < |columns| ==> IsSelectable(columns[i])
    ensures Spared(args, r)
    ensures forall i :: 0 <= i < |columns| && columns[i] != "" ==> columns[i] in r && columns[i] + "_not" in r
  {
    hide SERVER_BINDS;
    r := args;
    for i := 0 to |columns|
      invariant Spared(args, r)
      invariant forall j :: 0 <= j < i && columns[j] != "" ==> columns[j] in r && columns[j] + "_not" in r
    {
      if columns[i] == "" { continue; }
      NegatedIsNotServers(columns[i]);
      r := r[columns[i] := NULL];
      r := r[columns[i] + "_not" := NULL];
    }
  }

  /** `bindLabelSelector` without a selector. */
  method BindLabels(columns: seq<string>, args: Args) returns (r: Args)
    ensures Spared(args, r)
    ensures forall i :: 0 <= i < |columns| ==> LABEL_BIND_PREFIX + columns[i] in r
  {
    hide SERVER_BINDS;
    r := args;
    for i := 0 to |columns|
      invariant Spared(args, r)
      invariant forall j :: 0 <= j < i ==> LABEL_BIND_PREFIX + columns[j] in r
    {
      var bind := LABEL_BIND_PREFIX + columns[i];
      assert LABEL_BIND_PREFIX <= bind + "_not" && LABEL_BIND_PREFIX <= bind + "_in";
      LabelIsNotServers(bind);
      LabelIsNotServers(bind + "_not");
      LabelIsNotServers(bind + "_in");
      r := r[bind := NULL];
      r := r[bind + "_not" := NULL];
      r := r[bind + "_in" := NULL];
    }
  }

  method SeedNames() returns (args: Args)
    ensures args.Keys == SERVER_BINDS && forall n :: n in args ==> args[n] == NULL
  {
    args := map[];
    var rest := SERVER_BINDS;
    hide SERVER_BINDS;
    while rest != {}
      invariant rest <= SERVER_BINDS && args.Keys == SERVER_BINDS - rest && forall n :: n in args ==> args[n] == NULL
      decreases |rest|
    {
      var n :| n in rest;
      args := args[n := NULL];
      rest := rest - {n};
    }
  }

  /** What one of the server's names is bound to by every statement of a request. */
  ghost function ServerValue(namespace: string, caller: Option<Caller>, n: string): Bound {
    if n in CALLER_BINDS then CallerArgs(caller)[n]
    else if n == "namespace" && namespace != "" then Plain(Text(namespace))
    else NULL
  }

  /** A value of the request's, or NULL where it has none. */
  predicate Given(args: Args, n: string, value: Option<Bound>) {
    n in args && args[n] == if value.Some? then value.value else NULL
  }

  /** An empty text is none. */
  function TextOf(s: string): Option<Bound> {
    if s == "" then None else Some(Plain(Text(s)))
  }

  function JsonOf(value: Option<Json>): Option<Bound> {
    if value.Some? then Some(Encoded(value.value)) else None
  }

  /** Name by name: who asks, for what namespace, and NULL under every other name a statement may use. */
  ghost predicate SeededFor(args: Args, namespace: string, caller: Option<Caller>) {
    && Given(args, "user", if caller.Some? then Some(Plain(Text(caller.value.name))) else None)
    && Given(args, "userUID", if caller.Some? then TextOf(caller.value.uid) else None)
    && Given(args, "userGroups", if caller.Some? then JsonOf(caller.value.groups) else None)
    && Given(args, "userExtra", if caller.Some? then JsonOf(caller.value.extra) else None)
    && Given(args, "namespace", TextOf(namespace)) && Given(args, "name", None) && Given(args, "name_not", None)
    && Given(args, "limit", None) && Given(args, "offset", None) && Given(args, "after", None)
    && Given(args, "since", None) && Given(args, "labelSelector", None) && Given(args, "resourceVersion", None)
  }

  lemma SeededByName(args: Args, namespace: string, caller: Option<Caller>)
    requires SERVER_BINDS <= args.Keys && forall n :: n in SERVER_BINDS ==> args[n] == ServerValue(namespace, caller, n)
    ensures SeededFor(args, namespace, caller)
  {
  }

  /**
   `builtinArgs`: every name of the server's is a key, bound to the request's value or NULL, whatever is selectable.
   */
  method BuiltinArgs(namespace: string, caller: Option<Caller>, selectable: seq<string>, labelColumns: seq<string>)
    returns (args: Args)
    requires forall i :: 0 <= i < |selectable| ==> IsSelectable(selectable[i])
    ensures SERVER_BINDS <= args.Keys
    ensures forall n :: n in SERVER_BINDS ==> args[n] == ServerValue(namespace, caller, n)
    ensures SeededFor(args, namespace, caller)
  {
    CallerIsServers();
    hide SERVER_BINDS, CALLER_BINDS, IsSelectable, CallerArgs, SeededFor;
    args := SeedNames();
    args := args["namespace" := if namespace == "" then NULL else Plain(Text(namespace))];
    args := args + CallerArgs(caller);
    var more := BindSelectable(selectable, args);
    var all := BindLabels(labelColumns, more);
    args := all;
    SeededByName(args, namespace, caller);
  }

  lemma CallerIsServers()
    ensures CALLER_BINDS <= SERVER_BINDS && "namespace" in SERVER_BINDS && "namespace" !in CALLER_BINDS
  {
  }
}
