/** The arguments of a write: the mapping reversed, every mapped column bound from the submitted object. */
module WriteParams {
  import opened CompositeNames
  import opened Fields
  import opened MappingColumns
  import opened Nested
  import opened ObjectNames
  import opened Results
  import opened Text
  import opened Values

  /** What a write reads of the object a client submitted. */
  datatype ApiObject = ApiObject(
    name: string, namespace: string, uid: string, resourceVersion: string,
    finalizers: Json, ownerReferences: Json, managedFields: Option<Json>,
    labels: map<string, string>, annotations: map<string, string>, content: Json)

  datatype Mapper = Mapper(mapping: Mapping, naming: Naming, namespaced: bool)

  /** What `NewMapper` has checked of a mapping. */
  ghost predicate Checked(m: Mapper) {
    && m.naming.columns != [] && (m.namespaced <==> m.mapping.namespace != "")
    && (forall c :: c in m.naming.columns ==> c != "" && (c == m.mapping.name || c in m.mapping.nameColumns))
    && (forall c :: c in ColumnNames(m.mapping) ==> !IsReserved(c))
    && (forall i :: 0 <= i < |m.mapping.fields| ==> m.mapping.fields[i].column != "")
  }

  type Args = map<string, Bound>

  const NULL: Bound := Plain(Null)

  /** `more` binds what `args` binds, and nothing but mapped columns besides. */
  ghost predicate Within(m: Mapping, args: Args, more: Args) {
    args.Keys <= more.Keys <= args.Keys + ColumnNames(m) + {""}
  }

  /** What a key is bound to before anything has a value. */
  ghost function SeedValue(m: Mapping, obj: ApiObject, c: string): Bound {
    if c in ColumnNames(m) then NULL else Plain(Text(if c == "name" then obj.name else obj.namespace))
  }

  method Seed(m: Mapping, obj: ApiObject) returns (args: Args)
    ensures args.Keys == {"name", "namespace"} + ColumnNames(m)
    ensures forall c :: c in args ==> args[c] == SeedValue(m, obj, c)
  {
    hide Reads, ColumnNames;
    args := map["name" := Plain(Text(obj.name)), "namespace" := Plain(Text(obj.namespace))];
    var columns := Columns(m);
    ColumnsAreNames(m, columns);
    for i := 0 to |columns|
      invariant args.Keys == {"name", "namespace"} + set j | 0 <= j < i :: columns[j].column
      invariant forall j :: 0 <= j < i ==> args[columns[j].column] == NULL
      invariant forall c :: c in args && (forall j :: 0 <= j < i ==> columns[j].column != c) ==>
                  args[c] == Plain(Text(if c == "name" then obj.name else obj.namespace))
    {
      args := args[columns[i].column := NULL];
    }
  }

  lemma ColumnsAreNames(m: Mapping, columns: seq<MappedColumn>)
    requires forall c :: c in columns <==> Reads(m, c.column, c.usedFor)
    ensures forall c :: c in ColumnNames(m) <==> exists j :: 0 <= j < |columns| && columns[j].column == c
  {
    hide Reads, ColumnNames;
    forall c ensures c in ColumnNames(m) <==> exists j :: 0 <= j < |columns| && columns[j].column == c {
      NamesAreRead(m, c);
      if c in ColumnNames(m) {
        var use :| Reads(m, c, use);
        assert MappedColumn(c, use) in columns;
      }
      if j :| 0 <= j < |columns| && columns[j].column == c {
        assert columns[j] in columns;
        assert Reads(m, c, columns[j].usedFor);
      }
    }
  }

  function Put(args: Args, column: string, value: Bound): Args {
    if column == "" then args else args[column := value]
  }

  /** What metadata with a column of its own binds there, later columns before earlier ones; else what was bound. */
  function MetadataValue(m: Mapping, obj: ApiObject, c: string, before: Bound): Bound {
    if c != "" && c == m.managedFields then if obj.managedFields.Some? then Encoded(obj.managedFields.value) else NULL
    else if c != "" && c == m.ownerReferences then Encoded(obj.ownerReferences)
    else if c != "" && c == m.finalizers then Encoded(obj.finalizers)
    else VersionValue(m, obj, c, before)
  }

  function VersionValue(m: Mapping, obj: ApiObject, c: string, before: Bound): Bound {
    if c != "" && c == m.resourceVersion && obj.resourceVersion != "" then Plain(Text(obj.resourceVersion))
    else if c != "" && c == m.uid && obj.uid != "" then Plain(Text(obj.uid))
    else before
  }

  /** The uid and the version, when the object has them. */
  method BindVersion(m: Mapping, obj: ApiObject, args: Args) returns (r: Args)
    requires (m.uid != "" ==> m.uid in args) && (m.resourceVersion != "" ==> m.resourceVersion in args)
    ensures r.Keys == args.Keys && forall c :: c in args ==> r[c] == VersionValue(m, obj, c, args[c])
  {
    r := args;
    if m.uid != "" && obj.uid != "" { r := r[m.uid := Plain(Text(obj.uid))]; }
    if m.resourceVersion != "" && obj.resourceVersion != "" {
      r := r[m.resourceVersion := Plain(Text(obj.resourceVersion))];
    }
  }

  /** The metadata that has a column of its own. */
  method BindMetadata(m: Mapping, obj: ApiObject, args: Args) returns (r: Args)
    requires ColumnNames(m) <= args.Keys
    ensures r.Keys == args.Keys
    ensures forall c :: c in args ==> r[c] == MetadataValue(m, obj, c, args[c])
  {
    hide ColumnNames, VersionValue;
    MetadataNamed(m);
    r := BindVersion(m, obj, args);
    r := Put(r, m.finalizers, Encoded(obj.finalizers));
    r := Put(r, m.ownerReferences, Encoded(obj.ownerReferences));
    r := Put(r, m.managedFields, if obj.managedFields.Some? then Encoded(obj.managedFields.value) else NULL);
  }

  lemma MetadataNamed(m: Mapping)
    ensures forall c :: c in {m.uid, m.resourceVersion, m.finalizers, m.ownerReferences} && c != "" ==>
              c in ColumnNames(m)
    ensures forall c :: c in {m.managedFields, m.labelsFrom, m.annotationsFrom, m.namespace} && c != "" ==>
              c in ColumnNames(m)
  {
  }

  /** What a label or annotation is bound to; one the object does not carry is NULL. */
  function KeyValue(values: map<string, string>, key: string): Bound {
    if key in values then Plain(Text(values[key])) else NULL
  }

  /** `value` is that of a key whose column is `column`. */
  ghost predicate FromKey(byKey: map<string, string>, values: map<string, string>, column: string, value: Bound) {
    exists k :: k in byKey && byKey[k] == column && value == KeyValue(values, k)
  }

  /** `more` binds one of the keys of each of their columns, and the rest as it was. */
  ghost predicate BoundByKeys(byKey: map<string, string>, values: map<string, string>, args: Args, more: Args) {
    && more.Keys == args.Keys + byKey.Values
    && (forall c :: c in args && c !in byKey.Values ==> more[c] == args[c])
    && (forall c :: c in byKey.Values ==> FromKey(byKey, values, c, more[c]))
  }

  /** Labels or annotations with columns of their own. */
  method BindKeys(byKey: map<string, string>, values: map<string, string>, args: Args) returns (r: Args)
    ensures BoundByKeys(byKey, values, args, r)
  {
    hide FromKey, KeyValue;
    r := args;
    var keys := byKey.Keys;
    while keys != {}
      invariant keys <= byKey.Keys && args.Keys <= r.Keys <= args.Keys + byKey.Values
      invariant forall c :: c in args && c !in byKey.Values ==> r[c] == args[c]
      invariant forall k :: k in byKey && k !in keys ==> byKey[k] in r && FromKey(byKey, values, byKey[k], r[byKey[k]])
      decreases |keys|
    {
      var k :| k in keys;
      assert FromKey(byKey, values, byKey[k], KeyValue(values, k)) by { OfKey(byKey, values, k); }
      r := r[byKey[k] := KeyValue(values, k)];
      keys := keys - {k};
    }
  }

  lemma OfKey(byKey: map<string, string>, values: map<string, string>, k: string)
    requires k in byKey
    ensures FromKey(byKey, values, byKey[k], KeyValue(values, k))
  {
  }

  /** `encodeStringMap`: the entries without a column of their own, and NULL when there are none. */
  function Remaining(all: map<string, string>, owned: map<string, string>): (r: Bound)
    ensures r == NULL <==> all.Keys <= owned.Keys
  {
    var rest := map k | k in all && k !in owned :: Json.Scalar(Str(all[k]));
    assert forall k :: k in all && k !in owned ==> k in rest.Keys;
    if rest.Keys == {} then NULL else Encoded(Object(rest))
  }

  /** The columns of the name, and last of all the namespace. */
  method BindIdentity(m: Mapper, identity: map<string, string>, obj: ApiObject, args: Args) returns (r: Args)
    ensures r.Keys == args.Keys + identity.Keys + if m.namespaced then {m.mapping.namespace} else {}
    ensures forall c :: c in identity && !(m.namespaced && c == m.mapping.namespace) ==>
              r[c] == Plain(Text(identity[c]))
    ensures m.namespaced ==> r[m.mapping.namespace] == Plain(Text(obj.namespace))
    ensures forall c :: c in args && c !in identity && !(m.namespaced && c == m.mapping.namespace) ==> r[c] == args[c]
  {
    r := args + map c | c in identity :: Plain(Text(identity[c]));
    if m.namespaced { r := r[m.mapping.namespace := Plain(Text(obj.namespace))]; }
  }

  /** The keys are the names of the object and the mapped columns. */
  ghost predicate Keyed(mapping: Mapping, args: Args) {
    {"name", "namespace"} + ColumnNames(mapping) <= args.Keys <= {"name", "namespace", ""} + ColumnNames(mapping)
  }

  lemma StillKeyed(mapping: Mapping, args: Args, more: Args)
    requires Keyed(mapping, args) && Within(mapping, args, more)
    ensures Keyed(mapping, more)
  {
  }

  lemma PutKeyed(mapping: Mapping, args: Args, column: string, value: Bound)
    requires Keyed(mapping, args) && (column != "" ==> column in ColumnNames(mapping))
    ensures Keyed(mapping, Put(args, column, value))
  {
  }

  /** What a column is bound to before the fields: by the last of the stages that has it. */
  ghost predicate EarlyValue(m: Mapping, obj: ApiObject, c: string, value: Bound) {
    if c != "" && c == m.annotationsFrom then value == Remaining(obj.annotations, m.annotations)
    else if c != "" && c == m.labelsFrom then value == Remaining(obj.labels, m.labels)
    else if c in m.annotations.Values then FromKey(m.annotations, obj.annotations, c, value)
    else if c in m.labels.Values then FromKey(m.labels, obj.labels, c, value)
    else value == MetadataValue(m, obj, c, SeedValue(m, obj, c))
  }

  /** Everything that is bound before the fields. */
  method BindBeforeFields(mapping: Mapping, obj: ApiObject) returns (args: Args)
    ensures Keyed(mapping, args) && forall c :: c in args ==> EarlyValue(mapping, obj, c, args[c])
  {
    hide ColumnNames, FromKey, Remaining, Put, EarlyValue, SeedValue, MetadataValue;
    KeysNamed(mapping);
    MetadataNamed(mapping);
    var seeded := Seed(mapping, obj);
    var metadata := BindMetadata(mapping, obj, seeded);
    var labels := BindKeys(mapping.labels, obj.labels, metadata);
    StillKeyed(mapping, metadata, labels);
    var annotations := BindKeys(mapping.annotations, obj.annotations, labels);
    StillKeyed(mapping, labels, annotations);
    var rest := Remaining(obj.labels, mapping.labels);
    PutKeyed(mapping, annotations, mapping.labelsFrom, rest);
    var more := Put(annotations, mapping.labelsFrom, rest);
    var last := Remaining(obj.annotations, mapping.annotations);
    PutKeyed(mapping, more, mapping.annotationsFrom, last);
    args := Put(more, mapping.annotationsFrom, last);
    forall c | c in args ensures EarlyValue(mapping, obj, c, args[c]) {
      StagesOf(mapping, obj, seeded, metadata, labels, annotations, c);
    }
  }

  /** The stages one after the other, seen from one column. */
  lemma StagesOf(m: Mapping, obj: ApiObject, seeded: Args, metadata: Args, labels: Args, annotations: Args, c: string)
    requires seeded.Keys == {"name", "namespace"} + ColumnNames(m) && metadata.Keys == seeded.Keys
    requires forall d :: d in seeded ==> seeded[d] == SeedValue(m, obj, d)
    requires forall d :: d in seeded ==> metadata[d] == MetadataValue(m, obj, d, seeded[d])
    requires BoundByKeys(m.labels, obj.labels, metadata, labels)
    requires BoundByKeys(m.annotations, obj.annotations, labels, annotations)
    requires var args := Put(Put(annotations, m.labelsFrom, Remaining(obj.labels, m.labels)), m.annotationsFrom,
                             Remaining(obj.annotations, m.annotations)); c in args
    ensures var args := Put(Put(annotations, m.labelsFrom, Remaining(obj.labels, m.labels)), m.annotationsFrom,
                            Remaining(obj.annotations, m.annotations)); EarlyValue(m, obj, c, args[c])
  {
    hide ColumnNames, FromKey, Remaining, SeedValue, MetadataValue;
  }

  /** The name and the namespace of the object are what their columns are bound to. */
  ghost predicate ChoosesRow(m: Mapper, obj: ApiObject, args: Args) {
    && (m.namespaced ==> m.mapping.namespace in args && args[m.mapping.namespace] == Plain(Text(obj.namespace)))
    && exists identity: map<string, string> ::
         && TakesLast(m.naming.columns, PartsOf(m.naming, obj.name), identity)
         && identity.Keys == (set c | c in m.naming.columns)
         && BoundTo(m, identity, args)
  }

  ghost predicate BoundTo(m: Mapper, identity: map<string, string>, args: Args) {
    forall c :: c in identity && !(m.namespaced && c == m.mapping.namespace) ==>
      c in args && args[c] == Plain(Text(identity[c]))
  }

  /** What a column is bound to: the namespace, a part of the name, its last field, or what an earlier stage bound. */
  ghost predicate ValueRight(m: Mapper, obj: ApiObject, c: string, value: Bound) {
    if m.namespaced && c == m.mapping.namespace then value == Plain(Text(obj.namespace))
    else if c in m.naming.columns then value.Plain? && value.cell.Text?
    else if HasField(m.mapping.fields, c) then FromLastField(m.mapping.fields, obj.content, c, value)
    else EarlyValue(m.mapping, obj, c, value)
  }

  ghost predicate HasField(fields: seq<Field>, c: string) {
    exists i :: 0 <= i < |fields| && fields[i].column == c
  }

  ghost predicate FromLastField(fields: seq<Field>, content: Json, c: string, value: Bound) {
    exists i :: 0 <= i < |fields| && fields[i].column == c && LastWithColumn(fields, i)
      && Binding(fields[i], content) == Some(value)
  }

  lemma {:induction false} LastField(fields: seq<Field>, i: nat) returns (k: nat)
    requires i < |fields|
    ensures i <= k < |fields| && fields[k].column == fields[i].column && LastWithColumn(fields, k)
    decreases |fields| - i
  {
    if j :| i < j < |fields| && fields[j].column == fields[i].column {
      k := LastField(fields, j);
    } else {
      k := i;
    }
  }

  /** Every field that is not part of the identity, and is the last with its column, is bound to what is at its path. */
  ghost predicate FieldsBound(m: Mapper, obj: ApiObject, args: Args) {
    forall i :: 0 <= i < |m.mapping.fields| && LastWithColumn(m.mapping.fields, i) ==>
      var field := m.mapping.fields[i];
      field.column !in m.naming.columns && !(m.namespaced && field.column == m.mapping.namespace) ==>
        && field.column in args && Binding(field, obj.content).Some?
        && args[field.column] == Binding(field, obj.content).value
  }

  /**
   `Params`: refused when the name does not split or a field does not bind. Every mapped column is a key and no
   other name is; each has the value of the last stage that binds it, and whatever else is mapped the name and the
   namespace choose the row.
   */
  method Params(m: Mapper, obj: ApiObject) returns (r: Option<Args>)
    requires Checked(m)
    ensures r.Some? <==>
      && Splits(m.naming, obj.name)
      && forall i :: 0 <= i < |m.mapping.fields| ==> Binding(m.mapping.fields[i], obj.content).Some?
    ensures r.Some? ==> {"name", "namespace"} + ColumnNames(m.mapping) <= r.value.Keys
    ensures r.Some? ==> r.value.Keys <= {"name", "namespace", ""} + ColumnNames(m.mapping)
    ensures r.Some? ==> ChoosesRow(m, obj, r.value) && FieldsBound(m, obj, r.value)
    ensures r.Some? ==> forall c :: c in r.value ==> ValueRight(m, obj, c, r.value[c])
  {
    hide ColumnNames, Splits, TakesLast, PartsOf, Binding, IsReserved, LastWithColumn, EarlyValue, ValueRight,
         FieldsBound, BoundTo;
    ColumnsNamed(m);
    var args := BindBeforeFields(m.mapping, obj);
    var identity := SplitName(m.naming, obj.name);
    if identity.None? { return None; }
    var bound := FieldParams(m.mapping.fields, obj.content, args);
    if bound.None? { return None; }
    var all := BindIdentity(m, identity.value, obj, bound.value);
    AllRight(m, obj, identity.value, args, bound.value, all);
    return Some(all);
  }

  /** Fields over what was bound before them, and the identity over those. */
  lemma AllRight(m: Mapper, obj: ApiObject, identity: map<string, string>, args: Args, bound: Args, all: Args)
    requires identity.Keys == (set c | c in m.naming.columns)
    requires forall c :: c in args ==> EarlyValue(m.mapping, obj, c, args[c])
    requires AllBind(m.mapping.fields, obj.content)
    requires bound.Keys == args.Keys + set i | 0 <= i < |m.mapping.fields| :: m.mapping.fields[i].column
    requires forall c :: c in args && (forall i :: 0 <= i < |m.mapping.fields| ==> m.mapping.fields[i].column != c) ==>
              bound[c] == args[c]
    requires forall i :: 0 <= i < |m.mapping.fields| && LastWithColumn(m.mapping.fields, i) ==>
               bound[m.mapping.fields[i].column] == Binding(m.mapping.fields[i], obj.content).value
    requires all.Keys == bound.Keys + identity.Keys + if m.namespaced then {m.mapping.namespace} else {}
    requires forall c :: c in identity && !(m.namespaced && c == m.mapping.namespace) ==>
              all[c] == Plain(Text(identity[c]))
    requires m.namespaced ==> all[m.mapping.namespace] == Plain(Text(obj.namespace))
    requires forall c :: c in bound && c !in identity && !(m.namespaced && c == m.mapping.namespace) ==>
              all[c] == bound[c]
    ensures BoundTo(m, identity, all) && FieldsBound(m, obj, all)
    ensures forall c :: c in all ==> ValueRight(m, obj, c, all[c])
  {
    hide Binding, LastWithColumn, EarlyValue;
    var fields := m.mapping.fields;
    forall c | c in all ensures ValueRight(m, obj, c, all[c]) {
      if !(m.namespaced && c == m.mapping.namespace) && c !in m.naming.columns && HasField(fields, c) {
        var i :| 0 <= i < |fields| && fields[i].column == c;
        var k := LastField(fields, i);
        assert Binding(fields[k], obj.content) == Some(all[c]);
      }
    }
  }

  // Reading a row and writing it back.

  /** A row that has a name, and a namespace where there are namespaces, that Kubernetes accepts. */
  ghost predicate Identified(m: Mapper, row: Row) {
    && Nameable(m.naming, row) && IsSubdomain(Join(CompositeNames.Identity(m.naming, row), m.naming.separator))
    && (m.namespaced ==>
          var ns := StringAt(row, m.mapping.namespace); ns.Some? && IsLabel(ns.value) && |ns.value| <= MAX_LABEL)
  }

  /** The identity of the object a row becomes. */
  method IdentityFrom(m: Mapper, row: Row) returns (r: Option<(string, string)>)
    requires m.naming.columns != []
    ensures r.Some? <==> Identified(m, row)
    ensures r.Some? ==> r.value.0 == Join(CompositeNames.Identity(m.naming, row), m.naming.separator)
    ensures r.Some? && m.namespaced ==> StringAt(row, m.mapping.namespace) == Some(r.value.1)
  {
    hide Nameable, IsSubdomain, IsLabel, StringAt;
    var name := BuildName(m.naming, row);
    if name.None? { return None; }
    var valid := IsDNS1123Subdomain(name.value);
    if !valid { return None; }
    if !m.namespaced { return Some((name.value, "")); }
    var ns := StringAt(row, m.mapping.namespace);
    if ns.None? { return None; }
    var fine := IsDNS1123Label(ns.value);
    if !fine { return None; }
    return Some((name.value, ns.value));
  }

  /** Every column of the identity, and every field's own column, is bound to what the row has there. */
  ghost predicate BoundBack(m: Mapper, row: Row, args: Args) {
    && (forall c :: c in m.naming.columns && !(m.namespaced && c == m.mapping.namespace) ==>
          c in args && StringAt(row, c).Some? && args[c] == Plain(Text(StringAt(row, c).value)))
    && (m.namespaced ==>
          var c := m.mapping.namespace;
          c in args && StringAt(row, c).Some? && args[c] == Plain(Text(StringAt(row, c).value)))
  }

  ghost predicate FieldsBack(m: Mapper, row: Row, args: Args) {
    forall i :: 0 <= i < |m.mapping.fields| && LastWithColumn(m.mapping.fields, i) ==>
      var field := m.mapping.fields[i];
      field.column !in m.naming.columns && !(m.namespaced && field.column == m.mapping.namespace) ==>
        field.column in args && Expected(field, row) == Some(args[field.column])
  }

  /**
   A row that became an object, written back as it is: the name is built and split, the fields are placed and bound.
   Every column of the identity is bound to what the row has there, and, when no path leads to or through another, so
   is every field's; then only a row whose identity is not accepted, or a column that is missing or does not convert,
   is refused.
   */
  method WriteBack(m: Mapper, row: Row, meta: map<string, Json>, head: ApiObject) returns (r: Option<Args>)
    requires Checked(m) && forall i :: 0 <= i < |m.mapping.fields| ==> m.mapping.fields[i].path != []
    ensures r.Some? ==> BoundBack(m, row, r.value)
    ensures r.Some? <==>
      && Identified(m, row) && Filled(m.mapping.fields, row, meta).Some?
      && AllBind(m.mapping.fields, Object(Filled(m.mapping.fields, row, meta).value))
    ensures Apart(m.mapping.fields, meta) ==>
      (r.Some? <==>
        && Identified(m, row)
        && forall i :: 0 <= i < |m.mapping.fields| ==> Placing(m.mapping.fields[i], row).Some?)
    ensures r.Some? && Apart(m.mapping.fields, meta) ==> FieldsBack(m, row, r.value)
  {
    hide Splits, TakesLast, PartsOf, Nameable, StringAt, Binding, Expected, Placing, Filled, LastWithColumn,
         ColumnNames, ValueRight, IsSubdomain, IsLabel, Apart;
    var fields := m.mapping.fields;
    if Apart(fields, meta) {
      FieldRoundTrip(fields, row, meta);
      if forall i :: 0 <= i < |fields| ==> Placing(fields[i], row).Some? { ExpectedSome(fields, row); }
    }
    var identity := IdentityFrom(m, row);
    if identity.None? { return None; }
    var content := FieldsFrom(fields, row, meta);
    if content.None? { return None; }
    BuiltSplits(m.naming, row);
    var obj := head.(name := identity.value.0, namespace := identity.value.1, content := Object(content.value));
    r := Params(m, obj);
    if r.Some? { NameBack(m, row, obj, r.value); }
  }

  lemma ExpectedSome(fields: seq<Field>, row: Row)
    requires forall i :: 0 <= i < |fields| ==> Placing(fields[i], row).Some?
    ensures forall i :: 0 <= i < |fields| ==> Expected(fields[i], row).Some?
  {
  }

  lemma NameBack(m: Mapper, row: Row, obj: ApiObject, args: Args)
    requires m.naming.columns != [] && Nameable(m.naming, row)
    requires obj.name == Join(CompositeNames.Identity(m.naming, row), m.naming.separator)
    requires ChoosesRow(m, obj, args)
    ensures forall c :: c in m.naming.columns && !(m.namespaced && c == m.mapping.namespace) ==>
              c in args && StringAt(row, c).Some? && args[c] == Plain(Text(StringAt(row, c).value))
  {
    hide TakesLast, PartsOf, Nameable, StringAt;
    var identity: map<string, string> :|
      && TakesLast(m.naming.columns, PartsOf(m.naming, obj.name), identity)
      && identity.Keys == (set c | c in m.naming.columns) && BoundTo(m, identity, args);
    NameGivesBackRow(m.naming, row, identity);
  }

  lemma KeysNamed(mapping: Mapping)
    ensures mapping.labels.Values <= ColumnNames(mapping) + {""}
    ensures mapping.annotations.Values <= ColumnNames(mapping) + {""}
  {
  }

  lemma ColumnsNamed(m: Mapper)
    requires Checked(m)
    ensures forall c :: c in m.naming.columns ==> c in ColumnNames(m.mapping)
    ensures forall i :: 0 <= i < |m.mapping.fields| ==> m.mapping.fields[i].column in ColumnNames(m.mapping)
    ensures m.namespaced ==> m.mapping.namespace in ColumnNames(m.mapping)
  {
  }
}
