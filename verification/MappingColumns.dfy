/** A projection's mapping, the columns it reads, and the names the server keeps for itself. */
module MappingColumns {
  import opened Fields
  import opened Results

  datatype Mapping = Mapping(
    name: string, nameColumns: seq<string>, namespace: string, uid: string,
    resourceVersion: string, creationTimestamp: string, deletionTimestamp: string, generation: string,
    finalizers: string, ownerReferences: string, managedFields: string, labelsFrom: string, annotationsFrom: string,
    labels: map<string, string>, annotations: map<string, string>, fields: seq<Field>)

  datatype Use = Identity | Metadata | Label | Annotation | FieldUse {
    function Rank(): nat {
      match this
      case Identity => 0
      case Metadata => 1
      case Label => 2
      case Annotation => 3
      case FieldUse => 4
    }
  }

  datatype MappedColumn = MappedColumn(column: string, usedFor: Use)

  function IdentityColumns(m: Mapping): seq<string> {
    [m.name] + m.nameColumns + [m.namespace, m.uid]
  }

  function MetadataColumns(m: Mapping): seq<string> {
    [m.resourceVersion, m.creationTimestamp, m.deletionTimestamp, m.generation, m.finalizers, m.ownerReferences,
     m.managedFields, m.labelsFrom, m.annotationsFrom]
  }

  /** A mapping reads `column` for `use`. */
  ghost predicate Reads(m: Mapping, column: string, use: Use) {
    && column != ""
    && match use
       case Identity => column in IdentityColumns(m)
       case Metadata => column in MetadataColumns(m)
       case Label => column in m.labels.Values
       case Annotation => column in m.annotations.Values
       case FieldUse => exists i :: 0 <= i < |m.fields| && m.fields[i].column == column
  }

  ghost function ColumnNames(m: Mapping): set<string> {
    (set c | c in IdentityColumns(m) && c != "") + (set c | c in MetadataColumns(m) && c != "")
    + (set c | c in m.labels.Values && c != "") + (set c | c in m.annotations.Values && c != "")
    + set i | 0 <= i < |m.fields| && m.fields[i].column != "" :: m.fields[i].column
  }

  lemma NamesAreRead(m: Mapping, column: string)
    ensures column in ColumnNames(m) <==> exists use :: Reads(m, column, use)
  {
    assert Reads(m, column, Identity) <==> column != "" && column in IdentityColumns(m);
    assert Reads(m, column, Metadata) <==> column != "" && column in MetadataColumns(m);
    assert Reads(m, column, Label) <==> column != "" && column in m.labels.Values;
    assert Reads(m, column, Annotation) <==> column != "" && column in m.annotations.Values;
    assert Reads(m, column, FieldUse) <==>
        column != "" && exists i :: 0 <= i < |m.fields| && m.fields[i].column == column;
  }

  /** Every place of a mapping that can name a column does. */
  lemma ColumnsInWords(m: Mapping, c: string)
    ensures c in ColumnNames(m) <==>
      && c != ""
      && (|| c == m.name || c in m.nameColumns || c == m.namespace || c == m.uid || c == m.resourceVersion
          || c == m.creationTimestamp || c == m.deletionTimestamp || c == m.generation || c == m.finalizers
          || c == m.ownerReferences || c == m.managedFields || c == m.labelsFrom || c == m.annotationsFrom
          || (exists k :: k in m.labels && m.labels[k] == c)
          || (exists k :: k in m.annotations && m.annotations[k] == c)
          || (exists i :: 0 <= i < |m.fields| && m.fields[i].column == c))
  {
  }

  /** Columns in the order a mapping is applied. */
  ghost predicate InOrder(columns: seq<MappedColumn>) {
    forall i, j :: 0 <= i < j < |columns| ==> columns[i].usedFor.Rank() <= columns[j].usedFor.Rank()
  }

  method AddAll(columns: seq<MappedColumn>, names: seq<string>, use: Use) returns (r: seq<MappedColumn>)
    requires InOrder(columns) && forall i :: 0 <= i < |columns| ==> columns[i].usedFor.Rank() <= use.Rank()
    ensures InOrder(r) && forall i :: 0 <= i < |r| ==> r[i].usedFor.Rank() <= use.Rank()
    ensures forall c :: c in r <==> c in columns || (c.column != "" && c.column in names && c.usedFor == use)
  {
    r := columns;
    for i := 0 to |names|
      invariant InOrder(r) && forall j :: 0 <= j < |r| ==> r[j].usedFor.Rank() <= use.Rank()
      invariant forall c :: c in r <==> c in columns || (c.column != "" && c.column in names[..i] && c.usedFor == use)
    {
      assert names[..i + 1] == names[..i] + [names[i]];
      if names[i] != "" { r := r + [MappedColumn(names[i], use)]; }
    }
    assert names[..|names|] == names;
  }

  /** The columns of a map, in whatever order it gives them. */
  method ColumnsOf(byKey: map<string, string>) returns (names: seq<string>)
    ensures forall c :: c in names <==> c in byKey.Values
  {
    names := [];
    var keys := byKey.Keys;
    while keys != {}
      invariant keys <= byKey.Keys
      invariant forall c :: c in names <==> exists k :: k in byKey && k !in keys && byKey[k] == c
      decreases |keys|
    {
      var k :| k in keys;
      names := names + [byKey[k]];
      keys := keys - {k};
    }
  }

  method FieldColumns(fields: seq<Field>) returns (names: seq<string>)
    ensures forall c :: c in names <==> exists i :: 0 <= i < |fields| && fields[i].column == c
  {
    names := [];
    for i := 0 to |fields|
      invariant |names| == i && forall j :: 0 <= j < i ==> names[j] == fields[j].column
    {
      names := names + [fields[i].column];
    }
    forall i | 0 <= i < |fields| ensures fields[i].column in names {
      assert names[i] == fields[i].column;
    }
  }

  /** `MappingColumns`: every column the mapping reads, for what it is read, identity first. */
  method Columns(m: Mapping) returns (r: seq<MappedColumn>)
    ensures InOrder(r) && forall c :: c in r <==> Reads(m, c.column, c.usedFor)
  {
    hide IdentityColumns, MetadataColumns, InOrder;
    NoColumns();
    r := AddAll([], IdentityColumns(m), Identity);
    r := AddAll(r, MetadataColumns(m), Metadata);
    var labels := ColumnsOf(m.labels);
    r := AddAll(r, labels, Label);
    var annotations := ColumnsOf(m.annotations);
    r := AddAll(r, annotations, Annotation);
    var fields := FieldColumns(m.fields);
    r := AddAll(r, fields, FieldUse);
  }

  lemma NoColumns()
    ensures InOrder([])
  {
  }

  // Reserved names.

  const SERVER_OWNED: set<string> :=
    {"user", "userUID", "userGroups", "userExtra", "limit", "offset", "after", "since", "labelSelector", "name_not",
     "resourceVersion"}

  /** Every name the server supplies on every statement. */
  const SERVER_BINDS: set<string> := SERVER_OWNED + {"name", "namespace"}

  const LABEL_BIND_PREFIX := "label_"

  predicate IsReserved(column: string) {
    column in SERVER_OWNED || LABEL_BIND_PREFIX <= column
  }

  /** `CheckMappedColumns`: accepted exactly when no mapped column has a name the server binds. */
  method CheckMappedColumns(m: Mapping) returns (r: Result<(), string>)
    ensures r.Ok? <==> forall c :: c in ColumnNames(m) ==> !IsReserved(c)
    ensures r.Err? ==> r.error in ColumnNames(m) && IsReserved(r.error)
  {
    hide Reads, ColumnNames, InOrder, IsReserved;
    var columns := Columns(m);
    for i := 0 to |columns|
      invariant forall j :: 0 <= j < i ==> !IsReserved(columns[j].column)
    {
      NamesAreRead(m, columns[i].column);
      assert columns[i] in columns;
      if IsReserved(columns[i].column) { return Err(columns[i].column); }
    }
    forall c | c in ColumnNames(m) ensures !IsReserved(c) {
      NamesAreRead(m, c);
      var use :| Reads(m, c, use);
      assert MappedColumn(c, use) in columns;
    }
    return Ok(());
  }
}
