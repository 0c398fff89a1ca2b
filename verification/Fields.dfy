/** Columns mapped to fields: from a row into an object, and from an object back to bound values. */
module Fields {
  import opened Nested
  import opened Results
  import opened Values

  datatype Field = Field(column: string, path: Path, fieldType: FieldType, omitEmpty: bool)

  /** What a row's column puts into a field: nothing, a null, or the coerced value. */
  datatype Placed = Omitted | Placed(value: Json)

  function Placing(field: Field, row: Row): Option<Placed> {
    if field.column !in row then None
    else if row[field.column].Null? then Some(if field.omitEmpty then Omitted else Placed(Nil))
    else match Coerce(row[field.column], field.fieldType)
      case Some(value) => Some(Placed(Scalar(value)))
      case None => None
  }

  /** The field loop of `RowFrom`, from an object that has its metadata. */
  method FieldsFrom(fields: seq<Field>, row: Row, obj: map<string, Json>) returns (r: Option<map<string, Json>>)
    requires forall i :: 0 <= i < |fields| ==> fields[i].path != []
    ensures r == Filled(fields, row, obj)
  {
    var filled := obj;
    for i := 0 to |fields|
      invariant Filled(fields[..i], row, obj) == Some(filled)
    {
      var field := fields[i];
      FilledMore(fields, row, obj, i);
      if field.column !in row { return None; }
      var raw := row[field.column];
      if raw.Null? && field.omitEmpty { continue; }
      var value := Nil;
      if !raw.Null? {
        var coerced := Coerce(raw, field.fieldType);
        if coerced.None? { return None; }
        value := Scalar(coerced.value);
      }
      var after := SetAt(filled, field.path, value);
      if after.None? { return None; }
      filled := after.value;
    }
    assert fields[..|fields|] == fields;
    return Some(filled);
  }

  ghost function Filled(fields: seq<Field>, row: Row, obj: map<string, Json>): Option<map<string, Json>>
    requires forall i :: 0 <= i < |fields| ==> fields[i].path != []
  {
    if fields == [] then Some(obj)
    else
      var k := |fields| - 1;
      match Filled(fields[..k], row, obj)
      case None => None
      case Some(before) => FilledOne(fields[k], row, before)
  }

  ghost function FilledOne(field: Field, row: Row, obj: map<string, Json>): Option<map<string, Json>>
    requires field.path != []
  {
    match Placing(field, row)
    case None => None
    case Some(Omitted) => Some(obj)
    case Some(Placed(value)) => SetAt(obj, field.path, value)
  }

  /** One more field; once the loop has failed it has failed for all of them. */
  lemma FilledMore(fields: seq<Field>, row: Row, obj: map<string, Json>, i: nat)
    requires (forall j :: 0 <= j < |fields| ==> fields[j].path != []) && i < |fields|
    ensures Filled(fields[..i + 1], row, obj)
      == (match Filled(fields[..i], row, obj) case None => None case Some(before) => FilledOne(fields[i], row, before))
    ensures Filled(fields[..i + 1], row, obj).None? ==> Filled(fields, row, obj).None?
  {
    assert fields[..i + 1][..i] == fields[..i];
    if Filled(fields[..i + 1], row, obj).None? { FailedStays(fields, row, obj, i + 1); }
  }

  lemma {:induction false} FailedStays(fields: seq<Field>, row: Row, obj: map<string, Json>, i: nat)
    requires (forall j :: 0 <= j < |fields| ==> fields[j].path != []) && i <= |fields|
    requires Filled(fields[..i], row, obj).None?
    ensures Filled(fields, row, obj).None?
  {
    if i == |fields| {
      assert fields[..i] == fields;
    } else {
      var k := |fields| - 1;
      assert fields[..k][..i] == fields[..i];
      FailedStays(fields[..k], row, obj, i);
    }
  }

  // Binding.

  /** A bound value; a structure is bound as its JSON text. */
  datatype Bound = Plain(cell: Cell) | Encoded(value: Json)

  /** `bindValue`. */
  function BindValue(value: Json, t: FieldType): Option<Bound> {
    match value
    case Nil => Some(Plain(Null))
    case Scalar(scalar) =>
      (match Coerce(CellOf(scalar), t)
       case Some(bound) => Some(Plain(CellOf(bound)))
       case None => None)
    case _ => if t.StringField? then Some(Encoded(value)) else None
  }

  /** What a field of an object is bound to. */
  function Binding(field: Field, obj: Json): Option<Bound> {
    match ReadAt(obj, field.path)
    case NotAnObject => None
    case Absent => Some(Plain(Null))
    case Found(value) => BindValue(value, field.fieldType)
  }

  /** The field loop of `Params`, adding to the arguments bound before it. */
  method FieldParams(fields: seq<Field>, obj: Json, args: map<string, Bound>) returns (r: Option<map<string, Bound>>)
    ensures r.Some? <==> forall i :: 0 <= i < |fields| ==> Binding(fields[i], obj).Some?
    ensures r.Some? ==> r.value.Keys == args.Keys + set i | 0 <= i < |fields| :: fields[i].column
    ensures r.Some? ==> forall c :: c in args && (forall i :: 0 <= i < |fields| ==> fields[i].column != c) ==>
              r.value[c] == args[c]
    ensures r.Some? ==> forall i :: 0 <= i < |fields| && LastWithColumn(fields, i) ==>
              r.value[fields[i].column] == Binding(fields[i], obj).value
  {
    hide Binding, WithFields, LastWithColumn;
    var bound := args;
    NoFields(obj, args);
    for i := 0 to |fields|
      invariant AllBind(fields[..i], obj) && bound == WithFields(fields[..i], obj, args)
    {
      var value := BindOne(fields[i], obj);
      if value.None? {
        assert Binding(fields[i], obj).None?;
        return None;
      }
      OneFieldMore(fields, obj, args, i);
      bound := bound[fields[i].column := value.value];
    }
    assert fields[..|fields|] == fields;
    FieldsAdded(fields, obj, args);
    return Some(bound);
  }

  lemma NoFields(obj: Json, args: map<string, Bound>)
    ensures AllBind([], obj) && WithFields([], obj, args) == args
  {
  }

  lemma OneFieldMore(fields: seq<Field>, obj: Json, args: map<string, Bound>, i: nat)
    requires i < |fields| && AllBind(fields[..i], obj) && Binding(fields[i], obj).Some?
    ensures AllBind(fields[..i + 1], obj)
    ensures WithFields(fields[..i + 1], obj, args)
      == WithFields(fields[..i], obj, args)[fields[i].column := Binding(fields[i], obj).value]
  {
    hide Binding;
    assert fields[..i + 1][..i] == fields[..i];
    assert fields[..i + 1] == fields[..i] + [fields[i]];
  }

  /** No later field has the column of field `i`. */
  ghost predicate LastWithColumn(fields: seq<Field>, i: nat)
    requires i < |fields|
  {
    forall j :: i < j < |fields| ==> fields[j].column != fields[i].column
  }

  ghost predicate AllBind(fields: seq<Field>, obj: Json) {
    forall i :: 0 <= i < |fields| ==> Binding(fields[i], obj).Some?
  }

  /** The arguments with those of the fields added in order, so that a column takes its last field's value. */
  ghost function WithFields(fields: seq<Field>, obj: Json, args: map<string, Bound>): map<string, Bound>
    requires AllBind(fields, obj)
  {
    if fields == [] then args
    else
      var k := |fields| - 1;
      WithFields(fields[..k], obj, args)[fields[k].column := Binding(fields[k], obj).value]
  }

  lemma FieldsAdded(fields: seq<Field>, obj: Json, args: map<string, Bound>)
    requires AllBind(fields, obj)
    ensures var all := WithFields(fields, obj, args);
      && all.Keys == args.Keys + (set i | 0 <= i < |fields| :: fields[i].column)
      && (forall c :: c in args && (forall i :: 0 <= i < |fields| ==> fields[i].column != c) ==> all[c] == args[c])
      && (forall i :: 0 <= i < |fields| && LastWithColumn(fields, i) ==>
            all[fields[i].column] == Binding(fields[i], obj).value)
  {
    hide Binding, WithFields, LastWithColumn;
    var all := WithFields(fields, obj, args);
    forall c
      ensures c in all <==> c in args || exists i :: 0 <= i < |fields| && fields[i].column == c
      ensures c in args && (forall i :: 0 <= i < |fields| ==> fields[i].column != c) ==> all[c] == args[c]
    {
      AddedColumn(fields, obj, args, c);
    }
    forall i | 0 <= i < |fields| && LastWithColumn(fields, i)
      ensures fields[i].column in WithFields(fields, obj, args)
      ensures WithFields(fields, obj, args)[fields[i].column] == Binding(fields[i], obj).value
    {
      AddedField(fields, obj, args, i);
    }
  }

  /** A column is there if it was or a field has it, and is as it was if no field has it. */
  ghost predicate Added(fields: seq<Field>, obj: Json, args: map<string, Bound>, c: string)
    requires AllBind(fields, obj)
  {
    var all := WithFields(fields, obj, args);
    && (c in all <==> c in args || exists i :: 0 <= i < |fields| && fields[i].column == c)
    && (c in args && (forall i :: 0 <= i < |fields| ==> fields[i].column != c) ==> all[c] == args[c])
  }

  lemma {:induction false} AddedColumn(fields: seq<Field>, obj: Json, args: map<string, Bound>, c: string)
    requires AllBind(fields, obj)
    ensures Added(fields, obj, args, c)
  {
    hide Binding;
    if fields != [] {
      var k := |fields| - 1;
      AddedColumn(fields[..k], obj, args, c);
      assert fields == fields[..k] + [fields[k]];
    }
  }

  lemma {:induction false} AddedField(fields: seq<Field>, obj: Json, args: map<string, Bound>, i: nat)
    requires AllBind(fields, obj) && i < |fields| && LastWithColumn(fields, i)
    ensures fields[i].column in WithFields(fields, obj, args)
    ensures WithFields(fields, obj, args)[fields[i].column] == Binding(fields[i], obj).value
  {
    hide Binding;
    var k := |fields| - 1;
    if i < k {
      assert forall j :: 0 <= j < k ==> fields[..k][j] == fields[j];
      AddedField(fields[..k], obj, args, i);
    }
  }

  method BindOne(field: Field, obj: Json) returns (r: Option<Bound>)
    ensures r == Binding(field, obj)
  {
    var read := ReadPath(obj, field.path);
    if read.NotAnObject? { return None; }
    if read.Absent? || read.value.Nil? { return Some(Plain(Null)); }
    return BindValue(read.value, field.fieldType);
  }

  ghost predicate DistinctColumns(fields: seq<Field>) {
    forall i, j :: 0 <= i < j < |fields| ==> fields[i].column != fields[j].column
  }

  // The round trip.

  /** Paths that do not lead through one another, and start outside what the object already has. */
  ghost predicate Apart(fields: seq<Field>, obj: map<string, Json>) {
    && (forall i :: 0 <= i < |fields| ==> fields[i].path != [] && fields[i].path[0] !in obj)
    && (forall i, j :: 0 <= i < |fields| && 0 <= j < |fields| && i != j ==>
          Incomparable(fields[i].path, fields[j].path))
  }

  /** What a path reads after `placed` has been put there. */
  function ReadOf(placed: Placed): Read {
    match placed
    case Omitted => Absent
    case Placed(value) => Found(value)
  }

  /** After `n` fields, those read what was placed in them and the others are untouched and can be set. */
  ghost predicate FilledRightly(fields: seq<Field>, row: Row, n: nat, obj: map<string, Json>)
    requires n <= |fields|
  {
    && (forall i :: 0 <= i < n ==>
          Placing(fields[i], row).Some? && ReadAt(Object(obj), fields[i].path) == ReadOf(Placing(fields[i], row).value))
    && (forall i :: n <= i < |fields| ==> ReadAt(Object(obj), fields[i].path) == Absent && Open(obj, fields[i].path))
  }

  /** The loop meets no path in its way: it fails only for a column that is missing or does not convert. */
  lemma {:induction false} FillSucceeds(fields: seq<Field>, row: Row, obj: map<string, Json>, n: nat)
    requires Apart(fields, obj) && n <= |fields|
    ensures Filled(fields[..n], row, obj).Some? <==> forall i :: 0 <= i < n ==> Placing(fields[i], row).Some?
    ensures Filled(fields[..n], row, obj).Some? ==> FilledRightly(fields, row, n, Filled(fields[..n], row, obj).value)
  {
    hide FilledRightly, Placing, ReadAt, SetAt;
    if n == 0 {
      FillStart(fields, row, obj);
    } else {
      FillSucceeds(fields, row, obj, n - 1);
      FilledMore(fields, row, obj, n - 1);
      if Filled(fields[..n - 1], row, obj).Some? && Placing(fields[n - 1], row).Some? {
        FillOne(fields, row, n - 1, Filled(fields[..n - 1], row, obj).value);
      }
    }
  }

  lemma FillStart(fields: seq<Field>, row: Row, obj: map<string, Json>)
    requires Apart(fields, obj)
    ensures FilledRightly(fields, row, 0, obj)
  {
  }

  lemma FillOne(fields: seq<Field>, row: Row, n: nat, obj: map<string, Json>)
    requires n < |fields| && FilledRightly(fields, row, n, obj) && Placing(fields[n], row).Some?
    requires forall i :: 0 <= i < |fields| && i != n ==> Incomparable(fields[n].path, fields[i].path)
    requires fields[n].path != []
    ensures FilledOne(fields[n], row, obj).Some?
    ensures FilledRightly(fields, row, n + 1, FilledOne(fields[n], row, obj).value)
  {
    var path := fields[n].path;
    match Placing(fields[n], row).value
    case Omitted =>
    case Placed(value) =>
      SetWhenOpen(obj, path, value);
      ReadBack(obj, path, value);
      forall i | 0 <= i < |fields| && i != n
        ensures ReadAt(Object(SetAt(obj, path, value).value), fields[i].path) == ReadAt(Object(obj), fields[i].path)
        ensures Open(obj, fields[i].path) ==> Open(SetAt(obj, path, value).value, fields[i].path)
      {
        ReadElsewhere(obj, path, value, fields[i].path);
      }
  }

  /** What the write binds for a column of the row: its coerced value, and NULL for NULL however it was mapped. */
  function Expected(field: Field, row: Row): Option<Bound> {
    match Placing(field, row)
    case None => None
    case Some(Omitted) => Some(Plain(Null))
    case Some(Placed(Nil)) => Some(Plain(Null))
    case Some(Placed(Scalar(value))) => Some(Plain(CellOf(value)))
    case _ => None
  }

  /** Read from a row and written back, every column is bound to the value it was read as. */
  lemma FieldRoundTrip(fields: seq<Field>, row: Row, obj: map<string, Json>)
    requires Apart(fields, obj)
    ensures Filled(fields, row, obj).Some? <==> forall i :: 0 <= i < |fields| ==> Placing(fields[i], row).Some?
    ensures Filled(fields, row, obj).Some? ==> forall i :: 0 <= i < |fields| ==>
      Binding(fields[i], Object(Filled(fields, row, obj).value)) == Expected(fields[i], row)
  {
    assert fields[..|fields|] == fields;
    FillSucceeds(fields, row, obj, |fields|);
    if Filled(fields, row, obj).Some? {
      forall i | 0 <= i < |fields|
        ensures Binding(fields[i], Object(Filled(fields, row, obj).value)) == Expected(fields[i], row)
      {
        if fields[i].column in row && !row[fields[i].column].Null? {
          CoerceIdempotent(row[fields[i].column], fields[i].fieldType);
        }
      }
    }
  }
}
