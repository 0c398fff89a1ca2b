/** Fields whose paths lead to or through one another, and so the exact condition of the round trip. */
module FieldConflicts {
  import opened Decimals
  import opened Fields
  import opened Nested
  import opened Results
  import opened Values

  /** A value that is no object stands at `path`. */
  ghost predicate Stands(obj: map<string, Json>, path: Path) {
    var read := ReadAt(Object(obj), path);
    path != [] && read.Found? && !read.value.Object?
  }

  ghost predicate ProperPrefix(p: Path, q: Path) {
    p <= q && p != q
  }

  lemma {:induction false} ReadThrough(value: Json, p: Path, q: Path)
    ensures ReadAt(value, p + q)
      == (match ReadAt(value, p) case Found(x) => ReadAt(x, q) case Absent => Absent case NotAnObject => NotAnObject)
    decreases |p|
  {
    if p == [] {
      assert p + q == q;
    } else {
      assert (p + q)[1..] == p[1..] + q;
      if value.Object? && p[0] in value.fields { ReadThrough(value.fields[p[0]], p[1..], q); }
    }
  }

  /** Nothing can be placed beyond a value that is no object. */
  lemma {:induction false} StandsInTheWay(obj: map<string, Json>, p: Path, q: Path, value: Json)
    requires Stands(obj, p) && ProperPrefix(p, q)
    ensures SetAt(obj, q, value).None?
    decreases |p|
  {
    assert q == [q[0]] + q[1..] && p == [p[0]] + p[1..] && p[0] == q[0];
    if |p| == 1 {
      assert p[1..] == [];
      assert ReadAt(Object(obj), p) == Found(obj[p[0]]);
    } else if obj[p[0]].Object? {
      assert ReadAt(Object(obj), p) == ReadAt(obj[p[0]], p[1..]);
      assert p[1..] <= q[1..];
      StandsInTheWay(obj[p[0]].fields, p[1..], q[1..], value);
    }
  }

  /** Something stands at the path or on the way to it. */
  ghost predicate Blocked(obj: map<string, Json>, path: Path) {
    exists p :: p <= path && Stands(obj, p)
  }

  /** What blocks a path is never removed by placing fields: it stays, is replaced, or a shorter path replaces it. */
  lemma StaysBlocked(obj: map<string, Json>, path: Path, q: Path, value: Json)
    requires Blocked(obj, path) && q != [] && !value.Object? && SetAt(obj, q, value).Some?
    ensures Blocked(SetAt(obj, q, value).value, path)
  {
    var after := SetAt(obj, q, value).value;
    var p :| p <= path && Stands(obj, p);
    if q <= p {
      ReadBack(obj, q, value);
      assert q <= path by { assert q == p[..|q|] && p == path[..|p|]; assert q == path[..|q|]; }
      assert Stands(after, q);
    } else if p <= q {
      StandsInTheWay(obj, p, q, value);
    } else {
      ReadElsewhere(obj, q, value, p);
      assert Stands(after, p);
    }
  }

  ghost predicate IsPlaced(field: Field, row: Row) {
    Placing(field, row).Some? && Placing(field, row).value.Placed?
  }

  ghost predicate HavePaths(fields: seq<Field>) {
    forall i :: 0 <= i < |fields| ==> fields[i].path != []
  }

  /** One more field, whatever it does, leaves a blocked path blocked. */
  lemma FieldKeepsBlock(field: Field, row: Row, obj: map<string, Json>, path: Path)
    requires Blocked(obj, path) && field.path != [] && FilledOne(field, row, obj).Some?
    ensures Blocked(FilledOne(field, row, obj).value, path)
  {
    if IsPlaced(field, row) { StaysBlocked(obj, path, field.path, Placing(field, row).value.value); }
  }

  /** Once a field is placed, its path is blocked for as long as the loop goes on. */
  lemma {:induction false} PlacedBlocks(fields: seq<Field>, row: Row, obj: map<string, Json>, i: nat, n: nat)
    requires HavePaths(fields) && i < n <= |fields| && IsPlaced(fields[i], row) && Filled(fields[..n], row, obj).Some?
    ensures Blocked(Filled(fields[..n], row, obj).value, fields[i].path)
  {
    FilledMore(fields, row, obj, n - 1);
    var before := Filled(fields[..n - 1], row, obj).value;
    if n == i + 1 {
      ReadBack(before, fields[i].path, Placing(fields[i], row).value.value);
      assert Stands(Filled(fields[..n], row, obj).value, fields[i].path);
    } else {
      PlacedBlocks(fields, row, obj, i, n - 1);
      FieldKeepsBlock(fields[n - 1], row, before, fields[i].path);
    }
  }

  /** A field that leads through an earlier one is refused, whatever stands between them in the list. */
  lemma EarlierPrefixRefuses(fields: seq<Field>, row: Row, obj: map<string, Json>, i: nat, j: nat)
    requires HavePaths(fields) && i < j < |fields| && ProperPrefix(fields[i].path, fields[j].path)
    requires IsPlaced(fields[i], row) && IsPlaced(fields[j], row)
    ensures Filled(fields, row, obj).None?
  {
    if Filled(fields[..j], row, obj).Some? {
      PlacedBlocks(fields, row, obj, i, j);
      var before := Filled(fields[..j], row, obj).value;
      var p :| p <= fields[i].path && Stands(before, p);
      assert ProperPrefix(p, fields[j].path) by {
        assert p == fields[i].path[..|p|] && fields[i].path == fields[j].path[..|fields[i].path|];
        assert p == fields[j].path[..|p|];
      }
      StandsInTheWay(before, p, fields[j].path, Placing(fields[j], row).value.value);
      FilledMore(fields, row, obj, j);
    } else {
      FailedStays(fields, row, obj, j);
    }
  }

  /** `j` is the last field placed at the path of `i` or on the way to it. */
  ghost predicate LastAt(fields: seq<Field>, row: Row, i: nat, j: nat)
    requires i < |fields| && j < |fields|
  {
    && IsPlaced(fields[j], row) && fields[j].path <= fields[i].path
    && forall k :: j < k < |fields| && IsPlaced(fields[k], row) ==> !(fields[k].path <= fields[i].path)
  }

  /** What was placed last there is what is there in the end. */
  lemma {:induction false} LastIsRead(fields: seq<Field>, row: Row, obj: map<string, Json>, i: nat, j: nat, n: nat)
    requires HavePaths(fields) && i < |fields| && j < n <= |fields| && LastAt(fields, row, i, j)
    requires Filled(fields, row, obj).Some? && Filled(fields[..n], row, obj).Some?
    ensures ReadAt(Object(Filled(fields[..n], row, obj).value), fields[j].path)
        == Found(Placing(fields[j], row).value.value)
  {
    FilledMore(fields, row, obj, n - 1);
    var before := Filled(fields[..n - 1], row, obj).value;
    if n == j + 1 {
      ReadBack(before, fields[j].path, Placing(fields[j], row).value.value);
    } else {
      LastIsRead(fields, row, obj, i, j, n - 1);
      var k := n - 1;
      if IsPlaced(fields[k], row) {
        LaterIsApart(fields, row, obj, i, j, k);
        ReadElsewhere(before, fields[k].path, Placing(fields[k], row).value.value, fields[j].path);
      }
    }
  }

  lemma LaterIsApart(fields: seq<Field>, row: Row, obj: map<string, Json>, i: nat, j: nat, k: nat)
    requires HavePaths(fields) && i < |fields| && j < k < |fields| && LastAt(fields, row, i, j)
    requires Filled(fields, row, obj).Some? && IsPlaced(fields[k], row)
    ensures Incomparable(fields[k].path, fields[j].path)
  {
    var p, q, top := fields[k].path, fields[j].path, fields[i].path;
    assert p <= q ==> p <= top;
    if ProperPrefix(q, p) { EarlierPrefixRefuses(fields, row, obj, j, k); }
  }

  /**
   What a write binds for a field whose path a later field took: that field's value at an equal path; and beyond a
   shorter one NULL when a null stands there, and otherwise nothing, so that the write is refused.
   */
  lemma LaterPrefixOverwrites(fields: seq<Field>, row: Row, obj: map<string, Json>, i: nat, j: nat)
    requires HavePaths(fields) && i < |fields| && j < |fields| && LastAt(fields, row, i, j)
    requires Filled(fields, row, obj).Some?
    ensures var value := Placing(fields[j], row).value.value;
      Binding(fields[i], Object(Filled(fields, row, obj).value)) ==
        if fields[j].path == fields[i].path then BindValue(value, fields[i].fieldType)
        else if value.Nil? then Some(Plain(Null)) else None
  {
    assert fields[..|fields|] == fields;
    LastIsRead(fields, row, obj, i, j, |fields|);
    var all, p, q := Object(Filled(fields, row, obj).value), fields[j].path, fields[i].path;
    var rest := q[|p|..];
    assert q == p + rest;
    ReadThrough(all, p, rest);
    assert p == q <==> rest == [];
  }

  // The round trip, exactly.

  ghost predicate RoundTrips(fields: seq<Field>, row: Row, obj: map<string, Json>)
    requires HavePaths(fields)
  {
    && Filled(fields, row, obj).Some?
    && forall i :: 0 <= i < |fields| ==>
         Binding(fields[i], Object(Filled(fields, row, obj).value)) == Expected(fields[i], row)
  }

  /** Every row whose columns are there and convert is bound back as it was read. */
  ghost predicate AlwaysRoundTrips(fields: seq<Field>, obj: map<string, Json>)
    requires HavePaths(fields)
  {
    forall row :: (forall i :: 0 <= i < |fields| ==> Placing(fields[i], row).Some?) ==> RoundTrips(fields, row, obj)
  }

  /** The row with 1 in the column of field `m`, and 0 in the others; both convert to every type. */
  function OneAt(fields: seq<Field>, m: nat): Row
    requires m < |fields|
  {
    map c | c in ColumnsOf(fields) :: Text(if c == fields[m].column then "1" else "0")
  }

  function ColumnsOf(fields: seq<Field>): set<string> {
    set i | 0 <= i < |fields| :: fields[i].column
  }

  function Bit(one: bool, t: FieldType): Scalar {
    match t
    case StringField => Str(if one then "1" else "0")
    case IntegerField => Num(if one then 1 else 0)
    case BooleanField => Flag(one)
  }

  lemma BitCoerces(one: bool, t: FieldType)
    ensures Coerce(Text(if one then "1" else "0"), t) == Some(Bit(one, t))
  {
    var s := if one then "1" else "0";
    assert Trim(s) == s;
    assert s[..0] == "" && Number("") == 0 && Number(s) == if one then 1 else 0;
  }

  /** A 0 of one type is not bound as the 1 of another. */
  lemma BitsDiffer(t: FieldType, u: FieldType)
    ensures BindValue(Json.Scalar(Bit(false, u)), t) != Some(Plain(CellOf(Bit(true, t))))
  {
    BitCoerces(false, t);
    if u.IntegerField? && t.StringField? {
      assert Signed(0) == "0";
    } else if u.BooleanField? && t.StringField? {
      assert |"false"| == 5;
    }
  }

  lemma OneAtPlaces(fields: seq<Field>, m: nat, i: nat)
    requires m < |fields| && i < |fields| && DistinctColumns(fields)
    ensures Placing(fields[i], OneAt(fields, m)) == Some(Placed(Json.Scalar(Bit(i == m, fields[i].fieldType))))
  {
    BitCoerces(i == m, fields[i].fieldType);
    assert fields[i].column == fields[m].column <==> i == m;
  }

  lemma {:induction false} LastPlace(fields: seq<Field>, row: Row, i: nat, j: nat) returns (k: nat)
    requires i < |fields| && j < |fields| && IsPlaced(fields[j], row) && fields[j].path <= fields[i].path
    ensures j <= k < |fields| && LastAt(fields, row, i, k)
    decreases |fields| - j
  {
    if k' :| j < k' < |fields| && IsPlaced(fields[k'], row) && fields[k'].path <= fields[i].path {
      k := LastPlace(fields, row, i, k');
    } else {
      k := j;
    }
  }

  /** Of two fields one of whose paths leads to or through the other's, one is lost in some row. */
  lemma ComparableBreaks(fields: seq<Field>, obj: map<string, Json>, a: nat, b: nat)
    requires HavePaths(fields) && DistinctColumns(fields) && a < b < |fields|
    requires !Incomparable(fields[a].path, fields[b].path)
    ensures !RoundTrips(fields, OneAt(fields, a), obj)
  {
    var row := OneAt(fields, a);
    forall i | 0 <= i < |fields|
      ensures IsPlaced(fields[i], row)
      ensures Placing(fields[i], row).value.value == Json.Scalar(Bit(i == a, fields[i].fieldType))
    {
      OneAtPlaces(fields, a, i);
    }
    if ProperPrefix(fields[a].path, fields[b].path) {
      EarlierPrefixRefuses(fields, row, obj, a, b);
    } else if Filled(fields, row, obj).Some? {
      var j := LastPlace(fields, row, a, b);
      LaterPrefixOverwrites(fields, row, obj, a, j);
      BitsDiffer(fields[a].fieldType, fields[j].fieldType);
      assert Expected(fields[a], row) == Some(Plain(CellOf(Bit(true, fields[a].fieldType))));
    }
  }

  /** With distinct columns, the round trip holds for every row exactly when no path leads to or through another. */
  lemma RoundTripExactly(fields: seq<Field>, obj: map<string, Json>)
    requires HavePaths(fields) && DistinctColumns(fields)
    requires forall i :: 0 <= i < |fields| ==> fields[i].path[0] !in obj
    ensures AlwaysRoundTrips(fields, obj) <==>
      forall i, j :: 0 <= i < j < |fields| ==> Incomparable(fields[i].path, fields[j].path)
  {
    hide Filled, Binding, Expected, Placing;
    if a, b :| 0 <= a < b < |fields| && !Incomparable(fields[a].path, fields[b].path) {
      ComparableBreaks(fields, obj, a, b);
      forall i | 0 <= i < |fields| ensures Placing(fields[i], OneAt(fields, a)).Some? {
        OneAtPlaces(fields, a, i);
      }
    } else {
      forall row | forall i :: 0 <= i < |fields| ==> Placing(fields[i], row).Some?
        ensures RoundTrips(fields, row, obj)
      {
        FieldRoundTrip(fields, row, obj);
      }
    }
  }
}
