/** Object names made of several columns, and the columns a name stands for. */
module CompositeNames {
  import opened ObjectNames
  import opened Results
  import opened Text
  import opened Values

  /** What a mapper knows about names. */
  datatype Naming = Naming(columns: seq<string>, separator: char)

  const DEFAULT_SEPARATOR := '-'

  datatype NameError = NoName | TwoNames | LongSeparator | BadSeparator | EmptyColumn

  /** The checks of `NewMapper` on names: a separator is one character that a name may contain. */
  method NewNaming(name: string, columns: seq<string>, separator: string) returns (r: Result<Naming, NameError>)
    ensures r.Ok? <==>
      && (name == "" <==> columns != []) && |separator| <= 1
      && (columns != [] ==>
            && (separator == "" || IsAlphanumeric(separator[0]) || separator[0] == '-' || separator[0] == '.')
            && "" !in columns)
    ensures r.Ok? ==> r.value.columns == (if columns == [] then [name] else columns)
    ensures r.Ok? ==> r.value.separator == if separator == "" then '-' else separator[0]
  {
    if name == "" && columns == [] { return Err(NoName); }
    if name != "" && columns != [] { return Err(TwoNames); }
    if |separator| > 1 { return Err(LongSeparator); }
    var sep := if separator == "" then DEFAULT_SEPARATOR else separator[0];
    if columns == [] { return Ok(Naming([name], sep)); }
    var valid := IsDNS1123Subdomain("a" + [sep] + "b");
    SeparatorInName(sep);
    if !valid { return Err(BadSeparator); }
    for i := 0 to |columns|
      invariant forall j :: 0 <= j < i ==> columns[j] != ""
    {
      if columns[i] == "" { return Err(EmptyColumn); }
    }
    return Ok(Naming(columns, sep));
  }

  lemma SeparatorInName(c: char)
    ensures IsSubdomain("a" + [c] + "b") <==> IsAlphanumeric(c) || c == '-' || c == '.'
  {
    var name := "a" + [c] + "b";
    SplitPlain("", "a", '.');
    SplitChar("a", c, '.');
    SplitChar("a" + [c], 'b', '.');
    assert "" + "a" == "a" && Split("", '.') == [""] && Split("a", '.') == ["a"];
    if c == '.' {
      assert Split(name, '.') == ["a", "b"] by { assert "" + "b" == "b"; }
    } else {
      assert Split(name, '.') == [name];
      assert IsLabel(name) <==> IsAlphanumeric(c) || c == '-' by { assert name[1] == c; }
      assert Split(name, '.')[0] == name;
    }
  }

  /** `requiredString`: the text of a column that is there and not NULL. */
  function StringAt(row: Row, column: string): Option<string> {
    if column !in row || row[column].Null? then None
    else match Coerce(row[column], StringField)
      case Some(value) => Some(value.s)
      case None => None
  }

  /** A value that can be one part of several. */
  predicate IsPart(part: Option<string>, separator: char) {
    part.Some? && part.value != "" && separator !in part.value
  }

  /** A row a name can be built for. */
  ghost predicate Nameable(naming: Naming, row: Row) {
    if |naming.columns| == 1 then StringAt(row, naming.columns[0]).Some?
    else forall i :: 0 <= i < |naming.columns| ==> IsPart(StringAt(row, naming.columns[i]), naming.separator)
  }

  /** The values of a row in the columns of its name. */
  ghost function Identity(naming: Naming, row: Row): (parts: seq<string>)
    requires Nameable(naming, row)
    ensures |parts| == |naming.columns|
  {
    seq(|naming.columns|, i requires 0 <= i < |naming.columns| => StringAt(row, naming.columns[i]).value)
  }

  /** `buildName`. */
  method BuildName(naming: Naming, row: Row) returns (name: Option<string>)
    requires naming.columns != []
    ensures name.Some? <==> Nameable(naming, row)
    ensures name.Some? ==> name.value == Join(Identity(naming, row), naming.separator)
  {
    var columns := naming.columns;
    if |columns| == 1 { return StringAt(row, columns[0]); }
    var parts: seq<string> := [];
    for i := 0 to |columns|
      invariant |parts| == i
      invariant forall j :: 0 <= j < i ==> IsPart(StringAt(row, columns[j]), naming.separator)
      invariant forall j :: 0 <= j < i ==> StringAt(row, columns[j]) == Some(parts[j])
    {
      var value := StringAt(row, columns[i]);
      if !IsPart(value, naming.separator) { return None; }
      parts := parts + [value.value];
    }
    assert parts == Identity(naming, row);
    return Some(Join(parts, naming.separator));
  }

  /** A name that splits into one non-empty part for each column. */
  ghost predicate Splits(naming: Naming, name: string) {
    |naming.columns| == 1
    || (var parts := Split(name, naming.separator);
        |parts| == |naming.columns| && forall i :: 0 <= i < |parts| ==> parts[i] != "")
  }

  ghost function PartsOf(naming: Naming, name: string): seq<string> {
    if |naming.columns| == 1 then [name] else Split(name, naming.separator)
  }

  /** `SplitName`: a column named twice takes the later of its parts. */
  method SplitName(naming: Naming, name: string) returns (args: Option<map<string, string>>)
    requires naming.columns != []
    ensures args.Some? <==> Splits(naming, name)
    ensures args.Some? ==> args.value.Keys == set c | c in naming.columns
    ensures args.Some? ==> TakesLast(naming.columns, PartsOf(naming, name), args.value)
  {
    var columns := naming.columns;
    if |columns| == 1 { return Some(map[columns[0] := name]); }
    var parts := Split(name, naming.separator);
    if |parts| != |columns| { return None; }
    args := Assign(columns, parts);
  }

  method Assign(columns: seq<string>, parts: seq<string>) returns (args: Option<map<string, string>>)
    requires |columns| == |parts|
    ensures args.Some? <==> forall i :: 0 <= i < |parts| ==> parts[i] != ""
    ensures args.Some? ==> args.value.Keys == (set c | c in columns) && TakesLast(columns, parts, args.value)
  {
    var found: map<string, string> := map[];
    for i := 0 to |columns|
      invariant found == Assigned(columns[..i], parts[..i])
      invariant forall j :: 0 <= j < i ==> parts[j] != ""
    {
      if parts[i] == "" { return None; }
      assert columns[..i + 1][..i] == columns[..i] && parts[..i + 1][..i] == parts[..i];
      found := found[columns[i] := parts[i]];
    }
    assert columns[..|columns|] == columns && parts[..|columns|] == parts;
    AssignedKeys(columns, parts);
    forall j | 0 <= j < |columns| && !NamedAgain(columns, j, |columns|)
      ensures columns[j] in found && found[columns[j]] == parts[j]
    {
      AssignedLast(columns, parts, j);
    }
    return Some(found);
  }

  function Assigned(columns: seq<string>, parts: seq<string>): map<string, string>
    requires |columns| == |parts|
  {
    if columns == [] then map[]
    else
      var k := |columns| - 1;
      Assigned(columns[..k], parts[..k])[columns[k] := parts[k]]
  }

  lemma {:induction false} AssignedKeys(columns: seq<string>, parts: seq<string>)
    requires |columns| == |parts|
    ensures Assigned(columns, parts).Keys == set c | c in columns
  {
    if columns != [] {
      var k := |columns| - 1;
      AssignedKeys(columns[..k], parts[..k]);
      assert columns == columns[..k] + [columns[k]];
    }
  }

  lemma {:induction false} AssignedLast(columns: seq<string>, parts: seq<string>, j: nat)
    requires |columns| == |parts| && j < |columns| && !NamedAgain(columns, j, |columns|)
    ensures columns[j] in Assigned(columns, parts) && Assigned(columns, parts)[columns[j]] == parts[j]
  {
    var k := |columns| - 1;
    if j < k {
      assert columns[k] != columns[j];
      assert forall i :: 0 <= i < k ==> columns[..k][i] == columns[i];
      AssignedLast(columns[..k], parts[..k], j);
    }
  }

  /** The column in place `j` is named again before place `n`. */
  ghost predicate NamedAgain(columns: seq<string>, j: nat, n: nat)
    requires j < n <= |columns|
  {
    exists k :: j < k < n && columns[k] == columns[j]
  }

  ghost predicate TakesLast(columns: seq<string>, parts: seq<string>, args: map<string, string>) {
    && |parts| == |columns|
    && forall j :: 0 <= j < |columns| && !NamedAgain(columns, j, |columns|) ==>
         columns[j] in args && args[columns[j]] == parts[j]
  }

  /** The last place at or after `i` that has the same column. */
  lemma {:induction false} LastPlace(columns: seq<string>, i: nat) returns (k: nat)
    requires i < |columns|
    ensures i <= k < |columns| && columns[k] == columns[i] && !NamedAgain(columns, k, |columns|)
    decreases |columns| - i
  {
    if NamedAgain(columns, i, |columns|) {
      var j :| i < j < |columns| && columns[j] == columns[i];
      k := LastPlace(columns, j);
    } else {
      k := i;
    }
  }

  // Names and rows.

  /** A built name splits into the parts it was built from. */
  lemma BuiltSplits(naming: Naming, row: Row)
    requires naming.columns != [] && Nameable(naming, row)
    ensures var name := Join(Identity(naming, row), naming.separator);
      Splits(naming, name) && PartsOf(naming, name) == Identity(naming, row)
  {
    if |naming.columns| > 1 { SplitJoin(Identity(naming, row), naming.separator); }
  }

  /** Split again, a built name gives back the row's own values, column by column. */
  lemma NameGivesBackRow(naming: Naming, row: Row, args: map<string, string>)
    requires naming.columns != [] && Nameable(naming, row)
    requires args.Keys == set c | c in naming.columns
    requires TakesLast(naming.columns, PartsOf(naming, Join(Identity(naming, row), naming.separator)), args)
    ensures forall c :: c in naming.columns ==> StringAt(row, c) == Some(args[c])
  {
    BuiltSplits(naming, row);
    forall i | 0 <= i < |naming.columns| ensures StringAt(row, naming.columns[i]) == Some(args[naming.columns[i]]) {
      var k := LastPlace(naming.columns, i);
      assert args[naming.columns[k]] == Identity(naming, row)[k];
    }
  }

  /** Two rows that share a name agree on every column of it. */
  lemma SameNameSameIdentity(naming: Naming, a: Row, b: Row)
    requires naming.columns != [] && Nameable(naming, a) && Nameable(naming, b)
    requires Join(Identity(naming, a), naming.separator) == Join(Identity(naming, b), naming.separator)
    ensures forall c :: c in naming.columns ==> StringAt(a, c) == StringAt(b, c)
  {
    BuiltSplits(naming, a);
    BuiltSplits(naming, b);
    forall i | 0 <= i < |naming.columns| ensures StringAt(a, naming.columns[i]) == StringAt(b, naming.columns[i]) {
      assert Identity(naming, a)[i] == Identity(naming, b)[i];
    }
  }

  /** The parts of a name agree wherever a column is named twice. */
  ghost predicate Agree(naming: Naming, name: string)
    requires |PartsOf(naming, name)| == |naming.columns|
  {
    forall i, j :: 0 <= i < j < |naming.columns| && naming.columns[i] == naming.columns[j] ==>
      PartsOf(naming, name)[i] == PartsOf(naming, name)[j]
  }

  function AsRow(args: map<string, string>): Row {
    map c | c in args :: Text(args[c])
  }

  /** A name that splits is rebuilt unchanged exactly when its parts agree; with distinct columns they always do. */
  lemma RebuiltUnchanged(naming: Naming, name: string, args: map<string, string>)
    requires naming.columns != [] && Splits(naming, name)
    requires args.Keys == set c | c in naming.columns
    requires TakesLast(naming.columns, PartsOf(naming, name), args)
    ensures Nameable(naming, AsRow(args))
    ensures Join(Identity(naming, AsRow(args)), naming.separator) == name <==> Agree(naming, name)
    ensures (forall i, j :: 0 <= i < j < |naming.columns| ==> naming.columns[i] != naming.columns[j]) ==>
        Agree(naming, name)
  {
    hide Split, Join, StringAt, TakesLast, NamedAgain, AsRow, Splits, Nameable;
    var columns, parts, row := naming.columns, PartsOf(naming, name), AsRow(args);
    SplitsOnePart(naming, name);
    RowNameable(naming, name, args);
    JoinSplit(name, naming.separator);
    BuiltSplits(naming, row);
    if Agree(naming, name) {
      forall i | 0 <= i < |columns| ensures Identity(naming, row)[i] == parts[i] {
        var k := LastPlace(columns, i);
        RowOfArgs(columns, parts, args, k);
      }
      assert Identity(naming, row) == parts;
    } else {
      DisagreeDiffer(naming, name, row);
    }
  }

  lemma SplitsOnePart(naming: Naming, name: string)
    requires Splits(naming, name)
    ensures |PartsOf(naming, name)| == |naming.columns|
    ensures Join([name], naming.separator) == name
  {
  }

  lemma RowNameable(naming: Naming, name: string, args: map<string, string>)
    requires naming.columns != [] && Splits(naming, name)
    requires TakesLast(naming.columns, PartsOf(naming, name), args)
    ensures Nameable(naming, AsRow(args))
  {
    hide Split, StringAt, TakesLast, NamedAgain, AsRow;
    var columns, parts, row := naming.columns, PartsOf(naming, name), AsRow(args);
    SplitPieces(name, naming.separator);
    forall i | 0 <= i < |columns|
      ensures StringAt(row, columns[i]).Some?
      ensures exists k :: 0 <= k < |parts| && StringAt(row, columns[i]).value == parts[k]
    {
      var k := LastPlace(columns, i);
      RowOfArgs(columns, parts, args, k);
      assert StringAt(row, columns[i]).value == parts[k];
    }
  }

  lemma RowOfArgs(columns: seq<string>, parts: seq<string>, args: map<string, string>, k: nat)
    requires TakesLast(columns, parts, args) && k < |columns| && !NamedAgain(columns, k, |columns|)
    ensures StringAt(AsRow(args), columns[k]) == Some(parts[k])
  {
  }

  lemma DisagreeDiffer(naming: Naming, name: string, row: Row)
    requires |PartsOf(naming, name)| == |naming.columns| && Nameable(naming, row) && !Agree(naming, name)
    ensures Identity(naming, row) != PartsOf(naming, name)
  {
  }

  /** Columns named twice do lose a part: the rebuilt name is another one. */
  lemma DuplicateColumnLosesPart()
    ensures var naming := Naming(["id", "id"], '-');
      Splits(naming, "a-b") && !Agree(naming, "a-b")
  {
    var naming := Naming(["id", "id"], '-');
    SplitJoin(["a", "b"], '-');
    assert Join(["a", "b"], '-') == "a-b" by { assert ["a", "b"][..1] == ["a"]; }
    assert PartsOf(naming, "a-b") == ["a", "b"];
    assert naming.columns[0] == naming.columns[1];
    assert "a"[0] != "b"[0];
  }
}
