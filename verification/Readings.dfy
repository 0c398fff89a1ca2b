/**
 What the texts, numbers and truth values of a column read as, said without the conversion; and what of it an object
 has, and a write binds.
 */
module Readings {
  import opened Decimals
  import opened Fields
  import opened Nested
  import opened Results
  import opened Values

  /** Spaces, tabs, and the four ends of lines and pages. */
  predicate IsBlank(s: string) {
    forall i :: 0 <= i < |s| ==> s[i] in [' ', '\t', '\n', '\r', '\U{0b}', '\U{0c}']
  }

  predicate IsText(cell: Cell, s: string) {
    cell == Text(s) || cell == Bytes(s)
  }

  /** The value of a text of digits, read from the front. */
  function ValueOf(digits: string, soFar: nat): nat
    requires forall k :: 0 <= k < |digits| ==> '0' <= digits[k] <= '9'
  {
    if digits == "" then soFar else ValueOf(digits[1..], 10 * soFar + (digits[0] as int - '0' as int))
  }

  // Blanks around a text.

  lemma {:induction false} TrimLeftBlank(before: string, s: string)
    requires IsBlank(before) && (s == "" || !IsSpace(s[0]))
    ensures TrimLeft(before + s) == s
  {
    if before == "" {
      assert before + s == s;
    } else {
      assert (before + s)[1..] == before[1..] + s;
      TrimLeftBlank(before[1..], s);
    }
  }

  lemma {:induction false} TrimRightBlank(s: string, after: string)
    requires IsBlank(after) && (s == "" || !IsSpace(s[|s| - 1]))
    ensures TrimRight(s + after) == s
    decreases |after|
  {
    if after == "" {
      assert s + after == s;
    } else {
      var k := |after| - 1;
      var all := s + after;
      assert all[|all| - 1] == after[k] && all[..|all| - 1] == s + after[..k];
      assert IsSpace(after[k]);
      TrimRightBlank(s, after[..k]);
    }
  }

  lemma Trimmed(before: string, s: string, after: string)
    requires IsBlank(before) && IsBlank(after) && s != "" && !IsSpace(s[0]) && !IsSpace(s[|s| - 1])
    ensures Trim(before + s + after) == s
  {
    assert before + s + after == before + (s + after);
    TrimLeftBlank(before, s + after);
    TrimRightBlank(s, after);
  }

  lemma {:induction false} LeftOver(s: string) returns (before: string)
    ensures IsBlank(before) && s == before + TrimLeft(s)
  {
    if s != "" && IsSpace(s[0]) {
      before := LeftOver(s[1..]);
      before := [s[0]] + before;
    } else {
      before := "";
    }
  }

  lemma {:induction false} RightOver(s: string) returns (after: string)
    ensures IsBlank(after) && s == TrimRight(s) + after
  {
    if s != "" && IsSpace(s[|s| - 1]) {
      after := RightOver(s[..|s| - 1]);
      after := after + [s[|s| - 1]];
      assert s == s[..|s| - 1] + [s[|s| - 1]];
    } else {
      after := "";
    }
  }

  // Integers.

  lemma {:induction false} NumberMore(digits: string, front: string)
    requires forall k :: 0 <= k < |digits| ==> '0' <= digits[k] <= '9'
    requires forall k :: 0 <= k < |front| ==> '0' <= front[k] <= '9'
    ensures Number(front + digits) == ValueOf(digits, Number(front))
    decreases |digits|
  {
    if digits == "" {
      assert front + digits == front;
    } else {
      var more := front + [digits[0]];
      assert front + digits == more + digits[1..] && more[..|more| - 1] == front;
      NumberMore(digits[1..], more);
    }
  }

  /** The sign of a number, and the digits after it. */
  datatype Numeral = Numeral(sign: string, digits: string) {
    predicate Valid() {
      && (sign == "" || sign == "+" || sign == "-")
      && digits != "" && forall k :: 0 <= k < |digits| ==> '0' <= digits[k] <= '9'
    }
    function Value(): int
      requires Valid()
    {
      if sign == "-" then -(ValueOf(digits, 0) as int) else ValueOf(digits, 0)
    }
  }

  /** A number within the range of 64 bits. */
  predicate Fits(n: int) {
    -0x8000_0000_0000_0000 <= n <= 0x7fff_ffff_ffff_ffff
  }

  lemma SignParses(sign: string, digits: string)
    requires Numeral(sign, digits).Valid()
    ensures var n: int := if sign == "-" then -(Number(digits) as int) else Number(digits);
      ParseInt(sign + digits) == if Fits(n) then Some(n) else None
  {
    hide Number;
    var s := sign + digits;
    if sign == "" { assert s == digits; } else { assert s[0] == sign[0] && s[1..] == digits; }
  }

  lemma NumeralParses(numeral: Numeral)
    requires numeral.Valid()
    ensures ParseInt(numeral.sign + numeral.digits) == if Fits(numeral.Value()) then Some(numeral.Value()) else None
  {
    hide ParseInt, Fits, Number, ValueOf;
    SignParses(numeral.sign, numeral.digits);
    FromTheFront(numeral.digits);
  }

  lemma FromTheFront(digits: string)
    requires forall k :: 0 <= k < |digits| ==> '0' <= digits[k] <= '9'
    ensures Number(digits) == ValueOf(digits, 0)
  {
    NumberMore(digits, "");
    assert "" + digits == digits;
  }

  lemma ParsesNumeral(s: string) returns (numeral: Numeral)
    requires ParseInt(s).Some?
    ensures numeral.Valid() && s == numeral.sign + numeral.digits && ParseInt(s) == Some(numeral.Value())
  {
    numeral := if s[0] == '+' then Numeral("+", s[1..])
               else if s[0] == '-' then Numeral("-", s[1..])
               else Numeral("", s);
    NumeralParses(numeral);
  }

  /** A text reads as an integer: a sign or none, and digits, with blanks around them, and within 64 bits. */
  ghost predicate ReadsAs(s: string, n: int) {
    && Fits(n)
    && exists before, numeral: Numeral, after ::
         && s == before + (numeral.sign + numeral.digits) + after && IsBlank(before) && IsBlank(after)
         && numeral.Valid() && numeral.Value() == n
  }

  /** What a text is read as once the blanks are gone. */
  lemma NumeralReads(cell: Cell, before: string, numeral: Numeral, after: string)
    requires IsBlank(before) && IsBlank(after) && numeral.Valid()
    requires IsText(cell, before + (numeral.sign + numeral.digits) + after)
    ensures Coerce(cell, IntegerField) == if Fits(numeral.Value()) then Some(Num(numeral.Value())) else None
  {
    hide Coerce, ParseInt, Number, ValueOf, Trim, Fits;
    var core := numeral.sign + numeral.digits;
    assert !IsSpace(core[0]) && !IsSpace(core[|core| - 1]);
    Trimmed(before, core, after);
    TextParses(cell, before + core + after);
    NumeralParses(numeral);
  }

  lemma TextParses(cell: Cell, s: string)
    requires IsText(cell, s)
    ensures Coerce(cell, IntegerField) ==
      match ParseInt(Trim(s)) case Some(n) => Some(Num(n)) case None => None
  {
  }

  /** An integer field reads exactly such texts, as bytes or not, and as that number. */
  lemma IntegerTextReads(cell: Cell, s: string, n: int)
    requires IsText(cell, s)
    ensures Coerce(cell, IntegerField) == Some(Num(n)) <==> ReadsAs(s, n)
  {
    hide ParseInt, Number, ValueOf, TrimLeft, TrimRight, Fits, IsBlank;
    if Coerce(cell, IntegerField) == Some(Num(n)) {
      var before := LeftOver(s);
      var after := RightOver(TrimLeft(s));
      var numeral := ParsesNumeral(Trim(s));
      NumeralParses(numeral);
      assert s == before + (numeral.sign + numeral.digits) + after;
    }
    if ReadsAs(s, n) {
      var before, numeral: Numeral, after :|
        && s == before + (numeral.sign + numeral.digits) + after && IsBlank(before) && IsBlank(after)
        && numeral.Valid() && numeral.Value() == n;
      NumeralReads(cell, before, numeral, after);
    }
  }

  /** A number that a driver writes out reads back as itself, with blanks or without; out of range as nothing. */
  lemma WrittenIntegerReads(cell: Cell, before: string, after: string, n: int)
    requires IsBlank(before) && IsBlank(after) && IsText(cell, before + Signed(n) + after)
    ensures Coerce(cell, IntegerField) == if Fits(n) then Some(Num(n)) else None
  {
    hide Coerce, ValueOf, Fits;
    var size: nat := if n < 0 then -n else n;
    DecimalValue(size);
    hide Decimal;
    var sign := if n < 0 then "-" else "";
    assert sign + Decimal(size) == Signed(n);
    NumeralReads(cell, before, Numeral(sign, Decimal(size)), after);
  }

  /** Also with a `+` before it. */
  lemma PlusIntegerReads(cell: Cell, before: string, after: string, n: nat)
    requires IsBlank(before) && IsBlank(after) && IsText(cell, before + ("+" + Signed(n)) + after)
    ensures Coerce(cell, IntegerField) == if Fits(n) then Some(Num(n)) else None
  {
    hide Coerce, ValueOf, Fits;
    DecimalValue(n);
    NumeralReads(cell, before, Numeral("+", Decimal(n)), after);
  }

  lemma DecimalValue(n: nat)
    ensures ValueOf(Decimal(n), 0) == n
  {
    NumberOfDecimal(n);
    FromTheFront(Decimal(n));
  }

  /** Integers of the driver's own: taken as they are, when they fit, and written out in a string field. */
  lemma WholeReads(width: Width, n: int)
    requires Fits(n)
    ensures Coerce(Whole(width, n), IntegerField) == Some(Num(n))
    ensures Coerce(Whole(width, n), StringField).Some?
    ensures forall s :: Coerce(Whole(width, n), StringField) == Some(Str(s)) ==>
              Coerce(Text(s), IntegerField) == Some(Num(n))
  {
    hide ParseInt, Trim;
    var s := Signed(n);
    assert "" + s + "" == s;
    WrittenIntegerReads(Text(s), "", "", n);
  }

  /** An unsigned integer that does not fit is refused. */
  lemma TooLargeRefused(n: int)
    requires n > 0x7fff_ffff_ffff_ffff
    ensures Coerce(Whole(Uint64, n), IntegerField) == None && Coerce(Whole(Uint, n), IntegerField) == None
  {
  }

  // Strings and truth values.

  lemma StringReads(cell: Cell, s: string)
    requires IsText(cell, s)
    ensures Coerce(cell, StringField) == Some(Str(s))
  {
  }

  /** A truth value in a boolean field reads as itself, and through a string field as well. */
  lemma TruthReads(b: bool, s: string)
    requires Coerce(Bool(b), StringField) == Some(Str(s))
    ensures Coerce(Bool(b), BooleanField) == Some(Flag(b)) && Coerce(Text(s), BooleanField) == Some(Flag(b))
  {
    assert "" + s + "" == s;
    assert IsBlank("");
    Trimmed("", s, "");
  }

  predicate Spells(s: string, b: bool) {
    s in (if b then ["1", "t", "T", "true", "True", "TRUE"] else ["0", "f", "F", "false", "False", "FALSE"])
  }

  /** A boolean field reads exactly the spellings of the two truth values, with blanks around them. */
  lemma TruthTextReads(cell: Cell, s: string, b: bool)
    requires IsText(cell, s)
    ensures Coerce(cell, BooleanField) == Some(Flag(b)) <==>
      exists before, word, after :: s == before + word + after && IsBlank(before) && IsBlank(after) && Spells(word, b)
  {
    hide Coerce, TrimLeft, TrimRight, Spells, IsBlank;
    TruthParses(cell, s, b);
    var left := LeftOver(s);
    var right := RightOver(TrimLeft(s));
    assert s == left + Trim(s) + right;
    if before, word, after :| s == before + word + after && IsBlank(before) && IsBlank(after) && Spells(word, b) {
      SpelledPlainly(word, b);
      Trimmed(before, word, after);
    }
  }

  lemma TruthParses(cell: Cell, s: string, b: bool)
    requires IsText(cell, s)
    ensures Coerce(cell, BooleanField) == Some(Flag(b)) <==> Spells(Trim(s), b)
  {
    hide Trim;
  }

  lemma SpelledPlainly(word: string, b: bool)
    requires Spells(word, b)
    ensures word != "" && !IsSpace(word[0]) && !IsSpace(word[|word| - 1])
  {
  }

  /** A 64-bit integer reads as true exactly when it is not zero. */
  lemma TruthNumberReads(n: int, b: bool)
    ensures Coerce(Whole(Int64, n), BooleanField) == Some(Flag(b)) <==> b == (n != 0)
  {
  }

  // Fields.

  /** Where a row's column is found in the object: a NULL as a null or not at all, and anything else as it reads. */
  lemma FieldReads(fields: seq<Field>, row: Row, obj: map<string, Json>, i: nat)
    requires Apart(fields, obj) && Filled(fields, row, obj).Some? && i < |fields|
    ensures fields[i].column in row
    ensures var cell, found := row[fields[i].column], ReadAt(Object(Filled(fields, row, obj).value), fields[i].path);
      && (cell.Null? ==> found == if fields[i].omitEmpty then Absent else Found(Nil))
      && (!cell.Null? ==> found.Found? && found.value.Scalar?
                          && Coerce(cell, fields[i].fieldType) == Some(found.value.value))
  {
    assert fields[..|fields|] == fields;
    FillSucceeds(fields, row, obj, |fields|);
  }

  /** What a write binds for a scalar that a client put into a field of its own type, or a text into a number's. */
  lemma ScalarBinds(field: Field, obj: Json, scalar: Scalar)
    requires ReadAt(obj, field.path) == Found(Json.Scalar(scalar))
    ensures field.fieldType.StringField? && scalar.Str? ==> Binding(field, obj) == Some(Plain(Text(scalar.s)))
    ensures field.fieldType.BooleanField? && scalar.Flag? ==> Binding(field, obj) == Some(Plain(Bool(scalar.b)))
    ensures field.fieldType.IntegerField? && scalar.Num? ==> Binding(field, obj) == Some(Plain(Whole(Int64, scalar.n)))
    ensures field.fieldType.IntegerField? && scalar.Str? ==>
      forall n :: Binding(field, obj) == Some(Plain(Whole(Int64, n))) <==> ReadsAs(scalar.s, n)
  {
    hide ReadAt;
    if field.fieldType.IntegerField? && scalar.Str? {
      hide ReadsAs, Trim, ParseInt;
      forall n ensures Coerce(Text(scalar.s), IntegerField) == Some(Num(n)) <==> ReadsAs(scalar.s, n) {
        IntegerTextReads(Text(scalar.s), scalar.s, n);
      }
    }
  }

  /** What is not there, or null, is bound NULL; a structure only in a string field, as its JSON. */
  lemma OthersBind(field: Field, obj: Json)
    ensures ReadAt(obj, field.path).Absent? ==> Binding(field, obj) == Some(Plain(Null))
    ensures ReadAt(obj, field.path) == Found(Nil) ==> Binding(field, obj) == Some(Plain(Null))
    ensures ReadAt(obj, field.path).NotAnObject? ==> Binding(field, obj).None?
    ensures ReadAt(obj, field.path).Found? && ReadAt(obj, field.path).value.List? ==>
      Binding(field, obj) ==
        if field.fieldType.StringField? then Some(Encoded(ReadAt(obj, field.path).value)) else None
    ensures ReadAt(obj, field.path).Found? && ReadAt(obj, field.path).value.Object? ==>
      Binding(field, obj) ==
        if field.fieldType.StringField? then Some(Encoded(ReadAt(obj, field.path).value)) else None
  {
  }
}
