/**
 How a statement's text is divided into code and non-code.

 The scanner functions read a statement from the front: `t` is what is left of it, and `after` says whether
 the character just before `t` may appear in a name. The index loops of the program are the methods at the
 end, each proved to compute its scanner function at every position of every statement. A char stands for
 one byte of the statement.
 */
module SqlLexer {

  /** The four ways a statement's text is read; a driver without a name of its own is read conservatively. */
  datatype Dialect = Conservative | Postgres | MySQL | SQLite {
    predicate BackslashEscapes() { MySQL? || Conservative? }
    predicate DollarQuotes() { Postgres? || Conservative? }
    predicate EscapeStrings() { Postgres? }
    predicate NestedBlockComments() { Postgres? || Conservative? }
    predicate HashComments() { MySQL? || Conservative? }
    predicate LineCommentNeedsSpace() { MySQL? }
  }

  function DialectFor(driver: string): Dialect {
    if driver == "postgres" || driver == "cockroach" then Postgres
    else if driver == "mysql" then MySQL
    else if driver == "sqlite" then SQLite
    else Conservative
  }

  predicate IsNameStart(c: char) {
    c == '_' || 'a' <= c <= 'z' || 'A' <= c <= 'Z'
  }

  predicate IsDigit(c: char) {
    '0' <= c <= '9'
  }

  predicate IsNameChar(c: char) {
    IsNameStart(c) || IsDigit(c)
  }

  /** How many name characters `t` begins with. */
  function NameRun(t: string): (n: nat)
    ensures n <= |t|
    ensures forall k :: 0 <= k < n ==> IsNameChar(t[k])
    ensures n < |t| ==> !IsNameChar(t[n])
  {
    if t == [] || !IsNameChar(t[0]) then 0 else 1 + NameRun(t[1..])
  }

  predicate OccursAt(t: string, tag: string, k: nat) {
    k <= |t| && tag <= t[k..]
  }

  /** Where `tag` first occurs in `t`, or |t| + 1 when it does not. */
  function IndexOf(t: string, tag: string): (k: nat)
    ensures k <= |t| + 1
    ensures k <= |t| ==> OccursAt(t, tag, k)
    ensures forall j :: 0 <= j < k ==> !OccursAt(t, tag, j)
  {
    if OccursAt(t, tag, 0) then 0
    else if t == [] then 1
    else
      assert forall j :: 1 <= j <= |t| ==> t[j..] == t[1..][j - 1..];
      assert forall j :: 1 <= j && OccursAt(t, tag, j) ==> OccursAt(t[1..], tag, j - 1);
      1 + IndexOf(t[1..], tag)
  }

  /** Length of what follows a literal's opening quote, up to and including its closing one. */
  function StringTail(t: string, escapes: bool): (n: nat)
    ensures n <= |t|
    ensures n < |t| ==> t[n] != '\''
  {
    if t == [] then 0
    else if escapes && t[0] == '\\' && |t| > 1 then 2 + StringTail(t[2..], escapes)
    else if t[0] == '\'' then
      if |t| > 1 && t[1] == '\'' then 2 + StringTail(t[2..], escapes) else 1
    else 1 + StringTail(t[1..], escapes)
  }

  /** Length of what follows an opening delimiter, up to and including the next one. */
  function DelimitedTail(t: string, delimiter: char): (n: nat)
    ensures n <= |t|
  {
    if t == [] then 0 else if t[0] == delimiter then 1 else 1 + DelimitedTail(t[1..], delimiter)
  }

  /** Length of what follows the opener of a block comment that still needs `depth` closers. */
  function BlockTail(t: string, nested: bool, depth: nat): (n: nat)
    requires depth > 0
    ensures n <= |t|
  {
    if |t| < 2 then |t|
    else if nested && t[0] == '/' && t[1] == '*' then 2 + BlockTail(t[2..], nested, depth + 1)
    else if t[0] == '*' && t[1] == '/' then
      if depth == 1 then 2 else 2 + BlockTail(t[2..], nested, depth - 1)
    else 1 + BlockTail(t[1..], nested, depth)
  }

  /** Length of the tag that could open a dollar-quoted literal at the front of `t`, or 0 when there is none. */
  function TagLength(t: string): (n: nat)
    requires t != [] && t[0] == '$'
    ensures n <= |t| && (n > 0 ==> n >= 2)
  {
    if |t| > 1 && !IsNameStart(t[1]) && t[1] != '$' then 0
    else
      var m := NameRun(t[1..]);
      if 1 + m >= |t| || t[1 + m] != '$' then 0 else m + 2
  }

  /** Length of the dollar-quoted literal at the front of `t`, or 0 when there is none. */
  function DollarLength(t: string): (n: nat)
    requires t != [] && t[0] == '$'
    ensures n <= |t|
  {
    var n := TagLength(t);
    if n == 0 then 0
    else
      var k := IndexOf(t[n..], t[..n]);
      if k > |t| - n then 0 else n + k + n
  }

  predicate StartsLineComment(t: string, d: Dialect)
    requires |t| >= 2
  {
    !d.LineCommentNeedsSpace() || |t| == 2 || t[2] in " \t\n\r"
  }

  /** Length of the literal, quoted identifier or comment at the front of `t`; 0 when the front is code. */
  function Skip(t: string, after: bool, d: Dialect): (n: nat)
    requires t != []
    ensures n <= |t|
  {
    if t[0] == '\'' then 1 + StringTail(t[1..], d.BackslashEscapes())
    else if (t[0] == 'E' || t[0] == 'e') && d.EscapeStrings() && |t| > 1 && t[1] == '\'' && !after then
      2 + StringTail(t[2..], true)
    else if t[0] == '$' && d.DollarQuotes() then DollarLength(t)
    else if t[0] == '"' then 1 + DelimitedTail(t[1..], '"')
    else if t[0] == '`' then 1 + DelimitedTail(t[1..], '`')
    else if t[0] == '-' && |t| > 1 && t[1] == '-' && StartsLineComment(t, d) then DelimitedTail(t, '\n')
    else if t[0] == '#' && d.HashComments() then DelimitedTail(t, '\n')
    else if t[0] == '/' && |t| > 1 && t[1] == '*' then 2 + BlockTail(t[2..], d.NestedBlockComments(), 1)
    else 0
  }

  /** The conservative dialect's comment rule: a nested comment never ends before a flat one would. */
  lemma {:induction false} NestedEndsNoEarlier(t: string, depth: nat)
    requires depth > 0
    ensures BlockTail(t, false, 1) <= BlockTail(t, true, depth)
    decreases |t|
  {
    if |t| >= 2 {
      if t[0] == '/' && t[1] == '*' {
        NestedEndsNoEarlier(t[2..], depth + 1);
        FlatStep(t);
      } else if t[0] == '*' && t[1] == '/' {
        if depth > 1 { NestedEndsNoEarlier(t[2..], depth - 1); }
      } else {
        NestedEndsNoEarlier(t[1..], depth);
      }
    }
  }

  /** Past an inner opener a flat scan takes at most two characters more than one begun after it. */
  lemma FlatStep(t: string)
    requires |t| >= 2 && t[0] == '/' && t[1] == '*'
    ensures BlockTail(t, false, 1) <= 2 + BlockTail(t[2..], false, 1)
  {
  }

  // The index loops of the program.

  /** How far a literal's text is certain at its front: past a pair, past a character, or not past the end. */
  function StringStep(t: string, escapes: bool): (k: nat)
    requires t != []
    ensures k <= |t|
  {
    if escapes && t[0] == '\\' && |t| > 1 then 2
    else if t[0] == '\'' then if |t| > 1 && t[1] == '\'' then 2 else 0
    else 1
  }

  lemma StringTailStep(t: string, escapes: bool)
    requires t != []
    ensures var k := StringStep(t, escapes);
      StringTail(t, escapes) == if k == 0 then 1 else k + StringTail(t[k..], escapes)
  {
  }

  method EndOfString(stmt: string, i: nat, escapes: bool) returns (end: nat)
    requires i < |stmt|
    ensures end == i + 1 + StringTail(stmt[i + 1..], escapes)
  {
    var j := i + 1;
    while j < |stmt|
      invariant i + 1 <= j <= |stmt|
      invariant i + 1 + StringTail(stmt[i + 1..], escapes) == j + StringTail(stmt[j..], escapes)
    {
      hide StringTail;
      StringTailStep(stmt[j..], escapes);
      assert j + 1 < |stmt| ==> stmt[j..][1] == stmt[j + 1] && stmt[j..][2..] == stmt[j + 2..];
      assert stmt[j..][1..] == stmt[j + 1..];
      if escapes && stmt[j] == '\\' && j + 1 < |stmt| {
        j := j + 2;
      } else if stmt[j] == '\'' {
        if j + 1 < |stmt| && stmt[j + 1] == '\'' {
          j := j + 2;
        } else {
          return j + 1;
        }
      } else {
        j := j + 1;
      }
    }
    end := j;
  }

  method EndOfDelimited(stmt: string, i: nat, delimiter: char) returns (end: nat)
    requires i < |stmt|
    ensures end == i + 1 + DelimitedTail(stmt[i + 1..], delimiter)
  {
    var j := i + 1;
    while j < |stmt| && stmt[j] != delimiter
      invariant i + 1 <= j <= |stmt|
      invariant i + 1 + DelimitedTail(stmt[i + 1..], delimiter) == j + DelimitedTail(stmt[j..], delimiter)
    {
      assert stmt[j..][1..] == stmt[j + 1..];
      j := j + 1;
    }
    end := if j < |stmt| then j + 1 else j;
  }

  /** A block comment one step at a time: past an opener or a closer, or past one character. */
  lemma BlockTailStep(t: string, nested: bool, depth: nat)
    requires depth > 0 && |t| >= 2
    ensures BlockTail(t, nested, depth) ==
      if nested && t[0] == '/' && t[1] == '*' then 2 + BlockTail(t[2..], nested, depth + 1)
      else if t[0] == '*' && t[1] == '/' then if depth == 1 then 2 else 2 + BlockTail(t[2..], nested, depth - 1)
      else 1 + BlockTail(t[1..], nested, depth)
  {
  }

  lemma BlockTailEnd(t: string, nested: bool, depth: nat)
    requires depth > 0 && |t| < 2
    ensures BlockTail(t, nested, depth) == |t|
  {
  }

  method EndOfBlockComment(stmt: string, i: nat, nested: bool) returns (end: nat)
    requires i + 2 <= |stmt|
    ensures end == i + 2 + BlockTail(stmt[i + 2..], nested, 1)
  {
    hide BlockTail;
    var depth := 1;
    var j := i + 2;
    while j + 1 < |stmt|
      invariant i + 2 <= j <= |stmt| && depth > 0
      invariant i + 2 + BlockTail(stmt[i + 2..], nested, 1) == j + BlockTail(stmt[j..], nested, depth)
    {
      BlockTailStep(stmt[j..], nested, depth);
      assert stmt[j..][2..] == stmt[j + 2..] && stmt[j..][1..] == stmt[j + 1..];
      if nested && stmt[j] == '/' && stmt[j + 1] == '*' {
        depth := depth + 1;
        j := j + 2;
      } else if stmt[j] == '*' && stmt[j + 1] == '/' {
        depth := depth - 1;
        j := j + 2;
        if depth == 0 { return j; }
      } else {
        j := j + 1;
      }
    }
    BlockTailEnd(stmt[j..], nested, depth);
    end := |stmt|;
  }

  method EndOfLine(stmt: string, i: nat) returns (end: nat)
    requires i < |stmt|
    ensures end == i + DelimitedTail(stmt[i..], '\n')
  {
    end := i;
    while end < |stmt|
      invariant i <= end <= |stmt|
      invariant i + DelimitedTail(stmt[i..], '\n') == end + DelimitedTail(stmt[end..], '\n')
    {
      if stmt[end] == '\n' { return end + 1; }
      assert stmt[end..][1..] == stmt[end + 1..];
      end := end + 1;
    }
  }

  method DollarQuote(stmt: string, i: nat) returns (end: nat, ok: bool)
    requires i < |stmt| && stmt[i] == '$'
    ensures ok <==> DollarLength(stmt[i..]) > 0
    ensures ok ==> end == i + DollarLength(stmt[i..])
  {
    hide NameRun, IndexOf;
    ghost var t := stmt[i..];
    var j := i + 1;
    if j < |stmt| && !IsNameStart(stmt[j]) && stmt[j] != '$' {
      return 0, false;
    }
    j := EndOfName(stmt, j);
    assert t[1..] == stmt[i + 1..];
    if j >= |stmt| || stmt[j] != '$' {
      return 0, false;
    }
    assert TagLength(t) == j + 1 - i;
    hide TagLength;
    var tag := stmt[i..j + 1];
    var k := IndexOf(stmt[j + 1..], tag);
    assert t[j + 1 - i..] == stmt[j + 1..] && t[..j + 1 - i] == tag;
    if k > |stmt| - (j + 1) {
      return 0, false;
    }
    return j + 1 + k + |tag|, true;
  }

  /** The name run shared by every reader of a statement. */
  method EndOfName(stmt: string, i: nat) returns (j: nat)
    requires i <= |stmt|
    ensures j == i + NameRun(stmt[i..])
  {
    j := i;
    while j < |stmt| && IsNameChar(stmt[j])
      invariant i <= j <= |stmt|
      invariant i + NameRun(stmt[i..]) == j + NameRun(stmt[j..])
    {
      assert stmt[j..][1..] == stmt[j + 1..];
      j := j + 1;
    }
  }

  /** Whether the character before position `i` may appear in a name. */
  predicate NameBefore(stmt: string, i: nat)
    requires i <= |stmt|
  {
    i > 0 && IsNameChar(stmt[i - 1])
  }

  method SkipNonCode(stmt: string, i: nat, d: Dialect) returns (end: nat, ok: bool)
    requires i < |stmt|
    ensures ok <==> Skip(stmt[i..], NameBefore(stmt, i), d) > 0
    ensures ok ==> end == i + Skip(stmt[i..], NameBefore(stmt, i), d)
    ensures ok ==> i < end <= |stmt|
  {
    var c := stmt[i];
    ghost var t := stmt[i..];
    assert t[1..] == stmt[i + 1..];
    assert |t| >= 2 ==> t[2..] == stmt[i + 2..];
    ok := true;
    if c == '\'' {
      end := EndOfString(stmt, i, d.BackslashEscapes());
    } else if (c == 'E' || c == 'e') && d.EscapeStrings() && i + 1 < |stmt| && stmt[i + 1] == '\''
              && (i == 0 || !IsNameChar(stmt[i - 1])) {
      end := EndOfString(stmt, i + 1, true);
    } else if c == '$' && d.DollarQuotes() {
      end, ok := DollarQuote(stmt, i);
    } else if c == '"' {
      end := EndOfDelimited(stmt, i, '"');
    } else if c == '`' {
      end := EndOfDelimited(stmt, i, '`');
    } else if c == '-' && i + 1 < |stmt| && stmt[i + 1] == '-' && StartsLineComment(stmt[i..], d) {
      end := EndOfLine(stmt, i);
    } else if c == '#' && d.HashComments() {
      end := EndOfLine(stmt, i);
    } else if c == '/' && i + 1 < |stmt| && stmt[i + 1] == '*' {
      end := EndOfBlockComment(stmt, i, d.NestedBlockComments());
    } else {
      end, ok := 0, false;
    }
  }
}
