/** No text is left out: every statement, whatever is in it, is one by the rules of its database. */
module SqlEveryText {
  import opened SqlGrammar
  import opened SqlLexer
  import opened SqlRewrite

  lemma {:induction false} LiteralParts(t: string, escapes: bool)
    returns (closed: bool, parts: seq<Part>, last: string, x: string)
    ensures AreParts(parts, escapes)
    ensures closed ==> t == PartsText(parts) + ("'" + x) && (x == "" || x[0] != '\'')
    ensures !closed ==> t == PartsText(parts) + last && (last == "" || last == "\\")
    decreases |t|
  {
    closed, parts, last, x := false, [], "", "";
    if t == "" {
      return;
    } else if t == "\\" && escapes {
      last := "\\";
    } else if t[0] == '\'' && (|t| == 1 || t[1] != '\'') {
      closed, x := true, t[1..];
      assert t == "'" + x;
    } else {
      var p := if t[0] == '\'' then Doubled else if t[0] == '\\' && escapes then Escaped(t[1]) else Char(t[0]);
      closed, parts, last, x := LiteralParts(t[|PartText(p)|..], escapes);
      assert t == PartText(p) + t[|PartText(p)|..];
      AddPart(p, parts, escapes);
      parts := [p] + parts;
    }
  }

  lemma AddPart(p: Part, parts: seq<Part>, escapes: bool)
    requires IsPart(p, escapes) && AreParts(parts, escapes)
    ensures AreParts([p] + parts, escapes) && PartsText([p] + parts) == PartText(p) + PartsText(parts)
  {
    assert ([p] + parts)[1..] == parts;
  }

  /** Where a mark first occurs. */
  lemma {:induction false} FirstMark(t: string, mark: string) returns (found: bool, w: string, x: string)
    requires mark != ""
    ensures found ==> t == w + mark + x && NoEarlier(w, mark, mark)
    ensures !found ==> w == t && NoEarlier(w, "", mark)
    decreases |t|
  {
    if t == "" {
      found, w, x := false, "", "";
    } else if mark <= t {
      found, w, x := true, "", t[|mark|..];
    } else {
      found, w, x := FirstMark(t[1..], mark);
      var shorter := w;
      w := [t[0]] + w;
      OneEarlier(t, shorter, w, if found then mark else "", if found then x else "", mark);
    }
  }

  lemma OneEarlier(t: string, shorter: string, w: string, next: string, x: string, mark: string)
    requires t != "" && t[1..] == shorter + next + x && w == [t[0]] + shorter && !(mark <= t)
    requires NoEarlier(shorter, next, mark)
    ensures t == w + next + x && NoEarlier(w, next, mark)
  {
    forall k | 0 <= k < |w| ensures !(mark <= (w + next)[k..]) {
      if k > 0 { assert (w + next)[k..] == (shorter + next)[k - 1..]; }
      if k == 0 { assert (w + next)[0..] + x == t; }
    }
  }

  /** The first opener or closer of a comment. */
  lemma {:induction false} FirstOfTwo(t: string) returns (next: string, w: string, x: string)
    ensures next == "" || next == "/*" || next == "*/"
    ensures t == w + next + x && IsInside(w, next) && (next == "" ==> x == "")
    decreases |t|
  {
    if t == "" {
      next, w, x := "", "", "";
    } else if "/*" <= t || "*/" <= t {
      next, w, x := if "/*" <= t then "/*" else "*/", "", t[2..];
      assert t == next + x;
    } else {
      next, w, x := FirstOfTwo(t[1..]);
      var shorter := w;
      w := [t[0]] + w;
      OneEarlier(t, shorter, w, next, x, "/*");
      OneEarlier(t, shorter, w, next, x, "*/");
    }
  }

  lemma {:induction false} NestedBody(t: string) returns (closed: bool, b: Body, u: Unclosed, x: string)
    ensures closed ==> t == BodyText(b) + x && IsNested(b)
    ensures !closed ==> t == UnclosedText(u) && IsUnclosed(u)
    decreases |t|
  {
    hide IsInside;
    b, u, x := End(""), Tail(""), "";
    var next, w, after := FirstOfTwo(t);
    if next == "" {
      closed, u := false, Tail(w);
      assert t == w;
    } else if next == "*/" {
      closed, b, x := true, End(w), after;
    } else {
      var innerClosed, inner, open, rest := NestedBody(after);
      if !innerClosed {
        closed, u := false, Deeper(w, open);
      } else {
        var more, more', x' := End(""), Tail(""), "";
        closed, more, more', x' := NestedBody(rest);
        assert after == BodyText(inner) + rest;
        if closed { b, x := Inner(w, inner, more), x'; } else { u := Past(w, inner, more'); }
      }
    }
  }

  // The lexeme a text begins with.

  /** What is found at the front of a text. */
  ghost predicate Begins(driver: string, t: string, before: bool, l: Lexeme, x: string) {
    t == Written(l) + x && Written(l) != "" && IsLexeme(driver, l, before, x)
  }

  lemma LiteralFront(driver: string, t: string, before: bool) returns (l: Lexeme, x: string)
    requires t != "" && t[0] == '\''
    ensures Begins(driver, t, before, l, x)
  {
    hide PartsText, AreParts, PlainBackslash;
    var closed, parts, last;
    closed, parts, last, x := LiteralParts(t[1..], !PlainBackslash(driver));
    if closed {
      l := Literal(parts);
      assert t == Written(l) + x;
    } else {
      l, x := OpenLiteral(parts, last), "";
      assert t == Written(l) + x;
    }
  }

  lemma EscapeFront(driver: string, t: string) returns (l: Lexeme, x: string)
    requires |t| > 1 && t[0] in ['e', 'E'] && t[1] == '\'' && IsPostgres(driver)
    ensures Begins(driver, t, false, l, x)
  {
    hide PartsText, AreParts, IsPostgres;
    var closed, parts, last;
    closed, parts, last, x := LiteralParts(t[2..], true);
    if closed {
      l := EscapeLiteral(t[0], parts);
      assert t == Written(l) + x;
    } else {
      l, x := OpenEscape(t[0], parts, last), "";
      assert t == Written(l) + x;
    }
  }

  lemma DollarFront(driver: string, t: string, before: bool) returns (l: Lexeme, x: string)
    requires t != "" && t[0] == '$' && OpensDollar(t) && (IsPostgres(driver) || IsUnknown(driver))
    ensures Begins(driver, t, before, l, x)
  {
    hide IsPostgres, IsUnknown, IsTag;
    var tag, after := FenceFront(t);
    var found, w;
    found, w, x := FirstMark(after, Fence(tag));
    assert found by { assert after + "" == after; }
    l := DollarLiteral(tag, w);
    assert t == Written(l) + x;
  }

  lemma FenceFront(t: string) returns (tag: string, after: string)
    requires OpensDollar(t)
    ensures IsTag(tag) && t == Fence(tag) + after
    ensures exists k :: 0 <= k < |after| && Fence(tag) <= after[k..]
  {
    hide IsTag;
    var w, x;
    tag, w, x :| IsTag(tag) && t == Fence(tag) + w + Fence(tag) + x;
    after := w + Fence(tag) + x;
    assert after[|w|..] == Fence(tag) + x;
  }

  lemma NameFront(driver: string, t: string, before: bool) returns (l: Lexeme, x: string)
    requires t != "" && t[0] in ['"', '`']
    ensures Begins(driver, t, before, l, x)
  {
    var found, w;
    found, w, x := FirstMark(t[1..], [t[0]]);
    NoneEarlier(w, t[0], if found then [t[0]] else "");
    if found {
      l := QuotedName(t[0], w);
      assert t == Written(l) + x;
    } else {
      l, x := OpenName(t[0], w), "";
      assert t == Written(l) + x;
    }
  }

  lemma NoneEarlier(w: string, c: char, next: string)
    requires NoEarlier(w, next, [c])
    ensures c !in w
  {
    forall k | 0 <= k < |w| ensures w[k] != c {
      assert (w + next)[k..][..1] == [w[k]];
      assert !([c] <= (w + next)[k..]);
    }
  }

  lemma LineFront(driver: string, t: string, opener: string, before: bool) returns (l: Lexeme, x: string)
    requires opener <= t && OpensLine(driver, opener, t[|opener|..])
    ensures Begins(driver, t, before, l, x)
  {
    var found, w;
    var rest := t[|opener|..];
    found, w, x := FirstMark(rest, "\n");
    NoneEarlier(w, '\n', if found then "\n" else "");
    hide NoEarlier;
    assert t == opener + rest;
    assert opener != "";
    if found {
      l := Line(opener, w);
      OpensAlike(driver, opener, rest, w + "\n");
      hide OpensLine;
      assert t == opener + w + "\n" + x;
    } else {
      l, x := LastLine(opener, w), "";
      hide OpensLine;
      assert t == opener + w + "";
    }
  }

  lemma OpensAlike(driver: string, opener: string, rest: string, w: string)
    requires OpensLine(driver, opener, rest) && rest != "" && w != "" && rest[0] == w[0]
    ensures OpensLine(driver, opener, w)
  {
  }

  lemma BlockFront(driver: string, t: string, before: bool) returns (l: Lexeme, x: string)
    requires "/*" <= t
    ensures Begins(driver, t, before, l, x)
  {
    hide IsPostgres, IsUnknown, IsNested, IsUnclosed;
    var rest := t[2..];
    assert t == "/*" + rest;
    if IsPostgres(driver) || IsUnknown(driver) {
      var closed, b, u;
      closed, b, u, x := NestedBody(rest);
      if closed { l := Block(b); } else { l, x := OpenBlock(u), ""; }
    } else {
      var found, w;
      found, w, x := FirstMark(rest, "*/");
      if found { l := Block(End(w)); } else { l, x := OpenBlock(Tail(w)), ""; }
    }
    assert t == Written(l) + x;
  }

  lemma ColonFront(driver: string, t: string, before: bool) returns (l: Lexeme, x: string)
    requires t != "" && t[0] == ':'
    ensures Begins(driver, t, before, l, x)
  {
    if |t| > 1 && t[1] == ':' {
      l, x := DoubleColon, t[2..];
    } else if |t| > 1 && StartsName(t[1]) {
      var n := NameRun(t[1..]);
      l, x := Parameter(t[1..][..n]), t[1 + n..];
      assert t[1..][n..] == x;
    } else {
      l, x := Single(':'), t[1..];
    }
    assert t == Written(l) + x;
  }

  /** Every text that is not empty begins with a lexeme. */
  lemma Front(driver: string, t: string, before: bool) returns (l: Lexeme, x: string)
    requires t != ""
    ensures Begins(driver, t, before, l, x)
  {
    hide Begins, OpensDollar;
    var c := t[0];
    assert t == [c] + t[1..];
    if c == '\'' {
      l, x := LiteralFront(driver, t, before);
    } else if c in ['e', 'E'] && IsPostgres(driver) && !before && |t| > 1 && t[1] == '\'' {
      l, x := EscapeFront(driver, t);
    } else if c == '$' && (IsPostgres(driver) || IsUnknown(driver)) && OpensDollar(t) {
      l, x := DollarFront(driver, t, before);
    } else if c in ['"', '`'] {
      l, x := NameFront(driver, t, before);
    } else if c == '-' && |t| > 1 && t[1] == '-' && OpensLine(driver, "--", t[2..]) {
      l, x := LineFront(driver, t, "--", before);
    } else if c == '#' && OpensLine(driver, "#", t[1..]) {
      l, x := LineFront(driver, t, "#", before);
    } else if c == '/' && |t| > 1 && t[1] == '*' {
      l, x := BlockFront(driver, t, before);
    } else if c == ':' {
      l, x := ColonFront(driver, t, before);
    } else {
      l, x := Single(c), t[1..];
      AloneFront(driver, t, before);
    }
  }

  lemma AloneFront(driver: string, t: string, before: bool)
    requires t != "" && t[0] != ':' && StandsAlone(driver, t[0], before, t[1..])
    ensures Begins(driver, t, before, Single(t[0]), t[1..])
  {
    hide StandsAlone;
    assert t == [t[0]] + t[1..];
  }

  /**
   Every text is a statement by the rules of every driver's database, and by `ReadsBack` what the scanner reads in it
   is what it was written from: so there is no other way to read it.
   */
  lemma {:induction false} EveryText(driver: string, t: string, before: bool) returns (ls: seq<Lexeme>)
    ensures IsStatement(driver, ls, before) && WrittenAll(ls) == t
    decreases |t|
  {
    if t == "" {
      ls := [];
    } else {
      hide Begins, IsLexeme, Written;
      var l, x := Front(driver, t, before);
      BeginsWith(driver, t, before, l, x);
      var rest := EveryText(driver, x, EndsName(Written(l)));
      ls := [l] + rest;
      assert ls[1..] == rest;
    }
  }

  lemma BeginsWith(driver: string, t: string, before: bool, l: Lexeme, x: string)
    requires Begins(driver, t, before, l, x)
    ensures t == Written(l) + x && |x| < |t| && IsLexeme(driver, l, before, x)
  {
    hide IsLexeme, Written;
  }
}
