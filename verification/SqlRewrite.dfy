/**
 Turning `:name` parameters into a driver's placeholders.

 A statement is a sequence of tokens; rewriting renders each parameter as a placeholder and everything else
 as it was. The central fact is `RescanTokens`: read again, a rewritten statement divides as the original did,
 with every placeholder as plain code, exactly when no `$` that the author wrote opens a literal with them.
 Idempotence and the faithfulness of binding both follow from it.
 */
module SqlRewrite {
  import opened Decimals
  import opened SqlLexer

  datatype Style = Dollar | Question

  datatype Token = Region(text: string) | Cast | Param(name: string) | Code(c: char)

  function Text(tok: Token): string {
    match tok
    case Region(text) => text
    case Cast => "::"
    case Param(name) => ":" + name
    case Code(c) => [c]
  }

  /** The token at the front of `t`. */
  function NextToken(t: string, after: bool, d: Dialect): (tok: Token)
    requires t != []
    ensures Text(tok) != [] && Text(tok) <= t
  {
    var n := Skip(t, after, d);
    if n > 0 then Region(t[..n])
    else if t[0] == ':' && |t| > 1 && t[1] == ':' then Cast
    else if t[0] == ':' && |t| > 1 && IsNameStart(t[1]) then
      var n := NameRun(t[1..]);
      assert t[..n + 1] == ":" + t[1..][..n];
      Param(t[1..][..n])
    else Code(t[0])
  }

  predicate EndsInName(tok: Token)
    requires Text(tok) != []
  {
    IsNameChar(Text(tok)[|Text(tok)| - 1])
  }

  function Rest(t: string, after: bool, d: Dialect): (r: string)
    requires t != []
    ensures |r| < |t| && t == Text(NextToken(t, after, d)) + r
  {
    t[|Text(NextToken(t, after, d))|..]
  }

  function Tokens(t: string, after: bool, d: Dialect): (toks: seq<Token>)
    decreases |t|
  {
    if t == [] then []
    else
      var tok := NextToken(t, after, d);
      [tok] + Tokens(Rest(t, after, d), EndsInName(tok), d)
  }

  /** The tokens of a whole statement. */
  function StatementTokens(stmt: string, d: Dialect): seq<Token> {
    Tokens(stmt, false, d)
  }

  function Position(names: seq<string>, name: string): (k: nat)
    ensures k <= |names|
    ensures k < |names| ==> names[k] == name
    ensures name in names ==> k < |names|
  {
    if names == [] || names[0] == name then 0 else 1 + Position(names[1..], name)
  }

  function Placeholder(style: Style, name: string, names: seq<string>): (s: string)
    ensures s != []
  {
    if style.Question? then "?" else "$" + Decimal(1 + Position(names, name))
  }

  function Render(tok: Token, style: Style, names: seq<string>): string {
    if tok.Param? then Placeholder(style, tok.name, names) else Text(tok)
  }

  function RenderAll(toks: seq<Token>, style: Style, names: seq<string>): string {
    if toks == [] then "" else Render(toks[0], style, names) + RenderAll(toks[1..], style, names)
  }

  /** The parameters of a statement, in order, repeats included. */
  function ParamNames(toks: seq<Token>): seq<string> {
    if toks == [] then []
    else (if toks[0].Param? then [toks[0].name] else []) + ParamNames(toks[1..])
  }

  /** The names of `all` that are not in `seen` yet, each once, in order of first appearance, after `seen`. */
  function FirstSeen(seen: seq<string>, all: seq<string>): seq<string>
    decreases |all|
  {
    if all == [] then seen
    else FirstSeen(if all[0] in seen then seen else seen + [all[0]], all[1..])
  }

  /** The names a driver is given values for, in the order it expects them. */
  function DriverNames(toks: seq<Token>, style: Style): seq<string> {
    if style.Question? then ParamNames(toks) else FirstSeen([], ParamNames(toks))
  }

  function Rewritten(stmt: string, d: Dialect, style: Style): string {
    var toks := StatementTokens(stmt, d);
    RenderAll(toks, style, DriverNames(toks, style))
  }

  // Reading a rewritten statement again.

  function CodeOf(s: string): (toks: seq<Token>)
    ensures |toks| == |s| && forall k :: 0 <= k < |s| ==> toks[k] == Code(s[k])
  {
    if s == [] then [] else [Code(s[0])] + CodeOf(s[1..])
  }

  /** A token sequence with every parameter replaced by the characters of its placeholder. */
  function Rescan(toks: seq<Token>, style: Style, names: seq<string>): seq<Token> {
    if toks == [] then []
    else (if toks[0].Param? then CodeOf(Placeholder(style, toks[0].name, names)) else [toks[0]])
         + Rescan(toks[1..], style, names)
  }

  /** Whether a `$` stands outside every literal, quoted identifier and comment. */
  predicate BareDollar(toks: seq<Token>) {
    Code('$') in toks
  }

  // Each region is fixed by its own text `p` and by no more than the character after it: what follows it
  // may change from `x` to `y`.

  lemma StringStepStable(p: string, x: string, y: string, escapes: bool)
    requires p != [] && (x == [] <==> y == []) && (y != [] ==> y[0] != '\'')
    requires StringStep(p + x, escapes) <= |p| && (StringStep(p + x, escapes) == 0 ==> |p| == 1)
    ensures StringStep(p + y, escapes) == StringStep(p + x, escapes)
  {
  }

  lemma {:induction false} StringTailStable(p: string, x: string, y: string, escapes: bool)
    requires StringTail(p + x, escapes) == |p|
    requires x == [] <==> y == []
    requires y != [] ==> y[0] != '\''
    ensures StringTail(p + y, escapes) == |p|
    decreases |p|
  {
    hide StringTail, StringStep;
    if p == [] {
      assert p + x == x && p + y == y;
      NoStringTail(x, y, escapes);
    } else {
      StringTailStep(p + x, escapes);
      var k := StringStep(p + x, escapes);
      StringStepStable(p, x, y, escapes);
      StringTailStep(p + y, escapes);
      if k > 0 {
        assert (p + x)[k..] == p[k..] + x && (p + y)[k..] == p[k..] + y;
        StringTailStable(p[k..], x, y, escapes);
      }
    }
  }

  /** Only where there is no text left is nothing of a literal left. */
  lemma NoStringTail(x: string, y: string, escapes: bool)
    requires StringTail(x, escapes) == 0 && (x == [] <==> y == [])
    ensures StringTail(y, escapes) == 0
  {
  }

  lemma {:induction false} DelimitedTailStable(p: string, x: string, y: string, c: char)
    requires DelimitedTail(p + x, c) == |p|
    requires x == [] <==> y == []
    ensures DelimitedTail(p + y, c) == |p|
    decreases |p|
  {
    if p == [] {
      assert p + x == x && p + y == y;
    } else if p[0] != c {
      assert (p + x)[1..] == p[1..] + x && (p + y)[1..] == p[1..] + y;
      DelimitedTailStable(p[1..], x, y, c);
    }
  }

  lemma {:induction false} BlockTailStable(p: string, x: string, y: string, nested: bool, depth: nat)
    requires depth > 0 && BlockTail(p + x, nested, depth) == |p|
    requires x == [] <==> y == []
    ensures BlockTail(p + y, nested, depth) == |p|
    decreases |p|
  {
    var t := p + x;
    if |t| < 2 {
      assert x == [] && p + y == t;
    } else {
      BlockTailAtLeastTwo(t, nested, depth);
      var k := if nested && t[0] == '/' && t[1] == '*' then 2 else if t[0] == '*' && t[1] == '/' then 2 else 1;
      assert t[k..] == p[k..] + x && (p + y)[k..] == p[k..] + y;
      if nested && t[0] == '/' && t[1] == '*' {
        BlockTailStable(p[k..], x, y, nested, depth + 1);
      } else if t[0] == '*' && t[1] == '/' {
        if depth > 1 { BlockTailStable(p[k..], x, y, nested, depth - 1); }
      } else {
        BlockTailStable(p[k..], x, y, nested, depth);
      }
    }
  }

  lemma {:induction false} BlockTailAtLeastTwo(t: string, nested: bool, depth: nat)
    requires depth > 0 && |t| >= 2
    ensures BlockTail(t, nested, depth) >= 2
  {
  }

  lemma {:induction false} IndexOfStable(p: string, x: string, y: string, tag: string)
    requires tag != [] && IndexOf(p + x, tag) + |tag| == |p|
    ensures IndexOf(p + y, tag) + |tag| == |p|
    decreases |p|
  {
    if |p| == |tag| {
      assert (p + x)[0..][..|tag|] == p && (p + y)[0..][..|tag|] == p;
    } else {
      assert (p + x)[0..][..|tag|] == p[..|tag|] && (p + y)[0..][..|tag|] == p[..|tag|];
      assert (p + x)[1..] == p[1..] + x && (p + y)[1..] == p[1..] + y;
      IndexOfStable(p[1..], x, y, tag);
    }
  }

  lemma {:induction false} NameRunUnique(t: string, m: nat)
    requires m < |t| && !IsNameChar(t[m]) && forall k :: 0 <= k < m ==> IsNameChar(t[k])
    ensures NameRun(t) == m
  {
  }

  lemma {:induction false} TagStable(p: string, x: string, y: string)
    requires p != [] && p[0] == '$' && 0 < TagLength(p + x) <= |p|
    ensures TagLength(p + y) == TagLength(p + x)
  {
    hide NameRun;
    var t, u := p + x, p + y;
    var m := NameRun(t[1..]);
    assert forall k :: 0 <= k < |p| ==> u[k] == t[k];
    assert forall k :: 0 <= k <= m ==> u[1..][k] == t[1..][k];
    NameRunUnique(u[1..], m);
  }

  lemma {:induction false} DollarStable(p: string, x: string, y: string)
    requires p != [] && p[0] == '$' && DollarLength(p + x) == |p|
    ensures DollarLength(p + y) == |p|
  {
    hide TagLength, IndexOf;
    var t, u := p + x, p + y;
    TagStable(p, x, y);
    var n := TagLength(t);
    var q := p[n..];
    assert t[..n] == p[..n] && u[..n] == p[..n] && t[n..] == q + x && u[n..] == q + y;
    IndexOfStable(q, x, y, p[..n]);
  }

  lemma {:induction false} LineStable(p: string, x: string, y: string, d: Dialect)
    requires p != [] && p[0] == '-' && Skip(p + x, false, d) == |p|
    requires x == [] <==> y == []
    ensures Skip(p + y, false, d) == |p|
  {
    var t, u := p + x, p + y;
    LineLength(t);
    DelimitedTailStable(p, x, y, '\n');
    assert |t| > 2 ==> u[2] == t[2];
  }

  lemma {:induction false} CommentStable(p: string, x: string, y: string, d: Dialect)
    requires p != [] && p[0] == '/' && Skip(p + x, false, d) == |p|
    requires x == [] <==> y == []
    ensures Skip(p + y, false, d) == |p|
  {
    assert (p + x)[2..] == p[2..] + x && (p + y)[2..] == p[2..] + y;
    BlockTailStable(p[2..], x, y, d.NestedBlockComments(), 1);
  }

  lemma {:induction false} LiteralStable(p: string, x: string, y: string, k: nat, escapes: bool)
    requires k <= |p| && k + StringTail((p + x)[k..], escapes) == |p|
    requires x == [] <==> y == []
    requires y != [] ==> y[0] == x[0] || y[0] == '?' || y[0] == '$'
    ensures k + StringTail((p + y)[k..], escapes) == |p|
  {
    assert (p + x)[k..] == p[k..] + x && (p + y)[k..] == p[k..] + y;
    StringTailStable(p[k..], x, y, escapes);
  }

  lemma {:induction false} RegionStable(p: string, x: string, y: string, after: bool, d: Dialect)
    requires p != [] && Skip(p + x, after, d) == |p|
    requires x == [] <==> y == []
    requires y != [] ==> y[0] == x[0] || y[0] == '?' || y[0] == '$'
    ensures Skip(p + y, after, d) == |p|
  {
    if p[0] == '\'' {
      LiteralStable(p, x, y, 1, d.BackslashEscapes());
    } else if p[0] == 'E' || p[0] == 'e' {
      LiteralStable(p, x, y, 2, true);
    } else if p[0] == '$' {
      DollarStable(p, x, y);
    } else if p[0] == '"' || p[0] == '`' {
      assert (p + x)[1..] == p[1..] + x && (p + y)[1..] == p[1..] + y;
      DelimitedTailStable(p[1..], x, y, p[0]);
    } else if p[0] == '#' {
      DelimitedTailStable(p, x, y, '\n');
    } else if p[0] == '-' {
      LineStable(p, x, y, d);
    } else {
      CommentStable(p, x, y, d);
    }
  }

  lemma {:induction false} LineLength(t: string)
    requires |t| >= 2 && t[0] == '-' && t[1] == '-'
    ensures DelimitedTail(t, '\n') >= 2
    ensures |t| > 2 ==> DelimitedTail(t, '\n') >= 3
  {
    assert DelimitedTail(t, '\n') == 1 + DelimitedTail(t[1..], '\n');
    assert t[1..][1..] == t[2..];
    assert DelimitedTail(t[1..], '\n') == 1 + DelimitedTail(t[2..], '\n');
  }

  /** What the rest of a statement is rewritten to. */
  function Out(t: string, after: bool, d: Dialect, style: Style, names: seq<string>): string {
    RenderAll(Tokens(t, after, d), style, names)
  }

  lemma {:induction false} OutStep(t: string, after: bool, d: Dialect, style: Style, names: seq<string>)
    requires t != []
    ensures var tok := NextToken(t, after, d);
      Out(t, after, d, style, names)
      == Render(tok, style, names) + Out(Rest(t, after, d), EndsInName(tok), d, style, names)
  {
  }

  /** The front of a rewritten text is the front of the original, but for a placeholder in place of a colon. */
  lemma {:induction false} OutHead(t: string, after: bool, d: Dialect, style: Style, names: seq<string>)
    ensures var u := Out(t, after, d, style, names);
      && (t == [] <==> u == [])
      && (t != [] ==>
            if NextToken(t, after, d).Param? then t[0] == ':' && u[0] == (if style.Question? then '?' else '$')
            else u[0] == t[0])
  {
  }

  predicate TagText(w: string) {
    forall k :: 0 <= k < |w| ==> IsNameChar(w[k]) || w[k] == '$'
  }

  /** With `?` placeholders, tag text that the rewritten statement begins with the original begins with too. */
  lemma {:induction false} TagPrefix(w: string, t: string, after: bool, d: Dialect, names: seq<string>)
    requires TagText(w) && w <= Out(t, after, d, Question, names)
    ensures w <= t
    decreases |t|
  {
    hide Tokens, RenderAll, NextToken, Out, Rest, Skip;
    if w != [] {
      OutHead(t, after, d, Question, names);
      OutStep(t, after, d, Question, names);
      var tok := NextToken(t, after, d);
      assert w[0] != '?';
      var n := |Text(tok)|;
      var r := Rest(t, after, d);
      if n < |w| {
        assert w[n..] <= Out(r, EndsInName(tok), d, Question, names);
        assert TagText(w[n..]);
        TagPrefix(w[n..], r, EndsInName(tok), d, names);
        assert w == w[..n] + w[n..];
      }
    }
  }

  lemma {:induction false} OccursBehind(p: string, x: string, tag: string, k: nat)
    requires k >= |p|
    ensures OccursAt(p + x, tag, k) == OccursAt(x, tag, k - |p|)
  {
  }

  /** A tag that begins inside `p` occurs whatever follows, as long as that begins with the tag's remainder. */
  lemma {:induction false} OccursAcross(p: string, x: string, y: string, tag: string, k: nat)
    requires k < |p| && OccursAt(p + y, tag, k)
    requires |tag| > |p| - k ==> tag[|p| - k..] <= x
    ensures OccursAt(p + x, tag, k)
    ensures |tag| > |p| - k ==> tag[|p| - k..] <= y
  {
  }

  /** With `?` placeholders, a tag in the rewritten statement is a tag of the original, no further left. */
  lemma {:induction false} TagOccurrence(tag: string, k: nat, t: string, after: bool, d: Dialect,
                                         names: seq<string>) returns (j: nat)
    requires tag != [] && TagText(tag) && OccursAt(Out(t, after, d, Question, names), tag, k)
    ensures k <= j && OccursAt(t, tag, j)
    decreases |t|
  {
    hide Tokens, RenderAll, NextToken, Out, Rest, Skip;
    var u := Out(t, after, d, Question, names);
    OutHead(t, after, d, Question, names);
    OutStep(t, after, d, Question, names);
    var tok := NextToken(t, after, d);
    var r, a := Rest(t, after, d), EndsInName(tok);
    var p, q := Text(tok), Render(tok, Question, names);
    var v := Out(r, a, d, Question, names);
    if k >= |q| {
      OccursBehind(q, v, tag, k);
      j := TagOccurrence(tag, k - |q|, r, a, d, names);
      OccursBehind(p, r, tag, |p| + j);
      j := |p| + j;
    } else {
      assert tag[0] == u[k..][0];
      assert p == q;
      j := k;
      hide Render, Text, TagText;
      if |tag| > |p| - k {
        TagAcross(tag, k, p, v);
        TagPrefix(tag[|p| - k..], r, a, d, names);
      }
      OccursAcross(p, r, v, tag, k);
    }
  }

  lemma {:induction false} TagAcross(tag: string, k: nat, p: string, v: string)
    requires k < |p| && OccursAt(p + v, tag, k) && |tag| > |p| - k && TagText(tag)
    ensures tag[|p| - k..] <= v && TagText(tag[|p| - k..])
  {
  }

  /** A tag opened by the `$` in front of `v`, and where its text ends. */
  lemma {:induction false} OpenedTag(v: string) returns (m: nat, k: nat)
    requires DollarLength("$" + v) > 0
    ensures m < |v| && m == NameRun(v) && v[m] == '$' && TagText(v[..m + 1])
    ensures k > m && OccursAt(v, "$" + v[..m + 1], k)
  {
    hide NameRun, IndexOf;
    m := TagOpened(v);
    hide TagLength;
    var u := "$" + v;
    assert u[..m + 2] == "$" + v[..m + 1] && u[m + 2..] == v[m + 1..];
    var i := IndexOf(u[m + 2..], u[..m + 2]);
    OccursLater(v, m + 1, u[..m + 2], i);
    k := m + 1 + i;
  }

  lemma TagOpened(v: string) returns (m: nat)
    requires TagLength("$" + v) > 0
    ensures m < |v| && m == NameRun(v) && v[m] == '$' && TagText(v[..m + 1]) && TagLength("$" + v) == m + 2
  {
    hide NameRun;
    var u := "$" + v;
    assert u[1..] == v;
    m := NameRun(v);
    assert v[m] == u[m + 1];
  }

  lemma OccursLater(v: string, n: nat, tag: string, i: nat)
    requires n <= |v| && OccursAt(v[n..], tag, i)
    ensures OccursAt(v, tag, n + i)
  {
  }

  lemma {:induction false} OpensTag(r: string, m: nat, k: nat)
    requires m < |r| && NameRun(r) == m && r[m] == '$' && k > m && OccursAt(r, "$" + r[..m + 1], k)
    requires IsNameStart(r[0]) || r[0] == '$'
    ensures DollarLength("$" + r) > 0
  {
    var t := "$" + r;
    assert t[1..] == r && t[..m + 2] == "$" + r[..m + 1];
    assert t[m + 2..][k - m - 1..] == r[k..];
    assert OccursAt(t[m + 2..], t[..m + 2], k - m - 1);
  }

  /** A `$` that opens no literal opens none after `?` placeholders are in place. */
  lemma {:induction false} BareDollarStays(r: string, d: Dialect, names: seq<string>)
    requires DollarLength("$" + r) == 0
    ensures DollarLength("$" + Out(r, false, d, Question, names)) == 0
  {
    hide Tokens, RenderAll, NextToken, Out, NameRun, IndexOf;
    var v := Out(r, false, d, Question, names);
    if DollarLength("$" + v) > 0 {
      var m, k := OpenedTag(v);
      var w := v[..m + 1];
      TagPrefix(w, r, false, d, names);
      assert forall i :: 0 <= i <= m ==> r[i] == w[i] && w[i] == v[i];
      NameRunUnique(r, m);
      assert TagText("$" + w) && r[..m + 1] == w;
      var j := TagOccurrence("$" + w, k, r, false, d, names);
      assert ("$" + v)[1] == v[0];
      OpensTag(r, m, j);
    }
  }

  /** A `$` in the code, followed by `r`, opens a literal once `r` has been rewritten. */
  predicate Opens(r: string, d: Dialect, style: Style, names: seq<string>) {
    d.DollarQuotes() && DollarLength("$" + Out(r, false, d, style, names)) > 0
  }

  /** No `$` in the code of `t` opens a literal in the rewritten text. */
  predicate NoneOpens(t: string, after: bool, d: Dialect, style: Style, names: seq<string>)
    decreases |t|
  {
    t == []
    || (var tok := NextToken(t, after, d);
        && (tok == Code('$') ==> !Opens(Rest(t, after, d), d, style, names))
        && NoneOpens(Rest(t, after, d), EndsInName(tok), d, style, names))
  }

  /** Code is still read as code once the text after it has been rewritten. */
  lemma {:induction false} CodeStays(t: string, after: bool, d: Dialect, style: Style, names: seq<string>)
    requires t != [] && NextToken(t, after, d).Code?
    requires t[0] == '$' ==> !Opens(t[1..], d, style, names)
    ensures var a := IsNameChar(t[0]);
      NextToken([t[0]] + Out(t[1..], a, d, style, names), after, d) == Code(t[0])
  {
    hide Tokens, RenderAll, Out;
    var r, a := t[1..], IsNameChar(t[0]);
    var v := Out(r, a, d, style, names);
    OutHead(r, a, d, style, names);
    assert t == [t[0]] + r;
    if t[0] == '$' && d.DollarQuotes() {
      assert Skip("$" + v, after, d) == 0;
    } else if t[0] == '-' && |t| > 1 && t[1] == '-' {
      DashStays(t, after, d, style, names);
    } else {
      CodeHead(t[0], r, v, after, d);
    }
  }

  /** Away from `$` and `--`, whether a character is code depends on the next character only. */
  lemma {:induction false} CodeHead(c: char, x: string, y: string, after: bool, d: Dialect)
    requires NextToken([c] + x, after, d).Code?
    requires x == [] <==> y == []
    requires y != [] ==> y[0] == x[0] || (x[0] == ':' && (y[0] == '?' || y[0] == '$'))
    requires !(c == '$' && d.DollarQuotes()) && !(c == '-' && x != [] && x[0] == '-')
    ensures NextToken([c] + y, after, d) == Code(c)
  {
  }

  lemma {:induction false} DashStays(t: string, after: bool, d: Dialect, style: Style, names: seq<string>)
    requires |t| > 1 && t[0] == '-' && t[1] == '-' && Skip(t, after, d) == 0
    ensures Skip("-" + Out(t[1..], false, d, style, names), after, d) == 0
  {
    hide Tokens, RenderAll, Out;
    LineLength(t);
    var r := t[1..];
    OutStep(r, false, d, style, names);
    var tok := NextToken(r, false, d);
    var r', a' := Rest(r, false, d), EndsInName(tok);
    OutHead(r', a', d, style, names);
    var u := "-" + Out(r, false, d, style, names);
    assert u[..2] == "--";
    assert tok.Region? || tok == Code('-');
    assert |u| > 2 && u[2] !in " \t\n\r" by {
      assert t[2] !in " \t\n\r" && r[1] == t[2];
      if tok.Region? {
        assert |tok.text| >= 2;
        assert u[2] == tok.text[1] == t[2];
      } else {
        assert r' == r[1..];
        assert u[2] == Out(r', a', d, style, names)[0];
      }
    }
  }

  lemma {:induction false} TokensStep(p: string, v: string, tok: Token, after: bool, d: Dialect)
    requires p != [] && NextToken(p + v, after, d) == tok && Text(tok) == p
    ensures Tokens(p + v, after, d) == [tok] + Tokens(v, EndsInName(tok), d)
  {
  }

  lemma {:induction false} AfterIrrelevant(t: string, d: Dialect)
    requires t == [] || !IsNameChar(t[0])
    ensures Tokens(t, true, d) == Tokens(t, false, d)
  {
    if t != [] {
      assert Skip(t, true, d) == Skip(t, false, d);
      assert NextToken(t, true, d) == NextToken(t, false, d);
    }
  }

  lemma {:induction false} PlainToken(c: char, v: string, after: bool, d: Dialect)
    requires IsDigit(c) || c == '?' || (c == '$' && v != [] && IsDigit(v[0]))
    ensures NextToken([c] + v, after, d) == Code(c)
  {
    hide NameRun, IndexOf, StringTail, BlockTail, DelimitedTail;
    var t := [c] + v;
    assert t[0] == c;
    if c == '$' { assert t[1] == v[0]; }
    assert Skip(t, after, d) == 0;
  }

  lemma {:induction false} PlainCode(c: char, v: string, after: bool, d: Dialect)
    requires IsDigit(c) || c == '?' || (c == '$' && v != [] && IsDigit(v[0]))
    ensures Tokens([c] + v, after, d) == [Code(c)] + Tokens(v, IsDigit(c), d)
  {
    PlainToken(c, v, after, d);
    TokensStep([c], v, Code(c), after, d);
    assert EndsInName(Code(c)) == IsDigit(c);
  }

  lemma {:induction false} CodeThen(c: char, s: string, rest: seq<Token>)
    ensures [Code(c)] + (CodeOf(s) + rest) == CodeOf([c] + s) + rest
  {
  }

  lemma {:induction false} DigitTokens(s: string, v: string, after: bool, d: Dialect)
    requires s != [] && forall k :: 0 <= k < |s| ==> IsDigit(s[k])
    ensures Tokens(s + v, after, d) == CodeOf(s) + Tokens(v, true, d)
    decreases |s|
  {
    var c, r := s[0], s[1..];
    assert s == [c] + r && s + v == [c] + (r + v);
    PlainCode(c, r + v, after, d);
    if r == [] {
      assert r + v == v && CodeOf(s) == [Code(c)];
    } else {
      DigitTokens(r, v, true, d);
      CodeThen(c, r, Tokens(v, true, d));
    }
  }

  /** A placeholder is read as plain code, whatever came before it. */
  lemma {:induction false} PlaceholderTokens(s: string, v: string, after: bool, d: Dialect, style: Style,
                                             name: string, names: seq<string>)
    requires s == Placeholder(style, name, names)
    requires v == [] || !IsNameChar(v[0])
    ensures Tokens(s + v, after, d) == CodeOf(s) + Tokens(v, true, d)
  {
    hide Tokens, NextToken, Decimal, Position;
    if style.Question? {
      PlainCode('?', v, after, d);
      AfterIrrelevant(v, d);
      assert CodeOf(s) == [Code('?')];
    } else {
      var digits := Decimal(1 + Position(names, name));
      assert s == ['$'] + digits && s + v == ['$'] + (digits + v);
      PlainCode('$', digits + v, after, d);
      DigitTokens(digits, v, false, d);
      CodeThen('$', digits, Tokens(v, true, d));
    }
  }

  lemma {:induction false} ParamRescans(t: string, after: bool, d: Dialect, style: Style, names: seq<string>)
    requires t != [] && NextToken(t, after, d).Param?
    ensures var tok := NextToken(t, after, d);
      var v := Out(Rest(t, after, d), EndsInName(tok), d, style, names);
      Tokens(Out(t, after, d, style, names), after, d)
      == CodeOf(Placeholder(style, tok.name, names)) + Tokens(v, EndsInName(tok), d)
  {
    var tok := NextToken(t, after, d);
    var r, a := Rest(t, after, d), EndsInName(tok);
    var n := NameRun(t[1..]);
    assert |tok.name| == n && a == IsNameChar(t[n]) && t[n] == t[1..][n - 1];
    assert r != [] ==> r[0] == t[1..][n];
    OutStep(t, after, d, style, names);
    OutHead(r, a, d, style, names);
    var v := Out(r, a, d, style, names);
    PlaceholderTokens(Placeholder(style, tok.name, names), v, after, d, style, tok.name, names);
  }

  /**
   Read again, a rewritten statement divides as the original did, its placeholders being plain code, exactly when
   no `$` that the author wrote opens a literal together with them.
   */
  lemma {:induction false} RescanTokens(t: string, after: bool, d: Dialect, style: Style, names: seq<string>)
    ensures Tokens(Out(t, after, d, style, names), after, d) == Rescan(Tokens(t, after, d), style, names)
            <==> NoneOpens(t, after, d, style, names)
    decreases |t|
  {
    if t != [] {
      hide Tokens, NextToken, Out, Opens, Skip, Placeholder, CodeOf, NoneOpens;
      var tok := NextToken(t, after, d);
      var r, a := Rest(t, after, d), EndsInName(tok);
      var rest := Tokens(r, a, d);
      TokensFront(t, after, d);
      NoneOpensStep(t, after, d, style, names);
      RescanTokens(r, a, d, style, names);
      assert ([tok] + rest)[1..] == rest;
      if tok.Param? {
        ParamRescans(t, after, d, style, names);
        SameTail(CodeOf(Placeholder(style, tok.name, names)), Tokens(Out(r, a, d, style, names), a, d),
                 Rescan(rest, style, names));
      } else if tok == Code('$') && Opens(r, d, style, names) {
        OpeningTokens(t, after, d, style, names);
      } else {
        VerbatimTokens(t, after, d, style, names);
        SameTail([tok], Tokens(Out(r, a, d, style, names), a, d), Rescan(rest, style, names));
      }
    }
  }

  lemma TokensFront(t: string, after: bool, d: Dialect)
    requires t != []
    ensures var tok := NextToken(t, after, d);
      Tokens(t, after, d) == [tok] + Tokens(Rest(t, after, d), EndsInName(tok), d)
  {
  }

  lemma NoneOpensStep(t: string, after: bool, d: Dialect, style: Style, names: seq<string>)
    requires t != []
    ensures var tok := NextToken(t, after, d);
      NoneOpens(t, after, d, style, names) <==>
        && !(tok == Code('$') && Opens(Rest(t, after, d), d, style, names))
        && NoneOpens(Rest(t, after, d), EndsInName(tok), d, style, names)
  {
  }

  lemma SameTail<T>(front: seq<T>, x: seq<T>, y: seq<T>)
    ensures front + x == front + y <==> x == y
  {
    assert (front + x)[|front|..] == x && (front + y)[|front|..] == y;
  }

  lemma VerbatimTokens(t: string, after: bool, d: Dialect, style: Style, names: seq<string>)
    requires t != [] && !NextToken(t, after, d).Param?
    requires NextToken(t, after, d) == Code('$') ==> !Opens(Rest(t, after, d), d, style, names)
    ensures var tok := NextToken(t, after, d);
      var r, a := Rest(t, after, d), EndsInName(tok);
      Tokens(Out(t, after, d, style, names), after, d) == [tok] + Tokens(Out(r, a, d, style, names), a, d)
  {
    hide Tokens, NextToken, Out, Opens;
    var tok := NextToken(t, after, d);
    OutStep(t, after, d, style, names);
    VerbatimStays(t, after, d, style, names);
    TokensStep(Text(tok), Out(Rest(t, after, d), EndsInName(tok), d, style, names), tok, after, d);
  }

  /** A `$` that opens is read as the literal it opens. */
  lemma OpeningTokens(t: string, after: bool, d: Dialect, style: Style, names: seq<string>)
    requires t != []
    ensures NextToken(t, after, d) == Code('$') && Opens(Rest(t, after, d), d, style, names) ==>
      var again := Tokens(Out(t, after, d, style, names), after, d);
      again != [] && again[0].Region? && |again[0].text| > 1
  {
    var r := Rest(t, after, d);
    if NextToken(t, after, d) == Code('$') && Opens(r, d, style, names) {
      assert t[0] == '$' && t == "$" + r;
      OutStep(t, after, d, style, names);
      var u := "$" + Out(r, false, d, style, names);
      assert Out(t, after, d, style, names) == u;
      OpenedIsLong(u);
      assert Skip(u, after, d) == DollarLength(u);
    }
  }

  lemma OpenedIsLong(u: string)
    requires u != [] && u[0] == '$'
    ensures DollarLength(u) > 0 ==> DollarLength(u) > 1
  {
  }

  lemma {:induction false} VerbatimStays(t: string, after: bool, d: Dialect, style: Style, names: seq<string>)
    requires t != [] && !NextToken(t, after, d).Param?
    requires NextToken(t, after, d) == Code('$') ==> !Opens(Rest(t, after, d), d, style, names)
    ensures var tok := NextToken(t, after, d);
      NextToken(Text(tok) + Out(Rest(t, after, d), EndsInName(tok), d, style, names), after, d) == tok
  {
    hide Tokens, RenderAll, Out, Opens;
    var tok := NextToken(t, after, d);
    var r, a := Rest(t, after, d), EndsInName(tok);
    var v := Out(r, a, d, style, names);
    match tok
    case Region(p) =>
      OutHead(r, a, d, style, names);
      RegionStable(p, r, v, after, d);
      assert (p + v)[..|p|] == p;
    case Cast =>
    case Code(c) => CodeStays(t, after, d, style, names);
  }

  /**
   With `?` placeholders no `$` ever opens; with numbered ones none does where there are no dollar quotes or no `$`.
   */
  lemma {:induction false} NothingOpens(t: string, after: bool, d: Dialect, style: Style, names: seq<string>)
    requires style.Question? || !d.DollarQuotes() || !BareDollar(Tokens(t, after, d))
    ensures NoneOpens(t, after, d, style, names)
    decreases |t|
  {
    if t != [] {
      var tok := NextToken(t, after, d);
      var r, a := Rest(t, after, d), EndsInName(tok);
      assert Tokens(t, after, d) == [tok] + Tokens(r, a, d);
      NothingOpens(r, a, d, style, names);
      if tok == Code('$') && d.DollarQuotes() && style.Question? {
        assert t == "$" + r;
        BareDollarStays(r, d, names);
      }
    }
  }

  // Idempotence.

  lemma {:induction false} RescanHasNoParams(toks: seq<Token>, style: Style, names: seq<string>)
    ensures forall tok :: tok in Rescan(toks, style, names) ==> !tok.Param?
  {
    if toks != [] { RescanHasNoParams(toks[1..], style, names); }
  }

  lemma {:induction false} NoParams(toks: seq<Token>, style: Style, names: seq<string>)
    requires forall tok :: tok in toks ==> !tok.Param?
    ensures ParamNames(toks) == [] && RenderAll(toks, style, names) == SourceOf(toks)
  {
    if toks != [] { NoParams(toks[1..], style, names); }
  }

  function SourceOf(toks: seq<Token>): string {
    if toks == [] then "" else Text(toks[0]) + SourceOf(toks[1..])
  }

  /** Nothing of a statement is lost or moved by dividing it into tokens. */
  lemma {:induction false} TokensCover(t: string, after: bool, d: Dialect)
    ensures SourceOf(Tokens(t, after, d)) == t
    decreases |t|
  {
    if t != [] {
      var tok := NextToken(t, after, d);
      TokensCover(Rest(t, after, d), EndsInName(tok), d);
      assert Tokens(t, after, d)[1..] == Tokens(Rest(t, after, d), EndsInName(tok), d);
    }
  }

  /** Rewriting a rewritten statement changes nothing and finds no parameter, as long as no `$` opens a literal. */
  lemma {:induction false} RewriteIdempotent(stmt: string, d: Dialect, style: Style)
    requires NoneOpens(stmt, false, d, style, DriverNames(StatementTokens(stmt, d), style))
    ensures var once := Rewritten(stmt, d, style);
      Rewritten(once, d, style) == once && DriverNames(StatementTokens(once, d), style) == []
  {
    var toks := StatementTokens(stmt, d);
    var names := DriverNames(toks, style);
    var once := Rewritten(stmt, d, style);
    var again := StatementTokens(once, d);
    RescanTokens(stmt, false, d, style, names);
    RescanHasNoParams(toks, style, names);
    NoParams(again, style, []);
    TokensCover(once, false, d);
  }

  /** A second rewriting leaves the text alone exactly when it finds no parameter. */
  lemma UnchangedWithoutNames(stmt: string, d: Dialect, style: Style)
    ensures Rewritten(stmt, d, style) == stmt <==> ParamNames(StatementTokens(stmt, d)) == []
  {
    var toks := StatementTokens(stmt, d);
    TokensCover(stmt, false, d);
    RenderDiffers(toks, style, DriverNames(toks, style));
  }

  lemma {:induction false} RenderDiffers(toks: seq<Token>, style: Style, names: seq<string>)
    ensures RenderAll(toks, style, names) == SourceOf(toks) <==> ParamNames(toks) == []
  {
    if toks != [] {
      RenderDiffers(toks[1..], style, names);
      hide Decimal, Position;
      if toks[0].Param? {
        assert RenderAll(toks, style, names)[0] != ':' && SourceOf(toks)[0] == ':';
      } else {
        SameTail(Text(toks[0]), RenderAll(toks[1..], style, names), SourceOf(toks[1..]));
      }
    }
  }
}
