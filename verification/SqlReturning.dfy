/**
 The second reader of a statement, which looks for the word RETURNING, and exactly when it agrees with the
 rewriter about what is code.
 */
module SqlReturning {
  import opened SqlLexer
  import opened SqlRewrite

  /** The half-open range of one skipped region. */
  datatype Span = Span(start: nat, end: nat)

  /** The regions the rewriter copies across untouched. */
  function RewriteSpans(toks: seq<Token>, at: nat): seq<Span> {
    if toks == [] then []
    else
      var next := at + |Text(toks[0])|;
      (if toks[0].Region? then [Span(at, next)] else []) + RewriteSpans(toks[1..], next)
  }

  /** What the word scan does at the front of `t`: the length it takes, and whether that is a region or a word. */
  function WordStep(t: string, after: bool, d: Dialect): (step: (nat, bool, bool))
    requires t != []
    ensures 0 < step.0 <= |t|
  {
    var n := Skip(t, after, d);
    if n > 0 then (n, true, false)
    else if !IsNameStart(t[0]) then (1, false, false)
    else (NameRun(t), false, true)
  }

  /** The regions the word scan steps over. */
  function WordSpans(t: string, after: bool, d: Dialect, at: nat): seq<Span>
    decreases |t|
  {
    if t == [] then []
    else
      var (n, region, word) := WordStep(t, after, d);
      (if region then [Span(at, at + n)] else []) + WordSpans(t[n..], IsNameChar(t[n - 1]), d, at + n)
  }

  /** The words of the statement's code. */
  function Words(t: string, after: bool, d: Dialect): seq<string>
    decreases |t|
  {
    if t == [] then []
    else
      var (n, region, word) := WordStep(t, after, d);
      (if word then [t[..n]] else []) + Words(t[n..], IsNameChar(t[n - 1]), d)
  }

  function Lower(c: char): char {
    if 'A' <= c <= 'Z' then (c as int + 32) as char else c
  }

  predicate EqualFold(s: string, lower: string) {
    |s| == |lower| && forall k :: 0 <= k < |s| ==> Lower(s[k]) == lower[k]
  }

  predicate Returning(words: seq<string>) {
    exists k :: 0 <= k < |words| && EqualFold(words[k], "returning")
  }

  /** Each letter small or capital. */
  predicate SpellsReturning(w: string) {
    |w| == 9 && forall k :: 0 <= k < 9 ==> w[k] == "returning"[k] || w[k] == "RETURNING"[k]
  }

  lemma FoldsAsSpelled(w: string)
    ensures EqualFold(w, "returning") <==> SpellsReturning(w)
  {
    var small, capital := "returning", "RETURNING";
    assert forall k :: 0 <= k < 9 ==> capital[k] as int + 32 == small[k] as int && 'A' <= capital[k] <= 'Z';
    assert forall k :: 0 <= k < 9 ==> 'a' <= small[k] <= 'z';
    if |w| == 9 {
      forall k | 0 <= k < 9 ensures Lower(w[k]) == small[k] <==> w[k] == small[k] || w[k] == capital[k] {
        LowerOf(w[k], small[k], capital[k]);
      }
    }
  }

  lemma LowerOf(c: char, small: char, capital: char)
    requires 'a' <= small <= 'z' && 'A' <= capital <= 'Z' && capital as int + 32 == small as int
    ensures Lower(c) == small <==> c == small || c == capital
  {
  }

  lemma FoundAsSpelled(words: seq<string>)
    ensures Returning(words) <==> exists w :: w in words && SpellsReturning(w)
  {
    hide EqualFold, SpellsReturning;
    forall w ensures EqualFold(w, "returning") <==> SpellsReturning(w) { FoldsAsSpelled(w); }
    if k :| 0 <= k < |words| && EqualFold(words[k], "returning") { assert words[k] in words; }
  }

  /** A parameter named e or E that a literal follows directly: read as a word, it is an escape prefix. */
  predicate EscapedParam(toks: seq<Token>) {
    |toks| > 1 && (EscapePair(toks[0], toks[1]) || EscapedParam(toks[1..]))
  }

  predicate EscapePair(tok: Token, next: Token) {
    tok.Param? && (tok.name == "e" || tok.name == "E") && next.Region? && |next.text| > 0 && next.text[0] == '\''
  }

  // What one token adds for the rewriter, and one step for the word scan.

  lemma {:induction false} TokenAdds(tok: Token, rest: seq<Token>, at: nat)
    ensures RewriteSpans([tok] + rest, at)
            == if tok.Region? then [Span(at, at + |tok.text|)] + RewriteSpans(rest, at + |tok.text|)
               else RewriteSpans(rest, at + |Text(tok)|)
    ensures EscapedParam([tok] + rest) <==> (rest != [] && EscapePair(tok, rest[0])) || EscapedParam(rest)
  {
  }

  lemma {:induction false} StepAdds(t: string, after: bool, d: Dialect, at: nat, n: nat, region: bool)
    requires t != [] && WordStep(t, after, d).0 == n && WordStep(t, after, d).1 == region
    ensures WordSpans(t, after, d, at)
            == if region then [Span(at, at + n)] + WordSpans(t[n..], IsNameChar(t[n - 1]), d, at + n)
               else WordSpans(t[n..], IsNameChar(t[n - 1]), d, at + n)
  {
    hide Skip, WordStep;
    var rest := WordSpans(t[n..], IsNameChar(t[n - 1]), d, at + n);
    assert [] + rest == rest;
  }

  lemma {:induction false} SameFront(front: Span, x: seq<Span>, y: seq<Span>)
    ensures [front] + x == [front] + y <==> x == y
  {
    assert ([front] + x)[1..] == x && ([front] + y)[1..] == y;
  }

  lemma {:induction false} NameCharIsCode(t: string, d: Dialect)
    requires t != [] && IsNameChar(t[0])
    ensures Skip(t, true, d) == 0
  {
  }

  lemma {:induction false} ColonIsCode(t: string, after: bool, d: Dialect)
    requires t != [] && t[0] == ':'
    ensures Skip(t, after, d) == 0
  {
  }

  /** A name begins a region only as the prefix of an escape string. */
  lemma {:induction false} EscapePrefix(r: string, d: Dialect)
    requires r != [] && IsNameStart(r[0])
    ensures Skip(r, false, d) > 0 <==>
      d.EscapeStrings() && (r[0] == 'e' || r[0] == 'E') && |r| > 1 && r[1] == '\''
  {
  }

  /** The two readers skip the same regions of `t` just when no escaped parameter stands in it. */
  ghost predicate AgreeWhen(toks: seq<Token>, t: string, after: bool, d: Dialect, at: nat) {
    RewriteSpans(toks, at) == WordSpans(t, after, d, at) <==> !(d.EscapeStrings() && EscapedParam(toks))
  }

  lemma {:induction false} RunOfCode(s: string, t: string, after: bool, d: Dialect, at: nat)
    requires s != [] && forall k :: 0 <= k < |s| ==> IsNameChar(s[k])
    requires Skip(s + t, after, d) == 0
    ensures RewriteSpans(Tokens(s + t, after, d), at) == RewriteSpans(Tokens(t, true, d), at + |s|)
    ensures EscapedParam(Tokens(s + t, after, d)) <==> EscapedParam(Tokens(t, true, d))
    decreases |s|
  {
    hide Skip, Tokens, RewriteSpans, EscapedParam;
    var c, r := s[0], s[1..];
    var t' := r + t;
    assert s + t == [c] + t';
    TokensStep([c], t', Code(c), after, d);
    TokenAdds(Code(c), Tokens(t', true, d), at);
    if r == [] {
      assert t' == t;
    } else {
      NameCharIsCode(t', d);
      RunOfCode(r, t, true, d, at + 1);
    }
  }

  lemma {:induction false} PastWord(t: string, after: bool, d: Dialect, at: nat, n: nat)
    requires t != [] && Skip(t, after, d) == 0 && IsNameStart(t[0]) && n == NameRun(t)
    requires AgreeWhen(Tokens(t[n..], true, d), t[n..], true, d, at + n)
    ensures AgreeWhen(Tokens(t, after, d), t, after, d, at)
  {
    hide Skip, Tokens, RewriteSpans, EscapedParam, WordSpans;
    assert t[..n] + t[n..] == t;
    RunOfCode(t[..n], t[n..], after, d, at);
    StepAdds(t, after, d, at, n, false);
  }

  /** Regions, and code that begins no word. */
  lemma {:induction false} PastToken(t: string, after: bool, d: Dialect, at: nat, tok: Token, n: nat)
    requires t != [] && NextToken(t, after, d) == tok && n == |Text(tok)| && (tok.Region? || tok.Code?)
    requires tok.Code? ==> !IsNameStart(t[0])
    requires AgreeWhen(Tokens(t[n..], IsNameChar(t[n - 1]), d), t[n..], IsNameChar(t[n - 1]), d, at + n)
    ensures AgreeWhen(Tokens(t, after, d), t, after, d, at)
  {
    hide Skip, Tokens, RewriteSpans, EscapedParam, WordSpans;
    assert t == Text(tok) + t[n..];
    assert EndsInName(tok) == IsNameChar(t[n - 1]);
    TokensStep(Text(tok), t[n..], tok, after, d);
    TokenAdds(tok, Tokens(t[n..], IsNameChar(t[n - 1]), d), at);
    StepAdds(t, after, d, at, n, tok.Region?);
    SameFront(Span(at, at + n), RewriteSpans(Tokens(t[n..], IsNameChar(t[n - 1]), d), at + n),
              WordSpans(t[n..], IsNameChar(t[n - 1]), d, at + n));
  }

  lemma {:induction false} PastCast(t: string, after: bool, d: Dialect, at: nat)
    requires |t| > 1 && t[0] == ':' && t[1] == ':'
    requires AgreeWhen(Tokens(t[2..], false, d), t[2..], false, d, at + 2)
    ensures AgreeWhen(Tokens(t, after, d), t, after, d, at)
  {
    hide Skip, Tokens, RewriteSpans, EscapedParam, WordSpans;
    ColonIsCode(t, after, d);
    ColonIsCode(t[1..], false, d);
    assert t == "::" + t[2..];
    TokensStep("::", t[2..], Cast, after, d);
    TokenAdds(Cast, Tokens(t[2..], false, d), at);
    StepAdds(t, after, d, at, 1, false);
    StepAdds(t[1..], false, d, at + 1, 1, false);
    assert t[1..][1..] == t[2..];
  }

  lemma {:induction false} ParamTokens(t: string, after: bool, d: Dialect, r: string, n: nat)
    requires |t| > 1 && t[0] == ':' && r == t[1..] && IsNameStart(r[0]) && n == NameRun(r)
    ensures n > 0 && Tokens(t, after, d) == [Param(r[..n])] + Tokens(r[n..], true, d)
  {
    hide Skip, Tokens;
    ColonIsCode(t, after, d);
    var tok := Param(r[..n]);
    assert t == Text(tok) + r[n..];
    assert Text(tok)[n] == r[n - 1];
    TokensStep(Text(tok), r[n..], tok, after, d);
  }

  /** The token after a parameter begins where the name ends. */
  lemma {:induction false} NextIsLiteral(r: string, d: Dialect)
    requires r != []
    ensures var toks := Tokens(r, true, d); toks != [] && Text(toks[0]) != [] && Text(toks[0])[0] == r[0]
    ensures r[0] == '\'' ==> Tokens(r, true, d)[0].Region?
  {
  }

  /** Past a parameter the readers stay together unless its name is read as the prefix of a literal. */
  lemma {:induction false} PastParam(t: string, after: bool, d: Dialect, at: nat, r: string, n: nat)
    requires |t| > 1 && t[0] == ':' && r == t[1..] && IsNameStart(r[0]) && n == NameRun(r)
    requires Skip(r, false, d) == 0
    requires AgreeWhen(Tokens(r[n..], true, d), r[n..], true, d, at + 1 + n)
    ensures AgreeWhen(Tokens(t, after, d), t, after, d, at)
  {
    hide Skip, Tokens, RewriteSpans, EscapedParam, WordSpans;
    ColonIsCode(t, after, d);
    ParamTokens(t, after, d, r, n);
    var tok, rest := Param(r[..n]), Tokens(r[n..], true, d);
    TokenAdds(tok, rest, at);
    StepAdds(t, after, d, at, 1, false);
    StepAdds(r, false, d, at + 1, n, false);
    if d.EscapeStrings() && rest != [] && EscapePair(tok, rest[0]) {
      assert n == 1 && r[..n][0] == r[0];
      if r[n..] != [] {
        NextIsLiteral(r[n..], d);
      } else {
        assert Tokens([], true, d) == [] by { EmptyAgrees(true, d, at); }
      }
      EscapePrefix(r, d);
    }
  }

  lemma {:induction false} EmptyAgrees(after: bool, d: Dialect, at: nat)
    ensures Tokens([], after, d) == []
    ensures AgreeWhen(Tokens([], after, d), [], after, d, at)
  {
  }

  lemma FirstSpan(toks: seq<Token>, at: nat)
    requires toks != [] && toks[0].Region?
    ensures RewriteSpans(toks, at) != [] && RewriteSpans(toks, at)[0].start == at
  {
  }

  lemma {:induction false} PartAtParam(t: string, after: bool, d: Dialect, at: nat, r: string)
    requires |t| > 1 && t[0] == ':' && r == t[1..] && IsNameStart(r[0]) && Skip(r, false, d) > 0
    ensures AgreeWhen(Tokens(t, after, d), t, after, d, at)
  {
    hide Skip, Tokens, WordSpans, NameRun, NextToken, RewriteSpans;
    ColonIsCode(t, after, d);
    EscapePrefix(r, d);
    NameRunUnique(r, 1);
    ParamTokens(t, after, d, r, 1);
    var tok, rest := Param(r[..1]), Tokens(r[1..], true, d);
    assert r[1..][0] == '\'';
    NextIsLiteral(r[1..], d);
    assert tok.name == "e" || tok.name == "E";
    TokenAdds(tok, rest, at);
    FirstSpan(rest, at + 2);
    StepAdds(t, after, d, at, 1, false);
    StepAdds(r, false, d, at + 1, Skip(r, false, d), true);
    assert WordSpans(t, after, d, at)[0].start == at + 1;
    assert EscapePair(tok, rest[0]);
  }

  /**
   The two readers skip exactly the same regions of a statement, unless the dialect has escape strings and
   a parameter named e or E is directly followed by a literal; then they never do.
   */
  lemma {:induction false} ReadersAgree(t: string, after: bool, d: Dialect, at: nat)
    ensures RewriteSpans(Tokens(t, after, d), at) == WordSpans(t, after, d, at)
            <==> !(d.EscapeStrings() && EscapedParam(Tokens(t, after, d)))
    decreases |t|
  {
    hide Skip, Tokens, RewriteSpans, EscapedParam, WordSpans, NameRun;
    if t == [] {
      EmptyAgrees(after, d, at);
    } else {
      var tok := NextToken(t, after, d);
      var n := |Text(tok)|;
      if tok.Cast? {
        ReadersAgree(t[2..], false, d, at + 2);
        PastCast(t, after, d, at);
      } else if tok.Param? {
        var r := t[1..];
        if Skip(r, false, d) > 0 {
          PartAtParam(t, after, d, at, r);
        } else {
          ReadersAgree(r[NameRun(r)..], true, d, at + 1 + NameRun(r));
          PastParam(t, after, d, at, r, NameRun(r));
        }
      } else if tok.Code? && IsNameStart(t[0]) {
        ReadersAgree(t[NameRun(t)..], true, d, at + NameRun(t));
        PastWord(t, after, d, at, NameRun(t));
      } else {
        ReadersAgree(t[n..], IsNameChar(t[n - 1]), d, at + n);
        PastToken(t, after, d, at, tok, n);
      }
    }
  }

  /** `HasReturning`: some word of the code is RETURNING, in any case. */
  method HasReturning(stmt: string, driver: string) returns (found: bool)
    ensures found <==> Returning(Words(stmt, false, DialectFor(driver)))
    ensures found <==> exists w :: w in Words(stmt, false, DialectFor(driver)) && SpellsReturning(w)
  {
    FoundAsSpelled(Words(stmt, false, DialectFor(driver)));
    hide Skip, NameRun, Words, Returning, EqualFold;
    var d := DialectFor(driver);
    var i := 0;
    assert stmt[0..] == stmt;
    NoWords(d);
    while i < |stmt|
      invariant i <= |stmt|
      invariant Returning(Words(stmt, false, d)) <==> Returning(Words(stmt[i..], NameBefore(stmt, i), d))
    {
      ghost var t, after := stmt[i..], NameBefore(stmt, i);
      var end, ok := SkipNonCode(stmt, i, d);
      if ok {
        WordsStep(stmt, i, d, end);
        i := end;
      } else if !IsNameStart(stmt[i]) {
        WordsStep(stmt, i, d, i + 1);
        i := i + 1;
      } else {
        var j := EndOfName(stmt, i);
        WordsStep(stmt, i, d, j);
        if EqualFold(stmt[i..j], "returning") { return true; }
        i := j;
      }
    }
    assert stmt[i..] == [];
    return false;
  }

  lemma NoWords(d: Dialect)
    ensures forall after :: !Returning(Words([], after, d))
  {
  }

  lemma {:induction false} WordsStep(stmt: string, i: nat, d: Dialect, j: nat)
    requires i < |stmt| && j == i + WordStep(stmt[i..], NameBefore(stmt, i), d).0
    ensures j <= |stmt|
    ensures var after := NameBefore(stmt, i);
      Returning(Words(stmt[i..], after, d)) <==>
      (WordStep(stmt[i..], after, d).2 && EqualFold(stmt[i..j], "returning"))
      || Returning(Words(stmt[j..], NameBefore(stmt, j), d))
  {
    hide WordStep, EqualFold, Returning;
    var t, after := stmt[i..], NameBefore(stmt, i);
    var n := j - i;
    assert t[n..] == stmt[j..] && t[n - 1] == stmt[j - 1] && t[..n] == stmt[i..j];
    var rest := Words(t[n..], IsNameChar(t[n - 1]), d);
    ReturningOr(t[..n], rest);
    assert [] + rest == rest;
  }

  lemma {:induction false} ReturningOr(w: string, words: seq<string>)
    ensures Returning([w] + words) <==> EqualFold(w, "returning") || Returning(words)
  {
    var all := [w] + words;
    assert all[0] == w && forall k :: 0 <= k < |words| ==> all[k + 1] == words[k];
    if k :| 0 <= k < |words| && EqualFold(words[k], "returning") {
      assert EqualFold(all[k + 1], "returning");
    }
  }
}
