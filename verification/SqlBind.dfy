/**
 The rewriter's loop, the binding of values to what it emitted, and what a driver makes of the two.
 */
module SqlBind {
  import opened Decimals
  import opened Results
  import opened SqlLexer
  import opened SqlRewrite

  // Names in the order of their first appearance.

  lemma {:induction false} FirstSeenPrefix(seen: seq<string>, all: seq<string>)
    ensures seen <= FirstSeen(seen, all)
    decreases |all|
  {
    if all != [] { FirstSeenPrefix(if all[0] in seen then seen else seen + [all[0]], all[1..]); }
  }

  lemma {:induction false} PositionInPrefix(p: seq<string>, names: seq<string>, name: string)
    requires p <= names && name in p
    ensures Position(names, name) == Position(p, name)
  {
    if p[0] != name { PositionInPrefix(p[1..], names[1..], name); }
  }

  ghost predicate Distinct(names: seq<string>) {
    forall i, j :: 0 <= i < j < |names| ==> names[i] != names[j]
  }

  /** Each name once, none invented, none lost. */
  lemma {:induction false} FirstSeenOnce(seen: seq<string>, all: seq<string>)
    requires Distinct(seen)
    ensures Distinct(FirstSeen(seen, all))
    ensures forall n :: n in FirstSeen(seen, all) <==> n in seen || n in all
    decreases |all|
  {
    if all != [] {
      var next := if all[0] in seen then seen else seen + [all[0]];
      FirstSeenOnce(next, all[1..]);
      assert forall n :: n in all <==> n == all[0] || n in all[1..];
    }
  }

  lemma {:induction false} RenderAppend(toks: seq<Token>, tok: Token, style: Style, names: seq<string>)
    ensures RenderAll(toks + [tok], style, names) == RenderAll(toks, style, names) + Render(tok, style, names)
  {
    hide Render;
    if toks == [] {
      assert toks + [tok] == [tok];
    } else {
      assert (toks + [tok])[1..] == toks[1..] + [tok];
      RenderAppend(toks[1..], tok, style, names);
    }
  }

  /** What is left of a statement after its front token, as the loop sees it. */
  lemma {:induction false} StepAt(stmt: string, i: nat, d: Dialect, tok: Token, j: nat)
    requires i < |stmt| && tok == NextToken(stmt[i..], NameBefore(stmt, i), d) && j == i + |Text(tok)|
    ensures j <= |stmt| && stmt[i..j] == Text(tok)
    ensures Tokens(stmt[i..], NameBefore(stmt, i), d) == [tok] + Tokens(stmt[j..], NameBefore(stmt, j), d)
  {
    hide Tokens, NextToken, Skip;
    SplitAt(stmt, i, Text(tok));
    TokensStep(Text(tok), stmt[j..], tok, NameBefore(stmt, i), d);
    assert EndsInName(tok) == NameBefore(stmt, j);
  }

  lemma {:induction false} SplitAt(stmt: string, i: nat, p: string)
    requires i < |stmt| && p != [] && p <= stmt[i..]
    ensures i + |p| <= |stmt| && stmt[i..i + |p|] == p && stmt[i..] == p + stmt[i + |p|..]
    ensures stmt[i + |p| - 1] == p[|p| - 1]
  {
  }

  lemma {:induction false} TokenKinds(stmt: string, i: nat, d: Dialect, n: nat)
    requires i < |stmt| && n == Skip(stmt[i..], NameBefore(stmt, i), d)
    ensures var tok := NextToken(stmt[i..], NameBefore(stmt, i), d);
      tok == if n > 0 then Region(stmt[i..i + n])
             else if stmt[i] == ':' && i + 1 < |stmt| && stmt[i + 1] == ':' then Cast
             else if stmt[i] == ':' && i + 1 < |stmt| && IsNameStart(stmt[i + 1]) then
               Param(stmt[i + 1..i + 1 + NameRun(stmt[i + 1..])])
             else Code(stmt[i])
  {
  }

  /** The rewriter's branches at position `i`: what stands there, and where it ends. */
  method ReadToken(stmt: string, i: nat, d: Dialect) returns (tok: Token, j: nat)
    requires i < |stmt|
    ensures j == i + |Text(tok)| && i < j <= |stmt|
    ensures Tokens(stmt[i..], NameBefore(stmt, i), d) == [tok] + Tokens(stmt[j..], NameBefore(stmt, j), d)
  {
    hide Tokens, NextToken, Skip, NameRun;
    var end, ok := SkipNonCode(stmt, i, d);
    TokenKinds(stmt, i, d, Skip(stmt[i..], NameBefore(stmt, i), d));
    if ok {
      tok, j := Region(stmt[i..end]), end;
    } else if stmt[i] == ':' && i + 1 < |stmt| && stmt[i + 1] == ':' {
      tok, j := Cast, i + 2;
    } else if stmt[i] == ':' && i + 1 < |stmt| && IsNameStart(stmt[i + 1]) {
      j := EndOfName(stmt, i + 1);
      tok := Param(stmt[i + 1..j]);
    } else {
      tok, j := Code(stmt[i]), i + 1;
    }
    StepAt(stmt, i, d, tok, j);
  }

  /** The names after `names` once `more` parameters have been met. */
  function Extend(style: Style, names: seq<string>, more: seq<string>): seq<string> {
    if style.Question? then names + more else FirstSeen(names, more)
  }

  /** The rewriter's index agrees with the names it has collected. */
  ghost predicate Indexed(style: Style, names: seq<string>, index: map<string, nat>, nextId: nat) {
    style.Dollar? ==>
      && nextId == |names| + 1
      && (forall n :: n in index <==> n in names)
      && forall n :: n in index ==> index[n] == 1 + Position(names, n)
  }

  /** The placeholder for one parameter, when `later` are the parameters still to come. */
  method Emit(style: Style, name: string, names: seq<string>, index: map<string, nat>, nextId: nat,
              ghost later: seq<string>)
    returns (text: string, names': seq<string>, index': map<string, nat>, nextId': nat)
    requires Indexed(style, names, index, nextId)
    ensures Indexed(style, names', index', nextId')
    ensures Extend(style, names', later) == Extend(style, names, [name] + later)
    ensures text == Placeholder(style, name, Extend(style, names', later))
  {
    names', index', nextId' := names, index, nextId;
    assert ([name] + later)[1..] == later;
    if style.Dollar? {
      var pos := nextId;
      if name in index {
        pos := index[name];
      } else {
        AppendPositions(names, name);
        index' := index[name := pos];
        nextId' := nextId + 1;
        names' := names + [name];
      }
      FirstSeenPrefix(names', later);
      PositionInPrefix(names', FirstSeen(names', later), name);
      text := "$" + Decimal(pos);
    } else {
      text := "?";
      names' := names + [name];
      assert names' + later == names + ([name] + later);
    }
  }

  lemma {:induction false} Consumed(done: seq<Token>, tok: Token, rest: seq<Token>, style: Style,
                                    all: seq<string>)
    ensures done + ([tok] + rest) == (done + [tok]) + rest
    ensures RenderAll(done + [tok], style, all) == RenderAll(done, style, all) + Render(tok, style, all)
    ensures ParamNames([tok] + rest) == if tok.Param? then [tok.name] + ParamNames(rest) else ParamNames(rest)
  {
    hide RenderAll, Render, Text;
    RenderAppend(done, tok, style, all);
    assert ([tok] + rest)[1..] == rest;
  }

  /** `Rewrite`: an unknown driver is refused, and otherwise text and names are those of the tokens. */
  method Rewrite(stmt: string, driver: string, drivers: map<string, Style>)
    returns (r: Result<(string, seq<string>), string>)
    ensures driver !in drivers ==> r == Err(driver)
    ensures driver in drivers ==>
      var d, style := DialectFor(driver), drivers[driver];
      r == Ok((Rewritten(stmt, d, style), DriverNames(StatementTokens(stmt, d), style)))
  {
    if driver !in drivers { return Err(driver); }
    var style := drivers[driver];
    var d := DialectFor(driver);
    var out, names: seq<string>, index: map<string, nat>, nextId: nat := "", [], map[], 1;
    ghost var toks := StatementTokens(stmt, d);
    ghost var all := DriverNames(toks, style);
    ghost var done: seq<Token>, rest := [], toks;
    assert stmt[0..] == stmt;

    var i := 0;
    while i < |stmt|
      invariant i <= |stmt|
      invariant rest == Tokens(stmt[i..], NameBefore(stmt, i), d) && toks == done + rest
      invariant out == RenderAll(done, style, all)
      invariant Indexed(style, names, index, nextId) && all == Extend(style, names, ParamNames(rest))
    {
      var tok, j := ReadToken(stmt, i, d);
      ghost var rest' := Tokens(stmt[j..], NameBefore(stmt, j), d);
      Consumed(done, tok, rest', style, all);
      done, rest := done + [tok], rest';
      match tok {
        case Region(text) => out := out + text;
        case Cast => out := out + "::";
        case Param(name) =>
          var text;
          text, names, index, nextId := Emit(style, name, names, index, nextId, ParamNames(rest));
          out := out + text;
        case Code(c) => out := out + [c];
      }
      i := j;
    }
    assert stmt[i..] == [] && done + [] == done && names + [] == names;
    return Ok((out, names));
  }

  lemma {:induction false} AppendPositions(names: seq<string>, name: string)
    requires name !in names
    ensures Position(names + [name], name) == |names|
    ensures forall n :: n in names ==> Position(names + [name], n) == Position(names, n)
  {
    if names != [] {
      assert (names + [name])[1..] == names[1..] + [name];
      AppendPositions(names[1..], name);
    }
  }

  /** `bind`: the values of a statement's parameters in driver order, or the first name nothing supplies. */
  method Bind<V>(params: seq<string>, args: map<string, V>) returns (r: Result<seq<V>, string>)
    ensures r.Ok? <==> forall n :: n in params ==> n in args
    ensures r.Ok? ==> r.value == Values(params, args)
    ensures r.Err? ==> exists k :: 0 <= k < |params| && params[k] == r.error && r.error !in args
                                   && forall j :: 0 <= j < k ==> params[j] in args
  {
    var values: seq<V> := [];
    for i := 0 to |params|
      invariant |values| == i
      invariant forall j :: 0 <= j < i ==> params[j] in args && values[j] == args[params[j]]
    {
      if params[i] !in args { return Err(params[i]); }
      values := values + [args[params[i]]];
    }
    return Ok(values);
  }

  ghost predicate HasValues<V>(params: seq<string>, args: map<string, V>) {
    forall n :: n in params ==> n in args
  }

  /** `bindAll`: every statement's values in statement order, or what the first that cannot be bound misses. */
  method BindAll<V>(stmts: seq<seq<string>>, args: map<string, V>) returns (r: Result<seq<seq<V>>, string>)
    ensures r.Ok? <==> forall i :: 0 <= i < |stmts| ==> HasValues(stmts[i], args)
    ensures r.Ok? ==> |r.value| == |stmts| && forall i :: 0 <= i < |stmts| ==> r.value[i] == Values(stmts[i], args)
    ensures r.Err? ==> exists i :: 0 <= i < |stmts| && r.error in stmts[i] && r.error !in args
                                   && forall j :: 0 <= j < i ==> HasValues(stmts[j], args)
  {
    var bound: seq<seq<V>> := [];
    for i := 0 to |stmts|
      invariant |bound| == i
      invariant forall j :: 0 <= j < i ==> HasValues(stmts[j], args) && bound[j] == Values(stmts[j], args)
    {
      var values := Bind(stmts[i], args);
      if values.Err? { return Err(values.error); }
      bound := bound + [values.value];
    }
    return Ok(bound);
  }

  function Values<V>(params: seq<string>, args: map<string, V>): (values: seq<V>)
    requires forall n :: n in params ==> n in args
    ensures |values| == |params| && forall k :: 0 <= k < |params| ==> values[k] == args[params[k]]
  {
    seq(|params|, k requires 0 <= k < |params| => args[params[k]])
  }

  // What the database is sent: fixed text, and values in the places of the placeholders.

  datatype Chunk<V> = Fixed(text: string) | Bound(value: V)

  /** The statement as its author meant it: every parameter standing for the value of its name. */
  function Meant<V>(toks: seq<Token>, args: map<string, V>): seq<Chunk<V>>
    requires forall n :: n in ParamNames(toks) ==> n in args
  {
    if toks == [] then []
    else
      [if toks[0].Param? then Bound(args[toks[0].name]) else Fixed(Text(toks[0]))] + Meant(toks[1..], args)
  }

  /** How many positional placeholders a driver reading `toks` finds. */
  function Slots(toks: seq<Token>): nat {
    if toks == [] then 0 else (if toks[0] == Code('?') then 1 else 0) + Slots(toks[1..])
  }

  /** The statement as a positional driver reads it: each `?` in code takes the next value. */
  function ReadPositional<V>(toks: seq<Token>, values: seq<V>): seq<Chunk<V>>
    requires |values| == Slots(toks)
  {
    if toks == [] then []
    else if toks[0] == Code('?') then [Bound(values[0])] + ReadPositional(toks[1..], values[1..])
    else [Fixed(Text(toks[0]))] + ReadPositional(toks[1..], values)
  }

  lemma {:induction false} RescanSlots(toks: seq<Token>, names: seq<string>)
    ensures Slots(Rescan(toks, Question, names)) == |ParamNames(toks)| + Slots(toks)
  {
    if toks != [] {
      RescanSlots(toks[1..], names);
      var again := Rescan(toks, Question, names);
      assert CodeOf("?") == [Code('?')];
      assert again[1..] == Rescan(toks[1..], Question, names);
    }
  }

  lemma {:induction false} NoSlots(toks: seq<Token>)
    ensures Slots(toks) == 0 <==> Code('?') !in toks
  {
    if toks != [] {
      NoSlots(toks[1..]);
      assert Code('?') in toks <==> toks[0] == Code('?') || Code('?') in toks[1..];
    }
  }

  lemma {:induction false} ReadRescanned<V>(toks: seq<Token>, names: seq<string>, args: map<string, V>)
    requires Code('?') !in toks && forall n :: n in ParamNames(toks) ==> n in args
    ensures Slots(Rescan(toks, Question, names)) == |ParamNames(toks)|
    ensures ReadPositional(Rescan(toks, Question, names), Values(ParamNames(toks), args)) == Meant(toks, args)
  {
    RescanSlots(toks, names);
    NoSlots(toks);
    if toks != [] {
      ReadRescanned(toks[1..], names, args);
      var again := Rescan(toks, Question, names);
      assert CodeOf("?") == [Code('?')];
      assert again[1..] == Rescan(toks[1..], Question, names);
      var values := Values(ParamNames(toks), args);
      if toks[0].Param? {
        assert values[1..] == Values(ParamNames(toks[1..]), args);
      } else {
        assert values == Values(ParamNames(toks[1..]), args);
      }
    }
  }

  /**
   A positional driver finds as many placeholders in the rewritten text as there are names exactly when the
   author wrote no bare `?`; it then gives every parameter the value of its own name.
   */
  lemma {:induction false} PositionalFaithful<V>(stmt: string, d: Dialect, args: map<string, V>)
    requires forall n :: n in ParamNames(StatementTokens(stmt, d)) ==> n in args
    ensures var toks := StatementTokens(stmt, d);
      var sent := StatementTokens(Rewritten(stmt, d, Question), d);
      var values := Values(DriverNames(toks, Question), args);
      && (Slots(sent) == |values| <==> Code('?') !in toks)
      && (Code('?') !in toks ==> ReadPositional(sent, values) == Meant(toks, args))
  {
    var toks := StatementTokens(stmt, d);
    var names := DriverNames(toks, Question);
    NothingOpens(stmt, false, d, Question, names);
    RescanTokens(stmt, false, d, Question, names);
    RescanSlots(toks, names);
    NoSlots(toks);
    if Code('?') !in toks { ReadRescanned(toks, names, args); }
  }

  // Numbered placeholders.

  predicate DigitToken(tok: Token) {
    tok.Code? && IsDigit(tok.c)
  }

  /** The digits `toks` begins with. */
  function DigitRun(toks: seq<Token>): (s: string)
    ensures |s| <= |toks| && forall k :: 0 <= k < |s| ==> IsDigit(s[k]) && toks[k] == Code(s[k])
    ensures |s| < |toks| ==> !DigitToken(toks[|s|])
  {
    if toks == [] || !DigitToken(toks[0]) then [] else [toks[0].c] + DigitRun(toks[1..])
  }

  /** The statement as a numbering driver reads it: `$` and digits in code take the value of that number. */
  function ReadNumbered<V>(toks: seq<Token>, values: seq<V>): seq<Chunk<V>>
    decreases |toks|
  {
    if toks == [] then []
    else
      var digits := if toks[0] == Code('$') then DigitRun(toks[1..]) else [];
      if digits != [] && 1 <= Number(digits) <= |values| then
        [Bound(values[Number(digits) - 1])] + ReadNumbered(toks[1 + |digits|..], values)
      else [Fixed(Text(toks[0]))] + ReadNumbered(toks[1..], values)
  }

  lemma {:induction false} DigitRunOf(s: string, toks: seq<Token>)
    requires forall k :: 0 <= k < |s| ==> IsDigit(s[k])
    requires toks == [] || !DigitToken(toks[0])
    ensures DigitRun(CodeOf(s) + toks) == s
  {
    var all := CodeOf(s) + toks;
    if s == [] {
      assert all == toks;
    } else {
      assert all[1..] == CodeOf(s[1..]) + toks;
      DigitRunOf(s[1..], toks);
    }
  }

  /** One placeholder read back: its digits name the position of its own name. */
  lemma {:induction false} ReadPlaceholder<V>(name: string, names: seq<string>, rest: seq<Token>, values: seq<V>)
    requires name in names && |values| == |names| && (rest == [] || !DigitToken(rest[0]))
    ensures ReadNumbered(CodeOf(Placeholder(Dollar, name, names)) + rest, values)
            == [Bound(values[Position(names, name)])] + ReadNumbered(rest, values)
  {
    hide Decimal, Number, Position, DigitRun;
    var k := Position(names, name);
    var digits := Decimal(1 + k);
    var all := CodeOf("$" + digits) + rest;
    NumberOfDecimal(1 + k);
    DigitRunOf(digits, rest);
    CodeThen('$', digits, rest);
    assert all == [Code('$')] + (CodeOf(digits) + rest);
    assert all[1..] == CodeOf(digits) + rest;
    assert all[1 + |digits|..] == rest;
  }

  /** A `$` of the author's own directly before digits that number one of `n` values. */
  predicate AuthorNumbers(toks: seq<Token>, n: nat) {
    toks != []
    && ((toks[0] == Code('$') && NumbersOne(DigitRun(toks[1..]), n)) || AuthorNumbers(toks[1..], n))
  }

  predicate NumbersOne(digits: string, n: nat)
    requires forall k :: 0 <= k < |digits| ==> '0' <= digits[k] <= '9'
  {
    digits != [] && 1 <= Number(digits) <= n
  }

  /** Without a bare `$` there is none before digits. */
  lemma {:induction false} NoDollarNumbers(toks: seq<Token>, n: nat)
    requires !BareDollar(toks)
    ensures !AuthorNumbers(toks, n)
  {
    if toks != [] {
      assert forall k :: 0 <= k < |toks| - 1 ==> toks[1..][k] == toks[k + 1];
      NoDollarNumbers(toks[1..], n);
    }
  }

  /** The digits a text begins with are the same before and after rewriting. */
  lemma {:induction false} DigitsStay(t: string, after: bool, d: Dialect, names: seq<string>)
    ensures DigitRun(Tokens(Out(t, after, d, Dollar, names), after, d)) == DigitRun(Tokens(t, after, d))
    decreases |t|
  {
    hide Tokens, Out, NextToken, Skip;
    var u := Out(t, after, d, Dollar, names);
    OutHead(t, after, d, Dollar, names);
    if t == [] {
    } else if IsDigit(t[0]) {
      var c, r := t[0], t[1..];
      assert t == [c] + r;
      PlainToken(c, r, after, d);
      PlainCode(c, r, after, d);
      OutStep(t, after, d, Dollar, names);
      assert Rest(t, after, d) == r;
      var v := Out(r, true, d, Dollar, names);
      assert u == [c] + v;
      PlainCode(c, v, after, d);
      DigitsStay(r, true, d, names);
    } else {
      NoDigits(t, after, d);
      NoDigits(u, after, d);
    }
  }

  lemma NoDigits(t: string, after: bool, d: Dialect)
    requires t == [] || !IsDigit(t[0])
    ensures DigitRun(Tokens(t, after, d)) == []
  {
    hide NextToken;
    if t != [] {
      var tok := NextToken(t, after, d);
      assert Text(tok)[0] == t[0];
      assert Tokens(t, after, d)[0] == tok;
    }
  }

  /**
   The statement that a numbering driver reads in the rewritten text is the one that was meant exactly when no `$`
   opens a literal and none of the author's own numbers a value.
   */
  lemma {:induction false} NumberedExactly<V>(t: string, after: bool, d: Dialect, names: seq<string>,
                                              args: map<string, V>)
    requires forall n :: n in ParamNames(Tokens(t, after, d)) ==> n in names
    requires forall n :: n in names ==> n in args
    ensures forall n :: n in ParamNames(Tokens(t, after, d)) ==> n in args
    ensures (ReadNumbered(Tokens(Out(t, after, d, Dollar, names), after, d), Values(names, args))
             == Meant(Tokens(t, after, d), args))
            <==> NoneOpens(t, after, d, Dollar, names) && !AuthorNumbers(Tokens(t, after, d), |names|)
    decreases |t|
  {
    if t != [] {
      hide Tokens, NextToken, Out, Opens, Skip, ReadNumbered, Meant, AuthorNumbers, NoneOpens;
      var tok := NextToken(t, after, d);
      var r, a := Rest(t, after, d), EndsInName(tok);
      TokensFront(t, after, d);
      NamesOfRest(tok, Tokens(r, a, d));
      NumberedExactly(r, a, d, names, args);
      NoneOpensStep(t, after, d, Dollar, names);
      var values, v := Values(names, args), Out(r, a, d, Dollar, names);
      if tok.Param? {
        ParamRescans(t, after, d, Dollar, names);
        AfterParam(t, after, d, names);
        ReadParam(tok, names, Tokens(v, a, d), Tokens(r, a, d), args);
      } else if tok == Code('$') && Opens(r, d, Dollar, names) {
        OpeningTokens(t, after, d, Dollar, names);
        ReadRegion(Tokens(Out(t, after, d, Dollar, names), after, d), Tokens(r, a, d), values, args);
      } else {
        VerbatimTokens(t, after, d, Dollar, names);
        DigitsStay(r, a, d, names);
        ReadVerbatim(tok, Tokens(v, a, d), Tokens(r, a, d), values, args);
      }
    } else {
      assert Out(t, after, d, Dollar, names) == [];
    }
  }

  lemma NamesOfRest(tok: Token, rest: seq<Token>)
    ensures forall n :: n in ParamNames([tok] + rest) <==> n in ParamNames(rest) || (tok.Param? && n == tok.name)
  {
    assert ([tok] + rest)[1..] == rest;
  }

  lemma ReadParam<V>(tok: Token, names: seq<string>, again: seq<Token>, rest: seq<Token>, args: map<string, V>)
    requires tok.Param? && tok.name in names && (again == [] || !DigitToken(again[0]))
    requires (forall n :: n in names ==> n in args) && forall n :: n in ParamNames(rest) ==> n in args
    ensures forall n :: n in ParamNames([tok] + rest) ==> n in args
    ensures AuthorNumbers([tok] + rest, |names|) <==> AuthorNumbers(rest, |names|)
    ensures (ReadNumbered(CodeOf(Placeholder(Dollar, tok.name, names)) + again, Values(names, args))
             == Meant([tok] + rest, args))
            <==> ReadNumbered(again, Values(names, args)) == Meant(rest, args)
  {
    hide DigitRun, Number, Placeholder, CodeOf, ReadNumbered;
    assert ([tok] + rest)[1..] == rest;
    ReadPlaceholder(tok.name, names, again, Values(names, args));
    assert Meant([tok] + rest, args) == [Bound(args[tok.name])] + Meant(rest, args);
    SameTail([Bound(args[tok.name])], ReadNumbered(again, Values(names, args)), Meant(rest, args));
  }

  /** A literal where the author's `$` was is not what was meant. */
  lemma ReadRegion<V>(again: seq<Token>, rest: seq<Token>, values: seq<V>, args: map<string, V>)
    requires again != [] && again[0].Region? && |again[0].text| > 1
    requires forall n :: n in ParamNames(rest) ==> n in args
    ensures forall n :: n in ParamNames([Code('$')] + rest) ==> n in args
    ensures ReadNumbered(again, values) != Meant([Code('$')] + rest, args)
  {
    assert ([Code('$')] + rest)[1..] == rest;
    assert ReadNumbered(again, values)[0] == Fixed(again[0].text);
    assert Meant([Code('$')] + rest, args)[0] == Fixed(['$']);
  }

  /** What follows a parameter does not begin with a digit, before or after rewriting. */
  lemma AfterParam(t: string, after: bool, d: Dialect, names: seq<string>)
    requires t != [] && NextToken(t, after, d).Param?
    ensures var r, a := Rest(t, after, d), EndsInName(NextToken(t, after, d));
      var again := Tokens(Out(r, a, d, Dollar, names), a, d);
      again == [] || !DigitToken(again[0])
  {
    hide Out;
    var r, a := Rest(t, after, d), EndsInName(NextToken(t, after, d));
    assert r != [] ==> r[0] == t[1..][NameRun(t[1..])];
    OutHead(r, a, d, Dollar, names);
    NoDigits(Out(r, a, d, Dollar, names), a, d);
  }

  /** One token that is not a parameter: read as itself unless it is a `$` before a number of a value. */
  lemma ReadVerbatim<V>(tok: Token, again: seq<Token>, rest: seq<Token>, values: seq<V>, args: map<string, V>)
    requires !tok.Param? && DigitRun(again) == DigitRun(rest)
    requires forall n :: n in ParamNames(rest) ==> n in args
    ensures forall n :: n in ParamNames([tok] + rest) ==> n in args
    ensures AuthorNumbers([tok] + rest, |values|) <==>
      (tok == Code('$') && NumbersOne(DigitRun(rest), |values|)) || AuthorNumbers(rest, |values|)
    ensures ReadNumbered([tok] + again, values) == Meant([tok] + rest, args) <==>
      ReadNumbered(again, values) == Meant(rest, args) && !(tok == Code('$') && NumbersOne(DigitRun(rest), |values|))
  {
    hide DigitRun, Number;
    assert ([tok] + again)[1..] == again && ([tok] + rest)[1..] == rest;
    assert Meant([tok] + rest, args) == [Fixed(Text(tok))] + Meant(rest, args);
    if tok == Code('$') && NumbersOne(DigitRun(rest), |values|) {
      assert ReadNumbered([tok] + again, values)[0].Bound?;
    } else {
      assert ReadNumbered([tok] + again, values) == [Fixed(Text(tok))] + ReadNumbered(again, values);
      SameTail([Fixed(Text(tok))], ReadNumbered(again, values), Meant(rest, args));
    }
  }

  /**
   A numbering driver gives every parameter the value of its own name, and leaves the rest as it was written,
   exactly when no `$` opens a literal and none of the author's own numbers a value; each name is numbered once.
   */
  lemma {:induction false} NumberedFaithful<V>(stmt: string, d: Dialect, args: map<string, V>)
    requires forall n :: n in ParamNames(StatementTokens(stmt, d)) ==> n in args
    ensures var toks := StatementTokens(stmt, d);
      var names := DriverNames(toks, Dollar);
      && Distinct(names)
      && (forall n :: n in names <==> n in ParamNames(toks))
      && (ReadNumbered(StatementTokens(Rewritten(stmt, d, Dollar), d), Values(names, args)) == Meant(toks, args)
          <==> NoneOpens(stmt, false, d, Dollar, names) && !AuthorNumbers(toks, |names|))
  {
    var toks := StatementTokens(stmt, d);
    var names := DriverNames(toks, Dollar);
    FirstSeenOnce([], ParamNames(toks));
    NumberedExactly(stmt, false, d, names, args);
  }

  /** So it does for every statement without a bare `$`. */
  lemma NumberedWithoutDollar<V>(stmt: string, d: Dialect, args: map<string, V>)
    requires !BareDollar(StatementTokens(stmt, d))
    requires forall n :: n in ParamNames(StatementTokens(stmt, d)) ==> n in args
    ensures var toks := StatementTokens(stmt, d);
      var names := DriverNames(toks, Dollar);
      && (forall n :: n in names ==> n in args)
      && ReadNumbered(StatementTokens(Rewritten(stmt, d, Dollar), d), Values(names, args)) == Meant(toks, args)
  {
    var toks := StatementTokens(stmt, d);
    NumberedFaithful(stmt, d, args);
    NothingOpens(stmt, false, d, Dollar, DriverNames(toks, Dollar));
    NoDollarNumbers(toks, |DriverNames(toks, Dollar)|);
  }

  /** Numbers follow first appearance: a name numbered earlier appears earlier in the statement. */
  lemma {:induction false} NumberedByAppearance(all: seq<string>, i: nat, j: nat)
    requires var names := FirstSeen([], all); i < j < |names|
    ensures var names := FirstSeen([], all); Position(all, names[i]) < Position(all, names[j])
  {
    SeenInOrder([], all, [], i, j);
    assert [] + all == all;
  }

  ghost predicate InOrder(seen: seq<string>, before: seq<string>) {
    forall a, b :: 0 <= a < b < |seen| ==> Position(before, seen[a]) < Position(before, seen[b])
  }

  lemma Ordered(seen: seq<string>, before: seq<string>, i: nat, j: nat)
    requires InOrder(seen, before) && i < j < |seen|
    ensures Position(before, seen[i]) < Position(before, seen[j])
  {
  }

  lemma {:induction false} OrderKept(before: seq<string>, x: string, seen: seq<string>)
    requires (forall n :: n in seen <==> n in before) && InOrder(seen, before)
    ensures var next := if x in seen then seen else seen + [x];
      InOrder(next, before + [x]) && forall n :: n in next <==> n in before + [x]
  {
    hide Position;
    forall n | n in seen ensures Position(before + [x], n) == Position(before, n) < |before| {
      PositionInPrefix(before, before + [x], n);
    }
    if x !in seen { AppendPositions(before, x); }
  }

  lemma {:induction false} SeenInOrder(before: seq<string>, all: seq<string>, seen: seq<string>, i: nat, j: nat)
    requires (forall n :: n in seen <==> n in before) && InOrder(seen, before)
    requires var names := FirstSeen(seen, all); i < j < |names|
    ensures var names := FirstSeen(seen, all);
      Position(before + all, names[i]) < Position(before + all, names[j])
    decreases |all|
  {
    hide Position, InOrder;
    if all == [] {
      assert before + all == before;
      Ordered(seen, before, i, j);
    } else {
      var x := all[0];
      OrderKept(before, x, seen);
      assert before + [x] + all[1..] == before + all;
      SeenInOrder(before + [x], all[1..], if x in seen then seen else seen + [x], i, j);
    }
  }
}
