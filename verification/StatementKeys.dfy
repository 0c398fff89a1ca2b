/** The keys of compiled statements: why two with one text have equally many parameters, and what follows. */
module StatementKeys {
  import opened Decimals
  import FlightKeys
  import opened SqlBind
  import opened SqlLexer
  import opened SqlRewrite

  // Counting the names of a statement in its rewritten text.

  /** The highest number that stands behind a `$` of the code. */
  function Highest(toks: seq<Token>): nat {
    if toks == [] then 0
    else
      var here := if toks[0] == Code('$') then Number(DigitRun(toks[1..])) else 0;
      var rest := Highest(toks[1..]);
      if here > rest then here else rest
  }

  lemma {:induction false} HighestPastDigits(s: string, rest: seq<Token>)
    requires forall k :: 0 <= k < |s| ==> IsDigit(s[k])
    ensures Highest(CodeOf(s) + rest) == Highest(rest)
  {
    var all := CodeOf(s) + rest;
    if s == [] {
      assert all == rest;
    } else {
      assert all[1..] == CodeOf(s[1..]) + rest && all[0] == Code(s[0]);
      HighestPastDigits(s[1..], rest);
    }
  }

  lemma HighestPlaceholder(name: string, names: seq<string>, rest: seq<Token>)
    requires rest == [] || !DigitToken(rest[0])
    ensures var here := 1 + Position(names, name);
      Highest(CodeOf(Placeholder(Dollar, name, names)) + rest) == if here > Highest(rest) then here else Highest(rest)
  {
    hide Decimal, Number, Position, DigitRun;
    var digits := Decimal(1 + Position(names, name));
    var all := CodeOf("$" + digits) + rest;
    NumberOfDecimal(1 + Position(names, name));
    DigitRunOf(digits, rest);
    CodeThen('$', digits, rest);
    assert all == [Code('$')] + (CodeOf(digits) + rest);
    assert all[1..] == CodeOf(digits) + rest;
    HighestPastDigits(digits, rest);
  }

  /** The highest position among `all`, counted from one. */
  function Reach(all: seq<string>, names: seq<string>): nat {
    if all == [] then 0
    else
      var here, rest := 1 + Position(names, all[0]), Reach(all[1..], names);
      if here > rest then here else rest
  }

  lemma {:induction false} ReachOf(all: seq<string>, names: seq<string>)
    ensures forall n :: n in all ==> 1 + Position(names, n) <= Reach(all, names)
    ensures (forall n :: n in all ==> n in names) ==> Reach(all, names) <= |names|
  {
    if all != [] {
      ReachOf(all[1..], names);
      assert all == [all[0]] + all[1..];
    }
  }

  lemma {:induction false} HighestOut(t: string, after: bool, d: Dialect, names: seq<string>)
    requires !BareDollar(Tokens(t, after, d))
    ensures Highest(Tokens(Out(t, after, d, Dollar, names), after, d)) == Reach(ParamNames(Tokens(t, after, d)), names)
    decreases |t|
  {
    if t != [] {
      hide Tokens, NextToken, Out, Skip, Opens, Highest, Reach, Placeholder, CodeOf, ParamNames;
      var tok := NextToken(t, after, d);
      var r, a := Rest(t, after, d), EndsInName(tok);
      TokensFront(t, after, d);
      HighestOut(r, a, d, names);
      var v := Tokens(Out(r, a, d, Dollar, names), a, d);
      if tok.Param? {
        ParamRescans(t, after, d, Dollar, names);
        AfterParam(t, after, d, names);
        HighestPlaceholder(tok.name, names, v);
        ReachMore(tok, Tokens(r, a, d), names);
      } else {
        VerbatimTokens(t, after, d, Dollar, names);
        HighestVerbatim(tok, v);
        ReachMore(tok, Tokens(r, a, d), names);
      }
    } else {
      assert Out(t, after, d, Dollar, names) == [];
    }
  }

  lemma ReachMore(tok: Token, rest: seq<Token>, names: seq<string>)
    ensures var far := Reach(ParamNames(rest), names);
      Reach(ParamNames([tok] + rest), names) ==
        if tok.Param? && 1 + Position(names, tok.name) > far then 1 + Position(names, tok.name) else far
  {
    hide Position;
    assert ([tok] + rest)[1..] == rest;
    if tok.Param? {
      assert ParamNames([tok] + rest) == [tok.name] + ParamNames(rest);
      assert ([tok.name] + ParamNames(rest))[1..] == ParamNames(rest);
    } else {
      assert ParamNames([tok] + rest) == [] + ParamNames(rest) == ParamNames(rest);
    }
  }

  lemma HighestVerbatim(tok: Token, rest: seq<Token>)
    requires tok != Code('$')
    ensures Highest([tok] + rest) == Highest(rest)
  {
    assert ([tok] + rest)[1..] == rest;
  }

  /** The author writes no placeholder of the driver's own style. */
  predicate OwnPlaceholders(stmt: string, d: Dialect, style: Style) {
    Code(if style.Dollar? then '$' else '?') in StatementTokens(stmt, d)
  }

  /** How many names a statement has is read off its rewritten text. */
  lemma NamesCounted(stmt: string, d: Dialect, style: Style)
    requires !OwnPlaceholders(stmt, d, style)
    ensures var sent := StatementTokens(Rewritten(stmt, d, style), d);
      |DriverNames(StatementTokens(stmt, d), style)| == if style.Dollar? then Highest(sent) else Slots(sent)
  {
    var toks := StatementTokens(stmt, d);
    var names := DriverNames(toks, style);
    if style.Dollar? {
      HighestOut(stmt, false, d, names);
      FirstSeenOnce([], ParamNames(toks));
      ReachOf(ParamNames(toks), names);
      if names != [] {
        var last := |names| - 1;
        assert names[last] in ParamNames(toks);
        LastPosition(names, last);
      }
    } else {
      NothingOpens(stmt, false, d, style, names);
      RescanTokens(stmt, false, d, style, names);
      RescanSlots(toks, names);
      NoSlots(toks);
    }
  }

  lemma {:induction false} LastPosition(names: seq<string>, k: nat)
    requires Distinct(names) && k < |names|
    ensures Position(names, names[k]) == k
  {
    if k > 0 { LastPosition(names[1..], k - 1); }
  }

  /** Two statements of one driver that are sent as the same text have equally many names. */
  lemma SameTextSameCount(stmt1: string, stmt2: string, d: Dialect, style: Style)
    requires !OwnPlaceholders(stmt1, d, style) && !OwnPlaceholders(stmt2, d, style)
    requires Rewritten(stmt1, d, style) == Rewritten(stmt2, d, style)
    ensures |DriverNames(StatementTokens(stmt1, d), style)| == |DriverNames(StatementTokens(stmt2, d), style)|
  {
    NamesCounted(stmt1, d, style);
    NamesCounted(stmt2, d, style);
  }

  // Keys.

  /** The names the rewriter reads are made of name characters. */
  lemma {:induction false} NamesPlain(t: string, after: bool, d: Dialect)
    ensures forall n :: n in ParamNames(Tokens(t, after, d)) ==> FlightKeys.NUL !in n && '=' !in n
    decreases |t|
  {
    if t != [] {
      hide Skip, Tokens;
      var tok := NextToken(t, after, d);
      var r, a := Rest(t, after, d), EndsInName(tok);
      TokensFront(t, after, d);
      NamesOfRest(tok, Tokens(r, a, d));
      NamesPlain(r, a, d);
      if tok.Param? {
        var n := NameRun(t[1..]);
        assert tok.name == t[1..][..n];
        assert forall k :: 0 <= k < |tok.name| ==> IsNameChar(tok.name[k]);
      }
    }
  }

  function KeyOf(stmt: string, d: Dialect, style: Style, args: FlightKeys.Args): string {
    FlightKeys.Key(Rewritten(stmt, d, style), DriverNames(StatementTokens(stmt, d), style), args)
  }

  /**
   Two statements of one driver, without placeholders of the author's own: when one of the requests binds no NUL,
   equal keys mean the same text, the same names and the same values.
   */
  lemma StatementKeysSeparate(stmt1: string, args1: FlightKeys.Args, stmt2: string, args2: FlightKeys.Args,
                              d: Dialect, style: Style)
    requires !OwnPlaceholders(stmt1, d, style) && !OwnPlaceholders(stmt2, d, style)
    requires FlightKeys.NUL !in Rewritten(stmt1, d, style) && FlightKeys.NUL !in Rewritten(stmt2, d, style)
    requires FlightKeys.PlainValues(DriverNames(StatementTokens(stmt1, d), style), args1)
    requires KeyOf(stmt1, d, style, args1) == KeyOf(stmt2, d, style, args2)
    ensures Rewritten(stmt1, d, style) == Rewritten(stmt2, d, style)
    ensures DriverNames(StatementTokens(stmt1, d), style) == DriverNames(StatementTokens(stmt2, d), style)
    ensures forall n :: n in DriverNames(StatementTokens(stmt1, d), style) ==>
              FlightKeys.ValueOf(args1, n) == FlightKeys.ValueOf(args2, n)
  {
    var sql1, sql2 := Rewritten(stmt1, d, style), Rewritten(stmt2, d, style);
    var p1, p2 := DriverNames(StatementTokens(stmt1, d), style), DriverNames(StatementTokens(stmt2, d), style);
    DriverNamesPlain(stmt1, d, style);
    DriverNamesPlain(stmt2, d, style);
    hide Rewritten, DriverNames, OwnPlaceholders, FlightKeys.Key, FlightKeys.PlainValues;
    FlightKeys.SameStatement(sql1, p1, args1, sql2, p2, args2);
    SameTextSameCount(stmt1, stmt2, d, style);
    FlightKeys.KeysSeparate(sql1, p1, args1, sql2, p2, args2);
  }

  lemma DriverNamesPlain(stmt: string, d: Dialect, style: Style)
    ensures FlightKeys.PlainNames(DriverNames(StatementTokens(stmt, d), style))
  {
    var toks := StatementTokens(stmt, d);
    NamesPlain(stmt, false, d);
    FirstSeenOnce([], ParamNames(toks));
    var names := DriverNames(toks, style);
    assert forall i :: 0 <= i < |names| ==> names[i] in names && names[i] in ParamNames(toks);
  }
}
