/** Why `RewriteIdempotent` asks that no `$` of the author's opens a literal with the placeholders: one that does. */
module SqlDollars {
  import opened Decimals
  import opened SqlLexer
  import opened SqlRewrite

  lemma {:induction false} LiteralTail(s: string, escapes: bool)
    requires '\'' !in s && '\\' !in s
    ensures StringTail(s + "'", escapes) == |s| + 1
  {
    if s != [] {
      LiteralTail(s[1..], escapes);
      assert (s + "'")[1..] == s[1..] + "'" && (s + "'")[0] == s[0];
    } else {
      assert s + "'" == "'";
    }
  }

  lemma Literal(s: string, after: bool)
    requires '\'' !in s && '\\' !in s
    ensures Tokens("'" + s + "'", after, Postgres) == [Region("'" + s + "'")]
  {
    var t := "'" + s + "'";
    LiteralTail(s, Postgres.BackslashEscapes());
    assert t[1..] == s + "'" && t == t + [];
    assert t[..|t|] == t;
    TokensStep(t, [], Region(t), after, Postgres);
  }

  lemma ParamThen(name: string, v: string, after: bool)
    requires name != [] && IsNameStart(name[0]) && (forall k :: 0 <= k < |name| ==> IsNameChar(name[k]))
    requires v != [] && !IsNameChar(v[0])
    ensures Tokens(":" + name + v, after, Postgres) == [Param(name)] + Tokens(v, true, Postgres)
  {
    hide Tokens, NameRun;
    var t := ":" + name + v;
    assert t[1..] == name + v && t[1] == name[0];
    NameRunUnique(name + v, |name|);
    assert (name + v)[..|name|] == name;
    assert t == (":" + name) + v && (":" + name)[|name|] == name[|name| - 1];
    TokensStep(":" + name, v, Param(name), after, Postgres);
  }

  const STMT := "$x:a'$x$:y'"
  const ONCE := "$x$1'$x$:y'"

  lemma PlainX(v: string)
    ensures NextToken("x" + v, false, Postgres) == Code('x')
  {
  }

  lemma UnclosedTag(v: string)
    requires v != [] && v[0] == ':'
    ensures NextToken("$" + ("x" + v), false, Postgres) == Code('$')
  {
  }

  lemma StmtTokens()
    ensures StatementTokens(STMT, Postgres) == [Code('$'), Code('x'), Param("a"), Region("'$x$:y'")]
  {
    hide Tokens, NextToken;
    var r3, r2 := "'$x$:y'", ":a'$x$:y'";
    assert "'" + "$x$:y" + "'" == r3 && ":" + "a" + r3 == r2;
    Literal("$x$:y", true);
    ParamThen("a", r3, true);
    PlainX(r2);
    TokensStep("x", r2, Code('x'), false, Postgres);
    UnclosedTag(r2);
    TokensStep("$", "x" + r2, Code('$'), false, Postgres);
    assert "$" + ("x" + r2) == STMT;
    assert EndsInName(Code('x')) && !EndsInName(Code('$'));
  }

  lemma TagOfOnce()
    ensures TagLength(ONCE) == 3
  {
    hide NameRun;
    var r := ONCE[1..];
    assert r[0] == 'x' && r[1] == '$';
    NameRunUnique(r, 1);
  }

  lemma TagAgain(s: string)
    requires s == "1'$x$:y'"
    ensures IndexOf(s, "$x$") == 2
  {
    hide IndexOf;
    assert s[2..] == "$x$" + ":y'";
    assert OccursAt(s, "$x$", 2);
    assert s[0..][0] == '1' && s[1..][0] == '\'';
    assert !OccursAt(s, "$x$", 0) && !OccursAt(s, "$x$", 1);
  }

  lemma QuoteOfOnce()
    ensures DollarLength(ONCE) == 8
  {
    hide TagLength, IndexOf;
    TagOfOnce();
    TagAgain(ONCE[3..]);
    assert ONCE[..3] == "$x$";
  }

  lemma Tag()
    ensures NextToken(ONCE, false, Postgres) == Region("$x$1'$x$")
  {
    hide DollarLength;
    QuoteOfOnce();
    assert ONCE[0] == '$';
    assert Skip(ONCE, false, Postgres) == 8;
    assert ONCE[..8] == "$x$1'$x$";
  }

  /** Read again, the statement has a parameter that was quoted, with whatever follows it. */
  lemma OnceTokens()
    ensures StatementTokens(ONCE, Postgres) == [Region("$x$1'$x$"), Param("y")] + Tokens("'", true, Postgres)
  {
    hide Tokens, NextToken;
    Tag();
    var p, v := "$x$1'$x$", ":y'";
    assert p + v == ONCE && ":" + "y" + "'" == v;
    TokensStep(p, v, Region(p), false, Postgres);
    assert !EndsInName(Region(p));
    ParamThen("y", "'", false);
    assert [Region(p)] + ([Param("y")] + Tokens("'", true, Postgres))
      == [Region(p), Param("y")] + Tokens("'", true, Postgres);
  }

  /** One parameter, with verbatim tokens before it and one after. */
  lemma {:induction false} OneName(before: seq<Token>, name: string, last: Token)
    requires (forall i :: 0 <= i < |before| ==> !before[i].Param?) && !last.Param?
    ensures var toks := before + [Param(name), last];
      ParamNames(toks) == [name] && RenderAll(toks, Dollar, [name]) == SourceOf(before) + "$1" + Text(last)
    decreases |before|
  {
    hide Text, Placeholder, RenderAll, ParamNames, SourceOf;
    var toks := before + [Param(name), last];
    if before == [] {
      assert toks == [Param(name), last];
      JustOne(name, last);
      NoSource();
      assert "" + "$1" + Text(last) == "$1" + Text(last);
    } else {
      var rest := before[1..] + [Param(name), last];
      OneName(before[1..], name, last);
      assert toks == [before[0]] + rest && before == [before[0]] + before[1..];
      OneMore(before[0], rest, name);
      OneMore(before[0], before[1..], name);
      assert SourceOf(before) + "$1" + Text(last) == Text(before[0]) + (SourceOf(before[1..]) + "$1" + Text(last));
    }
  }

  lemma NoSource()
    ensures SourceOf([]) == ""
  {
  }

  lemma OneMore(tok: Token, toks: seq<Token>, name: string)
    requires !tok.Param?
    ensures ParamNames([tok] + toks) == ParamNames(toks) && SourceOf([tok] + toks) == Text(tok) + SourceOf(toks)
    ensures RenderAll([tok] + toks, Dollar, [name]) == Text(tok) + RenderAll(toks, Dollar, [name])
  {
  }

  lemma JustOne(name: string, last: Token)
    requires !last.Param?
    ensures ParamNames([Param(name), last]) == [name]
    ensures RenderAll([Param(name), last], Dollar, [name]) == "$1" + Text(last)
  {
    hide Text;
    assert [Param(name), last][1..] == [last] && [last][1..] == [];
    assert ParamNames([last]) == [] && RenderAll([last], Dollar, [name]) == Text(last) + "";
    assert Placeholder(Dollar, name, [name]) == "$1" by { assert Decimal(1) == "1" && Position([name], name) == 0; }
  }

  lemma OneSeen(name: string)
    ensures FirstSeen([], [name]) == [name]
  {
  }

  /** With a parameter behind `p`, a placeholder is what the rewritten statement has there. */
  lemma PlaceholderAt(p: string, name: string, rest: seq<Token>, names: seq<string>)
    ensures var toks := [Region(p), Param(name)] + rest;
      && name in ParamNames(toks)
      && |RenderAll(toks, Dollar, names)| > |p| && RenderAll(toks, Dollar, names)[|p|] == '$'
  {
  }

  lemma {:induction false} FirstSeenKeeps(seen: seq<string>, all: seq<string>)
    ensures forall n :: n in seen || n in all ==> n in FirstSeen(seen, all)
    decreases |all|
  {
    if all != [] {
      FirstSeenKeeps(if all[0] in seen then seen else seen + [all[0]], all[1..]);
      assert all == [all[0]] + all[1..];
    }
  }

  lemma StmtRewritten()
    ensures Rewritten(STMT, Postgres, Dollar) == ONCE && DriverNames(StatementTokens(STMT, Postgres), Dollar) == ["a"]
  {
    hide StatementTokens, Text, RenderAll, ParamNames, FirstSeen, SourceOf;
    StmtTokens();
    var b := [Code('$'), Code('x')];
    OneName(b, "a", Region("'$x$:y'"));
    assert b + [Param("a"), Region("'$x$:y'")] == StatementTokens(STMT, Postgres);
    OneSeen("a");
    Sources();
    assert "$x" + "$1" + "'$x$:y'" == ONCE;
  }

  lemma OnceRewritten()
    ensures "y" in DriverNames(StatementTokens(ONCE, Postgres), Dollar) && Rewritten(ONCE, Postgres, Dollar) != ONCE
  {
    hide Tokens, Text, RenderAll, ParamNames, FirstSeen;
    OnceTokens();
    var toks := StatementTokens(ONCE, Postgres);
    PlaceholderAt("$x$1'$x$", "y", Tokens("'", true, Postgres), DriverNames(toks, Dollar));
    FirstSeenKeeps([], ParamNames(toks));
    assert ONCE[8] == ':' && |"$x$1'$x$"| == 8;
  }

  /** Rewritten, the statement's `$x` and its placeholder open a quote, and what was quoted is a parameter. */
  lemma DollarRewriteChanges()
    ensures var once := Rewritten(STMT, Postgres, Dollar);
      && DriverNames(StatementTokens(STMT, Postgres), Dollar) == ["a"]
      && "y" in DriverNames(StatementTokens(once, Postgres), Dollar)
      && Rewritten(once, Postgres, Dollar) != once
  {
    hide Rewritten, DriverNames, StatementTokens;
    StmtRewritten();
    OnceRewritten();
  }

  lemma Sources()
    ensures SourceOf([Code('$'), Code('x')]) == "$x" && Text(Region("'$x$:y'")) == "'$x$:y'"
  {
  }
}
