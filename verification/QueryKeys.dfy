/** The key a read is shared under: the keys of its statements, its session, and the pool it goes to. */
module QueryKeys {
  import opened FlightKeys
  import opened Text

  datatype Statement = Statement(sql: string, params: seq<string>)

  datatype Variable = Variable(name: string, value: string)

  /** A read: its statements, what is bound to their parameters, its session variables and the name of its pool. */
  datatype Read = Read(stmts: seq<Statement>, args: Args, session: seq<Variable>, pool: string)

  function StatementsKey(stmts: seq<Statement>, args: Args): string {
    if stmts == [] then "" else Key(stmts[0].sql, stmts[0].params, args) + StatementsKey(stmts[1..], args)
  }

  function SessionEntry(v: Variable): string {
    v.name + "=" + v.value
  }

  /** `sessionKey`. */
  function SessionKey(session: seq<Variable>): string {
    if session == [] then "" else [NUL] + SessionEntry(session[0]) + SessionKey(session[1..])
  }

  function KeyOf(read: Read): string {
    StatementsKey(read.stmts, read.args) + SessionKey(read.session) + ([NUL] + ("pool=" + read.pool))
  }

  method WriteStatements(stmts: seq<Statement>, args: Args) returns (key: string)
    ensures key == StatementsKey(stmts, args)
  {
    hide Key;
    key := "";
    for i := 0 to |stmts|
      invariant StatementsKey(stmts, args) == key + StatementsKey(stmts[i..], args)
    {
      var one := FlightKey(stmts[i].sql, stmts[i].params, args);
      assert stmts[i..][1..] == stmts[i + 1..];
      assert key + (one + StatementsKey(stmts[i + 1..], args)) == key + one + StatementsKey(stmts[i + 1..], args);
      key := key + one;
    }
  }

  method WriteSession(session: seq<Variable>) returns (key: string)
    ensures key == SessionKey(session)
  {
    hide SessionEntry;
    key := "";
    for i := 0 to |session|
      invariant SessionKey(session) == key + SessionKey(session[i..])
    {
      var entry := SessionEntry(session[i]);
      assert session[i..][1..] == session[i + 1..];
      assert key + ([NUL] + entry + SessionKey(session[i + 1..])) == key + [NUL] + entry + SessionKey(session[i + 1..]);
      key := key + [NUL];
      key := key + entry;
    }
  }

  /** The key `queryAll` hands to the flight group. */
  method QueryKey(read: Read) returns (key: string)
    ensures key == KeyOf(read)
  {
    hide StatementsKey, SessionKey;
    key := WriteStatements(read.stmts, read.args);
    var session := WriteSession(read.session);
    key := key + session;
    key := key + ([NUL] + ("pool=" + read.pool));
  }

  // A key as the pieces between its separators.

  /** Two lists of pieces put together without a separator: the last of one and the first of the other become one. */
  function Fused(p: seq<string>, q: seq<string>): seq<string>
    requires p != [] && q != []
  {
    p[..|p| - 1] + [p[|p| - 1] + q[0]] + q[1..]
  }

  lemma {:induction false} JoinFused(p: seq<string>, q: seq<string>)
    requires p != [] && q != []
    ensures Join(Fused(p, q), NUL) == Join(p, NUL) + Join(q, NUL)
    decreases |q|
  {
    hide Join;
    var k := |q| - 1;
    if k == 0 {
      var front, last := p[..|p| - 1], p[|p| - 1];
      FuseOne(front, last, q[0]);
      assert Fused(p, q) == front + [last + q[0]] && p == front + [last];
      JoinOne(q);
    } else {
      JoinFused(p, q[..k]);
      assert q == q[..k] + [q[k]];
      assert Fused(p, q) == Fused(p, q[..k]) + [q[k]];
      JoinMore(q[..k], q[k], NUL);
      JoinMore(Fused(p, q[..k]), q[k], NUL);
      hide Fused;
      Regroup(Join(p, NUL), Join(q[..k], NUL) + [NUL], q[k]);
      Regroup(Join(p, NUL), Join(q[..k], NUL), [NUL]);
    }
  }

  lemma FuseOne(front: seq<string>, last: string, s: string)
    ensures Join(front + [last + s], NUL) == Join(front + [last], NUL) + s
  {
    hide Join;
    if front == [] {
      JoinOne([last]);
      JoinOne([last + s]);
      assert front + [last] == [last] && front + [last + s] == [last + s];
    } else {
      JoinMore(front, last + s, NUL);
      JoinMore(front, last, NUL);
      Regroup(Join(front, NUL) + [NUL], last, s);
    }
  }

  lemma Regroup(a: string, b: string, c: string)
    ensures a + (b + c) == a + b + c
  {
  }

  function StatementPieces(stmt: Statement, args: Args): (pieces: seq<string>)
    ensures pieces != [] && pieces[0] == stmt.sql && |pieces| == 1 + |stmt.params|
  {
    [stmt.sql] + Entries(stmt.params, args)
  }

  function Pieces(stmts: seq<Statement>, args: Args): (pieces: seq<string>)
    ensures pieces != []
  {
    if stmts == [] then [""] else Fused(StatementPieces(stmts[0], args), Pieces(stmts[1..], args))
  }

  lemma {:induction false} JoinPieces(stmts: seq<Statement>, args: Args)
    ensures Join(Pieces(stmts, args), NUL) == StatementsKey(stmts, args)
  {
    hide Entries;
    if stmts != [] {
      JoinPieces(stmts[1..], args);
      JoinFused(StatementPieces(stmts[0], args), Pieces(stmts[1..], args));
    }
  }

  function SessionEntries(session: seq<Variable>): (entries: seq<string>)
    ensures |entries| == |session| && forall i :: 0 <= i < |session| ==> entries[i] == SessionEntry(session[i])
  {
    seq(|session|, i requires 0 <= i < |session| => SessionEntry(session[i]))
  }

  /** All the pieces of a read's key. */
  function ReadPieces(read: Read): seq<string> {
    Pieces(read.stmts, read.args) + SessionEntries(read.session) + ["pool=" + read.pool]
  }

  lemma {:induction false} JoinEntries(pieces: seq<string>, session: seq<Variable>)
    requires pieces != []
    ensures Join(pieces + SessionEntries(session), NUL) == Join(pieces, NUL) + SessionKey(session)
    decreases |session|
  {
    hide Join, SessionEntry;
    if session == [] {
      assert pieces + SessionEntries(session) == pieces;
    } else {
      hide SessionKey;
      SessionStep(session);
      JoinEntries(pieces + [SessionEntry(session[0])], session[1..]);
      assert pieces + SessionEntries(session) == pieces + [SessionEntry(session[0])] + SessionEntries(session[1..]);
      JoinMore(pieces, SessionEntry(session[0]), NUL);
      Regroup(Join(pieces, NUL), [NUL] + SessionEntry(session[0]), SessionKey(session[1..]));
      Regroup(Join(pieces, NUL), [NUL], SessionEntry(session[0]));
    }
  }

  lemma SessionStep(session: seq<Variable>)
    requires session != []
    ensures SessionKey(session) == [NUL] + SessionEntry(session[0]) + SessionKey(session[1..])
  {
  }

  lemma KeyIsJoin(read: Read)
    ensures KeyOf(read) == Join(ReadPieces(read), NUL)
  {
    hide Join, Pieces;
    var pieces := Pieces(read.stmts, read.args);
    JoinPieces(read.stmts, read.args);
    JoinEntries(pieces, read.session);
    JoinMore(pieces + SessionEntries(read.session), "pool=" + read.pool, NUL);
  }

  /** Nothing a read is made of contains the separator. */
  ghost predicate Plain(read: Read) {
    AllPlain(ReadPieces(read))
  }

  /** Equal keys of two reads, one of them plain, whose keys have equally many pieces, have the same pieces. */
  lemma SamePieces(a: Read, b: Read)
    requires KeyOf(a) == KeyOf(b) && Plain(a) && |ReadPieces(a)| == |ReadPieces(b)|
    ensures ReadPieces(a) == ReadPieces(b)
  {
    hide Join, Pieces, Nuls, Split;
    KeyIsJoin(a);
    KeyIsJoin(b);
    JoinCount(ReadPieces(a));
    JoinCount(ReadPieces(b));
    SplitJoin(ReadPieces(a), NUL);
    SplitJoin(ReadPieces(b), NUL);
  }

  // Separation.

  ghost predicate PlainVariables(session: seq<Variable>) {
    forall i :: 0 <= i < |session| ==> '=' !in session[i].name
  }

  lemma SessionEntryInjective(a: Variable, b: Variable)
    requires '=' !in a.name && '=' !in b.name && SessionEntry(a) == SessionEntry(b)
    ensures a == b
  {
    var e := SessionEntry(a);
    assert e[|a.name|] == '=' && e[|b.name|] == '=';
    assert a.name == e[..|a.name|] && b.name == e[..|b.name|];
    assert a.value == e[|a.name| + 1..] && b.value == e[|b.name| + 1..];
  }

  /** The session and the pool are what the last pieces say. */
  lemma SameEnd(p: seq<string>, a: Read, q: seq<string>, b: Read)
    requires |p| == |q| && |a.session| == |b.session| && PlainVariables(a.session) && PlainVariables(b.session)
    requires p + SessionEntries(a.session) + ["pool=" + a.pool] == q + SessionEntries(b.session) + ["pool=" + b.pool]
    ensures p == q && a.session == b.session && a.pool == b.pool
  {
    hide SessionEntry;
    var x, y := p + SessionEntries(a.session) + ["pool=" + a.pool], q + SessionEntries(b.session) + ["pool=" + b.pool];
    var n := |p| + |a.session|;
    assert x[..|p|] == p && y[..|q|] == q;
    assert x[n] == "pool=" + a.pool && y[n] == "pool=" + b.pool;
    assert a.pool == x[n][5..] && b.pool == y[n][5..];
    forall i | 0 <= i < |a.session| ensures a.session[i] == b.session[i] {
      assert x[|p| + i] == SessionEntry(a.session[i]) && y[|p| + i] == SessionEntry(b.session[i]);
      SessionEntryInjective(a.session[i], b.session[i]);
    }
  }

  /** Reads of one statement each: equal keys mean the same statement, values, session and pool. */
  lemma SingleReadsSeparate(a: Read, b: Read, s: Statement, t: Statement)
    requires a.stmts == [s] && b.stmts == [t] && KeyOf(a) == KeyOf(b) && Plain(a)
    requires |s.params| == |t.params| && |a.session| == |b.session|
    requires PlainNames(s.params) && PlainNames(t.params) && PlainVariables(a.session) && PlainVariables(b.session)
    ensures s == t && a.session == b.session && a.pool == b.pool
    ensures forall n :: n in s.params ==> ValueOf(a.args, n) == ValueOf(b.args, n)
  {
    OnePiece(s, a.args);
    OnePiece(t, b.args);
    hide Pieces, Entries, PlainVariables;
    SamePieces(a, b);
    SameEnd(StatementPieces(s, a.args), a, StatementPieces(t, b.args), b);
    SameEntries(s, a.args, t, b.args);
  }

  lemma OnePiece(s: Statement, args: Args)
    ensures Pieces([s], args) == StatementPieces(s, args)
  {
    var p := StatementPieces(s, args);
    assert [s][1..] == [] && Pieces([], args) == [""];
    assert p[|p| - 1] + "" == p[|p| - 1];
    assert p == p[..|p| - 1] + [p[|p| - 1]] + [];
    assert [""][1..] == [];
  }

  lemma SameEntries(s: Statement, a: Args, t: Statement, b: Args)
    requires StatementPieces(s, a) == StatementPieces(t, b) && PlainNames(s.params) && PlainNames(t.params)
    ensures s == t && forall n :: n in s.params ==> ValueOf(a, n) == ValueOf(b, n)
  {
    hide Entry, ValueOf;
    var x, y := StatementPieces(s, a), StatementPieces(t, b);
    assert |s.params| == |t.params| && s.sql == x[0] == y[0] == t.sql;
    forall i | 0 <= i < |s.params|
      ensures s.params[i] == t.params[i] && ValueOf(a, s.params[i]) == ValueOf(b, s.params[i])
    {
      assert x[i + 1] == Entry(s.params[i], ValueOf(a, s.params[i]))
        && y[i + 1] == Entry(t.params[i], ValueOf(b, t.params[i]));
      EntryInjective(s.params[i], ValueOf(a, s.params[i]), t.params[i], ValueOf(b, t.params[i]));
    }
  }

  /** Reads of the same statements: equal keys mean the same values, session and pool. */
  lemma SameStatementsSeparate(a: Read, b: Read)
    requires a.stmts == b.stmts && KeyOf(a) == KeyOf(b) && Plain(a) && |a.session| == |b.session|
    requires forall i :: 0 <= i < |a.stmts| ==> PlainNames(a.stmts[i].params)
    requires PlainVariables(a.session) && PlainVariables(b.session)
    ensures a.session == b.session && a.pool == b.pool
    ensures forall i, n :: 0 <= i < |a.stmts| && n in a.stmts[i].params ==> ValueOf(a.args, n) == ValueOf(b.args, n)
  {
    hide Pieces, PlainVariables, PlainNames;
    PiecesCount(a.stmts, a.args, b.args);
    SamePieces(a, b);
    SameEnd(Pieces(a.stmts, a.args), a, Pieces(b.stmts, b.args), b);
    PiecesSeparate(a.stmts, a.args, b.args);
  }

  /** How many pieces there are, and what the first is, does not depend on what is bound. */
  lemma {:induction false} PiecesCount(stmts: seq<Statement>, a: Args, b: Args)
    ensures |Pieces(stmts, a)| == |Pieces(stmts, b)| && Pieces(stmts, a)[0] == Pieces(stmts, b)[0]
  {
    hide Entries;
    if stmts != [] {
      PiecesCount(stmts[1..], a, b);
      FusedHead(StatementPieces(stmts[0], a), Pieces(stmts[1..], a));
      FusedHead(StatementPieces(stmts[0], b), Pieces(stmts[1..], b));
    }
  }

  lemma FusedHead(p: seq<string>, q: seq<string>)
    requires p != [] && q != []
    ensures |Fused(p, q)| == |p| + |q| - 1
    ensures Fused(p, q)[0] == if |p| == 1 then p[0] + q[0] else p[0]
  {
  }

  lemma FusedApart(p: seq<string>, q: seq<string>, p': seq<string>, q': seq<string>)
    requires p != [] && q != [] && |p| == |p'| && |q| == |q'| && q[0] == q'[0] && Fused(p, q) == Fused(p', q')
    ensures p == p' && q == q'
  {
    var k, x, y := |p| - 1, Fused(p, q), Fused(p', q');
    assert x[..k] == p[..k] && y[..k] == p'[..k];
    assert x[k] == p[k] + q[0] && y[k] == p'[k] + q[0];
    assert p[k] == x[k][..|x[k]| - |q[0]|] && p'[k] == y[k][..|y[k]| - |q[0]|];
    assert p == p[..k] + [p[k]] && p' == p'[..k] + [p'[k]];
    assert x[k + 1..] == q[1..] && y[k + 1..] == q'[1..];
    assert q == [q[0]] + q[1..] && q' == [q'[0]] + q'[1..];
  }

  lemma {:induction false} PiecesSeparate(stmts: seq<Statement>, a: Args, b: Args)
    requires Pieces(stmts, a) == Pieces(stmts, b) && forall i :: 0 <= i < |stmts| ==> PlainNames(stmts[i].params)
    ensures forall i, n :: 0 <= i < |stmts| && n in stmts[i].params ==> ValueOf(a, n) == ValueOf(b, n)
  {
    hide Entries, ValueOf, PlainNames, Fused;
    if stmts != [] {
      PiecesCount(stmts[1..], a, b);
      FusedApart(StatementPieces(stmts[0], a), Pieces(stmts[1..], a), StatementPieces(stmts[0], b),
          Pieces(stmts[1..], b));
      SameEntries(stmts[0], a, stmts[0], b);
      PiecesSeparate(stmts[1..], a, b);
      forall i, n | 0 <= i < |stmts| && n in stmts[i].params ensures ValueOf(a, n) == ValueOf(b, n) {
        if i > 0 { assert stmts[i] == stmts[1..][i - 1]; }
      }
    }
  }

  /**
   Different lists of statements share keys without any NUL: nothing separates two statements, so a string bound to
   the last parameter of the first can end in the text of the second.
   */
  lemma StatementsRunTogether(s: Statement, name: string, sql: string, v: string, args: Args,
                              session: seq<Variable>, pool: string)
    requires s.params != [] && s.params[|s.params| - 1] == name && name !in s.params[..|s.params| - 1]
    ensures KeyOf(Read([s, Statement(sql, [])], args[name := Str(v)], session, pool))
         == KeyOf(Read([s], args[name := Str(v + sql)], session, pool))
  {
    hide Key, SessionKey, StatementsKey;
    var a, b := args[name := Str(v)], args[name := Str(v + sql)];
    TwoStatements(s, Statement(sql, []), a);
    OneStatement(s, b);
    NoEntries(sql, a);
    RunTogether(s, name, sql, v, args);
  }

  lemma OneStatement(s: Statement, args: Args)
    ensures StatementsKey([s], args) == Key(s.sql, s.params, args)
  {
    hide Key;
    assert [s][1..] == [] && StatementsKey([], args) == "";
    assert StatementsKey([s], args) == Key(s.sql, s.params, args) + "";
  }

  lemma TwoStatements(s: Statement, t: Statement, args: Args)
    ensures StatementsKey([s, t], args) == Key(s.sql, s.params, args) + Key(t.sql, t.params, args)
  {
    hide Key;
    assert [s, t][1..] == [t];
    OneStatement(t, args);
  }

  lemma RunTogether(s: Statement, name: string, sql: string, v: string, args: Args)
    requires s.params != [] && s.params[|s.params| - 1] == name && name !in s.params[..|s.params| - 1]
    ensures Key(s.sql, s.params, args[name := Str(v)]) + sql == Key(s.sql, s.params, args[name := Str(v + sql)])
  {
    hide Key;
    var k := |s.params| - 1;
    var a, b := args[name := Str(v)], args[name := Str(v + sql)];
    assert s.params == s.params[..k] + [name];
    KeyMore(s.sql, s.params[..k], name, a);
    KeyMore(s.sql, s.params[..k], name, b);
    SameFront(s.sql, s.params[..k], a, b);
    var front := Key(s.sql, s.params[..k], a) + [NUL] + name + "=";
    Regroup("s:", v, sql);
    Regroup(front, "s:" + v, sql);
  }

  lemma SameFront(sql: string, params: seq<string>, a: Args, b: Args)
    requires forall n :: n in params ==> ValueOf(a, n) == ValueOf(b, n)
    ensures Key(sql, params, a) == Key(sql, params, b)
  {
    assert Entries(params, a) == Entries(params, b);
  }

  /**
   The two kinds of entry look alike: a string bound to a parameter can pass for a session variable. Hence the
   counts that `SingleReadsSeparate` asks for.
   */
  lemma ParameterOrVariable(sql: string, name: string, v: string, pool: string)
    ensures KeyOf(Read([Statement(sql, [name])], map[name := Str(v)], [], pool))
         == KeyOf(Read([Statement(sql, [])], map[], [Variable(name, "s:" + v)], pool))
  {
    hide Key, StatementsKey;
    var a: Args, b: Args := map[name := Str(v)], map[];
    OneStatement(Statement(sql, [name]), a);
    OneStatement(Statement(sql, []), b);
    NoEntries(sql, a);
    NoEntries(sql, b);
    KeyMore(sql, [], name, a);
    assert [] + [name] == [name];
    var session := [Variable(name, "s:" + v)];
    assert session[1..] == [] && SessionKey([]) == "";
    assert SessionKey(session) == [NUL] + (name + "=" + ("s:" + v)) + "";
    assert sql + [NUL] + name + "=" + ("s:" + v) + "" == sql + ([NUL] + (name + "=" + ("s:" + v)) + "");
  }

  // A page, and a page with its count.

  /** The read of `s` alone and the read of `s` and `t`, by anybody: no two without NUL share a key. */
  ghost predicate NeverShared(s: Statement, t: Statement) {
    forall a: Read, b: Read :: a.stmts == [s] && b.stmts == [s, t] && |a.session| == |b.session| && Plain(a) && Plain(b)
      ==> KeyOf(a) != KeyOf(b)
  }

  /** What keeps them apart: `t` has a parameter, `s` has none, or the last one of `s` occurs in it before. */
  predicate TellsApart(s: Statement, t: Statement) {
    var last := |s.params| - 1;
    t.params != [] || s.params == [] || s.params[last] in s.params[..last]
  }

  /** Keys of reads without NUL that are equal have the same pieces. */
  lemma PlainPieces(a: Read, b: Read)
    requires KeyOf(a) == KeyOf(b) && Plain(a) && Plain(b)
    ensures ReadPieces(a) == ReadPieces(b)
  {
    hide Join, Pieces, Split;
    KeyIsJoin(a);
    KeyIsJoin(b);
    SplitJoin(ReadPieces(a), NUL);
    SplitJoin(ReadPieces(b), NUL);
  }

  lemma TwoPieces(s: Statement, t: Statement, args: Args)
    ensures Pieces([s, t], args) == Fused(StatementPieces(s, args), StatementPieces(t, args))
  {
    hide Entries, Fused;
    OnePiece(t, args);
    assert [s, t][1..] == [t];
  }

  /** Equal keys would give the statements of the two reads the same pieces, the sessions being equally long. */
  lemma SamePair(s: Statement, t: Statement, a: Read, b: Read)
    requires a.stmts == [s] && b.stmts == [s, t] && |a.session| == |b.session| && Plain(a) && Plain(b)
    requires KeyOf(a) == KeyOf(b)
    ensures StatementPieces(s, a.args) == Fused(StatementPieces(s, b.args), StatementPieces(t, b.args))
  {
    OnePiece(s, a.args);
    TwoPieces(s, t, b.args);
    hide Pieces, Entries, SessionEntry;
    PlainPieces(a, b);
    var p, q := Pieces(a.stmts, a.args), Pieces(b.stmts, b.args);
    assert |p| == |q|;
    assert ReadPieces(a)[..|p|] == p && ReadPieces(b)[..|q|] == q;
  }

  /** The pieces of `s` and `t` read together are never those of `s` read alone, where something tells them apart. */
  lemma PiecesApart(s: Statement, t: Statement, a: Args, b: Args)
    requires TellsApart(s, t) && t.sql != "" && PlainNames(s.params)
    ensures StatementPieces(s, a) != Fused(StatementPieces(s, b), StatementPieces(t, b))
  {
    hide Entry, ValueOf;
    var p, q, k := StatementPieces(s, b), StatementPieces(t, b), |s.params|;
    FusedHead(p, q);
    if t.params == [] && StatementPieces(s, a) == Fused(p, q) {
      var x := StatementPieces(s, a);
      assert x[k] == p[k] + t.sql;
      if k > 0 { RepeatedEntry(s, a, b, x, p); }
    }
  }

  /** A name that occurs before has its value in an entry of its own, so nothing can have been added to the last. */
  lemma RepeatedEntry(s: Statement, a: Args, b: Args, x: seq<string>, p: seq<string>)
    requires s.params != [] && PlainNames(s.params) && s.params[|s.params| - 1] in s.params[..|s.params| - 1]
    requires x == StatementPieces(s, a) && p == StatementPieces(s, b)
    requires forall i :: 0 <= i < |s.params| ==> x[i] == p[i]
    ensures x[|s.params|] == p[|s.params|]
  {
    hide Entry, ValueOf;
    var k := |s.params| - 1;
    var name := s.params[k];
    var j :| 0 <= j < k && s.params[..k][j] == name;
    assert x[j + 1] == Entry(name, ValueOf(a, name)) && p[j + 1] == Entry(name, ValueOf(b, name));
    assert x[k + 1] == Entry(name, ValueOf(a, name)) && p[k + 1] == Entry(name, ValueOf(b, name));
  }

  /** Two reads without NUL that share a key, where nothing tells them apart. */
  lemma SharedReads(s: Statement, t: Statement) returns (a: Read, b: Read)
    requires !TellsApart(s, t) && NUL !in s.sql && NUL !in t.sql && PlainNames(s.params)
    ensures a.stmts == [s] && b.stmts == [s, t] && |a.session| == |b.session| && Plain(a) && Plain(b)
    ensures KeyOf(a) == KeyOf(b)
  {
    var name := s.params[|s.params| - 1];
    a := Read([s], map[name := Str("" + t.sql)], [], "");
    b := Read([s, t], map[name := Str("")], [], "");
    assert t == Statement(t.sql, []);
    StatementsRunTogether(s, name, t.sql, "", map[], [], "");
    OnePiece(s, a.args);
    TwoPieces(s, t, b.args);
    hide Pieces, Key, KeyOf;
    PlainStatement(s, a.args, name);
    PlainStatement(s, b.args, name);
    FusedPlain(StatementPieces(s, b.args), StatementPieces(t, b.args));
    PlainRead(a);
    PlainRead(b);
  }

  lemma PlainRead(read: Read)
    requires read.session == [] && read.pool == "" && AllPlain(Pieces(read.stmts, read.args))
    ensures Plain(read)
  {
    hide Pieces;
    assert SessionEntries([]) == [];
  }

  lemma FusedPlain(p: seq<string>, q: seq<string>)
    requires p != [] && q != [] && AllPlain(p) && AllPlain(q)
    ensures AllPlain(Fused(p, q))
  {
  }

  lemma PlainStatement(s: Statement, args: Args, name: string)
    requires NUL !in s.sql && PlainNames(s.params) && args.Keys == {name} && args[name].Str? && NUL !in args[name].s
    ensures AllPlain(StatementPieces(s, args))
  {
    hide Entry, Rendered;
    var pieces := StatementPieces(s, args);
    forall i | 0 <= i < |pieces| ensures NUL !in pieces[i] {
      if i > 0 {
        var value := ValueOf(args, s.params[i - 1]);
        RenderedPlain(value);
        EntryPlain(s.params[i - 1], value);
      }
    }
  }

  /**
   A page and a page with its count never share a key, for requests without NUL, exactly when the second statement
   has a parameter, or the first has none, or the last one of the first occurs in it more than once.
   */
  lemma PairsStayApart(s: Statement, t: Statement)
    requires NUL !in s.sql && NUL !in t.sql && t.sql != "" && PlainNames(s.params)
    ensures NeverShared(s, t) <==> TellsApart(s, t)
  {
    hide KeyOf, Plain, Fused;
    if TellsApart(s, t) {
      forall a: Read, b: Read | a.stmts == [s] && b.stmts == [s, t] && |a.session| == |b.session|
        && Plain(a) && Plain(b)
        ensures KeyOf(a) != KeyOf(b)
      {
        PiecesApart(s, t, a.args, b.args);
        if KeyOf(a) == KeyOf(b) { SamePair(s, t, a, b); }
      }
    } else {
      var a, b := SharedReads(s, t);
    }
  }
}
