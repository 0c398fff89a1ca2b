/** The keys under which identical reads share one query. */
module FlightKeys {
  import opened Decimals
  import opened Text

  /** What is bound to a parameter; an integer is the same whatever its width. */
  datatype BoundValue = Unset | Nil | Str(s: string) | Bytes(s: string) | Whole(n: int) | Bool(b: bool)

  type Args = map<string, BoundValue>

  const NUL: char := '\0'

  function ValueOf(args: Args, name: string): BoundValue {
    if name in args then args[name] else Unset
  }

  /** `writeBound`, and the text of a parameter with no value. */
  function Rendered(value: BoundValue): string {
    match value
    case Unset => "<unset>"
    case Nil => "nil"
    case Str(s) => "s:" + s
    case Bytes(s) => "b:" + s
    case Whole(n) => "i:" + Signed(n)
    case Bool(b) => "t:" + (if b then "true" else "false")
  }

  lemma UnsetRendered()
    ensures Rendered(Unset) == "<unset>"
  {
  }

  function Entry(name: string, value: BoundValue): string {
    name + "=" + Rendered(value)
  }

  function Entries(params: seq<string>, args: Args): (r: seq<string>)
    ensures |r| == |params| && forall i :: 0 <= i < |r| ==> r[i] == Entry(params[i], ValueOf(args, params[i]))
  {
    seq(|params|, i requires 0 <= i < |params| => Entry(params[i], ValueOf(args, params[i])))
  }

  /** `flightKey`: the statement and its entries, NUL between them. */
  method FlightKey(sql: string, params: seq<string>, args: Args) returns (key: string)
    ensures key == Key(sql, params, args)
  {
    hide Join, Rendered, Entries;
    key := sql;
    NoEntries(sql, args);
    for i := 0 to |params|
      invariant key == Key(sql, params[..i], args)
    {
      var name := params[i];
      KeyMore(sql, params[..i], name, args);
      assert params[..i + 1] == params[..i] + [name];
      key := key + [NUL];
      key := key + name;
      key := key + "=";
      if name !in args {
        UnsetRendered();
        key := key + "<unset>";
      } else {
        key := key + Rendered(args[name]);
      }
    }
    assert params[..|params|] == params;
  }

  function Key(sql: string, params: seq<string>, args: Args): string {
    Join([sql] + Entries(params, args), NUL)
  }

  lemma NoEntries(sql: string, args: Args)
    ensures Key(sql, [], args) == sql
  {
  }

  lemma KeyMore(sql: string, params: seq<string>, name: string, args: Args)
    ensures Key(sql, params + [name], args)
        == Key(sql, params, args) + [NUL] + name + "=" + Rendered(ValueOf(args, name))
  {
    hide Join, Rendered;
    var entry := Entry(name, ValueOf(args, name));
    assert [sql] + Entries(params + [name], args) == [sql] + Entries(params, args) + [entry];
    JoinMore([sql] + Entries(params, args), entry, NUL);
  }

  // Separation.

  /** Names as the rewriter reads them contain neither of the key's own separators. */
  ghost predicate PlainNames(params: seq<string>) {
    forall i :: 0 <= i < |params| ==> NUL !in params[i] && '=' !in params[i]
  }

  ghost predicate PlainValues(params: seq<string>, args: Args) {
    forall i :: 0 <= i < |params| ==> NUL !in Rendered(ValueOf(args, params[i]))
  }

  /** A value without NUL is rendered without it; only strings and bytes can have one. */
  lemma RenderedPlain(value: BoundValue)
    ensures NUL in Rendered(value) <==> (value.Str? || value.Bytes?) && NUL in value.s
  {
  }

  lemma RenderedInjective(a: BoundValue, b: BoundValue)
    requires Rendered(a) == Rendered(b)
    ensures a == b
  {
    assert Rendered(a)[0] == Rendered(b)[0];
    if a.Str? || a.Bytes? {
      assert a.s == Rendered(a)[2..] && b.s == Rendered(b)[2..];
    } else if a.Whole? {
      assert Signed(a.n) == Rendered(a)[2..] && Signed(b.n) == Rendered(b)[2..];
      SignedInjective(a.n, b.n);
    } else if a.Bool? {
      assert Rendered(a)[2] == Rendered(b)[2];
    }
  }

  /** An entry is read back up to its first equals sign. */
  lemma EntryInjective(m: string, a: BoundValue, n: string, b: BoundValue)
    requires '=' !in m && '=' !in n && Entry(m, a) == Entry(n, b)
    ensures m == n && a == b
  {
    assert Entry(m, a)[|m|] == '=' && Entry(n, b)[|n|] == '=';
    assert m == Entry(m, a)[..|m|] && n == Entry(n, b)[..|n|];
    assert Rendered(a) == Entry(m, a)[|m| + 1..] && Rendered(b) == Entry(n, b)[|n| + 1..];
    RenderedInjective(a, b);
  }

  lemma EntryPlain(name: string, value: BoundValue)
    requires NUL !in name
    ensures NUL in Entry(name, value) <==> NUL in Rendered(value)
  {
  }

  lemma KeySplits(sql: string, params: seq<string>, args: Args)
    requires NUL !in sql && PlainNames(params) && PlainValues(params, args)
    ensures Split(Key(sql, params, args), NUL) == [sql] + Entries(params, args)
  {
    forall i | 0 <= i < |params| ensures NUL !in Entries(params, args)[i] {
      EntryPlain(params[i], ValueOf(args, params[i]));
    }
    SplitJoin([sql] + Entries(params, args), NUL);
  }

  /** Equal keys of plain requests are those of the same statement with the same values. */
  lemma PlainKeysSeparate(sql1: string, params1: seq<string>, args1: Args, sql2: string, params2: seq<string>,
                          args2: Args)
    requires NUL !in sql1 && PlainNames(params1) && PlainValues(params1, args1)
    requires NUL !in sql2 && PlainNames(params2) && PlainValues(params2, args2)
    requires Key(sql1, params1, args1) == Key(sql2, params2, args2)
    ensures sql1 == sql2 && params1 == params2
    ensures forall i :: 0 <= i < |params1| ==> ValueOf(args1, params1[i]) == ValueOf(args2, params1[i])
  {
    hide Join, Split, Key, PlainValues, Entry;
    KeySplits(sql1, params1, args1);
    KeySplits(sql2, params2, args2);
    var e1, e2 := [sql1] + Entries(params1, args1), [sql2] + Entries(params2, args2);
    assert e1[0] == e2[0] && |e1| == |e2|;
    forall i | 0 <= i < |params1|
      ensures params1[i] == params2[i] && ValueOf(args1, params1[i]) == ValueOf(args2, params2[i])
    {
      assert e1[i + 1] == e2[i + 1];
      EntryInjective(params1[i], ValueOf(args1, params1[i]), params2[i], ValueOf(args2, params2[i]));
    }
  }

  /** The text before the first NUL of a key is the statement, whatever is bound. */
  lemma SameStatement(sql1: string, params1: seq<string>, args1: Args, sql2: string, params2: seq<string>, args2: Args)
    requires NUL !in sql1 && NUL !in sql2 && Key(sql1, params1, args1) == Key(sql2, params2, args2)
    ensures sql1 == sql2
  {
    KeyStart(sql1, params1, args1);
    KeyStart(sql2, params2, args2);
    var key := Key(sql1, params1, args1);
    assert key[..|sql1|] == sql1 && key[..|sql2|] == sql2;
  }

  lemma {:induction false} KeyStart(sql: string, params: seq<string>, args: Args)
    ensures sql <= Key(sql, params, args)
    ensures |Key(sql, params, args)| > |sql| ==> Key(sql, params, args)[|sql|] == NUL
    decreases |params|
  {
    if params == [] {
      NoEntries(sql, args);
    } else {
      var k := |params| - 1;
      assert params == params[..k] + [params[k]];
      KeyStart(sql, params[..k], args);
      KeyMore(sql, params[..k], params[k], args);
    }
  }

  // Counting.

  function Nuls(s: string): nat {
    multiset(s)[NUL]
  }

  ghost predicate AllPlain(parts: seq<string>) {
    forall i :: 0 <= i < |parts| ==> NUL !in parts[i]
  }

  lemma {:induction false} JoinCount(parts: seq<string>)
    requires parts != []
    ensures Nuls(Join(parts, NUL)) >= |parts| - 1
    ensures Nuls(Join(parts, NUL)) == |parts| - 1 <==> AllPlain(parts)
  {
    hide Nuls, AllPlain, Join;
    var k := |parts| - 1;
    assert parts == parts[..k] + [parts[k]];
    PlainMore(parts[..k], parts[k]);
    if k > 0 {
      JoinCount(parts[..k]);
      JoinMore(parts[..k], parts[k], NUL);
      CountMore(Join(parts[..k], NUL), parts[k]);
    } else {
      CountMore("", parts[0]);
      JoinOne(parts);
      assert parts[..0] == [];
    }
  }

  lemma JoinOne(parts: seq<string>)
    requires |parts| == 1
    ensures Join(parts, NUL) == parts[0]
  {
  }

  lemma PlainMore(front: seq<string>, last: string)
    ensures AllPlain(front + [last]) <==> AllPlain(front) && NUL !in last
    ensures AllPlain([])
  {
    var all := front + [last];
    assert all[|front|] == last && forall i :: 0 <= i < |front| ==> all[i] == front[i];
  }

  lemma CountMore(front: string, last: string)
    ensures Nuls(front + [NUL] + last) == Nuls(front) + 1 + Nuls(last)
    ensures Nuls(last) == 0 <==> NUL !in last
  {
  }

  /**
   Of two requests with equally many parameters it is enough that one binds no NUL: a key has as many separators as
   its statement has parameters, and one made with a NUL has more.
   */
  lemma KeysSeparate(sql1: string, params1: seq<string>, args1: Args, sql2: string, params2: seq<string>, args2: Args)
    requires NUL !in sql1 && NUL !in sql2 && PlainNames(params1) && PlainNames(params2)
    requires |params1| == |params2| && PlainValues(params1, args1)
    requires Key(sql1, params1, args1) == Key(sql2, params2, args2)
    ensures sql1 == sql2 && params1 == params2
    ensures forall i :: 0 <= i < |params1| ==> ValueOf(args1, params1[i]) == ValueOf(args2, params1[i])
  {
    hide Join, Entries, PlainValues, PlainNames;
    PlainCount(sql1, params1, args1);
    PlainCount(sql2, params2, args2);
    PlainKeysSeparate(sql1, params1, args1, sql2, params2, args2);
  }

  /** A key has one NUL to a parameter exactly when no value has one of its own. */
  lemma PlainCount(sql: string, params: seq<string>, args: Args)
    requires NUL !in sql && PlainNames(params)
    ensures Nuls(Key(sql, params, args)) == |params| <==> PlainValues(params, args)
  {
    hide Join, Rendered, Entry, Nuls;
    var parts := [sql] + Entries(params, args);
    JoinCount(parts);
    forall i | 0 <= i < |params| ensures NUL in parts[i + 1] <==> NUL in Rendered(ValueOf(args, params[i])) {
      assert parts[i + 1] == Entry(params[i], ValueOf(args, params[i]));
      EntryPlain(params[i], ValueOf(args, params[i]));
    }
    if PlainValues(params, args) {
      forall i | 0 <= i < |parts| ensures NUL !in parts[i] {
        if i > 0 { assert NUL in parts[i] <==> NUL in Rendered(ValueOf(args, params[i - 1])); }
      }
    }
  }
}
