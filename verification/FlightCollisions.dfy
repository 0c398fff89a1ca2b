/** When the keys of one statement tell all its bindings apart, whatever the values contain. */
module FlightCollisions {
  import opened FlightKeys

  /** What follows the statement in a key. */
  function Tail(params: seq<string>, args: Args): string {
    if params == [] then "" else [NUL] + Entry(params[0], ValueOf(args, params[0])) + Tail(params[1..], args)
  }

  lemma {:induction false} TailConcat(p: seq<string>, q: seq<string>, args: Args)
    ensures Tail(p + q, args) == Tail(p, args) + Tail(q, args)
  {
    hide Entry;
    if p == [] {
      assert p + q == q;
    } else {
      TailConcat(p[1..], q, args);
      assert (p + q)[1..] == p[1..] + q;
    }
  }

  lemma {:induction false} TailSame(p: seq<string>, a: Args, b: Args)
    requires forall x :: x in p ==> ValueOf(a, x) == ValueOf(b, x)
    ensures Tail(p, a) == Tail(p, b)
  {
    hide Entry, ValueOf;
    if p != [] { TailSame(p[1..], a, b); }
  }

  lemma {:induction false} KeyTail(sql: string, params: seq<string>, args: Args)
    ensures Key(sql, params, args) == sql + Tail(params, args)
    decreases |params|
  {
    hide Key, Tail, Rendered;
    if params == [] {
      NoEntries(sql, args);
      NoTail(args);
      assert sql + "" == sql;
    } else {
      var k := |params| - 1;
      var front, name := params[..k], params[k];
      assert params == front + [name];
      KeyTail(sql, front, args);
      KeyMore(sql, front, name, args);
      TailConcat(front, [name], args);
      LastTail(name, args);
      assert sql + Tail(front, args) + [NUL] + name + "=" + Rendered(ValueOf(args, name))
          == sql + (Tail(front, args) + ([NUL] + (name + "=" + Rendered(ValueOf(args, name)))));
    }
  }

  lemma LastTail(name: string, args: Args)
    ensures Tail([name], args) == [NUL] + (name + "=" + Rendered(ValueOf(args, name)))
  {
    hide Rendered;
    assert [name][1..] == [] && Tail([], args) == "";
    assert Tail([name], args) == [NUL] + Entry(name, ValueOf(args, name)) + "";
  }

  /** Equal keys of a statement mean equal values of its parameters. */
  ghost predicate Separates(sql: string, params: seq<string>) {
    forall a: Args, b: Args :: Key(sql, params, a) == Key(sql, params, b) ==>
      forall i :: 0 <= i < |params| ==> ValueOf(a, params[i]) == ValueOf(b, params[i])
  }

  // One name, however often.

  ghost predicate OneName(params: seq<string>, name: string) {
    forall i :: 0 <= i < |params| ==> params[i] == name
  }

  lemma {:induction false} TailLength(params: seq<string>, name: string, args: Args)
    requires OneName(params, name)
    ensures |Tail(params, args)| == |params| * (1 + |Entry(name, ValueOf(args, name))|)
  {
    hide Entry;
    if params != [] {
      TailLength(params[1..], name, args);
      var size := 1 + |Entry(name, ValueOf(args, name))|;
      assert |params| * size == (|params| - 1) * size + size;
    }
  }

  lemma SameFactor(n: nat, a: nat, b: nat)
    requires n > 0 && n * a == n * b
    ensures a == b
  {
    assert n * (a - b) == 0;
  }

  /**
   With a single name keys tell all bindings apart, with NUL or without: the length of the key gives that of the value.
   */
  lemma OneNameSeparates(sql: string, params: seq<string>, name: string)
    requires OneName(params, name) && '=' !in name
    ensures Separates(sql, params)
  {
    hide Key, Entry, Tail;
    forall a: Args, b: Args | Key(sql, params, a) == Key(sql, params, b) && params != []
      ensures ValueOf(a, name) == ValueOf(b, name)
    {
      KeyTail(sql, params, a);
      KeyTail(sql, params, b);
      assert Tail(params, a) == (sql + Tail(params, a))[|sql|..] && Tail(params, b) == (sql + Tail(params, b))[|sql|..];
      TailLength(params, name, a);
      TailLength(params, name, b);
      var x, y := Entry(name, ValueOf(a, name)), Entry(name, ValueOf(b, name));
      SameFactor(|params|, 1 + |x|, 1 + |y|);
      FirstEntry(params, name, a);
      FirstEntry(params, name, b);
      EntryInjective(name, ValueOf(a, name), name, ValueOf(b, name));
    }
  }

  lemma FirstEntry(params: seq<string>, name: string, args: Args)
    requires params != [] && params[0] == name
    ensures var entry := Entry(name, ValueOf(args, name));
      |Tail(params, args)| >= 1 + |entry| && Tail(params, args)[1..1 + |entry|] == entry
  {
    hide Entry;
  }

  // Two names.

  /** What comes before the text of a string in a key. */
  function Front(name: string): string {
    [NUL] + (name + "=" + "s:")
  }

  lemma TailOfString(name: string, rest: seq<string>, args: Args, s: string)
    requires ValueOf(args, name) == Str(s)
    ensures Tail([name] + rest, args) == Front(name) + s + Tail(rest, args)
  {
    assert ([name] + rest)[1..] == rest;
    assert [NUL] + (name + "=" + ("s:" + s)) == Front(name) + s;
  }

  /** The last place of `x`, with what is before and after it. */
  lemma {:induction false} LastOf(p: seq<string>, x: string) returns (before: seq<string>, after: seq<string>)
    requires x in p
    ensures p == before + [x] + after && x !in after
  {
    var k := |p| - 1;
    if p[k] == x {
      before, after := p[..k], [];
    } else {
      assert p == p[..k] + [p[k]];
      before, after := LastOf(p[..k], x);
      after := after + [p[k]];
    }
  }

  lemma TailAt(before: seq<string>, x: string, after: seq<string>, args: Args, s: string)
    requires ValueOf(args, x) == Str(s)
    ensures Tail(before + [x] + after, args) == Tail(before, args) + (Front(x) + s + Tail(after, args))
  {
    hide Tail, Front;
    TailConcat(before, [x] + after, args);
    assert before + [x] + after == before + ([x] + after);
    TailOfString(x, after, args, s);
  }

  /**
   A value for `x` that lets `lead` and a string of `y` stand in front of what is meant for `x`, and with which the
   tail of `q` still ends as it did.
   */
  lemma Absorbing(lead: string, q: seq<string>, x: string, y: string, base: Args)
    returns (s: string, extra: string, more: string)
    requires ValueOf(base, x) == Str("")
    ensures s == lead + Front(y) + extra
    ensures Tail(q, base[x := Str(s)]) == more + Tail(q, base)
  {
    hide Tail, Front;
    if x in q {
      var q0, q1 := LastOf(q, x);
      extra := Tail(q0, base) + Front(x);
      s := lead + Front(y) + extra;
      var args := base[x := Str(s)];
      more := Tail(q0, args) + Front(x) + (lead + Front(y));
      TailAt(q0, x, q1, args, s);
      TailAt(q0, x, q1, base, "");
      TailSame(q1, args, base);
      assert Front(x) + "" == Front(x);
      assert Tail(q0, args) + (Front(x) + (lead + Front(y) + extra) + Tail(q1, base))
        == more + (extra + Tail(q1, base));
      assert extra + Tail(q1, base) == Tail(q0, base) + (Front(x) + Tail(q1, base));
    } else {
      extra, more := "", "";
      s := lead + Front(y);
      assert lead + Front(y) + "" == s && "" + Tail(q, base) == Tail(q, base);
      TailSame(q, base[x := Str(s)], base);
    }
  }

  /** A name that occurs once, with others before it: a value for the first of them can swallow what is bound to it. */
  lemma CollideAfter(sql: string, p: seq<string>, y: string, q: seq<string>, args: Args) returns (a: Args, b: Args)
    requires p != [] && y !in p && y !in q
    ensures Key(sql, p + [y] + q, a) == Key(sql, p + [y] + q, b) && ValueOf(a, y) != ValueOf(b, y)
  {
    hide Tail, Front, Key;
    var x, rest := p[0], p[1..];
    assert p == [x] + rest;
    var base := args[x := Str("")][y := Str("")];
    var lead := Tail(rest, base);
    var s, extra, more := Absorbing(lead, q, x, y, base);
    a := base[x := Str(s)];
    var swallowed := extra + Tail(rest, a) + Front(y) + more;
    b := base[y := Str(swallowed)];
    var all := p + [y] + q;
    TailAt(p, y, q, a, "");
    TailAt(p, y, q, b, swallowed);
    TailOfString(x, rest, a, s);
    TailOfString(x, rest, base, "");
    TailSame(p, b, base);
    TailSame(q, b, base);
    Swallow(Front(x), lead, Front(y), extra, Tail(rest, a), more, Tail(q, base));
    KeyTail(sql, all, a);
    KeyTail(sql, all, b);
    FrontLong(y);
  }

  lemma Swallow(fx: string, lead: string, fy: string, extra: string, rest: string, more: string, end: string)
    ensures (fx + (lead + fy + extra) + rest) + (fy + "" + (more + end))
         == (fx + "" + lead) + (fy + (extra + rest + fy + more) + end)
  {
    assert fx + (lead + fy + extra) + rest == fx + lead + fy + (extra + rest);
    assert (fx + "" + lead) + (fy + (extra + rest + fy + more) + end)
      == fx + lead + fy + (extra + rest) + (fy + (more + end));
  }

  lemma FrontLong(name: string)
    ensures Front(name) != ""
  {
  }

  /** A name that occurs once and first: a value for the last of the others can do it. */
  lemma CollideBefore(sql: string, y: string, q: seq<string>, args: Args) returns (a: Args, b: Args)
    requires q != [] && y !in q
    ensures Key(sql, [y] + q, a) == Key(sql, [y] + q, b) && ValueOf(a, y) != ValueOf(b, y)
  {
    hide Tail, Front, Key;
    var k := |q| - 1;
    var x, front := q[k], q[..k];
    assert q == front + [x] + [];
    var base := args[x := Str("")][y := Str("")];
    a := base[x := Str(Tail(q, base))];
    var swallowed := Tail(front, a) + Front(x);
    b := base[y := Str(swallowed)];
    TailOfString(y, q, a, "");
    TailOfString(y, q, b, swallowed);
    TailAt(front, x, [], a, Tail(q, base));
    NoTail(a);
    TailSame(q, b, base);
    assert Front(y) + "" + (Tail(front, a) + (Front(x) + Tail(q, base) + ""))
      == Front(y) + (Tail(front, a) + Front(x)) + Tail(q, base);
    KeyTail(sql, [y] + q, a);
    KeyTail(sql, [y] + q, b);
    FrontLong(x);
  }

  lemma NoTail(args: Args)
    ensures Tail([], args) == ""
  {
  }

  /**
   Without equally many parameters one request without NUL is not enough: the other's value can hold the missing one.
   */
  lemma CountsMatter(sql: string, x: string, y: string, u: string, v: string)
    requires x != y
    ensures Key(sql, [x, y], map[x := Str(u), y := Str(v)]) == Key(sql, [x], map[x := Str(u + Front(y) + v)])
  {
    hide Tail, Front, Key;
    var a, b: Args := map[x := Str(u), y := Str(v)], map[x := Str(u + Front(y) + v)];
    assert [x, y] == [x] + [y] && [x] == [x] + [] && [y] == [y] + [];
    TailOfString(x, [y], a, u);
    TailOfString(y, [], a, v);
    TailOfString(x, [], b, u + Front(y) + v);
    NoTail(a);
    NoTail(b);
    assert Front(x) + u + (Front(y) + v + "") == Front(x) + (u + Front(y) + v) + "";
    KeyTail(sql, [x, y], a);
    KeyTail(sql, [x], b);
  }

  /**
   A statement in which some name occurs once has keys that tell all bindings apart exactly when it is the only name.
   */
  lemma SeparatesExactly(sql: string, params: seq<string>, k: nat)
    requires k < |params| && params[k] !in params[..k] && params[k] !in params[k + 1..] && '=' !in params[k]
    ensures Separates(sql, params) <==> |params| == 1
  {
    hide Key, ValueOf;
    var p, y, q := params[..k], params[k], params[k + 1..];
    assert params == p + [y] + q;
    if |params| == 1 {
      OneNameSeparates(sql, params, y);
    } else if p != [] {
      var a, b := CollideAfter(sql, p, y, q, map[]);
    } else {
      assert params == [y] + q;
      var a, b := CollideBefore(sql, y, q, map[]);
    }
  }

  /** So it is for the numbering drivers, which have every name once. */
  lemma NumberedSeparatesExactly(sql: string, params: seq<string>)
    requires forall i :: 0 <= i < |params| ==> '=' !in params[i]
    requires forall i, j :: 0 <= i < j < |params| ==> params[i] != params[j]
    ensures Separates(sql, params) <==> |params| <= 1
  {
    if params != [] {
      assert params[0] !in params[1..];
      SeparatesExactly(sql, params, 0);
    }
  }

  // Every name more than once: then it depends on the arrangement.

  /** One name inside another's pair: a value of either kind can stand for what the other has. */
  lemma MirrorCollides(sql: string, x: string, y: string)
    requires x != y
    ensures !Separates(sql, [x, y, y, x])
  {
    hide Tail, Front, Key;
    var params := [x, y, y, x];
    var a: Args := map[x := Str(Front(y) + Front(x)), y := Str("")];
    var b: Args := map[x := Str(""), y := Str(Front(x) + Front(y))];
    FourStrings(x, y, a, Front(y) + Front(x), "");
    FourStrings(x, y, b, "", Front(x) + Front(y));
    var f, g := Front(x), Front(y);
    assert f + (g + f) + (g + "") + (g + "") + (f + (g + f)) == f + "" + (g + (f + g)) + (g + (f + g)) + (f + "");
    KeyTail(sql, params, a);
    KeyTail(sql, params, b);
    FrontLong(x);
    assert ValueOf(a, params[1]) != ValueOf(b, params[1]);
  }

  lemma FourStrings(x: string, y: string, args: Args, s: string, t: string)
    requires ValueOf(args, x) == Str(s) && ValueOf(args, y) == Str(t)
    ensures Tail([x, y, y, x], args) == Front(x) + s + (Front(y) + t) + (Front(y) + t) + (Front(x) + s)
  {
    hide Tail, Front;
    assert [x, y, y, x] == [x] + [y, y, x] && [y, y, x] == [y] + [y, x] && [y, x] == [y] + [x] && [x] == [x] + [];
    TailOfString(x, [y, y, x], args, s);
    TailOfString(y, [y, x], args, t);
    TailOfString(y, [x], args, t);
    TailOfString(x, [], args, s);
    NoTail(args);
    var f, g := Front(x) + s, Front(y) + t;
    assert f + (g + (g + (f + ""))) == f + g + g + f;
  }

  /** `p` goes on as `u` does, over and over. */
  ghost predicate Repeats(u: string, p: string) {
    u != "" && forall i :: 0 <= i < |p| ==> p[i] == (u + p)[i]
  }

  lemma {:induction false} RepeatsAlike(u: string, p: string, q: string, i: nat)
    requires Repeats(u, p) && Repeats(u, q) && i < |p| && i < |q|
    ensures p[i] == q[i]
  {
    if i >= |u| { RepeatsAlike(u, p, q, i - |u|); }
  }

  /** Two words, each twice: where the first of another such pair is shorter, both repeat what it lacks. */
  lemma PairsRepeat(a: string, b: string, a': string, b': string)
    requires a + a + b + b == a' + a' + b' + b' && |a'| < |a|
    ensures Repeats(a[|a'|..], a') && Repeats(a[|a'|..], b)
  {
    var w, u := a + a + b + b, a[|a'|..];
    assert w == a' + a' + b' + b';
    forall i | 0 <= i < |a'| ensures a'[i] == (u + a')[i] {
      assert w[|a'| + i] == a'[i];
      assert i < |u| ==> w[|a'| + i] == a[|a'| + i];
      assert i >= |u| ==> w[|a| + (i - |u|)] == a[i - |u|] && w[i - |u|] == a'[i - |u|];
    }
    forall i | 0 <= i < |b| ensures b[i] == (u + b)[i] {
      var n := |a'| + |a'|;
      assert w[2 * |a| + |b| + i] == b[i];
      assert w[n + (|u| + i)] == b'[|u| + i] && w[n + |b'| + (|u| + i)] == b'[|u| + i];
      assert i < |u| ==> w[|a| + (|a'| + i)] == a[|a'| + i];
      assert i >= |u| ==> w[2 * |a| + (i - |u|)] == b[i - |u|];
    }
  }

  /** Where the markers of two different names first differ. */
  lemma MarkersDiffer(x: string, y: string) returns (d: nat)
    requires x != y && '=' !in x && '=' !in y
    ensures d <= |x| && d <= |y| && (x + "=")[d] != (y + "=")[d]
  {
    var n := if |x| < |y| then |x| else |y|;
    if i :| 0 <= i < n && x[i] != y[i] {
      d := i;
    } else {
      d := n;
      assert |x| == |y| ==> x == y;
    }
  }

  /** Two names, each twice in a row: keys tell all bindings apart, with NUL or without. */
  lemma PairsSeparate(sql: string, x: string, y: string)
    requires x != y && '=' !in x && '=' !in y
    ensures Separates(sql, [x, x, y, y])
  {
    hide Tail, Key, Entry, ValueOf;
    var params := [x, x, y, y];
    forall a: Args, b: Args | Key(sql, params, a) == Key(sql, params, b)
      ensures ValueOf(a, x) == ValueOf(b, x) && ValueOf(a, y) == ValueOf(b, y)
    {
      KeyTail(sql, params, a);
      KeyTail(sql, params, b);
      assert Tail(params, a) == (sql + Tail(params, a))[|sql|..] && Tail(params, b) == (sql + Tail(params, b))[|sql|..];
      PairTail(x, y, a);
      PairTail(x, y, b);
      SamePairs(x, y, ValueOf(a, x), ValueOf(a, y), ValueOf(b, x), ValueOf(b, y));
    }
  }

  lemma PairTail(x: string, y: string, args: Args)
    ensures var p, q := [NUL] + Entry(x, ValueOf(args, x)), [NUL] + Entry(y, ValueOf(args, y));
      Tail([x, x, y, y], args) == p + p + q + q
  {
    hide Entry;
    var p, q := [NUL] + Entry(x, ValueOf(args, x)), [NUL] + Entry(y, ValueOf(args, y));
    assert [x, x, y, y][1..] == [x, y, y] && [x, y, y][1..] == [y, y] && [y, y][1..] == [y] && [y][1..] == [];
    NoTail(args);
    assert Tail([y], args) == q + "" && Tail([y, y], args) == q + Tail([y], args);
    assert Tail([x, y, y], args) == p + Tail([y, y], args);
    assert p + (p + (q + (q + ""))) == p + p + q + q;
  }

  lemma SamePairs(x: string, y: string, a: BoundValue, b: BoundValue, a': BoundValue, b': BoundValue)
    requires x != y && '=' !in x && '=' !in y
    requires var p, q, p', q' := [NUL] + Entry(x, a), [NUL] + Entry(y, b), [NUL] + Entry(x, a'), [NUL] + Entry(y, b');
      p + p + q + q == p' + p' + q' + q'
    ensures a == a' && b == b'
  {
    hide Entry;
    var p, q, p', q' := [NUL] + Entry(x, a), [NUL] + Entry(y, b), [NUL] + Entry(x, a'), [NUL] + Entry(y, b');
    NotShorter(x, y, a, b, a', b');
    NotShorter(x, y, a', b', a, b);
    SameWords(p, q, p', q');
    assert p[1..] == Entry(x, a) && p'[1..] == Entry(x, a') && q[1..] == Entry(y, b) && q'[1..] == Entry(y, b');
    EntryInjective(x, a, x, a');
    EntryInjective(y, b, y, b');
  }

  lemma SameWords(p: string, q: string, p': string, q': string)
    requires p + p + q + q == p' + p' + q' + q' && |p| == |p'|
    ensures p == p' && q == q'
  {
    var w, n := p + p + q + q, |p| + |p|;
    assert w[..|p|] == p && w[..|p|] == p';
    assert |q| == |q'| && w[n..n + |q|] == q && w[n..n + |q|] == q';
  }

  /** A shorter pair and the other's second word would have to begin alike, and they begin with different names. */
  lemma NotShorter(x: string, y: string, a: BoundValue, b: BoundValue, a': BoundValue, b': BoundValue)
    requires x != y && '=' !in x && '=' !in y
    requires var p, q, p', q' := [NUL] + Entry(x, a), [NUL] + Entry(y, b), [NUL] + Entry(x, a'), [NUL] + Entry(y, b');
      p + p + q + q == p' + p' + q' + q'
    ensures |Entry(x, a)| <= |Entry(x, a')|
  {
    hide Rendered;
    var p, q, p', q' := [NUL] + Entry(x, a), [NUL] + Entry(y, b), [NUL] + Entry(x, a'), [NUL] + Entry(y, b');
    var d := MarkersDiffer(x, y);
    assert p'[d + 1] == (x + "=")[d] && q[d + 1] == (y + "=")[d];
    if |p'| < |p| {
      PairsRepeat(p, q, p', q');
      RepeatsAlike(p[|p'|..], p', q, d + 1);
    }
  }
}
