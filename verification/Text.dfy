/** Splitting a string at a character, and joining the pieces again. */
module Text {
  /** The pieces of `s` between the occurrences of `c`; one more than there are occurrences. */
  function Split(s: string, c: char): (pieces: seq<string>)
    ensures pieces != []
  {
    if s == "" then [""]
    else
      var last, front := s[|s| - 1], Split(s[..|s| - 1], c);
      if last == c then front + [""]
      else Lengthened(front, [last])
  }

  function Join(parts: seq<string>, c: char): string {
    if parts == [] then ""
    else if |parts| == 1 then parts[0]
    else Join(parts[..|parts| - 1], c) + [c] + parts[|parts| - 1]
  }

  lemma SplitChar(s: string, x: char, c: char)
    ensures Split(s + [x], c) ==
      (var front := Split(s, c);
       if x == c then front + [""] else Lengthened(front, [x]))
  {
  }

  lemma {:induction false} SplitPieces(s: string, c: char)
    ensures forall i :: 0 <= i < |Split(s, c)| ==> c !in Split(s, c)[i]
  {
    if s != "" { SplitPieces(s[..|s| - 1], c); }
  }

  lemma {:induction false} JoinSplit(s: string, c: char)
    ensures Join(Split(s, c), c) == s
  {
    if s != "" {
      var last, front := s[|s| - 1], Split(s[..|s| - 1], c);
      JoinSplit(s[..|s| - 1], c);
      assert s == s[..|s| - 1] + [last];
      if last == c {
        JoinMore(front, "", c);
      } else if |front| == 1 {
        assert Split(s, c) == [front[0] + [last]];
      } else {
        JoinMore(front[..|front| - 1], front[|front| - 1] + [last], c);
      }
    }
  }

  lemma JoinMore(parts: seq<string>, part: string, c: char)
    requires parts != []
    ensures Join(parts + [part], c) == Join(parts, c) + [c] + part
  {
  }

  /** `pieces` with `t` at the end of the last one. */
  function Lengthened(pieces: seq<string>, t: string): seq<string>
    requires pieces != []
  {
    pieces[..|pieces| - 1] + [pieces[|pieces| - 1] + t]
  }

  lemma LengthenedTwice(pieces: seq<string>, t: string, x: char)
    requires pieces != []
    ensures Lengthened(Lengthened(pieces, t), [x]) == Lengthened(pieces, t + [x])
  {
    var last := pieces[|pieces| - 1];
    assert last + t + [x] == last + (t + [x]);
  }

  lemma LengthenedEmpty(pieces: seq<string>)
    requires pieces != []
    ensures Lengthened(pieces, "") == pieces
  {
    assert pieces[|pieces| - 1] + "" == pieces[|pieces| - 1];
  }

  lemma LengthenedNew(pieces: seq<string>, t: string)
    ensures Lengthened(pieces + [""], t) == pieces + [t]
  {
    assert "" + t == t;
  }

  /** Text without the separator only lengthens the last piece. */
  lemma {:induction false} SplitPlain(s: string, t: string, c: char)
    requires c !in t
    ensures Split(s + t, c) == Lengthened(Split(s, c), t)
  {
    hide Split;
    if t == "" {
      assert s + t == s && Lengthened(Split(s, c), "") == Split(s, c) by { LengthenedEmpty(Split(s, c)); }
    } else {
      var k := |t| - 1;
      SplitPlain(s, t[..k], c);
      assert t == t[..k] + [t[k]] && s + t == (s + t[..k]) + [t[k]];
      SplitChar(s + t[..k], t[k], c);
      LengthenedTwice(Split(s, c), t[..k], t[k]);
    }
  }

  lemma {:induction false} SplitJoin(parts: seq<string>, c: char)
    requires parts != [] && forall i :: 0 <= i < |parts| ==> c !in parts[i]
    ensures Split(Join(parts, c), c) == parts
  {
    var k := |parts| - 1;
    assert parts == parts[..k] + [parts[k]];
    if k == 0 {
      SplitPlain("", parts[0], c);
      assert "" + parts[0] == parts[0];
    } else {
      SplitJoin(parts[..k], c);
      SplitJoined(Join(parts[..k], c), parts[k], c);
    }
  }

  lemma SplitJoined(front: string, part: string, c: char)
    requires c !in part
    ensures Split(front + [c] + part, c) == Split(front, c) + [part]
  {
    hide Split;
    SplitChar(front, c, c);
    SplitPlain(front + [c], part, c);
    LengthenedNew(Split(front, c), part);
  }

  lemma SplitOne(s: string, c: char)
    requires c !in s
    ensures Split(s, c) == [s]
  {
    SplitPlain("", s, c);
    assert "" + s == s;
  }

  lemma {:induction false} SplitConcat(s: string, t: string, c: char)
    ensures Split(s + [c] + t, c) == Split(s, c) + Split(t, c)
  {
    hide Split;
    if t == "" {
      SplitOne("", c);
      assert s + [c] + t == s + [c];
      SplitChar(s, c, c);
    } else {
      var k := |t| - 1;
      SplitConcat(s, t[..k], c);
      assert t == t[..k] + [t[k]] && s + [c] + t == (s + [c] + t[..k]) + [t[k]];
      SplitChar(t[..k], t[k], c);
      SplitChar(s + [c] + t[..k], t[k], c);
    }
  }

  lemma {:induction false} JoinConcat(a: seq<string>, b: seq<string>, c: char)
    requires a != [] && b != []
    ensures Join(a + b, c) == Join(a, c) + [c] + Join(b, c)
    decreases |b|
  {
    hide Join;
    var k := |b| - 1;
    assert b == b[..k] + [b[k]];
    if k == 0 {
      JoinMore(a, b[0], c);
      JoinSingle(b[0], c);
    } else {
      JoinConcat(a, b[..k], c);
      assert a + b == (a + b[..k]) + [b[k]];
      JoinMore(a + b[..k], b[k], c);
      JoinMore(b[..k], b[k], c);
    }
  }

  lemma JoinSingle(s: string, c: char)
    ensures Join([s], c) == s
  {
  }
}
