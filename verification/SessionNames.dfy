/** The names session variables may have, and what they are called on a MySQL connection. */
module SessionNames {
  import opened SqlLexer
  import opened Text

  /** A letter or underscore, then letters, digits and underscores. */
  predicate IsIdentifier(t: string) {
    t != "" && IsNameStart(t[0]) && forall i :: 0 <= i < |t| ==> IsNameChar(t[i])
  }

  /** Identifiers joined by dots. */
  predicate IsVariableName(name: string) {
    forall i :: 0 <= i < |Split(name, '.')| ==> IsIdentifier(Split(name, '.')[i])
  }

  /** Identifiers so far, and at the end what is empty or one already. */
  ghost predicate Promising(pieces: seq<string>)
    requires pieces != []
  {
    && (forall i :: 0 <= i < |pieces| - 1 ==> IsIdentifier(pieces[i]))
    && (Last(pieces) == "" || IsIdentifier(Last(pieces)))
  }

  function Last(pieces: seq<string>): string
    requires pieces != []
  {
    pieces[|pieces| - 1]
  }

  /** A piece that no continuation makes an identifier. */
  ghost predicate Hopeless(pieces: seq<string>)
    requires pieces != []
  {
    || (exists i :: 0 <= i < |pieces| - 1 && !IsIdentifier(pieces[i]))
    || (Last(pieces) != "" && !IsIdentifier(Last(pieces)))
  }

  lemma NextChar(s: string, x: char)
    requires Promising(Split(s, '.'))
    ensures Last(Split(s + [x], '.')) == if x == '.' then "" else Last(Split(s, '.')) + [x]
    ensures Promising(Split(s + [x], '.')) <==>
      if x == '.' then Last(Split(s, '.')) != ""
      else IsNameStart(x) || (IsDigit(x) && Last(Split(s, '.')) != "")
    ensures !Promising(Split(s + [x], '.')) ==> Hopeless(Split(s + [x], '.'))
  {
    hide Split;
    SplitChar(s, x, '.');
    var before, after := Split(s, '.'), Split(s + [x], '.');
    var k := |before| - 1;
    assert forall i :: 0 <= i < k ==> after[i] == before[i];
    if x == '.' {
      assert after[k] == before[k];
    } else {
      assert after[k] == before[k] + [x];
      assert after[k][|before[k]|] == x;
      assert before[k] != "" ==> after[k][0] == before[k][0];
      assert forall i :: 0 <= i < |before[k]| ==> after[k][i] == before[k][i];
    }
  }

  lemma {:induction false} HopelessStays(s: string, t: string)
    requires Hopeless(Split(s, '.'))
    ensures Hopeless(Split(s + t, '.'))
  {
    hide Split, IsIdentifier;
    if t == "" {
      assert s + t == s;
    } else {
      var k := |t| - 1;
      HopelessStays(s, t[..k]);
      assert s + t == s + t[..k] + [t[k]];
      HopelessNext(s + t[..k], t[k]);
    }
  }

  lemma HopelessNext(s: string, x: char)
    requires Hopeless(Split(s, '.'))
    ensures Hopeless(Split(s + [x], '.'))
  {
    hide Split;
    SplitChar(s, x, '.');
    var before, after := Split(s, '.'), Split(s + [x], '.');
    var k := |before| - 1;
    if i :| 0 <= i < k && !IsIdentifier(before[i]) {
      assert after[i] == before[i];
    } else if x == '.' {
      assert after[k] == before[k] && !IsIdentifier(after[k]);
    } else {
      assert after[k] == before[k] + [x];
      assert forall i :: 0 <= i < |before[k]| ==> after[k][i] == before[k][i];
    }
  }

  lemma HopelessIsNoName(name: string, n: nat)
    requires n <= |name| && Hopeless(Split(name[..n], '.'))
    ensures !IsVariableName(name)
  {
    hide Split;
    assert name == name[..n] + name[n..];
    HopelessStays(name[..n], name[n..]);
    var pieces := Split(name, '.');
    if i :| 0 <= i < |pieces| - 1 && !IsIdentifier(pieces[i]) {
    } else {
      assert !IsIdentifier(pieces[|pieces| - 1]);
    }
  }

  lemma EmptyPromising()
    ensures Promising(Split("", '.')) && Last(Split("", '.')) == "" && !IsVariableName("")
  {
  }

  lemma Finished(name: string)
    requires Promising(Split(name, '.'))
    ensures IsVariableName(name) <==> Last(Split(name, '.')) != ""
  {
  }

  /** `ValidateSessionVariableName`: the one-pass scan accepts exactly dotted identifiers. */
  method ValidateSessionVariableName(name: string) returns (ok: bool)
    ensures ok <==> IsVariableName(name)
  {
    EmptyPromising();
    if name == "" { return false; }
    hide Split, IsVariableName, Promising, Hopeless, Last;
    var atSegmentStart := true;
    for i := 0 to |name|
      invariant Promising(Split(name[..i], '.'))
      invariant atSegmentStart <==> Last(Split(name[..i], '.')) == ""
    {
      var c := name[i];
      assert name[..i + 1] == name[..i] + [c];
      NextChar(name[..i], c);
      if c == '.' {
        if atSegmentStart {
          HopelessIsNoName(name, i + 1);
          return false;
        }
        atSegmentStart := true;
      } else if IsNameStart(c) {
        atSegmentStart := false;
      } else if IsDigit(c) {
        if atSegmentStart {
          HopelessIsNoName(name, i + 1);
          return false;
        }
      } else {
        HopelessIsNoName(name, i + 1);
        return false;
      }
    }
    assert name[..|name|] == name;
    Finished(name);
    return !atSegmentStart;
  }

  /** `mysqlVariableName`: every dot an underscore. */
  function MysqlVariableName(name: string): (r: string)
    ensures |r| == |name| && forall i :: 0 <= i < |r| ==> r[i] == if name[i] == '.' then '_' else name[i]
  {
    seq(|name|, i requires 0 <= i < |name| => if name[i] == '.' then '_' else name[i])
  }

  /** A valid name is one identifier there, so it cannot end the statement it is written into. */
  lemma VariableIsIdentifier(name: string)
    requires IsVariableName(name)
    ensures IsIdentifier(MysqlVariableName(name))
  {
    var r := MysqlVariableName(name);
    JoinSplit(name, '.');
    JoinedNameChars(Split(name, '.'));
  }

  lemma {:induction false} JoinedNameChars(parts: seq<string>)
    requires parts != [] && forall i :: 0 <= i < |parts| ==> IsIdentifier(parts[i])
    ensures var s := Join(parts, '.');
      s != "" && IsNameStart(s[0]) && forall i :: 0 <= i < |s| ==> IsNameChar(s[i]) || s[i] == '.'
  {
    if |parts| > 1 { JoinedNameChars(parts[..|parts| - 1]); }
  }

  /** Two settings share a variable exactly when they differ only in dots against underscores. */
  lemma SharedVariable(a: string, b: string)
    ensures MysqlVariableName(a) == MysqlVariableName(b) <==>
      |a| == |b| && forall i :: 0 <= i < |a| ==> a[i] == b[i] || {a[i], b[i]} == {'.', '_'}
  {
  }
}
