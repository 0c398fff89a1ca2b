/** Which names Kubernetes accepts: a one-pass scan, and the grammar it decides. */
module ObjectNames {
  import opened Text

  const MAX_SUBDOMAIN := 253
  const MAX_LABEL := 63

  predicate IsAlphanumeric(c: char) {
    'a' <= c <= 'z' || '0' <= c <= '9'
  }

  /** A non-empty run of lower-case alphanumerics and hyphens with an alphanumeric at either end. */
  predicate IsLabel(t: string) {
    && t != "" && IsAlphanumeric(t[0]) && IsAlphanumeric(t[|t| - 1])
    && forall i :: 0 <= i < |t| ==> IsAlphanumeric(t[i]) || t[i] == '-'
  }

  /** Labels joined by dots. */
  predicate IsSubdomain(name: string) {
    |name| <= MAX_SUBDOMAIN && forall i :: 0 <= i < |Split(name, '.')| ==> IsLabel(Split(name, '.')[i])
  }

  /** What may still become a label. */
  ghost predicate LabelStart(t: string) {
    (t != "" ==> IsAlphanumeric(t[0])) && forall i :: 0 <= i < |t| ==> IsAlphanumeric(t[i]) || t[i] == '-'
  }

  /** Every piece but the last is a label, and the last may become one. */
  ghost predicate Promising(pieces: seq<string>)
    requires pieces != []
  {
    && (forall i :: 0 <= i < |pieces| - 1 ==> IsLabel(pieces[i]))
    && LabelStart(pieces[|pieces| - 1])
  }

  ghost predicate Hopeless(pieces: seq<string>)
    requires pieces != []
  {
    (exists i :: 0 <= i < |pieces| - 1 && !IsLabel(pieces[i])) || !LabelStart(pieces[|pieces| - 1])
  }

  /** Whatever follows, a name with a bad beginning is no name. */
  lemma {:induction false} HopelessStays(s: string, t: string)
    requires Hopeless(Split(s, '.'))
    ensures Hopeless(Split(s + t, '.'))
  {
    hide Split, IsLabel;
    if t == "" {
      assert s + t == s;
    } else {
      var k := |t| - 1;
      HopelessStays(s, t[..k]);
      assert s + t == s + t[..k] + [t[k]];
      HopelessNext(s + t[..k], t[k]);
    }
  }

  lemma HopelessNext(s: string, x: char)
    requires Hopeless(Split(s, '.'))
    ensures Hopeless(Split(s + [x], '.'))
  {
    hide Split;
    SplitChar(s, x, '.');
    var before, after := Split(s, '.'), Split(s + [x], '.');
    var k := |before| - 1;
    if i :| 0 <= i < k && !IsLabel(before[i]) {
      assert after[i] == before[i];
    } else if x == '.' {
      assert after[k] == before[k] && !IsLabel(after[k]);
    } else {
      assert after[k] == before[k] + [x];
      if before[k] != "" && !IsAlphanumeric(before[k][0]) {
        assert after[k][0] == before[k][0];
      } else {
        var i :| 0 <= i < |before[k]| && !(IsAlphanumeric(before[k][i]) || before[k][i] == '-');
        assert after[k][i] == before[k][i];
      }
    }
  }

  lemma HopelessIsNoName(name: string, n: nat)
    requires n <= |name| && Hopeless(Split(name[..n], '.'))
    ensures !IsSubdomain(name)
  {
    hide Split;
    assert name == name[..n] + name[n..];
    HopelessStays(name[..n], name[n..]);
    var pieces := Split(name, '.');
    if i :| 0 <= i < |pieces| - 1 && !IsLabel(pieces[i]) {
    } else {
      assert !IsLabel(pieces[|pieces| - 1]);
    }
  }

  /** What the scan knows after `s`: whether a label starts here, and what the last label ends in. */
  ghost predicate Scanned(s: string, labelStart: bool) {
    && Promising(Split(s, '.')) && (labelStart <==> Last(s) == "")
    && (!labelStart ==> s != "" && Last(s)[|Last(s)| - 1] == s[|s| - 1])
  }

  lemma ScanStep(s: string, x: char, labelStart: bool)
    requires Scanned(s, labelStart)
    ensures x == '.' && !labelStart && s[|s| - 1] != '-' ==> Scanned(s + [x], true)
    ensures IsAlphanumeric(x) || (x == '-' && !labelStart) ==> Scanned(s + [x], false)
    ensures x == '.' && (labelStart || s[|s| - 1] == '-') ==> Hopeless(Split(s + [x], '.'))
    ensures x == '-' && labelStart ==> Hopeless(Split(s + [x], '.'))
    ensures x != '.' && x != '-' && !IsAlphanumeric(x) ==> Hopeless(Split(s + [x], '.'))
  {
    hide Split, Promising, Hopeless, Last;
    NextChar(s, x);
  }

  lemma ScanEnd(name: string, labelStart: bool)
    requires Scanned(name, labelStart) && 0 < |name| <= MAX_SUBDOMAIN
    ensures IsSubdomain(name) <==> !labelStart && name[|name| - 1] != '-'
  {
  }

  /** `isDNS1123Subdomain`. */
  method IsDNS1123Subdomain(name: string) returns (ok: bool)
    ensures ok <==> IsSubdomain(name)
  {
    EmptyIsNoName();
    EmptyPromising();
    if |name| == 0 || |name| > MAX_SUBDOMAIN { return false; }
    hide Split, IsSubdomain, Scanned, Hopeless, IsAlphanumeric;
    var labelStart := true;
    for i := 0 to |name|
      invariant Scanned(name[..i], labelStart) && (!labelStart ==> i > 0)
    {
      var c := name[i];
      assert name[..i + 1] == name[..i] + [c];
      ScanStep(name[..i], c, labelStart);
      if c == '.' {
        if labelStart || name[i - 1] == '-' {
          HopelessIsNoName(name, i + 1);
          return false;
        }
        labelStart := true;
      } else if IsAlphanumeric(c) {
        labelStart := false;
      } else if c == '-' {
        if labelStart {
          HopelessIsNoName(name, i + 1);
          return false;
        }
      } else {
        HopelessIsNoName(name, i + 1);
        return false;
      }
    }
    assert name[..|name|] == name;
    ScanEnd(name, labelStart);
    return !labelStart && name[|name| - 1] != '-';
  }

  function Last(s: string): string {
    Split(s, '.')[|Split(s, '.')| - 1]
  }

  lemma EmptyIsNoName()
    ensures !IsSubdomain("")
  {
    assert Split("", '.')[0] == "";
  }

  lemma EmptyPromising()
    ensures Scanned("", true)
  {
  }

  lemma NextChar(s: string, x: char)
    requires Promising(Split(s, '.'))
    ensures Last(s + [x]) == if x == '.' then "" else Last(s) + [x]
    ensures Promising(Split(s + [x], '.')) <==>
      if x == '.' then Last(s) != "" && Last(s)[|Last(s)| - 1] != '-'
      else IsAlphanumeric(x) || (x == '-' && Last(s) != "")
    ensures !Promising(Split(s + [x], '.')) ==> Hopeless(Split(s + [x], '.'))
  {
    hide Split, Promising, Hopeless, IsLabel;
    SplitChar(s, x, '.');
    var before := Split(s, '.');
    if x == '.' { NextDot(before); } else { NextOther(before, x); }
  }

  lemma NextDot(before: seq<string>)
    requires before != [] && Promising(before)
    ensures var last, after := before[|before| - 1], before + [""];
      && (Promising(after) <==> last != "" && last[|last| - 1] != '-')
      && (!Promising(after) ==> Hopeless(after))
  {
    var k, after := |before| - 1, before + [""];
    assert after[k] == before[k] && after[k + 1] == "";
    assert forall i :: 0 <= i < k ==> after[i] == before[i];
    assert IsLabel(before[k]) <==> before[k] != "" && before[k][|before[k]| - 1] != '-';
  }

  lemma NextOther(before: seq<string>, x: char)
    requires before != [] && Promising(before)
    ensures var last, after := before[|before| - 1], Lengthened(before, [x]);
      && (Promising(after) <==> IsAlphanumeric(x) || (x == '-' && last != ""))
      && (!Promising(after) ==> Hopeless(after))
  {
    hide IsLabel;
    var k, after := |before| - 1, Lengthened(before, [x]);
    var last := before[k] + [x];
    assert after[k] == last && |after| == k + 1 && forall i :: 0 <= i < k ==> after[i] == before[i];
    assert last[|before[k]|] == x && forall i :: 0 <= i < |before[k]| ==> last[i] == before[k][i];
    assert LabelStart(last) <==> IsAlphanumeric(x) || (x == '-' && before[k] != "");
  }

  /** `isDNS1123Label`: exactly the single labels of at most 63 characters. */
  method IsDNS1123Label(ns: string) returns (ok: bool)
    ensures ok <==> IsLabel(ns) && |ns| <= MAX_LABEL
  {
    var subdomain := IsDNS1123Subdomain(ns);
    ok := |ns| <= MAX_LABEL && '.' !in ns && subdomain;
    assert IsLabel(ns) ==> '.' !in ns;
    if '.' !in ns {
      SplitPlain("", ns, '.');
      assert "" + ns == ns;
      assert Split("", '.') == [""] && Split(ns, '.') == [ns];
      assert Split(ns, '.')[0] == ns;
    }
  }
}
