/**
 Who keeps a name that several projections claim, from the resources, the standings and the creation times alone:
 neither the ranking nor the claims of `Claims` appear in what is said.
 */
module Precedence {
  import opened Claims
  import opened Ordering
  import opened Surface

  /** `a` comes first where the two first differ, or ends there. */
  ghost predicate LexBefore(a: string, b: string) {
    exists k: nat :: k <= |a| && k < |b| && a[..k] == b[..k] && (k == |a| || a[k] < b[k])
  }

  lemma {:induction false} LessIsLex(a: string, b: string)
    ensures Less(a, b) <==> LexBefore(a, b)
  {
    if a != "" && b != "" {
      LessIsLex(a[1..], b[1..]);
      if a[0] == b[0] {
        if k: nat :| k <= |a| - 1 && k < |b| - 1 && a[1..][..k] == b[1..][..k]
                     && (k == |a| - 1 || a[1..][k] < b[1..][k]) {
          assert a[..k + 1] == [a[0]] + a[1..][..k] && b[..k + 1] == [b[0]] + b[1..][..k];
          assert LexBefore(a, b);
        }
        if k: nat :| k <= |a| && k < |b| && a[..k] == b[..k] && (k == |a| || a[k] < b[k]) {
          assert k > 0;
          assert a[1..][..k - 1] == a[..k][1..] && b[1..][..k - 1] == b[..k][1..];
          assert LexBefore(a[1..], b[1..]);
        }
      } else {
        assert a[0] < b[0] ==> a[..0] == b[..0];
        assert forall k: nat :: 0 < k <= |a| && k < |b| ==> a[..k][0] != b[..k][0];
      }
    } else {
      assert a == "" && b != "" ==> a[..0] == b[..0];
    }
  }

  /** Its status says so, for the current generation. */
  predicate IsServing(field: Field, n: string) {
    n in field.standing && field.standing[n] == Serving
  }

  predicate HasLost(field: Field, n: string) {
    n in field.standing && field.standing[n] == Lost
  }

  /** When it was created; what has no time comes from before all others. */
  function Birth(field: Field, n: string): int {
    if n in field.created then field.created[n] else 0
  }

  /**
   One that is serving comes before one that is not, one that has not lost before one that has; of two alike in both,
   the older first, and of two of one age the one whose name does.
   */
  ghost predicate ComesFirst(field: Field, a: string, b: string) {
    || (IsServing(field, a) && !IsServing(field, b))
    || (!HasLost(field, a) && HasLost(field, b))
    || ((IsServing(field, a) <==> IsServing(field, b)) && (HasLost(field, a) <==> HasLost(field, b))
        && (Birth(field, a) < Birth(field, b) || (Birth(field, a) == Birth(field, b) && LexBefore(a, b))))
  }

  lemma BeforeInWords(field: Field, a: string, b: string)
    ensures field.Before(a, b) <==> ComesFirst(field, a, b)
  {
    LessIsLex(a, b);
    hide LexBefore, Less;
  }

  /** Two resources of one group that are called by one name: as a plural, a singular or a short one, or as a kind. */
  ghost predicate ShareName(a: Resource, b: Resource) {
    && a.group == b.group
    && ((exists n :: n != "" && Called(a, n) && Called(b, n))
        || (exists k :: k != "" && HasKind(a, k) && HasKind(b, k)))
  }

  predicate Called(res: Resource, n: string) {
    n == res.plural || n == res.singular || n in res.shortNames
  }

  predicate HasKind(res: Resource, k: string) {
    k == res.kind || k == res.listKind
  }

  /** Some resource of the one shares a name with some resource of the other. */
  ghost predicate Compete(a: seq<Resource>, b: seq<Resource>) {
    exists i, j :: 0 <= i < |a| && 0 <= j < |b| && ShareName(a[i], b[j])
  }

  lemma AsksForNames(res: Resource, c: Claim)
    ensures c in Asks(res) <==>
      c.group == res.group && c.name != "" && if c.what.Kind? then HasKind(res, c.name) else Called(res, c.name)
  {
    assert c.name in [res.plural, res.singular] + res.shortNames <==> Called(res, c.name);
    assert c.name in [res.kind, res.listKind] <==> HasKind(res, c.name);
  }

  lemma ConflictIsCompetition(surviving: map<string, seq<Resource>>, a: string, b: string)
    requires a in surviving && b in surviving
    ensures Conflict(WantsOf(surviving), a, b) <==> Compete(surviving[a], surviving[b])
  {
    hide Asks, Called, HasKind;
    var x, y := surviving[a], surviving[b];
    if c :| c in ClaimSet(x) && c in ClaimSet(y) {
      var i :| 0 <= i < |x| && c in Asks(x[i]);
      var j :| 0 <= j < |y| && c in Asks(y[j]);
      AsksForNames(x[i], c);
      AsksForNames(y[j], c);
      assert ShareName(x[i], y[j]);
    }
    if i, j :| 0 <= i < |x| && 0 <= j < |y| && ShareName(x[i], y[j]) {
      var c := SharedClaim(x[i], y[j]);
      assert c in ClaimSet(x) && c in ClaimSet(y);
    }
  }

  lemma SharedClaim(a: Resource, b: Resource) returns (c: Claim)
    requires ShareName(a, b)
    ensures c in Asks(a) && c in Asks(b)
  {
    hide Asks, Called, HasKind;
    if n :| n != "" && Called(a, n) && Called(b, n) {
      c := Claim(a.group, ResourceName, n);
    } else {
      var k :| k != "" && HasKind(a, k) && HasKind(b, k);
      c := Claim(a.group, Kind, k);
    }
    AsksForNames(a, c);
    AsksForNames(b, c);
  }

  /**
   A settlement in words: no two winners share a name, and whoever loses shares one with a winner that comes first.
   With `ResolveClaims` and `SettledUnique` this says who wins, of any projections.
   */
  lemma SettledInWords(surviving: map<string, seq<Resource>>, field: Field, winners: set<string>)
    ensures Settled(WantsOf(surviving), field, winners) <==>
      && winners <= surviving.Keys
      && (forall a, b :: a in winners && b in winners && a != b ==> !Compete(surviving[a], surviving[b]))
      && (forall n :: n in surviving && n !in winners ==>
            exists w :: w in winners && ComesFirst(field, w, n) && Compete(surviving[w], surviving[n]))
  {
    hide Field.Before, ComesFirst, Conflict, Compete, ClaimSet;
    var wants := WantsOf(surviving);
    forall a, b | a in surviving && b in surviving
      ensures Conflict(wants, a, b) <==> Compete(surviving[a], surviving[b])
    {
      ConflictIsCompetition(surviving, a, b);
    }
    forall a, b ensures field.Before(a, b) <==> ComesFirst(field, a, b) { BeforeInWords(field, a, b); }
  }

  /** Whoever comes before all that it shares a name with wins. */
  lemma FirstWins(surviving: map<string, seq<Resource>>, field: Field, winners: set<string>, n: string)
    requires Settled(WantsOf(surviving), field, winners) && n in surviving
    requires forall m :: m in surviving && m != n && Compete(surviving[m], surviving[n]) ==> ComesFirst(field, n, m)
    ensures n in winners
  {
    hide Field.Before, ComesFirst, Conflict, Compete, ClaimSet, Settled;
    SettledInWords(surviving, field, winners);
    if n !in winners {
      var w :| w in winners && ComesFirst(field, w, n) && Compete(surviving[w], surviving[n]);
      BeforeInWords(field, w, n);
      BeforeInWords(field, n, w);
      BeforeTotal(field, n, w);
    }
  }
}
