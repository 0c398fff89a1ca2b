/**
 Which projection serves a name that several claim.

 A settlement is described without the algorithm: no two winners share a claim, and every loser shares one
 with a winner that ranks before it. There is exactly one such set of winners (`SettledUnique`), so the
 program's ranking loop, its independence of map order and its stability under status feedback are all
 statements about that description.
 */
module Claims {
  import opened Ordering
  import opened Results
  import opened Surface

  datatype What = Kind | ResourceName

  datatype Claim = Claim(group: string, what: What, name: string)

  /** The names one resource asks for. */
  function Asks(res: Resource): seq<Claim> {
    Named(res.group, ResourceName, [res.plural, res.singular] + res.shortNames)
    + Named(res.group, Kind, [res.kind, res.listKind])
  }

  function Named(group: string, what: What, names: seq<string>): (claims: seq<Claim>)
    ensures forall c :: c in claims <==> c.group == group && c.what == what && c.name != "" && c.name in names
  {
    if names == [] then []
    else (if names[0] == "" then [] else [Claim(group, what, names[0])]) + Named(group, what, names[1..])
  }

  /** The claims of a projection. */
  function ClaimSet(resources: seq<Resource>): (claims: set<Claim>)
    ensures forall c :: c in claims <==> exists i :: 0 <= i < |resources| && c in Asks(resources[i])
  {
    set i, c | 0 <= i < |resources| && c in Asks(resources[i]) :: c
  }

  const QUOTE: char := '\U{0022}'

  /** A name as `%q` prints it, but for the quotes around it. */
  function Escaped(name: string): string {
    if name == "" then ""
    else (if name[0] == QUOTE || name[0] == '\\' then ['\\', name[0]] else [name[0]]) + Escaped(name[1..])
  }

  /** A claim as it is printed. */
  function ClaimText(c: Claim): string {
    (if c.what.Kind? then "kind " + [QUOTE] else "resource name " + [QUOTE])
    + (Escaped(c.name) + ([QUOTE] + (" in group " + c.group)))
  }

  /** Up to its closing quote a printed name is that of one name only. */
  lemma {:induction false} EscapedInjective(a: string, x: string, b: string, y: string)
    ensures Escaped(a) + ([QUOTE] + x) == Escaped(b) + ([QUOTE] + y) ==> a == b && x == y
    decreases |a|
  {
    var s := Escaped(a) + ([QUOTE] + x);
    if s == Escaped(b) + ([QUOTE] + y) {
      assert a == "" ==> s[0] == QUOTE;
      assert b == "" ==> s[0] == QUOTE;
      if a != "" { EscapedHead(a, x); }
      if b != "" { EscapedHead(b, y); }
      if a != "" && b != "" {
        var n := if s[0] == '\\' then 2 else 1;
        assert s[n..] == Escaped(a[1..]) + ([QUOTE] + x) && s[n..] == Escaped(b[1..]) + ([QUOTE] + y);
        EscapedInjective(a[1..], x, b[1..], y);
        assert a == [a[0]] + a[1..] && b == [b[0]] + b[1..];
      } else {
        assert ([QUOTE] + x)[1..] == x && ([QUOTE] + y)[1..] == y;
        assert Escaped("") + ([QUOTE] + x) == [QUOTE] + x && Escaped("") + ([QUOTE] + y) == [QUOTE] + y;
      }
    }
  }

  /** The first character of a printed name tells how it is printed, and which it is. */
  lemma EscapedHead(a: string, x: string)
    requires a != ""
    ensures var s := Escaped(a) + ([QUOTE] + x);
      && s[0] != QUOTE && |s| >= 2
      && (if a[0] == QUOTE || a[0] == '\\' then s[0] == '\\' && s[1] == a[0]
          && s[2..] == Escaped(a[1..]) + ([QUOTE] + x)
          else s[0] == a[0] && s[0] != '\\' && s[1..] == Escaped(a[1..]) + ([QUOTE] + x))
  {
    var head := if a[0] == QUOTE || a[0] == '\\' then ['\\', a[0]] else [a[0]];
    assert Escaped(a) == head + Escaped(a[1..]);
    hide Escaped;
    Regrouped(head, Escaped(a[1..]), [QUOTE] + x);
  }

  lemma Regrouped(head: string, tail: string, end: string)
    ensures (head + tail) + end == head + (tail + end)
    ensures (head + (tail + end))[|head|..] == tail + end
  {
  }

  lemma ClaimTextInjective(a: Claim, b: Claim)
    ensures ClaimText(a) == ClaimText(b) ==> a == b
  {
    hide Escaped;
    if ClaimText(a) == ClaimText(b) {
      assert ClaimText(a)[0] == ClaimText(b)[0];
      var n := if a.what.Kind? then |"kind "| + 1 else |"resource name "| + 1;
      var x := Escaped(a.name) + ([QUOTE] + (" in group " + a.group));
      var y := Escaped(b.name) + ([QUOTE] + (" in group " + b.group));
      assert ClaimText(a)[n..] == x && ClaimText(b)[n..] == y;
      EscapedInjective(a.name, " in group " + a.group, b.name, " in group " + b.group);
      assert a.group == (" in group " + a.group)[10..] && b.group == (" in group " + b.group)[10..];
    }
  }

  /** Claims are reported in the order of their texts. */
  predicate ClaimLess(a: Claim, b: Claim) {
    Less(ClaimText(a), ClaimText(b))
  }

  lemma ClaimsTotal(a: Claim, b: Claim)
    ensures ClaimLess(a, b) || a == b || ClaimLess(b, a)
    ensures !(ClaimLess(a, b) && ClaimLess(b, a))
  {
    hide ClaimText, Less;
    Total(ClaimText(a), ClaimText(b));
    ClaimTextInjective(a, b);
  }

  lemma ClaimsTransitive(a: Claim, b: Claim, c: Claim)
    ensures ClaimLess(a, b) && ClaimLess(b, c) ==> ClaimLess(a, c)
  {
    hide ClaimText, Less;
    if ClaimLess(a, b) && ClaimLess(b, c) { Transitive(ClaimText(a), ClaimText(b), ClaimText(c)); }
  }

  ghost predicate ClaimsSorted(claims: seq<Claim>) {
    forall i, j :: 0 <= i < j < |claims| ==> ClaimLess(claims[i], claims[j])
  }

  /** `claimsOf`: each claim once, in the order they are reported. */
  method ClaimsOf(resources: seq<Resource>) returns (claims: seq<Claim>)
    ensures ClaimsSorted(claims)
    ensures forall c :: c in claims <==> c in ClaimSet(resources)
  {
    hide Asks, ClaimSet, ClaimsSorted;
    claims := [];
    NoClaims();
    for i := 0 to |resources|
      invariant ClaimsSorted(claims)
      invariant forall c :: c in claims <==> c in ClaimSet(resources[..i])
    {
      ClaimSetStep(resources, i);
      claims := AddClaims(claims, Asks(resources[i]));
    }
    assert resources[..|resources|] == resources;
  }

  lemma NoClaims()
    ensures ClaimsSorted([]) && ClaimSet([]) == {}
  {
  }

  method AddClaims(claims: seq<Claim>, asks: seq<Claim>) returns (r: seq<Claim>)
    requires ClaimsSorted(claims)
    ensures ClaimsSorted(r) && forall c :: c in r <==> c in claims || c in asks
  {
    hide ClaimsSorted;
    r := claims;
    for j := 0 to |asks|
      invariant ClaimsSorted(r)
      invariant forall c :: c in r <==> c in claims || c in asks[..j]
    {
      r := AddClaim(r, asks[j]);
      assert asks[..j + 1] == asks[..j] + [asks[j]];
    }
    assert asks[..|asks|] == asks;
  }

  lemma ClaimSetStep(resources: seq<Resource>, i: nat)
    requires i < |resources|
    ensures forall c :: c in ClaimSet(resources[..i + 1]) <==> c in ClaimSet(resources[..i]) || c in Asks(resources[i])
  {
    hide Asks;
    var fewer, more := resources[..i], resources[..i + 1];
    assert forall k :: 0 <= k < i ==> fewer[k] == more[k];
    assert more[i] == resources[i];
    forall c | c in ClaimSet(fewer) ensures c in ClaimSet(more) {
      var k :| 0 <= k < |fewer| && c in Asks(fewer[k]);
      assert c in Asks(more[k]);
    }
    forall c | c in ClaimSet(more) && c !in Asks(resources[i]) ensures c in ClaimSet(fewer) {
      var k :| 0 <= k < |more| && c in Asks(more[k]);
      assert c in Asks(fewer[k]);
    }
  }

  method AddClaim(claims: seq<Claim>, claim: Claim) returns (r: seq<Claim>)
    requires ClaimsSorted(claims)
    ensures ClaimsSorted(r) && forall c :: c in r <==> c in claims || c == claim
  {
    if claim in claims { return claims; }
    var k := 0;
    while k < |claims| && ClaimLess(claims[k], claim)
      invariant k <= |claims| && forall i :: 0 <= i < k ==> ClaimLess(claims[i], claim)
    {
      k := k + 1;
    }
    if k < |claims| { ClaimsTotal(claims[k], claim); }
    forall i | k < i < |claims| ensures ClaimLess(claim, claims[i]) {
      ClaimsTransitive(claim, claims[k], claims[i]);
    }
    r := claims[..k] + [claim] + claims[k..];
    assert claims == claims[..k] + claims[k..];
  }

  // Ranking.

  datatype Standing = Unknown | Serving | Lost {
    function Rank(): nat {
      match this
      case Serving => 0
      case Unknown => 1
      case Lost => 2
    }
  }

  /** What ranks the projections: creation times, and the standings of those that have one. */
  datatype Field = Field(created: map<string, int>, standing: map<string, Standing>) {
    function StandingOfName(n: string): Standing {
      if n in standing then standing[n] else Unknown
    }
    function CreatedAt(n: string): int {
      if n in created then created[n] else 0
    }
    predicate Before(a: string, b: string) {
      var ar, br := StandingOfName(a).Rank(), StandingOfName(b).Rank();
      if ar != br then ar < br
      else if CreatedAt(a) != CreatedAt(b) then CreatedAt(a) < CreatedAt(b)
      else Less(a, b)
    }
  }

  lemma BeforeTotal(field: Field, a: string, b: string)
    ensures field.Before(a, b) || a == b || field.Before(b, a)
    ensures !(field.Before(a, b) && field.Before(b, a))
  {
    Total(a, b);
  }

  lemma BeforeTransitive(field: Field, a: string, b: string, c: string)
    requires field.Before(a, b) && field.Before(b, c)
    ensures field.Before(a, c)
  {
    if Less(a, b) && Less(b, c) { Transitive(a, b, c); }
  }

  ghost predicate Ranked(field: Field, order: seq<string>) {
    forall i, j :: 0 <= i < j < |order| ==> field.Before(order[i], order[j])
  }

  /** The names in rank order, whatever order they come in. */
  method RankNames(names: set<string>, field: Field) returns (order: seq<string>)
    ensures Ranked(field, order) && forall n :: n in order <==> n in names
  {
    order := [];
    var rest := names;
    while rest != {}
      invariant rest <= names && Ranked(field, order)
      invariant forall n :: n in order <==> n in names && n !in rest
      decreases |rest|
    {
      var n :| n in rest;
      InsertedRanked(order, n, field);
      order := Inserted(order, n, field);
      rest := rest - {n};
    }
  }

  function Inserted(order: seq<string>, n: string, field: Field): seq<string> {
    if order == [] || field.Before(n, order[0]) then [n] + order
    else [order[0]] + Inserted(order[1..], n, field)
  }

  lemma {:induction false} InsertedRanked(order: seq<string>, n: string, field: Field)
    requires Ranked(field, order) && n !in order
    ensures Ranked(field, Inserted(order, n, field))
    ensures forall m :: m in Inserted(order, n, field) <==> m in order || m == n
  {
    if order != [] {
      BeforeTotal(field, n, order[0]);
      var tail := order[1..];
      assert forall m :: m in order <==> m == order[0] || m in tail;
      if field.Before(n, order[0]) {
        forall i | 0 < i < |order| ensures field.Before(n, order[i]) {
          BeforeTransitive(field, n, order[0], order[i]);
        }
      } else {
        InsertedRanked(tail, n, field);
        var r := Inserted(tail, n, field);
        forall i | 0 <= i < |r| ensures field.Before(order[0], r[i]) {
          if r[i] != n {
            assert r[i] in tail;
            var k :| 0 <= k < |tail| && tail[k] == r[i];
            assert field.Before(order[0], order[k + 1]);
          }
        }
      }
    }
  }

  lemma {:induction false} RankingExists(names: set<string>, field: Field) returns (order: seq<string>)
    ensures Ranked(field, order) && forall n :: n in order <==> n in names
  {
    if names == {} {
      order := [];
    } else {
      var n :| n in names;
      var rest := RankingExists(names - {n}, field);
      InsertedRanked(rest, n, field);
      order := Inserted(rest, n, field);
    }
  }

  // Settlements.

  /** What each projection claims. */
  type Wants = map<string, set<Claim>>

  function WantsOf(surviving: map<string, seq<Resource>>): (wants: Wants)
    ensures wants.Keys == surviving.Keys
  {
    map n | n in surviving :: ClaimSet(surviving[n])
  }

  ghost predicate Conflict(wants: Wants, a: string, b: string)
    requires a in wants && b in wants
  {
    exists c :: c in wants[a] && c in wants[b]
  }

  /** `winners` share no claim, and whoever is not among them lost to one of them that ranks before it. */
  ghost predicate Settled(wants: Wants, field: Field, winners: set<string>) {
    && winners <= wants.Keys
    && (forall a, b :: a in winners && b in winners && a != b ==> !Conflict(wants, a, b))
    && (forall n :: n in wants && n !in winners ==>
          exists w :: w in winners && field.Before(w, n) && Conflict(wants, w, n))
  }

  /** There is at most one settlement, so it depends on the claims, the times and the standings alone. */
  lemma SettledUnique(wants: Wants, field: Field, w1: set<string>, w2: set<string>)
    requires Settled(wants, field, w1) && Settled(wants, field, w2)
    ensures w1 == w2
  {
    var order := RankingExists(wants.Keys, field);
    forall i | 0 <= i < |order| ensures order[i] in w1 <==> order[i] in w2 {
      SettledAgree(wants, field, w1, w2, order, i);
    }
    assert forall n :: n in w1 ==> n in order && n in w2;
    assert forall n :: n in w2 ==> n in order && n in w1;
  }

  lemma {:induction false} SettledAgree(wants: Wants, field: Field, w1: set<string>, w2: set<string>,
                                        order: seq<string>, i: nat)
    requires Settled(wants, field, w1) && Settled(wants, field, w2)
    requires Ranked(field, order) && (forall n :: n in order <==> n in wants) && i < |order|
    ensures order[i] in w1 <==> order[i] in w2
  {
    forall j | 0 <= j < i ensures order[j] in w1 <==> order[j] in w2 {
      SettledAgree(wants, field, w1, w2, order, j);
    }
    if order[i] !in w1 { BeatenToo(wants, field, w1, w2, order, i); }
    if order[i] !in w2 { BeatenToo(wants, field, w2, w1, order, i); }
  }

  lemma BeatenToo(wants: Wants, field: Field, w1: set<string>, w2: set<string>, order: seq<string>, i: nat)
    requires Settled(wants, field, w1) && Settled(wants, field, w2)
    requires Ranked(field, order) && (forall n :: n in order <==> n in wants) && i < |order|
    requires forall j :: 0 <= j < i ==> (order[j] in w1 <==> order[j] in w2)
    requires order[i] !in w1
    ensures order[i] !in w2
  {
    var n := order[i];
    var w :| w in w1 && field.Before(w, n) && Conflict(wants, w, n);
    var k :| 0 <= k < |order| && order[k] == w;
    BeforeTotal(field, w, n);
    assert k < i;
    assert w in w2;
  }

  // The ranking loop.

  /** Why a projection is not served: a claim of its own, and the projection that holds it. */
  datatype Loss = Loss(claim: Claim, winner: string)

  /** A claim of `n` that a winner ranked before it holds. */
  ghost predicate Beaten(wants: Wants, field: Field, winners: set<string>, n: string, c: Claim, w: string)
    requires n in wants && winners <= wants.Keys
  {
    w in winners && field.Before(w, n) && c in wants[w] && c in wants[n]
  }

  /** A loss names a real holder of a claim, the first such claim in the order claims are reported. */
  ghost predicate Explained(wants: Wants, field: Field, winners: set<string>, n: string, loss: Loss)
    requires n in wants && winners <= wants.Keys
  {
    && Beaten(wants, field, winners, n, loss.claim, loss.winner)
    && forall c, w :: Beaten(wants, field, winners, n, c, w) ==> !ClaimLess(c, loss.claim)
  }

  ghost predicate Holds(wants: Wants, winners: set<string>, held: map<Claim, string>) {
    && winners <= wants.Keys
    && (forall c :: c in held ==> held[c] in winners && c in wants[held[c]])
    && (forall w, c :: w in winners && c in wants[w] ==> c in held && held[c] == w)
  }

  /** The first of a projection's claims that is held already. */
  method FirstTaken(claims: seq<Claim>, held: map<Claim, string>) returns (taken: Option<Claim>)
    requires ClaimsSorted(claims)
    ensures taken.None? <==> forall c :: c in claims ==> c !in held
    ensures taken.Some? ==> taken.value in claims && taken.value in held
    ensures taken.Some? ==> forall c :: c in claims && c in held ==> !ClaimLess(c, taken.value)
  {
    for i := 0 to |claims|
      invariant forall j :: 0 <= j < i ==> claims[j] !in held
    {
      if claims[i] in held {
        forall c | c in claims && c in held ensures !ClaimLess(c, claims[i]) {
          var j :| 0 <= j < |claims| && claims[j] == c;
          ClaimsTotal(claims[i], c);
        }
        return Some(claims[i]);
      }
    }
    return None;
  }

  method Take(held: map<Claim, string>, claims: seq<Claim>, n: string) returns (r: map<Claim, string>)
    ensures forall c :: c in r <==> c in held || c in claims
    ensures forall c :: c in r ==> r[c] == if c in claims then n else held[c]
  {
    r := held;
    for i := 0 to |claims|
      invariant forall c :: c in r <==> c in held || c in claims[..i]
      invariant forall c :: c in r ==> r[c] == if c in claims[..i] then n else held[c]
    {
      r := r[claims[i] := n];
      assert claims[..i + 1] == claims[..i] + [claims[i]];
    }
    assert claims[..|claims|] == claims;
  }

  /** What the loop has settled after the projections of `seen`. */
  ghost predicate SoFar(wants: Wants, field: Field, seen: seq<string>, winners: set<string>,
                        held: map<Claim, string>, losses: map<string, Loss>) {
    && (forall n :: n in seen ==> n in wants)
    && (forall n :: n in winners || n in losses <==> n in seen)
    && winners !! losses.Keys && Holds(wants, winners, held)
    && forall n :: n in losses ==> Explained(wants, field, winners, n, losses[n])
  }

  /** The next projection in rank order neither displaces a winner nor explains an earlier loss better. */
  lemma SoFarStep(wants: Wants, field: Field, seen: seq<string>, winners: set<string>,
                  losses: map<string, Loss>, n: string)
    requires winners <= wants.Keys && losses.Keys <= wants.Keys
    requires (forall m :: m in losses ==> m in seen) && (forall m :: m in seen ==> field.Before(m, n))
    requires n in wants && forall m :: m in losses ==> Explained(wants, field, winners, m, losses[m])
    ensures forall m :: m in losses ==> Explained(wants, field, winners + {n}, m, losses[m])
  {
    hide ClaimLess, Field.Before;
    forall m | m in losses ensures Explained(wants, field, winners + {n}, m, losses[m]) {
      var loss := losses[m];
      assert Beaten(wants, field, winners, m, loss.claim, loss.winner);
      forall c, w | Beaten(wants, field, winners + {n}, m, c, w) ensures !ClaimLess(c, loss.claim) {
        BeforeTotal(field, m, n);
        assert Beaten(wants, field, winners, m, c, w);
      }
    }
  }

  /** `resolveClaims`: the losers are those of the settlement, each with the claim that cost it its place. */
  method ResolveClaims(surviving: map<string, seq<Resource>>, field: Field) returns (losses: map<string, Loss>)
    ensures losses.Keys <= surviving.Keys
    ensures Settled(WantsOf(surviving), field, surviving.Keys - losses.Keys)
    ensures forall n :: n in losses ==> Explained(WantsOf(surviving), field, surviving.Keys - losses.Keys, n, losses[n])
  {
    hide ClaimLess, ClaimSet, Field.Before, Explained, Beaten, Conflict, Holds, Settled, ClaimsSorted, Ranked;
    ghost var wants := WantsOf(surviving);
    var order := RankNames(surviving.Keys, field);
    var held: map<Claim, string> := map[];
    losses := map[];
    ghost var winners: set<string> := {};
    NothingHeld(wants);
    for i := 0 to |order|
      invariant SoFar(wants, field, order[..i], winners, held, losses)
    {
      var n := order[i];
      assert order[..i + 1] == order[..i] + [n];
      NotYetRanked(field, order, i);
      var claims := ClaimsOf(surviving[n]);
      var taken := FirstTaken(claims, held);
      if taken.Some? {
        LossExplained(wants, field, n, winners, held, claims, taken.value);
        SoFarLoses(wants, field, order[..i], winners, held, losses, n, Loss(taken.value, held[taken.value]));
        losses := losses[n := Loss(taken.value, held[taken.value])];
      } else {
        var held' := Take(held, claims, n);
        SoFarWins(wants, field, order[..i], winners, held, losses, n, claims, held');
        held := held';
        winners := winners + {n};
      }
    }
    assert order[..|order|] == order;
    assert winners == surviving.Keys - losses.Keys;
    SoFarSettles(wants, field, winners, held, losses);
  }

  lemma NothingHeld(wants: Wants)
    ensures Holds(wants, {}, map[])
  {
  }

  lemma SoFarLoses(wants: Wants, field: Field, seen: seq<string>, winners: set<string>, held: map<Claim, string>,
                   losses: map<string, Loss>, n: string, loss: Loss)
    requires SoFar(wants, field, seen, winners, held, losses) && n in wants && n !in seen
    requires Explained(wants, field, winners, n, loss)
    ensures SoFar(wants, field, seen + [n], winners, held, losses[n := loss])
  {
  }

  lemma SoFarWins(wants: Wants, field: Field, seen: seq<string>, winners: set<string>, held: map<Claim, string>,
                  losses: map<string, Loss>, n: string, claims: seq<Claim>, held': map<Claim, string>)
    requires SoFar(wants, field, seen, winners, held, losses) && n in wants && n !in seen
    requires (forall m :: m in seen ==> field.Before(m, n)) && forall c :: c in claims <==> c in wants[n]
    requires forall c :: c in claims ==> c !in held
    requires forall c :: c in held' <==> c in held || c in claims
    requires forall c :: c in held' ==> held'[c] == if c in claims then n else held[c]
    ensures SoFar(wants, field, seen + [n], winners + {n}, held', losses)
  {
    hide Field.Before, Explained;
    SoFarStep(wants, field, seen, winners, losses, n);
  }

  lemma NotYetRanked(field: Field, order: seq<string>, i: nat)
    requires Ranked(field, order) && i < |order|
    ensures order[i] !in order[..i] && forall m :: m in order[..i] ==> field.Before(m, order[i])
  {
    forall m | m in order[..i] ensures field.Before(m, order[i]) && m != order[i] {
      var k :| 0 <= k < i && order[..i][k] == m;
      BeforeTotal(field, order[k], order[i]);
    }
  }

  lemma LossExplained(wants: Wants, field: Field, n: string, winners: set<string>,
                      held: map<Claim, string>, claims: seq<Claim>, taken: Claim)
    requires n in wants && Holds(wants, winners, held) && forall w :: w in winners ==> field.Before(w, n)
    requires forall c :: c in claims <==> c in wants[n]
    requires taken in claims && taken in held && forall c :: c in claims && c in held ==> !ClaimLess(c, taken)
    ensures Explained(wants, field, winners, n, Loss(taken, held[taken]))
  {
  }

  lemma SoFarSettles(wants: Wants, field: Field, winners: set<string>, held: map<Claim, string>,
                     losses: map<string, Loss>)
    requires winners == wants.Keys - losses.Keys && losses.Keys <= wants.Keys
    requires Holds(wants, winners, held)
    requires forall n :: n in losses ==> Explained(wants, field, winners, n, losses[n])
    ensures Settled(wants, field, winners)
  {
    hide ClaimLess, Field.Before;
    forall a, b | a in winners && b in winners && a != b ensures !Conflict(wants, a, b) {
      assert forall c :: c in wants[a] ==> held[c] == a;
      assert forall c :: c in wants[b] ==> held[c] == b;
    }
    forall n | n in wants && n !in winners
      ensures exists w :: w in winners && field.Before(w, n) && Conflict(wants, w, n)
    {
      var loss := losses[n];
      assert Beaten(wants, field, winners, n, loss.claim, loss.winner);
      assert loss.claim in wants[loss.winner] && loss.claim in wants[n];
      assert Conflict(wants, loss.winner, n);
    }
  }

  /** Two replicas that read the same claims, times and standings report the same losses, word for word. */
  lemma LossesDetermined(wants: Wants, field: Field, l1: map<string, Loss>, l2: map<string, Loss>)
    requires l1.Keys <= wants.Keys && l2.Keys <= wants.Keys
    requires Settled(wants, field, wants.Keys - l1.Keys) && Settled(wants, field, wants.Keys - l2.Keys)
    requires forall n :: n in l1 ==> Explained(wants, field, wants.Keys - l1.Keys, n, l1[n])
    requires forall n :: n in l2 ==> Explained(wants, field, wants.Keys - l2.Keys, n, l2[n])
    ensures l1 == l2
  {
    hide ClaimLess, Field.Before;
    var winners := wants.Keys - l1.Keys;
    SettledUnique(wants, field, winners, wants.Keys - l2.Keys);
    assert l1.Keys == wants.Keys - winners && l2.Keys == wants.Keys - (wants.Keys - l2.Keys);
    forall n | n in l1 ensures l1[n] == l2[n] {
      LossDetermined(wants, field, winners, n, l1[n], l2[n]);
    }
  }

  lemma LossDetermined(wants: Wants, field: Field, winners: set<string>, n: string, a: Loss, b: Loss)
    requires Settled(wants, field, winners) && n in wants
    requires Explained(wants, field, winners, n, a) && Explained(wants, field, winners, n, b)
    ensures a == b
  {
    hide ClaimLess, Field.Before;
    assert Beaten(wants, field, winners, n, a.claim, a.winner);
    assert Beaten(wants, field, winners, n, b.claim, b.winner);
    ClaimsTotal(a.claim, b.claim);
    assert a.claim in wants[a.winner] && a.claim in wants[b.winner];
    assert a.winner != b.winner ==> Conflict(wants, a.winner, b.winner);
  }
}
