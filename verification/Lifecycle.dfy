/**
 The storages a set of compiled projections owns, and the accounting that shows none is lost or destroyed
 twice over when one set replaces another.
 */
module Lifecycle {
  import opened Results
  import opened Surface

  /** What a projection compiled to. */
  datatype Compilation = Compilation(fingerprint: string, resources: seq<Resource>, fromFile: bool)

  type Compiled = map<string, Compilation>

  /** The storages `Destroy` releases for one resource. */
  function StoragesOf(res: Resource): set<nat> {
    {res.storage} + (if res.status.Some? then {res.status.value} else {})
    + (if res.scale.Some? then {res.scale.value} else {})
  }

  function StoragesIn(resources: seq<Resource>): set<nat> {
    set i, x | 0 <= i < |resources| && x in StoragesOf(resources[i]) :: x
  }

  /** The storages of the compilations under `names`. */
  function OwnedBy(compiled: Compiled, names: set<string>): set<nat> {
    set n, x | n in names && n in compiled && x in StoragesIn(compiled[n].resources) :: x
  }

  function Owned(compiled: Compiled): set<nat> {
    OwnedBy(compiled, compiled.Keys)
  }

  lemma OwnedByOneMore(compiled: Compiled, names: set<string>, n: string)
    requires n in compiled
    ensures OwnedBy(compiled, names + {n}) == OwnedBy(compiled, names) + StoragesIn(compiled[n].resources)
  {
  }

  lemma OwnedByOthers(compiled: Compiled, names: set<string>, n: string, made: Compilation)
    requires n !in names
    ensures OwnedBy(compiled[n := made], names) == OwnedBy(compiled, names)
  {
    hide StoragesIn;
    var more := compiled[n := made];
    assert forall m :: m in names ==> (m in more <==> m in compiled) && (m in compiled ==> more[m] == compiled[m]);
  }

  /** No storage belongs to two projections. */
  ghost predicate Separate(compiled: Compiled) {
    forall m, n :: m in compiled && n in compiled && m != n ==>
      StoragesIn(compiled[m].resources) !! StoragesIn(compiled[n].resources)
  }

  lemma StoragesAppend(a: seq<Resource>, b: seq<Resource>)
    ensures StoragesIn(a + b) == StoragesIn(a) + StoragesIn(b)
  {
    forall x | x in StoragesIn(a) ensures x in StoragesIn(a + b) {
      var i :| 0 <= i < |a| && x in StoragesOf(a[i]);
      assert (a + b)[i] == a[i];
    }
    forall x | x in StoragesIn(b) ensures x in StoragesIn(a + b) {
      var i :| 0 <= i < |b| && x in StoragesOf(b[i]);
      assert (a + b)[|a| + i] == b[i];
    }
    forall x | x in StoragesIn(a + b) ensures x in StoragesIn(a) || x in StoragesIn(b) {
      var i :| 0 <= i < |a + b| && x in StoragesOf((a + b)[i]);
      if i < |a| { assert (a + b)[i] == a[i]; } else { assert (a + b)[i] == b[i - |a|]; }
    }
  }

  /** The storages that requests can reach are exactly those that are accounted for. */
  lemma RoutedAreOwned(resources: seq<Resource>, x: nat)
    requires !Clash(resources) && Segments(resources)
    ensures x in StoragesIn(resources) <==>
      exists group, version, path ::
        path in Installed(resources, group, version) && Installed(resources, group, version)[path] == x
  {
    hide Installed, Clash;
    if x in StoragesIn(resources) {
      var i :| 0 <= i < |resources| && x in StoragesOf(resources[i]);
      var res := resources[i];
      var path := if x == res.storage then res.plural
                  else if res.status == Some(x) then res.plural + "/status" else res.plural + "/scale";
      assert Answers(res, path, x);
      InstalledAnswers(resources, res.group, res.version, path, x);
    }
    if group, version, path :|
       path in Installed(resources, group, version) && Installed(resources, group, version)[path] == x {
      InstalledAnswers(resources, group, version, path, x);
      var i :| 0 <= i < |resources| && Answers(resources[i], path, x);
      AnswersOwned(resources[i], path, x);
    }
  }

  lemma AnswersOwned(res: Resource, path: string, x: nat)
    requires Answers(res, path, x)
    ensures x in StoragesOf(res)
  {
  }

  // Building.

  /** The resources compiled from `shapes`: new storages from `next` on, three numbers to a resource. */
  function Built(shapes: seq<Resource>, next: nat, key: string, pool: nat, readKey: string,
                 readPool: nat): (r: seq<Resource>)
    ensures |r| == |shapes|
    ensures forall i :: 0 <= i < |r| ==> r[i] == BuiltOne(shapes[i], next + 3 * i, key, pool, readKey, readPool)
  {
    seq(|shapes|, i requires 0 <= i < |shapes| => BuiltOne(shapes[i], next + 3 * i, key, pool, readKey, readPool))
  }

  function BuiltOne(shape: Resource, next: nat, key: string, pool: nat, readKey: string, readPool: nat): Resource {
    shape.(storage := next,
           status := if shape.status.Some? then Some(next + 1) else None,
           scale := if shape.scale.Some? then Some(next + 2) else None,
           poolKey := key, pool := pool, readPoolKey := readKey, readPool := readPool)
  }

  /** What is built serves what its shape says, through these pools, each storage for itself. */
  lemma BuiltServes(shapes: seq<Resource>, next: nat, key: string, pool: nat, readKey: string, readPool: nat, i: nat)
    requires i < |shapes|
    ensures var shape, res := shapes[i], Built(shapes, next, key, pool, readKey, readPool)[i];
      && res.group == shape.group && res.version == shape.version && res.plural == shape.plural
      && res.singular == shape.singular && res.shortNames == shape.shortNames
      && res.kind == shape.kind && res.listKind == shape.listKind
      && res.poolKey == key && res.pool == pool && res.readPoolKey == readKey && res.readPool == readPool
      && (res.status.Some? <==> shape.status.Some?) && (res.scale.Some? <==> shape.scale.Some?)
      && res.status != Some(res.storage) && res.scale != Some(res.storage)
      && (res.status.Some? ==> res.status != res.scale)
    ensures var built := Built(shapes, next, key, pool, readKey, readPool);
      forall j :: 0 <= j < |shapes| && j != i ==> StoragesOf(built[i]) !! StoragesOf(built[j])
  {
  }

  lemma BuiltIsNew(shapes: seq<Resource>, next: nat, key: string, pool: nat, readKey: string, readPool: nat)
    ensures forall x :: x in StoragesIn(Built(shapes, next, key, pool, readKey, readPool)) ==>
              next <= x < next + 3 * |shapes|
  {
  }

  /** The first resource has a storage, and its number is `next`. */
  lemma BuiltFirst(shapes: seq<Resource>, next: nat, key: string, pool: nat, readKey: string, readPool: nat)
    ensures shapes == [] <==> StoragesIn(Built(shapes, next, key, pool, readKey, readPool)) == {}
  {
    var built := Built(shapes, next, key, pool, readKey, readPool);
    if shapes != [] { assert next in StoragesOf(built[0]); }
  }

  lemma BuiltMore(shapes: seq<Resource>, i: nat, next: nat, key: string, pool: nat, readKey: string, readPool: nat)
    requires i < |shapes|
    ensures Built(shapes[..i + 1], next, key, pool, readKey, readPool)
      == Built(shapes[..i], next, key, pool, readKey, readPool)
        + [BuiltOne(shapes[i], next + 3 * i, key, pool, readKey, readPool)]
  {
  }

  /** A new compilation clashes with itself exactly when the shapes it was built from do. */
  lemma BuiltClash(shapes: seq<Resource>, next: nat, key: string, pool: nat, readKey: string, readPool: nat)
    ensures Clash(Built(shapes, next, key, pool, readKey, readPool)) <==> Clash(shapes)
  {
  }

  // Accounting for one sync.

  /** Each compilation of `decided` is the one that was serving, or, for the names in `renewed`, a new one. */
  ghost predicate Decided(before: Compiled, decided: Compiled, renewed: set<string>) {
    && renewed <= decided.Keys && Separate(before) && Separate(decided)
    && (forall n :: n in decided && n !in renewed ==> n in before && decided[n].resources == before[n].resources)
    && OwnedBy(decided, renewed) !! Owned(before)
  }

  function Restricted(decided: Compiled, final: set<string>): Compiled {
    map n | n in decided && n in final :: decided[n]
  }

  /** What a sync destroys: what was replaced, what is gone or lost its place, and what was built in vain. */
  function Retired(before: Compiled, decided: Compiled, renewed: set<string>, final: set<string>): set<nat> {
    OwnedBy(before, renewed) + OwnedBy(decided, renewed - final) + OwnedBy(before, before.Keys - final)
  }

  /** What was live or has been built, less what is destroyed, is exactly what the new set owns. */
  lemma Conserved(before: Compiled, decided: Compiled, renewed: set<string>, final: set<string>)
    requires Decided(before, decided, renewed) && final <= decided.Keys
    ensures var retired := Retired(before, decided, renewed, final);
      var after := Owned(Restricted(decided, final));
      && Owned(before) + OwnedBy(decided, renewed) - retired == after
      && retired !! after
  {
    hide StoragesIn;
    var after := Restricted(decided, final);
    forall x | x in Owned(after)
      ensures x in Owned(before) + OwnedBy(decided, renewed) && x !in Retired(before, decided, renewed, final)
    {
      var n :| n in after && x in StoragesIn(after[n].resources);
      KeptIsNotRetired(before, decided, renewed, final, n, x);
    }
    forall x | x in Owned(before) + OwnedBy(decided, renewed)
      ensures x in Owned(after) || x in Retired(before, decided, renewed, final)
    {
      if x in Owned(before) {
        var n :| n in before && x in StoragesIn(before[n].resources);
        assert n !in renewed && n in final ==> n in after && after[n].resources == before[n].resources;
      } else {
        var n :| n in renewed && x in StoragesIn(decided[n].resources);
        assert n in final ==> n in after && after[n] == decided[n];
      }
    }
  }

  lemma KeptIsNotRetired(before: Compiled, decided: Compiled, renewed: set<string>, final: set<string>, n: string,
                         x: nat)
    requires Decided(before, decided, renewed) && final <= decided.Keys
    requires n in final && x in StoragesIn(decided[n].resources)
    ensures x !in Retired(before, decided, renewed, final)
    ensures x in Owned(before) + OwnedBy(decided, renewed)
  {
    hide StoragesIn;
    forall m | m in before && x in StoragesIn(before[m].resources) ensures m !in renewed && m in final {
      assert x in Owned(before);
      assert n !in renewed;
      assert m == n;
    }
    forall m | m in renewed && x in StoragesIn(decided[m].resources) ensures m in final {
      assert m == n;
    }
  }
}
