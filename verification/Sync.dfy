/**
 The controller's sync: rebuilding the served surface from the current projections without losing a storage,
 destroying one that is installed, or closing a pool that something installed reads through.
 */
module Sync {
  import opened Claims
  import opened ClaimOutcomes
  import opened Lifecycle
  import opened Pools
  import opened Results
  import opened Surface
  import opened SyncRound

  /** What a sync accumulates while it goes through the candidates. */
  datatype Work = Work(decided: Compiled, retired: seq<Resource>, failures: map<string, Failure>, stale: set<string>)

  /** Nothing but the entries under `n` differs. */
  ghost predicate OnlyAt(n: string, w: Work, w': Work) {
    && w'.decided - {n} == w.decided - {n} && w'.failures - {n} == w.failures - {n} && w'.stale - {n} == w.stale - {n}
  }

  ghost predicate ConsideredSoFar(before: Compiled, cands: seq<Candidate>, w: Work) {
    && (forall i :: 0 <= i < |cands| ==>
          Chosen(before, cands[i], w.decided) && FailedRightly(before, cands[i], w.failures, w.stale))
    && (forall n :: n in w.decided || n in w.failures || n in w.stale ==>
          exists i :: 0 <= i < |cands| && cands[i].name == n)
  }

  lemma ConsideredOneMore(before: Compiled, cands: seq<Candidate>, cand: Candidate, w: Work, w': Work)
    requires ConsideredSoFar(before, cands, w) && OnlyAt(cand.name, w, w')
    requires forall i :: 0 <= i < |cands| ==> cands[i].name != cand.name
    requires Chosen(before, cand, w'.decided) && FailedRightly(before, cand, w'.failures, w'.stale)
    ensures ConsideredSoFar(before, cands + [cand], w')
  {
    hide Renews, Unchanged, NewlyBuilt, Keeps, OnlyAt;
    var more := cands + [cand];
    forall n | n != cand.name ensures SameUnder(n, w, w') {
      ElsewhereSame(cand.name, w, w', n);
    }
    forall i | 0 <= i < |more|
      ensures Chosen(before, more[i], w'.decided) && FailedRightly(before, more[i], w'.failures, w'.stale)
    {
      if i < |cands| {
        assert SameUnder(cands[i].name, w, w');
      }
    }
    forall n | n in w'.decided || n in w'.failures || n in w'.stale
      ensures exists i :: 0 <= i < |more| && more[i].name == n
    {
      if n == cand.name {
        assert more[|cands|].name == n;
      } else {
        assert SameUnder(n, w, w');
        var i :| 0 <= i < |cands| && cands[i].name == n;
        assert more[i].name == n;
      }
    }
  }

  ghost predicate SameUnder(n: string, w: Work, w': Work) {
    && (n in w'.decided <==> n in w.decided) && (n in w.decided ==> w'.decided[n] == w.decided[n])
    && (n in w'.failures <==> n in w.failures) && (n in w.failures ==> w'.failures[n] == w.failures[n])
    && (n in w'.stale <==> n in w.stale)
  }

  lemma ElsewhereSame(at: string, w: Work, w': Work, n: string)
    requires OnlyAt(at, w, w') && n != at
    ensures SameUnder(n, w, w')
  {
    assert n in w'.decided - {at} <==> n in w.decided - {at};
    assert n in w.decided ==> (w'.decided - {at})[n] == (w.decided - {at})[n];
    assert n in w'.failures - {at} <==> n in w.failures - {at};
    assert n in w.failures ==> (w'.failures - {at})[n] == (w.failures - {at})[n];
    assert n in w'.stale - {at} <==> n in w.stale - {at};
  }

  /** The candidates a sync goes through: the files, and the objects no file holds the name of. */
  method Candidates(files: seq<Candidate>, objects: seq<Candidate>) returns (cands: seq<Candidate>)
    ensures cands == Considered(files, objects)
  {
    var taken: set<string> := {};
    cands := [];
    for i := 0 to |files|
      invariant cands == files[..i] && taken == set j | 0 <= j < i :: files[j].name
    {
      taken := taken + {files[i].name};
      cands := cands + [files[i]];
    }
    for i := 0 to |objects|
      invariant cands == files + Unreserved(objects[..i], taken)
    {
      assert objects[..i + 1][..i] == objects[..i];
      if objects[i].name !in taken { cands := cands + [objects[i]]; }
    }
    assert objects[..|objects|] == objects;
  }

  method Ranking(cands: seq<Candidate>) returns (field: Field)
    ensures field == FieldOf(cands)
  {
    var created: map<string, int> := map[];
    var standing: map<string, Standing> := map[];
    for i := 0 to |cands|
      invariant Field(created, standing) == FieldOf(cands[..i])
    {
      assert cands[..i + 1][..i] == cands[..i];
      created := created[cands[i].name := cands[i].created];
      if cands[i].standing.Some? { standing := standing[cands[i].name := cands[i].standing.value]; }
    }
    assert cands[..|cands|] == cands;
    return Field(created, standing);
  }

  /** Takes the losers out, setting aside the storages they built this time. */
  method RetireLosers(before: Compiled, decided: Compiled, losers: set<string>, retired: seq<Resource>)
    returns (final: Compiled, retired': seq<Resource>)
    requires losers <= decided.Keys
    ensures final == Restricted(decided, decided.Keys - losers)
    ensures StoragesIn(retired') == StoragesIn(retired)
      + OwnedBy(decided, BuiltInVain(before, decided, losers))
  {
    hide *;
    final, retired' := decided, retired;
    var rest := losers;
    LoseNone(before, decided, losers, retired);
    while rest != {}
      invariant rest <= losers && losers <= decided.Keys
      invariant Losing(before, decided, losers, rest, final, retired, retired')
      decreases |rest|
    {
      var n :| n in rest;
      LoseOne(before, decided, losers, rest, final, retired, retired', n);
      if decided[n].fingerprint != FingerprintOf(before, n) { retired' := retired' + decided[n].resources; }
      final := final - {n};
      rest := rest - {n};
    }
    LostAll(before, decided, losers, final, retired, retired');
  }

  /** The losers whose compilation was made in this sync. */
  ghost function BuiltInVain(before: Compiled, decided: Compiled, losers: set<string>): set<string>
    requires losers <= decided.Keys
  {
    set n | n in losers && decided[n].fingerprint != FingerprintOf(before, n)
  }

  /** What is left, and has been set aside, when `rest` are the losers still to come. */
  ghost predicate Losing(before: Compiled, decided: Compiled, losers: set<string>, rest: set<string>, final: Compiled,
                         retired: seq<Resource>, retired': seq<Resource>)
    requires losers <= decided.Keys
  {
    && final == Restricted(decided, decided.Keys - (losers - rest))
    && StoragesIn(retired') == StoragesIn(retired) + OwnedBy(decided, BuiltInVain(before, decided, losers - rest))
  }

  lemma LoseNone(before: Compiled, decided: Compiled, losers: set<string>, retired: seq<Resource>)
    requires losers <= decided.Keys
    ensures Losing(before, decided, losers, losers, decided, retired, retired)
  {
  }

  lemma LoseOne(before: Compiled, decided: Compiled, losers: set<string>, rest: set<string>, final: Compiled,
                retired: seq<Resource>, retired': seq<Resource>, n: string)
    requires losers <= decided.Keys && Losing(before, decided, losers, rest, final, retired, retired')
    requires n in rest && rest <= losers
    ensures Losing(before, decided, losers, rest - {n}, final - {n}, retired,
                   if decided[n].fingerprint != FingerprintOf(before, n)
                   then retired' + decided[n].resources else retired')
  {
    hide StoragesIn, OwnedBy, Restricted;
    var gone := losers - rest;
    assert losers - (rest - {n}) == gone + {n};
    OneLess(decided, gone, n);
    var built := BuiltInVain(before, decided, gone);
    if decided[n].fingerprint != FingerprintOf(before, n) {
      StoragesAppend(retired', decided[n].resources);
      OwnedByOneMore(decided, built, n);
      assert BuiltInVain(before, decided, gone + {n}) == built + {n};
    } else {
      assert BuiltInVain(before, decided, gone + {n}) == built;
    }
  }

  lemma LostAll(before: Compiled, decided: Compiled, losers: set<string>, final: Compiled,
                retired: seq<Resource>, retired': seq<Resource>)
    requires losers <= decided.Keys && Losing(before, decided, losers, {}, final, retired, retired')
    ensures final == Restricted(decided, decided.Keys - losers)
    ensures StoragesIn(retired') == StoragesIn(retired) + OwnedBy(decided, BuiltInVain(before, decided, losers))
  {
  }

  lemma OneLess(decided: Compiled, gone: set<string>, n: string)
    ensures Restricted(decided, decided.Keys - (gone + {n})) == Restricted(decided, decided.Keys - gone) - {n}
  {
  }

  /** Sets aside what is being served and will not be. */
  method RetireGone(before: Compiled, final: Compiled, retired: seq<Resource>) returns (retired': seq<Resource>)
    ensures StoragesIn(retired') == StoragesIn(retired) + OwnedBy(before, before.Keys - final.Keys)
  {
    hide *;
    retired' := retired;
    var gone := before.Keys - final.Keys;
    var rest := gone;
    RetireNone(before, gone, retired);
    while rest != {}
      invariant rest <= gone && gone <= before.Keys && Retiring(before, gone, rest, retired, retired')
      decreases |rest|
    {
      var n :| n in rest;
      RetireOne(before, gone, rest, retired, retired', n);
      retired' := retired' + before[n].resources;
      rest := rest - {n};
    }
    RetiredAll(before, gone, retired, retired');
  }

  /** What has been set aside of `gone` when `rest` is still to come. */
  ghost predicate Retiring(before: Compiled, gone: set<string>, rest: set<string>, retired: seq<Resource>,
                           retired': seq<Resource>) {
    StoragesIn(retired') == StoragesIn(retired) + OwnedBy(before, gone - rest)
  }

  lemma RetireNone(before: Compiled, gone: set<string>, retired: seq<Resource>)
    ensures Retiring(before, gone, gone, retired, retired)
  {
  }

  lemma RetireOne(before: Compiled, gone: set<string>, rest: set<string>, retired: seq<Resource>,
                  retired': seq<Resource>, n: string)
    requires Retiring(before, gone, rest, retired, retired') && n in rest && rest <= gone && n in before
    ensures Retiring(before, gone, rest - {n}, retired, retired' + before[n].resources)
  {
    hide StoragesIn, OwnedBy;
    StoragesAppend(retired', before[n].resources);
    OwnedByOneMore(before, gone - rest, n);
    assert gone - (rest - {n}) == gone - rest + {n};
  }

  lemma RetiredAll(before: Compiled, gone: set<string>, retired: seq<Resource>, retired': seq<Resource>)
    requires Retiring(before, gone, {}, retired, retired')
    ensures StoragesIn(retired') == StoragesIn(retired) + OwnedBy(before, gone)
  {
  }

  /** The resources of every projection that is left, in whatever order the map gives them. */
  method Gather(final: Compiled) returns (resources: seq<Resource>, ghost order: seq<string>)
    ensures (forall n :: n in order <==> n in final) && forall i, j :: 0 <= i < j < |order| ==> order[i] != order[j]
    ensures resources == Concat(order, ResourcesOf(final))
  {
    hide Concat;
    resources, order := [], [];
    var rest := final.Keys;
    NothingGathered(ResourcesOf(final));
    while rest != {}
      invariant rest <= final.Keys && forall n :: n in order <==> n in final && n !in rest
      invariant forall i, j :: 0 <= i < j < |order| ==> order[i] != order[j]
      invariant resources == Concat(order, ResourcesOf(final))
      decreases |rest|
    {
      var n :| n in rest;
      GatherOne(order, n, ResourcesOf(final));
      resources := resources + final[n].resources;
      order := order + [n];
      rest := rest - {n};
    }
  }

  lemma NothingGathered(surviving: map<string, seq<Resource>>)
    ensures Concat([], surviving) == []
  {
  }

  lemma GatherOne(order: seq<string>, n: string, surviving: map<string, seq<Resource>>)
    requires (forall m :: m in order ==> m in surviving) && n in surviving
    ensures Concat(order + [n], surviving) == Concat(order, surviving) + surviving[n]
  {
  }

  /** What is gathered is what is compiled. */
  lemma {:induction false} GatheredAll(order: seq<string>, final: Compiled)
    requires forall n :: n in order ==> n in final
    ensures forall res :: res in Concat(order, ResourcesOf(final)) <==>
              exists n :: n in order && res in final[n].resources
    ensures StoragesIn(Concat(order, ResourcesOf(final))) == OwnedBy(final, set n | n in order)
  {
    hide StoragesIn;
    if order == [] {
      assert StoragesIn([]) == {} by { NoStorages(); }
    } else {
      var k := |order| - 1;
      assert order == order[..k] + [order[k]];
      GatheredAll(order[..k], final);
      StoragesAppend(Concat(order[..k], ResourcesOf(final)), final[order[k]].resources);
      OwnedByOneMore(final, (set n | n in order[..k]), order[k]);
      assert (set n | n in order) == (set n | n in order[..k]) + {order[k]};
    }
  }

  lemma NoStorages()
    ensures StoragesIn([]) == {}
  {
  }

  /** The keys the installed resources use. */
  method InUse(resources: seq<Resource>) returns (keys: set<string>)
    ensures keys == KeysOf(resources)
  {
    keys := {};
    for i := 0 to |resources|
      invariant keys == KeysOf(resources[..i])
    {
      KeysStep(resources, i);
      keys := keys + {resources[i].poolKey};
      if resources[i].readPoolKey != "" { keys := keys + {resources[i].readPoolKey}; }
    }
    assert resources[..|resources|] == resources;
  }

  lemma KeysStep(resources: seq<Resource>, i: nat)
    requires i < |resources|
    ensures KeysOf(resources[..i + 1]) == KeysOf(resources[..i]) + KeysOfOne(resources[i])
  {
  }

  class Controller {
    const cache: PoolCache
    var compiled: Compiled
    var installed: seq<Resource>
    var nextStorage: nat
    /**
     Storages built and not destroyed; those destroyed; and those left behind, by a rebuild that was refused or a
     compilation that stopped part way.
     */
    ghost var live: set<nat>
    ghost var destroyed: set<nat>
    ghost var leaked: set<nat>

    /** Numbers are handed out in order, and a storage is live or destroyed, not both. */
    ghost predicate Counted()
      reads this`live, this`destroyed, this`nextStorage
    {
      live !! destroyed && forall x :: x in live || x in destroyed ==> x < nextStorage
    }

    /** The router has the resources of `compiled`. */
    ghost predicate Routed()
      reads this`compiled, this`installed
    {
      Surfaced(compiled, installed)
    }

    ghost predicate Valid()
      reads this, cache
    {
      && cache.Valid() && Separate(compiled) && AllSound(compiled, cache.pools) && Counted() && Routed()
      && live == Owned(compiled) + leaked && leaked !! Owned(compiled)
    }

    /** What holds between two candidates of a sync. */
    ghost predicate Working(w: Work, renewed: set<string>)
      reads this, cache
    {
      && cache.Valid() && AllSound(compiled, cache.pools) && Counted()
      && InProgress(compiled, cache.pools, nextStorage, w.decided, renewed, StoragesIn(w.retired))
      && live == Owned(compiled) + leaked + OwnedBy(w.decided, renewed)
      && leaked !! Owned(compiled) + OwnedBy(w.decided, renewed)
    }

    constructor (cache: PoolCache)
      requires cache.Valid()
      ensures Valid() && this.cache == cache && compiled == map[] && leaked == {} && destroyed == {}
    {
      this.cache := cache;
      compiled, installed, nextStorage := map[], [], 0;
      live, destroyed, leaked := {}, {}, {};
    }

    /** Releases the storages of every resource in the list; one listed twice is released once. */
    method DestroyAll(resources: seq<Resource>)
      requires Counted() && StoragesIn(resources) <= live
      modifies this`live, this`destroyed
      ensures Counted() && live == old(live) - StoragesIn(resources)
      ensures destroyed == old(destroyed) + StoragesIn(resources)
    {
      hide StoragesOf;
      for i := 0 to |resources|
        invariant StoragesIn(resources[..i]) <= old(live)
        invariant live == old(live) - StoragesIn(resources[..i])
        invariant destroyed == old(destroyed) + StoragesIn(resources[..i])
      {
        StoragesPrefix(resources, i);
        live := live - StoragesOf(resources[i]);
        destroyed := destroyed + StoragesOf(resources[i]);
      }
      assert resources[..|resources|] == resources;
    }

    /** New storages for one version after another, as far as the compilation gets. */
    method Compile(attempt: Attempt, pool: nat, readPool: nat) returns (resources: seq<Resource>)
      requires Counted() && attempt.Prepared?
      modifies this`live, this`nextStorage
      ensures Counted() && nextStorage >= old(nextStorage)
      ensures resources == Built(attempt.shapes, old(nextStorage), attempt.poolKey, pool, attempt.readPoolKey, readPool)
      ensures live == old(live) + StoragesIn(resources)
      ensures forall x :: x in StoragesIn(resources) ==> old(nextStorage) <= x < nextStorage
    {
      hide StoragesIn, Built, BuiltOne;
      ghost var next := nextStorage;
      ghost var poolKey, readPoolKey := attempt.poolKey, attempt.readPoolKey;
      var shapes := attempt.shapes;
      resources := [];
      NoStorages();
      for i := 0 to |shapes|
        invariant nextStorage == next + 3 * i
        invariant resources == Built(shapes[..i], next, poolKey, pool, readPoolKey, readPool)
        invariant live == old(live) + StoragesIn(resources)
      {
        BuiltMore(shapes, i, next, poolKey, pool, readPoolKey, readPool);
        var made := BuiltOne(shapes[i], nextStorage, attempt.poolKey, pool, attempt.readPoolKey, readPool);
        OneMoreStorage(resources, made);
        resources := resources + [made];
        live := live + StoragesOf(made);
        nextStorage := nextStorage + 3;
      }
      assert shapes[..|shapes|] == shapes;
      BuiltIsNew(shapes, next, poolKey, pool, readPoolKey, readPool);
    }

    /** Fetches the pools an attempt gets as far as asking for; none that is cached is replaced. */
    method FetchAll(keys: seq<string>)
      requires cache.Valid()
      modifies cache
      ensures cache.Valid() && cache.closed == old(cache.closed) && Extends(old(cache.pools), cache.pools)
      ensures forall k :: k in keys ==> k in cache.pools
    {
      for i := 0 to |keys|
        invariant cache.Valid() && cache.closed == old(cache.closed) && Extends(old(cache.pools), cache.pools)
        invariant forall k :: k in keys[..i] ==> k in cache.pools
      {
        var _ := cache.Get(keys[i], true);
      }
    }

    /** The pools of a projection's data source and of its replica, when it names one. */
    method Pair(poolKey: string, readPoolKey: string) returns (pool: nat, readPool: nat)
      requires cache.Valid()
      modifies cache
      ensures cache.Valid() && cache.closed == old(cache.closed) && Extends(old(cache.pools), cache.pools)
      ensures poolKey in cache.pools && cache.pools[poolKey] == pool
      ensures readPoolKey != "" ==> readPoolKey in cache.pools && cache.pools[readPoolKey] == readPool
    {
      var got := cache.Get(poolKey, true);
      pool, readPool := got.value, 0;
      if readPoolKey != "" {
        got := cache.Get(readPoolKey, true);
        readPool := got.value;
      }
    }

    /** A projection that did not compile: what it served before stays, if the same side of its name compiled it. */
    method Failed(cand: Candidate, w: Work, ghost renewed: set<string>) returns (w': Work)
      requires Working(w, renewed) && cand.name !in w.decided
      ensures Working(w', renewed) && OnlyAt(cand.name, w, w')
      ensures cand.name in w'.failures && w'.failures[cand.name] == CompilationFailed
      ensures cand.name in w'.decided <==> cand.name in compiled && compiled[cand.name].fromFile == cand.fromFile
      ensures cand.name in w'.decided ==> w'.decided[cand.name] == compiled[cand.name] && cand.name in w'.stale
      ensures cand.name !in w'.decided ==> w'.stale == w.stale
    {
      hide InProgress, AllSound, StoragesIn, OwnedBy, Owned, Separate;
      var n := cand.name;
      w' := w.(failures := w.failures[n := CompilationFailed]);
      if n !in compiled || compiled[n].fromFile != cand.fromFile { return; }
      KeepReady(n);
      KeepStep(compiled, cache.pools, nextStorage, w.decided, renewed, StoragesIn(w.retired), n, cand.fromFile);
      w' := w'.(stale := w.stale + {n}, decided := w.decided[n := compiled[n]]);
    }

    lemma KeepReady(n: string)
      requires AllSound(compiled, cache.pools) && n in compiled
      ensures Sound(compiled[n], cache.pools)
    {
    }

    /** What has not changed stays as it is, whichever side of the name it comes from now. */
    method Keep(cand: Candidate, w: Work, ghost renewed: set<string>) returns (w': Work)
      requires Working(w, renewed) && cand.name !in w.decided && cand.name in compiled
      ensures Working(w', renewed)
      ensures w' == w.(decided := w.decided[cand.name := compiled[cand.name].(fromFile := cand.fromFile)])
    {
      hide InProgress, AllSound, StoragesIn, OwnedBy, Owned, Separate;
      var n := cand.name;
      KeepReady(n);
      KeepStep(compiled, cache.pools, nextStorage, w.decided, renewed, StoragesIn(w.retired), n, cand.fromFile);
      w' := w.(decided := w.decided[n := compiled[n].(fromFile := cand.fromFile)]);
    }

    /** Puts a new compilation in place, setting aside the one it replaces. */
    method Replace(cand: Candidate, made: Compilation, w: Work, ghost renewed: set<string>, ghost next: nat)
      returns (w': Work)
      requires cache.Valid() && AllSound(compiled, cache.pools) && Counted() && next <= nextStorage
      requires InProgress(compiled, cache.pools, next, w.decided, renewed, StoragesIn(w.retired))
      requires live == Owned(compiled) + leaked + OwnedBy(w.decided, renewed) + StoragesIn(made.resources)
      requires leaked !! Owned(compiled) + OwnedBy(w.decided, renewed)
      requires forall x :: x in Owned(compiled) || x in leaked ==> x < next
      requires forall x :: x in StoragesIn(made.resources) ==> next <= x < nextStorage
      requires cand.name !in w.decided
      requires made.fingerprint != FingerprintOf(compiled, cand.name) && Sound(made, cache.pools)
      ensures Working(w', renewed + {cand.name})
      ensures w'.decided == w.decided[cand.name := made] && w'.failures == w.failures && w'.stale == w.stale
    {
      hide StoragesIn, Sound, OwnedBy, Owned, Separate;
      var n := cand.name;
      RenewStep(compiled, cache.pools, next, w.decided, renewed, StoragesIn(w.retired), n, made, nextStorage);
      var retired := w.retired;
      if n in compiled {
        StoragesAppend(retired, compiled[n].resources);
        retired := retired + compiled[n].resources;
      }
      OwnedByName(compiled, n);
      w' := w.(decided := w.decided[n := made], retired := retired);
    }

    /** An attempt that reached a fingerprint: kept, compiled and put in place, or failed. */
    method Attempted(cand: Candidate, w: Work, ghost renewed: set<string>)
      returns (w': Work, ghost renewed': set<string>)
      requires Working(w, renewed) && Possible(cand.attempt) && cand.attempt.Prepared?
      requires cand.name !in w.decided && cand.name !in w.failures && cand.name !in w.stale
      modifies cache, this`live, this`destroyed, this`nextStorage, this`leaked
      ensures Working(w', renewed') && OnlyAt(cand.name, w, w') && cache.closed == old(cache.closed)
      ensures old(destroyed) <= destroyed
      ensures old(leaked) <= leaked && (leaked == old(leaked) <==> !PartWay(compiled, cand))
      ensures Chosen(compiled, cand, w'.decided) && FailedRightly(compiled, cand, w'.failures, w'.stale)
    {
      hide InProgress, AllSound, StoragesIn, OwnedBy, Owned, Chosen, FailedRightly, OnlyAt, Possible, Extends;
      var n, attempt := cand.name, cand.attempt;
      ghost var pools0 := cache.pools;
      var pool, readPool := Pair(attempt.poolKey, attempt.readPoolKey);
      SoundWithMore(compiled, pools0, cache.pools);
      MorePools(compiled, pools0, nextStorage, w.decided, renewed, StoragesIn(w.retired), cache.pools);
      if n in compiled && compiled[n].fingerprint == attempt.fingerprint {
        w' := Keep(cand, w, renewed);
        renewed' := renewed;
        KeptAsChosen(compiled, cand, w, w');
      } else {
        w', renewed' := Recompile(cand, w, renewed, pool, readPool);
      }
    }

    /** A changed projection: compiled and put in place, or, when it does not compile or install, failed. */
    method Recompile(cand: Candidate, w: Work, ghost renewed: set<string>, pool: nat, readPool: nat)
      returns (w': Work, ghost renewed': set<string>)
      requires Working(w, renewed) && Possible(cand.attempt) && cand.attempt.Prepared?
      requires cand.name !in w.decided && cand.name !in w.failures && cand.name !in w.stale
      requires !Unchanged(compiled, cand)
      requires cand.attempt.poolKey in cache.pools && cache.pools[cand.attempt.poolKey] == pool
      requires cand.attempt.readPoolKey != "" ==>
                 cand.attempt.readPoolKey in cache.pools && cache.pools[cand.attempt.readPoolKey] == readPool
      modifies this`live, this`destroyed, this`nextStorage, this`leaked
      ensures Working(w', renewed') && OnlyAt(cand.name, w, w') && old(destroyed) <= destroyed
      ensures old(leaked) <= leaked && (leaked == old(leaked) <==> !PartWay(compiled, cand))
      ensures Chosen(compiled, cand, w'.decided) && FailedRightly(compiled, cand, w'.failures, w'.stale)
    {
      hide InProgress, AllSound, StoragesIn, OwnedBy, Owned, Chosen, FailedRightly, OnlyAt, Possible, Built, Clash,
           Sound;
      var n, attempt := cand.name, cand.attempt;
      ghost var next := nextStorage;
      var resources := Compile(attempt, pool, readPool);
      if !attempt.complete {
        BuiltFirst(attempt.shapes, next, attempt.poolKey, pool, attempt.readPoolKey, readPool);
        leaked := leaked + StoragesIn(resources);
        StillInProgress(compiled, cache.pools, next, w.decided, renewed, StoragesIn(w.retired), nextStorage);
        renewed' := renewed;
        w' := Failed(cand, w, renewed);
        FailedAsChosen(compiled, cand, w, w');
        return;
      }
      BuiltClash(attempt.shapes, next, attempt.poolKey, pool, attempt.readPoolKey, readPool);
      var arranged := GroupStorages(resources);
      if arranged.Err? || !attempt.installs {
        DestroyAll(resources);
        StillInProgress(compiled, cache.pools, next, w.decided, renewed, StoragesIn(w.retired), nextStorage);
        renewed' := renewed;
        w' := Failed(cand, w, renewed);
        FailedAsChosen(compiled, cand, w, w');
      } else {
        BuiltIsSound(attempt, next, pool, readPool, cache.pools);
        var made := Compilation(attempt.fingerprint, resources, cand.fromFile);
        ChangedPrint(compiled, cand);
        w' := Replace(cand, made, w, renewed, next);
        renewed' := renewed + {n};
        NewAsChosen(compiled, cand, w, w', next, pool, readPool);
      }
    }

    method Consider(cand: Candidate, w: Work, ghost renewed: set<string>)
      returns (w': Work, ghost renewed': set<string>)
      requires Working(w, renewed) && Possible(cand.attempt)
      requires cand.name !in w.decided && cand.name !in w.failures && cand.name !in w.stale
      modifies cache, this`live, this`destroyed, this`nextStorage, this`leaked
      ensures Working(w', renewed') && OnlyAt(cand.name, w, w') && cache.closed == old(cache.closed)
      ensures old(destroyed) <= destroyed
      ensures old(leaked) <= leaked && (leaked == old(leaked) <==> !PartWay(compiled, cand))
      ensures Chosen(compiled, cand, w'.decided) && FailedRightly(compiled, cand, w'.failures, w'.stale)
    {
      match cand.attempt
      case GroupRefused =>
        w' := w.(failures := w.failures[cand.name := GroupNotAllowed]);
        renewed' := renewed;
      case NotPrepared(reached) =>
        hide InProgress, AllSound, StoragesIn, OwnedBy, Owned, Chosen, FailedRightly, OnlyAt, Clash, Extends;
        ghost var pools0 := cache.pools;
        FetchAll(reached);
        SoundWithMore(compiled, pools0, cache.pools);
        MorePools(compiled, pools0, nextStorage, w.decided, renewed, StoragesIn(w.retired), cache.pools);
        renewed' := renewed;
        w' := Failed(cand, w, renewed);
        FailedAsChosen(compiled, cand, w, w');
      case Prepared(_, _, _, _, _, _) =>
        w', renewed' := Attempted(cand, w, renewed);
    }

    method ConsiderAll(cands: seq<Candidate>) returns (w: Work, ghost renewed: set<string>)
      requires Valid() && DistinctNames(cands) && forall c :: c in cands ==> Possible(c.attempt)
      modifies cache, this`live, this`destroyed, this`nextStorage, this`leaked
      ensures Working(w, renewed) && ConsideredSoFar(compiled, cands, w) && cache.closed == old(cache.closed)
      ensures old(destroyed) <= destroyed
      ensures old(leaked) <= leaked && (leaked == old(leaked) <==> NonePartWay(compiled, cands))
    {
      hide InProgress, AllSound, StoragesIn, Owned, OwnedBy, Chosen, FailedRightly, OnlyAt, Possible, PartWay;
      w, renewed := Work(map[], [], map[], {}), {};
      NoStorages();
      Started(compiled, cache.pools, nextStorage);
      for i := 0 to |cands|
        invariant Working(w, renewed) && ConsideredSoFar(compiled, cands[..i], w) && cache.closed == old(cache.closed)
        invariant old(destroyed) <= destroyed
        invariant old(leaked) <= leaked && (leaked == old(leaked) <==> NonePartWay(compiled, cands[..i]))
      {
        NonePartWayMore(compiled, cands, i);
        ghost var w0 := w;
        w, renewed := Consider(cands[i], w, renewed);
        ConsideredOneMore(compiled, cands[..i], cands[i], w0, w);
        assert cands[..i + 1] == cands[..i] + [cands[i]];
      }
      assert cands[..|cands|] == cands;
    }

    /** Puts a new surface in place, and only then releases what it no longer routes to. */
    method Install(final: Compiled, resources: seq<Resource>, retired: seq<Resource>, ghost built: set<nat>)
      requires Counted() && live == Owned(compiled) + leaked + built && leaked !! Owned(compiled) + built
      requires Owned(compiled) + built - StoragesIn(retired) == Owned(final)
      requires StoragesIn(retired) <= Owned(compiled) + built
      requires Surfaced(final, resources)
      modifies this
      ensures Counted() && Routed() && live == Owned(compiled) + leaked && leaked !! Owned(compiled)
      ensures compiled == final && installed == resources && leaked == old(leaked)
      ensures destroyed == old(destroyed) + StoragesIn(retired)
    {
      hide StoragesIn, Owned, Clash, Counted;
      LiveAfter(Owned(compiled), leaked, built, StoragesIn(retired), Owned(final));
      compiled, installed := final, resources;
      DestroyAll(retired);
    }

    /** Closes the pools that nothing installed uses. */
    method ReleasePools()
      requires cache.Valid() && AllSound(compiled, cache.pools) && Routed()
      modifies cache
      ensures cache.Valid() && AllSound(compiled, cache.pools) && cache.pools.Keys == KeysOf(installed)
    {
      hide StoragesIn, Owned, Clash, AllSound, KeysOf, Retained;
      var keys := InUse(installed);
      ghost var pools0 := cache.pools;
      var _ := cache.RetainOnly(keys);
      KeysSuffice(compiled, installed, pools0);
    }

    /** Settles the claims: who serves, what is installed for them, and which storages nothing will route to. */
    method Settle(w: Work, field: Field, ghost renewed: set<string>)
      returns (final: Compiled, resources: seq<Resource>, retired: seq<Resource>, failures: map<string, Failure>,
               stale: set<string>)
      requires Working(w, renewed) && forall n :: n in w.decided ==> n !in w.failures || n in w.stale
      ensures Settled(WantsOf(ResourcesOf(w.decided)), field, final.Keys)
      ensures final.Keys <= w.decided.Keys && final == Restricted(w.decided, final.Keys)
      ensures Surfaced(final, resources) && Separate(final) && AllSound(final, cache.pools)
      ensures Owned(compiled) + OwnedBy(w.decided, renewed) - StoragesIn(retired) == Owned(final)
      ensures StoragesIn(retired) <= Owned(compiled) + OwnedBy(w.decided, renewed)
      ensures OwnedBy(w.decided, renewed) !! Owned(compiled)
      ensures ReportedRightly(w.decided, final.Keys, failures, stale)
    {
      hide InProgress, AllSound, StoragesIn, Owned, OwnedBy, Settled, Clash, Restricted, Explained, ClaimSet, Concat,
           Separate;
      var losses := ResolveClaims(ResourcesOf(w.decided), field);
      failures := w.failures + map n | n in losses :: ClaimLost(losses[n]);
      stale := w.stale - losses.Keys;
      final, retired := RetireLosers(compiled, w.decided, losses.Keys, w.retired);
      retired := RetireGone(compiled, final, retired);
      Settlement(compiled, cache.pools, nextStorage, w.decided, renewed, StoragesIn(w.retired), losses.Keys, final,
          StoragesIn(retired));
      ghost var order;
      resources, order := Gather(final);
      SurfaceInstalls(w.decided, cache.pools, nextStorage, compiled, renewed, StoragesIn(w.retired), field, final,
          order);
    }

    /** One sync; `installs` says whether the router's installer takes the new surface. */
    method Sync(files: seq<Candidate>, objects: seq<Candidate>, installs: bool)
      returns (ok: bool, failures: map<string, Failure>, stale: set<string>, ghost decided: Compiled,
               ghost partial: set<nat>)
      requires Valid() && DistinctNames(files) && DistinctNames(objects)
      requires forall c :: c in files || c in objects ==> Possible(c.attempt)
      modifies this, cache
      ensures Valid() && old(destroyed) <= destroyed
      ensures ok <==> installs
      ensures AllChosen(old(compiled), Considered(files, objects), decided)
      ensures leaked == old(leaked) + partial + (if ok then {} else OwnedBy(decided, Renewed(old(compiled), decided)))
      ensures partial == {} <==> NonePartWay(old(compiled), Considered(files, objects))
      ensures leaked == old(leaked) <==> LeavesNone(old(compiled), Round(files, objects, installs))
      ensures ok ==> cache.pools.Keys == KeysOf(installed)
      ensures ok ==> compiled.Keys <= decided.Keys && compiled == Restricted(decided, compiled.Keys)
      ensures ok ==> Settled(WantsOf(ResourcesOf(decided)), FieldOf(Considered(files, objects)), compiled.Keys)
      ensures ok ==> ReportedRightly(decided, compiled.Keys, failures, stale)
      ensures !ok ==> compiled == old(compiled) && installed == old(installed) && cache.closed == old(cache.closed)
    {
      hide InProgress, AllSound, StoragesIn, Owned, OwnedBy, Chosen, Possible, Settled, Clash, ConsideredSoFar,
           Renewed, Restricted, WantsOf, FieldOf, Separate, DistinctNames, AllChosen, ReportedRightly, Counted,
           Considered, KeysOf, PartWay, NonePartWay, BuildsNone;
      ConsideredDistinct(files, objects);
      var cands := Candidates(files, objects);
      var w, renewed := ConsiderAll(cands);
      decided := w.decided;
      partial := leaked - old(leaked);
      RenewedNames(compiled, cache.pools, nextStorage, decided, renewed, StoragesIn(w.retired));
      ChosenOfConsidered(compiled, cands, w);
      NothingRenewed(compiled, cands, w.decided);
      var field := Ranking(cands);
      var final, resources, retired;
      final, resources, retired, failures, stale := Settle(w, field, renewed);
      var arranged := GroupStorages(resources);
      if arranged.Err? || !installs {
        leaked := leaked + OwnedBy(w.decided, renewed);
        ok := false;
      } else {
        Install(final, resources, retired, OwnedBy(w.decided, renewed));
        ReleasePools();
        ok := true;
      }
    }

    /**
     Any run of syncs: what is installed has not been destroyed and its pools are open. The storages that were built
     and not destroyed are those of the compiled projections exactly when every rebuild was taken, or had nothing new
     to install, and no compilation stopped part way.
     */
    method Run(rounds: seq<Round>) returns (ghost befores: seq<Compiled>, ghost decideds: seq<Compiled>)
      requires Valid() && forall i :: 0 <= i < |rounds| ==> rounds[i].Given()
      modifies this, cache
      ensures Valid() && old(destroyed) <= destroyed && StoragesIn(installed) !! destroyed
      ensures forall res :: res in installed ==> Pooled(res, cache.pools) && res.pool !in cache.closed
      ensures |befores| == |rounds| == |decideds| && (rounds != [] ==> befores[0] == old(compiled))
      ensures forall i :: 0 <= i < |rounds| ==>
                AllChosen(befores[i], Considered(rounds[i].files, rounds[i].objects), decideds[i])
      ensures live == Owned(compiled) + old(leaked) <==>
                forall i :: 0 <= i < |rounds| ==> LeavesNone(befores[i], rounds[i])
    {
      hide AllSound, Separate, Surfaced, Counted, StoragesIn, Owned, Round.Given, LeavesNone, AllChosen, Considered;
      befores, decideds := [], [];
      for i := 0 to |rounds|
        invariant Valid() && old(destroyed) <= destroyed && old(leaked) <= leaked
        invariant |befores| == |decideds| == i && (i == 0 ==> compiled == old(compiled))
        invariant i > 0 ==> befores[0] == old(compiled)
        invariant forall j :: 0 <= j < i ==>
                    AllChosen(befores[j], Considered(rounds[j].files, rounds[j].objects), decideds[j])
        invariant leaked == old(leaked) <==> forall j :: 0 <= j < i ==> LeavesNone(befores[j], rounds[j])
      {
        RoundGiven(rounds[i]);
        ghost var before := compiled;
        var _, _, _, decided, _ := Sync(rounds[i].files, rounds[i].objects, rounds[i].installs);
        assert rounds[i] == Round(rounds[i].files, rounds[i].objects, rounds[i].installs);
        befores, decideds := befores + [before], decideds + [decided];
      }
      InstalledIsLive();
    }

    lemma InstalledIsLive()
      requires Valid()
      ensures StoragesIn(installed) !! destroyed
      ensures forall res :: res in installed ==> Pooled(res, cache.pools) && res.pool !in cache.closed
    {
    }
  }

  /**
   One projection whose first version builds and whose second does not: its storage is in nothing that is compiled.
   */
  method PartWayLeaks(cand: Candidate, shape: Resource, fingerprint: string, key: string)
    returns (controller: Controller)
    requires cand.attempt == Prepared(fingerprint, key, "", [shape], false, true) && fingerprint != ""
    ensures fresh(controller) && controller.Valid()
    ensures controller.compiled == map[] && controller.leaked != {} && controller.live == controller.leaked
  {
    var cache := new PoolCache();
    controller := new Controller(cache);
    assert PartWay(map[], cand);
    assert Considered([cand], []) == [cand] by { assert Unreserved([], {cand.name}) == []; }
    assert !NonePartWay(map[], [cand]) by { assert [cand][0] == cand; }
    ghost var decided, partial;
    var ok, failures, stale;
    ok, failures, stale, decided, partial := controller.Sync([cand], [], true);
    assert Chosen(map[], [cand][0], decided);
    assert decided == map[];
    assert Owned(map[]) == {};
  }

  /** A round in which everything compiles whole and the rebuild is taken leaves nothing behind. */
  lemma CompleteLeavesNone(before: Compiled, round: Round)
    requires round.installs
    requires forall c :: c in Considered(round.files, round.objects) && c.attempt.Prepared? ==> c.attempt.complete
    ensures LeavesNone(before, round)
  {
  }

  lemma NonePartWayMore(before: Compiled, cands: seq<Candidate>, i: nat)
    requires i < |cands|
    ensures NonePartWay(before, cands[..i + 1]) <==> NonePartWay(before, cands[..i]) && !PartWay(before, cands[i])
  {
    hide PartWay;
    var more := cands[..i + 1];
    assert more[i] == cands[i] && forall j :: 0 <= j < i ==> more[j] == cands[..i][j];
  }

  lemma OneMoreStorage(resources: seq<Resource>, made: Resource)
    ensures StoragesIn(resources + [made]) == StoragesIn(resources) + StoragesOf(made)
  {
    hide StoragesOf;
    StoragesAppend(resources, [made]);
    assert [made][0] == made;
    assert StoragesIn([made]) == StoragesOf(made);
  }

  lemma RoundGiven(round: Round)
    requires round.Given()
    ensures DistinctNames(round.files) && DistinctNames(round.objects)
    ensures forall c :: c in round.files || c in round.objects ==> Possible(c.attempt)
  {
  }

  /** `resources` are those of `final`, all of them and nothing else, on paths of their own. */
  ghost predicate Surfaced(final: Compiled, resources: seq<Resource>) {
    && !Clash(resources) && StoragesIn(resources) == Owned(final)
    && (forall res :: res in resources <==> exists n :: n in final && res in final[n].resources)
  }

  lemma LiveAfter(owned: set<nat>, leaked: set<nat>, built: set<nat>, retired: set<nat>, after: set<nat>)
    requires owned + built - retired == after && retired <= owned + built && leaked !! owned + built
    ensures owned + leaked + built - retired == after + leaked && leaked !! after
  {
  }

  ghost predicate AllChosen(before: Compiled, cands: seq<Candidate>, decided: Compiled) {
    && (forall i :: 0 <= i < |cands| ==> Chosen(before, cands[i], decided))
    && (forall n :: n in decided ==> exists i :: 0 <= i < |cands| && cands[i].name == n)
  }

  /** What is newly compiled owns no storage exactly when no candidate has any built. */
  lemma NothingRenewed(before: Compiled, cands: seq<Candidate>, decided: Compiled)
    requires AllChosen(before, cands, decided) && forall c :: c in cands ==> Possible(c.attempt)
    ensures OwnedBy(decided, Renewed(before, decided)) == {} <==> BuildsNone(before, cands)
  {
    hide StoragesIn, Built, Clash;
    forall i | 0 <= i < |cands| && Renews(before, cands[i]) && cands[i].attempt.shapes != []
      ensures OwnedBy(decided, Renewed(before, decided)) != {}
    {
      RenewedStorages(before, cands[i], decided);
    }
    if BuildsNone(before, cands) {
      forall n | n in Renewed(before, decided) ensures StoragesIn(decided[n].resources) == {} {
        var i :| 0 <= i < |cands| && cands[i].name == n;
        assert Chosen(before, cands[i], decided);
        RenewedStorages(before, cands[i], decided);
      }
    }
  }

  lemma RenewedStorages(before: Compiled, cand: Candidate, decided: Compiled)
    requires Chosen(before, cand, decided) && Possible(cand.attempt)
    ensures cand.name in Renewed(before, decided) <==> Renews(before, cand)
    ensures Renews(before, cand) ==> (cand.attempt.shapes == [] <==> StoragesIn(decided[cand.name].resources) == {})
    ensures Renews(before, cand) && cand.attempt.shapes != [] ==> OwnedBy(decided, Renewed(before, decided)) != {}
  {
    hide StoragesIn, Built, Clash;
    if Renews(before, cand) {
      assert NewlyBuilt(cand, decided[cand.name]);
      var next: nat, pool: nat, readPool: nat :|
        decided[cand.name].resources
          == Built(cand.attempt.shapes, next, cand.attempt.poolKey, pool, cand.attempt.readPoolKey, readPool);
      BuiltFirst(cand.attempt.shapes, next, cand.attempt.poolKey, pool, cand.attempt.readPoolKey, readPool);
      assert cand.name in Renewed(before, decided);
      if cand.attempt.shapes != [] {
        var x :| x in StoragesIn(decided[cand.name].resources);
        assert x in OwnedBy(decided, Renewed(before, decided));
      }
    }
  }

  lemma ChosenOfConsidered(before: Compiled, cands: seq<Candidate>, w: Work)
    requires ConsideredSoFar(before, cands, w)
    ensures AllChosen(before, cands, w.decided)
    ensures forall n :: n in w.decided ==> n !in w.failures || n in w.stale
  {
  }

  lemma KeysSuffice(final: Compiled, resources: seq<Resource>, pools: map<string, nat>)
    requires AllSound(final, pools)
    requires forall res :: res in resources <==> exists n :: n in final && res in final[n].resources
    ensures AllSound(final, Retained(pools, KeysOf(resources)))
    ensures Retained(pools, KeysOf(resources)).Keys == KeysOf(resources)
  {
    var kept := Retained(pools, KeysOf(resources));
    forall n | n in final ensures Sound(final[n], kept) {
      assert Sound(final[n], pools);
      forall i | 0 <= i < |final[n].resources| ensures Pooled(final[n].resources[i], kept) {
        var res := final[n].resources[i];
        assert Pooled(res, pools);
        assert res in resources;
        KeysIn(resources, res);
      }
    }
    forall k | k in KeysOf(resources) ensures k in pools {
      var i :| 0 <= i < |resources| && k in KeysOfOne(resources[i]);
      assert resources[i] in resources;
      var n :| n in final && resources[i] in final[n].resources;
      assert Sound(final[n], pools);
      var j :| 0 <= j < |final[n].resources| && final[n].resources[j] == resources[i];
      assert Pooled(final[n].resources[j], pools);
    }
  }

  lemma KeysIn(resources: seq<Resource>, res: Resource)
    requires res in resources
    ensures KeysOfOne(res) <= KeysOf(resources)
  {
  }

  /** The router accepts the survivors. */
  lemma SurfaceInstalls(decided: Compiled, pools: map<string, nat>, next: nat, before: Compiled, renewed: set<string>,
                        replaced: set<nat>, field: Field, final: Compiled, order: seq<string>)
    requires InProgress(before, pools, next, decided, renewed, replaced)
    requires Settled(WantsOf(ResourcesOf(decided)), field, final.Keys)
    requires final.Keys <= decided.Keys && final == Restricted(decided, final.Keys)
    requires (forall n :: n in order <==> n in final) && forall i, j :: 0 <= i < j < |order| ==> order[i] != order[j]
    ensures Surfaced(final, Concat(order, ResourcesOf(final)))
  {
    hide Settled, Clash, Concat, WantsOf, StoragesIn, OwnedBy, Separate, InProgress, Servable;
    SoundServable(before, pools, next, decided, renewed, replaced);
    WinnersInstall(ResourcesOf(decided), field, final.Keys, order);
    SameConcat(order, ResourcesOf(decided), ResourcesOf(final));
    GatheredAll(order, final);
    assert (set n | n in order) == final.Keys;
  }

  lemma SoundServable(before: Compiled, pools: map<string, nat>, next: nat, decided: Compiled, renewed: set<string>,
                      replaced: set<nat>)
    requires InProgress(before, pools, next, decided, renewed, replaced)
    ensures forall n :: n in decided ==> Servable(decided[n].resources)
  {
  }

  lemma {:induction false} SameConcat(order: seq<string>, a: map<string, seq<Resource>>, b: map<string, seq<Resource>>)
    requires forall n :: n in order ==> n in a && n in b && a[n] == b[n]
    ensures Concat(order, a) == Concat(order, b)
  {
    if order != [] { SameConcat(order[..|order| - 1], a, b); }
  }

  lemma Settlement(before: Compiled, pools: map<string, nat>, next: nat, decided: Compiled, renewed: set<string>,
                   replaced: set<nat>, losers: set<string>, final: Compiled, retired: set<nat>)
    requires InProgress(before, pools, next, decided, renewed, replaced) && losers <= decided.Keys
    requires final == Restricted(decided, decided.Keys - losers)
    requires retired == replaced
      + OwnedBy(decided, BuiltInVain(before, decided, losers))
      + OwnedBy(before, before.Keys - final.Keys)
    ensures final.Keys == decided.Keys - losers && final == Restricted(decided, final.Keys)
    ensures Separate(final) && AllSound(final, pools)
    ensures Owned(before) + OwnedBy(decided, renewed) - retired == Owned(final)
    ensures retired <= Owned(before) + OwnedBy(decided, renewed) && OwnedBy(decided, renewed) !! Owned(before)
  {
    hide StoragesIn, Sound;
    assert final.Keys == decided.Keys - losers;
    assert BuiltInVain(before, decided, losers) == renewed - final.Keys;
    assert retired == Retired(before, decided, renewed, final.Keys);
    assert final == Restricted(decided, final.Keys);
    Conserved(before, decided, renewed, final.Keys);
  }

  lemma ChangedPrint(before: Compiled, cand: Candidate)
    requires cand.attempt.Prepared? && Possible(cand.attempt) && !Unchanged(before, cand)
    ensures cand.attempt.fingerprint != FingerprintOf(before, cand.name)
  {
  }

  lemma KeptAsChosen(before: Compiled, cand: Candidate, w: Work, w': Work)
    requires Unchanged(before, cand) && cand.name !in w.failures && cand.name !in w.stale
    requires w' == w.(decided := w.decided[cand.name := before[cand.name].(fromFile := cand.fromFile)])
    ensures OnlyAt(cand.name, w, w') && Chosen(before, cand, w'.decided)
    ensures FailedRightly(before, cand, w'.failures, w'.stale)
  {
  }

  lemma FailedAsChosen(before: Compiled, cand: Candidate, w: Work, w': Work)
    requires !cand.attempt.GroupRefused? && !Unchanged(before, cand) && !Renews(before, cand)
    requires cand.name !in w.stale
    requires cand.name in w'.failures && w'.failures[cand.name] == CompilationFailed
    requires cand.name in w'.decided <==> cand.name in before && before[cand.name].fromFile == cand.fromFile
    requires cand.name in w'.decided ==> w'.decided[cand.name] == before[cand.name] && cand.name in w'.stale
    requires cand.name !in w'.decided ==> w'.stale == w.stale
    ensures Chosen(before, cand, w'.decided) && FailedRightly(before, cand, w'.failures, w'.stale)
  {
  }

  lemma NewAsChosen(before: Compiled, cand: Candidate, w: Work, w': Work, next: nat, pool: nat, readPool: nat)
    requires Compiles(cand.attempt) && !Unchanged(before, cand) && !Clash(cand.attempt.shapes)
    requires cand.name !in w.decided && cand.name !in w.failures && cand.name !in w.stale
    requires w'.failures == w.failures && w'.stale == w.stale
    requires var attempt := cand.attempt;
      w'.decided == w.decided[cand.name := Compilation(attempt.fingerprint,
        Built(attempt.shapes, next, attempt.poolKey, pool, attempt.readPoolKey, readPool), cand.fromFile)]
    ensures OnlyAt(cand.name, w, w') && Chosen(before, cand, w'.decided)
    ensures FailedRightly(before, cand, w'.failures, w'.stale)
  {
  }

  lemma OwnedByName(compiled: Compiled, n: string)
    ensures OwnedBy(compiled, {n}) == if n in compiled then StoragesIn(compiled[n].resources) else {}
  {
  }

  lemma StillInProgress(before: Compiled, pools: map<string, nat>, next: nat, decided: Compiled,
                        renewed: set<string>, retired: set<nat>, next': nat)
    requires InProgress(before, pools, next, decided, renewed, retired) && next <= next'
    ensures InProgress(before, pools, next', decided, renewed, retired)
  {
  }

  lemma StoragesPrefix(resources: seq<Resource>, i: nat)
    requires i < |resources|
    ensures StoragesIn(resources[..i + 1]) == StoragesIn(resources[..i]) + StoragesOf(resources[i])
    ensures StoragesIn(resources[..i + 1]) <= StoragesIn(resources)
  {
  }
}
