/** The connection pools, one to a data source, that projections reaching the same database share. */
module Pools {
  import opened Results

  /** What is left of `pools` under the keys in `keep`. */
  function Retained(pools: map<string, nat>, keep: set<string>): map<string, nat> {
    map k | k in pools && k in keep :: pools[k]
  }

  function PoolsUnder(pools: map<string, nat>, keys: set<string>): set<nat> {
    set k | k in pools && k in keys :: pools[k]
  }

  /** `PoolCache`; a pool is named by the order in which it was opened. */
  class PoolCache {
    var pools: map<string, nat>
    var next: nat
    ghost var closed: set<nat>

    /** A cached pool is open, and cached under one key only. */
    ghost predicate Valid()
      reads this
    {
      && (forall k :: k in pools ==> pools[k] < next && pools[k] !in closed)
      && (forall j, k :: j in pools && k in pools && pools[j] == pools[k] ==> j == k)
      && (forall p :: p in closed ==> p < next)
    }

    constructor ()
      ensures Valid() && pools == map[] && closed == {}
    {
      pools, next, closed := map[], 0, {};
    }

    /** The pool of a key, opened when there is none and `opens` says that can be done. */
    method Get(key: string, opens: bool) returns (r: Option<nat>)
      requires Valid()
      modifies this
      ensures Valid() && closed == old(closed)
      ensures r.Some? <==> key in old(pools) || opens
      ensures r.None? ==> pools == old(pools)
      ensures r.Some? ==> pools == old(pools)[key := r.value] && (key in old(pools) ==> r.value == old(pools)[key])
    {
      if key in pools { return Some(pools[key]); }
      if !opens { return None; }
      r := Some(next);
      pools, next := pools[key := next], next + 1;
    }

    /** A pool for a check: a cached one is shared, another is the caller's alone and the cache never holds it. */
    method Borrow(key: string, opens: bool) returns (r: Option<nat>, private: bool)
      requires Valid()
      modifies this
      ensures Valid() && closed == old(closed) && pools == old(pools)
      ensures r.Some? <==> key in old(pools) || opens
      ensures r.Some? && !private ==> key in pools && r.value == pools[key]
      ensures r.Some? && private ==> r.value !in pools.Values && r.value < next && r.value !in closed
      ensures private <==> r.Some? && key !in pools
    {
      if key in pools { return Some(pools[key]), false; }
      if !opens { return None, false; }
      r, private := Some(next), true;
      next := next + 1;
    }

    /** Gives a borrowed pool back: closed when it is the caller's, and otherwise nothing happens. */
    method Release(pool: nat, private: bool)
      requires Valid() && pool < next && (private ==> pool !in pools.Values)
      modifies this
      ensures Valid() && pools == old(pools)
      ensures closed == old(closed) + (if private then {pool} else {})
    {
      if private { closed := closed + {pool}; }
    }

    /** Drops the pool a check found closed, unless the key holds another by now: then nothing is taken away. */
    method EvictIf(key: string, pool: nat) returns (evicted: bool)
      requires Valid()
      modifies this
      ensures Valid()
      ensures evicted <==> key in old(pools) && old(pools)[key] == pool
      ensures evicted ==> pools == old(pools) - {key} && closed == old(closed) + {pool}
      ensures !evicted ==> pools == old(pools) && closed == old(closed)
      ensures pool in old(closed) ==> !evicted
    {
      if key !in pools || pools[key] != pool { return false; }
      closed := closed + {pool};
      pools := pools - {key};
      return true;
    }

    /** Closes and forgets the pool of a key. */
    method Evict(key: string)
      requires Valid()
      modifies this
      ensures Valid() && pools == old(pools) - {key}
      ensures closed == old(closed) + PoolsUnder(old(pools), {key})
    {
      if key in pools {
        closed := closed + {pools[key]};
        pools := pools - {key};
      }
    }

    /** Closes every pool whose key is not in `keep`, and no other. */
    method RetainOnly(keep: set<string>) returns (evicted: nat)
      requires Valid()
      modifies this
      ensures Valid() && pools == Retained(old(pools), keep)
      ensures evicted == |old(pools).Keys - keep|
      ensures closed == old(closed) + PoolsUnder(old(pools), old(pools).Keys - keep)
    {
      hide *;
      ghost var before, closed0 := pools, closed;
      var unwanted := pools.Keys - keep;
      evicted := 0;
      NothingDropped(before, keep, closed0);
      while unwanted != {}
        invariant Valid() && Dropping(before, keep, unwanted, pools, closed0, closed, evicted)
        decreases |unwanted|
      {
        var k :| k in unwanted;
        OneDropped(before, keep, unwanted, pools, closed0, closed, evicted, k);
        Evict(k);
        unwanted := unwanted - {k};
        evicted := evicted + 1;
      }
      AllDropped(before, keep, pools, closed0, closed, evicted);
    }
  }

  /** What has been closed when `unwanted` are the keys still to go. */
  ghost predicate Dropping(before: map<string, nat>, keep: set<string>, unwanted: set<string>, pools: map<string, nat>,
                           closed0: set<nat>, closed: set<nat>, evicted: nat) {
    var dropped := before.Keys - keep - unwanted;
    && unwanted <= before.Keys - keep
    && pools == before - dropped && closed == closed0 + PoolsUnder(before, dropped) && evicted == |dropped|
  }

  lemma NothingDropped(before: map<string, nat>, keep: set<string>, closed0: set<nat>)
    ensures Dropping(before, keep, before.Keys - keep, before, closed0, closed0, 0)
  {
  }

  lemma OneDropped(before: map<string, nat>, keep: set<string>, unwanted: set<string>, pools: map<string, nat>,
                   closed0: set<nat>, closed: set<nat>, evicted: nat, k: string)
    requires Dropping(before, keep, unwanted, pools, closed0, closed, evicted) && k in unwanted
    ensures Dropping(before, keep, unwanted - {k}, pools - {k}, closed0, closed + PoolsUnder(pools, {k}), evicted + 1)
  {
  }

  lemma AllDropped(before: map<string, nat>, keep: set<string>, pools: map<string, nat>,
                   closed0: set<nat>, closed: set<nat>, evicted: nat)
    requires Dropping(before, keep, {}, pools, closed0, closed, evicted)
    ensures pools == Retained(before, keep) && evicted == |before.Keys - keep|
    ensures closed == closed0 + PoolsUnder(before, before.Keys - keep)
  {
  }
}
