/**
 The read cache: entries that expire, are evicted oldest first when the cache is full, and are dropped by
 the invalidations that cover them. Time is a parameter.
 */
module ReadCache {
  import opened Epochs
  import opened Results

  const MAX_ENTRIES := 1024
  const EVICTION_BATCH := MAX_ENTRIES / 4

  /** A cached read: the namespace it describes, empty when it spans them all, and its rows. */
  datatype Entry<R> = Entry(namespace: string, rows: R, expires: int)

  predicate Expired<R>(entry: Entry<R>, now: int) {
    now > entry.expires
  }

  function Live<K, R>(entries: map<K, Entry<R>>, now: int): map<K, Entry<R>> {
    map k | k in entries && !Expired(entries[k], now) :: entries[k]
  }

  /** What is left after an invalidation. */
  function Uncovered<K, R>(entries: map<K, Entry<R>>, namespaces: seq<string>): map<K, Entry<R>> {
    map k | k in entries && !Covers(namespaces, entries[k].namespace) :: entries[k]
  }

  ghost predicate PartOf<K, R>(part: map<K, Entry<R>>, whole: map<K, Entry<R>>) {
    part.Keys <= whole.Keys && forall k :: k in part ==> part[k] == whole[k]
  }

  /** `kept` is what eviction may leave: live entries only, and of those the longest-lived. */
  ghost predicate EvictedTo<K, R>(entries: map<K, Entry<R>>, now: int, kept: map<K, Entry<R>>) {
    var live := Live(entries, now);
    if |live| < MAX_ENTRIES then kept == live
    else
      && PartOf(kept, live)
      && |kept| == |live| - EVICTION_BATCH
      && forall dropped, k :: dropped in live && dropped !in kept && k in kept ==>
           live[dropped].expires <= kept[k].expires
  }

  /** The keys, soonest to expire first. */
  method OldestFirst<K, R>(entries: map<K, Entry<R>>) returns (order: seq<K>)
    ensures |order| == |entries| && forall k :: k in order <==> k in entries
    ensures forall i, j :: 0 <= i < j < |order| ==> order[i] != order[j]
    ensures forall i, j :: 0 <= i < j < |order| ==> entries[order[i]].expires <= entries[order[j]].expires
  {
    order := [];
    var rest := entries.Keys;
    while rest != {}
      invariant rest <= entries.Keys && |order| + |rest| == |entries.Keys|
      invariant forall k :: k in entries.Keys <==> k in rest || k in order
      invariant forall k :: k in order ==> k !in rest
      invariant forall i, j :: 0 <= i < j < |order| ==> order[i] != order[j]
      invariant forall i, j :: 0 <= i < j < |order| ==> entries[order[i]].expires <= entries[order[j]].expires
      invariant forall i, k :: 0 <= i < |order| && k in rest ==> entries[order[i]].expires <= entries[k].expires
      decreases |rest|
    {
      var oldest := Oldest(entries, rest);
      order := order + [oldest];
      rest := rest - {oldest};
    }
    assert |entries.Keys| == |entries|;
  }

  method Oldest<K, R>(entries: map<K, Entry<R>>, keys: set<K>) returns (oldest: K)
    requires keys != {} && keys <= entries.Keys
    ensures oldest in keys && forall k :: k in keys ==> entries[oldest].expires <= entries[k].expires
  {
    oldest :| oldest in keys;
    var rest := keys - {oldest};
    while rest != {}
      invariant rest <= keys && oldest in keys
      invariant forall k :: k in keys && k !in rest ==> entries[oldest].expires <= entries[k].expires
      decreases |rest|
    {
      var k :| k in rest;
      if entries[k].expires < entries[oldest].expires { oldest := k; }
      rest := rest - {k};
    }
  }

  class ReadCache<K(==), R> {
    var entries: map<K, Entry<R>>
    var generation: nat
    var invalidatedAt: map<string, nat>
    var allInvalidatedAt: nat

    /** Every invalidation so far, which the three epoch fields stand for. */
    ghost var history: seq<seq<string>>

    ghost function Record(): Epochs
      reads this
    {
      Epochs(generation, invalidatedAt, allInvalidatedAt)
    }

    ghost predicate Valid()
      reads this
    {
      |entries| <= MAX_ENTRIES && Invalidations(history) && Record() == After(history)
    }

    constructor ()
      ensures Valid() && entries == map[] && history == []
    {
      entries, generation, invalidatedAt, allInvalidatedAt := map[], 0, map[], 0;
      history := [];
    }

    method Epoch() returns (since: nat)
      requires Valid()
      ensures since == |history|
    {
      GenerationCounts(history);
      since := generation;
    }

    /** `staleLocked`: an invalidation after `since` covers the namespace. */
    method IsStale(namespace: string, since: nat) returns (stale: bool)
      requires Valid()
      ensures stale <==> CoveredSince(history, namespace, since)
    {
      EpochsExact(history, namespace, since);
      if namespace == "" {
        stale := generation > since;
      } else {
        var last := if namespace in invalidatedAt then invalidatedAt[namespace] else 0;
        stale := allInvalidatedAt > since || last > since;
      }
    }

    method Lookup(key: K, now: int) returns (found: Option<Entry<R>>)
      requires Valid()
      modifies this`entries
      ensures Valid()
      ensures found.Some? <==> key in old(entries) && !Expired(old(entries)[key], now)
      ensures found.Some? ==> found.value == old(entries)[key] && entries == old(entries)
      ensures found.None? ==> entries == old(entries) - {key}
    {
      if key !in entries {
        assert entries == entries - {key};
        return None;
      }
      if Expired(entries[key], now) {
        CountWithout(entries, key);
        entries := entries - {key};
        return None;
      }
      return Some(entries[key]);
    }

    /** Nothing is stored once an invalidation after `since` covers it; a full cache makes room first. */
    method Store(key: K, entry: Entry<R>, since: nat, now: int)
      requires Valid()
      modifies this`entries
      ensures Valid()
      ensures CoveredSince(history, entry.namespace, since) ==> entries == old(entries)
      ensures !CoveredSince(history, entry.namespace, since) ==>
        && key in entries && entries[key] == entry
        && (|old(entries)| < MAX_ENTRIES ==> entries == old(entries)[key := entry])
        && (|old(entries)| == MAX_ENTRIES ==>
              exists kept :: EvictedTo(old(entries), now, kept) && entries == kept[key := entry])
    {
      var stale := IsStale(entry.namespace, since);
      if stale { return; }
      if |entries| >= MAX_ENTRIES { Evict(now); }
      CountWith(entries, key, entry);
      entries := entries[key := entry];
    }

    /** `evictLocked`: expired entries go first, then, if that is not enough, a batch of the oldest. */
    method Evict(now: int)
      requires Valid()
      modifies this`entries
      ensures Valid() && |entries| < MAX_ENTRIES
      ensures EvictedTo(old(entries), now, entries)
    {
      DropExpired(now);
      PartIsSmaller(entries, old(entries));
      if |entries| >= MAX_ENTRIES { DropOldest(); }
    }

    method DropExpired(now: int)
      modifies this`entries
      ensures entries == Live(old(entries), now)
    {
      ghost var before := entries;
      var rest := entries.Keys;
      while rest != {}
        invariant rest <= before.Keys && rest <= entries.Keys
        invariant forall k :: k in entries <==> k in before && (k in rest || !Expired(before[k], now))
        invariant forall k :: k in entries ==> entries[k] == before[k]
        decreases |rest|
      {
        var k :| k in rest;
        if Expired(entries[k], now) { entries := entries - {k}; }
        rest := rest - {k};
      }
    }

    method DropOldest()
      requires |entries| >= EVICTION_BATCH
      modifies this`entries
      ensures PartOf(entries, old(entries)) && |entries| == |old(entries)| - EVICTION_BATCH
      ensures forall dropped, k :: dropped in old(entries) && dropped !in entries && k in entries ==>
                old(entries)[dropped].expires <= entries[k].expires
    {
      var order := OldestFirst(entries);
      var drop := if EVICTION_BATCH < |order| then EVICTION_BATCH else |order|;
      SortedSplit(entries, order, drop);
      DropKeys(order[..drop]);
    }

    method DropKeys(keys: seq<K>)
      requires forall i :: 0 <= i < |keys| ==> keys[i] in entries
      requires forall i, j :: 0 <= i < j < |keys| ==> keys[i] != keys[j]
      modifies this`entries
      ensures PartOf(entries, old(entries)) && |entries| == |old(entries)| - |keys|
      ensures forall k :: k in old(entries) ==> (k in entries <==> k !in keys)
    {
      for i := 0 to |keys|
        invariant PartOf(entries, old(entries)) && |entries| == |old(entries)| - i
        invariant forall k :: k in old(entries) ==> (k in entries <==> k !in keys[..i])
      {
        assert keys[i] !in keys[..i];
        assert keys[..i + 1] == keys[..i] + [keys[i]];
        CountWithout(entries, keys[i]);
        entries := entries - {keys[i]};
      }
      assert keys[..|keys|] == keys;
    }

    method InvalidateNamespaces(namespaces: seq<string>)
      requires Valid()
      modifies this
      ensures Valid()
      ensures namespaces == [] ==> history == old(history) && entries == old(entries)
      ensures namespaces != [] ==> history == old(history) + [namespaces]
      ensures namespaces != [] ==> entries == Uncovered(old(entries), namespaces)
    {
      if namespaces == [] { return; }
      RecordInvalidation(namespaces);
      if "" in namespaces {
        assert Uncovered(entries, namespaces) == map[];
        entries := map[];
      } else {
        DropCovered(namespaces);
      }
      PartIsSmaller(entries, old(entries));
    }

    /** Recorded before anything is dropped. */
    method RecordInvalidation(namespaces: seq<string>)
      requires Valid() && namespaces != []
      modifies this`generation, this`invalidatedAt, this`allInvalidatedAt, this`history
      ensures history == old(history) + [namespaces] && Valid()
    {
      hide After;
      AfterOneMore(history, namespaces);
      history := history + [namespaces];
      generation := generation + 1;
      if "" in namespaces {
        allInvalidatedAt := generation;
        invalidatedAt := map[];
      } else {
        MarkNamespaces(namespaces);
      }
    }

    method MarkNamespaces(namespaces: seq<string>)
      modifies this`invalidatedAt
      ensures invalidatedAt == old(invalidatedAt) + map n | n in namespaces :: generation
    {
      for i := 0 to |namespaces|
        invariant invalidatedAt == old(invalidatedAt) + map n | n in namespaces[..i] :: generation
      {
        assert namespaces[..i + 1] == namespaces[..i] + [namespaces[i]];
        invalidatedAt := invalidatedAt[namespaces[i] := generation];
      }
      assert namespaces[..|namespaces|] == namespaces;
    }

    method DropCovered(namespaces: seq<string>)
      requires "" !in namespaces
      modifies this`entries
      ensures entries == Uncovered(old(entries), namespaces)
    {
      ghost var before := entries;
      var rest := entries.Keys;
      while rest != {}
        invariant rest <= before.Keys && rest <= entries.Keys
        invariant forall k :: k in entries <==>
                    k in before && (k in rest || !Covers(namespaces, before[k].namespace))
        invariant forall k :: k in entries ==> entries[k] == before[k]
        decreases |rest|
      {
        var k :| k in rest;
        if entries[k].namespace == "" || entries[k].namespace in namespaces { entries := entries - {k}; }
        rest := rest - {k};
      }
    }
  }

  lemma CountWithout<K, R>(m: map<K, Entry<R>>, key: K)
    requires key in m
    ensures |m - {key}| == |m| - 1
  {
  }

  lemma CountWith<K, R>(m: map<K, Entry<R>>, key: K, entry: Entry<R>)
    ensures |m[key := entry]| == if key in m then |m| else |m| + 1
  {
  }

  lemma PartIsSmaller<K, R>(part: map<K, Entry<R>>, whole: map<K, Entry<R>>)
    requires part.Keys <= whole.Keys
    ensures |part| <= |whole|
  {
    SubsetCounts(part.Keys, whole.Keys);
  }

  lemma {:induction false} SubsetCounts<K>(a: set<K>, b: set<K>)
    requires a <= b
    ensures |a| <= |b|
  {
    if a != {} {
      var x :| x in a;
      SubsetCounts(a - {x}, b - {x});
    }
  }

  lemma AfterOneMore(history: seq<seq<string>>, namespaces: seq<string>)
    ensures After(history + [namespaces]) == Invalidated(After(history), namespaces)
  {
  }

  /** In sorted order, nothing in the first part expires later than anything in the rest. */
  lemma SortedSplit<K, R>(entries: map<K, Entry<R>>, order: seq<K>, drop: nat)
    requires drop <= |order| && forall k :: k in order <==> k in entries
    requires forall i, j :: 0 <= i < j < |order| ==> entries[order[i]].expires <= entries[order[j]].expires
    ensures forall k :: k in entries ==> k in order[..drop] || k in order[drop..]
    ensures forall x, y :: x in order[..drop] && y in order[drop..] ==> entries[x].expires <= entries[y].expires
  {
  }
}
