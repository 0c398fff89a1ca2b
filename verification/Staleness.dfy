/**
 How long a write may be missed through another version: a clock on the runs of `Versions`.

 An entry expires its time to live after it is stored, and an expired one answers nobody. What a cached answer misses
 was written no longer ago than that, and the time that the read which stored the entry took.
 */
module Staleness {
  import opened Coherence
  import opened Epochs
  import opened Flights
  import opened ReadCache
  import opened Results
  import opened Versions

  /** The entry of version `v` under `k` is the same in both states. */
  ghost predicate SameEntry(s: Shared, s': Shared, v: string, k: Key)
    requires v in s'.caches && k in s'.caches[v].entries
  {
    v in s.caches && k in s.caches[v].entries && s.caches[v].entries[k] == s'.caches[v].entries[k]
  }

  /** An entry's time is read before its store takes the lock, so it expires no later than `ttl` from then. */
  ghost predicate StoresFor(s: Shared, s': Shared, now: int, ttl: int) {
    forall v, k :: v in s'.caches && k in s'.caches[v].entries && !SameEntry(s, s', v, k) ==>
      s'.caches[v].entries[k].expires <= now + ttl
  }

  /** Reader `r` is answered from its cache. */
  ghost predicate IsHit(s: Shared, s': Shared, r: nat, rows: nat) {
    && r < |s.readers| && r < |s'.readers|
    && s.readers[r].reader.progress == Begun && s'.readers[r].reader.progress == Answered(rows, true)
  }

  predicate HasLive(s: Shared, v: string, k: Key, now: int) {
    v in s.caches && k in s.caches[v].entries && !Expired(s.caches[v].entries[k], now)
  }

  ghost predicate HitsLive(s: Shared, s': Shared, now: int) {
    forall r: nat, rows: nat :: IsHit(s, s', r, rows) ==>
      HasLive(s, s.readers[r].version, s.readers[r].reader.cacheKey, now)
  }

  ghost predicate Ticks(s: Shared, s': Shared, now: int, ttl: int) {
    StoresFor(s, s', now, ttl) && HitsLive(s, s', now)
  }

  /** A run with the time of each of its steps. */
  ghost predicate IsTimedRun(run: seq<Shared>, times: seq<int>, ttl: int) {
    && IsVersionedRun(run) && |times| == |run| - 1
    && (forall i, j :: 0 <= i <= j < |times| ==> times[i] <= times[j])
    && (forall i :: 0 <= i < |times| ==> Ticks(run[i], run[i + 1], times[i], ttl))
  }

  // Where an entry comes from.

  /** A reader that holds rows and puts them under `k`. */
  ghost predicate Storing(s: State, k: Key, r: nat, rows: nat) {
    && r < |s.readers| && s.readers[r].cacheKey == k
    && s.readers[r].progress.Holding? && s.readers[r].progress.rows == rows
  }

  ghost predicate FromReader(s: State, k: Key, rows: nat) {
    exists r :: Storing(s, k, r, rows)
  }

  /** Only a store puts an entry into a cache. */
  lemma ReaderStepStores(s: State, s': State, k: Key)
    requires ReaderStep(s, s') && k in s'.entries && !(k in s.entries && s.entries[k] == s'.entries[k])
    ensures FromReader(s, k, s'.entries[k].rows)
  {
    hide OverNow, DetachedNow, Stale;
    assert s'.entries != s.entries;
    var r, since, rows, kept, e :| Store(s, s', r, since, rows, kept, e);
    assert Storing(s, k, r, rows);
  }

  lemma OwnNextStores(s: State, s': State, k: Key)
    requires OwnNext(s, s') && k in s'.entries && !(k in s.entries && s.entries[k] == s'.entries[k])
    ensures FromReader(s, k, s'.entries[k].rows)
  {
    hide ReaderStep, FromReader, Invalidated, Detached, Finished;
    if ReaderStep(s, s') { ReaderStepStores(s, s', k); }
  }

  /** Reader `q` of version `v` puts entry `e` under `k` between two states. */
  ghost predicate Puts(s: Shared, s': Shared, v: string, k: Key, e: Entry<nat>, q: nat) {
    && v in s.caches && q < |s.readers| && s.readers[q].version == v && Storing(View(s, v), k, q, e.rows)
    && v in s'.caches && k in s'.caches[v].entries && s'.caches[v].entries[k] == e
  }

  ghost predicate StoredBy(run: seq<Shared>, times: seq<int>, ttl: int, v: string, k: Key, e: Entry<nat>, st: nat,
                           q: nat)
    requires |run| == |times| + 1
  {
    st < |times| && Puts(run[st], run[st + 1], v, k, e, q) && e.expires <= times[st] + ttl
  }

  /** Every entry was stored by a reader of its version. */
  lemma {:induction false} EntryStored(run: seq<Shared>, times: seq<int>, ttl: int, i: nat, v: string, k: Key)
    returns (st: nat, q: nat)
    requires IsTimedRun(run, times, ttl) && i < |run| && v in run[i].caches && k in run[i].caches[v].entries
    ensures st < i && StoredBy(run, times, ttl, v, k, run[i].caches[v].entries[k], st, q)
  {
    hide OwnNext, View, HitsLive;
    if i == 0 {
      assert false;
    }
    var s, s' := run[i - 1], run[i];
    assert Moves(s, s') && Ticks(s, s', times[i - 1], ttl);
    if SameEntry(s, s', v, k) {
      st, q := EntryStored(run, times, ttl, i - 1, v, k);
    } else {
      q := NewEntryStored(s, s', v, k);
      st := i - 1;
    }
  }

  lemma NewEntryStored(s: Shared, s': Shared, v: string, k: Key) returns (q: nat)
    requires Moves(s, s') && v in s'.caches && k in s'.caches[v].entries && !SameEntry(s, s', v, k)
    ensures Puts(s, s', v, k, s'.caches[v].entries[k], q)
  {
    hide OwnNext;
    var u :| Acts(s, s', u);
    assert u == v;
    OwnNextStores(View(s, v), View(s', v), k);
    q :| Storing(View(s, v), k, q, s'.caches[v].entries[k].rows);
  }

  // What a hit finds.

  lemma ReaderStepHits(s: State, s': State, r: nat, rows: nat)
    requires ReaderStep(s, s') && r < |s.readers| && r < |s'.readers|
    requires s.readers[r].progress == Begun && s'.readers[r].progress == Answered(rows, true)
    ensures s.readers[r].cacheKey in s.entries && s.entries[s.readers[r].cacheKey].rows == rows
  {
    hide OverNow, DetachedNow, Stale, PartOf;
  }

  lemma OwnNextHits(s: State, s': State, r: nat, rows: nat)
    requires OwnNext(s, s') && r < |s.readers| && r < |s'.readers|
    requires s.readers[r].progress == Begun && s'.readers[r].progress == Answered(rows, true)
    ensures s.readers[r].cacheKey in s.entries && s.entries[s.readers[r].cacheKey].rows == rows
  {
    hide ReaderStep, Invalidated, Uncovered, Detached, Finished, PartOf;
    assert s'.readers != s.readers;
    ReaderStepHits(s, s', r, rows);
  }

  lemma HitFinds(s: Shared, s': Shared, r: nat, rows: nat)
    requires Moves(s, s') && IsHit(s, s', r, rows)
    ensures var v, k := s.readers[r].version, s.readers[r].reader.cacheKey;
      v in s.caches && k in s.caches[v].entries && s.caches[v].entries[k].rows == rows
  {
    hide OwnNext;
    var u :| Acts(s, s', u);
    assert s.readers[r].version == u;
    assert View(s, u).readers[r] == s.readers[r].reader && View(s', u).readers[r] == s'.readers[r].reader;
    OwnNextHits(View(s, u), View(s', u), r, rows);
  }

  // When it began.

  lemma {:induction false} Beginning(run: seq<Shared>, i: nat, q: nat) returns (c: nat)
    requires IsVersionedRun(run) && i < |run| && q < |run[i].readers|
    ensures c < i && Begins(run[c], run[c + 1], q) && SameBeginning(run[i].readers[q], run[c + 1].readers[q])
  {
    hide OwnNext, Acts;
    if i == 0 { assert false; }
    assert Moves(run[i - 1], run[i]);
    if q < |run[i - 1].readers| {
      c := Beginning(run, i - 1, q);
      ActKeepsReader(run[i - 1], run[i], q);
    } else {
      OneAtATime(run[i - 1], run[i]);
      c := i - 1;
    }
  }

  lemma OneAtATime(s: Shared, s': Shared)
    requires Moves(s, s')
    ensures |s.readers| <= |s'.readers| <= |s.readers| + 1
  {
    hide OwnNext, OverNow, DetachedNow;
    var v :| Acts(s, s', v);
    ReadersPersist(View(s, v), View(s', v));
  }

  lemma OverStays(s: State, s': State, w: nat)
    requires OwnNext(s, s') && Over(s, w)
    ensures Over(s', w)
  {
    hide ReaderStep, Invalidated, Uncovered, Detached, Finished, PartOf;
    if ReaderStep(s, s') { ReaderStepEffects(s, s'); }
  }

  lemma ActKeepsOver(s: Shared, s': Shared, w: nat)
    requires Moves(s, s') && IsOver(s, w)
    ensures IsOver(s', w)
  {
    hide OwnNext;
    var v :| Acts(s, s', v);
    if s.writes[w].version == v {
      assert Over(View(s, v), w);
      OverStays(View(s, v), View(s', v), w);
      assert Over(View(s', v), w);
    }
  }

  lemma {:induction false} StaysOver(run: seq<Shared>, j: nat, i: nat, w: nat)
    requires IsVersionedRun(run) && j <= i < |run| && IsOver(run[j], w)
    ensures IsOver(run[i], w)
  {
    hide Moves;
    if j < i {
      StaysOver(run, j, i - 1, w);
      assert Moves(run[i - 1], run[i]);
      ActKeepsOver(run[i - 1], run[i], w);
    }
  }

  // The bound.

  /** Rows that a reader holds without a write were asked for before the write had detached. */
  lemma HolderMissed(run: seq<Shared>, st: nat, q: nat, v: string, k: Key, e: Entry<nat>, w: nat)
    requires IsVersionedRun(run) && st + 1 < |run| && Puts(run[st], run[st + 1], v, k, e, q) && e.rows <= w
    requires w < |run[st].writes| ==> Touches(run[st].writes[w].namespace, k.namespace)
    ensures w !in run[st].readers[q].reader.detached
  {
    hide Moves, After, Invalidations, CacheCurrent, FlightsCurrent, CurrentAsOf, BeganBy;
    VersionsServed(run, st);
    EveryViewKeeps(run, st, v);
    var s := View(run[st], v);
    assert s.readers[q] == run[st].readers[q].reader && ReaderCurrent(s, s.readers[q]);
    assert HasEarlier(s, s.readers[q], e.rows);
  }

  /** Step `o` or an earlier one ended the write. */
  ghost predicate OverBy(run: seq<Shared>, o: nat, w: nat) {
    o + 1 < |run| && IsOver(run[o + 1], w)
  }

  /** A reader that did not know of a write began before it was over. */
  lemma BeganBefore(run: seq<Shared>, c: nat, q: nat, w: nat, o: nat)
    requires IsVersionedRun(run) && c + 1 < |run| && Begins(run[c], run[c + 1], q)
    requires w !in run[c + 1].readers[q].reader.detached && OverBy(run, o, w)
    ensures c <= o
  {
    hide Moves;
    if o < c {
      StaysOver(run, o + 1, c, w);
      assert Moves(run[c], run[c + 1]);
      ActBeginsReader(run[c], run[c + 1], q, w);
    }
  }

  /**
   A cached answer that misses a write: the entry was stored, by a read `q` of the same version and key that began
   before the write was over, no longer than `ttl` ago. So nothing misses a write for longer, after it is over, than
   `ttl` and the time that one read took.
   */
  lemma MissedNoLonger(run: seq<Shared>, times: seq<int>, ttl: int, h: nat, r: nat, rows: nat, w: nat)
    returns (q: nat, c: nat, st: nat)
    requires IsTimedRun(run, times, ttl) && h < |times| && IsHit(run[h], run[h + 1], r, rows)
    requires rows <= w < |run[h].writes|
    requires Touches(run[h].writes[w].namespace, run[h].readers[r].reader.Namespace())
    ensures c < st < h && Begins(run[c], run[c + 1], q)
    ensures var hit := run[h].readers[r];
      exists e :: Puts(run[st], run[st + 1], hit.version, hit.reader.cacheKey, e, q) && e.rows == rows
    ensures times[h] <= times[st] + ttl
    ensures forall o: nat :: OverBy(run, o, w) ==> c <= o && times[h] <= times[o] + ttl + (times[st] - times[c])
  {
    hide Moves, Puts, IsVersionedRun, StoresFor;
    var v, k := run[h].readers[r].version, run[h].readers[r].reader.cacheKey;
    assert Moves(run[h], run[h + 1]) by { Steps(run, h); }
    HitFinds(run[h], run[h + 1], r, rows);
    assert Ticks(run[h], run[h + 1], times[h], ttl);
    assert HasLive(run[h], v, k, times[h]);
    var e := run[h].caches[v].entries[k];
    st, q := EntryStored(run, times, ttl, h, v, k);
    assert q < |run[st].readers| by { PutBy(run[st], run[st + 1], v, k, e, q); }
    if w < |run[st].writes| { WriteStays(run, st, h, w); }
    HolderMissed(run, st, q, v, k, e, w);
    c := Beginning(run, st, q);
    forall o: nat | OverBy(run, o, w) ensures c <= o && times[h] <= times[o] + ttl + (times[st] - times[c]) {
      BeganBefore(run, c, q, w, o);
      assert times[c] <= times[o];
    }
  }

  lemma Steps(run: seq<Shared>, i: nat)
    requires IsVersionedRun(run) && i + 1 < |run|
    ensures Moves(run[i], run[i + 1])
  {
  }

  lemma PutBy(s: Shared, s': Shared, v: string, k: Key, e: Entry<nat>, q: nat)
    requires Puts(s, s', v, k, e, q)
    ensures q < |s.readers|
  {
  }
}
