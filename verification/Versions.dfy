/**
 A projection served at several versions: one table of flights for all of them, and a read cache for each.

 A write detaches the flights of every version and invalidates the cache of its own. What a version sees of the whole
 is a state of `Coherence`, in which the writes of the others detach and never invalidate.
 */
module Versions {
  import opened Coherence
  import opened Epochs
  import opened Flights
  import opened ReadCache
  import opened Results

  datatype Cache = Cache(epochs: Epochs, history: seq<seq<string>>, entries: map<Key, Entry<nat>>)

  const EMPTY := Cache(FRESH, [], map[])

  datatype VersionWrite = VersionWrite(version: string, namespace: string, stage: Stage)

  datatype VersionReader = VersionReader(version: string, reader: Reader)

  datatype Shared = Shared(
    writes: seq<VersionWrite>,
    caches: map<string, Cache>,
    inflight: map<Key, Slot>,
    flights: seq<Flight>,
    readers: seq<VersionReader>
  )

  /** To another version a write has detached, and no more. */
  function SeenStage(stage: Stage, own: bool): Stage {
    if stage.Done? && !own then Detaching else stage
  }

  const STRANGER := Reader(Key("", ""), Key("", ""), {}, {}, Gone)

  function SeenWrites(writes: seq<VersionWrite>, v: string): (r: seq<Write>)
    ensures |r| == |writes|
    ensures forall w :: 0 <= w < |r| ==>
              r[w] == Write(writes[w].namespace, SeenStage(writes[w].stage, writes[w].version == v))
  {
    seq(|writes|,
        w requires 0 <= w < |writes| => Write(writes[w].namespace, SeenStage(writes[w].stage, writes[w].version == v)))
  }

  function SeenReaders(readers: seq<VersionReader>, v: string): (r: seq<Reader>)
    ensures |r| == |readers|
    ensures forall i :: 0 <= i < |r| ==> r[i] == if readers[i].version == v then readers[i].reader else STRANGER
  {
    seq(|readers|, i requires 0 <= i < |readers| => if readers[i].version == v then readers[i].reader else STRANGER)
  }

  /** What version `v` sees. */
  function View(s: Shared, v: string): State
    requires v in s.caches
  {
    var cache := s.caches[v];
    State(SeenWrites(s.writes, v), cache.epochs, cache.history, cache.entries, s.inflight, s.flights,
        SeenReaders(s.readers, v))
  }

  /** Version `v` leaves alone what belongs to the others. */
  ghost predicate Framed(s: Shared, s': Shared, v: string) {
    && s'.caches.Keys == s.caches.Keys && (forall u :: u in s.caches && u != v ==> s'.caches[u] == s.caches[u])
    && |s.writes| <= |s'.writes| && |s.readers| <= |s'.readers|
    && (forall w :: 0 <= w < |s.writes| ==>
          s'.writes[w].version == s.writes[w].version && s'.writes[w].namespace == s.writes[w].namespace)
    && (forall w :: 0 <= w < |s.writes| && s.writes[w].version != v ==> s'.writes[w] == s.writes[w])
    && (forall w :: |s.writes| <= w < |s'.writes| ==> s'.writes[w].version == v)
    && (forall r :: 0 <= r < |s.readers| ==> s'.readers[r].version == s.readers[r].version)
    && (forall r :: 0 <= r < |s.readers| && s.readers[r].version != v ==> s'.readers[r] == s.readers[r])
    && (forall r :: |s.readers| <= r < |s'.readers| ==> s'.readers[r].version == v)
  }

  /** A step of a reader or writer of version `v`, or of a flight: a step on what `v` sees. */
  ghost predicate Acts(s: Shared, s': Shared, v: string) {
    && v in s.caches && v in s'.caches
    && OwnNext(View(s, v), View(s', v)) && Framed(s, s', v)
  }

  // What one version does, as another sees it.

  /** What `u` sees but for the flights: `v` has changed none of it. */
  lemma SameForOthers(s: Shared, s': Shared, v: string, u: string)
    requires v in s.caches && v in s'.caches && u in s.caches && u != v && Framed(s, s', v)
    ensures u in s'.caches
    ensures View(s', u).epochs == View(s, u).epochs && View(s', u).history == View(s, u).history
    ensures View(s', u).entries == View(s, u).entries
    ensures |s'.readers| == |s.readers| ==> View(s', u).readers == View(s, u).readers
    ensures |s'.readers| == |s.readers| + 1 ==> View(s', u).readers == View(s, u).readers + [STRANGER]
    ensures View(s', v).writes == View(s, v).writes ==> View(s', u).writes == View(s, u).writes
  {
    if View(s', v).writes == View(s, v).writes {
      forall w | 0 <= w < |s.writes| ensures View(s', u).writes[w] == View(s, u).writes[w] {
        assert View(s', v).writes[w] == View(s, v).writes[w];
      }
    }
  }

  /** Readers of `v` do nothing that `u` notices, but begin, or lead a flight. */
  lemma ReaderStepSeen(s: Shared, s': Shared, v: string, u: string)
    requires v in s.caches && v in s'.caches && u in s.caches && u != v && Framed(s, s', v)
    requires ReaderStep(View(s, v), View(s', v))
    ensures u in s'.caches && (View(s', u) == View(s, u) || Next(View(s, u), View(s', u)))
  {
    hide Framed, ReaderStep;
    SameForOthers(s, s', v, u);
    var a, b := View(s, v), View(s', v);
    ReaderStepEffects(a, b);
    if key :| |b.readers| == |a.readers| && Leads(a, b, key) {
      assert Elsewhere(View(s, u), View(s', u), STRANGER.cacheKey, key);
    } else if |b.readers| > |a.readers| {
      assert Elsewhere(View(s, u), View(s', u), STRANGER.cacheKey, STRANGER.flightKey);
    }
  }

  lemma CommitSeen(s: Shared, s': Shared, v: string, u: string, namespace: string)
    requires v in s.caches && v in s'.caches && u in s.caches && u != v && Framed(s, s', v)
    requires Commit(View(s, v), View(s', v), namespace)
    ensures u in s'.caches && Commit(View(s, u), View(s', u), namespace)
  {
    SameForOthers(s, s', v, u);
    var a, b := View(s, v), View(s', v);
    assert |b.writes| == |a.writes| + 1 && b.writes[|a.writes|] == Write(namespace, Committed);
    forall w | 0 <= w < |s.writes| ensures View(s', u).writes[w] == View(s, u).writes[w] {
      assert b.writes[w] == a.writes[w];
    }
  }

  lemma DetachSeen(s: Shared, s': Shared, v: string, u: string, w: nat)
    requires v in s.caches && v in s'.caches && u in s.caches && u != v && Framed(s, s', v)
    requires Detach(View(s, v), View(s', v), w)
    ensures u in s'.caches && Detach(View(s, u), View(s', u), w)
  {
    SameForOthers(s, s', v, u);
    var a, b := View(s, v), View(s', v);
    assert b.writes[w].stage == Detaching && s.writes[w].version == v;
    forall x | 0 <= x < |s.writes| && x != w ensures View(s', u).writes[x] == View(s, u).writes[x] {
      assert b.writes[x] == a.writes[x];
    }
  }

  lemma InvalidateSeen(s: Shared, s': Shared, v: string, u: string, w: nat)
    requires v in s.caches && v in s'.caches && u in s.caches && u != v && Framed(s, s', v)
    requires Invalidate(View(s, v), View(s', v), w)
    ensures u in s'.caches && View(s', u) == View(s, u)
  {
    hide Invalidated, Uncovered;
    SameForOthers(s, s', v, u);
    var a, b := View(s, v), View(s', v);
    assert b.writes[w].stage.Done? && s.writes[w].version == v;
    forall x | 0 <= x < |s.writes| ensures View(s', u).writes[x] == View(s, u).writes[x] {
      assert x != w ==> b.writes[x] == a.writes[x];
    }
  }

  /** Whatever `v` does, what `u` sees stays as it is or takes a step. */
  lemma ActSeen(s: Shared, s': Shared, v: string, u: string)
    requires Acts(s, s', v) && u in s.caches && u != v
    ensures u in s'.caches && (View(s', u) == View(s, u) || Next(View(s, u), View(s', u)))
  {
    hide Framed, ReaderStep, View, Invalidated, Uncovered;
    var a, b := View(s, v), View(s', v);
    if ReaderStep(a, b) {
      ReaderStepSeen(s, s', v, u);
    } else if f :| Run(a, b, f) || Finish(a, b, f) {
      FlightSeen(s, s', v, u, f);
    } else if n :| Commit(a, b, n) {
      CommitSeen(s, s', v, u, n);
    } else if w :| Detach(a, b, w) || Invalidate(a, b, w) {
      if Detach(a, b, w) { DetachSeen(s, s', v, u, w); } else { InvalidateSeen(s, s', v, u, w); }
    } else {
      var written, namespaces, kept :| Stray(a, b, written, namespaces, kept);
      StraySeen(s, s', v, u, written, namespaces, kept);
    }
  }

  lemma FlightSeen(s: Shared, s': Shared, v: string, u: string, f: nat)
    requires v in s.caches && v in s'.caches && u in s.caches && u != v && Framed(s, s', v)
    requires Run(View(s, v), View(s', v), f) || Finish(View(s, v), View(s', v), f)
    ensures u in s'.caches && Next(View(s, u), View(s', u))
  {
    hide Framed;
    SameForOthers(s, s', v, u);
    assert View(s', v).writes == View(s, v).writes && |View(s', v).readers| == |View(s, v).readers|;
    assert |View(s, u).writes| == |View(s, v).writes|;
    assert Run(View(s, u), View(s', u), f) || Finish(View(s, u), View(s', u), f);
  }

  lemma StraySeen(s: Shared, s': Shared, v: string, u: string, written: string, namespaces: seq<string>,
                  kept: map<Key, Entry<nat>>)
    requires v in s.caches && v in s'.caches && u in s.caches && u != v && Framed(s, s', v)
    requires Stray(View(s, v), View(s', v), written, namespaces, kept)
    ensures u in s'.caches && (View(s', u) == View(s, u) || Next(View(s, u), View(s', u)))
  {
    hide Framed, Invalidated, Uncovered, PartOf;
    SameForOthers(s, s', v, u);
    var a, b := View(s, v), View(s', v);
    assert b.writes == a.writes && |b.readers| == |a.readers|;
    if b == a.(inflight := Detached(a.inflight, written)) {
      assert Stray(View(s, u), View(s', u), written, namespaces, kept);
    }
  }

  // Runs.

  ghost predicate IsStart(s: Shared) {
    && s.writes == [] && s.inflight == map[] && s.flights == [] && s.readers == []
    && forall v :: v in s.caches ==> s.caches[v] == EMPTY
  }

  ghost predicate IsVersionedRun(run: seq<Shared>) {
    && |run| > 0 && IsStart(run[0])
    && forall i :: 0 <= i < |run| - 1 ==> Moves(run[i], run[i + 1])
  }

  ghost predicate Moves(s: Shared, s': Shared) {
    exists v :: Acts(s, s', v)
  }

  /** Every version sees a state that keeps the invariant. */
  lemma {:induction false} EveryViewKeeps(run: seq<Shared>, i: nat, v: string)
    requires IsVersionedRun(run) && i < |run| && v in run[0].caches
    ensures run[i].caches.Keys == run[0].caches.Keys && Inv(View(run[i], v))
  {
    hide Inv, OwnNext, Next;
    if i == 0 {
      FirstView(run[0], v);
    } else {
      EveryViewKeeps(run, i - 1, v);
      var u :| Acts(run[i - 1], run[i], u);
      if u == v {
        OwnNextKeeps(View(run[i - 1], v), View(run[i], v));
      } else {
        ActSeen(run[i - 1], run[i], u, v);
        if View(run[i], v) != View(run[i - 1], v) { NextKeeps(View(run[i - 1], v), View(run[i], v)); }
      }
    }
  }

  lemma FirstView(s: Shared, v: string)
    requires IsStart(s) && v in s.caches
    ensures Inv(View(s, v))
  {
    assert View(s, v) == START;
  }

  predicate IsOver(s: Shared, w: nat) {
    w < |s.writes| && s.writes[w].stage.Done?
  }

  /** The entries of `v` that the write covers have it. */
  ghost predicate EntriesHave(s: Shared, v: string, w: nat)
    requires v in s.caches && w < |s.writes|
  {
    var entries := s.caches[v].entries;
    forall k :: k in entries && Touches(s.writes[w].namespace, entries[k].namespace) ==> w < entries[k].rows
  }

  /** The flights that can be joined and that the write touches have it, or will. */
  ghost predicate FlightsHave(s: Shared, w: nat)
    requires w < |s.writes|
  {
    forall k :: k in s.inflight && Touches(s.writes[w].namespace, s.inflight[k].namespace) ==>
      && s.inflight[k].id < |s.flights|
      && (s.flights[s.inflight[k].id].rows.Some? ==> w < s.flights[s.inflight[k].id].rows.value)
  }

  /**
   Once a write through a version is over, no entry of that version's cache that covers its namespace has rows from
   before it; and no flight that a reader of any version can still join has.
   */
  lemma VersionReadAfterWrite(run: seq<Shared>, i: nat, w: nat)
    requires IsVersionedRun(run) && i < |run| && IsOver(run[i], w)
    ensures run[i].writes[w].version in run[i].caches
    ensures EntriesHave(run[i], run[i].writes[w].version, w) && FlightsHave(run[i], w)
  {
    var s, v := run[i], run[i].writes[w].version;
    VersionsServed(run, i);
    EveryViewKeeps(run, i, v);
    hide After, Invalidations, ReadersCurrent;
    assert Over(View(s, v), w) && View(s, v).writes[w].namespace == s.writes[w].namespace;
    forall k | k in s.inflight && Touches(s.writes[w].namespace, s.inflight[k].namespace)
      ensures s.inflight[k].id < |s.flights|
      ensures s.flights[s.inflight[k].id].rows.Some? ==> w < s.flights[s.inflight[k].id].rows.value
    {
      assert FlightCurrent(View(s, v), k, s.inflight[k]);
    }
  }

  /** Writers and readers are of versions that are served. */
  lemma {:induction false} VersionsServed(run: seq<Shared>, i: nat)
    requires IsVersionedRun(run) && i < |run|
    ensures run[i].caches.Keys == run[0].caches.Keys
    ensures forall w :: 0 <= w < |run[i].writes| ==> run[i].writes[w].version in run[0].caches
    ensures forall r :: 0 <= r < |run[i].readers| ==> run[i].readers[r].version in run[0].caches
  {
    hide OwnNext;
    if i > 0 {
      VersionsServed(run, i - 1);
      assert Moves(run[i - 1], run[i]);
      var u :| Acts(run[i - 1], run[i], u);
    }
  }

  /** Reader `r` begins between two states. */
  ghost predicate Begins(s: Shared, s': Shared, r: nat) {
    |s.readers| == r < |s'.readers|
  }

  /** A reader keeps its version and what it began with. */
  ghost predicate SameBeginning(a: VersionReader, b: VersionReader) {
    a.version == b.version && a.reader.(progress := Gone) == b.reader.(progress := Gone)
  }

  lemma ActKeepsReader(s: Shared, s': Shared, r: nat)
    requires Moves(s, s') && r < |s.readers|
    ensures r < |s'.readers| && SameBeginning(s'.readers[r], s.readers[r])
  {
    hide OwnNext, OverNow, DetachedNow;
    var v :| Acts(s, s', v);
    ReadersPersist(View(s, v), View(s', v));
    assert s.readers[r].version == v ==>
        View(s', v).readers[r].(progress := Gone) == View(s, v).readers[r].(progress := Gone);
  }

  /**
   A write that is over when a reader begins is one the reader knows of; through its own version, as one that is over.
   */
  lemma ActBeginsReader(s: Shared, s': Shared, r: nat, w: nat)
    requires Moves(s, s') && Begins(s, s', r) && IsOver(s, w)
    ensures w in s'.readers[r].reader.detached
    ensures s.writes[w].version == s'.readers[r].version ==> w in s'.readers[r].reader.began
  {
    hide OwnNext;
    var v :| Acts(s, s', v);
    ReadersPersist(View(s, v), View(s', v));
    assert s'.readers[r].version == v && View(s', v).readers[r] == s'.readers[r].reader;
    assert HasDetached(View(s, v), w);
    assert s.writes[w].version == v ==> Over(View(s, v), w);
  }

  /** From its beginning on, a reader stays what it was. */
  lemma {:induction false} ReaderStays(run: seq<Shared>, j: nat, i: nat, r: nat)
    requires IsVersionedRun(run) && j <= i < |run| && r < |run[j].readers|
    ensures r < |run[i].readers| && SameBeginning(run[i].readers[r], run[j].readers[r])
  {
    hide OwnNext, Acts;
    if j < i {
      ReaderStays(run, j, i - 1, r);
      assert Moves(run[i - 1], run[i]);
      ActKeepsReader(run[i - 1], run[i], r);
    }
  }

  /** From its commit on, so does a write. */
  lemma {:induction false} WriteStays(run: seq<Shared>, j: nat, i: nat, w: nat)
    requires IsVersionedRun(run) && j <= i < |run| && w < |run[j].writes|
    ensures w < |run[i].writes| && run[i].writes[w].version == run[j].writes[w].version
    ensures w < |run[i].writes| && run[i].writes[w].namespace == run[j].writes[w].namespace
  {
    hide OwnNext, Acts;
    if j < i {
      WriteStays(run, j, i - 1, w);
      assert Moves(run[i - 1], run[i]);
      ActKeepsWrite(run[i - 1], run[i], w);
    }
  }

  lemma ActKeepsWrite(s: Shared, s': Shared, w: nat)
    requires Moves(s, s') && w < |s.writes|
    ensures w < |s'.writes| && s'.writes[w].version == s.writes[w].version
    ensures s'.writes[w].namespace == s.writes[w].namespace
  {
    hide OwnNext;
    var v :| Acts(s, s', v);
  }

  /**
   A read that begins when a write to its namespace is over is answered with that write, unless it is answered from its
   cache and the write went through another version.
   */
  lemma AnswersAcrossVersions(run: seq<Shared>, b: nat, i: nat, r: nat, w: nat, rows: nat, cached: bool)
    requires IsVersionedRun(run) && b < i < |run| && Begins(run[b], run[b + 1], r) && IsOver(run[b], w)
    requires r < |run[i].readers| && run[i].readers[r].reader.progress == Answered(rows, cached)
    requires Touches(run[b].writes[w].namespace, run[i].readers[r].reader.Namespace())
    ensures w < rows || (cached && run[b].writes[w].version != run[i].readers[r].version)
  {
    hide Moves, After, Invalidations, CacheCurrent, FlightsCurrent;
    assert Moves(run[b], run[b + 1]);
    ActBeginsReader(run[b], run[b + 1], r, w);
    ActKeepsWrite(run[b], run[b + 1], w);
    ReaderStays(run, b + 1, i, r);
    WriteStays(run, b + 1, i, w);
    VersionsServed(run, i);
    var v := run[i].readers[r].version;
    EveryViewKeeps(run, i, v);
    var s := View(run[i], v);
    assert s.readers[r] == run[i].readers[r].reader && ReaderCurrent(s, s.readers[r]);
    assert s.writes[w].namespace == run[b].writes[w].namespace;
  }
}
