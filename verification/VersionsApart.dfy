/** A run in which a read through one version misses a write that is over through another, for as long as any may. */
module VersionsApart {
  import opened Coherence
  import opened Epochs
  import opened Flights
  import opened ReadCache
  import opened Results
  import opened Staleness
  import opened Versions

  /** A write to the namespace of `k` through `u`; reads of `k` through `v`, the first of which leaves its entry. */
  datatype Case = Case(u: string, v: string, k: Key, expires: int)

  const LAST := 12

  function WritesAt(c: Case, n: nat): seq<VersionWrite> {
    if n < 7 then []
    else [VersionWrite(c.u, c.k.namespace, if n == 7 then Committed else if n == 8 then Detaching else Done(1))]
  }

  function WriterCache(c: Case, n: nat): Cache {
    if n < 9 then EMPTY else Cache(Invalidated(FRESH, [c.k.namespace]), [[c.k.namespace]], map[])
  }

  function ReaderCache(c: Case, n: nat): Cache {
    if n < 10 then EMPTY else Cache(FRESH, [], map[c.k := Entry(c.k.namespace, 0, c.expires)])
  }

  function FlightsAt(c: Case, n: nat): seq<Flight> {
    if n < 3 then [] else [Flight(c.k, if n == 3 then None else Some(0), n >= 5)]
  }

  function FirstProgress(n: nat): Progress {
    if n < 2 then Begun else if n == 2 then Ready(0) else if n < 6 then Waiting(0, 0)
    else if n < 10 then Holding(0, 0) else Answered(0, false)
  }

  function ReadersAt(c: Case, n: nat): seq<VersionReader> {
    var first := VersionReader(c.v, Reader(c.k, c.k, {}, {}, FirstProgress(n)));
    var second := VersionReader(c.v, Reader(c.k, c.k, {}, {0}, if n < LAST then Begun else Answered(0, true)));
    if n == 0 then [] else if n < 11 then [first] else [first, second]
  }

  /** The run, state by state: a read asks, the write comes and goes, the read stores, and another finds its entry. */
  function Point(c: Case, n: nat): Shared {
    Shared(WritesAt(c, n), map[c.u := WriterCache(c, n), c.v := ReaderCache(c, n)],
           if 3 <= n < 5 then map[c.k := Slot(0, c.k.namespace)] else map[], FlightsAt(c, n), ReadersAt(c, n))
  }

  // The first read, of an empty table, as far as it holds what it found.

  lemma Begins0(c: Case)
    requires c.u != c.v
    ensures Acts(Point(c, 0), Point(c, 1), c.v)
  {
    var a, b := View(Point(c, 0), c.v), View(Point(c, 1), c.v);
    assert OverNow(a) == {} && DetachedNow(a) == {};
    assert b.readers == a.readers + [Reader(c.k, c.k, {}, {}, Begun)];
    assert Begin(a, b, c.k, c.k);
  }

  lemma TakesEpoch1(c: Case)
    requires c.u != c.v
    ensures Acts(Point(c, 1), Point(c, 2), c.v)
  {
    var a, b := View(Point(c, 1), c.v), View(Point(c, 2), c.v);
    assert b.readers == a.readers[0 := a.readers[0].(progress := Ready(0))];
    assert TakeEpoch(a, b, 0);
  }

  lemma Leads2(c: Case)
    requires c.u != c.v
    ensures Acts(Point(c, 2), Point(c, 3), c.v)
  {
    var a, b := View(Point(c, 2), c.v), View(Point(c, 3), c.v);
    assert b.readers == a.readers[0 := a.readers[0].(progress := Waiting(0, 0))];
    assert Join(a, b, 0, 0);
  }

  lemma Runs3(c: Case)
    requires c.u != c.v
    ensures Acts(Point(c, 3), Point(c, 4), c.v)
  {
    var a, b := View(Point(c, 3), c.v), View(Point(c, 4), c.v);
    assert b.flights == a.flights[0 := a.flights[0].(rows := Some(0))] && b.readers == a.readers;
    assert Coherence.Run(a, b, 0);
  }

  lemma Finishes4(c: Case)
    requires c.u != c.v
    ensures Acts(Point(c, 4), Point(c, 5), c.v)
  {
    var a, b := View(Point(c, 4), c.v), View(Point(c, 5), c.v);
    assert b.flights == a.flights[0 := a.flights[0].(done := true)] && b.readers == a.readers;
    assert Finished(a.inflight, c.k, 0) == map[];
    assert Coherence.Finish(a, b, 0);
  }

  lemma Receives5(c: Case)
    requires c.u != c.v
    ensures Acts(Point(c, 5), Point(c, 6), c.v)
  {
    var a, b := View(Point(c, 5), c.v), View(Point(c, 6), c.v);
    assert b.readers == a.readers[0 := a.readers[0].(progress := Holding(0, 0))];
    assert Receive(a, b, 0, 0, 0);
  }

  // The write, through the other version.

  lemma Commits6(c: Case)
    requires c.u != c.v
    ensures Acts(Point(c, 6), Point(c, 7), c.u)
  {
    var a, b := View(Point(c, 6), c.u), View(Point(c, 7), c.u);
    assert b.writes == a.writes + [Write(c.k.namespace, Committed)] && b.readers == a.readers;
    assert Commit(a, b, c.k.namespace);
  }

  lemma Detaches7(c: Case)
    requires c.u != c.v
    ensures Acts(Point(c, 7), Point(c, 8), c.u)
  {
    var a, b := View(Point(c, 7), c.u), View(Point(c, 8), c.u);
    assert b.writes == a.writes[0 := a.writes[0].(stage := Detaching)] && b.readers == a.readers;
    assert Detached(a.inflight, c.k.namespace) == map[];
    assert Detach(a, b, 0);
  }

  lemma Invalidates8(c: Case)
    requires c.u != c.v
    ensures Acts(Point(c, 8), Point(c, 9), c.u)
  {
    var a, b := View(Point(c, 8), c.u), View(Point(c, 9), c.u);
    assert b.writes == a.writes[0 := a.writes[0].(stage := Done(1))] && b.readers == a.readers;
    assert Uncovered(a.entries, [c.k.namespace]) == map[];
    assert Invalidate(a, b, 0);
  }

  // The first read stores its rows, which its own cache knows nothing against, and the second finds them.

  lemma Stores9(c: Case)
    requires c.u != c.v
    ensures Acts(Point(c, 9), Point(c, 10), c.v)
  {
    var a, b := View(Point(c, 9), c.v), View(Point(c, 10), c.v);
    assert b.readers == a.readers[0 := a.readers[0].(progress := Answered(0, false))] && b.writes == a.writes;
    assert Store(a, b, 0, 0, 0, map[], c.expires);
  }

  lemma Begins10(c: Case)
    requires c.u != c.v
    ensures Acts(Point(c, 10), Point(c, 11), c.v)
  {
    var a, b := View(Point(c, 10), c.v), View(Point(c, 11), c.v);
    assert a.writes[0] == Write(c.k.namespace, Detaching) && HasDetached(a, 0);
    assert OverNow(a) == {} && DetachedNow(a) == {0};
    assert b.readers == a.readers + [Reader(c.k, c.k, {}, {0}, Begun)] && b.writes == a.writes;
    assert Begin(a, b, c.k, c.k);
  }

  lemma Hits11(c: Case)
    requires c.u != c.v
    ensures Acts(Point(c, 11), Point(c, 12), c.v)
  {
    var a, b := View(Point(c, 11), c.v), View(Point(c, 12), c.v);
    assert b.readers == a.readers[1 := a.readers[1].(progress := Answered(0, true))] && b.writes == a.writes;
    assert Hit(a, b, 1);
  }

  lemma PointMoves(c: Case, n: nat)
    requires c.u != c.v && n < LAST
    ensures Moves(Point(c, n), Point(c, n + 1))
  {
    hide Acts, Point;
    match n
    case 0 => Begins0(c);
    case 1 => TakesEpoch1(c);
    case 2 => Leads2(c);
    case 3 => Runs3(c);
    case 4 => Finishes4(c);
    case 5 => Receives5(c);
    case 6 => Commits6(c);
    case 7 => Detaches7(c);
    case 8 => Invalidates8(c);
    case 9 => Stores9(c);
    case 10 => Begins10(c);
    case _ => Hits11(c);
  }

  /** Everything up to the end of the write at 0, the store and the second read's beginning at `took`, the hit last. */
  function TimeOf(took: int, ttl: int, n: nat): int {
    if n < 9 then 0 else if n < 11 then took else took + ttl
  }

  lemma PointTicks(c: Case, took: nat, ttl: nat, n: nat)
    requires c.u != c.v && c.expires == took + ttl && n < LAST
    ensures Ticks(Point(c, n), Point(c, n + 1), TimeOf(took, ttl, n), ttl)
  {
    hide Invalidated;
  }

  function PointsRun(c: Case): (run: seq<Shared>)
    ensures |run| == LAST + 1 && forall n :: 0 <= n <= LAST ==> run[n] == Point(c, n)
  {
    seq(LAST + 1, n requires 0 <= n => Point(c, n))
  }

  function TimesOf(took: int, ttl: int): (times: seq<int>)
    ensures |times| == LAST && forall n :: 0 <= n < LAST ==> times[n] == TimeOf(took, ttl, n)
  {
    seq(LAST, n requires 0 <= n => TimeOf(took, ttl, n))
  }

  lemma PointsTimed(c: Case, took: nat, ttl: nat)
    requires c.u != c.v && c.expires == took + ttl
    ensures IsTimedRun(PointsRun(c), TimesOf(took, ttl), ttl)
  {
    assert IsStart(Point(c, 0));
    hide Point, Moves, Ticks, IsStart;
    var run, times := PointsRun(c), TimesOf(took, ttl);
    forall i | 0 <= i < LAST ensures Moves(run[i], run[i + 1]) && Ticks(run[i], run[i + 1], times[i], ttl) {
      PointMoves(c, i);
      PointTicks(c, took, ttl, i);
    }
  }

  /**
   Whatever the two versions, the key and the time a read takes, there is a run in which a write through one version is
   over before a read of its namespace through the other begins, and the read is answered, from its cache, with the
   rows of before: `ttl` and the time the first read took after the write was over.
   */
  lemma OtherVersionMisses(u: string, v: string, k: Key, took: nat, ttl: nat)
    returns (run: seq<Shared>, times: seq<int>, o: nat, b: nat, h: nat)
    requires u != v
    ensures IsTimedRun(run, times, ttl) && o < b < h < |times|
    ensures !IsOver(run[o], 0) && OverBy(run, o, 0) && IsOver(run[b], 0)
    ensures Begins(run[b], run[b + 1], 1) && IsHit(run[h], run[h + 1], 1, 0)
    ensures run[b].writes[0].version == u && run[h].readers[1].version == v && run[h].readers[1].reader.cacheKey == k
    ensures Touches(run[b].writes[0].namespace, k.namespace)
    ensures times[h] == times[o] + ttl + took
  {
    var c := Case(u, v, k, took + ttl);
    PointsTimed(c, took, ttl);
    WriteAndHit(c);
    hide IsTimedRun, Touches, Begins, IsHit, Point, PointsRun, TimesOf;
    o, b, h := 8, 10, 11;
    run, times := PointsRun(c), TimesOf(took, ttl);
  }

  lemma WriteAndHit(c: Case)
    requires c.u != c.v
    ensures !IsOver(Point(c, 8), 0) && IsOver(Point(c, 9), 0)
    ensures IsOver(Point(c, 10), 0) && Point(c, 10).writes[0].version == c.u
    ensures Touches(Point(c, 10).writes[0].namespace, c.k.namespace)
    ensures Begins(Point(c, 10), Point(c, 11), 1) && IsHit(Point(c, 11), Point(c, 12), 1, 0)
    ensures Point(c, 11).readers[1].version == c.v && Point(c, 11).readers[1].reader.cacheKey == c.k
  {
  }
}
