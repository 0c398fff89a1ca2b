/**
 Reads after writes: the read cache and the query coalescing together, as interleaved steps.

 Every step is one lock region of the cache or of the flight table, one statement reaching the database, or
 one result changing hands. The database is the log of its committed writes, and rows are represented by how
 long that log was when they were read. A key determines the namespace it reads.
 */
module Coherence {
  import opened Epochs
  import opened Flights
  import opened ReadCache
  import opened Results

  datatype Key = Key(namespace: string, rest: string)

  /** What a writer has done so far; `at` is the generation its invalidation was given. */
  datatype Stage = Committed | Detaching | Done(at: nat)

  /** One committed write; its position in the log is its name. */
  datatype Write = Write(namespace: string, stage: Stage)

  /** A query: when the database answered it, and whether its result has been handed out. */
  datatype Flight = Flight(key: Key, rows: Option<nat>, done: bool)

  datatype Progress =
    | Begun
    | Ready(since: nat)
    | Waiting(since: nat, flight: nat)
    | Holding(since: nat, rows: nat)
    | Answered(rows: nat, cached: bool)
    | Gone

  /**
   A read; `began` are the writes that were over when it began, and `detached` those that had got as far as detaching.
   */
  datatype Reader = Reader(cacheKey: Key, flightKey: Key, began: set<nat>, detached: set<nat>, progress: Progress) {
    function Namespace(): string { cacheKey.namespace }
  }

  datatype State = State(
    writes: seq<Write>,
    epochs: Epochs,
    history: seq<seq<string>>,
    entries: map<Key, Entry<nat>>,
    inflight: map<Key, Slot>,
    flights: seq<Flight>,
    readers: seq<Reader>
  )

  const START := State([], FRESH, [], map[], map[], [], [])

  predicate Over(s: State, w: nat) {
    w < |s.writes| && s.writes[w].stage.Done?
  }

  function OverNow(s: State): set<nat> {
    set w: nat | w < |s.writes| && Over(s, w)
  }

  predicate HasDetached(s: State, w: nat) {
    w < |s.writes| && !s.writes[w].stage.Committed?
  }

  function DetachedNow(s: State): set<nat> {
    set w: nat | w < |s.writes| && HasDetached(s, w)
  }

  predicate IsReader(s: State, r: nat, p: Progress) {
    r < |s.readers| && s.readers[r].progress == p
  }

  function Progressed(s: State, r: nat, p: Progress): State
    requires r < |s.readers|
  {
    s.(readers := s.readers[r := s.readers[r].(progress := p)])
  }

  // The reader's steps.

  ghost predicate Begin(s: State, s': State, cacheKey: Key, flightKey: Key) {
    && cacheKey.namespace == flightKey.namespace
    && s' == s.(readers := s.readers + [Reader(cacheKey, flightKey, OverNow(s), DetachedNow(s), Begun)])
  }

  ghost predicate Hit(s: State, s': State, r: nat) {
    && IsReader(s, r, Begun) && s.readers[r].cacheKey in s.entries
    && s' == Progressed(s, r, Answered(s.entries[s.readers[r].cacheKey].rows, true))
  }

  ghost predicate TakeEpoch(s: State, s': State, r: nat) {
    IsReader(s, r, Begun) && s' == Progressed(s, r, Ready(s.epochs.generation))
  }

  ghost predicate Join(s: State, s': State, r: nat, since: nat) {
    && IsReader(s, r, Ready(since))
    && var key := s.readers[r].flightKey;
       if key in s.inflight then s' == Progressed(s, r, Waiting(since, s.inflight[key].id))
       else
         var id := |s.flights|;
         s' == Progressed(s, r, Waiting(since, id)).(
                 inflight := s.inflight[key := Slot(id, key.namespace)],
                 flights := s.flights + [Flight(key, None, false)])
  }

  /** A read that bases a write asks the database itself. */
  ghost predicate AskAlone(s: State, s': State, r: nat, since: nat) {
    IsReader(s, r, Ready(since)) && s' == Progressed(s, r, Holding(since, |s.writes|))
  }

  ghost predicate Receive(s: State, s': State, r: nat, since: nat, f: nat) {
    && IsReader(s, r, Waiting(since, f)) && f < |s.flights| && s.flights[f].done && s.flights[f].rows.Some?
    && s' == Progressed(s, r, Holding(since, s.flights[f].rows.value))
  }

  /** `store`: refused when stale; a full cache may have dropped entries first. */
  ghost predicate Store(s: State, s': State, r: nat, since: nat, rows: nat, kept: map<Key, Entry<nat>>, expires: int) {
    && IsReader(s, r, Holding(since, rows))
    && var reader := s.readers[r];
       var answered := Progressed(s, r, Answered(rows, false));
       if Stale(s.epochs, reader.Namespace(), since) then s' == answered
       else
         && PartOf(kept, s.entries)
         && s' == answered.(entries := kept[reader.cacheKey := Entry(reader.Namespace(), rows, expires)])
  }

  ghost predicate GiveUp(s: State, s': State, r: nat) {
    r < |s.readers| && s' == Progressed(s, r, Gone)
  }

  // The steps of a query that readers share.

  ghost predicate Run(s: State, s': State, f: nat) {
    && f < |s.flights| && s.flights[f].rows.None? && !s.flights[f].done
    && s' == s.(flights := s.flights[f := s.flights[f].(rows := Some(|s.writes|))])
  }

  /** With rows when the query succeeded and without when it failed. */
  ghost predicate Finish(s: State, s': State, f: nat) {
    && f < |s.flights| && !s.flights[f].done
    && s' == s.(flights := s.flights[f := s.flights[f].(done := true)],
                inflight := Finished(s.inflight, s.flights[f].key, f))
  }

  // The writer's steps, in the order every write takes them.

  ghost predicate Commit(s: State, s': State, namespace: string) {
    s' == s.(writes := s.writes + [Write(namespace, Committed)])
  }

  ghost predicate Detach(s: State, s': State, w: nat) {
    && w < |s.writes| && s.writes[w].stage.Committed?
    && s' == s.(writes := s.writes[w := s.writes[w].(stage := Detaching)],
                inflight := Detached(s.inflight, s.writes[w].namespace))
  }

  ghost predicate Invalidate(s: State, s': State, w: nat) {
    && w < |s.writes| && s.writes[w].stage.Detaching?
    && var namespaces := [s.writes[w].namespace];
       s' == Invalidating(s, namespaces).(
               writes := s.writes[w := s.writes[w].(stage := Done(s.epochs.generation + 1))])
  }

  ghost function Invalidating(s: State, namespaces: seq<string>): State {
    s.(epochs := Invalidated(s.epochs, namespaces), history := s.history + [namespaces],
       entries := Uncovered(s.entries, namespaces))
  }

  // What happens of its own accord: failed writes detach and invalidate as well, the poller invalidates
  // what it saw change, and entries expire.

  ghost predicate Stray(s: State, s': State, written: string, namespaces: seq<string>, kept: map<Key, Entry<nat>>) {
    || s' == s.(inflight := Detached(s.inflight, written))
    || (namespaces != [] && s' == Invalidating(s, namespaces))
    || (PartOf(kept, s.entries) && s' == s.(entries := kept))
  }

  /** A reader that uses the flights but not this cache: it begins, and may lead a flight. */
  ghost predicate Elsewhere(s: State, s': State, cacheKey: Key, key: Key) {
    || (cacheKey.namespace == key.namespace && s' == s.(readers := s.readers + [Reader(cacheKey, key, {}, {}, Gone)]))
    || (key !in s.inflight
        && s' == s.(inflight := s.inflight[key := Slot(|s.flights|, key.namespace)],
                    flights := s.flights + [Flight(key, None, false)]))
  }

  ghost predicate ReaderStep(s: State, s': State) {
    || (exists c, f :: Begin(s, s', c, f))
    || (exists r :: Hit(s, s', r) || TakeEpoch(s, s', r) || GiveUp(s, s', r))
    || (exists r, since :: Join(s, s', r, since) || AskAlone(s, s', r, since))
    || (exists r, since, f :: Receive(s, s', r, since, f))
    || (exists r, since, rows, kept, e :: Store(s, s', r, since, rows, kept, e))
  }

  /** The steps of the readers and writers that use this cache, of the flights, and of their own accord. */
  ghost predicate OwnNext(s: State, s': State) {
    || ReaderStep(s, s')
    || (exists f :: Run(s, s', f) || Finish(s, s', f))
    || (exists n :: Commit(s, s', n))
    || (exists w :: Detach(s, s', w) || Invalidate(s, s', w))
    || (exists written, namespaces, kept :: Stray(s, s', written, namespaces, kept))
  }

  ghost predicate Next(s: State, s': State) {
    OwnNext(s, s') || exists c, k :: Elsewhere(s, s', c, k)
  }

  /** An invalidation covers what one of its namespaces touches: the cache and the flights go by the same rule. */
  lemma CoversTouched(namespaces: seq<string>, namespace: string)
    requires namespaces != []
    ensures Covers(namespaces, namespace) <==> exists i :: 0 <= i < |namespaces| && Touches(namespaces[i], namespace)
  {
    assert namespace == "" ==> Touches(namespaces[0], namespace);
  }

  // What every step keeps.

  /** Rows read when the log had `rows` writes include every finished write that touches `namespace`. */
  ghost predicate Current(s: State, namespace: string, rows: nat) {
    forall w: nat :: Over(s, w) && Touches(s.writes[w].namespace, namespace) ==> w < rows
  }

  /** The same for the writes whose invalidation is no later than `since`. */
  ghost predicate CurrentAsOf(s: State, namespace: string, since: nat, rows: nat) {
    forall w: nat :: Over(s, w) && s.writes[w].stage.at <= since && Touches(s.writes[w].namespace, namespace) ==>
      w < rows
  }

  ghost predicate Recorded(s: State) {
    && Invalidations(s.history) && s.epochs == After(s.history)
    && forall w: nat :: Over(s, w) ==>
         1 <= s.writes[w].stage.at <= |s.history| && s.history[s.writes[w].stage.at - 1] == [s.writes[w].namespace]
  }

  ghost predicate CacheCurrent(s: State) {
    forall k :: k in s.entries ==> s.entries[k].namespace == k.namespace && Current(s, k.namespace, s.entries[k].rows)
  }

  /** A flight that may still be joined has, or will have, every write that has got as far as detaching. */
  ghost predicate FlightsCurrent(s: State) {
    forall k :: k in s.inflight ==> FlightCurrent(s, k, s.inflight[k])
  }

  ghost predicate FlightCurrent(s: State, k: Key, slot: Slot) {
    && slot.namespace == k.namespace && slot.id < |s.flights| && s.flights[slot.id].key == k
    && (s.flights[slot.id].rows.Some? ==> Includes(s, k.namespace, s.flights[slot.id].rows.value))
  }

  /** Rows that include every write to the namespace that has begun to detach. */
  ghost predicate Includes(s: State, namespace: string, rows: nat) {
    forall w: nat :: w < |s.writes| && !s.writes[w].stage.Committed? && Touches(s.writes[w].namespace, namespace)
      ==> w < rows
  }

  ghost predicate RowsExist(s: State) {
    forall f :: 0 <= f < |s.flights| && s.flights[f].rows.Some? ==> s.flights[f].rows.value <= |s.writes|
  }

  /** The writes over when the reader began were invalidated no later than `since`. */
  ghost predicate BeganBy(s: State, began: set<nat>, since: nat) {
    forall w :: w in began ==> Over(s, w) && s.writes[w].stage.at <= since
  }

  /** The rows include what had detached when the reader began. */
  ghost predicate HasEarlier(s: State, reader: Reader, rows: nat) {
    forall w :: w in reader.detached && w < |s.writes| && Touches(s.writes[w].namespace, reader.Namespace()) ==>
      w < rows
  }

  ghost predicate ReaderCurrent(s: State, reader: Reader) {
    && reader.flightKey.namespace == reader.cacheKey.namespace
    && (forall w :: w in reader.began ==> Over(s, w)) && (forall w :: w in reader.detached ==> HasDetached(s, w))
    && match reader.progress
       case Begun => true
       case Ready(since) => since <= |s.history| && BeganBy(s, reader.began, since)
       case Waiting(since, f) =>
         && since <= |s.history| && BeganBy(s, reader.began, since) && f < |s.flights|
         && (s.flights[f].rows.Some? ==>
               && CurrentAsOf(s, reader.Namespace(), since, s.flights[f].rows.value)
               && HasEarlier(s, reader, s.flights[f].rows.value))
       case Holding(since, rows) =>
         && since <= |s.history| && BeganBy(s, reader.began, since)
         && CurrentAsOf(s, reader.Namespace(), since, rows) && HasEarlier(s, reader, rows)
       case Answered(rows, cached) =>
         && (forall w :: w in reader.began && Touches(s.writes[w].namespace, reader.Namespace()) ==> w < rows)
         && (!cached ==> HasEarlier(s, reader, rows))
       case Gone => true
  }

  ghost predicate ReadersCurrent(s: State) {
    forall r :: 0 <= r < |s.readers| ==> ReaderCurrent(s, s.readers[r])
  }

  ghost predicate Inv(s: State) {
    Recorded(s) && CacheCurrent(s) && FlightsCurrent(s) && RowsExist(s) && ReadersCurrent(s)
  }

  // Nothing below depends on more than what it is about.

  /** `s'` has the same writes and invalidations as `s`, and flights that have only progressed. */
  ghost predicate SameLog(s: State, s': State) {
    && s'.writes == s.writes && s'.history == s.history && s'.epochs == s.epochs
    && |s.flights| <= |s'.flights|
    && forall f :: 0 <= f < |s.flights| ==>
         s'.flights[f].key == s.flights[f].key && s'.flights[f].rows == s.flights[f].rows
  }

  lemma ReadersKept(s: State, s': State, r: nat)
    requires SameLog(s, s') && ReadersCurrent(s) && r <= |s.readers|
    requires |s.readers| <= |s'.readers| <= |s.readers| + 1
    requires forall i :: 0 <= i < |s.readers| && i != r ==> s'.readers[i] == s.readers[i]
    requires r < |s'.readers| ==> ReaderCurrent(s', s'.readers[r])
    requires |s'.readers| > |s.readers| ==> r == |s.readers|
    ensures ReadersCurrent(s')
  {
  }

  lemma BeginKeeps(s: State, s': State, cacheKey: Key, flightKey: Key)
    requires Inv(s) && Begin(s, s', cacheKey, flightKey)
    ensures Inv(s')
  {
    ReadersKept(s, s', |s.readers|);
  }

  lemma HitKeeps(s: State, s': State, r: nat)
    requires Inv(s) && Hit(s, s', r)
    ensures Inv(s')
  {
    ReadersKept(s, s', r);
  }

  lemma TakeEpochKeeps(s: State, s': State, r: nat)
    requires Inv(s) && TakeEpoch(s, s', r)
    ensures Inv(s')
  {
    GenerationCounts(s.history);
    ReadersKept(s, s', r);
  }

  lemma GiveUpKeeps(s: State, s': State, r: nat)
    requires Inv(s) && GiveUp(s, s', r)
    ensures Inv(s')
  {
    ReadersKept(s, s', r);
  }

  lemma IncludesIsCurrent(s: State, namespace: string, since: nat, rows: nat)
    requires Includes(s, namespace, rows)
    ensures CurrentAsOf(s, namespace, since, rows)
  {
  }

  lemma JoinKeeps(s: State, s': State, r: nat, since: nat)
    requires Inv(s) && Join(s, s', r, since)
    ensures Inv(s')
  {
    if s.readers[r].flightKey in s.inflight {
      JoinRunningKeeps(s, s', r, since);
    } else {
      LeadKeeps(s, s', r, since);
    }
  }

  lemma JoinRunningKeeps(s: State, s': State, r: nat, since: nat)
    requires Inv(s) && Join(s, s', r, since) && s.readers[r].flightKey in s.inflight
    ensures Inv(s')
  {
    hide After, Invalidations, Invalidated;
    var reader := s.readers[r];
    var slot := s.inflight[reader.flightKey];
    assert ReaderCurrent(s, reader);
    assert FlightCurrent(s, reader.flightKey, slot);
    if s.flights[slot.id].rows.Some? {
      IncludesIsCurrent(s', reader.Namespace(), since, s.flights[slot.id].rows.value);
    }
    ReadersKept(s, s', r);
  }

  lemma LeadKeeps(s: State, s': State, r: nat, since: nat)
    requires Inv(s) && Join(s, s', r, since) && s.readers[r].flightKey !in s.inflight
    ensures Inv(s')
  {
    assert ReaderCurrent(s, s.readers[r]);
    LeadKeepsFlights(s, s', s.readers[r].flightKey);
    assert s'.flights[|s.flights|].rows.None?;
    assert ReaderCurrent(s', s'.readers[r]);
    ReadersKept(s, s', r);
  }

  lemma LeadKeepsFlights(s: State, s': State, key: Key)
    requires FlightsCurrent(s) && RowsExist(s) && s'.writes == s.writes
    requires s'.flights == s.flights + [Flight(key, None, false)]
    requires s'.inflight == s.inflight[key := Slot(|s.flights|, key.namespace)]
    ensures FlightsCurrent(s') && RowsExist(s')
  {
  }

  lemma AskAloneKeeps(s: State, s': State, r: nat, since: nat)
    requires Inv(s) && AskAlone(s, s', r, since)
    ensures Inv(s')
  {
    assert ReaderCurrent(s, s.readers[r]);
    ReadersKept(s, s', r);
  }

  lemma ReceiveKeeps(s: State, s': State, r: nat, since: nat, f: nat)
    requires Inv(s) && Receive(s, s', r, since, f)
    ensures Inv(s')
  {
    assert ReaderCurrent(s, s.readers[r]);
    ReadersKept(s, s', r);
  }

  /** What the epoch lets through is current: every finished write it touches was over before the read's epoch. */
  lemma StoredIsCurrent(s: State, namespace: string, since: nat, rows: nat)
    requires Recorded(s) && !Stale(s.epochs, namespace, since) && CurrentAsOf(s, namespace, since, rows)
    ensures Current(s, namespace, rows)
  {
    EpochsExact(s.history, namespace, since);
    forall w: nat | Over(s, w) && Touches(s.writes[w].namespace, namespace)
      ensures s.writes[w].stage.at <= since
    {
      assert Covers(s.history[s.writes[w].stage.at - 1], namespace);
    }
  }

  lemma StoreKeeps(s: State, s': State, r: nat, since: nat, rows: nat, kept: map<Key, Entry<nat>>, expires: int)
    requires Inv(s) && Store(s, s', r, since, rows, kept, expires)
    ensures Inv(s')
  {
    hide Recorded, CacheCurrent, FlightsCurrent, ReadersCurrent, ReaderCurrent, Stale, PartOf, FlightCurrent;
    var reader := s.readers[r];
    StoreReaders(s, s', r, since, rows, kept, expires);
    StoreCache(s, s', r, since, rows, kept, expires);
    StoreRest(s, s', r, since, rows, kept, expires);
  }

  lemma StoreReaders(s: State, s': State, r: nat, since: nat, rows: nat, kept: map<Key, Entry<nat>>, expires: int)
    requires Inv(s) && Store(s, s', r, since, rows, kept, expires)
    ensures ReadersCurrent(s')
  {
    hide After, Invalidations, Invalidated, CacheCurrent, FlightsCurrent, Stale, PartOf;
    assert ReaderCurrent(s, s.readers[r]);
    ReadersKept(s, s', r);
  }

  lemma StoreCache(s: State, s': State, r: nat, since: nat, rows: nat, kept: map<Key, Entry<nat>>, expires: int)
    requires Inv(s) && Store(s, s', r, since, rows, kept, expires)
    ensures CacheCurrent(s')
  {
    hide After, Invalidations, Invalidated, FlightsCurrent, Stale;
    var reader := s.readers[r];
    assert ReaderCurrent(s, reader);
    assert forall w: nat :: Over(s', w) <==> Over(s, w);
    if !Stale(s.epochs, reader.Namespace(), since) {
      StoredIsCurrent(s, reader.Namespace(), since, rows);
    }
  }

  lemma StoreRest(s: State, s': State, r: nat, since: nat, rows: nat, kept: map<Key, Entry<nat>>, expires: int)
    requires Inv(s) && Store(s, s', r, since, rows, kept, expires)
    ensures Recorded(s') && FlightsCurrent(s') && RowsExist(s')
  {
    hide After, Invalidations, CacheCurrent, ReadersCurrent, Stale, PartOf;
    forall k | k in s'.inflight ensures FlightCurrent(s', k, s'.inflight[k]) {
      assert FlightCurrent(s, k, s.inflight[k]);
    }
  }

  lemma RunKeeps(s: State, s': State, f: nat)
    requires Inv(s) && Run(s, s', f)
    ensures Inv(s')
  {
    hide After, Invalidations, Invalidated;
    forall i | 0 <= i < |s'.readers| ensures ReaderCurrent(s', s'.readers[i]) {
      assert ReaderCurrent(s, s.readers[i]);
    }
  }

  lemma FinishKeeps(s: State, s': State, f: nat)
    requires Inv(s) && Finish(s, s', f)
    ensures Inv(s')
  {
    ReadersKept(s, s', |s.readers|);
  }

  lemma CommitKeeps(s: State, s': State, namespace: string)
    requires Inv(s) && Commit(s, s', namespace)
    ensures Inv(s')
  {
    hide After, Invalidations, Invalidated;
    assert forall w: nat :: Over(s', w) <==> Over(s, w);
    forall i | 0 <= i < |s'.readers| ensures ReaderCurrent(s', s'.readers[i]) {
      assert ReaderCurrent(s, s.readers[i]);
    }
  }

  lemma DetachKeeps(s: State, s': State, w: nat)
    requires Inv(s) && Detach(s, s', w)
    ensures Inv(s')
  {
    hide After, Invalidations, Invalidated;
    assert forall v: nat :: Over(s', v) <==> Over(s, v);
    forall i | 0 <= i < |s'.readers| ensures ReaderCurrent(s', s'.readers[i]) {
      assert ReaderCurrent(s, s.readers[i]);
    }
  }

  /** An invalidation leaves no entry it covers, and no read that it outdates may be stored any more. */
  lemma InvalidateKeeps(s: State, s': State, w: nat)
    requires Inv(s) && Invalidate(s, s', w)
    ensures Inv(s')
  {
    hide Recorded, CacheCurrent, FlightsCurrent, ReadersCurrent, Invalidate;
    InvalidateRecorded(s, s', w);
    InvalidateCache(s, s', w);
    InvalidateFlights(s, s', w);
    InvalidateReaders(s, s', w);
  }

  /** One more write is over, and it is the latest. */
  lemma InvalidateOver(s: State, s': State, w: nat)
    requires Recorded(s) && Invalidate(s, s', w)
    ensures |s'.writes| == |s.writes| && s'.history == s.history + [[s.writes[w].namespace]]
    ensures s'.epochs == After(s'.history) && Invalidations(s'.history)
    ensures forall v: nat :: Over(s', v) <==> Over(s, v) || v == w
    ensures forall v: nat :: v < |s.writes| && v != w ==> s'.writes[v] == s.writes[v]
    ensures s'.writes[w].stage.at == |s'.history| && s'.writes[w].namespace == s.writes[w].namespace
  {
    GenerationCounts(s.history);
    AfterOneMore(s.history, [s.writes[w].namespace]);
  }

  lemma InvalidateRecorded(s: State, s': State, w: nat)
    requires Recorded(s) && RowsExist(s) && Invalidate(s, s', w)
    ensures Recorded(s') && RowsExist(s')
  {
    InvalidateOver(s, s', w);
    hide After, Invalidations, Invalidated, Invalidate;
    assert s'.flights == s.flights by { InvalidateFrame(s, s', w); }
  }

  lemma InvalidateFrame(s: State, s': State, w: nat)
    requires Invalidate(s, s', w)
    ensures s'.flights == s.flights
  {
  }

  lemma InvalidateCache(s: State, s': State, w: nat)
    requires Recorded(s) && CacheCurrent(s) && Invalidate(s, s', w)
    ensures CacheCurrent(s')
  {
  }

  lemma InvalidateFlights(s: State, s': State, w: nat)
    requires Recorded(s) && FlightsCurrent(s) && Invalidate(s, s', w)
    ensures FlightsCurrent(s')
  {
  }

  lemma InvalidateReaders(s: State, s': State, w: nat)
    requires Recorded(s) && ReadersCurrent(s) && Invalidate(s, s', w)
    ensures ReadersCurrent(s')
  {
    InvalidateOver(s, s', w);
    hide Recorded, After, Invalidations, Invalidated;
    forall i | 0 <= i < |s'.readers| ensures ReaderCurrent(s', s'.readers[i]) {
      assert ReaderCurrent(s, s.readers[i]);
    }
  }

  lemma StrayKeeps(s: State, s': State, written: string, namespaces: seq<string>, kept: map<Key, Entry<nat>>)
    requires Inv(s) && Stray(s, s', written, namespaces, kept)
    ensures Inv(s')
  {
    hide After, Invalidations, Invalidated;
    if s' == s.(inflight := Detached(s.inflight, written)) {
      ReadersKept(s, s', |s.readers|);
    } else if namespaces != [] && s' == Invalidating(s, namespaces) {
      StrayInvalidationKeeps(s, s', namespaces);
    } else {
      ReadersKept(s, s', |s.readers|);
    }
  }

  lemma StrayInvalidationKeeps(s: State, s': State, namespaces: seq<string>)
    requires Inv(s) && namespaces != [] && s' == Invalidating(s, namespaces)
    ensures Inv(s')
  {
    hide Recorded, After, Invalidations, Invalidated, Uncovered, Covers;
    StrayRecorded(s, s', namespaces);
    assert forall w: nat :: Over(s', w) <==> Over(s, w);
    forall k | k in s'.entries
      ensures s'.entries[k].namespace == k.namespace && Current(s', k.namespace, s'.entries[k].rows)
    {
      assert Current(s, k.namespace, s.entries[k].rows);
    }
    forall i | 0 <= i < |s'.readers| ensures ReaderCurrent(s', s'.readers[i]) {
      assert ReaderCurrent(s, s.readers[i]);
    }
    forall k | k in s'.inflight ensures FlightCurrent(s', k, s'.inflight[k]) {
      assert FlightCurrent(s, k, s.inflight[k]);
    }
  }

  lemma StrayRecorded(s: State, s': State, namespaces: seq<string>)
    requires Recorded(s) && namespaces != [] && s' == Invalidating(s, namespaces)
    ensures Recorded(s') && PartOf(s'.entries, s.entries)
  {
  }

  lemma ElsewhereKeeps(s: State, s': State, cacheKey: Key, key: Key)
    requires Inv(s) && Elsewhere(s, s', cacheKey, key)
    ensures Inv(s')
  {
    hide After, Invalidations, Invalidated;
    if s'.flights == s.flights {
      ReadersKept(s, s', |s.readers|);
    } else {
      LeadKeepsFlights(s, s', key);
      ReadersKept(s, s', |s.readers|);
    }
  }

  lemma ReaderStepKeeps(s: State, s': State)
    requires Inv(s) && ReaderStep(s, s')
    ensures Inv(s')
  {
    if c, f :| Begin(s, s', c, f) {
      BeginKeeps(s, s', c, f);
    } else if r :| Hit(s, s', r) || TakeEpoch(s, s', r) || GiveUp(s, s', r) {
      if Hit(s, s', r) { HitKeeps(s, s', r); }
      else if TakeEpoch(s, s', r) { TakeEpochKeeps(s, s', r); }
      else { GiveUpKeeps(s, s', r); }
    } else if r, since :| Join(s, s', r, since) || AskAlone(s, s', r, since) {
      if Join(s, s', r, since) { JoinKeeps(s, s', r, since); } else { AskAloneKeeps(s, s', r, since); }
    } else if r, since, f :| Receive(s, s', r, since, f) {
      ReceiveKeeps(s, s', r, since, f);
    } else {
      var r, since, rows, kept, e :| Store(s, s', r, since, rows, kept, e);
      StoreKeeps(s, s', r, since, rows, kept, e);
    }
  }

  lemma OwnNextKeeps(s: State, s': State)
    requires Inv(s) && OwnNext(s, s')
    ensures Inv(s')
  {
    if ReaderStep(s, s') {
      ReaderStepKeeps(s, s');
    } else if f :| Run(s, s', f) || Finish(s, s', f) {
      if Run(s, s', f) { RunKeeps(s, s', f); } else { FinishKeeps(s, s', f); }
    } else if n :| Commit(s, s', n) {
      CommitKeeps(s, s', n);
    } else if w :| Detach(s, s', w) || Invalidate(s, s', w) {
      if Detach(s, s', w) { DetachKeeps(s, s', w); } else { InvalidateKeeps(s, s', w); }
    } else {
      var written, namespaces, kept :| Stray(s, s', written, namespaces, kept);
      StrayKeeps(s, s', written, namespaces, kept);
    }
  }

  lemma NextKeeps(s: State, s': State)
    requires Inv(s) && Next(s, s')
    ensures Inv(s')
  {
    hide Inv, OwnNext, Elsewhere;
    if OwnNext(s, s') {
      OwnNextKeeps(s, s');
    } else {
      var c, k :| Elsewhere(s, s', c, k);
      ElsewhereKeeps(s, s', c, k);
    }
  }

  /** What readers began with does not change, and one that begins has it from the state it begins in. */
  ghost predicate Persisting(s: State, s': State) {
    && |s.readers| <= |s'.readers| <= |s.readers| + 1
    && (forall r :: 0 <= r < |s.readers| ==> s'.readers[r].(progress := Gone) == s.readers[r].(progress := Gone))
    && (|s'.readers| > |s.readers| ==>
          s'.readers[|s.readers|].began == OverNow(s) && s'.readers[|s.readers|].detached == DetachedNow(s))
  }

  lemma ProgressPersists(s: State, s': State, r: nat, p: Progress)
    requires r < |s.readers| && s'.readers == s.readers[r := s.readers[r].(progress := p)]
    ensures Persisting(s, s')
  {
  }

  lemma SamePersists(s: State, s': State)
    requires s'.readers == s.readers
    ensures Persisting(s, s')
  {
  }

  lemma ReaderStepPersists(s: State, s': State)
    requires ReaderStep(s, s')
    ensures Persisting(s, s')
  {
    hide Persisting, Begin, Hit, TakeEpoch, GiveUp, Join, AskAlone, Receive, Store;
    if c, f :| Begin(s, s', c, f) {
      BeginPersists(s, s', c, f);
    } else if r: nat :| Hit(s, s', r) || TakeEpoch(s, s', r) || GiveUp(s, s', r) {
      FirstStepsPersist(s, s', r);
    } else if r: nat, since: nat :| Join(s, s', r, since) || AskAlone(s, s', r, since) {
      AskingPersists(s, s', r, since);
    } else if r: nat, since: nat, f: nat :| Receive(s, s', r, since, f) {
      ReceivePersists(s, s', r, since, f);
    } else {
      var r: nat, since: nat, rows: nat, kept, e :| Store(s, s', r, since, rows, kept, e);
      StorePersists(s, s', r, since, rows, kept, e);
    }
  }

  lemma FirstStepsPersist(s: State, s': State, r: nat)
    requires Hit(s, s', r) || TakeEpoch(s, s', r) || GiveUp(s, s', r)
    ensures Persisting(s, s')
  {
    hide Persisting;
    ProgressPersists(s, s', r, s'.readers[r].progress);
  }

  lemma AskingPersists(s: State, s': State, r: nat, since: nat)
    requires Join(s, s', r, since) || AskAlone(s, s', r, since)
    ensures Persisting(s, s')
  {
    hide Persisting;
    ProgressPersists(s, s', r, s'.readers[r].progress);
  }

  lemma ReceivePersists(s: State, s': State, r: nat, since: nat, f: nat)
    requires Receive(s, s', r, since, f)
    ensures Persisting(s, s')
  {
    hide Persisting;
    ProgressPersists(s, s', r, s'.readers[r].progress);
  }

  lemma StorePersists(s: State, s': State, r: nat, since: nat, rows: nat, kept: map<Key, Entry<nat>>, expires: int)
    requires Store(s, s', r, since, rows, kept, expires)
    ensures Persisting(s, s')
  {
    hide Persisting, Stale, PartOf;
    ProgressPersists(s, s', r, s'.readers[r].progress);
  }

  /** What a reader's step does beyond its own cache and progress: it may begin, or lead a flight. */
  lemma ReaderStepEffects(s: State, s': State)
    requires ReaderStep(s, s')
    ensures s'.writes == s.writes
    ensures
      || (s'.inflight == s.inflight && s'.flights == s.flights && |s.readers| <= |s'.readers| <= |s.readers| + 1)
      || (|s'.readers| == |s.readers| && exists key :: Leads(s, s', key))
  {
    hide Stale, PartOf, OverNow, DetachedNow;
    if r: nat, since: nat :| Join(s, s', r, since) {
      assert s.readers[r].flightKey in s.inflight || Leads(s, s', s.readers[r].flightKey);
    }
  }

  ghost predicate Leads(s: State, s': State, key: Key) {
    && key !in s.inflight && s'.inflight == s.inflight[key := Slot(|s.flights|, key.namespace)]
    && s'.flights == s.flights + [Flight(key, None, false)]
  }

  lemma BeginPersists(s: State, s': State, cacheKey: Key, flightKey: Key)
    requires Begin(s, s', cacheKey, flightKey)
    ensures Persisting(s, s')
  {
    hide OverNow, DetachedNow;
  }

  lemma ReadersPersist(s: State, s': State)
    requires OwnNext(s, s')
    ensures Persisting(s, s')
  {
    hide Persisting, ReaderStep, PartOf, Invalidated, Uncovered, Detached, Finished;
    if ReaderStep(s, s') { ReaderStepPersists(s, s'); } else { SamePersists(s, s'); }
  }

  // Whole runs.

  ghost predicate IsRun(run: seq<State>) {
    && |run| > 0 && run[0] == START
    && forall i :: 0 <= i < |run| - 1 ==> Next(run[i], run[i + 1])
  }

  lemma {:induction false} RunKeepsInv(run: seq<State>, i: nat)
    requires IsRun(run) && i < |run|
    ensures Inv(run[i])
  {
    if i > 0 {
      RunKeepsInv(run, i - 1);
      NextKeeps(run[i - 1], run[i]);
    }
  }

  /**
   Once a write has committed, detached and invalidated, no cache entry that covers its namespace holds rows
   from before it, and no flight that a reader can still join has read any.
   */
  lemma ReadAfterWrite(run: seq<State>, i: nat, w: nat)
    requires IsRun(run) && i < |run| && Over(run[i], w)
    ensures var s := run[i];
      && (forall k :: k in s.entries && Touches(s.writes[w].namespace, s.entries[k].namespace) ==>
            w < s.entries[k].rows)
      && (forall k :: k in s.inflight && Touches(s.writes[w].namespace, s.inflight[k].namespace) ==>
            s.inflight[k].id < |s.flights| &&
            (s.flights[s.inflight[k].id].rows.Some? ==> w < s.flights[s.inflight[k].id].rows.value))
  {
    RunKeepsInv(run, i);
    var s := run[i];
    forall k | k in s.inflight && Touches(s.writes[w].namespace, s.inflight[k].namespace)
      ensures s.inflight[k].id < |s.flights|
      ensures s.flights[s.inflight[k].id].rows.Some? ==> w < s.flights[s.inflight[k].id].rows.value
    {
      assert FlightCurrent(s, k, s.inflight[k]);
    }
  }

  /** However it was answered, a read that began after a write was over is answered with that write. */
  lemma AnswersIncludeEarlierWrites(run: seq<State>, i: nat, r: nat, w: nat, rows: nat, cached: bool)
    requires IsRun(run) && i < |run| && IsReader(run[i], r, Answered(rows, cached))
    requires w in run[i].readers[r].began
    ensures Over(run[i], w)
    ensures Touches(run[i].writes[w].namespace, run[i].readers[r].Namespace()) ==> w < rows
  {
    RunKeepsInv(run, i);
    assert ReaderCurrent(run[i], run[i].readers[r]);
  }
}
