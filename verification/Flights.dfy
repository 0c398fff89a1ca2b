/** Query coalescing: which running query a reader may join. A flight's id stands for its address. */
module Flights {

  /** An entry of the in-flight table. */
  datatype Slot = Slot(id: nat, namespace: string)

  /** Whether a write to `written` may have changed what a read of `read` saw. */
  predicate Touches(written: string, read: string) {
    written == "" || read == "" || written == read
  }

  /** A row of namespace `row` is one that a request for `asked` is about; the empty name asks for all. */
  predicate About(asked: string, row: string) {
    asked == "" || asked == row
  }

  /** A write touches a read exactly when there can be a row that both are about. */
  lemma TouchesSharedRows(written: string, read: string)
    ensures Touches(written, read) <==> exists row :: About(written, row) && About(read, row)
  {
    assert About(written, written) && About(read, read);
    assert About("", written) && About("", read);
  }

  function Detached<K>(inflight: map<K, Slot>, written: string): map<K, Slot> {
    map k | k in inflight && !Touches(written, inflight[k].namespace) :: inflight[k]
  }

  function Finished<K>(inflight: map<K, Slot>, key: K, id: nat): map<K, Slot> {
    if key in inflight && inflight[key].id == id then inflight - {key} else inflight
  }

  class FlightGroup<K(==)> {
    var inflight: map<K, Slot>
    var next: nat

    ghost predicate Valid()
      reads this
    {
      forall k :: k in inflight ==> inflight[k].id < next
    }

    constructor ()
      ensures Valid() && inflight == map[] && next == 0
    {
      inflight, next := map[], 0;
    }

    /** The locked part of `Do`: join the query already running for the key, or begin one. */
    method Join(key: K, namespace: string) returns (id: nat, leads: bool)
      requires Valid()
      modifies this
      ensures Valid()
      ensures leads <==> key !in old(inflight)
      ensures !leads ==> id == old(inflight)[key].id && inflight == old(inflight) && next == old(next)
      ensures leads ==> id == old(next) && inflight == old(inflight)[key := Slot(id, namespace)] && next == id + 1
    {
      if key in inflight { return inflight[key].id, false; }
      id, leads := next, true;
      next := next + 1;
      inflight := inflight[key := Slot(id, namespace)];
    }

    /** A completed flight leaves the table, unless another has taken its key. */
    method Finish(key: K, id: nat)
      requires Valid()
      modifies this`inflight
      ensures Valid() && inflight == Finished(old(inflight), key, id)
    {
      if key in inflight && inflight[key].id == id { inflight := inflight - {key}; }
    }

    /** No new reader joins a query that a write to `written` may have outdated. */
    method Detach(written: string)
      requires Valid()
      modifies this`inflight
      ensures Valid() && inflight == Detached(old(inflight), written)
    {
      ghost var before := inflight;
      var rest := inflight.Keys;
      while rest != {}
        invariant rest <= before.Keys && rest <= inflight.Keys
        invariant forall k :: k in inflight <==>
                    k in before && (k in rest || !Touches(written, before[k].namespace))
        invariant forall k :: k in inflight ==> inflight[k] == before[k]
        decreases |rest|
      {
        var k :| k in rest;
        if Touches(written, inflight[k].namespace) { inflight := inflight - {k}; }
        rest := rest - {k};
      }
    }
  }
}
