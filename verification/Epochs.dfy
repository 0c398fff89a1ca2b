/**
 Invalidation epochs: the compressed record a read consults before its result is cached, and the full
 history of invalidations it stands for.
 */
module Epochs {

  /** `generation` counts invalidations; the others remember the last one of each kind. */
  datatype Epochs = Epochs(generation: nat, invalidatedAt: map<string, nat>, allInvalidatedAt: nat)

  const FRESH := Epochs(0, map[], 0)

  function LastAt(e: Epochs, namespace: string): nat {
    if namespace in e.invalidatedAt then e.invalidatedAt[namespace] else 0
  }

  /** Whether something an entry for `namespace` describes was invalidated after `since`. */
  predicate Stale(e: Epochs, namespace: string, since: nat) {
    if namespace == "" then e.generation > since
    else e.allInvalidatedAt > since || LastAt(e, namespace) > since
  }

  /** One invalidation of `namespaces`, where an empty name stands for all of them. */
  function Invalidated(e: Epochs, namespaces: seq<string>): Epochs {
    if namespaces == [] then e
    else
      var g := e.generation + 1;
      if "" in namespaces then Epochs(g, map[], g)
      else e.(generation := g, invalidatedAt := e.invalidatedAt + map n | n in namespaces :: g)
  }

  /** Whether an invalidation of `namespaces` touches what an entry for `namespace` describes. */
  predicate Covers(namespaces: seq<string>, namespace: string) {
    namespace == "" || "" in namespaces || namespace in namespaces
  }

  ghost predicate Invalidations(history: seq<seq<string>>) {
    forall k :: 0 <= k < |history| ==> history[k] != []
  }

  /** The record after a history of invalidations. */
  function After(history: seq<seq<string>>): Epochs {
    if history == [] then FRESH else Invalidated(After(history[..|history| - 1]), history[|history| - 1])
  }

  /** The history contains an invalidation later than `since` that covers `namespace`. */
  ghost predicate CoveredSince(history: seq<seq<string>>, namespace: string, since: nat) {
    exists k :: since <= k < |history| && Covers(history[k], namespace)
  }

  lemma {:induction false} GenerationCounts(history: seq<seq<string>>)
    requires Invalidations(history)
    ensures After(history).generation == |history|
    ensures After(history).allInvalidatedAt <= |history|
    ensures forall n :: LastAt(After(history), n) <= |history|
  {
    if history != [] {
      var earlier := history[..|history| - 1];
      GenerationCounts(earlier);
      forall n ensures LastAt(After(history), n) <= |history| {
        assert LastAt(After(earlier), n) <= |earlier|;
      }
    }
  }

  /** The compressed record answers exactly what the full history would, for every namespace and epoch. */
  lemma {:induction false} EpochsExact(history: seq<seq<string>>, namespace: string, since: nat)
    requires Invalidations(history)
    ensures Stale(After(history), namespace, since) <==> CoveredSince(history, namespace, since)
  {
    GenerationCounts(history);
    if history != [] {
      var n := |history| - 1;
      var earlier := history[..n];
      EpochsExact(earlier, namespace, since);
      GenerationCounts(earlier);
      assert CoveredSince(history, namespace, since)
             <==> CoveredSince(earlier, namespace, since) || (since <= n && Covers(history[n], namespace)) by {
        if k :| since <= k < |earlier| && Covers(earlier[k], namespace) { assert Covers(history[k], namespace); }
        if k :| since <= k < |history| && Covers(history[k], namespace) {
          if k < n { assert Covers(earlier[k], namespace); }
        }
      }
    }
  }
}
