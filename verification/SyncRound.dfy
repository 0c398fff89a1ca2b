/** What one sync decides for each projection, and what it has to keep track of while it goes through them. */
module SyncRound {
  import opened Claims
  import opened ClaimOutcomes
  import opened Lifecycle
  import opened Results
  import opened Surface

  /**
   What the outside world makes of a projection: where an attempt to compile it would stop. `shapes` are the versions
   whose storages get built, all of them when `complete`, and otherwise those before the one that fails.
   */
  datatype Attempt =
    | GroupRefused
    | NotPrepared(reached: seq<string>)
    | Prepared(fingerprint: string, poolKey: string, readPoolKey: string, shapes: seq<Resource>, complete: bool,
               installs: bool)

  /** A projection as a sync finds it; `standing` is that of a cluster object. */
  datatype Candidate = Candidate(name: string, fromFile: bool, created: int, standing: Option<Standing>,
                                 attempt: Attempt)

  predicate Compiles(attempt: Attempt) {
    attempt.Prepared? && attempt.complete && attempt.installs
  }

  /** What a sync can rely on: fingerprints are digests, and the installer takes no plural but a path segment. */
  ghost predicate Possible(attempt: Attempt) {
    && (attempt.Prepared? ==> attempt.fingerprint != "")
    && (Compiles(attempt) ==> forall i :: 0 <= i < |attempt.shapes| ==>
          attempt.shapes[i].plural != "" && '/' !in attempt.shapes[i].plural)
  }

  /** The fingerprint recorded for a name, empty when there is none. */
  function FingerprintOf(compiled: Compiled, n: string): string {
    if n in compiled then compiled[n].fingerprint else ""
  }

  ghost predicate Unchanged(before: Compiled, cand: Candidate) {
    cand.attempt.Prepared? && cand.name in before && before[cand.name].fingerprint == cand.attempt.fingerprint
  }

  /** A changed projection whose compilation fails after storages of an earlier version were built. */
  ghost predicate PartWay(before: Compiled, cand: Candidate) {
    && cand.attempt.Prepared? && !Unchanged(before, cand)
    && !cand.attempt.complete && cand.attempt.shapes != []
  }

  ghost predicate NonePartWay(before: Compiled, cands: seq<Candidate>) {
    forall i :: 0 <= i < |cands| ==> !PartWay(before, cands[i])
  }

  /** What is compiled anew: what has changed, compiles, and installs on its own. */
  ghost predicate Renews(before: Compiled, cand: Candidate) {
    && Compiles(cand.attempt) && !Unchanged(before, cand) && !Clash(cand.attempt.shapes)
  }

  /** What keeps serving as it did: what has not changed, or has failed on the side that compiled it. */
  ghost predicate Keeps(before: Compiled, cand: Candidate) {
    || Unchanged(before, cand)
    || (!cand.attempt.GroupRefused? && !Renews(before, cand)
        && cand.name in before && before[cand.name].fromFile == cand.fromFile)
  }

  /** `decided` has what a candidate comes to, and nothing when it comes to nothing. */
  ghost predicate Chosen(before: Compiled, cand: Candidate, decided: Compiled) {
    && (cand.name in decided <==> Renews(before, cand) || Keeps(before, cand))
    && (Keeps(before, cand) && cand.name in decided ==>
          decided[cand.name] == before[cand.name].(fromFile := cand.fromFile))
    && (Renews(before, cand) && cand.name in decided ==> NewlyBuilt(cand, decided[cand.name]))
  }

  ghost predicate NewlyBuilt(cand: Candidate, compilation: Compilation)
    requires Compiles(cand.attempt)
  {
    && compilation.fingerprint == cand.attempt.fingerprint && compilation.fromFile == cand.fromFile
    && exists next: nat, pool: nat, readPool: nat ::
         compilation.resources == Built(cand.attempt.shapes, next, cand.attempt.poolKey, pool,
                                        cand.attempt.readPoolKey, readPool)
  }

  /**
   What a candidate comes to, in words. One that compiles and can be installed is decided as it is now, whether it had
   changed or not. One that does not keeps the compilation the same side of its name had, and otherwise has none; and
   one whose group is refused has none unless nothing about it has changed.
   */
  lemma ChosenInWords(before: Compiled, cand: Candidate, decided: Compiled)
    requires Chosen(before, cand, decided)
    ensures Compiles(cand.attempt) && !Clash(cand.attempt.shapes) ==>
      && cand.name in decided && decided[cand.name].fingerprint == cand.attempt.fingerprint
      && decided[cand.name].fromFile == cand.fromFile
    ensures !cand.attempt.Prepared? && !cand.attempt.GroupRefused? ==>
      (cand.name in decided <==> cand.name in before && before[cand.name].fromFile == cand.fromFile)
    ensures !cand.attempt.Prepared? && cand.name in decided ==> decided[cand.name] == before[cand.name]
    ensures cand.attempt.GroupRefused? ==> cand.name !in decided
    ensures cand.attempt.Prepared? && cand.name in decided ==>
      || decided[cand.name].fingerprint == cand.attempt.fingerprint
      || (cand.name in before && decided[cand.name] == before[cand.name]
          && !(Compiles(cand.attempt) && !Clash(cand.attempt.shapes)))
  {
  }

  /** The failure reported of a candidate before claims are settled, if any. */
  ghost predicate FailedRightly(before: Compiled, cand: Candidate, failures: map<string, Failure>, stale: set<string>) {
    && (cand.name in failures <==> !Renews(before, cand) && !Unchanged(before, cand))
    && (cand.name in failures ==>
          failures[cand.name] == if cand.attempt.GroupRefused? then GroupNotAllowed else CompilationFailed)
    && (cand.name in stale <==> Keeps(before, cand) && !Unchanged(before, cand))
  }

  // Pools.

  ghost predicate Pooled(res: Resource, pools: map<string, nat>) {
    && res.poolKey in pools && pools[res.poolKey] == res.pool
    && (res.readPoolKey != "" ==> res.readPoolKey in pools && pools[res.readPoolKey] == res.readPool)
  }

  /** The pool keys a list of resources reads and writes through. */
  function KeysOf(resources: seq<Resource>): set<string> {
    set i, k | 0 <= i < |resources| && k in KeysOfOne(resources[i]) :: k
  }

  function KeysOfOne(res: Resource): set<string> {
    {res.poolKey} + if res.readPoolKey != "" then {res.readPoolKey} else {}
  }

  /** What holds of every compilation kept or made: it can be installed, and its pools are the cached ones. */
  ghost predicate Sound(compilation: Compilation, pools: map<string, nat>) {
    && compilation.fingerprint != "" && Servable(compilation.resources)
    && forall i :: 0 <= i < |compilation.resources| ==> Pooled(compilation.resources[i], pools)
  }

  ghost predicate AllSound(compiled: Compiled, pools: map<string, nat>) {
    forall n :: n in compiled ==> Sound(compiled[n], pools)
  }

  ghost predicate Extends(pools: map<string, nat>, more: map<string, nat>) {
    forall k :: k in pools ==> k in more && more[k] == pools[k]
  }

  lemma SoundWithMore(compiled: Compiled, pools: map<string, nat>, more: map<string, nat>)
    requires AllSound(compiled, pools) && Extends(pools, more)
    ensures AllSound(compiled, more)
  {
  }

  // The loop over the candidates.

  /** Everything decided so far can be served, and what it replaces is what has been retired. */
  ghost predicate InProgress(before: Compiled, pools: map<string, nat>, next: nat, decided: Compiled,
                             renewed: set<string>, retired: set<nat>) {
    && Decided(before, decided, renewed) && AllSound(decided, pools)
    && (forall n :: n in decided ==> (n in renewed <==> decided[n].fingerprint != FingerprintOf(before, n)))
    && retired == OwnedBy(before, renewed)
    && (forall x :: x in Owned(decided) ==> x < next)
  }

  /** The names whose fingerprint is not the recorded one. */
  function Renewed(before: Compiled, decided: Compiled): set<string> {
    set n | n in decided && decided[n].fingerprint != FingerprintOf(before, n)
  }

  lemma RenewedNames(before: Compiled, pools: map<string, nat>, next: nat, decided: Compiled,
                     renewed: set<string>, retired: set<nat>)
    requires InProgress(before, pools, next, decided, renewed, retired)
    ensures renewed == Renewed(before, decided)
  {
  }

  lemma Started(before: Compiled, pools: map<string, nat>, next: nat)
    requires Separate(before)
    ensures InProgress(before, pools, next, map[], {}, {}) && OwnedBy(map[], {}) == {}
  {
  }

  lemma KeepStep(before: Compiled, pools: map<string, nat>, next: nat, decided: Compiled, renewed: set<string>,
                 retired: set<nat>, n: string, fromFile: bool)
    requires InProgress(before, pools, next, decided, renewed, retired) && n !in decided
    requires n in before && Sound(before[n], pools) && forall x :: x in Owned(before) ==> x < next
    ensures var more := decided[n := before[n].(fromFile := fromFile)];
      InProgress(before, pools, next, more, renewed, retired) && OwnedBy(more, renewed) == OwnedBy(decided, renewed)
  {
    hide StoragesIn, Servable, Pooled;
    var more := decided[n := before[n].(fromFile := fromFile)];
    OwnedByOthers(decided, renewed, n, before[n].(fromFile := fromFile));
    forall m | m in decided ensures StoragesIn(decided[m].resources) !! StoragesIn(before[n].resources) {
      if m in renewed {
        assert StoragesIn(decided[m].resources) <= OwnedBy(decided, renewed);
        assert StoragesIn(before[n].resources) <= Owned(before);
      }
    }
    forall x | x in Owned(more) ensures x < next {
      var m :| m in more && x in StoragesIn(more[m].resources);
      assert m == n ==> x in Owned(before);
      assert m != n ==> x in Owned(decided);
    }
  }

  lemma RenewStep(before: Compiled, pools: map<string, nat>, next: nat, decided: Compiled, renewed: set<string>,
                  retired: set<nat>, n: string, made: Compilation, next': nat)
    requires InProgress(before, pools, next, decided, renewed, retired) && n !in decided && next <= next'
    requires made.fingerprint != FingerprintOf(before, n) && Sound(made, pools)
    requires forall x :: x in Owned(before) ==> x < next
    requires forall x :: x in StoragesIn(made.resources) ==> next <= x < next'
    ensures var more := decided[n := made];
      && InProgress(before, pools, next', more, renewed + {n}, retired + OwnedBy(before, {n}))
      && OwnedBy(more, renewed + {n}) == OwnedBy(decided, renewed) + StoragesIn(made.resources)
  {
    hide StoragesIn, Servable, Pooled;
    var more := decided[n := made];
    assert OwnedBy(before, renewed + {n}) == OwnedBy(before, renewed) + OwnedBy(before, {n});
    OwnedByOthers(decided, renewed, n, made);
    OwnedByOneMore(more, renewed, n);
    forall m | m in decided ensures StoragesIn(decided[m].resources) !! StoragesIn(made.resources) {
      assert StoragesIn(decided[m].resources) <= Owned(decided);
    }
    forall x | x in Owned(more) ensures x < next' {
      var m :| m in more && x in StoragesIn(more[m].resources);
      assert m != n ==> x in Owned(decided);
    }
  }

  lemma MorePools(before: Compiled, pools: map<string, nat>, next: nat, decided: Compiled, renewed: set<string>,
                  retired: set<nat>, more: map<string, nat>)
    requires InProgress(before, pools, next, decided, renewed, retired) && Extends(pools, more)
    ensures InProgress(before, more, next, decided, renewed, retired)
  {
  }

  /** What a candidate has compiled to is fit to be served. */
  lemma BuiltIsSound(attempt: Attempt, next: nat, pool: nat, readPool: nat, pools: map<string, nat>)
    requires Possible(attempt) && Compiles(attempt) && !Clash(attempt.shapes)
    requires attempt.poolKey in pools && pools[attempt.poolKey] == pool
    requires attempt.readPoolKey != "" ==> attempt.readPoolKey in pools && pools[attempt.readPoolKey] == readPool
    ensures var resources := Built(attempt.shapes, next, attempt.poolKey, pool, attempt.readPoolKey, readPool);
      forall fromFile :: Sound(Compilation(attempt.fingerprint, resources, fromFile), pools)
  {
  }

  // Settling.

  function ResourcesOf(decided: Compiled): (r: map<string, seq<Resource>>)
    ensures r.Keys == decided.Keys
  {
    map n | n in decided :: decided[n].resources
  }

  /** The creation times and standings of the candidates that are not refused their name. */
  function FieldOf(cands: seq<Candidate>): Field {
    if cands == [] then Field(map[], map[])
    else
      var last := cands[|cands| - 1];
      var field := FieldOf(cands[..|cands| - 1]);
      Field(field.created[last.name := last.created],
            if last.standing.Some? then field.standing[last.name := last.standing.value] else field.standing)
  }

  /** The candidates whose names are theirs to use. */
  function Considered(files: seq<Candidate>, objects: seq<Candidate>): seq<Candidate> {
    files + Unreserved(objects, set i | 0 <= i < |files| :: files[i].name)
  }

  function Unreserved(objects: seq<Candidate>, taken: set<string>): seq<Candidate> {
    if objects == [] then []
    else
      var last := objects[|objects| - 1];
      Unreserved(objects[..|objects| - 1], taken) + if last.name in taken then [] else [last]
  }

  /** What one sync is given. */
  datatype Round = Round(files: seq<Candidate>, objects: seq<Candidate>, installs: bool) {
    ghost predicate Given() {
      && DistinctNames(files) && DistinctNames(objects)
      && forall c :: c in files || c in objects ==> Possible(c.attempt)
    }
  }

  /** No candidate has storages built that a sync would install. */
  ghost predicate BuildsNone(before: Compiled, cands: seq<Candidate>) {
    forall i :: 0 <= i < |cands| ==> !(Renews(before, cands[i]) && cands[i].attempt.shapes != [])
  }

  /**
   A round that leaves no storage behind: the rebuild is taken, or there is nothing new to install, and no compilation
   stops part way.
   */
  ghost predicate LeavesNone(before: Compiled, round: Round) {
    var cands := Considered(round.files, round.objects);
    (round.installs || BuildsNone(before, cands)) && NonePartWay(before, cands)
  }

  ghost predicate DistinctNames(cands: seq<Candidate>) {
    forall i, j :: 0 <= i < j < |cands| ==> cands[i].name != cands[j].name
  }

  lemma {:induction false} UnreservedMembers(objects: seq<Candidate>, taken: set<string>)
    requires DistinctNames(objects)
    ensures DistinctNames(Unreserved(objects, taken))
    ensures forall c :: c in Unreserved(objects, taken) <==> c in objects && c.name !in taken
  {
    if objects != [] {
      var k := |objects| - 1;
      UnreservedMembers(objects[..k], taken);
      assert objects == objects[..k] + [objects[k]];
      var front := Unreserved(objects[..k], taken);
      forall i | 0 <= i < |front| ensures front[i].name != objects[k].name {
        assert front[i] in objects[..k];
      }
    }
  }

  lemma ConsideredDistinct(files: seq<Candidate>, objects: seq<Candidate>)
    requires DistinctNames(files) && DistinctNames(objects)
    ensures DistinctNames(Considered(files, objects))
    ensures forall c :: c in Considered(files, objects) ==> c in files || c in objects
  {
    var taken := set i | 0 <= i < |files| :: files[i].name;
    UnreservedMembers(objects, taken);
    var rest := Unreserved(objects, taken);
    forall i, j | 0 <= i < |files| && 0 <= j < |rest| ensures files[i].name != rest[j].name {
      assert rest[j] in rest;
    }
  }

  /** The failures and fallbacks a sync ends with: those that lost a claim have failed, and are not served as before. */
  ghost predicate ReportedRightly(decided: Compiled, final: set<string>, failures: map<string, Failure>,
                                  stale: set<string>) {
    forall n :: n in decided ==>
      && (n in final ==> n !in failures || n in stale)
      && (n !in final ==> n in failures && failures[n].ClaimLost? && n !in stale)
  }

  /** So the statuses written for a sync are those that `StatusFeedback` and `EditsKeepLosers` speak of. */
  lemma ReportsFollow(decided: Compiled, final: set<string>, failures: map<string, Failure>, stale: set<string>,
                      reports: map<string, Report>)
    requires final <= decided.Keys && reports.Keys == decided.Keys && ReportedRightly(decided, final, failures, stale)
    requires forall n :: n in reports ==>
               && reports[n].failure == (if n in failures then Some(failures[n]) else None)
               && reports[n].servingPrevious == (n in stale)
    ensures Reports(WantsOf(ResourcesOf(decided)), final, reports)
  {
  }
}
