/**
 Registering group versions with the aggregation layer, when other installations of the same program do so too.

 The API server is a map of registrations, each with the version its last write gave it. An installation acts on
 what its cache says, which may be out of date; what it writes is refused unless it is based on the latest version.
 */
module Registrations {
  import opened Results
  import opened Text

  datatype Service = Service(name: string, namespace: string)

  datatype GroupVersion = GroupVersion(group: string, version: string)

  /** What a registration says; `details` stands for the priorities, the port and the certificates. */
  datatype Content = Content(gv: GroupVersion, service: Service, details: nat)

  datatype Registration = Registration(managed: bool, content: Content, owners: seq<string>, version: nat)

  datatype Options = Options(enabled: bool, service: Service, details: nat, allowedSuffixes: seq<string>)

  /** `groupAllowed`. */
  predicate GroupAllowed(options: Options, group: string) {
    |options.allowedSuffixes| == 0
    || exists i :: 0 <= i < |options.allowedSuffixes| && Under(group, options.allowedSuffixes[i])
  }

  predicate Under(group: string, suffix: string) {
    suffix != "" && (group == suffix || EndsWith(group, "." + suffix))
  }

  predicate EndsWith(s: string, end: string) {
    |end| <= |s| && s[|s| - |end|..] == end
  }

  /** The labels of the group end in those of the suffix: under `b.c` there is `a.b.c`, and not `ab.c`. */
  lemma UnderByLabels(group: string, suffix: string)
    ensures Under(group, suffix) <==>
      && suffix != "" && |Split(suffix, '.')| <= |Split(group, '.')|
      && Split(group, '.')[|Split(group, '.')| - |Split(suffix, '.')|..] == Split(suffix, '.')
  {
    hide Split, Join;
    var g, s := Split(group, '.'), Split(suffix, '.');
    var k := |g| - |s|;
    JoinSplit(group, '.');
    JoinSplit(suffix, '.');
    if EndsWith(group, "." + suffix) {
      var front := group[..|group| - |suffix| - 1];
      assert group == front + ['.'] + suffix;
      SplitConcat(front, suffix, '.');
      assert g == Split(front, '.') + s;
    }
    if k > 0 && g[k..] == s {
      assert g == g[..k] + s;
      JoinConcat(g[..k], s, '.');
      var front := Join(g[..k], '.');
      assert group == front + ("." + suffix);
    }
    if k == 0 && g[k..] == s { assert g == s; }
  }

  /** `routesHere`. */
  predicate RoutesHere(options: Options, existing: Registration) {
    existing.content.service.name != "" && existing.content.service == options.service
  }

  /** `owns`. */
  predicate Owns(options: Options, existing: Registration) {
    existing.managed && RoutesHere(options, existing)
  }

  function NameOf(gv: GroupVersion): string {
    gv.version + "." + gv.group
  }

  /** A registration's name is its version and the labels of its group. */
  lemma NameByLabels(gv: GroupVersion)
    requires '.' !in gv.version
    ensures Split(NameOf(gv), '.') == [gv.version] + Split(gv.group, '.')
  {
    hide Split;
    assert NameOf(gv) == gv.version + ['.'] + gv.group;
    SplitConcat(gv.version, gv.group, '.');
    SplitOne(gv.version, '.');
  }

  /** So group versions whose versions have no dot, as Kubernetes asks, have names of their own. */
  lemma NamesApart(a: GroupVersion, b: GroupVersion)
    requires '.' !in a.version && '.' !in b.version && NameOf(a) == NameOf(b)
    ensures a == b
  {
    hide Split, Join;
    NameByLabels(a);
    NameByLabels(b);
    var x, y := [a.version] + Split(a.group, '.'), [b.version] + Split(b.group, '.');
    assert x[0] == a.version && y[0] == b.version && x[1..] == Split(a.group, '.') && y[1..] == Split(b.group, '.');
    JoinSplit(a.group, '.');
    JoinSplit(b.group, '.');
  }

  function Wanted(options: Options, gv: GroupVersion): Content {
    Content(gv, options.service, options.details)
  }

  /** The registrations, the next version, and every version of a registration that ever was. */
  datatype State = State(server: map<string, Registration>, next: nat, written: map<nat, (string, Registration)>)

  /** A version belongs to one write of one name. */
  ghost predicate Versioned(s: State) {
    && (forall n :: n in s.server ==>
          s.server[n].version in s.written && s.written[s.server[n].version] == (n, s.server[n]))
    && (forall v :: v in s.written ==> v < s.next && s.written[v].1.version == v)
  }

  /** What a cache may hold for a name: nothing, or any version there has been. */
  ghost predicate Cached(s: State, name: string, cached: Option<Registration>) {
    cached.Some? ==> cached.value.version in s.written && s.written[cached.value.version] == (name, cached.value)
  }

  function Put(s: State, name: string, managed: bool, content: Content, owners: seq<string>): State {
    var registration := Registration(managed, content, owners, s.next);
    State(s.server[name := registration], s.next + 1, s.written[s.next := (name, registration)])
  }

  datatype Outcome = Done | NotAllowed | ServedElsewhere | Gone

  /** `ensure`, on what a cache holds. */
  function Ensured(s: State, options: Options, gv: GroupVersion, owners: seq<string>,
                   cached: Option<Registration>): State {
    var name := NameOf(gv);
    if !GroupAllowed(options, gv.group) then s
    else if cached.None? then
      if name in s.server then s else Put(s, name, true, Wanted(options, gv), owners)
    else if !Owns(options, cached.value) then s
    else if cached.value.content == Wanted(options, gv) && cached.value.owners == owners then s
    else if name in s.server && s.server[name].version == cached.value.version then
      Put(s, name, true, Wanted(options, gv), owners)
    else s
  }

  /** Deleting goes by name, whatever is there by then. */
  function Deleted(s: State, name: string): State {
    s.(server := s.server - {name})
  }

  /** What an installation does: ensures a registration on what its cache holds, or deletes one it has listed. */
  datatype Step =
    | Ensure(gv: GroupVersion, owners: seq<string>, cached: Option<Registration>)
    | Delete(name: string, listed: Registration, keep: set<string>)

  function After(s: State, options: Options, step: Step): State {
    match step
    case Ensure(gv, owners, cached) => Ensured(s, options, gv, owners, cached)
    case Delete(name, _, _) => Deleted(s, name)
  }

  /** A cache and a listing hold versions there have been; what is listed is owned and not kept. */
  ghost predicate Allowed(s: State, options: Options, step: Step) {
    match step
    case Ensure(gv, _, cached) => Cached(s, NameOf(gv), cached)
    case Delete(name, listed, keep) => Cached(s, name, Some(listed)) && Owns(options, listed) && name !in keep
  }

  /** A deletion that comes late: what is there is not what was listed. */
  ghost predicate Late(s: State, step: Step) {
    step.Delete? && step.name in s.server && s.server[step.name].version != step.listed.version
  }

  lemma StepVersioned(s: State, options: Options, step: Step)
    requires Versioned(s)
    ensures Versioned(After(s, options, step)) && s.written.Keys <= After(s, options, step).written.Keys
    ensures forall v :: v in s.written ==> After(s, options, step).written[v] == s.written[v]
  {
  }

  /** A registration that `y` owns is as it was. */
  ghost predicate Untouched(s: State, s': State, y: Options, name: string) {
    name in s.server && Owns(y, s.server[name]) ==> name in s'.server && s'.server[name] == s.server[name]
  }

  /**
   No step of one installation changes or deletes a registration that one with another Service owns, unless it deletes
   that name on a listing that is out of date; and then it always does.
   */
  lemma StepLeavesOthers(s: State, x: Options, y: Options, step: Step, name: string)
    requires Versioned(s) && Allowed(s, x, step) && x.service != y.service
    requires name in s.server && Owns(y, s.server[name])
    ensures Untouched(s, After(s, x, step), y, name) <==> !(step.Delete? && step.name == name)
    ensures step.Delete? && step.name == name ==> Late(s, step)
  {
  }

  /** A deletion takes a registration from `y` exactly when the name now holds one that `y` owns. */
  lemma DeletionTakes(s: State, x: Options, y: Options, step: Step)
    requires Versioned(s) && Allowed(s, x, step) && x.service != y.service && step.Delete?
    ensures (exists n :: !Untouched(s, After(s, x, step), y, n)) <==>
        step.name in s.server && Owns(y, s.server[step.name])
    ensures (exists n :: !Untouched(s, After(s, x, step), y, n)) ==> Late(s, step)
  {
    var after := After(s, x, step);
    if step.name in s.server && Owns(y, s.server[step.name]) {
      StepLeavesOthers(s, x, y, step, step.name);
      assert !Untouched(s, after, y, step.name);
    }
  }

  // Runs.

  /** A step of an installation, or a write or deletion by anybody else. */
  datatype Event =
    | By(options: Options, step: Step)
    | Write(name: string, managed: bool, content: Content, owners: seq<string>)
    | Remove(name: string)

  function Happened(s: State, event: Event): State {
    match event
    case By(options, step) => After(s, options, step)
    case Write(name, managed, content, owners) => Put(s, name, managed, content, owners)
    case Remove(name) => s.(server := s.server - {name})
  }

  ghost predicate IsRun(states: seq<State>, events: seq<Event>) {
    && |states| == |events| + 1 && Versioned(states[0])
    && forall i :: 0 <= i < |events| ==>
         && (events[i].By? ==> Allowed(states[i], events[i].options, events[i].step))
         && states[i + 1] == Happened(states[i], events[i])
  }

  /**
   An event that may change what `y` has registered under `name`: one of its own, one by somebody else on that name, or
   another installation's deletion of it that comes late.
   */
  ghost predicate Concerns(s: State, event: Event, y: Options, name: string) {
    match event
    case By(options, step) => options.service == y.service || (Late(s, step) && step.name == name)
    case Write(n, _, _, _) => n == name
    case Remove(n) => n == name
  }

  lemma {:induction false} RunVersioned(states: seq<State>, events: seq<Event>, i: nat)
    requires IsRun(states, events) && i < |states|
    ensures Versioned(states[i])
  {
    if i > 0 {
      RunVersioned(states, events, i - 1);
      if events[i - 1].By? { StepVersioned(states[i - 1], events[i - 1].options, events[i - 1].step); }
    }
  }

  /** In any interleaving, what an installation owns stays as it is until it, or somebody on that name, changes it. */
  lemma {:induction false} OwnedStays(states: seq<State>, events: seq<Event>, y: Options, name: string, i: nat, j: nat)
    requires IsRun(states, events) && i <= j < |states|
    requires name in states[i].server && Owns(y, states[i].server[name])
    requires forall k :: i <= k < j ==> !Concerns(states[k], events[k], y, name)
    ensures name in states[j].server && states[j].server[name] == states[i].server[name]
  {
    hide Versioned, After, Allowed, Late;
    if i < j {
      OwnedStays(states, events, y, name, i, j - 1);
      RunVersioned(states, events, j - 1);
      var event := events[j - 1];
      if event.By? { StepLeavesOthers(states[j - 1], event.options, y, event.step, name); }
    }
  }

  /**
   A run in which a late deletion takes another installation's registration: `x` registers and lists, somebody removes
   the registration, `y` registers the group version for itself, and `x` deletes what it listed.
   */
  lemma LateDeletionInterferes(x: Options, y: Options, gv: GroupVersion, owners: seq<string>)
    returns (states: seq<State>, events: seq<Event>)
    requires x.service != y.service && x.service.name != "" && y.service.name != ""
    requires GroupAllowed(x, gv.group) && GroupAllowed(y, gv.group)
    ensures IsRun(states, events) && |states| == 5
    ensures events[3].By? && events[3].options == x && Late(states[3], events[3].step)
    ensures NameOf(gv) in states[3].server && Owns(y, states[3].server[NameOf(gv)])
    ensures !Untouched(states[3], states[4], y, NameOf(gv))
  {
    hide GroupAllowed;
    var name := NameOf(gv);
    var s0 := State(map[], 0, map[]);
    var ensure := Step.Ensure(gv, owners, None);
    var s1 := After(s0, x, ensure);
    var s2 := Happened(s1, Remove(name));
    var s3 := After(s2, y, ensure);
    var delete := Step.Delete(name, s1.server[name], {});
    events := [By(x, ensure), Remove(name), By(y, ensure), By(x, delete)];
    states := [s0, s1, s2, s3, After(s3, x, delete)];
  }

  // The controller.

  /** The names of the group versions in `gvs` that may be registered. */
  ghost function AllowedNames(options: Options, gvs: set<GroupVersion>): set<string> {
    set gv | gv in gvs && GroupAllowed(options, gv.group) :: NameOf(gv)
  }

  /** The names of the listed registrations that an installation owns and does not keep. */
  function Prunable(listed: map<string, Registration>, options: Options, keep: set<string>): set<string> {
    set n | n in listed && Owns(options, listed[n]) && n !in keep
  }

  /** A registration may be written: there is none, or one that is managed and leads to this very Service. */
  ghost predicate MayWrite(s: State, options: Options, name: string) {
    name in s.server ==>
      s.server[name].managed && s.server[name].content.service == options.service && options.service.name != ""
  }

  /** The name is registered for the group version, as the options and the owners have it. */
  ghost predicate IsRegistered(s: State, options: Options, gv: GroupVersion, owners: seq<string>) {
    var name := NameOf(gv);
    && name in s.server && s.server[name].managed && s.server[name].owners == owners
    && s.server[name].content.gv == gv && s.server[name].content.service == options.service
    && s.server[name].content.details == options.details
  }

  ghost predicate NamesDiffer(gvs: set<GroupVersion>) {
    forall a, b :: a in gvs && b in gvs && NameOf(a) == NameOf(b) ==> a == b
  }

  function OwnersOf(owners: map<GroupVersion, seq<string>>, gv: GroupVersion): seq<string> {
    if gv in owners then owners[gv] else []
  }

  /** A cache that is not behind. */
  ghost predicate IsCurrent(s: State, name: string, cached: Option<Registration>) {
    cached == if name in s.server then Some(s.server[name]) else None
  }

  /** Whether a name may be written, and is registered, goes by what it holds. */
  ghost predicate SameAt(s: State, s': State, name: string) {
    (name in s.server <==> name in s'.server) && (name in s.server ==> s.server[name] == s'.server[name])
  }

  lemma SameHere(s: State, s': State, options: Options, gv: GroupVersion, owners: seq<string>)
    requires SameAt(s, s', NameOf(gv))
    ensures MayWrite(s, options, NameOf(gv)) <==> MayWrite(s', options, NameOf(gv))
    ensures IsRegistered(s, options, gv, owners) <==> IsRegistered(s', options, gv, owners)
  {
  }

  /** Of `gvs`, what is allowed and could be written at first is registered, and not reported. */
  ghost predicate AllRegistered(before: State, s: State, options: Options, owners: map<GroupVersion, seq<string>>,
                                unregistered: map<GroupVersion, Outcome>, gvs: set<GroupVersion>) {
    forall gv :: gv in gvs && GroupAllowed(options, gv.group) && MayWrite(before, options, NameOf(gv)) ==>
      gv !in unregistered && IsRegistered(s, options, gv, OwnersOf(owners, gv))
  }

  ghost predicate NotYet(before: State, s: State, gvs: set<GroupVersion>) {
    forall gv :: gv in gvs ==> SameAt(before, s, NameOf(gv))
  }

  lemma OneMoreRegistered(before: State, s: State, s': State, options: Options, owners: map<GroupVersion, seq<string>>,
                          reported: map<GroupVersion, Outcome>, reported': map<GroupVersion, Outcome>,
                          done: set<GroupVersion>, rest: set<GroupVersion>, gv: GroupVersion)
    requires NamesDiffer(done + rest) && gv in rest && gv !in done
    requires AllRegistered(before, s, options, owners, reported, done) && NotYet(before, s, rest)
    requires forall n :: n != NameOf(gv) ==> SameAt(s, s', n)
    requires GroupAllowed(options, gv.group) && MayWrite(s, options, NameOf(gv)) ==>
      gv !in reported' && IsRegistered(s', options, gv, OwnersOf(owners, gv))
    requires reported'.Keys <= reported.Keys + {gv}
    ensures AllRegistered(before, s', options, owners, reported', done + {gv}) && NotYet(before, s', rest - {gv})
  {
    hide GroupAllowed, MayWrite, IsRegistered, NameOf;
    SameHere(before, s, options, gv, []);
    forall g | g in rest - {gv} ensures SameAt(before, s', NameOf(g)) {
      assert NameOf(g) == NameOf(gv) ==> g == gv;
      assert SameAt(before, s, NameOf(g)) && SameAt(s, s', NameOf(g));
    }
    forall g | g in done && GroupAllowed(options, g.group) && MayWrite(before, options, NameOf(g))
      ensures g !in reported' && IsRegistered(s', options, g, OwnersOf(owners, g))
    {
      SameHere(s, s', options, g, OwnersOf(owners, g));
    }
  }

  lemma CurrentStill(before: State, s: State, gvs: set<GroupVersion>, gv: GroupVersion)
    requires NotYet(before, s, gvs) && gv in gvs
    ensures var name := NameOf(gv);
      IsCurrent(s, name, if name in before.server then Some(before.server[name]) else None)
  {
    assert SameAt(before, s, NameOf(gv));
  }

  lemma NothingRegistered(s: State, options: Options, owners: map<GroupVersion, seq<string>>, gvs: set<GroupVersion>)
    ensures NotYet(s, s, gvs) && AllRegistered(s, s, options, owners, map[], {}) && Confined(s, s, options, gvs)
  {
  }

  /** Nothing has changed but what is allowed, among `gvs`, and could be written at first; and that is there. */
  ghost predicate Confined(before: State, s: State, options: Options, gvs: set<GroupVersion>) {
    forall n :: !SameAt(before, s, n) ==>
      n in s.server && n in AllowedNames(options, gvs) && MayWrite(before, options, n)
  }

  lemma ConfinedStep(before: State, s: State, s': State, options: Options, gvs: set<GroupVersion>, gv: GroupVersion)
    requires Confined(before, s, options, gvs) && gv in gvs && forall n :: n != NameOf(gv) ==> SameAt(s, s', n)
    requires !SameAt(s, s', NameOf(gv)) ==>
      NameOf(gv) in s'.server && GroupAllowed(options, gv.group) && MayWrite(s, options, NameOf(gv))
    ensures Confined(before, s', options, gvs)
  {
    hide GroupAllowed;
    assert GroupAllowed(options, gv.group) ==> NameOf(gv) in AllowedNames(options, gvs);
    forall n | !SameAt(before, s', n)
      ensures n in s'.server && n in AllowedNames(options, gvs) && MayWrite(before, options, n)
    {
      assert SameAt(before, s, n) ==> !SameAt(s, s', n);
      assert SameAt(s, s', n) || n == NameOf(gv);
    }
  }

  /** What is registered stays so when other names go. */
  lemma KeptRegistered(before: State, s: State, s': State, options: Options, owners: map<GroupVersion, seq<string>>,
                       reported: map<GroupVersion, Outcome>, served: set<GroupVersion>, declared: set<GroupVersion>,
                       gone: set<string>)
    requires AllRegistered(before, s, options, owners, reported, served) && s'.server == s.server - gone
    requires gone !! AllowedNames(options, served + declared)
    ensures AllRegistered(before, s', options, owners, reported, served)
  {
    hide GroupAllowed, MayWrite, IsRegistered, NameOf;
    forall gv | gv in served && GroupAllowed(options, gv.group) && MayWrite(before, options, NameOf(gv))
      ensures IsRegistered(s', options, gv, OwnersOf(owners, gv))
    {
      assert NameOf(gv) in AllowedNames(options, served + declared);
      SameHere(s, s', options, gv, OwnersOf(owners, gv));
    }
  }

  class Aggregator {
    var state: State

    constructor ()
      ensures Versioned(state) && state.server == map[]
    {
      state := State(map[], 0, map[]);
    }

    method Ensure(options: Options, gv: GroupVersion, owners: seq<string>, cached: Option<Registration>)
      returns (outcome: Outcome)
      requires Versioned(state) && Cached(state, NameOf(gv), cached)
      modifies this
      ensures Versioned(state) && state == Ensured(old(state), options, gv, owners, cached)
      ensures outcome.NotAllowed? <==> !GroupAllowed(options, gv.group)
      ensures outcome.ServedElsewhere? <==>
        GroupAllowed(options, gv.group) && cached.Some? && !RoutesHere(options, cached.value)
      ensures outcome.Done? && cached.None? ==> NameOf(gv) in state.server
      ensures forall n :: n != NameOf(gv) ==> SameAt(old(state), state, n)
      ensures GroupAllowed(options, gv.group) && MayWrite(old(state), options, NameOf(gv)) ==>
                IsCurrent(old(state), NameOf(gv), cached) ==> outcome.Done? && IsRegistered(state, options, gv, owners)
      ensures !GroupAllowed(options, gv.group) || !MayWrite(old(state), options, NameOf(gv)) ==> state == old(state)
      ensures !IsCurrent(old(state), NameOf(gv), cached) ==> state == old(state)
    {
      hide GroupAllowed;
      StepVersioned(state, options, Step.Ensure(gv, owners, cached));
      var name := NameOf(gv);
      if !GroupAllowed(options, gv.group) { return NotAllowed; }
      if cached.None? {
        if name !in state.server { state := Put(state, name, true, Wanted(options, gv), owners); }
        return Done;
      }
      var existing := cached.value;
      if !Owns(options, existing) {
        if !RoutesHere(options, existing) { return ServedElsewhere; }
        return Done;
      }
      if existing.content == Wanted(options, gv) && existing.owners == owners { return Done; }
      if name !in state.server { return Gone; }
      if state.server[name].version == existing.version {
        state := Put(state, name, true, Wanted(options, gv), owners);
      }
      return Done;
    }

    /** `prune`: what the listing says is owned, and is not kept, is deleted by name. */
    method Prune(options: Options, keep: set<string>, listed: map<string, Registration>)
      requires Versioned(state)
      modifies this
      ensures Versioned(state) && state == old(state).(server := old(state).server - Prunable(listed, options, keep))
    {
      ghost var before := state;
      var all := Prunable(listed, options, keep);
      var rest := all;
      while rest != {}
        invariant rest <= all && state == before.(server := before.server - (all - rest))
        decreases |rest|
      {
        var name :| name in rest;
        assert before.server - (all - rest) - {name} == before.server - (all - (rest - {name}));
        state := Deleted(state, name);
        rest := rest - {name};
      }
      assert all - rest == all;
    }

    /** Registers what is served, one group version after another, going by the cache. */
    method EnsureAll(options: Options, served: set<GroupVersion>, owners: map<GroupVersion, seq<string>>,
                     cache: map<string, Registration>) returns (unregistered: map<GroupVersion, Outcome>)
      requires Versioned(state) && forall n :: n in cache ==> Cached(state, n, Some(cache[n]))
      modifies this
      ensures Versioned(state) && Confined(old(state), state, options, served)
      ensures forall gv :: gv in served && !GroupAllowed(options, gv.group) ==>
                gv in unregistered && unregistered[gv] == NotAllowed
      ensures unregistered.Keys <= served
      ensures cache == old(state).server && NamesDiffer(served) ==>
                AllRegistered(old(state), state, options, owners, unregistered, served)
    {
      hide GroupAllowed, Owns, IsRegistered, MayWrite, AllRegistered, NotYet, NamesDiffer, Confined, Ensured, NameOf,
           Versioned;
      ghost var before := state;
      unregistered := map[];
      var rest := served;
      NothingRegistered(before, options, owners, served);
      assert served - rest == {};
      while rest != {}
        invariant rest <= served && Versioned(state) && Confined(before, state, options, served)
        invariant forall n :: n in cache ==> Cached(state, n, Some(cache[n]))
        invariant forall gv :: gv in served - rest && !GroupAllowed(options, gv.group) ==>
                    gv in unregistered && unregistered[gv] == NotAllowed
        invariant unregistered.Keys <= served - rest
        invariant cache == before.server && NamesDiffer(served) ==>
                    && NotYet(before, state, rest)
                    && AllRegistered(before, state, options, owners, unregistered, served - rest)
        decreases |rest|
      {
        var gv :| gv in rest;
        ghost var s0, rest0, reported := state, rest, unregistered;
        rest := rest - {gv};
        var name := NameOf(gv);
        var cached := if name in cache then Some(cache[name]) else None;
        EnsuredFrame(s0, options, gv, OwnersOf(owners, gv), cached);
        var outcome := Ensure(options, gv, OwnersOf(owners, gv), cached);
        if !outcome.Done? { unregistered := unregistered[gv := outcome]; }
        ConfinedStep(before, s0, state, options, served, gv);
        if cache == before.server && NamesDiffer(served) {
          assert served - rest0 + rest0 == served && served - rest == served - rest0 + {gv};
          CurrentStill(before, s0, rest0, gv);
          OneMoreRegistered(before, s0, state, options, owners, reported, unregistered, served - rest0, rest0, gv);
        }
      }
      assert served - rest == served;
    }

    /**
     `reconcile`, on what a cache holds: a registration for a declared group version that is allowed stays, whatever is
     served; another installation's is changed exactly when the cache still has an unwanted one of one's own under its
     name; and of what the cache has of one's own nothing is left that is neither served nor declared.
     */
    method Reconcile(options: Options, served: set<GroupVersion>, owners: map<GroupVersion, seq<string>>,
                     declared: set<GroupVersion>, cache: map<string, Registration>)
      returns (unregistered: map<GroupVersion, Outcome>)
      requires Versioned(state) && forall n :: n in cache ==> Cached(state, n, Some(cache[n]))
      modifies this
      ensures Versioned(state) && (!options.enabled ==> state == old(state))
      ensures forall gv :: gv in declared && GroupAllowed(options, gv.group) && NameOf(gv) in old(state).server ==>
                NameOf(gv) in state.server
      ensures options.enabled ==> forall y: Options, n ::
                y.service != options.service && n in old(state).server && Owns(y, old(state).server[n]) ==>
                  (Untouched(old(state), state, y, n) <==> n !in Unwanted(options, served + declared, cache))
      ensures options.enabled ==> forall n :: n in Unwanted(options, served + declared, cache) ==> n !in state.server
      ensures options.enabled && cache == old(state).server ==>
          forall n :: n in state.server && Owns(options, state.server[n]) ==>
                n in AllowedNames(options, served + declared)
      ensures options.enabled && cache == old(state).server && NamesDiffer(served) ==>
                AllRegistered(old(state), state, options, owners, unregistered, served)
      ensures cache == old(state).server ==> forall n :: n in old(state).server && !MayWrite(old(state), options, n) ==>
                n in state.server && state.server[n] == old(state).server[n]
    {
      if !options.enabled { return map[]; }
      hide GroupAllowed, Versioned, Cached, AllRegistered, IsRegistered, NamesDiffer, NameOf;
      unregistered := EnsureAll(options, served, owners, cache);
      ghost var ensured := state;
      var keep := set gv | gv in served + declared && GroupAllowed(options, gv.group) :: NameOf(gv);
      Prune(options, keep, cache);
      if cache == old(state).server && NamesDiffer(served) {
        KeptRegistered(old(state), ensured, state, options, owners, unregistered, served, declared,
                       Prunable(cache, options, keep));
      }
    }
  }

  /** What a cache has of an installation's own for group versions that are not among `gvs` or not allowed. */
  ghost function Unwanted(options: Options, gvs: set<GroupVersion>, cache: map<string, Registration>): set<string> {
    Prunable(cache, options, AllowedNames(options, gvs))
  }

  /** With a cache that is up to date, no name of another installation's is unwanted. */
  lemma CurrentCacheSpares(s: State, options: Options, y: Options, gvs: set<GroupVersion>, name: string)
    requires options.service != y.service && name in s.server && Owns(y, s.server[name])
    ensures name !in Unwanted(options, gvs, s.server)
  {
  }

  /** What `ensure` can do to the server: at most write the one name, and never take one from another Service. */
  lemma EnsuredFrame(s: State, options: Options, gv: GroupVersion, owners: seq<string>, cached: Option<Registration>)
    requires Versioned(s) && Cached(s, NameOf(gv), cached)
    ensures var after := Ensured(s, options, gv, owners, cached);
      && s.server.Keys <= after.server.Keys <= s.server.Keys + {NameOf(gv)}
      && (forall n :: n in s.server && n != NameOf(gv) ==> after.server[n] == s.server[n])
      && (after.server != s.server ==> GroupAllowed(options, gv.group))
      && (forall n, r :: Cached(s, n, Some(r)) ==> Cached(after, n, Some(r)))
    ensures forall y: Options, n :: y.service != options.service && n in s.server && Owns(y, s.server[n]) ==>
              Ensured(s, options, gv, owners, cached).server[n] == s.server[n]
  {
    StepVersioned(s, options, Step.Ensure(gv, owners, cached));
    forall y: Options, n | y.service != options.service && n in s.server && Owns(y, s.server[n])
      ensures Ensured(s, options, gv, owners, cached).server[n] == s.server[n]
    {
      StepLeavesOthers(s, options, y, Step.Ensure(gv, owners, cached), n);
    }
  }
}
