/** The served resources, and the arrangement of their storages that the router refuses when two share a path. */
module Surface {
  import opened Results

  /** A resource of one version of one projection; storages and pools are named by what identifies them. */
  datatype Resource = Resource(
    group: string, version: string, plural: string, singular: string, shortNames: seq<string>,
    kind: string, listKind: string,
    storage: nat, status: Option<nat>, scale: Option<nat>,
    poolKey: string, pool: nat, readPoolKey: string, readPool: nat)

  type Storages = map<string, map<string, map<string, nat>>>

  /** The paths a resource is installed under in its group version. */
  function Paths(res: Resource): map<string, nat> {
    map[res.plural := res.storage]
    + (if res.status.Some? then map[res.plural + "/status" := res.status.value] else map[])
    + (if res.scale.Some? then map[res.plural + "/scale" := res.scale.value] else map[])
  }

  predicate SameGroupVersion(a: Resource, b: Resource) {
    a.group == b.group && a.version == b.version
  }

  /** A resource whose path an earlier one of the same group version already has. */
  ghost predicate Clash(resources: seq<Resource>) {
    exists i, j :: 0 <= i < j < |resources| && Taken(resources[i], resources[j])
  }

  predicate Taken(earlier: Resource, later: Resource) {
    SameGroupVersion(earlier, later) && later.plural in Paths(earlier)
  }

  function At(byGroup: Storages, group: string, version: string): map<string, nat> {
    if group in byGroup && version in byGroup[group] then byGroup[group][version] else map[]
  }

  /** What is installed for a group version by `resources`, taken in order. */
  function Installed(resources: seq<Resource>, group: string, version: string): map<string, nat> {
    if resources == [] then map[]
    else
      var last := resources[|resources| - 1];
      var before := Installed(resources[..|resources| - 1], group, version);
      if last.group == group && last.version == version then before + Paths(last) else before
  }

  lemma {:induction false} InstalledPaths(resources: seq<Resource>, group: string, version: string, path: string)
    ensures path in Installed(resources, group, version) <==>
      exists i :: 0 <= i < |resources| && resources[i].group == group && resources[i].version == version
                  && path in Paths(resources[i])
  {
    if resources != [] {
      var n := |resources| - 1;
      InstalledPaths(resources[..n], group, version, path);
      if path in Installed(resources[..n], group, version) {
        var i :| 0 <= i < n && resources[..n][i].group == group && resources[..n][i].version == version
                 && path in Paths(resources[..n][i]);
        assert path in Paths(resources[i]);
      }
    }
  }

  /** The maps of a group version, made if they are not there. */
  method Open(byGroup: Storages, group: string, version: string) returns (ready: Storages)
    ensures group in ready && version in ready[group]
    ensures forall g, v :: At(ready, g, v) == At(byGroup, g, v)
  {
    ready := byGroup;
    if group !in ready { ready := ready[group := map[]]; }
    if version !in ready[group] { ready := ready[group := ready[group][version := map[]]]; }
  }

  lemma PutAt(byGroup: Storages, group: string, version: string, paths: map<string, nat>)
    requires group in byGroup
    ensures var put := byGroup[group := byGroup[group][version := paths]];
      forall g, v :: At(put, g, v) == (if g == group && v == version then paths else At(byGroup, g, v))
  {
  }

  /** One resource set in its place, unless its path is taken. */
  method Place(byGroup: Storages, res: Resource) returns (placed: Storages, taken: bool)
    ensures taken <==> res.plural in At(byGroup, res.group, res.version)
    ensures !taken ==>
      (forall g, v :: At(placed, g, v)
         == (if g == res.group && v == res.version then At(byGroup, g, v) + Paths(res) else At(byGroup, g, v)))
  {
    placed := Open(byGroup, res.group, res.version);
    var paths := placed[res.group][res.version];
    assert paths == At(byGroup, res.group, res.version);
    taken := res.plural in paths;
    if taken { return; }
    paths := WithPaths(paths, res);
    PutAt(placed, res.group, res.version, paths);
    placed := placed[res.group := placed[res.group][res.version := paths]];
  }

  method WithPaths(paths: map<string, nat>, res: Resource) returns (r: map<string, nat>)
    ensures r == paths + Paths(res)
  {
    r := paths[res.plural := res.storage];
    if res.status.Some? { r := r[res.plural + "/status" := res.status.value]; }
    if res.scale.Some? { r := r[res.plural + "/scale" := res.scale.value]; }
  }

  /** `groupStorages`: refused exactly when a resource asks for a path that is already taken. */
  method GroupStorages(resources: seq<Resource>) returns (r: Result<Storages, Resource>)
    ensures r.Ok? <==> !Clash(resources)
    ensures r.Ok? ==> forall g, v :: At(r.value, g, v) == Installed(resources, g, v)
    ensures r.Err? ==> exists j :: 0 <= j < |resources| && resources[j] == r.error && !Clash(resources[..j])
                                   && Clash(resources[..j + 1])
  {
    var byGroup: Storages := map[];
    for n := 0 to |resources|
      invariant !Clash(resources[..n])
      invariant forall g, v :: At(byGroup, g, v) == Installed(resources[..n], g, v)
    {
      var taken;
      byGroup, taken := Place(byGroup, resources[n]);
      TakenIsClash(resources, n);
      if taken {
        ClashPrefix(resources, n + 1);
        return Err(resources[n]);
      }
      assert resources[..n + 1][..n] == resources[..n];
    }
    assert resources[..|resources|] == resources;
    return Ok(byGroup);
  }

  lemma TakenIsClash(resources: seq<Resource>, n: nat)
    requires n < |resources| && !Clash(resources[..n])
    ensures var res := resources[n];
      res.plural in Installed(resources[..n], res.group, res.version) <==> Clash(resources[..n + 1])
  {
    var res, before := resources[n], resources[..n];
    InstalledPaths(before, res.group, res.version, res.plural);
    ClashStep(resources, n);
    if i :| 0 <= i < |before| && before[i].group == res.group && before[i].version == res.version
            && res.plural in Paths(before[i]) {
      assert Taken(resources[i], resources[n]);
    }
    if i :| 0 <= i < n && Taken(resources[i], resources[n]) {
      assert res.plural in Paths(before[i]);
    }
  }

  lemma ClashStep(resources: seq<Resource>, n: nat)
    requires n < |resources| && !Clash(resources[..n])
    ensures Clash(resources[..n + 1]) <==> exists i :: 0 <= i < n && Taken(resources[i], resources[n])
  {
  }

  lemma ClashPrefix(resources: seq<Resource>, n: nat)
    requires n <= |resources| && Clash(resources[..n])
    ensures Clash(resources)
  {
  }

  // Where requests are answered.

  /** The storage that answers under a path of the resource: its own, that of its status, or that of its scale. */
  ghost predicate Answers(res: Resource, path: string, storage: nat) {
    || (path == res.plural && storage == res.storage)
    || (path == res.plural + "/status" && res.status == Some(storage))
    || (path == res.plural + "/scale" && res.scale == Some(storage))
  }

  /** Plurals are path segments. */
  ghost predicate Segments(resources: seq<Resource>) {
    forall i :: 0 <= i < |resources| ==> '/' !in resources[i].plural
  }

  lemma PathsAnswer(res: Resource, path: string, storage: nat)
    requires '/' !in res.plural
    ensures path in Paths(res) && Paths(res)[path] == storage <==> Answers(res, path, storage)
  {
    var status, scale := res.plural + "/status", res.plural + "/scale";
    assert status[|res.plural|] == '/' && scale[|res.plural|] == '/' && |status| != |scale|;
  }

  lemma SamePlural(a: Resource, b: Resource, path: string)
    requires '/' !in a.plural && '/' !in b.plural && path in Paths(a) && path in Paths(b)
    ensures a.plural == b.plural
  {
    PathPlural(a, path);
    PathPlural(b, path);
  }

  lemma PathPlural(res: Resource, path: string)
    requires path in Paths(res)
    ensures res.plural <= path && (|path| > |res.plural| ==> path[|res.plural|] == '/')
  {
  }

  /** Without a clash every path is answered by the storage of the resource it belongs to, and there are no others. */
  lemma {:induction false} InstalledAnswers(resources: seq<Resource>, group: string, version: string, path: string,
                                            storage: nat)
    requires !Clash(resources) && Segments(resources)
    ensures path in Installed(resources, group, version) && Installed(resources, group, version)[path] == storage <==>
      exists i :: 0 <= i < |resources| && resources[i].group == group && resources[i].version == version
                  && Answers(resources[i], path, storage)
  {
    hide Answers, Paths;
    if resources != [] {
      var n := |resources| - 1;
      var front, last := resources[..n], resources[n];
      InstalledAnswers(front, group, version, path, storage);
      PathsAnswer(last, path, storage);
      if last.group == group && last.version == version && path in Paths(last) {
        forall i | 0 <= i < n && resources[i].group == group && resources[i].version == version
          ensures !Answers(resources[i], path, storage)
        {
          PathsAnswer(resources[i], path, storage);
          if path in Paths(resources[i]) {
            SamePlural(resources[i], last, path);
            PluralPath(resources[i]);
            assert Taken(resources[i], resources[n]);
          }
        }
      }
      assert forall i :: 0 <= i < n ==> front[i] == resources[i];
    }
  }

  lemma PluralPath(res: Resource)
    ensures res.plural in Paths(res)
  {
  }
}
