/** Following a mapped path through a schema, as pruning follows it through every object that has it. */
module MappedPaths {
  import opened Nested
  import opened Pruning
  import opened Results
  import opened Values

  /** Where a path comes out: in a list, at a segment that is pruned, or at a value that is kept. */
  datatype End = ThroughList(list: Path) | Pruned(at: Path) | Preserved | Lands(node: Option<Schema>)

  predicate IsKept(end: End) {
    end.Preserved? || end.Lands?
  }

  /** `walkMappedPath`. */
  method WalkMappedPath(root: Schema, parts: Path) returns (end: End)
    requires parts != []
    ensures end == if parts[0] == "metadata" then Preserved else Walked(Some(root), [], parts)
  {
    if parts[0] == "metadata" { return Preserved; }
    var node := Some(root);
    for i := 0 to |parts|
      invariant Walked(Some(root), [], parts) == Walked(node, parts[..i], parts[i..])
    {
      var part := parts[i];
      assert parts[i..][1..] == parts[i + 1..] && parts[..i] + [part] == parts[..i + 1];
      if node.Some? && node.value.kind.ArrayKind? { return ThroughList(parts[..i]); }
      if node.None? { return Pruned(parts[..i + 1]); }
      if part in node.value.properties {
        node := Some(node.value.properties[part]);
      } else if node.value.additional.Some? {
        node := node.value.additional.value;
      } else if node.value.preserve {
        return Preserved;
      } else {
        return Pruned(parts[..i + 1]);
      }
    }
    return Lands(node);
  }

  ghost function Walked(node: Option<Schema>, done: Path, parts: Path): End
    decreases |parts|
  {
    if parts == [] then Lands(node)
    else if node.None? then Pruned(done + [parts[0]])
    else if node.value.kind.ArrayKind? then ThroughList(done)
    else if parts[0] in node.value.properties then
      Walked(Some(node.value.properties[parts[0]]), done + [parts[0]], parts[1..])
    else if node.value.additional.Some? then Walked(node.value.additional.value, done + [parts[0]], parts[1..])
    else if node.value.preserve then Preserved
    else Pruned(done + [parts[0]])
  }

  /** A kept path keeps its scalar, and one that is not kept loses it, in every value that has a scalar there. */
  lemma {:induction false} WalkFollowsPruning(node: Option<Schema>, done: Path, parts: Path, value: Json, x: Scalar)
    requires ReadAt(value, parts) == Found(Scalar(x))
    requires !Walked(node, done, parts).ThroughList?
    ensures ReadAt(Prune(value, node), parts) == Found(Scalar(x)) <==> IsKept(Walked(node, done, parts))
    ensures ReadAt(Prune(value, node), parts) == Found(Scalar(x)) || ReadAt(Prune(value, node), parts) == Absent
    decreases |parts|
  {
    if parts != [] && node.Some? {
      var key, rest := parts[0], parts[1..];
      var next := ValueSchema(node.value, key);
      if next.Some? {
        WalkFollowsPruning(next.value, done + [key], rest, value.fields[key], x);
      }
    }
  }

  /** What is reported is a beginning of the path. */
  lemma {:induction false} PrunedAt(node: Option<Schema>, done: Path, parts: Path)
    requires Walked(node, done, parts).Pruned?
    ensures var at := Walked(node, done, parts).at;
      |done| < |at| <= |done| + |parts| && at == done + parts[..|at| - |done|]
    decreases |parts|
  {
    var at, key, rest := Walked(node, done, parts).at, parts[0], parts[1..];
    if node.Some? && ValueSchema(node.value, key).Some? {
      PrunedAt(ValueSchema(node.value, key).value, done + [key], rest);
      var n := |at| - |done|;
      assert parts[..n] == [key] + rest[..n - 1];
      assert done + [key] + rest[..n - 1] == done + parts[..n];
    } else {
      assert parts[..1] == [key];
    }
  }

  /** Where a path is reported pruned is the first place it breaks off: what leads there is an object still. */
  lemma {:induction false} BreaksOffThere(node: Option<Schema>, done: Path, parts: Path, value: Json, x: Scalar)
    requires ReadAt(value, parts) == Found(Scalar(x)) && Walked(node, done, parts).Pruned?
    ensures var n := |Walked(node, done, parts).at| - |done|;
      && 0 < n <= |parts| && Walked(node, done, parts).at == done + parts[..n]
      && ReadAt(Prune(value, node), parts[..n]) == Absent
      && ReadAt(Prune(value, node), parts[..n - 1]).Found?
      && ReadAt(Prune(value, node), parts[..n - 1]).value.Object?
    decreases |parts|
  {
    PrunedAt(node, done, parts);
    var key, rest := parts[0], parts[1..];
    var pruned := Prune(value, node);
    var n := |Walked(node, done, parts).at| - |done|;
    if node.Some? && ValueSchema(node.value, key).Some? {
      var next := ValueSchema(node.value, key).value;
      BreaksOffThere(next, done + [key], rest, value.fields[key], x);
      assert pruned == Object(PruneFields(value.fields, node.value, {}));
      assert key in pruned.fields && pruned.fields[key] == Prune(value.fields[key], next);
      hide Prune, Walked, ReadAt;
      assert parts[..n] == [key] + rest[..n - 1];
      DescendOne(pruned, key, rest[..n - 1]);
      assert parts[..n - 1] == [key] + rest[..n - 2];
      DescendOne(pruned, key, rest[..n - 2]);
    } else {
      assert parts[..1] == [key] && parts[..0] == [];
      DescendOne(pruned, key, []);
    }
  }

  lemma DescendOne(value: Json, key: string, rest: Path)
    requires value.Object?
    ensures ReadAt(value, [key] + rest) == if key in value.fields then ReadAt(value.fields[key], rest) else Absent
  {
  }

  /**
   Mapped paths match pruning: in every object with a scalar at `parts`, pruning leaves it there exactly when the
   path is reported kept. The type fields of an object, which a mapping may not name, are kept regardless.
   */
  lemma MappedPathKept(root: Schema, parts: Path, obj: map<string, Json>, x: Scalar)
    requires parts != [] && ReadAt(Object(obj), parts) == Found(Scalar(x))
    requires !Walked(Some(root), [], parts).ThroughList?
    ensures var kept := parts[0] == "metadata" || IsKept(Walked(Some(root), [], parts));
      ReadAt(Object(PruneRoot(obj, root)), parts) == Found(Scalar(x)) <==> kept || parts[0] in {"apiVersion", "kind"}
  {
    var key, rest := parts[0], parts[1..];
    assert parts == [key] + rest;
    DescendOne(Object(obj), key, rest);
    DescendOne(Object(PruneRoot(obj, root)), key, rest);
    if key !in META_FIELDS {
      WalkFollowsPruning(Some(root), [], parts, Object(obj), x);
      DescendOne(Prune(Object(obj), Some(root)), key, rest);
    }
  }

  // Structures.

  /** `emptiesObjects`. */
  predicate EmptiesObjects(s: Option<Schema>) {
    if s.None? then true
    else if s.value.preserve then false
    else match s.value.kind
      case ObjectKind => |s.value.properties| == 0 && s.value.additional.None?
      case ArrayKind => s.value.items.Some? && EmptiesObjects(s.value.items)
      case OtherKind => false
  }

  /** Lists where the schema has lists, and objects where it has objects. */
  ghost predicate Conforms(value: Json, s: Option<Schema>)
    decreases value
  {
    s.Some? ==>
      match s.value.kind
      case ObjectKind => !value.List?
      case ArrayKind =>
        !value.Object?
        && (value.List? ==> forall i :: 0 <= i < |value.items| ==> Conforms(value.items[i], s.value.items))
      case OtherKind => !value.List? && !value.Object?
  }

  /** No object at the top, or in a list, has a key left. */
  ghost predicate Emptied(value: Json) {
    match value
    case Object(fields) => fields == map[]
    case List(items) => forall i :: 0 <= i < |items| ==> Emptied(items[i])
    case _ => true
  }

  lemma {:induction false} EmptiesThem(s: Option<Schema>, value: Json)
    requires EmptiesObjects(s) && Conforms(value, s)
    ensures Emptied(Prune(value, s))
    decreases value
  {
    if value.List? {
      var pruned := Prune(value, s);
      forall i | 0 <= i < |value.items| ensures Emptied(pruned.items[i]) {
        assert pruned.items[i] == PruneItem(value.items[i], s);
        if s.None? { EmptiesThem(None, value.items[i]); } else { EmptiesThem(s.value.items, value.items[i]); }
      }
    } else if value.Object? && s.Some? {
      assert s.value.properties == map[];
      assert PruneFields(value.fields, s.value, {}) == map[];
    }
  }

  /** A schema no conforming value of which has an object: a scalar, or lists of them. */
  predicate NoObjects(s: Schema) {
    s.kind.OtherKind? || (s.kind.ArrayKind? && s.items.Some? && NoObjects(s.items.value))
  }

  /** Lists, none of which preserves unknown fields, that end in one whose elements the schema leaves open. */
  predicate OpenList(s: Schema) {
    s.kind.ArrayKind? && !s.preserve && (s.items.None? || OpenList(s.items.value))
  }

  /** Pruning leaves no key in any conforming value. */
  ghost predicate EmptiesAll(s: Option<Schema>) {
    forall value :: Conforms(value, s) ==> Emptied(Prune(value, s))
  }

  lemma {:induction false} OpenListEmptied(s: Schema, value: Json)
    requires OpenList(s) && Conforms(value, Some(s))
    ensures Emptied(Prune(value, Some(s)))
    decreases value
  {
    if value.List? {
      var pruned := Prune(value, Some(s));
      forall i | 0 <= i < |value.items| ensures Emptied(pruned.items[i]) {
        assert pruned.items[i] == PruneItem(value.items[i], Some(s));
        if s.items.None? { EmptiesThem(None, value.items[i]); } else { OpenListEmptied(s.items.value, value.items[i]); }
      }
    }
  }

  lemma {:induction false} NoObjectsEmptied(s: Schema, value: Json)
    requires NoObjects(s) && Conforms(value, Some(s))
    ensures Emptied(Prune(value, Some(s))) && Emptied(Preserve(value, Some(s)))
    decreases value
  {
    if value.List? {
      var pruned, preserved := Prune(value, Some(s)), Preserve(value, Some(s));
      forall i | 0 <= i < |value.items| ensures Emptied(pruned.items[i]) && Emptied(preserved.items[i]) {
        assert pruned.items[i] == PruneItem(value.items[i], Some(s));
        NoObjectsEmptied(s.items.value, value.items[i]);
      }
    }
  }

  /** An object that keeps one of its keys: a declared one, or any where others are let through. */
  lemma KeepsSomeKey(s: Schema) returns (key: string)
    requires s.kind.ObjectKind? && !EmptiesObjects(Some(s))
    ensures forall x :: Prune(Object(map[key := Scalar(x)]), Some(s)) == Object(map[key := Scalar(x)])
  {
    if s.properties != map[] { key :| key in s.properties; } else { key := ""; }
    forall x ensures Prune(Object(map[key := Scalar(x)]), Some(s)) == Object(map[key := Scalar(x)]) {
      var fields := map[key := Scalar(x)];
      assert ValueSchema(s, key).Some? || s.preserve;
      assert ValueSchema(s, key).Some? ==> Prune(Scalar(x), ValueSchema(s, key).value) == Scalar(x);
      assert PruneFields(fields, s, {}) == fields;
    }
  }

  /** A conforming value in which a key is left even below a list that preserves unknown fields. */
  lemma {:induction false} KeptBelow(s: Option<Schema>) returns (value: Json)
    requires s.Some? ==> !NoObjects(s.value)
    ensures Conforms(value, s) && !Emptied(Preserve(value, s))
    decreases s
  {
    var fields: map<string, Json> := map["" := Json.Scalar(Flag(true))];
    if s.None? || s.value.kind.ObjectKind? {
      value := Object(fields);
      assert "" in value.fields;
      if s.Some? {
        var open := s.value.(preserve := true);
        assert "" in PruneFields(fields, open, {});
        assert Preserve(value, s) == Object(PruneFields(fields, open, {}));
      } else {
        assert Preserve(value, s) == value;
      }
    } else {
      var item := KeptBelow(s.value.items);
      value := List([item]);
      assert value.items[0] == item;
      assert Preserve(value, s).items[0] == Preserve(item, s.value.items);
    }
  }

  /** A conforming value in which pruning leaves a key. */
  lemma {:induction false} KeptSomewhere(s: Schema) returns (value: Json)
    requires !EmptiesObjects(Some(s)) && !NoObjects(s) && !OpenList(s)
    ensures Conforms(value, Some(s)) && !Emptied(Prune(value, Some(s)))
  {
    if s.kind.ObjectKind? {
      var key := KeepsSomeKey(s);
      value := Object(map[key := Json.Scalar(Flag(true))]);
      assert key in Prune(value, Some(s)).fields;
    } else {
      var item: Json;
      if s.preserve { item := KeptBelow(s.items); } else { item := KeptSomewhere(s.items.value); }
      value := List([item]);
      assert value.items[0] == item;
      assert Prune(value, Some(s)).items[0] == PruneItem(item, Some(s));
    }
  }

  /**
   Pruning empties every conforming value exactly when `emptiesObjects` says so, or no conforming value has an object,
   or the elements of the list are left open; of the last it does not say so.
   */
  lemma EmptiesExactly(s: Schema)
    ensures EmptiesAll(Some(s)) <==> EmptiesObjects(Some(s)) || NoObjects(s) || OpenList(s)
    ensures OpenList(s) ==> !EmptiesObjects(Some(s))
  {
    if EmptiesObjects(Some(s)) || NoObjects(s) || OpenList(s) {
      forall value | Conforms(value, Some(s)) ensures Emptied(Prune(value, Some(s))) {
        if EmptiesObjects(Some(s)) { EmptiesThem(Some(s), value); }
        else if NoObjects(s) { NoObjectsEmptied(s, value); }
        else { OpenListEmptied(s, value); }
      }
    } else {
      var value := KeptSomewhere(s);
    }
    if OpenList(s) { OpenListUnsaid(s); }
  }

  lemma {:induction false} OpenListUnsaid(s: Schema)
    requires OpenList(s)
    ensures !EmptiesObjects(Some(s))
  {
    if s.items.Some? { OpenListUnsaid(s.items.value); }
  }
}
