/** Values at dotted paths of an object. */
module Nested {
  import opened Results
  import opened Values

  type Path = seq<string>

  /** Neither path leads to or through the other. */
  ghost predicate Incomparable(p: Path, q: Path) {
    !(p <= q) && !(q <= p)
  }

  /** `setNestedFieldNoCopy`: nothing when the path runs through something that is not an object. */
  function SetAt(obj: map<string, Json>, path: Path, value: Json): Option<map<string, Json>>
    requires path != []
    decreases |path|
  {
    if |path| == 1 then Some(obj[path[0] := value])
    else if path[0] in obj && !obj[path[0]].Object? then None
    else
      match SetAt(if path[0] in obj then obj[path[0]].fields else map[], path[1..], value)
      case None => None
      case Some(inner) => Some(obj[path[0] := Object(inner)])
  }

  datatype Read = Found(value: Json) | Absent | NotAnObject

  /** `NestedFieldNoCopy`. */
  function ReadAt(value: Json, path: Path): Read
    decreases |path|
  {
    if path == [] then Found(value)
    else match value
      case Nil => Absent
      case Object(fields) => if path[0] in fields then ReadAt(fields[path[0]], path[1..]) else Absent
      case _ => NotAnObject
  }

  /** The loop that reads a path, one segment after another. */
  method ReadPath(obj: Json, path: Path) returns (r: Read)
    ensures r == ReadAt(obj, path)
  {
    var value := obj;
    for i := 0 to |path|
      invariant ReadAt(obj, path) == ReadAt(value, path[i..])
    {
      if value.Nil? { return Absent; }
      if !value.Object? { return NotAnObject; }
      if path[i] !in value.fields { return Absent; }
      value := value.fields[path[i]];
      assert path[i..][1..] == path[i + 1..];
    }
    return Found(value);
  }

  /** Nothing but objects on the way to `path`. */
  ghost predicate Open(obj: map<string, Json>, path: Path)
    decreases |path|
  {
    |path| <= 1 || path[0] !in obj || (obj[path[0]].Object? && Open(obj[path[0]].fields, path[1..]))
  }

  lemma {:induction false} SetWhenOpen(obj: map<string, Json>, path: Path, value: Json)
    requires path != []
    ensures SetAt(obj, path, value).Some? <==> Open(obj, path)
    decreases |path|
  {
    if |path| > 1 {
      SetWhenOpen(if path[0] in obj && obj[path[0]].Object? then obj[path[0]].fields else map[], path[1..], value);
      OpenInNothing(path[1..]);
    }
  }

  lemma OpenInNothing(path: Path)
    ensures Open(map[], path)
  {
  }

  /** What is set is read. */
  lemma {:induction false} ReadBack(obj: map<string, Json>, path: Path, value: Json)
    requires path != [] && SetAt(obj, path, value).Some?
    ensures ReadAt(Object(SetAt(obj, path, value).value), path) == Found(value)
    decreases |path|
  {
    if |path| > 1 {
      ReadBack(if path[0] in obj then obj[path[0]].fields else map[], path[1..], value);
    } else {
      assert path[1..] == [];
    }
  }

  lemma IncomparableTails(p: Path, q: Path)
    requires Incomparable(p, q) && p[0] == q[0]
    ensures |p| > 1 && |q| > 1 && Incomparable(p[1..], q[1..])
  {
  }

  /** Setting one path leaves what an incomparable one reads, and whether it can be set, as it was. */
  lemma {:induction false} ReadElsewhere(obj: map<string, Json>, p: Path, value: Json, q: Path)
    requires Incomparable(p, q) && SetAt(obj, p, value).Some?
    ensures var set' := SetAt(obj, p, value).value;
      ReadAt(Object(set'), q) == ReadAt(Object(obj), q) && (Open(obj, q) ==> Open(set', q))
    decreases |p|
  {
    if p[0] == q[0] {
      IncomparableTails(p, q);
      var inner: map<string, Json> := if p[0] in obj then obj[p[0]].fields else map[];
      ReadElsewhere(inner, p[1..], value, q[1..]);
      OpenInNothing(q[1..]);
    }
  }
}
