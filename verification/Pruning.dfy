/** Structural schemas, and what Kubernetes prunes from an object that a client submits. */
module Pruning {
  import opened Nested
  import opened Results
  import opened Values

  datatype Kind = ObjectKind | ArrayKind | OtherKind

  /**
   A structural schema without embedded resources. `additional` is present when the schema says anything about
   other keys, and holds no schema when all it says is yes or no.
   */
  datatype Schema = Schema(kind: Kind, preserve: bool, properties: map<string, Schema>,
                           additional: Option<Option<Schema>>, items: Option<Schema>)

  const META_FIELDS := {"metadata", "apiVersion", "kind"}

  /** What the schema of an object says about one of its keys: nothing, or the schema of the value, if it has one. */
  function ValueSchema(s: Schema, key: string): Option<Option<Schema>> {
    if key in s.properties then Some(Some(s.properties[key])) else s.additional
  }

  /** Pruning a value: an undeclared key goes, unless the object preserves it, and then with all that is below it. */
  function Prune(value: Json, schema: Option<Schema>): Json
    decreases value, 1
  {
    match value
    case Object(fields) =>
      if schema.None? then Object(map[])
      else Object(PruneFields(fields, schema.value, {}))
    case List(items) =>
      List(seq(|items|, i requires 0 <= i < |items| => PruneItem(items[i], schema)))
    case _ => value
  }

  /** An element of a list: below a node that preserves unknown fields, a list is preserved with it. */
  function PruneItem(item: Json, schema: Option<Schema>): Json
    decreases item, 2
  {
    if schema.None? then Prune(item, None)
    else if !schema.value.preserve then Prune(item, schema.value.items)
    else Preserve(item, schema.value.items)
  }

  function PruneFields(fields: map<string, Json>, s: Schema, exempt: set<string>): map<string, Json>
    decreases Object(fields), 0
  {
    map k | k in fields && (k in exempt || s.preserve || ValueSchema(s, k).Some?) ::
      if k in exempt || ValueSchema(s, k).None? then fields[k] else Prune(fields[k], ValueSchema(s, k).value)
  }

  /** Below a list that is preserved: declared keys are pruned by their schemas, and everything else stays. */
  function Preserve(value: Json, schema: Option<Schema>): Json
    decreases value, 1
  {
    if schema.None? then value
    else
      match value
      case Object(fields) => Object(PruneFields(fields, schema.value.(preserve := true), {}))
      case List(items) => List(seq(|items|, i requires 0 <= i < |items| => Preserve(items[i], schema.value.items)))
      case _ => value
  }

  /** Pruning a whole object: its type and its metadata are left alone. */
  function PruneRoot(fields: map<string, Json>, s: Schema): map<string, Json> {
    PruneFields(fields, s, META_FIELDS)
  }
}
