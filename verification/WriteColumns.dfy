/** What a write binds to the columns of the metadata, place by place of the mapping. */
module WriteColumns {
  import opened Fields
  import opened MappingColumns
  import opened Results
  import opened Values
  import opened WriteParams

  /** The places of a mapping with one column each that a write binds from the metadata. */
  function Places(m: Mapping): seq<string> {
    [m.uid, m.resourceVersion, m.finalizers, m.ownerReferences, m.managedFields, m.labelsFrom, m.annotationsFrom]
  }

  /** The column is neither part of the identity nor a field's. */
  ghost predicate IsMetadata(m: Mapper, c: string) {
    c != "" && !(m.namespaced && c == m.mapping.namespace) && c !in m.naming.columns && !HasField(m.mapping.fields, c)
  }

  /** The column is that of one place, and of no label, annotation or field, and not part of the identity. */
  ghost predicate IsOnly(m: Mapper, place: nat)
    requires place < |Places(m.mapping)|
  {
    var c := Places(m.mapping)[place];
    && IsMetadata(m, c) && c !in m.mapping.labels.Values && c !in m.mapping.annotations.Values
    && forall i :: 0 <= i < |Places(m.mapping)| && Places(m.mapping)[i] == c ==> i == place
  }

  /** The text, or NULL when it is empty. */
  ghost predicate IsTextOf(value: Bound, s: string) {
    value == if s == "" then Plain(Null) else Plain(Text(s))
  }

  /** The JSON, or NULL when there is none. */
  ghost predicate IsJsonOf(value: Bound, json: Option<Json>) {
    value == if json.Some? then Encoded(json.value) else Plain(Null)
  }

  /** The entries that have no column of their own, or NULL when there are none. */
  ghost predicate IsRestOf(value: Bound, all: map<string, string>, owned: map<string, string>) {
    if all.Keys <= owned.Keys then value == Plain(Null)
    else
      && value.Encoded? && value.value.Object?
      && (forall k :: k in value.value.fields <==> k in all && k !in owned)
      && (forall k :: k in value.value.fields ==> value.value.fields[k] == Json.Scalar(Str(all[k])))
  }

  /** Each place's own column holds that very part of the object. */
  lemma PlacesBound(m: Mapper, obj: ApiObject, args: Args)
    requires forall c :: c in args ==> ValueRight(m, obj, c, args[c])
    requires ColumnNames(m.mapping) <= args.Keys
    ensures var w := m.mapping;
      && (IsOnly(m, 0) ==> w.uid in args && IsTextOf(args[w.uid], obj.uid))
      && (IsOnly(m, 1) ==> w.resourceVersion in args && IsTextOf(args[w.resourceVersion], obj.resourceVersion))
      && (IsOnly(m, 2) ==> w.finalizers in args && args[w.finalizers] == Encoded(obj.finalizers))
      && (IsOnly(m, 3) ==> w.ownerReferences in args && args[w.ownerReferences] == Encoded(obj.ownerReferences))
      && (IsOnly(m, 4) ==> w.managedFields in args && IsJsonOf(args[w.managedFields], obj.managedFields))
      && (IsOnly(m, 5) ==> w.labelsFrom in args && IsRestOf(args[w.labelsFrom], obj.labels, w.labels))
      && (IsOnly(m, 6) ==>
            w.annotationsFrom in args && IsRestOf(args[w.annotationsFrom], obj.annotations, w.annotations))
  {
    hide ColumnNames, IsRestOf, Remaining, ValueRight, IsOnly, IsTextOf, IsJsonOf;
    forall i | 0 <= i < 7 && IsOnly(m, i) ensures Places(m.mapping)[i] in args { PlaceIsColumn(m, i); }
    RestIsRemaining(obj.labels, m.mapping.labels);
    RestIsRemaining(obj.annotations, m.mapping.annotations);
    if IsOnly(m, 0) { UidBound(m, obj, args[m.mapping.uid]); }
    if IsOnly(m, 1) { VersionBound(m, obj, args[m.mapping.resourceVersion]); }
    if IsOnly(m, 2) { EarlyBound(m, obj, 2, args[m.mapping.finalizers]); }
    if IsOnly(m, 3) { EarlyBound(m, obj, 3, args[m.mapping.ownerReferences]); }
    if IsOnly(m, 4) {
      EarlyBound(m, obj, 4, args[m.mapping.managedFields]);
      JsonBound(args[m.mapping.managedFields], obj.managedFields);
    }
    if IsOnly(m, 5) { EarlyBound(m, obj, 5, args[m.mapping.labelsFrom]); }
    if IsOnly(m, 6) { EarlyBound(m, obj, 6, args[m.mapping.annotationsFrom]); }
  }

  lemma JsonBound(value: Bound, json: Option<Json>)
    requires value == if json.Some? then Encoded(json.value) else NULL
    ensures IsJsonOf(value, json)
  {
  }

  lemma PlaceIsColumn(m: Mapper, place: nat)
    requires place < |Places(m.mapping)| && IsOnly(m, place)
    ensures Places(m.mapping)[place] in ColumnNames(m.mapping)
  {
    ColumnsInWords(m.mapping, Places(m.mapping)[place]);
  }

  lemma RestIsRemaining(all: map<string, string>, owned: map<string, string>)
    ensures IsRestOf(Remaining(all, owned), all, owned)
  {
  }

  lemma UidBound(m: Mapper, obj: ApiObject, value: Bound)
    requires IsOnly(m, 0) && ValueRight(m, obj, m.mapping.uid, value)
    ensures IsTextOf(value, obj.uid)
  {
    var w := m.mapping;
    assert forall i :: 1 <= i < 7 ==> Places(w)[i] != w.uid;
    assert w.uid in ColumnNames(w) by { ColumnsInWords(w, w.uid); }
    hide ColumnNames, HasField;
    assert w.uid != Places(w)[1] && w.uid != Places(w)[2] && w.uid != Places(w)[3] && w.uid != Places(w)[4];
    assert w.uid != Places(w)[5] && w.uid != Places(w)[6];
  }

  lemma VersionBound(m: Mapper, obj: ApiObject, value: Bound)
    requires IsOnly(m, 1) && ValueRight(m, obj, m.mapping.resourceVersion, value)
    ensures IsTextOf(value, obj.resourceVersion)
  {
    var w := m.mapping;
    var c := w.resourceVersion;
    assert c in ColumnNames(w) by { ColumnsInWords(w, c); }
    hide ColumnNames, HasField;
    assert c != Places(w)[0] && c != Places(w)[2] && c != Places(w)[3] && c != Places(w)[4];
    assert c != Places(w)[5] && c != Places(w)[6];
  }

  /** The places whose value does not depend on whether there is one. */
  lemma EarlyBound(m: Mapper, obj: ApiObject, place: nat, value: Bound)
    requires 2 <= place < |Places(m.mapping)| && IsOnly(m, place) && ValueRight(m, obj, Places(m.mapping)[place], value)
    ensures var w := m.mapping;
      value ==
        if place == 2 then Encoded(obj.finalizers)
        else if place == 3 then Encoded(obj.ownerReferences)
        else if place == 4 then if obj.managedFields.Some? then Encoded(obj.managedFields.value) else NULL
        else if place == 5 then Remaining(obj.labels, w.labels)
        else Remaining(obj.annotations, w.annotations)
  {
    hide ColumnNames, HasField, Remaining;
    var w := m.mapping;
    var c := Places(w)[place];
    assert forall i :: 0 <= i < 7 && i != place ==> Places(w)[i] != c;
    assert place != 3 ==> c != Places(w)[3];
    assert place != 4 ==> c != Places(w)[4];
    assert place != 5 ==> c != Places(w)[5];
    assert place != 6 ==> c != Places(w)[6];
    assert place == 2 ==> c == w.finalizers;
  }

  /** A label's own column holds its value, or NULL when the object does not have it; so does an annotation's. */
  lemma KeysBound(m: Mapper, obj: ApiObject, args: Args, key: string)
    requires forall c :: c in args ==> ValueRight(m, obj, c, args[c])
    requires ColumnNames(m.mapping) <= args.Keys
    ensures var w := m.mapping;
      key in w.labels && IsMetadata(m, w.labels[key]) && w.labels[key] !in w.annotations.Values
      && w.labels[key] !in [w.labelsFrom, w.annotationsFrom]
      && (forall k :: k in w.labels && w.labels[k] == w.labels[key] ==> k == key) ==>
        && w.labels[key] in args
        && args[w.labels[key]] == if key in obj.labels then Plain(Text(obj.labels[key])) else Plain(Null)
    ensures var w := m.mapping;
      key in w.annotations && IsMetadata(m, w.annotations[key])
      && w.annotations[key] !in [w.labelsFrom, w.annotationsFrom]
      && (forall k :: k in w.annotations && w.annotations[k] == w.annotations[key] ==> k == key) ==>
        && w.annotations[key] in args
        && args[w.annotations[key]] == if key in obj.annotations then Plain(Text(obj.annotations[key])) else Plain(Null)
  {
    var w := m.mapping;
    if key in w.labels && w.labels[key] != "" { ColumnsInWords(w, w.labels[key]); }
    if key in w.annotations && w.annotations[key] != "" { ColumnsInWords(w, w.annotations[key]); }
    hide ColumnNames, HasField, Remaining, MetadataValue, SeedValue;
  }
}
