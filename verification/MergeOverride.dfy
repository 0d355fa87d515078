/** Patch mode: taking the observed tree as the last applied one makes the merge an override. */
module MergeOverride {
  import opened Basics
  import opened Json
  import opened MergeKey
  import opened ThreeWayMerge
  import opened ListMaps
  import opened MergeFixpoint
  import opened MergeRealises

  /** `r` is `d` up to the order of the items of list maps. */
  ghost predicate Reordered(d: Value, r: Value)
    decreases Height(d)
  {
    FieldsBelow(AsMap(d));
    r == d
    || (d.Map? && r.Map? && r.fields.Keys == d.fields.Keys
        && forall k | k in d.fields :: Reordered(d.fields[k], r.fields[k]))
    || (d.List? && r.List? && exists key | key in KNOWN_MERGE_KEYS :: ReorderedUnder(key, d, r))
  }

  /** Both lists file every item under a key of its own, and the items under one key correspond. */
  ghost predicate ReorderedUnder(key: string, d: Value, r: Value)
    requires d.List? && r.List?
    decreases Height(d), 0
  {
    FileBelow(key, d);
    && Distinct(KeysOf(key, d.items)) && Distinct(KeysOf(key, r.items))
    && File(key, d).Keys == File(key, r).Keys
    && forall k | k in File(key, d) :: Reordered(File(key, d)[k], File(key, r)[k])
  }

  /** Wherever the merge meets list maps, their merge keys are scalars and no two items of one list
      share one. */
  ghost predicate Overridable(o: Value, d: Value)
    decreases Height(d)
  {
    FieldsBelow(AsMap(d));
    var key := ListKey(o, o, d);
    FileBelow(key, d);
    && (o.Map? && d.Map? ==> forall k | k in d.fields :: Overridable(Get(o.fields, k), d.fields[k]))
    && (IsList(o) && key != "" ==>
      && PlainlyKeyed(key, AsList(o)) && Distinct(KeysOf(key, AsList(o)))
      && PlainlyKeyed(key, AsList(d)) && Distinct(KeysOf(key, AsList(d)))
      && forall k | k in File(key, d) :: Overridable(Get(File(key, o), k), File(key, d)[k]))
  }

  /** The merge returns the desired tree, up to the order of list-map items, exactly when the shapes
      are compatible. */
  lemma {:induction false} PatchIsOverride(o: Value, d: Value)
    requires Overridable(o, d)
    ensures Reordered(d, Merge(o, o, d)) <==> Compatible(o, o, d)
    decreases Height(d), 2
  {
    if o.Map? {
      MergeOfMap(o, o, d);
      if d.Map? {
        FieldsOverridden(o.fields, d.fields);
        assert MergeMap(o.fields, o.fields, d.fields).Keys == d.fields.Keys;
      }
    } else if IsScalar(o) {
      MergeOfScalar(o, o, d);
    } else {
      MergeOfList(o, o, d);
      if d.List? && ListKey(o, o, d) != "" {
        ItemsOverridden(o, d, ListKey(o, o, d));
      }
    }
  }

  lemma {:induction false} FieldsOverridden(o: Fields, d: Fields)
    requires forall k | k in d :: Overridable(Get(o, k), d[k])
    ensures forall k | k in d ::
      Reordered(d[k], MergeMap(o, o, d)[k]) <==> Compatible(Get(o, k), Get(o, k), d[k])
    decreases Height(Map(d)), 0
  {
    FieldsBelow(d);
    forall k | k in d
      ensures Reordered(d[k], MergeMap(o, o, d)[k]) <==> Compatible(Get(o, k), Get(o, k), d[k])
    {
      MergedField(o, o, d, k);
      PatchIsOverride(Get(o, k), d[k]);
    }
  }

  /** A reordered item is filed where the item was. */
  lemma ReorderedKeepsKey(key: string, d: Value, r: Value)
    requires Reordered(d, r) && PlainItem(key, d)
    ensures KeyOf(key, r) == KeyOf(key, d)
  {
    if r != d {
      assert Reordered(d.fields[key], r.fields[key]);
    }
  }

  /** So it does not matter which key makes the items correspond. */
  lemma ReorderedUnderAnyKey(key: string, d: Value, r: Value)
    requires d.List? && r.List? && key in KNOWN_MERGE_KEYS
    requires PlainlyKeyed(key, d.items) && Distinct(KeysOf(key, d.items)) && Distinct(KeysOf(key, r.items))
    requires File(key, d).Keys == File(key, r).Keys
    ensures Reordered(d, r) <==> ReorderedUnder(key, d, r)
  {
    if Reordered(d, r) && r != d {
      var other :| other in KNOWN_MERGE_KEYS && ReorderedUnder(other, d, r);
      hide Reordered;
      DistinctlyFiled(other, d.items);
      DistinctlyFiled(key, r.items);
      forall k | k in File(key, d) ensures Reordered(File(key, d)[k], File(key, r)[k]) {
        var v := File(key, d)[k];
        ReorderedKeepsKey(key, v, File(other, r)[KeyOf(other, v)]);
      }
    }
  }

  lemma {:induction false} ItemsOverridden(o: Value, d: Value, key: string)
    requires Overridable(o, d) && IsList(o) && d.List? && key == ListKey(o, o, d) != ""
    ensures Reordered(d, List(MergeListMap(key, AsList(o), AsList(o), d.items))) <==> Compatible(o, o, d)
    decreases Height(d), 1
  {
    var om, dm := File(key, o), File(key, d);
    var r := MergeListMap(key, AsList(o), AsList(o), d.items);
    Detection(AsList(o) + AsList(o) + d.items, key);
    MergedListMap(key, AsList(o), AsList(o), d.items);
    PlainKeysAreKept(key, AsList(o), AsList(o), d.items);
    MergedKeysDistinct(key, AsList(o), AsList(o), d.items);
    assert MergeMap(om, om, dm).Keys == dm.Keys;
    ReorderedUnderAnyKey(key, d, List(r));
    FileBelow(key, d);
    FieldsOverridden(om, dm);
  }
}
