/** Merging the same desired state again, with that state as the last applied one, changes nothing. */
module MergeFixpoint {
  import opened Json
  import opened MergeKey
  import opened ThreeWayMerge
  import opened ListMaps
  import opened SecondListPass

  ghost function ListKey(o: Value, l: Value, d: Value): string {
    DetectListMapKey(AsList(o) + AsList(l) + AsList(d))
  }

  ghost function File(mergeKey: string, v: Value): Fields {
    MakeMapFromList(mergeKey, AsList(v))
  }

  lemma FileBelow(mergeKey: string, v: Value)
    ensures Height(Map(File(mergeKey, v))) <= Height(v)
    ensures forall k | k in File(mergeKey, v) :: Height(File(mergeKey, v)[k]) < Height(v)
  {
    GatheredBelow(File(mergeKey, v), AsList(v));
    ListBelow(v);
    FieldsBelow(File(mergeKey, v));
  }

  // ---- the merge key of the second pass

  /** All items of the merged list and the desired one carry the key: it is in every desired item, and in every
      observed item that is neither last applied nor desired. */
  ghost predicate Lasts(mergeKey: string, o: Value, l: Value, d: Value, a: string) {
    AllCarry(AsList(d), a) && UntouchedCarry(mergeKey, o, l, d, a)
  }

  ghost predicate UntouchedCarry(mergeKey: string, o: Value, l: Value, d: Value, a: string) {
    forall k | k in File(mergeKey, o) && k !in File(mergeKey, l) && k !in File(mergeKey, d) ::
      a in AsMap(File(mergeKey, o)[k])
  }

  ghost function FirstLasting(known: seq<string>, mergeKey: string, o: Value, l: Value, d: Value): string {
    if known == [] then ""
    else if Lasts(mergeKey, o, l, d, known[0]) then known[0]
    else FirstLasting(known[1..], mergeKey, o, l, d)
  }

  /** The merge key of a second pass, told from the input of the first. */
  ghost function NextKey(mergeKey: string, o: Value, l: Value, d: Value): string {
    FirstLasting(KNOWN_MERGE_KEYS, mergeKey, o, l, d)
  }

  /** No known key that lasts has precedence over the merge key. */
  ghost predicate Steady(mergeKey: string, o: Value, l: Value, d: Value) {
    forall a | Precedes(a, mergeKey) :: !Lasts(mergeKey, o, l, d, a)
  }

  lemma PickCarries(m: Fields, keys: seq<string>, a: string)
    requires ToSet(keys) == m.Keys
    ensures AllCarry(Pick(m, keys), a) <==> forall k | k in m :: a in AsMap(m[k])
  {
    if AllCarry(Pick(m, keys), a) {
      forall k | k in m ensures a in AsMap(m[k]) {
        assert k in ToSet(keys);
        var i :| 0 <= i < |keys| && keys[i] == k;
        assert Pick(m, keys)[i] in Pick(m, keys);
      }
    }
  }

  lemma MergedFieldCarries(o: Fields, l: Fields, d: Fields, k: string, a: string)
    requires k in d && a in AsMap(d[k])
    requires k in o ==> o[k].Map?
    ensures a in AsMap(MergeMap(o, l, d)[k])
  {
    MergedField(o, l, d, k);
    if k in o {
      MergeOfMap(o[k], Get(l, k), d[k]);
    } else {
      MergeOfScalar(Null, Get(l, k), d[k]);
    }
  }

  /** A key is carried by all merged items when all desired and all untouched observed items carry it. */
  lemma CarriedByMerged(mergeKey: string, o: Value, l: Value, d: Value, a: string)
    requires PlainlyKeyed(mergeKey, AsList(o)) && PlainlyKeyed(mergeKey, AsList(d)) && AllCarry(AsList(d), a)
    ensures AllCarry(MergeListMap(mergeKey, AsList(o), AsList(l), AsList(d)), a) <==>
      UntouchedCarry(mergeKey, o, l, d, a)
  {
    var om, lm, dm := File(mergeKey, o), File(mergeKey, l), File(mergeKey, d);
    var merged := MergeMap(om, lm, dm);
    MergedListMap(mergeKey, AsList(o), AsList(l), AsList(d));
    PickCarries(merged, KeysOf(mergeKey, MergeListMap(mergeKey, AsList(o), AsList(l), AsList(d))), a);
    forall k | k in dm ensures a in AsMap(merged[k]) {
      MergedFieldCarries(om, lm, dm, k, a);
    }
  }

  lemma LastsIsCarried(mergeKey: string, o: Value, l: Value, d: Value, a: string)
    requires PlainlyKeyed(mergeKey, AsList(o)) && PlainlyKeyed(mergeKey, AsList(d))
    ensures var r := MergeListMap(mergeKey, AsList(o), AsList(l), AsList(d));
      && (AllCarry(r + AsList(d) + AsList(d), a) <==> Lasts(mergeKey, o, l, d, a))
      && (Lasts(mergeKey, o, l, d, a) ==> AllCarry(r, a) && AllCarry(AsList(d), a))
  {
    hide MergeListMap, PlainlyKeyed, File, AllCarry, UntouchedCarry;
    var r := MergeListMap(mergeKey, AsList(o), AsList(l), AsList(d));
    CarryTwice(r, AsList(d), a);
    if AllCarry(AsList(d), a) {
      CarriedByMerged(mergeKey, o, l, d, a);
      assert AllCarry(r, a) <==> Lasts(mergeKey, o, l, d, a);
    }
  }

  lemma {:induction false} FirstLastingIsCarried(known: seq<string>, mergeKey: string, o: Value, l: Value, d: Value)
    requires PlainlyKeyed(mergeKey, AsList(o)) && PlainlyKeyed(mergeKey, AsList(d)) && "" !in known
    ensures var r := MergeListMap(mergeKey, AsList(o), AsList(l), AsList(d));
      FirstCarried(known, r + AsList(d) + AsList(d)) == FirstLasting(known, mergeKey, o, l, d)
    ensures var next := FirstLasting(known, mergeKey, o, l, d);
      next != "" ==> next in known && Lasts(mergeKey, o, l, d, next)
    ensures (exists a | a in known :: Lasts(mergeKey, o, l, d, a)) ==> FirstLasting(known, mergeKey, o, l, d) in known
  {
    hide Lasts, MergeListMap, AllCarry, PlainlyKeyed;
    if known == [] {
    } else {
      LastsIsCarried(mergeKey, o, l, d, known[0]);
      FirstLastingIsCarried(known[1..], mergeKey, o, l, d);
    }
  }

  lemma MergeKeyLasts(mergeKey: string, o: Value, l: Value, d: Value)
    requires mergeKey == ListKey(o, l, d) != ""
    requires PlainlyKeyed(mergeKey, AsList(o)) && PlainlyKeyed(mergeKey, AsList(d))
    ensures mergeKey in KNOWN_MERGE_KEYS && Lasts(mergeKey, o, l, d, mergeKey)
    ensures AllCarry(AsList(o), mergeKey) && AllCarry(AsList(d), mergeKey)
    ensures PlainlyKeyed(mergeKey, MergeListMap(mergeKey, AsList(o), AsList(l), AsList(d)))
  {
    Detection(AsList(o) + AsList(l) + AsList(d), mergeKey);
    MergedListMap(mergeKey, AsList(o), AsList(l), AsList(d));
    CarryConcat(AsList(o) + AsList(l), AsList(d), mergeKey);
    CarryConcat(AsList(o), AsList(l), mergeKey);
    hide MergeListMap, MergedItems;
  }

  lemma FirstDetected(mergeKey: string, r: seq<Value>, d: seq<Value>)
    requires PlainlyKeyed(mergeKey, r) && PlainlyKeyed(mergeKey, d) && r != []
    ensures DetectListMapKey(r + d + d) == FirstCarried(KNOWN_MERGE_KEYS, r + d + d)
  {
  }

  /** The second pass detects the first known key that lasts. The merge key itself does. */
  lemma NextKeyIsDetected(mergeKey: string, o: Value, l: Value, d: Value)
    requires mergeKey == ListKey(o, l, d) != ""
    requires PlainlyKeyed(mergeKey, AsList(o)) && PlainlyKeyed(mergeKey, AsList(d))
    requires MergeListMap(mergeKey, AsList(o), AsList(l), AsList(d)) != []
    ensures var r, next := MergeListMap(mergeKey, AsList(o), AsList(l), AsList(d)), NextKey(mergeKey, o, l, d);
      && ListKey(List(r), d, d) == next
      && mergeKey in KNOWN_MERGE_KEYS && next in KNOWN_MERGE_KEYS
      && AllCarry(AsList(o), mergeKey) && AllCarry(AsList(d), mergeKey)
      && AllCarry(AsList(d), next) && AllCarry(r, next)
  {
    hide PlainlyKeyed, Lasts, AllCarry, MergeListMap, DetectListMapKey, FirstCarried, FirstLasting;
    var r := MergeListMap(mergeKey, AsList(o), AsList(l), AsList(d));
    KnownKeysDiffer();
    MergeKeyLasts(mergeKey, o, l, d);
    FirstDetected(mergeKey, r, AsList(d));
    FirstLastingIsCarried(KNOWN_MERGE_KEYS, mergeKey, o, l, d);
    LastsIsCarried(mergeKey, o, l, d, NextKey(mergeKey, o, l, d));
  }

  /** The second pass detects the same merge key exactly when the lists are steady. */
  lemma SameKeyNextTime(mergeKey: string, o: Value, l: Value, d: Value)
    requires mergeKey == ListKey(o, l, d) != ""
    requires PlainlyKeyed(mergeKey, AsList(o)) && PlainlyKeyed(mergeKey, AsList(d))
    requires MergeListMap(mergeKey, AsList(o), AsList(l), AsList(d)) != []
    ensures NextKey(mergeKey, o, l, d) == mergeKey <==> Steady(mergeKey, o, l, d)
  {
    var r := MergeListMap(mergeKey, AsList(o), AsList(l), AsList(d));
    var items := r + AsList(d) + AsList(d);
    NextKeyIsDetected(mergeKey, o, l, d);
    Detection(items, mergeKey);
    MergedListMap(mergeKey, AsList(o), AsList(l), AsList(d));
    CarryTwice(r, AsList(d), mergeKey);
    forall a ensures AllCarry(items, a) <==> Lasts(mergeKey, o, l, d, a) {
      LastsIsCarried(mergeKey, o, l, d, a);
    }
  }

  /** Then the second pass files the items as the first did. */
  lemma SameKeyIsApart(mergeKey: string, o: Value, l: Value, d: Value)
    ensures NoCollision(mergeKey, File(mergeKey, o), File(mergeKey, l), File(mergeKey, d))
    ensures SameFiling(mergeKey, mergeKey, AsList(d))
  {
  }

  lemma CarryTwice(xs: seq<Value>, ys: seq<Value>, a: string)
    ensures AllCarry(xs + ys + ys, a) <==> AllCarry(xs, a) && AllCarry(ys, a)
  {
    CarryConcat(xs, ys, a);
    CarryConcat(xs + ys, ys, a);
  }

  /** The list map merge drops every observed item and desired lists none. */
  ghost predicate Empties(mergeKey: string, o: Value, l: Value, d: Value) {
    AsList(d) == [] && File(mergeKey, o).Keys - File(mergeKey, l).Keys == {}
  }

  /** Every item carries the same known keys. */
  ghost predicate Uniform(items: seq<Value>) {
    forall a | a in KNOWN_MERGE_KEYS :: AllCarry(items, a) || forall v | v in items :: a !in AsMap(v)
  }

  /** Lists whose items all carry the same known keys are steady, if the merge leaves any item. */
  lemma UniformIsSteady(mergeKey: string, o: Value, l: Value, d: Value)
    requires mergeKey == ListKey(o, l, d) != "" && Uniform(AsList(o) + AsList(l) + AsList(d))
    requires !Empties(mergeKey, o, l, d)
    ensures Steady(mergeKey, o, l, d)
  {
    UniformlyMissing(AsList(o) + AsList(l) + AsList(d), mergeKey);
    hide Uniform, ListKey, Precedes, Lasts;
    forall a | Precedes(a, mergeKey) ensures !Lasts(mergeKey, o, l, d, a) {
      MissingNeverLasts(mergeKey, o, l, d, a);
    }
  }

  lemma MissingNeverLasts(mergeKey: string, o: Value, l: Value, d: Value, a: string)
    requires !Empties(mergeKey, o, l, d)
    requires forall v | v in AsList(o) + AsList(l) + AsList(d) :: a !in AsMap(v)
    ensures !Lasts(mergeKey, o, l, d, a)
  {
    if AsList(d) == [] {
      NothingFiled(mergeKey, AsList(d));
      var k :| k in File(mergeKey, o).Keys - File(mergeKey, l).Keys;
      assert File(mergeKey, o)[k] in AsList(o);
    } else {
      assert AsList(d)[0] in AsList(d);
    }
  }

  lemma UniformlyMissing(items: seq<Value>, mergeKey: string)
    requires mergeKey == DetectListMapKey(items) != "" && Uniform(items)
    ensures forall a, v | Precedes(a, mergeKey) && v in items :: a !in AsMap(v)
  {
    Detection(items, mergeKey);
  }

  // ---- trees that the merge takes over whole

  /** Wherever this tree has a list map, its merge-key values are scalars. */
  ghost predicate Orderly(v: Value)
    decreases Height(v)
  {
    FieldsBelow(AsMap(v));
    var key := DetectListMapKey(AsList(v));
    FileBelow(key, v);
    && (v.Map? ==> forall k | k in v.fields :: Orderly(v.fields[k]))
    && (v.List? && key != "" ==>
      PlainlyKeyed(key, v.items) && forall k | k in File(key, v) :: Orderly(File(key, v)[k]))
  }

  /** No list map of this tree files two different items under one key. */
  ghost predicate NoClash(v: Value)
    decreases Height(v)
  {
    FieldsBelow(AsMap(v));
    var key := DetectListMapKey(AsList(v));
    FileBelow(key, v);
    && (v.Map? ==> forall k | k in v.fields :: NoClash(v.fields[k]))
    && (v.List? && key != "" ==>
      && (forall i | 0 <= i < |v.items| :: v.items[i] == File(key, v)[KeyOf(key, v.items[i])])
      && forall k | k in File(key, v) :: NoClash(File(key, v)[k]))
  }

  lemma SameKeyOfThree(items: seq<Value>)
    ensures DetectListMapKey(items + items + items) == DetectListMapKey(items)
  {
    var three, key := items + items + items, DetectListMapKey(items);
    assert forall v :: v in three <==> v in items;
    forall a ensures AllCarry(three, a) <==> AllCarry(items, a) {
      CarryTwice(items, items, a);
    }
    if key != "" {
      Detection(items, key);
      Detection(three, key);
    } else if DetectListMapKey(three) != "" {
      Detection(three, DetectListMapKey(three));
      Detection(items, DetectListMapKey(three));
    }
  }

  /** A tree merged with itself comes out unchanged exactly when none of its list maps clash. */
  lemma {:induction false} SelfMerge(d: Value)
    requires Orderly(d)
    ensures Merge(d, d, d) == d <==> NoClash(d)
    decreases Height(d)
  {
    if d.Map? {
      FieldsBelow(d.fields);
      forall k | k in d.fields
        ensures MergeMap(d.fields, d.fields, d.fields)[k] == d.fields[k] <==> NoClash(d.fields[k])
      {
        MergedField(d.fields, d.fields, d.fields, k);
        SelfMerge(d.fields[k]);
      }
      assert MergeMap(d.fields, d.fields, d.fields).Keys == d.fields.Keys;
      SameFields(MergeMap(d.fields, d.fields, d.fields), d.fields);
      MergeOfMap(d, d, d);
    } else if d.List? {
      SelfMergeList(d);
    }
  }

  lemma ReadBack(key: string, items: seq<Value>, merged: Fields)
    requires merged.Keys == MakeMapFromList(key, items).Keys
    ensures var m := MakeMapFromList(key, items);
      && (forall k | k in KeysOf(key, items) :: k in m)
      && (Pick(merged, KeysOf(key, items)) == items <==>
        merged == m && forall i | 0 <= i < |items| :: items[i] == m[KeyOf(key, items[i])])
  {
    var m, keys := MakeMapFromList(key, items), KeysOf(key, items);
    var r := Pick(merged, keys);
    if r == items {
      forall k | k in m ensures merged[k] == m[k] {
        assert r[LastIndex(keys, k)] == items[LastIndex(keys, k)];
      }
      assert merged == m;
      forall i | 0 <= i < |items| ensures items[i] == m[KeyOf(key, items[i])] {
        assert r[i] == items[i];
      }
    }
  }

  lemma NoClashOfList(v: Value, key: string)
    requires v.List? && key == DetectListMapKey(v.items) != ""
    ensures NoClash(v) <==>
      && (forall i | 0 <= i < |v.items| :: v.items[i] == File(key, v)[KeyOf(key, v.items[i])])
      && forall k | k in File(key, v) :: NoClash(File(key, v)[k])
  {
  }

  lemma SelfMergeOfList(d: Value, key: string)
    requires d.List? && key == DetectListMapKey(d.items)
    ensures Merge(d, d, d) == if key == "" then d else List(MergeListMap(key, d.items, d.items, d.items))
  {
    SameKeyOfThree(d.items);
    MergeOfList(d, d, d);
  }

  lemma {:induction false} SelfMergeList(d: Value)
    requires d.List? && Orderly(d)
    ensures Merge(d, d, d) == d <==> NoClash(d)
    decreases Height(d), 0
  {
    var key := DetectListMapKey(d.items);
    SelfMergeOfList(d, key);
    if key != "" {
      var m := File(key, d);
      var merged := MergeMap(m, m, m);
      assert merged.Keys == m.Keys;
      SelfListMerge(key, d.items);
      ReadBack(key, d.items, merged);
      NoClashOfList(d, key);
      FileBelow(key, d);
      forall k | k in m ensures merged[k] == m[k] <==> NoClash(m[k]) {
        MergedField(m, m, m, k);
        SelfMerge(m[k]);
      }
      SameFields(merged, m);
    }
  }

  // ---- the fixpoint

  /** The merge takes the desired tree over as it is. */
  ghost predicate TakenWhole(o: Value, l: Value, d: Value) {
    IsScalar(o) || (IsList(o) && d.List? && ListKey(o, l, d) == "")
  }

  /** Wherever the merge meets list maps, the items have scalars under known merge keys. */
  ghost predicate Regular(o: Value, l: Value, d: Value)
    decreases Height(d)
  {
    FieldsBelow(AsMap(d));
    var key := ListKey(o, l, d);
    FileBelow(key, d);
    && (o.Map? && d.Map? ==>
      forall k | k in d.fields :: Regular(Get(o.fields, k), Get(AsMap(l), k), d.fields[k]))
    && (IsList(o) && key != "" ==>
      && AllKnownPlain(AsList(o)) && AllKnownPlain(AsList(d))
      && forall k | k in File(key, d) :: Regular(Get(File(key, o), k), Get(File(key, l), k), File(key, d)[k]))
    && (TakenWhole(o, l, d) ==> Orderly(d))
  }

  /** The items of the list map get along under the merge key of the second pass: no two of them have the same, and
      no desired item that the first pass did not file comes up. */
  ghost predicate GetAlong(mergeKey: string, o: Value, l: Value, d: Value) {
    var next := NextKey(mergeKey, o, l, d);
    NoCollision(next, File(mergeKey, o), File(mergeKey, l), File(mergeKey, d)) && SameFiling(mergeKey, next, AsList(d))
  }

  /** A list map that is emptied is desired as a list; the items of any other get along. */
  ghost predicate ListSettles(mergeKey: string, o: Value, l: Value, d: Value) {
    if Empties(mergeKey, o, l, d) then d.List? else GetAlong(mergeKey, o, l, d)
  }

  /** What must not happen for the merge to settle: two different items under one key in a list map that is taken
      over whole, no list desired for a list map that is emptied, and items that do not get along. */
  ghost predicate Settles(o: Value, l: Value, d: Value)
    decreases Height(d)
  {
    FieldsBelow(AsMap(d));
    var key := ListKey(o, l, d);
    FileBelow(key, d);
    && (o.Map? && d.Map? ==>
      forall k | k in d.fields :: Settles(Get(o.fields, k), Get(AsMap(l), k), d.fields[k]))
    && (IsList(o) && key != "" ==>
      && ListSettles(key, o, l, d)
      && forall k | k in File(key, d) :: Settles(Get(File(key, o), k), Get(File(key, l), k), File(key, d)[k]))
    && (TakenWhole(o, l, d) ==> NoClash(d))
  }

  ghost predicate FieldsRegular(o: Fields, l: Fields, d: Fields) {
    forall k | k in d :: Regular(Get(o, k), Get(l, k), d[k])
  }

  ghost predicate FieldsSettle(o: Fields, l: Fields, d: Fields) {
    forall k | k in d :: Settles(Get(o, k), Get(l, k), d[k])
  }

  /** Merging the same desired state again is the identity exactly when the desired tree settles. */
  lemma {:induction false} MergeSettles(o: Value, l: Value, d: Value)
    requires Regular(o, l, d)
    ensures Merge(Merge(o, l, d), d, d) == Merge(o, l, d) <==> Settles(o, l, d)
    decreases Height(d), 2
  {
    if o.Map? {
      MergeOfMap(o, l, d);
      MergeOfMap(Merge(o, l, d), d, d);
      MapMergeSettles(o.fields, AsMap(l), AsMap(d));
    } else if IsScalar(o) {
      MergeOfScalar(o, l, d);
      SelfMerge(d);
    } else if ListKey(o, l, d) == "" {
      PlainListSettles(o, l, d);
    } else {
      ListMapSettles(o, l, d);
    }
  }

  lemma {:induction false} MapMergeSettles(o: Fields, l: Fields, d: Fields)
    requires FieldsRegular(o, l, d)
    ensures MergeMap(MergeMap(o, l, d), d, d) == MergeMap(o, l, d) <==> FieldsSettle(o, l, d)
    decreases Height(Map(d)), 0
  {
    FieldsBelow(d);
    var r := MergeMap(o, l, d);
    assert MergeMap(r, d, d).Keys == r.Keys;
    forall k | k in d ensures MergeMap(r, d, d)[k] == r[k] <==> Settles(Get(o, k), Get(l, k), d[k]) {
      MergedField(o, l, d, k);
      MergedField(r, d, d, k);
      MergeSettles(Get(o, k), Get(l, k), d[k]);
    }
    SameFields(MergeMap(r, d, d), r);
  }

  lemma PlainListSettles(o: Value, l: Value, d: Value)
    requires Regular(o, l, d) && IsList(o) && ListKey(o, l, d) == ""
    ensures Merge(Merge(o, l, d), d, d) == Merge(o, l, d) <==> Settles(o, l, d)
  {
    MergeOfList(o, l, d);
    if d.List? {
      SelfMerge(d);
    } else {
      MergeOfList(NilList, d, d);
    }
  }

  lemma SettlesOfListMap(o: Value, l: Value, d: Value, key: string)
    requires IsList(o) && key == ListKey(o, l, d) != ""
    ensures Settles(o, l, d) <==>
      && ListSettles(key, o, l, d)
      && FieldsSettle(File(key, o), File(key, l), File(key, d))
    ensures Regular(o, l, d) ==> FieldsRegular(File(key, o), File(key, l), File(key, d))
  {
    hide ListKey, File, ListSettles, AllKnownPlain;
  }

  lemma EmptiedListMap(o: Value, l: Value, d: Value, key: string)
    requires PlainlyKeyed(key, AsList(o)) && PlainlyKeyed(key, AsList(d))
    ensures MergeListMap(key, AsList(o), AsList(l), AsList(d)) == [] <==> Empties(key, o, l, d)
  {
    MergedToNothing(key, AsList(o), AsList(l), AsList(d));
    NothingFiled(key, AsList(d));
  }

  lemma EmptiedListMapSettles(o: Value, l: Value, d: Value, key: string)
    requires IsList(o) && key == ListKey(o, l, d) != "" && Regular(o, l, d)
    requires MergeListMap(key, AsList(o), AsList(l), AsList(d)) == []
    ensures Merge(Merge(o, l, d), d, d) == Merge(o, l, d) <==> Settles(o, l, d)
  {
    MergeOfList(o, l, d);
    MergeOfList(List([]), d, d);
    RegularIsPlain(o, l, d, key);
    EmptiedListMap(o, l, d, key);
    NothingFiled(key, AsList(d));
    SettlesOfListMap(o, l, d, key);
  }

  lemma RegularIsPlain(o: Value, l: Value, d: Value, key: string)
    requires IsList(o) && key == ListKey(o, l, d) != "" && Regular(o, l, d)
    ensures AllKnownPlain(AsList(o)) && AllKnownPlain(AsList(d))
    ensures PlainlyKeyed(key, AsList(o)) && PlainlyKeyed(key, AsList(d))
  {
    Detection(AsList(o) + AsList(l) + AsList(d), key);
    CarryConcat(AsList(o) + AsList(l), AsList(d), key);
    CarryConcat(AsList(o), AsList(l), key);
  }

  lemma SecondPassOverListMap(o: Value, l: Value, d: Value, key: string)
    requires IsList(o) && key == ListKey(o, l, d) != "" && Regular(o, l, d)
    requires MergeListMap(key, AsList(o), AsList(l), AsList(d)) != []
    ensures var om, lm, dm := File(key, o), File(key, l), File(key, d);
      Merge(Merge(o, l, d), d, d) == Merge(o, l, d) <==>
      GetAlong(key, o, l, d) && MergeMap(MergeMap(om, lm, dm), dm, dm) == MergeMap(om, lm, dm)
  {
    hide Regular, MergeListMap, NoCollision, SameFiling, NextKey, DetectListMapKey, Merge, AllKnownPlain, PlainlyKeyed;
    KnownKeysDiffer();
    var r, next := MergeListMap(key, AsList(o), AsList(l), AsList(d)), NextKey(key, o, l, d);
    RegularIsPlain(o, l, d, key);
    MergeOfList(o, l, d);
    MergeOfList(List(r), d, d);
    NextKeyIsDetected(key, o, l, d);
    SecondPassSettles(key, next, AsList(o), AsList(l), AsList(d));
  }

  lemma {:induction false} ListMapSettles(o: Value, l: Value, d: Value)
    requires Regular(o, l, d) && IsList(o) && ListKey(o, l, d) != ""
    ensures Merge(Merge(o, l, d), d, d) == Merge(o, l, d) <==> Settles(o, l, d)
    decreases Height(d), 1
  {
    var key := ListKey(o, l, d);
    RegularIsPlain(o, l, d, key);
    EmptiedListMap(o, l, d, key);
    if Empties(key, o, l, d) {
      EmptiedListMapSettles(o, l, d, key);
    } else {
      SecondPassOverListMap(o, l, d, key);
      SettlesOfListMap(o, l, d, key);
      FileBelow(key, d);
      MapMergeSettles(File(key, o), File(key, l), File(key, d));
    }
  }

  /** Lists whose items all carry the same known keys get along, so they settle unless desired gives no list for one
      that is emptied. */
  lemma UniformListSettles(key: string, o: Value, l: Value, d: Value)
    requires key == ListKey(o, l, d) != "" && Uniform(AsList(o) + AsList(l) + AsList(d))
    requires PlainlyKeyed(key, AsList(o)) && PlainlyKeyed(key, AsList(d))
    ensures ListSettles(key, o, l, d) <==> (Empties(key, o, l, d) ==> d.List?)
  {
    hide Uniform, Steady, Empties, PlainlyKeyed, NextKey, NoCollision, SameFiling;
    if !Empties(key, o, l, d) {
      EmptiedListMap(o, l, d, key);
      UniformIsSteady(key, o, l, d);
      SameKeyNextTime(key, o, l, d);
      SameKeyIsApart(key, o, l, d);
    }
  }
}
