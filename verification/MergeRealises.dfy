/** What the merged tree takes from the desired state, and what it leaves as observed. */
module MergeRealises {
  import opened Basics
  import opened Json
  import opened MergeKey
  import opened ThreeWayMerge
  import opened ListMaps
  import opened MergeFixpoint

  // ---- outside the desired state nothing changes but what was dropped

  datatype Lookup = Absent | Present(value: Value)

  function At(fields: Fields, path: seq<string>): Lookup
    decreases |path|
  {
    if path == [] then Present(Map(fields))
    else if path[0] !in fields then Absent
    else if |path| == 1 then Present(fields[path[0]])
    else if fields[path[0]].Map? then At(fields[path[0]].fields, path[1..])
    else Absent
  }

  /** Desired sets the path, or it or a prefix of it was last applied and is no longer desired. */
  ghost predicate Governed(l: Fields, d: Fields, path: seq<string>)
    decreases |path|
  {
    path != [] &&
    if path[0] in d then |path| == 1 || Governed(AsMap(Get(l, path[0])), AsMap(d[path[0]]), path[1..])
    else path[0] in l
  }

  lemma {:induction false} UngovernedPathsStay(o: Fields, l: Fields, d: Fields, path: seq<string>)
    requires path != [] && !Governed(l, d, path)
    ensures At(MergeMap(o, l, d), path) == At(o, path)
    decreases |path|
  {
    var k := path[0];
    if k in d {
      MergedField(o, l, d, k);
      if Get(o, k).Map? {
        MergeOfMap(o[k], Get(l, k), d[k]);
        UngovernedPathsStay(o[k].fields, AsMap(Get(l, k)), AsMap(d[k]), path[1..]);
      } else if IsScalar(Get(o, k)) {
        MergeOfScalar(Get(o, k), Get(l, k), d[k]);
        UngovernedIsAbsent(AsMap(Get(l, k)), AsMap(d[k]), path[1..]);
      } else {
        MergeOfList(o[k], Get(l, k), d[k]);
      }
    }
  }

  lemma {:induction false} UngovernedIsAbsent(l: Fields, d: Fields, path: seq<string>)
    requires path != [] && !Governed(l, d, path)
    ensures At(d, path) == Absent
    decreases |path|
  {
    if path[0] !in d || !d[path[0]].Map? {
    } else {
      UngovernedIsAbsent(AsMap(Get(l, path[0])), d[path[0]].fields, path[1..]);
    }
  }

  /** A path that desired does not set is gone if it or a prefix was last applied and is no longer desired. */
  lemma {:induction false} DroppedPathsGo(o: Fields, l: Fields, d: Fields, path: seq<string>)
    requires path != [] && Governed(l, d, path) && At(d, path) == Absent
    ensures At(MergeMap(o, l, d), path) == Absent
    decreases |path|
  {
    var k := path[0];
    if k !in d {
    } else {
      MergedField(o, l, d, k);
      if Get(o, k).Map? {
        MergeOfMap(o[k], Get(l, k), d[k]);
        assert At(AsMap(d[k]), path[1..]) == Absent;
        DroppedPathsGo(o[k].fields, AsMap(Get(l, k)), AsMap(d[k]), path[1..]);
      } else if IsScalar(Get(o, k)) {
        MergeOfScalar(Get(o, k), Get(l, k), d[k]);
      } else {
        MergeOfList(o[k], Get(l, k), d[k]);
      }
    }
  }

  /** A path that was last applied and that desired does not set is governed. */
  lemma {:induction false} AppliedPathsAreGoverned(l: Fields, d: Fields, path: seq<string>)
    requires path != [] && At(l, path) != Absent && At(d, path) == Absent
    ensures Governed(l, d, path)
    decreases |path|
  {
    if path[0] !in d || |path| == 1 {
    } else {
      AppliedPathsAreGoverned(l[path[0]].fields, AsMap(d[path[0]]), path[1..]);
    }
  }

  // ---- the desired state is in the result

  /** Wherever the merge meets list maps, merge-key values are scalars. */
  ghost predicate Addressable(o: Value, l: Value, d: Value)
    decreases Height(d), 1
  {
    var key := ListKey(o, l, d);
    FileBelow(key, d);
    && (o.Map? && d.Map? ==> FieldsAddressable(o.fields, AsMap(l), d.fields))
    && (IsList(o) && key != "" ==>
      && PlainlyKeyed(key, AsList(o)) && PlainlyKeyed(key, AsList(d))
      && FieldsAddressable(File(key, o), File(key, l), File(key, d)))
  }

  ghost predicate FieldsAddressable(o: Fields, l: Fields, d: Fields)
    decreases Height(Map(d)), 0
  {
    FieldsBelow(d);
    forall k | k in d :: Addressable(Get(o, k), Get(l, k), d[k])
  }

  /** Every value that desired sets is in `r`; items of a list map are found under their merge key, the last one if
      several have it. */
  ghost predicate Realised(o: Value, l: Value, d: Value, r: Value)
    decreases Height(d), 1
  {
    var key := ListKey(o, l, d);
    FileBelow(key, d);
    if o.Map? && d.Map? then
      r.Map? && FieldsRealised(o.fields, AsMap(l), d.fields, r.fields)
    else if IsList(o) && d.List? && key != "" then
      r.List? && FieldsRealised(File(key, o), File(key, l), File(key, d), File(key, r))
    else
      r == d
  }

  ghost predicate FieldsRealised(o: Fields, l: Fields, d: Fields, r: Fields)
    decreases Height(Map(d)), 0
  {
    FieldsBelow(d);
    forall k | k in d :: k in r && Realised(Get(o, k), Get(l, k), d[k], r[k])
  }

  /** Observed has a map only where desired has one, and a list only where desired has one. */
  ghost predicate Compatible(o: Value, l: Value, d: Value)
    decreases Height(d), 1
  {
    var key := ListKey(o, l, d);
    FileBelow(key, d);
    if o.Map? then d.Map? && FieldsCompatible(o.fields, AsMap(l), d.fields)
    else if IsList(o) then
      && (d.List? || (d.NilList? && key == ""))
      && (key != "" ==> FieldsCompatible(File(key, o), File(key, l), File(key, d)))
    else
      true
  }

  ghost predicate FieldsCompatible(o: Fields, l: Fields, d: Fields)
    decreases Height(Map(d)), 0
  {
    FieldsBelow(d);
    forall k | k in d :: Compatible(Get(o, k), Get(l, k), d[k])
  }

  /** The merge realises the desired state exactly when the shapes are compatible. */
  lemma {:induction false} DesiredIsRealised(o: Value, l: Value, d: Value)
    requires Addressable(o, l, d)
    ensures Realised(o, l, d, Merge(o, l, d)) <==> Compatible(o, l, d)
    decreases Height(d), 2
  {
    if o.Map? {
      MergeOfMap(o, l, d);
      if d.Map? {
        DesiredFieldsAreRealised(o.fields, AsMap(l), d.fields);
      }
    } else if IsScalar(o) {
      MergeOfScalar(o, l, d);
    } else {
      MergeOfList(o, l, d);
      if d.List? && ListKey(o, l, d) != "" {
        DesiredItemsAreRealised(o, l, d, ListKey(o, l, d));
      }
    }
  }

  lemma {:induction false} DesiredItemsAreRealised(o: Value, l: Value, d: Value, key: string)
    requires Addressable(o, l, d) && IsList(o) && d.List? && key == ListKey(o, l, d) != ""
    ensures Realised(o, l, d, List(MergeListMap(key, AsList(o), AsList(l), d.items))) <==> Compatible(o, l, d)
    decreases Height(d), 1
  {
    hide *;
    var r := MergeListMap(key, AsList(o), AsList(l), d.items);
    OfListMap(o, l, d, List(r), key);
    MergedItemsFile(key, AsList(o), AsList(l), d);
    FileBelow(key, d);
    DesiredFieldsAreRealised(File(key, o), File(key, l), File(key, d));
  }

  lemma MergedItemsFile(key: string, o: seq<Value>, l: seq<Value>, d: Value)
    requires d.List? && PlainlyKeyed(key, o) && PlainlyKeyed(key, d.items)
    ensures File(key, List(MergeListMap(key, o, l, d.items)))
      == MergeMap(MakeMapFromList(key, o), MakeMapFromList(key, l), File(key, d))
  {
    MergedListMap(key, o, l, d.items);
    hide MergeListMap, MakeMapFromList, MergeMap;
  }

  /** One step of the definitions for list maps. */
  lemma OfListMap(o: Value, l: Value, d: Value, r: Value, key: string)
    requires IsList(o) && d.List? && r.List? && key == ListKey(o, l, d) != ""
    ensures Addressable(o, l, d) ==> (
      && PlainlyKeyed(key, AsList(o)) && PlainlyKeyed(key, d.items)
      && FieldsAddressable(File(key, o), File(key, l), File(key, d)))
    ensures Realised(o, l, d, r) <==> FieldsRealised(File(key, o), File(key, l), File(key, d), File(key, r))
    ensures Compatible(o, l, d) <==> FieldsCompatible(File(key, o), File(key, l), File(key, d))
    ensures File(key, o) == MakeMapFromList(key, AsList(o)) && File(key, l) == MakeMapFromList(key, AsList(l))
    ensures AsList(d) == d.items
  {
    hide ListKey, MakeMapFromList, FieldsRealised, FieldsCompatible, FieldsAddressable, PlainlyKeyed;
  }

  lemma {:induction false} DesiredFieldsAreRealised(o: Fields, l: Fields, d: Fields)
    requires FieldsAddressable(o, l, d)
    ensures FieldsRealised(o, l, d, MergeMap(o, l, d)) <==> FieldsCompatible(o, l, d)
    decreases Height(Map(d)), 0
  {
    FieldsBelow(d);
    forall k | k in d
      ensures Realised(Get(o, k), Get(l, k), d[k], MergeMap(o, l, d)[k]) <==> Compatible(Get(o, k), Get(l, k), d[k])
    {
      MergedField(o, l, d, k);
      DesiredIsRealised(Get(o, k), Get(l, k), d[k]);
    }
  }
}
