/** The merge as the program runs it: loops that delete from and write into the observed tree, over
    map keys that Go hands out in no particular order. Each method computes the function of the same
    name, so the order never shows in the result. */
module MergeLoops {
  import opened Basics
  import opened Json
  import opened MergeKey
  import Spec = ThreeWayMerge

  function Flatten(lists: seq<seq<Value>>): seq<Value> {
    if lists == [] then [] else Flatten(lists[..|lists| - 1]) + lists[|lists| - 1]
  }

  ghost predicate IsCommon(common: Option<set<string>>, seen: seq<Value>) {
    match common
    case None => seen == []
    case Some(keys) => seen != [] && AllMaps(seen) && forall k :: k in keys <==> AllCarry(seen, k)
  }

  method Prune(keys: set<string>, item: Value) returns (pruned: set<string>)
    requires item.Map?
    ensures forall k :: k in pruned <==> k in keys && k in item.fields
  {
    pruned := keys;
    var todo := keys;
    while todo != {}
      invariant todo <= keys
      invariant forall k :: k in pruned <==> k in keys && (k in todo || k in item.fields)
      decreases todo
    {
      var key :| key in todo;
      todo := todo - {key};
      if key !in item.fields {
        pruned := pruned - {key};
      }
    }
  }

  method DetectListMapKey(lists: seq<seq<Value>>) returns (mergeKey: string)
    ensures mergeKey == MergeKey.DetectListMapKey(Flatten(lists))
  {
    var common: Option<set<string>> := None;
    ghost var seen := [];
    for i := 0 to |lists|
      invariant seen == Flatten(lists[..i]) && IsCommon(common, seen)
    {
      ghost var before := seen;
      var list := lists[i];
      for j := 0 to |list|
        invariant seen == before + list[..j] && IsCommon(common, seen)
      {
        var item := list[j];
        if !item.Map? {
          FlattenHas(lists, i, j);
          return "";
        }
        CarriedWith(seen, item);
        seen := seen + [item];
        match common
        case None => common := Some(item.fields.Keys);
        case Some(keys) =>
          var pruned := Prune(keys, item);
          common := Some(pruned);
      }
      assert lists[..i + 1][..i] == lists[..i];
    }
    assert lists[..|lists|] == lists;
    for i := 0 to |KNOWN_MERGE_KEYS|
      invariant common.Some? ==> FirstCarried(KNOWN_MERGE_KEYS, seen) == FirstCarried(KNOWN_MERGE_KEYS[i..], seen)
    {
      if common.Some? && KNOWN_MERGE_KEYS[i] in common.value {
        return KNOWN_MERGE_KEYS[i];
      }
    }
    return "";
  }

  lemma CarriedWith(seen: seq<Value>, item: Value)
    ensures forall k :: AllCarry(seen + [item], k) <==> AllCarry(seen, k) && k in AsMap(item)
  {
    forall k ensures AllCarry(seen + [item], k) <==> AllCarry(seen, k) && k in AsMap(item) {
      assert item in seen + [item] && forall v | v in seen :: v in seen + [item];
    }
  }

  lemma {:induction false} FlattenHas(lists: seq<seq<Value>>, i: nat, j: nat)
    requires i < |lists| && j < |lists[i]|
    ensures lists[i][j] in Flatten(lists)
  {
    if i < |lists| - 1 {
      FlattenHas(lists[..|lists| - 1], i, j);
    }
  }

  method MakeMapFromList(mergeKey: string, list: seq<Value>) returns (m: Fields)
    ensures m == Spec.MakeMapFromList(mergeKey, list)
  {
    m := map[];
    ghost var keys := KeysOf(mergeKey, list);
    for i := 0 to |list|
      invariant forall k :: k in m <==> k in keys[..i]
      invariant forall k | k in m :: m[k] == list[Spec.LastIndex(keys[..i], k)]
    {
      m := m[KeyOf(mergeKey, list[i]) := list[i]];
      assert keys[..i + 1] == keys[..i] + [keys[i]];
    }
    assert keys[..|list|] == keys;
  }

  method Merge(observed: Value, lastApplied: Value, desired: Value) returns (merged: Value)
    ensures merged == Spec.Merge(observed, lastApplied, desired)
    decreases Height(desired), 5
  {
    FieldsBelow(AsMap(desired));
    match observed
    case Map(fields) =>
      var dest := MergeMap(fields, AsMap(lastApplied), AsMap(desired));
      merged := Map(dest);
    case List(items) =>
      merged := MergeArray(items, AsList(lastApplied), desired);
    case NilList =>
      merged := MergeArray([], AsList(lastApplied), desired);
    case _ =>
      merged := desired;
  }

  method MergeMap(observed: Fields, lastApplied: Fields, desired: Fields) returns (dest: Fields)
    ensures dest == Spec.MergeMap(observed, lastApplied, desired)
    decreases Height(Map(desired)), 2
  {
    dest := DeleteDropped(observed, lastApplied, desired);
    dest := WriteDesired(dest, lastApplied, desired);
    assert dest == Spec.MergeMap(observed, lastApplied, desired) by {
      var kept := observed - (lastApplied.Keys - desired.Keys);
      forall k | k in dest ensures dest[k] == Spec.MergeMap(observed, lastApplied, desired)[k] {
        assert k in desired ==> Get(kept, k) == Get(observed, k);
      }
    }
  }

  /** The first loop of the map merge. */
  method DeleteDropped(observed: Fields, lastApplied: Fields, desired: Fields) returns (dest: Fields)
    ensures dest == observed - (lastApplied.Keys - desired.Keys)
  {
    dest := observed;
    var todo := lastApplied.Keys;
    while todo != {}
      invariant todo <= lastApplied.Keys
      invariant dest == observed - (lastApplied.Keys - todo - desired.Keys)
      decreases todo
    {
      var key :| key in todo;
      todo := todo - {key};
      if key !in desired {
        dest := dest - {key};
      }
    }
  }

  /** The second loop of the map merge. */
  method WriteDesired(kept: Fields, lastApplied: Fields, desired: Fields) returns (dest: Fields)
    ensures dest == Written(kept, lastApplied, desired)
    decreases Height(Map(desired)), 1
  {
    dest := kept;
    var todo := desired.Keys;
    while todo != {}
      invariant todo <= desired.Keys
      invariant Pending(kept, Written(kept, lastApplied, desired), dest, desired.Keys, todo)
      decreases todo
    {
      var key :| key in todo;
      assert Get(dest, key) == Get(kept, key);
      dest := WriteKey(dest, lastApplied, desired, key);
      todo := todo - {key};
    }
  }

  /** `dest` is `written` except that the keys in `todo` are still as in `kept`. */
  ghost predicate Pending(kept: Fields, written: Fields, dest: Fields, all: set<string>, todo: set<string>) {
    && (forall k :: k in written <==> k in kept || k in all)
    && (forall k :: k in dest <==> k in kept || (k in all && k !in todo))
    && (forall k | k in dest && k in written :: dest[k] == if k in todo then Get(kept, k) else written[k])
  }

  method WriteKey(dest: Fields, lastApplied: Fields, desired: Fields, key: string) returns (r: Fields)
    requires key in desired
    ensures r == dest[key := Spec.Merge(Get(dest, key), Get(lastApplied, key), desired[key])]
    decreases Height(Map(desired)), 0
  {
    FieldsBelow(desired);
    var value := Merge(Get(dest, key), Get(lastApplied, key), desired[key]);
    r := dest[key := value];
  }

  ghost function Written(kept: Fields, lastApplied: Fields, desired: Fields): (r: Fields)
    ensures r.Keys == kept.Keys + desired.Keys
    ensures forall k | k in r && k !in desired :: r[k] == kept[k]
  {
    map k | k in kept.Keys + desired.Keys ::
      if k in desired then Spec.Merge(Get(kept, k), Get(lastApplied, k), desired[k]) else kept[k]
  }

  lemma FlattenThree(a: seq<Value>, b: seq<Value>, c: seq<Value>)
    ensures Flatten([a, b, c]) == a + b + c
  {
    assert [a, b, c][..2] == [a, b] && [a, b][..1] == [a] && [a][..0] == [];
    assert Flatten([]) + a == a;
    assert Flatten([a]) == a && Flatten([a, b]) == a + b;
  }

  method MergeArray(observed: seq<Value>, lastApplied: seq<Value>, desired: Value) returns (merged: Value)
    ensures merged == Spec.MergeArray(observed, lastApplied, desired)
    decreases Height(desired), 4
  {
    var lists := [observed, lastApplied, AsList(desired)];
    var mergeKey := DetectListMapKey(lists);
    FlattenThree(observed, lastApplied, AsList(desired));
    if mergeKey != "" {
      var list := MergeListMap(mergeKey, observed, lastApplied, AsList(desired));
      merged := List(list);
    } else if desired.List? {
      merged := desired;
    } else {
      merged := NilList;
    }
  }

  /** The observed items as the program finds them after the map merge, which wrote into the items it
      took from the list. */
  method ItemsAfterMerge(mergeKey: string, items: seq<Value>, desired: Fields, merged: Fields)
    returns (after: seq<Value>)
    requires desired.Keys <= merged.Keys
    ensures after == Spec.UpdatedInPlace(mergeKey, items, desired, merged)
  {
    after := items;
    var filed: set<string> := {};
    ghost var keys := KeysOf(mergeKey, items);
    ghost var updated := Spec.UpdatedInPlace(mergeKey, items, desired, merged);
    hide Spec.UpdatedInPlace, Spec.ToSet, KeyOf;
    NothingTaken(keys, merged);
    assert items[..|items|] == items && updated[|items|..] == [] && keys[|items|..] == [];
    var i := |items|;
    while i > 0
      invariant 0 <= i <= |items|
      invariant after == items[..i] + updated[i..]
      invariant filed == Spec.ToSet(keys[i..])
    {
      i := i - 1;
      var key := KeyOf(mergeKey, items[i]);
      FiledBack(keys, i);
      UpdatedAt(mergeKey, items, desired, merged, i);
      StepBack(items, updated, i);
      if key in desired && key !in filed {
        after := after[i := merged[key]];
      }
      filed := filed + {key};
    }
  }

  lemma FiledBack(keys: seq<string>, i: nat)
    requires i < |keys|
    ensures Spec.ToSet(keys[i..]) == Spec.ToSet(keys[i + 1..]) + {keys[i]}
    ensures keys[i] in Spec.ToSet(keys[i + 1..]) <==> keys[i] in keys[i + 1..]
  {
    assert keys[i..] == [keys[i]] + keys[i + 1..];
  }

  lemma StepBack(items: seq<Value>, updated: seq<Value>, i: nat)
    requires i < |items| == |updated|
    ensures var after := items[..i + 1] + updated[i + 1..];
      && |after| == |items| && after[i := updated[i]] == items[..i] + updated[i..]
      && (updated[i] == items[i] ==> after == items[..i] + updated[i..])
  {
  }

  lemma UpdatedAt(mergeKey: string, items: seq<Value>, desired: Fields, merged: Fields, i: nat)
    requires desired.Keys <= merged.Keys && i < |items|
    ensures var keys, updated := KeysOf(mergeKey, items), Spec.UpdatedInPlace(mergeKey, items, desired, merged);
      && |updated| == |items|
      && updated[i] == if keys[i] in desired && keys[i] !in keys[i + 1..] then merged[keys[i]] else items[i]
  {
    var keys := KeysOf(mergeKey, items);
    assert forall j | i < j < |keys| :: keys[j] in keys[i + 1..];
  }

  method MergeListMap(mergeKey: string, observed: seq<Value>, lastApplied: seq<Value>, desired: seq<Value>)
    returns (dest: seq<Value>)
    ensures dest == Spec.MergeListMap(mergeKey, observed, lastApplied, desired)
    decreases Height(List(desired)), 3
  {
    var observedMap := MakeMapFromList(mergeKey, observed);
    var lastAppliedMap := MakeMapFromList(mergeKey, lastApplied);
    var desiredMap := MakeMapFromList(mergeKey, desired);
    GatheredBelow(desiredMap, desired);
    var merged := MergeMap(observedMap, lastAppliedMap, desiredMap);
    var after := ItemsAfterMerge(mergeKey, observed, desiredMap, merged);

    dest := ListFromMap(mergeKey, after, desired, merged);
  }

  /** Turns the merged map back into a list. */
  method ListFromMap(mergeKey: string, after: seq<Value>, desired: seq<Value>, merged: Fields)
    returns (dest: seq<Value>)
    requires forall k | k in KeysOf(mergeKey, desired) :: k in merged
    ensures var kept := Spec.Survivors(KeysOf(mergeKey, after), merged.Keys);
      dest == Spec.Pick(merged, kept + Spec.Newcomers(KeysOf(mergeKey, desired), Spec.ToSet(kept)))
  {
    var list, added := TakeObserved(mergeKey, after, merged);
    dest := AppendNew(mergeKey, desired, merged, added, list, Spec.Survivors(KeysOf(mergeKey, after), merged.Keys));
  }

  /** The observed items that are still in the map, in their order. */
  method TakeObserved(mergeKey: string, after: seq<Value>, merged: Fields)
    returns (list: seq<Value>, added: set<string>)
    ensures var kept := Spec.Survivors(KeysOf(mergeKey, after), merged.Keys);
      list == Spec.Pick(merged, kept) && added == Spec.ToSet(kept)
  {
    hide Spec.Survivors, Spec.Pick, Spec.ToSet, KeyOf;
    list, added := [], {};
    ghost var order, keys := [], KeysOf(mergeKey, after);
    NothingTaken(keys, merged);
    for i := 0 to |after|
      invariant order + Spec.Survivors(keys[i..], merged.Keys) == Spec.Survivors(keys, merged.Keys)
      invariant forall k | k in order :: k in merged
      invariant list == Spec.Pick(merged, order) && added == Spec.ToSet(order)
    {
      var key := KeyOf(mergeKey, after[i]);
      SurvivorsStep(keys, i, merged.Keys);
      PickOneMore(merged, order, key);
      if key in merged {
        list := list + [merged[key]];
        added := added + {key};
        order := order + [key];
      }
    }
    assert order == Spec.Survivors(keys, merged.Keys);
  }

  lemma SurvivorsStep(keys: seq<string>, i: nat, present: set<string>)
    requires i < |keys|
    ensures Spec.Survivors(keys[i..], present)
      == (if keys[i] in present then [keys[i]] else []) + Spec.Survivors(keys[i + 1..], present)
  {
    assert keys[i..][0] == keys[i] && keys[i..][1..] == keys[i + 1..];
  }

  lemma NothingTaken(keys: seq<string>, merged: Fields)
    ensures Spec.Pick(merged, []) == [] && Spec.ToSet([]) == {}
    ensures keys[0..] == keys && Spec.Survivors(keys[|keys|..], merged.Keys) == []
  {
  }

  lemma PickOneMore(merged: Fields, order: seq<string>, key: string)
    requires forall k | k in order :: k in merged
    ensures key in merged ==> Spec.Pick(merged, order + [key]) == Spec.Pick(merged, order) + [merged[key]]
    ensures Spec.ToSet(order + [key]) == Spec.ToSet(order) + {key}
  {
  }

  /** Appends the desired items that are not in the list yet. */
  method AppendNew(mergeKey: string, desired: seq<Value>, merged: Fields, already: set<string>, list: seq<Value>,
      ghost kept: seq<string>)
    returns (dest: seq<Value>)
    requires forall k | k in kept :: k in merged
    requires forall k | k in KeysOf(mergeKey, desired) :: k in merged
    requires list == Spec.Pick(merged, kept)
    ensures dest == Spec.Pick(merged, kept + Spec.Newcomers(KeysOf(mergeKey, desired), already))
  {
    dest := list;
    var added := already;
    ghost var order, keys := kept, KeysOf(mergeKey, desired);
    for i := 0 to |desired|
      invariant order + Spec.Newcomers(keys[i..], added) == kept + Spec.Newcomers(keys, already)
      invariant forall k | k in order :: k in merged
      invariant dest == Spec.Pick(merged, order)
    {
      var key := KeyOf(mergeKey, desired[i]);
      assert keys[i..][0] == key && keys[i..][1..] == keys[i + 1..];
      if key !in added {
        dest := dest + [merged[key]];
        added := added + {key};
        order := order + [key];
      }
    }
  }
}
