/** What merging two list maps yields: which items, filed under which keys, in which order. */
module ListMaps {
  import opened Basics
  import opened Json
  import opened MergeKey
  import opened ThreeWayMerge

  /** A map that carries the merge key, with a scalar under it: not a map or a list that merging could
      rewrite. */
  ghost predicate PlainItem(mergeKey: string, v: Value) {
    v.Map? && mergeKey in v.fields && IsScalar(v.fields[mergeKey])
  }

  ghost predicate PlainlyKeyed(mergeKey: string, items: seq<Value>) {
    forall v | v in items :: PlainItem(mergeKey, v)
  }

  ghost function MergedItems(mergeKey: string, o: seq<Value>, l: seq<Value>, d: seq<Value>): Fields {
    MergeMap(MakeMapFromList(mergeKey, o), MakeMapFromList(mergeKey, l), MakeMapFromList(mergeKey, d))
  }

  /** The surviving observed keys in observed order, then the new desired keys in desired order. */
  ghost function PlainOrder(mergeKey: string, o: seq<Value>, d: seq<Value>, domain: set<string>): seq<string> {
    var kept := Survivors(KeysOf(mergeKey, o), domain);
    kept + Newcomers(KeysOf(mergeKey, d), ToSet(kept))
  }

  // ---- merging never changes the key of an item

  lemma MergedItemIsPlain(mergeKey: string, o: Value, l: Value, d: Value)
    requires PlainItem(mergeKey, o) && PlainItem(mergeKey, d)
    ensures PlainItem(mergeKey, Merge(o, l, d)) && KeyOf(mergeKey, Merge(o, l, d)) == KeyOf(mergeKey, d)
  {
    MergeOfMap(o, l, d);
    MergedField(o.fields, AsMap(l), d.fields, mergeKey);
    MergeOfScalar(o.fields[mergeKey], Get(AsMap(l), mergeKey), d.fields[mergeKey]);
  }

  lemma MergedItem(mergeKey: string, o: seq<Value>, l: seq<Value>, d: seq<Value>, k: string)
    requires PlainlyKeyed(mergeKey, o) && PlainlyKeyed(mergeKey, d)
    requires k in MergedItems(mergeKey, o, l, d)
    ensures var v := MergedItems(mergeKey, o, l, d)[k]; PlainItem(mergeKey, v) && KeyOf(mergeKey, v) == k
  {
    var om, lm, dm := MakeMapFromList(mergeKey, o), MakeMapFromList(mergeKey, l), MakeMapFromList(mergeKey, d);
    if k in dm {
      MergedField(om, lm, dm, k);
      if k in om {
        MergedItemIsPlain(mergeKey, om[k], Get(lm, k), dm[k]);
      } else {
        MergeOfScalar(Null, Get(lm, k), dm[k]);
      }
    }
  }

  /** Merging changes the key of no item. */
  ghost predicate KeysKept(mergeKey: string, o: seq<Value>, l: seq<Value>, d: seq<Value>) {
    var merged := MergedItems(mergeKey, o, l, d);
    forall k | k in merged :: KeyOf(mergeKey, merged[k]) == k
  }

  /** The values under the merge key, of the items filed under `k`. */
  ghost function KeyValue(mergeKey: string, items: seq<Value>, k: string): Value {
    Get(AsMap(Get(MakeMapFromList(mergeKey, items), k)), mergeKey)
  }

  /** Wherever observed and desired have an item under the same key, merging the values under the merge key does not
      change the text they are filed under. */
  ghost predicate ValuesKeepKeys(mergeKey: string, o: seq<Value>, l: seq<Value>, d: seq<Value>) {
    forall k | k in KeysOf(mergeKey, o) && k in KeysOf(mergeKey, d) ::
      StringMergeKey(Merge(KeyValue(mergeKey, o, k), KeyValue(mergeKey, l, k), KeyValue(mergeKey, d, k))) == k
  }

  lemma MergedKeyValue(mergeKey: string, o: seq<Value>, l: seq<Value>, d: seq<Value>, k: string)
    requires AllMaps(o) && AllMaps(d) && AllCarry(d, mergeKey) && k in KeysOf(mergeKey, o) && k in KeysOf(mergeKey, d)
    ensures var merged := MergedItems(mergeKey, o, l, d);
      k in merged && KeyOf(mergeKey, merged[k]) ==
        StringMergeKey(Merge(KeyValue(mergeKey, o, k), KeyValue(mergeKey, l, k), KeyValue(mergeKey, d, k)))
  {
    var om, lm, dm := MakeMapFromList(mergeKey, o), MakeMapFromList(mergeKey, l), MakeMapFromList(mergeKey, d);
    assert k in om && k in dm;
    MergedField(om, lm, dm, k);
    MergeOfMap(om[k], Get(lm, k), dm[k]);
    MergedField(om[k].fields, AsMap(Get(lm, k)), dm[k].fields, mergeKey);
  }

  /** Whether merging keeps the keys is decided by the values under the merge key. */
  lemma KeysKeptExactly(mergeKey: string, o: seq<Value>, l: seq<Value>, d: seq<Value>)
    requires AllMaps(o) && AllMaps(d) && AllCarry(d, mergeKey)
    ensures KeysKept(mergeKey, o, l, d) <==> ValuesKeepKeys(mergeKey, o, l, d)
  {
    var om, lm, dm := MakeMapFromList(mergeKey, o), MakeMapFromList(mergeKey, l), MakeMapFromList(mergeKey, d);
    var merged := MergedItems(mergeKey, o, l, d);
    forall k ensures k in om <==> k in KeysOf(mergeKey, o) {
    }
    forall k ensures k in dm <==> k in KeysOf(mergeKey, d) {
    }
    forall k | k in merged && !(k in om && k in dm) ensures KeyOf(mergeKey, merged[k]) == k {
      if k in dm {
        MergedField(om, lm, dm, k);
        MergeOfScalar(Null, Get(lm, k), dm[k]);
      }
    }
    forall k | k in KeysOf(mergeKey, o) && k in KeysOf(mergeKey, d) {
      MergedKeyValue(mergeKey, o, l, d, k);
    }
    hide MergedItems, KeyOf, KeyValue, MakeMapFromList, StringMergeKey;
  }

  /** Scalars keep them. */
  lemma PlainKeysAreKept(mergeKey: string, o: seq<Value>, l: seq<Value>, d: seq<Value>)
    requires PlainlyKeyed(mergeKey, o) && PlainlyKeyed(mergeKey, d)
    ensures KeysKept(mergeKey, o, l, d)
  {
    forall k | k in KeysOf(mergeKey, o) && k in KeysOf(mergeKey, d)
      ensures StringMergeKey(Merge(KeyValue(mergeKey, o, k), KeyValue(mergeKey, l, k), KeyValue(mergeKey, d, k))) == k
    {
      var om, dm := MakeMapFromList(mergeKey, o), MakeMapFromList(mergeKey, d);
      assert k in om && k in dm && PlainItem(mergeKey, om[k]) && KeyOf(mergeKey, dm[k]) == k;
      MergeOfScalar(KeyValue(mergeKey, o, k), KeyValue(mergeKey, l, k), KeyValue(mergeKey, d, k));
    }
    KeysKeptExactly(mergeKey, o, l, d);
  }

  lemma MergingKeepsKeys(mergeKey: string, o: seq<Value>, l: seq<Value>, d: seq<Value>)
    requires KeysKept(mergeKey, o, l, d)
    ensures var merged := MergedItems(mergeKey, o, l, d);
      ListMapOrder(mergeKey, o, d, merged) == PlainOrder(mergeKey, o, d, merged.Keys)
  {
    var merged := MergedItems(mergeKey, o, l, d);
    var after := UpdatedInPlace(mergeKey, o, MakeMapFromList(mergeKey, d), merged);
    forall i | 0 <= i < |o| ensures KeyOf(mergeKey, after[i]) == KeyOf(mergeKey, o[i]) {
    }
    assert KeysOf(mergeKey, after) == KeysOf(mergeKey, o);
  }

  // ---- the merged list is the merged map, read in that order

  /** Reading a map whose values file under their own keys gives a list that files back into it. */
  lemma PickFilesBack(mergeKey: string, m: Fields, keys: seq<string>)
    requires ToSet(keys) == m.Keys
    requires forall k | k in m :: KeyOf(mergeKey, m[k]) == k
    ensures KeysOf(mergeKey, Pick(m, keys)) == keys
    ensures MakeMapFromList(mergeKey, Pick(m, keys)) == m
  {
    assert KeysOf(mergeKey, Pick(m, keys)) == keys;
    assert forall k :: k in keys <==> k in m.Keys by {
      assert forall k :: k in keys <==> k in ToSet(keys);
    }
  }

  lemma OrderCovers(mergeKey: string, o: seq<Value>, l: seq<Value>, d: seq<Value>)
    ensures var domain := MergedItems(mergeKey, o, l, d).Keys;
      ToSet(PlainOrder(mergeKey, o, d, domain)) == domain
  {
  }

  lemma KeptKeysFileBack(mergeKey: string, o: seq<Value>, l: seq<Value>, d: seq<Value>)
    ensures var merged, r := MergedItems(mergeKey, o, l, d), MergeListMap(mergeKey, o, l, d);
      && (MakeMapFromList(mergeKey, r) == merged <==> KeysKept(mergeKey, o, l, d))
      && (KeysKept(mergeKey, o, l, d) ==> (
        && KeysOf(mergeKey, r) == PlainOrder(mergeKey, o, d, merged.Keys)
        && ToSet(KeysOf(mergeKey, r)) == merged.Keys
        && r == Pick(merged, KeysOf(mergeKey, r))))
  {
    var merged := MergedItems(mergeKey, o, l, d);
    if KeysKept(mergeKey, o, l, d) {
      MergingKeepsKeys(mergeKey, o, l, d);
      OrderCovers(mergeKey, o, l, d);
      PickFilesBack(mergeKey, merged, PlainOrder(mergeKey, o, d, merged.Keys));
    }
  }

  /** The merged list files back into the merged map exactly if the values under the merge key keep their text when
      they are merged. Then it has the items of the map: the surviving observed ones in observed order, then the new
      desired ones in desired order. */
  lemma FilesBackExactly(mergeKey: string, o: seq<Value>, l: seq<Value>, d: seq<Value>)
    requires AllMaps(o) && AllMaps(d) && AllCarry(d, mergeKey)
    ensures var merged, r := MergedItems(mergeKey, o, l, d), MergeListMap(mergeKey, o, l, d);
      && (MakeMapFromList(mergeKey, r) == merged <==> ValuesKeepKeys(mergeKey, o, l, d))
      && (ValuesKeepKeys(mergeKey, o, l, d) ==> (
        && KeysOf(mergeKey, r) == PlainOrder(mergeKey, o, d, merged.Keys)
        && ToSet(KeysOf(mergeKey, r)) == merged.Keys
        && r == Pick(merged, KeysOf(mergeKey, r))))
  {
    hide *;
    KeysKeptExactly(mergeKey, o, l, d);
    KeptKeysFileBack(mergeKey, o, l, d);
  }

  /** So it does when the merge-key values are scalars. */
  lemma MergedListMap(mergeKey: string, o: seq<Value>, l: seq<Value>, d: seq<Value>)
    requires PlainlyKeyed(mergeKey, o) && PlainlyKeyed(mergeKey, d)
    ensures var merged, r := MergedItems(mergeKey, o, l, d), MergeListMap(mergeKey, o, l, d);
      && KeysOf(mergeKey, r) == PlainOrder(mergeKey, o, d, merged.Keys)
      && ToSet(KeysOf(mergeKey, r)) == merged.Keys
      && r == Pick(merged, KeysOf(mergeKey, r))
      && MakeMapFromList(mergeKey, r) == merged
      && PlainlyKeyed(mergeKey, r)
  {
    PlainKeysAreKept(mergeKey, o, l, d);
    KeptKeysFileBack(mergeKey, o, l, d);
    forall k | k in MergedItems(mergeKey, o, l, d) ensures PlainItem(mergeKey, MergedItems(mergeKey, o, l, d)[k]) {
      MergedItem(mergeKey, o, l, d, k);
    }
    hide MergeListMap, MergedItems, KeyOf, MakeMapFromList, PlainOrder;
  }

  lemma PickMembers(m: Fields, keys: seq<string>)
    requires ToSet(keys) == m.Keys
    ensures forall k | k in m :: m[k] in Pick(m, keys)
    ensures forall v | v in Pick(m, keys) :: exists k | k in m :: v == m[k]
  {
    forall k | k in m ensures m[k] in Pick(m, keys) {
      assert k in ToSet(keys);
      var j :| 0 <= j < |keys| && keys[j] == k;
      assert Pick(m, keys)[j] == m[k];
    }
  }

  /** The merged list holds an item for every key of the merged map, and nothing else. */
  lemma MergedItemsAt(mergeKey: string, o: seq<Value>, l: seq<Value>, d: seq<Value>)
    requires PlainlyKeyed(mergeKey, o) && PlainlyKeyed(mergeKey, d)
    ensures var merged, r := MergedItems(mergeKey, o, l, d), MergeListMap(mergeKey, o, l, d);
      && (forall k | k in merged :: merged[k] in r && KeyOf(mergeKey, merged[k]) == k)
      && (forall v | v in r :: KeyOf(mergeKey, v) in merged && v == merged[KeyOf(mergeKey, v)])
  {
    var merged, r := MergedItems(mergeKey, o, l, d), MergeListMap(mergeKey, o, l, d);
    MergedListMap(mergeKey, o, l, d);
    PickMembers(merged, KeysOf(mergeKey, r));
    forall k | k in merged ensures KeyOf(mergeKey, merged[k]) == k {
      MergedItem(mergeKey, o, l, d, k);
    }
  }

  lemma DistinctlyFiled(mergeKey: string, items: seq<Value>)
    requires Distinct(KeysOf(mergeKey, items))
    ensures var m := MakeMapFromList(mergeKey, items);
      forall v | v in items :: KeyOf(mergeKey, v) in m && m[KeyOf(mergeKey, v)] == v
  {
    var keys := KeysOf(mergeKey, items);
    forall v | v in items
      ensures KeyOf(mergeKey, v) in MakeMapFromList(mergeKey, items)
      ensures MakeMapFromList(mergeKey, items)[KeyOf(mergeKey, v)] == v
    {
      var i :| 0 <= i < |items| && items[i] == v;
      assert keys[i] in keys && LastIndex(keys, keys[i]) == i;
    }
  }

  lemma NothingFiled(mergeKey: string, items: seq<Value>)
    ensures MakeMapFromList(mergeKey, items).Keys == {} <==> items == []
  {
    assert items != [] ==> KeysOf(mergeKey, items)[0] in MakeMapFromList(mergeKey, items);
  }

  lemma MergedToNothing(mergeKey: string, o: seq<Value>, l: seq<Value>, d: seq<Value>)
    requires PlainlyKeyed(mergeKey, o) && PlainlyKeyed(mergeKey, d)
    ensures MergeListMap(mergeKey, o, l, d) == [] <==> MergedItems(mergeKey, o, l, d).Keys == {}
  {
    MergedListMap(mergeKey, o, l, d);
    NothingFiled(mergeKey, MergeListMap(mergeKey, o, l, d));
  }

  // ---- the order of the merged list

  lemma {:induction false} SurvivorsInOrder(keys: seq<string>, domain: set<string>) returns (at: seq<nat>)
    ensures Selects(Survivors(keys, domain), keys, at)
    ensures forall p: nat :: p in at <==> p < |keys| && keys[p] in domain
  {
    if keys == [] {
      at := [];
    } else {
      var rest := SurvivorsInOrder(keys[1..], domain);
      var r := Survivors(keys[1..], domain);
      assert Survivors(keys, domain) == if keys[0] in domain then [keys[0]] + r else r;
      SelectsLater(r, keys, rest);
      hide Selects, Later, Survivors;
      at := if keys[0] in domain then [0] + Later(rest) else Later(rest);
      forall p: nat ensures p in at <==> p < |keys| && keys[p] in domain {
        InLater(rest, p);
        if 0 < p < |keys| {
          assert keys[1..][p - 1] == keys[p];
        }
      }
    }
  }

  lemma {:induction false} NewcomersInOrder(keys: seq<string>, added: set<string>) returns (at: seq<nat>)
    ensures Selects(Newcomers(keys, added), keys, at)
    ensures forall p: nat :: p in at <==> IsNewcomer(keys, added, p)
  {
    if keys == [] {
      at := [];
    } else {
      var more := added + {keys[0]};
      assert keys[0] in added ==> more == added;
      var rest := NewcomersInOrder(keys[1..], more);
      SelectsLater(Newcomers(keys[1..], more), keys, rest);
      at := if keys[0] in added then Later(rest) else [0] + Later(rest);
      hide Selects, Later, IsNewcomer;
      forall p: nat ensures p in at <==> IsNewcomer(keys, added, p) {
        InLater(rest, p);
        NewcomerLater(keys, added, p);
      }
    }
  }

  /** A key that was not added before, at its first occurrence. */
  ghost predicate IsNewcomer(keys: seq<string>, added: set<string>, p: nat) {
    p < |keys| && keys[p] !in added && keys[p] !in keys[..p]
  }

  lemma NewcomerLater(keys: seq<string>, added: set<string>, p: nat)
    requires keys != []
    ensures IsNewcomer(keys, added, p) <==>
      if p == 0 then keys[0] !in added else IsNewcomer(keys[1..], added + {keys[0]}, p - 1)
  {
    if 0 < p < |keys| {
      assert keys[..p] == [keys[0]] + keys[1..][..p - 1];
    }
  }

  /** Told without the loops: the merged list has first, as they stand in the observed list, all items whose key was not
      last applied or is desired, and then, as they stand in the desired list, the first item of every key that is not
      observed. */
  lemma MergedOrder(mergeKey: string, o: seq<Value>, l: seq<Value>, d: seq<Value>)
    returns (n: nat, kept: seq<nat>, more: seq<nat>)
    requires AllMaps(o) && AllMaps(d) && AllCarry(d, mergeKey) && ValuesKeepKeys(mergeKey, o, l, d)
    ensures var keys := KeysOf(mergeKey, MergeListMap(mergeKey, o, l, d));
      n <= |keys| && Selects(keys[..n], KeysOf(mergeKey, o), kept) && Selects(keys[n..], KeysOf(mergeKey, d), more)
    ensures forall p: nat :: p in kept <==>
      p < |o| && (KeyOf(mergeKey, o[p]) in KeysOf(mergeKey, l) ==> KeyOf(mergeKey, o[p]) in KeysOf(mergeKey, d))
    ensures forall p: nat :: p in more <==>
      p < |d| && KeyOf(mergeKey, d[p]) !in KeysOf(mergeKey, o) && KeyOf(mergeKey, d[p]) !in KeysOf(mergeKey, d)[..p]
  {
    hide *;
    var ko, kl, kd := KeysOf(mergeKey, o), KeysOf(mergeKey, l), KeysOf(mergeKey, d);
    var domain := MergedItems(mergeKey, o, l, d).Keys;
    MergedDomain(mergeKey, o, l, d);
    FilesBackExactly(mergeKey, o, l, d);
    var survivors := Survivors(ko, domain);
    kept := SurvivorsInOrder(ko, domain);
    more := NewcomersInOrder(kd, ToSet(survivors));
    n := |survivors|;
    var keys := KeysOf(mergeKey, MergeListMap(mergeKey, o, l, d));
    PlainOrderParts(mergeKey, o, d, domain);
    assert keys == survivors + Newcomers(kd, ToSet(survivors));
    assert keys[..n] == survivors && keys[n..] == Newcomers(kd, ToSet(survivors));
    forall p: nat ensures p in more <==> p < |kd| && kd[p] !in ko && kd[p] !in kd[..p] {
      NewcomerAt(kd, ko, survivors, p);
    }
  }

  lemma PlainOrderParts(mergeKey: string, o: seq<Value>, d: seq<Value>, domain: set<string>)
    ensures var survivors := Survivors(KeysOf(mergeKey, o), domain);
      PlainOrder(mergeKey, o, d, domain) == survivors + Newcomers(KeysOf(mergeKey, d), ToSet(survivors))
  {
  }

  lemma NewcomerAt(kd: seq<string>, ko: seq<string>, survivors: seq<string>, p: nat)
    requires forall k | k in kd :: k in survivors <==> k in ko
    ensures IsNewcomer(kd, ToSet(survivors), p) <==> p < |kd| && kd[p] !in ko && kd[p] !in kd[..p]
  {
  }

  lemma MergedDomain(mergeKey: string, o: seq<Value>, l: seq<Value>, d: seq<Value>)
    ensures forall k :: k in MergedItems(mergeKey, o, l, d).Keys <==>
      || k in KeysOf(mergeKey, d)
      || (k in KeysOf(mergeKey, o) && k !in KeysOf(mergeKey, l))
  {
  }

  /** An item of the merged list that desired does not have is the last observed one with its key, as it is. */
  lemma UndesiredItemsStay(mergeKey: string, o: seq<Value>, l: seq<Value>, d: seq<Value>, j: nat) returns (p: nat)
    requires AllMaps(o) && AllMaps(d) && AllCarry(d, mergeKey) && ValuesKeepKeys(mergeKey, o, l, d)
    requires j < |MergeListMap(mergeKey, o, l, d)|
    requires KeyOf(mergeKey, MergeListMap(mergeKey, o, l, d)[j]) !in KeysOf(mergeKey, d)
    ensures p < |o| && MergeListMap(mergeKey, o, l, d)[j] == o[p]
    ensures forall q | p < q < |o| :: KeyOf(mergeKey, o[q]) != KeyOf(mergeKey, o[p])
  {
    FilesBackExactly(mergeKey, o, l, d);
    var merged, r := MergedItems(mergeKey, o, l, d), MergeListMap(mergeKey, o, l, d);
    var k := KeyOf(mergeKey, r[j]);
    assert KeysOf(mergeKey, r)[j] == k && k in merged && r[j] == merged[k];
    MergedDomain(mergeKey, o, l, d);
    assert k in KeysOf(mergeKey, o);
    p := LastIndex(KeysOf(mergeKey, o), k);
  }

  // ---- the lists that are merged so

  /** Lists are merged by the first known key that all items of the observed, the last applied and the desired one
      carry, if all are maps; every other list is replaced. */
  lemma ListsByKey(o: seq<Value>, l: seq<Value>, d: seq<Value>, key: string)
    requires o + l + d != [] && AllMaps(o + l + d) && key in KNOWN_MERGE_KEYS && AllCarry(o + l + d, key)
    requires forall a | Precedes(a, key) :: !AllCarry(o + l + d, a)
    ensures Merge(List(o), List(l), List(d)) == List(MergeListMap(key, o, l, d))
  {
    KnownKeysDiffer();
    Detection(o + l + d, key);
    MergeOfList(List(o), List(l), List(d));
  }

  lemma OtherListsAreReplaced(o: seq<Value>, l: seq<Value>, d: seq<Value>)
    requires o + l + d == [] || !AllMaps(o + l + d) || forall key | key in KNOWN_MERGE_KEYS :: !AllCarry(o + l + d, key)
    ensures Merge(List(o), List(l), List(d)) == List(d)
  {
    var key := DetectListMapKey(o + l + d);
    if key != "" {
      Detection(o + l + d, key);
    }
    MergeOfList(List(o), List(l), List(d));
  }

  // ---- every key once

  lemma {:induction false} SurvivorsDistinct(keys: seq<string>, domain: set<string>)
    requires Distinct(keys)
    ensures Distinct(Survivors(keys, domain))
  {
    if keys == [] {
    } else {
      SurvivorsDistinct(keys[1..], domain);
      var rest := Survivors(keys[1..], domain);
      assert keys[0] !in rest;
    }
  }

  lemma {:induction false} NewcomersDistinct(keys: seq<string>, added: set<string>)
    ensures Distinct(Newcomers(keys, added))
  {
    if keys == [] {
    } else {
      NewcomersDistinct(keys[1..], added + {keys[0]});
      NewcomersDistinct(keys[1..], added);
    }
  }

  /** When the observed list files no two items under one key and merging keeps the keys, neither does the merged
      one. */
  lemma MergedKeysDistinct(mergeKey: string, o: seq<Value>, l: seq<Value>, d: seq<Value>)
    requires KeysKept(mergeKey, o, l, d) && Distinct(KeysOf(mergeKey, o))
    ensures Distinct(KeysOf(mergeKey, MergeListMap(mergeKey, o, l, d)))
  {
    KeptKeysFileBack(mergeKey, o, l, d);
    var kept := Survivors(KeysOf(mergeKey, o), MergedItems(mergeKey, o, l, d).Keys);
    SurvivorsDistinct(KeysOf(mergeKey, o), MergedItems(mergeKey, o, l, d).Keys);
    NewcomersDistinct(KeysOf(mergeKey, d), ToSet(kept));
  }

  // ---- merging the same desired list once more

  lemma {:induction false} AllSurvive(keys: seq<string>, domain: set<string>)
    requires ToSet(keys) <= domain
    ensures Survivors(keys, domain) == keys
  {
    if keys == [] {
    } else {
      assert keys[0] in ToSet(keys) && ToSet(keys[1..]) <= ToSet(keys);
      AllSurvive(keys[1..], domain);
    }
  }

  lemma {:induction false} NothingNew(keys: seq<string>, added: set<string>)
    requires ToSet(keys) <= added
    ensures Newcomers(keys, added) == []
  {
    if keys == [] {
    } else {
      assert keys[0] in ToSet(keys) && ToSet(keys[1..]) <= ToSet(keys);
      NothingNew(keys[1..], added);
    }
  }

  lemma OrderStays(mergeKey: string, r: seq<Value>, d: seq<Value>, domain: set<string>)
    requires ToSet(KeysOf(mergeKey, r)) == domain
    requires MakeMapFromList(mergeKey, d).Keys <= domain
    ensures PlainOrder(mergeKey, r, d, domain) == KeysOf(mergeKey, r)
  {
    AllSurvive(KeysOf(mergeKey, r), domain);
    assert forall k | k in KeysOf(mergeKey, d) :: k in MakeMapFromList(mergeKey, d);
    NothingNew(KeysOf(mergeKey, d), domain);
  }

  /** Merging a list map with itself keeps every item where it is. */
  lemma SelfListMerge(mergeKey: string, d: seq<Value>)
    requires PlainlyKeyed(mergeKey, d)
    ensures var m := MakeMapFromList(mergeKey, d);
      && (forall k | k in KeysOf(mergeKey, d) :: k in m)
      && MergeListMap(mergeKey, d, d, d) == Pick(MergeMap(m, m, m), KeysOf(mergeKey, d))
  {
    var m := MakeMapFromList(mergeKey, d);
    assert MergeMap(m, m, m).Keys == m.Keys;
    MergedListMap(mergeKey, d, d, d);
    OrderStays(mergeKey, d, d, m.Keys);
  }
}
