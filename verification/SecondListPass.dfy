/** A second merge of the same desired list map, by whatever merge key is detected then. */
module SecondListPass {
  import opened Json
  import opened MergeKey
  import opened ThreeWayMerge
  import opened ListMaps

  /** A map that has scalars under the known merge keys it carries. */
  ghost predicate KnownPlain(v: Value) {
    v.Map? && forall a | a in KNOWN_MERGE_KEYS && a in v.fields :: IsScalar(v.fields[a])
  }

  ghost predicate AllKnownPlain(items: seq<Value>) {
    forall v | v in items :: KnownPlain(v)
  }

  lemma KnownPlainIsPlain(items: seq<Value>, key: string)
    requires AllKnownPlain(items) && key in KNOWN_MERGE_KEYS && AllCarry(items, key)
    ensures PlainlyKeyed(key, items)
  {
  }

  /** The keys of the merged items. */
  ghost function Kept(om: Fields, lm: Fields, dm: Fields): set<string> {
    om.Keys - (lm.Keys - dm.Keys) + dm.Keys
  }

  /** Where the second pass files the item that the first pass filed under `k`. */
  ghost function Refiled(next: string, om: Fields, dm: Fields, k: string): string {
    KeyOf(next, if k in dm then dm[k] else Get(om, k))
  }

  /** The second pass files no two items under one key. */
  ghost predicate NoCollision(next: string, om: Fields, lm: Fields, dm: Fields) {
    forall j, k | j in Kept(om, lm, dm) && k in Kept(om, lm, dm) && j != k ::
      Refiled(next, om, dm, j) != Refiled(next, om, dm, k)
  }

  /** Every item of the second file is in the first one, under its key there. */
  ghost predicate FiledAlike(key: string, dm: Fields, dn: Fields) {
    forall k | k in dn :: KeyOf(key, dn[k]) in dm && dm[KeyOf(key, dn[k])] == dn[k]
  }

  /** Of the desired items, the second pass files only such as the first pass filed. */
  ghost predicate SameFiling(key: string, next: string, d: seq<Value>) {
    FiledAlike(key, MakeMapFromList(key, d), MakeMapFromList(next, d))
  }

  lemma MergedUnderNext(next: string, o: Value, l: Value, d: Value)
    requires KnownPlain(o) && KnownPlain(d) && next in KNOWN_MERGE_KEYS && next in d.fields
    ensures KeyOf(next, Merge(o, l, d)) == KeyOf(next, d) && PlainItem(next, Merge(o, l, d))
  {
    MergeOfMap(o, l, d);
    MergedField(o.fields, AsMap(l), d.fields, next);
    MergeOfScalar(Get(o.fields, next), Get(AsMap(l), next), d.fields[next]);
  }

  lemma RefiledItem(key: string, next: string, o: seq<Value>, l: seq<Value>, d: seq<Value>, k: string)
    requires AllKnownPlain(o) && AllKnownPlain(d) && next in KNOWN_MERGE_KEYS && AllCarry(d, next)
    requires k in MergedItems(key, o, l, d)
    ensures var v, om, dm := MergedItems(key, o, l, d)[k], MakeMapFromList(key, o), MakeMapFromList(key, d);
      KeyOf(next, v) == Refiled(next, om, dm, k) && (next in AsMap(v) ==> PlainItem(next, v))
  {
    var om, lm, dm := MakeMapFromList(key, o), MakeMapFromList(key, l), MakeMapFromList(key, d);
    if k in dm {
      MergedField(om, lm, dm, k);
      if k in om {
        MergedUnderNext(next, om[k], Get(lm, k), dm[k]);
      } else {
        MergeOfScalar(Null, Get(lm, k), dm[k]);
      }
    }
  }

  lemma {:induction false} AllSurviveExactly(keys: seq<string>, added: set<string>)
    ensures Newcomers(keys, added) == [] <==> ToSet(keys) <= added
  {
    if keys == [] {
    } else {
      assert ToSet(keys) == {keys[0]} + ToSet(keys[1..]);
      AllSurviveExactly(keys[1..], added);
    }
  }

  lemma PickIsSame(m: Fields, keys: seq<string>, r: seq<Value>)
    requires |r| == |keys| && forall k | k in keys :: k in m
    ensures Pick(m, keys) == r <==> forall i | 0 <= i < |r| :: r[i] == m[keys[i]]
  {
    if Pick(m, keys) == r {
      forall i | 0 <= i < |r| ensures r[i] == m[keys[i]] {
        assert Pick(m, keys)[i] == r[i];
      }
    }
  }

  lemma SecondOrder(next: string, r: seq<Value>, d: seq<Value>)
    requires PlainlyKeyed(next, r) && PlainlyKeyed(next, d)
    ensures var again, keys := MergedItems(next, r, d, d), KeysOf(next, r);
      var more := Newcomers(KeysOf(next, d), ToSet(keys));
      && (forall k | k in keys + more :: k in again)
      && MergeListMap(next, r, d, d) == Pick(again, keys + more)
      && (more == [] <==> MakeMapFromList(next, d).Keys <= MakeMapFromList(next, r).Keys)
  {
    hide MergeListMap, Newcomers, KeyOf;
    var again, keys := MergedItems(next, r, d, d), KeysOf(next, r);
    MergedListMap(next, r, d, d);
    assert ToSet(keys) == MakeMapFromList(next, r).Keys;
    assert ToSet(KeysOf(next, d)) == MakeMapFromList(next, d).Keys;
    AllSurvive(keys, again.Keys);
    AllSurviveExactly(KeysOf(next, d), ToSet(keys));
    assert KeysOf(next, MergeListMap(next, r, d, d)) == keys + Newcomers(KeysOf(next, d), ToSet(keys));
  }

  /** A merge by a key changes nothing exactly if it has no new items and finds every item unchanged. */
  lemma SecondMergeOfList(next: string, r: seq<Value>, d: seq<Value>)
    requires PlainlyKeyed(next, r) && PlainlyKeyed(next, d)
    ensures var again, dm := MergedItems(next, r, d, d), MakeMapFromList(next, d);
      MergeListMap(next, r, d, d) == r <==>
      dm.Keys <= MakeMapFromList(next, r).Keys
        && forall i | 0 <= i < |r| :: KeyOf(next, r[i]) in again && again[KeyOf(next, r[i])] == r[i]
  {
    hide MergedItems, MergeListMap, MakeMapFromList, Newcomers, KeyOf;
    var again, keys := MergedItems(next, r, d, d), KeysOf(next, r);
    SecondOrder(next, r, d);
    if Newcomers(KeysOf(next, d), ToSet(keys)) == [] {
      assert keys + [] == keys;
      PickIsSame(again, keys, r);
    } else {
      assert |MergeListMap(next, r, d, d)| > |r|;
    }
  }

  /** How both passes file the merged items and the desired ones. */
  ghost predicate Filing(key: string, next: string, r: seq<Value>, merged: Fields, rm: Fields, dm: Fields, dn: Fields) {
    && (forall k | k in merged :: merged[k] in r && KeyOf(key, merged[k]) == k)
    && (forall v | v in r :: KeyOf(key, v) in merged && merged[KeyOf(key, v)] == v && KeyOf(next, v) in rm)
    && (forall k | k in rm :: rm[k] in r && KeyOf(next, rm[k]) == k)
    && (forall k | k in dm :: KeyOf(key, dm[k]) == k && KeyOf(next, dm[k]) in dn)
    && (forall k | k in dn :: KeyOf(next, dn[k]) == k && KeyOf(key, dn[k]) in dm)
    && dm.Keys <= merged.Keys
    && forall k | k in dm :: KeyOf(next, merged[k]) == KeyOf(next, dm[k])
  }

  ghost predicate Apart(next: string, merged: Fields) {
    forall j, k | j in merged && k in merged && j != k :: KeyOf(next, merged[j]) != KeyOf(next, merged[k])
  }

  /** The second pass finds every item unchanged. */
  ghost predicate Unchanged(next: string, r: seq<Value>, rm: Fields, dn: Fields) {
    && dn.Keys <= rm.Keys
    && forall v | v in r ::
      KeyOf(next, v) in MergeMap(rm, dn, dn) && MergeMap(rm, dn, dn)[KeyOf(next, v)] == v
  }

  lemma ApartIsUnchanged(key: string, next: string, r: seq<Value>, merged: Fields, rm: Fields, dm: Fields, dn: Fields)
    requires Filing(key, next, r, merged, rm, dm, dn)
    requires Apart(next, merged) && MergeMap(merged, dm, dm) == merged
    requires FiledAlike(key, dm, dn)
    ensures Unchanged(next, r, rm, dn)
  {
    hide KeyOf;
    forall k | k in dn ensures k in rm {
      assert merged[KeyOf(key, dn[k])] in r;
    }
    forall v | v in r
      ensures KeyOf(next, v) in MergeMap(rm, dn, dn) && MergeMap(rm, dn, dn)[KeyOf(next, v)] == v
    {
      var k := KeyOf(next, v);
      assert KeyOf(key, rm[k]) == KeyOf(key, v) && rm[k] == v;
      if k in dn {
        var j := KeyOf(key, dn[k]);
        assert j == KeyOf(key, v);
        MergedField(rm, dn, dn, k);
        MergedField(merged, dm, dm, j);
      }
    }
  }

  lemma UnchangedIsApart(key: string, next: string, r: seq<Value>, merged: Fields, rm: Fields, dm: Fields, dn: Fields)
    requires Filing(key, next, r, merged, rm, dm, dn) && Unchanged(next, r, rm, dn)
    ensures Apart(next, merged)
  {
    hide KeyOf;
    forall j, k | j in merged && k in merged && j != k ensures KeyOf(next, merged[j]) != KeyOf(next, merged[k]) {
      assert merged[j] in r && merged[k] in r;
    }
  }

  lemma UnchangedIsSettled(key: string, next: string, r: seq<Value>, merged: Fields, rm: Fields, dm: Fields, dn: Fields)
    requires Filing(key, next, r, merged, rm, dm, dn) && Unchanged(next, r, rm, dn)
    requires FiledAlike(key, dm, dn)
    ensures MergeMap(merged, dm, dm) == merged
  {
    hide *;
    UnchangedIsApart(key, next, r, merged, rm, dm, dn);
    FiledAmong(key, next, r, merged, rm, dm, dn);
    forall j | j in dm ensures MergeMap(merged, dm, dm)[j] == merged[j] {
      SettledAt(key, next, r, merged, rm, dm, dn, j);
    }
    assert MergeMap(merged, dm, dm).Keys == merged.Keys;
    SameFields(MergeMap(merged, dm, dm), merged);
  }

  lemma FiledAmong(key: string, next: string, r: seq<Value>, merged: Fields, rm: Fields, dm: Fields, dn: Fields)
    requires Filing(key, next, r, merged, rm, dm, dn)
    ensures dm.Keys <= merged.Keys
  {
  }

  lemma SettledAt(key: string, next: string, r: seq<Value>, merged: Fields, rm: Fields, dm: Fields, dn: Fields,
      j: string)
    requires Filing(key, next, r, merged, rm, dm, dn) && Unchanged(next, r, rm, dn) && Apart(next, merged) && j in dm
    requires FiledAlike(key, dm, dn)
    ensures j in merged && MergeMap(merged, dm, dm)[j] == merged[j]
  {
    hide KeyOf, Apart;
    FoundUnchanged(key, next, r, merged, rm, dm, dn, j);
    MergedField(rm, dn, dn, KeyOf(next, dm[j]));
    MergedField(merged, dm, dm, j);
    assert merged[j] in r;
  }

  lemma FoundUnchanged(key: string, next: string, r: seq<Value>, merged: Fields, rm: Fields, dm: Fields, dn: Fields,
      j: string)
    requires Filing(key, next, r, merged, rm, dm, dn) && dn.Keys <= rm.Keys && Apart(next, merged) && j in dm
    requires FiledAlike(key, dm, dn)
    ensures var k := KeyOf(next, dm[j]);
      k in dn && dn[k] == dm[j] && rm[k] == merged[j] && KeyOf(next, merged[j]) == k
  {
    hide KeyOf;
    var k := KeyOf(next, dm[j]);
    var i := KeyOf(key, dn[k]);
    assert KeyOf(next, merged[i]) == k;
    assert i == j && dn[k] == dm[j];
    assert rm[k] in r && rm[k] == merged[KeyOf(key, rm[k])];
  }

  /** The last item filed under its key by either pass is the last one under both. */
  lemma LastOfBoth(key: string, next: string, d: seq<Value>, k: string)
    requires k in MakeMapFromList(next, d)
    ensures var dm, dn := MakeMapFromList(key, d), MakeMapFromList(next, d);
      var a := KeyOf(key, dn[k]);
      a in dm && (KeyOf(next, dm[a]) == k ==> dm[a] == dn[k])
  {
    var keys, others := KeysOf(next, d), KeysOf(key, d);
    var i := LastIndex(keys, k);
    assert others[i] == KeyOf(key, d[i]) && others[i] in others;
    var j := LastIndex(others, others[i]);
    assert i <= j;
    assert keys[j] == k ==> j <= i;
  }

  lemma UnchangedKeepsKey(key: string, next: string, r: seq<Value>, merged: Fields, rm: Fields, dm: Fields, dn: Fields,
      k: string)
    requires Filing(key, next, r, merged, rm, dm, dn) && Unchanged(next, r, rm, dn)
    requires k in dn && PlainItem(key, rm[k]) && PlainItem(key, dn[k])
    ensures KeyOf(next, dm[KeyOf(key, dn[k])]) == k
  {
    hide KeyOf;
    MergedField(rm, dn, dn, k);
    MergedItemIsPlain(key, rm[k], dn[k], dn[k]);
    assert rm[k] in r && Merge(rm[k], dn[k], dn[k]) == rm[k];
  }

  lemma SameFilingAt(key: string, next: string, r: seq<Value>, merged: Fields, rm: Fields, d: seq<Value>, k: string)
    requires Filing(key, next, r, merged, rm, MakeMapFromList(key, d), MakeMapFromList(next, d))
    requires Unchanged(next, r, rm, MakeMapFromList(next, d))
    requires PlainlyKeyed(key, r) && PlainlyKeyed(key, d) && k in MakeMapFromList(next, d)
    ensures var dm, dn := MakeMapFromList(key, d), MakeMapFromList(next, d);
      KeyOf(key, dn[k]) in dm && dm[KeyOf(key, dn[k])] == dn[k]
  {
    hide KeyOf, MakeMapFromList;
    var dm, dn := MakeMapFromList(key, d), MakeMapFromList(next, d);
    UnchangedCovers(next, r, rm, dn);
    hide Unchanged;
    assert rm[k] in r && dn[k] in d;
    UnchangedKeepsKey(key, next, r, merged, rm, dm, dn, k);
    LastOfBoth(key, next, d, k);
  }

  lemma UnchangedIsSameFiling(key: string, next: string, r: seq<Value>, merged: Fields, rm: Fields, d: seq<Value>)
    requires Filing(key, next, r, merged, rm, MakeMapFromList(key, d), MakeMapFromList(next, d))
    requires Unchanged(next, r, rm, MakeMapFromList(next, d))
    requires PlainlyKeyed(key, r) && PlainlyKeyed(key, d)
    ensures SameFiling(key, next, d)
  {
    hide Filing, Unchanged, KeyOf, MakeMapFromList, PlainlyKeyed;
    forall k | k in MakeMapFromList(next, d) {
      SameFilingAt(key, next, r, merged, rm, d, k);
    }
  }

  lemma UnchangedCovers(next: string, r: seq<Value>, rm: Fields, dn: Fields)
    requires Unchanged(next, r, rm, dn)
    ensures dn.Keys <= rm.Keys
  {
  }

  lemma RefiledItems(key: string, next: string, o: seq<Value>, l: seq<Value>, d: seq<Value>)
    requires AllKnownPlain(o) && AllKnownPlain(d) && key in KNOWN_MERGE_KEYS && next in KNOWN_MERGE_KEYS
    requires AllCarry(o, key) && AllCarry(d, key) && AllCarry(d, next) && AllCarry(MergeListMap(key, o, l, d), next)
    ensures var merged, om, dm := MergedItems(key, o, l, d), MakeMapFromList(key, o), MakeMapFromList(key, d);
      forall k | k in merged :: KeyOf(next, merged[k]) == Refiled(next, om, dm, k) && PlainItem(next, merged[k])
    ensures PlainlyKeyed(next, MergeListMap(key, o, l, d))
  {
    var merged := MergedItems(key, o, l, d);
    KnownPlainIsPlain(o, key);
    KnownPlainIsPlain(d, key);
    MergedItemsAt(key, o, l, d);
    forall k | k in merged
      ensures KeyOf(next, merged[k]) == Refiled(next, MakeMapFromList(key, o), MakeMapFromList(key, d), k)
      ensures PlainItem(next, merged[k])
    {
      RefiledItem(key, next, o, l, d, k);
    }
  }

  lemma ApartIsNoCollision(next: string, merged: Fields, om: Fields, lm: Fields, dm: Fields)
    requires merged.Keys == Kept(om, lm, dm)
    requires forall k | k in merged :: KeyOf(next, merged[k]) == Refiled(next, om, dm, k)
    ensures Apart(next, merged) <==> NoCollision(next, om, lm, dm)
  {
    hide KeyOf, Refiled;
  }

  lemma RefiledDesired(key: string, next: string, o: seq<Value>, l: seq<Value>, d: seq<Value>)
    requires AllKnownPlain(o) && AllKnownPlain(d) && key in KNOWN_MERGE_KEYS && next in KNOWN_MERGE_KEYS
    requires AllCarry(o, key) && AllCarry(d, key) && AllCarry(d, next) && AllCarry(MergeListMap(key, o, l, d), next)
    ensures var merged, dm := MergedItems(key, o, l, d), MakeMapFromList(key, d);
      dm.Keys <= merged.Keys && forall k | k in dm :: KeyOf(next, merged[k]) == KeyOf(next, dm[k])
  {
    RefiledItems(key, next, o, l, d);
    hide KeyOf, MakeMapFromList;
  }

  /** The lists and maps of two passes, the second by any known key that all their items carry. */
  lemma PassesFile(key: string, next: string, o: seq<Value>, l: seq<Value>, d: seq<Value>)
    requires AllKnownPlain(o) && AllKnownPlain(d) && key in KNOWN_MERGE_KEYS && next in KNOWN_MERGE_KEYS
    requires AllCarry(o, key) && AllCarry(d, key) && AllCarry(d, next) && AllCarry(MergeListMap(key, o, l, d), next)
    ensures var merged, r := MergedItems(key, o, l, d), MergeListMap(key, o, l, d);
      && PlainlyKeyed(key, r)
      && Filing(key, next, r, merged, MakeMapFromList(next, r), MakeMapFromList(key, d), MakeMapFromList(next, d))
  {
    hide KeyOf, MergedItems, MergeListMap, MakeMapFromList, AllCarry, AllKnownPlain, PlainItem, PlainlyKeyed;
    KnownPlainIsPlain(o, key);
    KnownPlainIsPlain(d, key);
    RefiledDesired(key, next, o, l, d);
    MergedListMap(key, o, l, d);
    MergedItemsAt(key, o, l, d);
    FiledKeys(next, MergeListMap(key, o, l, d));
    FiledKeys(key, d);
    FiledKeys(next, d);
  }

  lemma PassesApart(key: string, next: string, o: seq<Value>, l: seq<Value>, d: seq<Value>)
    requires AllKnownPlain(o) && AllKnownPlain(d) && key in KNOWN_MERGE_KEYS && next in KNOWN_MERGE_KEYS
    requires AllCarry(o, key) && AllCarry(d, key) && AllCarry(d, next) && AllCarry(MergeListMap(key, o, l, d), next)
    ensures PlainlyKeyed(key, d) && PlainlyKeyed(next, d) && PlainlyKeyed(next, MergeListMap(key, o, l, d))
    ensures Apart(next, MergedItems(key, o, l, d)) <==>
      NoCollision(next, MakeMapFromList(key, o), MakeMapFromList(key, l), MakeMapFromList(key, d))
  {
    KnownPlainIsPlain(d, key);
    KnownPlainIsPlain(d, next);
    RefiledItems(key, next, o, l, d);
    ApartIsNoCollision(next, MergedItems(key, o, l, d), MakeMapFromList(key, o), MakeMapFromList(key, l),
      MakeMapFromList(key, d));
  }

  lemma FiledKeys(key: string, items: seq<Value>)
    ensures forall v | v in items :: KeyOf(key, v) in MakeMapFromList(key, items)
  {
    forall v | v in items ensures KeyOf(key, v) in MakeMapFromList(key, items) {
      var i :| 0 <= i < |items| && items[i] == v;
      assert KeysOf(key, items)[i] in KeysOf(key, items);
    }
  }

  lemma SecondMergeIsUnchanged(next: string, r: seq<Value>, d: seq<Value>)
    requires PlainlyKeyed(next, r) && PlainlyKeyed(next, d)
    ensures MergeListMap(next, r, d, d) == r <==>
      Unchanged(next, r, MakeMapFromList(next, r), MakeMapFromList(next, d))
  {
    SecondMergeOfList(next, r, d);
    hide MergeListMap, KeyOf;
  }

  /** A second merge, by any known key that all items of the merged and the desired list carry, changes nothing
      exactly if it files no two merged items under one key, files only desired items that the first merge filed,
      and the map merge of the items changes nothing. */
  lemma SecondPassSettles(key: string, next: string, o: seq<Value>, l: seq<Value>, d: seq<Value>)
    requires AllKnownPlain(o) && AllKnownPlain(d) && key in KNOWN_MERGE_KEYS && next in KNOWN_MERGE_KEYS
    requires AllCarry(o, key) && AllCarry(d, key) && AllCarry(d, next) && AllCarry(MergeListMap(key, o, l, d), next)
    ensures var om, lm, dm := MakeMapFromList(key, o), MakeMapFromList(key, l), MakeMapFromList(key, d);
      var merged, r := MergedItems(key, o, l, d), MergeListMap(key, o, l, d);
      MergeListMap(next, r, d, d) == r <==>
      NoCollision(next, om, lm, dm) && SameFiling(key, next, d) && MergeMap(merged, dm, dm) == merged
  {
    var merged, r := MergedItems(key, o, l, d), MergeListMap(key, o, l, d);
    var rm, dm, dn := MakeMapFromList(next, r), MakeMapFromList(key, d), MakeMapFromList(next, d);
    PassesFile(key, next, o, l, d);
    PassesApart(key, next, o, l, d);
    SecondMergeIsUnchanged(next, r, d);
    hide MergedItems, MergeListMap, NoCollision, Filing, Apart, KeyOf, MakeMapFromList, Unchanged;
    if Unchanged(next, r, rm, dn) {
      UnchangedIsApart(key, next, r, merged, rm, dm, dn);
      UnchangedIsSameFiling(key, next, r, merged, rm, d);
      UnchangedIsSettled(key, next, r, merged, rm, dm, dn);
    }
    if Apart(next, merged) && SameFiling(key, next, d) && MergeMap(merged, dm, dm) == merged {
      ApartIsUnchanged(key, next, r, merged, rm, dm, dn);
    }
  }
}
