/** Two inputs on which list maps do not behave: between two passes the detected merge key can change, and merging a
    map under the merge key can change the key that an item is filed under. */
module MergeKeyChange {
  import opened Json
  import opened MergeKey
  import opened ThreeWayMerge
  import opened ListMaps
  import opened MergeFixpoint

  /** All three items have a name, only `x` and `y` have a port, and it is the same. */
  ghost predicate Colliding(x: Value, y: Value, z: Value) {
    && PlainItem("name", x) && PlainItem("name", y) && PlainItem("name", z)
    && KeyOf("name", x) != KeyOf("name", y) && KeyOf("name", z) !in {KeyOf("name", x), KeyOf("name", y)}
    && PlainItem("port", x) && PlainItem("port", y) && KeyOf("port", x) == KeyOf("port", y)
    && "port" !in z.fields && "containerPort" !in y.fields && "containerPort" !in z.fields
  }

  lemma NameIsDetected(x: Value, y: Value, z: Value)
    requires Colliding(x, y, z)
    ensures DetectListMapKey([x, z] + [z] + [y]) == "name"
  {
    var items := [x, z] + [z] + [y];
    assert items == [x, z, z, y];
    assert !AllCarry(items, "containerPort") && !AllCarry(items, "port") by {
      assert items[1] in items;
    }
    KnownKeysDiffer();
    assert KNOWN_MERGE_KEYS[2] == "name";
    Detection(items, "name");
  }

  lemma PortIsDetected(r: seq<Value>, x: Value, y: Value, z: Value)
    requires Colliding(x, y, z)
    requires forall v | v in r :: v == x || v == y
    ensures DetectListMapKey(r + [y] + [y]) == "port"
  {
    var items := r + [y] + [y];
    assert items[|r|] == y && forall v | v in items :: v == x || v == y;
    KnownKeysDiffer();
    assert KNOWN_MERGE_KEYS[1] == "port";
    Detection(items, "port");
  }

  lemma FiledTwo(key: string, a: Value, b: Value)
    ensures MakeMapFromList(key, [a, b]) == map[KeyOf(key, a) := a, KeyOf(key, b) := b]
  {
    hide KeyOf;
    var keys := [KeyOf(key, a), KeyOf(key, b)];
    assert KeysOf(key, [a, b]) == keys;
    assert LastIndex(keys, keys[1]) == 1;
    assert keys[0] != keys[1] ==> LastIndex(keys, keys[0]) == 0;
    assert forall k :: k in keys <==> k == keys[0] || k == keys[1];
  }

  lemma FiledOne(key: string, a: Value)
    ensures MakeMapFromList(key, [a]) == map[KeyOf(key, a) := a]
  {
    assert KeysOf(key, [a]) == [KeyOf(key, a)];
    assert LastIndex([KeyOf(key, a)], KeyOf(key, a)) == 0;
  }

  lemma MergedByName(kx: string, x: Value, ky: string, y: Value, kz: string, z: Value)
    requires kx != ky && kz !in {kx, ky}
    ensures MergeMap(map[kx := x, kz := z], map[kz := z], map[ky := y]) == map[kx := x, ky := y]
  {
    MergedField(map[kx := x, kz := z], map[kz := z], map[ky := y], ky);
    MergeOfScalar(Null, Null, y);
  }

  /** Two different items under one key of the second pass cannot both stay. */
  lemma CollisionUnsettles(key: string, r: seq<Value>, d: seq<Value>, x: Value, y: Value)
    requires PlainlyKeyed(key, r) && PlainlyKeyed(key, d)
    requires x in r && y in r && x != y && KeyOf(key, x) == KeyOf(key, y)
    ensures MergeListMap(key, r, d, d) != r
  {
    MergedItemsAt(key, r, d, d);
  }

  /** The first pass goes by name and drops the only item without a port. */
  lemma FirstPassByName(x: Value, y: Value, z: Value)
    requires Colliding(x, y, z)
    ensures var r := MergeListMap("name", [x, z], [z], [y]);
      x in r && y in r && forall v | v in r :: v == x || v == y
  {
    var kx, ky, kz := KeyOf("name", x), KeyOf("name", y), KeyOf("name", z);
    FiledTwo("name", x, z);
    FiledOne("name", z);
    FiledOne("name", y);
    MergedByName(kx, x, ky, y, kz, z);
    MergedItemsAt("name", [x, z], [z], [y]);
    var merged := MergedItems("name", [x, z], [z], [y]);
    assert merged[kx] == x && merged[ky] == y;
  }

  /** The second pass goes by port, under which the two remaining items collide. */
  lemma SecondPassByPort(x: Value, y: Value, z: Value)
    requires Colliding(x, y, z)
    ensures var o, l, d := List([x, z]), List([z]), List([y]);
      ListKey(o, l, d) == "name" && ListKey(Merge(o, l, d), d, d) == "port"
      && Merge(Merge(o, l, d), d, d) != Merge(o, l, d)
  {
    hide MergeListMap;
    var r := MergeListMap("name", [x, z], [z], [y]);
    NameIsDetected(x, y, z);
    FirstPassByName(x, y, z);
    PortIsDetected(r, x, y, z);
    MergeOfList(List([x, z]), List([z]), List([y]));
    MergeOfList(List(r), List([y]), List([y]));
    assert Merge(List([x, z]), List([z]), List([y])) == List(r);
    assert Merge(List(r), List([y]), List([y])) == List(MergeListMap("port", r, [y], [y]));
    CollisionUnsettles("port", r, [y], x, y);
  }

  const X := Map(map["name" := Str("x"), "port" := Int(1)])
  const Y := Map(map["name" := Str("y"), "port" := Int(1)])
  const Z := Map(map["name" := Str("z")])

  lemma ItemsCollide()
    ensures Colliding(X, Y, Z)
  {
  }

  /** Merging the same desired state again can change the result: the two passes go by different keys. */
  lemma MergeKeyCanChange()
    ensures var o, l, d := List([X, Z]), List([Z]), List([Y]);
      ListKey(o, l, d) == "name" && ListKey(Merge(o, l, d), d, d) == "port"
      && Merge(Merge(o, l, d), d, d) != Merge(o, l, d)
  {
    ItemsCollide();
    SecondPassByPort(X, Y, Z);
    hide Merge, ListKey;
  }

  // ---- a merge key that gets lost

  const TWO := Map(map["a" := Str("1"), "b" := Str("2")])
  const ONE := Map(map["a" := Str("1 b:2")])

  lemma FirstOfTwo(v: Value)
    requires v.Map? && v.fields.Keys == {"a", "b"}
    ensures FieldsText(v, v.fields.Keys) == "a:" + Text(v.fields["a"]) + " " + "b:" + Text(v.fields["b"])
  {
    var a, b := "a", "b";
    assert a[0] < b[0] && !TextLe(b, a);
    assert LeastText({a, b}) == a;
    assert {a, b} - {a} == {b};
    assert LeastText({b}) == b;
    assert FieldsText(v, {b}) == b + ":" + Text(v.fields[b]);
  }

  const BOTH := Map(map["a" := Str("1 b:2"), "b" := Str("2")])

  lemma MergedTwo()
    ensures Merge(TWO, Null, ONE) == BOTH
  {
    assert TWO.fields.Keys == {"a", "b"} && ONE.fields.Keys == {"a"};
    MergeOfMap(TWO, Null, ONE);
    MergedField(TWO.fields, map[], ONE.fields, "a");
    MergeOfScalar(Str("1"), Null, Str("1 b:2"));
    assert MergeMap(TWO.fields, map[], ONE.fields) == BOTH.fields;
  }

  /** Both print as the same text, and so correspond; merged they print differently. */
  lemma SameTextMergesApart()
    ensures Text(TWO) == Text(ONE)
    ensures Text(Merge(TWO, Null, ONE)) != Text(TWO)
  {
    assert TWO.fields.Keys == {"a", "b"} && BOTH.fields.Keys == {"a", "b"} && ONE.fields.Keys == {"a"};
    FirstOfTwo(TWO);
    FirstOfTwo(BOTH);
    assert LeastText({"a"}) == "a";
    assert FieldsText(ONE, {"a"}) == "a" + ":" + "1 b:2";
    MergedTwo();
    assert |Text(BOTH)| > |Text(TWO)|;
  }

  /** So merging can lose the key of an item. */
  lemma MergeKeyCanBeLost()
    ensures var o, d := [Map(map["name" := TWO])], [Map(map["name" := ONE])];
      DetectListMapKey(o + [] + d) == "name" && !KeysKept("name", o, [], d)
  {
    SameTextMergesApart();
    MergedTwo();
    NameOnly([Map(map["name" := TWO])] + [] + [Map(map["name" := ONE])]);
    LostBetween(TWO, ONE);
  }

  lemma LostBetween(v: Value, w: Value)
    requires v.Map? && w.Map? && Text(v) == Text(w) && Merge(v, Null, w).Map? && Text(Merge(v, Null, w)) != Text(v)
    ensures !KeysKept("name", [Map(map["name" := v])], [], [Map(map["name" := w])])
  {
    var o, d := Map(map["name" := v]), Map(map["name" := w]);
    hide Text, Merge;
    FiledOne("name", o);
    FiledOne("name", d);
    assert KeyOf("name", o) == Text(v) && KeyOf("name", d) == Text(v);
    assert KeysOf("name", [o])[0] == Text(v) && KeysOf("name", [d])[0] == Text(v);
    assert MakeMapFromList("name", []) == map[];
    assert KeyValue("name", [o], Text(v)) == v && KeyValue("name", [d], Text(v)) == w;
    assert KeyValue("name", [], Text(v)) == Null;
    KeysKeptExactly("name", [o], [], [d]);
  }

  lemma NameOnly(items: seq<Value>)
    requires items != [] && forall v | v in items :: v.Map? && v.fields.Keys == {"name"}
    ensures DetectListMapKey(items) == "name"
  {
    assert items[0] in items;
    KnownKeysDiffer();
    assert KNOWN_MERGE_KEYS[2] == "name";
    Detection(items, "name");
  }

  /** The loop over the observed items sees the new key of such an item and does not find it, so that the item goes to
      the end of the list, behind those that were observed after it. */
  lemma LostItemGoesLast(v: Value, w: Value, z: Value)
    requires v.Map? && w.Map? && Text(v) == Text(w) && Merge(v, Null, w).Map? && PlainItem("name", z)
    requires Text(Merge(v, Null, w)) !in {Text(v), KeyOf("name", z)} && KeyOf("name", z) != Text(v)
    ensures MergeListMap("name", [Map(map["name" := v]), z], [], [Map(map["name" := w])])
      == [z, Map(map["name" := Merge(v, Null, w)])]
  {
    var a, b, m := Map(map["name" := v]), Map(map["name" := w]), Map(map["name" := Merge(v, Null, w)]);
    var k, kz := Text(v), KeyOf("name", z);
    hide Text, Merge;
    FiledTwo("name", a, z);
    FiledOne("name", b);
    assert KeyOf("name", a) == k && KeyOf("name", b) == k && MakeMapFromList("name", []) == map[];
    MergedWithLost(k, v, w, kz, z);
    var merged := map[k := m, kz := z];
    assert MergedItems("name", [a, z], [], [b]) == merged;
    AfterLost(a, z, b, m, k, kz);
    OrderOfLost("name", [a, z], [b], merged, [m, z], k, kz);
  }

  lemma MergedWithLost(k: string, v: Value, w: Value, kz: string, z: Value)
    requires k != kz
    ensures MergeMap(map[k := Map(map["name" := v]), kz := z], map[], map[k := Map(map["name" := w])])
      == map[k := Map(map["name" := Merge(v, Null, w)]), kz := z]
  {
    hide Merge, MergeMap;
    var a, b := Map(map["name" := v]), Map(map["name" := w]);
    MergedField(map[k := a, kz := z], map[], map[k := b], k);
    MergeOfMap(a, Null, b);
    MergedField(a.fields, map[], b.fields, "name");
    assert MergeMap(a.fields, map[], b.fields) == map["name" := Merge(v, Null, w)];
  }

  lemma AfterLost(a: Value, z: Value, b: Value, m: Value, k: string, kz: string)
    requires KeyOf("name", a) == k != kz == KeyOf("name", z) && MakeMapFromList("name", [b]) == map[k := b]
    ensures UpdatedInPlace("name", [a, z], map[k := b], map[k := m, kz := z]) == [m, z]
  {
    var keys := KeysOf("name", [a, z]);
    assert keys == [k, kz];
    assert LastIndex(keys, k) == 0 && LastIndex(keys, kz) == 1;
  }

  lemma OrderOfLost(mergeKey: string, o: seq<Value>, d: seq<Value>, merged: Fields, after: seq<Value>, k: string,
      kz: string)
    requires merged.Keys == {k, kz} && MakeMapFromList(mergeKey, d).Keys <= merged.Keys
    requires after == UpdatedInPlace(mergeKey, o, MakeMapFromList(mergeKey, d), merged)
    requires |after| == 2 && KeyOf(mergeKey, after[0]) !in {k, kz} && KeyOf(mergeKey, after[1]) == kz
    requires KeysOf(mergeKey, d) == [k] && k != kz
    ensures Pick(merged, ListMapOrder(mergeKey, o, d, merged)) == [merged[kz], merged[k]]
  {
    var keys := KeysOf(mergeKey, after);
    assert keys[1..] == [kz] && keys[1..][1..] == [];
    assert keys == [keys[0], kz] && keys[0] !in merged.Keys;
    assert Survivors([kz], merged.Keys) == [kz] by {
      assert [kz][1..] == [] && Survivors([], merged.Keys) == [];
    }
    assert Survivors(keys, merged.Keys) == [kz];
    assert ToSet([kz]) == {kz};
    assert Newcomers([k], {kz}) == [k] by {
      assert [k][1..] == [];
    }
    assert ListMapOrder(mergeKey, o, d, merged) == [kz, k];
  }
}
