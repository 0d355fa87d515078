/** The result of the three-way merge, as functions on values. */
module ThreeWayMerge {
  import opened Json
  import opened MergeKey

  function LastIndex(keys: seq<string>, k: string): (i: nat)
    requires k in keys
    ensures i < |keys| && keys[i] == k && forall j | i < j < |keys| :: keys[j] != k
  {
    if keys[|keys| - 1] == k then |keys| - 1 else LastIndex(keys[..|keys| - 1], k)
  }

  /** Files every item under its merge key; the last item filed under a key stays. */
  function MakeMapFromList(mergeKey: string, items: seq<Value>): (m: Fields)
    ensures forall k | k in m :: m[k] in items && KeyOf(mergeKey, m[k]) == k
  {
    var keys := KeysOf(mergeKey, items);
    map k | k in keys :: items[LastIndex(keys, k)]
  }

  /** Every item is filed, unless a later one has its key. */
  lemma LastIsFiled(mergeKey: string, items: seq<Value>, i: nat)
    requires i < |items|
    ensures var m, keys := MakeMapFromList(mergeKey, items), KeysOf(mergeKey, items);
      && keys[i] in m
      && (keys[i] !in keys[i + 1..] ==> m[keys[i]] == items[i])
  {
    var keys := KeysOf(mergeKey, items);
    assert keys[i] in keys;
    assert forall j | i < j < |keys| :: keys[j] in keys[i + 1..];
  }

  /** The members of `keys` that are in `domain`, in order. */
  function Survivors(keys: seq<string>, domain: set<string>): (r: seq<string>)
    ensures forall k :: k in r <==> k in keys && k in domain
  {
    if keys == [] then []
    else (if keys[0] in domain then [keys[0]] else []) + Survivors(keys[1..], domain)
  }

  /** The members of `keys` not yet in `added`, each at its first occurrence. */
  function Newcomers(keys: seq<string>, added: set<string>): (r: seq<string>)
    ensures forall k :: k in r <==> k in keys && k !in added
  {
    if keys == [] then []
    else if keys[0] in added then Newcomers(keys[1..], added)
    else [keys[0]] + Newcomers(keys[1..], added + {keys[0]})
  }

  function ToSet(keys: seq<string>): set<string> {
    set k | k in keys
  }

  function Pick(m: Fields, keys: seq<string>): seq<Value>
    requires forall k | k in keys :: k in m
  {
    seq(|keys|, i requires 0 <= i < |keys| => m[keys[i]])
  }

  /** The observed list after its items were merged. An item filed in the map is the very object that
      the map merge updates, so the list sees the update: of the items filed under a desired key, the
      last one. */
  function UpdatedInPlace(mergeKey: string, items: seq<Value>, desired: Fields, merged: Fields): (r: seq<Value>)
    requires desired.Keys <= merged.Keys
    ensures |r| == |items|
  {
    var keys := KeysOf(mergeKey, items);
    seq(|items|, i requires 0 <= i < |items| =>
      if keys[i] in desired && LastIndex(keys, keys[i]) == i then merged[keys[i]] else items[i])
  }

  function Merge(o: Value, l: Value, d: Value): Value
    decreases Height(d), 3
  {
    match o
    case Map(fields) =>
      FieldsBelow(AsMap(d));
      Map(MergeMap(fields, AsMap(l), AsMap(d)))
    case List(items) => MergeArray(items, AsList(l), d)
    case NilList => MergeArray([], AsList(l), d)
    case _ => d
  }

  /** Where neither is a list, Go still has a list in hand: the nil one. */
  function MergeArray(o: seq<Value>, l: seq<Value>, d: Value): Value
    decreases Height(d), 2
  {
    var mergeKey := DetectListMapKey(o + l + AsList(d));
    if mergeKey != "" then List(MergeListMap(mergeKey, o, l, AsList(d)))
    else if d.List? then d
    else NilList
  }

  function MergeListMap(mergeKey: string, o: seq<Value>, l: seq<Value>, d: seq<Value>): seq<Value>
    decreases Height(List(d)), 1
  {
    var desired := MakeMapFromList(mergeKey, d);
    GatheredBelow(desired, d);
    var merged := MergeMap(MakeMapFromList(mergeKey, o), MakeMapFromList(mergeKey, l), desired);
    Pick(merged, ListMapOrder(mergeKey, o, d, merged))
  }

  /** The keys of the merged list: those the observed list still has, in its order, then the new ones
      in the order of the desired list. */
  function ListMapOrder(mergeKey: string, o: seq<Value>, d: seq<Value>, merged: Fields): (keys: seq<string>)
    requires MakeMapFromList(mergeKey, d).Keys <= merged.Keys
    ensures forall k | k in keys :: k in merged
  {
    var after := UpdatedInPlace(mergeKey, o, MakeMapFromList(mergeKey, d), merged);
    var kept := Survivors(KeysOf(mergeKey, after), merged.Keys);
    kept + Newcomers(KeysOf(mergeKey, d), ToSet(kept))
  }

  function MergeMap(o: Fields, l: Fields, d: Fields): (r: Fields)
    ensures r.Keys == o.Keys - (l.Keys - d.Keys) + d.Keys
    ensures forall k | k in r && k !in d :: r[k] == o[k]
    decreases Height(Map(d)), 0
  {
    FieldsBelow(d);
    map k | k in o.Keys - (l.Keys - d.Keys) + d.Keys ::
      if k in d then Merge(Get(o, k), Get(l, k), d[k]) else o[k]
  }

  // ---- one step of the definitions, for use in proofs

  lemma MergeOfMap(o: Value, l: Value, d: Value)
    requires o.Map?
    ensures Merge(o, l, d) == Map(MergeMap(o.fields, AsMap(l), AsMap(d)))
  {
  }

  lemma MergeOfList(o: Value, l: Value, d: Value)
    requires IsList(o)
    ensures Merge(o, l, d) == MergeArray(AsList(o), AsList(l), d)
  {
  }

  lemma MergeOfScalar(o: Value, l: Value, d: Value)
    requires IsScalar(o)
    ensures Merge(o, l, d) == d
  {
  }

  lemma MergedField(o: Fields, l: Fields, d: Fields, k: string)
    requires k in d
    ensures k in MergeMap(o, l, d) && MergeMap(o, l, d)[k] == Merge(Get(o, k), Get(l, k), d[k])
  {
  }
}
