/** The JSON trees that the controllers read, merge and write back. */
module Json {

  /** A decoded JSON value. A float is identified by the text Go prints for it. `NilList` is the
      typed nil slice the merge can return: it is a list without items, but reflect.DeepEqual
      tells it apart from the empty list. */
  datatype Value =
    | Null
    | Bool(b: bool)
    | Int(n: int)
    | Float(text: string)
    | Str(s: string)
    | NilList
    | List(items: seq<Value>)
    | Map(fields: map<string, Value>)

  type Fields = map<string, Value>

  predicate IsList(v: Value) {
    v.List? || v.NilList?
  }

  predicate IsScalar(v: Value) {
    !v.Map? && !IsList(v)
  }

  /** Reading a missing key of a Go map yields nil. */
  function Get(m: Fields, k: string): Value {
    if k in m then m[k] else Null
  }

  /** The Go type assertion to a map, whose failure leaves a nil map. */
  function AsMap(v: Value): Fields {
    if v.Map? then v.fields else map[]
  }

  /** The Go type assertion to a list, whose failure leaves a nil list. */
  function AsList(v: Value): seq<Value> {
    if v.List? then v.items else []
  }

  lemma SameFields(a: Fields, b: Fields)
    requires a.Keys == b.Keys
    ensures a == b <==> forall k | k in a :: a[k] == b[k]
  {
  }

  /** The least number above every member of `hs`. */
  ghost function Above(hs: set<nat>): (h: nat)
    ensures forall x | x in hs :: x < h
    ensures h > 0 ==> h - 1 in hs
  {
    if hs == {} then 0
    else
      var x :| x in hs;
      var rest := Above(hs - {x});
      assert forall y | y in hs :: y == x || y in hs - {x};
      if x < rest then rest else x + 1
  }

  /** The depth of a tree: the measure on which the merge descends. */
  ghost function Height(v: Value): nat {
    match v
    case List(items) => Above(set x | x in items :: Height(x))
    case Map(fields) => Above(set k | k in fields :: Height(fields[k]))
    case _ => 0
  }

  lemma ItemsBelow(items: seq<Value>)
    ensures forall x | x in items :: Height(x) < Height(List(items))
  {
    var hs := set x | x in items :: Height(x);
    assert Height(List(items)) == Above(hs);
    forall x | x in items ensures Height(x) < Height(List(items)) {
      assert Height(x) in hs;
    }
  }

  lemma FieldsBelow(fields: Fields)
    ensures forall k | k in fields :: Height(fields[k]) < Height(Map(fields))
  {
    var hs := set k | k in fields :: Height(fields[k]);
    assert Height(Map(fields)) == Above(hs);
    forall k | k in fields ensures Height(fields[k]) < Height(Map(fields)) {
      assert Height(fields[k]) in hs;
    }
  }

  /** Gathering the items of a list into a map does not make the tree deeper. */
  lemma GatheredBelow(fields: Fields, items: seq<Value>)
    requires forall k | k in fields :: fields[k] in items
    ensures Height(Map(fields)) <= Height(List(items))
  {
    ItemsBelow(items);
  }

  lemma ListBelow(v: Value)
    ensures Height(List(AsList(v))) <= Height(v)
  {
    if !v.List? {
      assert (set x | x in AsList(v) :: Height(x)) == {};
    }
  }
}
