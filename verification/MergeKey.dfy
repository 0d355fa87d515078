/** How the merge guesses that a list is a "list map", and under which key it files an item. */
module MergeKey {
  import opened Json

  // ---- the text under which a value is filed

  predicate TextLe(a: string, b: string) {
    a == [] || (b != [] && (a[0] < b[0] || (a[0] == b[0] && TextLe(a[1..], b[1..]))))
  }

  lemma TextLeTotal(a: string, b: string)
    ensures TextLe(a, b) || TextLe(b, a)
    ensures TextLe(a, b) && TextLe(b, a) ==> a == b
  {
    if a != [] && b != [] {
      assert a == [a[0]] + a[1..] && b == [b[0]] + b[1..];
    }
  }

  lemma TextLeTransitive(a: string, b: string, c: string)
    requires TextLe(a, b) && TextLe(b, c)
    ensures TextLe(a, c)
  {
  }

  lemma LeastTextIn(keys: set<string>) returns (least: string)
    requires keys != {}
    ensures least in keys && forall j | j in keys :: TextLe(least, j)
  {
    hide TextLe;
    var x :| x in keys;
    least := x;
    TextLeTotal(x, x);
    var rest := keys - {x};
    if rest == {} {
      assert forall j | j in keys && j != x :: j in rest;
    } else {
      var k := LeastTextIn(rest);
      TextLeTotal(k, x);
      if TextLe(k, x) {
        least := k;
      }
      forall j | j in rest ensures TextLe(least, j) {
        if least == x {
          TextLeTransitive(x, k, j);
        }
      }
      assert forall j | j in keys :: j == x || j in rest;
    }
  }

  lemma LeastTextExists(keys: set<string>)
    requires keys != {}
    ensures exists k :: k in keys && forall j | j in keys :: TextLe(k, j)
  {
    var least := LeastTextIn(keys);
  }

  function LeastText(keys: set<string>): (k: string)
    requires keys != {}
    ensures k in keys && forall j | j in keys :: TextLe(k, j)
  {
    LeastTextExists(keys);
    assert forall a, b | a in keys && b in keys && TextLe(a, b) && TextLe(b, a) :: a == b by {
      forall a, b | a in keys && b in keys && TextLe(a, b) && TextLe(b, a) ensures a == b {
        TextLeTotal(a, b);
      }
    }
    var k :| k in keys && forall j | j in keys :: TextLe(k, j);
    k
  }

  function Digits(n: nat): string {
    if n < 10 then ["0123456789"[n]] else Digits(n / 10) + ["0123456789"[n % 10]]
  }

  /** What Go prints for a value with the verb %v. */
  function Text(v: Value): string
    decreases v, 0
  {
    match v
    case Null => "<nil>"
    case Bool(b) => if b then "true" else "false"
    case Int(n) => if n < 0 then "-" + Digits(-n) else Digits(n)
    case Float(text) => text
    case Str(s) => s
    case NilList => "[]"
    case List(items) => "[" + ItemsText(items) + "]"
    case Map(fields) => "map[" + FieldsText(v, fields.Keys) + "]"
  }

  function ItemsText(items: seq<Value>): string
    decreases items, 0
  {
    if |items| == 0 then ""
    else if |items| == 1 then Text(items[0])
    else Text(items[0]) + " " + ItemsText(items[1..])
  }

  /** Go prints the keys of a map in increasing order. */
  function FieldsText(v: Value, keys: set<string>): string
    requires v.Map? && keys <= v.fields.Keys
    decreases v, 0, |keys|
  {
    if keys == {} then ""
    else
      var k := LeastText(keys);
      var entry := k + ":" + Text(v.fields[k]);
      if keys == {k} then entry else entry + " " + FieldsText(v, keys - {k})
  }

  function StringMergeKey(v: Value): string {
    match v
    case Str(s) => s
    case _ => Text(v)
  }

  /** The text under which a list item is filed. */
  function KeyOf(mergeKey: string, item: Value): string {
    StringMergeKey(Get(AsMap(item), mergeKey))
  }

  function KeysOf(mergeKey: string, items: seq<Value>): (keys: seq<string>)
    ensures |keys| == |items| && forall i | 0 <= i < |items| :: keys[i] == KeyOf(mergeKey, items[i])
  {
    seq(|items|, i requires 0 <= i < |items| => KeyOf(mergeKey, items[i]))
  }

  // ---- guessing the merge key

  /** In order of precedence. */
  const KNOWN_MERGE_KEYS := ["containerPort", "port", "name", "uid", "ip"]

  predicate AllMaps(items: seq<Value>) {
    forall v | v in items :: v.Map?
  }

  predicate AllCarry(items: seq<Value>, key: string) {
    forall v | v in items :: key in AsMap(v)
  }

  /** The first of `known` that every item carries, or "". */
  function FirstCarried(known: seq<string>, items: seq<Value>): string {
    if known == [] then ""
    else if AllCarry(items, known[0]) then known[0]
    else FirstCarried(known[1..], items)
  }

  function DetectListMapKey(items: seq<Value>): string {
    if items == [] || !AllMaps(items) then "" else FirstCarried(KNOWN_MERGE_KEYS, items)
  }

  lemma CarryConcat(xs: seq<Value>, ys: seq<Value>, key: string)
    ensures AllCarry(xs + ys, key) <==> AllCarry(xs, key) && AllCarry(ys, key)
  {
    assert forall v :: v in xs + ys <==> v in xs || v in ys;
  }

  /** `a` has precedence over `b`. */
  ghost predicate Precedes(a: string, b: string) {
    exists i, j | 0 <= i < j < |KNOWN_MERGE_KEYS| :: KNOWN_MERGE_KEYS[i] == a && KNOWN_MERGE_KEYS[j] == b
  }

  lemma {:induction false} FirstCarriedIsFirst(known: seq<string>, items: seq<Value>) returns (j: nat)
    requires "" !in known
    ensures j <= |known| && forall i | 0 <= i < j :: !AllCarry(items, known[i])
    ensures if j == |known| then FirstCarried(known, items) == ""
      else FirstCarried(known, items) == known[j] && AllCarry(items, known[j])
  {
    if known == [] || AllCarry(items, known[0]) {
      j := 0;
    } else {
      j := FirstCarriedIsFirst(known[1..], items);
      j := j + 1;
    }
  }

  lemma KnownKeysDiffer()
    ensures "" !in KNOWN_MERGE_KEYS
    ensures forall i, j | 0 <= i < j < |KNOWN_MERGE_KEYS| :: KNOWN_MERGE_KEYS[i] != KNOWN_MERGE_KEYS[j]
  {
    assert KNOWN_MERGE_KEYS[0][0] == 'c' && KNOWN_MERGE_KEYS[1][0] == 'p' && KNOWN_MERGE_KEYS[2][0] == 'n';
    assert KNOWN_MERGE_KEYS[3][0] == 'u' && KNOWN_MERGE_KEYS[4][0] == 'i';
  }

  /** What a detected key tells about the items, and when a key is the detected one. */
  lemma Detection(items: seq<Value>, key: string)
    requires key != ""
    ensures DetectListMapKey(items) == key <==>
      && items != [] && AllMaps(items)
      && key in KNOWN_MERGE_KEYS && AllCarry(items, key)
      && forall a | Precedes(a, key) :: !AllCarry(items, a)
  {
    KnownKeysDiffer();
    var j := FirstCarriedIsFirst(KNOWN_MERGE_KEYS, items);
    if key in KNOWN_MERGE_KEYS {
      var i :| 0 <= i < |KNOWN_MERGE_KEYS| && KNOWN_MERGE_KEYS[i] == key;
      if i < j {
        assert !AllCarry(items, key);
      } else if j < i {
        assert Precedes(KNOWN_MERGE_KEYS[j], key);
      } else {
        forall a | Precedes(a, key) ensures !AllCarry(items, a) {
          var p, q :| 0 <= p < q < |KNOWN_MERGE_KEYS| && KNOWN_MERGE_KEYS[p] == a && KNOWN_MERGE_KEYS[q] == key;
          assert q == i;
        }
      }
    }
  }

  /** The known keys in their order, by name. */
  lemma PrecedenceByName(items: seq<Value>)
    requires items != [] && AllMaps(items)
    ensures DetectListMapKey(items) ==
      if AllCarry(items, "containerPort") then "containerPort"
      else if AllCarry(items, "port") then "port"
      else if AllCarry(items, "name") then "name"
      else if AllCarry(items, "uid") then "uid"
      else if AllCarry(items, "ip") then "ip"
      else ""
  {
    hide FirstCarried;
    TriesInTurn("containerPort", ["port", "name", "uid", "ip"], items);
    TriesInTurn("port", ["name", "uid", "ip"], items);
    TriesInTurn("name", ["uid", "ip"], items);
    TriesInTurn("uid", ["ip"], items);
    TriesInTurn("ip", [], items);
    assert KNOWN_MERGE_KEYS == ["containerPort"] + ["port", "name", "uid", "ip"];
    assert ["port", "name", "uid", "ip"] == ["port"] + ["name", "uid", "ip"];
    assert ["name", "uid", "ip"] == ["name"] + ["uid", "ip"] && ["uid", "ip"] == ["uid"] + ["ip"];
    assert ["ip"] == ["ip"] + [];
  }

  lemma TriesInTurn(key: string, rest: seq<string>, items: seq<Value>)
    ensures FirstCarried([key] + rest, items) == if AllCarry(items, key) then key else FirstCarried(rest, items)
    ensures FirstCarried([], items) == ""
  {
    assert ([key] + rest)[1..] == rest;
  }

  // ---- values that print alike

  lemma {:induction false} DigitsDiffer(a: nat, b: nat)
    ensures Digits(a) != [] && Digits(b) != [] && Digits(a)[0] != '-'
    ensures Digits(a) == Digits(b) ==> a == b
    decreases a + b
  {
    var digits := "0123456789";
    assert forall i, j | 0 <= i < j < 10 :: digits[i] != digits[j];
    if a < 10 && b < 10 {
    } else {
      DigitsSplit(a);
      DigitsSplit(b);
      if a >= 10 && b >= 10 {
        DigitsDiffer(a / 10, b / 10);
      } else if a >= 10 {
        DigitsDiffer(a / 10, b);
      } else {
        DigitsDiffer(a, b / 10);
      }
    }
  }

  lemma DigitsSplit(n: nat)
    ensures n < 10 ==> |Digits(n)| == 1
    ensures n >= 10 ==> (
      && Digits(n) == Digits(n / 10) + ["0123456789"[n % 10]]
      && Digits(n)[..|Digits(n)| - 1] == Digits(n / 10) && Digits(n)[|Digits(n)| - 1] == "0123456789"[n % 10])
  {
  }

  /** Items are filed apart exactly if their merge-key values are different numbers, or different strings. */
  lemma FiledApart(mergeKey: string, x: Value, y: Value)
    requires x.Map? && y.Map? && mergeKey in x.fields && mergeKey in y.fields
    ensures x.fields[mergeKey].Int? && y.fields[mergeKey].Int? ==> (
      KeyOf(mergeKey, x) == KeyOf(mergeKey, y) <==> x.fields[mergeKey] == y.fields[mergeKey])
    ensures x.fields[mergeKey].Str? && y.fields[mergeKey].Str? ==> (
      KeyOf(mergeKey, x) == KeyOf(mergeKey, y) <==> x.fields[mergeKey] == y.fields[mergeKey])
  {
    if x.fields[mergeKey].Int? && y.fields[mergeKey].Int? {
      var a, b := x.fields[mergeKey].n, y.fields[mergeKey].n;
      var c, d := (if a < 0 then -a else a), (if b < 0 then -b else b);
      DigitsDiffer(c, d);
      DigitsDiffer(d, c);
      assert a < 0 ==> Text(Int(a))[0] == '-' && Text(Int(a))[1..] == Digits(c);
      assert b < 0 ==> Text(Int(b))[0] == '-' && Text(Int(b))[1..] == Digits(d);
    }
  }

  /** What Go prints for some values. */
  lemma TextsByExample()
    ensures Text(Int(8080)) == "8080" && Text(Int(-1)) == "-1" && Text(Null) == "<nil>"
    ensures Text(Bool(true)) == "true" && Text(Bool(false)) == "false"
    ensures Text(List([Int(1), Str("a")])) == "[1 a]" && Text(List([])) == "[]" && Text(NilList) == "[]"
  {
    assert Digits(8) == "8" && Digits(80) == "80" && Digits(808) == "808" && Digits(8080) == "8080";
    var items := [Int(1), Str("a")];
    assert items[1..] == [Str("a")];
    assert ItemsText(items) == Text(items[0]) + " " + Text(items[1]);
  }
}
