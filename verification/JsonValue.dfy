/** The JSON value tree of src/ipc/json.h and the byte order of its object keys. */
module JsonValue {
  import opened Common

  /** Numbers are exact reals: the double arithmetic of the source without its rounding. */
  datatype Value =
    | Null
    | Bool(b: bool)
    | Num(n: real)
    | Str(s: string)
    | Arr(a: seq<Value>)
    | Obj(o: map<string, Value>)
  {
    function Find(k: string): Option<Value> {
      if Obj? && k in o then Some(o[k]) else None
    }

    function GetStr(k: string, d: string := ""): string {
      var v := Find(k);
      if v.Some? && v.value.Str? then v.value.s else d
    }

    function GetNum(k: string, d: real := 0.0): real {
      var v := Find(k);
      if v.Some? && v.value.Num? then v.value.n else d
    }

    function GetBool(k: string, d: bool := false): bool {
      var v := Find(k);
      if v.Some? && v.value.Bool? then v.value.b else d
    }
  }

  /** The integers that `dump` prints with "%lld": below 9e15 in magnitude, so exact in a double. */
  const INT_LIMIT: int := 9_000_000_000_000_000

  predicate IsPrintableInt(x: real) {
    x == x.Floor as real && -INT_LIMIT < x.Floor < INT_LIMIT
  }

  /** Every number in the tree is such an integer. */
  ghost predicate Printable(v: Value) {
    match v
    case Num(n) => IsPrintableInt(n)
    case Arr(a) => forall x :: x in a ==> Printable(x)
    case Obj(o) => forall k :: k in o ==> Printable(o[k])
    case _ => true
  }

  // ----- the key order of std::map<std::string, Value>: bytewise lexicographic

  predicate KeyLess(a: string, b: string) {
    if b == "" then false
    else if a == "" then true
    else a[0] < b[0] || (a[0] == b[0] && KeyLess(a[1..], b[1..]))
  }

  lemma {:induction false} KeyLessTotal(a: string, b: string)
    ensures a == b || KeyLess(a, b) || KeyLess(b, a)
    ensures !(KeyLess(a, b) && KeyLess(b, a))
    ensures a == b ==> !KeyLess(a, b)
  {
    if a != "" && b != "" {
      KeyLessTotal(a[1..], b[1..]);
      assert a == [a[0]] + a[1..] && b == [b[0]] + b[1..];
    }
  }

  lemma {:induction false} KeyLessTransitive(a: string, b: string, c: string)
    requires KeyLess(a, b) && KeyLess(b, c)
    ensures KeyLess(a, c)
  {
    if a != "" && a[0] == b[0] && b[0] == c[0] {
      KeyLessTransitive(a[1..], b[1..], c[1..]);
    }
  }

  predicate IsLeastKey(k: string, keys: set<string>) {
    k in keys && forall x :: x in keys && x != k ==> KeyLess(k, x)
  }

  lemma {:induction false} LeastKeyExists(keys: set<string>)
    requires keys != {}
    ensures exists k :: IsLeastKey(k, keys)
  {
    var k :| k in keys;
    if keys != {k} {
      var rest := keys - {k};
      assert keys == rest + {k};
      LeastKeyExists(rest);
      var m :| IsLeastKey(m, rest);
      KeyLessTotal(k, m);
      if KeyLess(k, m) {
        forall x | x in keys && x != k ensures KeyLess(k, x) {
          if x != m { KeyLessTransitive(k, m, x); }
        }
        assert IsLeastKey(k, keys);
      } else {
        assert IsLeastKey(m, keys);
      }
    } else {
      assert IsLeastKey(k, keys);
    }
  }

  lemma LeastKeyUnique(keys: set<string>)
    ensures forall j, k :: IsLeastKey(j, keys) && IsLeastKey(k, keys) ==> j == k
  {
    forall j, k | IsLeastKey(j, keys) && IsLeastKey(k, keys) ensures j == k {
      KeyLessTotal(j, k);
    }
  }

  /** The keys in iteration order. */
  function SortedKeys(keys: set<string>): (r: seq<string>)
    ensures |r| == |keys|
    ensures forall k :: k in r <==> k in keys
    ensures forall i, j :: 0 <= i < j < |r| ==> KeyLess(r[i], r[j])
  {
    if keys == {} then []
    else
      LeastKeyExists(keys);
      LeastKeyUnique(keys);
      var k :| k in keys && IsLeastKey(k, keys);
      [k] + SortedKeys(keys - {k})
  }
}
