/**
 JSON documents as `serde_json` holds them: an object is a map from distinct keys (iterated in
 ascending order), an integer is a `u64` or a negative `i64`, a float is finite.
 */
module Json {
  import opened Wrappers
  import opened Floats
  import Text

  type JsonInt = n: int | -0x8000_0000_0000_0000 <= n < 0x1_0000_0000_0000_0000

  datatype Number = Int(n: JsonInt) | Float(f: FiniteF64)

  datatype Value =
    | Null
    | Bool(b: bool)
    | Num(num: Number)
    | Str(s: string)
    | Arr(items: seq<Value>)
    | Obj(m: map<string, Value>)

  /** `Value::as_i64`. */
  function AsI64(v: Value): Option<int> {
    if v.Num? && v.num.Int? && v.num.n <= Text.I64_MAX then Some(v.num.n) else None
  }

  /** `Value::as_u64`. */
  function AsU64(v: Value): Option<nat> {
    if v.Num? && v.num.Int? && v.num.n >= 0 then Some(v.num.n) else None
  }

  /** `Value::as_f64`: every number has one; integers round. */
  function AsF64(v: Value): Option<F64> {
    if !v.Num? then None
    else match v.num
      case Int(n) => Some(OfInt(n))
      case Float(f) => Some(f)
  }

  /** The member `name` of an object when it is there and is not `null`. */
  function Present(m: map<string, Value>, name: string): Option<Value> {
    if name in m && !m[name].Null? then Some(m[name]) else None
  }

  // Nesting height, the termination measure of the walkers over documents.

  ghost function MaxOf(s: set<nat>): (r: nat)
    ensures forall x :: x in s ==> x <= r
    ensures r == 0 || r in s
  {
    if s == {} then 0
    else
      var x :| x in s;
      var y := MaxOf(s - {x});
      assert s == (s - {x}) + {x};
      if x > y then x else y
  }

  ghost function Height(v: Value): nat {
    match v
    case Obj(m) => 1 + MaxOf(set k | k in m :: Height(m[k]))
    case Arr(items) => 1 + MaxOf(set i | 0 <= i < |items| :: Height(items[i]))
    case _ => 0
  }

  lemma {:induction false} MemberHeight(m: map<string, Value>, k: string)
    requires k in m
    ensures Height(m[k]) < Height(Obj(m))
  {
    var hs := set k | k in m :: Height(m[k]);
    assert Height(m[k]) in hs;
  }

  lemma {:induction false} ItemHeight(items: seq<Value>, i: nat)
    requires i < |items|
    ensures Height(items[i]) < Height(Arr(items))
  {
    var hs := set i | 0 <= i < |items| :: Height(items[i]);
    assert Height(items[i]) in hs;
  }

  /** Adding a leaf member to an object does not make it taller. */
  lemma {:induction false} InjectedHeight(m: map<string, Value>, k: string, leaf: Value)
    requires Height(leaf) == 0
    ensures Height(Obj(m[k := leaf])) <= Height(Obj(m))
  {
    var m' := m[k := leaf];
    var r := MaxOf(set k' | k' in m' :: Height(m'[k']));
    if r != 0 {
      var k' :| k' in m' && Height(m'[k']) == r;
      MemberHeight(m, k');
    }
  }
}
