/**
 * The JavaScript values that `JSON.parse` produces and the verifier inspects.
 *
 * An object is a sequence of (key, value) pairs in the order JavaScript enumerates its own
 * properties, so that key order is observable. A property whose value is `undefined` is
 * represented by the key's absence (`JSON.stringify` omits such properties).
 */
module JsonValues {
  import opened Wrappers

  /** A finite number that is not an integer. */
  type NonIntegral = x: real | x != x.Floor as real witness 0.5

  /** A JavaScript number: `Int` for integral values (-0 is the same value as 0), `Frac` for
      the others, `Inf` for the infinities `JSON.parse` yields on overflow. Each number has
      exactly one representation. */
  datatype Number = Int(i: int) | Frac(x: NonIntegral) | Inf(negative: bool)

  datatype Json =
    | JNull
    | JBool(b: bool)
    | JNum(n: Number)
    | JStr(s: string)
    | JArr(items: seq<Json>)
    | JObj(fields: seq<(string, Json)>)

  function Keys(fs: seq<(string, Json)>): (ks: seq<string>)
    ensures |ks| == |fs|
    ensures forall k :: 0 <= k < |fs| ==> ks[k] == fs[k].0
  {
    if fs == [] then [] else [fs[0].0] + Keys(fs[1..])
  }

  /** No key occurs twice: true of every JavaScript object. */
  predicate DistinctKeys(fs: seq<(string, Json)>) {
    forall i, j :: 0 <= i < j < |fs| ==> fs[i].0 != fs[j].0
  }

  /** Every object nested anywhere in `v` has distinct keys. */
  predicate WellFormed(v: Json) {
    match v
    case JArr(items) => forall k :: 0 <= k < |items| ==> WellFormed(items[k])
    case JObj(fs) => DistinctKeys(fs) && forall k :: 0 <= k < |fs| ==> WellFormed(fs[k].1)
    case _ => true
  }

  function Lookup(fs: seq<(string, Json)>, key: string): Option<Json> {
    if fs == [] then None
    else if fs[0].0 == key then Some(fs[0].1)
    else Lookup(fs[1..], key)
  }

  /** A lookup succeeds exactly when some field has the key, and then it yields the value of
      such a field. */
  lemma {:induction false} LookupSpec(fs: seq<(string, Json)>, key: string)
    ensures Lookup(fs, key).Some? <==> exists k :: 0 <= k < |fs| && fs[k].0 == key
    ensures Lookup(fs, key).Some? ==> exists k :: 0 <= k < |fs| && fs[k] == (key, Lookup(fs, key).value)
  {
    if fs != [] && fs[0].0 != key {
      LookupSpec(fs[1..], key);
      if Lookup(fs, key).Some? {
        var k :| 0 <= k < |fs[1..]| && fs[1..][k] == (key, Lookup(fs, key).value);
        assert fs[k + 1] == (key, Lookup(fs, key).value);
      } else {
        forall k | 0 <= k < |fs| ensures fs[k].0 != key {
          if k > 0 { assert fs[k] == fs[1..][k - 1]; }
        }
      }
    }
  }

  lemma {:induction false} LookupAt(fs: seq<(string, Json)>, k: nat)
    requires DistinctKeys(fs) && k < |fs|
    ensures Lookup(fs, fs[k].0) == Some(fs[k].1)
  {
    if k > 0 {
      assert fs[0].0 != fs[k].0;
      LookupAt(fs[1..], k - 1);
    }
  }

  /** `v[key]` as an own property: `None` stands for `undefined`. Arrays and primitives
      have none of the keys the verifier asks for. */
  function Get(v: Json, key: string): (r: Option<Json>)
    ensures !v.JObj? ==> r == None
  {
    if v.JObj? then Lookup(v.fields, key) else None
  }

  /** `Object.prototype.hasOwnProperty.call(v, key)`. */
  predicate HasOwn(v: Json, key: string) {
    Get(v, key).Some?
  }

  /** `typeof x === 'string'` for a property that may be `undefined`. */
  predicate IsString(x: Option<Json>) {
    x.Some? && x.value.JStr?
  }

  /** `typeof x === 'number'`. */
  predicate IsNumber(x: Option<Json>) {
    x.Some? && x.value.JNum?
  }

  /** `typeof x === 'number' && Number.isInteger(x)`. */
  predicate IsIntegerNumber(x: Option<Json>) {
    x.Some? && x.value.JNum? && x.value.n.Int?
  }

  /** `typeof x === 'number' && Number.isFinite(x)`. */
  predicate IsFiniteNumber(x: Option<Json>) {
    x.Some? && x.value.JNum? && !x.value.n.Inf?
  }

  /** `typeof x === 'string' && x.length > 0`. */
  predicate IsNonEmptyString(x: Option<Json>) {
    x.Some? && x.value.JStr? && x.value.s != []
  }

  /** `!!x`: JavaScript truthiness. `undefined`, `null`, `false`, `0` and `''` are falsy. */
  predicate Truthy(x: Option<Json>) {
    match x
    case None => false
    case Some(v) =>
      match v
      case JNull => false
      case JBool(b) => b
      case JNum(n) => !(n.Int? && n.i == 0)
      case JStr(s) => s != []
      case _ => true
  }

  /** `x !== null && typeof x === 'object'`: arrays count as objects here. */
  predicate IsObjectLike(x: Option<Json>) {
    x.Some? && (x.value.JObj? || x.value.JArr?)
  }

  /** An object literal `{k1: v1, ...}` whose `undefined` values are left out, as
      `JSON.stringify` leaves them out. */
  function Defined(ps: seq<(string, Option<Json>)>): (fs: seq<(string, Json)>)
    ensures forall y :: y in fs ==> exists i :: 0 <= i < |ps| && ps[i] == (y.0, Some(y.1))
    ensures forall i :: 0 <= i < |ps| && ps[i].1.Some? ==> (ps[i].0, ps[i].1.value) in fs
    ensures LiteralKeysDistinct(ps) ==> DistinctKeys(fs)
  {
    if ps == [] then []
    else if ps[0].1.Some? then [(ps[0].0, ps[0].1.value)] + Defined(ps[1..])
    else Defined(ps[1..])
  }

  predicate LiteralKeysDistinct(ps: seq<(string, Option<Json>)>) {
    forall i, j :: 0 <= i < j < |ps| ==> ps[i].0 != ps[j].0
  }

  /** Reading a key back from the literal gives the value written under it, or `undefined`. */
  lemma DefinedLookup(ps: seq<(string, Option<Json>)>, k: string)
    requires LiteralKeysDistinct(ps)
    ensures forall i :: 0 <= i < |ps| && ps[i].0 == k ==> Lookup(Defined(ps), k) == ps[i].1
    ensures (forall i :: 0 <= i < |ps| ==> ps[i].0 != k) ==> Lookup(Defined(ps), k) == None
  {
    var fs := Defined(ps);
    forall i | 0 <= i < |ps| && ps[i].0 == k ensures Lookup(fs, k) == ps[i].1 {
      if ps[i].1.Some? {
        var j :| 0 <= j < |fs| && fs[j] == (k, ps[i].1.value);
        LookupAt(fs, j);
      } else {
        LookupSpec(fs, k);
        forall j | 0 <= j < |fs| ensures fs[j].0 != k {
          assert fs[j] in fs;
        }
      }
    }
    if Lookup(fs, k).Some? {
      LookupSpec(fs, k);
      var j :| 0 <= j < |fs| && fs[j].0 == k;
      assert fs[j] in fs;
    }
  }

  /** The literal `{k: f(k) for k in keys}`, with `undefined` values left out. */
  function ObjectLiteral(keys: seq<string>, f: string -> Option<Json>): (r: Json)
    requires forall i, j :: 0 <= i < j < |keys| ==> keys[i] != keys[j]
    ensures r.JObj? && DistinctKeys(r.fields)
    ensures forall k {:trigger Get(r, k)} :: Get(r, k) == if k in keys then f(k) else None
  {
    var ps := seq(|keys|, i requires 0 <= i < |keys| => (keys[i], f(keys[i])));
    assert LiteralKeysDistinct(ps);
    var r := JObj(Defined(ps));
    assert forall k {:trigger Get(r, k)} :: Get(r, k) == if k in keys then f(k) else None by {
      forall k ensures Get(r, k) == if k in keys then f(k) else None {
        DefinedLookup(ps, k);
        if k in keys {
          var i :| 0 <= i < |keys| && keys[i] == k;
          assert ps[i].0 == k;
        }
      }
    }
    r
  }

  /** A literal depends only on the values written under its keys. */
  lemma ObjectLiteralDependsOnValues(keys: seq<string>, f: string -> Option<Json>, g: string -> Option<Json>)
    requires forall i, j :: 0 <= i < j < |keys| ==> keys[i] != keys[j]
    requires forall i :: 0 <= i < |keys| ==> f(keys[i]) == g(keys[i])
    ensures ObjectLiteral(keys, f) == ObjectLiteral(keys, g)
  {
    var pf := seq(|keys|, i requires 0 <= i < |keys| => (keys[i], f(keys[i])));
    var pg := seq(|keys|, i requires 0 <= i < |keys| => (keys[i], g(keys[i])));
    assert pf == pg;
  }

  /** The one key that `out[k] = v` on a fresh `{}` does not create as an own property: the
      assignment calls the `__proto__` setter inherited from `Object.prototype` instead.
      (`JSON.parse` does create an own `"__proto__"` property, so parsed objects can have it.) */
  const PROTO_KEY: string := "__proto__"

  /** The fields that `for (...) out[k] = v` leaves as own properties of a fresh `{}`, in
      creation order: all of them but a `"__proto__"` one. */
  function Assignable(fs: seq<(string, Json)>): (r: seq<(string, Json)>)
    ensures forall y :: y in r <==> y in fs && y.0 != PROTO_KEY
  {
    if fs == [] then []
    else (if fs[0].0 == PROTO_KEY then [] else [fs[0]]) + Assignable(fs[1..])
  }

  /** Each field keeps its multiplicity, except the `"__proto__"` ones, which are gone. */
  lemma {:induction false} AssignableMultiset(fs: seq<(string, Json)>, y: (string, Json))
    ensures multiset(Assignable(fs))[y] == if y.0 == PROTO_KEY then 0 else multiset(fs)[y]
  {
    if fs != [] {
      AssignableMultiset(fs[1..], y);
      assert fs == [fs[0]] + fs[1..];
    }
  }

  /** Objects with the same fields keep the same fields. */
  lemma AssignablePermutes(a: seq<(string, Json)>, b: seq<(string, Json)>)
    requires multiset(a) == multiset(b)
    ensures multiset(Assignable(a)) == multiset(Assignable(b))
  {
    forall y ensures multiset(Assignable(a))[y] == multiset(Assignable(b))[y] {
      AssignableMultiset(a, y);
      AssignableMultiset(b, y);
    }
  }

  lemma {:induction false} AssignableDistinct(fs: seq<(string, Json)>)
    requires DistinctKeys(fs)
    ensures DistinctKeys(Assignable(fs))
  {
    if fs != [] {
      var rest := Assignable(fs[1..]);
      AssignableDistinct(fs[1..]);
      if fs[0].0 != PROTO_KEY {
        var r := Assignable(fs);
        assert r == [fs[0]] + rest;
        forall i, j | 0 <= i < j < |r| ensures r[i].0 != r[j].0 {
          if i == 0 {
            assert r[j] in fs[1..];
            var m :| 0 <= m < |fs[1..]| && fs[1..][m] == r[j];
            assert fs[m + 1] == r[j];
          } else {
            assert r[i] == rest[i - 1] && r[j] == rest[j - 1];
          }
        }
      }
    }
  }

  /** Fields without a `"__proto__"` key are kept as they are. */
  lemma {:induction false} AssignableNoProto(fs: seq<(string, Json)>)
    requires forall k :: 0 <= k < |fs| ==> fs[k].0 != PROTO_KEY
    ensures Assignable(fs) == fs
  {
    if fs != [] {
      AssignableNoProto(fs[1..]);
      assert fs == [fs[0]] + fs[1..];
    }
  }

  /** Every key other than `"__proto__"` looks up as before. */
  lemma {:induction false} AssignableLookup(fs: seq<(string, Json)>, k: string)
    requires k != PROTO_KEY
    ensures Lookup(Assignable(fs), k) == Lookup(fs, k)
  {
    if fs != [] {
      AssignableLookup(fs[1..], k);
      if fs[0].0 != PROTO_KEY {
        assert Assignable(fs) == [fs[0]] + Assignable(fs[1..]);
      } else {
        assert Assignable(fs) == [] + Assignable(fs[1..]) == Assignable(fs[1..]);
      }
    }
  }
}
