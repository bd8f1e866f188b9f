/**
 * Deterministic serialisation (src/stable_stringify.js): `canonicalize` rebuilds every object
 * with its keys sorted by the default comparator of `Array.prototype.sort` (UTF-16 code-unit
 * order) and values canonicalized recursively; arrays map element-wise; everything else passes
 * through. `stableStringify` is `JSON.stringify` of the result, an abstract parameter here.
 *
 * The sorted keys are assigned into a fresh `{}`. Assigning `"__proto__"` there calls the
 * inherited setter and creates no own property, so that key is dropped. A JavaScript object enumerates its
 * array-index keys ("0", "7", "10", ...) before all other keys and in numeric order whatever the
 * insertion order. The output order is therefore "index keys numerically, then the other keys
 * sorted", which differs from plain sorted order when index-like keys are present.
 */
module StableStringify {
  import opened JsonValues
  import opened JsStrings

  type Field = (string, Json)

  /** The sort key of a property name. With `numeric`, array-index keys are ordered by value:
      canonical decimal strings compare by length first, then by code units. */
  function Rank(numeric: bool, k: string): seq<int> {
    if numeric then [|k|] + Utf16(k) else Utf16(k)
  }

  predicate Before(numeric: bool, a: string, b: string) {
    LexLess(Rank(numeric, a), Rank(numeric, b))
  }

  lemma RankInjective(numeric: bool, a: string, b: string)
    requires Rank(numeric, a) == Rank(numeric, b)
    ensures a == b
  {
    if numeric {
      assert Utf16(a) == Rank(numeric, a)[1..] == Rank(numeric, b)[1..] == Utf16(b);
    }
    Utf16Injective(a, b);
  }

  lemma BeforeTotal(numeric: bool, a: string, b: string)
    requires a != b
    ensures Before(numeric, a, b) || Before(numeric, b, a)
  {
    if Rank(numeric, a) == Rank(numeric, b) {
      RankInjective(numeric, a, b);
    }
    LexLessTotal(Rank(numeric, a), Rank(numeric, b));
  }

  lemma BeforeIrreflexive(numeric: bool, a: string)
    ensures !Before(numeric, a, a)
  {
    LexLessIrreflexive(Rank(numeric, a));
  }

  lemma BeforeTransitive(numeric: bool, a: string, b: string, c: string)
    requires Before(numeric, a, b) && Before(numeric, b, c)
    ensures Before(numeric, a, c)
  {
    LexLessTransitive(Rank(numeric, a), Rank(numeric, b), Rank(numeric, c));
  }

  /** Strictly ascending keys (which implies distinct keys). */
  predicate SortedBy(numeric: bool, fs: seq<Field>) {
    forall i, j :: 0 <= i < j < |fs| ==> Before(numeric, fs[i].0, fs[j].0)
  }

  lemma SortedDistinct(numeric: bool, fs: seq<Field>)
    requires SortedBy(numeric, fs)
    ensures DistinctKeys(fs)
  {
    forall i, j | 0 <= i < j < |fs| ensures fs[i].0 != fs[j].0 {
      if fs[i].0 == fs[j].0 { BeforeIrreflexive(numeric, fs[i].0); }
    }
  }

  function Insert(numeric: bool, x: Field, fs: seq<Field>): (r: seq<Field>)
    ensures |r| == |fs| + 1
    ensures multiset(r) == multiset(fs) + multiset{x}
  {
    if fs == [] || !Before(numeric, fs[0].0, x.0) then [x] + fs
    else
      assert fs == [fs[0]] + fs[1..];
      [fs[0]] + Insert(numeric, x, fs[1..])
  }

  /** Insertion sort by key; on distinct keys it is the order `Object.keys(v).sort()` yields. */
  function SortFields(numeric: bool, fs: seq<Field>): (r: seq<Field>)
    ensures |r| == |fs|
    ensures multiset(r) == multiset(fs)
  {
    if fs == [] then []
    else
      assert fs == [fs[0]] + fs[1..];
      Insert(numeric, fs[0], SortFields(numeric, fs[1..]))
  }

  /** A field before every key of a sorted sequence keeps it sorted when put in front. */
  lemma SortedCons(numeric: bool, h: Field, t: seq<Field>)
    requires SortedBy(numeric, t)
    requires forall j :: 0 <= j < |t| ==> Before(numeric, h.0, t[j].0)
    ensures SortedBy(numeric, [h] + t)
  {
    var r := [h] + t;
    forall i, j | 0 <= i < j < |r| ensures Before(numeric, r[i].0, r[j].0) {
      assert r[j] == t[j - 1];
      if i > 0 { assert r[i] == t[i - 1]; }
    }
  }

  lemma {:induction false} InsertSorted(numeric: bool, x: Field, fs: seq<Field>)
    requires SortedBy(numeric, fs)
    requires forall k :: 0 <= k < |fs| ==> fs[k].0 != x.0
    ensures SortedBy(numeric, Insert(numeric, x, fs))
  {
    if fs == [] {
      SortedCons(numeric, x, fs);
    } else if !Before(numeric, fs[0].0, x.0) {
      BeforeTotal(numeric, fs[0].0, x.0);
      forall j | 0 <= j < |fs| ensures Before(numeric, x.0, fs[j].0) {
        if j > 0 { BeforeTransitive(numeric, x.0, fs[0].0, fs[j].0); }
      }
      SortedCons(numeric, x, fs);
    } else {
      var rest := Insert(numeric, x, fs[1..]);
      InsertSorted(numeric, x, fs[1..]);
      forall j | 0 <= j < |rest| ensures Before(numeric, fs[0].0, rest[j].0) {
        var y := rest[j];
        assert y in multiset(rest);
        assert y in multiset(fs[1..]) || y == x;
        if y != x {
          var k :| 0 <= k < |fs[1..]| && fs[1..][k] == y;
          assert fs[k + 1] == y;
        }
      }
      SortedCons(numeric, fs[0], rest);
    }
  }

  lemma {:induction false} SortSorted(numeric: bool, fs: seq<Field>)
    requires DistinctKeys(fs)
    ensures SortedBy(numeric, SortFields(numeric, fs))
  {
    if fs != [] {
      var rest := SortFields(numeric, fs[1..]);
      SortSorted(numeric, fs[1..]);
      forall k | 0 <= k < |rest| ensures rest[k].0 != fs[0].0 {
        assert rest[k] in multiset(fs[1..]);
        var j :| 0 <= j < |fs[1..]| && fs[1..][j] == rest[k];
        assert fs[j + 1] == rest[k];
      }
      InsertSorted(numeric, fs[0], rest);
    }
  }

  lemma SortedHeadsEqual(numeric: bool, a: seq<Field>, b: seq<Field>)
    requires SortedBy(numeric, a) && SortedBy(numeric, b)
    requires multiset(a) == multiset(b) && a != [] && b != []
    ensures a[0] == b[0]
  {
    assert b[0] in multiset(a) && a[0] in multiset(b);
    var j :| 0 <= j < |a| && a[j] == b[0];
    var i :| 0 <= i < |b| && b[i] == a[0];
    if j > 0 && i > 0 {
      BeforeTransitive(numeric, a[0].0, b[0].0, a[0].0);
      BeforeIrreflexive(numeric, a[0].0);
    }
  }

  lemma TailsPermute(a: seq<Field>, b: seq<Field>)
    requires multiset(a) == multiset(b) && a != [] && b != [] && a[0] == b[0]
    ensures multiset(a[1..]) == multiset(b[1..])
  {
    assert a == [a[0]] + a[1..] && b == [b[0]] + b[1..];
    assert multiset(a[1..]) == multiset(a) - multiset{a[0]};
    assert multiset(b[1..]) == multiset(b) - multiset{b[0]};
  }

  /** A strictly sorted arrangement of a multiset of fields is unique. */
  lemma {:induction false} SortedUnique(numeric: bool, a: seq<Field>, b: seq<Field>)
    requires SortedBy(numeric, a) && SortedBy(numeric, b)
    requires multiset(a) == multiset(b)
    ensures a == b
  {
    assert |a| == |multiset(a)| == |multiset(b)| == |b|;
    if a != [] {
      SortedHeadsEqual(numeric, a, b);
      TailsPermute(a, b);
      assert SortedBy(numeric, a[1..]) && SortedBy(numeric, b[1..]);
      SortedUnique(numeric, a[1..], b[1..]);
      assert a == [a[0]] + a[1..] && b == [b[0]] + b[1..];
    }
  }

  /** The fields with array-index keys, in their given order. */
  function IndexFields(fs: seq<Field>): (r: seq<Field>)
    ensures forall k :: 0 <= k < |r| ==> IsArrayIndex(r[k].0)
    ensures forall y :: y in r ==> y in fs
  {
    if fs == [] then []
    else if IsArrayIndex(fs[0].0) then [fs[0]] + IndexFields(fs[1..])
    else IndexFields(fs[1..])
  }

  /** The fields with other keys, in their given order. */
  function OtherFields(fs: seq<Field>): (r: seq<Field>)
    ensures forall k :: 0 <= k < |r| ==> !IsArrayIndex(r[k].0)
    ensures forall y :: y in r ==> y in fs
  {
    if fs == [] then []
    else if IsArrayIndex(fs[0].0) then OtherFields(fs[1..])
    else [fs[0]] + OtherFields(fs[1..])
  }

  lemma {:induction false} PartitionPermutes(fs: seq<Field>)
    ensures multiset(IndexFields(fs)) + multiset(OtherFields(fs)) == multiset(fs)
  {
    if fs != [] {
      PartitionPermutes(fs[1..]);
      assert fs == [fs[0]] + fs[1..];
    }
  }

  lemma {:induction false} IndexFieldsSorted(numeric: bool, fs: seq<Field>)
    requires SortedBy(numeric, fs)
    ensures SortedBy(numeric, IndexFields(fs))
  {
    if fs != [] {
      IndexFieldsSorted(numeric, fs[1..]);
      if IsArrayIndex(fs[0].0) {
        var i := IndexFields(fs[1..]);
        forall k | 0 <= k < |i| ensures Before(numeric, fs[0].0, i[k].0) {
          assert i[k] in fs[1..];
        }
      }
    }
  }

  lemma {:induction false} OtherFieldsSorted(numeric: bool, fs: seq<Field>)
    requires SortedBy(numeric, fs)
    ensures SortedBy(numeric, OtherFields(fs))
  {
    if fs != [] {
      OtherFieldsSorted(numeric, fs[1..]);
      if !IsArrayIndex(fs[0].0) {
        var o := OtherFields(fs[1..]);
        forall k | 0 <= k < |o| ensures Before(numeric, fs[0].0, o[k].0) {
          assert o[k] in fs[1..];
        }
      }
    }
  }

  /** The enumeration order of an object whose properties were created in the order `fs`
      (OrdinaryOwnPropertyKeys): array-index keys ascending by value, then the rest in
      creation order. */
  function OwnPropertyOrder(fs: seq<Field>): seq<Field> {
    SortFields(true, IndexFields(fs)) + OtherFields(fs)
  }

  lemma OwnPropertyOrderPermutes(fs: seq<Field>)
    ensures multiset(OwnPropertyOrder(fs)) == multiset(fs)
  {
    PartitionPermutes(fs);
  }

  /** Building an object from strictly sorted fields gives distinct keys. */
  lemma OwnPropertyOrderDistinct(fs: seq<Field>)
    requires SortedBy(false, fs)
    ensures DistinctKeys(OwnPropertyOrder(fs))
  {
    IndexFieldsSorted(false, fs);
    OtherFieldsSorted(false, fs);
    SortedDistinct(false, IndexFields(fs));
    SortedDistinct(false, OtherFields(fs));
    var s, o := SortFields(true, IndexFields(fs)), OtherFields(fs);
    SortSorted(true, IndexFields(fs));
    SortedDistinct(true, s);
    forall k | 0 <= k < |s| ensures IsArrayIndex(s[k].0) {
      assert s[k] in multiset(IndexFields(fs));
    }
    assert OwnPropertyOrder(fs) == s + o;
  }

  function MapValues(f: Json -> Json, fs: seq<Field>): (r: seq<Field>)
    ensures |r| == |fs|
    ensures forall k :: 0 <= k < |fs| ==> r[k] == (fs[k].0, f(fs[k].1))
  {
    if fs == [] then [] else [(fs[0].0, f(fs[0].1))] + MapValues(f, fs[1..])
  }

  lemma {:induction false} AssignableMapValues(f: Json -> Json, fs: seq<Field>)
    ensures Assignable(MapValues(f, fs)) == MapValues(f, Assignable(fs))
  {
    if fs != [] {
      assert MapValues(f, fs)[1..] == MapValues(f, fs[1..]);
      AssignableMapValues(f, fs[1..]);
    }
  }

  /** `canonicalize(v)`. */
  function Canonicalize(v: Json): (r: Json)
    ensures r.JArr? <==> v.JArr?
    ensures r.JObj? <==> v.JObj?
    ensures v.JArr? ==> |r.items| == |v.items|
  {
    match v
    case JArr(items) =>
      JArr(seq(|items|, i requires 0 <= i < |items| => Canonicalize(items[i])))
    case JObj(fs) =>
      var cs := seq(|fs|, i requires 0 <= i < |fs| => (fs[i].0, Canonicalize(fs[i].1)));
      JObj(OwnPropertyOrder(SortFields(false, Assignable(cs))))
    case _ => v
  }

  /** `stableStringify(v)`, given `JSON.stringify`. */
  function StableStringify(stringify: Json -> string, v: Json): string {
    stringify(Canonicalize(v))
  }

  // ---------------------------------------------------------------------------------------
  // Properties of canonicalize

  /** null, booleans, numbers and strings come back unchanged. */
  lemma CanonicalizePrimitive(v: Json)
    requires !v.JArr? && !v.JObj?
    ensures Canonicalize(v) == v
  {
  }

  /** Arrays map element-wise: same length, same order, each element canonicalized. */
  lemma CanonicalizeArray(items: seq<Json>)
    ensures Canonicalize(JArr(items)) == JArr(seq(|items|, i requires 0 <= i < |items| => Canonicalize(items[i])))
    ensures forall i :: 0 <= i < |items| ==> Canonicalize(JArr(items)).items[i] == Canonicalize(items[i])
  {
  }

  lemma CanonicalizeObjectUnfold(fs: seq<Field>)
    ensures Canonicalize(JObj(fs)) == JObj(OwnPropertyOrder(SortFields(false, Assignable(MapValues(Canonicalize, fs)))))
  {
    var cs := seq(|fs|, i requires 0 <= i < |fs| => (fs[i].0, Canonicalize(fs[i].1)));
    assert cs == MapValues(Canonicalize, fs);
  }

  /** An object keeps exactly its key/value pairs other than a `"__proto__"` one, with each
      value canonicalized: the output fields are a permutation of those input fields with
      canonicalized values, and none of them has the key `"__proto__"`. */
  lemma CanonicalizeObjectFields(fs: seq<Field>)
    ensures Canonicalize(JObj(fs)).JObj?
    ensures multiset(Canonicalize(JObj(fs)).fields) == multiset(Assignable(MapValues(Canonicalize, fs)))
    ensures forall y :: y in Canonicalize(JObj(fs)).fields <==> y in MapValues(Canonicalize, fs) && y.0 != PROTO_KEY
  {
    CanonicalizeObjectUnfold(fs);
    OwnPropertyOrderPermutes(SortFields(false, Assignable(MapValues(Canonicalize, fs))));
    var out := Canonicalize(JObj(fs)).fields;
    forall y ensures y in out <==> y in multiset(Assignable(MapValues(Canonicalize, fs))) {
    }
  }

  /** An own `"__proto__"` property does not survive: it changes neither the canonical form
      nor, therefore, the serialised text. */
  lemma ProtoKeyDropped(x: Json, fs: seq<Field>)
    ensures Canonicalize(JObj([(PROTO_KEY, x)] + fs)) == Canonicalize(JObj(fs))
  {
    var gs := [(PROTO_KEY, x)] + fs;
    assert gs[1..] == fs;
    assert Assignable(gs) == Assignable(fs);
    AssignableMapValues(Canonicalize, gs);
    AssignableMapValues(Canonicalize, fs);
    CanonicalizeObjectUnfold(gs);
    CanonicalizeObjectUnfold(fs);
  }

  /** The first `n` fields have array-index keys in ascending numeric order; the remaining
      fields have other keys, in ascending code-unit order. */
  predicate IndexKeysThenSorted(out: seq<Field>, n: nat) {
    && n <= |out|
    && (forall k :: 0 <= k < n ==> IsArrayIndex(out[k].0))
    && (forall k :: n <= k < |out| ==> !IsArrayIndex(out[k].0))
    && SortedBy(true, out[..n]) && SortedBy(false, out[n..])
  }

  /** The shape of an object built from strictly sorted fields: array-index keys first,
      ascending by value, then the other keys in their sorted order. */
  lemma OwnPropertyOrderShape(sorted: seq<Field>)
    requires SortedBy(false, sorted)
    ensures IndexKeysThenSorted(OwnPropertyOrder(sorted), |IndexFields(sorted)|)
  {
    IndexFieldsSorted(false, sorted);
    OtherFieldsSorted(false, sorted);
    SortedDistinct(false, IndexFields(sorted));
    SortSorted(true, IndexFields(sorted));
    var s := SortFields(true, IndexFields(sorted));
    var out := OwnPropertyOrder(sorted);
    forall k | 0 <= k < |s| ensures IsArrayIndex(s[k].0) {
      assert s[k] in multiset(IndexFields(sorted));
    }
    assert out[..|s|] == s && out[|s|..] == OtherFields(sorted);
  }

  /** Key order of the output: array-index keys first, ascending by value; then all other keys,
      ascending in code-unit order. */
  lemma CanonicalizeObjectOrder(fs: seq<Field>)
    requires DistinctKeys(fs)
    ensures exists n: nat :: IndexKeysThenSorted(Canonicalize(JObj(fs)).fields, n)
  {
    CanonicalizeObjectUnfold(fs);
    var cs := MapValues(Canonicalize, fs);
    assert DistinctKeys(cs);
    AssignableDistinct(cs);
    var sorted := SortFields(false, Assignable(cs));
    SortSorted(false, Assignable(cs));
    OwnPropertyOrderShape(sorted);
  }

  lemma {:induction false} InsertMapValues(numeric: bool, f: Json -> Json, x: Field, fs: seq<Field>)
    ensures Insert(numeric, (x.0, f(x.1)), MapValues(f, fs)) == MapValues(f, Insert(numeric, x, fs))
  {
    if fs != [] {
      assert MapValues(f, fs)[1..] == MapValues(f, fs[1..]);
      InsertMapValues(numeric, f, x, fs[1..]);
    }
  }

  /** Sorting looks only at keys, so it commutes with rewriting values. */
  lemma {:induction false} SortMapValues(numeric: bool, f: Json -> Json, fs: seq<Field>)
    ensures SortFields(numeric, MapValues(f, fs)) == MapValues(f, SortFields(numeric, fs))
  {
    if fs != [] {
      assert MapValues(f, fs)[1..] == MapValues(f, fs[1..]);
      SortMapValues(numeric, f, fs[1..]);
      InsertMapValues(numeric, f, fs[0], SortFields(numeric, fs[1..]));
    }
  }

  /** Insertion order does not matter: two objects holding the same key/value pairs in a
      different order canonicalize to the same value. */
  lemma CanonicalizeOrderIndependent(a: seq<Field>, b: seq<Field>)
    requires DistinctKeys(a) && DistinctKeys(b)
    requires multiset(a) == multiset(b)
    ensures Canonicalize(JObj(a)) == Canonicalize(JObj(b))
  {
    CanonicalizeObjectUnfold(a);
    CanonicalizeObjectUnfold(b);
    var ka, kb := Assignable(a), Assignable(b);
    AssignablePermutes(a, b);
    AssignableDistinct(a);
    AssignableDistinct(b);
    SortSorted(false, ka);
    SortSorted(false, kb);
    SortedUnique(false, SortFields(false, ka), SortFields(false, kb));
    AssignableMapValues(Canonicalize, a);
    AssignableMapValues(Canonicalize, b);
    SortMapValues(false, Canonicalize, ka);
    SortMapValues(false, Canonicalize, kb);
  }

  /** ... and therefore serialise to the same text. */
  lemma StableStringifyOrderIndependent(stringify: Json -> string, a: seq<Field>, b: seq<Field>)
    requires DistinctKeys(a) && DistinctKeys(b)
    requires multiset(a) == multiset(b)
    ensures StableStringify(stringify, JObj(a)) == StableStringify(stringify, JObj(b))
  {
    CanonicalizeOrderIndependent(a, b);
  }

  lemma CanonicalValuesStay(fs: seq<Field>, out: seq<Field>)
    requires forall k :: 0 <= k < |fs| ==> Canonicalize(Canonicalize(fs[k].1)) == Canonicalize(fs[k].1)
    requires forall y :: y in out ==> y in MapValues(Canonicalize, fs)
    ensures MapValues(Canonicalize, out) == out
  {
    var cs := MapValues(Canonicalize, fs);
    forall k | 0 <= k < |out| ensures Canonicalize(out[k].1) == out[k].1 {
      assert out[k] in cs;
      var j :| 0 <= j < |cs| && cs[j] == out[k];
    }
  }

  /** The object step of idempotence, given that every value is already idempotent. */
  lemma CanonicalizeIdempotentObject(fs: seq<Field>)
    requires DistinctKeys(fs)
    requires forall k :: 0 <= k < |fs| ==> Canonicalize(Canonicalize(fs[k].1)) == Canonicalize(fs[k].1)
    ensures Canonicalize(Canonicalize(JObj(fs))) == Canonicalize(JObj(fs))
  {
    CanonicalizeObjectFields(fs);
    CanonicalizeObjectUnfold(fs);
    var cs := MapValues(Canonicalize, fs);
    assert DistinctKeys(cs);
    AssignableDistinct(cs);
    var sorted := SortFields(false, Assignable(cs));
    SortSorted(false, Assignable(cs));
    var out := OwnPropertyOrder(sorted);
    OwnPropertyOrderPermutes(sorted);
    OwnPropertyOrderDistinct(sorted);
    CanonicalValuesStay(fs, out);
    forall k | 0 <= k < |out| ensures out[k].0 != PROTO_KEY {
      assert out[k] in out;
    }
    AssignableNoProto(out);
    CanonicalizeObjectUnfold(out);
    SortSorted(false, out);
    SortedUnique(false, SortFields(false, out), sorted);
  }

  /** The value `JSON.stringify` actually writes: an infinity serialises as `null`
      (SerializeJSONProperty, section 25.5.2.2 of ECMA-262), everywhere in the value. */
  function InfinityAsNull(v: Json): (r: Json)
    ensures r.JArr? <==> v.JArr?
    ensures r.JObj? <==> v.JObj?
    ensures v.JArr? ==> |r.items| == |v.items|
    ensures v.JObj? ==> |r.fields| == |v.fields| && forall k :: 0 <= k < |v.fields| ==> r.fields[k].0 == v.fields[k].0
    ensures v.JNum? && v.n.Inf? ==> r == JNull
  {
    match v
    case JNum(Inf(_)) => JNull
    case JArr(items) =>
      JArr(seq(|items|, i requires 0 <= i < |items| => InfinityAsNull(items[i])))
    case JObj(fs) =>
      JObj(seq(|fs|, i requires 0 <= i < |fs| => (fs[i].0, InfinityAsNull(fs[i].1))))
    case _ => v
  }

  lemma {:induction false} IndexFieldsMapValues(f: Json -> Json, fs: seq<Field>)
    ensures IndexFields(MapValues(f, fs)) == MapValues(f, IndexFields(fs))
    ensures OtherFields(MapValues(f, fs)) == MapValues(f, OtherFields(fs))
  {
    if fs != [] {
      assert MapValues(f, fs)[1..] == MapValues(f, fs[1..]);
      IndexFieldsMapValues(f, fs[1..]);
    }
  }

  lemma MapValuesAppend(f: Json -> Json, a: seq<Field>, b: seq<Field>)
    ensures MapValues(f, a + b) == MapValues(f, a) + MapValues(f, b)
  {
    var l, r := MapValues(f, a + b), MapValues(f, a) + MapValues(f, b);
    forall k | 0 <= k < |l| ensures l[k] == r[k] {
      if k < |a| {
        assert (a + b)[k] == a[k];
      } else {
        assert (a + b)[k] == b[k - |a|];
      }
    }
  }

  /** Enumeration order looks only at keys, so it commutes with rewriting values. */
  lemma OwnPropertyOrderMapValues(f: Json -> Json, fs: seq<Field>)
    ensures OwnPropertyOrder(MapValues(f, fs)) == MapValues(f, OwnPropertyOrder(fs))
  {
    IndexFieldsMapValues(f, fs);
    SortMapValues(true, f, IndexFields(fs));
    MapValuesAppend(f, SortFields(true, IndexFields(fs)), OtherFields(fs));
  }

  lemma InfinityAsNullObject(fs: seq<Field>)
    ensures InfinityAsNull(JObj(fs)) == JObj(MapValues(InfinityAsNull, fs))
  {
  }

  lemma InfinityAsNullCanonicalObject(fs: seq<Field>)
    requires forall k :: 0 <= k < |fs| ==> InfinityAsNull(Canonicalize(fs[k].1)) == Canonicalize(InfinityAsNull(fs[k].1))
    ensures InfinityAsNull(Canonicalize(JObj(fs))) == Canonicalize(InfinityAsNull(JObj(fs)))
  {
    var ns := MapValues(InfinityAsNull, fs);
    InfinityAsNullObject(fs);
    var cs := MapValues(Canonicalize, fs);
    assert MapValues(Canonicalize, ns) == MapValues(InfinityAsNull, cs);
    CanonicalizeObjectUnfold(fs);
    CanonicalizeObjectUnfold(ns);
    var sorted := SortFields(false, Assignable(cs));
    AssignableMapValues(InfinityAsNull, cs);
    SortMapValues(false, InfinityAsNull, Assignable(cs));
    OwnPropertyOrderMapValues(InfinityAsNull, sorted);
    InfinityAsNullObject(OwnPropertyOrder(sorted));
  }

  /** Writing infinities as `null` commutes with canonicalisation: it rewrites values only,
      and canonicalize looks only at keys. */
  lemma {:induction false} InfinityAsNullCanonical(v: Json)
    ensures InfinityAsNull(Canonicalize(v)) == Canonicalize(InfinityAsNull(v))
    decreases v
  {
    match v
    case JArr(items) =>
      forall i | 0 <= i < |items|
        ensures InfinityAsNull(Canonicalize(items[i])) == Canonicalize(InfinityAsNull(items[i]))
      {
        InfinityAsNullCanonical(items[i]);
      }
      assert InfinityAsNull(Canonicalize(v)).items == Canonicalize(InfinityAsNull(v)).items;
    case JObj(fs) =>
      forall k | 0 <= k < |fs|
        ensures InfinityAsNull(Canonicalize(fs[k].1)) == Canonicalize(InfinityAsNull(fs[k].1))
      {
        InfinityAsNullCanonical(fs[k].1);
      }
      InfinityAsNullCanonicalObject(fs);
    case _ =>
  }

  /** canonicalize is idempotent. */
  lemma {:induction false} CanonicalizeIdempotent(v: Json)
    requires WellFormed(v)
    ensures Canonicalize(Canonicalize(v)) == Canonicalize(v)
    decreases v
  {
    match v
    case JArr(items) =>
      var c := Canonicalize(v);
      forall i | 0 <= i < |items| ensures Canonicalize(c.items[i]) == c.items[i] {
        CanonicalizeIdempotent(items[i]);
      }
      assert Canonicalize(c).items == c.items;
    case JObj(fs) =>
      forall k | 0 <= k < |fs| ensures Canonicalize(Canonicalize(fs[k].1)) == Canonicalize(fs[k].1) {
        CanonicalizeIdempotent(fs[k].1);
      }
      CanonicalizeIdempotentObject(fs);
    case _ =>
  }
}
