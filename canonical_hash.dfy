/**
 * The draft hash-body selector (__LOCAL_NEW/src/canonical_hash.js): a record's own
 * properties, in enumeration order, less the three that are never hashed: the record's own
 * hash `h`, the parent hash `p_h` (passed to the hash function separately) and the
 * display-only `reason_text`. The entries are assigned into a fresh `{}`, so an own
 * `"__proto__"` entry goes to the inherited setter and is not kept either.
 */
module CanonicalHash {
  import opened JsonValues
  import opened JsStrings

  /** The keys the body leaves out. */
  predicate Excluded(k: string) {
    k == "h" || k == "p_h" || k == "reason_text"
  }

  /** `Object.entries(v)` for a value with `typeof v === 'object'`: an object's fields, or an
      array's elements under their decimal indices. */
  function OwnEntries(v: Json): (es: seq<(string, Json)>)
    requires v.JObj? || v.JArr?
    ensures v.JObj? ==> es == v.fields
    ensures v.JArr? ==> |es| == |v.items| && forall i :: 0 <= i < |es| ==> es[i] == (NatToString(i), v.items[i])
  {
    if v.JObj? then v.fields
    else seq(|v.items|, i requires 0 <= i < |v.items| => (NatToString(i), v.items[i]))
  }

  /** The own properties the loop leaves in `out`, in order. */
  function KeepBody(es: seq<(string, Json)>): seq<(string, Json)> {
    if es == [] then []
    else
      var last := es[|es| - 1];
      KeepBody(es[..|es| - 1]) + (if Excluded(last.0) || last.0 == PROTO_KEY then [] else [last])
  }

  /** `canonicalHashBody(record)`: `null` and non-objects unchanged, anything else a fresh
      object of its kept entries. */
  function HashBody(v: Json): (r: Json)
    ensures !v.JObj? && !v.JArr? ==> r == v
    ensures v.JObj? || v.JArr? ==> r.JObj?
  {
    if v.JObj? || v.JArr? then JObj(KeepBody(OwnEntries(v))) else v
  }

  /** `canonicalHashBody(record)`, with its loop over `Object.entries(record)`. */
  method CanonicalHashBody(record: Json) returns (r: Json)
    ensures r == HashBody(record)
  {
    if !record.JObj? && !record.JArr? {
      return record;
    }
    var es := OwnEntries(record);
    var out: seq<(string, Json)> := [];
    var i := 0;
    while i < |es|
      invariant 0 <= i <= |es|
      invariant out == KeepBody(es[..i])
    {
      var (k, v) := es[i];
      assert es[..i + 1][..i] == es[..i];
      if k == "h" {
      } else if k == "p_h" {
      } else if k == "reason_text" {
      } else if k == PROTO_KEY {
        // `out[k] = v` sets the prototype of `out`; it creates no own property
      } else {
        out := out + [(k, v)];
      }
      i := i + 1;
    }
    assert es[..i] == es;
    return JObj(out);
  }

  /** The body holds exactly the entries whose key is neither excluded nor `"__proto__"`. */
  lemma {:induction false} KeepBodyMembers(es: seq<(string, Json)>)
    ensures forall p :: p in KeepBody(es) <==> p in es && !Excluded(p.0) && p.0 != PROTO_KEY
  {
    if es != [] {
      var init := es[..|es| - 1];
      KeepBodyMembers(init);
      assert es == init + [es[|es| - 1]];
    }
  }

  /** The body of a concatenation is the concatenation of the bodies. */
  lemma {:induction false} KeepBodyAppend(a: seq<(string, Json)>, b: seq<(string, Json)>)
    ensures KeepBody(a + b) == KeepBody(a) + KeepBody(b)
  {
    if b == [] {
      assert a + b == a;
    } else {
      var init := b[..|b| - 1];
      KeepBodyAppend(a, init);
      assert (a + b)[..|a + b| - 1] == a + init;
    }
  }

  /** Entries with no excluded key and no `"__proto__"` key are all kept, in place. */
  lemma {:induction false} KeepBodyNothingExcluded(es: seq<(string, Json)>)
    requires forall i :: 0 <= i < |es| ==> !Excluded(es[i].0) && es[i].0 != PROTO_KEY
    ensures KeepBody(es) == es
  {
    if es != [] {
      var init := es[..|es| - 1];
      KeepBodyNothingExcluded(init);
    }
  }

  /** A JavaScript object's keys stay distinct in its body. */
  lemma {:induction false} KeepBodyDistinct(es: seq<(string, Json)>)
    requires DistinctKeys(es)
    ensures DistinctKeys(KeepBody(es))
  {
    if es != [] {
      var init := es[..|es| - 1];
      var last := es[|es| - 1];
      assert DistinctKeys(init);
      KeepBodyDistinct(init);
      KeepBodyMembers(init);
      var r := KeepBody(es);
      forall i, j | 0 <= i < j < |r| ensures r[i].0 != r[j].0 {
        if j == |KeepBody(init)| {
          assert r[i] in init;
          var m :| 0 <= m < |init| && init[m] == r[i];
          assert es[m] == r[i] && r[j] == last;
        } else {
          assert r[i] == KeepBody(init)[i] && r[j] == KeepBody(init)[j];
        }
      }
    }
  }

  /** A kept key looks up to the record's own value; an excluded key and `"__proto__"` look
      up to nothing. */
  lemma {:induction false} HashBodyLookup(v: Json, k: string)
    requires v.JObj? && DistinctKeys(v.fields)
    ensures Excluded(k) || k == PROTO_KEY ==> Get(HashBody(v), k).None?
    ensures !Excluded(k) && k != PROTO_KEY ==> Get(HashBody(v), k) == Get(v, k)
  {
    var fs := v.fields;
    var body := KeepBody(fs);
    KeepBodyMembers(fs);
    KeepBodyDistinct(fs);
    LookupSpec(fs, k);
    LookupSpec(body, k);
    if Lookup(body, k).Some? {
      var m :| 0 <= m < |body| && body[m] == (k, Lookup(body, k).value);
      assert body[m] in fs;
      var n :| 0 <= n < |fs| && fs[n] == body[m];
      LookupAt(fs, n);
    }
  }

  /** Records that differ only in the values of `h`, `p_h` and `reason_text` have the same
      body: those fields cannot influence the hash. */
  lemma {:induction false} ExcludedValuesIrrelevant(a: seq<(string, Json)>, b: seq<(string, Json)>)
    requires |a| == |b|
    requires forall i :: 0 <= i < |a| ==> a[i].0 == b[i].0 && (Excluded(a[i].0) || a[i].1 == b[i].1)
    ensures HashBody(JObj(a)) == HashBody(JObj(b))
  {
    if a != [] {
      ExcludedValuesIrrelevant(a[..|a| - 1], b[..|b| - 1]);
    }
  }

  /** Adding or removing an excluded or `"__proto__"` field anywhere leaves the body as it
      was. */
  lemma ExcludedFieldIrrelevant(a: seq<(string, Json)>, b: seq<(string, Json)>, k: string, x: Json)
    requires Excluded(k) || k == PROTO_KEY
    ensures HashBody(JObj(a + [(k, x)] + b)) == HashBody(JObj(a + b))
  {
    KeepBodyAppend(a + [(k, x)], b);
    KeepBodyAppend(a, [(k, x)]);
    KeepBodyAppend(a, b);
  }

  /** An array's body is the plain object of its elements under their decimal indices. */
  lemma ArrayBody(items: seq<Json>)
    ensures HashBody(JArr(items)) == JObj(seq(|items|, i requires 0 <= i < |items| => (NatToString(i), items[i])))
  {
    var es := OwnEntries(JArr(items));
    forall i | 0 <= i < |es| ensures !Excluded(es[i].0) && es[i].0 != PROTO_KEY {
      assert es[i].0[0] != 'h' && es[i].0[0] != 'p' && es[i].0[0] != 'r' && es[i].0[0] != '_';
    }
    KeepBodyNothingExcluded(es);
  }

  /** Selecting the body twice is selecting it once. */
  lemma HashBodyIdempotent(v: Json)
    ensures HashBody(HashBody(v)) == HashBody(v)
  {
    if v.JObj? || v.JArr? {
      var body := KeepBody(OwnEntries(v));
      KeepBodyMembers(OwnEntries(v));
      forall i | 0 <= i < |body| ensures !Excluded(body[i].0) && body[i].0 != PROTO_KEY {
        assert body[i] in body;
      }
      KeepBodyNothingExcluded(body);
    }
  }
}
