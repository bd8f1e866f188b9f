/**
 * The v1.2 audit chain (src/audit_chain_v1_2.js): four domain-separated hashes, each the
 * SHA-256 hex digest of `stableStringify([tag, ...])`.
 *
 * `JSON.stringify` and `sha256Hex` are library calls; they are the two fields of `Primitives`
 * and stay uninterpreted. Their collision-freedom is never assumed silently: a lemma that needs
 * it takes `NoCollision(p, a, b)` as a hypothesis about the two pre-images it compares.
 */
module AuditChain {
  import opened Wrappers
  import opened JsonValues
  import opened StableStringify

  /** `JSON.stringify` (RFC 8259 compact text) and `sha256Hex` (FIPS 180-4 SHA-256 of the
      UTF-8 bytes, lower-case hex). */
  datatype Primitives = Primitives(stringify: Json -> string, sha256Hex: string -> string)

  /** The only algorithm a seal may name. */
  const AUDIT_HASH_ALGO: string := "sha256"

  const ROOT_TAG: string := "audit_root_v1.2"
  const SEGMENT_TAG: string := "segment_h_v1.2"
  const GAP_TAG: string := "gap_h_v1.2"
  const LINK_TAG: string := "link_v1.2"

  /** The fields of a segment that are hashed, in the order the body literal lists them. */
  const SEGMENT_BODY_KEYS: seq<string> := ["run_id", "seg_id", "start_ts", "end_ts", "count", "sealed", "events"]

  /** The fields of a gap that are hashed. */
  const GAP_BODY_KEYS: seq<string> := ["seg_id_start", "seg_id_end", "reason_code"]

  function Digest(p: Primitives, v: Json): string {
    p.sha256Hex(StableStringify.StableStringify(p.stringify, v))
  }

  /** `a` and `b` share a digest only if they have the same canonical form: the stand-in, for
      these two pre-images, for the collision resistance of SHA-256 and for `JSON.stringify`
      telling their canonical forms apart. The second part fails for pre-images that differ
      only by an infinity against `null`, which `JSON.stringify` writes alike
      (`InfiniteCountCollides`); for such a pair no faithful `Primitives` meets it. */
  predicate NoCollision(p: Primitives, a: Json, b: Json) {
    Digest(p, a) == Digest(p, b) ==> Canonicalize(a) == Canonicalize(b)
  }

  /** No collision between any two of the pre-images `vs`. */
  predicate NoCollisionAmong(p: Primitives, vs: seq<Json>) {
    forall i, j :: 0 <= i < j < |vs| ==> NoCollision(p, vs[i], vs[j])
  }

  function RootPreimage(runId: string): Json {
    JArr([JStr(ROOT_TAG), JStr(runId)])
  }

  function SegmentPreimage(segBody: Json): Json {
    JArr([JStr(SEGMENT_TAG), segBody])
  }

  function GapPreimage(gapBody: Json): Json {
    JArr([JStr(GAP_TAG), GapBody(gapBody)])
  }

  function LinkPreimage(prevCh: string, h: string): Json {
    JArr([JStr(LINK_TAG), JStr(prevCh), JStr(h)])
  }

  /** `auditRootHash(run_id)`: the chain value every run starts from. */
  function AuditRootHash(p: Primitives, runId: string): string {
    Digest(p, RootPreimage(runId))
  }

  /** `canonicalSegmentBody(seg)`: exactly the seven hashed fields, `sealed` coerced to a
      boolean by truthiness, every other field (h, ch, extras) dropped. `seg.f` on `null`
      throws, hence the precondition. */
  function CanonicalSegmentBody(seg: Json): (r: Json)
    requires seg != JNull
    ensures r.JObj?
    ensures forall k {:trigger Get(r, k)} :: Get(r, k) == (
              if k == "sealed" then Some(JBool(Truthy(Get(seg, "sealed"))))
              else if k in SEGMENT_BODY_KEYS then Get(seg, k)
              else None)
  {
    ObjectLiteral(SEGMENT_BODY_KEYS, k => if k == "sealed" then Some(JBool(Truthy(Get(seg, "sealed")))) else Get(seg, k))
  }

  /** `segmentHash(segBody)`. */
  function SegmentHash(p: Primitives, segBody: Json): string {
    Digest(p, SegmentPreimage(segBody))
  }

  /** The object `gapHash` rebuilds from its argument. */
  function GapBody(gapBody: Json): (r: Json)
    ensures r.JObj?
    ensures forall k {:trigger Get(r, k)} :: Get(r, k) == if k in GAP_BODY_KEYS then Get(gapBody, k) else None
  {
    ObjectLiteral(GAP_BODY_KEYS, k => Get(gapBody, k))
  }

  /** `gapHash(gapBody)`. */
  function GapHash(p: Primitives, gapBody: Json): string
    requires gapBody != JNull
  {
    Digest(p, GapPreimage(gapBody))
  }

  /** `chainHash(prevCh, h)`: the link from one chain value to the next. */
  function ChainHash(p: Primitives, prevCh: string, h: string): string {
    Digest(p, LinkPreimage(prevCh, h))
  }

  // ---------------------------------------------------------------------------------------
  // Properties

  /** The segment body depends on the six copied fields and the truthiness of `sealed` only. */
  lemma SegmentBodyIgnoresOtherFields(a: Json, b: Json)
    requires a != JNull && b != JNull
    requires forall k :: k in SEGMENT_BODY_KEYS && k != "sealed" ==> Get(a, k) == Get(b, k)
    requires Truthy(Get(a, "sealed")) == Truthy(Get(b, "sealed"))
    ensures CanonicalSegmentBody(a) == CanonicalSegmentBody(b)
  {
    ObjectLiteralDependsOnValues(SEGMENT_BODY_KEYS,
      k => if k == "sealed" then Some(JBool(Truthy(Get(a, "sealed")))) else Get(a, k),
      k => if k == "sealed" then Some(JBool(Truthy(Get(b, "sealed")))) else Get(b, k));
  }

  /** `gapHash` reads `seg_id_start`, `seg_id_end` and `reason_code` and nothing else:
      changing `reason_text`, `h`, `ch` or `type` leaves it unchanged. */
  lemma GapHashIgnoresOtherFields(p: Primitives, a: Json, b: Json)
    requires a != JNull && b != JNull
    requires Get(a, "seg_id_start") == Get(b, "seg_id_start")
    requires Get(a, "seg_id_end") == Get(b, "seg_id_end")
    requires Get(a, "reason_code") == Get(b, "reason_code")
    ensures GapHash(p, a) == GapHash(p, b)
  {
    ObjectLiteralDependsOnValues(GAP_BODY_KEYS, k => Get(a, k), k => Get(b, k));
  }

  lemma CanonicalizeTagged(tag: string, rest: seq<Json>)
    ensures Canonicalize(JArr([JStr(tag)] + rest)).items[0] == JStr(tag)
  {
    CanonicalizeArray([JStr(tag)] + rest);
  }

  /** Domain separation: the canonical pre-image of each of the four hashes starts with its
      own tag, and the four tags are distinct, so no pre-image of one function is a pre-image
      of another. */
  lemma PreimagesDomainSeparated(runId: string, segBody: Json, gapBody: Json, prevCh: string, h: string)
    ensures Canonicalize(RootPreimage(runId)).items[0] == JStr(ROOT_TAG)
    ensures Canonicalize(SegmentPreimage(segBody)).items[0] == JStr(SEGMENT_TAG)
    ensures Canonicalize(GapPreimage(gapBody)).items[0] == JStr(GAP_TAG)
    ensures Canonicalize(LinkPreimage(prevCh, h)).items[0] == JStr(LINK_TAG)
    ensures [ROOT_TAG, SEGMENT_TAG, GAP_TAG, LINK_TAG] == ["audit_root_v1.2", "segment_h_v1.2", "gap_h_v1.2", "link_v1.2"]
    ensures ROOT_TAG != SEGMENT_TAG && ROOT_TAG != GAP_TAG && ROOT_TAG != LINK_TAG
    ensures SEGMENT_TAG != GAP_TAG && SEGMENT_TAG != LINK_TAG && GAP_TAG != LINK_TAG
  {
    CanonicalizeTagged(ROOT_TAG, [JStr(runId)]);
    CanonicalizeTagged(SEGMENT_TAG, [segBody]);
    CanonicalizeTagged(GAP_TAG, [GapBody(gapBody)]);
    CanonicalizeTagged(LINK_TAG, [JStr(prevCh), JStr(h)]);
    assert RootPreimage(runId) == JArr([JStr(ROOT_TAG)] + [JStr(runId)]);
    assert SegmentPreimage(segBody) == JArr([JStr(SEGMENT_TAG)] + [segBody]);
    assert GapPreimage(gapBody) == JArr([JStr(GAP_TAG)] + [GapBody(gapBody)]);
    assert LinkPreimage(prevCh, h) == JArr([JStr(LINK_TAG)] + [JStr(prevCh), JStr(h)]);
  }

  /** When the digest does not collide on their pre-images, the four hash functions never
      produce the same value: a root is never a segment hash, a gap hash or a link value, and
      so on for every pair. */
  lemma HashesDomainSeparated(p: Primitives, runId: string, segBody: Json, gapBody: Json, prevCh: string, h: string)
    requires NoCollisionAmong(p, [RootPreimage(runId), SegmentPreimage(segBody), GapPreimage(gapBody), LinkPreimage(prevCh, h)])
    requires gapBody != JNull
    ensures AuditRootHash(p, runId) != SegmentHash(p, segBody)
    ensures AuditRootHash(p, runId) != GapHash(p, gapBody)
    ensures AuditRootHash(p, runId) != ChainHash(p, prevCh, h)
    ensures SegmentHash(p, segBody) != GapHash(p, gapBody)
    ensures SegmentHash(p, segBody) != ChainHash(p, prevCh, h)
    ensures GapHash(p, gapBody) != ChainHash(p, prevCh, h)
  {
    var vs := [RootPreimage(runId), SegmentPreimage(segBody), GapPreimage(gapBody), LinkPreimage(prevCh, h)];
    assert NoCollision(p, vs[0], vs[1]) && NoCollision(p, vs[0], vs[2]) && NoCollision(p, vs[0], vs[3]);
    assert NoCollision(p, vs[1], vs[2]) && NoCollision(p, vs[1], vs[3]) && NoCollision(p, vs[2], vs[3]);
    PreimagesDomainSeparated(runId, segBody, gapBody, prevCh, h);
  }

  /** The root depends on `run_id` alone, and distinct runs get distinct roots. */
  lemma RootHashInjective(p: Primitives, r1: string, r2: string)
    requires NoCollision(p, RootPreimage(r1), RootPreimage(r2))
    requires r1 != r2
    ensures AuditRootHash(p, r1) != AuditRootHash(p, r2)
  {
    CanonicalizeArray(RootPreimage(r1).items);
    CanonicalizeArray(RootPreimage(r2).items);
    assert Canonicalize(RootPreimage(r1)).items[1] == JStr(r1);
  }

  /** Distinct (prevCh, h) pairs have distinct canonical link pre-images ... */
  lemma LinkPreimageInjective(prevCh: string, h: string, prevCh': string, h': string)
    requires (prevCh, h) != (prevCh', h')
    ensures Canonicalize(LinkPreimage(prevCh, h)) != Canonicalize(LinkPreimage(prevCh', h'))
  {
    CanonicalizeArray(LinkPreimage(prevCh, h).items);
    CanonicalizeArray(LinkPreimage(prevCh', h').items);
    var c, c' := Canonicalize(LinkPreimage(prevCh, h)), Canonicalize(LinkPreimage(prevCh', h'));
    assert c.items[1] == JStr(prevCh) && c.items[2] == JStr(h);
    assert c'.items[1] == JStr(prevCh') && c'.items[2] == JStr(h');
  }

  /** ... so, without a collision on those pre-images, a link value binds both the previous chain value and the
      record hash: this is what makes reordering or substitution detectable. */
  lemma ChainHashInjective(p: Primitives, prevCh: string, h: string, prevCh': string, h': string)
    requires NoCollision(p, LinkPreimage(prevCh, h), LinkPreimage(prevCh', h'))
    requires (prevCh, h) != (prevCh', h')
    ensures ChainHash(p, prevCh, h) != ChainHash(p, prevCh', h')
  {
    LinkPreimageInjective(prevCh, h, prevCh', h');
  }

  /** Without a collision on their pre-images, segment bodies with different canonical forms
      hash differently. */
  lemma SegmentHashBindsBody(p: Primitives, a: Json, b: Json)
    requires NoCollision(p, SegmentPreimage(a), SegmentPreimage(b))
    requires Canonicalize(a) != Canonicalize(b)
    ensures SegmentHash(p, a) != SegmentHash(p, b)
  {
    CanonicalizeArray(SegmentPreimage(a).items);
    CanonicalizeArray(SegmentPreimage(b).items);
    assert Canonicalize(SegmentPreimage(a)).items[1] == Canonicalize(a);
    assert Canonicalize(SegmentPreimage(b)).items[1] == Canonicalize(b);
  }

  /** `JSON.stringify` writes every infinity as `null`: its text depends on a value only up to
      `InfinityAsNull`. */
  ghost predicate WritesInfinityAsNull(p: Primitives) {
    forall v :: p.stringify(InfinityAsNull(v)) == p.stringify(v)
  }

  /** With such a `stringify`, a digest cannot tell an infinity from `null`, anywhere in the
      hashed value. */
  lemma DigestIgnoresInfinity(p: Primitives, v: Json)
    requires WritesInfinityAsNull(p)
    ensures Digest(p, InfinityAsNull(v)) == Digest(p, v)
  {
    InfinityAsNullCanonical(v);
    assert p.stringify(InfinityAsNull(Canonicalize(v))) == p.stringify(Canonicalize(v));
  }

  lemma SegmentHashIgnoresInfinity(p: Primitives, segBody: Json)
    requires WritesInfinityAsNull(p)
    ensures SegmentHash(p, InfinityAsNull(segBody)) == SegmentHash(p, segBody)
  {
    assert InfinityAsNull(SegmentPreimage(segBody)) == SegmentPreimage(InfinityAsNull(segBody));
    DigestIgnoresInfinity(p, SegmentPreimage(segBody));
  }

  /** The objects `{"count": 1e999}` and `{"count": null}` differ in canonical form. */
  lemma InfiniteCountCanonical()
    ensures Canonicalize(JObj([("count", JNum(Inf(false)))])) != Canonicalize(JObj([("count", JNull)]))
  {
    var a, b := [("count", JNum(Inf(false)))], [("count", JNull)];
    CanonicalizeObjectFields(a);
    CanonicalizeObjectFields(b);
    assert MapValues(Canonicalize, a)[0] == ("count", JNum(Inf(false)));
    assert ("count", JNum(Inf(false))) in Canonicalize(JObj(a)).fields;
    assert MapValues(Canonicalize, b) == [("count", JNull)];
  }

  /** A segment body whose `count` is `1e999` (an infinity once parsed) and one whose `count`
      is `null` differ in canonical form but share their hash, so no faithful `Primitives`
      satisfies `NoCollision` for them. */
  lemma InfiniteCountCollides(p: Primitives)
    requires WritesInfinityAsNull(p)
    ensures var a, b := JObj([("count", JNum(Inf(false)))]), JObj([("count", JNull)]);
            && SegmentHash(p, a) == SegmentHash(p, b)
            && Canonicalize(a) != Canonicalize(b)
            && !NoCollision(p, SegmentPreimage(a), SegmentPreimage(b))
  {
    var a, b := JObj([("count", JNum(Inf(false)))]), JObj([("count", JNull)]);
    assert InfinityAsNull(a) == b;
    SegmentHashIgnoresInfinity(p, a);
    InfiniteCountCanonical();
    CanonicalizeArray(SegmentPreimage(a).items);
    CanonicalizeArray(SegmentPreimage(b).items);
    assert Canonicalize(SegmentPreimage(a)).items[1] == Canonicalize(a);
  }

  function CanonicalOption(x: Option<Json>): Option<Json> {
    if x.Some? then Some(Canonicalize(x.value)) else None
  }

  /** Objects with equal canonical forms agree, key by key, on the canonical form of every
      property other than `"__proto__"` (and on which properties exist). */
  lemma CanonicalLookup(fs: seq<Field>, gs: seq<Field>, k: string)
    requires DistinctKeys(fs) && DistinctKeys(gs)
    requires multiset(Assignable(MapValues(Canonicalize, fs))) == multiset(Assignable(MapValues(Canonicalize, gs)))
    requires k != PROTO_KEY && Lookup(fs, k).Some?
    ensures Lookup(gs, k).Some? && Canonicalize(Lookup(gs, k).value) == Canonicalize(Lookup(fs, k).value)
  {
    var v := Lookup(fs, k).value;
    LookupSpec(fs, k);
    var i :| 0 <= i < |fs| && fs[i] == (k, v);
    var mf, mg := MapValues(Canonicalize, fs), MapValues(Canonicalize, gs);
    assert mf[i] == (k, Canonicalize(v));
    assert mf[i] in mf;
    assert (k, Canonicalize(v)) in Assignable(mf);
    assert (k, Canonicalize(v)) in multiset(Assignable(mg));
    assert (k, Canonicalize(v)) in mg;
    var j :| 0 <= j < |mg| && mg[j] == (k, Canonicalize(v));
    LookupAt(gs, j);
  }

  /** Without a collision on their pre-images, gaps whose hashed fields differ in canonical
      form hash differently. */
  lemma GapHashBindsRange(p: Primitives, a: Json, b: Json, k: string)
    requires NoCollision(p, GapPreimage(a), GapPreimage(b))
    requires a != JNull && b != JNull
    requires k in GAP_BODY_KEYS && CanonicalOption(Get(a, k)) != CanonicalOption(Get(b, k))
    ensures GapHash(p, a) != GapHash(p, b)
  {
    var ba, bb := GapBody(a), GapBody(b);
    assert Get(ba, k) == Get(a, k) && Get(bb, k) == Get(b, k);
    CanonicalizeArray(GapPreimage(a).items);
    CanonicalizeArray(GapPreimage(b).items);
    assert Canonicalize(GapPreimage(a)).items[1] == Canonicalize(ba);
    assert Canonicalize(GapPreimage(b)).items[1] == Canonicalize(bb);
    if Canonicalize(ba) == Canonicalize(bb) {
      assert k != PROTO_KEY;
      CanonicalGetAgrees(ba, bb, k);
      assert false;
    }
  }

  /** Objects with equal canonical forms agree on the canonical form of every property other
      than `"__proto__"`. */
  lemma CanonicalGetAgrees(x: Json, y: Json, k: string)
    requires x.JObj? && y.JObj? && DistinctKeys(x.fields) && DistinctKeys(y.fields)
    requires Canonicalize(x) == Canonicalize(y) && k != PROTO_KEY
    ensures CanonicalOption(Get(x, k)) == CanonicalOption(Get(y, k))
  {
    CanonicalizeObjectFields(x.fields);
    CanonicalizeObjectFields(y.fields);
    if Get(x, k).Some? {
      CanonicalLookup(x.fields, y.fields, k);
    } else if Get(y, k).Some? {
      CanonicalLookup(y.fields, x.fields, k);
    }
  }
}
