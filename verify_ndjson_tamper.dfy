/**
 * What the per-record checks of the stream verifier detect, provided the digest does not
 * collide on the two pre-images involved (`AuditChain.NoCollision`): a segment or gap whose
 * hashed fields were changed after its `h` was computed, and a record whose `ch` was linked to
 * some other predecessor.
 */
module VerifyNdjsonTamper {
  import opened Wrappers
  import opened JsonValues
  import opened StableStringify
  import opened AuditChain
  import opened VerifyNdjson

  /** A segment whose `h` was computed over a body that differs, in canonical form, from the
      one it now carries is rejected, and not for its link. */
  lemma SegmentTamperDetected(p: Primitives, rec: Json, runId: string, prevCh: string, orig: Json)
    requires Get(rec, "seg").Some? && Get(rec, "seg").value.JObj? && orig != JNull
    requires NoCollision(p, SegmentPreimage(CanonicalSegmentBody(orig)), SegmentPreimage(CanonicalSegmentBody(Get(rec, "seg").value)))
    requires Get(Get(rec, "seg").value, "h") == Some(JStr(SegmentHash(p, CanonicalSegmentBody(orig))))
    requires Canonicalize(CanonicalSegmentBody(orig)) != Canonicalize(CanonicalSegmentBody(Get(rec, "seg").value))
    ensures CheckSegment(p, rec, runId, prevCh).Err?
    ensures CheckSegment(p, rec, runId, prevCh).error.reason in {MISSING_FIELD, SEGMENT_HASH_MISMATCH}
  {
    var seg := Get(rec, "seg").value;
    SegmentHashBindsBody(p, CanonicalSegmentBody(orig), CanonicalSegmentBody(seg));
    SegmentWrongHashRejected(p, rec, runId, prevCh);
  }

  lemma SegmentWrongHashRejected(p: Primitives, rec: Json, runId: string, prevCh: string)
    requires Get(rec, "seg").Some? && Get(rec, "seg").value.JObj?
    requires Get(Get(rec, "seg").value, "h") != Some(JStr(SegmentHash(p, CanonicalSegmentBody(Get(rec, "seg").value))))
    ensures CheckSegment(p, rec, runId, prevCh).Err?
    ensures CheckSegment(p, rec, runId, prevCh).error.reason in {MISSING_FIELD, SEGMENT_HASH_MISMATCH}
  {
  }

  /** A segment whose `ch` links its hash to a chain value other than the current one is
      rejected. */
  lemma SegmentRelinkDetected(p: Primitives, rec: Json, runId: string, prevCh: string, otherPrev: string, h: string)
    requires otherPrev != prevCh
    requires Get(rec, "seg").Some? && Get(rec, "seg").value.JObj?
    requires NoCollision(p, LinkPreimage(prevCh, SegmentHash(p, CanonicalSegmentBody(Get(rec, "seg").value))), LinkPreimage(otherPrev, h))
    requires Get(Get(rec, "seg").value, "ch") == Some(JStr(ChainHash(p, otherPrev, h)))
    ensures CheckSegment(p, rec, runId, prevCh).Err?
  {
    var seg := Get(rec, "seg").value;
    ChainHashInjective(p, prevCh, SegmentHash(p, CanonicalSegmentBody(seg)), otherPrev, h);
    CheckSegmentAccepts(p, rec, runId, prevCh);
  }

  /** A gap whose `h` was computed over a range or reason code that differs, in canonical
      form, from the one it now carries is rejected, and not for its link. */
  lemma GapTamperDetected(p: Primitives, rec: Json, prevCh: string, orig: Json, k: string)
    requires rec.JObj? && orig != JNull
    requires NoCollision(p, GapPreimage(orig), GapPreimage(GapRequest(rec)))
    requires k in GAP_BODY_KEYS && CanonicalOption(Get(orig, k)) != CanonicalOption(Get(rec, k))
    requires Get(rec, "h") == Some(JStr(GapHash(p, orig)))
    ensures CheckGap(p, rec, prevCh).Err?
    ensures CheckGap(p, rec, prevCh).error.reason in {MISSING_FIELD, GAP_HASH_MISMATCH}
  {
    var req := GapRequest(rec);
    assert Get(req, k) == Get(rec, k);
    GapHashBindsRange(p, orig, req, k);
    CheckGapAccepts(p, rec, prevCh);
  }

  /** A gap whose `ch` links its hash to a chain value other than the current one is
      rejected. */
  lemma GapRelinkDetected(p: Primitives, rec: Json, prevCh: string, otherPrev: string, h: string)
    requires otherPrev != prevCh
    requires NoCollision(p, LinkPreimage(prevCh, ExpectedGapHash(p, rec)), LinkPreimage(otherPrev, h))
    requires Get(rec, "ch") == Some(JStr(ChainHash(p, otherPrev, h)))
    ensures CheckGap(p, rec, prevCh).Err?
  {
    ChainHashInjective(p, prevCh, ExpectedGapHash(p, rec), otherPrev, h);
    CheckGapAccepts(p, rec, prevCh);
  }
}
