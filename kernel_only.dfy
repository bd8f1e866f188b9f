/**
 * The kernel-only schema profile (src/profiles/kernel_only.js): a per-record validator that
 * returns the ordered list of issues found. Issues are appended one check at a time, with an
 * early return after the structural checks.
 */
module KernelOnly {
  import opened Wrappers
  import opened JsonValues
  import opened JsStrings
  import opened Errors

  const PROFILE_NAME: string := "kernel-only"

  /** The Kernel v1.2 record types the profile admits. */
  const ALLOWED_TYPES: seq<string> := ["run", "segment", "gap", "seal", "trace"]

  /** Where a record sits in the export: its 1-based line and its record index. */
  datatype Ctx = Ctx(line: int, recordIndex: int)

  function Report(code: IssueCode, ctx: Ctx, message: string): (i: Issue)
    ensures i.severity == "error" && i.line == ctx.line && i.recordIndex == ctx.recordIndex
    ensures i.code == CodeName(code)
  {
    MakeIssue(code, None, ctx.line, ctx.recordIndex, None, None, Some(message))
  }

  /** `[issue]` when the check fails, nothing otherwise. */
  function When(failed: bool, i: Issue): seq<Issue> {
    if failed then [i] else []
  }

  /** `typeof record.type === 'string' ? record.type.toLowerCase() : ''`. */
  function RecordType(record: Json): string {
    var t := Get(record, "type");
    if IsString(t) then ToLowerAscii(t.value.s) else ""
  }

  predicate IsObjectRecord(record: Json) {
    record.JObj? || record.JArr?
  }

  /** The issue carries the record's position and the default severity. */
  predicate InContext(i: Issue, ctx: Ctx) {
    i.severity == "error" && i.line == ctx.line && i.recordIndex == ctx.recordIndex
    && i.message.Some? && i.h.None? && i.details.None?
  }

  function ValidateSegment(seg: Json, ctx: Ctx): (r: seq<Issue>)
    ensures |r| <= 3 && forall i :: i in r ==> InContext(i, ctx)
  {
    When(!IsNonEmptyString(Get(seg, "run_id")), Report(E_SCHEMA, ctx, "seg.run_id must be a string"))
    + When(!IsFiniteNumber(Get(seg, "seg_id")), Report(E_SCHEMA, ctx, "seg.seg_id must be a number"))
    + When(!(IsString(Get(seg, "h")) && IsString(Get(seg, "ch"))),
           Report(E_SEGMENT_MISSING_HASH_FIELDS, ctx, "seg.h and seg.ch must be strings"))
  }

  function ValidateGap(record: Json, ctx: Ctx): (r: seq<Issue>)
    ensures |r| <= 3 && forall i :: i in r ==> InContext(i, ctx)
  {
    When(!(IsNumber(Get(record, "seg_id_start")) && IsNumber(Get(record, "seg_id_end"))),
         Report(E_GAP_MISSING_RANGE, ctx, "gap range must be numbers"))
    + When(!IsIntegerNumber(Get(record, "reason_code")),
           Report(E_GAP_MISSING_REASON_CODE, ctx, "gap.reason_code must be an integer"))
    + When(!(IsString(Get(record, "h")) && IsString(Get(record, "ch"))),
           Report(E_GAP_MISSING_HASH_FIELDS, ctx, "gap.h and gap.ch must be strings"))
  }

  function ValidateSeal(record: Json, ctx: Ctx): (r: seq<Issue>)
    ensures |r| <= 2 && forall i :: i in r ==> InContext(i, ctx)
  {
    When(!IsString(Get(record, "algo")), Report(E_SCHEMA, ctx, "seal.algo must be a string"))
    + When(!(IsString(Get(record, "root_ch")) && IsString(Get(record, "terminal_ch"))),
           Report(E_SCHEMA, ctx, "seal.root_ch and seal.terminal_ch must be strings"))
  }

  /** The checks that follow once the record is known to be an object with type `t`. */
  function ValidateTyped(t: string, record: Json, ctx: Ctx): (r: seq<Issue>)
    ensures |r| <= 3 && forall i :: i in r ==> InContext(i, ctx)
  {
    if t == "" then [Report(E_SCHEMA, ctx, "missing type")]
    else if t == "run" then
      When(!IsNonEmptyString(Get(record, "run_id")), Report(E_MISSING_RUN_ID, ctx, "missing run_id"))
    else if t == "segment" then
      var seg := Get(record, "seg");
      if !IsObjectLike(seg) then [Report(E_SEGMENT_MISSING_SEG, ctx, "missing seg object")]
      else ValidateSegment(seg.value, ctx)
    else if t == "gap" then ValidateGap(record, ctx)
    else if t == "seal" then ValidateSeal(record, ctx)
    else []
  }

  /** `KERNEL_ONLY_PROFILE.validateRecord(record, ctx)`. Every issue it reports carries
      `ctx.line`, `ctx.record_index`, severity 'error' and a message; at most three are
      reported. */
  function ValidateRecord(record: Json, ctx: Ctx): (r: seq<Issue>)
    ensures |r| <= 3 && forall i :: i in r ==> InContext(i, ctx)
  {
    if !IsObjectRecord(record) then [Report(E_SCHEMA, ctx, "record is not an object")]
    else ValidateTyped(RecordType(record), record, ctx)
  }

  /** The codes of an issue list, in order. */
  function Codes(issues: seq<Issue>): (cs: seq<string>)
    ensures |cs| == |issues| && forall k :: 0 <= k < |issues| ==> cs[k] == issues[k].code
  {
    if issues == [] then [] else [issues[0].code] + Codes(issues[1..])
  }

  /** The code list of one conditional check. */
  function CodeIf(failed: bool, code: IssueCode): seq<string> {
    if failed then [CodeName(code)] else []
  }

  lemma {:induction false} CodesAppend(a: seq<Issue>, b: seq<Issue>)
    ensures Codes(a + b) == Codes(a) + Codes(b)
  {
    if a != [] {
      assert (a + b)[1..] == a[1..] + b;
      CodesAppend(a[1..], b);
    }
  }

  lemma CodesWhen(failed: bool, code: IssueCode, ctx: Ctx, message: string)
    ensures Codes(When(failed, Report(code, ctx, message))) == CodeIf(failed, code)
  {
  }

  // ---------------------------------------------------------------------------------------
  // Properties

  /** `null` and primitives yield exactly one E_SCHEMA issue; arrays pass as objects. */
  lemma NonObjectRecord(record: Json, ctx: Ctx)
    requires !IsObjectRecord(record)
    ensures ValidateRecord(record, ctx) == [Report(E_SCHEMA, ctx, "record is not an object")]
    ensures Codes(ValidateRecord(record, ctx)) == ["E_SCHEMA"]
  {
  }

  /** A missing, non-string or empty type yields exactly one E_SCHEMA issue. */
  lemma MissingType(record: Json, ctx: Ctx)
    requires IsObjectRecord(record)
    requires !IsNonEmptyString(Get(record, "type"))
    ensures Codes(ValidateRecord(record, ctx)) == ["E_SCHEMA"]
  {
  }

  /** Two records agree on every property the checks after the type test read. */
  predicate AgreeOnChecked(a: Json, b: Json) {
    && Get(a, "run_id") == Get(b, "run_id")
    && Get(a, "seg") == Get(b, "seg")
    && Get(a, "seg_id_start") == Get(b, "seg_id_start")
    && Get(a, "seg_id_end") == Get(b, "seg_id_end")
    && Get(a, "reason_code") == Get(b, "reason_code")
    && Get(a, "h") == Get(b, "h")
    && Get(a, "ch") == Get(b, "ch")
    && Get(a, "algo") == Get(b, "algo")
    && Get(a, "root_ch") == Get(b, "root_ch")
    && Get(a, "terminal_ch") == Get(b, "terminal_ch")
  }

  lemma GapReads(a: Json, b: Json, ctx: Ctx)
    requires AgreeOnChecked(a, b)
    ensures ValidateGap(a, ctx) == ValidateGap(b, ctx)
  {
  }

  lemma SealReads(a: Json, b: Json, ctx: Ctx)
    requires AgreeOnChecked(a, b)
    ensures ValidateSeal(a, ctx) == ValidateSeal(b, ctx)
  {
  }

  lemma ValidateTypedReads(t: string, a: Json, b: Json, ctx: Ctx)
    requires AgreeOnChecked(a, b)
    ensures ValidateTyped(t, a, ctx) == ValidateTyped(t, b, ctx)
  {
    if t == "gap" {
      GapReads(a, b, ctx);
    } else if t == "seal" {
      SealReads(a, b, ctx);
    }
  }

  lemma AgreeExceptType(a: Json, b: Json)
    requires forall k :: k != "type" ==> Get(a, k) == Get(b, k)
    ensures AgreeOnChecked(a, b)
  {
    assert Get(a, "run_id") == Get(b, "run_id") && Get(a, "seg") == Get(b, "seg");
    assert Get(a, "seg_id_start") == Get(b, "seg_id_start") && Get(a, "seg_id_end") == Get(b, "seg_id_end");
    assert Get(a, "reason_code") == Get(b, "reason_code");
    assert Get(a, "h") == Get(b, "h") && Get(a, "ch") == Get(b, "ch");
    assert Get(a, "algo") == Get(b, "algo");
    assert Get(a, "root_ch") == Get(b, "root_ch") && Get(a, "terminal_ch") == Get(b, "terminal_ch");
  }

  /** The type is matched after lower-casing: two records that differ only in the case of
      `type` get the same issues. */
  lemma TypeCaseInsensitive(a: Json, b: Json, ctx: Ctx)
    requires a.JObj? && b.JObj?
    requires forall k :: k != "type" ==> Get(a, k) == Get(b, k)
    requires IsString(Get(a, "type")) && IsString(Get(b, "type"))
    requires ToLowerAscii(Get(a, "type").value.s) == ToLowerAscii(Get(b, "type").value.s)
    ensures ValidateRecord(a, ctx) == ValidateRecord(b, ctx)
  {
    AgreeExceptType(a, b);
    ValidateTypedReads(RecordType(a), a, b, ctx);
  }

  /** A run record yields E_MISSING_RUN_ID exactly when `run_id` is not a non-empty string,
      and nothing else. */
  lemma RunRecord(record: Json, ctx: Ctx)
    requires IsObjectRecord(record) && RecordType(record) == "run"
    ensures Codes(ValidateRecord(record, ctx)) == CodeIf(!IsNonEmptyString(Get(record, "run_id")), E_MISSING_RUN_ID)
    ensures ValidateRecord(record, ctx) == [] <==> IsNonEmptyString(Get(record, "run_id"))
  {
    CodesWhen(!IsNonEmptyString(Get(record, "run_id")), E_MISSING_RUN_ID, ctx, "missing run_id");
  }

  /** A segment without an object `seg` yields exactly E_SEGMENT_MISSING_SEG; otherwise the
      three checks report, in order, a bad `seg.run_id`, a bad `seg.seg_id` and missing
      hash fields. */
  lemma SegmentRecord(record: Json, ctx: Ctx)
    requires IsObjectRecord(record) && RecordType(record) == "segment"
    ensures var seg := Get(record, "seg");
            Codes(ValidateRecord(record, ctx)) ==
              if !IsObjectLike(seg) then ["E_SEGMENT_MISSING_SEG"]
              else CodeIf(!IsNonEmptyString(Get(seg.value, "run_id")), E_SCHEMA)
                   + CodeIf(!IsFiniteNumber(Get(seg.value, "seg_id")), E_SCHEMA)
                   + CodeIf(!(IsString(Get(seg.value, "h")) && IsString(Get(seg.value, "ch"))), E_SEGMENT_MISSING_HASH_FIELDS)
  {
    var seg := Get(record, "seg");
    if IsObjectLike(seg) {
      var s := seg.value;
      assert ValidateRecord(record, ctx) == ValidateTyped("segment", record, ctx) == ValidateSegment(s, ctx);
      var a := When(!IsNonEmptyString(Get(s, "run_id")), Report(E_SCHEMA, ctx, "seg.run_id must be a string"));
      var b := When(!IsFiniteNumber(Get(s, "seg_id")), Report(E_SCHEMA, ctx, "seg.seg_id must be a number"));
      var c := When(!(IsString(Get(s, "h")) && IsString(Get(s, "ch"))),
                    Report(E_SEGMENT_MISSING_HASH_FIELDS, ctx, "seg.h and seg.ch must be strings"));
      CodesAppend(a + b, c);
      CodesAppend(a, b);
      CodesWhen(!IsNonEmptyString(Get(s, "run_id")), E_SCHEMA, ctx, "seg.run_id must be a string");
      CodesWhen(!IsFiniteNumber(Get(s, "seg_id")), E_SCHEMA, ctx, "seg.seg_id must be a number");
      CodesWhen(!(IsString(Get(s, "h")) && IsString(Get(s, "ch"))), E_SEGMENT_MISSING_HASH_FIELDS, ctx, "seg.h and seg.ch must be strings");
    }
  }

  /** A gap reports, in order, a bad range, a non-integer reason code and missing hash
      fields; a well-typed gap yields nothing. */
  lemma GapRecord(record: Json, ctx: Ctx)
    requires IsObjectRecord(record) && RecordType(record) == "gap"
    ensures Codes(ValidateRecord(record, ctx)) ==
      CodeIf(!(IsNumber(Get(record, "seg_id_start")) && IsNumber(Get(record, "seg_id_end"))), E_GAP_MISSING_RANGE)
      + CodeIf(!IsIntegerNumber(Get(record, "reason_code")), E_GAP_MISSING_REASON_CODE)
      + CodeIf(!(IsString(Get(record, "h")) && IsString(Get(record, "ch"))), E_GAP_MISSING_HASH_FIELDS)
  {
    assert ValidateRecord(record, ctx) == ValidateTyped("gap", record, ctx) == ValidateGap(record, ctx);
    var a := When(!(IsNumber(Get(record, "seg_id_start")) && IsNumber(Get(record, "seg_id_end"))),
                  Report(E_GAP_MISSING_RANGE, ctx, "gap range must be numbers"));
    var b := When(!IsIntegerNumber(Get(record, "reason_code")),
                  Report(E_GAP_MISSING_REASON_CODE, ctx, "gap.reason_code must be an integer"));
    var c := When(!(IsString(Get(record, "h")) && IsString(Get(record, "ch"))),
                  Report(E_GAP_MISSING_HASH_FIELDS, ctx, "gap.h and gap.ch must be strings"));
    CodesAppend(a + b, c);
    CodesAppend(a, b);
    CodesWhen(!(IsNumber(Get(record, "seg_id_start")) && IsNumber(Get(record, "seg_id_end"))), E_GAP_MISSING_RANGE, ctx, "gap range must be numbers");
    CodesWhen(!IsIntegerNumber(Get(record, "reason_code")), E_GAP_MISSING_REASON_CODE, ctx, "gap.reason_code must be an integer");
    CodesWhen(!(IsString(Get(record, "h")) && IsString(Get(record, "ch"))), E_GAP_MISSING_HASH_FIELDS, ctx, "gap.h and gap.ch must be strings");
  }

  /** A seal yields at most two E_SCHEMA issues: a non-string `algo`, then a non-string
      `root_ch` or `terminal_ch`. */
  lemma SealRecord(record: Json, ctx: Ctx)
    requires IsObjectRecord(record) && RecordType(record) == "seal"
    ensures Codes(ValidateRecord(record, ctx)) ==
      CodeIf(!IsString(Get(record, "algo")), E_SCHEMA)
      + CodeIf(!(IsString(Get(record, "root_ch")) && IsString(Get(record, "terminal_ch"))), E_SCHEMA)
  {
    assert ValidateRecord(record, ctx) == ValidateTyped("seal", record, ctx) == ValidateSeal(record, ctx);
    var a := When(!IsString(Get(record, "algo")), Report(E_SCHEMA, ctx, "seal.algo must be a string"));
    var b := When(!(IsString(Get(record, "root_ch")) && IsString(Get(record, "terminal_ch"))),
                  Report(E_SCHEMA, ctx, "seal.root_ch and seal.terminal_ch must be strings"));
    CodesAppend(a, b);
    CodesWhen(!IsString(Get(record, "algo")), E_SCHEMA, ctx, "seal.algo must be a string");
    CodesWhen(!(IsString(Get(record, "root_ch")) && IsString(Get(record, "terminal_ch"))), E_SCHEMA, ctx, "seal.root_ch and seal.terminal_ch must be strings");
  }

  /** A trace, and any type outside the four checked ones, yields no issues. */
  lemma LooseTypes(record: Json, ctx: Ctx)
    requires IsObjectRecord(record)
    requires RecordType(record) != "" && RecordType(record) !in ["run", "segment", "gap", "seal"]
    ensures ValidateRecord(record, ctx) == []
  {
  }
}
