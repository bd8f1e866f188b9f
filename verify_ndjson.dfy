/**
 * The NDJSON stream verifier (src/verify_ndjson.js).
 *
 * The input is the sequence of lines `readline` yields. Each line has been trimmed and parsed
 * (`ClassifyLine`): blank, unparseable, or parsed to a JSON value. The verifier walks the lines
 * through four implicit phases (expecting the run record, active, traced, sealed), recomputes
 * every segment and gap hash and every chain link, and stops at the first failure.
 *
 * `VerifyNdjsonStream` is the loop, with its mutable locals; `Verify` is its specification,
 * a left-to-right walk of `Step` over the lines ending in `Finish`.
 */
module VerifyNdjson {
  import opened Wrappers
  import opened JsonValues
  import opened JsStrings
  import opened AuditChain

  /** One line as the loop sees it, with `text` the trimmed line. */
  datatype Line = Blank | Unparseable(text: string) | Parsed(json: Json, text: string)

  /** `String(line).trim()` followed by `JSON.parse`; `parse` stands for `JSON.parse` and
      yields `None` when it throws. */
  function ClassifyLine(parse: string -> Option<Json>, raw: string): (l: Line)
    ensures l.Blank? <==> Trim(raw) == []
    ensures !l.Blank? ==> l.text == Trim(raw)
    ensures l.Parsed? <==> Trim(raw) != [] && parse(Trim(raw)).Some?
  {
    var trimmed := Trim(raw);
    if trimmed == [] then Blank
    else
      match parse(trimmed)
      case None => Unparseable(trimmed)
      case Some(v) => Parsed(v, trimmed)
  }

  /** The reason codes this file uses. */
  datatype Reason =
    | BAD_JSON | TRUNCATED_LAST_LINE | MISSING_FIELD | UNSUPPORTED_VERSION | MISSING_RUN
    | SEGMENT_AFTER_TRACE | TERMINAL_MISMATCH | SEGMENT_HASH_MISMATCH | CHAIN_MISMATCH
    | GAP_HASH_MISMATCH | UNSUPPORTED_ALGO | ROOT_MISMATCH | BAD_RECORD_TYPE | EMPTY_FILE
    | MISSING_SEAL

  /** The reasons a per-record check can report; the others belong to a parse failure or to
      the end of the stream. */
  predicate IsRecordReason(r: Reason) {
    !(r == BAD_JSON || r == TRUNCATED_LAST_LINE || r == EMPTY_FILE || r == MISSING_SEAL)
  }

  /** The reasons under which a verifier asked to allow partial files reports PARTIAL. */
  predicate IsPartialCapable(r: Reason) {
    r == TRUNCATED_LAST_LINE || r == MISSING_SEAL
  }

  datatype Status = PASS | FAIL | PARTIAL

  /** The result object. `JNull` in `algo` and `failureRecordType` is `null`; those two hold
      whatever JSON value the record carried. */
  datatype VerifyResult = VerifyResult(
    status: Status,
    reasonCode: Option<Reason>,
    runId: Option<string>,
    recordsTotal: nat,
    segments: nat,
    gaps: nat,
    seal: bool,
    algo: Json,
    rootCh: Option<string>,
    terminalCh: Option<string>,
    failureLine: Option<nat>,
    failureRecordType: Json,
    missingField: Option<string>,
    snippet: Option<seq<int>>,
    zipEntry: Option<string>)

  /** `makeResultBase()` followed by `if (zipEntry) res.zip_entry = zipEntry`. */
  function ResultBase(zipEntry: Option<string>): (r: VerifyResult)
    ensures r.status == FAIL && r.reasonCode.None? && r.runId.None? && r.rootCh.None? && r.terminalCh.None?
    ensures r.recordsTotal == 0 && r.segments == 0 && r.gaps == 0 && !r.seal && r.algo == JNull
    ensures r.failureLine.None? && r.failureRecordType == JNull && r.missingField.None? && r.snippet.None?
    ensures r.zipEntry.Some? <==> zipEntry.Some? && zipEntry.value != []
  {
    VerifyResult(FAIL, None, None, 0, 0, 0, false, JNull, None, None, None, JNull, None, None,
                 if zipEntry.Some? && zipEntry.value != [] then zipEntry else None)
  }

  /** `makeFailure(res, {...})`: the status becomes FAIL with the given reason; each context
      field takes the supplied value unless that value is `null`/`undefined` (`??`), in which
      case it keeps the old one. Counters, run data and seal data are untouched. */
  function MakeFailure(res: VerifyResult, reason: Reason, line: Option<nat>, recordType: Json,
                       missingField: Option<string>, snippet: Option<seq<int>>, zipEntry: Option<string>): (r: VerifyResult)
    ensures r.status == FAIL && r.reasonCode == Some(reason)
    ensures r.failureLine == (if line.Some? then line else res.failureLine)
    ensures r.failureRecordType == (if recordType != JNull then recordType else res.failureRecordType)
    ensures r.missingField == (if missingField.Some? then missingField else res.missingField)
    ensures r.snippet == (if snippet.Some? then snippet else res.snippet)
    ensures r.zipEntry == (if zipEntry.Some? then zipEntry else res.zipEntry)
    ensures (r.runId, r.recordsTotal, r.segments, r.gaps) == (res.runId, res.recordsTotal, res.segments, res.gaps)
    ensures (r.seal, r.algo, r.rootCh, r.terminalCh) == (res.seal, res.algo, res.rootCh, res.terminalCh)
  {
    res.(status := FAIL, reasonCode := Some(reason),
         failureLine := if line.Some? then line else res.failureLine,
         failureRecordType := if recordType != JNull then recordType else res.failureRecordType,
         missingField := if missingField.Some? then missingField else res.missingField,
         snippet := if snippet.Some? then snippet else res.snippet,
         zipEntry := if zipEntry.Some? then zipEntry else res.zipEntry)
  }

  /** `finalizePartialIfAllowed(res, allowPartial)`: a FAIL with a partial-capable reason
      becomes PARTIAL when partial files are allowed; nothing else changes. */
  function FinalizePartialIfAllowed(res: VerifyResult, allowPartial: bool): (r: VerifyResult)
    ensures r == res || r == res.(status := PARTIAL)
    ensures r.status == PARTIAL <==>
      res.status == PARTIAL || (allowPartial && res.status == FAIL && res.reasonCode.Some? && IsPartialCapable(res.reasonCode.value))
  {
    if !allowPartial then res
    else if res.status == FAIL && res.reasonCode.Some? && IsPartialCapable(res.reasonCode.value) then res.(status := PARTIAL)
    else res
  }

  const SNIPPET_MAX: nat := 200

  /** `trimSnippet(line)`: the trimmed line, cut to 200 UTF-16 code units when longer. A
      JavaScript string is a sequence of code units, and `length` and `slice` count them, so
      the snippet is kept as code units: a cut can fall between the two halves of a surrogate
      pair, leaving a lone high surrogate, which no Dafny `string` can hold. */
  function TrimSnippet(line: string): seq<int> {
    var s := Utf16(Trim(line));
    if |s| <= SNIPPET_MAX then s else s[..SNIPPET_MAX] + Utf16("...")
  }

  /** A snippet is the whole trimmed line when it has at most 200 code units, and otherwise
      its first 200 code units followed by "...". */
  lemma TrimSnippetShape(line: string)
    ensures |Utf16(Trim(line))| <= SNIPPET_MAX ==> TrimSnippet(line) == Utf16(Trim(line))
    ensures |Utf16(Trim(line))| > SNIPPET_MAX ==>
              var r := TrimSnippet(line);
              |r| == SNIPPET_MAX + 3 && r[..SNIPPET_MAX] == Utf16(Trim(line))[..SNIPPET_MAX]
              && r[SNIPPET_MAX..] == [0x2E, 0x2E, 0x2E]
  {
    assert Utf16("...") == [0x2E] + Utf16("..") == [0x2E, 0x2E] + Utf16(".") == [0x2E, 0x2E, 0x2E];
  }

  /** A line of characters from the Basic Multilingual Plane is measured in characters: each
      is one code unit. */
  lemma {:induction false} Utf16Bmp(s: string)
    requires forall k :: 0 <= k < |s| ==> s[k] as int < 0x10000
    ensures Utf16(s) == seq(|s|, k requires 0 <= k < |s| => s[k] as int)
  {
    if s != [] {
      Utf16Bmp(s[1..]);
    }
  }

  /** A line of 150 characters from outside the Basic Multilingual Plane is 300 code units
      long, so its snippet keeps only its first 100 characters, followed by "...". */
  lemma AstralSnippet(c: char)
    requires c as int >= 0x10000
    ensures TrimSnippet(seq(150, _ => c)) == Utf16(seq(100, _ => c)) + Utf16("...")
  {
    var s := seq(150, _ => c);
    assert !IsJsWhitespace(s[0]) && !IsJsWhitespace(s[149]);
    assert Trim(s) == s;
    Utf16Repeat(c, 150);
    Utf16Repeat(c, 100);
    var u, v := Utf16(s), Utf16(seq(100, _ => c));
    forall k | 0 <= k < 200 ensures u[k] == v[k] {
      assert u[k] == CodeUnits(c)[k % 2] == v[k];
    }
    assert u[..200] == v;
  }

  /** When the 200th code unit is the first half of a surrogate pair, the snippet ends in
      that lone high surrogate. */
  lemma SplitPairSnippet(b: char, c: char)
    requires b as int < 0x10000 && !IsJsWhitespace(b) && c as int >= 0x10000
    ensures var r := TrimSnippet(seq(199, _ => b) + [c]);
            |r| == 203 && 0xD800 <= r[199] < 0xDC00 && r[199] == CodeUnits(c)[0]
  {
    var t := seq(199, _ => b);
    var s := t + [c];
    assert !IsJsWhitespace(s[0]) && !IsJsWhitespace(s[199]);
    assert Trim(s) == s;
    Utf16Bmp(t);
    Utf16Append(t, [c]);
    assert Utf16([c]) == CodeUnits(c) + Utf16([]);
    assert Utf16(s)[199] == CodeUnits(c)[0];
  }

  lemma {:induction false} Utf16Append(s: string, t: string)
    ensures Utf16(s + t) == Utf16(s) + Utf16(t)
  {
    if s == [] {
      assert s + t == t;
    } else {
      assert (s + t)[0] == s[0] && (s + t)[1..] == s[1..] + t;
      Utf16Append(s[1..], t);
      assert Utf16(s + t) == CodeUnits(s[0]) + Utf16(s[1..] + t);
    }
  }

  lemma {:induction false} Utf16Repeat(c: char, n: nat)
    requires c as int >= 0x10000
    ensures |Utf16(seq(n, _ => c))| == 2 * n
    ensures forall k :: 0 <= k < 2 * n ==> Utf16(seq(n, _ => c))[k] == CodeUnits(c)[k % 2]
  {
    if n > 0 {
      var s := seq(n, _ => c);
      assert s[1..] == seq(n - 1, _ => c);
      Utf16Repeat(c, n - 1);
      assert Utf16(s) == CodeUnits(c) + Utf16(s[1..]);
      assert |CodeUnits(c)| == 2;
      forall k | 0 <= k < 2 * n ensures Utf16(s)[k] == CodeUnits(c)[k % 2] {
        if k >= 2 {
          assert Utf16(s)[k] == Utf16(s[1..])[k - 2];
          assert (k - 2) % 2 == k % 2;
        }
      }
    }
  }

  /** `checkOptionalV(rec)`: an own `v` property, if present, must be the string "1.1". */
  predicate CheckOptionalV(rec: Json) {
    HasOwn(rec, "v") ==> Get(rec, "v") == Some(JStr("1.1"))
  }

  /** What `peekHasMoreNonEmptyLines` finds in the rest of the stream. */
  predicate HasMoreNonBlank(lines: seq<Line>) {
    lines != [] && (!lines[0].Blank? || HasMoreNonBlank(lines[1..]))
  }

  /** The look-ahead finds something exactly when some remaining line is not blank. */
  lemma {:induction false} HasMoreNonBlankSpec(lines: seq<Line>)
    ensures HasMoreNonBlank(lines) <==> exists k :: 0 <= k < |lines| && !lines[k].Blank?
  {
    if lines != [] {
      HasMoreNonBlankSpec(lines[1..]);
      if exists k :: 0 <= k < |lines| && !lines[k].Blank? {
        var k :| 0 <= k < |lines| && !lines[k].Blank?;
        if k > 0 { assert lines[1..][k - 1] == lines[k]; }
      }
      if exists k :: 0 <= k < |lines[1..]| && !lines[1..][k].Blank? {
        var k :| 0 <= k < |lines[1..]| && !lines[1..][k].Blank?;
        assert lines[k + 1] == lines[1..][k];
      }
    }
  }

  /** `peekHasMoreNonEmptyLines(iter)`: scans the remaining lines for a non-blank one. */
  method PeekHasMoreNonEmptyLines(lines: seq<Line>, from: nat) returns (more: bool)
    requires from <= |lines|
    ensures more == HasMoreNonBlank(lines[from..])
  {
    var i := from;
    while i < |lines|
      invariant from <= i <= |lines|
      invariant HasMoreNonBlank(lines[from..]) == HasMoreNonBlank(lines[i..])
    {
      if !lines[i].Blank? {
        assert lines[i..][0] == lines[i];
        return true;
      }
      assert lines[i..][1..] == lines[i + 1..];
      i := i + 1;
    }
    assert lines[i..] == [];
    return false;
  }

  // ---------------------------------------------------------------------------------------
  // Per-record checks

  /** The reason, recorded type and missing field of a failure. */
  datatype Failure = Failure(reason: Reason, recordType: Json, missingField: Option<string>)

  const SEGMENT_REQUIRED: seq<string> := ["run_id", "seg_id", "start_ts", "end_ts", "count", "sealed", "events", "h", "ch"]
  const GAP_REQUIRED: seq<string> := ["seg_id_start", "seg_id_end", "reason_code", "h", "ch"]
  const SEAL_REQUIRED: seq<string> := ["algo", "root_ch", "terminal_ch"]

  /** The first of `keys` that is not an own property of `obj`. */
  function FirstMissing(obj: Json, keys: seq<string>): Option<string> {
    if keys == [] then None
    else if !HasOwn(obj, keys[0]) then Some(keys[0])
    else FirstMissing(obj, keys[1..])
  }

  /** `FirstMissing` finds nothing exactly when every key is present, and otherwise a key
      that is absent while every key before it is present. */
  lemma {:induction false} FirstMissingSpec(obj: Json, keys: seq<string>)
    ensures FirstMissing(obj, keys).None? <==> forall k :: 0 <= k < |keys| ==> HasOwn(obj, keys[k])
    ensures FirstMissing(obj, keys).Some? ==>
              exists k :: 0 <= k < |keys| && keys[k] == FirstMissing(obj, keys).value && !HasOwn(obj, keys[k])
                          && forall j :: 0 <= j < k ==> HasOwn(obj, keys[j])
    decreases |keys|
  {
    if keys != [] && HasOwn(obj, keys[0]) {
      FirstMissingSpec(obj, keys[1..]);
      var r := FirstMissing(obj, keys[1..]);
      if r.Some? {
        var k :| 0 <= k < |keys[1..]| && keys[1..][k] == r.value && !HasOwn(obj, keys[1..][k])
                 && forall j :: 0 <= j < k ==> HasOwn(obj, keys[1..][j]);
        assert keys[k + 1] == r.value;
        assert forall j :: 0 <= j < k + 1 ==> HasOwn(obj, keys[j]) by {
          forall j | 0 <= j < k + 1 ensures HasOwn(obj, keys[j]) {
            if j > 0 { assert keys[j] == keys[1..][j - 1]; }
          }
        }
      } else {
        assert forall j :: 0 <= j < |keys| ==> HasOwn(obj, keys[j]) by {
          forall j | 0 <= j < |keys| ensures HasOwn(obj, keys[j]) {
            if j > 0 { assert keys[j] == keys[1..][j - 1]; }
          }
        }
      }
    }
  }

  /** The checks of a segment record after the ordering checks: the `seg` object, its nine
      required fields, its run, its hash and its link. On success, the new chain value. */
  function CheckSegment(p: Primitives, rec: Json, runId: string, prevCh: string): (r: Result<string, Failure>)
    ensures r.Err? ==> r.error.recordType == JStr("segment") && r.error.reason in {MISSING_FIELD, SEGMENT_HASH_MISMATCH, CHAIN_MISMATCH}
    ensures r.Ok? ==> Get(rec, "seg").Some? && Get(rec, "seg").value.JObj?
                      && r.value == ChainHash(p, prevCh, SegmentHash(p, CanonicalSegmentBody(Get(rec, "seg").value)))
  {
    var seg := Get(rec, "seg");
    if !(seg.Some? && seg.value.JObj?) then Err(Failure(MISSING_FIELD, JStr("segment"), Some("seg")))
    else
      var s := seg.value;
      match FirstMissing(s, SEGMENT_REQUIRED)
      case Some(f) => Err(Failure(MISSING_FIELD, JStr("segment"), Some("seg." + f)))
      case None =>
        if Get(s, "run_id") != Some(JStr(runId)) then Err(Failure(MISSING_FIELD, JStr("segment"), Some("seg.run_id")))
        else
          var h := SegmentHash(p, CanonicalSegmentBody(s));
          if Get(s, "h") != Some(JStr(h)) then Err(Failure(SEGMENT_HASH_MISMATCH, JStr("segment"), None))
          else
            var ch := ChainHash(p, prevCh, h);
            if Get(s, "ch") != Some(JStr(ch)) then Err(Failure(CHAIN_MISMATCH, JStr("segment"), None))
            else Ok(ch)
  }

  /** A segment passes exactly when `seg` is an object with the nine required fields, of
      the current run, whose `h` is the hash of its canonical body and whose `ch` links that
      hash to the current chain value. */
  lemma CheckSegmentAccepts(p: Primitives, rec: Json, runId: string, prevCh: string)
    ensures CheckSegment(p, rec, runId, prevCh).Ok? <==>
      var seg := Get(rec, "seg");
      && seg.Some? && seg.value.JObj?
      && (forall k :: 0 <= k < |SEGMENT_REQUIRED| ==> HasOwn(seg.value, SEGMENT_REQUIRED[k]))
      && Get(seg.value, "run_id") == Some(JStr(runId))
      && Get(seg.value, "h") == Some(JStr(SegmentHash(p, CanonicalSegmentBody(seg.value))))
      && Get(seg.value, "ch") == Some(JStr(ChainHash(p, prevCh, SegmentHash(p, CanonicalSegmentBody(seg.value)))))
  {
    var seg := Get(rec, "seg");
    if seg.Some? && seg.value.JObj? {
      FirstMissingSpec(seg.value, SEGMENT_REQUIRED);
    }
  }

  /** The object literal `{seg_id_start, seg_id_end, reason_code}` passed to `gapHash`. */
  function GapRequest(rec: Json): Json {
    ObjectLiteral(GAP_BODY_KEYS, k => Get(rec, k))
  }

  /** `h` as recomputed for a gap record. */
  function ExpectedGapHash(p: Primitives, rec: Json): string {
    GapHash(p, GapRequest(rec))
  }

  /** The checks of a gap record after the ordering checks: the five required fields, an
      integer reason code, its hash and its link. On success, the new chain value. */
  function CheckGap(p: Primitives, rec: Json, prevCh: string): (r: Result<string, Failure>)
    ensures r.Err? ==> r.error.recordType == JStr("gap") && r.error.reason in {MISSING_FIELD, GAP_HASH_MISMATCH, CHAIN_MISMATCH}
    ensures r.Ok? ==> r.value == ChainHash(p, prevCh, ExpectedGapHash(p, rec))
  {
    match FirstMissing(rec, GAP_REQUIRED)
    case Some(f) => Err(Failure(MISSING_FIELD, JStr("gap"), Some(f)))
    case None =>
      if !IsIntegerNumber(Get(rec, "reason_code")) then Err(Failure(MISSING_FIELD, JStr("gap"), Some("reason_code")))
      else
        var h := ExpectedGapHash(p, rec);
        if Get(rec, "h") != Some(JStr(h)) then Err(Failure(GAP_HASH_MISMATCH, JStr("gap"), None))
        else
          var ch := ChainHash(p, prevCh, h);
          if Get(rec, "ch") != Some(JStr(ch)) then Err(Failure(CHAIN_MISMATCH, JStr("gap"), None))
          else Ok(ch)
  }

  /** A gap passes exactly when the five required fields are present, the reason code is an
      integer, `h` is the hash of its range and reason, and `ch` links that hash to the
      current chain value. */
  lemma CheckGapAccepts(p: Primitives, rec: Json, prevCh: string)
    ensures CheckGap(p, rec, prevCh).Ok? <==>
      && (forall k :: 0 <= k < |GAP_REQUIRED| ==> HasOwn(rec, GAP_REQUIRED[k]))
      && IsIntegerNumber(Get(rec, "reason_code"))
      && Get(rec, "h") == Some(JStr(ExpectedGapHash(p, rec)))
      && Get(rec, "ch") == Some(JStr(ChainHash(p, prevCh, ExpectedGapHash(p, rec))))
  {
    FirstMissingSpec(rec, GAP_REQUIRED);
  }

  /** The three binding checks of a seal, in their fixed order: the algorithm, the root and
      the terminal chain value. */
  function SealBinding(rec: Json, rootCh: string, prevCh: string): (r: Option<Reason>)
    ensures r.None? <==> Get(rec, "algo") == Some(JStr(AUDIT_HASH_ALGO)) && Get(rec, "root_ch") == Some(JStr(rootCh))
                         && Get(rec, "terminal_ch") == Some(JStr(prevCh))
    ensures r == Some(UNSUPPORTED_ALGO) <==> Get(rec, "algo") != Some(JStr(AUDIT_HASH_ALGO))
    ensures r == Some(ROOT_MISMATCH) <==> Get(rec, "algo") == Some(JStr(AUDIT_HASH_ALGO)) && Get(rec, "root_ch") != Some(JStr(rootCh))
  {
    if Get(rec, "algo") != Some(JStr(AUDIT_HASH_ALGO)) then Some(UNSUPPORTED_ALGO)
    else if Get(rec, "root_ch") != Some(JStr(rootCh)) then Some(ROOT_MISMATCH)
    else if Get(rec, "terminal_ch") != Some(JStr(prevCh)) then Some(TERMINAL_MISMATCH)
    else None
  }

  // ---------------------------------------------------------------------------------------
  // The walk over the lines

  /** `run_id === null` (ExpectRun) or the run's id, root and current chain value. */
  datatype Phase = ExpectRun | Active(runId: string, rootCh: string, prevCh: string)

  /** The loop's locals between two lines. */
  datatype State = State(
    lineNo: nat, seenAny: bool, phase: Phase, seenTrace: bool, seenSeal: bool, res: VerifyResult)

  datatype Outcome = Continue(next: State) | Stop(result: VerifyResult)

  function InitState(zipEntry: Option<string>): State {
    State(0, false, ExpectRun, false, false, ResultBase(zipEntry))
  }

  /** A stop on the current line in the way every per-record check stops: FAIL with a record
      reason (so never PARTIAL), the line's number and its snippet. */
  predicate StoppedHere(o: Outcome, st: State, text: string) {
    o.Stop? ==> o.result.status == FAIL && o.result.reasonCode.Some? && IsRecordReason(o.result.reasonCode.value)
                && o.result.failureLine == Some(st.lineNo) && o.result.snippet == Some(TrimSnippet(text))
  }

  /** A failure on the current line, with the snippet of its text. */
  function FailAt(st: State, f: Failure, text: string, zipEntry: Option<string>): (o: Outcome)
    ensures o.Stop? && o.result.reasonCode == Some(f.reason)
    ensures IsRecordReason(f.reason) ==> StoppedHere(o, st, text)
  {
    Stop(MakeFailure(st.res, f.reason, Some(st.lineNo), f.recordType, f.missingField, Some(TrimSnippet(text)), zipEntry))
  }

  /** What the checks of one record decide: accept it, giving the next state, or reject it
      with a failure reported from a state (the current one, or for a seal the current one
      with `algo` already recorded). */
  datatype Verdict = Accept(next: State) | Reject(at: State, failure: Failure)

  /** A verdict that stays on the current line: an accepted record keeps the line count, and a
      rejection is reported with a record reason from the current state, at most with `algo`
      recorded. */
  predicate OnLine(v: Verdict, st: State) {
    && (v.Accept? ==> v.next.lineNo == st.lineNo && v.next.seenAny == st.seenAny)
    && (v.Reject? ==> v.at == st.(res := st.res.(algo := v.at.res.algo)) && IsRecordReason(v.failure.reason))
  }

  predicate IsChainType(t: string) {
    t == "segment" || t == "gap" || t == "seal"
  }

  /** The first record: it must be a run with a non-empty string `run_id`. */
  function RunStep(p: Primitives, st: State, rec: Json, t: string): (v: Verdict)
    ensures OnLine(v, st)
  {
    if t != "run" then Reject(st, Failure(MISSING_RUN, JStr(t), None))
    else if !IsNonEmptyString(Get(rec, "run_id")) then Reject(st, Failure(MISSING_FIELD, JStr("run"), Some("run_id")))
    else
      var runId := Get(rec, "run_id").value.s;
      var root := AuditRootHash(p, runId);
      Accept(st.(phase := Active(runId, root, root),
                 res := st.res.(runId := Some(runId), rootCh := Some(root), recordsTotal := st.res.recordsTotal + 1)))
  }

  /** A seal: required fields, then `algo` recorded, then the binding checks. */
  function SealStep(st: State, rec: Json, rootCh: string, prevCh: string): (v: Verdict)
    ensures OnLine(v, st)
  {
    match FirstMissing(rec, SEAL_REQUIRED)
    case Some(f) => Reject(st, Failure(MISSING_FIELD, JStr("seal"), Some(f)))
    case None =>
      var st1 := st.(res := st.res.(algo := Get(rec, "algo").value));
      match SealBinding(rec, rootCh, prevCh)
      case Some(reason) => Reject(st1, Failure(reason, JStr("seal"), None))
      case None =>
        Accept(st1.(seenSeal := true,
                    res := st1.res.(seal := true, terminalCh := Some(prevCh), recordsTotal := st1.res.recordsTotal + 1)))
  }

  /** A segment after the ordering checks: on success the chain moves to the new value. */
  function SegmentStep(p: Primitives, st: State, rec: Json, runId: string, rootCh: string, prevCh: string): (v: Verdict)
    ensures OnLine(v, st)
  {
    match CheckSegment(p, rec, runId, prevCh)
    case Err(f) => Reject(st, f)
    case Ok(ch) =>
      Accept(st.(phase := Active(runId, rootCh, ch),
                 res := st.res.(segments := st.res.segments + 1, recordsTotal := st.res.recordsTotal + 1)))
  }

  /** A gap after the ordering checks: on success the chain moves to the new value. */
  function GapStep(p: Primitives, st: State, rec: Json, runId: string, rootCh: string, prevCh: string): (v: Verdict)
    ensures OnLine(v, st)
  {
    match CheckGap(p, rec, prevCh)
    case Err(f) => Reject(st, f)
    case Ok(ch) =>
      Accept(st.(phase := Active(runId, rootCh, ch),
                 res := st.res.(gaps := st.res.gaps + 1, recordsTotal := st.res.recordsTotal + 1)))
  }

  /** A record after the run record: the ordering checks, then the record's own checks. */
  function ChainStep(p: Primitives, st: State, rec: Json, t: string): (v: Verdict)
    requires st.phase.Active?
    ensures OnLine(v, st)
  {
    var Active(runId, rootCh, prevCh) := st.phase;
    if st.seenTrace && IsChainType(t) then Reject(st, Failure(SEGMENT_AFTER_TRACE, JStr(t), None))
    else if st.seenSeal && IsChainType(t) then Reject(st, Failure(TERMINAL_MISMATCH, JStr(t), None))
    else if t == "trace" then Accept(st.(seenTrace := true, res := st.res.(recordsTotal := st.res.recordsTotal + 1)))
    else if t == "segment" then SegmentStep(p, st, rec, runId, rootCh, prevCh)
    else if t == "gap" then GapStep(p, st, rec, runId, rootCh, prevCh)
    else if t == "seal" then SealStep(st, rec, rootCh, prevCh)
    else Reject(st, Failure(BAD_RECORD_TYPE, JStr(t), None))
  }

  /** The checks of one parsed record, `st.lineNo` already counting its line. */
  function RecordCheck(p: Primitives, st: State, rec: Json): (v: Verdict)
    ensures OnLine(v, st)
  {
    if !rec.JObj? then Reject(st, Failure(MISSING_FIELD, JNull, Some("record")))
    else if !CheckOptionalV(rec) then Reject(st, Failure(UNSUPPORTED_VERSION, Get(rec, "type").GetOr(JNull), Some("v")))
    else if !IsString(Get(rec, "type")) then
      Reject(st, Failure(if st.phase.ExpectRun? then MISSING_RUN else MISSING_FIELD, JNull, Some("type")))
    else
      var t := Get(rec, "type").value.s;
      if st.phase.ExpectRun? then RunStep(p, st, rec, t)
      else ChainStep(p, st, rec, t)
  }

  /** One parsed record: its verdict, a rejection reported with the line's snippet. */
  function RecordStep(p: Primitives, st: State, rec: Json, text: string, zipEntry: Option<string>): (o: Outcome)
    ensures o.Continue? ==> o.next.lineNo == st.lineNo && o.next.seenAny == st.seenAny
    ensures StoppedHere(o, st, text)
  {
    match RecordCheck(p, st, rec)
    case Accept(next) => Continue(next)
    case Reject(at, f) => FailAt(at, f, text, zipEntry)
  }

  /** The state once a non-blank line has been read: the line counted, something seen. */
  function Entered(st: State): State {
    st.(lineNo := st.lineNo + 1, seenAny := true)
  }

  /** The failure for an unparseable line: BAD_JSON when a non-blank line follows, otherwise
      TRUNCATED_LAST_LINE, which may become PARTIAL. */
  function ParseFailure(st: State, text: string, hasMore: bool, allowPartial: bool, zipEntry: Option<string>): VerifyResult {
    if hasMore then MakeFailure(st.res, BAD_JSON, Some(st.lineNo), JNull, None, Some(TrimSnippet(text)), zipEntry)
    else FinalizePartialIfAllowed(MakeFailure(st.res, TRUNCATED_LAST_LINE, Some(st.lineNo), JNull, None, Some(TrimSnippet(text)), zipEntry), allowPartial)
  }

  /** One iteration of the loop; `hasMore` is what the look-ahead would find. */
  function Step(p: Primitives, st: State, line: Line, hasMore: bool, allowPartial: bool, zipEntry: Option<string>): Outcome {
    match line
    case Blank => Continue(st.(lineNo := st.lineNo + 1))
    case Unparseable(text) => Stop(ParseFailure(Entered(st), text, hasMore, allowPartial, zipEntry))
    case Parsed(rec, text) => RecordStep(p, Entered(st), rec, text, zipEntry)
  }

  /** After the last line: EMPTY_FILE, MISSING_SEAL (possibly PARTIAL), or PASS. */
  function Finish(st: State, allowPartial: bool, zipEntry: Option<string>): VerifyResult {
    if !st.seenAny then MakeFailure(st.res, EMPTY_FILE, None, JNull, None, None, zipEntry)
    else if !st.seenSeal then FinalizePartialIfAllowed(MakeFailure(st.res, MISSING_SEAL, None, JNull, None, None, zipEntry), allowPartial)
    else st.res.(status := PASS, reasonCode := None)
  }

  /** The step at line `i`. */
  function Advance(p: Primitives, lines: seq<Line>, i: nat, st: State, allowPartial: bool, zipEntry: Option<string>): Outcome
    requires i < |lines|
  {
    Step(p, st, lines[i], HasMoreNonBlank(lines[i + 1..]), allowPartial, zipEntry)
  }

  /** What the loop returns when it is about to read line `i` in state `st`. */
  function Go(p: Primitives, lines: seq<Line>, i: nat, st: State, allowPartial: bool, zipEntry: Option<string>): VerifyResult
    requires i <= |lines|
    decreases |lines| - i, 1
  {
    if i == |lines| then Finish(st, allowPartial, zipEntry) else GoAt(p, lines, i, st, allowPartial, zipEntry)
  }

  /** `Go` when line `i` exists: its step stops the loop or leads to the next line. */
  function GoAt(p: Primitives, lines: seq<Line>, i: nat, st: State, allowPartial: bool, zipEntry: Option<string>): VerifyResult
    requires i < |lines|
    decreases |lines| - i, 0
  {
    match Advance(p, lines, i, st, allowPartial, zipEntry)
    case Stop(r) => r
    case Continue(next) => Go(p, lines, i + 1, next, allowPartial, zipEntry)
  }

  /** The step at a parsed line counts the line and hands the record to `RecordStep`. */
  lemma StepParsed(p: Primitives, st: State, line: Line, hasMore: bool, allowPartial: bool, zipEntry: Option<string>)
    requires line.Parsed?
    ensures Step(p, st, line, hasMore, allowPartial, zipEntry)
            == RecordStep(p, Entered(st), line.json, line.text, zipEntry)
  {
  }

  /** The result of verifying `lines` with options `allowPartial` and `zipEntry`. */
  function Verify(p: Primitives, lines: seq<Line>, allowPartial: bool, zipEntry: Option<string>): VerifyResult {
    Go(p, lines, 0, InitState(zipEntry), allowPartial, zipEntry)
  }

  /** One pass of the `while (true)` body over line `i`: count the line, skip it when blank,
      parse it (peeking ahead when parsing fails) and check the record. */
  method ReadLine(p: Primitives, lines: seq<Line>, i: nat, st: State, allowPartial: bool, zipEntry: Option<string>)
    returns (o: Outcome)
    requires i < |lines|
    ensures o == Advance(p, lines, i, st, allowPartial, zipEntry)
  {
    var line := lines[i];
    var counted := st.(lineNo := st.lineNo + 1);
    if line.Blank? {
      return Continue(counted);
    }
    var entered := counted.(seenAny := true);
    assert entered == Entered(st);
    if line.Unparseable? {
      var hasMore := PeekHasMoreNonEmptyLines(lines, i + 1);
      return Stop(ParseFailure(entered, line.text, hasMore, allowPartial, zipEntry));
    }
    return RecordStep(p, entered, line.json, line.text, zipEntry);
  }

  /** `verifyNdjsonStream(input, {allowPartial, zipEntry})` over the already split lines. */
  method VerifyNdjsonStream(p: Primitives, lines: seq<Line>, allowPartial: bool, zipEntry: Option<string>)
    returns (res: VerifyResult)
    ensures res == Verify(p, lines, allowPartial, zipEntry)
  {
    var st := InitState(zipEntry);
    var i := 0;
    while i < |lines|
      invariant 0 <= i <= |lines|
      invariant Go(p, lines, i, st, allowPartial, zipEntry) == Verify(p, lines, allowPartial, zipEntry)
      decreases |lines| - i
    {
      var outcome := ReadLine(p, lines, i, st, allowPartial, zipEntry);
      assert Go(p, lines, i, st, allowPartial, zipEntry) == GoAt(p, lines, i, st, allowPartial, zipEntry);
      match outcome {
        case Stop(r) => return r;
        case Continue(next) => st := next;
      }
      i := i + 1;
    }
    assert Go(p, lines, i, st, allowPartial, zipEntry) == Finish(st, allowPartial, zipEntry);
    if !st.seenAny {
      return MakeFailure(st.res, EMPTY_FILE, None, JNull, None, None, zipEntry);
    }
    if !st.seenSeal {
      res := MakeFailure(st.res, MISSING_SEAL, None, JNull, None, None, zipEntry);
      return FinalizePartialIfAllowed(res, allowPartial);
    }
    return st.res.(status := PASS, reasonCode := None);
  }
}
