/**
 * What `verifyNdjsonStream` reports, stated about `Verify` (the specification that
 * `VerifyNdjsonStream` is proved to compute): how status and reason relate, the three
 * end-of-stream outcomes, and the failure each kind of bad line produces.
 */
module VerifyNdjsonOutcomes {
  import opened Wrappers
  import opened JsonValues
  import opened AuditChain
  import opened VerifyNdjson
  import opened VerifyNdjsonProps

  /** PASS exactly when there is no reason; PARTIAL exactly when partial files are allowed
      and the reason is TRUNCATED_LAST_LINE or MISSING_SEAL; FAIL otherwise. */
  predicate Classified(r: VerifyResult, allowPartial: bool) {
    && (r.status == PASS <==> r.reasonCode.None?)
    && (r.status == PARTIAL <==> allowPartial && r.reasonCode.Some? && IsPartialCapable(r.reasonCode.value))
  }

  lemma ReachNext(p: Primitives, lines: seq<Line>, k: nat, allowPartial: bool, zipEntry: Option<string>)
    requires k < |lines| && Reach(p, lines, k, allowPartial, zipEntry).Some?
    requires Step(p, Reach(p, lines, k, allowPartial, zipEntry).value, lines[k], HasMoreNonBlank(lines[k + 1..]), allowPartial, zipEntry).Continue?
    ensures Reach(p, lines, k + 1, allowPartial, zipEntry)
            == Some(Step(p, Reach(p, lines, k, allowPartial, zipEntry).value, lines[k], HasMoreNonBlank(lines[k + 1..]), allowPartial, zipEntry).next)
    ensures Go(p, lines, k, Reach(p, lines, k, allowPartial, zipEntry).value, allowPartial, zipEntry)
            == Go(p, lines, k + 1, Reach(p, lines, k + 1, allowPartial, zipEntry).value, allowPartial, zipEntry)
  {
  }

  /** A step that stops reports a reason, and the status agrees with it. */
  lemma StepStopped(p: Primitives, st: State, line: Line, hasMore: bool, allowPartial: bool, zipEntry: Option<string>)
    requires Step(p, st, line, hasMore, allowPartial, zipEntry).Stop?
    ensures var r := Step(p, st, line, hasMore, allowPartial, zipEntry).result;
            && r.reasonCode.Some? && Classified(r, allowPartial)
            && (IsRecordReason(r.reasonCode.value) || r.reasonCode == Some(BAD_JSON) || r.reasonCode == Some(TRUNCATED_LAST_LINE))
  {
    if line.Parsed? {
      assert Step(p, st, line, hasMore, allowPartial, zipEntry)
          == RecordStep(p, Entered(st), line.json, line.text, zipEntry);
    }
  }

  /** A stop ends the walk. */
  lemma GoStopped(p: Primitives, lines: seq<Line>, k: nat, st: State, allowPartial: bool, zipEntry: Option<string>)
    requires k < |lines| && Step(p, st, lines[k], HasMoreNonBlank(lines[k + 1..]), allowPartial, zipEntry).Stop?
    ensures Go(p, lines, k, st, allowPartial, zipEntry) == Step(p, st, lines[k], HasMoreNonBlank(lines[k + 1..]), allowPartial, zipEntry).result
  {
  }

  lemma {:induction false} GoClassified(p: Primitives, lines: seq<Line>, k: nat, allowPartial: bool, zipEntry: Option<string>)
    requires k <= |lines| && Reach(p, lines, k, allowPartial, zipEntry).Some?
    ensures Classified(Go(p, lines, k, Reach(p, lines, k, allowPartial, zipEntry).value, allowPartial, zipEntry), allowPartial)
    decreases |lines| - k
  {
    var st := Reach(p, lines, k, allowPartial, zipEntry).value;
    ReachGood(p, lines, k, allowPartial, zipEntry);
    if k < |lines| {
      var o := Step(p, st, lines[k], HasMoreNonBlank(lines[k + 1..]), allowPartial, zipEntry);
      if o.Continue? {
        ReachNext(p, lines, k, allowPartial, zipEntry);
        GoClassified(p, lines, k + 1, allowPartial, zipEntry);
      } else {
        GoStopped(p, lines, k, st, allowPartial, zipEntry);
        StepStopped(p, st, lines[k], HasMoreNonBlank(lines[k + 1..]), allowPartial, zipEntry);
      }
    }
  }

  /** The status agrees with the reason code on every input. */
  lemma StatusMatchesReason(p: Primitives, lines: seq<Line>, allowPartial: bool, zipEntry: Option<string>)
    ensures Classified(Verify(p, lines, allowPartial, zipEntry), allowPartial)
  {
    GoClassified(p, lines, 0, allowPartial, zipEntry);
  }

  /** A verification with no reason, or one ending in EMPTY_FILE or MISSING_SEAL, read every line. */
  lemma {:induction false} FinishedAtEnd(p: Primitives, lines: seq<Line>, k: nat, allowPartial: bool, zipEntry: Option<string>)
    requires k <= |lines| && Reach(p, lines, k, allowPartial, zipEntry).Some?
    requires var r := Go(p, lines, k, Reach(p, lines, k, allowPartial, zipEntry).value, allowPartial, zipEntry);
             r.reasonCode.None? || r.reasonCode == Some(EMPTY_FILE) || r.reasonCode == Some(MISSING_SEAL)
    ensures Reach(p, lines, |lines|, allowPartial, zipEntry).Some?
    ensures Go(p, lines, k, Reach(p, lines, k, allowPartial, zipEntry).value, allowPartial, zipEntry)
            == Finish(Reach(p, lines, |lines|, allowPartial, zipEntry).value, allowPartial, zipEntry)
    decreases |lines| - k
  {
    if k < |lines| {
      var st := Reach(p, lines, k, allowPartial, zipEntry).value;
      var o := Step(p, st, lines[k], HasMoreNonBlank(lines[k + 1..]), allowPartial, zipEntry);
      if o.Continue? {
        ReachNext(p, lines, k, allowPartial, zipEntry);
        FinishedAtEnd(p, lines, k + 1, allowPartial, zipEntry);
      } else {
        GoStopped(p, lines, k, st, allowPartial, zipEntry);
        StepStopped(p, st, lines[k], HasMoreNonBlank(lines[k + 1..]), allowPartial, zipEntry);
      }
    }
  }

  lemma {:induction false} BlankPrefixReach(p: Primitives, lines: seq<Line>, k: nat, allowPartial: bool, zipEntry: Option<string>)
    requires k <= |lines| && AllBlank(lines[..k])
    ensures Reach(p, lines, k, allowPartial, zipEntry) == Some(InitState(zipEntry).(lineNo := k))
  {
    if k > 0 {
      assert lines[..k - 1] == lines[..k][..k - 1];
      assert lines[k - 1] == lines[..k][k - 1];
      BlankPrefixReach(p, lines, k - 1, allowPartial, zipEntry);
    }
  }

  /** The three outcomes decided at the end of the stream: EMPTY_FILE exactly when every line
      is blank; MISSING_SEAL exactly when every line was accepted, some line is not blank and
      none is a seal; PASS exactly when every line was accepted and one of them is a seal. */
  lemma EndOutcomes(p: Primitives, lines: seq<Line>, allowPartial: bool, zipEntry: Option<string>)
    ensures var r := Verify(p, lines, allowPartial, zipEntry);
            var accepted := Reach(p, lines, |lines|, allowPartial, zipEntry).Some?;
            && (r.reasonCode == Some(EMPTY_FILE) <==> AllBlank(lines))
            && (r.reasonCode == Some(MISSING_SEAL) <==> accepted && !AllBlank(lines) && CountType(lines, "seal") == 0)
            && (r.status == PASS <==> accepted && CountType(lines, "seal") == 1)
  {
    var r := Verify(p, lines, allowPartial, zipEntry);
    assert lines[..|lines|] == lines;
    StatusMatchesReason(p, lines, allowPartial, zipEntry);
    if AllBlank(lines) {
      BlankPrefixReach(p, lines, |lines|, allowPartial, zipEntry);
      EndAt(p, lines, allowPartial, zipEntry);
      CountsOfBlank(p, "", lines, "seal");
    } else if Reach(p, lines, |lines|, allowPartial, zipEntry).Some? {
      EndAt(p, lines, allowPartial, zipEntry);
      ReachGood(p, lines, |lines|, allowPartial, zipEntry);
    } else if r.reasonCode.None? || r.reasonCode == Some(EMPTY_FILE) || r.reasonCode == Some(MISSING_SEAL) {
      FinishedAtEnd(p, lines, 0, allowPartial, zipEntry);
    }
  }

  /** A PASS result carries the run, its root, the seal's algorithm, a terminal chain value
      equal to `chainHash` folded over every segment and gap from the root, and counters equal
      to the numbers of records, segments and gaps; no failure context is set. */
  lemma PassOutcome(p: Primitives, lines: seq<Line>, allowPartial: bool, zipEntry: Option<string>)
    requires Verify(p, lines, allowPartial, zipEntry).status == PASS
    ensures var r := Verify(p, lines, allowPartial, zipEntry);
            && r.reasonCode.None? && r.seal && r.algo == JStr(AUDIT_HASH_ALGO)
            && r.runId.Some? && r.rootCh == Some(AuditRootHash(p, r.runId.value))
            && r.terminalCh == Some(ChainFold(p, AuditRootHash(p, r.runId.value), lines))
            && r.recordsTotal == CountRecords(lines)
            && r.segments == CountType(lines, "segment") && r.gaps == CountType(lines, "gap")
            && CountType(lines, "seal") == 1
            && r.failureLine.None? && r.failureRecordType == JNull && r.missingField.None? && r.snippet.None?
            && r.zipEntry == ResultBase(zipEntry).zipEntry
  {
    assert lines[..|lines|] == lines;
    StatusMatchesReason(p, lines, allowPartial, zipEntry);
    FinishedAtEnd(p, lines, 0, allowPartial, zipEntry);
    ReachGood(p, lines, |lines|, allowPartial, zipEntry);
  }

  // ---------------------------------------------------------------------------------------
  // The failure each line produces

  /** The state with which line `k` is checked. */
  function Entering(p: Primitives, lines: seq<Line>, k: nat, allowPartial: bool, zipEntry: Option<string>): State
    requires k <= |lines| && Reach(p, lines, k, allowPartial, zipEntry).Some?
  {
    var st := Reach(p, lines, k, allowPartial, zipEntry).value;
    Entered(st)
  }

  /** A failure reported from a state whose failure context is untouched (or from that state
      with `algo` recorded): FAIL with the failure's reason, record type and missing field, on
      the state's line, with the snippet. */
  lemma FailAtFacts(r: VerifyResult, st: State, at: State, f: Failure, k: nat, text: string, zipEntry: Option<string>)
    requires r == FailAt(at, f, text, zipEntry).result && st.lineNo == k + 1
    requires Context(st.res) == Context(ResultBase(zipEntry)) && at == st.(res := st.res.(algo := at.res.algo))
    ensures && r.status == FAIL && r.reasonCode == Some(f.reason) && r.failureLine == Some(k + 1)
            && r.failureRecordType == f.recordType && r.missingField == f.missingField
            && r.snippet == Some(TrimSnippet(text)) && r.algo == at.res.algo
  {
  }

  /** A record rejected at a reachable line stops the walk there with its failure. */
  lemma RejectedResult(p: Primitives, lines: seq<Line>, k: nat, allowPartial: bool, zipEntry: Option<string>)
    requires k < |lines| && Reach(p, lines, k, allowPartial, zipEntry).Some? && lines[k].Parsed?
    requires RecordCheck(p, Entering(p, lines, k, allowPartial, zipEntry), lines[k].json).Reject?
    ensures var v := RecordCheck(p, Entering(p, lines, k, allowPartial, zipEntry), lines[k].json);
            Verify(p, lines, allowPartial, zipEntry) == FailAt(v.at, v.failure, lines[k].text, zipEntry).result
  {
    var st := Reach(p, lines, k, allowPartial, zipEntry).value;
    var st1 := Entering(p, lines, k, allowPartial, zipEntry);
    var Parsed(rec, text) := lines[k];
    var v := RecordCheck(p, st1, rec);
    ReachGo(p, lines, k, allowPartial, zipEntry);
    StepParsed(p, st, lines[k], HasMoreNonBlank(lines[k + 1..]), allowPartial, zipEntry);
    assert Advance(p, lines, k, st, allowPartial, zipEntry) == RecordStep(p, st1, rec, text, zipEntry);
    assert RecordStep(p, st1, rec, text, zipEntry) == FailAt(v.at, v.failure, text, zipEntry);
  }

  /** A record rejected at a reachable line ends the verification with that failure: FAIL,
      its reason, record type and missing field, the line's 1-based number and its snippet. */
  lemma RejectedAt(p: Primitives, lines: seq<Line>, k: nat, allowPartial: bool, zipEntry: Option<string>)
    requires k < |lines| && Reach(p, lines, k, allowPartial, zipEntry).Some? && lines[k].Parsed?
    requires RecordCheck(p, Entering(p, lines, k, allowPartial, zipEntry), lines[k].json).Reject?
    ensures var v := RecordCheck(p, Entering(p, lines, k, allowPartial, zipEntry), lines[k].json);
            var r := Verify(p, lines, allowPartial, zipEntry);
            && r.status == FAIL && r.reasonCode == Some(v.failure.reason) && r.failureLine == Some(k + 1)
            && r.failureRecordType == v.failure.recordType && r.missingField == v.failure.missingField
            && r.snippet == Some(TrimSnippet(lines[k].text)) && r.algo == v.at.res.algo
  {
    var st1 := Entering(p, lines, k, allowPartial, zipEntry);
    var v := RecordCheck(p, st1, lines[k].json);
    RejectedResult(p, lines, k, allowPartial, zipEntry);
    ReachBasics(p, lines, k, allowPartial, zipEntry);
    assert st1.lineNo == k + 1 && Context(st1.res) == Context(ResultBase(zipEntry));
    assert OnLine(v, st1);
    FailAtFacts(Verify(p, lines, allowPartial, zipEntry), st1, v.at, v.failure, k, lines[k].text, zipEntry);
  }

  /** A record accepted at a reachable line gives the state before the next line. */
  lemma AcceptedAt(p: Primitives, lines: seq<Line>, k: nat, allowPartial: bool, zipEntry: Option<string>)
    requires k < |lines| && Reach(p, lines, k, allowPartial, zipEntry).Some? && lines[k].Parsed?
    requires RecordCheck(p, Entering(p, lines, k, allowPartial, zipEntry), lines[k].json).Accept?
    ensures Reach(p, lines, k + 1, allowPartial, zipEntry)
            == Some(RecordCheck(p, Entering(p, lines, k, allowPartial, zipEntry), lines[k].json).next)
  {
    var st := Reach(p, lines, k, allowPartial, zipEntry).value;
    StepParsed(p, st, lines[k], HasMoreNonBlank(lines[k + 1..]), allowPartial, zipEntry);
  }

  /** A parsed value that is not a plain object (null, a scalar, an array) fails with
      MISSING_FIELD and missing field 'record'. */
  lemma NonObjectRecordFails(p: Primitives, lines: seq<Line>, k: nat, allowPartial: bool, zipEntry: Option<string>)
    requires k < |lines| && Reach(p, lines, k, allowPartial, zipEntry).Some?
    requires lines[k].Parsed? && !lines[k].json.JObj?
    ensures var r := Verify(p, lines, allowPartial, zipEntry);
            && r.status == FAIL && r.reasonCode == Some(MISSING_FIELD) && r.missingField == Some("record")
            && r.failureLine == Some(k + 1) && r.failureRecordType == JNull && r.snippet == Some(TrimSnippet(lines[k].text))
  {
    ReachBasics(p, lines, k, allowPartial, zipEntry);
    var st1 := Entering(p, lines, k, allowPartial, zipEntry);
    assert RecordCheck(p, st1, lines[k].json) == Reject(st1, Failure(MISSING_FIELD, JNull, Some("record")));
    RejectedAt(p, lines, k, allowPartial, zipEntry);
  }

  /** An object with an own `v` other than "1.1" fails with UNSUPPORTED_VERSION, missing
      field 'v' and its `type` (whatever JSON value it is) as the record type. */
  lemma UnsupportedVersionFails(p: Primitives, lines: seq<Line>, k: nat, allowPartial: bool, zipEntry: Option<string>)
    requires k < |lines| && Reach(p, lines, k, allowPartial, zipEntry).Some?
    requires lines[k].Parsed? && lines[k].json.JObj?
    requires HasOwn(lines[k].json, "v") && Get(lines[k].json, "v") != Some(JStr("1.1"))
    ensures var r := Verify(p, lines, allowPartial, zipEntry);
            && r.status == FAIL && r.reasonCode == Some(UNSUPPORTED_VERSION) && r.missingField == Some("v")
            && r.failureLine == Some(k + 1) && r.failureRecordType == Get(lines[k].json, "type").GetOr(JNull)
  {
    ReachBasics(p, lines, k, allowPartial, zipEntry);
    var st1 := Entering(p, lines, k, allowPartial, zipEntry);
    var rec := lines[k].json;
    assert RecordCheck(p, st1, rec) == Reject(st1, Failure(UNSUPPORTED_VERSION, Get(rec, "type").GetOr(JNull), Some("v")));
    RejectedAt(p, lines, k, allowPartial, zipEntry);
  }

  /** A JSON parse failure is BAD_JSON when a non-blank line follows and TRUNCATED_LAST_LINE
      otherwise; only the latter becomes PARTIAL, and only when partial files are allowed. */
  lemma ParseErrorFails(p: Primitives, lines: seq<Line>, k: nat, allowPartial: bool, zipEntry: Option<string>)
    requires k < |lines| && Reach(p, lines, k, allowPartial, zipEntry).Some? && lines[k].Unparseable?
    ensures var r := Verify(p, lines, allowPartial, zipEntry);
            var more := HasMoreNonBlank(lines[k + 1..]);
            && r.reasonCode == Some(if more then BAD_JSON else TRUNCATED_LAST_LINE)
            && r.status == (if !more && allowPartial then PARTIAL else FAIL)
            && r.failureLine == Some(k + 1) && r.snippet == Some(TrimSnippet(lines[k].text)) && r.missingField.None?
  {
    ParseErrorResult(p, lines, k, allowPartial, zipEntry);
    ReachBasics(p, lines, k, allowPartial, zipEntry);
    var st1 := Entering(p, lines, k, allowPartial, zipEntry);
    assert st1.lineNo == k + 1 && st1.res.missingField.None?;
    ParseFailureFacts(Verify(p, lines, allowPartial, zipEntry), st1, k, lines[k].text, HasMoreNonBlank(lines[k + 1..]), allowPartial, zipEntry);
  }

  /** The run's result once an unparseable line is reached. */
  lemma ParseErrorResult(p: Primitives, lines: seq<Line>, k: nat, allowPartial: bool, zipEntry: Option<string>)
    requires k < |lines| && Reach(p, lines, k, allowPartial, zipEntry).Some? && lines[k].Unparseable?
    ensures Verify(p, lines, allowPartial, zipEntry)
            == ParseFailure(Entering(p, lines, k, allowPartial, zipEntry), lines[k].text, HasMoreNonBlank(lines[k + 1..]), allowPartial, zipEntry)
  {
    ReachGo(p, lines, k, allowPartial, zipEntry);
    var st := Reach(p, lines, k, allowPartial, zipEntry).value;
    assert Advance(p, lines, k, st, allowPartial, zipEntry)
           == Stop(ParseFailure(Entered(st), lines[k].text, HasMoreNonBlank(lines[k + 1..]), allowPartial, zipEntry));
  }

  /** What a parse failure at line `k + 1` reports. */
  lemma ParseFailureFacts(r: VerifyResult, st: State, k: nat, text: string, more: bool, allowPartial: bool, zipEntry: Option<string>)
    requires r == ParseFailure(st, text, more, allowPartial, zipEntry) && st.lineNo == k + 1 && st.res.missingField.None?
    ensures && r.reasonCode == Some(if more then BAD_JSON else TRUNCATED_LAST_LINE)
            && r.status == (if !more && allowPartial then PARTIAL else FAIL)
            && r.failureLine == Some(k + 1) && r.snippet == Some(TrimSnippet(text)) && r.missingField.None?
  {
  }

  /** The first non-blank line must be a run record: any other type, or none, fails with
      MISSING_RUN (with missing field 'type' when the type is not a string). */
  lemma FirstRecordNotRunFails(p: Primitives, lines: seq<Line>, k: nat, allowPartial: bool, zipEntry: Option<string>)
    requires k < |lines| && AllBlank(lines[..k]) && lines[k].Parsed?
    requires lines[k].json.JObj? && CheckOptionalV(lines[k].json) && Get(lines[k].json, "type") != Some(JStr("run"))
    ensures var r := Verify(p, lines, allowPartial, zipEntry);
            var t := Get(lines[k].json, "type");
            && r.status == FAIL && r.reasonCode == Some(MISSING_RUN) && r.failureLine == Some(k + 1)
            && r.missingField == (if IsString(t) then None else Some("type"))
            && r.failureRecordType == (if IsString(t) then t.value else JNull)
  {
    BlankPrefixReach(p, lines, k, allowPartial, zipEntry);
    var st := Entering(p, lines, k, allowPartial, zipEntry);
    var Parsed(rec, text) := lines[k];
    assert st.phase.ExpectRun?;
    if IsString(Get(rec, "type")) {
      var t := Get(rec, "type").value.s;
      assert RecordCheck(p, st, rec) == RunStep(p, st, rec, t) == Reject(st, Failure(MISSING_RUN, JStr(t), None));
    } else {
      assert RecordCheck(p, st, rec) == Reject(st, Failure(MISSING_RUN, JNull, Some("type")));
    }
    RejectedAt(p, lines, k, allowPartial, zipEntry);
  }

  /** A first run record without a non-empty string `run_id` fails with MISSING_FIELD 'run_id'. */
  lemma FirstRunWithoutIdFails(p: Primitives, lines: seq<Line>, k: nat, allowPartial: bool, zipEntry: Option<string>)
    requires k < |lines| && AllBlank(lines[..k]) && lines[k].Parsed?
    requires lines[k].json.JObj? && CheckOptionalV(lines[k].json) && Get(lines[k].json, "type") == Some(JStr("run"))
    requires !IsNonEmptyString(Get(lines[k].json, "run_id"))
    ensures var r := Verify(p, lines, allowPartial, zipEntry);
            && r.status == FAIL && r.reasonCode == Some(MISSING_FIELD) && r.missingField == Some("run_id")
            && r.failureRecordType == JStr("run") && r.failureLine == Some(k + 1)
  {
    BlankPrefixReach(p, lines, k, allowPartial, zipEntry);
    var st := Entering(p, lines, k, allowPartial, zipEntry);
    var Parsed(rec, text) := lines[k];
    assert st.phase.ExpectRun?;
    assert RecordCheck(p, st, rec) == RunStep(p, st, rec, "run") == Reject(st, Failure(MISSING_FIELD, JStr("run"), Some("run_id")));
    RejectedAt(p, lines, k, allowPartial, zipEntry);
  }

  /** A first run record with a non-empty `run_id` starts the chain: the root and `prev_ch`
      become `auditRootHash(run_id)`, and nothing else is counted yet. */
  lemma FirstRunStartsChain(p: Primitives, lines: seq<Line>, k: nat, allowPartial: bool, zipEntry: Option<string>)
    requires k < |lines| && AllBlank(lines[..k]) && lines[k].Parsed?
    requires lines[k].json.JObj? && CheckOptionalV(lines[k].json) && Get(lines[k].json, "type") == Some(JStr("run"))
    requires IsNonEmptyString(Get(lines[k].json, "run_id"))
    ensures var runId := Get(lines[k].json, "run_id").value.s;
            var root := AuditRootHash(p, runId);
            Reach(p, lines, k + 1, allowPartial, zipEntry)
            == Some(State(k + 1, true, Active(runId, root, root), false, false,
                          ResultBase(zipEntry).(runId := Some(runId), rootCh := Some(root), recordsTotal := 1)))
  {
    BlankPrefixReach(p, lines, k, allowPartial, zipEntry);
    AcceptedAt(p, lines, k, allowPartial, zipEntry);
  }

  /** A well-formed record after the run record, with string type `t`. */
  predicate TypedAfterRun(p: Primitives, lines: seq<Line>, k: nat, allowPartial: bool, zipEntry: Option<string>, t: string)
    requires k < |lines|
  {
    && Reach(p, lines, k, allowPartial, zipEntry).Some? && !AllBlank(lines[..k])
    && lines[k].Parsed? && lines[k].json.JObj? && CheckOptionalV(lines[k].json)
    && Get(lines[k].json, "type") == Some(JStr(t))
  }

  /** Once a trace has been accepted, a segment, gap or seal fails with SEGMENT_AFTER_TRACE;
      this check comes before the seal check. */
  lemma ChainAfterTraceFails(p: Primitives, lines: seq<Line>, k: nat, allowPartial: bool, zipEntry: Option<string>, t: string)
    requires k < |lines| && TypedAfterRun(p, lines, k, allowPartial, zipEntry, t)
    requires IsChainType(t) && CountType(lines[..k], "trace") > 0
    ensures var r := Verify(p, lines, allowPartial, zipEntry);
            r.status == FAIL && r.reasonCode == Some(SEGMENT_AFTER_TRACE) && r.failureRecordType == JStr(t) && r.failureLine == Some(k + 1)
  {
    ReachGood(p, lines, k, allowPartial, zipEntry);
    var st := Entering(p, lines, k, allowPartial, zipEntry);
    assert RecordCheck(p, st, lines[k].json) == Reject(st, Failure(SEGMENT_AFTER_TRACE, JStr(t), None));
    RejectedAt(p, lines, k, allowPartial, zipEntry);
  }

  /** Once a seal has been accepted (and no trace), a segment, gap or seal fails with
      TERMINAL_MISMATCH: a second seal is never accepted. */
  lemma ChainAfterSealFails(p: Primitives, lines: seq<Line>, k: nat, allowPartial: bool, zipEntry: Option<string>, t: string)
    requires k < |lines| && TypedAfterRun(p, lines, k, allowPartial, zipEntry, t)
    requires IsChainType(t) && CountType(lines[..k], "trace") == 0 && CountType(lines[..k], "seal") > 0
    ensures var r := Verify(p, lines, allowPartial, zipEntry);
            r.status == FAIL && r.reasonCode == Some(TERMINAL_MISMATCH) && r.failureRecordType == JStr(t) && r.failureLine == Some(k + 1)
  {
    ReachGood(p, lines, k, allowPartial, zipEntry);
    var st := Entering(p, lines, k, allowPartial, zipEntry);
    assert RecordCheck(p, st, lines[k].json) == Reject(st, Failure(TERMINAL_MISMATCH, JStr(t), None));
    RejectedAt(p, lines, k, allowPartial, zipEntry);
  }

  /** A trace after the run record is always accepted, before or after the seal. */
  lemma TraceAlwaysAccepted(p: Primitives, lines: seq<Line>, k: nat, allowPartial: bool, zipEntry: Option<string>)
    requires k < |lines| && TypedAfterRun(p, lines, k, allowPartial, zipEntry, "trace")
    ensures Reach(p, lines, k + 1, allowPartial, zipEntry).Some?
  {
    ReachGood(p, lines, k, allowPartial, zipEntry);
    ChainVerdict(p, Entering(p, lines, k, allowPartial, zipEntry), lines[k].json, "trace");
    AcceptedAt(p, lines, k, allowPartial, zipEntry);
  }

  /** A type other than trace, segment, gap and seal after the run record (a second run
      record included) fails with BAD_RECORD_TYPE; a non-string type with MISSING_FIELD. */
  lemma UnknownTypeFails(p: Primitives, lines: seq<Line>, k: nat, allowPartial: bool, zipEntry: Option<string>)
    requires k < |lines| && Reach(p, lines, k, allowPartial, zipEntry).Some? && !AllBlank(lines[..k])
    requires lines[k].Parsed? && lines[k].json.JObj? && CheckOptionalV(lines[k].json)
    requires var t := Get(lines[k].json, "type"); !(t.Some? && t.value.JStr? && t.value.s in {"trace", "segment", "gap", "seal"})
    ensures var r := Verify(p, lines, allowPartial, zipEntry);
            var t := Get(lines[k].json, "type");
            && r.status == FAIL && r.failureLine == Some(k + 1)
            && (IsString(t) ==> r.reasonCode == Some(BAD_RECORD_TYPE) && r.failureRecordType == t.value)
            && (!IsString(t) ==> r.reasonCode == Some(MISSING_FIELD) && r.missingField == Some("type"))
  {
    ReachGood(p, lines, k, allowPartial, zipEntry);
    var st := Entering(p, lines, k, allowPartial, zipEntry);
    var Parsed(rec, text) := lines[k];
    if IsString(Get(rec, "type")) {
      var t := Get(rec, "type").value.s;
      assert RecordCheck(p, st, rec) == ChainStep(p, st, rec, t) == Reject(st, Failure(BAD_RECORD_TYPE, JStr(t), None));
    } else {
      assert RecordCheck(p, st, rec) == Reject(st, Failure(MISSING_FIELD, JNull, Some("type")));
    }
    RejectedAt(p, lines, k, allowPartial, zipEntry);
  }

  /** A seal that follows no trace and no earlier seal is checked in a fixed order: required
      fields, then `algo` (recorded in the result even when a later check fails), `root_ch`
      against the run's root, and `terminal_ch` against the current chain value. */
  lemma SealChecks(p: Primitives, lines: seq<Line>, k: nat, allowPartial: bool, zipEntry: Option<string>)
    requires k < |lines| && TypedAfterRun(p, lines, k, allowPartial, zipEntry, "seal")
    requires CountType(lines[..k], "trace") == 0 && CountType(lines[..k], "seal") == 0
    ensures var st := Reach(p, lines, k, allowPartial, zipEntry).value;
            && st.phase.Active? && st.phase.rootCh == AuditRootHash(p, st.phase.runId)
            && st.phase.prevCh == ChainFold(p, st.phase.rootCh, lines[..k])
    ensures var st := Reach(p, lines, k, allowPartial, zipEntry).value;
            var r := Verify(p, lines, allowPartial, zipEntry);
            var rec := lines[k].json;
            && (FirstMissing(rec, SEAL_REQUIRED).Some? ==>
                  r.reasonCode == Some(MISSING_FIELD) && r.missingField == FirstMissing(rec, SEAL_REQUIRED) && r.algo == JNull)
            && (FirstMissing(rec, SEAL_REQUIRED).None? && SealBinding(rec, st.phase.rootCh, st.phase.prevCh).Some? ==>
                  r.reasonCode == SealBinding(rec, st.phase.rootCh, st.phase.prevCh) && r.algo == Get(rec, "algo").value
                  && r.status == FAIL && r.failureRecordType == JStr("seal"))
            && (FirstMissing(rec, SEAL_REQUIRED).None? && SealBinding(rec, st.phase.rootCh, st.phase.prevCh).None? ==>
                  Reach(p, lines, k + 1, allowPartial, zipEntry) == Some(AfterSeal(Entering(p, lines, k, allowPartial, zipEntry))))
  {
    ReachGood(p, lines, k, allowPartial, zipEntry);
    var st := Entering(p, lines, k, allowPartial, zipEntry);
    ChainVerdict(p, st, lines[k].json, "seal");
    var rec := lines[k].json;
    assert RecordCheck(p, st, rec) == SealStep(st, rec, st.phase.rootCh, st.phase.prevCh);
    if FirstMissing(rec, SEAL_REQUIRED).None? && SealBinding(rec, st.phase.rootCh, st.phase.prevCh).None? {
      SealAcceptedState(st, rec);
      AcceptedAt(p, lines, k, allowPartial, zipEntry);
    } else {
      RejectedAt(p, lines, k, allowPartial, zipEntry);
    }
  }

  /** A segment that follows no trace and no seal fails with the first failing check of
      `CheckSegment` against the current chain value, or is accepted, moving the chain value
      to `chainHash(prev_ch, h)`. */
  lemma SegmentChecks(p: Primitives, lines: seq<Line>, k: nat, allowPartial: bool, zipEntry: Option<string>)
    requires k < |lines| && TypedAfterRun(p, lines, k, allowPartial, zipEntry, "segment")
    requires CountType(lines[..k], "trace") == 0 && CountType(lines[..k], "seal") == 0
    ensures var st := Reach(p, lines, k, allowPartial, zipEntry).value;
            && st.phase.Active? && st.phase.prevCh == ChainFold(p, st.phase.rootCh, lines[..k])
    ensures var st := Reach(p, lines, k, allowPartial, zipEntry).value;
            var r := Verify(p, lines, allowPartial, zipEntry);
            var c := CheckSegment(p, lines[k].json, st.phase.runId, st.phase.prevCh);
            && (c.Err? ==> r.status == FAIL && r.reasonCode == Some(c.error.reason) && r.failureLine == Some(k + 1)
                           && r.failureRecordType == JStr("segment") && r.missingField == c.error.missingField)
            && (c.Ok? ==> Reach(p, lines, k + 1, allowPartial, zipEntry) == Some(AfterSegment(Entering(p, lines, k, allowPartial, zipEntry), c.value)))
  {
    ReachGood(p, lines, k, allowPartial, zipEntry);
    var st := Entering(p, lines, k, allowPartial, zipEntry);
    ChainVerdict(p, st, lines[k].json, "segment");
    if RecordCheck(p, st, lines[k].json).Accept? {
      AcceptedAt(p, lines, k, allowPartial, zipEntry);
    } else {
      RejectedAt(p, lines, k, allowPartial, zipEntry);
    }
  }

  /** The same for a gap and `CheckGap`. */
  lemma GapChecks(p: Primitives, lines: seq<Line>, k: nat, allowPartial: bool, zipEntry: Option<string>)
    requires k < |lines| && TypedAfterRun(p, lines, k, allowPartial, zipEntry, "gap")
    requires CountType(lines[..k], "trace") == 0 && CountType(lines[..k], "seal") == 0
    ensures var st := Reach(p, lines, k, allowPartial, zipEntry).value;
            && st.phase.Active? && st.phase.prevCh == ChainFold(p, st.phase.rootCh, lines[..k])
    ensures var st := Reach(p, lines, k, allowPartial, zipEntry).value;
            var r := Verify(p, lines, allowPartial, zipEntry);
            var c := CheckGap(p, lines[k].json, st.phase.prevCh);
            && (c.Err? ==> r.status == FAIL && r.reasonCode == Some(c.error.reason) && r.failureLine == Some(k + 1)
                           && r.failureRecordType == JStr("gap") && r.missingField == c.error.missingField)
            && (c.Ok? ==> Reach(p, lines, k + 1, allowPartial, zipEntry) == Some(AfterGap(Entering(p, lines, k, allowPartial, zipEntry), c.value)))
  {
    ReachGood(p, lines, k, allowPartial, zipEntry);
    var st := Entering(p, lines, k, allowPartial, zipEntry);
    ChainVerdict(p, st, lines[k].json, "gap");
    if RecordCheck(p, st, lines[k].json).Accept? {
      AcceptedAt(p, lines, k, allowPartial, zipEntry);
    } else {
      RejectedAt(p, lines, k, allowPartial, zipEntry);
    }
  }
}
