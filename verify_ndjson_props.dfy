/**
 * Properties of the NDJSON stream verifier.
 *
 * `Reach(k)` is the state of the loop before line `k` (0-based), or `None` when the loop
 * stopped earlier. `Good` is the invariant every reachable state satisfies: counters equal
 * the counts of accepted records in the prefix, the chain value is the fold of `chainHash`
 * over the prefix's segments and gaps, and at most one seal has been accepted. The outcome
 * lemmas below are stated about `Verify`, the specification of `VerifyNdjsonStream`.
 */
module VerifyNdjsonProps {
  import opened Wrappers
  import opened JsonValues
  import opened StableStringify
  import opened AuditChain
  import opened VerifyNdjson

  // ---------------------------------------------------------------------------------------
  // Reachable states

  function Reach(p: Primitives, lines: seq<Line>, k: nat, allowPartial: bool, zipEntry: Option<string>): Option<State>
    requires k <= |lines|
    decreases k, 0
  {
    if k == 0 then Some(InitState(zipEntry)) else After(p, lines, k - 1, allowPartial, zipEntry)
  }

  /** The state after line `j`, when the loop gets past it. */
  function After(p: Primitives, lines: seq<Line>, j: nat, allowPartial: bool, zipEntry: Option<string>): Option<State>
    requires j < |lines|
    decreases j, 1
  {
    match Reach(p, lines, j, allowPartial, zipEntry)
    case None => None
    case Some(st) =>
      match Advance(p, lines, j, st, allowPartial, zipEntry)
      case Stop(_) => None
      case Continue(next) => Some(next)
  }


  /** From a reachable state the walk finishes as the whole verification does. */
  lemma {:induction false} ReachGo(p: Primitives, lines: seq<Line>, k: nat, allowPartial: bool, zipEntry: Option<string>)
    requires k <= |lines| && Reach(p, lines, k, allowPartial, zipEntry).Some?
    ensures Go(p, lines, k, Reach(p, lines, k, allowPartial, zipEntry).value, allowPartial, zipEntry)
            == Verify(p, lines, allowPartial, zipEntry)
  {
    if k > 0 {
      ReachGo(p, lines, k - 1, allowPartial, zipEntry);
    }
  }

  /** A stop at a reachable line is the verification's result. */
  lemma StopAt(p: Primitives, lines: seq<Line>, k: nat, allowPartial: bool, zipEntry: Option<string>)
    requires k < |lines| && Reach(p, lines, k, allowPartial, zipEntry).Some?
    requires Step(p, Reach(p, lines, k, allowPartial, zipEntry).value, lines[k], HasMoreNonBlank(lines[k + 1..]), allowPartial, zipEntry).Stop?
    ensures Verify(p, lines, allowPartial, zipEntry)
            == Step(p, Reach(p, lines, k, allowPartial, zipEntry).value, lines[k], HasMoreNonBlank(lines[k + 1..]), allowPartial, zipEntry).result
  {
    ReachGo(p, lines, k, allowPartial, zipEntry);
  }

  /** Reaching the end of the lines means `Finish` decides. */
  lemma EndAt(p: Primitives, lines: seq<Line>, allowPartial: bool, zipEntry: Option<string>)
    requires Reach(p, lines, |lines|, allowPartial, zipEntry).Some?
    ensures Verify(p, lines, allowPartial, zipEntry) == Finish(Reach(p, lines, |lines|, allowPartial, zipEntry).value, allowPartial, zipEntry)
  {
    ReachGo(p, lines, |lines|, allowPartial, zipEntry);
  }

  // ---------------------------------------------------------------------------------------
  // Accepted records

  /** A record accepted while the run is expected: it is a run record with a non-empty
      `run_id`, and the state becomes active with `prev_ch` at the root. */
  lemma RunAccepted(p: Primitives, st: State, rec: Json, text: string, zipEntry: Option<string>)
    requires st.phase.ExpectRun?
    requires RecordStep(p, st, rec, text, zipEntry).Continue?
    ensures rec.JObj? && CheckOptionalV(rec) && Get(rec, "type") == Some(JStr("run")) && IsNonEmptyString(Get(rec, "run_id"))
    ensures var runId := Get(rec, "run_id").value.s;
            var root := AuditRootHash(p, runId);
            RecordStep(p, st, rec, text, zipEntry).next
            == st.(phase := Active(runId, root, root),
                   res := st.res.(runId := Some(runId), rootCh := Some(root), recordsTotal := st.res.recordsTotal + 1))
  {
  }

  /** The type of a parsed record, when it is a string. */
  function TypeOf(l: Line): Option<string> {
    if l.Parsed? && IsString(Get(l.json, "type")) then Some(Get(l.json, "type").value.s) else None
  }

  /** The state after an accepted segment. */
  function AfterSegment(st: State, ch: string): State
    requires st.phase.Active?
  {
    st.(phase := st.phase.(prevCh := ch), res := st.res.(segments := st.res.segments + 1, recordsTotal := st.res.recordsTotal + 1))
  }

  /** The state after an accepted gap. */
  function AfterGap(st: State, ch: string): State
    requires st.phase.Active?
  {
    st.(phase := st.phase.(prevCh := ch), res := st.res.(gaps := st.res.gaps + 1, recordsTotal := st.res.recordsTotal + 1))
  }

  /** The state after an accepted seal. */
  function AfterSeal(st: State): State
    requires st.phase.Active?
  {
    st.(seenSeal := true,
        res := st.res.(algo := JStr(AUDIT_HASH_ALGO), seal := true, terminalCh := Some(st.phase.prevCh),
                       recordsTotal := st.res.recordsTotal + 1))
  }

  /** After the run record, a well-formed record with a string type goes to the chain checks. */
  lemma ChainVerdict(p: Primitives, st: State, rec: Json, t: string)
    requires st.phase.Active? && rec.JObj? && CheckOptionalV(rec) && Get(rec, "type") == Some(JStr(t))
    ensures RecordCheck(p, st, rec) == ChainStep(p, st, rec, t)
  {
  }

  /** A seal with every required field and matching bindings moves to `AfterSeal`. */
  lemma SealAcceptedState(st: State, rec: Json)
    requires st.phase.Active?
    requires FirstMissing(rec, SEAL_REQUIRED).None? && SealBinding(rec, st.phase.rootCh, st.phase.prevCh).None?
    ensures SealStep(st, rec, st.phase.rootCh, st.phase.prevCh) == Accept(AfterSeal(st))
  {
  }

  lemma TraceAccepted(p: Primitives, st: State, rec: Json, text: string, zipEntry: Option<string>)
    requires st.phase.Active? && rec.JObj? && CheckOptionalV(rec) && Get(rec, "type") == Some(JStr("trace"))
    ensures RecordStep(p, st, rec, text, zipEntry) == Continue(st.(seenTrace := true, res := st.res.(recordsTotal := st.res.recordsTotal + 1)))
  {
    assert RecordCheck(p, st, rec) == ChainStep(p, st, rec, "trace");
  }

  lemma SegmentAccepted(p: Primitives, st: State, rec: Json, text: string, zipEntry: Option<string>)
    requires st.phase.Active? && rec.JObj? && CheckOptionalV(rec) && Get(rec, "type") == Some(JStr("segment"))
    requires RecordStep(p, st, rec, text, zipEntry).Continue?
    ensures !st.seenTrace && !st.seenSeal
    ensures CheckSegment(p, rec, st.phase.runId, st.phase.prevCh).Ok?
    ensures RecordStep(p, st, rec, text, zipEntry).next == AfterSegment(st, CheckSegment(p, rec, st.phase.runId, st.phase.prevCh).value)
  {
  }

  lemma GapAccepted(p: Primitives, st: State, rec: Json, text: string, zipEntry: Option<string>)
    requires st.phase.Active? && rec.JObj? && CheckOptionalV(rec) && Get(rec, "type") == Some(JStr("gap"))
    requires RecordStep(p, st, rec, text, zipEntry).Continue?
    ensures !st.seenTrace && !st.seenSeal
    ensures CheckGap(p, rec, st.phase.prevCh).Ok?
    ensures RecordStep(p, st, rec, text, zipEntry).next == AfterGap(st, CheckGap(p, rec, st.phase.prevCh).value)
  {
  }

  lemma SealAccepted(p: Primitives, st: State, rec: Json, text: string, zipEntry: Option<string>)
    requires st.phase.Active? && rec.JObj? && CheckOptionalV(rec) && Get(rec, "type") == Some(JStr("seal"))
    requires RecordStep(p, st, rec, text, zipEntry).Continue?
    ensures !st.seenTrace && !st.seenSeal
    ensures SealBinding(rec, st.phase.rootCh, st.phase.prevCh).None?
    ensures RecordStep(p, st, rec, text, zipEntry).next == AfterSeal(st)
  {
    assert FirstMissing(rec, SEAL_REQUIRED).None?;
  }

  /** A record accepted after the run record is a trace, segment, gap or seal. */
  lemma ChainAccepted(p: Primitives, st: State, rec: Json, text: string, zipEntry: Option<string>)
    requires st.phase.Active?
    requires RecordStep(p, st, rec, text, zipEntry).Continue?
    ensures rec.JObj? && CheckOptionalV(rec) && IsString(Get(rec, "type"))
    ensures Get(rec, "type").value.s in {"trace", "segment", "gap", "seal"}
  {
  }

  // ---------------------------------------------------------------------------------------
  // The invariant of reachable states

  predicate AllBlank(ls: seq<Line>) {
    forall j :: 0 <= j < |ls| ==> ls[j].Blank?
  }

  /** The number of parsed lines whose type is `t`. */
  function CountType(ls: seq<Line>, t: string): nat {
    if ls == [] then 0
    else CountType(ls[..|ls| - 1], t) + (if TypeOf(ls[|ls| - 1]) == Some(t) then 1 else 0)
  }

  /** The number of parsed lines. */
  function CountRecords(ls: seq<Line>): nat {
    if ls == [] then 0
    else CountRecords(ls[..|ls| - 1]) + (if ls[|ls| - 1].Parsed? then 1 else 0)
  }

  /** The hash a segment or gap line is linked with: `segmentHash(canonicalSegmentBody(seg))`
      or `gapHash({seg_id_start, seg_id_end, reason_code})`. */
  function LineHash(p: Primitives, l: Line): Option<string> {
    if TypeOf(l) == Some("segment") then
      var seg := Get(l.json, "seg");
      if seg.Some? && seg.value != JNull then Some(SegmentHash(p, CanonicalSegmentBody(seg.value))) else None
    else if TypeOf(l) == Some("gap") then Some(ExpectedGapHash(p, l.json))
    else None
  }

  /** `chainHash` folded over the segment and gap lines, from `root`. */
  function ChainFold(p: Primitives, root: string, ls: seq<Line>): string {
    if ls == [] then root
    else
      var prev := ChainFold(p, root, ls[..|ls| - 1]);
      match LineHash(p, ls[|ls| - 1])
      case None => prev
      case Some(h) => ChainHash(p, prev, h)
  }

  /** The failure context of a result; unchanged until the first failure. */
  function Context(r: VerifyResult): (Status, Option<Reason>, Option<nat>, Json, Option<string>, Option<seq<int>>, Option<string>) {
    (r.status, r.reasonCode, r.failureLine, r.failureRecordType, r.missingField, r.snippet, r.zipEntry)
  }

  predicate Good(p: Primitives, lines: seq<Line>, k: nat, st: State, zipEntry: Option<string>)
    requires k <= |lines|
  {
    var pre := lines[..k];
    && st.lineNo == k
    && (st.seenAny <==> !AllBlank(pre))
    && (st.phase.ExpectRun? <==> AllBlank(pre))
    && Context(st.res) == Context(ResultBase(zipEntry))
    && st.res.recordsTotal == CountRecords(pre)
    && st.res.segments == CountType(pre, "segment")
    && st.res.gaps == CountType(pre, "gap")
    && (st.seenTrace <==> CountType(pre, "trace") > 0)
    && (st.seenSeal <==> CountType(pre, "seal") > 0)
    && CountType(pre, "seal") <= 1
    && st.res.seal == st.seenSeal
    && st.res.algo == (if st.seenSeal then JStr(AUDIT_HASH_ALGO) else JNull)
    && (st.phase.ExpectRun? ==> st.res.runId.None? && st.res.rootCh.None? && st.res.terminalCh.None?)
    && (st.phase.Active? ==>
          && st.res.runId == Some(st.phase.runId)
          && st.res.rootCh == Some(st.phase.rootCh)
          && st.phase.rootCh == AuditRootHash(p, st.phase.runId)
          && st.phase.prevCh == ChainFold(p, st.phase.rootCh, pre)
          && st.res.terminalCh == (if st.seenSeal then Some(st.phase.prevCh) else None))
  }

  lemma PrefixExtend(lines: seq<Line>, k: nat)
    requires k < |lines|
    ensures lines[..k + 1][..k] == lines[..k] && lines[..k + 1][k] == lines[k] && |lines[..k + 1]| == k + 1
  {
  }

  lemma {:induction false} CountsOfBlank(p: Primitives, root: string, ls: seq<Line>, t: string)
    requires AllBlank(ls)
    ensures CountType(ls, t) == 0 && CountRecords(ls) == 0 && ChainFold(p, root, ls) == root
  {
    if ls != [] {
      CountsOfBlank(p, root, ls[..|ls| - 1], t);
    }
  }

  lemma InitGood(p: Primitives, lines: seq<Line>, zipEntry: Option<string>)
    ensures Good(p, lines, 0, InitState(zipEntry), zipEntry)
  {
    assert lines[..0] == [];
  }

  /** How a type count grows by one line. */
  lemma CountTypeExtend(lines: seq<Line>, k: nat, t: string)
    requires k < |lines|
    ensures CountType(lines[..k + 1], t) == CountType(lines[..k], t) + (if TypeOf(lines[k]) == Some(t) then 1 else 0)
  {
    PrefixExtend(lines, k);
  }

  /** How the record count grows by one line. */
  lemma CountRecordsExtend(lines: seq<Line>, k: nat)
    requires k < |lines|
    ensures CountRecords(lines[..k + 1]) == CountRecords(lines[..k]) + (if lines[k].Parsed? then 1 else 0)
  {
    PrefixExtend(lines, k);
  }

  /** How the chain fold grows by one line. */
  lemma ChainFoldExtend(p: Primitives, root: string, lines: seq<Line>, k: nat)
    requires k < |lines|
    ensures ChainFold(p, root, lines[..k + 1])
            == (if LineHash(p, lines[k]).Some? then ChainHash(p, ChainFold(p, root, lines[..k]), LineHash(p, lines[k]).value)
                else ChainFold(p, root, lines[..k]))
  {
    PrefixExtend(lines, k);
  }

  /** How the prefix measures grow by one line. */
  lemma CountsExtend(p: Primitives, root: string, lines: seq<Line>, k: nat)
    requires k < |lines|
    ensures CountType(lines[..k + 1], "segment") == CountType(lines[..k], "segment") + (if TypeOf(lines[k]) == Some("segment") then 1 else 0)
    ensures CountType(lines[..k + 1], "gap") == CountType(lines[..k], "gap") + (if TypeOf(lines[k]) == Some("gap") then 1 else 0)
    ensures CountType(lines[..k + 1], "trace") == CountType(lines[..k], "trace") + (if TypeOf(lines[k]) == Some("trace") then 1 else 0)
    ensures CountType(lines[..k + 1], "seal") == CountType(lines[..k], "seal") + (if TypeOf(lines[k]) == Some("seal") then 1 else 0)
    ensures CountRecords(lines[..k + 1]) == CountRecords(lines[..k]) + (if lines[k].Parsed? then 1 else 0)
    ensures ChainFold(p, root, lines[..k + 1])
            == (if LineHash(p, lines[k]).Some? then ChainHash(p, ChainFold(p, root, lines[..k]), LineHash(p, lines[k]).value)
                else ChainFold(p, root, lines[..k]))
    ensures AllBlank(lines[..k + 1]) <==> AllBlank(lines[..k]) && lines[k].Blank?
  {
    CountTypeExtend(lines, k, "segment");
    CountTypeExtend(lines, k, "gap");
    CountTypeExtend(lines, k, "trace");
    CountTypeExtend(lines, k, "seal");
    CountRecordsExtend(lines, k);
    ChainFoldExtend(p, root, lines, k);
    PrefixExtend(lines, k);
    assert forall j :: 0 <= j < k ==> lines[..k + 1][j] == lines[..k][j];
  }

  lemma GoodAfterBlank(p: Primitives, lines: seq<Line>, k: nat, st: State, zipEntry: Option<string>)
    requires k < |lines| && lines[k].Blank? && Good(p, lines, k, st, zipEntry)
    ensures Good(p, lines, k + 1, st.(lineNo := st.lineNo + 1), zipEntry)
  {
    CountsExtend(p, if st.phase.Active? then st.phase.rootCh else "", lines, k);
  }

  lemma GoodAfterRun(p: Primitives, lines: seq<Line>, k: nat, st: State, runId: string, zipEntry: Option<string>)
    requires k < |lines| && lines[k].Parsed? && TypeOf(lines[k]) == Some("run") && Good(p, lines, k, st, zipEntry)
    requires st.phase.ExpectRun?
    ensures var root := AuditRootHash(p, runId);
            Good(p, lines, k + 1,
                 st.(lineNo := st.lineNo + 1, seenAny := true, phase := Active(runId, root, root),
                     res := st.res.(runId := Some(runId), rootCh := Some(root), recordsTotal := st.res.recordsTotal + 1)),
                 zipEntry)
  {
    var root := AuditRootHash(p, runId);
    CountsExtend(p, root, lines, k);
    CountsOfBlank(p, root, lines[..k], "segment");
    CountsOfBlank(p, root, lines[..k], "gap");
    CountsOfBlank(p, root, lines[..k], "trace");
    CountsOfBlank(p, root, lines[..k], "seal");
  }

  lemma GoodAfterTrace(p: Primitives, lines: seq<Line>, k: nat, st: State, zipEntry: Option<string>)
    requires k < |lines| && lines[k].Parsed? && TypeOf(lines[k]) == Some("trace") && Good(p, lines, k, st, zipEntry)
    requires st.phase.Active?
    ensures Good(p, lines, k + 1,
                 st.(lineNo := st.lineNo + 1, seenAny := true, seenTrace := true, res := st.res.(recordsTotal := st.res.recordsTotal + 1)),
                 zipEntry)
  {
    CountsExtend(p, st.phase.rootCh, lines, k);
    assert LineHash(p, lines[k]).None?;
    assert !AllBlank(lines[..k]);
  }

  lemma GoodAfterSegment(p: Primitives, lines: seq<Line>, k: nat, st: State, zipEntry: Option<string>)
    requires k < |lines| && lines[k].Parsed? && TypeOf(lines[k]) == Some("segment") && Good(p, lines, k, st, zipEntry)
    requires st.phase.Active? && !st.seenSeal
    requires CheckSegment(p, lines[k].json, st.phase.runId, st.phase.prevCh).Ok?
    ensures Good(p, lines, k + 1,
                 AfterSegment(Entered(st), CheckSegment(p, lines[k].json, st.phase.runId, st.phase.prevCh).value),
                 zipEntry)
  {
    CountsExtend(p, st.phase.rootCh, lines, k);
  }

  lemma GoodAfterGap(p: Primitives, lines: seq<Line>, k: nat, st: State, zipEntry: Option<string>)
    requires k < |lines| && lines[k].Parsed? && TypeOf(lines[k]) == Some("gap") && Good(p, lines, k, st, zipEntry)
    requires st.phase.Active? && !st.seenSeal
    requires CheckGap(p, lines[k].json, st.phase.prevCh).Ok?
    ensures Good(p, lines, k + 1,
                 AfterGap(Entered(st), CheckGap(p, lines[k].json, st.phase.prevCh).value),
                 zipEntry)
  {
    CountsExtend(p, st.phase.rootCh, lines, k);
  }

  lemma GoodAfterSeal(p: Primitives, lines: seq<Line>, k: nat, st: State, zipEntry: Option<string>)
    requires k < |lines| && lines[k].Parsed? && TypeOf(lines[k]) == Some("seal") && Good(p, lines, k, st, zipEntry)
    requires st.phase.Active? && !st.seenSeal
    ensures Good(p, lines, k + 1, AfterSeal(Entered(st)), zipEntry)
  {
    CountsExtend(p, st.phase.rootCh, lines, k);
  }

  /** The invariant survives a record accepted after the run record. */
  lemma GoodAfterChainRecord(p: Primitives, lines: seq<Line>, k: nat, st: State, zipEntry: Option<string>)
    requires k < |lines| && Good(p, lines, k, st, zipEntry) && lines[k].Parsed? && st.phase.Active?
    requires RecordStep(p, Entered(st), lines[k].json, lines[k].text, zipEntry).Continue?
    ensures Good(p, lines, k + 1, RecordStep(p, Entered(st), lines[k].json, lines[k].text, zipEntry).next, zipEntry)
  {
    var Parsed(rec, text) := lines[k];
    var s1 := Entered(st);
    ChainAccepted(p, s1, rec, text, zipEntry);
    var t := Get(rec, "type").value.s;
    if t == "trace" {
      TraceAccepted(p, s1, rec, text, zipEntry);
      GoodAfterTrace(p, lines, k, st, zipEntry);
    } else if t == "segment" {
      SegmentAccepted(p, s1, rec, text, zipEntry);
      GoodAfterSegment(p, lines, k, st, zipEntry);
    } else if t == "gap" {
      GapAccepted(p, s1, rec, text, zipEntry);
      GoodAfterGap(p, lines, k, st, zipEntry);
    } else {
      SealAccepted(p, s1, rec, text, zipEntry);
      GoodAfterSeal(p, lines, k, st, zipEntry);
    }
  }

  lemma GoodStep(p: Primitives, lines: seq<Line>, k: nat, st: State, allowPartial: bool, zipEntry: Option<string>)
    requires k < |lines| && Good(p, lines, k, st, zipEntry)
    requires Step(p, st, lines[k], HasMoreNonBlank(lines[k + 1..]), allowPartial, zipEntry).Continue?
    ensures Good(p, lines, k + 1, Step(p, st, lines[k], HasMoreNonBlank(lines[k + 1..]), allowPartial, zipEntry).next, zipEntry)
  {
    var o := Step(p, st, lines[k], HasMoreNonBlank(lines[k + 1..]), allowPartial, zipEntry);
    match lines[k]
    case Blank =>
      GoodAfterBlank(p, lines, k, st, zipEntry);
    case Parsed(rec, text) =>
      var s1 := Entered(st);
      assert o == RecordStep(p, s1, rec, text, zipEntry);
      if st.phase.ExpectRun? {
        RunAccepted(p, s1, rec, text, zipEntry);
        GoodAfterRun(p, lines, k, st, Get(rec, "run_id").value.s, zipEntry);
      } else {
        GoodAfterChainRecord(p, lines, k, st, zipEntry);
      }
  }

  /** Every reachable state satisfies the invariant. */
  lemma {:induction false} ReachGood(p: Primitives, lines: seq<Line>, k: nat, allowPartial: bool, zipEntry: Option<string>)
    requires k <= |lines| && Reach(p, lines, k, allowPartial, zipEntry).Some?
    ensures Good(p, lines, k, Reach(p, lines, k, allowPartial, zipEntry).value, zipEntry)
  {
    if k == 0 {
      InitGood(p, lines, zipEntry);
    } else {
      var j := k - 1;
      ReachPrevious(p, lines, j, allowPartial, zipEntry);
      var prev := Reach(p, lines, j, allowPartial, zipEntry).value;
      ReachGood(p, lines, j, allowPartial, zipEntry);
      GoodStep(p, lines, j, prev, allowPartial, zipEntry);
      assert Reach(p, lines, k, allowPartial, zipEntry).value
          == Step(p, prev, lines[j], HasMoreNonBlank(lines[j + 1..]), allowPartial, zipEntry).next;
    }
  }

  /** A state reachable after line `j` comes from a reachable state whose step at `j`
      continues. */
  lemma ReachPrevious(p: Primitives, lines: seq<Line>, j: nat, allowPartial: bool, zipEntry: Option<string>)
    requires j < |lines| && Reach(p, lines, j + 1, allowPartial, zipEntry).Some?
    ensures Reach(p, lines, j, allowPartial, zipEntry).Some?
    ensures var o := Step(p, Reach(p, lines, j, allowPartial, zipEntry).value, lines[j], HasMoreNonBlank(lines[j + 1..]), allowPartial, zipEntry);
            o.Continue? && Reach(p, lines, j + 1, allowPartial, zipEntry).value == o.next
  {
  }

  /** The part of the invariant most outcome lemmas need: the line count and the untouched
      failure context. */
  lemma ReachBasics(p: Primitives, lines: seq<Line>, k: nat, allowPartial: bool, zipEntry: Option<string>)
    requires k <= |lines| && Reach(p, lines, k, allowPartial, zipEntry).Some?
    ensures var st := Reach(p, lines, k, allowPartial, zipEntry).value;
            st.lineNo == k && Context(st.res) == Context(ResultBase(zipEntry))
  {
    ReachGood(p, lines, k, allowPartial, zipEntry);
  }
}
