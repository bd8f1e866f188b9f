/**
 * The draft evidence-pack verifier with resource limits (__LOCAL_NEW/src/verify_zip.js).
 *
 * The archive is given as what yauzl would report: `None` when it cannot be opened, otherwise
 * its entry descriptors in directory order. The per-entry NDJSON verification is the
 * parameter `verifyEntry`, reduced to the `is_authentic` flag of its result.
 *
 * The enumeration runs three circuit breakers in turn (entry count, compression ratio, total
 * declared size); the first that trips records one `E_ZIP_LIMIT` and ends the enumeration.
 * Then, in strict mode, each expected file that was not seen is reported, and the NDJSON
 * candidates are verified one by one, stopping in strict mode as soon as an error exists.
 */
module PackVerifier {
  import opened Wrappers
  import opened JsonValues
  import opened JsStrings
  import opened Errors

  datatype Mode = Strict | Tolerant

  /** What yauzl reports of an entry; a missing size is 0 (`|| 0`). */
  datatype EntryDesc = EntryDesc(fileName: string, compressedSize: nat, uncompressedSize: nat)

  /** `opts`, with `None` for a field that is absent or fails the source's type test:
      `Array.isArray`, `Number.isInteger`, `typeof 'number'`, `instanceof RegExp`. */
  datatype PackOptions = PackOptions(
    mode: Option<string>,
    expectedFiles: Option<seq<string>>,
    maxEntries: Option<int>,
    maxUncompressedBytes: Option<int>,
    maxCompressionRatio: Option<Ratio>,
    ndjsonPattern: Option<string -> bool>)

  /** A value with `typeof x === 'number'`: finite, an infinity, or NaN. */
  datatype Ratio = Finite(r: real) | Infinite(negative: bool) | NaN

  datatype Limits = Limits(maxEntries: int, maxUncompressedBytes: int, maxCompressionRatio: Ratio)

  function ModeOf(o: PackOptions): Mode {
    if o.mode == Some("tolerant") then Tolerant else Strict
  }

  function LimitsOf(o: PackOptions): Limits {
    Limits(o.maxEntries.GetOr(500), o.maxUncompressedBytes.GetOr(200_000_000), o.maxCompressionRatio.GetOr(Finite(200.0)))
  }

  /** The default pattern `/\.ndjson$/i`: without the `u` flag, case-insensitive matching
      never maps a non-ASCII character to an ASCII one, so it is ASCII case folding. */
  predicate DefaultPattern(name: string) {
    EndsWith(ToLowerAscii(name), ".ndjson")
  }

  function PatternOf(o: PackOptions): string -> bool {
    o.ndjsonPattern.GetOr(DefaultPattern)
  }

  predicate IsDirectory(name: string) {
    EndsWith(name, "/")
  }

  // ---------------------------------------------------------------------------------------
  // Issues

  function PackIssue(code: IssueCode, details: Option<Json>, message: string): (i: Issue)
    ensures i.code == CodeName(code) && i.severity == "error" && i.line == 0 && i.recordIndex == 0
    ensures i.details == details && i.message == Some(message) && i.h.None?
  {
    MakeIssue(code, Some("error"), 0, 0, None, details, Some(message))
  }

  function Num(n: int): Json {
    JNum(Int(n))
  }

  const OPEN_ISSUE: Issue := PackIssue(E_ZIP_OPEN, None, "failed to open zip")

  function MaxEntriesIssue(l: Limits): Issue {
    PackIssue(E_ZIP_LIMIT, Some(JObj([("reason", JStr("maxEntries")), ("maxEntries", Num(l.maxEntries))])),
              "zip exceeds maxEntries")
  }

  function RatioIssue(name: string, comp: nat, uncomp: nat): Issue {
    PackIssue(E_ZIP_LIMIT, Some(JObj([("reason", JStr("compressionRatio")), ("name", JStr(name)),
                                      ("compressedSize", Num(comp)), ("uncompressedSize", Num(uncomp))])),
              "zip entry exceeds maxCompressionRatio")
  }

  function TotalIssue(l: Limits): Issue {
    PackIssue(E_ZIP_LIMIT, Some(JObj([("reason", JStr("maxUncompressedBytes")),
                                      ("maxUncompressedBytes", Num(l.maxUncompressedBytes))])),
              "zip exceeds maxUncompressedBytes")
  }

  function MissingIssue(req: string): Issue {
    PackIssue(E_ZIP_EXPECTED_MISSING, Some(JObj([("missing", JStr(req))])), "expected file missing from zip")
  }

  function SchemaIssue(name: string): Issue {
    PackIssue(E_SCHEMA, Some(JObj([("entry", JStr(name))])), "ndjson entry failed verification")
  }

  // ---------------------------------------------------------------------------------------
  // Enumeration

  /** The locals the `entry` callback updates. */
  datatype ScanState = ScanState(count: nat, seen: set<string>, total: nat, names: seq<string>, skipped: nat)

  const INIT_SCAN: ScanState := ScanState(0, {}, 0, [], 0)

  /** The state after an entry, and the limit issue when it ended the enumeration. */
  datatype ScanOut = ScanOut(state: ScanState, stop: Option<Issue>)

  /** `uncomp / comp > ratio` for `comp > 0`, with the quotient taken exactly. The quotient is
      finite, so it exceeds -Infinity and never +Infinity, and no comparison with NaN holds. */
  predicate QuotientExceeds(uncomp: nat, comp: nat, ratio: Ratio)
    requires comp > 0
  {
    match ratio
    case Finite(r) => uncomp as real / comp as real > r
    case Infinite(negative) => negative
    case NaN => false
  }

  /** The ratio breaker, tried only for an entry with a positive compressed size. */
  predicate RatioExceeded(l: Limits, e: EntryDesc) {
    e.compressedSize > 0 && QuotientExceeds(e.uncompressedSize, e.compressedSize, l.maxCompressionRatio)
  }

  /** One call of the `entry` callback. */
  function ScanStep(l: Limits, pattern: string -> bool, st: ScanState, e: EntryDesc): ScanOut {
    var count := st.count + 1;
    if count > l.maxEntries then ScanOut(st.(count := count), Some(MaxEntriesIssue(l)))
    else
      var seen := st.seen + {e.fileName};
      if RatioExceeded(l, e) then
        ScanOut(st.(count := count, seen := seen), Some(RatioIssue(e.fileName, e.compressedSize, e.uncompressedSize)))
      else
        var total := st.total + e.uncompressedSize;
        if total > l.maxUncompressedBytes then
          ScanOut(st.(count := count, seen := seen, total := total), Some(TotalIssue(l)))
        else if IsDirectory(e.fileName) then
          ScanOut(ScanState(count, seen, total, st.names, st.skipped + 1), None)
        else
          ScanOut(ScanState(count, seen, total, st.names + (if pattern(e.fileName) then [e.fileName] else []), st.skipped), None)
  }

  /** The callbacks over the entries from `st` on, until one trips a limit. */
  function ScanFrom(l: Limits, pattern: string -> bool, es: seq<EntryDesc>, st: ScanState): ScanOut
    decreases |es|
  {
    if es == [] then ScanOut(st, None)
    else
      var o := ScanStep(l, pattern, st, es[0]);
      if o.stop.Some? then o else ScanFrom(l, pattern, es[1..], o.state)
  }

  /** The enumeration: entries are read one at a time until the end or a circuit breaker. */
  method ScanEntries(l: Limits, pattern: string -> bool, es: seq<EntryDesc>) returns (st: ScanState, stop: Option<Issue>)
    ensures ScanOut(st, stop) == ScanFrom(l, pattern, es, INIT_SCAN)
  {
    var entries: nat := 0;
    var seenNames: set<string> := {};
    var totalUncompressed: nat := 0;
    var ndjsonNames: seq<string> := [];
    var entriesSkipped: nat := 0;
    var i := 0;
    while i < |es|
      invariant 0 <= i <= |es|
      invariant ScanFrom(l, pattern, es, INIT_SCAN)
             == ScanFrom(l, pattern, es[i..], ScanState(entries, seenNames, totalUncompressed, ndjsonNames, entriesSkipped))
    {
      assert es[i..][0] == es[i] && es[i..][1..] == es[i + 1..];
      ghost var before := ScanState(entries, seenNames, totalUncompressed, ndjsonNames, entriesSkipped);
      var e := es[i];
      entries := entries + 1;
      if entries > l.maxEntries {
        return ScanState(entries, seenNames, totalUncompressed, ndjsonNames, entriesSkipped), Some(MaxEntriesIssue(l));
      }
      var name := e.fileName;
      seenNames := seenNames + {name};
      var comp := e.compressedSize;
      var uncomp := e.uncompressedSize;
      if comp > 0 && QuotientExceeds(uncomp, comp, l.maxCompressionRatio) {
        return ScanState(entries, seenNames, totalUncompressed, ndjsonNames, entriesSkipped), Some(RatioIssue(name, comp, uncomp));
      }
      totalUncompressed := totalUncompressed + uncomp;
      if totalUncompressed > l.maxUncompressedBytes {
        return ScanState(entries, seenNames, totalUncompressed, ndjsonNames, entriesSkipped), Some(TotalIssue(l));
      }
      if IsDirectory(name) {
        entriesSkipped := entriesSkipped + 1;
      } else if pattern(name) {
        ndjsonNames := ndjsonNames + [name];
      } else {
        assert ndjsonNames + [] == ndjsonNames;
      }
      assert ScanStep(l, pattern, before, e).state == ScanState(entries, seenNames, totalUncompressed, ndjsonNames, entriesSkipped);
      i := i + 1;
    }
    return ScanState(entries, seenNames, totalUncompressed, ndjsonNames, entriesSkipped), None;
  }

  // ---------------------------------------------------------------------------------------
  // Expected files

  /** The expected names not seen, in the order given, repeats included. */
  function MissingNames(expected: seq<string>, seen: set<string>): seq<string> {
    if expected == [] then []
    else (if expected[0] in seen then [] else [expected[0]]) + MissingNames(expected[1..], seen)
  }

  /** The expected-files loop: one `E_ZIP_EXPECTED_MISSING` per expected name not seen. */
  method CheckExpected(expected: seq<string>, seen: set<string>) returns (issues: seq<Issue>)
    ensures |issues| == |MissingNames(expected, seen)|
    ensures forall k :: 0 <= k < |issues| ==> issues[k] == MissingIssue(MissingNames(expected, seen)[k])
  {
    issues := [];
    ghost var missing: seq<string> := [];
    var i := 0;
    while i < |expected|
      invariant 0 <= i <= |expected|
      invariant missing == MissingNames(expected[..i], seen)
      invariant |issues| == |missing|
      invariant forall k :: 0 <= k < |issues| ==> issues[k] == MissingIssue(missing[k])
    {
      MissingNamesStep(expected, i, seen);
      if expected[i] !in seen {
        issues := issues + [MissingIssue(expected[i])];
        missing := missing + [expected[i]];
      } else {
        assert missing + [] == missing;
      }
      i := i + 1;
    }
    assert expected[..i] == expected;
  }

  lemma {:induction false} MissingNamesAppend(a: seq<string>, b: seq<string>, seen: set<string>)
    ensures MissingNames(a + b, seen) == MissingNames(a, seen) + MissingNames(b, seen)
  {
    if a != [] {
      assert (a + b)[1..] == a[1..] + b;
      MissingNamesAppend(a[1..], b, seen);
    } else {
      assert a + b == b;
    }
  }

  lemma MissingNamesStep(expected: seq<string>, i: nat, seen: set<string>)
    requires i < |expected|
    ensures MissingNames(expected[..i + 1], seen) == MissingNames(expected[..i], seen) + (if expected[i] in seen then [] else [expected[i]])
  {
    assert expected[..i + 1] == expected[..i] + [expected[i]];
    MissingNamesAppend(expected[..i], [expected[i]], seen);
    assert MissingNames([expected[i]], seen) == (if expected[i] in seen then [] else [expected[i]]) by {
      assert [expected[i]][1..] == [];
    }
  }

  /** A name is reported missing exactly when it is expected and was not seen. */
  lemma {:induction false} MissingNamesSpec(expected: seq<string>, seen: set<string>)
    ensures forall x :: x in MissingNames(expected, seen) <==> x in expected && x !in seen
  {
    if expected != [] {
      MissingNamesSpec(expected[1..], seen);
      assert expected == [expected[0]] + expected[1..];
    }
  }

  // ---------------------------------------------------------------------------------------
  // Verification of the candidates

  /** `{ name, result }`, with the result reduced to its `is_authentic`. */
  datatype Artifact = Artifact(name: string, authentic: bool)

  datatype VerifyOut = VerifyOut(artifacts: seq<Artifact>, errors: seq<Issue>)

  /** The verification loop from the `names` left, with the errors so far. */
  function VerifyFrom(mode: Mode, names: seq<string>, verifyEntry: string -> bool, artifacts: seq<Artifact>, errors: seq<Issue>): VerifyOut
    decreases |names|
  {
    if names == [] || (errors != [] && mode == Strict) then VerifyOut(artifacts, errors)
    else
      var a := Artifact(names[0], verifyEntry(names[0]));
      var errors' := if !a.authentic && mode == Strict then errors + [SchemaIssue(a.name)] else errors;
      VerifyFrom(mode, names[1..], verifyEntry, artifacts + [a], errors')
  }

  method VerifyCandidates(mode: Mode, names: seq<string>, verifyEntry: string -> bool, errors0: seq<Issue>)
    returns (artifacts: seq<Artifact>, errors: seq<Issue>)
    ensures VerifyOut(artifacts, errors) == VerifyFrom(mode, names, verifyEntry, [], errors0)
  {
    artifacts := [];
    errors := errors0;
    var i := 0;
    while i < |names|
      invariant 0 <= i <= |names|
      invariant VerifyFrom(mode, names, verifyEntry, [], errors0) == VerifyFrom(mode, names[i..], verifyEntry, artifacts, errors)
    {
      assert names[i..][0] == names[i] && names[i..][1..] == names[i + 1..];
      if |errors| > 0 && mode == Strict {
        break;
      }
      var name := names[i];
      var authentic := verifyEntry(name);
      artifacts := artifacts + [Artifact(name, authentic)];
      if !authentic && mode == Strict {
        errors := errors + [SchemaIssue(name)];
      }
      i := i + 1;
    }
  }

  // ---------------------------------------------------------------------------------------
  // The pack result

  datatype PackZip = PackZip(entriesVerified: nat, entriesSkipped: nat, limitsApplied: Limits)

  datatype PackResult = PackResult(
    isAuthentic: bool, mode: Mode, zip: PackZip, artifacts: seq<Artifact>, errors: seq<Issue>, warnings: seq<Issue>)

  /** `finalizePack(packRes)`: authentic exactly when there are no errors and no artifact is
      inauthentic; nothing else changes. */
  function FinalizePack(r: PackResult): (f: PackResult)
    ensures f.isAuthentic <==> r.errors == [] && forall k :: 0 <= k < |r.artifacts| ==> r.artifacts[k].authentic
    ensures f == r.(isAuthentic := f.isAuthentic)
  {
    r.(isAuthentic := r.errors == [] && !(exists k :: 0 <= k < |r.artifacts| && !r.artifacts[k].authentic))
  }

  /** `verifyZipEvidencePack(zipInput, opts)`: the result it resolves to. */
  function PackSpec(o: PackOptions, archive: Option<seq<EntryDesc>>, verifyEntry: string -> bool): PackResult {
    var mode, l := ModeOf(o), LimitsOf(o);
    var base := PackResult(false, mode, PackZip(0, 0, l), [], [], []);
    if archive.None? then FinalizePack(base.(errors := [OPEN_ISSUE]))
    else
      var scan := ScanFrom(l, PatternOf(o), archive.value, INIT_SCAN);
      var limitErrors := if scan.stop.Some? then [scan.stop.value] else [];
      var missing := if o.expectedFiles.Some? && mode == Strict then MissingIssues(o.expectedFiles.value, scan.state.seen) else [];
      var v := VerifyFrom(mode, scan.state.names, verifyEntry, [], limitErrors + missing);
      FinalizePack(PackResult(false, mode, PackZip(|v.artifacts|, scan.state.skipped, l), v.artifacts, v.errors, []))
  }

  function MissingIssues(expected: seq<string>, seen: set<string>): (r: seq<Issue>)
    ensures |r| == |MissingNames(expected, seen)|
    ensures forall k :: 0 <= k < |r| ==> r[k] == MissingIssue(MissingNames(expected, seen)[k])
  {
    var names := MissingNames(expected, seen);
    seq(|names|, k requires 0 <= k < |names| => MissingIssue(names[k]))
  }

  /** `verifyZipEvidencePack(zipInput, opts)`. */
  method VerifyZipEvidencePack(o: PackOptions, archive: Option<seq<EntryDesc>>, verifyEntry: string -> bool) returns (r: PackResult)
    ensures r == PackSpec(o, archive, verifyEntry)
  {
    var mode := ModeOf(o);
    var limits := LimitsOf(o);
    var pattern := PatternOf(o);
    var packRes := PackResult(false, mode, PackZip(0, 0, limits), [], [], []);
    if archive.None? {
      packRes := packRes.(errors := packRes.errors + [OPEN_ISSUE]);
      return FinalizePack(packRes);
    }
    var scan, stop := ScanEntries(limits, pattern, archive.value);
    var errors := if stop.Some? then [stop.value] else [];
    if o.expectedFiles.Some? && mode == Strict {
      var missing := CheckExpected(o.expectedFiles.value, scan.seen);
      assert missing == MissingIssues(o.expectedFiles.value, scan.seen);
      errors := errors + missing;
    } else {
      assert errors + [] == errors;
    }
    var artifacts;
    artifacts, errors := VerifyCandidates(mode, scan.names, verifyEntry, errors);
    packRes := PackResult(false, mode, PackZip(|artifacts|, scan.skipped, limits), artifacts, errors, []);
    return FinalizePack(packRes);
  }
}
