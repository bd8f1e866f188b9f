/**
 * Issue codes and issue records (src/errors.js).
 *
 * `ISSUE` is a frozen table whose every value is its own name; here the names are the
 * constructors of `IssueCode` and `CodeName` gives the string value. `makeIssue` builds a
 * plain object whose `h`, `details` and `message` properties exist only when supplied;
 * `Issue` holds the same information and `IssueJson` renders the object.
 */
module Errors {
  import opened Wrappers
  import opened JsonValues

  datatype IssueCode =
    | E_EMPTY_EXPORT | E_RUN_LINE_PARSE | E_MISSING_RUN_LINE | E_MISSING_RUN_ID | E_JSON_PARSE
    | E_LINE_TOO_LONG | E_SCHEMA | E_UNKNOWN_TYPE
    | E_SEGMENT_AFTER_TRACE | E_AFTER_SEAL_NON_TRACE
    | E_SEGMENT_MISSING_SEG | E_SEGMENT_MISSING_HASH_FIELDS | E_SEGMENT_HASH_MISMATCH
    | E_GAP_MISSING_RANGE | E_GAP_MISSING_REASON_CODE | E_GAP_MISSING_HASH_FIELDS
    | E_GAP_HASH_MISMATCH | E_GAP_REASON_UNKNOWN
    | E_CHAIN_HASH_MISMATCH
    | E_UNSUPPORTED_ALGO | E_ROOT_MISMATCH | E_TERMINAL_MISMATCH | E_MISSING_SEAL_LINE
    | E_ORDERING | E_PARENT_MISMATCH | E_HASH_MISMATCH
    | E_ZIP_OPEN | E_ZIP_LIMIT | E_ZIP_EXPECTED_MISSING

  /** The value of each `ISSUE` constant. */
  function CodeName(c: IssueCode): string {
    match c
    case E_EMPTY_EXPORT => "E_EMPTY_EXPORT"
    case E_RUN_LINE_PARSE => "E_RUN_LINE_PARSE"
    case E_MISSING_RUN_LINE => "E_MISSING_RUN_LINE"
    case E_MISSING_RUN_ID => "E_MISSING_RUN_ID"
    case E_JSON_PARSE => "E_JSON_PARSE"
    case E_LINE_TOO_LONG => "E_LINE_TOO_LONG"
    case E_SCHEMA => "E_SCHEMA"
    case E_UNKNOWN_TYPE => "E_UNKNOWN_TYPE"
    case E_SEGMENT_AFTER_TRACE => "E_SEGMENT_AFTER_TRACE"
    case E_AFTER_SEAL_NON_TRACE => "E_AFTER_SEAL_NON_TRACE"
    case E_SEGMENT_MISSING_SEG => "E_SEGMENT_MISSING_SEG"
    case E_SEGMENT_MISSING_HASH_FIELDS => "E_SEGMENT_MISSING_HASH_FIELDS"
    case E_SEGMENT_HASH_MISMATCH => "E_SEGMENT_HASH_MISMATCH"
    case E_GAP_MISSING_RANGE => "E_GAP_MISSING_RANGE"
    case E_GAP_MISSING_REASON_CODE => "E_GAP_MISSING_REASON_CODE"
    case E_GAP_MISSING_HASH_FIELDS => "E_GAP_MISSING_HASH_FIELDS"
    case E_GAP_HASH_MISMATCH => "E_GAP_HASH_MISMATCH"
    case E_GAP_REASON_UNKNOWN => "E_GAP_REASON_UNKNOWN"
    case E_CHAIN_HASH_MISMATCH => "E_CHAIN_HASH_MISMATCH"
    case E_UNSUPPORTED_ALGO => "E_UNSUPPORTED_ALGO"
    case E_ROOT_MISMATCH => "E_ROOT_MISMATCH"
    case E_TERMINAL_MISMATCH => "E_TERMINAL_MISMATCH"
    case E_MISSING_SEAL_LINE => "E_MISSING_SEAL_LINE"
    case E_ORDERING => "E_ORDERING"
    case E_PARENT_MISMATCH => "E_PARENT_MISMATCH"
    case E_HASH_MISMATCH => "E_HASH_MISMATCH"
    case E_ZIP_OPEN => "E_ZIP_OPEN"
    case E_ZIP_LIMIT => "E_ZIP_LIMIT"
    case E_ZIP_EXPECTED_MISSING => "E_ZIP_EXPECTED_MISSING"
  }

  /** The information in an issue object; `None` marks a property that is absent. */
  datatype Issue = Issue(
    code: string,
    severity: string,
    line: int,
    recordIndex: int,
    h: Option<string>,
    details: Option<Json>,
    message: Option<string>)

  /** `makeIssue({code, severity, line, record_index, h, details, message})`, with `None`
      for an argument left `undefined`. */
  function MakeIssue(code: IssueCode, severity: Option<string>, line: int, recordIndex: int,
                     h: Option<string>, details: Option<Json>, message: Option<string>): (r: Issue)
    ensures severity.None? ==> r.severity == "error"
    ensures severity.Some? ==> r.severity == severity.value
    ensures (r.code, r.line, r.recordIndex) == (CodeName(code), line, recordIndex)
    ensures (r.h, r.details, r.message) == (h, details, message)
  {
    Issue(CodeName(code), severity.GetOr("error"), line, recordIndex, h, details, message)
  }

  const ISSUE_KEYS: seq<string> := ["code", "severity", "line", "record_index", "h", "details", "message"]

  function OptionalString(s: Option<string>): Option<Json> {
    if s.Some? then Some(JStr(s.value)) else None
  }

  /** The object literal in `makeIssue`, property by property; `None` is a property the
      conditional spreads leave out. */
  function IssueLiteral(i: Issue): (ps: seq<(string, Option<Json>)>)
    ensures |ps| == |ISSUE_KEYS| && forall j :: 0 <= j < |ps| ==> ps[j].0 == ISSUE_KEYS[j]
  {
    [("code", Some(JStr(i.code))), ("severity", Some(JStr(i.severity))),
     ("line", Some(JNum(Int(i.line)))), ("record_index", Some(JNum(Int(i.recordIndex)))),
     ("h", OptionalString(i.h)), ("details", i.details), ("message", OptionalString(i.message))]
  }

  lemma IssueKeysDistinct(i: Issue)
    ensures LiteralKeysDistinct(IssueLiteral(i))
  {
  }

  lemma IssueLookup(i: Issue, j: nat)
    requires j < |ISSUE_KEYS|
    ensures Lookup(Defined(IssueLiteral(i)), ISSUE_KEYS[j]) == IssueLiteral(i)[j].1
  {
    IssueKeysDistinct(i);
    DefinedLookup(IssueLiteral(i), ISSUE_KEYS[j]);
  }

  lemma IssueOnlyKeys(i: Issue, k: string)
    requires Lookup(Defined(IssueLiteral(i)), k).Some?
    ensures k in ISSUE_KEYS
  {
    var fs := Defined(IssueLiteral(i));
    LookupSpec(fs, k);
    var j :| 0 <= j < |fs| && fs[j].0 == k;
    assert fs[j] in fs;
  }

  /** The object `makeIssue` returns: `code`, `severity`, `line` and `record_index` are
      always present; `h`, `details` and `message` are present exactly when supplied. */
  function IssueJson(i: Issue): (r: Json)
    ensures r.JObj? && DistinctKeys(r.fields)
    ensures Get(r, "code") == Some(JStr(i.code))
    ensures Get(r, "severity") == Some(JStr(i.severity))
    ensures Get(r, "line") == Some(JNum(Int(i.line)))
    ensures Get(r, "record_index") == Some(JNum(Int(i.recordIndex)))
    ensures Get(r, "h") == OptionalString(i.h)
    ensures Get(r, "details") == i.details
    ensures Get(r, "message") == OptionalString(i.message)
    ensures forall k :: HasOwn(r, k) ==> k in ISSUE_KEYS
  {
    IssueKeysDistinct(i);
    IssueLookup(i, 0);
    IssueLookup(i, 1);
    IssueLookup(i, 2);
    IssueLookup(i, 3);
    IssueLookup(i, 4);
    IssueLookup(i, 5);
    IssueLookup(i, 6);
    var r := JObj(Defined(IssueLiteral(i)));
    assert forall k :: HasOwn(r, k) ==> k in ISSUE_KEYS by {
      forall k | HasOwn(r, k) ensures k in ISSUE_KEYS {
        IssueOnlyKeys(i, k);
      }
    }
    r
  }

  /** Reads an issue object back. */
  function IssueFromJson(j: Json): Option<Issue> {
    var code, severity, line, index := Get(j, "code"), Get(j, "severity"), Get(j, "line"), Get(j, "record_index");
    if code.Some? && code.value.JStr?
       && severity.Some? && severity.value.JStr?
       && line.Some? && line.value.JNum? && line.value.n.Int?
       && index.Some? && index.value.JNum? && index.value.n.Int?
    then
      var h := Get(j, "h");
      var message := Get(j, "message");
      Some(Issue(code.value.s, severity.value.s, line.value.n.i, index.value.n.i,
                 if h.Some? && h.value.JStr? then Some(h.value.s) else None,
                 Get(j, "details"),
                 if message.Some? && message.value.JStr? then Some(message.value.s) else None))
    else None
  }

  /** Any object with an issue's properties reads back as that issue. */
  lemma IssueFromProperties(i: Issue, r: Json)
    requires Get(r, "code") == Some(JStr(i.code))
    requires Get(r, "severity") == Some(JStr(i.severity))
    requires Get(r, "line") == Some(JNum(Int(i.line)))
    requires Get(r, "record_index") == Some(JNum(Int(i.recordIndex)))
    requires Get(r, "h") == OptionalString(i.h)
    requires Get(r, "details") == i.details
    requires Get(r, "message") == OptionalString(i.message)
    ensures IssueFromJson(r) == Some(i)
  {
  }

  /** No information is lost in the object `makeIssue` builds. */
  lemma IssueJsonRoundTrip(i: Issue)
    ensures IssueFromJson(IssueJson(i)) == Some(i)
  {
    IssueFromProperties(i, IssueJson(i));
  }
}
