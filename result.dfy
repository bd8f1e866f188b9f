/**
 * The draft verification-result object (__LOCAL_NEW/src/result.js).
 *
 * The result is an object the verifier updates in place, so it is a class; its two stats
 * tables are `Object.create(null)` dictionaries, maps from property key to count.
 */
module VerificationResults {
  import opened Wrappers
  import opened JsonValues
  import opened JsStrings
  import opened Errors

  /** The count stored under `k`, with an absent key read as 0 (`b[k] || 0`). */
  function Count(m: map<string, nat>, k: string): nat {
    if k in m then m[k] else 0
  }

  /** One more under `k`: `m[k] = (m[k] || 0) + 1`. */
  function Bump(m: map<string, nat>, k: string): (r: map<string, nat>)
    ensures Count(r, k) == Count(m, k) + 1
    ensures forall j :: j != k ==> Count(r, j) == Count(m, j)
    ensures r.Keys == m.Keys + {k}
  {
    m[k := Count(m, k) + 1]
  }

  /** The decimal form of an integer, with a leading '-' when negative. */
  function IntToString(i: int): string {
    if i >= 0 then NatToString(i) else "-" + NatToString(-i)
  }

  const DECIMAL_LIMIT: int := 1_000_000_000_000_000_000_000

  /** `String(n)` for a number: integers below 10^21 in magnitude print in decimal and the
      infinities by name; `format` stands for the shortest round-trip form of every other
      number (section 6.1.6.1.20 of ECMA-262, Number::toString). */
  function NumberToString(n: Number, format: Number -> string): string {
    match n
    case Int(i) => if -DECIMAL_LIMIT < i < DECIMAL_LIMIT then IntToString(i) else format(n)
    case Frac(_) => format(n)
    case Inf(negative) => if negative then "-Infinity" else "Infinity"
  }

  /** What `String(v)` can throw. */
  datatype Thrown = TypeError

  /** `String(v)`, with `None` for `undefined`. An array prints as its elements joined with
      ',', each `null` element as the empty string; a plain object prints as
      '[object Object]'. An object with an own `toString` property throws a TypeError: that
      property is not callable, so the conversion falls back to `valueOf`, which returns the
      object itself rather than a primitive. The error propagates out of an array's `join`. */
  function JsString(v: Option<Json>, format: Number -> string): Result<string, Thrown> {
    match v
    case None => Ok("undefined")
    case Some(j) => JsonString(j, format)
  }

  function JsonString(j: Json, format: Number -> string): Result<string, Thrown>
    decreases j, 1
  {
    match j
    case JNull => Ok("null")
    case JBool(b) => Ok(if b then "true" else "false")
    case JNum(n) => Ok(NumberToString(n, format))
    case JStr(s) => Ok(s)
    case JArr(xs) => JoinElements(xs, format)
    case JObj(_) => if HasOwn(j, "toString") then Err(TypeError) else Ok("[object Object]")
  }

  function JoinElements(xs: seq<Json>, format: Number -> string): Result<string, Thrown>
    decreases xs, 0
  {
    if xs == [] then Ok("")
    else
      var head := if xs[0] == JNull then Ok("") else JsonString(xs[0], format);
      if head.Err? then head
      else if |xs| == 1 then head
      else
        var tail := JoinElements(xs[1..], format);
        if tail.Err? then tail else Ok(head.value + "," + tail.value)
  }

  /** A gap reason given as a small natural number and as its decimal string share one
      `gapsByReason` counter. */
  lemma NumericReasonSharesKey(n: nat, format: Number -> string)
    requires n < DECIMAL_LIMIT
    ensures JsString(Some(JNum(Int(n))), format) == JsString(Some(JStr(NatToString(n))), format) == Ok(NatToString(n))
  {
  }

  /** `String` throws on an object exactly when it has an own `toString`, and on an array
      exactly when one of its elements throws. */
  lemma {:induction false} JsStringThrows(j: Json, format: Number -> string)
    ensures j.JObj? ==> (JsonString(j, format).Err? <==> HasOwn(j, "toString"))
    ensures j.JArr? ==> (JsonString(j, format).Err? <==> exists i :: 0 <= i < |j.items| && JsonString(j.items[i], format).Err?)
    ensures !j.JObj? && !j.JArr? ==> JsonString(j, format).Ok?
  {
    if j.JArr? {
      JoinThrows(j.items, format);
    }
  }

  lemma {:induction false} JoinThrows(xs: seq<Json>, format: Number -> string)
    ensures JoinElements(xs, format).Err? <==> exists i :: 0 <= i < |xs| && JsonString(xs[i], format).Err?
  {
    if xs != [] {
      assert JsonString(JNull, format).Ok?;
      if |xs| > 1 {
        JoinThrows(xs[1..], format);
        if exists i :: 0 <= i < |xs[1..]| && JsonString(xs[1..][i], format).Err? {
          var i :| 0 <= i < |xs[1..]| && JsonString(xs[1..][i], format).Err?;
          assert xs[i + 1] == xs[1..][i];
        }
        if exists i :: 0 <= i < |xs| && JsonString(xs[i], format).Err? {
          var i :| 0 <= i < |xs| && JsonString(xs[i], format).Err?;
          if i > 0 { assert xs[1..][i - 1] == xs[i]; }
        }
      }
    }
  }

  /** The object `newVerificationResult` builds. `null` is `None`. */
  class VerificationResult {
    var isAuthentic: bool
    var status: string
    var isPartial: bool
    var mode: Json
    var runId: Option<string>
    var rootCh: Option<string>
    var lastCh: Option<string>
    var checkedRecords: int
    var verifiedChainRecords: int
    var errors: seq<Issue>
    var warnings: seq<Issue>
    var byType: map<string, nat>
    var gapsByReason: map<string, nat>

    /** The two derived booleans agree with the status and the errors. */
    predicate Finalized()
      reads this
    {
      && isAuthentic == (status == "ok" && errors == [])
      && isPartial == (status == "partial" && errors == [])
    }

    /** `newVerificationResult({ mode })`: an invalid, unauthenticated, non-partial result
        with no run data, zero counters, no issues and empty stats. */
    constructor(mode: Json)
      ensures !isAuthentic && !isPartial && status == "invalid" && this.mode == mode
      ensures runId.None? && rootCh.None? && lastCh.None?
      ensures checkedRecords == 0 && verifiedChainRecords == 0
      ensures errors == [] && warnings == [] && byType == map[] && gapsByReason == map[]
    {
      isAuthentic := false;
      status := "invalid";
      isPartial := false;
      this.mode := mode;
      runId := None;
      rootCh := None;
      lastCh := None;
      checkedRecords := 0;
      verifiedChainRecords := 0;
      errors := [];
      warnings := [];
      byType := map[];
      gapsByReason := map[];
    }

    /** `finalizeVerificationResult(res)`: sets the two booleans from the status and the
        errors, so they are never both true, and changes nothing else. */
    method Finalize()
      modifies this
      ensures Finalized() && !(isAuthentic && isPartial)
      ensures status == old(status) && errors == old(errors) && warnings == old(warnings) && mode == old(mode)
      ensures (runId, rootCh, lastCh) == old((runId, rootCh, lastCh))
      ensures (checkedRecords, verifiedChainRecords) == old((checkedRecords, verifiedChainRecords))
      ensures byType == old(byType) && gapsByReason == old(gapsByReason)
    {
      isAuthentic := status == "ok" && |errors| == 0;
      isPartial := status == "partial" && |errors| == 0;
    }

    /** `addStat(res, key, type)`: one more record of `type`; `key` plays no part. */
    method AddStat(key: string, recordType: string)
      modifies this
      ensures byType == Bump(old(byType), recordType)
      ensures Count(byType, recordType) == Count(old(byType), recordType) + 1
      ensures forall t :: t != recordType ==> Count(byType, t) == Count(old(byType), t)
      ensures gapsByReason == old(gapsByReason) && errors == old(errors) && status == old(status)
      ensures (isAuthentic, isPartial) == old((isAuthentic, isPartial))
      ensures warnings == old(warnings) && mode == old(mode)
      ensures (runId, rootCh, lastCh) == old((runId, rootCh, lastCh))
      ensures (checkedRecords, verifiedChainRecords) == old((checkedRecords, verifiedChainRecords))
    {
      var b := byType;
      b := b[recordType := Count(b, recordType) + 1];
      byType := b;
    }

    /** `addGapReasonStat(res, reason_code)`: one more gap under `String(reason_code)`. When
        `String` throws, `k` is the TypeError, which propagates, and nothing is counted. */
    method AddGapReasonStat(reasonCode: Option<Json>, format: Number -> string) returns (k: Result<string, Thrown>)
      modifies this
      ensures k == JsString(reasonCode, format)
      ensures gapsByReason == if k.Ok? then Bump(old(gapsByReason), k.value) else old(gapsByReason)
      ensures byType == old(byType) && errors == old(errors) && status == old(status)
      ensures (isAuthentic, isPartial) == old((isAuthentic, isPartial))
      ensures warnings == old(warnings) && mode == old(mode)
      ensures (runId, rootCh, lastCh) == old((runId, rootCh, lastCh))
      ensures (checkedRecords, verifiedChainRecords) == old((checkedRecords, verifiedChainRecords))
    {
      var g := gapsByReason;
      k := JsString(reasonCode, format);
      if k.Err? {
        return;
      }
      g := g[k.value := Count(g, k.value) + 1];
      gapsByReason := g;
    }
  }

  /** Finalizing twice is finalizing once. */
  method FinalizeTwice(r: VerificationResult)
    modifies r
    ensures r.Finalized() && r.status == old(r.status) && r.errors == old(r.errors)
  {
    r.Finalize();
    ghost var after := (r.isAuthentic, r.isPartial);
    r.Finalize();
    assert (r.isAuthentic, r.isPartial) == after;
  }
}
