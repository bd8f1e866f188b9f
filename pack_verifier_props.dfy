/**
 * What the draft pack verifier promises: the circuit breakers, directory skipping, the
 * expected-file check, the strict early stop, and when a pack is authentic.
 */
module PackVerifierProps {
  import opened Wrappers
  import opened JsonValues
  import opened Errors
  import opened PackVerifier

  // ---------------------------------------------------------------------------------------
  // Reference definitions of what the enumeration accumulates

  function SumUncompressed(es: seq<EntryDesc>): nat {
    if es == [] then 0 else es[0].uncompressedSize + SumUncompressed(es[1..])
  }

  function NameSet(es: seq<EntryDesc>): set<string> {
    if es == [] then {} else {es[0].fileName} + NameSet(es[1..])
  }

  function DirCount(es: seq<EntryDesc>): nat {
    if es == [] then 0 else (if IsDirectory(es[0].fileName) then 1 else 0) + DirCount(es[1..])
  }

  /** The candidates: names that are not directories and match the pattern, in order. */
  function PatternNames(pattern: string -> bool, es: seq<EntryDesc>): seq<string> {
    if es == [] then []
    else (if !IsDirectory(es[0].fileName) && pattern(es[0].fileName) then [es[0].fileName] else [])
         + PatternNames(pattern, es[1..])
  }

  // ---------------------------------------------------------------------------------------
  // Options

  /** Any mode other than 'tolerant' is strict; without options the limits are 500 entries,
      200 000 000 declared bytes and a ratio of 200, and the pattern is `/\.ndjson$/i`. */
  lemma PackDefaults(o: PackOptions)
    ensures ModeOf(o) == Tolerant <==> o.mode == Some("tolerant")
    ensures o.maxEntries.None? && o.maxUncompressedBytes.None? && o.maxCompressionRatio.None?
            ==> LimitsOf(o) == Limits(500, 200_000_000, Finite(200.0))
    ensures o.ndjsonPattern.None? ==> forall name :: PatternOf(o)(name) == DefaultPattern(name)
  {
  }

  // ---------------------------------------------------------------------------------------
  // One entry

  /** For a whole-number ratio the breaker is the integer test `uncomp > ratio * comp`; a NaN
      or +Infinity ratio never trips it, and -Infinity trips it for every entry. */
  lemma RatioCases(uncomp: nat, comp: nat, ratio: Ratio)
    requires comp > 0
    ensures ratio.Finite? && ratio.r == ratio.r.Floor as real ==>
              (QuotientExceeds(uncomp, comp, ratio) <==> uncomp > ratio.r.Floor * comp)
    ensures ratio == NaN || ratio == Infinite(false) ==> !QuotientExceeds(uncomp, comp, ratio)
    ensures ratio == Infinite(true) ==> QuotientExceeds(uncomp, comp, ratio)
  {
    if ratio.Finite? && ratio.r == ratio.r.Floor as real {
      var u, c, n := uncomp as real, comp as real, ratio.r.Floor;
      assert (u / c) * c == u;
      assert (n * comp) as real == n as real * c;
      if u / c > n as real {
        assert u == (u / c) * c > n as real * c;
      }
      if uncomp > n * comp {
        assert u / c > (n as real * c) / c == n as real;
      }
    }
  }

  /** The breakers are tried in order (count, ratio, total), the ratio only for an entry with
      a positive compressed size; the first that fails is the one recorded. */
  lemma ScanStepStops(l: Limits, pattern: string -> bool, st: ScanState, e: EntryDesc)
    ensures var o := ScanStep(l, pattern, st, e);
            var countOk := st.count + 1 <= l.maxEntries;
            var ratioOk := !(e.compressedSize > 0 && QuotientExceeds(e.uncompressedSize, e.compressedSize, l.maxCompressionRatio));
            var totalOk := st.total + e.uncompressedSize <= l.maxUncompressedBytes;
            && (!countOk ==> o.stop == Some(MaxEntriesIssue(l)) && o.state.seen == st.seen)
            && (countOk && !ratioOk ==> o.stop == Some(RatioIssue(e.fileName, e.compressedSize, e.uncompressedSize)))
            && (countOk && ratioOk && !totalOk ==> o.stop == Some(TotalIssue(l)))
            && (o.stop.None? <==> countOk && ratioOk && totalOk)
  {
  }

  /** An entry that passes the breakers is counted, seen and totalled; a directory is skipped,
      and any other name becomes a candidate exactly when it matches the pattern. */
  lemma ScanStepPasses(l: Limits, pattern: string -> bool, st: ScanState, e: EntryDesc)
    requires ScanStep(l, pattern, st, e).stop.None?
    ensures var s := ScanStep(l, pattern, st, e).state;
            && s.count == st.count + 1 && s.seen == st.seen + {e.fileName}
            && s.total == st.total + e.uncompressedSize
            && (IsDirectory(e.fileName) ==> s.skipped == st.skipped + 1 && s.names == st.names)
            && (!IsDirectory(e.fileName) ==>
                  (s.skipped == st.skipped && s.names == st.names + (if pattern(e.fileName) then [e.fileName] else [])))
  {
  }

  // ---------------------------------------------------------------------------------------
  // The enumeration

  /** Enumerating `a + b` is enumerating `a`, then `b` unless `a` tripped a breaker. */
  lemma {:induction false} ScanAppend(l: Limits, pattern: string -> bool, a: seq<EntryDesc>, b: seq<EntryDesc>, st: ScanState)
    ensures var r := ScanFrom(l, pattern, a, st);
            ScanFrom(l, pattern, a + b, st) == if r.stop.Some? then r else ScanFrom(l, pattern, b, r.state)
    decreases |a|
  {
    if a == [] {
      assert a + b == b;
    } else {
      assert (a + b)[0] == a[0] && (a + b)[1..] == a[1..] + b;
      var o := ScanStep(l, pattern, st, a[0]);
      if o.stop.None? {
        ScanAppend(l, pattern, a[1..], b, o.state);
      }
    }
  }

  /** A tripped breaker ends the enumeration: no later entry is examined. */
  lemma StopEndsEnumeration(l: Limits, pattern: string -> bool, es: seq<EntryDesc>, later: seq<EntryDesc>, st: ScanState)
    requires ScanFrom(l, pattern, es, st).stop.Some?
    ensures ScanFrom(l, pattern, es + later, st) == ScanFrom(l, pattern, es, st)
  {
    ScanAppend(l, pattern, es, later, st);
  }

  /** An enumeration that trips no breaker visits every entry: it counts them, sees every
      name, totals every declared uncompressed size (directories included), skips the
      directories and keeps, in order, the other names that match the pattern. */
  lemma {:induction false} ScanCompleted(l: Limits, pattern: string -> bool, es: seq<EntryDesc>, st: ScanState)
    requires ScanFrom(l, pattern, es, st).stop.None?
    ensures var s := ScanFrom(l, pattern, es, st).state;
            && s.count == st.count + |es| && s.seen == st.seen + NameSet(es)
            && s.total == st.total + SumUncompressed(es) && s.skipped == st.skipped + DirCount(es)
            && s.names == st.names + PatternNames(pattern, es)
    decreases |es|
  {
    if es != [] {
      var o := ScanStep(l, pattern, st, es[0]);
      var s := ScanFrom(l, pattern, es, st).state;
      assert s == ScanFrom(l, pattern, es[1..], o.state).state;
      ScanStepPasses(l, pattern, st, es[0]);
      ScanCompleted(l, pattern, es[1..], o.state);
      SeenAccumulates(es, st.seen, o.state.seen, s.seen);
      TotalAccumulates(es, st.total, o.state.total, s.total);
      SkippedAccumulates(es, st.skipped, o.state.skipped, s.skipped);
      NamesAccumulates(pattern, es, st.names, o.state.names, s.names);
    }
  }

  // One passing entry followed by the rest accumulates what the whole does, measure by measure.

  lemma SeenAccumulates(es: seq<EntryDesc>, before: set<string>, mid: set<string>, after: set<string>)
    requires es != [] && mid == before + {es[0].fileName} && after == mid + NameSet(es[1..])
    ensures after == before + NameSet(es)
  {
  }

  lemma TotalAccumulates(es: seq<EntryDesc>, before: nat, mid: nat, after: nat)
    requires es != [] && mid == before + es[0].uncompressedSize && after == mid + SumUncompressed(es[1..])
    ensures after == before + SumUncompressed(es)
  {
  }

  lemma SkippedAccumulates(es: seq<EntryDesc>, before: nat, mid: nat, after: nat)
    requires es != [] && mid == before + (if IsDirectory(es[0].fileName) then 1 else 0)
    requires after == mid + DirCount(es[1..])
    ensures after == before + DirCount(es)
  {
  }

  lemma NamesAccumulates(pattern: string -> bool, es: seq<EntryDesc>, before: seq<string>, mid: seq<string>, after: seq<string>)
    requires es != []
    requires mid == before + (if !IsDirectory(es[0].fileName) && pattern(es[0].fileName) then [es[0].fileName] else [])
    requires after == mid + PatternNames(pattern, es[1..])
    ensures after == before + PatternNames(pattern, es)
  {
    var head := if !IsDirectory(es[0].fileName) && pattern(es[0].fileName) then [es[0].fileName] else [];
    assert PatternNames(pattern, es) == head + PatternNames(pattern, es[1..]);
    AppendAssociates(before, head, PatternNames(pattern, es[1..]));
  }

  lemma AppendAssociates<T>(a: seq<T>, b: seq<T>, c: seq<T>)
    ensures (a + b) + c == a + (b + c)
  {
  }

  /** ... and every entry was within the limits: the count and the running total stayed at or
      below their maxima and no entry exceeded the ratio. */
  lemma {:induction false} ScanWithinLimits(l: Limits, pattern: string -> bool, es: seq<EntryDesc>, st: ScanState)
    requires ScanFrom(l, pattern, es, st).stop.None? && es != []
    ensures var s := ScanFrom(l, pattern, es, st).state;
            s.count <= l.maxEntries && s.total <= l.maxUncompressedBytes
    ensures forall k :: 0 <= k < |es| ==> !RatioExceeded(l, es[k])
    decreases |es|
  {
    var o := ScanStep(l, pattern, st, es[0]);
    ScanStepStops(l, pattern, st, es[0]);
    if es[1..] != [] {
      ScanWithinLimits(l, pattern, es[1..], o.state);
      forall k | 0 < k < |es| ensures !RatioExceeded(l, es[k]) {
        assert es[1..][k - 1] == es[k];
      }
    }
  }

  /** An archive with more than `maxEntries` entries always trips a breaker, by the
      `(maxEntries+1)`-th entry at the latest: nothing after it is examined. */
  lemma EntryLimitTrips(l: Limits, pattern: string -> bool, es: seq<EntryDesc>)
    requires |es| > 0 && |es| > l.maxEntries
    ensures var n := if l.maxEntries < 0 then 1 else l.maxEntries + 1;
            && ScanFrom(l, pattern, es, INIT_SCAN).stop.Some?
            && ScanFrom(l, pattern, es, INIT_SCAN) == ScanFrom(l, pattern, es[..n], INIT_SCAN)
  {
    var n := if l.maxEntries < 0 then 1 else l.maxEntries + 1;
    if ScanFrom(l, pattern, es[..n], INIT_SCAN).stop.None? {
      ScanCompleted(l, pattern, es[..n], INIT_SCAN);
      ScanWithinLimits(l, pattern, es[..n], INIT_SCAN);
      assert false;
    }
    assert es == es[..n] + es[n..];
    StopEndsEnumeration(l, pattern, es[..n], es[n..], INIT_SCAN);
  }

  /** When the first `maxEntries` entries pass, the next one records the `maxEntries` issue. */
  lemma MaxEntriesIssueAt(l: Limits, pattern: string -> bool, es: seq<EntryDesc>)
    requires 0 <= l.maxEntries < |es|
    requires ScanFrom(l, pattern, es[..l.maxEntries], INIT_SCAN).stop.None?
    ensures ScanFrom(l, pattern, es, INIT_SCAN).stop == Some(MaxEntriesIssue(l))
  {
    var m := l.maxEntries;
    var front := ScanFrom(l, pattern, es[..m], INIT_SCAN);
    ScanCompleted(l, pattern, es[..m], INIT_SCAN);
    assert es == es[..m] + es[m..];
    ScanAppend(l, pattern, es[..m], es[m..], INIT_SCAN);
    ScanStepStops(l, pattern, front.state, es[m]);
  }

  // ---------------------------------------------------------------------------------------
  // The verification loop

  function Verified(names: seq<string>, verifyEntry: string -> bool): (r: seq<Artifact>)
    ensures |r| == |names| && forall k :: 0 <= k < |names| ==> r[k] == Artifact(names[k], verifyEntry(names[k]))
  {
    seq(|names|, k requires 0 <= k < |names| => Artifact(names[k], verifyEntry(names[k])))
  }

  lemma VerifiedCons(names: seq<string>, verifyEntry: string -> bool, arts: seq<Artifact>)
    requires names != []
    ensures arts + Verified(names, verifyEntry)
         == (arts + [Artifact(names[0], verifyEntry(names[0]))]) + Verified(names[1..], verifyEntry)
  {
  }

  /** Tolerant mode verifies every candidate and records no issue for a failing one. */
  lemma {:induction false} VerifyTolerant(names: seq<string>, verifyEntry: string -> bool, arts: seq<Artifact>, errs: seq<Issue>)
    ensures VerifyFrom(Tolerant, names, verifyEntry, arts, errs) == VerifyOut(arts + Verified(names, verifyEntry), errs)
    decreases |names|
  {
    if names == [] {
      assert arts + Verified(names, verifyEntry) == arts;
    } else {
      VerifyTolerant(names[1..], verifyEntry, arts + [Artifact(names[0], verifyEntry(names[0]))], errs);
      VerifiedCons(names, verifyEntry, arts);
    }
  }

  /** The index of the first candidate that fails verification, or `|names|`. */
  function FirstFailing(names: seq<string>, verifyEntry: string -> bool): (j: nat)
    ensures j <= |names| && (forall k :: 0 <= k < j ==> verifyEntry(names[k]))
    ensures j < |names| ==> !verifyEntry(names[j])
  {
    if names == [] then 0
    else if !verifyEntry(names[0]) then 0
    else 1 + FirstFailing(names[1..], verifyEntry)
  }

  /** Strict mode, starting without errors, verifies the candidates up to and including the
      first failing one, which adds the one `E_SCHEMA`; with no failure it verifies them all. */
  lemma {:induction false} VerifyStrict(names: seq<string>, verifyEntry: string -> bool, arts: seq<Artifact>)
    ensures var j := FirstFailing(names, verifyEntry);
            VerifyFrom(Strict, names, verifyEntry, arts, [])
            == if j == |names| then VerifyOut(arts + Verified(names, verifyEntry), [])
               else VerifyOut(arts + Verified(names[..j + 1], verifyEntry), [SchemaIssue(names[j])])
    decreases |names|
  {
    if names == [] {
      assert arts + Verified(names, verifyEntry) == arts;
    } else {
      var a := Artifact(names[0], verifyEntry(names[0]));
      if !verifyEntry(names[0]) {
        assert Verified(names[..1], verifyEntry) == [a];
        assert VerifyFrom(Strict, names[1..], verifyEntry, arts + [a], [SchemaIssue(names[0])])
            == VerifyOut(arts + [a], [SchemaIssue(names[0])]);
      } else {
        VerifyStrict(names[1..], verifyEntry, arts + [a]);
        var j := FirstFailing(names, verifyEntry);
        if j < |names| {
          assert names[1..][..j - 1 + 1] == names[1..j + 1];
          VerifiedCons(names[..j + 1], verifyEntry, arts);
          assert names[..j + 1][1..] == names[1..j + 1];
        } else {
          VerifiedCons(names, verifyEntry, arts);
        }
      }
    }
  }

  /** Strict mode verifies nothing once an error has been recorded. */
  lemma VerifyStrictBlocked(names: seq<string>, verifyEntry: string -> bool, arts: seq<Artifact>, errs: seq<Issue>)
    requires errs != []
    ensures VerifyFrom(Strict, names, verifyEntry, arts, errs) == VerifyOut(arts, errs)
  {
  }

  // ---------------------------------------------------------------------------------------
  // The pack

  /** An archive that cannot be opened gives exactly one `E_ZIP_OPEN` error, no artifact, and
      an inauthentic pack. */
  lemma OpenFailureReported(o: PackOptions, verifyEntry: string -> bool)
    ensures var r := PackSpec(o, None, verifyEntry);
            r.errors == [OPEN_ISSUE] && r.artifacts == [] && !r.isAuthentic
    ensures OPEN_ISSUE.code == "E_ZIP_OPEN"
  {
  }

  /** The errors and artifacts of a pack that opened are those of the verification loop,
      started with the tripped breaker's issue and the missing expected files. */
  lemma PackParts(o: PackOptions, es: seq<EntryDesc>, verifyEntry: string -> bool)
    ensures var scan := ScanFrom(LimitsOf(o), PatternOf(o), es, INIT_SCAN);
            var limitErrors := if scan.stop.Some? then [scan.stop.value] else [];
            var missing := if o.expectedFiles.Some? && ModeOf(o) == Strict then MissingIssues(o.expectedFiles.value, scan.state.seen) else [];
            var v := VerifyFrom(ModeOf(o), scan.state.names, verifyEntry, [], limitErrors + missing);
            var r := PackSpec(o, Some(es), verifyEntry);
            && r.errors == v.errors && r.artifacts == v.artifacts && r.zip.entriesVerified == |v.artifacts|
            && r.zip.entriesSkipped == scan.state.skipped && r.mode == ModeOf(o) && r.zip.limitsApplied == LimitsOf(o)
            && (r.isAuthentic <==> v.errors == [] && forall k :: 0 <= k < |v.artifacts| ==> v.artifacts[k].authentic)
  {
  }

  /** In tolerant mode no expected file is checked, no breaker stops the candidates already
      found from being verified, and a failing entry adds no error: the errors are the tripped
      breaker's alone. */
  lemma TolerantPack(o: PackOptions, es: seq<EntryDesc>, verifyEntry: string -> bool)
    requires ModeOf(o) == Tolerant
    ensures var scan := ScanFrom(LimitsOf(o), PatternOf(o), es, INIT_SCAN);
            var r := PackSpec(o, Some(es), verifyEntry);
            && r.errors == (if scan.stop.Some? then [scan.stop.value] else [])
            && r.artifacts == Verified(scan.state.names, verifyEntry)
            && r.zip.entriesVerified == |scan.state.names|
  {
    var scan := ScanFrom(LimitsOf(o), PatternOf(o), es, INIT_SCAN);
    var limitErrors := if scan.stop.Some? then [scan.stop.value] else [];
    assert limitErrors + [] == limitErrors;
    PackParts(o, es, verifyEntry);
    VerifyTolerant(scan.state.names, verifyEntry, [], limitErrors);
  }

  /** In strict mode the errors are the tripped breaker, one `E_ZIP_EXPECTED_MISSING` per
      expected name not seen, then at most one `E_SCHEMA`; any of the first two stops every
      verification. */
  lemma StrictPackErrors(o: PackOptions, es: seq<EntryDesc>, verifyEntry: string -> bool)
    requires ModeOf(o) == Strict
    ensures var scan := ScanFrom(LimitsOf(o), PatternOf(o), es, INIT_SCAN);
            var limitErrors := if scan.stop.Some? then [scan.stop.value] else [];
            var missing := if o.expectedFiles.Some? then MissingIssues(o.expectedFiles.value, scan.state.seen) else [];
            var r := PackSpec(o, Some(es), verifyEntry);
            var names := scan.state.names;
            var j := FirstFailing(names, verifyEntry);
            && (limitErrors + missing != [] ==> r.errors == limitErrors + missing && r.artifacts == [])
            && (limitErrors + missing == [] && j == |names| ==> r.errors == [] && r.artifacts == Verified(names, verifyEntry))
            && (limitErrors + missing == [] && j < |names| ==>
                  r.errors == [SchemaIssue(names[j])] && r.artifacts == Verified(names[..j + 1], verifyEntry))
  {
    var scan := ScanFrom(LimitsOf(o), PatternOf(o), es, INIT_SCAN);
    var limitErrors := if scan.stop.Some? then [scan.stop.value] else [];
    var missing := if o.expectedFiles.Some? then MissingIssues(o.expectedFiles.value, scan.state.seen) else [];
    PackParts(o, es, verifyEntry);
    if limitErrors + missing == [] {
      VerifyStrict(scan.state.names, verifyEntry, []);
    }
  }

  /** A strict pack is authentic exactly when no breaker trips, every expected file is
      present, and every candidate verifies; then every candidate was verified. */
  lemma StrictAuthentic(o: PackOptions, es: seq<EntryDesc>, verifyEntry: string -> bool)
    requires ModeOf(o) == Strict
    ensures var scan := ScanFrom(LimitsOf(o), PatternOf(o), es, INIT_SCAN);
            var names := scan.state.names;
            var r := PackSpec(o, Some(es), verifyEntry);
            && (r.isAuthentic <==>
                  && scan.stop.None?
                  && (o.expectedFiles.Some? ==> forall x :: x in o.expectedFiles.value ==> x in NameSet(es))
                  && (forall k :: 0 <= k < |names| ==> verifyEntry(names[k])))
            && (r.isAuthentic ==> r.artifacts == Verified(names, verifyEntry) && names == PatternNames(PatternOf(o), es))
  {
    var l, pattern := LimitsOf(o), PatternOf(o);
    var scan := ScanFrom(l, pattern, es, INIT_SCAN);
    var names := scan.state.names;
    StrictPackErrors(o, es, verifyEntry);
    if scan.stop.None? {
      ScanCompleted(l, pattern, es, INIT_SCAN);
      assert scan.state.seen == NameSet(es);
      assert names == PatternNames(pattern, es);
    }
    if o.expectedFiles.Some? {
      MissingNamesSpec(o.expectedFiles.value, scan.state.seen);
      var m := MissingNames(o.expectedFiles.value, scan.state.seen);
      if m != [] {
        assert m[0] in m;
      }
    }
    var j := FirstFailing(names, verifyEntry);
    if j < |names| {
      assert Verified(names[..j + 1], verifyEntry)[j] == Artifact(names[j], false);
    }
  }

  /** Directory entries never become candidates, in either mode. */
  lemma DirectoriesNeverVerified(l: Limits, pattern: string -> bool, es: seq<EntryDesc>, st: ScanState)
    requires forall x :: x in st.names ==> !IsDirectory(x)
    ensures forall x :: x in ScanFrom(l, pattern, es, st).state.names ==> !IsDirectory(x)
    decreases |es|
  {
    if es != [] {
      var o := ScanStep(l, pattern, st, es[0]);
      if o.stop.None? {
        ScanStepPasses(l, pattern, st, es[0]);
        DirectoriesNeverVerified(l, pattern, es[1..], o.state);
      }
    }
  }
}
