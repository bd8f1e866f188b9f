# ndjson-chain-verifier, modelled in Dafny

This project models the verification engine of the ndjson-chain-verifier, a verifier for
hash-chained NDJSON audit exports (Kernel v1.2). An export is one JSON record per line:
- a `run` record that opens the chain;
- `segment` and `gap` records. Each carries its own hash `h` and a chain value `ch`
  that links `h` to the previous chain value;
- an optional `seal` that binds the run's root and the terminal chain value;
- `trace` records, which are never hashed.

The verifier can also verify an export inside a ZIP "evidence pack". The model covers these
parts:

- **Stream verifier** (`verify_ndjson.dfy`, with `verify_ndjson_props.dfy`,
  `verify_ndjson_outcomes.dfy` and `verify_ndjson_tamper.dfy`).
  - The `verifyNdjsonStream` state machine over a sequence of lines. Each line is blank,
    unparseable, or a parsed JSON value.
  - The loop is the method `VerifyNdjsonStream`. Its body is `ReadLine`, and the loop's
    locals (`lineNo`, `seenAny`, `run_id`, `root_ch`, `prev_ch`, `seenTrace`, `seenSeal`
    and the result record) are one `State`.
  - Both methods are proved against the function `Verify`. Its properties are proved as
    lemmas: a reachability invariant `Good`, the outcome of every kind of line, the end of
    the stream, and tamper detection.
- **Hash chain and canonicaliser** (`audit_chain.dfy`, `stable_stringify.dfy`).
  - The `Json` value type keeps objects as key/value sequences, so key order can be observed.
  - `canonicalize` sorts keys the way `Array.prototype.sort` does, by UTF-16 code units.
    The result is an object built by insertion, so it also follows ECMAScript's own-property
    order: array-index keys come first.
  - The four domain-separated hash functions are modelled over an abstract digest.
- **Issue model** (`errors.dfy`): the `ISSUE` code table and `makeIssue`. **Schema profile**
  (`kernel_only.dfy`): `KERNEL_ONLY_PROFILE.validateRecord`.
- **ZIP reader** (`zip_reader.dfy`).
  - Little-endian reads, the backward EOCD search (a method with a loop), the central
    directory header loop (a method) and `readZipEntryBytes`.
  - The layout follows PKWARE APPNOTE.TXT: the EOCD record in section 4.3.16, central
    directory headers in 4.3.12, local headers in 4.3.7, the encryption flag in 4.4.4 and
    compression methods in 4.4.5.
- **Pack selection** (`verify_zip.dfy`): `verifyZipEvidencePack` of `src/verify_zip.js`,
  which selects exactly one `.ndjson`/`.jsonl` entry.
- **Draft pack verifier** (`pack_verifier.dfy`, `pack_verifier_props.dfy`).
  - The `verifyZipEvidencePack` of `__LOCAL_NEW/src/verify_zip.js`.
  - The entry enumeration with its three circuit breakers: entry count, compression ratio
    and declared total size.
  - Directory skipping, the expected-files check, strict early stop and `finalizePack`.
- **Draft result object** (`result.dfy`): a class whose methods update it in place. **Draft
  hash-body selector** (`canonical_hash.dfy`): a method with its loop, proved against a
  function.

Several functions are parameters:
- SHA-256 and `JSON.stringify` inside the hash functions (`AuditChain.Primitives`);
- `JSON.parse`;
- UTF-8 decoding and raw inflate (`Codecs`);
- the per-entry verifier of the draft pack verifier.

Collision-freedom of the digest is never assumed globally. A lemma that needs it takes the
hypothesis `AuditChain.NoCollision(p, a, b)` about the two pre-images it compares: the digest
gives them equal values only if they have the same canonical form. That holds when SHA-256
does not collide on their texts and `JSON.stringify` writes their canonical forms differently.
It cannot hold for two pre-images that differ only by an infinity against `null`, which
`JSON.stringify` writes alike (`AuditChain.InfiniteCountCollides`).

## Model

| member | source | states |
|---|---|---|
| VerifyNdjson.ClassifyLine | src/verify_ndjson.js:103-117 | a line is blank exactly when its trimmed text is empty; otherwise it carries the trimmed text, and it is parsed exactly when `JSON.parse` accepts that text |
| VerifyNdjson.ResultBase | src/verify_ndjson.js:8-30 | a fresh result is FAIL with no reason, no run data, zero counters, no seal and no failure context; `zip_entry` is set exactly when a non-empty entry name is given |
| VerifyNdjson.MakeFailure | src/verify_ndjson.js:38-47 | status FAIL and the given reason; each context field takes the supplied value unless it is null/undefined (`??`), else keeps the old one; counters, run and seal data untouched |
| VerifyNdjson.FinalizePartialIfAllowed | src/verify_ndjson.js:49-55 | the result is unchanged or only its status becomes PARTIAL, and it is PARTIAL exactly when it already was, or partial files are allowed and a FAIL has a partial-capable reason |
| VerifyNdjson.TrimSnippetShape | src/verify_ndjson.js:32-36 | a snippet is the whole trimmed line when it has at most 200 UTF-16 code units; a longer line gives its first 200 code units followed by "..." |
| VerifyNdjson.AstralSnippet | src/verify_ndjson.js:32-36 | a line of 150 characters outside the Basic Multilingual Plane (300 code units) keeps its first 100 characters, then "..." |
| VerifyNdjson.SplitPairSnippet | src/verify_ndjson.js:32-36 | when the 200th code unit is the first half of a surrogate pair, the snippet keeps that lone high surrogate |
| VerifyNdjson.Utf16Bmp | src/verify_ndjson.js:32-36 | a line of Basic Multilingual Plane characters has one code unit per character |
| VerifyNdjson.Utf16Append | src/verify_ndjson.js:32-36 | the code units of a concatenation are the concatenated code units |
| VerifyNdjson.Utf16Repeat | src/verify_ndjson.js:32-36 | a repeated character outside the Basic Multilingual Plane is two code units per character, its surrogate pair repeated |
| VerifyNdjson.TrimSnippet | src/verify_ndjson.js:32-36 | definition only, with no contract of its own: the trimmed line, measured and cut in UTF-16 code units; TrimSnippetShape states it |
| VerifyNdjson.CheckOptionalV | src/verify_ndjson.js:71-76 | definition only: an own `v` must be the string "1.1"; UnsupportedVersionFails states its effect |
| VerifyNdjson.ParseFailure | src/verify_ndjson.js:113-135 | definition only: BAD_JSON when a non-blank line follows, else TRUNCATED_LAST_LINE and the partial rule; ParseErrorFails and ParseFailureFacts state it |
| VerifyNdjson.Step | src/verify_ndjson.js:99-457 | definition only: one pass of the loop body; StepStopped, ReachNext and GoodStep state its effect |
| VerifyNdjson.Finish | src/verify_ndjson.js:459-488 | definition only: EMPTY_FILE, MISSING_SEAL or PASS at the end of the stream; EndOutcomes states it |
| VerifyNdjson.Verify | src/verify_ndjson.js:78-488 | definition only: the walk of `Step` over the lines, then `Finish`; ReachGood, EndOutcomes, PassOutcome and StatusMatchesReason state its properties |
| VerifyNdjson.HasMoreNonBlankSpec | src/verify_ndjson.js:64-69 | the look-ahead after a parse error finds something exactly when some remaining line is non-blank |
| VerifyNdjson.PeekHasMoreNonEmptyLines | src/verify_ndjson.js:64-69 | the scanning loop returns true exactly when a non-blank line follows |
| VerifyNdjson.FirstMissingSpec | src/verify_ndjson.js:259-273 | the required-field check finds nothing exactly when every key is an own property, and otherwise names the first absent key |
| VerifyNdjson.CheckSegment | src/verify_ndjson.js:245-318 | a rejected segment reports record type 'segment' and MISSING_FIELD, SEGMENT_HASH_MISMATCH or CHAIN_MISMATCH; an accepted one yields `chainHash(prev_ch, segmentHash(canonicalSegmentBody(seg)))` |
| VerifyNdjson.CheckSegmentAccepts | src/verify_ndjson.js:245-318 | a segment passes exactly when `seg` is an object with the nine required fields, of the current run, with `h` its body's hash and `ch` the link of `h` to `prev_ch` |
| VerifyNdjson.CheckGap | src/verify_ndjson.js:320-384 | a rejected gap reports record type 'gap' and MISSING_FIELD, GAP_HASH_MISMATCH or CHAIN_MISMATCH; an accepted one yields `chainHash(prev_ch, gapHash(range, reason))` |
| VerifyNdjson.CheckGapAccepts | src/verify_ndjson.js:320-384 | a gap passes exactly when the five required fields are present, `reason_code` is an integer, `h` is its hash and `ch` links `h` to `prev_ch` |
| VerifyNdjson.SealBinding | src/verify_ndjson.js:402-438 | the seal's bindings pass exactly when `algo` is 'sha256', `root_ch` is the root and `terminal_ch` is `prev_ch`; a wrong algo is reported first, then a wrong root |
| VerifyNdjson.FailAt | src/verify_ndjson.js:140-456 | a per-record failure stops the loop with its reason, and with a record reason it is FAIL (never PARTIAL) with the line's number and snippet |
| VerifyNdjson.RunStep | src/verify_ndjson.js:165-211 | the check of the first record keeps the line count, and a rejection is reported from the current state |
| VerifyNdjson.SealStep | src/verify_ndjson.js:386-445 | a seal's verdict stays on the current line, a rejection recording at most `algo` |
| VerifyNdjson.SegmentStep | src/verify_ndjson.js:245-318 | a segment's verdict stays on the current line |
| VerifyNdjson.GapStep | src/verify_ndjson.js:320-384 | a gap's verdict stays on the current line |
| VerifyNdjson.ChainStep | src/verify_ndjson.js:213-445 | a record after the run record gets a verdict on the current line |
| VerifyNdjson.RecordCheck | src/verify_ndjson.js:141-456 | the verdict on a parsed record keeps the line count, or rejects on the current line |
| VerifyNdjson.RecordStep | src/verify_ndjson.js:141-456 | an accepted record leaves the line count and `seenAny` as they were; a rejected one stops as FAIL with a record reason, the line's number and snippet |
| VerifyNdjson.StepParsed | src/verify_ndjson.js:102-112 | a parsed line is counted, marks something seen and goes to the record checks |
| VerifyNdjson.ReadLine | src/verify_ndjson.js:99-457 | one pass of the loop body over line `i` takes the step the function model takes |
| VerifyNdjson.VerifyNdjsonStream | src/verify_ndjson.js:78-488 | the loop returns the result of `Verify` on the lines |
| VerifyNdjsonProps.ReachGo | src/verify_ndjson.js:99-488 | from any state the loop reaches, the rest of the walk gives the verification's result |
| VerifyNdjsonProps.StopAt | src/verify_ndjson.js:99-457 | a stop at a reachable line is the verification's result |
| VerifyNdjsonProps.EndAt | src/verify_ndjson.js:459-487 | reaching the end of the lines means the end-of-stream checks decide |
| VerifyNdjsonProps.RunAccepted | src/verify_ndjson.js:180-211 | a record accepted before any run is an object, has an acceptable `v`, is a 'run' with a non-empty `run_id`, and makes the chain active with `prev_ch` at `auditRootHash(run_id)` |
| VerifyNdjsonProps.ChainVerdict | src/verify_ndjson.js:141-243 | after the run record, a well-formed record with a string type goes to the chain checks |
| VerifyNdjsonProps.SealAcceptedState | src/verify_ndjson.js:386-445 | a seal with every required field and matching bindings is accepted |
| VerifyNdjsonProps.TraceAccepted | src/verify_ndjson.js:239-243 | a trace after the run record is accepted: it sets the trace latch and counts one more record |
| VerifyNdjsonProps.SegmentAccepted | src/verify_ndjson.js:213-318 | an accepted segment follows no trace and no seal, passes every segment check, and moves `prev_ch` to the new link |
| VerifyNdjsonProps.GapAccepted | src/verify_ndjson.js:213-384 | an accepted gap follows no trace and no seal, passes every gap check, and moves `prev_ch` to the new link |
| VerifyNdjsonProps.SealAccepted | src/verify_ndjson.js:213-445 | an accepted seal follows no trace and no seal and has matching bindings |
| VerifyNdjsonProps.ChainAccepted | src/verify_ndjson.js:165-456 | a record accepted after the run record is an object with a string type among trace, segment, gap and seal |
| VerifyNdjsonProps.CountsOfBlank | src/verify_ndjson.js:102-106 | blank lines count no record and leave the chain at its root |
| VerifyNdjsonProps.InitGood | src/verify_ndjson.js:89-97 | the invariant holds before the first line |
| VerifyNdjsonProps.CountTypeExtend | src/verify_ndjson.js:239-444 | one more line adds one to the count of its type only |
| VerifyNdjsonProps.CountRecordsExtend | src/verify_ndjson.js:209-444 | one more line adds one to the record count exactly when it is parsed |
| VerifyNdjsonProps.ChainFoldExtend | src/verify_ndjson.js:314-316 | one more segment or gap line extends the chain fold by one `chainHash`; other lines leave it |
| VerifyNdjsonProps.CountsExtend | src/verify_ndjson.js:102-444 | every prefix measure of the invariant grows by exactly the contribution of the new line |
| VerifyNdjsonProps.GoodAfterBlank | src/verify_ndjson.js:102-106 | a blank line keeps the invariant |
| VerifyNdjsonProps.GoodAfterRun | src/verify_ndjson.js:204-210 | an accepted run record keeps the invariant, with the chain at the run's root |
| VerifyNdjsonProps.GoodAfterTrace | src/verify_ndjson.js:239-243 | an accepted trace keeps the invariant |
| VerifyNdjsonProps.GoodAfterSegment | src/verify_ndjson.js:314-317 | an accepted segment keeps the invariant: `prev_ch` is the chain fold and `segments` the segment count |
| VerifyNdjsonProps.GoodAfterGap | src/verify_ndjson.js:380-383 | an accepted gap keeps the invariant: `prev_ch` is the chain fold and `gaps` the gap count |
| VerifyNdjsonProps.GoodAfterSeal | src/verify_ndjson.js:440-444 | an accepted seal keeps the invariant, recording the seal, the algorithm and the terminal value |
| VerifyNdjsonProps.GoodAfterChainRecord | src/verify_ndjson.js:213-445 | any record accepted after the run record keeps the invariant |
| VerifyNdjsonProps.GoodStep | src/verify_ndjson.js:99-457 | every step that continues keeps the invariant |
| VerifyNdjsonProps.ReachGood | src/verify_ndjson.js:89-457 | every state the loop reaches satisfies the invariant: line count, seen flags, phase, counters equal to the type counts, `prev_ch` equal to `chainHash` folded from the root, untouched failure context |
| VerifyNdjsonProps.ReachPrevious | src/verify_ndjson.js:99-457 | a state reachable after line `j` comes from a reachable state whose step at `j` continues into it |
| VerifyNdjsonProps.ReachBasics | src/verify_ndjson.js:99-457 | a reachable state has read exactly `k` lines and has no failure context |
| VerifyNdjsonOutcomes.ReachNext | src/verify_ndjson.js:99-457 | a step that continues gives the next reachable state, and the walk from there gives the same result |
| VerifyNdjsonOutcomes.StepStopped | src/verify_ndjson.js:110-456 | a step that stops reports a reason (a record reason, BAD_JSON or TRUNCATED_LAST_LINE) and its status agrees with it |
| VerifyNdjsonOutcomes.GoStopped | src/verify_ndjson.js:99-457 | a stop ends the walk with its own result |
| VerifyNdjsonOutcomes.GoClassified | src/verify_ndjson.js:99-488 | from every reachable state the result is PASS with no reason, PARTIAL only with partial files allowed and a partial-capable reason, and FAIL otherwise |
| VerifyNdjsonOutcomes.StatusMatchesReason | src/verify_ndjson.js:49-55 | on every input, PASS exactly when there is no reason; PARTIAL exactly when partial files are allowed and the reason is TRUNCATED_LAST_LINE or MISSING_SEAL; FAIL otherwise |
| VerifyNdjsonOutcomes.FinishedAtEnd | src/verify_ndjson.js:459-487 | a result with no reason, EMPTY_FILE or MISSING_SEAL comes from reading every line |
| VerifyNdjsonOutcomes.BlankPrefixReach | src/verify_ndjson.js:102-106 | after blank lines only, the state is the initial one with the lines counted |
| VerifyNdjsonOutcomes.EndOutcomes | src/verify_ndjson.js:459-487 | EMPTY_FILE exactly when every line is blank; MISSING_SEAL exactly when every line was accepted, one is non-blank and none is a seal; PASS exactly when every line was accepted and one is a seal |
| VerifyNdjsonOutcomes.PassOutcome | src/verify_ndjson.js:459-487 | a PASS carries no reason, the run and its root, `algo` 'sha256', a terminal value equal to `chainHash` folded over every segment and gap, counters equal to the record, segment and gap counts, exactly one seal and no failure context |
| VerifyNdjsonOutcomes.FailAtFacts | src/verify_ndjson.js:140-456 | a record failure reports FAIL with its reason, record type and missing field, the 1-based line and the snippet |
| VerifyNdjsonOutcomes.RejectedResult | src/verify_ndjson.js:140-456 | a record rejected at a reachable line is the verification's result |
| VerifyNdjsonOutcomes.RejectedAt | src/verify_ndjson.js:140-456 | a record rejected at a reachable line ends the verification as FAIL with that failure's reason, record type, missing field, line and snippet |
| VerifyNdjsonOutcomes.AcceptedAt | src/verify_ndjson.js:140-456 | a record accepted at a reachable line gives the state before the next line |
| VerifyNdjsonOutcomes.NonObjectRecordFails | src/verify_ndjson.js:141-151 | a parsed non-object (null, scalar, array) fails with MISSING_FIELD 'record' on its line |
| VerifyNdjsonOutcomes.UnsupportedVersionFails | src/verify_ndjson.js:71-76 | an own `v` other than "1.1" fails with UNSUPPORTED_VERSION, missing field 'v' and the record's `type` as the record type; lines 153-163 of the same file report it |
| VerifyNdjsonOutcomes.ParseErrorFails | src/verify_ndjson.js:110-139 | an unparseable line gives BAD_JSON when a non-blank line follows and TRUNCATED_LAST_LINE otherwise; only the latter becomes PARTIAL, and only with partial files allowed |
| VerifyNdjsonOutcomes.ParseErrorResult | src/verify_ndjson.js:110-139 | the result once an unparseable line is reached is the parse failure at that line |
| VerifyNdjsonOutcomes.ParseFailureFacts | src/verify_ndjson.js:118-138 | a parse failure reports its reason, status, line and snippet, with no missing field |
| VerifyNdjsonOutcomes.FirstRecordNotRunFails | src/verify_ndjson.js:165-192 | a first record that is not a run fails with MISSING_RUN; a non-string type also reports missing field 'type' |
| VerifyNdjsonOutcomes.FirstRunWithoutIdFails | src/verify_ndjson.js:193-203 | a first run record without a non-empty string `run_id` fails with MISSING_FIELD 'run_id' |
| VerifyNdjsonOutcomes.FirstRunStartsChain | src/verify_ndjson.js:204-210 | a first run with a valid `run_id` sets the run, the root and `prev_ch` to `auditRootHash(run_id)` and counts one record |
| VerifyNdjsonOutcomes.ChainAfterTraceFails | src/verify_ndjson.js:213-224 | after a trace, a segment, gap or seal fails with SEGMENT_AFTER_TRACE, tested before the seal latch |
| VerifyNdjsonOutcomes.ChainAfterSealFails | src/verify_ndjson.js:226-237 | after a seal, a segment, gap or seal fails with TERMINAL_MISMATCH, so a second seal is never accepted |
| VerifyNdjsonOutcomes.TraceAlwaysAccepted | src/verify_ndjson.js:239-243 | a trace after the run record is accepted, before or after the seal |
| VerifyNdjsonOutcomes.UnknownTypeFails | src/verify_ndjson.js:447-456 | any other type after the run record, a second run included, fails with BAD_RECORD_TYPE; a non-string type fails with MISSING_FIELD 'type' |
| VerifyNdjsonOutcomes.SealChecks | src/verify_ndjson.js:386-445 | a seal is checked in a fixed order: required fields, `algo` (recorded even when a later check fails), the root, then the terminal value against `prev_ch`, which is the chain fold |
| VerifyNdjsonOutcomes.SegmentChecks | src/verify_ndjson.js:245-318 | a segment fails with the first failing segment check, or moves `prev_ch` to `chainHash(prev_ch, h)` |
| VerifyNdjsonOutcomes.GapChecks | src/verify_ndjson.js:320-384 | a gap fails with the first failing gap check, or moves `prev_ch` to `chainHash(prev_ch, h)` |
| VerifyNdjsonTamper.SegmentTamperDetected | src/verify_ndjson.js:287-299 | when the digest does not collide on the two segment pre-images, a segment whose `h` was computed over a body that differs in canonical form from the one it carries is rejected, and not for its link |
| VerifyNdjsonTamper.SegmentWrongHashRejected | src/verify_ndjson.js:287-299 | a segment whose `h` is not its body's hash is rejected before its link is looked at |
| VerifyNdjsonTamper.SegmentRelinkDetected | src/verify_ndjson.js:301-312 | when the digest does not collide on the two link pre-images, a segment linked to a chain value other than the current one is rejected |
| VerifyNdjsonTamper.GapTamperDetected | src/verify_ndjson.js:349-365 | when the digest does not collide on the two gap pre-images, a gap whose hashed range or reason was changed in canonical form is rejected, and not for its link |
| VerifyNdjsonTamper.GapRelinkDetected | src/verify_ndjson.js:367-378 | when the digest does not collide on the two link pre-images, a gap linked to a chain value other than the current one is rejected |
| AuditChain.CanonicalSegmentBody | src/audit_chain_v1_2.js:13-23 | the body holds exactly the seven hashed keys: `sealed` as its truthiness, the other six copied; `h`, `ch` and extra fields are dropped |
| AuditChain.GapBody | src/audit_chain_v1_2.js:30-34 | the rebuilt gap object holds exactly `seg_id_start`, `seg_id_end` and `reason_code` |
| AuditChain.SegmentBodyIgnoresOtherFields | src/audit_chain_v1_2.js:13-23 | segments agreeing on the six copied fields and on the truthiness of `sealed` have equal bodies |
| AuditChain.GapHashIgnoresOtherFields | src/audit_chain_v1_2.js:29-36 | `gapHash` depends on `seg_id_start`, `seg_id_end` and `reason_code` only |
| AuditChain.CanonicalizeTagged | src/audit_chain_v1_2.js:9-40 | canonicalising a tagged pre-image keeps the tag first |
| AuditChain.PreimagesDomainSeparated | src/audit_chain_v1_2.js:9-40 | each of the four canonical pre-images starts with its own tag, and the four tags are distinct |
| AuditChain.HashesDomainSeparated | src/audit_chain_v1_2.js:9-40 | when the digest does not collide on any two of the four pre-images, no two of the four hash functions produce the same value |
| AuditChain.RootHashInjective | src/audit_chain_v1_2.js:9-11 | distinct runs have distinct roots when the digest does not collide on their two pre-images |
| AuditChain.LinkPreimageInjective | src/audit_chain_v1_2.js:38-40 | distinct `(prevCh, h)` pairs have distinct canonical link pre-images |
| AuditChain.ChainHashInjective | src/audit_chain_v1_2.js:38-40 | when the digest does not collide on the two link pre-images, a link value determines both the previous chain value and the record hash |
| AuditChain.SegmentHashBindsBody | src/audit_chain_v1_2.js:25-27 | when the digest does not collide on the two pre-images, bodies of different canonical form hash differently |
| AuditChain.DigestIgnoresInfinity | src/audit_chain_v1_2.js:9-40 | for a `JSON.stringify` that writes every infinity as `null`, a digest is unchanged when every infinity in the value becomes `null` |
| AuditChain.SegmentHashIgnoresInfinity | src/audit_chain_v1_2.js:25-27 | likewise for `segmentHash`: a segment body and its infinities-as-`null` version hash alike |
| AuditChain.InfiniteCountCanonical | src/stable_stringify.js:12-20 | `{"count": 1e999}` and `{"count": null}` have different canonical forms |
| AuditChain.InfiniteCountCollides | src/audit_chain_v1_2.js:25-27 | those two segment bodies share their hash, so the per-pair collision hypothesis fails for them |
| AuditChain.CanonicalLookup | src/stable_stringify.js:16-18 | objects with equal canonical forms have the same keys other than `__proto__`, with values of equal canonical form |
| AuditChain.GapHashBindsRange | src/audit_chain_v1_2.js:29-36 | when the digest does not collide on the two pre-images, gaps differing in the canonical form of a hashed field hash differently |
| AuditChain.CanonicalGetAgrees | src/stable_stringify.js:16-18 | objects with equal canonical forms agree on the canonical form of every property other than `__proto__` |
| AuditChain.Digest | src/audit_chain_v1_2.js:9-40 | definition only: `sha256Hex` of `stableStringify`, both parameters; NoCollision is the hypothesis about it |
| AuditChain.AuditRootHash | src/audit_chain_v1_2.js:9-11 | definition only: the digest of `[ROOT_TAG, run_id]`; RootHashInjective and HashesDomainSeparated state its properties |
| AuditChain.SegmentHash | src/audit_chain_v1_2.js:25-27 | definition only: the digest of `[SEGMENT_TAG, segBody]`; SegmentHashBindsBody states its properties |
| AuditChain.GapHash | src/audit_chain_v1_2.js:29-36 | definition only: the digest of the tag and the rebuilt three-key body; GapHashBindsRange and GapHashIgnoresOtherFields state its properties |
| AuditChain.ChainHash | src/audit_chain_v1_2.js:38-40 | definition only: the digest of `[LINK_TAG, prevCh, h]`; ChainHashInjective states its properties |
| StableStringify.RankInjective | src/stable_stringify.js:16 | distinct keys have distinct sort keys |
| StableStringify.BeforeTotal | src/stable_stringify.js:16 | the key order is total on distinct keys |
| StableStringify.BeforeIrreflexive | src/stable_stringify.js:16 | the key order is irreflexive |
| StableStringify.BeforeTransitive | src/stable_stringify.js:16 | the key order is transitive |
| StableStringify.SortedDistinct | src/stable_stringify.js:16 | strictly sorted fields have distinct keys |
| StableStringify.Insert | src/stable_stringify.js:16 | insertion adds exactly the one field |
| StableStringify.SortFields | src/stable_stringify.js:16 | `Object.keys(v).sort()` yields a permutation of the fields |
| StableStringify.SortedCons | src/stable_stringify.js:16 | a field before every key of a sorted sequence keeps it sorted at the front |
| StableStringify.InsertSorted | src/stable_stringify.js:16 | inserting a new key into sorted fields keeps them sorted |
| StableStringify.SortSorted | src/stable_stringify.js:16 | sorting fields with distinct keys gives strictly ascending code-unit order |
| StableStringify.SortedHeadsEqual | src/stable_stringify.js:16 | two sorted arrangements of the same fields start alike |
| StableStringify.TailsPermute | src/stable_stringify.js:16 | removing equal heads from permutations leaves permutations |
| StableStringify.SortedUnique | src/stable_stringify.js:16 | a strictly sorted arrangement of a set of fields is unique |
| StableStringify.IndexFields | src/stable_stringify.js:17-18 | the array-index fields, drawn from the object |
| StableStringify.OtherFields | src/stable_stringify.js:17-18 | the other fields, drawn from the object |
| StableStringify.PartitionPermutes | src/stable_stringify.js:17-18 | index fields and other fields together are the object's fields |
| StableStringify.IndexFieldsSorted | src/stable_stringify.js:17-18 | the index fields of a sorted sequence stay sorted |
| StableStringify.OtherFieldsSorted | src/stable_stringify.js:17-18 | the other fields of a sorted sequence stay sorted |
| StableStringify.OwnPropertyOrderPermutes | src/stable_stringify.js:17-18 | an object's enumeration order is a permutation of its creation order |
| StableStringify.OwnPropertyOrderDistinct | src/stable_stringify.js:17-18 | an object built from strictly sorted fields has distinct keys |
| StableStringify.MapValues | src/stable_stringify.js:18 | every value is rewritten, every key kept, in place |
| StableStringify.Canonicalize | src/stable_stringify.js:11-20 | arrays stay arrays of the same length and objects stay objects |
| StableStringify.CanonicalizePrimitive | src/stable_stringify.js:12-14 | null, booleans, numbers and strings come back unchanged |
| StableStringify.CanonicalizeArray | src/stable_stringify.js:15 | arrays map element-wise: same length, same order, each element canonicalised |
| StableStringify.CanonicalizeObjectUnfold | src/stable_stringify.js:16-19 | an object becomes its canonicalised fields less a `__proto__` one, sorted, then enumerated in own-property order |
| StableStringify.CanonicalizeObjectFields | src/stable_stringify.js:16-19 | an object keeps exactly its key/value pairs other than a `__proto__` one, each value canonicalised, and no output key is `__proto__` |
| StableStringify.ProtoKeyDropped | src/stable_stringify.js:16-18 | an own `__proto__` property changes neither the canonical form nor, therefore, the text |
| StableStringify.AssignableMapValues | src/stable_stringify.js:16-18 | dropping `__proto__` commutes with canonicalising the values |
| StableStringify.StableStringify | src/stable_stringify.js:7-9 | definition only: `JSON.stringify` of the canonical form; StableStringifyOrderIndependent states its property |
| StableStringify.InfinityAsNull | src/stable_stringify.js:7-9 | the value `JSON.stringify` writes: every infinity becomes `null`, the shape and keys stay as they are |
| StableStringify.InfinityAsNullCanonical | src/stable_stringify.js:7-20 | writing infinities as `null` commutes with canonicalisation |
| StableStringify.InfinityAsNullCanonicalObject | src/stable_stringify.js:12-20 | the object case: assigning, sorting and enumerating commute with rewriting values |
| StableStringify.OwnPropertyOrderMapValues | src/stable_stringify.js:16-19 | enumeration order looks only at keys, so it commutes with rewriting values |
| StableStringify.IndexFieldsMapValues | src/stable_stringify.js:16-19 | splitting off the array-index keys commutes with rewriting values |
| StableStringify.MapValuesAppend | src/stable_stringify.js:16-19 | rewriting values distributes over concatenation |
| StableStringify.OwnPropertyOrderShape | src/stable_stringify.js:17-18 | an object built from sorted fields has index keys first, ascending by value, then the other keys in sorted order |
| StableStringify.CanonicalizeObjectOrder | src/stable_stringify.js:16-19 | the output's keys are array-index keys ascending by value, then all others ascending by code units |
| StableStringify.InsertMapValues | src/stable_stringify.js:16-18 | insertion looks at keys only, so it commutes with rewriting values |
| StableStringify.SortMapValues | src/stable_stringify.js:16-18 | sorting commutes with rewriting values |
| StableStringify.CanonicalizeOrderIndependent | src/stable_stringify.js:16-19 | objects holding the same key/value pairs in a different order canonicalise alike |
| StableStringify.StableStringifyOrderIndependent | src/stable_stringify.js:7-9 | such objects serialise to the same text |
| StableStringify.CanonicalValuesStay | src/stable_stringify.js:18 | values already canonical are left as they are |
| StableStringify.CanonicalizeIdempotentObject | src/stable_stringify.js:16-19 | an object whose values are idempotent canonicalises idempotently |
| StableStringify.CanonicalizeIdempotent | src/stable_stringify.js:11-20 | `canonicalize(canonicalize(v)) == canonicalize(v)` for every JSON value |
| JsStrings.CodeUnits | src/stable_stringify.js:16 | a character is one code unit in the BMP and a surrogate pair above it |
| JsStrings.Utf16 | src/stable_stringify.js:16 | a string has at least as many code units as characters, and none only when empty |
| JsStrings.CodeUnitsInjective | src/stable_stringify.js:16 | distinct characters have distinct code units |
| JsStrings.Utf16Injective | src/stable_stringify.js:16 | distinct strings have distinct UTF-16 encodings |
| JsStrings.LexLessIrreflexive | src/stable_stringify.js:16 | code-unit order is irreflexive |
| JsStrings.LexLessTransitive | src/stable_stringify.js:16 | code-unit order is transitive |
| JsStrings.LexLessTotal | src/stable_stringify.js:16 | code-unit order is total on distinct sequences |
| JsStrings.TrimStart | src/verify_ndjson.js:104 | removes exactly the leading ECMAScript whitespace |
| JsStrings.TrimEnd | src/verify_ndjson.js:104 | removes exactly the trailing ECMAScript whitespace |
| JsStrings.Trim | src/verify_ndjson.js:104 | the result neither starts nor ends with whitespace, and a string without outer whitespace is unchanged |
| JsStrings.ToLowerAscii | src/profiles/kernel_only.js:20 | lower-cases A-Z and leaves every other character |
| JsStrings.DigitChar | __LOCAL_NEW/src/result.js:44 | the digit character of value `d`, one of '0'..'9' |
| JsStrings.NatToString | __LOCAL_NEW/src/result.js:44 | the decimal form is non-empty, made of digits, without a leading zero except for 0, and read back as a numeral it is `n` |
| JsonValues.Keys | src/stable_stringify.js:16 | `Object.keys` lists the keys in field order |
| JsonValues.LookupSpec | src/verify_ndjson.js:165 | a property lookup succeeds exactly when some field has the key, yielding that field's value |
| JsonValues.LookupAt | src/verify_ndjson.js:165 | with distinct keys, each field's key looks up to its value |
| JsonValues.Get | src/verify_ndjson.js:165 | arrays and primitives have no own property the verifier asks for |
| JsonValues.Defined | src/errors.js:53-61 | an object literal keeps exactly the defined values, with distinct keys when the literal's are |
| JsonValues.DefinedLookup | src/errors.js:53-61 | reading a key back from a literal gives the value written under it, or undefined |
| JsonValues.ObjectLiteral | src/audit_chain_v1_2.js:14-22 | the literal over distinct keys has exactly those properties with the given values |
| JsonValues.ObjectLiteralDependsOnValues | src/audit_chain_v1_2.js:14-22 | a literal depends only on the values written under its keys |
| JsonValues.Assignable | src/stable_stringify.js:17-18 | assignment into a fresh object keeps exactly the pairs whose key is not `__proto__` |
| JsonValues.AssignableMultiset | src/stable_stringify.js:17-18 | a pair is kept as often as it occurs, unless its key is `__proto__` |
| JsonValues.AssignablePermutes | src/stable_stringify.js:17-18 | permuting the input permutes what is kept |
| JsonValues.AssignableDistinct | src/stable_stringify.js:17-18 | distinct keys stay distinct |
| JsonValues.AssignableNoProto | src/stable_stringify.js:17-18 | without a `__proto__` key nothing is dropped |
| JsonValues.AssignableLookup | src/stable_stringify.js:17-18 | a key other than `__proto__` is found after the assignments exactly as before |
| Errors.MakeIssue | src/errors.js:44-62 | severity defaults to 'error'; code, line and record index are as given; `h`, `details` and `message` are present exactly when supplied |
| Errors.IssueLiteral | src/errors.js:53-61 | the issue literal lists code, severity, line, record_index, h, details, message in that order |
| Errors.IssueKeysDistinct | src/errors.js:53-61 | the literal's keys are distinct |
| Errors.IssueLookup | src/errors.js:53-61 | each key of the issue object reads back what the literal wrote |
| Errors.IssueOnlyKeys | src/errors.js:53-61 | the issue object has no other property |
| Errors.IssueJson | src/errors.js:53-61 | code, severity, line and record_index are always present; h, details and message exactly when supplied; nothing else |
| Errors.IssueFromProperties | src/errors.js:53-61 | any object with an issue's properties reads back as that issue |
| Errors.IssueJsonRoundTrip | src/errors.js:44-62 | reading back the object `makeIssue` builds gives the issue again |
| KernelOnly.Report | src/profiles/kernel_only.js:11-16 | every profile issue has severity 'error', the context's line and record index, and its code's name |
| KernelOnly.ValidateSegment | src/profiles/kernel_only.js:44-80 | at most three issues, all in context |
| KernelOnly.ValidateGap | src/profiles/kernel_only.js:82-108 | at most three issues, all in context |
| KernelOnly.ValidateSeal | src/profiles/kernel_only.js:110-128 | at most two issues, all in context |
| KernelOnly.ValidateTyped | src/profiles/kernel_only.js:32-131 | at most three issues, all in context |
| KernelOnly.ValidateRecord | src/profiles/kernel_only.js:8-132 | at most three issues, each with the context's line and record index and severity 'error' |
| KernelOnly.Codes | src/profiles/kernel_only.js:8-132 | the issue codes, in order |
| KernelOnly.CodesAppend | src/profiles/kernel_only.js:8-132 | codes of appended issue lists append |
| KernelOnly.CodesWhen | src/profiles/kernel_only.js:8-132 | a conditional check contributes its code exactly when it fails |
| KernelOnly.NonObjectRecord | src/profiles/kernel_only.js:10-18 | null and primitives yield exactly one E_SCHEMA issue |
| KernelOnly.MissingType | src/profiles/kernel_only.js:20-30 | a missing, non-string or empty type yields exactly one E_SCHEMA issue |
| KernelOnly.GapReads | src/profiles/kernel_only.js:82-108 | the gap checks read only the checked properties |
| KernelOnly.SealReads | src/profiles/kernel_only.js:110-128 | the seal checks read only the checked properties |
| KernelOnly.ValidateTypedReads | src/profiles/kernel_only.js:32-131 | the typed checks read only the checked properties |
| KernelOnly.AgreeExceptType | src/profiles/kernel_only.js:32-131 | records agreeing on every property but `type` agree on every checked one |
| KernelOnly.TypeCaseInsensitive | src/profiles/kernel_only.js:20 | records differing only in the case of `type` get the same issues |
| KernelOnly.RecordType | src/profiles/kernel_only.js:20 | definition only: the lower-cased `type`, or "" when it is not a string; TypeCaseInsensitive states it |
| KernelOnly.RunRecord | src/profiles/kernel_only.js:32-42 | a run yields E_MISSING_RUN_ID exactly when `run_id` is not a non-empty string, and nothing else |
| KernelOnly.SegmentRecord | src/profiles/kernel_only.js:44-80 | without an object `seg` exactly E_SEGMENT_MISSING_SEG; otherwise, in order, E_SCHEMA for `seg.run_id`, E_SCHEMA for `seg.seg_id`, E_SEGMENT_MISSING_HASH_FIELDS |
| KernelOnly.GapRecord | src/profiles/kernel_only.js:82-108 | in order E_GAP_MISSING_RANGE, E_GAP_MISSING_REASON_CODE, E_GAP_MISSING_HASH_FIELDS, each exactly when its check fails |
| KernelOnly.SealRecord | src/profiles/kernel_only.js:110-128 | E_SCHEMA for a non-string `algo`, then E_SCHEMA for a non-string `root_ch` or `terminal_ch` |
| KernelOnly.LooseTypes | src/profiles/kernel_only.js:130-131 | a trace, or any other type, yields no issues |
| ZipReader.U16 | src/zip_reader.js:8 | a 16-bit read succeeds exactly within the buffer, below 2^16, and is a range error otherwise |
| ZipReader.U32 | src/zip_reader.js:9 | a 32-bit read succeeds exactly within the buffer, below 2^32, and is a range error otherwise |
| ZipReader.Le16 | src/zip_reader.js:8 | a 16-bit field is written as two bytes |
| ZipReader.Le32 | src/zip_reader.js:9 | a 32-bit field is written as four bytes |
| ZipReader.U16Le16 | src/zip_reader.js:8 | reading a written 16-bit field gives it back |
| ZipReader.U32Le32 | src/zip_reader.js:9 | reading a written 32-bit field gives it back |
| ZipReader.Slice | src/zip_reader.js:82 | `buf.slice` within bounds is exactly the byte range |
| ZipReader.SearchDownSpec | src/zip_reader.js:14-18 | the backward search gives -1 exactly when no offset in range holds the signature, else the highest that does |
| ZipReader.EocdOffsetSpec | src/zip_reader.js:11-19 | `findEocdOffset` gives the greatest offset no lower than length - (65535 + 22), and no higher than length - 22, holding the EOCD signature, or -1 when there is none, in particular for buffers shorter than 22 bytes |
| ZipReader.SearchDown | src/zip_reader.js:11-19 | definition only: the backward scan from `i` down to the floor; EocdOffsetSpec states it |
| ZipReader.EocdOffset | src/zip_reader.js:11-19 | definition only: the scan from `length - 22` down to `max(0, length - 65557)`; EocdOffsetSpec states it |
| ZipReader.FindEocdOffset | src/zip_reader.js:11-19 | the loop returns that offset |
| ZipReader.ReadCentralHeader | src/zip_reader.js:33-56 | a header is read only at the central directory signature, and a wrong signature is the bad-central-directory error |
| ZipReader.ReadCentralHeaderFields | src/zip_reader.js:35-56 | the entry's fields are the little-endian words at offsets 8, 10, 20, 24 and 42, the name is the bytes after the 46 fixed ones, and the next header follows name, extra field and comment (lengths at 28, 30, 32) |
| ZipReader.ParseHeadersSpec | src/zip_reader.js:30-57 | a successful parse reads exactly `totalEntries` headers, each at the offset where the one before ended |
| ZipReader.ParseHeaders | src/zip_reader.js:30-57 | definition only: the loop over `total` central directory headers; ParseHeadersSpec states it |
| ZipReader.ParseCentral | src/zip_reader.js:26-57 | definition only: header parsing from the EOCD's directory offset; ParseHeadersSpec states it |
| ZipReader.HeaderOffsetShift | src/zip_reader.js:56 | offsets counted from the second header are those from the first, one later |
| ZipReader.HeaderOffsetFirst | src/zip_reader.js:30-57 | a later header is reached only through the first |
| ZipReader.FirstBadHeaderFails | src/zip_reader.js:30-57 | the first header that cannot be read decides the parse's error |
| ZipReader.BadSignatureFails | src/zip_reader.js:33 | a header without the signature, after headers that were read, fails the listing of the central directory |
| ZipReader.ZipListing | src/zip_reader.js:21-65 | no EOCD record is the missing-EOCD error, and a listing keeps the buffer |
| ZipReader.ZipListingFields | src/zip_reader.js:23-64 | after the EOCD its three fields are readable; the listing is the header parse, its error, or the out-of-bounds error when the central directory ends past the buffer |
| ZipReader.PrependEmpty | src/zip_reader.js:30-57 | prepending no headers changes nothing |
| ZipReader.PrependStep | src/zip_reader.js:30-57 | reading one more header moves it onto the entries so far |
| ZipReader.ReadCentralDirectory | src/zip_reader.js:30-57 | the header loop returns the header parse |
| ZipReader.ListZipEntries | src/zip_reader.js:21-65 | `listZipEntries` returns the listing |
| ZipReader.ReadZipEntryBytes | src/zip_reader.js:67-98 | an encrypted entry is rejected first; bytes are returned only after the local signature, bounds and size checks pass and the method is 0 or 8 |
| ZipReader.ReadChecksInOrder | src/zip_reader.js:71-80 | for an unencrypted entry: a bad local signature, then data out of bounds, then the size limit, each decides the error |
| ZipReader.DataStart | src/zip_reader.js:74-76 | definition only: the local header's offset plus 30 plus its name and extra lengths; ReadChecksInOrder states its use |
| ZipReader.ReadByMethod | src/zip_reader.js:82-97 | stored gives exactly the data bytes; deflate succeeds exactly when the inflated length is the declared size; any other method is rejected |
| VerifyZip.CandidatesMembers | src/verify_zip.js:14-17 | a name is a candidate exactly when some entry of that name is not a directory and is an NDJSON name |
| VerifyZip.IsNdjsonName | src/verify_zip.js:4-7 | definition only: the lower-cased name ends in `.ndjson` or `.jsonl`; CandidatesMembers states its use |
| VerifyZip.Candidates | src/verify_zip.js:14-17 | definition only: the filter over entry names; CandidatesMembers states it |
| VerifyZip.ZipPackResult | src/verify_zip.js:9-33 | definition only: no candidate, several, or the one verified; the VerifyZip lemmas state its cases |
| VerifyZip.CandidatesNone | src/verify_zip.js:14-21 | no candidates exactly when no entry passes the filter |
| VerifyZip.CandidatesOne | src/verify_zip.js:14-24 | one candidate means exactly one entry passes the filter |
| VerifyZip.CandidatesMany | src/verify_zip.js:14-24 | two entries passing the filter make more than one candidate |
| VerifyZip.FirstNamed | src/verify_zip.js:27 | `find` gives an entry of that name, and nothing exactly when there is none |
| VerifyZip.ClassifyAll | src/verify_ndjson.js:103-117 | every raw line is classified in order |
| VerifyZip.CandidateCountDecides | src/verify_zip.js:19-24 | no candidate, or two, is an error before any entry is read |
| VerifyZip.SelectedEntryFound | src/verify_zip.js:26-27 | the single candidate's name belongs to exactly one entry, which `find` selects |
| VerifyZip.VerifiedPackIsItsEntry | src/verify_zip.js:9-33 | a verified pack is the stream verification of the only candidate's bytes, read with `maxEntryBytes` (200 MiB by default), with `allowPartial` passed on and `zip_entry` its name |
| VerifyZip.VerifyZipEvidencePack | src/verify_zip.js:9-33 | the method returns the pack result |
| PackVerifier.PackIssue | __LOCAL_NEW/src/verify_zip.js:57-65 | a pack issue has severity 'error', line 0, record index 0, the given details and message, and no `h` |
| PackVerifier.ScanEntries | __LOCAL_NEW/src/verify_zip.js:45-111 | the enumeration ends in the state, and the tripped breaker, of the entry-callback model |
| PackVerifier.QuotientExceeds | __LOCAL_NEW/src/verify_zip.js:75 | definition only: `uncomp / comp > ratio` for a finite, infinite or NaN ratio; PackVerifierProps.RatioCases states it |
| PackVerifier.RatioExceeded | __LOCAL_NEW/src/verify_zip.js:75 | definition only: a positive compressed size and a quotient above the ratio; RatioCases states it |
| PackVerifier.ScanStep | __LOCAL_NEW/src/verify_zip.js:55-100 | definition only: one entry of the enumeration; PackVerifierProps.ScanStepStops states it |
| PackVerifier.ScanFrom | __LOCAL_NEW/src/verify_zip.js:45-111 | definition only: the enumeration from an entry on; ScanEntries is proved against it |
| PackVerifier.VerifyFrom | __LOCAL_NEW/src/verify_zip.js:136-152 | definition only: the candidate loop with strict early stop; VerifyCandidates is proved against it |
| PackVerifier.PackSpec | __LOCAL_NEW/src/verify_zip.js:6-161 | definition only: the whole pack verdict; VerifyZipEvidencePack is proved against it |
| PackVerifier.CheckExpected | __LOCAL_NEW/src/verify_zip.js:120-134 | one E_ZIP_EXPECTED_MISSING per expected name not seen, in order |
| PackVerifier.MissingNamesAppend | __LOCAL_NEW/src/verify_zip.js:121-133 | the missing names of a concatenation concatenate |
| PackVerifier.MissingNamesStep | __LOCAL_NEW/src/verify_zip.js:121-133 | one more expected name adds it exactly when it was not seen |
| PackVerifier.MissingNamesSpec | __LOCAL_NEW/src/verify_zip.js:121-133 | a name is reported missing exactly when it is expected and not seen |
| PackVerifier.VerifyCandidates | __LOCAL_NEW/src/verify_zip.js:136-152 | the verification loop gives the artifacts and errors of the loop model |
| PackVerifier.FinalizePack | __LOCAL_NEW/src/verify_zip.js:157-161 | authentic exactly when there are no errors and every artifact is authentic; nothing else changes |
| PackVerifier.MissingIssues | __LOCAL_NEW/src/verify_zip.js:120-134 | one missing-file issue per missing name, in order |
| PackVerifier.VerifyZipEvidencePack | __LOCAL_NEW/src/verify_zip.js:6-161 | the method returns the pack result of the model |
| PackVerifierProps.PackDefaults | __LOCAL_NEW/src/verify_zip.js:7-16 | strict unless the mode is 'tolerant'; default limits 500 entries, 200 000 000 bytes, ratio 200; default pattern `/\.ndjson$/i` |
| PackVerifierProps.ScanStepStops | __LOCAL_NEW/src/verify_zip.js:55-100 | the breakers are tried in order (count, ratio only for a positive compressed size, total); the first that fails is the one recorded, and an entry passes exactly when none fails |
| PackVerifierProps.RatioCases | __LOCAL_NEW/src/verify_zip.js:13-75 | for a whole-number ratio the test is `uncomp > ratio * comp`; a NaN or +Infinity ratio never trips the breaker and -Infinity always does |
| PackVerifierProps.ScanStepPasses | __LOCAL_NEW/src/verify_zip.js:69-109 | a passing entry is counted, seen and totalled; a directory is skipped; another name becomes a candidate exactly when it matches |
| PackVerifierProps.ScanAppend | __LOCAL_NEW/src/verify_zip.js:54-111 | enumerating `a + b` is enumerating `a`, then `b` unless `a` tripped a breaker |
| PackVerifierProps.StopEndsEnumeration | __LOCAL_NEW/src/verify_zip.js:65-66 | once a breaker trips, no later entry is examined |
| PackVerifierProps.ScanCompleted | __LOCAL_NEW/src/verify_zip.js:54-111 | an enumeration that trips no breaker counts every entry, sees every name, totals every declared size (directories included), skips the directories and keeps the matching names in order |
| PackVerifierProps.ScanWithinLimits | __LOCAL_NEW/src/verify_zip.js:55-100 | then the count and total stayed within their maxima and no entry exceeded the ratio |
| PackVerifierProps.EntryLimitTrips | __LOCAL_NEW/src/verify_zip.js:55-67 | more than `maxEntries` entries always trip a breaker by the `(maxEntries+1)`-th entry |
| PackVerifierProps.MaxEntriesIssueAt | __LOCAL_NEW/src/verify_zip.js:55-67 | when the first `maxEntries` entries pass, the next records the E_ZIP_LIMIT entry-count issue |
| PackVerifierProps.Verified | __LOCAL_NEW/src/verify_zip.js:139-141 | one artifact per candidate, with its verification verdict |
| PackVerifierProps.VerifiedCons | __LOCAL_NEW/src/verify_zip.js:139-141 | verifying one more candidate appends its artifact |
| PackVerifierProps.VerifyTolerant | __LOCAL_NEW/src/verify_zip.js:136-152 | tolerant mode verifies every candidate and records nothing for a failing one |
| PackVerifierProps.FirstFailing | __LOCAL_NEW/src/verify_zip.js:142-151 | the first candidate that fails verification, or none |
| PackVerifierProps.VerifyStrict | __LOCAL_NEW/src/verify_zip.js:136-152 | strict mode verifies up to and including the first failing candidate, which adds one E_SCHEMA |
| PackVerifierProps.VerifyStrictBlocked | __LOCAL_NEW/src/verify_zip.js:138 | strict mode verifies nothing once an error is recorded |
| PackVerifierProps.OpenFailureReported | __LOCAL_NEW/src/verify_zip.js:31-43 | an unopenable archive gives exactly one E_ZIP_OPEN error, no artifact and an inauthentic pack |
| PackVerifierProps.PackParts | __LOCAL_NEW/src/verify_zip.js:18-161 | a pack's errors and artifacts are the verification loop's, started with the breaker's issue and the missing files; counters, mode and limits as recorded |
| PackVerifierProps.TolerantPack | __LOCAL_NEW/src/verify_zip.js:120-152 | in tolerant mode the errors are the tripped breaker's alone and every candidate is verified |
| PackVerifierProps.StrictPackErrors | __LOCAL_NEW/src/verify_zip.js:120-152 | in strict mode the errors are the breaker's, the missing files', then at most one E_SCHEMA; the first two stop every verification |
| PackVerifierProps.StrictAuthentic | __LOCAL_NEW/src/verify_zip.js:54-161 | a strict pack is authentic exactly when no breaker trips, every expected file is present and every candidate verifies |
| PackVerifierProps.DirectoriesNeverVerified | __LOCAL_NEW/src/verify_zip.js:102-109 | directory entries never become candidates |
| VerificationResults.Bump | __LOCAL_NEW/src/result.js:39 | one more under the key, every other count unchanged |
| VerificationResults.NumericReasonSharesKey | __LOCAL_NEW/src/result.js:44 | a numeric reason code and its decimal string share a counter |
| VerificationResults.JsStringThrows | __LOCAL_NEW/src/result.js:44 | `String` throws on an object exactly when it has an own `toString`, on an array exactly when an element throws, and never on other values |
| VerificationResults.JoinThrows | __LOCAL_NEW/src/result.js:44 | joining array elements throws exactly when one of them does |
| VerificationResults.JsString | __LOCAL_NEW/src/result.js:44 | definition only: `String(v)`, "undefined" for a missing value; JsStringThrows states its error cases |
| VerificationResults.JsonString | __LOCAL_NEW/src/result.js:44 | definition only: `String` of a JSON value; JsStringThrows and NumericReasonSharesKey state it |
| VerificationResults.IntToString | __LOCAL_NEW/src/result.js:44 | definition only: a sign and NatToString; NumericReasonSharesKey states it |
| VerificationResults.NumberToString | __LOCAL_NEW/src/result.js:44 | definition only: integers below 10^21 in decimal, infinities by name, else the format parameter |
| VerificationResults.VerificationResult.constructor | __LOCAL_NEW/src/result.js:1-28 | status 'invalid', not authentic or partial, no run data, zero counters, no issues, empty stats, the given mode |
| VerificationResults.VerificationResult.Finalize | __LOCAL_NEW/src/result.js:30-35 | authentic exactly when status is 'ok' with no errors, partial exactly when 'partial' with no errors, never both; nothing else changes |
| VerificationResults.VerificationResult.AddStat | __LOCAL_NEW/src/result.js:37-40 | one more record of the type, other types unchanged, `key` ignored; every other field unchanged |
| VerificationResults.VerificationResult.AddGapReasonStat | __LOCAL_NEW/src/result.js:42-46 | one more gap under `String(reason_code)`, other keys unchanged; when `String` throws (an object with an own `toString`, or an array holding one) the TypeError is returned and nothing is counted; every other field unchanged |
| VerificationResults.FinalizeTwice | __LOCAL_NEW/src/result.js:30-35 | finalising again keeps the booleans finalised and the status and errors unchanged |
| CanonicalHash.OwnEntries | __LOCAL_NEW/src/canonical_hash.js:13 | `Object.entries` gives an object's fields, or an array's elements under decimal indices |
| CanonicalHash.HashBody | __LOCAL_NEW/src/canonical_hash.js:8-21 | null and non-objects come back unchanged; objects and arrays give a fresh object |
| CanonicalHash.CanonicalHashBody | __LOCAL_NEW/src/canonical_hash.js:8-21 | the loop returns the body of the model |
| CanonicalHash.KeepBodyMembers | __LOCAL_NEW/src/canonical_hash.js:12-19 | the body holds exactly the entries whose key is not `h`, `p_h`, `reason_text` or `__proto__`, with identical values |
| CanonicalHash.KeepBodyAppend | __LOCAL_NEW/src/canonical_hash.js:12-19 | the body of a concatenation concatenates |
| CanonicalHash.KeepBodyNothingExcluded | __LOCAL_NEW/src/canonical_hash.js:12-19 | entries with no excluded key are all kept, in place |
| CanonicalHash.KeepBodyDistinct | __LOCAL_NEW/src/canonical_hash.js:12-19 | an object's keys stay distinct in its body |
| CanonicalHash.HashBodyLookup | __LOCAL_NEW/src/canonical_hash.js:12-19 | a kept key has the record's own value; an excluded key and `__proto__` have none |
| CanonicalHash.ExcludedValuesIrrelevant | __LOCAL_NEW/src/canonical_hash.js:14-17 | records differing only in the values of `h`, `p_h` and `reason_text` have equal bodies |
| CanonicalHash.ExcludedFieldIrrelevant | __LOCAL_NEW/src/canonical_hash.js:14-17 | adding or removing an excluded or `__proto__` field anywhere leaves the body as it was |
| CanonicalHash.ArrayBody | __LOCAL_NEW/src/canonical_hash.js:9-19 | an array's body is the object of its elements under their decimal indices |
| CanonicalHash.HashBodyIdempotent | __LOCAL_NEW/src/canonical_hash.js:8-21 | selecting the body twice is selecting it once |
| CanonicalHash.Excluded | __LOCAL_NEW/src/canonical_hash.js:14-17 | definition only: the keys `h`, `p_h` and `reason_text`; KeepBodyMembers states its use |
| CanonicalHash.KeepBody | __LOCAL_NEW/src/canonical_hash.js:12-19 | definition only: the entries a hashed body keeps; KeepBodyMembers and HashBodyLookup state it |

## Left out

- I/O is not modelled. The input is a sequence of already split lines:
  - `streamFromInput` (src/verify_ndjson.js:57-62) and the readline stream are left out;
  - so are `readFileSync` in `listZipEntries`, and `openZip`, yauzl's events and the stream
    plumbing of `verifyZipEntryNdjson` (__LOCAL_NEW/src/verify_zip.js:163-244).

  The draft pack verifier takes the archive as a sequence of entry descriptors, or `None`
  when it cannot be opened, and takes the per-entry verdict as a function.
- `JSON.parse`, `JSON.stringify`, SHA-256, UTF-8 decoding and `inflateRawSync` are function
  parameters. Number formatting and string escaping therefore lie outside the model.
  - Collision-freedom is not assumed of the digest as a whole. A lemma that needs it takes
    `AuditChain.NoCollision(p, a, b)` for the very pre-images it compares (or
    `NoCollisionAmong` for several). A faithful digest satisfies it exactly when SHA-256 does
    not collide on the two texts and `JSON.stringify` writes them differently.
  - The segment and gap hashes do not tell an infinity (what `JSON.parse` gives for `1e999`)
    from `null`, because `JSON.stringify` writes both as `null`. Changing such a field after
    hashing (`seg.count`, an `events` item, a gap's `seg_id_start`) goes undetected. The
    `*TamperDetected` lemmas say nothing about such pairs: their `NoCollision` hypothesis
    fails for them (`AuditChain.InfiniteCountCollides`).
- `src/reason_codes.js` is not part of this model. `REASON` is an enumeration of the names
  the stream verifier uses. `isPartialCapable` is the set {TRUNCATED_LAST_LINE, MISSING_SEAL}.
- Every `ISSUE` value equals its name by construction of `Errors.CodeName`. No separate lemma
  states it.
- NaN is not a JSON value and is left out of `Json`. A number has exactly one representation:
  an integral value (with -0 the same as 0) is `Int`, a finite non-integral value is a `Frac`
  real, and the infinities are `Inf`. The reals are a superset of the doubles; rounding to
  double precision is not modelled.
  - `String()` of a number prints integers below 10^21 in decimal and the infinities by
    name. Every other number's text is a parameter.
  - `addStat` and `addGapReasonStat` take string type names and JSON reason codes. Non-JSON
    values (`undefined` aside) are left out. `String` of an object with an own `toString`
    property (or of an array holding one) is a TypeError; a `toString` that is an actual
    function cannot be written as JSON and is not modelled.
- A JSON string or key is a Dafny `string`, a sequence of Unicode scalar values. A string or
  key holding a lone surrogate, which `JSON.parse` produces from an escape such as `"\ud800"`,
  has no `Json` value. Such lines are outside the model: `parse` cannot represent them
  faithfully, and the `run_id` comparison, key sorting and hashing of such strings are not
  modelled.
- Objects are key/value sequences with distinct keys. `canonicalHashBody` on a sequence with
  repeated keys keeps both entries, where a JavaScript object would hold one.
- `canonicalize`'s `.sort()` is an insertion sort by UTF-16 code units. On distinct keys
  it gives the same order as any correct sort. The output object's enumeration order is
  modelled as ECMAScript's own-property order (array-index keys first).
- The two `toLowerCase` calls are ASCII lower-casing, as are the `i` flag of the default
  pattern and `isNdjsonName`. No other code point lower-cases to a letter of the words
  compared.
- A `RegExp` option is a predicate on names. Its `lastIndex` state, for a global or sticky
  pattern, is left out.
- PackVerifier.RatioExceeded: a ratio option is a JavaScript number, finite, an infinity or
  NaN (`typeof` is `'number'` for each, __LOCAL_NEW/src/verify_zip.js:13). The quotient
  `uncomp / comp` is exact real division, so double rounding of the quotient is not modelled.
- Rejections of the draft pack verifier's promise are not modelled: a yauzl `error` event
  during enumeration and a `verifyZipEntryNdjson` that rejects both end the call with the
  thrown error (__LOCAL_NEW/src/verify_zip.js:163-244). The per-entry verdict is a total
  `string -> bool`.
- The draft pack verifier's artifacts keep the entry name and the authenticity verdict only.
  The remaining fields of each nested result are left out.
- The CLI (`bin/`), `scripts/` and `tools/` are not part of this model: argument parsing,
  report formatting, checksum manifests and fixture generation.

Where the repository's design description and the code disagree, the model follows the code:
- In the stream verifier, the type of a record is compared exactly, not case-insensitively.
- The stream verifier has no tolerant mode and no line-length limit.
- A segment, gap or seal after a seal fails with TERMINAL_MISMATCH, not an "after seal" code.
- An unknown type after the run record gives BAD_RECORD_TYPE. So does a second run record.
- An unparseable last line is TRUNCATED_LAST_LINE whatever the options. Only its status
  depends on `allowPartial`.
- `gap` reason codes are only checked to be integers.
- `readZipEntryBytes` checks the local header's signature (src/zip_reader.js:72) before the
  data's bounds (line 78), and the bounds before the size limit (line 80).
