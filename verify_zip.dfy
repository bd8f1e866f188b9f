/**
 * The released ZIP evidence-pack verifier (src/verify_zip.js): list the archive, pick its only
 * NDJSON entry, read it and verify it as a stream.
 *
 * `utf8` decodes an entry name, `inflate` is raw DEFLATE, `readLines` is the UTF-8 decoding
 * of the entry's bytes followed by `readline`'s line splitting, and `parse` is `JSON.parse`.
 */
module VerifyZip {
  import opened Wrappers
  import opened JsStrings
  import opened JsonValues
  import opened AuditChain
  import opened ZipReader
  import opened VerifyNdjson

  /** `isNdjsonName(name)`. `toLowerCase` is the ASCII lower-casing here: no code point other
      than A-Z lower-cases to text ending in one of the letters of '.ndjson' or '.jsonl'. */
  predicate IsNdjsonName(name: string) {
    EndsWith(ToLowerAscii(name), ".ndjson") || EndsWith(ToLowerAscii(name), ".jsonl")
  }

  /** The filter of `verifyZipEvidencePack`: not a directory, and an NDJSON name. */
  predicate IsCandidate(name: string) {
    !EndsWith(name, "/") && IsNdjsonName(name)
  }

  /** The names of the candidate entries, in directory order. */
  function Candidates(es: seq<ZipEntry>): seq<string> {
    if es == [] then []
    else (if IsCandidate(es[0].name) then [es[0].name] else []) + Candidates(es[1..])
  }

  /** A name is a candidate exactly when some entry of that name passes the filter. */
  lemma {:induction false} CandidatesMembers(es: seq<ZipEntry>)
    ensures forall x :: x in Candidates(es) <==> exists k :: 0 <= k < |es| && es[k].name == x && IsCandidate(x)
  {
    if es != [] {
      CandidatesMembers(es[1..]);
      forall x ensures x in Candidates(es) <==> exists k :: 0 <= k < |es| && es[k].name == x && IsCandidate(x) {
        if x in Candidates(es[1..]) {
          var k :| 0 <= k < |es[1..]| && es[1..][k].name == x && IsCandidate(x);
          assert es[k + 1].name == x;
        }
        if exists k :: 0 <= k < |es| && es[k].name == x && IsCandidate(x) {
          var k :| 0 <= k < |es| && es[k].name == x && IsCandidate(x);
          if k > 0 {
            assert es[1..][k - 1].name == x;
          }
        }
      }
    }
  }

  /** There are no candidates exactly when no entry passes the filter. */
  lemma {:induction false} CandidatesNone(es: seq<ZipEntry>)
    ensures |Candidates(es)| == 0 <==> forall k :: 0 <= k < |es| ==> !IsCandidate(es[k].name)
  {
    if es != [] {
      CandidatesNone(es[1..]);
      if forall k :: 0 <= k < |es| ==> !IsCandidate(es[k].name) {
        forall k | 0 <= k < |es[1..]| ensures !IsCandidate(es[1..][k].name) {
          assert es[1..][k] == es[k + 1];
        }
      } else if !IsCandidate(es[0].name) {
        var k :| 0 <= k < |es| && IsCandidate(es[k].name);
        assert es[1..][k - 1] == es[k];
      }
    }
  }

  /** One candidate means one entry that passes the filter, and the candidate is its name. */
  lemma {:induction false} CandidatesOne(es: seq<ZipEntry>) returns (k: nat)
    requires |Candidates(es)| == 1
    ensures k < |es| && IsCandidate(es[k].name) && Candidates(es)[0] == es[k].name
    ensures forall j :: 0 <= j < |es| && IsCandidate(es[j].name) ==> j == k
  {
    assert es != [];
    if IsCandidate(es[0].name) {
      CandidatesNone(es[1..]);
      k := 0;
      forall j | 0 < j < |es| ensures !IsCandidate(es[j].name) {
        assert es[1..][j - 1] == es[j];
      }
    } else {
      var k' := CandidatesOne(es[1..]);
      k := k' + 1;
      assert es[1..][k'] == es[k];
      forall j | 0 < j < |es| && IsCandidate(es[j].name) ensures j == k {
        assert es[1..][j - 1] == es[j];
      }
    }
  }

  /** Two entries that pass the filter make at least two candidates. */
  lemma {:induction false} CandidatesMany(es: seq<ZipEntry>, i: nat, j: nat)
    requires i < j < |es| && IsCandidate(es[i].name) && IsCandidate(es[j].name)
    ensures |Candidates(es)| > 1
  {
    assert es[1..][j - 1] == es[j];
    if i == 0 {
      CandidatesNone(es[1..]);
    } else {
      assert es[1..][i - 1] == es[i];
      CandidatesMany(es[1..], i - 1, j - 1);
    }
  }

  /** `zip.entries.find((e) => e.name === name)`. */
  function FirstNamed(es: seq<ZipEntry>, name: string): (r: Option<ZipEntry>)
    ensures r.Some? ==> r.value in es && r.value.name == name
    ensures r.None? <==> forall k :: 0 <= k < |es| ==> es[k].name != name
  {
    if es == [] then None
    else if es[0].name == name then Some(es[0])
    else FirstNamed(es[1..], name)
  }

  /** Why `verifyZipEvidencePack` throws. `EntryNotFound` is the TypeError `readZipEntryBytes`
      would raise on an `undefined` entry; it cannot occur (`SelectedEntryFound`). */
  datatype PackError = ZipFailure(error: ZipError) | NoNdjsonEntries | MultipleNdjsonEntries | EntryNotFound

  /** `!!options.allowPartial` and `options.maxEntryBytes` when it is a number. Any number the
      option may hold acts as an integer here, because the limit is only compared as
      `uncompSize > maxBytes` with a 32-bit unsigned `uncompSize`: a finite `x` acts as its
      floor, NaN and +Infinity (never exceeded) as 0xFFFF_FFFF, and -Infinity (always exceeded)
      as -1. */
  datatype PackOptions = PackOptions(allowPartial: bool, maxEntryBytes: Option<int>)

  /** The parsing library calls the pack verifier goes through. */
  datatype Codecs = Codecs(
    utf8: seq<Byte> -> string,
    inflate: seq<Byte> -> Option<seq<Byte>>,
    readLines: seq<Byte> -> seq<string>,
    parse: string -> Option<Json>)

  function ClassifyAll(parse: string -> Option<Json>, raws: seq<string>): (ls: seq<Line>)
    ensures |ls| == |raws| && forall k :: 0 <= k < |raws| ==> ls[k] == ClassifyLine(parse, raws[k])
  {
    seq(|raws|, k requires 0 <= k < |raws| => ClassifyLine(parse, raws[k]))
  }

  function Lift<T>(r: Result<T, ZipError>): Result<T, PackError> {
    match r
    case Ok(v) => Ok(v)
    case Err(e) => Err(ZipFailure(e))
  }

  /** The stream verification of an entry's bytes, with `zip_entry` set to its name. */
  function VerifyEntryBytes(p: Primitives, c: Codecs, bytes: seq<Byte>, name: string, allowPartial: bool): VerifyResult {
    Verify(p, ClassifyAll(c.parse, c.readLines(bytes)), allowPartial, None).(zipEntry := Some(name))
  }

  function MaxEntryBytes(o: PackOptions): int {
    o.maxEntryBytes.GetOr(DEFAULT_MAX_BYTES)
  }

  /** `verifyZipEvidencePack(zipPath, options)` on the archive's bytes. */
  function ZipPackResult(p: Primitives, c: Codecs, buf: seq<Byte>, o: PackOptions): Result<VerifyResult, PackError> {
    var zip :- Lift(ZipListing(buf, c.utf8));
    var names := Candidates(zip.entries);
    if |names| == 0 then Err(NoNdjsonEntries)
    else if |names| > 1 then Err(MultipleNdjsonEntries)
    else match FirstNamed(zip.entries, names[0])
      case None => Err(EntryNotFound)
      case Some(entry) =>
        var bytes :- Lift(ReadZipEntryBytes(buf, entry, MaxEntryBytes(o), c.inflate));
        Ok(VerifyEntryBytes(p, c, bytes, names[0], o.allowPartial))
  }

  /** An archive that lists but has no entry passing the filter, or two, is rejected before
      any entry is read. */
  lemma CandidateCountDecides(p: Primitives, c: Codecs, buf: seq<Byte>, o: PackOptions)
    requires ZipListing(buf, c.utf8).Ok?
    ensures var es := ZipListing(buf, c.utf8).value.entries;
            && ((forall k :: 0 <= k < |es| ==> !IsCandidate(es[k].name)) ==> ZipPackResult(p, c, buf, o) == Err(NoNdjsonEntries))
            && ((exists i, j :: 0 <= i < j < |es| && IsCandidate(es[i].name) && IsCandidate(es[j].name))
                ==> ZipPackResult(p, c, buf, o) == Err(MultipleNdjsonEntries))
  {
    var es := ZipListing(buf, c.utf8).value.entries;
    CandidatesNone(es);
    if exists i, j :: 0 <= i < j < |es| && IsCandidate(es[i].name) && IsCandidate(es[j].name) {
      var i, j :| 0 <= i < j < |es| && IsCandidate(es[i].name) && IsCandidate(es[j].name);
      CandidatesMany(es, i, j);
    }
  }

  /** The single candidate's name belongs to exactly one directory entry, since a second entry
      of the same name would be a second candidate; so `find` selects that entry. */
  lemma SelectedEntryFound(es: seq<ZipEntry>) returns (k: nat)
    requires |Candidates(es)| == 1
    ensures k < |es| && IsCandidate(es[k].name) && (forall j :: 0 <= j < |es| && IsCandidate(es[j].name) ==> j == k)
    ensures FirstNamed(es, Candidates(es)[0]) == Some(es[k])
  {
    k := CandidatesOne(es);
    var e := FirstNamed(es, es[k].name).value;
    var j :| 0 <= j < |es| && es[j] == e;
  }

  /** A verified pack is the stream verification of the bytes of the only entry passing the
      filter, read with the entry-size limit (200 MiB unless given), under that entry's name. */
  lemma VerifiedPackIsItsEntry(p: Primitives, c: Codecs, buf: seq<Byte>, o: PackOptions)
    requires ZipPackResult(p, c, buf, o).Ok?
    ensures ZipListing(buf, c.utf8).Ok?
    ensures var es := ZipListing(buf, c.utf8).value.entries;
            exists k :: 0 <= k < |es| && IsCandidate(es[k].name)
              && (forall j :: 0 <= j < |es| && IsCandidate(es[j].name) ==> j == k)
              && ReadZipEntryBytes(buf, es[k], MaxEntryBytes(o), c.inflate).Ok?
              && ZipPackResult(p, c, buf, o).value
                 == VerifyEntryBytes(p, c, ReadZipEntryBytes(buf, es[k], MaxEntryBytes(o), c.inflate).value, es[k].name, o.allowPartial)
  {
    var es := ZipListing(buf, c.utf8).value.entries;
    var k := SelectedEntryFound(es);
  }

  /** `verifyZipEvidencePack(zipPath, options)`. */
  method VerifyZipEvidencePack(p: Primitives, c: Codecs, buf: seq<Byte>, o: PackOptions) returns (r: Result<VerifyResult, PackError>)
    ensures r == ZipPackResult(p, c, buf, o)
  {
    var listing := ListZipEntries(buf, c.utf8);
    if listing.Err? {
      return Err(ZipFailure(listing.error));
    }
    var zip := listing.value;
    var names := Candidates(zip.entries);
    if |names| == 0 {
      return Err(NoNdjsonEntries);
    }
    if |names| > 1 {
      return Err(MultipleNdjsonEntries);
    }
    var name := names[0];
    var entry := FirstNamed(zip.entries, name);
    if entry.None? {
      return Err(EntryNotFound);
    }
    var bytes := ReadZipEntryBytes(zip.buffer, entry.value, MaxEntryBytes(o), c.inflate);
    if bytes.Err? {
      return Err(ZipFailure(bytes.error));
    }
    var res := VerifyNdjsonStream(p, ClassifyAll(c.parse, c.readLines(bytes.value)), o.allowPartial, None);
    res := res.(zipEntry := Some(name));
    return Ok(res);
  }
}
