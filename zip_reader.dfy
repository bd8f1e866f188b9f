/**
 * The minimal ZIP reader (src/zip_reader.js), over an in-memory buffer.
 *
 * Record layouts follow PKWARE's APPNOTE.TXT: the end of central directory record
 * (section 4.3.16), the central directory file header (section 4.3.12), the local file header
 * (section 4.3.7), general purpose bit 0, encryption (section 4.4.4), and compression methods
 * 0 (stored) and 8 (deflated) (section 4.4.5). All integers are little-endian.
 *
 * A `throw` is an `Err`. Node's `readUInt16LE`/`readUInt32LE` throw a RangeError when the
 * read would leave the buffer; that is `RangeError(offset)`. `Buffer.slice` never throws: it
 * clamps its bounds to the buffer. UTF-8 decoding of a name and raw DEFLATE decompression
 * (RFC 1951) are parameters; `inflate` yields `None` when `inflateRawSync` would throw.
 */
module ZipReader {
  import opened Wrappers

  type Byte = b: int | 0 <= b < 256

  const SIG_EOCD: nat := 0x06054b50
  const SIG_CEN: nat := 0x02014b50
  const SIG_LOC: nat := 0x04034b50

  /** Sizes of the fixed parts of the three records, and the longest EOCD comment. */
  const EOCD_SIZE: nat := 22
  const CEN_SIZE: nat := 46
  const LOC_SIZE: nat := 30
  const MAX_COMMENT: nat := 0xffff

  /** The default `maxBytes` of `readZipEntryBytes`. */
  const DEFAULT_MAX_BYTES: nat := 200 * 1024 * 1024

  datatype ZipError =
    | RangeError(offset: int)
    | MissingEocd
    | BadCentralDirectory
    | CentralDirectoryOutOfBounds
    | Encrypted
    | BadLocalHeader
    | DataOutOfBounds
    | TooLarge
    | InflateFailed
    | SizeMismatch
    | UnsupportedMethod(compression: nat)

  // ---------------------------------------------------------------------------------------
  // Little-endian reads

  /** `buf.readUInt16LE(off)`. */
  function U16(buf: seq<Byte>, off: int): (r: Result<nat, ZipError>)
    ensures r.Ok? <==> 0 <= off && off + 2 <= |buf|
    ensures r.Err? ==> r.error == RangeError(off)
    ensures r.Ok? ==> r.value < 0x1_0000
  {
    if 0 <= off && off + 2 <= |buf| then Ok(buf[off] as int + (buf[off + 1] as int) * 0x100) else Err(RangeError(off))
  }

  /** `buf.readUInt32LE(off)`. */
  function U32(buf: seq<Byte>, off: int): (r: Result<nat, ZipError>)
    ensures r.Ok? <==> 0 <= off && off + 4 <= |buf|
    ensures r.Err? ==> r.error == RangeError(off)
    ensures r.Ok? ==> r.value < 0x1_0000_0000
  {
    if 0 <= off && off + 4 <= |buf| then
      Ok(buf[off] as int + (buf[off + 1] as int) * 0x100 + (buf[off + 2] as int) * 0x1_0000 + (buf[off + 3] as int) * 0x100_0000)
    else Err(RangeError(off))
  }

  /** The two bytes a writer emits for a 16-bit field. */
  function Le16(v: nat): (r: seq<Byte>)
    requires v < 0x1_0000
    ensures |r| == 2
  {
    [v % 0x100, v / 0x100]
  }

  /** The four bytes a writer emits for a 32-bit field. */
  function Le32(v: nat): (r: seq<Byte>)
    requires v < 0x1_0000_0000
    ensures |r| == 4
  {
    Le16(v % 0x1_0000) + Le16(v / 0x1_0000)
  }

  /** Reading back what `Le16` wrote, wherever it sits in the buffer. */
  lemma U16Le16(buf: seq<Byte>, off: nat, v: nat)
    requires v < 0x1_0000 && off + 2 <= |buf| && buf[off..off + 2] == Le16(v)
    ensures U16(buf, off) == Ok(v)
  {
    assert buf[off] == buf[off..off + 2][0] && buf[off + 1] == buf[off..off + 2][1];
  }

  /** Reading back what `Le32` wrote, wherever it sits in the buffer. */
  lemma U32Le32(buf: seq<Byte>, off: nat, v: nat)
    requires v < 0x1_0000_0000 && off + 4 <= |buf| && buf[off..off + 4] == Le32(v)
    ensures U32(buf, off) == Ok(v)
  {
    var lo, hi := v % 0x1_0000, v / 0x1_0000;
    var w := buf[off..off + 4];
    assert buf[off] == w[0] == lo % 0x100 && buf[off + 1] == w[1] == lo / 0x100;
    assert buf[off + 2] == w[2] == hi % 0x100 && buf[off + 3] == w[3] == hi / 0x100;
    assert buf[off] as int + (buf[off + 1] as int) * 0x100 == lo;
    assert buf[off + 2] as int + (buf[off + 3] as int) * 0x100 == hi;
  }

  /** `buf.slice(start, end)` on non-negative bounds: both are clamped to the buffer, and an
      end before the start gives the empty buffer. */
  function Slice(buf: seq<Byte>, start: nat, end: nat): (r: seq<Byte>)
    ensures end <= |buf| && start <= end ==> r == buf[start..end]
    ensures |r| <= |buf|
  {
    var s := if start <= |buf| then start else |buf|;
    var e := if end <= |buf| then end else |buf|;
    if s <= e then buf[s..e] else []
  }

  // ---------------------------------------------------------------------------------------
  // The end of central directory record

  predicate IsEocdAt(buf: seq<Byte>, i: int) {
    U32(buf, i) == Ok(SIG_EOCD)
  }

  /** The lowest offset the backward search examines: at most 65535 + 22 bytes from the end. */
  function SearchFloor(buf: seq<Byte>): int {
    |buf| - (if |buf| <= MAX_COMMENT + EOCD_SIZE then |buf| else MAX_COMMENT + EOCD_SIZE)
  }

  /** The backward search from `i` down to `floor`, stopping below zero. */
  function SearchDown(buf: seq<Byte>, i: int, floor: int): int
    decreases i - floor + 1
  {
    if i < floor || i < 0 then -1
    else if IsEocdAt(buf, i) then i
    else SearchDown(buf, i - 1, floor)
  }

  /** `findEocdOffset(buf)`. */
  function EocdOffset(buf: seq<Byte>): int {
    SearchDown(buf, |buf| - EOCD_SIZE, SearchFloor(buf))
  }

  lemma {:induction false} SearchDownSpec(buf: seq<Byte>, i: int, floor: int)
    requires floor >= 0
    ensures var r := SearchDown(buf, i, floor);
            && (r == -1 <==> forall j :: floor <= j <= i ==> !IsEocdAt(buf, j))
            && (r != -1 ==> floor <= r <= i && IsEocdAt(buf, r) && forall j :: r < j <= i ==> !IsEocdAt(buf, j))
    decreases i - floor + 1
  {
    if i >= floor && !IsEocdAt(buf, i) {
      SearchDownSpec(buf, i - 1, floor);
    }
  }

  /** `findEocdOffset` yields the greatest offset in the last 65535 + 22 bytes, and at most
      `length - 22`, that holds the EOCD signature; -1 when there is none, in particular
      when the buffer is shorter than 22 bytes. */
  lemma EocdOffsetSpec(buf: seq<Byte>)
    ensures var r := EocdOffset(buf);
            var lo, hi := SearchFloor(buf), |buf| - EOCD_SIZE;
            && (r == -1 <==> forall j :: lo <= j <= hi ==> !IsEocdAt(buf, j))
            && (r != -1 ==> lo <= r <= hi && IsEocdAt(buf, r) && forall j :: r < j <= hi ==> !IsEocdAt(buf, j))
            && (|buf| < EOCD_SIZE ==> r == -1)
  {
    SearchDownSpec(buf, |buf| - EOCD_SIZE, SearchFloor(buf));
  }

  /** `findEocdOffset(buf)`: the loop from `length - 22` down to `length - maxSearch`. */
  method FindEocdOffset(buf: seq<Byte>) returns (r: int)
    ensures r == EocdOffset(buf)
    ensures r == -1 || (SearchFloor(buf) <= r <= |buf| - EOCD_SIZE && IsEocdAt(buf, r))
    ensures forall j :: r < j <= |buf| - EOCD_SIZE && SearchFloor(buf) <= j ==> !IsEocdAt(buf, j)
  {
    var maxSearch := if |buf| <= MAX_COMMENT + EOCD_SIZE then |buf| else MAX_COMMENT + EOCD_SIZE;
    var i := |buf| - EOCD_SIZE;
    while i >= |buf| - maxSearch
      invariant SearchDown(buf, i, SearchFloor(buf)) == EocdOffset(buf)
      invariant forall j :: i < j <= |buf| - EOCD_SIZE && SearchFloor(buf) <= j ==> !IsEocdAt(buf, j)
      decreases i
    {
      if i < 0 {
        break;
      }
      var sig := U32(buf, i);
      if sig == Ok(SIG_EOCD) {
        return i;
      }
      i := i - 1;
    }
    return -1;
  }

  // ---------------------------------------------------------------------------------------
  // The central directory

  /** The fields `listZipEntries` keeps of a central directory header. */
  datatype ZipEntry = ZipEntry(
    name: string, gpFlags: nat, compression: nat, compSize: nat, uncompSize: nat, localHeaderOff: nat)

  /** One central directory header at `off`, and the offset of the next one. */
  function ReadCentralHeader(buf: seq<Byte>, off: nat, utf8: seq<Byte> -> string): (r: Result<(ZipEntry, nat), ZipError>)
    ensures r.Ok? ==> U32(buf, off) == Ok(SIG_CEN)
    ensures U32(buf, off).Ok? && U32(buf, off).value != SIG_CEN ==> r == Err(BadCentralDirectory)
  {
    var sig :- U32(buf, off);
    if sig != SIG_CEN then Err(BadCentralDirectory)
    else
      var gpFlags :- U16(buf, off + 8);
      var compression :- U16(buf, off + 10);
      var compSize :- U32(buf, off + 20);
      var uncompSize :- U32(buf, off + 24);
      var nameLen :- U16(buf, off + 28);
      var extraLen :- U16(buf, off + 30);
      var commentLen :- U16(buf, off + 32);
      var localHeaderOff :- U32(buf, off + 42);
      var nameStart := off + CEN_SIZE;
      var name := utf8(Slice(buf, nameStart, nameStart + nameLen));
      Ok((ZipEntry(name, gpFlags, compression, compSize, uncompSize, localHeaderOff), nameStart + nameLen + extraLen + commentLen))
  }

  /** A header that was read holds the signature, and its fields are the words at their
      offsets: flags at 8, method at 10, sizes at 20 and 24, the local header's offset at 42,
      the name's bytes after the 46 fixed ones; the next header follows the name, the extra
      field and the comment, whose lengths are at 28, 30 and 32. */
  lemma ReadCentralHeaderFields(buf: seq<Byte>, off: nat, utf8: seq<Byte> -> string)
    requires ReadCentralHeader(buf, off, utf8).Ok?
    ensures var (e, next) := ReadCentralHeader(buf, off, utf8).value;
            && U32(buf, off) == Ok(SIG_CEN) && off + CEN_SIZE <= |buf|
            && U16(buf, off + 8) == Ok(e.gpFlags) && U16(buf, off + 10) == Ok(e.compression)
            && U32(buf, off + 20) == Ok(e.compSize) && U32(buf, off + 24) == Ok(e.uncompSize)
            && U32(buf, off + 42) == Ok(e.localHeaderOff)
            && e.name == utf8(Slice(buf, off + CEN_SIZE, off + CEN_SIZE + U16(buf, off + 28).value))
            && next == off + CEN_SIZE + U16(buf, off + 28).value + U16(buf, off + 30).value + U16(buf, off + 32).value
  {
  }

  /** Reads the header at an offset: the central directory parsing below is stated for any
      such reader, and `CentralReader` is the one `listZipEntries` uses. */
  type HeaderReader = nat -> Result<(ZipEntry, nat), ZipError>

  function CentralReader(buf: seq<Byte>, utf8: seq<Byte> -> string): HeaderReader {
    o => ReadCentralHeader(buf, o, utf8)
  }

  /** `n` consecutive headers from `off`, each starting where the one before it ended. */
  function ParseHeaders(read: HeaderReader, off: nat, n: nat): Result<seq<ZipEntry>, ZipError>
    decreases n
  {
    if n == 0 then Ok([])
    else
      var (e, next) :- read(off);
      var rest :- ParseHeaders(read, next, n - 1);
      Ok([e] + rest)
  }

  /** The `totalEntries` central directory headers from `cenOffset`. */
  function ParseCentral(buf: seq<Byte>, off: nat, n: nat, utf8: seq<Byte> -> string): Result<seq<ZipEntry>, ZipError> {
    ParseHeaders(CentralReader(buf, utf8), off, n)
  }

  /** The offset of the `i`-th header when every earlier one was read. */
  function HeaderOffset(read: HeaderReader, off: nat, i: nat): Option<nat>
    decreases i
  {
    if i == 0 then Some(off)
    else
      match HeaderOffset(read, off, i - 1)
      case None => None
      case Some(o) =>
        match read(o)
        case Err(_) => None
        case Ok((_, next)) => Some(next)
  }

  /** A successful parse reads exactly `n` headers, the `i`-th at the offset where the one
      before it ended. */
  lemma {:induction false} ParseHeadersSpec(read: HeaderReader, off: nat, n: nat)
    requires ParseHeaders(read, off, n).Ok?
    ensures |ParseHeaders(read, off, n).value| == n
    ensures forall i :: 0 <= i < n ==>
              HeaderOffset(read, off, i).Some?
              && read(HeaderOffset(read, off, i).value).Ok?
              && read(HeaderOffset(read, off, i).value).value.0 == ParseHeaders(read, off, n).value[i]
    decreases n
  {
    if n > 0 {
      var (e, next) := read(off).value;
      ParseHeadersSpec(read, next, n - 1);
      var es := ParseHeaders(read, off, n).value;
      var rest := ParseHeaders(read, next, n - 1).value;
      assert es == [e] + rest;
      forall i | 0 <= i < n
        ensures HeaderOffset(read, off, i).Some?
        ensures read(HeaderOffset(read, off, i).value).Ok?
        ensures read(HeaderOffset(read, off, i).value).value.0 == es[i]
      {
        if i > 0 {
          HeaderOffsetShift(read, off, next, i - 1);
        }
      }
    }
  }

  /** Offsets counted from the second header are those counted from the first, one later. */
  lemma {:induction false} HeaderOffsetShift(read: HeaderReader, off: nat, next: nat, i: nat)
    requires read(off).Ok? && read(off).value.1 == next
    ensures HeaderOffset(read, off, i + 1) == HeaderOffset(read, next, i)
    decreases i
  {
    if i > 0 {
      HeaderOffsetShift(read, off, next, i - 1);
    }
  }

  /** A later header is reached only through the first one. */
  lemma {:induction false} HeaderOffsetFirst(read: HeaderReader, off: nat, i: nat)
    requires i > 0 && HeaderOffset(read, off, i).Some?
    ensures read(off).Ok?
    decreases i
  {
    if i > 1 {
      HeaderOffsetFirst(read, off, i - 1);
    }
  }

  /** The first header that cannot be read decides the parse's error. */
  lemma {:induction false} FirstBadHeaderFails(read: HeaderReader, off: nat, n: nat, i: nat)
    requires i < n && HeaderOffset(read, off, i).Some? && read(HeaderOffset(read, off, i).value).Err?
    ensures ParseHeaders(read, off, n) == Err(read(HeaderOffset(read, off, i).value).error)
    decreases i
  {
    if i > 0 {
      HeaderOffsetFirst(read, off, i);
      var (e, next) := read(off).value;
      HeaderOffsetShift(read, off, next, i - 1);
      FirstBadHeaderFails(read, next, n - 1, i - 1);
    }
  }

  /** In particular a header without the central directory signature, after headers that were
      read, fails the listing of the central directory. */
  lemma BadSignatureFails(buf: seq<Byte>, off: nat, n: nat, i: nat, utf8: seq<Byte> -> string)
    requires i < n && HeaderOffset(CentralReader(buf, utf8), off, i).Some?
    requires var o := HeaderOffset(CentralReader(buf, utf8), off, i).value; U32(buf, o).Ok? && U32(buf, o).value != SIG_CEN
    ensures ParseCentral(buf, off, n, utf8) == Err(BadCentralDirectory)
  {
    var read := CentralReader(buf, utf8);
    var o := HeaderOffset(read, off, i).value;
    assert read(o) == ReadCentralHeader(buf, o, utf8);
    FirstBadHeaderFails(read, off, n, i);
  }

  /** The buffer and the entries `listZipEntries` returns. */
  datatype ZipInfo = ZipInfo(buffer: seq<Byte>, entries: seq<ZipEntry>)

  /** `listZipEntries(zipPath)` on the file's bytes. */
  function ZipListing(buf: seq<Byte>, utf8: seq<Byte> -> string): (r: Result<ZipInfo, ZipError>)
    ensures EocdOffset(buf) < 0 ==> r == Err(MissingEocd)
    ensures r.Ok? ==> r.value.buffer == buf
  {
    var eocd := EocdOffset(buf);
    if eocd < 0 then Err(MissingEocd)
    else
      var totalEntries :- U16(buf, eocd + 10);
      var cenSize :- U32(buf, eocd + 12);
      var cenOffset :- U32(buf, eocd + 16);
      var entries :- ParseCentral(buf, cenOffset, totalEntries, utf8);
      if cenOffset + cenSize > |buf| then Err(CentralDirectoryOutOfBounds)
      else Ok(ZipInfo(buf, entries))
  }

  /** Once the EOCD record is found its three fields can always be read, and the listing is
      the `totalEntries` headers from `cenOffset`, unless they fail to parse or the central
      directory ends past the buffer (checked only after the headers). */
  lemma ZipListingFields(buf: seq<Byte>, utf8: seq<Byte> -> string)
    requires EocdOffset(buf) >= 0
    ensures var eocd := EocdOffset(buf);
            && U16(buf, eocd + 10).Ok? && U32(buf, eocd + 12).Ok? && U32(buf, eocd + 16).Ok?
            && var total, cenSize, cenOffset := U16(buf, eocd + 10).value, U32(buf, eocd + 12).value, U32(buf, eocd + 16).value;
               var parsed := ParseCentral(buf, cenOffset, total, utf8);
               && (parsed.Err? ==> ZipListing(buf, utf8) == Err(parsed.error))
               && (parsed.Ok? && cenOffset + cenSize > |buf| ==> ZipListing(buf, utf8) == Err(CentralDirectoryOutOfBounds))
               && (parsed.Ok? && cenOffset + cenSize <= |buf| ==> ZipListing(buf, utf8) == Ok(ZipInfo(buf, parsed.value)))
  {
    EocdOffsetSpec(buf);
  }

  /** `n` headers prepended to a parse of the rest. */
  function Prepend(es: seq<ZipEntry>, r: Result<seq<ZipEntry>, ZipError>): Result<seq<ZipEntry>, ZipError> {
    match r
    case Ok(rest) => Ok(es + rest)
    case Err(e) => Err(e)
  }

  lemma PrependEmpty(r: Result<seq<ZipEntry>, ZipError>)
    ensures Prepend([], r) == r
  {
    if r.Ok? {
      assert [] + r.value == r.value;
    }
  }

  /** Reading one more header moves it from the parse of the rest onto the entries so far. */
  lemma PrependStep(read: HeaderReader, entries: seq<ZipEntry>, off: nat, m: nat)
    requires m > 0 && read(off).Ok?
    ensures Prepend(entries, ParseHeaders(read, off, m))
         == Prepend(entries + [read(off).value.0], ParseHeaders(read, read(off).value.1, m - 1))
  {
    var (e, next) := read(off).value;
    var rest := ParseHeaders(read, next, m - 1);
    if rest.Ok? {
      assert ParseHeaders(read, off, m) == Ok([e] + rest.value);
      assert entries + ([e] + rest.value) == (entries + [e]) + rest.value;
    }
  }

  /** The header loop of `listZipEntries`: `totalEntries` headers from `cenOffset`, each
      pushed in turn, stopping at the first that cannot be read. */
  method ReadCentralDirectory(read: HeaderReader, cenOffset: nat, totalEntries: nat) returns (r: Result<seq<ZipEntry>, ZipError>)
    ensures r == ParseHeaders(read, cenOffset, totalEntries)
  {
    var off: nat := cenOffset;
    var entries: seq<ZipEntry> := [];
    var idx := 0;
    PrependEmpty(ParseHeaders(read, cenOffset, totalEntries));
    while idx < totalEntries
      invariant 0 <= idx <= totalEntries
      invariant ParseHeaders(read, cenOffset, totalEntries) == Prepend(entries, ParseHeaders(read, off, totalEntries - idx))
    {
      var header := read(off);
      if header.Err? {
        return Err(header.error);
      }
      var (e, next) := header.value;
      PrependStep(read, entries, off, totalEntries - idx);
      entries := entries + [e];
      off := next;
      idx := idx + 1;
    }
    assert entries + [] == entries;
    return Ok(entries);
  }

  /** `listZipEntries(zipPath)` on the file's bytes. */
  method ListZipEntries(buf: seq<Byte>, utf8: seq<Byte> -> string) returns (r: Result<ZipInfo, ZipError>)
    ensures r == ZipListing(buf, utf8)
  {
    var eocd := FindEocdOffset(buf);
    if eocd < 0 {
      return Err(MissingEocd);
    }
    var totalEntries := U16(buf, eocd + 10).value;
    var cenSize := U32(buf, eocd + 12).value;
    var cenOffset := U32(buf, eocd + 16).value;
    var entries :- ReadCentralDirectory(CentralReader(buf, utf8), cenOffset, totalEntries);
    if cenOffset + cenSize > |buf| {
      return Err(CentralDirectoryOutOfBounds);
    }
    return Ok(ZipInfo(buf, entries));
  }

  // ---------------------------------------------------------------------------------------
  // Entry data

  /** Where an entry's data starts: after the 30-byte local header, its name and extra field. */
  function DataStart(buf: seq<Byte>, loc: nat): Result<nat, ZipError> {
    var nameLen :- U16(buf, loc + 26);
    var extraLen :- U16(buf, loc + 28);
    Ok(loc + LOC_SIZE + nameLen + extraLen)
  }

  /** `readZipEntryBytes(zipInfo, entry, maxBytes)`. */
  function ReadZipEntryBytes(buf: seq<Byte>, entry: ZipEntry, maxBytes: int, inflate: seq<Byte> -> Option<seq<Byte>>): (r: Result<seq<Byte>, ZipError>)
    ensures entry.gpFlags % 2 == 1 ==> r == Err(Encrypted)
    ensures r.Ok? ==>
              && entry.gpFlags % 2 == 0
              && U32(buf, entry.localHeaderOff) == Ok(SIG_LOC)
              && DataStart(buf, entry.localHeaderOff).Ok?
              && DataStart(buf, entry.localHeaderOff).value + entry.compSize <= |buf|
              && entry.uncompSize <= maxBytes
              && entry.compression in {0, 8}
  {
    if entry.gpFlags % 2 == 1 then Err(Encrypted)
    else
      var loc := entry.localHeaderOff;
      var sig :- U32(buf, loc);
      if sig != SIG_LOC then Err(BadLocalHeader)
      else
        var dataStart :- DataStart(buf, loc);
        var dataEnd := dataStart + entry.compSize;
        if dataEnd > |buf| then Err(DataOutOfBounds)
        else if entry.uncompSize > maxBytes then Err(TooLarge)
        else
          var compressed := buf[dataStart..dataEnd];
          if entry.compression == 0 then Ok(compressed)
          else if entry.compression == 8 then
            match inflate(compressed)
            case None => Err(InflateFailed)
            case Some(out) => if |out| != entry.uncompSize then Err(SizeMismatch) else Ok(out)
          else Err(UnsupportedMethod(entry.compression))
  }

  /** The checks before decompression, in their order: encryption, the local header's
      signature, the data's bounds, then the size limit. */
  lemma ReadChecksInOrder(buf: seq<Byte>, entry: ZipEntry, maxBytes: int, inflate: seq<Byte> -> Option<seq<Byte>>)
    requires entry.gpFlags % 2 == 0
    ensures var loc, r := entry.localHeaderOff, ReadZipEntryBytes(buf, entry, maxBytes, inflate);
            && (U32(buf, loc).Ok? && U32(buf, loc).value != SIG_LOC ==> r == Err(BadLocalHeader))
            && (U32(buf, loc) == Ok(SIG_LOC) && DataStart(buf, loc).Ok? && DataStart(buf, loc).value + entry.compSize > |buf|
                ==> r == Err(DataOutOfBounds))
            && (U32(buf, loc) == Ok(SIG_LOC) && DataStart(buf, loc).Ok? && DataStart(buf, loc).value + entry.compSize <= |buf|
                  && entry.uncompSize > maxBytes
                ==> r == Err(TooLarge))
  {
  }

  /** Past those checks, a stored entry is exactly its bytes `[dataStart, dataStart +
      compSize)`; a deflated entry is the inflated bytes, and only when their length is the
      declared uncompressed size; any other method is rejected. */
  lemma ReadByMethod(buf: seq<Byte>, entry: ZipEntry, maxBytes: int, inflate: seq<Byte> -> Option<seq<Byte>>)
    requires entry.gpFlags % 2 == 0 && U32(buf, entry.localHeaderOff) == Ok(SIG_LOC)
    requires DataStart(buf, entry.localHeaderOff).Ok?
    requires DataStart(buf, entry.localHeaderOff).value + entry.compSize <= |buf| && entry.uncompSize <= maxBytes
    ensures var start := DataStart(buf, entry.localHeaderOff).value;
            var data := buf[start..start + entry.compSize];
            var r := ReadZipEntryBytes(buf, entry, maxBytes, inflate);
            && (entry.compression == 0 ==> r == Ok(data))
            && (entry.compression == 8 ==>
                  (r.Ok? <==> inflate(data).Some? && |inflate(data).value| == entry.uncompSize)
                  && (r.Ok? ==> r.value == inflate(data).value))
            && (entry.compression != 0 && entry.compression != 8 ==> r == Err(UnsupportedMethod(entry.compression)))
  {
  }
}
