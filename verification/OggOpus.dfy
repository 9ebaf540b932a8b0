/**
  The duration of an Opus file, found by scanning its Ogg pages (section 6 of
  RFC 3533) for the largest granule position, which counts samples at 48 kHz
  (section 4 of RFC 7845).
*/
module OggOpus {

  import opened Wrappers

  /** The capture pattern "OggS". */
  const CAPTURE: seq<Byte> := [0x4F, 0x67, 0x67, 0x53]

  /** The size of a page header up to and including the segment count. */
  const HEADER: nat := 27

  const TWO_63: int := 0x8000_0000_0000_0000
  const TWO_64: int := 0x1_0000_0000_0000_0000

  // ---- Little-endian numbers -----------------------------------------------

  function FromBytes(bytes: seq<Byte>): nat {
    if bytes == [] then 0 else bytes[0] + 256 * FromBytes(bytes[1..])
  }

  function ToBytes(n: nat, width: nat): (bytes: seq<Byte>)
    ensures |bytes| == width
  {
    if width == 0 then [] else [n % 256] + ToBytes(n / 256, width - 1)
  }

  function Pow256(width: nat): nat {
    if width == 0 then 1 else 256 * Pow256(width - 1)
  }

  lemma {:induction false} BytesRoundTrip(n: nat, width: nat)
    requires n < Pow256(width)
    ensures FromBytes(ToBytes(n, width)) == n
  {
    if width > 0 {
      BytesRoundTrip(n / 256, width - 1);
      assert ToBytes(n, width)[1..] == ToBytes(n / 256, width - 1);
    }
  }

  /** Go's conversion of an unsigned 64-bit number to int64. */
  function Signed(n: nat): int {
    if n < TWO_63 then n else n - TWO_64
  }

  /** The two's complement of an int64. */
  function Unsigned(g: int): (n: nat)
    requires -TWO_63 <= g < TWO_63
  {
    if g >= 0 then g else g + TWO_64
  }

  lemma GranuleRoundTrip(g: int)
    requires -0x8000_0000_0000_0000 <= g < 0x8000_0000_0000_0000
    ensures Signed(FromBytes(ToBytes(Unsigned(g), 8))) == g
  {
    assert Pow256(4) == 0x1_0000_0000;
    assert Pow256(8) == 0x1_0000_0000 * Pow256(4);
    BytesRoundTrip(Unsigned(g), 8);
  }

  function Max(a: int, b: int): int {
    if a >= b then a else b
  }

  function Sum(table: seq<Byte>): nat {
    if table == [] then 0 else Sum(table[..|table| - 1]) + table[|table| - 1]
  }

  // ---- The scanner ---------------------------------------------------------

  // The header fields the scanner looks at, in bytes that start with a header.

  predicate IsPage(h: seq<Byte>): (r: bool)
    requires |h| >= HEADER
    ensures r <==> h[0] == 'O' as int && h[1] == 'g' as int && h[2] == 'g' as int && h[3] == 'S' as int
  {
    h[..4] == CAPTURE
  }

  function Granule(h: seq<Byte>): int
    requires |h| >= HEADER
  {
    Signed(FromBytes(h[6..14]))
  }

  /** Where the segment table ends. */
  function TableEnd(h: seq<Byte>): nat
    requires |h| >= HEADER
  {
    HEADER + h[26]
  }

  function PageEnd(h: seq<Byte>): nat
    requires |h| >= HEADER && |h| >= TableEnd(h)
  {
    TableEnd(h) + Sum(h[HEADER..TableEnd(h)])
  }

  /** The bytes from position `k`, which may lie beyond the end. */
  function Rest(data: seq<Byte>, k: nat): seq<Byte> {
    if k <= |data| then data[k..] else []
  }

  /** What the scanner finds in the bytes it has not read yet, given the maximum so far. */
  function Scan(rest: seq<Byte>, total: int): int
    decreases |rest|
  {
    if |rest| < HEADER then total
    else if !IsPage(rest) then Scan(rest[1..], total)
    else if |rest| < TableEnd(rest) then Max(total, Granule(rest))
    else Scan(Rest(rest, PageEnd(rest)), Max(total, Granule(rest)))
  }

  lemma RestOfRest(data: seq<Byte>, pos: nat, k: nat)
    requires pos <= |data|
    ensures Rest(Rest(data, pos), k) == Rest(data, pos + k)
  {
  }

  lemma SliceOfSuffix<T>(data: seq<T>, pos: nat, i: nat, j: nat)
    requires i <= j && pos + j <= |data|
    ensures data[pos..][i..j] == data[pos + i..pos + j]
  {
    var suffix := data[pos..];
    forall k | 0 <= k < j - i ensures suffix[i..j][k] == data[pos + i..pos + j][k] {
      assert suffix[i + k] == data[pos + (i + k)];
    }
  }

  lemma SliceOfSlice<T>(data: seq<T>, pos: nat, n: nat, i: nat, j: nat)
    requires i <= j <= n && pos + n <= |data|
    ensures data[pos..pos + n][i..j] == data[pos + i..pos + j]
  {
    var slice := data[pos..pos + n];
    forall k | 0 <= k < j - i ensures slice[i..j][k] == data[pos + i..pos + j][k] {
      assert slice[i + k] == data[pos + (i + k)];
    }
  }

  /** The header fields lie in the first 27 bytes. */
  lemma HeaderInData(data: seq<Byte>, pos: nat)
    requires pos + HEADER <= |data|
    ensures var rest, buf := Rest(data, pos), data[pos..pos + HEADER];
            |rest| == |data| - pos && IsPage(buf) == IsPage(rest) && Granule(buf) == Granule(rest) && buf[26] == rest[26]
  {
    SliceOfSuffix(data, pos, 0, 4);
    SliceOfSlice(data, pos, HEADER, 0, 4);
    SliceOfSuffix(data, pos, 6, 14);
    SliceOfSlice(data, pos, HEADER, 6, 14);
  }

  lemma ScanPastJunk(rest: seq<Byte>, total: int)
    requires |rest| >= HEADER && !IsPage(rest)
    ensures Scan(rest, total) == Scan(Rest(rest, 1), total)
  {
  }

  lemma ScanPastPage(rest: seq<Byte>, total: int)
    requires |rest| >= HEADER && IsPage(rest)
    ensures |rest| < TableEnd(rest) ==> Scan(rest, total) == Max(total, Granule(rest))
    ensures |rest| >= TableEnd(rest) ==> Scan(rest, total) == Scan(Rest(rest, PageEnd(rest)), Max(total, Granule(rest)))
  {
  }

  /** The size of a page's payload, from its segment table. */
  method PageSize(segmentTable: seq<Byte>) returns (pageSize: nat)
    ensures pageSize == Sum(segmentTable)
  {
    pageSize := 0;
    for i := 0 to |segmentTable|
      invariant pageSize == Sum(segmentTable[..i])
    {
      assert segmentTable[..i + 1][..i] == segmentTable[..i];
      pageSize := pageSize + segmentTable[i];
    }
    assert segmentTable[..|segmentTable|] == segmentTable;
  }

  /**
    One pass of the scanning loop over a reader on `data` at position `pos`, which
    a seek may have moved past the end.  `more` is false where the loop breaks.
   */
  method ReadPage(data: seq<Byte>, pos: nat, total: int) returns (next: nat, largest: int, more: bool)
    ensures more ==> pos < next && pos < |data| && Scan(Rest(data, next), largest) == Scan(Rest(data, pos), total)
    ensures !more ==> largest == Scan(Rest(data, pos), total)
  {
    next, largest := pos, total;
    // r.Read(buf) with a buffer of 27 bytes
    if pos + HEADER > |data| {
      return next, largest, false;
    }
    var buf := data[pos..pos + HEADER];
    next := next + HEADER;
    ghost var rest := Rest(data, pos);
    HeaderInData(data, pos);

    if !IsPage(buf) {
      next := next - 26;
      ScanPastJunk(rest, total);
      RestOfRest(data, pos, 1);
      return next, largest, true;
    }

    next, largest, more := CountPage(data, pos, total, buf);
  }

  /** The rest of the pass, on a header that starts a page. */
  method CountPage(data: seq<Byte>, pos: nat, total: int, buf: seq<Byte>) returns (next: nat, largest: int, more: bool)
    requires pos + HEADER <= |data| && IsPage(Rest(data, pos))
    requires |buf| == HEADER && Granule(buf) == Granule(Rest(data, pos)) && buf[26] == Rest(data, pos)[26]
    ensures more ==> pos < next && Scan(Rest(data, next), largest) == Scan(Rest(data, pos), total)
    ensures !more ==> largest == Scan(Rest(data, pos), total)
  {
    ghost var rest := Rest(data, pos);
    ScanPastPage(rest, total);
    largest := total;
    var granulePos := Granule(buf);
    if granulePos > largest {
      largest := granulePos;
    }
    next, more := SkipPage(data, pos, buf[26]);
    if more {
      RestOfRest(data, pos, PageEnd(rest));
    }
  }

  /** Reads the segment table of the page at `pos` and seeks past the payload, unless the table is cut short. */
  method SkipPage(data: seq<Byte>, pos: nat, numSegments: nat) returns (end: nat, more: bool)
    requires pos + HEADER <= |data| && numSegments == Rest(data, pos)[26]
    ensures more <==> |Rest(data, pos)| >= TableEnd(Rest(data, pos))
    ensures more ==> end == pos + PageEnd(Rest(data, pos))
  {
    var next := pos + HEADER;
    if next + numSegments > |data| {
      return next, false;
    }
    var segmentTable := data[next..next + numSegments];
    next := next + numSegments;
    var pageSize := PageSize(segmentTable);
    SliceOfSuffix(data, pos, HEADER, HEADER + numSegments);
    end, more := next + pageSize, true;
  }

  /** Every pass moves the reader forward, so the scan ends on every input. */
  method GetOpusDuration(data: seq<Byte>) returns (duration: real)
    ensures duration == Scan(data, 0) as real / 48000.0
  {
    var pos: nat := 0;
    var total := 0;
    var more := true;
    assert Rest(data, 0) == data;
    while more
      invariant more ==> Scan(Rest(data, pos), total) == Scan(data, 0)
      invariant !more ==> total == Scan(data, 0)
      decreases more, if pos <= |data| then |data| - pos + 1 else 0
    {
      pos, total, more := ReadPage(data, pos, total);
    }
    duration := total as real / 48000.0;
  }

  // ---- Pages ---------------------------------------------------------------

  datatype Page = Page(
    version: Byte, headerType: Byte, granule: int,
    serial: seq<Byte>, sequence: seq<Byte>, checksum: seq<Byte>,
    segments: seq<Byte>, payload: seq<Byte>)
  {
    predicate Valid() {
      && -0x8000_0000_0000_0000 <= granule < 0x8000_0000_0000_0000
      && |serial| == |sequence| == |checksum| == 4
      && |segments| < 256
      && |payload| == Sum(segments)
    }

    function Header(): (h: seq<Byte>)
      requires Valid()
      ensures |h| == 27
      ensures h[0] == 'O' as int && h[1] == 'g' as int && h[2] == 'g' as int && h[3] == 'S' as int
      ensures h[4] == version && h[5] == headerType && h[6..14] == ToBytes(Unsigned(granule), 8) && h[26] == |segments|
    {
      CAPTURE + [version, headerType] + ToBytes(Unsigned(granule), 8) + serial + sequence + checksum + [|segments|]
    }

    function Bytes(): seq<Byte>
      requires Valid()
    {
      Header() + segments + payload
    }
  }

  /** The scanner finds each field where the format puts it. */
  lemma HeaderFields(p: Page, data: seq<Byte>)
    requires p.Valid() && |data| >= HEADER && data[..HEADER] == p.Header()
    ensures IsPage(data) && Granule(data) == p.granule && TableEnd(data) == HEADER + |p.segments|
  {
    HeaderInData(data, 0);
    assert Rest(data, 0) == data && data[0..HEADER] == data[..HEADER];
    GranuleRoundTrip(p.granule);
    assert p.Header()[..4] == CAPTURE;
    assert p.Header()[6..14] == ToBytes(Unsigned(p.granule), 8);
    assert data[26] == p.Header()[26];
  }

  /** The scanner consumes exactly one page, wherever the bytes after it go on. */
  lemma PageIsRead(p: Page, rest: seq<Byte>, total: int)
    requires p.Valid()
    ensures Scan(p.Bytes() + rest, total) == Scan(rest, Max(total, p.granule))
  {
    var data := p.Bytes() + rest;
    assert data[..HEADER] == p.Header();
    HeaderFields(p, data);
    assert data[HEADER..TableEnd(data)] == p.segments;
    assert Rest(data, PageEnd(data)) == rest;
  }

  /** A page cut off anywhere after its header still counts; one cut off inside the header does not. */
  lemma TruncatedPageIsRead(p: Page, length: nat, total: int)
    requires p.Valid() && length <= |p.Bytes()|
    ensures Scan(p.Bytes()[..length], total) == if length < HEADER then total else Max(total, p.granule)
  {
    var data := p.Bytes()[..length];
    if length >= HEADER {
      assert data[..HEADER] == p.Header();
      HeaderFields(p, data);
      if length >= TableEnd(data) {
        assert data[HEADER..TableEnd(data)] == p.segments;
        assert Rest(data, PageEnd(data)) == [];
      }
    }
  }

  // ---- Streams -------------------------------------------------------------

  predicate CaptureAt(data: seq<Byte>, i: nat) {
    i + 4 <= |data| && data[i..i + 4] == CAPTURE
  }

  /** No capture pattern starts inside `junk` when `rest` follows it. */
  predicate Clean(junk: seq<Byte>, rest: seq<Byte>) {
    forall i | 0 <= i < |junk| :: !CaptureAt(junk + rest, i)
  }

  /** A page and the bytes in front of it that belong to no page. */
  datatype Chunk = Chunk(junk: seq<Byte>, page: Page)

  predicate PagesValid(chunks: seq<Chunk>) {
    forall i | 0 <= i < |chunks| :: chunks[i].page.Valid()
  }

  function Stream(chunks: seq<Chunk>, tail: seq<Byte>): seq<Byte>
    requires PagesValid(chunks)
  {
    if chunks == [] then tail
    else chunks[0].junk + (chunks[0].page.Bytes() + Stream(chunks[1..], tail))
  }

  /** Junk anywhere, as long as the capture pattern starts only at pages. */
  predicate Synchronised(chunks: seq<Chunk>, tail: seq<Byte>)
    requires PagesValid(chunks)
  {
    if chunks == [] then Clean(tail, [])
    else
      && Clean(chunks[0].junk, chunks[0].page.Bytes() + Stream(chunks[1..], tail))
      && Synchronised(chunks[1..], tail)
  }

  lemma CleanTail(junk: seq<Byte>, rest: seq<Byte>)
    requires junk != [] && Clean(junk, rest)
    ensures Clean(junk[1..], rest)
  {
    forall i | 0 <= i < |junk[1..]| ensures !CaptureAt(junk[1..] + rest, i) {
      assert !CaptureAt(junk + rest, i + 1);
      assert (junk + rest)[1..] == junk[1..] + rest;
      if i + 4 <= |junk[1..] + rest| {
        assert (junk + rest)[i + 1..i + 5] == (junk[1..] + rest)[i..i + 4];
      }
    }
  }

  /** Resynchronisation: junk is skipped a byte at a time. */
  lemma {:induction false} JunkIsSkipped(junk: seq<Byte>, rest: seq<Byte>, total: int)
    requires Clean(junk, rest) && |rest| >= HEADER
    ensures Scan(junk + rest, total) == Scan(rest, total)
    decreases |junk|
  {
    if junk == [] {
      assert junk + rest == rest;
    } else {
      assert !CaptureAt(junk + rest, 0);
      assert (junk + rest)[0..4] == (junk + rest)[..4];
      assert (junk + rest)[1..] == junk[1..] + rest;
      CleanTail(junk, rest);
      JunkIsSkipped(junk[1..], rest, total);
    }
  }

  lemma {:induction false} TailIsSkipped(tail: seq<Byte>, total: int)
    requires Clean(tail, [])
    ensures Scan(tail, total) == total
    decreases |tail|
  {
    assert tail + [] == tail;
    if |tail| >= HEADER {
      assert !CaptureAt(tail + [], 0);
      assert tail[0..4] == tail[..4];
      CleanTail(tail, []);
      TailIsSkipped(tail[1..], total);
    }
  }

  function MaxGranule(chunks: seq<Chunk>, total: int): int {
    if chunks == [] then total else MaxGranule(chunks[1..], Max(total, chunks[0].page.granule))
  }

  lemma {:induction false} MaxGranuleIsMaximum(chunks: seq<Chunk>, total: int)
    ensures MaxGranule(chunks, total) >= total
    ensures forall i | 0 <= i < |chunks| :: MaxGranule(chunks, total) >= chunks[i].page.granule
    ensures MaxGranule(chunks, total) == total || exists i | 0 <= i < |chunks| :: MaxGranule(chunks, total) == chunks[i].page.granule
  {
    if chunks != [] {
      var total' := Max(total, chunks[0].page.granule);
      MaxGranuleIsMaximum(chunks[1..], total');
      assert forall i | 0 <= i < |chunks[1..]| :: chunks[1..][i] == chunks[i + 1];
    }
  }

  lemma {:induction false} StreamIsScanned(chunks: seq<Chunk>, tail: seq<Byte>, total: int)
    requires PagesValid(chunks) && Synchronised(chunks, tail)
    ensures Scan(Stream(chunks, tail), total) == MaxGranule(chunks, total)
    decreases |chunks|
  {
    if chunks == [] {
      TailIsSkipped(tail, total);
    } else {
      var page, after := chunks[0].page, Stream(chunks[1..], tail);
      JunkIsSkipped(chunks[0].junk, page.Bytes() + after, total);
      PageIsRead(page, after, total);
      StreamIsScanned(chunks[1..], tail, Max(total, page.granule));
    }
  }

  /**
    On any sequence of pages, with junk before, between and after them in which
    no capture pattern starts, the duration is the largest signed granule
    position, or zero if none is positive, at 48 kHz.
   */
  lemma DurationIsLargestGranule(chunks: seq<Chunk>, tail: seq<Byte>)
    requires PagesValid(chunks) && Synchronised(chunks, tail)
    ensures var duration := Scan(Stream(chunks, tail), 0) as real / 48000.0;
            && duration >= 0.0
            && (forall i | 0 <= i < |chunks| :: duration >= chunks[i].page.granule as real / 48000.0)
            && (duration == 0.0 || exists i | 0 <= i < |chunks| :: duration == chunks[i].page.granule as real / 48000.0)
  {
    StreamIsScanned(chunks, tail, 0);
    MaxGranuleIsMaximum(chunks, 0);
  }
}
