/** The Ogg page walker of common/audio.go, which finds the duration of an Opus
    file as its greatest granule position over 48 kHz.  The page layout is the one
    of section 6 of RFC 3533, the meaning of the granule position that of section 4
    of RFC 7845. */
module OpusDuration {
  import opened Basics

  const HEADER_SIZE := 27
  const SAMPLE_RATE := 48000.0
  const OGGS: seq<Byte> := [79, 103, 103, 83]

  // ---------------------------------------------------------------------
  // Little-endian numbers
  // ---------------------------------------------------------------------

  function FromLittleEndian(bytes: seq<Byte>): (r: nat) {
    if bytes == [] then 0 else bytes[0] + 256 * FromLittleEndian(bytes[1..])
  }

  function ToLittleEndian(value: nat, size: nat): (r: seq<Byte>)
    ensures |r| == size
  {
    if size == 0 then [] else [value % 256] + ToLittleEndian(value / 256, size - 1)
  }

  function Power256(n: nat): (r: nat)
    ensures r > 0
  {
    if n == 0 then 1 else 256 * Power256(n - 1)
  }

  lemma {:induction false} LittleEndianRoundTrip(value: nat, size: nat)
    requires value < Power256(size)
    ensures FromLittleEndian(ToLittleEndian(value, size)) == value
  {
    if size > 0 {
      LittleEndianRoundTrip(value / 256, size - 1);
      assert ToLittleEndian(value, size)[1..] == ToLittleEndian(value / 256, size - 1);
    }
  }

  lemma {:induction false} LittleEndianBound(bytes: seq<Byte>)
    ensures FromLittleEndian(bytes) < Power256(|bytes|)
  {
    if bytes != [] {
      LittleEndianBound(bytes[1..]);
    }
  }

  lemma Power256Of8()
    ensures Power256(8) == TWO_64
  {
    assert Power256(4) == 0x1_0000_0000;
    assert Power256(6) == 0x1_0000_0000_0000;
  }

  /** `int64(binary.LittleEndian.Uint64(b))`: the conversion wraps around. */
  function Granule(bytes: seq<Byte>): (r: int)
    requires |bytes| == 8
  {
    var u := FromLittleEndian(bytes);
    if u <= INT64_MAX then u else u - TWO_64
  }

  function GranuleBytes(granule: Int64): (r: seq<Byte>)
    ensures |r| == 8
  {
    ToLittleEndian(if granule >= 0 then granule else granule + TWO_64, 8)
  }

  /** Byte k counts 256 to the power of k, and the upper half of the range is negative. */
  lemma GranuleExact(b: seq<Byte>)
    requires |b| == 8
    ensures var w: seq<int> := b;
            var u := w[0] + 0x100 * w[1] + 0x1_0000 * w[2] + 0x100_0000 * w[3] + 0x1_0000_0000 * w[4]
                     + 0x100_0000_0000 * w[5] + 0x1_0000_0000_0000 * w[6] + 0x100_0000_0000_0000 * w[7];
            Granule(b) == if b[7] < 128 then u else u - 0x1_0000_0000_0000_0000
  {
    var w: seq<int> := b;
    assert b[1..][1..] == b[2..] && b[2..][1..] == b[3..] && b[3..][1..] == b[4..];
    assert b[4..][1..] == b[5..] && b[5..][1..] == b[6..] && b[6..][1..] == b[7..];
    assert FromLittleEndian(b[7..]) == w[7];
    assert FromLittleEndian(b[5..]) == w[5] + 0x100 * w[6] + 0x1_0000 * w[7];
    assert FromLittleEndian(b[3..]) == w[3] + 0x100 * w[4] + 0x1_0000 * FromLittleEndian(b[5..]);
    assert FromLittleEndian(b[1..]) == w[1] + 0x100 * w[2] + 0x1_0000 * FromLittleEndian(b[3..]);
  }

  lemma GranuleRoundTrip(granule: Int64)
    ensures Granule(GranuleBytes(granule)) == granule
  {
    Power256Of8();
    LittleEndianRoundTrip(if granule >= 0 then granule else granule + TWO_64, 8);
  }

  // ---------------------------------------------------------------------
  // The walk over an arbitrary byte string
  // ---------------------------------------------------------------------

  /** A page header the walker stopped at. */
  datatype Header = Header(offset: nat, granule: int)

  function Sum(bytes: seq<Byte>): (r: nat) {
    if bytes == [] then 0 else Sum(bytes[..|bytes| - 1]) + bytes[|bytes| - 1]
  }

  /** A whole header with the capture pattern "OggS". */
  predicate OggSAt(data: seq<Byte>, p: int) {
    0 <= p && p + 27 <= |data| && data[p] == 79 && data[p + 1] == 103 && data[p + 2] == 103 && data[p + 3] == 83
  }

  /** The header at an offset: its granule position is in bytes 6 to 13. */
  function StopAt(data: seq<Byte>, pos: nat): Header
    requires pos + HEADER_SIZE <= |data|
  {
    Header(pos, Granule(data[pos + 6..pos + 14]))
  }

  /** Where a page ends by its segment table, or nothing when the table is cut off. */
  function PageEnd(data: seq<Byte>, offset: nat): Option<nat>
    requires offset + 27 <= |data|
  {
    var table := offset + 27;
    var end := table + data[offset + 26];
    if end <= |data| then Some(end + Sum(data[table..end])) else None
  }

  /** The headers visited from an offset on. */
  function Walk(data: seq<Byte>, pos: nat): (r: seq<Header>)
    decreases |data| - pos
  {
    if pos + HEADER_SIZE > |data| then []
    else if !OggSAt(data, pos) then Walk(data, pos + 1)
    else
      var end := PageEnd(data, pos);
      if end.None? then [StopAt(data, pos)] else [StopAt(data, pos)] + Walk(data, end.value)
  }

  /** The greatest granule position, starting from 0. */
  function MaxGranule(headers: seq<Header>): (r: nat) {
    if headers == [] then 0
    else
      var rest := MaxGranule(headers[..|headers| - 1]);
      var last := headers[|headers| - 1].granule;
      if last > rest then last else rest
  }

  function DurationOf(headers: seq<Header>): real {
    MaxGranule(headers) as real / SAMPLE_RATE
  }

  lemma {:induction false} MaxGranuleIsGreatest(headers: seq<Header>)
    ensures forall k :: 0 <= k < |headers| ==> headers[k].granule <= MaxGranule(headers)
    ensures MaxGranule(headers) == 0 || exists k :: 0 <= k < |headers| && headers[k].granule == MaxGranule(headers)
  {
    if headers != [] {
      var front, last := headers[..|headers| - 1], headers[|headers| - 1].granule;
      MaxGranuleIsGreatest(front);
      if last > MaxGranule(front) {
        assert headers[|headers| - 1].granule == MaxGranule(headers);
      } else if MaxGranule(front) != 0 {
        var k :| 0 <= k < |front| && front[k].granule == MaxGranule(front);
        assert headers[k].granule == MaxGranule(headers);
      }
    }
  }

  /** On every byte string the walker moves forward, past at least a whole header
      for each page it stops at. */
  lemma {:induction false} WalkMovesForward(data: seq<Byte>, pos: nat, k: nat)
    requires k < |Walk(data, pos)|
    ensures pos + HEADER_SIZE * k <= Walk(data, pos)[k].offset
    ensures OggSAt(data, Walk(data, pos)[k].offset)
    decreases |data| - pos
  {
    if !OggSAt(data, pos) {
      WalkMovesForward(data, pos + 1, k);
    } else if k > 0 {
      WalkMovesForward(data, PageEnd(data, pos).value, k - 1);
    }
  }

  /** No page begins between two offsets. */
  ghost predicate NoPage(data: seq<Byte>, from: int, to: int) {
    forall p :: from <= p < to ==> !OggSAt(data, p)
  }

  /** From the end of page `k` to the next stop, or to the end of the data, no page begins;
      a page whose segment table is cut off is the last. */
  ghost predicate NextIsNext(data: seq<Byte>, stops: seq<Header>, k: nat)
    requires k < |stops|
  {
    && stops[k].offset + 27 <= |data|
    && var end := PageEnd(data, stops[k].offset);
       && (end.None? ==> k + 1 == |stops|)
       && (end.Some? ==> NoPage(data, end.value, if k + 1 < |stops| then stops[k + 1].offset else |data|))
  }

  /** The stops miss no page: not before the first of them, not between two, and not after
      the last. */
  ghost predicate NoneMissed(data: seq<Byte>, pos: nat, stops: seq<Header>) {
    && NoPage(data, pos, if stops == [] then |data| else stops[0].offset)
    && forall k :: 0 <= k < |stops| ==> NextIsNext(data, stops, k)
  }

  lemma OneMoreStop(data: seq<Byte>, stop: Header, rest: seq<Header>)
    requires stop.offset + 27 <= |data|
    requires var end := PageEnd(data, stop.offset); if end.Some? then NoneMissed(data, end.value, rest) else rest == []
    ensures NoneMissed(data, stop.offset, [stop] + rest)
  {
    var stops := [stop] + rest;
    assert NextIsNext(data, stops, 0);
    forall k | 0 < k < |stops| ensures NextIsNext(data, stops, k) {
      assert stops[k] == rest[k - 1] && NextIsNext(data, rest, k - 1);
      assert k + 1 < |stops| ==> stops[k + 1] == rest[k];
    }
  }

  /** On every byte string the walker stops at every page that begins where another may
      begin. */
  lemma {:induction false} WalkMissesNone(data: seq<Byte>, pos: nat)
    ensures NoneMissed(data, pos, Walk(data, pos))
    decreases |data| - pos
  {
    if pos + HEADER_SIZE <= |data| {
      if !OggSAt(data, pos) {
        WalkMissesNone(data, pos + 1);
      } else {
        var end := PageEnd(data, pos);
        if end.Some? {
          WalkMissesNone(data, end.value);
          OneMoreStop(data, StopAt(data, pos), Walk(data, end.value));
        } else {
          OneMoreStop(data, StopAt(data, pos), []);
        }
      }
    }
  }

  lemma SliceOfSlice(data: seq<Byte>, lo: nat, hi: nat, from: nat, to: nat)
    requires lo <= hi <= |data| && from <= to <= hi - lo
    ensures data[lo..hi][from..to] == data[lo + from..lo + to]
  {
    forall k | 0 <= k < to - from ensures data[lo..hi][from..to][k] == data[lo + from..lo + to][k] {
    }
  }

  lemma OneMoreHeader(visited: seq<Header>, header: Header)
    ensures MaxGranule(visited + [header]) ==
            if header.granule > MaxGranule(visited) then header.granule else MaxGranule(visited)
  {
    assert (visited + [header])[..|visited + [header]| - 1] == visited;
  }

  /** The walk with the headers collected on the way. */
  ghost function WalkFrom(data: seq<Byte>, pos: nat, visited: seq<Header>): seq<Header>
    decreases |data| - pos
  {
    if pos + HEADER_SIZE > |data| then visited
    else if !OggSAt(data, pos) then WalkFrom(data, pos + 1, visited)
    else
      var visited', end := visited + [StopAt(data, pos)], PageEnd(data, pos);
      if end.None? then visited' else WalkFrom(data, end.value, visited')
  }

  lemma {:induction false} WalkFromIsWalk(data: seq<Byte>, pos: nat, visited: seq<Header>)
    ensures WalkFrom(data, pos, visited) == visited + Walk(data, pos)
    decreases |data| - pos
  {
    if pos + HEADER_SIZE <= |data| {
      if !OggSAt(data, pos) {
        WalkFromIsWalk(data, pos + 1, visited);
      } else {
        var end := PageEnd(data, pos);
        if end.Some? {
          WalkFromIsWalk(data, end.value, visited + [StopAt(data, pos)]);
        }
      }
    }
  }

  /** `getOpusDuration` over a reader that holds `data`.  The visited headers are
      returned besides the duration. */
  method GetOpusDuration(data: seq<Byte>) returns (duration: real, visited: seq<Header>)
    ensures visited == Walk(data, 0)
    ensures duration == DurationOf(visited)
  {
    var totalGranulePos;
    totalGranulePos, visited := VisitPages(data);
    WalkFromIsWalk(data, 0, []);
    duration := totalGranulePos as real / SAMPLE_RATE;
  }

  /** The loop of `getOpusDuration`. */
  method VisitPages(data: seq<Byte>) returns (totalGranulePos: nat, visited: seq<Header>)
    ensures visited == WalkFrom(data, 0, [])
    ensures totalGranulePos == MaxGranule(visited)
  {
    totalGranulePos := 0;
    var pos := 0;
    visited := [];
    while true
      invariant 0 <= pos
      invariant WalkFrom(data, pos, visited) == WalkFrom(data, 0, [])
      invariant totalGranulePos == MaxGranule(visited)
      decreases |data| - pos
    {
      // r.Read(buf): io.EOF, or fewer than 27 bytes
      if pos >= |data| || |data| - pos < HEADER_SIZE {
        break;
      }
      var isPage, granulePos, numSegments := ReadHeader(data, pos);
      if !isPage {
        // r.Seek(-26, io.SeekCurrent)
        pos := pos + HEADER_SIZE - 26;
        continue;
      }
      OneMoreHeader(visited, Header(pos, granulePos));
      visited := visited + [Header(pos, granulePos)];
      if granulePos > totalGranulePos {
        totalGranulePos := granulePos;
      }
      var next := SkipPage(data, pos + HEADER_SIZE, numSegments);
      if next.None? {
        break;
      }
      pos := next.value;
    }
  }

  /** Reading the segment table and seeking past the page's data; nothing if the table
      is cut short. */
  method SkipPage(data: seq<Byte>, table: nat, numSegments: nat) returns (next: Option<nat>)
    requires table <= |data|
    ensures next == if table + numSegments > |data| then None
                    else Some(table + numSegments + Sum(data[table..table + numSegments]))
  {
    // io.ReadFull(r, segmentTable)
    if table + numSegments > |data| {
      return None;
    }
    var pageSize := SumOf(data[table..table + numSegments]);
    next := Some(table + numSegments + pageSize);
  }

  /** The fields of the 27 bytes at an offset. */
  method ReadHeader(data: seq<Byte>, pos: nat) returns (isPage: bool, granulePos: int, numSegments: Byte)
    requires pos + HEADER_SIZE <= |data|
    ensures isPage <==> OggSAt(data, pos)
    ensures granulePos == Granule(data[pos + 6..pos + 14]) && numSegments == data[pos + 26]
  {
    var buf := data[pos..pos + HEADER_SIZE];
    SliceOfSlice(data, pos, pos + HEADER_SIZE, 0, 4);
    SliceOfSlice(data, pos, pos + HEADER_SIZE, 6, 14);
    isPage := buf[0..4] == OGGS;
    granulePos := Granule(buf[6..14]);
    numSegments := buf[26];
  }

  /** The size of a page's data from its segment table. */
  method SumOf(segmentTable: seq<Byte>) returns (pageSize: nat)
    ensures pageSize == Sum(segmentTable)
  {
    pageSize := 0;
    for i := 0 to |segmentTable|
      invariant pageSize == Sum(segmentTable[..i])
    {
      assert segmentTable[..i + 1][..i] == segmentTable[..i];
      pageSize := pageSize + segmentTable[i];
    }
    assert segmentTable[..|segmentTable|] == segmentTable;
  }

  // ---------------------------------------------------------------------
  // Well-formed pages
  // ---------------------------------------------------------------------

  /** An Ogg page; the payload is as long as the segment table says. */
  datatype Page = Page(
    version: Byte,
    headerType: Byte,
    granule: Int64,
    serial: seq<Byte>,
    sequence: seq<Byte>,
    checksum: seq<Byte>,
    segments: seq<Byte>,
    payload: seq<Byte>)
  {
    predicate Valid() {
      && |serial| == 4 && |sequence| == 4 && |checksum| == 4
      && |segments| < 256
      && |payload| == Sum(segments)
    }

    function Size(): nat {
      HEADER_SIZE + |segments| + |payload|
    }

    function Encode(): (r: seq<Byte>)
      requires Valid()
      ensures |r| == Size()
    {
      OGGS + [version, headerType] + GranuleBytes(granule) + serial + sequence + checksum
      + [|segments|] + segments + payload
    }
  }

  ghost predicate AllValid(pages: seq<Page>) {
    forall k :: 0 <= k < |pages| ==> pages[k].Valid()
  }

  function EncodeAll(pages: seq<Page>): (r: seq<Byte>)
    requires AllValid(pages)
  {
    if pages == [] then [] else pages[0].Encode() + EncodeAll(pages[1..])
  }

  /** The headers of the pages when their encoding starts at `offset`. */
  function HeadersOf(pages: seq<Page>, offset: nat): (r: seq<Header>)
    requires AllValid(pages)
    ensures |r| == |pages|
    ensures forall k :: 0 <= k < |pages| ==> r[k].granule == pages[k].granule
  {
    if pages == [] then []
    else [Header(offset, pages[0].granule)] + HeadersOf(pages[1..], offset + pages[0].Size())
  }

  /** The fields of a page are where the walker looks for them. */
  ghost predicate PageAt(data: seq<Byte>, pos: nat, page: Page) {
    && pos + page.Size() <= |data|
    && OggSAt(data, pos)
    && data[pos + 6..pos + 14] == GranuleBytes(page.granule)
    && data[pos + 26] == |page.segments|
    && data[pos + HEADER_SIZE..pos + HEADER_SIZE + |page.segments|] == page.segments
  }

  /** From `pos` on the data consists of the pages and a tail shorter than a header. */
  ghost predicate PagesAt(data: seq<Byte>, pos: nat, pages: seq<Page>)
    decreases |pages|
  {
    if pages == [] then |data| < pos + HEADER_SIZE
    else PageAt(data, pos, pages[0]) && PagesAt(data, pos + pages[0].Size(), pages[1..])
  }

  lemma EncodedFields(page: Page, data: seq<Byte>, pos: nat, e: seq<Byte>)
    requires page.Valid() && e == page.Encode()
    requires pos + |e| <= |data| && data[pos..pos + |e|] == e
    ensures PageAt(data, pos, page)
  {
    assert forall k :: 0 <= k < |e| ==> data[pos + k] == e[k];
    assert e[0..4] == OGGS;
    assert e[6..14] == GranuleBytes(page.granule);
    assert e[26] == |page.segments|;
    assert e[27..27 + |page.segments|] == page.segments;
    assert data[pos..pos + 4] == e[0..4];
    assert data[pos + 6..pos + 14] == e[6..14];
    assert data[pos + 27..pos + 27 + |page.segments|] == e[27..27 + |page.segments|];
  }

  lemma Regroup(before: seq<Byte>, e: seq<Byte>, rest: seq<Byte>, tail: seq<Byte>)
    ensures before + (e + rest) + tail == (before + e) + rest + tail
    ensures (before + (e + rest) + tail)[|before|..|before| + |e|] == e
  {
  }

  lemma FirstPage(data: seq<Byte>, before: seq<Byte>, pages: seq<Page>, tail: seq<Byte>) returns (before': seq<Byte>)
    requires AllValid(pages) && pages != []
    requires data == before + EncodeAll(pages) + tail
    ensures PageAt(data, |before|, pages[0])
    ensures |before'| == |before| + pages[0].Size() && data == before' + EncodeAll(pages[1..]) + tail
  {
    var e, rest := pages[0].Encode(), EncodeAll(pages[1..]);
    before' := before + e;
    Regroup(before, e, rest, tail);
    EncodedFields(pages[0], data, |before|, e);
  }

  lemma {:induction false} EncodingHasPages(data: seq<Byte>, before: seq<Byte>, pages: seq<Page>, tail: seq<Byte>)
    requires AllValid(pages) && |tail| < HEADER_SIZE
    requires data == before + EncodeAll(pages) + tail
    ensures PagesAt(data, |before|, pages)
    decreases |pages|
  {
    if pages != [] {
      var before' := FirstPage(data, before, pages, tail);
      EncodingHasPages(data, before', pages[1..], tail);
    }
  }

  lemma WalkPage(data: seq<Byte>, pos: nat, page: Page)
    requires page.Valid() && PageAt(data, pos, page)
    ensures Walk(data, pos) == [Header(pos, page.granule)] + Walk(data, pos + page.Size())
  {
    GranuleRoundTrip(page.granule);
  }

  /** From a page boundary the walker visits exactly the page boundaries, whatever
      the payloads contain, and stops in a tail shorter than a header. */
  lemma {:induction false} WalkVisitsPages(data: seq<Byte>, pos: nat, pages: seq<Page>)
    requires AllValid(pages) && PagesAt(data, pos, pages)
    ensures Walk(data, pos) == HeadersOf(pages, pos)
    decreases |pages|
  {
    if pages != [] {
      WalkPage(data, pos, pages[0]);
      WalkVisitsPages(data, pos + pages[0].Size(), pages[1..]);
    }
  }

  /** Bytes before the first page are skipped one by one, provided none of them
      starts a page mark. */
  lemma {:induction false} WalkSkipsJunk(data: seq<Byte>, pos: nat, first: nat)
    requires pos <= first && first + HEADER_SIZE <= |data|
    requires forall p :: pos <= p < first ==> !OggSAt(data, p)
    ensures Walk(data, pos) == Walk(data, first)
    decreases first - pos
  {
    if pos < first {
      WalkSkipsJunk(data, pos + 1, first);
    }
  }

  /** For every sequence of pages, between junk without a page mark and a tail
      shorter than a header, the walk stops on exactly the page boundaries. */
  lemma PagesFound(junk: seq<Byte>, pages: seq<Page>, tail: seq<Byte>)
    requires AllValid(pages) && pages != [] && |tail| < HEADER_SIZE
    requires forall p :: 0 <= p < |junk| ==> !OggSAt(junk + EncodeAll(pages) + tail, p)
    ensures Walk(junk + EncodeAll(pages) + tail, 0) == HeadersOf(pages, |junk|)
  {
    var data := junk + EncodeAll(pages) + tail;
    WalkSkipsJunk(data, 0, |junk|);
    EncodingHasPages(data, junk, pages, tail);
    WalkVisitsPages(data, |junk|, pages);
  }

  /** What `GetOpusDuration` reports for a stream of pages is its greatest
      non-negative granule position over 48 kHz: no page exceeds it, some page
      attains it unless it is 0, and a position of -1 ("no packet ends here") never
      counts. */
  lemma DurationOfPages(pages: seq<Page>)
    requires AllValid(pages)
    ensures Walk(EncodeAll(pages), 0) == HeadersOf(pages, 0)
    ensures var samples := DurationOf(Walk(EncodeAll(pages), 0)) * 48000.0;
            && samples >= 0.0
            && (forall k :: 0 <= k < |pages| ==> pages[k].granule as real <= samples)
            && (samples == 0.0 || exists k :: 0 <= k < |pages| && pages[k].granule as real == samples)
  {
    assert [] + EncodeAll(pages) + [] == EncodeAll(pages);
    EncodingHasPages(EncodeAll(pages), [], pages, []);
    WalkVisitsPages(EncodeAll(pages), 0, pages);
    var headers := HeadersOf(pages, 0);
    var greatest := MaxGranule(headers);
    MaxGranuleIsGreatest(headers);
    forall k | 0 <= k < |pages| ensures pages[k].granule <= greatest {
      assert headers[k].granule <= greatest;
    }
    if greatest != 0 {
      var k :| 0 <= k < |headers| && headers[k].granule == greatest;
      assert pages[k].granule == greatest;
    }
  }
}
