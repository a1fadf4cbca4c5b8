/**
 The duration of an Opus file (common/audio.go, getOpusDuration): a scan over the
 pages of an Ogg container that reads each page header, keeps the largest granule
 position and resynchronises byte by byte where no page starts. The page format is
 section 6 of RFC 3533.
 */
module OggScan {

  import opened Basics

  /** "OggS". */
  const CAPTURE: seq<byte> := [0x4F, 0x67, 0x67, 0x53]

  const HEADER: nat := 27

  const TWO_63: int := 0x8000_0000_0000_0000

  /** The sum of s[lo..hi]. */
  function Sum(s: seq<byte>, lo: nat, hi: nat): nat
    requires hi <= |s|
    decreases hi
  {
    if hi <= lo then 0 else Sum(s, lo, hi - 1) + s[hi - 1]
  }

  lemma {:induction false} SumShift(s: seq<byte>, t: seq<byte>, k: nat, hi: nat)
    requires hi <= |t| && k + hi <= |s| && forall i :: 0 <= i < hi ==> s[k + i] == t[i]
    ensures Sum(s, k, k + hi) == Sum(t, 0, hi)
    decreases hi
  {
    if hi > 0 {
      SumShift(s, t, k, hi - 1);
      assert s[k + (hi - 1)] == t[hi - 1];
    }
  }

  // ----- Little-endian integers ------------------------------------------------

  /** Bytes of `u`, least significant first. */
  function PutUint32(u: nat): (r: seq<byte>)
    ensures |r| == 4
  {
    [u % 256, u / 0x100 % 256, u / 0x1_0000 % 256, u / 0x100_0000 % 256]
  }

  function PutUint64(u: nat): (r: seq<byte>)
    ensures |r| == 8
  {
    PutUint32(u % 0x1_0000_0000) + PutUint32(u / 0x1_0000_0000)
  }

  function Uint32(s: seq<byte>, at: nat): nat
    requires at + 4 <= |s|
  {
    var b0: nat, b1: nat, b2: nat, b3: nat := s[at], s[at + 1], s[at + 2], s[at + 3];
    b0 + 0x100 * b1 + 0x1_0000 * b2 + 0x100_0000 * b3
  }

  function Uint64(s: seq<byte>, at: nat): nat
    requires at + 8 <= |s|
  {
    Uint32(s, at) + 0x1_0000_0000 * Uint32(s, at + 4)
  }

  lemma Uint32RoundTrip(u: nat)
    requires u < 0x1_0000_0000
    ensures Uint32(PutUint32(u), 0) == u
  {
    assert u / 0x1_0000 == u / 0x100 / 256;
    assert u / 0x100_0000 == u / 0x1_0000 / 256;
  }

  lemma Uint64RoundTrip(u: nat)
    requires u < 2 * TWO_63
    ensures Uint64(PutUint64(u), 0) == u
  {
    Uint32RoundTrip(u % 0x1_0000_0000);
    Uint32RoundTrip(u / 0x1_0000_0000);
  }

  /** int64(uint64). */
  function ToSigned(u: nat): int {
    if u >= TWO_63 then u - 2 * TWO_63 else u
  }

  function ToUnsigned(g: int): nat
    requires -TWO_63 <= g < TWO_63
  {
    if g < 0 then g + 2 * TWO_63 else g
  }

  // ----- Pages -----------------------------------------------------------------

  /** A page: `ids` are serial number, sequence number and checksum. */
  datatype Page = Page(version: byte, flags: byte, granule: seq<byte>, ids: seq<byte>,
                       table: seq<byte>, payload: seq<byte>)

  predicate WellFormed(p: Page) {
    && |p.granule| == 8 && |p.ids| == 12 && |p.table| <= 255 && |p.payload| == Sum(p.table, 0, |p.table|)
  }

  function Encode(p: Page): seq<byte>
    requires WellFormed(p)
  {
    CAPTURE + [p.version, p.flags] + p.granule + p.ids + [|p.table|] + p.table + p.payload
  }

  /** The signed granule position; -1 (all bits set) marks a page on which no packet ends. */
  function Granule(p: Page): int
    requires WellFormed(p)
  {
    ToSigned(Uint64(p.granule, 0))
  }

  /** A page, and what stands between it and the page before. */
  datatype Segment = Segment(gap: seq<byte>, page: Page)

  /** No page starts in the gap. */
  ghost predicate Sound(seg: Segment) {
    WellFormed(seg.page) && forall i :: 0 <= i < |seg.gap| ==> !CaptureAt(seg.gap, i)
  }

  ghost predicate AllSound(segs: seq<Segment>) {
    forall i :: 0 <= i < |segs| ==> Sound(segs[i])
  }

  ghost function EncodeAll(segs: seq<Segment>): seq<byte>
    requires AllSound(segs)
  {
    if segs == [] then [] else segs[0].gap + Encode(segs[0].page) + EncodeAll(segs[1..])
  }

  // ----- The scan --------------------------------------------------------------

  predicate CaptureAt(data: seq<byte>, pos: nat) {
    pos + 4 <= |data| && data[pos] == 0x4F && data[pos + 1] == 0x67 && data[pos + 2] == 0x67 && data[pos + 3] == 0x53
  }

  function GranuleAt(data: seq<byte>, pos: nat): int
    requires pos + HEADER <= |data|
  {
    ToSigned(Uint64(data, pos + 6))
  }

  /** The result of a scan: the largest granule position seen, and where page headers were read. */
  datatype Scanned = Scanned(total: int, visited: seq<nat>)

  function Max(a: int, b: int): int {
    if a > b then a else b
  }

  function Scan(data: seq<byte>, pos: nat, total: int): Scanned
    decreases |data| - pos
  {
    if pos + HEADER > |data| then Scanned(total, [])
    else if !CaptureAt(data, pos) then Scan(data, pos + 1, total)
    else
      var total' := Max(GranuleAt(data, pos), total);
      var table := pos + HEADER + data[pos + 26];
      if table > |data| then Scanned(total', [pos])
      else
        var r := Scan(data, table + Sum(data, pos + HEADER, table), total');
        Scanned(r.total, [pos] + r.visited)
  }

  /** The header buffer holds the bytes at the reading position. */
  lemma BufferFields(data: seq<byte>, pos: nat)
    requires pos + HEADER <= |data|
    ensures var buf := data[pos..pos + HEADER];
            && (buf[..4] == CAPTURE <==> CaptureAt(data, pos))
            && Uint64(buf, 6) == Uint64(data, pos + 6) && buf[26] == data[pos + 26]
  {
    var buf := data[pos..pos + HEADER];
    assert buf[0] == data[pos] && buf[1] == data[pos + 1] && buf[2] == data[pos + 2] && buf[3] == data[pos + 3];
    assert buf[..4] == [buf[0], buf[1], buf[2], buf[3]];
  }

  /** The loop over the segment table. */
  method PageSize(segmentTable: seq<byte>) returns (pageSize: nat)
    ensures pageSize == Sum(segmentTable, 0, |segmentTable|)
  {
    pageSize := 0;
    for i := 0 to |segmentTable|
      invariant pageSize == Sum(segmentTable, 0, i)
    {
      pageSize := pageSize + segmentTable[i];
    }
  }

  /** getOpusDuration on a seekable byte string; the scan ends for every input. */
  method GetOpusDuration(data: seq<byte>) returns (duration: real, total: int, ghost visited: seq<nat>)
    ensures Scanned(total, visited) == Scan(data, 0, 0)
    ensures duration == total as real / 48000.0
  {
    var pos := 0;
    total := 0;
    visited := [];
    while true
      invariant 0 <= pos
      invariant Scan(data, 0, 0).total == Scan(data, pos, total).total
      invariant Scan(data, 0, 0).visited == visited + Scan(data, pos, total).visited
      decreases |data| - pos
    {
      var n := if pos >= |data| then 0 else if |data| - pos < HEADER then |data| - pos else HEADER;
      if n < HEADER {
        break;
      }
      ghost var here := Scan(data, pos, total);
      var buf := data[pos..pos + HEADER];
      BufferFields(data, pos);
      if buf[..4] != CAPTURE {
        pos := pos + HEADER - 26;
        continue;
      }
      visited := visited + [pos];
      var granulePos := ToSigned(Uint64(buf, 6));
      if granulePos > total {
        total := granulePos;
      }
      var numSegments := buf[26];
      if pos + HEADER + numSegments > |data| {
        assert here == Scanned(total, [pos]);
        break;
      }
      var segmentTable := data[pos + HEADER..pos + HEADER + numSegments];
      var pageSize := PageSize(segmentTable);
      SumSlice(data, pos + HEADER, segmentTable);
      pos := pos + HEADER + numSegments + pageSize;
    }
    duration := total as real / 48000.0;
  }

  // ----- What the scan finds ---------------------------------------------------

  /** Where the pages start when the first gap starts at `pos`. */
  ghost function Boundaries(pos: nat, segs: seq<Segment>): seq<nat>
    requires AllSound(segs)
    decreases |segs|
  {
    if segs == [] then []
    else
      var start := pos + |segs[0].gap|;
      [start] + Boundaries(start + |Encode(segs[0].page)|, segs[1..])
  }

  /** The larger of `total` and every granule position. */
  ghost function MaxGranule(total: int, segs: seq<Segment>): int
    requires AllSound(segs)
    decreases |segs|
  {
    if segs == [] then total else MaxGranule(Max(Granule(segs[0].page), total), segs[1..])
  }

  lemma {:induction false} MaxGranuleIsMaximum(total: int, segs: seq<Segment>)
    requires AllSound(segs)
    ensures var m := MaxGranule(total, segs);
            && m >= total && (forall i :: 0 <= i < |segs| ==> m >= Granule(segs[i].page))
            && (m == total || exists i :: 0 <= i < |segs| && m == Granule(segs[i].page))
    decreases |segs|
  {
    if segs != [] {
      var m := MaxGranule(total, segs);
      MaxGranuleIsMaximum(Max(Granule(segs[0].page), total), segs[1..]);
      forall i | 0 <= i < |segs|
        ensures m >= Granule(segs[i].page)
      {
        if i > 0 { assert segs[i] == segs[1..][i - 1]; }
      }
      if m != total && m != Granule(segs[0].page) {
        var i :| 0 <= i < |segs[1..]| && m == Granule(segs[1..][i].page);
        assert m == Granule(segs[i + 1].page);
      }
    }
  }

  lemma SameUint64(data: seq<byte>, at: nat, g: seq<byte>)
    requires |g| == 8 && at + 8 <= |data| && data[at..at + 8] == g
    ensures Uint64(data, at) == Uint64(g, 0)
  {
    assert g[0] == data[at] && g[1] == data[at + 1] && g[2] == data[at + 2] && g[3] == data[at + 3];
    assert g[4] == data[at + 4] && g[5] == data[at + 5] && g[6] == data[at + 6] && g[7] == data[at + 7];
  }

  lemma SubSlice(data: seq<byte>, pos: nat, e: seq<byte>, lo: nat, hi: nat)
    requires pos + |e| <= |data| && data[pos..pos + |e|] == e && lo <= hi <= |e|
    ensures data[pos + lo..pos + hi] == e[lo..hi]
  {
    forall i | 0 <= i < hi - lo
      ensures data[pos + lo..pos + hi][i] == e[lo..hi][i]
    {
      assert data[pos..pos + |e|][lo + i] == e[lo + i];
    }
  }

  lemma CaptureSlice(data: seq<byte>, pos: nat)
    requires pos + 4 <= |data| && data[pos..pos + 4] == CAPTURE
    ensures CaptureAt(data, pos)
  {
    var s := data[pos..pos + 4];
    assert s[0] == 0x4F && s[1] == 0x67 && s[2] == 0x67 && s[3] == 0x53;
  }

  lemma SumSlice(data: seq<byte>, lo: nat, t: seq<byte>)
    requires lo + |t| <= |data| && data[lo..lo + |t|] == t
    ensures Sum(data, lo, lo + |t|) == Sum(t, 0, |t|)
  {
    assert forall i :: 0 <= i < |t| ==> data[lo..lo + |t|][i] == t[i];
    SumShift(data, t, lo, |t|);
  }

  /** The layout of a page. */
  lemma Layout(p: Page)
    requires WellFormed(p)
    ensures |Encode(p)| == HEADER + |p.table| + |p.payload|
    ensures Encode(p)[..4] == CAPTURE && Encode(p)[6..14] == p.granule
    ensures Encode(p)[26] == |p.table| && Encode(p)[HEADER..HEADER + |p.table|] == p.table
  {
    assert Encode(p)[..4] == CAPTURE;
    assert Encode(p)[6..14] == p.granule;
    assert Encode(p)[HEADER..HEADER + |p.table|] == p.table;
  }

  /** The fields of a page header at their offsets in the file. */
  lemma HeaderFields(data: seq<byte>, pos: nat, p: Page)
    requires WellFormed(p) && pos + |Encode(p)| <= |data| && data[pos..pos + |Encode(p)|] == Encode(p)
    ensures |Encode(p)| == HEADER + |p.table| + |p.payload|
    ensures CaptureAt(data, pos) && data[pos + 26] == |p.table|
    ensures GranuleAt(data, pos) == Granule(p)
    ensures Sum(data, pos + HEADER, pos + HEADER + |p.table|) == |p.payload|
  {
    Layout(p);
    var e := Encode(p);
    assert data[pos + 26] == e[26];
    SubSlice(data, pos, e, 0, 4);
    CaptureSlice(data, pos);
    SubSlice(data, pos, e, 6, 14);
    SameUint64(data, pos + 6, p.granule);
    SubSlice(data, pos, e, HEADER, HEADER + |p.table|);
    SumSlice(data, pos + HEADER, p.table);
  }

  /** Every 64-bit granule position has its eight bytes. */
  lemma GranuleRoundTrip(g: int)
    requires -TWO_63 <= g < TWO_63
    ensures ToSigned(Uint64(PutUint64(ToUnsigned(g)), 0)) == g
  {
    Uint64RoundTrip(ToUnsigned(g));
  }

  /** A whole page is one step of the scan. */
  lemma ScanPage(data: seq<byte>, pos: nat, p: Page, total: int)
    requires WellFormed(p) && pos + |Encode(p)| <= |data| && data[pos..pos + |Encode(p)|] == Encode(p)
    ensures var r := Scan(data, pos + |Encode(p)|, Max(Granule(p), total));
            Scan(data, pos, total) == Scanned(r.total, [pos] + r.visited)
  {
    HeaderFields(data, pos, p);
  }

  lemma SplitSlice(data: seq<byte>, pos: nat, a: seq<byte>, b: seq<byte>)
    requires pos + |a + b| <= |data| && data[pos..pos + |a + b|] == a + b
    ensures data[pos..pos + |a|] == a
    ensures data[pos + |a|..pos + |a| + |b|] == b
  {
    assert data[pos..pos + |a|] == (a + b)[..|a|];
    assert data[pos + |a|..pos + |a| + |b|] == (a + b)[|a|..];
  }

  /** Where no page starts the scan moves on without reading anything. */
  lemma {:induction false} ScanSkips(data: seq<byte>, pos: nat, to: nat, total: int)
    requires pos <= to && forall i :: pos <= i < to ==> !CaptureAt(data, i)
    ensures Scan(data, pos, total) == Scan(data, to, total)
    decreases (to as int) - pos
  {
    if pos < to {
      ScanSkips(data, pos + 1, to, total);
    }
  }

  /** From `pos` on the file is this gap and this page. */
  ghost predicate SegmentAt(data: seq<byte>, pos: nat, seg: Segment)
    requires Sound(seg)
  {
    var start := pos + |seg.gap|;
    && start + |Encode(seg.page)| <= |data|
    && data[pos..start] == seg.gap && data[start..start + |Encode(seg.page)|] == Encode(seg.page)
  }

  /** A page cannot complete a capture pattern that begins in the gap before it. */
  lemma NoStraddle(data: seq<byte>, pos: nat, seg: Segment, i: nat)
    requires Sound(seg) && SegmentAt(data, pos, seg) && i < |seg.gap|
    ensures !CaptureAt(data, pos + i)
  {
    var start := pos + |seg.gap|;
    Layout(seg.page);
    assert data[start] == Encode(seg.page)[0] == Encode(seg.page)[..4][0];
    if i + 4 <= |seg.gap| {
      var gap := data[pos..start];
      assert !CaptureAt(gap, i);
      assert gap[i] == data[pos + i] && gap[i + 1] == data[pos + i + 1];
      assert gap[i + 2] == data[pos + i + 2] && gap[i + 3] == data[pos + i + 3];
    }
  }

  /** A gap and its page are one step of the scan. */
  lemma ScanSegment(data: seq<byte>, pos: nat, seg: Segment, total: int)
    requires Sound(seg) && SegmentAt(data, pos, seg)
    ensures var start := pos + |seg.gap|;
            var r := Scan(data, start + |Encode(seg.page)|, Max(Granule(seg.page), total));
            Scan(data, pos, total) == Scanned(r.total, [start] + r.visited)
  {
    forall i | pos <= i < pos + |seg.gap|
      ensures !CaptureAt(data, i)
    {
      NoStraddle(data, pos, seg, i - pos);
    }
    ScanSkips(data, pos, pos + |seg.gap|, total);
    ScanPage(data, pos + |seg.gap|, seg.page, total);
  }

  /** From `pos` on no capture pattern starts where a header would still fit. */
  ghost predicate Quiet(data: seq<byte>, pos: nat) {
    forall i :: pos <= i && i + HEADER <= |data| ==> !CaptureAt(data, i)
  }

  lemma ScanQuiet(data: seq<byte>, pos: nat, total: int)
    requires Quiet(data, pos)
    ensures Scan(data, pos, total) == Scanned(total, [])
  {
    if pos + HEADER <= |data| {
      ScanSkips(data, pos, |data| + 1 - HEADER, total);
    }
  }

  lemma QuietTail(front: seq<byte>, tail: seq<byte>)
    requires Quiet(tail, 0)
    ensures Quiet(front + tail, |front|)
  {
    var data := front + tail;
    forall i | |front| <= i && i + HEADER <= |data|
      ensures !CaptureAt(data, i)
    {
      var j := i - |front|;
      assert !CaptureAt(tail, j);
      assert data[i] == tail[j] && data[i + 1] == tail[j + 1];
      assert data[i + 2] == tail[j + 2] && data[i + 3] == tail[j + 3];
    }
  }

  /** From `pos` on the file is these segments, and then something. */
  ghost predicate SegmentsAt(data: seq<byte>, pos: nat, segs: seq<Segment>)
    requires AllSound(segs)
    decreases |segs|
  {
    segs != [] ==>
      SegmentAt(data, pos, segs[0]) && SegmentsAt(data, pos + |segs[0].gap| + |Encode(segs[0].page)|, segs[1..])
  }

  lemma {:induction false} EncodedSegmentsAt(data: seq<byte>, pos: nat, segs: seq<Segment>)
    requires AllSound(segs)
    requires pos + |EncodeAll(segs)| <= |data| && data[pos..pos + |EncodeAll(segs)|] == EncodeAll(segs)
    ensures SegmentsAt(data, pos, segs)
    decreases |segs|
  {
    if segs != [] {
      var gap, page, rest := segs[0].gap, Encode(segs[0].page), EncodeAll(segs[1..]);
      SplitSlice(data, pos, gap + page, rest);
      SplitSlice(data, pos, gap, page);
      EncodedSegmentsAt(data, pos + |gap + page|, segs[1..]);
    }
  }

  lemma EncodedLength(segs: seq<Segment>)
    requires segs != [] && AllSound(segs)
    ensures |EncodeAll(segs)| == |segs[0].gap| + |Encode(segs[0].page)| + |EncodeAll(segs[1..])|
  {
  }

  /** One scan has found these segments from `pos` on and then what another one finds. */
  ghost predicate Through(all: Scanned, rest: Scanned, pos: nat, segs: seq<Segment>)
    requires AllSound(segs)
  {
    all == Scanned(rest.total, Boundaries(pos, segs) + rest.visited)
  }

  lemma Prepend(all: Scanned, next: Scanned, rest: Scanned, pos: nat, segs: seq<Segment>)
    requires segs != [] && AllSound(segs)
    requires all == Scanned(next.total, [pos + |segs[0].gap|] + next.visited)
    requires Through(next, rest, pos + |segs[0].gap| + |Encode(segs[0].page)|, segs[1..])
    ensures Through(all, rest, pos, segs)
  {
    var start := pos + |segs[0].gap|;
    var later := Boundaries(start + |Encode(segs[0].page)|, segs[1..]);
    assert [start] + (later + rest.visited) == [start] + later + rest.visited;
  }

  lemma {:induction false} ScanSegments(data: seq<byte>, pos: nat, segs: seq<Segment>, total: int, end: nat, max: int)
    requires AllSound(segs) && SegmentsAt(data, pos, segs)
    requires end == pos + |EncodeAll(segs)| && max == MaxGranule(total, segs)
    ensures Through(Scan(data, pos, total), Scan(data, end, max), pos, segs)
    decreases |segs|
  {
    if segs != [] {
      var next := pos + |segs[0].gap| + |Encode(segs[0].page)|;
      var total' := Max(Granule(segs[0].page), total);
      ScanSegment(data, pos, segs[0], total);
      EncodedLength(segs);
      ScanSegments(data, next, segs[1..], total', end, max);
      Prepend(Scan(data, pos, total), Scan(data, next, total'), Scan(data, end, max), pos, segs);
    }
  }

  lemma ScanFrom(segs: seq<Segment>, tail: seq<byte>)
    requires AllSound(segs)
    ensures var data := EncodeAll(segs) + tail;
            Through(Scan(data, 0, 0), Scan(data, |EncodeAll(segs)|, MaxGranule(0, segs)), 0, segs)
  {
    var data := EncodeAll(segs) + tail;
    assert data[0..0 + |EncodeAll(segs)|] == EncodeAll(segs);
    EncodedSegmentsAt(data, 0, segs);
    ScanSegments(data, 0, segs, 0, |EncodeAll(segs)|, MaxGranule(0, segs));
  }

  /**
   Any sequence of well-formed pages, each after a gap in which no page starts, and before a remainder
   of any length in which no page starts either: the scan reads exactly the page headers, whatever the
   payloads contain, and returns the largest granule position, at least 0.
   */
  lemma ScanIsExact(segs: seq<Segment>, tail: seq<byte>)
    requires AllSound(segs) && Quiet(tail, 0)
    ensures Scan(EncodeAll(segs) + tail, 0, 0) == Scanned(MaxGranule(0, segs), Boundaries(0, segs))
  {
    ScanFrom(segs, tail);
    QuietTail(EncodeAll(segs), tail);
    ScanQuiet(EncodeAll(segs) + tail, |EncodeAll(segs)|, MaxGranule(0, segs));
  }

  // ----- Truncated files -------------------------------------------------------

  /** From `pos` on the file is this gap and the first `n` bytes of this page, and ends there. */
  ghost predicate CutAt(data: seq<byte>, pos: nat, seg: Segment, n: nat)
    requires Sound(seg)
  {
    && n <= |Encode(seg.page)| && |data| == pos + |seg.gap| + n
    && SegmentAt(data + Encode(seg.page)[n..], pos, seg)
  }

  lemma CutGap(data: seq<byte>, pos: nat, seg: Segment, n: nat, i: nat)
    requires Sound(seg) && CutAt(data, pos, seg, n) && pos <= i < pos + |seg.gap|
    ensures !CaptureAt(data, i)
  {
    var full := data + Encode(seg.page)[n..];
    NoStraddle(full, pos, seg, i - pos);
    if CaptureAt(data, i) {
      assert CaptureAt(full, i);
    }
  }

  lemma {:induction false} SameSum(s: seq<byte>, t: seq<byte>, lo: nat, hi: nat)
    requires hi <= |s| && s <= t
    ensures Sum(s, lo, hi) == Sum(t, lo, hi)
    decreases hi
  {
    if lo < hi {
      SameSum(s, t, lo, hi - 1);
    }
  }

  /** A page whose header is complete is counted, and the scan ends with it. */
  lemma CutPage(data: seq<byte>, pos: nat, seg: Segment, n: nat, total: int)
    requires Sound(seg) && CutAt(data, pos, seg, n) && n >= HEADER
    ensures Scan(data, pos, total) == Scanned(Max(Granule(seg.page), total), [pos + |seg.gap|])
  {
    var start := pos + |seg.gap|;
    SkipGap(data, pos, seg, n, total);
    CutHeader(data, pos, seg, n);
    CutTable(data, pos, seg, n);
    ScanLast(data, start, total);
  }

  lemma SkipGap(data: seq<byte>, pos: nat, seg: Segment, n: nat, total: int)
    requires Sound(seg) && CutAt(data, pos, seg, n)
    ensures Scan(data, pos, total) == Scan(data, pos + |seg.gap|, total)
  {
    forall i | pos <= i < pos + |seg.gap|
      ensures !CaptureAt(data, i)
    {
      CutGap(data, pos, seg, n, i);
    }
    ScanSkips(data, pos, pos + |seg.gap|, total);
  }

  lemma CutTable(data: seq<byte>, pos: nat, seg: Segment, n: nat)
    requires Sound(seg) && CutAt(data, pos, seg, n) && n >= HEADER
    ensures var start := pos + |seg.gap|;
            var table := start + HEADER + |seg.page.table|;
            table <= |data| ==> table + Sum(data, start + HEADER, table) >= |data|
  {
    var start, full := pos + |seg.gap|, data + Encode(seg.page)[n..];
    HeaderFields(full, start, seg.page);
    BeyondEnd(data, full, start + HEADER, start + HEADER + |seg.page.table|, |seg.page.payload|);
  }

  /** What the segment table says of the page goes beyond the end of the file. */
  lemma BeyondEnd(data: seq<byte>, full: seq<byte>, from: nat, table: nat, payload: nat)
    requires data <= full && from <= table && |full| == table + payload && Sum(full, from, table) == payload
    ensures table <= |data| ==> table + Sum(data, from, table) >= |data|
  {
    if table <= |data| {
      SameSum(data, full, from, table);
    }
  }

  lemma ScanLast(data: seq<byte>, start: nat, total: int)
    requires start + HEADER <= |data| && CaptureAt(data, start)
    requires var table := start + HEADER + data[start + 26];
             table <= |data| ==> table + Sum(data, start + HEADER, table) >= |data|
    ensures Scan(data, start, total) == Scanned(Max(GranuleAt(data, start), total), [start])
  {
  }

  lemma CutHeader(data: seq<byte>, pos: nat, seg: Segment, n: nat)
    requires Sound(seg) && CutAt(data, pos, seg, n) && n >= HEADER
    ensures var start := pos + |seg.gap|;
            && CaptureAt(data, start) && GranuleAt(data, start) == Granule(seg.page)
            && data[start + 26] == |seg.page.table|
  {
    var start, full := pos + |seg.gap|, data + Encode(seg.page)[n..];
    HeaderFields(full, start, seg.page);
    SameHeader(data, full, start);
  }

  lemma SameHeader(data: seq<byte>, full: seq<byte>, start: nat)
    requires data <= full && start + HEADER <= |data|
    ensures CaptureAt(data, start) == CaptureAt(full, start) && GranuleAt(data, start) == GranuleAt(full, start)
    ensures data[start + 26] == full[start + 26]
  {
    assert forall i :: 0 <= i < |data| ==> data[i] == full[i];
  }

  /**
   A file that is cut inside its last page: the page counts exactly when its header is complete,
   whatever is missing of its segment table and payload.
   */
  lemma ScanTruncated(segs: seq<Segment>, last: Segment, n: nat)
    requires AllSound(segs) && Sound(last) && n <= |Encode(last.page)|
    ensures Scan(EncodeAll(segs) + (last.gap + Encode(last.page)[..n]), 0, 0) ==
            if n < HEADER then Scanned(MaxGranule(0, segs), Boundaries(0, segs))
            else Scanned(Max(Granule(last.page), MaxGranule(0, segs)),
                         Boundaries(0, segs) + [|EncodeAll(segs)| + |last.gap|])
  {
    var front, tail := EncodeAll(segs), last.gap + Encode(last.page)[..n];
    var data := front + tail;
    ScanFrom(segs, tail);
    CutIsCut(front, last, n);
    if n < HEADER {
      forall i: nat | |front| <= i && i + HEADER <= |data|
        ensures !CaptureAt(data, i)
      {
        CutGap(data, |front|, last, n, i);
      }
      ScanQuiet(data, |front|, MaxGranule(0, segs));
    } else {
      CutPage(data, |front|, last, n, MaxGranule(0, segs));
    }
  }

  lemma CutIsCut(front: seq<byte>, last: Segment, n: nat)
    requires Sound(last) && n <= |Encode(last.page)|
    ensures CutAt(front + (last.gap + Encode(last.page)[..n]), |front|, last, n)
  {
    var page := Encode(last.page);
    var full := front + (last.gap + page[..n]) + page[n..];
    assert full == front + last.gap + page;
    assert full[|front|..|front| + |last.gap|] == last.gap;
    assert full[|front| + |last.gap|..] == page;
  }

  /** Without any capture pattern nothing is read and the duration is 0. */
  lemma NoPages(data: seq<byte>)
    requires forall i :: 0 <= i < |data| ==> !CaptureAt(data, i)
    ensures Scan(data, 0, 0) == Scanned(0, [])
  {
    ScanSkips(data, 0, |data|, 0);
  }
}
