/** The JPEG encoder's header: written behind the hardware's back around the entropy-coded data, and read by Annex B of
    ITU-T T.81. */
module JpegHeader {
  import opened Words
  import opened Memory

  const HEADER_SIZE := 623

  /** An 8 by 8 quantisation table in its natural order, row by row. */
  type Table = t: seq<byte> | |t| == 64 witness seq(64, _ => 0)

  /** The four Huffman table segments; what they hold is not part of this model. */
  datatype Huffman = Huffman(dc0: seq<byte>, ac0: seq<byte>, dc1: seq<byte>, ac1: seq<byte>)
  {
    predicate Valid() {
      |dc0| == |dc1| == 29 && |ac0| == |ac1| == 179
    }
  }

  // The zig-zag order.

  /** The driver's table, eight entries a row. */
  function ZigzagRow(i: nat): (row: seq<byte>)
    ensures |row| == 8
  {
    match i
    case 0 => [0x00, 0x01, 0x08, 0x10, 0x09, 0x02, 0x03, 0x0a]
    case 1 => [0x11, 0x18, 0x20, 0x19, 0x12, 0x0b, 0x04, 0x05]
    case 2 => [0x0c, 0x13, 0x1a, 0x21, 0x28, 0x30, 0x29, 0x22]
    case 3 => [0x1b, 0x14, 0x0d, 0x06, 0x07, 0x0e, 0x15, 0x1c]
    case 4 => [0x23, 0x2a, 0x31, 0x38, 0x39, 0x32, 0x2b, 0x24]
    case 5 => [0x1d, 0x16, 0x0f, 0x17, 0x1e, 0x25, 0x2c, 0x33]
    case 6 => [0x3a, 0x3b, 0x34, 0x2d, 0x26, 0x1f, 0x27, 0x2e]
    case _ => [0x35, 0x3c, 0x3d, 0x36, 0x2f, 0x37, 0x3e, 0x3f]
  }

  function Zigzag(k: nat): byte {
    ZigzagRow(k / 8)[k % 8]
  }

  /** The coefficients on the diagonals before diagonal `d`. */
  function Triangle(d: int): int {
    if d <= 0 then 0 else if d == 1 then 1 else if d == 2 then 3 else if d == 3 then 6
    else if d == 4 then 10 else if d == 5 then 15 else if d == 6 then 21 else 28
  }

  /** Figure A.6 of ITU-T T.81: along the diagonals, up the even ones and down the odd ones; the lower right half
      mirrors the upper left. */
  function Rank(r: int, c: int): int {
    if r + c < 8 then UpperRank(r, c) else 63 - UpperRank(7 - r, 7 - c)
  }

  function UpperRank(r: int, c: int): int {
    Triangle(r + c) + (if (r + c) % 2 == 0 then c else r)
  }

  predicate Ranked(z: byte, k: int) {
    z < 64 && Rank(z / 8, z % 8) == k
  }

  lemma Rows0And1Ranked()
    ensures Ranked(0x00, 0) && Ranked(0x01, 1) && Ranked(0x08, 2) && Ranked(0x10, 3)
    ensures Ranked(0x09, 4) && Ranked(0x02, 5) && Ranked(0x03, 6) && Ranked(0x0a, 7)
    ensures Ranked(0x11, 8) && Ranked(0x18, 9) && Ranked(0x20, 10) && Ranked(0x19, 11)
    ensures Ranked(0x12, 12) && Ranked(0x0b, 13) && Ranked(0x04, 14) && Ranked(0x05, 15)
  {
  }

  lemma Rows2And3Ranked()
    ensures Ranked(0x0c, 16) && Ranked(0x13, 17) && Ranked(0x1a, 18) && Ranked(0x21, 19)
    ensures Ranked(0x28, 20) && Ranked(0x30, 21) && Ranked(0x29, 22) && Ranked(0x22, 23)
    ensures Ranked(0x1b, 24) && Ranked(0x14, 25) && Ranked(0x0d, 26) && Ranked(0x06, 27)
    ensures Ranked(0x07, 28) && Ranked(0x0e, 29) && Ranked(0x15, 30) && Ranked(0x1c, 31)
  {
  }

  lemma Rows4And5Ranked()
    ensures Ranked(0x23, 32) && Ranked(0x2a, 33) && Ranked(0x31, 34) && Ranked(0x38, 35)
    ensures Ranked(0x39, 36) && Ranked(0x32, 37) && Ranked(0x2b, 38) && Ranked(0x24, 39)
    ensures Ranked(0x1d, 40) && Ranked(0x16, 41) && Ranked(0x0f, 42) && Ranked(0x17, 43)
    ensures Ranked(0x1e, 44) && Ranked(0x25, 45) && Ranked(0x2c, 46) && Ranked(0x33, 47)
  {
  }

  lemma Rows6And7Ranked()
    ensures Ranked(0x3a, 48) && Ranked(0x3b, 49) && Ranked(0x34, 50) && Ranked(0x2d, 51)
    ensures Ranked(0x26, 52) && Ranked(0x1f, 53) && Ranked(0x27, 54) && Ranked(0x2e, 55)
    ensures Ranked(0x35, 56) && Ranked(0x3c, 57) && Ranked(0x3d, 58) && Ranked(0x36, 59)
    ensures Ranked(0x2f, 60) && Ranked(0x37, 61) && Ranked(0x3e, 62) && Ranked(0x3f, 63)
  {
  }

  /** The driver's table lists the coefficients in that order. */
  lemma ZigzagIsRanked(k: nat)
    requires k < 64
    ensures Ranked(Zigzag(k), k)
  {
    hide Ranked;
    Rows0And1Ranked();
    Rows2And3Ranked();
    Rows4And5Ranked();
    Rows6And7Ranked();
  }

  lemma TriangleStep(d: nat, e: nat)
    requires d < e < 8
    ensures Triangle(d) + d < Triangle(e)
  {
  }

  lemma UpperInjective(r: nat, c: nat, p: nat, q: nat)
    requires r + c < 8 && p + q < 8 && UpperRank(r, c) == UpperRank(p, q)
    ensures r == p && c == q
  {
    hide Triangle;
    if r + c < p + q { TriangleStep(r + c, p + q); } else if p + q < r + c { TriangleStep(p + q, r + c); }
  }

  lemma UpperBounds(r: nat, c: nat)
    requires r + c < 8
    ensures 0 <= UpperRank(r, c) <= 35 && (r + c < 7 ==> UpperRank(r, c) < 28)
  {
  }

  /** The ranks tell the coefficients apart. */
  lemma RankInjective(r: nat, c: nat, p: nat, q: nat)
    requires r < 8 && c < 8 && p < 8 && q < 8 && Rank(r, c) == Rank(p, q)
    ensures r == p && c == q
  {
    hide UpperRank;
    if r + c < 8 { UpperBounds(r, c); } else { UpperBounds(7 - r, 7 - c); }
    if p + q < 8 { UpperBounds(p, q); } else { UpperBounds(7 - p, 7 - q); }
    if r + c < 8 && p + q < 8 { UpperInjective(r, c, p, q); }
    if r + c >= 8 && p + q >= 8 { UpperInjective(7 - r, 7 - c, 7 - p, 7 - q); }
  }

  /** So the table is a permutation, and a decoder that follows the figure finds every coefficient. */
  lemma ZigzagOfRank(n: nat)
    requires n < 64
    ensures 0 <= Rank(n / 8, n % 8) < 64 && Zigzag(Rank(n / 8, n % 8)) == n
  {
    hide Zigzag, Rank;
    var k := Rank(n / 8, n % 8);
    RankBounds(n / 8, n % 8);
    ZigzagIsRanked(k);
    RankInjective(n / 8, n % 8, Zigzag(k) / 8, Zigzag(k) % 8);
  }

  lemma RankBounds(r: nat, c: nat)
    requires r < 8 && c < 8
    ensures 0 <= Rank(r, c) < 64
  {
    if r + c < 8 { UpperBounds(r, c); } else { UpperBounds(7 - r, 7 - c); }
  }

  function Scanned(t: Table): (s: seq<byte>)
    ensures |s| == 64
  {
    seq(64, k requires 0 <= k < 64 => (ZigzagIsRanked(k); t[Zigzag(k)]))
  }

  /** The `i`-th element of a table segment. */
  function Element(t: Table, i: nat): (e: byte)
    requires i < 64
    ensures e == Scanned(t)[i]
  {
    ZigzagIsRanked(i);
    t[Zigzag(i)]
  }

  /** What a decoder makes of the elements of a table segment. */
  function Descanned(e: seq<byte>): Table
    requires |e| == 64
  {
    seq(64, n requires 0 <= n < 64 => (RankBounds(n / 8, n % 8); e[Rank(n / 8, n % 8)]))
  }

  lemma ScanRoundTrip(t: Table)
    ensures Descanned(Scanned(t)) == t
  {
    hide Rank, Zigzag;
    forall n | 0 <= n < 64 ensures Descanned(Scanned(t))[n] == t[n] {
      RankBounds(n / 8, n % 8);
      ZigzagOfRank(n);
    }
  }

  // The header.

  datatype Picture = Picture(width: nat, height: nat, luma: Table, chroma: Table, huffman: Huffman)
  {
    predicate Valid() {
      width < 65536 && height < 65536 && huffman.Valid()
    }
  }

  function U16(v: nat): (s: seq<byte>)
    ensures |s| == 2
  {
    [v / 256 % 256, v % 256]
  }

  const SOI_APP0: seq<byte> := [
    0xff, 0xd8, 0xff, 0xe0, 0x00, 0x10, 0x4a, 0x46, 0x49, 0x46,
    0x00, 0x01, 0x01, 0x00, 0x00, 0x01, 0x00, 0x01, 0x00, 0x00]
  const DQT: seq<byte> := [0xff, 0xdb, 0x00, 0x43]
  const SOF0: seq<byte> := [0xff, 0xc0, 0x00, 0x11, 0x08]
  const COMPONENTS: seq<byte> := [0x03, 0x01, 0x22, 0x00, 0x02, 0x11, 0x01, 0x03, 0x11, 0x01]
  const DHT_DC: seq<byte> := [0xff, 0xc4, 0x00, 0x1f]
  const DHT_AC: seq<byte> := [0xff, 0xc4, 0x00, 0xb5]
  const SOS: seq<byte> := [0xff, 0xda, 0x00, 0x0c, 0x03, 0x01, 0x00, 0x02, 0x11, 0x03, 0x11, 0x00, 0x3f, 0x00]
  const EOI: seq<byte> := [0xff, 0xd9]

  function QuantSegment(index: byte, t: Table): (s: seq<byte>)
    ensures |s| == 69
  {
    DQT + ([index] + Scanned(t))
  }

  function FrameSegment(x: Picture): (s: seq<byte>)
    ensures |s| == 19
  {
    SOF0 + (U16(x.height) + (U16(x.width) + COMPONENTS))
  }

  /** The constant that the driver keeps as one array. */
  function HuffmanSegments(h: Huffman): (s: seq<byte>)
    requires h.Valid()
    ensures |s| == 432
  {
    (DHT_DC + h.dc0) + ((DHT_AC + h.ac0) + ((DHT_DC + h.dc1) + (DHT_AC + h.ac1)))
  }

  function Header(x: Picture): (s: seq<byte>)
    requires x.Valid()
    ensures |s| == HEADER_SIZE
  {
    SOI_APP0 + (QuantSegment(0, x.luma) + (QuantSegment(1, x.chroma)
      + (FrameSegment(x) + (HuffmanSegments(x.huffman) + SOS))))
  }

  /** Where the parts of the header stand. */
  lemma HeaderParts(x: Picture)
    requires x.Valid()
    ensures var h := Header(x);
      && h[..20] == SOI_APP0 && h[20..89] == QuantSegment(0, x.luma) && h[89..158] == QuantSegment(1, x.chroma)
      && h[158..177] == FrameSegment(x) && h[177..609] == HuffmanSegments(x.huffman) && h[609..] == SOS
  {
    hide QuantSegment, FrameSegment, HuffmanSegments;
  }

  /** Which bytes stand where: the markers and the picture's size. */
  lemma HeaderPlaces(x: Picture)
    requires x.Valid()
    ensures var h := Header(x);
      && h[..20][..6] == [0xff, 0xd8, 0xff, 0xe0, 0x00, 0x10]
      && h[20..89][..5] == [0xff, 0xdb, 0x00, 0x43, 0x00] && h[89..158][..5] == [0xff, 0xdb, 0x00, 0x43, 0x01]
      && h[158..177][..5] == [0xff, 0xc0, 0x00, 0x11, 0x08]
      && 256 * h[163] as int + h[164] as int == x.height && 256 * h[165] as int + h[166] as int == x.width
      && h[609..][..4] == [0xff, 0xda, 0x00, 0x0c]
  {
    hide Header;
    HeaderParts(x);
    var h := Header(x);
    assert h[158..177][5] == h[163] && h[158..177][6] == h[164] && h[158..177][7] == h[165] && h[158..177][8] == h[166];
  }

  /** The same for the four Huffman tables. */
  lemma HuffmanPlaces(h: Huffman)
    requires h.Valid()
    ensures var s := HuffmanSegments(h);
      && s[..4] == [0xff, 0xc4, 0x00, 0x1f] && s[4..33] == h.dc0 && s[33..37] == [0xff, 0xc4, 0x00, 0xb5]
      && s[37..216] == h.ac0 && s[216..220] == [0xff, 0xc4, 0x00, 0x1f] && s[220..249] == h.dc1
      && s[249..253] == [0xff, 0xc4, 0x00, 0xb5] && s[253..] == h.ac1
  {
  }

  /** The coefficient of rank k stands at byte 25 + k for luma and 94 + k for chroma. */
  lemma TablePlaces(x: Picture, n: nat)
    requires x.Valid() && n < 64
    ensures 0 <= Rank(n / 8, n % 8) < 64
    ensures Header(x)[25 + Rank(n / 8, n % 8)] == x.luma[n] && Header(x)[94 + Rank(n / 8, n % 8)] == x.chroma[n]
  {
    hide Rank, Zigzag, Header;
    HeaderParts(x);
    ZigzagOfRank(n);
    var k := Rank(n / 8, n % 8);
    assert Header(x)[20..89][5 + k] == Header(x)[25 + k] && Header(x)[89..158][5 + k] == Header(x)[94 + k];
    assert QuantSegment(0, x.luma)[5 + k] == Scanned(x.luma)[k];
    assert QuantSegment(1, x.chroma)[5 + k] == Scanned(x.chroma)[k];
  }

  // The reader of Annex B.

  datatype Segment = Segment(marker: byte, payload: seq<byte>, rest: seq<byte>)

  function ReadU16(s: seq<byte>): nat
    requires |s| >= 2
  {
    s[0] as int * 256 + s[1] as int
  }

  /** A marker with its length and parameters. */
  function ReadSegment(s: seq<byte>): (r: Option<Segment>)
    ensures r.Some? ==> |r.value.rest| < |s|
  {
    if |s| < 4 || s[0] != 0xff then None
    else
      var length := ReadU16(s[2..]);
      if length < 2 || 2 + length > |s| then None
      else Some(Segment(s[1], s[4..2 + length], s[2 + length..]))
  }

  /** What has been read up to the scan: the frame, the quantisation tables and the Huffman segments. */
  datatype Jpeg = Jpeg(width: nat, height: nat, selectors: seq<byte>, tables: map<byte, Table>, huffman: seq<seq<byte>>)

  /** One 8-bit table a segment, baseline frames of three components. */
  function Take(j: Jpeg, g: Segment): Option<Jpeg> {
    if g.marker == 0xdb then
      if |g.payload| != 65 || g.payload[0] > 3 then None
      else Some(j.(tables := j.tables[g.payload[0] := Descanned(g.payload[1..])]))
    else if g.marker == 0xc0 then
      if |g.payload| != 15 || g.payload[0] != 8 || g.payload[5] != 3 then None
      else Some(j.(height := ReadU16(g.payload[1..]), width := ReadU16(g.payload[3..]),
                   selectors := [g.payload[8], g.payload[11], g.payload[14]]))
    else if g.marker == 0xc4 then Some(j.(huffman := j.huffman + [g.payload]))
    else if 0xe0 <= g.marker <= 0xef then Some(j)
    else None
  }

  /** The segments up to the scan header, and the entropy-coded data behind it. */
  function ReadSegments(j: Jpeg, s: seq<byte>): Option<(Jpeg, seq<byte>)>
    decreases |s|
  {
    match ReadSegment(s)
    case None => None
    case Some(g) =>
      if g.marker == 0xda then Some((j, g.rest))
      else match Take(j, g)
        case None => None
        case Some(next) => ReadSegments(next, g.rest)
  }

  function ReadJpeg(s: seq<byte>): Option<(Jpeg, seq<byte>)> {
    if |s| < 2 || s[..2] != [0xff, 0xd8] then None
    else ReadSegments(Jpeg(0, 0, [], map[], []), s[2..])
  }

  /** A segment written with its length is read with its payload. */
  lemma SegmentRead(start: seq<byte>, payload: seq<byte>, tail: seq<byte>)
    requires |start| == 4 && start[0] == 0xff && ReadU16(start[2..]) == |payload| + 2
    ensures ReadSegment(start + payload + tail) == Some(Segment(start[1], payload, tail))
  {
    var s := start + payload + tail;
    assert s[2..][0] == start[2] && s[2..][1] == start[3];
    assert s[4..4 + |payload|] == payload;
    assert s[4 + |payload|..] == tail;
  }

  lemma QuantRead(j: Jpeg, index: byte, t: Table, tail: seq<byte>)
    requires index <= 3
    ensures ReadSegments(j, QuantSegment(index, t) + tail) == ReadSegments(j.(tables := j.tables[index := t]), tail)
  {
    hide Scanned, Descanned;
    var payload := [index] + Scanned(t);
    SegmentRead(DQT, payload, tail);
    ScanRoundTrip(t);
    assert payload[1..] == Scanned(t);
  }

  lemma U16RoundTrip(v: nat, tail: seq<byte>)
    requires v < 65536
    ensures ReadU16(U16(v) + tail) == v
  {
  }

  lemma FrameRead(j: Jpeg, x: Picture, tail: seq<byte>)
    requires x.Valid()
    ensures ReadSegments(j, FrameSegment(x) + tail)
         == ReadSegments(j.(height := x.height, width := x.width, selectors := [0, 1, 1]), tail)
  {
    hide U16, ReadU16;
    var dims := U16(x.height) + (U16(x.width) + COMPONENTS);
    var payload := [0x08] + dims;
    assert SOF0 == SOF0[..4] + [0x08];
    assert FrameSegment(x) + tail == SOF0[..4] + payload + tail;
    hide Take;
    SofLength();
    SegmentRead(SOF0[..4], payload, tail);
    FrameTaken(j, x, tail);
  }

  lemma FrameTaken(j: Jpeg, x: Picture, tail: seq<byte>)
    requires x.Valid()
    ensures Take(j, Segment(0xc0, [0x08] + (U16(x.height) + (U16(x.width) + COMPONENTS)), tail))
         == Some(j.(height := x.height, width := x.width, selectors := [0, 1, 1]))
  {
    hide U16, ReadU16;
    var dims := U16(x.height) + (U16(x.width) + COMPONENTS);
    var payload := [0x08] + dims;
    U16RoundTrip(x.height, U16(x.width) + COMPONENTS);
    U16RoundTrip(x.width, COMPONENTS);
    assert payload[1..] == dims;
    assert payload[3..] == U16(x.width) + COMPONENTS;
    assert payload[5..] == COMPONENTS;
    assert payload[5] == COMPONENTS[0] && payload[8] == COMPONENTS[3];
    assert payload[11] == COMPONENTS[6] && payload[14] == COMPONENTS[9];
  }

  lemma SofLength()
    ensures ReadU16(SOF0[..4][2..]) == 17
  {
  }

  lemma HuffmanRead(j: Jpeg, start: seq<byte>, table: seq<byte>, tail: seq<byte>)
    requires (start == DHT_DC && |table| == 29) || (start == DHT_AC && |table| == 179)
    ensures ReadSegments(j, start + table + tail) == ReadSegments(j.(huffman := j.huffman + [table]), tail)
  {
    SegmentRead(start, table, tail);
  }

  lemma Regroup(a: seq<byte>, b: seq<byte>, tail: seq<byte>)
    ensures (a + b) + tail == a + (b + tail)
  {
  }

  lemma HuffmansRead(j: Jpeg, h: Huffman, tail: seq<byte>)
    requires h.Valid()
    ensures ReadSegments(j, HuffmanSegments(h) + tail)
         == ReadSegments(j.(huffman := j.huffman + [h.dc0, h.ac0, h.dc1, h.ac1]), tail)
  {
    hide ReadSegments;
    var d := DHT_AC + h.ac1;
    var c := (DHT_DC + h.dc1) + d;
    var b := (DHT_AC + h.ac0) + c;
    Regroup(DHT_DC + h.dc0, b, tail);
    Regroup(DHT_AC + h.ac0, c, tail);
    Regroup(DHT_DC + h.dc1, d, tail);
    HuffmanRead(j, DHT_DC, h.dc0, b + tail);
    var j1 := j.(huffman := j.huffman + [h.dc0]);
    HuffmanRead(j1, DHT_AC, h.ac0, c + tail);
    var j2 := j1.(huffman := j1.huffman + [h.ac0]);
    HuffmanRead(j2, DHT_DC, h.dc1, d + tail);
    var j3 := j2.(huffman := j2.huffman + [h.dc1]);
    HuffmanRead(j3, DHT_AC, h.ac1, tail);
    assert j3.huffman + [h.ac1] == j.huffman + [h.dc0, h.ac0, h.dc1, h.ac1];
  }

  lemma ScanRead(j: Jpeg, tail: seq<byte>)
    ensures ReadSegments(j, SOS + tail) == Some((j, tail))
  {
    assert SOS == SOS[..4] + SOS[4..];
    SegmentRead(SOS[..4], SOS[4..], tail);
  }

  lemma App0Read(j: Jpeg, tail: seq<byte>)
    ensures ReadSegments(j, SOI_APP0[2..] + tail) == ReadSegments(j, tail)
  {
    assert SOI_APP0[2..] == SOI_APP0[2..6] + SOI_APP0[6..];
    SegmentRead(SOI_APP0[2..6], SOI_APP0[6..], tail);
  }

  /** Reading the header gives back the size, both quantisation tables, the components' choice of them and the Huffman
      segments, and leaves exactly what follows. */
  lemma HeaderRoundTrip(x: Picture, tail: seq<byte>)
    requires x.Valid()
    ensures ReadJpeg(Header(x) + tail) == Some((
      Jpeg(x.width, x.height, [0, 1, 1], map[0 := x.luma, 1 := x.chroma],
           [x.huffman.dc0, x.huffman.ac0, x.huffman.dc1, x.huffman.ac1]), tail))
  {
    hide ReadSegments, QuantSegment, FrameSegment, HuffmanSegments, SOI_APP0, SOS;
    var e := HuffmanSegments(x.huffman) + SOS;
    var d := FrameSegment(x) + e;
    var c := QuantSegment(1, x.chroma) + d;
    var b := QuantSegment(0, x.luma) + c;
    var j0 := Jpeg(0, 0, [], map[], []);
    HeaderStart(b, tail);
    App0Read(j0, b + tail);
    Regroup(QuantSegment(0, x.luma), c, tail);
    QuantRead(j0, 0, x.luma, c + tail);
    var j1 := j0.(tables := j0.tables[0 := x.luma]);
    Regroup(QuantSegment(1, x.chroma), d, tail);
    QuantRead(j1, 1, x.chroma, d + tail);
    var j2 := j1.(tables := j1.tables[1 := x.chroma]);
    Regroup(FrameSegment(x), e, tail);
    FrameRead(j2, x, e + tail);
    var j3 := j2.(height := x.height, width := x.width, selectors := [0, 1, 1]);
    Regroup(HuffmanSegments(x.huffman), SOS, tail);
    HuffmansRead(j3, x.huffman, SOS + tail);
    assert j3.tables == map[0 := x.luma, 1 := x.chroma];
    assert j3.huffman + [x.huffman.dc0, x.huffman.ac0, x.huffman.dc1, x.huffman.ac1]
        == [x.huffman.dc0, x.huffman.ac0, x.huffman.dc1, x.huffman.ac1];
    ScanRead(j3.(huffman := j3.huffman + [x.huffman.dc0, x.huffman.ac0, x.huffman.dc1, x.huffman.ac1]), tail);
  }

  lemma HeaderStart(b: seq<byte>, tail: seq<byte>)
    ensures var s := SOI_APP0 + b + tail; |s| >= 2 && s[..2] == [0xff, 0xd8] && s[2..] == SOI_APP0[2..] + (b + tail)
  {
  }

  // The writer.

  const ENOSPC := 28

  /** `bytes` have been put at `at`: they follow what was there, and nothing behind them has changed. */
  ghost predicate Appended(now: seq<byte>, position: nat, was: seq<byte>, at: nat, bytes: seq<byte>) {
    && |now| == |was| && position == at + |bytes| <= |was|
    && now[..position] == was[..at] + bytes && now[position..] == was[position..]
  }

  lemma AppendedTwice(
    now: seq<byte>, q: nat, mid: seq<byte>, p: nat, was: seq<byte>, at: nat, first: seq<byte>, second: seq<byte>)
    requires Appended(mid, p, was, at, first) && Appended(now, q, mid, p, second)
    ensures Appended(now, q, was, at, first + second)
  {
    assert was[..at] + first + second == was[..at] + (first + second);
    assert now[q..] == mid[p..][q - p..] == was[p..][q - p..] == was[q..];
  }

  lemma AppendedNothing(was: seq<byte>, at: nat)
    requires at <= |was|
    ensures Appended(was, at, was, at, [])
  {
  }

  class HeaderWriter {
    const data: array<byte>
    const size: nat
    var position: nat

    ghost predicate Valid()
      reads this
    {
      position <= size <= data.Length
    }

    constructor (data: array<byte>, size: nat)
      requires size <= data.Length
      ensures Valid() && this.data == data && this.size == size && position == 0
    {
      this.data, this.size, position := data, size, 0;
    }

    /** cedrus_enc_jpeg_put_byte */
    method PutByte(value: byte) returns (ret: int)
      requires Valid()
      modifies this`position, data
      ensures Valid()
      ensures ret == 0 <==> old(position) < size
      ensures ret == 0 ==> Appended(data[..], position, old(data[..]), old(position), [value])
    {
      if position >= size {
        return -ENOSPC;
      }
      data[position] := value;
      position := position + 1;
      ret := 0;
    }

    /** cedrus_enc_jpeg_put_array */
    method PutArray(values: seq<byte>) returns (ret: int)
      requires Valid()
      modifies this`position, data
      ensures Valid()
      ensures ret == 0 <==> old(position) + |values| <= size
      ensures ret == 0 ==> Appended(data[..], position, old(data[..]), old(position), values)
    {
      ghost var was, at := data[..], position;
      AppendedNothing(was, at);
      hide Appended;
      for i := 0 to |values|
        invariant Valid() && position == at + i
        invariant Appended(data[..], position, was, at, values[..i])
      {
        ghost var mid, p := data[..], position;
        ret := PutByte(values[i]);
        if ret != 0 {
          return;
        }
        AppendedTwice(data[..], position, mid, p, was, at, values[..i], [values[i]]);
        assert values[..i + 1] == values[..i] + [values[i]];
        PositionIs(data[..], position, was, at, values[..i + 1]);
      }
      assert values[..|values|] == values;
      ret := 0;
    }

    /** cedrus_enc_jpeg_put_u16 */
    method PutU16(value: nat) returns (ret: int)
      requires Valid() && value < 65536
      modifies this`position, data
      ensures Valid()
      ensures ret == 0 <==> old(position) + 2 <= size
      ensures ret == 0 ==> Appended(data[..], position, old(data[..]), old(position), U16(value))
    {
      ret := PutByte(value / 256 % 256);
      if ret != 0 {
        return;
      }
      ghost var mid, p := data[..], position;
      ret := PutByte(value % 256);
      if ret == 0 {
        AppendedTwice(data[..], position, mid, p, old(data[..]), old(position), [value / 256 % 256], [value % 256]);
      }
    }

    method PutScanned(t: Table) returns (ret: int)
      requires Valid()
      modifies this`position, data
      ensures Valid()
      ensures ret == 0 <==> old(position) + 64 <= size
      ensures ret == 0 ==> Appended(data[..], position, old(data[..]), old(position), Scanned(t))
    {
      ghost var was, at, scan := data[..], position, Scanned(t);
      AppendedNothing(was, at);
      hide Appended, Scanned, Zigzag, Ranked;
      for i := 0 to 64
        invariant Valid() && position == at + i
        invariant Appended(data[..], position, was, at, scan[..i])
      {
        ghost var mid, p := data[..], position;
        var element := Element(t, i);
        ret := PutByte(element);
        if ret != 0 {
          return;
        }
        ScanStep(data[..], position, mid, p, was, at, scan, i);
      }
      assert scan[..64] == scan;
      ret := 0;
    }

    method PutQuant(index: byte, t: Table) returns (ret: int)
      requires Valid()
      modifies this`position, data
      ensures Valid()
      ensures ret == 0 <==> old(position) + 69 <= size
      ensures ret == 0 ==> Appended(data[..], position, old(data[..]), old(position), QuantSegment(index, t))
    {
      hide Appended, Scanned;
      ghost var was, at := data[..], position;
      ret := PutArray(DQT);
      if ret != 0 {
        return;
      }
      ghost var d1, p1 := data[..], position;
      PositionIs(d1, p1, was, at, DQT);
      ret := PutByte(index);
      if ret != 0 {
        return;
      }
      ghost var d2, p2 := data[..], position;
      PositionIs(d2, p2, d1, p1, [index]);
      ret := PutScanned(t);
      if ret == 0 {
        AppendedTwice(data[..], position, d2, p2, d1, p1, [index], Scanned(t));
        AppendedTwice(data[..], position, d1, p1, was, at, DQT, [index] + Scanned(t));
      }
    }

    method PutFrame(x: Picture) returns (ret: int)
      requires Valid() && x.Valid()
      modifies this`position, data
      ensures Valid()
      ensures ret == 0 <==> old(position) + 19 <= size
      ensures ret == 0 ==> Appended(data[..], position, old(data[..]), old(position), FrameSegment(x))
    {
      hide Appended, U16;
      ghost var was, at := data[..], position;
      ret := PutArray(SOF0);
      if ret != 0 {
        return;
      }
      ghost var d1, p1 := data[..], position;
      PositionIs(d1, p1, was, at, SOF0);
      ret := PutU16(x.height);
      if ret != 0 {
        return;
      }
      ghost var d2, p2 := data[..], position;
      PositionIs(d2, p2, d1, p1, U16(x.height));
      ret := PutU16(x.width);
      if ret != 0 {
        return;
      }
      ghost var d3, p3 := data[..], position;
      PositionIs(d3, p3, d2, p2, U16(x.width));
      ret := PutArray(COMPONENTS);
      if ret == 0 {
        AppendedTwice(data[..], position, d3, p3, d2, p2, U16(x.width), COMPONENTS);
        AppendedTwice(data[..], position, d2, p2, d1, p1, U16(x.height), U16(x.width) + COMPONENTS);
        AppendedTwice(data[..], position, d1, p1, was, at, SOF0, U16(x.height) + (U16(x.width) + COMPONENTS));
      }
    }

    method PutTables(x: Picture) returns (ret: int)
      requires Valid() && x.Valid()
      modifies this`position, data
      ensures Valid()
      ensures ret == 0 <==> old(position) + 158 <= size
      ensures ret == 0 ==> Appended(data[..], position, old(data[..]), old(position),
        SOI_APP0 + (QuantSegment(0, x.luma) + QuantSegment(1, x.chroma)))
    {
      hide Appended, QuantSegment;
      ghost var was, at := data[..], position;
      ret := PutArray(SOI_APP0);
      if ret != 0 {
        return;
      }
      ghost var d1, p1 := data[..], position;
      PositionIs(d1, p1, was, at, SOI_APP0);
      ret := PutQuant(0, x.luma);
      if ret != 0 {
        return;
      }
      ghost var d2, p2 := data[..], position;
      PositionIs(d2, p2, d1, p1, QuantSegment(0, x.luma));
      ret := PutQuant(1, x.chroma);
      if ret == 0 {
        AppendedTwice(data[..], position, d2, p2, d1, p1, QuantSegment(0, x.luma), QuantSegment(1, x.chroma));
        AppendedTwice(data[..], position, d1, p1, was, at,
          SOI_APP0, QuantSegment(0, x.luma) + QuantSegment(1, x.chroma));
      }
    }

    /** cedrus_enc_jpeg_put_header: whether it fits decides whether it succeeds. */
    method PutHeader(x: Picture) returns (ret: int)
      requires Valid() && x.Valid()
      modifies this`position, data
      ensures Valid()
      ensures ret == 0 <==> old(position) + HEADER_SIZE <= size
      ensures ret == 0 ==> Appended(data[..], position, old(data[..]), old(position), Header(x))
    {
      hide Appended, QuantSegment, FrameSegment, HuffmanSegments;
      ghost var was, at := data[..], position;
      ghost var tables := SOI_APP0 + (QuantSegment(0, x.luma) + QuantSegment(1, x.chroma));
      ret := PutTables(x);
      if ret != 0 {
        return;
      }
      ghost var d1, p1 := data[..], position;
      PositionIs(d1, p1, was, at, tables);
      ret := PutFrame(x);
      if ret != 0 {
        return;
      }
      ghost var d2, p2 := data[..], position;
      PositionIs(d2, p2, d1, p1, FrameSegment(x));
      ret := PutArray(HuffmanSegments(x.huffman));
      if ret != 0 {
        return;
      }
      ghost var d3, p3 := data[..], position;
      PositionIs(d3, p3, d2, p2, HuffmanSegments(x.huffman));
      ret := PutArray(SOS);
      if ret == 0 {
        AppendedTwice(data[..], position, d3, p3, d2, p2, HuffmanSegments(x.huffman), SOS);
        AppendedTwice(data[..], position, d2, p2, d1, p1, FrameSegment(x), HuffmanSegments(x.huffman) + SOS);
        AppendedTwice(data[..], position, d1, p1, was, at,
          tables, FrameSegment(x) + (HuffmanSegments(x.huffman) + SOS));
        HeaderIs(x);
      }
    }
  }

  lemma ScanStep(now: seq<byte>, q: nat, mid: seq<byte>, p: nat, was: seq<byte>, at: nat, scan: seq<byte>, i: nat)
    requires i < |scan| && Appended(mid, p, was, at, scan[..i]) && Appended(now, q, mid, p, [scan[i]])
    ensures Appended(now, q, was, at, scan[..i + 1]) && q == at + i + 1
  {
    hide Appended;
    AppendedTwice(now, q, mid, p, was, at, scan[..i], [scan[i]]);
    assert scan[..i + 1] == scan[..i] + [scan[i]];
    PositionIs(now, q, was, at, scan[..i + 1]);
  }

  lemma PositionIs(now: seq<byte>, position: nat, was: seq<byte>, at: nat, bytes: seq<byte>)
    requires Appended(now, position, was, at, bytes)
    ensures position == at + |bytes| && |now| == |was|
  {
  }

  lemma HeaderIs(x: Picture)
    requires x.Valid()
    ensures SOI_APP0 + (QuantSegment(0, x.luma) + QuantSegment(1, x.chroma))
            + (FrameSegment(x) + (HuffmanSegments(x.huffman) + SOS))
         == Header(x)
  {
    hide QuantSegment, FrameSegment, HuffmanSegments;
    var e := FrameSegment(x) + (HuffmanSegments(x.huffman) + SOS);
    Regroup(SOI_APP0, QuantSegment(0, x.luma) + QuantSegment(1, x.chroma), e);
    Regroup(QuantSegment(0, x.luma), QuantSegment(1, x.chroma), e);
  }

  // The finished buffer.

  /** The plane after cedrus_enc_jpeg_buffer_finish, for a payload of `length` bytes that fits. */
  function Finished(coded: seq<byte>, length: nat, x: Picture): (r: seq<byte>)
    requires x.Valid() && HEADER_SIZE + length + 2 <= |coded|
    ensures |r| == |coded|
  {
    Header(x) + coded[..length] + EOI + coded[HEADER_SIZE + length + 2..]
  }

  /** cedrus_enc_jpeg_buffer_finish, in place, on a plane at least as large as job_configure demands.  `live` stands for
      a buffer of this encoder that is done and not in error; anything else is left alone. */
  method BufferFinish(coded: array<byte>, length: nat, headerSize: nat, live: bool, x: Picture)
    returns (payload: nat, error: bool)
    requires x.Valid() && coded.Length >= HEADER_SIZE + 1024
    modifies coded
    ensures !live || headerSize != HEADER_SIZE ==> payload == length && !error && coded[..] == old(coded[..])
    ensures live && headerSize == HEADER_SIZE ==> (error <==> HEADER_SIZE + length + 2 > coded.Length)
    ensures error ==> payload == 0 && coded[..] == old(coded[..])
    ensures live && headerSize == HEADER_SIZE && !error ==>
      payload == HEADER_SIZE + length + 2 <= coded.Length && coded[..] == Finished(old(coded[..]), length, x)
  {
    if !live || headerSize != HEADER_SIZE {
      return length, false;
    }
    if length > coded.Length - headerSize - 2 {
      return 0, true;
    }
    hide Header, Appended, Put;
    ghost var was := coded[..];
    MoveUp(coded, headerSize, 0, length);
    var header := new HeaderWriter(coded, headerSize);
    ghost var moved := coded[..];
    var ret := header.PutHeader(x);
    PositionIs(coded[..], header.position, moved, 0, Header(x));
    payload, error := 0, true;
    if ret == 0 && header.position == headerSize {
      var end := length + headerSize;
      ghost var headed := coded[..];
      coded[end] := 0xff;
      coded[end + 1] := 0xd9;
      assert was[0..length] == was[..length];
      Assembled(was, moved, headed, coded[..], length, x);
      payload, error := end + 2, false;
    }
  }

  lemma Assembled(was: seq<byte>, moved: seq<byte>, headed: seq<byte>, done: seq<byte>, length: nat, x: Picture)
    requires x.Valid() && HEADER_SIZE + length + 2 <= |was|
    requires moved == Put(was, HEADER_SIZE, was[..length])
    requires Appended(headed, HEADER_SIZE, moved, 0, Header(x))
    requires done == headed[HEADER_SIZE + length := 0xff][HEADER_SIZE + length + 1 := 0xd9]
    ensures done == Finished(was, length, x)
  {
    hide Header;
    assert headed == Header(x) + moved[HEADER_SIZE..];
    assert moved[HEADER_SIZE..] == was[..length] + was[HEADER_SIZE + length..];
  }

  /** The published payload is a JPEG stream: a decoder reads the picture's parameters and is left with the
      entropy-coded data and the end marker. */
  lemma FinishedIsJpeg(coded: seq<byte>, length: nat, x: Picture)
    requires x.Valid() && HEADER_SIZE + length + 2 <= |coded|
    ensures ReadJpeg(Finished(coded, length, x)[..HEADER_SIZE + length + 2]) == Some((
      Jpeg(x.width, x.height, [0, 1, 1], map[0 := x.luma, 1 := x.chroma],
           [x.huffman.dc0, x.huffman.ac0, x.huffman.dc1, x.huffman.ac1]), coded[..length] + EOI))
  {
    hide Header, ReadJpeg;
    HeaderRoundTrip(x, coded[..length] + EOI);
    assert Finished(coded, length, x)[..HEADER_SIZE + length + 2] == Header(x) + (coded[..length] + EOI);
  }
}
