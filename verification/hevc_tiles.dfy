/** The tile geometry of an HEVC slice: the tile it starts in, and one record for each entry point. */
module HevcTiles {
  import opened Words

  /** The control's arrays of column widths and row heights in coding tree blocks, each at least 1 and in a byte, and
      how many of them the picture parameter set uses. */
  datatype Grid = Grid(widths: seq<nat>, heights: seq<nat>, cols: nat, rows: nat)
  {
    predicate Valid() {
      && |widths| == 20 && |heights| == 22 && 1 <= cols <= 20 && 1 <= rows <= 22
      && (forall i | 0 <= i < |widths| :: 1 <= widths[i] <= 256)
      && forall i | 0 <= i < |heights| :: 1 <= heights[i] <= 256
    }

    function Tiles(): nat {
      cols * rows
    }
  }

  /** The sum of the first `n` sizes: where band `n` begins. */
  function Sum(s: seq<nat>, n: nat): (x: nat)
    requires n <= |s|
  {
    if n == 0 then 0 else Sum(s, n - 1) + s[n - 1]
  }

  lemma {:induction false} SumBound(s: seq<nat>, n: nat)
    requires n <= |s| && forall i | 0 <= i < |s| :: 1 <= s[i] <= 256
    ensures n <= Sum(s, n) <= 256 * n
  {
    if n > 0 { SumBound(s, n - 1); }
  }

  lemma {:induction false} SumMonotone(s: seq<nat>, m: nat, n: nat)
    requires m <= n <= |s|
    ensures Sum(s, m) <= Sum(s, n)
    decreases n
  {
    if m < n { SumMonotone(s, m, n - 1); }
  }

  /** `x` lies in band `b` of the array. */
  predicate In(s: seq<nat>, b: nat, x: nat) {
    b < |s| && Sum(s, b) <= x < Sum(s, b + 1)
  }

  /** Bands do not overlap. */
  lemma InOne(s: seq<nat>, b: nat, c: nat, x: nat)
    requires In(s, b, x) && In(s, c, x)
    ensures b == c
  {
    if b < c { SumMonotone(s, b + 1, c); } else if c < b { SumMonotone(s, c + 1, b); }
  }

  /** y << 16 | x */
  function Corner(x: nat, y: nat): u32
    requires x < 0x1_0000 && y < 0x1_0000
  {
    y * 0x1_0000 + x
  }

  lemma Fits(g: Grid)
    requires g.Valid()
    ensures forall i: nat | i <= |g.widths| :: Sum(g.widths, i) < 0x1_0000
    ensures forall i: nat | i <= |g.heights| :: Sum(g.heights, i) < 0x1_0000
  {
    forall i: nat | i <= |g.widths| ensures Sum(g.widths, i) < 0x1_0000 { SumBound(g.widths, i); }
    forall i: nat | i <= |g.heights| ensures Sum(g.heights, i) < 0x1_0000 { SumBound(g.heights, i); }
  }

  /** First and last block of the tile in column `tx` and row `ty`. */
  function TileStart(g: Grid, tx: nat, ty: nat): u32
    requires g.Valid() && tx < |g.widths| && ty < |g.heights|
  {
    Fits(g);
    Corner(Sum(g.widths, tx), Sum(g.heights, ty))
  }

  function TileEnd(g: Grid, tx: nat, ty: nat): u32
    requires g.Valid() && tx < |g.widths| && ty < |g.heights|
  {
    Fits(g);
    SumBound(g.widths, tx + 1);
    SumBound(g.heights, ty + 1);
    Corner(Sum(g.widths, tx + 1) - 1, Sum(g.heights, ty + 1) - 1)
  }

  /** Tile `t` in raster order. */
  function Col(g: Grid, t: nat): (tx: nat)
    requires g.Valid()
    ensures tx < g.cols
  {
    t % g.cols
  }

  function Row(g: Grid, t: nat): (ty: nat)
    requires g.Valid() && t < g.Tiles()
    ensures ty < g.rows
  {
    FloorDiv(t, g.cols);
    ScaleOrder(t / g.cols, g.rows, g.cols);
    ScaleOrder(-1, t / g.cols, g.cols);
    t / g.cols
  }

  lemma RasterIs(g: Grid, t: nat, tx: nat, ty: nat)
    requires g.Valid() && tx < g.cols && ty < g.rows && t == ty * g.cols + tx
    ensures t < g.Tiles() && Col(g, t) == tx && Row(g, t) == ty
  {
    ScaleMonotone(g.cols, ty + 1, g.rows);
    RowIs(ty, tx, g.cols);
  }

  /** The record of tile `t` for the entry point at `offset`. */
  predicate RecordAt(buf: seq<u32>, i: nat, g: Grid, t: nat, offset: u32)
    requires g.Valid() && 4 * i + 4 <= |buf| && t < g.Tiles()
  {
    && buf[4 * i] == offset && buf[4 * i + 1] == 0
    && buf[4 * i + 2] == TileStart(g, Col(g, t), Row(g, t)) && buf[4 * i + 3] == TileEnd(g, Col(g, t), Row(g, t))
  }

  /** The first `n` records follow tile `first` in raster order; behind them nothing is touched. */
  ghost predicate Recorded(buf: seq<u32>, was: seq<u32>, g: Grid, first: nat, offsets: seq<u32>, n: nat)
    requires g.Valid() && n <= |offsets| && first + |offsets| < g.Tiles()
  {
    && |buf| == |was| && 4 * |offsets| <= |buf|
    && (forall i: nat | i < n :: RecordAt(buf, i, g, first + 1 + i, offsets[i]))
    && forall k | 4 * n <= k < |buf| :: buf[k] == was[k]
  }

  /** What a reader finds in the i-th record: the tile in its column and row, from its first block to its last, with x
      in the lower half of each corner and y in the upper half. */
  lemma RecordRead(buf: seq<u32>, was: seq<u32>, g: Grid, first: nat, offsets: seq<u32>, i: nat)
    requires g.Valid() && first + |offsets| < g.Tiles() && Recorded(buf, was, g, first, offsets, |offsets|)
    requires i < |offsets|
    ensures var (tx, ty) := ((first + 1 + i) % g.cols, (first + 1 + i) / g.cols);
      && 0 <= tx < g.cols && 0 <= ty < g.rows && 4 * i + 4 <= |buf|
      && buf[4 * i] == offsets[i] && buf[4 * i + 1] == 0
      && CornerIs(buf[4 * i + 2], Sum(g.widths, tx), Sum(g.heights, ty))
      && CornerIs(buf[4 * i + 3], Sum(g.widths, tx) + g.widths[tx] - 1, Sum(g.heights, ty) + g.heights[ty] - 1)
  {
    hide Sum, TileStart, TileEnd, Corner;
    var t := first + 1 + i;
    assert RecordAt(buf, i, g, t, offsets[i]);
    var tx, ty := Col(g, t), Row(g, t);
    TileRead(g, tx, ty);
  }

  /** A word with `x` in the lower half and `y` in the upper half. */
  predicate CornerIs(w: u32, x: int, y: int) {
    w % 0x1_0000 == x && w / 0x1_0000 == y
  }

  lemma TileRead(g: Grid, tx: nat, ty: nat)
    requires g.Valid() && tx < |g.widths| && ty < |g.heights|
    ensures CornerIs(TileStart(g, tx, ty), Sum(g.widths, tx), Sum(g.heights, ty))
    ensures CornerIs(TileEnd(g, tx, ty),
      Sum(g.widths, tx) + g.widths[tx] - 1, Sum(g.heights, ty) + g.heights[ty] - 1)
  {
    hide Sum, Corner;
    CornersAre(g, tx, ty);
    CornerRead(Sum(g.widths, tx), Sum(g.heights, ty));
    CornerRead(Sum(g.widths, tx) + g.widths[tx] - 1, Sum(g.heights, ty) + g.heights[ty] - 1);
  }

  lemma CornerRead(x: nat, y: nat)
    requires x < 0x1_0000 && y < 0x1_0000
    ensures CornerIs(Corner(x, y), x, y)
  {
  }

  /** The band among the first `n` that holds block `at`, or the place behind them when none does. */
  function Band(s: seq<nat>, n: nat, at: nat): (b: nat)
    requires n <= |s|
    ensures b <= n && Sum(s, b) <= at
    ensures if at < Sum(s, n) then b < n && In(s, b, at) else b == n
  {
    if at >= Sum(s, n) then n
    else if at >= Sum(s, n - 1) then n - 1
    else Band(s, n - 1, at)
  }

  /** The driver's search for it. */
  method FindBand(s: seq<nat>, n: nat, at: nat) returns (x: nat, b: nat)
    requires n <= |s|
    ensures b == Band(s, n, at) && x == Sum(s, b)
  {
    x, b := 0, 0;
    while b < n
      invariant b <= n && x == Sum(s, b) <= at
    {
      if x + s[b] > at {
        SumMonotone(s, b + 1, n);
        InOne(s, b, Band(s, n, at), at);
        return;
      }
      x := x + s[b];
      b := b + 1;
    }
  }

  /** The next tile in raster order, with its corner kept as running sums. */
  lemma NextTile(g: Grid, t: nat, tx: nat, ty: nat)
    requires g.Valid() && tx < g.cols && ty < g.rows && t == ty * g.cols + tx && t + 1 < g.Tiles()
    ensures tx + 1 >= g.cols ==> ty + 1 < g.rows && t + 1 == (ty + 1) * g.cols
  {
    if tx + 1 >= g.cols {
      assert (ty + 1) * g.cols == ty * g.cols + g.cols;
      ScaleOrder(ty + 1, g.rows, g.cols);
    }
  }

  /** cedrus_dec_h265_tiles_write: the registers describe the one tile that holds the slice's first block, or what the
      arrays hold behind the tiles when none does.  Without wavefronts the i-th record is the (i + 1)-th tile after it;
      with wavefronts, where the arrays need not describe tiles, the entry points are copied. */
  method TilesWrite(g: Grid, ctbX: nat, ctbY: nat, offsets: seq<u32>, wavefront: bool, buf: array<u32>)
    returns (start: u32, end: u32)
    requires g.Valid() && (wavefront ==> |offsets| <= buf.Length) && (!wavefront ==> 4 * |offsets| <= buf.Length)
    requires ctbX < Sum(g.widths, g.cols) || (wavefront && g.cols < |g.widths|)
    requires ctbY < Sum(g.heights, g.rows) || (wavefront && g.rows < |g.heights|)
    requires !wavefront ==> FirstTile(g, ctbX, ctbY) + |offsets| < g.Tiles()
    modifies buf
    ensures Band(g.widths, g.cols, ctbX) < |g.widths| && Band(g.heights, g.rows, ctbY) < |g.heights|
    ensures start == TileStart(g, Band(g.widths, g.cols, ctbX), Band(g.heights, g.rows, ctbY))
    ensures end == TileEnd(g, Band(g.widths, g.cols, ctbX), Band(g.heights, g.rows, ctbY))
    ensures wavefront ==> buf[..|offsets|] == offsets && buf[|offsets|..] == old(buf[|offsets|..])
    ensures !wavefront ==> Recorded(buf[..], old(buf[..]), g, FirstTile(g, ctbX, ctbY), offsets, |offsets|)
  {
    hide Sum, Recorded, RecordAt, Corner;
    var x, tx := FindBand(g.widths, g.cols, ctbX);
    var y, ty := FindBand(g.heights, g.rows, ctbY);
    start := TileStart(g, tx, ty);
    end := TileEnd(g, tx, ty);
    if wavefront {
      CopyEntryPoints(offsets, buf);
    } else {
      WriteRecords(g, tx, ty, offsets, buf);
    }
  }

  /** The tile of a block, in raster order. */
  function FirstTile(g: Grid, ctbX: nat, ctbY: nat): nat
    requires g.Valid()
  {
    Band(g.heights, g.rows, ctbY) * g.cols + Band(g.widths, g.cols, ctbX)
  }

  method CopyEntryPoints(offsets: seq<u32>, buf: array<u32>)
    requires |offsets| <= buf.Length
    modifies buf
    ensures buf[..|offsets|] == offsets && buf[|offsets|..] == old(buf[|offsets|..])
  {
    for i := 0 to |offsets|
      invariant buf[..i] == offsets[..i] && buf[|offsets|..] == old(buf[|offsets|..])
    {
      buf[i] := offsets[i];
    }
    assert offsets[..|offsets|] == offsets;
  }

  method WriteRecords(g: Grid, firstCol: nat, firstRow: nat, offsets: seq<u32>, buf: array<u32>)
    requires g.Valid() && firstCol < g.cols && firstRow < g.rows
    requires firstRow * g.cols + firstCol + |offsets| < g.Tiles() && 4 * |offsets| <= buf.Length
    modifies buf
    ensures Recorded(buf[..], old(buf[..]), g, firstRow * g.cols + firstCol, offsets, |offsets|)
  {
    hide Sum, Col, Row, Corner, TileStart, TileEnd;
    var x: nat, tx: nat, y: nat, ty: nat := Sum(g.widths, firstCol), firstCol, Sum(g.heights, firstRow), firstRow;
    ghost var first := firstRow * g.cols + firstCol;
    assert Recorded(buf[..], buf[..], g, first, offsets, 0);
    hide Recorded;
    for i := 0 to |offsets|
      invariant tx < g.cols && ty < g.rows && ty * g.cols + tx == first + i
      invariant x == Sum(g.widths, tx) && y == Sum(g.heights, ty)
      invariant Recorded(buf[..], old(buf[..]), g, first, offsets, i)
    {
      NextTile(g, first + i, tx, ty);
      SumStep(g.widths, tx);
      SumStep(g.heights, ty);
      if tx + 1 >= g.cols {
        x := 0;
        tx := 0;
        y := y + g.heights[ty];
        ty := ty + 1;
      } else {
        x := x + g.widths[tx];
        tx := tx + 1;
      }
      RasterIs(g, first + i + 1, tx, ty);
      CornersAre(g, tx, ty);
      ghost var before := buf[..];
      PutRecord(buf, i, offsets[i], Corner(x, y), Corner(x + g.widths[tx] - 1, y + g.heights[ty] - 1));
      RecordedStep(buf[..], before, old(buf[..]), g, first, offsets, i);
    }
  }

  method PutRecord(buf: array<u32>, i: nat, offset: u32, start: u32, end: u32)
    requires 4 * i + 4 <= buf.Length
    modifies buf
    ensures buf[..] == old(buf[..])[4 * i := offset][4 * i + 1 := 0][4 * i + 2 := start][4 * i + 3 := end]
  {
    buf[i * 4 + 0] := offset;
    buf[i * 4 + 1] := 0;
    buf[i * 4 + 2] := start;
    buf[i * 4 + 3] := end;
  }

  lemma RecordedStep(buf: seq<u32>, before: seq<u32>, was: seq<u32>, g: Grid, first: nat, offsets: seq<u32>, i: nat)
    requires g.Valid() && i < |offsets| && first + |offsets| < g.Tiles()
    requires Recorded(before, was, g, first, offsets, i)
    requires var t := first + 1 + i;
      buf == before[4 * i := offsets[i]][4 * i + 1 := 0][4 * i + 2 := TileStart(g, Col(g, t), Row(g, t))]
                   [4 * i + 3 := TileEnd(g, Col(g, t), Row(g, t))]
    ensures Recorded(buf, was, g, first, offsets, i + 1)
  {
    hide Sum, Col, Row, Corner, TileStart, TileEnd;
    forall j: nat | j < i + 1 ensures RecordAt(buf, j, g, first + 1 + j, offsets[j]) {
      if j < i {
        assert RecordAt(before, j, g, first + 1 + j, offsets[j]);
      }
    }
  }

  lemma SumStep(s: seq<nat>, n: nat)
    requires n < |s|
    ensures Sum(s, n + 1) == Sum(s, n) + s[n] && Sum(s, 0) == 0
  {
  }

  lemma CornersAre(g: Grid, tx: nat, ty: nat)
    requires g.Valid() && tx < |g.widths| && ty < |g.heights|
    ensures Sum(g.widths, tx) + g.widths[tx] <= 0x1_0000 && Sum(g.heights, ty) + g.heights[ty] <= 0x1_0000
    ensures Sum(g.widths, tx) < 0x1_0000 && Sum(g.heights, ty) < 0x1_0000
    ensures TileStart(g, tx, ty) == Corner(Sum(g.widths, tx), Sum(g.heights, ty))
    ensures TileEnd(g, tx, ty) == Corner(Sum(g.widths, tx) + g.widths[tx] - 1, Sum(g.heights, ty) + g.heights[ty] - 1)
  {
    hide Sum, Corner;
    Fits(g);
    SumStep(g.widths, tx);
    SumStep(g.heights, ty);
    assert Sum(g.widths, tx + 1) < 0x1_0000 && Sum(g.heights, ty + 1) < 0x1_0000;
  }
}
