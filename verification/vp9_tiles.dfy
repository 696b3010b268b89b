/** The tile grid of a VP9 frame as the hardware is told of it: two registers and a list of records. */
module Vp9Tiles {
  import opened Words

  /** Where tile `i` of `tiles` begins among `n` superblocks: a floor boundary. */
  function Bound(i: nat, n: nat, tiles: nat): int
    requires tiles > 0
  {
    i * n / tiles
  }

  lemma Bounds(i: nat, n: nat, tiles: nat)
    requires tiles > 0
    ensures Bound(i, n, tiles) * tiles <= i * n < Bound(i, n, tiles) * tiles + tiles
    ensures i <= tiles ==> 0 <= Bound(i, n, tiles) <= n
    ensures Bound(0, n, tiles) == 0 && Bound(tiles, n, tiles) == n
  {
    FloorDiv(i * n, tiles);
    ZeroDiv(tiles);
    Exact(n, tiles);
    if i <= tiles { BoundWithin(i, n, tiles); }
  }

  lemma BoundWithin(i: nat, n: nat, tiles: nat)
    requires i <= tiles && tiles > 0
    ensures 0 <= Bound(i, n, tiles) <= n
  {
    var b := Bound(i, n, tiles);
    FloorDiv(i * n, tiles);
    hide Bound;
    ScaleMonotone(n, i, tiles);
    ScaleOrder(n, b, tiles);
    ScaleOrder(-1, b, tiles);
  }

  lemma Exact(n: nat, tiles: nat)
    requires tiles > 0
    ensures tiles * n / tiles == n
  {
    FloorDiv(tiles * n, tiles);
    var q := tiles * n / tiles;
    ScaleOrder(q, n + 1, tiles);
    ScaleOrder(n - 1, q, tiles);
  }

  /** The widths of two tiles differ by at most one, and no tile is empty iff there are superblocks for all. */
  lemma WidthIs(i: nat, n: nat, tiles: nat)
    requires i < tiles
    ensures n / tiles <= Bound(i + 1, n, tiles) - Bound(i, n, tiles) <= n / tiles + 1
  {
    var w, q := Bound(i + 1, n, tiles) - Bound(i, n, tiles), n / tiles;
    Bounds(i, n, tiles);
    Bounds(i + 1, n, tiles);
    FloorDiv(n, tiles);
    assert (i + 1) * n == i * n + n;
    assert w * tiles == Bound(i + 1, n, tiles) * tiles - Bound(i, n, tiles) * tiles;
    assert (q - 1) * tiles == q * tiles - tiles;
    assert (q + 2) * tiles == q * tiles + 2 * tiles;
    ScaleOrder(q - 1, w, tiles);
    ScaleOrder(w, q + 2, tiles);
  }

  /** No tile is empty exactly when there is a superblock for each. */
  lemma NoneEmptyIff(n: nat, tiles: nat)
    requires tiles > 0
    ensures (forall i: nat | i < tiles :: Bound(i, n, tiles) < Bound(i + 1, n, tiles)) <==> tiles <= n
  {
    FloorDiv(n, tiles);
    if tiles <= n {
      ScaleOrder(0, n / tiles + 1, tiles);
      ScaleOrder(n / tiles, 1, tiles);
      forall i: nat | i < tiles ensures Bound(i, n, tiles) < Bound(i + 1, n, tiles) {
        WidthIs(i, n, tiles);
      }
    } else {
      // The first one is.
      Bounds(0, n, tiles);
      Bounds(1, n, tiles);
      ScaleOrder(Bound(1, n, tiles), 1, tiles);
      assert !(Bound(0, n, tiles) < Bound(0 + 1, n, tiles));
    }
  }

  lemma {:induction false} BoundMonotone(i: nat, j: nat, n: nat, tiles: nat)
    requires i <= j <= tiles && tiles > 0
    ensures Bound(i, n, tiles) <= Bound(j, n, tiles)
    decreases j
  {
    if i < j {
      BoundMonotone(i, j - 1, n, tiles);
      WidthIs(j - 1, n, tiles);
      assert n / tiles >= 0 by { FloorDiv(n, tiles); ScaleOrder(-1, n / tiles, tiles); }
    }
  }

  /** The tile of a superblock. */
  function TileOf(x: nat, n: nat, tiles: nat): int
    requires n > 0
  {
    ((x + 1) * tiles - 1) / n
  }

  predicate InTile(x: int, i: nat, n: nat, tiles: nat)
    requires tiles > 0
  {
    Bound(i, n, tiles) <= x < Bound(i + 1, n, tiles)
  }

  lemma TileOfRange(x: nat, n: nat, tiles: nat)
    requires x < n && tiles > 0
    ensures var i := TileOf(x, n, tiles); 0 <= i < tiles && i * n < (x + 1) * tiles <= (i + 1) * n
  {
    var i, m := TileOf(x, n, tiles), (x + 1) * tiles;
    FloorDiv(m - 1, n);
    ScaleMonotone(tiles, x + 1, n);
    ScaleMonotone(tiles, 1, x + 1);
    assert tiles * n == n * tiles;
    ScaleOrder(i, tiles, n);
    ScaleOrder(-1, i, n);
    assert (i + 1) * n == i * n + n;
  }

  lemma BoundBelow(i: nat, n: nat, tiles: nat, x: nat)
    requires tiles > 0 && i * n < (x + 1) * tiles
    ensures Bound(i, n, tiles) <= x
  {
    FloorDiv(i * n, tiles);
    ScaleOrder(Bound(i, n, tiles), x + 1, tiles);
  }

  lemma BoundAbove(i: nat, n: nat, tiles: nat, x: nat)
    requires tiles > 0 && (x + 1) * tiles <= i * n
    ensures x < Bound(i, n, tiles)
  {
    FloorDiv(i * n, tiles);
    ScaleOrder(x, Bound(i, n, tiles), tiles);
    assert x * tiles == (x + 1) * tiles - tiles;
  }

  lemma TileOfContains(x: nat, n: nat, tiles: nat)
    requires x < n && tiles > 0
    ensures 0 <= TileOf(x, n, tiles) < tiles && InTile(x, TileOf(x, n, tiles), n, tiles)
  {
    hide Bound, TileOf;
    var i := TileOf(x, n, tiles);
    TileOfRange(x, n, tiles);
    BoundBelow(i, n, tiles, x);
    BoundAbove(i + 1, n, tiles, x);
  }

  /** Every superblock lies in exactly one tile. */
  lemma InExactlyOne(x: nat, i: nat, n: nat, tiles: nat)
    requires x < n && i < tiles
    ensures InTile(x, i, n, tiles) <==> i == TileOf(x, n, tiles)
  {
    TileOfContains(x, n, tiles);
    var j := TileOf(x, n, tiles);
    if i < j {
      BoundMonotone(i + 1, j, n, tiles);
    } else if j < i {
      BoundMonotone(j + 1, i, n, tiles);
    }
  }

  // The registers and records.

  datatype Grid = Grid(sbCols: nat, sbRows: nat, colsLog2: nat, rowsLog2: nat)
  {
    /** Sizes are at most 65536 samples, so 1024 superblocks; the driver refuses larger logarithms. */
    predicate Valid() {
      1 <= sbCols <= 1024 && 1 <= sbRows <= 1024 && colsLog2 <= 6 && rowsLog2 <= 2
    }

    function Cols(): (n: nat)
      requires Valid()
      ensures 1 <= n <= 64
    {
      if colsLog2 == 0 then 1 else if colsLog2 == 1 then 2 else if colsLog2 == 2 then 4 else if colsLog2 == 3 then 8
      else if colsLog2 == 4 then 16 else if colsLog2 == 5 then 32 else 64
    }

    function Rows(): (n: nat)
      requires Valid()
      ensures 1 <= n <= 4
    {
      if rowsLog2 == 0 then 1 else if rowsLog2 == 1 then 2 else 4
    }

    /** The driver's precondition for a sensible grid, which it does not check. */
    predicate Fits()
      requires Valid()
    {
      Cols() <= sbCols && Rows() <= sbRows
    }
  }

  lemma CountsArePowers(g: Grid)
    requires g.Valid()
    ensures g.Cols() == Pow2(g.colsLog2) && g.Rows() == Pow2(g.rowsLog2)
  {
    assert Pow2(0) == 1 && Pow2(1) == 2 && Pow2(2) == 4 && Pow2(3) == 8 && Pow2(4) == 16 && Pow2(5) == 32;
    assert Pow2(6) == 64;
  }

  /** y << 16 | x in 32 bits, for a coordinate `x` below 2^16 or the -1 of an empty first tile. */
  function Corner(y: int, x: int): u32 {
    if x < 0 then TWO_32 - 1 else Wrap32(y * 0x1_0000 + x)
  }

  function CornerX(w: u32): int {
    w % 0x1_0000
  }

  function CornerY(w: u32): int {
    w / 0x1_0000
  }

  lemma CornerRead(y: int, x: int)
    requires 0 <= x < 0x1_0000 && 0 <= y < 0x1_0000
    ensures CornerX(Corner(y, x)) == x && CornerY(Corner(y, x)) == y
  {
  }

  const RECORD_WORDS := 4
  /** The records lie below the probability image, which starts at byte 0x4000 of the buffer. */
  const ENTRY_WORDS := 0x4000 / 4

  /** The row and column of tile `t`. */
  function RowOf(g: Grid, t: nat): (row: nat)
    requires g.Valid()
    ensures t < g.Cols() * g.Rows() ==> row < g.Rows()
  {
    RowInRange(t, g.Cols(), g.Rows());
    t / g.Cols()
  }

  function ColOf(g: Grid, t: nat): (col: nat)
    requires g.Valid()
    ensures col < g.Cols()
  {
    RowInRange(t, g.Cols(), g.Rows());
    t % g.Cols()
  }

  lemma RowInRange(t: nat, cols: nat, rows: nat)
    requires cols > 0
    ensures 0 <= t / cols && 0 <= t % cols < cols
    ensures t < cols * rows ==> t / cols < rows
  {
    FloorDiv(t, cols);
    ScaleOrder(t / cols, rows, cols);
    ScaleOrder(-1, t / cols, cols);
  }

  function TileStart(g: Grid, t: nat): u32
    requires g.Valid()
  {
    Corner(Bound(RowOf(g, t), g.sbRows, g.Rows()), Bound(ColOf(g, t), g.sbCols, g.Cols()))
  }

  function TileEnd(g: Grid, t: nat): u32
    requires g.Valid()
  {
    Corner(Bound(RowOf(g, t) + 1, g.sbRows, g.Rows()) - 1, Bound(ColOf(g, t) + 1, g.sbCols, g.Cols()) - 1)
  }

  /** The words of the records of tiles 1..t. */
  ghost predicate Recorded(e: seq<u32>, was: seq<u32>, g: Grid, t: nat)
    requires g.Valid()
  {
    && |e| == |was| == ENTRY_WORDS && 1 <= t <= 256
    && (forall i | 1 <= i < t :: RecordAt(e, g, i))
    && forall k | RECORD_WORDS * (t - 1) <= k < ENTRY_WORDS :: e[k] == was[k]
  }

  predicate RecordAt(e: seq<u32>, g: Grid, t: int)
    requires g.Valid() && |e| == ENTRY_WORDS && 1 <= t < 256
  {
    var at := RECORD_WORDS * (t - 1);
    e[at] == 0 && e[at + 1] == 0 && e[at + 2] == TileStart(g, t) && e[at + 3] == TileEnd(g, t)
  }

  method WriteRecords(entry: array<u32>, g: Grid)
    requires g.Valid() && entry.Length == ENTRY_WORDS
    modifies entry
    ensures Recorded(entry[..], old(entry[..]), g, g.Cols() * g.Rows())
  {
    hide TileStart, TileEnd;
    var cols, rows := g.Cols(), g.Rows();
    CountIs(cols, rows);
    for tile := 1 to cols * rows
      invariant Recorded(entry[..], old(entry[..]), g, tile)
    {
      ghost var before := entry[..];
      var at := RECORD_WORDS * (tile - 1);
      entry[at] := 0;
      entry[at + 1] := 0;
      entry[at + 2] := TileStart(g, tile);
      entry[at + 3] := TileEnd(g, tile);
      forall i | 1 <= i < tile ensures RecordAt(entry[..], g, i) {
        assert RecordAt(before, g, i);
      }
    }
  }

  lemma CountIs(cols: nat, rows: nat)
    requires 1 <= cols <= 64 && 1 <= rows <= 4
    ensures 1 <= cols * rows <= 256
  {
    ScaleMonotone(cols, 1, rows);
    ScaleMonotone(cols, rows, 4);
  }

  /** The registers of the first tile. */
  function FirstStart(): u32 {
    0
  }

  function FirstEnd(g: Grid): u32
    requires g.Valid()
  {
    Corner(g.sbRows / g.Rows() - 1, g.sbCols / g.Cols() - 1)
  }

  datatype Rect = Rect(x0: int, y0: int, x1: int, y1: int)
  {
    predicate Contains(x: int, y: int) {
      x0 <= x <= x1 && y0 <= y <= y1
    }
  }

  function ReadRect(start: u32, end: u32): Rect {
    Rect(CornerX(start), CornerY(start), CornerX(end), CornerY(end))
  }

  /** What the hardware reads for tile `t`. */
  function TileRect(e: seq<u32>, g: Grid, t: nat): Rect
    requires g.Valid() && |e| == ENTRY_WORDS && t < 256
  {
    if t == 0 then ReadRect(FirstStart(), FirstEnd(g))
    else ReadRect(e[RECORD_WORDS * (t - 1) + 2], e[RECORD_WORDS * (t - 1) + 3])
  }

  lemma ZeroIndex(cols: nat)
    requires cols > 0
    ensures 0 / cols == 0 && 0 % cols == 0
  {
    ZeroDiv(cols);
    assert 0 == 0 / cols * cols + 0 % cols;
  }

  lemma FirstBounds(n: nat, tiles: nat)
    requires tiles > 0
    ensures Bound(0, n, tiles) == 0 && Bound(1, n, tiles) == n / tiles
  {
    ZeroDiv(tiles);
  }

  lemma FirstIsTileZero(g: Grid)
    requires g.Valid()
    ensures FirstStart() == TileStart(g, 0) && FirstEnd(g) == TileEnd(g, 0)
  {
    hide Bound, g.Cols, g.Rows;
    ZeroIndex(g.Cols());
    FirstBounds(g.sbCols, g.Cols());
    FirstBounds(g.sbRows, g.Rows());
  }

  /** The registers and records describe the tiles between the boundaries, none of them empty. */
  lemma RectIs(e: seq<u32>, was: seq<u32>, g: Grid, t: nat)
    requires g.Valid() && g.Fits() && t < g.Cols() * g.Rows() && Recorded(e, was, g, g.Cols() * g.Rows())
    ensures t < 256
    ensures var r, row, col := TileRect(e, g, t), RowOf(g, t), ColOf(g, t);
      && r.x0 == Bound(col, g.sbCols, g.Cols()) && r.x1 == Bound(col + 1, g.sbCols, g.Cols()) - 1
      && r.y0 == Bound(row, g.sbRows, g.Rows()) && r.y1 == Bound(row + 1, g.sbRows, g.Rows()) - 1
      && r.x0 <= r.x1 && r.y0 <= r.y1
  {
    hide Bound, Corner, CornerX, CornerY, RecordAt, RowOf, ColOf, g.Cols, g.Rows;
    var row, col := RowOf(g, t), ColOf(g, t);
    CountIs(g.Cols(), g.Rows());
    FirstIsTileZero(g);
    RecordIs(e, g, t);
    Edges(col, g.sbCols, g.Cols());
    Edges(row, g.sbRows, g.Rows());
    CornerRead(Bound(row, g.sbRows, g.Rows()), Bound(col, g.sbCols, g.Cols()));
    CornerRead(Bound(row + 1, g.sbRows, g.Rows()) - 1, Bound(col + 1, g.sbCols, g.Cols()) - 1);
  }

  /** The registers and records in numbers: column and row are remainder and quotient by the number of columns, corners
      are the floors of their shares of the superblocks, x below y. */
  lemma RecordNumbers(e: seq<u32>, was: seq<u32>, g: Grid, t: nat)
    requires g.Valid() && g.Fits() && Recorded(e, was, g, g.Cols() * g.Rows())
    requires t < Pow2(g.colsLog2) * Pow2(g.rowsLog2)
    ensures var (cols, rows) := (Pow2(g.colsLog2), Pow2(g.rowsLog2));
      var (x, y) := (t % cols, t / cols);
      var start := 0x1_0000 * (y * g.sbRows / rows) + x * g.sbCols / cols;
      var end := 0x1_0000 * ((y + 1) * g.sbRows / rows - 1) + (x + 1) * g.sbCols / cols - 1;
      && t < 256
      && (t == 0 ==> FirstStart() == start && FirstEnd(g) == end)
      && (t > 0 ==> e[4 * t - 4] == 0 && e[4 * t - 3] == 0 && e[4 * t - 2] == start && e[4 * t - 1] == end)
  {
    hide TileStart, TileEnd, RecordAt, g.Cols, g.Rows;
    CountsArePowers(g);
    CountIs(g.Cols(), g.Rows());
    FirstIsTileZero(g);
    TileNumbers(g, t);
    RecordWords(e, g, t);
  }

  lemma TileNumbers(g: Grid, t: nat)
    requires g.Valid() && g.Fits() && t < g.Cols() * g.Rows()
    ensures var (cols, rows) := (g.Cols(), g.Rows());
      var (x, y) := (t % cols, t / cols);
      && TileStart(g, t) == 0x1_0000 * (y * g.sbRows / rows) + x * g.sbCols / cols
      && TileEnd(g, t) == 0x1_0000 * ((y + 1) * g.sbRows / rows - 1) + (x + 1) * g.sbCols / cols - 1
  {
    hide Corner, g.Cols, g.Rows;
    var row, col := RowOf(g, t), ColOf(g, t);
    Edges(col, g.sbCols, g.Cols());
    Edges(row, g.sbRows, g.Rows());
    CornerIs(Bound(row, g.sbRows, g.Rows()), Bound(col, g.sbCols, g.Cols()));
    CornerIs(Bound(row + 1, g.sbRows, g.Rows()) - 1, Bound(col + 1, g.sbCols, g.Cols()) - 1);
  }

  lemma RecordWords(e: seq<u32>, g: Grid, t: nat)
    requires g.Valid() && |e| == ENTRY_WORDS && t < 256 && (t > 0 ==> RecordAt(e, g, t))
    ensures t > 0 ==>
      e[4 * t - 4] == 0 && e[4 * t - 3] == 0 && e[4 * t - 2] == TileStart(g, t) && e[4 * t - 1] == TileEnd(g, t)
  {
  }

  lemma CornerIs(y: int, x: int)
    requires 0 <= x < 0x1_0000 && 0 <= y < 0x1_0000
    ensures Corner(y, x) == 0x1_0000 * y + x
  {
    WordIsWrapped(0x1_0000 * y + x);
  }

  lemma Edges(i: nat, n: nat, tiles: nat)
    requires i < tiles <= n
    ensures 0 <= Bound(i, n, tiles) < Bound(i + 1, n, tiles) <= n
  {
    NoneEmptyIff(n, tiles);
    Bounds(i, n, tiles);
    Bounds(i + 1, n, tiles);
  }

  lemma RecordIs(e: seq<u32>, g: Grid, t: nat)
    requires g.Valid() && |e| == ENTRY_WORDS && t < 256 && (t > 0 ==> RecordAt(e, g, t))
    ensures t > 0 ==> TileRect(e, g, t) == ReadRect(TileStart(g, t), TileEnd(g, t))
  {
  }

  /** For every grid with a superblock for each tile, the tiles partition it: each superblock lies in the tile that its
      row and column name and in no other. */
  lemma TilesPartition(e: seq<u32>, was: seq<u32>, g: Grid, t: nat, x: nat, y: nat)
    requires g.Valid() && g.Fits() && t < g.Cols() * g.Rows() && Recorded(e, was, g, g.Cols() * g.Rows())
    requires x < g.sbCols && y < g.sbRows
    ensures t < 256
    ensures TileRect(e, g, t).Contains(x, y) <==>
      t == TileOf(y, g.sbRows, g.Rows()) * g.Cols() + TileOf(x, g.sbCols, g.Cols())
  {
    hide Bound, TileOf, TileRect, Recorded, RowOf, ColOf, g.Cols, g.Rows;
    RectIs(e, was, g, t);
    InExactlyOne(x, ColOf(g, t), g.sbCols, g.Cols());
    InExactlyOne(y, RowOf(g, t), g.sbRows, g.Rows());
    TileOfContains(x, g.sbCols, g.Cols());
    TileOfContains(y, g.sbRows, g.Rows());
    RowMajor(g, t, TileOf(y, g.sbRows, g.Rows()), TileOf(x, g.sbCols, g.Cols()));
  }

  lemma RowMajor(g: Grid, t: nat, row: nat, col: nat)
    requires g.Valid() && col < g.Cols()
    ensures t == row * g.Cols() + col <==> RowOf(g, t) == row && ColOf(g, t) == col
  {
    hide g.Cols, g.Rows;
    var cols := g.Cols();
    DivMod(t, cols);
    RowIs(row, col, cols);
  }

  /** Two tiles' widths, and their heights, differ by at most one superblock. */
  lemma TilesEven(e: seq<u32>, was: seq<u32>, g: Grid, s: nat, t: nat)
    requires g.Valid() && g.Fits() && Recorded(e, was, g, g.Cols() * g.Rows())
    requires s < g.Cols() * g.Rows() && t < g.Cols() * g.Rows()
    ensures s < 256 && t < 256
    ensures var a, b := TileRect(e, g, s), TileRect(e, g, t);
      -1 <= (a.x1 - a.x0) - (b.x1 - b.x0) <= 1 && -1 <= (a.y1 - a.y0) - (b.y1 - b.y0) <= 1
  {
    hide Bound, TileRect, Recorded, RowOf, ColOf, g.Cols, g.Rows;
    RectIs(e, was, g, s);
    RectIs(e, was, g, t);
    WidthIs(ColOf(g, s), g.sbCols, g.Cols());
    WidthIs(ColOf(g, t), g.sbCols, g.Cols());
    WidthIs(RowOf(g, s), g.sbRows, g.Rows());
    WidthIs(RowOf(g, t), g.sbRows, g.Rows());
  }

  /** The driver does not check that there is a superblock for each tile, and only then is no tile empty. */
  lemma NoEmptyTileIff(g: Grid)
    requires g.Valid()
    ensures g.Fits() <==>
      (forall i: nat | i < g.Cols() :: Bound(i, g.sbCols, g.Cols()) < Bound(i + 1, g.sbCols, g.Cols()))
      && (forall i: nat | i < g.Rows() :: Bound(i, g.sbRows, g.Rows()) < Bound(i + 1, g.sbRows, g.Rows()))
  {
    NoneEmptyIff(g.sbCols, g.Cols());
    NoneEmptyIff(g.sbRows, g.Rows());
  }

  /** One row of superblocks for two tile rows, which VP9 does not rule out: the end row of the first tile is -1, cut to
      16 bits, and the second tile has the place of both. */
  lemma EmptyFirstTile()
    ensures var g := Grid(1, 1, 0, 1);
      && g.Valid() && !g.Fits()
      && FirstStart() == 0 && FirstEnd(g) == 0xffff_0000
      && TileStart(g, 1) == 0 && TileEnd(g, 1) == 0
  {
    assert RowOf(Grid(1, 1, 0, 1), 1) == 1 && ColOf(Grid(1, 1, 0, 1), 1) == 0;
  }
}
