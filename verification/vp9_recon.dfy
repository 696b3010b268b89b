/** The 10-bit reconstruction buffer: the hardware packs its low chroma plane at an 8-aligned height, references are
    read at a 16-aligned one, and finishing a frame moves and pads the planes in place. */
module Vp9Recon {
  import opened Words
  import opened Memory

  /** Where row `r` of a plane begins. */
  function RowAt(o: nat, s: nat, r: nat): (at: nat)
    ensures r == 0 ==> at == o
  {
    o + r * s
  }

  /** Row `r` of the plane of stride `s` that begins at `o`. */
  function Row(p: seq<byte>, o: nat, s: nat, r: nat): seq<byte> {
    if RowAt(o, s, r) + s <= |p| then p[RowAt(o, s, r)..RowAt(o, s, r) + s] else []
  }

  lemma RowsApart(o: nat, s: nat, r: nat, q: nat)
    requires r < q
    ensures RowAt(o, s, r) + s <= RowAt(o, s, q)
    ensures RowAt(o, s, r + 1) == RowAt(o, s, r) + s
  {
    NextRow(s, r);
    Fewer(s, r + 1, q);
  }

  lemma NextRow(s: nat, r: nat)
    ensures (r + 1) * s == r * s + s
  {
  }

  lemma Fewer(s: nat, m: nat, n: nat)
    requires m <= n
    ensures 0 <= m * s <= n * s
  {
    ScaleMonotone(s, m, n);
    ScaleMonotone(s, 0, m);
    Commute(s, m);
    Commute(s, n);
  }

  lemma Commute(a: nat, b: nat)
    ensures a * b == b * a
  {
  }

  /** Writing elsewhere leaves a row alone. */
  lemma PutOther(p: seq<byte>, at: nat, b: seq<byte>, o: nat, s: nat, r: nat)
    requires at + |b| <= |p|
    requires RowAt(o, s, r) + s <= at || at + |b| <= RowAt(o, s, r)
    ensures Row(Put(p, at, b), o, s, r) == Row(p, o, s, r)
  {
  }

  lemma PutHere(p: seq<byte>, b: seq<byte>, o: nat, s: nat, r: nat)
    requires RowAt(o, s, r) + s <= |p| && |b| == s
    ensures Row(Put(p, RowAt(o, s, r), b), o, s, r) == b
  {
  }

  /** One step of a padding loop: row `r` becomes a copy of the last visible row. */
  function PadRow(p: seq<byte>, o: nat, s: nat, v: nat, r: nat): (q: seq<byte>)
    requires 1 <= v <= r && RowAt(o, s, r) + s <= |p|
    ensures |q| == |p|
  {
    RowsApart(o, s, v - 1, r);
    Put(p, RowAt(o, s, r), Row(p, o, s, v - 1))
  }

  /** A plane of `a` rows, `v` of them visible. */
  datatype Plane = Plane(o: nat, s: nat)
  {
    function End(a: nat): nat {
      RowAt(o, s, a)
    }
  }

  /** The source row of row `r` once the rows v..n have been padded. */
  function Source(v: nat, n: nat, r: nat): nat
    requires v >= 1
  {
    if v <= r < n then v - 1 else r
  }

  /** Two planes padded side by side up to row `n`. */
  function PadTwo(p: seq<byte>, one: Plane, two: Plane, v: nat, n: nat): (q: seq<byte>)
    requires 1 <= v <= n && one.End(n) <= |p| && two.End(n) <= |p|
    ensures |q| == |p|
    decreases n
  {
    if n == v then p
    else
      RowsApart(one.o, one.s, n - 1, n);
      RowsApart(two.o, two.s, n - 1, n);
      PadRow(PadRow(PadTwo(p, one, two, v, n - 1), one.o, one.s, v, n - 1), two.o, two.s, v, n - 1)
  }

  /** Every padding row equals the last visible row; every other row of both planes is unchanged. */
  lemma {:induction false} PadTwoRows(p: seq<byte>, one: Plane, two: Plane, v: nat, n: nat, a: nat, r: nat)
    requires 1 <= v <= n <= a && r < a && one.End(a) <= two.o && two.End(a) <= |p|
    ensures one.End(n) <= |p| && two.End(n) <= |p|
    ensures Row(PadTwo(p, one, two, v, n), one.o, one.s, r) == Row(p, one.o, one.s, Source(v, n, r))
    ensures Row(PadTwo(p, one, two, v, n), two.o, two.s, r) == Row(p, two.o, two.s, Source(v, n, r))
    decreases n
  {
    hide RowAt, Row, Put;
    EndMonotone(one, n, a);
    EndMonotone(two, n, a);
    if v < n {
      var t := n - 1;
      PadTwoRows(p, one, two, v, t, a, r);
      PadTwoRows(p, one, two, v, t, a, v - 1);
      PadRowRows(PadTwo(p, one, two, v, t), one, two, v, t, a, r);
    }
  }

  lemma EndMonotone(plane: Plane, n: nat, a: nat)
    requires n <= a
    ensures plane.o <= plane.End(n) <= plane.End(a)
  {
    if a > n { RowsApart(plane.o, plane.s, n, a); }
    if 0 < n { RowsApart(plane.o, plane.s, 0, n); }
  }

  /** One step of the loop, for both planes. */
  lemma PadRowRows(p: seq<byte>, one: Plane, two: Plane, v: nat, t: nat, a: nat, r: nat)
    requires 1 <= v <= t < a && r < a && one.End(a) <= two.o && two.End(a) <= |p|
    ensures RowAt(one.o, one.s, t) + one.s <= |p| && RowAt(two.o, two.s, t) + two.s <= |p|
    ensures var q := PadRow(PadRow(p, one.o, one.s, v, t), two.o, two.s, v, t);
      && Row(q, one.o, one.s, r) == Row(p, one.o, one.s, if r == t then v - 1 else r)
      && Row(q, two.o, two.s, r) == Row(p, two.o, two.s, if r == t then v - 1 else r)
  {
    hide RowAt, Put, Row;
    InPlane(one, v - 1, a);
    InPlane(two, v - 1, a);
    InPlane(one, t, a);
    InPlane(two, t, a);
    InPlane(one, r, a);
    InPlane(two, r, a);
    var b1 := Row(p, one.o, one.s, v - 1);
    RowLength(p, one.o, one.s, v - 1);
    RowsApart(one.o, one.s, v - 1, t);
    RowsApart(two.o, two.s, v - 1, t);
    var q1 := Put(p, RowAt(one.o, one.s, t), b1);
    var b2 := Row(q1, two.o, two.s, v - 1);
    RowLength(q1, two.o, two.s, v - 1);
    PutOther(p, RowAt(one.o, one.s, t), b1, two.o, two.s, v - 1);
    PutOther(p, RowAt(one.o, one.s, t), b1, two.o, two.s, r);
    PutOther(q1, RowAt(two.o, two.s, t), b2, one.o, one.s, r);
    if r == t {
      PutHere(p, b1, one.o, one.s, t);
      PutHere(q1, b2, two.o, two.s, t);
    } else {
      Separate(one, r, t);
      Separate(two, r, t);
      PutOther(p, RowAt(one.o, one.s, t), b1, one.o, one.s, r);
      PutOther(q1, RowAt(two.o, two.s, t), b2, two.o, two.s, r);
    }
  }

  lemma RowLength(p: seq<byte>, o: nat, s: nat, r: nat)
    requires RowAt(o, s, r) + s <= |p|
    ensures |Row(p, o, s, r)| == s
  {
  }

  lemma InPlane(plane: Plane, r: nat, a: nat)
    requires r < a
    ensures plane.o <= RowAt(plane.o, plane.s, r) && RowAt(plane.o, plane.s, r) + plane.s <= plane.End(a)
  {
    EndMonotone(plane, r, a);
    RowsApart(plane.o, plane.s, r, a);
  }

  lemma Separate(plane: Plane, r: nat, t: nat)
    requires r != t
    ensures RowAt(plane.o, plane.s, r) + plane.s <= RowAt(plane.o, plane.s, t)
         || RowAt(plane.o, plane.s, t) + plane.s <= RowAt(plane.o, plane.s, r)
  {
    if r < t { RowsApart(plane.o, plane.s, r, t); } else { RowsApart(plane.o, plane.s, t, r); }
  }

  /** A row that lies before, between or behind the two planes is left alone. */
  lemma {:induction false} PadTwoElsewhere(
    p: seq<byte>, one: Plane, two: Plane, v: nat, n: nat, a: nat, o: nat, s: nat, r: nat)
    requires 1 <= v <= n <= a && one.End(a) <= two.o && two.End(a) <= |p|
    requires var at := RowAt(o, s, r); at + s <= one.o || (one.End(a) <= at && at + s <= two.o) || two.End(a) <= at
    ensures one.End(n) <= |p| && two.End(n) <= |p|
    ensures Row(PadTwo(p, one, two, v, n), o, s, r) == Row(p, o, s, r)
    decreases n
  {
    hide RowAt, Row, Put;
    EndMonotone(one, n, a);
    EndMonotone(two, n, a);
    if v < n {
      PadTwoElsewhere(p, one, two, v, n - 1, a, o, s, r);
      PadRowElsewhere(PadTwo(p, one, two, v, n - 1), one, two, v, n - 1, a, o, s, r);
    }
  }

  lemma PadRowElsewhere(p: seq<byte>, one: Plane, two: Plane, v: nat, t: nat, a: nat, o: nat, s: nat, r: nat)
    requires 1 <= v <= t < a && one.End(a) <= two.o && two.End(a) <= |p|
    requires var at := RowAt(o, s, r); at + s <= one.o || (one.End(a) <= at && at + s <= two.o) || two.End(a) <= at
    ensures RowAt(one.o, one.s, t) + one.s <= |p| && RowAt(two.o, two.s, t) + two.s <= |p|
    ensures Row(PadRow(PadRow(p, one.o, one.s, v, t), two.o, two.s, v, t), o, s, r) == Row(p, o, s, r)
  {
    hide RowAt, Row, Put;
    InPlane(one, t, a);
    InPlane(two, t, a);
    InPlane(one, v - 1, a);
    InPlane(two, v - 1, a);
    var b1 := Row(p, one.o, one.s, v - 1);
    RowLength(p, one.o, one.s, v - 1);
    var q1 := Put(p, RowAt(one.o, one.s, t), b1);
    RowLength(q1, two.o, two.s, v - 1);
    PutOther(p, RowAt(one.o, one.s, t), b1, o, s, r);
    PutOther(q1, RowAt(two.o, two.s, t), Row(q1, two.o, two.s, v - 1), o, s, r);
  }

  // Geometry.

  datatype Picture = Picture(width: nat, height: nat)
  {
    predicate Valid() {
      width >= 1 && height >= 1
    }

    function Stride(): nat { Align(width, 16) }
    function Rows(): nat { Align(height, 16) }
    function PackedRows(): nat { Align(height, 8) }
    /** The stride of the two planes that hold the low bits. */
    function ExtStride(): nat { Align(Align(width, 4) / 4, 32) }
    function ChromaRows(): nat { (height + 1) / 2 }
    function HighSize(): nat { Rows() * Stride() * 3 / 2 }

    function HighLuma(): Plane { Plane(0, Stride()) }
    function HighChroma(): Plane { Plane(Rows() * Stride(), Stride()) }
    function LowLuma(): Plane { Plane(HighSize(), ExtStride()) }
    function LowChroma(): Plane {
      hide Align;
      Plane(HighSize() + Rows() * ExtStride(), ExtStride())
    }
    /** Where the hardware leaves the low chroma plane. */
    function PackedChroma(): Plane {
      hide Align;
      Plane(HighSize() + PackedRows() * ExtStride(), ExtStride())
    }

    function MoveLength(): nat { ChromaRows() * ExtStride() }

    /** cedrus_vp9_10bit_recon_size */
    function ReconSize(): nat { Align(HighSize() + Rows() * ExtStride() * 3 / 2, 4096) }

    /** Whether the packed plane has to be moved. */
    predicate Moves() {
      PackedRows() != Rows()
    }
  }

  lemma AlignIs(x: nat, a: nat)
    requires a > 0
    ensures x <= Align(x, a) < x + a
  {
    FloorDiv(x + a - 1, a);
  }

  lemma HalfRows(x: nat, rows: nat)
    requires rows % 2 == 0
    ensures rows * x * 3 / 2 == rows * x + rows / 2 * x
  {
    var half := rows / 2;
    assert rows * x == 2 * (half * x) by { assert rows == 2 * half; assert 2 * half * x == 2 * (half * x); }
  }

  /** The heights: only 1 to 8 rows more than a multiple of 16 make the packed plane move, by 8 rows. */
  lemma Heights(g: Picture)
    requires g.Valid()
    ensures g.Rows() % 16 == 0 && g.height <= g.Rows() && g.height <= g.PackedRows()
    ensures g.PackedRows() == g.Rows() || g.PackedRows() == g.Rows() - 8
    ensures g.Moves() <==> 1 <= g.height % 16 <= 8
    ensures 1 <= g.ChromaRows() <= g.Rows() / 2
  {
    hide Align;
    var n, d := g.height / 16, g.height % 16;
    RoundedHeights(g.height, n, d);
    HeightFacts(g.height, n, d, g.Rows(), g.PackedRows());
  }

  lemma HeightFacts(h: nat, n: nat, d: nat, rows: nat, packed: nat)
    requires h >= 1 && h == 16 * n + d && d < 16
    requires rows == 16 * (if d == 0 then n else n + 1)
    requires packed == 16 * n + 8 * (if d == 0 then 0 else if d <= 8 then 1 else 2)
    ensures rows % 16 == 0 && h <= rows && h <= packed
    ensures packed == rows || packed == rows - 8
    ensures packed != rows <==> 1 <= d <= 8
    ensures 1 <= (h + 1) / 2 <= rows / 2
  {
  }

  lemma RoundedHeights(h: nat, n: nat, d: nat)
    requires h == 16 * n + d && d < 16
    ensures Align(h, 16) == 16 * (if d == 0 then n else n + 1)
    ensures Align(h, 8) == 16 * n + 8 * (if d == 0 then 0 else if d <= 8 then 1 else 2)
  {
    AlignTo(h, 16, if d == 0 then n else n + 1);
    AlignTo(h, 8, 2 * n + (if d == 0 then 0 else if d <= 8 then 1 else 2));
  }

  lemma AlignTo(x: nat, a: nat, q: nat)
    requires a > 0 && x <= q * a < x + a
    ensures Align(x, a) == q * a
  {
    FloorDiv(x + a - 1, a);
    var f := (x + a - 1) / a;
    ScaleOrder(f, q + 1, a);
    ScaleOrder(q - 1, f, a);
    assert (q + 1) * a == q * a + a && (q - 1) * a == q * a - a;
  }

  /** The four planes tile the buffer one after another; the packed chroma rows start inside the low luma padding. */
  lemma Layout(g: Picture)
    requires g.Valid()
    ensures g.HighLuma().End(g.Rows()) == g.HighChroma().o
    ensures g.HighChroma().End(g.Rows() / 2) == g.LowLuma().o
    ensures g.LowLuma().End(g.Rows()) == g.LowChroma().o
    ensures g.LowChroma().End(g.Rows() / 2) <= g.ReconSize()
    ensures g.ExtStride() >= 1
    ensures g.PackedChroma().o <= g.LowChroma().o
    ensures g.PackedChroma().o == g.LowChroma().o <==> !g.Moves()
    ensures g.PackedChroma().End(g.ChromaRows()) <= g.LowChroma().End(g.Rows() / 2)
  {
    hide Align, g.MoveLength, g.Stride, g.ExtStride, g.Rows, g.PackedRows, g.ChromaRows, g.ReconSize;
    Heights(g);
    Strides(g);
    LayoutNumbers(g.Stride(), g.ExtStride(), g.Rows(), g.PackedRows(), g.ChromaRows());
    ReconSizeFits(g);
  }

  lemma ReconSizeFits(g: Picture)
    ensures g.ReconSize() >= g.HighSize() + g.Rows() * g.ExtStride() * 3 / 2
  {
    hide Align, g.HighSize, g.Rows, g.ExtStride;
    AlignIs(g.HighSize() + g.Rows() * g.ExtStride() * 3 / 2, 4096);
  }

  lemma LayoutNumbers(s: nat, e: nat, rows: nat, packed: nat, chroma: nat)
    requires rows % 2 == 0 && (packed == rows || packed == rows - 8) && chroma <= rows / 2 && e >= 1
    ensures rows * s + rows / 2 * s == rows * s * 3 / 2 && rows * e + rows / 2 * e == rows * e * 3 / 2
    ensures packed * e <= rows * e && (packed * e == rows * e <==> packed == rows)
    ensures chroma * e <= rows / 2 * e
  {
    HalfRows(s, rows);
    HalfRows(e, rows);
    Fewer(e, packed, rows);
    Fewer(e, chroma, rows / 2);
    if packed < rows { EightRows(e, rows); }
  }

  lemma EightRows(e: nat, rows: nat)
    requires rows >= 8
    ensures (rows - 8) * e == rows * e - 8 * e
  {
  }

  lemma Strides(g: Picture)
    requires g.Valid()
    ensures g.ExtStride() >= 1
  {
    AlignIs(g.width, 4);
    AlignIs(Align(g.width, 4) / 4, 32);
    assert Align(g.width, 4) >= 4 by { FloorDiv(g.width + 3, 4); }
  }

  // What finishing a frame makes of the buffer.

  lemma MoveFits(g: Picture)
    requires g.Valid()
    ensures g.PackedChroma().o + g.MoveLength() <= g.LowChroma().o + g.MoveLength() <= g.ReconSize()
    ensures g.LowChroma().o + g.MoveLength() == g.LowChroma().End(g.ChromaRows())
    ensures g.PackedChroma().o + g.MoveLength() == g.PackedChroma().End(g.ChromaRows())
  {
    Heights(g);
    Layout(g);
    EndMonotone(g.LowChroma(), g.ChromaRows(), g.Rows() / 2);
    EndIs(g);
  }

  lemma EndIs(g: Picture)
    ensures g.LowChroma().o + g.MoveLength() == g.LowChroma().End(g.ChromaRows())
    ensures g.PackedChroma().o + g.MoveLength() == g.PackedChroma().End(g.ChromaRows())
  {
  }

  function Moved(p: seq<byte>, g: Picture): (q: seq<byte>)
    requires g.Valid() && |p| >= g.ReconSize()
    ensures |q| == |p|
  {
    MoveFits(g);
    hide *;
    Put(p, g.LowChroma().o, p[g.PackedChroma().o..g.PackedChroma().o + g.MoveLength()])
  }

  function Relayout(p: seq<byte>, g: Picture): (q: seq<byte>)
    requires g.Valid() && |p| >= g.ReconSize()
    ensures |q| == |p|
  {
    if g.Moves() then PaddedChroma(PaddedLuma(p, g), g) else p
  }

  // The result, plane by plane.

  function PlaneRow(p: seq<byte>, plane: Plane, r: nat): seq<byte> {
    Row(p, plane.o, plane.s, r)
  }

  /** The moved rows arrive; whatever lies before the low chroma plane stays. */
  lemma MovedRows(p: seq<byte>, g: Picture, r: nat)
    requires g.Valid() && |p| >= g.ReconSize() && r < g.ChromaRows()
    ensures PlaneRow(Moved(p, g), g.LowChroma(), r) == PlaneRow(p, g.PackedChroma(), r)
  {
    hide Align, Put, Row, RowAt, Moved;
    var from, at, n, e := g.PackedChroma().o, g.LowChroma().o, g.MoveLength(), g.ExtStride();
    MoveFits(g);
    Layout(g);
    InPlane(g.LowChroma(), r, g.ChromaRows());
    InPlane(g.PackedChroma(), r, g.ChromaRows());
    PutSlice(p, from, at, n, e, r);
    PlanesAre(p, Moved(p, g), g, r);
  }

  lemma PlanesAre(p: seq<byte>, q: seq<byte>, g: Picture, r: nat)
    requires g.Valid() && |p| >= g.ReconSize()
    ensures g.PackedChroma().o + g.MoveLength() <= g.LowChroma().o + g.MoveLength() <= g.ReconSize()
    ensures Moved(p, g) == Put(p, g.LowChroma().o, p[g.PackedChroma().o..g.PackedChroma().o + g.MoveLength()])
    ensures g.LowChroma().s == g.PackedChroma().s == g.ExtStride()
    ensures PlaneRow(q, g.LowChroma(), r) == Row(q, g.LowChroma().o, g.ExtStride(), r)
    ensures PlaneRow(p, g.PackedChroma(), r) == Row(p, g.PackedChroma().o, g.ExtStride(), r)
  {
    hide Put, Row, Align;
    MoveFits(g);
  }

  lemma PutSlice(p: seq<byte>, from: nat, at: nat, n: nat, e: nat, r: nat)
    requires from + n <= |p| && at + n <= |p|
    requires RowAt(at, e, r) + e <= at + n && RowAt(from, e, r) + e <= from + n
    ensures Row(Put(p, at, p[from..from + n]), at, e, r) == Row(p, from, e, r)
  {
    hide Put;
    var x := RowAt(at, e, r) - at;
    assert RowAt(from, e, r) == from + x && x >= 0 by { ScaleMonotone(e, 0, r); }
    PutSliceAt(p, from, at, n, e, x);
  }

  lemma PutSliceAt(p: seq<byte>, from: nat, at: nat, n: nat, e: nat, x: nat)
    requires from + n <= |p| && at + n <= |p| && x + e <= n
    ensures Put(p, at, p[from..from + n])[at + x..at + x + e] == p[from + x..from + x + e]
  {
    var b, q := p[from..from + n], Put(p, at, p[from..from + n]);
    assert q[at..at + n] == b;
    assert q[at + x..at + x + e] == q[at..at + n][x..x + e];
    SliceOfSlice(p, from, n, x, e);
  }

  lemma SliceOfSlice(p: seq<byte>, from: nat, n: nat, x: nat, e: nat)
    requires from + n <= |p| && x + e <= n
    ensures p[from..from + n][x..x + e] == p[from + x..from + x + e]
  {
    var a, b := p[from..from + n][x..x + e], p[from + x..from + x + e];
    assert forall k | 0 <= k < e :: a[k] == b[k];
  }

  lemma MovedElsewhere(p: seq<byte>, g: Picture, plane: Plane, a: nat, r: nat)
    requires g.Valid() && |p| >= g.ReconSize() && r < a && plane.End(a) <= g.LowChroma().o
    ensures PlaneRow(Moved(p, g), plane, r) == PlaneRow(p, plane, r)
  {
    hide Put, RowAt, Row, Align;
    MoveFits(g);
    InPlane(plane, r, a);
    PutOther(p, g.LowChroma().o, p[g.PackedChroma().o..g.PackedChroma().o + g.MoveLength()], plane.o, plane.s, r);
  }

  /** The order of the planes, as the padding needs it. */
  lemma PlaneOrder(g: Picture, p: seq<byte>)
    requires g.Valid() && |p| >= g.ReconSize()
    ensures g.HighLuma().End(g.Rows()) <= g.HighChroma().o
    ensures g.HighLuma().End(g.Rows()) <= g.LowLuma().o
    ensures g.HighChroma().o <= g.HighChroma().End(g.Rows() / 2) <= g.LowLuma().o
    ensures g.HighChroma().End(g.Rows() / 2) <= g.LowChroma().o
    ensures g.LowLuma().o <= g.LowLuma().End(g.Rows()) <= g.LowChroma().o
    ensures g.LowChroma().o <= g.LowChroma().End(g.Rows() / 2) <= |p|
    ensures g.LowLuma().End(g.Rows()) <= |p|
    ensures 1 <= g.ChromaRows() <= g.Rows() / 2 && 1 <= g.height <= g.Rows()
  {
    hide Align;
    Heights(g);
    Layout(g);
    EndMonotone(g.HighChroma(), 0, g.Rows() / 2);
    EndMonotone(g.LowLuma(), 0, g.Rows());
    EndMonotone(g.LowChroma(), 0, g.Rows() / 2);
  }

  function PaddedLuma(p: seq<byte>, g: Picture): (q: seq<byte>)
    requires g.Valid() && |p| >= g.ReconSize()
    ensures |q| == |p|
  {
    PlaneOrder(g, p);
    EndMonotone(g.HighLuma(), g.Rows(), g.Rows());
    PadTwo(Moved(p, g), g.HighLuma(), g.LowLuma(), g.height, g.Rows())
  }

  function PaddedChroma(n: seq<byte>, g: Picture): (q: seq<byte>)
    requires g.Valid() && |n| >= g.ReconSize()
    ensures |q| == |n|
  {
    PlaneOrder(g, n);
    PadTwo(n, g.HighChroma(), g.LowChroma(), g.ChromaRows(), g.Rows() / 2)
  }

  /** Both luma planes keep their visible rows and repeat the last one below them, although their padding held the
      start of the packed chroma plane. */
  lemma LumaRows(p: seq<byte>, g: Picture, r: nat)
    requires g.Valid() && |p| >= g.ReconSize() && g.Moves() && r < g.Rows()
    ensures PlaneRow(Relayout(p, g), g.HighLuma(), r) == PlaneRow(p, g.HighLuma(), Min(r, g.height - 1))
    ensures PlaneRow(Relayout(p, g), g.LowLuma(), r) == PlaneRow(p, g.LowLuma(), Min(r, g.height - 1))
  {
    hide Row, RowAt, Put, PadTwo, Moved, Align;
    var n := PaddedLuma(p, g);
    PlaneOrder(g, p);
    PadTwoRows(Moved(p, g), g.HighLuma(), g.LowLuma(), g.height, g.Rows(), g.Rows(), r);
    MovedElsewhere(p, g, g.HighLuma(), g.Rows(), Min(r, g.height - 1));
    MovedElsewhere(p, g, g.LowLuma(), g.Rows(), Min(r, g.height - 1));
    InPlane(g.HighLuma(), r, g.Rows());
    InPlane(g.LowLuma(), r, g.Rows());
    var hc, lc, half := g.HighChroma(), g.LowChroma(), g.Rows() / 2;
    PadTwoElsewhere(n, hc, lc, g.ChromaRows(), half, half, g.HighLuma().o, g.HighLuma().s, r);
    PadTwoElsewhere(n, hc, lc, g.ChromaRows(), half, half, g.LowLuma().o, g.LowLuma().s, r);
  }

  /** Both chroma planes are padded likewise, and the low one holds the rows that the hardware had packed. */
  lemma ChromaPlaneRows(p: seq<byte>, g: Picture, r: nat)
    requires g.Valid() && |p| >= g.ReconSize() && g.Moves() && r < g.Rows() / 2
    ensures PlaneRow(Relayout(p, g), g.HighChroma(), r) == PlaneRow(p, g.HighChroma(), Min(r, g.ChromaRows() - 1))
    ensures PlaneRow(Relayout(p, g), g.LowChroma(), r) == PlaneRow(p, g.PackedChroma(), Min(r, g.ChromaRows() - 1))
  {
    hide Row, RowAt, Put, PadTwo, Moved, Align;
    var m, n := Moved(p, g), PaddedLuma(p, g);
    var hc, lc, half, x := g.HighChroma(), g.LowChroma(), g.Rows() / 2, Min(r, g.ChromaRows() - 1);
    PlaneOrder(g, p);
    PadTwoRows(n, hc, lc, g.ChromaRows(), half, half, r);
    InPlane(hc, x, half);
    InPlane(lc, x, half);
    PadTwoElsewhere(m, g.HighLuma(), g.LowLuma(), g.height, g.Rows(), g.Rows(), hc.o, hc.s, x);
    PadTwoElsewhere(m, g.HighLuma(), g.LowLuma(), g.height, g.Rows(), g.Rows(), lc.o, lc.s, x);
    MovedElsewhere(p, g, hc, half, x);
    MovedRows(p, g, x);
  }

  /** Nothing behind the four planes is touched. */
  lemma TailUntouched(p: seq<byte>, g: Picture)
    requires g.Valid() && |p| >= g.ReconSize()
    ensures var end := g.LowChroma().End(g.Rows() / 2); end <= |p| && Relayout(p, g)[end..] == p[end..]
  {
    hide Put, PadTwo, Moved, Align, Row;
    PlaneOrder(g, p);
    if g.Moves() {
      var end := g.LowChroma().End(g.Rows() / 2);
      TailKept(p, g, end, |p| - end);
      RestIsRow(p, end);
      RestIsRow(Relayout(p, g), end);
    }
  }

  lemma TailKept(p: seq<byte>, g: Picture, end: nat, rest: nat)
    requires g.Valid() && |p| >= g.ReconSize() && end == g.LowChroma().End(g.Rows() / 2)
    ensures Row(PaddedChroma(PaddedLuma(p, g), g), end, rest, 0) == Row(p, end, rest, 0)
  {
    hide Put, PadTwo, Moved, Align, Row, RowAt;
    var m, n := Moved(p, g), PaddedLuma(p, g);
    PlaneOrder(g, p);
    PadTwoElsewhere(n, g.HighChroma(), g.LowChroma(), g.ChromaRows(), g.Rows() / 2, g.Rows() / 2, end, rest, 0);
    PadTwoElsewhere(m, g.HighLuma(), g.LowLuma(), g.height, g.Rows(), g.Rows(), end, rest, 0);
    MoveFits(g);
    EndMonotone(g.LowChroma(), g.ChromaRows(), g.Rows() / 2);
    PutOther(p, g.LowChroma().o, p[g.PackedChroma().o..g.PackedChroma().o + g.MoveLength()], end, rest, 0);
    MovedIs(p, g);
  }

  lemma MovedIs(p: seq<byte>, g: Picture)
    requires g.Valid() && |p| >= g.ReconSize()
    ensures g.PackedChroma().o + g.MoveLength() <= g.LowChroma().o + g.MoveLength() <= |p|
    ensures Moved(p, g) == Put(p, g.LowChroma().o, p[g.PackedChroma().o..g.PackedChroma().o + g.MoveLength()])
  {
    hide Align, Put;
    MoveFits(g);
  }

  lemma RestIsRow(p: seq<byte>, end: nat)
    requires end <= |p|
    ensures Row(p, end, |p| - end, 0) == p[end..]
  {
  }

  // The same in numbers.

  /** Strides and heights are the least multiples of 16, 32 and 8 that will do; the planes follow each other. */
  lemma Geometry(g: Picture)
    requires g.Valid()
    ensures g.Stride() % 16 == 0 && g.width <= g.Stride() < g.width + 16
    ensures g.ExtStride() % 32 == 0 && (g.width + 3) / 4 <= g.ExtStride() < (g.width + 3) / 4 + 32
    ensures g.Rows() % 16 == 0 && g.height <= g.Rows() < g.height + 16
    ensures g.PackedRows() % 8 == 0 && g.height <= g.PackedRows() < g.height + 8
    ensures var high := g.Rows() * g.Stride() * 3 / 2;
      && g.HighLuma() == Plane(0, g.Stride()) && g.HighChroma() == Plane(g.Rows() * g.Stride(), g.Stride())
      && g.LowLuma() == Plane(high, g.ExtStride())
      && g.LowChroma() == Plane(high + g.Rows() * g.ExtStride(), g.ExtStride())
      && g.PackedChroma() == Plane(high + g.PackedRows() * g.ExtStride(), g.ExtStride())
      && g.MoveLength() == (g.height + 1) / 2 * g.ExtStride()
    ensures var end := g.Rows() * g.Stride() * 3 / 2 + g.Rows() * g.ExtStride() * 3 / 2;
      g.ReconSize() % 4096 == 0 && end <= g.ReconSize() < end + 4096
  {
    hide Align;
    LeastMultiple(g.width, 16);
    LeastMultiple(g.width, 4);
    LeastMultiple(Align(g.width, 4) / 4, 32);
    LeastMultiple(g.height, 16);
    LeastMultiple(g.height, 8);
    LeastMultiple(g.HighSize() + g.Rows() * g.ExtStride() * 3 / 2, 4096);
    AlignByFour(g.width);
  }

  lemma LeastMultiple(x: nat, a: nat)
    requires a > 0
    ensures Align(x, a) % a == 0 && x <= Align(x, a) < x + a
  {
    AlignIs(x, a);
    FloorDiv(x + a - 1, a);
    ScaleOrder(-1, (x + a - 1) / a, a);
    RowIs((x + a - 1) / a, 0, a);
  }

  lemma AlignByFour(x: nat)
    ensures Align(x, 4) / 4 == (x + 3) / 4
  {
  }

  lemma RowByte(p: seq<byte>, plane: Plane, r: nat, x: nat)
    requires x < plane.s && plane.o + r * plane.s + plane.s <= |p|
    ensures |PlaneRow(p, plane, r)| == plane.s && PlaneRow(p, plane, r)[x] == p[plane.o + r * plane.s + x]
  {
  }

  /** Two buffers that agree on a row of a plane agree on its bytes. */
  lemma RowBytes(q: seq<byte>, to: Plane, r: nat, a: nat, p: seq<byte>, from: Plane, t: nat, b: nat, x: nat)
    requires PlaneRow(q, to, r) == PlaneRow(p, from, t) && to.s == from.s
    requires r < a && t < b && to.End(a) <= |q| && from.End(b) <= |p| == |q|
    ensures 0 <= to.o + r * to.s <= to.o + r * to.s + to.s <= |p|
    ensures 0 <= from.o + t * from.s <= from.o + t * from.s + from.s <= |p|
    ensures x < to.s ==> q[to.o + r * to.s + x] == p[from.o + t * from.s + x]
  {
    hide PlaneRow;
    PlaneFits(to, r, a, |q|);
    PlaneFits(from, t, b, |p|);
    if x < to.s {
      RowByte(q, to, r, x);
      RowByte(p, from, t, x);
    }
  }

  lemma PlaneFits(plane: Plane, r: nat, a: nat, end: nat)
    requires r < a && plane.End(a) <= end
    ensures 0 <= plane.o + r * plane.s <= plane.o + r * plane.s + plane.s <= end
  {
    InPlane(plane, r, a);
  }

  /** The numbers that a width and a height determine. */
  predicate Sizes(g: Picture, s: nat, e: nat, rows: nat, packed: nat) {
    && s % 16 == 0 && g.width <= s < g.width + 16
    && e % 32 == 0 && (g.width + 3) / 4 <= e < (g.width + 3) / 4 + 32
    && rows % 16 == 0 && g.height <= rows < g.height + 16
    && packed % 8 == 0 && g.height <= packed < g.height + 8
  }

  lemma OneMultiple(x: nat, y: nat, a: nat, lo: nat)
    requires a > 0 && x % a == 0 && y % a == 0 && lo <= x < lo + a && lo <= y < lo + a
    ensures x == y
  {
    DivMod(x, a);
    DivMod(y, a);
    var m, n := x / a, y / a;
    assert (m - n) * a == m * a - n * a;
    ScaleOrder(m - n, 1, a);
    ScaleOrder(-1, m - n, a);
  }

  lemma SizesAre(g: Picture, s: nat, e: nat, rows: nat, packed: nat)
    requires g.Valid() && Sizes(g, s, e, rows, packed)
    ensures s == g.Stride() && e == g.ExtStride() && rows == g.Rows() && packed == g.PackedRows()
  {
    hide Align;
    Geometry(g);
    OneMultiple(s, g.Stride(), 16, g.width);
    OneMultiple(e, g.ExtStride(), 32, (g.width + 3) / 4);
    OneMultiple(rows, g.Rows(), 16, g.height);
    OneMultiple(packed, g.PackedRows(), 8, g.height);
  }

  /** The high luma bytes of a frame that is moved. */
  lemma HighLumaBytes(p: seq<byte>, g: Picture, s: nat, e: nat, rows: nat, packed: nat, r: nat, x: nat)
    requires g.Valid() && |p| >= g.ReconSize() && g.Moves() && Sizes(g, s, e, rows, packed) && r < rows && x < s
    ensures var t := Min(r, g.height - 1);
      && 0 <= r * s + x < |p| && 0 <= t * s + x < |p| && Relayout(p, g)[r * s + x] == p[t * s + x]
  {
    hide Relayout, PlaneRow, Align, g.ReconSize;
    SizesAre(g, s, e, rows, packed);
    PlaneOrder(g, p);
    LumaRows(p, g, r);
    RowBytes(Relayout(p, g), g.HighLuma(), r, rows, p, g.HighLuma(), Min(r, g.height - 1), rows, x);
  }

  /** The low luma bytes, behind the high bytes of both planes. */
  lemma LowLumaBytes(p: seq<byte>, g: Picture, s: nat, e: nat, rows: nat, packed: nat, r: nat, x: nat)
    requires g.Valid() && |p| >= g.ReconSize() && g.Moves() && Sizes(g, s, e, rows, packed) && r < rows && x < e
    ensures var low, t := rows * s * 3 / 2, Min(r, g.height - 1);
      && 0 <= low + r * e + x < |p| && 0 <= low + t * e + x < |p|
      && Relayout(p, g)[low + r * e + x] == p[low + t * e + x]
  {
    hide Relayout, PlaneRow, Align, g.ReconSize;
    SizesAre(g, s, e, rows, packed);
    PlaneOrder(g, p);
    LumaRows(p, g, r);
    RowBytes(Relayout(p, g), g.LowLuma(), r, rows, p, g.LowLuma(), Min(r, g.height - 1), rows, x);
  }

  /** The high chroma bytes, behind the high luma bytes. */
  lemma HighChromaBytes(p: seq<byte>, g: Picture, s: nat, e: nat, rows: nat, packed: nat, r: nat, x: nat)
    requires g.Valid() && |p| >= g.ReconSize() && g.Moves() && Sizes(g, s, e, rows, packed) && r < rows / 2 && x < s
    ensures var chroma, t := rows * s, Min(r, (g.height + 1) / 2 - 1);
      && 0 <= chroma + r * s + x < |p| && 0 <= chroma + t * s + x < |p|
      && Relayout(p, g)[chroma + r * s + x] == p[chroma + t * s + x]
  {
    hide Relayout, PlaneRow, Align, g.ReconSize;
    SizesAre(g, s, e, rows, packed);
    PlaneOrder(g, p);
    ChromaPlaneRows(p, g, r);
    RowBytes(Relayout(p, g), g.HighChroma(), r, rows / 2, p, g.HighChroma(), Min(r, g.ChromaRows() - 1), rows / 2, x);
  }

  /** The low chroma bytes, which come from behind `packed` rows of low luma and go behind `rows` of them. */
  lemma LowChromaBytes(p: seq<byte>, g: Picture, s: nat, e: nat, rows: nat, packed: nat, r: nat, x: nat)
    requires g.Valid() && |p| >= g.ReconSize() && g.Moves() && Sizes(g, s, e, rows, packed) && r < rows / 2 && x < e
    ensures var low, t := rows * s * 3 / 2, Min(r, (g.height + 1) / 2 - 1);
      var to, from := low + rows * e, low + packed * e;
      && 0 <= to + r * e + x < |p| && 0 <= from + t * e + x < |p|
      && Relayout(p, g)[to + r * e + x] == p[from + t * e + x]
  {
    hide Relayout, PlaneRow, Align, g.ReconSize;
    SizesAre(g, s, e, rows, packed);
    PlaneOrder(g, p);
    PackedFits(g, p);
    ChromaPlaneRows(p, g, r);
    RowBytes(
      Relayout(p, g), g.LowChroma(), r, rows / 2, p, g.PackedChroma(), Min(r, g.ChromaRows() - 1), g.ChromaRows(), x);
  }

  lemma PackedFits(g: Picture, p: seq<byte>)
    requires g.Valid() && |p| >= g.ReconSize()
    ensures g.PackedChroma().End(g.ChromaRows()) <= |p|
  {
    Layout(g);
  }

  /** A frame of 16 by 8 samples: the packed plane of 128 bytes goes from 640 to 896. */
  lemma SmallestMove()
    ensures var g := Picture(16, 8);
      g.Moves() && g.MoveLength() == 128 && g.PackedChroma().o == 640 && g.LowChroma().o == 896
  {
    hide Align;
    AlignTo(16, 16, 1);
    AlignTo(8, 16, 1);
    AlignTo(8, 8, 1);
    AlignTo(16, 4, 4);
    AlignTo(4, 32, 1);
  }

  // In place.

  /** memcpy() of the last visible row into row `r`. */
  method CopyRow(base: array<byte>, o: nat, s: nat, v: nat, r: nat)
    requires 1 <= v <= r && RowAt(o, s, r) + s <= base.Length
    modifies base
    ensures base[..] == PadRow(old(base[..]), o, s, v, r)
  {
    ghost var was := base[..];
    RowsApart(o, s, v - 1, r);
    var at, from := RowAt(o, s, r), RowAt(o, s, v - 1);
    CopyBytes(base, at, from, s);
    assert was[from..from + s] == Row(was, o, s, v - 1);
  }

  method PadPlanes(base: array<byte>, one: Plane, two: Plane, v: nat, a: nat)
    requires 1 <= v <= a && one.End(a) <= two.o && two.End(a) <= base.Length
    modifies base
    ensures one.End(a) <= base.Length && base[..] == PadTwo(old(base[..]), one, two, v, a)
  {
    ghost var was := base[..];
    EndMonotone(two, 0, a);
    EndMonotone(one, v, a);
    EndMonotone(two, v, a);
    for row := v to a
      invariant one.End(row) <= base.Length && two.End(row) <= base.Length
      invariant base[..] == PadTwo(was, one, two, v, row)
    {
      hide Put, Row, PadRow, RowAt;
      EndMonotone(one, row + 1, a);
      EndMonotone(two, row + 1, a);
      RowsApart(one.o, one.s, row, row + 1);
      RowsApart(two.o, two.s, row, row + 1);
      CopyRow(base, one.o, one.s, v, row);
      CopyRow(base, two.o, two.s, v, row);
    }
  }

  /** The relayout of cedrus_dec_vp9_job_finish, on a buffer as large as configuring the frame made it. */
  method RelayoutInPlace(base: array<byte>, g: Picture)
    requires g.Valid() && base.Length >= g.ReconSize()
    modifies base
    ensures base[..] == Relayout(old(base[..]), g)
  {
    hide Put, PadTwo, Align, g.HighSize;
    ghost var was := base[..];
    var src, dst, len := g.PackedChroma().o, g.LowChroma().o, g.ChromaRows() * g.ExtStride();
    Layout(g);
    MoveFits(g);
    if src != dst && dst + len <= base.Length {
      MoveUp(base, dst, src, len);
      assert base[..] == Moved(was, g);
      PlaneOrder(g, was);
      PadPlanes(base, g.HighLuma(), g.LowLuma(), g.height, g.Rows());
      PadPlanes(base, g.HighChroma(), g.LowChroma(), g.ChromaRows(), g.Rows() / 2);
    }
  }
}
