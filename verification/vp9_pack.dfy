/** The entropy front-end's probability image: the driver's packer and the Python tool's unpacker and repacker. */
module Vp9Pack {
  import opened Words
  import opened Vp9Layout
  import opened Vp9ForwardUpdate

  const HW_SIZE := 0xafc
  const MV_IMAGE := 0xa94
  const TREE_PROBS := 0xaf0
  const PRED_PROBS := 0xaf8

  type Image = s: seq<byte> | |s| == HW_SIZE witness seq(HW_SIZE, _ => 0)

  datatype Segmentation = Segmentation(enabled: bool, treeProbs: seq<byte>, predProbs: seq<byte>)
  {
    predicate Valid() {
      |treeProbs| == 7 && |predProbs| == 3
    }

    predicate AllZero()
      requires Valid()
    {
      (forall i | 0 <= i < 7 :: treeProbs[i] == 0) && forall i | 0 <= i < 3 :: predProbs[i] == 0
    }
  }

  // Two maps between the bytes of a context and the bytes of an image; each is the other's inverse.

  /** Rows of `a` laid out as rows of `b`: where the byte at `x` goes. */
  function Spread(x: int, a: int, b: int): int
    requires a > 0
  {
    x / a * b + x % a
  }

  lemma SpreadBack(x: nat, a: nat, b: nat, rows: nat)
    requires 0 < a && 0 < b && x < rows * a && x % a < b
    ensures 0 <= Spread(x, a, b) < rows * b
    ensures Spread(x, a, b) % b == x % a && Spread(Spread(x, a, b), b, a) == x
  {
    var r, j := x / a, x % a;
    FloorDiv(x, a);
    ScaleOrder(-1, r, a);
    ScaleOrder(r, rows, a);
    ScaleMonotone(b, r + 1, rows);
    ScaleMonotone(b, 0, r);
    RowIs(r, j, b);
  }

  /** The image byte that holds byte `k` of the context. */
  function Hw(k: int): int
    requires 0 <= k < CTX_SIZE
  {
    if k < TX16 then k
    else if k < TX32 then 4 + Spread(k - TX16, 2, 4)
    else if k < COEF then 12 + Spread(k - TX32, 3, 4)
    else if k < INTERP_FILTER then 20 + Spread(k - COEF, 3, 4)
    else if k < IS_INTER then 2356 + Spread(k - INTERP_FILTER, 2, 4)
    else if k < COMP_MODE then 2372 + (k - IS_INTER)
    else if k < SINGLE_REF then 2376 + (k - COMP_MODE)
    else if k < COMP_REF then 2392 + Spread(k - SINGLE_REF, 2, 4)
    else if k < Y_MODE then 2384 + (k - COMP_REF)
    else if k < PARTITION then 2416 + Spread(k - Y_MODE, 9, 16)
    else if k < MV_SIGN then 2640 + Spread(k - PARTITION, 3, 4)
    else MvBase(MvComponent(k)) + HwMv(MvComponent(k), k)
  }

  /** Where component `i` of the motion vector tables starts: the components are swapped. */
  function MvBase(i: int): int {
    MV_IMAGE + (1 - i) * 0x30
  }

  function HwMv(i: int, k: int): int {
    if k < MV_CLASSES then 0
    else if k < MV_CLASS0_BIT then 0x0c + (k - MV_CLASSES - 10 * i)
    else if k < MV_BITS then 1
    else if k < MV_CLASS0_FR then 0x1c + (k - MV_BITS - 10 * i)
    else if k < MV_CLASS0_FR + 6 * i + 3 then 0x04 + (k - MV_CLASS0_FR - 6 * i)
    else if k < MV_CLASS0_FR + 6 * i + 6 then 0x08 + (k - MV_CLASS0_FR - 6 * i - 3)
    else if k < MV_CLASS0_HP then 0x28 + (k - MV_FR - 3 * i)
    else if k < MV_HP then 2
    else 3
  }

  const PAD := -1

  /** Image byte `q` of a table of rows of `size` bytes, `stride` bytes apart. */
  function Row(q: int, size: nat, stride: nat, off: int): int
    requires stride > 0
  {
    if q % stride < size then off + Spread(q, stride, size) else PAD
  }

  /** The context byte that image byte `q` holds, or PAD. */
  function Src(q: int): int {
    if q < 4 then Row(q, 2, 4, TX8)
    else if q < 12 then Row(q - 4, 2, 4, TX16)
    else if q < 20 then Row(q - 12, 3, 4, TX32)
    else if q < 2356 then Row(q - 20, 3, 4, COEF)
    else if q < 2372 then Row(q - 2356, 2, 4, INTERP_FILTER)
    else if q < 2376 then IS_INTER + (q - 2372)
    else if q < 2384 then (if q < 2381 then COMP_MODE + (q - 2376) else PAD)
    else if q < 2392 then (if q < 2389 then COMP_REF + (q - 2384) else PAD)
    else if q < 2412 then Row(q - 2392, 2, 4, SINGLE_REF)
    else if q < 2416 then PAD
    else if q < 2640 then Row(q - 2416, 9, 16, Y_MODE)
    else if q < MV_IMAGE then Row(q - 2640, 3, 4, PARTITION)
    else if q < MV_IMAGE + 0x30 then SrcMv(1, q - MV_IMAGE)
    else SrcMv(0, q - MV_IMAGE - 0x30)
  }

  function SrcMv(i: int, at: int): int {
    if at == 0 then MV_SIGN + i
    else if at == 1 then MV_CLASS0_BIT + i
    else if at == 2 then MV_CLASS0_HP + i
    else if at == 3 then MV_HP + i
    else if 0x04 <= at < 0x07 then MV_CLASS0_FR + 6 * i + (at - 0x04)
    else if 0x08 <= at < 0x0b then MV_CLASS0_FR + 6 * i + 3 + (at - 0x08)
    else if 0x0c <= at < 0x16 then MV_CLASSES + 10 * i + (at - 0x0c)
    else if 0x1c <= at < 0x26 then MV_BITS + 10 * i + (at - 0x1c)
    else if 0x28 <= at < 0x2b then MV_FR + 3 * i + (at - 0x28)
    else PAD
  }

  /** No two context bytes share an image byte, and none lies in the segmentation bytes. */
  lemma SrcOfHw(k: int)
    requires 0 <= k < CTX_SIZE
    ensures 0 <= Hw(k) < TREE_PROBS && Src(Hw(k)) == k
  {
    hide Spread, MvComponent, HwMv, SrcMv;
    if k < TX16 { SpreadBack(k, 2, 4, 1); SpreadSmall(k); }
    else if k < TX32 { SpreadBack(k - TX16, 2, 4, 2); }
    else if k < COEF { SpreadBack(k - TX32, 3, 4, 2); }
    else if k < INTERP_FILTER { SpreadBack(k - COEF, 3, 4, 584); }
    else if k < IS_INTER { SpreadBack(k - INTERP_FILTER, 2, 4, 4); }
    else if SINGLE_REF <= k < COMP_REF { SpreadBack(k - SINGLE_REF, 2, 4, 5); }
    else if Y_MODE <= k < PARTITION { SpreadBack(k - Y_MODE, 9, 16, 14); }
    else if PARTITION <= k < MV_SIGN { SpreadBack(k - PARTITION, 3, 4, 17); }
    else if k >= MV_SIGN { SrcOfHwMv(k); }
  }

  lemma SpreadSmall(k: int)
    requires 0 <= k < 2
    ensures Spread(k, 2, 4) == k && Spread(k, 4, 2) == k
  {
  }

  lemma SrcOfHwMv(k: int)
    requires MV_SIGN <= k < CTX_SIZE
    ensures 0 <= MvComponent(k) < 2 && 0 <= HwMv(MvComponent(k), k) < 0x2c
    ensures SrcMv(MvComponent(k), HwMv(MvComponent(k), k)) == k
  {
  }

  /** Every image byte that is no padding holds a context byte, which is found there. */
  lemma HwOfSrc(q: int)
    requires 0 <= q < HW_SIZE
    ensures Src(q) == PAD || (0 <= Src(q) < CTX_SIZE && Hw(Src(q)) == q)
  {
    hide Spread, MvComponent, HwMv, SrcMv;
    if Src(q) == PAD {
    } else if q < 4 { SpreadBack(q, 4, 2, 1); SpreadSmall(q); }
    else if q < 12 { SpreadBack(q - 4, 4, 2, 2); }
    else if q < 20 { SpreadBack(q - 12, 4, 3, 2); }
    else if q < 2356 { SpreadBack(q - 20, 4, 3, 584); }
    else if q < 2372 { SpreadBack(q - 2356, 4, 2, 4); }
    else if 2392 <= q < 2412 { SpreadBack(q - 2392, 4, 2, 5); }
    else if 2416 <= q < 2640 { SpreadBack(q - 2416, 16, 9, 14); }
    else if 2640 <= q < MV_IMAGE { SpreadBack(q - 2640, 4, 3, 17); }
    else if MV_IMAGE <= q < MV_IMAGE + 0x30 { HwOfSrcMv(1, q - MV_IMAGE); }
    else if MV_IMAGE + 0x30 <= q { HwOfSrcMv(0, q - MV_IMAGE - 0x30); }
  }

  lemma HwOfSrcMv(i: int, at: int)
    requires 0 <= i < 2 && 0 <= at < 0x38
    ensures var k := SrcMv(i, at);
      k == PAD || (MV_SIGN <= k < CTX_SIZE && MvComponent(k) == i && HwMv(i, k) == at)
  {
  }

  function ImageByte(ctx: Context, q: int): byte
    requires 0 <= q < HW_SIZE
  {
    if 0 <= Src(q) < CTX_SIZE then ctx[Src(q)] else 0
  }

  function ImageOf(ctx: Context): Image {
    seq(HW_SIZE, q requires 0 <= q < HW_SIZE => ImageByte(ctx, q))
  }

  function Overlay(hw: Image, seg: Segmentation): Image
    requires seg.Valid()
  {
    if seg.enabled then
      seq(HW_SIZE, q requires 0 <= q < HW_SIZE =>
        if TREE_PROBS <= q < TREE_PROBS + 7 then seg.treeProbs[q - TREE_PROBS]
        else if PRED_PROBS <= q < PRED_PROBS + 3 then seg.predProbs[q - PRED_PROBS]
        else hw[q])
    else hw
  }

  function HwByte(hw: Image, k: int): byte
    requires 0 <= k < CTX_SIZE
  {
    SrcOfHw(k);
    hw[Hw(k)]
  }

  function Unpacked(hw: Image): Context {
    seq(CTX_SIZE, k requires 0 <= k < CTX_SIZE => HwByte(hw, k))
  }

  // The round trips.

  /** Unpacking an image gives back the whole context, whatever the segmentation wrote. */
  lemma UnpackInvertsPack(ctx: Context, seg: Segmentation)
    requires seg.Valid()
    ensures Unpacked(Overlay(ImageOf(ctx), seg)) == ctx
  {
    forall k | 0 <= k < CTX_SIZE ensures Unpacked(Overlay(ImageOf(ctx), seg))[k] == ctx[k] {
      SrcOfHw(k);
    }
  }

  /** The segmentation probabilities are in the image too. */
  lemma SegmentationRecovered(ctx: Context, seg: Segmentation)
    requires seg.Valid() && seg.enabled
    ensures Overlay(ImageOf(ctx), seg)[0xaf0..0xaf7] == seg.treeProbs
    ensures Overlay(ImageOf(ctx), seg)[0xaf8..0xafb] == seg.predProbs
  {
  }

  // Where everything is, in numbers.

  /** Row `r` of a table, at its distance from the start of the table. */
  lemma RowPlace(r: nat, j: nat, size: nat, stride: nat, off: int)
    requires 0 < stride && j < size <= stride
    ensures Row(stride * r + j, size, stride, off) == off + size * r + j
  {
    RowIs(r, j, stride);
    assert stride * r == r * stride && size * r == r * size;
  }

  /** The image of a context below any segmentation. */
  function Packed(ctx: Context, seg: Segmentation): Image
    requires seg.Valid()
  {
    Overlay(ImageOf(ctx), seg)
  }

  lemma PackedAt(ctx: Context, seg: Segmentation, q: nat, k: int)
    requires seg.Valid() && q < 0xaf0 && 0 <= k < CTX_SIZE && Src(q) == k
    ensures Packed(ctx, seg)[q] == ctx[k]
  {
    hide Src;
  }

  /** Transform sizes. */
  lemma TransformPlaces(ctx: Context, seg: Segmentation, i: nat, j: nat)
    requires seg.Valid() && i < 2 && j < 3
    ensures Packed(ctx, seg)[i] == ctx[TX8 + i]
    ensures j < 2 ==> Packed(ctx, seg)[4 + 4 * i + j] == ctx[TX16 + 2 * i + j]
    ensures Packed(ctx, seg)[12 + 4 * i + j] == ctx[TX32 + 3 * i + j]
  {
    hide Overlay, ImageOf, Row, Packed;
    RowPlace(0, i, 2, 4, TX8);
    PackedAt(ctx, seg, i, TX8 + i);
    RowPlace(i, j, 3, 4, TX32);
    PackedAt(ctx, seg, 12 + 4 * i + j, TX32 + 3 * i + j);
    if j < 2 {
      RowPlace(i, j, 2, 4, TX16);
      PackedAt(ctx, seg, 4 + 4 * i + j, TX16 + 2 * i + j);
    }
  }

  /** Coefficients. */
  lemma CoefPlaces(ctx: Context, seg: Segmentation, b: nat, j: nat)
    requires seg.Valid() && b < 576 && j < 3
    ensures Packed(ctx, seg)[20 + 4 * b + j] == ctx[COEF + 3 * b + j]
  {
    hide Overlay, ImageOf, Row, Packed;
    RowPlace(b, j, 3, 4, COEF);
    PackedAt(ctx, seg, 20 + 4 * b + j, COEF + 3 * b + j);
  }

  /** Skip flags, inter modes, filters, intra flags and references. */
  lemma FramePlaces(ctx: Context, seg: Segmentation, i: nat, j: nat)
    requires seg.Valid()
    ensures j < 3 ==> Packed(ctx, seg)[2324 + j] == ctx[SKIP + j]
    ensures i < 7 && j < 3 ==> Packed(ctx, seg)[2328 + 4 * i + j] == ctx[INTER_MODE + 3 * i + j]
    ensures i < 4 && j < 2 ==> Packed(ctx, seg)[2356 + 4 * i + j] == ctx[INTERP_FILTER + 2 * i + j]
    ensures i < 4 ==> Packed(ctx, seg)[2372 + i] == ctx[IS_INTER + i]
    ensures i < 5 ==> Packed(ctx, seg)[2376 + i] == ctx[COMP_MODE + i]
    ensures i < 5 ==> Packed(ctx, seg)[2384 + i] == ctx[COMP_REF + i]
    ensures i < 5 && j < 2 ==> Packed(ctx, seg)[2392 + 4 * i + j] == ctx[SINGLE_REF + 2 * i + j]
  {
    hide Overlay, ImageOf, Row, Packed;
    if j < 3 {
      RowPlace(576, j, 3, 4, COEF);
      PackedAt(ctx, seg, 2324 + j, SKIP + j);
    }
    if i < 7 && j < 3 {
      RowPlace(577 + i, j, 3, 4, COEF);
      PackedAt(ctx, seg, 2328 + 4 * i + j, INTER_MODE + 3 * i + j);
    }
    if i < 4 && j < 2 {
      RowPlace(i, j, 2, 4, INTERP_FILTER);
      PackedAt(ctx, seg, 2356 + 4 * i + j, INTERP_FILTER + 2 * i + j);
    }
    if i < 4 { PackedAt(ctx, seg, 2372 + i, IS_INTER + i); }
    if i < 5 {
      PackedAt(ctx, seg, 2376 + i, COMP_MODE + i);
      PackedAt(ctx, seg, 2384 + i, COMP_REF + i);
    }
    if i < 5 && j < 2 {
      RowPlace(i, j, 2, 4, SINGLE_REF);
      PackedAt(ctx, seg, 2392 + 4 * i + j, SINGLE_REF + 2 * i + j);
    }
  }

  /** Prediction modes. */
  lemma ModePlaces(ctx: Context, seg: Segmentation, i: nat, j: nat)
    requires seg.Valid()
    ensures i < 4 && j < 9 ==> Packed(ctx, seg)[2416 + 16 * i + j] == ctx[Y_MODE + 9 * i + j]
    ensures i < 10 && j < 9 ==> Packed(ctx, seg)[2480 + 16 * i + j] == ctx[UV_MODE + 9 * i + j]
  {
    hide Overlay, ImageOf, Row, Packed;
    if i < 4 && j < 9 {
      RowPlace(i, j, 9, 16, Y_MODE);
      PackedAt(ctx, seg, 2416 + 16 * i + j, Y_MODE + 9 * i + j);
    }
    if i < 10 && j < 9 {
      RowPlace(4 + i, j, 9, 16, Y_MODE);
      PackedAt(ctx, seg, 2480 + 16 * i + j, UV_MODE + 9 * i + j);
    }
  }

  /** Partitions and motion vector joints. */
  lemma PartitionPlaces(ctx: Context, seg: Segmentation, i: nat, j: nat)
    requires seg.Valid() && i < 16 && j < 3
    ensures Packed(ctx, seg)[2640 + 4 * i + j] == ctx[PARTITION + 3 * i + j]
    ensures Packed(ctx, seg)[2704 + j] == ctx[MV + j]
  {
    hide Overlay, ImageOf, Row, Packed;
    RowPlace(i, j, 3, 4, PARTITION);
    PackedAt(ctx, seg, 2640 + 4 * i + j, PARTITION + 3 * i + j);
    RowPlace(16, j, 3, 4, PARTITION);
    PackedAt(ctx, seg, 2704 + j, MV + j);
  }

  /** The motion vector components, the second one first: their single probabilities, */
  lemma MvFlagPlaces(ctx: Context, seg: Segmentation, i: nat)
    requires seg.Valid() && i < 2
    ensures var p, base := Packed(ctx, seg), 0xa94 + (1 - i) * 0x30;
      && p[base] == ctx[MV_SIGN + i] && p[base + 1] == ctx[MV_CLASS0_BIT + i]
      && p[base + 2] == ctx[MV_CLASS0_HP + i] && p[base + 3] == ctx[MV_HP + i]
  {
    hide Overlay, ImageOf, Packed, Src;
    MvPlace(ctx, seg, i, 0, MV_SIGN + i);
    MvPlace(ctx, seg, i, 1, MV_CLASS0_BIT + i);
    MvPlace(ctx, seg, i, 2, MV_CLASS0_HP + i);
    MvPlace(ctx, seg, i, 3, MV_HP + i);
  }

  /** their fractions, */
  lemma MvFractionPlaces(ctx: Context, seg: Segmentation, i: nat, j: nat)
    requires seg.Valid() && i < 2 && j < 3
    ensures var p, base := Packed(ctx, seg), 0xa94 + (1 - i) * 0x30;
      && p[base + 0x04 + j] == ctx[MV_CLASS0_FR + 6 * i + j]
      && p[base + 0x08 + j] == ctx[MV_CLASS0_FR + 6 * i + 3 + j]
      && p[base + 0x28 + j] == ctx[MV_FR + 3 * i + j]
  {
    hide Overlay, ImageOf, Packed, Src;
    MvPlace(ctx, seg, i, 0x04 + j, MV_CLASS0_FR + 6 * i + j);
    MvPlace(ctx, seg, i, 0x08 + j, MV_CLASS0_FR + 6 * i + 3 + j);
    MvPlace(ctx, seg, i, 0x28 + j, MV_FR + 3 * i + j);
  }

  /** and their classes and integer bits. */
  lemma MvClassPlaces(ctx: Context, seg: Segmentation, i: nat, j: nat)
    requires seg.Valid() && i < 2 && j < 10
    ensures var p, base := Packed(ctx, seg), 0xa94 + (1 - i) * 0x30;
      p[base + 0x0c + j] == ctx[MV_CLASSES + 10 * i + j] && p[base + 0x1c + j] == ctx[MV_BITS + 10 * i + j]
  {
    hide Overlay, ImageOf, Packed, Src;
    MvPlace(ctx, seg, i, 0x0c + j, MV_CLASSES + 10 * i + j);
    MvPlace(ctx, seg, i, 0x1c + j, MV_BITS + 10 * i + j);
  }

  lemma MvPlace(ctx: Context, seg: Segmentation, i: nat, at: nat, k: int)
    requires seg.Valid() && i < 2 && at < 0x2b && 0 <= k < CTX_SIZE && SrcMv(i, at) == k
    ensures Packed(ctx, seg)[0xa94 + (1 - i) * 0x30 + at] == ctx[k]
  {
    hide Overlay, ImageOf, Packed, SrcMv;
    PackedAt(ctx, seg, 0xa94 + (1 - i) * 0x30 + at, k);
  }

  predicate PaddingIsZero(hw: Image) {
    forall q | 0 <= q < HW_SIZE && Src(q) == PAD :: hw[q] == 0
  }

  /** Packing again what was unpacked gives the image back exactly when its padding is zero. */
  lemma RepackIff(hw: Image)
    ensures ImageOf(Unpacked(hw)) == hw <==> PaddingIsZero(hw)
  {
    forall q | 0 <= q < HW_SIZE ensures Src(q) != PAD ==> ImageOf(Unpacked(hw))[q] == hw[q] {
      HwOfSrc(q);
    }
    if !PaddingIsZero(hw) {
      var q :| 0 <= q < HW_SIZE && Src(q) == PAD && hw[q] != 0;
      assert ImageOf(Unpacked(hw))[q] == 0;
    }
  }

  /** The padding of a driver's image is zero unless segmentation left a probability in it. */
  lemma DriverPaddingIff(ctx: Context, seg: Segmentation)
    requires seg.Valid()
    ensures PaddingIsZero(Overlay(ImageOf(ctx), seg)) <==>
      !seg.enabled || seg.AllZero()
  {
    var hw := Overlay(ImageOf(ctx), seg);
    forall i | 0 <= i < 7 && seg.enabled ensures Src(TREE_PROBS + i) == PAD && hw[TREE_PROBS + i] == seg.treeProbs[i] {
    }
    forall i | 0 <= i < 3 && seg.enabled ensures Src(PRED_PROBS + i) == PAD && hw[PRED_PROBS + i] == seg.predProbs[i] {
    }
  }

  // The driver's packer.

  ghost predicate Copied(buf: seq<byte>, was: seq<byte>, at: int, src: seq<byte>, off: int, n: int)
    requires 0 <= off <= off + n <= |src|
  {
    && |buf| == |was|
    && forall q | 0 <= q < |buf| :: buf[q] == if at <= q < at + n then src[off + (q - at)] else was[q]
  }

  /** memcpy() */
  method Copy(buf: array<byte>, at: nat, src: seq<byte>, off: nat, n: nat)
    requires at + n <= buf.Length && off + n <= |src|
    modifies buf
    ensures Copied(buf[..], old(buf[..]), at, src, off, n)
  {
    for j := 0 to n
      invariant Copied(buf[..], old(buf[..]), at, src, off, j)
    {
      buf[at + j] := src[off + j];
    }
  }

  /** The image is complete below the cursor and untouched above it. */
  ghost predicate PackedTo(buf: seq<byte>, ctx: Context, dst: int) {
    && |buf| == HW_SIZE
    && forall q | 0 <= q < HW_SIZE :: buf[q] == if q < dst then ImageByte(ctx, q) else 0
  }

  /** The bytes dst..dst + stride of the image hold `size` bytes of the context from `off`, then padding. */
  ghost predicate Field(dst: int, off: int, size: int, stride: int) {
    && 0 <= off <= off + size <= CTX_SIZE && 0 <= dst <= dst + stride <= HW_SIZE
    && forall q | dst <= q < dst + stride :: Src(q) == if q < dst + size then off + (q - dst) else PAD
  }

  /** cedrus_vp9_pack_word and its wider kin: a copy that moves the cursor by `stride`. */
  method PackField(buf: array<byte>, dst: nat, ctx: Context, off: nat, size: nat, stride: nat) returns (next: nat)
    requires PackedTo(buf[..], ctx, dst) && Field(dst, off, size, stride) && size <= stride
    modifies buf
    ensures next == dst + stride && PackedTo(buf[..], ctx, next)
  {
    hide Src;
    Copy(buf, dst, ctx, off, size);
    next := dst + stride;
  }

  method PackBlockProbs(buf: array<byte>, ctx: Context) returns (dst: nat)
    requires PackedTo(buf[..], ctx, 0)
    modifies buf
    ensures dst == 2376 && PackedTo(buf[..], ctx, dst)
  {
    hide PackedTo;
    dst := PackField(buf, 0, ctx, TX8, 2, 4);
    dst := PackField(buf, dst, ctx, TX16, 2, 4);
    dst := PackField(buf, dst, ctx, TX16 + 2, 2, 4);
    dst := PackField(buf, dst, ctx, TX32, 3, 4);
    dst := PackField(buf, dst, ctx, TX32 + 3, 3, 4);
    dst := PackCoefProbs(buf, dst, ctx);
    dst := PackFrameProbs(buf, dst, ctx);
  }

  method PackCoefProbs(buf: array<byte>, from: nat, ctx: Context) returns (dst: nat)
    requires from == 20 && PackedTo(buf[..], ctx, from)
    modifies buf
    ensures dst == 2324 && PackedTo(buf[..], ctx, dst)
  {
    hide PackedTo;
    dst := from;
    for b := 0 to 4 * 2 * 2 * 6 * 6
      invariant dst == 20 + 4 * b && PackedTo(buf[..], ctx, dst)
    {
      dst := PackField(buf, dst, ctx, COEF + 3 * b, 3, 4);
    }
  }

  method PackFrameProbs(buf: array<byte>, from: nat, ctx: Context) returns (dst: nat)
    requires from == 2324 && PackedTo(buf[..], ctx, from)
    modifies buf
    ensures dst == 2376 && PackedTo(buf[..], ctx, dst)
  {
    hide PackedTo;
    dst := PackField(buf, from, ctx, SKIP, 3, 4);
    for i := 0 to 7
      invariant dst == 2328 + 4 * i && PackedTo(buf[..], ctx, dst)
    {
      dst := PackField(buf, dst, ctx, INTER_MODE + 3 * i, 3, 4);
    }
    for i := 0 to 4
      invariant dst == 2356 + 4 * i && PackedTo(buf[..], ctx, dst)
    {
      dst := PackField(buf, dst, ctx, INTERP_FILTER + 2 * i, 2, 4);
    }
    dst := PackField(buf, dst, ctx, IS_INTER, 4, 4);
  }

  method PackReferenceProbs(buf: array<byte>, from: nat, ctx: Context) returns (dst: nat)
    requires from == 2376 && PackedTo(buf[..], ctx, from)
    modifies buf
    ensures dst == 2416 && PackedTo(buf[..], ctx, dst)
  {
    hide PackedTo;
    dst := PackField(buf, from, ctx, COMP_MODE, 5, 8);
    dst := PackField(buf, dst, ctx, COMP_REF, 5, 8);
    for i := 0 to 5
      invariant dst == 2392 + 4 * i && PackedTo(buf[..], ctx, dst)
    {
      dst := PackField(buf, dst, ctx, SINGLE_REF + 2 * i, 2, 4);
    }
    dst := PackField(buf, dst, ctx, 0, 0, 4);
  }

  method PackModeProbs(buf: array<byte>, from: nat, ctx: Context) returns (dst: nat)
    requires from == 2416 && PackedTo(buf[..], ctx, from)
    modifies buf
    ensures dst == MV_IMAGE && PackedTo(buf[..], ctx, dst)
  {
    hide PackedTo;
    dst := from;
    for i := 0 to 4
      invariant dst == 2416 + 16 * i && PackedTo(buf[..], ctx, dst)
    {
      dst := PackField(buf, dst, ctx, Y_MODE + 9 * i, 9, 16);
    }
    for i := 0 to 10
      invariant dst == 2480 + 16 * i && PackedTo(buf[..], ctx, dst)
    {
      dst := PackField(buf, dst, ctx, UV_MODE + 9 * i, 9, 16);
    }
    for i := 0 to 16
      invariant dst == 2640 + 4 * i && PackedTo(buf[..], ctx, dst)
    {
      dst := PackField(buf, dst, ctx, PARTITION + 3 * i, 3, 4);
    }
    dst := PackField(buf, dst, ctx, MV, 3, 4);
  }

  /** `buf` is `was` with the first `to` bytes of one motion vector component filled in. */
  ghost predicate ComponentPacked(buf: seq<byte>, was: seq<byte>, ctx: Context, i: int, to: int) {
    && |buf| == |was| == HW_SIZE
    && forall q | 0 <= q < HW_SIZE ::
         var k := SrcMv(i, q - MvBase(i));
         buf[q] == if MvBase(i) <= q < MvBase(i) + to && 0 <= k < CTX_SIZE then ctx[k] else was[q]
  }

  method PackMvTable(buf: array<byte>, ghost was: seq<byte>, ctx: Context, i: nat, at: nat, off: nat, n: nat, to: nat)
    requires i < 2 && at + n <= to <= 0x30 && off + n <= CTX_SIZE && ComponentPacked(buf[..], was, ctx, i, at)
    requires forall q | at <= q < to :: SrcMv(i, q) == if q < at + n then off + (q - at) else PAD
    modifies buf
    ensures ComponentPacked(buf[..], was, ctx, i, to)
  {
    hide SrcMv;
    Copy(buf, MvBase(i) + at, ctx, off, n);
  }

  /** The body of the packer's loop over the motion vector components, which the Python tool repeats. */
  method PackComponent(buf: array<byte>, ctx: Context, i: nat)
    requires i < 2 && buf.Length == HW_SIZE
    modifies buf
    ensures ComponentPacked(buf[..], old(buf[..]), ctx, i, 0x30)
  {
    ghost var was := buf[..];
    assert ComponentPacked(buf[..], was, ctx, i, 0);
    hide ComponentPacked;
    PackMvTable(buf, was, ctx, i, 0, MV_SIGN + i, 1, 1);
    PackMvTable(buf, was, ctx, i, 1, MV_CLASS0_BIT + i, 1, 2);
    PackMvTable(buf, was, ctx, i, 2, MV_CLASS0_HP + i, 1, 3);
    PackMvTable(buf, was, ctx, i, 3, MV_HP + i, 1, 4);
    PackMvTable(buf, was, ctx, i, 0x04, MV_CLASS0_FR + 6 * i, 3, 0x08);
    PackMvTable(buf, was, ctx, i, 0x08, MV_CLASS0_FR + 6 * i + 3, 3, 0x0c);
    PackMvTable(buf, was, ctx, i, 0x0c, MV_CLASSES + 10 * i, 10, 0x1c);
    PackMvTable(buf, was, ctx, i, 0x1c, MV_BITS + 10 * i, 10, 0x28);
    PackMvTable(buf, was, ctx, i, 0x28, MV_FR + 3 * i, 3, 0x30);
  }

  /** The context part of the image, common to the driver and the tool. */
  method PackContext(buf: array<byte>, ctx: Context) returns (dst: nat)
    requires buf.Length == HW_SIZE && forall q | 0 <= q < HW_SIZE :: buf[q] == 0
    modifies buf
    ensures dst == MV_IMAGE && buf[..] == ImageOf(ctx)
  {
    dst := PackBlockProbs(buf, ctx);
    dst := PackReferenceProbs(buf, dst, ctx);
    dst := PackModeProbs(buf, dst, ctx);
    ghost var was := buf[..];
    PackComponent(buf, ctx, 0);
    ghost var half := buf[..];
    PackComponent(buf, ctx, 1);
    BothComponents(buf[..], half, was, ctx);
  }

  lemma BothComponents(buf: seq<byte>, half: seq<byte>, was: seq<byte>, ctx: Context)
    requires PackedTo(was, ctx, MV_IMAGE)
    requires ComponentPacked(half, was, ctx, 0, 0x30) && ComponentPacked(buf, half, ctx, 1, 0x30)
    ensures buf == ImageOf(ctx)
  {
    forall q | 0 <= q < HW_SIZE ensures buf[q] == ImageByte(ctx, q) {
    }
  }

  /** cedrus_vp9_pack_probs: the final cursor is the one that its WARN_ON expects. */
  method PackProbs(buf: array<byte>, ctx: Context, seg: Segmentation) returns (dst: nat)
    requires buf.Length == HW_SIZE && seg.Valid()
    modifies buf
    ensures dst == MV_IMAGE
    ensures buf[..] == Overlay(ImageOf(ctx), seg)
  {
    for q := 0 to HW_SIZE
      invariant forall j | 0 <= j < q :: buf[j] == 0
    {
      buf[q] := 0;
    }
    dst := PackContext(buf, ctx);
    if seg.enabled {
      Copy(buf, TREE_PROBS, seg.treeProbs, 0, 7);
      Copy(buf, PRED_PROBS, seg.predProbs, 0, 3);
    }
    assert buf[..] == Overlay(ImageOf(ctx), seg);
  }
}
