/** The Python tool that turns a wanted probability context into a key frame's compressed-header deltas. */
module Vp9ProbsTool {
  import opened Words
  import opened Vp9Layout
  import opened Vp9ForwardUpdate
  import opened Vp9Pack

  /** inverse_delta: the least delta that takes `old` to `new`; None where the tool raises ValueError. */
  method InverseDelta(oldProb: byte, newProb: byte) returns (r: Option<byte>)
    ensures r.Some? ==> UpdateProb(r.value, oldProb) == newProb
    ensures r.Some? ==> forall d | 0 <= d < r.value :: UpdateProb(d, oldProb) != newProb
    ensures r.None? ==> forall d | 0 <= d < 256 :: UpdateProb(d, oldProb) != newProb
  {
    if oldProb == newProb {
      return Some(0);
    }
    for delta := 1 to 256
      invariant forall d | 0 <= d < delta :: UpdateProb(d, oldProb) != newProb
    {
      if UpdateProb(delta, oldProb) == newProb {
        return Some(delta);
      }
    }
    return None;
  }

  ghost predicate Reachable(oldProb: byte, newProb: byte) {
    exists d: byte :: UpdateProb(d, oldProb) == newProb
  }

  /** The delta that reaches `newProb`, read off the inverse permutation. */
  function DeltaFor(oldProb: byte, newProb: byte): int {
    if oldProb <= 128 then RecenterNonneg(newProb - 1, oldProb - 1)
    else RecenterNonneg(255 - newProb, 255 - oldProb)
  }

  lemma DeltaForReaches(oldProb: byte, newProb: byte)
    requires oldProb >= 1 && (oldProb <= 128 ==> newProb >= 1)
    ensures 0 <= DeltaFor(oldProb, newProb) <= 255 && UpdateProb(DeltaFor(oldProb, newProb), oldProb) == newProb
    ensures newProb >= 1 ==> DeltaFor(oldProb, newProb) <= 254
  {
    if oldProb <= 128 {
      RecenterPermutes(oldProb - 1, 254, newProb - 1);
    } else {
      RecenterPermutes(255 - oldProb, 255, 255 - newProb);
      if newProb >= 1 { RecenterPermutes(255 - oldProb, 254, 255 - newProb); }
    }
  }

  /** No other delta reaches it. */
  lemma DeltaForIsOnly(oldProb: byte, newProb: byte, delta: byte)
    requires oldProb >= 1 && UpdateProb(delta, oldProb) == newProb
    ensures delta == DeltaFor(oldProb, newProb)
  {
    RecenterPermutes(if oldProb <= 128 then oldProb - 1 else 255 - oldProb, 255, delta);
  }

  lemma NoDeltaReachesZero(oldProb: byte, delta: byte)
    requires 1 <= oldProb <= 128
    ensures UpdateProb(delta, oldProb) >= 1
  {
    RecenterPermutes(oldProb - 1, 255, delta);
  }

  /** Exactly which updates exist, over all pairs of bytes; between usable probabilities every one does. */
  lemma ReachableIff(oldProb: byte, newProb: byte)
    ensures Reachable(oldProb, newProb) <==> !(oldProb == 0 && newProb == 1) && !(1 <= oldProb <= 128 && newProb == 0)
  {
    if oldProb == 0 {
      assert newProb > 1 ==> UpdateProb(newProb - 1, 0) == newProb;
      assert UpdateProb(0, 0) == 0;
    } else if oldProb <= 128 && newProb == 0 {
      forall d: byte ensures UpdateProb(d, oldProb) != newProb {
        NoDeltaReachesZero(oldProb, d);
      }
    } else {
      DeltaForReaches(oldProb, newProb);
    }
  }

  /** The positions that the tool processes for a transform mode. */
  predicate Processed(k: int, txMode: nat) {
    || (TX8 <= k < COEF && txMode == TX_MODE_SELECT)
    || (COEF <= k < SKIP && (k - COEF) / TX_COEFS < Min(txMode, 3) + 1
        && (k - COEF) % BAND_COEFS < (if (k - COEF) / BAND_COEFS % 6 == 0 then 9 else 18))
    || SKIP <= k < INTER_MODE
  }

  function KeyFrameHeader(txMode: nat): FrameHeader {
    FrameHeader(true, false, false, false, false, false, 0, 0, 0, SingleReference, txMode)
  }

  /** The tool and the driver agree on what a key frame updates. */
  lemma ProcessedIsRecentered(k: int, h: FrameHeader)
    requires 0 <= k < CTX_SIZE && h.FrameIsIntra() && h.Valid()
    ensures Processed(k, h.txMode) <==> RuleAt(k, h) == Recenter
    ensures RuleAt(k, h) != Replace
  {
    if COEF <= k < SKIP {
      ProcessedCoef(k - COEF);
    }
  }

  /** Both ways to tell the padding of band 0. */
  lemma ProcessedCoef(x: int)
    ensures x % BAND_COEFS < (if x / BAND_COEFS % 6 == 0 then 9 else 18) <==> !(9 <= x % BLOCK_COEFS < 18)
  {
  }

  datatype ControlResult =
    | Control(txMode: nat, delta: Context)
    | NoUpdate(index: nat)
    | UnprocessedChange
    | TooShort
    | RoundTripFailed

  /** The targets that some key frame can reach from the default context. */
  ghost predicate Attainable(default_: Context, target: Context, txMode: nat) {
    forall k | 0 <= k < CTX_SIZE ::
      if Processed(k, txMode) then Reachable(default_[k], target[k]) else target[k] == default_[k]
  }

  /** make_keyframe_control: it answers for the attainable targets and for no others, and every key or intra-only
      frame that carries the answer takes the default context to the target. */
  method MakeKeyframeControl(default_: Context, target: Context, txMode: nat) returns (r: ControlResult)
    requires txMode <= TX_MODE_SELECT
    ensures r.Control? <==> Attainable(default_, target, txMode)
    ensures r.Control? ==> r.txMode == txMode
    ensures r.Control? ==> forall h: FrameHeader | h.txMode == txMode && h.FrameIsIntra() && h.Valid() ::
      FwUpdated(default_, r.delta, h) == target
  {
    var delta := new byte[CTX_SIZE](_ => 0);
    for index := 0 to CTX_SIZE
      invariant forall k | 0 <= k < index && Processed(k, txMode) :: UpdateProb(delta[k], default_[k]) == target[k]
    {
      if Processed(index, txMode) {
        var d := InverseDelta(default_[index], target[index]);
        if d.None? {
          assert !Reachable(default_[index], target[index]);
          return NoUpdate(index);
        }
        delta[index] := d.value;
      }
    }
    ghost var deltas := delta[..];
    assert forall k | 0 <= k < CTX_SIZE && Processed(k, txMode) :: Reachable(default_[k], target[k]) by {
      forall k | 0 <= k < CTX_SIZE && Processed(k, txMode) ensures Reachable(default_[k], target[k]) {
        assert UpdateProb(deltas[k], default_[k]) == target[k];
      }
    }
    for i := 0 to CTX_SIZE
      invariant forall k | 0 <= k < i && !Processed(k, txMode) :: target[k] == default_[k]
    {
      var check := if Processed(i, txMode) then UpdateProb(delta[i], default_[i]) else default_[i];
      if check != target[i] {
        return UnprocessedChange;
      }
    }
    r := Control(txMode, delta[..]);
    forall h: FrameHeader | h.txMode == txMode && h.FrameIsIntra() && h.Valid()
      ensures FwUpdated(default_, r.delta, h) == target
    {
      KeyframeReaches(default_, target, r.delta, h);
    }
  }

  lemma KeyframeReaches(default_: Context, target: Context, delta: Context, h: FrameHeader)
    requires h.FrameIsIntra() && h.Valid()
    requires forall k | 0 <= k < CTX_SIZE ::
      if Processed(k, h.txMode) then UpdateProb(delta[k], default_[k]) == target[k] else target[k] == default_[k]
    ensures FwUpdated(default_, delta, h) == target
  {
    hide UpdateProb;
    forall k | 0 <= k < CTX_SIZE ensures FwUpdated(default_, delta, h)[k] == target[k] {
      ProcessedIsRecentered(k, h);
    }
  }

  /** Between usable contexts that agree off the processed positions the tool always answers. */
  lemma UsableIsAttainable(default_: Context, target: Context, txMode: nat)
    requires txMode <= TX_MODE_SELECT
    requires Usable(default_) && Usable(target)
    requires forall k | 0 <= k < CTX_SIZE && !Processed(k, txMode) :: target[k] == default_[k]
    ensures Attainable(default_, target, txMode)
  {
    forall k | 0 <= k < CTX_SIZE && Processed(k, txMode) ensures Reachable(default_[k], target[k]) {
      ProcessedIsRecentered(k, KeyFrameHeader(txMode));
      ReachableIff(default_[k], target[k]);
    }
  }

  // unpack: the way back from the image.

  /** The context bytes that live below the cursor are read. */
  ghost predicate UnpackedTo(ctx: seq<byte>, hw: Image, pos: int) {
    && |ctx| == CTX_SIZE
    && forall k | 0 <= k < CTX_SIZE && Hw(k) < pos :: ctx[k] == HwByte(hw, k)
  }

  method UnpackField(ctx: array<byte>, off: nat, hw: Image, pos: nat, size: nat, stride: nat) returns (next: nat)
    requires UnpackedTo(ctx[..], hw, pos) && Field(pos, off, size, stride) && size <= stride
    modifies ctx
    ensures next == pos + stride && UnpackedTo(ctx[..], hw, next)
  {
    hide Src, Hw;
    Copy(ctx, off, hw, pos, size);
    next := pos + stride;
    forall k | 0 <= k < CTX_SIZE && Hw(k) < next ensures ctx[..][k] == HwByte(hw, k) {
      SrcOfHw(k);
      if off <= k < off + size {
        HwOfSrc(pos + (k - off));
      }
    }
  }

  method UnpackBlockProbs(ctx: array<byte>, hw: Image) returns (pos: nat)
    requires UnpackedTo(ctx[..], hw, 0)
    modifies ctx
    ensures pos == 2324 && UnpackedTo(ctx[..], hw, pos)
  {
    hide UnpackedTo;
    pos := UnpackField(ctx, TX8, hw, 0, 2, 4);
    pos := UnpackField(ctx, TX16, hw, pos, 2, 4);
    pos := UnpackField(ctx, TX16 + 2, hw, pos, 2, 4);
    pos := UnpackField(ctx, TX32, hw, pos, 3, 4);
    pos := UnpackField(ctx, TX32 + 3, hw, pos, 3, 4);
    for b := 0 to 4 * 2 * 2 * 6 * 6
      invariant pos == 20 + 4 * b && UnpackedTo(ctx[..], hw, pos)
    {
      pos := UnpackField(ctx, COEF + 3 * b, hw, pos, 3, 4);
    }
  }

  method UnpackFrameProbs(ctx: array<byte>, hw: Image, from: nat) returns (pos: nat)
    requires from == 2324 && UnpackedTo(ctx[..], hw, from)
    modifies ctx
    ensures pos == 2416 && UnpackedTo(ctx[..], hw, pos)
  {
    hide UnpackedTo;
    pos := UnpackField(ctx, SKIP, hw, from, 3, 4);
    for i := 0 to 7
      invariant pos == 2328 + 4 * i && UnpackedTo(ctx[..], hw, pos)
    {
      pos := UnpackField(ctx, INTER_MODE + 3 * i, hw, pos, 3, 4);
    }
    for i := 0 to 4
      invariant pos == 2356 + 4 * i && UnpackedTo(ctx[..], hw, pos)
    {
      pos := UnpackField(ctx, INTERP_FILTER + 2 * i, hw, pos, 2, 4);
    }
    pos := UnpackField(ctx, IS_INTER, hw, pos, 4, 4);
    pos := UnpackField(ctx, COMP_MODE, hw, pos, 5, 8);
    pos := UnpackField(ctx, COMP_REF, hw, pos, 5, 8);
    for i := 0 to 5
      invariant pos == 2392 + 4 * i && UnpackedTo(ctx[..], hw, pos)
    {
      pos := UnpackField(ctx, SINGLE_REF + 2 * i, hw, pos, 2, 4);
    }
    pos := UnpackField(ctx, 0, hw, pos, 0, 4);
  }

  method UnpackModeProbs(ctx: array<byte>, hw: Image, from: nat) returns (pos: nat)
    requires from == 2416 && UnpackedTo(ctx[..], hw, from)
    modifies ctx
    ensures pos == 0xa90 && UnpackedTo(ctx[..], hw, MV_IMAGE)
  {
    hide UnpackedTo;
    pos := from;
    for i := 0 to 4
      invariant pos == 2416 + 16 * i && UnpackedTo(ctx[..], hw, pos)
    {
      pos := UnpackField(ctx, Y_MODE + 9 * i, hw, pos, 9, 16);
    }
    for i := 0 to 10
      invariant pos == 2480 + 16 * i && UnpackedTo(ctx[..], hw, pos)
    {
      pos := UnpackField(ctx, UV_MODE + 9 * i, hw, pos, 9, 16);
    }
    for i := 0 to 16
      invariant pos == 2640 + 4 * i && UnpackedTo(ctx[..], hw, pos)
    {
      pos := UnpackField(ctx, PARTITION + 3 * i, hw, pos, 3, 4);
    }
    var _ := UnpackField(ctx, MV, hw, pos, 3, 4);
  }

  /** `ctx` is `was` with the bytes of component `i` that lie below `to` in its image read. */
  ghost predicate ComponentUnpacked(ctx: seq<byte>, was: seq<byte>, hw: Image, i: nat, to: int)
    requires i < 2
  {
    && |ctx| == |was| == CTX_SIZE
    && forall k | 0 <= k < CTX_SIZE :: ctx[k] == (
         if MvComponent(k) == i && 0 <= HwMv(i, k) < to <= 0x30 then hw[MvBase(i) + HwMv(i, k)] else was[k])
  }

  method UnpackMvTable(ctx: array<byte>, ghost was: seq<byte>, hw: Image, i: nat, at: nat, off: nat, n: nat, to: nat)
    requires i < 2 && at + n <= to <= 0x30 && off + n <= CTX_SIZE && ComponentUnpacked(ctx[..], was, hw, i, at)
    requires forall q | at <= q < to :: SrcMv(i, q) == if q < at + n then off + (q - at) else PAD
    modifies ctx
    ensures ComponentUnpacked(ctx[..], was, hw, i, to)
  {
    hide SrcMv, HwMv;
    Copy(ctx, off, hw, MvBase(i) + at, n);
    forall k | 0 <= k < CTX_SIZE ensures ctx[..][k] == (
         if MvComponent(k) == i && 0 <= HwMv(i, k) < to then hw[MvBase(i) + HwMv(i, k)] else was[k])
    {
      if off <= k < off + n {
        HwOfSrcMv(i, at + (k - off));
      }
      if MvComponent(k) == i && at <= HwMv(i, k) < to {
        SrcOfHwMv(k);
      }
    }
  }

  method UnpackComponent(ctx: array<byte>, hw: Image, i: nat)
    requires i < 2 && ctx.Length == CTX_SIZE
    modifies ctx
    ensures ComponentUnpacked(ctx[..], old(ctx[..]), hw, i, 0x30)
  {
    ghost var was := ctx[..];
    assert ComponentUnpacked(ctx[..], was, hw, i, 0);
    hide ComponentUnpacked;
    UnpackMvTable(ctx, was, hw, i, 0, MV_SIGN + i, 1, 1);
    UnpackMvTable(ctx, was, hw, i, 1, MV_CLASS0_BIT + i, 1, 2);
    UnpackMvTable(ctx, was, hw, i, 2, MV_CLASS0_HP + i, 1, 3);
    UnpackMvTable(ctx, was, hw, i, 3, MV_HP + i, 1, 4);
    UnpackMvTable(ctx, was, hw, i, 0x04, MV_CLASS0_FR + 6 * i, 3, 0x08);
    UnpackMvTable(ctx, was, hw, i, 0x08, MV_CLASS0_FR + 6 * i + 3, 3, 0x0c);
    UnpackMvTable(ctx, was, hw, i, 0x0c, MV_CLASSES + 10 * i, 10, 0x1c);
    UnpackMvTable(ctx, was, hw, i, 0x1c, MV_BITS + 10 * i, 10, 0x28);
    UnpackMvTable(ctx, was, hw, i, 0x28, MV_FR + 3 * i, 3, 0x30);
  }

  /** unpack: the cursor ends where the tool asserts, on the last word before the motion vector tables. */
  method Unpack(hw: Image) returns (r: Context, pos: nat)
    ensures pos == 0xa90
    ensures r == Unpacked(hw)
  {
    var ctx := new byte[CTX_SIZE](_ => 0);
    assert UnpackedTo(ctx[..], hw, 0) by { forall k | 0 <= k < CTX_SIZE ensures Hw(k) >= 0 { SrcOfHw(k); } }
    pos := UnpackBlockProbs(ctx, hw);
    pos := UnpackFrameProbs(ctx, hw, pos);
    pos := UnpackModeProbs(ctx, hw, pos);
    ghost var was := ctx[..];
    UnpackComponent(ctx, hw, 0);
    ghost var half := ctx[..];
    UnpackComponent(ctx, hw, 1);
    r := ctx[..];
    BothComponentsRead(r, half, was, hw);
  }

  lemma BothComponentsRead(ctx: seq<byte>, half: seq<byte>, was: seq<byte>, hw: Image)
    requires UnpackedTo(was, hw, MV_IMAGE)
    requires ComponentUnpacked(half, was, hw, 0, 0x30) && ComponentUnpacked(ctx, half, hw, 1, 0x30)
    ensures ctx == Unpacked(hw)
  {
    hide HwMv, Spread;
    forall k | 0 <= k < CTX_SIZE ensures ctx[k] == HwByte(hw, k) {
      SrcOfHw(k);
      if k >= MV_SIGN {
        SrcOfHwMv(k);
      } else {
        HwBelowMv(k);
      }
    }
  }

  lemma HwBelowMv(k: int)
    requires 0 <= k < MV_SIGN
    ensures 0 <= Hw(k) < MV_IMAGE && MvComponent(k) == -1
  {
  }

  /** pack: the tool's own packer builds the context part of the driver's image. */
  method Pack(ctx: Context) returns (hw: Image)
    ensures hw == ImageOf(ctx)
  {
    var out := new byte[HW_SIZE](_ => 0);
    var pos := PackContext(out, ctx);
    hw := out[..];
  }

  /** The tool from a captured buffer to the control: it answers exactly for whole images with zero padding that
      some key frame can reach, and for those the control is right. */
  method ControlFromCapture(default_: Context, raw: seq<byte>, offset: nat, txMode: nat) returns (r: ControlResult)
    requires txMode <= TX_MODE_SELECT
    ensures r.Control? <==> (
      offset + HW_SIZE <= |raw|
      && (var hw := raw[offset..offset + HW_SIZE]; PaddingIsZero(hw) && Attainable(default_, Unpacked(hw), txMode)))
    ensures r.Control? ==> forall h: FrameHeader | h.txMode == txMode && h.FrameIsIntra() && h.Valid() ::
      FwUpdated(default_, r.delta, h) == Unpacked(raw[offset..offset + HW_SIZE])
  {
    if offset + HW_SIZE > |raw| {
      return TooShort;
    }
    var hw := raw[offset..offset + HW_SIZE];
    var target, pos := Unpack(hw);
    var again := Pack(target);
    RepackIff(hw);
    if again != hw {
      return RoundTripFailed;
    }
    r := MakeKeyframeControl(default_, target, txMode);
  }

  /** Fed the image of a usable context that the driver packed for a key frame, the tool answers unless segmentation
      left a probability in the padding. */
  lemma CaptureOfDriverImage(default_: Context, ctx: Context, seg: Segmentation, txMode: nat)
    requires txMode <= TX_MODE_SELECT && seg.Valid()
    requires Usable(default_) && Usable(ctx)
    requires forall k | 0 <= k < CTX_SIZE && !Processed(k, txMode) :: ctx[k] == default_[k]
    ensures var hw := Overlay(ImageOf(ctx), seg);
      (PaddingIsZero(hw) && Attainable(default_, Unpacked(hw), txMode)) <==>
      (seg.enabled ==> seg.AllZero())
  {
    UnpackInvertsPack(ctx, seg);
    DriverPaddingIff(ctx, seg);
    UsableIsAttainable(default_, ctx, txMode);
  }

  /** One tree probability is enough to have the image of any context refused. */
  lemma SegmentedImageIsRefused(ctx: Context)
    ensures var seg := Segmentation(true, [1, 0, 0, 0, 0, 0, 0], [0, 0, 0]);
      seg.Valid() && !PaddingIsZero(Overlay(ImageOf(ctx), seg))
  {
    var seg := Segmentation(true, [1, 0, 0, 0, 0, 0, 0], [0, 0, 0]);
    DriverPaddingIff(ctx, seg);
    assert seg.treeProbs[0] != 0;
  }
}
