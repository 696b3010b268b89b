/** The forward update: the probability deltas of a compressed header applied to a frame context. */
module Vp9ForwardUpdate {
  import opened Words
  import opened Vp9Layout

  /** The VP9 process inv_recenter_nonneg. */
  function InvRecenterNonneg(v: nat, m: int): int {
    if v > 2 * m then v
    else if v % 2 == 1 then m - (v + 1) / 2
    else m + v / 2
  }

  /** The way back: where a value at distance w - m from the centre m is coded. */
  function RecenterNonneg(w: int, m: int): int {
    if w > 2 * m then w
    else if w >= m then 2 * (w - m)
    else 2 * (m - w) - 1
  }

  /** On 0..n the two are inverse bijections for every centre m in its lower half. */
  lemma RecenterPermutes(m: nat, n: nat, x: nat)
    requires 2 * m <= n && x <= n
    ensures 0 <= InvRecenterNonneg(x, m) <= n && 0 <= RecenterNonneg(x, m) <= n
    ensures RecenterNonneg(InvRecenterNonneg(x, m), m) == x
    ensures InvRecenterNonneg(RecenterNonneg(x, m), m) == x
  {
  }

  /** The VP9 process inv_remap_prob, past the table that userspace has already applied. */
  function UpdateProb(delta: nat, prob: byte): int {
    if delta == 0 then prob
    else if prob <= 128 then 1 + InvRecenterNonneg(delta, prob - 1)
    else 255 - InvRecenterNonneg(delta, 255 - prob)
  }

  /** The probability stored back into its byte. */
  function UpdateProb8(delta: byte, prob: byte): byte {
    UpdateProb(delta, prob) % 256
  }

  /** A usable probability stays usable under every delta but 255, which always yields 0. */
  lemma UpdateProbUsable(delta: byte, prob: byte)
    requires prob >= 1
    ensures UpdateProb8(delta, prob) >= 1 <==> delta != 255
    ensures delta != 255 ==> UpdateProb8(delta, prob) == UpdateProb(delta, prob)
  {
    var m := if prob <= 128 then prob - 1 else 255 - prob;
    if delta == 255 {
      assert InvRecenterNonneg(255, m) == 255;
    } else {
      RecenterPermutes(m, 254, delta);
      hide InvRecenterNonneg;
    }
  }

  function UpdateMvProb(delta: byte, prob: byte): byte {
    if delta == 0 then prob else delta
  }

  // What the frame does to each byte of the context.

  datatype Rule = Keep | Recenter | Replace

  function RuleAt(k: int, h: FrameHeader): Rule {
    if k < COEF then if h.txMode == TX_MODE_SELECT then Recenter else Keep
    else if k < SKIP then if !Unused(k) && (k - COEF) / TX_COEFS <= h.txMode then Recenter else Keep
    else if k < INTER_MODE then Recenter
    else if h.FrameIsIntra() then Keep
    else if k < INTERP_FILTER then Recenter
    else if k < IS_INTER then if h.interpolationFilter == INTERP_FILTER_SWITCHABLE then Recenter else Keep
    else if k < COMP_MODE then Recenter
    else if k < SINGLE_REF then if h.referenceMode.Select? then Recenter else Keep
    else if k < COMP_REF then if !h.referenceMode.CompoundReference? then Recenter else Keep
    else if k < Y_MODE then if !h.referenceMode.SingleReference? then Recenter else Keep
    else if k < UV_MODE then Recenter
    else if k < PARTITION then Keep
    else if k < MV then Recenter
    else if k < MV_CLASS0_HP || h.highPrecisionMv then Replace
    else Keep
  }

  function Apply(rule: Rule, delta: byte, prob: byte): byte {
    match rule
    case Keep => prob
    case Recenter => UpdateProb8(delta, prob)
    case Replace => UpdateMvProb(delta, prob)
  }

  function FwUpdated(ctx: Context, d: Context, h: FrameHeader): Context {
    seq(CTX_SIZE, k requires 0 <= k < CTX_SIZE => Apply(RuleAt(k, h), d[k], ctx[k]))
  }

  /** Deltas of at most 254 keep a usable context usable. */
  lemma FwUpdatedUsable(ctx: Context, d: Context, h: FrameHeader)
    requires Usable(ctx)
    requires forall k | 0 <= k < CTX_SIZE :: d[k] <= 254
    ensures Usable(FwUpdated(ctx, d, h))
  {
    forall k | 0 <= k < CTX_SIZE && !Unused(k)
      ensures FwUpdated(ctx, d, h)[k] >= 1
    {
      UpdateProbUsable(d[k], ctx[k]);
    }
  }

  // What that means, in numbers.

  /** Small values alternate around the centre, the odd ones below it; larger ones stand for themselves. */
  lemma RecenterDistance(v: nat, m: nat)
    ensures v <= 2 * m ==> InvRecenterNonneg(v, m) - m == (if v % 2 == 1 then -((v + 1) / 2) else v / 2)
    ensures v > 2 * m ==> InvRecenterNonneg(v, m) == v
  {
  }

  /** `post` is the usable probability `pre` moved by `delta`: in turn towards the nearer end and away from it, further
      with each step, and only away from it once it is reached.  The largest delta falls off the far end. */
  predicate Moved(post: byte, pre: byte, delta: byte) {
    if delta == 255 then post == 0
    else if pre <= 128 then MovedFrom(post, pre, delta)
    else MovedFrom(256 - post, 256 - pre, delta)
  }

  /** The same, measured from the nearer end. */
  predicate MovedFrom(post: int, pre: int, delta: int) {
    if delta > 2 * (pre - 1) then post == delta + 1
    else if delta % 2 == 1 then post == pre - (delta + 1) / 2
    else post == pre + delta / 2
  }

  lemma UpdateProbMoves(delta: byte, prob: byte)
    requires prob >= 1
    ensures Moved(UpdateProb8(delta, prob), prob, delta)
  {
    UpdateProbUsable(delta, prob);
    hide UpdateProb8;
    if delta != 255 {
      var near := if prob <= 128 then prob as int else 256 - prob;
      RecenterDistance(delta, near - 1);
      hide InvRecenterNonneg;
      MovedNear(near, delta);
    }
  }

  lemma MovedNear(near: int, delta: byte)
    requires 1 <= near <= 128 && delta != 255
    ensures MovedFrom(1 + InvRecenterNonneg(delta, near - 1), near, delta)
  {
  }

  /** Up to the coefficients, and for intra frames altogether. */
  lemma FwUpdatedTransforms(ctx: Context, d: Context, h: FrameHeader, k: nat)
    requires Usable(ctx) && k < CTX_SIZE
    ensures var post := FwUpdated(ctx, d, h)[k];
      && (k < COEF ==> if h.txMode == 4 then Moved(post, ctx[k], d[k]) else post == ctx[k])
      && (SKIP <= k < INTER_MODE ==> Moved(post, ctx[k], d[k]))
      && (INTER_MODE <= k && (h.keyFrame || h.intraOnly) ==> post == ctx[k])
  {
    hide Moved, UpdateProb8;
    if ctx[k] >= 1 { UpdateProbMoves(d[k], ctx[k]); }
  }

  /** A coefficient block of three probabilities: 144 blocks for each transform size. */
  lemma FwUpdatedCoefs(ctx: Context, d: Context, h: FrameHeader, b: nat, n: nat)
    requires Usable(ctx) && b < 576 && n < 3
    ensures var post, k := FwUpdated(ctx, d, h), COEF + 3 * b + n;
      if 3 <= b % 36 < 6 || b / 144 > h.txMode then post[k] == ctx[k] else Moved(post[k], ctx[k], d[k])
  {
    hide Moved, UpdateProb8;
    var k := COEF + 3 * b + n;
    DivMod(b, 36);
    DivMod(b, 144);
    RowIs(b / 36, 3 * (b % 36) + n, BLOCK_COEFS);
    RowIs(b / 144, 3 * (b % 144) + n, TX_COEFS);
    if ctx[k] >= 1 { UpdateProbMoves(d[k], ctx[k]); }
  }

  /** The tables that only inter frames have. */
  lemma FwUpdatedInter(ctx: Context, d: Context, h: FrameHeader, k: nat)
    requires Usable(ctx) && INTER_MODE <= k < CTX_SIZE && !h.keyFrame && !h.intraOnly
    ensures var post := FwUpdated(ctx, d, h)[k];
      && (k < INTERP_FILTER || IS_INTER <= k < COMP_MODE || Y_MODE <= k < UV_MODE || PARTITION <= k < MV ==>
            Moved(post, ctx[k], d[k]))
      && (INTERP_FILTER <= k < IS_INTER ==>
            if h.interpolationFilter == 4 then Moved(post, ctx[k], d[k]) else post == ctx[k])
      && (COMP_MODE <= k < SINGLE_REF ==>
            if h.referenceMode == Select then Moved(post, ctx[k], d[k]) else post == ctx[k])
      && (SINGLE_REF <= k < COMP_REF ==>
            if h.referenceMode == CompoundReference then post == ctx[k] else Moved(post, ctx[k], d[k]))
      && (COMP_REF <= k < Y_MODE ==>
            if h.referenceMode == SingleReference then post == ctx[k] else Moved(post, ctx[k], d[k]))
      && (UV_MODE <= k < PARTITION ==> post == ctx[k])
      && (MV <= k ==>
            post == if d[k] == 0 || (MV_CLASS0_HP <= k && !h.highPrecisionMv) then ctx[k] else d[k])
  {
    hide Moved, UpdateProb8;
    if ctx[k] >= 1 { UpdateProbMoves(d[k], ctx[k]); }
  }

  // The driver's update_*_probs.  Each of their loops runs over one contiguous table, as UpdateRun does.

  /** `p` is `was` with every coded probability of lo..hi updated by its delta. */
  ghost predicate Updated(p: seq<byte>, was: seq<byte>, d: Context, lo: int, hi: int) {
    && |p| == |was| == CTX_SIZE
    && forall k | 0 <= k < CTX_SIZE ::
         p[k] == (if lo <= k < hi && !Unused(k) then UpdateProb8(d[k], was[k]) else was[k])
  }

  method UpdateRun(p: array<byte>, d: Context, lo: nat, hi: nat)
    requires p.Length == CTX_SIZE && lo <= hi <= CTX_SIZE && forall k | lo <= k < hi :: !Unused(k)
    modifies p
    ensures Updated(p[..], old(p[..]), d, lo, hi)
  {
    for k := lo to hi
      invariant Updated(p[..], old(p[..]), d, lo, k)
    {
      p[k] := UpdateProb8(d[k], p[k]);
    }
  }

  lemma UpdatedFurther(p: seq<byte>, mid: seq<byte>, was: seq<byte>, d: Context, lo: int, at: int, end: int, hi: int)
    requires lo <= at <= end <= hi && Updated(mid, was, d, lo, at) && Updated(p, mid, d, at, end)
    requires forall k | end <= k < hi :: Unused(k)
    ensures Updated(p, was, d, lo, hi)
  {
    hide Unused, UpdateProb8;
  }

  /** Where the unused contexts of a block are: behind the three of its first band. */
  lemma BandUnused(base: nat, l: nat, k: nat)
    requires COEF <= base <= SKIP - BLOCK_COEFS && (base - COEF) % BLOCK_COEFS == 0 && l < 6 && k < BAND_COEFS
    ensures Unused(base + BAND_COEFS * l + k) <==> l == 0 && k >= 9
  {
    var x := base - COEF;
    assert x == BLOCK_COEFS * (x / BLOCK_COEFS);
  }

  method UpdateCoeff(p: array<byte>, d: Context, base: nat)
    requires p.Length == CTX_SIZE && COEF <= base <= SKIP - BLOCK_COEFS && (base - COEF) % BLOCK_COEFS == 0
    modifies p
    ensures Updated(p[..], old(p[..]), d, base, base + BLOCK_COEFS)
  {
    ghost var was := p[..];
    assert Updated(p[..], was, d, base, base);
    hide Updated, Unused;
    for l := 0 to 6
      invariant Updated(p[..], was, d, base, base + BAND_COEFS * l)
    {
      ghost var mid := p[..];
      var first := base + BAND_COEFS * l;
      var contexts := if l == 0 then 3 else 6;
      forall k | first <= k < first + BAND_COEFS ensures Unused(k) <==> l == 0 && k - first >= 9 {
        BandUnused(base, l, k - first);
      }
      UpdateRun(p, d, first, first + 3 * contexts);
      UpdatedFurther(p[..], mid, was, d, base, first, first + 3 * contexts, first + BAND_COEFS);
    }
  }

  method UpdateCoefProbs(p: array<byte>, d: Context, h: FrameHeader)
    requires p.Length == CTX_SIZE
    modifies p
    ensures Updated(p[..], old(p[..]), d, COEF, COEF + TX_COEFS * (Min(h.txMode, 3) + 1))
  {
    var was := p[..];
    for i := 0 to 4
      invariant i == 0 || i <= h.txMode
      invariant Updated(p[..], was, d, COEF, COEF + TX_COEFS * i)
    {
      for j := 0 to 2
        invariant Updated(p[..], was, d, COEF, COEF + TX_COEFS * i + 2 * BLOCK_COEFS * j)
      {
        for k := 0 to 2
          invariant Updated(p[..], was, d, COEF, COEF + TX_COEFS * i + 2 * BLOCK_COEFS * j + BLOCK_COEFS * k)
        {
          UpdateCoeff(p, d, COEF + TX_COEFS * i + 2 * BLOCK_COEFS * j + BLOCK_COEFS * k);
        }
      }
      if h.txMode == i {
        return;
      }
    }
  }

  method UpdateFrameReferenceModeProbs(p: array<byte>, d: Context, h: FrameHeader)
    requires p.Length == CTX_SIZE
    modifies p
    ensures forall k | 0 <= k < CTX_SIZE ::
      p[k] == (if COMP_MODE <= k < Y_MODE && RuleAt(k, h.(keyFrame := false, intraOnly := false)) == Recenter
               then UpdateProb8(d[k], old(p[k])) else old(p[k]))
  {
    if h.referenceMode.Select? {
      UpdateRun(p, d, COMP_MODE, SINGLE_REF);
    }
    if !h.referenceMode.CompoundReference? {
      UpdateRun(p, d, SINGLE_REF, COMP_REF);
    }
    if !h.referenceMode.SingleReference? {
      UpdateRun(p, d, COMP_REF, Y_MODE);
    }
  }

  /** `p` is `was` with the bytes lo..hi replaced by their non-zero deltas. */
  ghost predicate Replaced(p: seq<byte>, was: seq<byte>, d: Context, lo: int, hi: int) {
    && |p| == |was| == CTX_SIZE
    && forall k | 0 <= k < CTX_SIZE :: p[k] == if lo <= k < hi then UpdateMvProb(d[k], was[k]) else was[k]
  }

  method UpdateMvRun(p: array<byte>, d: Context, lo: nat, hi: nat)
    requires p.Length == CTX_SIZE && lo <= hi <= CTX_SIZE
    modifies p
    ensures Replaced(p[..], old(p[..]), d, lo, hi)
  {
    for j := lo to hi
      invariant Replaced(p[..], old(p[..]), d, lo, j)
    {
      p[j] := UpdateMvProb(d[j], p[j]);
    }
  }

  /** The motion vector component a byte of its tables belongs to; the joint probabilities come before both. */
  function MvComponent(k: int): int {
    if k < MV_SIGN then -1
    else if k < MV_CLASSES then k - MV_SIGN
    else if k < MV_CLASS0_BIT then (if k < MV_CLASSES + 10 then 0 else 1)
    else if k < MV_BITS then k - MV_CLASS0_BIT
    else if k < MV_CLASS0_FR then (if k < MV_BITS + 10 then 0 else 1)
    else if k < MV_FR then (if k < MV_CLASS0_FR + 6 then 0 else 1)
    else if k < MV_CLASS0_HP then (if k < MV_FR + 3 then 0 else 1)
    else if k < MV_HP then k - MV_CLASS0_HP
    else k - MV_HP
  }

  /** `p` is `was` with the motion vector bytes of components lo..hi that lie in from..to updated. */
  ghost predicate MvUpdated(p: seq<byte>, was: seq<byte>, d: Context, lo: int, hi: int, from: int, to: int) {
    && |p| == |was| == CTX_SIZE
    && forall k | 0 <= k < CTX_SIZE ::
         p[k] == (if from <= k < to && lo <= MvComponent(k) < hi then UpdateMvProb(d[k], was[k]) else was[k])
  }

  method UpdateMvMagnitude(p: array<byte>, d: Context, i: nat)
    requires p.Length == CTX_SIZE && i < 2
    modifies p
    ensures MvUpdated(p[..], old(p[..]), d, i, i + 1, MV, MV_CLASS0_FR)
  {
    hide UpdateMvProb;
    UpdateMvRun(p, d, MV_SIGN + i, MV_SIGN + i + 1);
    UpdateMvRun(p, d, MV_CLASSES + 10 * i, MV_CLASSES + 10 * i + 10);
    UpdateMvRun(p, d, MV_CLASS0_BIT + i, MV_CLASS0_BIT + i + 1);
    UpdateMvRun(p, d, MV_BITS + 10 * i, MV_BITS + 10 * i + 10);
  }

  method UpdateMvFraction(p: array<byte>, d: Context, i: nat, highPrecision: bool)
    requires p.Length == CTX_SIZE && i < 2
    modifies p
    ensures MvUpdated(p[..], old(p[..]), d, i, i + 1, MV_CLASS0_FR, if highPrecision then CTX_SIZE else MV_CLASS0_HP)
  {
    hide UpdateMvProb;
    UpdateMvRun(p, d, MV_CLASS0_FR + 6 * i, MV_CLASS0_FR + 6 * i + 6);
    UpdateMvRun(p, d, MV_FR + 3 * i, MV_FR + 3 * i + 3);
    if highPrecision {
      UpdateMvRun(p, d, MV_CLASS0_HP + i, MV_CLASS0_HP + i + 1);
      UpdateMvRun(p, d, MV_HP + i, MV_HP + i + 1);
    }
  }

  method UpdateMvProbs(p: array<byte>, d: Context, h: FrameHeader)
    requires p.Length == CTX_SIZE
    modifies p
    ensures MvUpdated(p[..], old(p[..]), d, -1, 2, MV, if h.highPrecisionMv then CTX_SIZE else MV_CLASS0_HP)
  {
    hide UpdateMvProb;
    var end := if h.highPrecisionMv then CTX_SIZE else MV_CLASS0_HP;
    UpdateMvRun(p, d, MV, MV_SIGN);
    for i := 0 to 2
      invariant MvUpdated(p[..], old(p[..]), d, -1, i, MV, end)
    {
      UpdateMvMagnitude(p, d, i);
      UpdateMvFraction(p, d, i, h.highPrecisionMv);
    }
  }

  method UpdateInterProbs(p: array<byte>, d: Context, h: FrameHeader)
    requires p.Length == CTX_SIZE && !h.FrameIsIntra()
    modifies p
    ensures forall k | 0 <= k < CTX_SIZE ::
      p[k] == if INTER_MODE <= k then Apply(RuleAt(k, h), d[k], old(p[k])) else old(p[k])
  {
    hide UpdateProb8, UpdateMvProb, MvUpdated;
    UpdateRun(p, d, INTER_MODE, INTERP_FILTER);
    if h.interpolationFilter == INTERP_FILTER_SWITCHABLE {
      UpdateRun(p, d, INTERP_FILTER, IS_INTER);
    }
    UpdateRun(p, d, IS_INTER, COMP_MODE);
    UpdateFrameReferenceModeProbs(p, d, h);
    UpdateRun(p, d, Y_MODE, UV_MODE);
    UpdateRun(p, d, PARTITION, MV);
    ghost var was := p[..];
    UpdateMvProbs(p, d, h);
    MvRules(p[..], was, d, h);
  }

  lemma MvRules(p: seq<byte>, was: seq<byte>, d: Context, h: FrameHeader)
    requires !h.FrameIsIntra() && MvUpdated(p, was, d, -1, 2, MV, if h.highPrecisionMv then CTX_SIZE else MV_CLASS0_HP)
    ensures forall k | 0 <= k < CTX_SIZE :: p[k] == if MV <= k then Apply(RuleAt(k, h), d[k], was[k]) else was[k]
  {
  }

  /** cedrus_vp9_fw_update_probs: each byte of the context follows its rule. */
  method FwUpdateProbs(p: array<byte>, d: Context, h: FrameHeader)
    requires p.Length == CTX_SIZE && h.Valid()
    modifies p
    ensures p[..] == FwUpdated(old(p[..]), d, h)
  {
    hide UpdateProb8, UpdateMvProb;
    if h.txMode == TX_MODE_SELECT {
      UpdateRun(p, d, TX8, COEF);
    }
    UpdateCoefProbs(p, d, h);
    UpdateRun(p, d, SKIP, INTER_MODE);
    if !h.FrameIsIntra() {
      UpdateInterProbs(p, d, h);
    }
  }
}
