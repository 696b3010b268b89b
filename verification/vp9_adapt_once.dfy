/** Every probability is adapted at most once, from its own old value and the counts of its own node. */
module Vp9AdaptOnce {
  import opened Words
  import opened Vp9Layout
  import opened Vp9ForwardUpdate
  import opened Vp9MergeProb
  import opened Vp9MergeTrees
  import opened Vp9Adapt
  import opened Vp9Contexts

  predicate HasSlot(tree: Tree, s: int)
    decreases tree
  {
    match tree
    case Token(_) => false
    case Node(slot, left, right) => s == slot || HasSlot(left, s) || HasSlot(right, s)
  }

  /** No two nodes share a probability. */
  ghost predicate Distinct(tree: Tree)
    decreases tree
  {
    match tree
    case Token(_) => true
    case Node(slot, left, right) =>
      && !HasSlot(left, slot) && !HasSlot(right, slot) && Distinct(left) && Distinct(right)
      && forall s: int :: !(HasSlot(left, s) && HasSlot(right, s))
  }

  /** The children of the node that owns slot `s`. */
  function ChildrenAt(tree: Tree, s: int): (Tree, Tree)
    requires HasSlot(tree, s)
    decreases tree
  {
    var Node(slot, left, right) := tree;
    if s == slot then (left, right)
    else if HasSlot(left, s) then ChildrenAt(left, s) else ChildrenAt(right, s)
  }

  /** What the probability `pre` of slot `s` becomes. */
  function MergedProb(tree: Tree, s: int, pre: byte, counts: seq<u32>, sat: nat, uf: nat): byte
    requires HasSlot(tree, s)
  {
    var (left, right) := ChildrenAt(tree, s);
    MergeProb(pre, Wrap32(Count(left, counts)), Wrap32(Count(right, counts)), sat, uf)
  }

  /** The recursion, seen from one slot: the order of its merges does not show. */
  lemma {:induction false} MergeProbsAt(tree: Tree, probs: seq<byte>, counts: seq<u32>, sat: nat, uf: nat, s: nat)
    requires Distinct(tree) && s < |probs|
    ensures MergeProbs(tree, probs, counts, sat, uf)[s] ==
      if HasSlot(tree, s) then MergedProb(tree, s, probs[s], counts, sat, uf) else probs[s]
  {
    hide MergeProb;
    match tree
    case Token(_) =>
    case Node(slot, left, right) =>
      var p1 := MergeProbs(left, probs, counts, sat, uf);
      MergeProbsAt(left, probs, counts, sat, uf, s);
      MergeProbsAt(right, p1, counts, sat, uf, s);
  }

  predicate Touches(job: Job, k: int) {
    job.off <= k < job.off + job.w && HasSlot(job.tree, k - job.off)
  }

  function After(job: Job, k: int, pre: byte): byte
    requires Touches(job, k)
  {
    MergedProb(job.tree, k - job.off, pre, job.counts, job.sat, job.uf)
  }

  lemma RunJobAt(ctx: Context, job: Job, k: int)
    requires job.Valid() && Distinct(job.tree) && 0 <= k < CTX_SIZE
    ensures RunJob(ctx, job)[k] == if Touches(job, k) then After(job, k, ctx[k]) else ctx[k]
  {
    hide MergeProbs, MergedProb, HasSlot, Unused;
    if job.off <= k < job.off + job.w {
      MergeProbsAt(job.tree, ctx[job.off..job.off + job.w], job.counts, job.sat, job.uf, k - job.off);
    }
  }

  /** The jobs of a plan work on different probabilities. */
  ghost predicate Apart(plan: seq<Job>) {
    && (forall i | 0 <= i < |plan| :: Distinct(plan[i].tree))
    && forall i, j, k: int | 0 <= i < j < |plan| && Touches(plan[i], k) :: !Touches(plan[j], k)
  }

  ghost predicate Covers(plan: seq<Job>, k: int) {
    exists i :: 0 <= i < |plan| && Touches(plan[i], k)
  }

  /** Such a plan is one simultaneous assignment. */
  lemma {:induction false} AdaptOnce(ctx: Context, plan: seq<Job>, k: int)
    requires AllValid(plan) && Apart(plan) && 0 <= k < CTX_SIZE
    ensures forall i | 0 <= i < |plan| && Touches(plan[i], k) :: Adapt(ctx, plan)[k] == After(plan[i], k, ctx[k])
    ensures !Covers(plan, k) ==> Adapt(ctx, plan)[k] == ctx[k]
  {
    hide Touches, Distinct, RunJob, After;
    if plan != [] {
      var front, last := plan[..|plan| - 1], plan[|plan| - 1];
      AdaptOnce(ctx, front, k);
      RunJobAt(Adapt(ctx, front), last, k);
      assert forall i | 0 <= i < |front| :: front[i] == plan[i];
    }
  }

  lemma CoversConcat(first: seq<Job>, second: seq<Job>, k: int)
    ensures Covers(first + second, k) <==> Covers(first, k) || Covers(second, k)
  {
    hide Touches;
    var plan := first + second;
    if Covers(first, k) { var i :| 0 <= i < |first| && Touches(first[i], k); assert Touches(plan[i], k); }
    if Covers(second, k) { var i :| 0 <= i < |second| && Touches(second[i], k); assert Touches(plan[|first| + i], k); }
    if Covers(plan, k) {
      var i :| 0 <= i < |plan| && Touches(plan[i], k);
      assert i >= |first| ==> Touches(second[i - |first|], k);
    }
  }

  lemma ApartConcat(first: seq<Job>, second: seq<Job>)
    requires Apart(first) && Apart(second) && forall k :: !(Covers(first, k) && Covers(second, k))
    ensures Apart(first + second)
    ensures forall k :: Covers(first + second, k) <==> Covers(first, k) || Covers(second, k)
  {
    hide Touches, Distinct;
    var plan := first + second;
    assert forall i | 0 <= i < |first| :: plan[i] == first[i];
    assert forall i | |first| <= i < |plan| :: plan[i] == second[i - |first|];
    forall i, j, k: int | 0 <= i < j < |plan| && Touches(plan[i], k) ensures !Touches(plan[j], k) {
      assert i < |first| ==> Covers(first, k);
      assert j >= |first| && Touches(plan[j], k) ==> Covers(second, k);
    }
    forall k: int ensures Covers(plan, k) <==> Covers(first, k) || Covers(second, k) {
      CoversConcat(first, second, k);
    }
  }

  // The plans of the driver.

  /** The tree of a variant has one node for each of its probabilities. */
  lemma VariantSlots(v: Variant)
    ensures Distinct(v.Tree())
    ensures forall s :: HasSlot(v.Tree(), s) <==> 0 <= s < v.Width()
  {
    match v
    case D => IntraModeSlots();
    case G => MvClassSlots();
    case _ =>
  }

  lemma IntraModeSlots()
    ensures Distinct(INTRA_MODE_TREE)
    ensures forall s :: HasSlot(INTRA_MODE_TREE, s) <==> 0 <= s < 9
  {
  }

  lemma MvClassSlots()
    ensures Distinct(MV_CLASS_TREE)
    ensures forall s :: HasSlot(MV_CLASS_TREE, s) <==> 0 <= s < 10
  {
  }

  lemma CoefSlots()
    ensures Distinct(SMALL_TOKEN_TREE) && Distinct(BINARY_TREE)
    ensures forall s :: HasSlot(SMALL_TOKEN_TREE, s) <==> 1 <= s < 3
    ensures forall s :: HasSlot(BINARY_TREE, s) <==> s == 0
  {
  }

  lemma RowTouches(off: nat, v: Variant, counts: seq<u32>, k: int)
    ensures Touches(RowJob(off, v, counts), k) <==> off <= k < off + v.Width()
    ensures Distinct(RowJob(off, v, counts).tree)
  {
    hide HasSlot, Distinct;
    VariantSlots(v);
  }

  lemma ApartOne(job: Job)
    requires Distinct(job.tree)
    ensures Apart([job]) && forall k :: Covers([job], k) <==> Touches(job, k)
  {
    hide Touches, Distinct;
    assert [job][0] == job;
  }

  /** One row. */
  lemma RowApart(off: nat, v: Variant, counts: seq<u32>)
    ensures Apart([RowJob(off, v, counts)])
    ensures forall k :: Covers([RowJob(off, v, counts)], k) <==> off <= k < off + v.Width()
  {
    hide Touches, Distinct, Covers, Apart;
    RowTouches(off, v, counts, 0);
    ApartOne(RowJob(off, v, counts));
    forall k ensures Touches(RowJob(off, v, counts), k) <==> off <= k < off + v.Width() {
      RowTouches(off, v, counts, k);
    }
  }

  /** The rows of a table lie side by side. */
  lemma {:induction false} RowsApart(off: nat, v: Variant, table: seq<seq<u32>>)
    ensures Apart(Rows(off, v, table))
    ensures forall k :: Covers(Rows(off, v, table), k) <==> off <= k < off + v.Width() * |table|
  {
    hide Touches, Distinct, Covers, Apart;
    if table == [] {
      NothingCovered();
    } else {
      var n := |table| - 1;
      RowsApart(off, v, table[..n]);
      RowApart(off + v.Width() * n, v, table[n]);
      assert v.Width() * n + v.Width() == v.Width() * |table|;
      ApartConcat(Rows(off, v, table[..n]), [RowJob(off + v.Width() * n, v, table[n])]);
      assert Rows(off, v, table) == Rows(off, v, table[..n]) + [RowJob(off + v.Width() * n, v, table[n])];
    }
  }

  lemma NothingCovered()
    ensures Apart([]) && forall k :: !Covers([], k)
  {
  }

  lemma BlockApart(c: Counts, b: nat, uf: nat)
    requires c.Valid() && b < BLOCKS && uf <= 256
    ensures Apart(BlockJobs(c, b, uf))
    ensures forall k :: Covers(BlockJobs(c, b, uf), k) <==> COEF + 3 * b <= k < COEF + 3 * b + 3 && !(3 <= b % 36 < 6)
  {
    hide HasSlot, Distinct, Covers, Apart, Sub32;
    if 3 <= b % 36 < 6 {
      NothingCovered();
    } else {
      CoefSlots();
      var jobs := BlockJobs(c, b, uf);
      ApartOne(jobs[0]);
      ApartOne(jobs[1]);
      ApartConcat([jobs[0]], [jobs[1]]);
      assert jobs == [jobs[0]] + [jobs[1]];
    }
  }

  /** The coefficient plan covers every block but the padding. */
  lemma {:induction false} CoefApart(c: Counts, n: nat, uf: nat)
    requires c.Valid() && n <= BLOCKS && uf <= 256
    ensures Apart(CoefPlan(c, n, uf))
    ensures forall k :: Covers(CoefPlan(c, n, uf), k) <==> COEF <= k < COEF + 3 * n && !Unused(k)
  {
    hide Touches, Distinct, Covers, Apart, BlockJobs, Unused;
    if n == 0 {
      NothingCovered();
    } else {
      CoefApart(c, n - 1, uf);
      BlockApart(c, n - 1, uf);
      BlockUnused(n - 1, 0);
      BlockUnused(n - 1, 1);
      BlockUnused(n - 1, 2);
      ApartConcat(CoefPlan(c, n - 1, uf), BlockJobs(c, n - 1, uf));
    }
  }

  lemma ReferenceApart(c: Counts, h: FrameHeader)
    requires c.Valid()
    ensures Apart(ReferencePlan(c, h))
    ensures forall k :: Covers(ReferencePlan(c, h), k) <==>
      IS_INTER <= k < Y_MODE && (SINGLE_REF <= k < COMP_REF ==> !h.referenceMode.CompoundReference?)
  {
    hide Touches, Distinct, Covers, Apart, Rows;
    RowsApart(IS_INTER, B, c.intraInter);
    RowsApart(COMP_MODE, B, c.comp);
    RowsApart(COMP_REF, B, c.compRef);
    RowsApart(SINGLE_REF, B, c.singleRef);
    var plan := Rows(IS_INTER, B, c.intraInter) + Rows(COMP_MODE, B, c.comp);
    ApartConcat(Rows(IS_INTER, B, c.intraInter), Rows(COMP_MODE, B, c.comp));
    ApartConcat(plan, Rows(COMP_REF, B, c.compRef));
    plan := plan + Rows(COMP_REF, B, c.compRef);
    if h.referenceMode.CompoundReference? {
      assert ReferencePlan(c, h) == plan;
    } else {
      ApartConcat(plan, Rows(SINGLE_REF, B, c.singleRef));
    }
  }

  lemma ModeApart(c: Counts, h: FrameHeader)
    requires c.Valid()
    ensures Apart(ModePlan(c, h))
    ensures forall k :: Covers(ModePlan(c, h), k) <==>
      (SKIP <= k < IS_INTER || Y_MODE <= k < MV)
      && (INTERP_FILTER <= k < IS_INTER ==> h.interpolationFilter == INTERP_FILTER_SWITCHABLE)
  {
    hide Touches, Distinct, Covers, Apart, Rows;
    RowsApart(INTER_MODE, C, c.mvMode);
    RowsApart(Y_MODE, D, c.yMode);
    RowsApart(UV_MODE, D, c.uvMode);
    RowsApart(PARTITION, E, c.partition);
    RowsApart(SKIP, B, c.skip);
    RowsApart(INTERP_FILTER, F, c.filter);
    var plan := Rows(INTER_MODE, C, c.mvMode) + Rows(Y_MODE, D, c.yMode);
    ApartConcat(Rows(INTER_MODE, C, c.mvMode), Rows(Y_MODE, D, c.yMode));
    ApartConcat(plan, Rows(UV_MODE, D, c.uvMode));
    plan := plan + Rows(UV_MODE, D, c.uvMode);
    ApartConcat(plan, Rows(PARTITION, E, c.partition));
    plan := plan + Rows(PARTITION, E, c.partition);
    ApartConcat(plan, Rows(SKIP, B, c.skip));
    plan := plan + Rows(SKIP, B, c.skip);
    if h.interpolationFilter == INTERP_FILTER_SWITCHABLE {
      ApartConcat(plan, Rows(INTERP_FILTER, F, c.filter));
    } else {
      assert ModePlan(c, h) == plan;
    }
  }

  lemma TxApart(c: Counts, i: nat)
    requires c.Valid() && i < 2
    ensures Apart(TxPlan(c, i))
    ensures forall k :: Covers(TxPlan(c, i), k) <==>
      k == TX8 + i || TX16 + 2 * i <= k < TX16 + 2 * i + 2 || TX32 + 3 * i <= k < TX32 + 3 * i + 3
  {
    hide Touches, Distinct, Covers, Apart, RowJob;
    var plan := TxPlan(c, i);
    RowApart(TX8 + i, B, c.tx8p[i]);
    RowApart(TX16 + 2 * i, F, c.tx16p[i][..3]);
    RowApart(TX32 + 3 * i, E, c.tx32p[i]);
    ApartConcat([plan[0]], [plan[1]]);
    ApartConcat([plan[0]] + [plan[1]], [plan[2]]);
    assert plan == [plan[0]] + [plan[1]] + [plan[2]];
  }

  lemma MvMagnitudeApart(c: MvCounts, i: nat)
    requires c.Valid() && i < 2
    ensures Apart(MvMagnitudePlan(c, i))
    ensures forall k :: Covers(MvMagnitudePlan(c, i), k) <==> MV_SIGN <= k < MV_CLASS0_FR && MvComponent(k) == i
  {
    hide Touches, Distinct, Covers, Apart, RowJob, Rows;
    var s, cl := RowJob(MV_SIGN + i, B, c.sign[i]), RowJob(MV_CLASSES + 10 * i, G, c.classes[i]);
    var b := RowJob(MV_CLASS0_BIT + i, B, c.class0[i]);
    RowApart(MV_SIGN + i, B, c.sign[i]);
    RowApart(MV_CLASSES + 10 * i, G, c.classes[i]);
    RowApart(MV_CLASS0_BIT + i, B, c.class0[i]);
    RowsApart(MV_BITS + 10 * i, B, c.bits[10 * i..10 * i + 10]);
    ApartConcat([s], [cl]);
    ApartConcat([s] + [cl], [b]);
    assert [s] + [cl] + [b] == [s, cl, b];
    ApartConcat([s, cl, b], Rows(MV_BITS + 10 * i, B, c.bits[10 * i..10 * i + 10]));
  }

  lemma MvFractionApart(c: MvCounts, i: nat, hp: bool)
    requires c.Valid() && i < 2
    ensures Apart(MvFractionPlan(c, i, hp))
    ensures forall k :: Covers(MvFractionPlan(c, i, hp), k) <==>
      MV_CLASS0_FR <= k < CTX_SIZE && MvComponent(k) == i && (k >= MV_CLASS0_HP ==> hp)
  {
    hide Touches, Distinct, Covers, Apart, RowJob, Rows;
    var rows, fr := Rows(MV_CLASS0_FR + 6 * i, E, c.class0Fp[2 * i..2 * i + 2]), RowJob(MV_FR + 3 * i, E, c.fp[i]);
    RowsApart(MV_CLASS0_FR + 6 * i, E, c.class0Fp[2 * i..2 * i + 2]);
    RowApart(MV_FR + 3 * i, E, c.fp[i]);
    ApartConcat(rows, [fr]);
    if hp {
      var h0, h1 := RowJob(MV_CLASS0_HP + i, B, c.class0Hp[i]), RowJob(MV_HP + i, B, c.hp[i]);
      RowApart(MV_CLASS0_HP + i, B, c.class0Hp[i]);
      RowApart(MV_HP + i, B, c.hp[i]);
      ApartConcat([h0], [h1]);
      assert [h0] + [h1] == [h0, h1];
      ApartConcat(rows + [fr], [h0, h1]);
    } else {
      assert rows + [fr] + [] == rows + [fr];
    }
  }

  lemma MvApart(c: MvCounts, i: nat, hp: bool)
    requires c.Valid() && i < 2
    ensures Apart(MvPlan(c, i, hp))
    ensures forall k :: Covers(MvPlan(c, i, hp), k) <==>
      MV_SIGN <= k < CTX_SIZE && MvComponent(k) == i && (k >= MV_CLASS0_HP ==> hp)
  {
    hide Covers, Apart, MvMagnitudePlan, MvFractionPlan;
    MvMagnitudeApart(c, i);
    MvFractionApart(c, i, hp);
    ApartConcat(MvMagnitudePlan(c, i), MvFractionPlan(c, i, hp));
  }

  /** The probabilities that a frame's counts change. */
  predicate Adapts(k: int, h: FrameHeader) {
    if COEF <= k < SKIP then !Unused(k)
    else
      && !h.FrameIsIntra()
      && (k < COEF ==> h.txMode == TX_MODE_SELECT)
      && (INTERP_FILTER <= k < IS_INTER ==> h.interpolationFilter == INTERP_FILTER_SWITCHABLE)
      && (SINGLE_REF <= k < COMP_REF ==> !h.referenceMode.CompoundReference?)
      && (MV_CLASS0_HP <= k ==> h.highPrecisionMv)
  }

  lemma NonCoefApart(c: Counts, h: FrameHeader)
    requires c.Valid() && !h.FrameIsIntra()
    ensures Apart(NonCoefPlan(c, h))
    ensures forall k :: Covers(NonCoefPlan(c, h), k) <==> 0 <= k < CTX_SIZE && !(COEF <= k < SKIP) && Adapts(k, h)
  {
    hide Touches, Distinct, Covers, Apart, Rows, ReferencePlan, ModePlan, TxPlan, MvPlan, Unused, MvComponent;
    ReferenceApart(c, h);
    ModeApart(c, h);
    ApartConcat(ReferencePlan(c, h), ModePlan(c, h));
    var plan := ReferencePlan(c, h) + ModePlan(c, h);
    if h.txMode == TX_MODE_SELECT {
      TxApart(c, 0);
      TxApart(c, 1);
      ApartConcat(TxPlan(c, 0), TxPlan(c, 1));
      ApartConcat(plan, TxPlan(c, 0) + TxPlan(c, 1));
      plan := plan + (TxPlan(c, 0) + TxPlan(c, 1));
    } else {
      assert plan + [] == plan;
    }
    RowsApart(MV, E, c.mv.joint);
    ApartConcat(plan, Rows(MV, E, c.mv.joint));
    plan := plan + Rows(MV, E, c.mv.joint);
    MvApart(c.mv, 0, h.highPrecisionMv);
    ApartConcat(plan, MvPlan(c.mv, 0, h.highPrecisionMv));
    plan := plan + MvPlan(c.mv, 0, h.highPrecisionMv);
    MvApart(c.mv, 1, h.highPrecisionMv);
    ApartConcat(plan, MvPlan(c.mv, 1, h.highPrecisionMv));
    forall k | MV_SIGN <= k < CTX_SIZE ensures MvComponent(k) == 0 || MvComponent(k) == 1 {
      MvIsComponent(k);
    }
  }

  lemma MvIsComponent(k: int)
    requires MV_SIGN <= k < CTX_SIZE
    ensures MvComponent(k) == 0 || MvComponent(k) == 1
  {
  }

  /** A frame's adaptation: every probability in use that the frame adapts is merged once, from its own loaded value and
      the counts below its own node; every other one is left alone. */
  lemma FrameAdaptsOnce(s: Probs, h: FrameHeader, c: Counts, from: Context, k: int)
    requires c.Valid() && 0 <= k < CTX_SIZE
    ensures var plan := AdaptPlan(s, h, c);
      if Adapts(k, h)
      then exists i :: 0 <= i < |plan| && Touches(plan[i], k) && Adapt(from, plan)[k] == After(plan[i], k, from[k])
      else Adapt(from, plan)[k] == from[k]
  {
    hide Touches, Distinct, CoefPlan, NonCoefPlan, Adapt, After, Apart;
    FrameApart(s, h, c);
    AdaptOnce(from, AdaptPlan(s, h, c), k);
  }

  lemma FrameApart(s: Probs, h: FrameHeader, c: Counts)
    requires c.Valid()
    ensures Apart(AdaptPlan(s, h, c))
    ensures forall k | 0 <= k < CTX_SIZE :: Covers(AdaptPlan(s, h, c), k) <==> Adapts(k, h)
  {
    hide Covers, Apart, CoefPlan, NonCoefPlan, Unused;
    var uf := CoefFactor(!s.previousValid || s.previousKeyFrame, h.FrameIsIntra());
    CoefApart(c, BLOCKS, uf);
    if h.FrameIsIntra() {
      assert AdaptPlan(s, h, c) == CoefPlan(c, BLOCKS, uf);
    } else {
      NonCoefApart(c, h);
      ApartConcat(CoefPlan(c, BLOCKS, uf), NonCoefPlan(c, h));
    }
  }
}
