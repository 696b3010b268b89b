/** Backward adaptation: which tree is merged at which place of the context, for which counters. */
module Vp9Adapt {
  import opened Words
  import opened Vp9Layout
  import opened Vp9MergeProb
  import opened Vp9MergeTrees

  /** The straight-line variants. */
  datatype Variant = B | C | D | E | F | G
  {
    function Tree(): Tree {
      match this
      case B => BINARY_TREE
      case C => INTER_MODE_TREE
      case D => INTRA_MODE_TREE
      case E => PARTITION_TREE
      case F => INTERP_FILTER_TREE
      case G => MV_CLASS_TREE
    }

    /** How many probabilities it owns; it takes one counter more than that. */
    function Width(): nat {
      match this
      case B => 1
      case C => 3
      case D => 9
      case E => 3
      case F => 2
      case G => 10
    }
  }

  /** One tree merge: the probabilities it works on, and what it is given. */
  datatype Job = Job(off: nat, w: nat, tree: Tree, counts: seq<u32>, sat: nat, uf: nat)
  {
    predicate Valid() {
      && off + w <= CTX_SIZE && 1 <= sat <= 256 && uf <= 256
      && forall k | off <= k < off + w :: !Unused(k)
    }
  }

  predicate AllValid(plan: seq<Job>) {
    forall i | 0 <= i < |plan| :: plan[i].Valid()
  }

  function RunJob(ctx: Context, job: Job): Context
    requires job.Valid()
  {
    MergeAt(ctx, job.off, job.w, job.tree, job.counts, job.sat, job.uf)
  }

  /** The context after all merges of a plan, in order. */
  function Adapt(ctx: Context, plan: seq<Job>): Context
    requires AllValid(plan)
  {
    if plan == [] then ctx else RunJob(Adapt(ctx, plan[..|plan| - 1]), plan[|plan| - 1])
  }

  lemma AdaptAppend(ctx: Context, plan: seq<Job>, job: Job)
    requires AllValid(plan) && job.Valid()
    ensures AllValid(plan + [job])
    ensures Adapt(ctx, plan + [job]) == RunJob(Adapt(ctx, plan), job)
  {
    assert (plan + [job])[..|plan|] == plan;
  }

  lemma {:induction false} AdaptConcat(ctx: Context, first: seq<Job>, second: seq<Job>)
    requires AllValid(first) && AllValid(second)
    ensures AllValid(first + second)
    ensures Adapt(ctx, first + second) == Adapt(Adapt(ctx, first), second)
    decreases |second|
  {
    if second == [] {
      assert first + second == first;
    } else {
      var front, last := second[..|second| - 1], second[|second| - 1];
      AdaptConcat(ctx, first, front);
      AdaptAppend(ctx, first + front, last);
      assert first + second == first + front + [last];
    }
  }

  // Properties of every plan.

  /** Adaptation never spoils a probability, whatever the hardware counted. */
  lemma {:induction false} AdaptUsable(ctx: Context, plan: seq<Job>)
    requires Usable(ctx) && AllValid(plan)
    ensures Usable(Adapt(ctx, plan))
  {
    if plan != [] {
      var job := plan[|plan| - 1];
      var before := Adapt(ctx, plan[..|plan| - 1]);
      AdaptUsable(ctx, plan[..|plan| - 1]);
      RunJobUsable(before, job);
    }
  }

  lemma {:induction false} RunJobUsable(ctx: Context, job: Job)
    requires Usable(ctx) && job.Valid()
    ensures Usable(RunJob(ctx, job))
  {
    hide MergeProbs, Unused;
    MergeProbsStayUsable(job.tree, ctx[job.off..job.off + job.w], job.counts, job.sat, job.uf);
    var merged := MergeProbs(job.tree, ctx[job.off..job.off + job.w], job.counts, job.sat, job.uf);
    forall k | 0 <= k < CTX_SIZE
      ensures RunJob(ctx, job)[k] == if job.off <= k < job.off + job.w then merged[k - job.off] else ctx[k]
    {
    }
  }

  predicate NothingCounted(plan: seq<Job>) {
    forall i | 0 <= i < |plan| :: forall t | 0 <= t < |plan[i].counts| :: plan[i].counts[t] == 0
  }

  /** Without counts it does nothing. */
  lemma {:induction false} AdaptNothing(ctx: Context, plan: seq<Job>)
    requires AllValid(plan) && NothingCounted(plan)
    ensures Adapt(ctx, plan) == ctx
  {
    if plan != [] {
      var job := plan[|plan| - 1];
      AdaptNothing(ctx, plan[..|plan| - 1]);
      MergeProbsOfZeros(job.tree, ctx[job.off..job.off + job.w], job.counts, job.sat, job.uf);
      assert RunJob(ctx, job) == ctx;
    }
  }

  /** The adaptation that VP9 defines: the recursive merge at every job. */
  function SpecAdapt(ctx: Context, plan: seq<Job>): Context
    requires AllValid(plan)
  {
    if plan == [] then ctx
    else
      var p, job := SpecAdapt(ctx, plan[..|plan| - 1]), plan[|plan| - 1];
      var merged := SpecMergeProbs(job.tree, p[job.off..job.off + job.w], job.counts, job.sat, job.uf);
      p[..job.off] + merged + p[job.off + job.w..]
  }

  /** No tree of the plan was counted beyond the words of merge_prob. */
  predicate AllExact(plan: seq<Job>) {
    forall i | 0 <= i < |plan| :: TreeExact(plan[i].tree, plan[i].counts)
  }

  /** Then it is what the driver computes. */
  lemma {:induction false} AdaptIsSpec(ctx: Context, plan: seq<Job>)
    requires AllValid(plan) && AllExact(plan)
    ensures Adapt(ctx, plan) == SpecAdapt(ctx, plan)
  {
    if plan != [] {
      var job := plan[|plan| - 1];
      AdaptIsSpec(ctx, plan[..|plan| - 1]);
      var p := Adapt(ctx, plan[..|plan| - 1]);
      MergeProbsIsSpec(job.tree, p[job.off..job.off + job.w], job.counts, job.sat, job.uf);
    }
  }

  // The counters of a frame, and the plans of sections 8.4.3 and 8.4.4 of the VP9 Bitstream & Decoding Process
  // Specification.

  predicate Table(table: seq<seq<u32>>, rows: nat, width: nat) {
    |table| == rows && forall i | 0 <= i < rows :: |table[i]| == width
  }

  const BLOCKS := 4 * 2 * 2 * 6 * 6

  /** struct v4l2_vp9_frame_symbol_counts.  A coefficient block has its three token counters and its two eob
      counters: how often its branch was taken, and how often it found more coefficients. */
  datatype Counts = Counts(
    coeff: seq<seq<u32>>, eobBranch: seq<u32>, eobMore: seq<u32>,
    intraInter: seq<seq<u32>>, comp: seq<seq<u32>>, compRef: seq<seq<u32>>, singleRef: seq<seq<u32>>,
    mvMode: seq<seq<u32>>, yMode: seq<seq<u32>>, uvMode: seq<seq<u32>>, partition: seq<seq<u32>>,
    skip: seq<seq<u32>>, filter: seq<seq<u32>>, tx8p: seq<seq<u32>>, tx16p: seq<seq<u32>>, tx32p: seq<seq<u32>>,
    mv: MvCounts)
  {
    predicate Valid() {
      && Table(coeff, BLOCKS, 3) && |eobBranch| == |eobMore| == BLOCKS
      && Table(intraInter, 4, 2) && Table(comp, 5, 2) && Table(compRef, 5, 2) && Table(singleRef, 10, 2)
      && Table(mvMode, 7, 4) && Table(yMode, 4, 10) && Table(uvMode, 10, 10) && Table(partition, 16, 4)
      && Table(skip, 3, 2) && Table(filter, 4, 3) && Table(tx8p, 2, 2) && Table(tx16p, 2, 4) && Table(tx32p, 2, 4)
      && mv.Valid()
    }

    predicate Zero() {
      && Zeros(coeff) && (forall b | 0 <= b < |eobBranch| :: eobBranch[b] == 0)
      && (forall b | 0 <= b < |eobMore| :: eobMore[b] == 0)
      && Zeros(intraInter) && Zeros(comp) && Zeros(compRef) && Zeros(singleRef) && Zeros(mvMode) && Zeros(yMode)
      && Zeros(uvMode) && Zeros(partition) && Zeros(skip) && Zeros(filter)
      && Zeros(tx8p) && Zeros(tx16p) && Zeros(tx32p)
      && mv.Zero()
    }
  }

  datatype MvCounts = MvCounts(
    joint: seq<seq<u32>>, sign: seq<seq<u32>>, classes: seq<seq<u32>>, class0: seq<seq<u32>>, bits: seq<seq<u32>>,
    class0Fp: seq<seq<u32>>, fp: seq<seq<u32>>, class0Hp: seq<seq<u32>>, hp: seq<seq<u32>>)
  {
    predicate Valid() {
      && Table(joint, 1, 4) && Table(sign, 2, 2) && Table(classes, 2, 11) && Table(class0, 2, 2) && Table(bits, 20, 2)
      && Table(class0Fp, 4, 4) && Table(fp, 2, 4) && Table(class0Hp, 2, 2) && Table(hp, 2, 2)
    }

    predicate Zero() {
      && Zeros(joint) && Zeros(sign) && Zeros(classes) && Zeros(class0) && Zeros(bits) && Zeros(class0Fp) && Zeros(fp)
      && Zeros(class0Hp) && Zeros(hp)
    }
  }

  predicate Zeros(table: seq<seq<u32>>) {
    forall i | 0 <= i < |table| :: forall t | 0 <= t < |table[i]| :: table[i][t] == 0
  }

  /** A block is three contexts long, all of them padding or none. */
  lemma BlockUnused(b: nat, j: nat)
    requires b < BLOCKS && j < 3
    ensures Unused(COEF + 3 * b + j) <==> 3 <= b % 36 < 6
  {
    DivMod(b, 36);
    RowIs(b / 36, 3 * (b % 36) + j, BLOCK_COEFS);
  }

  /** The two merges of a coefficient block: its tokens, and whether there are more. */
  function BlockJobs(c: Counts, b: nat, uf: nat): (plan: seq<Job>)
    requires c.Valid() && b < BLOCKS && uf <= 256
    ensures AllValid(plan)
  {
    BlockUnused(b, 0);
    BlockUnused(b, 1);
    BlockUnused(b, 2);
    if 3 <= b % 36 < 6 then []
    else [
      Job(COEF + 3 * b, 3, SMALL_TOKEN_TREE, c.coeff[b], 24, uf),
      Job(COEF + 3 * b, 1, BINARY_TREE, [c.eobMore[b], Sub32(c.eobBranch[b], c.eobMore[b])], 24, uf)]
  }

  /** The coefficient plan for the first `n` blocks. */
  function CoefPlan(c: Counts, n: nat, uf: nat): (plan: seq<Job>)
    requires c.Valid() && n <= BLOCKS && uf <= 256
    ensures AllValid(plan)
  {
    if n == 0 then [] else CoefPlan(c, n - 1, uf) + BlockJobs(c, n - 1, uf)
  }

  function RowJob(off: nat, v: Variant, counts: seq<u32>): Job {
    Job(off, v.Width(), v.Tree(), counts, 20, 128)
  }

  /** `v` merged over every row of a table. */
  function Rows(off: nat, v: Variant, table: seq<seq<u32>>): (plan: seq<Job>)
    ensures |plan| == |table| && forall i | 0 <= i < |table| :: plan[i] == RowJob(off + v.Width() * i, v, table[i])
  {
    seq(|table|, i requires 0 <= i < |table| => RowJob(off + v.Width() * i, v, table[i]))
  }

  function ReferencePlan(c: Counts, h: FrameHeader): seq<Job> {
    Rows(IS_INTER, B, c.intraInter) + Rows(COMP_MODE, B, c.comp) + Rows(COMP_REF, B, c.compRef)
    + (if h.referenceMode.CompoundReference? then [] else Rows(SINGLE_REF, B, c.singleRef))
  }

  function ModePlan(c: Counts, h: FrameHeader): seq<Job> {
    Rows(INTER_MODE, C, c.mvMode) + Rows(Y_MODE, D, c.yMode) + Rows(UV_MODE, D, c.uvMode)
    + Rows(PARTITION, E, c.partition) + Rows(SKIP, B, c.skip)
    + (if h.interpolationFilter == INTERP_FILTER_SWITCHABLE then Rows(INTERP_FILTER, F, c.filter) else [])
  }

  function TxPlan(c: Counts, i: nat): seq<Job>
    requires c.Valid() && i < 2
  {
    [RowJob(TX8 + i, B, c.tx8p[i]), RowJob(TX16 + 2 * i, F, c.tx16p[i][..3]), RowJob(TX32 + 3 * i, E, c.tx32p[i])]
  }

  function MvMagnitudePlan(c: MvCounts, i: nat): seq<Job>
    requires c.Valid() && i < 2
  {
    [RowJob(MV_SIGN + i, B, c.sign[i]), RowJob(MV_CLASSES + 10 * i, G, c.classes[i]),
     RowJob(MV_CLASS0_BIT + i, B, c.class0[i])]
    + Rows(MV_BITS + 10 * i, B, c.bits[10 * i..10 * i + 10])
  }

  function MvFractionPlan(c: MvCounts, i: nat, highPrecision: bool): seq<Job>
    requires c.Valid() && i < 2
  {
    Rows(MV_CLASS0_FR + 6 * i, E, c.class0Fp[2 * i..2 * i + 2]) + [RowJob(MV_FR + 3 * i, E, c.fp[i])]
    + (if highPrecision then [RowJob(MV_CLASS0_HP + i, B, c.class0Hp[i]), RowJob(MV_HP + i, B, c.hp[i])] else [])
  }

  function MvPlan(c: MvCounts, i: nat, highPrecision: bool): seq<Job>
    requires c.Valid() && i < 2
  {
    MvMagnitudePlan(c, i) + MvFractionPlan(c, i, highPrecision)
  }

  /** The plan for everything else, as the frame's header selects its parts. */
  function NonCoefPlan(c: Counts, h: FrameHeader): seq<Job>
    requires c.Valid()
  {
    ReferencePlan(c, h) + ModePlan(c, h)
    + (if h.txMode == TX_MODE_SELECT then TxPlan(c, 0) + TxPlan(c, 1) else [])
    + Rows(MV, E, c.mv.joint) + MvPlan(c.mv, 0, h.highPrecisionMv) + MvPlan(c.mv, 1, h.highPrecisionMv)
  }

  lemma RowsValid(off: nat, v: Variant, table: seq<seq<u32>>, n: nat)
    requires n == |table| && off + v.Width() * n <= CTX_SIZE && (off + v.Width() * n <= COEF || SKIP <= off)
    ensures AllValid(Rows(off, v, table))
  {
    forall i | 0 <= i < n ensures RowJob(off + v.Width() * i, v, table[i]).Valid() {
      assert v.Width() * (i + 1) <= v.Width() * n by { ScaleMonotone(v.Width(), i + 1, n); }
    }
  }

  lemma ReferencePlanValid(c: Counts, h: FrameHeader)
    requires c.Valid()
    ensures AllValid(ReferencePlan(c, h))
  {
    hide Rows;
    RowsValid(IS_INTER, B, c.intraInter, 4);
    RowsValid(COMP_MODE, B, c.comp, 5);
    RowsValid(COMP_REF, B, c.compRef, 5);
    RowsValid(SINGLE_REF, B, c.singleRef, 10);
  }

  lemma ModePlanValid(c: Counts, h: FrameHeader)
    requires c.Valid()
    ensures AllValid(ModePlan(c, h))
  {
    hide Rows;
    RowsValid(INTER_MODE, C, c.mvMode, 7);
    RowsValid(Y_MODE, D, c.yMode, 4);
    RowsValid(UV_MODE, D, c.uvMode, 10);
    RowsValid(PARTITION, E, c.partition, 16);
    RowsValid(SKIP, B, c.skip, 3);
    RowsValid(INTERP_FILTER, F, c.filter, 4);
  }

  lemma TxPlanValid(c: Counts, i: nat)
    requires c.Valid() && i < 2
    ensures AllValid(TxPlan(c, i))
  {
  }

  lemma MvMagnitudePlanValid(c: MvCounts, i: nat)
    requires c.Valid() && i < 2
    ensures AllValid(MvMagnitudePlan(c, i))
  {
    hide Rows;
    RowsValid(MV_BITS + 10 * i, B, c.bits[10 * i..10 * i + 10], 10);
  }

  lemma MvFractionPlanValid(c: MvCounts, i: nat, highPrecision: bool)
    requires c.Valid() && i < 2
    ensures AllValid(MvFractionPlan(c, i, highPrecision))
  {
    hide Rows;
    RowsValid(MV_CLASS0_FR + 6 * i, E, c.class0Fp[2 * i..2 * i + 2], 2);
  }

  lemma MvPlanValid(c: MvCounts, i: nat, highPrecision: bool)
    requires c.Valid() && i < 2
    ensures AllValid(MvPlan(c, i, highPrecision))
  {
    MvMagnitudePlanValid(c, i);
    MvFractionPlanValid(c, i, highPrecision);
  }

  lemma PlansValid(c: Counts, h: FrameHeader)
    requires c.Valid()
    ensures AllValid(ReferencePlan(c, h)) && AllValid(ModePlan(c, h))
    ensures AllValid(TxPlan(c, 0)) && AllValid(TxPlan(c, 1))
    ensures AllValid(Rows(MV, E, c.mv.joint))
    ensures AllValid(NonCoefPlan(c, h))
  {
    hide Rows, ReferencePlan, ModePlan, TxPlan, MvPlan;
    ReferencePlanValid(c, h);
    ModePlanValid(c, h);
    TxPlanValid(c, 0);
    TxPlanValid(c, 1);
    RowsValid(MV, E, c.mv.joint, 1);
    MvPlanValid(c.mv, 0, h.highPrecisionMv);
    MvPlanValid(c.mv, 1, h.highPrecisionMv);
  }

  // The driver's loops, in place.

  method RunVariant(p: array<byte>, o: nat, v: Variant, c: seq<u32>)
    requires p.Length == CTX_SIZE && |c| == v.Width() + 1 && RowJob(o, v, c).Valid()
    modifies p
    ensures p[..] == RunJob(old(p[..]), RowJob(o, v, c))
  {
    hide MergeAt;
    match v
    case B => MergeProbsVariantB(p, o, c, 20, 128);
    case C => MergeProbsVariantC(p, o, c);
    case D => MergeProbsVariantD(p, o, c);
    case E => MergeProbsVariantE(p, o, c);
    case F => MergeProbsVariantF(p, o, c);
    case G => MergeProbsVariantG(p, o, c);
  }

  method AdaptRows(p: array<byte>, off: nat, v: Variant, table: seq<seq<u32>>)
    requires p.Length == CTX_SIZE && Table(table, |table|, v.Width() + 1) && AllValid(Rows(off, v, table))
    modifies p
    ensures p[..] == Adapt(old(p[..]), Rows(off, v, table))
  {
    hide RunJob;
    ghost var plan := Rows(off, v, table);
    for i := 0 to |table|
      invariant p[..] == Adapt(old(p[..]), plan[..i])
    {
      assert plan[i] == RowJob(off + v.Width() * i, v, table[i]);
      RunVariant(p, off + v.Width() * i, v, table[i]);
      AdaptAppend(old(p[..]), plan[..i], plan[i]);
      assert plan[..i + 1] == plan[..i] + [plan[i]];
    }
    assert plan[..|table|] == plan;
  }

  /** The first `n` blocks of `was` have been adapted to give `p`. */
  ghost predicate CoefDone(p: seq<byte>, was: Context, c: Counts, n: nat, uf: nat) {
    c.Valid() && n <= BLOCKS && uf <= 256 && p == Adapt(was, CoefPlan(c, n, uf))
  }

  method AdaptCoeff(p: array<byte>, g: nat, c: Counts, uf: nat, ghost was: Context)
    requires g < 16 && p.Length == CTX_SIZE && CoefDone(p[..], was, c, 36 * g, uf)
    modifies p
    ensures CoefDone(p[..], was, c, 36 * g + 36, uf)
  {
    hide Adapt, RunJob, CoefPlan;
    for l := 0 to 6
      invariant CoefDone(p[..], was, c, 36 * g + 6 * l, uf)
    {
      var contexts := if l == 0 then 3 else 6;
      for m := 0 to contexts
        invariant CoefDone(p[..], was, c, 36 * g + 6 * l + m, uf)
      {
        AdaptBlock(p, 36 * g + 6 * l + m, c, uf, was);
      }
      if l == 0 {
        PaddingHasNoJobs(c, g, uf);
      }
    }
  }

  lemma PaddingHasNoJobs(c: Counts, g: nat, uf: nat)
    requires c.Valid() && g < 16 && uf <= 256
    ensures CoefPlan(c, 36 * g + 6, uf) == CoefPlan(c, 36 * g + 3, uf)
  {
    hide CoefPlan;
    CoefPlanStep(c, 36 * g + 3, uf);
    CoefPlanStep(c, 36 * g + 4, uf);
    CoefPlanStep(c, 36 * g + 5, uf);
  }

  /** The innermost body of the coefficient loops. */
  method AdaptBlock(p: array<byte>, b: nat, c: Counts, uf: nat, ghost was: Context)
    requires b < BLOCKS && !(3 <= b % 36 < 6) && p.Length == CTX_SIZE && CoefDone(p[..], was, c, b, uf)
    modifies p
    ensures CoefDone(p[..], was, c, b + 1, uf)
  {
    hide Adapt, MergeAt, CoefPlan;
    ghost var plan, jobs := CoefPlan(c, b, uf), BlockJobs(c, b, uf);
    var moreCoefs := [c.eobMore[b], Sub32(c.eobBranch[b], c.eobMore[b])];
    MergeProbsVariantA(p, COEF + 3 * b, c.coeff[b], 24, uf);
    AdaptAppend(was, plan, jobs[0]);
    MergeProbsVariantB(p, COEF + 3 * b, moreCoefs, 24, uf);
    AdaptAppend(was, plan + [jobs[0]], jobs[1]);
    assert plan + jobs == plan + [jobs[0]] + [jobs[1]];
    CoefPlanStep(c, b, uf);
  }

  lemma CoefPlanStep(c: Counts, b: nat, uf: nat)
    requires c.Valid() && b < BLOCKS && uf <= 256
    ensures CoefPlan(c, b + 1, uf) == CoefPlan(c, b, uf) + BlockJobs(c, b, uf)
  {
  }

  /** The update factor of the coefficients: 128 after a key frame, unless this frame is intra too. */
  function CoefFactor(use128: bool, frameIsIntra: bool): nat {
    if !frameIsIntra && use128 then 128 else 112
  }

  method AdaptCoefProbs(p: array<byte>, c: Counts, use128: bool, frameIsIntra: bool)
    requires p.Length == CTX_SIZE && c.Valid()
    modifies p
    ensures p[..] == Adapt(old(p[..]), CoefPlan(c, BLOCKS, CoefFactor(use128, frameIsIntra)))
  {
    if frameIsIntra {
      AdaptAllCoefs(p, c, 112);
    } else if use128 {
      AdaptAllCoefs(p, c, 128);
    } else {
      AdaptAllCoefs(p, c, 112);
    }
  }

  method AdaptAllCoefs(p: array<byte>, c: Counts, uf: nat)
    requires p.Length == CTX_SIZE && c.Valid() && uf <= 256
    modifies p
    ensures CoefDone(p[..], old(p[..]), c, BLOCKS, uf)
  {
    ghost var was := p[..];
    assert CoefDone(p[..], was, c, 0, uf);
    hide CoefDone;
    for i := 0 to 4
      invariant CoefDone(p[..], was, c, 144 * i, uf)
    {
      AdaptTransformCoefs(p, i, c, uf, was);
    }
  }

  method AdaptTransformCoefs(p: array<byte>, i: nat, c: Counts, uf: nat, ghost was: Context)
    requires i < 4 && p.Length == CTX_SIZE && CoefDone(p[..], was, c, 144 * i, uf)
    modifies p
    ensures CoefDone(p[..], was, c, 144 * i + 144, uf)
  {
    hide CoefDone;
    for j := 0 to 2
      invariant CoefDone(p[..], was, c, 144 * i + 72 * j, uf)
    {
      for k := 0 to 2
        invariant CoefDone(p[..], was, c, 144 * i + 72 * j + 36 * k, uf)
      {
        AdaptCoeff(p, 4 * i + 2 * j + k, c, uf, was);
      }
    }
  }

  method AdaptReferences(p: array<byte>, c: Counts, h: FrameHeader)
    requires p.Length == CTX_SIZE && c.Valid() && AllValid(ReferencePlan(c, h))
    modifies p
    ensures p[..] == Adapt(old(p[..]), ReferencePlan(c, h))
  {
    hide Adapt;
    ghost var was := p[..];
    AdaptRows(p, IS_INTER, B, c.intraInter);
    AdaptRows(p, COMP_MODE, B, c.comp);
    ghost var plan := Rows(IS_INTER, B, c.intraInter) + Rows(COMP_MODE, B, c.comp);
    AdaptConcat(was, Rows(IS_INTER, B, c.intraInter), Rows(COMP_MODE, B, c.comp));
    AdaptRows(p, COMP_REF, B, c.compRef);
    AdaptConcat(was, plan, Rows(COMP_REF, B, c.compRef));
    plan := plan + Rows(COMP_REF, B, c.compRef);
    if h.referenceMode.CompoundReference? {
      assert plan + [] == plan;
    } else {
      AdaptRows(p, SINGLE_REF, B, c.singleRef);
      AdaptConcat(was, plan, Rows(SINGLE_REF, B, c.singleRef));
    }
  }

  method AdaptModes(p: array<byte>, c: Counts, h: FrameHeader)
    requires p.Length == CTX_SIZE && c.Valid() && AllValid(ModePlan(c, h))
    modifies p
    ensures p[..] == Adapt(old(p[..]), ModePlan(c, h))
  {
    hide Adapt;
    ghost var was := p[..];
    AdaptRows(p, INTER_MODE, C, c.mvMode);
    AdaptRows(p, Y_MODE, D, c.yMode);
    AdaptConcat(was, Rows(INTER_MODE, C, c.mvMode), Rows(Y_MODE, D, c.yMode));
    ghost var plan := Rows(INTER_MODE, C, c.mvMode) + Rows(Y_MODE, D, c.yMode);
    AdaptRows(p, UV_MODE, D, c.uvMode);
    AdaptConcat(was, plan, Rows(UV_MODE, D, c.uvMode));
    plan := plan + Rows(UV_MODE, D, c.uvMode);
    AdaptRows(p, PARTITION, E, c.partition);
    AdaptConcat(was, plan, Rows(PARTITION, E, c.partition));
    plan := plan + Rows(PARTITION, E, c.partition);
    AdaptRows(p, SKIP, B, c.skip);
    AdaptConcat(was, plan, Rows(SKIP, B, c.skip));
    plan := plan + Rows(SKIP, B, c.skip);
    if h.interpolationFilter == INTERP_FILTER_SWITCHABLE {
      AdaptRows(p, INTERP_FILTER, F, c.filter);
      AdaptConcat(was, plan, Rows(INTERP_FILTER, F, c.filter));
    } else {
      assert plan + [] == plan;
    }
  }

  lemma AdaptNoJob(ctx: Context)
    ensures Adapt(ctx, []) == ctx
  {
  }

  /** Three merges in a row make a plan of three jobs. */
  lemma AdaptThree(ctx: Context, j0: Job, j1: Job, j2: Job)
    requires j0.Valid() && j1.Valid() && j2.Valid()
    ensures Adapt(ctx, [j0, j1, j2]) == RunJob(RunJob(RunJob(ctx, j0), j1), j2)
  {
    hide RunJob, Adapt;
    AdaptNoJob(ctx);
    AdaptAppend(ctx, [], j0);
    AdaptAppend(ctx, [j0], j1);
    AdaptAppend(ctx, [j0, j1], j2);
    assert [] + [j0] == [j0] && [j0] + [j1] == [j0, j1] && [j0, j1] + [j2] == [j0, j1, j2];
  }

  method AdaptTx(p: array<byte>, c: Counts, i: nat)
    requires p.Length == CTX_SIZE && c.Valid() && i < 2 && AllValid(TxPlan(c, i))
    modifies p
    ensures p[..] == Adapt(old(p[..]), TxPlan(c, i))
  {
    hide Adapt, RunJob;
    ghost var plan := TxPlan(c, i);
    assert plan[0].Valid() && plan[1].Valid() && plan[2].Valid();
    RunVariant(p, TX8 + i, B, c.tx8p[i]);
    RunVariant(p, TX16 + 2 * i, F, c.tx16p[i][..3]);
    RunVariant(p, TX32 + 3 * i, E, c.tx32p[i]);
    AdaptThree(old(p[..]), plan[0], plan[1], plan[2]);
  }

  method AdaptMvMagnitude(p: array<byte>, c: MvCounts, i: nat)
    requires p.Length == CTX_SIZE && c.Valid() && i < 2 && AllValid(MvMagnitudePlan(c, i))
    modifies p
    ensures p[..] == Adapt(old(p[..]), MvMagnitudePlan(c, i))
  {
    hide Adapt, RunJob;
    ghost var first := [
      RowJob(MV_SIGN + i, B, c.sign[i]), RowJob(MV_CLASSES + 10 * i, G, c.classes[i]),
      RowJob(MV_CLASS0_BIT + i, B, c.class0[i])];
    ghost var rest := Rows(MV_BITS + 10 * i, B, c.bits[10 * i..10 * i + 10]);
    assert MvMagnitudePlan(c, i) == first + rest;
    PlanParts(first, rest);
    assert first[0].Valid() && first[1].Valid() && first[2].Valid();
    RunVariant(p, MV_SIGN + i, B, c.sign[i]);
    RunVariant(p, MV_CLASSES + 10 * i, G, c.classes[i]);
    RunVariant(p, MV_CLASS0_BIT + i, B, c.class0[i]);
    AdaptThree(old(p[..]), first[0], first[1], first[2]);
    AdaptRows(p, MV_BITS + 10 * i, B, c.bits[10 * i..10 * i + 10]);
    AdaptConcat(old(p[..]), first, rest);
  }

  lemma PlanParts(first: seq<Job>, rest: seq<Job>)
    requires AllValid(first + rest)
    ensures AllValid(first) && AllValid(rest)
  {
    forall i | 0 <= i < |first| ensures first[i].Valid() { assert (first + rest)[i] == first[i]; }
    forall i | 0 <= i < |rest| ensures rest[i].Valid() { assert (first + rest)[|first| + i] == rest[i]; }
  }

  method AdaptMvFraction(p: array<byte>, c: MvCounts, i: nat, highPrecision: bool)
    requires p.Length == CTX_SIZE && c.Valid() && i < 2 && AllValid(MvFractionPlan(c, i, highPrecision))
    modifies p
    ensures p[..] == Adapt(old(p[..]), MvFractionPlan(c, i, highPrecision))
  {
    hide Adapt, RunJob;
    ghost var was := p[..];
    ghost var first := Rows(MV_CLASS0_FR + 6 * i, E, c.class0Fp[2 * i..2 * i + 2]);
    ghost var fr := RowJob(MV_FR + 3 * i, E, c.fp[i]);
    ghost var hp :=
      if highPrecision then [RowJob(MV_CLASS0_HP + i, B, c.class0Hp[i]), RowJob(MV_HP + i, B, c.hp[i])] else [];
    assert MvFractionPlan(c, i, highPrecision) == first + [fr] + hp;
    PlanParts(first + [fr], hp);
    PlanParts(first, [fr]);
    assert [fr][0].Valid();
    AdaptRows(p, MV_CLASS0_FR + 6 * i, E, c.class0Fp[2 * i..2 * i + 2]);
    RunVariant(p, MV_FR + 3 * i, E, c.fp[i]);
    AdaptAppend(was, first, fr);
    if highPrecision {
      assert hp[0].Valid() && hp[1].Valid();
      RunVariant(p, MV_CLASS0_HP + i, B, c.class0Hp[i]);
      AdaptAppend(was, first + [fr], hp[0]);
      RunVariant(p, MV_HP + i, B, c.hp[i]);
      AdaptAppend(was, first + [fr] + [hp[0]], hp[1]);
      assert first + [fr] + hp == first + [fr] + [hp[0]] + [hp[1]];
    } else {
      assert first + [fr] + hp == first + [fr];
    }
  }

  method AdaptMv(p: array<byte>, c: MvCounts, i: nat, highPrecision: bool)
    requires p.Length == CTX_SIZE && c.Valid() && i < 2
    modifies p
    ensures AllValid(MvPlan(c, i, highPrecision)) && p[..] == Adapt(old(p[..]), MvPlan(c, i, highPrecision))
  {
    hide Adapt, MvMagnitudePlan, MvFractionPlan;
    MvMagnitudePlanValid(c, i);
    MvFractionPlanValid(c, i, highPrecision);
    AdaptMvMagnitude(p, c, i);
    AdaptMvFraction(p, c, i, highPrecision);
    AdaptConcat(old(p[..]), MvMagnitudePlan(c, i), MvFractionPlan(c, i, highPrecision));
  }

  method AdaptNonCoefProbs(p: array<byte>, c: Counts, h: FrameHeader)
    requires p.Length == CTX_SIZE && c.Valid()
    modifies p
    ensures AllValid(NonCoefPlan(c, h)) && p[..] == Adapt(old(p[..]), NonCoefPlan(c, h))
  {
    hide Adapt, ReferencePlan, ModePlan, TxPlan, MvPlan, Rows;
    ghost var was := p[..];
    PlansValid(c, h);
    AdaptReferences(p, c, h);
    AdaptModes(p, c, h);
    AdaptConcat(was, ReferencePlan(c, h), ModePlan(c, h));
    ghost var plan := ReferencePlan(c, h) + ModePlan(c, h);
    if h.txMode == TX_MODE_SELECT {
      ghost var half := p[..];
      AdaptTx(p, c, 0);
      AdaptTx(p, c, 1);
      AdaptConcat(half, TxPlan(c, 0), TxPlan(c, 1));
      AdaptConcat(was, plan, TxPlan(c, 0) + TxPlan(c, 1));
      plan := plan + (TxPlan(c, 0) + TxPlan(c, 1));
    } else {
      assert plan + [] == plan;
    }
    AdaptRows(p, MV, E, c.mv.joint);
    AdaptConcat(was, plan, Rows(MV, E, c.mv.joint));
    plan := plan + Rows(MV, E, c.mv.joint);
    for i := 0 to 2
      invariant AllValid(plan) && p[..] == Adapt(was, plan)
      invariant i == 0 ==>
        plan + MvPlan(c.mv, 0, h.highPrecisionMv) + MvPlan(c.mv, 1, h.highPrecisionMv) == NonCoefPlan(c, h)
      invariant i == 1 ==> plan + MvPlan(c.mv, 1, h.highPrecisionMv) == NonCoefPlan(c, h)
      invariant i == 2 ==> plan == NonCoefPlan(c, h)
    {
      AdaptMv(p, c.mv, i, h.highPrecisionMv);
      AdaptConcat(was, plan, MvPlan(c.mv, i, h.highPrecisionMv));
      plan := plan + MvPlan(c.mv, i, h.highPrecisionMv);
    }
  }

  // With nothing counted, every plan is idle.

  lemma CoefNothing(c: Counts, n: nat, uf: nat)
    requires c.Valid() && c.Zero() && n <= BLOCKS && uf <= 256
    ensures NothingCounted(CoefPlan(c, n, uf))
  {
    if n > 0 {
      CoefNothing(c, n - 1, uf);
      assert Sub32(0, 0) == 0;
    }
  }

  lemma RowsNothing(off: nat, v: Variant, table: seq<seq<u32>>)
    requires Zeros(table)
    ensures NothingCounted(Rows(off, v, table))
  {
  }

  lemma MvNothing(c: MvCounts, i: nat, hp: bool)
    requires c.Valid() && c.Zero() && i < 2
    ensures NothingCounted(MvPlan(c, i, hp))
  {
    RowsNothing(MV_BITS + 10 * i, B, c.bits[10 * i..10 * i + 10]);
    RowsNothing(MV_CLASS0_FR + 6 * i, E, c.class0Fp[2 * i..2 * i + 2]);
  }

  lemma ReferenceNothing(c: Counts, h: FrameHeader)
    requires c.Valid() && c.Zero()
    ensures NothingCounted(ReferencePlan(c, h))
  {
    hide Rows;
    RowsNothing(IS_INTER, B, c.intraInter);
    RowsNothing(COMP_MODE, B, c.comp);
    RowsNothing(COMP_REF, B, c.compRef);
    RowsNothing(SINGLE_REF, B, c.singleRef);
  }

  lemma ModeNothing(c: Counts, h: FrameHeader)
    requires c.Valid() && c.Zero()
    ensures NothingCounted(ModePlan(c, h))
  {
    hide Rows;
    RowsNothing(INTER_MODE, C, c.mvMode);
    RowsNothing(Y_MODE, D, c.yMode);
    RowsNothing(UV_MODE, D, c.uvMode);
    RowsNothing(PARTITION, E, c.partition);
    RowsNothing(SKIP, B, c.skip);
    RowsNothing(INTERP_FILTER, F, c.filter);
  }

  lemma NonCoefNothing(c: Counts, h: FrameHeader)
    requires c.Valid() && c.Zero()
    ensures NothingCounted(NonCoefPlan(c, h))
  {
    hide Rows, MvPlan, TxPlan, ReferencePlan, ModePlan;
    ReferenceNothing(c, h);
    ModeNothing(c, h);
    RowsNothing(MV, E, c.mv.joint);
    TxNothing(c, 0);
    TxNothing(c, 1);
    MvNothing(c.mv, 0, h.highPrecisionMv);
    MvNothing(c.mv, 1, h.highPrecisionMv);
  }

  lemma TxNothing(c: Counts, i: nat)
    requires c.Valid() && c.Zero() && i < 2
    ensures NothingCounted(TxPlan(c, i))
  {
  }
}
