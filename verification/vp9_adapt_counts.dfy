/** Which counters adapt which probability: the byte at each place of the context, in terms of the counters of its own
    table and of nothing else. */
module Vp9AdaptCounts {
  import opened Words
  import opened Vp9Layout
  import opened Vp9MergeProb
  import opened Vp9MergeTrees
  import opened Vp9Adapt
  import opened Vp9AdaptOnce
  import opened Vp9Contexts

  /** A probability merged for the counts of its two branches: by the driver's words, and so by the process of
      section 8.4.1 of the VP9 Bitstream & Decoding Process Specification while they fit. */
  predicate Merged(post: byte, pre: byte, ct0: nat, ct1: nat, sat: nat, uf: nat)
    requires 1 <= sat <= 256 && uf <= 256
  {
    && post == MergeProb(pre, Wrap32(ct0), Wrap32(ct1), sat, uf)
    && (Exact(ct0, ct1) ==> post == SpecMergeProb(pre, ct0, ct1, sat, uf))
  }

  /** The same for everything but the coefficients. */
  predicate Binary(p: Context, from: Context, at: int, ct0: nat, ct1: nat)
    requires 0 <= at < CTX_SIZE
  {
    Merged(p[at], from[at], ct0, ct1, 20, 128)
  }

  // The rows of a table, each with the sums of counters that its probabilities decide between.

  predicate BinaryRow(p: Context, from: Context, at: int, c: seq<u32>)
    requires 0 <= at < CTX_SIZE && |c| == 2
  {
    Binary(p, from, at, c[0], c[1])
  }

  predicate FilterRow(p: Context, from: Context, at: int, c: seq<u32>)
    requires 0 <= at < CTX_SIZE - 1 && |c| == 3
  {
    Binary(p, from, at, c[0], c[1] as int + c[2]) && Binary(p, from, at + 1, c[1], c[2])
  }

  predicate PartitionRow(p: Context, from: Context, at: int, c: seq<u32>)
    requires 0 <= at < CTX_SIZE - 2 && |c| == 4
  {
    && Binary(p, from, at, c[0], c[1] as int + c[2] + c[3])
    && Binary(p, from, at + 1, c[1], c[2] as int + c[3])
    && Binary(p, from, at + 2, c[2], c[3])
  }

  predicate InterModeRow(p: Context, from: Context, at: int, c: seq<u32>)
    requires 0 <= at < CTX_SIZE - 2 && |c| == 4
  {
    && Binary(p, from, at, c[2], c[0] as int + c[1] + c[3])
    && Binary(p, from, at + 1, c[0], c[1] as int + c[3])
    && Binary(p, from, at + 2, c[1], c[3])
  }

  predicate IntraModeRow(p: Context, from: Context, at: int, c: seq<u32>)
    requires 0 <= at < CTX_SIZE - 8 && |c| == 10
  {
    && Binary(p, from, at, c[0], c[1] as int + c[2] + c[3] + c[4] + c[5] + c[6] + c[7] + c[8] + c[9])
    && Binary(p, from, at + 1, c[9], c[1] as int + c[2] + c[3] + c[4] + c[5] + c[6] + c[7] + c[8])
    && Binary(p, from, at + 2, c[1], c[2] as int + c[3] + c[4] + c[5] + c[6] + c[7] + c[8])
    && Binary(p, from, at + 3, c[2] as int + c[4] + c[5], c[3] as int + c[6] + c[7] + c[8])
    && Binary(p, from, at + 4, c[2], c[4] as int + c[5])
    && Binary(p, from, at + 5, c[4], c[5])
    && Binary(p, from, at + 6, c[3], c[6] as int + c[7] + c[8])
    && Binary(p, from, at + 7, c[8], c[6] as int + c[7])
    && Binary(p, from, at + 8, c[6], c[7])
  }

  predicate MvClassRow(p: Context, from: Context, at: int, c: seq<u32>)
    requires 0 <= at < CTX_SIZE - 9 && |c| == 11
  {
    && Binary(p, from, at, c[0], c[1] as int + c[2] + c[3] + c[4] + c[5] + c[6] + c[7] + c[8] + c[9] + c[10])
    && Binary(p, from, at + 1, c[1], c[2] as int + c[3] + c[4] + c[5] + c[6] + c[7] + c[8] + c[9] + c[10])
    && Binary(p, from, at + 2, c[2] as int + c[3], c[4] as int + c[5] + c[6] + c[7] + c[8] + c[9] + c[10])
    && Binary(p, from, at + 3, c[2], c[3])
    && Binary(p, from, at + 4, c[4] as int + c[5], c[6] as int + c[7] + c[8] + c[9] + c[10])
    && Binary(p, from, at + 5, c[4], c[5])
    && Binary(p, from, at + 6, c[6], c[7] as int + c[8] + c[9] + c[10])
    && Binary(p, from, at + 7, c[7] as int + c[8], c[9] as int + c[10])
    && Binary(p, from, at + 8, c[7], c[8])
    && Binary(p, from, at + 9, c[9], c[10])
  }

  // From the jobs of a plan to the bytes.

  /** A job of a plan without overlaps decides its bytes alone. */
  lemma JobDecides(from: Context, plan: seq<Job>, job: Job, s: nat, ct0: nat, ct1: nat)
    requires AllValid(plan) && Apart(plan) && job in plan && s < job.w && HasSlot(job.tree, s)
    requires ct0 == Count(ChildrenAt(job.tree, s).0, job.counts) && ct1 == Count(ChildrenAt(job.tree, s).1, job.counts)
    ensures job.off + s < CTX_SIZE && job.sat <= 256 && 1 <= job.sat && job.uf <= 256
    ensures Merged(Adapt(from, plan)[job.off + s], from[job.off + s], ct0, ct1, job.sat, job.uf)
  {
    hide HasSlot, Adapt, MergeProb, SpecMergeProb, Exact, Count, ChildrenAt, Apart;
    var i :| 0 <= i < |plan| && plan[i] == job;
    AdaptOnce(from, plan, job.off + s);
    assert Touches(plan[i], job.off + s);
    if Exact(ct0, ct1) { NodeIsSpec(from[job.off + s], ct0, ct1, job.sat, job.uf); }
  }

  /** The node of slot `s` decides between `ct0` and `ct1`. */
  predicate Node(tree: Tree, s: int, c: seq<u32>, ct0: int, ct1: int) {
    HasSlot(tree, s) && ct0 == Count(ChildrenAt(tree, s).0, c) && ct1 == Count(ChildrenAt(tree, s).1, c)
  }

  /** Rows of the tables, by their jobs. */
  lemma RowDecides(from: Context, plan: seq<Job>, off: nat, v: Variant, c: seq<u32>, s: nat, ct0: nat, ct1: nat)
    requires AllValid(plan) && Apart(plan) && RowJob(off, v, c) in plan && s < v.Width()
    requires Node(v.Tree(), s, c, ct0, ct1)
    ensures off + s < CTX_SIZE && Binary(Adapt(from, plan), from, off + s, ct0, ct1)
  {
    hide HasSlot, Adapt, Count, ChildrenAt, Apart, Merged;
    JobDecides(from, plan, RowJob(off, v, c), s, ct0, ct1);
  }

  lemma BinaryNodes(c: seq<u32>)
    requires |c| == 2
    ensures Node(BINARY_TREE, 0, c, c[0], c[1])
  {
  }

  lemma BinaryRowIs(from: Context, plan: seq<Job>, off: nat, c: seq<u32>)
    requires AllValid(plan) && Apart(plan) && RowJob(off, B, c) in plan && |c| == 2
    ensures off + 1 <= CTX_SIZE && BinaryRow(Adapt(from, plan), from, off, c)
  {
    hide Adapt, Apart, Node, Binary;
    BinaryNodes(c);
    RowDecides(from, plan, off, B, c, 0, c[0], c[1]);
  }

  lemma FilterNodes(c: seq<u32>)
    requires |c| == 3
    ensures Node(INTERP_FILTER_TREE, 0, c, c[0], c[1] as int + c[2])
    ensures Node(INTERP_FILTER_TREE, 1, c, c[1], c[2])
  {
  }

  lemma FilterRowIs(from: Context, plan: seq<Job>, off: nat, c: seq<u32>)
    requires AllValid(plan) && Apart(plan) && RowJob(off, F, c) in plan && |c| == 3
    ensures off + 2 <= CTX_SIZE && FilterRow(Adapt(from, plan), from, off, c)
  {
    hide Adapt, Apart, Node, Binary;
    FilterNodes(c);
    RowDecides(from, plan, off, F, c, 0, c[0], c[1] as int + c[2]);
    RowDecides(from, plan, off, F, c, 1, c[1], c[2]);
  }

  lemma PartitionNodes(c: seq<u32>)
    requires |c| == 4
    ensures Node(PARTITION_TREE, 0, c, c[0], c[1] as int + c[2] + c[3])
    ensures Node(PARTITION_TREE, 1, c, c[1], c[2] as int + c[3])
    ensures Node(PARTITION_TREE, 2, c, c[2], c[3])
  {
  }

  lemma PartitionRowIs(from: Context, plan: seq<Job>, off: nat, c: seq<u32>)
    requires AllValid(plan) && Apart(plan) && RowJob(off, E, c) in plan && |c| == 4
    ensures off + 3 <= CTX_SIZE && PartitionRow(Adapt(from, plan), from, off, c)
  {
    hide Adapt, Apart, Node, Binary;
    PartitionNodes(c);
    RowDecides(from, plan, off, E, c, 0, c[0], c[1] as int + c[2] + c[3]);
    RowDecides(from, plan, off, E, c, 1, c[1], c[2] as int + c[3]);
    RowDecides(from, plan, off, E, c, 2, c[2], c[3]);
  }

  lemma InterModeNodes(c: seq<u32>)
    requires |c| == 4
    ensures Node(INTER_MODE_TREE, 0, c, c[2], c[0] as int + c[1] + c[3])
    ensures Node(INTER_MODE_TREE, 1, c, c[0], c[1] as int + c[3])
    ensures Node(INTER_MODE_TREE, 2, c, c[1], c[3])
  {
  }

  lemma InterModeRowIs(from: Context, plan: seq<Job>, off: nat, c: seq<u32>)
    requires AllValid(plan) && Apart(plan) && RowJob(off, C, c) in plan && |c| == 4
    ensures off + 3 <= CTX_SIZE && InterModeRow(Adapt(from, plan), from, off, c)
  {
    hide Adapt, Apart, Node, Binary;
    InterModeNodes(c);
    RowDecides(from, plan, off, C, c, 0, c[2], c[0] as int + c[1] + c[3]);
    RowDecides(from, plan, off, C, c, 1, c[0], c[1] as int + c[3]);
    RowDecides(from, plan, off, C, c, 2, c[1], c[3]);
  }

  lemma IntraModeNodes(c: seq<u32>)
    requires |c| == 10
    ensures Node(INTRA_MODE_TREE, 0, c, c[0], c[1] as int + c[2] + c[3] + c[4] + c[5] + c[6] + c[7] + c[8] + c[9])
    ensures Node(INTRA_MODE_TREE, 1, c, c[9], c[1] as int + c[2] + c[3] + c[4] + c[5] + c[6] + c[7] + c[8])
    ensures Node(INTRA_MODE_TREE, 2, c, c[1], c[2] as int + c[3] + c[4] + c[5] + c[6] + c[7] + c[8])
    ensures Node(INTRA_MODE_TREE, 3, c, c[2] as int + c[4] + c[5], c[3] as int + c[6] + c[7] + c[8])
    ensures Node(INTRA_MODE_TREE, 4, c, c[2], c[4] as int + c[5])
    ensures Node(INTRA_MODE_TREE, 5, c, c[4], c[5])
    ensures Node(INTRA_MODE_TREE, 6, c, c[3], c[6] as int + c[7] + c[8])
    ensures Node(INTRA_MODE_TREE, 7, c, c[8], c[6] as int + c[7])
    ensures Node(INTRA_MODE_TREE, 8, c, c[6], c[7])
  {
    hide Node;
    UpperIntraModeNodes(c);
    LowerIntraModeNodes(c);
  }

  lemma UpperIntraModeNodes(c: seq<u32>)
    requires |c| == 10
    ensures Node(INTRA_MODE_TREE, 0, c, c[0], c[1] as int + c[2] + c[3] + c[4] + c[5] + c[6] + c[7] + c[8] + c[9])
    ensures Node(INTRA_MODE_TREE, 1, c, c[9], c[1] as int + c[2] + c[3] + c[4] + c[5] + c[6] + c[7] + c[8])
    ensures Node(INTRA_MODE_TREE, 2, c, c[1], c[2] as int + c[3] + c[4] + c[5] + c[6] + c[7] + c[8])
    ensures Node(INTRA_MODE_TREE, 3, c, c[2] as int + c[4] + c[5], c[3] as int + c[6] + c[7] + c[8])
  {
  }

  lemma LowerIntraModeNodes(c: seq<u32>)
    requires |c| == 10
    ensures Node(INTRA_MODE_TREE, 4, c, c[2], c[4] as int + c[5])
    ensures Node(INTRA_MODE_TREE, 5, c, c[4], c[5])
    ensures Node(INTRA_MODE_TREE, 6, c, c[3], c[6] as int + c[7] + c[8])
    ensures Node(INTRA_MODE_TREE, 7, c, c[8], c[6] as int + c[7])
    ensures Node(INTRA_MODE_TREE, 8, c, c[6], c[7])
  {
  }

  lemma IntraModeRowIs(from: Context, plan: seq<Job>, off: nat, c: seq<u32>)
    requires AllValid(plan) && Apart(plan) && RowJob(off, D, c) in plan && |c| == 10
    ensures off + 9 <= CTX_SIZE && IntraModeRow(Adapt(from, plan), from, off, c)
  {
    hide Adapt, Apart, Node, Binary;
    IntraModeNodes(c);
    RowDecides(from, plan, off, D, c, 0, c[0], c[1] as int + c[2] + c[3] + c[4] + c[5] + c[6] + c[7] + c[8] + c[9]);
    RowDecides(from, plan, off, D, c, 1, c[9], c[1] as int + c[2] + c[3] + c[4] + c[5] + c[6] + c[7] + c[8]);
    RowDecides(from, plan, off, D, c, 2, c[1], c[2] as int + c[3] + c[4] + c[5] + c[6] + c[7] + c[8]);
    RowDecides(from, plan, off, D, c, 3, c[2] as int + c[4] + c[5], c[3] as int + c[6] + c[7] + c[8]);
    RowDecides(from, plan, off, D, c, 4, c[2], c[4] as int + c[5]);
    RowDecides(from, plan, off, D, c, 5, c[4], c[5]);
    RowDecides(from, plan, off, D, c, 6, c[3], c[6] as int + c[7] + c[8]);
    RowDecides(from, plan, off, D, c, 7, c[8], c[6] as int + c[7]);
    RowDecides(from, plan, off, D, c, 8, c[6], c[7]);
  }

  lemma MvClassNodes(c: seq<u32>)
    requires |c| == 11
    ensures Node(MV_CLASS_TREE, 0, c, c[0], c[1] as int + c[2] + c[3] + c[4] + c[5] + c[6] + c[7] + c[8] + c[9] + c[10])
    ensures Node(MV_CLASS_TREE, 1, c, c[1], c[2] as int + c[3] + c[4] + c[5] + c[6] + c[7] + c[8] + c[9] + c[10])
    ensures Node(MV_CLASS_TREE, 2, c, c[2] as int + c[3], c[4] as int + c[5] + c[6] + c[7] + c[8] + c[9] + c[10])
    ensures Node(MV_CLASS_TREE, 3, c, c[2], c[3])
    ensures Node(MV_CLASS_TREE, 4, c, c[4] as int + c[5], c[6] as int + c[7] + c[8] + c[9] + c[10])
    ensures Node(MV_CLASS_TREE, 5, c, c[4], c[5])
    ensures Node(MV_CLASS_TREE, 6, c, c[6], c[7] as int + c[8] + c[9] + c[10])
    ensures Node(MV_CLASS_TREE, 7, c, c[7] as int + c[8], c[9] as int + c[10])
    ensures Node(MV_CLASS_TREE, 8, c, c[7], c[8])
    ensures Node(MV_CLASS_TREE, 9, c, c[9], c[10])
  {
    hide Node;
    UpperMvClassNodes(c);
    LowerMvClassNodes(c);
  }

  lemma UpperMvClassNodes(c: seq<u32>)
    requires |c| == 11
    ensures Node(MV_CLASS_TREE, 0, c, c[0], c[1] as int + c[2] + c[3] + c[4] + c[5] + c[6] + c[7] + c[8] + c[9] + c[10])
    ensures Node(MV_CLASS_TREE, 1, c, c[1], c[2] as int + c[3] + c[4] + c[5] + c[6] + c[7] + c[8] + c[9] + c[10])
    ensures Node(MV_CLASS_TREE, 2, c, c[2] as int + c[3], c[4] as int + c[5] + c[6] + c[7] + c[8] + c[9] + c[10])
    ensures Node(MV_CLASS_TREE, 3, c, c[2], c[3])
    ensures Node(MV_CLASS_TREE, 4, c, c[4] as int + c[5], c[6] as int + c[7] + c[8] + c[9] + c[10])
  {
  }

  lemma LowerMvClassNodes(c: seq<u32>)
    requires |c| == 11
    ensures Node(MV_CLASS_TREE, 5, c, c[4], c[5])
    ensures Node(MV_CLASS_TREE, 6, c, c[6], c[7] as int + c[8] + c[9] + c[10])
    ensures Node(MV_CLASS_TREE, 7, c, c[7] as int + c[8], c[9] as int + c[10])
    ensures Node(MV_CLASS_TREE, 8, c, c[7], c[8])
    ensures Node(MV_CLASS_TREE, 9, c, c[9], c[10])
  {
  }

  lemma MvClassRowIs(from: Context, plan: seq<Job>, off: nat, c: seq<u32>)
    requires AllValid(plan) && Apart(plan) && RowJob(off, G, c) in plan && |c| == 11
    ensures off + 10 <= CTX_SIZE && MvClassRow(Adapt(from, plan), from, off, c)
  {
    hide Adapt, Apart, Node, Binary;
    MvClassNodes(c);
    var upper := c[2] as int + c[3] + c[4] + c[5] + c[6] + c[7] + c[8] + c[9] + c[10];
    RowDecides(from, plan, off, G, c, 0, c[0], c[1] + upper);
    RowDecides(from, plan, off, G, c, 1, c[1], upper);
    RowDecides(from, plan, off, G, c, 2, c[2] as int + c[3], c[4] as int + c[5] + c[6] + c[7] + c[8] + c[9] + c[10]);
    RowDecides(from, plan, off, G, c, 3, c[2], c[3]);
    RowDecides(from, plan, off, G, c, 4, c[4] as int + c[5], c[6] as int + c[7] + c[8] + c[9] + c[10]);
    RowDecides(from, plan, off, G, c, 5, c[4], c[5]);
    RowDecides(from, plan, off, G, c, 6, c[6], c[7] as int + c[8] + c[9] + c[10]);
    RowDecides(from, plan, off, G, c, 7, c[7] as int + c[8], c[9] as int + c[10]);
    RowDecides(from, plan, off, G, c, 8, c[7], c[8]);
    RowDecides(from, plan, off, G, c, 9, c[9], c[10]);
  }

  // The tables of a frame.

  /** A job for each row of a table. */
  predicate RowsIn(plan: seq<Job>, off: nat, v: Variant, table: seq<seq<u32>>) {
    forall i | 0 <= i < |table| :: RowJob(off + v.Width() * i, v, table[i]) in plan
  }

  lemma RowsAreIn(off: nat, v: Variant, table: seq<seq<u32>>)
    ensures RowsIn(Rows(off, v, table), off, v, table)
  {
    forall i | 0 <= i < |table| ensures RowJob(off + v.Width() * i, v, table[i]) in Rows(off, v, table) {
      assert Rows(off, v, table)[i] == RowJob(off + v.Width() * i, v, table[i]);
    }
  }

  lemma RowsInMore(plan: seq<Job>, more: seq<Job>, off: nat, v: Variant, table: seq<seq<u32>>)
    requires RowsIn(plan, off, v, table) && forall job | job in plan :: job in more
    ensures RowsIn(more, off, v, table)
  {
  }

  /** Intra flags, references and their modes. */
  ghost predicate ReferencesAdapted(p: Context, from: Context, c: Counts, h: FrameHeader)
    requires c.Valid()
  {
    && (forall i | 0 <= i < 4 :: BinaryRow(p, from, IS_INTER + i, c.intraInter[i]))
    && (forall i | 0 <= i < 5 :: BinaryRow(p, from, COMP_MODE + i, c.comp[i]))
    && (forall i | 0 <= i < 5 :: BinaryRow(p, from, COMP_REF + i, c.compRef[i]))
    && (!h.referenceMode.CompoundReference? ==>
          forall i | 0 <= i < 10 :: BinaryRow(p, from, SINGLE_REF + i, c.singleRef[i]))
  }

  /** Prediction modes, partitions, skip flags and interpolation filters. */
  ghost predicate ModesAdapted(p: Context, from: Context, c: Counts, h: FrameHeader)
    requires c.Valid()
  {
    && (forall i | 0 <= i < 7 :: InterModeRow(p, from, INTER_MODE + 3 * i, c.mvMode[i]))
    && (forall i | 0 <= i < 4 :: IntraModeRow(p, from, Y_MODE + 9 * i, c.yMode[i]))
    && (forall i | 0 <= i < 10 :: IntraModeRow(p, from, UV_MODE + 9 * i, c.uvMode[i]))
    && (forall i | 0 <= i < 16 :: PartitionRow(p, from, PARTITION + 3 * i, c.partition[i]))
    && (forall i | 0 <= i < 3 :: BinaryRow(p, from, SKIP + i, c.skip[i]))
    && (h.interpolationFilter == INTERP_FILTER_SWITCHABLE ==>
          forall i | 0 <= i < 4 :: FilterRow(p, from, INTERP_FILTER + 2 * i, c.filter[i]))
  }

  /** Transform sizes. */
  ghost predicate TxAdapted(p: Context, from: Context, c: Counts, i: nat)
    requires c.Valid() && i < 2
  {
    && BinaryRow(p, from, TX8 + i, c.tx8p[i])
    && FilterRow(p, from, TX16 + 2 * i, c.tx16p[i][..3])
    && PartitionRow(p, from, TX32 + 3 * i, c.tx32p[i])
  }

  /** One component of the motion vectors. */
  ghost predicate MvMagnitudeAdapted(p: Context, from: Context, c: MvCounts, i: nat)
    requires c.Valid() && i < 2
  {
    && BinaryRow(p, from, MV_SIGN + i, c.sign[i])
    && MvClassRow(p, from, MV_CLASSES + 10 * i, c.classes[i])
    && BinaryRow(p, from, MV_CLASS0_BIT + i, c.class0[i])
    && (forall q | 10 * i <= q < 10 * i + 10 :: BinaryRow(p, from, MV_BITS + q, c.bits[q]))
  }

  ghost predicate MvFractionAdapted(p: Context, from: Context, c: MvCounts, i: nat, highPrecision: bool)
    requires c.Valid() && i < 2
  {
    && (forall q | 2 * i <= q < 2 * i + 2 :: PartitionRow(p, from, MV_CLASS0_FR + 3 * q, c.class0Fp[q]))
    && PartitionRow(p, from, MV_FR + 3 * i, c.fp[i])
    && (highPrecision ==>
          BinaryRow(p, from, MV_CLASS0_HP + i, c.class0Hp[i]) && BinaryRow(p, from, MV_HP + i, c.hp[i]))
  }

  /** A plan of a frame that may be asked for its rows. */
  ghost predicate Sound(plan: seq<Job>) {
    AllValid(plan) && Apart(plan)
  }

  lemma BinaryTable(from: Context, plan: seq<Job>, off: nat, table: seq<seq<u32>>, i: nat)
    requires Sound(plan) && RowsIn(plan, off, B, table) && Table(table, |table|, 2) && i < |table|
    ensures off + i < CTX_SIZE && BinaryRow(Adapt(from, plan), from, off + i, table[i])
  {
    hide Adapt, Apart, BinaryRow;
    BinaryRowIs(from, plan, off + i, table[i]);
  }

  lemma ReferencesAre(from: Context, plan: seq<Job>, c: Counts, h: FrameHeader)
    requires c.Valid() && Sound(plan) && forall job | job in ReferencePlan(c, h) :: job in plan
    ensures ReferencesAdapted(Adapt(from, plan), from, c, h)
  {
    hide Adapt, Apart, Rows, BinaryRow, RowsIn;
    TableIn(plan, IS_INTER, B, c.intraInter);
    TableIn(plan, COMP_MODE, B, c.comp);
    TableIn(plan, COMP_REF, B, c.compRef);
    forall i | 0 <= i < 4 ensures BinaryRow(Adapt(from, plan), from, IS_INTER + i, c.intraInter[i]) {
      BinaryTable(from, plan, IS_INTER, c.intraInter, i);
    }
    forall i | 0 <= i < 5 ensures BinaryRow(Adapt(from, plan), from, COMP_MODE + i, c.comp[i]) {
      BinaryTable(from, plan, COMP_MODE, c.comp, i);
    }
    forall i | 0 <= i < 5 ensures BinaryRow(Adapt(from, plan), from, COMP_REF + i, c.compRef[i]) {
      BinaryTable(from, plan, COMP_REF, c.compRef, i);
    }
    if !h.referenceMode.CompoundReference? {
      TableIn(plan, SINGLE_REF, B, c.singleRef);
      forall i | 0 <= i < 10 ensures BinaryRow(Adapt(from, plan), from, SINGLE_REF + i, c.singleRef[i]) {
        BinaryTable(from, plan, SINGLE_REF, c.singleRef, i);
      }
    }
  }

  lemma TableIn(plan: seq<Job>, off: nat, v: Variant, table: seq<seq<u32>>)
    requires forall job | job in Rows(off, v, table) :: job in plan
    ensures RowsIn(plan, off, v, table)
  {
    RowsAreIn(off, v, table);
    RowsInMore(Rows(off, v, table), plan, off, v, table);
  }

  lemma ModesAre(from: Context, plan: seq<Job>, c: Counts, h: FrameHeader)
    requires c.Valid() && Sound(plan) && forall job | job in ModePlan(c, h) :: job in plan
    ensures ModesAdapted(Adapt(from, plan), from, c, h)
  {
    hide Adapt, Apart, Rows, InterModeRow, IntraModeRow, PartitionRow, BinaryRow, FilterRow;
    var p := Adapt(from, plan);
    TableIn(plan, INTER_MODE, C, c.mvMode);
    TableIn(plan, Y_MODE, D, c.yMode);
    TableIn(plan, UV_MODE, D, c.uvMode);
    TableIn(plan, PARTITION, E, c.partition);
    TableIn(plan, SKIP, B, c.skip);
    forall i | 0 <= i < 7 ensures InterModeRow(p, from, INTER_MODE + 3 * i, c.mvMode[i]) {
      InterModeRowIs(from, plan, INTER_MODE + 3 * i, c.mvMode[i]);
    }
    forall i | 0 <= i < 4 ensures IntraModeRow(p, from, Y_MODE + 9 * i, c.yMode[i]) {
      IntraModeRowIs(from, plan, Y_MODE + 9 * i, c.yMode[i]);
    }
    forall i | 0 <= i < 10 ensures IntraModeRow(p, from, UV_MODE + 9 * i, c.uvMode[i]) {
      IntraModeRowIs(from, plan, UV_MODE + 9 * i, c.uvMode[i]);
    }
    forall i | 0 <= i < 16 ensures PartitionRow(p, from, PARTITION + 3 * i, c.partition[i]) {
      PartitionRowIs(from, plan, PARTITION + 3 * i, c.partition[i]);
    }
    forall i | 0 <= i < 3 ensures BinaryRow(p, from, SKIP + i, c.skip[i]) {
      BinaryTable(from, plan, SKIP, c.skip, i);
    }
    if h.interpolationFilter == INTERP_FILTER_SWITCHABLE {
      TableIn(plan, INTERP_FILTER, F, c.filter);
      forall i | 0 <= i < 4 ensures FilterRow(p, from, INTERP_FILTER + 2 * i, c.filter[i]) {
        FilterRowIs(from, plan, INTERP_FILTER + 2 * i, c.filter[i]);
      }
    }
  }

  lemma TxIs(from: Context, plan: seq<Job>, c: Counts, i: nat)
    requires c.Valid() && i < 2 && Sound(plan) && forall job | job in TxPlan(c, i) :: job in plan
    ensures TxAdapted(Adapt(from, plan), from, c, i)
  {
    hide Adapt, Apart, PartitionRow, BinaryRow, FilterRow;
    var jobs := TxPlan(c, i);
    assert jobs[0] in plan && jobs[1] in plan && jobs[2] in plan;
    BinaryRowIs(from, plan, TX8 + i, c.tx8p[i]);
    FilterRowIs(from, plan, TX16 + 2 * i, c.tx16p[i][..3]);
    PartitionRowIs(from, plan, TX32 + 3 * i, c.tx32p[i]);
  }

  lemma MvMagnitudeIs(from: Context, plan: seq<Job>, c: MvCounts, i: nat)
    requires c.Valid() && i < 2 && Sound(plan) && forall job | job in MvMagnitudePlan(c, i) :: job in plan
    ensures MvMagnitudeAdapted(Adapt(from, plan), from, c, i)
  {
    hide Adapt, Apart, BinaryRow, MvClassRow, RowJob, Rows;
    var p, part := Adapt(from, plan), MvMagnitudePlan(c, i);
    assert part[0] in plan && part[1] in plan && part[2] in plan;
    BinaryRowIs(from, plan, MV_SIGN + i, c.sign[i]);
    MvClassRowIs(from, plan, MV_CLASSES + 10 * i, c.classes[i]);
    BinaryRowIs(from, plan, MV_CLASS0_BIT + i, c.class0[i]);
    var bits := c.bits[10 * i..10 * i + 10];
    TableIn(plan, MV_BITS + 10 * i, B, bits);
    forall q | 10 * i <= q < 10 * i + 10 ensures BinaryRow(p, from, MV_BITS + q, c.bits[q]) {
      BinaryTable(from, plan, MV_BITS + 10 * i, bits, q - 10 * i);
    }
  }

  lemma MvFractionIs(from: Context, plan: seq<Job>, c: MvCounts, i: nat, highPrecision: bool)
    requires c.Valid() && i < 2 && Sound(plan)
    requires forall job | job in MvFractionPlan(c, i, highPrecision) :: job in plan
    ensures MvFractionAdapted(Adapt(from, plan), from, c, i, highPrecision)
  {
    hide Adapt, Apart, AllValid, BinaryRow, PartitionRow, RowJob, Rows, RowsIn, MvFractionPlan;
    var p, fractions := Adapt(from, plan), c.class0Fp[2 * i..2 * i + 2];
    MvFractionJobs(c, i, highPrecision);
    TableIn(plan, MV_CLASS0_FR + 6 * i, E, fractions);
    forall q | 2 * i <= q < 2 * i + 2 ensures PartitionRow(p, from, MV_CLASS0_FR + 3 * q, c.class0Fp[q]) {
      FractionRow(from, plan, i, fractions, q - 2 * i);
    }
    PartitionRowIs(from, plan, MV_FR + 3 * i, c.fp[i]);
    if highPrecision {
      BinaryRowIs(from, plan, MV_CLASS0_HP + i, c.class0Hp[i]);
      BinaryRowIs(from, plan, MV_HP + i, c.hp[i]);
    }
  }

  lemma FractionRow(from: Context, plan: seq<Job>, i: nat, fractions: seq<seq<u32>>, j: nat)
    requires i < 2 && j < 2 && Table(fractions, 2, 4) && Sound(plan) && RowsIn(plan, MV_CLASS0_FR + 6 * i, E, fractions)
    ensures PartitionRow(Adapt(from, plan), from, MV_CLASS0_FR + 3 * (2 * i + j), fractions[j])
  {
    hide Adapt, Apart, PartitionRow, RowJob;
    assert RowJob(MV_CLASS0_FR + 6 * i + E.Width() * j, E, fractions[j]) in plan;
    PartitionRowIs(from, plan, MV_CLASS0_FR + 3 * (2 * i + j), fractions[j]);
  }

  lemma MvFractionJobs(c: MvCounts, i: nat, highPrecision: bool)
    requires c.Valid() && i < 2
    ensures var plan := MvFractionPlan(c, i, highPrecision);
      && (forall job | job in Rows(MV_CLASS0_FR + 6 * i, E, c.class0Fp[2 * i..2 * i + 2]) :: job in plan)
      && RowJob(MV_FR + 3 * i, E, c.fp[i]) in plan
      && (highPrecision ==>
            RowJob(MV_CLASS0_HP + i, B, c.class0Hp[i]) in plan && RowJob(MV_HP + i, B, c.hp[i]) in plan)
  {
    hide RowJob, Rows;
  }

  // The coefficients.

  /** A block whose contexts are in use: its first probability decides whether there are more coefficients, from the two
      end-of-block counters, the other two between zero, one and larger tokens. */
  predicate CoefAdapted(p: Context, from: Context, c: Counts, b: nat, uf: nat)
    requires c.Valid() && b < BLOCKS && uf <= 256
  {
    var at, tokens := COEF + 3 * b, c.coeff[b];
    && Merged(p[at], from[at], c.eobMore[b], (c.eobBranch[b] as int - c.eobMore[b]) % 0x1_0000_0000, 24, uf)
    && Merged(p[at + 1], from[at + 1], tokens[0], tokens[1] as int + tokens[2], 24, uf)
    && Merged(p[at + 2], from[at + 2], tokens[1], tokens[2], 24, uf)
  }

  lemma {:induction false} BlockInPlan(c: Counts, b: nat, n: nat, uf: nat)
    requires c.Valid() && b < n <= BLOCKS && uf <= 256
    ensures forall job | job in BlockJobs(c, b, uf) :: job in CoefPlan(c, n, uf)
    decreases n
  {
    hide BlockJobs;
    if b < n - 1 { BlockInPlan(c, b, n - 1, uf); }
  }

  lemma CoefNodes(tokens: seq<u32>, eob: seq<u32>)
    requires |tokens| == 3 && |eob| == 2
    ensures Node(BINARY_TREE, 0, eob, eob[0], eob[1])
    ensures Node(SMALL_TOKEN_TREE, 1, tokens, tokens[0], tokens[1] as int + tokens[2])
    ensures Node(SMALL_TOKEN_TREE, 2, tokens, tokens[1], tokens[2])
  {
  }

  lemma CoefIs(from: Context, plan: seq<Job>, c: Counts, b: nat, uf: nat)
    requires c.Valid() && b < BLOCKS && !(3 <= b % 36 < 6) && uf <= 256 && Sound(plan)
    requires forall job | job in BlockJobs(c, b, uf) :: job in plan
    ensures CoefAdapted(Adapt(from, plan), from, c, b, uf)
  {
    hide Adapt, Apart, Merged, HasSlot, ChildrenAt, Count;
    var jobs := BlockJobs(c, b, uf);
    assert jobs[0] in plan && jobs[1] in plan;
    var tokens, eob := c.coeff[b], jobs[1].counts;
    CoefNodes(tokens, eob);
    JobDecides(from, plan, jobs[0], 1, tokens[0], tokens[1] as int + tokens[2]);
    JobDecides(from, plan, jobs[0], 2, tokens[1], tokens[2]);
    JobDecides(from, plan, jobs[1], 0, eob[0], eob[1]);
  }

  // A frame.

  /** What the counters of an inter frame make of everything but the coefficients. */
  ghost predicate TablesAdapted(p: Context, from: Context, c: Counts, h: FrameHeader)
    requires c.Valid()
  {
    && ReferencesAdapted(p, from, c, h) && ModesAdapted(p, from, c, h)
    && (h.txMode == TX_MODE_SELECT ==> TxAdapted(p, from, c, 0) && TxAdapted(p, from, c, 1))
    && PartitionRow(p, from, MV, c.mv.joint[0])
    && MvMagnitudeAdapted(p, from, c.mv, 0) && MvFractionAdapted(p, from, c.mv, 0, h.highPrecisionMv)
    && MvMagnitudeAdapted(p, from, c.mv, 1) && MvFractionAdapted(p, from, c.mv, 1, h.highPrecisionMv)
  }

  lemma TablesAre(from: Context, plan: seq<Job>, c: Counts, h: FrameHeader)
    requires c.Valid() && Sound(plan) && forall job | job in NonCoefPlan(c, h) :: job in plan
    ensures TablesAdapted(Adapt(from, plan), from, c, h)
  {
    hide Adapt, Sound, Rows, ReferencePlan, ModePlan, TxPlan, MvMagnitudePlan, MvFractionPlan;
    hide ReferencesAdapted, ModesAdapted, TxAdapted, PartitionRow, MvMagnitudeAdapted, MvFractionAdapted;
    ReferencesAre(from, plan, c, h);
    ModesAre(from, plan, c, h);
    if h.txMode == TX_MODE_SELECT {
      TxIs(from, plan, c, 0);
      TxIs(from, plan, c, 1);
    }
    JointIs(from, plan, c.mv);
    MvMagnitudeIs(from, plan, c.mv, 0);
    MvMagnitudeIs(from, plan, c.mv, 1);
    MvFractionIs(from, plan, c.mv, 0, h.highPrecisionMv);
    MvFractionIs(from, plan, c.mv, 1, h.highPrecisionMv);
  }

  lemma JointIs(from: Context, plan: seq<Job>, c: MvCounts)
    requires c.Valid() && Sound(plan) && forall job | job in Rows(MV, E, c.joint) :: job in plan
    ensures PartitionRow(Adapt(from, plan), from, MV, c.joint[0])
  {
    hide Adapt, Apart, PartitionRow;
    TableIn(plan, MV, E, c.joint);
    assert RowJob(MV + E.Width() * 0, E, c.joint[0]) in plan;
    PartitionRowIs(from, plan, MV, c.joint[0]);
  }

  /** A frame that refreshes its context from its counters: where it started is the context it loaded, and every byte it
      saves is merged for the counters of that byte's own place, with factor 112 for the coefficients or 128 behind a
      key frame. */
  lemma FrameAdaptsFromCounts(s: Probs, h: FrameHeader, c: Counts)
    requires s.Valid() && c.Valid() && h.refreshFrameCtx && !h.parallelDecMode
    ensures var from := Loaded(s.saved[s.idx], s.tables, h.FrameIsIntra());
      var p := Finished(s, h, c, true).saved[s.idx];
      var uf := if !h.keyFrame && !h.intraOnly && (!s.previousValid || s.previousKeyFrame) then 128 else 112;
      && (forall b: nat | b < BLOCKS && !(3 <= b % 36 < 6) :: CoefAdapted(p, from, c, b, uf))
      && (!h.keyFrame && !h.intraOnly ==> TablesAdapted(p, from, c, h))
  {
    hide Adapt, Apart, CoefPlan, NonCoefPlan, BlockJobs, CoefAdapted, TablesAdapted;
    var from, plan := Loaded(s.saved[s.idx], s.tables, h.FrameIsIntra()), AdaptPlan(s, h, c);
    var uf := CoefFactor(!s.previousValid || s.previousKeyFrame, h.FrameIsIntra());
    FrameApart(s, h, c);
    forall b: nat | b < BLOCKS && !(3 <= b % 36 < 6) ensures CoefAdapted(Adapt(from, plan), from, c, b, uf) {
      BlockInPlan(c, b, BLOCKS, uf);
      CoefIs(from, plan, c, b, uf);
    }
    if !h.FrameIsIntra() {
      TablesAre(from, plan, c, h);
    }
  }

  /** The end-of-block counters are not interchangeable: 20 branches of which all had more make 174 of 128. */
  lemma EobCountersOrdered()
    ensures MergeProb(128, 20, 0, 24, 112) == 174 && MergeProb(128, 0, 20, 24, 112) == 82
  {
    hide FastDiv, Estimate32, Blend32, TimesNat;
    FactorIsExact(20, 24, 112);
    FactorOfTwenty();
    EstimatesOfTwenty();
    BlendValue(128, 255, 93);
    BlendValue(128, 1, 93);
  }

  lemma FactorOfTwenty()
    ensures TimesNat(112, 20) / 24 == 93
  {
  }

  lemma EstimatesOfTwenty()
    ensures Estimate32(20, 20) == 255 && Estimate32(0, 20) == 1
  {
  }
}
