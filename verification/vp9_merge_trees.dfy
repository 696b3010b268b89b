/**
  The merge of a whole probability tree: the recursive process of section 8.4.2 of the VP9 Bitstream &
  Decoding Process Specification, and the straight-line variants A to G that the driver runs instead of it.
*/
module Vp9MergeTrees {
  import opened Words
  import opened Vp9MergeProb

  /** A token tree.  `slot` is the index of the probability that decides between the branches of a node. */
  datatype Tree = Token(t: nat) | Node(slot: nat, left: Tree, right: Tree)

  /** VP9 stores a tree as an array: entries i and i + 1 are the branches of the node at i, whose
      probability is i >> 1; a positive entry is the index of another node, any other one a negated token. */
  function TreeOf(a: seq<int>, i: nat): Tree
    requires i + 1 < |a|
    requires forall k | 0 <= k < |a| && a[k] > 0 :: k < a[k] && a[k] + 1 < |a|
    decreases |a| - i
  {
    var left := if a[i] > 0 then TreeOf(a, a[i]) else Token(-a[i]);
    var right := if a[i + 1] > 0 then TreeOf(a, a[i + 1]) else Token(-a[i + 1]);
    Node(i / 2, left, right)
  }

  const BINARY_TREE := Node(0, Token(0), Token(1))
  const SMALL_TOKEN_TREE := Node(1, Token(0), Node(2, Token(1), Token(2)))
  const INTER_MODE_TREE := Node(0, Token(2), Node(1, Token(0), Node(2, Token(1), Token(3))))
  const PARTITION_TREE := Node(0, Token(0), Node(1, Token(1), Node(2, Token(2), Token(3))))
  const INTERP_FILTER_TREE := Node(0, Token(0), Node(1, Token(1), Token(2)))

  const INTRA_45 := Node(6, Token(3), Node(7, Token(8), Node(8, Token(6), Token(7))))
  const INTRA_H := Node(4, Token(2), Node(5, Token(4), Token(5)))
  const INTRA_DIRECTIONAL := Node(3, INTRA_H, INTRA_45)
  const INTRA_MODE_TREE := Node(0, Token(0), Node(1, Token(9), Node(2, Token(1), INTRA_DIRECTIONAL)))

  const CLASS_7_UP := Node(7, Node(8, Token(7), Token(8)), Node(9, Token(9), Token(10)))
  const CLASS_6_UP := Node(6, Token(6), CLASS_7_UP)
  const CLASS_4_UP := Node(4, Node(5, Token(4), Token(5)), CLASS_6_UP)
  const CLASS_2_UP := Node(2, Node(3, Token(2), Token(3)), CLASS_4_UP)
  const MV_CLASS_TREE := Node(0, Token(0), Node(1, Token(1), CLASS_2_UP))

  /** The trees above are the arrays that the driver's comments print, each read from the root named there. */
  lemma TreesAreTheArrays()
    ensures TreeOf([0, -1], 0) == BINARY_TREE
    ensures TreeOf([0, 0, 0, 4, -1, -2], 2) == SMALL_TOKEN_TREE
    ensures TreeOf([-2, 2, 0, 4, -1, -3], 0) == INTER_MODE_TREE
    ensures TreeOf([0, 2, -1, 4, -2, -3], 0) == PARTITION_TREE
    ensures TreeOf([0, 2, -1, -2], 0) == INTERP_FILTER_TREE
  {
  }

  lemma IntraModeTreeIsTheArray()
    ensures TreeOf([0, 2, -9, 4, -1, 6, 8, 12, -2, 10, -4, -5, -3, 14, -8, 16, -6, -7], 0) == INTRA_MODE_TREE
  {
  }

  lemma MvClassTreeIsTheArray()
    ensures TreeOf([0, 2, -1, 4, 6, 8, -2, -3, 10, 12, -4, -5, -6, 14, 16, 18, -7, -8, -9, -10], 0) == MV_CLASS_TREE
  {
  }

  /** The counter of a token; a token without one was never counted. */
  function Counter(counts: seq<u32>, t: nat): int {
    if t < |counts| then counts[t] else 0
  }

  /** The count that merging a subtree reports to its parent. */
  function Count(tree: Tree, counts: seq<u32>): (n: int)
    ensures n >= 0
    decreases tree
  {
    match tree
    case Token(t) => Counter(counts, t)
    case Node(_, left, right) => Count(left, counts) + Count(right, counts)
  }

  /** Stores a probability, if the context has a slot for it. */
  function Put(probs: seq<byte>, slot: nat, p: byte): (r: seq<byte>)
    ensures |r| == |probs|
  {
    if slot < |probs| then probs[slot := p] else probs
  }

  function Get(probs: seq<byte>, slot: nat): byte {
    if slot < |probs| then probs[slot] else 0
  }

  /** merge_probs( tree, i, probs, counts, countSat, maxUpdateFactor ) of the VP9 process, returning the new probs. */
  function SpecMergeProbs(tree: Tree, probs: seq<byte>, counts: seq<u32>, sat: nat, uf: nat): (r: seq<byte>)
    requires 1 <= sat && uf <= 256
    ensures |r| == |probs|
    decreases tree
  {
    match tree
    case Token(_) => probs
    case Node(slot, left, right) =>
      var p1 := SpecMergeProbs(left, probs, counts, sat, uf);
      var p2 := SpecMergeProbs(right, p1, counts, sat, uf);
      Put(p2, slot, SpecMergeProb(Get(p2, slot), Count(left, counts), Count(right, counts), sat, uf))
  }

  /** The same recursion with the driver's 32-bit sums and merge_prob. */
  function MergeProbs(tree: Tree, probs: seq<byte>, counts: seq<u32>, sat: nat, uf: nat): (r: seq<byte>)
    ensures |r| == |probs|
    decreases tree
  {
    match tree
    case Token(_) => probs
    case Node(slot, left, right) =>
      var p1 := MergeProbs(left, probs, counts, sat, uf);
      var p2 := MergeProbs(right, p1, counts, sat, uf);
      Put(p2, slot, MergeProb(Get(p2, slot), Wrap32(Count(left, counts)), Wrap32(Count(right, counts)), sat, uf))
  }

  /** Every node of the tree is counted within the words of merge_prob. */
  predicate TreeExact(tree: Tree, counts: seq<u32>)
    decreases tree
  {
    match tree
    case Token(_) => true
    case Node(_, left, right) =>
      Exact(Count(left, counts), Count(right, counts)) && TreeExact(left, counts) && TreeExact(right, counts)
  }

  /** Then the driver's arithmetic makes no difference anywhere in the tree. */
  lemma {:induction false} MergeProbsIsSpec(tree: Tree, probs: seq<byte>, counts: seq<u32>, sat: nat, uf: nat)
    requires 1 <= sat <= 256 && uf <= 256
    requires TreeExact(tree, counts)
    ensures MergeProbs(tree, probs, counts, sat, uf) == SpecMergeProbs(tree, probs, counts, sat, uf)
  {
    hide MergeProb, SpecMergeProb, Exact;
    match tree
    case Token(_) =>
    case Node(slot, left, right) =>
      var p1 := MergeProbs(left, probs, counts, sat, uf);
      var p2 := MergeProbs(right, p1, counts, sat, uf);
      MergeProbsIsSpec(left, probs, counts, sat, uf);
      MergeProbsIsSpec(right, p1, counts, sat, uf);
      NodeIsSpec(Get(p2, slot), Count(left, counts), Count(right, counts), sat, uf);
  }

  lemma NodeIsSpec(pre: byte, left: nat, right: nat, sat: nat, uf: nat)
    requires 1 <= sat <= 256 && uf <= 256 && Exact(left, right)
    ensures MergeProb(pre, Wrap32(left), Wrap32(right), sat, uf) == SpecMergeProb(pre, left, right, sat, uf)
  {
    hide MergeProb, SpecMergeProb;
    WordIsWrapped(left);
    WordIsWrapped(right);
    MergeProbIsSpec(pre, left, right, sat, uf);
  }

  /** It is enough that the counters of the tree add up to at most MAX_EXACT_COUNT. */
  lemma {:induction false} SmallTreeIsExact(tree: Tree, counts: seq<u32>)
    requires Count(tree, counts) <= MAX_EXACT_COUNT
    ensures TreeExact(tree, counts)
  {
    hide Exact;
    match tree
    case Token(_) =>
    case Node(_, left, right) =>
      SmallIsExact(Count(left, counts), Count(right, counts));
      SmallTreeIsExact(left, counts);
      SmallTreeIsExact(right, counts);
  }

  /** Whatever the counters hold, usable probabilities stay usable. */
  lemma {:induction false} MergeProbsStayUsable(tree: Tree, probs: seq<byte>, counts: seq<u32>, sat: nat, uf: nat)
    requires 1 <= sat <= 256 && uf <= 256
    requires forall k | 0 <= k < |probs| :: probs[k] >= 1
    ensures forall k | 0 <= k < |probs| :: MergeProbs(tree, probs, counts, sat, uf)[k] >= 1
  {
    hide MergeProb;
    match tree
    case Token(_) =>
    case Node(slot, left, right) =>
      var p1 := MergeProbs(left, probs, counts, sat, uf);
      var p2 := MergeProbs(right, p1, counts, sat, uf);
      MergeProbsStayUsable(left, probs, counts, sat, uf);
      MergeProbsStayUsable(right, p1, counts, sat, uf);
      MergeProbBetween(Get(p2, slot), Wrap32(Count(left, counts)), Wrap32(Count(right, counts)), sat, uf);
  }

  /** With no symbol counted the tree is left alone. */
  lemma {:induction false} MergeProbsOfZeros(tree: Tree, probs: seq<byte>, counts: seq<u32>, sat: nat, uf: nat)
    requires forall k | 0 <= k < |counts| :: counts[k] == 0
    ensures Count(tree, counts) == 0
    ensures MergeProbs(tree, probs, counts, sat, uf) == probs
  {
    hide MergeProb;
    match tree
    case Token(_) =>
    case Node(slot, left, right) =>
      MergeProbsOfZeros(left, probs, counts, sat, uf);
      MergeProbsOfZeros(right, probs, counts, sat, uf);
      MergeProbZero(Get(probs, slot), sat, uf);
  }

  /** The context with one tree merged over the `w` probabilities that start at `off`. */
  function MergeAt(ctx: seq<byte>, off: nat, w: nat, tree: Tree, counts: seq<u32>, sat: nat, uf: nat): (r: seq<byte>)
    requires off + w <= |ctx|
    ensures |r| == |ctx|
  {
    ctx[..off] + MergeProbs(tree, ctx[off..off + w], counts, sat, uf) + ctx[off + w..]
  }

  lemma {:induction false} MergedAt(
    p: seq<byte>, was: seq<byte>, off: nat, w: nat, tree: Tree, counts: seq<u32>, sat: nat, uf: nat)
    requires off + w <= |was| == |p|
    requires p[off..off + w] == MergeProbs(tree, was[off..off + w], counts, sat, uf)
    requires forall k | 0 <= k < |p| && !(off <= k < off + w) :: p[k] == was[k]
    ensures p == MergeAt(was, off, w, tree, counts, sat, uf)
  {
    hide MergeProbs;
    assert p[..off] == was[..off];
    assert p[off + w..] == was[off + w..];
    assert p == p[..off] + p[off..off + w] + p[off + w..];
  }

  // The variants.  Each leaves in the `p` probabilities from `o` on what the recursion on its tree leaves there,
  // for every vector of counters: sums that wrap and sums that are reduced step by step agree modulo 2^32.

  method MergeProbsVariantA(p: array<byte>, o: nat, c: seq<u32>, sat: nat, uf: nat)
    requires o + 3 <= p.Length && |c| == 3
    modifies p
    ensures p[..] == MergeAt(old(p[..]), o, 3, SMALL_TOKEN_TREE, c, sat, uf)
  {
    hide MergeProb, Wrap32, Add32;
    ghost var was, s := p[..], p[o..o + 3];
    p[o + 1] := MergeProb(p[o + 1], c[0], Add32(c[1], c[2]), sat, uf);
    p[o + 2] := MergeProb(p[o + 2], c[1], c[2], sat, uf);
    AllWords(c);
    SumOf3(c[1], c[2], 0);
    MergedAt(p[..], was, o, 3, SMALL_TOKEN_TREE, c, sat, uf);
  }

  method MergeProbsVariantB(p: array<byte>, o: nat, c: seq<u32>, sat: nat, uf: nat)
    requires o + 1 <= p.Length && |c| == 2
    modifies p
    ensures p[..] == MergeAt(old(p[..]), o, 1, BINARY_TREE, c, sat, uf)
  {
    hide MergeProb, Wrap32, Add32;
    ghost var was, s := p[..], p[o..o + 1];
    p[o] := MergeProb(p[o], c[0], c[1], sat, uf);
    AllWords(c);
    MergedAt(p[..], was, o, 1, BINARY_TREE, c, sat, uf);
  }

  method MergeProbsVariantC(p: array<byte>, o: nat, c: seq<u32>)
    requires o + 3 <= p.Length && |c| == 4
    modifies p
    ensures p[..] == MergeAt(old(p[..]), o, 3, INTER_MODE_TREE, c, 20, 128)
  {
    hide MergeProb, Wrap32, Add32;
    ghost var was, s := p[..], p[o..o + 3];
    p[o] := MergeProb(p[o], c[2], Add32(Add32(c[1], c[0]), c[3]), 20, 128);
    p[o + 1] := MergeProb(p[o + 1], c[0], Add32(c[1], c[3]), 20, 128);
    p[o + 2] := MergeProb(p[o + 2], c[1], c[3], 20, 128);
    AllWords(c);
    SumOf3(c[1], c[0], c[3]);
    SumOf3(c[1], c[3], 0);
    MergedAt(p[..], was, o, 3, INTER_MODE_TREE, c, 20, 128);
  }

  method MergeProbsVariantE(p: array<byte>, o: nat, c: seq<u32>)
    requires o + 3 <= p.Length && |c| == 4
    modifies p
    ensures p[..] == MergeAt(old(p[..]), o, 3, PARTITION_TREE, c, 20, 128)
  {
    hide MergeProb, Wrap32, Add32;
    ghost var was, s := p[..], p[o..o + 3];
    p[o] := MergeProb(p[o], c[0], Add32(Add32(c[1], c[2]), c[3]), 20, 128);
    p[o + 1] := MergeProb(p[o + 1], c[1], Add32(c[2], c[3]), 20, 128);
    p[o + 2] := MergeProb(p[o + 2], c[2], c[3], 20, 128);
    AllWords(c);
    SumOf3(c[1], c[2], c[3]);
    SumOf3(c[2], c[3], 0);
    MergedAt(p[..], was, o, 3, PARTITION_TREE, c, 20, 128);
  }

  method MergeProbsVariantF(p: array<byte>, o: nat, c: seq<u32>)
    requires o + 2 <= p.Length && |c| == 3
    modifies p
    ensures p[..] == MergeAt(old(p[..]), o, 2, INTERP_FILTER_TREE, c, 20, 128)
  {
    hide MergeProb, Wrap32, Add32;
    ghost var was, s := p[..], p[o..o + 2];
    p[o] := MergeProb(p[o], c[0], Add32(c[1], c[2]), 20, 128);
    p[o + 1] := MergeProb(p[o + 1], c[1], c[2], 20, 128);
    AllWords(c);
    SumOf3(c[1], c[2], 0);
    MergedAt(p[..], was, o, 2, INTERP_FILTER_TREE, c, 20, 128);
  }

  lemma {:induction false} AllWords(c: seq<u32>)
    ensures forall k | 0 <= k < |c| :: Wrap32(c[k]) == c[k]
  {
  }

  /** The sum of c[lo..hi] in an unsigned variable, added from the left. */
  function SumWords(c: seq<u32>, lo: nat, hi: nat): u32
    requires lo <= hi <= |c|
  {
    if lo == hi then 0 else Add32(SumWords(c, lo, hi - 1), c[hi - 1])
  }

  function Sum(c: seq<u32>, lo: nat, hi: nat): int
    requires lo <= hi <= |c|
  {
    if lo == hi then 0 else Sum(c, lo, hi - 1) + c[hi - 1]
  }

  lemma SumWordsIsSum(c: seq<u32>, lo: nat, hi: nat)
    requires lo <= hi <= |c|
    ensures SumWords(c, lo, hi) == Wrap32(Sum(c, lo, hi))
  {
    if lo < hi {
      SumWordsIsSum(c, lo, hi - 1);
      AddTo(Sum(c, lo, hi - 1), c[hi - 1]);
    }
  }

  lemma SubtractWrapped(x: int, y: int)
    ensures Sub32(Wrap32(x), Wrap32(y)) == Wrap32(x - y)
  {
  }

  method MergeProbsVariantD(p: array<byte>, o: nat, c: seq<u32>)
    requires o + 9 <= p.Length && |c| == 10
    modifies p
    ensures p[..] == MergeAt(old(p[..]), o, 9, INTRA_MODE_TREE, c, 20, 128)
  {
    hide MergeProb, MergeProbs, MergeAt, Wrap32, Add32, Sub32, SumWords, Count, Counter;
    ghost var was, s := p[..], p[o..o + 9];
    IntraModeSums(c);
    var sum := SumWords(c, 1, 10);
    p[o] := MergeProb(p[o], c[0], sum, 20, 128);
    sum := Sub32(sum, c[9]);
    p[o + 1] := MergeProb(p[o + 1], c[9], sum, 20, 128);
    sum := Sub32(sum, c[1]);
    p[o + 2] := MergeProb(p[o + 2], c[1], sum, 20, 128);
    var s2 := Add32(Add32(c[2], c[4]), c[5]);
    sum := Sub32(sum, s2);
    p[o + 3] := MergeProb(p[o + 3], s2, sum, 20, 128);
    s2 := Sub32(s2, c[2]);
    p[o + 4] := MergeProb(p[o + 4], c[2], s2, 20, 128);
    p[o + 5] := MergeProb(p[o + 5], c[4], c[5], 20, 128);
    sum := Sub32(sum, c[3]);
    p[o + 6] := MergeProb(p[o + 6], c[3], sum, 20, 128);
    sum := Sub32(sum, c[8]);
    p[o + 7] := MergeProb(p[o + 7], c[8], sum, 20, 128);
    p[o + 8] := MergeProb(p[o + 8], c[6], c[7], 20, 128);
    assert p[o..o + 9] == [p[o], p[o + 1], p[o + 2], p[o + 3], p[o + 4], p[o + 5], p[o + 6], p[o + 7], p[o + 8]];
    IntraModeMerged(s, c);
    MergedAt(p[..], was, o, 9, INTRA_MODE_TREE, c, 20, 128);
  }

  lemma {:induction false} IntraModeCounts(c: seq<u32>)
    requires |c| == 10
    ensures Count(INTRA_H, c) == Counter(c, 2) + Counter(c, 4) + Counter(c, 5)
    ensures Count(INTRA_45, c) == Counter(c, 3) + Counter(c, 8) + Counter(c, 6) + Counter(c, 7)
    ensures Count(INTRA_DIRECTIONAL, c) == Count(INTRA_H, c) + Count(INTRA_45, c)
    ensures SumWords(c, 1, 10) == Wrap32(Counter(c, 9) + Counter(c, 1) + Count(INTRA_DIRECTIONAL, c))
    ensures Add32(Add32(c[2], c[4]), c[5]) == Wrap32(Count(INTRA_H, c))
  {
    hide Wrap32, Add32, SumWords;
    SumWordsIsSum(c, 1, 10);
    assert Sum(c, 1, 3) == Sum(c, 1, 1) + c[1] as int + c[2] as int;
    assert Sum(c, 1, 5) == Sum(c, 1, 3) + c[3] as int + c[4] as int;
    assert Sum(c, 1, 7) == Sum(c, 1, 5) + c[5] as int + c[6] as int;
    assert Sum(c, 1, 9) == Sum(c, 1, 7) + c[7] as int + c[8] as int;
    SumOf3(c[2], c[4], c[5]);
  }

  /** The variable sum of variant D, stage by stage, and its s2. */
  lemma {:induction false} IntraModeSums(c: seq<u32>)
    requires |c| == 10
    ensures var h, d := Count(INTRA_H, c), Count(INTRA_45, c);
      && SumWords(c, 1, 10) == Wrap32(Counter(c, 9) + Counter(c, 1) + (h + d))
      && Sub32(Wrap32(Counter(c, 9) + Counter(c, 1) + (h + d)), c[9]) == Wrap32(Counter(c, 1) + (h + d))
      && Sub32(Wrap32(Counter(c, 1) + (h + d)), c[1]) == Wrap32(h + d)
      && Add32(Add32(c[2], c[4]), c[5]) == Wrap32(h)
      && Sub32(Wrap32(h + d), Wrap32(h)) == Wrap32(d)
      && Sub32(Wrap32(h), c[2]) == Wrap32(h - c[2])
      && Sub32(Wrap32(d), c[3]) == Wrap32(d - c[3])
      && Sub32(Wrap32(d - c[3]), c[8]) == Wrap32(d - c[3] - c[8])
  {
    hide Wrap32, Add32, Sub32, SumWords;
    IntraModeCounts(c);
    var h, d := Count(INTRA_H, c), Count(INTRA_45, c);
    AddTo(Counter(c, 9) + Counter(c, 1) + (h + d), c[9]);
    AddTo(Counter(c, 1) + (h + d), c[1]);
    SubtractWrapped(h + d, h);
    AddTo(h, c[2]);
    AddTo(d, c[3]);
    AddTo(d - c[3], c[8]);
  }

  /** The recursion on the intra mode tree, written out. */
  lemma {:induction false} IntraModeMerged(s: seq<byte>, c: seq<u32>)
    requires |s| == 9 && |c| == 10
    ensures var h, d := Count(INTRA_H, c), Count(INTRA_45, c);
      MergeProbs(INTRA_MODE_TREE, s, c, 20, 128) == [
        MergeProb(s[0], c[0], Wrap32(Counter(c, 9) + Counter(c, 1) + (h + d)), 20, 128),
        MergeProb(s[1], c[9], Wrap32(Counter(c, 1) + (h + d)), 20, 128),
        MergeProb(s[2], c[1], Wrap32(h + d), 20, 128),
        MergeProb(s[3], Wrap32(h), Wrap32(d), 20, 128),
        MergeProb(s[4], c[2], Wrap32(h - c[2]), 20, 128),
        MergeProb(s[5], c[4], c[5], 20, 128),
        MergeProb(s[6], c[3], Wrap32(d - c[3]), 20, 128),
        MergeProb(s[7], c[8], Wrap32(d - c[3] - c[8]), 20, 128),
        MergeProb(s[8], c[6], c[7], 20, 128)]
  {
    hide MergeProb, Wrap32;
    AllWords(c);
  }

  method MergeProbsVariantG(p: array<byte>, o: nat, c: seq<u32>)
    requires o + 10 <= p.Length && |c| == 11
    modifies p
    ensures p[..] == MergeAt(old(p[..]), o, 10, MV_CLASS_TREE, c, 20, 128)
  {
    hide MergeProb, MergeProbs, MergeAt, Wrap32, Add32, Sub32, SumWords, Count, Counter;
    ghost var was, s := p[..], p[o..o + 10];
    MvClassSums(c);
    var sum := SumWords(c, 1, 11);
    p[o] := MergeProb(p[o], c[0], sum, 20, 128);
    sum := Sub32(sum, c[1]);
    p[o + 1] := MergeProb(p[o + 1], c[1], sum, 20, 128);
    sum := Sub32(sum, Add32(c[2], c[3]));
    p[o + 2] := MergeProb(p[o + 2], Add32(c[2], c[3]), sum, 20, 128);
    p[o + 3] := MergeProb(p[o + 3], c[2], c[3], 20, 128);
    sum := Sub32(sum, Add32(c[4], c[5]));
    p[o + 4] := MergeProb(p[o + 4], Add32(c[4], c[5]), sum, 20, 128);
    p[o + 5] := MergeProb(p[o + 5], c[4], c[5], 20, 128);
    sum := Sub32(sum, c[6]);
    p[o + 6] := MergeProb(p[o + 6], c[6], sum, 20, 128);
    p[o + 7] := MergeProb(p[o + 7], Add32(c[7], c[8]), Add32(c[9], c[10]), 20, 128);
    p[o + 8] := MergeProb(p[o + 8], c[7], c[8], 20, 128);
    p[o + 9] := MergeProb(p[o + 9], c[9], c[10], 20, 128);
    assert p[o..o + 10]
        == [p[o], p[o + 1], p[o + 2], p[o + 3], p[o + 4], p[o + 5], p[o + 6], p[o + 7], p[o + 8], p[o + 9]];
    MvClassMerged(s, c);
    MergedAt(p[..], was, o, 10, MV_CLASS_TREE, c, 20, 128);
  }

  lemma {:induction false} MvClassCounts(c: seq<u32>)
    requires |c| == 11
    ensures Count(CLASS_7_UP, c) == Counter(c, 7) + Counter(c, 8) + (Counter(c, 9) + Counter(c, 10))
    ensures Count(CLASS_6_UP, c) == c[6] + Count(CLASS_7_UP, c)
    ensures Count(CLASS_4_UP, c) == Counter(c, 4) + Counter(c, 5) + Count(CLASS_6_UP, c)
    ensures Count(CLASS_2_UP, c) == Counter(c, 2) + Counter(c, 3) + Count(CLASS_4_UP, c)
    ensures SumWords(c, 1, 11) == Wrap32(c[1] + Count(CLASS_2_UP, c))
    ensures Add32(c[2], c[3]) == Wrap32(Counter(c, 2) + Counter(c, 3))
    ensures Add32(c[4], c[5]) == Wrap32(Counter(c, 4) + Counter(c, 5))
    ensures Add32(c[7], c[8]) == Wrap32(Counter(c, 7) + Counter(c, 8))
    ensures Add32(c[9], c[10]) == Wrap32(Counter(c, 9) + Counter(c, 10))
  {
    hide Wrap32, Add32, SumWords;
    SumWordsIsSum(c, 1, 11);
    assert Sum(c, 1, 3) == Sum(c, 1, 1) + c[1] as int + c[2] as int;
    assert Sum(c, 1, 5) == Sum(c, 1, 3) + c[3] as int + c[4] as int;
    assert Sum(c, 1, 7) == Sum(c, 1, 5) + c[5] as int + c[6] as int;
    assert Sum(c, 1, 9) == Sum(c, 1, 7) + c[7] as int + c[8] as int;
    SumOf3(c[2], c[3], 0);
    SumOf3(c[4], c[5], 0);
    SumOf3(c[7], c[8], 0);
    SumOf3(c[9], c[10], 0);
  }

  /** The variable sum of variant G, stage by stage. */
  lemma {:induction false} MvClassSums(c: seq<u32>)
    requires |c| == 11
    ensures var n2, n4 := Count(CLASS_2_UP, c), Count(CLASS_4_UP, c);
      var n6, n7 := Count(CLASS_6_UP, c), Count(CLASS_7_UP, c);
      && SumWords(c, 1, 11) == Wrap32(c[1] + n2)
      && Sub32(Wrap32(c[1] + n2), c[1]) == Wrap32(n2)
      && Sub32(Wrap32(n2), Add32(c[2], c[3])) == Wrap32(n4)
      && Sub32(Wrap32(n4), Add32(c[4], c[5])) == Wrap32(n6)
      && Sub32(Wrap32(n6), c[6]) == Wrap32(n7)
    ensures Add32(c[2], c[3]) == Wrap32(Counter(c, 2) + Counter(c, 3))
    ensures Add32(c[4], c[5]) == Wrap32(Counter(c, 4) + Counter(c, 5))
    ensures Add32(c[7], c[8]) == Wrap32(Counter(c, 7) + Counter(c, 8))
    ensures Add32(c[9], c[10]) == Wrap32(Counter(c, 9) + Counter(c, 10))
  {
    hide Wrap32, Add32, Sub32, SumWords;
    MvClassCounts(c);
    var n2, n4, n6, n7 := Count(CLASS_2_UP, c), Count(CLASS_4_UP, c), Count(CLASS_6_UP, c), Count(CLASS_7_UP, c);
    AddTo(c[1] + n2, c[1]);
    SubtractWrapped(n2, Counter(c, 2) + Counter(c, 3));
    SubtractWrapped(n4, Counter(c, 4) + Counter(c, 5));
    AddTo(n6, c[6]);
  }

  /** The recursion on the motion vector class tree, written out. */
  lemma {:induction false} MvClassMerged(s: seq<byte>, c: seq<u32>)
    requires |s| == 10 && |c| == 11
    ensures var n2, n4 := Count(CLASS_2_UP, c), Count(CLASS_4_UP, c);
      var n6, n7 := Count(CLASS_6_UP, c), Count(CLASS_7_UP, c);
      MergeProbs(MV_CLASS_TREE, s, c, 20, 128) == [
        MergeProb(s[0], c[0], Wrap32(c[1] + n2), 20, 128),
        MergeProb(s[1], c[1], Wrap32(n2), 20, 128),
        MergeProb(s[2], Wrap32(Counter(c, 2) + Counter(c, 3)), Wrap32(n4), 20, 128),
        MergeProb(s[3], c[2], c[3], 20, 128),
        MergeProb(s[4], Wrap32(Counter(c, 4) + Counter(c, 5)), Wrap32(n6), 20, 128),
        MergeProb(s[5], c[4], c[5], 20, 128),
        MergeProb(s[6], c[6], Wrap32(n7), 20, 128),
        MergeProb(s[7], Wrap32(Counter(c, 7) + Counter(c, 8)), Wrap32(Counter(c, 9) + Counter(c, 10)), 20, 128),
        MergeProb(s[8], c[7], c[8], 20, 128),
        MergeProb(s[9], c[9], c[10], 20, 128)]
  {
    hide MergeProb, Wrap32;
    AllWords(c);
  }
}
