/**
  The probability merge of the VP9 backward adaptation: the driver's 32-bit implementation, the
  process of section 8.4.1 of the VP9 Bitstream & Decoding Process Specification, and their relation.
*/
module Vp9MergeProb {
  import opened Words

  /** DIV_INV: the rounded-up reciprocal, in units of 2^-32. */
  function DivInv(d: int): u32
    requires 2 <= d <= 256
  {
    (TWO_32 + (d - 1)) / d
  }

  function FastDiv(dividend: u32, divisor: nat): nat {
    if divisor == 0 then 0
    else if divisor == 1 then dividend
    else if divisor > 256 then dividend
    else TimesNat(dividend, DivInv(divisor)) / TWO_32
  }

  function TimesNat(x: nat, y: nat): nat {
    x * y
  }

  /** By how much the rounded-up reciprocal is too large. */
  function Excess(d: int): (e: int)
    requires 2 <= d <= 256
    ensures 0 <= e < d
  {
    FloorDiv(TWO_32 + (d - 1), d);
    DivInv(d) * d - TWO_32
  }

  /** Exactly when fastdiv divides: the excess, scaled by the dividend, has to fit above the remainder. */
  lemma FastDivExactIff(n: u32, d: nat)
    requires 2 <= d <= 256
    ensures FastDiv(n, d) == n / d <==> n % d * TWO_32 + n * Excess(d) < d * TWO_32
  {
    hide DivInv, Excess;
    var inv, q := DivInv(d), n / d;
    var rest := n * inv - q * TWO_32;
    DivMod(n, d);
    ReciprocalIs(d);
    Rearranged(n, d, inv, Excess(d), q, n % d);
    ScaleMonotone(Excess(d), 0, n);
    ScaleOrder(rest, TWO_32, d);
    ScaleOrder(rest, 0, d);
    FloorDiv(n * inv, TWO_32);
    if rest < TWO_32 { QuotientIs(n * inv, q, rest); }
  }

  lemma ReciprocalIs(d: int)
    requires 2 <= d <= 256
    ensures DivInv(d) * d == TWO_32 + Excess(d)
  {
  }

  /** The least dividend that some divisor of the table divides wrongly. */
  const FASTDIV_BOUND := 16909559

  /** Below it fastdiv is a division. */
  lemma FastDivIsDivision(dividend: u32, divisor: nat)
    requires 1 <= divisor <= 256 && dividend < FASTDIV_BOUND
    ensures FastDiv(dividend, divisor) == dividend / divisor
  {
    if divisor > 1 {
      FastDivExactIff(dividend, divisor);
      hide FastDiv, DivInv;
      var r, e := dividend % divisor, Excess(divisor);
      if divisor == 255 {
        ExcessOf255();
        hide Excess;
        assert r == 254 ==> dividend <= 16909304;
      } else if divisor == 256 {
        ExcessOf256();
      } else {
        hide Excess;
        ScaleMonotone(dividend, e, 253);
        ScaleMonotone(TWO_32, r, divisor - 1);
      }
    }
  }

  lemma ExcessOf255()
    ensures Excess(255) == 254
  {
  }

  lemma ExcessOf256()
    ensures Excess(256) == 0
  {
  }

  /** At the bound 255 divides wrongly.  merge_prob, the only caller, stays at 128 * 24 and below. */
  lemma FastDivFailsBeyond()
    ensures FastDiv(FASTDIV_BOUND, 255) != FASTDIV_BOUND / 255
  {
    FastDivExactIff(FASTDIV_BOUND, 255);
    ExcessOf255();
  }

  lemma Rearranged(n: int, d: int, inv: int, excess: int, q: int, r: int)
    requires inv * d == TWO_32 + excess && n == q * d + r
    ensures (n * inv - q * TWO_32) * d == r * TWO_32 + n * excess
  {
    calc {
      (n * inv - q * TWO_32) * d;
      n * (inv * d) - q * d * TWO_32;
      n * TWO_32 + n * excess - q * d * TWO_32;
      r * TWO_32 + n * excess;
    }
  }

  /** The driver's merge_prob: every intermediate value is a 32-bit word, and the result a byte. */
  function MergeProb(preProb: byte, ct0: u32, ct1: u32, countSat: nat, maxUpdateFactor: nat): byte
  {
    var den := Wrap32(ct0 + ct1);
    if den == 0 then preProb
    else
      var prob := Estimate32(ct0, den);
      var count := Min(den, countSat);
      var factor := FastDiv(Wrap32(TimesNat(maxUpdateFactor, count)), countSat);
      Blend32(preProb, prob, factor)
  }

  function Blend32(preProb: byte, prob: byte, factor: nat): byte {
    (preProb + Wrap32(Wrap32(Wrap32(prob - preProb) * factor) + 128) / 256) % 256
  }

  function Estimate32(ct0: u32, den: u32): int
    requires den > 0
  {
    Clamp(Wrap32(Wrap32(ct0 * 256) + den / 2) / den, 1, 255)
  }

  /** The VP9 function Round2, on non-negative arguments. */
  function Round2(x: nat, n: nat): nat {
    if n == 0 then x else (x / Pow2(n - 1) + 1) / 2
  }

  /** The merge of one probability, over unbounded integers. */
  function SpecMergeProb(preProb: byte, ct0: nat, ct1: nat, countSat: nat, maxUpdateFactor: nat): byte
    requires 1 <= countSat && maxUpdateFactor <= 256
  {
    var den := ct0 + ct1;
    var prob := if den == 0 then 128 else Clamp((ct0 * 256 + den / 2) / den, 1, 255);
    var count := Min(den, countSat);
    FactorBound(maxUpdateFactor, count, countSat);
    SpecBlend(preProb, prob, TimesNat(maxUpdateFactor, count) / countSat)
  }

  function SpecBlend(preProb: byte, prob: byte, factor: nat): byte
    requires factor <= 256
  {
    BlendIsSpec(preProb, prob, factor);
    Round2(TimesNat(preProb, 256 - factor) + TimesNat(prob, factor), 8)
  }

  lemma FactorBound(uf: nat, count: nat, sat: nat)
    requires count <= sat && 1 <= sat
    ensures 0 <= TimesNat(uf, count) / sat <= uf
  {
    ScaleMonotone(uf, count, sat);
    FloorDiv(TimesNat(uf, count), sat);
    ScaleOrder(uf, uf * count / sat, sat);
  }

  lemma WeightedSum(pre: byte, prob: byte, factor: nat)
    requires factor <= 256
    ensures pre * (256 - factor) + prob * factor == 256 * pre + (prob - pre) * factor
    ensures prob >= pre ==> 0 <= (prob - pre) * factor <= 256 * (prob - pre)
    ensures prob <= pre ==> 256 * (prob - pre) <= (prob - pre) * factor <= 0
    ensures pre * (256 - factor) + prob * factor >= 0
  {
    var d := prob - pre;
    assert pre * (256 - factor) == 256 * pre - pre * factor;
    assert d * factor == prob * factor - pre * factor;
    if d >= 0 {
      BoundedProduct(d, factor);
    } else {
      BoundedProduct(-d, factor);
      assert (-d) * factor == -(d * factor);
    }
  }

  lemma BoundedProduct(d: nat, factor: nat)
    requires factor <= 256
    ensures 0 <= d * factor <= 256 * d
  {
    assert d * (256 - factor) >= 0;
  }

  /** The wrapped product and shift of merge_prob compute the rounded weighted mean of the two probabilities. */
  lemma WrappedBlend(pre: byte, prob: byte, factor: nat)
    requires factor <= 256
    ensures (pre + Wrap32(Wrap32(Wrap32(prob - pre) * factor) + 128) / 256) % 256
         == (pre * (256 - factor) + prob * factor + 128) / 256
    ensures Min(pre, prob) <= (pre * (256 - factor) + prob * factor + 128) / 256 <= Max(pre, prob)
  {
    var s := (prob - pre) * factor;
    WeightedSum(pre, prob, factor);
    WrappedProduct(prob - pre, factor, s);
    WrappedShift(pre, s);
  }

  lemma WrappedProduct(d: int, factor: nat, s: int)
    requires -256 < d < 256 && factor <= 256 && s == d * factor && -65536 <= s <= 65536
    ensures Wrap32(Wrap32(d) * factor) == Wrap32(s)
  {
    if d < 0 {
      WrapIs(d, -1, d + TWO_32);
      assert (d + TWO_32) * factor == s + TWO_32 * factor;
      WrapShifted(s, factor);
    }
  }

  lemma WrapShifted(s: int, k: int)
    ensures Wrap32(s + TWO_32 * k) == Wrap32(s)
  {
    WrapIs(s + TWO_32 * k, s / TWO_32 + k, s % TWO_32);
  }

  lemma WrappedShift(pre: byte, s: int)
    requires -65536 <= s <= 65536 && 0 <= 256 * pre + s + 128 < 65536
    ensures (pre + Wrap32(Wrap32(s) + 128) / 256) % 256 == (256 * pre + s + 128) / 256
  {
    WrapAdd(s, 128);
    var q := (s + 128) / 256;
    assert (256 * pre + s + 128) / 256 == pre + q;
    if s + 128 < 0 {
      WrapIs(s + 128, -1, s + 128 + TWO_32);
      assert (s + 128 + TWO_32) / 256 == q + 0x100_0000;
    } else {
      WrapIs(s + 128, 0, s + 128);
    }
  }

  lemma Round2By8(x: nat)
    ensures Round2(x, 8) == (x + 128) / 256
  {
    assert Pow2(7) == 128 by { assert Pow2(3) == 8; assert Pow2(5) == 32; }
  }

  /** The dividend of the estimate, before any word wraps. */
  function Scaled(ct0: nat, den: nat): nat {
    ct0 * 256 + den / 2
  }

  /** Whether the driver's words hold the estimate: the total must fit one, and so must the dividend, unless the
      estimate is the least probability anyway. */
  predicate Exact(ct0: nat, ct1: nat) {
    var den := ct0 + ct1;
    den < TWO_32 && (Scaled(ct0, den) < TWO_32 || Scaled(ct0, den) < 2 * den)
  }

  /** Then and only then the wrapped dividend gives the same estimate. */
  lemma EstimateExactIff(ct0: u32, den: u32)
    requires 0 < den && ct0 <= den
    ensures Estimate32(ct0, den) == Clamp(Scaled(ct0, den) / den, 1, 255) <==> Exact(ct0, den as int - ct0 as int)
    ensures Estimate32(ct0, den) <= Clamp(Scaled(ct0, den) / den, 1, 255)
  {
    var x := Scaled(ct0, den);
    var w := Wrap32(Wrap32(ct0 * 256) + den / 2);
    WrapAdd(ct0 * 256, den / 2);
    FloorDiv(x, TWO_32);
    FloorDiv(x, den);
    FloorDiv(w, den);
    WrappedQuotients(x, w, den);
  }

  /** A dividend that wraps loses at least one whole quotient. */
  lemma WrappedQuotients(x: nat, w: u32, den: u32)
    requires 0 < den && w == Wrap32(x) && x <= 256 * den + den / 2
    ensures Clamp(w / den, 1, 255) == Clamp(x / den, 1, 255) <==> x < TWO_32 || x < 2 * den
    ensures Clamp(w / den, 1, 255) <= Clamp(x / den, 1, 255)
  {
    hide Clamp;
    if x < TWO_32 {
      WordIsWrapped(x);
    } else {
      hide *;
      WrappedBelow(x, w);
      QuotientBelow(w, den, 255);
      QuotientBelow(x, den, 2);
      LostQuotient(x, w, den);
      ClampSmall(w / den, x / den);
    }
  }

  lemma WrappedBelow(x: nat, w: u32)
    requires x >= TWO_32 && w == Wrap32(x)
    ensures w + TWO_32 <= x
  {
  }

  lemma QuotientBelow(x: nat, den: nat, k: nat)
    requires den > 0
    ensures 0 <= x / den && (x / den < k <==> x < k * den)
  {
    FloorDiv(x, den);
    ScaleOrder(-1, x / den, den);
    ScaleOrder(x / den, k, den);
    ScaleOrder(k - 1, x / den, den);
    assert (k - 1) * den == k * den - den;
  }

  lemma LostQuotient(x: nat, w: nat, den: nat)
    requires den > 0 && w + den <= x
    ensures w / den < x / den
  {
    FloorDiv(x, den);
    FloorDiv(w, den);
    ScaleOrder(w / den, x / den, den);
    ScaleOrder(x / den, w / den + 1, den);
    assert (w / den + 1) * den == w / den * den + den;
    assert (x / den + 1) * den == x / den * den + den;
    ScaleOrder(w / den + 1, x / den + 1, den);
  }

  lemma ClampSmall(q: int, p: int)
    requires 0 <= q < 255 && q < p
    ensures Clamp(q, 1, 255) == Clamp(p, 1, 255) <==> p <= 1
    ensures Clamp(q, 1, 255) <= Clamp(p, 1, 255)
  {
  }

  /** With exact words the machine arithmetic is the VP9 process. */
  lemma MergeProbIsSpec(pre: byte, ct0: u32, ct1: u32, sat: nat, uf: nat)
    requires 1 <= sat <= 256 && uf <= 256
    requires Exact(ct0, ct1)
    ensures MergeProb(pre, ct0, ct1, sat, uf) == SpecMergeProb(pre, ct0, ct1, sat, uf)
  {
    hide Estimate32;
    var den := ct0 as int + ct1 as int;
    FactorIsExact(den, sat, uf);
    if den > 0 {
      EstimateExactIff(ct0, den);
      MergeOfFactor(pre, ct0, ct1, sat, uf, TimesNat(uf, Min(den, sat)) / sat);
    } else {
      NothingCounted(pre, sat, uf);
    }
  }

  /** A probability that the driver's update factors take to different values for the estimates q < p. */
  function Witness(p: byte, uf: nat): byte {
    if uf == 128 then (if p % 2 == 0 then 1 else 2) else 16 + (p as int + 8) % 16
  }

  lemma BlendTellsApart(p: byte, q: byte, uf: nat)
    requires q < p && (uf == 112 || uf == 128)
    ensures var pre := Witness(p, uf);
      (pre * (256 - uf) + q * uf + 128) / 256 < (pre * (256 - uf) + p * uf + 128) / 256
  {
    var pre := Witness(p, uf);
    if uf == 112 {
      var k, m := (p as int + 8) / 16, (p as int + 8) % 16;
      assert pre * 144 + p * 112 + 128 == 256 * (m + 7 * k + 6);
    } else {
      assert (pre + p + 1) % 2 == 0;
    }
  }

  /** The exact condition, at the update factors that the driver uses: merge_prob is the VP9 process for every usable
      old probability iff the words are exact. */
  lemma MergeProbExactIff(ct0: u32, ct1: u32, sat: nat, uf: nat)
    requires 1 <= sat <= 256 && (uf == 112 || uf == 128) && ct0 as int + ct1 as int < TWO_32
    ensures (forall pre: byte | pre >= 1 :: MergeProb(pre, ct0, ct1, sat, uf) == SpecMergeProb(pre, ct0, ct1, sat, uf))
      <==> Exact(ct0, ct1)
  {
    hide MergeProb, SpecMergeProb, Exact;
    if Exact(ct0, ct1) {
      forall pre: byte ensures MergeProb(pre, ct0, ct1, sat, uf) == SpecMergeProb(pre, ct0, ct1, sat, uf) {
        MergeProbIsSpec(pre, ct0, ct1, sat, uf);
      }
    } else {
      InexactDiffers(ct0, ct1, sat, uf);
    }
  }

  lemma InexactDiffers(ct0: u32, ct1: u32, sat: nat, uf: nat)
    requires 1 <= sat <= 256 && (uf == 112 || uf == 128) && ct0 as int + ct1 as int < TWO_32 && !Exact(ct0, ct1)
    ensures exists pre: byte :: pre >= 1 && MergeProb(pre, ct0, ct1, sat, uf) != SpecMergeProb(pre, ct0, ct1, sat, uf)
  {
    hide MergeProb, SpecMergeProb, Estimate32, Clamp, Exact, Blend32, SpecBlend;
    var den := ct0 as int + ct1 as int;
    InexactIsLarge(ct0, ct1);
    var p := Clamp(Scaled(ct0, den) / den, 1, 255);
    EstimateExactIff(ct0, den);
    EstimateRange(ct0, den);
    var pre := Witness(p, uf);
    BlendTellsApart(p, Estimate32(ct0, den), uf);
    BlendValue(pre, Estimate32(ct0, den), uf);
    SpecBlendValue(pre, p, uf);
    LargeMerge(pre, ct0, ct1, sat, uf);
    LargeSpecMerge(pre, ct0, ct1, sat, uf);
  }

  lemma LargeMerge(pre: byte, ct0: u32, ct1: u32, sat: nat, uf: nat)
    requires 1 <= sat <= 256 && uf <= 256 && sat <= ct0 as int + ct1 as int < TWO_32
    ensures MergeProb(pre, ct0, ct1, sat, uf) == Blend32(pre, Estimate32(ct0, ct0 as int + ct1 as int), uf)
  {
    hide Estimate32, Blend32, TimesNat, FastDiv;
    FactorIsExact(ct0 as int + ct1 as int, sat, uf);
    WholeFactor(sat, uf);
  }

  lemma LargeSpecMerge(pre: byte, ct0: nat, ct1: nat, sat: nat, uf: nat)
    requires 1 <= sat && uf <= 256 && sat <= ct0 + ct1
    ensures var p := Clamp(Scaled(ct0, ct0 + ct1) / (ct0 + ct1), 1, 255);
      0 <= p < 256 && SpecMergeProb(pre, ct0, ct1, sat, uf) == SpecBlend(pre, p, uf)
  {
    hide SpecBlend, TimesNat;
    WholeFactor(sat, uf);
  }

  lemma InexactIsLarge(ct0: u32, ct1: u32)
    requires ct0 as int + ct1 as int < TWO_32 && !Exact(ct0, ct1)
    ensures ct0 as int + ct1 as int > MAX_EXACT_COUNT
  {
  }

  lemma EstimateRange(ct0: u32, den: u32)
    requires den > 0
    ensures 1 <= Estimate32(ct0, den) <= 255 && 1 <= Clamp(Scaled(ct0, den) / den, 1, 255) <= 255
  {
  }

  lemma WholeFactor(sat: nat, uf: nat)
    requires sat >= 1
    ensures TimesNat(uf, sat) / sat == uf
  {
    RowIs(uf, 0, sat);
  }

  lemma BlendValue(pre: byte, prob: byte, factor: nat)
    requires factor <= 256
    ensures Blend32(pre, prob, factor) == (pre * (256 - factor) + prob * factor + 128) / 256
  {
    hide Wrap32;
    WrappedBlend(pre, prob, factor);
  }

  lemma SpecBlendValue(pre: byte, prob: byte, factor: nat)
    requires factor <= 256
    ensures SpecBlend(pre, prob, factor) == (pre * (256 - factor) + prob * factor + 128) / 256
  {
    hide Round2;
    WeightedSum(pre, prob, factor);
    Round2By8(pre * (256 - factor) + prob * factor);
  }

  /** The largest total that is exact however it is divided. */
  const MAX_EXACT_COUNT: int := 16744511

  lemma SmallIsExact(ct0: nat, ct1: nat)
    requires ct0 + ct1 <= MAX_EXACT_COUNT
    ensures Exact(ct0, ct1)
  {
  }

  lemma MergeOfFactor(pre: byte, ct0: u32, ct1: u32, sat: nat, uf: nat, factor: nat)
    requires 1 <= sat && 0 < ct0 + ct1 < TWO_32 && factor <= 256 && uf <= 256
    requires Estimate32(ct0, ct0 + ct1) == Clamp((ct0 * 256 + (ct0 + ct1) / 2) / (ct0 + ct1), 1, 255)
    requires FastDiv(Wrap32(TimesNat(uf, Min(ct0 + ct1, sat))), sat) == factor
    requires TimesNat(uf, Min(ct0 + ct1, sat)) / sat == factor
    ensures MergeProb(pre, ct0, ct1, sat, uf) == SpecMergeProb(pre, ct0, ct1, sat, uf)
  {
    hide Blend32, SpecBlend, TimesNat, FastDiv, Estimate32;
    SpecBlendIs(pre, Estimate32(ct0, ct0 + ct1), factor);
  }

  lemma NothingCounted(pre: byte, sat: nat, uf: nat)
    requires 1 <= sat <= 256 && uf <= 256
    ensures SpecMergeProb(pre, 0, 0, sat, uf) == pre
  {
    assert TimesNat(uf, 0) == 0;
    ZeroDiv(sat);
    hide Blend32, SpecBlend, TimesNat;
    BlendNothing(pre, 128);
    SpecBlendIs(pre, 128, 0);
  }

  lemma SpecBlendIs(pre: byte, prob: byte, factor: nat)
    requires factor <= 256
    ensures SpecBlend(pre, prob, factor) == Blend32(pre, prob, factor)
  {
    BlendIsSpec(pre, prob, factor);
  }

  lemma BlendNothing(pre: byte, prob: byte)
    ensures Blend32(pre, prob, 0) == pre
  {
    assert Wrap32(prob - pre) * 0 == 0;
    WrappedShift(pre, 0);
  }

  /** The driver's blend and Round2 of the exact weighted mean. */
  lemma BlendIsSpec(pre: byte, prob: byte, factor: nat)
    requires factor <= 256
    ensures Blend32(pre, prob, factor) == Round2(TimesNat(pre, 256 - factor) + TimesNat(prob, factor), 8)
    ensures Min(pre, prob) <= Blend32(pre, prob, factor) <= Max(pre, prob)
  {
    hide Wrap32, Round2;
    WeightedSum(pre, prob, factor);
    WrappedBlend(pre, prob, factor);
    Round2By8(pre * (256 - factor) + prob * factor);
  }

  lemma FactorIsExact(den: nat, sat: nat, uf: nat)
    requires 1 <= sat <= 256 && uf <= 256
    ensures FastDiv(Wrap32(TimesNat(uf, Min(den, sat))), sat) == TimesNat(uf, Min(den, sat)) / sat <= uf
  {
    var count := Min(den, sat);
    BoundedProduct(count, uf);
    assert TimesNat(uf, count) == count * uf;
    FastDivIsDivision(TimesNat(uf, count), sat);
    FactorBound(uf, count, sat);
  }

  /** One count more and the word holding ct0 * 256 + den / 2 wraps: the bound cannot be raised. */
  lemma MergeProbBoundIsTight()
    ensures MergeProb(128, MAX_EXACT_COUNT + 1, 0, 20, 128)
         != SpecMergeProb(128, MAX_EXACT_COUNT + 1, 0, 20, 128)
  {
    WrappedFull();
    ExactFull();
  }

  lemma WrappedFull()
    ensures MergeProb(128, MAX_EXACT_COUNT + 1, 0, 20, 128) == 65
  {
    hide FastDiv, TimesNat, Estimate32, Wrap32;
    var n := MAX_EXACT_COUNT + 1;
    WordIsWrapped(n);
    FactorIsExact(n, 20, 128);
    FullFactor();
    FullCounts(n);
    WrappedBlend(128, 1, 128);
  }

  lemma ExactFull()
    ensures SpecMergeProb(128, MAX_EXACT_COUNT + 1, 0, 20, 128) == 192
  {
    hide TimesNat, Round2, Wrap32, Estimate32;
    FullFactor();
    FullCounts(MAX_EXACT_COUNT + 1);
    Round2By8(TimesNat(128, 256 - 128) + TimesNat(255, 128));
  }

  lemma FullFactor()
    ensures TimesNat(128, 20) / 20 == 128
    ensures TimesNat(128, 128) == 16384 && TimesNat(255, 128) == 32640
  {
  }

  lemma FullCounts(n: u32)
    requires n == MAX_EXACT_COUNT + 1
    ensures Estimate32(n, n) == 1
    ensures Clamp((n * 256 + n / 2) / n, 1, 255) == 255
  {
    assert Wrap32(n * 256) + n / 2 == TWO_32 + 32;
    WrapIs(TWO_32 + 32, 1, 32);
  }

  /** For arbitrary 32-bit counts, even wrapping ones, the result lies between the old probability and
      the estimate, which is in 1..255; so a usable probability stays usable. */
  lemma MergeProbBetween(pre: byte, ct0: u32, ct1: u32, sat: nat, uf: nat)
    requires 1 <= sat <= 256 && uf <= 256
    ensures var den := Wrap32(ct0 + ct1);
            var prob := if den == 0 then pre else Estimate32(ct0, den);
            Min(pre, prob) <= MergeProb(pre, ct0, ct1, sat, uf) <= Max(pre, prob)
    ensures 1 <= pre ==> 1 <= MergeProb(pre, ct0, ct1, sat, uf) <= 255
  {
    var den := Wrap32(ct0 + ct1);
    if den > 0 {
      FactorIsExact(den, sat, uf);
      BlendIsSpec(pre, Estimate32(ct0, den), TimesNat(uf, Min(den, sat)) / sat);
    }
  }

  /** No counted symbol, no change. */
  lemma MergeProbZero(pre: byte, sat: nat, uf: nat)
    ensures MergeProb(pre, 0, 0, sat, uf) == pre
  {
  }
}
