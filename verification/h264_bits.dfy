/** Bit strings and the syntax element codes of ITU-T H.264: u(n), ue(v) and se(v). */
module H264Bits {
  import opened Words

  type Bits = seq<bool>

  /** The `n` low bits of `v`, most significant first: what the put-bits register appends. */
  function Low(v: nat, n: nat): (s: Bits)
    ensures |s| == n
    decreases n
  {
    if n == 0 then [] else Low(v / 2, n - 1) + [v % 2 == 1]
  }

  /** The number that a bit string spells. */
  function Val(s: Bits): nat {
    if s == [] then 0 else 2 * Val(s[..|s| - 1]) + (if s[|s| - 1] then 1 else 0)
  }

  lemma {:induction false} ValOfLow(v: nat, n: nat)
    requires v < Pow2(n)
    ensures Val(Low(v, n)) == v
    decreases n
  {
    if n > 0 {
      ValOfLow(v / 2, n - 1);
      assert Low(v, n)[..n - 1] == Low(v / 2, n - 1);
    }
  }

  /** Long codes split into short ones. */
  lemma {:induction false} LowSplit(v: nat, a: nat, b: nat)
    ensures v / Pow2(b) >= 0 && Low(v, a + b) == Low(v / Pow2(b), a) + Low(v, b)
    decreases b
  {
    DivNat(v, Pow2(b));
    if b > 0 {
      LowSplit(v / 2, a, b - 1);
      DivTwice(v, Pow2(b - 1));
    } else {
      assert v / 1 == v;
    }
  }

  lemma DivNat(v: nat, d: nat)
    requires d > 0
    ensures v / d >= 0
  {
    FloorDiv(v, d);
    ScaleOrder(-1, v / d, d);
  }

  lemma DivTwice(v: nat, d: nat)
    requires d > 0
    ensures v / 2 / d == v / (2 * d)
  {
    var q := v / (2 * d);
    FloorDiv(v, 2 * d);
    FloorDiv(v / 2, d);
    assert q * (2 * d) == 2 * (q * d);
    ScaleOrder(v / 2 / d, q + 1, d);
    ScaleOrder(q - 1, v / 2 / d, d);
    assert (q + 1) * d == q * d + d && (q - 1) * d == q * d - d;
  }

  /** Bit `i` from the front is the one of weight 2^(n - 1 - i). */
  lemma {:induction false} LowBit(v: nat, n: nat, i: nat)
    requires i < n
    ensures Low(v, n)[i] <==> v / Pow2(n - 1 - i) % 2 == 1
    decreases n
  {
    if i < n - 1 {
      LowBit(v / 2, n - 1, i);
      DivTwice(v, Pow2(n - 2 - i));
    } else {
      assert v / 1 == v;
    }
  }

  lemma {:induction false} LowOfZero(n: nat)
    ensures Low(0, n) == seq(n, _ => false)
    decreases n
  {
    if n > 0 {
      LowOfZero(n - 1);
    }
  }

  /** __fls(): the position of the highest one. */
  function Log2(x: nat): (k: nat)
    requires x > 0
    ensures Pow2(k) <= x < Pow2(k + 1)
  {
    if x == 1 then 0 else 1 + Log2(x / 2)
  }

  lemma {:induction false} Pow2Order(a: nat, b: nat)
    ensures a < b <==> Pow2(a) < Pow2(b)
    decreases a + b
  {
    if a > 0 && b > 0 { Pow2Order(a - 1, b - 1); }
    else if b > 0 { Pow2AtLeast(b); }
    else if a > 0 { Pow2AtLeast(a); }
  }

  lemma Pow2AtLeast(n: nat)
    ensures Pow2(n) > n
  {
  }

  // The codes.

  /** u(n), u(v), ue(v) and se(v): the descriptors of section 7.2 of ITU-T H.264. */
  datatype Descriptor = U(n: nat) | UE | SE

  /** An Exp-Golomb code number, written with 2 * __fls(v + 1) + 1 bits. */
  function CodeNum(v: nat): Bits {
    Low(v + 1, 2 * Log2(v + 1) + 1)
  }

  /** The code number of a signed value. */
  function Mapped(v: int): nat {
    if v > 0 then 2 * v - 1 else -2 * v
  }

  datatype Element = Element(d: Descriptor, v: int)
  {
    /** What the 32-bit data register and the driver's types can carry. */
    predicate Fits() {
      match d
      case U(n) => 0 <= v < Pow2(n)
      case UE => 0 <= v < 65535
      case SE => -32767 <= v <= 32767
    }

    function Code(): Bits
      requires Fits()
    {
      match d
      case U(n) => Low(v, n)
      case UE => CodeNum(v)
      case SE => CodeNum(Mapped(v))
    }
  }

  predicate AllFit(es: seq<Element>) {
    forall i | 0 <= i < |es| :: es[i].Fits()
  }

  /** The bits of a list of syntax elements. */
  function Encode(es: seq<Element>): Bits
    requires AllFit(es)
  {
    if es == [] then [] else es[0].Code() + Encode(es[1..])
  }

  lemma {:induction false} EncodeConcat(a: seq<Element>, b: seq<Element>)
    requires AllFit(a) && AllFit(b)
    ensures AllFit(a + b) && Encode(a + b) == Encode(a) + Encode(b)
  {
    hide Element.Code, Element.Fits;
    if a == [] {
      assert a + b == b;
    } else {
      EncodeConcat(a[1..], b);
      assert (a + b)[1..] == a[1..] + b;
    }
  }

  // Reading.

  datatype Read<T> = Read(value: T, rest: Bits)

  function ReadU(n: nat, s: Bits): Option<Read<nat>> {
    if |s| < n then None else Some(Read(Val(s[..n]), s[n..]))
  }

  /** How many zeros come first. */
  function LeadingZeros(s: Bits): (k: nat)
    ensures k <= |s| && (k < |s| ==> s[k]) && forall i | 0 <= i < k :: !s[i]
  {
    if s == [] || s[0] then 0 else 1 + LeadingZeros(s[1..])
  }

  /** The parsing process of section 9.1 of ITU-T H.264. */
  function ReadUe(s: Bits): Option<Read<nat>> {
    var k := LeadingZeros(s);
    if k == |s| then None
    else match ReadU(k, s[k + 1..])
      case None => None
      case Some(r) => Some(Read(Pow2(k) - 1 + r.value, r.rest))
  }

  /** The mapping of section 9.1.1 of ITU-T H.264. */
  function Unmapped(k: nat): int {
    if k % 2 == 1 then (k + 1) / 2 else -(k / 2)
  }

  function ReadElement(d: Descriptor, s: Bits): Option<Read<int>> {
    match d
    case U(n) => (match ReadU(n, s) case None => None case Some(r) => Some(Read(r.value, r.rest)))
    case UE => (match ReadUe(s) case None => None case Some(r) => Some(Read(r.value, r.rest)))
    case SE => (match ReadUe(s) case None => None case Some(r) => Some(Read(Unmapped(r.value), r.rest)))
  }

  function ReadList(ds: seq<Descriptor>, s: Bits): (r: Option<Read<seq<int>>>)
    ensures r.Some? ==> |r.value.value| == |ds|
  {
    if ds == [] then Some(Read([], s))
    else match ReadElement(ds[0], s)
      case None => None
      case Some(r) =>
        match ReadList(ds[1..], r.rest)
        case None => None
        case Some(q) => Some(Read([r.value] + q.value, q.rest))
  }

  // What is written is read back.

  /** An Exp-Golomb code is a prefix of zeros, a one, and as many bits again. */
  lemma CodeNumParts(v: nat)
    ensures var k := Log2(v + 1);
      0 <= v + 1 - Pow2(k) < Pow2(k) && CodeNum(v) == seq(k, _ => false) + [true] + Low(v + 1 - Pow2(k), k)
  {
    var x, k := v + 1, Log2(v + 1);
    LowSplit(x, k, k + 1);
    LowSplit(x, 1, k);
    FloorDiv(x, Pow2(k + 1));
    Quotients(x, k);
    LowOfZero(k);
    LowSubtract(x, k);
    assert Low(1, 1) == [true];
    assert Low(x, k + 1) == Low(x, 1 + k);
    assert Low(x, 2 * k + 1) == Low(x, k + (k + 1));
  }

  /** The first rows of Tables 9-2 and 9-3 of ITU-T H.264. */
  lemma FirstCodes()
    ensures CodeNum(0) == [true] && CodeNum(1) == [false, true, false] && CodeNum(2) == [false, true, true]
    ensures CodeNum(3) == [false, false, true, false, false]
    ensures Mapped(0) == 0 && Mapped(1) == 1 && Mapped(-1) == 2 && Mapped(2) == 3 && Mapped(-2) == 4
  {
    hide CodeNum, Low;
    CodeNumParts(0);
    CodeNumParts(1);
    CodeNumParts(2);
    CodeNumParts(3);
    LowOfZero(0);
    LowOfZero(1);
    LowOfZero(2);
    OneBit();
    assert Log2(1) == 0 && Log2(2) == Log2(3) == 1 && Log2(4) == 2;
    assert seq(0, _ => false) == [] && seq(1, _ => false) == [false] && seq(2, _ => false) == [false, false];
  }

  lemma OneBit()
    ensures Low(1, 1) == [true]
  {
  }

  lemma Quotients(x: nat, k: nat)
    requires Pow2(k) <= x < Pow2(k + 1)
    ensures x / Pow2(k + 1) == 0 && x / Pow2(k) == 1
  {
    RowIs(0, x, Pow2(k + 1));
    RowIs(1, x - Pow2(k), Pow2(k));
  }

  lemma {:induction false} LowSubtract(x: nat, k: nat)
    requires Pow2(k) <= x
    ensures Low(x - Pow2(k), k) == Low(x, k)
    decreases k
  {
    if k > 0 {
      assert x / 2 - Pow2(k - 1) == (x - Pow2(k)) / 2;
      LowSubtract(x / 2, k - 1);
    }
  }

  lemma ReadUOfLow(v: nat, n: nat, tail: Bits)
    requires v < Pow2(n)
    ensures ReadU(n, Low(v, n) + tail) == Some(Read(v, tail))
  {
    ValOfLow(v, n);
    assert (Low(v, n) + tail)[..n] == Low(v, n);
    assert (Low(v, n) + tail)[n..] == tail;
  }

  lemma ReadUeOfCode(v: nat, tail: Bits)
    ensures ReadUe(CodeNum(v) + tail) == Some(Read(v, tail))
  {
    hide CodeNum, ReadU, Low, Pow2, LeadingZeros, Log2;
    var k := Log2(v + 1);
    CodeNumParts(v);
    var rest := Low(v + 1 - Pow2(k), k);
    var s := CodeNum(v) + tail;
    Regroup(seq(k, _ => false), [true], rest, tail);
    ZerosThenOne(s, k, rest + tail);
    ReadUOfLow(v + 1 - Pow2(k), k, tail);
  }

  lemma Regroup(a: Bits, b: Bits, c: Bits, d: Bits)
    ensures a + b + c + d == a + (b + (c + d))
  {
  }

  lemma ZerosThenOne(s: Bits, k: nat, rest: Bits)
    requires s == seq(k, _ => false) + ([true] + rest)
    ensures LeadingZeros(s) == k && s[k + 1..] == rest
  {
    assert forall i | 0 <= i < k :: !s[i];
    assert s[k];
    var z := LeadingZeros(s);
    assert !(z < k) && !(z > k);
  }

  lemma UnmappedIsInverse(v: int)
    ensures Unmapped(Mapped(v)) == v
  {
  }

  lemma ReadElementOfCode(e: Element, tail: Bits)
    requires e.Fits()
    ensures ReadElement(e.d, e.Code() + tail) == Some(Read(e.v, tail))
  {
    match e.d
    case U(n) => ReadUOfLow(e.v, n, tail);
    case UE => ReadUeOfCode(e.v, tail);
    case SE => ReadUeOfCode(Mapped(e.v), tail);
      UnmappedIsInverse(e.v);
  }

  function Descriptors(es: seq<Element>): (ds: seq<Descriptor>)
    ensures |ds| == |es| && forall i | 0 <= i < |es| :: ds[i] == es[i].d
  {
    seq(|es|, i requires 0 <= i < |es| => es[i].d)
  }

  function Values(es: seq<Element>): (vs: seq<int>)
    ensures |vs| == |es| && forall i | 0 <= i < |es| :: vs[i] == es[i].v
  {
    seq(|es|, i requires 0 <= i < |es| => es[i].v)
  }

  /** Every list of elements, read by its descriptors, gives its values back and leaves what follows. */
  lemma {:induction false} ReadListOfEncode(es: seq<Element>, tail: Bits)
    requires AllFit(es)
    ensures ReadList(Descriptors(es), Encode(es) + tail) == Some(Read(Values(es), tail))
  {
    hide ReadElement, Element.Code, Element.Fits;
    if es == [] {
      assert Encode(es) + tail == tail;
      assert Values(es) == [];
    } else {
      ReadElementOfCode(es[0], Encode(es[1..]) + tail);
      ReadListOfEncode(es[1..], tail);
      assert Encode(es) + tail == es[0].Code() + (Encode(es[1..]) + tail);
      assert Descriptors(es)[1..] == Descriptors(es[1..]);
      assert Values(es) == [es[0].v] + Values(es[1..]);
    }
  }
}
