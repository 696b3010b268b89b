/** The encoder's put-bits helpers: a cursor at the end of a bit string, and what each helper appends there. */
module H264Writer {
  import opened Words
  import opened H264Bits

  lemma {:induction false} Pow2Sum(a: nat, b: nat)
    ensures Pow2(a + b) == Pow2(a) * Pow2(b)
    decreases a
  {
    if a > 0 {
      Pow2Step(a);
      Pow2Step(a + b);
      Pow2Sum(a - 1, b);
      hide Pow2;
      TwiceProduct(Pow2(a - 1), Pow2(b));
    }
  }

  lemma Pow2Step(n: nat)
    requires n > 0
    ensures Pow2(n) == 2 * Pow2(n - 1)
  {
  }

  lemma TwiceProduct(x: nat, y: nat)
    ensures 2 * x * y == 2 * (x * y)
  {
  }

  lemma {:induction false} DivPow(v: nat, a: nat, b: nat)
    ensures v / Pow2(a) >= 0 && v / Pow2(a) / Pow2(b) == v / Pow2(a + b)
    decreases a
  {
    DivNat(v, Pow2(a));
    if a == 0 {
      assert v / 1 == v;
    } else {
      DivNat(v, 2);
      DivPow(v / 2, a - 1, b);
      DivTwice(v, Pow2(a - 1));
      DivTwice(v, Pow2(a - 1 + b));
    }
  }

  /** Bits above the low ones are not written. */
  lemma {:induction false} LowMasked(v: nat, n: nat)
    ensures Low(v % Pow2(n), n) == Low(v, n)
    decreases n
  {
    if n > 0 {
      HalfMasked(v, Pow2(n - 1));
      LowMasked(v / 2, n - 1);
    }
  }

  lemma HalfMasked(v: nat, d: nat)
    requires d > 0
    ensures v % (2 * d) >= 0 && v % (2 * d) / 2 == v / 2 % d && v % (2 * d) % 2 == v % 2
  {
    var q, r := v / (2 * d), v % (2 * d);
    assert v == q * (2 * d) + r;
    assert q * (2 * d) == 2 * (q * d);
    assert v / 2 == q * d + r / 2;
    RowIs(q, r / 2, d);
  }

  class BitWriter {
    /** Everything that the hardware has been told to put, since the job began. */
    var bits: Bits
    /** The same as syntax elements. */
    ghost var log: seq<Element>

    ghost predicate Valid()
      reads this
    {
      AllFit(log) && bits == Encode(log)
    }

    constructor ()
      ensures Valid() && log == []
    {
      bits, log := [], [];
    }

    /** cedrus_enc_h264_coded_append */
    method Append(value: nat, count: nat)
      modifies this`bits
      ensures bits == old(bits) + Low(value, count)
    {
      bits := bits + Low(value, count);
    }

    ghost method Note(e: Element, was: Bits)
      requires AllFit(log) && was == Encode(log) && e.Fits() && bits == was + e.Code()
      modifies this`log
      ensures Valid() && log == old(log) + [e]
    {
      hide Element.Code, Element.Fits;
      EncodeConcat(log, [e]);
      assert [e][1..] == [];
      assert Encode([e]) == e.Code() + [];
      log := log + [e];
    }

    method PutU(value: nat, n: nat)
      requires Valid() && value < Pow2(n)
      modifies this
      ensures Valid() && log == old(log) + [Element(U(n), value)]
    {
      hide Low, Encode, AllFit;
      ghost var was := bits;
      Append(value, n);
      Note(Element(U(n), value), was);
    }

    /** cedrus_enc_h264_coded_ue: beyond 65534 the code would not fit the register. */
    method AppendUe(value: nat)
      requires value < 65535
      modifies this`bits
      ensures bits == old(bits) + CodeNum(value)
    {
      hide Low, Log2;
      var bitsCount := 2 * Log2(value + 1) + 1;
      CodeFitsRegister(value);
      Append(value + 1, bitsCount);
    }

    method PutUe(value: nat)
      requires Valid() && value < 65535
      modifies this
      ensures Valid() && log == old(log) + [Element(UE, value)]
    {
      hide CodeNum, Encode, AllFit;
      ghost var was := bits;
      AppendUe(value);
      Note(Element(UE, value), was);
    }

    /** cedrus_enc_h264_coded_se */
    method PutSe(value: int)
      requires Valid() && -32767 <= value <= 32767
      modifies this
      ensures Valid() && log == old(log) + [Element(SE, value)]
    {
      hide CodeNum, Encode, AllFit;
      ghost var was := bits;
      var valueUe := if value > 0 then 2 * value - 1 else -2 * value;
      AppendUe(valueUe);
      Note(Element(SE, value), was);
    }

    /** cedrus_enc_h264_coded_bytes: most significant byte first. */
    method AppendBytes(value: nat, bytesCount: nat)
      requires value < Pow2(8 * bytesCount)
      modifies this`bits
      ensures bits == old(bits) + Low(value, 8 * bytesCount)
    {
      hide Low, Pow2, Shr;
      var n := 8 * bytesCount;
      ghost var left := bytesCount;
      ShiftEnds(value, n);
      while n > 0
        invariant n == 8 * left && 0 <= left <= bytesCount
        invariant bits == old(bits) + Low(Shr(value, n), 8 * bytesCount - n)
        decreases n
      {
        ByteStep(value, 8 * bytesCount - n, n - 8);
        var slice := Shr(value, n - 8) % 256;
        Append(slice, 8);
        n := n - 8;
        left := left - 1;
      }
    }

    method PutBytes(value: nat, bytesCount: nat)
      requires Valid() && value < Pow2(8 * bytesCount)
      modifies this
      ensures Valid() && log == old(log) + [Element(U(8 * bytesCount), value)]
    {
      hide Low, Encode, AllFit;
      ghost var was := bits;
      AppendBytes(value, bytesCount);
      Note(Element(U(8 * bytesCount), value), was);
    }

    /** cedrus_enc_h264_coded_align */
    method Align()
      requires Valid()
      modifies this
      ensures Valid() && |bits| % 8 == 0
      ensures log == old(log) + Padding(|old(bits)|)
    {
      hide Low, Encode, AllFit;
      ghost var was := bits;
      var bitsCount := |bits| % 8;
      if bitsCount == 0 {
        assert log + [] == log;
        return;
      }
      Append(0, 8 - bitsCount);
      Note(Element(U(8 - bitsCount), 0), was);
    }

    /** cedrus_enc_h264_coded_nalu_start: the start code and the header byte. */
    method NaluStart(header: nat)
      requires Valid() && header < 256
      modifies this
      ensures Valid() && log == old(log) + Prefix(header)
    {
      Pow2Values();
      PutBytes(1, 4);
      PutU(header, 8);
    }
  }

  /** value >> n */
  function Shr(value: nat, n: nat): nat {
    DivNat(value, Pow2(n));
    value / Pow2(n)
  }

  lemma ShiftEnds(value: nat, n: nat)
    requires value < Pow2(n)
    ensures Low(Shr(value, n), 0) == [] && Shr(value, 0) == value
  {
    assert value / 1 == value;
  }

  lemma CodeFitsRegister(value: nat)
    requires value < 65535
    ensures 2 * Log2(value + 1) + 1 <= 31
  {
    Pow2Values();
    if Log2(value + 1) >= 16 {
      Pow2Order(16, Log2(value + 1));
    }
  }

  lemma ByteStep(value: nat, a: nat, n: nat)
    ensures Low(Shr(value, n), a + 8) == Low(Shr(value, n + 8), a) + Low(Shr(value, n) % 256, 8)
  {
    hide Low, Pow2;
    DivPow(value, n, 8);
    LowSplit(Shr(value, n), a, 8);
    LowMasked(Shr(value, n), 8);
    Pow2Values();
  }

  lemma Pow2Values()
    ensures Pow2(1) == 2 && Pow2(2) == 4 && Pow2(8) == 256 && Pow2(16) == 65536 && Pow2(32) == TWO_32
  {
    assert Pow2(4) == 16;
    Pow2Sum(4, 4);
    Pow2Sum(8, 8);
    Pow2Sum(16, 16);
  }

  /** The zeros that fill the last byte. */
  function Padding(length: nat): seq<Element> {
    if length % 8 == 0 then [] else [Element(U(8 - length % 8), 0)]
  }

  function Prefix(header: nat): seq<Element> {
    [Element(U(32), 1), Element(U(8), header)]
  }
}
