/** The picture parameter set, the slice header and the NAL units around them: sections 7.3.2.2 and 7.3.3 of
    ITU-T H.264. */
module H264Headers {
  import opened Words
  import opened H264Bits
  import opened H264Writer
  import Sps = H264Sps

  const NALU_TYPE_SLICE_NON_IDR := 1
  const NALU_TYPE_SLICE_IDR := 5
  const NALU_TYPE_PPS := 8
  const SLICE_TYPE_P := 0
  const SLICE_TYPE_I := 2
  const LOG2_MAX_FRAME_NUM := 8
  const LOG2_MAX_POC_LSB := 8

  // NAL units.

  /** A unit with its stop bit. */
  function Unpadded(header: nat, body: seq<Element>): seq<Element> {
    Prefix(header) + (body + [Element(U(1), 1)])
  }

  /** A unit of its own, filled up to a byte. */
  function Nal(header: nat, body: seq<Element>): seq<Element>
    requires AllFit(body) && header < 256
  {
    UnpaddedFits(header, body);
    Unpadded(header, body) + Padding(|Encode(Unpadded(header, body))|)
  }

  lemma UnpaddedFits(header: nat, body: seq<Element>)
    requires AllFit(body) && header < 256
    ensures AllFit(Prefix(header)) && AllFit(body + [Element(U(1), 1)]) && AllFit(Unpadded(header, body))
  {
    hide Pow2;
    Pow2Values();
  }

  lemma PaddingFits(length: nat)
    ensures AllFit(Padding(length)) && (length + |Encode(Padding(length))|) % 8 == 0
    ensures Encode(Padding(length)) == seq((8 - length % 8) % 8, _ => false)
  {
    hide Low, Pow2;
    if length % 8 != 0 {
      var e := Element(U(8 - length % 8), 0);
      LowOfZero(8 - length % 8);
      assert [e][1..] == [] && Encode([e]) == e.Code() + [];
      assert (8 - length % 8) % 8 == 8 - length % 8;
    }
  }

  /** Every unit ends on a byte boundary. */
  lemma NalAligned(header: nat, body: seq<Element>)
    requires AllFit(body) && header < 256
    ensures AllFit(Nal(header, body)) && |Encode(Nal(header, body))| % 8 == 0
  {
    hide Encode;
    UnpaddedFits(header, body);
    var length := |Encode(Unpadded(header, body))|;
    PaddingFits(length);
    EncodeConcat(Unpadded(header, body), Padding(length));
  }

  function ReadNalHeader(s: Bits): Option<Read<int>> {
    match ReadList([U(32), U(8)], s)
    case None => None
    case Some(r) => if r.value[0] != 1 then None else Some(Read(r.value[1], r.rest))
  }

  /** rbsp_trailing_bits(), `consumed` bits into a unit. */
  function ReadTrailing(consumed: nat, s: Bits): Option<Bits> {
    var zeros := 7 - consumed % 8;
    if |s| < 1 + zeros || !s[0] || (exists i | 1 <= i <= zeros :: s[i]) then None else Some(s[1 + zeros..])
  }

  lemma NalHeaderRead(header: nat, tail: Bits)
    requires header < 256
    ensures AllFit(Prefix(header)) && |Encode(Prefix(header))| == 40
    ensures ReadNalHeader(Encode(Prefix(header)) + tail) == Some(Read(header, tail))
  {
    hide ReadElement, ReadList, Pow2;
    Pow2Values();
    ReadListOfEncode(Prefix(header), tail);
    assert Descriptors(Prefix(header)) == [U(32), U(8)] && Values(Prefix(header)) == [1, header];
    PrefixSize(Element(U(32), 1), Element(U(8), header));
  }

  lemma PrefixSize(a: Element, b: Element)
    requires a.Fits() && b.Fits()
    ensures AllFit([a, b]) && |Encode([a, b])| == |a.Code()| + |b.Code()|
  {
    hide Element.Code, Element.Fits;
    assert [a, b][1..] == [b] && [b][1..] == [];
    assert Encode([b]) == b.Code() + Encode([]);
    assert Encode([a, b]) == a.Code() + Encode([b]);
  }

  lemma TrailingRead(consumed: nat, tail: Bits)
    ensures AllFit(Padding(consumed + 1))
    ensures ReadTrailing(consumed, [true] + (Encode(Padding(consumed + 1)) + tail)) == Some(tail)
  {
    hide Encode;
    PaddingFits(consumed + 1);
    var zeros := 7 - consumed % 8;
    assert (8 - (consumed + 1) % 8) % 8 == zeros;
    var s := [true] + (Encode(Padding(consumed + 1)) + tail);
    assert forall i | 1 <= i <= zeros :: !s[i];
    assert s[1 + zeros..] == tail;
  }

  /** Peels a unit: prefix, body, stop bit, padding. */
  lemma NalParts(header: nat, body: seq<Element>, tail: Bits)
    requires AllFit(body) && header < 256
    ensures AllFit(Nal(header, body)) && AllFit(Prefix(header))
    ensures var length := 40 + |Encode(body)|;
      AllFit(Padding(length + 1)) && Encode(Nal(header, body)) + tail
        == Encode(Prefix(header)) + (Encode(body) + ([true] + (Encode(Padding(length + 1)) + tail)))
  {
    hide Encode, Prefix, Padding;
    UnpaddedFits(header, body);
    NalHeaderRead(header, []);
    StopBit();
    var stop := [Element(U(1), 1)];
    EncodeConcat(body, stop);
    EncodeConcat(Prefix(header), body + stop);
    var length := 40 + |Encode(body)|;
    PaddingFits(length + 1);
    Sps.Peel(Unpadded(header, body), Padding(length + 1), tail);
    Sps.Peel(Prefix(header), body + stop, Encode(Padding(length + 1)) + tail);
    Sps.Peel(body, stop, Encode(Padding(length + 1)) + tail);
  }

  lemma StopBit()
    ensures AllFit([Element(U(1), 1)]) && Encode([Element(U(1), 1)]) == [true]
  {
    assert [Element(U(1), 1)][1..] == [];
    assert Low(1, 1) == [] + [true];
    assert Pow2(1) == 2;
  }

  // The picture parameter set.

  datatype PpsSource = PpsSource(id: nat, spsId: nat, entropyCodingMode: bool, qpInit: nat, chromaQpIndexOffset: int)
  {
    predicate Valid() {
      id < 65535 && spsId < 65535 && qpInit <= 51 && -12 <= chromaQpIndexOffset <= 12
    }

    function Body(): seq<Element> {
      [Element(UE, id), Element(UE, spsId), Element(U(1), Flag(entropyCodingMode)), Element(U(1), 0), Element(UE, 0),
       Element(UE, 0), Element(UE, 0), Element(U(1), 0), Element(U(2), 0)] + QpPart()
    }

    function QpPart(): seq<Element> {
      [Element(SE, qpInit - 26), Element(SE, qpInit - 26), Element(SE, chromaQpIndexOffset), Element(U(1), 1),
       Element(U(1), 0), Element(U(1), 0)]
    }
  }

  function Flag(b: bool): nat {
    if b then 1 else 0
  }

  datatype Pps = Pps(
    id: int, spsId: int, entropyCodingMode: bool, picInitQpMinus26: int, picInitQsMinus26: int,
    chromaQpIndexOffset: int, deblockingControl: bool)

  const PPS_SYNTAX: seq<Descriptor> := [UE, UE, U(1), U(1), UE, UE, UE, U(1), U(2)]
  const PPS_QP_SYNTAX: seq<Descriptor> := [SE, SE, SE, U(1), U(1), U(1)]

  /** Without slice groups, several references, weighting or redundant pictures. */
  function ReadPps(s: Bits): Option<Read<Pps>> {
    match ReadList(PPS_SYNTAX, s)
    case None => None
    case Some(r) =>
      if r.value[3..] != [0, 0, 0, 0, 0, 0] then None
      else match ReadList(PPS_QP_SYNTAX, r.rest)
        case None => None
        case Some(q) =>
          if q.value[5] != 0 then None
          else
            var (v, w) := (r.value, q.value);
            Some(Read(Pps(v[0], v[1], v[2] == 1, w[0], w[1], w[2], w[3] == 1), q.rest))
  }

  function MeantPps(x: PpsSource): Pps {
    Pps(x.id, x.spsId, x.entropyCodingMode, x.qpInit - 26, x.qpInit - 26, x.chromaQpIndexOffset, true)
  }

  lemma PpsFits(x: PpsSource)
    requires x.Valid()
    ensures AllFit(x.Body()) && AllFit(x.QpPart()) && AllFit(x.Body()[..9])
  {
    hide Pow2;
    Pow2Values();
  }

  lemma PpsRoundTrip(x: PpsSource, tail: Bits)
    requires x.Valid()
    ensures AllFit(x.Body()) && ReadPps(Encode(x.Body()) + tail) == Some(Read(MeantPps(x), tail))
  {
    hide Element.Code, ReadElement, ReadList, Encode;
    PpsFits(x);
    var a, b := x.Body()[..9], x.QpPart();
    assert x.Body() == a + b;
    Sps.Peel(a, b, tail);
    ReadListOfEncode(a, Encode(b) + tail);
    ReadListOfEncode(b, tail);
    PpsSyntax(x);
  }

  lemma PpsSyntax(x: PpsSource)
    ensures var (a, b) := (x.Body()[..9], x.QpPart());
      && Descriptors(a) == PPS_SYNTAX && Descriptors(b) == PPS_QP_SYNTAX
      && Values(a)[..3] == [x.id, x.spsId, Flag(x.entropyCodingMode)] && Values(a)[3..] == [0, 0, 0, 0, 0, 0]
      && Values(b) == [x.qpInit - 26, x.qpInit - 26, x.chromaQpIndexOffset, 1, 0, 0]
  {
  }

  // The slice header.

  datatype FrameType = IdrFrame | IFrame | PFrame

  /** The job when its slice header is written, with the initial QP of the state. */
  datatype SliceSource = SliceSource(
    frameType: FrameType, ppsId: nat, frameNum: nat, idrPicId: nat, poc: nat,
    entropyCodingMode: bool, cabacInitIdc: nat, qp: nat, qpInit: nat, disableDeblocking: nat, alpha: int, beta: int)
  {
    predicate Valid() {
      && ppsId < 65535 && frameNum < 256 && idrPicId < 65535 && poc < 256 && cabacInitIdc < 65535
      && qp <= 51 && qpInit <= 51 && disableDeblocking <= 2 && -6 <= alpha <= 6 && -6 <= beta <= 6
    }

    function SliceType(): nat {
      if frameType.PFrame? then SLICE_TYPE_P else SLICE_TYPE_I
    }

    function NaluType(): nat {
      if frameType.IdrFrame? then NALU_TYPE_SLICE_IDR else NALU_TYPE_SLICE_NON_IDR
    }

    /** Every frame is a reference. */
    function Header(): nat {
      Sps.NaluHeader(NaluType(), 2)
    }

    function Start(): seq<Element> {
      [Element(UE, 0), Element(UE, SliceType()), Element(UE, ppsId), Element(U(LOG2_MAX_FRAME_NUM), frameNum)]
    }

    function Order(): seq<Element> {
      (if frameType.IdrFrame? then [Element(UE, idrPicId)] else []) + [Element(U(LOG2_MAX_POC_LSB), poc)]
    }

    /** Reference overrides and list modification of P slices, and the marking of reference pictures. */
    function Marking(): seq<Element> {
      if frameType.IFrame? then [Element(U(1), 0)]
      else if frameType.IdrFrame? then [Element(U(1), 0), Element(U(1), 0)]
      else [Element(U(1), 0), Element(U(1), 0), Element(U(1), 0)]
    }

    function Cabac(): seq<Element> {
      if frameType.PFrame? && entropyCodingMode then [Element(UE, cabacInitIdc)] else []
    }

    function QpDelta(): seq<Element> {
      [Element(SE, qp - qpInit)]
    }

    function Deblocking(): seq<Element> {
      [Element(UE, disableDeblocking)]
      + (if disableDeblocking != 1 then [Element(SE, alpha), Element(SE, beta)] else [])
    }

    function Body(): seq<Element> {
      Start() + (Order() + (Marking() + (Cabac() + (QpDelta() + Deblocking()))))
    }
  }

  datatype Slice = Slice(
    idr: bool, sliceType: int, ppsId: int, frameNum: int, idrPicId: Option<int>, poc: int, cabacInitIdc: Option<int>,
    qpDelta: int, disableDeblocking: int, alpha: int, beta: int)

  /** The parameter set fields that the syntax of a slice header depends on. */
  datatype Active = Active(log2MaxFrameNum: nat, log2MaxPocLsb: nat, entropyCodingMode: bool, deblockingControl: bool)

  function ReadOrder(idr: bool, active: Active, s: Bits): Option<Read<(Option<int>, int)>> {
    if idr then
      match ReadList([UE, U(active.log2MaxPocLsb)], s)
      case None => None
      case Some(r) => Some(Read((Some(r.value[0]), r.value[1]), r.rest))
    else
      match ReadList([U(active.log2MaxPocLsb)], s)
      case None => None
      case Some(r) => Some(Read((None, r.value[0]), r.rest))
  }

  /** No override, no modification, no adaptive marking: anything else is not read. */
  function ReadMarking(idr: bool, p: bool, s: Bits): Option<Bits> {
    var ds := (if p then [U(1), U(1)] else []) + (if idr then [U(1), U(1)] else [U(1)]);
    match ReadList(ds, s)
    case None => None
    case Some(r) => if exists i | 0 <= i < |r.value| :: r.value[i] != 0 then None else Some(r.rest)
  }

  function ReadCabac(p: bool, active: Active, s: Bits): Option<Read<Option<int>>> {
    if !(p && active.entropyCodingMode) then Some(Read(None, s))
    else match ReadList([UE], s)
      case None => None
      case Some(r) => Some(Read(Some(r.value[0]), r.rest))
  }

  /** The deblocking controls, which are inferred when they are not coded. */
  function ReadDeblocking(active: Active, s: Bits): Option<Read<(int, int, int)>> {
    if !active.deblockingControl then Some(Read((0, 0, 0), s))
    else match ReadList([UE], s)
      case None => None
      case Some(q) =>
        if q.value[0] == 1 then Some(Read((1, 0, 0), q.rest))
        else match ReadList([SE, SE], q.rest)
          case None => None
          case Some(t) => Some(Read((q.value[0], t.value[0], t.value[1]), t.rest))
  }

  function ReadSlice(naluType: int, active: Active, s: Bits): Option<Read<Slice>> {
    var idr := naluType == NALU_TYPE_SLICE_IDR;
    match ReadList([UE, UE, UE, U(active.log2MaxFrameNum)], s)
    case None => None
    case Some(a) =>
      if a.value[0] != 0 || a.value[1] !in {SLICE_TYPE_P, SLICE_TYPE_I} then None
      else match ReadOrder(idr, active, a.rest)
        case None => None
        case Some(b) => ReadSliceEnd(idr, active, a.value, b.value, b.rest)
  }

  function ReadSliceEnd(idr: bool, active: Active, start: seq<int>, order: (Option<int>, int), s: Bits)
    : Option<Read<Slice>>
    requires |start| == 4
  {
    var p := start[1] == SLICE_TYPE_P;
    match ReadMarking(idr, p, s)
    case None => None
    case Some(c) =>
      match ReadCabac(p, active, c)
      case None => None
      case Some(d) =>
        match ReadList([SE], d.rest)
        case None => None
        case Some(e) =>
          match ReadDeblocking(active, e.rest)
          case None => None
          case Some(f) =>
            Some(Read(Slice(idr, start[1], start[2], start[3], order.0, order.1, d.value,
                            e.value[0], f.value.0, f.value.1, f.value.2), f.rest))
  }

  function MeantSlice(x: SliceSource): Slice {
    Slice(x.frameType.IdrFrame?, x.SliceType(), x.ppsId, x.frameNum,
      if x.frameType.IdrFrame? then Some(x.idrPicId as int) else None, x.poc,
      if x.frameType.PFrame? && x.entropyCodingMode then Some(x.cabacInitIdc as int) else None,
      x.qp - x.qpInit, x.disableDeblocking,
      if x.disableDeblocking == 1 then 0 else x.alpha, if x.disableDeblocking == 1 then 0 else x.beta)
  }

  function ActiveFor(x: SliceSource): Active {
    Active(LOG2_MAX_FRAME_NUM, LOG2_MAX_POC_LSB, x.entropyCodingMode, true)
  }

  lemma SliceFits(x: SliceSource)
    requires x.Valid()
    ensures AllFit(x.Start()) && AllFit(x.Order()) && AllFit(x.Marking()) && AllFit(x.Cabac())
    ensures AllFit(x.QpDelta()) && AllFit(x.Deblocking())
    ensures AllFit(x.Body())
  {
    hide Pow2;
    Pow2Values();
  }

  lemma OrderRead(x: SliceSource, tail: Bits)
    requires x.Valid()
    ensures AllFit(x.Order())
    ensures ReadOrder(x.frameType.IdrFrame?, ActiveFor(x), Encode(x.Order()) + tail)
         == Some(Read((MeantSlice(x).idrPicId, x.poc as int), tail))
  {
    hide Element.Code, ReadElement, ReadList, Encode;
    SliceFits(x);
    ReadListOfEncode(x.Order(), tail);
    if x.frameType.IdrFrame? {
      assert Descriptors(x.Order()) == [UE, U(LOG2_MAX_POC_LSB)];
    } else {
      assert Descriptors(x.Order()) == [U(LOG2_MAX_POC_LSB)];
    }
  }

  lemma MarkingRead(x: SliceSource, tail: Bits)
    requires x.Valid()
    ensures AllFit(x.Marking())
    ensures ReadMarking(x.frameType.IdrFrame?, x.frameType.PFrame?, Encode(x.Marking()) + tail) == Some(tail)
  {
    hide Element.Code, ReadElement, ReadList, Encode;
    SliceFits(x);
    ReadListOfEncode(x.Marking(), tail);
    var ds := (if x.frameType.PFrame? then [U(1), U(1)] else [])
      + (if x.frameType.IdrFrame? then [U(1), U(1)] else [U(1)]);
    assert Descriptors(x.Marking()) == ds;
  }

  lemma CabacRead(x: SliceSource, tail: Bits)
    requires x.Valid()
    ensures AllFit(x.Cabac())
    ensures ReadCabac(x.frameType.PFrame?, ActiveFor(x), Encode(x.Cabac()) + tail)
         == Some(Read(MeantSlice(x).cabacInitIdc, tail))
  {
    hide Element.Code, ReadElement, ReadList, Encode;
    SliceFits(x);
    ReadListOfEncode(x.Cabac(), tail);
    if x.Cabac() != [] {
      assert Descriptors(x.Cabac()) == [UE];
    } else {
      Sps.NothingToRead(tail);
    }
  }

  lemma DeblockingRead(x: SliceSource, tail: Bits)
    requires x.Valid()
    ensures AllFit(x.Deblocking())
    ensures var m := MeantSlice(x);
      ReadDeblocking(ActiveFor(x), Encode(x.Deblocking()) + tail)
        == Some(Read((m.disableDeblocking, m.alpha, m.beta), tail))
  {
    hide Element.Code, ReadElement, ReadList, Encode;
    SliceFits(x);
    var c, d := x.Deblocking()[..1], x.Deblocking()[1..];
    assert x.Deblocking() == c + d;
    Sps.Peel(c, d, tail);
    ReadListOfEncode(c, Encode(d) + tail);
    ReadListOfEncode(d, tail);
    assert Descriptors(c) == [UE];
    if x.disableDeblocking != 1 {
      assert Descriptors(d) == [SE, SE];
    } else {
      Sps.NothingToRead(tail);
    }
  }

  /** Read with parameter sets that agree with the job, the slice header gives every field back. */
  lemma SliceRoundTrip(x: SliceSource, tail: Bits)
    requires x.Valid()
    ensures AllFit(x.Body())
    ensures ReadSlice(x.NaluType(), ActiveFor(x), Encode(x.Body()) + tail) == Some(Read(MeantSlice(x), tail))
  {
    hide Element.Code, ReadElement, ReadList, Encode, ReadOrder, ReadSliceEnd;
    hide x.Order, x.Marking, x.Cabac, x.QpDelta, x.Deblocking;
    SliceFits(x);
    var r := x.Marking() + (x.Cabac() + (x.QpDelta() + x.Deblocking()));
    Sps.Peel(x.Start(), x.Order() + r, tail);
    Sps.Peel(x.Order(), r, tail);
    ReadListOfEncode(x.Start(), Encode(x.Order() + r) + tail);
    assert Descriptors(x.Start()) == [UE, UE, UE, U(LOG2_MAX_FRAME_NUM)];
    OrderRead(x, Encode(r) + tail);
    SliceEndRead(x, tail);
    assert Values(x.Start()) == [0, x.SliceType() as int, x.ppsId, x.frameNum];
  }

  lemma SliceEndRead(x: SliceSource, tail: Bits)
    requires x.Valid()
    ensures var r := x.Marking() + (x.Cabac() + (x.QpDelta() + x.Deblocking()));
      AllFit(r) && ReadSliceEnd(x.frameType.IdrFrame?, ActiveFor(x), [0, x.SliceType() as int, x.ppsId, x.frameNum],
        (MeantSlice(x).idrPicId, x.poc as int), Encode(r) + tail) == Some(Read(MeantSlice(x), tail))
  {
    hide Element.Code, ReadElement, ReadList, Encode, ReadMarking, ReadCabac, ReadDeblocking;
    hide x.Marking, x.Cabac, x.Deblocking;
    SliceFits(x);
    var q := x.QpDelta() + x.Deblocking();
    Sps.Peel(x.Marking(), x.Cabac() + q, tail);
    Sps.Peel(x.Cabac(), q, tail);
    Sps.Peel(x.QpDelta(), x.Deblocking(), tail);
    MarkingRead(x, Encode(x.Cabac() + q) + tail);
    CabacRead(x, Encode(q) + tail);
    ReadListOfEncode(x.QpDelta(), Encode(x.Deblocking()) + tail);
    assert Descriptors(x.QpDelta()) == [SE];
    DeblockingRead(x, tail);
  }

  // The writer.

  /** Stop bit and alignment of a unit that began on a byte boundary. */
  method FinishNal(w: BitWriter, ghost start: seq<Element>, ghost header: nat, ghost body: seq<Element>)
    requires w.Valid() && AllFit(start) && AllFit(body) && header < 256 && |Encode(start)| % 8 == 0
    requires w.log == start + Prefix(header) + body
    modifies w
    ensures w.Valid() && w.log == start + Nal(header, body) && |w.bits| % 8 == 0
  {
    hide AllFit, Encode, Prefix;
    StopBit();
    w.PutU(1, 1);
    ghost var stop := [Element(U(1), 1)];
    assert w.log == start + Unpadded(header, body);
    UnpaddedFits(header, body);
    EncodeConcat(start, Unpadded(header, body));
    PaddingModulo(|Encode(start)|, |Encode(Unpadded(header, body))|);
    w.Align();
    assert start + Unpadded(header, body) + Padding(|Encode(Unpadded(header, body))|) == start + Nal(header, body);
  }

  lemma PaddingModulo(a: nat, b: nat)
    requires a % 8 == 0
    ensures Padding(a + b) == Padding(b)
  {
  }

  /** cedrus_enc_h264_job_configure_sps */
  method ConfigureSps(w: BitWriter, x: Sps.Source)
    requires w.Valid() && x.Valid() && |w.bits| % 8 == 0
    modifies w
    ensures w.Valid() && |w.bits| % 8 == 0 && AllFit(Sps.Body(x))
    ensures w.log == old(w.log) + Nal(Sps.NaluHeader(Sps.NALU_TYPE_SPS, 3), Sps.Body(x))
  {
    hide AllFit, Encode, Prefix, Nal, Sps.Body;
    Sps.PartsFit(x);
    w.NaluStart(Sps.NaluHeader(Sps.NALU_TYPE_SPS, 3));
    Sps.PutSps(w, x);
    FinishNal(w, old(w.log), Sps.NaluHeader(Sps.NALU_TYPE_SPS, 3), Sps.Body(x));
  }

  /** cedrus_enc_h264_job_configure_pps */
  method ConfigurePps(w: BitWriter, x: PpsSource)
    requires w.Valid() && x.Valid() && |w.bits| % 8 == 0
    modifies w
    ensures w.Valid() && |w.bits| % 8 == 0 && AllFit(x.Body())
    ensures w.log == old(w.log) + Nal(Sps.NaluHeader(NALU_TYPE_PPS, 3), x.Body())
  {
    hide AllFit, Encode, Prefix, Nal;
    PpsFits(x);
    w.NaluStart(Sps.NaluHeader(NALU_TYPE_PPS, 3));
    PutPps(w, x);
    FinishNal(w, old(w.log), Sps.NaluHeader(NALU_TYPE_PPS, 3), x.Body());
  }

  method PutPps(w: BitWriter, x: PpsSource)
    requires w.Valid() && x.Valid()
    modifies w
    ensures w.Valid() && w.log == old(w.log) + x.Body()
  {
    hide Pow2, AllFit, Encode;
    Pow2Values();
    w.PutUe(x.id);
    w.PutUe(x.spsId);
    w.PutU(Flag(x.entropyCodingMode), 1);
    w.PutU(0, 1);
    w.PutUe(0);
    w.PutUe(0);
    w.PutUe(0);
    w.PutU(0, 1);
    w.PutU(0, 2);
    PutPpsQp(w, x);
  }

  method PutPpsQp(w: BitWriter, x: PpsSource)
    requires w.Valid() && x.Valid()
    modifies w
    ensures w.Valid() && w.log == old(w.log) + x.QpPart()
  {
    hide Pow2, AllFit, Encode;
    Pow2Values();
    w.PutSe(x.qpInit - 26);
    w.PutSe(x.qpInit - 26);
    w.PutSe(x.chromaQpIndexOffset);
    w.PutU(1, 1);
    w.PutU(0, 1);
    w.PutU(0, 1);
  }

  method PutSliceStart(w: BitWriter, x: SliceSource)
    requires w.Valid() && x.Valid()
    modifies w
    ensures w.Valid() && w.log == old(w.log) + x.Start() + x.Order()
  {
    hide Pow2, AllFit, Encode;
    Pow2Values();
    w.PutUe(0);
    w.PutUe(x.SliceType());
    w.PutUe(x.ppsId);
    w.PutU(x.frameNum, LOG2_MAX_FRAME_NUM);
    if x.frameType.IdrFrame? {
      w.PutUe(x.idrPicId);
    }
    w.PutU(x.poc, LOG2_MAX_POC_LSB);
  }

  method PutMarking(w: BitWriter, x: SliceSource)
    requires w.Valid() && x.Valid()
    modifies w
    ensures w.Valid() && w.log == old(w.log) + x.Marking()
  {
    hide Pow2, AllFit, Encode;
    Pow2Values();
    if x.SliceType() == SLICE_TYPE_P {
      w.PutU(0, 1);
      w.PutU(0, 1);
    }
    if x.frameType.IdrFrame? {
      w.PutU(0, 1);
      w.PutU(0, 1);
    } else {
      w.PutU(0, 1);
    }
  }

  method PutSliceEnd(w: BitWriter, x: SliceSource)
    requires w.Valid() && x.Valid()
    modifies w
    ensures w.Valid() && w.log == old(w.log) + x.Cabac() + x.QpDelta() + x.Deblocking()
  {
    hide Pow2, AllFit, Encode;
    if x.SliceType() != SLICE_TYPE_I && x.entropyCodingMode {
      w.PutUe(x.cabacInitIdc);
    }
    w.PutSe(x.qp - x.qpInit);
    w.PutUe(x.disableDeblocking);
    if x.disableDeblocking != 1 {
      w.PutSe(x.alpha);
      w.PutSe(x.beta);
    }
  }

  /** cedrus_enc_h264_job_configure_slice_header: the slice data follow without alignment. */
  method ConfigureSliceHeader(w: BitWriter, x: SliceSource)
    requires w.Valid() && x.Valid()
    modifies w
    ensures w.Valid() && w.log == old(w.log) + (Prefix(x.Header()) + x.Body())
  {
    hide AllFit, Encode, Prefix;
    hide x.Start, x.Order, x.Marking, x.Cabac, x.QpDelta, x.Deblocking;
    w.NaluStart(x.Header());
    ghost var start := w.log;
    PutSliceStart(w, x);
    PutMarking(w, x);
    PutSliceEnd(w, x);
    Sps.Associate(start, x.Start(), x.Order(), x.Marking());
    Sps.Associate(start + x.Start() + x.Order() + x.Marking(), x.Cabac(), x.QpDelta(), x.Deblocking());
    ghost var q := x.Cabac() + (x.QpDelta() + x.Deblocking());
    Sps.Associate(start, x.Start() + (x.Order() + x.Marking()), q, []);
    Sps.Associate(x.Start(), x.Order(), x.Marking(), q);
  }
}
