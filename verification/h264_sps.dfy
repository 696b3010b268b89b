/** The sequence parameter set: what the encoder writes, and what section 7.3.2.1.1 and Annex E of ITU-T H.264 read. */
module H264Sps {
  import opened Words
  import opened H264Bits
  import opened H264Writer

  datatype Rect = Rect(left: nat, top: nat, width: nat, height: nat)

  const SAR_EXTENDED := 17

  /** What the encoder's context and job hold when the parameter set is written. */
  datatype Source = Source(
    profileIdc: nat, constraintFlags: nat, levelIdc: nat, id: nat, widthMbs: nat, heightMbs: nat, selection: Rect,
    sarEnable: bool, sarIdc: nat, extSarWidth: nat, extSarHeight: nat, numerator: nat, denominator: nat)
  {
    predicate Valid() {
      && profileIdc < 256 && constraintFlags < 256 && levelIdc < 256 && id < 65535
      && 1 <= widthMbs <= 8191 && 1 <= heightMbs <= 8191
      && selection.left + selection.width <= CodedWidth() && selection.top + selection.height <= CodedHeight()
      && extSarWidth < 65536 && extSarHeight < 65536 && numerator < TWO_32 && denominator < TWO_32
    }

    function CodedWidth(): nat { widthMbs * 16 }
    function CodedHeight(): nat { heightMbs * 16 }

    predicate Cropped() {
      selection.left != 0 || selection.top != 0 || selection.width != CodedWidth() || selection.height != CodedHeight()
    }
  }

  /** cedrus_enc_h264_vui_sar_idc: the menu counts the table of the standard, with the extended ratio after it. */
  function VuiSarIdc(menu: nat): (idc: nat)
    ensures idc < 256
  {
    if menu <= 16 then menu else if menu == SAR_EXTENDED then 255 else 0
  }

  predicate HasChromaFormat(profileIdc: int) {
    profileIdc in {100, 110, 122, 244, 44, 83, 86, 118, 128, 138, 139, 134, 135}
  }

  const NALU_TYPE_SPS := 7

  /** cedrus_enc_h264_nalu_header */
  function NaluHeader(naluType: nat, refIdc: nat): (h: nat)
    ensures h < 256
  {
    naluType % 32 + refIdc % 4 * 32
  }

  // The syntax elements, part by part.

  function Head(x: Source): seq<Element> {
    [Element(U(8), x.profileIdc), Element(U(8), x.constraintFlags), Element(U(8), x.levelIdc), Element(UE, x.id)]
  }

  function Chroma(x: Source): seq<Element> {
    if HasChromaFormat(x.profileIdc)
    then [Element(UE, 1), Element(UE, 0), Element(UE, 0), Element(U(1), 0), Element(U(1), 0)]
    else []
  }

  function Order(): seq<Element> {
    [Element(UE, 8 - 4), Element(UE, 0), Element(UE, 8 - 4), Element(UE, 1), Element(U(1), 0)]
  }

  function Size(x: Source): seq<Element> {
    [Element(UE, x.widthMbs - 1), Element(UE, x.heightMbs - 1), Element(U(1), 1), Element(U(1), 0)]
  }

  function Cropping(x: Source): seq<Element> {
    if x.Cropped() then
      [Element(U(1), 1),
       Element(UE, x.selection.left / 2),
       Element(UE, (x.CodedWidth() - x.selection.width - x.selection.left) / 2),
       Element(UE, x.selection.top / 2),
       Element(UE, (x.CodedHeight() - x.selection.height - x.selection.top) / 2)]
    else [Element(U(1), 0)]
  }

  /** With the flag that announces the VUI. */
  function Aspect(x: Source): seq<Element> {
    if !x.sarEnable then [Element(U(1), 1), Element(U(1), 0)]
    else if x.sarIdc != SAR_EXTENDED then [Element(U(1), 1), Element(U(1), 1), Element(U(8), VuiSarIdc(x.sarIdc))]
    else
      [Element(U(1), 1), Element(U(1), 1), Element(U(8), VuiSarIdc(x.sarIdc)), Element(U(16), x.extSarWidth),
       Element(U(16), x.extSarHeight)]
  }

  function Flags(): seq<Element> {
    [Element(U(1), 0), Element(U(1), 0), Element(U(1), 0), Element(U(1), 1)]
  }

  /** Two ticks a frame, in 32 bits. */
  function TimeScale(x: Source): u32 {
    Wrap32(x.denominator * 2)
  }

  function Timing(x: Source): seq<Element> {
    [Element(U(32), x.numerator), Element(U(32), TimeScale(x)), Element(U(1), 1)]
  }

  function Rest(): seq<Element> {
    [Element(U(1), 0), Element(U(1), 0), Element(U(1), 0), Element(U(1), 0)]
  }

  function Body(x: Source): seq<Element> {
    Head(x) + (Chroma(x) + (Order() + (Size(x) + (Cropping(x) + (Aspect(x) + (Flags() + (Timing(x) + Rest())))))))
  }

  lemma PartsFit(x: Source)
    requires x.Valid()
    ensures AllFit(Head(x)) && AllFit(Chroma(x)) && AllFit(Order()) && AllFit(Size(x)) && AllFit(Cropping(x))
    ensures AllFit(Aspect(x)) && AllFit(Flags()) && AllFit(Timing(x)) && AllFit(Rest())
    ensures AllFit(Body(x))
  {
    hide Pow2;
    Pow2Values();
  }

  // The reader.

  datatype ChromaFormat = ChromaFormat(
    idc: int, bitDepthLumaMinus8: int, bitDepthChromaMinus8: int, transformBypass: int)
  datatype Crop = Crop(left: int, right: int, top: int, bottom: int)
  datatype SampleAspect = SampleAspect(idc: int, width: int, height: int)

  datatype Sps = Sps(
    profileIdc: int, constraintFlags: int, levelIdc: int, id: int, chroma: ChromaFormat,
    log2MaxFrameNumMinus4: int, log2MaxPocLsbMinus4: int, maxNumRefFrames: int, gapsAllowed: int,
    widthInMbsMinus1: int, heightInMapUnitsMinus1: int, direct8x8: int, crop: Crop,
    aspect: Option<SampleAspect>, numUnitsInTick: int, timeScale: int, fixedFrameRate: int)
  {
    /** The cropping rectangle of section 7.4.2.1.1 of ITU-T H.264, for 4:2:0 frames. */
    function Shown(): (int, int, int, int) {
      var w, h := 16 * (widthInMbsMinus1 + 1), 16 * (heightInMapUnitsMinus1 + 1);
      (2 * crop.left, 2 * crop.top, w - 2 * crop.right - 2 * crop.left, h - 2 * crop.bottom - 2 * crop.top)
    }
  }

  /** chroma_format_idc and its kin, or the values inferred for profiles without them.  Scaling matrices and separate
      planes, which the encoder never asks for, are not read. */
  function ReadChroma(profileIdc: int, s: Bits): Option<Read<ChromaFormat>> {
    if !HasChromaFormat(profileIdc) then Some(Read(ChromaFormat(1, 0, 0, 0), s))
    else match ReadList([UE, UE, UE, U(1), U(1)], s)
      case None => None
      case Some(r) =>
        if r.value[0] == 3 || r.value[4] == 1 then None
        else Some(Read(ChromaFormat(r.value[0], r.value[1], r.value[2], r.value[3]), r.rest))
  }

  /** Frame numbering with picture order count type 0. */
  function ReadOrder(s: Bits): Option<Read<seq<int>>> {
    match ReadList([UE, UE], s)
    case None => None
    case Some(r) =>
      if r.value[1] != 0 then None
      else match ReadList([UE, UE, U(1)], r.rest)
        case None => None
        case Some(q) => Some(Read([r.value[0]] + q.value, q.rest))
  }

  function ReadCrop(s: Bits): Option<Read<Crop>> {
    match ReadList([U(1)], s)
    case None => None
    case Some(r) =>
      if r.value[0] == 0 then Some(Read(Crop(0, 0, 0, 0), r.rest))
      else match ReadList([UE, UE, UE, UE], r.rest)
        case None => None
        case Some(q) => Some(Read(Crop(q.value[0], q.value[1], q.value[2], q.value[3]), q.rest))
  }

  /** vui_parameters_present_flag, which has to be set, and the sample aspect ratio. */
  function ReadAspect(s: Bits): Option<Read<Option<SampleAspect>>> {
    match ReadList([U(1), U(1)], s)
    case None => None
    case Some(r) =>
      if r.value[0] == 0 then None
      else if r.value[1] == 0 then Some(Read(None, r.rest))
      else match ReadList([U(8)], r.rest)
        case None => None
        case Some(q) =>
          if q.value[0] != 255 then Some(Read(Some(SampleAspect(q.value[0], 0, 0)), q.rest))
          else match ReadList([U(16), U(16)], q.rest)
            case None => None
            case Some(t) => Some(Read(Some(SampleAspect(255, t.value[0], t.value[1])), t.rest))
  }

  /** Timing information without overscan, signal type or chroma location before it, nor any HRD after it. */
  function ReadTiming(s: Bits): Option<Read<seq<int>>> {
    match ReadList([U(1), U(1), U(1), U(1)], s)
    case None => None
    case Some(r) =>
      if r.value != [0, 0, 0, 1] then None
      else match ReadList([U(32), U(32), U(1)], r.rest)
        case None => None
        case Some(q) =>
          match ReadList([U(1), U(1), U(1), U(1)], q.rest)
          case None => None
          case Some(t) => if t.value != [0, 0, 0, 0] then None else Some(Read(q.value, t.rest))
  }

  function ReadSps(s: Bits): Option<Read<Sps>> {
    match ReadList([U(8), U(8), U(8), UE], s)
    case None => None
    case Some(a) =>
      match ReadChroma(a.value[0], a.rest)
      case None => None
      case Some(b) => ReadSpsFrom(a.value, b.value, b.rest)
  }

  function ReadSpsFrom(head: seq<int>, chroma: ChromaFormat, s: Bits): Option<Read<Sps>>
    requires |head| == 4
  {
    match ReadOrder(s)
    case None => None
    case Some(c) =>
      match ReadList([UE, UE, U(1), U(1)], c.rest)
      case None => None
      case Some(d) =>
        if d.value[2] == 0 || |c.value| != 4 then None
        else ReadSpsEnd(head, chroma, c.value, d.value, d.rest)
  }

  function ReadSpsEnd(head: seq<int>, chroma: ChromaFormat, order: seq<int>, size: seq<int>, s: Bits): Option<Read<Sps>>
    requires |head| == |order| == |size| == 4
  {
    match ReadCrop(s)
    case None => None
    case Some(e) =>
      match ReadAspect(e.rest)
      case None => None
      case Some(f) =>
        match ReadTiming(f.rest)
        case None => None
        case Some(g) =>
          if |g.value| != 3 then None
          else
            Some(Read(Sps(head[0], head[1], head[2], head[3], chroma, order[0], order[1], order[2], order[3],
              size[0], size[1], size[3], e.value, f.value, g.value[0], g.value[1], g.value[2]), g.rest))
  }

  // What is written is read back.

  /** The fields as the encoder meant them. */
  function Meant(x: Source): Sps {
    Sps(x.profileIdc, x.constraintFlags, x.levelIdc, x.id, ChromaFormat(1, 0, 0, 0), 4, 4, 1, 0,
      x.widthMbs - 1, x.heightMbs - 1, 0,
      Crop(x.selection.left / 2, (x.CodedWidth() - x.selection.width - x.selection.left) / 2,
           x.selection.top / 2, (x.CodedHeight() - x.selection.height - x.selection.top) / 2),
      if !x.sarEnable then None
      else if x.sarIdc == SAR_EXTENDED then Some(SampleAspect(255, x.extSarWidth, x.extSarHeight))
      else Some(SampleAspect(VuiSarIdc(x.sarIdc), 0, 0)),
      x.numerator, TimeScale(x), 1)
  }

  lemma Peel(part: seq<Element>, rest: seq<Element>, tail: Bits)
    requires AllFit(part) && AllFit(rest)
    ensures AllFit(part + rest) && Encode(part + rest) + tail == Encode(part) + (Encode(rest) + tail)
  {
    EncodeConcat(part, rest);
  }

  lemma ChromaRead(x: Source, tail: Bits)
    requires x.Valid()
    ensures AllFit(Chroma(x))
    ensures ReadChroma(x.profileIdc, Encode(Chroma(x)) + tail) == Some(Read(ChromaFormat(1, 0, 0, 0), tail))
  {
    hide Element.Code, ReadElement, ReadList, Encode;
    PartsFit(x);
    ReadListOfEncode(Chroma(x), tail);
    if HasChromaFormat(x.profileIdc) {
      assert Descriptors(Chroma(x)) == [UE, UE, UE, U(1), U(1)];
    } else {
      NothingToRead(tail);
    }
  }

  lemma NothingToRead(tail: Bits)
    ensures AllFit([]) && Encode([]) + tail == tail
  {
  }

  lemma OrderRead(tail: Bits)
    ensures AllFit(Order()) && ReadOrder(Encode(Order()) + tail) == Some(Read([4, 4, 1, 0], tail))
  {
    hide Element.Code, ReadElement, ReadList, Encode, Pow2;
    Pow2Values();
    var a, b := Order()[..2], Order()[2..];
    assert Order() == a + b;
    Peel(a, b, tail);
    ReadListOfEncode(a, Encode(b) + tail);
    ReadListOfEncode(b, tail);
    assert Descriptors(a) == [UE, UE] && Descriptors(b) == [UE, UE, U(1)];
    assert Values(a) == [4, 0] && Values(b) == [4, 1, 0];
    assert [4] + [4, 1, 0] == [4, 4, 1, 0];
  }

  lemma CropRead(x: Source, tail: Bits)
    requires x.Valid()
    ensures AllFit(Cropping(x)) && ReadCrop(Encode(Cropping(x)) + tail) == Some(Read(Meant(x).crop, tail))
  {
    hide Element.Code, ReadElement, ReadList, Encode;
    PartsFit(x);
    var a, b := Cropping(x)[..1], Cropping(x)[1..];
    assert Cropping(x) == a + b;
    Peel(a, b, tail);
    ReadListOfEncode(a, Encode(b) + tail);
    ReadListOfEncode(b, tail);
    assert Descriptors(a) == [U(1)];
    if x.Cropped() {
      assert Descriptors(b) == [UE, UE, UE, UE];
    } else {
      NothingToRead(tail);
    }
  }

  lemma AspectRead(x: Source, tail: Bits)
    requires x.Valid()
    ensures AllFit(Aspect(x)) && ReadAspect(Encode(Aspect(x)) + tail) == Some(Read(Meant(x).aspect, tail))
  {
    hide Element.Code, ReadElement, ReadList, Encode;
    PartsFit(x);
    var a, b := Aspect(x)[..2], Aspect(x)[2..];
    assert Aspect(x) == a + b;
    Peel(a, b, tail);
    ReadListOfEncode(a, Encode(b) + tail);
    assert Descriptors(a) == [U(1), U(1)];
    if !x.sarEnable {
      NothingToRead(tail);
    } else {
      var c, d := b[..1], b[1..];
      assert b == c + d;
      Peel(c, d, tail);
      ReadListOfEncode(c, Encode(d) + tail);
      ReadListOfEncode(d, tail);
      assert Descriptors(c) == [U(8)];
      if x.sarIdc == SAR_EXTENDED {
        assert Descriptors(d) == [U(16), U(16)];
      } else {
        NothingToRead(tail);
      }
    }
  }

  lemma TimingRead(x: Source, tail: Bits)
    requires x.Valid()
    ensures AllFit(Flags() + (Timing(x) + Rest()))
    ensures ReadTiming(Encode(Flags() + (Timing(x) + Rest())) + tail)
         == Some(Read([x.numerator as int, TimeScale(x), 1], tail))
  {
    hide Element.Code, ReadElement, ReadList, Encode, Wrap32;
    PartsFit(x);
    Peel(Timing(x), Rest(), tail);
    Peel(Flags(), Timing(x) + Rest(), tail);
    ReadListOfEncode(Flags(), Encode(Timing(x) + Rest()) + tail);
    ReadListOfEncode(Timing(x), Encode(Rest()) + tail);
    ReadListOfEncode(Rest(), tail);
    assert Descriptors(Flags()) == [U(1), U(1), U(1), U(1)] == Descriptors(Rest());
    assert Descriptors(Timing(x)) == [U(32), U(32), U(1)];
    assert Values(Flags()) == [0, 0, 0, 1] && Values(Rest()) == [0, 0, 0, 0];
    assert Values(Timing(x)) == [x.numerator as int, TimeScale(x), 1];
  }

  /** Reading what the encoder wrote recovers every field, whatever follows. */
  lemma SpsRoundTrip(x: Source, tail: Bits)
    requires x.Valid()
    ensures AllFit(Body(x)) && ReadSps(Encode(Body(x)) + tail) == Some(Read(Meant(x), tail))
  {
    hide Element.Code, ReadElement, ReadList, Encode, ReadChroma, ReadSpsFrom, Chroma;
    PartsFit(x);
    var r := Order() + (Size(x) + (Cropping(x) + (Aspect(x) + (Flags() + (Timing(x) + Rest())))));
    Peel(Head(x), Chroma(x) + r, tail);
    Peel(Chroma(x), r, tail);
    ReadListOfEncode(Head(x), Encode(Chroma(x) + r) + tail);
    assert Descriptors(Head(x)) == [U(8), U(8), U(8), UE];
    assert Values(Head(x)) == [x.profileIdc as int, x.constraintFlags, x.levelIdc, x.id];
    ChromaRead(x, Encode(r) + tail);
    SpsFromRead(x, tail);
  }

  lemma SpsFromRead(x: Source, tail: Bits)
    requires x.Valid()
    ensures var r := Order() + (Size(x) + (Cropping(x) + (Aspect(x) + (Flags() + (Timing(x) + Rest())))));
      var head := [x.profileIdc as int, x.constraintFlags, x.levelIdc, x.id];
      AllFit(r) && ReadSpsFrom(head, ChromaFormat(1, 0, 0, 0), Encode(r) + tail)
        == Some(Read(Meant(x), tail))
  {
    hide Element.Code, ReadElement, ReadList, Encode, ReadOrder, ReadSpsEnd;
    hide Order, Cropping, Aspect, Timing, Flags, Rest;
    PartsFit(x);
    var r := Cropping(x) + (Aspect(x) + (Flags() + (Timing(x) + Rest())));
    Peel(Order(), Size(x) + r, tail);
    Peel(Size(x), r, tail);
    OrderRead(Encode(Size(x) + r) + tail);
    ReadListOfEncode(Size(x), Encode(r) + tail);
    assert Descriptors(Size(x)) == [UE, UE, U(1), U(1)];
    assert Values(Size(x)) == [x.widthMbs as int - 1, x.heightMbs - 1, 1, 0];
    SpsEndRead(x, tail);
  }

  lemma SpsEndRead(x: Source, tail: Bits)
    requires x.Valid()
    ensures var r := Cropping(x) + (Aspect(x) + (Flags() + (Timing(x) + Rest())));
      var head := [x.profileIdc as int, x.constraintFlags, x.levelIdc, x.id];
      var size := [x.widthMbs as int - 1, x.heightMbs - 1, 1, 0];
      AllFit(r) && ReadSpsEnd(head, ChromaFormat(1, 0, 0, 0), [4, 4, 1, 0], size, Encode(r) + tail)
        == Some(Read(Meant(x), tail))
  {
    hide Element.Code, ReadElement, ReadList, Encode, ReadCrop, ReadAspect, ReadTiming;
    hide Cropping, Aspect, Timing, Flags, Rest;
    PartsFit(x);
    var r := Flags() + (Timing(x) + Rest());
    Peel(Cropping(x), Aspect(x) + r, tail);
    Peel(Aspect(x), r, tail);
    CropRead(x, Encode(Aspect(x) + r) + tail);
    AspectRead(x, Encode(r) + tail);
    TimingRead(x, tail);
  }

  /** The decoder shows exactly the selected rectangle iff the rectangle lies on even coordinates. */
  lemma ShownIsSelectionIff(x: Source)
    requires x.Valid()
    ensures var r := x.selection;
      Meant(x).Shown() == (r.left as int, r.top as int, r.width as int, r.height as int) <==>
      r.left % 2 == 0 && r.top % 2 == 0 && r.width % 2 == 0 && r.height % 2 == 0
  {
  }

  /** A selection 15 samples wide of a picture 16 wide is shown with all 16.  The driver rounds the corner of a
      selection to even coordinates but not its size. */
  lemma OddWidthIsWidened()
    ensures var x := Source(66, 0x80, 10, 0, 1, 1, Rect(0, 0, 15, 16), false, 0, 1, 1, 1, 25);
      x.Valid() && Meant(x).Shown() == (0, 0, 16, 16)
  {
  }

  /** Two ticks a frame iff twice the denominator fits its 32 bits. */
  lemma TimeScaleIff(x: Source)
    requires x.Valid()
    ensures Meant(x).timeScale == 2 * x.denominator <==> x.denominator < 0x8000_0000
  {
  }

  /** The least denominator that does not: the time scale becomes 0. */
  lemma LargeDenominatorIsLost(x: Source)
    requires x.Valid() && x.denominator == 0x8000_0000
    ensures Meant(x).timeScale == 0
  {
  }

  // The writer, as cedrus_enc_h264_job_configure_sps drives it.

  method PutHead(w: BitWriter, x: Source)
    requires w.Valid() && x.Valid()
    modifies w
    ensures w.Valid() && w.log == old(w.log) + Head(x)
  {
    hide Pow2, AllFit, Encode;
    Pow2Values();
    w.PutU(x.profileIdc, 8);
    w.PutU(x.constraintFlags, 8);
    w.PutU(x.levelIdc, 8);
    w.PutUe(x.id);
  }

  method PutChroma(w: BitWriter, x: Source)
    requires w.Valid() && x.Valid()
    modifies w
    ensures w.Valid() && w.log == old(w.log) + Chroma(x)
  {
    hide Pow2, AllFit, Encode;
    Pow2Values();
    if HasChromaFormat(x.profileIdc) {
      w.PutUe(1);
      w.PutUe(0);
      w.PutUe(0);
      w.PutU(0, 1);
      w.PutU(0, 1);
    } else {
      assert w.log + [] == w.log;
    }
  }

  method PutOrderAndSize(w: BitWriter, x: Source)
    requires w.Valid() && x.Valid()
    modifies w
    ensures w.Valid() && w.log == old(w.log) + Order() + Size(x)
  {
    hide Pow2, AllFit, Encode;
    Pow2Values();
    w.PutUe(8 - 4);
    w.PutUe(0);
    w.PutUe(8 - 4);
    w.PutUe(1);
    w.PutU(0, 1);
    w.PutUe(x.widthMbs - 1);
    w.PutUe(x.heightMbs - 1);
    w.PutU(1, 1);
    w.PutU(0, 1);
  }

  method PutCropping(w: BitWriter, x: Source)
    requires w.Valid() && x.Valid()
    modifies w
    ensures w.Valid() && w.log == old(w.log) + Cropping(x)
  {
    hide Pow2, AllFit, Encode;
    Pow2Values();
    if x.selection.left != 0 || x.selection.top != 0
      || x.selection.width != x.CodedWidth() || x.selection.height != x.CodedHeight() {
      var right := x.CodedWidth() - x.selection.width - x.selection.left;
      var bottom := x.CodedHeight() - x.selection.height - x.selection.top;
      w.PutU(1, 1);
      w.PutUe(x.selection.left / 2);
      w.PutUe(right / 2);
      w.PutUe(x.selection.top / 2);
      w.PutUe(bottom / 2);
    } else {
      w.PutU(0, 1);
    }
  }

  method PutAspect(w: BitWriter, x: Source)
    requires w.Valid() && x.Valid()
    modifies w
    ensures w.Valid() && w.log == old(w.log) + Aspect(x)
  {
    hide Pow2, AllFit, Encode;
    Pow2Values();
    w.PutU(1, 1);
    if x.sarEnable {
      w.PutU(1, 1);
      w.PutU(VuiSarIdc(x.sarIdc), 8);
      if x.sarIdc == SAR_EXTENDED {
        w.PutU(x.extSarWidth, 16);
        w.PutU(x.extSarHeight, 16);
      }
    } else {
      w.PutU(0, 1);
    }
  }

  method PutTiming(w: BitWriter, x: Source)
    requires w.Valid() && x.Valid()
    modifies w
    ensures w.Valid() && w.log == old(w.log) + Flags() + Timing(x) + Rest()
  {
    hide Pow2, AllFit, Encode, Wrap32;
    Pow2Values();
    w.PutU(0, 1);
    w.PutU(0, 1);
    w.PutU(0, 1);
    w.PutU(1, 1);
    ghost var flags := w.log;
    w.PutBytes(x.numerator, 4);
    w.PutBytes(TimeScale(x), 4);
    w.PutU(1, 1);
    ghost var timing := w.log;
    w.PutU(0, 1);
    w.PutU(0, 1);
    w.PutU(0, 1);
    w.PutU(0, 1);
    assert flags == old(w.log) + Flags();
    assert timing == flags + Timing(x);
    assert w.log == timing + Rest();
  }

  /** The parameter set without its NAL prefix and trailing bits. */
  method PutSps(w: BitWriter, x: Source)
    requires w.Valid() && x.Valid()
    modifies w
    ensures w.Valid() && w.log == old(w.log) + Body(x)
  {
    hide AllFit, Encode, Head, Chroma, Order, Size, Cropping, Aspect, Flags, Timing, Rest;
    PutHead(w, x);
    PutChroma(w, x);
    PutOrderAndSize(w, x);
    PutCropping(w, x);
    PutAspect(w, x);
    PutTiming(w, x);
    Nested(old(w.log), x);
  }

  lemma Nested(log: seq<Element>, x: Source)
    ensures log + Head(x) + Chroma(x) + Order() + Size(x) + Cropping(x) + Aspect(x) + Flags() + Timing(x) + Rest()
         == log + Body(x)
  {
    hide Head, Chroma, Order, Size, Cropping, Aspect, Flags, Timing, Rest;
    Associate(log, Head(x), Chroma(x), Order());
    Associate(log + Head(x) + Chroma(x) + Order(), Size(x), Cropping(x), Aspect(x));
    Associate(log + Head(x) + Chroma(x) + Order() + Size(x) + Cropping(x) + Aspect(x), Flags(), Timing(x), Rest());
    var tail := Flags() + (Timing(x) + Rest());
    Associate(log, Head(x) + (Chroma(x) + Order()), Size(x) + (Cropping(x) + Aspect(x)), tail);
    Associate(Size(x), Cropping(x), Aspect(x), tail);
    Associate(Head(x), Chroma(x), Order(), Size(x) + (Cropping(x) + (Aspect(x) + tail)));
  }

  lemma Associate<T>(a: seq<T>, b: seq<T>, c: seq<T>, d: seq<T>)
    ensures a + b + c + d == a + (b + (c + d)) == a + b + (c + d)
    ensures (b + (c + d)) == b + c + d
    ensures (a + (b + c)) + d == a + (b + (c + d))
  {
  }
}
