/** The stream of a whole run as a decoder reads it, and the driver's object that writes it. */
module H264Stream {
  import opened Words
  import opened H264Bits
  import opened H264Writer
  import opened H264Headers
  import opened H264Encoder
  import Sps = H264Sps

  predicate ValidSetup(setup: Setup) {
    && 1 <= setup.widthMbs <= 8191 && 1 <= setup.heightMbs <= 8191
    && setup.selection.left + setup.selection.width <= setup.widthMbs * 16
    && setup.selection.top + setup.selection.height <= setup.heightMbs * 16
    && setup.numerator < TWO_32 && setup.denominator < TWO_32
  }

  predicate ValidOutput(o: Output) {
    && (o.sps.Some? ==> o.sps.value.Valid()) && (o.pps.Some? ==> o.pps.value.Valid()) && o.slice.Valid()
  }

  lemma OutputsValid(t: Trace, setup: Setup, rec: nat)
    requires t.s.Valid() && ValidSetup(setup)
    ensures var outputs := Encoded(t, setup, rec).outputs; outputs != [] && ValidOutput(outputs[|outputs| - 1])
  {
    hide NextGopIndex;
  }

  // The units of a job, in the order of the loop over the steps.

  const SPS_HEADER := Sps.NaluHeader(Sps.NALU_TYPE_SPS, 3)
  const PPS_HEADER := Sps.NaluHeader(NALU_TYPE_PPS, 3)

  function SpsUnit(sps: Option<Sps.Source>): (es: seq<Element>)
    requires sps.Some? ==> sps.value.Valid()
    ensures AllFit(es)
  {
    if sps.None? then []
    else
      Sps.PartsFit(sps.value);
      NalAligned(SPS_HEADER, Sps.Body(sps.value));
      Nal(SPS_HEADER, Sps.Body(sps.value))
  }

  function PpsUnit(pps: Option<PpsSource>): (es: seq<Element>)
    requires pps.Some? ==> pps.value.Valid()
    ensures AllFit(es)
  {
    if pps.None? then []
    else
      PpsFits(pps.value);
      NalAligned(PPS_HEADER, pps.value.Body());
      Nal(PPS_HEADER, pps.value.Body())
  }

  function SliceUnit(slice: SliceSource): (es: seq<Element>)
    requires slice.Valid()
    ensures AllFit(es)
  {
    SliceFits(slice);
    NalHeaderRead(slice.Header(), []);
    Prefix(slice.Header()) + slice.Body()
  }

  function Units(o: Output): (es: seq<Element>)
    requires ValidOutput(o)
    ensures AllFit(es)
  {
    SpsUnit(o.sps) + (PpsUnit(o.pps) + SliceUnit(o.slice))
  }

  // The decoder's side.

  datatype Decoder = Decoder(sps: Option<Sps.Sps>, pps: Option<Pps>)
  {
    /** The fields of the stored parameter sets that slices depend on. */
    function ActiveSets(): Option<Active> {
      if sps.None? || pps.None? || sps.value.log2MaxFrameNumMinus4 < 0 || sps.value.log2MaxPocLsbMinus4 < 0 then None
      else Some(Active(sps.value.log2MaxFrameNumMinus4 + 4, sps.value.log2MaxPocLsbMinus4 + 4,
                       pps.value.entropyCodingMode, pps.value.deblockingControl))
    }

    /** SliceQP of section 7.4.3 of ITU-T H.264. */
    function SliceQp(slice: Slice): int
      requires pps.Some?
    {
      26 + pps.value.picInitQpMinus26 + slice.qpDelta
    }
  }

  datatype JobRead = JobRead(d: Decoder, slice: Slice, data: Bits)

  /** Reads parameter sets up to the slice header; the slice data are left. */
  function ReadJob(d: Decoder, s: Bits): Option<JobRead>
    decreases |s|
  {
    match ReadNalHeader(s)
    case None => None
    case Some(h) =>
      var naluType := h.value % 32;
      if naluType == Sps.NALU_TYPE_SPS then
        match ReadSpsUnit(s, h.rest)
        case None => None
        case Some(r) => ReadJob(d.(sps := Some(r.value)), r.rest)
      else if naluType == NALU_TYPE_PPS then
        match ReadPpsUnit(s, h.rest)
        case None => None
        case Some(r) => ReadJob(d.(pps := Some(r.value)), r.rest)
      else if naluType in {NALU_TYPE_SLICE_IDR, NALU_TYPE_SLICE_NON_IDR} then ReadSliceUnit(d, naluType, h.rest)
      else None
  }

  function ReadSpsUnit(unit: Bits, s: Bits): (r: Option<Read<Sps.Sps>>)
    ensures r.Some? ==> |r.value.rest| < |unit|
  {
    match Sps.ReadSps(s)
    case None => None
    case Some(r) => Finish(unit, r)
  }

  function ReadPpsUnit(unit: Bits, s: Bits): (r: Option<Read<Pps>>)
    ensures r.Some? ==> |r.value.rest| < |unit|
  {
    match ReadPps(s)
    case None => None
    case Some(r) => Finish(unit, r)
  }

  /** Trailing bits, counted from the start of the unit. */
  function Finish<T>(unit: Bits, r: Read<T>): (f: Option<Read<T>>)
    ensures f.Some? ==> |f.value.rest| < |unit|
  {
    if |r.rest| > |unit| then None
    else match ReadTrailing(|unit| - |r.rest|, r.rest)
      case None => None
      case Some(rest) => if |rest| >= |unit| then None else Some(Read(r.value, rest))
  }

  function ReadSliceUnit(d: Decoder, naluType: int, s: Bits): Option<JobRead> {
    match d.ActiveSets()
    case None => None
    case Some(active) =>
      match ReadSlice(naluType, active, s)
      case None => None
      case Some(r) => Some(JobRead(d, r.value, r.rest))
  }

  lemma NalSizes(header: nat, body: seq<Element>, tail: Bits)
    requires AllFit(body) && header < 256
    ensures AllFit(Nal(header, body))
    ensures var length := 40 + |Encode(body)|;
      && AllFit(Padding(length + 1))
      && |Encode(Nal(header, body)) + tail| == length + 1 + |Encode(Padding(length + 1)) + tail|
  {
    hide Encode, Padding, Prefix;
    NalParts(header, body, tail);
    NalHeaderRead(header, []);
  }

  lemma FinishRead<T>(header: nat, body: seq<Element>, tail: Bits, value: T)
    requires AllFit(body) && header < 256
    ensures AllFit(Nal(header, body)) && AllFit(Padding(40 + |Encode(body)| + 1))
    ensures var rest := [true] + (Encode(Padding(40 + |Encode(body)| + 1)) + tail);
      Finish(Encode(Nal(header, body)) + tail, Read(value, rest)) == Some(Read(value, tail))
  {
    hide Encode, Padding, Nal;
    NalSizes(header, body, tail);
    TrailingRead(40 + |Encode(body)|, tail);
  }

  lemma SpsUnitRead(d: Decoder, x: Sps.Source, tail: Bits)
    requires x.Valid()
    ensures ReadJob(d, Encode(SpsUnit(Some(x))) + tail) == ReadJob(d.(sps := Some(Sps.Meant(x))), tail)
  {
    hide Encode, Padding, Prefix, Nal, Sps.Body, Sps.ReadSps, Sps.Meant, Finish, ReadNalHeader;
    Sps.PartsFit(x);
    var body, s := Sps.Body(x), Encode(SpsUnit(Some(x))) + tail;
    NalParts(SPS_HEADER, body, tail);
    var rest := [true] + (Encode(Padding(40 + |Encode(body)| + 1)) + tail);
    NalHeaderRead(SPS_HEADER, Encode(body) + rest);
    Sps.SpsRoundTrip(x, rest);
    FinishRead(SPS_HEADER, body, tail, Sps.Meant(x));
    assert SPS_HEADER % 32 == Sps.NALU_TYPE_SPS;
  }

  lemma PpsUnitRead(d: Decoder, x: PpsSource, tail: Bits)
    requires x.Valid()
    ensures ReadJob(d, Encode(PpsUnit(Some(x))) + tail) == ReadJob(d.(pps := Some(MeantPps(x))), tail)
  {
    hide Encode, Padding, Prefix, Nal, x.Body, ReadPps, MeantPps, Finish, ReadNalHeader;
    PpsFits(x);
    var body, s := x.Body(), Encode(PpsUnit(Some(x))) + tail;
    NalParts(PPS_HEADER, body, tail);
    var rest := [true] + (Encode(Padding(40 + |Encode(body)| + 1)) + tail);
    NalHeaderRead(PPS_HEADER, Encode(body) + rest);
    PpsRoundTrip(x, rest);
    FinishRead(PPS_HEADER, body, tail, MeantPps(x));
    assert PPS_HEADER % 32 == NALU_TYPE_PPS;
  }

  lemma SliceUnitRead(d: Decoder, x: SliceSource, tail: Bits)
    requires x.Valid() && d.ActiveSets() == Some(ActiveFor(x))
    ensures ReadJob(d, Encode(SliceUnit(x)) + tail) == Some(JobRead(d, MeantSlice(x), tail))
  {
    hide Encode, Prefix, x.Body, ReadSlice, MeantSlice, ReadNalHeader, d.ActiveSets, ActiveFor;
    SliceFits(x);
    NalHeaderRead(x.Header(), Encode(x.Body()) + tail);
    Sps.Peel(Prefix(x.Header()), x.Body(), tail);
    SliceRoundTrip(x, tail);
    assert x.Header() % 32 == x.NaluType();
  }

  /** The decoder's parameter sets after a run. */
  function DecoderAfter(outputs: seq<Output>): Decoder {
    Decoder(match LatestSps(outputs) case None => None case Some(x) => Some(Sps.Meant(x)),
            match LatestPps(outputs) case None => None case Some(x) => Some(MeantPps(x)))
  }

  lemma UnitsRead(d: Decoder, o: Output, tail: Bits)
    requires ValidOutput(o)
    requires var n := Decoder(if o.sps.Some? then Some(Sps.Meant(o.sps.value)) else d.sps,
                              if o.pps.Some? then Some(MeantPps(o.pps.value)) else d.pps);
      n.ActiveSets() == Some(ActiveFor(o.slice))
    ensures var n := Decoder(if o.sps.Some? then Some(Sps.Meant(o.sps.value)) else d.sps,
                             if o.pps.Some? then Some(MeantPps(o.pps.value)) else d.pps);
      ReadJob(d, Encode(Units(o)) + tail) == Some(JobRead(n, MeantSlice(o.slice), tail))
  {
    hide Encode, SpsUnit, PpsUnit, SliceUnit, ReadJob, Sps.Meant, MeantPps, MeantSlice, ActiveFor;
    var sps := Encode(PpsUnit(o.pps) + SliceUnit(o.slice)) + tail;
    var pps := Encode(SliceUnit(o.slice)) + tail;
    Sps.Peel(SpsUnit(o.sps), PpsUnit(o.pps) + SliceUnit(o.slice), tail);
    Sps.Peel(PpsUnit(o.pps), SliceUnit(o.slice), tail);
    var d1 := if o.sps.Some? then d.(sps := Some(Sps.Meant(o.sps.value))) else d;
    var d2 := if o.pps.Some? then d1.(pps := Some(MeantPps(o.pps.value))) else d1;
    assert ReadJob(d, Encode(SpsUnit(o.sps)) + sps) == ReadJob(d1, sps) by {
      if o.sps.Some? { SpsUnitRead(d, o.sps.value, sps); } else { EmptyUnits(sps); }
    }
    assert ReadJob(d1, Encode(PpsUnit(o.pps)) + pps) == ReadJob(d2, pps) by {
      if o.pps.Some? { PpsUnitRead(d1, o.pps.value, pps); } else { EmptyUnits(pps); }
    }
    SliceUnitRead(d2, o.slice, tail);
  }

  lemma EmptyUnits(tail: Bits)
    ensures Encode(SpsUnit(None)) + tail == tail && Encode(PpsUnit(None)) + tail == tail
  {
  }

  /** What a decoder holds as its sequence parameter set speaks for a job's profile and level and for the picture. */
  predicate SpsFits(sps: Sps.Sps, setup: Setup, job: Job) {
    && sps.profileIdc == job.profileIdc && sps.constraintFlags == job.constraintFlags && sps.levelIdc == job.levelIdc
    && sps.widthInMbsMinus1 == setup.widthMbs - 1 && sps.heightInMapUnitsMinus1 == setup.heightMbs - 1
  }

  /** For every run of control writes and jobs: a decoder that has read the jobs before reads from the last job's bits
      exactly the picture that was meant, at the job's QP and under the job's profile and level, and is ready for the
      next one. */
  lemma RunRead(c: Controls, setup: Setup, events: seq<Event>, rec: nat, tail: Bits)
    requires c.Valid() && ValidSetup(setup) && forall i | 0 <= i < |events| :: events[i].Valid()
    ensures var before := Run(Initial(c), setup, events).outputs;
      var t := Encoded(Run(Initial(c), setup, events), setup, rec);
      var o := t.outputs[|before|];
      && t.outputs[..|before|] == before && ValidOutput(o)
      && ReadJob(DecoderAfter(before), Encode(Units(o)) + tail)
           == Some(JobRead(DecoderAfter(t.outputs), MeantSlice(o.slice), tail))
      && DecoderAfter(t.outputs).sps.Some? && DecoderAfter(t.outputs).pps.Some?
      && SpsFits(DecoderAfter(t.outputs).sps.value, setup, o.job)
      && DecoderAfter(t.outputs).SliceQp(MeantSlice(o.slice)) == o.job.qp
      && DecoderAfter(t.outputs).pps.value.entropyCodingMode == o.job.cabac
      && o.slice.frameNum == SinceIdr(t.outputs) % 256 && o.slice.poc == 2 * SinceIdr(t.outputs) % 256
  {
    hide Run, Encode, Units, ReadJob, SinceIdr, LatestSps, LatestPps;
    var t := Run(Initial(c), setup, events);
    RunSound(c, setup, events);
    EncodeHeaders(t, setup, rec);
    EncodeNumbers(t, setup, rec);
    OutputsValid(t, setup, rec);
    EncodedLast(t, setup, rec);
    var n := Encoded(t, setup, rec);
    var o := n.outputs[|t.outputs|];
    Appended(t.outputs, o);
    ActiveAgree(n.outputs, o);
    UnitsRead(DecoderAfter(t.outputs), o, tail);
  }

  lemma EncodedLast(t: Trace, setup: Setup, rec: nat)
    requires t.s.Valid()
    ensures var n := Encoded(t, setup, rec);
      && |n.outputs| == |t.outputs| + 1 && n.outputs[..|t.outputs|] == t.outputs
      && n.outputs == t.outputs + [n.outputs[|t.outputs|]]
  {
  }

  lemma ActiveAgree(outputs: seq<Output>, o: Output)
    requires LatestSps(outputs).Some? && LatestPps(outputs).Some?
    requires LatestPps(outputs).value.entropyCodingMode == o.slice.entropyCodingMode
    ensures DecoderAfter(outputs).ActiveSets() == Some(ActiveFor(o.slice))
  {
  }

  // The stream as a whole: one coded buffer for each job.

  datatype StreamRead = StreamRead(d: Decoder, slices: seq<Slice>, data: seq<Bits>)

  /** Reads the buffers of a stream in turn, carrying the parameter sets along. */
  function ReadStream(buffers: seq<Bits>): Option<StreamRead> {
    if buffers == [] then Some(StreamRead(Decoder(None, None), [], []))
    else match ReadStream(buffers[..|buffers| - 1])
      case None => None
      case Some(p) =>
        match ReadJob(p.d, buffers[|buffers| - 1])
        case None => None
        case Some(r) => Some(StreamRead(r.d, p.slices + [r.slice], p.data + [r.data]))
  }

  /** The buffers of a run: the headers of each job and the slice data that the hardware appends. */
  function Coded(outputs: seq<Output>, data: seq<Bits>): (buffers: seq<Bits>)
    requires |data| == |outputs| && forall i | 0 <= i < |outputs| :: ValidOutput(outputs[i])
    ensures |buffers| == |outputs|
    ensures forall i | 0 <= i < |outputs| :: buffers[i] == Encode(Units(outputs[i])) + data[i]
  {
    seq(|outputs|, i requires 0 <= i < |outputs| => Encode(Units(outputs[i])) + data[i])
  }

  function Slices(outputs: seq<Output>): (slices: seq<Slice>)
    ensures |slices| == |outputs| && forall i | 0 <= i < |outputs| :: slices[i] == MeantSlice(outputs[i].slice)
  {
    seq(|outputs|, i requires 0 <= i < |outputs| => MeantSlice(outputs[i].slice))
  }

  /** From nothing, a decoder reads every job of every run: all slice headers as they were meant, and all slice data. */
  lemma {:induction false} RunReadFromStart(c: Controls, setup: Setup, events: seq<Event>, data: seq<Bits>)
    requires c.Valid() && ValidSetup(setup) && forall i | 0 <= i < |events| :: events[i].Valid()
    requires |data| == |Run(Initial(c), setup, events).outputs|
    ensures var outputs := Run(Initial(c), setup, events).outputs;
      && (forall i | 0 <= i < |outputs| :: ValidOutput(outputs[i]))
      && ReadStream(Coded(outputs, data)) == Some(StreamRead(DecoderAfter(outputs), Slices(outputs), data))
  {
    hide Encode, Units, ReadJob, Written, Encoded, ValidOutput, ReadStream, DecoderAfter, MeantSlice, SpsFits, SinceIdr;
    if events == [] {
      NothingCoded(c, setup, data);
    } else {
      var before, e := events[..|events| - 1], events[|events| - 1];
      var t := Run(Initial(c), setup, before);
      match e
      case Write(ctrl) => RunReadFromStart(c, setup, before, data);
      case EncodeJob(rec) =>
        EncodedLast(t, setup, rec);
        var n, last := |t.outputs|, data[|t.outputs|];
        RunReadFromStart(c, setup, before, data[..n]);
        RunRead(c, setup, before, rec, last);
        ReadOneMore(t.outputs, Encoded(t, setup, rec).outputs[n], data[..n], last);
        assert data == data[..n] + [last];
    }
  }

  lemma NothingCoded(c: Controls, setup: Setup, data: seq<Bits>)
    requires c.Valid() && data == []
    ensures Run(Initial(c), setup, []).outputs == []
    ensures ReadStream(Coded([], data)) == Some(StreamRead(DecoderAfter([]), Slices([]), data))
  {
  }

  lemma ReadOneMore(outputs: seq<Output>, o: Output, data: seq<Bits>, last: Bits)
    requires |data| == |outputs| && (forall i | 0 <= i < |outputs| :: ValidOutput(outputs[i])) && ValidOutput(o)
    requires ReadStream(Coded(outputs, data)) == Some(StreamRead(DecoderAfter(outputs), Slices(outputs), data))
    requires ReadJob(DecoderAfter(outputs), Encode(Units(o)) + last)
      == Some(JobRead(DecoderAfter(outputs + [o]), MeantSlice(o.slice), last))
    ensures forall i | 0 <= i < |outputs + [o]| :: ValidOutput((outputs + [o])[i])
    ensures ReadStream(Coded(outputs + [o], data + [last]))
      == Some(StreamRead(DecoderAfter(outputs + [o]), Slices(outputs + [o]), data + [last]))
  {
    hide Encode, Units, ReadJob, ValidOutput, DecoderAfter, MeantSlice;
    var buffers := Coded(outputs + [o], data + [last]);
    assert buffers[..|outputs|] == Coded(outputs, data);
    assert Slices(outputs + [o]) == Slices(outputs) + [MeantSlice(o.slice)];
  }

  // The driver's object.

  class Encoder {
    const setup: Setup
    var c: Controls
    var step: Step
    var gopIndex: u32
    var frameNum: nat
    var poc: nat
    var qpInit: nat
    var recLast: nat

    function View(): State
      reads this
    {
      State(c, step, gopIndex, frameNum, poc, qpInit, recLast)
    }

    constructor (setup: Setup, c: Controls)
      ensures View() == Initial(c).s && this.setup == setup
    {
      this.setup, this.c := setup, c;
      step, gopIndex, frameNum, poc, qpInit, recLast := StepStart, 0, 0, 0, 0, 0;
    }

    /** cedrus_enc_h264_ctrl_validate and cedrus_enc_h264_ctrl_prepare */
    method CtrlPrepare(ctrl: Ctrl)
      modifies this
      ensures View() == Written(old(View()), ctrl)
    {
      match ctrl {
        case PrependSpsPps(on) => c := c.(prependSpsPps := on);
        case VuiSar(enable, idc, width, height) =>
          c := c.(sarEnable := enable, sarIdc := idc, extSarWidth := width, extSarHeight := height);
        case SetProfile(profile) =>
          c := c.(profile := profile);
          if !profile.AllowsCabac() {
            c := c.(cabac := false);
            step := step.Rewind(StepPps);
          }
          step := step.Rewind(StepSps);
        case Level(idc) =>
          c := c.(levelIdc := idc);
          step := step.Rewind(StepSps);
        case EntropyMode(cabac) =>
          if !cabac || c.profile.AllowsCabac() {
            c := c.(cabac := cabac);
            step := step.Rewind(StepPps);
          }
        case LoopFilter(mode, alpha, beta) => c := c.(disableDeblocking := mode, alpha := alpha, beta := beta);
        case QpRange(min, max) => c := c.(qpMin := min, qpMax := max);
        case FrameQp(i, p) => c := c.(qpI := i, qpP := p);
        case GopClosure(closed) => c := c.(gopClosure := closed);
        case GopSize(size) => c := c.(gopSize := size);
        case IPeriod(period) => c := c.(iPeriod := period);
        case ForceKeyFrame => c := c.(forceKeyFrame := true);
      }
    }

    method NextFrameType() returns (frameType: FrameType)
      requires View().Valid()
      modifies this`c, this`gopIndex
      ensures frameType == FrameTypeOf(old(View()))
      ensures c == old(c).(forceKeyFrame := false) && gopIndex == NextGopIndex(old(View()))
    {
      if c.gopClosure {
        frameType := if gopIndex == 0 then IdrFrame else PFrame;
      } else if gopIndex == 0 {
        frameType := IdrFrame;
      } else if c.iPeriod > 0 && gopIndex % c.iPeriod == 0 {
        frameType := IFrame;
      } else {
        frameType := PFrame;
      }
      if c.forceKeyFrame {
        frameType := IdrFrame;
        c := c.(forceKeyFrame := false);
      }
      gopIndex := Add32(gopIndex, 1);
      if c.gopClosure {
        gopIndex := gopIndex % c.gopSize;
      }
    }

    /** cedrus_enc_h264_job_prepare */
    method JobPrepare() returns (job: Job)
      requires View().Valid()
      modifies this
      ensures (View(), job) == Prepared(old(View()))
    {
      hide NextGopIndex;
      var frameType := NextFrameType();
      if frameType.IdrFrame? {
        frameNum, poc := 0, 0;
        if c.prependSpsPps {
          step := StepSps;
        }
      }
      var jobFrameNum, jobPoc := frameNum, poc;
      frameNum := (frameNum + 1) % 256;
      poc := (poc + 2) % 256;
      var qp := if frameType.PFrame? then c.qpP else c.qpI;
      if qp > c.qpMax {
        qp := c.qpMax;
      } else if qp < c.qpMin {
        qp := c.qpMin;
      }
      if !step.StepSlice? {
        qpInit := qp;
      }
      var deblock := c.disableDeblocking != 1;
      job := Job(frameType, jobFrameNum, jobPoc, qp, c.profile.Idc(), c.profile.ConstraintFlags(), c.levelIdc, c.cabac,
        if c.cabac && frameType.PFrame? then 1 else 0, c.chromaQpIndexOffset, c.disableDeblocking,
        if deblock then c.alpha else 0, if deblock then c.beta else 0);
    }

    /** cedrus_enc_h264_job_configure_headers */
    method ConfigureHeaders(w: BitWriter, job: Job, ghost rec: nat)
      requires w.Valid() && w.bits == [] && w.log == [] && ValidSetup(setup)
      requires ValidOutput(Configured(View(), setup, job, rec).1)
      modifies this`step, w
      ensures step == StepSlice && w.Valid()
      ensures w.log == Units(Configured(old(View()), setup, job, rec).1)
    {
      ghost var o := Configured(View(), setup, job, rec).1;
      ghost var s := View();
      var active := true;
      hide SpsUnit, PpsUnit, SliceUnit, Units, Nal, AllFit, Encode;
      NoUnits();
      while active
        invariant View() == s.(step := step) && w.Valid() && step.Rank() >= s.step.Rank()
        invariant active ==> |w.bits| % 8 == 0 && w.log == Emitted(step, o)
        invariant !active ==> step == StepSlice && w.log == Units(o)
        decreases if active then 4 - step.Rank() else 0
      {
        match step {
          case StepStart =>
            step := StepSps;
          case StepSps =>
            ConfigureSps(w, SpsOf(View(), setup, job));
            SpsUnitIs(SpsOf(s, setup, job));
            step := StepPps;
          case StepPps =>
            ConfigurePps(w, PpsOf(View(), job));
            PpsUnitIs(PpsOf(s, job));
            step := StepSlice;
          case StepSlice =>
            ConfigureSliceHeader(w, SliceOf(View(), job));
            UnitsAre(o);
            active := false;
        }
      }
    }

    /** The headers and the reference selection of cedrus_enc_h264_job_configure, for a job that reconstructs into
        `rec`. */
    method JobConfigure(w: BitWriter, job: Job, rec: nat) returns (reference: nat)
      requires w.Valid() && w.bits == [] && w.log == [] && ValidSetup(setup)
      requires ValidOutput(Configured(View(), setup, job, rec).1)
      modifies this`step, this`recLast, w
      ensures View() == Configured(old(View()), setup, job, rec).0
      ensures reference == Configured(old(View()), setup, job, rec).1.reference
      ensures w.Valid() && w.bits == Encode(Units(Configured(old(View()), setup, job, rec).1))
    {
      ConfigureHeaders(w, job, rec);
      if job.frameType.PFrame? {
        reference := recLast;
      } else {
        reference := rec;
      }
      recLast := rec;
    }
  }

  /** What has been written when the loop is about to take `step`; a unit that is not due is empty. */
  ghost function Emitted(step: Step, o: Output): seq<Element>
    requires ValidOutput(o)
  {
    match step
    case StepStart => []
    case StepSps => []
    case StepPps => SpsUnit(o.sps)
    case StepSlice => SpsUnit(o.sps) + PpsUnit(o.pps)
  }

  lemma NoUnits()
    ensures SpsUnit(None) == [] && PpsUnit(None) == []
  {
  }

  lemma SpsUnitIs(x: Sps.Source)
    requires x.Valid()
    ensures AllFit(Sps.Body(x)) && SpsUnit(Some(x)) == [] + Nal(SPS_HEADER, Sps.Body(x))
  {
    hide Sps.Body, Nal, AllFit;
    Sps.PartsFit(x);
  }

  lemma PpsUnitIs(x: PpsSource)
    requires x.Valid()
    ensures AllFit(x.Body()) && PpsUnit(Some(x)) == Nal(PPS_HEADER, x.Body())
  {
    hide Nal, AllFit;
    PpsFits(x);
  }

  lemma UnitsAre(o: Output)
    requires ValidOutput(o)
    ensures SpsUnit(o.sps) + PpsUnit(o.pps) + (Prefix(o.slice.Header()) + o.slice.Body()) == Units(o)
  {
    hide SpsUnit, PpsUnit, Prefix;
  }
}
