/** The H.264 encoder's state machine: control writes between jobs, the GOP, and the headers that each job emits. */
module H264Encoder {
  import opened Words
  import opened H264Bits
  import opened H264Writer
  import opened H264Headers
  import Sps = H264Sps

  datatype Profile = Baseline | ConstrainedBaseline | Main | High
  {
    function Idc(): nat {
      match this
      case Baseline => 66
      case ConstrainedBaseline => 66
      case Main => 77
      case High => 100
    }

    function ConstraintFlags(): nat {
      match this
      case Baseline => 0x80
      case ConstrainedBaseline => 0xc0
      case Main => 0x40
      case High => 0
    }

    predicate AllowsCabac() {
      Main? || High?
    }
  }

  datatype Step = StepStart | StepSps | StepPps | StepSlice
  {
    function Rank(): nat {
      match this
      case StepStart => 0
      case StepSps => 1
      case StepPps => 2
      case StepSlice => 3
    }

    /** Goes back to an earlier step; never forward. */
    function Rewind(to: Step): Step {
      if Rank() > to.Rank() then to else this
    }
  }

  /** The controls, within the ranges of their menus. */
  datatype Controls = Controls(
    prependSpsPps: bool, sarEnable: bool, sarIdc: nat, extSarWidth: nat, extSarHeight: nat,
    profile: Profile, levelIdc: nat, cabac: bool, chromaQpIndexOffset: nat,
    disableDeblocking: nat, alpha: int, beta: int, qpMin: nat, qpMax: nat, qpI: nat, qpP: nat,
    gopClosure: bool, gopSize: nat, iPeriod: nat, forceKeyFrame: bool)
  {
    predicate Valid() {
      && sarIdc <= Sps.SAR_EXTENDED && extSarWidth < 65536 && extSarHeight < 65536 && levelIdc < 256
      && chromaQpIndexOffset <= 7 && disableDeblocking <= 2 && -6 <= alpha <= 6 && -6 <= beta <= 6
      && qpMin <= 51 && qpMax <= 51 && qpI <= 51 && qpP <= 51 && 1 <= gopSize <= 65535 && 1 <= iPeriod <= 65535
    }
  }

  /** What streaming start fixes: the picture, the selection on it, and the frame period. */
  datatype Setup = Setup(widthMbs: nat, heightMbs: nat, selection: Sps.Rect, numerator: nat, denominator: nat)

  datatype State = State(c: Controls, step: Step, gopIndex: u32, frameNum: nat, poc: nat, qpInit: nat, recLast: nat)
  {
    predicate Valid() {
      c.Valid() && frameNum < 256 && poc < 256 && qpInit <= 51
    }
  }

  datatype Ctrl =
    | PrependSpsPps(on: bool)
    | VuiSar(enable: bool, idc: nat, width: nat, height: nat)
    | SetProfile(profile: Profile)
    | Level(idc: nat)
    | EntropyMode(cabac: bool)
    | LoopFilter(mode: nat, alpha: int, beta: int)
    | QpRange(min: nat, max: nat)
    | FrameQp(i: nat, p: nat)
    | GopClosure(closed: bool)
    | GopSize(size: nat)
    | IPeriod(period: nat)
    | ForceKeyFrame
  {
    predicate Valid() {
      match this
      case VuiSar(_, idc, width, height) => idc <= Sps.SAR_EXTENDED && width < 65536 && height < 65536
      case Level(idc) => idc < 256
      case LoopFilter(mode, alpha, beta) => mode <= 2 && -6 <= alpha <= 6 && -6 <= beta <= 6
      case QpRange(min, max) => min <= 51 && max <= 51
      case FrameQp(i, p) => i <= 51 && p <= 51
      case GopSize(size) => 1 <= size <= 65535
      case IPeriod(period) => 1 <= period <= 65535
      case _ => true
    }
  }

  /** cedrus_enc_h264_ctrl_prepare, with ctrl_validate: CABAC is refused for profiles without it, and a change to such a
      profile switches to CAVLC. */
  function Written(s: State, ctrl: Ctrl): State {
    match ctrl
    case PrependSpsPps(on) => s.(c := s.c.(prependSpsPps := on))
    case VuiSar(enable, idc, width, height) =>
      s.(c := s.c.(sarEnable := enable, sarIdc := idc, extSarWidth := width, extSarHeight := height))
    case SetProfile(profile) =>
      var t := if profile.AllowsCabac() then s else s.(c := s.c.(cabac := false), step := s.step.Rewind(StepPps));
      t.(c := t.c.(profile := profile), step := t.step.Rewind(StepSps))
    case Level(idc) => s.(c := s.c.(levelIdc := idc), step := s.step.Rewind(StepSps))
    case EntropyMode(cabac) =>
      if cabac && !s.c.profile.AllowsCabac() then s
      else s.(c := s.c.(cabac := cabac), step := s.step.Rewind(StepPps))
    case LoopFilter(mode, alpha, beta) => s.(c := s.c.(disableDeblocking := mode, alpha := alpha, beta := beta))
    case QpRange(min, max) => s.(c := s.c.(qpMin := min, qpMax := max))
    case FrameQp(i, p) => s.(c := s.c.(qpI := i, qpP := p))
    case GopClosure(closed) => s.(c := s.c.(gopClosure := closed))
    case GopSize(size) => s.(c := s.c.(gopSize := size))
    case IPeriod(period) => s.(c := s.c.(iPeriod := period))
    case ForceKeyFrame => s.(c := s.c.(forceKeyFrame := true))
  }

  datatype Job = Job(
    frameType: FrameType, frameNum: nat, poc: nat, qp: nat, profileIdc: nat, constraintFlags: nat, levelIdc: nat,
    cabac: bool, cabacInitIdc: nat, chromaQpIndexOffset: nat, disableDeblocking: nat, alpha: int, beta: int)

  function FrameTypeOf(s: State): FrameType {
    if s.c.forceKeyFrame || s.gopIndex == 0 then IdrFrame
    else if !s.c.gopClosure && s.c.iPeriod > 0 && s.gopIndex % s.c.iPeriod == 0 then IFrame
    else PFrame
  }

  function NextGopIndex(s: State): u32
    requires s.Valid()
  {
    var next := Wrap32(s.gopIndex as int + 1);
    if s.c.gopClosure then next % s.c.gopSize else next
  }

  function ClampedQp(c: Controls, frameType: FrameType): nat {
    var qp := if frameType.PFrame? then c.qpP else c.qpI;
    if qp > c.qpMax then c.qpMax else if qp < c.qpMin then c.qpMin else qp
  }

  /** cedrus_enc_h264_job_prepare */
  function Prepared(s: State): (r: (State, Job))
    requires s.Valid()
    ensures r.0.Valid()
  {
    var frameType := FrameTypeOf(s);
    var idr := frameType.IdrFrame?;
    var step := if idr && s.c.prependSpsPps then StepSps else s.step;
    var frameNum, poc := if idr then 0 else s.frameNum, if idr then 0 else s.poc;
    var qp := ClampedQp(s.c, frameType);
    var deblock := s.c.disableDeblocking != 1;
    (s.(c := s.c.(forceKeyFrame := false), step := step, gopIndex := NextGopIndex(s),
        frameNum := (frameNum + 1) % 256, poc := (poc + 2) % 256,
        qpInit := if step.Rank() < StepSlice.Rank() then qp else s.qpInit),
     Job(frameType, frameNum, poc, qp, s.c.profile.Idc(), s.c.profile.ConstraintFlags(), s.c.levelIdc,
         s.c.cabac, if s.c.cabac && frameType.PFrame? then 1 else 0, s.c.chromaQpIndexOffset, s.c.disableDeblocking,
         if deblock then s.c.alpha else 0, if deblock then s.c.beta else 0))
  }

  // What a job emits.

  datatype Output = Output(
    job: Job, sps: Option<Sps.Source>, pps: Option<PpsSource>, slice: SliceSource, rec: nat, reference: nat)

  function SpsOf(s: State, setup: Setup, job: Job): Sps.Source {
    Sps.Source(job.profileIdc, job.constraintFlags, job.levelIdc, 0, setup.widthMbs, setup.heightMbs, setup.selection,
      s.c.sarEnable, s.c.sarIdc, s.c.extSarWidth, s.c.extSarHeight, setup.numerator, setup.denominator)
  }

  function PpsOf(s: State, job: Job): PpsSource {
    PpsSource(0, 0, job.cabac, s.qpInit, job.chromaQpIndexOffset)
  }

  function SliceOf(s: State, job: Job): SliceSource {
    SliceSource(job.frameType, 0, job.frameNum, 0, job.poc, job.cabac, job.cabacInitIdc, job.qp, s.qpInit,
      job.disableDeblocking, job.alpha, job.beta)
  }

  /** cedrus_enc_h264_job_configure, for a prepared job that reconstructs into the buffer `rec`. */
  function Configured(s: State, setup: Setup, job: Job, rec: nat): (State, Output) {
    (s.(step := StepSlice, recLast := rec),
     Output(job,
       if s.step.Rank() <= StepSps.Rank() then Some(SpsOf(s, setup, job)) else None,
       if s.step.Rank() <= StepPps.Rank() then Some(PpsOf(s, job)) else None,
       SliceOf(s, job), rec, if job.frameType.PFrame? then s.recLast else rec))
  }

  // Runs.

  datatype Event = Write(ctrl: Ctrl) | EncodeJob(rec: nat)
  {
    predicate Valid() {
      Write? ==> ctrl.Valid()
    }
  }

  datatype Trace = Trace(s: State, outputs: seq<Output>)

  function Encoded(t: Trace, setup: Setup, rec: nat): (n: Trace)
    requires t.s.Valid()
    ensures n.s.Valid()
  {
    var (s, job) := Prepared(t.s);
    var (s', o) := Configured(s, setup, job, rec);
    Trace(s', t.outputs + [o])
  }

  function Next(t: Trace, setup: Setup, e: Event): (n: Trace)
    requires t.s.Valid() && e.Valid()
    ensures n.s.Valid()
  {
    match e
    case Write(ctrl) =>
      WrittenValid(t.s, ctrl);
      Trace(Written(t.s, ctrl), t.outputs)
    case EncodeJob(rec) => Encoded(t, setup, rec)
  }

  lemma WrittenValid(s: State, ctrl: Ctrl)
    requires s.Valid() && ctrl.Valid()
    ensures Written(s, ctrl).Valid()
  {
  }

  function Run(t: Trace, setup: Setup, events: seq<Event>): (n: Trace)
    requires t.s.Valid() && forall i | 0 <= i < |events| :: events[i].Valid()
    ensures n.s.Valid()
  {
    if events == [] then t
    else Next(Run(t, setup, events[..|events| - 1]), setup, events[|events| - 1])
  }

  /** The state that setup leaves, with the initial controls applied. */
  function Initial(c: Controls): Trace {
    Trace(State(c, StepStart, 0, 0, 0, 0, 0), [])
  }

  function LatestPps(outputs: seq<Output>): Option<PpsSource> {
    if outputs == [] then None
    else if outputs[|outputs| - 1].pps.Some? then outputs[|outputs| - 1].pps
    else LatestPps(outputs[..|outputs| - 1])
  }

  function LatestSps(outputs: seq<Output>): Option<Sps.Source> {
    if outputs == [] then None
    else if outputs[|outputs| - 1].sps.Some? then outputs[|outputs| - 1].sps
    else LatestSps(outputs[..|outputs| - 1])
  }

  /** The number of pictures since the last IDR picture, for the last picture of a run that began with one. */
  function SinceIdr(outputs: seq<Output>): nat {
    if outputs == [] || outputs[|outputs| - 1].job.frameType.IdrFrame? then 0
    else SinceIdr(outputs[..|outputs| - 1]) + 1
  }

  /** A sequence parameter set for a profile, a level and the streamed picture. */
  predicate SpsSays(sps: Sps.Source, c: Controls, setup: Setup) {
    && sps.profileIdc == c.profile.Idc() && sps.constraintFlags == c.profile.ConstraintFlags()
    && sps.levelIdc == c.levelIdc && sps.id == 0
    && sps.widthMbs == setup.widthMbs && sps.heightMbs == setup.heightMbs && sps.selection == setup.selection
    && sps.numerator == setup.numerator && sps.denominator == setup.denominator
  }

  /** Between events: the latest parameter sets speak for the controls, unless new ones are due. */
  ghost predicate HeadersAgree(s: State, setup: Setup, outputs: seq<Output>) {
    if outputs == [] then s.step == StepStart && s.gopIndex == 0
    else
      && s.step != StepStart && LatestSps(outputs).Some? && LatestPps(outputs).Some?
      && (s.step == StepPps || s.step == StepSlice ==> SpsSays(LatestSps(outputs).value, s.c, setup))
      && LatestPps(outputs).value.chromaQpIndexOffset == s.c.chromaQpIndexOffset
      && (s.step == StepSlice ==>
            LatestPps(outputs).value.qpInit == s.qpInit && LatestPps(outputs).value.entropyCodingMode == s.c.cabac)
  }

  /** The numbers that the next picture would get. */
  ghost predicate NumbersAgree(s: State, outputs: seq<Output>) {
    outputs != [] ==>
      && s.frameNum == (SinceIdr(outputs) + 1) % 256 && s.poc == 2 * (SinceIdr(outputs) + 1) % 256
      && s.recLast == outputs[|outputs| - 1].rec
  }

  ghost predicate Inv(t: Trace, setup: Setup) {
    HeadersAgree(t.s, setup, t.outputs) && NumbersAgree(t.s, t.outputs)
  }

  /** A job does what the controls ask for. */
  predicate JobMeans(c: Controls, job: Job) {
    var (profile, p) := (c.profile, job.frameType.PFrame?);
    var wanted := if p then c.qpP else c.qpI;
    && job.profileIdc == (if profile == High then 100 else if profile == Main then 77 else 66)
    && job.constraintFlags == (if profile == High then 0 else if profile == Main then 64
                               else if profile == Baseline then 128 else 192)
    && job.levelIdc == c.levelIdc && job.cabac == c.cabac && job.chromaQpIndexOffset == c.chromaQpIndexOffset
    && (job.cabacInitIdc == 1 <==> c.cabac && p) && job.cabacInitIdc <= 1
    && job.disableDeblocking == c.disableDeblocking
    && (c.disableDeblocking != 1 ==> job.alpha == c.alpha && job.beta == c.beta)
    && (c.qpMin <= wanted <= c.qpMax ==> job.qp == wanted)
    && (wanted > c.qpMax ==> job.qp == c.qpMax)
    && (wanted < c.qpMin && wanted <= c.qpMax ==> job.qp == c.qpMin)
  }

  /** A slice header for a job. */
  predicate SliceMeans(slice: SliceSource, job: Job) {
    && slice.frameType == job.frameType && slice.ppsId == 0 && slice.idrPicId == 0
    && slice.frameNum == job.frameNum && slice.poc == job.poc
    && slice.entropyCodingMode == job.cabac && slice.cabacInitIdc == job.cabacInitIdc
    && slice.disableDeblocking == job.disableDeblocking && slice.alpha == job.alpha && slice.beta == job.beta
  }

  /** A decoder that holds the latest parameter sets reads from them the profile, level and picture of the job, and from
      its slice the job's QP and entropy mode; and the job does what the controls `c` ask for. */
  ghost predicate HeadersSound(c: Controls, setup: Setup, outputs: seq<Output>)
    requires outputs != []
  {
    var o := outputs[|outputs| - 1];
    && (|outputs| == 1 ==> o.sps.Some? && o.pps.Some? && o.job.frameType.IdrFrame?)
    && LatestSps(outputs).Some? && LatestPps(outputs).Some?
    && SpsSays(LatestSps(outputs).value, c, setup)
    && LatestSps(outputs).value.profileIdc == o.job.profileIdc
    && LatestSps(outputs).value.constraintFlags == o.job.constraintFlags
    && LatestSps(outputs).value.levelIdc == o.job.levelIdc
    && 26 + MeantPps(LatestPps(outputs).value).picInitQpMinus26 + MeantSlice(o.slice).qpDelta == o.job.qp
    && LatestPps(outputs).value.entropyCodingMode == o.slice.entropyCodingMode == o.job.cabac
    && LatestPps(outputs).value.chromaQpIndexOffset == o.job.chromaQpIndexOffset
    && JobMeans(c, o.job) && SliceMeans(o.slice, o.job)
  }

  /** Frame numbers and picture order counts restart with each IDR picture; P pictures refer to their predecessor. */
  ghost predicate NumbersSound(outputs: seq<Output>)
    requires outputs != []
  {
    var o := outputs[|outputs| - 1];
    && o.slice.frameNum == SinceIdr(outputs) % 256 && o.slice.poc == 2 * SinceIdr(outputs) % 256
    && (o.job.frameType.PFrame? ==> |outputs| > 1 && o.reference == outputs[|outputs| - 2].rec)
  }

  ghost predicate Sound(c: Controls, setup: Setup, outputs: seq<Output>)
    requires outputs != []
  {
    HeadersSound(c, setup, outputs) && NumbersSound(outputs)
  }

  lemma {:induction false} WriteKeeps(s: State, setup: Setup, outputs: seq<Output>, ctrl: Ctrl)
    requires s.Valid() && ctrl.Valid() && HeadersAgree(s, setup, outputs) && NumbersAgree(s, outputs)
    ensures HeadersAgree(Written(s, ctrl), setup, outputs) && NumbersAgree(Written(s, ctrl), outputs)
  {
  }

  /** The latest write to a control is what it holds. */
  lemma WrittenFields(s: State, ctrl: Ctrl)
    ensures var (c, n) := (s.c, Written(s, ctrl).c);
      && n.prependSpsPps == (if ctrl.PrependSpsPps? then ctrl.on else c.prependSpsPps)
      && n.sarEnable == (if ctrl.VuiSar? then ctrl.enable else c.sarEnable)
      && n.sarIdc == (if ctrl.VuiSar? then ctrl.idc else c.sarIdc)
      && n.extSarWidth == (if ctrl.VuiSar? then ctrl.width else c.extSarWidth)
      && n.extSarHeight == (if ctrl.VuiSar? then ctrl.height else c.extSarHeight)
      && n.profile == (if ctrl.SetProfile? then ctrl.profile else c.profile)
      && n.levelIdc == (if ctrl.Level? then ctrl.idc else c.levelIdc)
      && n.chromaQpIndexOffset == c.chromaQpIndexOffset
  {
  }

  lemma WrittenJobFields(s: State, ctrl: Ctrl)
    ensures var (c, n) := (s.c, Written(s, ctrl).c);
      && n.disableDeblocking == (if ctrl.LoopFilter? then ctrl.mode else c.disableDeblocking)
      && n.alpha == (if ctrl.LoopFilter? then ctrl.alpha else c.alpha)
      && n.beta == (if ctrl.LoopFilter? then ctrl.beta else c.beta)
      && n.qpMin == (if ctrl.QpRange? then ctrl.min else c.qpMin)
      && n.qpMax == (if ctrl.QpRange? then ctrl.max else c.qpMax)
      && n.qpI == (if ctrl.FrameQp? then ctrl.i else c.qpI)
      && n.qpP == (if ctrl.FrameQp? then ctrl.p else c.qpP)
      && n.gopClosure == (if ctrl.GopClosure? then ctrl.closed else c.gopClosure)
      && n.gopSize == (if ctrl.GopSize? then ctrl.size else c.gopSize)
      && n.iPeriod == (if ctrl.IPeriod? then ctrl.period else c.iPeriod)
      && n.forceKeyFrame == (ctrl.ForceKeyFrame? || c.forceKeyFrame)
  {
  }

  /** A write leaves everything alone but the controls and the next step, which can only move back. */
  lemma WrittenNumbers(s: State, ctrl: Ctrl)
    ensures var n := Written(s, ctrl);
      && n.gopIndex == s.gopIndex && n.frameNum == s.frameNum && n.poc == s.poc && n.qpInit == s.qpInit
      && n.recLast == s.recLast && n.step.Rank() <= s.step.Rank()
  {
  }

  /** CABAC is in force only for profiles that have it. */
  ghost predicate EntropyFitsProfile(c: Controls) {
    c.cabac ==> c.profile == Main || c.profile == High
  }

  /** A write of the entropy mode takes effect unless the profile forbids it; a profile without CABAC ends it. */
  lemma WrittenEntropy(s: State, ctrl: Ctrl)
    ensures EntropyFitsProfile(s.c) ==> EntropyFitsProfile(Written(s, ctrl).c)
    ensures ctrl.EntropyMode? && (!ctrl.cabac || s.c.profile == Main || s.c.profile == High) ==>
      Written(s, ctrl).c.cabac == ctrl.cabac
    ensures !ctrl.EntropyMode? && !ctrl.SetProfile? ==> Written(s, ctrl).c.cabac == s.c.cabac
    ensures ctrl.SetProfile? && (ctrl.profile == Main || ctrl.profile == High) ==>
      Written(s, ctrl).c.cabac == s.c.cabac
  {
  }

  lemma Appended(outputs: seq<Output>, o: Output)
    ensures LatestSps(outputs + [o]) == if o.sps.Some? then o.sps else LatestSps(outputs)
    ensures LatestPps(outputs + [o]) == if o.pps.Some? then o.pps else LatestPps(outputs)
    ensures SinceIdr(outputs + [o]) == if o.job.frameType.IdrFrame? then 0 else SinceIdr(outputs) + 1
  {
    assert (outputs + [o])[..|outputs|] == outputs;
  }

  lemma EncodeHeaders(t: Trace, setup: Setup, rec: nat)
    requires t.s.Valid() && HeadersAgree(t.s, setup, t.outputs)
    ensures var n := Encoded(t, setup, rec);
      n.outputs != [] && HeadersAgree(n.s, setup, n.outputs) && HeadersSound(n.s.c, setup, n.outputs)
  {
    hide JobMeans, LatestSps, LatestPps, SinceIdr, NextGopIndex, ClampedQp;
    var (s, job) := Prepared(t.s);
    Appended(t.outputs, Configured(s, setup, job, rec).1);
    PreparedMeans(t.s);
  }

  lemma PreparedMeans(s: State)
    requires s.Valid()
    ensures JobMeans(Prepared(s).0.c, Prepared(s).1)
  {
    hide NextGopIndex;
  }

  lemma EncodeNumbers(t: Trace, setup: Setup, rec: nat)
    requires t.s.Valid() && HeadersAgree(t.s, setup, t.outputs) && NumbersAgree(t.s, t.outputs)
    ensures var n := Encoded(t, setup, rec);
      n.outputs != [] && NumbersAgree(n.s, n.outputs) && NumbersSound(n.outputs)
  {
    hide ClampedQp, LatestSps, LatestPps, SinceIdr, NextGopIndex, SpsOf, PpsOf, HeadersAgree;
    var (s, job) := Prepared(t.s);
    var o := Configured(s, setup, job, rec).1;
    Appended(t.outputs, o);
    FirstIsIdr(t.s, setup, t.outputs);
    if t.outputs != [] {
      NextNumbers(SinceIdr(t.outputs));
    }
    assert (t.outputs + [o])[|t.outputs|] == o;
  }

  lemma NextNumbers(k: nat)
    ensures ((k + 1) % 256 + 1) % 256 == (k + 2) % 256 && (2 * (k + 1) % 256 + 2) % 256 == 2 * (k + 2) % 256
  {
    AddModulo(k + 1, 1);
    AddModulo(2 * (k + 1), 2);
  }

  lemma AddModulo(x: nat, d: nat)
    ensures (x % 256 + d) % 256 == (x + d) % 256
  {
    var q := x / 256;
    assert x == 256 * q + x % 256;
    assert x + d == 256 * q + (x % 256 + d);
  }

  lemma FirstIsIdr(s: State, setup: Setup, outputs: seq<Output>)
    requires HeadersAgree(s, setup, outputs)
    ensures outputs == [] ==> FrameTypeOf(s) == IdrFrame
  {
  }

  /** Every run of control writes and jobs, from the first job on. */
  lemma {:induction false} RunSound(c: Controls, setup: Setup, events: seq<Event>)
    requires c.Valid() && forall i | 0 <= i < |events| :: events[i].Valid()
    ensures Inv(Run(Initial(c), setup, events), setup)
    ensures events != [] && events[|events| - 1].EncodeJob? ==>
      var t := Run(Initial(c), setup, events);
      t.outputs != [] && Sound(t.s.c, setup, t.outputs)
  {
    hide HeadersAgree, HeadersSound, NumbersAgree, NumbersSound, Written, Encoded;
    if events == [] {
      InitialInv(c, setup);
    } else {
      var before, e := events[..|events| - 1], events[|events| - 1];
      RunSound(c, setup, before);
      var t := Run(Initial(c), setup, before);
      match e
      case Write(ctrl) => WriteKeeps(t.s, setup, t.outputs, ctrl);
      case EncodeJob(rec) =>
        EncodeHeaders(t, setup, rec);
        EncodeNumbers(t, setup, rec);
    }
  }

  lemma InitialInv(c: Controls, setup: Setup)
    ensures Inv(Initial(c), setup)
  {
  }
}
