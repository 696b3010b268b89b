/** The four saved frame contexts of a VP9 decoder and its working probability tables, over runs of frames. */
module Vp9Contexts {
  import opened Words
  import opened Vp9Layout
  import opened Vp9ForwardUpdate
  import opened Vp9MergeTrees
  import opened Vp9Pack
  import opened Vp9Adapt

  /** The probability state between two frames. */
  datatype Probs = Probs(saved: seq<Context>, tables: Context, idx: nat, previousValid: bool, previousKeyFrame: bool)
  {
    predicate Valid() {
      |saved| == 4 && idx < 4
    }

    predicate AllUsable() {
      Valid() && forall i | 0 <= i < 4 :: Usable(saved[i])
    }
  }

  datatype Frame = Frame(h: FrameHeader, d: Context, counts: Counts, done: bool)
  {
    predicate Valid() {
      h.Valid() && counts.Valid()
    }
  }

  const RESET_FRAME_CTX_SPEC := 1
  const RESET_FRAME_CTX_ALL := 2

  // What configuring and finishing a frame mean.

  /** The contexts that a frame resets to the defaults before it reads one. */
  predicate Resets(h: FrameHeader, i: nat) {
    || h.keyFrame || h.errorResilient
    || (h.intraOnly && (h.resetFrameContext == RESET_FRAME_CTX_ALL
                        || (h.resetFrameContext == RESET_FRAME_CTX_SPEC && i == h.frameContextIdx)))
  }

  /** The context that a frame reads, and may refresh. */
  function Selected(h: FrameHeader): nat {
    if h.FrameIsIntra() || h.errorResilient then 0 else h.frameContextIdx
  }

  function ResetContexts(saved: seq<Context>, defaults: Context, h: FrameHeader): seq<Context>
    requires |saved| == 4
  {
    seq(4, i requires 0 <= i < 4 => if Resets(h, i) then defaults else saved[i])
  }

  function Configured(s: Probs, defaults: Context, h: FrameHeader, d: Context): Probs
    requires s.Valid() && h.Valid()
  {
    var saved := ResetContexts(s.saved, defaults, h);
    s.(saved := saved, idx := Selected(h), tables := FwUpdated(saved[Selected(h)], d, h))
  }

  /** load_probs(): intra frames keep the transform and skip probabilities of the frame that was just decoded. */
  function Loaded(saved: Context, tables: Context, frameIsIntra: bool): Context {
    seq(CTX_SIZE, k requires 0 <= k < CTX_SIZE =>
      if frameIsIntra && (k < COEF || SKIP <= k < INTER_MODE) then tables[k] else saved[k])
  }

  /** Everything that one frame's counts are merged into. */
  function AdaptPlan(s: Probs, h: FrameHeader, c: Counts): (plan: seq<Job>)
    requires c.Valid()
    ensures AllValid(plan)
  {
    PlansValid(c, h);
    CoefPlan(c, BLOCKS, CoefFactor(!s.previousValid || s.previousKeyFrame, h.FrameIsIntra()))
    + (if h.FrameIsIntra() then [] else NonCoefPlan(c, h))
  }

  function Finished(s: Probs, h: FrameHeader, c: Counts, done: bool): Probs
    requires s.Valid() && c.Valid()
  {
    if !done then s
    else
      var tables := if h.refreshFrameCtx && !h.parallelDecMode
        then Adapt(Loaded(s.saved[s.idx], s.tables, h.FrameIsIntra()), AdaptPlan(s, h, c)) else s.tables;
      s.(saved := if h.refreshFrameCtx then s.saved[s.idx := tables] else s.saved,
         tables := tables, previousValid := true, previousKeyFrame := h.keyFrame)
  }

  function Step(s: Probs, defaults: Context, f: Frame): Probs
    requires s.Valid() && f.Valid()
  {
    Finished(Configured(s, defaults, f.h, f.d), f.h, f.counts, f.done)
  }

  function Initial(defaults: Context): Probs {
    Probs([defaults, defaults, defaults, defaults], seq(CTX_SIZE, _ => 0), 0, false, false)
  }

  function Run(defaults: Context, frames: seq<Frame>): (s: Probs)
    requires forall i | 0 <= i < |frames| :: frames[i].Valid()
    ensures s.Valid()
  {
    if frames == [] then Initial(defaults)
    else Step(Run(defaults, frames[..|frames| - 1]), defaults, frames[|frames| - 1])
  }

  /** What the headers select and reset: key and error-resilient frames reset all four contexts, an intra-only frame
      what reset_frame_context says, and these all read context 0; every other frame resets none and reads the coded
      one. */
  lemma ConfiguredContexts(s: Probs, defaults: Context, h: FrameHeader, d: Context)
    requires s.Valid() && h.Valid()
    ensures var n := Configured(s, defaults, h, d);
      && (h.keyFrame || h.errorResilient ==> n.idx == 0 && n.saved == [defaults, defaults, defaults, defaults])
      && (h.intraOnly && !h.keyFrame && !h.errorResilient ==>
            n.idx == 0
            && n.saved == if h.resetFrameContext == 2 then [defaults, defaults, defaults, defaults]
                          else if h.resetFrameContext == 1 then s.saved[h.frameContextIdx := defaults] else s.saved)
      && (!h.keyFrame && !h.intraOnly && !h.errorResilient ==> n.idx == h.frameContextIdx && n.saved == s.saved)
  {
    hide FwUpdated;
  }

  /** What adaptation starts from: the saved context, but on intra frames the tables' transform probabilities and the
      three skip probabilities. */
  lemma LoadedBytes(saved: Context, tables: Context, k: nat)
    requires k < CTX_SIZE
    ensures Loaded(saved, tables, false)[k] == saved[k]
    ensures Loaded(saved, tables, true)[k] == if k < 12 || 1740 <= k < 1743 then tables[k] else saved[k]
  {
    Offsets();
  }

  // Safety over runs.

  lemma ConfiguredUsable(s: Probs, defaults: Context, h: FrameHeader, d: Context)
    requires s.AllUsable() && Usable(defaults) && h.Valid() && forall k | 0 <= k < CTX_SIZE :: d[k] <= 254
    ensures Configured(s, defaults, h, d).AllUsable() && Usable(Configured(s, defaults, h, d).tables)
  {
    FwUpdatedUsable(ResetContexts(s.saved, defaults, h)[Selected(h)], d, h);
  }

  lemma FinishedUsable(s: Probs, h: FrameHeader, c: Counts, done: bool)
    requires s.AllUsable() && Usable(s.tables) && c.Valid()
    ensures Finished(s, h, c, done).AllUsable() && Usable(Finished(s, h, c, done).tables)
  {
    hide Adapt, AdaptPlan;
    AdaptUsable(Loaded(s.saved[s.idx], s.tables, h.FrameIsIntra()), AdaptPlan(s, h, c));
  }

  /** After every run of frames with deltas of at most 254, whatever was counted and whichever frames failed, all four
      saved contexts are usable and, once a frame has been configured, so are the working tables. */
  lemma {:induction false} RunUsable(defaults: Context, frames: seq<Frame>)
    requires Usable(defaults)
    requires forall i | 0 <= i < |frames| :: frames[i].Valid() && forall k | 0 <= k < CTX_SIZE :: frames[i].d[k] <= 254
    ensures Run(defaults, frames).AllUsable()
    ensures frames != [] ==> Usable(Run(defaults, frames).tables)
  {
    hide Configured, Finished;
    if frames != [] {
      var before, f := frames[..|frames| - 1], frames[|frames| - 1];
      RunUsable(defaults, before);
      ConfiguredUsable(Run(defaults, before), defaults, f.h, f.d);
      FinishedUsable(Configured(Run(defaults, before), defaults, f.h, f.d), f.h, f.counts, f.done);
    }
  }

  /** The latest frame of a run that was finished successfully. */
  function LastDone(frames: seq<Frame>): Option<Frame> {
    if frames == [] then None
    else if frames[|frames| - 1].done then Some(frames[|frames| - 1])
    else LastDone(frames[..|frames| - 1])
  }

  /** The update factor of a frame's coefficients depends on the latest successful frame: 128 behind a key frame, or
      behind nothing, and 112 otherwise and for every intra frame. */
  lemma {:induction false} RunFactor(defaults: Context, frames: seq<Frame>, h: FrameHeader)
    requires forall i | 0 <= i < |frames| :: frames[i].Valid()
    ensures var s := Run(defaults, frames);
      var last := LastDone(frames);
      && s.previousValid == last.Some? && (last.Some? ==> s.previousKeyFrame == last.value.h.keyFrame)
      && CoefFactor(!s.previousValid || s.previousKeyFrame, h.FrameIsIntra())
           == (if h.FrameIsIntra() || (last.Some? && !last.value.h.keyFrame) then 112 else 128)
  {
    hide Adapt, AdaptPlan, FwUpdated, ResetContexts, Loaded;
    if frames != [] {
      RunFactor(defaults, frames[..|frames| - 1], h);
    }
  }

  /** What a frame can do to a saved context: only a reset or a successful refresh of that very context. */
  lemma StepKeeps(s: Probs, defaults: Context, f: Frame, i: nat)
    requires s.Valid() && f.Valid() && i < 4
    requires !Resets(f.h, i) && !(f.done && f.h.refreshFrameCtx && Selected(f.h) == i)
    ensures Step(s, defaults, f).saved[i] == s.saved[i]
  {
  }

  /** A context survives every run whose frames neither reset nor refresh it. */
  lemma {:induction false} RunKeeps(defaults: Context, frames: seq<Frame>, more: seq<Frame>, i: nat)
    requires i < 4
    requires forall j | 0 <= j < |frames| :: frames[j].Valid()
    requires forall j | 0 <= j < |more| :: more[j].Valid()
    requires forall j | 0 <= j < |more| ::
      !Resets(more[j].h, i) && !(more[j].done && more[j].h.refreshFrameCtx && Selected(more[j].h) == i)
    ensures forall j | 0 <= j < |frames + more| :: (frames + more)[j].Valid()
    ensures Run(defaults, frames + more).saved[i] == Run(defaults, frames).saved[i]
    decreases |more|
  {
    hide Step;
    if more == [] {
      assert frames + more == frames;
    } else {
      var front, f := more[..|more| - 1], more[|more| - 1];
      RunKeeps(defaults, frames, front, i);
      assert (frames + more)[..|frames + more| - 1] == frames + front;
      StepKeeps(Run(defaults, frames + front), defaults, f, i);
    }
  }

  /** A frame in error, or without the refresh flag, saves nothing. */
  lemma NothingSaved(s: Probs, h: FrameHeader, c: Counts, done: bool)
    requires s.Valid() && c.Valid() && !(done && h.refreshFrameCtx)
    ensures Finished(s, h, c, done).saved == s.saved
  {
  }

  /** A frame in parallel mode saves its forward-updated tables. */
  lemma ParallelSaves(s: Probs, defaults: Context, f: Frame)
    requires s.Valid() && f.Valid() && f.done && f.h.refreshFrameCtx && f.h.parallelDecMode
    ensures var from := ResetContexts(s.saved, defaults, f.h)[Selected(f.h)];
      Step(s, defaults, f).saved[Selected(f.h)] == FwUpdated(from, f.d, f.h)
  {
  }

  /** Without counts a refreshing frame saves the context it started from, and nothing of its own deltas but, on an
      intra frame, the transform and skip probabilities. */
  lemma NothingCountedSaves(s: Probs, defaults: Context, f: Frame)
    requires s.Valid() && f.Valid() && f.done && f.h.refreshFrameCtx && !f.h.parallelDecMode && f.counts.Zero()
    ensures var from := ResetContexts(s.saved, defaults, f.h)[Selected(f.h)];
      Step(s, defaults, f).saved[Selected(f.h)] == Loaded(from, FwUpdated(from, f.d, f.h), f.h.FrameIsIntra())
  {
    hide Adapt, CoefPlan, NonCoefPlan;
    var at := Configured(s, defaults, f.h, f.d);
    CoefNothing(f.counts, BLOCKS, CoefFactor(!at.previousValid || at.previousKeyFrame, f.h.FrameIsIntra()));
    NonCoefNothing(f.counts, f.h);
    AdaptNothing(Loaded(at.saved[at.idx], at.tables, f.h.FrameIsIntra()), AdaptPlan(at, f.h, f.counts));
  }

  // Whole runs against the VP9 processes.

  /** Whether a frame's counters stay within the words of merge_prob, for the trees that it adapts. */
  predicate CountsExact(c: Counts, h: FrameHeader)
    requires c.Valid()
  {
    PlansValid(c, h);
    AllExact(CoefPlan(c, BLOCKS, 112)) && (h.FrameIsIntra() || AllExact(NonCoefPlan(c, h)))
  }

  predicate FrameExact(f: Frame)
    requires f.Valid()
  {
    f.done && f.h.refreshFrameCtx && !f.h.parallelDecMode ==> CountsExact(f.counts, f.h)
  }

  /** The update factor does not matter for that. */
  lemma {:induction false} ExactForAnyFactor(c: Counts, n: nat, uf: nat)
    requires c.Valid() && n <= BLOCKS && uf <= 256 && AllExact(CoefPlan(c, n, 112))
    ensures AllExact(CoefPlan(c, n, uf))
  {
    hide TreeExact, BlockJobs, AllExact;
    if n > 0 {
      ExactParts(CoefPlan(c, n - 1, 112), BlockJobs(c, n - 1, 112));
      ExactForAnyFactor(c, n - 1, uf);
      BlockExactForAnyFactor(c, n - 1, uf);
      ExactParts(CoefPlan(c, n - 1, uf), BlockJobs(c, n - 1, uf));
    } else {
      NothingExact();
    }
  }

  lemma NothingExact()
    ensures AllExact([])
  {
  }

  lemma BlockExactForAnyFactor(c: Counts, b: nat, uf: nat)
    requires c.Valid() && b < BLOCKS && uf <= 256 && AllExact(BlockJobs(c, b, 112))
    ensures AllExact(BlockJobs(c, b, uf))
  {
    hide TreeExact, Sub32;
    var was, now := BlockJobs(c, b, 112), BlockJobs(c, b, uf);
    assert |was| == |now| && forall i | 0 <= i < |now| :: now[i].tree == was[i].tree && now[i].counts == was[i].counts;
  }

  lemma ExactParts(first: seq<Job>, second: seq<Job>)
    ensures AllExact(first + second) <==> AllExact(first) && AllExact(second)
  {
    hide TreeExact;
    var plan := first + second;
    assert forall i | 0 <= i < |first| :: first[i] == plan[i];
    assert forall i | 0 <= i < |second| :: second[i] == plan[|first| + i];
  }

  /** Finished, with the adaptation that VP9 defines. */
  function SpecFinished(s: Probs, h: FrameHeader, c: Counts, done: bool): Probs
    requires s.Valid() && c.Valid()
  {
    if !done then s
    else
      var tables := if h.refreshFrameCtx && !h.parallelDecMode
        then SpecAdapt(Loaded(s.saved[s.idx], s.tables, h.FrameIsIntra()), AdaptPlan(s, h, c)) else s.tables;
      s.(saved := if h.refreshFrameCtx then s.saved[s.idx := tables] else s.saved,
         tables := tables, previousValid := true, previousKeyFrame := h.keyFrame)
  }

  function SpecStep(s: Probs, defaults: Context, f: Frame): Probs
    requires s.Valid() && f.Valid()
  {
    SpecFinished(Configured(s, defaults, f.h, f.d), f.h, f.counts, f.done)
  }

  function SpecRun(defaults: Context, frames: seq<Frame>): (s: Probs)
    requires forall i | 0 <= i < |frames| :: frames[i].Valid()
    ensures s.Valid()
  {
    if frames == [] then Initial(defaults)
    else SpecStep(SpecRun(defaults, frames[..|frames| - 1]), defaults, frames[|frames| - 1])
  }

  lemma FinishedIsSpec(s: Probs, f: Frame)
    requires s.Valid() && f.Valid() && FrameExact(f)
    ensures Finished(s, f.h, f.counts, f.done) == SpecFinished(s, f.h, f.counts, f.done)
  {
    hide Adapt, SpecAdapt, CoefPlan, NonCoefPlan, TreeExact;
    if f.done && f.h.refreshFrameCtx && !f.h.parallelDecMode {
      var uf := CoefFactor(!s.previousValid || s.previousKeyFrame, f.h.FrameIsIntra());
      ExactForAnyFactor(f.counts, BLOCKS, uf);
      AdaptIsSpec(Loaded(s.saved[s.idx], s.tables, f.h.FrameIsIntra()), AdaptPlan(s, f.h, f.counts));
    }
  }

  /** A run whose counters stay within the words is the run that VP9 defines. */
  lemma {:induction false} RunIsSpec(defaults: Context, frames: seq<Frame>)
    requires forall i | 0 <= i < |frames| :: frames[i].Valid() && FrameExact(frames[i])
    ensures Run(defaults, frames) == SpecRun(defaults, frames)
  {
    hide Step, SpecStep, FrameExact;
    if frames != [] {
      var before, f := frames[..|frames| - 1], frames[|frames| - 1];
      RunIsSpec(defaults, before);
      StepIsSpec(Run(defaults, before), defaults, f);
    }
  }

  lemma StepIsSpec(s: Probs, defaults: Context, f: Frame)
    requires s.Valid() && f.Valid() && FrameExact(f)
    ensures Step(s, defaults, f) == SpecStep(s, defaults, f)
  {
    hide Finished, SpecFinished, FrameExact;
    FinishedIsSpec(Configured(s, defaults, f.h, f.d), f);
  }

  // The decoder object.

  class Decoder {
    const defaults: Context
    var saved: seq<Context>
    const tables: array<byte>
    var idx: nat
    var previousValid: bool
    var previousKeyFrame: bool

    ghost predicate Valid()
      reads this
    {
      |saved| == 4 && tables.Length == CTX_SIZE && idx < 4
    }

    ghost function View(): (s: Probs)
      requires Valid()
      reads this, tables
      ensures s.Valid()
    {
      Probs(saved, tables[..], idx, previousValid, previousKeyFrame)
    }

    constructor (defaults: Context)
      ensures Valid() && fresh(tables) && this.defaults == defaults && View() == Initial(defaults)
    {
      this.defaults := defaults;
      saved := [defaults, defaults, defaults, defaults];
      idx, previousValid, previousKeyFrame := 0, false, false;
      tables := new byte[CTX_SIZE](_ => 0);
      new;
      assert tables[..] == seq(CTX_SIZE, _ => 0);
    }

    /** cedrus_vp9_reset_frame_ctx */
    method ResetFrameCtx(h: FrameHeader) returns (fctxIdx: nat)
      requires Valid() && h.Valid()
      modifies this`saved
      ensures saved == ResetContexts(old(saved), defaults, h) && fctxIdx == Selected(h)
    {
      fctxIdx := h.frameContextIdx;
      if h.keyFrame || h.intraOnly || h.errorResilient {
        if h.keyFrame || h.errorResilient || h.resetFrameContext == RESET_FRAME_CTX_ALL {
          for i := 0 to 4
            invariant |saved| == 4
            invariant forall j | 0 <= j < 4 :: saved[j] == if j < i then defaults else old(saved[j])
          {
            saved := saved[i := defaults];
          }
        } else if h.resetFrameContext == RESET_FRAME_CTX_SPEC {
          saved := saved[fctxIdx := defaults];
        }
        fctxIdx := 0;
      }
    }

    method Load(from: Context, lo: nat, hi: nat)
      requires tables.Length == CTX_SIZE && lo <= hi <= CTX_SIZE
      modifies tables
      ensures forall k | 0 <= k < CTX_SIZE :: tables[k] == if lo <= k < hi then from[k] else old(tables[k])
    {
      for k := lo to hi
        invariant forall j | 0 <= j < CTX_SIZE :: tables[j] == if lo <= j < k then from[j] else old(tables[j])
      {
        tables[k] := from[k];
      }
    }

    /** The probability part of job_configure; `hw` is the image that the hardware reads. */
    method Configure(h: FrameHeader, d: Context, seg: Segmentation, hw: array<byte>)
      requires Valid() && h.Valid() && seg.Valid() && hw.Length == HW_SIZE && hw != tables
      modifies this`saved, this`idx, tables, hw
      ensures Valid() && View() == Configured(old(View()), defaults, h, d)
      ensures hw[..] == Overlay(ImageOf(View().tables), seg)
    {
      hide Unused, Apply, RuleAt;
      idx := ResetFrameCtx(h);
      Load(saved[idx], 0, CTX_SIZE);
      assert tables[..] == saved[idx];
      FwUpdateProbs(tables, d, h);
      var _ := PackProbs(hw, tables[..], seg);
    }

    /** The probability part of job_finish. */
    method Finish(h: FrameHeader, c: Counts, done: bool)
      requires Valid() && c.Valid()
      modifies this`saved, this`previousValid, this`previousKeyFrame, tables
      ensures Valid() && View() == Finished(old(View()), h, c, done)
    {
      hide Adapt, CoefPlan, NonCoefPlan;
      if !done {
        return;
      }
      var use128 := !previousValid || previousKeyFrame;
      if h.refreshFrameCtx {
        if !h.parallelDecMode {
          Readapt(h, c, use128);
        }
        saved := saved[idx := tables[..]];
      }
      previousValid := true;
      previousKeyFrame := h.keyFrame;
    }

    method Readapt(h: FrameHeader, c: Counts, use128: bool)
      requires Valid() && c.Valid() && use128 == (!previousValid || previousKeyFrame)
      modifies tables
      ensures tables[..] == Adapt(Loaded(saved[idx], old(tables[..]), h.FrameIsIntra()), AdaptPlan(old(View()), h, c))
    {
      hide Adapt, CoefPlan, NonCoefPlan;
      ghost var s := View();
      var kept := tables[..];
      Load(saved[idx], 0, CTX_SIZE);
      if h.FrameIsIntra() {
        Load(kept, TX8, COEF);
        Load(kept, SKIP, INTER_MODE);
      }
      ghost var from := Loaded(saved[idx], kept, h.FrameIsIntra());
      assert tables[..] == from;
      AdaptCoefProbs(tables, c, use128, h.FrameIsIntra());
      ghost var coefs := CoefPlan(c, BLOCKS, CoefFactor(use128, h.FrameIsIntra()));
      if !h.FrameIsIntra() {
        AdaptNonCoefProbs(tables, c, h);
        AdaptConcat(from, coefs, NonCoefPlan(c, h));
      } else {
        assert coefs + [] == coefs;
      }
    }
  }
}
