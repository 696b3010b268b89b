/** Job completion in the cedrus driver: device_run, the watchdog work and the interrupt handler as interleaved steps
    over the current job and the pending watchdog. */
module JobProtocol {
  import opened Words

  type Ctx = nat

  /** A job of the mem2mem framework; every job has an id of its own. */
  datatype Job = Job(id: nat, ctx: Ctx)

  /** The delayed work: its timer runs, or it has expired and waits for a worker.  It is pending in both states. */
  datatype Work = Idle | Timer | Queued

  datatype Caller = ByFailure | ByWatchdog(armer: nat) | ByIrq

  /** A call of cedrus_context_job_finish: the job of its context that it finishes, and who called. */
  datatype Finish = Finish(job: nat, caller: Caller)

  /** Between steps, the three threads of control each keep their place and what they have read. */
  datatype RunPhase = RunIdle | Starting(job: Job)
  datatype WatchdogPhase = WatchdogIdle | Running(armer: nat) | WatchdogRead(armer: nat, ctx: Ctx)
  datatype IrqPhase = IrqIdle | IrqRead(ctx: Option<Ctx>) | Cancelled(ctx: Option<Ctx>)

  datatype State = State(
    curr: Option<Job>, next: nat, last: map<Ctx, nat>, work: Work, armer: nat,
    run: RunPhase, watchdog: WatchdogPhase, irq: IrqPhase, log: seq<Finish>)

  datatype Step =
    | Begin(ctx: Ctx)      // the framework picks a job and calls device_run
    | Fail                 // device_run gives up before arming
    | Arm                  // schedule_delayed_work, then the hardware is triggered
    | Expire               // the timer fires
    | WatchdogStart        // a worker takes the work: it is no longer pending
    | WatchdogReadCurr
    | WatchdogFinish
    | IrqReadCurr
    | IrqCancel            // cancel_delayed_work
    | IrqFinish(none: bool) // the engine's status, and the finish unless there is none

  predicate Enabled(s: State, step: Step) {
    match step
    case Begin(_) => s.curr.None? && s.run.RunIdle?
    case Fail => s.run.Starting?
    case Arm => s.run.Starting?
    case Expire => s.work.Timer?
    case WatchdogStart => s.work.Queued? && s.watchdog.WatchdogIdle?
    case WatchdogReadCurr => s.watchdog.Running?
    case WatchdogFinish => s.watchdog.WatchdogRead?
    case IrqReadCurr => s.irq.IrqIdle?
    case IrqCancel => s.irq.IrqRead?
    case IrqFinish(_) => s.irq.Cancelled?
  }

  /** cedrus_context_job_finish: the context's latest job is finished; the framework frees its slot if it is that
      job's. */
  function Finished(s: State, ctx: Ctx, caller: Caller): State {
    s.(log := s.log + [Finish(if ctx in s.last then s.last[ctx] else s.next, caller)],
       curr := if s.curr.Some? && s.curr.value.ctx == ctx then None else s.curr)
  }

  function Next(s: State, step: Step): State
    requires Enabled(s, step)
  {
    match step
    case Begin(ctx) =>
      var job := Job(s.next, ctx);
      s.(curr := Some(job), next := s.next + 1, last := s.last[ctx := s.next], run := Starting(job))
    case Fail => Finished(s, s.run.job.ctx, ByFailure).(run := RunIdle)
    case Arm =>
      if s.work.Idle? then s.(work := Timer, armer := s.run.job.id, run := RunIdle) else s.(run := RunIdle)
    case Expire => s.(work := Queued)
    case WatchdogStart => s.(work := Idle, watchdog := Running(s.armer))
    case WatchdogReadCurr =>
      s.(watchdog := if s.curr.None? then WatchdogIdle else WatchdogRead(s.watchdog.armer, s.curr.value.ctx))
    case WatchdogFinish => Finished(s, s.watchdog.ctx, ByWatchdog(s.watchdog.armer)).(watchdog := WatchdogIdle)
    case IrqReadCurr => s.(irq := IrqRead(if s.curr.None? then None else Some(s.curr.value.ctx)))
    case IrqCancel => if s.work.Idle? then s.(irq := IrqIdle) else s.(work := Idle, irq := Cancelled(s.irq.ctx))
    case IrqFinish(none) =>
      if s.irq.ctx.None? || none then s.(irq := IrqIdle) else Finished(s, s.irq.ctx.value, ByIrq).(irq := IrqIdle)
  }

  // The token.

  /** How many may still finish a job: the pending work, the running watchdog, an interrupt that cancelled the work. */
  function Tokens(s: State): nat {
    (if s.work.Idle? then 0 else 1) + (if s.watchdog.WatchdogIdle? then 0 else 1) + (if s.irq.Cancelled? then 1 else 0)
  }

  /** Whose token it is. */
  predicate TokenOf(s: State, job: Job) {
    && (!s.work.Idle? ==> s.armer == job.id)
    && (s.watchdog.Running? ==> s.watchdog.armer == job.id)
    && (s.watchdog.WatchdogRead? ==> s.watchdog.armer == job.id && s.watchdog.ctx == job.ctx)
  }

  /** There is at most one token, it belongs to the current job, and a job being started has none yet. */
  predicate OneToken(s: State) {
    && Tokens(s) <= 1
    && (s.curr.None? ==> Tokens(s) == 0)
    && (s.run.Starting? ==> s.curr == Some(s.run.job) && Tokens(s) == 0)
    && (s.curr.Some? ==> TokenOf(s, s.curr.value))
    && (s.curr.Some? ==> s.curr.value.ctx in s.last && s.last[s.curr.value.ctx] == s.curr.value.id)
    && (forall c | c in s.last :: s.last[c] < s.next)
    && forall c, d | c in s.last && d in s.last && c != d :: s.last[c] != s.last[d]
  }

  function Initial(): State {
    State(None, 0, map[], Idle, 0, RunIdle, WatchdogIdle, IrqIdle, [])
  }

  /** The state after a schedule; a step that is not enabled does nothing. */
  function Run(steps: seq<Step>): State {
    if steps == [] then Initial()
    else
      var s := Run(steps[..|steps| - 1]);
      if Enabled(s, steps[|steps| - 1]) then Next(s, steps[|steps| - 1]) else s
  }

  // What holds in every interleaving.

  /** What the watchdog finished is what armed it. */
  predicate WatchdogRight(log: seq<Finish>) {
    forall k | 0 <= k < |log| && log[k].caller.ByWatchdog? :: log[k].job == log[k].caller.armer
  }

  lemma StepToken(s: State, step: Step)
    requires OneToken(s) && Enabled(s, step)
    ensures OneToken(Next(s, step))
  {
  }

  lemma StepWatchdog(s: State, step: Step)
    requires OneToken(s) && WatchdogRight(s.log) && Enabled(s, step)
    ensures WatchdogRight(Next(s, step).log)
  {
  }

  /** However the steps interleave, with interrupts as stale or repeated as one likes: at most one party may finish a
      job, and the watchdog finishes the job that armed it. */
  lemma {:induction false} RunWatchdog(steps: seq<Step>)
    ensures OneToken(Run(steps)) && WatchdogRight(Run(steps).log)
  {
    hide OneToken, WatchdogRight, Next;
    if steps == [] {
      InitialHolds();
    } else {
      var s, step := Run(steps[..|steps| - 1]), steps[|steps| - 1];
      RunWatchdog(steps[..|steps| - 1]);
      if Enabled(s, step) {
        StepToken(s, step);
        StepWatchdog(s, step);
      }
    }
  }

  // How a job gets finished.

  /** An interrupt that runs undisturbed while the work is pending finishes the current job, and nothing else. */
  lemma IrqCompletes(s: State, job: Job)
    requires OneToken(s) && s.curr == Some(job) && !s.work.Idle? && s.irq.IrqIdle?
    ensures var a := Next(s, IrqReadCurr);
      Enabled(a, IrqCancel) && Enabled(Next(a, IrqCancel), IrqFinish(false))
      && var b := Next(Next(a, IrqCancel), IrqFinish(false));
         b.log == s.log + [Finish(job.id, ByIrq)] && b.curr.None? && Tokens(b) == 0
  {
  }

  /** An interrupt behind the watchdog, or one whose status is none, finishes nothing. */
  lemma IrqFinishesNothing(s: State)
    ensures s.irq.IrqRead? && s.work.Idle? ==> Next(s, IrqCancel).log == s.log && Next(s, IrqCancel).irq.IrqIdle?
    ensures s.irq.Cancelled? ==> Next(s, IrqFinish(true)).log == s.log
  {
  }

  /** A watchdog that runs undisturbed finishes the current job, and nothing else. */
  lemma WatchdogCompletes(s: State, job: Job)
    requires OneToken(s) && s.curr == Some(job) && s.work.Timer?
    ensures var a := Next(Next(s, Expire), WatchdogStart);
      Enabled(a, WatchdogReadCurr) && Enabled(Next(a, WatchdogReadCurr), WatchdogFinish)
      && var b := Next(Next(a, WatchdogReadCurr), WatchdogFinish);
         b.log == s.log + [Finish(job.id, ByWatchdog(job.id))] && b.curr.None? && Tokens(b) == 0
  {
  }

  /** A job that begins gets a new id; it is finished at once when it fails to start, and else it has a pending timer
      of its own. */
  lemma BeginStarts(s: State, ctx: Ctx)
    requires OneToken(s) && s.curr.None? && s.run.RunIdle?
    ensures var a := Next(s, Begin(ctx));
      && a.curr == Some(Job(s.next, ctx)) && a.log == s.log && Tokens(a) == 0
      && Next(a, Fail).log == s.log + [Finish(s.next, ByFailure)] && Next(a, Fail).curr.None?
      && Next(a, Arm).log == s.log && Next(a, Arm).work.Timer? && Next(a, Arm).armer == s.next
      && Next(a, Arm).curr == a.curr
  {
  }

  // Finishing once.

  predicate Logged(log: seq<Finish>, id: nat) {
    exists k :: 0 <= k < |log| && log[k].job == id
  }

  /** No job is finished twice. */
  predicate Once(log: seq<Finish>) {
    forall i, j | 0 <= i < j < |log| :: log[i].job != log[j].job
  }

  /** The jobs finished so far are those that began and are no longer current, each once. */
  ghost predicate LogExact(s: State) {
    && Once(s.log)
    && (forall id: nat :: Logged(s.log, id) <==> id < s.next && !(s.curr.Some? && s.curr.value.id == id))
  }

  /** What an interrupt has read is some job's context. */
  predicate IrqKnown(s: State) {
    && (s.irq.IrqRead? && s.irq.ctx.Some? ==> s.irq.ctx.value in s.last)
    && (s.irq.Cancelled? ==> s.curr.Some? && (s.irq.ctx.Some? ==> s.irq.ctx.value in s.last))
  }

  lemma LogAppend(log: seq<Finish>, f: Finish)
    ensures forall id: nat :: Logged(log + [f], id) <==> Logged(log, id) || id == f.job
    ensures Once(log + [f]) <==> Once(log) && !Logged(log, f.job)
  {
    forall id: nat ensures Logged(log + [f], id) <==> Logged(log, id) || id == f.job {
      if Logged(log, id) {
        var k :| 0 <= k < |log| && log[k].job == id;
        assert (log + [f])[k].job == id;
      }
      assert (log + [f])[|log|] == f;
    }
    if Once(log + [f]) {
      forall k | 0 <= k < |log| ensures log[k].job != f.job {
        assert (log + [f])[k].job != (log + [f])[|log|].job;
      }
      forall i, j | 0 <= i < j < |log| ensures log[i].job != log[j].job {
        assert (log + [f])[i].job != (log + [f])[j].job;
      }
    }
  }

  /** An interrupt that has cancelled the work finishes a job for the second time exactly when the context it had read
      is no longer the current one. */
  lemma IrqFinishesOnceIff(s: State)
    requires OneToken(s) && LogExact(s) && IrqKnown(s) && s.irq.Cancelled? && s.irq.ctx.Some?
    ensures Once(Next(s, IrqFinish(false)).log) <==> s.irq.ctx.value == s.curr.value.ctx
  {
    hide Once, Logged;
    LogAppend(s.log, Finish(s.last[s.irq.ctx.value], ByIrq));
  }

  /** Every other finish is right in any case. */
  lemma StepOnce(s: State, step: Step)
    requires OneToken(s) && LogExact(s) && IrqKnown(s) && Enabled(s, step)
    requires step.IrqFinish? && !step.none && s.irq.ctx.Some? ==> s.irq.ctx.value == s.curr.value.ctx
    ensures LogExact(Next(s, step)) && IrqKnown(Next(s, step))
  {
    hide Once, Logged;
    match step
    case Fail => LogAppend(s.log, Finish(s.run.job.id, ByFailure));
    case WatchdogFinish => LogAppend(s.log, Finish(s.curr.value.id, ByWatchdog(s.watchdog.armer)));
    case IrqFinish(none) =>
      if s.irq.ctx.Some? && !none { LogAppend(s.log, Finish(s.curr.value.id, ByIrq)); }
    case _ =>
  }

  /** Whether a step makes an interrupt finish a job's context that is not the current one. */
  predicate Mismatch(s: State, step: Step) {
    && Enabled(s, step) && step.IrqFinish? && !step.none && s.irq.ctx.Some?
    && !(s.curr.Some? && s.irq.ctx.value == s.curr.value.ctx)
  }

  /** Whenever an interrupt finishes, the context that it had read is the current one. */
  predicate Matched(steps: seq<Step>) {
    steps == [] || (Matched(steps[..|steps| - 1]) && !Mismatch(Run(steps[..|steps| - 1]), steps[|steps| - 1]))
  }

  lemma {:induction false} MatchedRun(steps: seq<Step>)
    requires Matched(steps)
    ensures OneToken(Run(steps)) && LogExact(Run(steps)) && IrqKnown(Run(steps))
  {
    hide OneToken, LogExact, IrqKnown, Next;
    if steps == [] {
      InitialHolds();
    } else {
      var s, step := Run(steps[..|steps| - 1]), steps[|steps| - 1];
      MatchedRun(steps[..|steps| - 1]);
      if Enabled(s, step) {
        StepToken(s, step);
        CancelledIsCurrent(s);
        StepOnce(s, step);
      }
    }
  }

  lemma CancelledIsCurrent(s: State)
    requires OneToken(s)
    ensures s.irq.Cancelled? ==> s.curr.Some?
  {
  }

  lemma OnceOfPrefix(log: seq<Finish>, more: seq<Finish>)
    requires Once(log + more)
    ensures Once(log)
  {
    forall i, j | 0 <= i < j < |log| ensures log[i].job != log[j].job {
      assert (log + more)[i].job != (log + more)[j].job;
    }
  }

  /** Finishes are only ever added. */
  lemma LogGrows(s: State, step: Step)
    requires Enabled(s, step)
    ensures |s.log| <= |Next(s, step).log| && Next(s, step).log == s.log + Next(s, step).log[|s.log|..]
  {
  }

  /** Over all schedules: each job is finished at most once if and only if every interrupt that finishes had read the
      context that is still the current one. */
  lemma {:induction false} RunOnceIff(steps: seq<Step>)
    ensures Once(Run(steps).log) <==> Matched(steps)
  {
    hide OneToken, LogExact, IrqKnown, Next;
    if Matched(steps) {
      MatchedRun(steps);
      ExactIsOnce(Run(steps));
    } else {
      var front, step := steps[..|steps| - 1], steps[|steps| - 1];
      var s := Run(front);
      RunOnceIff(front);
      if Matched(front) {
        MatchedRun(front);
        CancelledIsCurrent(s);
        IrqFinishesOnceIff(s);
      } else if Enabled(s, step) {
        LogGrows(s, step);
        if Once(Next(s, step).log) { OnceOfPrefix(s.log, Next(s, step).log[|s.log|..]); }
      }
    }
  }

  lemma ExactIsOnce(s: State)
    requires LogExact(s)
    ensures Once(s.log)
  {
  }

  /** No job begins while an interrupt is between reading the current context and cancelling the work. */
  predicate Calm(steps: seq<Step>) {
    steps == []
    || (Calm(steps[..|steps| - 1]) && (steps[|steps| - 1].Begin? ==> !Run(steps[..|steps| - 1]).irq.IrqRead?))
  }

  /** Then what it has read is current whenever it matters. */
  predicate IrqCurrent(s: State) {
    && (s.irq.IrqRead? && s.curr.Some? ==> s.irq.ctx == Some(s.curr.value.ctx))
    && (s.irq.Cancelled? ==> s.curr.Some? && s.irq.ctx == Some(s.curr.value.ctx))
  }

  lemma StepCurrent(s: State, step: Step)
    requires OneToken(s) && IrqCurrent(s) && Enabled(s, step) && (step.Begin? ==> !s.irq.IrqRead?)
    ensures IrqCurrent(Next(s, step)) && !Mismatch(s, step)
  {
  }

  lemma {:induction false} CalmIsMatched(steps: seq<Step>)
    requires Calm(steps)
    ensures Matched(steps) && IrqCurrent(Run(steps))
  {
    hide OneToken, Next;
    if steps == [] {
      InitialHolds();
    } else {
      var s, step := Run(steps[..|steps| - 1]), steps[|steps| - 1];
      CalmIsMatched(steps[..|steps| - 1]);
      RunWatchdog(steps[..|steps| - 1]);
      if Enabled(s, step) { StepCurrent(s, step); }
    }
  }

  /** Calm schedules are a case that a scheduler could guarantee. */
  lemma CalmRunOnce(steps: seq<Step>)
    requires Calm(steps)
    ensures Once(Run(steps).log)
  {
    CalmIsMatched(steps);
    RunOnceIff(steps);
  }

  lemma InitialHolds()
    ensures var s := Initial(); OneToken(s) && LogExact(s) && IrqKnown(s) && IrqCurrent(s) && WatchdogRight(s.log)
  {
  }

  /** A schedule that is not matched: the interrupt reads context 1, the watchdog finishes its job, context 2 begins and
      arms, and the interrupt then cancels that watchdog and finishes context 1 again. */
  const STALE := [
    Begin(1), Arm, IrqReadCurr, Expire, WatchdogStart, WatchdogReadCurr, WatchdogFinish,
    Begin(2), Arm, IrqCancel, IrqFinish(false)]

  function Do(s: State, step: Step): State {
    if Enabled(s, step) then Next(s, step) else s
  }

  function After(s: State, steps: seq<Step>): State
    decreases |steps|
  {
    if steps == [] then s else After(Do(s, steps[0]), steps[1..])
  }

  /** Running a schedule forwards. */
  lemma {:induction false} RunIsAfter(steps: seq<Step>, k: nat)
    requires k <= |steps|
    ensures After(Run(steps[..k]), steps[k..]) == Run(steps)
    decreases |steps| - k
  {
    if k == |steps| {
      assert steps[..k] == steps && steps[k..] == [];
    } else {
      RunIsAfter(steps, k + 1);
      assert steps[..k + 1][..k] == steps[..k] && steps[k..][1..] == steps[k + 1..] && steps[k..][0] == steps[k];
    }
  }

  lemma AfterAt(s: State, k: nat)
    requires k < |STALE|
    ensures After(s, STALE[k..]) == After(Do(s, STALE[k]), STALE[k + 1..])
  {
    assert STALE[k..][0] == STALE[k] && STALE[k..][1..] == STALE[k + 1..];
  }

  /** Half way: job 0 of context 1 has been finished by the watchdog, and the interrupt still means context 1. */
  const HALF := State(
    None, 1, map[1 := 0], Idle, 0, RunIdle, WatchdogIdle, IrqRead(Some(1)), [Finish(0, ByWatchdog(0))])

  /** The watchdog has expired on job 0 and the interrupt has read its context. */
  const EXPIRED := State(Some(Job(0, 1)), 1, map[1 := 0], Queued, 0, RunIdle, WatchdogIdle, IrqRead(Some(1)), [])

  lemma StaleStart()
    ensures After(Initial(), STALE) == After(EXPIRED, STALE[4..])
  {
    hide After;
    assert STALE[0..] == STALE;
    var s1 := Do(Initial(), Begin(1));
    var s2 := Do(s1, Arm);
    var s3 := Do(s2, IrqReadCurr);
    AfterAt(Initial(), 0);
    AfterAt(s1, 1);
    AfterAt(s2, 2);
    AfterAt(s3, 3);
    assert Do(s3, Expire) == EXPIRED;
  }

  lemma StaleFirstHalf()
    ensures After(Initial(), STALE) == After(HALF, STALE[7..])
  {
    hide After;
    StaleStart();
    var s5 := Do(EXPIRED, WatchdogStart);
    var s6 := Do(s5, WatchdogReadCurr);
    AfterAt(EXPIRED, 4);
    AfterAt(s5, 5);
    AfterAt(s6, 6);
    assert Do(s6, WatchdogFinish) == HALF;
  }

  lemma StaleInterruptFinishesTwice()
    ensures !Once(Run(STALE).log) && Run(STALE).curr == Some(Job(1, 2)) && Tokens(Run(STALE)) == 0
  {
    hide After;
    RunIsAfter(STALE, 0);
    assert STALE[0..] == STALE && STALE[..0] == [];
    StaleFirstHalf();
    var s1 := Do(HALF, Begin(2));
    var s2 := Do(s1, Arm);
    var s3 := Do(s2, IrqCancel);
    AfterAt(HALF, 7);
    AfterAt(s1, 8);
    AfterAt(s2, 9);
    AfterAt(s3, 10);
    AfterNothing(Do(s3, IrqFinish(false)));
    var log := Run(STALE).log;
    assert log == [Finish(0, ByWatchdog(0)), Finish(0, ByIrq)];
    assert log[0].job == log[1].job;
  }

  lemma AfterNothing(s: State)
    ensures After(s, STALE[11..]) == s
  {
  }
}
