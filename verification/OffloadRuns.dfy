/** What a whole run of the offload stream adds up to: which steps send which commands, which commands bring
    which callbacks, and which steps open and close which driver handle. */
module OffloadRuns {
  import opened OffloadStream
  import opened OffloadProtocol

  /** The end of a stop of this kind: the call itself if the worker is not in the driver, else the end of its wait. */
  predicate EndsStop(s: System, step: Step, kind: StopKind) {
    match step
    case StopBegin(_, k) => k == kind && !s.worker.InCall?
    case StopResume(t) => t in s.waiters && s.waiters[t].kind == kind && !s.worker.InCall?
    case _ => false
  }

  // ---------------------------------------------------------------- commands

  /** The steps that send a command. */
  predicate Sends(s: System, step: Step, c: Cmd) {
    match c
    case WaitForBuffer => step.Write? && step.w.short && (step.w.opens || !s.st.standby)
    case Drain => step == SendDrain(false)
    case PartialDrain => step == SendDrain(true)
    case Exit => EndsStop(s, step, Destroy)
  }

  /** How many of the first n steps send the command. */
  ghost function Sendings(states: seq<System>, steps: seq<Step>, n: nat, c: Cmd): nat
    requires n <= |steps| && n <= |states|
  {
    if n == 0 then 0 else Sendings(states, steps, n - 1, c) + if Sends(states[n - 1], steps[n - 1], c) then 1 else 0
  }

  lemma TakeSendsNothing(s: System)
    requires Enabled(s, WorkerTake)
    ensures Effect(s, WorkerTake).st.sendLog == s.st.sendLog
  {
  }

  lemma SentByIs(s: System, step: Step, c: Cmd)
    requires HandleInv(s) && Enabled(s, step)
    ensures multiset(SentBy(s, step))[c] == if Sends(s, step, c) then 1 else 0
    ensures step == WorkerTake ==> SentBy(s, step) == []
  {
  }

  lemma StepSends(s: System, step: Step, s': System, c: Cmd)
    requires HandleInv(s) && StepTo(s, step, s')
    ensures multiset(s'.st.sendLog)[c] == multiset(s.st.sendLog)[c] + if Sends(s, step, c) then 1 else 0
  {
    hide Signal, Effect, SentBy, Sends, HandleInv;
    StepFrame(s, step, s');
    SentByIs(s, step, c);
    if step == WorkerTake {
      TakeSendsNothing(s);
    } else {
      SectionsOnlyAppend(s, step);
    }
  }

  /** Every command in the log of sends has its step: a short write for a wait, a call for a drain, the end of a
      destroy for an exit. */
  lemma {:induction false} RunSends(states: seq<System>, steps: seq<Step>, n: nat, c: Cmd)
    requires Run(states, steps) && n < |states|
    ensures multiset(states[n].st.sendLog)[c] == Sendings(states, steps, n, c)
  {
    hide StepTo, Sends, HandleInv;
    if n > 0 {
      RunSends(states, steps, n - 1, c);
      RunKeepsHandle(states, steps, n - 1);
      StepSends(states[n - 1], steps[n - 1], states[n], c);
    }
  }

  /** What becomes of the oldest command: exit ends the worker, a closed driver drops it, an open one is called. */
  predicate TakesOldest(s: System, s': System)
    requires s.st.cmds != []
  {
    var c := s.st.cmds[0];
    if c == Exit then s'.worker == Exited && s'.done == s.done + [Done(c, Exiting)]
    else if s.st.standby then s'.worker != Exited && !s'.worker.InCall? && s'.done == s.done + [Done(c, Dropped)]
    else s'.worker == InCall(c, s.st.compress) && s'.done == s.done && s'.st.compress == s.st.compress
  }

  lemma EffectTakes(s: System)
    requires HandleInv(s) && Enabled(s, WorkerTake)
    ensures TakesOldest(s, Effect(s, WorkerTake))
  {
  }

  /** In every run a command is dropped exactly if the worker finds the stream in standby, and otherwise served
      on the handle of the stream. */
  lemma RunServes(states: seq<System>, steps: seq<Step>, i: nat)
    requires Run(states, steps) && i < |steps| && steps[i] == WorkerTake
    ensures states[i].st.cmds != [] && TakesOldest(states[i], states[i + 1])
  {
    hide Effect, Signal, HandleInv;
    assert StepTo(states[i], steps[i], states[i + 1]);
    RunKeepsHandle(states, steps, i);
    EffectTakes(states[i]);
    StepFrame(states[i], steps[i], states[i + 1]);
  }

  // ---------------------------------------------------------------- callbacks

  /** Whether a callback is set after these steps. */
  function CallbackSet(steps: seq<Step>): bool {
    if steps == [] then false
    else
      match steps[|steps| - 1]
      case SetCallback(on) => on
      case _ => CallbackSet(steps[..|steps| - 1])
  }

  lemma EffectCallback(s: System, step: Step)
    requires Enabled(s, step)
    ensures Effect(s, step).callback == if step.SetCallback? then step.on else s.callback
  {
  }

  lemma {:induction false} RunCallback(states: seq<System>, steps: seq<Step>, n: nat)
    requires Run(states, steps) && n < |states|
    ensures states[n].callback == CallbackSet(steps[..n])
  {
    if n > 0 {
      hide Effect, Signal;
      RunCallback(states, steps, n - 1);
      assert StepTo(states[n - 1], steps[n - 1], states[n]);
      assert steps[..n][..n - 1] == steps[..n - 1];
      EffectCallback(states[n - 1], steps[n - 1]);
      StepFrame(states[n - 1], steps[n - 1], states[n]);
    }
  }

  /** The end of a driver call for one of these commands. */
  predicate Ends(s: System, step: Step, cmds: set<Cmd>) {
    step == WorkerFinish && s.worker.InCall? && s.worker.cmd in cmds
  }

  /** One driver call more has been finished, and reported if a callback was set: as writable after a wait for
      buffer space, as drained after a drain of either kind. */
  ghost predicate Reports(s: System, step: Step, s': System) {
    && multiset(s'.events)[WriteReady] == multiset(s.events)[WriteReady]
         + (if s.callback && Ends(s, step, {WaitForBuffer}) then 1 else 0)
    && multiset(s'.events)[DrainReady] == multiset(s.events)[DrainReady]
         + (if s.callback && Ends(s, step, {Drain, PartialDrain}) then 1 else 0)
    && forall c :: multiset(s'.done)[Done(c, Finished(true))] == multiset(s.done)[Done(c, Finished(true))]
         + (if s.callback && Ends(s, step, {c}) then 1 else 0)
  }

  lemma OneMore(s: System, d: Done, e: System)
    requires e.done == s.done + [d] && e.events == s.events && d.outcome != Finished(true)
    ensures forall c :: multiset(e.done)[Done(c, Finished(true))] == multiset(s.done)[Done(c, Finished(true))]
  {
  }

  lemma TakeReports(s: System)
    requires Enabled(s, WorkerTake)
    ensures Reports(s, WorkerTake, Effect(s, WorkerTake))
  {
    var c, e := s.st.cmds[0], Effect(s, WorkerTake);
    if c == Exit {
      OneMore(s, Done(c, Exiting), e);
    } else if s.st.compress == 0 {
      OneMore(s, Done(c, Dropped), e);
    }
  }

  lemma FinishReports(s: System)
    requires Enabled(s, WorkerFinish) && s.worker.cmd != Exit
    ensures Reports(s, WorkerFinish, Effect(s, WorkerFinish))
  {
    var c, e := s.worker.cmd, Effect(s, WorkerFinish);
    if !s.callback {
      OneMore(s, Done(c, Finished(false)), e);
    }
  }

  lemma EffectReports(s: System, step: Step)
    requires LogInv(s) && Enabled(s, step)
    ensures Reports(s, step, Effect(s, step))
  {
    hide Effect, Commands, Image, Reports;
    if step == WorkerFinish {
      FinishReports(s);
    } else if step == WorkerTake {
      TakeReports(s);
    } else {
      OthersFrame(s, step);
      NothingReported(s, step, Effect(s, step));
    }
  }

  lemma NothingReported(s: System, step: Step, t: System)
    requires t.done == s.done && t.events == s.events && step != WorkerFinish
    ensures Reports(s, step, t)
  {
  }

  lemma StepReports(s: System, step: Step, s': System)
    requires LogInv(s) && StepTo(s, step, s')
    ensures Reports(s, step, s')
  {
    hide Effect, Signal, LogInv;
    StepFrame(s, step, s');
    EffectReports(s, step);
  }

  /** The callbacks of a run are those of its finished commands: as many write-ready events as waits for buffer
      space that ended with a callback set, and as many drain-ready events as drains of either kind that did. */
  ghost predicate Reported(s: System) {
    && multiset(s.events)[WriteReady] == multiset(s.done)[Done(WaitForBuffer, Finished(true))]
    && multiset(s.events)[DrainReady]
         == multiset(s.done)[Done(Drain, Finished(true))] + multiset(s.done)[Done(PartialDrain, Finished(true))]
  }

  lemma KeepsReported(s: System, step: Step, s': System)
    requires Reported(s) && Reports(s, step, s')
    ensures Reported(s')
  {
    assert forall cmds :: Ends(s, step, cmds) ==> s.worker.InCall?;
  }

  /** How many of the first n steps end a driver call for one of these commands while a callback is set. */
  ghost function CallsBack(states: seq<System>, steps: seq<Step>, n: nat, cmds: set<Cmd>): nat
    requires n <= |steps| && n <= |states|
  {
    if n == 0 then 0
    else
      CallsBack(states, steps, n - 1, cmds)
      + if CallbackSet(steps[..n - 1]) && Ends(states[n - 1], steps[n - 1], cmds) then 1 else 0
  }

  lemma {:induction false} RunReports(states: seq<System>, steps: seq<Step>, n: nat)
    requires Run(states, steps) && n < |states|
    ensures Reported(states[n])
    ensures multiset(states[n].events)[WriteReady]
         == CallsBack(states, steps, n, {WaitForBuffer})
    ensures multiset(states[n].events)[DrainReady]
         == CallsBack(states, steps, n, {Drain, PartialDrain})
  {
    hide StepTo, LogInv, CallbackSet;
    if n > 0 {
      RunReports(states, steps, n - 1);
      RunCallback(states, steps, n - 1);
      RunKeepsLog(states, steps, n - 1);
      StepReports(states[n - 1], steps[n - 1], states[n]);
      KeepsReported(states[n - 1], steps[n - 1], states[n]);
    }
  }

  /** No more callbacks than commands sent. */
  lemma EventsAreSent(s: System)
    requires LogInv(s) && Reported(s)
    ensures multiset(s.events)[WriteReady] <= multiset(s.st.sendLog)[WaitForBuffer]
    ensures multiset(s.events)[DrainReady] <= multiset(s.st.sendLog)[Drain] + multiset(s.st.sendLog)[PartialDrain]
  {
    hide Image;
    DoneAreCommands(s.done, WaitForBuffer);
    DoneAreCommands(s.done, Drain);
    DoneAreCommands(s.done, PartialDrain);
  }

  lemma {:induction false} DoneAreCommands(done: seq<Done>, c: Cmd)
    ensures multiset(done)[Done(c, Finished(true))] <= multiset(Commands(done))[c]
  {
    if done != [] {
      var most, last := done[..|done| - 1], done[|done| - 1];
      assert done == most + [last] && Commands(done) == Commands(most) + [last.cmd];
      DoneAreCommands(most, c);
    }
  }

  /** A write-ready event has its short write and a drain-ready event its drain: a run in which no drain has been
      sent has brought none. */
  lemma NoMoreEventsThanCalls(states: seq<System>, steps: seq<Step>, n: nat)
    requires Run(states, steps) && n < |states|
    ensures multiset(states[n].events)[WriteReady]
         <= Sendings(states, steps, n, WaitForBuffer)
    ensures (forall k :: 0 <= k < n ==> !steps[k].SendDrain?) ==> DrainReady !in states[n].events
  {
    hide StepTo, Sends, LogInv, Reported;
    RunReports(states, steps, n);
    RunKeepsLog(states, steps, n);
    EventsAreSent(states[n]);
    RunSends(states, steps, n, WaitForBuffer);
    RunSends(states, steps, n, Drain);
    RunSends(states, steps, n, PartialDrain);
    if forall k :: 0 <= k < n ==> !steps[k].SendDrain? {
      NoDrainSent(states, steps, n);
    }
  }

  lemma {:induction false} NoDrainSent(states: seq<System>, steps: seq<Step>, n: nat)
    requires n <= |steps| < |states| && forall k :: 0 <= k < n ==> !steps[k].SendDrain?
    ensures Sendings(states, steps, n, Drain) == 0
    ensures Sendings(states, steps, n, PartialDrain) == 0
  {
    if n > 0 {
      NoDrainSent(states, steps, n - 1);
    }
  }

  // ---------------------------------------------------------------- the driver handle

  /** What a step does to the handle of the stream. */
  ghost predicate MovesHandle(s: System, step: Step, t: Stream) {
    var open := s.st.compress != 0;
    && (open ==> (t.compress == 0 <==> EndsStop(s, step, Standby)))
    && (!open ==> (t.compress != 0 <==> step.Write? && step.w.opens))
    && (t.compress == s.st.compress || t.compress == 0 || (!open && t.compress == s.st.nextHandle))
  }

  /** What a stopping call does at its beginning and after its wait: it stops an open driver once, and only a
      standby closes it. */
  ghost predicate StopsDriver(s: System, step: Step, t: Stream) {
    var stop := if step.StopBegin? && s.st.compress != 0 then [StopCall(s.st.compress)] else [];
    step.StopBegin? || step.StopResume? ==>
      if EndsStop(s, step, Standby) then
        && t.standby
        && t.trace == s.st.trace + stop + [MetadataChange(NO_METADATA)]
             + if s.st.compress != 0 then [CloseCall(s.st.compress)] else []
      else t.compress == s.st.compress && t.standby == s.st.standby && t.trace == s.st.trace + stop
  }

  lemma EffectMovesHandle(s: System, step: Step)
    requires HandleInv(s) && Enabled(s, step)
    ensures MovesHandle(s, step, Effect(s, step).st)
  {
    hide WriteSection, PauseSection, ResumeSection, Perform;
    match step
    case Write(w) => WriteSectionFacts(s.st, w);
    case Pause => PauseHandle(s.st);
    case Resume => ResumeHandle(s.st);
    case Change(x) => PerformHandle(s.st, x);
    case _ =>
  }

  lemma EffectStops(s: System, step: Step)
    requires HandleInv(s) && Enabled(s, step)
    ensures StopsDriver(s, step, Effect(s, step).st)
  {
    hide WriteSection, PauseSection, ResumeSection, Perform;
  }

  /** In every run an open handle becomes null exactly at the end of a standby, and a null one a new handle
      exactly at a write that opens the driver; a flush or a destroy stops an open driver once and leaves the
      handle alone. */
  lemma RunMovesHandle(states: seq<System>, steps: seq<Step>, i: nat)
    requires Run(states, steps) && i < |steps|
    ensures MovesHandle(states[i], steps[i], states[i + 1].st)
    ensures StopsDriver(states[i], steps[i], states[i + 1].st)
  {
    hide Effect, Signal, HandleInv, MovesHandle, StopsDriver;
    assert StepTo(states[i], steps[i], states[i + 1]);
    RunKeepsHandle(states, steps, i);
    StepFrame(states[i], steps[i], states[i + 1]);
    EffectMovesHandle(states[i], steps[i]);
    EffectStops(states[i], steps[i]);
  }

  /** The openings and closings of the driver, in order. */
  function Lifetimes(trace: seq<Call>): seq<Call> {
    if trace == [] then []
    else
      var last := trace[|trace| - 1];
      Lifetimes(trace[..|trace| - 1]) + if last.OpenCall? || last.CloseCall? then [last] else []
  }

  /** Handles 1 to n, each opened once and closed before the next is opened; the last may still be open. */
  function Sessions(n: nat, open: bool): seq<Call> {
    if n == 0 then [] else Sessions(n - 1, false) + [OpenCall(n)] + if open then [] else [CloseCall(n)]
  }

  ghost predicate PairsHandles(s: Stream) {
    && s.nextHandle > 0
    && (s.compress != 0 ==> s.compress == s.nextHandle - 1)
    && Lifetimes(s.trace) == Sessions(s.nextHandle - 1, s.compress != 0)
  }

  lemma LifetimesSnoc(trace: seq<Call>, c: Call)
    ensures Lifetimes(trace + [c]) == Lifetimes(trace) + if c.OpenCall? || c.CloseCall? then [c] else []
  {
    assert (trace + [c])[..|trace|] == trace;
  }

  lemma {:induction false} NoLifetimes(before: seq<Call>, after: seq<Call>)
    requires NoOpenClose(before, after)
    ensures Lifetimes(after) == Lifetimes(before)
    decreases |after|
  {
    if before != after {
      NoLifetimes(before, after[..|after| - 1]);
    }
  }

  lemma WritePairs(s: Stream, w: Course)
    requires PairsHandles(s) && (s.standby <==> s.compress == 0)
    ensures PairsHandles(WriteSection(s, w))
  {
    hide WriteCompress, NoOpenClose, Lifetimes;
    var u := if s.standby then OpenSection(s) else s;
    LifetimesSnoc(s.trace, OpenCall(s.nextHandle));
    WriteFrame(u, w);
    NoLifetimes(u.trace, WriteCompress(u, w).trace);
  }

  lemma SectionsPair(s: Stream, x: Store)
    requires PairsHandles(s)
    ensures PairsHandles(PauseSection(s)) && PairsHandles(ResumeSection(s)) && PairsHandles(Perform(s, x))
  {
    hide Lifetimes;
    LifetimesSnoc(s.trace, PauseCall(s.compress));
    LifetimesSnoc(s.trace, ResumeCall(s.compress));
    LifetimesSnoc(s.trace, MetadataChange(if x.Values? then x.m else NO_METADATA));
  }

  lemma StopsPair(s: System, step: Step, t: Stream)
    requires PairsHandles(s.st) && (step.StopBegin? || step.StopResume?) && StopsDriver(s, step, t)
    requires t.nextHandle == s.st.nextHandle && (EndsStop(s, step, Standby) ==> t.compress == 0)
    ensures PairsHandles(t)
  {
    hide Lifetimes, EndsStop;
    var h, trace := s.st.compress, s.st.trace;
    var stopped := if step.StopBegin? && h != 0 then trace + [StopCall(h)] else trace;
    LifetimesSnoc(trace, StopCall(h));
    LifetimesSnoc(stopped, MetadataChange(NO_METADATA));
    LifetimesSnoc(stopped + [MetadataChange(NO_METADATA)], CloseCall(h));
    assert trace + [] == trace && stopped + [MetadataChange(NO_METADATA)] + [] == stopped + [MetadataChange(NO_METADATA)];
  }

  lemma StopsKeepNext(s: System, step: Step)
    requires HandleInv(s) && Enabled(s, step) && (step.StopBegin? || step.StopResume?)
    ensures Effect(s, step).st.nextHandle == s.st.nextHandle
    ensures EndsStop(s, step, Standby) ==> Effect(s, step).st.compress == 0
  {
  }

  lemma OthersKeepNext(s: System, step: Step)
    requires Enabled(s, step)
    ensures step.Write? || step.Pause? || step.Resume? || step.Change? || step.StopBegin? || step.StopResume?
      || Effect(s, step).st.nextHandle == s.st.nextHandle
  {
    hide WriteSection, PauseSection, ResumeSection, Perform;
  }

  lemma EffectPairs(s: System, step: Step)
    requires HandleInv(s) && PairsHandles(s.st) && Enabled(s, step)
    ensures PairsHandles(Effect(s, step).st)
  {
    hide Effect, PairsHandles, StopsDriver, WriteSection, PauseSection, ResumeSection, Perform;
    EffectStream(s, step);
    match step
    case Write(w) => WritePairs(s.st, w);
    case Pause => SectionsPair(s.st, Flag);
    case Resume => SectionsPair(s.st, Flag);
    case Change(x) => SectionsPair(s.st, x);
    case StopBegin(t, kind) =>
      EffectStops(s, step);
      StopsKeepNext(s, step);
      StopsPair(s, step, Effect(s, step).st);
    case StopResume(t) =>
      EffectStops(s, step);
      StopsKeepNext(s, step);
      StopsPair(s, step, Effect(s, step).st);
    case _ =>
      OthersKeepNext(s, step);
      SamePairs(s.st, Effect(s, step).st);
  }

  lemma SamePairs(s: Stream, t: Stream)
    requires PairsHandles(s) && t.trace == s.trace && t.compress == s.compress && t.nextHandle == s.nextHandle
    ensures PairsHandles(t)
  {
  }

  /** In every run each handle is opened once and closed before the next one is opened, and none but the last can
      be open. */
  lemma {:induction false} RunPairsHandles(states: seq<System>, steps: seq<Step>, n: nat)
    requires Run(states, steps) && n < |states|
    ensures PairsHandles(states[n].st)
  {
    hide Effect, Signal, HandleInv;
    if n > 0 {
      hide PairsHandles;
      RunPairsHandles(states, steps, n - 1);
      RunKeepsHandle(states, steps, n - 1);
      assert StepTo(states[n - 1], steps[n - 1], states[n]);
      EffectPairs(states[n - 1], steps[n - 1]);
      StepFrame(states[n - 1], steps[n - 1], states[n]);
    }
  }

  // ---------------------------------------------------------------- who waits, and for what

  /** The callers that wait after a step: a stop waits if the worker is in the driver, and ends with its wait as
      soon as it finds the worker out of it. */
  function WaitersAfter(s: System, step: Step): set<nat> {
    match step
    case StopBegin(t, _) => if s.worker.InCall? then s.waiters.Keys + {t} else s.waiters.Keys
    case StopResume(t) => if s.worker.InCall? then s.waiters.Keys else s.waiters.Keys - {t}
    case _ => s.waiters.Keys
  }

  lemma EffectWaiters(s: System, step: Step)
    requires HandleInv(s) && Enabled(s, step)
    ensures Effect(s, step).waiters.Keys == WaitersAfter(s, step)
    ensures forall t :: t in Effect(s, step).waiters && t in s.waiters ==> Effect(s, step).waiters[t].kind == s.waiters[t].kind
    ensures step.StopBegin? && step.t in Effect(s, step).waiters ==> Effect(s, step).waiters[step.t].kind == step.kind
  {
    hide WriteSection, PauseSection, ResumeSection, Perform, StopSection, CloseSection;
  }

  /** A stop waits exactly while the worker is in a driver call, and is remembered as what it is. */
  lemma RunWaits(states: seq<System>, steps: seq<Step>, i: nat)
    requires Run(states, steps) && i < |steps|
    ensures var s, step, s' := states[i], steps[i], states[i + 1];
      && s'.waiters.Keys == WaitersAfter(s, step)
      && (forall t :: t in s.waiters && t in s'.waiters ==> s'.waiters[t].kind == s.waiters[t].kind)
      && (step.StopBegin? && step.t in s'.waiters ==> s'.waiters[step.t].kind == step.kind)
  {
    hide Effect, Signal, HandleInv;
    assert StepTo(states[i], steps[i], states[i + 1]);
    RunKeepsHandle(states, steps, i);
    StepFrame(states[i], steps[i], states[i + 1]);
    EffectWaiters(states[i], steps[i]);
  }

  // ---------------------------------------------------------------- every command can be served

  predicate IsWorkers(step: Step) {
    step.WorkerStart? || step.WorkerWake? || step.WorkerTake? || step.WorkerFinish?
  }

  /** The worker runs and has not slept through a command. */
  predicate Attends(s: System) {
    s.worker != Exited && (s.worker == Asleep(false) ==> s.st.cmds == [])
  }

  /** The worker has something to do and has not slept through it. */
  predicate CanWork(s: System) {
    (s.st.cmds != [] || s.worker.InCall?) && s.worker != Exited && s.worker != Asleep(false)
  }

  /** How far the worker is from taking the next command. */
  function Turn(w: Worker): nat {
    if w.InCall? then 2 else if w == Ready then 0 else 1
  }

  lemma SomebodySignaled(s: System) returns (s': System)
    ensures Signal(s, s')
  {
    if s.worker == Asleep(false) {
      s' := s.(worker := Asleep(true));
    } else if exists t :: t in s.waiters && !s.waiters[t].signaled {
      var t :| t in s.waiters && !s.waiters[t].signaled;
      s' := s.(waiters := s.waiters[t := s.waiters[t].(signaled := true)]);
    } else {
      s' := s;
    }
  }

  lemma WorkOn(s: System) returns (step: Step, s': System)
    requires CanWork(s)
    ensures StepTo(s, step, s') && IsWorkers(step) && s'.worker != Asleep(false)
    ensures |s'.st.cmds| < |s.st.cmds| || (s'.st.cmds == s.st.cmds && Turn(s'.worker) < Turn(s.worker))
  {
    hide Signal;
    step := if s.worker == Starting then WorkerStart
            else if s.worker.Asleep? then WorkerWake
            else if s.worker.InCall? then WorkerFinish
            else WorkerTake;
    assert Enabled(s, step);
    s' := Effect(s, step);
    if Signals(s, step) {
      s' := SomebodySignaled(Effect(s, step));
      SignalFrame(Effect(s, step), s');
    }
  }

  /** From every state of a run in which the worker runs and has not slept through a command, the worker's own
      steps lead to one where the list is empty and no call is under way. */
  lemma {:induction false} CanServe(states: seq<System>, steps: seq<Step>) returns (states': seq<System>, steps': seq<Step>)
    requires Run(states, steps)
    requires Attends(states[|steps|])
    ensures Run(states', steps') && steps <= steps' && states <= states'
    ensures forall i :: |steps| <= i < |steps'| ==> IsWorkers(steps'[i])
    ensures states'[|steps'|].st.cmds == [] && !states'[|steps'|].worker.InCall?
    decreases |states[|steps|].st.cmds|, Turn(states[|steps|].worker)
  {
    hide StepTo, IsWorkers;
    var s := states[|steps|];
    states', steps' := states, steps;
    if s.st.cmds != [] || s.worker.InCall? {
      var step, s' := WorkOn(s);
      RunSnoc(states, steps, step, s');
      ExitEmpties(s, step, s');
      if s'.worker != Exited {
        states', steps' := CanServe(states + [s'], steps + [step]);
        assert steps'[|steps|] == step;
      } else {
        states', steps' := states + [s'], steps + [step];
      }
    }
  }

  lemma ExitEmpties(s: System, step: Step, s': System)
    requires StepTo(s, step, s') && s.worker != Exited
    ensures s'.worker == Exited ==> s'.st.cmds == []
  {
    hide Effect, Signal;
    StepFrame(s, step, s');
    EffectExits(s, step);
  }

  lemma EffectExits(s: System, step: Step)
    requires Enabled(s, step) && s.worker != Exited
    ensures Effect(s, step).worker == Exited ==> Effect(s, step).st.cmds == []
  {
    hide WriteSection, PauseSection, ResumeSection, Perform, StopSection, CloseSection;
  }
}
