/** The worker thread and any number of API callers around one offload stream. */
module OffloadProtocol {
  import opened OffloadStream

  /** Starting: created, but not yet past its initialisation. Ready: about to look at the list, with the lock.
      Asleep: in pthread_cond_wait. InCall: inside a driver call on handle h, with the lock released. */
  datatype Worker = Starting | Ready | Asleep(signaled: bool) | InCall(cmd: Cmd, h: nat) | Exited

  /** A caller inside the wait of audio_stop_compress_output, and what it will do after it. */
  datatype Waiter = Waiter(kind: StopKind, signaled: bool)
  datatype StopKind = Flush | Standby | Destroy

  datatype Event = WriteReady | DrainReady
  datatype Outcome = Dropped | Finished(callback: bool) | Exiting
  datatype Done = Done(cmd: Cmd, outcome: Outcome)

  datatype System = System(
    st: Stream, callback: bool, worker: Worker, waiters: map<nat, Waiter>,
    done: seq<Done>, discarded: seq<Cmd>, events: seq<Event>)

  const START := System(OPENED, false, Starting, map[], [], [], [])

  /** pthread_cond_signal on the one condition variable: some sleeping thread is woken, if there is one. */
  ghost predicate Signal(s: System, s': System) {
    || (s.worker == Asleep(false) && s' == s.(worker := Asleep(true)))
    || (exists t :: t in s.waiters && !s.waiters[t].signaled
                 && s' == s.(waiters := s.waiters[t := s.waiters[t].(signaled := true)]))
    || (s.worker != Asleep(false) && (forall t :: t in s.waiters ==> s.waiters[t].signaled) && s' == s)
  }

  datatype Step =
    | Write(w: Course)
    | Pause
    | Resume
    | SendDrain(early: bool)
    | SetCallback(on: bool)
    | Change(x: Store)
    | StopBegin(t: nat, kind: StopKind)
    | StopResume(t: nat)
    | SpuriousWake(t: nat)
    | WorkerStart
    | WorkerSleep
    | WorkerWake
    | WorkerSpurious
    | WorkerTake
    | WorkerFinish

  function EventOf(c: Cmd): Event {
    if c == WaitForBuffer then WriteReady else DrainReady
  }

  /** What a stopping caller does once the worker is out of the driver. */
  function AfterWait(s: System, kind: StopKind): System {
    match kind
    case Flush => s
    case Standby => s.(st := CloseSection(s.st))
    case Destroy => s.(st := SendCmd(s.st, Exit))
  }

  /** Whether a stopping caller has to wait for the worker. */
  predicate MustWait(s: System) {
    s.st.compress != 0 && s.st.blocked
  }

  predicate Enabled(s: System, step: Step) {
    match step
    case StopBegin(t, kind) => t !in s.waiters
    case StopResume(t) => t in s.waiters && s.waiters[t].signaled
    case SpuriousWake(t) => t in s.waiters
    case WorkerStart => s.worker == Starting
    case WorkerSleep => s.worker == Ready && s.st.cmds == []
    case WorkerWake => s.worker == Asleep(true)
    case WorkerSpurious => s.worker.Asleep?
    case WorkerTake => s.worker == Ready && s.st.cmds != []
    case WorkerFinish => s.worker.InCall?
    case _ => true
  }

  /** The effect of a step, apart from waking a sleeper. */
  function Effect(s: System, step: Step): System
    requires Enabled(s, step)
  {
    match step
    case Write(w) => s.(st := WriteSection(s.st, w))
    case Pause => s.(st := PauseSection(s.st))
    case Resume => s.(st := ResumeSection(s.st))
    case SendDrain(early) => s.(st := SendCmd(s.st, if early then PartialDrain else Drain))
    case SetCallback(on) => s.(callback := on)
    case Change(x) => s.(st := Perform(s.st, x))
    case StopBegin(t, kind) =>
      var u := s.(st := StopSection(s.st));
      if MustWait(s) then u.(waiters := u.waiters[t := Waiter(kind, false)]) else AfterWait(u, kind)
    case StopResume(t) =>
      if s.st.blocked then s.(waiters := s.waiters[t := s.waiters[t].(signaled := false)])
      else AfterWait(s.(waiters := s.waiters - {t}), s.waiters[t].kind)
    case SpuriousWake(t) => s.(waiters := s.waiters[t := s.waiters[t].(signaled := true)])
    case WorkerStart => s.(st := s.st.(state := Stopped, started := false), worker := Ready)
    case WorkerSleep => s.(worker := Asleep(false))
    case WorkerWake => s.(worker := Ready)
    case WorkerSpurious => s.(worker := Asleep(true))
    case WorkerTake =>
      var c, rest := s.st.cmds[0], s.st.cmds[1..];
      if c == Exit then
        s.(st := s.st.(cmds := []), worker := Exited, done := s.done + [Done(c, Exiting)], discarded := rest)
      else if s.st.compress == 0 then
        s.(st := s.st.(cmds := rest), done := s.done + [Done(c, Dropped)])
      else
        s.(st := s.st.(cmds := rest, blocked := true), worker := InCall(c, s.st.compress))
    case WorkerFinish =>
      var c := s.worker.cmd;
      s.(st := s.st.(blocked := false), worker := Ready,
         done := s.done + [Done(c, Finished(s.callback))],
         events := if s.callback then s.events + [EventOf(c)] else s.events)
  }

  /** Whether the step ends with a signal. */
  predicate Signals(s: System, step: Step)
    requires Enabled(s, step)
  {
    match step
    case Write(w) => |Effect(s, step).st.cmds| > |s.st.cmds|
    case SendDrain(early) => true
    case StopBegin(t, kind) => !MustWait(s) && kind == Destroy
    case StopResume(t) => !s.st.blocked && s.waiters[t].kind == Destroy
    case WorkerTake => s.st.cmds[0] == Exit || s.st.compress == 0
    case WorkerFinish => true
    case _ => false
  }

  /** One critical section, or one step between two. */
  ghost predicate StepTo(s: System, step: Step, s': System) {
    Enabled(s, step) && if Signals(s, step) then Signal(Effect(s, step), s') else s' == Effect(s, step)
  }

  /** A run of any length: states[i] steps to states[i + 1] by steps[i]. */
  ghost predicate Run(states: seq<System>, steps: seq<Step>) {
    && |states| == |steps| + 1
    && states[0] == START
    && forall i :: 0 <= i < |steps| ==> StepTo(states[i], steps[i], states[i + 1])
  }

  // ---------------------------------------------------------------- lifetime of the driver handle

  ghost predicate HandleInv(s: System) {
    && (s.st.blocked <==> s.worker.InCall?)
    && (s.worker.InCall? ==> s.worker.h == s.st.compress && s.st.compress != 0)
    && (s.st.standby <==> s.st.compress == 0)
    && s.st.compress < s.st.nextHandle
  }

  /** Waking a sleeper changes nothing but who sleeps. */
  lemma SignalFrame(s: System, s': System)
    requires Signal(s, s')
    ensures s'.st == s.st && s'.callback == s.callback && s'.done == s.done
    ensures s'.discarded == s.discarded && s'.events == s.events
    ensures s'.waiters.Keys == s.waiters.Keys
    ensures forall t :: t in s.waiters ==> s'.waiters[t].kind == s.waiters[t].kind
    ensures s'.worker == s.worker || (s.worker == Asleep(false) && s'.worker == Asleep(true))
  {
  }

  lemma StepFrame(s: System, step: Step, s': System)
    requires StepTo(s, step, s')
    ensures var e := Effect(s, step);
      && s'.st == e.st && s'.callback == e.callback && s'.done == e.done
      && s'.discarded == e.discarded && s'.events == e.events
      && s'.waiters.Keys == e.waiters.Keys
      && (forall t :: t in e.waiters ==> s'.waiters[t].kind == e.waiters[t].kind)
      && (s'.worker == e.worker || (e.worker == Asleep(false) && s'.worker == Asleep(true)))
  {
    hide Effect, Signal;
    if Signals(s, step) {
      SignalFrame(Effect(s, step), s');
    }
  }

  /** No step opens or closes the driver while the worker is in a call. */
  ghost predicate NoOpenClose(before: seq<Call>, after: seq<Call>) {
    before <= after && forall i :: |before| <= i < |after| ==> !after[i].OpenCall? && !after[i].CloseCall?
  }

  lemma NoOpenCloseTrans(a: seq<Call>, b: seq<Call>, c: seq<Call>)
    requires NoOpenClose(a, b) && NoOpenClose(b, c)
    ensures NoOpenClose(a, c)
  {
  }

  /** What no store and no announcement touches. */
  predicate SameOtherwise(s: Stream, t: Stream) {
    t == s.(trace := t.trace, mdata := t.mdata, needMetadata := t.needMetadata, changed := t.changed)
  }

  lemma {:induction false} PerformFrame(s: Stream, xs: seq<Store>)
    ensures SameOtherwise(s, PerformAll(s, xs)) && NoOpenClose(s.trace, PerformAll(s, xs).trace)
    decreases |xs|
  {
    if xs != [] {
      var t := Perform(s, xs[0]);
      PerformFrame(t, xs[1..]);
      NoOpenCloseTrans(s.trace, t.trace, PerformAll(t, xs[1..]).trace);
    }
  }

  lemma SendFrame(s: Stream, short: bool, ready: bool)
    ensures var t := SendData(s, short, ready);
      && NoOpenClose(s.trace, t.trace)
      && t.compress == s.compress && t.nextHandle == s.nextHandle && t.standby == s.standby && t.blocked == s.blocked
      && t.cmds == s.cmds + (if short then [WaitForBuffer] else [])
      && t.sendLog == s.sendLog + (if short then [WaitForBuffer] else [])
      && t.started == (s.started || ready)
      && t.state == (if !s.started && ready then Playing else s.state)
      && (t.started && !s.started ==> t.trace != [] && t.trace[|t.trace| - 1] == StartCall(t.compress))
  {
  }

  /** What a write on an open driver does apart from the metadata. */
  lemma WriteFrame(s: Stream, w: Course)
    ensures var t := WriteCompress(s, w);
      && NoOpenClose(s.trace, t.trace)
      && t.compress == s.compress && t.nextHandle == s.nextHandle && t.standby == s.standby && t.blocked == s.blocked
      && t.cmds == s.cmds + (if w.short then [WaitForBuffer] else [])
      && t.sendLog == s.sendLog + (if w.short then [WaitForBuffer] else [])
      && t.started == (s.started || w.ready)
      && t.state == (if !s.started && w.ready then Playing else s.state)
      && (t.started && !s.started ==> t.trace != [] && t.trace[|t.trace| - 1] == StartCall(t.compress))
  {
    hide PerformAll, SendData, NoOpenClose;
    var a := Announce(s);
    AnnounceTrace(s);
    var b := PerformAll(a, w.early);
    PerformFrame(a, w.early);
    var b1 := if s.needMetadata then b.(needMetadata := false) else b;
    var c := PerformAll(b1, w.late);
    PerformFrame(b1, w.late);
    SendFrame(c, w.short, w.ready);
    NoOpenCloseTrans(s.trace, a.trace, b.trace);
    NoOpenCloseTrans(s.trace, b.trace, c.trace);
    NoOpenCloseTrans(s.trace, c.trace, SendData(c, w.short, w.ready).trace);
  }

  lemma AnnounceTrace(s: Stream)
    ensures NoOpenClose(s.trace, Announce(s).trace)
  {
  }

  lemma WriteSectionFacts(s: Stream, w: Course)
    ensures var s' := WriteSection(s, w);
      && s'.blocked == s.blocked && s'.nextHandle >= s.nextHandle
      && (if s.standby && w.opens then s'.compress == s.nextHandle && !s'.standby && s'.nextHandle == s.nextHandle + 1
          else s'.compress == s.compress && s'.standby == s.standby)
  {
    hide WriteCompress;
    WriteFrame(if s.standby then OpenSection(s) else s, w);
  }

  lemma EffectKeepsHandle(s: System, step: Step)
    requires HandleInv(s) && Enabled(s, step)
    ensures HandleInv(Effect(s, step))
    ensures s.worker.InCall? && Effect(s, step).worker == s.worker ==> Effect(s, step).st.compress == s.st.compress
  {
    hide WriteSection, PauseSection, ResumeSection, Perform, StopSection, AfterWait;
    match step
    case Write(w) => WriteSectionFacts(s.st, w);
    case Pause => PauseHandle(s.st);
    case Resume => ResumeHandle(s.st);
    case Change(x) => PerformHandle(s.st, x);
    case StopBegin(t, kind) => StopBeginHandle(s, t, kind);
    case StopResume(t) => StopResumeHandle(s, t);
    case _ =>
  }

  lemma StopBeginHandle(s: System, t: nat, kind: StopKind)
    requires HandleInv(s) && Enabled(s, StopBegin(t, kind))
    ensures var e := Effect(s, StopBegin(t, kind));
      HandleInv(e) && e.worker == s.worker && (s.worker.InCall? ==> e.st.compress == s.st.compress)
  {
  }

  lemma StopResumeHandle(s: System, t: nat)
    requires HandleInv(s) && Enabled(s, StopResume(t))
    ensures var e := Effect(s, StopResume(t));
      HandleInv(e) && e.worker == s.worker && (s.worker.InCall? ==> e.st.compress == s.st.compress)
  {
  }

  predicate SameHandle(s: Stream, t: Stream) {
    t.compress == s.compress && t.standby == s.standby && t.blocked == s.blocked && t.nextHandle == s.nextHandle
  }

  lemma PauseHandle(s: Stream)
    ensures SameHandle(s, PauseSection(s))
  {
  }

  lemma ResumeHandle(s: Stream)
    ensures SameHandle(s, ResumeSection(s))
  {
  }

  lemma PerformHandle(s: Stream, x: Store)
    ensures SameHandle(s, Perform(s, x))
  {
  }

  lemma EffectTrace(s: System, step: Step)
    requires HandleInv(s) && Enabled(s, step) && s.worker.InCall?
    ensures NoOpenClose(s.st.trace, Effect(s, step).st.trace)
  {
    match step
    case Write(w) =>
      hide WriteCompress;
      WriteFrame(s.st, w);
    case _ =>
  }

  /** In every interleaving: while the worker is in a driver call the blocked flag is set, the handle it
      uses is the stream's handle, and no step opens, closes or replaces it. */
  lemma StepKeepsHandle(s: System, step: Step, s': System)
    requires HandleInv(s) && StepTo(s, step, s')
    ensures HandleInv(s')
    ensures s.worker.InCall? && s'.worker == s.worker ==> s'.st.compress == s.st.compress
    ensures s.worker.InCall? ==> NoOpenClose(s.st.trace, s'.st.trace)
  {
    hide Signal, Effect, NoOpenClose;
    StepFrame(s, step, s');
    EffectKeepsHandle(s, step);
    if s.worker.InCall? {
      EffectTrace(s, step);
    }
  }

  lemma {:induction false} RunKeepsHandle(states: seq<System>, steps: seq<Step>, i: nat)
    requires Run(states, steps) && i < |states|
    ensures HandleInv(states[i])
    ensures i > 0 && states[i - 1].worker.InCall? ==> NoOpenClose(states[i - 1].st.trace, states[i].st.trace)
  {
    hide NoOpenClose;
    if i > 0 {
      RunKeepsHandle(states, steps, i - 1);
      StepKeepsHandle(states[i - 1], steps[i - 1], states[i]);
    }
  }

  // ---------------------------------------------------------------- command and callback logs

  function Commands(done: seq<Done>): (r: seq<Cmd>)
    ensures |r| == |done|
  {
    seq(|done|, i requires 0 <= i < |done| => done[i].cmd)
  }

  function InProgress(s: System): seq<Cmd> {
    if s.worker.InCall? then [s.worker.cmd] else []
  }

  /** The callbacks that a log of finished commands calls for. */
  function Image(done: seq<Done>): seq<Event> {
    if done == [] then []
    else
      var d := done[|done| - 1];
      Image(done[..|done| - 1]) + if d.outcome == Finished(true) then [EventOf(d.cmd)] else []
  }

  ghost predicate LogInv(s: System) {
    && s.st.sendLog == Commands(s.done) + InProgress(s) + s.discarded + s.st.cmds
    && s.events == Image(s.done)
    && (s.discarded != [] ==> s.worker == Exited)
    && (forall i :: 0 <= i < |s.done| ==> (s.done[i].outcome == Exiting <==> s.done[i].cmd == Exit))
    && ((exists i :: 0 <= i < |s.done| && s.done[i].outcome == Exiting) ==> s.worker == Exited)
    && (s.worker.InCall? ==> s.worker.cmd != Exit)
  }

  predicate Appends(s: Stream, sent: seq<Cmd>, t: Stream) {
    t.cmds == s.cmds + sent && t.sendLog == s.sendLog + sent
  }

  lemma WriteSends(s: Stream, w: Course)
    ensures Appends(s, if (s.standby && !w.opens) || !w.short then [] else [WaitForBuffer], WriteSection(s, w))
  {
    hide WriteCompress;
    WriteFrame(if s.standby then OpenSection(s) else s, w);
  }

  lemma SectionsSend(s: Stream, c: Cmd, x: Store)
    ensures Appends(s, [], PauseSection(s)) && Appends(s, [], ResumeSection(s)) && Appends(s, [], Perform(s, x))
    ensures Appends(s, [c], SendCmd(s, c)) && Appends(s, [], s)
  {
  }

  lemma StopSends(s: Stream)
    ensures Appends(s, [], StopSection(s))
  {
  }

  lemma AfterWaitSends(s: System, kind: StopKind)
    ensures Appends(s.st, if kind == Destroy then [Exit] else [], AfterWait(s, kind).st)
  {
  }

  /** The commands a step of a caller sends. */
  function SentBy(s: System, step: Step): seq<Cmd>
    requires Enabled(s, step)
  {
    match step
    case Write(w) => if (s.st.standby && !w.opens) || !w.short then [] else [WaitForBuffer]
    case SendDrain(early) => [if early then PartialDrain else Drain]
    case StopBegin(t, kind) => if !MustWait(s) && kind == Destroy then [Exit] else []
    case StopResume(t) => if !s.st.blocked && s.waiters[t].kind == Destroy then [Exit] else []
    case _ => []
  }

  /** Sending appends the same commands to the list and to the log of sends. */
  lemma SectionsOnlyAppend(s: System, step: Step)
    requires Enabled(s, step) && step != WorkerTake
    ensures Appends(s.st, SentBy(s, step), Effect(s, step).st)
  {
    hide Appends, WriteSection, PauseSection, ResumeSection, Perform, StopSection, AfterWait, SendCmd;
    SectionsSend(s.st, if step.SendDrain? && step.early then PartialDrain else Drain, if step.Change? then step.x else Flag);
    match step
    case Write(w) => WriteSends(s.st, w);
    case StopBegin(t, kind) =>
      StopSends(s.st);
      var u := s.(st := StopSection(s.st));
      AfterWaitSends(u, kind);
      AppendsTrans(s.st, u.st, SentBy(s, step), AfterWait(u, kind).st);
    case StopResume(t) => AfterWaitSends(s.(waiters := s.waiters - {t}), s.waiters[t].kind);
    case WorkerFinish => SameCommands(s.st, Effect(s, step).st);
    case WorkerStart => SameCommands(s.st, Effect(s, step).st);
    case _ =>
  }

  lemma AppendsTrans(s: Stream, u: Stream, sent: seq<Cmd>, t: Stream)
    requires Appends(s, [], u)
    ensures Appends(u, sent, t) ==> Appends(s, sent, t)
  {
  }

  lemma SameCommands(s: Stream, t: Stream)
    requires s.cmds == t.cmds && s.sendLog == t.sendLog
    ensures Appends(s, [], t)
  {
  }

  lemma DoneSnoc(done: seq<Done>, d: Done)
    ensures Commands(done + [d]) == Commands(done) + [d.cmd]
    ensures Image(done + [d]) == Image(done) + if d.outcome == Finished(true) then [EventOf(d.cmd)] else []
  {
    assert (done + [d])[..|done|] == done;
  }

  lemma RetireKeepsLog(s: System, e: System, d: Done)
    requires LogInv(s) && s.worker == Ready && s.st.cmds != [] && d.cmd == s.st.cmds[0] && !d.outcome.Finished?
    requires d.outcome == Exiting <==> d.cmd == Exit
    requires e.done == s.done + [d] && e.events == s.events && e.st.sendLog == s.st.sendLog
    requires if d.cmd == Exit then e.worker == Exited && e.discarded == s.st.cmds[1..] && e.st.cmds == []
             else e.worker == Ready && e.discarded == s.discarded && e.st.cmds == s.st.cmds[1..]
    ensures LogInv(e)
  {
    hide Commands, Image;
    DoneSnoc(s.done, d);
    assert forall i :: 0 <= i < |s.done| ==> e.done[i] == s.done[i];
    assert s.st.cmds == [d.cmd] + s.st.cmds[1..];
  }

  lemma TakeKeepsLog(s: System)
    requires LogInv(s) && Enabled(s, WorkerTake)
    ensures LogInv(Effect(s, WorkerTake))
  {
    hide Commands, Image, LogInv;
    var c, e := s.st.cmds[0], Effect(s, WorkerTake);
    if c == Exit || s.st.compress == 0 {
      RetireKeepsLog(s, e, Done(c, if c == Exit then Exiting else Dropped));
    } else {
      EnterKeepsLog(s, e);
    }
  }

  lemma EnterKeepsLog(s: System, e: System)
    requires LogInv(s) && s.worker == Ready && s.st.cmds != [] && s.st.cmds[0] != Exit
    requires e.worker.InCall? && e.worker.cmd == s.st.cmds[0] && e.st.cmds == s.st.cmds[1..] && e.st.sendLog == s.st.sendLog
    requires e.done == s.done && e.events == s.events && e.discarded == s.discarded
    ensures LogInv(e)
  {
    hide Commands, Image;
    assert s.st.cmds == [s.st.cmds[0]] + s.st.cmds[1..];
  }

  lemma FinishKeepsLog(s: System)
    requires LogInv(s) && Enabled(s, WorkerFinish)
    ensures LogInv(Effect(s, WorkerFinish))
  {
    hide Commands, Image;
    var d := Done(s.worker.cmd, Finished(s.callback));
    DoneSnoc(s.done, d);
    assert forall i :: 0 <= i < |s.done| ==> (s.done + [d])[i] == s.done[i];
  }

  lemma OthersFrame(s: System, step: Step)
    requires Enabled(s, step) && step != WorkerTake && step != WorkerFinish
    ensures var e := Effect(s, step);
      && e.done == s.done && e.discarded == s.discarded && e.events == s.events
      && (e.worker.InCall? || s.worker.InCall? || s.worker == Exited ==> e.worker == s.worker)
  {
  }

  lemma OthersKeepLog(s: System, step: Step)
    requires LogInv(s) && Enabled(s, step) && step != WorkerTake && step != WorkerFinish
    ensures LogInv(Effect(s, step))
  {
    hide Commands, Image, Effect;
    var e := Effect(s, step);
    OthersFrame(s, step);
    SectionsOnlyAppend(s, step);
    var sent := SentBy(s, step);
    assert e.st.sendLog == Commands(s.done) + InProgress(s) + s.discarded + (s.st.cmds + sent);
  }

  /** Commands are taken first in, first out, and the log of sends is accounted for without gap or
      repetition: finished, dropped, in progress, discarded at exit, still in the list, in that order. */
  lemma StepKeepsLog(s: System, step: Step, s': System)
    requires LogInv(s) && StepTo(s, step, s')
    ensures LogInv(s')
  {
    hide Commands, Image, Effect, Signal;
    StepFrame(s, step, s');
    if step == WorkerTake {
      TakeKeepsLog(s);
    } else if step == WorkerFinish {
      FinishKeepsLog(s);
    } else {
      OthersKeepLog(s, step);
    }
  }

  lemma {:induction false} RunKeepsLog(states: seq<System>, steps: seq<Step>, i: nat)
    requires Run(states, steps) && i < |states|
    ensures LogInv(states[i])
  {
    if i > 0 {
      RunKeepsLog(states, steps, i - 1);
      StepKeepsLog(states[i - 1], steps[i - 1], states[i]);
    }
  }

  // ---------------------------------------------------------------- playback state

  /** STOPED means not started. */
  ghost predicate PlayInv(s: Stream) {
    s.state == Stopped <==> !s.started
  }

  /** How a step may move the playback state. */
  ghost predicate PlayMove(s: Stream, step: Step, t: Stream) {
    && (t.state == Paused && s.state != Paused ==> s.state == Playing && step == Step.Pause)
    && (t.state == Playing && s.state != Playing ==> if s.state == Paused then step == Step.Resume else step.Write?)
    && (t.state == Stopped && s.state != Stopped ==> step.StopBegin? || step.WorkerStart?)
    && (t.started && !s.started ==> t.trace != [] && t.trace[|t.trace| - 1] == StartCall(t.compress))
  }

  lemma WritePlays(s: Stream, w: Course)
    requires PlayInv(s)
    ensures PlayInv(WriteSection(s, w)) && PlayMove(s, Write(w), WriteSection(s, w))
  {
    hide WriteCompress;
    WriteFrame(if s.standby then OpenSection(s) else s, w);
  }

  lemma EffectKeepsPlay(s: System, step: Step)
    requires PlayInv(s.st) && Enabled(s, step)
    ensures PlayInv(Effect(s, step).st) && PlayMove(s.st, step, Effect(s, step).st)
  {
    hide WriteSection, StopSection, CloseSection, PlayInv, PlayMove, Perform, SendCmd, PauseSection, ResumeSection;
    match step
    case Write(w) => WritePlays(s.st, w);
    case Pause => PausePlays(s.st);
    case Resume => PausePlays(s.st);
    case StopBegin(t, kind) => StopPlays(s.st, step);
    case WorkerStart => RestartPlays(s.st);
    case Change(x) => QuietPlays(s.st, step, Effect(s, step).st, x);
    case _ => QuietPlays(s.st, step, Effect(s, step).st, Flag);
  }

  lemma PausePlays(s: Stream)
    requires PlayInv(s)
    ensures PlayInv(PauseSection(s)) && PlayMove(s, Step.Pause, PauseSection(s))
    ensures PlayInv(ResumeSection(s)) && PlayMove(s, Step.Resume, ResumeSection(s))
  {
  }

  lemma StopPlays(s: Stream, step: Step)
    requires PlayInv(s) && step.StopBegin?
    ensures var t := StopSection(s);
      && PlayInv(t) && PlayMove(s, step, t)
      && PlayInv(CloseSection(t)) && PlayMove(s, step, CloseSection(t))
      && PlayInv(SendCmd(t, Exit)) && PlayMove(s, step, SendCmd(t, Exit))
  {
  }

  lemma RestartPlays(s: Stream)
    ensures var t := s.(state := Stopped, started := false); PlayInv(t) && PlayMove(s, WorkerStart, t)
  {
  }

  /** Sections that leave the playback state alone. */
  lemma QuietPlays(s: Stream, step: Step, t: Stream, x: Store)
    requires PlayInv(s)
    requires t == Perform(s, x) || t == CloseSection(s) || (exists c :: t == SendCmd(s, c))
          || (t.state == s.state && t.started == s.started)
    ensures PlayInv(t) && PlayMove(s, step, t)
  {
  }

  /** STOPED means not started, PAUSED is entered only from PLAYING, in every interleaving. */
  lemma StepKeepsPlay(s: System, step: Step, s': System)
    requires PlayInv(s.st) && StepTo(s, step, s')
    ensures PlayInv(s'.st) && PlayMove(s.st, step, s'.st)
  {
    hide Signal, Effect, PlayInv, PlayMove;
    StepFrame(s, step, s');
    EffectKeepsPlay(s, step);
  }

  lemma {:induction false} RunKeepsPlay(states: seq<System>, steps: seq<Step>, i: nat)
    requires Run(states, steps) && i < |states|
    ensures PlayInv(states[i].st)
    ensures i > 0 ==> PlayMove(states[i - 1].st, steps[i - 1], states[i].st)
  {
    hide PlayMove, StepTo;
    if i > 0 {
      RunKeepsPlay(states, steps, i - 1);
      StepKeepsPlay(states[i - 1], steps[i - 1], states[i]);
    }
  }

  // ---------------------------------------------------------------- metadata before every write

  /** The values the driver should have been told. */
  function CurrentMetadata(trace: seq<Call>): Metadata {
    if trace == [] then NO_METADATA
    else
      match trace[|trace| - 1]
      case MetadataChange(m) => m
      case _ => CurrentMetadata(trace[..|trace| - 1])
  }

  datatype Told = Nothing | Told(h: nat, m: Metadata)

  /** What the driver was told last, since the last open, stop, close or change of the values. */
  function LastTold(trace: seq<Call>): Told {
    if trace == [] then Nothing
    else
      match trace[|trace| - 1]
      case MetadataCall(h, m) => Told.Told(h, m)
      case OpenCall(_) => Nothing
      case StopCall(_) => Nothing
      case CloseCall(_) => Nothing
      case MetadataChange(_) => Nothing
      case _ => LastTold(trace[..|trace| - 1])
  }

  /** Every write in the trace finds the driver told the current values on the same handle. */
  ghost predicate WritesJustified(trace: seq<Call>) {
    forall i :: 0 <= i < |trace| && trace[i].WriteCall? ==>
      LastTold(trace[..i]) == Told.Told(trace[i].h, CurrentMetadata(trace[..i]))
  }

  /** An open driver has been told the current values unless the flag says it still has to be, or they have
      changed since; then the last announcement is void. */
  ghost predicate StreamTold(s: Stream) {
    && CurrentMetadata(s.trace) == s.mdata
    && (s.changed ==> LastTold(s.trace) == Nothing)
    && (!s.standby && !s.needMetadata && !s.changed ==> LastTold(s.trace) == Told.Told(s.compress, s.mdata))
  }

  /** One more call keeps every write announced exactly if it is announced itself. */
  lemma TraceSnoc(trace: seq<Call>, c: Call)
    ensures WritesJustified(trace + [c])
       <==> WritesJustified(trace) && (c.WriteCall? ==> LastTold(trace) == Told.Told(c.h, CurrentMetadata(trace)))
    ensures CurrentMetadata(trace + [c]) == if c.MetadataChange? then c.m else CurrentMetadata(trace)
    ensures LastTold(trace + [c]) ==
      match c {
        case MetadataCall(h, m) => Told.Told(h, m)
        case WriteCall(_) => LastTold(trace)
        case StartCall(_) => LastTold(trace)
        case PauseCall(_) => LastTold(trace)
        case ResumeCall(_) => LastTold(trace)
        case _ => Nothing
      }
  {
    var all := trace + [c];
    assert all[..|trace|] == trace && all[|trace|] == c;
    forall i | 0 <= i < |trace|
      ensures all[i] == trace[i] && all[..i] == trace[..i]
    {
    }
  }

  /** What a section does to the announcement of writes: nothing. */
  ghost predicate StaysTold(s: Stream, t: Stream) {
    (StreamTold(s) ==> StreamTold(t)) && (WritesJustified(t.trace) <==> WritesJustified(s.trace))
  }

  /** Some of the stores change the values, or set the flag. */
  predicate HasValues(xs: seq<Store>) {
    exists i :: 0 <= i < |xs| && xs[i].Values?
  }

  predicate HasFlag(xs: seq<Store>) {
    Flag in xs
  }

  lemma {:induction false} PerformTold(s: Stream, xs: seq<Store>)
    requires CurrentMetadata(s.trace) == s.mdata
    ensures var t := PerformAll(s, xs);
      && CurrentMetadata(t.trace) == t.mdata
      && LastTold(t.trace) == (if HasValues(xs) then Nothing else LastTold(s.trace))
      && (!HasValues(xs) ==> t.mdata == s.mdata)
      && t.changed == (s.changed || HasValues(xs)) && t.needMetadata == (s.needMetadata || HasFlag(xs))
      && (WritesJustified(t.trace) <==> WritesJustified(s.trace))
    decreases |xs|
  {
    hide CurrentMetadata, LastTold, WritesJustified;
    if xs != [] {
      var t := Perform(s, xs[0]);
      if xs[0].Values? {
        TraceSnoc(s.trace, MetadataChange(xs[0].m));
      }
      PerformTold(t, xs[1..]);
      HasCons(xs);
    }
  }

  lemma HasCons(xs: seq<Store>)
    requires xs != []
    ensures HasValues(xs) <==> xs[0].Values? || HasValues(xs[1..])
    ensures HasFlag(xs) <==> xs[0].Flag? || HasFlag(xs[1..])
  {
    var rest := xs[1..];
    forall i | 1 <= i < |xs|
      ensures xs[i] == rest[i - 1]
    {
    }
    assert rest != [] && HasValues(rest) ==> exists i :: 0 <= i < |rest| && rest[i].Values? && xs[i + 1].Values?;
  }

  /** The write is announced exactly if the last announcement is of the current values on its handle. */
  lemma SendDataTold(s: Stream, short: bool, ready: bool)
    requires CurrentMetadata(s.trace) == s.mdata
    ensures var t := SendData(s, short, ready);
      && t.needMetadata == s.needMetadata && t.changed == s.changed && t.mdata == s.mdata
      && t.compress == s.compress && t.standby == s.standby
      && CurrentMetadata(t.trace) == t.mdata && LastTold(t.trace) == LastTold(s.trace)
      && (WritesJustified(t.trace) <==> WritesJustified(s.trace) && LastTold(s.trace) == Told.Told(s.compress, s.mdata))
  {
    hide CurrentMetadata, LastTold, WritesJustified;
    var b := Record(s, WriteCall(s.compress));
    TraceSnoc(s.trace, WriteCall(s.compress));
    TraceSnoc(b.trace, StartCall(s.compress));
  }

  /** What a write on an open driver does about the metadata. */
  lemma WriteMetadata(s: Stream, w: Course)
    requires CurrentMetadata(s.trace) == s.mdata
    ensures var t := WriteCompress(s, w);
      var values := HasValues(w.early) || HasValues(w.late);
      var told := if values then Nothing else if s.needMetadata then Told.Told(s.compress, s.mdata) else LastTold(s.trace);
      && CurrentMetadata(t.trace) == t.mdata && LastTold(t.trace) == told && (!values ==> t.mdata == s.mdata)
      && t.compress == s.compress && t.standby == s.standby
      && t.changed == (values || (!s.needMetadata && s.changed))
      && t.needMetadata == (HasFlag(w.late) || (!s.needMetadata && HasFlag(w.early)))
      && (WritesJustified(t.trace) <==> WritesJustified(s.trace) && told == Told.Told(s.compress, s.mdata))
  {
    hide CurrentMetadata, LastTold, WritesJustified, PerformAll, SendData, HasValues, HasFlag;
    var a := Announce(s);
    TraceSnoc(s.trace, MetadataCall(s.compress, s.mdata));
    PerformTold(a, w.early);
    PerformFrame(a, w.early);
    var b := PerformAll(a, w.early);
    var b1 := if s.needMetadata then b.(needMetadata := false) else b;
    PerformTold(b1, w.late);
    PerformFrame(b1, w.late);
    SendDataTold(PerformAll(b1, w.late), w.short, w.ready);
  }

  /** The values have changed, and neither has that been announced nor is the flag set for it: between the two
      stores of a change, or after a write that has cleared the flag too late. */
  predicate HalfChanged(s: Stream) {
    s.changed && !s.needMetadata
  }

  /** The write that goes out without the current values: the flag is clear and the driver has to be opened or
      the values have changed, or they change between the test of the flag and the write. */
  predicate Unannounced(s: Stream, w: Course) {
    && !(s.standby && !w.opens)
    && (HasValues(w.early) || HasValues(w.late) || (!s.needMetadata && (s.standby || s.changed)))
  }

  lemma OpenTold(s: Stream)
    requires StreamTold(s)
    ensures var o := OpenSection(s);
      && CurrentMetadata(o.trace) == o.mdata && LastTold(o.trace) == Nothing
      && o.needMetadata == s.needMetadata && o.changed == s.changed && !o.standby
      && (WritesJustified(o.trace) <==> WritesJustified(s.trace))
  {
    hide CurrentMetadata, LastTold, WritesJustified;
    TraceSnoc(s.trace, OpenCall(s.nextHandle));
  }

  lemma WriteTold(s: Stream, w: Course)
    requires StreamTold(s)
    ensures var t := WriteSection(s, w);
      if Unannounced(s, w) then !WritesJustified(t.trace) else StaysTold(s, t)
  {
    hide CurrentMetadata, LastTold, WritesJustified, WriteCompress, HasValues, HasFlag;
    if s.standby {
      OpenTold(s);
      WriteMetadata(OpenSection(s), w);
    } else {
      WriteMetadata(s, w);
    }
  }

  /** Exactly which stores inside a write leave the values half changed, so that the next write goes out
      without them too. */
  lemma ChangeDuringWrite(s: Stream, w: Course)
    requires StreamTold(s) && !s.standby
    ensures HalfChanged(WriteSection(s, w)) <==>
      && (HasValues(w.early) || HasValues(w.late) || HalfChanged(s))
      && !HasFlag(w.late) && (HasFlag(w.early) ==> s.needMetadata)
  {
    hide CurrentMetadata, LastTold, WritesJustified, WriteCompress, HasValues, HasFlag;
    WriteMetadata(s, w);
  }

  lemma StopTold(s: Stream)
    ensures StaysTold(s, StopSection(s)) && StopSection(s).needMetadata
  {
    hide CurrentMetadata, LastTold, WritesJustified;
    TraceSnoc(s.trace, StopCall(s.compress));
  }

  lemma CloseTold(s: Stream)
    ensures StaysTold(s, CloseSection(s)) && StreamTold(CloseSection(s))
  {
    hide CurrentMetadata, LastTold, WritesJustified;
    TraceSnoc(s.trace, MetadataChange(NO_METADATA));
    TraceSnoc(s.trace + [MetadataChange(NO_METADATA)], CloseCall(s.compress));
  }

  lemma PauseTold(s: Stream)
    ensures StaysTold(s, PauseSection(s))
  {
    hide CurrentMetadata, LastTold, WritesJustified;
    TraceSnoc(s.trace, PauseCall(s.compress));
  }

  lemma ResumeTold(s: Stream)
    ensures StaysTold(s, ResumeSection(s))
  {
    hide CurrentMetadata, LastTold, WritesJustified;
    TraceSnoc(s.trace, ResumeCall(s.compress));
  }

  lemma StoreTold(s: Stream, x: Store)
    ensures StaysTold(s, Perform(s, x))
  {
    hide CurrentMetadata, LastTold, WritesJustified;
    if x.Values? {
      TraceSnoc(s.trace, MetadataChange(x.m));
    }
  }

  lemma StaysToldTrans(s: Stream, t: Stream, u: Stream)
    requires StaysTold(s, t)
    ensures StaysTold(t, u) ==> StaysTold(s, u)
  {
  }

  lemma SameTold(s: Stream, t: Stream)
    requires Quiet(s, t)
    ensures StaysTold(s, t)
  {
  }

  lemma AfterWaitTold(s: System, kind: StopKind)
    ensures StaysTold(s.st, AfterWait(s, kind).st)
  {
    hide StaysTold, CloseSection;
    match kind
    case Standby => CloseTold(s.st);
    case Flush => SameTold(s.st, s.st);
    case Destroy => SameTold(s.st, SendCmd(s.st, Exit));
  }

  lemma StopBeginTold(s: System, t: nat, kind: StopKind)
    requires Enabled(s, StopBegin(t, kind))
    ensures StaysTold(s.st, Effect(s, StopBegin(t, kind)).st)
  {
    hide StaysTold, StopSection, AfterWait;
    var u := s.(st := StopSection(s.st));
    StopTold(s.st);
    AfterWaitTold(u, kind);
    StaysToldTrans(s.st, u.st, AfterWait(u, kind).st);
  }

  lemma StopResumeTold(s: System, t: nat)
    requires Enabled(s, StopResume(t))
    ensures StaysTold(s.st, Effect(s, StopResume(t)).st)
  {
    hide StaysTold, AfterWait;
    SameTold(s.st, s.st);
    AfterWaitTold(s.(waiters := s.waiters - {t}), s.waiters[t].kind);
  }

  /** The one step that leaves a write unannounced. */
  predicate WritesUnannounced(s: System, step: Step) {
    step.Write? && Unannounced(s.st, step.w)
  }

  /** What the announcement of writes depends on stays. */
  predicate Quiet(s: Stream, t: Stream) {
    && t.trace == s.trace && t.mdata == s.mdata && t.compress == s.compress
    && t.standby == s.standby && t.needMetadata == s.needMetadata && t.changed == s.changed
  }

  lemma EffectStream(s: System, step: Step)
    requires Enabled(s, step)
    ensures var t := Effect(s, step).st;
      match step
      case Write(w) => t == WriteSection(s.st, w)
      case Change(x) => t == Perform(s.st, x)
      case Pause => t == PauseSection(s.st)
      case Resume => t == ResumeSection(s.st)
      case StopBegin(_, _) => true
      case StopResume(_) => true
      case _ => Quiet(s.st, t)
  {
    hide WriteSection, Perform, PauseSection, ResumeSection, StopSection, AfterWait;
    match step
    case SendDrain(early) =>
    case WorkerTake =>
    case WorkerFinish =>
    case SpuriousWake(t) =>
    case _ =>
  }

  lemma EffectTold(s: System, step: Step)
    requires StreamTold(s.st) && Enabled(s, step)
    ensures if WritesUnannounced(s, step) then !WritesJustified(Effect(s, step).st.trace)
            else StaysTold(s.st, Effect(s, step).st)
  {
    hide StaysTold, StreamTold, WriteSection, Perform, PauseSection, ResumeSection, WritesJustified, Unannounced, Effect;
    EffectStream(s, step);
    match step
    case Write(w) => WriteTold(s.st, w);
    case Change(x) => StoreTold(s.st, x);
    case Pause => PauseTold(s.st);
    case Resume => ResumeTold(s.st);
    case StopBegin(t, kind) => StopBeginTold(s, t, kind);
    case StopResume(t) => StopResumeTold(s, t);
    case _ => SameTold(s.st, Effect(s, step).st);
  }

  /** Every step keeps all writes announced, exactly if it is not itself an unannounced write. */
  lemma StepAnnounces(s: System, step: Step, s': System)
    requires StreamTold(s.st) && WritesJustified(s.st.trace) && StepTo(s, step, s')
    ensures WritesJustified(s'.st.trace) <==> !WritesUnannounced(s, step)
    ensures !WritesUnannounced(s, step) ==> StreamTold(s'.st)
  {
    hide Signal, Effect, WritesJustified, StreamTold, Unannounced;
    StepFrame(s, step, s');
    EffectTold(s, step);
  }

  lemma PrefixJustified(before: seq<Call>, after: seq<Call>)
    requires before <= after && WritesJustified(after)
    ensures WritesJustified(before)
  {
    hide LastTold, CurrentMetadata;
    forall i | 0 <= i < |before| && before[i].WriteCall?
      ensures LastTold(before[..i]) == Told.Told(before[i].h, CurrentMetadata(before[..i]))
    {
      assert before[..i] == after[..i] && after[i] == before[i];
    }
  }

  lemma WriteTraceGrows(s: Stream, w: Course)
    ensures s.trace <= WriteSection(s, w).trace
  {
    hide WriteCompress;
    WriteFrame(if s.standby then OpenSection(s) else s, w);
  }

  lemma StopTraceGrows(s: Stream)
    ensures s.trace <= StopSection(s).trace && s.trace <= CloseSection(s).trace
  {
  }

  lemma StopsTraceGrows(s: System, step: Step)
    requires Enabled(s, step) && (step.StopBegin? || step.StopResume?)
    ensures s.st.trace <= Effect(s, step).st.trace
  {
    hide StopSection, CloseSection;
    StopTraceGrows(s.st);
    StopTraceGrows(StopSection(s.st));
  }

  lemma SectionTraceGrows(s: Stream, x: Store)
    ensures s.trace <= PauseSection(s).trace && s.trace <= ResumeSection(s).trace && s.trace <= Perform(s, x).trace
  {
  }

  lemma TraceGrows(s: System, step: Step, s': System)
    requires StepTo(s, step, s')
    ensures s.st.trace <= s'.st.trace
  {
    hide Signal, Effect, WriteSection, PauseSection, ResumeSection, Perform;
    StepFrame(s, step, s');
    EffectStream(s, step);
    match step
    case Write(w) => WriteTraceGrows(s.st, w);
    case Change(x) => SectionTraceGrows(s.st, x);
    case Pause => SectionTraceGrows(s.st, Flag);
    case Resume => SectionTraceGrows(s.st, Flag);
    case StopBegin(t, kind) => StopsTraceGrows(s, step);
    case StopResume(t) => StopsTraceGrows(s, step);
    case _ =>
  }

  /** In every interleaving, with the two stores of every metadata change at any point between the sections and
      inside the writes: every write finds the driver told the current gapless values on its own handle, since
      the last stop and the last change, exactly if no write has gone out unannounced. */
  lemma {:induction false} RunAnnounces(states: seq<System>, steps: seq<Step>, n: nat)
    requires Run(states, steps) && n < |states|
    ensures WritesJustified(states[n].st.trace) <==> forall k :: 0 <= k < n ==> !WritesUnannounced(states[k], steps[k])
    ensures WritesJustified(states[n].st.trace) ==> StreamTold(states[n].st)
  {
    hide WritesJustified, StreamTold, StepTo, WritesUnannounced;
    if n == 0 {
      NothingWritten();
    } else {
      RunAnnounces(states, steps, n - 1);
      var before, after := states[n - 1], states[n];
      TraceGrows(before, steps[n - 1], after);
      if WritesJustified(before.st.trace) {
        StepAnnounces(before, steps[n - 1], after);
      } else if WritesJustified(after.st.trace) {
        PrefixJustified(before.st.trace, after.st.trace);
      }
    }
  }

  lemma NothingWritten()
    ensures WritesJustified(OPENED.trace) && StreamTold(OPENED)
  {
  }

  // ---------------------------------------------------------------- when that cannot happen

  ghost predicate StandbyWaits(s: System) {
    exists t :: t in s.waiters && s.waiters[t].kind == Standby
  }

  /** A write that overlaps the wait of a standby call, or a metadata change. */
  ghost predicate Overlaps(s: System, step: Step) {
    step.Write? && (StandbyWaits(s) || HalfChanged(s.st) || step.w.early != [] || step.w.late != [])
  }

  /** A stream in standby, or about to be, has its flag set. */
  ghost predicate FlagInv(s: System) {
    && (s.st.standby ==> s.st.needMetadata)
    && (StandbyWaits(s) ==> s.st.needMetadata)
  }

  lemma EffectKeepsFlags(s: System, step: Step)
    requires HandleInv(s) && FlagInv(s) && Enabled(s, step) && !Overlaps(s, step)
    ensures FlagInv(Effect(s, step))
  {
    match step
    case Write(w) =>
      hide WriteSection;
      WriteSectionFacts(s.st, w);
      if s.st.standby && !w.opens {
        NoWrite(s.st, w);
      }
    case _ =>
  }

  lemma NoWrite(s: Stream, w: Course)
    requires s.standby && !w.opens
    ensures WriteSection(s, w) == s
  {
  }

  lemma StepKeepsFlags(s: System, step: Step, s': System)
    requires HandleInv(s) && FlagInv(s) && StepTo(s, step, s') && !Overlaps(s, step)
    ensures FlagInv(s') && !WritesUnannounced(s, step)
  {
    hide Signal, Effect;
    StepFrame(s, step, s');
    EffectKeepsFlags(s, step);
    if StandbyWaits(s') {
      var t :| t in s'.waiters && s'.waiters[t].kind == Standby;
      assert t in Effect(s, step).waiters && Effect(s, step).waiters[t].kind == Standby;
    }
  }

  lemma {:induction false} RunKeepsFlags(states: seq<System>, steps: seq<Step>, i: nat)
    requires Run(states, steps) && i < |states|
    requires forall k :: 0 <= k < i ==> !Overlaps(states[k], steps[k])
    ensures FlagInv(states[i])
    ensures forall k :: 0 <= k < i ==> !WritesUnannounced(states[k], steps[k])
  {
    hide FlagInv, StepTo, Overlaps, WritesUnannounced, HandleInv;
    if i == 0 {
      StartFlags();
    } else {
      RunKeepsFlags(states, steps, i - 1);
      RunKeepsHandle(states, steps, i - 1);
      StepKeepsFlags(states[i - 1], steps[i - 1], states[i]);
    }
  }

  lemma StartFlags()
    ensures FlagInv(START)
  {
  }

  /** As long as no write overlaps the wait of a standby call or a metadata change, every write is announced. */
  lemma RunKeepsMetadata(states: seq<System>, steps: seq<Step>, i: nat)
    requires Run(states, steps) && i < |states|
    requires forall k :: 0 <= k < i ==> !Overlaps(states[k], steps[k])
    ensures WritesJustified(states[i].st.trace) && StreamTold(states[i].st)
  {
    RunKeepsFlags(states, steps, i);
    RunAnnounces(states, steps, i);
  }

  // ---------------------------------------------------------------- the driver runs when the flag says so

  /** Whether the open driver has been started and not been stopped, by the calls made to it. */
  function Running(trace: seq<Call>): bool {
    if trace == [] then false
    else
      match trace[|trace| - 1]
      case StartCall(_) => true
      case OpenCall(_) => false
      case StopCall(_) => false
      case CloseCall(_) => false
      case _ => Running(trace[..|trace| - 1])
  }

  /** A write starts the driver only if the flag is clear, so the flag has to be true. */
  predicate StartInv(s: Stream) {
    !s.standby ==> s.started == Running(s.trace)
  }

  lemma RunningSnoc(trace: seq<Call>, c: Call)
    ensures Running(trace + [c]) ==
      if c.StartCall? then true else if c.OpenCall? || c.StopCall? || c.CloseCall? then false else Running(trace)
  {
    assert (trace + [c])[..|trace|] == trace;
  }

  lemma {:induction false} PerformRunning(s: Stream, xs: seq<Store>)
    ensures Running(PerformAll(s, xs).trace) == Running(s.trace)
    decreases |xs|
  {
    hide Running;
    if xs != [] {
      var t := Perform(s, xs[0]);
      if xs[0].Values? {
        RunningSnoc(s.trace, MetadataChange(xs[0].m));
      }
      PerformRunning(t, xs[1..]);
    }
  }

  lemma WriteRunning(s: Stream, w: Course)
    ensures Running(WriteCompress(s, w).trace) == (Running(s.trace) || (!s.started && w.ready))
  {
    hide Running, PerformAll;
    var a := Announce(s);
    RunningSnoc(s.trace, MetadataCall(s.compress, s.mdata));
    PerformRunning(a, w.early);
    PerformFrame(a, w.early);
    var b := PerformAll(a, w.early);
    var b1 := if s.needMetadata then b.(needMetadata := false) else b;
    PerformRunning(b1, w.late);
    PerformFrame(b1, w.late);
    SendRunning(PerformAll(b1, w.late), w.short, w.ready);
  }

  lemma SendRunning(s: Stream, short: bool, ready: bool)
    ensures Running(SendData(s, short, ready).trace) == (Running(s.trace) || (!s.started && ready))
  {
    hide Running;
    var b := Record(s, WriteCall(s.compress));
    RunningSnoc(s.trace, WriteCall(s.compress));
    RunningSnoc(b.trace, StartCall(s.compress));
  }

  /** A write keeps the flag true exactly if it does not open the driver with the flag set. */
  lemma WriteStarts(s: Stream, w: Course)
    requires StartInv(s)
    ensures StartInv(WriteSection(s, w)) <==> !(s.standby && w.opens && s.started)
  {
    hide Running, WriteCompress;
    var u := if s.standby then OpenSection(s) else s;
    RunningSnoc(s.trace, OpenCall(s.nextHandle));
    WriteRunning(u, w);
    WriteFrame(u, w);
  }

  lemma SectionsStart(s: Stream, x: Store)
    requires StartInv(s)
    ensures StartInv(PauseSection(s)) && StartInv(ResumeSection(s)) && StartInv(Perform(s, x)) && StartInv(CloseSection(s))
    ensures (s.standby <==> s.compress == 0) ==>
      StartInv(StopSection(s)) && StopSection(s).standby == s.standby
  {
    hide Running;
    RunningSnoc(s.trace, PauseCall(s.compress));
    RunningSnoc(s.trace, ResumeCall(s.compress));
    RunningSnoc(s.trace, StopCall(s.compress));
    RunningSnoc(s.trace, MetadataChange(if x.Values? then x.m else NO_METADATA));
  }

  /** The two steps that make the flag wrong: a write that opens the driver with the flag set, and the worker
      clearing it after a first write has started the driver. */
  predicate LosesStart(s: System, step: Step) {
    || (step.Write? && s.st.standby && step.w.opens && s.st.started)
    || (step.WorkerStart? && !s.st.standby && s.st.started)
  }

  lemma EffectStarts(s: System, step: Step)
    requires HandleInv(s) && StartInv(s.st) && Enabled(s, step)
    ensures StartInv(Effect(s, step).st) <==> !LosesStart(s, step)
  {
    hide WriteSection, StopSection, CloseSection, PauseSection, ResumeSection, Perform, Running;
    var st := s.st;
    SectionsStart(st, if step.Change? then step.x else Flag);
    match step
    case Write(w) => WriteStarts(st, w);
    case StopBegin(t, kind) => SectionsStart(StopSection(st), Flag);
    case _ =>
  }

  lemma StepStarts(s: System, step: Step, s': System)
    requires HandleInv(s) && StartInv(s.st) && StepTo(s, step, s')
    ensures StartInv(s'.st) <==> !LosesStart(s, step)
  {
    hide Signal, Effect, StartInv, HandleInv, LosesStart;
    StepFrame(s, step, s');
    EffectStarts(s, step);
  }

  /** All along a run the flag tells whether the open driver runs, exactly if neither of the two steps occurs. */
  lemma {:induction false} RunStarts(states: seq<System>, steps: seq<Step>, n: nat)
    requires Run(states, steps) && n < |states|
    ensures StartedTrue(states, n) <==> NeverLosesStart(states, steps, n)
  {
    hide StartInv, LosesStart, StepTo, HandleInv, StartedTrue, NeverLosesStart;
    StartedSteps(states, steps, n);
    if n == 0 {
      StartsStopped();
    } else {
      RunStarts(states, steps, n - 1);
      RunKeepsHandle(states, steps, n - 1);
      if StartInv(states[n - 1].st) {
        StepStarts(states[n - 1], steps[n - 1], states[n]);
      }
    }
  }

  predicate StartedTrue(states: seq<System>, n: nat)
    requires n < |states|
  {
    forall k :: 0 <= k <= n ==> StartInv(states[k].st)
  }

  predicate NeverLosesStart(states: seq<System>, steps: seq<Step>, n: nat)
    requires n < |states| == |steps| + 1
  {
    forall k :: 0 <= k < n ==> !LosesStart(states[k], steps[k])
  }

  lemma StartedSteps(states: seq<System>, steps: seq<Step>, n: nat)
    requires n < |states| == |steps| + 1
    ensures StartedTrue(states, n) <==> (n > 0 ==> StartedTrue(states, n - 1)) && StartInv(states[n].st)
    ensures n > 0 && StartedTrue(states, n - 1) ==> StartInv(states[n - 1].st)
    ensures NeverLosesStart(states, steps, n) <==>
      n > 0 ==> NeverLosesStart(states, steps, n - 1) && !LosesStart(states[n - 1], steps[n - 1])
  {
    hide StartInv, LosesStart;
  }

  lemma StartsStopped()
    ensures StartInv(START.st)
  {
  }

  // ---------------------------------------------------------------- wakeups

  /** Nobody sleeps through what it waits for. */
  ghost predicate WakeInv(s: System) {
    && (s.worker == Asleep(false) ==> s.st.cmds == [])
    && (forall t :: t in s.waiters && !s.waiters[t].signaled ==> s.st.blocked)
  }

  /** At most one stopping caller sleeps. */
  ghost predicate OneSleeper(s: System) {
    forall t, u :: t in s.waiters && u in s.waiters && !s.waiters[t].signaled && !s.waiters[u].signaled ==> t == u
  }

  lemma FinishWakes(s: System, s': System)
    requires HandleInv(s) && WakeInv(s) && StepTo(s, WorkerFinish, s')
    ensures WakeInv(s') <==> OneSleeper(s)
  {
    var e := Effect(s, WorkerFinish);
    assert e.waiters == s.waiters && e.worker == Ready && !e.st.blocked;
    if OneSleeper(s) {
      forall t | t in s'.waiters ensures s'.waiters[t].signaled {
      }
    }
    if WakeInv(s') {
      forall t, u | t in s.waiters && u in s.waiters && !s.waiters[t].signaled && !s.waiters[u].signaled ensures t == u {
        assert s'.waiters[t].signaled && s'.waiters[u].signaled;
      }
    }
  }

  /** A signal sent while WakeInv holds reaches the worker if the worker sleeps. */
  lemma SignalKeepsWake(s: System, e: System, s': System)
    requires HandleInv(s) && WakeInv(s) && Signal(e, s')
    requires e.worker == s.worker || !e.worker.Asleep?
    requires forall t :: t in e.waiters ==> t in s.waiters && e.waiters[t] == s.waiters[t]
    requires e.st.blocked == s.st.blocked
    ensures WakeInv(s')
  {
    SignalFrame(e, s');
    forall t | t in s'.waiters && !s'.waiters[t].signaled ensures s.st.blocked {
      assert t in e.waiters && !e.waiters[t].signaled;
    }
    if e.worker == Asleep(false) {
      assert forall t :: t in e.waiters ==> e.waiters[t].signaled;
    }
  }

  lemma TakeKeepsWake(s: System, s': System)
    requires HandleInv(s) && WakeInv(s) && StepTo(s, WorkerTake, s')
    ensures WakeInv(s')
  {
    if Signals(s, WorkerTake) {
      SignalKeepsWake(s, Effect(s, WorkerTake), s');
    }
  }

  lemma EffectKeepsSleepers(s: System, step: Step)
    requires HandleInv(s) && WakeInv(s) && Enabled(s, step) && step != WorkerTake && step != WorkerFinish
    ensures !Signals(s, step) ==> WakeInv(Effect(s, step))
    ensures Signals(s, step) ==>
      var e := Effect(s, step);
      && e.worker == s.worker && e.st.blocked == s.st.blocked
      && forall t :: t in e.waiters ==> t in s.waiters && e.waiters[t] == s.waiters[t]
  {
    match step
    case Write(w) =>
      hide WriteSection;
      WriteSectionFacts(s.st, w);
      SectionsOnlyAppend(s, step);
    case _ =>
  }

  /** Every step but one keeps wakeups from being lost; the end of a driver call keeps it exactly when
      no two stopping callers sleep, because it signals only once. */
  lemma StepKeepsWake(s: System, step: Step, s': System)
    requires HandleInv(s) && WakeInv(s) && StepTo(s, step, s')
    ensures WakeInv(s') <==> (step == WorkerFinish ==> OneSleeper(s))
  {
    hide Effect, Signal, WakeInv, HandleInv, OneSleeper;
    if step == WorkerFinish {
      FinishWakes(s, s');
    } else if step == WorkerTake {
      TakeKeepsWake(s, s');
    } else {
      EffectKeepsSleepers(s, step);
      if Signals(s, step) {
        SignalKeepsWake(s, Effect(s, step), s');
      }
    }
  }

  /** Nobody has slept through what he waits for all along a run, exactly if no end of a driver call has found
      two stopping callers asleep. */
  lemma {:induction false} NoLostWakeup(states: seq<System>, steps: seq<Step>, n: nat)
    requires Run(states, steps) && n < |states|
    ensures NobodyMissed(states, n) <==> OneSleeperEach(states, steps, n)
  {
    hide WakeInv, OneSleeper, StepTo, HandleInv, NobodyMissed, OneSleeperEach;
    WakeSteps(states, steps, n);
    if n == 0 {
      StartsAwake();
    } else {
      NoLostWakeup(states, steps, n - 1);
      RunKeepsHandle(states, steps, n - 1);
      if WakeInv(states[n - 1]) {
        StepKeepsWake(states[n - 1], steps[n - 1], states[n]);
      }
    }
  }

  ghost predicate NobodyMissed(states: seq<System>, n: nat)
    requires n < |states|
  {
    forall k :: 0 <= k <= n ==> WakeInv(states[k])
  }

  ghost predicate OneSleeperEach(states: seq<System>, steps: seq<Step>, n: nat)
    requires n < |states| == |steps| + 1
  {
    forall k :: 0 <= k < n && steps[k] == WorkerFinish ==> OneSleeper(states[k])
  }

  lemma WakeSteps(states: seq<System>, steps: seq<Step>, n: nat)
    requires n < |states| == |steps| + 1
    ensures NobodyMissed(states, n) <==> (n > 0 ==> NobodyMissed(states, n - 1)) && WakeInv(states[n])
    ensures n > 0 && NobodyMissed(states, n - 1) ==> WakeInv(states[n - 1])
    ensures OneSleeperEach(states, steps, n) <==>
      n > 0 ==> OneSleeperEach(states, steps, n - 1) && (steps[n - 1] == WorkerFinish ==> OneSleeper(states[n - 1]))
  {
    hide WakeInv, OneSleeper;
  }

  lemma StartsAwake()
    ensures WakeInv(START)
  {
  }

  // ---------------------------------------------------------------- two concrete runs

  lemma RunSnoc(states: seq<System>, steps: seq<Step>, step: Step, s': System)
    requires Run(states, steps) && StepTo(states[|steps|], step, s')
    ensures Run(states + [s'], steps + [step])
  {
  }

  lemma QuietStep(s: System, step: Step)
    requires Enabled(s, step) && Effect(s, step).worker != Asleep(false) && Effect(s, step).waiters == map[]
    ensures StepTo(s, step, Effect(s, step))
  {
  }

  /** A write without stores in between. */
  function PlainWrite(opens: bool, short: bool): Step {
    Write(Course(opens, short, true, [], []))
  }

  lemma PlainCompress(s: Stream, w: Course)
    requires w.early == w.late == []
    ensures WriteCompress(s, w) == SendData(if s.needMetadata then Announce(s).(needMetadata := false) else s, w.short, w.ready)
  {
  }

  lemma RunOfNone()
    ensures Run([START], [])
  {
  }

  /** The worker starts and a write is short. */
  lemma ShortWrite() returns (states: seq<System>, steps: seq<Step>)
    ensures Run(states, steps) && |steps| == 2 && |states| == 3
    ensures states[2] == START.(worker := Ready, st := Stream(
      1, 2, false, false, true, false, NO_METADATA, Playing, [WaitForBuffer], [WaitForBuffer],
      [OpenCall(1), MetadataCall(1, NO_METADATA), WriteCall(1), StartCall(1)], false))
  {
    hide Run, WriteSection, Signal;
    var w := PlainWrite(true, true);
    FirstWrite(w.w);
    RunOfNone();
    var s1 := Effect(START, WorkerStart);
    RunSnoc([START], [], WorkerStart, s1);
    var s2 := Effect(s1, w);
    QuietStep(s1, w);
    RunSnoc([START] + [s1], [] + [WorkerStart], w, s2);
    states, steps := [START] + [s1] + [s2], [] + [WorkerStart] + [w];
  }

  /** Then the worker waits for buffer space. */
  lemma WorkerEntersCall() returns (states: seq<System>, steps: seq<Step>)
    ensures Run(states, steps) && |steps| == 3 && |states| == 4
    ensures states[3] == START.(worker := InCall(WaitForBuffer, 1), st := Stream(
      1, 2, false, true, true, false, NO_METADATA, Playing, [], [WaitForBuffer],
      [OpenCall(1), MetadataCall(1, NO_METADATA), WriteCall(1), StartCall(1)], false))
  {
    hide Run, Signal;
    states, steps := ShortWrite();
    var s3 := Effect(states[2], WorkerTake);
    RunSnoc(states, steps, WorkerTake, s3);
    states, steps := states + [s3], steps + [WorkerTake];
  }

  lemma FirstWrite(w: Course)
    requires w.opens && w.ready && w.early == w.late == []
    ensures var cmds := if w.short then [WaitForBuffer] else [];
      WriteSection(OPENED, w) == Stream(1, 2, false, false, true, false, NO_METADATA, Playing, cmds, cmds,
        [OpenCall(1), MetadataCall(1, NO_METADATA), WriteCall(1), StartCall(1)], false)
  {
    PlainCompress(OpenSection(OPENED), w);
    hide WriteCompress;
    assert [OpenCall(1), MetadataCall(1, NO_METADATA)] + [WriteCall(1)] + [StartCall(1)]
        == [OpenCall(1), MetadataCall(1, NO_METADATA), WriteCall(1), StartCall(1)];
  }

  /** A reachable run in which a write overlaps a standby: the next write is unannounced, and the driver it
      opens is never started although the flag is set. */
  lemma OverlapIsReachable() returns (states: seq<System>, steps: seq<Step>)
    ensures Run(states, steps) && |steps| == 8 && |states| == 9
    ensures !WritesJustified(states[8].st.trace)
    ensures !states[8].st.standby && states[8].st.started && !Running(states[8].st.trace)
  {
    hide Run, WritesJustified, CurrentMetadata, LastTold, HandleInv, Running;
    states, steps := WorkerEntersCall();
    var s3 := Effect(states[3], StopBegin(0, Standby));
    assert s3.waiters == map[0 := Waiter(Standby, false)];
    RunSnoc(states, steps, StopBegin(0, Standby), s3);
    states, steps := states + [s3], steps + [StopBegin(0, Standby)];
    var s4 := Effect(s3, PlainWrite(false, false));
    RunSnoc(states, steps, PlainWrite(false, false), s4);
    states, steps := states + [s4], steps + [PlainWrite(false, false)];
    var s5 := Wake(Effect(s4, WorkerFinish), 0);
    SignalToCaller(s4, WorkerFinish, 0);
    RunSnoc(states, steps, WorkerFinish, s5);
    states, steps := states + [s5], steps + [WorkerFinish];
    var s6 := Effect(s5, StopResume(0));
    RunSnoc(states, steps, StopResume(0), s6);
    states, steps := states + [s6], steps + [StopResume(0)];
    assert s6.waiters == map[];
    var s7 := Effect(s6, PlainWrite(true, false));
    QuietStep(s6, PlainWrite(true, false));
    RunSnoc(states, steps, PlainWrite(true, false), s7);
    states, steps := states + [s7], steps + [PlainWrite(true, false)];
    RunAnnounces(states, steps, 8);
    assert WritesUnannounced(states[7], steps[7]);
    NeverStarted(s6.st, PlainWrite(true, false).w);
  }

  lemma NeverStarted(s: Stream, w: Course)
    requires s.standby && w.opens && s.started
    ensures var t := WriteSection(s, w); !t.standby && t.started && !Running(t.trace)
  {
    hide Running, WriteCompress;
    RunningSnoc(s.trace, OpenCall(s.nextHandle));
    WriteRunning(OpenSection(s), w);
    WriteFrame(OpenSection(s), w);
  }

  /** A first write before the worker has started: its initialisation clears the flag of the running driver. */
  lemma LateWorkerIsReachable() returns (states: seq<System>, steps: seq<Step>)
    ensures Run(states, steps) && |steps| == 2 && |states| == 3
    ensures !states[2].st.standby && !states[2].st.started && Running(states[2].st.trace)
  {
    var w := PlainWrite(true, false);
    FirstWrite(w.w);
    hide WriteSection;
    QuietStep(START, w);
    var s1 := Effect(START, w);
    var s2 := Effect(s1, WorkerStart);
    states, steps := [START, s1, s2], [w, WorkerStart];
    assert s2.st.trace == [OpenCall(1), MetadataCall(1, NO_METADATA), WriteCall(1), StartCall(1)];
  }

  function Wake(s: System, t: nat): System
    requires t in s.waiters
  {
    s.(waiters := s.waiters[t := s.waiters[t].(signaled := true)])
  }

  lemma SignalToCaller(s: System, step: Step, t: nat)
    requires Enabled(s, step) && Signals(s, step)
    requires t in Effect(s, step).waiters && !Effect(s, step).waiters[t].signaled
    ensures StepTo(s, step, Wake(Effect(s, step), t))
  {
  }

  /** Two flushes wait for the same driver call. */
  lemma TwoFlushesWait() returns (states: seq<System>, steps: seq<Step>)
    ensures Run(states, steps) && |steps| == 5 && |states| == 6
    ensures states[5].worker == InCall(WaitForBuffer, 1) && states[5].st.cmds == []
    ensures states[5].waiters == map[0 := Waiter(Flush, false), 1 := Waiter(Flush, false)]
  {
    hide Run;
    states, steps := WorkerEntersCall();
    var s3 := Effect(states[3], StopBegin(0, Flush));
    RunSnoc(states, steps, StopBegin(0, Flush), s3);
    states, steps := states + [s3], steps + [StopBegin(0, Flush)];
    var s4 := Effect(s3, StopBegin(1, Flush));
    RunSnoc(states, steps, StopBegin(1, Flush), s4);
    states, steps := states + [s4], steps + [StopBegin(1, Flush)];
    assert s4.waiters == map[0 := Waiter(Flush, false), 1 := Waiter(Flush, false)];
  }

  /** The end of the driver call wakes one of them, and the worker goes to sleep. */
  lemma SecondFlushSleeps() returns (states: seq<System>, steps: seq<Step>)
    ensures Run(states, steps) && |steps| == 7 && |states| == 8
    ensures states[7].worker == Asleep(false) && states[7].st.cmds == [] && !states[7].st.blocked
    ensures states[7].waiters == map[0 := Waiter(Flush, true), 1 := Waiter(Flush, false)]
  {
    hide Run;
    states, steps := TwoFlushesWait();
    var s4 := states[5];
    var s5 := Wake(Effect(s4, WorkerFinish), 0);
    SignalToCaller(s4, WorkerFinish, 0);
    RunSnoc(states, steps, WorkerFinish, s5);
    states, steps := states + [s5], steps + [WorkerFinish];
    var s6 := Effect(s5, WorkerSleep);
    RunSnoc(states, steps, WorkerSleep, s6);
    states, steps := states + [s6], steps + [WorkerSleep];
  }

  /** A reachable run in which the flush that slept on takes the signal meant for the worker: every caller
      is done, a drain is in the list, and the worker sleeps unsignaled. */
  lemma LostWakeupIsReachable() returns (states: seq<System>, steps: seq<Step>)
    ensures Run(states, steps) && |steps| == 10 && |states| == 11
    ensures states[10].worker == Asleep(false) && states[10].st.cmds == [Drain] && states[10].waiters == map[]
  {
    hide Run;
    states, steps := SecondFlushSleeps();
    var s6 := states[7];
    var s7 := Wake(Effect(s6, SendDrain(false)), 1);
    SignalToCaller(s6, SendDrain(false), 1);
    RunSnoc(states, steps, SendDrain(false), s7);
    states, steps := states + [s7], steps + [SendDrain(false)];
    var s8 := Effect(s7, StopResume(0));
    RunSnoc(states, steps, StopResume(0), s8);
    states, steps := states + [s8], steps + [StopResume(0)];
    var s9 := Effect(s8, StopResume(1));
    RunSnoc(states, steps, StopResume(1), s9);
    states, steps := states + [s9], steps + [StopResume(1)];
    assert s9.waiters == map[];
  }
}
