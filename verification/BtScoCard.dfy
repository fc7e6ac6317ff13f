/** Who owns the Bluetooth playback card: the output stream, or the thread that writes zeros to keep a
    capture stream alive while nothing is played. */
module BtScoCard {

  /** The zero-writer: at the top of its loop, past a check that found dup_need_start set, about to post
      after an open, or in pthread_cond_wait. */
  datatype Writer = Top | Serving | Posting | Asleep(signaled: bool)

  /** The fields of bt_sco_thread_manager, with the zero-writer's handle (zeroOpen: it holds the card),
      the open-fail bit, and counts of posts, completed waits, opens and closes, and failed opens. */
  datatype Duplicate = Duplicate(
    needStart: bool, dupCount: bool, sem: nat, openFail: bool, writer: Writer, zeroOpen: bool,
    posts: nat, waits: nat, changes: nat, failures: nat)

  /** The uplink and downlink bits, whether pcm_bt_sco is open, and the state of the capture stream. */
  datatype Route = Route(uplink: bool, downlink: bool, outOpen: bool, inStandby: bool, activeInput: bool)

  /** What a caller does after audio_bt_sco_duplicate_start has returned. */
  datatype Then = InputStarted | InputStopped | OpenOutput | CloseOutput

  /** Where the one caller that holds the device lock is. */
  datatype Caller =
    | Idle
    | Requesting(enable: bool, next: Then)
    | SemWaiting(enable: bool, next: Then)
    | Checking(enable: bool, next: Then)
    | SettingDownlink
    | OpeningOutput
    | ClosingOutput
    | ClearingDownlink

  datatype System = System(d: Duplicate, r: Route, caller: Caller)

  const FRESH := Duplicate(false, false, 0, false, Top, false, 0, 0, 0, 0)
  const START := System(FRESH, Route(false, false, false, true, false), Idle)

  // ---------------------------------------------------------------- the handshake

  /** The zero-writer's next step; opens: the driver opens, if it has to. The section between taking the
      mutex and waiting on the condition is one step: it is atomic for everybody who takes the mutex. */
  function WriterStep(d: Duplicate, opens: bool): Duplicate
    requires d.writer != Asleep(false)
  {
    match d.writer
    case Top =>
      if d.needStart then d.(writer := Serving)
      else if d.zeroOpen then
        d.(zeroOpen := false, changes := d.changes + 1, sem := d.sem + 1, posts := d.posts + 1, writer := Asleep(false))
      else d.(writer := Asleep(false))
    case Serving =>
      if d.zeroOpen then d.(writer := Top)
      else if opens then d.(zeroOpen := true, openFail := false, changes := d.changes + 1, writer := Posting)
      else d.(openFail := true, failures := d.failures + 1, writer := Posting)
    case Posting => d.(sem := d.sem + 1, posts := d.posts + 1, writer := Top)
    case Asleep(_) => d.(writer := Top)
  }

  /** The requester sets the flag and signals, if the request is a change. */
  function Request(d: Duplicate, e: bool): Duplicate {
    if e == d.dupCount then d
    else d.(dupCount := e, needStart := e, writer := if d.writer.Asleep? then Asleep(true) else d.writer)
  }

  function TakeSem(d: Duplicate): Duplicate
    requires d.sem > 0
  {
    d.(sem := d.sem - 1, waits := d.waits + 1)
  }

  /** After the wait: an enabling request fails, and is taken back, if the last open failed. */
  function Withdraw(d: Duplicate, e: bool): Duplicate {
    if e && d.openFail then d.(dupCount := false, needStart := false) else d
  }

  // ---------------------------------------------------------------- the handshake's invariant

  /** Where the one request is: none, waiting on the semaphore, or past the wait. */
  datatype Phase = Free | Waiting(enable: bool) | Answered(enable: bool)

  /** The request has been answered by a failed open and not been withdrawn. */
  predicate Refused(d: Duplicate) {
    d.needStart && !d.zeroOpen && d.openFail && d.writer == Top
  }

  /** A request that has been carried out, or refused, has exactly one post, about to come, in the semaphore
      or taken; nobody sleeps through a request. */
  ghost predicate Handshake(d: Duplicate, p: Phase) {
    && d.needStart == d.dupCount
    && (p != Free ==> d.needStart == p.enable)
    && (d.zeroOpen ==> !d.openFail)
    && (d.writer == Posting ==> p == Waiting(true) && d.sem == 0 && d.zeroOpen == !d.openFail)
    && (d.writer == Serving && !d.zeroOpen ==> p == Waiting(true) && d.sem == 0)
    && (d.writer.Asleep? ==> !d.zeroOpen && (d.needStart ==> d.writer.signaled))
    && (match p
        case Free => d.sem == 0 && d.zeroOpen == d.needStart
        case Answered(_) => d.sem == 0 && (d.zeroOpen == d.needStart || Refused(d))
        case Waiting(_) =>
          if d.sem == 0 then d.zeroOpen != d.needStart || d.writer == Posting
          else d.sem == 1 && (d.zeroOpen == d.needStart || Refused(d)))
    && d.posts == d.waits + d.sem
    && d.changes + d.failures == d.posts + if d.writer == Posting then 1 else 0
  }

  /** The writer passes its check again for a request that a failed open has already answered. */
  predicate Again(d: Duplicate, p: Phase) {
    d.writer == Top && d.needStart && !d.zeroOpen && (p.Answered? || (p.Waiting? && d.sem == 1))
  }

  /** The writer keeps the handshake, whether its open succeeds or fails, exactly if it does not go again. */
  lemma WriterKeepsHandshake(d: Duplicate, p: Phase, opens: bool)
    requires Handshake(d, p) && d.writer != Asleep(false)
    ensures Handshake(WriterStep(d, opens), p) <==> !Again(d, p)
  {
  }

  /** Where a request by a caller leads. */
  function Asked(d: Duplicate, e: bool): Phase {
    if e != d.dupCount then Waiting(e) else Answered(e)
  }

  lemma RequestKeepsHandshake(d: Duplicate, e: bool)
    requires Handshake(d, Free)
    ensures Handshake(Request(d, e), Asked(d, e)) && Request(d, e).dupCount == e
  {
  }

  lemma TakeKeepsHandshake(d: Duplicate, e: bool)
    requires Handshake(d, Waiting(e)) && d.sem > 0
    ensures Handshake(TakeSem(d), Answered(e))
  {
  }

  /** Withdrawing a refused request leaves the zero-writer off and the flags saying so. */
  lemma WithdrawKeepsHandshake(d: Duplicate, e: bool)
    requires Handshake(d, Answered(e))
    ensures Handshake(Withdraw(d, e), Free)
    ensures d.zeroOpen == (e && !d.openFail) == Withdraw(d, e).dupCount
  {
  }

  /** The thread manager and the zero-writer's own variables; writer is the writer's place in its loop, and
      phase the request's. */
  class ThreadManager {
    var dupNeedStart: bool
    var dupCount: bool
    var dupSem: nat
    var openFail: bool
    var writer: Writer
    var playbackOpen: bool
    ghost var phase: Phase
    ghost var posts: nat
    ghost var waits: nat
    ghost var changes: nat
    ghost var failures: nat

    ghost function View(): Duplicate
      reads this
    {
      Duplicate(dupNeedStart, dupCount, dupSem, openFail, writer, playbackOpen, posts, waits, changes, failures)
    }

    ghost predicate Valid()
      reads this
    {
      Handshake(View(), phase)
    }

    constructor ()
      ensures Valid() && View() == FRESH && phase == Free
    {
      dupNeedStart, dupCount, dupSem, openFail := false, false, 0, false;
      writer, playbackOpen, phase := Top, false, Free;
      posts, waits, changes, failures := 0, 0, 0, 0;
    }

    method Post()
      modifies this`dupSem, this`posts
      ensures dupSem == old(dupSem) + 1 && posts == old(posts) + 1
    {
      dupSem := dupSem + 1;
      posts := posts + 1;
    }

    /** audio_bt_sco_duplicate_start up to sem_wait: it waits exactly if the zero-writer has to change, and
        then the writer is not left asleep. */
    method RequestStart(enable: bool) returns (mustWait: bool)
      requires Valid() && phase == Free
      modifies this`dupCount, this`dupNeedStart, this`writer, this`phase
      ensures Valid() && phase == if mustWait then Waiting(enable) else Answered(enable)
      ensures mustWait <==> playbackOpen != enable
      ensures mustWait ==> dupSem == 0 && writer != Asleep(false)
      ensures View() == Request(old(View()), enable)
    {
      RequestKeepsHandshake(View(), enable);
      mustWait := enable != dupCount;
      if mustWait {
        dupCount := enable;
        dupNeedStart := enable;
        if writer.Asleep? {
          writer := Asleep(true);
        }
      }
      phase := if mustWait then Waiting(enable) else Answered(enable);
    }

    /** sem_wait returning: the request has been carried out or refused, and no post is left. */
    method WaitReturns()
      requires Valid() && phase.Waiting? && dupSem > 0
      modifies this`dupSem, this`waits, this`phase
      ensures Valid() && phase == Answered(old(phase).enable)
      ensures dupSem == 0 && playbackOpen == (phase.enable && !openFail)
      ensures View() == TakeSem(old(View()))
    {
      dupSem := dupSem - 1;
      waits := waits + 1;
      phase := Answered(phase.enable);
    }

    /** The rest of audio_bt_sco_duplicate_start: 0 exactly if the zero-writer is as requested; otherwise the
        request is withdrawn. */
    method CheckStart(enable: bool) returns (ret: int)
      requires Valid() && phase == Answered(enable)
      modifies this`dupCount, this`dupNeedStart, this`phase
      ensures Valid() && phase == Free
      ensures ret == if playbackOpen == enable then 0 else -1
      ensures dupCount == playbackOpen && dupSem == 0
      ensures View() == Withdraw(old(View()), enable)
    {
      WithdrawKeepsHandshake(View(), enable);
      ret := 0;
      if enable && openFail {
        dupCount := !enable;
        dupNeedStart := !enable;
        ret := -1;
      }
      phase := Free;
    }

    /** One step of audio_bt_sco_dup_thread_func; opens: what pcm_open would do. It keeps the handshake
        exactly if it does not serve a refused request again. */
    method WriterGoes(opens: bool)
      requires Valid() && writer != Asleep(false)
      modifies this`writer, this`playbackOpen, this`openFail, this`dupSem, this`posts, this`changes, this`failures
      ensures Valid() <==> !old(Again(View(), phase))
      ensures playbackOpen != old(playbackOpen) ==> playbackOpen == dupNeedStart
      ensures View() == WriterStep(old(View()), opens)
    {
      WriterKeepsHandshake(View(), phase, opens);
      match writer
      case Top =>
        if dupNeedStart {
          writer := Serving;
        } else {
          if playbackOpen {
            playbackOpen := false;
            changes := changes + 1;
            Post();
          }
          writer := Asleep(false);
        }
      case Serving =>
        if playbackOpen {
          writer := Top;
        } else {
          playbackOpen := opens;
          openFail := !opens;
          if opens {
            changes := changes + 1;
          } else {
            failures := failures + 1;
          }
          writer := Posting;
        }
      case Posting =>
        Post();
        writer := Top;
      case Asleep(_) =>
        writer := Top;
    }
  }

  // ---------------------------------------------------------------- the callers

  datatype Step =
    | StartInput
    | StopInput
    | StartOutput
    | StopOutput
    | CallerGoes
    | WriterGoes(opens: bool)
    | SpuriousWake

  predicate Enabled(s: System, step: Step) {
    match step
    case StartInput => s.caller == Idle && s.r.inStandby
    case StopInput => s.caller == Idle && !s.r.inStandby
    case StartOutput => s.caller == Idle && !s.r.outOpen
    case StopOutput => s.caller == Idle && s.r.outOpen
    case CallerGoes => s.caller != Idle && (s.caller.SemWaiting? ==> s.d.sem > 0)
    case WriterGoes(opens) => s.d.writer != Asleep(false)
    case SpuriousWake => s.d.writer.Asleep?
  }

  /** do_input_standby up to its call of audio_bt_sco_duplicate_start. */
  function StandbyInput(s: System, next: Then): System {
    s.(r := s.r.(uplink := false), caller := Requesting(false, next))
  }

  /** After a request has returned without error. */
  function Continue(s: System, next: Then): System {
    if next == InputStarted then s.(caller := Idle)
    else
      s.(r := s.r.(activeInput := false, inStandby := true),
         caller := if next == InputStopped then Idle else if next == OpenOutput then SettingDownlink else ClosingOutput)
  }

  function CallerStep(s: System): System
    requires Enabled(s, CallerGoes)
  {
    match s.caller
    case Requesting(e, next) =>
      s.(d := Request(s.d, e), caller := if e != s.d.dupCount then SemWaiting(e, next) else Checking(e, next))
    case SemWaiting(e, next) => s.(d := TakeSem(s.d), caller := Checking(e, next))
    case Checking(e, next) =>
      if e && s.d.openFail then
        s.(d := Withdraw(s.d, e), r := s.r.(activeInput := false), caller := Idle)
      else Continue(s, next)
    case SettingDownlink => s.(r := s.r.(downlink := true), caller := OpeningOutput)
    case OpeningOutput => s.(r := s.r.(outOpen := true), caller := Idle)
    case ClosingOutput => s.(r := s.r.(outOpen := false), caller := ClearingDownlink)
    case ClearingDownlink => s.(r := s.r.(downlink := false), caller := Idle)
  }

  function Apply(s: System, step: Step): System
    requires Enabled(s, step)
  {
    match step
    case StartInput =>
      s.(r := s.r.(inStandby := false, activeInput := true, uplink := true),
         caller := if s.r.downlink then Idle else Requesting(true, InputStarted))
    case StopInput => StandbyInput(s, InputStopped)
    case StartOutput => if s.r.uplink && s.r.activeInput then StandbyInput(s, OpenOutput) else s.(caller := SettingDownlink)
    case StopOutput => if s.r.uplink && s.r.activeInput then StandbyInput(s, CloseOutput) else s.(caller := ClosingOutput)
    case CallerGoes => CallerStep(s)
    case WriterGoes(opens) => s.(d := WriterStep(s.d, opens))
    case SpuriousWake => s.(d := s.d.(writer := Asleep(true)))
  }

  ghost predicate Run(r: seq<System>, steps: seq<Step>) {
    && |r| == |steps| + 1 && r[0] == START
    && forall i :: 0 <= i < |steps| ==> Enabled(r[i], steps[i]) && r[i + 1] == Apply(r[i], steps[i])
  }

  // ---------------------------------------------------------------- invariants

  function PhaseOf(c: Caller): Phase {
    match c
    case SemWaiting(e, _) => Waiting(e)
    case Checking(e, _) => Answered(e)
    case _ => Free
  }

  predicate InRequest(c: Caller) {
    c.Requesting? || c.SemWaiting? || c.Checking?
  }

  /** What the flags mean at each point of the callers' code. */
  ghost predicate Ownership(r: Route, c: Caller, on: bool) {
    && (r.uplink ==> !r.inStandby)
    && (r.outOpen ==> r.downlink)
    && (r.downlink ==> !on)
    && (c.SemWaiting? ==> !r.downlink)
    && (InRequest(c) ==>
          && (c.enable <==> c.next == InputStarted)
          && (if c.enable then r.uplink && r.activeInput && !r.downlink else !r.uplink)
          && (c.next == OpenOutput ==> !r.downlink)
          && (c.next == CloseOutput ==> r.outOpen)
          && (c.next == InputStopped || c.next == InputStarted ==> r.downlink == r.outOpen))
    && (c == SettingDownlink ==> !on && !r.downlink)
    && (c == OpeningOutput ==> r.downlink && !r.outOpen)
    && (c == ClosingOutput ==> r.outOpen)
    && (c == ClearingDownlink ==> r.downlink && !r.outOpen)
    && (c == Idle ==> r.downlink == r.outOpen && (on ==> r.uplink && r.activeInput))
  }

  ghost predicate Inv(s: System) {
    Handshake(s.d, PhaseOf(s.caller)) && Ownership(s.r, s.caller, s.d.dupCount)
  }

  /** The one step that breaks the handshake. */
  predicate GoesAgain(s: System, step: Step) {
    step.WriterGoes? && Again(s.d, PhaseOf(s.caller))
  }

  lemma CallerKeepsInv(s: System)
    requires Inv(s) && Enabled(s, CallerGoes)
    ensures Inv(CallerStep(s))
  {
    hide Handshake;
    match s.caller
    case Requesting(e, next) => RequestKeepsHandshake(s.d, e);
    case SemWaiting(e, next) =>
      Unmoved(s.d, PhaseOf(s.caller));
      TakeKeepsHandshake(s.d, e);
    case Checking(e, next) =>
      Unmoved(s.d, PhaseOf(s.caller));
      WithdrawKeepsHandshake(s.d, e);
    case _ =>
  }

  lemma Unmoved(d: Duplicate, p: Phase)
    requires Handshake(d, p)
    ensures p != Free ==> d.dupCount == p.enable
  {
  }

  lemma SpuriousKeepsHandshake(d: Duplicate, p: Phase)
    requires Handshake(d, p) && d.writer.Asleep?
    ensures Handshake(d.(writer := Asleep(true)), p)
  {
  }

  /** Every step of every thread, failed opens included, keeps the invariant exactly if it is not the writer
      going again for a refused request. */
  lemma StepKeepsInv(s: System, step: Step)
    requires Inv(s) && Enabled(s, step)
    ensures Inv(Apply(s, step)) <==> !GoesAgain(s, step)
  {
    hide Handshake, WriterStep;
    match step
    case WriterGoes(opens) =>
      WriterKeepsHandshake(s.d, PhaseOf(s.caller), opens);
      WriterKeepsCount(s.d, opens);
    case CallerGoes => CallerKeepsInv(s);
    case SpuriousWake => SpuriousKeepsHandshake(s.d, PhaseOf(s.caller));
    case _ =>
  }

  lemma WriterKeepsCount(d: Duplicate, opens: bool)
    requires d.writer != Asleep(false)
    ensures WriterStep(d, opens).dupCount == d.dupCount
  {
  }

  /** A run in which the writer never goes again. */
  ghost predicate Orderly(r: seq<System>, steps: seq<Step>, n: nat)
    requires |r| == |steps| + 1 && n < |r|
  {
    forall k :: 0 <= k < n ==> !GoesAgain(r[k], steps[k])
  }

  /** The invariant holds all along a run exactly if the run is orderly. */
  lemma {:induction false} RunKeepsInv(r: seq<System>, steps: seq<Step>, n: nat)
    requires Run(r, steps) && n < |r|
    ensures Kept(r, n) <==> Orderly(r, steps, n)
  {
    hide Inv, GoesAgain, Kept, Orderly, Apply, Enabled;
    if n == 0 {
      StartInv();
      KeptNothing(r, steps);
    } else {
      RunKeepsInv(r, steps, n - 1);
      KeptSnoc(r, steps, n - 1);
      if Inv(r[n - 1]) {
        StepKeepsInv(r[n - 1], steps[n - 1]);
      }
    }
  }

  ghost predicate Kept(r: seq<System>, n: nat)
    requires n < |r|
  {
    forall i :: 0 <= i <= n ==> Inv(r[i])
  }

  lemma KeptNothing(r: seq<System>, steps: seq<Step>)
    requires |r| == |steps| + 1
    ensures (Kept(r, 0) <==> Inv(r[0])) && Orderly(r, steps, 0)
  {
    hide Inv;
  }

  lemma KeptSnoc(r: seq<System>, steps: seq<Step>, n: nat)
    requires |r| == |steps| + 1 && n + 1 < |r|
    ensures Kept(r, n + 1) <==> Kept(r, n) && Inv(r[n + 1])
    ensures Kept(r, n) ==> Inv(r[n])
    ensures Orderly(r, steps, n + 1) <==> Orderly(r, steps, n) && !GoesAgain(r[n], steps[n])
  {
    hide Inv, GoesAgain;
  }

  lemma OrderlyInv(r: seq<System>, steps: seq<Step>, i: nat)
    requires Run(r, steps) && i < |r| && Orderly(r, steps, i)
    ensures Inv(r[i])
  {
    hide Inv, Run, Orderly;
    RunKeepsInv(r, steps, i);
  }

  lemma StartInv()
    ensures Inv(START)
  {
  }

  /** At most one owner of the card in every state of an orderly run, whether opens succeed or fail; the
      duplicate writer is on only without a downlink and, unless a request to turn it off is being made, only
      with an uplink; between calls only for an active capture stream. */
  lemma OneOwner(r: seq<System>, steps: seq<Step>, i: nat)
    requires Run(r, steps) && i < |r| && Orderly(r, steps, i)
    ensures !(r[i].d.zeroOpen && r[i].r.outOpen)
    ensures r[i].d.dupCount ==> !r[i].r.downlink
    ensures r[i].d.dupCount ==> r[i].r.uplink || (r[i].caller.Requesting? && !r[i].caller.enable)
    ensures r[i].caller == Idle ==> r[i].d.zeroOpen == r[i].d.dupCount
    ensures r[i].caller == Idle && r[i].d.dupCount ==> r[i].r.uplink && r[i].r.activeInput
  {
    hide Inv, Run, Orderly;
    OrderlyInv(r, steps, i);
    OwnerOf(r[i]);
  }

  lemma OwnerOf(s: System)
    requires Inv(s)
    ensures !(s.d.zeroOpen && s.r.outOpen)
    ensures s.d.dupCount ==> !s.r.downlink
    ensures s.d.dupCount ==> s.r.uplink || (s.caller.Requesting? && !s.caller.enable)
    ensures s.caller == Idle ==> s.d.zeroOpen == s.d.dupCount
    ensures s.caller == Idle && s.d.dupCount ==> s.r.uplink && s.r.activeInput
  {
  }

  predicate MovesOutput(c: Caller) {
    c == SettingDownlink || c == OpeningOutput || c == ClosingOutput || c == ClearingDownlink
  }

  /** A capture stream runs only while somebody drives the card: it is in standby whenever the playback stream
      comes or goes, and between calls it has either a downlink or the zero-writer. */
  ghost predicate Driven(s: System) {
    && (MovesOutput(s.caller) ==> !s.r.activeInput)
    && (s.caller == Idle && s.r.activeInput ==> s.r.uplink && (s.r.downlink || s.d.zeroOpen))
    && (s.r.activeInput ==> !s.r.inStandby)
  }

  lemma StepKeepsDriven(s: System, step: Step)
    requires Inv(s) && Driven(s) && Enabled(s, step) && !GoesAgain(s, step)
    ensures Driven(Apply(s, step))
  {
  }

  lemma {:induction false} RunKeepsDriven(r: seq<System>, steps: seq<Step>, i: nat)
    requires Run(r, steps) && i < |r| && Orderly(r, steps, i)
    ensures Driven(r[i])
  {
    hide Inv, GoesAgain, Apply, Enabled;
    if i > 0 {
      hide Driven;
      RunKeepsDriven(r, steps, i - 1);
      OrderlyInv(r, steps, i - 1);
      StepKeepsDriven(r[i - 1], steps[i - 1]);
    }
  }

  /** In every state of an orderly run, opens that fail included: whenever the playback stream is opened or closed
      no capture stream runs; between calls a running capture stream has its uplink, and somebody who drives the
      card. The zero-writer does exactly while the playback stream does not. */
  lemma CaptureIsDriven(r: seq<System>, steps: seq<Step>, i: nat)
    requires Run(r, steps) && i < |r| && Orderly(r, steps, i)
    ensures r[i].caller == Idle && r[i].r.activeInput ==> r[i].r.uplink && (r[i].r.outOpen || r[i].d.zeroOpen)
    ensures r[i].caller == Idle ==> (r[i].d.zeroOpen <==> r[i].r.activeInput && !r[i].r.outOpen)
    ensures i > 0 && r[i].r.outOpen != r[i - 1].r.outOpen ==> !r[i].r.activeInput
    ensures r[i].r.activeInput ==> !r[i].r.inStandby
  {
    hide Inv, Orderly, Driven, GoesAgain, Apply, Enabled;
    OrderlyInv(r, steps, i);
    RunKeepsDriven(r, steps, i);
    DrivenBy(r[i]);
    if i > 0 {
      OrderlyPrefix(r, steps, i);
      RunKeepsDriven(r, steps, i - 1);
      OutputMoves(r[i - 1], steps[i - 1]);
    }
  }

  lemma OrderlyPrefix(r: seq<System>, steps: seq<Step>, i: nat)
    requires Run(r, steps) && 0 < i < |r| && Orderly(r, steps, i)
    ensures Orderly(r, steps, i - 1)
  {
  }

  lemma DrivenBy(s: System)
    requires Inv(s) && Driven(s)
    ensures s.caller == Idle && s.r.activeInput ==> s.r.uplink && (s.r.outOpen || s.d.zeroOpen)
    ensures s.caller == Idle ==> (s.d.zeroOpen <==> s.r.activeInput && !s.r.outOpen)
    ensures s.r.activeInput ==> !s.r.inStandby
  {
  }

  lemma OutputMoves(s: System, step: Step)
    requires Driven(s) && Enabled(s, step)
    ensures Apply(s, step).r.outOpen != s.r.outOpen ==> !Apply(s, step).r.activeInput
  {
  }

  /** The four calls; the other steps belong to a call under way, or to the writer. */
  predicate IsCall(step: Step) {
    !step.CallerGoes? && !step.WriterGoes? && !step.SpuriousWake?
  }

  /** What each call is for: a started capture stream is active exactly if somebody drives the card, and the
      playback stream comes and goes together with its downlink bit, with no capture stream running. */
  predicate Achieved(s: System, call: Step)
    requires IsCall(call)
  {
    match call
    case StartInput => s.r.uplink && !s.r.inStandby && (s.r.activeInput <==> s.r.downlink || s.d.zeroOpen)
    case StopInput => !s.r.uplink && s.r.inStandby && !s.r.activeInput && !s.d.zeroOpen
    case StartOutput => s.r.outOpen && s.r.downlink && !s.r.activeInput && !s.d.zeroOpen
    case StopOutput => !s.r.outOpen && !s.r.downlink && !s.r.activeInput
  }

  /** Where a caller can be during each call. */
  predicate Under(s: System, call: Step)
    requires IsCall(call)
  {
    match call
    case StartInput => InRequest(s.caller) && s.caller.next == InputStarted
    case StopInput => InRequest(s.caller) && s.caller.next == InputStopped
    case StartOutput =>
      s.caller == SettingDownlink || s.caller == OpeningOutput || (InRequest(s.caller) && s.caller.next == OpenOutput)
    case StopOutput =>
      s.caller == ClosingOutput || s.caller == ClearingDownlink || (InRequest(s.caller) && s.caller.next == CloseOutput)
  }

  ghost predicate Pursues(s: System, call: Step)
    requires IsCall(call)
  {
    Under(s, call) || (s.caller == Idle && Achieved(s, call))
  }

  lemma CallPursues(s: System, call: Step)
    requires Inv(s) && Driven(s) && IsCall(call) && Enabled(s, call)
    ensures Pursues(Apply(s, call), call)
  {
  }

  lemma CallerPursues(s: System, call: Step)
    requires Inv(s) && Driven(s) && IsCall(call) && Pursues(s, call) && Enabled(s, CallerGoes)
    ensures Pursues(CallerStep(s), call)
  {
  }

  lemma WriterPursues(s: System, call: Step, step: Step)
    requires Inv(s) && IsCall(call) && Pursues(s, call) && Enabled(s, step) && !GoesAgain(s, step)
    requires step.WriterGoes? || step.SpuriousWake?
    ensures Pursues(Apply(s, step), call)
  {
  }

  lemma {:induction false} RunPursues(r: seq<System>, steps: seq<Step>, k: nat, i: nat)
    requires Run(r, steps) && k < i < |r| && Orderly(r, steps, i) && IsCall(steps[k])
    requires forall m :: k < m < i ==> !IsCall(steps[m])
    ensures Pursues(r[i], steps[k])
  {
    hide Inv, Driven, Pursues, IsCall, GoesAgain, Apply, Enabled;
    OrderlyInv(r, steps, i - 1);
    RunKeepsDriven(r, steps, i - 1);
    if i == k + 1 {
      CallPursues(r[k], steps[k]);
    } else {
      RunPursues(r, steps, k, i - 1);
      StepPursues(r[i - 1], steps[k], steps[i - 1]);
    }
  }

  lemma StepPursues(s: System, call: Step, step: Step)
    requires Inv(s) && Driven(s) && IsCall(call) && Pursues(s, call)
    requires Enabled(s, step) && !IsCall(step) && !GoesAgain(s, step)
    ensures Pursues(Apply(s, step), call)
  {
    hide Inv, Driven, Pursues, GoesAgain, Enabled, CallerStep, WriterStep;
    if step == CallerGoes {
      CallerPursues(s, call);
    } else {
      WriterPursues(s, call, step);
    }
  }

  /** In an orderly run every call that returns has done what it is for, whatever the writer did meanwhile. */
  lemma CallsAchieve(r: seq<System>, steps: seq<Step>, k: nat, i: nat)
    requires Run(r, steps) && k < i < |r| && Orderly(r, steps, i) && IsCall(steps[k])
    requires (forall m :: k < m < i ==> !IsCall(steps[m])) && r[i].caller == Idle
    ensures Achieved(r[i], steps[k])
  {
    hide Run, Orderly, Achieved;
    RunPursues(r, steps, k, i);
  }

  /** When the wait of a request is over, the zero-writer holds the card exactly if that was asked for and the
      open did not fail; outside of waits the semaphore is 0 and has been posted once per open, close and
      failed open. */
  lemma RequestReturns(r: seq<System>, steps: seq<Step>, i: nat)
    requires Run(r, steps) && i < |r| && Orderly(r, steps, i) && !r[i].caller.SemWaiting?
    ensures r[i].caller.Checking? ==> r[i].d.zeroOpen == (r[i].caller.enable && !r[i].d.openFail)
    ensures r[i].d.sem == 0 && r[i].d.posts == r[i].d.waits == r[i].d.changes + r[i].d.failures
  {
    hide Inv, Run, Orderly;
    OrderlyInv(r, steps, i);
    ReturnsTo(r[i]);
  }

  lemma ReturnsTo(s: System)
    requires Inv(s) && !s.caller.SemWaiting?
    ensures s.caller.Checking? ==> s.d.zeroOpen == (s.caller.enable && !s.d.openFail)
    ensures s.d.sem == 0 && s.d.posts == s.d.waits == s.d.changes + s.d.failures
  {
  }

  /** How many steps the writer needs at most until the pending request is posted. */
  function Distance(d: Duplicate): nat {
    match d.writer
    case Posting => 1
    case Serving => 2
    case Top => if d.needStart then 3 else 1
    case Asleep(_) => 4
  }

  /** No wakeup is lost: a waiting caller finds the semaphore posted, or the writer can go and every step
      it takes, failed opens included, brings the post nearer; nobody else can step meanwhile, except for a
      spurious wakeup. */
  lemma WaitEnds(r: seq<System>, steps: seq<Step>, i: nat, opens: bool)
    requires Run(r, steps) && i < |r| && Orderly(r, steps, i) && r[i].caller.SemWaiting? && r[i].d.sem == 0
    ensures Enabled(r[i], WriterGoes(opens)) && !GoesAgain(r[i], WriterGoes(opens))
    ensures var d := WriterStep(r[i].d, opens); d.sem > 0 || Distance(d) < Distance(r[i].d)
    ensures forall step :: Enabled(r[i], step) ==> step.WriterGoes? || step.SpuriousWake?
  {
    hide Inv, Run, Orderly;
    OrderlyInv(r, steps, i);
    WaitNears(r[i], opens);
  }

  lemma WaitNears(s: System, opens: bool)
    requires Inv(s) && s.caller.SemWaiting? && s.d.sem == 0
    ensures Enabled(s, WriterGoes(opens)) && !GoesAgain(s, WriterGoes(opens))
    ensures var d := WriterStep(s.d, opens); d.sem > 0 || Distance(d) < Distance(s.d)
    ensures forall step :: Enabled(s, step) ==> step.WriterGoes? || step.SpuriousWake?
  {
  }

  // ---------------------------------------------------------------- what going again can do

  /** t is reached from s by these steps, each of them enabled when its turn comes. */
  ghost predicate Leads(s: System, steps: seq<Step>, t: System)
    decreases |steps|
  {
    if steps == [] then s == t
    else Enabled(s, steps[0]) && Leads(Apply(s, steps[0]), steps[1..], t)
  }

  lemma {:induction false} LeadsSnoc(s: System, steps: seq<Step>, t: System, step: Step)
    requires Leads(s, steps, t) && Enabled(t, step)
    ensures Leads(s, steps + [step], Apply(t, step))
    decreases |steps|
  {
    hide Apply;
    if steps != [] {
      LeadsSnoc(Apply(s, steps[0]), steps[1..], t, step);
      assert (steps + [step])[1..] == steps[1..] + [step];
    } else {
      assert ([step])[1..] == [];
    }
  }

  lemma {:induction false} LeadsRun(r: seq<System>, done: seq<Step>, steps: seq<Step>, t: System)
    returns (r': seq<System>)
    requires Run(r, done) && Leads(r[|done|], steps, t)
    ensures Run(r', done + steps) && r'[|done + steps|] == t
    decreases |steps|
  {
    hide Apply, Enabled;
    if steps == [] {
      assert done + steps == done;
      r' := r;
    } else {
      var s' := Apply(r[|done|], steps[0]);
      r' := LeadsRun(r + [s'], done + [steps[0]], steps[1..], t);
      assert done + [steps[0]] + steps[1..] == done + steps;
    }
  }

  /** Nobody in a request, and yet a post in the semaphore. */
  const POSTED := System(
    Duplicate(false, false, 1, true, Top, false, 2, 1, 0, 2), Route(true, false, false, false, false), Idle)

  /** Two failed opens before the caller looks leave a post behind: the semaphore is 1 between requests. */
  lemma ExtraPost() returns (steps: seq<Step>, t: System)
    ensures Leads(START, steps, t) && t == POSTED
  {
    hide Leads;
    steps, t := [], START;
    assert Leads(START, [], START) by { LeadsNothing(START); }
    steps, t := Take(steps, t, StartInput);
    steps, t := Take(steps, t, CallerGoes);
    steps, t := Take(steps, t, WriterGoes(false));
    steps, t := Take(steps, t, WriterGoes(false));
    steps, t := Take(steps, t, WriterGoes(false));
    steps, t := Take(steps, t, WriterGoes(false));
    steps, t := Take(steps, t, WriterGoes(false));
    steps, t := Take(steps, t, CallerGoes);
    steps, t := Take(steps, t, WriterGoes(false));
    steps, t := Take(steps, t, CallerGoes);
  }

  lemma LeadsNothing(s: System)
    ensures Leads(s, [], s)
  {
  }

  lemma Take(steps: seq<Step>, s: System, step: Step) returns (steps': seq<Step>, t: System)
    requires Leads(START, steps, s) && Enabled(s, step)
    ensures Leads(START, steps', t) && t == Apply(s, step)
  {
    LeadsSnoc(START, steps, s, step);
    steps', t := steps + [step], Apply(s, step);
  }

  /** From there a request returns before the zero-writer has closed, and the card has two owners. */
  lemma TwoOwners() returns (r: seq<System>, steps: seq<Step>)
    ensures Run(r, steps) && r[|steps|].d.zeroOpen && r[|steps|].r.outOpen
  {
    hide Leads, Run;
    var t;
    steps, t := ExtraPost();
    steps, t := Take(steps, t, StopInput);
    steps, t := Take(steps, t, CallerGoes);
    steps, t := Take(steps, t, CallerGoes);
    assert t.caller == Idle && t.r.inStandby && t.d.sem == 1;
    steps, t := Take(steps, t, StartInput);
    steps, t := Take(steps, t, CallerGoes);
    steps, t := Take(steps, t, WriterGoes(true));
    steps, t := Take(steps, t, WriterGoes(true));
    steps, t := Take(steps, t, WriterGoes(true));
    assert t.d == Duplicate(true, true, 2, false, Top, true, 3, 1, 1, 2);
    steps, t := TwoOwnersFrom(steps, t);
    r := LeadsRun([START], [], steps, t) by { assert Run([START], []) by { RunNothing(); } }
    assert [] + steps == steps;
  }

  lemma RunNothing()
    ensures Run([START], [])
  {
  }

  lemma TwoOwnersFrom(steps0: seq<Step>, t0: System) returns (steps: seq<Step>, t: System)
    requires Leads(START, steps0, t0) && t0.caller == SemWaiting(true, InputStarted)
    requires t0.d.sem == 2 && t0.d.zeroOpen && t0.d.dupCount && !t0.d.openFail && t0.d.writer == Top
    requires t0.r.uplink && t0.r.activeInput && !t0.r.outOpen
    ensures Leads(START, steps, t) && t.d.zeroOpen && t.r.outOpen
  {
    hide Leads;
    steps, t := Take(steps0, t0, CallerGoes);
    steps, t := Take(steps, t, CallerGoes);
    steps, t := Take(steps, t, StartOutput);
    steps, t := Take(steps, t, CallerGoes);
    assert t.caller == SemWaiting(false, OpenOutput) && t.d.sem == 1;
    steps, t := Take(steps, t, CallerGoes);
    steps, t := Take(steps, t, CallerGoes);
    steps, t := Take(steps, t, CallerGoes);
    steps, t := Take(steps, t, CallerGoes);
  }
}
