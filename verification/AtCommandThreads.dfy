/** Pushing threads and the one draining thread around the command queue and its semaphore. */
module AtCommandThreads {
  import opened AtCommandQueue

  /** The draining thread blocks on the semaphore, is past it, or is sending what it copied. */
  datatype Drainer = Waiting | Woken | Sending(queue: seq<Sent>)

  /** pending and batches record the pushes since the last copy and those of each earlier copy;
      posting counts pushers between releasing the lock and posting the semaphore. */
  datatype System = System(
    v: Vectors, sem: nat, posting: nat, drainer: Drainer,
    pending: seq<Push>, batches: seq<seq<Push>>, wakes: nat, sent: seq<Sent>)

  const START := System(CLEAN, 0, 0, Waiting, [], [], 0, [])

  /** A pusher's critical section. */
  ghost predicate PushStep(s: System, p: Push, s': System) {
    WellFormed(s.v) && ValidPush(p)
    && s' == s.(v := PushOn(s.v, p), pending := s.pending + [p], posting := s.posting + 1)
  }

  /** voice_command_signal, after the lock has been released. */
  ghost predicate PostStep(s: System, s': System) {
    s.posting > 0 && s' == s.(posting := s.posting - 1, sem := s.sem + 1)
  }

  /** sem_wait returns. */
  ghost predicate WakeStep(s: System, s': System) {
    s.drainer == Waiting && s.sem > 0
    && s' == s.(sem := s.sem - 1, drainer := Woken, wakes := s.wakes + 1)
  }

  /** The critical section of do_cmd_dual: copy and clear, unless nothing is dirty. */
  ghost predicate CopyStep(s: System, s': System) {
    s.drainer == Woken && WellFormed(s.v)
    && s' == if s.v.dirty == {} then s.(drainer := Sending([]))
             else s.(drainer := Sending(Sends(s.v)), v := CLEAN, pending := [], batches := s.batches + [s.pending])
  }

  ghost predicate SendStep(s: System, s': System) {
    s.drainer.Sending? && s.drainer.queue != []
    && s' == s.(sent := s.sent + [s.drainer.queue[0]], drainer := Sending(s.drainer.queue[1..]))
  }

  ghost predicate LoopStep(s: System, s': System) {
    s.drainer == Sending([]) && s' == s.(drainer := Waiting)
  }

  ghost predicate Next(s: System, s': System) {
    || (exists p :: PushStep(s, p, s'))
    || PostStep(s, s')
    || WakeStep(s, s')
    || CopyStep(s, s')
    || SendStep(s, s')
    || LoopStep(s, s')
  }

  function InFlight(s: System): seq<Sent> {
    if s.drainer.Sending? then s.drainer.queue else []
  }

  /** What the drains of the given batches send, one after the other. */
  ghost function AllSends(batches: seq<seq<Push>>): seq<Sent>
    requires forall i :: 0 <= i < |batches| ==> ValidLog(batches[i])
  {
    if batches == [] then []
    else AllSends(batches[..|batches| - 1]) + Sends(After(batches[|batches| - 1]))
  }

  function TotalPushes(batches: seq<seq<Push>>): nat {
    if batches == [] then 0 else TotalPushes(batches[..|batches| - 1]) + |batches[|batches| - 1]|
  }

  ghost predicate Inv(s: System) {
    && ValidLog(s.pending)
    && (forall i :: 0 <= i < |s.batches| ==> ValidLog(s.batches[i]))
    && s.v == After(s.pending)
    && s.sent + InFlight(s) == AllSends(s.batches)
    && TotalPushes(s.batches) + |s.pending| == s.wakes + s.sem + s.posting
    && (s.pending != [] ==> s.sem > 0 || s.posting > 0 || s.drainer == Woken)
  }

  lemma DirtyIffPending(log: seq<Push>)
    requires ValidLog(log)
    ensures After(log).dirty == {} <==> log == []
  {
    if log != [] {
      assert log[|log| - 1].bit in After(log).dirty;
    }
  }

  lemma CopyKeepsInv(s: System, s': System)
    requires Inv(s) && CopyStep(s, s')
    ensures Inv(s')
  {
    hide Sends, PushOn;
    DirtyIffPending(s.pending);
    if s.pending != [] {
      assert s'.batches[..|s.batches|] == s.batches;
      assert AllSends(s'.batches) == AllSends(s.batches) + Sends(After(s.pending));
    }
    hide AllSends;
  }

  lemma PushKeepsInv(s: System, p: Push, s': System)
    requires Inv(s) && PushStep(s, p, s')
    ensures Inv(s')
  {
    hide Sends, AllSends, PushOn;
    assert s'.pending[..|s.pending|] == s.pending;
  }

  lemma SendKeepsInv(s: System, s': System)
    requires Inv(s) && SendStep(s, s')
    ensures Inv(s')
  {
    hide Sends, AllSends, After;
    var q := s.drainer.queue;
    assert s.sent + q == (s.sent + [q[0]]) + q[1..];
  }

  lemma SignalKeepsInv(s: System, s': System)
    requires Inv(s) && (PostStep(s, s') || WakeStep(s, s') || LoopStep(s, s'))
    ensures Inv(s')
  {
    hide Sends, AllSends, After;
  }

  lemma NextKeepsInv(s: System, s': System)
    requires Inv(s) && Next(s, s')
    ensures Inv(s')
  {
    hide Inv, CopyStep, PushStep, SendStep, PostStep, WakeStep, LoopStep;
    if CopyStep(s, s') {
      CopyKeepsInv(s, s');
    } else if exists p :: PushStep(s, p, s') {
      var p :| PushStep(s, p, s');
      PushKeepsInv(s, p, s');
    } else if SendStep(s, s') {
      SendKeepsInv(s, s');
    } else {
      SignalKeepsInv(s, s');
    }
  }

  /** A run of any length, in any interleaving. */
  ghost predicate Run(r: seq<System>) {
    r != [] && r[0] == START && forall i :: 0 <= i < |r| - 1 ==> Next(r[i], r[i + 1])
  }

  lemma {:induction false} RunKeepsInv(r: seq<System>, i: nat)
    requires Run(r) && i < |r|
    ensures Inv(r[i])
  {
    if i > 0 {
      RunKeepsInv(r, i - 1);
      NextKeepsInv(r[i - 1], r[i]);
    }
  }

  /** No wakeup is lost: in every reachable state with a command pending, the semaphore is positive,
      a pusher is about to post it, or the drainer has been woken and not yet copied. */
  lemma NoLostWakeup(r: seq<System>, i: nat)
    requires Run(r) && i < |r|
    ensures r[i].v.dirty != {} ==> r[i].sem > 0 || r[i].posting > 0 || r[i].drainer == Woken
  {
    RunKeepsInv(r, i);
    DirtyIffPending(r[i].pending);
  }

  /** What the modem should see of the given batches. */
  ghost function AllDelivered(batches: seq<seq<Push>>): seq<Sent> {
    if batches == [] then []
    else
      var b := batches[|batches| - 1];
      AllDelivered(batches[..|batches| - 1]) + Deliver(Latest(b), LastDevice(b))
  }

  lemma {:induction false} SendsAreDeliveries(batches: seq<seq<Push>>)
    requires forall i :: 0 <= i < |batches| ==> ValidLog(batches[i]) && |batches[i]| <= 255
    ensures AllSends(batches) == AllDelivered(batches)
  {
    if batches != [] {
      hide Sends, Deliver;
      SendsAreDeliveries(batches[..|batches| - 1]);
      DrainSendsLatest(batches[|batches| - 1]);
    }
  }

  /** In every run with at most 255 pushes between copies, what has been sent and what is being sent
      is the newest command of each slot of each batch, batch by batch. */
  lemma SentIsLatest(r: seq<System>, i: nat)
    requires Run(r) && i < |r|
    requires forall k :: 0 <= k < |r[i].batches| ==> |r[i].batches[k]| <= 255
    ensures r[i].sent + InFlight(r[i]) == AllDelivered(r[i].batches)
  {
    RunKeepsInv(r, i);
    SendsAreDeliveries(r[i].batches);
  }

  /** Once every pusher has posted and the drainer is back at an empty semaphore, nothing is left over,
      and the semaphore was taken once per push. */
  lemma QuiescentMeansDelivered(r: seq<System>, i: nat)
    requires Run(r) && i < |r|
    requires r[i].sem == 0 && r[i].posting == 0 && r[i].drainer == Waiting
    requires forall k :: 0 <= k < |r[i].batches| ==> |r[i].batches[k]| <= 255
    ensures r[i].v == CLEAN && r[i].pending == []
    ensures r[i].sent == AllDelivered(r[i].batches)
    ensures r[i].wakes == TotalPushes(r[i].batches)
  {
    RunKeepsInv(r, i);
    SentIsLatest(r, i);
  }

  // ---------------------------------------------------------------- the drainer comes back

  /** Whatever step anybody takes, the drainer stays where it is or does what is next: it is woken by a unit of the
      semaphore, copies, sends its copies one by one in order, and waits again when none is left. */
  ghost predicate DrainerMoves(s: System, s': System)
    requires WellFormed(s.v)
  {
    match s.drainer
    case Waiting => s'.drainer == Waiting || (s'.drainer == Woken && s.sem == s'.sem + 1)
    case Woken =>
      s'.drainer == Woken || s'.drainer == Sending(if s.v.dirty == {} then [] else Sends(s.v))
    case Sending(q) =>
      || (s'.drainer == s.drainer && s'.sent == s.sent)
      || (q != [] && s'.drainer == Sending(q[1..]) && s'.sent == s.sent + [q[0]])
      || (q == [] && s'.drainer == Waiting && s'.sent == s.sent)
  }

  lemma RunMovesDrainer(r: seq<System>, i: nat)
    requires Run(r) && i + 1 < |r|
    ensures WellFormed(r[i].v) && DrainerMoves(r[i], r[i + 1])
  {
    hide Inv, Sends, PushOn, After;
    RunKeepsInv(r, i);
    WellFormedBy(r[i]);
    assert Next(r[i], r[i + 1]);
  }

  ghost predicate Path(r: seq<System>) {
    r != [] && forall i :: 0 <= i < |r| - 1 ==> Next(r[i], r[i + 1])
  }

  lemma PathCons(s: System, r: seq<System>)
    requires Path(r) && Next(s, r[0])
    ensures Path([s] + r) && ([s] + r)[|r|] == r[|r| - 1]
  {
    hide Next;
    var all := [s] + r;
    forall i | 0 <= i < |all| - 1
      ensures Next(all[i], all[i + 1])
    {
      assert i > 0 ==> all[i] == r[i - 1] && all[i + 1] == r[i];
    }
  }

  predicate Quiescent(s: System) {
    s.sem == 0 && s.posting == 0 && s.drainer == Waiting
  }

  /** How many pushes there have been. */
  function Pushed(s: System): nat {
    TotalPushes(s.batches) + |s.pending|
  }

  /** How far the drainer is from its next wait. */
  function Turn(d: Drainer): nat {
    match d
    case Waiting => 0
    case Sending(_) => 1
    case Woken => 2
  }

  /** The next thing to be done in a state that is not at rest. */
  lemma NextToDo(s: System) returns (s': System)
    requires Inv(s) && !Quiescent(s)
    ensures Next(s, s') && Inv(s') && Pushed(s') == Pushed(s) && s'.posting <= s.posting
    ensures s'.posting == s.posting ==> s'.sem <= s.sem
    ensures s'.posting == s.posting && s'.sem == s.sem ==> Turn(s'.drainer) <= Turn(s.drainer)
    ensures s'.posting == s.posting && s'.sem == s.sem && Turn(s'.drainer) == Turn(s.drainer) ==>
      |InFlight(s')| < |InFlight(s)|
  {
    hide Sends, PushOn, AllSends, After, Inv;
    if s.posting > 0 {
      s' := s.(posting := s.posting - 1, sem := s.sem + 1);
      assert PostStep(s, s');
    } else {
      match s.drainer
      case Waiting =>
        s' := s.(sem := s.sem - 1, drainer := Woken, wakes := s.wakes + 1);
        assert WakeStep(s, s');
      case Woken =>
        WellFormedBy(s);
        s' := if s.v.dirty == {} then s.(drainer := Sending([]))
              else s.(drainer := Sending(Sends(s.v)), v := CLEAN, pending := [], batches := s.batches + [s.pending]);
        assert CopyStep(s, s');
        CopyKeepsPushed(s, s');
      case Sending(q) =>
        if q == [] {
          s' := s.(drainer := Waiting);
          assert LoopStep(s, s');
        } else {
          s' := s.(sent := s.sent + [q[0]], drainer := Sending(q[1..]));
          assert SendStep(s, s');
        }
    }
    NextKeepsInv(s, s');
  }

  lemma WellFormedBy(s: System)
    requires Inv(s)
    ensures WellFormed(s.v)
    ensures s.posting == 0 && s.sem == 0 && s.drainer == Waiting ==> s.pending == []
  {
    hide Sends, AllSends;
  }

  lemma CopyKeepsPushed(s: System, s': System)
    requires Inv(s) && CopyStep(s, s')
    ensures Pushed(s') == Pushed(s)
  {
    hide Sends, AllSends, PushOn;
    DirtyIffPending(s.pending);
    hide After;
    assert s.v.dirty != {} ==> s'.batches[..|s.batches|] == s.batches;
  }

  lemma {:induction false} Settles(s: System) returns (r: seq<System>)
    requires Inv(s)
    ensures Path(r) && r[0] == s && Quiescent(r[|r| - 1]) && Pushed(r[|r| - 1]) == Pushed(s)
    decreases s.posting, s.sem, Turn(s.drainer), |InFlight(s)|
  {
    if Quiescent(s) {
      r := [s];
    } else {
      hide Inv, Next;
      var s' := NextToDo(s);
      r := Settles(s');
      PathCons(s, r);
      r := [s] + r;
    }
  }

  /** Every run can be continued, without another push, to a state at rest. */
  lemma CanSettle(r: seq<System>) returns (all: seq<System>)
    requires Run(r)
    ensures r <= all && Run(all) && Quiescent(all[|all| - 1])
    ensures Pushed(all[|all| - 1]) == Pushed(r[|r| - 1])
  {
    hide Inv, Next, Quiescent, Pushed;
    RunKeepsInv(r, |r| - 1);
    var rest := Settles(r[|r| - 1]);
    all := r + rest[1..];
    assert all[|all| - 1] == rest[|rest| - 1];
    forall i | 0 <= i < |all| - 1
      ensures Next(all[i], all[i + 1])
    {
      assert i >= |r| - 1 ==> all[i] == rest[i - |r| + 1] && all[i + 1] == rest[i - |r| + 2];
    }
  }

  // ---------------------------------------------------------------- the fate of a single push

  ghost predicate SupersededAt(log: seq<Push>, i: nat)
    requires i < |log|
  {
    exists j :: i < j < |log| && log[j].bit == log[i].bit
  }

  /** The positions of the surviving pushes, in order. */
  ghost function Survivors(log: seq<Push>, from: nat): seq<nat>
    requires from <= |log|
    decreases |log| - from
  {
    if from == |log| then []
    else (if SupersededAt(log, from) then [] else [from]) + Survivors(log, from + 1)
  }

  lemma {:induction false} SurvivorsExact(log: seq<Push>, from: nat)
    requires from <= |log|
    ensures forall i :: i in Survivors(log, from) <==> from <= i < |log| && !SupersededAt(log, i)
    ensures forall a, b :: 0 <= a < b < |Survivors(log, from)| ==> Survivors(log, from)[a] < Survivors(log, from)[b]
    decreases |log| - from
  {
    if from < |log| {
      hide SupersededAt;
      SurvivorsExact(log, from + 1);
      var rest := Survivors(log, from + 1);
      assert forall b :: 0 <= b < |rest| ==> rest[b] in rest;
    }
  }

  /** A push is delivered exactly once unless a later push to its slot supersedes it: the delivered
      pushes are those at the surviving positions, each position once, in order. */
  lemma {:induction false} LatestAreSurvivors(log: seq<Push>, from: nat)
    requires from <= |log|
    ensures |Latest(log[from..])| == |Survivors(log, from)|
    ensures forall k :: 0 <= k < |Survivors(log, from)| ==>
      from <= Survivors(log, from)[k] < |log| && Latest(log[from..])[k] == log[Survivors(log, from)[k]]
    decreases |log| - from
  {
    if from < |log| {
      hide Survivors, Latest, SupersededAt;
      LatestAreSurvivors(log, from + 1);
      SurvivorsStep(log, from);
    }
  }

  lemma SurvivorsStep(log: seq<Push>, from: nat)
    requires from < |log|
    ensures log[from..][1..] == log[from + 1..]
    ensures var l, rest, s := log[from..], Latest(log[from + 1..]), Survivors(log, from + 1);
      || (Latest(l) == rest && Survivors(log, from) == s)
      || (Latest(l) == [log[from]] + rest && Survivors(log, from) == [from] + s)
  {
    hide SupersededAt, Superseded;
    assert log[from..][1..] == log[from + 1..];
    SupersededShift(log, from);
  }

  lemma SupersededShift(log: seq<Push>, from: nat)
    requires from < |log|
    ensures Superseded(log[from..]) <==> SupersededAt(log, from)
  {
    var l := log[from..];
    if SupersededAt(log, from) {
      var j :| from < j < |log| && log[j].bit == log[from].bit;
      assert l[j - from].bit == l[0].bit;
    }
  }
}
