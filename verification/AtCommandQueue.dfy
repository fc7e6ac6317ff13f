/** The coalescing queue of modem commands: one slot per command type, the newest command wins. */
module AtCommandQueue {

  const MAX_AT_CMD_TYPE := 9
  const MAX_AT_CMD_LENGTH := 32
  const ROUTE_PREFIX := "AT+SSAM="

  /** What push_voice_command (no device) or push_route_command (with one) hands over. */
  datatype Push = Push(bit: nat, cmd: string, device: Device)
  datatype Device = NoDevice | ToDevice(dev: int)

  predicate ValidPush(p: Push) {
    p.bit < MAX_AT_CMD_TYPE && |p.cmd| < MAX_AT_CMD_LENGTH
  }

  /** The T_AT_CMD record; dirty is the set of bits set in at_cmd_dirty. */
  datatype Vectors = Vectors(cmd: seq<string>, priority: seq<nat>, dirty: set<nat>, routeDev: int)

  predicate WellFormed(v: Vectors) {
    && |v.cmd| == |v.priority| == MAX_AT_CMD_TYPE
    && (forall i :: 0 <= i < MAX_AT_CMD_TYPE ==> v.priority[i] < 256)
    && (forall b :: b in v.dirty ==> b < MAX_AT_CMD_TYPE)
  }

  /** A record of zero bytes. */
  const CLEAN := Vectors(["", "", "", "", "", "", "", "", ""], [0, 0, 0, 0, 0, 0, 0, 0, 0], {}, 0)

  /** The largest of the first n priorities. */
  function MaxPriority(pri: seq<nat>, n: nat): (m: nat)
    requires 0 < n <= |pri|
    ensures forall i :: 0 <= i < n ==> pri[i] <= m
    ensures exists i :: 0 <= i < n && pri[i] == m
  {
    if n == 1 then pri[0]
    else
      var m := MaxPriority(pri, n - 1);
      if m < pri[n - 1] then pri[n - 1] else m
  }

  /** One more than the largest priority, in the eight bits that process_priority returns. */
  function NextPriority(pri: seq<nat>): nat
    requires |pri| == MAX_AT_CMD_TYPE
  {
    (MaxPriority(pri, MAX_AT_CMD_TYPE) + 1) % 256
  }

  function PushOn(v: Vectors, p: Push): (v': Vectors)
    requires WellFormed(v) && ValidPush(p)
    ensures WellFormed(v')
  {
    Vectors(v.cmd[p.bit := p.cmd],
            v.priority[p.bit := NextPriority(v.priority)],
            v.dirty + {p.bit},
            if p.device.ToDevice? then p.device.dev else v.routeDev)
  }

  predicate ValidLog(log: seq<Push>) {
    forall i :: 0 <= i < |log| ==> ValidPush(log[i])
  }

  /** The record after a log of pushes onto a clean one. */
  function After(log: seq<Push>): (v: Vectors)
    requires ValidLog(log)
    ensures WellFormed(v)
  {
    if log == [] then CLEAN else PushOn(After(log[..|log| - 1]), log[|log| - 1])
  }

  // ---------------------------------------------------------------- draining

  /** The first of the slots below n with the largest priority. */
  function ArgMax(pri: seq<nat>, n: nat): (b: nat)
    requires 0 < n <= |pri|
    ensures b < n
    ensures forall i :: 0 <= i < n ==> pri[i] <= pri[b]
    ensures forall i :: 0 <= i < b ==> pri[i] < pri[b]
  {
    if n == 1 then 0
    else
      var b := ArgMax(pri, n - 1);
      if pri[b] < pri[n - 1] then n - 1 else b
  }

  /** The slots picked by k rounds of take-the-largest-and-zero-it. */
  function Select(pri: seq<nat>, k: nat): (picks: seq<nat>)
    requires |pri| == MAX_AT_CMD_TYPE
    ensures |picks| == k
    ensures forall i :: 0 <= i < k ==> picks[i] < MAX_AT_CMD_TYPE
    decreases k
  {
    if k == 0 then []
    else
      var b := ArgMax(pri, MAX_AT_CMD_TYPE);
      [b] + Select(pri[b := 0], k - 1)
  }

  function Reverse<T>(s: seq<T>): (r: seq<T>)
    ensures |r| == |s|
    ensures forall i :: 0 <= i < |s| ==> r[i] == s[|s| - 1 - i]
  {
    if s == [] then [] else [s[|s| - 1]] + Reverse(s[..|s| - 1])
  }

  /** A command as the modem receives it, with the routing device recorded for it. */
  datatype Sent = Sent(bit: nat, cmd: string, routeDev: int)

  function SendOf(v: Vectors, b: nat): Sent
    requires WellFormed(v) && b < MAX_AT_CMD_TYPE
  {
    Sent(b, v.cmd[b], if ROUTE_PREFIX <= v.cmd[b] then v.routeDev else 0)
  }

  function SendAll(v: Vectors, bits: seq<nat>): (out: seq<Sent>)
    requires WellFormed(v) && forall i :: 0 <= i < |bits| ==> bits[i] < MAX_AT_CMD_TYPE
    ensures |out| == |bits|
  {
    seq(|bits|, i requires 0 <= i < |bits| => SendOf(v, bits[i]))
  }

  /** The commands one drain sends, in order. */
  function Sends(v: Vectors): (out: seq<Sent>)
    requires WellFormed(v)
    ensures |out| == |v.dirty|
  {
    SendAll(v, Reverse(Select(v.priority, |v.dirty|)))
  }

  class AtCommands {
    const cmd: array<string>
    const priority: array<nat>
    var dirty: set<nat>
    var routeDev: int

    ghost predicate Valid()
      reads this, cmd, priority
    {
      && cmd.Length == priority.Length == MAX_AT_CMD_TYPE
      && WellFormed(View())
    }

    ghost function View(): Vectors
      reads this, cmd, priority
    {
      Vectors(cmd[..], priority[..], dirty, routeDev)
    }

    constructor ()
      ensures Valid() && View() == CLEAN && fresh(cmd) && fresh(priority)
    {
      cmd := new string[MAX_AT_CMD_TYPE](_ => "");
      priority := new nat[MAX_AT_CMD_TYPE](_ => 0);
      dirty := {};
      routeDev := 0;
    }

    method ProcessPriority() returns (pri: nat)
      requires Valid()
      ensures pri == NextPriority(priority[..])
    {
      var maxPriority := priority[0];
      for indx := 0 to priority.Length
        invariant maxPriority == MaxPriority(priority[..], if indx == 0 then 1 else indx)
      {
        if maxPriority < priority[indx] {
          maxPriority := priority[indx];
        }
      }
      pri := (maxPriority + 1) % 256;
    }

    method PushVoiceCommand(atCmd: string, bit: nat)
      requires Valid() && ValidPush(Push(bit, atCmd, NoDevice))
      modifies this, cmd, priority
      ensures Valid() && View() == PushOn(old(View()), Push(bit, atCmd, NoDevice))
    {
      dirty := dirty + {bit};
      cmd[bit] := atCmd;
      var pri := ProcessPriority();
      priority[bit] := pri;
    }

    method PushRouteCommand(atCmd: string, bit: nat, out: int)
      requires Valid() && ValidPush(Push(bit, atCmd, ToDevice(out)))
      modifies this, cmd, priority
      ensures Valid() && View() == PushOn(old(View()), Push(bit, atCmd, ToDevice(out)))
    {
      dirty := dirty + {bit};
      cmd[bit] := atCmd;
      routeDev := out;
      var pri := ProcessPriority();
      priority[bit] := pri;
    }

    /** do_cmd_dual: copy and clear the record, order its slots by repeated maximum, send in reverse. */
    method DoCmdDual() returns (out: seq<Sent>)
      requires Valid()
      modifies this, cmd, priority
      ensures Valid()
      ensures View() == if old(dirty) == {} then old(View()) else CLEAN
      ensures out == Sends(old(View()))
    {
      hide Select, Sends, SendAll;
      var dirtyCount := |dirty|;
      ghost var v := View();
      if dirtyCount == 0 {
        NothingToSend(v);
        return [];
      }
      var pri := new nat[MAX_AT_CMD_TYPE](_ => 0);
      var atCmd := new string[MAX_AT_CMD_TYPE](_ => "");
      forall i | 0 <= i < MAX_AT_CMD_TYPE { pri[i] := priority[i]; }
      forall i | 0 <= i < MAX_AT_CMD_TYPE { atCmd[i] := cmd[i]; }
      var device := routeDev;
      forall i | 0 <= i < MAX_AT_CMD_TYPE { priority[i] := 0; }
      forall i | 0 <= i < MAX_AT_CMD_TYPE { cmd[i] := ""; }
      dirty, routeDev := {}, 0;
      assert View() == CLEAN && pri[..] == v.priority && atCmd[..] == v.cmd;
      AtMostAllSlots(v.dirty);
      var cmdQueuePri := OrderByPriority(pri, dirtyCount);
      out := SendReversed(v, atCmd, device, cmdQueuePri, dirtyCount);
    }
  }

  method PickLargest(pri: array<nat>) returns (maxPriBit: nat)
    requires pri.Length == MAX_AT_CMD_TYPE
    ensures maxPriBit == ArgMax(pri[..], MAX_AT_CMD_TYPE)
  {
    var maxPri := pri[0];
    maxPriBit := 0;
    for indx := 0 to pri.Length
      invariant maxPriBit == ArgMax(pri[..], if indx == 0 then 1 else indx) && maxPri == pri[maxPriBit]
    {
      if maxPri < pri[indx] {
        maxPri, maxPriBit := pri[indx], indx;
      }
    }
  }

  lemma SelectStep(pri: seq<nat>, k: nat)
    requires |pri| == MAX_AT_CMD_TYPE && k > 0
    ensures Select(pri, k)[0] == ArgMax(pri, MAX_AT_CMD_TYPE)
    ensures Select(pri, k)[1..] == Select(pri[ArgMax(pri, MAX_AT_CMD_TYPE) := 0], k - 1)
  {
  }

  /** The selection loop of do_cmd_dual: repeatedly take the largest priority and zero it. */
  method OrderByPriority(pri: array<nat>, dirtyCount: nat) returns (cmdQueuePri: array<nat>)
    requires pri.Length == MAX_AT_CMD_TYPE && dirtyCount <= MAX_AT_CMD_TYPE
    modifies pri
    ensures fresh(cmdQueuePri) && cmdQueuePri.Length == MAX_AT_CMD_TYPE
    ensures cmdQueuePri[..dirtyCount] == Select(old(pri[..]), dirtyCount)
  {
    hide ArgMax, Select;
    ghost var picks := Select(pri[..], dirtyCount);
    cmdQueuePri := new nat[MAX_AT_CMD_TYPE](_ => 0);
    for dirtyIndx := 0 to dirtyCount
      invariant cmdQueuePri[..dirtyIndx] == picks[..dirtyIndx]
      invariant Select(pri[..], dirtyCount - dirtyIndx) == picks[dirtyIndx..]
    {
      var maxPriBit := PickLargest(pri);
      ghost var before := pri[..];
      pri[maxPriBit] := 0;
      assert pri[..] == before[maxPriBit := 0];
      SelectStep(before, dirtyCount - dirtyIndx);
      assert picks[dirtyIndx + 1..] == picks[dirtyIndx..][1..];
      cmdQueuePri[dirtyIndx] := maxPriBit;
    }
  }

  /** The sending loop of do_cmd_dual, on the copied record. */
  method SendReversed(ghost v: Vectors, atCmd: array<string>, device: int, cmdQueuePri: array<nat>, dirtyCount: nat)
    returns (out: seq<Sent>)
    requires WellFormed(v) && dirtyCount == |v.dirty| <= cmdQueuePri.Length
    requires atCmd[..] == v.cmd && device == v.routeDev
    requires cmdQueuePri[..dirtyCount] == Select(v.priority, dirtyCount)
    ensures out == Sends(v)
  {
    hide Select;
    ghost var picks := Select(v.priority, dirtyCount);
    out := [];
    for indx := 0 to dirtyCount
      invariant out == Sends(v)[..indx]
    {
      var cmdBit := cmdQueuePri[dirtyCount - indx - 1];
      assert cmdBit == picks[dirtyCount - indx - 1];
      var dev := if ROUTE_PREFIX <= atCmd[cmdBit] then device else 0;
      out := out + [Sent(cmdBit, atCmd[cmdBit], dev)];
    }
  }

  lemma NothingToSend(v: Vectors)
    requires WellFormed(v) && |v.dirty| == 0
    ensures Sends(v) == []
  {
  }

  lemma AtMostAllSlots(s: set<nat>)
    requires forall b :: b in s ==> b < MAX_AT_CMD_TYPE
    ensures |s| <= MAX_AT_CMD_TYPE
  {
    BoundedSetSize(s, MAX_AT_CMD_TYPE);
  }

  lemma {:induction false} BoundedSetSize(s: set<nat>, n: nat)
    requires forall b :: b in s ==> b < n
    ensures |s| <= n
  {
    if n > 0 {
      BoundedSetSize(s - {n - 1}, n - 1);
    } else {
      assert s == {};
    }
  }

  // ---------------------------------------------------------------- what a drain means

  /** Whether the first entry of the log is followed by a push to the same slot. */
  ghost predicate Superseded(log: seq<Push>)
    requires log != []
  {
    exists j :: 1 <= j < |log| && log[j].bit == log[0].bit
  }

  /** The log with every entry deleted that a later push to the same slot supersedes. */
  ghost function Latest(log: seq<Push>): (r: seq<Push>)
    ensures |r| <= |log|
  {
    if log == [] then []
    else if Superseded(log) then Latest(log[1..])
    else [log[0]] + Latest(log[1..])
  }

  function Bits(log: seq<Push>): (b: seq<nat>)
    ensures |b| == |log|
  {
    seq(|log|, i requires 0 <= i < |log| => log[i].bit)
  }

  function WithoutBit(log: seq<Push>, b: nat): seq<Push> {
    if log == [] then []
    else (if log[0].bit == b then [] else [log[0]]) + WithoutBit(log[1..], b)
  }

  lemma SupersededSnoc(log: seq<Push>, p: Push)
    requires log != []
    ensures Superseded(log + [p]) <==> Superseded(log) || p.bit == log[0].bit
  {
    var l := log + [p];
    if Superseded(log) {
      var j :| 1 <= j < |log| && log[j].bit == log[0].bit;
      assert l[j].bit == l[0].bit;
    }
    if p.bit == log[0].bit {
      assert l[|log|].bit == l[0].bit;
    }
  }

  /** One more push deletes the older entry of its slot and goes to the end. */
  lemma {:induction false} LatestSnoc(log: seq<Push>, p: Push)
    ensures Latest(log + [p]) == WithoutBit(Latest(log), p.bit) + [p]
  {
    if log == [] {
      assert Latest([p]) == [p] + Latest([]);
    } else {
      hide Superseded;
      LatestSnoc(log[1..], p);
      SupersededSnoc(log, p);
      assert (log + [p])[1..] == log[1..] + [p];
      if !Superseded(log) {
        assert Latest(log)[1..] == Latest(log[1..]);
      }
    }
  }

  ghost predicate DistinctBits(ls: seq<Push>) {
    forall i, j :: 0 <= i < j < |ls| ==> ls[i].bit != ls[j].bit
  }

  lemma {:induction false} WithoutBitMembers(ls: seq<Push>, b: nat)
    requires DistinctBits(ls)
    ensures forall x :: x in WithoutBit(ls, b) <==> x in ls && x.bit != b
    ensures DistinctBits(WithoutBit(ls, b))
  {
    if ls != [] {
      WithoutBitMembers(ls[1..], b);
      var w := WithoutBit(ls[1..], b);
      assert forall x :: x in ls <==> x == ls[0] || x in ls[1..];
      assert forall j :: 0 <= j < |w| ==> w[j] in ls[1..];
    }
  }

  /** Priorities above zero are never shared. */
  ghost predicate NonzeroDistinct(pri: seq<nat>) {
    forall i, j :: 0 <= i < j < |pri| && pri[i] == pri[j] ==> pri[i] == 0
  }

  /** How the record represents the surviving pushes ls. */
  ghost predicate Tracks(v: Vectors, ls: seq<Push>) {
    && WellFormed(v)
    && DistinctBits(ls)
    && (forall x :: x in ls ==> ValidPush(x) && x.bit in v.dirty && v.cmd[x.bit] == x.cmd)
    && (forall b :: b in v.dirty ==> exists x :: x in ls && x.bit == b)
    && (forall b :: 0 <= b < MAX_AT_CMD_TYPE && b !in v.dirty ==> v.priority[b] == 0 && v.cmd[b] == "")
    && NonzeroDistinct(v.priority)
  }

  lemma NextPriorityDistinct(pri: seq<nat>, b: nat)
    requires |pri| == MAX_AT_CMD_TYPE && NonzeroDistinct(pri) && b < MAX_AT_CMD_TYPE
    requires forall i :: 0 <= i < |pri| ==> pri[i] < 256
    ensures NonzeroDistinct(pri[b := NextPriority(pri)])
  {
    assert MaxPriority(pri, MAX_AT_CMD_TYPE) < 256;
  }

  lemma TracksPush(v: Vectors, ls: seq<Push>, p: Push)
    requires Tracks(v, ls) && ValidPush(p)
    ensures Tracks(PushOn(v, p), WithoutBit(ls, p.bit) + [p])
  {
    hide NextPriority, NonzeroDistinct;
    var w, v' := WithoutBit(ls, p.bit), PushOn(v, p);
    WithoutBitMembers(ls, p.bit);
    NextPriorityDistinct(v.priority, p.bit);
    hide WithoutBit;
    DistinctSnoc(w, p);
    forall b | b in v'.dirty ensures exists x :: x in w + [p] && x.bit == b {
      if b == p.bit {
        assert p in w + [p];
      } else {
        var x :| x in ls && x.bit == b;
        assert x in w;
      }
    }
  }

  lemma DistinctSnoc(w: seq<Push>, p: Push)
    requires DistinctBits(w) && forall x :: x in w ==> x.bit != p.bit
    ensures DistinctBits(w + [p])
  {
    assert forall i :: 0 <= i < |w| ==> w[i] in w;
  }

  lemma AfterSnoc(log: seq<Push>)
    requires ValidLog(log) && log != []
    ensures var l, p := log[..|log| - 1], log[|log| - 1];
      log == l + [p] && ValidLog(l) && ValidPush(p) && After(log) == PushOn(After(l), p)
  {
  }

  lemma NothingTracked()
    ensures Tracks(After([]), Latest([]))
  {
  }

  lemma {:induction false} AfterTracks(log: seq<Push>)
    requires ValidLog(log)
    ensures Tracks(After(log), Latest(log))
  {
    if log == [] {
      NothingTracked();
    } else {
      hide *;
      var l, p := log[..|log| - 1], log[|log| - 1];
      AfterSnoc(log);
      AfterTracks(l);
      TracksPush(After(l), Latest(l), p);
      LatestSnoc(l, p);
    }
  }

  /** The dirty bits are those of the pushes. */
  ghost predicate Covers(dirty: set<nat>, ls: seq<Push>) {
    && (forall x :: x in ls ==> x.bit in dirty)
    && (forall b :: b in dirty ==> exists x :: x in ls && x.bit == b)
  }

  lemma CoversTail(dirty: set<nat>, ls: seq<Push>)
    requires DistinctBits(ls) && Covers(dirty, ls) && ls != []
    ensures ls[0].bit in dirty && DistinctBits(ls[1..]) && Covers(dirty - {ls[0].bit}, ls[1..])
  {
    forall x | x in ls[1..] ensures x.bit in dirty && x.bit != ls[0].bit {
      var i :| 1 <= i < |ls| && ls[i] == x;
    }
    forall b | b in dirty && b != ls[0].bit ensures exists x :: x in ls[1..] && x.bit == b {
      var x :| x in ls && x.bit == b;
      assert x in ls[1..];
    }
  }

  lemma {:induction false} TracksSize(dirty: set<nat>, ls: seq<Push>)
    requires DistinctBits(ls) && Covers(dirty, ls)
    ensures |dirty| == |ls|
  {
    if ls == [] {
      assert dirty == {};
    } else {
      hide Covers, DistinctBits;
      CoversTail(dirty, ls);
      TracksSize(dirty - {ls[0].bit}, ls[1..]);
    }
  }

  /** Priorities rise along the order, and only slot 0 may have priority zero. */
  ghost predicate Ordered(pri: seq<nat>, order: seq<nat>) {
    && (forall i :: 0 <= i < |order| ==> order[i] < |pri|)
    && (forall i, j :: 0 <= i < j < |order| ==> pri[order[i]] < pri[order[j]])
    && (order != [] ==> pri[order[0]] > 0 || order[0] == 0)
  }

  ghost predicate Selectable(pri: seq<nat>, order: seq<nat>) {
    && |pri| == MAX_AT_CMD_TYPE
    && (forall i :: 0 <= i < |order| ==> order[i] < MAX_AT_CMD_TYPE)
    && (forall i, j :: 0 <= i < j < |order| ==> order[i] != order[j])
    && (forall b :: 0 <= b < MAX_AT_CMD_TYPE && b !in order ==> pri[b] == 0)
    && NonzeroDistinct(pri)
  }

  lemma SelectableRest(pri: seq<nat>, order: seq<nat>)
    requires Selectable(pri, order) && order != []
    ensures Selectable(pri[order[|order| - 1] := 0], order[..|order| - 1])
  {
    var n := |order| - 1;
    assert forall b :: b in order <==> b in order[..n] || b == order[n];
  }

  lemma LargestIsLast(pri: seq<nat>, order: seq<nat>)
    requires Selectable(pri, order) && order != [] && Ordered(pri, order)
    ensures ArgMax(pri, MAX_AT_CMD_TYPE) == order[|order| - 1]
    ensures Ordered(pri[order[|order| - 1] := 0], order[..|order| - 1])
  {
    hide ArgMax, NonzeroDistinct;
    var n := |order| - 1;
    var b := ArgMax(pri, MAX_AT_CMD_TYPE);
    assert pri[order[n]] <= pri[b];
    assert b in order by {
      if pri[b] == 0 {
        assert b == 0;
        assert pri[order[0]] == 0;
      }
    }
    assert forall i :: 0 <= i < n ==> pri[order[i]] < pri[order[n]];
    var i :| 0 <= i <= n && order[i] == b;
  }

  lemma ReverseSnoc(s: seq<nat>)
    requires s != []
    ensures Reverse(s) == [s[|s| - 1]] + Reverse(s[..|s| - 1])
  {
  }

  lemma LastAboveRest(pri: seq<nat>, order: seq<nat>)
    requires Selectable(pri, order) && order != []
    requires ArgMax(pri, MAX_AT_CMD_TYPE) == order[|order| - 1]
    requires Ordered(pri[order[|order| - 1] := 0], order[..|order| - 1])
    ensures Ordered(pri, order)
  {
    var n := |order| - 1;
    var last := order[n];
    var pri', rest := pri[last := 0], order[..n];
    assert last > 0 ==> pri[0] < pri[last];
    RestUnchanged(pri, order);
    hide ArgMax, Selectable;
    if n > 0 {
      assert pri[order[0]] <= pri[last];
      forall i | 0 <= i < n ensures pri[order[i]] < pri[last] {
        assert i < n - 1 ==> pri'[rest[i]] < pri'[rest[n - 1]];
        assert pri[order[i]] <= pri[order[n - 1]] < pri[last];
      }
    }
  }

  lemma RestUnchanged(pri: seq<nat>, order: seq<nat>)
    requires Selectable(pri, order) && order != []
    ensures var n := |order| - 1; var last := order[n];
      && last < |pri| == MAX_AT_CMD_TYPE
      && (forall i :: 0 <= i < n ==> order[i] < |pri| && order[..n][i] == order[i] && pri[last := 0][order[i]] == pri[order[i]])
      && (forall i :: 0 <= i < n && pri[order[i]] == pri[last] ==> pri[last] == 0)
  {
    var n := |order| - 1;
    forall i | 0 <= i < n && pri[order[i]] == pri[order[n]]
      ensures pri[order[n]] == 0
    {
      var a, b := order[i], order[n];
      assert a < b || b < a;
    }
  }

  /** Repeated maximum picks the slots newest first exactly when the priorities are in order. */
  lemma {:induction false} SelectsInOrder(pri: seq<nat>, order: seq<nat>)
    requires Selectable(pri, order)
    ensures Select(pri, |order|) == Reverse(order) <==> Ordered(pri, order)
    decreases order
  {
    if order != [] {
      hide Selectable, Ordered, ArgMax, Select, Reverse;
      assert forall i :: 0 <= i < |order| ==> order[i] < |pri| by { SelectableInRange(pri, order); }
      var n := |order| - 1;
      var b, last := ArgMax(pri, MAX_AT_CMD_TYPE), order[n];
      ReverseSnoc(order);
      SelectStep(pri, n + 1);
      SelectableRest(pri, order);
      SelectsInOrder(pri[last := 0], order[..n]);
      var picks := Select(pri, n + 1);
      assert picks == [b] + picks[1..];
      assert picks == Reverse(order) <==> b == last && picks[1..] == Reverse(order[..n]);
      if Ordered(pri, order) {
        LargestIsLast(pri, order);
      }
      if picks == Reverse(order) {
        LastAboveRest(pri, order);
      }
    }
  }

  lemma SelectableInRange(pri: seq<nat>, order: seq<nat>)
    requires Selectable(pri, order)
    ensures |pri| == MAX_AT_CMD_TYPE && forall i :: 0 <= i < |order| ==> order[i] < |pri|
  {
  }

  /** The device of the newest push that carried one. */
  function LastDevice(log: seq<Push>): int {
    if log == [] then 0
    else
      match log[|log| - 1].device
      case ToDevice(d) => d
      case NoDevice => LastDevice(log[..|log| - 1])
  }

  /** What the modem ought to receive: the surviving pushes, in order, each with the routing device. */
  function Deliver(ls: seq<Push>, dev: int): (out: seq<Sent>)
    ensures |out| == |ls|
  {
    seq(|ls|, i requires 0 <= i < |ls| => Sent(ls[i].bit, ls[i].cmd, if ROUTE_PREFIX <= ls[i].cmd then dev else 0))
  }

  lemma {:induction false} AfterDevice(log: seq<Push>)
    requires ValidLog(log)
    ensures After(log).routeDev == LastDevice(log)
  {
    if log != [] {
      AfterDevice(log[..|log| - 1]);
    }
  }

  /** Whether the record after a log of pushes is in order. */
  ghost predicate InOrder(log: seq<Push>)
    requires ValidLog(log)
  {
    Ordered(After(log).priority, Bits(Latest(log)))
  }

  lemma TracksSelectable(v: Vectors, ls: seq<Push>)
    requires Tracks(v, ls)
    ensures Selectable(v.priority, Bits(ls))
  {
    hide NonzeroDistinct;
    var order := Bits(ls);
    assert forall i :: 0 <= i < |ls| ==> ls[i] in ls;
    forall b | b in v.dirty ensures b in order {
      var x :| x in ls && x.bit == b;
      var i :| 0 <= i < |ls| && ls[i] == x;
      assert order[i] == b;
    }
  }

  lemma SendAllDelivers(v: Vectors, ls: seq<Push>, bits: seq<nat>)
    requires Tracks(v, ls) && |bits| == |ls| && forall i :: 0 <= i < |bits| ==> bits[i] < MAX_AT_CMD_TYPE
    ensures SendAll(v, bits) == Deliver(ls, v.routeDev) <==> bits == Bits(ls)
  {
    hide NonzeroDistinct;
    var out := SendAll(v, bits);
    assert forall i :: 0 <= i < |ls| ==> ls[i] in ls;
    assert forall i :: 0 <= i < |ls| && bits[i] == ls[i].bit ==> out[i] == Deliver(ls, v.routeDev)[i];
    assert forall i :: 0 <= i < |ls| ==> out[i].bit == bits[i] && Deliver(ls, v.routeDev)[i].bit == Bits(ls)[i];
  }

  lemma ReverseReverse(s: seq<nat>, t: seq<nat>)
    requires |s| == |t|
    ensures Reverse(s) == t <==> s == Reverse(t)
  {
    assert forall i :: 0 <= i < |s| ==> s[i] == Reverse(s)[|s| - 1 - i];
    assert forall i :: 0 <= i < |t| ==> t[i] == Reverse(t)[|t| - 1 - i];
  }

  /** A drain sends the newest command of every pushed slot, in order of last push, exactly when the
      priorities rise in that order and no slot but 0 has wrapped to priority zero. */
  lemma DrainExact(log: seq<Push>)
    requires ValidLog(log)
    ensures Sends(After(log)) == Deliver(Latest(log), LastDevice(log)) <==> InOrder(log)
  {
    hide Select, Ordered, Tracks, Deliver, SendAll, Selectable;
    var v, ls := After(log), Latest(log);
    AfterTracks(log);
    AfterDevice(log);
    assert |v.dirty| == |ls| by { TracksCount(v, ls); }
    TracksSelectable(v, ls);
    SelectsInOrder(v.priority, Bits(ls));
    var picks := Select(v.priority, |ls|);
    ReverseReverse(picks, Bits(ls));
    SendAllDelivers(v, ls, Reverse(picks));
  }

  lemma TracksCount(v: Vectors, ls: seq<Push>)
    requires Tracks(v, ls)
    ensures |v.dirty| == |ls|
  {
    TracksSize(v.dirty, ls);
  }

  /** A push keeps a record in order exactly when the largest priority has not reached 255,
      except that slot 0 alone may wrap. */
  lemma PushKeepsOrder(log: seq<Push>, p: Push)
    requires ValidLog(log) && ValidPush(p) && InOrder(log)
    ensures InOrder(log + [p])
       <==> MaxPriority(After(log).priority, MAX_AT_CMD_TYPE) < 255 || (p.bit == 0 && Latest(log + [p]) == [p])
  {
    var v, ls := After(log), Latest(log);
    var w := WithoutBit(ls, p.bit);
    AfterTracks(log);
    LatestSnoc(log, p);
    assert (log + [p])[..|log|] == log;
    WithoutOrdered(v.priority, ls, p.bit);
    WithoutBitKeeps(ls, p.bit);
    PushOrdered(v.priority, w, p);
  }

  lemma OrderedTail(pri: seq<nat>, ls: seq<Push>)
    requires ls != [] && Ordered(pri, Bits(ls))
    ensures Ordered(pri, Bits(ls[1..])) && ls[0].bit < |pri| && (pri[ls[0].bit] > 0 || ls[0].bit == 0)
    ensures forall x :: x in ls[1..] ==> x.bit < |pri| && pri[ls[0].bit] < pri[x.bit]
  {
    var order, tail := Bits(ls), ls[1..];
    assert forall i :: 0 <= i < |tail| ==> Bits(tail)[i] == order[i + 1];
    forall x | x in tail ensures x.bit < |pri| && pri[ls[0].bit] < pri[x.bit] {
      var i :| 0 <= i < |tail| && tail[i] == x;
      assert order[i + 1] == x.bit;
    }
  }

  lemma BitsCons(x: Push, w: seq<Push>)
    ensures Bits([x] + w) == [x.bit] + Bits(w)
  {
  }

  lemma OrderedCons(pri: seq<nat>, x: Push, w: seq<Push>)
    requires Ordered(pri, Bits(w)) && x.bit < |pri| && (pri[x.bit] > 0 || x.bit == 0)
    requires forall y :: y in w ==> y.bit < |pri| && pri[x.bit] < pri[y.bit]
    ensures Ordered(pri, Bits([x] + w))
  {
    BitsCons(x, w);
    var order := Bits(w);
    assert forall i :: 0 <= i < |w| ==> w[i] in w && order[i] == w[i].bit;
    hide Bits;
    LowestFirst(pri, x.bit, order);
  }

  lemma LowestFirst(pri: seq<nat>, b: nat, order: seq<nat>)
    requires Ordered(pri, order) && b < |pri| && (pri[b] > 0 || b == 0)
    requires forall i :: 0 <= i < |order| ==> order[i] < |pri| && pri[b] < pri[order[i]]
    ensures Ordered(pri, [b] + order)
  {
    var all := [b] + order;
    assert forall i :: 1 <= i < |all| ==> all[i] == order[i - 1];
  }

  lemma {:induction false} WithoutBitKeeps(ls: seq<Push>, b: nat)
    ensures forall x :: x in WithoutBit(ls, b) ==> x in ls && x.bit != b
  {
    if ls != [] {
      WithoutBitKeeps(ls[1..], b);
    }
  }

  lemma {:induction false} WithoutOrdered(pri: seq<nat>, ls: seq<Push>, b: nat)
    requires Ordered(pri, Bits(ls))
    ensures Ordered(pri, Bits(WithoutBit(ls, b)))
  {
    if ls != [] {
      hide Ordered, Bits;
      OrderedTail(pri, ls);
      WithoutOrdered(pri, ls[1..], b);
      if ls[0].bit == b {
        assert WithoutBit(ls, b) == WithoutBit(ls[1..], b);
      } else {
        WithoutBitKeeps(ls[1..], b);
        OrderedCons(pri, ls[0], WithoutBit(ls[1..], b));
      }
    }
  }

  /** Another slot may follow an order exactly if its priority is above those of the others. */
  lemma HighestLast(pri: seq<nat>, order: seq<nat>, b: nat)
    requires b < |pri| && Ordered(pri, order)
    ensures Ordered(pri, order + [b])
       <==> (forall i :: 0 <= i < |order| ==> pri[order[i]] < pri[b]) && (order == [] ==> pri[b] > 0 || b == 0)
  {
    var all := order + [b];
    assert forall i :: 0 <= i < |order| ==> all[i] == order[i];
    if Ordered(pri, all) {
      forall i | 0 <= i < |order| ensures pri[order[i]] < pri[b] {
        assert pri[all[i]] < pri[all[|order|]];
      }
    }
  }

  lemma OrderedElsewhere(pri: seq<nat>, order: seq<nat>, b: nat, x: nat)
    requires Ordered(pri, order) && b < |pri| && b !in order
    ensures Ordered(pri[b := x], order)
    ensures forall i :: 0 <= i < |order| ==> pri[b := x][order[i]] == pri[order[i]]
  {
  }

  lemma NextIsHigher(pri: seq<nat>)
    requires |pri| == MAX_AT_CMD_TYPE && forall i :: 0 <= i < |pri| ==> pri[i] < 256
    ensures MaxPriority(pri, MAX_AT_CMD_TYPE) < 255 ==> NextPriority(pri) > 0 && forall i :: 0 <= i < |pri| ==> pri[i] < NextPriority(pri)
    ensures MaxPriority(pri, MAX_AT_CMD_TYPE) >= 255 ==> NextPriority(pri) == 0
  {
  }

  lemma PushOrdered(pri: seq<nat>, w: seq<Push>, p: Push)
    requires |pri| == MAX_AT_CMD_TYPE && p.bit < MAX_AT_CMD_TYPE && Ordered(pri, Bits(w))
    requires forall i :: 0 <= i < |pri| ==> pri[i] < 256
    requires forall x :: x in w ==> x.bit != p.bit
    ensures Ordered(pri[p.bit := NextPriority(pri)], Bits(w + [p]))
       <==> MaxPriority(pri, MAX_AT_CMD_TYPE) < 255 || (p.bit == 0 && w == [])
  {
    var order, next := Bits(w), NextPriority(pri);
    assert forall i :: 0 <= i < |w| ==> w[i] in w && order[i] == w[i].bit;
    assert Bits(w + [p]) == order + [p.bit];
    NextIsHigher(pri);
    InRange(pri, order);
    OrderedElsewhere(pri, order, p.bit, next);
    hide MaxPriority, NextPriority, Ordered, Bits;
    HighestLast(pri[p.bit := next], order, p.bit);
    if order != [] {
      assert pri[p.bit := next][order[0]] == pri[order[0]];
    }
  }

  lemma InRange(pri: seq<nat>, order: seq<nat>)
    requires Ordered(pri, order)
    ensures forall i :: 0 <= i < |order| ==> order[i] < |pri|
  {
  }

  lemma MaxUnique(pri: seq<nat>, m: nat, b: nat)
    requires |pri| == MAX_AT_CMD_TYPE && b < MAX_AT_CMD_TYPE && pri[b] == m
    requires forall i :: 0 <= i < |pri| ==> pri[i] <= m
    ensures MaxPriority(pri, MAX_AT_CMD_TYPE) == m
  {
  }

  /** The position, counted from 1, of the last push to slot b; 0 if there is none. */
  function LastPosition(log: seq<Push>, b: nat): nat {
    if log == [] then 0
    else if log[|log| - 1].bit == b then |log|
    else LastPosition(log[..|log| - 1], b)
  }

  lemma PushPriorities(v: Vectors, p: Push, n: nat)
    requires WellFormed(v) && ValidPush(p) && MaxPriority(v.priority, MAX_AT_CMD_TYPE) == n < 255
    ensures PushOn(v, p).priority == v.priority[p.bit := n + 1]
    ensures MaxPriority(PushOn(v, p).priority, MAX_AT_CMD_TYPE) == n + 1
  {
    hide MaxPriority;
    MaxUnique(v.priority[p.bit := n + 1], n + 1, p.bit);
  }

  /** Within 255 pushes the priority of a slot is the log position of its last push. */
  lemma {:induction false} PriorityIsPosition(log: seq<Push>, b: nat)
    requires ValidLog(log) && |log| <= 255 && b < MAX_AT_CMD_TYPE
    ensures After(log).priority[b] == LastPosition(log, b)
    ensures MaxPriority(After(log).priority, MAX_AT_CMD_TYPE) == |log|
  {
    hide MaxPriority, PushOn;
    if log == [] {
      MaxUnique(CLEAN.priority, 0, 0);
    } else {
      var l, p := log[..|log| - 1], log[|log| - 1];
      PriorityIsPosition(l, b);
      PushPriorities(After(l), p, |l|);
    }
  }

  /** Up to 255 pushes between drains: exactly the newest command of each slot, oldest first. */
  lemma {:induction false} ShortLogInOrder(log: seq<Push>)
    requires ValidLog(log) && |log| <= 255
    ensures InOrder(log)
  {
    if log != [] {
      var l, p := log[..|log| - 1], log[|log| - 1];
      assert log == l + [p];
      ShortLogInOrder(l);
      PriorityIsPosition(l, 0);
      PushKeepsOrder(l, p);
    }
  }

  lemma DrainSendsLatest(log: seq<Push>)
    requires ValidLog(log) && |log| <= 255
    ensures Sends(After(log)) == Deliver(Latest(log), LastDevice(log))
  {
    ShortLogInOrder(log);
    DrainExact(log);
  }

  function Repeat(p: Push, n: nat): (log: seq<Push>)
    ensures |log| == n && forall i :: 0 <= i < n ==> log[i] == p
  {
    seq(n, _ => p)
  }

  /** Only slot p.bit has been used, and its priority is n. */
  ghost predicate OnlySlot(v: Vectors, p: Push, n: nat)
    requires ValidPush(p)
  {
    && v.priority == CLEAN.priority[p.bit := n]
    && v.cmd == CLEAN.cmd[p.bit := p.cmd]
    && v.dirty == {p.bit}
  }

  lemma FirstPush(p: Push)
    requires ValidPush(p)
    ensures OnlySlot(PushOn(CLEAN, p), p, 1)
  {
    hide MaxPriority;
    MaxUnique(CLEAN.priority, 0, 0);
  }

  lemma PushAgain(v: Vectors, p: Push, n: nat)
    requires WellFormed(v) && ValidPush(p) && OnlySlot(v, p, n) && 0 < n < 256
    ensures OnlySlot(PushOn(v, p), p, (n + 1) % 256)
  {
    hide MaxPriority;
    MaxUnique(v.priority, n, p.bit);
  }

  lemma {:induction false} AfterRepeat(p: Push, n: nat)
    requires ValidPush(p) && 0 < n <= 256
    ensures OnlySlot(After(Repeat(p, n)), p, n % 256)
  {
    hide OnlySlot, PushOn;
    var log := Repeat(p, n);
    var l := log[..n - 1];
    assert l == Repeat(p, n - 1);
    if n > 1 {
      AfterRepeat(p, n - 1);
      PushAgain(After(l), p, n - 1);
    } else {
      FirstPush(p);
    }
  }

  lemma ZeroPrioritySendsSlotZero(v: Vectors, b: nat)
    requires WellFormed(v) && v.priority == CLEAN.priority && v.dirty == {b} && v.cmd[0] == ""
    ensures Sends(v) == [Sent(0, "", 0)]
  {
    hide ArgMax, Select;
    var pri := v.priority;
    assert |v.dirty| == 1;
    assert pri[0] == pri[ArgMax(pri, MAX_AT_CMD_TYPE)];
    SelectStep(pri, 1);
    assert Select(pri, 1) == [0];
    assert Reverse([0]) == [0];
  }

  /** The bound is sharp: 256 pushes of one command to any slot but 0 make the drain send the empty
      command of slot 0 instead. */
  lemma WrapSendsEmptyCommand(p: Push)
    requires ValidPush(p) && p.bit != 0
    ensures Sends(After(Repeat(p, 256))) == [Sent(0, "", 0)]
  {
    hide Sends, After;
    AfterRepeat(p, 256);
    ZeroPrioritySendsSlotZero(After(Repeat(p, 256)), p.bit);
  }
}
