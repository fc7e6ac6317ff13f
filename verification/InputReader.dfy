/** The period buffer between a capture device and in_read. */
module InputReader {
  import opened Arithmetic

  const ENODEV := 19

  type Frame = int

  /** One blocking read of the device: its status (0 is success) and what it left in the buffer. */
  datatype Reading = Reading(status: int, frames: seq<Frame>)

  /** Everything the device will ever answer, one period per read. */
  datatype Device = Device(period: nat, at: nat -> Reading) {
    ghost predicate Valid() {
      period > 0 && forall k: nat :: |at(k).frames| == period
    }

    predicate Good(k: nat) {
      at(k).status == 0
    }
  }

  /** Frame k of the device, counted over all its periods. */
  function FrameAt(d: Device, k: nat): Frame
    requires d.Valid()
  {
    d.at(k / d.period).frames[k % d.period]
  }

  function Frames(d: Device, from: nat, n: nat): (s: seq<Frame>)
    requires d.Valid()
    ensures |s| == n && forall i :: 0 <= i < n ==> s[i] == FrameAt(d, from + i)
  {
    if n == 0 then [] else Frames(d, from, n - 1) + [FrameAt(d, from + n - 1)]
  }

  /** The fields of the stream that reading changes; taken counts the device reads. */
  datatype Reader = Reader(open: bool, status: int, framesIn: nat, taken: nat) {
    ghost predicate Valid(d: Device) {
      && d.Valid()
      && framesIn <= d.period
      && (framesIn > 0 ==> taken > 0 && d.Good(taken - 1))
    }

    /** Left-over frames whose status is that of a later failure. */
    predicate Stale() {
      framesIn > 0 && status != 0
    }

    /** The index of the next frame to hand out. */
    function Position(d: Device): nat
      requires Valid(d)
    {
      MulBound(d.period, taken);
      taken * d.period - framesIn
    }
  }

  function CeilDiv(n: nat, p: nat): nat
    requires p > 0
  {
    (n + p - 1) / p
  }

  /** How many device reads a request of n frames takes. */
  function Needed(d: Device, r: Reader, n: nat): nat
    requires d.Valid()
  {
    if n <= r.framesIn then 0 else CeilDiv(n - r.framesIn, d.period)
  }

  /** The first failing device read among the m reads from k on; k + m if all succeed. */
  function FirstBad(d: Device, k: nat, m: nat): (f: nat)
    ensures k <= f <= k + m
    ensures f < k + m ==> !d.Good(f)
    ensures forall j :: k <= j < f ==> d.Good(j)
    decreases m
  {
    if m == 0 || !d.Good(k) then k else FirstBad(d, k + 1, m - 1)
  }

  /** The state after a request, whether it succeeded, and how many frames reached the caller's buffer. */
  datatype Outcome = Outcome(r: Reader, ok: bool, copied: nat)

  function Call(d: Device, r: Reader, n: nat): Outcome
    requires d.Valid()
  {
    if n == 0 then Outcome(r, true, 0)
    else if !r.open then Outcome(r.(status := -ENODEV), false, 0)
    else if r.Stale() then
      var c := if n <= r.framesIn then n else r.framesIn;
      Outcome(r.(framesIn := r.framesIn - c), false, c)
    else
      var m := Needed(d, r, n);
      var f := FirstBad(d, r.taken, m);
      if f < r.taken + m then
        Outcome(r.(taken := f + 1, framesIn := 0, status := d.at(f).status), false, r.framesIn + (f - r.taken) * d.period)
      else
        CeilCovers(n - r.framesIn, d.period);
        Outcome(r.(taken := r.taken + m, framesIn := r.framesIn + m * d.period - n, status := 0), true, n)
  }

  lemma CeilCovers(n: int, p: nat)
    requires p > 0
    ensures n > 0 ==> n <= CeilDiv(n, p) * p < n + p
  {
  }

  lemma CeilStep(n: int, p: nat)
    requires p > 0 && n > 0
    ensures CeilDiv(n, p) == 1 + (if n <= p then 0 else CeilDiv(n - p, p))
  {
    if n <= p {
      DivModUnique(n + p - 1, p, 1, n - 1);
    } else {
      DivModUnique(n + p - 1, p, 1 + (n - 1) / p, (n - 1) % p);
    }
  }

  // ---------------------------------------------------------------- the steps of one request

  /** One more period read, if the buffer is empty. */
  function Refill(d: Device, r: Reader): Reader
    requires d.Valid()
  {
    if r.framesIn > 0 then r
    else r.(taken := r.taken + 1, status := d.at(r.taken).status, framesIn := if d.Good(r.taken) then d.period else 0)
  }

  lemma NeededRefilled(d: Device, r: Reader, n: nat)
    requires d.Valid() && n > 0 && r.framesIn == 0
    ensures Needed(d, r, n) > 0
    ensures d.Good(r.taken) ==> Needed(d, Refill(d, r), n) == Needed(d, r, n) - 1
  {
    hide CeilDiv;
    CeilStep(n, d.period);
  }

  lemma FirstBadStep(d: Device, k: nat, m: nat)
    requires m > 0
    ensures FirstBad(d, k, m) == if d.Good(k) then FirstBad(d, k + 1, m - 1) else k
  {
  }

  lemma CallRefills(d: Device, r: Reader, n: nat)
    requires r.Valid(d) && r.open && n > 0 && r.framesIn == 0
    ensures Refill(d, r).Valid(d)
    ensures d.Good(r.taken) ==> Call(d, r, n) == Call(d, Refill(d, r), n)
    ensures !d.Good(r.taken) ==> Call(d, r, n) == Outcome(Refill(d, r), false, 0)
  {
    hide CeilDiv, FirstBad;
    var m := Needed(d, r, n);
    NeededRefilled(d, r, n);
    FirstBadStep(d, r.taken, m);
    if d.Good(r.taken) {
      OneFewer(r.taken, FirstBad(d, r.taken, m), d.period);
      OneFewer(r.taken, r.taken + m, d.period);
    }
  }

  lemma OneFewer(k: nat, f: nat, p: nat)
    ensures (f - k) * p == p + (f - (k + 1)) * p
  {
  }

  /** Handing out c of the frames in the buffer leaves a request for the rest. */
  lemma CallHandsOut(d: Device, r: Reader, n: nat, c: nat)
    requires r.Valid(d) && r.open && !r.Stale()
    requires 0 < c <= n && c <= r.framesIn && (c == n || c == r.framesIn)
    ensures r.(framesIn := r.framesIn - c).Valid(d)
    ensures Call(d, r, n) == var o := Call(d, r.(framesIn := r.framesIn - c), n - c); o.(copied := o.copied + c)
  {
  }

  lemma PositionAt(d: Device, r: Reader, i: nat)
    requires r.Valid(d) && i < r.framesIn
    ensures FrameAt(d, r.Position(d) + i) == d.at(r.taken - 1).frames[d.period - r.framesIn + i]
  {
    var j := d.period - r.framesIn + i;
    OneFewer(0, r.taken, d.period);
    assert r.Position(d) + i == d.period * (r.taken - 1) + j;
    DivModUnique(r.Position(d) + i, d.period, r.taken - 1, j);
  }

  /** The frames of the buffer from the cursor on are the next of the device. */
  lemma GrantIsNext(d: Device, r: Reader, count: nat)
    requires r.Valid(d) && count <= r.framesIn && r.framesIn > 0
    ensures var from := d.period - r.framesIn;
      d.at(r.taken - 1).frames[from..from + count] == Frames(d, r.Position(d), count)
  {
    hide Frames, FrameAt, Reader.Position;
    var from := d.period - r.framesIn;
    forall i | 0 <= i < count
      ensures d.at(r.taken - 1).frames[from..from + count][i] == Frames(d, r.Position(d), count)[i]
    {
      PositionAt(d, r, i);
    }
    assert |d.at(r.taken - 1).frames| == d.period;
  }

  // ---------------------------------------------------------------- the stream

  class InputStream {
    var open: bool
    var readStatus: int
    var framesIn: nat
    var taken: nat
    const buffer: array<Frame>

    ghost function State(): Reader
      reads this
    {
      Reader(open, readStatus, framesIn, taken)
    }

    ghost predicate Valid(d: Device)
      reads this, buffer
    {
      && State().Valid(d)
      && buffer.Length == d.period
      && (framesIn > 0 ==> buffer[..] == d.at(taken - 1).frames)
    }

    constructor (d: Device)
      requires d.Valid()
      ensures Valid(d) && fresh(buffer) && State() == Reader(true, 0, 0, 0)
    {
      open, readStatus, framesIn, taken := true, 0, 0, 0;
      buffer := new Frame[d.period](_ => 0);
    }

    /** do_input_standby closes the device and keeps what is in the buffer. */
    method Standby(d: Device)
      requires Valid(d)
      modifies this`open
      ensures Valid(d) && State() == Apply(d, old(State()), Close)
    {
      open := false;
    }

    /** start_input_stream drops what is in the buffer only if it resets a resampler. */
    method Start(d: Device, resampling: bool)
      requires Valid(d)
      modifies this`open, this`framesIn
      ensures Valid(d) && State() == Apply(d, old(State()), Op.Start(resampling))
    {
      open := true;
      if resampling {
        framesIn := 0;
      }
    }

    /** A blocking read of one period into the buffer. */
    method ReadDevice(d: Device) returns (status: int)
      requires Valid(d) && framesIn == 0
      modifies this`taken, buffer
      ensures Valid(d) && taken == old(taken) + 1
      ensures status == d.at(old(taken)).status && buffer[..] == d.at(old(taken)).frames
    {
      var answer := d.at(taken);
      forall k | 0 <= k < buffer.Length {
        buffer[k] := answer.frames[k];
      }
      taken := taken + 1;
      status := answer.status;
    }

    /** get_next_buffer: at most want frames at the offset from on, or none (the null pointer). */
    method GetNextBuffer(d: Device, want: nat) returns (none: bool, from: nat, count: nat)
      requires Valid(d)
      modifies this`taken, this`framesIn, this`readStatus, buffer
      ensures Valid(d)
      ensures State() == if !open then old(State()).(status := -ENODEV) else Refill(d, old(State()))
      ensures none == (!open || framesIn == 0)
      ensures none ==> count == 0
      ensures !none ==> from == d.period - framesIn && count == if want > framesIn then framesIn else want
      ensures !none ==> buffer[from..from + count] == Frames(d, State().Position(d), count)
    {
      if !open {
        none, from, count := true, 0, 0;
        readStatus := -ENODEV;
        return;
      }
      if framesIn == 0 {
        readStatus := ReadDevice(d);
        if readStatus != 0 {
          return true, 0, 0;
        }
        framesIn := d.period;
      }
      none, from := false, d.period - framesIn;
      count := if want > framesIn then framesIn else want;
      GrantIsNext(d, State(), count);
    }

    /** release_buffer */
    method ReleaseBuffer(d: Device, count: nat)
      requires Valid(d) && count <= framesIn
      modifies this`framesIn
      ensures Valid(d) && State() == old(State()).(framesIn := old(framesIn) - count)
    {
      framesIn := framesIn - count;
    }

    /** read_frames without a resampler; out has room for the frames asked for. */
    method ReadFrames(d: Device, out: array<Frame>, frames: int) returns (ret: int)
      requires Valid(d) && frames <= out.Length && out != buffer
      modifies this`taken, this`framesIn, this`readStatus, buffer, out
      ensures Valid(d)
      ensures var o := Call(d, old(State()), if frames < 0 then 0 else frames);
        && State() == o.r
        && ret == (if !o.ok then o.r.status else if frames < 0 then 0 else frames)
        && o.copied <= out.Length
        && out[..o.copied] == Frames(d, old(State()).Position(d), o.copied)
        && out[o.copied..] == old(out[..])[o.copied..]
    {
      hide Call, Frames, Reader.Position, Refill, Handed, Reached, Turned, FrameAt, FirstBad, Needed, Device.Valid, Reader.Stale;
      var wr := 0;
      ghost var r0, n, was := State(), if frames < 0 then 0 else frames, out[..];
      NothingHanded(d, r0, n, was);
      while wr < frames
        invariant 0 <= wr <= n && Valid(d)
        invariant Handed(d, r0, wr, out[..], was)
        invariant Reached(d, r0, n, State(), wr)
        decreases frames - wr
      {
        ghost var r := State();
        var framesRd := frames - wr;
        var none, from, count := GetNextBuffer(d, framesRd);
        ghost var r1 := State();
        Received(d, r, n - wr, r1, none, count);
        if !none {
          ghost var before := out[..];
          CopyFrames(out, wr, from, count);
          TurnKeepsPlace(d, r0, n, r, wr, r1, count);
          HandedMore(d, r0, r1, wr, count, before, out[..], was);
          framesRd := count;
        }
        ReleaseBuffer(d, count);
        TurnReaches(d, r0, n, r, wr, r1, none, count);
        if readStatus != 0 {
          HandedOut(d, r0, wr + count, out[..], was);
          return readStatus;
        }
        wr := wr + framesRd;
      }
      WholeRequest(d, r0, n, State());
      HandedOut(d, r0, wr, out[..], was);
      ret := wr;
    }

    /** The memcpy of read_frames. */
    method CopyFrames(out: array<Frame>, at: nat, from: nat, count: nat)
      requires out != buffer && at + count <= out.Length && from + count <= buffer.Length
      modifies out
      ensures out[..] == old(out[..])[..at] + buffer[from..from + count] + old(out[..])[at + count..]
    {
      forall k | at <= k < at + count {
        out[k] := buffer[from + (k - at)];
      }
    }
  }

  /** The first wr frames of the caller's buffer are the next ones of the device, the rest is untouched. */
  ghost predicate Handed(d: Device, r0: Reader, wr: nat, out: seq<Frame>, was: seq<Frame>)
    requires r0.Valid(d)
  {
    && wr <= |out| == |was|
    && (forall i :: 0 <= i < wr ==> out[i] == FrameAt(d, r0.Position(d) + i))
    && (forall i :: wr <= i < |out| ==> out[i] == was[i])
  }

  lemma HandedMore(d: Device, r0: Reader, r: Reader, wr: nat, count: nat, before: seq<Frame>, out: seq<Frame>, was: seq<Frame>)
    requires r0.Valid(d) && r.Valid(d) && 0 < count <= r.framesIn && wr + count <= |before|
    requires r.Position(d) == r0.Position(d) + wr && Handed(d, r0, wr, before, was)
    requires var from := d.period - r.framesIn;
      out == before[..wr] + d.at(r.taken - 1).frames[from..from + count] + before[wr + count..]
    ensures Handed(d, r0, wr + count, out, was)
  {
    hide FrameAt, Reader.Position;
    var from := d.period - r.framesIn;
    forall i | 0 <= i < wr + count
      ensures out[i] == FrameAt(d, r0.Position(d) + i)
    {
      if i >= wr {
        PositionAt(d, r, i - wr);
        assert out[i] == d.at(r.taken - 1).frames[from..from + count][i - wr];
      }
    }
  }

  lemma HandedOut(d: Device, r0: Reader, wr: nat, out: seq<Frame>, was: seq<Frame>)
    requires r0.Valid(d) && Handed(d, r0, wr, out, was)
    ensures wr <= |out| == |was| && out[..wr] == Frames(d, r0.Position(d), wr) && out[wr..] == was[wr..]
  {
  }

  lemma NothingHanded(d: Device, r: Reader, n: nat, was: seq<Frame>)
    requires r.Valid(d)
    ensures Handed(d, r, 0, was, was) && Reached(d, r, n, r, 0)
  {
  }

  /** After wr of n frames the rest of the request decides the outcome. */
  ghost predicate Reached(d: Device, r0: Reader, n: nat, r: Reader, wr: nat)
    requires r0.Valid(d) && r.Valid(d) && wr <= n
  {
    && r.Position(d) == r0.Position(d) + wr
    && Call(d, r0, n) == var o := Call(d, r, n - wr); o.(copied := o.copied + wr)
  }

  lemma WholeRequest(d: Device, r0: Reader, n: nat, r: Reader)
    requires r0.Valid(d) && r.Valid(d) && Reached(d, r0, n, r, n)
    ensures Call(d, r0, n) == Outcome(r, true, n)
  {
  }

  lemma TurnKeepsPlace(d: Device, r0: Reader, n: nat, r: Reader, wr: nat, r1: Reader, count: nat)
    requires r0.Valid(d) && r.Valid(d) && r1.Valid(d) && wr < n && count <= r1.framesIn && count <= n - wr
    requires Reached(d, r0, n, r, wr) && Turned(d, r, n - wr, r1, false, count)
    ensures r1.Position(d) == r0.Position(d) + wr && count > 0
  {
    hide Call, Reader.Position;
  }

  lemma TurnReaches(d: Device, r0: Reader, n: nat, r: Reader, wr: nat, r1: Reader, none: bool, count: nat)
    requires r0.Valid(d) && r.Valid(d) && r1.Valid(d) && wr < n && count <= r1.framesIn && count <= n - wr
    requires Reached(d, r0, n, r, wr) && Turned(d, r, n - wr, r1, none, count)
    ensures var r2 := r1.(framesIn := r1.framesIn - count);
      && r2.Valid(d)
      && (r2.status != 0 ==> Call(d, r0, n) == Outcome(r2, false, wr + count))
      && (r2.status == 0 ==> !none && count > 0 && Reached(d, r0, n, r2, wr + count))
  {
    hide Call, Reader.Position;
  }

  /** What one turn of the loop of read_frames does to a request for n more frames. */
  ghost predicate Turned(d: Device, r: Reader, n: nat, r1: Reader, none: bool, count: nat)
    requires r.Valid(d) && r1.Valid(d) && count <= r1.framesIn && count <= n
  {
    var r2 := r1.(framesIn := r1.framesIn - count);
    && r2.Valid(d)
    && (!none ==> count > 0 && r1.Position(d) == r.Position(d) && r2.Position(d) == r.Position(d) + count)
    && (none ==> r2.status != 0)
    && (r2.status != 0 ==> Call(d, r, n) == Outcome(r2, false, count))
    && (r2.status == 0 ==> r.open && !none && Call(d, r, n) == var o := Call(d, r2, n - count); o.(copied := o.copied + count))
  }

  lemma ClosedTurn(d: Device, r: Reader, n: nat, r1: Reader, none: bool, count: nat)
    requires r.Valid(d) && n > 0 && !r.open && r1 == r.(status := -ENODEV) && none && count == 0
    ensures r1.Valid(d) && Turned(d, r, n, r1, none, count)
  {
  }

  lemma HandOutTurn(d: Device, r: Reader, n: nat, r1: Reader, none: bool, count: nat)
    requires r.Valid(d) && n > 0 && r.open && r.framesIn > 0 && r1 == Refill(d, r)
    requires !none && count == if n > r1.framesIn then r1.framesIn else n
    ensures r1.Valid(d) && Turned(d, r, n, r1, none, count)
  {
    hide FirstBad, Needed;
    assert r1 == r;
    if r.Stale() {
    } else {
      hide Call;
      CallHandsOut(d, r, n, count);
    }
  }

  lemma RefillTurn(d: Device, r: Reader, n: nat, r1: Reader, none: bool, count: nat)
    requires r.Valid(d) && n > 0 && r.open && r.framesIn == 0 && r1 == Refill(d, r)
    requires none == (r1.framesIn == 0) && count == if none then 0 else if n > r1.framesIn then r1.framesIn else n
    ensures r1.Valid(d) && Turned(d, r, n, r1, none, count)
  {
    hide Call, FirstBad, Needed;
    CallRefills(d, r, n);
    if d.Good(r.taken) {
      OneFewer(0, r1.taken, d.period);
      OneFewer(0, r.taken, d.period);
      CallHandsOut(d, r1, n, count);
    }
  }

  /** One turn of the loop of read_frames, before the buffer is released. */
  lemma Received(d: Device, r: Reader, n: nat, r1: Reader, none: bool, count: nat)
    requires r.Valid(d) && n > 0 && r1.Valid(d)
    requires r1 == if !r.open then r.(status := -ENODEV) else Refill(d, r)
    requires none == (!r.open || r1.framesIn == 0)
    requires count == if none then 0 else if n > r1.framesIn then r1.framesIn else n
    ensures Turned(d, r, n, r1, none, count)
  {
    hide Call, FirstBad, Needed, Reader.Position, Turned;
    if !r.open {
      ClosedTurn(d, r, n, r1, none, count);
    } else if r.framesIn == 0 {
      RefillTurn(d, r, n, r1, none, count);
    } else {
      HandOutTurn(d, r, n, r1, none, count);
    }
  }

  // ---------------------------------------------------------------- whole runs

  /** All frames of the first k device reads that succeeded. */
  function GoodFrames(d: Device, k: nat): seq<Frame> {
    if k == 0 then []
    else if d.Good(k - 1) then GoodFrames(d, k - 1) + d.at(k - 1).frames
    else GoodFrames(d, k - 1)
  }

  lemma LastPeriod(d: Device, r: Reader)
    requires r.Valid(d)
    ensures var s := GoodFrames(d, r.taken);
      |s| >= r.framesIn && (r.framesIn > 0 ==> |s| >= d.period && s[|s| - d.period..] == d.at(r.taken - 1).frames)
  {
    if r.framesIn > 0 {
      var s := GoodFrames(d, r.taken - 1);
      assert (s + d.at(r.taken - 1).frames)[|s|..] == d.at(r.taken - 1).frames;
    }
  }

  /** The frames that have left the period buffer. */
  function Used(d: Device, r: Reader): seq<Frame>
    requires r.Valid(d)
  {
    LastPeriod(d, r);
    var s := GoodFrames(d, r.taken);
    s[..|s| - r.framesIn]
  }

  /** What happens to the stream: a request, the device closed (standby) or opened again. */
  datatype Op = Read(n: nat) | Close | Start(resets: bool)

  /** Frames a caller got, and frames that left the buffer for nobody. */
  datatype Event = Delivered(frames: seq<Frame>) | Lost(frames: seq<Frame>)

  function Apply(d: Device, r: Reader, op: Op): Reader
    requires d.Valid()
  {
    match op
    case Read(n) => Call(d, r, n).r
    case Close => r.(open := false)
    case Start(resets) => r.(open := true, framesIn := if resets then 0 else r.framesIn)
  }

  function EventOf(d: Device, r: Reader, op: Op): Event
    requires r.Valid(d)
  {
    match op
    case Read(n) =>
      var o := Call(d, r, n);
      var frames := Frames(d, r.Position(d), o.copied);
      if o.ok then Delivered(frames) else Lost(frames)
    case Close => Lost([])
    case Start(resets) => Lost(if resets then Frames(d, r.Position(d), r.framesIn) else [])
  }

  function Run(d: Device, r: Reader, ops: seq<Op>): Reader
    requires d.Valid()
    decreases |ops|
  {
    if ops == [] then r else Run(d, Apply(d, r, ops[0]), ops[1..])
  }

  function Log(d: Device, r: Reader, ops: seq<Op>): seq<Event>
    requires r.Valid(d)
    decreases |ops|
  {
    if ops == [] then []
    else
      ApplyKeepsValid(d, r, ops[0]);
      [EventOf(d, r, ops[0])] + Log(d, Apply(d, r, ops[0]), ops[1..])
  }

  function AllFrames(log: seq<Event>): seq<Frame> {
    if log == [] then [] else log[0].frames + AllFrames(log[1..])
  }

  function Outputs(log: seq<Event>): seq<Frame> {
    if log == [] then [] else (if log[0].Delivered? then log[0].frames else []) + Outputs(log[1..])
  }

  lemma CallKeepsValid(d: Device, r: Reader, n: nat)
    requires r.Valid(d)
    ensures Call(d, r, n).r.Valid(d)
    ensures r.framesIn < d.period ==> Call(d, r, n).r.framesIn < d.period
  {
    if n > r.framesIn {
      CeilCovers(n - r.framesIn, d.period);
      CeilStep(n - r.framesIn, d.period);
    }
  }

  lemma ApplyKeepsValid(d: Device, r: Reader, op: Op)
    requires r.Valid(d)
    ensures Apply(d, r, op).Valid(d)
  {
    hide Call;
    if op.Read? {
      CallKeepsValid(d, r, op.n);
    }
  }

  lemma GoodStep(d: Device, k: nat)
    requires d.Valid()
    ensures d.Good(k) ==> GoodFrames(d, k + 1) == GoodFrames(d, k) + d.at(k).frames
    ensures !d.Good(k) ==> GoodFrames(d, k + 1) == GoodFrames(d, k)
  {
  }

  /** The number of frames in k periods. */
  function PeriodsLength(d: Device, k: nat): nat {
    k * d.period
  }

  lemma LengthAdds(d: Device, k: nat, m: nat)
    ensures PeriodsLength(d, k + m) == PeriodsLength(d, k) + PeriodsLength(d, m)
    ensures PeriodsLength(d, 1) == d.period && PeriodsLength(d, 0) == 0
  {
    MulAdd(d.period, k, m);
  }

  lemma {:induction false} GoodGrows(d: Device, k: nat, m: nat)
    requires d.Valid() && forall j :: k <= j < k + m ==> d.Good(j)
    ensures GoodFrames(d, k + m) == GoodFrames(d, k) + Frames(d, PeriodsLength(d, k), PeriodsLength(d, m))
  {
    hide *;
    if m == 0 {
      LengthAdds(d, k, 0);
    } else {
      var from, n := PeriodsLength(d, k), PeriodsLength(d, m - 1);
      GoodGrows(d, k, m - 1);
      LengthAdds(d, k, m - 1);
      LengthAdds(d, m - 1, 1);
      PeriodFrames(d, k + m - 1);
      GoodStep(d, k + m - 1);
      SplitFrames(d, from, n, d.period);
      Extend(GoodFrames(d, k + m), GoodFrames(d, k + m - 1), GoodFrames(d, k), Frames(d, from, n), Frames(d, from + n, d.period));
    }
  }

  lemma Extend<T>(all: seq<T>, most: seq<T>, a: seq<T>, b: seq<T>, c: seq<T>)
    requires most == a + b && all == most + c
    ensures all == a + (b + c)
  {
  }

  lemma FrameOfPeriod(d: Device, k: nat, i: nat)
    requires d.Valid() && i < d.period
    ensures FrameAt(d, PeriodsLength(d, k) + i) == d.at(k).frames[i]
  {
    DivModUnique(k * d.period + i, d.period, k, i);
  }

  lemma PeriodFrames(d: Device, k: nat)
    requires d.Valid()
    ensures Frames(d, PeriodsLength(d, k), d.period) == d.at(k).frames
  {
    hide FrameAt, Frames, PeriodsLength;
    forall i | 0 <= i < d.period
      ensures Frames(d, PeriodsLength(d, k), d.period)[i] == d.at(k).frames[i]
    {
      FrameOfPeriod(d, k, i);
    }
    assert |d.at(k).frames| == d.period;
  }

  lemma SplitFrames(d: Device, from: nat, a: nat, b: nat)
    requires d.Valid()
    ensures Frames(d, from, a + b) == Frames(d, from, a) + Frames(d, from + a, b)
  {
    hide Frames, FrameAt;
  }

  /** A request takes the frames it copied out of the buffer: nothing is lost, repeated or reordered. */
  lemma CallUses(d: Device, r: Reader, n: nat)
    requires r.Valid(d)
    ensures var o := Call(d, r, n);
      o.r.Valid(d) && Used(d, o.r) == Used(d, r) + Frames(d, r.Position(d), o.copied)
  {
    hide Frames, FrameAt, GoodFrames, Used, FirstBad, Needed, Reader.Position;
    CallKeepsValid(d, r, n);
    var o := Call(d, r, n);
    if n == 0 || !r.open {
      NothingUsed(d, r, o.r);
    } else if r.Stale() {
      PendingUsed(d, r, o.r, 0, o.copied);
    } else {
      var m := Needed(d, r, n);
      var f := FirstBad(d, r.taken, m);
      PendingUsed(d, r, o.r, f - r.taken, o.copied);
    }
  }

  lemma NothingUsed(d: Device, r: Reader, r1: Reader)
    requires r.Valid(d) && r1.Valid(d) && r1.taken == r.taken && r1.framesIn == r.framesIn
    ensures Used(d, r1) == Used(d, r) + Frames(d, r.Position(d), 0)
  {
  }

  /** Taking c frames: those left over, and those of m more good reads; a failed read adds none. */
  lemma PendingUsed(d: Device, r: Reader, r1: Reader, m: nat, c: nat)
    requires d.Valid() && r.Valid(d) && r1.Valid(d) && forall j :: r.taken <= j < r.taken + m ==> d.Good(j)
    requires r1.taken == r.taken + m || (r1.taken == r.taken + m + 1 && !d.Good(r.taken + m))
    requires r.framesIn + PeriodsLength(d, m) == c + r1.framesIn
    ensures Used(d, r1) == Used(d, r) + Frames(d, r.Position(d), c)
  {
    hide *;
    var p := r.Position(d);
    PendingIsNext(d, r);
    PendingIsNext(d, r1);
    GoodGrows(d, r.taken, m);
    GoodStep(d, r.taken + m);
    SplitFrames(d, p, r.framesIn, PeriodsLength(d, m));
    SplitFrames(d, p, c, r1.framesIn);
    Places(d, r, r1, m, c);
    Balance(GoodFrames(d, r.taken), Used(d, r), Frames(d, p, r.framesIn), Frames(d, p + r.framesIn, PeriodsLength(d, m)),
      Used(d, r1), Frames(d, p, c), Frames(d, p + c, r1.framesIn));
  }

  /** Appending more to used + left, once split as used + taken + left1. */
  lemma Balance<T>(good: seq<T>, used: seq<T>, left: seq<T>, more: seq<T>, used1: seq<T>, taken: seq<T>, left1: seq<T>)
    requires good == used + left && good + more == used1 + left1 && left + more == taken + left1
    ensures used1 == used + taken
  {
    assert good + more == used + (left + more);
    assert used1 + left1 == (used + taken) + left1;
    assert used1 == (used1 + left1)[..|used1|] && used + taken == ((used + taken) + left1)[..|used1|];
  }

  lemma Places(d: Device, r: Reader, r1: Reader, m: nat, c: nat)
    requires r.Valid(d) && r1.Valid(d)
    requires r1.taken == r.taken + m || (r1.taken == r.taken + m + 1 && !d.Good(r.taken + m))
    requires r.framesIn + PeriodsLength(d, m) == c + r1.framesIn
    ensures r.Position(d) + r.framesIn == PeriodsLength(d, r.taken)
    ensures r1.framesIn > 0 ==> r1.taken == r.taken + m && r1.Position(d) == r.Position(d) + c
    ensures r1.framesIn == 0 ==> Frames(d, r1.Position(d), r1.framesIn) == Frames(d, r.Position(d) + c, r1.framesIn)
  {
    MulAdd(d.period, r.taken, m);
  }

  /** What is left in the buffer are the last good frames. */
  lemma PendingIsNext(d: Device, r: Reader)
    requires r.Valid(d)
    ensures GoodFrames(d, r.taken) == Used(d, r) + Frames(d, r.Position(d), r.framesIn)
  {
    hide Frames, FrameAt, GoodFrames, Reader.Position;
    if r.framesIn > 0 {
      LastFrames(d, r);
      LastPeriod(d, r);
      var s := GoodFrames(d, r.taken);
      assert s[|s| - r.framesIn..] == s[|s| - d.period..][d.period - r.framesIn..];
    }
  }

  lemma LastFrames(d: Device, r: Reader)
    requires r.Valid(d) && r.framesIn > 0
    ensures Frames(d, r.Position(d), r.framesIn) == d.at(r.taken - 1).frames[d.period - r.framesIn..]
  {
    hide Frames, FrameAt, Reader.Position;
    forall i | 0 <= i < r.framesIn
      ensures Frames(d, r.Position(d), r.framesIn)[i] == d.at(r.taken - 1).frames[d.period - r.framesIn..][i]
    {
      PositionAt(d, r, i);
    }
    assert |d.at(r.taken - 1).frames| == d.period;
  }

  lemma ApplyUses(d: Device, r: Reader, op: Op)
    requires r.Valid(d)
    ensures Apply(d, r, op).Valid(d)
    ensures Used(d, Apply(d, r, op)) == Used(d, r) + EventOf(d, r, op).frames
  {
    hide Used, Call, Frames, Reader.Position, GoodFrames;
    match op
    case Read(n) => CallUses(d, r, n);
    case Close => NothingUsed(d, r, Apply(d, r, op));
    case Start(resets) =>
      if resets {
        LengthAdds(d, 0, 0);
        PendingUsed(d, r, Apply(d, r, op), 0, r.framesIn);
      } else {
        NothingUsed(d, r, Apply(d, r, op));
      }
  }

  /** Conservation over any run: what left the buffer was delivered or lost, once and in the device's order. */
  lemma {:induction false} RunConserves(d: Device, r: Reader, ops: seq<Op>)
    requires r.Valid(d)
    ensures Run(d, r, ops).Valid(d)
    ensures Used(d, Run(d, r, ops)) == Used(d, r) + AllFrames(Log(d, r, ops))
    decreases |ops|
  {
    hide Used, Apply, EventOf;
    if ops == [] {
      NothingLogged(Used(d, r));
    } else {
      var r1 := Apply(d, r, ops[0]);
      ApplyUses(d, r, ops[0]);
      RunConserves(d, r1, ops[1..]);
      AllFramesCons(EventOf(d, r, ops[0]), Log(d, r1, ops[1..]));
      Regroup(Used(d, r), EventOf(d, r, ops[0]).frames, AllFrames(Log(d, r1, ops[1..])));
    }
  }

  lemma NothingLogged(s: seq<Frame>)
    ensures s == s + AllFrames([])
  {
  }

  lemma AllFramesCons(e: Event, log: seq<Event>)
    ensures AllFrames([e] + log) == e.frames + AllFrames(log)
  {
    assert ([e] + log)[1..] == log;
  }

  lemma Regroup<T>(a: seq<T>, b: seq<T>, c: seq<T>)
    ensures (a + b) + c == a + (b + c)
  {
  }

  // ---------------------------------------------------------------- requests only

  function Sum(ns: seq<nat>): nat {
    if ns == [] then 0 else ns[0] + Sum(ns[1..])
  }

  function Requests(ns: seq<nat>): seq<Op> {
    if ns == [] then [] else [Read(ns[0])] + Requests(ns[1..])
  }

  predicate AllDelivered(log: seq<Event>) {
    forall i :: 0 <= i < |log| ==> log[i].Delivered?
  }

  /** A reader between successful requests. */
  ghost predicate Steady(d: Device, r: Reader) {
    r.Valid(d) && r.open && r.status == 0 && r.framesIn < d.period
  }

  /** The number of periods that cover the first n frames. */
  function Covering(d: Device, n: nat): nat
    requires d.period > 0
  {
    CeilDiv(n, d.period)
  }

  lemma CoveringAt(d: Device, k: nat, x: nat)
    requires d.period > 0 && x < d.period && x <= PeriodsLength(d, k)
    ensures Covering(d, PeriodsLength(d, k) - x) == k
  {
    DivModUnique(PeriodsLength(d, k) - x + d.period - 1, d.period, k, d.period - 1 - x);
  }

  /** The request ends at the first period that cannot be read, with its status, and has copied all before it. */
  ghost predicate FailsAt(d: Device, r: Reader, o: Outcome, f: int)
    requires r.Valid(d)
  {
    && r.taken <= f && !d.Good(f) && (forall k :: r.taken <= k < f ==> d.Good(k))
    && o.r.status == d.at(f).status && o.r.framesIn == 0
    && r.Position(d) + o.copied == PeriodsLength(d, f)
  }

  /** A request is served exactly if every period it still needs can be read. */
  lemma CallExact(d: Device, r: Reader, n: nat)
    requires Steady(d, r)
    ensures var o, t := Call(d, r, n), Covering(d, r.Position(d) + n);
      && t >= r.taken
      && (o.ok <==> forall k :: r.taken <= k < t ==> d.Good(k))
      && (o.ok ==> o.copied == n && Steady(d, o.r) && o.r.taken == t && o.r.Position(d) == r.Position(d) + n)
      && (!o.ok ==> FailsAt(d, r, o, o.r.taken - 1) && o.r.taken <= t)
  {
    var m := Needed(d, r, n);
    var t := r.taken + m;
    LengthAdds(d, r.taken, m);
    Overshoot(d, r, n);
    CoveringAt(d, t, r.framesIn + PeriodsLength(d, m) - n);
    var f := FirstBad(d, r.taken, m);
    LengthAdds(d, r.taken, f - r.taken);
    hide Needed, CeilDiv, FirstBad;
    assert Covering(d, r.Position(d) + n) == t;
    assert f <= t;
  }

  lemma Overshoot(d: Device, r: Reader, n: nat)
    requires d.period > 0 && r.framesIn < d.period && d.Valid()
    ensures n <= r.framesIn + PeriodsLength(d, Needed(d, r, n)) < n + d.period
  {
    if n > r.framesIn {
      CeilCovers(n - r.framesIn, d.period);
    }
  }

  lemma CoveringGrows(d: Device, n: nat, m: nat)
    requires d.period > 0 && n <= m
    ensures Covering(d, n) <= Covering(d, m)
  {
    var a, b := (n + d.period - 1) / d.period, (m + d.period - 1) / d.period;
    MulBound(d.period, a - b - 1);
    assert a > b ==> d.period * (a - b - 1) >= 0;
  }

  lemma {:induction false} RequestsExact(d: Device, r: Reader, ns: seq<nat>)
    requires Steady(d, r)
    ensures var end, t := r.Position(d) + Sum(ns), Covering(d, r.Position(d) + Sum(ns));
      && (AllDelivered(Log(d, r, Requests(ns))) <==> forall k :: r.taken <= k < t ==> d.Good(k))
      && (AllDelivered(Log(d, r, Requests(ns))) ==>
           var r1 := Run(d, r, Requests(ns)); Steady(d, r1) && r1.taken == t && r1.Position(d) == end)
    decreases |ns|
  {
    hide Call, Covering, Reader.Position, AllDelivered;
    if ns == [] {
      CallExact(d, r, 0);
      NothingAsked(d, r);
      NothingDelivered();
    } else {
      var ops := Requests(ns);
      assert ops[0] == Read(ns[0]) && ops[1..] == Requests(ns[1..]);
      CallExact(d, r, ns[0]);
      var r1 := Apply(d, r, ops[0]);
      CallKeepsValid(d, r, ns[0]);
      DeliveredCons(EventOf(d, r, ops[0]), Log(d, r1, ops[1..]));
      CoveringGrows(d, r.Position(d) + ns[0], r.Position(d) + Sum(ns));
      if Call(d, r, ns[0]).ok {
        RequestsExact(d, r1, ns[1..]);
      }
    }
  }

  lemma NothingAsked(d: Device, r: Reader)
    requires r.Valid(d)
    ensures Call(d, r, 0) == Outcome(r, true, 0)
  {
  }

  lemma NothingDelivered()
    ensures AllDelivered([])
  {
  }

  lemma DeliveredCons(e: Event, log: seq<Event>)
    ensures AllDelivered([e] + log) <==> e.Delivered? && AllDelivered(log)
  {
    forall i | 0 <= i < |log|
      ensures log[i] == ([e] + log)[i + 1]
    {
    }
    assert ([e] + log)[0] == e;
  }

  lemma {:induction false} AllOutputs(log: seq<Event>)
    requires AllDelivered(log)
    ensures Outputs(log) == AllFrames(log)
  {
    if log != [] {
      DeliveredCons(log[0], log[1..]);
      assert log == [log[0]] + log[1..];
      AllOutputs(log[1..]);
    }
  }

  /**
   * From a fresh stream, requests of any sizes are all served exactly if the periods that cover their
   * total can be read; then the outputs are the first frames of those periods and the rest is kept.
   */
  lemma FirstFramesExact(d: Device, ns: seq<nat>)
    requires d.Valid()
    ensures var r0, n, t := Reader(true, 0, 0, 0), Sum(ns), Covering(d, Sum(ns));
      && (AllDelivered(Log(d, r0, Requests(ns))) <==> forall k :: 0 <= k < t ==> d.Good(k))
      && (AllDelivered(Log(d, r0, Requests(ns))) ==>
           && n <= |GoodFrames(d, t)| == t * d.period < n + d.period
           && Run(d, r0, Requests(ns)) == Reader(true, 0, t * d.period - n, t)
           && Outputs(Log(d, r0, Requests(ns))) == GoodFrames(d, t)[..n])
  {
    hide Call, Covering, AllDelivered, Run, Log, Sum, Requests, Outputs, AllFrames, GoodFrames, Frames;
    var r0, n, t := Reader(true, 0, 0, 0), Sum(ns), Covering(d, Sum(ns));
    var ops := Requests(ns);
    RequestsExact(d, r0, ns);
    if AllDelivered(Log(d, r0, ops)) {
      AllOutputs(Log(d, r0, ops));
      RunConserves(d, r0, ops);
      GoodGrows(d, 0, t);
      NothingTaken(d, r0);
      var out := Outputs(Log(d, r0, ops));
      assert Used(d, r0) + out == out;
    }
  }

  lemma NothingTaken(d: Device, r: Reader)
    requires d.Valid() && r.taken == 0 && r.framesIn == 0
    ensures GoodFrames(d, 0) == [] && r.Valid(d) && Used(d, r) == []
  {
  }

  // ---------------------------------------------------------------- a status of the past

  /** The one way to left-over frames with a failure's status is a request while the device is closed. */
  lemma StaleExactly(d: Device, r: Reader, op: Op)
    requires r.Valid(d) && !r.Stale()
    ensures Apply(d, r, op).Stale() <==> op.Read? && op.n > 0 && !r.open && r.framesIn > 0
  {
    hide Needed, FirstBad;
  }

  /** Every request finds the device open, as in_read sees to: it starts the stream first, or gives up. */
  predicate ReadsOpen(d: Device, r: Reader, ops: seq<Op>)
    requires d.Valid()
    decreases |ops|
  {
    ops != [] ==> (ops[0].Read? ==> r.open) && ReadsOpen(d, Apply(d, r, ops[0]), ops[1..])
  }

  /** Then no request fails with a status of the past. */
  lemma {:induction false} NeverStale(d: Device, r: Reader, ops: seq<Op>)
    requires r.Valid(d) && !r.Stale() && ReadsOpen(d, r, ops)
    ensures Run(d, r, ops).Valid(d) && !Run(d, r, ops).Stale()
    decreases |ops|
  {
    if ops != [] {
      hide Apply, Reader.Stale;
      ApplyKeepsValid(d, r, ops[0]);
      StaleExactly(d, r, ops[0]);
      NeverStale(d, Apply(d, r, ops[0]), ops[1..]);
    }
  }
}
