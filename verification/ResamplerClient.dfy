/** A resampler that takes frames from the period buffer of a capture stream by gets and releases, in any
    pattern, as read_frames leaves it to do. */
module ResamplerClient {
  import opened Arithmetic
  import opened InputReader

  /** granted: the frames of the last get that have not been released. */
  datatype Client = Client(r: Reader, granted: nat) {
    ghost predicate Valid(d: Device) {
      r.Valid(d) && granted <= r.framesIn
    }
  }

  datatype Use = Get(want: nat) | Release(count: nat) | Standby | Restart(resets: bool)

  /** What is released has been granted. */
  predicate Enabled(c: Client, use: Use) {
    use.Release? ==> use.count <= c.granted
  }

  function Grant(r: Reader, want: nat): nat {
    if !r.open then 0 else if want > r.framesIn then r.framesIn else want
  }

  function Do(d: Device, c: Client, use: Use): Client
    requires c.Valid(d) && Enabled(c, use)
  {
    match use
    case Get(want) =>
      var r := if !c.r.open then c.r.(status := -ENODEV) else Refill(d, c.r);
      Client(r, Grant(r, want))
    case Release(count) => Client(c.r.(framesIn := c.r.framesIn - count), c.granted - count)
    case Standby => Client(c.r.(open := false), 0)
    case Restart(resets) => Client(c.r.(open := true, framesIn := if resets then 0 else c.r.framesIn), 0)
  }

  /** Frames that a release hands over, or that a restart drops. */
  function EventOf(d: Device, c: Client, use: Use): Event
    requires c.Valid(d) && Enabled(c, use)
  {
    match use
    case Release(count) => Delivered(Frames(d, c.r.Position(d), count))
    case Restart(resets) => Lost(if resets then Frames(d, c.r.Position(d), c.r.framesIn) else [])
    case _ => Lost([])
  }

  /** The device is read only for a get that finds the buffer empty, and a get moves no frame: until a release
      the next get grants the same frames again. What is granted is all that was wanted, if the buffer has it
      after the read, and else all that it has. */
  lemma GetKeepsPlace(d: Device, c: Client, want: nat)
    requires c.Valid(d)
    ensures var c1 := Do(d, c, Get(want));
      && c1.Valid(d)
      && c1.r.taken == c.r.taken + (if c.r.open && c.r.framesIn == 0 then 1 else 0)
      && (c1.granted > 0 ==> c1.r.Position(d) == c.r.Position(d))
      && (c1.granted == 0 <==> !c.r.open || want == 0 || (c.r.framesIn == 0 && !d.Good(c.r.taken)))
      && (c1.granted > 0 ==> c1.granted == Min(want, if c.r.framesIn > 0 then c.r.framesIn else d.period))
  {
    if c.r.open && c.r.framesIn == 0 {
      LengthAdds(d, c.r.taken, 1);
    }
  }

  lemma UseConserves(d: Device, c: Client, use: Use)
    requires c.Valid(d) && Enabled(c, use)
    ensures Do(d, c, use).Valid(d)
    ensures Used(d, Do(d, c, use).r) == Used(d, c.r) + EventOf(d, c, use).frames
  {
    hide Used, Frames, GoodFrames, Reader.Position;
    var r, r1 := c.r, Do(d, c, use).r;
    match use
    case Get(want) =>
      if r.open && r.framesIn == 0 {
        LengthAdds(d, 0, 1);
        PendingUsed(d, r, r1, if d.Good(r.taken) then 1 else 0, 0);
        NoFrames(d, r);
      } else {
        NothingUsed(d, r, r1);
        NoFrames(d, r);
      }
    case Release(count) =>
      LengthAdds(d, 0, 0);
      PendingUsed(d, r, r1, 0, count);
    case Standby =>
      NothingUsed(d, r, r1);
      NoFrames(d, r);
    case Restart(resets) =>
      LengthAdds(d, 0, 0);
      if resets {
        PendingUsed(d, r, r1, 0, r.framesIn);
      } else {
        NothingUsed(d, r, r1);
        NoFrames(d, r);
      }
  }

  lemma NoFrames(d: Device, r: Reader)
    requires r.Valid(d)
    ensures Frames(d, r.Position(d), 0) == []
  {
  }

  ghost predicate Fair(d: Device, c: Client, uses: seq<Use>)
    requires c.Valid(d)
    decreases |uses|
  {
    uses != [] ==>
      && Enabled(c, uses[0])
      && (UseConserves(d, c, uses[0]); Fair(d, Do(d, c, uses[0]), uses[1..]))
  }

  ghost function After(d: Device, c: Client, uses: seq<Use>): Client
    requires c.Valid(d) && Fair(d, c, uses)
    decreases |uses|
  {
    if uses == [] then c
    else
      UseConserves(d, c, uses[0]);
      After(d, Do(d, c, uses[0]), uses[1..])
  }

  ghost function History(d: Device, c: Client, uses: seq<Use>): seq<Event>
    requires c.Valid(d) && Fair(d, c, uses)
    decreases |uses|
  {
    if uses == [] then []
    else
      UseConserves(d, c, uses[0]);
      [EventOf(d, c, uses[0])] + History(d, Do(d, c, uses[0]), uses[1..])
  }

  /** Conservation over any pattern of gets, releases, standbys and restarts, device failures included: the
      frames that left the buffer were released or dropped by a reset, once and in the device's order. */
  lemma {:induction false} UsesConserve(d: Device, c: Client, uses: seq<Use>)
    requires c.Valid(d) && Fair(d, c, uses)
    ensures After(d, c, uses).Valid(d)
    ensures Used(d, After(d, c, uses).r) == Used(d, c.r) + AllFrames(History(d, c, uses))
    decreases |uses|
  {
    hide Used, Do, EventOf, Enabled;
    if uses == [] {
      NothingLogged(Used(d, c.r));
    } else {
      var c1 := Do(d, c, uses[0]);
      UseConserves(d, c, uses[0]);
      UsesConserve(d, c1, uses[1..]);
      AllFramesCons(EventOf(d, c, uses[0]), History(d, c1, uses[1..]));
      Regroup(Used(d, c.r), EventOf(d, c, uses[0]).frames, AllFrames(History(d, c1, uses[1..])));
    }
  }

  /** Without resets nothing but releases takes frames. */
  lemma {:induction false} OnlyReleases(d: Device, c: Client, uses: seq<Use>)
    requires c.Valid(d) && Fair(d, c, uses)
    requires forall i :: 0 <= i < |uses| && uses[i].Restart? ==> !uses[i].resets
    ensures Outputs(History(d, c, uses)) == AllFrames(History(d, c, uses))
    decreases |uses|
  {
    if uses != [] {
      hide Do, Frames, Reader.Position;
      UseConserves(d, c, uses[0]);
      assert uses[0].Restart? ==> !uses[0].resets;
      OnlyReleases(d, Do(d, c, uses[0]), uses[1..]);
      var e, rest := EventOf(d, c, uses[0]), History(d, Do(d, c, uses[0]), uses[1..]);
      assert ([e] + rest)[1..] == rest;
    }
  }

  /** From a fresh stream, whatever the sizes, the gets that are never released and the failures of the device:
      without resets the released frames are those of the good periods read so far, but for the ones still in
      the buffer. */
  lemma ReleasedInOrder(d: Device, uses: seq<Use>)
    requires d.Valid() && Client(Reader(true, 0, 0, 0), 0).Valid(d) && Fair(d, Client(Reader(true, 0, 0, 0), 0), uses)
    requires forall i :: 0 <= i < |uses| && uses[i].Restart? ==> !uses[i].resets
    ensures var c0 := Client(Reader(true, 0, 0, 0), 0);
      var r, good := After(d, c0, uses).r, GoodFrames(d, After(d, c0, uses).r.taken);
      && r.framesIn <= |good| && Outputs(History(d, c0, uses)) == good[..|good| - r.framesIn]
      && ((forall k :: 0 <= k < r.taken ==> d.Good(k)) ==> |good| == PeriodsLength(d, r.taken))
  {
    hide Do, Fair, After, History, GoodFrames, Frames, PeriodsLength;
    var c0 := Client(Reader(true, 0, 0, 0), 0);
    UsesConserve(d, c0, uses);
    OnlyReleases(d, c0, uses);
    NothingTaken(d, c0.r);
    var r := After(d, c0, uses).r;
    LastPeriod(d, r);
    if forall k :: 0 <= k < r.taken ==> d.Good(k) {
      GoodGrows(d, 0, r.taken);
      LengthAdds(d, 0, 0);
    }
    var out := Outputs(History(d, c0, uses));
    assert Used(d, c0.r) + out == out;
  }
}
