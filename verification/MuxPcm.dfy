/** The playback writer of audio_mux_pcm.c: at most one window of bytes may be unacknowledged. */
module MuxPcm {
  import opened Arithmetic

  const AUDIO_PLAYBACK_BUFFER := 1024 * 3

  /** The modem's data pipe. What it will do is arbitrary: writes and acks hold the results of the calls
      to come; when a list has run out, every further call fails, as after a timeout. */
  class Pipe {
    var writes: seq<int>
    var acks: seq<int>
    ghost var accepted: seq<bv8>
    ghost var ackCalls: nat

    constructor (writes: seq<int>, acks: seq<int>)
      ensures this.writes == writes && this.acks == acks && accepted == [] && ackCalls == 0
    {
      this.writes, this.acks, accepted, ackCalls := writes, acks, [], 0;
    }

    /** write(2): negative on error, else the length of the prefix that was taken. */
    method Write(data: seq<bv8>) returns (bytes: int)
      modifies this
      ensures acks == old(acks) && ackCalls == old(ackCalls)
      ensures bytes <= |data|
      ensures accepted == old(accepted) + data[..if bytes > 0 then bytes else 0]
      ensures if old(writes) == [] then bytes == -1 && writes == []
              else bytes == (if old(writes)[0] <= |data| then old(writes)[0] else |data|) && writes == old(writes)[1..]
    {
      bytes := -1;
      if writes != [] {
        bytes := if writes[0] <= |data| then writes[0] else |data|;
        writes := writes[1..];
      }
      accepted := accepted + data[..if bytes > 0 then bytes else 0];
    }

    /** saudio_wait_common_cmd: the acknowledged count, or a negative value. */
    method WaitAck() returns (ack: int)
      modifies this
      ensures writes == old(writes) && accepted == old(accepted) && ackCalls == old(ackCalls) + 1
      ensures if old(acks) == [] then ack == -1 && acks == [] else ack == old(acks)[0] && acks == old(acks)[1..]
    {
      ackCalls := ackCalls + 1;
      ack := -1;
      if acks != [] {
        ack := acks[0];
        acks := acks[1..];
      }
    }
  }

  /** What a sequence of acknowledgements is worth to a wait for n bytes: an acknowledgement for more than is
      still outstanding counts nothing, a negative one ends the wait. */
  function Credited(n: nat, acks: seq<int>): (c: nat)
    ensures c <= n
    decreases |acks|
  {
    if n == 0 || acks == [] || acks[0] < 0 then 0
    else if acks[0] <= n then acks[0] + Credited(n - acks[0], acks[1..])
    else Credited(n, acks[1..])
  }

  /** The acknowledgements that such a wait leaves unread. */
  function Unread(n: nat, acks: seq<int>): (rest: seq<int>)
    ensures |rest| <= |acks|
    decreases |acks|
  {
    if n == 0 || acks == [] then acks
    else if acks[0] < 0 then acks[1..]
    else if acks[0] <= n then Unread(n - acks[0], acks[1..])
    else Unread(n, acks[1..])
  }

  /** What is outstanding of n bytes after some acknowledgements, each taken off if it fits. */
  function Outstanding(n: nat, acks: seq<int>): (left: nat)
    ensures left <= n
  {
    if acks == [] then n
    else
      var left, ack := Outstanding(n, acks[..|acks| - 1]), acks[|acks| - 1];
      if 0 <= ack <= left then left - ack else left
  }

  function Sum(acks: seq<int>): int {
    if acks == [] then 0 else Sum(acks[..|acks| - 1]) + acks[|acks| - 1]
  }

  /** The first k acknowledgements are not negative, and something is outstanding before each of them. */
  ghost predicate ReadsOn(n: nat, acks: seq<int>, k: nat)
    requires k <= |acks|
  {
    forall j :: 0 <= j < k ==> acks[j] >= 0 && Outstanding(n, acks[..j]) > 0
  }

  lemma {:induction false} OutstandingCons(n: nat, acks: seq<int>)
    requires acks != []
    ensures Outstanding(n, acks) == Outstanding(if 0 <= acks[0] <= n then n - acks[0] else n, acks[1..])
    decreases |acks|
  {
    if |acks| > 1 {
      OutstandingCons(n, acks[..|acks| - 1]);
      assert acks[..|acks| - 1][1..] == acks[1..][..|acks| - 2];
    } else {
      assert acks[..0] == [] && acks[1..] == [];
    }
  }

  lemma ReadsOnCons(n: nat, acks: seq<int>, k: nat)
    requires 0 < k <= |acks| && ReadsOn(n, acks, k)
    ensures n > 0 && acks[0] >= 0 && ReadsOn(if acks[0] <= n then n - acks[0] else n, acks[1..], k - 1)
    ensures Outstanding(n, acks[..k]) == Outstanding(if acks[0] <= n then n - acks[0] else n, acks[1..][..k - 1])
  {
    hide Outstanding;
    var rest, n1 := acks[1..], if acks[0] <= n then n - acks[0] else n;
    assert acks[..0] == [];
    assert Outstanding(n, []) == n by { NothingRead(n); }
    forall j | 0 < j <= k
      ensures acks[..j][1..] == rest[..j - 1]
      ensures acks[0] >= 0 ==> Outstanding(n, acks[..j]) == Outstanding(n1, rest[..j - 1])
    {
      OutstandingCons(n, acks[..j]);
      assert acks[..j][1..] == rest[..j - 1];
    }
    forall j | 0 <= j < k - 1
      ensures rest[j] >= 0 && Outstanding(n1, rest[..j]) > 0
    {
      assert acks[j + 1] >= 0 && Outstanding(n, acks[..j + 1]) > 0;
    }
  }

  lemma NothingRead(n: nat)
    ensures Outstanding(n, []) == n
  {
  }

  /** The wait reads on until a negative acknowledgement or until nothing is outstanding; it credits what the
      acknowledgements read have taken off, and leaves those behind them. */
  lemma {:induction false} CreditExact(n: nat, acks: seq<int>, k: nat)
    requires k <= |acks| && ReadsOn(n, acks, k)
    requires k == |acks| || acks[k] < 0 || Outstanding(n, acks[..k]) == 0
    ensures Credited(n, acks) == n - Outstanding(n, acks[..k])
    ensures Unread(n, acks) == acks[if k < |acks| && Outstanding(n, acks[..k]) > 0 then k + 1 else k..]
    decreases k
  {
    hide Outstanding, ReadsOn;
    if k == 0 {
      assert acks[..0] == [] && acks[0..] == acks;
      NothingRead(n);
    } else {
      var n1 := if acks[0] <= n then n - acks[0] else n;
      ReadsOnCons(n, acks, k);
      CreditExact(n1, acks[1..], k - 1);
      hide Credited, Unread;
      assert Credited(n, acks) == n - n1 + Credited(n1, acks[1..]) && Unread(n, acks) == Unread(n1, acks[1..]) by {
        ReadOne(n, acks);
      }
      assert acks[1..][k - 1..] == acks[k..];
      assert k < |acks| ==> acks[1..][k..] == acks[k + 1..];
    }
  }

  lemma ReadOne(n: nat, acks: seq<int>)
    requires n > 0 && acks != [] && acks[0] >= 0
    ensures var n1 := if acks[0] <= n then n - acks[0] else n;
      Credited(n, acks) == n - n1 + Credited(n1, acks[1..]) && Unread(n, acks) == Unread(n1, acks[1..])
  {
  }

  /** The first k acknowledgements, and no fewer, add up to n, in parts of any size. */
  ghost predicate Splits(n: nat, acks: seq<int>, k: nat) {
    && k <= |acks| && Sum(acks[..k]) == n
    && forall j :: 0 <= j < k ==> acks[j] >= 0 && Sum(acks[..j]) < n
  }

  lemma {:induction false} SplitReads(n: nat, acks: seq<int>, k: nat, j: nat)
    requires Splits(n, acks, k) && j <= k
    ensures Outstanding(n, acks[..j]) == n - Sum(acks[..j]) && 0 <= Sum(acks[..j]) <= n
  {
    if j > 0 {
      hide Splits;
      SplitReads(n, acks, k, j - 1);
      assert acks[..j][..j - 1] == acks[..j - 1];
      SplitPart(n, acks, k, j);
    }
  }

  lemma SplitPart(n: nat, acks: seq<int>, k: nat, j: nat)
    requires Splits(n, acks, k) && 0 < j <= k
    ensures j <= |acks| && acks[j - 1] >= 0 && Sum(acks[..j]) <= n
  {
    hide Sum;
  }

  /** A window acknowledged in parts of any size is credited in full, and the wait reads just these parts. */
  lemma SplitCredits(n: nat, acks: seq<int>, k: nat)
    requires Splits(n, acks, k)
    ensures ReadsOn(n, acks, k) && Outstanding(n, acks[..k]) == 0
    ensures Credited(n, acks) == n && Unread(n, acks) == acks[k..]
  {
    hide Outstanding, Sum, Credited, Unread;
    forall j | 0 <= j <= k
      ensures Outstanding(n, acks[..j]) == n - Sum(acks[..j])
    {
      SplitReads(n, acks, k, j);
    }
    CreditExact(n, acks, k);
  }

  /** sent: how much of the data went out; written: what is unacknowledged afterwards. */
  datatype Transfer = Transfer(sent: nat, written: int, failed: bool, acks: seq<int>)

  /** What one write call takes of left bytes, when the window already holds written. */
  function Taken(left: nat, written: nat, writes: seq<int>): (n: int)
    requires written <= AUDIO_PLAYBACK_BUFFER
    ensures n <= left && n <= AUDIO_PLAYBACK_BUFFER - written
  {
    if writes == [] then -1 else Min(writes[0], Min(left, AUDIO_PLAYBACK_BUFFER - written))
  }

  /** What a full window of now bytes is credited; a window that is not full is not waited for. */
  function Credit(now: nat, acks: seq<int>): (c: nat)
    ensures c <= now
  {
    if now == AUDIO_PLAYBACK_BUFFER then Credited(now, acks) else 0
  }

  function RestAcks(now: nat, acks: seq<int>): seq<int> {
    if now == AUDIO_PLAYBACK_BUFFER then Unread(now, acks) else acks
  }

  /** A wait that ends before the window is empty fails the call. */
  predicate WaitFails(now: nat, acks: seq<int>) {
    now == AUDIO_PLAYBACK_BUFFER && Credited(now, acks) < now
  }

  /** A call with left bytes to go on a handle with written bytes unacknowledged. */
  function TransferOf(left: nat, written: nat, writes: seq<int>, acks: seq<int>): (t: Transfer)
    requires written <= AUDIO_PLAYBACK_BUFFER
    ensures t.sent <= left && 0 <= t.written <= AUDIO_PLAYBACK_BUFFER
    decreases |writes|
  {
    var taken := Taken(left, written, writes);
    if left == 0 || taken <= 0 then Transfer(0, written, false, acks)
    else
      var now := written + taken;
      if WaitFails(now, acks) then Transfer(taken, now - Credit(now, acks), true, RestAcks(now, acks))
      else
        var t := TransferOf(left - taken, now - Credit(now, acks), writes[1..], RestAcks(now, acks));
        t.(sent := taken + t.sent)
  }

  /** A full window lets nothing through, and no acknowledgement is read: such a handle stays stuck. */
  lemma FullWindowIsStuck(left: nat, writes: seq<int>, acks: seq<int>)
    ensures TransferOf(left, AUDIO_PLAYBACK_BUFFER, writes, acks) == Transfer(0, AUDIO_PLAYBACK_BUFFER, false, acks)
  {
  }

  /** The acknowledgements that the failing wait of a call found, if it has one. */
  function WaitedOn(left: nat, written: nat, writes: seq<int>, acks: seq<int>): seq<int>
    requires written <= AUDIO_PLAYBACK_BUFFER
    decreases |writes|
  {
    var taken := Taken(left, written, writes);
    var now := written + taken;
    if left == 0 || taken <= 0 || WaitFails(now, acks) then acks
    else WaitedOn(left - taken, now - Credit(now, acks), writes[1..], RestAcks(now, acks))
  }

  /** The calls that leave a full window are exactly those that fail on a wait which credits nothing. */
  lemma {:induction false} StuckExactly(left: nat, written: nat, writes: seq<int>, acks: seq<int>)
    requires written < AUDIO_PLAYBACK_BUFFER
    ensures var t := TransferOf(left, written, writes, acks);
      && (t.failed ==> t.written == AUDIO_PLAYBACK_BUFFER - Credited(AUDIO_PLAYBACK_BUFFER, WaitedOn(left, written, writes, acks)))
      && (t.written == AUDIO_PLAYBACK_BUFFER <==>
           t.failed && Credited(AUDIO_PLAYBACK_BUFFER, WaitedOn(left, written, writes, acks)) == 0)
    decreases |writes|
  {
    hide Credited, Unread;
    var taken := Taken(left, written, writes);
    var now := written + taken;
    if left > 0 && taken > 0 && !WaitFails(now, acks) {
      StuckExactly(left - taken, now - Credit(now, acks), writes[1..], RestAcks(now, acks));
    }
  }

  /** Every acknowledgement that fits n bytes comes after a negative one. */
  ghost predicate NoneInTime(n: nat, acks: seq<int>) {
    forall i :: 0 <= i < |acks| && 1 <= acks[i] <= n ==> NegativeBefore(acks, i)
  }

  ghost predicate NegativeBefore(acks: seq<int>, i: nat)
    requires i <= |acks|
  {
    exists j :: 0 <= j < i && acks[j] < 0
  }

  lemma NegativeCons(acks: seq<int>, i: nat)
    requires acks != [] && 1 <= i <= |acks|
    ensures NegativeBefore(acks, i) <==> acks[0] < 0 || NegativeBefore(acks[1..], i - 1)
  {
    var rest := acks[1..];
    if NegativeBefore(rest, i - 1) {
      var j :| 0 <= j < i - 1 && rest[j] < 0;
      assert acks[j + 1] < 0;
    }
    if NegativeBefore(acks, i) {
      var j :| 0 <= j < i && acks[j] < 0;
      assert j > 0 ==> rest[j - 1] < 0;
    }
  }

  lemma NoneInTimeCons(n: nat, acks: seq<int>)
    requires acks != []
    ensures NoneInTime(n, acks) <==> acks[0] < 0 || (!(1 <= acks[0] <= n) && NoneInTime(n, acks[1..]))
  {
    hide NegativeBefore;
    var rest := acks[1..];
    assert !NegativeBefore(acks, 0) by { NothingBefore(acks); }
    forall i | 1 <= i < |acks|
      ensures acks[i] == rest[i - 1] && (NegativeBefore(acks, i) <==> acks[0] < 0 || NegativeBefore(rest, i - 1))
    {
      NegativeCons(acks, i);
    }
    if acks[0] >= 0 && NoneInTime(n, acks) {
      forall i | 0 <= i < |rest| && 1 <= rest[i] <= n
        ensures NegativeBefore(rest, i)
      {
        assert acks[i + 1] == rest[i];
      }
    }
  }

  lemma NothingBefore(acks: seq<int>)
    ensures !NegativeBefore(acks, 0)
  {
  }

  /** A wait credits nothing exactly if every acknowledgement that fits comes after a negative one. */
  lemma {:induction false} CreditsNothing(n: nat, acks: seq<int>)
    requires n > 0
    ensures Credited(n, acks) == 0 <==> NoneInTime(n, acks)
    decreases |acks|
  {
    if acks != [] {
      hide NoneInTime;
      NoneInTimeCons(n, acks);
      CreditsNothing(n, acks[1..]);
    }
  }

  /** How many windows the writes of a call fill, if each of them is credited in full. */
  function Filled(left: nat, written: nat, writes: seq<int>): nat
    requires written < AUDIO_PLAYBACK_BUFFER
    decreases |writes|
  {
    var taken := Taken(left, written, writes);
    if left == 0 || taken <= 0 then 0
    else if written + taken == AUDIO_PLAYBACK_BUFFER then 1 + Filled(left - taken, 0, writes[1..])
    else Filled(left - taken, written + taken, writes[1..])
  }

  lemma {:induction false} UnreadLess(n: nat, acks: seq<int>)
    ensures Credited(n, acks) > 0 ==> |Unread(n, acks)| < |acks|
    decreases |acks|
  {
    if n > 0 && acks != [] && acks[0] >= 0 {
      if acks[0] <= n {
        UnreadLess(n - acks[0], acks[1..]);
      } else {
        UnreadLess(n, acks[1..]);
      }
    }
  }

  /** How many windows the acknowledgements credit in full, and what they leave for the next one. */
  function Served(acks: seq<int>): nat
    decreases |acks|
  {
    if Credited(AUDIO_PLAYBACK_BUFFER, acks) < AUDIO_PLAYBACK_BUFFER then 0
    else
      UnreadLess(AUDIO_PLAYBACK_BUFFER, acks);
      1 + Served(Unread(AUDIO_PLAYBACK_BUFFER, acks))
  }

  function Rest(acks: seq<int>): seq<int>
    decreases |acks|
  {
    if Credited(AUDIO_PLAYBACK_BUFFER, acks) < AUDIO_PLAYBACK_BUFFER then acks
    else
      UnreadLess(AUDIO_PLAYBACK_BUFFER, acks);
      Rest(Unread(AUDIO_PLAYBACK_BUFFER, acks))
  }

  /** A call fails exactly if its writes fill more windows than the acknowledgements serve; its failing wait
      then finds what they leave. */
  lemma {:induction false} FailsExactly(left: nat, written: nat, writes: seq<int>, acks: seq<int>)
    requires written < AUDIO_PLAYBACK_BUFFER
    ensures TransferOf(left, written, writes, acks).failed <==> Filled(left, written, writes) > Served(acks)
    ensures TransferOf(left, written, writes, acks).failed ==> WaitedOn(left, written, writes, acks) == Rest(acks)
    decreases |writes|
  {
    hide Credited, Unread;
    var taken := Taken(left, written, writes);
    var now := written + taken;
    if left > 0 && taken > 0 && !WaitFails(now, acks) {
      FailsExactly(left - taken, now - Credit(now, acks), writes[1..], RestAcks(now, acks));
    }
  }

  function WindowBytes(m: nat): nat {
    AUDIO_PLAYBACK_BUFFER * m
  }

  /** The credited bytes of a call: one window for each that was filled and served, and what a failing wait was
      worth. */
  function CreditedBy(failed: bool, filled: nat, acks: seq<int>): nat {
    if failed then WindowBytes(Served(acks)) + Credited(AUDIO_PLAYBACK_BUFFER, Rest(acks))
    else WindowBytes(filled)
  }

  lemma ServedCases(acks: seq<int>)
    ensures Credited(AUDIO_PLAYBACK_BUFFER, acks) < AUDIO_PLAYBACK_BUFFER ==> Served(acks) == 0 && Rest(acks) == acks
    ensures Credited(AUDIO_PLAYBACK_BUFFER, acks) == AUDIO_PLAYBACK_BUFFER ==>
      var rest := Unread(AUDIO_PLAYBACK_BUFFER, acks); Served(acks) == 1 + Served(rest) && Rest(acks) == Rest(rest)
  {
    hide Credited, Unread;
  }

  lemma OneWindow(m: nat)
    ensures WindowBytes(m + 1) == AUDIO_PLAYBACK_BUFFER + WindowBytes(m) && WindowBytes(0) == 0
  {
  }

  lemma CreditedByCases(failed: bool, filled: nat, acks: seq<int>)
    ensures Credited(AUDIO_PLAYBACK_BUFFER, acks) < AUDIO_PLAYBACK_BUFFER ==>
      CreditedBy(true, filled, acks) == Credited(AUDIO_PLAYBACK_BUFFER, acks)
    ensures Credited(AUDIO_PLAYBACK_BUFFER, acks) == AUDIO_PLAYBACK_BUFFER ==>
      CreditedBy(failed, filled + 1, acks)
        == AUDIO_PLAYBACK_BUFFER + CreditedBy(failed, filled, Unread(AUDIO_PLAYBACK_BUFFER, acks))
    ensures CreditedBy(false, 0, acks) == 0
  {
    hide Credited, Unread, WindowBytes, Served, Rest;
    ServedCases(acks);
    OneWindow(filled);
    OneWindow(0);
    OneWindow(Served(Unread(AUDIO_PLAYBACK_BUFFER, acks)));
  }

  /** Every byte that has gone out is in the window or has been credited. */
  lemma {:induction false} BytesConserved(left: nat, written: nat, writes: seq<int>, acks: seq<int>)
    requires written < AUDIO_PLAYBACK_BUFFER
    ensures var t := TransferOf(left, written, writes, acks);
      written + t.sent == t.written + CreditedBy(t.failed, Filled(left, written, writes), acks)
    decreases |writes|
  {
    hide Credited, Unread, CreditedBy;
    var taken := Taken(left, written, writes);
    var now := written + taken;
    var t := TransferOf(left, written, writes, acks);
    if left == 0 || taken <= 0 {
      CreditedByCases(false, 0, acks);
    } else if WaitFails(now, acks) {
      CreditedByCases(true, Filled(left, written, writes), acks);
    } else {
      var next := now - Credit(now, acks);
      BytesConserved(left - taken, next, writes[1..], RestAcks(now, acks));
      CreditedByCases(t.failed, Filled(left - taken, next, writes[1..]), acks);
    }
  }

  /** The writes and acknowledgements that leave a handle stuck. */
  ghost predicate Sticks(left: nat, written: nat, writes: seq<int>, acks: seq<int>)
    requires written < AUDIO_PLAYBACK_BUFFER
  {
    Filled(left, written, writes) > Served(acks) && NoneInTime(AUDIO_PLAYBACK_BUFFER, Rest(acks))
  }

  /** A call leaves a full window exactly if its writes fill more windows than are served, and nothing that fits
      comes in time for the first one that is not. */
  lemma SticksExactly(left: nat, written: nat, writes: seq<int>, acks: seq<int>)
    requires written < AUDIO_PLAYBACK_BUFFER
    ensures TransferOf(left, written, writes, acks).written == AUDIO_PLAYBACK_BUFFER <==> Sticks(left, written, writes, acks)
  {
    hide TransferOf, WaitedOn, Credited, Filled, Served, Rest, NoneInTime;
    StuckExactly(left, written, writes, acks);
    FailsExactly(left, written, writes, acks);
    CreditsNothing(AUDIO_PLAYBACK_BUFFER, Rest(acks));
  }

  /** One write that fills the window, and no acknowledgement before the timeout: the handle is stuck. */
  lemma FirstTimeoutSticks()
    ensures TransferOf(AUDIO_PLAYBACK_BUFFER, 0, [AUDIO_PLAYBACK_BUFFER], [])
         == Transfer(AUDIO_PLAYBACK_BUFFER, AUDIO_PLAYBACK_BUFFER, true, [])
  {
  }

  /** What is left in the window of a handle on which total bytes have gone out and whole windows were
      acknowledged. */
  function InWindow(total: nat): nat {
    total % AUDIO_PLAYBACK_BUFFER
  }

  /** How many full windows that makes. */
  function Windows(total: nat): nat {
    total / AUDIO_PLAYBACK_BUFFER
  }

  /** A device that takes something at every write. */
  ghost predicate TakesSome(writes: seq<int>) {
    forall i :: 0 <= i < |writes| ==> writes[i] > 0
  }

  /** The first k acknowledgements, and no fewer, bring a full window down to nothing, over-acks included. */
  ghost predicate Serves(acks: seq<int>, k: nat) {
    && k <= |acks| && ReadsOn(AUDIO_PLAYBACK_BUFFER, acks, k)
    && Outstanding(AUDIO_PLAYBACK_BUFFER, acks[..k]) == 0
  }

  /** The acknowledgements bring m windows down to nothing, one after the other. */
  ghost predicate ServesWindows(acks: seq<int>, m: nat)
    decreases m
  {
    m == 0 || exists k: nat :: Serves(acks, k) && ServesWindows(acks[k..], m - 1)
  }

  /** The acknowledgements are those of m windows, each in parts of any size. */
  ghost predicate SplitWindows(acks: seq<int>, m: nat)
    decreases m
  {
    m == 0 || exists k: nat :: Splits(AUDIO_PLAYBACK_BUFFER, acks, k) && SplitWindows(acks[k..], m - 1)
  }

  lemma {:induction false} SplitsServe(acks: seq<int>, m: nat)
    requires SplitWindows(acks, m)
    ensures ServesWindows(acks, m)
    decreases m
  {
    hide ReadsOn, Outstanding, Sum;
    if m > 0 {
      var k: nat :| Splits(AUDIO_PLAYBACK_BUFFER, acks, k) && SplitWindows(acks[k..], m - 1);
      SplitCredits(AUDIO_PLAYBACK_BUFFER, acks, k);
      assert Serves(acks, k);
      SplitsServe(acks[k..], m - 1);
    }
  }

  /** Where a wait for n bytes stops. */
  lemma {:induction false} StopsAt(n: nat, acks: seq<int>, from: nat) returns (k: nat)
    requires from <= |acks| && ReadsOn(n, acks, from)
    ensures k <= |acks| && ReadsOn(n, acks, k)
    ensures k == |acks| || acks[k] < 0 || Outstanding(n, acks[..k]) == 0
    decreases |acks| - from
  {
    if from == |acks| || acks[from] < 0 || Outstanding(n, acks[..from]) == 0 {
      k := from;
    } else {
      k := StopsAt(n, acks, from + 1);
    }
  }

  /** The windows served are as many as the acknowledgements bring down to nothing. */
  lemma {:induction false} ServedExactly(acks: seq<int>, m: nat)
    ensures m <= Served(acks) <==> ServesWindows(acks, m)
    decreases m
  {
    hide Credited, Unread, Outstanding, ReadsOn;
    if m > 0 {
      var k := StopsAtFirst(acks);
      CreditExact(AUDIO_PLAYBACK_BUFFER, acks, k);
      forall l: nat | Serves(acks, l)
        ensures Credited(AUDIO_PLAYBACK_BUFFER, acks) == AUDIO_PLAYBACK_BUFFER
             && Unread(AUDIO_PLAYBACK_BUFFER, acks) == acks[l..]
      {
        CreditExact(AUDIO_PLAYBACK_BUFFER, acks, l);
      }
      if Credited(AUDIO_PLAYBACK_BUFFER, acks) == AUDIO_PLAYBACK_BUFFER {
        assert Serves(acks, k);
        ServedExactly(acks[k..], m - 1);
      }
    }
  }

  lemma StopsAtFirst(acks: seq<int>) returns (k: nat)
    ensures k <= |acks| && ReadsOn(AUDIO_PLAYBACK_BUFFER, acks, k)
    ensures k == |acks| || acks[k] < 0 || Outstanding(AUDIO_PLAYBACK_BUFFER, acks[..k]) == 0
  {
    k := StopsAt(AUDIO_PLAYBACK_BUFFER, acks, 0);
  }

  lemma FillStep(left: nat, written: nat, taken: nat)
    requires written < AUDIO_PLAYBACK_BUFFER && taken <= left && written + taken <= AUDIO_PLAYBACK_BUFFER
    ensures var now := if written + taken == AUDIO_PLAYBACK_BUFFER then 0 else written + taken;
      && Windows(written + left) == Windows(now + (left - taken)) + (if now == 0 && taken > 0 then 1 else 0)
      && InWindow(written + left) == InWindow(now + (left - taken))
  {
  }

  /** However the writes are cut, a call that takes everything fills as many windows as the total makes. */
  lemma {:induction false} FillsWindows(left: nat, written: nat, writes: seq<int>)
    requires written < AUDIO_PLAYBACK_BUFFER && left <= |writes| && TakesSome(writes)
    ensures Filled(left, written, writes) == Windows(written + left)
    decreases |writes|
  {
    if left > 0 {
      hide Windows, InWindow;
      var taken := Taken(left, written, writes);
      FillStep(left, written, taken);
      FillsWindows(left - taken, if written + taken == AUDIO_PLAYBACK_BUFFER then 0 else written + taken, writes[1..]);
    } else {
      NothingFills(written);
    }
  }

  lemma NothingFills(written: nat)
    requires written < AUDIO_PLAYBACK_BUFFER
    ensures Windows(written) == 0 && InWindow(written) == written
  {
  }

  /** A call on a device that takes something at every write sends everything unless it fails. */
  lemma {:induction false} SendsAll(left: nat, written: nat, writes: seq<int>, acks: seq<int>)
    requires written < AUDIO_PLAYBACK_BUFFER && left <= |writes| && TakesSome(writes)
    ensures var t := TransferOf(left, written, writes, acks);
      !t.failed ==> t.sent == left && t.written == InWindow(written + left)
    decreases |writes|
  {
    hide Credited, Unread;
    if left > 0 {
      hide Windows, InWindow;
      var taken := Taken(left, written, writes);
      var now := written + taken;
      FillStep(left, written, taken);
      if !WaitFails(now, acks) {
        SendsAll(left - taken, now - Credit(now, acks), writes[1..], RestAcks(now, acks));
      }
    } else {
      NothingFills(written);
    }
  }

  /** Whatever the pattern of short writes, as long as every write takes something: all of the data goes out and
      the call succeeds exactly if the acknowledgements bring down as many windows as the total fills; each may
      come in parts of any size. */
  lemma EverythingGoesOut(left: nat, written: nat, writes: seq<int>, acks: seq<int>)
    requires written < AUDIO_PLAYBACK_BUFFER && left <= |writes| && TakesSome(writes)
    ensures var t := TransferOf(left, written, writes, acks);
      && (!t.failed <==> ServesWindows(acks, Windows(written + left)))
      && (!t.failed ==> t.sent == left && t.written == InWindow(written + left))
      && (SplitWindows(acks, Windows(written + left)) ==> !t.failed)
  {
    hide *;
    FailsExactly(left, written, writes, acks);
    FillsWindows(left, written, writes);
    ServedExactly(acks, Windows(written + left));
    SendsAll(left, written, writes, acks);
    if SplitWindows(acks, Windows(written + left)) {
      SplitsServe(acks, Windows(written + left));
    }
  }

  /** One round of the write loop. */
  lemma TransferCases(left: nat, written: nat, writes: seq<int>, acks: seq<int>)
    requires written <= AUDIO_PLAYBACK_BUFFER
    ensures var taken := Taken(left, written, writes);
      var now := written + taken;
      TransferOf(left, written, writes, acks) ==
        if left == 0 || taken <= 0 then Transfer(0, written, false, acks)
        else if WaitFails(now, acks) then Transfer(taken, now - Credit(now, acks), true, RestAcks(now, acks))
        else
          var t := TransferOf(left - taken, now - Credit(now, acks), writes[1..], RestAcks(now, acks));
          t.(sent := taken + t.sent)
  {
  }

  class Handle {
    const pipe: Pipe
    var started: bool
    var bytesWritten: int
    ghost var acknowledged: nat

    /** Over all calls so far: bytes accepted minus bytes credited, and never more than one window. */
    ghost predicate Valid()
      reads this, pipe
    {
      && 0 <= bytesWritten <= AUDIO_PLAYBACK_BUFFER
      && bytesWritten == |pipe.accepted| - acknowledged
    }

    constructor (writes: seq<int>, acks: seq<int>)
      ensures Valid() && fresh(pipe) && bytesWritten == 0 && !started
      ensures pipe.writes == writes && pipe.acks == acks && pipe.accepted == []
    {
      pipe := new Pipe(writes, acks);
      started, bytesWritten, acknowledged := false, 0, 0;
    }

    /** mux_write_wait_response. */
    method WaitResponse(bytesToWait0: nat) returns (ret: int, bytesReceived: nat)
      modifies pipe
      ensures pipe.accepted == old(pipe.accepted) && pipe.writes == old(pipe.writes)
      ensures bytesReceived == Credited(bytesToWait0, old(pipe.acks))
      ensures pipe.acks == Unread(bytesToWait0, old(pipe.acks))
      ensures ret <= 0 && (ret == 0 <==> bytesReceived == bytesToWait0)
      ensures forall k: nat :: Splits(bytesToWait0, old(pipe.acks), k) ==> ret == 0 && pipe.acks == old(pipe.acks)[k..]
    {
      forall k: nat | Splits(bytesToWait0, pipe.acks, k)
        ensures Credited(bytesToWait0, pipe.acks) == bytesToWait0 && Unread(bytesToWait0, pipe.acks) == pipe.acks[k..]
      {
        SplitCredits(bytesToWait0, pipe.acks, k);
      }
      hide Splits;
      var bytesToWait := bytesToWait0;
      ret := 0;
      while bytesToWait != 0
        invariant pipe.accepted == old(pipe.accepted) && pipe.writes == old(pipe.writes)
        invariant 0 <= bytesToWait <= bytesToWait0
        invariant bytesToWait == 0 ==> ret >= 0
        invariant bytesToWait0 - bytesToWait + Credited(bytesToWait, pipe.acks) == Credited(bytesToWait0, old(pipe.acks))
        invariant Unread(bytesToWait, pipe.acks) == Unread(bytesToWait0, old(pipe.acks))
        decreases |pipe.acks|, bytesToWait
      {
        ghost var before := pipe.acks;
        ret := pipe.WaitAck();
        if ret < 0 {
          break;
        }
        if bytesToWait >= ret {
          bytesToWait := bytesToWait - ret;
        } else {
          ret := -1;
        }
      }
      bytesReceived := bytesToWait0 - bytesToWait;
      ret := if ret < 0 then ret else 0;
    }

    /** The body of the write loop: offer what fits the window, and wait when the window is full. */
    method SendChunk(data: seq<bv8>) returns (bytes: int, failed: bool)
      requires Valid() && data != []
      modifies this, pipe
      ensures Valid() && started == old(started)
      ensures var now := old(bytesWritten) + bytes;
        && bytes == Taken(|data|, old(bytesWritten), old(pipe.writes))
        && (bytes <= 0 ==> !failed && bytesWritten == old(bytesWritten) && pipe.acks == old(pipe.acks)
                           && pipe.accepted == old(pipe.accepted))
        && (bytes > 0 ==> failed == WaitFails(now, old(pipe.acks))
                          && bytesWritten == now - Credit(now, old(pipe.acks))
                          && pipe.acks == RestAcks(now, old(pipe.acks))
                          && pipe.accepted == old(pipe.accepted) + data[..bytes]
                          && old(pipe.writes) != [] && pipe.writes == old(pipe.writes)[1..])
    {
      hide Credited, Unread;
      failed := false;
      var room := AUDIO_PLAYBACK_BUFFER - bytesWritten;
      var sendlen := if |data| < room then |data| else room;
      bytes := pipe.Write(data[..sendlen]);
      if bytes > 0 {
        assert data[..sendlen][..bytes] == data[..bytes];
        bytesWritten := bytesWritten + bytes;
        if bytesWritten >= AUDIO_PLAYBACK_BUFFER {
          var ret, bytesReceived := WaitResponse(bytesWritten);
          bytesWritten := bytesWritten - bytesReceived;
          acknowledged := acknowledged + bytesReceived;
          failed := ret != 0;
        }
      }
    }

    /** mux_pcm_write on an open handle; startOk: the modem accepts the START command, if one is due. */
    method Write(data: seq<bv8>, startOk: bool) returns (ret: int)
      requires Valid() && |data| < 0x8000_0000
      modifies this, pipe
      ensures Valid() && started
      ensures var t := if old(started) || startOk
                       then TransferOf(|data|, old(bytesWritten), old(pipe.writes), old(pipe.acks))
                       else Transfer(0, old(bytesWritten), false, old(pipe.acks));
        && ret == (if t.failed then -1 else t.sent)
        && bytesWritten == t.written
        && pipe.acks == t.acks
        && pipe.accepted == old(pipe.accepted) + data[..t.sent]
      ensures old(bytesWritten) == AUDIO_PLAYBACK_BUFFER ==>
        && ret == 0 && bytesWritten == AUDIO_PLAYBACK_BUFFER
        && pipe.accepted == old(pipe.accepted) && pipe.acks == old(pipe.acks)
      ensures old(bytesWritten) < AUDIO_PLAYBACK_BUFFER ==>
        var going := old(started) || startOk;
        && (ret == -1 <==> going && Filled(|data|, old(bytesWritten), old(pipe.writes)) > Served(old(pipe.acks)))
        && (bytesWritten == AUDIO_PLAYBACK_BUFFER <==>
             going && Sticks(|data|, old(bytesWritten), old(pipe.writes), old(pipe.acks)))
    {
      hide TransferOf, Credit, RestAcks, WaitFails, Taken, Sticks, Filled, Served;
      if bytesWritten == AUDIO_PLAYBACK_BUFFER {
        FullWindowIsStuck(|data|, pipe.writes, pipe.acks);
      } else {
        SticksExactly(|data|, bytesWritten, pipe.writes, pipe.acks);
        FailsExactly(|data|, bytesWritten, pipe.writes, pipe.acks);
      }
      if !started {
        started := true;
        if !startOk {
          return 0;
        }
      }
      var left := |data|;
      ghost var t := TransferOf(|data|, bytesWritten, pipe.writes, pipe.acks);
      while left != 0
        invariant 0 <= left <= |data|
        invariant Valid() && started
        invariant pipe.accepted == old(pipe.accepted) + data[..|data| - left]
        invariant var u := TransferOf(left, bytesWritten, pipe.writes, pipe.acks);
          t == u.(sent := |data| - left + u.sent)
        decreases |pipe.writes|
      {
        var sent := |data| - left;
        TransferCases(left, bytesWritten, pipe.writes, pipe.acks);
        var bytes, failed := SendChunk(data[sent..]);
        if bytes <= 0 {
          // The return code is 0 here, so the loop ends whatever errno is.
          break;
        }
        assert data[..sent] + data[sent..][..bytes] == data[..sent + bytes];
        left := left - bytes;
        if failed {
          return -1;
        }
      }
      TransferCases(left, bytesWritten, pipe.writes, pipe.acks);
      ret := |data| - left;
    }
  }
}
