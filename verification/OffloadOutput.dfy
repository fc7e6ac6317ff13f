/** The offload stream's own code. Each method performs a section of the protocol and keeps what the protocol
    says of the stream; its frame names every field it may change. */
module OffloadOutput {
  import opened OffloadStream
  import opened OffloadProtocol

  class OutStream {
    var compress: nat
    var nextHandle: nat
    var standby: bool
    var blocked: bool
    var started: bool
    var needMetadata: bool
    var mdata: Metadata
    var state: PlayState
    var cmds: seq<Cmd>
    ghost var sendLog: seq<Cmd>
    ghost var trace: seq<Call>
    ghost var changed: bool

    ghost function View(): Stream
      reads this
    {
      Stream(compress, nextHandle, standby, blocked, started, needMetadata, mdata, state, cmds, sendLog, trace, changed)
    }

    /** STOPED means not started, a stream without a handle is in standby, and an open driver has been told the
        current gapless values or is still to be told. */
    ghost predicate Valid()
      reads this
    {
      && PlayInv(View())
      && StreamTold(View())
      && (standby <==> compress == 0)
      && compress < nextHandle
    }

    /** Every write so far found the driver told the current values on its own handle. */
    ghost predicate Announced()
      reads this
    {
      WritesJustified(trace)
    }

    constructor ()
      ensures Valid() && Announced() && View() == OPENED
    {
      compress, nextHandle, standby, blocked := 0, 1, true, false;
      started, needMetadata, mdata, state := false, true, NO_METADATA, Stopped;
      cmds, sendLog, trace, changed := [], [], [], false;
    }

    /** audio_send_offload_cmd */
    method Send(c: Cmd)
      requires Valid()
      modifies this`cmds, this`sendLog
      ensures Valid() && View() == SendCmd(old(View()), c)
    {
      cmds := cmds + [c];
      sendLog := sendLog + [c];
    }

    /** audio_stop_compress_output up to the wait: the stream is stopped and its next write announces the
        values again. The driver is stopped if it is open, and the handle stays. */
    method StopCompressOutput()
      requires Valid()
      modifies this`state, this`started, this`needMetadata, this`trace
      ensures Valid() && (Announced() <==> old(Announced()))
      ensures state == Stopped && needMetadata
      ensures trace == old(trace) + if standby then [] else [StopCall(compress)]
      ensures View() == StopSection(old(View()))
    {
      StopTold(View());
      hide StreamTold, WritesJustified;
      state := Stopped;
      started := false;
      needMetadata := true;
      if compress != 0 {
        trace := trace + [StopCall(compress)];
      }
    }

    /** The rest of do_offload_output_standby: the handle is closed once, and no handle is left. */
    method CloseCompressOutput()
      requires Valid()
      modifies this`mdata, this`trace, this`changed, this`compress, this`standby
      ensures Valid() && (Announced() <==> old(Announced()))
      ensures standby && compress == 0
      ensures trace == old(trace) + [MetadataChange(NO_METADATA)] + if old(standby) then [] else [CloseCall(old(compress))]
      ensures View() == CloseSection(old(View()))
    {
      CloseTold(View());
      hide StreamTold, WritesJustified;
      mdata, changed := NO_METADATA, true;
      trace := trace + [MetadataChange(NO_METADATA)];
      if compress != 0 {
        trace := trace + [CloseCall(compress)];
        compress := 0;
      }
      standby := true;
    }

    /** do_offload_output_standby while the worker is not in a driver call: the next write opens the driver
        with the flag set, so it is announced. */
    method Standby()
      requires Valid() && !blocked
      modifies this
      ensures Valid() && (Announced() <==> old(Announced()))
      ensures standby && state == Stopped && needMetadata && cmds == old(cmds)
      ensures forall w: Course :: w.early == w.late == [] ==> !Unannounced(View(), w)
    {
      hide StreamTold, WritesJustified;
      StopCompressOutput();
      CloseCompressOutput();
    }

    /** audio_start_compress_output: 0 if the driver opens, on a handle never used before; else -1 and nothing
        has changed. */
    method StartCompressOutput(opens: bool) returns (ret: int)
      modifies this`trace, this`compress, this`nextHandle, this`standby
      ensures ret == if opens then 0 else -1
      ensures opens ==> compress == old(nextHandle) < nextHandle && !standby && trace == old(trace) + [OpenCall(compress)]
      ensures View() == if opens then OpenSection(old(View())) else old(View())
    {
      if !opens {
        return -1;
      }
      trace := trace + [OpenCall(nextHandle)];
      compress := nextHandle;
      nextHandle := nextHandle + 1;
      standby := false;
      ret := 0;
    }

    /** The announcement of out_write_compress, with nobody storing in between. */
    method TellMetadata()
      modifies this`trace, this`changed, this`needMetadata
      ensures !needMetadata
      ensures View() == if old(needMetadata) then Announce(old(View())).(needMetadata := false) else old(View())
    {
      if needMetadata {
        trace := trace + [MetadataCall(compress, mdata)];
        changed := false;
        needMetadata := false;
      }
    }

    /** The rest of out_write_compress; written is what the driver's compress_write returned. */
    method SendBytes(bytes: nat, written: int, ready: bool) returns (ret: int)
      requires written <= bytes
      modifies this`trace, this`cmds, this`sendLog, this`started, this`state
      ensures View() == SendData(old(View()), 0 <= written < bytes, ready)
      ensures started == (old(started) || ready)
      ensures cmds == old(cmds) + if 0 <= written < bytes then [WaitForBuffer] else []
      ensures ret == if started then written else -1
    {
      ret := written;
      trace := trace + [WriteCall(compress)];
      if ret >= 0 && ret < bytes {
        cmds := cmds + [WaitForBuffer];
        sendLog := sendLog + [WaitForBuffer];
      }
      if !started {
        if !ready {
          return -1;
        }
        trace := trace + [StartCall(compress)];
        started := true;
        state := Playing;
      }
    }

    /** out_write_compress */
    method WriteCompressed(bytes: nat, written: int, ready: bool, ghost w: Course) returns (ret: int)
      requires written <= bytes && w == Course(w.opens, 0 <= written < bytes, ready, [], [])
      modifies this`trace, this`changed, this`needMetadata, this`cmds, this`sendLog, this`started, this`state
      ensures View() == WriteCompress(old(View()), w)
      ensures !needMetadata && started == (old(started) || ready)
      ensures cmds == old(cmds) + if 0 <= written < bytes then [WaitForBuffer] else []
      ensures ret == if started then written else -1
    {
      PlainCompress(View(), w);
      hide WriteCompress, SendData, Announce;
      TellMetadata();
      ret := SendBytes(bytes, written, ready);
    }

    /** The offload case of out_write, with nobody storing in between: the write is announced, and the stream
        stays valid, exactly if the flag is set, or the driver is open and knows the values. */
    method OutWrite(bytes: nat, opens: bool, written: int, ready: bool) returns (ret: int)
      requires Valid() && written <= bytes
      modifies this
      ensures var gap := old(!(standby && !opens) && !needMetadata && (standby || changed));
        && (Announced() <==> old(Announced()) && !gap)
        && (!gap ==> Valid())
      ensures old(standby) && !opens ==> ret == -1 && View() == old(View())
      ensures !(old(standby) && !opens) ==> !standby && ret == if started then written else -1
      ensures View() == WriteSection(old(View()), Course(opens, 0 <= written < bytes, ready, [], []))
    {
      ghost var w := Course(opens, 0 <= written < bytes, ready, [], []);
      WriteTold(View(), w);
      WriteStays(View(), w);
      hide WriteCompress, StreamTold, WritesJustified, PlayInv, StaysTold, OpenSection, Unannounced, Announce;
      PlainUnannounced(View(), w);
      ToldAfter(View(), WriteSection(View(), w));
      if standby {
        ret := StartCompressOutput(opens);
        if ret != 0 {
          return;
        }
      }
      ret := WriteCompressed(bytes, written, ready, w);
    }

    /** PAUSED is entered only from PLAYING with a handle, by one call to the driver. */
    method Pause()
      requires Valid()
      modifies this`state, this`trace
      ensures Valid() && (Announced() <==> old(Announced()))
      ensures state == Paused <==> old(state) == Paused || (old(state) == Playing && !standby)
      ensures state != Paused ==> state == old(state)
      ensures trace == old(trace) + if state == old(state) then [] else [PauseCall(compress)]
      ensures View() == PauseSection(old(View()))
    {
      PauseTold(View());
      hide StreamTold, WritesJustified;
      if compress != 0 && state == Playing {
        trace := trace + [PauseCall(compress)];
        state := Paused;
      }
    }

    /** A paused stream with a handle plays again, by one call to the driver; nothing else is resumed. */
    method Resume()
      requires Valid()
      modifies this`state, this`trace
      ensures Valid() && (Announced() <==> old(Announced()))
      ensures state == Playing <==> old(state) == Playing || (old(state) == Paused && !standby)
      ensures state != Playing ==> state == old(state)
      ensures trace == old(trace) + if state == old(state) then [] else [ResumeCall(compress)]
      ensures View() == ResumeSection(old(View()))
    {
      ResumeTold(View());
      hide StreamTold, WritesJustified;
      if compress != 0 && state == Paused {
        trace := trace + [ResumeCall(compress)];
        state := Playing;
      }
    }

    /** audio_get_compress_metadata */
    method GetCompressMetadata(m: Metadata)
      requires Valid()
      modifies this`mdata, this`needMetadata, this`trace, this`changed
      ensures Valid() && (Announced() <==> old(Announced()))
      ensures mdata == m && needMetadata
      ensures View() == ChangeMetadata(old(View()), m)
    {
      ghost var half := Perform(View(), Values(m));
      StoreTold(View(), Values(m));
      StoreTold(half, Flag);
      hide StreamTold, WritesJustified;
      mdata, changed := m, true;
      needMetadata := true;
      trace := trace + [MetadataChange(m)];
    }

    /** The worker takes the head of the list; it blocks only for a command it will carry out. */
    method TakeCommand() returns (c: Cmd, runs: bool)
      requires Valid() && cmds != []
      modifies this`cmds, this`blocked
      ensures Valid()
      ensures c == old(cmds)[0] && runs == (c != Exit && !standby)
      ensures cmds == (if c == Exit then [] else old(cmds)[1..]) && blocked == (runs || old(blocked))
    {
      c, cmds := cmds[0], cmds[1..];
      runs := false;
      if c == Exit {
        cmds := [];
      } else if compress != 0 {
        blocked := true;
        runs := true;
      }
    }
  }

  lemma PlainUnannounced(s: Stream, w: Course)
    requires w.early == w.late == []
    ensures Unannounced(s, w) <==> !(s.standby && !w.opens) && !s.needMetadata && (s.standby || s.changed)
  {
  }

  lemma ToldAfter(s: Stream, t: Stream)
    requires StreamTold(s)
    ensures StaysTold(s, t) ==> StreamTold(t) && (WritesJustified(t.trace) <==> WritesJustified(s.trace))
  {
  }

  lemma WriteStays(s: Stream, w: Course)
    requires PlayInv(s) && (s.standby <==> s.compress == 0) && s.compress < s.nextHandle
    ensures var t := WriteSection(s, w);
      && PlayInv(t) && (t.standby <==> t.compress == 0) && t.compress < t.nextHandle
  {
    hide WriteSection;
    WritePlays(s, w);
    WriteSectionFacts(s, w);
  }
}
