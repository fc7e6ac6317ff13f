/** The compressed-offload stream: the sections of code that run under its lock. */
module OffloadStream {

  datatype Cmd = Exit | Drain | PartialDrain | WaitForBuffer
  datatype PlayState = Stopped | Playing | Paused
  datatype Metadata = Metadata(delay: int, padding: int)

  const NO_METADATA := Metadata(0, 0)

  /** Calls into the driver, and changes of the values it should be told about. Handle 0 is NULL. */
  datatype Call =
    | OpenCall(h: nat)
    | MetadataCall(h: nat, m: Metadata)
    | WriteCall(h: nat)
    | StartCall(h: nat)
    | StopCall(h: nat)
    | PauseCall(h: nat)
    | ResumeCall(h: nat)
    | CloseCall(h: nat)
    | MetadataChange(m: Metadata)

  /** The fields of tiny_stream_out that the protocol uses. sendLog and trace are its history, and changed says
      that the values have changed since they were last announced. */
  datatype Stream = Stream(
    compress: nat, nextHandle: nat, standby: bool, blocked: bool,
    started: bool, needMetadata: bool, mdata: Metadata, state: PlayState,
    cmds: seq<Cmd>, sendLog: seq<Cmd>, trace: seq<Call>, changed: bool)

  /** adev_open_output_stream: zero bytes, but for standby and the metadata flag. */
  const OPENED := Stream(0, 1, true, false, false, true, NO_METADATA, Stopped, [], [], [], false)

  function Record(s: Stream, c: Call): Stream {
    s.(trace := s.trace + [c])
  }

  function SendCmd(s: Stream, c: Cmd): Stream {
    s.(cmds := s.cmds + [c], sendLog := s.sendLog + [c])
  }

  /** audio_stop_compress_output up to the wait. */
  function StopSection(s: Stream): Stream {
    var t := s.(state := Stopped, started := false, needMetadata := true);
    if s.compress != 0 then Record(t, StopCall(s.compress)) else t
  }

  /** do_offload_output_standby after the wait. */
  function CloseSection(s: Stream): Stream {
    var t := Record(s.(mdata := NO_METADATA, changed := true), MetadataChange(NO_METADATA));
    (if s.compress != 0 then Record(t, CloseCall(s.compress)) else t).(compress := 0, standby := true)
  }

  /** audio_start_compress_output, when the driver opens. */
  function OpenSection(s: Stream): Stream {
    Record(s, OpenCall(s.nextHandle)).(compress := s.nextHandle, nextHandle := s.nextHandle + 1, standby := false)
  }

  /** The two stores of audio_get_compress_metadata, which takes no lock. */
  datatype Store = Values(m: Metadata) | Flag

  function Perform(s: Stream, x: Store): Stream {
    match x
    case Values(m) => Record(s, MetadataChange(m)).(mdata := m, changed := true)
    case Flag => s.(needMetadata := true)
  }

  function PerformAll(s: Stream, xs: seq<Store>): Stream
    decreases |xs|
  {
    if xs == [] then s else PerformAll(Perform(s, xs[0]), xs[1..])
  }

  /** How a write goes. opens: the driver opens, if it has to; short: it takes fewer bytes than offered; ready:
      the modem link is up. early and late are the stores of other threads that fall between the test and the
      clearing of the metadata flag, and between its clearing and the write. */
  datatype Course = Course(opens: bool, short: bool, ready: bool, early: seq<Store>, late: seq<Store>)

  /** The announcement of the gapless values in out_write_compress, before the flag is cleared. */
  function Announce(s: Stream): Stream {
    if s.needMetadata then Record(s, MetadataCall(s.compress, s.mdata)).(changed := false) else s
  }

  /** out_write_compress from the write on. */
  function SendData(s: Stream, short: bool, ready: bool): Stream {
    var b := Record(s, WriteCall(s.compress));
    var c := if short then SendCmd(b, WaitForBuffer) else b;
    if !c.started && ready then Record(c, StartCall(c.compress)).(started := true, state := Playing) else c
  }

  /** out_write_compress */
  function WriteCompress(s: Stream, w: Course): Stream {
    var b := PerformAll(Announce(s), w.early);
    var c := PerformAll(if s.needMetadata then b.(needMetadata := false) else b, w.late);
    SendData(c, w.short, w.ready)
  }

  /** The offload case of out_write. */
  function WriteSection(s: Stream, w: Course): Stream {
    if s.standby && !w.opens then s
    else WriteCompress(if s.standby then OpenSection(s) else s, w)
  }

  function PauseSection(s: Stream): Stream {
    if s.compress != 0 && s.state == Playing then Record(s, PauseCall(s.compress)).(state := Paused) else s
  }

  function ResumeSection(s: Stream): Stream {
    if s.compress != 0 && s.state == Paused then Record(s, ResumeCall(s.compress)).(state := Playing) else s
  }

  /** audio_get_compress_metadata with both values present, in one go. */
  function ChangeMetadata(s: Stream, m: Metadata): Stream {
    Perform(Perform(s, Values(m)), Flag)
  }
}
