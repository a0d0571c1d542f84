/** The RFExplorer driver object (rfx/protocol.go:411-997) without its serial port: the
    256-byte write buffer that SendCommand and SetLCDEnabled fill, a log of the frames
    written to the port, the one-slot end-of-presets acknowledgement, the configuration
    stored by New, the packets handed to the reader, and the receive decoder. */
module Explorer {
  import opened Wire
  import opened Packets
  import opened Decoding
  import opened StreamDecoder
  import opened Commands

  /** `make([]byte, 256)` (rfx/protocol.go:440). */
  const WriteBufferSize: int := 256

  /** The frames one command writes: its frame, or none when it fails. */
  function Writes(r: Result<seq<byte>, Error>): (w: seq<seq<byte>>)
    ensures |w| <= 1
    ensures r.Failure? <==> w == []
  {
    if r.Success? then [r.value] else []
  }

  /** The error a command returns: none when its frame was written. */
  function ErrorOf(r: Result<seq<byte>, Error>): (e: Option<Error>)
    ensures e.None? <==> r.Success?
  {
    if r.Success? then None else Some(r.error)
  }

  /** The configuration New waits for: the first CurrentConfig among the packets, or
      failure when the packet stream ends without one (rfx/protocol.go:453-464). */
  function FirstConfig(packets: seq<Packet>): (r: Result<Config, Error>)
    ensures r.Failure? <==> forall i :: 0 <= i < |packets| ==> !packets[i].CurrentConfig?
    ensures r.Failure? ==> r.error == SetupFailed
    ensures r.Success? ==>
      exists i :: 0 <= i < |packets| && packets[i] == CurrentConfig(r.value) && NoConfigBefore(packets, i)
  {
    if packets == [] then Failure(SetupFailed)
    else if packets[0].CurrentConfig? then Success(packets[0].config)
    else
      var r := FirstConfig(packets[1..]);
      if r.Success? then
        ghost var i :| 0 <= i < |packets[1..]| && packets[1..][i] == CurrentConfig(r.value) &&
          NoConfigBefore(packets[1..], i);
        assert packets[i + 1] == CurrentConfig(r.value) && NoConfigBefore(packets, i + 1);
        r
      else r
  }

  predicate NoConfigBefore(packets: seq<Packet>, i: int)
    requires 0 <= i <= |packets|
  {
    forall j :: 0 <= j < i ==> !packets[j].CurrentConfig?
  }

  /** The end-of-presets slot after packets have been handed on: a "#PCK" fills it, and
      a full slot stays full (rfx/protocol.go:972-977). */
  predicate AckAfter(ack: bool, packets: seq<Packet>)
  {
    ack || exists i :: 0 <= i < |packets| && packets[i].EndOfPresets?
  }

  class RFExplorer {
    const writeBuf: array<byte>
    /** The frames written to the serial port, in order. */
    ghost var written: seq<seq<byte>>
    /** `endOfPresetCh`, a channel of capacity one: true when it holds a signal. */
    var ackPending: bool
    /** The configuration stored by New. */
    var config: Option<Config>
    /** The packets handed to `readCh`, in order. */
    var received: seq<Packet>
    const decoder: Decoder

    predicate Valid()
      reads this, writeBuf, decoder, decoder.buf
    {
      writeBuf.Length == WriteBufferSize && decoder.Valid() && writeBuf != decoder.buf
    }

    /** The state that only the receive side and New change. */
    function Session(): (bool, Option<Config>, seq<Packet>)
      reads this
    {
      (ackPending, config, received)
    }

    constructor ()
      ensures Valid() && fresh(decoder) && fresh(decoder.buf) && fresh(writeBuf)
      ensures written == [] && !ackPending && config == None && received == []
      ensures decoder.Pending() == []
    {
      writeBuf := new byte[WriteBufferSize](_ => 0);
      decoder := new Decoder();
      written := [];
      ackPending := false;
      config := None;
      received := [];
    }

    /** `write`: the whole frame reaches the port (rfx/protocol.go:739-746). */
    method Write(frame: seq<byte>)
      modifies this
      ensures written == old(written) + [frame]
      ensures Session() == old(Session())
    {
      written := written + [frame];
    }

    /** SendCommand (rfx/protocol.go:726-737): a payload longer than 253 bytes is refused
        and nothing is written; otherwise '#', the frame length and the payload are put in
        the write buffer and written as one frame. */
    method SendCommand(cmd: seq<byte>) returns (err: Option<Error>)
      requires Valid()
      modifies this, writeBuf
      ensures Valid()
      ensures err == ErrorOf(EncodeCommand(cmd))
      ensures written == old(written) + Writes(EncodeCommand(cmd))
      ensures Session() == old(Session())
    {
      if |cmd| > MaxCommandLength {
        return Some(CommandTooLong(|cmd|));
      }
      writeBuf[0] := '#' as byte;
      writeBuf[1] := GoByte(2 + |cmd|);
      var i := 0;
      while i < |cmd|
        invariant 0 <= i <= |cmd|
        invariant writeBuf[0] == '#' as byte && writeBuf[1] == GoByte(2 + |cmd|)
        invariant forall j :: 0 <= j < i ==> writeBuf[2 + j] == cmd[j]
        invariant written == old(written) && Session() == old(Session())
      {
        writeBuf[2 + i] := cmd[i];
        i := i + 1;
      }
      ghost var frame := ['#' as byte, GoByte(2 + |cmd|)] + cmd;
      assert forall j :: 0 <= j < |frame| ==> writeBuf[j] == frame[j];
      assert writeBuf[..2 + |cmd|] == frame;
      Write(writeBuf[..2 + |cmd|]);
      err := None;
    }

    /** SetLCDEnabled (rfx/protocol.go:484-495) fills the write buffer by hand with the
        frame SendCommand would build for "L1" or "L0". */
    method SetLCDEnabled(enabled: bool) returns (err: Option<Error>)
      requires Valid()
      modifies this, writeBuf
      ensures Valid() && err == None
      ensures written == old(written) + [LcdFrame(enabled)]
      ensures written == old(written) + Writes(EncodeCommand(LcdCommand(enabled)))
      ensures Session() == old(Session())
    {
      writeBuf[0] := '#' as byte;
      writeBuf[1] := 4;
      writeBuf[2] := 'L' as byte;
      if enabled {
        writeBuf[3] := '1' as byte;
      } else {
        writeBuf[3] := '0' as byte;
      }
      assert writeBuf[..4] == LcdFrame(enabled);
      Write(writeBuf[..4]);
      LcdFrameIsCommand(enabled);
      err := None;
    }

    /** A command with a fixed payload of at most 253 bytes: its frame is written and no
        error is returned. */
    method SendFixed(cmd: seq<byte>) returns (err: Option<Error>)
      requires Valid() && |cmd| <= MaxCommandLength
      modifies this, writeBuf
      ensures Valid() && err == None
      ensures written == old(written) + [EncodeCommand(cmd).value]
      ensures Session() == old(Session())
    {
      err := SendCommand(cmd);
    }

    /** SetScreenDumpEnabled (rfx/protocol.go:498-503): "D1" or "D0". */
    method SetScreenDumpEnabled(enabled: bool) returns (err: Option<Error>)
      requires Valid()
      modifies this, writeBuf
      ensures Valid() && err == None
      ensures written == old(written) + [EncodeCommand(ScreenDumpCommand(enabled)).value]
      ensures Session() == old(Session())
    {
      err := SendFixed(ScreenDumpCommand(enabled));
    }

    /** SetGeneratorPower (rfx/protocol.go:640-645): "CP1" or "CP0". */
    method SetGeneratorPower(on: bool) returns (err: Option<Error>)
      requires Valid()
      modifies this, writeBuf
      ensures Valid() && err == None
      ensures written == old(written) + [EncodeCommand(GeneratorPowerCommand(on)).value]
      ensures Session() == old(Session())
    {
      err := SendFixed(GeneratorPowerCommand(on));
    }

    /** ResetInternalBuffers (rfx/protocol.go:511-513): "Cr". */
    method ResetInternalBuffers() returns (err: Option<Error>)
      requires Valid()
      modifies this, writeBuf
      ensures Valid() && err == None
      ensures written == old(written) + [EncodeCommand(ResetBuffersCommand).value]
      ensures Session() == old(Session())
    {
      err := SendFixed(ResetBuffersCommand);
    }

    /** RequestSerialNumber (rfx/protocol.go:516-518): "Cn". */
    method RequestSerialNumber() returns (err: Option<Error>)
      requires Valid()
      modifies this, writeBuf
      ensures Valid() && err == None
      ensures written == old(written) + [EncodeCommand(SerialNumberCommand).value]
      ensures Session() == old(Session())
    {
      err := SendFixed(SerialNumberCommand);
    }

    /** RequestConfig (rfx/protocol.go:521-523): "C0". */
    method RequestConfig() returns (err: Option<Error>)
      requires Valid()
      modifies this, writeBuf
      ensures Valid() && err == None
      ensures written == old(written) + [EncodeCommand(ConfigCommand).value]
      ensures Session() == old(Session())
    {
      err := SendFixed(ConfigCommand);
    }

    /** RequestPresets (rfx/protocol.go:526-528): "CP" and a zero byte. */
    method RequestPresets() returns (err: Option<Error>)
      requires Valid()
      modifies this, writeBuf
      ensures Valid() && err == None
      ensures written == old(written) + [EncodeCommand(PresetsCommand).value]
      ensures Session() == old(Session())
    {
      err := SendFixed(PresetsCommand);
    }

    /** RequestInternalCalibrationData (rfx/protocol.go:584-586): "Cq". */
    method RequestInternalCalibrationData() returns (err: Option<Error>)
      requires Valid()
      modifies this, writeBuf
      ensures Valid() && err == None
      ensures written == old(written) + [EncodeCommand(CalibrationCommand).value]
      ensures Session() == old(Session())
    {
      err := SendFixed(CalibrationCommand);
    }

    /** SwitchModuleMain (rfx/protocol.go:589-591): "CM" and a zero byte. */
    method SwitchModuleMain() returns (err: Option<Error>)
      requires Valid()
      modifies this, writeBuf
      ensures Valid() && err == None
      ensures written == old(written) + [EncodeCommand(MainModuleCommand).value]
      ensures Session() == old(Session())
    {
      err := SendFixed(MainModuleCommand);
    }

    /** Hold (rfx/protocol.go:594-596): "CH". */
    method Hold() returns (err: Option<Error>)
      requires Valid()
      modifies this, writeBuf
      ensures Valid() && err == None
      ensures written == old(written) + [EncodeCommand(HoldCommand).value]
      ensures Session() == old(Session())
    {
      err := SendFixed(HoldCommand);
    }

    /** SwitchModuleExp (rfx/protocol.go:599-601): "CM" and byte 1. */
    method SwitchModuleExp() returns (err: Option<Error>)
      requires Valid()
      modifies this, writeBuf
      ensures Valid() && err == None
      ensures written == old(written) + [EncodeCommand(ExpansionModuleCommand).value]
      ensures Session() == old(Session())
    {
      err := SendFixed(ExpansionModuleCommand);
    }

    /** Realtime (rfx/protocol.go:628-630): "C+" and a zero byte. */
    method Realtime() returns (err: Option<Error>)
      requires Valid()
      modifies this, writeBuf
      ensures Valid() && err == None
      ensures written == old(written) + [EncodeCommand(RealtimeCommand).value]
      ensures Session() == old(Session())
    {
      err := SendFixed(RealtimeCommand);
    }

    /** SetMaxHold (rfx/protocol.go:632-634): "C+" and byte 4. */
    method SetMaxHold() returns (err: Option<Error>)
      requires Valid()
      modifies this, writeBuf
      ensures Valid() && err == None
      ensures written == old(written) + [EncodeCommand(MaxHoldCommand).value]
      ensures Session() == old(Session())
    {
      err := SendFixed(MaxHoldCommand);
    }

    /** Shutdown (rfx/protocol.go:636-638): "CS". */
    method Shutdown() returns (err: Option<Error>)
      requires Valid()
      modifies this, writeBuf
      ensures Valid() && err == None
      ensures written == old(written) + [EncodeCommand(ShutdownCommand).value]
      ensures Session() == old(Session())
    {
      err := SendFixed(ShutdownCommand);
    }

    /** SetBaudRate (rfx/protocol.go:604-626): one of the nine rates is sent as "c0" to
        "c8"; any other rate is an error and nothing is written. */
    method SetBaudRate(rate: int) returns (err: Option<Error>)
      requires Valid()
      modifies this, writeBuf
      ensures Valid()
      ensures err.None? <==> rate in BaudRates
      ensures err.Some? ==> err.value == UnknownBaudRate(rate)
      ensures written == old(written) +
        if rate in BaudRates then [EncodeCommand(BaudRateCommand(rate).value).value] else []
      ensures Session() == old(Session())
    {
      var c := BaudRateCommand(rate);
      if c.Failure? {
        return Some(c.error);
      }
      err := SendFixed(c.value);
    }

    /** SetSweepPoints (rfx/protocol.go:654-662). */
    method SetSweepPoints(steps: int) returns (err: Option<Error>)
      requires Valid()
      modifies this, writeBuf
      ensures Valid() && err == None
      ensures written == old(written) + [EncodeCommand(SweepPointsCommand(steps)).value]
      ensures Session() == old(Session())
    {
      err := SendFixed(SweepPointsCommand(steps));
    }

    /** SetSweepPointsEx (rfx/protocol.go:665-673). */
    method SetSweepPointsEx(steps: int) returns (err: Option<Error>)
      requires Valid()
      modifies this, writeBuf
      ensures Valid() && err == None
      ensures written == old(written) + [EncodeCommand(SweepPointsExCommand(steps)).value]
      ensures Session() == old(Session())
    {
      err := SendFixed(SweepPointsExCommand(steps));
    }

    /** SetAnalyzerConfig (rfx/protocol.go:676-718): frequencies outside [0, 9999999] are
        an error before anything is written; otherwise the "C2-F:" command of the clamped
        settings is written, and it always fits in a frame. */
    method SetAnalyzerConfig(startFreqKHz: int, endFreqKHz: int, ampTopDBm: int,
                             ampBottomDBm: int, rbwKHz: int) returns (err: Option<Error>)
      requires Valid()
      modifies this, writeBuf
      ensures Valid()
      ensures var c := AnalyzerConfigCommand(startFreqKHz, endFreqKHz, ampTopDBm, ampBottomDBm, rbwKHz);
        err == ErrorOf(c) && written == old(written) + (if c.Success? then Writes(EncodeCommand(c.value)) else [])
      ensures err.None? <==> 0 <= startFreqKHz <= MaxFreqKHz && 0 <= endFreqKHz <= MaxFreqKHz
      ensures Session() == old(Session())
    {
      var c := AnalyzerConfigCommand(startFreqKHz, endFreqKHz, ampTopDBm, ampBottomDBm, rbwKHz);
      if c.Failure? {
        return Some(c.error);
      }
      AnalyzerConfigLength(startFreqKHz, endFreqKHz, ampTopDBm, ampBottomDBm, rbwKHz);
      err := SendFixed(c.value);
    }

    /** `binary.LittleEndian.PutUint32(b[at:at+4], uint32(x))`. */
    static method PutUint32(b: array<byte>, at: int, x: int)
      requires 0 <= at && at + 4 <= b.Length
      modifies b
      ensures b[at..at + 4] == PutLe32(x)
      ensures forall j :: 0 <= j < b.Length && !(at <= j < at + 4) ==> b[j] == old(b[j])
    {
      var w := PutLe32(x);
      b[at] := w[0];
      b[at + 1] := w[1];
      b[at + 2] := w[2];
      b[at + 3] := w[3];
      assert b[at..at + 4] == w;
    }

    /** Bytes 0 to 5 of the preset write: '#', 0x24 (its own length), "CP", 1, the index. */
    static method PutPresetHeader(buf: array<byte>, p: Preset)
      requires buf.Length == 36
      modifies buf
      ensures buf[..6] == PresetHeader(p)
      ensures forall j :: 6 <= j < 36 ==> buf[j] == old(buf[j])
    {
      buf[0] := '#' as byte;
      buf[1] := 0x24;
      buf[2] := 'C' as byte;
      buf[3] := 'P' as byte;
      buf[4] := 1;
      buf[5] := GoByte(p.index);
    }

    /** `copy(buf[6:], name); buf[6+len(name)] = 0` on a zeroed buffer: the name field. */
    static method PutName(buf: array<byte>, name: seq<byte>)
      requires buf.Length == 36 && |name| <= 12
      requires forall j :: 6 <= j < 18 ==> buf[j] == 0
      modifies buf
      ensures buf[6..18] == NameField(name)
      ensures forall j :: 0 <= j < 36 && !(6 <= j < 18) ==> buf[j] == old(buf[j])
    {
      var i := 0;
      while i < |name|
        invariant 0 <= i <= |name|
        invariant forall j :: 0 <= j < 36 && !(6 <= j < 6 + i) ==> buf[j] == old(buf[j])
        invariant buf[6..6 + i] == name[..i]
      {
        buf[6 + i] := name[i];
        i := i + 1;
      }
      if |name| < 12 {
        buf[6 + |name|] := 0;
      }
      assert buf[6..18] == NameField(name);
    }

    /** Bytes 28 to 35 of the preset write: calculator mode, the two amplitudes as int8,
        iterations, mainboard flag, marker mode, 0x42 and 0. */
    static method PutPresetTrailer(buf: array<byte>, p: Preset)
      requires buf.Length == 36
      modifies buf
      ensures buf[28..] == PresetTrailer(p)
      ensures forall j :: 0 <= j < 28 ==> buf[j] == old(buf[j])
    {
      buf[28] := GoByte(p.calcMode);
      buf[29] := GoByte(p.ampTopDBm);
      buf[30] := GoByte(p.ampBottomDBm);
      buf[31] := GoByte(p.calcIterations);
      if p.mainboard {
        buf[32] := 1;
      } else {
        buf[32] := 0;
      }
      buf[33] := p.markerMode;
      buf[34] := 0x42;
      buf[35] := 0;
    }

    /** Bytes 0 to 19 of the preset write on a zeroed buffer: header, name field and two
        zero bytes (rfx/protocol.go:534-550). */
    static method PutPresetFront(buf: array<byte>, p: Preset)
      requires buf.Length == 36 && forall j :: 0 <= j < 36 ==> buf[j] == 0
      modifies buf
      ensures buf[..20] == PresetHeader(p) + NameField(TruncatedName(p.name)) + [0, 0]
      ensures forall j :: 20 <= j < 36 ==> buf[j] == 0
    {
      PutPresetHeader(buf, p);
      var name := p.name;
      if |name| > 12 {
        name := name[..12];
      }
      PutName(buf, name);
      assert buf[..6] == PresetHeader(p);
      buf[18] := 0;
      buf[19] := 0;
      assert buf[..20] == buf[..6] + buf[6..18] + buf[18..20];
    }

    /** Bytes 20 to 35 of the preset write: both frequencies and the trailer
        (rfx/protocol.go:551-564). */
    static method PutPresetBack(buf: array<byte>, p: Preset)
      requires buf.Length == 36
      modifies buf
      ensures buf[20..] == PutLe32(p.minFreqKHz) + PutLe32(p.maxFreqKHz) + PresetTrailer(p)
      ensures forall j :: 0 <= j < 20 ==> buf[j] == old(buf[j])
    {
      PutUint32(buf, 20, p.minFreqKHz);
      ghost var low := buf[20..24];
      PutUint32(buf, 24, p.maxFreqKHz);
      assert buf[20..24] == low;
      ghost var high := buf[24..28];
      PutPresetTrailer(buf, p);
      assert buf[20..24] == low && buf[24..28] == high;
      assert buf[20..] == low + high + buf[28..];
    }

    /** The 36-byte preset write of UpdatePreset (rfx/protocol.go:533-564), filled into a
        fresh buffer field by field. */
    static method BuildPresetFrame(p: Preset) returns (buf: array<byte>)
      ensures fresh(buf) && buf[..] == PresetFrame(p)
    {
      buf := new byte[36](_ => 0);
      PutPresetFront(buf, p);
      ghost var front := buf[..20];
      PutPresetBack(buf, p);
      assert buf[..20] == front;
      assert buf[..] == buf[..20] + buf[20..];
    }

    /** UpdatePreset (rfx/protocol.go:531-573): build the preset write, empty the
        end-of-presets slot so that only a later "#PCK" can fill it, then write the frame. */
    method UpdatePreset(p: Preset) returns (err: Option<Error>)
      requires Valid()
      modifies this
      ensures Valid() && err == None
      ensures written == old(written) + [PresetFrame(p)]
      ensures !ackPending
      ensures config == old(config) && received == old(received)
    {
      var buf := BuildPresetFrame(p);
      ackPending := false;
      Write(buf[..]);
      err := None;
    }

    /** Room the next serial read may fill: the space after `off`, or the whole buffer
        when the read loop is about to start over (rfx/protocol.go:766-769, 775). */
    function ReadRoom(): (n: int)
      reads this, writeBuf, decoder, decoder.buf
      requires Valid()
      ensures 2 <= n <= BufferSize
    {
      if decoder.off >= BufferSize - 1 then BufferSize else BufferSize - decoder.off
    }

    /** Hand decoded packets to the reader in order, filling the end-of-presets slot on
        each EndOfPresets (rfx/protocol.go:748-750, 972-979). */
    method Deliver(packets: seq<Packet>)
      modifies this
      ensures received == old(received) + packets
      ensures ackPending == AckAfter(old(ackPending), packets)
      ensures written == old(written) && config == old(config)
    {
      var i := 0;
      while i < |packets|
        invariant 0 <= i <= |packets|
        invariant received == old(received) + packets[..i]
        invariant ackPending == AckAfter(old(ackPending), packets[..i])
        invariant written == old(written) && config == old(config)
      {
        if packets[i].EndOfPresets? {
          ackPending := true;
        }
        received := received + [packets[i]];
        assert packets[..i + 1] == packets[..i] + [packets[i]];
        i := i + 1;
      }
      assert packets[..i] == packets;
    }

    /** One pass of readLoop (rfx/protocol.go:766-994): start over on a full buffer,
        take in what the port returned, decode, and hand the packets on. */
    method ReadOnce(chunk: seq<byte>) returns (packets: seq<Packet>)
      requires Valid() && |chunk| <= ReadRoom()
      modifies this, decoder, decoder.buf
      ensures Valid()
      ensures var start := if old(decoder.off) >= BufferSize - 1 then [] else old(decoder.Pending());
        packets == DecodeAll(start + chunk).packets && decoder.Pending() == DecodeAll(start + chunk).rest
      ensures received == old(received) + packets
      ensures ackPending == AckAfter(old(ackPending), packets)
      ensures written == old(written) && config == old(config)
    {
      var room := decoder.Reserve();
      packets := decoder.Feed(chunk);
      Deliver(packets);
    }

    /** New's setup loop (rfx/protocol.go:446-464): request the configuration, then read
        the packets that arrive until the first CurrentConfig, which is stored; if the
        stream ends first, New fails. */
    method Setup(replies: seq<Packet>) returns (err: Option<Error>)
      requires Valid()
      modifies this, writeBuf
      ensures Valid()
      ensures written == old(written) + [EncodeCommand(ConfigCommand).value]
      ensures var r := FirstConfig(replies);
        (r.Success? ==> err == None && config == Some(r.value)) &&
        (r.Failure? ==> err == Some(SetupFailed) && config == old(config))
      ensures ackPending == old(ackPending) && received == old(received)
    {
      err := SendFixed(ConfigCommand);
      var i := 0;
      while i < |replies|
        invariant 0 <= i <= |replies| && Valid()
        invariant FirstConfig(replies) == FirstConfig(replies[i..])
        invariant written == old(written) + [EncodeCommand(ConfigCommand).value]
        invariant Session() == old(Session())
      {
        if replies[i].CurrentConfig? {
          config := Some(replies[i].config);
          return None;
        }
        assert replies[i..][1..] == replies[i + 1..];
        i := i + 1;
      }
      return Some(SetupFailed);
    }
  }

}
