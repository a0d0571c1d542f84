/** One pass of the decode loop of RFExplorer.readLoop (rfx/protocol.go:786-994) as a
    pure function of the buffered bytes `buf[:off]`: it either stops to wait for more
    bytes or emits one packet and says how many bytes (eolIdx + 2) leave the front of
    the buffer. Where the Go code reads past `off`, removes more than `off` bytes, or
    indexes a line out of range, this step waits for more bytes (binary frames) or
    falls back to an Unhandled packet (text lines); module AsWritten keeps the code's
    own behaviour for those inputs. */
module Decoding {
  import opened Wire
  import opened Parsing
  import opened Packets

  /** Size of readLoop's receive buffer (rfx/protocol.go:763). */
  const BufferSize: int := 8192
  /** Bytes of a "$D" frame that leave the buffer: eolIdx = 0x402, plus two. */
  const ScreenFrameLength: int := 0x404
  /** One past the last byte (buf[32]) that the "$P" decoder reads. */
  const PresetFieldsEnd: int := 33

  datatype Step = Wait | Emit(packet: Packet, consumed: nat)

  /** The outcome of the per-type dispatch: `break decodeLoop`, `handled` left false, or
      a packet with the eolIdx the caller consumes through. */
  datatype Branch = Halt | NotHandled | Handled(packet: Packet, eolIdx: int)

  /** A branch outcome that the caller can act on without leaving the buffer. */
  predicate InBounds(r: Branch, b: seq<byte>)
  {
    r.Handled? ==> 0 <= r.eolIdx && r.eolIdx + 2 <= |b|
  }

  // ---------------------------------------------------------------------
  // bytes.Index(buf[:off], "\r\n")

  predicate IsEOLAt(b: seq<byte>, j: int)
  {
    0 <= j && j + 1 < |b| && b[j] == CR && b[j + 1] == LF
  }

  function FindEOLFrom(b: seq<byte>, k: nat): (i: int)
    ensures i == -1 || (k <= i && IsEOLAt(b, i))
    ensures forall j :: k <= j && (i == -1 || j < i) ==> !IsEOLAt(b, j)
    decreases |b| - k
  {
    if k + 1 >= |b| then -1
    else if b[k] == CR && b[k + 1] == LF then k
    else FindEOLFrom(b, k + 1)
  }

  /** Index of the first CR LF, or -1. */
  function FindEOL(b: seq<byte>): (i: int)
    ensures i == -1 || IsEOLAt(b, i)
    ensures forall j :: 0 <= j && (i == -1 || j < i) ==> !IsEOLAt(b, j)
  {
    FindEOLFrom(b, 0)
  }

  /** A CR LF already buffered stays the first one whatever bytes arrive after it. */
  lemma FindEOLExtend(b: seq<byte>, t: seq<byte>)
    requires FindEOL(b) >= 0
    ensures FindEOL(b + t) == FindEOL(b)
  {
    var i := FindEOL(b);
    assert IsEOLAt(b + t, i);
    forall j | 0 <= j < i
      ensures !IsEOLAt(b + t, j)
    {
      assert !IsEOLAt(b, j);
    }
  }

  // ---------------------------------------------------------------------
  // Binary frames

  /** "$D": a 1024-byte screen dump at [2, 0x402); waits for 0x404 bytes. */
  function DecodeScreen(b: seq<byte>): (r: Branch)
    ensures InBounds(r, b) && !r.NotHandled?
  {
    if |b| < ScreenFrameLength then Halt
    else Handled(ScreenImage(b[2..0x402]), 0x402)
  }

  /** "$R": raw sniffer bytes, length in the little-endian 16-bit field at 2. The code waits
      only for n+4 bytes but removes n+6 (rfx/protocol.go:810, 818, 993-994), and reads
      buf[3] when only three bytes are buffered (809); this step waits for both. */
  function DecodeRaw(b: seq<byte>): (r: Branch)
    ensures InBounds(r, b) && !r.NotHandled?
  {
    if |b| < 4 then Halt
    else
      var n := Le16(b[2..4]);
      if |b| < n + 6 then Halt
      else Handled(RawData(b[4..4 + n]), 4 + n)
  }

  /** The sweep amplitudes in dBm: each byte b reads as -b/2. */
  function Samples(bs: seq<byte>): (r: seq<real>)
    ensures |r| == |bs|
    ensures forall i :: 0 <= i < |bs| ==> r[i] == -(bs[i] as int as real) / 2.0
  {
    seq(|bs|, i requires 0 <= i < |bs| => -(bs[i] as int as real) / 2.0)
  }

  /** "$S": waits for a CR LF; n = b[2] samples follow at [3, 3+n); the frame ends at the
      later of the first CR LF and 3+n, so a CR LF among the samples does not cut it short.
      The code treats fewer than 3+n bytes as a malformed line (rfx/protocol.go:827-829)
      and removes 3+n+2 bytes even when only 3+n or 4+n are buffered (831-832); this step
      waits in both cases. */
  function DecodeSweep(b: seq<byte>, eol: int): (r: Branch)
    requires eol == FindEOL(b)
    ensures InBounds(r, b)
  {
    if eol < 0 then Halt
    else if |b| > 3 then
      var n := b[2] as int;
      if |b| < 3 + n then Halt
      else
        var e := if eol < 3 + n then 3 + n else eol;
        if e + 2 > |b| then Halt
        else Handled(SweepData(Samples(b[3..3 + n])), e)
    else NotHandled
  }

  /** The fixed-offset fields of a "$P" frame (rfx/protocol.go:854-869). */
  function PresetFields(b: seq<byte>): (p: Preset)
    requires |b| >= PresetFieldsEnd
    ensures p.index == b[3] as int && p.name == CutAtZero(b[5..17])
    ensures p.minFreqKHz == Le32(b[19..23]) && p.maxFreqKHz == Le32(b[23..27])
    ensures p.ampTopDBm == Int8(b[28]) && p.ampBottomDBm == Int8(b[29])
    ensures -128 <= p.ampTopDBm < 128 && -128 <= p.ampBottomDBm < 128
  {
    Preset(
      index := b[3] as int,
      name := CutAtZero(b[5..17]),
      minFreqKHz := Le32(b[19..23]),
      maxFreqKHz := Le32(b[23..27]),
      ampTopDBm := Int8(b[28]),
      ampBottomDBm := Int8(b[29]),
      calcMode := b[27] as int,
      calcIterations := b[30] as int,
      mainboard := b[31] != 0,
      markerMode := b[32])
  }

  /** "$P": a preset record. The code reads up to buf[32] without checking `off`, and
      removes eolIdx+2 bytes with eolIdx possibly -1 (rfx/protocol.go:852-870, 993); this
      step waits until 33 bytes and a CR LF are buffered. The CR LF may still lie inside
      the record, as in the code. */
  function DecodePreset(b: seq<byte>, eol: int): (r: Branch)
    requires eol == FindEOL(b)
    ensures InBounds(r, b) && !r.NotHandled?
  {
    if |b| < PresetFieldsEnd || eol < 0 then Halt
    else Handled(PresetPacket(PresetFields(b)), eol)
  }

  // ---------------------------------------------------------------------
  // '#' lines

  /** The 13 fields of "#C2-F:" (rfx/protocol.go:894-909). The code indexes p[12] whatever
      the number of fields; a shorter line is left to the Unhandled fallback here. */
  function ConfigLine(p: seq<seq<byte>>): (r: Option<Packet>)
    ensures r.Some? <==> |p| >= 13
    ensures r.Some? ==> r.value.CurrentConfig?
  {
    if |p| < 13 then None
    else Some(CurrentConfig(Config(
      startFreqKHz := ParseASCIIDecimal(p[0]),
      freqStepHz := ParseASCIIDecimal(p[1]),
      ampTopDBm := ParseASCIIDecimal(p[2]),
      ampBottomDBm := ParseASCIIDecimal(p[3]),
      sweepSteps := ParseASCIIDecimal(p[4]),
      expModuleActive := p[5] == ['1' as byte],
      currentMode := ParseMode(p[6]),
      minFreqKHz := ParseASCIIDecimal(p[7]),
      maxFreqKHz := ParseASCIIDecimal(p[8]),
      maxSpan := ParseASCIIDecimal(p[9]),
      rbwKHz := ParseASCIIDecimal(p[10]),
      ampOffset := ParseASCIIDecimal(p[11]),
      calculatorMode := ParseCalculatorMode(p[12]))))
  }

  /** "#C2-M:": model, expansion model and firmware version (rfx/protocol.go:915-927);
      missing fields keep Go's zero values. */
  function SetupLine(p: seq<seq<byte>>): (r: Packet)
    requires |p| >= 1
    ensures r.CurrentSetup? && r.model == ParseModel(p[0])
    ensures |p| < 2 ==> r.expansionModel == 0
    ensures |p| >= 2 ==> r.expansionModel == ParseModel(p[1])
    ensures |p| < 3 ==> r.firmwareVersion == []
    ensures |p| >= 3 ==> r.firmwareVersion == TrimLeftZeros(p[2])
  {
    CurrentSetup(
      ParseModel(p[0]),
      if |p| >= 2 then ParseModel(p[1]) else 0,
      if |p| >= 3 then TrimLeftZeros(p[2]) else [])
  }

  /** "#C4-F:": the sniffer configuration, threshold -0.5 times its field
      (rfx/protocol.go:944-953). The code indexes p[6] whatever the number of fields; a
      shorter line is left to the Unhandled fallback here. */
  function SnifferLine(p: seq<seq<byte>>): (r: Option<Packet>)
    ensures r.Some? <==> |p| >= 7
    ensures r.Some? ==> r.value.CurrentSnifferConfig?
    ensures r.Some? ==> r.value.startFreqKHz == ParseASCIIDecimal(p[0])
    ensures r.Some? ==> r.value.expModuleActive == (p[1] == ['1' as byte])
    ensures r.Some? ==> r.value.currentMode == ParseMode(p[2])
    ensures r.Some? ==> r.value.delay == ParseASCIIDecimal(p[3])
    ensures r.Some? ==> r.value.modulation == ParseModulation(p[4])
    ensures r.Some? ==> r.value.rbwKHz == ParseASCIIDecimal(p[5])
    ensures r.Some? ==> r.value.thresholdDBm == -0.5 * (ParseASCIIDecimal(p[6]) as real)
  {
    if |p| < 7 then None
    else Some(CurrentSnifferConfig(
      startFreqKHz := ParseASCIIDecimal(p[0]),
      expModuleActive := p[1] == ['1' as byte],
      currentMode := ParseMode(p[2]),
      delay := ParseASCIIDecimal(p[3]),
      modulation := ParseModulation(p[4]),
      rbwKHz := ParseASCIIDecimal(p[5]),
      thresholdDBm := -0.5 * (ParseASCIIDecimal(p[6]) as real)))
  }

  /** The typed packet for a '#' line `b[:eolIdx]` (rfx/protocol.go:880-981), or None when
      the line is left unhandled. The code indexes b[1] and, for "#S", b[2] without a length
      check (880, 968); a line that short is left unhandled here. */
  function DecodeLine(line: seq<byte>): (r: Option<Packet>)
    requires |line| >= 1 && line[0] == '#' as byte
    ensures r.Some? && r.value.EndOfPresets? <==> |line| >= 4 && line[..4] == Ascii("#PCK")
  {
    if |line| < 2 then None
    else if line[1] == 'C' as byte then
      if |line| > 6 then
        if line[2] == '2' as byte then
          if line[3] == '-' as byte && line[5] == ':' as byte then
            if line[4] == 'F' as byte then ConfigLine(Split(line[6..], ',' as byte))
            else if line[4] == 'M' as byte then Some(SetupLine(Split(line[6..], ',' as byte)))
            else None
          else None
        else if line[2] == '4' as byte then
          if line[3] == '-' as byte && line[4] == 'F' as byte && line[5] == ':' as byte then
            SnifferLine(Split(line[6..], ',' as byte))
          else None
        else if line[2] == 'A' as byte then
          if line[3] == 'L' as byte && line[4] == ':' as byte then
            Some(CalibrationAvailability(line[5] == '1' as byte, line[6] == '1' as byte))
          else None
        else None
      else None
    else if line[1] == 'S' as byte then
      if |line| < 3 then None
      else if line[2] == 'n' as byte then Some(SerialNumber(line[3..]))
      else None
    else if line[1] == 'P' as byte then
      if |line| >= 4 && line[..4] == Ascii("#PCK") then Some(EndOfPresets) else None
    else None
  }

  // ---------------------------------------------------------------------
  // One pass of decodeLoop

  /** The dispatch on the first two bytes (rfx/protocol.go:792-982). */
  function Dispatch(b: seq<byte>, eol: int): (r: Branch)
    requires |b| >= 3 && eol == FindEOL(b)
    ensures InBounds(r, b)
  {
    if b[0] == '$' as byte then
      if b[1] == 'D' as byte then DecodeScreen(b)
      else if b[1] == 'R' as byte then DecodeRaw(b)
      else if b[1] == 'S' as byte then DecodeSweep(b, eol)
      else if b[1] == 'P' as byte then DecodePreset(b, eol)
      else NotHandled
    else if b[0] == '#' as byte then
      if eol < 0 then Halt
      else
        match DecodeLine(b[..eol])
        case Some(p) => Handled(p, eol)
        case None => NotHandled
    else NotHandled
  }

  /** One pass of decodeLoop on `buf[:off]`. Fewer than three bytes: the loop does not run.
      An unhandled frame with a CR LF becomes Unhandled(b[:eolIdx]); without one the loop
      stops. An emitted frame removes at least one byte and never more than are buffered. */
  function DecodeStep(b: seq<byte>): (s: Step)
    ensures s.Emit? ==> 1 <= s.consumed <= |b|
  {
    if |b| < 3 then Wait
    else
      var eol := FindEOL(b);
      match Dispatch(b, eol)
      case Halt => Wait
      case Handled(p, e) => Emit(p, e + 2)
      case NotHandled => if eol >= 0 then Emit(Unhandled(b[..eol]), eol + 2) else Wait
  }

  /** The result of running decodeLoop to completion on a buffer. */
  datatype Decoded = Decoded(packets: seq<Packet>, rest: seq<byte>)

  /** Run a decode loop with the given pass until the pass waits: the packets in stream
      order and the bytes left at the front of the buffer, a suffix of the input. A pass
      that claims to remove no byte, or more bytes than are buffered, also ends the loop;
      DecodeStep never does either. */
  function Run(step: seq<byte> -> Step, b: seq<byte>): (d: Decoded)
    ensures |d.rest| <= |b| && d.rest == b[|b| - |d.rest|..]
    decreases |b|
  {
    match step(b)
    case Wait => Decoded([], b)
    case Emit(p, k) =>
      if 1 <= k <= |b| then
        var d := Run(step, b[k..]);
        Decoded([p] + d.packets, d.rest)
      else Decoded([], b)
  }

  /** decodeLoop run to completion on `buf[:off]`. */
  function DecodeAll(b: seq<byte>): (d: Decoded)
    ensures |d.rest| <= |b| && d.rest == b[|b| - |d.rest|..]
  {
    Run(DecodeStep, b)
  }

  // ---------------------------------------------------------------------
  // Properties of the step

  /** A decision to emit is final: bytes that arrive later change neither the packet nor
      the number of bytes removed. */
  lemma DecodeStepExtend(b: seq<byte>, t: seq<byte>)
    requires DecodeStep(b).Emit?
    ensures DecodeStep(b + t) == DecodeStep(b)
  {
    var bt := b + t;
    var eol := FindEOL(b);
    assert bt[0] == b[0] && bt[1] == b[1] && bt[2] == b[2];
    if eol >= 0 {
      FindEOLExtend(b, t);
      assert bt[..eol] == b[..eol];
    }
    var eol' := FindEOL(bt);
    if b[0] == '$' as byte {
      if b[1] == 'D' as byte {
        assert bt[2..0x402] == b[2..0x402];
      } else if b[1] == 'R' as byte {
        assert bt[2..4] == b[2..4];
        var n := Le16(b[2..4]);
        assert bt[4..4 + n] == b[4..4 + n];
      } else if b[1] == 'S' as byte {
        assert eol >= 2 by { assert !IsEOLAt(b, 0) && !IsEOLAt(b, 1); }
        var n := b[2] as int;
        assert bt[3..3 + n] == b[3..3 + n];
      } else if b[1] == 'P' as byte {
        assert bt[3..17] == b[3..17];
        assert bt[5..17] == b[5..17];
        assert bt[19..23] == b[19..23] && bt[23..27] == b[23..27];
        assert bt[27..33] == b[27..33];
        assert PresetFields(bt) == PresetFields(b);
      }
    }
  }

  /** A pass whose decisions to emit are final and remove between one byte and all of
      the buffer. */
  ghost predicate Stable(step: seq<byte> -> Step)
  {
    (forall b :: step(b).Emit? ==> 1 <= step(b).consumed <= |b|) &&
    (forall b, t :: step(b).Emit? ==> step(b + t) == step(b))
  }

  lemma DecodeStepStable()
    ensures Stable(DecodeStep)
  {
    forall b, t | DecodeStep(b).Emit?
      ensures DecodeStep(b + t) == DecodeStep(b)
    {
      DecodeStepExtend(b, t);
    }
  }

  /** For a stable pass, feeding the stream in two pieces gives what feeding it at once
      gives: the packets of the first piece, then those of what it left plus the second. */
  lemma {:induction false} RunAppend(step: seq<byte> -> Step, s: seq<byte>, t: seq<byte>)
    requires Stable(step)
    ensures Run(step, s + t) ==
      var d := Run(step, s);
      var e := Run(step, d.rest + t);
      Decoded(d.packets + e.packets, e.rest)
    decreases |s|
  {
    var st := step(s);
    if st.Wait? {
      assert [] + Run(step, s + t).packets == Run(step, s + t).packets;
    } else {
      var p, k := st.packet, st.consumed;
      assert step(s + t) == st;
      SliceAppend(s, t, k);
      RunAppend(step, s[k..], t);
      var d', e := Run(step, s[k..]), Run(step, Run(step, s).rest + t);
      ConsAssoc(p, d'.packets, e.packets);
    }
  }

  /** Feeding the stream in two pieces decodes the same packets as feeding it at once:
      the packets of the first piece, then those of what it left plus the second piece. */
  lemma DecodeAllAppend(s: seq<byte>, t: seq<byte>)
    ensures DecodeAll(s + t) ==
      var d := DecodeAll(s);
      var e := DecodeAll(d.rest + t);
      Decoded(d.packets + e.packets, e.rest)
  {
    DecodeStepStable();
    RunAppend(DecodeStep, s, t);
  }

  lemma SliceAppend<T>(s: seq<T>, t: seq<T>, k: nat)
    requires k <= |s|
    ensures (s + t)[k..] == s[k..] + t
  {
  }

  lemma ConsAssoc<T>(x: T, u: seq<T>, v: seq<T>)
    ensures [x] + (u + v) == ([x] + u) + v
  {
  }

  lemma AppendAssoc<T>(u: seq<T>, v: seq<T>, w: seq<T>)
    ensures u + (v + w) == (u + v) + w
  {
  }

  /** A loop with a well-behaved pass stops only where a further pass would wait. */
  lemma {:induction false} RunSettles(step: seq<byte> -> Step, b: seq<byte>)
    requires forall b :: step(b).Emit? ==> 1 <= step(b).consumed <= |b|
    ensures step(Run(step, b).rest).Wait?
    decreases |b|
  {
    if step(b).Emit? {
      RunSettles(step, b[step(b).consumed..]);
    }
  }

  /** The decode loop stops only where a further pass would wait. */
  lemma DecodeAllSettles(b: seq<byte>)
    ensures DecodeStep(DecodeAll(b).rest).Wait?
  {
    DecodeStepStable();
    RunSettles(DecodeStep, b);
  }

  lemma DecodeAllWait(b: seq<byte>)
    requires DecodeStep(b).Wait?
    ensures DecodeAll(b) == Decoded([], b)
  {
  }

  lemma DecodeAllEmit(b: seq<byte>)
    requires DecodeStep(b).Emit?
    ensures var st := DecodeStep(b); var d := DecodeAll(b[st.consumed..]);
      DecodeAll(b) == Decoded([st.packet] + d.packets, d.rest)
  {
  }

  /** DecodeAllEmit with the packets already taken off: the form a decode loop keeps. */
  lemma DecodeAllEmitAfter(taken: seq<Packet>, b: seq<byte>)
    requires DecodeStep(b).Emit?
    ensures var st := DecodeStep(b); var d := DecodeAll(b[st.consumed..]);
      taken + DecodeAll(b).packets == (taken + [st.packet]) + d.packets &&
      DecodeAll(b).rest == d.rest
  {
    var st := DecodeStep(b);
    var d := DecodeAll(b[st.consumed..]);
    DecodeAllEmit(b);
    AppendAssoc(taken, [st.packet], d.packets);
  }

  /** Concatenation of the chunks a reader delivers. */
  function Concat(chunks: seq<seq<byte>>): seq<byte>
  {
    if chunks == [] then [] else chunks[0] + Concat(chunks[1..])
  }

  /** Decoding chunk by chunk, carrying the undecoded rest from one read to the next. */
  function DecodeChunks(pending: seq<byte>, chunks: seq<seq<byte>>): (d: Decoded)
    decreases |chunks|
  {
    if chunks == [] then Decoded([], pending)
    else
      var d := DecodeAll(pending + chunks[0]);
      var e := DecodeChunks(d.rest, chunks[1..]);
      Decoded(d.packets + e.packets, e.rest)
  }

  /** However the stream is split into reads (one byte at a time or all at once), the
      packets and the leftover bytes are those of decoding the whole stream. */
  lemma {:induction false} DecodeChunksConcat(pending: seq<byte>, chunks: seq<seq<byte>>)
    requires DecodeStep(pending).Wait?
    ensures DecodeChunks(pending, chunks) == DecodeAll(pending + Concat(chunks))
    decreases |chunks|
  {
    if chunks == [] {
      DecodeAllWait(pending);
      assert Concat(chunks) == [];
      assert pending + Concat(chunks) == pending;
    } else {
      var c := chunks[0];
      var d := DecodeAll(pending + c);
      DecodeAllSettles(pending + c);
      DecodeChunksConcat(d.rest, chunks[1..]);
      DecodeAllAppend(pending + c, Concat(chunks[1..]));
      AppendAssoc(pending, c, Concat(chunks[1..]));
    }
  }
}
