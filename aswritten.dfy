/** One pass of readLoop's decodeLoop exactly as rfx/protocol.go:786-994 writes it, on
    the whole 8192-byte receive buffer `mem` (whose bytes past `off` are left over from
    earlier reads) rather than on `buf[:off]` alone. The corrected decoder of module
    Decoding differs from it on the inputs exhibited below, and agrees with it wherever
    the corrected decoder emits a packet. */
module AsWritten {
  import opened Wire
  import opened Parsing
  import opened Packets
  import opened Decoding
  import opened Frames

  /** What one pass does: leave the loop, hand a packet over and remove `consumed` bytes
      (`off -= eolIdx + 2`, which the code does not bound by `off`), or stop the program
      with an index-out-of-range panic. */
  datatype Outcome = Stop | Emitted(packet: Packet, consumed: int) | Panic

  /** The '#' branch and the fallback for a line `mem[:eol]` (rfx/protocol.go:872-989). */
  function LineAsWritten(mem: seq<byte>, eol: int): (o: Outcome)
    requires |mem| == BufferSize && 1 <= eol < BufferSize && mem[0] == '#' as byte
    ensures o.Emitted? ==> o.consumed == eol + 2
  {
    var line := mem[..eol];
    if eol < 2 then Panic                                         // b[1] of a 1-byte line
    else if line[1] == 'S' as byte && eol < 3 then Panic          // b[2] of "#S"
    else if line[1] == 'C' as byte && eol > 6 && line[2] == '2' as byte &&
            line[3] == '-' as byte && line[5] == ':' as byte && line[4] == 'F' as byte &&
            |Split(line[6..], ',' as byte)| < 13 then Panic      // p[12]
    else if line[1] == 'C' as byte && eol > 6 && line[2] == '4' as byte &&
            line[3] == '-' as byte && line[4] == 'F' as byte && line[5] == ':' as byte &&
            |Split(line[6..], ',' as byte)| < 7 then Panic       // p[6]
    else
      match DecodeLine(line)
      case Some(p) => Emitted(p, eol + 2)
      case None => Emitted(Unhandled(line), eol + 2)
  }

  /** The '$' branches as written (rfx/protocol.go:794-870): "$R" reads its length from
      buf[2] and buf[3] and waits for n+4 bytes only; "$S" leaves a frame shorter than its
      count to the fallback and widens the frame to 3+n without checking `off`; "$P" reads
      buf[3..32] and consumes through eolIdx whatever `off` and eolIdx are. */
  function FrameAsWritten(mem: seq<byte>, off: int, eol: int): (o: Outcome)
    requires |mem| == BufferSize && 2 < off <= BufferSize && mem[0] == '$' as byte
    requires eol == FindEOL(mem[..off])
    ensures !o.Panic?
    ensures o.Emitted? ==> o.consumed >= 1
    ensures mem[1] == 'P' as byte ==> o == Emitted(PresetPacket(PresetFields(mem)), eol + 2)
  {
    var b := mem[..off];
    if b[1] == 'D' as byte then
      if off < ScreenFrameLength then Stop else Emitted(ScreenImage(b[2..0x402]), 0x404)
    else if b[1] == 'R' as byte then
      var n := mem[2] as int + 256 * mem[3] as int;
      if off < n + 4 then Stop else Emitted(RawData(b[4..4 + n]), 4 + n + 2)
    else if b[1] == 'S' as byte then
      if eol < 0 then Stop
      else if off > 3 then
        var n := b[2] as int;
        if off < 3 + n then Fallback(b, eol)
        else
          var e := if eol < 3 + n then 3 + n else eol;
          Emitted(SweepData(Samples(b[3..3 + n])), e + 2)
      else Fallback(b, eol)
    else if b[1] == 'P' as byte then
      Emitted(PresetPacket(PresetFields(mem)), eol + 2)
    else Fallback(b, eol)
  }

  /** `if !handled && eolIdx >= 0` and `if !handled { break }` (rfx/protocol.go:983-992). */
  function Fallback(b: seq<byte>, eol: int): (o: Outcome)
    requires eol == FindEOL(b)
    ensures o.Emitted? <==> eol >= 0
  {
    if eol >= 0 then Emitted(Unhandled(b[..eol]), eol + 2) else Stop
  }

  /** One pass of decodeLoop with `off` bytes buffered (the loop runs while off > 2). */
  function StepAsWritten(mem: seq<byte>, off: int): (o: Outcome)
    requires |mem| == BufferSize && 2 < off <= BufferSize
    ensures o.Panic? ==> mem[0] == '#' as byte
    ensures o.Emitted? ==> o.consumed >= 1
    ensures mem[0] != '$' as byte && mem[0] != '#' as byte ==>
      (o.Emitted? <==> FindEOL(mem[..off]) >= 0)
  {
    var b := mem[..off];
    var eol := FindEOL(b);
    if b[0] == '$' as byte then FrameAsWritten(mem, off, eol)
    else if b[0] == '#' as byte then
      if eol < 0 then Stop
      else
        assert eol >= 1 by { assert !IsEOLAt(b, 0); }
        LineAsWritten(mem, eol)
    else Fallback(b, eol)
  }

  // ---------------------------------------------------------------------
  // Agreement with the corrected decoder

  /** Wherever the corrected step emits a packet, the code emits the same packet and
      removes the same number of bytes, unless it panics on a short '#' line. */
  lemma CorrectedAgrees(mem: seq<byte>, off: int)
    requires |mem| == BufferSize && 2 < off <= BufferSize
    requires DecodeStep(mem[..off]).Emit?
    ensures var s := DecodeStep(mem[..off]);
      StepAsWritten(mem, off) == Emitted(s.packet, s.consumed) ||
      (StepAsWritten(mem, off).Panic? && mem[0] == '#' as byte)
  {
    var b := mem[..off];
    var eol := FindEOL(b);
    if b[0] == '$' as byte {
      FrameAgrees(mem, off, eol);
    } else if b[0] == '#' as byte {
      assert eol >= 1 by { assert !IsEOLAt(b, 0); }
      LineAgrees(mem, off, eol);
    }
  }

  lemma FrameAgrees(mem: seq<byte>, off: int, eol: int)
    requires |mem| == BufferSize && 2 < off <= BufferSize && mem[0] == '$' as byte
    requires eol == FindEOL(mem[..off])
    requires DecodeStep(mem[..off]).Emit?
    ensures var s := DecodeStep(mem[..off]);
      FrameAsWritten(mem, off, eol) == Emitted(s.packet, s.consumed)
  {
    var b := mem[..off];
    if b[1] == 'R' as byte {
      assert b[2..4] == [mem[2], mem[3]];
    } else if b[1] == 'P' as byte {
      assert off >= PresetFieldsEnd;
      assert b[..PresetFieldsEnd] == mem[..PresetFieldsEnd];
      PresetFieldsPrefix(b, mem);
    }
  }

  /** The preset fields only depend on the first 33 bytes. */
  lemma PresetFieldsPrefix(b: seq<byte>, c: seq<byte>)
    requires |b| >= PresetFieldsEnd && |c| >= PresetFieldsEnd
    requires b[..PresetFieldsEnd] == c[..PresetFieldsEnd]
    ensures PresetFields(b) == PresetFields(c)
  {
    assert b[5..17] == c[5..17];
    assert b[19..23] == c[19..23];
    assert b[23..27] == c[23..27];
    assert b[3] == c[3] && b[27] == c[27] && b[28] == c[28] && b[29] == c[29];
    assert b[30] == c[30] && b[31] == c[31] && b[32] == c[32];
  }

  lemma LineAgrees(mem: seq<byte>, off: int, eol: int)
    requires |mem| == BufferSize && 2 < off <= BufferSize && mem[0] == '#' as byte
    requires eol == FindEOL(mem[..off]) && 1 <= eol
    requires DecodeStep(mem[..off]).Emit?
    ensures var s := DecodeStep(mem[..off]);
      LineAsWritten(mem, eol) == Emitted(s.packet, s.consumed) || LineAsWritten(mem, eol).Panic?
  {
    var b := mem[..off];
    assert b[..eol] == mem[..eol];
  }

  // ---------------------------------------------------------------------
  // Inputs on which the code and the corrected decoder part

  /** "$R" with a zero length and nothing after it: the code hands over an empty RawData
      and removes six bytes of the four buffered, leaving `off` at -2; the corrected step
      waits for the two trailing bytes. */
  lemma RawOverconsumes(mem: seq<byte>)
    requires |mem| == BufferSize && mem[..4] == Ascii("$R") + [0, 0]
    ensures StepAsWritten(mem, 4) == Emitted(RawData([]), 6)
    ensures DecodeStep(mem[..4]) == Wait
  {
    var b := mem[..4];
    assert b[0] == '$' as byte && b[1] == 'R' as byte && mem[2] == 0 && mem[3] == 0;
    assert b[4..4] == [];
    assert DecodeRaw(b) == Halt;
  }

  /** A sweep frame whose samples contain CR LF, cut by the reader right after that CR LF
      ("$S", count 5, then CR LF): the code treats the five bytes as a malformed line and
      drops them as Unhandled, so the sweep is lost when the rest arrives; the corrected
      step waits and decodes the whole frame. */
  lemma SweepShortDropped(mem: seq<byte>)
    requires |mem| == BufferSize && mem[..5] == Ascii("$S") + [5, CR, LF]
    ensures StepAsWritten(mem, 5) == Emitted(Unhandled(Ascii("$S") + [5]), 5)
    ensures DecodeStep(mem[..5]) == Wait
    ensures DecodeStep(mem[..5] + [0x41, 0x42, 0x43] + CRLF) == Emit(SweepData(Samples([CR, LF, 0x41, 0x42, 0x43])), 10)
  {
    var b := mem[..5];
    assert b[0] == '$' as byte && b[1] == 'S' as byte && b[2] == 5;
    assert IsEOLAt(b, 3) && !IsEOLAt(b, 0) && !IsEOLAt(b, 1) && !IsEOLAt(b, 2);
    assert FindEOL(b) == 3;
    assert b[..3] == Ascii("$S") + [5];
    assert DecodeSweep(b, 3) == Halt;
    var bs: seq<byte> := [CR, LF, 0x41, 0x42, 0x43];
    assert b + [0x41, 0x42, 0x43] + CRLF == SweepFrame(bs) + [];
    DecodeSweepFrame(bs, []);
  }

  /** "$S", count 1, CR LF: the code widens the frame to the declared four bytes and
      removes six of the five buffered, leaving `off` at -1; the corrected step waits. */
  lemma SweepOverconsumes(mem: seq<byte>)
    requires |mem| == BufferSize && mem[..5] == Ascii("$S") + [1, CR, LF]
    ensures StepAsWritten(mem, 5) == Emitted(SweepData(Samples([CR])), 6)
    ensures DecodeStep(mem[..5]) == Wait
  {
    var b := mem[..5];
    assert b[0] == '$' as byte && b[1] == 'S' as byte && b[2] == 1;
    assert IsEOLAt(b, 3) && !IsEOLAt(b, 0) && !IsEOLAt(b, 1) && !IsEOLAt(b, 2);
    assert FindEOL(b) == 3;
    assert b[3..4] == [CR];
    assert DecodeSweep(b, 3) == Halt;
  }

  /** "$P" and one more byte, no CR LF: the code builds a preset from bytes 3..32, none of
      which belong to this frame, and removes eolIdx+2 = 1 byte; two buffers that agree on
      the three bytes received give different presets. The corrected step waits. */
  lemma PresetReadsStaleBytes(mem: seq<byte>, mem': seq<byte>)
    requires |mem| == BufferSize && |mem'| == BufferSize
    requires mem[..3] == mem'[..3] == Ascii("$P") + [0]
    requires mem[3] != mem'[3]
    ensures StepAsWritten(mem, 3) == Emitted(PresetPacket(PresetFields(mem)), 1)
    ensures StepAsWritten(mem', 3) == Emitted(PresetPacket(PresetFields(mem')), 1)
    ensures PresetFields(mem) != PresetFields(mem')
    ensures DecodeStep(mem[..3]) == Wait
  {
    var b := mem[..3];
    assert b[0] == '$' as byte && b[1] == 'P' as byte;
    assert !IsEOLAt(b, 0) && !IsEOLAt(b, 1);
    assert FindEOL(b) == -1;
    assert mem'[..3] == b;
    assert PresetFields(mem).index != PresetFields(mem').index;
  }

  /** "#" then CR LF: the code indexes b[1] of a one-byte line and panics; the corrected
      step hands the line over as Unhandled. */
  lemma BareHashPanics(mem: seq<byte>)
    requires |mem| == BufferSize && mem[..3] == Ascii("#") + [CR, LF]
    ensures StepAsWritten(mem, 3) == Panic
    ensures DecodeStep(mem[..3]) == Emit(Unhandled(Ascii("#")), 3)
  {
    var b := mem[..3];
    assert b[0] == '#' as byte && IsEOLAt(b, 1) && !IsEOLAt(b, 0);
    assert FindEOL(b) == 1;
    assert b[..1] == Ascii("#");
  }

  /** "#S" then CR LF: the code indexes b[2] of a two-byte line and panics. */
  lemma ShortSerialPanics(mem: seq<byte>)
    requires |mem| == BufferSize && mem[..4] == Ascii("#S") + [CR, LF]
    ensures StepAsWritten(mem, 4) == Panic
    ensures DecodeStep(mem[..4]) == Emit(Unhandled(Ascii("#S")), 4)
  {
    var b := mem[..4];
    assert b[0] == '#' as byte && b[1] == 'S' as byte;
    assert IsEOLAt(b, 2) && !IsEOLAt(b, 0) && !IsEOLAt(b, 1);
    assert FindEOL(b) == 2;
    assert b[..2] == Ascii("#S");
    assert mem[..2] == b[..2];
  }

  /** "#C2-F:" with a single field: the code indexes p[1] .. p[12] of a one-element split
      and panics; the corrected step hands the line over as Unhandled. */
  lemma ShortConfigPanics(mem: seq<byte>)
    requires |mem| == BufferSize && mem[..9] == Ascii("#C2-F:7") + [CR, LF]
    ensures StepAsWritten(mem, 9) == Panic
    ensures DecodeStep(mem[..9]) == Emit(Unhandled(Ascii("#C2-F:7")), 9)
  {
    var b := mem[..9];
    assert IsEOLAt(b, 7);
    forall j | 0 <= j < 7
      ensures !IsEOLAt(b, j)
    {
      assert b[j] != CR;
    }
    assert FindEOL(b) == 7;
    var line := b[..7];
    assert line == Ascii("#C2-F:7") && mem[..7] == line;
    assert line[6..] == ['7' as byte];
    SplitWhole(line[6..], ',' as byte);
    assert line[1] == 'C' as byte && line[2] == '2' as byte && line[3] == '-' as byte;
    assert line[4] == 'F' as byte && line[5] == ':' as byte;
    assert DecodeLine(line) == None;
  }

  /** "#C4-F:" with a single one-byte field, whatever that byte: the code indexes
      p[1] .. p[6] of a one-element split and panics; the corrected step hands the line
      over as Unhandled. */
  lemma ShortSnifferPanics(mem: seq<byte>, d: byte)
    requires d != CR && d != ',' as byte
    requires |mem| == BufferSize && mem[..9] == Ascii("#C4-F:") + [d, CR, LF]
    ensures StepAsWritten(mem, 9) == Panic
    ensures DecodeStep(mem[..9]) == Emit(Unhandled(Ascii("#C4-F:") + [d]), 9)
  {
    var b := mem[..9];
    assert IsEOLAt(b, 7);
    forall j | 0 <= j < 7
      ensures !IsEOLAt(b, j)
    {
      assert b[j] != CR;
    }
    assert FindEOL(b) == 7;
    var line := b[..7];
    assert line == Ascii("#C4-F:") + [d] && mem[..7] == line;
    assert line[6..] == [d];
    SplitWhole(line[6..], ',' as byte);
    assert line[1] == 'C' as byte && line[2] == '4' as byte && line[3] == '-' as byte;
    assert line[4] == 'F' as byte && line[5] == ':' as byte;
    assert DecodeLine(line) == None;
  }
}
