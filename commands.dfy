/** The bytes of every command the driver sends (rfx/protocol.go:484-737): the "#<size>"
    framing of SendCommand, the fixed commands, the clamped sweep-point and analyzer
    configuration commands, the baud-rate table and the 36-byte preset write. */
module Commands {
  import opened Wire
  import opened Parsing
  import opened Packets

  /** The errors the command methods return (their fmt.Errorf messages). */
  datatype Error =
    | CommandTooLong(length: int)
    | FrequencyOutOfRange
    | UnknownBaudRate(rate: int)
    | SetupFailed

  /** The longest payload SendCommand accepts: its frame length must fit in the size byte. */
  const MaxCommandLength: int := 253

  // ---------------------------------------------------------------------
  // Framing

  /** SendCommand's frame: '#', the frame length, then the payload
      (rfx/protocol.go:726-737). */
  function EncodeCommand(cmd: seq<byte>): (r: Result<seq<byte>, Error>)
    ensures r.Failure? <==> |cmd| > MaxCommandLength
    ensures r.Failure? ==> r.error == CommandTooLong(|cmd|)
    ensures r.Success? ==> |r.value| == |cmd| + 2 && r.value[2..] == cmd
    ensures r.Success? ==> r.value[0] == '#' as byte && r.value[1] as int == |r.value|
  {
    if |cmd| > MaxCommandLength then Failure(CommandTooLong(|cmd|))
    else Success(['#' as byte, GoByte(2 + |cmd|)] + cmd)
  }

  /** Reading a command frame back: the payload of a well-formed frame. */
  function DecodeCommand(frame: seq<byte>): (r: Option<seq<byte>>)
    ensures r.Some? ==> |r.value| + 2 == |frame| && r.value == frame[2..]
  {
    if |frame| >= 2 && frame[0] == '#' as byte && frame[1] as int == |frame| then Some(frame[2..])
    else None
  }

  lemma DecodeEncodeCommand(cmd: seq<byte>)
    requires |cmd| <= MaxCommandLength
    ensures DecodeCommand(EncodeCommand(cmd).value) == Some(cmd)
  {
  }

  /** Every well-formed frame is the encoding of its payload. */
  lemma EncodeDecodeCommand(frame: seq<byte>)
    requires DecodeCommand(frame).Some?
    ensures EncodeCommand(DecodeCommand(frame).value) == Success(frame)
  {
    var cmd := frame[2..];
    assert frame == ['#' as byte, frame[1]] + cmd;
  }

  // ---------------------------------------------------------------------
  // Fixed commands (rfx/protocol.go:484-645)

  /** SetLCDEnabled builds its frame by hand: "#", 4, "L", then '1' or '0'. */
  function LcdFrame(enabled: bool): (f: seq<byte>)
    ensures |f| == 4
  {
    ['#' as byte, 4, 'L' as byte, if enabled then '1' as byte else '0' as byte]
  }

  function LcdCommand(enabled: bool): seq<byte>
  {
    Ascii(if enabled then "L1" else "L0")
  }

  /** The hand-built LCD frame is the SendCommand frame of "L1" / "L0". */
  lemma LcdFrameIsCommand(enabled: bool)
    ensures EncodeCommand(LcdCommand(enabled)) == Success(LcdFrame(enabled))
  {
    var cmd := LcdCommand(enabled);
    var f := EncodeCommand(cmd).value;
    assert |cmd| == 2 && cmd[0] == 'L' as byte;
    assert cmd[1] == if enabled then '1' as byte else '0' as byte;
    assert f[2] == cmd[0] && f[3] == cmd[1];
    assert f == LcdFrame(enabled);
  }

  function ScreenDumpCommand(enabled: bool): seq<byte>
  {
    Ascii(if enabled then "D1" else "D0")
  }

  function GeneratorPowerCommand(on: bool): seq<byte>
  {
    Ascii(if on then "CP1" else "CP0")
  }

  const ResetBuffersCommand: seq<byte> := Ascii("Cr")
  const SerialNumberCommand: seq<byte> := Ascii("Cn")
  const ConfigCommand: seq<byte> := Ascii("C0")
  const PresetsCommand: seq<byte> := Ascii("CP") + [0]
  const CalibrationCommand: seq<byte> := Ascii("Cq")
  const MainModuleCommand: seq<byte> := Ascii("CM") + [0]
  const HoldCommand: seq<byte> := Ascii("CH")
  const ExpansionModuleCommand: seq<byte> := Ascii("CM") + [1]
  const RealtimeCommand: seq<byte> := Ascii("C+") + [0]
  const MaxHoldCommand: seq<byte> := Ascii("C+") + [4]
  const ShutdownCommand: seq<byte> := Ascii("CS")

  // ---------------------------------------------------------------------
  // Baud rates (rfx/protocol.go:604-626)

  /** The rates the instrument accepts, in the order of their code digit: code '0' is
      500000 baud, codes '1' to '8' are 1200 to 115200 baud. */
  const BaudRates: seq<int> := [500000, 1200, 2400, 4800, 9600, 19200, 38400, 57600, 115200]

  function BaudRateCommand(rate: int): (r: Result<seq<byte>, Error>)
    ensures r.Failure? <==> rate !in BaudRates
    ensures r.Failure? ==> r.error == UnknownBaudRate(rate)
  {
    if rate == 1200 then Success(Ascii("c1"))
    else if rate == 2400 then Success(Ascii("c2"))
    else if rate == 4800 then Success(Ascii("c3"))
    else if rate == 9600 then Success(Ascii("c4"))
    else if rate == 19200 then Success(Ascii("c5"))
    else if rate == 38400 then Success(Ascii("c6"))
    else if rate == 57600 then Success(Ascii("c7"))
    else if rate == 115200 then Success(Ascii("c8"))
    else if rate == 500000 then Success(Ascii("c0"))
    else Failure(UnknownBaudRate(rate))
  }

  /** The rate at index i of the table is sent as "c" followed by the digit i. */
  lemma BaudRateCode(i: int)
    requires 0 <= i < |BaudRates|
    ensures BaudRateCommand(BaudRates[i]) == Success(Ascii("c") + [DigitChar(i)])
  {
    var c := BaudRateCommand(BaudRates[i]).value;
    assert |c| == 2 && c[0] == 'c' as byte && c[1] == DigitChar(i);
    assert c == Ascii("c") + [DigitChar(i)];
  }

  /** Distinct rates are sent as distinct commands. */
  lemma BaudRateCommandInjective(a: int, b: int)
    requires BaudRateCommand(a).Success? && BaudRateCommand(b).Success?
    requires BaudRateCommand(a) == BaudRateCommand(b)
    ensures a == b
  {
    var i :| 0 <= i < |BaudRates| && BaudRates[i] == a;
    var j :| 0 <= j < |BaudRates| && BaudRates[j] == b;
    BaudRateCode(i);
    BaudRateCode(j);
    assert DigitChar(i) == BaudRateCommand(a).value[1] == DigitChar(j);
    assert DigitValue(DigitChar(i)) == i;
  }

  // ---------------------------------------------------------------------
  // Sweep points (rfx/protocol.go:654-673)

  /** "CJ" and (steps-16)/16 after clamping steps to [16, 4096]. */
  function SweepPointsCommand(steps: int): (r: seq<byte>)
    ensures |r| == 3 && r[..2] == Ascii("CJ")
  {
    var n := Clamp(steps, 16, 4096);
    Ascii("CJ") + [GoByte((n - 16) / 16)]
  }

  /** The point count a "CJ" code selects. */
  function SweepPointsOf(code: byte): int
  {
    16 + 16 * code as int
  }

  /** The instrument gets the largest multiple of 16 not above the clamped request; a
      multiple of 16 in range is sent exactly. */
  lemma SweepPointsRoundTrip(steps: int)
    ensures var n := Clamp(steps, 16, 4096);
      SweepPointsOf(SweepPointsCommand(steps)[2]) <= n < SweepPointsOf(SweepPointsCommand(steps)[2]) + 16
    ensures 16 <= steps <= 4096 && steps % 16 == 0 ==>
      SweepPointsOf(SweepPointsCommand(steps)[2]) == steps
  {
    var n := Clamp(steps, 16, 4096);
    assert 0 <= (n - 16) / 16 < 256;
  }

  /** "Cj", then the high and low byte of steps after clamping to [112, 65536]. */
  function SweepPointsExCommand(steps: int): (r: seq<byte>)
    ensures |r| == 4 && r[..2] == Ascii("Cj")
  {
    var n := Clamp(steps, 112, 65536);
    Ascii("Cj") + [GoByte(n / 256 % 256), GoByte(n % 256)]
  }

  /** Big-endian reading of the two count bytes. */
  function SweepPointsExOf(hi: byte, lo: byte): int
  {
    256 * hi as int + lo as int
  }

  /** Counts up to 65535 reach the instrument exactly; the upper clamp bound 65536 does
      not fit the two bytes and is sent as 0. */
  lemma SweepPointsExRoundTrip(steps: int)
    ensures var r := SweepPointsExCommand(steps); var n := Clamp(steps, 112, 65536);
      SweepPointsExOf(r[2], r[3]) == n % 0x1_0000
    ensures 112 <= steps <= 65535 ==>
      var r := SweepPointsExCommand(steps); SweepPointsExOf(r[2], r[3]) == steps
    ensures steps >= 65536 ==>
      var r := SweepPointsExCommand(steps); SweepPointsExOf(r[2], r[3]) == 0
  {
  }

  // ---------------------------------------------------------------------
  // Analyzer configuration (rfx/protocol.go:676-718)

  const MaxFreqKHz: int := 9999999
  const MinAmpDBm: int := -120
  const MinSweepSteps: int := 112
  /** MaxSpectrumSteps (rfx/protocol.go:24). */
  const MaxSpectrumSteps: int := 65535

  /** The top amplitude, clamped to [-120, 0]. */
  function ClampAmpTop(top: int): (r: int)
    ensures MinAmpDBm <= r <= 0
    ensures MinAmpDBm <= top <= 0 ==> r == top
  {
    if top > 0 then 0 else if top < MinAmpDBm then MinAmpDBm else top
  }

  /** The bottom amplitude: kept when it lies in [-120, top), otherwise -120. */
  function ClampAmpBottom(bottom: int, top: int): (r: int)
    ensures r == bottom || r == MinAmpDBm
    ensures r == bottom <==> bottom == MinAmpDBm || (MinAmpDBm <= bottom < top)
  {
    if bottom >= top || bottom < MinAmpDBm then MinAmpDBm else bottom
  }

  /** The sweep steps implied by a span and a requested RBW, clamped to [112, 65535]. */
  function SweepStepsFor(span: int, rbw: int): (steps: int)
    requires rbw > 0
    ensures MinSweepSteps <= steps <= MaxSpectrumSteps
  {
    Clamp(TruncDiv(span + rbw / 2, rbw), MinSweepSteps, MaxSpectrumSteps)
  }

  /** The RBW field sent: a requested RBW in [3, 670] becomes the span divided by the
      sweep steps, rounded, and is sent only if that lies in [3, 620). */
  function EffectiveRbw(startFreqKHz: int, endFreqKHz: int, rbw: int): (r: Option<int>)
    ensures r.Some? ==> 3 <= rbw <= 670 && 3 <= r.value < 620
  {
    if rbw > 0 && rbw >= 3 && rbw <= 670 then
      var span := endFreqKHz - startFreqKHz;
      var steps := SweepStepsFor(span, rbw);
      var r := TruncDiv(span + steps / 2, steps);
      if r >= 3 && r < 620 then Some(r) else None
    else None
  }

  /** The RBW sent is the span over the steps rounded to nearest: r * steps is within
      half a step of the span, which is therefore positive. */
  lemma EffectiveRbwRounds(startFreqKHz: int, endFreqKHz: int, rbw: int)
    requires EffectiveRbw(startFreqKHz, endFreqKHz, rbw).Some?
    ensures var r := EffectiveRbw(startFreqKHz, endFreqKHz, rbw).value;
      var span := endFreqKHz - startFreqKHz; var steps := SweepStepsFor(span, rbw);
      span > 0 && r * steps <= span + steps / 2 < (r + 1) * steps
  {
    var r := EffectiveRbw(startFreqKHz, endFreqKHz, rbw).value;
    var span := endFreqKHz - startFreqKHz;
    var steps := SweepStepsFor(span, rbw);
    RoundedQuotient(span + steps / 2, steps, r);
  }

  /** Conversely, a requested RBW in [3, 670] whose rounded value q lies in [3, 620) is
      sent as q: the RBW field is present exactly when both ranges are met. */
  lemma EffectiveRbwPresent(startFreqKHz: int, endFreqKHz: int, rbw: int, q: int)
    requires 3 <= rbw <= 670 && 3 <= q < 620
    requires var span := endFreqKHz - startFreqKHz; var steps := SweepStepsFor(span, rbw);
      q * steps <= span + steps / 2 < (q + 1) * steps
    ensures EffectiveRbw(startFreqKHz, endFreqKHz, rbw) == Some(q)
  {
    var span := endFreqKHz - startFreqKHz;
    var steps := SweepStepsFor(span, rbw);
    QuotientUnique(span + steps / 2, steps, q);
  }

  /** The quotient that brackets a non-negative dividend is its truncated quotient. */
  lemma QuotientUnique(a: int, d: int, q: int)
    requires d > 0 && q >= 0 && q * d <= a < (q + 1) * d
    ensures TruncDiv(a, d) == q
  {
    var q' := a / d;
    assert q' * d <= a < (q' + 1) * d by {
      assert a == q' * d + a % d;
    }
    if q' > q {
      MulMono(q + 1, q', d);
    } else if q' < q {
      MulMono(q' + 1, q, d);
    }
  }

  lemma MulMono(x: int, y: int, d: int)
    requires x <= y && d > 0
    ensures x * d <= y * d
  {
    assert y * d - x * d == (y - x) * d;
  }

  /** A truncated quotient of at least 3 comes from a non-negative dividend of at least
      three divisors, and brackets it. */
  lemma RoundedQuotient(a: int, d: int, q: int)
    requires d > 0 && q == TruncDiv(a, d) && q >= 3
    ensures a >= 3 * d && q * d <= a < (q + 1) * d
  {
    assert a >= 0;
    assert a == (a / d) * d + a % d;
    assert q * d >= 3 * d;
  }

  /** What SetAnalyzerConfig asks for after its range check and clamping. */
  datatype AnalyzerSettings = AnalyzerSettings(
    startFreqKHz: int, endFreqKHz: int, ampTopDBm: int, ampBottomDBm: int, rbwKHz: Option<int>)

  function Settle(startFreqKHz: int, endFreqKHz: int, ampTopDBm: int, ampBottomDBm: int,
                  rbwKHz: int): (s: AnalyzerSettings)
    ensures MinAmpDBm <= s.ampBottomDBm <= s.ampTopDBm <= 0
  {
    var top := ClampAmpTop(ampTopDBm);
    AnalyzerSettings(startFreqKHz, endFreqKHz, top, ClampAmpBottom(ampBottomDBm, top),
                     EffectiveRbw(startFreqKHz, endFreqKHz, rbwKHz))
  }

  /** The "C2-F:" fields: start, end, top, bottom, and the RBW if there is one. */
  function AnalyzerFields(s: AnalyzerSettings): (p: seq<seq<byte>>)
    ensures |p| == if s.rbwKHz.Some? then 5 else 4
  {
    [FormatPadded(s.startFreqKHz, 7), FormatPadded(s.endFreqKHz, 7),
     FormatPadded(s.ampTopDBm, 4), FormatPadded(s.ampBottomDBm, 4)] +
    (if s.rbwKHz.Some? then [FormatPadded(s.rbwKHz.value, 5)] else [])
  }

  /** fmt.Sprintf("C2-F:%07d,%07d,%04d,%04d%s", ...) with the optional ",%05d" RBW. */
  function AnalyzerText(s: AnalyzerSettings): (t: seq<byte>)
    ensures |t| >= 5 && t[..5] == Ascii("C2-F:")
    ensures Split(t[5..], ',' as byte) == AnalyzerFields(s)
  {
    AnalyzerFieldsClean(s);
    SplitJoin(AnalyzerFields(s), ',' as byte);
    Ascii("C2-F:") + Join(AnalyzerFields(s), ',' as byte)
  }

  /** SetAnalyzerConfig's command: frequencies outside [0, 9999999] are refused; otherwise
      the clamped settings in the "C2-F:" text. */
  function AnalyzerConfigCommand(startFreqKHz: int, endFreqKHz: int, ampTopDBm: int,
                                 ampBottomDBm: int, rbwKHz: int): (r: Result<seq<byte>, Error>)
    ensures r.Failure? <==> !(0 <= startFreqKHz <= MaxFreqKHz && 0 <= endFreqKHz <= MaxFreqKHz)
    ensures r.Failure? ==> r.error == FrequencyOutOfRange
  {
    if startFreqKHz < 0 || endFreqKHz < 0 || startFreqKHz > MaxFreqKHz || endFreqKHz > MaxFreqKHz then
      Failure(FrequencyOutOfRange)
    else
      Success(AnalyzerText(Settle(startFreqKHz, endFreqKHz, ampTopDBm, ampBottomDBm, rbwKHz)))
  }

  /** The settings four or five decimal fields stand for. */
  function SettingsOfFields(p: seq<seq<byte>>): (r: Option<AnalyzerSettings>)
    ensures r.Some? <==> |p| == 4 || |p| == 5
  {
    if |p| == 4 || |p| == 5 then
      Some(AnalyzerSettings(ParseASCIIDecimal(p[0]), ParseASCIIDecimal(p[1]),
                            ParseASCIIDecimal(p[2]), ParseASCIIDecimal(p[3]),
                            if |p| == 5 then Some(ParseASCIIDecimal(p[4])) else None))
    else None
  }

  /** Reading a "C2-F:" command back into its settings. */
  function ParseAnalyzerCommand(cmd: seq<byte>): Option<AnalyzerSettings>
  {
    if |cmd| < 5 || cmd[..5] != Ascii("C2-F:") then None
    else SettingsOfFields(Split(cmd[5..], ',' as byte))
  }

  /** Settings that SetAnalyzerConfig can produce. */
  predicate Settled(s: AnalyzerSettings)
  {
    0 <= s.startFreqKHz <= MaxFreqKHz && 0 <= s.endFreqKHz <= MaxFreqKHz &&
    MinAmpDBm <= s.ampBottomDBm <= s.ampTopDBm <= 0 &&
    (s.rbwKHz.Some? ==> 3 <= s.rbwKHz.value < 620)
  }

  lemma AnalyzerFieldsClean(s: AnalyzerSettings)
    ensures forall i :: 0 <= i < |AnalyzerFields(s)| ==> ',' as byte !in AnalyzerFields(s)[i]
  {
    FormattedHasNoSeparator(s.startFreqKHz, 7);
    FormattedHasNoSeparator(s.endFreqKHz, 7);
    FormattedHasNoSeparator(s.ampTopDBm, 4);
    FormattedHasNoSeparator(s.ampBottomDBm, 4);
    if s.rbwKHz.Some? {
      FormattedHasNoSeparator(s.rbwKHz.value, 5);
    }
  }

  lemma SettingsOfAnalyzerFields(s: AnalyzerSettings)
    requires Settled(s)
    ensures SettingsOfFields(AnalyzerFields(s)) == Some(s)
  {
    ParseFormatted(s.startFreqKHz, 7);
    ParseFormatted(s.endFreqKHz, 7);
    ParseFormatted(s.ampTopDBm, 4);
    ParseFormatted(s.ampBottomDBm, 4);
    if s.rbwKHz.Some? {
      ParseFormatted(s.rbwKHz.value, 5);
    }
  }

  /** The command carries exactly the clamped settings: reading it back gives the range-
      checked frequencies, the clamped amplitudes and the effective RBW. */
  lemma AnalyzerConfigRoundTrip(startFreqKHz: int, endFreqKHz: int, ampTopDBm: int,
                                ampBottomDBm: int, rbwKHz: int)
    requires 0 <= startFreqKHz <= MaxFreqKHz && 0 <= endFreqKHz <= MaxFreqKHz
    ensures var r := AnalyzerConfigCommand(startFreqKHz, endFreqKHz, ampTopDBm, ampBottomDBm, rbwKHz);
      ParseAnalyzerCommand(r.value) ==
        Some(Settle(startFreqKHz, endFreqKHz, ampTopDBm, ampBottomDBm, rbwKHz))
  {
    var s := Settle(startFreqKHz, endFreqKHz, ampTopDBm, ampBottomDBm, rbwKHz);
    SettingsOfAnalyzerFields(s);
  }

  lemma AnalyzerFieldWidths(s: AnalyzerSettings)
    requires Settled(s)
    ensures var p := AnalyzerFields(s);
      |p[0]| == 7 && |p[1]| == 7 && |p[2]| == 4 && |p[3]| == 4 && (s.rbwKHz.Some? ==> |p[4]| == 5)
  {
    assert Pow10(7) == 10000000 && Pow10(3) == 1000 && Pow10(5) == 100000;
    FormatPaddedWidth(s.startFreqKHz, 7);
    FormatPaddedWidth(s.endFreqKHz, 7);
    FormatPaddedWidth(s.ampTopDBm, 4);
    FormatPaddedWidth(s.ampBottomDBm, 4);
    if s.rbwKHz.Some? {
      FormatPaddedWidth(s.rbwKHz.value, 5);
    }
  }

  lemma TotalLengthOfFields(p: seq<seq<byte>>)
    requires |p| == 4 || |p| == 5
    ensures TotalLength(p) == |p[0]| + |p[1]| + |p[2]| + |p[3]| + (if |p| == 5 then |p[4]| else 0)
  {
    var t4 := if |p| == 5 then |p[4]| else 0;
    assert TotalLength(p[4..]) == t4 by {
      if |p| == 5 {
        assert p[4..][1..] == [];
      } else {
        assert p[4..] == [];
      }
    }
    assert p[3..][1..] == p[4..];
    assert p[2..][1..] == p[3..];
    assert p[1..][1..] == p[2..];
    assert TotalLength(p[3..]) == |p[3]| + t4;
    assert TotalLength(p[2..]) == |p[2]| + |p[3]| + t4;
    assert TotalLength(p[1..]) == |p[1]| + |p[2]| + |p[3]| + t4;
  }

  /** The command is 30 bytes, or 36 with an RBW field: it always fits SendCommand. */
  lemma AnalyzerConfigLength(startFreqKHz: int, endFreqKHz: int, ampTopDBm: int,
                             ampBottomDBm: int, rbwKHz: int)
    requires 0 <= startFreqKHz <= MaxFreqKHz && 0 <= endFreqKHz <= MaxFreqKHz
    ensures var r := AnalyzerConfigCommand(startFreqKHz, endFreqKHz, ampTopDBm, ampBottomDBm, rbwKHz);
      var s := Settle(startFreqKHz, endFreqKHz, ampTopDBm, ampBottomDBm, rbwKHz);
      |r.value| == (if s.rbwKHz.Some? then 36 else 30) && |r.value| <= MaxCommandLength
  {
    var s := Settle(startFreqKHz, endFreqKHz, ampTopDBm, ampBottomDBm, rbwKHz);
    AnalyzerFieldWidths(s);
    TotalLengthOfFields(AnalyzerFields(s));
    JoinLength(AnalyzerFields(s), ',' as byte);
  }

  // ---------------------------------------------------------------------
  // Preset write (rfx/protocol.go:531-564)

  /** The name as sent: Go's `name[:12]` when longer than twelve bytes. */
  function TruncatedName(name: seq<byte>): (r: seq<byte>)
    ensures |r| <= 12 && |r| <= |name| && r == name[..|r|]
    ensures |name| <= 12 ==> r == name
  {
    if |name| > 12 then name[..12] else name
  }

  /** The 36-byte preset write: '#', 0x24 (its own length), "CP", 1, the index, the name
      zero-padded to twelve bytes, two zero bytes, minimum and maximum frequency as
      little-endian uint32, calculator mode, top and bottom amplitude as int8, iterations,
      mainboard flag, marker mode, 0x42 and 0. */
  function PresetFrame(p: Preset): (f: seq<byte>)
    ensures |f| == 36
  {
    PresetHeader(p) + NameField(TruncatedName(p.name)) + [0, 0] +
    PutLe32(p.minFreqKHz) + PutLe32(p.maxFreqKHz) + PresetTrailer(p)
  }

  function PresetHeader(p: Preset): (h: seq<byte>)
    ensures |h| == 6
  {
    ['#' as byte, 0x24, 'C' as byte, 'P' as byte, 1, GoByte(p.index)]
  }

  function PresetTrailer(p: Preset): (t: seq<byte>)
    ensures |t| == 8
  {
    [GoByte(p.calcMode), GoByte(p.ampTopDBm), GoByte(p.ampBottomDBm),
     GoByte(p.calcIterations), if p.mainboard then 1 else 0, p.markerMode, 0x42, 0]
  }

  /** Where each part of the preset write sits. */
  lemma PresetFrameParts(p: Preset)
    ensures var f := PresetFrame(p);
      f[..6] == PresetHeader(p) && f[6..18] == NameField(TruncatedName(p.name)) &&
      f[18] == 0 && f[19] == 0 &&
      f[20..24] == PutLe32(p.minFreqKHz) && f[24..28] == PutLe32(p.maxFreqKHz) &&
      f[28..] == PresetTrailer(p)
  {
  }

  /** Reading the fields back from the write layout. */
  function PresetOfFrame(f: seq<byte>): Preset
    requires |f| == 36
  {
    Preset(
      index := f[5] as int,
      name := CutAtZero(f[6..18]),
      minFreqKHz := Le32(f[20..24]),
      maxFreqKHz := Le32(f[24..28]),
      ampTopDBm := Int8(f[29]),
      ampBottomDBm := Int8(f[30]),
      calcMode := f[28] as int,
      calcIterations := f[31] as int,
      mainboard := f[32] != 0,
      markerMode := f[33])
  }

  /** The preset write is an ordinary command frame: SendCommand framing of its payload. */
  lemma PresetFrameIsCommand(p: Preset)
    ensures DecodeCommand(PresetFrame(p)).Some?
    ensures EncodeCommand(PresetFrame(p)[2..]) == Success(PresetFrame(p))
  {
    EncodeDecodeCommand(PresetFrame(p));
  }

  /** Every field of a representable preset survives the write layout. */
  lemma PresetFrameRoundTrip(p: Preset)
    requires Representable(p)
    ensures PresetOfFrame(PresetFrame(p)) == p
  {
    PresetFrameParts(p);
    PresetOfParts(p, PresetFrame(p));
  }

  /** Any 36 bytes laid out as the preset write of p read back as p. */
  lemma PresetOfParts(p: Preset, f: seq<byte>)
    requires Representable(p) && |f| == 36
    requires f[..6] == PresetHeader(p) && f[6..18] == NameField(p.name)
    requires f[20..24] == PutLe32(p.minFreqKHz) && f[24..28] == PutLe32(p.maxFreqKHz)
    requires f[28..] == PresetTrailer(p)
    ensures PresetOfFrame(f) == p
  {
    assert f[5] == f[..6][5];
    CutNameField(p.name);
    assert f[29] == f[28..][1] && f[30] == f[28..][2];
    Int8RoundTrip(p.ampTopDBm);
    Int8RoundTrip(p.ampBottomDBm);
    assert f[28] == f[28..][0] && f[31] == f[28..][3] && f[32] == f[28..][4] && f[33] == f[28..][5];
  }

  /** A name longer than twelve bytes is cut to its first twelve. */
  lemma PresetFrameTruncatesName(p: Preset)
    requires |p.name| > 12
    ensures PresetFrame(p)[6..18] == p.name[..12]
  {
  }
}
