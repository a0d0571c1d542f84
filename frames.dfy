/** The frames the instrument sends, built from their contents, and the proofs that one
    decode step (module Decoding) takes each of them back apart: the inverse direction
    of the decoder, frame type by frame type. */
module Frames {
  import opened Wire
  import opened Parsing
  import opened Packets
  import opened Decoding

  const CRLF: seq<byte> := [CR, LF]

  /** The first CR LF of a line followed by CR LF is the one that ends it. */
  lemma LineEnd(line: seq<byte>, t: seq<byte>)
    requires CR !in line
    ensures FindEOL(line + CRLF + t) == |line|
  {
    var b := line + CRLF + t;
    assert IsEOLAt(b, |line|);
    forall j | 0 <= j < |line|
      ensures !IsEOLAt(b, j)
    {
      assert b[j] == line[j];
    }
  }

  // ---------------------------------------------------------------------
  // Binary frames

  /** "$D", the 1024-byte bitmap, and the two bytes that end the frame. */
  function ScreenFrame(data: seq<byte>): (f: seq<byte>)
    requires |data| == ScreenBytes
    ensures |f| == ScreenFrameLength
  {
    Ascii("$D") + data + CRLF
  }

  lemma DecodeScreenFrame(data: seq<byte>, t: seq<byte>)
    requires |data| == ScreenBytes
    ensures DecodeStep(ScreenFrame(data) + t) == Emit(ScreenImage(data), ScreenFrameLength)
  {
    var b := ScreenFrame(data) + t;
    assert b[0] == '$' as byte && b[1] == 'D' as byte;
    assert b[2..0x402] == data;
    assert Dispatch(b, FindEOL(b)) == Handled(ScreenImage(data), 0x402);
  }

  /** "$R", the payload length as a little-endian 16-bit field, the payload, and two
      trailing bytes. */
  function RawFrame(data: seq<byte>): (f: seq<byte>)
    requires |data| < 0x1_0000
    ensures |f| == |data| + 6
  {
    Ascii("$R") + [(|data| % 256) as byte, (|data| / 256) as byte] + data + CRLF
  }

  lemma DecodeRawFrame(data: seq<byte>, t: seq<byte>)
    requires |data| < 0x1_0000
    ensures DecodeStep(RawFrame(data) + t) == Emit(RawData(data), |data| + 6)
  {
    var b := RawFrame(data) + t;
    var n := |data|;
    assert b[0] == '$' as byte && b[1] == 'R' as byte;
    assert b[2..4] == [(n % 256) as byte, (n / 256) as byte];
    assert Le16(b[2..4]) == n;
    assert b[4..4 + n] == data;
    assert Dispatch(b, FindEOL(b)) == Handled(RawData(data), 4 + n);
  }

  /** "$S", the sample count, the samples and CR LF. */
  function SweepFrame(bs: seq<byte>): (f: seq<byte>)
    requires |bs| < 256
    ensures |f| == |bs| + 5
  {
    Ascii("$S") + [|bs| as byte] + bs + CRLF
  }

  /** A sweep frame decodes to its samples read as -b/2 dBm and is consumed whole, even
      when the samples themselves contain CR LF: the count byte decides the length. */
  lemma DecodeSweepFrame(bs: seq<byte>, t: seq<byte>)
    requires |bs| < 256
    ensures DecodeStep(SweepFrame(bs) + t) == Emit(SweepData(Samples(bs)), |bs| + 5)
  {
    var b := SweepFrame(bs) + t;
    var n := |bs|;
    assert b[0] == '$' as byte && b[1] == 'S' as byte && b[2] as int == n;
    assert IsEOLAt(b, 3 + n);
    var eol := FindEOL(b);
    assert 0 <= eol <= 3 + n;
    assert b[3..3 + n] == bs;
    assert DecodeSweep(b, eol) == Handled(SweepData(Samples(bs)), 3 + n);
  }

  // ---------------------------------------------------------------------
  // Preset records

  /** The 33 bytes of a "$P" record up to the marker mode: index at 3, name at 5..17,
      minimum and maximum frequency at 19 and 23, then calculator mode, top and bottom
      amplitude, iterations, mainboard flag and marker mode at 27..32. Bytes the decoder
      does not read are zero here. */
  function PresetRecord(p: Preset): (f: seq<byte>)
    requires Representable(p)
    ensures |f| == PresetFieldsEnd
  {
    Ascii("$P") + [0, p.index as byte, 0] + NameField(p.name) + [0, 0] +
    PutLe32(p.minFreqKHz) + PutLe32(p.maxFreqKHz) +
    [p.calcMode as byte, GoByte(p.ampTopDBm), GoByte(p.ampBottomDBm),
     p.calcIterations as byte, if p.mainboard then 1 else 0, p.markerMode]
  }

  /** The fixed-offset fields give back the preset they were laid out from. */
  lemma PresetRecordFields(p: Preset, t: seq<byte>)
    requires Representable(p)
    ensures PresetFields(PresetRecord(p) + t) == p
  {
    var b := PresetRecord(p) + t;
    assert b[5..17] == NameField(p.name);
    CutNameField(p.name);
    assert b[19..23] == PutLe32(p.minFreqKHz);
    assert b[23..27] == PutLe32(p.maxFreqKHz);
    Int8RoundTrip(p.ampTopDBm);
    Int8RoundTrip(p.ampBottomDBm);
  }

  /** A record followed by CR LF decodes to its preset. The frame ends at the first CR LF,
      which may lie inside the record's binary fields: the byte count removed is then
      smaller than the record, as in the decoder it models. */
  lemma DecodePresetRecord(p: Preset, t: seq<byte>)
    requires Representable(p)
    ensures var b := PresetRecord(p) + CRLF + t;
      var eol := FindEOL(b);
      0 <= eol <= PresetFieldsEnd &&
      DecodeStep(b) == Emit(PresetPacket(p), eol + 2)
  {
    var r := PresetRecord(p);
    var b := r + CRLF + t;
    assert b == r + (CRLF + t);
    PresetRecordFields(p, CRLF + t);
    assert IsEOLAt(b, PresetFieldsEnd);
    var eol := FindEOL(b);
    assert b[0] == '$' as byte && b[1] == 'P' as byte;
    assert Dispatch(b, eol) == Handled(PresetPacket(p), eol);
  }

  // ---------------------------------------------------------------------
  // '#' lines

  /** A '#' line that the line decoder recognises is emitted as its packet, consuming the
      line and its CR LF. */
  lemma DecodeTextLine(line: seq<byte>, t: seq<byte>)
    requires |line| >= 1 && line[0] == '#' as byte && CR !in line
    requires DecodeLine(line).Some?
    ensures DecodeStep(line + CRLF + t) == Emit(DecodeLine(line).value, |line| + 2)
  {
    var b := line + CRLF + t;
    LineEnd(line, t);
    assert b[..|line|] == line;
    assert b[0] == '#' as byte;
    assert Dispatch(b, |line|) == Handled(DecodeLine(line).value, |line|);
  }

  /** Any other line ending in CR LF, with no '$' or '#' frame at its head, reaches the
      caller unchanged as an Unhandled packet. */
  lemma DecodeOtherLine(line: seq<byte>, t: seq<byte>)
    requires |line| >= 1 && line[0] != '#' as byte && line[0] != '$' as byte && CR !in line
    ensures DecodeStep(line + CRLF + t) == Emit(Unhandled(line), |line| + 2)
  {
    var b := line + CRLF + t;
    LineEnd(line, t);
    assert b[..|line|] == line;
    assert b[0] == line[0];
    assert Dispatch(b, |line|) == NotHandled;
  }

  function SerialNumberLine(sn: seq<byte>): seq<byte>
  {
    Ascii("#Sn") + sn
  }

  lemma DecodeSerialNumberLine(sn: seq<byte>, t: seq<byte>)
    requires CR !in sn
    ensures DecodeStep(SerialNumberLine(sn) + CRLF + t) == Emit(SerialNumber(sn), |sn| + 5)
  {
    var line := SerialNumberLine(sn);
    assert line[3..] == sn;
    assert DecodeLine(line) == Some(SerialNumber(sn));
    DecodeTextLine(line, t);
  }

  /** "#CAL:" and the two availability flags. */
  function CalibrationLine(mainboard: bool, expansionBoard: bool): seq<byte>
  {
    Ascii("#CAL:") + [if mainboard then '1' as byte else '0' as byte,
                      if expansionBoard then '1' as byte else '0' as byte]
  }

  lemma DecodeCalibrationLine(mainboard: bool, expansionBoard: bool, t: seq<byte>)
    ensures DecodeStep(CalibrationLine(mainboard, expansionBoard) + CRLF + t)
      == Emit(CalibrationAvailability(mainboard, expansionBoard), 9)
  {
    var line := CalibrationLine(mainboard, expansionBoard);
    assert DecodeLine(line) == Some(CalibrationAvailability(mainboard, expansionBoard));
    DecodeTextLine(line, t);
  }

  // ---------------------------------------------------------------------
  // The configuration report

  /** The thirteen numbers of a "#C2-F:" report, in field order; the expansion-module
      flag is 1 or 0. */
  function ConfigValues(c: Config): (v: seq<int>)
    ensures |v| == 13
  {
    [c.startFreqKHz, c.freqStepHz, c.ampTopDBm, c.ampBottomDBm, c.sweepSteps,
     if c.expModuleActive then 1 else 0, c.currentMode,
     c.minFreqKHz, c.maxFreqKHz, c.maxSpan, c.rbwKHz, c.ampOffset, c.calculatorMode]
  }

  /** The zero-padded widths this report gives each field. */
  const ConfigWidths: seq<nat> := [7, 7, 4, 4, 4, 1, 1, 7, 7, 7, 5, 4, 1]

  function ConfigFields(c: Config): (p: seq<seq<byte>>)
    ensures |p| == 13
  {
    seq(13, i requires 0 <= i < 13 => FormatPadded(ConfigValues(c)[i], ConfigWidths[i]))
  }

  function ConfigReport(c: Config): seq<byte>
  {
    Ascii("#C2-F:") + Join(ConfigFields(c), ',' as byte)
  }

  /** A configuration whose numbers are 64-bit values and whose enumeration codes are not
      negative. */
  predicate Reportable(c: Config)
  {
    (forall i :: 0 <= i < 13 ==> MinInt64 <= ConfigValues(c)[i] <= MaxInt64) &&
    0 <= c.currentMode && 0 <= c.calculatorMode
  }

  /** Field i of the report reads back as the number it was printed from. */
  lemma ConfigFieldParses(c: Config, i: int)
    requires Reportable(c) && 0 <= i < 13
    ensures ParseASCIIDecimal(ConfigFields(c)[i]) == ConfigValues(c)[i]
  {
    ParseFormatted(ConfigValues(c)[i], ConfigWidths[i]);
  }

  lemma CodeFieldParses(c: Config, i: int)
    requires Reportable(c) && (i == 6 || i == 12)
    ensures ParseCode(ConfigFields(c)[i], Invalid) == ConfigValues(c)[i]
    ensures i == 6 ==> ParseMode(ConfigFields(c)[i]) == c.currentMode
    ensures i == 12 ==> ParseCalculatorMode(ConfigFields(c)[i]) == c.calculatorMode
  {
    ParseCodeFormatted(ConfigValues(c)[i], 1, Invalid);
  }

  lemma FlagFieldParses(c: Config)
    ensures (ConfigFields(c)[5] == ['1' as byte]) == c.expModuleActive
  {
    var f := ConfigFields(c)[5];
    if c.expModuleActive {
      assert f == FormatPadded(1, 1) == Zeros(0) + Digits(1);
    } else {
      assert f == FormatPadded(0, 1) == Zeros(0) + Digits(0);
      assert f[0] != ['1' as byte][0];
    }
  }

  lemma ConfigLineOf(p: seq<seq<byte>>, c: Config)
    requires |p| == 13
    requires forall i :: 0 <= i < 13 && i != 5 && i != 6 && i != 12 ==>
      ParseASCIIDecimal(p[i]) == ConfigValues(c)[i]
    requires (p[5] == ['1' as byte]) == c.expModuleActive
    requires ParseMode(p[6]) == c.currentMode
    requires ParseCalculatorMode(p[12]) == c.calculatorMode
    ensures ConfigLine(p) == Some(CurrentConfig(c))
  {
    var v := ConfigValues(c);
    var d := ConfigLine(p).value.config;
    assert d.startFreqKHz == v[0] && d.freqStepHz == v[1] && d.ampTopDBm == v[2];
    assert d.ampBottomDBm == v[3] && d.sweepSteps == v[4] && d.minFreqKHz == v[7];
    assert d.maxFreqKHz == v[8] && d.maxSpan == v[9] && d.rbwKHz == v[10];
    assert d.ampOffset == v[11];
    assert d == c;
  }

  lemma ConfigFieldsParse(c: Config)
    requires Reportable(c)
    ensures ConfigLine(ConfigFields(c)) == Some(CurrentConfig(c))
  {
    var p := ConfigFields(c);
    forall i | 0 <= i < 13 && i != 5 && i != 6 && i != 12
      ensures ParseASCIIDecimal(p[i]) == ConfigValues(c)[i]
    {
      ConfigFieldParses(c, i);
    }
    FlagFieldParses(c);
    CodeFieldParses(c, 6);
    CodeFieldParses(c, 12);
    ConfigLineOf(p, c);
  }

  lemma ConfigFieldsClean(c: Config)
    ensures forall i :: 0 <= i < 13 ==> ',' as byte !in ConfigFields(c)[i]
  {
    forall i | 0 <= i < 13
      ensures ',' as byte !in ConfigFields(c)[i]
    {
      FormattedHasNoSeparator(ConfigValues(c)[i], ConfigWidths[i]);
    }
  }

  /** The line decoder recovers every field of the configuration from its report. */
  lemma DecodeConfigLine(c: Config)
    requires Reportable(c)
    ensures DecodeLine(ConfigReport(c)) == Some(CurrentConfig(c))
  {
    var p := ConfigFields(c);
    var line := ConfigReport(c);
    JoinLength(p, ',' as byte);
    assert line[6..] == Join(p, ',' as byte);
    ConfigLineDecodes(line);
    ConfigFieldsClean(c);
    SplitJoin(p, ',' as byte);
    ConfigFieldsParse(c);
  }

  /** A "#C2-F:" line is decoded by the fields after the colon. */
  lemma ConfigLineDecodes(line: seq<byte>)
    requires |line| > 6 && line[..6] == Ascii("#C2-F:")
    ensures DecodeLine(line) == ConfigLine(Split(line[6..], ',' as byte))
  {
    assert line[0] == '#' as byte && line[1] == 'C' as byte && line[2] == '2' as byte;
    assert line[3] == '-' as byte && line[4] == 'F' as byte && line[5] == ':' as byte;
  }

  // ---------------------------------------------------------------------
  // The setup and sniffer reports

  /** The three fields of a "#C2-M:" report: the main and the expansion model code, three
      digits each, then the firmware version. */
  function SetupFields(model: int, expansionModel: int, firmware: seq<byte>): (p: seq<seq<byte>>)
    ensures |p| == 3
  {
    [FormatPadded(model, 3), FormatPadded(expansionModel, 3), firmware]
  }

  function SetupReport(model: int, expansionModel: int, firmware: seq<byte>): seq<byte>
  {
    Ascii("#C2-M:") + Join(SetupFields(model, expansionModel, firmware), ',' as byte)
  }

  /** A "#C2-M:" line is decoded by the fields after the colon. */
  lemma SetupLineDecodes(line: seq<byte>)
    requires |line| > 6 && line[..6] == Ascii("#C2-M:")
    ensures DecodeLine(line) == Some(SetupLine(Split(line[6..], ',' as byte)))
  {
    assert line[0] == '#' as byte && line[1] == 'C' as byte && line[2] == '2' as byte;
    assert line[3] == '-' as byte && line[4] == 'M' as byte && line[5] == ':' as byte;
  }

  /** The fields of a setup report read back as the models sent and the firmware
      version without its leading zeros. */
  lemma SetupFieldsParse(model: int, expansionModel: int, firmware: seq<byte>)
    requires 0 <= model <= MaxInt64 && 0 <= expansionModel <= MaxInt64
    ensures SetupLine(SetupFields(model, expansionModel, firmware))
      == CurrentSetup(model, expansionModel, TrimLeftZeros(firmware))
  {
    ParseCodeFormatted(model, 3, ModelNone);
    ParseCodeFormatted(expansionModel, 3, ModelNone);
  }

  /** The line decoder recovers a setup report's fields. */
  lemma DecodeSetupLine(model: int, expansionModel: int, firmware: seq<byte>)
    requires 0 <= model <= MaxInt64 && 0 <= expansionModel <= MaxInt64
    requires ',' as byte !in firmware
    ensures DecodeLine(SetupReport(model, expansionModel, firmware))
      == Some(CurrentSetup(model, expansionModel, TrimLeftZeros(firmware)))
  {
    var p := SetupFields(model, expansionModel, firmware);
    var line := SetupReport(model, expansionModel, firmware);
    FormattedHasNoSeparator(model, 3);
    FormattedHasNoSeparator(expansionModel, 3);
    SplitJoin(p, ',' as byte);
    JoinLength(p, ',' as byte);
    assert line[6..] == Join(p, ',' as byte);
    SetupLineDecodes(line);
    SetupFieldsParse(model, expansionModel, firmware);
  }

  /** The setup report round trip: both model codes come back as sent, the firmware
      version comes back without its leading zeros, and the line is removed with its
      CR LF. */
  lemma DecodeSetupReport(model: int, expansionModel: int, firmware: seq<byte>, t: seq<byte>)
    requires 0 <= model <= MaxInt64 && 0 <= expansionModel <= MaxInt64
    requires ',' as byte !in firmware && CR !in firmware
    ensures var line := SetupReport(model, expansionModel, firmware);
      DecodeStep(line + CRLF + t) ==
        Emit(CurrentSetup(model, expansionModel, TrimLeftZeros(firmware)), |line| + 2)
  {
    var line := SetupReport(model, expansionModel, firmware);
    SetupReportHasNoCR(model, expansionModel, firmware);
    DecodeSetupLine(model, expansionModel, firmware);
    DecodeTextLine(line, t);
  }

  /** A header free of CR followed by CR-free fields holds no CR. */
  lemma HeadedHasNoCR(head: seq<byte>, parts: seq<seq<byte>>)
    requires CR !in head && |parts| >= 1
    requires forall i :: 0 <= i < |parts| ==> CR !in parts[i]
    ensures CR !in head + Join(parts, ',' as byte)
  {
    JoinExcludes(parts, ',' as byte, CR);
    var j := Join(parts, ',' as byte);
    forall i | 0 <= i < |head + j|
      ensures (head + j)[i] != CR
    {
      if i < |head| {
        assert (head + j)[i] == head[i];
      } else {
        assert (head + j)[i] == j[i - |head|];
      }
    }
  }

  lemma ConfigReportHasNoCR(c: Config)
    ensures CR !in ConfigReport(c)
  {
    var h := Ascii("#C2-F:");
    assert h == ['#' as byte, 'C' as byte, '2' as byte, '-' as byte, 'F' as byte, ':' as byte];
    var p := ConfigFields(c);
    forall i | 0 <= i < 13
      ensures CR !in p[i]
    {
      FormattedHasNoSeparator(ConfigValues(c)[i], ConfigWidths[i]);
    }
    HeadedHasNoCR(h, p);
  }

  /** The configuration report round trip: every field of the configuration comes back
      as printed, and the line is removed with its CR LF. */
  lemma DecodeConfigReport(c: Config, t: seq<byte>)
    requires Reportable(c)
    ensures DecodeStep(ConfigReport(c) + CRLF + t) ==
      Emit(CurrentConfig(c), |ConfigReport(c)| + 2)
  {
    ConfigReportHasNoCR(c);
    DecodeConfigLine(c);
    DecodeTextLine(ConfigReport(c), t);
  }

  lemma SetupReportHasNoCR(model: int, expansionModel: int, firmware: seq<byte>)
    requires CR !in firmware
    ensures CR !in SetupReport(model, expansionModel, firmware)
  {
    var h := Ascii("#C2-M:");
    assert h == ['#' as byte, 'C' as byte, '2' as byte, '-' as byte, 'M' as byte, ':' as byte];
    var p := SetupFields(model, expansionModel, firmware);
    FormattedHasNoSeparator(model, 3);
    FormattedHasNoSeparator(expansionModel, 3);
    HeadedHasNoCR(h, p);
  }

  /** The seven fields of a "#C4-F:" report: start frequency, expansion-module flag, mode,
      delay, modulation, RBW, and the threshold magnitude n (the threshold is -n/2 dBm). */
  function SnifferFields(startFreqKHz: int, expModuleActive: bool, mode: int, delay: int,
                         modulation: int, rbwKHz: int, threshold: int): (p: seq<seq<byte>>)
    ensures |p| == 7
  {
    [FormatPadded(startFreqKHz, 7), FormatPadded(if expModuleActive then 1 else 0, 1),
     FormatPadded(mode, 3), FormatPadded(delay, 5), FormatPadded(modulation, 1),
     FormatPadded(rbwKHz, 5), FormatPadded(threshold, 3)]
  }

  function SnifferReport(startFreqKHz: int, expModuleActive: bool, mode: int, delay: int,
                         modulation: int, rbwKHz: int, threshold: int): seq<byte>
  {
    Ascii("#C4-F:") + Join(SnifferFields(startFreqKHz, expModuleActive, mode, delay,
                                         modulation, rbwKHz, threshold), ',' as byte)
  }

  /** A "#C4-F:" line is decoded by the fields after the colon. */
  lemma SnifferLineDecodes(line: seq<byte>)
    requires |line| > 6 && line[..6] == Ascii("#C4-F:")
    ensures DecodeLine(line) == SnifferLine(Split(line[6..], ',' as byte))
  {
    assert line[0] == '#' as byte && line[1] == 'C' as byte && line[2] == '4' as byte;
    assert line[3] == '-' as byte && line[4] == 'F' as byte && line[5] == ':' as byte;
  }

  /** The modulation field is read by Atoi without stripping zeros; a value printed
      without padding reads back as itself, negative or not. */
  lemma ModulationFieldParses(modulation: int)
    requires MinInt64 <= modulation <= MaxInt64
    ensures ParseModulation(FormatPadded(modulation, 1)) == modulation
  {
    if modulation < 0 {
      var d := Digits(-modulation);
      assert FormatPadded(modulation, 1) == ['-' as byte] + Zeros(0) + d;
      AtoiNegative(0, -modulation);
    } else {
      assert FormatPadded(modulation, 1) == Digits(modulation);
      AtoiDigits(modulation);
    }
  }

  /** The expansion-module flag is printed as "1" or "0" and read as being "1". */
  lemma SnifferFlagParses(expModuleActive: bool)
    ensures (FormatPadded(if expModuleActive then 1 else 0, 1) == ['1' as byte]) == expModuleActive
  {
    var f := FormatPadded(if expModuleActive then 1 else 0, 1);
    if expModuleActive {
      assert f == Zeros(0) + Digits(1);
    } else {
      assert f == Zeros(0) + Digits(0);
      assert f[0] != ['1' as byte][0];
    }
  }

  /** Every field of a sniffer report is free of commas and CR. */
  lemma SnifferFieldsClean(startFreqKHz: int, expModuleActive: bool, mode: int, delay: int,
                           modulation: int, rbwKHz: int, threshold: int)
    ensures var p := SnifferFields(startFreqKHz, expModuleActive, mode, delay, modulation,
                                   rbwKHz, threshold);
      forall i :: 0 <= i < 7 ==> ',' as byte !in p[i] && CR !in p[i]
  {
    FormattedHasNoSeparator(startFreqKHz, 7);
    FormattedHasNoSeparator(if expModuleActive then 1 else 0, 1);
    FormattedHasNoSeparator(mode, 3);
    FormattedHasNoSeparator(delay, 5);
    FormattedHasNoSeparator(modulation, 1);
    FormattedHasNoSeparator(rbwKHz, 5);
    FormattedHasNoSeparator(threshold, 3);
  }

  /** Seven fields that parse to the given values decode to the sniffer configuration of
      those values. */
  lemma SnifferLineOf(start: seq<byte>, flag: seq<byte>, modeField: seq<byte>, delayField: seq<byte>,
                      modulationField: seq<byte>, rbwField: seq<byte>, thresholdField: seq<byte>,
                      startFreqKHz: int, expModuleActive: bool, mode: int, delay: int,
                      modulation: int, rbwKHz: int, threshold: int)
    requires ParseASCIIDecimal(start) == startFreqKHz && (flag == ['1' as byte]) == expModuleActive
    requires ParseMode(modeField) == mode && ParseASCIIDecimal(delayField) == delay
    requires ParseModulation(modulationField) == modulation && ParseASCIIDecimal(rbwField) == rbwKHz
    requires ParseASCIIDecimal(thresholdField) == threshold
    ensures SnifferLine([start, flag, modeField, delayField, modulationField, rbwField, thresholdField])
      == Some(CurrentSnifferConfig(startFreqKHz, expModuleActive, mode, delay,
                                   modulation, rbwKHz, -0.5 * (threshold as real)))
  {
    var p := [start, flag, modeField, delayField, modulationField, rbwField, thresholdField];
    assert p[0] == start && p[1] == flag && p[2] == modeField && p[3] == delayField;
    assert p[4] == modulationField && p[5] == rbwField && p[6] == thresholdField;
    var r := SnifferLine(p).value;
    assert r.CurrentSnifferConfig?;
    assert r.startFreqKHz == startFreqKHz && r.expModuleActive == expModuleActive;
    assert r.currentMode == mode && r.delay == delay && r.modulation == modulation;
    assert r.rbwKHz == rbwKHz && r.thresholdDBm == -0.5 * (threshold as real);
    assert r == CurrentSnifferConfig(startFreqKHz, expModuleActive, mode, delay, modulation,
                                     rbwKHz, -0.5 * (threshold as real));
  }

  /** The fields of a sniffer report read back as the values sent, the threshold as
      -n/2 dBm. */
  lemma SnifferFieldsParse(startFreqKHz: int, expModuleActive: bool, mode: int, delay: int,
                           modulation: int, rbwKHz: int, threshold: int)
    requires MinInt64 <= startFreqKHz <= MaxInt64 && MinInt64 <= delay <= MaxInt64
    requires MinInt64 <= modulation <= MaxInt64 && MinInt64 <= rbwKHz <= MaxInt64
    requires MinInt64 <= threshold <= MaxInt64 && 0 <= mode <= MaxInt64
    ensures SnifferLine(SnifferFields(startFreqKHz, expModuleActive, mode, delay, modulation,
                                      rbwKHz, threshold))
      == Some(CurrentSnifferConfig(startFreqKHz, expModuleActive, mode, delay, modulation,
                                   rbwKHz, -0.5 * (threshold as real)))
  {
    ParseFormatted(startFreqKHz, 7);
    SnifferFlagParses(expModuleActive);
    ModeFieldParses(mode);
    ParseFormatted(delay, 5);
    ModulationFieldParses(modulation);
    ParseFormatted(rbwKHz, 5);
    ParseFormatted(threshold, 3);
    SnifferLineOf(FormatPadded(startFreqKHz, 7), FormatPadded(if expModuleActive then 1 else 0, 1),
                  FormatPadded(mode, 3), FormatPadded(delay, 5), FormatPadded(modulation, 1),
                  FormatPadded(rbwKHz, 5), FormatPadded(threshold, 3),
                  startFreqKHz, expModuleActive, mode, delay, modulation, rbwKHz, threshold);
  }

  /** The mode field is a three-digit code and reads back as the mode. */
  lemma ModeFieldParses(mode: int)
    requires 0 <= mode <= MaxInt64
    ensures ParseMode(FormatPadded(mode, 3)) == mode
  {
    ParseCodeFormatted(mode, 3, Invalid);
  }

  /** The line decoder recovers a sniffer report's fields. */
  lemma DecodeSnifferLine(startFreqKHz: int, expModuleActive: bool, mode: int, delay: int,
                          modulation: int, rbwKHz: int, threshold: int)
    requires MinInt64 <= startFreqKHz <= MaxInt64 && MinInt64 <= delay <= MaxInt64
    requires MinInt64 <= modulation <= MaxInt64 && MinInt64 <= rbwKHz <= MaxInt64
    requires MinInt64 <= threshold <= MaxInt64 && 0 <= mode <= MaxInt64
    ensures DecodeLine(SnifferReport(startFreqKHz, expModuleActive, mode, delay, modulation,
                                     rbwKHz, threshold))
      == Some(CurrentSnifferConfig(startFreqKHz, expModuleActive, mode, delay, modulation,
                                   rbwKHz, -0.5 * (threshold as real)))
  {
    var p := SnifferFields(startFreqKHz, expModuleActive, mode, delay, modulation, rbwKHz, threshold);
    var line := SnifferReport(startFreqKHz, expModuleActive, mode, delay, modulation, rbwKHz, threshold);
    SnifferFieldsClean(startFreqKHz, expModuleActive, mode, delay, modulation, rbwKHz, threshold);
    SplitJoin(p, ',' as byte);
    JoinLength(p, ',' as byte);
    assert line[6..] == Join(p, ',' as byte);
    SnifferLineDecodes(line);
    SnifferFieldsParse(startFreqKHz, expModuleActive, mode, delay, modulation, rbwKHz, threshold);
  }

  lemma SnifferReportHasNoCR(startFreqKHz: int, expModuleActive: bool, mode: int, delay: int,
                             modulation: int, rbwKHz: int, threshold: int)
    ensures CR !in SnifferReport(startFreqKHz, expModuleActive, mode, delay, modulation,
                                 rbwKHz, threshold)
  {
    var h := Ascii("#C4-F:");
    assert h == ['#' as byte, 'C' as byte, '4' as byte, '-' as byte, 'F' as byte, ':' as byte];
    SnifferFieldsClean(startFreqKHz, expModuleActive, mode, delay, modulation, rbwKHz, threshold);
    HeadedHasNoCR(h, SnifferFields(startFreqKHz, expModuleActive, mode, delay, modulation,
                                   rbwKHz, threshold));
  }

  /** The sniffer report round trip: every field comes back as sent, the threshold as
      -n/2 dBm, and the line is removed with its CR LF. */
  lemma DecodeSnifferReport(startFreqKHz: int, expModuleActive: bool, mode: int, delay: int,
                            modulation: int, rbwKHz: int, threshold: int, t: seq<byte>)
    requires MinInt64 <= startFreqKHz <= MaxInt64 && MinInt64 <= delay <= MaxInt64
    requires MinInt64 <= modulation <= MaxInt64 && MinInt64 <= rbwKHz <= MaxInt64
    requires MinInt64 <= threshold <= MaxInt64 && 0 <= mode <= MaxInt64
    ensures var line := SnifferReport(startFreqKHz, expModuleActive, mode, delay, modulation,
                                      rbwKHz, threshold);
      DecodeStep(line + CRLF + t) ==
        Emit(CurrentSnifferConfig(startFreqKHz, expModuleActive, mode, delay, modulation,
                                  rbwKHz, -0.5 * (threshold as real)), |line| + 2)
  {
    var line := SnifferReport(startFreqKHz, expModuleActive, mode, delay, modulation, rbwKHz, threshold);
    SnifferReportHasNoCR(startFreqKHz, expModuleActive, mode, delay, modulation, rbwKHz, threshold);
    DecodeSnifferLine(startFreqKHz, expModuleActive, mode, delay, modulation, rbwKHz, threshold);
    DecodeTextLine(line, t);
  }

  // ---------------------------------------------------------------------
  // Frames not yet complete

  /** Until the whole 0x404 bytes of a screen dump are buffered, the step waits. */
  lemma ScreenPrefixWaits(data: seq<byte>, t: seq<byte>, k: nat)
    requires |data| == ScreenBytes && k < ScreenFrameLength
    ensures DecodeStep((ScreenFrame(data) + t)[..k]) == Wait
  {
    var b := (ScreenFrame(data) + t)[..k];
    if k >= 3 {
      assert b[0] == '$' as byte && b[1] == 'D' as byte;
      assert DecodeScreen(b) == Halt;
    }
  }

  /** Until the payload and both trailing bytes of a "$R" frame are buffered, the step
      waits, whatever the length field says. */
  lemma RawPrefixWaits(data: seq<byte>, t: seq<byte>, k: nat)
    requires |data| < 0x1_0000 && k < |data| + 6
    ensures DecodeStep((RawFrame(data) + t)[..k]) == Wait
  {
    var b := (RawFrame(data) + t)[..k];
    var n := |data|;
    if k >= 4 {
      var f := RawFrame(data);
      assert f[2] == (n % 256) as byte && f[3] == (n / 256) as byte;
      assert b[0] == '$' as byte && b[1] == 'R' as byte && b[2] == f[2] && b[3] == f[3];
      assert b[2..4] == [(n % 256) as byte, (n / 256) as byte];
      assert Le16(b[2..4]) == n;
      assert DecodeRaw(b) == Halt;
    } else if k == 3 {
      assert b[0] == '$' as byte && b[1] == 'R' as byte;
      assert DecodeRaw(b) == Halt;
    }
  }

  /** Until the samples and the CR LF after them are buffered, the step waits, even when
      a CR LF among the samples has already arrived. */
  lemma SweepPrefixWaits(bs: seq<byte>, t: seq<byte>, k: nat)
    requires |bs| < 256 && k < |bs| + 5
    ensures DecodeStep((SweepFrame(bs) + t)[..k]) == Wait
  {
    var b := (SweepFrame(bs) + t)[..k];
    if k >= 3 {
      assert b[0] == '$' as byte && b[1] == 'S' as byte && b[2] as int == |bs|;
      assert !IsEOLAt(b, 0) && !IsEOLAt(b, 1);
      var eol := FindEOL(b);
      assert DecodeSweep(b, eol) == Halt;
    }
  }

  /** Until the CR LF of a line is buffered, the step waits; this holds for '#' lines and
      for the lines that become Unhandled alike. */
  lemma LinePrefixWaits(line: seq<byte>, t: seq<byte>, k: nat)
    requires |line| >= 1 && line[0] != '$' as byte && CR !in line && k < |line| + 2
    ensures DecodeStep((line + CRLF + t)[..k]) == Wait
  {
    var b := (line + CRLF + t)[..k];
    if k >= 3 {
      forall j | 0 <= j < |b|
        ensures !IsEOLAt(b, j)
      {
        if j < |line| {
          assert b[j] == line[j];
        }
      }
      assert FindEOL(b) == -1;
      assert b[0] == line[0];
    }
  }
}
