# RF Explorer protocol engine, in Dafny

This project models the protocol engine of `rfx/protocol.go`, the Go driver for the RF Explorer
spectrum analyser, and proves properties of that model. The engine has two halves:

- **Outbound.** The command encoder wraps every command as `'#'`, a length byte and the
  payload. It also provides:
  - the fixed commands;
  - the baud-rate, sweep-point, LCD, screen-dump and generator commands;
  - the analyser configuration command, which range-checks, clamps, recomputes the RBW and
    formats fixed-width decimals;
  - the 36-byte binary preset write of `UpdatePreset`.
- **Inbound.** `readLoop` keeps an 8192-byte receive buffer and a fill offset. Its decode loop
  takes one frame at a time off the front of the buffer and compacts the buffer in place. The
  frames are:
  - `$D` screen dumps, `$R` raw sniffer data, `$S` sweeps and `$P` preset records;
  - `#`-lines: configuration, setup, sniffer configuration, calibration, serial number and
    end of presets;
  - anything else ending in CR LF, which becomes an Unhandled packet.

  The driver also keeps a one-slot end-of-presets acknowledgment and picks the first
  configuration packet during `New`.

Modules:

- `Wire` (`wire.dfy`): bytes, Go's conversions and truncating division, little-endian fields,
  and zero-padded decimal formatting.
- `Parsing` (`parsing.dfy`): `strings.Split` and `strings.TrimLeft`, `strconv.Atoi` (with its
  int64 range clamping), and `parseASCIIDecimal`, `parseModel`, `parseMode`,
  `parseCalculatorMode` and `parseModulation`. Each formatted number is proved to read back
  as itself.
- `Packets` (`packets.dfy`): the closed set of packets, the preset record, and
  `ScreenImage.AtGray` against a reference packing of a 128x64 bitmap.
- `Decoding` (`decoding.dfy`): one pass of the decode loop as a pure function `DecodeStep` on
  the buffered bytes, and the loop run to completion (`DecodeAll`). It proves that:
  - a decision to emit a packet is never revised by later bytes;
  - however the stream is cut into reads, the packets are those of the whole stream.
- `Frames` (`frames.dfy`): the frames the instrument sends, built from their contents. Each
  is proved to decode back to its packet, and every proper prefix of a `$D`, `$R` or `$S` frame
  or of a line is proved to be waited for. The configuration, setup and sniffer reports are proved field by
  field.
- `AsWritten` (`aswritten.dfy`): one pass of the decode loop exactly as the Go code writes
  it, on the whole receive buffer. It is proved to agree with `DecodeStep` wherever
  `DecodeStep` emits, or else to panic on a short `#` line, and it carries the concrete inputs on which the two differ (see
  Findings).
- `Commands` (`commands.dfy`): every command's bytes as functions, with their inverses
  (decoders of the frame, the sweep-point codes, the analyser text and the preset frame) and
  the round trips.
- `StreamDecoder` (`decoder.dfy`): class `Decoder`, the receive buffer as an `array` with
  the offset. Its methods do the read's append, the decode loop and the in-place
  compaction, and are proved equal to `DecodeAll`.
- `Explorer` (`explorer.dfy`): class `RFExplorer`. It holds:
  - the 256-byte write buffer;
  - a ghost log of the frames written to the port;
  - the acknowledgment slot, the stored configuration and the packets delivered.

  Every command method states the exact frames it writes, and that it writes none when it
  fails. `ReadOnce` is one iteration of `readLoop`. `Setup` is `New`'s wait for the first
  configuration.

Three behaviours of the code are easy to misread; the model keeps each of them:
- The screen dump `$D` waits for and removes 0x404 = 1028 bytes: two header bytes, 1024
  bitmap bytes and two trailing bytes.
- The driver stores the configuration only in `New` (rfx/protocol.go:461). Configuration
  lines that arrive later are delivered as packets but do not replace the stored one.
- The RBW of `SetAnalyzerConfig` is Go's truncating division of `span + d/2` by `d`. For a
  negative span this is not the nearest integer to span / d.

## Model

| member | source | states |
|---|---|---|
| Wire.GoByte | rfx/protocol.go:734 | `byte(x)` keeps x modulo 256 and is the identity on 0..255 |
| Wire.GoUint32 | rfx/protocol.go:551-552 | `uint32(x)` lies in [0, 2^32) and is congruent to x modulo 2^32 |
| Wire.Int8 | rfx/protocol.go:864-865 | `int(int8(b))` lies in [-128, 128) and converts back to the same byte |
| Wire.Int8RoundTrip | rfx/protocol.go:554-555 | an amplitude in [-128, 128) written as `byte(int8(a))` reads back as a |
| Wire.Le16 | rfx/protocol.go:809 | the 16-bit little-endian length lies in [0, 65536) |
| Wire.Le32 | rfx/protocol.go:861-862 | a 32-bit little-endian field lies in [0, 2^32) |
| Wire.PutLe32 | rfx/protocol.go:551-552 | `PutUint32(uint32(x))` gives four bytes that read back as `uint32(x)` |
| Wire.TruncDiv | rfx/protocol.go:696 | Go's `/` truncates toward zero: the remainder a - q*d has the sign of a and is smaller than d in magnitude |
| Wire.Clamp | rfx/protocol.go:655-660 | the result lies in [lo, hi], equals x inside it and the nearer bound outside it |
| Wire.Digits | rfx/protocol.go:711 | decimal digits of n, with no leading zero for n > 0 |
| Wire.Zeros | rfx/protocol.go:711 | k '0' characters of padding |
| Wire.DigitChar | rfx/protocol.go:607-623 | the digit character of d reads back as d |
| Wire.DigitsLength | rfx/protocol.go:711 | a number below 10^k has at most k digits |
| Wire.FormatPadded | rfx/protocol.go:711 | `%0wd` is at least w characters, starts with '-' exactly for a negative number, and is all digits after the sign |
| Wire.FormatPaddedWidth | rfx/protocol.go:711 | `%0wd` of a number that fits is exactly w characters long |
| Parsing.JoinLength | rfx/protocol.go:894 | joined fields are as long as the fields plus one separator between each two |
| Parsing.Split | rfx/protocol.go:894 | `strings.Split` yields at least one field, no field holds the separator, and joining them gives back the string |
| Parsing.JoinExcludes | rfx/protocol.go:894 | a byte that is neither the separator nor in any field is not in the joined string |
| Parsing.SplitField | rfx/protocol.go:894 | a leading field without separator splits off as the first element |
| Parsing.SplitWhole | rfx/protocol.go:894 | a string without separator splits into itself alone |
| Parsing.SplitJoin | rfx/protocol.go:894 | splitting joined separator-free fields gives back exactly those fields |
| Parsing.TrimLeftZeros | rfx/protocol.go:250 | `strings.TrimLeft(s, "0")` is the suffix after the leading '0's and starts with no '0' |
| Parsing.TrimZerosPrefix | rfx/protocol.go:250 | trimming padding zeros in front of a number's digits leaves the digits |
| Parsing.ScanDigits | rfx/protocol.go:250 | an accepted digit run holds only digits and its value stays within uint64 |
| Parsing.Atoi | rfx/protocol.go:250 | `strconv.Atoi`: the value is within int64; success means sign and digits; out-of-range saturates; "" fails with 0 |
| Parsing.ScanDigitsAppend | rfx/protocol.go:250 | scanning a concatenation scans the first part, then continues from its value |
| Parsing.ScanZeros | rfx/protocol.go:250 | a run of zeros scans to 0 |
| Parsing.ScanDigitsOf | rfx/protocol.go:250 | the digits of n scan back to n |
| Parsing.AtoiDigits | rfx/protocol.go:250 | Atoi of the digits of an int64 n succeeds with n |
| Parsing.AtoiNegative | rfx/protocol.go:250 | Atoi of '-', zeros and the digits of m succeeds with -m |
| Parsing.ScanDigitsOfAny | rfx/protocol.go:250 | the digits of any n scan to n when it fits in uint64 and to a range error beyond |
| Parsing.AtoiSaturates | rfx/protocol.go:250 | Atoi of a decimal above the int64 maximum fails with the int64 maximum |
| Parsing.AtoiSaturatesNegative | rfx/protocol.go:250 | Atoi of '-' and a decimal below the int64 minimum fails with the int64 minimum |
| Parsing.ParseASCIIDecimal | rfx/protocol.go:246-252 | "" and all-zero strings give 0, a non-numeric start gives 0, the result is within int64 |
| Parsing.ParseASCIIDecimalSaturates | rfx/protocol.go:246-252 | a decimal beyond int64 reads as the nearer int64 bound, for either sign |
| Parsing.ParseFormatted | rfx/protocol.go:246-252 | every int64 formatted with `%0wd` parses back to itself |
| Parsing.ParseFormattedPositive | rfx/protocol.go:246-252 | the positive case of ParseFormatted |
| Parsing.ParseFormattedNegative | rfx/protocol.go:246-252 | the negative case of ParseFormatted: '-' and zero padding before the digits |
| Parsing.ParseCode | rfx/protocol.go:362-405 | "" gives the type's empty code, all zeros give 0, a non-numeric start gives -1, Atoi's value when Atoi of the trimmed string succeeds, otherwise -1 |
| Parsing.ParseModel | rfx/protocol.go:362-375 | "" gives 255 (ModelNone), an all-zero string 0, a non-numeric start -1 (ModelInvalid) |
| Parsing.ParseMode | rfx/protocol.go:377-390 | "" and a non-numeric start give -1 (ModeInvalid), an all-zero string 0 |
| Parsing.ParseCalculatorMode | rfx/protocol.go:392-405 | "" and a non-numeric start give -1 (CalculatorModeInvalid), an all-zero string 0 |
| Parsing.ParseModulation | rfx/protocol.go:86-89 | Atoi's value when Atoi succeeds, always within int64 |
| Parsing.ParseCodeFormatted | rfx/protocol.go:362-405 | a zero-padded non-negative code parses back to itself |
| Parsing.FormattedHasNoSeparator | rfx/protocol.go:711 | a formatted number contains neither ',' nor CR |
| Packets.CutAtZero | rfx/protocol.go:854-857 | the name ends before the first zero byte: a zero-free prefix, followed by 0 when shorter |
| Packets.NameField | rfx/protocol.go:543-548 | the name zero-padded to twelve bytes |
| Packets.CutNameField | rfx/protocol.go:854-857 | a zero-free name of at most twelve bytes, padded and cut at zero, is the name again |
| Packets.Bit | rfx/protocol.go:225 | `(v >> k) & 1` is 0 or 1 |
| Packets.PixelIndex | rfx/protocol.go:225 | `(y/8)*128 + x` lies in [0, 1024) for every pixel of the 128x64 screen |
| Packets.AtGray | rfx/protocol.go:224-226 | every pixel is 0 or 255 |
| Packets.PackColumn | rfx/protocol.go:224-226 | eight rows packed least significant bit first fit in one byte |
| Packets.BitOfPackColumn | rfx/protocol.go:224-226 | bit k of a packed column is row k |
| Packets.PackScreen | rfx/protocol.go:224-226 | the packed bitmap is 1024 bytes |
| Packets.AtGrayOfPackScreen | rfx/protocol.go:224-226 | AtGray of a packed screen is 0 exactly at foreground pixels and 255 elsewhere |
| Decoding.FindEOLFrom | rfx/protocol.go:788 | the first CR LF at or after k, or -1 when there is none |
| Decoding.FindEOL | rfx/protocol.go:788 | `bytes.Index(buf[:off], CRLF)`: the first CR LF, or -1 when there is none |
| Decoding.FindEOLExtend | rfx/protocol.go:788 | bytes arriving later do not move a CR LF already found |
| Decoding.DecodeScreen | rfx/protocol.go:796-806 | `$D` never reaches the fallback and stays within the buffered bytes |
| Decoding.DecodeRaw | rfx/protocol.go:807-819 | `$R` never reaches the fallback and never removes more than is buffered |
| Decoding.Samples | rfx/protocol.go:839-845 | one sample per byte, each exactly -b/2 |
| Decoding.DecodeSweep | rfx/protocol.go:820-851 | `$S` stays within the buffered bytes |
| Decoding.PresetFields | rfx/protocol.go:853-869 | index at 3, name cut at zero from 5..17, LE32 frequencies at 19 and 23, int8 amplitudes at 28 and 29 |
| Decoding.DecodePreset | rfx/protocol.go:852-870 | `$P` never reaches the fallback and stays within the buffered bytes |
| Decoding.ConfigLine | rfx/protocol.go:888-911 | a `#C2-F:` line gives a CurrentConfig exactly when it has at least 13 fields |
| Decoding.SetupLine | rfx/protocol.go:912-928 | `#C2-M:` gives the model and expansion model parsed as model codes and the firmware version without leading zeros; a missing second or third field keeps Go's zero value |
| Decoding.SnifferLine | rfx/protocol.go:943-955 | `#C4-F:` gives a sniffer configuration exactly when it has at least 7 fields: start, delay and RBW as decimals, the flag as field 1 being "1", mode and modulation parsed as codes, threshold -0.5 times field 6 |
| Decoding.DecodeLine | rfx/protocol.go:872-981 | a line decodes to EndOfPresets exactly when it starts with `#PCK` |
| Decoding.Dispatch | rfx/protocol.go:792-982 | every branch outcome stays within the buffered bytes |
| Decoding.DecodeStep | rfx/protocol.go:786-994 | a pass that emits removes at least one byte and no more than are buffered |
| Decoding.Run | rfx/protocol.go:786-995 | what a decode loop leaves is a suffix of its input |
| Decoding.DecodeAll | rfx/protocol.go:786-995 | what the decode loop leaves is a suffix of the buffered bytes |
| Decoding.DecodeStepExtend | rfx/protocol.go:786-994 | once a pass emits, bytes arriving later change neither its packet nor its length |
| Decoding.DecodeStepStable | rfx/protocol.go:786-994 | the pass is stable: emitted lengths lie in [1, \|b\|] and emitting is final |
| Decoding.RunAppend | rfx/protocol.go:786-995 | with a stable pass, decoding s + t is decoding s, then its rest followed by t |
| Decoding.DecodeAllAppend | rfx/protocol.go:781-995 | feeding the stream in two reads yields the same packets and rest as feeding it at once |
| Decoding.RunSettles | rfx/protocol.go:990-992 | a loop stops only where one more pass would wait |
| Decoding.DecodeAllSettles | rfx/protocol.go:990-992 | the decode loop stops only where one more pass would wait |
| Decoding.DecodeAllWait | rfx/protocol.go:990-992 | a buffer on which the pass waits yields no packet and stays whole |
| Decoding.DecodeAllEmit | rfx/protocol.go:993-995 | an emitting pass contributes its packet first, then the loop continues on the rest |
| Decoding.DecodeAllEmitAfter | rfx/protocol.go:993-995 | DecodeAllEmit with earlier packets in front, as the loop accumulates them |
| Decoding.DecodeChunksConcat | rfx/protocol.go:762-997 | decoding read by read, carrying the rest, equals decoding the concatenated stream |
| Frames.LineEnd | rfx/protocol.go:788 | the CR LF that ends a CR-free line is the first one |
| Frames.ScreenFrame | rfx/protocol.go:796-805 | a screen frame is 1028 bytes |
| Frames.DecodeScreenFrame | rfx/protocol.go:796-806 | a `$D` frame decodes to its bitmap and removes 1028 bytes |
| Frames.RawFrame | rfx/protocol.go:807-818 | a raw frame is its payload plus six bytes |
| Frames.DecodeRawFrame | rfx/protocol.go:807-819 | a `$R` frame decodes to its payload and removes n + 6 bytes |
| Frames.SweepFrame | rfx/protocol.go:820-851 | a sweep frame is its samples plus five bytes |
| Frames.DecodeSweepFrame | rfx/protocol.go:820-851 | a `$S` frame decodes to its samples as -b/2 dBm and is removed whole, even when the samples hold CR LF |
| Frames.PresetRecord | rfx/protocol.go:852-869 | a preset record is 33 bytes |
| Frames.PresetRecordFields | rfx/protocol.go:852-869 | the fixed-offset fields give back the preset the record was laid out from |
| Frames.DecodePresetRecord | rfx/protocol.go:852-870 | a record and CR LF decode to the preset, removing through the first CR LF |
| Frames.DecodeTextLine | rfx/protocol.go:872-981 | a recognised `#` line is emitted as its packet and removed with its CR LF |
| Frames.DecodeOtherLine | rfx/protocol.go:983-994 | any other CR-LF-terminated line reaches the caller as Unhandled with its bytes |
| Frames.DecodeSerialNumberLine | rfx/protocol.go:966-971 | `#Sn` and a serial number decode to that serial number |
| Frames.DecodeCalibrationLine | rfx/protocol.go:956-963 | `#CAL:` and two flags decode to those flags |
| Frames.ConfigValues | rfx/protocol.go:894-909 | the thirteen numbers of a configuration report |
| Frames.ConfigFields | rfx/protocol.go:894-909 | a configuration report has thirteen fields |
| Frames.ConfigFieldParses | rfx/protocol.go:896-907 | each numeric field of a report parses back to its number |
| Frames.CodeFieldParses | rfx/protocol.go:902-908 | the mode and calculator-mode fields parse back to their codes |
| Frames.FlagFieldParses | rfx/protocol.go:901 | the expansion flag is read as field 5 being "1" |
| Frames.ConfigLineOf | rfx/protocol.go:894-909 | fields that parse to a configuration's values decode to that configuration |
| Frames.ConfigFieldsParse | rfx/protocol.go:894-909 | the fields of a report decode to its configuration |
| Frames.ConfigFieldsClean | rfx/protocol.go:894 | no report field contains a comma |
| Frames.DecodeConfigLine | rfx/protocol.go:881-911 | a `#C2-F:` line decodes to exactly the configuration it was printed from |
| Frames.ConfigReportHasNoCR | rfx/protocol.go:788 | a configuration report holds no CR, so its own CR LF ends it |
| Frames.DecodeConfigReport | rfx/protocol.go:881-911 | a `#C2-F:` report and CR LF decode to exactly the configuration it was printed from, removing the line and CR LF |
| Frames.ConfigLineDecodes | rfx/protocol.go:881-894 | a `#C2-F:` line is decoded from the comma fields after the colon |
| Frames.SetupFields | rfx/protocol.go:915-927 | a setup report has three fields |
| Frames.SetupLineDecodes | rfx/protocol.go:912-915 | a `#C2-M:` line is decoded from the comma fields after the colon |
| Frames.SetupFieldsParse | rfx/protocol.go:915-927 | the fields read back as both model codes and the firmware version without leading zeros |
| Frames.DecodeSetupLine | rfx/protocol.go:912-928 | the line decoder recovers a setup report's fields |
| Frames.SetupReportHasNoCR | rfx/protocol.go:788 | a setup report with a CR-free firmware version holds no CR, so its own CR LF ends it |
| Frames.DecodeSetupReport | rfx/protocol.go:912-928 | a `#C2-M:` report and CR LF decode to its models and trimmed firmware version, removing the line and CR LF |
| Frames.SnifferFields | rfx/protocol.go:944-953 | a sniffer report has seven fields |
| Frames.SnifferLineDecodes | rfx/protocol.go:943-944 | a `#C4-F:` line is decoded from the comma fields after the colon |
| Frames.ModulationFieldParses | rfx/protocol.go:950 | a modulation printed as a number reads back as itself, negative or not |
| Frames.SnifferFlagParses | rfx/protocol.go:947 | the expansion flag printed as 1 or 0 reads back as the flag |
| Frames.SnifferFieldsClean | rfx/protocol.go:944 | no sniffer field contains a comma or CR |
| Frames.SnifferLineOf | rfx/protocol.go:944-953 | seven fields that parse to given values decode to the sniffer configuration of those values |
| Frames.ModeFieldParses | rfx/protocol.go:948 | a three-digit mode field reads back as the mode |
| Frames.SnifferReportHasNoCR | rfx/protocol.go:788 | a sniffer report holds no CR, so its own CR LF ends it |
| Frames.SnifferFieldsParse | rfx/protocol.go:944-953 | the fields read back as the values printed, the threshold as -n/2 dBm |
| Frames.DecodeSnifferLine | rfx/protocol.go:943-955 | the line decoder recovers a sniffer report's fields |
| Frames.DecodeSnifferReport | rfx/protocol.go:943-955 | a `#C4-F:` report and CR LF decode to its configuration, removing the line and CR LF |
| Frames.ScreenPrefixWaits | rfx/protocol.go:796-799 | the pass waits on every prefix of a screen frame shorter than 1028 bytes |
| Frames.RawPrefixWaits | rfx/protocol.go:807-819 | the pass waits on every prefix of a raw frame shorter than the payload plus six bytes |
| Frames.SweepPrefixWaits | rfx/protocol.go:820-851 | the pass waits on every proper prefix of a sweep frame, even after a CR LF inside the samples |
| Frames.LinePrefixWaits | rfx/protocol.go:872-875 | the pass waits on every prefix of a line that stops before its CR LF is complete |
| AsWritten.StepAsWritten | rfx/protocol.go:786-994 | only the `#` branch panics, an emitting pass removes at least one byte, and any other lead byte emits exactly when a CR LF is buffered |
| AsWritten.FrameAsWritten | rfx/protocol.go:793-870 | `$` frames never panic and remove at least one byte when they emit; `$P` always emits, removing eolIdx + 2 bytes |
| AsWritten.LineAsWritten | rfx/protocol.go:872-989 | a `#` line the code emits removes eolIdx + 2 bytes |
| AsWritten.Fallback | rfx/protocol.go:983-992 | the code emits Unhandled exactly when a CR LF is buffered |
| AsWritten.CorrectedAgrees | rfx/protocol.go:786-994 | wherever the corrected pass emits, the code emits the same packet and length, or panics on a short `#` line |
| AsWritten.FrameAgrees | rfx/protocol.go:793-870 | on `$` frames the code agrees with every emission of the corrected pass |
| AsWritten.PresetFieldsPrefix | rfx/protocol.go:853-869 | the preset fields depend only on the first 33 bytes |
| AsWritten.LineAgrees | rfx/protocol.go:872-989 | on `#` lines the code agrees with every emission of the corrected pass, or panics |
| AsWritten.RawOverconsumes | rfx/protocol.go:809-818 | `$R` with length 0 and four bytes buffered: the code removes six bytes |
| AsWritten.SweepShortDropped | rfx/protocol.go:825-829 | a sweep cut after a CR LF inside its samples is dropped as Unhandled |
| AsWritten.SweepOverconsumes | rfx/protocol.go:831-838 | `$S`, count 1, CR LF: the code removes six of five bytes |
| AsWritten.PresetReadsStaleBytes | rfx/protocol.go:852-870 | a three-byte `$P` yields a preset from stale buffer bytes |
| AsWritten.BareHashPanics | rfx/protocol.go:876-880 | "#" CR LF indexes past the line |
| AsWritten.ShortSerialPanics | rfx/protocol.go:966-968 | "#S" CR LF indexes past the line |
| AsWritten.ShortConfigPanics | rfx/protocol.go:894-908 | a one-field `#C2-F:` line indexes past the fields |
| AsWritten.ShortSnifferPanics | rfx/protocol.go:944-952 | a `#C4-F:` line with one one-byte field, whatever the byte, panics as written, while the corrected step emits it as Unhandled |
| Commands.EncodeCommand | rfx/protocol.go:726-737 | over 253 bytes fails with the length; otherwise '#', the total length as a byte, then the payload |
| Commands.DecodeCommand | rfx/protocol.go:733-736 | a well-formed frame yields the payload after its two header bytes |
| Commands.DecodeEncodeCommand | rfx/protocol.go:726-737 | decoding an encoded command gives the command back |
| Commands.EncodeDecodeCommand | rfx/protocol.go:726-737 | re-encoding a decoded frame gives the frame back |
| Commands.LcdFrame | rfx/protocol.go:484-495 | the hand-built LCD frame is four bytes |
| Commands.LcdFrameIsCommand | rfx/protocol.go:484-495 | the hand-built LCD frame is the frame SendCommand would build for "L1"/"L0" |
| Commands.BaudRateCommand | rfx/protocol.go:604-626 | fails with the rate exactly when it is not one of the nine rates |
| Commands.BaudRateCode | rfx/protocol.go:604-626 | the i-th rate is sent as "c" and digit i |
| Commands.BaudRateCommandInjective | rfx/protocol.go:604-626 | distinct accepted rates send distinct commands |
| Commands.SweepPointsCommand | rfx/protocol.go:654-662 | "CJ" and one code byte |
| Commands.SweepPointsRoundTrip | rfx/protocol.go:654-662 | the code c decodes to 16 + 16c, with 16 + 16c <= n < 32 + 16c for the clamped n, exact for multiples of 16 |
| Commands.SweepPointsExCommand | rfx/protocol.go:665-673 | "Cj" and two bytes |
| Commands.SweepPointsExRoundTrip | rfx/protocol.go:665-673 | the two bytes are the clamped count big-endian mod 2^16: exact up to 65535, 65536 encodes as 0 |
| Commands.ClampAmpTop | rfx/protocol.go:684-689 | the top amplitude lies in [-120, 0] and is unchanged when inside |
| Commands.ClampAmpBottom | rfx/protocol.go:690-692 | the bottom amplitude is kept exactly when it is -120 or in [-120, top); otherwise it becomes -120 |
| Commands.SweepStepsFor | rfx/protocol.go:696-702 | the step count lies in [112, 65535] |
| Commands.EffectiveRbw | rfx/protocol.go:695-708 | an RBW field appears only for a requested rbw in [3, 670] and a result in [3, 620) |
| Commands.EffectiveRbwRounds | rfx/protocol.go:696-704 | the RBW sent is the rounded quotient of span by steps: r*steps <= span + steps/2 < (r+1)*steps, with a positive span |
| Commands.EffectiveRbwPresent | rfx/protocol.go:695-708 | conversely, a rounded quotient in [3, 620) is sent |
| Commands.RoundedQuotient | rfx/protocol.go:703 | a truncated quotient of at least 3 brackets its dividend |
| Commands.QuotientUnique | rfx/protocol.go:703 | a bracketing quotient is the truncated quotient |
| Commands.Settle | rfx/protocol.go:684-708 | after clamping, -120 <= bottom <= top <= 0 |
| Commands.AnalyzerFields | rfx/protocol.go:711 | four fields, five with an RBW |
| Commands.AnalyzerConfigCommand | rfx/protocol.go:676-711 | fails exactly when start or end is outside [0, 9999999] |
| Commands.SettingsOfFields | rfx/protocol.go:711 | four or five fields read back as settings |
| Commands.AnalyzerText | rfx/protocol.go:711 | the text is "C2-F:" followed by exactly the formatted fields, comma-separated |
| Commands.AnalyzerFieldsClean | rfx/protocol.go:711 | no field contains a comma |
| Commands.SettingsOfAnalyzerFields | rfx/protocol.go:711 | settled fields parse back to the settings they were formatted from |
| Commands.AnalyzerConfigRoundTrip | rfx/protocol.go:676-711 | the command parses back to the clamped and recomputed settings |
| Commands.AnalyzerFieldWidths | rfx/protocol.go:711 | the fields are 7, 7, 4 and 4 characters, and 5 for the RBW |
| Commands.AnalyzerConfigLength | rfx/protocol.go:676-711 | the command is 30 characters, 36 with an RBW, within the 253-byte limit |
| Commands.TruncatedName | rfx/protocol.go:543-546 | the name is cut to its first twelve bytes |
| Commands.PresetFrame | rfx/protocol.go:533-564 | the preset write is 36 bytes |
| Commands.PresetHeader | rfx/protocol.go:534-542 | '#', 0x24, 'C', 'P', 1, index: six bytes |
| Commands.PresetTrailer | rfx/protocol.go:553-564 | calculator mode, amplitudes, iterations, mainboard, marker mode, 0x42, 0: eight bytes |
| Commands.PresetFrameParts | rfx/protocol.go:533-564 | header, padded name, two zero bytes, LE32 frequencies and trailer at their offsets |
| Commands.PresetFrameIsCommand | rfx/protocol.go:533-536 | the preset write is a well-formed '#' frame whose length byte is 36 |
| Commands.PresetFrameRoundTrip | rfx/protocol.go:533-564 | every field of a representable preset is recovered from its write frame |
| Commands.PresetOfParts | rfx/protocol.go:533-564 | a frame with each part in place reads back as the preset |
| Commands.PresetFrameTruncatesName | rfx/protocol.go:543-547 | a longer name is sent as its first twelve bytes |
| StreamDecoder.Decoder.constructor | rfx/protocol.go:763-764 | an empty 8192-byte buffer |
| StreamDecoder.Decoder.Pending | rfx/protocol.go:790 | at most 8192 bytes are pending |
| StreamDecoder.Decoder.Reserve | rfx/protocol.go:766-769 | a buffer with fewer than two free bytes is emptied; the room left is at least 2 |
| StreamDecoder.Decoder.Compact | rfx/protocol.go:993-994 | `copy(buf, buf[k:]); off -= k` moves the bytes after k to the front |
| StreamDecoder.Decoder.Append | rfx/protocol.go:770-784 | the read's bytes follow the buffered ones |
| StreamDecoder.Decoder.Pass | rfx/protocol.go:787-994 | one pass emits exactly what DecodeStep emits and removes its bytes (so the buffer shrinks); when it emits nothing the buffer is unchanged and DecodeStep waits on it |
| StreamDecoder.Decoder.Drain | rfx/protocol.go:786-995 | the loop delivers DecodeAll's packets and leaves exactly its rest |
| StreamDecoder.Decoder.Feed | rfx/protocol.go:781-995 | a read yields DecodeAll of pending bytes plus the read; an empty read changes nothing |
| Explorer.Writes | rfx/protocol.go:736-746 | a failed command writes nothing, a successful one exactly one frame |
| Explorer.ErrorOf | rfx/protocol.go:727-729 | an error exactly when the command fails |
| Explorer.FirstConfig | rfx/protocol.go:453-464 | fails with SetupFailed exactly when no configuration arrives; otherwise the first one |
| Explorer.RFExplorer.constructor | rfx/protocol.go:438-444 | a 256-byte write buffer, nothing written, an empty slot and buffer |
| Explorer.RFExplorer.Write | rfx/protocol.go:739-746 | the frame is appended to the port's log and the session state is unchanged |
| Explorer.RFExplorer.SendCommand | rfx/protocol.go:726-737 | the error is EncodeCommand's; exactly its frame is written, nothing on failure |
| Explorer.RFExplorer.SetLCDEnabled | rfx/protocol.go:484-495 | writes the LCD frame, which is SendCommand's frame for "L1"/"L0" |
| Explorer.RFExplorer.SetScreenDumpEnabled | rfx/protocol.go:498-503 | writes the frame of "D1"/"D0" |
| Explorer.RFExplorer.ResetInternalBuffers | rfx/protocol.go:511-513 | writes the frame of "Cr" |
| Explorer.RFExplorer.RequestSerialNumber | rfx/protocol.go:516-518 | writes the frame of "Cn" |
| Explorer.RFExplorer.RequestConfig | rfx/protocol.go:521-523 | writes the frame of "C0" |
| Explorer.RFExplorer.RequestPresets | rfx/protocol.go:526-528 | writes the frame of "CP\x00" |
| Explorer.RFExplorer.RequestInternalCalibrationData | rfx/protocol.go:584-586 | writes the frame of "Cq" |
| Explorer.RFExplorer.SwitchModuleMain | rfx/protocol.go:589-591 | writes the frame of "CM\x00" |
| Explorer.RFExplorer.Hold | rfx/protocol.go:594-596 | writes the frame of "CH" |
| Explorer.RFExplorer.SwitchModuleExp | rfx/protocol.go:599-601 | writes the frame of "CM\x01" |
| Explorer.RFExplorer.SetBaudRate | rfx/protocol.go:604-626 | succeeds exactly for the nine rates, writing their frame; otherwise errors with nothing written |
| Explorer.RFExplorer.Realtime | rfx/protocol.go:628-630 | writes the frame of "C+\x00" |
| Explorer.RFExplorer.SetMaxHold | rfx/protocol.go:632-634 | writes the frame of "C+\x04" |
| Explorer.RFExplorer.Shutdown | rfx/protocol.go:636-638 | writes the frame of "CS" |
| Explorer.RFExplorer.SetGeneratorPower | rfx/protocol.go:640-645 | writes the frame of "CP1"/"CP0" |
| Explorer.RFExplorer.SetSweepPoints | rfx/protocol.go:654-662 | writes the frame of the sweep-point command |
| Explorer.RFExplorer.SetSweepPointsEx | rfx/protocol.go:665-673 | writes the frame of the extended sweep-point command |
| Explorer.RFExplorer.SetAnalyzerConfig | rfx/protocol.go:676-718 | errors with nothing written exactly when start or end is out of range; otherwise writes the command's frame |
| Explorer.RFExplorer.PutUint32 | rfx/protocol.go:551-552 | writes PutLe32 at the offset and nothing else |
| Explorer.RFExplorer.PutPresetHeader | rfx/protocol.go:534-542 | writes the six header bytes and nothing else |
| Explorer.RFExplorer.PutName | rfx/protocol.go:543-548 | writes the padded name at 6..18 and nothing else |
| Explorer.RFExplorer.PutPresetTrailer | rfx/protocol.go:553-564 | writes the eight trailer bytes and nothing else |
| Explorer.RFExplorer.PutPresetFront | rfx/protocol.go:533-550 | bytes 0..20 of the preset write |
| Explorer.RFExplorer.PutPresetBack | rfx/protocol.go:551-564 | bytes 20..36 of the preset write |
| Explorer.RFExplorer.BuildPresetFrame | rfx/protocol.go:533-564 | a fresh buffer holding exactly PresetFrame |
| Explorer.RFExplorer.UpdatePreset | rfx/protocol.go:531-573 | drains the acknowledgment slot and writes exactly the preset frame |
| Explorer.RFExplorer.ReadRoom | rfx/protocol.go:766-770 | the next read has room for between 2 and 8192 bytes |
| Explorer.RFExplorer.Deliver | rfx/protocol.go:972-979 | packets reach the channel in order; `#PCK` fills the slot, a full slot stays full |
| Explorer.RFExplorer.ReadOnce | rfx/protocol.go:766-995 | one read: reset when full, then deliver exactly DecodeAll's packets, keeping its rest |
| Explorer.RFExplorer.Setup | rfx/protocol.go:446-464 | sends "C0", then stores the first configuration among the replies or fails with SetupFailed |

## Left out

- Opening the serial port and its options (rfx/protocol.go:422-445). The port is a ghost log of written frames plus the chunks a read returns.
- `write` (rfx/protocol.go:739-746): transport errors and the short-write check. Every write is assumed to succeed and is recorded whole.
- The read goroutine, `closeCh`, `Close` (rfx/protocol.go:469-473) and the ordering between them. Reads are explicit calls to `ReadOnce`, and packets delivered to `readCh` are appended to a sequence. The blocking send of `handlePacket` (748-750) is therefore not modelled.
- `log.Fatal` on a read error (rfx/protocol.go:773) and the diagnostic `fmt.Printf` calls (707, 829, 835).
- The `atomic.Value` configuration (rfx/protocol.go:416, 461, 479-481) is an ordinary field, since concurrency is out of the model.
- UpdatePreset: the wait for the acknowledgment or cancellation after the write (rfx/protocol.go:575-579) is not modelled. The method ends with the slot drained and the frame written; `Deliver` shows when a later `#PCK` fills the slot.
- SetAnalyzerConfig: the 500 ms sleep after sending (rfx/protocol.go:716) is not modelled.
- Setup: the replies are a finite sequence of packets. The end of the sequence stands for the closed channel. `rf.Close()` on failure (rfx/protocol.go:456) is not modelled.
- The `String()` tables (rfx/protocol.go:254-336), `Type()` and the `image.Image` methods other than `AtGray`: they are lookup tables and interface plumbing.
- The stubs `SetTrackingStep` and `SetSnifferConfig` (rfx/protocol.go:505-509, 721-723) do nothing.
- SendCommand: the reallocation of `writeBuf` (rfx/protocol.go:730-732) can never run. The buffer is 256 bytes and a frame is at most 255, so `writeBuf` is a fixed array here.
- DecodeSweep: the branch that clips the frame to `len(b)` (rfx/protocol.go:833-837) is unreachable once the frame is known to hold 3+n bytes, and is left out.
- DecodePreset: the frame ends at the first CR LF even when that lies inside the binary record. The intended record length is not evident from the code, so this is kept as written.
- Samples: sweep amplitudes and the sniffer threshold are exact reals (-b/2, -0.5n), with no float64 rounding.
- `main.go` (terminal interface) and `rfx/analyzer.go` (all commented out) are not part of this model.

## Findings

In each row, the as-written member models the code on the whole 8192-byte receive buffer.
The corrected member is what the rest of the model uses. Its intended property is proved
for the whole decoder by Decoding.DecodeStepExtend and Decoding.DecodeAllAppend (a frame cut
anywhere by the reads still decodes), by Frames.DecodeRawFrame, Frames.DecodeSweepFrame,
Frames.DecodePresetRecord, Frames.DecodeOtherLine, Frames.DecodeConfigReport,
Frames.DecodeSetupReport and Frames.DecodeSnifferReport (each frame decodes to its packet and removes exactly its bytes),
by Frames.RawPrefixWaits and Frames.SweepPrefixWaits (a frame not yet complete is waited for), and by AsWritten.CorrectedAgrees (the
code agrees with every emission of the corrected decoder, or else panics on a short `#`
line).

| source | as written | input that shows it | evidently intended | confidence | as-written member | corrected member |
|---|---|---|---|---|---|---|
| rfx/protocol.go:809-818 | `$R` waits for n+4 bytes but removes n+6, and reads `buf[3]` before four bytes are buffered | "$R" 0 0 with four bytes buffered: RawData([]) is emitted and `off` becomes -2 | wait until n+6 bytes are buffered | not executed | AsWritten.RawOverconsumes | Decoding.DecodeRaw |
| rfx/protocol.go:825-829 | a `$S` frame with fewer than 3+n bytes falls through to Unhandled | "$S" 5 CR LF, cut there by the read: five bytes are dropped as Unhandled and the sweep is lost | wait for the rest of the samples | not executed | AsWritten.SweepShortDropped | Decoding.DecodeSweep |
| rfx/protocol.go:831-838 | `$S` widens the frame to 3+n and removes 3+n+2 bytes even when fewer are buffered | "$S" 1 CR LF with five bytes buffered: six bytes are removed and `off` becomes -1 | wait until 3+n+2 bytes are buffered | not executed | AsWritten.SweepOverconsumes | Decoding.DecodeSweep |
| rfx/protocol.go:852-870 | `$P` reads `buf[3..32]` whatever `off` is, and removes eolIdx+2 bytes with eolIdx = -1 | "$P" 0 with three bytes buffered: a preset is built from stale bytes and one byte is removed | wait until the record and a CR LF are buffered | not executed | AsWritten.PresetReadsStaleBytes | Decoding.DecodePreset |
| rfx/protocol.go:876-880 | a `#` line with CR LF at index 1 indexes `b[1]` past the line | "#" CR LF: index out of range, panic | hand the line over as Unhandled | not executed | AsWritten.BareHashPanics | Decoding.DecodeLine |
| rfx/protocol.go:966-968 | a `#S` line with CR LF at index 2 indexes `b[2]` past the line | "#S" CR LF: index out of range, panic | hand the line over as Unhandled | not executed | AsWritten.ShortSerialPanics | Decoding.DecodeLine |
| rfx/protocol.go:894-908 | `#C2-F:` indexes field 12 without counting the fields | "#C2-F:7" CR LF: index out of range, panic | hand short lines over as Unhandled | not executed | AsWritten.ShortConfigPanics | Decoding.ConfigLine |
| rfx/protocol.go:944-952 | `#C4-F:` indexes field 6 without counting the fields | "#C4-F:1" CR LF: index out of range, panic | hand short lines over as Unhandled | not executed | AsWritten.ShortSnifferPanics | Decoding.SnifferLine |
