/** The closed set of packets the decoder emits (the Packet implementations of
    rfx/protocol.go), the Preset record shared with the preset-write command,
    and the 128x64 screen bitmap with its per-pixel lookup. */
module Packets {
  import opened Wire

  /** CurrentConfigPacket: the analyser configuration announced by a "#C2-F:" line. */
  datatype Config = Config(
    startFreqKHz: int,
    freqStepHz: int,
    ampTopDBm: int,
    ampBottomDBm: int,
    sweepSteps: int,
    expModuleActive: bool,
    currentMode: int,
    minFreqKHz: int,
    maxFreqKHz: int,
    maxSpan: int,
    rbwKHz: int,
    ampOffset: int,
    calculatorMode: int)

  /** A stored preset, as read from a "$P" frame and as written by UpdatePreset. */
  datatype Preset = Preset(
    index: int,
    name: seq<byte>,
    minFreqKHz: int,
    maxFreqKHz: int,
    ampTopDBm: int,
    ampBottomDBm: int,
    calcMode: int,
    calcIterations: int,
    mainboard: bool,
    markerMode: byte)

  datatype Packet =
    | CurrentConfig(config: Config)
    | CurrentSetup(model: int, expansionModel: int, firmwareVersion: seq<byte>)
    | CurrentSnifferConfig(startFreqKHz: int, expModuleActive: bool, currentMode: int,
                           delay: int, modulation: int, rbwKHz: int, thresholdDBm: real)
    | CalibrationAvailability(mainboard: bool, expansionBoard: bool)
    | SweepData(samples: seq<real>)
    | SerialNumber(sn: seq<byte>)
    | PresetPacket(preset: Preset)
    | EndOfPresets
    | ScreenImage(data: seq<byte>)
    | RawData(data: seq<byte>)
    | Unhandled(data: seq<byte>)

  /** The bytes before the first zero byte (bytes.IndexByte(s, 0)). */
  function CutAtZero(s: seq<byte>): (r: seq<byte>)
    ensures |r| <= |s| && r == s[..|r|]
    ensures 0 !in r
    ensures |r| < |s| ==> s[|r|] == 0
  {
    if s == [] || s[0] == 0 then [] else [s[0]] + CutAtZero(s[1..])
  }

  /** A preset whose fields fit the fixed-width preset layouts without loss: an index,
      calculator mode and iteration count of one byte, frequencies of 32 bits, amplitudes
      of a signed byte, and a name of at most twelve non-zero bytes. */
  predicate Representable(p: Preset)
  {
    0 <= p.index < 256 && |p.name| <= 12 && 0 !in p.name &&
    0 <= p.minFreqKHz <= MaxUint32 && 0 <= p.maxFreqKHz <= MaxUint32 &&
    -128 <= p.ampTopDBm < 128 && -128 <= p.ampBottomDBm < 128 &&
    0 <= p.calcMode < 256 && 0 <= p.calcIterations < 256
  }

  /** The name field: the name, then zero bytes up to twelve. */
  function NameField(name: seq<byte>): (f: seq<byte>)
    requires |name| <= 12
    ensures |f| == 12 && f[..|name|] == name
  {
    name + seq(12 - |name|, _ => 0 as byte)
  }

  lemma CutNameField(name: seq<byte>)
    requires |name| <= 12 && 0 !in name
    ensures CutAtZero(NameField(name)) == name
  {
    var f := NameField(name);
    var r := CutAtZero(f);
    assert f[..|name|] == name;
    assert |name| < 12 ==> f[|name|] == 0;
  }

  // ---------------------------------------------------------------------
  // The LCD bitmap: 128 columns, 64 rows, eight rows packed per byte.

  const ScreenWidth: int := 128
  const ScreenHeight: int := 64
  const ScreenBytes: int := 1024

  /** Go's `(v >> k) & 1`: bit k of v, by k halvings. */
  function Bit(v: int, k: nat): (r: int)
    requires v >= 0
    ensures r == 0 || r == 1
  {
    if k == 0 then v % 2 else Bit(v / 2, k - 1)
  }

  /** Index of the byte holding pixel (x, y): `(y/8)*128 + x`. */
  function PixelIndex(x: int, y: int): (i: int)
    requires 0 <= x < ScreenWidth && 0 <= y < ScreenHeight
    ensures 0 <= i < ScreenBytes
  {
    (y / 8) * ScreenWidth + x
  }

  /** ScreenImage.AtGray: black (0) where the pixel's bit is set, white (255) elsewhere;
      Go writes this as `255 ^ (255 * bit)`. */
  function AtGray(data: seq<byte>, x: int, y: int): (g: byte)
    requires |data| == ScreenBytes
    requires 0 <= x < ScreenWidth && 0 <= y < ScreenHeight
    ensures g == 0 || g == 255
  {
    if Bit(data[PixelIndex(x, y)] as int, y % 8) == 1 then 0 else 255
  }

  /** Reference definition of the wire layout: the byte whose bit k is rows[k], for up to
      eight rows, least significant bit first. */
  function PackColumn(rows: seq<bool>): (v: int)
    requires |rows| <= 8
    ensures 0 <= v < Pow2(|rows|)
  {
    if rows == [] then 0
    else (if rows[0] then 1 else 0) + 2 * PackColumn(rows[1..])
  }

  function Pow2(k: nat): (r: nat)
    ensures r >= 1
  {
    if k == 0 then 1 else 2 * Pow2(k - 1)
  }

  lemma {:induction false} BitOfPackColumn(rows: seq<bool>, k: nat)
    requires |rows| <= 8 && k < |rows|
    ensures Bit(PackColumn(rows), k) == if rows[k] then 1 else 0
    decreases k
  {
    var v := PackColumn(rows);
    var low := if rows[0] then 1 else 0;
    assert v == low + 2 * PackColumn(rows[1..]);
    if k > 0 {
      assert v / 2 == PackColumn(rows[1..]);
      BitOfPackColumn(rows[1..], k - 1);
    }
  }

  /** A screen given pixel by pixel (`pixels[y][x]` is true for foreground), packed the way
      the instrument sends it in a "$D" frame. */
  function PackScreen(pixels: seq<seq<bool>>): (data: seq<byte>)
    requires |pixels| == ScreenHeight
    requires forall y :: 0 <= y < ScreenHeight ==> |pixels[y]| == ScreenWidth
    ensures |data| == ScreenBytes
  {
    seq(ScreenBytes, i requires 0 <= i < ScreenBytes =>
      var page, x := i / ScreenWidth, i % ScreenWidth;
      PackByte(pixels, page, x))
  }

  function PackByte(pixels: seq<seq<bool>>, page: int, x: int): (b: byte)
    requires |pixels| == ScreenHeight
    requires forall y :: 0 <= y < ScreenHeight ==> |pixels[y]| == ScreenWidth
    requires 0 <= page < 8 && 0 <= x < ScreenWidth
  {
    assert Pow2(8) == 256;
    PackColumn(seq(8, k requires 0 <= k < 8 => pixels[8 * page + k][x])) as byte
  }

  /** AtGray inverts the packing: a foreground pixel reads as black, any other as white. */
  lemma AtGrayOfPackScreen(pixels: seq<seq<bool>>, x: int, y: int)
    requires |pixels| == ScreenHeight
    requires forall r :: 0 <= r < ScreenHeight ==> |pixels[r]| == ScreenWidth
    requires 0 <= x < ScreenWidth && 0 <= y < ScreenHeight
    ensures AtGray(PackScreen(pixels), x, y) == if pixels[y][x] then 0 else 255
  {
    var i := PixelIndex(x, y);
    assert i / ScreenWidth == y / 8 && i % ScreenWidth == x;
    var rows := seq(8, k requires 0 <= k < 8 => pixels[8 * (y / 8) + k][x]);
    assert PackScreen(pixels)[i] == PackColumn(rows) as byte;
    BitOfPackColumn(rows, y % 8);
    assert rows[y % 8] == pixels[y][x];
  }
}
