/** Byte-level vocabulary shared by the command encoder and the frame decoder:
    the byte type, ASCII literals, Go's integer conversions and the
    fixed-width decimal formatting used by fmt's %0Nd verb. */
module Wire {

  /** One octet on the UART link. */
  newtype byte = x: int | 0 <= x < 256

  const CR: byte := 0x0D
  const LF: byte := 0x0A
  const MaxUint32: int := 0xFFFF_FFFF
  const MaxInt64: int := 0x7FFF_FFFF_FFFF_FFFF
  const MinInt64: int := -0x8000_0000_0000_0000
  const MaxUint64: int := 0xFFFF_FFFF_FFFF_FFFF

  datatype Option<T> = None | Some(value: T)

  datatype Result<T, E> = Success(value: T) | Failure(error: E)

  /** The bytes of an ASCII (Latin-1) literal, as Go's string-to-[]byte conversion gives them. */
  function Ascii(s: string): (r: seq<byte>)
    requires forall i :: 0 <= i < |s| ==> s[i] as int < 256
    ensures |r| == |s|
    ensures forall i :: 0 <= i < |s| ==> r[i] as int == s[i] as int
  {
    seq(|s|, i requires 0 <= i < |s| => s[i] as byte)
  }

  /** Go's `byte(x)` for an int: keeps the low eight bits (two's complement). */
  function GoByte(x: int): (r: byte)
    ensures (r as int - x) % 256 == 0
    ensures 0 <= x < 256 ==> r as int == x
  {
    (x % 256) as byte
  }

  /** Go's `uint32(x)` for an int: keeps the low 32 bits. */
  function GoUint32(x: int): (r: int)
    ensures 0 <= r <= MaxUint32
    ensures (r - x) % 0x1_0000_0000 == 0
  {
    x % 0x1_0000_0000
  }

  /** Go's `int(int8(b))`: reads a byte as a two's complement signed value. */
  function Int8(b: byte): (r: int)
    ensures -128 <= r < 128
    ensures GoByte(r) == b
  {
    if b < 128 then b as int else b as int - 256
  }

  lemma Int8RoundTrip(x: int)
    requires -128 <= x < 128
    ensures Int8(GoByte(x)) == x
  {
  }

  /** Little-endian 16-bit value of two bytes (Go's `int(b[0]) | int(b[1])<<8`). */
  function Le16(b: seq<byte>): (r: int)
    requires |b| == 2
    ensures 0 <= r < 0x1_0000
  {
    b[0] as int + 256 * b[1] as int
  }

  /** binary.LittleEndian.Uint32 on four bytes. */
  function Le32(b: seq<byte>): (r: int)
    requires |b| == 4
    ensures 0 <= r <= MaxUint32
  {
    b[0] as int + 0x100 * b[1] as int + 0x1_0000 * b[2] as int + 0x100_0000 * b[3] as int
  }

  /** binary.LittleEndian.PutUint32 of `uint32(x)`. */
  function PutLe32(x: int): (r: seq<byte>)
    ensures |r| == 4
    ensures Le32(r) == GoUint32(x)
  {
    var v := GoUint32(x);
    var v1 := v / 0x100;
    var v2 := v1 / 0x100;
    var v3 := v2 / 0x100;
    assert v == v % 0x100 + 0x100 * v1 && v1 == v1 % 0x100 + 0x100 * v2;
    assert v2 == v2 % 0x100 + 0x100 * v3 && v3 < 0x100;
    [(v % 0x100) as byte, (v1 % 0x100) as byte, (v2 % 0x100) as byte, v3 as byte]
  }

  /** Go's integer `/`, which truncates toward zero (Dafny's `/` is Euclidean): the
      remainder a - q*d has the sign of the dividend and is smaller than the divisor. */
  function TruncDiv(a: int, d: int): (q: int)
    requires d > 0
    ensures a >= 0 ==> 0 <= a - q * d < d
    ensures a < 0 ==> -d < a - q * d <= 0
  {
    if a >= 0 then a / d else -((-a) / d)
  }

  function Clamp(x: int, lo: int, hi: int): (r: int)
    requires lo <= hi
    ensures lo <= r <= hi
    ensures lo <= x <= hi ==> r == x
    ensures x < lo ==> r == lo
    ensures x > hi ==> r == hi
  {
    if x < lo then lo else if x > hi then hi else x
  }

  // ---------------------------------------------------------------------
  // Decimal digits

  predicate IsDigit(c: byte) { '0' as byte <= c <= '9' as byte }

  function DigitValue(c: byte): (d: int)
    requires IsDigit(c)
    ensures 0 <= d < 10
  {
    c as int - '0' as int
  }

  function DigitChar(d: int): (c: byte)
    requires 0 <= d < 10
    ensures IsDigit(c) && DigitValue(c) == d
  {
    ('0' as int + d) as byte
  }

  /** The shortest decimal representation of a natural number (fmt's %d). */
  function Digits(n: nat): (r: seq<byte>)
    ensures 1 <= |r|
    ensures forall i :: 0 <= i < |r| ==> IsDigit(r[i])
    ensures n > 0 ==> r[0] != '0' as byte
    ensures n < 10 ==> |r| == 1
  {
    if n < 10 then [DigitChar(n)] else Digits(n / 10) + [DigitChar(n % 10)]
  }

  function Zeros(k: nat): (r: seq<byte>)
    ensures |r| == k
    ensures forall i :: 0 <= i < k ==> r[i] == '0' as byte
  {
    seq(k, _ => '0' as byte)
  }

  /** fmt's `%0<w>d`: the digits of n, padded on the left with '0' to width w;
      for a negative n the sign comes first and takes one column of the width. */
  function FormatPadded(n: int, w: nat): (r: seq<byte>)
    ensures |r| >= w && |r| >= 1
    ensures r[0] == '-' as byte <==> n < 0
    ensures forall i :: (if n < 0 then 1 else 0) <= i < |r| ==> IsDigit(r[i])
  {
    if n < 0 then
      var d := Digits(-n);
      ['-' as byte] + Zeros(if w - 1 > |d| then w - 1 - |d| else 0) + d
    else
      var d := Digits(n);
      Zeros(if w > |d| then w - |d| else 0) + d
  }

  lemma {:induction false} DigitsLength(n: nat, k: nat)
    requires n < Pow10(k)
    ensures |Digits(n)| <= if k == 0 then 1 else k
    decreases k
  {
    if n >= 10 {
      assert Pow10(0) == 1 && Pow10(1) == 10;
      assert k >= 2;
      assert n / 10 < Pow10(k - 1) by { Pow10Step(k); }
      DigitsLength(n / 10, k - 1);
    }
  }

  function Pow10(k: nat): (r: nat)
    ensures r >= 1
  {
    if k == 0 then 1 else 10 * Pow10(k - 1)
  }

  lemma Pow10Step(k: nat)
    requires k >= 1
    ensures Pow10(k) == 10 * Pow10(k - 1)
  {
  }

  /** A value that fits in w columns is printed in exactly w columns. */
  lemma FormatPaddedWidth(n: int, w: nat)
    requires w >= 1
    requires if n < 0 then w >= 2 && -n < Pow10(w - 1) else n < Pow10(w)
    ensures |FormatPadded(n, w)| == w
  {
    if n < 0 {
      DigitsLength(-n, w - 1);
      var d := Digits(-n);
      var pad := Zeros(w - 1 - |d|);
      assert FormatPadded(n, w) == ['-' as byte] + pad + d;
    } else {
      DigitsLength(n, w);
      var d := Digits(n);
      var pad := Zeros(w - |d|);
      assert FormatPadded(n, w) == pad + d;
    }
  }
}
