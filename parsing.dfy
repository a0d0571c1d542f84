/** The text helpers the frame decoder applies to the fields of a '#' line:
    strings.Split on ',', strings.TrimLeft(s, "0"), strconv.Atoi, and the
    parseASCIIDecimal / parseModel / parseMode / parseCalculatorMode /
    parseModulation functions built on them (rfx/protocol.go). */
module Parsing {
  import opened Wire

  // ---------------------------------------------------------------------
  // strings.Split(s, sep) for a one-byte separator

  /** The pieces joined back together with `sep` between them (strings.Join). */
  function Join(parts: seq<seq<byte>>, sep: byte): seq<byte>
    requires |parts| >= 1
  {
    if |parts| == 1 then parts[0] else parts[0] + [sep] + Join(parts[1..], sep)
  }

  /** The total length of the pieces, without separators. */
  function TotalLength(parts: seq<seq<byte>>): nat
  {
    if parts == [] then 0 else |parts[0]| + TotalLength(parts[1..])
  }

  /** Join puts one separator between consecutive pieces. */
  lemma {:induction false} JoinLength(parts: seq<seq<byte>>, sep: byte)
    requires |parts| >= 1
    ensures |Join(parts, sep)| == TotalLength(parts) + |parts| - 1
    decreases |parts|
  {
    if |parts| > 1 {
      JoinLength(parts[1..], sep);
    } else {
      assert parts[1..] == [];
    }
  }

  /** A byte other than the separator that no piece holds is not in the joined string. */
  lemma {:induction false} JoinExcludes(parts: seq<seq<byte>>, sep: byte, x: byte)
    requires |parts| >= 1 && x != sep
    requires forall i :: 0 <= i < |parts| ==> x !in parts[i]
    ensures x !in Join(parts, sep)
    decreases |parts|
  {
    if |parts| > 1 {
      JoinExcludes(parts[1..], sep, x);
    }
  }

  /** strings.Split(s, string(sep)): the maximal runs of bytes between separators. */
  function Split(s: seq<byte>, sep: byte): (r: seq<seq<byte>>)
    ensures |r| >= 1
    ensures forall i :: 0 <= i < |r| ==> sep !in r[i]
    ensures Join(r, sep) == s
    decreases |s|
  {
    if s == [] then [[]]
    else if s[0] == sep then [[]] + Split(s[1..], sep)
    else
      var rest := Split(s[1..], sep);
      assert Join(rest, sep) == rest[0] + (if |rest| == 1 then [] else [sep] + Join(rest[1..], sep));
      var r := [[s[0]] + rest[0]] + rest[1..];
      assert r[1..] == rest[1..];
      r
  }

  /** A field that holds no separator is split off whole. */
  lemma {:induction false} SplitField(x: seq<byte>, sep: byte, y: seq<byte>)
    requires sep !in x
    ensures Split(x + [sep] + y, sep) == [x] + Split(y, sep)
    decreases |x|
  {
    if x == [] {
      assert x + [sep] + y == [sep] + y;
    } else {
      var s := x + [sep] + y;
      assert s[0] == x[0] && s[0] != sep;
      assert s[1..] == x[1..] + [sep] + y;
      SplitField(x[1..], sep, y);
      var rest := Split(s[1..], sep);
      assert rest[0] == x[1..] && rest[1..] == Split(y, sep);
      assert Split(s, sep) == [[s[0]] + rest[0]] + rest[1..];
      assert [x[0]] + x[1..] == x;
    }
  }

  lemma {:induction false} SplitWhole(x: seq<byte>, sep: byte)
    requires sep !in x
    ensures Split(x, sep) == [x]
    decreases |x|
  {
    if x != [] {
      SplitWhole(x[1..], sep);
      assert [x[0]] + x[1..] == x;
    }
  }

  // ---------------------------------------------------------------------
  // strings.TrimLeft(s, "0")

  function TrimLeftZeros(s: seq<byte>): (r: seq<byte>)
    ensures |r| <= |s| && r == s[|s| - |r|..]
    ensures r == [] || r[0] != '0' as byte
    ensures forall i :: 0 <= i < |s| - |r| ==> s[i] == '0' as byte
  {
    if s != [] && s[0] == '0' as byte then TrimLeftZeros(s[1..]) else s
  }

  lemma {:induction false} TrimZerosPrefix(k: nat, d: seq<byte>)
    requires d == [] || d[0] != '0' as byte
    ensures TrimLeftZeros(Zeros(k) + d) == d
    decreases k
  {
    var s := Zeros(k) + d;
    if k > 0 {
      assert s[0] == '0' as byte;
      assert s[1..] == Zeros(k - 1) + d;
      TrimZerosPrefix(k - 1, d);
      assert TrimLeftZeros(s) == TrimLeftZeros(s[1..]);
    } else {
      assert s == d;
    }
  }

  // ---------------------------------------------------------------------
  // strconv.Atoi

  /** Outcome of strconv.ParseUint(s, 10, 64): a syntax error, a range error, or a value. */
  datatype UintScan = SyntaxError | RangeError | Parsed(n: nat)

  /** The digit loop of strconv.ParseUint: a non-digit is a syntax error; the first digit
      that takes the running value past 2^64-1 is a range error, whatever follows it. */
  function ScanDigits(s: seq<byte>, acc: nat): (r: UintScan)
    requires acc <= MaxUint64
    ensures r.Parsed? ==> acc <= r.n <= MaxUint64
    ensures r.Parsed? ==> forall i :: 0 <= i < |s| ==> IsDigit(s[i])
    decreases |s|
  {
    if s == [] then Parsed(acc)
    else if !IsDigit(s[0]) then SyntaxError
    else if acc * 10 + DigitValue(s[0]) > MaxUint64 then RangeError
    else ScanDigits(s[1..], acc * 10 + DigitValue(s[0]))
  }

  /** What strconv.Atoi returns: the int and whether the error was nil. */
  datatype AtoiResult = AtoiResult(value: int, ok: bool)

  /** The bytes after an optional leading '+' or '-'. */
  function Unsigned(s: seq<byte>): seq<byte>
  {
    if s != [] && (s[0] == '-' as byte || s[0] == '+' as byte) then s[1..] else s
  }

  /** strconv.Atoi(s) on a 64-bit platform: an optional sign, then decimal digits.
      A syntax error gives 0; a value outside the int64 range gives the nearest
      bound of that range, with an error. */
  function Atoi(s: seq<byte>): (r: AtoiResult)
    ensures MinInt64 <= r.value <= MaxInt64
    ensures r.ok ==> Unsigned(s) != [] && forall i :: 0 <= i < |Unsigned(s)| ==> IsDigit(Unsigned(s)[i])
    ensures !r.ok && r.value != 0 ==> r.value == MaxInt64 || r.value == MinInt64
    ensures s == [] ==> r == AtoiResult(0, false)
  {
    if s == [] then AtoiResult(0, false)
    else
      var neg := s[0] == '-' as byte;
      var body := Unsigned(s);
      var scan := if body == [] then SyntaxError else ScanDigits(body, 0);
      match scan
      case SyntaxError => AtoiResult(0, false)
      case RangeError => if neg then AtoiResult(MinInt64, false) else AtoiResult(MaxInt64, false)
      case Parsed(n) =>
        if !neg && n > MaxInt64 then AtoiResult(MaxInt64, false)
        else if neg && n > -MinInt64 then AtoiResult(MinInt64, false)
        else AtoiResult(if neg then -(n as int) else n as int, true)
  }

  lemma {:induction false} ScanDigitsAppend(a: seq<byte>, b: seq<byte>, acc: nat)
    requires acc <= MaxUint64
    ensures ScanDigits(a + b, acc) ==
      match ScanDigits(a, acc)
      case Parsed(v) => ScanDigits(b, v)
      case other => other
    decreases |a|
  {
    if a != [] {
      assert (a + b)[0] == a[0];
      assert (a + b)[1..] == a[1..] + b;
      if IsDigit(a[0]) && acc * 10 + DigitValue(a[0]) <= MaxUint64 {
        ScanDigitsAppend(a[1..], b, acc * 10 + DigitValue(a[0]));
      }
    } else {
      assert a + b == b;
    }
  }

  lemma {:induction false} ScanZeros(k: nat)
    ensures ScanDigits(Zeros(k), 0) == Parsed(0)
    decreases k
  {
    if k > 0 {
      assert Zeros(k)[1..] == Zeros(k - 1);
      ScanZeros(k - 1);
    }
  }

  /** Reading back the digits fmt prints for n gives n. */
  lemma {:induction false} ScanDigitsOf(n: nat)
    requires n <= MaxUint64
    ensures ScanDigits(Digits(n), 0) == Parsed(n)
    decreases n
  {
    if n >= 10 {
      ScanDigitsOf(n / 10);
      ScanDigitsAppend(Digits(n / 10), [DigitChar(n % 10)], 0);
      assert ScanDigits([DigitChar(n % 10)], n / 10) == ScanDigits([], n) by {
        assert [DigitChar(n % 10)][1..] == [];
      }
    } else {
      assert Digits(n)[1..] == [];
    }
  }

  // ---------------------------------------------------------------------
  // The parse* helpers of rfx/protocol.go

  /** parseASCIIDecimal: "" is 0; leading '0's are stripped, then Atoi's value is
      taken whatever its error (so an all-zero or non-numeric field is 0 as well). */
  function ParseASCIIDecimal(s: seq<byte>): (r: int)
    ensures MinInt64 <= r <= MaxInt64
    ensures s == [] ==> r == 0
    ensures (forall i :: 0 <= i < |s| ==> s[i] == '0' as byte) ==> r == 0
    ensures s != [] && !IsDigit(s[0]) && s[0] != '-' as byte && s[0] != '+' as byte ==> r == 0
  {
    if s == [] then 0 else Atoi(TrimLeftZeros(s)).value
  }

  /** Formatting with fmt's %0<w>d and reading back with parseASCIIDecimal is the identity
      on the int64 range: the command encoder's fields and the decoder's field parser agree. */
  lemma ParseFormatted(n: int, w: nat)
    requires MinInt64 <= n <= MaxInt64
    ensures ParseASCIIDecimal(FormatPadded(n, w)) == n
  {
    if n < 0 {
      ParseFormattedNegative(n, w);
    } else if n == 0 {
      var k := if w > 1 then w - 1 else 0;
      assert FormatPadded(n, w) == Zeros(k) + ['0' as byte];
      assert Zeros(k) + ['0' as byte] == Zeros(k + 1);
    } else {
      ParseFormattedPositive(n, w);
    }
  }

  lemma ParseFormattedPositive(n: int, w: nat)
    requires 0 < n <= MaxInt64
    ensures ParseASCIIDecimal(FormatPadded(n, w)) == n
  {
    var d := Digits(n);
    var k := if w > |d| then w - |d| else 0;
    assert FormatPadded(n, w) == Zeros(k) + d;
    TrimZerosPrefix(k, d);
    AtoiDigits(n);
  }

  /** Atoi reads the digits fmt prints for a non-negative int64 back without error. */
  lemma AtoiDigits(n: int)
    requires 0 <= n <= MaxInt64
    ensures Atoi(Digits(n)) == AtoiResult(n, true)
  {
    var d := Digits(n);
    assert Unsigned(d) == d;
    ScanDigitsOf(n);
  }

  lemma ParseFormattedNegative(n: int, w: nat)
    requires MinInt64 <= n < 0
    ensures ParseASCIIDecimal(FormatPadded(n, w)) == n
  {
    var d := Digits(-n);
    var k := if w - 1 > |d| then w - 1 - |d| else 0;
    var s := ['-' as byte] + Zeros(k) + d;
    assert FormatPadded(n, w) == s;
    assert s[0] == '-' as byte;
    assert TrimLeftZeros(s) == s;
    AtoiNegative(k, -n);
  }

  lemma AtoiNegative(k: nat, m: nat)
    requires 0 < m <= -MinInt64
    ensures Atoi(['-' as byte] + Zeros(k) + Digits(m)) == AtoiResult(-(m as int), true)
  {
    var u := Zeros(k) + Digits(m);
    ScanDigitsAppend(Zeros(k), Digits(m), 0);
    ScanZeros(k);
    ScanDigitsOf(m);
    assert ScanDigits(u, 0) == Parsed(m);
    var s := ['-' as byte] + u;
    assert s[0] == '-' as byte && s[1..] == u;
    assert Unsigned(s) == u;
    assert ['-' as byte] + Zeros(k) + Digits(m) == s;
  }

  /** The digits of any n scan back to n when n fits in 64 bits, and are a range error
      when it does not. */
  lemma {:induction false} ScanDigitsOfAny(n: nat)
    ensures ScanDigits(Digits(n), 0) == if n <= MaxUint64 then Parsed(n) else RangeError
    decreases n
  {
    if n <= MaxUint64 {
      ScanDigitsOf(n);
    } else {
      ScanDigitsOfAny(n / 10);
      ScanDigitsAppend(Digits(n / 10), [DigitChar(n % 10)], 0);
      if n / 10 <= MaxUint64 {
        assert ScanDigits([DigitChar(n % 10)], n / 10) == RangeError;
      }
    }
  }

  /** A decimal above the int64 range saturates: Atoi reports an error together with
      MaxInt64, whether or not the digits also overflow 64 unsigned bits. */
  lemma AtoiSaturates(n: nat)
    requires n > MaxInt64
    ensures Atoi(Digits(n)) == AtoiResult(MaxInt64, false)
  {
    assert Unsigned(Digits(n)) == Digits(n);
    ScanDigitsOfAny(n);
  }

  /** A decimal below the int64 range saturates to MinInt64, with an error. */
  lemma AtoiSaturatesNegative(m: nat)
    requires m > -MinInt64
    ensures Atoi(['-' as byte] + Digits(m)) == AtoiResult(MinInt64, false)
  {
    var s := ['-' as byte] + Digits(m);
    assert s[0] == '-' as byte && Unsigned(s) == Digits(m);
    ScanDigitsOfAny(m);
  }

  /** parseASCIIDecimal inherits the saturation: a field too long for int64 reads as the
      nearest bound, not as 0. */
  lemma ParseASCIIDecimalSaturates(n: nat)
    requires n > MaxInt64
    ensures ParseASCIIDecimal(Digits(n)) == MaxInt64
    ensures n > -MinInt64 ==> ParseASCIIDecimal(['-' as byte] + Digits(n)) == MinInt64
  {
    var d := Digits(n);
    TrimZerosPrefix(0, d);
    assert Zeros(0) + d == d;
    AtoiSaturates(n);
    var s := ['-' as byte] + d;
    assert s[0] != '0' as byte;
    assert TrimLeftZeros(s) == s;
    if n > -MinInt64 {
      AtoiSaturatesNegative(n);
    }
  }

  const ModelNone: int := 255
  const Invalid: int := -1

  /** The shape shared by parseModel, parseMode and parseCalculatorMode (only the value for
      the empty string differs): "" gives `empty`, an all-zero string gives 0, otherwise
      Atoi of the string without its leading zeros, or -1 when Atoi reports an error. */
  function ParseCode(s: seq<byte>, empty: int): (r: int)
    ensures s == [] ==> r == empty
    ensures s != [] && (forall i :: 0 <= i < |s| ==> s[i] == '0' as byte) ==> r == 0
    ensures s != [] && !IsDigit(s[0]) && s[0] != '-' as byte && s[0] != '+' as byte ==> r == Invalid
    ensures s != [] ==> (r == Invalid || Atoi(TrimLeftZeros(s)).ok || TrimLeftZeros(s) == [])
    ensures s != [] && Atoi(TrimLeftZeros(s)).ok ==> r == Atoi(TrimLeftZeros(s)).value
  {
    if s == [] then empty
    else
      var t := TrimLeftZeros(s);
      if t == [] then 0
      else
        var a := Atoi(t);
        if a.ok then a.value else Invalid
  }

  /** parseModel: "" is ModelNone (255), a non-numeric string ModelInvalid (-1). */
  function ParseModel(s: seq<byte>): (r: int)
    ensures s == [] ==> r == ModelNone
    ensures s != [] && (forall i :: 0 <= i < |s| ==> s[i] == '0' as byte) ==> r == 0
    ensures s != [] && !IsDigit(s[0]) && s[0] != '-' as byte && s[0] != '+' as byte ==> r == Invalid
  {
    ParseCode(s, ModelNone)
  }

  /** parseMode: "" is ModeInvalid (-1). */
  function ParseMode(s: seq<byte>): (r: int)
    ensures s == [] ==> r == Invalid
    ensures s != [] && (forall i :: 0 <= i < |s| ==> s[i] == '0' as byte) ==> r == 0
    ensures s != [] && !IsDigit(s[0]) && s[0] != '-' as byte && s[0] != '+' as byte ==> r == Invalid
  {
    ParseCode(s, Invalid)
  }

  /** parseCalculatorMode: "" is CalculatorModeInvalid (-1). */
  function ParseCalculatorMode(s: seq<byte>): (r: int)
    ensures s == [] ==> r == Invalid
    ensures s != [] && (forall i :: 0 <= i < |s| ==> s[i] == '0' as byte) ==> r == 0
    ensures s != [] && !IsDigit(s[0]) && s[0] != '-' as byte && s[0] != '+' as byte ==> r == Invalid
  {
    ParseCode(s, Invalid)
  }

  /** parseModulation: Atoi's value, its error ignored (no zero stripping). */
  function ParseModulation(s: seq<byte>): (r: int)
    ensures MinInt64 <= r <= MaxInt64
    ensures Atoi(s).ok ==> r == Atoi(s).value
  {
    Atoi(s).value
  }

  /** A code formatted with %0<w>d reads back as itself through parseModel / parseMode /
      parseCalculatorMode, whatever the padding. */
  lemma ParseCodeFormatted(n: int, w: nat, empty: int)
    requires 0 <= n <= MaxInt64
    ensures ParseCode(FormatPadded(n, w), empty) == n
  {
    var s := FormatPadded(n, w);
    if n > 0 {
      var d := Digits(n);
      var k := if w > |d| then w - |d| else 0;
      assert s == Zeros(k) + d;
      TrimZerosPrefix(k, d);
      AtoiDigits(n);
    } else {
      var k := if w > 1 then w - 1 else 0;
      assert s == Zeros(k) + ['0' as byte];
      assert s == Zeros(k + 1);
    }
  }

  /** Split undoes Join when no piece contains the separator. */
  lemma {:induction false} SplitJoin(parts: seq<seq<byte>>, sep: byte)
    requires |parts| >= 1
    requires forall i :: 0 <= i < |parts| ==> sep !in parts[i]
    ensures Split(Join(parts, sep), sep) == parts
    decreases |parts|
  {
    if |parts| == 1 {
      assert Join(parts, sep) == parts[0];
      SplitWhole(parts[0], sep);
    } else {
      var rest := parts[1..];
      assert Join(parts, sep) == parts[0] + [sep] + Join(rest, sep);
      SplitJoin(rest, sep);
      SplitField(parts[0], sep, Join(rest, sep));
      assert [parts[0]] + rest == parts;
    }
  }

  /** What %0<w>d prints is a sign and digits: never a field separator or a line end. */
  lemma FormattedHasNoSeparator(n: int, w: nat)
    ensures ',' as byte !in FormatPadded(n, w) && CR !in FormatPadded(n, w)
  {
    var f := FormatPadded(n, w);
    forall i | 0 <= i < |f|
      ensures f[i] == '-' as byte || IsDigit(f[i])
    {
      if n < 0 {
        var d := Digits(-n);
        var pad := Zeros(if w - 1 > |d| then w - 1 - |d| else 0);
        assert f == ['-' as byte] + pad + d;
        if 1 <= i < 1 + |pad| { assert f[i] == pad[i - 1]; }
        else if i >= 1 + |pad| { assert f[i] == d[i - 1 - |pad|]; }
      } else {
        var d := Digits(n);
        var pad := Zeros(if w > |d| then w - |d| else 0);
        assert f == pad + d;
        if i >= |pad| { assert f[i] == d[i - |pad|]; }
      }
    }
  }
}
