/** The pieces of Java value semantics the server's code relies on: bytes and
    their signed reading, 32-bit wrap-around, decimal text in both directions,
    ASCII case folding, and the conversions between strings and bytes that
    `DataOutputStream.writeBytes` and `new String(byte[])` perform. */
module JavaLang {

  /** An unsigned byte, as it sits on the wire or in a file. */
  type Byte = b: int | 0 <= b < 256

  datatype Option<+T> = None | Some(value: T)

  datatype Result<+T, +E> = Ok(value: T) | Err(error: E)

  const TWO_31: int := 0x8000_0000
  const TWO_32: int := 0x1_0000_0000

  /** The value of a Java `byte` holding `b` (two's complement). */
  function Signed8(b: Byte): (r: int)
    ensures -128 <= r < 128
    ensures r >= 0 <==> b < 128
  {
    if b < 128 then b else b - 256
  }

  /** Java `int` arithmetic: keep the low 32 bits and read them as two's complement. */
  function Int32(x: int): (r: int)
    ensures -TWO_31 <= r < TWO_31
    ensures -TWO_31 <= x < TWO_31 ==> r == x
  {
    (x + TWO_31) % TWO_32 - TWO_31
  }

  // ---------------------------------------------------------------------------
  // Strings and bytes

  /** `DataOutputStream.writeBytes`: every char contributes its low eight bits. */
  function WriteBytes(s: string): (r: seq<Byte>)
    ensures |r| == |s|
    ensures forall i {:trigger r[i]} :: 0 <= i < |s| ==> r[i] == s[i] as int % 256
  {
    seq(|s|, i requires 0 <= i < |s| => s[i] as int % 256)
  }

  /** `new String(bytes)`, restricted to single-byte characters: byte `b` becomes char `b`. */
  function StringOfBytes(bs: seq<Byte>): (r: string)
    ensures |r| == |bs|
    ensures forall i {:trigger r[i]} :: 0 <= i < |bs| ==> r[i] as int == bs[i]
  {
    seq(|bs|, i requires 0 <= i < |bs| => bs[i] as char)
  }

  predicate IsAscii(s: string) {
    forall i :: 0 <= i < |s| ==> s[i] as int < 128
  }

  lemma WriteBytesAppend(a: string, b: string)
    ensures WriteBytes(a + b) == WriteBytes(a) + WriteBytes(b)
  {
    assert forall i :: 0 <= i < |a + b| ==> WriteBytes(a + b)[i] == (WriteBytes(a) + WriteBytes(b))[i];
  }

  /** Writing an ASCII string out and reading the bytes back gives the string. */
  lemma StringOfWrittenBytes(s: string)
    requires IsAscii(s)
    ensures StringOfBytes(WriteBytes(s)) == s
  {
    assert forall i :: 0 <= i < |s| ==> StringOfBytes(WriteBytes(s))[i] == s[i];
  }

  /** Reading bytes as a string and writing the string out gives the bytes. */
  lemma WrittenStringOfBytes(bs: seq<Byte>)
    ensures WriteBytes(StringOfBytes(bs)) == bs
  {
    assert forall i :: 0 <= i < |bs| ==> WriteBytes(StringOfBytes(bs))[i] == bs[i];
  }

  // ---------------------------------------------------------------------------
  // Decimal text

  predicate IsDigit(c: char) {
    '0' <= c <= '9'
  }

  predicate AllDigits(s: string) {
    forall i :: 0 <= i < |s| ==> IsDigit(s[i])
  }

  function DigitChar(d: int): (c: char)
    requires 0 <= d < 10
    ensures IsDigit(c) && c as int - '0' as int == d
  {
    ('0' as int + d) as char
  }

  /** The shortest decimal spelling of `n`. */
  function Digits(n: nat): (r: string)
    ensures |r| >= 1 && AllDigits(r)
    decreases n
  {
    if n < 10 then [DigitChar(n)] else Digits(n / 10) + [DigitChar(n % 10)]
  }

  /** `Integer.toString`, `Long.toString`, and `"" + n` in a string concatenation. */
  function IntToString(n: int): (r: string)
    ensures |r| >= 1
  {
    if n < 0 then "-" + Digits(-n) else Digits(n)
  }

  /** The value of a string of decimal digits, folded from the left as Java's parsers do. */
  function DecimalValue(ds: string): (v: int)
    ensures AllDigits(ds) ==> v >= 0
  {
    if ds == [] then 0
    else DecimalValue(ds[..|ds| - 1]) * 10 + (ds[|ds| - 1] as int - '0' as int)
  }

  lemma {:induction false} DecimalValueOfDigits(n: nat)
    ensures DecimalValue(Digits(n)) == n
    decreases n
  {
    if n >= 10 {
      var d := Digits(n / 10);
      assert Digits(n) == d + [DigitChar(n % 10)];
      assert Digits(n)[..|Digits(n)| - 1] == d;
      DecimalValueOfDigits(n / 10);
    }
  }

  /** `Integer.parseInt` / `Long.parseLong` on ASCII digits: an optional sign,
      at least one digit, and a value within [lo, hi]; anything else is a
      `NumberFormatException`, here `None`. */
  function ParseInteger(s: string, lo: int, hi: int): (r: Option<int>)
    ensures r.Some? ==> lo <= r.value <= hi
  {
    if |s| == 0 then None
    else if s[0] == '-' || s[0] == '+' then
      var magnitude := s[1..];
      if |magnitude| == 0 || !AllDigits(magnitude) then None
      else
        var v := if s[0] == '-' then -DecimalValue(magnitude) else DecimalValue(magnitude);
        if lo <= v <= hi then Some(v) else None
    else if AllDigits(s) && lo <= DecimalValue(s) <= hi then Some(DecimalValue(s))
    else None
  }

  const INT_MIN: int := -0x8000_0000
  const INT_MAX: int := 0x7FFF_FFFF
  const LONG_MIN: int := -0x8000_0000_0000_0000
  const LONG_MAX: int := 0x7FFF_FFFF_FFFF_FFFF

  /** Parsing gives back every value that `IntToString` printed. */
  lemma ParseIntegerOfString(n: int, lo: int, hi: int)
    requires lo <= n <= hi
    ensures ParseInteger(IntToString(n), lo, hi) == Some(n)
  {
    var s := IntToString(n);
    if n < 0 {
      var ds := Digits(-n);
      assert s[0] == '-' && s[1..] == ds;
      DecimalValueOfDigits(-n);
    } else {
      assert s == Digits(n);
      assert IsDigit(s[0]);
      DecimalValueOfDigits(n);
    }
  }

  // ---------------------------------------------------------------------------
  // Case-insensitive comparison

  /** `Character.toUpperCase` on ASCII letters; every other char is left as it is. */
  function ToUpper(c: char): char {
    if 'a' <= c <= 'z' then (c as int - 32) as char else c
  }

  function UpperCase(s: string): (r: string)
    ensures |r| == |s|
    ensures forall i :: 0 <= i < |s| ==> r[i] == ToUpper(s[i])
  {
    seq(|s|, i requires 0 <= i < |s| => ToUpper(s[i]))
  }

  /** `String.equalsIgnoreCase`, with ASCII case folding. */
  predicate EqualsIgnoreCase(a: string, b: string) {
    |a| == |b| && forall i :: 0 <= i < |a| ==> ToUpper(a[i]) == ToUpper(b[i])
  }

  lemma EqualsIgnoreCaseIsUpperCaseEquality(a: string, b: string)
    ensures EqualsIgnoreCase(a, b) <==> UpperCase(a) == UpperCase(b)
  {
    if UpperCase(a) == UpperCase(b) {
      assert forall i :: 0 <= i < |a| ==> UpperCase(a)[i] == UpperCase(b)[i];
    }
  }
}
