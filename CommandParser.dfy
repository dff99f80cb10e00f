/** The request decoder: a `*` array of `$` bulk strings read from a byte
    stream. The stream is the byte sequence `s` and a cursor `pos`; every
    parse returns where the cursor ends, so the number of bytes a frame
    consumed is the difference. */
module CommandParser {
  import opened JavaLang
  import opened CommandNames
  import opened Commands
  import opened RespWriter
  import opened ByteStreams

  const DOLLAR_BYTE: Byte := 36
  const ASTERISK_BYTE: Byte := 42
  const MINUS_BYTE: Byte := 45
  const CARRIAGE_RETURN_BYTE: Byte := 13
  const LINE_FEED_BYTE: Byte := 10

  /** Why a frame is refused. Every one of them is an exception in the source,
      and none of them produces a command. */
  datatype ParseError =
    | EndOfStream              // `readByte`/`readFully` ran out of input
    | InvalidType(b: Byte)     // a leading byte other than `*` or `$`
    | NegativeLength(len: int) // `new byte[len]` with a negative length
    | EmptyCommand             // `args.get(0)` on an empty list

  type Parsed<T> = Result<(T, nat), ParseError>

  // ---------------------------------------------------------------------------
  // readIntCRLF

  /** The loop of `readIntCRLF` from cursor `i` with its two variables: a minus sign
      anywhere sets the flag, CR ends the number (the byte after it is consumed
      unchecked), and every other byte is folded in as `b - '0'` in `int` arithmetic. */
  function ReadIntFrom(s: seq<Byte>, i: nat, result: int, isNegative: bool): (r: Parsed<int>)
    requires i <= |s|
    ensures r.Ok? ==> i + 2 <= r.value.1 <= |s|
    decreases |s| - i
  {
    if i == |s| then Err(EndOfStream)
    else if s[i] == MINUS_BYTE then ReadIntFrom(s, i + 1, result, true)
    else if s[i] == CARRIAGE_RETURN_BYTE then
      if i + 1 == |s| then Err(EndOfStream)
      else Ok((if isNegative then Int32(-result) else result, i + 2))
    else ReadIntFrom(s, i + 1, Int32(result * 10 + (Signed8(s[i]) - '0' as int)), isNegative)
  }

  function ReadInt(s: seq<Byte>, pos: nat): Parsed<int>
    requires pos <= |s|
  {
    ReadIntFrom(s, pos, 0, false)
  }

  method ReadIntCRLF(s: seq<Byte>, pos: nat) returns (r: Parsed<int>)
    requires pos <= |s|
    ensures r == ReadInt(s, pos)
  {
    var i := pos;
    var result := 0;
    var isNegative := false;
    while true
      invariant pos <= i <= |s|
      invariant ReadIntFrom(s, i, result, isNegative) == ReadInt(s, pos)
      decreases |s| - i
    {
      if i == |s| {
        return Err(EndOfStream);
      }
      var b := s[i];
      if b == MINUS_BYTE {
        isNegative := true;
      } else if b == CARRIAGE_RETURN_BYTE {
        if i + 1 == |s| {
          return Err(EndOfStream);
        }
        return Ok((if isNegative then Int32(-result) else result, i + 2));
      } else {
        result := Int32(result * 10 + (Signed8(b) - '0' as int));
      }
      i := i + 1;
    }
  }

  // ---------------------------------------------------------------------------
  // process, processBulkString, processBulkStringArray

  /** `process`: dispatch on the leading type byte; the list of strings read so far
      is threaded through and returned with the new strings appended. */
  function ProcessSpec(s: seq<Byte>, pos: nat, args: seq<string>): (r: Parsed<seq<string>>)
    requires pos <= |s|
    ensures r.Ok? ==> pos < r.value.1 <= |s|
    decreases |s| - pos, 0
  {
    if pos == |s| then Err(EndOfStream)
    else if s[pos] == ASTERISK_BYTE then BulkStringArraySpec(s, pos + 1, args)
    else if s[pos] == DOLLAR_BYTE then BulkStringSpec(s, pos + 1, args)
    else Err(InvalidType(s[pos]))
  }

  /** `processBulkString` after the `$`: a length, that many payload bytes, and two
      trailing bytes that are consumed without being checked. */
  function BulkStringSpec(s: seq<Byte>, pos: nat, args: seq<string>): (r: Parsed<seq<string>>)
    requires pos <= |s|
    ensures r.Ok? ==> pos < r.value.1 <= |s|
  {
    match ReadInt(s, pos)
    case Err(e) => Err(e)
    case Ok((len, p)) =>
      if len < 0 then Err(NegativeLength(len))
      else if p + len + 2 > |s| then Err(EndOfStream)
      else Ok((args + [StringOfBytes(s[p..p + len])], p + len + 2))
  }

  /** `processBulkStringArray` after the `*`: a count, then that many frames. */
  function BulkStringArraySpec(s: seq<Byte>, pos: nat, args: seq<string>): (r: Parsed<seq<string>>)
    requires pos <= |s|
    ensures r.Ok? ==> pos < r.value.1 <= |s|
    decreases |s| - pos, 2
  {
    match ReadInt(s, pos)
    case Err(e) => Err(e)
    case Ok((len, p)) => ElementsSpec(s, p, len, args)
  }

  /** The `for` loop of `processBulkStringArray` with `count` iterations left;
      a negative count runs no iteration. */
  function ElementsSpec(s: seq<Byte>, pos: nat, count: int, args: seq<string>): (r: Parsed<seq<string>>)
    requires pos <= |s|
    ensures r.Ok? ==> pos <= r.value.1 <= |s|
    decreases |s| - pos, 1
  {
    if count <= 0 then Ok((args, pos))
    else
      match ProcessSpec(s, pos, args)
      case Err(e) => Err(e)
      case Ok((a, p)) => ElementsSpec(s, p, count - 1, a)
  }

  method Process(s: seq<Byte>, pos: nat, args: seq<string>) returns (r: Parsed<seq<string>>)
    requires pos <= |s|
    ensures r == ProcessSpec(s, pos, args)
    decreases |s| - pos, 0
  {
    if pos == |s| {
      return Err(EndOfStream);
    }
    var b := s[pos];
    if b == ASTERISK_BYTE {
      r := ProcessBulkStringArray(s, pos + 1, args);
    } else if b == DOLLAR_BYTE {
      r := ProcessBulkString(s, pos + 1, args);
    } else {
      r := Err(InvalidType(b));
    }
  }

  method ProcessBulkString(s: seq<Byte>, pos: nat, args: seq<string>) returns (r: Parsed<seq<string>>)
    requires pos <= |s|
    ensures r == BulkStringSpec(s, pos, args)
  {
    var n := ReadIntCRLF(s, pos);
    if n.Err? {
      return Err(n.error);
    }
    var (len, p) := n.value;
    if len < 0 {
      return Err(NegativeLength(len));
    }
    if p + len + 2 > |s| {
      return Err(EndOfStream);
    }
    var buf := s[p..p + len];
    r := Ok((args + [StringOfBytes(buf)], p + len + 2));
  }

  method ProcessBulkStringArray(s: seq<Byte>, pos: nat, args: seq<string>) returns (r: Parsed<seq<string>>)
    requires pos <= |s|
    ensures r == BulkStringArraySpec(s, pos, args)
    decreases |s| - pos, 1
  {
    var n := ReadIntCRLF(s, pos);
    if n.Err? {
      return Err(n.error);
    }
    var (len, p0) := n.value;
    var i, p, acc := 0, p0, args;
    while i < len
      invariant pos + 2 <= p0 <= p <= |s|
      invariant ElementsSpec(s, p, len - i, acc) == ElementsSpec(s, p0, len, args)
      decreases len - i
    {
      var step := Process(s, p, acc);
      if step.Err? {
        return Err(step.error);
      }
      acc, p := step.value.0, step.value.1;
      i := i + 1;
    }
    r := Ok((acc, p));
  }

  /** `parse`: one top-level frame turned into a command, with the number of bytes
      it consumed (what the replica's processed-byte counter adds). */
  function ParseSpec(s: seq<Byte>, pos: nat): (r: Parsed<Command>)
    requires pos <= |s|
  {
    match ProcessSpec(s, pos, [])
    case Err(e) => Err(e)
    case Ok((list, p)) =>
      if |list| == 0 then Err(EmptyCommand) else Ok((FromList(list), p - pos))
  }

  method Parse(s: seq<Byte>, pos: nat) returns (r: Parsed<Command>)
    requires pos <= |s|
    ensures r == ParseSpec(s, pos)
    ensures r.Ok? ==> 0 < r.value.1 <= |s| - pos
  {
    var list := Process(s, pos, []);
    if list.Err? {
      return Err(list.error);
    }
    if |list.value.0| == 0 {
      return Err(EmptyCommand);
    }
    r := Ok((FromList(list.value.0), list.value.1 - pos));
  }

  // ---------------------------------------------------------------------------
  // What the decoder does on the bytes the encoders write

  /** One iteration of `readIntCRLF` on a digit byte. */
  lemma ReadIntDigitStep(s: seq<Byte>, i: nat, result: int, neg: bool)
    requires i < |s| && '0' as int <= s[i] <= '9' as int
    ensures ReadIntFrom(s, i, result, neg) == ReadIntFrom(s, i + 1, Int32(result * 10 + (s[i] - '0' as int)), neg)
  {
  }

  /** Reading the digits of `m` one by one folds them into `m` itself. */
  lemma {:induction false} ReadDigits(s: seq<Byte>, pos: nat, m: nat, neg: bool)
    requires m < TWO_31
    requires At(s, pos, WriteBytes(Digits(m)))
    ensures ReadIntFrom(s, pos, 0, neg) == ReadIntFrom(s, pos + |Digits(m)|, m, neg)
    decreases m
  {
    if m < 10 {
      ReadOneDigit(s, pos, m, neg);
    } else {
      var q, d := m / 10, m % 10;
      var front := Digits(q);
      var last := [DigitChar(d)];
      assert Digits(m) == front + last;
      WriteBytesAppend(front, last);
      AtConcat(s, pos, WriteBytes(front), WriteBytes(last));
      ReadDigits(s, pos, q, neg);
      ReadLastDigit(s, pos + |front|, q, d, neg);
    }
  }

  lemma ReadOneDigit(s: seq<Byte>, pos: nat, m: nat, neg: bool)
    requires m < 10
    requires At(s, pos, WriteBytes(Digits(m)))
    ensures ReadIntFrom(s, pos, 0, neg) == ReadIntFrom(s, pos + |Digits(m)|, m, neg)
  {
    var ds := Digits(m);
    assert ds == [DigitChar(m)];
    AtIndex(s, pos, WriteBytes(ds), 0);
    assert s[pos] == '0' as int + m;
    ReadIntDigitStep(s, pos, 0, neg);
  }

  lemma ReadLastDigit(s: seq<Byte>, i: nat, q: nat, d: nat, neg: bool)
    requires d < 10 && q * 10 + d < TWO_31
    requires At(s, i, WriteBytes([DigitChar(d)]))
    ensures ReadIntFrom(s, i, q, neg) == ReadIntFrom(s, i + 1, q * 10 + d, neg)
  {
    AtIndex(s, i, WriteBytes([DigitChar(d)]), 0);
    assert s[i] == '0' as int + d;
    ReadIntDigitStep(s, i, q, neg);
  }

  /** Digits followed by CR LF: the fold ends on the value of the digits. */
  lemma ReadIntOfDigits(s: seq<Byte>, pos: nat, m: nat, neg: bool)
    requires m < TWO_31
    requires At(s, pos, WriteBytes(Digits(m)) + CRLF)
    ensures ReadIntFrom(s, pos, 0, neg) == Ok((if neg then -(m as int) else m as int, pos + |Digits(m)| + 2))
  {
    var ds := WriteBytes(Digits(m));
    AtConcat(s, pos, ds, CRLF);
    AtIndex(s, pos + |ds|, CRLF, 0);
    ReadDigits(s, pos, m, neg);
    assert Int32(-(m as int)) == -(m as int);
  }

  /** A written negative number is a minus sign and then the digits. */
  lemma NegativeLayout(s: seq<Byte>, pos: nat, n: int)
    requires n < 0
    requires At(s, pos, WriteBytes(IntToString(n)) + CRLF)
    ensures pos < |s| && s[pos] == MINUS_BYTE
    ensures At(s, pos + 1, WriteBytes(Digits(-n)) + CRLF)
  {
    var ds := Digits(-n);
    assert IntToString(n) == "-" + ds;
    WriteBytesAppend("-", ds);
    assert WriteBytes("-") == [MINUS_BYTE];
    AtConcatRest(s, pos, WriteBytes(IntToString(n)), [MINUS_BYTE], WriteBytes(ds), CRLF);
    AtIndex(s, pos, [MINUS_BYTE], 0);
  }

  /** A number of two digits or more is spelt as its tenth, then its last digit. */
  lemma DigitsSplit(m: nat)
    requires 10 <= m
    ensures Digits(m) == Digits(m / 10) + [DigitChar(m % 10)]
  {
  }

  /** The digits of `m` but the last, folded: what is left is the last digit
      and CR LF. */
  lemma ReadAllButLastDigit(s: seq<Byte>, pos: nat, m: nat, neg: bool)
    requires 10 <= m && m / 10 < TWO_31
    requires At(s, pos, WriteBytes(Digits(m)) + CRLF)
    ensures |Digits(m)| == |Digits(m / 10)| + 1
    ensures ReadIntFrom(s, pos, 0, neg) == ReadIntFrom(s, pos + |Digits(m / 10)|, m / 10, neg)
    ensures At(s, pos + |Digits(m / 10)|, WriteBytes([DigitChar(m % 10)]) + CRLF)
  {
    var front := Digits(m / 10);
    var last := [DigitChar(m % 10)];
    DigitsSplit(m);
    WriteBytesAppend(front, last);
    AtConcatRest(s, pos, WriteBytes(Digits(m)), WriteBytes(front), WriteBytes(last), CRLF);
    ReadDigits(s, pos, m / 10, neg);
  }

  /** Digits whose value is past the `int` range only at the last digit: the
      fold wraps once, on that digit. */
  lemma ReadIntOfWrappingDigits(s: seq<Byte>, pos: nat, m: nat, neg: bool)
    requires 10 <= m && m / 10 < TWO_31
    requires At(s, pos, WriteBytes(Digits(m)) + CRLF)
    ensures ReadIntFrom(s, pos, 0, neg) == Ok((if neg then Int32(-Int32(m)) else Int32(m), pos + |Digits(m)| + 2))
  {
    var q, d := m / 10, m % 10;
    ReadAllButLastDigit(s, pos, m, neg);
    ReadFinalDigit(s, pos + |Digits(q)|, q, d, m, neg);
  }

  /** The last digit, then CR LF: the digit is folded in with `int`
      wrap-around and the number ends. */
  lemma ReadFinalDigit(s: seq<Byte>, i: nat, q: int, d: nat, m: int, neg: bool)
    requires d < 10 && m == q * 10 + d
    requires At(s, i, WriteBytes([DigitChar(d)]) + CRLF)
    ensures ReadIntFrom(s, i, q, neg) == Ok((if neg then Int32(-Int32(m)) else Int32(m), i + 3))
  {
    var tail := WriteBytes([DigitChar(d)]) + CRLF;
    assert tail[0] == '0' as int + d;
    AtIndex(s, i, tail, 0);
    AtIndex(s, i, tail, 1);
    AtIndex(s, i, tail, 2);
    ReadIntDigitStep(s, i, q, neg);
    assert ReadIntFrom(s, i, q, neg) == ReadIntFrom(s, i + 1, Int32(m), neg);
  }

  /** A negative number: the minus sign sets the flag, the digits follow. The
      digits of the smallest `int` spell 2^31, which wraps to -2^31, and
      negating that wraps back to -2^31. */
  lemma ReadIntOfNegative(s: seq<Byte>, pos: nat, n: int)
    requires -TWO_31 <= n < 0
    requires At(s, pos, WriteBytes(IntToString(n)) + CRLF)
    ensures ReadInt(s, pos) == Ok((n, pos + |IntToString(n)| + 2))
  {
    NegativeLayout(s, pos, n);
    assert ReadIntFrom(s, pos, 0, false) == ReadIntFrom(s, pos + 1, 0, true);
    if n == -TWO_31 {
      ReadIntOfWrappingDigits(s, pos + 1, -n, true);
      assert Int32(-Int32(-n)) == n;
    } else {
      ReadIntOfDigits(s, pos + 1, -n, true);
    }
  }

  /** `readIntCRLF` reads back every `int` as `Integer.toString` prints it, and
      consumes exactly the text and its CR LF. */
  lemma ReadIntOfDecimal(s: seq<Byte>, pos: nat, n: int)
    requires -TWO_31 <= n < TWO_31
    requires At(s, pos, WriteBytes(IntToString(n)) + CRLF)
    ensures ReadInt(s, pos) == Ok((n, pos + |IntToString(n)| + 2))
  {
    if n < 0 {
      ReadIntOfNegative(s, pos, n);
    } else {
      ReadIntOfDigits(s, pos, n, false);
    }
  }

  /** A line `kind` `n` CR LF at `pos`: the kind byte is there and the count after it
      is read back, ending where the line ends. */
  lemma ReadLine(s: seq<Byte>, pos: nat, kind: char, n: int)
    requires kind as int < 256 && -TWO_31 <= n < TWO_31
    requires At(s, pos, Line(kind, IntToString(n)))
    ensures pos < |s| && s[pos] == kind as int
    ensures ReadInt(s, pos + 1) == Ok((n, pos + |Line(kind, IntToString(n))|))
  {
    var h := WriteBytes(IntToString(n)) + CRLF;
    assert Line(kind, IntToString(n)) == [kind as int] + h;
    AtConcat(s, pos, [kind as int], h);
    AtIndex(s, pos, [kind as int], 0);
    ReadIntOfDecimal(s, pos + 1, n);
  }

  /** A bulk string written by `writeBulkString` is read back as one more argument. */
  lemma BulkStringRoundTrip(s: seq<Byte>, pos: nat, x: string, args: seq<string>)
    requires IsAscii(x) && |x| < TWO_31
    requires At(s, pos, BulkString(x))
    ensures ProcessSpec(s, pos, args) == Ok((args + [x], pos + |BulkString(x)|))
  {
    var h := Line('$', IntToString(|x|));
    var xb := WriteBytes(x);
    assert BulkString(x) == h + (xb + CRLF);
    AtConcat(s, pos, h, xb + CRLF);
    ReadLine(s, pos, '$', |x|);
    var p := pos + |h|;
    AtConcat(s, p, xb, CRLF);
    AtSlice(s, p, xb);
    StringOfWrittenBytes(x);
    assert StringOfBytes(s[p..p + |x|]) == x;
    assert BulkStringSpec(s, pos + 1, args) == Ok((args + [x], p + |x| + 2));
  }

  predicate Encodable(xs: seq<string>) {
    |xs| < TWO_31 && forall i :: 0 <= i < |xs| ==> IsAscii(xs[i]) && |xs[i]| < TWO_31
  }

  lemma EncodableTail(xs: seq<string>)
    requires Encodable(xs) && xs != []
    ensures Encodable(xs[1..]) && IsAscii(xs[0]) && |xs[0]| < TWO_31
  {
    forall i | 0 <= i < |xs[1..]| ensures IsAscii(xs[1..][i]) && |xs[1..][i]| < TWO_31 {
      assert xs[1..][i] == xs[i + 1];
    }
  }

  /** One iteration of the `for` loop of `processBulkStringArray`. */
  lemma ElementsStep(s: seq<Byte>, pos: nat, count: int, args: seq<string>, a: seq<string>, p: nat)
    requires pos <= |s| && count > 0 && ProcessSpec(s, pos, args) == Ok((a, p))
    ensures ElementsSpec(s, pos, count, args) == ElementsSpec(s, p, count - 1, a)
  {
  }

  /** Written elements are the first bulk string followed by the rest. */
  lemma BulkStringsLayout(s: seq<Byte>, pos: nat, xs: seq<string>)
    requires xs != [] && At(s, pos, BulkStrings(xs))
    ensures At(s, pos, BulkString(xs[0])) && At(s, pos + |BulkString(xs[0])|, BulkStrings(xs[1..]))
    ensures |BulkString(xs[0])| + |BulkStrings(xs[1..])| == |BulkStrings(xs)|
  {
    var b := BulkString(xs[0]);
    var rest := BulkStrings(xs[1..]);
    assert BulkStrings(xs) == b + rest;
    AtConcat(s, pos, b, rest);
  }

  /** The first element written is read as one more argument; the loop goes on
      at `next`, where the rest of the elements were written. */
  lemma ElementsHead(s: seq<Byte>, pos: nat, xs: seq<string>, args: seq<string>, count: int, next: nat)
    requires Encodable(xs) && xs != [] && count == |xs|
    requires At(s, pos, BulkStrings(xs)) && next == pos + |BulkString(xs[0])|
    ensures next <= |s| && Encodable(xs[1..]) && At(s, next, BulkStrings(xs[1..]))
    ensures next + |BulkStrings(xs[1..])| == pos + |BulkStrings(xs)|
    ensures ElementsSpec(s, pos, count, args) == ElementsSpec(s, next, count - 1, args + [xs[0]])
  {
    BulkStringsLayout(s, pos, xs);
    EncodableTail(xs);
    BulkStringRoundTrip(s, pos, xs[0], args);
    ElementsStep(s, pos, count, args, args + [xs[0]], next);
  }

  lemma ElementsCons(s: seq<Byte>, pos: nat, next: nat, x: string, rest: seq<string>, args: seq<string>,
                     count: int, last: nat)
    requires pos <= |s| && next <= |s|
    requires ElementsSpec(s, pos, count, args) == ElementsSpec(s, next, count - 1, args + [x])
    requires ElementsSpec(s, next, count - 1, args + [x]) == Ok((args + [x] + rest, last))
    ensures ElementsSpec(s, pos, count, args) == Ok((args + ([x] + rest), last))
  {
    assert args + [x] + rest == args + ([x] + rest);
  }

  /** The element loop reads back, one by one, every bulk string written, after
      the arguments already read. */
  lemma {:induction false} ElementsRoundTrip(s: seq<Byte>, pos: nat, xs: seq<string>, args: seq<string>,
                                             count: int, last: nat)
    requires Encodable(xs) && count == |xs|
    requires At(s, pos, BulkStrings(xs)) && last == pos + |BulkStrings(xs)|
    ensures ElementsSpec(s, pos, count, args) == Ok((args + xs, last))
    decreases |xs|
  {
    if xs == [] {
      assert args + xs == args;
    } else {
      var next := pos + |BulkString(xs[0])|;
      ElementsHead(s, pos, xs, args, count, next);
      ElementsRoundTrip(s, next, xs[1..], args + [xs[0]], count - 1, last);
      ElementsCons(s, pos, next, xs[0], xs[1..], args, count, last);
      assert [xs[0]] + xs[1..] == xs;
    }
  }

  /** An array header followed by its elements is read as those elements. */
  lemma ArrayOfElements(s: seq<Byte>, pos: nat, n: int, p: nat, xs: seq<string>, last: nat)
    requires pos < |s| && s[pos] == ASTERISK_BYTE && p <= |s|
    requires ReadInt(s, pos + 1) == Ok((n, p)) && ElementsSpec(s, p, n, []) == Ok((xs, last))
    ensures ProcessSpec(s, pos, []) == Ok((xs, last))
  {
  }

  /** `process` reads what `writeArray` wrote as the strings written. */
  lemma ProcessArrayRoundTrip(s: seq<Byte>, pos: nat, xs: seq<string>, last: nat)
    requires Encodable(xs)
    requires At(s, pos, WriteArray(xs)) && last == pos + |WriteArray(xs)|
    ensures ProcessSpec(s, pos, []) == Ok(([] + xs, last))
  {
    var h := Line('*', IntToString(|xs|));
    var p := pos + |h|;
    AtConcat(s, pos, h, BulkStrings(xs));
    ReadLine(s, pos, '*', |xs|);
    assert ReadInt(s, pos + 1) == Ok((|xs|, p));
    ElementsRoundTrip(s, p, xs, [], |xs|, last);
    var e := ElementsSpec(s, p, |xs|, []);
    assert e == Ok(([] + xs, last));
    ArrayOfElements(s, pos, |xs|, p, [] + xs, last);
  }

  /** `parse` turns what `process` read into a command, refusing an empty list. */
  lemma ParseOfProcess(s: seq<Byte>, pos: nat, xs: seq<string>, last: nat)
    requires pos <= |s| && ProcessSpec(s, pos, []) == Ok((xs, last))
    ensures ParseSpec(s, pos) == if |xs| == 0 then Err(EmptyCommand) else Ok((FromList(xs), last - pos))
  {
  }

  /** Parsing what `writeArray` wrote gives back a command built from exactly those
      strings and consumes exactly the bytes written; an empty array is refused. */
  lemma WriteArrayRoundTrip(s: seq<Byte>, pos: nat, xs: seq<string>)
    requires Encodable(xs)
    requires At(s, pos, WriteArray(xs))
    ensures ProcessSpec(s, pos, []) == Ok((xs, pos + |WriteArray(xs)|))
    ensures ParseSpec(s, pos) == if |xs| == 0 then Err(EmptyCommand)
                                 else Ok((FromList(xs), |WriteArray(xs)|))
  {
    ProcessArrayRoundTrip(s, pos, xs, pos + |WriteArray(xs)|);
    assert [] + xs == xs;
    ParseOfProcess(s, pos, xs, pos + |WriteArray(xs)|);
  }

  /** The whole wire round trip: for a non-empty list of ASCII strings whose head
      names a command, `parse(writeArray(xs)).toArray()` is `xs` with the head in
      canonical upper case, and the parse consumes exactly the written bytes, even
      when more bytes follow in the stream. */
  lemma {:induction false} WireRoundTrip(xs: seq<string>, rest: seq<Byte>)
    requires Encodable(xs) && |xs| > 0 && FromName(xs[0]).Some?
    ensures ParseSpec(WriteArray(xs) + rest, 0) == Ok((FromList(xs), |WriteArray(xs)|))
    ensures ToArray(FromList(xs)) == [UpperCase(xs[0])] + xs[1..]
  {
    var s := WriteArray(xs) + rest;
    AtOfSlice(s, 0, WriteArray(xs));
    WriteArrayRoundTrip(s, 0, xs);
    ToArrayOfFromList(xs);
  }

  // ---------------------------------------------------------------------------
  // Parsing reads no further than it needs

  lemma {:induction false} ReadIntExtends(s: seq<Byte>, t: seq<Byte>, i: nat, result: int, neg: bool)
    requires i <= |s| && ReadIntFrom(s, i, result, neg).Ok?
    ensures ReadIntFrom(s + t, i, result, neg) == ReadIntFrom(s, i, result, neg)
    decreases |s| - i
  {
    assert (s + t)[i] == s[i];
    if s[i] == MINUS_BYTE {
      ReadIntExtends(s, t, i + 1, result, true);
    } else if s[i] != CARRIAGE_RETURN_BYTE {
      ReadIntExtends(s, t, i + 1, Int32(result * 10 + (Signed8(s[i]) - '0' as int)), neg);
    }
  }

  lemma {:induction false} ProcessExtends(s: seq<Byte>, t: seq<Byte>, pos: nat, args: seq<string>)
    requires pos <= |s| && ProcessSpec(s, pos, args).Ok?
    ensures ProcessSpec(s + t, pos, args) == ProcessSpec(s, pos, args)
    decreases |s| - pos, 0
  {
    assert (s + t)[pos] == s[pos];
    if s[pos] == ASTERISK_BYTE {
      ReadIntExtends(s, t, pos + 1, 0, false);
      var (len, p) := ReadInt(s, pos + 1).value;
      ElementsExtends(s, t, p, len, args);
    } else {
      ReadIntExtends(s, t, pos + 1, 0, false);
      var (len, p) := ReadInt(s, pos + 1).value;
      assert (s + t)[p..p + len] == s[p..p + len];
    }
  }

  lemma {:induction false} ElementsExtends(s: seq<Byte>, t: seq<Byte>, pos: nat, count: int, args: seq<string>)
    requires pos <= |s| && ElementsSpec(s, pos, count, args).Ok?
    ensures ElementsSpec(s + t, pos, count, args) == ElementsSpec(s, pos, count, args)
    decreases |s| - pos, 1
  {
    if count > 0 {
      ProcessExtends(s, t, pos, args);
      var (a, p) := ProcessSpec(s, pos, args).value;
      ElementsExtends(s, t, p, count - 1, a);
    }
  }

  /** A frame that `process` reads to its very end cannot be read from any proper
      prefix. */
  lemma PrefixProcessFails(w: seq<Byte>, k: nat, xs: seq<string>)
    requires k < |w| && ProcessSpec(w, 0, []) == Ok((xs, |w|))
    ensures ProcessSpec(w[..k], 0, []).Err?
  {
    var prefix := w[..k];
    assert prefix + w[k..] == w;
    if ProcessSpec(prefix, 0, []).Ok? {
      ProcessExtends(prefix, w[k..], 0, []);
      assert false;
    }
  }

  /** A stream that ends inside a frame never yields a command: every proper prefix
      of an encoded request fails to parse. */
  lemma TruncatedFrameFails(xs: seq<string>, k: nat)
    requires Encodable(xs) && k < |WriteArray(xs)|
    ensures ParseSpec(WriteArray(xs)[..k], 0).Err?
  {
    var w := WriteArray(xs);
    AtOfSlice(w, 0, w);
    WriteArrayRoundTrip(w, 0, xs);
    PrefixProcessFails(w, k, xs);
  }

  // ---------------------------------------------------------------------------
  // Properties of the decoder on any input

  /** `process` only appends to the list it is given: what was read before stays
      in front, in order, whatever the frame holds (nested arrays included). */
  lemma {:induction false} ProcessKeepsArgs(s: seq<Byte>, pos: nat, args: seq<string>)
    requires pos <= |s| && ProcessSpec(s, pos, args).Ok?
    ensures |args| <= |ProcessSpec(s, pos, args).value.0|
    ensures ProcessSpec(s, pos, args).value.0[..|args|] == args
    decreases |s| - pos, 0
  {
    if s[pos] == ASTERISK_BYTE {
      var (len, p) := ReadInt(s, pos + 1).value;
      ElementsKeepsArgs(s, p, len, args);
    }
  }

  lemma {:induction false} ElementsKeepsArgs(s: seq<Byte>, pos: nat, count: int, args: seq<string>)
    requires pos <= |s| && ElementsSpec(s, pos, count, args).Ok?
    ensures |args| <= |ElementsSpec(s, pos, count, args).value.0|
    ensures ElementsSpec(s, pos, count, args).value.0[..|args|] == args
    decreases |s| - pos, 1
  {
    if count > 0 {
      ProcessKeepsArgs(s, pos, args);
      var (a, p) := ProcessSpec(s, pos, args).value;
      ElementsKeepsArgs(s, p, count - 1, a);
      var r := ElementsSpec(s, p, count - 1, a).value.0;
      assert r[..|args|] == r[..|a|][..|args|];
    }
  }

  /** A bulk string whose length line is negative is refused when its buffer is
      allocated, and no string is added. */
  lemma NegativeBulkLengthFails(s: seq<Byte>, pos: nat, n: int, args: seq<string>)
    requires -TWO_31 <= n < 0
    requires At(s, pos, Line('$', IntToString(n)))
    ensures ProcessSpec(s, pos, args) == Err(NegativeLength(n))
  {
    ReadLine(s, pos, '$', n);
  }
}
