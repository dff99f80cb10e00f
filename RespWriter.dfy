/** The reply encoders of the command engine (`writeSimpleString`,
    `writeBulkString`, `writeArray`) and the fixed replies it writes inline.
    Every `writeBytes` call sends the low byte of each char, so an encoded
    frame is the concatenation of the bytes of its pieces. */
module RespWriter {
  import opened JavaLang

  const CRLF: seq<Byte> := [13, 10]

  /** A line of the protocol: a type byte, the text, CR LF. */
  function Line(kind: char, text: string): seq<Byte>
    requires kind as int < 256
  {
    [kind as int] + WriteBytes(text) + CRLF
  }

  /** `writeSimpleString`: `+s\r\n`. */
  function SimpleString(s: string): seq<Byte> {
    Line('+', s)
  }

  /** `writeBulkString`: the line `$<length>`, then the text and CR LF. */
  function BulkString(s: string): seq<Byte> {
    Line('$', IntToString(|s|)) + WriteBytes(s) + CRLF
  }

  /** The `for` loop of `writeArray`: each element as a bulk string, in order. */
  function BulkStrings(xs: seq<string>): seq<Byte> {
    if xs == [] then [] else BulkString(xs[0]) + BulkStrings(xs[1..])
  }

  /** `writeArray`: the line `*<n>`, then the n bulk strings. */
  function WriteArray(xs: seq<string>): seq<Byte> {
    Line('*', IntToString(|xs|)) + BulkStrings(xs)
  }

  /** Writing two runs of elements one after the other writes their concatenation. */
  lemma {:induction false} BulkStringsAppend(a: seq<string>, b: seq<string>)
    ensures BulkStrings(a + b) == BulkStrings(a) + BulkStrings(b)
  {
    if a == [] {
      assert a + b == b;
    } else {
      assert (a + b)[0] == a[0] && (a + b)[1..] == a[1..] + b;
      BulkStringsAppend(a[1..], b);
    }
  }

  /** One more element written after the first `i`. */
  lemma BulkStringsSnoc(xs: seq<string>, i: nat)
    requires i < |xs|
    ensures BulkStrings(xs[..i + 1]) == BulkStrings(xs[..i]) + BulkString(xs[i])
  {
    BulkStringsAppend(xs[..i], [xs[i]]);
    assert xs[..i + 1] == xs[..i] + [xs[i]];
    assert BulkStrings([xs[i]]) == BulkString(xs[i]) + BulkStrings([]);
  }

  /** Appending two runs one after the other; stated on plain byte sequences so
      that no encoder is in sight. */
  lemma AppendAssociates(a: seq<Byte>, b: seq<Byte>, c: seq<Byte>, ab: seq<Byte>)
    requires ab == a + b
    ensures ab + c == a + (b + c)
  {
  }

  /** Three writes in a row put their concatenation on the stream. */
  lemma ThreeWrites(before: seq<Byte>, a: seq<Byte>, b: seq<Byte>, c: seq<Byte>,
                    afterA: seq<Byte>, afterB: seq<Byte>, afterC: seq<Byte>)
    requires afterA == before + a && afterB == afterA + b && afterC == afterB + c
    ensures afterC == before + (a + b + c)
  {
  }

  /** After the first `i` elements, writing element `i` extends the run by one. */
  lemma OneMoreWritten(header: seq<Byte>, written: seq<Byte>, now: seq<Byte>, xs: seq<string>, i: nat)
    requires i < |xs|
    requires written == header + BulkStrings(xs[..i]) && now == written + BulkString(xs[i])
    ensures now == header + BulkStrings(xs[..i + 1])
  {
    BulkStringsSnoc(xs, i);
    AppendAssociates(header, BulkStrings(xs[..i]), BulkString(xs[i]), written);
  }

  /** The count line followed by all the elements is the whole array. */
  lemma ArrayWritten(before: seq<Byte>, header: seq<Byte>, now: seq<Byte>, xs: seq<string>)
    requires header == before + Line('*', IntToString(|xs|)) && now == header + BulkStrings(xs)
    ensures now == before + WriteArray(xs)
  {
    AppendAssociates(before, Line('*', IntToString(|xs|)), BulkStrings(xs), header);
  }

  /** The null bulk string `$-1\r\n` that GET and CONFIG write for a missing value. */
  const NullBulkString: seq<Byte> := Line('$', "-1")

  /** The integer reply `:<n>\r\n` that WAIT writes. */
  function IntegerReply(n: int): seq<Byte> {
    Line(':', IntToString(n))
  }

  /** A line is what `writeBytes` sends for the text `kind + text + "\r\n"`. */
  lemma LineIsWrittenText(kind: char, text: string)
    requires kind as int < 256
    ensures Line(kind, text) == WriteBytes([kind] + text + "\r\n")
  {
    WriteBytesAppend([kind] + text, "\r\n");
    WriteBytesAppend([kind], text);
  }

  /** The bulk string is exactly the two `writeBytes` calls of `writeBulkString`:
      `"$" + arg.length() + "\r\n"` and then `arg + "\r\n"`. */
  lemma BulkStringIsWrittenText(s: string)
    ensures BulkString(s) == WriteBytes("$" + IntToString(|s|) + "\r\n") + WriteBytes(s + "\r\n")
  {
    LineIsWrittenText('$', IntToString(|s|));
    WriteBytesAppend(s, "\r\n");
  }
}
