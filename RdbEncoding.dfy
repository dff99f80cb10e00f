/** A writer for the part of the RDB format that the reader understands, and the
    proofs that the reader reads back what it writes: lengths, strings and the
    integer string encodings, expiries, records, database sections, metadata and
    whole files. The snapshot a master sends to a new replica is one such file. */
module RdbEncoding {
  import opened JavaLang
  import opened ByteStreams
  import opened RdbFileReader

  // ---------------------------------------------------------------------------
  // Lengths and strings

  /** A length in the `00` (six-bit) or `01` (fourteen-bit) form. */
  function EncodeLength(n: nat): (bs: seq<Byte>)
    requires n < 0x4000
    ensures |bs| == if n < 64 then 1 else 2
  {
    if n < 64 then [n] else [64 + n / 256, n % 256]
  }

  /** `parseSize` reads back every length written in the `00` or `01` form. */
  lemma ParseSizeRoundTrip(s: seq<Byte>, pos: nat, n: nat)
    requires n < 0x4000 && At(s, pos, EncodeLength(n))
    ensures ParseSize(s, pos) == Ok((n, pos + |EncodeLength(n)|))
  {
    AtIndex(s, pos, EncodeLength(n), 0);
    if n >= 64 {
      AtIndex(s, pos, EncodeLength(n), 1);
    }
  }

  /** `parseSize` fails exactly on an `11` first byte, including the `0xFF` that
      the end of the file reads as; on `10` it gives the count of a four-byte
      read, which is -1 when the file ends right after the first byte. */
  lemma ParseSizeOutcomes(s: seq<Byte>, pos: nat)
    requires pos <= |s|
    ensures ParseSize(s, pos).Err? <==> pos == |s| || s[pos] >= 0xC0
    ensures ParseSize(s, pos).Err? ==> ParseSize(s, pos) == Err(UnsupportedSizeEncoding(ReadByte(s, pos).0))
    ensures pos < |s| && 0x80 <= s[pos] < 0xC0 && pos + 5 <= |s| ==> ParseSize(s, pos) == Ok((4, pos + 5))
    ensures pos + 1 == |s| && 0x80 <= s[pos] < 0xC0 ==> ParseSize(s, pos) == Ok((-1, pos + 1))
  {
  }

  /** ASCII text short enough for a fourteen-bit length. */
  predicate ShortAscii(str: string) {
    IsAscii(str) && |str| < 0x4000
  }

  /** A length-prefixed string. */
  function EncodeString(str: string): (bs: seq<Byte>)
    requires |str| < 0x4000
    ensures |bs| == |EncodeLength(|str|)| + |str|
  {
    EncodeLength(|str|) + WriteBytes(str)
  }

  /** Reading `length` bytes that hold an ASCII string gives the string. */
  lemma ReadDataAt(s: seq<Byte>, pos: nat, str: string)
    requires IsAscii(str) && At(s, pos, WriteBytes(str))
    ensures ReadData(s, pos, |str|) == Ok((str, pos + |str|))
  {
    if |str| > 0 {
      ReadBlockAt(s, pos, WriteBytes(str), |str|);
      assert WriteBytes(str)[..|str|] == WriteBytes(str);
    }
    StringOfWrittenBytes(str);
  }

  /** `parseString` reads back every short ASCII string written with its length. */
  lemma ParseStringRoundTrip(s: seq<Byte>, pos: nat, str: string, end: nat)
    requires ShortAscii(str) && At(s, pos, EncodeString(str)) && end == pos + |EncodeString(str)|
    ensures ParseString(s, pos) == Ok((str, end))
  {
    var len := EncodeLength(|str|);
    AtConcat(s, pos, len, WriteBytes(str));
    AtIndex(s, pos, len, 0);
    if |str| >= 64 {
      AtIndex(s, pos, len, 1);
    }
    ReadDataAt(s, pos + |len|, str);
  }

  /** A `10` first byte: the number of bytes read into a four-byte buffer becomes
      the length of the string after them, so a full read gives the next four
      bytes as text and a read at the end of the file fails on `new byte[-1]`. */
  lemma ParseStringByteCount(s: seq<Byte>, pos: nat)
    requires pos < |s| && 0x80 <= s[pos] < 0xC0
    ensures pos + 9 <= |s| ==> ParseString(s, pos) == Ok((StringOfBytes(s[pos + 5..pos + 9]), pos + 9))
    ensures pos + 1 == |s| ==> ParseString(s, pos) == Err(NegativeStringLength(-1))
  {
    if pos + 9 <= |s| {
      var count, text := s[pos + 1..pos + 5], s[pos + 5..pos + 9];
      AtOfSlice(s, pos + 1, count);
      AtOfSlice(s, pos + 5, text);
      ReadBlockAt(s, pos + 1, count, 4);
      ReadBlockAt(s, pos + 5, text, 4);
      assert count[..4] == count && text[..4] == text;
    }
  }

  // ---------------------------------------------------------------------------
  // Integers written as strings

  /** `0xC0`: a signed byte, read back as its decimal text. */
  lemma ParseStringInt8(s: seq<Byte>, pos: nat, v: int)
    requires -128 <= v < 128 && At(s, pos, [0xC0, TwosComplement(v, 1)])
    ensures ParseString(s, pos) == Ok((IntToString(v), pos + 2))
  {
    AtIndex(s, pos, [0xC0, TwosComplement(v, 1)], 0);
    AtIndex(s, pos, [0xC0, TwosComplement(v, 1)], 1);
  }

  /** `0xC1`: a signed little-endian short. The reader fills a four-byte buffer, so
      the two bytes after the short are consumed as well, whatever they are. */
  lemma ParseStringInt16(s: seq<Byte>, pos: nat, v: int, pad: seq<Byte>)
    requires -0x8000 <= v < 0x8000 && |pad| == 2
    requires Pow256(2) == 0x1_0000
    requires At(s, pos, [0xC1] + (ToLittleEndian(TwosComplement(v, 2), 2) + pad))
    ensures ParseString(s, pos) == Ok((IntToString(v), pos + 5))
  {
    var w := ToLittleEndian(TwosComplement(v, 2), 2) + pad;
    AtConcat(s, pos, [0xC1], w);
    AtIndex(s, pos, [0xC1], 0);
    ReadBlockAt(s, pos + 1, w, 4);
    assert w[..4] == w;
    GetRoundTrip(v, 2, pad);
  }

  /** `0xC2`: a signed little-endian `int`. */
  lemma ParseStringInt32(s: seq<Byte>, pos: nat, v: int)
    requires -TWO_31 <= v < TWO_31
    requires Pow256(4) == TWO_32
    requires At(s, pos, [0xC2] + ToLittleEndian(TwosComplement(v, 4), 4))
    ensures ParseString(s, pos) == Ok((IntToString(v), pos + 5))
  {
    var w := ToLittleEndian(TwosComplement(v, 4), 4);
    AtConcat(s, pos, [0xC2], w);
    AtIndex(s, pos, [0xC2], 0);
    ReadBlockAt(s, pos + 1, w, 4);
    assert w[..4] == w && w + [] == w;
    GetRoundTrip(v, 4, []);
  }

  /** `0xC3` (a compressed string) and `0xC4` to `0xFF` are rejected. */
  lemma ParseStringUnsupportedEncodings(s: seq<Byte>, pos: nat)
    requires pos < |s| && s[pos] >= 0xC3
    ensures ParseString(s, pos) == if s[pos] == 0xC3 then Err(IntegerEncodingUnsupported) else Err(UnknownStringEncoding(s[pos]))
  {
  }

  /** A metadata field: a string, or an integer in one of the encodings that need
      no padding. */
  datatype Field = Text(text: string) | Int8(small: int) | Int32(number: int)

  predicate ValidField(f: Field) {
    match f
    case Text(str) => ShortAscii(str)
    case Int8(v) => -128 <= v < 128
    case Int32(v) => -TWO_31 <= v < TWO_31
  }

  function EncodeField(f: Field): (bs: seq<Byte>)
    requires ValidField(f)
  {
    Pow256Values();
    match f
    case Text(str) => EncodeString(str)
    case Int8(v) => [0xC0, TwosComplement(v, 1)]
    case Int32(v) => [0xC2] + ToLittleEndian(TwosComplement(v, 4), 4)
  }

  /** The text `parseString` gives for a field. */
  function FieldText(f: Field): string {
    match f
    case Text(str) => str
    case Int8(v) => IntToString(v)
    case Int32(v) => IntToString(v)
  }

  lemma ParseFieldRoundTrip(s: seq<Byte>, pos: nat, f: Field, end: nat)
    requires ValidField(f) && At(s, pos, EncodeField(f)) && end == pos + |EncodeField(f)|
    ensures ParseString(s, pos) == Ok((FieldText(f), end))
  {
    Pow256Values();
    match f
    case Text(str) => ParseStringRoundTrip(s, pos, str, end);
    case Int8(v) => ParseStringInt8(s, pos, v);
    case Int32(v) => ParseStringInt32(s, pos, v);
  }

  // ---------------------------------------------------------------------------
  // Records

  /** An expiry in milliseconds, the form the writer uses. */
  function EncodeExpiry(e: int): (bs: seq<Byte>)
    requires LONG_MIN <= e <= LONG_MAX
    ensures |bs| == 9
  {
    Pow256Values();
    [EXPIRE_MILLISECONDS_MARKER] + ToLittleEndian(TwosComplement(e, 8), 8)
  }

  predicate ValidExpiry(expiry: Option<int>) {
    expiry.Some? ==> LONG_MIN <= expiry.value <= LONG_MAX
  }

  /** The head of a string record: its expiry, if any, and the value type. */
  function EncodeHead(expiry: Option<int>): (bs: seq<Byte>)
    requires ValidExpiry(expiry)
    ensures |bs| == if expiry.Some? then 10 else 1
  {
    (if expiry.Some? then EncodeExpiry(expiry.value) else []) + [STRING_VALUE_TYPE]
  }

  /** Where the eight expiry bytes and the value type of a written head are. */
  lemma MillisHeadLayout(s: seq<Byte>, pos: nat, e: int)
    requires LONG_MIN <= e <= LONG_MAX && Pow256(8) == 0x1_0000_0000_0000_0000
    requires At(s, pos, EncodeHead(Some(e)))
    ensures pos + 10 <= |s| && s[pos] == EXPIRE_MILLISECONDS_MARKER && s[pos + 9] == STRING_VALUE_TYPE
    ensures At(s, pos + 1, ToLittleEndian(TwosComplement(e, 8), 8))
  {
    var w := ToLittleEndian(TwosComplement(e, 8), 8);
    assert EncodeHead(Some(e)) == [EXPIRE_MILLISECONDS_MARKER] + (w + [STRING_VALUE_TYPE]);
    AtConcat(s, pos, [EXPIRE_MILLISECONDS_MARKER], w + [STRING_VALUE_TYPE]);
    AtConcat(s, pos + 1, w, [STRING_VALUE_TYPE]);
    AtIndex(s, pos, [EXPIRE_MILLISECONDS_MARKER], 0);
    AtIndex(s, pos + 9, [STRING_VALUE_TYPE], 0);
  }

  /** An expiry in milliseconds (`0xFC`) is read back as it was written. */
  lemma ReadRecordTypeMillis(s: seq<Byte>, pos: nat, e: int)
    requires LONG_MIN <= e <= LONG_MAX && Pow256(8) == 0x1_0000_0000_0000_0000
    requires pos + 10 <= |s| && s[pos] == EXPIRE_MILLISECONDS_MARKER && s[pos + 9] == STRING_VALUE_TYPE
    requires At(s, pos + 1, ToLittleEndian(TwosComplement(e, 8), 8))
    ensures ReadRecordType(s, pos) == (Some(e), STRING_VALUE_TYPE, pos + 10)
  {
    var w := ToLittleEndian(TwosComplement(e, 8), 8);
    ReadBlockAt(s, pos + 1, w, 8);
    assert w[..8] == w && w + [] == w;
    GetRoundTrip(e, 8, []);
  }

  /** A record head is read back as it was written. */
  lemma ReadRecordTypeRoundTrip(s: seq<Byte>, pos: nat, expiry: Option<int>, p: nat)
    requires ValidExpiry(expiry) && At(s, pos, EncodeHead(expiry)) && p == pos + |EncodeHead(expiry)|
    ensures ReadRecordType(s, pos) == (expiry, STRING_VALUE_TYPE, p)
  {
    if expiry.Some? {
      Pow256Values();
      MillisHeadLayout(s, pos, expiry.value);
      ReadRecordTypeMillis(s, pos, expiry.value);
    } else {
      AtIndex(s, pos, EncodeHead(expiry), 0);
    }
  }

  /** An expiry in seconds (`0xFD`) is read back multiplied by 1000. */
  lemma ReadRecordTypeSeconds(s: seq<Byte>, pos: nat, seconds: int, valueType: Byte)
    requires -TWO_31 <= seconds < TWO_31 && Pow256(4) == TWO_32
    requires At(s, pos, [EXPIRE_SECONDS_MARKER] + (ToLittleEndian(TwosComplement(seconds, 4), 4) + [valueType]))
    ensures ReadRecordType(s, pos) == (Some(seconds * 1000), valueType, pos + 6)
  {
    var w := ToLittleEndian(TwosComplement(seconds, 4), 4);
    AtConcat(s, pos, [EXPIRE_SECONDS_MARKER], w + [valueType]);
    AtConcat(s, pos + 1, w, [valueType]);
    AtIndex(s, pos, [EXPIRE_SECONDS_MARKER], 0);
    AtIndex(s, pos + 5, [valueType], 0);
    ReadBlockAt(s, pos + 1, w, 4);
    assert w[..4] == w && w + [] == w;
    GetRoundTrip(seconds, 4, []);
  }

  predicate ValidRecord(r: Record) {
    ShortAscii(r.key) && ShortAscii(r.value) && ValidExpiry(r.expiry)
  }

  function EncodeRecord(r: Record): (bs: seq<Byte>)
    requires ValidRecord(r)
  {
    EncodeHead(r.expiry) + EncodeString(r.key) + EncodeString(r.value)
  }

  /** Where the key, the value and the end of a written record are. */
  lemma RecordLayout(s: seq<Byte>, pos: nat, r: Record, p: nat, q: nat, t: nat)
    requires ValidRecord(r) && At(s, pos, EncodeRecord(r))
    requires p == pos + |EncodeHead(r.expiry)| && q == p + |EncodeString(r.key)|
    requires t == pos + |EncodeRecord(r)|
    ensures At(s, pos, EncodeHead(r.expiry))
    ensures At(s, p, EncodeString(r.key))
    ensures At(s, q, EncodeString(r.value)) && t == q + |EncodeString(r.value)|
    ensures p <= q <= t <= |s|
  {
    var head, key, value := EncodeHead(r.expiry), EncodeString(r.key), EncodeString(r.value);
    AtConcat(s, pos, head + key, value);
    AtConcat(s, pos, head, key);
  }

  /** A record head, a key and a string value. */
  lemma ParseRecordOf(s: seq<Byte>, pos: nat, r: Record, p: nat, q: nat, t: nat)
    requires pos <= p <= |s| && q <= |s|
    requires ReadRecordType(s, pos) == (r.expiry, STRING_VALUE_TYPE, p)
    requires ParseString(s, p) == Ok((r.key, q)) && ParseString(s, q) == Ok((r.value, t))
    ensures ParseRecord(s, pos) == Ok((r, t))
  {
  }

  /** One record is read back as it was written. */
  lemma ParseRecordRoundTrip(s: seq<Byte>, pos: nat, r: Record, t: nat)
    requires ValidRecord(r) && At(s, pos, EncodeRecord(r)) && t == pos + |EncodeRecord(r)|
    ensures ParseRecord(s, pos) == Ok((r, t))
  {
    var p := pos + |EncodeHead(r.expiry)|;
    var q := p + |EncodeString(r.key)|;
    RecordLayout(s, pos, r, p, q, t);
    ReadRecordTypeRoundTrip(s, pos, r.expiry, p);
    ParseStringRoundTrip(s, p, r.key, q);
    ParseStringRoundTrip(s, q, r.value, t);
    ParseRecordOf(s, pos, r, p, q, t);
  }

  function EncodeRecords(recs: seq<Record>): seq<Byte>
    requires forall i :: 0 <= i < |recs| ==> ValidRecord(recs[i])
  {
    if recs == [] then [] else EncodeRecord(recs[0]) + EncodeRecords(recs[1..])
  }

  /** Where records written one after the other from `pos` end, if they are there. */
  function RecordsEnd(s: seq<Byte>, pos: nat, recs: seq<Record>): Option<nat>
    decreases |recs|
  {
    if recs == [] then Some(pos)
    else if ValidRecord(recs[0]) && At(s, pos, EncodeRecord(recs[0])) then
      RecordsEnd(s, pos + |EncodeRecord(recs[0])|, recs[1..])
    else None
  }

  /** Where the written records end. */
  lemma {:induction false} RecordsLayout(s: seq<Byte>, pos: nat, recs: seq<Record>)
    requires forall i :: 0 <= i < |recs| ==> ValidRecord(recs[i])
    requires At(s, pos, EncodeRecords(recs))
    ensures RecordsEnd(s, pos, recs) == Some(pos + |EncodeRecords(recs)|)
    decreases |recs|
  {
    if recs != [] {
      var first, rest := EncodeRecord(recs[0]), EncodeRecords(recs[1..]);
      assert EncodeRecords(recs) == first + rest;
      AtConcat(s, pos, first, rest);
      RecordsLayout(s, pos + |first|, recs[1..]);
    }
  }

  /** A record followed by the rest of a table. */
  lemma RecordsCons(s: seq<Byte>, pos: nat, n: int, rec: Record, q: nat, rest: seq<Record>, t: nat)
    requires pos <= |s| && q <= |s| && n > 0 && ParseRecord(s, pos) == Ok((rec, q))
    requires RecordsSpec(s, q, n - 1) == Ok((rest, t))
    ensures RecordsSpec(s, pos, n) == Ok(([rec] + rest, t))
  {
  }

  /** What a layout of one or more records says about the first of them. */
  lemma RecordsEndStep(s: seq<Byte>, pos: nat, recs: seq<Record>, q: nat, last: nat)
    requires recs != [] && RecordsEnd(s, pos, recs) == Some(last)
    requires ValidRecord(recs[0]) ==> q == pos + |EncodeRecord(recs[0])|
    ensures ValidRecord(recs[0]) && At(s, pos, EncodeRecord(recs[0]))
    ensures RecordsEnd(s, q, recs[1..]) == Some(last)
  {
  }

  /** Records laid out one after the other are read back as a table of that many. */
  lemma {:induction false} RecordsOfLayout(s: seq<Byte>, pos: nat, recs: seq<Record>, count: int, last: nat)
    requires pos <= |s| && last <= |s| && RecordsEnd(s, pos, recs) == Some(last) && count == |recs|
    ensures RecordsSpec(s, pos, count) == Ok((recs, last))
    decreases |recs|
  {
    if recs != [] {
      var q := pos + |EncodeRecord(recs[0])|;
      RecordsEndStep(s, pos, recs, q, last);
      ParseRecordRoundTrip(s, pos, recs[0], q);
      RecordsOfLayout(s, q, recs[1..], count - 1, last);
      RecordsCons(s, pos, count, recs[0], q, recs[1..], last);
      assert [recs[0]] + recs[1..] == recs;
    }
  }

  /** A hash table's records are read back in order when the count is theirs. */
  lemma RecordsRoundTrip(s: seq<Byte>, pos: nat, recs: seq<Record>, count: int, last: nat)
    requires forall i :: 0 <= i < |recs| ==> ValidRecord(recs[i])
    requires At(s, pos, EncodeRecords(recs)) && count == |recs| && last == pos + |EncodeRecords(recs)|
    ensures RecordsSpec(s, pos, count) == Ok((recs, last))
  {
    RecordsLayout(s, pos, recs);
    RecordsOfLayout(s, pos, recs, count, last);
  }

  // ---------------------------------------------------------------------------
  // Database sections

  predicate ValidSection(recs: seq<Record>) {
    |recs| < 0x4000 && forall i :: 0 <= i < |recs| ==> ValidRecord(recs[i])
  }

  /** How many of the records carry an expiry: the second size of a section. */
  function CountExpiring(recs: seq<Record>): (n: nat)
    ensures n <= |recs|
  {
    if recs == [] then 0 else (if recs[0].expiry.Some? then 1 else 0) + CountExpiring(recs[1..])
  }

  /** The size header of a section. */
  function EncodeTableSize(recs: seq<Record>): seq<Byte>
    requires |recs| < 0x4000
  {
    [HASH_TABLE_SIZE_MARKER] + EncodeLength(|recs|) + EncodeLength(CountExpiring(recs))
  }

  /** Database 0 holding `recs`. */
  function EncodeSection(recs: seq<Record>): seq<Byte>
    requires ValidSection(recs)
  {
    [DATABASE_MARKER, 0] + EncodeTableSize(recs) + EncodeRecords(recs)
  }

  /** The size header gives the number of records; the count of expiring keys
      after it is read and dropped. */
  lemma ParseHashTableSizeRoundTrip(s: seq<Byte>, pos: nat, recs: seq<Record>, q: nat)
    requires |recs| < 0x4000 && At(s, pos, EncodeTableSize(recs)) && q == pos + |EncodeTableSize(recs)|
    ensures ParseHashTableSize(s, pos) == Ok((|recs|, q))
  {
    var size, expiring := EncodeLength(|recs|), EncodeLength(CountExpiring(recs));
    AtConcat(s, pos, [HASH_TABLE_SIZE_MARKER] + size, expiring);
    AtConcat(s, pos, [HASH_TABLE_SIZE_MARKER], size);
    AtIndex(s, pos, [HASH_TABLE_SIZE_MARKER], 0);
    ParseSizeRoundTrip(s, pos + 1, |recs|);
    ParseSizeRoundTrip(s, pos + 1 + |size|, CountExpiring(recs));
  }

  /** Where the size header and the records of a written section are. */
  lemma SectionLayout(s: seq<Byte>, pos: nat, recs: seq<Record>, q: nat, next: nat)
    requires ValidSection(recs) && At(s, pos, EncodeSection(recs))
    requires q == pos + 2 + |EncodeTableSize(recs)| && next == pos + |EncodeSection(recs)|
    ensures pos + 2 <= |s| && s[pos] == DATABASE_MARKER
    ensures At(s, pos + 2, EncodeTableSize(recs))
    ensures At(s, q, EncodeRecords(recs)) && next == q + |EncodeRecords(recs)| <= |s|
  {
    var table := EncodeTableSize(recs);
    AtConcat(s, pos, [DATABASE_MARKER, 0] + table, EncodeRecords(recs));
    AtConcat(s, pos, [DATABASE_MARKER, 0], table);
    AtIndex(s, pos, [DATABASE_MARKER, 0], 0);
  }

  /** The size header and the records of a written section parse back. */
  lemma SectionParts(s: seq<Byte>, pos: nat, recs: seq<Record>, q: nat, next: nat)
    requires ValidSection(recs) && At(s, pos, EncodeSection(recs))
    requires q == pos + 2 + |EncodeTableSize(recs)| && next == pos + |EncodeSection(recs)|
    ensures pos + 2 <= |s| && s[pos] == DATABASE_MARKER && q <= next <= |s|
    ensures ParseHashTableSize(s, pos + 2) == Ok((|recs|, q))
    ensures RecordsSpec(s, q, |recs|) == Ok((recs, next))
  {
    SectionLayout(s, pos, recs, q, next);
    ParseHashTableSizeRoundTrip(s, pos + 2, recs, q);
    RecordsRoundTrip(s, q, recs, |recs|, next);
  }

  /** A section marker, a database index, a size header and that many records. */
  lemma SectionOf(s: seq<Byte>, pos: nat, size: int, q: nat, recs: seq<Record>, t: nat)
    requires pos + 2 <= |s| && s[pos] == DATABASE_MARKER && q <= |s| && t <= |s|
    requires ParseHashTableSize(s, pos + 2) == Ok((size, q)) && RecordsSpec(s, q, size) == Ok((recs, t))
    ensures DatabasesSpec(s, pos) == Then(recs, DatabasesSpec(s, t))
  {
  }

  /** A written section is read as its records followed by whatever comes next. */
  lemma SectionRoundTrip(s: seq<Byte>, pos: nat, recs: seq<Record>, next: nat)
    requires ValidSection(recs) && At(s, pos, EncodeSection(recs)) && next == pos + |EncodeSection(recs)|
    ensures next <= |s| && DatabasesSpec(s, pos) == Then(recs, DatabasesSpec(s, next))
  {
    var q := pos + 2 + |EncodeTableSize(recs)|;
    SectionParts(s, pos, recs, q, next);
    SectionOf(s, pos, |recs|, q, recs, next);
  }

  function EncodeSections(sections: seq<seq<Record>>): seq<Byte>
    requires forall i :: 0 <= i < |sections| ==> ValidSection(sections[i])
  {
    if sections == [] then [] else EncodeSection(sections[0]) + EncodeSections(sections[1..])
  }

  /** The records of all sections, in order. */
  function Flatten(sections: seq<seq<Record>>): seq<Record> {
    if sections == [] then [] else sections[0] + Flatten(sections[1..])
  }

  /** Where sections written one after the other from `pos`, and the end marker
      after them, end, if they are there. */
  function SectionsEnd(s: seq<Byte>, pos: nat, sections: seq<seq<Record>>): Option<nat>
    decreases |sections|
  {
    if sections == [] then (if pos < |s| && s[pos] == EOF_MARKER then Some(pos + 1) else None)
    else if ValidSection(sections[0]) && At(s, pos, EncodeSection(sections[0])) then
      SectionsEnd(s, pos + |EncodeSection(sections[0])|, sections[1..])
    else None
  }

  /** The first of several written sections, and the rest after it. */
  lemma SectionsAtStep(s: seq<Byte>, pos: nat, sections: seq<seq<Record>>)
    requires sections != [] && forall i :: 0 <= i < |sections| ==> ValidSection(sections[i])
    requires At(s, pos, EncodeSections(sections) + [EOF_MARKER])
    ensures At(s, pos, EncodeSection(sections[0]))
    ensures At(s, pos + |EncodeSection(sections[0])|, EncodeSections(sections[1..]) + [EOF_MARKER])
  {
    var first, rest := EncodeSection(sections[0]), EncodeSections(sections[1..]);
    AtConcatRest(s, pos, EncodeSections(sections), first, rest, [EOF_MARKER]);
  }

  lemma SectionsEndCons(s: seq<Byte>, pos: nat, sections: seq<seq<Record>>, last: nat)
    requires sections != [] && ValidSection(sections[0]) && At(s, pos, EncodeSection(sections[0]))
    requires SectionsEnd(s, pos + |EncodeSection(sections[0])|, sections[1..]) == Some(last)
    ensures SectionsEnd(s, pos, sections) == Some(last)
  {
  }

  /** Where written sections end. */
  lemma {:induction false} SectionsLayout(s: seq<Byte>, pos: nat, sections: seq<seq<Record>>)
    requires forall i :: 0 <= i < |sections| ==> ValidSection(sections[i])
    requires At(s, pos, EncodeSections(sections) + [EOF_MARKER])
    ensures SectionsEnd(s, pos, sections) == Some(pos + |EncodeSections(sections)| + 1)
    decreases |sections|
  {
    if sections == [] {
      assert EncodeSections(sections) + [EOF_MARKER] == [EOF_MARKER];
      AtIndex(s, pos, [EOF_MARKER], 0);
    } else {
      var next := pos + |EncodeSection(sections[0])|;
      SectionsAtStep(s, pos, sections);
      SectionsLayout(s, next, sections[1..]);
      SectionsEndCons(s, pos, sections, next + |EncodeSections(sections[1..])| + 1);
    }
  }

  /** What a layout of one or more sections says about the first of them. */
  lemma SectionsEndStep(s: seq<Byte>, pos: nat, sections: seq<seq<Record>>, next: nat, last: nat)
    requires sections != [] && SectionsEnd(s, pos, sections) == Some(last)
    requires ValidSection(sections[0]) ==> next == pos + |EncodeSection(sections[0])|
    ensures ValidSection(sections[0]) && At(s, pos, EncodeSection(sections[0]))
    ensures SectionsEnd(s, next, sections[1..]) == Some(last)
  {
  }

  /** The end marker alone is read as no records. */
  lemma DatabasesEnd(s: seq<Byte>, pos: nat, last: nat)
    requires SectionsEnd(s, pos, []) == Some(last)
    ensures DatabasesSpec(s, pos) == Ok(([], last))
  {
  }

  /** Sections laid out one after the other up to the end marker are read back as
      all their records. */
  lemma {:induction false} DatabasesOfLayout(s: seq<Byte>, pos: nat, sections: seq<seq<Record>>, last: nat)
    requires pos <= |s| && SectionsEnd(s, pos, sections) == Some(last)
    ensures DatabasesSpec(s, pos) == Ok((Flatten(sections), last))
    decreases |sections|
  {
    if sections == [] {
      DatabasesEnd(s, pos, last);
    } else {
      var next := pos + |EncodeSection(sections[0])|;
      SectionsEndStep(s, pos, sections, next, last);
      SectionRoundTrip(s, pos, sections[0], next);
      DatabasesOfLayout(s, next, sections[1..], last);
    }
  }

  /** Sections ended by the end marker are read back as all their records, in file
      order; the cursor stops just past the marker. */
  lemma DatabasesRoundTrip(s: seq<Byte>, pos: nat, sections: seq<seq<Record>>, last: nat)
    requires forall i :: 0 <= i < |sections| ==> ValidSection(sections[i])
    requires At(s, pos, EncodeSections(sections) + [EOF_MARKER]) && last == pos + |EncodeSections(sections)| + 1
    ensures DatabasesSpec(s, pos) == Ok((Flatten(sections), last))
  {
    SectionsLayout(s, pos, sections);
    DatabasesOfLayout(s, pos, sections, last);
  }

  // ---------------------------------------------------------------------------
  // Metadata, the header and whole files

  predicate ValidPair(pair: (Field, Field)) {
    ValidField(pair.0) && ValidField(pair.1)
  }

  predicate ValidMetadata(pairs: seq<(Field, Field)>) {
    forall i :: 0 <= i < |pairs| ==> ValidPair(pairs[i])
  }

  /** One name/value pair after the `0xFA` marker. */
  function EncodePair(pair: (Field, Field)): seq<Byte>
    requires ValidPair(pair)
  {
    [METADATA_MARKER] + EncodeField(pair.0) + EncodeField(pair.1)
  }

  function EncodeMetadata(pairs: seq<(Field, Field)>): seq<Byte>
    requires ValidMetadata(pairs)
  {
    if pairs == [] then [] else EncodePair(pairs[0]) + EncodeMetadata(pairs[1..])
  }

  /** Where the name and the value of a written pair are. */
  lemma PairLayout(s: seq<Byte>, pos: nat, pair: (Field, Field), q: nat, t: nat)
    requires ValidPair(pair) && At(s, pos, EncodePair(pair))
    requires q == pos + 1 + |EncodeField(pair.0)| && t == pos + |EncodePair(pair)|
    ensures pos < |s| && s[pos] == METADATA_MARKER
    ensures At(s, pos + 1, EncodeField(pair.0))
    ensures At(s, q, EncodeField(pair.1)) && t == q + |EncodeField(pair.1)|
  {
    var name, value := EncodeField(pair.0), EncodeField(pair.1);
    AtConcat(s, pos, [METADATA_MARKER] + name, value);
    AtConcat(s, pos, [METADATA_MARKER], name);
    AtIndex(s, pos, [METADATA_MARKER], 0);
  }

  /** A metadata marker and two strings are skipped. */
  lemma MetadataStep(s: seq<Byte>, pos: nat)
    requires pos < |s| && s[pos] == METADATA_MARKER
    requires ParseString(s, ReadByte(s, pos).1).Ok?
    requires ParseString(s, ParseString(s, ReadByte(s, pos).1).value.1).Ok?
    ensures MetadataSpec(s, pos)
      == MetadataSpec(s, ParseString(s, ParseString(s, ReadByte(s, pos).1).value.1).value.1)
  {
  }

  /** The name and the value of a written pair parse back. */
  lemma PairParts(s: seq<Byte>, pos: nat, pair: (Field, Field), q: nat, t: nat)
    requires ValidPair(pair) && At(s, pos, EncodePair(pair))
    requires q == pos + 1 + |EncodeField(pair.0)| && t == pos + |EncodePair(pair)|
    ensures pos < |s| && s[pos] == METADATA_MARKER && q <= t <= |s|
    ensures ParseString(s, pos + 1) == Ok((FieldText(pair.0), q))
    ensures ParseString(s, q) == Ok((FieldText(pair.1), t))
  {
    PairLayout(s, pos, pair, q, t);
    ParseFieldRoundTrip(s, pos + 1, pair.0, q);
    ParseFieldRoundTrip(s, q, pair.1, t);
  }

  /** A written pair is skipped. */
  lemma PairRoundTrip(s: seq<Byte>, pos: nat, pair: (Field, Field), t: nat)
    requires ValidPair(pair) && At(s, pos, EncodePair(pair)) && t == pos + |EncodePair(pair)|
    ensures t <= |s| && MetadataSpec(s, pos) == MetadataSpec(s, t)
  {
    var q := pos + 1 + |EncodeField(pair.0)|;
    PairParts(s, pos, pair, q, t);
    MetadataStep(s, pos);
  }

  /** Where written metadata ends, if it is there. */
  function MetadataEnd(s: seq<Byte>, pos: nat, pairs: seq<(Field, Field)>): Option<nat>
    decreases |pairs|
  {
    if pairs == [] then Some(pos)
    else if ValidPair(pairs[0]) && At(s, pos, EncodePair(pairs[0])) then
      MetadataEnd(s, pos + |EncodePair(pairs[0])|, pairs[1..])
    else None
  }

  /** Where written metadata ends. */
  lemma {:induction false} MetadataLayout(s: seq<Byte>, pos: nat, pairs: seq<(Field, Field)>)
    requires ValidMetadata(pairs) && At(s, pos, EncodeMetadata(pairs))
    ensures MetadataEnd(s, pos, pairs) == Some(pos + |EncodeMetadata(pairs)|)
    decreases |pairs|
  {
    if pairs != [] {
      var first, rest := EncodePair(pairs[0]), EncodeMetadata(pairs[1..]);
      assert EncodeMetadata(pairs) == first + rest;
      AtConcat(s, pos, first, rest);
      MetadataLayout(s, pos + |first|, pairs[1..]);
    }
  }

  /** What a layout of one or more pairs says about the first of them. */
  lemma MetadataEndStep(s: seq<Byte>, pos: nat, pairs: seq<(Field, Field)>, t: nat, last: nat)
    requires pairs != [] && MetadataEnd(s, pos, pairs) == Some(last)
    requires ValidPair(pairs[0]) ==> t == pos + |EncodePair(pairs[0])|
    ensures ValidPair(pairs[0]) && At(s, pos, EncodePair(pairs[0]))
    ensures MetadataEnd(s, t, pairs[1..]) == Some(last)
  {
  }

  /** A section or the end marker ends the metadata. */
  lemma MetadataEndsAtMarker(s: seq<Byte>, pos: nat)
    requires pos < |s| && (s[pos] == DATABASE_MARKER || s[pos] == EOF_MARKER)
    ensures MetadataSpec(s, pos) == Ok(pos)
  {
  }

  /** Metadata laid out up to a section or the end marker is skipped in full. */
  lemma {:induction false} MetadataOfLayout(s: seq<Byte>, pos: nat, pairs: seq<(Field, Field)>, last: nat)
    requires pos <= |s| && MetadataEnd(s, pos, pairs) == Some(last)
    requires last < |s| && (s[last] == DATABASE_MARKER || s[last] == EOF_MARKER)
    ensures MetadataSpec(s, pos) == Ok(last)
    decreases |pairs|
  {
    if pairs == [] {
      MetadataEndsAtMarker(s, pos);
    } else {
      var t := pos + |EncodePair(pairs[0])|;
      MetadataEndStep(s, pos, pairs, t, last);
      PairRoundTrip(s, pos, pairs[0], t);
      MetadataOfLayout(s, t, pairs[1..], last);
    }
  }

  /** Metadata followed by a section or the end marker is skipped in full, and the
      marker after it is left for the sections. */
  lemma MetadataRoundTrip(s: seq<Byte>, pos: nat, pairs: seq<(Field, Field)>, last: nat)
    requires ValidMetadata(pairs) && At(s, pos, EncodeMetadata(pairs)) && last == pos + |EncodeMetadata(pairs)|
    requires last < |s| && (s[last] == DATABASE_MARKER || s[last] == EOF_MARKER)
    ensures MetadataSpec(s, pos) == Ok(last)
  {
    MetadataLayout(s, pos, pairs);
    MetadataOfLayout(s, pos, pairs, last);
  }

  /** The magic string and the version, as bytes. */
  const HEADER: seq<Byte> := WriteBytes("REDIS0011")

  lemma HeaderHalves()
    ensures |HEADER| == 9 && HEADER[..5] == WriteBytes("REDIS") && HEADER[5..] == WriteBytes("0011")
  {
  }

  /** A header that is there is accepted. */
  lemma ParseHeaderOfHeader(s: seq<Byte>, pos: nat)
    requires At(s, pos, HEADER)
    ensures ParseHeader(s, pos) == Ok(pos + 9)
  {
    HeaderHalves();
    AtConcat(s, pos, HEADER[..5], HEADER[5..]);
    ReadBlockAt(s, pos, HEADER[..5], 5);
    ReadBlockAt(s, pos + 5, HEADER[5..], 4);
    StringOfWrittenBytes("REDIS");
    StringOfWrittenBytes("0011");
  }

  /** A header that is accepted is there. */
  lemma HeaderOfParseHeader(s: seq<Byte>, pos: nat)
    requires pos <= |s| && ParseHeader(s, pos).Ok?
    ensures At(s, pos, HEADER)
  {
    var magic := ReadBlock(s, pos, 5);
    var version := ReadBlock(s, magic.next, 4);
    HeaderBlocksAreFull(s, pos, magic, version);
    WrittenStringOfBytes(magic.buf);
    WrittenStringOfBytes(version.buf);
    HeaderHalves();
    assert s[pos..pos + 9] == magic.buf + version.buf;
    AtOfSlice(s, pos, HEADER);
  }

  /** The header is accepted exactly when the nine bytes at the cursor are
      `REDIS0011`, and the cursor is then past them. */
  lemma ParseHeaderAccepts(s: seq<Byte>, pos: nat)
    requires pos <= |s|
    ensures ParseHeader(s, pos).Ok? <==> At(s, pos, HEADER)
    ensures ParseHeader(s, pos).Ok? ==> ParseHeader(s, pos).value == pos + 9
  {
    if At(s, pos, HEADER) {
      ParseHeaderOfHeader(s, pos);
    }
    if ParseHeader(s, pos).Ok? {
      HeaderOfParseHeader(s, pos);
    }
  }

  /** A whole file: header, metadata, sections and the end marker. The checksum
      that follows is not part of it, since the reader skips it unread. */
  function EncodeSnapshot(metadata: seq<(Field, Field)>, sections: seq<seq<Record>>): seq<Byte>
    requires ValidMetadata(metadata)
    requires forall i :: 0 <= i < |sections| ==> ValidSection(sections[i])
  {
    HEADER + EncodeMetadata(metadata) + EncodeSections(sections) + [EOF_MARKER]
  }

  /** Where the parts of bytes laid out one after the other are. */
  lemma PartsAt(s: seq<Byte>, h: seq<Byte>, m: seq<Byte>, b: seq<Byte>, c: seq<Byte>)
    requires s == h + m + b + c
    ensures At(s, 0, h) && At(s, |h|, m) && At(s, |h| + |m|, b)
  {
    assert s == h + (m + (b + c));
    assert s[..|h|] == h;
    assert s[|h|..|h| + |m|] == m;
    assert s[|h| + |m|..|h| + |m| + |b|] == b;
    AtOfSlice(s, 0, h);
    AtOfSlice(s, |h|, m);
    AtOfSlice(s, |h| + |m|, b);
  }

  /** Written sections start with a section marker, or are just the end marker. */
  lemma SectionsStart(sections: seq<seq<Record>>)
    requires forall i :: 0 <= i < |sections| ==> ValidSection(sections[i])
    ensures (EncodeSections(sections) + [EOF_MARKER])[0] in {DATABASE_MARKER, EOF_MARKER}
  {
    if sections != [] {
      assert (EncodeSections(sections) + [EOF_MARKER])[0] == EncodeSection(sections[0])[0];
    }
  }

  /** Where the metadata and the sections of a written file are. */
  lemma SnapshotLayout(s: seq<Byte>, metadata: seq<(Field, Field)>, sections: seq<seq<Record>>,
                       checksum: seq<Byte>) returns (m: nat)
    requires ValidMetadata(metadata)
    requires forall i :: 0 <= i < |sections| ==> ValidSection(sections[i])
    requires s == EncodeSnapshot(metadata, sections) + checksum
    ensures At(s, 0, HEADER) && At(s, 9, EncodeMetadata(metadata)) && m == 9 + |EncodeMetadata(metadata)|
    ensures At(s, m, EncodeSections(sections) + [EOF_MARKER])
    ensures m < |s| && (s[m] == DATABASE_MARKER || s[m] == EOF_MARKER)
    ensures m + |EncodeSections(sections)| + 1 == |EncodeSnapshot(metadata, sections)|
  {
    var meta, body := EncodeMetadata(metadata), EncodeSections(sections) + [EOF_MARKER];
    HeaderHalves();
    assert EncodeSnapshot(metadata, sections) == HEADER + meta + body;
    PartsAt(s, HEADER, meta, body, checksum);
    m := 9 + |meta|;
    SectionsStart(sections);
    AtIndex(s, m, body, 0);
  }

  /** `getEntries` reads back, in file order, every record a file was written
      with, whatever checksum follows the end marker. */
  lemma SnapshotRoundTrip(metadata: seq<(Field, Field)>, sections: seq<seq<Record>>, checksum: seq<Byte>)
    requires ValidMetadata(metadata)
    requires forall i :: 0 <= i < |sections| ==> ValidSection(sections[i])
    ensures SnapshotRecords(EncodeSnapshot(metadata, sections) + checksum)
      == Ok((Flatten(sections), |EncodeSnapshot(metadata, sections)|))
  {
    var s := EncodeSnapshot(metadata, sections) + checksum;
    var m := SnapshotLayout(s, metadata, sections, checksum);
    ParseHeaderOfHeader(s, 0);
    MetadataRoundTrip(s, 9, metadata, m);
    DatabasesRoundTrip(s, m, sections, |EncodeSnapshot(metadata, sections)|);
  }

  lemma SnapshotEntries(metadata: seq<(Field, Field)>, sections: seq<seq<Record>>, checksum: seq<Byte>)
    requires ValidMetadata(metadata)
    requires forall i :: 0 <= i < |sections| ==> ValidSection(sections[i])
    ensures GetEntriesSpec(EncodeSnapshot(metadata, sections) + checksum) == Ok(Entries(Flatten(sections)))
  {
    SnapshotRoundTrip(metadata, sections, checksum);
  }

  /** `readValueFromKey` on a written file finds the first record with the key
      that has not expired at `now`. */
  lemma SnapshotLookup(metadata: seq<(Field, Field)>, sections: seq<seq<Record>>, checksum: seq<Byte>,
                       key: string, now: int)
    requires ValidMetadata(metadata)
    requires forall i :: 0 <= i < |sections| ==> ValidSection(sections[i])
    ensures LookupSpec(EncodeSnapshot(metadata, sections) + checksum, key, now)
      == Ok(FirstLive(Flatten(sections), key, now))
  {
    SnapshotRoundTrip(metadata, sections, checksum);
    LookupAgreesWithEntries(EncodeSnapshot(metadata, sections) + checksum, key, now);
  }

  // ---------------------------------------------------------------------------
  // The empty snapshot sent to replicas

  /** The file a master sends after `FULLRESYNC` (base64-decoded): the header,
      five metadata pairs for version 7.2.0, no sections, the end marker and a
      checksum, written here field by field. */
  const EMPTY_SNAPSHOT_HEADER: seq<Byte> := [0x52, 0x45, 0x44, 0x49, 0x53, 0x30, 0x30, 0x31, 0x31]
  const EMPTY_SNAPSHOT_VERSION: seq<Byte> := [0xFA, 0x09, 0x72, 0x65, 0x64, 0x69, 0x73, 0x2D, 0x76, 0x65, 0x72, 0x05, 0x37, 0x2E, 0x32, 0x2E, 0x30]
  const EMPTY_SNAPSHOT_BITS: seq<Byte> := [0xFA, 0x0A, 0x72, 0x65, 0x64, 0x69, 0x73, 0x2D, 0x62, 0x69, 0x74, 0x73, 0xC0, 0x40]
  const EMPTY_SNAPSHOT_CTIME: seq<Byte> := [0xFA, 0x05, 0x63, 0x74, 0x69, 0x6D, 0x65, 0xC2, 0x6D, 0x08, 0xBC, 0x65]
  const EMPTY_SNAPSHOT_USED_MEM: seq<Byte> := [0xFA, 0x08, 0x75, 0x73, 0x65, 0x64, 0x2D, 0x6D, 0x65, 0x6D, 0xC2, 0xB0, 0xC4, 0x10, 0x00]
  const EMPTY_SNAPSHOT_AOF_BASE: seq<Byte> := [0xFA, 0x08, 0x61, 0x6F, 0x66, 0x2D, 0x62, 0x61, 0x73, 0x65, 0xC0, 0x00]
  const EMPTY_SNAPSHOT_CHECKSUM: seq<Byte> := [0xF0, 0x6E, 0x3B, 0xFE, 0xC0, 0xFF, 0x5A, 0xA2]

  const EMPTY_SNAPSHOT: seq<Byte> :=
    EMPTY_SNAPSHOT_HEADER
    + (EMPTY_SNAPSHOT_VERSION + (EMPTY_SNAPSHOT_BITS + (EMPTY_SNAPSHOT_CTIME
        + (EMPTY_SNAPSHOT_USED_MEM + EMPTY_SNAPSHOT_AOF_BASE))))
    + [EOF_MARKER] + EMPTY_SNAPSHOT_CHECKSUM

  /** Its metadata, field by field. */
  const EMPTY_SNAPSHOT_METADATA: seq<(Field, Field)> := [
    (Text("redis-ver"), Text("7.2.0")),
    (Text("redis-bits"), Int8(64)),
    (Text("ctime"), Int32(0x65BC_086D)),
    (Text("used-mem"), Int32(0x0010_C4B0)),
    (Text("aof-base"), Int8(0))]

  lemma EmptySnapshotHeader()
    ensures EMPTY_SNAPSHOT_HEADER == HEADER
  {
  }

  /** A pair is the metadata marker, its name and its value. */
  lemma PairBytes(pair: (Field, Field), name: seq<Byte>, value: seq<Byte>)
    requires ValidPair(pair) && EncodeField(pair.0) == name && EncodeField(pair.1) == value
    ensures EncodePair(pair) == [METADATA_MARKER] + name + value
  {
  }

  // Each field and each metadata pair of the empty snapshot is written as its bytes.

  lemma EmptySnapshotVersionName()
    ensures ValidField(Text("redis-ver")) && EncodeField(Text("redis-ver")) == [0x09, 0x72, 0x65, 0x64, 0x69, 0x73, 0x2D, 0x76, 0x65, 0x72]
  {
  }

  lemma EmptySnapshotVersionValue()
    ensures ValidField(Text("7.2.0")) && EncodeField(Text("7.2.0")) == [0x05, 0x37, 0x2E, 0x32, 0x2E, 0x30]
  {
  }

  lemma EmptySnapshotVersion()
    ensures ValidPair(EMPTY_SNAPSHOT_METADATA[0])
    ensures EncodePair(EMPTY_SNAPSHOT_METADATA[0]) == EMPTY_SNAPSHOT_VERSION
  {
    EmptySnapshotVersionName();
    EmptySnapshotVersionValue();
    PairBytes(EMPTY_SNAPSHOT_METADATA[0], [0x09, 0x72, 0x65, 0x64, 0x69, 0x73, 0x2D, 0x76, 0x65, 0x72], [0x05, 0x37, 0x2E, 0x32, 0x2E, 0x30]);
  }

  lemma EmptySnapshotBitsName()
    ensures ValidField(Text("redis-bits")) && EncodeField(Text("redis-bits")) == [0x0A, 0x72, 0x65, 0x64, 0x69, 0x73, 0x2D, 0x62, 0x69, 0x74, 0x73]
  {
  }

  lemma EmptySnapshotBitsValue()
    ensures ValidField(Int8(64)) && EncodeField(Int8(64)) == [0xC0, 0x40]
  {
    Pow256Values();
  }

  lemma EmptySnapshotBits()
    ensures ValidPair(EMPTY_SNAPSHOT_METADATA[1])
    ensures EncodePair(EMPTY_SNAPSHOT_METADATA[1]) == EMPTY_SNAPSHOT_BITS
  {
    EmptySnapshotBitsName();
    EmptySnapshotBitsValue();
    PairBytes(EMPTY_SNAPSHOT_METADATA[1], [0x0A, 0x72, 0x65, 0x64, 0x69, 0x73, 0x2D, 0x62, 0x69, 0x74, 0x73], [0xC0, 0x40]);
  }

  lemma EmptySnapshotCtimeName()
    ensures ValidField(Text("ctime")) && EncodeField(Text("ctime")) == [0x05, 0x63, 0x74, 0x69, 0x6D, 0x65]
  {
  }

  lemma EmptySnapshotCtimeValue()
    ensures ValidField(Int32(0x65BC_086D)) && EncodeField(Int32(0x65BC_086D)) == [0xC2, 0x6D, 0x08, 0xBC, 0x65]
  {
    Pow256Values();
  }

  lemma EmptySnapshotCtime()
    ensures ValidPair(EMPTY_SNAPSHOT_METADATA[2])
    ensures EncodePair(EMPTY_SNAPSHOT_METADATA[2]) == EMPTY_SNAPSHOT_CTIME
  {
    EmptySnapshotCtimeName();
    EmptySnapshotCtimeValue();
    PairBytes(EMPTY_SNAPSHOT_METADATA[2], [0x05, 0x63, 0x74, 0x69, 0x6D, 0x65], [0xC2, 0x6D, 0x08, 0xBC, 0x65]);
  }

  lemma EmptySnapshotUsedMemName()
    ensures ValidField(Text("used-mem")) && EncodeField(Text("used-mem")) == [0x08, 0x75, 0x73, 0x65, 0x64, 0x2D, 0x6D, 0x65, 0x6D]
  {
  }

  lemma EmptySnapshotUsedMemValue()
    ensures ValidField(Int32(0x0010_C4B0)) && EncodeField(Int32(0x0010_C4B0)) == [0xC2, 0xB0, 0xC4, 0x10, 0x00]
  {
    Pow256Values();
  }

  lemma EmptySnapshotUsedMem()
    ensures ValidPair(EMPTY_SNAPSHOT_METADATA[3])
    ensures EncodePair(EMPTY_SNAPSHOT_METADATA[3]) == EMPTY_SNAPSHOT_USED_MEM
  {
    EmptySnapshotUsedMemName();
    EmptySnapshotUsedMemValue();
    PairBytes(EMPTY_SNAPSHOT_METADATA[3], [0x08, 0x75, 0x73, 0x65, 0x64, 0x2D, 0x6D, 0x65, 0x6D], [0xC2, 0xB0, 0xC4, 0x10, 0x00]);
  }

  lemma EmptySnapshotAofBaseName()
    ensures ValidField(Text("aof-base")) && EncodeField(Text("aof-base")) == [0x08, 0x61, 0x6F, 0x66, 0x2D, 0x62, 0x61, 0x73, 0x65]
  {
  }

  lemma EmptySnapshotAofBaseValue()
    ensures ValidField(Int8(0)) && EncodeField(Int8(0)) == [0xC0, 0x00]
  {
    Pow256Values();
  }

  lemma EmptySnapshotAofBase()
    ensures ValidPair(EMPTY_SNAPSHOT_METADATA[4])
    ensures EncodePair(EMPTY_SNAPSHOT_METADATA[4]) == EMPTY_SNAPSHOT_AOF_BASE
  {
    EmptySnapshotAofBaseName();
    EmptySnapshotAofBaseValue();
    PairBytes(EMPTY_SNAPSHOT_METADATA[4], [0x08, 0x61, 0x6F, 0x66, 0x2D, 0x62, 0x61, 0x73, 0x65], [0xC0, 0x00]);
  }

  /** The bytes are a written file with that metadata and no sections. */
  lemma EmptySnapshotIsWritten()
    ensures ValidMetadata(EMPTY_SNAPSHOT_METADATA)
    ensures EMPTY_SNAPSHOT == EncodeSnapshot(EMPTY_SNAPSHOT_METADATA, []) + EMPTY_SNAPSHOT_CHECKSUM
  {
    var m := EMPTY_SNAPSHOT_METADATA;
    EmptySnapshotHeader();
    EmptySnapshotVersion();
    EmptySnapshotBits();
    EmptySnapshotCtime();
    EmptySnapshotUsedMem();
    EmptySnapshotAofBase();
    assert m[4..][1..] == [];
    assert EncodeMetadata(m[4..]) == EMPTY_SNAPSHOT_AOF_BASE;
    assert m[3..][1..] == m[4..];
    assert m[2..][1..] == m[3..];
    assert m[1..][1..] == m[2..];
    assert EncodeMetadata(m) == EMPTY_SNAPSHOT_VERSION + (EMPTY_SNAPSHOT_BITS + (EMPTY_SNAPSHOT_CTIME
      + (EMPTY_SNAPSHOT_USED_MEM + EMPTY_SNAPSHOT_AOF_BASE)));
    assert EncodeSections([]) == [];
  }

  /** `getEntries` on the empty snapshot gives no entries, and
      `readValueFromKey` gives `null` for every key at every time. */
  lemma EmptySnapshotHasNoEntries(key: string, now: int)
    ensures GetEntriesSpec(EMPTY_SNAPSHOT) == Ok([])
    ensures LookupSpec(EMPTY_SNAPSHOT, key, now) == Ok(None)
  {
    EmptySnapshotIsWritten();
    SnapshotEntries(EMPTY_SNAPSHOT_METADATA, [], EMPTY_SNAPSHOT_CHECKSUM);
    SnapshotLookup(EMPTY_SNAPSHOT_METADATA, [], EMPTY_SNAPSHOT_CHECKSUM, key, now);
  }
}
