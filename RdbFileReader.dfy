/** The reader of RDB snapshot files, format version 0011: a `REDIS0011` header,
    `0xFA` metadata pairs, `0xFE` database sections each opened by an `0xFB`
    size header and holding records with optional `0xFC`/`0xFD` expiries, an
    `0xFF` end marker and an eight-byte checksum.

    The file is the byte sequence `s` read through a cursor. `(byte) in.read()`
    at the end of the file yields `(byte) -1`, which is the end marker `0xFF`;
    the cursor then stays where it is. `in.unread` puts the marker back, which
    here means the cursor does not move past it. */
module RdbFileReader {
  import opened JavaLang
  import opened ByteStreams

  const EOF_MARKER: Byte := 0xFF
  const DATABASE_MARKER: Byte := 0xFE
  const METADATA_MARKER: Byte := 0xFA
  const HASH_TABLE_SIZE_MARKER: Byte := 0xFB
  const EXPIRE_MILLISECONDS_MARKER: Byte := 0xFC
  const EXPIRE_SECONDS_MARKER: Byte := 0xFD
  const STRING_VALUE_TYPE: Byte := 0x00

  /** Every way the reader gives up. All of them are exceptions in the source. */
  datatype RdbError =
    | MissingMagic                              // the first five bytes are not `REDIS`
    | UnsupportedVersion                        // the next four are not `0011`
    | UnexpectedMetadataMarker(marker: Byte)
    | UnexpectedDatabaseMarker(marker: Byte)
    | UnexpectedHashTableSizeMarker(marker: Byte)
    | NegativeStringLength(length: int)         // `new byte[-1]` after a `10` length at end of file
    | IntegerEncodingUnsupported                // string encoding `0xC3`
    | UnknownStringEncoding(first: Byte)        // string encodings `0xC4`-`0xFF`
    | ShortIntegerRead(count: int)              // a little-endian reader got fewer than four bytes
    | UnsupportedSizeEncoding(first: Byte)      // every `11` size encoding
    | UnknownValueType(valueType: Byte)         // a value type other than string

  type Parsed<T> = Result<(T, nat), RdbError>

  /** One record of a hash table. `expiry` is `None` when no expiry marker precedes it. */
  datatype Record = Record(key: string, value: string, expiry: Option<int>)

  /** `RdbEntry`: the expiry time is 0 when the record has none. */
  datatype RdbEntry = RdbEntry(key: string, value: string, expiryTime: int)

  function ToEntry(r: Record): RdbEntry {
    RdbEntry(r.key, r.value, if r.expiry.Some? then r.expiry.value else 0)
  }

  function Entries(recs: seq<Record>): (es: seq<RdbEntry>)
    ensures |es| == |recs|
    ensures forall i :: 0 <= i < |recs| ==> es[i] == ToEntry(recs[i])
  {
    if recs == [] then [] else [ToEntry(recs[0])] + Entries(recs[1..])
  }

  // ---------------------------------------------------------------------------
  // The stream

  /** `(byte) in.read()`, as an unsigned byte: 0xFF at the end of the file. */
  function ReadByte(s: seq<Byte>, pos: nat): (r: (Byte, nat))
    requires pos <= |s|
    ensures pos <= r.1 <= |s|
  {
    if pos == |s| then (EOF_MARKER, pos) else (s[pos], pos + 1)
  }

  /** The result of `in.read(buf, 0, n)` on a fresh `byte[n]`. */
  datatype Block = Block(buf: seq<Byte>, count: int, next: nat)

  /** `in.read(buf, 0, n)`: the available bytes up to n are copied, the rest of the
      buffer stays zero; the count is the number copied, -1 at the end of the file,
      and 0 when nothing was asked for. */
  function ReadBlock(s: seq<Byte>, pos: nat, n: nat): (b: Block)
    requires pos <= |s|
    ensures |b.buf| == n && pos <= b.next <= |s|
    ensures b.count == if n == 0 then 0 else if pos == |s| then -1 else b.next - pos
  {
    var k := if |s| - pos < n then |s| - pos else n;
    var buf := seq(n, i requires 0 <= i < n => if pos + i < |s| then s[pos + i] else 0);
    Block(buf, if n == 0 then 0 else if k == 0 then -1 else k, pos + k)
  }

  /** With n bytes of `w` at the cursor, a block read of n gets exactly them. */
  lemma ReadBlockAt(s: seq<Byte>, pos: nat, w: seq<Byte>, n: nat)
    requires At(s, pos, w) && 0 < n <= |w|
    ensures ReadBlock(s, pos, n) == Block(w[..n], n, pos + n)
  {
  }

  // ---------------------------------------------------------------------------
  // Little-endian integers

  function Pow256(n: nat): (p: nat)
    ensures p > 0
  {
    if n == 0 then 1 else 256 * Pow256(n - 1)
  }

  /** The unsigned value of `bs`, least significant byte first. */
  function LittleEndian(bs: seq<Byte>): (v: nat)
    ensures v < Pow256(|bs|)
  {
    if bs == [] then 0 else bs[0] + 256 * LittleEndian(bs[1..])
  }

  /** The two's complement reading of `u`, an unsigned value below `modulus`. */
  function Signed(u: int, modulus: int): (v: int)
    requires 0 <= u < modulus
    ensures -modulus <= 2 * v < modulus
    ensures v == u || v == u - modulus
  {
    if 2 * u >= modulus then u - modulus else u
  }

  /** The unsigned little-endian value of the first two, four or eight bytes. */
  function Unsigned16(bs: seq<Byte>): int
    requires |bs| >= 2
  {
    bs[0] as int + 0x100 * bs[1] as int
  }

  function Unsigned32(bs: seq<Byte>): int
    requires |bs| >= 4
  {
    bs[0] as int + 0x100 * bs[1] as int + 0x1_0000 * bs[2] as int + 0x100_0000 * bs[3] as int
  }

  function Unsigned64(bs: seq<Byte>): int
    requires |bs| >= 8
  {
    bs[0] as int + 0x100 * bs[1] as int + 0x1_0000 * bs[2] as int + 0x100_0000 * bs[3] as int
      + 0x1_0000_0000 * bs[4] as int + 0x100_0000_0000 * bs[5] as int
      + 0x1_0000_0000_0000 * bs[6] as int + 0x100_0000_0000_0000 * bs[7] as int
  }

  /** `ByteBuffer.wrap(bs).order(LITTLE_ENDIAN).getShort()`, `getInt()` and `getLong()`. */
  function GetShort(bs: seq<Byte>): int
    requires |bs| >= 2
  {
    Signed(Unsigned16(bs), 0x1_0000)
  }

  function GetInt(bs: seq<Byte>): int
    requires |bs| >= 4
  {
    Signed(Unsigned32(bs), 0x1_0000_0000)
  }

  function GetLong(bs: seq<Byte>): int
    requires |bs| >= 8
  {
    Signed(Unsigned64(bs), 0x1_0000_0000_0000_0000)
  }

  /** The n bytes of `v`, least significant first: the reference encoding. */
  function ToLittleEndian(v: nat, n: nat): (bs: seq<Byte>)
    requires v < Pow256(n)
    ensures |bs| == n
  {
    if n == 0 then [] else [v % 256] + ToLittleEndian(v / 256, n - 1)
  }

  /** Two's complement of `v` in n bytes. */
  function TwosComplement(v: int, n: nat): (u: nat)
    requires n > 0 && -(Pow256(n) as int) <= 2 * v < Pow256(n)
    ensures u < Pow256(n)
  {
    if v < 0 then v + Pow256(n) else v
  }

  lemma {:induction false} LittleEndianRoundTrip(v: nat, n: nat)
    requires v < Pow256(n)
    ensures LittleEndian(ToLittleEndian(v, n)) == v
    decreases n
  {
    if n > 0 {
      var bs := ToLittleEndian(v, n);
      assert bs[1..] == ToLittleEndian(v / 256, n - 1);
      LittleEndianRoundTrip(v / 256, n - 1);
    }
  }

  lemma LittleEndianUnfold(bs: seq<Byte>, k: nat)
    requires k < |bs|
    ensures LittleEndian(bs[k..]) == bs[k] + 256 * LittleEndian(bs[k + 1..])
  {
    assert bs[k..][1..] == bs[k + 1..];
  }

  /** Over two, four and eight bytes the reference value is the sum the readers take. */
  lemma LittleEndianOfWidth(bs: seq<Byte>)
    requires |bs| == 2 || |bs| == 4 || |bs| == 8
    ensures |bs| == 2 ==> LittleEndian(bs) == Unsigned16(bs)
    ensures |bs| == 4 ==> LittleEndian(bs) == Unsigned32(bs)
    ensures |bs| == 8 ==> LittleEndian(bs) == Unsigned64(bs)
  {
    var n := |bs|;
    assert bs[n..] == [];
    assert bs[0..] == bs;
    LittleEndianUnfold(bs, 0);
    LittleEndianUnfold(bs, 1);
    if n > 2 {
      LittleEndianUnfold(bs, 2);
      LittleEndianUnfold(bs, 3);
    }
    if n > 4 {
      LittleEndianUnfold(bs, 4);
      LittleEndianUnfold(bs, 5);
      LittleEndianUnfold(bs, 6);
      LittleEndianUnfold(bs, 7);
    }
  }

  lemma Pow256Values()
    ensures Pow256(2) == 0x1_0000 && Pow256(4) == 0x1_0000_0000 && Pow256(8) == 0x1_0000_0000_0000_0000
  {
  }

  /** `getShort`, `getInt` and `getLong` read back every value of their width from
      its little-endian two's complement bytes, whatever follows them. */
  lemma GetRoundTrip(v: int, n: nat, pad: seq<Byte>)
    requires n == 2 || n == 4 || n == 8
    requires -(Pow256(n) as int) <= 2 * v < Pow256(n)
    ensures n == 2 ==> GetShort(ToLittleEndian(TwosComplement(v, n), n) + pad) == v
    ensures n == 4 ==> GetInt(ToLittleEndian(TwosComplement(v, n), n) + pad) == v
    ensures n == 8 ==> GetLong(ToLittleEndian(TwosComplement(v, n), n) + pad) == v
  {
    Pow256Values();
    var bs := ToLittleEndian(TwosComplement(v, n), n);
    LittleEndianRoundTrip(TwosComplement(v, n), n);
    LittleEndianOfWidth(bs);
    assert forall k :: 0 <= k < n ==> (bs + pad)[k] == bs[k];
  }

  // ---------------------------------------------------------------------------
  // parseString, parseSize and their helpers

  /** `new byte[length]`, `in.read(data)`, `new String(data)`. */
  function ReadData(s: seq<Byte>, pos: nat, length: int): (r: Parsed<string>)
    requires pos <= |s|
    ensures r.Ok? ==> pos <= r.value.1 <= |s|
  {
    if length < 0 then Err(NegativeStringLength(length))
    else
      var b := ReadBlock(s, pos, length);
      Ok((StringOfBytes(b.buf), b.next))
  }

  /** `readLittleEndianShort`: four bytes are read, the first two are the value. */
  function ReadLittleEndianShort(s: seq<Byte>, pos: nat): (r: Parsed<int>)
    requires pos <= |s|
    ensures r.Ok? ==> r.value.1 == pos + 4 <= |s| && -0x8000 <= r.value.0 < 0x8000
  {
    var b := ReadBlock(s, pos, 4);
    if b.count != 4 then Err(ShortIntegerRead(b.count))
    else
      Ok((GetShort(b.buf), b.next))
  }

  /** `readLittleEndianInt`: four bytes as a signed `int`. */
  function ReadLittleEndianInt(s: seq<Byte>, pos: nat): (r: Parsed<int>)
    requires pos <= |s|
    ensures r.Ok? ==> r.value.1 == pos + 4 <= |s| && -TWO_31 <= r.value.0 < TWO_31
  {
    var b := ReadBlock(s, pos, 4);
    if b.count != 4 then Err(ShortIntegerRead(b.count))
    else
      Ok((GetInt(b.buf), b.next))
  }

  /** `parseString`: the top two bits of the first byte choose the encoding. `00` and
      `01` carry a 6- or 14-bit length; `10` takes as the length the number of bytes
      read into a four-byte buffer; `11` is an integer written as decimal text. */
  function ParseString(s: seq<Byte>, pos: nat): (r: Parsed<string>)
    requires pos <= |s|
    ensures r.Ok? ==> pos < r.value.1 <= |s|
  {
    var (first, p) := ReadByte(s, pos);
    var low := first % 64;
    if first / 64 == 0 then ReadData(s, p, low)
    else if first / 64 == 1 then
      var (second, q) := ReadByte(s, p);
      ReadData(s, q, low * 256 + second)
    else if first / 64 == 2 then
      var b := ReadBlock(s, p, 4);
      ReadData(s, b.next, b.count)
    else if low == 0 then
      var (v, q) := ReadByte(s, p);
      Ok((IntToString(Signed8(v)), q))
    else if low == 1 then
      match ReadLittleEndianShort(s, p)
      case Err(e) => Err(e)
      case Ok((v, q)) => Ok((IntToString(v), q))
    else if low == 2 then
      match ReadLittleEndianInt(s, p)
      case Err(e) => Err(e)
      case Ok((v, q)) => Ok((IntToString(v), q))
    else if low == 3 then Err(IntegerEncodingUnsupported)
    else Err(UnknownStringEncoding(first))
  }

  /** `parseSize`: like the lengths of `parseString`, except that `10` returns the
      number of bytes read (which may be -1 at the end of the file), and every `11`
      encoding falls through its `switch` to the error. */
  function ParseSize(s: seq<Byte>, pos: nat): (r: Parsed<int>)
    requires pos <= |s|
    ensures r.Ok? ==> pos < r.value.1 <= |s| && -1 <= r.value.0 < 0x4000
  {
    var (first, p) := ReadByte(s, pos);
    if first / 64 == 0 then Ok((first % 64, p))
    else if first / 64 == 1 then
      var (second, q) := ReadByte(s, p);
      Ok(((first % 64) * 256 + second, q))
    else if first / 64 == 2 then
      var b := ReadBlock(s, p, 4);
      Ok((b.count, b.next))
    else Err(UnsupportedSizeEncoding(first))
  }

  /** `parseHashTableSize`: the `0xFB` marker, the table size, and the number of
      keys with an expiry, which is read and dropped. */
  function ParseHashTableSize(s: seq<Byte>, pos: nat): (r: Parsed<int>)
    requires pos <= |s|
    ensures r.Ok? ==> pos < r.value.1 <= |s|
  {
    var (marker, p) := ReadByte(s, pos);
    if marker != HASH_TABLE_SIZE_MARKER then Err(UnexpectedHashTableSizeMarker(marker))
    else
      match ParseSize(s, p)
      case Err(e) => Err(e)
      case Ok((size, q)) =>
        match ParseSize(s, q)
        case Err(e) => Err(e)
        case Ok((_, t)) => Ok((size, t))
  }

  /** `parseExpire`: after `0xFC` a signed 8-byte little-endian time in milliseconds;
      after `0xFD` a signed 4-byte little-endian time in seconds, times 1000. The
      reads are not checked, so a short file leaves zero bytes in the buffer. */
  function ParseExpire(s: seq<Byte>, pos: nat, valueType: Byte): (r: (int, nat))
    requires pos <= |s|
    ensures pos <= r.1 <= |s|
  {
    if valueType == EXPIRE_MILLISECONDS_MARKER then
      var b := ReadBlock(s, pos, 8);
      (GetLong(b.buf), b.next)
    else
      var b := ReadBlock(s, pos, 4);
      (GetInt(b.buf) * 1000, b.next)
  }

  /** `parseValue`: only the string type is decoded. */
  function ParseValue(s: seq<Byte>, pos: nat, valueType: Byte): (r: Parsed<string>)
    requires pos <= |s|
    ensures r.Ok? ==> valueType == STRING_VALUE_TYPE && r == ParseString(s, pos)
    ensures valueType != STRING_VALUE_TYPE ==> r == Err(UnknownValueType(valueType))
  {
    if valueType == STRING_VALUE_TYPE then ParseString(s, pos) else Err(UnknownValueType(valueType))
  }

  /** `parseEndOfFile`: eight checksum bytes are read and ignored; it cannot fail. */
  function ParseEndOfFile(s: seq<Byte>, pos: nat): (next: nat)
    requires pos <= |s|
    ensures pos <= next <= |s|
  {
    ReadBlock(s, pos, 8).next
  }

  /** `parseHeader`: five bytes must spell `REDIS` and the next four `0011`. */
  function ParseHeader(s: seq<Byte>, pos: nat): (r: Result<nat, RdbError>)
    requires pos <= |s|
    ensures r.Ok? ==> r.value == pos + 9 <= |s|
  {
    var magic := ReadBlock(s, pos, 5);
    if StringOfBytes(magic.buf) != "REDIS" then Err(MissingMagic)
    else
      var version := ReadBlock(s, magic.next, 4);
      if StringOfBytes(version.buf) != "0011" then Err(UnsupportedVersion)
      else
        HeaderBlocksAreFull(s, pos, magic, version);
        Ok(version.next)
  }

  /** A header that compares equal was read in full: the padding bytes are zero and
      neither word contains a zero byte. */
  lemma HeaderBlocksAreFull(s: seq<Byte>, pos: nat, magic: Block, version: Block)
    requires pos <= |s| && magic == ReadBlock(s, pos, 5) && version == ReadBlock(s, magic.next, 4)
    requires StringOfBytes(magic.buf) == "REDIS" && StringOfBytes(version.buf) == "0011"
    ensures version.next == pos + 9 <= |s|
  {
    assert magic.buf[4] == StringOfBytes(magic.buf)[4] as int == 'S' as int;
    assert version.buf[3] == StringOfBytes(version.buf)[3] as int == '1' as int;
  }

  // ---------------------------------------------------------------------------
  // Records, metadata and database sections

  /** The head of a record: the type byte, or an expiry marker, its expiry time and
      then the type byte. */
  function ReadRecordType(s: seq<Byte>, pos: nat): (r: (Option<int>, Byte, nat))
    requires pos <= |s|
    ensures pos <= r.2 <= |s|
  {
    var (first, p) := ReadByte(s, pos);
    if first == EXPIRE_MILLISECONDS_MARKER || first == EXPIRE_SECONDS_MARKER then
      var (expiry, q) := ParseExpire(s, p, first);
      var (valueType, t) := ReadByte(s, q);
      (Some(expiry), valueType, t)
    else (None, first, p)
  }

  /** One pass of the hash-table loop: the record head, the key, then the value.
      The key is read before the value type is checked. */
  function ParseRecord(s: seq<Byte>, pos: nat): (r: Parsed<Record>)
    requires pos <= |s|
    ensures r.Ok? ==> pos < r.value.1 <= |s|
  {
    var (expiry, valueType, p) := ReadRecordType(s, pos);
    match ParseString(s, p)
    case Err(e) => Err(e)
    case Ok((key, q)) =>
      match ParseValue(s, q, valueType)
      case Err(e) => Err(e)
      case Ok((value, t)) => Ok((Record(key, value, expiry), t))
  }

  /** The `for (int i = 0; i < size; i++)` loop: `count` records, none when the
      count is negative. */
  function RecordsSpec(s: seq<Byte>, pos: nat, count: int): (r: Parsed<seq<Record>>)
    requires pos <= |s|
    ensures r.Ok? ==> pos <= r.value.1 <= |s| && |r.value.0| == if count < 0 then 0 else count
    decreases count
  {
    if count <= 0 then Ok(([], pos))
    else
      match ParseRecord(s, pos)
      case Err(e) => Err(e)
      case Ok((rec, q)) =>
        match RecordsSpec(s, q, count - 1)
        case Err(e) => Err(e)
        case Ok((recs, t)) => Ok(([rec] + recs, t))
  }

  /** `acc` in front of what `r` parsed. */
  function Then(acc: seq<Record>, r: Parsed<seq<Record>>): Parsed<seq<Record>> {
    match r
    case Err(e) => Err(e)
    case Ok((recs, t)) => Ok((acc + recs, t))
  }

  /** The loop of `parseDatabase`: sections until the end marker (or the end of the
      file). Each section is `0xFE`, the database index, the size header and that
      many records. */
  function DatabasesSpec(s: seq<Byte>, pos: nat): (r: Parsed<seq<Record>>)
    requires pos <= |s|
    ensures r.Ok? ==> pos <= r.value.1 <= |s|
    decreases |s| - pos
  {
    var (marker, p) := ReadByte(s, pos);
    if marker == EOF_MARKER then Ok(([], p))
    else if marker != DATABASE_MARKER then Err(UnexpectedDatabaseMarker(marker))
    else
      var (_, p1) := ReadByte(s, p);
      match ParseHashTableSize(s, p1)
      case Err(e) => Err(e)
      case Ok((size, q)) =>
        match RecordsSpec(s, q, size)
        case Err(e) => Err(e)
        case Ok((recs, t)) => Then(recs, DatabasesSpec(s, t))
  }

  /** The rest of the database sections from inside a hash table, with n records
      of it still to read. */
  function AfterRecords(s: seq<Byte>, pos: nat, n: int): Parsed<seq<Record>>
    requires pos <= |s|
  {
    match RecordsSpec(s, pos, n)
    case Err(e) => Err(e)
    case Ok((recs, t)) => Then(recs, DatabasesSpec(s, t))
  }

  /** The loop of `parseMetadata`: name/value pairs after `0xFA` markers, up to a
      database or end marker, which is pushed back. The result is where the
      sections start. */
  function MetadataSpec(s: seq<Byte>, pos: nat): (r: Result<nat, RdbError>)
    requires pos <= |s|
    ensures r.Ok? ==> pos <= r.value <= |s|
    ensures r.Ok? ==> r.value == |s| || s[r.value] == DATABASE_MARKER || s[r.value] == EOF_MARKER
    decreases |s| - pos
  {
    var (marker, p) := ReadByte(s, pos);
    if marker == DATABASE_MARKER || marker == EOF_MARKER then Ok(pos)
    else if marker != METADATA_MARKER then Err(UnexpectedMetadataMarker(marker))
    else
      match ParseString(s, p)
      case Err(e) => Err(e)
      case Ok((_, q)) =>
        match ParseString(s, q)
        case Err(e) => Err(e)
        case Ok((_, t)) => MetadataSpec(s, t)
  }

  /** Header, metadata and database sections of a whole file. */
  function SnapshotRecords(s: seq<Byte>): Parsed<seq<Record>> {
    match ParseHeader(s, 0)
    case Err(e) => Err(e)
    case Ok(p) =>
      match MetadataSpec(s, p)
      case Err(e) => Err(e)
      case Ok(q) => DatabasesSpec(s, q)
  }

  /** `getEntries`: every record of every section, in file order. The checksum
      read at the end cannot fail. */
  function GetEntriesSpec(s: seq<Byte>): Result<seq<RdbEntry>, RdbError> {
    match SnapshotRecords(s)
    case Err(e) => Err(e)
    case Ok((recs, _)) => Ok(Entries(recs))
  }

  // ---------------------------------------------------------------------------
  // Looking a key up

  /** A record that `readValueFromKey` returns for `key` at time `now`: the key is
      equal and the record has no expiry or one that is not before `now`. */
  predicate Matches(r: Record, key: string, now: int) {
    r.key == key && (r.expiry.None? || !(r.expiry.value < now))
  }

  /** The value of the first record that matches. */
  function FirstLive(recs: seq<Record>, key: string, now: int): (r: Option<string>)
    ensures r.None? <==> forall i :: 0 <= i < |recs| ==> !Matches(recs[i], key, now)
  {
    if recs == [] then None
    else if Matches(recs[0], key, now) then Some(recs[0].value)
    else FirstLive(recs[1..], key, now)
  }

  /** The value found is that of the first matching record. */
  lemma {:induction false} FirstLiveIsFirst(recs: seq<Record>, key: string, now: int) returns (i: nat)
    requires FirstLive(recs, key, now).Some?
    ensures i < |recs| && Matches(recs[i], key, now) && recs[i].value == FirstLive(recs, key, now).value
    ensures forall j :: 0 <= j < i ==> !Matches(recs[j], key, now)
  {
    if Matches(recs[0], key, now) {
      i := 0;
    } else {
      var k := FirstLiveIsFirst(recs[1..], key, now);
      i := k + 1;
      assert forall j :: 1 <= j < i ==> recs[j] == recs[1..][j - 1];
    }
  }

  /** The outcome of scanning one hash table for a key. */
  datatype Lookup = Found(value: string) | Continue(next: nat)

  /** The hash-table loop of `readValueFromKey`: it returns on the first match. */
  function LookupRecords(s: seq<Byte>, pos: nat, count: int, key: string, now: int): (r: Result<Lookup, RdbError>)
    requires pos <= |s|
    ensures r.Ok? && r.value.Continue? ==> pos <= r.value.next <= |s|
    decreases count
  {
    if count <= 0 then Ok(Continue(pos))
    else
      match ParseRecord(s, pos)
      case Err(e) => Err(e)
      case Ok((rec, q)) =>
        if Matches(rec, key, now) then Ok(Found(rec.value))
        else LookupRecords(s, q, count - 1, key, now)
  }

  /** The section loop of `readValueFromKey`; `None` is its `null`. */
  function LookupSections(s: seq<Byte>, pos: nat, key: string, now: int): (r: Result<Option<string>, RdbError>)
    requires pos <= |s|
    decreases |s| - pos, 0
  {
    var (marker, p) := ReadByte(s, pos);
    if marker == EOF_MARKER then Ok(None)
    else if marker != DATABASE_MARKER then Err(UnexpectedDatabaseMarker(marker))
    else
      var (_, p1) := ReadByte(s, p);
      match ParseHashTableSize(s, p1)
      case Err(e) => Err(e)
      case Ok((size, q)) => LookupAfter(s, q, size, key, now)
  }

  /** The rest of the lookup from inside a hash table with n records still to read. */
  function LookupAfter(s: seq<Byte>, pos: nat, n: int, key: string, now: int): Result<Option<string>, RdbError>
    requires pos <= |s|
    decreases |s| - pos, 1
  {
    match LookupRecords(s, pos, n, key, now)
    case Err(e) => Err(e)
    case Ok(Found(v)) => Ok(Some(v))
    case Ok(Continue(t)) => LookupSections(s, t, key, now)
  }

  /** `readValueFromKey(filePath, key)` with the clock reading `now`. */
  function LookupSpec(s: seq<Byte>, key: string, now: int): Result<Option<string>, RdbError> {
    match ParseHeader(s, 0)
    case Err(e) => Err(e)
    case Ok(p) =>
      match MetadataSpec(s, p)
      case Err(e) => Err(e)
      case Ok(q) => LookupSections(s, q, key, now)
  }

  lemma {:induction false} FirstLiveAppend(a: seq<Record>, b: seq<Record>, key: string, now: int)
    ensures FirstLive(a + b, key, now) == if FirstLive(a, key, now).Some? then FirstLive(a, key, now) else FirstLive(b, key, now)
  {
    if a != [] {
      assert (a + b)[0] == a[0] && (a + b)[1..] == a[1..] + b;
      FirstLiveAppend(a[1..], b, key, now);
    } else {
      assert a + b == b;
    }
  }

  lemma FirstLiveCons(rec: Record, recs: seq<Record>, key: string, now: int)
    ensures FirstLive([rec] + recs, key, now)
      == if Matches(rec, key, now) then Some(rec.value) else FirstLive(recs, key, now)
  {
    assert ([rec] + recs)[0] == rec && ([rec] + recs)[1..] == recs;
  }

  /** What a table scan reports for the records `recs` that end at `t`. */
  function ScanOutcome(recs: seq<Record>, t: nat, key: string, now: int): Result<Lookup, RdbError> {
    var found := FirstLive(recs, key, now);
    if found.Some? then Ok(Found(found.value)) else Ok(Continue(t))
  }

  /** Scanning one hash table finds the first matching record of the table, or
      ends where the records end. */
  lemma {:induction false} LookupRecordsAgree(s: seq<Byte>, pos: nat, count: int, key: string, now: int)
    requires pos <= |s| && RecordsSpec(s, pos, count).Ok?
    ensures LookupRecords(s, pos, count, key, now)
      == ScanOutcome(RecordsSpec(s, pos, count).value.0, RecordsSpec(s, pos, count).value.1, key, now)
    decreases count
  {
    if count > 0 {
      var (rec, q) := ParseRecord(s, pos).value;
      RecordsStep(s, pos, count);
      LookupRecordsStep(s, pos, count, key, now);
      var (recs, t) := RecordsSpec(s, q, count - 1).value;
      assert RecordsSpec(s, pos, count).value == ([rec] + recs, t);
      LookupRecordsAgree(s, q, count - 1, key, now);
      FirstLiveCons(rec, recs, key, now);
    }
  }

  /** Over well-formed sections the lookup gives the first matching record. */
  lemma {:induction false} LookupSectionsAgree(s: seq<Byte>, pos: nat, key: string, now: int)
    requires pos <= |s| && DatabasesSpec(s, pos).Ok?
    ensures LookupSections(s, pos, key, now) == Ok(FirstLive(DatabasesSpec(s, pos).value.0, key, now))
    decreases |s| - pos
  {
    var (marker, p) := ReadByte(s, pos);
    if marker == DATABASE_MARKER {
      var (_, p1) := ReadByte(s, p);
      var (size, q) := ParseHashTableSize(s, p1).value;
      var (recs, t) := RecordsSpec(s, q, size).value;
      var (more, u) := DatabasesSpec(s, t).value;
      LookupRecordsAgree(s, q, size, key, now);
      FirstLiveAppend(recs, more, key, now);
      if FirstLive(recs, key, now).None? {
        LookupSectionsAgree(s, t, key, now);
      }
    }
  }

  /** `readValueFromKey` agrees with `getEntries` on every file `getEntries`
      accepts: it returns the value of the first record with the key that has not
      expired, and `null` when there is none. */
  lemma LookupAgreesWithEntries(s: seq<Byte>, key: string, now: int)
    requires SnapshotRecords(s).Ok?
    ensures LookupSpec(s, key, now) == Ok(FirstLive(SnapshotRecords(s).value.0, key, now))
  {
    var p := ParseHeader(s, 0).value;
    var q := MetadataSpec(s, p).value;
    LookupSectionsAgree(s, q, key, now);
  }

  // ---------------------------------------------------------------------------
  // The reader's methods

  /** `parseMetadata`. */
  method ParseMetadata(s: seq<Byte>, pos: nat) returns (r: Result<nat, RdbError>)
    requires pos <= |s|
    ensures r == MetadataSpec(s, pos)
  {
    var p := pos;
    while true
      invariant pos <= p <= |s|
      invariant MetadataSpec(s, p) == MetadataSpec(s, pos)
      decreases |s| - p
    {
      var (marker, p1) := ReadByte(s, p);
      if marker == DATABASE_MARKER || marker == EOF_MARKER {
        return Ok(p);
      }
      if marker != METADATA_MARKER {
        return Err(UnexpectedMetadataMarker(marker));
      }
      var name := ParseString(s, p1);
      if name.Err? {
        return Err(name.error);
      }
      var value := ParseString(s, name.value.1);
      if value.Err? {
        return Err(value.error);
      }
      p := value.value.1;
    }
  }

  lemma ThenThen(a: seq<Record>, b: seq<Record>, r: Parsed<seq<Record>>)
    ensures Then(a, Then(b, r)) == Then(a + b, r)
  {
    if r.Ok? {
      assert a + (b + r.value.0) == (a + b) + r.value.0;
    }
  }

  lemma ThenEmpty(r: Parsed<seq<Record>>)
    ensures Then([], r) == r
  {
    if r.Ok? {
      assert [] + r.value.0 == r.value.0;
    }
  }

  lemma EntriesAppend(recs: seq<Record>, rec: Record)
    ensures Entries(recs + [rec]) == Entries(recs) + [ToEntry(rec)]
  {
  }

  /** A section opened by `0xFE` with a readable size header continues as its records. */
  lemma DatabasesSection(s: seq<Byte>, p: nat, size: int, q: nat)
    requires p < |s| && s[p] == DATABASE_MARKER
    requires ParseHashTableSize(s, ReadByte(s, p + 1).1) == Ok((size, q))
    ensures DatabasesSpec(s, p) == AfterRecords(s, q, size)
  {
  }

  /** One record read from a hash table. */
  lemma RecordsStep(s: seq<Byte>, q: nat, n: int)
    requires q <= |s| && n > 0 && ParseRecord(s, q).Ok?
    ensures RecordsSpec(s, q, n)
      == Then([ParseRecord(s, q).value.0], RecordsSpec(s, ParseRecord(s, q).value.1, n - 1))
  {
  }

  /** The entries of what a parse produced. */
  function EntriesOf(r: Parsed<seq<Record>>): Parsed<seq<RdbEntry>> {
    match r
    case Err(e) => Err(e)
    case Ok((recs, t)) => Ok((Entries(recs), t))
  }

  lemma EntriesConcat(a: seq<Record>, b: seq<Record>)
    ensures Entries(a + b) == Entries(a) + Entries(b)
  {
  }

  /** The hash-table loop keeps its place in the table's parse: once the record
      at `q` is read, the records so far with it appended, continued from the
      record's end for one fewer record, still give the table's parse `goal`. */
  lemma HashTableStep(s: seq<Byte>, recs: seq<Record>, q: nat, left: int, goal: Parsed<seq<Record>>)
    requires q <= |s| && left > 0 && ParseRecord(s, q).Ok?
    requires Then(recs, RecordsSpec(s, q, left)) == goal
    ensures Then(recs + [ParseRecord(s, q).value.0], RecordsSpec(s, ParseRecord(s, q).value.1, left - 1)) == goal
  {
    RecordsStep(s, q, left);
    ThenThen(recs, [ParseRecord(s, q).value.0], RecordsSpec(s, ParseRecord(s, q).value.1, left - 1));
  }

  /** The hash-table loop of `parseDatabase`: `size` records, each added as an
      entry. */
  method ReadHashTable(s: seq<Byte>, pos: nat, size: int) returns (r: Parsed<seq<RdbEntry>>)
    requires pos <= |s|
    ensures r == EntriesOf(RecordsSpec(s, pos, size))
  {
    var entries: seq<RdbEntry> := [];
    ghost var recs: seq<Record> := [];
    var q := pos;
    var i := 0;
    ghost var left := size;
    ThenEmpty(RecordsSpec(s, pos, size));
    while i < size
      invariant pos <= q <= |s| && left == size - i
      invariant entries == Entries(recs)
      invariant Then(recs, RecordsSpec(s, q, left)) == RecordsSpec(s, pos, size)
      decreases size - i
    {
      var rec := ParseRecord(s, q);
      if rec.Err? {
        return Err(rec.error);
      }
      EntriesAppend(recs, rec.value.0);
      HashTableStep(s, recs, q, left, RecordsSpec(s, pos, size));
      entries := entries + [ToEntry(rec.value.0)];
      recs := recs + [rec.value.0];
      q := rec.value.1;
      i := i + 1;
      left := left - 1;
    }
    assert recs + [] == recs;
    return Ok((entries, q));
  }

  /** `parseDatabase`: the entries of every section, appended in file order. */
  method ParseDatabase(s: seq<Byte>, pos: nat) returns (r: Parsed<seq<RdbEntry>>)
    requires pos <= |s|
    ensures r == EntriesOf(DatabasesSpec(s, pos))
  {
    var entries: seq<RdbEntry> := [];
    ghost var recs: seq<Record> := [];
    var p := pos;
    ThenEmpty(DatabasesSpec(s, pos));
    while true
      invariant pos <= p <= |s|
      invariant entries == Entries(recs)
      invariant Then(recs, DatabasesSpec(s, p)) == DatabasesSpec(s, pos)
      decreases |s| - p
    {
      var (marker, p1) := ReadByte(s, p);
      if marker == EOF_MARKER {
        assert recs + [] == recs;
        return Ok((entries, p1));
      }
      if marker != DATABASE_MARKER {
        return Err(UnexpectedDatabaseMarker(marker));
      }
      var (_, p2) := ReadByte(s, p1);
      var header := ParseHashTableSize(s, p2);
      if header.Err? {
        return Err(header.error);
      }
      var (size, q) := header.value;
      DatabasesSection(s, p, size, q);
      var table := ReadHashTable(s, q, size);
      if table.Err? {
        return Err(table.error);
      }
      ghost var tableRecs := RecordsSpec(s, q, size).value.0;
      ThenThen(recs, tableRecs, DatabasesSpec(s, table.value.1));
      EntriesConcat(recs, tableRecs);
      entries := entries + table.value.0;
      recs := recs + tableRecs;
      p := table.value.1;
    }
  }

  /** `getEntries`: header, metadata, sections and checksum. */
  method GetEntries(s: seq<Byte>) returns (r: Result<seq<RdbEntry>, RdbError>)
    ensures r == GetEntriesSpec(s)
  {
    var header := ParseHeader(s, 0);
    if header.Err? {
      return Err(header.error);
    }
    var metadata := ParseMetadata(s, header.value);
    if metadata.Err? {
      return Err(metadata.error);
    }
    var database := ParseDatabase(s, metadata.value);
    if database.Err? {
      return Err(database.error);
    }
    var checksumEnd := ParseEndOfFile(s, database.value.1);
    return Ok(database.value.0);
  }

  /** One record of the lookup's hash-table loop. */
  lemma LookupRecordsStep(s: seq<Byte>, q: nat, n: int, key: string, now: int)
    requires q <= |s| && n > 0 && ParseRecord(s, q).Ok?
    ensures var (rec, q') := ParseRecord(s, q).value;
      LookupRecords(s, q, n, key, now)
        == if Matches(rec, key, now) then Ok(Found(rec.value)) else LookupRecords(s, q', n - 1, key, now)
  {
  }

  /** The lookup's hash-table loop keeps its place when a record does not match. */
  lemma LookupTableStep(s: seq<Byte>, q: nat, left: int, key: string, now: int, goal: Result<Lookup, RdbError>)
    requires q <= |s| && left > 0 && ParseRecord(s, q).Ok? && !Matches(ParseRecord(s, q).value.0, key, now)
    requires LookupRecords(s, q, left, key, now) == goal
    ensures LookupRecords(s, ParseRecord(s, q).value.1, left - 1, key, now) == goal
  {
    LookupRecordsStep(s, q, left, key, now);
  }

  /** The hash-table loop of the private `readValueFromKey(in, key)`: it returns on
      the first match. */
  method LookupInTable(s: seq<Byte>, pos: nat, size: int, key: string, now: int) returns (r: Result<Lookup, RdbError>)
    requires pos <= |s|
    ensures r == LookupRecords(s, pos, size, key, now)
  {
    var q := pos;
    var i := 0;
    ghost var left := size;
    ghost var goal := LookupRecords(s, pos, size, key, now);
    while i < size
      invariant pos <= q <= |s| && left == size - i
      invariant LookupRecords(s, q, left, key, now) == goal
      decreases size - i
    {
      var rec := ParseRecord(s, q);
      if rec.Err? {
        return Err(rec.error);
      }
      if Matches(rec.value.0, key, now) {
        LookupRecordsStep(s, q, left, key, now);
        return Ok(Found(rec.value.0.value));
      }
      LookupTableStep(s, q, left, key, now, goal);
      q := rec.value.1;
      i := i + 1;
      left := left - 1;
    }
    return Ok(Continue(q));
  }

  /** The private `readValueFromKey(in, key)`: sections until the end marker. */
  method LookupInSections(s: seq<Byte>, pos: nat, key: string, now: int) returns (r: Result<Option<string>, RdbError>)
    requires pos <= |s|
    ensures r == LookupSections(s, pos, key, now)
  {
    var p := pos;
    while true
      invariant pos <= p <= |s|
      invariant LookupSections(s, p, key, now) == LookupSections(s, pos, key, now)
      decreases |s| - p
    {
      var (marker, p1) := ReadByte(s, p);
      if marker == EOF_MARKER {
        return Ok(None);
      }
      if marker != DATABASE_MARKER {
        return Err(UnexpectedDatabaseMarker(marker));
      }
      var (_, p2) := ReadByte(s, p1);
      var header := ParseHashTableSize(s, p2);
      if header.Err? {
        return Err(header.error);
      }
      var (size, q) := header.value;
      var table := LookupInTable(s, q, size, key, now);
      match table
      case Err(e) => return Err(e);
      case Ok(Found(v)) => return Ok(Some(v));
      case Ok(Continue(t)) => p := t;
    }
  }

  /** `readValueFromKey(filePath, key)`, with the clock reading `now`. */
  method ReadValueFromKey(s: seq<Byte>, key: string, now: int) returns (r: Result<Option<string>, RdbError>)
    ensures r == LookupSpec(s, key, now)
  {
    var header := ParseHeader(s, 0);
    if header.Err? {
      return Err(header.error);
    }
    var metadata := ParseMetadata(s, header.value);
    if metadata.Err? {
      return Err(metadata.error);
    }
    r := LookupInSections(s, metadata.value, key, now);
  }
}
