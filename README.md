# A Redis-style server, modelled in Dafny

This project models the core of a small Java server that speaks the Redis
serialization protocol (RESP2) and reads Redis snapshot files (RDB version
`0011`). It covers five pieces.

- **The wire codec.** The request decoder `CommandParser` reads a `*` array of `$` bulk
  strings from a byte stream. The reply encoders `writeSimpleString`,
  `writeBulkString` and `writeArray` write frames. The decoder works on a byte
  sequence and a cursor, and every parse returns where the cursor stopped. The
  number of bytes a frame consumed is therefore part of the result.
- **Command values.** `CommandName` is the enum of the ten commands with its case-insensitive
  `fromName`. `Command` holds the tag and the arguments, with `toArray` and
  `getLengthInBytes`.
- **The snapshot reader.** `RdbFileReader` covers the header, the metadata pairs, the database
  sections with their size headers, the expiry markers, the string and integer
  encodings, the end marker and the checksum. It is modelled byte for byte,
  quirks included. A read past the end gives `0xFF`, so running out of bytes
  looks like the end marker. The `10` length form takes the number of bytes
  read as the length. Every `11` form of `parseSize` falls through to its
  error. The 16-bit integer form consumes four bytes.
- **The store.** `KeyValueStore` is a map plus a table of expiry timers. Time is abstracted:
  a timer is a table entry that is live or cancelled. `FireExpiry` plays the
  scheduled task that runs once the delay has passed.
- **The command engine.** `CommandExecutor` is a class holding the store, the replication
  offset, the replica count, the replication id, the role, the snapshot path
  and bytes, the output stream, and the commands handed to the replicas. Each
  handler appends its reply to the output stream and changes what the source
  changes. Each handler also returns a `Failure` where the source throws.
  The pure function `Step` states what one command does to the reply, the
  store, the scheduled removals and the offset. The `switch` and the
  client-facing `execute` are proved to do exactly what `Step` says. A `null`
  tag fails with `NullTag`, since Java's `switch` throws on it before
  `default` can run.

Each parser and reader loop is a method with a `while` or `for` loop. The method
is proved equal to a recursive specification function. The properties are then
proved about those functions:

- the wire round trip `parse(writeArray(xs))`;
- the snapshot round trip from an independent reference encoder
  (`RdbEncoding`);
- the agreement of the point lookup `readValueFromKey` with the full scan
  `getEntries`;
- the decoding of the snapshot literal that PSYNC sends.

## Model

| member | source | states |
|---|---|---|
| CommandNames.FindIgnoringCase | src/main/java/CommandName.java:24-29 | the loop over the constants returns one whose name equals the string ignoring case, and returns nothing only when no constant in the list matches |
| CommandNames.FromName | src/main/java/CommandName.java:23-30 | `fromName` gives a constant whose name matches ignoring case, and gives `null` exactly when no constant matches |
| CommandNames.NamesCanonical | src/main/java/CommandName.java:2-11 | every name is its own upper-case form and distinct constants have distinct names |
| CommandNames.FromNameFinds | src/main/java/CommandName.java:23-28 | whenever a constant's name matches a string ignoring case, `fromName` returns that constant: at most one can match |
| CommandNames.FromNameOfName | src/main/java/CommandName.java:19-28 | `fromName(c.getName()) == c` for every constant |
| CommandNames.NameOfFromName | src/main/java/CommandName.java:23-28 | a string that `fromName` resolves is the constant's name up to case |
| JavaLang.EqualsIgnoreCaseIsUpperCaseEquality | src/main/java/CommandName.java:25 | the case-insensitive comparison holds exactly when the upper-case forms are equal |
| Commands.ConstructorsAgree | src/main/java/Command.java:6-14 | the list constructor gives the same command as the (name, array) constructor on the head and tail, and keeps the arguments as given, in order |
| Commands.ToArrayOfFromList | src/main/java/Command.java:23-28 | `new Command(list).toArray()` has the list's length, holds the head upper-cased, and holds the remaining elements unchanged |
| Commands.ToArrayOfCanonical | src/main/java/Command.java:11-14 | a list whose head is a canonical name gets that tag and comes back unchanged from `toArray` |
| Commands.UnknownHeadGivesNullTag | src/main/java/Command.java:12 | an unrecognised head gives a null tag rather than a construction error |
| Commands.LengthInBytesAtLeastFour | src/main/java/Command.java:30-36 | without wrap-around the counted length is the name length plus the argument lengths plus one, and is at least four |
| CommandExecutor.CountedLengthBelowEncodedSize | src/main/java/Command.java:30-36 | without wrap-around the counted length is strictly less than the size of the frame the replicas receive |
| CommandParser.ReadIntCRLF | src/main/java/CommandParser.java:75-90 | the loop returns what the specification `ReadInt` gives: a minus anywhere sets the flag, other bytes fold in as `b - '0'` with `int` wrap-around, and CR plus one unchecked byte ends the number |
| CommandParser.ReadIntFrom | src/main/java/CommandParser.java:78-88 | a number that is read consumes at least its CR and the byte after it, and ends inside the stream |
| CommandParser.ReadIntOfDecimal | src/main/java/CommandParser.java:75-90 | any `int`, written in decimal and followed by CR LF, is read back as itself and consumes exactly its text plus two bytes |
| CommandParser.ReadIntOfNegative | src/main/java/CommandParser.java:79-89 | a leading minus sign negates the digits after it; for the smallest `int` the digits wrap the accumulator and negating wraps it back, so that value too is read back as itself |
| CommandParser.ReadIntOfWrappingDigits | src/main/java/CommandParser.java:79-89 | digits that leave the `int` range only at the last digit fold to that value wrapped once to 32 bits |
| CommandParser.ProcessSpec | src/main/java/CommandParser.java:20-38 | a successful `process` consumes at least one byte and stays within the stream |
| CommandParser.Process | src/main/java/CommandParser.java:20-38 | the method returns what `ProcessSpec` gives: `*` and `$` are dispatched, every other leading byte is refused, and the end of the stream is refused |
| CommandParser.ProcessBulkString | src/main/java/CommandParser.java:40-59 | the method returns what `BulkStringSpec` gives: a length, that many payload bytes, two unchecked bytes, and one more string; a negative length is refused |
| CommandParser.ProcessBulkStringArray | src/main/java/CommandParser.java:61-73 | the method returns what `BulkStringArraySpec` gives: a count, then that many frames read into the same list |
| CommandParser.Parse | src/main/java/CommandParser.java:16-18 | the method returns what `ParseSpec` gives, and a parsed command consumed at least one byte and no more than the stream holds |
| CommandParser.BulkStringRoundTrip | src/main/java/CommandParser.java:40-59 | a bulk string written by `writeBulkString` is read back as exactly one more argument and consumes exactly its bytes |
| CommandParser.NegativeBulkLengthFails | src/main/java/CommandParser.java:48 | a bulk string with a negative length line is refused, and no string is added |
| CommandParser.ElementsRoundTrip | src/main/java/CommandParser.java:69-71 | the element loop reads back every written bulk string, in order, after the arguments already read |
| CommandParser.ProcessKeepsArgs | src/main/java/CommandParser.java:20-73 | `process` only appends: the strings read before stay in front, in order, nested arrays included |
| CommandParser.ElementsKeepsArgs | src/main/java/CommandParser.java:69-71 | the element loop only appends to the list it is given |
| CommandParser.ProcessArrayRoundTrip | src/main/java/CommandParser.java:61-73 | `process` reads what `writeArray` wrote as exactly the strings written and stops right after them |
| CommandParser.ParseOfProcess | src/main/java/CommandParser.java:16-18 | `parse` builds the command from the strings `process` read, and refuses an empty list |
| CommandParser.WriteArrayRoundTrip | src/main/java/CommandParser.java:16-18 | parsing what `writeArray` wrote gives a command built from exactly those strings and consumes exactly the bytes written; an empty array is refused |
| CommandParser.WireRoundTrip | src/main/java/CommandParser.java:16-18 | for ASCII strings whose head names a command, `parse(writeArray(xs))` consumes exactly the frame, whatever follows, and its `toArray()` is `xs` with the head upper-cased |
| CommandParser.PrefixProcessFails | src/main/java/CommandParser.java:35-37 | a frame that `process` reads to its end cannot be read from any proper prefix of it |
| CommandParser.TruncatedFrameFails | src/main/java/CommandParser.java:16-18 | a stream that ends inside an encoded request never yields a command |
| RespWriter.LineIsWrittenText | src/main/java/CommandExecutor.java:250-256 | a protocol line is the bytes `writeBytes` sends for the type char, the text and CR LF |
| RespWriter.BulkStringIsWrittenText | src/main/java/CommandExecutor.java:241-248 | a bulk string is exactly the two `writeBytes` calls of `writeBulkString` |
| RespWriter.BulkStringsAppend | src/main/java/CommandExecutor.java:170-172 | writing two runs of elements one after the other writes their concatenation |
| RdbFileReader.Entries | src/main/java/RdbFileReader.java:288-310 | one `RdbEntry` per record, in order, with key, value and expiry time, where the expiry time is 0 when the record has none |
| RdbFileReader.ReadBlock | src/main/java/RdbFileReader.java:76-83 | a block read copies up to n available bytes and leaves the rest of the buffer zero; its count is the number copied, -1 at the end of the stream, and 0 when nothing was asked for |
| RdbFileReader.GetRoundTrip | src/main/java/RdbFileReader.java:230-250 | the little-endian `getShort`, `getInt` and `getLong` read back every value of their width from its two's complement bytes, whatever follows them |
| RdbFileReader.ReadData | src/main/java/RdbFileReader.java:225-227 | a string that is read ends inside the stream and no earlier than where it started |
| RdbFileReader.ReadLittleEndianShort | src/main/java/RdbFileReader.java:230-239 | a read short consumes four bytes and is a signed 16-bit value |
| RdbFileReader.ReadLittleEndianInt | src/main/java/RdbFileReader.java:241-250 | a read int consumes four bytes and is a signed 32-bit value |
| RdbFileReader.ParseString | src/main/java/RdbFileReader.java:192-228 | a parsed string consumes at least one byte and stays within the stream |
| RdbFileReader.ParseSize | src/main/java/RdbFileReader.java:252-284 | a parsed size consumes at least one byte and lies between -1 and `0x3FFF` |
| RdbFileReader.ParseHashTableSize | src/main/java/RdbFileReader.java:144-154 | a parsed size header consumes at least one byte and stays within the stream |
| RdbFileReader.ParseExpire | src/main/java/RdbFileReader.java:163-173 | the expiry read never moves the cursor back or past the end |
| RdbFileReader.ParseValue | src/main/java/RdbFileReader.java:181-190 | only value type `0x00` decodes, as a string; every other type is refused with that type |
| RdbFileReader.ParseEndOfFile | src/main/java/RdbFileReader.java:156-161 | the checksum read cannot fail and stays within the stream |
| RdbFileReader.ParseHeader | src/main/java/RdbFileReader.java:75-87 | an accepted header is exactly nine bytes long |
| RdbFileReader.HeaderBlocksAreFull | src/main/java/RdbFileReader.java:75-87 | the words compare equal only when they were read in full |
| RdbFileReader.ReadRecordType | src/main/java/RdbFileReader.java:128-133 | reading the head of a record never moves the cursor back or past the end |
| RdbFileReader.ParseRecord | src/main/java/RdbFileReader.java:128-136 | a parsed record consumes at least one byte |
| RdbFileReader.RecordsSpec | src/main/java/RdbFileReader.java:127-137 | the hash-table loop yields exactly `size` records, and none when the size is negative |
| RdbFileReader.DatabasesSpec | src/main/java/RdbFileReader.java:107-142 | the section loop stays within the stream |
| RdbFileReader.MetadataSpec | src/main/java/RdbFileReader.java:89-105 | the metadata loop stops at a section marker, at the end marker, or at the end of the stream, and leaves that byte unread |
| RdbFileReader.FirstLive | src/main/java/RdbFileReader.java:33-73 | there is no value exactly when no record has the key and a missing or unexpired expiry |
| RdbFileReader.FirstLiveIsFirst | src/main/java/RdbFileReader.java:64-65 | the value found is that of a matching record with no matching record before it |
| RdbFileReader.LookupRecords | src/main/java/RdbFileReader.java:55-67 | a table scan that does not find the key ends within the stream |
| RdbFileReader.LookupRecordsAgree | src/main/java/RdbFileReader.java:55-67 | the lookup's table scan finds the first matching record that the full table parse yields, or ends where the table's records end |
| RdbFileReader.LookupSectionsAgree | src/main/java/RdbFileReader.java:33-73 | over readable sections the lookup returns the first matching record of all the sections |
| RdbFileReader.LookupAgreesWithEntries | src/main/java/RdbFileReader.java:25-31 | on every file that `getEntries` reads, `readValueFromKey` returns the first record with the key that has not expired, and `null` when there is none |
| RdbFileReader.ParseMetadata | src/main/java/RdbFileReader.java:89-105 | the loop returns what `MetadataSpec` gives |
| RdbFileReader.ReadHashTable | src/main/java/RdbFileReader.java:124-137 | the `for` loop returns the entries of the records `RecordsSpec` reads |
| RdbFileReader.ParseDatabase | src/main/java/RdbFileReader.java:107-142 | the loop returns the entries of every section, in file order, as `DatabasesSpec` reads them |
| RdbFileReader.GetEntries | src/main/java/RdbFileReader.java:14-23 | `getEntries` returns what the header, metadata, sections and checksum specification gives |
| RdbFileReader.LookupInTable | src/main/java/RdbFileReader.java:55-67 | the lookup's `for` loop returns what `LookupRecords` gives: the first match, or where the table ends |
| RdbFileReader.LookupInSections | src/main/java/RdbFileReader.java:33-73 | the lookup's section loop returns what `LookupSections` gives |
| RdbFileReader.ReadValueFromKey | src/main/java/RdbFileReader.java:25-31 | `readValueFromKey` returns what `LookupSpec` gives for the file, the key and the clock |
| RdbEncoding.ParseSizeRoundTrip | src/main/java/RdbFileReader.java:256-259 | `parseSize` reads back every length written in the six-bit or fourteen-bit form |
| RdbEncoding.ParseSizeOutcomes | src/main/java/RdbFileReader.java:252-284 | `parseSize` fails exactly on an `11` first byte, including the `0xFF` read at the end; on `10` it gives 4 after a full read and -1 at the end of the stream |
| RdbEncoding.ParseStringRoundTrip | src/main/java/RdbFileReader.java:192-228 | `parseString` reads back every short ASCII string written with its length |
| RdbEncoding.ReadDataAt | src/main/java/RdbFileReader.java:225-227 | reading `length` bytes that hold an ASCII string gives the string |
| RdbEncoding.ParseStringByteCount | src/main/java/RdbFileReader.java:202-204 | on a `10` first byte the count of a four-byte read becomes the length: a full read gives the next four bytes as text, and a read at the end fails on the negative length |
| RdbEncoding.ParseStringInt8 | src/main/java/RdbFileReader.java:208-210 | `0xC0` reads a signed byte back as its decimal text |
| RdbEncoding.ParseStringInt16 | src/main/java/RdbFileReader.java:211-213 | `0xC1` reads a signed little-endian short back as its decimal text and consumes four bytes after the marker |
| RdbEncoding.ParseStringInt32 | src/main/java/RdbFileReader.java:214-216 | `0xC2` reads a signed little-endian `int` back as its decimal text |
| RdbEncoding.ParseStringUnsupportedEncodings | src/main/java/RdbFileReader.java:217-221 | `0xC3` and `0xC4` to `0xFF` are refused |
| RdbEncoding.ParseFieldRoundTrip | src/main/java/RdbFileReader.java:192-228 | a metadata field written as a string or a padding-free integer reads back as its text |
| RdbEncoding.ReadRecordTypeMillis | src/main/java/RdbFileReader.java:164-167 | an expiry in milliseconds after `0xFC` is read back as written |
| RdbEncoding.ReadRecordTypeSeconds | src/main/java/RdbFileReader.java:168-172 | an expiry in seconds after `0xFD` is read back multiplied by 1000 |
| RdbEncoding.ReadRecordTypeRoundTrip | src/main/java/RdbFileReader.java:128-133 | a written record head is read back: its expiry, if any, and the value type |
| RdbEncoding.ParseRecordRoundTrip | src/main/java/RdbFileReader.java:128-136 | one written record is read back as written and consumes exactly its bytes |
| RdbEncoding.RecordsRoundTrip | src/main/java/RdbFileReader.java:127-137 | a table's written records are read back in order when the count is theirs |
| RdbEncoding.ParseHashTableSizeRoundTrip | src/main/java/RdbFileReader.java:144-154 | the size header gives the record count, and the count of expiring keys after it is read and dropped |
| RdbEncoding.SectionRoundTrip | src/main/java/RdbFileReader.java:113-137 | a written section is read as its records followed by whatever comes after it |
| RdbEncoding.DatabasesRoundTrip | src/main/java/RdbFileReader.java:107-142 | sections ended by the end marker are read back as all their records, in file order, and the cursor stops just past the marker |
| RdbEncoding.MetadataEndsAtMarker | src/main/java/RdbFileReader.java:91-94 | a section or end marker ends the metadata and is left unread |
| RdbEncoding.PairRoundTrip | src/main/java/RdbFileReader.java:96-103 | a written name and value pair is skipped |
| RdbEncoding.MetadataRoundTrip | src/main/java/RdbFileReader.java:89-105 | written metadata followed by a section or end marker is skipped in full, and the marker is left for the sections |
| RdbEncoding.ParseHeaderAccepts | src/main/java/RdbFileReader.java:75-87 | the header is accepted exactly when the nine bytes at the cursor are `REDIS0011`, and the cursor is then past them |
| RdbEncoding.SnapshotRoundTrip | src/main/java/RdbFileReader.java:14-23 | a whole written file is read back as all its records, in file order, whatever checksum follows the end marker |
| RdbEncoding.SnapshotEntries | src/main/java/RdbFileReader.java:14-23 | `getEntries` on a written file gives one entry per written record, in order |
| RdbEncoding.SnapshotLookup | src/main/java/RdbFileReader.java:25-31 | `readValueFromKey` on a written file gives the first record with the key that has not expired |
| RdbEncoding.EmptySnapshotIsWritten | src/main/java/CommandExecutor.java:82 | the snapshot PSYNC sends is the header, five metadata pairs, no sections, the end marker and eight checksum bytes |
| RdbEncoding.EmptySnapshotHasNoEntries | src/main/java/CommandExecutor.java:82-83 | `getEntries` on that snapshot gives no entries, and `readValueFromKey` gives `null` for every key at every time |
| KeyValueStores.Cancelled | src/main/java/KeyValueStore.java:50-55 | cancelling marks the key's timer dead, if it has one, and removes no entry and touches no other entry |
| KeyValueStores.KeyValueStore.constructor | src/main/java/KeyValueStore.java:10-14 | the store and the timer table start empty |
| KeyValueStores.KeyValueStore.Get | src/main/java/KeyValueStore.java:41-43 | `get` reads no state beyond the store, and gives `null` exactly for an absent key and the stored value otherwise |
| KeyValueStores.KeyValueStore.Put | src/main/java/KeyValueStore.java:23-25 | `put` stores the value, a following `get` returns it, other keys are unchanged, and the timer table is untouched |
| KeyValueStores.KeyValueStore.CancelExpiration | src/main/java/KeyValueStore.java:50-55 | the key's timer is marked cancelled and the store is untouched |
| KeyValueStores.KeyValueStore.ScheduleExpiration | src/main/java/KeyValueStore.java:33-39 | one fresh live timer is installed for the key |
| KeyValueStores.KeyValueStore.PutWithTtl | src/main/java/KeyValueStore.java:27-31 | the value is stored and the key's timer table entry becomes one fresh live timer |
| KeyValueStores.KeyValueStore.Delete | src/main/java/KeyValueStore.java:45-48 | the key is removed, `get` then gives `null`, and its timer is cancelled |
| KeyValueStores.KeyValueStore.FireExpiry | src/main/java/KeyValueStore.java:34-37 | a live timer removes its key from both tables and nothing else; a cancelled or missing one changes nothing; every operation keeps each live timer's key stored |
| CommandExecutor.SetStep | src/main/java/CommandExecutor.java:209-229 | SET never moves the offset |
| CommandExecutor.GetStep | src/main/java/CommandExecutor.java:179-207 | GET changes nothing but the stream |
| CommandExecutor.ConfigStep | src/main/java/CommandExecutor.java:142-165 | CONFIG changes nothing but the stream |
| CommandExecutor.WaitStep | src/main/java/CommandExecutor.java:268-308 | WAIT leaves the store and the scheduled removals alone |
| CommandExecutor.Step | src/main/java/CommandExecutor.java:23-59 | a null tag fails; only SET touches the store and the scheduled removals; only an unsilenced WAIT moves the offset; a silent command writes nothing except a GETACK acknowledgement; a failure writes nothing and changes nothing |
| CommandExecutor.SetThenGet | src/main/java/CommandExecutor.java:179-229 | after a SET that succeeds, silent or not, a GET of the key on the new state answers the value just set |
| CommandExecutor.WaitThenWait | src/main/java/CommandExecutor.java:268-308 | a WAIT that answered from the latch leaves the offset at 0, so the next WAIT answers with the replica count |
| CommandExecutor.ConfigGetAnswersDir | src/main/java/CommandExecutor.java:142-165 | CONFIG GET, with the path built at start-up from a directory and a file name without a slash, answers with the asked name and that directory |
| CommandExecutor.ClientStepKeepsOffsetInt | src/main/java/CommandExecutor.java:12-21 | whatever a client sends, the offset stays within Java `int` range |
| CommandExecutor.LastIndexOf | src/main/java/CommandExecutor.java:148 | `lastIndexOf` gives the last position holding the char, or -1 when there is none |
| CommandExecutor.Directory | src/main/java/CommandExecutor.java:148 | the directory is the text before the last slash; a null path and a path without a slash fail |
| CommandExecutor.DirectoryOfJoinedPath | src/main/java/Main.java:71-73 | for a path built as `dir + "/" + dbfilename`, CONFIG GET gives back `dir` whenever the file name holds no slash |
| CommandExecutor.PropagatedCommandParses | src/main/java/CommandExecutor.java:61-77 | a propagated command sent as `writeArray(toArray())` is parsed by a replica as the same command and consumes exactly the frame |
| CommandExecutor.AckReplyEncodable | src/main/java/CommandExecutor.java:96 | every string of the acknowledgement is ASCII and short enough to frame |
| CommandExecutor.AckReplyParses | src/main/java/CommandExecutor.java:93-100 | the acknowledgement a replica writes is parsed on the master as REPLCONF with the arguments `ACK` and the count |
| CommandExecutor.Engine.constructor | src/main/java/Main.java:71-85 | the engine starts with offset 0, no replicas, nothing written and nothing propagated, and with the given store, role, id and snapshot path |
| CommandExecutor.Engine.WriteSimpleString | src/main/java/CommandExecutor.java:250-256 | the stream grows by exactly `+s\r\n` |
| CommandExecutor.Engine.WriteBulkString | src/main/java/CommandExecutor.java:241-248 | the stream grows by exactly the length line, the text and CR LF |
| CommandExecutor.Engine.WriteArray | src/main/java/CommandExecutor.java:167-177 | the stream grows by exactly the count line followed by each element as a bulk string, in order |
| CommandExecutor.Engine.ExecutePing | src/main/java/CommandExecutor.java:258-266 | PING writes `+PONG\r\n` unless silent, and nothing when silent |
| CommandExecutor.Engine.ExecuteEcho | src/main/java/CommandExecutor.java:231-239 | ECHO writes the first argument as a bulk string unless silent, and fails without writing when there is no argument |
| CommandExecutor.Engine.ExecuteSet | src/main/java/CommandExecutor.java:209-229 | with exactly four arguments, SET stores with the fourth as the time to live and never looks at the third; otherwise it stores with no expiry; it succeeds exactly when there are at least two arguments and any time to live parses; the store changes even when silent; `+OK\r\n` is written only when not silent; a failure changes nothing |
| CommandExecutor.Engine.ExecuteGet | src/main/java/CommandExecutor.java:179-207 | GET answers a live hit, then on a miss with a snapshot path the snapshot's first unexpired record, as a bulk string, and otherwise `$-1\r\n`; a snapshot read error fails without writing; silent GET has no effect |
| CommandExecutor.Engine.ExecuteConfig | src/main/java/CommandExecutor.java:142-165 | CONFIG GET answers with the asked name and the directory of the snapshot path, whatever the name; another subcommand, a missing argument and an unusable path fail without writing; silent CONFIG has no effect |
| CommandExecutor.Engine.ExecuteInfo | src/main/java/CommandExecutor.java:112-126 | INFO writes the role, id and offset lines as one bulk string unless silent |
| CommandExecutor.Engine.ExecuteReplConf | src/main/java/CommandExecutor.java:93-110 | GETACK, in any case, answers with `REPLCONF ACK <processed - 37>` even when silent; any other REPLCONF answers `+OK\r\n` unless silent; no argument fails |
| CommandExecutor.Engine.ExecutePsync | src/main/java/CommandExecutor.java:79-91 | PSYNC writes the FULLRESYNC line with the id and offset, then the snapshot's length line and raw bytes with no CR LF after them; silent PSYNC writes nothing |
| CommandExecutor.Engine.ExecuteWait | src/main/java/CommandExecutor.java:268-308 | with offset 0, WAIT answers the replica count and leaves the offset alone; otherwise it answers the requested count if the latch completed and the requested count minus the remaining count if not, then resets the offset to 0; unparsable numbers, a missing argument and a negative count fail without writing or touching the offset; silent WAIT does nothing |
| CommandExecutor.Engine.Dispatch | src/main/java/CommandExecutor.java:23-59 | the `switch` ends with the result, writes the reply, and leaves the store, the scheduled removals and the offset exactly as `Step` gives them for the tag's handler |
| CommandExecutor.Engine.Execute | src/main/java/CommandExecutor.java:12-21 | the client-facing `execute` has exactly the effect `ClientStep` gives, and propagates the command's `toArray()` exactly when a SET succeeds |

## Left out

- Sockets, file streams and `flush` are not modelled. Replies are appended to a byte sequence, and the snapshot file is a byte sequence given to the engine. Writes never fail, so the `IOException` handlers of the encoders are not modelled. A snapshot path whose file is missing is not modelled either.
- Base64 decoding of the PSYNC snapshot is not modelled. The decoded bytes are a literal (`RdbEncoding.EMPTY_SNAPSHOT`), proved to be a valid file with no entries.
- Threads and the replica thread pool are not modelled. The GETACK threads that WAIT starts are left out too. The latch outcome (completed, and the remaining count) is an input to WAIT.
- `replicaMap` is referenced but never declared; Main declares `replicaOutputs` instead. The model keeps a replica count for WAIT. It also keeps one list of propagated commands, which stands for what every replica is sent.
- The `ScheduledExecutorService` delay is not modelled. `FireExpiry` is the scheduled removal, run once the delay has passed, so the time to live does not appear in the state.
- The `getInstance` singleton is left out. The engine holds the store it is given.
- KeyValueStores.KeyValueStore.ScheduleExpiration: requires the key to be stored, which its only caller (`put` with a time to live) guarantees. The requirement keeps the invariant that a live timer guards a stored key.
- The clock `System.currentTimeMillis()` is a `now` parameter of the snapshot lookup and of GET.
- The processed-byte counter that REPLCONF GETACK reports is never declared in the source. It is an input to the engine.
- CommandExecutor.AckReplyParses: requires the processed-byte count to be within `int` range, the counter's evident type.
- KEYS is not modelled. It calls `getKeys`, which `RdbFileReader` does not define, so KEYS returns `KeysNotModelled` without writing.
- The unused `parseKeyValue` is not modelled.
- `writeRdbFile` writes a file and is left out.
- Main, ClientHandler and CommandLineArgs are bootstrap and connection handling, and are not part of this model. The start-up state they leave is the engine's constructor.
- Logging with `println` is not modelled.
- Strings are sequences of chars. The round trips are stated for ASCII text, since `new String(bytes)` and `writeBytes` agree only there.
- A replica whose replication id is unset shows the id as `null` in INFO and PSYNC, as Java's string conversion does.
- RdbFileReader.ReadBlock: a read that blocks or returns fewer bytes than are available is not modelled. Every read takes all available bytes up to the size asked for.
- Commands.LengthInBytesAtLeastFour: stated only below the `int` range limit. `LengthInBytes` itself wraps as Java does.
- CommandExecutor.CountedLengthBelowEncodedSize: stated only below the `int` range limit, for the same reason.
