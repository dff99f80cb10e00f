/** The command engine: it dispatches a parsed command on its tag, writes the
    reply to the client's output stream, updates the key-value store, and keeps
    the replication offset that WAIT and PSYNC report.

    The engine's static state (the fields of `Main` it reads and writes, and the
    reply stream) is gathered in the class `Engine`. What the engine learns from
    outside at the moment a command runs (the clock, how the replicas'
    acknowledgement latch ended, the parser's byte counter) is the `Env` input. */
module CommandExecutor {
  import opened JavaLang
  import opened CommandNames
  import opened Commands
  import opened RespWriter
  import opened CommandParser
  import opened ByteStreams
  import RdbFileReader
  import RdbEncoding
  import opened KeyValueStores

  /** The exceptions a handler throws; each ends the command with nothing
      written and no state changed. */
  datatype Failure =
    | NullTag                      // the `switch` throws on a `null` tag
    | InvalidCommand               // `IllegalArgumentException("Invalid command")` from CONFIG
    | MissingArgument(index: nat)  // `getArgs()[index]` out of bounds
    | NotANumber(text: string)     // `NumberFormatException` from `parseInt` / `parseLong`
    | NegativeLatchCount           // `new CountDownLatch(n)` with `n < 0`
    | NullPath                     // `Main.rdbFilePath` is `null`
    | PathWithoutSlash             // `substring(0, -1)`: the path has no `/`
    | ReadFailed(error: RdbFileReader.RdbError)  // the snapshot reader failed
    | KeysNotModelled              // KEYS relies on a reader method the source lacks

  /** How `latch.await(timeout)` ended and what `latch.getCount()` said then. */
  datatype Latch = Latch(completed: bool, remaining: nat)

  /** The outside world when a command runs: the clock in milliseconds, the WAIT
      latch's outcome, and the parser's running count of consumed bytes. */
  datatype Env = Env(now: int, latch: Latch, processed: int)

  // ---------------------------------------------------------------------------
  // Reply texts

  /** Java's string conversion of a reference that may be `null`. */
  function StringValueOf(s: Option<string>): string {
    if s.Some? then s.value else "null"
  }

  /** `String.lastIndexOf(c)`: the last position holding `c`, or -1. */
  function LastIndexOf(s: string, c: char): (r: int)
    ensures -1 <= r < |s|
    ensures r >= 0 ==> s[r] == c
    ensures forall j :: r < j < |s| ==> s[j] != c
  {
    if |s| == 0 then -1
    else if s[|s| - 1] == c then |s| - 1
    else LastIndexOf(s[..|s| - 1], c)
  }

  /** `rdbFilePath.substring(0, rdbFilePath.lastIndexOf("/"))`: the text before
      the last slash. A null path and a path without a slash throw. */
  function Directory(path: Option<string>): (r: Result<string, Failure>)
    ensures path.None? ==> r == Err(NullPath)
    ensures path.Some? && (forall i :: 0 <= i < |path.value| ==> path.value[i] != '/') ==> r == Err(PathWithoutSlash)
    ensures r.Ok? ==>
      && path.Some? && |r.value| < |path.value| && path.value[..|r.value|] == r.value
      && path.value[|r.value|] == '/'
      && forall j :: |r.value| < j < |path.value| ==> path.value[j] != '/'
  {
    if path.None? then Err(NullPath)
    else
      var i := LastIndexOf(path.value, '/');
      if i < 0 then Err(PathWithoutSlash) else Ok(path.value[..i])
  }

  /** The path is built at start-up as `dir + "/" + dbfilename`; CONFIG GET
      gives back `dir` whenever the file name holds no slash. */
  lemma DirectoryOfJoinedPath(dir: string, name: string)
    requires forall i :: 0 <= i < |name| ==> name[i] != '/'
    ensures Directory(Some(dir + "/" + name)) == Ok(dir)
  {
    var path := dir + "/" + name;
    assert path[|dir|] == '/';
    assert forall j :: |dir| < j < |path| ==> path[j] == name[j - |dir| - 1];
    assert path[..|dir|] == dir;
  }

  /** The INFO text: the role line, the replication id line and the offset line. */
  function InfoText(isReplica: bool, replId: Option<string>, offset: int): string {
    (if isReplica then "role:slave\r\n" else "role:master\r\n")
    + "master_replid:" + StringValueOf(replId) + "\r\n"
    + "master_repl_offset:" + IntToString(offset) + "\r\n"
  }

  /** The simple-string line PSYNC answers with. */
  function FullResync(replId: Option<string>, offset: int): string {
    "FULLRESYNC " + StringValueOf(replId) + " " + IntToString(offset)
  }

  /** PSYNC's whole reply: the FULLRESYNC line, the `$<length>` line, then the
      snapshot's bytes with no CR LF after them. */
  function PsyncReply(replId: Option<string>, offset: int): seq<Byte> {
    SimpleString(FullResync(replId, offset)) + Line('$', IntToString(|RdbEncoding.EMPTY_SNAPSHOT|)) + RdbEncoding.EMPTY_SNAPSHOT
  }

  /** The array that REPLCONF GETACK answers with. */
  function AckReply(processed: int): seq<string> {
    ["REPLCONF", "ACK", IntToString(processed - 37)]
  }

  /** WAIT's count once the latch has been awaited. */
  function WaitCount(numReplicas: int, latch: Latch): int {
    if latch.completed then numReplicas else numReplicas - latch.remaining
  }

  // ---------------------------------------------------------------------------
  // What one command does

  /** The part of the engine's state a command reads or changes, apart from
      the reply stream and the replicas' queue. */
  datatype EngineState = EngineState(
    store: map<string, string>, tasks: map<string, bool>, offset: int, replicaCount: nat,
    replId: Option<string>, isReplica: bool, rdbFilePath: Option<string>, rdbFile: seq<Byte>)

  /** A command's outcome, the bytes it writes, and the store, scheduled
      removals and offset it leaves behind. */
  datatype Effect = Effect(result: Result<(), Failure>, reply: seq<Byte>,
                           store: map<string, string>, tasks: map<string, bool>, offset: int)

  /** The store, the scheduled removals and the offset are as they were. */
  predicate Keeps(st: EngineState, e: Effect) {
    e.store == st.store && e.tasks == st.tasks && e.offset == st.offset
  }

  /** Success with `reply` written and nothing else changed. */
  function Reply(st: EngineState, reply: seq<Byte>): Effect {
    Effect(Ok(()), reply, st.store, st.tasks, st.offset)
  }

  /** Failure with nothing written and nothing changed. */
  function Fail(st: EngineState, f: Failure): Effect {
    Effect(Err(f), [], st.store, st.tasks, st.offset)
  }

  /** What GET finds for `key`: the live store first, then, on a miss with a
      snapshot path set, the snapshot's first unexpired record for the key. */
  function ValueOf(st: EngineState, key: string, now: int): Result<Option<string>, Failure> {
    if key in st.store then Ok(Some(st.store[key]))
    else if st.rdbFilePath.None? then Ok(None)
    else match RdbFileReader.LookupSpec(st.rdbFile, key, now)
      case Err(e) => Err(ReadFailed(e))
      case Ok(v) => Ok(v)
  }

  /** ECHO: the first argument as a bulk string. */
  function EchoStep(st: EngineState, c: Command, silent: bool): (e: Effect)
    ensures Keeps(st, e)
    ensures e.result.Err? ==> e.reply == [] && Keeps(st, e)
    ensures silent ==> e.reply == []
  {
    if silent then Reply(st, [])
    else if |c.args| == 0 then Fail(st, MissingArgument(0))
    else Reply(st, BulkString(c.args[0]))
  }

  /** REPLCONF: GETACK is answered even when silent, anything else with OK. */
  function ReplConfStep(st: EngineState, c: Command, env: Env, silent: bool): (e: Effect)
    ensures Keeps(st, e)
    ensures e.result.Err? ==> e.reply == [] && Keeps(st, e)
  {
    if |c.args| == 0 then Fail(st, MissingArgument(0))
    else if EqualsIgnoreCase(c.args[0], "getack") then Reply(st, RespWriter.WriteArray(AckReply(env.processed)))
    else Reply(st, if silent then [] else SimpleString("OK"))
  }

  /** SET: a fourth argument is the time to live and schedules the key's
      removal; the store changes even when silent. */
  function SetStep(st: EngineState, c: Command, silent: bool): (e: Effect)
    ensures e.offset == st.offset
    ensures e.result.Err? ==> e.reply == [] && Keeps(st, e)
    ensures silent ==> e.reply == []
  {
    if |c.args| == 4 && ParseInteger(c.args[3], LONG_MIN, LONG_MAX).None? then Fail(st, NotANumber(c.args[3]))
    else if |c.args| < 2 then Fail(st, MissingArgument(|c.args|))
    else Effect(Ok(()), if silent then [] else SimpleString("OK"), st.store[c.args[0] := c.args[1]],
                if |c.args| == 4 then st.tasks[c.args[0] := true] else st.tasks, st.offset)
  }

  /** GET: the value as a bulk string, or the null bulk string. */
  function GetStep(st: EngineState, c: Command, env: Env, silent: bool): (e: Effect)
    ensures Keeps(st, e)
    ensures e.result.Err? ==> e.reply == [] && Keeps(st, e)
    ensures silent ==> e.reply == []
  {
    if silent then Reply(st, [])
    else if |c.args| == 0 then Fail(st, MissingArgument(0))
    else match ValueOf(st, c.args[0], env.now)
      case Err(f) => Fail(st, f)
      case Ok(v) => Reply(st, if v.Some? then BulkString(v.value) else NullBulkString)
  }

  /** CONFIG GET: the asked name and the snapshot's directory. */
  function ConfigStep(st: EngineState, c: Command, silent: bool): (e: Effect)
    ensures Keeps(st, e)
    ensures e.result.Err? ==> e.reply == [] && Keeps(st, e)
    ensures silent ==> e.reply == []
  {
    if silent then Reply(st, [])
    else if |c.args| == 0 then Fail(st, MissingArgument(0))
    else if !EqualsIgnoreCase(c.args[0], "GET") then Fail(st, InvalidCommand)
    else match Directory(st.rdbFilePath)
      case Err(f) => Fail(st, f)
      case Ok(dir) =>
        if |c.args| < 2 then Fail(st, MissingArgument(1))
        else Reply(st, RespWriter.WriteArray([c.args[1], dir]))
  }

  /** WAIT: the replica count while the offset is 0; otherwise the count the
      latch reports, and the offset goes back to 0. */
  function WaitStep(st: EngineState, c: Command, env: Env, silent: bool): (e: Effect)
    ensures e.store == st.store && e.tasks == st.tasks
    ensures silent ==> e.offset == st.offset
    ensures e.result.Err? ==> e.reply == [] && Keeps(st, e)
    ensures silent ==> e.reply == []
  {
    if silent then Reply(st, [])
    else if |c.args| == 0 then Fail(st, MissingArgument(0))
    else match ParseInteger(c.args[0], INT_MIN, INT_MAX)
      case None => Fail(st, NotANumber(c.args[0]))
      case Some(n) =>
        if |c.args| < 2 then Fail(st, MissingArgument(1))
        else if ParseInteger(c.args[1], INT_MIN, INT_MAX).None? then Fail(st, NotANumber(c.args[1]))
        else if st.offset == 0 then Reply(st, IntegerReply(st.replicaCount))
        else if n < 0 then Fail(st, NegativeLatchCount)
        else Effect(Ok(()), IntegerReply(WaitCount(n, env.latch)), st.store, st.tasks, 0)
  }

  /** The three-argument `execute`: what a command does, chosen by its tag. */
  function Step(st: EngineState, c: Command, env: Env, silent: bool): (e: Effect)
    ensures c.name.None? ==> e.result == Err(NullTag)
    ensures c.name != Some(SET) ==> e.store == st.store && e.tasks == st.tasks
    ensures c.name != Some(WAIT) || silent ==> e.offset == st.offset
    ensures silent && c.name != Some(REPLCONF) ==> e.reply == []
    ensures e.result.Err? ==> e.reply == [] && Keeps(st, e)
  {
    if c.name.None? then Fail(st, NullTag)
    else match c.name.value
      case PING => Reply(st, if silent then [] else SimpleString("PONG"))
      case ECHO => EchoStep(st, c, silent)
      case SET => SetStep(st, c, silent)
      case GET => GetStep(st, c, env, silent)
      case KEYS => Fail(st, KeysNotModelled)
      case CONFIG => ConfigStep(st, c, silent)
      case INFO => Reply(st, if silent then [] else BulkString(InfoText(st.isReplica, st.replId, st.offset)))
      case REPLCONF => ReplConfStep(st, c, env, silent)
      case PSYNC => Reply(st, if silent then [] else PsyncReply(st.replId, st.offset))
      case WAIT => WaitStep(st, c, env, silent)
  }

  /** The two-argument `execute` a client's command goes through: unsilenced,
      and a SET that succeeds advances the offset by its counted length, with
      `int` wrap-around. */
  function ClientStep(st: EngineState, c: Command, env: Env): Effect {
    var e := Step(st, c, env, false);
    if c.name == Some(SET) && e.result.Ok? then e.(offset := JavaLang.Int32(e.offset + LengthInBytes(c)))
    else e
  }

  /** The state a command leaves behind. */
  function After(st: EngineState, e: Effect): EngineState {
    st.(store := e.store, tasks := e.tasks, offset := e.offset)
  }

  /** A GET after a SET that succeeded answers with the value just set,
      silent or not, with or without a time to live. */
  lemma SetThenGet(st: EngineState, c: Command, env: Env, silent: bool, now: int)
    requires c.name == Some(SET) && Step(st, c, env, silent).result.Ok?
    ensures 2 <= |c.args|
    ensures Step(After(st, Step(st, c, env, silent)), Command(Some(GET), [c.args[0]]), env.(now := now), false)
      == Reply(After(st, Step(st, c, env, silent)), BulkString(c.args[1]))
  {
  }

  /** Once a WAIT has answered from the latch the offset is 0, so the next
      WAIT answers with the replica count. */
  lemma WaitThenWait(st: EngineState, c: Command, d: Command, env: Env, env': Env)
    requires c.name == Some(WAIT) && d.name == Some(WAIT)
    requires Step(st, c, env, false).result.Ok? && Step(st, d, env', false).result.Ok?
    ensures Step(st, c, env, false).offset == 0
    ensures Step(After(st, Step(st, c, env, false)), d, env', false).reply == IntegerReply(st.replicaCount)
  {
  }

  /** CONFIG GET with the path built at start-up from a directory and a file
      name with no slash answers with the asked name and that directory. */
  lemma ConfigGetAnswersDir(st: EngineState, c: Command, env: Env, dir: string, name: string)
    requires c.name == Some(CONFIG) && 2 <= |c.args| && EqualsIgnoreCase(c.args[0], "GET")
    requires st.rdbFilePath == Some(dir + "/" + name)
    requires forall i :: 0 <= i < |name| ==> name[i] != '/'
    ensures Step(st, c, env, false) == Reply(st, RespWriter.WriteArray([c.args[1], dir]))
  {
    DirectoryOfJoinedPath(dir, name);
  }

  /** The offset stays a Java `int` whatever a client sends. */
  lemma ClientStepKeepsOffsetInt(st: EngineState, c: Command, env: Env)
    requires INT_MIN <= st.offset <= INT_MAX
    ensures INT_MIN <= ClientStep(st, c, env).offset <= INT_MAX
  {
  }

  // ---------------------------------------------------------------------------
  // What a replica reads back

  lemma DigitsAreAscii(n: nat)
    ensures IsAscii(Digits(n))
  {
    assert AllDigits(Digits(n));
  }

  /** A loose bound on the length of a decimal spelling. */
  lemma {:induction false} DigitsLength(n: nat)
    ensures |Digits(n)| <= n / 2 + 1
    decreases n
  {
    if n >= 10 {
      DigitsLength(n / 10);
    }
  }

  /** Each bulk string adds at least six framing bytes to its text. */
  lemma {:induction false} BulkStringsLength(xs: seq<string>)
    ensures |RespWriter.BulkStrings(xs)| >= SumLengths(xs) + 6 * |xs|
  {
    if xs != [] {
      BulkStringsLength(xs[1..]);
    }
  }

  /** The amount the offset advances by for a propagated command is not the size
      of what the replicas receive: without wrap-around it is always smaller. */
  lemma CountedLengthBelowEncodedSize(c: Command)
    requires c.name.Some? && |Name(c.name.value)| + SumLengths(c.args) + 1 < TWO_31
    ensures LengthInBytes(c) < |RespWriter.WriteArray(ToArray(c))|
  {
    var xs := ToArray(c);
    BulkStringsLength(xs);
    assert xs[1..] == c.args;
    assert SumLengths(xs) == |Name(c.name.value)| + SumLengths(c.args);
  }

  /** A command the master propagates reaches the replica as `writeArray` of
      `toArray()`, and the replica's parser gets the same command back. */
  lemma PropagatedCommandParses(c: Command)
    requires c.name.Some? && Encodable(ToArray(c))
    ensures ParseSpec(RespWriter.WriteArray(ToArray(c)), 0) == Ok((c, |RespWriter.WriteArray(ToArray(c))|))
  {
    var w := RespWriter.WriteArray(ToArray(c));
    AtOfSlice(w, 0, w);
    WriteArrayRoundTrip(w, 0, ToArray(c));
    FromNameOfName(c.name.value);
    assert ToArray(c)[1..] == c.args;
  }

  /** Every piece of the acknowledgement is ASCII and short. */
  lemma AckReplyEncodable(processed: int)
    requires INT_MIN <= processed <= INT_MAX
    ensures Encodable(AckReply(processed))
  {
    var n := processed - 37;
    DigitsAreAscii(if n < 0 then -n else n);
    DigitsLength(if n < 0 then -n else n);
    assert IsAscii(IntToString(n)) && |IntToString(n)| < TWO_31;
  }

  /** The acknowledgement a replica sends parses, on the master, as a REPLCONF
      command whose arguments are `ACK` and the count. */
  lemma AckReplyParses(processed: int)
    requires INT_MIN <= processed <= INT_MAX
    ensures ParseSpec(RespWriter.WriteArray(AckReply(processed)), 0)
      == Ok((Command(Some(REPLCONF), ["ACK", IntToString(processed - 37)]), |RespWriter.WriteArray(AckReply(processed))|))
  {
    var c := Command(Some(REPLCONF), ["ACK", IntToString(processed - 37)]);
    assert ToArray(c) == AckReply(processed);
    AckReplyEncodable(processed);
    PropagatedCommandParses(c);
  }

  // ---------------------------------------------------------------------------
  // The engine

  class Engine {
    /** The store singleton that `KeyValueStore.getInstance()` hands out. */
    const kv: KeyValueStore
    /** `Main.masterReplOffset`, a Java `int`. */
    var masterReplOffset: int
    /** The number of registered replica connections. */
    var replicaCount: nat
    /** `Main.masterReplId`; `None` on a replica, which never sets it. */
    var masterReplId: Option<string>
    /** `Main.masterHostAndPort != null`. */
    var isReplica: bool
    /** `Main.rdbFilePath`, and the bytes of the file it names. */
    var rdbFilePath: Option<string>
    var rdbFile: seq<Byte>
    /** Everything written to the client's stream so far. */
    var out: seq<Byte>
    /** The commands handed to every registered replica, in order. */
    var propagated: seq<seq<string>>

    /** The state `Main.setup` leaves for a master (`isReplica` false, with an
        id) or a replica (`isReplica` true, with no id). */
    constructor (kv: KeyValueStore, isReplica: bool, masterReplId: Option<string>,
                 rdbFilePath: Option<string>, rdbFile: seq<Byte>)
      requires kv.Valid()
      ensures kv.Valid()
      ensures this.kv == kv && this.isReplica == isReplica && this.masterReplId == masterReplId
      ensures this.rdbFilePath == rdbFilePath && this.rdbFile == rdbFile
      ensures masterReplOffset == 0 && replicaCount == 0 && out == [] && propagated == []
    {
      this.kv := kv;
      this.isReplica := isReplica;
      this.masterReplId := masterReplId;
      this.rdbFilePath := rdbFilePath;
      this.rdbFile := rdbFile;
      masterReplOffset := 0;
      replicaCount := 0;
      out := [];
      propagated := [];
    }

    /** The command ended with result `r`, wrote `e.reply`, and left the store,
        the scheduled removals and the offset as `e` says. */
    twostate predicate Performed(new e: Effect, new r: Result<(), Failure>)
      reads this, kv
    {
      && r == e.result && out == old(out) + e.reply
      && kv.store == e.store && kv.expirationTasks == e.tasks && masterReplOffset == e.offset
    }

    // -------------------------------------------------------------------------
    // The encoders

    /** `writeSimpleString`: `+s\r\n`. */
    method WriteSimpleString(s: string)
      modifies this`out
      ensures out == old(out) + SimpleString(s)
    {
      LineIsWrittenText('+', s);
      out := out + WriteBytes("+" + s + "\r\n");
    }

    /** `writeBulkString`: the length line, then the text and CR LF, as two writes. */
    method WriteBulkString(s: string)
      modifies this`out
      ensures out == old(out) + BulkString(s)
    {
      BulkStringIsWrittenText(s);
      out := out + WriteBytes("$" + IntToString(|s|) + "\r\n");
      out := out + WriteBytes(s + "\r\n");
    }

    /** `writeArray`: the count line, then each element as a bulk string. */
    method WriteArray(xs: seq<string>)
      modifies this`out
      ensures out == old(out) + RespWriter.WriteArray(xs)
    {
      ghost var before := out;
      LineIsWrittenText('*', IntToString(|xs|));
      out := out + WriteBytes("*" + IntToString(|xs|) + "\r\n");
      ghost var header := out;
      assert header == before + Line('*', IntToString(|xs|));
      for i := 0 to |xs|
        invariant out == header + BulkStrings(xs[..i])
      {
        ghost var written := out;
        WriteBulkString(xs[i]);
        OneMoreWritten(header, written, out, xs, i);
      }
      assert xs[..|xs|] == xs;
      ArrayWritten(before, header, out, xs);
    }

    // -------------------------------------------------------------------------
    // The handlers

    /** `executePing`: `+PONG\r\n` unless silent. */
    method ExecutePing(silent: bool)
      modifies this`out
      ensures silent ==> out == old(out)
      ensures !silent ==> out == old(out) + SimpleString("PONG")
      ensures Performed(Reply(old(State()), if silent then [] else SimpleString("PONG")), Ok(()))
    {
      if silent {
        return;
      }
      LineIsWrittenText('+', "PONG");
      out := out + WriteBytes("+PONG\r\n");
    }

    /** `executeEcho`: the first argument as a bulk string, unless silent. */
    method ExecuteEcho(c: Command, silent: bool) returns (r: Result<(), Failure>)
      modifies this`out
      ensures silent ==> r == Ok(()) && out == old(out)
      ensures !silent && |c.args| == 0 ==> r == Err(MissingArgument(0)) && out == old(out)
      ensures !silent && |c.args| > 0 ==> r == Ok(()) && out == old(out) + BulkString(c.args[0])
      ensures Performed(EchoStep(old(State()), c, silent), r)
    {
      if silent {
        return Ok(());
      }
      if |c.args| == 0 {
        return Err(MissingArgument(0));
      }
      WriteBulkString(c.args[0]);
      r := Ok(());
    }

    /** `executeSet`: with exactly four arguments the fourth is the time to live
        and the third is never looked at; otherwise the value is stored with no
        expiry. The store changes even when silent; `+OK\r\n` is written only
        when not. */
    method ExecuteSet(c: Command, silent: bool) returns (r: Result<(), Failure>)
      requires kv.Valid()
      modifies this`out, kv
      ensures kv.Valid()
      ensures |c.args| == 4 && ParseInteger(c.args[3], LONG_MIN, LONG_MAX).None? ==>
        r == Err(NotANumber(c.args[3]))
      ensures |c.args| < 2 ==> r == Err(MissingArgument(|c.args|))
      ensures r == Ok(()) <==> 2 <= |c.args| && (|c.args| == 4 ==> ParseInteger(c.args[3], LONG_MIN, LONG_MAX).Some?)
      ensures r.Err? ==> out == old(out) && kv.store == old(kv.store) && kv.expirationTasks == old(kv.expirationTasks)
      ensures r.Ok? ==>
        && kv.store == old(kv.store)[c.args[0] := c.args[1]]
        && kv.expirationTasks == (if |c.args| == 4 then old(kv.expirationTasks)[c.args[0] := true] else old(kv.expirationTasks))
        && (silent ==> out == old(out))
        && (!silent ==> out == old(out) + SimpleString("OK"))
      ensures Performed(SetStep(old(State()), c, silent), r)
    {
      if |c.args| == 4 {
        var ttl := ParseInteger(c.args[3], LONG_MIN, LONG_MAX);
        if ttl.None? {
          return Err(NotANumber(c.args[3]));
        }
        kv.PutWithTtl(c.args[0], c.args[1], ttl.value);
      } else {
        if |c.args| < 2 {
          return Err(MissingArgument(|c.args|));
        }
        kv.Put(c.args[0], c.args[1]);
      }
      if !silent {
        LineIsWrittenText('+', "OK");
        out := out + WriteBytes("+OK\r\n");
      }
      r := Ok(());
    }

    /** The fields a command reads or changes, other than the streams. */
    function State(): EngineState
      reads this`masterReplOffset, this`replicaCount, this`masterReplId, this`isReplica
      reads this`rdbFilePath, this`rdbFile, kv
    {
      EngineState(kv.store, kv.expirationTasks, masterReplOffset, replicaCount,
                  masterReplId, isReplica, rdbFilePath, rdbFile)
    }

    /** `executeGet`: a bulk string for a value, `$-1\r\n` when there is none.
        Silent GET does nothing. */
    method ExecuteGet(c: Command, env: Env, silent: bool) returns (r: Result<(), Failure>)
      modifies this`out
      ensures silent ==> r == Ok(()) && out == old(out)
      ensures !silent && |c.args| == 0 ==> r == Err(MissingArgument(0)) && out == old(out)
      ensures !silent && |c.args| > 0 && ValueOf(State(), c.args[0], env.now).Err? ==>
        r == Err(ValueOf(State(), c.args[0], env.now).error) && out == old(out)
      ensures !silent && |c.args| > 0 && ValueOf(State(), c.args[0], env.now).Ok? ==>
        && r == Ok(())
        && out == old(out) + match ValueOf(State(), c.args[0], env.now).value
                             case Some(v) => BulkString(v)
                             case None => NullBulkString
      ensures Performed(GetStep(old(State()), c, env, silent), r)
    {
      if silent {
        return Ok(());
      }
      if |c.args| == 0 {
        return Err(MissingArgument(0));
      }
      var key := c.args[0];
      var value := kv.Get(key);
      if value.None? && rdbFilePath.Some? {
        var read := RdbFileReader.ReadValueFromKey(rdbFile, key, env.now);
        if read.Err? {
          return Err(ReadFailed(read.error));
        }
        value := read.value;
      }
      if value.None? {
        LineIsWrittenText('$', "-1");
        out := out + WriteBytes("$-1\r\n");
      } else {
        WriteBulkString(value.value);
      }
      r := Ok(());
    }

    /** `executeConfig`: CONFIG GET answers with the asked name and the directory
        of the snapshot path, whatever the name was; any other subcommand throws. */
    method ExecuteConfig(c: Command, silent: bool) returns (r: Result<(), Failure>)
      modifies this`out
      ensures silent ==> r == Ok(()) && out == old(out)
      ensures !silent && |c.args| == 0 ==> r == Err(MissingArgument(0))
      ensures !silent && |c.args| > 0 && !EqualsIgnoreCase(c.args[0], "GET") ==> r == Err(InvalidCommand)
      ensures !silent && |c.args| > 0 && EqualsIgnoreCase(c.args[0], "GET") && Directory(rdbFilePath).Err? ==>
        r == Err(Directory(rdbFilePath).error)
      ensures !silent && |c.args| == 1 && EqualsIgnoreCase(c.args[0], "GET") && Directory(rdbFilePath).Ok? ==>
        r == Err(MissingArgument(1))
      ensures !silent && 2 <= |c.args| && EqualsIgnoreCase(c.args[0], "GET") && Directory(rdbFilePath).Ok? ==>
        r == Ok(())
      ensures r.Err? ==> out == old(out)
      ensures r.Ok? && !silent ==>
        2 <= |c.args| && Directory(rdbFilePath).Ok?
        && out == old(out) + RespWriter.WriteArray([c.args[1], Directory(rdbFilePath).value])
      ensures Performed(ConfigStep(old(State()), c, silent), r)
    {
      if silent {
        return Ok(());
      }
      if |c.args| == 0 {
        return Err(MissingArgument(0));
      }
      if !EqualsIgnoreCase(c.args[0], "GET") {
        return Err(InvalidCommand);
      }
      var dir := Directory(rdbFilePath);
      if dir.Err? {
        return Err(dir.error);
      }
      if |c.args| < 2 {
        return Err(MissingArgument(1));
      }
      WriteArray([c.args[1], dir.value]);
      r := Ok(());
    }

    /** `executeInfo`: the role, id and offset lines as one bulk string, unless silent. */
    method ExecuteInfo(silent: bool)
      modifies this`out
      ensures silent ==> out == old(out)
      ensures !silent ==> out == old(out) + BulkString(InfoText(isReplica, masterReplId, masterReplOffset))
      ensures Performed(Reply(old(State()), if silent then [] else BulkString(InfoText(isReplica, masterReplId, masterReplOffset))), Ok(()))
    {
      var info := (if isReplica then "role:slave\r\n" else "role:master\r\n");
      info := info + "master_replid:" + StringValueOf(masterReplId) + "\r\n";
      info := info + "master_repl_offset:" + IntToString(masterReplOffset) + "\r\n";
      if !silent {
        WriteBulkString(info);
      }
    }

    /** `executeReplConf`: GETACK, in any case, answers with the acknowledgement
        array even when silent; anything else answers `+OK\r\n` unless silent. */
    method ExecuteReplConf(c: Command, env: Env, silent: bool) returns (r: Result<(), Failure>)
      modifies this`out
      ensures |c.args| == 0 ==> r == Err(MissingArgument(0)) && out == old(out)
      ensures |c.args| > 0 ==> r == Ok(())
      ensures |c.args| > 0 && EqualsIgnoreCase(c.args[0], "getack") ==>
        out == old(out) + RespWriter.WriteArray(AckReply(env.processed))
      ensures |c.args| > 0 && !EqualsIgnoreCase(c.args[0], "getack") ==>
        (silent ==> out == old(out)) && (!silent ==> out == old(out) + SimpleString("OK"))
      ensures Performed(ReplConfStep(old(State()), c, env, silent), r)
    {
      if |c.args| == 0 {
        return Err(MissingArgument(0));
      }
      if EqualsIgnoreCase(c.args[0], "getack") {
        WriteArray(["REPLCONF", "ACK", IntToString(env.processed - 37)]);
      } else if !silent {
        WriteSimpleString("OK");
      }
      r := Ok(());
    }

    /** `executePsync`: the FULLRESYNC line with the id and offset, then the
        empty snapshot as a length line and raw bytes. Silent PSYNC writes nothing. */
    method ExecutePsync(silent: bool)
      modifies this`out
      ensures silent ==> out == old(out)
      ensures !silent ==> out == old(out) + PsyncReply(masterReplId, masterReplOffset)
      ensures Performed(Reply(old(State()), if silent then [] else PsyncReply(masterReplId, masterReplOffset)), Ok(()))
    {
      if silent {
        return;
      }
      ghost var before := out;
      WriteSimpleString("FULLRESYNC " + StringValueOf(masterReplId) + " " + IntToString(masterReplOffset));
      ghost var afterLine := out;
      var bytes := RdbEncoding.EMPTY_SNAPSHOT;
      LineIsWrittenText('$', IntToString(|bytes|));
      out := out + WriteBytes("$" + IntToString(|bytes|) + "\r\n");
      ghost var afterLength := out;
      out := out + bytes;
      ThreeWrites(before, SimpleString(FullResync(masterReplId, masterReplOffset)), Line('$', IntToString(|bytes|)), bytes,
                  afterLine, afterLength, out);
    }

    /** `executeWait`: with no writes since the last WAIT (offset 0) it answers
        with the number of replicas and leaves the offset alone; otherwise it
        answers with the number acknowledged as the latch reports it, and then
        resets the offset to 0. Silent WAIT does nothing. */
    method ExecuteWait(c: Command, env: Env, silent: bool) returns (r: Result<(), Failure>)
      modifies this`out, this`masterReplOffset
      ensures silent ==> r == Ok(()) && out == old(out) && masterReplOffset == old(masterReplOffset)
      ensures !silent && |c.args| == 0 ==> r == Err(MissingArgument(0))
      ensures !silent && |c.args| > 0 && ParseInteger(c.args[0], INT_MIN, INT_MAX).None? ==> r == Err(NotANumber(c.args[0]))
      ensures !silent && |c.args| == 1 && ParseInteger(c.args[0], INT_MIN, INT_MAX).Some? ==> r == Err(MissingArgument(1))
      ensures !silent && 2 <= |c.args| ==>
        var n := ParseInteger(c.args[0], INT_MIN, INT_MAX);
        var timeout := ParseInteger(c.args[1], INT_MIN, INT_MAX);
        && (n.Some? && timeout.None? ==> r == Err(NotANumber(c.args[1])))
        && (n.Some? && timeout.Some? && old(masterReplOffset) != 0 && n.value < 0 ==> r == Err(NegativeLatchCount))
      ensures r.Err? ==> out == old(out) && masterReplOffset == old(masterReplOffset)
      ensures !silent && r.Ok? && old(masterReplOffset) == 0 ==>
        out == old(out) + IntegerReply(replicaCount) && masterReplOffset == 0
      ensures !silent && r.Ok? && old(masterReplOffset) != 0 ==>
        && 2 <= |c.args|
        && ParseInteger(c.args[0], INT_MIN, INT_MAX).Some?
        && var n := ParseInteger(c.args[0], INT_MIN, INT_MAX).value;
           n >= 0 && out == old(out) + IntegerReply(WaitCount(n, env.latch)) && masterReplOffset == 0
      ensures !silent && 2 <= |c.args| ==>
        var n := ParseInteger(c.args[0], INT_MIN, INT_MAX);
        var timeout := ParseInteger(c.args[1], INT_MIN, INT_MAX);
        r == Ok(()) <==> n.Some? && timeout.Some? && (old(masterReplOffset) != 0 ==> n.value >= 0)
      ensures Performed(WaitStep(old(State()), c, env, silent), r)
    {
      if silent {
        return Ok(());
      }
      if |c.args| == 0 {
        return Err(MissingArgument(0));
      }
      var numReplicas := ParseInteger(c.args[0], INT_MIN, INT_MAX);
      if numReplicas.None? {
        return Err(NotANumber(c.args[0]));
      }
      if |c.args| < 2 {
        return Err(MissingArgument(1));
      }
      var timeout := ParseInteger(c.args[1], INT_MIN, INT_MAX);
      if timeout.None? {
        return Err(NotANumber(c.args[1]));
      }
      if masterReplOffset == 0 {
        out := out + WriteBytes(":" + IntToString(replicaCount) + "\r\n");
        LineIsWrittenText(':', IntToString(replicaCount));
        return Ok(());
      }
      if numReplicas.value < 0 {
        return Err(NegativeLatchCount);
      }
      var count := if env.latch.completed then numReplicas.value else numReplicas.value - env.latch.remaining;
      LineIsWrittenText(':', IntToString(count));
      out := out + WriteBytes(":" + IntToString(count) + "\r\n");
      masterReplOffset := 0;
      r := Ok(());
    }

    // -------------------------------------------------------------------------
    // Dispatch

    /** The three-argument `execute`: the `switch` on the tag, which has a case
        for every tag, so its `default` branch is never taken and a `null` tag
        throws from the `switch` itself. It does what `Step` says. */
    method Dispatch(c: Command, env: Env, silent: bool) returns (r: Result<(), Failure>)
      requires kv.Valid()
      modifies this`out, this`masterReplOffset, kv
      ensures kv.Valid()
      ensures Performed(Step(old(State()), c, env, silent), r)
    {
      if c.name.None? {
        return Err(NullTag);
      }
      ghost var st := State();
      match c.name.value {
        case PING =>
          assert Step(st, c, env, silent) == Reply(st, if silent then [] else SimpleString("PONG"));
          ExecutePing(silent);
          r := Ok(());
        case ECHO =>
          assert Step(st, c, env, silent) == EchoStep(st, c, silent);
          r := ExecuteEcho(c, silent);
        case SET =>
          assert Step(st, c, env, silent) == SetStep(st, c, silent);
          r := ExecuteSet(c, silent);
        case GET =>
          assert Step(st, c, env, silent) == GetStep(st, c, env, silent);
          r := ExecuteGet(c, env, silent);
        case KEYS =>
          r := Err(KeysNotModelled);
        case CONFIG =>
          assert Step(st, c, env, silent) == ConfigStep(st, c, silent);
          r := ExecuteConfig(c, silent);
        case INFO =>
          assert Step(st, c, env, silent) == Reply(st, if silent then [] else BulkString(InfoText(isReplica, masterReplId, masterReplOffset)));
          ExecuteInfo(silent);
          r := Ok(());
        case REPLCONF =>
          assert Step(st, c, env, silent) == ReplConfStep(st, c, env, silent);
          r := ExecuteReplConf(c, env, silent);
        case PSYNC =>
          assert Step(st, c, env, silent) == Reply(st, if silent then [] else PsyncReply(masterReplId, masterReplOffset));
          ExecutePsync(silent);
          r := Ok(());
        case WAIT =>
          assert Step(st, c, env, silent) == WaitStep(st, c, env, silent);
          r := ExecuteWait(c, env, silent);
      }
    }

    /** The two-argument `execute` that serves clients: it does what
        `ClientStep` says, and a SET that succeeds is handed to the replicas. */
    method Execute(c: Command, env: Env) returns (r: Result<(), Failure>)
      requires kv.Valid()
      modifies this`out, this`masterReplOffset, this`propagated, kv
      ensures kv.Valid()
      ensures Performed(ClientStep(old(State()), c, env), r)
      ensures propagated == if c.name == Some(SET) && r.Ok? then old(propagated) + [ToArray(c)] else old(propagated)
    {
      var isWriteCommand := c.name == Some(SET);
      r := Dispatch(c, env, false);
      if r.Err? {
        return;
      }
      if isWriteCommand {
        propagated := propagated + [ToArray(c)];
        masterReplOffset := JavaLang.Int32(masterReplOffset + LengthInBytes(c));
      }
    }
  }
}
