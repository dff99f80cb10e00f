/** A parsed request: the resolved command tag and its arguments. */
module Commands {
  import opened JavaLang
  import opened CommandNames

  /** `name` is `None` where the Java field holds `null` (an unrecognised first token). */
  datatype Command = Command(name: Option<CommandName>, args: seq<string>)

  /** `Command(String, String[])`: the tag is resolved, the arguments are kept as given. */
  function FromParts(command: string, args: seq<string>): Command {
    Command(FromName(command), args)
  }

  /** `Command(List<String>)`: the head names the command, the tail is the arguments. */
  function FromList(list: seq<string>): Command
    requires |list| > 0
  {
    Command(FromName(list[0]), list[1..])
  }

  /** `toArray`: the canonical name followed by the arguments. */
  function ToArray(c: Command): seq<string>
    requires c.name.Some?
  {
    [Name(c.name.value)] + c.args
  }

  function SumLengths(xs: seq<string>): nat {
    if xs == [] then 0 else |xs[0]| + SumLengths(xs[1..])
  }

  /** `getLengthInBytes`: name length plus argument lengths plus one, accumulated in a
      Java `int` (wrapping each step is the same as wrapping the total). */
  function LengthInBytes(c: Command): int
    requires c.name.Some?
  {
    Int32(|Name(c.name.value)| + SumLengths(c.args) + 1)
  }

  /** The two constructors agree: splitting a list by hand gives the same command. */
  lemma ConstructorsAgree(list: seq<string>)
    requires |list| > 0
    ensures FromParts(list[0], list[1..]) == FromList(list)
    ensures FromList(list).args == list[1..] && |FromList(list).args| == |list| - 1
  {
  }

  /** `new Command(list).toArray()` gives the list back with its head upper-cased. */
  lemma ToArrayOfFromList(list: seq<string>)
    requires |list| > 0 && FromName(list[0]).Some?
    ensures ToArray(FromList(list)) == [UpperCase(list[0])] + list[1..]
    ensures |ToArray(FromList(list))| == |list|
  {
    NameOfFromName(list[0]);
  }

  /** A list whose head is already a canonical name comes back unchanged. */
  lemma ToArrayOfCanonical(list: seq<string>, c: CommandName)
    requires |list| > 0 && list[0] == Name(c)
    ensures FromList(list).name == Some(c)
    ensures ToArray(FromList(list)) == list
  {
    FromNameOfName(c);
    assert list == [list[0]] + list[1..];
  }

  /** An unrecognised head gives a command with a null tag, not a construction error. */
  lemma UnknownHeadGivesNullTag(list: seq<string>)
    requires |list| > 0 && forall c: CommandName :: !EqualsIgnoreCase(Name(c), list[0])
    ensures FromList(list).name.None?
  {
  }

  /** Without wrap-around the counted length is at least four: every name has three
      or more letters, and one is added. */
  lemma LengthInBytesAtLeastFour(c: Command)
    requires c.name.Some? && |Name(c.name.value)| + SumLengths(c.args) + 1 < TWO_31
    ensures LengthInBytes(c) == |Name(c.name.value)| + SumLengths(c.args) + 1 >= 4
  {
  }
}
