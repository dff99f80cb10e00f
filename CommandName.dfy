/** The ten commands the server knows, and the case-insensitive lookup that
    turns the first token of a request into one of them. */
module CommandNames {
  import opened JavaLang

  datatype CommandName = PING | ECHO | GET | SET | CONFIG | KEYS | INFO | REPLCONF | PSYNC | WAIT

  /** `values()`, in declaration order. */
  const Values: seq<CommandName> := [PING, ECHO, GET, SET, CONFIG, KEYS, INFO, REPLCONF, PSYNC, WAIT]

  /** `getName()`: the canonical upper-case spelling. */
  function Name(c: CommandName): string {
    match c
    case PING => "PING"
    case ECHO => "ECHO"
    case GET => "GET"
    case SET => "SET"
    case CONFIG => "CONFIG"
    case KEYS => "KEYS"
    case INFO => "INFO"
    case REPLCONF => "REPLCONF"
    case PSYNC => "PSYNC"
    case WAIT => "WAIT"
  }

  /** The loop of `fromName`: the first constant of `cs` whose name equals `s`
      ignoring case. */
  function FindIgnoringCase(cs: seq<CommandName>, s: string): (r: Option<CommandName>)
    ensures r.Some? ==> r.value in cs && EqualsIgnoreCase(Name(r.value), s)
    ensures r.None? ==> forall c :: c in cs ==> !EqualsIgnoreCase(Name(c), s)
  {
    if cs == [] then None
    else if EqualsIgnoreCase(Name(cs[0]), s) then Some(cs[0])
    else FindIgnoringCase(cs[1..], s)
  }

  /** `fromName`: `None` stands for the `null` it returns when nothing matches. */
  function FromName(s: string): (r: Option<CommandName>)
    ensures r.Some? ==> EqualsIgnoreCase(Name(r.value), s)
    ensures r.None? <==> forall c: CommandName :: !EqualsIgnoreCase(Name(c), s)
  {
    FindIgnoringCase(Values, s)
  }

  /** The names are upper case and pairwise distinct. */
  lemma NamesCanonical(c: CommandName, d: CommandName)
    ensures UpperCase(Name(c)) == Name(c)
    ensures c != d ==> Name(c) != Name(d)
  {
    var n := Name(c);
    assert forall i :: 0 <= i < |n| ==> 'A' <= n[i] <= 'Z';
    assert UpperCase(n) == n;
  }

  /** At most one constant matches a string, so `fromName` finds it wherever it is. */
  lemma {:induction false} FromNameFinds(s: string, c: CommandName)
    requires EqualsIgnoreCase(Name(c), s)
    ensures FromName(s) == Some(c)
  {
    var d := FromName(s).value;
    EqualsIgnoreCaseIsUpperCaseEquality(Name(c), s);
    EqualsIgnoreCaseIsUpperCaseEquality(Name(d), s);
    NamesCanonical(c, d);
    NamesCanonical(d, c);
  }

  /** `fromName(c.getName()) == c` for every constant. */
  lemma {:induction false} FromNameOfName(c: CommandName)
    ensures FromName(Name(c)) == Some(c)
  {
    FromNameFinds(Name(c), c);
  }

  /** A string that `fromName` resolves is the constant's name up to case. */
  lemma {:induction false} NameOfFromName(s: string)
    requires FromName(s).Some?
    ensures Name(FromName(s).value) == UpperCase(s)
  {
    var c := FromName(s).value;
    EqualsIgnoreCaseIsUpperCaseEquality(Name(c), s);
    NamesCanonical(c, c);
  }
}
