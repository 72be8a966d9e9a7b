/**
 * The server's command-line options: the client version check, then
 * `key=value` pairs applied in order over the defaults (`Options.parse`).
 */
module ServerOptions {
  import opened Wrappers
  import opened JavaText
  import opened JavaNumbers

  /** `Ln.Level`, the log levels in the order the server's logger knows them. */
  datatype LogLevel = Verbose | Debug | Info | Warn | Error

  function LevelName(level: LogLevel): string {
    match level
    case Verbose => "VERBOSE"
    case Debug => "DEBUG"
    case Info => "INFO"
    case Warn => "WARN"
    case Error => "ERROR"
  }

  /** `Ln.Level.valueOf(name)`: the level with exactly that name; `None` where Java throws. */
  function LevelValueOf(name: string): (r: Option<LogLevel>)
    ensures forall level :: r == Some(level) <==> LevelName(level) == name
  {
    if name == "VERBOSE" then Some(Verbose)
    else if name == "DEBUG" then Some(Debug)
    else if name == "INFO" then Some(Info)
    else if name == "WARN" then Some(Warn)
    else if name == "ERROR" then Some(Error)
    else None
  }

  /** The values of the seven option fields. */
  datatype Config = Config(
    logLevel: LogLevel,
    scid: int,
    tunnelForward: bool,
    control: bool,
    displayId: int,
    powerOn: bool,
    sendDummyByte: bool)

  /** The field initialisers of `Options`. */
  const Defaults: Config := Config(Debug, -1, false, true, 0, true, true)

  /** Why `parse` throws an IllegalArgumentException (NumberFormatException included). */
  datatype ParseError =
    | MissingClientVersion
    | VersionMismatch(server: string, client: string)
    | InvalidPair(arg: string)
    | InvalidNumber(value: string)
    | NegativeScid(scid: int)
    | UnknownLogLevel(value: string)

  /** `Boolean.parseBoolean`: true exactly for "true" in any letter case. */
  predicate ParseBoolean(value: string) {
    EqualsIgnoreCase(value, "true")
  }

  /** A boolean option is on exactly for a four-letter value spelling "true" with each letter in either case. */
  lemma ParseBooleanMatches(value: string)
    ensures ParseBoolean(value) <==> |value| == 4 && forall k :: 0 <= k < |value| ==>
      value[k] == "true"[k] || value[k] as int == "true"[k] as int - 32
  {
    LowerCaseFixed("true");
    LowerCaseMatches(value, "true");
  }

  /** Splits an argument at its first '=': the key before it, the value (which may hold '=') after it. */
  function SplitPair(arg: string): (r: Option<(string, string)>)
    ensures r.None? <==> '=' !in arg
    ensures r.Some? ==> '=' !in r.value.0 && r.value.0 + "=" + r.value.1 == arg
  {
    var i := IndexOf(arg, '=');
    if i == -1 then None
    else
      assert arg == arg[..i] + "=" + arg[i + 1..];
      Some((arg[..i], arg[i + 1..]))
  }

  const KnownKeys: set<string> :=
    {"scid", "log_level", "tunnel_forward", "control", "display_id", "power_on", "send_dummy_byte"}

  /** The value an option field can hold. */
  datatype FieldValue = IntValue(i: int) | BoolValue(b: bool) | LevelValue(level: LogLevel)

  /** The field a known key sets, read from `c`. */
  function Field(c: Config, key: string): FieldValue
    requires key in KnownKeys
  {
    if key == "scid" then IntValue(c.scid)
    else if key == "log_level" then LevelValue(c.logLevel)
    else if key == "tunnel_forward" then BoolValue(c.tunnelForward)
    else if key == "control" then BoolValue(c.control)
    else if key == "display_id" then IntValue(c.displayId)
    else if key == "power_on" then BoolValue(c.powerOn)
    else BoolValue(c.sendDummyByte)
  }

  /**
   * What a known key stores for a value: scid is read in base 16 and must be
   * -1 or more, display_id is read in base 10, log_level names a level in any
   * letter case, and the boolean keys follow `Boolean.parseBoolean`.
   */
  function Interpret(key: string, value: string): Option<FieldValue>
    requires key in KnownKeys
  {
    if key == "scid" then
      (var n := ParseInt(value, 16); if n.Some? && n.value >= -1 then Some(IntValue(n.value)) else None)
    else if key == "display_id" then
      (var n := ParseInt(value, 10); if n.Some? then Some(IntValue(n.value)) else None)
    else if key == "log_level" then
      (var l := LevelValueOf(ToUpperCase(value)); if l.Some? then Some(LevelValue(l.value)) else None)
    else Some(BoolValue(ParseBoolean(value)))
  }

  /** One `key=value` pair applied to the options: only the key's own field may change. */
  function ApplyOption(c: Config, key: string, value: string): (r: Result<Config, ParseError>)
    ensures key !in KnownKeys ==> r == Success(c)
    ensures key in KnownKeys ==> (r.Success? <==> Interpret(key, value).Some?)
    ensures r.Success? && key in KnownKeys ==> Field(r.value, key) == Interpret(key, value).value
    ensures r.Success? ==> forall k :: k in KnownKeys && k != key ==> Field(r.value, k) == Field(c, k)
  {
    if key == "scid" then
      match ParseInt(value, 16)
      case None => Failure(InvalidNumber(value))
      case Some(scid) => if scid < -1 then Failure(NegativeScid(scid)) else Success(c.(scid := scid))
    else if key == "log_level" then
      match LevelValueOf(ToUpperCase(value))
      case None => Failure(UnknownLogLevel(value))
      case Some(level) => Success(c.(logLevel := level))
    else if key == "tunnel_forward" then Success(c.(tunnelForward := ParseBoolean(value)))
    else if key == "control" then Success(c.(control := ParseBoolean(value)))
    else if key == "display_id" then
      match ParseInt(value, 10)
      case None => Failure(InvalidNumber(value))
      case Some(id) => Success(c.(displayId := id))
    else if key == "power_on" then Success(c.(powerOn := ParseBoolean(value)))
    else if key == "send_dummy_byte" then Success(c.(sendDummyByte := ParseBoolean(value)))
    else Success(c)
  }

  /** One argument applied to the options; an argument without '=' is refused. */
  function ApplyArg(c: Config, arg: string): Result<Config, ParseError> {
    match SplitPair(arg)
    case None => Failure(InvalidPair(arg))
    case Some((key, value)) => ApplyOption(c, key, value)
  }

  /** The arguments applied in order; the first argument that is refused decides the error. */
  function ApplyArgs(c: Config, args: seq<string>): Result<Config, ParseError> {
    if args == [] then Success(c)
    else
      match ApplyArgs(c, args[..|args| - 1])
      case Failure(e) => Failure(e)
      case Success(d) => ApplyArg(d, args[|args| - 1])
  }

  /** The arguments up to one more: the last one is applied to what the others gave. */
  lemma ApplyArgsSnoc(c: Config, args: seq<string>, init: seq<string>, last: string)
    requires args == init + [last]
    ensures ApplyArgs(c, args) ==
      match ApplyArgs(c, init)
      case Failure(e) => Failure(e)
      case Success(d) => ApplyArg(d, last)
  {
    assert args[..|args| - 1] == init;
  }

  /** An accepted argument is a `key=value` pair. */
  lemma AcceptedArgIsPair(c: Config, arg: string)
    requires ApplyArg(c, arg).Success?
    ensures '=' in arg
  {
  }

  /** Arguments that are all accepted are all `key=value` pairs. */
  lemma {:induction false} AcceptedArgsArePairs(c: Config, args: seq<string>)
    requires ApplyArgs(c, args).Success?
    ensures forall k :: 0 <= k < |args| ==> '=' in args[k]
  {
    if args != [] {
      var init, last := args[..|args| - 1], args[|args| - 1];
      ApplyArgsSnoc(c, args, init, last);
      var prefix := ApplyArgs(c, init);
      assert prefix.Success?;
      AcceptedArgsArePairs(c, init);
      assert ApplyArg(prefix.value, last) == ApplyArgs(c, args);
      AcceptedArgIsPair(prefix.value, last);
      forall k | 0 <= k < |args|
        ensures '=' in args[k]
      {
        if k < |init| {
          assert args[k] == init[k];
        }
      }
    }
  }

  /** `Options.parse(args)` with the server's own version name `serverVersion`. */
  function ParseOptions(args: seq<string>, serverVersion: string): (r: Result<Config, ParseError>)
    ensures args == [] ==> r == Failure(MissingClientVersion)
    ensures args != [] && args[0] != serverVersion ==> r == Failure(VersionMismatch(serverVersion, args[0]))
  {
    if |args| < 1 then Failure(MissingClientVersion)
    else if args[0] != serverVersion then Failure(VersionMismatch(serverVersion, args[0]))
    else ApplyArgs(Defaults, args[1..])
  }

  /** The value of the last argument whose key is `key`, if there is one. */
  function LastValue(args: seq<string>, key: string): Option<string> {
    if args == [] then None
    else
      match SplitPair(args[|args| - 1])
      case Some((k, v)) => if k == key then Some(v) else LastValue(args[..|args| - 1], key)
      case None => LastValue(args[..|args| - 1], key)
  }

  /**
   * After a successful parse, the field of a known key holds what the last
   * occurrence of that key says (a later occurrence overrides an earlier
   * one), and its initial value when the key never occurs.
   */
  lemma {:induction false} LastOccurrenceWins(c: Config, args: seq<string>, key: string)
    requires key in KnownKeys
    requires ApplyArgs(c, args).Success?
    ensures LastValue(args, key).None? ==> Field(ApplyArgs(c, args).value, key) == Field(c, key)
    ensures LastValue(args, key).Some? ==>
      Interpret(key, LastValue(args, key).value) == Some(Field(ApplyArgs(c, args).value, key))
  {
    if args != [] {
      LastOccurrenceWins(c, args[..|args| - 1], key);
    }
  }

  /** With no option arguments at all, `parse` yields the defaults. */
  lemma ParseVersionOnly(serverVersion: string)
    ensures ParseOptions([serverVersion], serverVersion) == Success(Defaults)
  {
    assert [serverVersion][1..] == [];
  }

  /**
   * A key that never occurs keeps its default: scid -1, control, power_on and
   * send_dummy_byte true, tunnel_forward false, display 0, log level DEBUG.
   */
  lemma AbsentKeyKeepsDefault(args: seq<string>, serverVersion: string, key: string)
    requires key in KnownKeys
    requires ParseOptions(args, serverVersion).Success?
    requires LastValue(args[1..], key).None?
    ensures Field(ParseOptions(args, serverVersion).value, key) == Field(Defaults, key)
  {
    LastOccurrenceWins(Defaults, args[1..], key);
  }

  /** After a successful parse the scid is -1 or more. */
  lemma {:induction false} ParsedScidInRange(c: Config, args: seq<string>)
    requires c.scid >= -1 && ApplyArgs(c, args).Success?
    ensures ApplyArgs(c, args).value.scid >= -1
  {
    if args != [] {
      ParsedScidInRange(c, args[..|args| - 1]);
    }
  }

  /** The option fields as a class; `parse` builds a fresh object and assigns its fields. */
  class Options {
    var logLevel: LogLevel
    var scid: int
    var tunnelForward: bool
    var control: bool
    var displayId: int
    var powerOn: bool
    var sendDummyByte: bool

    function Values(): Config
      reads this
    {
      Config(logLevel, scid, tunnelForward, control, displayId, powerOn, sendDummyByte)
    }

    constructor ()
      ensures Values() == Defaults
    {
      logLevel := Debug;
      scid := -1;
      tunnelForward := false;
      control := true;
      displayId := 0;
      powerOn := true;
      sendDummyByte := true;
    }

    /** The body of `parse`'s loop for one `key=value` pair: assigns the key's field, or reports why it cannot. */
    method SetOption(key: string, value: string) returns (error: Option<ParseError>)
      modifies this
      ensures error.None? ==> ApplyOption(old(Values()), key, value) == Success(Values())
      ensures error.Some? ==> ApplyOption(old(Values()), key, value) == Failure(error.value)
    {
      error := None;
      if key == "scid" {
        var parsed := ParseInt(value, 16);
        if parsed.None? {
          return Some(InvalidNumber(value));
        }
        if parsed.value < -1 {
          return Some(NegativeScid(parsed.value));
        }
        scid := parsed.value;
      } else if key == "log_level" {
        var level := LevelValueOf(ToUpperCase(value));
        if level.None? {
          return Some(UnknownLogLevel(value));
        }
        logLevel := level.value;
      } else if key == "tunnel_forward" {
        tunnelForward := ParseBoolean(value);
      } else if key == "control" {
        control := ParseBoolean(value);
      } else if key == "display_id" {
        var parsed := ParseInt(value, 10);
        if parsed.None? {
          return Some(InvalidNumber(value));
        }
        displayId := parsed.value;
      } else if key == "power_on" {
        powerOn := ParseBoolean(value);
      } else if key == "send_dummy_byte" {
        sendDummyByte := ParseBoolean(value);
      }
    }

    /** `Options.parse`: a fresh object holding the parsed options, or the reason parsing failed. */
    static method Parse(args: seq<string>, serverVersion: string) returns (r: Result<Options, ParseError>)
      ensures r.Success? <==> ParseOptions(args, serverVersion).Success?
      ensures r.Success? ==> fresh(r.value) && r.value.Values() == ParseOptions(args, serverVersion).value
      ensures r.Failure? ==> r.error == ParseOptions(args, serverVersion).error
    {
      if |args| < 1 {
        return Failure(MissingClientVersion);
      }
      var clientVersion := args[0];
      if clientVersion != serverVersion {
        return Failure(VersionMismatch(serverVersion, clientVersion));
      }
      var options := new Options();
      var i := 1;
      while i < |args|
        invariant 1 <= i <= |args|
        invariant fresh(options)
        invariant ApplyArgs(Defaults, args[1..i]) == Success(options.Values())
      {
        var arg := args[i];
        ParseStep(args, i, options.Values());
        var equalIndex := IndexOf(arg, '=');
        if equalIndex == -1 {
          return Failure(InvalidPair(arg));
        }
        var key, value := arg[..equalIndex], arg[equalIndex + 1..];
        assert SplitPair(arg) == Some((key, value));
        var error := options.SetOption(key, value);
        if error.Some? {
          return Failure(error.value);
        }
        i := i + 1;
      }
      assert args[1..i] == args[1..];
      r := Success(options);
    }
  }

  /** One step of `parse`'s loop: the next argument is applied to the options so far, and a refusal decides the result. */
  lemma ParseStep(args: seq<string>, i: int, c: Config)
    requires 1 <= i < |args| && ApplyArgs(Defaults, args[1..i]) == Success(c)
    ensures ApplyArgs(Defaults, args[1..i + 1]) == ApplyArg(c, args[i])
    ensures ApplyArg(c, args[i]).Failure? ==> ApplyArgs(Defaults, args[1..]) == ApplyArg(c, args[i])
  {
    ApplyArgsSnoc(Defaults, args[1..i + 1], args[1..i], args[i]);
    if ApplyArg(c, args[i]).Failure? {
      var rest := args[1..];
      assert rest[..i] == args[1..i + 1];
      FailurePrefix(Defaults, rest, i);
    }
  }

  /** A refused prefix makes every longer list refused with the same error. */
  lemma {:induction false} FailurePrefix(c: Config, args: seq<string>, n: nat)
    requires n <= |args|
    requires ApplyArgs(c, args[..n]).Failure?
    ensures ApplyArgs(c, args) == ApplyArgs(c, args[..n])
    decreases |args| - n
  {
    if n < |args| {
      var init := args[..|args| - 1];
      assert init[..n] == args[..n];
      FailurePrefix(c, init, n);
    } else {
      assert args[..n] == args;
    }
  }
}
