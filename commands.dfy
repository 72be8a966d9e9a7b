/**
 * Reading a command line: the verb and its arguments, and the argument lists
 * of TAP, SWIPE / DRAG and KEYCODE with the order in which they are validated.
 */
module Commands {
  import opened Wrappers
  import opened JavaText
  import opened JavaNumbers
  import opened Devices
  import opened Protocol

  /** A trimmed line cut at its first space: the verb as typed, and the rest of the line trimmed. */
  datatype Command = Command(verb: string, arguments: string)

  function SplitCommand(trimmed: string): (c: Command)
    ensures ' ' !in c.verb
    ensures ' ' !in trimmed ==> c == Command(trimmed, [])
    ensures ' ' in trimmed ==>
      |c.verb| < |trimmed| && trimmed[..|c.verb| + 1] == c.verb + " " &&
      c.arguments == Trim(trimmed[|c.verb| + 1..])
  {
    var i := IndexOf(trimmed, ' ');
    if i == -1 then Command(trimmed, [])
    else
      assert trimmed[..i + 1] == trimmed[..i] + " ";
      Command(trimmed[..i], Trim(trimmed[i + 1..]))
  }

  /** A word a client may put on a line: non-empty, without blank chars. */
  predicate IsWord(w: string) {
    w != [] && forall k :: 0 <= k < |w| ==> !Blank(w[k])
  }

  /** A command line as a client writes it: the verb, then the arguments separated by single spaces. */
  function CommandLine(verb: string, arguments: seq<string>): string {
    if arguments == [] then verb else verb + " " + JoinWords(arguments)
  }

  lemma IndexOfFirst(a: string, c: char, b: string)
    requires c !in a
    ensures IndexOf(a + [c] + b, c) == |a|
  {
    var s := a + [c] + b;
    assert s[|a|] == c;
  }

  /** Words joined by single spaces start and end with a non-blank char and tokenize back into the words. */
  lemma {:induction false} JoinedWords(ts: seq<string>)
    requires ts != [] && forall k :: 0 <= k < |ts| ==> IsWord(ts[k])
    ensures var s := JoinWords(ts); s != [] && !Blank(s[0]) && !Blank(s[|s| - 1])
    ensures Tokens(JoinWords(ts)) == ts
  {
    if |ts| > 1 {
      JoinedWords(ts[1..]);
      var tail := JoinWords(ts[1..]);
      assert JoinWords(ts) == ts[0] + " " + tail;
      assert JoinWords(ts)[0] == ts[0][0];
    }
    forall k | 0 <= k < |ts|
      ensures IsToken(ts[k])
    {
      assert IsWord(ts[k]);
    }
    TokensOfJoinWords(ts);
  }

  lemma NoSpaceInWord(w: string)
    requires IsWord(w)
    ensures ' ' !in w
  {
    forall k | 0 <= k < |w|
      ensures w[k] != ' '
    {
      assert !Blank(w[k]);
    }
  }

  /** A line with arguments: the verb, one space and the joined words. */
  lemma SplitLineOfWords(verb: string, rest: string)
    requires IsWord(verb) && rest != [] && !Blank(rest[0]) && !Blank(rest[|rest| - 1])
    ensures Trim(verb + " " + rest) == verb + " " + rest
    ensures SplitCommand(verb + " " + rest) == Command(verb, rest)
  {
    var line := verb + " " + rest;
    NoSpaceInWord(verb);
    assert line == verb + [' '] + rest;
    assert line[|line| - 1] == rest[|rest| - 1];
    IndexOfFirst(verb, ' ', rest);
    assert line[..|verb|] == verb && line[|verb| + 1..] == rest;
  }

  /**
   * A line built from words is its own trim; it splits into the verb and the
   * joined arguments, and the arguments tokenize back into the words.
   */
  lemma LineOfWords(verb: string, arguments: seq<string>)
    requires IsWord(verb) && forall k :: 0 <= k < |arguments| ==> IsWord(arguments[k])
    ensures Trim(CommandLine(verb, arguments)) == CommandLine(verb, arguments)
    ensures SplitCommand(CommandLine(verb, arguments)) == Command(verb, JoinWords(arguments))
    ensures Tokens(JoinWords(arguments)) == arguments
  {
    if arguments == [] {
      NoSpaceInWord(verb);
      assert Tokens([]) == [];
    } else {
      JoinedWords(arguments);
      SplitLineOfWords(verb, JoinWords(arguments));
    }
  }

  /** `Integer.toString` writes a word: a '-' and decimal digits. */
  lemma IntToStringIsWord(v: int)
    ensures IsWord(IntToString(v))
  {
    var s := IntToString(v);
    var d := DecimalString(if v < 0 then -v else v);
    assert s == if v < 0 then "-" + d else d;
    forall k | 0 <= k < |s|
      ensures !Blank(s[k])
    {
      if v < 0 && k > 0 {
        assert s[k] == d[k - 1];
        assert DigitOf(d[k - 1], 10) >= 0;
      } else if v >= 0 {
        assert DigitOf(d[k], 10) >= 0;
      }
    }
  }

  /** The arguments of TAP: position, pressure (1.0 by default) and buttons (none by default). */
  datatype Tap = Tap(x: int, y: int, pressure: Float32, buttons: int)

  /**
   * `handleTap`'s validation: fewer than two tokens, a bad coordinate, a bad
   * pressure, bad buttons and a fifth token are refused, in that order.
   * `parseFloat` is `Float.parseFloat`, with `None` where it throws.
   */
  function ParseTap(arguments: string, parseFloat: string -> Option<Float32>): (r: Result<Tap, string>)
    ensures r.Failure? ==> r.error in {InvalidArgs, InvalidCoords, InvalidPressure, InvalidButtons}
    ensures var ts := Tokens(arguments);
      && (|ts| < 2 ==> r == Failure(InvalidArgs))
      && ((|ts| >= 2 && (ParseInt(ts[0], 10).None? || ParseInt(ts[1], 10).None?)) ==>
            r == Failure(InvalidCoords))
      && ((|ts| >= 3 && ParseInt(ts[0], 10).Some? && ParseInt(ts[1], 10).Some? &&
           parseFloat(ts[2]).None?) ==> r == Failure(InvalidPressure))
      && ((|ts| >= 4 && ParseInt(ts[0], 10).Some? && ParseInt(ts[1], 10).Some? &&
           parseFloat(ts[2]).Some? && ParseInt(ts[3], 10).None?) ==> r == Failure(InvalidButtons))
      && ((|ts| > 4 && ParseInt(ts[0], 10).Some? && ParseInt(ts[1], 10).Some? &&
           parseFloat(ts[2]).Some? && ParseInt(ts[3], 10).Some?) ==> r == Failure(InvalidArgs))
      && (r.Success? <==>
            2 <= |ts| <= 4 && ParseInt(ts[0], 10).Some? && ParseInt(ts[1], 10).Some? &&
            (|ts| > 2 ==> parseFloat(ts[2]).Some?) && (|ts| > 3 ==> ParseInt(ts[3], 10).Some?))
      && (r.Success? ==>
            r.value.x == ParseInt(ts[0], 10).value && r.value.y == ParseInt(ts[1], 10).value &&
            r.value.pressure == (if |ts| > 2 then parseFloat(ts[2]).value else FloatOne) &&
            r.value.buttons == (if |ts| > 3 then ParseInt(ts[3], 10).value else 0))
  {
    var ts := Tokens(arguments);
    if |ts| < 2 then Failure(InvalidArgs)
    else
      var x, y := ParseInt(ts[0], 10), ParseInt(ts[1], 10);
      if x.None? || y.None? then Failure(InvalidCoords)
      else
        var pressure := if |ts| > 2 then parseFloat(ts[2]) else Some(FloatOne);
        if pressure.None? then Failure(InvalidPressure)
        else
          var buttons := if |ts| > 3 then ParseInt(ts[3], 10) else Some(0);
          if buttons.None? then Failure(InvalidButtons)
          else if |ts| > 4 then Failure(InvalidArgs)
          else Success(Tap(x.value, y.value, pressure.value, buttons.value))
  }

  /** "TAP x y" as a client writes it is read back with pressure 1.0 and no buttons. */
  lemma ParseTapDefaults(x: int, y: int, parseFloat: string -> Option<Float32>)
    requires InIntRange(x) && InIntRange(y)
    ensures ParseTap(JoinWords([IntToString(x), IntToString(y)]), parseFloat) == Success(Tap(x, y, FloatOne, 0))
  {
    IntToStringIsWord(x);
    IntToStringIsWord(y);
    JoinedWords([IntToString(x), IntToString(y)]);
    ParseIntToString(x);
    ParseIntToString(y);
  }

  /** "TAP x y pressure buttons" is read back with every value as written. */
  lemma ParseTapFull(x: int, y: int, pressure: string, buttons: int, parseFloat: string -> Option<Float32>)
    requires InIntRange(x) && InIntRange(y) && InIntRange(buttons)
    requires IsWord(pressure) && parseFloat(pressure).Some?
    ensures ParseTap(JoinWords([IntToString(x), IntToString(y), pressure, IntToString(buttons)]), parseFloat)
      == Success(Tap(x, y, parseFloat(pressure).value, buttons))
  {
    IntToStringIsWord(x);
    IntToStringIsWord(y);
    IntToStringIsWord(buttons);
    JoinedWords([IntToString(x), IntToString(y), pressure, IntToString(buttons)]);
    ParseIntToString(x);
    ParseIntToString(y);
    ParseIntToString(buttons);
  }

  /** The arguments of SWIPE and DRAG: start, end and duration in milliseconds. */
  datatype Swipe = Swipe(x1: int, y1: int, x2: int, y2: int, duration: int)

  /** Five tokens that are all integers. */
  predicate FiveInts(ts: seq<string>) {
    |ts| == 5 && ParseInt(ts[0], 10).Some? && ParseInt(ts[1], 10).Some? && ParseInt(ts[2], 10).Some? &&
    ParseInt(ts[3], 10).Some? && ParseInt(ts[4], 10).Some?
  }

  /** `handleSwipe`'s validation: exactly five integer tokens, INVALID_ARGS otherwise. */
  function ParseSwipe(arguments: string): (r: Result<Swipe, string>)
    ensures r.Failure? ==> r.error == InvalidArgs
    ensures var ts := Tokens(arguments);
      && (r.Success? <==> FiveInts(ts))
      && (r.Success? ==> r.value == Swipe(ParseInt(ts[0], 10).value, ParseInt(ts[1], 10).value,
            ParseInt(ts[2], 10).value, ParseInt(ts[3], 10).value, ParseInt(ts[4], 10).value))
  {
    var ts := Tokens(arguments);
    if |ts| < 5 then Failure(InvalidArgs)
    else
      var x1, y1, x2, y2 := ParseInt(ts[0], 10), ParseInt(ts[1], 10), ParseInt(ts[2], 10), ParseInt(ts[3], 10);
      var duration := ParseInt(ts[4], 10);
      if x1.None? || y1.None? || x2.None? || y2.None? || duration.None? then Failure(InvalidArgs)
      else if |ts| > 5 then Failure(InvalidArgs)
      else Success(Swipe(x1.value, y1.value, x2.value, y2.value, duration.value))
  }

  /** "SWIPE x1 y1 x2 y2 duration" as a client writes it is read back as written. */
  lemma ParseSwipeFormat(s: Swipe)
    requires InIntRange(s.x1) && InIntRange(s.y1) && InIntRange(s.x2) && InIntRange(s.y2)
    requires InIntRange(s.duration)
    ensures ParseSwipe(JoinWords([IntToString(s.x1), IntToString(s.y1), IntToString(s.x2),
      IntToString(s.y2), IntToString(s.duration)])) == Success(s)
  {
    var ts := [IntToString(s.x1), IntToString(s.y1), IntToString(s.x2), IntToString(s.y2), IntToString(s.duration)];
    IntToStringIsWord(s.x1);
    IntToStringIsWord(s.y1);
    IntToStringIsWord(s.x2);
    IntToStringIsWord(s.y2);
    IntToStringIsWord(s.duration);
    JoinedWords(ts);
    ParseIntToString(s.x1);
    ParseIntToString(s.y1);
    ParseIntToString(s.x2);
    ParseIntToString(s.y2);
    ParseIntToString(s.duration);
  }

  /** The arguments of KEYCODE: the key code and the action word ("both" by default). */
  datatype KeycodeArgs = KeycodeArgs(keyCode: int, action: string)

  /** `handleKeycode`'s validation: a key code, at most one action word, nothing more. */
  function ParseKeycode(arguments: string): (r: Result<KeycodeArgs, string>)
    ensures r.Failure? ==> r.error in {InvalidArgs, InvalidKeycode}
    ensures var ts := Tokens(arguments);
      && (|ts| == 0 ==> r == Failure(InvalidArgs))
      && (|ts| >= 1 && ParseInt(ts[0], 10).None? ==> r == Failure(InvalidKeycode))
      && (|ts| > 2 && ParseInt(ts[0], 10).Some? ==> r == Failure(InvalidArgs))
      && (r.Success? <==> 1 <= |ts| <= 2 && ParseInt(ts[0], 10).Some?)
      && (r.Success? ==> r.value == KeycodeArgs(ParseInt(ts[0], 10).value, if |ts| == 2 then ts[1] else "both"))
  {
    var ts := Tokens(arguments);
    if |ts| == 0 then Failure(InvalidArgs)
    else
      var keyCode := ParseInt(ts[0], 10);
      if keyCode.None? then Failure(InvalidKeycode)
      else
        var action := if |ts| > 1 then ts[1] else "both";
        if |ts| > 2 then Failure(InvalidArgs)
        else Success(KeycodeArgs(keyCode.value, action))
  }

  /** "KEYCODE code [action]" as a client writes it is read back as written. */
  lemma ParseKeycodeFormat(keyCode: int, action: seq<string>)
    requires InIntRange(keyCode) && |action| <= 1
    requires forall k :: 0 <= k < |action| ==> IsWord(action[k])
    ensures ParseKeycode(JoinWords([IntToString(keyCode)] + action))
      == Success(KeycodeArgs(keyCode, if action == [] then "both" else action[0]))
  {
    var ts := [IntToString(keyCode)] + action;
    IntToStringIsWord(keyCode);
    forall k | 0 <= k < |ts|
      ensures IsWord(ts[k])
    {
      if k > 0 {
        assert ts[k] == action[k - 1];
      }
    }
    JoinedWords(ts);
    ParseIntToString(keyCode);
    var arguments := JoinWords(ts);
    assert Tokens(arguments) == ts && 1 <= |ts| <= 2 && ParseInt(ts[0], 10) == Some(keyCode);
    assert action != [] ==> ts[1] == action[0];
  }

  /** What `injectKeycode` does for an action word. */
  datatype KeyAction = PressDown | Release | PressAndRelease

  /** The action word in any letter case: "down", "up" or "both"; `None` for any other word. */
  function KeyActionOf(action: string): (r: Option<KeyAction>)
    ensures r == Some(PressDown) <==> ToLowerCase(action) == "down"
    ensures r == Some(Release) <==> ToLowerCase(action) == "up"
    ensures r == Some(PressAndRelease) <==> ToLowerCase(action) == "both"
    ensures r.None? <==> ToLowerCase(action) !in {"down", "up", "both"}
  {
    var normalized := ToLowerCase(action);
    if normalized == "down" then Some(PressDown)
    else if normalized == "up" then Some(Release)
    else if normalized == "both" then Some(PressAndRelease)
    else None
  }
}
