/**
 * Properties of the controller's handling of received lines: one reply per
 * line, the order in which verbs are dispatched and gated, what each command
 * does to the device, the clipboard round trip, and worked examples.
 */
module ControlProperties {
  import opened Wrappers
  import opened JavaText
  import opened JavaNumbers
  import opened Devices
  import opened Protocol
  import opened Commands
  import opened Gestures
  import opened ControlSpec
  import Base64

  /** A line made only of blank chars (the empty line included) is answered ERR EMPTY_COMMAND and changes nothing. */
  lemma BlankLineIsEmptyCommand(env: Env, d: DeviceState, line: string, clock: Clock)
    requires forall k :: 0 <= k < |line| ==> Blank(line[k])
    ensures HandleLine(env, d, line, clock) == (Err(EmptyCommand), d)
  {
  }

  /** PING is answered OK PONG in any letter case, with any arguments, whether or not input is supported. */
  lemma PingAnswersPong(env: Env, d: DeviceState, verb: string, arguments: seq<string>, clock: Clock)
    requires IsWord(verb) && ToUpperCase(verb) == "PING"
    requires forall k :: 0 <= k < |arguments| ==> IsWord(arguments[k])
    ensures HandleLine(env, d, CommandLine(verb, arguments), clock) == (Ok("PONG"), d)
  {
    LineOfWords(verb, arguments);
  }

  /**
   * On a display without input support every verb other than PING, CLIP_GET
   * and CLIP_SET, unknown verbs included, is answered ERR INPUT_NOT_SUPPORTED
   * and makes no call.
   */
  lemma InputGate(env: Env, d: DeviceState, line: string, clock: Clock)
    requires !env.supportsInputEvents && Trim(line) != []
    requires Verb(line) !in {"PING", "CLIP_GET", "CLIP_SET"}
    ensures HandleLine(env, d, line, clock) == (Err(InputNotSupported), d)
  {
  }

  /** With input support, a verb the controller does not know is answered ERR UNKNOWN_COMMAND and makes no call. */
  lemma UnknownVerb(env: Env, d: DeviceState, line: string, clock: Clock)
    requires env.supportsInputEvents && Trim(line) != []
    requires Verb(line) !in {"PING", "CLIP_GET", "CLIP_SET"} && Verb(line) !in InputVerbs
    ensures HandleLine(env, d, line, clock) == (Err(UnknownCommand), d)
  {
    Dispatch(env, d, line, clock);
  }

  /** A refused argument list is answered with the parser's error and makes no call. */
  lemma ValidationMakesNoCall(env: Env, d: DeviceState, line: string, clock: Clock)
    requires env.supportsInputEvents && Trim(line) != []
    ensures Verb(line) == "TAP" && ParseTap(Arguments(line), env.platform.parseFloat).Failure? ==>
      HandleLine(env, d, line, clock) == (Err(ParseTap(Arguments(line), env.platform.parseFloat).error), d)
    ensures (Verb(line) == "SWIPE" || Verb(line) == "DRAG") && ParseSwipe(Arguments(line)).Failure? ==>
      HandleLine(env, d, line, clock) == (Err(InvalidArgs), d)
    ensures Verb(line) == "KEYCODE" && ParseKeycode(Arguments(line)).Failure? ==>
      HandleLine(env, d, line, clock) == (Err(ParseKeycode(Arguments(line)).error), d)
  {
    Dispatch(env, d, line, clock);
  }

  /**
   * TAP, SWIPE / DRAG and KEYCODE: a refused argument list is answered with
   * the parser's error and makes no call; otherwise the injection runs, and
   * the reply is OK when it succeeded and INJECT_FAILED when it did not.
   */
  lemma InjectionReplies(env: Env, d: DeviceState, arguments: string, clock: Clock)
    ensures var parsed := ParseTap(arguments, env.platform.parseFloat);
      && (parsed.Failure? ==> TapReply(env, d, arguments, clock) == (Err(parsed.error), d))
      && (parsed.Success? ==> var (d1, ok) := TapRun(env, d, parsed.value, clock);
            TapReply(env, d, arguments, clock) == (if ok then Ok([]) else Err(InjectFailed), d1))
    ensures var parsed := ParseSwipe(arguments);
      && (parsed.Failure? ==> SwipeReply(env, d, arguments, clock) == (Err(parsed.error), d))
      && (parsed.Success? ==> var (d1, ok) := SwipeRun(env, d, parsed.value, clock);
            SwipeReply(env, d, arguments, clock) == (if ok then Ok([]) else Err(InjectFailed), d1))
    ensures var parsed := ParseKeycode(arguments);
      && (parsed.Failure? ==> KeycodeReply(env, d, arguments) == (Err(parsed.error), d))
      && (parsed.Success? ==> var (d1, ok) := KeycodeRun(env, d, parsed.value);
            KeycodeReply(env, d, arguments) == (if ok then Ok([]) else Err(InjectFailed), d1))
  {
  }

  /** `d1` is `d` after more calls: its history starts with all of `d`'s calls. */
  predicate Extends(d: DeviceState, d1: DeviceState) {
    |d.calls| <= |d1.calls| && d1.calls[..|d.calls|] == d.calls
  }

  /** `d1` is `d` after more calls, none of which writes the clipboard. */
  predicate ExtendsWithoutWrite(d: DeviceState, d1: DeviceState) {
    Extends(d, d1) && forall k :: |d.calls| <= k < |d1.calls| ==> !d1.calls[k].SetClipboardText?
  }

  /** TAP only appends calls, and none of them writes the clipboard. */
  lemma TapAppendsCalls(env: Env, d: DeviceState, arguments: string, clock: Clock)
    ensures ExtendsWithoutWrite(d, TapReply(env, d, arguments, clock).1)
  {
    match ParseTap(arguments, env.platform.parseFloat)
    case Failure(_) =>
    case Success(t) =>
      TapDownThenUp(env, d, t, clock);
      var d1 := TapRun(env, d, t, clock).0;
      assert d1.calls[..|d.calls|] == d.calls;
  }

  /** SWIPE / DRAG only append calls, and none of them writes the clipboard. */
  lemma SwipeAppendsCalls(env: Env, d: DeviceState, arguments: string, clock: Clock)
    ensures ExtendsWithoutWrite(d, SwipeReply(env, d, arguments, clock).1)
  {
    match ParseSwipe(arguments)
    case Failure(_) =>
    case Success(s) => SwipeInjectsOnly(env, d, s, clock);
  }

  /** KEYCODE only appends calls, and none of them writes the clipboard. */
  lemma KeycodeAppendsCalls(env: Env, d: DeviceState, arguments: string)
    ensures ExtendsWithoutWrite(d, KeycodeReply(env, d, arguments).1)
  {
    var d1 := KeycodeReply(env, d, arguments).1;
    assert d1.calls[..|d.calls|] == d.calls;
  }

  /** TEXT and CLIP_GET only append calls, and none of them writes the clipboard. */
  lemma TextAndClipboardGetAppendCalls(env: Env, d: DeviceState, arguments: string)
    ensures ExtendsWithoutWrite(d, TextReply(env, d, arguments).1)
    ensures ExtendsWithoutWrite(d, ClipboardGetReply(env, d).1)
  {
    match DecodeBase64(env.platform, arguments)
    case None =>
    case Some(text) => TextRunInjectsOnly(env, d, text);
    var d1 := ClipboardGetReply(env, d).1;
    assert d1.calls[..|d.calls|] == d.calls;
  }

  /**
   * CLIP_GET reads the clipboard once: CLIPBOARD_UNAVAILABLE when it is
   * unavailable (null), otherwise OK with its text as UTF-8 in Base 64.
   */
  lemma ClipboardGetOutcome(env: Env, d: DeviceState)
    ensures var (reply, d1) := ClipboardGetReply(env, d);
      && d1.calls == d.calls + [GetClipboardText]
      && (env.clipboard(d.calls).None? ==> reply == Err(ClipboardUnavailable))
      && (env.clipboard(d.calls).Some? ==> reply == Ok(EncodeBase64(env.platform, env.clipboard(d.calls).value)))
  {
  }

  /**
   * CLIP_SET: undecodable Base 64 is refused with INVALID_BASE64 and no call;
   * otherwise the decoded text is handed to the device in one call, answered
   * OK when the device takes it and CLIPBOARD_SET_FAILED when it does not.
   */
  lemma ClipboardSetOutcome(env: Env, d: DeviceState, arguments: string)
    ensures DecodeBase64(env.platform, arguments).None? ==> ClipboardSetReply(env, d, arguments) == (Err(InvalidBase64), d)
    ensures var decoded := DecodeBase64(env.platform, arguments);
      decoded.Some? ==>
        var (reply, d1) := ClipboardSetReply(env, d, arguments);
        && d1.calls == d.calls + [SetClipboardText(decoded.value)]
        && reply == (if env.accepts(d.calls, SetClipboardText(decoded.value)) then Ok([]) else Err(ClipboardSetFailed))
  {
  }

  /**
   * Handling a line only appends calls to the device's history, and only a
   * CLIP_SET line writes the clipboard.
   */
  lemma HandleLineAppendsCalls(env: Env, d: DeviceState, line: string, clock: Clock)
    ensures var d1 := HandleLine(env, d, line, clock).1;
      && Extends(d, d1)
      && (Trim(line) == [] || Verb(line) != "CLIP_SET" ==> ExtendsWithoutWrite(d, d1))
  {
    assert d.calls[..|d.calls|] == d.calls;
    if Trim(line) != [] {
      var command, arguments := Verb(line), Arguments(line);
      if command == "PING" {
      } else if command == "CLIP_GET" {
        TextAndClipboardGetAppendCalls(env, d, arguments);
      } else if command == "CLIP_SET" {
        ClipboardSetOutcome(env, d, arguments);
        var d1 := ClipboardSetReply(env, d, arguments).1;
        assert d1.calls[..|d.calls|] == d.calls;
      } else if !env.supportsInputEvents {
      } else if command == "TAP" {
        TapAppendsCalls(env, d, arguments, clock);
      } else if command == "SWIPE" || command == "DRAG" {
        SwipeAppendsCalls(env, d, arguments, clock);
      } else if command == "KEYCODE" {
        KeycodeAppendsCalls(env, d, arguments);
      } else if command == "TEXT" {
        TextAndClipboardGetAppendCalls(env, d, arguments);
      }
    }
  }

  /** A swipe only appends calls, and each of them injects a touch event. */
  lemma SwipeInjectsOnly(env: Env, d: DeviceState, s: Swipe, clock: Clock)
    ensures var d2 := SwipeRun(env, d, s, clock).0;
      && |d.calls| <= |d2.calls| && d2.calls[..|d.calls|] == d.calls
      && forall k :: |d.calls| <= k < |d2.calls| ==> d2.calls[k].InjectEvent?
  {
    var down := TouchCall(env, clock.down, clock.down, MotionDown, s.x1, s.y1, FloatOne, 0);
    var moves := MoveCalls(env, s, clock.down);
    assert forall k :: 0 <= k < |moves| ==> moves[k].InjectEvent?;
    var d2 := SwipeRun(env, d, s, clock).0;
    if env.accepts(d.calls, down) {
      if Attempt(Perform(d, env.accepts, down).0, env.accepts, moves).1 {
        SwipeCompleted(env, d, s, clock);
        assert forall k :: |d.calls| + 1 <= k < |d.calls| + 1 + |moves| ==> d2.calls[k] == moves[k - |d.calls| - 1];
      } else {
        SwipeMoveRefused(env, d, s, clock);
        var n := |d2.calls| - |d.calls| - 1;
        assert forall k :: |d.calls| + 1 <= k < |d2.calls| ==> d2.calls[k] == moves[..n][k - |d.calls| - 1];
      }
    }
    assert d2.calls[..|d.calls|] == d.calls;
  }

  /** A reply whose payload or message holds no line break. */
  predicate OneLine(r: Reply) {
    '\n' !in (if r.Ok? then r.payload else r.message)
  }

  /** The error messages are single words. */
  lemma ErrorMessagesAreOneLine()
    ensures forall m :: m in ErrorMessages ==> '\n' !in m
  {
  }

  /** Every handler's reply is a fixed word, or Base 64 text for CLIP_GET. */
  lemma HandlerRepliesAreOneLine(env: Env, d: DeviceState, arguments: string, clock: Clock)
    ensures OneLine(TapReply(env, d, arguments, clock).0) && OneLine(SwipeReply(env, d, arguments, clock).0)
    ensures OneLine(KeycodeReply(env, d, arguments).0) && OneLine(TextReply(env, d, arguments).0)
    ensures OneLine(ClipboardGetReply(env, d).0) && OneLine(ClipboardSetReply(env, d, arguments).0)
  {
    ParsedRepliesAreOneLine(env, d, arguments, clock);
    DecodedRepliesAreOneLine(env, d, arguments);
    ClipboardReplyIsOneLine(env, d);
  }

  /** CLIP_GET answers CLIPBOARD_UNAVAILABLE or Base 64 text. */
  lemma ClipboardReplyIsOneLine(env: Env, d: DeviceState)
    ensures OneLine(ClipboardGetReply(env, d).0)
  {
    ErrorMessagesAreOneLine();
    var text := env.clipboard(d.calls);
    if text.Some? {
      var encoded := EncodeBase64(env.platform, text.value);
      Base64.EncodeAlphabet(env.platform.utf8Encode(text.value));
      assert ClipboardGetReply(env, d).0 == Ok(encoded);
    }
  }

  /** A refused injection is answered with a fixed word. */
  lemma RespondIsOneLine(ok: bool, errorMessage: Option<string>)
    requires errorMessage.Some? ==> errorMessage.value in ErrorMessages
    ensures OneLine(Respond(ok, errorMessage))
  {
    ErrorMessagesAreOneLine();
  }

  /** TAP, SWIPE and KEYCODE answer a parser error or the injection's outcome. */
  lemma ParsedRepliesAreOneLine(env: Env, d: DeviceState, arguments: string, clock: Clock)
    ensures OneLine(TapReply(env, d, arguments, clock).0) && OneLine(SwipeReply(env, d, arguments, clock).0)
    ensures OneLine(KeycodeReply(env, d, arguments).0)
  {
    ErrorMessagesAreOneLine();
    match ParseTap(arguments, env.platform.parseFloat)
    case Failure(_) =>
    case Success(t) => RespondIsOneLine(TapRun(env, d, t, clock).1, None);
    match ParseSwipe(arguments)
    case Failure(_) =>
    case Success(s) => RespondIsOneLine(SwipeRun(env, d, s, clock).1, None);
    match ParseKeycode(arguments)
    case Failure(_) =>
    case Success(k) => RespondIsOneLine(KeycodeRun(env, d, k).1, None);
  }

  /** TEXT and CLIP_SET answer INVALID_BASE64, OK or a fixed error word. */
  lemma DecodedRepliesAreOneLine(env: Env, d: DeviceState, arguments: string)
    ensures OneLine(TextReply(env, d, arguments).0) && OneLine(ClipboardSetReply(env, d, arguments).0)
  {
    ErrorMessagesAreOneLine();
    match DecodeBase64(env.platform, arguments)
    case None =>
    case Some(text) =>
      var ok := Perform(d, env.accepts, SetClipboardText(text)).1;
      RespondIsOneLine(ok, if ok then None else Some(ClipboardSetFailed));
  }

  /** A reply line never holds a line break: error messages are fixed words and payloads are PONG or Base 64. */
  lemma ReplyIsOneLine(env: Env, d: DeviceState, line: string, clock: Clock)
    ensures '\n' !in Render(HandleLine(env, d, line, clock).0)
  {
    var reply := HandleLine(env, d, line, clock).0;
    RenderLineBreaks(reply);
    ErrorMessagesAreOneLine();
    if Trim(line) != [] {
      HandlerRepliesAreOneLine(env, d, Arguments(line), clock);
      Dispatch(env, d, line, clock);
    }
    assert OneLine(reply);
  }

  /**
   * TEXT: undecodable Base 64 is refused without a call; empty text is OK
   * without a call; otherwise every char is typed in turn, and the reply is OK
   * iff at least one char was typed, TEXT_NOT_SUPPORTED iff none was.
   */
  lemma TextOutcome(env: Env, d: DeviceState, arguments: string)
    ensures DecodeBase64(env.platform, arguments).None? ==> TextReply(env, d, arguments) == (Err(InvalidBase64), d)
    ensures DecodeBase64(env.platform, arguments) == Some([]) ==> TextReply(env, d, arguments) == (Ok([]), d)
    ensures var decoded := DecodeBase64(env.platform, arguments);
      decoded.Some? && decoded.value != [] ==>
        var (d1, typed) := TextRun(env, d, decoded.value);
        && TextReply(env, d, arguments).1 == d1
        && |typed| == |decoded.value|
        && (TextReply(env, d, arguments).0 == Ok([]) <==> true in typed)
        && (TextReply(env, d, arguments).0 == Err(TextNotSupported) <==> true !in typed)
  {
  }

  /** The number of typed chars lies between 0 and the text's length; it is the length iff every char was typed. */
  lemma TypedCount(env: Env, d: DeviceState, text: string)
    ensures var typed := TextRun(env, d, text).1;
      0 <= CountTrue(typed) <= |text| && (CountTrue(typed) == |text| <==> false !in typed)
  {
  }

  /** A line written as words is not blank; its verb is the first word upper-cased and its arguments the other words. */
  lemma CommandLineParts(verb: string, arguments: seq<string>)
    requires IsWord(verb) && forall k :: 0 <= k < |arguments| ==> IsWord(arguments[k])
    ensures var line := CommandLine(verb, arguments);
      && Trim(line) != [] && Verb(line) == ToUpperCase(verb)
      && Arguments(line) == JoinWords(arguments) && Tokens(Arguments(line)) == arguments
  {
    LineOfWords(verb, arguments);
  }

  /** Which handler answers a non-blank line, by its verb. */
  lemma Dispatch(env: Env, d: DeviceState, line: string, clock: Clock)
    requires Trim(line) != []
    ensures Verb(line) == "PING" ==> HandleLine(env, d, line, clock) == (OkReply(Some("PONG")), d)
    ensures Verb(line) == "CLIP_GET" ==> HandleLine(env, d, line, clock) == ClipboardGetReply(env, d)
    ensures Verb(line) == "CLIP_SET" ==> HandleLine(env, d, line, clock) == ClipboardSetReply(env, d, Arguments(line))
    ensures env.supportsInputEvents && Verb(line) == "TAP" ==>
      HandleLine(env, d, line, clock) == TapReply(env, d, Arguments(line), clock)
    ensures env.supportsInputEvents && (Verb(line) == "SWIPE" || Verb(line) == "DRAG") ==>
      HandleLine(env, d, line, clock) == SwipeReply(env, d, Arguments(line), clock)
    ensures env.supportsInputEvents && Verb(line) == "KEYCODE" ==>
      HandleLine(env, d, line, clock) == KeycodeReply(env, d, Arguments(line))
    ensures env.supportsInputEvents && Verb(line) == "TEXT" ==>
      HandleLine(env, d, line, clock) == TextReply(env, d, Arguments(line))
    ensures !env.supportsInputEvents && Verb(line) !in {"PING", "CLIP_GET", "CLIP_SET"} ==>
      HandleLine(env, d, line, clock) == (Err(InputNotSupported), d)
    ensures env.supportsInputEvents && Verb(line) !in InputVerbs + {"PING", "CLIP_GET", "CLIP_SET"} ==>
      HandleLine(env, d, line, clock) == (Err(UnknownCommand), d)
  {
  }

  /** CLIP_SET, in any letter case, is handled by `handleClipboardSet` whether or not input is supported. */
  lemma ClipboardSetLine(env: Env, d: DeviceState, verb: string, arguments: seq<string>, clock: Clock)
    requires IsWord(verb) && ToUpperCase(verb) == "CLIP_SET"
    requires forall k :: 0 <= k < |arguments| ==> IsWord(arguments[k])
    ensures HandleLine(env, d, CommandLine(verb, arguments), clock) == ClipboardSetReply(env, d, JoinWords(arguments))
  {
    CommandLineParts(verb, arguments);
    Dispatch(env, d, CommandLine(verb, arguments), clock);
  }

  /** CLIP_GET, in any letter case and with any arguments, is handled by `handleClipboardGet`. */
  lemma ClipboardGetLine(env: Env, d: DeviceState, verb: string, arguments: seq<string>, clock: Clock)
    requires IsWord(verb) && ToUpperCase(verb) == "CLIP_GET"
    requires forall k :: 0 <= k < |arguments| ==> IsWord(arguments[k])
    ensures HandleLine(env, d, CommandLine(verb, arguments), clock) == ClipboardGetReply(env, d)
  {
    CommandLineParts(verb, arguments);
  }

  /**
   * The clipboard round trip: on a clipboard that behaves as a plain store,
   * after CLIP_SET with a payload the device accepts, CLIP_GET answers OK with
   * the text's UTF-8 bytes in Base 64, which decode back to those bytes; and
   * when the platform's decoders undo the encoders, to the very text that was set.
   */
  lemma ClipboardRoundTrip(env: Env, d: DeviceState, setVerb: string, payload: string,
                           getVerb: string, getArguments: seq<string>, setClock: Clock, getClock: Clock)
    requires PassThrough(env.accepts, env.clipboard)
    requires IsWord(setVerb) && ToUpperCase(setVerb) == "CLIP_SET"
    requires IsWord(payload) && DecodeBase64(env.platform, payload).Some?
    requires env.accepts(d.calls, SetClipboardText(DecodeBase64(env.platform, payload).value))
    requires IsWord(getVerb) && ToUpperCase(getVerb) == "CLIP_GET"
    requires forall k :: 0 <= k < |getArguments| ==> IsWord(getArguments[k])
    ensures var text := DecodeBase64(env.platform, payload).value;
      var (r1, d1) := HandleLine(env, d, CommandLine(setVerb, [payload]), setClock);
      var (r2, d2) := HandleLine(env, d1, CommandLine(getVerb, getArguments), getClock);
      && r1 == Ok([])
      && r2 == Ok(EncodeBase64(env.platform, text))
      && Base64.Decode(r2.payload) == Some(env.platform.utf8Encode(text))
      && (env.platform.base64Decode(r2.payload) == Some(env.platform.utf8Encode(text)) &&
          env.platform.utf8Decode(env.platform.utf8Encode(text)) == text ==>
            DecodeBase64(env.platform, r2.payload) == Some(text))
  {
    var text := DecodeBase64(env.platform, payload).value;
    ClipboardSetLine(env, d, setVerb, [payload], setClock);
    assert JoinWords([payload]) == payload;
    var d1 := HandleLine(env, d, CommandLine(setVerb, [payload]), setClock).1;
    ClipboardSetOutcome(env, d, payload);
    assert d1.calls == d.calls + [SetClipboardText(text)];
    assert env.clipboard(d1.calls) == Some(text);
    ClipboardGetLine(env, d1, getVerb, getArguments, getClock);
    ClipboardGetOutcome(env, d1);
    Base64.DecodeEncode(env.platform.utf8Encode(text));
  }

  /** A handler that answers every line, and only lines, and goes on exactly after a line. */
  ghost predicate AnswersLines(handle: Handler) {
    forall d, input :: handle(d, input).alive == input.received.Line? && handle(d, input).reply.Some? == input.received.Line?
  }

  /** `handleEvent` answers every line and stops at the end of the stream or a read error. */
  lemma EventHandlerAnswersLines(env: Env)
    ensures AnswersLines(EventHandler(env))
  {
  }

  /** Inputs processed in order: one reply per line before the first end of stream or read error, and nothing after it. */
  lemma {:induction false} SessionReplies(handle: Handler, d: DeviceState, inputs: seq<Input>)
    requires AnswersLines(handle)
    ensures |Session(handle, d, inputs).1| == FirstStop(inputs)
    ensures Session(handle, d, inputs).2 <==> FirstStop(inputs) == |inputs|
    decreases |inputs|
  {
    if inputs != [] {
      SessionReplies(handle, d, inputs[..|inputs| - 1]);
      SessionCounts(handle, d, inputs);
      FirstStopExtended(inputs);
    }
  }

  /** One more input moves the first stop only when every earlier input was a line. */
  lemma FirstStopExtended(inputs: seq<Input>)
    requires inputs != []
    ensures var init := inputs[..|inputs| - 1];
      FirstStop(inputs) ==
        if FirstStop(init) < |init| then FirstStop(init)
        else if inputs[|inputs| - 1].received.Line? then |inputs|
        else |init|
  {
    var init := inputs[..|inputs| - 1];
    assert forall k :: 0 <= k < |init| ==> init[k] == inputs[k];
    var n := FirstStop(init);
    if n < |init| {
      FirstStopUnique(inputs, n);
    } else {
      FirstStopUnique(inputs, if inputs[|inputs| - 1].received.Line? then |inputs| else |init|);
    }
  }

  /** One more input adds a reply and keeps the session alive exactly when the session was alive and the input is a line. */
  lemma SessionCounts(handle: Handler, d: DeviceState, inputs: seq<Input>)
    requires AnswersLines(handle) && inputs != []
    ensures var (_, replies, alive) := Session(handle, d, inputs[..|inputs| - 1]);
      var line := alive && inputs[|inputs| - 1].received.Line?;
      |Session(handle, d, inputs).1| == |replies| + (if line then 1 else 0) &&
      Session(handle, d, inputs).2 == line
  {
    SessionSnoc(handle, d, inputs, inputs[..|inputs| - 1], inputs[|inputs| - 1]);
  }

  /** The first position that is not a line is unique. */
  lemma FirstStopUnique(inputs: seq<Input>, n: nat)
    requires n <= |inputs|
    requires forall k :: 0 <= k < n ==> inputs[k].received.Line?
    requires n < |inputs| ==> !inputs[n].received.Line?
    ensures FirstStop(inputs) == n
  {
  }

  /** TAP in any letter case with fewer than two arguments is refused with INVALID_ARGS, without a call. */
  lemma TapWithTooFewArguments(env: Env, d: DeviceState, verb: string, arguments: seq<string>, clock: Clock)
    requires env.supportsInputEvents && IsWord(verb) && ToUpperCase(verb) == "TAP"
    requires forall k :: 0 <= k < |arguments| ==> IsWord(arguments[k])
    requires |arguments| < 2
    ensures HandleLine(env, d, CommandLine(verb, arguments), clock) == (Err(InvalidArgs), d)
  {
    CommandLineParts(verb, arguments);
    Dispatch(env, d, CommandLine(verb, arguments), clock);
  }

  /** TAP whose first or second argument is not an integer is refused with INVALID_COORDS, without a call. */
  lemma TapWithBadCoordinates(env: Env, d: DeviceState, verb: string, arguments: seq<string>, clock: Clock)
    requires env.supportsInputEvents && IsWord(verb) && ToUpperCase(verb) == "TAP"
    requires forall k :: 0 <= k < |arguments| ==> IsWord(arguments[k])
    requires |arguments| >= 2 && (ParseInt(arguments[0], 10).None? || ParseInt(arguments[1], 10).None?)
    ensures HandleLine(env, d, CommandLine(verb, arguments), clock) == (Err(InvalidCoords), d)
  {
    CommandLineParts(verb, arguments);
    Dispatch(env, d, CommandLine(verb, arguments), clock);
  }

  /**
   * KEYCODE with a valid key code and an action word other than down, up or
   * both injects nothing and is answered INJECT_FAILED.
   */
  lemma KeycodeWithUnknownAction(env: Env, d: DeviceState, verb: string, arguments: seq<string>, clock: Clock)
    requires env.supportsInputEvents && IsWord(verb) && ToUpperCase(verb) == "KEYCODE"
    requires forall k :: 0 <= k < |arguments| ==> IsWord(arguments[k])
    requires |arguments| == 2 && ParseInt(arguments[0], 10).Some? && KeyActionOf(arguments[1]).None?
    ensures HandleLine(env, d, CommandLine(verb, arguments), clock) == (Err(InjectFailed), d)
  {
    CommandLineParts(verb, arguments);
    Dispatch(env, d, CommandLine(verb, arguments), clock);
  }

  // ---------------------------------------------------------------------------
  // Worked examples

  lemma TapTenLine()
    ensures CommandLine("TAP", ["10"]) == "TAP 10"
  {
  }

  /** "TAP 10" has too few arguments. */
  lemma TapTenExample(env: Env, d: DeviceState, clock: Clock)
    requires env.supportsInputEvents
    ensures HandleLine(env, d, "TAP 10", clock) == (Err(InvalidArgs), d)
  {
    assert IsWord("TAP") && IsWord("10");
    UpperCaseFixed("TAP");
    TapWithTooFewArguments(env, d, "TAP", ["10"], clock);
    TapTenLine();
  }

  lemma TapLettersLine()
    ensures CommandLine("tap", ["a", "b"]) == "tap a b"
  {
  }

  /** "tap a b" has coordinates that are not integers; the verb is read in any letter case. */
  lemma TapLettersExample(env: Env, d: DeviceState, clock: Clock)
    requires env.supportsInputEvents
    ensures HandleLine(env, d, "tap a b", clock) == (Err(InvalidCoords), d)
  {
    assert IsWord("tap") && IsWord("a") && IsWord("b");
    var upper := ToUpperCase("tap");
    assert upper[0] == 'T' && upper[1] == 'A' && upper[2] == 'P';
    assert DigitOf("a"[0], 10) == -1;
    TapWithBadCoordinates(env, d, "tap", ["a", "b"], clock);
    TapLettersLine();
  }

  /** "FOO" is not a verb the controller knows. */
  lemma FooExample(env: Env, d: DeviceState, clock: Clock)
    requires env.supportsInputEvents
    ensures HandleLine(env, d, "FOO", clock) == (Err(UnknownCommand), d)
  {
    assert IsWord("FOO");
    UpperCaseFixed("FOO");
    CommandLineParts("FOO", []);
    UnknownVerb(env, d, "FOO", clock);
  }

  lemma SidewaysLine()
    ensures CommandLine("KEYCODE", ["3", "sideways"]) == "KEYCODE 3 sideways"
  {
  }

  /** "KEYCODE 3 sideways": the action word is not down, up or both, so nothing is injected. */
  lemma SidewaysExample(env: Env, d: DeviceState, clock: Clock)
    requires env.supportsInputEvents
    ensures HandleLine(env, d, "KEYCODE 3 sideways", clock) == (Err(InjectFailed), d)
  {
    assert IsWord("KEYCODE") && IsWord("3") && IsWord("sideways");
    UpperCaseFixed("KEYCODE");
    assert ParseInt("3", 10) == Some(3) by {
      assert Magnitude("3") == "3";
      assert DigitsValue("3", 10) == DigitsValue("", 10) * 10 + 3 by {
        assert "3"[..0] == "";
      }
    }
    LowerCaseFixed("sideways");
    KeycodeWithUnknownAction(env, d, "KEYCODE", ["3", "sideways"], clock);
    SidewaysLine();
  }
}
