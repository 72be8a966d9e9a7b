/**
 * The controller as the server runs it: an object that reads lines from the
 * control channel, sends one response line for each, and drives the device,
 * reusing one pointer-coordinates object for every touch event. Every method
 * is proved to do what the `ControlSpec` functions describe.
 */
module Controllers {
  import opened Wrappers
  import opened JavaText
  import opened JavaNumbers
  import opened Devices
  import opened Protocol
  import opened Commands
  import opened Gestures
  import opened ControlChannel
  import opened ControlSpec
  import opened ControlProperties
  import ServerOptions

  /** The single pointer's coordinates, overwritten before every touch event. */
  class PointerCoords {
    var x: int
    var y: int
    var pressure: Float32

    constructor ()
      ensures x == 0 && y == 0 && pressure == Float32(0)
    {
      x := 0;
      y := 0;
      pressure := Float32(0);
    }
  }

  /** The number of trues in `bs` grows by one for each further true. */
  lemma CountTrueAppend(bs: seq<bool>, b: bool)
    ensures CountTrue(bs + [b]) == CountTrue(bs) + (if b then 1 else 0)
  {
    assert (bs + [b])[..|bs|] == bs;
  }

  /** The transcript of one more reply is the old transcript followed by that reply's line. */
  lemma TranscriptAppend(replies: seq<Reply>, r: Reply)
    ensures Transcript(replies + [r]) == Transcript(replies) + Render(r) + "\n"
  {
    assert (replies + [r])[..|replies|] == replies;
  }

  /** One more input handled by a session that is still alive: its step decides the device, the transcript and whether it goes on. */
  lemma SessionNext(handle: Handler, d: DeviceState, inputs: seq<Input>, i: nat)
    requires i < |inputs| && Session(handle, d, inputs[..i]).2
    ensures var (d1, replies, _) := Session(handle, d, inputs[..i]);
      var step := handle(d1, inputs[i]);
      var next := Session(handle, d, inputs[..i + 1]);
      && next.0 == step.device && next.2 == step.alive
      && Transcript(next.1) == Transcript(replies) + (if step.reply.Some? then Render(step.reply.value) + "\n" else [])
  {
    SessionSnoc(handle, d, inputs[..i + 1], inputs[..i], inputs[i]);
    var (d1, replies, _) := Session(handle, d, inputs[..i]);
    TranscriptExtend(replies, handle(d1, inputs[i]).reply);
  }

  /** The transcript of the replies and at most one more. */
  lemma TranscriptExtend(replies: seq<Reply>, reply: Option<Reply>)
    ensures Transcript(replies + (if reply.Some? then [reply.value] else [])) ==
      Transcript(replies) + (if reply.Some? then Render(reply.value) + "\n" else [])
  {
    if reply.Some? {
      TranscriptAppend(replies, reply.value);
    } else {
      assert replies + [] == replies;
    }
  }

  lemma AppendAssociative(a: string, b: string, c: string)
    ensures a + b + c == a + (b + c)
  {
  }

  /** A session that has read all its inputs, or has stopped, is over. */
  lemma SessionEnds(handle: Handler, d: DeviceState, inputs: seq<Input>, n: nat)
    requires n <= |inputs| && (n == |inputs| || !Session(handle, d, inputs[..n]).2)
    ensures Session(handle, d, inputs) == Session(handle, d, inputs[..n])
  {
    if n == |inputs| {
      assert inputs[..n] == inputs;
    } else {
      SessionStops(handle, d, inputs, n);
    }
  }

  /** Once a session has stopped, the remaining inputs are never read. */
  lemma {:induction false} SessionStops(handle: Handler, d: DeviceState, inputs: seq<Input>, n: nat)
    requires n <= |inputs| && !Session(handle, d, inputs[..n]).2
    ensures Session(handle, d, inputs) == Session(handle, d, inputs[..n])
    decreases |inputs| - n
  {
    if n < |inputs| {
      var init := inputs[..|inputs| - 1];
      assert init[..n] == inputs[..n];
      SessionStops(handle, d, init, n);
    } else {
      assert inputs[..n] == inputs;
    }
  }

  /** The i-th MOVE injection of a swipe (1 <= i < steps): its time and its point along the way. */
  lemma MoveCallAt(env: Env, s: Swipe, downTime: int, i: int)
    requires s.duration > 0 && 1 <= i < SwipeSteps(s.duration)
    ensures var steps := SwipeSteps(s.duration);
      MoveCalls(env, s, downTime)[i - 1] ==
        TouchCall(env, downTime, MoveTime(downTime, s.duration, i), MotionMove,
          MoveCoordinate(s.x1, s.x2, i, steps), MoveCoordinate(s.y1, s.y2, i, steps), FloatOne, 0)
  {
  }

  class Controller {
    const displayId: int
    const supportsInputEvents: bool
    const powerOn: bool
    const platform: Platform
    const channel: Channel
    const device: Device
    const coords: PointerCoords

    /** The fixed context the specification functions take. */
    function Environment(): Env {
      Env(displayId, supportsInputEvents, platform, device.accepts, device.clipboard)
    }

    /** The channel holds `output0` followed by the line of `outcome`'s reply, and the device is in `outcome`'s state. */
    predicate Answered(output0: string, outcome: (Reply, DeviceState))
      reads channel, device
    {
      channel.output == output0 + Render(outcome.0) + "\n" && device.State() == outcome.1
    }

    /**
     * The display and power-on setting come from the options; whether the
     * display takes input events is the device's answer for that display.
     */
    constructor (channel: Channel, options: ServerOptions.Options, device: Device, platform: Platform,
                 supportsInputEvents: int -> bool)
      ensures this.displayId == options.displayId && this.powerOn == options.powerOn
      ensures this.supportsInputEvents == supportsInputEvents(options.displayId)
      ensures this.channel == channel && this.device == device && this.platform == platform
      ensures fresh(coords) && coords.x == 0 && coords.y == 0 && coords.pressure == Float32(0)
    {
      displayId := options.displayId;
      this.channel := channel;
      powerOn := options.powerOn;
      this.device := device;
      this.platform := platform;
      coords := new PointerCoords();
      this.supportsInputEvents := supportsInputEvents(options.displayId);
    }

    // -------------------------------------------------------------------------
    // Responses

    /** `sendOk`: "OK", or "OK " and the payload when there is one. */
    method SendOk(payload: Option<string>)
      modifies channel
      ensures channel.output == old(channel.output) + Render(OkReply(payload)) + "\n"
    {
      if payload.None? || payload.value == [] {
        channel.Send("OK");
      } else {
        channel.Send("OK " + payload.value);
      }
    }

    /** `sendError`: "ERR", or "ERR " and the message when there is one. */
    method SendError(message: string)
      modifies channel
      ensures channel.output == old(channel.output) + Render(Err(message)) + "\n"
    {
      if message == [] {
        channel.Send("ERR");
      } else {
        channel.Send("ERR " + message);
      }
    }

    /** `respond`: OK on success, else the given message or INJECT_FAILED. */
    method Respond(ok: bool, errorMessage: Option<string>)
      modifies channel
      ensures channel.output == old(channel.output) + Render(Protocol.Respond(ok, errorMessage)) + "\n"
    {
      if ok {
        SendOk(None);
      } else if errorMessage.Some? && errorMessage.value != [] {
        SendError(errorMessage.value);
      } else {
        SendError(InjectFailed);
      }
    }

    // -------------------------------------------------------------------------
    // Injection

    /** `injectTouchEvent`: stores the point in the shared coordinates, then injects the event built from them. */
    method InjectTouchEvent(downTime: int, eventTime: int, action: int, x: int, y: int, pressure: Float32, buttons: int)
      returns (ok: bool)
      modifies device, coords
      ensures coords.x == x && coords.y == y && coords.pressure == pressure
      ensures (device.State(), ok) ==
        Perform(old(device.State()), device.accepts, TouchCall(Environment(), downTime, eventTime, action, x, y, pressure, buttons))
    {
      coords.x := x;
      coords.y := y;
      coords.pressure := pressure;
      var event := MotionEvent(downTime, eventTime, action, coords.x, coords.y, coords.pressure, buttons);
      ok := device.InjectEvent(Motion(event), displayId);
    }

    /** `injectTap`: DOWN, then UP whatever the answer to DOWN. */
    method InjectTap(t: Tap, clock: Clock) returns (ok: bool)
      modifies device, coords
      ensures (device.State(), ok) == TapRun(Environment(), old(device.State()), t, clock)
    {
      var downTime := clock.down;
      var downOk := InjectTouchEvent(downTime, downTime, MotionDown, t.x, t.y, t.pressure, t.buttons);
      var upTime := clock.up;
      var upOk := InjectTouchEvent(downTime, upTime, MotionUp, t.x, t.y, t.pressure, t.buttons);
      ok := downOk && upOk;
    }

    /** `injectSwipe`: DOWN, the MOVE steps until one is refused, then UP. */
    method InjectSwipe(s: Swipe, clock: Clock) returns (ok: bool)
      modifies device, coords
      ensures (device.State(), ok) == SwipeRun(Environment(), old(device.State()), s, clock)
    {
      var downTime := clock.down;
      var downOk := InjectTouchEvent(downTime, downTime, MotionDown, s.x1, s.y1, FloatOne, 0);
      if !downOk {
        return false;
      }
      var movesOk := InjectMoves(s, downTime);
      if !movesOk {
        return false;
      }
      var upTime := clock.up;
      ok := InjectTouchEvent(downTime, upTime, MotionUp, s.x2, s.y2, FloatOne, 0);
    }

    /**
     * `injectSwipe`'s loop: the MOVE event of every step but the last, until
     * one is refused (the pause of one step duration after each is not modelled).
     */
    method InjectMoves(s: Swipe, downTime: int) returns (ok: bool)
      modifies device, coords
      ensures (device.State(), ok) == Attempt(old(device.State()), device.accepts, MoveCalls(Environment(), s, downTime))
    {
      ghost var env := Environment();
      ghost var d1 := device.State();
      ghost var moves := MoveCalls(env, s, downTime);
      var steps := SwipeSteps(s.duration);
      if steps > 0 {
        var i := 1;
        while i < steps
          invariant 1 <= i <= steps && |moves| == steps - 1
          invariant Attempt(d1, device.accepts, moves[..i - 1]) == (device.State(), true)
        {
          // The point `i / steps` of the way, as Java's int arithmetic and Math.round give it.
          var moveX := MoveCoordinate(s.x1, s.x2, i, steps);
          var moveY := MoveCoordinate(s.y1, s.y2, i, steps);
          var eventTime := MoveTime(downTime, s.duration, i);
          MoveCallAt(env, s, downTime, i);
          ghost var before := device.State();
          var moved := InjectTouchEvent(downTime, eventTime, MotionMove, moveX, moveY, FloatOne, 0);
          AttemptStep(d1, device.accepts, moves, i - 1, before, (device.State(), moved));
          if !moved {
            return false;
          }
          i := i + 1;
        }
      }
      assert moves[..|moves|] == moves;
      ok := true;
    }

    /** `injectKeyEvent`: one key event with no repeat and no meta state. */
    method InjectKeyEvent(action: int, keyCode: int) returns (ok: bool)
      modifies device
      ensures (device.State(), ok) ==
        Perform(old(device.State()), device.accepts, Call.InjectKeyEvent(action, keyCode, displayId))
    {
      ok := device.InjectKeyEvent(action, keyCode, displayId);
    }

    /** `pressReleaseKeycode`: a key pressed and released. */
    method PressReleaseKeycode(keyCode: int) returns (ok: bool)
      modifies device
      ensures (device.State(), ok) ==
        Perform(old(device.State()), device.accepts, Call.PressReleaseKeycode(keyCode, displayId))
    {
      ok := device.PressReleaseKeycode(keyCode, displayId);
    }

    /** `injectKeycode`: down, up or both by the action word in any letter case; false for any other word. */
    method InjectKeycode(keyCode: int, action: string) returns (ok: bool)
      modifies device
      ensures (device.State(), ok) == KeycodeRun(Environment(), old(device.State()), KeycodeArgs(keyCode, action))
    {
      var normalized := ToLowerCase(action);
      if normalized == "down" {
        ok := InjectKeyEvent(KeyDown, keyCode);
      } else if normalized == "up" {
        ok := InjectKeyEvent(KeyUp, keyCode);
      } else if normalized == "both" {
        ok := PressReleaseKeycode(keyCode);
      } else {
        ok := false;
      }
    }

    /** `injectChar`: the key events that type `c`, until one is refused. */
    method InjectChar(c: char) returns (ok: bool)
      modifies device
      ensures (device.State(), ok) == CharRun(Environment(), old(device.State()), c)
    {
      ghost var d0 := device.State();
      var decomposed := platform.decompose(c);
      var chars := if decomposed.Some? then decomposed.value else [c];
      var events := platform.keyEvents(chars);
      if events.None? {
        return false;
      }
      ghost var calls := CharCalls(Environment(), c).value;
      assert forall k :: 0 <= k < |calls| ==> calls[k] == Call.InjectEvent(Key(events.value[k]), displayId);
      var i := 0;
      while i < |events.value|
        invariant 0 <= i <= |events.value| && |calls| == |events.value|
        invariant forall k :: 0 <= k < |calls| ==> calls[k] == Call.InjectEvent(Key(events.value[k]), displayId)
        invariant Attempt(d0, device.accepts, calls[..i]) == (device.State(), true)
      {
        ghost var before := device.State();
        var injected := device.InjectEvent(Key(events.value[i]), displayId);
        AttemptStep(d0, device.accepts, calls, i, before, (device.State(), injected));
        if !injected {
          return false;
        }
        i := i + 1;
      }
      assert calls[..|calls|] == calls;
      ok := true;
    }

    /** `injectText`: every char in turn, a refused one skipped; the number of chars typed. */
    method InjectText(text: string) returns (successCount: int)
      modifies device
      ensures device.State() == TextRun(Environment(), old(device.State()), text).0
      ensures successCount == CountTrue(TextRun(Environment(), old(device.State()), text).1)
    {
      ghost var d0 := device.State();
      successCount := 0;
      var i := 0;
      while i < |text|
        invariant 0 <= i <= |text|
        invariant device.State() == TextRun(Environment(), d0, text[..i]).0
        invariant successCount == CountTrue(TextRun(Environment(), d0, text[..i]).1)
      {
        var c := text[i];
        var injected := InjectChar(c);
        TextRunChar(Environment(), d0, text, i);
        CountTrueAppend(TextRun(Environment(), d0, text[..i]).1, injected);
        if injected {
          successCount := successCount + 1;
        }
        i := i + 1;
      }
      assert text[..|text|] == text;
    }

    // -------------------------------------------------------------------------
    // Handlers

    /** `handleTap`: the arguments checked in order, then the tap and its result. */
    method HandleTap(arguments: string, clock: Clock)
      modifies channel, device, coords
      ensures Answered(old(channel.output), TapReply(Environment(), old(device.State()), arguments, clock))
    {
      var tokens := Tokens(arguments);
      if |tokens| < 2 {
        SendError(InvalidArgs);
        return;
      }
      var x := ParseInt(tokens[0], 10);
      var y := ParseInt(tokens[1], 10);
      if x.None? || y.None? {
        SendError(InvalidCoords);
        return;
      }
      var next := 2;
      var pressure := FloatOne;
      if next < |tokens| {
        var parsedPressure := platform.parseFloat(tokens[next]);
        next := next + 1;
        if parsedPressure.None? {
          SendError(InvalidPressure);
          return;
        }
        pressure := parsedPressure.value;
      }
      var buttons := 0;
      if next < |tokens| {
        var parsedButtons := ParseInt(tokens[next], 10);
        next := next + 1;
        if parsedButtons.None? {
          SendError(InvalidButtons);
          return;
        }
        buttons := parsedButtons.value;
      }
      if next < |tokens| {
        SendError(InvalidArgs);
        return;
      }
      assert ParseTap(arguments, platform.parseFloat) == Success(Tap(x.value, y.value, pressure, buttons));
      var ok := InjectTap(Tap(x.value, y.value, pressure, buttons), clock);
      Respond(ok, None);
    }

    /** `handleSwipe`: exactly five integers, then the swipe and its result. */
    method HandleSwipe(arguments: string, clock: Clock)
      modifies channel, device, coords
      ensures Answered(old(channel.output), SwipeReply(Environment(), old(device.State()), arguments, clock))
    {
      var tokens := Tokens(arguments);
      if |tokens| < 5 {
        SendError(InvalidArgs);
        return;
      }
      var x1 := ParseInt(tokens[0], 10);
      var y1 := ParseInt(tokens[1], 10);
      var x2 := ParseInt(tokens[2], 10);
      var y2 := ParseInt(tokens[3], 10);
      var durationMs := ParseInt(tokens[4], 10);
      if x1.None? || y1.None? || x2.None? || y2.None? || durationMs.None? {
        SendError(InvalidArgs);
        return;
      }
      if |tokens| > 5 {
        SendError(InvalidArgs);
        return;
      }
      var s := Swipe(x1.value, y1.value, x2.value, y2.value, durationMs.value);
      assert ParseSwipe(arguments) == Success(s);
      var ok := InjectSwipe(s, clock);
      Respond(ok, None);
    }

    /** `handleKeycode`: a key code and at most one action word, then the key events and their result. */
    method HandleKeycode(arguments: string)
      modifies channel, device
      ensures Answered(old(channel.output), KeycodeReply(Environment(), old(device.State()), arguments))
    {
      var tokens := Tokens(arguments);
      if |tokens| == 0 {
        SendError(InvalidArgs);
        return;
      }
      var keyCode := ParseInt(tokens[0], 10);
      if keyCode.None? {
        SendError(InvalidKeycode);
        return;
      }
      var next := 1;
      var action := "both";
      if next < |tokens| {
        action := tokens[next];
        next := next + 1;
      }
      if next < |tokens| {
        SendError(InvalidArgs);
        return;
      }
      assert ParseKeycode(arguments) == Success(KeycodeArgs(keyCode.value, action));
      var ok := InjectKeycode(keyCode.value, action);
      Respond(ok, None);
    }

    /** `handleText`: the decoded text typed char by char; OK unless no char at all could be typed. */
    method HandleText(arguments: string)
      modifies channel, device
      ensures Answered(old(channel.output), TextReply(Environment(), old(device.State()), arguments))
    {
      var decoded := DecodeBase64(platform, arguments);
      if decoded.None? {
        SendError(InvalidBase64);
        return;
      }
      if decoded.value == [] {
        SendOk(None);
        return;
      }
      var injected := InjectText(decoded.value);
      if injected <= 0 {
        SendError(TextNotSupported);
        return;
      }
      SendOk(None);
    }

    /** `handleClipboardGet`: the clipboard's text in Base 64, or CLIPBOARD_UNAVAILABLE. */
    method HandleClipboardGet()
      modifies channel, device
      ensures Answered(old(channel.output), ClipboardGetReply(Environment(), old(device.State())))
    {
      var clipboardText := device.GetClipboardText();
      if clipboardText.None? {
        SendError(ClipboardUnavailable);
        return;
      }
      var encoded := EncodeBase64(platform, clipboardText.value);
      SendOk(Some(encoded));
    }

    /** `handleClipboardSet`: the decoded text handed to the device; OK iff it took it. */
    method HandleClipboardSet(arguments: string)
      modifies channel, device
      ensures Answered(old(channel.output), ClipboardSetReply(Environment(), old(device.State()), arguments))
    {
      var decoded := DecodeBase64(platform, arguments);
      if decoded.None? {
        SendError(InvalidBase64);
        return;
      }
      var ok := device.SetClipboardText(decoded.value);
      Respond(ok, if ok then None else Some(ClipboardSetFailed));
    }

    // -------------------------------------------------------------------------
    // The receive loop

    /** `handleEvent`: one reply for a received line and true; nothing and false at the end of the stream or on a read error. */
    method HandleEvent(received: Received, clock: Clock) returns (alive: bool)
      modifies channel, device, coords
      ensures var step := ControlSpec.HandleEvent(Environment(), old(device.State()), received, clock);
        && alive == step.alive && device.State() == step.device
        && channel.output == old(channel.output) + (if step.reply.Some? then Render(step.reply.value) + "\n" else [])
    {
      if !received.Line? {
        return false;
      }
      HandleLine(received.text, clock);
      alive := true;
    }

    /** The part of `handleEvent` that answers a received line. */
    method HandleLine(line: string, clock: Clock)
      modifies channel, device, coords
      ensures Answered(old(channel.output), ControlSpec.HandleLine(Environment(), old(device.State()), line, clock))
    {
      var trimmed := Trim(line);
      if trimmed == [] {
        SendError(EmptyCommand);
        return;
      }
      var cut := SplitCommand(trimmed);
      var command, arguments := ToUpperCase(cut.verb), cut.arguments;
      LineExecutes(Environment(), device.State(), line, clock, command, arguments);
      Execute(command, arguments, clock);
    }

    /** `handleEvent`'s switch on the upper-cased verb. */
    method Execute(command: string, arguments: string, clock: Clock)
      modifies channel, device, coords
      ensures Answered(old(channel.output), ControlSpec.Execute(Environment(), old(device.State()), command, arguments, clock))
    {
      if command == "PING" {
        SendOk(Some("PONG"));
        return;
      }
      if command == "CLIP_GET" {
        HandleClipboardGet();
        return;
      }
      if command == "CLIP_SET" {
        HandleClipboardSet(arguments);
        return;
      }
      if !supportsInputEvents {
        SendError(InputNotSupported);
        return;
      }
      if command == "TAP" {
        HandleTap(arguments, clock);
      } else if command == "SWIPE" || command == "DRAG" {
        HandleSwipe(arguments, clock);
      } else if command == "KEYCODE" {
        HandleKeycode(arguments);
      } else if command == "TEXT" {
        HandleText(arguments);
      } else {
        SendError(UnknownCommand);
      }
    }

    /**
     * `control`: wake the screen of the main display when asked to, then
     * handle the inputs in order until one of them ends the loop. The inputs
     * are those received before the thread is interrupted.
     */
    method Control(screenOn: bool, inputs: seq<Input>)
      modifies channel, device, coords
      ensures var (d, replies, _) := Session(EventHandler(Environment()), PowerOn(Environment(), old(device.State()), powerOn, screenOn), inputs);
        device.State() == d && channel.output == old(channel.output) + Transcript(replies)
    {
      if powerOn && displayId == 0 && !screenOn {
        var _ := PressReleaseKeycode(KeycodePower);
      }
      ghost var handle := EventHandler(Environment());
      ghost var d1 := device.State();
      ghost var output0 := channel.output;
      var alive := true;
      var i := 0;
      assert inputs[..0] == [];
      while i < |inputs| && alive
        invariant 0 <= i <= |inputs|
        invariant Session(handle, d1, inputs[..i]).0 == device.State()
        invariant Session(handle, d1, inputs[..i]).2 == alive
        invariant channel.output == output0 + Transcript(Session(handle, d1, inputs[..i]).1)
      {
        ghost var step := handle(device.State(), inputs[i]);
        assert step == ControlSpec.HandleEvent(Environment(), device.State(), inputs[i].received, inputs[i].clock);
        ghost var line: string := if step.reply.Some? then Render(step.reply.value) + "\n" else [];
        ghost var next := Session(handle, d1, inputs[..i + 1]);
        SessionNext(handle, d1, inputs, i);
        assert next.0 == step.device && next.2 == step.alive;
        AppendAssociative(output0, Transcript(Session(handle, d1, inputs[..i]).1), line);
        alive := HandleEvent(inputs[i].received, inputs[i].clock);
        assert next.0 == device.State() && next.2 == alive;
        i := i + 1;
      }
      SessionEnds(handle, d1, inputs, i);
    }
  }
}
