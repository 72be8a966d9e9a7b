/**
 * What the controller does with one received line, as a function: the reply
 * it sends and the calls it makes on the device, in order. The `Controllers`
 * module runs the same steps on objects and is proved to agree with it.
 */
module ControlSpec {
  import opened Wrappers
  import opened JavaText
  import opened JavaNumbers
  import opened Devices
  import opened Protocol
  import opened Commands
  import opened Gestures
  import Base64

  /**
   * Platform services the controller relies on whose behaviour is not part of
   * this model: `Float.parseFloat`, `Base64.decode(DEFAULT)`, UTF-8 decoding
   * and encoding, `KeyComposition.decompose` and
   * `KeyCharacterMap.getEvents` of the virtual keyboard. `None` stands for a
   * thrown exception or a null result.
   */
  datatype Platform = Platform(
    parseFloat: string -> Option<Float32>,
    base64Decode: string -> Option<seq<JByte>>,
    utf8Decode: seq<JByte> -> string,
    utf8Encode: string -> seq<JByte>,
    decompose: char -> Option<string>,
    keyEvents: string -> Option<seq<KeyEvent>>)

  /**
   * The fixed context of a controller: its display, whether that display takes
   * input, the platform, the device's answers and its clipboard.
   */
  datatype Env = Env(displayId: int, supportsInputEvents: bool, platform: Platform, accepts: Answer, clipboard: ClipboardSource)

  /** The two `SystemClock.uptimeMillis()` readings of a gesture: when it starts and when it is released. */
  datatype Clock = Clock(down: int, up: int)

  /** What `ControlChannel.recv` hands over: a line, the end of the stream (null), or an IOException. */
  datatype Received = Line(text: string) | EndOfStream | ReadFailed

  /** `decodeBase64`: the Base 64 bytes read as UTF-8, `None` where decoding throws. */
  function DecodeBase64(p: Platform, token: string): Option<string> {
    match p.base64Decode(token)
    case None => None
    case Some(bytes) => Some(p.utf8Decode(bytes))
  }

  /** `encodeBase64`: the text's UTF-8 bytes in Base 64 without line breaks. */
  function EncodeBase64(p: Platform, text: string): (r: string)
    ensures '\n' !in r && '\r' !in r
    ensures Base64.Decode(r) == Some(p.utf8Encode(text))
  {
    Base64.EncodeAlphabet(p.utf8Encode(text));
    Base64.DecodeEncode(p.utf8Encode(text));
    Base64.Encode(p.utf8Encode(text))
  }

  // ---------------------------------------------------------------------------
  // Calls made one after another until the device refuses one

  /**
   * Makes the calls in order and stops after the first one the device refuses;
   * the flag says whether every call was accepted.
   */
  function Attempt(d: DeviceState, accepts: Answer, cs: seq<Call>): (DeviceState, bool)
    decreases |cs|
  {
    if cs == [] then (d, true)
    else
      var (d1, ok1) := Attempt(d, accepts, cs[..|cs| - 1]);
      if !ok1 then (d1, false)
      else Perform(d1, accepts, cs[|cs| - 1])
  }

  /**
   * The calls made are a prefix of `cs`: all of them when every call was
   * accepted, and otherwise up to and including the first refused one.
   */
  lemma {:induction false} AttemptCalls(d: DeviceState, accepts: Answer, cs: seq<Call>)
    ensures var r := Attempt(d, accepts, cs);
      var n := |r.0.calls| - |d.calls|;
      && 0 <= n <= |cs| && r.0.calls == d.calls + cs[..n]
      && (r.1 ==> n == |cs|)
      && (n == 0 ==> r.1)
      && (n > 0 ==> (r.1 <==> accepts(d.calls + cs[..n - 1], cs[n - 1])))
      && (forall k :: 0 <= k < n - 1 ==> accepts(d.calls + cs[..k], cs[k]))
    decreases |cs|
  {
    if cs != [] {
      var init := cs[..|cs| - 1];
      AttemptCalls(d, accepts, init);
      var (d1, ok1) := Attempt(d, accepts, init);
      assert forall k :: 0 <= k < |init| ==> init[k] == cs[k];
      assert forall k :: 0 <= k <= |init| ==> init[..k] == cs[..k];
      if ok1 {
        assert d1.calls == d.calls + cs[..|cs| - 1];
        assert cs[..|cs|] == cs;
      }
    }
  }

  /** Once a prefix of the calls is refused, the remaining calls are never made. */
  lemma {:induction false} AttemptStops(d: DeviceState, accepts: Answer, cs: seq<Call>, n: nat)
    requires n <= |cs| && !Attempt(d, accepts, cs[..n]).1
    ensures Attempt(d, accepts, cs) == Attempt(d, accepts, cs[..n])
    decreases |cs| - n
  {
    if n < |cs| {
      var init := cs[..|cs| - 1];
      assert init[..n] == cs[..n];
      AttemptStops(d, accepts, init, n);
    } else {
      assert cs[..n] == cs;
    }
  }

  /**
   * One call after an accepted prefix: accepted, it extends the prefix;
   * refused, it ends the whole attempt.
   */
  lemma AttemptStep(d: DeviceState, accepts: Answer, cs: seq<Call>, i: nat, d1: DeviceState, next: (DeviceState, bool))
    requires i < |cs| && Attempt(d, accepts, cs[..i]) == (d1, true) && next == Perform(d1, accepts, cs[i])
    ensures next.1 ==> Attempt(d, accepts, cs[..i + 1]) == next
    ensures !next.1 ==> Attempt(d, accepts, cs) == next
  {
    AttemptNext(d, accepts, cs, i);
    if !next.1 {
      AttemptStops(d, accepts, cs, i + 1);
    }
  }

  /** Extending an accepted prefix by one more call. */
  lemma AttemptNext(d: DeviceState, accepts: Answer, cs: seq<Call>, i: nat)
    requires i < |cs|
    ensures Attempt(d, accepts, cs[..i + 1]) ==
      (var (d1, ok1) := Attempt(d, accepts, cs[..i]);
       if !ok1 then (d1, false) else Perform(d1, accepts, cs[i]))
  {
    assert cs[..i + 1][..i] == cs[..i];
  }

  // ---------------------------------------------------------------------------
  // TAP

  /** The injection of one single-pointer touch-screen event on the controller's display. */
  function TouchCall(env: Env, downTime: int, eventTime: int, action: int, x: int, y: int,
                     pressure: Float32, buttons: int): Call
  {
    InjectEvent(Motion(MotionEvent(downTime, eventTime, action, x, y, pressure, buttons)), env.displayId)
  }

  /** `injectTap`: DOWN, then UP at the same point, whatever the answer to DOWN; ok iff both were accepted. */
  function TapRun(env: Env, d: DeviceState, t: Tap, clock: Clock): (DeviceState, bool) {
    var down := TouchCall(env, clock.down, clock.down, MotionDown, t.x, t.y, t.pressure, t.buttons);
    var (d1, downOk) := Perform(d, env.accepts, down);
    var up := TouchCall(env, clock.down, clock.up, MotionUp, t.x, t.y, t.pressure, t.buttons);
    var (d2, upOk) := Perform(d1, env.accepts, up);
    (d2, downOk && upOk)
  }

  /**
   * A tap makes exactly two calls: DOWN then UP, both at the tap's point with
   * its pressure and buttons and the same down time; UP is sent even when DOWN
   * was refused, and the tap succeeds iff both were accepted.
   */
  lemma TapDownThenUp(env: Env, d: DeviceState, t: Tap, clock: Clock)
    ensures var (d2, ok) := TapRun(env, d, t, clock);
      && |d2.calls| == |d.calls| + 2 && d2.calls[..|d.calls|] == d.calls
      && d2.calls[|d.calls|] == InjectEvent(Motion(MotionEvent(clock.down, clock.down, MotionDown, t.x, t.y, t.pressure, t.buttons)), env.displayId)
      && d2.calls[|d.calls| + 1] == InjectEvent(Motion(MotionEvent(clock.down, clock.up, MotionUp, t.x, t.y, t.pressure, t.buttons)), env.displayId)
      && (ok <==> env.accepts(d.calls, d2.calls[|d.calls|]) && env.accepts(d.calls + [d2.calls[|d.calls|]], d2.calls[|d.calls| + 1]))
  {
  }

  // ---------------------------------------------------------------------------
  // SWIPE and DRAG

  /** The MOVE injections of a swipe, in order. */
  function MoveCalls(env: Env, s: Swipe, downTime: int): (cs: seq<Call>)
    ensures |cs| == |MoveEvents(s, downTime)|
  {
    var ms := MoveEvents(s, downTime);
    seq(|ms|, k requires 0 <= k < |ms| => InjectEvent(Motion(ms[k]), env.displayId))
  }

  /**
   * `injectSwipe`: DOWN at the start; if it is accepted, the MOVE events until
   * one is refused; if they all are accepted, UP at the end.
   */
  function SwipeRun(env: Env, d: DeviceState, s: Swipe, clock: Clock): (DeviceState, bool) {
    var down := TouchCall(env, clock.down, clock.down, MotionDown, s.x1, s.y1, FloatOne, 0);
    var (d1, downOk) := Perform(d, env.accepts, down);
    if !downOk then (d1, false)
    else
      var (d2, movesOk) := Attempt(d1, env.accepts, MoveCalls(env, s, clock.down));
      if !movesOk then (d2, false)
      else Perform(d2, env.accepts, TouchCall(env, clock.down, clock.up, MotionUp, s.x2, s.y2, FloatOne, 0))
  }

  /** A swipe whose DOWN is refused makes no further call and fails. */
  lemma SwipeDownRefused(env: Env, d: DeviceState, s: Swipe, clock: Clock)
    requires !env.accepts(d.calls, TouchCall(env, clock.down, clock.down, MotionDown, s.x1, s.y1, FloatOne, 0))
    ensures SwipeRun(env, d, s, clock) ==
      (DeviceState(d.calls + [TouchCall(env, clock.down, clock.down, MotionDown, s.x1, s.y1, FloatOne, 0)]), false)
  {
  }

  /**
   * A swipe whose DOWN is accepted and one of whose MOVE events is refused
   * stops there: DOWN, the MOVE events up to the refused one, no UP, and it fails.
   */
  lemma SwipeMoveRefused(env: Env, d: DeviceState, s: Swipe, clock: Clock)
    requires var down := TouchCall(env, clock.down, clock.down, MotionDown, s.x1, s.y1, FloatOne, 0);
      env.accepts(d.calls, down) &&
      !Attempt(Perform(d, env.accepts, down).0, env.accepts, MoveCalls(env, s, clock.down)).1
    ensures var (d2, ok) := SwipeRun(env, d, s, clock);
      var down := TouchCall(env, clock.down, clock.down, MotionDown, s.x1, s.y1, FloatOne, 0);
      && !ok
      && |d.calls| + 1 < |d2.calls| <= |d.calls| + 1 + |MoveCalls(env, s, clock.down)|
      && d2.calls == d.calls + [down] + MoveCalls(env, s, clock.down)[..|d2.calls| - |d.calls| - 1]
      && d2.calls[|d2.calls| - 1].event.motion.action == MotionMove
  {
    var down := TouchCall(env, clock.down, clock.down, MotionDown, s.x1, s.y1, FloatOne, 0);
    var moves := MoveCalls(env, s, clock.down);
    var d1 := Perform(d, env.accepts, down).0;
    AttemptCalls(d1, env.accepts, moves);
    assert d1 == DeviceState(d.calls + [down]);
    assert SwipeRun(env, d, s, clock) == Attempt(d1, env.accepts, moves);
    var d2 := Attempt(d1, env.accepts, moves).0;
    var n := |d2.calls| - |d1.calls|;
    assert 0 < n <= |moves| && d2.calls == d1.calls + moves[..n];
    assert d2.calls[|d2.calls| - 1] == moves[n - 1];
    MoveCallIsMove(env, s, clock.down, n - 1);
  }

  /**
   * A swipe whose DOWN and MOVE events are all accepted ends with UP at its
   * end point, and succeeds iff UP is accepted.
   */
  lemma SwipeCompleted(env: Env, d: DeviceState, s: Swipe, clock: Clock)
    requires var down := TouchCall(env, clock.down, clock.down, MotionDown, s.x1, s.y1, FloatOne, 0);
      env.accepts(d.calls, down) &&
      Attempt(Perform(d, env.accepts, down).0, env.accepts, MoveCalls(env, s, clock.down)).1
    ensures var (d2, ok) := SwipeRun(env, d, s, clock);
      var down := TouchCall(env, clock.down, clock.down, MotionDown, s.x1, s.y1, FloatOne, 0);
      var up := TouchCall(env, clock.down, clock.up, MotionUp, s.x2, s.y2, FloatOne, 0);
      var moves := MoveCalls(env, s, clock.down);
      && d2.calls == d.calls + [down] + moves + [up]
      && (ok <==> env.accepts(d.calls + [down] + moves, up))
  {
    var moves := MoveCalls(env, s, clock.down);
    var down := TouchCall(env, clock.down, clock.down, MotionDown, s.x1, s.y1, FloatOne, 0);
    AttemptCalls(Perform(d, env.accepts, down).0, env.accepts, moves);
    assert moves[..|moves|] == moves;
  }

  lemma MoveCallIsMove(env: Env, s: Swipe, downTime: int, k: nat)
    requires k < |MoveCalls(env, s, downTime)|
    ensures MoveCalls(env, s, downTime)[k].event.motion.action == MotionMove
  {
    MoveEventsShape(s, downTime);
  }

  // ---------------------------------------------------------------------------
  // KEYCODE

  /** `injectKeycode`: a key down, a key up or a press-and-release; no call for any other action word. */
  function KeycodeRun(env: Env, d: DeviceState, k: KeycodeArgs): (r: (DeviceState, bool))
    ensures KeyActionOf(k.action).None? ==> r == (d, false)
    ensures KeyActionOf(k.action).Some? ==> |r.0.calls| == |d.calls| + 1 && r.1 == env.accepts(d.calls, r.0.calls[|d.calls|])
  {
    match KeyActionOf(k.action)
    case None => (d, false)
    case Some(PressDown) => Perform(d, env.accepts, InjectKeyEvent(KeyDown, k.keyCode, env.displayId))
    case Some(Release) => Perform(d, env.accepts, InjectKeyEvent(KeyUp, k.keyCode, env.displayId))
    case Some(PressAndRelease) => Perform(d, env.accepts, PressReleaseKeycode(k.keyCode, env.displayId))
  }

  /**
   * Which call each action word makes, in any letter case: "down" a key-down
   * injection, "up" a key-up injection, "both" one press-and-release, all on
   * the controller's display; the keycode answers with that call's answer.
   */
  lemma KeycodeCall(env: Env, d: DeviceState, k: KeycodeArgs)
    ensures ToLowerCase(k.action) == "down" ==>
      KeycodeRun(env, d, k) == Perform(d, env.accepts, InjectKeyEvent(KeyDown, k.keyCode, env.displayId))
    ensures ToLowerCase(k.action) == "up" ==>
      KeycodeRun(env, d, k) == Perform(d, env.accepts, InjectKeyEvent(KeyUp, k.keyCode, env.displayId))
    ensures ToLowerCase(k.action) == "both" ==>
      KeycodeRun(env, d, k) == Perform(d, env.accepts, PressReleaseKeycode(k.keyCode, env.displayId))
    ensures ToLowerCase(k.action) !in {"down", "up", "both"} ==> KeycodeRun(env, d, k) == (d, false)
  {
  }

  // ---------------------------------------------------------------------------
  // TEXT

  /** The chars typed for `c`: its decomposition when it has one (an accented letter), else `c` itself. */
  function CharChars(p: Platform, c: char): string {
    match p.decompose(c)
    case None => [c]
    case Some(chars) => chars
  }

  /** The key-event injections that type `c`, or `None` when the key map has no events for it. */
  function CharCalls(env: Env, c: char): Option<seq<Call>> {
    match env.platform.keyEvents(CharChars(env.platform, c))
    case None => None
    case Some(events) => Some(seq(|events|, k requires 0 <= k < |events| => InjectEvent(Key(events[k]), env.displayId)))
  }

  /** `injectChar`: the char's key events until one is refused; it counts iff they all were accepted. */
  function CharRun(env: Env, d: DeviceState, c: char): (r: (DeviceState, bool))
    ensures CharCalls(env, c).None? ==> r == (d, false)
    ensures CharCalls(env, c).Some? ==> r == Attempt(d, env.accepts, CharCalls(env, c).value)
  {
    match CharCalls(env, c)
    case None => (d, false)
    case Some(cs) => Attempt(d, env.accepts, cs)
  }

  /** `injectText`'s loop: every char typed in order, and for each whether it was typed. */
  function TextRun(env: Env, d: DeviceState, text: string): (r: (DeviceState, seq<bool>))
    ensures |r.1| == |text|
    decreases |text|
  {
    if text == [] then (d, [])
    else
      var (d1, oks) := TextRun(env, d, text[..|text| - 1]);
      var (d2, ok) := CharRun(env, d1, text[|text| - 1]);
      (d2, oks + [ok])
  }

  /** The number of chars that were typed. */
  function CountTrue(bs: seq<bool>): (n: nat)
    ensures n <= |bs|
    ensures n == 0 <==> true !in bs
    ensures n == |bs| <==> false !in bs
    decreases |bs|
  {
    if bs == [] then 0
    else CountTrue(bs[..|bs| - 1]) + (if bs[|bs| - 1] then 1 else 0)
  }

  /** Whether the k-th char was typed depends only on the device before it, and typing it is `CharRun`. */
  lemma TextRunChar(env: Env, d: DeviceState, text: string, k: nat)
    requires k < |text|
    ensures TextRun(env, d, text[..k + 1]).1 == TextRun(env, d, text[..k]).1 + [CharRun(env, TextRun(env, d, text[..k]).0, text[k]).1]
    ensures TextRun(env, d, text[..k + 1]).0 == CharRun(env, TextRun(env, d, text[..k]).0, text[k]).0
  {
    assert text[..k + 1][..k] == text[..k];
  }

  /** Typing text only appends calls, and each of them injects a key event. */
  lemma {:induction false} TextRunInjectsOnly(env: Env, d: DeviceState, text: string)
    ensures var d2 := TextRun(env, d, text).0;
      && |d.calls| <= |d2.calls| && d2.calls[..|d.calls|] == d.calls
      && forall k :: |d.calls| <= k < |d2.calls| ==> d2.calls[k].InjectEvent?
    decreases |text|
  {
    if text != [] {
      TextRunInjectsOnly(env, d, text[..|text| - 1]);
      var d1 := TextRun(env, d, text[..|text| - 1]).0;
      var c := text[|text| - 1];
      var d2 := CharRun(env, d1, c).0;
      if CharCalls(env, c).Some? {
        var cs := CharCalls(env, c).value;
        AttemptCalls(d1, env.accepts, cs);
        assert forall k :: 0 <= k < |cs| ==> cs[k].InjectEvent?;
        assert forall k :: |d1.calls| <= k < |d2.calls| ==> d2.calls[k] == cs[k - |d1.calls|];
      }
      assert forall k :: |d.calls| <= k < |d1.calls| ==> d2.calls[k] == d1.calls[k];
      assert d2.calls[..|d1.calls|] == d1.calls;
      assert d2.calls[..|d.calls|] == d1.calls[..|d.calls|];
    }
  }

  // ---------------------------------------------------------------------------
  // The handlers and the dispatch

  /** `handleTap`. */
  function TapReply(env: Env, d: DeviceState, arguments: string, clock: Clock): (Reply, DeviceState) {
    match ParseTap(arguments, env.platform.parseFloat)
    case Failure(e) => (Err(e), d)
    case Success(t) => var (d1, ok) := TapRun(env, d, t, clock); (Respond(ok, None), d1)
  }

  /** `handleSwipe`, for SWIPE and DRAG alike. */
  function SwipeReply(env: Env, d: DeviceState, arguments: string, clock: Clock): (Reply, DeviceState) {
    match ParseSwipe(arguments)
    case Failure(e) => (Err(e), d)
    case Success(s) => var (d1, ok) := SwipeRun(env, d, s, clock); (Respond(ok, None), d1)
  }

  /** `handleKeycode`. */
  function KeycodeReply(env: Env, d: DeviceState, arguments: string): (Reply, DeviceState) {
    match ParseKeycode(arguments)
    case Failure(e) => (Err(e), d)
    case Success(k) => var (d1, ok) := KeycodeRun(env, d, k); (Respond(ok, None), d1)
  }

  /** `handleText`: OK when the decoded text is empty or at least one char was typed. */
  function TextReply(env: Env, d: DeviceState, arguments: string): (Reply, DeviceState) {
    match DecodeBase64(env.platform, arguments)
    case None => (Err(InvalidBase64), d)
    case Some(text) =>
      if text == [] then (OkReply(None), d)
      else
        var (d1, oks) := TextRun(env, d, text);
        if CountTrue(oks) <= 0 then (Err(TextNotSupported), d1) else (OkReply(None), d1)
  }

  /** `handleClipboardGet`: the clipboard text as UTF-8 in Base 64, or CLIPBOARD_UNAVAILABLE. */
  function ClipboardGetReply(env: Env, d: DeviceState): (Reply, DeviceState) {
    var (d1, text) := ReadClipboard(d, env.clipboard);
    match text
    case None => (Err(ClipboardUnavailable), d1)
    case Some(t) => (OkReply(Some(EncodeBase64(env.platform, t))), d1)
  }

  /** `handleClipboardSet`: OK iff the device took the decoded text, else CLIPBOARD_SET_FAILED. */
  function ClipboardSetReply(env: Env, d: DeviceState, arguments: string): (Reply, DeviceState) {
    match DecodeBase64(env.platform, arguments)
    case None => (Err(InvalidBase64), d)
    case Some(text) =>
      var (d1, ok) := Perform(d, env.accepts, SetClipboardText(text));
      (Respond(ok, if ok then None else Some(ClipboardSetFailed)), d1)
  }

  /** The verb of a non-blank line, upper-cased, and its arguments. */
  function Verb(line: string): string {
    ToUpperCase(SplitCommand(Trim(line)).verb)
  }

  function Arguments(line: string): string {
    SplitCommand(Trim(line)).arguments
  }

  /** The verbs that need input events. */
  const InputVerbs: set<string> := {"TAP", "SWIPE", "DRAG", "KEYCODE", "TEXT"}

  /** `handleEvent` for a received line: exactly one reply, and the calls it made on the device. */
  function HandleLine(env: Env, d: DeviceState, line: string, clock: Clock): (Reply, DeviceState) {
    if Trim(line) == [] then (Err(EmptyCommand), d)
    else Execute(env, d, Verb(line), Arguments(line), clock)
  }

  /** A non-blank line is handled by the switch on its verb. */
  lemma LineExecutes(env: Env, d: DeviceState, line: string, clock: Clock, command: string, arguments: string)
    requires Trim(line) != [] && command == Verb(line) && arguments == Arguments(line)
    ensures HandleLine(env, d, line, clock) == Execute(env, d, command, arguments, clock)
  {
  }

  /** `handleEvent`'s switch on the upper-cased verb. */
  function Execute(env: Env, d: DeviceState, command: string, arguments: string, clock: Clock): (Reply, DeviceState) {
    if command == "PING" then (OkReply(Some("PONG")), d)
    else if command == "CLIP_GET" then ClipboardGetReply(env, d)
    else if command == "CLIP_SET" then ClipboardSetReply(env, d, arguments)
    else if !env.supportsInputEvents then (Err(InputNotSupported), d)
    else if command == "TAP" then TapReply(env, d, arguments, clock)
    else if command == "SWIPE" || command == "DRAG" then SwipeReply(env, d, arguments, clock)
    else if command == "KEYCODE" then KeycodeReply(env, d, arguments)
    else if command == "TEXT" then TextReply(env, d, arguments)
    else (Err(UnknownCommand), d)
  }

  /** The outcome of one `handleEvent`: the reply sent (if any), the device afterwards, and whether to go on. */
  datatype Step = Step(reply: Option<Reply>, device: DeviceState, alive: bool)

  /** `handleEvent`: a line gets exactly one reply and the loop goes on; end of stream or a read error stop it silently. */
  function HandleEvent(env: Env, d: DeviceState, received: Received, clock: Clock): (r: Step)
    ensures r.alive <==> received.Line?
    ensures r.reply.Some? <==> received.Line?
    ensures !received.Line? ==> r.device == d
    ensures received.Line? ==> (r.reply.value, r.device) == HandleLine(env, d, received.text, clock)
  {
    match received
    case Line(text) => var (reply, d1) := HandleLine(env, d, text, clock); Step(Some(reply), d1, true)
    case _ => Step(None, d, false)
  }

  /** One received item and the clock readings taken while handling it. */
  datatype Input = Input(received: Received, clock: Clock)

  /** `control`'s first step: wake the screen of the main display when asked to. */
  function PowerOn(env: Env, d: DeviceState, powerOn: bool, screenOn: bool): DeviceState {
    if powerOn && env.displayId == 0 && !screenOn then
      Perform(d, env.accepts, PressReleaseKeycode(KeycodePower, env.displayId)).0
    else d
  }

  /** What handling one input does to the device, and the step it gives. */
  type Handler = (DeviceState, Input) -> Step

  /** `handleEvent` in the controller's fixed context. */
  function EventHandler(env: Env): Handler {
    (d: DeviceState, input: Input) => HandleEvent(env, d, input.received, input.clock)
  }

  /**
   * `control`'s loop over the inputs, in order, until one ends it, each input
   * handled by `handle`: the device, the replies, and whether it is still alive.
   */
  function Session(handle: Handler, d: DeviceState, inputs: seq<Input>): (DeviceState, seq<Reply>, bool)
    decreases |inputs|
  {
    if inputs == [] then (d, [], true)
    else
      var (d1, replies, alive) := Session(handle, d, inputs[..|inputs| - 1]);
      if !alive then (d1, replies, false)
      else
        var step := handle(d1, inputs[|inputs| - 1]);
        (step.device, replies + (if step.reply.Some? then [step.reply.value] else []), step.alive)
  }

  /** The inputs up to one more: the last one is handled only while the session is alive. */
  lemma SessionSnoc(handle: Handler, d: DeviceState, inputs: seq<Input>, init: seq<Input>, last: Input)
    requires inputs == init + [last]
    ensures Session(handle, d, inputs) ==
      var (d1, replies, alive) := Session(handle, d, init);
      if !alive then (d1, replies, false)
      else
        var step := handle(d1, last);
        (step.device, replies + (if step.reply.Some? then [step.reply.value] else []), step.alive)
  {
    assert inputs[..|inputs| - 1] == init;
  }

  /** Everything written on the channel for a series of replies: each line followed by '\n'. */
  function Transcript(replies: seq<Reply>): string
    decreases |replies|
  {
    if replies == [] then []
    else Transcript(replies[..|replies| - 1]) + Render(replies[|replies| - 1]) + "\n"
  }

  /** The index of the first input that is not a line (the number of inputs when they all are). */
  function FirstStop(inputs: seq<Input>): (n: nat)
    ensures n <= |inputs|
    ensures forall k :: 0 <= k < n ==> inputs[k].received.Line?
    ensures n < |inputs| ==> !inputs[n].received.Line?
    decreases |inputs|
  {
    if inputs == [] then 0
    else if !inputs[0].received.Line? then 0
    else 1 + FirstStop(inputs[1..])
  }
}
