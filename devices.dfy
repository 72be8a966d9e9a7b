/**
 * The part of Android the controller talks to through `Device`: event
 * injection, key presses and the clipboard. The system's answers are not
 * known here, so a device is given two answer functions: whether it accepts a
 * call, and what text its clipboard holds when it is read, each given every
 * call made before it.
 */
module Devices {
  import opened Wrappers

  /** A Java `float`, kept as its IEEE 754 single-precision bit pattern. */
  datatype Float32 = Float32(bits: bv32)

  /** The bit pattern of `1.0f`. */
  const FloatOne: Float32 := Float32(0x3F80_0000)

  /** `MotionEvent.ACTION_DOWN`, `ACTION_UP` and `ACTION_MOVE`. */
  const MotionDown: int := 0
  const MotionUp: int := 1
  const MotionMove: int := 2

  /** `KeyEvent.ACTION_DOWN` and `KeyEvent.ACTION_UP`. */
  const KeyDown: int := 0
  const KeyUp: int := 1

  /** `KeyEvent.KEYCODE_POWER`. */
  const KeycodePower: int := 26

  /** A key event as `KeyCharacterMap.getEvents` produces it. */
  datatype KeyEvent = KeyEvent(action: int, keyCode: int, metaState: int)

  /**
   * A single-pointer touch-screen motion event: the pointer's coordinates and
   * pressure, and the pressed buttons.
   */
  datatype MotionEvent = MotionEvent(
    downTime: int,
    eventTime: int,
    action: int,
    x: int,
    y: int,
    pressure: Float32,
    buttons: int)

  datatype InputEvent = Motion(motion: MotionEvent) | Key(key: KeyEvent)

  /** One call into `Device`; every injection is asynchronous. */
  datatype Call =
    | InjectEvent(event: InputEvent, displayId: int)
    | InjectKeyEvent(action: int, keyCode: int, displayId: int)
    | PressReleaseKeycode(keyCode: int, displayId: int)
    | GetClipboardText
    | SetClipboardText(text: string)

  /** Whether the system accepts a call, given the calls made before it. */
  type Answer = (seq<Call>, Call) -> bool

  /**
   * The text the system's clipboard reports when it is read, given the calls
   * made before the read; `None` where Java gets null. The clipboard is shared
   * with the rest of the system, so it may change between calls.
   */
  type ClipboardSource = seq<Call> -> Option<string>

  /** Everything the device has been asked so far, in order. */
  datatype DeviceState = DeviceState(calls: seq<Call>)

  /** One call made on the device, and the system's answer. */
  function Perform(d: DeviceState, accepts: Answer, call: Call): (r: (DeviceState, bool))
    ensures r.0.calls == d.calls + [call]
    ensures r.1 == accepts(d.calls, call)
  {
    (DeviceState(d.calls + [call]), accepts(d.calls, call))
  }

  /** A read of the clipboard: the call is recorded and the text is the system's. */
  function ReadClipboard(d: DeviceState, source: ClipboardSource): (r: (DeviceState, Option<string>))
    ensures r.0.calls == d.calls + [GetClipboardText]
    ensures r.1 == source(d.calls)
  {
    (DeviceState(d.calls + [GetClipboardText]), source(d.calls))
  }

  /**
   * A clipboard that behaves as a plain store: read right after an accepted
   * write, it holds the text written.
   */
  ghost predicate PassThrough(accepts: Answer, source: ClipboardSource) {
    forall cs, text :: accepts(cs, SetClipboardText(text)) ==> source(cs + [SetClipboardText(text)]) == Some(text)
  }

  /** The device: every call is recorded in `calls`, in order. */
  class Device {
    const accepts: Answer
    const clipboard: ClipboardSource
    var calls: seq<Call>

    function State(): DeviceState
      reads this
    {
      DeviceState(calls)
    }

    constructor (accepts: Answer, clipboard: ClipboardSource)
      ensures this.accepts == accepts && this.clipboard == clipboard && State() == DeviceState([])
    {
      this.accepts := accepts;
      this.clipboard := clipboard;
      calls := [];
    }

    /** `Device.injectEvent(event, displayId, INJECT_MODE_ASYNC)`. */
    method InjectEvent(event: InputEvent, displayId: int) returns (ok: bool)
      modifies this
      ensures (State(), ok) == Perform(old(State()), accepts, Call.InjectEvent(event, displayId))
    {
      ok := accepts(calls, Call.InjectEvent(event, displayId));
      calls := calls + [Call.InjectEvent(event, displayId)];
    }

    /** `Device.injectKeyEvent(action, keyCode, 0, 0, displayId, INJECT_MODE_ASYNC)`. */
    method InjectKeyEvent(action: int, keyCode: int, displayId: int) returns (ok: bool)
      modifies this
      ensures (State(), ok) == Perform(old(State()), accepts, Call.InjectKeyEvent(action, keyCode, displayId))
    {
      ok := accepts(calls, Call.InjectKeyEvent(action, keyCode, displayId));
      calls := calls + [Call.InjectKeyEvent(action, keyCode, displayId)];
    }

    /** `Device.pressReleaseKeycode(keyCode, displayId, INJECT_MODE_ASYNC)`. */
    method PressReleaseKeycode(keyCode: int, displayId: int) returns (ok: bool)
      modifies this
      ensures (State(), ok) == Perform(old(State()), accepts, Call.PressReleaseKeycode(keyCode, displayId))
    {
      ok := accepts(calls, Call.PressReleaseKeycode(keyCode, displayId));
      calls := calls + [Call.PressReleaseKeycode(keyCode, displayId)];
    }

    /** `Device.getClipboardText()`: the clipboard's text, `None` where Java returns null. */
    method GetClipboardText() returns (text: Option<string>)
      modifies this
      ensures (State(), text) == ReadClipboard(old(State()), clipboard)
    {
      text := clipboard(calls);
      calls := calls + [Call.GetClipboardText];
    }

    /** `Device.setClipboardText(text)`: whether the system took the text. */
    method SetClipboardText(text: string) returns (ok: bool)
      modifies this
      ensures (State(), ok) == Perform(old(State()), accepts, Call.SetClipboardText(text))
    {
      ok := accepts(calls, Call.SetClipboardText(text));
      calls := calls + [Call.SetClipboardText(text)];
    }
  }
}
