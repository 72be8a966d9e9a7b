/**
 * The response lines of the control protocol: "OK" or "ERR", followed by one
 * space and a payload or an error message when there is one.
 */
module Protocol {
  import opened Wrappers

  /** The error messages the controller sends. */
  const EmptyCommand: string := "EMPTY_COMMAND"
  const InputNotSupported: string := "INPUT_NOT_SUPPORTED"
  const UnknownCommand: string := "UNKNOWN_COMMAND"
  const InvalidArgs: string := "INVALID_ARGS"
  const InvalidCoords: string := "INVALID_COORDS"
  const InvalidPressure: string := "INVALID_PRESSURE"
  const InvalidButtons: string := "INVALID_BUTTONS"
  const InvalidKeycode: string := "INVALID_KEYCODE"
  const InvalidBase64: string := "INVALID_BASE64"
  const TextNotSupported: string := "TEXT_NOT_SUPPORTED"
  const ClipboardUnavailable: string := "CLIPBOARD_UNAVAILABLE"
  const ClipboardSetFailed: string := "CLIPBOARD_SET_FAILED"
  const InjectFailed: string := "INJECT_FAILED"

  const ErrorMessages: set<string> := {
    EmptyCommand, InputNotSupported, UnknownCommand, InvalidArgs, InvalidCoords, InvalidPressure,
    InvalidButtons, InvalidKeycode, InvalidBase64, TextNotSupported, ClipboardUnavailable,
    ClipboardSetFailed, InjectFailed
  }

  /** One response; an empty payload or message stands for Java's null or "". */
  datatype Reply = Ok(payload: string) | Err(message: string)

  /** The line `sendOk` / `sendError` writes for a reply. */
  function Render(r: Reply): (line: string)
    ensures r.Ok? ==> |line| >= 2 && line[..2] == "OK"
    ensures r.Err? ==> |line| >= 3 && line[..3] == "ERR"
    ensures r.Ok? && r.payload == [] ==> line == "OK"
    ensures r.Err? && r.message == [] ==> line == "ERR"
  {
    match r
    case Ok(p) => if p == [] then "OK" else "OK " + p
    case Err(m) => if m == [] then "ERR" else "ERR " + m
  }

  /** How a client reads a response line back. */
  function ParseReply(line: string): Option<Reply> {
    if line == "OK" then Some(Ok([]))
    else if |line| > 3 && line[..3] == "OK " then Some(Ok(line[3..]))
    else if line == "ERR" then Some(Err([]))
    else if |line| > 4 && line[..4] == "ERR " then Some(Err(line[4..]))
    else None
  }

  /**
   * Every reply can be read back from its line: no trailing space after a bare
   * "OK" or "ERR", and exactly one space before a payload or message.
   */
  lemma ParseRender(r: Reply)
    ensures ParseReply(Render(r)) == Some(r)
  {
    match r
    case Ok(p) =>
      if p != [] {
        assert ("OK " + p)[..3] == "OK " && ("OK " + p)[3..] == p;
      }
    case Err(m) =>
      if m != [] {
        var line := "ERR " + m;
        assert line[..4] == "ERR " && line[4..] == m;
        assert line[0] == 'E';
        assert line[..3][0] == 'E';
      }
  }

  /** Distinct replies are sent as distinct lines. */
  lemma RenderInjective(a: Reply, b: Reply)
    requires Render(a) == Render(b)
    ensures a == b
  {
    ParseRender(a);
    ParseRender(b);
  }

  /** A reply's line breaks are exactly those of its payload or message. */
  lemma RenderLineBreaks(r: Reply)
    ensures '\n' in Render(r) <==> '\n' in (if r.Ok? then r.payload else r.message)
  {
    match r
    case Ok(p) =>
      if p != [] {
        assert forall k :: 0 <= k < |p| ==> ("OK " + p)[k + 3] == p[k];
      }
    case Err(m) =>
      if m != [] {
        assert forall k :: 0 <= k < |m| ==> ("ERR " + m)[k + 4] == m[k];
      }
  }

  /** `sendOk(payload)`, with `None` for null. */
  function OkReply(payload: Option<string>): (r: Reply)
    ensures r.Ok? && (payload.Some? ==> r.payload == payload.value) && (payload.None? ==> r.payload == [])
  {
    Ok(if payload.Some? then payload.value else [])
  }

  /**
   * The line `sendOk` writes: a bare "OK" for a null or empty payload, with no
   * trailing space, and otherwise a line a client reads back as that payload.
   */
  lemma OkLine(payload: Option<string>)
    ensures Render(OkReply(payload)) == "OK" <==> payload.None? || payload.value == []
    ensures payload.Some? ==> ParseReply(Render(OkReply(payload))) == Some(Ok(payload.value))
  {
    ParseRender(OkReply(payload));
  }

  /**
   * `respond(ok, errorMessage)`: "OK" on success; otherwise the given message,
   * or INJECT_FAILED when there is none.
   */
  function Respond(ok: bool, errorMessage: Option<string>): (r: Reply)
    ensures ok <==> r == Ok([])
    ensures !ok ==> r.Err? && r.message != []
    ensures !ok && errorMessage.Some? && errorMessage.value != [] ==> r == Err(errorMessage.value)
    ensures !ok && (errorMessage.None? || errorMessage.value == []) ==> r == Err(InjectFailed)
  {
    if ok then Ok([])
    else if errorMessage.Some? && errorMessage.value != [] then Err(errorMessage.value)
    else Err(InjectFailed)
  }
}
