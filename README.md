# FrameX bridge server: control core in Dafny

The FrameX bridge is a trimmed scrcpy server that runs on an Android device.
It opens one local socket (the control channel) to a desktop client and reads
text commands from it, one per line. It answers each line with exactly one
response line: `OK`, `OK <payload>`, `ERR` or `ERR <message>`.

The commands are:

- `PING`: answered with `OK PONG`.
- `CLIP_GET`: the device clipboard, in Base 64.
- `CLIP_SET <base64>`: sets the device clipboard.
- `TAP x y [pressure [buttons]]`: a touch down and up.
- `SWIPE` or `DRAG x1 y1 x2 y2 durationMs`: a touch down, moves and up.
- `KEYCODE code [down|up|both]`: a key event.
- `TEXT <base64>`: types the decoded text char by char.

The verb is case-insensitive. The input commands need a display that takes
input events.

This project models that core and proves properties of it.

- `Protocol` holds the response lines and the error messages.
- `JavaText` and `JavaNumbers` model the Java library behaviour the code
  relies on: `trim`, `indexOf`, case mapping, `StringTokenizer`,
  `Integer.parseInt` and hex printing.
- `Base64` is the NO_WRAP encoder (RFC 4648, section 4) with a decoder
  proved to invert it.
- `Commands` holds the argument validation of each command.
- `Gestures` holds the swipe step arithmetic.
- `Devices` records every injection the controller makes. Its answers come
  from a function supplied by the environment.
- `ControlSpec` is a functional specification of one line and of a whole
  session. `ControlProperties` proves the protocol's promises about it.
- `Controllers.Controller` is the imperative controller. Its methods change
  the channel, the device and the shared pointer coords, and each one is
  proved to do exactly what the specification says.
- `ControlChannel` holds the channel's `send` and its two log previews.
- `ServerOptions` holds `Options.parse`.
- `DesktopConnection` holds the socket name.
- `Server` holds the termination bookkeeping (`Completion`).

## Model

| member | source | states |
|---|---|---|
| Protocol.Render | server/src/main/java/com/genymobile/scrcpy/control/Controller.java:420-434 | an OK line starts with "OK" and an ERR line with "ERR"; an empty payload or message gives the bare word |
| Protocol.ParseRender | server/src/main/java/com/genymobile/scrcpy/control/Controller.java:420-434 | a rendered reply parses back to the same reply (round trip), so each response line names exactly one reply |
| Protocol.RenderInjective | server/src/main/java/com/genymobile/scrcpy/control/Controller.java:420-434 | two replies that render to the same line are equal |
| Protocol.RenderLineBreaks | server/src/main/java/com/genymobile/scrcpy/control/Controller.java:420-434 | a rendered line contains a line break exactly when its payload or message does |
| Protocol.OkLine | server/src/main/java/com/genymobile/scrcpy/control/Controller.java:420-426 | `sendOk`: a null or empty payload gives exactly the bare line "OK" with no trailing space; any payload is read back from its line by a client |
| Protocol.Respond | server/src/main/java/com/genymobile/scrcpy/control/Controller.java:410-418 | `respond`: OK exactly when ok; otherwise the given non-empty message, or INJECT_FAILED when it is null or empty |
| JavaText.Trim | server/src/main/java/com/genymobile/scrcpy/control/Controller.java:119-120 | `trim`: empty exactly when every char is blank (at or below U+0020), otherwise it starts and ends with a non-blank char; a text with no blank at either end is kept whole |
| JavaText.TrimInfix | server/src/main/java/com/genymobile/scrcpy/control/Controller.java:119-120 | what `trim` keeps is the infix right after the leading blanks, and only blanks follow it in the text |
| JavaText.IndexOf | server/src/main/java/com/genymobile/scrcpy/control/Controller.java:127-128 | `indexOf`: -1 exactly when the char is absent, otherwise the position of its first occurrence |
| JavaText.UpperCaseMatches | server/src/main/java/com/genymobile/scrcpy/control/Controller.java:136 | `toUpperCase(Locale.ENGLISH)` equals an upper-case ASCII verb exactly when each char is that letter, its lower-case form, or dotless i / long s for I / S, so verbs match in any letter case |
| JavaText.LowerCaseMatches | server/src/main/java/com/genymobile/scrcpy/control/Controller.java:359 | `toLowerCase(Locale.ENGLISH)` equals a lower-case ASCII word exactly when each char is that letter or its upper-case form |
| JavaText.TokensOfInterleave | server/src/main/java/com/genymobile/scrcpy/control/Controller.java:175-176 | `StringTokenizer` with the default delimiters: tokens separated by any non-empty runs of space, tab, CR, LF or FF, with any such run before or after, are read off as exactly those tokens |
| JavaText.TokensLayout | server/src/main/java/com/genymobile/scrcpy/control/Controller.java:175-176 | every text is its tokens separated by its delimiter runs, so the tokens are the only split `TokensOfInterleave` allows |
| JavaText.TokensOfJoinWords | server/src/main/java/com/genymobile/scrcpy/control/Controller.java:175-176 | tokenizing words joined by single spaces gives back the words |
| JavaNumbers.ParseInt | server/src/main/java/com/genymobile/scrcpy/control/Controller.java:436-442 | `Integer.parseInt`: succeeds exactly on an optional sign followed by at least one digit of the radix with a value in int range, and returns that value |
| JavaNumbers.ParseIntToString | server/src/main/java/com/genymobile/scrcpy/control/Controller.java:436-442 | every int printed in decimal parses back to itself |
| JavaNumbers.DecimalStringValue | server/src/main/java/com/genymobile/scrcpy/control/Controller.java:436-442 | the decimal digits printed for n denote n |
| JavaNumbers.PaddedByteHex | server/src/main/java/com/genymobile/scrcpy/control/ControlChannel.java:82-86 | a `0` prepended to a one-digit `Integer.toHexString` gives exactly the two-digit hex form of the byte |
| JavaNumbers.ToHexStringValue | server/src/main/java/com/genymobile/scrcpy/control/ControlChannel.java:86 | the hex digits `Integer.toHexString` prints (`ToHexString`: non-empty, starting with 0 only for 0) denote the value |
| JavaNumbers.HexDigitsValue | server/src/main/java/com/genymobile/scrcpy/device/DesktopConnection.java:37 | `%08x` digits denote the value they were printed from |
| JavaNumbers.HexDigitsInjective | server/src/main/java/com/genymobile/scrcpy/device/DesktopConnection.java:37 | two values below 16^w with the same w hex digits are equal |
| JavaNumbers.Unsigned | server/src/main/java/com/genymobile/scrcpy/control/ControlChannel.java:82 | `b & 0xff`: a value below 256 congruent to the byte modulo 256 |
| Base64.Encode | server/src/main/java/com/genymobile/scrcpy/control/Controller.java:465-472 | `Base64.encodeToString(NO_WRAP)`: four chars for every started group of three bytes |
| Base64.EncodeAlphabet | server/src/main/java/com/genymobile/scrcpy/control/Controller.java:465-472 | the encoding uses only alphabet chars and `=`, so it has no CR or LF (NO_WRAP) |
| Base64.DecodeEncode | server/src/main/java/com/genymobile/scrcpy/control/Controller.java:465-472 | decoding the encoding of any bytes gives the bytes back |
| Base64.DecodeEncodeGroup | server/src/main/java/com/genymobile/scrcpy/control/Controller.java:465-472 | each group of one to three bytes survives encoding and decoding |
| ControlSpec.EncodeBase64 | server/src/main/java/com/genymobile/scrcpy/control/Controller.java:465-472 | `encodeBase64`: the text's UTF-8 bytes in Base 64 without CR or LF, which decode back to those bytes |
| Commands.SplitCommand | server/src/main/java/com/genymobile/scrcpy/control/Controller.java:125-134 | the verb is the text before the first space (or all of it); the arguments are the trimmed rest after that space |
| Commands.LineOfWords | server/src/main/java/com/genymobile/scrcpy/control/Controller.java:119-134 | a line made of words is its own trim and splits into its first word and the other words |
| Commands.ParseTap | server/src/main/java/com/genymobile/scrcpy/control/Controller.java:174-212 | TAP validation in the source's order: fewer than two tokens INVALID_ARGS, then coordinates INVALID_COORDS, then pressure INVALID_PRESSURE, then buttons INVALID_BUTTONS, then a fifth token INVALID_ARGS; success exactly when all pass, with pressure 1.0 and buttons 0 by default |
| Commands.ParseTapDefaults | server/src/main/java/com/genymobile/scrcpy/control/Controller.java:174-212 | `TAP x y` parses to a tap at (x, y) with pressure 1.0 and no buttons |
| Commands.ParseTapFull | server/src/main/java/com/genymobile/scrcpy/control/Controller.java:174-212 | `TAP x y p b` parses to a tap with exactly those values |
| Commands.ParseSwipe | server/src/main/java/com/genymobile/scrcpy/control/Controller.java:217-238 | SWIPE succeeds exactly on five int tokens, in the order x1 y1 x2 y2 duration; every failure is INVALID_ARGS |
| Commands.ParseSwipeFormat | server/src/main/java/com/genymobile/scrcpy/control/Controller.java:217-238 | five printed ints parse back to the same swipe |
| Commands.ParseKeycode | server/src/main/java/com/genymobile/scrcpy/control/Controller.java:243-264 | KEYCODE: no token INVALID_ARGS, a bad code INVALID_KEYCODE, a third token INVALID_ARGS; the action defaults to "both" |
| Commands.ParseKeycodeFormat | server/src/main/java/com/genymobile/scrcpy/control/Controller.java:243-264 | a printed key code with an optional action word parses back to that code and action |
| Commands.KeyActionOf | server/src/main/java/com/genymobile/scrcpy/control/Controller.java:358-369 | an action is down, up or both exactly when its lower-case form is "down", "up" or "both"; anything else is refused |
| Devices.Perform | server/src/main/java/com/genymobile/scrcpy/control/Controller.java:355 | one device call is appended to the call record and answered by the device's answer function, given the calls before it |
| Devices.ReadClipboard | server/src/main/java/com/genymobile/scrcpy/control/Controller.java:292 | a clipboard read is appended to the call record; the text is whatever the system's clipboard reports at that point, null included |
| Devices.Device.InjectEvent | server/src/main/java/com/genymobile/scrcpy/control/Controller.java:355 | `Device.injectEvent` performs one call on the device state |
| Devices.Device.InjectKeyEvent | server/src/main/java/com/genymobile/scrcpy/control/Controller.java:402-404 | `Device.injectKeyEvent` performs one call on the device state |
| Devices.Device.PressReleaseKeycode | server/src/main/java/com/genymobile/scrcpy/control/Controller.java:406-408 | `Device.pressReleaseKeycode` performs one call on the device state |
| Devices.Device.GetClipboardText | server/src/main/java/com/genymobile/scrcpy/control/Controller.java:292 | `Device.getClipboardText` records the call and returns the system's clipboard text, as `ReadClipboard` says |
| Devices.Device.SetClipboardText | server/src/main/java/com/genymobile/scrcpy/control/Controller.java:309 | `Device.setClipboardText` records the call and returns the system's answer |
| Gestures.SwipeSteps | server/src/main/java/com/genymobile/scrcpy/control/Controller.java:328-329 | no step for a duration at or below zero, one step below 32 ms, otherwise duration / 16 |
| Gestures.StepTiming | server/src/main/java/com/genymobile/scrcpy/control/Controller.java:331 | `StepDuration` (duration / steps): each step lasts at least 1 ms and all steps fit within the duration |
| Gestures.RoundQuotient | server/src/main/java/com/genymobile/scrcpy/control/Controller.java:334-335 | `Math.round` of a quotient: the nearest integer, halves rounded up |
| Gestures.MoveCoordinateBetween | server/src/main/java/com/genymobile/scrcpy/control/Controller.java:333-335 | `MoveCoordinate`: every intermediate coordinate lies between the start and end coordinates; step 0 is the start and the last step the end |
| Gestures.MoveEvents | server/src/main/java/com/genymobile/scrcpy/control/Controller.java:332-341 | the moves of a swipe: one for each step 1 .. steps-1 |
| Gestures.MoveTimeBounds | server/src/main/java/com/genymobile/scrcpy/control/Controller.java:336 | `MoveTime`: every move's event time is strictly after the down time and strictly before down time plus duration |
| Gestures.MoveTimeIncreasing | server/src/main/java/com/genymobile/scrcpy/control/Controller.java:336 | move event times strictly increase with the step |
| Gestures.MoveEventsShape | server/src/main/java/com/genymobile/scrcpy/control/Controller.java:332-341 | every move is an ACTION_MOVE with pressure 1.0, no buttons and the gesture's down time, and the times strictly increase |
| Gestures.MoveEventsBetween | server/src/main/java/com/genymobile/scrcpy/control/Controller.java:332-341 | when the coordinate differences fit in an int, every move's coordinates lie between the swipe's start and end |
| Gestures.SwipeOf160Ms | server/src/main/java/com/genymobile/scrcpy/control/Controller.java:328-341 | a 160 ms swipe has 10 steps of 16 ms and nine moves, the first at down time + 16 |
| ControlSpec.AttemptCalls | server/src/main/java/com/genymobile/scrcpy/control/Controller.java:385-400 | calls stop at the first refused one: the record grows by a prefix of the calls, success means every call was made and accepted, a refusal is the last call made; no clipboard change without a clipboard call |
| ControlSpec.AttemptStops | server/src/main/java/com/genymobile/scrcpy/control/Controller.java:337-339 | once a prefix of calls was refused, the remaining calls are never made |
| ControlSpec.AttemptStep | server/src/main/java/com/genymobile/scrcpy/control/Controller.java:393-398 | one more accepted call extends the prefix; one refused call decides the whole run |
| ControlSpec.TapDownThenUp | server/src/main/java/com/genymobile/scrcpy/control/Controller.java:313-319 | `TapRun`: a tap makes exactly two calls, ACTION_DOWN at the down time then ACTION_UP at the up time, both at (x, y), the UP even when DOWN was refused; ok is both answers |
| ControlSpec.MoveCalls | server/src/main/java/com/genymobile/scrcpy/control/Controller.java:332-341 | one touch call per intermediate move |
| ControlSpec.SwipeDownRefused | server/src/main/java/com/genymobile/scrcpy/control/Controller.java:322-326 | when DOWN is refused the swipe stops after that one call and fails |
| ControlSpec.SwipeMoveRefused | server/src/main/java/com/genymobile/scrcpy/control/Controller.java:332-339 | when a MOVE is refused the swipe stops there: DOWN and a prefix of the moves ending in the refused one, no UP, failure |
| ControlSpec.SwipeCompleted | server/src/main/java/com/genymobile/scrcpy/control/Controller.java:321-346 | `SwipeRun`: when DOWN and every MOVE are accepted the calls are DOWN, all moves, UP at the end point; ok is UP's answer |
| ControlSpec.MoveCallIsMove | server/src/main/java/com/genymobile/scrcpy/control/Controller.java:337 | every intermediate call is an ACTION_MOVE |
| ControlSpec.KeycodeRun | server/src/main/java/com/genymobile/scrcpy/control/Controller.java:358-370 | an unknown action makes no call and fails; a known one makes exactly one call whose answer is the result |
| ControlSpec.KeycodeCall | server/src/main/java/com/genymobile/scrcpy/control/Controller.java:358-370 | "down" (any case) makes one key-down injection, "up" one key-up injection, "both" one press-and-release, all with the code on the controller's display; any other word makes no call and fails |
| ControlSpec.CharRun | server/src/main/java/com/genymobile/scrcpy/control/Controller.java:385-400 | a char without key events makes no call and fails; otherwise its key events are injected until one is refused |
| ControlSpec.TextRun | server/src/main/java/com/genymobile/scrcpy/control/Controller.java:372-383 | one outcome per char of the text, each char tried whatever happened to the previous one |
| ControlSpec.CountTrue | server/src/main/java/com/genymobile/scrcpy/control/Controller.java:372-383 | the success count is at most the length, zero exactly when nothing succeeded and the length exactly when everything did |
| ControlSpec.TextRunChar | server/src/main/java/com/genymobile/scrcpy/control/Controller.java:374-381 | the text run over one more char is the run so far followed by that char's run |
| ControlSpec.TextRunInjectsOnly | server/src/main/java/com/genymobile/scrcpy/control/Controller.java:372-400 | typing text only appends calls, and every one of them is a key event injection |
| ControlSpec.HandleEvent | server/src/main/java/com/genymobile/scrcpy/control/Controller.java:106-123 | a failed or ended read answers nothing and stops; a received line gets exactly one reply and the loop goes on |
| ControlSpec.SessionSnoc | server/src/main/java/com/genymobile/scrcpy/control/Controller.java:60-72 | the session over one more input is the session so far followed by one step, if it is still alive |
| ControlSpec.FirstStop | server/src/main/java/com/genymobile/scrcpy/control/Controller.java:69-71 | the number of inputs before the first one that is not a line |
| ControlProperties.BlankLineIsEmptyCommand | server/src/main/java/com/genymobile/scrcpy/control/Controller.java:119-123 | a blank line gets ERR EMPTY_COMMAND and touches nothing |
| ControlProperties.PingAnswersPong | server/src/main/java/com/genymobile/scrcpy/control/Controller.java:138-141 | PING, in any case and with any arguments, gets OK PONG and touches nothing, whether or not the display takes input |
| ControlProperties.Dispatch | server/src/main/java/com/genymobile/scrcpy/control/Controller.java:136-171 | `ControlSpec.HandleLine` and `Execute`: the verb decides the handler: PING, CLIP_GET and CLIP_SET always; TAP, SWIPE or DRAG, KEYCODE and TEXT only with input support; otherwise INPUT_NOT_SUPPORTED or UNKNOWN_COMMAND |
| ControlProperties.InputGate | server/src/main/java/com/genymobile/scrcpy/control/Controller.java:154-157 | without input support every verb other than PING, CLIP_GET and CLIP_SET gets ERR INPUT_NOT_SUPPORTED and touches nothing |
| ControlProperties.UnknownVerb | server/src/main/java/com/genymobile/scrcpy/control/Controller.java:167-169 | an unrecognised verb gets ERR UNKNOWN_COMMAND and touches nothing |
| ControlProperties.ValidationMakesNoCall | server/src/main/java/com/genymobile/scrcpy/control/Controller.java:174-264 | a TAP, SWIPE or DRAG, or KEYCODE line that fails validation gets the validation's error and makes no device call |
| ControlProperties.InjectionReplies | server/src/main/java/com/genymobile/scrcpy/control/Controller.java:174-268 | `TapReply`, `SwipeReply` and `KeycodeReply`: a refused argument list gets the parser's error and no call; otherwise the injection runs and the reply is OK when it succeeded and ERR INJECT_FAILED when it did not |
| ControlProperties.TapAppendsCalls | server/src/main/java/com/genymobile/scrcpy/control/Controller.java:174-215 | TAP only appends device calls, none of which writes the clipboard |
| ControlProperties.SwipeAppendsCalls | server/src/main/java/com/genymobile/scrcpy/control/Controller.java:217-241 | SWIPE only appends device calls, none of which writes the clipboard |
| ControlProperties.KeycodeAppendsCalls | server/src/main/java/com/genymobile/scrcpy/control/Controller.java:243-268 | KEYCODE only appends device calls, none of which writes the clipboard |
| ControlProperties.TextAndClipboardGetAppendCalls | server/src/main/java/com/genymobile/scrcpy/control/Controller.java:270-300 | TEXT and CLIP_GET only append device calls, none of which writes the clipboard |
| ControlProperties.ClipboardGetOutcome | server/src/main/java/com/genymobile/scrcpy/control/Controller.java:291-300 | `ClipboardGetReply`: one clipboard read; ERR CLIPBOARD_UNAVAILABLE when the clipboard is null, otherwise OK with its text as UTF-8 in Base 64 |
| ControlProperties.ClipboardSetOutcome | server/src/main/java/com/genymobile/scrcpy/control/Controller.java:302-311 | `ClipboardSetReply`: undecodable Base 64 gets ERR INVALID_BASE64 and no call; otherwise one call hands the decoded text to the device, answered OK when it takes it and ERR CLIPBOARD_SET_FAILED when it does not |
| ControlProperties.HandleLineAppendsCalls | server/src/main/java/com/genymobile/scrcpy/control/Controller.java:106-172 | handling any line only appends device calls, and only a CLIP_SET line writes the clipboard |
| ControlProperties.SwipeInjectsOnly | server/src/main/java/com/genymobile/scrcpy/control/Controller.java:321-346 | a swipe only appends calls, and every one of them is a touch event injection |
| ControlProperties.ErrorMessagesAreOneLine | server/src/main/java/com/genymobile/scrcpy/control/Controller.java:121-310 | no error message contains a line break |
| ControlProperties.RespondIsOneLine | server/src/main/java/com/genymobile/scrcpy/control/Controller.java:410-418 | `respond` with one of the error messages gives a single-line reply |
| ControlProperties.HandlerRepliesAreOneLine | server/src/main/java/com/genymobile/scrcpy/control/Controller.java:174-311 | every handler's reply is a single line |
| ControlProperties.ClipboardReplyIsOneLine | server/src/main/java/com/genymobile/scrcpy/control/Controller.java:291-300 | the CLIP_GET reply is one line because the NO_WRAP encoding has no line break |
| ControlProperties.ReplyIsOneLine | server/src/main/java/com/genymobile/scrcpy/control/Controller.java:106-172 | the response to any line is a single protocol line |
| ControlProperties.TextOutcome | server/src/main/java/com/genymobile/scrcpy/control/Controller.java:270-289 | TEXT: bad Base 64 gives INVALID_BASE64 with no call; empty text gives OK with no call; otherwise one outcome per char, OK when at least one char was injected and TEXT_NOT_SUPPORTED when none was |
| ControlProperties.CommandLineParts | server/src/main/java/com/genymobile/scrcpy/control/Controller.java:119-136 | a line written as words is not blank; its verb is the first word upper-cased and its arguments are the other words |
| ControlProperties.ClipboardSetLine | server/src/main/java/com/genymobile/scrcpy/control/Controller.java:148-151 | a CLIP_SET line in any case is handled by the clipboard-set handler with its words as argument |
| ControlProperties.ClipboardGetLine | server/src/main/java/com/genymobile/scrcpy/control/Controller.java:143-146 | a CLIP_GET line in any case is handled by the clipboard-get handler |
| ControlProperties.ClipboardRoundTrip | server/src/main/java/com/genymobile/scrcpy/control/Controller.java:291-311 | on a clipboard that behaves as a plain store (read right after an accepted write, it holds what was written), an accepted CLIP_SET followed by CLIP_GET answers OK with the Base 64 of the UTF-8 of the text that was set, which decodes back to those bytes, and to the text itself when the platform's decoders undo its encoders |
| ControlProperties.EventHandlerAnswersLines | server/src/main/java/com/genymobile/scrcpy/control/Controller.java:106-123 | the controller's step stays alive and replies exactly on received lines |
| ControlProperties.SessionReplies | server/src/main/java/com/genymobile/scrcpy/control/Controller.java:60-72 | `Session`: over any inputs the session sends one reply per line before the first end or failed read, and is still alive exactly when every input was a line |
| ControlProperties.SessionCounts | server/src/main/java/com/genymobile/scrcpy/control/Controller.java:69-71 | one more input adds a reply exactly when the session was alive and the input is a line |
| ControlProperties.FirstStopUnique | server/src/main/java/com/genymobile/scrcpy/control/Controller.java:69-71 | the first non-line input is characterised by its position |
| ControlProperties.TapWithTooFewArguments | server/src/main/java/com/genymobile/scrcpy/control/Controller.java:176-179 | TAP with fewer than two arguments gets ERR INVALID_ARGS and makes no call |
| ControlProperties.TapWithBadCoordinates | server/src/main/java/com/genymobile/scrcpy/control/Controller.java:181-186 | TAP whose coordinates are not ints gets ERR INVALID_COORDS and makes no call |
| ControlProperties.KeycodeWithUnknownAction | server/src/main/java/com/genymobile/scrcpy/control/Controller.java:358-369 | KEYCODE with an unknown action makes no call and gets ERR INJECT_FAILED |
| ControlProperties.TapTenExample | server/src/main/java/com/genymobile/scrcpy/control/Controller.java:176-179 | `TAP 10` gets ERR INVALID_ARGS |
| ControlProperties.TapLettersExample | server/src/main/java/com/genymobile/scrcpy/control/Controller.java:181-186 | `tap a b` gets ERR INVALID_COORDS |
| ControlProperties.FooExample | server/src/main/java/com/genymobile/scrcpy/control/Controller.java:167-169 | `FOO` gets ERR UNKNOWN_COMMAND |
| ControlProperties.SidewaysExample | server/src/main/java/com/genymobile/scrcpy/control/Controller.java:358-369 | `KEYCODE 3 sideways` gets ERR INJECT_FAILED |
| Controllers.SessionNext | server/src/main/java/com/genymobile/scrcpy/control/Controller.java:69-71 | one iteration of the control loop: the device state, liveness and transcript of the session over one more input |
| Controllers.SessionStops | server/src/main/java/com/genymobile/scrcpy/control/Controller.java:69-71 | once the session has stopped, later inputs change nothing |
| Controllers.SessionEnds | server/src/main/java/com/genymobile/scrcpy/control/Controller.java:69-71 | the session over all inputs equals the session up to where the loop left |
| Controllers.TranscriptAppend | server/src/main/java/com/genymobile/scrcpy/control/Controller.java:420-434 | each reply adds its rendered line and a line break to what was sent |
| Controllers.MoveCallAt | server/src/main/java/com/genymobile/scrcpy/control/Controller.java:332-337 | the i-th MOVE call of a swipe is made at down time + i * step duration, at the interpolated point, with pressure 1.0 and no buttons |
| Controllers.Controller.constructor | server/src/main/java/com/genymobile/scrcpy/control/Controller.java:36-58 | the controller takes its display and power-on option from the options, asks the device whether the display takes input, and starts with fresh pointer coords |
| Controllers.Controller.SendOk | server/src/main/java/com/genymobile/scrcpy/control/Controller.java:420-426 | sends exactly the OK line for the payload, followed by a line break |
| Controllers.Controller.SendError | server/src/main/java/com/genymobile/scrcpy/control/Controller.java:428-434 | sends exactly the ERR line for the message, followed by a line break |
| Controllers.Controller.Respond | server/src/main/java/com/genymobile/scrcpy/control/Controller.java:410-418 | sends exactly the line `Protocol.Respond` gives |
| Controllers.Controller.InjectTouchEvent | server/src/main/java/com/genymobile/scrcpy/control/Controller.java:348-356 | the shared pointer coords now hold x, y and the pressure; one touch call is made on the device with the given times, action and buttons |
| Controllers.Controller.InjectTap | server/src/main/java/com/genymobile/scrcpy/control/Controller.java:313-319 | the device calls and result are those of `TapRun` (DOWN then UP, UP even if DOWN failed) |
| Controllers.Controller.InjectSwipe | server/src/main/java/com/genymobile/scrcpy/control/Controller.java:321-346 | the device calls and result are those of `SwipeRun` |
| Controllers.Controller.InjectMoves | server/src/main/java/com/genymobile/scrcpy/control/Controller.java:330-342 | the intermediate moves are injected in order until one is refused, as `Attempt` over `MoveCalls` |
| Controllers.Controller.InjectKeyEvent | server/src/main/java/com/genymobile/scrcpy/control/Controller.java:402-404 | one key event call on the controller's display |
| Controllers.Controller.PressReleaseKeycode | server/src/main/java/com/genymobile/scrcpy/control/Controller.java:406-408 | one press-and-release call on the controller's display |
| Controllers.Controller.InjectKeycode | server/src/main/java/com/genymobile/scrcpy/control/Controller.java:358-370 | the device calls and result are those of `KeycodeRun` |
| Controllers.Controller.InjectChar | server/src/main/java/com/genymobile/scrcpy/control/Controller.java:385-400 | the device calls and result are those of `CharRun`: the char's key events injected until one is refused |
| Controllers.Controller.InjectText | server/src/main/java/com/genymobile/scrcpy/control/Controller.java:372-383 | the device state is that of `TextRun` and the count is the number of chars injected |
| Controllers.Controller.HandleTap | server/src/main/java/com/genymobile/scrcpy/control/Controller.java:174-215 | sends exactly the reply of `TapReply`, once, and leaves the device as it says |
| Controllers.Controller.HandleSwipe | server/src/main/java/com/genymobile/scrcpy/control/Controller.java:217-241 | sends exactly the reply of `SwipeReply`, once, and leaves the device as it says |
| Controllers.Controller.HandleKeycode | server/src/main/java/com/genymobile/scrcpy/control/Controller.java:243-268 | sends exactly the reply of `KeycodeReply`, once, and leaves the device as it says |
| Controllers.Controller.HandleText | server/src/main/java/com/genymobile/scrcpy/control/Controller.java:270-289 | sends exactly the reply of `TextReply`, once, and leaves the device as it says |
| Controllers.Controller.HandleClipboardGet | server/src/main/java/com/genymobile/scrcpy/control/Controller.java:291-300 | sends exactly the reply of `ClipboardGetReply`, once |
| Controllers.Controller.HandleClipboardSet | server/src/main/java/com/genymobile/scrcpy/control/Controller.java:302-311 | sends exactly the reply of `ClipboardSetReply`, once, and leaves the device as it says |
| Controllers.Controller.HandleLine | server/src/main/java/com/genymobile/scrcpy/control/Controller.java:119-136 | sends exactly the one reply `ControlSpec.HandleLine` gives for the line, and leaves the device as it says |
| Controllers.Controller.Execute | server/src/main/java/com/genymobile/scrcpy/control/Controller.java:138-171 | sends exactly the one reply `ControlSpec.Execute` gives for the verb and arguments |
| Controllers.Controller.HandleEvent | server/src/main/java/com/genymobile/scrcpy/control/Controller.java:106-172 | a failed or ended read sends nothing and returns false; a line sends exactly one reply and returns true |
| Controllers.Controller.Control | server/src/main/java/com/genymobile/scrcpy/control/Controller.java:60-72 | `PowerOn` then `Session`: after the optional power-on key, the device state and everything sent are those of the session over the inputs |
| ControlChannel.Channel.Send | server/src/main/java/com/genymobile/scrcpy/control/ControlChannel.java:54-58 | appends the line and a line terminator to what was sent |
| ControlChannel.TextPreview | server/src/main/java/com/genymobile/scrcpy/control/ControlChannel.java:60-69 | null gives ""; a text within the limit is returned whole; a longer one is its first `limit` chars followed by `...(len=N)` |
| ControlChannel.TextPreviewLength | server/src/main/java/com/genymobile/scrcpy/control/ControlChannel.java:60-69 | the marker after a cut text reads `...(len=` and ends with `)` |
| ControlChannel.RenderedCount | server/src/main/java/com/genymobile/scrcpy/control/ControlChannel.java:75 | the number of bytes shown is the length capped at the limit |
| ControlChannel.HexBodyLayout | server/src/main/java/com/genymobile/scrcpy/control/ControlChannel.java:78-87 | each shown byte is two lower-case hex digits, separated by single spaces |
| ControlChannel.PreviewLayout | server/src/main/java/com/genymobile/scrcpy/control/ControlChannel.java:71-93 | the preview is `[`, the shown bytes, the length suffix when cut, then `]` |
| ControlChannel.RenderBytes | server/src/main/java/com/genymobile/scrcpy/control/ControlChannel.java:76-87 | the builder holds `[` and the hex of the first `max` bytes |
| ControlChannel.HexPreview | server/src/main/java/com/genymobile/scrcpy/control/ControlChannel.java:71-93 | null or empty bytes give `[]`; otherwise brackets around at most `limit` two-digit bytes separated by spaces, plus ` ...len=N` when the bytes were cut |
| ServerOptions.LevelValueOf | server/src/main/java/com/genymobile/scrcpy/Options.java:77 | `Ln.Level.valueOf`: the level whose name is exactly the given string, or none |
| ServerOptions.ParseBooleanMatches | server/src/main/java/com/genymobile/scrcpy/Options.java:79-87 | `Boolean.parseBoolean`: true exactly for a four-letter value spelling "true", each letter in either case |
| ServerOptions.SplitPair | server/src/main/java/com/genymobile/scrcpy/Options.java:64-69 | no pair exactly when there is no `=`; the key is the text before the first `=` and the value the rest |
| ServerOptions.ApplyOption | server/src/main/java/com/genymobile/scrcpy/Options.java:70-91 | an unknown key leaves the options unchanged; a known key succeeds exactly when its value is valid, sets that one field and no other |
| ServerOptions.AcceptedArgsArePairs | server/src/main/java/com/genymobile/scrcpy/Options.java:62-67 | every argument of an accepted list contains `=` |
| ServerOptions.ParseOptions | server/src/main/java/com/genymobile/scrcpy/Options.java:49-58 | no arguments fail with the missing client version; a version other than the server's fails with the mismatch |
| ServerOptions.LastOccurrenceWins | server/src/main/java/com/genymobile/scrcpy/Options.java:62-92 | a key given several times takes its last value; an absent key keeps its value |
| ServerOptions.ParseVersionOnly | server/src/main/java/com/genymobile/scrcpy/Options.java:49-95 | the version alone gives the default options |
| ServerOptions.AbsentKeyKeepsDefault | server/src/main/java/com/genymobile/scrcpy/Options.java:9-15 | an option not given keeps its default |
| ServerOptions.ParsedScidInRange | server/src/main/java/com/genymobile/scrcpy/Options.java:70-75 | a parsed scid is never below -1 |
| ServerOptions.ParseStep | server/src/main/java/com/genymobile/scrcpy/Options.java:62-69 | each loop step applies the next argument to the options so far, and a refused argument decides the result |
| ServerOptions.FailurePrefix | server/src/main/java/com/genymobile/scrcpy/Options.java:62-92 | once a prefix of the arguments is refused, later ones do not matter |
| ServerOptions.Options.constructor | server/src/main/java/com/genymobile/scrcpy/Options.java:9-15 | a new options object holds the defaults |
| ServerOptions.Options.SetOption | server/src/main/java/com/genymobile/scrcpy/Options.java:68-91 | updates the options exactly as `ApplyOption`, or reports the error it gives |
| ServerOptions.Options.Parse | server/src/main/java/com/genymobile/scrcpy/Options.java:49-95 | `Options.parse`: succeeds exactly when `ParseOptions` does, with the same options, and fails with the same error otherwise |
| DesktopConnection.SocketName | server/src/main/java/com/genymobile/scrcpy/device/DesktopConnection.java:31-38 | -1 gives `framex`; any other scid gives `framex_` followed by eight hex digits |
| DesktopConnection.SocketNameSuffix | server/src/main/java/com/genymobile/scrcpy/device/DesktopConnection.java:37 | the eight digits denote the scid as an unsigned 32-bit value (the scid itself when non-negative) |
| DesktopConnection.SocketNameInjective | server/src/main/java/com/genymobile/scrcpy/device/DesktopConnection.java:31-38 | different scids give different socket names |
| DesktopConnection.Unsigned32 | server/src/main/java/com/genymobile/scrcpy/device/DesktopConnection.java:37 | `%08x` of an int: the value below 2^32 congruent to it |
| Server.Completed | server/src/main/java/com/genymobile/scrcpy/Server.java:36-44 | one completion decrements the count, records a fatal error, and quits exactly when none are running or an error was fatal |
| Server.CompletedAllCounts | server/src/main/java/com/genymobile/scrcpy/Server.java:36-44 | after several completions, the count dropped by their number and an error is fatal exactly when one of them was |
| Server.FatalIsSticky | server/src/main/java/com/genymobile/scrcpy/Server.java:38-43 | after a fatal error every later completion asks to quit |
| Server.QuitOnLastCompletion | server/src/main/java/com/genymobile/scrcpy/Server.java:73-80 | with n processors and no fatal error, only the n-th completion asks to quit |
| Server.QuitCountdown | server/src/main/java/com/genymobile/scrcpy/Server.java:36-44 | without fatal errors, the quit comes on the completion that brings the count to zero and not before |
| Server.Completion.constructor | server/src/main/java/com/genymobile/scrcpy/Server.java:32-34 | a new completion holds the count and no fatal error |
| Server.Completion.AddCompleted | server/src/main/java/com/genymobile/scrcpy/Server.java:36-44 | the state moves as `Completed` says and a quit request is counted when it asks for one |

## Left out

- Strings are sequences of Unicode scalar values, not of UTF-16 code units. A text with a char outside the Basic Multilingual Plane is typed as one char here and as two surrogate units by the Java loop. The `length()` in the text preview counts such a char once.
- `toUpperCase`/`toLowerCase` map ASCII letters, plus the two non-ASCII letters whose upper case is an ASCII letter (dotless i and long s). No verb or level name can be reached through any other mapping. The rest of Unicode case mapping is not modelled.
- `Integer.parseInt` accepts ASCII digits only. Non-ASCII Unicode digits, which `Character.digit` also accepts, are not modelled.
- `Float.parseFloat`, `Base64.decode(DEFAULT)`, UTF-8 decoding and encoding, `KeyComposition.decompose` and `KeyCharacterMap.getEvents` are platform services. They are function parameters (`ControlSpec.Platform`) and are not modelled. The clipboard round trip is stated over them. `ControlSpec.DecodeBase64` is the platform's Base 64 decoder followed by its UTF-8 decoder, and nothing is proved about it beyond what those parameters give.
- The device (`Device.injectEvent`, `injectKeyEvent`, `pressReleaseKeycode`, `getClipboardText`, `setClipboardText`, `isScreenOn`, `supportsInputEvents`) is an oracle. Its answers are a function of the calls made so far (`Answer`), and so is the text the system clipboard reports (`ClipboardSource`). The model records the calls, but not how the system clipboard stores what is written to it; the clipboard round trip is proved for a clipboard that returns what was last written (`PassThrough`); `MotionEvent`/`KeyEvent` construction is reduced to the fields the controller sets.
- `PointerProperties` and the orientation and size of the pointer coords are fixed at start-up and never read back; they are not modelled.
- `SystemClock.uptimeMillis` becomes two readings per line (`Clock`), one at the DOWN and one at the UP. `SystemClock.sleep` between swipe steps and after the power key is not modelled, because it has no visible effect in the model.
- Gestures.MoveCoordinate: the swipe progress `(float) i / steps` and `Math.round` of the float product are computed on exact rationals with halves rounded up. Float rounding error is not modelled.
- Gestures.MoveEventsBetween: assumes `x2 - x1` and `y2 - y1` fit in an int. The 32-bit wrap of those differences is modelled in `MoveCoordinate`, but the bound is not proved for a difference that wraps.
- Long arithmetic for event times is unbounded. The 64-bit overflow of `downTime + stepDuration * i` is not modelled.
- Server.Completed: the `int` counter is unbounded. A wrap-around below `Integer.MIN_VALUE` after more than 2^31 completions is not modelled.
- ControlChannel.Channel.Send: writing never fails. The IOException a closed socket would raise on `send` is not modelled.
- `recv` is a sequence of received items (`Input`): a line, the end of the stream, or a read failure. The byte and text previews it logs are modelled, but the log call itself is not.
- Thread start, stop, join and interruption are not modelled. `Control` handles the inputs received before an interrupt.
- The `Ln` logger is not part of this model. Neither are log statements and the warning for unsupported input.
- `Workarounds`, the `Server.main` bootstrap (class path, `Looper`, `scrcpy`) and `DesktopConnection.open`, `shutdown` and `close` (socket set-up) are not modelled.
- `BuildConfig.VERSION_NAME` is a parameter (`serverVersion`) of `Options.parse`.
- In `Options.parse`, an unknown key is ignored as in the source. The warning logged for it is not modelled.
- `handleEvent` is split into `HandleEvent`, `HandleLine` and `Execute`, and the swipe loop into `InjectMoves`. The steps and their order are those of the source.
