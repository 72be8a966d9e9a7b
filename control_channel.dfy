/**
 * The line-oriented control channel: writing one response line, and the
 * bounded text and byte previews that the channel logs for each received line.
 */
module ControlChannel {
  import opened Wrappers
  import opened JavaNumbers

  const LogTextPreviewLimit: nat := 80
  const LogBytePreviewLimit: int := 64

  /** The output side of the channel: `output` is everything written to the socket so far. */
  class Channel {
    var output: string

    constructor ()
      ensures output == []
    {
      output := [];
    }

    /** `send`: writes the line and one line terminator ('\n' on Android), and nothing else. */
    method Send(line: string)
      modifies this
      ensures output == old(output) + line + "\n"
    {
      output := output + line + "\n";
    }
  }

  /** The marker `toTextPreview` puts after a cut text: "...(len=" + length + ")". */
  function LengthMarker(n: nat): string {
    "...(len=" + DecimalString(n) + ")"
  }

  /**
   * `toTextPreview`: "" for null, the text itself when it has at most `limit`
   * chars, otherwise its first `limit` chars followed by the length marker.
   */
  function TextPreview(text: Option<string>, limit: nat): (r: string)
    ensures text.None? ==> r == []
    ensures text.Some? && |text.value| <= limit ==> r == text.value
    ensures text.Some? && |text.value| > limit ==>
      |r| > limit + 9 && r[..limit] == text.value[..limit] && r[limit..] == LengthMarker(|text.value|)
  {
    match text
    case None => []
    case Some(t) => if |t| <= limit then t else t[..limit] + LengthMarker(|t|)
  }

  /** The length written into a cut preview reads back as the length of the text. */
  lemma TextPreviewLength(t: string, limit: nat)
    requires |t| > limit && |t| <= MaxInt
    ensures var r := TextPreview(Some(t), limit);
      r[limit..limit + 8] == "...(len=" && r[|r| - 1] == ')' &&
      ParseInt(r[limit + 8..|r| - 1], 10) == Some(|t|)
  {
    var r := TextPreview(Some(t), limit);
    var d := DecimalString(|t|);
    assert r[limit..] == "...(len=" + d + ")";
    assert r[limit + 8..|r| - 1] == d;
    ParseIntToString(|t|);
    assert IntToString(|t|) == d;
  }

  /** How many bytes `toHexPreview` renders: `min(length, limit)`, and none for a negative limit. */
  function RenderedCount(n: nat, limit: int): (m: nat)
    ensures m <= n && (m as int <= limit || (m == 0 && limit < 0))
    ensures n <= limit ==> m == n
    ensures 0 <= limit < n ==> m == limit
  {
    if n < limit then n else if limit < 0 then 0 else limit
  }

  /** The chars that `m` rendered bytes take: two hex digits each, one space between two. */
  function Width(m: nat): nat {
    if m == 0 then 0 else 3 * m - 1
  }

  /** What `toHexPreview` appends before ']' when the bytes were cut. */
  function HexSuffix(n: nat, limit: int): string {
    if n > limit then " ...len=" + IntToString(n) else []
  }

  /** The rendered bytes between the brackets: two hex digits per byte, single spaces between. */
  function HexBody(bs: seq<JByte>): (h: string)
    ensures |h| == Width(|bs|)
  {
    if bs == [] then []
    else if |bs| == 1 then HexDigits(Unsigned(bs[0]), 2)
    else HexBody(bs[..|bs| - 1]) + " " + HexDigits(Unsigned(bs[|bs| - 1]), 2)
  }

  /** Where each byte and each separating space of `HexBody` sits. */
  lemma {:induction false} HexBodyLayout(bs: seq<JByte>)
    ensures |HexBody(bs)| == Width(|bs|)
    ensures forall k :: 0 <= k < |bs| ==> HexBody(bs)[3 * k..3 * k + 2] == HexDigits(Unsigned(bs[k]), 2)
    ensures forall k :: 0 < k < |bs| ==> HexBody(bs)[3 * k - 1] == ' '
  {
    if |bs| > 1 {
      var init := bs[..|bs| - 1];
      HexBodyLayout(init);
      var h := HexBody(bs);
      assert h == HexBody(init) + " " + HexDigits(Unsigned(bs[|bs| - 1]), 2);
      forall k | 0 <= k < |bs|
        ensures h[3 * k..3 * k + 2] == HexDigits(Unsigned(bs[k]), 2)
      {
        if k < |bs| - 1 {
          assert h[3 * k..3 * k + 2] == HexBody(init)[3 * k..3 * k + 2];
          assert init[k] == bs[k];
        }
      }
      forall k | 0 < k < |bs|
        ensures h[3 * k - 1] == ' '
      {
        if k < |bs| - 1 {
          assert h[3 * k - 1] == HexBody(init)[3 * k - 1];
        }
      }
    }
  }

  /** Extending the rendered prefix of a byte sequence by its next byte. */
  lemma HexBodyNext(b: seq<JByte>, i: nat)
    requires i < |b|
    ensures HexBody(b[..i + 1]) == HexBody(b[..i]) + (if i > 0 then " " else "") + HexDigits(Unsigned(b[i]), 2)
  {
    assert b[..i + 1][..i] == b[..i];
  }

  /** A preview made of '[', the rendered first `m` bytes, a suffix and ']'. */
  function Preview(b: seq<JByte>, m: nat, suffix: string): (p: string)
    requires m <= |b|
    ensures |p| == 2 + Width(m) + |suffix|
  {
    "[" + HexBody(b[..m]) + suffix + "]"
  }

  /** Each rendered byte sits at positions 3k+1 and 3k+2 of a preview. */
  lemma PreviewBytes(b: seq<JByte>, m: nat, suffix: string, k: nat)
    requires k < m <= |b|
    ensures Preview(b, m, suffix)[3 * k + 1..3 * k + 3] == HexDigits(Unsigned(b[k]), 2)
  {
    var r, body := Preview(b, m, suffix), HexBody(b[..m]);
    HexBodyLayout(b[..m]);
    assert r[1..1 + |body|] == body;
    assert r[3 * k + 1..3 * k + 3] == body[3 * k..3 * k + 2];
    assert b[..m][k] == b[k];
  }

  /** A space sits before every rendered byte but the first. */
  lemma PreviewSpaces(b: seq<JByte>, m: nat, suffix: string, k: nat)
    requires 0 < k < m <= |b|
    ensures Preview(b, m, suffix)[3 * k] == ' '
  {
    var r, body := Preview(b, m, suffix), HexBody(b[..m]);
    HexBodyLayout(b[..m]);
    assert r[3 * k] == body[3 * k - 1];
  }

  /** The brackets, the length and the place of the suffix in a preview. */
  lemma PreviewFrame(b: seq<JByte>, m: nat, suffix: string)
    requires m <= |b|
    ensures var r := Preview(b, m, suffix);
      |r| == 2 + Width(m) + |suffix| && r[0] == '[' && r[|r| - 1] == ']' &&
      r[1 + Width(m)..|r| - 1] == suffix
  {
    HexBodyLayout(b[..m]);
  }

  /** The layout of the preview of a non-empty byte sequence. */
  lemma PreviewLayout(b: seq<JByte>, limit: int)
    ensures var n, m := |b|, RenderedCount(|b|, limit);
      var r := Preview(b, m, HexSuffix(n, limit));
      |r| == 2 + Width(m) + |HexSuffix(n, limit)| &&
      r[0] == '[' && r[|r| - 1] == ']' &&
      (forall k :: 0 <= k < m ==> r[3 * k + 1..3 * k + 3] == HexDigits(Unsigned(b[k]), 2)) &&
      (forall k :: 0 < k < m ==> r[3 * k] == ' ') &&
      r[1 + Width(m)..|r| - 1] == HexSuffix(n, limit)
  {
    var m, suffix := RenderedCount(|b|, limit), HexSuffix(|b|, limit);
    PreviewFrame(b, m, suffix);
    forall k | 0 <= k < m
      ensures Preview(b, m, suffix)[3 * k + 1..3 * k + 3] == HexDigits(Unsigned(b[k]), 2)
    {
      PreviewBytes(b, m, suffix, k);
    }
    forall k | 0 < k < m
      ensures Preview(b, m, suffix)[3 * k] == ' '
    {
      PreviewSpaces(b, m, suffix, k);
    }
  }

  /** The loop of `toHexPreview`: '[' and the first `max` bytes rendered. */
  method RenderBytes(b: seq<JByte>, max: int) returns (builder: string)
    requires max <= |b|
    ensures builder == "[" + HexBody(b[..if max < 0 then 0 else max])
  {
    builder := "[";
    var i := 0;
    while i < max
      invariant 0 <= i <= |b| && (i <= max || i == 0)
      invariant builder == "[" + HexBody(b[..i])
    {
      if i > 0 {
        builder := builder + " ";
      }
      var value := Unsigned(b[i]);
      if value < 16 {
        builder := builder + "0";
      }
      builder := builder + ToHexString(value);
      PaddedByteHex(value);
      HexBodyNext(b, i);
      i := i + 1;
    }
  }

  /**
   * `toHexPreview`: "[]" for null or no bytes; otherwise '[', the first
   * `min(length, limit)` bytes as two lower-case hex digits each (unsigned,
   * zero-padded) separated by single spaces, " ...len=<length>" when the bytes
   * were cut, and ']'.
   */
  method HexPreview(bytes: Option<seq<JByte>>, limit: int) returns (r: string)
    ensures bytes.None? || bytes.value == [] ==> r == "[]"
    ensures bytes.Some? && bytes.value != [] ==>
      var n, m := |bytes.value|, RenderedCount(|bytes.value|, limit);
      |r| == 2 + Width(m) + |HexSuffix(n, limit)| &&
      r[0] == '[' && r[|r| - 1] == ']' &&
      (forall k :: 0 <= k < m ==> r[3 * k + 1..3 * k + 3] == HexDigits(Unsigned(bytes.value[k]), 2)) &&
      (forall k :: 0 < k < m ==> r[3 * k] == ' ') &&
      r[1 + Width(m)..|r| - 1] == HexSuffix(n, limit)
  {
    if bytes.None? || bytes.value == [] {
      return "[]";
    }
    var b := bytes.value;
    var max := if |b| < limit then |b| else limit;
    var builder := RenderBytes(b, max);
    if |b| > limit {
      builder := builder + " ...len=" + IntToString(|b|);
    }
    r := builder + "]";
    assert r == Preview(b, RenderedCount(|b|, limit), HexSuffix(|b|, limit));
    PreviewLayout(b, limit);
  }
}
