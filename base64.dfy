/**
 * Base 64 encoding as in section 4 of RFC 4648, with '=' padding and no line
 * breaks (Android's `Base64.NO_WRAP`), and a strict decoder for the padded
 * form that undoes it.
 */
module Base64 {
  import opened Wrappers
  import opened JavaNumbers

  /** The char for a 6-bit value: A-Z, a-z, 0-9, '+', '/'. */
  function SextetChar(v: nat): (c: char)
    requires v < 64
  {
    if v < 26 then ('A' as int + v) as char
    else if v < 52 then ('a' as int + v - 26) as char
    else if v < 62 then ('0' as int + v - 52) as char
    else if v == 62 then '+'
    else '/'
  }

  /** The 6-bit value of an alphabet char, or -1 for any other char (the pad '=' included). */
  function SextetOf(c: char): (v: int)
    ensures -1 <= v < 64
    ensures v >= 0 ==> SextetChar(v) == c
  {
    if 'A' <= c <= 'Z' then c as int - 'A' as int
    else if 'a' <= c <= 'z' then c as int - 'a' as int + 26
    else if '0' <= c <= '9' then c as int - '0' as int + 52
    else if c == '+' then 62
    else if c == '/' then 63
    else -1
  }

  lemma SextetOfChar(v: nat)
    requires v < 64
    ensures SextetOf(SextetChar(v)) == v
  {
  }

  predicate IsAlphabetChar(c: char) {
    SextetOf(c) >= 0
  }

  /** A Java byte from its unsigned value. */
  function ToByte(v: nat): (b: JByte)
    requires v < 256
    ensures Unsigned(b) == v
  {
    if v >= 128 then v - 256 else v
  }

  /** Encodes one group of one to three bytes into four chars, padding with '='. */
  function EncodeGroup(g: seq<JByte>): (s: string)
    requires 1 <= |g| <= 3
    ensures |s| == 4
    ensures IsAlphabetChar(s[0]) && IsAlphabetChar(s[1])
    ensures s[2] == '=' <==> |g| == 1
    ensures s[2] != '=' ==> IsAlphabetChar(s[2])
    ensures s[3] == '=' <==> |g| < 3
    ensures s[3] != '=' ==> IsAlphabetChar(s[3])
  {
    var a := Unsigned(g[0]);
    var b := if |g| > 1 then Unsigned(g[1]) else 0;
    var c := if |g| > 2 then Unsigned(g[2]) else 0;
    [SextetChar(a / 4), SextetChar((a % 4) * 16 + b / 16)] +
    (if |g| > 1 then [SextetChar((b % 16) * 4 + c / 64)] else "=") +
    (if |g| > 2 then [SextetChar(c % 64)] else "=")
  }

  /** `Base64.encodeToString(data, Base64.NO_WRAP)`. */
  function Encode(data: seq<JByte>): (s: string)
    ensures |s| == 4 * ((|data| + 2) / 3)
    decreases |data|
  {
    if data == [] then []
    else if |data| <= 3 then EncodeGroup(data)
    else
      assert (|data| + 2) / 3 == (|data[3..]| + 2) / 3 + 1;
      EncodeGroup(data[..3]) + Encode(data[3..])
  }

  /** A padded Base 64 text holds alphabet chars and '=' only, so never a line break. */
  lemma EncodeAlphabet(data: seq<JByte>)
    ensures forall k :: 0 <= k < |Encode(data)| ==> IsAlphabetChar(Encode(data)[k]) || Encode(data)[k] == '='
    ensures '\n' !in Encode(data) && '\r' !in Encode(data)
  {
    EncodeChars(data);
    NoLineBreak(Encode(data));
  }

  /** Every char of the encoding is an alphabet char or the pad. */
  lemma {:induction false} EncodeChars(data: seq<JByte>)
    ensures forall k :: 0 <= k < |Encode(data)| ==> IsAlphabetChar(Encode(data)[k]) || Encode(data)[k] == '='
    decreases |data|
  {
    if |data| > 3 {
      EncodeChars(data[3..]);
      var s, g, rest := Encode(data), EncodeGroup(data[..3]), Encode(data[3..]);
      assert s == g + rest;
      forall k | 0 <= k < |s| ensures IsAlphabetChar(s[k]) || s[k] == '=' {
        if k < 4 {
          assert s[k] == g[k];
        } else {
          assert s[k] == rest[k - 4];
        }
      }
    }
  }

  /** Text made of alphabet chars and pads holds no line break. */
  lemma NoLineBreak(s: string)
    requires forall k :: 0 <= k < |s| ==> IsAlphabetChar(s[k]) || s[k] == '='
    ensures '\n' !in s && '\r' !in s
  {
    assert !IsAlphabetChar('\n') && !IsAlphabetChar('\r');
  }

  /** Decodes one four-char group; '=' may only pad the last two places of the final group. */
  function DecodeGroup(q: string, last: bool): (r: Option<seq<JByte>>)
    requires |q| == 4
    ensures r.Some? ==> 1 <= |r.value| <= 3
    ensures r.Some? && !last ==> |r.value| == 3
  {
    var s0, s1, s2, s3 := SextetOf(q[0]), SextetOf(q[1]), SextetOf(q[2]), SextetOf(q[3]);
    if s0 < 0 || s1 < 0 then None
    else if s2 >= 0 && s3 >= 0 then
      Some([ToByte(s0 * 4 + s1 / 16), ToByte((s1 % 16) * 16 + s2 / 4), ToByte((s2 % 4) * 64 + s3)])
    else if !last then None
    else if s2 >= 0 && q[3] == '=' && s2 % 4 == 0 then
      Some([ToByte(s0 * 4 + s1 / 16), ToByte((s1 % 16) * 16 + s2 / 4)])
    else if q[2] == '=' && q[3] == '=' && s1 % 16 == 0 then
      Some([ToByte(s0 * 4 + s1 / 16)])
    else None
  }

  /** Strict decoding of padded Base 64: `None` for any text `Encode` cannot produce. */
  function Decode(s: string): (r: Option<seq<JByte>>)
    decreases |s|
  {
    if s == [] then Some([])
    else if |s| < 4 then None
    else if |s| == 4 then DecodeGroup(s, true)
    else
      match DecodeGroup(s[..4], false)
      case None => None
      case Some(g) =>
        match Decode(s[4..])
        case None => None
        case Some(rest) => Some(g + rest)
  }

  lemma ByteRoundTrip(b: JByte)
    ensures ToByte(Unsigned(b)) == b
  {
  }

  /** Splitting a value into a quotient and a remainder by a constant divisor and reading it back. */
  lemma DivMod16(q: nat, r: nat)
    requires r < 16
    ensures (q * 16 + r) / 16 == q && (q * 16 + r) % 16 == r
  {
  }

  lemma DivMod4(q: nat, r: nat)
    requires r < 4
    ensures (q * 4 + r) / 4 == q && (q * 4 + r) % 4 == r
  {
  }

  /** The first byte of a group from its first two sextets. */
  lemma FirstByte(a: nat, b: nat)
    requires a < 256 && b < 256
    ensures (a / 4) * 4 + ((a % 4) * 16 + b / 16) / 16 == a
  {
    DivMod16(a % 4, b / 16);
  }

  /** The second byte of a group from its second and third sextets. */
  lemma SecondByte(a: nat, b: nat, c: nat)
    requires a < 256 && b < 256 && c < 256
    ensures (((a % 4) * 16 + b / 16) % 16) * 16 + ((b % 16) * 4 + c / 64) / 4 == b
  {
    DivMod16(a % 4, b / 16);
    DivMod4(b % 16, c / 64);
  }

  /** The third byte of a group from its third and fourth sextets. */
  lemma ThirdByte(b: nat, c: nat)
    requires b < 256 && c < 256
    ensures (((b % 16) * 4 + c / 64) % 4) * 64 + c % 64 == c
  {
    DivMod4(b % 16, c / 64);
  }

  lemma DecodeEncodeOne(x: JByte)
    ensures DecodeGroup(EncodeGroup([x]), true) == Some([x])
  {
    var a := Unsigned(x);
    var q := EncodeGroup([x]);
    var s0, s1 := a / 4, (a % 4) * 16;
    assert q == [SextetChar(s0), SextetChar(s1), '=', '='];
    SextetOfChar(s0);
    SextetOfChar(s1);
    FirstByte(a, 0);
    ByteRoundTrip(x);
    assert s1 % 16 == 0;
  }

  lemma DecodeEncodeTwo(x: JByte, y: JByte)
    ensures DecodeGroup(EncodeGroup([x, y]), true) == Some([x, y])
  {
    var a, b := Unsigned(x), Unsigned(y);
    var q := EncodeGroup([x, y]);
    var s0, s1, s2 := a / 4, (a % 4) * 16 + b / 16, (b % 16) * 4;
    assert q == [SextetChar(s0), SextetChar(s1), SextetChar(s2), '='];
    SextetOfChar(s0);
    SextetOfChar(s1);
    SextetOfChar(s2);
    FirstByte(a, b);
    SecondByte(a, b, 0);
    ByteRoundTrip(x);
    ByteRoundTrip(y);
    assert s2 % 4 == 0;
  }

  lemma DecodeEncodeThree(x: JByte, y: JByte, z: JByte, last: bool)
    ensures DecodeGroup(EncodeGroup([x, y, z]), last) == Some([x, y, z])
  {
    var a, b, c := Unsigned(x), Unsigned(y), Unsigned(z);
    var q := EncodeGroup([x, y, z]);
    var s0, s1, s2, s3 := a / 4, (a % 4) * 16 + b / 16, (b % 16) * 4 + c / 64, c % 64;
    assert q == [SextetChar(s0), SextetChar(s1), SextetChar(s2), SextetChar(s3)];
    SextetOfChar(s0);
    SextetOfChar(s1);
    SextetOfChar(s2);
    SextetOfChar(s3);
    FirstByte(a, b);
    SecondByte(a, b, c);
    ThirdByte(b, c);
    ByteRoundTrip(x);
    ByteRoundTrip(y);
    ByteRoundTrip(z);
  }

  /** Decoding an encoded group gives the group back. */
  lemma DecodeEncodeGroup(g: seq<JByte>, last: bool)
    requires 1 <= |g| <= 3
    requires !last ==> |g| == 3
    ensures DecodeGroup(EncodeGroup(g), last) == Some(g)
  {
    if |g| == 1 {
      assert g == [g[0]];
      DecodeEncodeOne(g[0]);
    } else if |g| == 2 {
      assert g == [g[0], g[1]];
      DecodeEncodeTwo(g[0], g[1]);
    } else {
      assert g == [g[0], g[1], g[2]];
      DecodeEncodeThree(g[0], g[1], g[2], last);
    }
  }

  /** `Decode` inverts `Encode`: every byte sequence survives the round trip. */
  lemma {:induction false} DecodeEncode(data: seq<JByte>)
    ensures Decode(Encode(data)) == Some(data)
    decreases |data|
  {
    if data == [] {
    } else if |data| <= 3 {
      DecodeEncodeGroup(data, true);
    } else {
      var s := Encode(data);
      var head := EncodeGroup(data[..3]);
      assert s == head + Encode(data[3..]);
      assert s[..4] == head && s[4..] == Encode(data[3..]);
      DecodeEncodeGroup(data[..3], false);
      DecodeEncode(data[3..]);
      assert data[..3] + data[3..] == data;
    }
  }
}
