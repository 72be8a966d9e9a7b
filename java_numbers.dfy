/**
 * Java `int` arithmetic range, `Integer.parseInt` (radix 10 and 16) and the
 * digit renderings used by the server: `Integer.toString`, `Integer.toHexString`
 * and the `%08x` format.
 */
module JavaNumbers {
  import opened Wrappers

  const MinInt: int := -0x8000_0000
  const MaxInt: int := 0x7FFF_FFFF

  /** The values a Java `int` can hold. */
  predicate InIntRange(v: int) {
    MinInt <= v <= MaxInt
  }

  /** The values a Java `byte` can hold (bytes are signed). */
  type JByte = b: int | -128 <= b < 128

  /** `b & 0xff`: the unsigned value of a Java byte. */
  function Unsigned(b: JByte): (v: nat)
    ensures v < 256
    ensures (v - b) % 256 == 0
  {
    if b < 0 then b + 256 else b
  }

  /** `Character.digit(c, radix)` restricted to ASCII digits and letters; -1 for anything else. */
  function DigitOf(c: char, radix: nat): (d: int)
    requires radix == 10 || radix == 16
    ensures -1 <= d < radix as int
  {
    if '0' <= c <= '9' then c as int - '0' as int
    else if radix == 16 && 'a' <= c <= 'f' then c as int - 'a' as int + 10
    else if radix == 16 && 'A' <= c <= 'F' then c as int - 'A' as int + 10
    else -1
  }

  predicate AllDigits(ds: string, radix: nat)
    requires radix == 10 || radix == 16
  {
    forall k :: 0 <= k < |ds| ==> DigitOf(ds[k], radix) >= 0
  }

  /** The value of a digit string, most significant digit first. */
  function DigitsValue(ds: string, radix: nat): (v: nat)
    requires radix == 10 || radix == 16
    requires AllDigits(ds, radix)
  {
    if ds == [] then 0
    else DigitsValue(ds[..|ds| - 1], radix) * radix + DigitOf(ds[|ds| - 1], radix)
  }

  /** The sign-free part of a numeral: everything after one leading '-' or '+'. */
  function Magnitude(s: string): (ds: string)
    requires s != []
    ensures |ds| >= |s| - 1
  {
    if s[0] == '-' || s[0] == '+' then s[1..] else s
  }

  /** The value of a well-formed numeral, negated after a leading '-'. */
  function SignedValue(s: string, radix: nat): int
    requires radix == 10 || radix == 16
    requires s != [] && AllDigits(Magnitude(s), radix)
  {
    var m: int := DigitsValue(Magnitude(s), radix);
    if s[0] == '-' then -m else m
  }

  /**
   * `Integer.parseInt(s, radix)`: `None` where Java throws NumberFormatException.
   * One optional sign, then at least one digit, and the value must fit in an `int`.
   */
  function ParseInt(s: string, radix: nat): (r: Option<int>)
    requires radix == 10 || radix == 16
    ensures r.Some? <==>
      s != [] && Magnitude(s) != [] && AllDigits(Magnitude(s), radix) &&
      InIntRange(SignedValue(s, radix))
    ensures r.Some? ==> InIntRange(r.value) && r.value == SignedValue(s, radix)
  {
    if s == [] then None
    else
      var ds := Magnitude(s);
      if ds == [] || !AllDigits(ds, radix) then None
      else
        var v := SignedValue(s, radix);
        if InIntRange(v) then Some(v) else None
  }

  /** The char for a digit value below 16, lower case as Java prints it. */
  function DigitChar(d: nat): (c: char)
    requires d < 16
    ensures DigitOf(c, 16) == d
    ensures d < 10 ==> DigitOf(c, 10) == d
  {
    if d < 10 then ('0' as int + d) as char else ('a' as int + d - 10) as char
  }

  /** `Integer.toString` of a non-negative value: decimal digits without leading zeros. */
  function DecimalString(n: nat): (s: string)
    ensures s != [] && AllDigits(s, 10)
    ensures s[0] == '0' ==> n == 0
  {
    if n < 10 then [DigitChar(n)] else DecimalString(n / 10) + [DigitChar(n % 10)]
  }

  /** `Integer.toString` of any value: a '-' in front of negative ones. */
  function IntToString(v: int): (s: string)
    ensures s != []
  {
    if v < 0 then "-" + DecimalString(-v) else DecimalString(v)
  }

  /** `Integer.toHexString` of a non-negative value: lower-case hex digits without leading zeros. */
  function ToHexString(v: nat): (s: string)
    ensures s != [] && AllDigits(s, 16)
    ensures s[0] == '0' ==> v == 0
  {
    if v < 16 then [DigitChar(v)] else ToHexString(v / 16) + [DigitChar(v % 16)]
  }

  /** The digits `Integer.toHexString` prints denote the value. */
  lemma {:induction false} ToHexStringValue(v: nat)
    ensures DigitsValue(ToHexString(v), 16) == v
  {
    if v >= 16 {
      var s := ToHexString(v);
      assert s[..|s| - 1] == ToHexString(v / 16);
      ToHexStringValue(v / 16);
    }
  }

  function Pow16(w: nat): (p: nat)
    ensures p >= 1
  {
    if w == 0 then 1 else 16 * Pow16(w - 1)
  }

  /** `String.format("%0<w>x", v)` for a value that fits in `w` hex digits: zero-padded lower-case hex. */
  function HexDigits(v: nat, w: nat): (s: string)
    ensures |s| == w && AllDigits(s, 16)
  {
    if w == 0 then [] else HexDigits(v / 16, w - 1) + [DigitChar(v % 16)]
  }

  /** Reading the decimal rendering back gives the number. */
  lemma {:induction false} DecimalStringValue(n: nat)
    ensures DigitsValue(DecimalString(n), 10) == n
  {
    var s := DecimalString(n);
    if n >= 10 {
      DecimalStringValue(n / 10);
      assert s[..|s| - 1] == DecimalString(n / 10);
    }
  }

  /** `Integer.parseInt(Integer.toString(v))` is `v` for every `int`. */
  lemma ParseIntToString(v: int)
    requires InIntRange(v)
    ensures ParseInt(IntToString(v), 10) == Some(v)
  {
    var s := IntToString(v);
    if v < 0 {
      var d := DecimalString(-v);
      DecimalStringValue(-v);
      assert s == "-" + d && s[0] == '-';
      assert Magnitude(s) == d;
      assert SignedValue(s, 10) == v;
    } else {
      var d := DecimalString(v);
      DecimalStringValue(v);
      assert s == d && s[0] != '-';
      assert d[0] != '+';
      assert Magnitude(s) == d;
      assert SignedValue(s, 10) == v;
    }
  }

  /** Reading a zero-padded hex rendering back gives the number, when it fits. */
  lemma {:induction false} HexDigitsValue(v: nat, w: nat)
    requires v < Pow16(w)
    ensures DigitsValue(HexDigits(v, w), 16) == v
  {
    if w > 0 {
      var s := HexDigits(v, w);
      HexDigitsValue(v / 16, w - 1);
      assert s[..|s| - 1] == HexDigits(v / 16, w - 1);
    }
  }

  /** Two values that fit in `w` hex digits have the same rendering only if they are equal. */
  lemma HexDigitsInjective(u: nat, v: nat, w: nat)
    requires u < Pow16(w) && v < Pow16(w)
    requires HexDigits(u, w) == HexDigits(v, w)
    ensures u == v
  {
    HexDigitsValue(u, w);
    HexDigitsValue(v, w);
  }

  /** `Integer.toHexString` of a byte value, with a '0' in front below 16, is its two-digit rendering. */
  lemma PaddedByteHex(v: nat)
    requires v < 256
    ensures (if v < 16 then "0" else "") + ToHexString(v) == HexDigits(v, 2)
  {
    if v < 16 {
      assert HexDigits(v, 2) == HexDigits(0, 1) + [DigitChar(v)];
    }
  }
}
