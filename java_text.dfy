/**
 * The pieces of java.lang.String and java.util.StringTokenizer that the
 * server's command handling relies on: trim, indexOf, case mapping and
 * whitespace tokenization.
 */
module JavaText {

  /** `String.trim` removes every leading and trailing char whose code is at most U+0020. */
  predicate Blank(c: char) {
    c <= ' '
  }

  /** The number of blank chars at the start of `s`. */
  function LeadingBlanks(s: string): (n: nat)
    ensures n <= |s|
    ensures forall k :: 0 <= k < n ==> Blank(s[k])
    ensures n < |s| ==> !Blank(s[n])
  {
    if s == [] || !Blank(s[0]) then 0 else 1 + LeadingBlanks(s[1..])
  }

  /** The number of blank chars at the end of `s`. */
  function TrailingBlanks(s: string): (n: nat)
    ensures n <= |s|
    ensures forall k :: |s| - n <= k < |s| ==> Blank(s[k])
    ensures n < |s| ==> !Blank(s[|s| - 1 - n])
  {
    if s == [] || !Blank(s[|s| - 1]) then 0 else 1 + TrailingBlanks(s[..|s| - 1])
  }

  /** `String.trim`: the longest infix of `s` that neither starts nor ends with a blank char. */
  function Trim(s: string): (r: string)
    ensures |r| <= |s|
    ensures r == [] <==> forall k :: 0 <= k < |s| ==> Blank(s[k])
    ensures r != [] ==> !Blank(r[0]) && !Blank(r[|r| - 1])
    ensures s != [] && !Blank(s[0]) && !Blank(s[|s| - 1]) ==> r == s
  {
    var rest := s[LeadingBlanks(s)..];
    rest[..|rest| - TrailingBlanks(rest)]
  }

  /** What `Trim` keeps is the infix of `s` after its leading blanks, followed in `s` by blanks only. */
  lemma TrimInfix(s: string)
    ensures var i, r := LeadingBlanks(s), Trim(s);
      i + |r| <= |s| && r == s[i..i + |r|] && forall k :: i + |r| <= k < |s| ==> Blank(s[k])
  {
    var rest := s[LeadingBlanks(s)..];
    var n := |rest| - TrailingBlanks(rest);
    assert Trim(s) == rest[..n];
  }

  /** `String.indexOf(char)`: the first position of `c` in `s`, or -1. */
  function IndexOf(s: string, c: char): (i: int)
    ensures -1 <= i < |s|
    ensures i == -1 <==> c !in s
    ensures 0 <= i ==> s[i] == c && c !in s[..i]
  {
    if s == [] then -1
    else if s[0] == c then 0
    else
      var j := IndexOf(s[1..], c);
      assert s[1..][..if j < 0 then 0 else j] == s[1..1 + if j < 0 then 0 else j];
      if j == -1 then -1 else j + 1
  }

  /**
   * Upper-casing as `toUpperCase(Locale.ENGLISH)` does it for every char whose
   * upper case is an ASCII letter: the ASCII letters, dotless i and long s.
   * Other chars are kept; see README for why this is exact for the comparisons
   * the server makes.
   */
  function UpperChar(c: char): char {
    if 'a' <= c <= 'z' then (c as int - 'a' as int + 'A' as int) as char
    else if c == 'ı' then 'I'
    else if c == 'ſ' then 'S'
    else c
  }

  /** Lower-casing of the ASCII letters, as `toLowerCase(Locale.ENGLISH)` does it for them. */
  function LowerChar(c: char): char {
    if 'A' <= c <= 'Z' then (c as int - 'A' as int + 'a' as int) as char else c
  }

  function ToUpperCase(s: string): (r: string)
    ensures |r| == |s| && forall k :: 0 <= k < |s| ==> r[k] == UpperChar(s[k])
  {
    seq(|s|, k requires 0 <= k < |s| => UpperChar(s[k]))
  }

  function ToLowerCase(s: string): (r: string)
    ensures |r| == |s| && forall k :: 0 <= k < |s| ==> r[k] == LowerChar(s[k])
  {
    seq(|s|, k requires 0 <= k < |s| => LowerChar(s[k]))
  }

  /** A string whose chars all upper-case to themselves is its own upper case. */
  lemma UpperCaseFixed(s: string)
    requires forall k :: 0 <= k < |s| ==> UpperChar(s[k]) == s[k]
    ensures ToUpperCase(s) == s
  {
  }

  /** A string whose chars all lower-case to themselves is its own lower case. */
  lemma LowerCaseFixed(s: string)
    requires forall k :: 0 <= k < |s| ==> LowerChar(s[k]) == s[k]
    ensures ToLowerCase(s) == s
  {
  }

  /**
   * Upper-casing gives an upper-case ASCII word exactly when each char is the
   * word's char, its ASCII lower-case letter, or (for I and S) dotless i or long s.
   */
  lemma UpperCaseMatches(s: string, w: string)
    requires forall k :: 0 <= k < |w| ==> 'A' <= w[k] <= 'Z' || w[k] == '_'
    ensures ToUpperCase(s) == w <==> |s| == |w| && forall k :: 0 <= k < |s| ==>
      s[k] == w[k] || ('A' <= w[k] <= 'Z' && s[k] as int == w[k] as int + 32) ||
      (w[k] == 'I' && s[k] == 'ı') || (w[k] == 'S' && s[k] == 'ſ')
  {
    if |s| == |w| && forall k :: 0 <= k < |s| ==> UpperChar(s[k]) == w[k] {
      assert ToUpperCase(s) == w;
    }
  }

  /** Lower-casing gives a lower-case ASCII word exactly when each char is the word's char or its ASCII upper-case letter. */
  lemma LowerCaseMatches(s: string, w: string)
    requires forall k :: 0 <= k < |w| ==> 'a' <= w[k] <= 'z' || w[k] == '_'
    ensures ToLowerCase(s) == w <==> |s| == |w| && forall k :: 0 <= k < |s| ==>
      s[k] == w[k] || ('a' <= w[k] <= 'z' && s[k] as int == w[k] as int - 32)
  {
    if |s| == |w| && forall k :: 0 <= k < |s| ==> LowerChar(s[k]) == w[k] {
      assert ToLowerCase(s) == w;
    }
  }

  /** `String.equalsIgnoreCase` for the ASCII words the server compares against. */
  predicate EqualsIgnoreCase(s: string, t: string) {
    ToLowerCase(s) == ToLowerCase(t)
  }

  /** The default delimiters of `java.util.StringTokenizer`: space, tab, newline, return, form feed. */
  predicate IsDelimiter(c: char) {
    c == ' ' || c == '\t' || c == '\n' || c == '\r' || c == '\U{C}'
  }

  predicate IsToken(t: string) {
    t != [] && forall k :: 0 <= k < |t| ==> !IsDelimiter(t[k])
  }

  /** The length of the token at the start of `s` (0 when `s` starts with a delimiter). */
  function TokenLength(s: string): (n: nat)
    ensures n <= |s|
    ensures forall k :: 0 <= k < n ==> !IsDelimiter(s[k])
    ensures n < |s| ==> IsDelimiter(s[n])
  {
    if s == [] || IsDelimiter(s[0]) then 0 else 1 + TokenLength(s[1..])
  }

  /** The tokens a `new StringTokenizer(s)` hands out, in order. */
  function Tokens(s: string): (ts: seq<string>)
    ensures forall k :: 0 <= k < |ts| ==> IsToken(ts[k])
    decreases |s|
  {
    if s == [] then []
    else if IsDelimiter(s[0]) then Tokens(s[1..])
    else
      var n := TokenLength(s);
      [s[..n]] + Tokens(s[n..])
  }

  /** Joins tokens with single spaces, the way a client writes an argument list. */
  function JoinWords(ts: seq<string>): string {
    if ts == [] then []
    else if |ts| == 1 then ts[0]
    else ts[0] + " " + JoinWords(ts[1..])
  }

  /** Splitting words joined by single spaces gives the words back. */
  lemma {:induction false} TokensOfJoinWords(ts: seq<string>)
    requires forall k :: 0 <= k < |ts| ==> IsToken(ts[k])
    ensures Tokens(JoinWords(ts)) == ts
  {
    if ts == [] {
    } else {
      var t := ts[0];
      TokenPrefix(t, if |ts| == 1 then [] else " " + JoinWords(ts[1..]));
      if |ts| == 1 {
        assert t + [] == t;
      } else {
        var tail := JoinWords(ts[1..]);
        assert JoinWords(ts) == t + (" " + tail);
        TokensOfJoinWords(ts[1..]);
        assert (" " + tail)[1..] == tail;
      }
    }
  }

  /** A token followed by a delimiter (or nothing) is read off as one token. */
  lemma {:induction false} TokenPrefix(t: string, rest: string)
    requires IsToken(t)
    requires rest == [] || IsDelimiter(rest[0])
    ensures Tokens(t + rest) == [t] + Tokens(rest)
  {
    TokenLengthOf(t, rest);
    assert (t + rest)[..|t|] == t;
    assert (t + rest)[|t|..] == rest;
    if rest != [] {
      assert Tokens(rest) == Tokens(rest[1..]);
    }
  }

  lemma {:induction false} TokenLengthOf(t: string, rest: string)
    requires forall k :: 0 <= k < |t| ==> !IsDelimiter(t[k])
    requires rest == [] || IsDelimiter(rest[0])
    ensures TokenLength(t + rest) == |t|
  {
    if t != [] {
      assert (t + rest)[1..] == t[1..] + rest;
      TokenLengthOf(t[1..], rest);
    }
  }

  /** A run of delimiters between, before or after tokens. */
  predicate IsGap(g: string) {
    forall k :: 0 <= k < |g| ==> IsDelimiter(g[k])
  }

  /** The text `gaps[0] + ts[0] + gaps[1] + ... + ts[n-1] + gaps[n]`. */
  function Interleave(gaps: seq<string>, ts: seq<string>): string
    requires |gaps| == |ts| + 1
    decreases |ts|
  {
    if ts == [] then gaps[0] else gaps[0] + ts[0] + Interleave(gaps[1..], ts[1..])
  }

  /** Gaps that may separate tokens: delimiters only, and at least one between two tokens. */
  predicate Separates(gaps: seq<string>, ts: seq<string>) {
    && |gaps| == |ts| + 1
    && (forall k :: 0 <= k < |gaps| ==> IsGap(gaps[k]))
    && (forall k :: 0 < k < |ts| ==> gaps[k] != [])
  }

  /** The delimiter runs of `s`, one before each token and one after the last. */
  function Gaps(s: string): (gs: seq<string>)
    ensures |gs| == |Tokens(s)| + 1
    ensures s != [] && IsDelimiter(s[0]) ==> gs[0] != []
    decreases |s|
  {
    if s == [] then [[]]
    else if IsDelimiter(s[0]) then
      var g := Gaps(s[1..]);
      [[s[0]] + g[0]] + g[1..]
    else
      [[]] + Gaps(s[TokenLength(s)..])
  }

  /** Delimiters in front of a text add no token. */
  lemma {:induction false} GapPrefix(g: string, rest: string)
    requires IsGap(g)
    ensures Tokens(g + rest) == Tokens(rest)
    decreases |g|
  {
    if g != [] {
      var s := g + rest;
      assert s[0] == g[0] && IsDelimiter(g[0]);
      assert s[1..] == g[1..] + rest;
      assert Tokens(s) == Tokens(s[1..]);
      GapPrefix(g[1..], rest);
    } else {
      assert g + rest == rest;
    }
  }

  /** Tokens separated by any runs of delimiters, with any delimiters before and after, are read off as those tokens. */
  lemma {:induction false} TokensOfInterleave(gaps: seq<string>, ts: seq<string>)
    requires Separates(gaps, ts)
    requires forall k :: 0 <= k < |ts| ==> IsToken(ts[k])
    ensures Tokens(Interleave(gaps, ts)) == ts
    decreases |ts|
  {
    if ts == [] {
      GapPrefix(gaps[0], []);
      assert gaps[0] + [] == gaps[0];
    } else {
      var rest := Interleave(gaps[1..], ts[1..]);
      assert Interleave(gaps, ts) == gaps[0] + (ts[0] + rest);
      GapPrefix(gaps[0], ts[0] + rest);
      SeparatesTail(gaps, ts);
      TokenPrefix(ts[0], rest);
      TokensOfInterleave(gaps[1..], ts[1..]);
    }
  }

  /** After the first token, the rest of the text starts with a delimiter, and its gaps still separate the remaining tokens. */
  lemma {:induction false} SeparatesTail(gaps: seq<string>, ts: seq<string>)
    requires Separates(gaps, ts) && ts != []
    ensures Separates(gaps[1..], ts[1..])
    ensures var rest := Interleave(gaps[1..], ts[1..]); rest == [] || IsDelimiter(rest[0])
  {
    var rest := Interleave(gaps[1..], ts[1..]);
    assert IsGap(gaps[1]);
    if |ts| > 1 {
      assert gaps[1..][0] == gaps[1] && gaps[1] != [];
      assert rest == gaps[1] + (ts[1] + Interleave(gaps[2..], ts[2..]));
      assert rest[0] == gaps[1][0];
    } else {
      assert rest == gaps[1];
    }
  }

  /** Every text is its tokens separated by its delimiter runs, so `Tokens` is the only split `TokensOfInterleave` allows. */
  lemma {:induction false} TokensLayout(s: string)
    ensures Separates(Gaps(s), Tokens(s))
    ensures Interleave(Gaps(s), Tokens(s)) == s
    decreases |s|
  {
    if s == [] {
    } else if IsDelimiter(s[0]) {
      TokensLayout(s[1..]);
      GapsAfterDelimiter(s);
      LayoutAfterDelimiter(s);
    } else {
      TokensLayout(s[TokenLength(s)..]);
      GapsAfterToken(s);
      LayoutAfterToken(s);
    }
  }

  /** The gaps of a text that starts with a delimiter: that delimiter joins the first gap. */
  lemma {:induction false} GapsAfterDelimiter(s: string)
    requires s != [] && IsDelimiter(s[0])
    requires Separates(Gaps(s[1..]), Tokens(s[1..]))
    ensures Tokens(s) == Tokens(s[1..])
    ensures Gaps(s) == [[s[0]] + Gaps(s[1..])[0]] + Gaps(s[1..])[1..]
    ensures Separates(Gaps(s), Tokens(s))
  {
    var g := Gaps(s[1..]);
    var gs := Gaps(s);
    forall k | 0 <= k < |gs|
      ensures IsGap(gs[k])
    {
      if k > 0 {
        assert gs[k] == g[k];
      }
    }
  }

  lemma {:induction false} LayoutAfterDelimiter(s: string)
    requires s != [] && IsDelimiter(s[0])
    requires |Gaps(s[1..])| == |Tokens(s[1..])| + 1
    requires Interleave(Gaps(s[1..]), Tokens(s[1..])) == s[1..]
    requires Tokens(s) == Tokens(s[1..])
    requires Gaps(s) == [[s[0]] + Gaps(s[1..])[0]] + Gaps(s[1..])[1..]
    ensures Interleave(Gaps(s), Tokens(s)) == s
  {
    InterleaveLongerGap(s[0], Gaps(s[1..]), Tokens(s[1..]));
    assert [s[0]] + s[1..] == s;
  }

  /** A delimiter put in front of the first gap is put in front of the text. */
  lemma {:induction false} InterleaveLongerGap(c: char, gs: seq<string>, ts: seq<string>)
    requires |gs| == |ts| + 1
    ensures Interleave([[c] + gs[0]] + gs[1..], ts) == [c] + Interleave(gs, ts)
  {
    var gs' := [[c] + gs[0]] + gs[1..];
    if ts == [] {
      assert Interleave(gs', ts) == [c] + gs[0];
    } else {
      var tail := Interleave(gs[1..], ts[1..]);
      assert gs'[1..] == gs[1..];
      assert Interleave(gs', ts) == ([c] + gs[0]) + ts[0] + tail;
      assert Interleave(gs, ts) == gs[0] + ts[0] + tail;
    }
  }

  /** The gaps of a text that starts with a token: an empty first gap, then the gaps after the token. */
  lemma {:induction false} GapsAfterToken(s: string)
    requires s != [] && !IsDelimiter(s[0])
    requires Separates(Gaps(s[TokenLength(s)..]), Tokens(s[TokenLength(s)..]))
    ensures Tokens(s) == [s[..TokenLength(s)]] + Tokens(s[TokenLength(s)..])
    ensures Gaps(s) == [[]] + Gaps(s[TokenLength(s)..])
    ensures Separates(Gaps(s), Tokens(s))
  {
    var n := TokenLength(s);
    var rest := s[n..];
    var g := Gaps(rest);
    var gs := Gaps(s);
    forall k | 0 <= k < |gs|
      ensures IsGap(gs[k])
    {
      if k > 0 {
        assert gs[k] == g[k - 1];
      }
    }
    forall k | 0 < k < |Tokens(s)|
      ensures gs[k] != []
    {
      assert gs[k] == g[k - 1];
      if k == 1 {
        assert rest != [] && IsDelimiter(rest[0]);
      }
    }
  }

  lemma {:induction false} LayoutAfterToken(s: string)
    requires s != [] && !IsDelimiter(s[0])
    requires |Gaps(s[TokenLength(s)..])| == |Tokens(s[TokenLength(s)..])| + 1
    requires Interleave(Gaps(s[TokenLength(s)..]), Tokens(s[TokenLength(s)..])) == s[TokenLength(s)..]
    requires Tokens(s) == [s[..TokenLength(s)]] + Tokens(s[TokenLength(s)..])
    requires Gaps(s) == [[]] + Gaps(s[TokenLength(s)..])
    ensures Interleave(Gaps(s), Tokens(s)) == s
  {
    var n := TokenLength(s);
    var t, rest := s[..n], s[n..];
    InterleaveTokenAt(t, rest, Gaps(rest), Tokens(rest), Gaps(s), Tokens(s));
    assert t + rest == s;
  }

  /** `InterleaveToken` over layouts given by name only. */
  lemma {:induction false} InterleaveTokenAt(t: string, rest: string, gs: seq<string>, ts: seq<string>,
                                             layout: seq<string>, tokens: seq<string>)
    requires |gs| == |ts| + 1 && Interleave(gs, ts) == rest
    requires layout == [[]] + gs && tokens == [t] + ts
    ensures Interleave(layout, tokens) == t + rest
  {
    InterleaveToken(t, gs, ts);
  }

  /** A token with an empty gap in front of it goes at the start of the text. */
  lemma {:induction false} InterleaveToken(t: string, gs: seq<string>, ts: seq<string>)
    requires |gs| == |ts| + 1
    ensures Interleave([[]] + gs, [t] + ts) == t + Interleave(gs, ts)
  {
    assert ([[]] + gs)[1..] == gs && ([t] + ts)[1..] == ts;
    assert [] + t == t;
  }
}
