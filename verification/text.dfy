/**
 * The two string operations the codename check uses: `String.prototype.trim`
 * over the ECMAScript WhiteSpace and LineTerminator characters, and
 * `toLowerCase` restricted to the ASCII letters.
 */
module Text {

  /** ECMAScript WhiteSpace (TAB, VT, FF, SP, NBSP, ZWNBSP, the Zs category) and LineTerminator. */
  predicate IsJsSpace(c: char) {
    c == '\t' || c == '\U{000B}' || c == '\U{000C}' || c == ' ' || c == '\U{00A0}' || c == '\U{FEFF}'
    || c == '\U{1680}' || ('\U{2000}' <= c <= '\U{200A}') || c == '\U{202F}' || c == '\U{205F}' || c == '\U{3000}'
    || c == '\n' || c == '\r' || c == '\U{2028}' || c == '\U{2029}'
  }

  predicate AllSpace(s: string) {
    forall i :: 0 <= i < |s| ==> IsJsSpace(s[i])
  }

  function TrimStart(s: string): string {
    if |s| > 0 && IsJsSpace(s[0]) then TrimStart(s[1..]) else s
  }

  function TrimEnd(s: string): string {
    if |s| > 0 && IsJsSpace(s[|s| - 1]) then TrimEnd(s[..|s| - 1]) else s
  }

  /** `trim()`: both ends stripped of white space and line terminators. */
  function Trim(s: string): string {
    TrimEnd(TrimStart(s))
  }

  function LowerChar(c: char): char {
    if 'A' <= c <= 'Z' then (c as int + 32) as char else c
  }

  function UpperChar(c: char): char {
    if 'a' <= c <= 'z' then (c as int - 32) as char else c
  }

  /** `toLowerCase()` on the ASCII letters; every other character is kept. */
  function Lower(s: string): (r: string)
    ensures forall i :: 0 <= i < |r| ==> !('A' <= r[i] <= 'Z')
  {
    seq(|s|, i requires 0 <= i < |s| => LowerChar(s[i]))
  }

  /** `toUpperCase()` on the ASCII letters, used to state case-insensitivity. */
  function Upper(s: string): string {
    seq(|s|, i requires 0 <= i < |s| => UpperChar(s[i]))
  }

  /** Lowering forgets case: an upper-cased string lowers to the same text. */
  lemma LowerForgetsCase(s: string)
    ensures Lower(Upper(s)) == Lower(s)
  {
  }

  lemma {:induction false} TrimStartDropsLeadingSpace(pad: string, s: string)
    requires AllSpace(pad)
    ensures TrimStart(pad + s) == TrimStart(s)
  {
    if |pad| > 0 {
      assert (pad + s)[1..] == pad[1..] + s;
      TrimStartDropsLeadingSpace(pad[1..], s);
    } else {
      assert pad + s == s;
    }
  }

  lemma {:induction false} TrimEndDropsTrailingSpace(s: string, pad: string)
    requires AllSpace(pad)
    ensures TrimEnd(s + pad) == TrimEnd(s)
  {
    if |pad| > 0 {
      assert (s + pad)[..|s + pad| - 1] == s + pad[..|pad| - 1];
      TrimEndDropsTrailingSpace(s, pad[..|pad| - 1]);
    } else {
      assert s + pad == s;
    }
  }

  /** A string with no space at its start keeps that start when trailing space is appended. */
  lemma {:induction false} TrimStartIgnoresTrailingSpace(s: string, pad: string)
    requires AllSpace(pad)
    ensures TrimStart(s + pad) == TrimStart(s) + pad || (AllSpace(s) && TrimStart(s + pad) == [])
    decreases |s|
  {
    if |s| == 0 {
      assert s + pad == pad;
      AllSpaceTrimsToEmpty(pad);
    } else if IsJsSpace(s[0]) {
      assert (s + pad)[1..] == s[1..] + pad;
      TrimStartIgnoresTrailingSpace(s[1..], pad);
      if AllSpace(s[1..]) && TrimStart(s[1..] + pad) == [] {
        assert forall i :: 1 <= i < |s| ==> s[i] == s[1..][i - 1];
      }
    } else {
      assert (s + pad)[0] == s[0];
    }
  }

  /** A string made only of white space trims to the empty string. */
  lemma {:induction false} AllSpaceTrimsToEmpty(s: string)
    requires AllSpace(s)
    ensures TrimStart(s) == []
    ensures Trim(s) == []
  {
    if |s| > 0 {
      AllSpaceTrimsToEmpty(s[1..]);
    }
  }

  /** Surrounding white space, on either side, does not change the trimmed text. */
  lemma TrimIgnoresPadding(before: string, s: string, after: string)
    requires AllSpace(before) && AllSpace(after)
    ensures Trim(before + s + after) == Trim(s)
  {
    assert before + s + after == before + (s + after);
    TrimStartDropsLeadingSpace(before, s + after);
    TrimStartIgnoresTrailingSpace(s, after);
    if TrimStart(s + after) == TrimStart(s) + after {
      TrimEndDropsTrailingSpace(TrimStart(s), after);
    } else {
      AllSpaceTrimsToEmpty(s);
    }
  }

  /** Upper-casing commutes with trimming, since no white-space character is a letter. */
  lemma {:induction false} TrimStartOfUpper(s: string)
    ensures TrimStart(Upper(s)) == Upper(TrimStart(s))
  {
    if |s| > 0 && IsJsSpace(s[0]) {
      assert Upper(s)[1..] == Upper(s[1..]);
      TrimStartOfUpper(s[1..]);
    }
  }

  lemma {:induction false} TrimEndOfUpper(s: string)
    ensures TrimEnd(Upper(s)) == Upper(TrimEnd(s))
  {
    if |s| > 0 && IsJsSpace(s[|s| - 1]) {
      assert Upper(s)[..|s| - 1] == Upper(s[..|s| - 1]);
      TrimEndOfUpper(s[..|s| - 1]);
    }
  }

  lemma TrimOfUpper(s: string)
    ensures Trim(Upper(s)) == Upper(Trim(s))
  {
    TrimStartOfUpper(s);
    TrimEndOfUpper(TrimStart(s));
  }
}
