/**
 * The string operations the proxy applies to user input and provider data:
 * `String.prototype.trim`, `String.prototype.toUpperCase` (ASCII letters) and
 * the decimal text of an integer, as a template literal prints it.
 */
module Text {

  /**
   * The characters `trim` removes: the ECMAScript WhiteSpace code points
   * (tab, vertical tab, form feed, space, no-break space, the byte order mark and
   * the Unicode space separators) and the LineTerminator code points.
   */
  predicate IsSpace(c: char)
  {
    || c == '\t' || c == '\U{000B}' || c == '\U{000C}' || c == ' ' || c == '\U{00A0}' || c == '\U{FEFF}'
    || c == '\U{1680}' || ('\U{2000}' <= c <= '\U{200A}') || c == '\U{202F}' || c == '\U{205F}' || c == '\U{3000}'
    || c == '\n' || c == '\r' || c == '\U{2028}' || c == '\U{2029}'
  }

  predicate AllSpace(s: string)
  {
    forall i :: 0 <= i < |s| ==> IsSpace(s[i])
  }

  /** Neither end of `s` is a whitespace character. */
  predicate IsTrimmed(s: string)
  {
    s == [] || (!IsSpace(s[0]) && !IsSpace(s[|s| - 1]))
  }

  predicate IsLower(c: char)
  {
    'a' <= c <= 'z'
  }

  /** No lower-case ASCII letter occurs in `s`. */
  predicate IsUpperCase(s: string)
  {
    forall i :: 0 <= i < |s| ==> !IsLower(s[i])
  }

  /** The number of whitespace characters at the start of `s`. */
  function LeadingSpaces(s: string): (n: nat)
    ensures n <= |s|
    ensures AllSpace(s[..n])
    ensures n < |s| ==> !IsSpace(s[n])
  {
    if |s| == 0 || !IsSpace(s[0]) then 0
    else
      var n := 1 + LeadingSpaces(s[1..]);
      assert s[..n] == [s[0]] + s[1..][..n - 1];
      n
  }

  /** The number of whitespace characters at the end of `s`. */
  function TrailingSpaces(s: string): (n: nat)
    ensures n <= |s|
    ensures AllSpace(s[|s| - n..])
    ensures n < |s| ==> !IsSpace(s[|s| - 1 - n])
  {
    if |s| == 0 || !IsSpace(s[|s| - 1]) then 0
    else
      var init := s[..|s| - 1];
      var m := TrailingSpaces(init);
      var n := 1 + m;
      var tail := s[|s| - n..];
      forall i | 0 <= i < |tail|
        ensures IsSpace(tail[i])
      {
        if i < m {
          assert tail[i] == init[|init| - m..][i];
        } else {
          assert tail[i] == s[|s| - 1];
        }
      }
      assert n < |s| ==> s[|s| - 1 - n] == init[|init| - 1 - m];
      n
  }

  /**
   * `s.trim()`: `s` without its leading and trailing whitespace. The result is
   * trimmed, and `s` is the result with only whitespace around it; these two
   * facts determine the result.
   */
  function Trim(s: string): (r: string)
    ensures IsTrimmed(r)
    ensures exists i :: 0 <= i <= |s| - |r| && AllSpace(s[..i]) && s[i..i + |r|] == r && AllSpace(s[i + |r|..])
    ensures r == [] <==> AllSpace(s)
  {
    var a := LeadingSpaces(s);
    if a == |s| then
      assert s[..a] == s;
      assert AllSpace(s[..0]) && s[0..0] == [] && AllSpace(s[0..]);
      []
    else
      var b := |s| - TrailingSpaces(s);
      assert !IsSpace(s[a]);
      assert a < b;
      var r := s[a..b];
      assert IsTrimmed(r) by {
        assert r[0] == s[a];
        assert r[|r| - 1] == s[b - 1];
      }
      assert s[a + |r|..] == s[b..];
      assert AllSpace(s[..a]) && s[a..a + |r|] == r && AllSpace(s[a + |r|..]);
      assert !AllSpace(s);
      r
  }

  function UpperChar(c: char): (u: char)
    ensures !IsLower(u)
    ensures IsSpace(u) <==> IsSpace(c)
  {
    if IsLower(c) then (c as int - 32) as char else c
  }

  /** `s.toUpperCase()` on ASCII letters: every lower-case ASCII letter becomes upper case. */
  function Upper(s: string): (r: string)
    ensures |r| == |s|
    ensures IsUpperCase(r)
    ensures forall i :: 0 <= i < |s| ==> r[i] == UpperChar(s[i])
  {
    seq(|s|, i requires 0 <= i < |s| => UpperChar(s[i]))
  }

  lemma TrimOfTrimmed(s: string)
    requires IsTrimmed(s)
    ensures Trim(s) == s
  {
    if s != [] {
      assert LeadingSpaces(s) == 0;
      assert TrailingSpaces(s) == 0;
    }
  }

  lemma UpperOfUpperCase(s: string)
    requires IsUpperCase(s)
    ensures Upper(s) == s
  {
  }

  /** Uppercasing changes no character into or out of whitespace, so it keeps a string trimmed. */
  lemma UpperKeepsTrimmed(s: string)
    requires IsTrimmed(s)
    ensures IsTrimmed(Upper(s))
  {
  }

  /** The decimal digits of a natural number, most significant first. */
  function NatText(n: nat): (r: string)
    ensures |r| >= 1
    ensures forall i :: 0 <= i < |r| ==> '0' <= r[i] <= '9'
    decreases n
  {
    var d := ['0' + (n % 10) as char];
    if n < 10 then d else NatText(n / 10) + d
  }

  /** The number a string of decimal digits denotes, most significant first. */
  function DigitsValue(s: string): nat
    requires forall i :: 0 <= i < |s| ==> '0' <= s[i] <= '9'
  {
    if s == [] then 0
    else DigitsValue(s[..|s| - 1]) * 10 + (s[|s| - 1] as int - '0' as int)
  }

  /** The digits of `n` denote `n`. */
  lemma {:induction false} NatTextValue(n: nat)
    ensures DigitsValue(NatText(n)) == n
    decreases n
  {
    var d := ['0' + (n % 10) as char];
    if n >= 10 {
      var t := NatText(n / 10) + d;
      assert t[..|t| - 1] == NatText(n / 10);
      NatTextValue(n / 10);
    }
  }

  /** The text of an integer in a template literal (`${n}`), a minus sign before negatives. */
  function IntText(n: int): (r: string)
    ensures |r| >= 1
    ensures n < 0 <==> r[0] == '-'
    ensures forall i :: 0 <= i < |r| ==> ('0' <= r[i] <= '9' || (i == 0 && r[i] == '-'))
  {
    if n < 0 then "-" + NatText(-n) else NatText(n)
  }

  /** The integer an `IntText` string denotes: an optional minus sign, then decimal digits. */
  function IntValue(s: string): int
    requires forall i :: 0 <= i < |s| ==> ('0' <= s[i] <= '9' || (i == 0 && s[i] == '-'))
  {
    if s != [] && s[0] == '-' then
      var digits := s[1..];
      assert forall i :: 0 <= i < |digits| ==> digits[i] == s[i + 1];
      0 - DigitsValue(digits) as int
    else DigitsValue(s)
  }

  /** Reading back the text of `n` gives `n`, so different integers have different texts. */
  lemma IntTextValue(n: int)
    ensures IntValue(IntText(n)) == n
  {
    if n < 0 {
      assert IntText(n)[1..] == NatText(-n);
      NatTextValue(-n);
    } else {
      NatTextValue(n);
    }
  }
}
