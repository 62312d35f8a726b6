/**
 * Character classes and case mappings as JavaScript defines them for the
 * regular expressions and string methods the service uses, and the decimal
 * rendering a template literal gives a non-negative integer.
 */
module Text {

  /** JavaScript `\d` (without the `u` flag): the ASCII digits only. */
  predicate IsDigit(c: char)
    ensures IsDigit(c) ==> !IsSpace(c) && !IsUpperLetter(c)
  {
    '0' <= c <= '9'
  }

  /** JavaScript `\w` (without the `u` flag): `[A-Za-z0-9_]`; every other letter is a non-word character. */
  predicate IsWordChar(c: char)
    ensures IsDigit(c) || c == '_' ==> IsWordChar(c)
    ensures IsWordChar(c) ==> c as int < 0x80
  {
    ('a' <= c <= 'z') || ('A' <= c <= 'Z') || IsDigit(c) || c == '_'
  }

  /** What `String.prototype.trim` strips: ECMAScript WhiteSpace and LineTerminator code points. */
  predicate IsSpace(c: char)
    ensures IsSpace(c) ==> !IsUpperLetter(c)
  {
    var n := c as int;
    (0x09 <= n <= 0x0D) || n == 0x20 || n == 0xA0 || n == 0x1680 || (0x2000 <= n <= 0x200A)
    || n == 0x2028 || n == 0x2029 || n == 0x202F || n == 0x205F || n == 0x3000 || n == 0xFEFF
  }

  /** Upper-case letters whose lower-case form the model knows: ASCII and Latin-1 (À..Þ without ×). */
  predicate IsUpperLetter(c: char) {
    ('A' <= c <= 'Z') || (0xC0 <= c as int <= 0xDE && c as int != 0xD7)
  }

  /** `toLowerCase` on one character, for the letters of IsUpperLetter; every other character is its own lower case. */
  function LowerChar(c: char): (d: char)
    ensures IsUpperLetter(c) ==> d as int == c as int + 32
    ensures !IsUpperLetter(d)
    ensures IsWordChar(d) == IsWordChar(c) && IsSpace(d) == IsSpace(c)
  {
    if IsUpperLetter(c) then (c as int + 32) as char else c
  }

  /** `toUpperCase` on a character matched by `\w`: only `a`..`z` change. */
  function UpperWordChar(c: char): (d: char)
    requires IsWordChar(c)
    ensures IsWordChar(d) && !('a' <= d <= 'z')
    ensures LowerChar(d) == LowerChar(c)
  {
    if 'a' <= c <= 'z' then (c as int - 32) as char else c
  }

  function DigitChar(d: nat): (c: char)
    requires d < 10
    ensures IsDigit(c) && c as int - '0' as int == d
  {
    ('0' as int + d) as char
  }

  /** The decimal numeral of `n`, as `${n}` renders a non-negative integer. */
  function DecimalString(n: nat): (s: string)
    ensures |s| > 0 && forall i :: 0 <= i < |s| ==> IsDigit(s[i])
    ensures |s| > 1 ==> s[0] != '0'
    decreases n
  {
    if n < 10 then [DigitChar(n)] else DecimalString(n / 10) + [DigitChar(n % 10)]
  }

  /** The value a string of decimal digits denotes. */
  function DecimalValue(s: string): nat
    requires forall i :: 0 <= i < |s| ==> IsDigit(s[i])
  {
    if s == [] then 0
    else
      assert IsDigit(s[|s| - 1]);
      DecimalValue(s[..|s| - 1]) * 10 + (s[|s| - 1] as int - '0' as int)
  }

  /** Rendering then reading back gives the number again, so distinct numbers render differently. */
  lemma {:induction false} DecimalRoundTrip(n: nat)
    ensures DecimalValue(DecimalString(n)) == n
    decreases n
  {
    var s := DecimalString(n);
    if n >= 10 {
      DecimalRoundTrip(n / 10);
      assert s[..|s| - 1] == DecimalString(n / 10);
    }
  }
}
