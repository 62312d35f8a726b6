/**
 * The two input normalizers of `POST /usuarios`: the name formatter
 * (`toLowerCase`, then `replace(/\b\w/g, toUpperCase)`, then `trim`) and the
 * phone normalizer (`replace(/\D/g, '')`, then the test `/^(\d{10}|\d{11})$/`).
 */
module Normalize {
  import opened Wrappers
  import opened Text

  // ---------------------------------------------------------------- name

  /** `toLowerCase`, character by character. */
  function LowerCase(s: string): (r: string)
    ensures |r| == |s|
  {
    seq(|s|, i requires 0 <= i < |s| => LowerChar(s[i]))
  }

  /** Position `i` is matched by `\b\w`: a word character at the start or after a non-word character. */
  predicate StartsWord(s: string, i: int)
    requires 0 <= i < |s|
  {
    IsWordChar(s[i]) && (i == 0 || !IsWordChar(s[i - 1]))
  }

  /**
   * `replace(/\b\w/g, char => char.toUpperCase())`: every match is one
   * character, and `\b` looks at the string being replaced, so each position
   * is decided on its own.
   */
  function CapitalizeWords(s: string): (r: string)
    ensures |r| == |s|
  {
    seq(|s|, i requires 0 <= i < |s| => if StartsWord(s, i) then UpperWordChar(s[i]) else s[i])
  }

  /** Where `trim` starts: the first non-whitespace position at or after `i`, or `|s|`. */
  function SkipSpaces(s: string, i: nat): (k: nat)
    requires i <= |s|
    ensures i <= k <= |s|
    ensures forall j :: i <= j < k ==> IsSpace(s[j])
    ensures k == |s| || !IsSpace(s[k])
    decreases |s| - i
  {
    if i == |s| || !IsSpace(s[i]) then i else SkipSpaces(s, i + 1)
  }

  /** Where `trim` ends: one past the last non-whitespace position before `j`, or 0. */
  function SkipSpacesBack(s: string, j: nat): (m: nat)
    requires j <= |s|
    ensures m <= j
    ensures forall i :: m <= i < j ==> IsSpace(s[i])
    ensures m == 0 || !IsSpace(s[m - 1])
  {
    if j == 0 || !IsSpace(s[j - 1]) then j else SkipSpacesBack(s, j - 1)
  }

  /** `String.prototype.trim`: the slice between the leading and the trailing whitespace. */
  function Trim(s: string): (r: string)
    ensures |r| <= |s|
    ensures r == [] || (!IsSpace(r[0]) && !IsSpace(r[|r| - 1]))
    ensures r == [] <==> forall i :: 0 <= i < |s| ==> IsSpace(s[i])
  {
    var k := SkipSpaces(s, 0);
    if k == |s| then []
    else
      s[k..SkipSpacesBack(s, |s|)]
  }

  /** `trim` only cuts: its result is a slice of the input with nothing but whitespace around it. */
  lemma TrimSlice(s: string)
    ensures exists k, m ::
      && 0 <= k <= m <= |s| && Trim(s) == s[k..m]
      && (forall i :: 0 <= i < k ==> IsSpace(s[i]))
      && (forall i :: m <= i < |s| ==> IsSpace(s[i]))
  {
    var k := SkipSpaces(s, 0);
    if k == |s| {
      assert Trim(s) == s[k..k];
    } else {
      var m := SkipSpacesBack(s, |s|);
      assert Trim(s) == s[k..m];
    }
  }

  /** The name as `POST /usuarios` stores it (server.js lines 84-87). */
  function FormatName(nome: string): (r: string)
    ensures |r| <= |nome|
    ensures r == [] || (!IsSpace(r[0]) && !IsSpace(r[|r| - 1]))
  {
    Trim(CapitalizeWords(LowerCase(nome)))
  }

  /** `a` and `b` have the same length and whitespace at the same positions. */
  ghost predicate SameSpaces(a: string, b: string) {
    |a| == |b| && forall i :: 0 <= i < |a| ==> IsSpace(a[i]) == IsSpace(b[i])
  }

  /** Two strings with whitespace at the same positions are trimmed at the same positions. */
  lemma TrimSameSpaces(a: string, b: string)
    requires SameSpaces(a, b)
    ensures var k, m := SkipSpaces(a, 0), SkipSpacesBack(a, |a|);
      && k == SkipSpaces(b, 0) && m == SkipSpacesBack(b, |b|)
      && Trim(a) == (if k == |a| then [] else a[k..m])
      && Trim(b) == (if k == |b| then [] else b[k..m])
  {
  }

  /** A name made only of whitespace passes the presence check yet is stored as the empty string. */
  lemma FormatNameBlank(nome: string)
    requires forall i :: 0 <= i < |nome| ==> IsSpace(nome[i])
    ensures FormatName(nome) == ""
  {
  }

  lemma CapitalizeSameSpaces(s: string)
    ensures SameSpaces(CapitalizeWords(s), s)
  {
  }

  /** Lower-casing undoes the capitalization of a lower-case string. */
  lemma LowerCapitalize(l: string)
    requires forall i :: 0 <= i < |l| ==> LowerChar(l[i]) == l[i]
    ensures LowerCase(CapitalizeWords(l)) == l
  {
  }

  lemma LowerCaseSlice(s: string, k: nat, m: nat)
    requires k <= m <= |s|
    ensures LowerCase(s[k..m]) == LowerCase(s)[k..m]
  {
  }

  /** Lower-casing the stored name gives the trimmed lower-cased input: formatting changes case and trims, nothing else. */
  lemma FormatNameOnlyChangesCase(nome: string)
    ensures LowerCase(FormatName(nome)) == Trim(LowerCase(nome))
  {
    var l := LowerCase(nome);
    var c := CapitalizeWords(l);
    CapitalizeSameSpaces(l);
    TrimSameSpaces(c, l);
    var k, m := SkipSpaces(c, 0), SkipSpacesBack(c, |c|);
    if k < |c| {
      LowerCaseSlice(c, k, m);
    }
    LowerCapitalize(l);
  }

  /** Capitalizing a lower-case string upper-cases exactly the characters that start a word. */
  lemma CapitalizeWordsCapitals(l: string)
    requires forall i :: 0 <= i < |l| ==> LowerChar(l[i]) == l[i]
    ensures var c := CapitalizeWords(l);
      forall j :: 0 <= j < |c| ==>
        if StartsWord(c, j) then !('a' <= c[j] <= 'z') else LowerChar(c[j]) == c[j]
  {
  }

  /** Cutting whitespace off the front does not change which characters start a word. */
  lemma StartsWordAfterSpace(c: string, k: nat, m: nat, i: nat)
    requires k <= m <= |c| && i < m - k
    requires k == 0 || IsSpace(c[k - 1])
    ensures StartsWord(c[k..m], i) == StartsWord(c, k + i)
  {
  }

  /**
   * In the stored name a character that starts a word is not a lower-case
   * ASCII letter, and every other character is already in lower case.
   */
  lemma FormatNameCapitals(nome: string)
    ensures var r := FormatName(nome);
      forall i :: 0 <= i < |r| ==>
        if StartsWord(r, i) then !('a' <= r[i] <= 'z') else LowerChar(r[i]) == r[i]
  {
    var l := LowerCase(nome);
    var c := CapitalizeWords(l);
    CapitalizeWordsCapitals(l);
    var r := FormatName(nome);
    var k := SkipSpaces(c, 0);
    if k < |c| {
      var m := SkipSpacesBack(c, |c|);
      assert r == c[k..m];
      forall i | 0 <= i < |r|
        ensures StartsWord(r, i) == StartsWord(c, k + i)
      {
        StartsWordAfterSpace(c, k, m, i);
      }
    }
  }

  /** Lower-casing and capitalizing again gives back a string already capitalized word by word. */
  lemma RecapitalizeCapitalized(r: string)
    requires forall i :: 0 <= i < |r| ==>
      if StartsWord(r, i) then !('a' <= r[i] <= 'z') else LowerChar(r[i]) == r[i]
    ensures CapitalizeWords(LowerCase(r)) == r
  {
    var l := LowerCase(r);
    var c := CapitalizeWords(l);
    forall i | 0 <= i < |r|
      ensures c[i] == r[i]
    {
      assert StartsWord(l, i) == StartsWord(r, i);
      RecapitalizeChar(r[i], StartsWord(r, i));
    }
    assert c == r;
  }

  lemma RecapitalizeChar(ch: char, start: bool)
    requires if start then IsWordChar(ch) && !('a' <= ch <= 'z') else LowerChar(ch) == ch
    ensures (if start then UpperWordChar(LowerChar(ch)) else LowerChar(ch)) == ch
  {
  }

  /** A string without whitespace at either end is its own `trim`. */
  lemma TrimTrimmed(r: string)
    requires r == [] || (!IsSpace(r[0]) && !IsSpace(r[|r| - 1]))
    ensures Trim(r) == r
  {
    if r != [] {
      assert SkipSpaces(r, 0) == 0;
      assert SkipSpacesBack(r, |r|) == |r|;
    }
  }

  /** Formatting a stored name again leaves it as it is. */
  lemma FormatNameIdempotent(nome: string)
    ensures FormatName(FormatName(nome)) == FormatName(nome)
  {
    var r := FormatName(nome);
    FormatNameCapitals(nome);
    RecapitalizeCapitalized(r);
    TrimTrimmed(r);
  }

  lemma ExampleLowerCase()
    ensures LowerCase("joão DA silva") == "joão da silva"
  {
  }

  lemma ExampleCapitalizeWords()
    ensures CapitalizeWords("joão da silva") == "JoãO Da Silva"
  {
  }

  lemma ExampleTrim()
    ensures Trim("JoãO Da Silva") == "JoãO Da Silva"
  {
  }

  /** A Portuguese name: `\w` does not match `ã`, so the `o` after it starts a new word. */
  lemma FormatNameExample()
    ensures FormatName("joão DA silva") == "JoãO Da Silva"
  {
    ExampleLowerCase();
    ExampleCapitalizeWords();
    ExampleTrim();
  }

  // ---------------------------------------------------------------- phone

  /** `replace(/\D/g, '')`: the digits of `s`. */
  function Digits(s: string): (r: string)
    ensures |r| <= |s|
    ensures forall i :: 0 <= i < |r| ==> IsDigit(r[i])
    ensures (forall i :: 0 <= i < |s| ==> IsDigit(s[i])) ==> r == s
  {
    if s == [] then [] else (if IsDigit(s[0]) then [s[0]] else []) + Digits(s[1..])
  }

  /** The test `/^(\d{10}|\d{11})$/`. */
  predicate PhonePattern(t: string)
    ensures PhonePattern(t) <==> (|t| == 10 || |t| == 11) && Digits(t) == t
  {
    (|t| == 10 || |t| == 11) && forall i :: 0 <= i < |t| ==> IsDigit(t[i])
  }

  /** The phone `POST /usuarios` stores, or None when it answers 400 (server.js lines 90-97). */
  function NormalizePhone(telefone: string): (r: Option<string>)
    ensures r.Some? <==> |Digits(telefone)| == 10 || |Digits(telefone)| == 11
    ensures r.Some? ==> r.value == Digits(telefone) && PhonePattern(r.value)
  {
    var t := Digits(telefone);
    if PhonePattern(t) then Some(t) else None
  }

  /** The positions of the digits of `s` at or after `from`, in increasing order. */
  function DigitPositions(s: string, from: nat): seq<nat>
    decreases |s| - from
  {
    if from >= |s| then [] else (if IsDigit(s[from]) then [from] else []) + DigitPositions(s, from + 1)
  }

  lemma {:induction false} DigitsFrom(s: string, from: nat)
    requires from <= |s|
    ensures var p, d := DigitPositions(s, from), Digits(s[from..]);
      && |p| == |d|
      && (forall k :: 0 <= k < |p| ==> from <= p[k] < |s| && d[k] == s[p[k]])
      && (forall k, l :: 0 <= k < l < |p| ==> p[k] < p[l])
      && (forall i :: from <= i < |s| ==> (IsDigit(s[i]) <==> i in p))
    decreases |s| - from
  {
    if from < |s| {
      DigitsFrom(s, from + 1);
      assert s[from..][1..] == s[from + 1..];
    }
  }

  /** The normalized phone is exactly the digits of the input, in their original order. */
  lemma DigitsInOrder(s: string)
    ensures var p, d := DigitPositions(s, 0), Digits(s);
      && |p| == |d|
      && (forall k :: 0 <= k < |p| ==> p[k] < |s| && d[k] == s[p[k]])
      && (forall k, l :: 0 <= k < l < |p| ==> p[k] < p[l])
      && (forall i :: 0 <= i < |s| ==> (IsDigit(s[i]) <==> i in p))
  {
    DigitsFrom(s, 0);
    assert s[0..] == s;
  }

  /** A stored phone normalizes to itself. */
  lemma NormalizePhoneIdempotent(telefone: string)
    requires NormalizePhone(telefone).Some?
    ensures NormalizePhone(NormalizePhone(telefone).value) == NormalizePhone(telefone)
  {
  }
}
