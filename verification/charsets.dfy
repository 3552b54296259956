/** The character tables of Python's `string` module that the generator
    draws from, written out as the module defines them, together with
    range characterisations that say which characters they hold. */
module Charsets {

  /** `string.ascii_lowercase`. */
  const AsciiLowercase: string := "abcdefghijklmnopqrstuvwxyz"

  /** `string.ascii_uppercase`. */
  const AsciiUppercase: string := "ABCDEFGHIJKLMNOPQRSTUVWXYZ"

  /** `string.ascii_letters`: the lower-case letters, then the upper-case. */
  const AsciiLetters: string := AsciiLowercase + AsciiUppercase

  /** `string.digits`. */
  const Digits: string := "0123456789"

  /** `string.hexdigits`: digits, then `a`-`f`, then `A`-`F`. */
  const HexDigits: string := Digits + "abcdef" + "ABCDEF"

  /** `string.punctuation`: the ASCII characters that are neither letters,
      digits nor white space, in code-point order. */
  const Punctuation: string := "!\"#$%&'()*+,-./:;<=>?@[\\]^_`{|}~"

  predicate IsAsciiLetter(c: char) {
    'a' <= c <= 'z' || 'A' <= c <= 'Z'
  }

  predicate IsDigit(c: char) {
    '0' <= c <= '9'
  }

  predicate IsHexDigit(c: char) {
    IsDigit(c) || 'a' <= c <= 'f' || 'A' <= c <= 'F'
  }

  /** The printable, non-blank ASCII characters `!` through `~`. */
  predicate IsAsciiGraphic(c: char) {
    '!' <= c <= '~'
  }

  predicate IsAsciiPunctuation(c: char) {
    IsAsciiGraphic(c) && !IsAsciiLetter(c) && !IsDigit(c)
  }

  /** Builds the run of consecutive code points starting at `lo`. */
  function Run(lo: char, n: nat): (r: string)
    requires lo as int + n <= 0xD800
    ensures |r| == n
    ensures forall i :: 0 <= i < n ==> r[i] as int == lo as int + i
  {
    if n == 0 then [] else Run(lo, n - 1) + [(lo as int + n - 1) as char]
  }

  /** A run of consecutive code points holds exactly the characters of its
      range. */
  lemma RunMembers(lo: char, n: nat, c: char)
    requires lo as int + n <= 0xD800
    ensures c in Run(lo, n) <==> lo as int <= c as int < lo as int + n
  {
    var r := Run(lo, n);
    if lo as int <= c as int < lo as int + n {
      assert r[c as int - lo as int] == c;
    }
  }

  lemma LowercaseIsRun()
    ensures AsciiLowercase == Run('a', 26)
  {
  }

  lemma UppercaseIsRun()
    ensures AsciiUppercase == Run('A', 26)
  {
  }

  lemma DigitsIsRun()
    ensures Digits == Run('0', 10)
  {
  }

  /** `string.ascii_letters` holds exactly the 52 ASCII letters. */
  lemma LettersExactly()
    ensures |AsciiLetters| == 52
    ensures forall c :: c in AsciiLetters <==> IsAsciiLetter(c)
  {
    LowercaseIsRun();
    UppercaseIsRun();
    forall c ensures c in AsciiLetters <==> IsAsciiLetter(c) {
      RunMembers('a', 26, c);
      RunMembers('A', 26, c);
    }
  }

  /** `string.digits` holds exactly the ten decimal digits. */
  lemma DigitsExactly()
    ensures |Digits| == 10
    ensures forall c :: c in Digits <==> IsDigit(c)
  {
    DigitsIsRun();
    forall c ensures c in Digits <==> IsDigit(c) {
      RunMembers('0', 10, c);
    }
  }

  /** `string.hexdigits` holds exactly the hexadecimal digits of both cases,
      22 characters in all. */
  lemma HexDigitsExactly()
    ensures |HexDigits| == 22
    ensures forall c :: c in HexDigits <==> IsHexDigit(c)
  {
    DigitsIsRun();
    assert "abcdef" == Run('a', 6);
    assert "ABCDEF" == Run('A', 6);
    forall c ensures c in HexDigits <==> IsHexDigit(c) {
      RunMembers('0', 10, c);
      RunMembers('a', 6, c);
      RunMembers('A', 6, c);
    }
  }

  /** `string.punctuation` is the four gaps of the graphic ASCII range left
      by the digits and the letters. */
  lemma PunctuationIsRuns()
    ensures Punctuation == Run('!', 15) + Run(':', 7) + Run('[', 6) + Run('{', 4)
  {
    var p := Punctuation;
    PunctuationBeforeDigits();
    PunctuationBeforeUpper();
    PunctuationBeforeLower();
    PunctuationAfterLower();
    assert p == p[..15] + p[15..22] + p[22..28] + p[28..];
  }

  /** The four gaps, read off the literal one at a time. */
  lemma PunctuationBeforeDigits()
    ensures Punctuation[..15] == Run('!', 15)
  {
  }

  lemma PunctuationBeforeUpper()
    ensures Punctuation[15..22] == Run(':', 7)
  {
  }

  lemma PunctuationBeforeLower()
    ensures Punctuation[22..28] == Run('[', 6)
  {
  }

  lemma PunctuationAfterLower()
    ensures Punctuation[28..] == Run('{', 4)
  {
  }

  /** `string.punctuation` holds exactly the 32 ASCII punctuation
      characters. */
  lemma PunctuationExactly()
    ensures |Punctuation| == 32
    ensures forall c :: c in Punctuation <==> IsAsciiPunctuation(c)
  {
    PunctuationIsRuns();
    var gaps := Run('!', 15) + Run(':', 7) + Run('[', 6) + Run('{', 4);
    forall c ensures c in gaps <==> IsAsciiPunctuation(c) {
      InGaps(c);
    }
  }

  /** A character lies in one of the four gaps exactly when it is ASCII
      punctuation. */
  lemma InGaps(c: char)
    ensures c in Run('!', 15) + Run(':', 7) + Run('[', 6) + Run('{', 4) <==> IsAsciiPunctuation(c)
  {
    RunMembers('!', 15, c);
    RunMembers(':', 7, c);
    RunMembers('[', 6, c);
    RunMembers('{', 4, c);
  }
}
