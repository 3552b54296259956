/** The handful of Python string built-ins the program leans on:
    `"".join`, `str.split()` with no separator, `range(n)` counts and
    `str(n)` for a non-negative integer. */
module Text {

  /** The number of iterations of `range(n)`: a negative `n` gives none. */
  function Clamp(n: int): nat {
    if n < 0 then 0 else n
  }

  /** `"".join(parts)`. */
  function Concat(parts: seq<string>): string {
    if parts == [] then [] else parts[0] + Concat(parts[1..])
  }

  lemma {:induction false} ConcatAppend(a: seq<string>, b: seq<string>)
    ensures Concat(a + b) == Concat(a) + Concat(b)
  {
    if a == [] {
      assert a + b == b;
    } else {
      assert (a + b)[1..] == a[1..] + b;
      ConcatAppend(a[1..], b);
    }
  }

  lemma SeqAssoc<T>(a: seq<T>, b: seq<T>, c: seq<T>)
    ensures a + b + c == a + (b + c)
  {
  }

  /** Joining one more part extends the joined text by exactly that part. */
  lemma ConcatSnoc(a: seq<string>, s: string)
    ensures Concat(a + [s]) == Concat(a) + s
  {
    ConcatAppend(a, [s]);
  }

  /** The characters Python's `str.split()` treats as separators
      (`str.isspace`): the ASCII controls tab to carriage return, the
      file/group/record/unit separators, space, NEL, no-break space and the
      Unicode space separators. */
  predicate IsSpace(c: char) {
    || ('\t' <= c <= '\r')
    || ('\U{1c}' <= c <= ' ')
    || c == '\U{85}'
    || c == '\U{a0}'
    || c == '\U{1680}'
    || ('\U{2000}' <= c <= '\U{200a}')
    || c == '\U{2028}'
    || c == '\U{2029}'
    || c == '\U{202f}'
    || c == '\U{205f}'
    || c == '\U{3000}'
  }

  predicate NoSpace(s: string) {
    forall i :: 0 <= i < |s| ==> !IsSpace(s[i])
  }

  /** The text with every separator character removed. */
  function DropSpaces(s: string): string {
    if s == [] then []
    else if IsSpace(s[0]) then DropSpaces(s[1..])
    else [s[0]] + DropSpaces(s[1..])
  }

  /** A token list as `str.split()` produces it: no empty tokens and no
      separator inside a token. */
  predicate WellFormedTokens(tokens: seq<string>) {
    forall k :: 0 <= k < |tokens| ==> tokens[k] != [] && NoSpace(tokens[k])
  }

  /** `s.split()`: the maximal runs of non-separator characters, in order. */
  function Split(s: string): (tokens: seq<string>)
    ensures WellFormedTokens(tokens)
    ensures Concat(tokens) == DropSpaces(s)
  {
    SplitFromFacts(s, []);
    SplitFrom(s, [])
  }

  /** Splitting the rest of the text while `word` holds the characters of
      the token read so far. */
  function SplitFrom(s: string, word: string): seq<string>
    decreases |s|
  {
    if s == [] then Flush(word)
    else if IsSpace(s[0]) then Flush(word) + SplitFrom(s[1..], [])
    else SplitFrom(s[1..], word + [s[0]])
  }

  /** Ends the current token, dropping it when it is empty. */
  function Flush(word: string): seq<string> {
    if word == [] then [] else [word]
  }

  lemma {:induction false} SplitFromFacts(s: string, word: string)
    requires NoSpace(word)
    ensures WellFormedTokens(SplitFrom(s, word))
    ensures Concat(SplitFrom(s, word)) == word + DropSpaces(s)
    decreases |s|
  {
    if s == [] {
    } else if IsSpace(s[0]) {
      SplitFromFacts(s[1..], []);
      ConcatAppend(Flush(word), SplitFrom(s[1..], []));
    } else {
      var w := word + [s[0]];
      assert NoSpace(w) by {
        forall i | 0 <= i < |w| ensures !IsSpace(w[i]) {
          if i < |word| { assert w[i] == word[i]; }
        }
      }
      SplitFromFacts(s[1..], w);
    }
  }

  /** A separator cuts the text into two halves that split independently:
      the tokens of `a + [c] + b` are the tokens of `a` followed by those of
      `b`. */
  lemma SplitAtSpace(a: string, c: char, b: string)
    requires IsSpace(c)
    ensures Split(a + [c] + b) == Split(a) + Split(b)
  {
    SplitFromAtSpace(a, c, b, []);
  }

  lemma {:induction false} SplitFromAtSpace(a: string, c: char, b: string, word: string)
    requires IsSpace(c)
    ensures SplitFrom(a + [c] + b, word) == SplitFrom(a, word) + SplitFrom(b, [])
    decreases |a|
  {
    if a == [] {
      assert a + [c] + b == [c] + b;
      assert ([c] + b)[1..] == b;
    } else {
      assert (a + [c] + b)[0] == a[0];
      assert (a + [c] + b)[1..] == a[1..] + [c] + b;
      SplitFromAtSpace(a[1..], c, b, if IsSpace(a[0]) then [] else word + [a[0]]);
    }
  }

  /** A non-empty text without separators is a single token. */
  lemma SplitSingleWord(s: string)
    requires s != [] && NoSpace(s)
    ensures Split(s) == [s]
  {
    SplitFromWord(s, []);
    assert [] + s == s;
  }

  lemma {:induction false} SplitFromWord(s: string, word: string)
    requires NoSpace(s) && word + s != []
    ensures SplitFrom(s, word) == [word + s]
    decreases |s|
  {
    if s == [] {
      assert word + s == word;
    } else {
      assert word + s == (word + [s[0]]) + s[1..];
      SplitFromWord(s[1..], word + [s[0]]);
    }
  }

  /** A text made of separators only has no tokens. */
  lemma {:induction false} SplitBlank(s: string)
    requires forall i :: 0 <= i < |s| ==> IsSpace(s[i])
    ensures Split(s) == []
    decreases |s|
  {
    if s != [] {
      SplitBlank(s[1..]);
    }
  }

  /** `str(n)` for a natural number: its decimal digits, most significant
      first. */
  function Decimal(n: nat): (r: string)
    ensures r != []
    ensures IsDigits(r)
    ensures |r| > 1 ==> r[0] != '0'
  {
    if n < 10 then [Digit(n)] else Decimal(n / 10) + [Digit(n % 10)]
  }

  function Digit(d: nat): char
    requires d < 10
  {
    ('0' as int + d) as char
  }

  predicate IsDigits(s: string) {
    forall i :: 0 <= i < |s| ==> '0' <= s[i] <= '9'
  }

  /** Reads a string of decimal digits back as a number (`int(s)`). */
  function DigitsValue(s: string): nat
    requires IsDigits(s)
  {
    if s == [] then 0
    else DigitsValue(s[..|s| - 1]) * 10 + (s[|s| - 1] as int - '0' as int)
  }

  /** `int(str(n)) == n`. */
  lemma {:induction false} DecimalRoundTrip(n: nat)
    ensures DigitsValue(Decimal(n)) == n
  {
    if n >= 10 {
      var r := Decimal(n);
      assert r[..|r| - 1] == Decimal(n / 10);
      DecimalRoundTrip(n / 10);
    }
  }
}
