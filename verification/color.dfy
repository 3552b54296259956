/** The `Color` class: ANSI escape sequences looked up by attribute name and
    wrapped around a text. */
module Color {
  import opened Text

  /** `Color.colors`: attribute name to escape sequence. */
  const Colors: map<string, string> := map[
    "normal" := "\U{1b}[0m",
    "gray" := "\U{1b}[1;38;5;240m",
    "light_gray" := "\U{1b}[0;37m",
    "red" := "\U{1b}[31m",
    "green" := "\U{1b}[32m",
    "yellow" := "\U{1b}[33m",
    "blue" := "\U{1b}[34m",
    "pink" := "\U{1b}[35m",
    "cyan" := "\U{1b}[36m",
    "bold" := "\U{1b}[1m"
  ]

  /** The code `colorify` always ends with, `colors["normal"]`. */
  const Reset: string := "\U{1b}[0m"

  /** `[colors[attr] for attr in tokens if attr in colors]`: the codes of the
      known attribute names, in order; unknown names are dropped. */
  function KnownCodes(tokens: seq<string>): (codes: seq<string>)
    ensures |codes| <= |tokens|
    ensures forall k :: 0 <= k < |codes| ==> codes[k] in Colors.Values
    ensures codes == [] <==> forall k :: 0 <= k < |tokens| ==> tokens[k] !in Colors
  {
    if tokens == [] then []
    else if tokens[0] in Colors then [Colors[tokens[0]]] + KnownCodes(tokens[1..])
    else KnownCodes(tokens[1..])
  }

  /** Filtering a token list piecewise gives the same codes as filtering it
      whole. */
  lemma {:induction false} KnownCodesAppend(a: seq<string>, b: seq<string>)
    ensures KnownCodes(a + b) == KnownCodes(a) + KnownCodes(b)
  {
    if a == [] {
      assert a + b == b;
    } else {
      assert (a + b)[0] == a[0];
      assert (a + b)[1..] == a[1..] + b;
      KnownCodesAppend(a[1..], b);
    }
  }

  /** `Color.colorify(text, attrs)`: the codes of the known names among the
      white-space separated `attrs`, then the text, then the reset code. */
  function Colorify(text: string, attrs: string): (r: string)
    ensures r == Concat(KnownCodes(Split(attrs))) + text + Reset
    ensures |r| >= |text| + |Reset|
    ensures r[|r| - |Reset|..] == Reset
    ensures r[|r| - |Reset| - |text|..|r| - |Reset|] == text
  {
    var codes := KnownCodes(Split(attrs));
    var msg := codes + [text] + [Colors["normal"]];
    ConcatAppend(codes + [text], [Colors["normal"]]);
    ConcatAppend(codes, [text]);
    Concat(msg)
  }

  /** With a single known name the result is that one code, the text and the
      reset code. */
  lemma ColorifySingle(text: string, name: string)
    requires name in Colors
    ensures Colorify(text, name) == Colors[name] + text + Reset
  {
    NamesAreWords(name);
    SplitSingleWord(name);
  }

  /** Every attribute name is one white-space free word. */
  lemma NamesAreWords(name: string)
    requires name in Colors
    ensures name != [] && NoSpace(name)
  {
    assert forall i :: 0 <= i < |name| ==> 'a' <= name[i] <= 'z' || name[i] == '_';
  }

  /** Names `colors` does not know change nothing: if no name is known the
      result is the text followed by the reset code. */
  lemma ColorifyUnknownDropped(text: string, attrs: string)
    requires forall k :: 0 <= k < |Split(attrs)| ==> Split(attrs)[k] !in Colors
    ensures Colorify(text, attrs) == text + Reset
  {
  }

  /** Attribute lists compose: prefixing `attrs` with more names and a
      separator prefixes the result with their codes. */
  lemma ColorifyMoreAttrs(text: string, first: string, sep: char, attrs: string)
    requires IsSpace(sep)
    ensures Colorify(text, first + [sep] + attrs)
         == Concat(KnownCodes(Split(first))) + Colorify(text, attrs)
  {
    SplitAtSpace(first, sep, attrs);
    KnownCodesAppend(Split(first), Split(attrs));
    ConcatAppend(KnownCodes(Split(first)), KnownCodes(Split(attrs)));
  }

  function Redify(msg: string): (r: string)
    ensures r == "\U{1b}[31m" + msg + Reset
  {
    ColorifySingle(msg, "red");
    Colorify(msg, "red")
  }

  function Greenify(msg: string): (r: string)
    ensures r == "\U{1b}[32m" + msg + Reset
  {
    ColorifySingle(msg, "green");
    Colorify(msg, "green")
  }

  function Blueify(msg: string): (r: string)
    ensures r == "\U{1b}[34m" + msg + Reset
  {
    ColorifySingle(msg, "blue");
    Colorify(msg, "blue")
  }

  function Yellowify(msg: string): (r: string)
    ensures r == "\U{1b}[33m" + msg + Reset
  {
    ColorifySingle(msg, "yellow");
    Colorify(msg, "yellow")
  }

  function Grayify(msg: string): (r: string)
    ensures r == "\U{1b}[1;38;5;240m" + msg + Reset
  {
    ColorifySingle(msg, "gray");
    Colorify(msg, "gray")
  }

  function LightGrayify(msg: string): (r: string)
    ensures r == "\U{1b}[0;37m" + msg + Reset
  {
    ColorifySingle(msg, "light_gray");
    Colorify(msg, "light_gray")
  }

  function Pinkify(msg: string): (r: string)
    ensures r == "\U{1b}[35m" + msg + Reset
  {
    ColorifySingle(msg, "pink");
    Colorify(msg, "pink")
  }

  function Cyanify(msg: string): (r: string)
    ensures r == "\U{1b}[36m" + msg + Reset
  {
    ColorifySingle(msg, "cyan");
    Colorify(msg, "cyan")
  }
}
