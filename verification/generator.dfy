/** The `Randcred` class: the username and password samplers and the
    writer that appends one credential record to a file. The random source
    is an index oracle (see `Sampling`); the file system is a map from file
    name to contents that is only ever appended to. */
module Generator {
  import opened Wrappers
  import opened Text
  import opened Charsets
  import opened Sampling

  /** `Randcred.username(n)`: `range(n)` letters drawn from
      `string.ascii_letters`. */
  function Username(n: int, picks: seq<nat>): (r: string)
    requires Covers(picks, |AsciiLetters|, n)
    ensures |r| == Clamp(n)
    ensures forall i :: 0 <= i < |r| ==> IsAsciiLetter(r[i])
  {
    LettersExactly();
    Sample(AsciiLetters, n, picks)
  }

  predicate IsAsciiAlnum(c: char) {
    IsAsciiLetter(c) || IsDigit(c)
  }

  /** The charset `Randcred.password` draws from. The flag is named
      `punctuation` but, when it is true, it leaves punctuation OUT:
      letters and digits only; when false, letters, digits and
      `string.punctuation`. */
  function PasswordCharset(punctuation: bool): (cs: string)
    ensures punctuation ==> |cs| == 62
    ensures !punctuation ==> |cs| == 94
    ensures punctuation ==> forall c :: c in cs <==> IsAsciiAlnum(c)
    ensures !punctuation ==> forall c :: c in cs <==> IsAsciiGraphic(c)
  {
    LettersExactly();
    DigitsExactly();
    PunctuationExactly();
    if punctuation then AsciiLetters + Digits else AsciiLetters + Digits + Punctuation
  }

  /** `Randcred.password(n, punctuation)`: `range(n)` characters drawn from
      `PasswordCharset(punctuation)`. */
  function Password(n: int, punctuation: bool, picks: seq<nat>): (r: string)
    requires Covers(picks, |PasswordCharset(punctuation)|, n)
    ensures |r| == Clamp(n)
    ensures forall i :: 0 <= i < |r| ==> IsAsciiGraphic(r[i])
    ensures punctuation ==> forall i :: 0 <= i < |r| ==> IsAsciiAlnum(r[i])
  {
    var cs := PasswordCharset(punctuation);
    var r := Sample(cs, n, picks);
    assert forall i :: 0 <= i < |r| ==> r[i] in cs;
    r
  }

  /** Any string of ASCII letters can come out of `Username`. */
  lemma UsernameReachesAll(s: string)
    requires forall i :: 0 <= i < |s| ==> IsAsciiLetter(s[i])
    ensures exists picks :: Covers(picks, |AsciiLetters|, |s|) && Username(|s|, picks) == s
  {
    LettersExactly();
    SampleReachesAll(AsciiLetters, s);
  }

  /** Any string over the password charset can come out of `Password`: with
      the flag false that includes strings with punctuation. */
  lemma PasswordReachesAll(s: string, punctuation: bool)
    requires forall i :: 0 <= i < |s| ==> s[i] in PasswordCharset(punctuation)
    ensures exists picks :: Covers(picks, |PasswordCharset(punctuation)|, |s|)
                         && Password(|s|, punctuation, picks) == s
  {
    SampleReachesAll(PasswordCharset(punctuation), s);
  }

  /** Files: name to contents. A name that is absent is a file that does not
      exist yet, which append mode creates empty. */
  type FileSystem = map<string, string>

  function Content(fs: FileSystem, name: string): string {
    if name in fs then fs[name] else []
  }

  /** The outcome of one `fout.write(text)` on a file opened with `"a+"`:
      the file afterwards, and the count `write` returns. */
  datatype Appended = Appended(fs: FileSystem, count: nat)

  /** `fout.write(text)` in append mode: the text goes at the end of the
      file, and in text mode the count returned is the number of characters
      written. */
  function Append(fs: FileSystem, name: string, text: string): Appended {
    Appended(fs[name := Content(fs, name) + text], |text|)
  }

  /** Append mode never disturbs what is there: the file keeps its previous
      content as a prefix, the text follows it, the file exists afterwards,
      every other file is untouched, and the count is the text's length. */
  lemma AppendOnly(fs: FileSystem, name: string, text: string)
    ensures var r := Append(fs, name, text);
            && r.count == |text|
            && name in r.fs
            && |Content(r.fs, name)| == |Content(fs, name)| + |text|
            && Content(r.fs, name)[..|Content(fs, name)|] == Content(fs, name)
            && Content(r.fs, name)[|Content(fs, name)|..] == text
            && forall n :: n != name ==> (n in r.fs <==> n in fs) && (n in fs ==> r.fs[n] == fs[n])
  {
  }

  /** How an f-string renders the label argument: Python prints `None` for an
      absent label. */
  function ShowLabel(tag: Option<string>): string {
    match tag
    case None => "None"
    case Some(s) => s
  }

  const UsernamePrefix: string := "  -- Username: "
  const PasswordPrefix: string := "  -- Password: "

  /** A line of the output file: the text and its newline. */
  function Line(s: string): string {
    s + "\n"
  }

  function LabelLine(tag: Option<string>): string {
    Line(ShowLabel(tag) + ":")
  }

  function UsernameLine(uname: string): string {
    Line(UsernamePrefix + uname)
  }

  function PasswordLine(passwd: string): string {
    Line(PasswordPrefix + passwd)
  }

  /** The three lines `write_to_file` writes. The label line is written even
      when the label is empty (it is then just `:`). */
  function RecordText(tag: Option<string>, uname: string, passwd: string): string {
    LabelLine(tag) + UsernameLine(uname) + PasswordLine(passwd)
  }

  /** The record spelled out as the three f-strings write it: the label and a
      colon, then the username line, then the password line. */
  lemma RecordTextFormat(tag: Option<string>, uname: string, passwd: string)
    ensures RecordText(tag, uname, passwd)
         == ShowLabel(tag) + ":\n" + "  -- Username: " + uname + "\n" + "  -- Password: " + passwd + "\n"
  {
  }

  /** The record is the label, the two values and 34 characters of framing. */
  lemma RecordLength(tag: Option<string>, uname: string, passwd: string)
    ensures |RecordText(tag, uname, passwd)| == |ShowLabel(tag)| + |uname| + |passwd| + 34
  {
  }

  /** Truthiness of an optional string: present and non-empty. */
  predicate Truthy(s: Option<string>) {
    s.Some? && s.value != []
  }

  /** The outcome of `write_to_file`: the file system afterwards, the file
      that was appended to, and the count returned. */
  datatype FileWrite = FileWrite(fs: FileSystem, target: string, count: nat)

  /** `Randcred.write_to_file(uname, passwd, label, fname)`. Without a file
      name the target is ten characters drawn from `string.hexdigits`, their
      indices supplied by `namePicks`. */
  function WriteToFile(fs: FileSystem, uname: string, passwd: string, tag: Option<string>,
                       fname: Option<string>, namePicks: seq<nat>): (r: FileWrite)
    requires !Truthy(fname) ==> Covers(namePicks, |HexDigits|, 10)
    ensures r.target == OutFile(fname, namePicks)
    ensures r.fs == fs[r.target := Content(fs, r.target) + RecordText(tag, uname, passwd)]
    ensures r.count == |ShowLabel(tag)| + |uname| + |passwd| + 34
  {
    var target := OutFile(fname, namePicks);
    var c := Content(fs, target);
    var l1, l2, l3 := LabelLine(tag), UsernameLine(uname), PasswordLine(passwd);
    var w1 := Append(fs, target, l1);
    var w2 := Append(w1.fs, target, l2);
    var w3 := Append(w2.fs, target, l3);
    AppendTwice(fs, target, l1, l2);
    AppendTwice(fs, target, l1 + l2, l3);
    FileWrite(w3.fs, target, w1.count + w2.count + w3.count)
  }

  /** Two appends to the same file leave it as one append of both texts
      would: what the first wrote stays in front of what the second writes. */
  lemma AppendTwice(fs: FileSystem, name: string, a: string, b: string)
    ensures Append(Append(fs, name, a).fs, name, b).fs == Append(fs, name, a + b).fs
  {
    var c := Content(fs, name);
    assert fs[name := c + a][name := c + a + b] == fs[name := c + a + b];
    SeqAssoc(c, a, b);
  }

  /** The file `write_to_file` opens: the given name when it is truthy,
      otherwise ten characters drawn from `string.hexdigits`. */
  function OutFile(fname: Option<string>, namePicks: seq<nat>): (name: string)
    requires !Truthy(fname) ==> Covers(namePicks, |HexDigits|, 10)
    ensures Truthy(fname) ==> name == fname.value
    ensures !Truthy(fname) ==> |name| == 10 && forall i :: 0 <= i < 10 ==> IsHexDigit(name[i])
  {
    HexDigitsExactly();
    if Truthy(fname) then fname.value
    else
      var name := Sample(HexDigits, 10, namePicks);
      assert forall i :: 0 <= i < 10 ==> name[i] in HexDigits;
      name
  }

  /** The fields of a record, as a reader of the file would see them. */
  datatype Record = Record(tag: string, username: string, password: string)

  /** The index of the first newline in `s`, if any. */
  function LineEnd(s: string): (r: Option<nat>)
    ensures r.Some? ==> r.value < |s| && s[r.value] == '\n' && '\n' !in s[..r.value]
    ensures r.None? ==> '\n' !in s
  {
    if s == [] then None
    else if s[0] == '\n' then Some(0)
    else match LineEnd(s[1..])
      case None => None
      case Some(k) => assert s[..k + 1] == [s[0]] + s[1..][..k]; Some(k + 1)
  }

  /** `s` split at its first newline into the line before it and the text
      after it. */
  function FirstLine(s: string): Option<(string, string)> {
    match LineEnd(s)
    case None => None
    case Some(k) => Some((s[..k], s[k + 1..]))
  }

  /** Splits a block into exactly three newline-terminated lines. */
  function ThreeLines(block: string): Option<(string, string, string)> {
    match FirstLine(block)
    case None => None
    case Some((line1, rest1)) =>
      match FirstLine(rest1)
      case None => None
      case Some((line2, rest2)) =>
        match FirstLine(rest2)
        case None => None
        case Some((line3, rest3)) =>
          if rest3 == [] then Some((line1, line2, line3)) else None
  }

  /** Reads one record block back into its fields. This is the inverse of
      `RecordText`; the program itself never reads its output. */
  function ParseRecord(block: string): Option<Record> {
    match ThreeLines(block)
    case None => None
    case Some((line1, line2, line3)) =>
      if && |line1| >= 1 && line1[|line1| - 1] == ':'
         && |line2| >= |UsernamePrefix| && line2[..|UsernamePrefix|] == UsernamePrefix
         && |line3| >= |PasswordPrefix| && line3[..|PasswordPrefix|] == PasswordPrefix
      then Some(Record(line1[..|line1| - 1], line2[|UsernamePrefix|..], line3[|PasswordPrefix|..]))
      else None
  }

  /** The first newline of `a + "\n" + b`, when `a` has none, is the one
      after `a`. */
  lemma {:induction false} LineEndAfter(a: string, b: string)
    requires '\n' !in a
    ensures LineEnd(a + "\n" + b) == Some(|a|)
    decreases |a|
  {
    var s := a + "\n" + b;
    if a != [] {
      assert s[0] == a[0];
      assert s[1..] == a[1..] + "\n" + b;
      assert '\n' !in a[1..] by {
        forall i | 0 <= i < |a[1..]| ensures a[1..][i] != '\n' {
          assert a[1..][i] == a[i + 1];
        }
      }
      LineEndAfter(a[1..], b);
    }
  }

  lemma FirstLineOf(a: string, b: string)
    requires '\n' !in a
    ensures FirstLine(Line(a) + b) == Some((a, b))
  {
    var s := a + "\n" + b;
    LineEndAfter(a, b);
    assert s[..|a|] == a;
    assert s[|a| + 1..] == b;
  }

  lemma ThreeLinesOf(a: string, b: string, c: string)
    requires '\n' !in a && '\n' !in b && '\n' !in c
    ensures ThreeLines(Line(a) + Line(b) + Line(c)) == Some((a, b, c))
  {
    var la, lb, lc := Line(a), Line(b), Line(c);
    SeqAssoc(la, lb, lc);
    FirstLineOf(a, lb + lc);
    FirstLineOf(b, lc);
    FirstLineOf(c, []);
    assert lc + [] == lc;
    assert FirstLine(la + lb + lc) == Some((a, lb + lc));
    assert FirstLine(lb + lc) == Some((b, lc));
    assert FirstLine(lc) == Some((c, []));
  }

  /** A record whose label and values hold no newline reads back as exactly
      those fields: the three-line format is unambiguous. */
  lemma RecordRoundTrip(tag: Option<string>, uname: string, passwd: string)
    requires '\n' !in ShowLabel(tag) && '\n' !in uname && '\n' !in passwd
    ensures ParseRecord(RecordText(tag, uname, passwd)) == Some(Record(ShowLabel(tag), uname, passwd))
  {
    var l := ShowLabel(tag) + ":";
    var u := UsernamePrefix + uname;
    var p := PasswordPrefix + passwd;
    assert '\n' !in ShowLabel(tag) + ":";
    assert '\n' !in UsernamePrefix + uname;
    assert '\n' !in PasswordPrefix + passwd;
    ThreeLinesOf(l, u, p);
    assert l[..|l| - 1] == ShowLabel(tag);
    assert u[..|UsernamePrefix|] == UsernamePrefix && u[|UsernamePrefix|..] == uname;
    assert p[..|PasswordPrefix|] == PasswordPrefix && p[|PasswordPrefix|..] == passwd;
  }

  /** Generated usernames and passwords never hold a newline, so the records
      the program writes always read back. */
  lemma GeneratedRecordRoundTrip(tag: Option<string>, n: int, m: int, punctuation: bool,
                                 upicks: seq<nat>, ppicks: seq<nat>)
    requires Covers(upicks, |AsciiLetters|, n)
    requires Covers(ppicks, |PasswordCharset(punctuation)|, m)
    requires '\n' !in ShowLabel(tag)
    ensures var u := Username(n, upicks);
            var p := Password(m, punctuation, ppicks);
            ParseRecord(RecordText(tag, u, p)) == Some(Record(ShowLabel(tag), u, p))
  {
    var u := Username(n, upicks);
    var p := Password(m, punctuation, ppicks);
    assert forall i :: 0 <= i < |u| ==> u[i] != '\n';
    assert forall i :: 0 <= i < |p| ==> p[i] != '\n';
    RecordRoundTrip(tag, u, p);
  }
}
