/** `main`: validates the requested lengths, then generates `pool`
    credentials and either appends them to a file or prints them. The
    command line arrives already parsed; the random source is supplied as one
    `Draw` per iteration of the pool loop; printing is modelled as the list of
    lines printed. */
module Driver {
  import opened Wrappers
  import opened Text
  import opened Charsets
  import opened Sampling
  import opened Color
  import opened Generator

  /** The parsed command line. `write` and `tag` are `None` when the flag is
      absent; `tag` is the `-l/--label` value. */
  datatype Args = Args(
    help: bool,
    unamelen: int,
    passwdlen: int,
    withoutPunctuation: bool,
    write: Option<string>,
    pool: int,
    tag: Option<string>)

  /** What argparse yields for an empty command line. */
  const DefaultArgs: Args := Args(false, 10, 25, false, None, 1, None)

  /** The random-source answers one iteration of the pool loop consumes: the
      username's choices, then the password's. */
  datatype Draw = Draw(unamePicks: seq<nat>, passwdPicks: seq<nat>)

  /** How a run ends. */
  datatype Outcome =
    | HelpShown                                     // usage printed, status 0
    | Rejected(message: string, status: int)        // diagnostic printed
    | WroteFile(fs: FileSystem, bytes: nat, message: string)
    | Printed(lines: seq<string>)

  const MinLength: int := 10
  const LengthMessage: string := "Username/password length shouldn't be less than 10"

  /** The guard in front of generation: neither length may be below 10. */
  predicate LengthsValid(unamelen: int, passwdlen: int)
    ensures LengthsValid(unamelen, passwdlen) <==> unamelen >= 10 && passwdlen >= 10
    ensures LengthsValid(unamelen, passwdlen) ==> Clamp(unamelen) == unamelen && Clamp(passwdlen) == passwdlen
  {
    !(unamelen < MinLength || passwdlen < MinLength)
  }

  /** The label passed to `write_to_file`: suppressed (empty) in a batch. */
  function RecordLabel(pool: int, tag: Option<string>): (r: Option<string>)
    ensures pool > 1 ==> ShowLabel(r) == ""
    ensures pool <= 1 ==> ShowLabel(r) == ShowLabel(tag)
    ensures pool <= 1 && tag.None? ==> ShowLabel(r) == "None"
  {
    if pool > 1 then Some("") else tag
  }

  /** The draws answer every choice of the first `range(pool)` iterations. */
  predicate DrawsCover(args: Args, draws: seq<Draw>) {
    && |draws| >= Clamp(args.pool)
    && forall i :: 0 <= i < Clamp(args.pool) ==>
         && Covers(draws[i].unamePicks, |AsciiLetters|, args.unamelen)
         && Covers(draws[i].passwdPicks, |PasswordCharset(args.withoutPunctuation)|, args.passwdlen)
  }

  /** One generated pair. */
  datatype Credential = Credential(username: string, password: string)

  /** The pairs the first `k` iterations generate, in order: the username
      first, then the password, each from its own draws. `-w` arrives as the
      `punctuation` argument, whose true value removes punctuation. */
  function Generate(args: Args, draws: seq<Draw>, k: nat): (creds: seq<Credential>)
    requires DrawsCover(args, draws) && k <= Clamp(args.pool)
    ensures |creds| == k
    ensures forall i :: 0 <= i < k ==>
              creds[i] == Credential(Username(args.unamelen, draws[i].unamePicks),
                                     Password(args.passwdlen, args.withoutPunctuation, draws[i].passwdPicks))
    decreases k
  {
    if k == 0 then []
    else
      Generate(args, draws, k - 1)
      + [Credential(Username(args.unamelen, draws[k - 1].unamePicks),
                    Password(args.passwdlen, args.withoutPunctuation, draws[k - 1].passwdPicks))]
  }

  /** The record blocks of a list of pairs, all under the same label. */
  function Blocks(tag: Option<string>, creds: seq<Credential>): (blocks: seq<string>)
    ensures |blocks| == |creds|
    ensures forall i :: 0 <= i < |creds| ==>
              blocks[i] == RecordText(tag, creds[i].username, creds[i].password)
    decreases |creds|
  {
    if creds == [] then []
    else
      var last := creds[|creds| - 1];
      Blocks(tag, creds[..|creds| - 1]) + [RecordText(tag, last.username, last.password)]
  }

  /** The writing loop: one `write_to_file` per pair, all to file `name`,
      summing the counts into `bytes_written`. Nothing is opened, so nothing
      is created, when there are no pairs. */
  function WriteRecords(fs: FileSystem, name: string, tag: Option<string>, creds: seq<Credential>)
    : (r: (FileSystem, nat))
    requires name != []
    ensures r.0 == if creds == [] then fs
                   else fs[name := Content(fs, name) + Concat(Blocks(tag, creds))]
    ensures r.1 == |Concat(Blocks(tag, creds))|
    decreases |creds|
  {
    if creds == [] then (fs, 0)
    else
      var init := creds[..|creds| - 1];
      var last := creds[|creds| - 1];
      var prev := WriteRecords(fs, name, tag, init);
      var w := WriteToFile(prev.0, last.username, last.password, tag, Some(name), []);
      WriteStep(fs, name, tag, creds, prev.0);
      (w.fs, prev.1 + w.count)
  }

  /** One more iteration of the writing loop: the record of `last` lands
      after the blocks already written, and the total grows by its size. */
  lemma WriteStep(fs: FileSystem, name: string, tag: Option<string>, creds: seq<Credential>, prev: FileSystem)
    requires name != [] && creds != []
    requires var init := creds[..|creds| - 1];
             prev == if init == [] then fs else fs[name := Content(fs, name) + Concat(Blocks(tag, init))]
    ensures var last := creds[|creds| - 1];
            var w := WriteToFile(prev, last.username, last.password, tag, Some(name), []);
            && w.fs == fs[name := Content(fs, name) + Concat(Blocks(tag, creds))]
            && |Concat(Blocks(tag, creds))| == |Concat(Blocks(tag, creds[..|creds| - 1]))| + w.count
  {
    var init, last := creds[..|creds| - 1], creds[|creds| - 1];
    var w := WriteToFile(prev, last.username, last.password, tag, Some(name), []);
    assert w.target == name;
    var before, block := Concat(Blocks(tag, init)), RecordText(tag, last.username, last.password);
    assert Blocks(tag, creds) == Blocks(tag, init) + [block];
    ConcatSnoc(Blocks(tag, init), block);
    RecordLength(tag, last.username, last.password);
    if init == [] {
      assert before + block == block;
    } else {
      AppendTwice(fs, name, before, block);
    }
  }

  /** The password's colour on the terminal. */
  function PasswordColor(passwd: string): (color: string)
    ensures |passwd| >= 25 ==> Colorify(passwd, color) == Greenify(passwd)
    ensures |passwd| < 25 ==> Colorify(passwd, color) == Yellowify(passwd)
  {
    ColorifySingle(passwd, "green");
    ColorifySingle(passwd, "yellow");
    if |passwd| >= 25 then "green" else "yellow"
  }

  /** The indent both value lines start with. */
  const ValueIndent: string := "  -- "

  /** The username line: the indent, the word Username in cyan, a colon and
      a space, then the username in green. */
  function UsernameShown(uname: string): string {
    ValueIndent + (Cyanify("Username") + ": " + Greenify(uname))
  }

  /** The password line: green for a password of at least 25 characters,
      yellow otherwise. */
  function PasswordShown(passwd: string): string {
    ValueIndent + (Cyanify("Password") + ": " + Colorify(passwd, PasswordColor(passwd)))
  }

  /** The label printed above the pair: only for a single credential, and
      only for a non-empty label. */
  function PrintedLabel(args: Args): (heading: Option<string>)
    ensures heading.Some? <==> args.pool == 1 && Truthy(args.tag)
    ensures heading.Some? ==> heading == args.tag && heading.value != []
  {
    if args.pool == 1 && Truthy(args.tag) then args.tag else None
  }

  /** The lines printed for one pair, without the separator. */
  function Shown(heading: Option<string>, c: Credential): seq<string> {
    (if heading.Some? then [Pinkify(heading.value) + ":"] else [])
    + [UsernameShown(c.username), PasswordShown(c.password)]
  }

  /** The username line spelled out: the indent, `Username` between the cyan
      and reset codes, a colon and a space, then the username between the
      green and reset codes. */
  lemma UsernameShownFormat(uname: string)
    ensures UsernameShown(uname)
         == "  -- " + "\U{1b}[36m" + "Username" + "\U{1b}[0m" + ": " + "\U{1b}[32m" + uname + "\U{1b}[0m"
  {
    ValueLineFormat("Username", Greenify(uname), "\U{1b}[32m", uname);
  }

  /** Both value lines have the shape indent, name in cyan, `: `, coloured
      value; this spells that shape out once. */
  lemma ValueLineFormat(name: string, shown: string, code: string, value: string)
    requires shown == code + value + Reset
    ensures ValueIndent + (Cyanify(name) + ": " + shown)
         == "  -- " + "\U{1b}[36m" + name + "\U{1b}[0m" + ": " + code + value + "\U{1b}[0m"
  {
    var cyan := "\U{1b}[36m" + name + Reset;
    var a := ValueIndent + cyan + ": ";
    SeqAssoc(ValueIndent, cyan + ": ", shown);
    SeqAssoc(ValueIndent, cyan, ": ");
    SeqAssoc(a, code + value, Reset);
    SeqAssoc(a, code, value);
    SeqAssoc(ValueIndent, "\U{1b}[36m" + name, Reset);
    SeqAssoc(ValueIndent, "\U{1b}[36m", name);
  }

  /** The password line spelled out: as the username line, but the password
      is shown in green from 25 characters on and in yellow below that. */
  lemma PasswordShownFormat(passwd: string)
    ensures PasswordShown(passwd)
         == "  -- " + "\U{1b}[36m" + "Password" + "\U{1b}[0m" + ": "
            + (if |passwd| >= 25 then "\U{1b}[32m" else "\U{1b}[33m") + passwd + "\U{1b}[0m"
  {
    var shown := Colorify(passwd, PasswordColor(passwd));
    if |passwd| >= 25 {
      ValueLineFormat("Password", shown, "\U{1b}[32m", passwd);
    } else {
      ValueLineFormat("Password", shown, "\U{1b}[33m", passwd);
    }
  }

  /** One pair on the terminal: a label line, the label in pink followed by a
      colon, exactly when there is a heading, then the username line and the
      password line. */
  lemma ShownFormat(heading: Option<string>, c: Credential)
    ensures heading.Some? ==>
              Shown(heading, c)
                == ["\U{1b}[35m" + heading.value + "\U{1b}[0m:",
                    UsernameShown(c.username), PasswordShown(c.password)]
    ensures heading.None? ==> Shown(heading, c) == [UsernameShown(c.username), PasswordShown(c.password)]
  {
    if heading.Some? {
      var pink := "\U{1b}[35m" + heading.value;
      assert Pinkify(heading.value) == pink + Reset;
      SeqAssoc(pink, Reset, ":");
      assert Reset + ":" == "\U{1b}[0m:";
    }
  }

  /** The lines of each pair, in order. */
  function ShownGroups(heading: Option<string>, creds: seq<Credential>): seq<seq<string>> {
    seq(|creds|, i requires 0 <= i < |creds| => Shown(heading, creds[i]))
  }

  /** The printing loop, given the lines each iteration prints for its pair:
      after each pair comes a blank line when `pool > 1` and it is not the
      last iteration. */
  function PrintLoop(pool: int, groups: seq<seq<string>>): (lines: seq<string>)
    ensures |groups| <= Clamp(pool) ==>
              lines == Separated(groups) + (if 1 <= |groups| < pool then [""] else [])
    decreases |groups|
  {
    if groups == [] then []
    else
      var i := |groups| - 1;
      var prev := PrintLoop(pool, groups[..i]);
      assert i > 0 ==> groups[..i][..i - 1] == groups[..i - 1];
      assert i == 0 ==> groups[..i] == [];
      SeqAssoc(Separated(groups[..i]) + [""], groups[i], [""]);
      prev + groups[i] + (if pool > 1 && i != pool - 1 then [""] else [])
  }

  /** The lines printed for the given pairs. */
  function PrintRecords(pool: int, heading: Option<string>, creds: seq<Credential>): seq<string> {
    PrintLoop(pool, ShownGroups(heading, creds))
  }

  /** Groups of lines with one blank line between consecutive groups and none
      after the last. */
  function Separated(groups: seq<seq<string>>): seq<string> {
    if |groups| == 0 then []
    else if |groups| == 1 then groups[0]
    else Separated(groups[..|groups| - 1]) + [""] + groups[|groups| - 1]
  }

  /** The printing loop shows the groups in order with exactly one blank line
      between consecutive ones and none after the last. */
  lemma PrintLoopSeparated(pool: int, groups: seq<seq<string>>)
    requires |groups| == Clamp(pool)
    ensures PrintLoop(pool, groups) == Separated(groups)
  {
  }

  /** `main` after argument parsing. */
  function Run(args: Args, fs: FileSystem, draws: seq<Draw>): (r: Outcome)
    requires !args.help && LengthsValid(args.unamelen, args.passwdlen) ==> DrawsCover(args, draws)
    ensures r.HelpShown? <==> args.help
    ensures r.Rejected? <==> !args.help && !LengthsValid(args.unamelen, args.passwdlen)
    ensures r.Rejected? ==> r.status == 1 && r.message == LengthMessage
    ensures r.WroteFile? <==> !args.help && LengthsValid(args.unamelen, args.passwdlen) && Truthy(args.write)
    ensures r.WroteFile? ==>
              var name := args.write.value;
              var appended := Concat(Blocks(RecordLabel(args.pool, args.tag),
                                            Generate(args, draws, Clamp(args.pool))));
              && r.fs == (if args.pool < 1 then fs else fs[name := Content(fs, name) + appended])
              && r.bytes == |appended|
    ensures r.WroteFile? ==>
              r.message == "  + Results have been written to " + Blueify(args.write.value)
                           + " (" + Decimal(r.bytes) + " bytes)"
    ensures r.WroteFile? && args.write.value !in fs ==> |Content(r.fs, args.write.value)| == r.bytes
    ensures r.Printed? ==>
              r.lines == Separated(ShownGroups(PrintedLabel(args), Generate(args, draws, Clamp(args.pool))))
  {
    if args.help then HelpShown
    else if !LengthsValid(args.unamelen, args.passwdlen) then Rejected(LengthMessage, 1)
    else
      var creds := Generate(args, draws, Clamp(args.pool));
      if Truthy(args.write) then
        var w := WriteRecords(fs, args.write.value, RecordLabel(args.pool, args.tag), creds);
        WroteFile(w.0, w.1, "  + Results have been written to " + Blueify(args.write.value)
                            + " (" + Decimal(w.1) + " bytes)")
      else
        PrintLoopSeparated(args.pool, ShownGroups(PrintedLabel(args), creds));
        Printed(PrintRecords(args.pool, PrintedLabel(args), creds))
  }

  /** Pairs whose usernames all have `ulen` characters and whose passwords
      all have `plen`. */
  predicate UniformLengths(creds: seq<Credential>, ulen: nat, plen: nat) {
    forall i :: 0 <= i < |creds| ==> |creds[i].username| == ulen && |creds[i].password| == plen
  }

  /** The size of one record block with values of the given lengths. */
  function BlockSize(tag: Option<string>, ulen: nat, plen: nat): nat {
    |ShowLabel(tag)| + ulen + plen + 34
  }

  /** Every block is the label, the two values and 34 characters of framing,
      so the bytes written grow linearly with the number of pairs. */
  lemma {:induction false} BlocksLength(tag: Option<string>, creds: seq<Credential>, ulen: nat, plen: nat)
    requires UniformLengths(creds, ulen, plen)
    ensures |Concat(Blocks(tag, creds))| == |creds| * BlockSize(tag, ulen, plen)
    decreases |creds|
  {
    if creds != [] {
      var n := |creds|;
      var w := BlockSize(tag, ulen, plen);
      var init := creds[..n - 1];
      var last := creds[n - 1];
      var block := RecordText(tag, last.username, last.password);
      BlocksLength(tag, init, ulen, plen);
      assert Blocks(tag, creds) == Blocks(tag, init) + [block];
      ConcatSnoc(Blocks(tag, init), block);
      RecordLength(tag, last.username, last.password);
      assert |block| == w;
      assert |init| == n - 1;
      assert |Concat(Blocks(tag, init))| == (n - 1) * w;
      assert |Concat(Blocks(tag, creds))| == |Concat(Blocks(tag, init))| + |block|;
      MulStep(n, w);
    }
  }

  lemma MulStep(n: nat, w: nat)
    requires n >= 1
    ensures (n - 1) * w + w == n * w
  {
  }

  /** Every generated pair has the requested lengths. */
  lemma GeneratedLengths(args: Args, draws: seq<Draw>)
    requires DrawsCover(args, draws)
    ensures UniformLengths(Generate(args, draws, Clamp(args.pool)), Clamp(args.unamelen), Clamp(args.passwdlen))
  {
  }

  /** The blocks of a batch are unlabelled, so together they take `pool`
      times `unamelen + passwdlen + 34` characters. */
  lemma BatchBlocksTotal(args: Args, draws: seq<Draw>)
    requires LengthsValid(args.unamelen, args.passwdlen)
    requires args.pool > 1 && DrawsCover(args, draws)
    ensures |Concat(Blocks(Some(""), Generate(args, draws, args.pool)))|
         == args.pool * BlockSize(Some(""), args.unamelen, args.passwdlen)
  {
    var creds := Generate(args, draws, args.pool);
    GeneratedLengths(args, draws);
    assert Clamp(args.unamelen) == args.unamelen && Clamp(args.passwdlen) == args.passwdlen;
    BlocksLength(Some(""), creds, args.unamelen, args.passwdlen);
    assert BlockSize(Some(""), args.unamelen, args.passwdlen) == args.unamelen + args.passwdlen + 34;
    assert |creds| == args.pool;
  }

  /** Writing a batch of `pool > 1` reports `pool` times the size of an
      unlabelled block, `unamelen + passwdlen + 34` characters. */
  lemma BatchBytes(args: Args, fs: FileSystem, draws: seq<Draw>)
    requires !args.help && LengthsValid(args.unamelen, args.passwdlen) && Truthy(args.write)
    requires args.pool > 1 && DrawsCover(args, draws)
    ensures Run(args, fs, draws).WroteFile?
    ensures Run(args, fs, draws).bytes == args.pool * BlockSize(Some(""), args.unamelen, args.passwdlen)
    ensures BlockSize(Some(""), args.unamelen, args.passwdlen) == args.unamelen + args.passwdlen + 34
  {
    var r := Run(args, fs, draws);
    var creds := Generate(args, draws, args.pool);
    assert RecordLabel(args.pool, args.tag) == Some("");
    assert r.bytes == |Concat(Blocks(Some(""), creds))|;
    BatchBlocksTotal(args, draws);
  }

  /** Writing a single credential reports the size of its one block, label
      included (`None` when no label was given). */
  lemma SingleBytes(args: Args, fs: FileSystem, draws: seq<Draw>)
    requires !args.help && LengthsValid(args.unamelen, args.passwdlen) && Truthy(args.write)
    requires args.pool == 1 && DrawsCover(args, draws)
    ensures Run(args, fs, draws).WroteFile?
    ensures Run(args, fs, draws).bytes == |ShowLabel(args.tag)| + args.unamelen + args.passwdlen + 34
  {
    GeneratedLengths(args, draws);
    BlocksLength(args.tag, Generate(args, draws, 1), args.unamelen, args.passwdlen);
  }

  /** In a batch every record read back from the file has an empty label,
      whatever `-l` said. */
  lemma BatchRecordsUnlabelled(args: Args, draws: seq<Draw>, i: nat)
    requires args.pool > 1 && DrawsCover(args, draws) && i < args.pool
    ensures var c := Generate(args, draws, args.pool)[i];
            ParseRecord(Blocks(RecordLabel(args.pool, args.tag), Generate(args, draws, args.pool))[i])
              == Some(Record("", c.username, c.password))
  {
    var c := Generate(args, draws, args.pool)[i];
    GeneratedRecordRoundTrip(Some(""), args.unamelen, args.passwdlen, args.withoutPunctuation,
                             draws[i].unamePicks, draws[i].passwdPicks);
  }

  /** A single credential's record carries the `-l` label verbatim, or the
      text `None` when no label was given. */
  lemma SingleRecordLabelled(args: Args, draws: seq<Draw>)
    requires args.pool == 1 && DrawsCover(args, draws)
    requires '\n' !in ShowLabel(args.tag)
    ensures var c := Generate(args, draws, 1)[0];
            ParseRecord(Blocks(RecordLabel(args.pool, args.tag), Generate(args, draws, 1))[0])
              == Some(Record(if args.tag.Some? then args.tag.value else "None", c.username, c.password))
  {
    GeneratedRecordRoundTrip(args.tag, args.unamelen, args.passwdlen, args.withoutPunctuation,
                             draws[0].unamePicks, draws[0].passwdPicks);
  }

  predicate StartsWith(s: string, prefix: string) {
    |s| >= |prefix| && s[..|prefix|] == prefix
  }

  lemma StartsWithJoin(prefix: string, rest: string)
    ensures StartsWith(prefix + rest, prefix)
  {
    assert (prefix + rest)[..|prefix|] == prefix;
  }

  /** Lines that are blank or value lines: no label line among them. */
  predicate NoLabelLines(lines: seq<string>) {
    forall j :: 0 <= j < |lines| ==> lines[j] == "" || StartsWith(lines[j], ValueIndent)
  }

  lemma {:induction false} SeparatedNoLabelLines(groups: seq<seq<string>>)
    requires forall k :: 0 <= k < |groups| ==> NoLabelLines(groups[k])
    ensures NoLabelLines(Separated(groups))
    decreases |groups|
  {
    if |groups| > 1 {
      SeparatedNoLabelLines(groups[..|groups| - 1]);
    }
  }

  /** On the terminal a batch shows no label line: every line is a
      username or password line, or a blank separator. */
  lemma BatchPrintsNoLabel(args: Args, fs: FileSystem, draws: seq<Draw>)
    requires !args.help && LengthsValid(args.unamelen, args.passwdlen) && !Truthy(args.write)
    requires args.pool > 1 && DrawsCover(args, draws)
    ensures Run(args, fs, draws).Printed?
    ensures NoLabelLines(Run(args, fs, draws).lines)
  {
    var creds := Generate(args, draws, args.pool);
    assert PrintedLabel(args) == None;
    assert Run(args, fs, draws).lines == Separated(ShownGroups(None, creds));
    UnlabelledGroups(creds);
  }

  /** The lines of one unlabelled pair: a username line and a password
      line, both indented value lines and neither blank. */
  lemma UnlabelledPair(c: Credential)
    ensures Shown(None, c) == [UsernameShown(c.username), PasswordShown(c.password)]
    ensures NoLabelLines(Shown(None, c))
    ensures Blanks(Shown(None, c)) == 0
  {
    var u := UsernameShown(c.username);
    var p := PasswordShown(c.password);
    StartsWithJoin(ValueIndent, Cyanify("Username") + ": " + Greenify(c.username));
    StartsWithJoin(ValueIndent, Cyanify("Password") + ": " + Colorify(c.password, PasswordColor(c.password)));
    var g := [u, p];
    assert Shown(None, c) == g;
    assert g[..1] == [u];
    assert [u][..0] == [];
    assert Blanks([u]) == Blanks([]) + 0;
    assert Blanks(g) == Blanks([u]) + 0;
  }

  /** Unlabelled pairs separated by blank lines: no label lines, one blank
      line between consecutive pairs, three lines per pair but the last. */
  lemma UnlabelledGroups(creds: seq<Credential>)
    requires |creds| >= 1
    ensures NoLabelLines(Separated(ShownGroups(None, creds)))
    ensures Blanks(Separated(ShownGroups(None, creds))) == |creds| - 1
    ensures |Separated(ShownGroups(None, creds))| == 3 * |creds| - 1
  {
    var groups := ShownGroups(None, creds);
    forall k | 0 <= k < |groups|
      ensures NoLabelLines(groups[k]) && Blanks(groups[k]) == 0 && |groups[k]| == 2
    {
      UnlabelledPair(creds[k]);
    }
    SeparatedNoLabelLines(groups);
    SeparatedBlanks(groups);
    SeparatedLength(groups, 2);
  }

  /** A single credential prints its label line, in pink, exactly when a
      non-empty label was given, then the username and password lines. */
  lemma SinglePrintsLabel(args: Args, fs: FileSystem, draws: seq<Draw>)
    requires !args.help && LengthsValid(args.unamelen, args.passwdlen) && !Truthy(args.write)
    requires args.pool == 1 && DrawsCover(args, draws)
    ensures var c := Generate(args, draws, 1)[0];
            Run(args, fs, draws)
              == Printed((if Truthy(args.tag) then [Pinkify(args.tag.value) + ":"] else [])
                         + [UsernameShown(c.username), PasswordShown(c.password)])
  {
  }

  /** With no options the program prints one unlabelled pair: a 10-letter
      username and a 25-character password, which is shown in green. */
  lemma DefaultsPrintOnePair(fs: FileSystem, draws: seq<Draw>)
    requires DrawsCover(DefaultArgs, draws)
    ensures var c := Generate(DefaultArgs, draws, 1)[0];
            && Run(DefaultArgs, fs, draws) == Printed([UsernameShown(c.username), PasswordShown(c.password)])
            && |c.username| == 10 && |c.password| == 25
            && PasswordColor(c.password) == "green"
  {
  }

  /** The number of blank lines. */
  function Blanks(lines: seq<string>): nat
    decreases |lines|
  {
    if lines == [] then 0
    else Blanks(lines[..|lines| - 1]) + (if lines[|lines| - 1] == "" then 1 else 0)
  }

  lemma {:induction false} BlanksJoin(a: seq<string>, b: seq<string>)
    ensures Blanks(a + b) == Blanks(a) + Blanks(b)
    decreases |b|
  {
    if b == [] {
      assert a + b == a;
    } else {
      assert (a + b)[..|a + b| - 1] == a + b[..|b| - 1];
      BlanksJoin(a, b[..|b| - 1]);
    }
  }

  /** Groups without blank lines, joined by `Separated`, have exactly one
      blank line fewer than there are groups. */
  lemma {:induction false} SeparatedBlanks(groups: seq<seq<string>>)
    requires |groups| >= 1
    requires forall k :: 0 <= k < |groups| ==> Blanks(groups[k]) == 0
    ensures Blanks(Separated(groups)) == |groups| - 1
    decreases |groups|
  {
    if |groups| > 1 {
      var init := groups[..|groups| - 1];
      SeparatedBlanks(init);
      BlanksJoin(Separated(init), [""]);
      BlanksJoin(Separated(init) + [""], groups[|groups| - 1]);
      assert Blanks([""]) == 1 by {
        assert [""][..0] == [];
      }
    }
  }

  /** A printed batch of `pool` pairs is `3 * pool - 1` lines long, of which
      `pool - 1` are blank separators. */
  lemma BatchPrintLayout(args: Args, fs: FileSystem, draws: seq<Draw>)
    requires !args.help && LengthsValid(args.unamelen, args.passwdlen) && !Truthy(args.write)
    requires args.pool > 1 && DrawsCover(args, draws)
    ensures Run(args, fs, draws).Printed?
    ensures Blanks(Run(args, fs, draws).lines) == args.pool - 1
    ensures |Run(args, fs, draws).lines| == 3 * args.pool - 1
  {
    var creds := Generate(args, draws, args.pool);
    assert PrintedLabel(args) == None;
    assert Run(args, fs, draws).lines == Separated(ShownGroups(None, creds));
    UnlabelledGroups(creds);
  }

  lemma {:induction false} SeparatedLength(groups: seq<seq<string>>, size: nat)
    requires |groups| >= 1
    requires forall k :: 0 <= k < |groups| ==> |groups[k]| == size
    ensures |Separated(groups)| == |groups| * (size + 1) - 1
    decreases |groups|
  {
    if |groups| > 1 {
      SeparatedLength(groups[..|groups| - 1], size);
    }
  }
}
