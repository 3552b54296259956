# randcred in Dafny

A model of `randcred`, a command-line generator of random usernames and
passwords. The model covers everything in `randcred.py` that is logic
rather than plumbing:

- the ANSI colour helper `Color.colorify` and its one-colour wrappers;
- the username and password samplers `Randcred.username` and
  `Randcred.password`;
- the record writer `Randcred.write_to_file`, including its random default
  file name;
- `main` after argument parsing: the length guard, label suppression in
  batches, the write loop with its byte total, and the print loop with its
  blank-line separators.

Modules, one file each:

| module | file | models |
|---|---|---|
| `Wrappers` | `wrappers.dfy` | `Option`, for arguments that may be absent (`None`) |
| `Text` | `text.dfy` | `"".join`, `str.split()` with no separator, `range(n)` counts, `str(n)` |
| `Charsets` | `charsets.dfy` | `string.ascii_letters`, `digits`, `hexdigits` and `punctuation`, with the characters each one holds |
| `Sampling` | `sampling.dfy` | `"".join(secrets.choice(cs) for _ in range(n))` |
| `Color` | `color.dfy` | `Color.colors`, `Color.colorify` and the eight wrappers |
| `Generator` | `generator.dfy` | `Randcred.username`, `Randcred.password`, `Randcred.write_to_file` |
| `Driver` | `driver.dfy` | `main` from the `help` check onwards |

The random source is modelled as an oracle. Each run of `secrets.choice`
calls over a charset is given as a sequence of indices into that charset,
and the predicate `Sampling.Covers` says the sequence answers every call.
The driver takes one `Draw` per iteration of the pool loop: the username's
indices and the password's. The file system is a map from file names to
contents. An absent file reads as empty, and a write only ever appends.
Terminal output is modelled as the list of lines printed.

Points of the program's behaviour that the model keeps as written:

- Both lengths must be at least 10 (`randcred.py:121`), as the help text
  says (`randcred.py:75-76`).
- The `punctuation` argument of `password` *removes* punctuation when true
  (`randcred.py:90`). `main` passes `-w/--without-punctuation` into it
  (`randcred.py:130`), so `-w` removes punctuation and the default includes
  it.
- `write_to_file` always writes a label line (`randcred.py:97`): `:` in a
  batch, where the label is `""` (`randcred.py:131`), and `None:` for a
  single credential when `-l` is absent.
- Only the terminal output omits an empty or absent label
  (`randcred.py:137-138`).

## Model

| member | source | states |
|---|---|---|
| Color.Colorify | randcred.py:56-61 | the result is, in order, the escape codes of those whitespace-separated attribute tokens that name a known colour, then the text, then the reset code `\x1b[0m`; the text sits just before the reset, which ends the result |
| Color.KnownCodes | randcred.py:58 | the filtered codes are table values, no more than the tokens, and empty exactly when no token is a known name |
| Color.KnownCodesAppend | randcred.py:58 | filtering distributes over concatenated token lists, so token order is kept |
| Color.ColorifySingle | randcred.py:56-61 | with one known attribute name the result is that colour's code, the text and the reset code |
| Color.ColorifyUnknownDropped | randcred.py:58 | when no attribute token is a known colour the result is the text followed by the reset code |
| Color.ColorifyMoreAttrs | randcred.py:58 | attributes separated by white space contribute their codes in order: the codes for `first` come before those for the rest |
| Color.Redify | randcred.py:24-25 | the red code `\x1b[31m`, the message, the reset code |
| Color.Greenify | randcred.py:28-29 | the green code `\x1b[32m`, the message, the reset code |
| Color.Blueify | randcred.py:32-33 | the blue code `\x1b[34m`, the message, the reset code |
| Color.Yellowify | randcred.py:36-37 | the yellow code `\x1b[33m`, the message, the reset code |
| Color.Grayify | randcred.py:40-41 | the gray code `\x1b[1;38;5;240m`, the message, the reset code |
| Color.LightGrayify | randcred.py:44-45 | the light gray code `\x1b[0;37m`, the message, the reset code |
| Color.Pinkify | randcred.py:48-49 | the pink code `\x1b[35m`, the message, the reset code |
| Color.Cyanify | randcred.py:52-53 | the cyan code `\x1b[36m`, the message, the reset code |
| Text.Split | randcred.py:58 | `attrs.split()` yields non-empty tokens without white space that together hold exactly the non-space characters, in order |
| Text.SplitAtSpace | randcred.py:58 | a white-space character cuts the attribute string into halves that split independently |
| Text.SplitSingleWord | randcred.py:58 | a single colour name splits into itself |
| Text.SplitBlank | randcred.py:58 | an attribute string of white space only has no tokens |
| Text.Decimal | randcred.py:132 | `str(n)` is a non-empty string of decimal digits without a leading zero |
| Text.DecimalRoundTrip | randcred.py:132 | `int(str(n)) == n`, so the byte count printed in the summary line (see `Driver.Run`) reads back as the same number |
| Charsets.LettersExactly | randcred.py:86 | the username charset holds exactly the 52 ASCII letters |
| Charsets.DigitsExactly | randcred.py:90 | the digit charset holds exactly the 10 decimal digits |
| Charsets.HexDigitsExactly | randcred.py:95 | the file-name charset holds exactly the 22 hexadecimal digits of both cases |
| Charsets.PunctuationExactly | randcred.py:90 | the punctuation charset holds exactly the 32 printable ASCII characters that are neither letters nor digits |
| Sampling.Sample | randcred.py:87 | sampling `n` choices gives `max(n, 0)` characters, the i-th being the charset character at the i-th chosen index |
| Sampling.SampleReachesAll | randcred.py:87 | every string over the charset is produced by some sequence of choices |
| Sampling.SampleIgnoresSurplus | randcred.py:87 | choices beyond the first `n` do not affect the result |
| Generator.Username | randcred.py:85-87 | the username has exactly `max(len, 0)` characters, all ASCII letters |
| Generator.UsernameReachesAll | randcred.py:85-87 | every string of ASCII letters is a possible username of its own length |
| Generator.PasswordCharset | randcred.py:90 | with `punctuation` true the charset is the 62 letters and digits, otherwise the 94 printable non-blank ASCII characters |
| Generator.Password | randcred.py:89-91 | the password has exactly `max(len, 0)` printable non-blank ASCII characters, and only letters and digits when `punctuation` is true |
| Generator.PasswordReachesAll | randcred.py:89-91 | every string over the selected charset is a possible password of its own length |
| Generator.AppendOnly | randcred.py:96-99 | a write in append mode keeps the file's previous content as a prefix, puts the text right after it, creates the file if needed, leaves every other file untouched and returns the text's length |
| Generator.AppendTwice | randcred.py:96-99 | two writes to the same open file leave it as one write of both texts would, the first text in front |
| Generator.RecordTextFormat | randcred.py:97-99 | a record is exactly the label and `:`, a newline, `  -- Username: ` and the username, a newline, `  -- Password: ` and the password, a newline |
| Generator.WriteToFile | randcred.py:93-100 | the target file ends as its prior content followed by the label line, the username line and the password line; the return value is the label's length plus both values' plus 34 |
| Generator.RecordLength | randcred.py:97-99 | a record block is 34 characters longer than its label and two values together |
| Generator.OutFile | randcred.py:95 | a non-empty file name is used as given; an empty or absent one is replaced by 10 hexadecimal digits |
| Generator.RecordRoundTrip | randcred.py:96-99 | a record block reads back, line by line, as the label text, the username and the password |
| Generator.GeneratedRecordRoundTrip | randcred.py:85-99 | any generated username and password, under a label without a newline, read back from their block unchanged |
| Driver.Generate | randcred.py:125-130 | the i-th pair is the username and then the password drawn from the i-th iteration's choices |
| Driver.Blocks | randcred.py:126-131 | the i-th block is the record of the i-th pair under the common label |
| Driver.LengthsValid | randcred.py:121 | the guard passes exactly when both lengths are at least 10, and then `range` runs each length in full |
| Driver.RecordLabel | randcred.py:131 | the label text written for every record of a batch is empty; for a single credential it is the `-l` text, or `None` when `-l` is absent |
| Driver.PasswordColor | randcred.py:140 | a password of at least 25 characters is shown as `greenify` would show it, a shorter one as `yellowify` would |
| Driver.ValueLineFormat | randcred.py:139-140 | a value line is the indent `  -- `, the name between the cyan code `\x1b[36m` and the reset code, `: `, then the value between its colour code and the reset code |
| Driver.UsernameShownFormat | randcred.py:139 | the printed username line is `  -- `, `Username` in cyan, `: `, then the username between the green code `\x1b[32m` and the reset code |
| Driver.PasswordShownFormat | randcred.py:140 | the printed password line is `  -- `, `Password` in cyan, `: `, then the green code `\x1b[32m` when the password has at least 25 characters or the yellow code `\x1b[33m` when it is shorter, the password, and the reset code |
| Driver.ShownFormat | randcred.py:137-140 | a printed pair starts with the label line, the heading in pink `\x1b[35m` followed by the reset code and `:`, exactly when there is a heading, and continues with the username line and the password line |
| Driver.PrintedLabel | randcred.py:137 | a label line is printed exactly when the pool is 1 and the label is non-empty, and it shows the `-l` text |
| Driver.PrintLoop | randcred.py:134-142 | after the first `k` iterations of the print loop the lines are the `k` groups separated by blank lines, plus one more blank line when further iterations follow |
| Driver.WriteStep | randcred.py:127-131 | one more iteration of the write loop appends the next block after those already written and adds that block's size to the total |
| Driver.WriteRecords | randcred.py:126-131 | the write loop leaves the file as its prior content followed by every block in generation order, and sums to the total length of those blocks; with no pairs the file system is untouched |
| Driver.PrintLoopSeparated | randcred.py:133-142 | the print loop places exactly one blank line between consecutive pairs and none after the last |
| Driver.Run | randcred.py:118-142 | help comes first; the run is rejected with status 1 and the length diagnostic exactly when a length is below 10; it writes exactly when the lengths are valid and `-W` names a file, appending the blocks under the suppressed or given label and reporting their total length in the summary line `  + Results have been written to <file in blue> (<n> bytes)`; otherwise it prints the pairs separated by blank lines |
| Driver.BlocksLength | randcred.py:127-131 | blocks of uniform value lengths total the number of pairs times one block's size |
| Driver.BatchBlocksTotal | randcred.py:127-131 | the blocks of a batch of `pool` pairs total `pool` times `unamelen + passwdlen + 34` characters |
| Driver.BatchBytes | randcred.py:127-132 | writing a batch reports `pool * (unamelen + passwdlen + 34)` bytes, because every block has an empty label |
| Driver.SingleBytes | randcred.py:127-132 | writing one credential reports its label's length plus `unamelen + passwdlen + 34`, where an absent label counts as `None` |
| Driver.BatchRecordsUnlabelled | randcred.py:131 | in a batch every written record reads back with an empty label, whatever `-l` said |
| Driver.SingleRecordLabelled | randcred.py:131 | a single written record reads back with the `-l` label verbatim, or `None` when it was absent |
| Driver.BatchPrintsNoLabel | randcred.py:134-142 | a printed batch has no label line: every line is blank or starts with the value indent |
| Driver.BatchPrintLayout | randcred.py:134-142 | a printed batch of `pool` pairs has `3 * pool - 1` lines, `pool - 1` of them blank |
| Driver.UnlabelledGroups | randcred.py:137-142 | unlabelled pairs joined by blank lines have no label line, one blank per gap and three lines per pair but the last |
| Driver.SinglePrintsLabel | randcred.py:134-140 | a single credential prints a pink label line exactly when the label is non-empty, then the username line and the password line |
| Driver.DefaultsPrintOnePair | randcred.py:111-116 | with no options one unlabelled pair is printed: a 10-letter username and a 25-character password shown in green |

## Left out

- `Randcred.help` and its usage text: printing only.
- `argparse` parsing: the model starts from the parsed values in
  `Driver.Args`, with `None` for an absent `-W` or `-l`. Non-integer
  lengths, which argparse rejects, are not modelled.
- The `KeyboardInterrupt` handler and the process exit codes other than
  the status 1 of the length guard.
- The quality of `secrets.choice`: uniform, unpredictable choice cannot be
  stated over an index oracle. Only length and charset membership are
  proved.
- File system errors (permissions, invalid paths, a full disk): the model's
  writes always succeed.
- `write` in text mode returns characters, not encoded bytes. The model
  counts characters, as the code does, and does not model newline
  translation or encoding.
- The colours themselves: escape codes are modelled as strings, not as
  what a terminal shows.
- The default file name is drawn afresh for each record. `main` always
  passes a non-empty name, so this path is only modelled in
  `Generator.WriteToFile` and `Generator.OutFile`.
