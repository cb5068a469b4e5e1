# com240 in Dafny

`com240` annotates RISC240 assembly programs. The program is read as a list of lines, and
the tool then runs up to four stages on that list:

1. it removes existing `;` comments;
2. it aligns every mnemonic one column past the longest label;
3. it pads every mnemonic to the width of the longest one, so the operands line up;
4. it appends a register-transfer-level (RTL) comment to every instruction line, built from
   the instruction's template and its operand tokens, with the ` ; ` column aligned.

If any stage raises, the file gets its original lines back.

This project models all four stages, and the way `main` chooses among them, on the lines of
one file. Each stage appears twice:

- as a function on `seq<string>` that states the stage's outcome, success or failure;
- as a method that runs the source's loops on an `array<string>` (or on the lists it builds),
  and is proved against that function.

Lemmas about the functions then state what each stage achieves, and exactly when it fails.

| file | module | models |
|---|---|---|
| `wrappers.dfy` | `Wrappers` | `Option`, `Result`, and the Python exception each failure raises |
| `pystr.dfy` | `PyStr` | the `str` and `list` built-ins the tool calls: `strip`, `split`, `join`, `index`, `max`, `upper` |
| `isa.dfy` | `Isa` | the instruction table, the arity sets, and the mnemonic search |
| `swap.dfy` | `Swap` | `swap_elements` |
| `strip.dfy` | `Stripping` | `strip_comments` |
| `labels.dfy` | `Labels` | `align_labels` |
| `render.dfy` | `Render` | positional `str.format`, and the intended RTL text of every instruction |
| `instructions.dfy` | `Instructions` | `align_instructions` |
| `comments.dfy` | `Comments` | `write_comments`, `retrieve_comments`, `insert_comments` |
| `pipeline.dfy` | `Pipeline` | the stage selection of `main`, and its rollback |

The model represents the tool's failures by these `Error` values:

| error | Python exception | raised at |
|---|---|---|
| `EmptyMax` | `max` of an empty list | com240.py:114, 155, 254 |
| `NoneSpan` | `.span()` called on `None` | com240.py:109 |
| `Unpack` | tuple unpacking of the wrong number of tokens | com240.py:185, 188 |
| `MissingKey` | the `KeyError` from the named field `{rs1}` | com240.py:39-40, 186 |
| `UnboundArg` | `arg1` read before it is bound | com240.py:192 |
| `IndexOut` | `IndexError` when `swap_elements` or `insert_comments` runs out of entries | com240.py:79, 222 |
| `StrayBrace` | the `ValueError` of a template with an unmatched brace (no template has one) | — |

A few behaviours of the code are easy to miss. The model follows the code in each of them:

- The table has 26 mnemonics (com240.py:24-51).
- `align_labels` raises ValueError when no line has a label: it takes `max` of an empty
  list (com240.py:114). It does not fall back to a zero-width label column
  (`Labels.LabelsAlignedErrors`).
- `-f` without `-c` realigns the program without stripping comments first
  (com240.py:326-330, `Pipeline.FormatOnlyKeepsComments`).
- The mnemonic search is a plain substring search, not a token match (com240.py:54-55): the
  label `MORE` contains `OR`.
- A one-operand branch is described with the wrong operand, and `SLL`/`SLLI` always fail
  (see Findings).

## Model

| member | source | states |
|---|---|---|
| PyStr.RStrip | com240.py:144 | `str.rstrip`: the result is a prefix of the input, it does not end in whitespace, and everything cut off is whitespace |
| PyStr.LStrip | com240.py:94 | `str.lstrip`: the result is a suffix of the input, it does not start with whitespace, and everything cut off is whitespace |
| PyStr.Strip | com240.py:94 | `str.strip`: empty exactly when the line is blank; otherwise it starts and ends with non-whitespace |
| PyStr.HasText | com240.py:77-78 | `len(s.strip()) != 0` holds exactly when the line is not blank |
| PyStr.Split | com240.py:119 | `str.split()` yields non-empty tokens free of whitespace |
| PyStr.Find | com240.py:275 | `str.index(";")` is the first occurrence; `None` (ValueError) exactly when there is none |
| PyStr.Max | com240.py:114 | `max` of a non-empty list is one of its elements and at least every element |
| PyStr.Sanitize | com240.py:100-101 | upper-casing and removing commas leaves no comma and no lower-case ASCII letter |
| PyStr.SanitizeLength | com240.py:101 | exactly the commas are dropped: the length falls by the number of commas |
| PyStr.SanitizeAppend | com240.py:100-101 | the line is rewritten character by character, in order: a concatenation is sanitized piecewise |
| PyStr.SanitizeChar | com240.py:100-101 | a comma is dropped, a lower-case ASCII letter becomes its capital (32 code points lower), and any other character is kept |
| PyStr.SanitizeKeepsClean | com240.py:100-101 | a line with no comma and no lower-case letter is unchanged |
| PyStr.SanitizeIdempotent | com240.py:100-101 | sanitizing twice is sanitizing once |
| PyStr.SplitJoin | com240.py:119-126 | splitting words joined by single spaces gives back the words |
| PyStr.SplitAtSpace | com240.py:119 | a whitespace character separates the tokens on either side of it |
| PyStr.SplitPadded | com240.py:119-126 | whitespace around a line adds no token |
| Isa.Name | com240.py:24-51 | every key of the table is two to four characters long |
| Isa.NamesAreDistinct | com240.py:24-51 | distinct mnemonics have distinct spellings, so the table has one key per mnemonic |
| Isa.NameIsWord | com240.py:24-51 | every key consists of capital letters only |
| Isa.TableIsPartitioned | com240.py:24-63 | the three arity sets are pairwise disjoint, `STOP` is in none of them, and every key is in one of them or is `STOP` |
| Isa.Template | com240.py:24-51 | the RTL template of every key, character for character |
| Isa.OnlyStopIsLiteral | com240.py:24-51 | every template but that of `STOP` has a field to fill |
| Isa.ArityClassesAreDisjoint | com240.py:59-63 | the three arity sets are pairwise disjoint |
| Isa.ModesAreSorted | com240.py:54 | the alternatives of the pattern are sorted longest first |
| Isa.Index | com240.py:54 | every mnemonic of the table is one of the pattern's alternatives |
| Isa.Names | com240.py:54-55 | the alternation lists the spellings of the table's keys, longest first (the order of `Modes`) |
| Isa.NamesSortedAndComplete | com240.py:54-55 | the pattern has 26 non-empty alternatives, sorted longest first, and every key of the table is one of them |
| Isa.FirstAt | com240.py:55 | at one column, the alternative chosen occurs there, and no earlier alternative does |
| Isa.FirstIsLongest | com240.py:54-55 | with the alternatives sorted longest first, the one chosen at a column is the longest occurring there |
| Isa.SearchFrom | com240.py:55 | a search from column `i` finds an alternative that occurs at a column at or after `i` |
| Isa.SearchFromIsLeftmost | com240.py:54-55 | the search finds the leftmost column holding an alternative, and the longest alternative there; `None` only when none occurs |
| Isa.Search | com240.py:55 | a match spans exactly its mnemonic's spelling, inside the line |
| Isa.Matches | com240.py:104 | the list comprehension gives one search result per line |
| Isa.SearchMeaning | com240.py:54-55 | the search fails exactly when no mnemonic occurs; otherwise its match is leftmost, and longest at its column |
| Isa.SearchNone | com240.py:55 | no match exactly when no mnemonic occurs anywhere in the line |
| Isa.SearchLeftmost | com240.py:55 | a match found is the leftmost, longest occurrence |
| Isa.LeftmostIsUnique | com240.py:54-55 | at most one match is both leftmost and longest |
| Isa.SearchIsLeftmost | com240.py:54-55 | the search returns a match exactly when that match is the leftmost, longest occurrence |
| Isa.SearchFindsOccurrence | com240.py:55 | a mnemonic occurring at column `i` is found, at `i` or further left |
| Isa.LongestWinsExample | com240.py:54-55 | `ADDI R1 R2 5` matches `ADDI` at columns 0-4, not its prefix `ADD` |
| Isa.MatchIsNotBlank | com240.py:141-144 | a line with a match is not blank |
| Isa.SearchRStrip | com240.py:144-146 | right-stripping a line keeps its match |
| Isa.SearchWithBlankTail | com240.py:144-146 | whitespace after a line neither adds a match nor moves one |
| Isa.SearchShift | com240.py:120-121 | text without a mnemonic, ending in whitespace, put in front of a line moves its match right by its own length |
| Isa.NoneShift | com240.py:120-124 | such text adds no match to a line that has none |
| Isa.SearchAtStart | com240.py:110 | a line starting with a mnemonic is matched at column 0 |
| Isa.SearchAfterPrefix | com240.py:121-124 | after such text, a mnemonic that starts the rest of the line is matched where the rest begins |
| Swap.Rank | com240.py:75-80 | the cursor `j` at line `i` is at most `i` |
| Swap.NonBlank | com240.py:76-78 | the non-blank lines: one per non-blank line, none of them blank |
| Swap.Swapped | com240.py:75-80 | the lines after the loop, also when it raises: the length is kept and blank lines stay |
| Swap.SwapElements | com240.py:66-80 | the loop leaves the list as `Swapped` says; it succeeds exactly when `B` has an entry for every non-blank line, and otherwise fails with IndexError |
| Swap.SwappedAt | com240.py:75-80 | with enough entries, a blank line stays, and the non-blank line of rank `n` becomes `B[n]` |
| Swap.SwapKeepsBlankLines | com240.py:75-80 | the length is kept, blank lines stay as they were, and when `B` holds no blank entry, exactly the same lines are blank |
| Swap.SwapRefills | com240.py:75-80 | with one non-blank entry per non-blank line, the non-blank lines of the result are `B`, in order |
| Swap.NonBlankAt | com240.py:76-80 | the non-blank line `k` is the non-blank line of rank `Rank(k)` |
| Swap.LeftAlone | com240.py:79 | once the cursor has passed the end of `B`, the lines after are left as they were (the loop has raised) |
| Stripping.StripAll | com240.py:273 | stripping keeps the number of lines |
| Stripping.StripLine | com240.py:273-278 | one line of `strip_comments`; its meaning is stated by `UncommentedLineKept` and `CommentRemoved` |
| Stripping.StripComments | com240.py:266-278 | the loop rewrites each line as `StripLine` says |
| Stripping.UncommentedLineKept | com240.py:274-278 | a line without `;` is unchanged |
| Stripping.CommentRemoved | com240.py:275-276 | a line with `;` keeps its text up to before the first `;` (found by `index`) less trailing whitespace, then a newline: everything cut before that `;` is whitespace, the kept text does not end in whitespace, and no `;` is left |
| Stripping.StripLineIdempotent | com240.py:273-278 | stripping a line twice is stripping it once |
| Stripping.StripAllIdempotent | com240.py:273-278 | stripping a program twice is stripping it once |
| Labels.Extracted | com240.py:91-96 | one stripped line is collected per non-blank line |
| Labels.Sanitized | com240.py:99-102 | sanitising keeps the number of collected lines |
| Labels.Code | com240.py:91-102 | the code lines are one per non-blank line |
| Labels.LabelWidths | com240.py:104-111 | the widths are measured exactly when every code line has a match; otherwise the result is `NoneSpan` |
| Labels.AlignedAll | com240.py:118-126 | one aligned line is produced per code line |
| Labels.MatchedLinesHaveWords | com240.py:119-120 | a line with a match has a first token |
| Labels.WidthsOfMatches | com240.py:106-111 | the widths are the match columns less one of the lines not starting with a mnemonic; there are none exactly when every line starts with one |
| Labels.EveryLabelMeasured | com240.py:108-111 | every label is measured |
| Labels.OnlyLabelsMeasured | com240.py:108-111 | every width measured is that of some label |
| Labels.LabelsAlignedErrors | com240.py:104-114 | fails with `NoneSpan` exactly when a code line has no mnemonic, and with `EmptyMax` exactly when every code line starts with its mnemonic; never otherwise |
| Labels.LabelsAligned | com240.py:83-128 | `align_labels` as a value; its failures are stated by `LabelsAlignedErrors` and its result by `LabelsAlignedShape` and `LabelsAlignedLine` |
| Labels.WidestLabel | com240.py:114-115 | the widest label is at least every label's width, and is the width of one of them |
| Labels.LabelsAlignedShape | com240.py:91-128 | on success the non-blank lines are replaced, in order, by the aligned code lines, and the length is kept |
| Labels.LabelsAlignedLine | com240.py:118-128 | on success a blank line stays, and every other line becomes the aligned code line of its rank |
| Labels.AlignKeepsWords | com240.py:119-126 | aligning changes only whitespace: the line keeps its tokens and ends in a newline |
| Labels.MnemonicMovesPastLabels | com240.py:120-121 | a line whose first token starts with a mnemonic gets it at column `maximum_length + 1` |
| Labels.LabelledMnemonicMovesPastLabels | com240.py:122-124 | a label no wider than the maximum, followed by a token starting with a mnemonic, also puts the mnemonic at column `maximum_length + 1` |
| Labels.CollectCode | com240.py:91-96 | the first loop collects `Extracted` |
| Labels.SanitizeCode | com240.py:99-102 | the second loop computes `Sanitized` |
| Labels.MeasureLabels | com240.py:106-111 | the third loop computes `LabelWidths`, including its failure |
| Labels.AlignLine | com240.py:119-126 | one iteration of the fourth loop computes `AlignLabelLine` |
| Labels.AlignCode | com240.py:118-126 | the fourth loop computes `AlignedAll` |
| Labels.AlignLabels | com240.py:83-128 | the outcome is `LabelsAligned` of the old lines; a failure leaves the lines as they were |
| Render.FormatLiteral | com240.py:186 | text without braces is copied through |
| Render.FormatHole | com240.py:186 | `{}` takes the next positional argument |
| Render.Format3 | com240.py:186 | a template with three placeholders renders as its pieces with the three arguments between them |
| Render.Format2 | com240.py:189 | a template with two placeholders renders as its pieces with the two arguments between them |
| Render.Format1 | com240.py:192 | a template with one placeholder renders as its pieces with the argument between them |
| Render.FormatNamedField | com240.py:39-40 | a named field after a filled placeholder raises KeyError |
| Render.Format | com240.py:186-192 | positional `str.format`; `FormatLiteral`, `FormatHole` and `FormatNamedField` state what it does with text, `{}` and a named field |
| Render.NamedFieldFails | com240.py:39-40 | formatting `SLL` or `SLLI` with positional arguments always raises KeyError |
| Render.TemplateRendersRtl | com240.py:25-50 | every other template, given as many operands as it binds, renders as its intended RTL text |
| Render.ArithmeticRendersRtl | com240.py:25-38 | the arithmetic, logic and load templates render as their RTL text |
| Render.ShiftRendersRtl | com240.py:43-49 | the right shifts, `SUB`, `SW` and `XOR` render as their RTL text |
| Render.TwoArgsRenderRtl | com240.py:34-42 | the two-operand templates render as their RTL text |
| Render.BranchesRenderRtl | com240.py:28-33 | the branch templates render as their RTL text |
| Render.CorrectedTemplateRendersRtl | com240.py:25-50 | with `{rs1}` replaced by `{}`, every template renders as its intended RTL text |
| Instructions.Selected | com240.py:141-144 | at most one collected line per line |
| Instructions.MnemonicWidths | com240.py:148-152 | the widths are measured exactly when every collected line has a match, one per line, each being the length of its match |
| Instructions.PaddedAll | com240.py:159-163 | the padding loop produces one line per collected line |
| Instructions.Shortfalls | com240.py:156 | one shortfall per width |
| Instructions.SelectedEmpty | com240.py:139-144 | nothing is collected exactly when no line matches |
| Instructions.SelectedFewer | com240.py:139-144 | at most one collected line per non-blank line, and as many only when every non-blank line matches |
| Instructions.SelectedAreNonBlank | com240.py:139-144 | when exactly the non-blank lines match, the collected lines are the non-blank lines, right-stripped |
| Instructions.SourceOf | com240.py:141-144 | every collected line is a matching line, right-stripped |
| Instructions.SelectedAt | com240.py:141-144 | every matching line is collected |
| Instructions.MatchingLinesAreNotBlank | com240.py:142-143 | a matching line is not blank |
| Instructions.CollectedMatch | com240.py:144-146 | a collected line keeps the match of the line it came from |
| Instructions.WidthsOfCollected | com240.py:146-152 | every collected line has a match, so measuring never fails with `NoneSpan` |
| Instructions.PaddedErrors | com240.py:155 | before `swap_elements` it fails only with `EmptyMax`, and exactly when no line matches |
| Instructions.CollectedCount | com240.py:139-144 | there are as many collected lines as non-blank lines exactly when every non-blank line matches |
| Instructions.CollectedLine | com240.py:139-144 | then non-blank line `k` is collected at its rank |
| Instructions.InstructionsErrors | com240.py:155-165 | fails with `EmptyMax` exactly when no line has a mnemonic, with `IndexError` exactly when some line has one but a non-blank line has none, and in no other way |
| Instructions.InstructionsAligned | com240.py:131-165 | `align_instructions` as a value; its failures are stated by `InstructionsErrors` and its result by `InstructionsLine` |
| Instructions.WidestMnemonic | com240.py:155 | the longest mnemonic is at least every match's length, and the length of one match |
| Instructions.PaddedMeaning | com240.py:159-163 | padding keeps the text through the mnemonic, inserts spaces only, puts the rest of the line at `start + w`, and ends it with a newline; removing the spaces gives back the line |
| Instructions.PaddedEntry | com240.py:159-163 | collected line `j` is padded after its match up to the longest mnemonic |
| Instructions.InstructionsLine | com240.py:131-165 | on success a blank line stays, and every other line has a mnemonic and is its right-stripped text padded after the mnemonic, with the operands at `start + w` |
| Instructions.CollectInstructions | com240.py:139-144 | the first loop collects `Collected` |
| Instructions.MeasureMnemonics | com240.py:148-152 | the second loop computes `MnemonicWidths` |
| Instructions.PadMnemonics | com240.py:159-163 | the last loop computes `PaddedAll` |
| Instructions.AlignInstructions | com240.py:131-165 | the outcome is `InstructionsAligned` of the old lines; a failure before `swap_elements` leaves the lines as they were, and an IndexError leaves them half swapped |
| Comments.MatchesFit | com240.py:234 | every match lies inside its line |
| Comments.Hits | com240.py:216-223 | the cursor `j` at line `i` is at most `i` |
| Comments.FirstTextMeaning | com240.py:249-252 | the inner loop finds the first column after the mnemonic that is not whitespace, and finds none exactly when only whitespace follows |
| Comments.EntriesOf | com240.py:234-252 | one possible entry per line |
| Comments.Gathered | com240.py:236-252 | one length per match, and at most as many entries as lengths |
| Comments.WithPads | com240.py:257-259 | padding keeps the number of entries |
| Comments.Inserted | com240.py:216-223 | inserting keeps the number of lines |
| Comments.HitsNone | com240.py:216-223 | no match is counted exactly when there is none |
| Comments.CommentUnpacks | com240.py:184-189 | a three- or two-operand instruction with the wrong number of tokens fails to unpack |
| Comments.CommentOwnRtl | com240.py:184-202 | any other three- or two-operand instruction with the right number of tokens gets its own RTL text |
| Comments.CommentShiftFails | com240.py:39-40 | `SLL` and `SLLI` with three tokens raise KeyError |
| Comments.CommentBranch | com240.py:190-192 | a branch raises when `arg1` is unbound, and is otherwise described with the value `arg1` holds |
| Comments.CommentStop | com240.py:180-202 | `STOP` is described as "all done" |
| Comments.CommentErrors | com240.py:180-192 | one comment fails only by unpacking, by KeyError or by the unbound `arg1` |
| Comments.Comment | com240.py:180-202 | one iteration of `retrieve_comments`; `CommentUnpacks`, `CommentOwnRtl`, `CommentShiftFails`, `CommentBranch` and `CommentStop` state its outcome for every kind of instruction |
| Comments.RetrievedLength | com240.py:175-204 | on success there is one comment per entry |
| Comments.Retrieved | com240.py:175-204 | `retrieve_comments` as a value; `RetrievedLength`, `RetrievedErrors` and `RetrievedAt` state its outcome |
| Comments.RetrievedErrors | com240.py:175-204 | `retrieve_comments` fails only as one comment does |
| Comments.RetrievedAt | com240.py:177-202 | comment `i` is what entry `i` makes with the value `arg1` has after the entries before it |
| Comments.CarriedIsEarlierOperand | com240.py:185-192 | the value a branch formats is the first operand of the LATEST earlier three- or two-operand instruction with a token (none in between rebinds it), and is unbound exactly when there is none |
| Comments.CarriedIgnoresPads | com240.py:257-259 | the padding appended by the second loop does not change the value `arg1` carries |
| Comments.GatheredAll | com240.py:238-252 | every match has an entry exactly when there are as many entries as lengths |
| Comments.GatheredAt | com240.py:238-252 | the length recorded for a match is that of its line from the mnemonic on; when every match has an entry, the entry of rank `k` is line `k`'s |
| Comments.GatheredLengths | com240.py:242 | every recorded length is that of some matched line from its mnemonic on |
| Comments.WrittenErrors | com240.py:226-263 | for any matches and entries: `EmptyMax` exactly when nothing matches; after the comments are built, IndexError exactly when a matched line has no entry; no other failure besides a comment's own |
| Comments.CommentsErrors | com240.py:226-263 | `write_comments` fails with `EmptyMax` exactly when no line has a mnemonic; with IndexError exactly when a matched line other than `STOP` has nothing after its mnemonic; and otherwise only as a comment does |
| Comments.UnmatchedLineKept | com240.py:217-223 | on success the length is kept, and a line without a mnemonic is unchanged |
| Comments.WidestLine | com240.py:242-254 | the maximum is the longest matched line from its mnemonic on |
| Comments.CommentsWritten | com240.py:226-263 | `write_comments` as a value; `CommentsErrors`, `UnmatchedLineKept` and `CommentedLine` state its outcome |
| Comments.CommentLaidOut | com240.py:180-202 | a comment that succeeded with `arg1` holding a value lays out its line as `LaidOut` says, a branch with that value |
| Comments.WrittenLine | com240.py:216-263 | for any matches and entries, a matched line keeps its text before the mnemonic, followed by the comment its entry makes, padded against the longest line, with `arg1` holding the value carried through the entries before it |
| Comments.WrittenHasEntries | com240.py:216-263 | on success every matched line has an entry |
| Comments.WrittenLaidOut | com240.py:216-263 | for any matches and entries where only matched lines have entries, the same, stated as `LaidOut`, a branch with the value `Target` gives for its line |
| Comments.TargetIsLatestOperand | com240.py:185-192 | followed line by line, the value of `arg1` at line `k` is the first token of the latest line before `k` whose entry is a three- or two-operand instruction with a token, no such line lying in between; it is unbound exactly when no line before `k` has one |
| Comments.CarriedIsTarget | com240.py:236-252 | when exactly the matched lines have entries, the value carried through the entry list to the entry of line `k` is the one `Target` gives for line `k` |
| Comments.EntryNeedsMatch | com240.py:239-252 | only a line with a mnemonic makes an entry |
| Comments.CommentedLine | com240.py:226-263 | on success a matched line has an entry made of its own tokens. It becomes its text before the mnemonic, then the mnemonic, the gap, the tokens joined by spaces, padding up to the longest line, ` ; ` and the RTL text: "all done" for `STOP`, the instruction's own for three- and two-operand instructions, and, for a branch, that of the first token of the latest earlier line holding a three- or two-operand instruction with a token (`Target`, stated by `TargetIsLatestOperand`) |
| Comments.EntriesOfMatches | com240.py:239-252 | a matched line's entry is the one `Parsed` makes of it |
| Comments.GatherEntries | com240.py:236-252 | the first loop computes `Gathered` |
| Comments.ParseLine | com240.py:243-252 | the body of the first loop makes the entry that `Shaped` gives |
| Comments.SkipSpaces | com240.py:249-252 | the inner loop computes `FirstText` |
| Comments.PadEntries | com240.py:257-259 | the second loop computes `WithPads` |
| Comments.RetrieveComments | com240.py:168-204 | the loop computes `Retrieved` with `arg1` unbound at the start |
| Comments.InsertComments | com240.py:207-223 | the loop leaves the lines as `Inserted` says; it succeeds exactly when there are at least as many comments as matched lines, and fails otherwise with IndexError |
| Comments.WriteComments | com240.py:226-263 | the outcome is `CommentsWritten` of the old lines; a failure before `insert_comments` leaves the lines as they were |
| Comments.FixedCommentMeaning | com240.py:180-192 | corrected builder: an entry with as many tokens as it binds gets its own RTL text, and any other entry fails to unpack |
| Comments.FixedRetrievedAt | com240.py:175-204 | corrected builder: it succeeds exactly when every entry is complete, giving comment `i` as the intended text of entry `i`; otherwise it fails to unpack |
| Comments.FixAgrees | com240.py:184-192 | for programs without branches and shifts, the builder as written gives the intended comments |
| Comments.StaleBranchTarget | com240.py:185-192 | as written, `BRA target` after `ADD d x y` is described as "goto d"; the corrected builder says "goto target" |
| Comments.UnboundBranchTarget | com240.py:190-192 | as written, a branch before any three- or two-operand instruction fails; the corrected builder names its target |
| Comments.ShiftKeyError | com240.py:39-40 | as written, `SLL d x n` raises KeyError; the corrected builder says `d <- x << n` |
| Pipeline.Process | com240.py:320-341 | the stages run in the order `main` runs them; on success the lines are `Processed`, and on failure the original lines are put back |
| Pipeline.Processed | com240.py:320-341 | what `main` leaves in the file, or the error a stage raises; `ThreeModes`, `FormatOnlyKeepsComments` and `RemoveIdempotent` state it for each choice of flags |
| Pipeline.Restore | com240.py:323-339 | the saved copy of the lines is written back |
| Pipeline.ThreeModes | com240.py:326-333 | whatever the flags, `main` runs everything (for `-c`, or when `-r` and `-f` agree), stripping only (`-r`), or the two alignments only (`-f`) |
| Pipeline.FormatOnlyKeepsComments | com240.py:326-330 | `-f` alone does not strip comments, but does realign |
| Pipeline.RemoveIdempotent | com240.py:326-327 | `-r` never fails, and running it twice is running it once |

## Left out

- Reading and writing the file, the check that its name ends in `.asm`, and the `argparse`
  command line are I/O and glue. `Pipeline.Process` works on the lines and on the three
  flags.
- `re`: the compiled pattern is modelled by its meaning, an ordered list of literal
  alternatives tried at each column from left to right. Nothing else of the regex engine is
  modelled.
- `str.format`: only positional `{}`, `{{`, `}}`, named fields (KeyError) and stray braces
  are modelled. Format specifications and conversions do not occur in the table.
- PyStr.Sanitize: upper-cases ASCII letters only. Python's `str.upper` also changes other
  letters (and may change a line's length). Assembly text is ASCII.
- PyStr.IsSpace: covers the ASCII whitespace characters and the Unicode separators that
  `str.isspace` accepts. It is not checked against the Unicode database.
- Comments.GatherEntries: takes a copy of the lines rather than the list itself, because its
  loop only reads them.
- Pipeline.Process: models the in-memory list. In the source the failed list is discarded
  and the saved copy is written to the file; in the model the saved copy is copied back into
  the array, which gives the same file contents.
- Removing, formatting and commenting an already commented file is not proved to reproduce
  it. Only stripping is shown
  to be idempotent (`Stripping.StripAllIdempotent`, `Pipeline.RemoveIdempotent`).
- Exceptions that do not come from the program's text, such as running out of memory, are
  not modelled.
- The pipeline uses the comment builder as written, so that its failures stay visible. The
  corrected builder (`Comments.FixedRetrieved`) agrees with it on every program without
  branches and shifts (`Comments.FixAgrees`). Whole-file layout lemmas are stated for the
  builder as written.

## Findings

| source | as written | input that shows it | evidently intended | confidence | as-written member | corrected member |
|---|---|---|---|---|---|---|
| com240.py:190-192 | A one-operand branch binds its tokens to `arg` but formats `arg1`. That variable is left over from the latest three- or two-operand instruction, or unbound when there is none. | `ADD d x y` then `BRA target` gives "goto d". A lone `BRA target` raises UnboundLocalError. | The branch is described with its own target: "goto target". | not executed | Comments.StaleBranchTarget | Comments.FixedRetrievedAt |
| com240.py:39-40 | The `SLL` and `SLLI` templates name a field `{rs1}`. Positional `format` cannot fill it, so both instructions always raise KeyError. | `SLL d x n` | A positional field, giving `d <- x << n` | not executed | Comments.ShiftKeyError | Render.CorrectedTemplateRendersRtl |
