# Verified models of the parity and release scripts

The scripts under `scripts/` decide whether two terminal captures, two recorded traces, a set of
test manifests or a packaged tree are acceptable. Each decision rests on a parser, a normalizer, a
comparator or an audit loop. This project models that decision logic in Dafny and proves what each
decision means, for all inputs and over all runs.

Every modelled loop is a method with the script's own loop, branches and state, proved equal to a
specification function. The theorems are lemmas about those functions.

- **Screen materializer** (`Sgr`, `SgrText`, `SgrEscapes`, `SgrScreen`, `SgrImage`, `SgrSpots`, `SgrRows`,
  `SgrBoundaries`, `SgrCells`): SGR escapes (ECMA-48,
  section 8.3.117; extended colours as in ITU-T T.416, section 13.1.8) are interpreted into cells,
  trimmed and reprinted. A decoder recovers the trimmed screen from the printed tokens, so the
  normal form is canonical. Every cell is read off the codes in front of it. Moving, inserting, merging and
  dropping escapes is characterised by what the screen shows.
- **Sharded test gate** (`ShardAudit`, `ShardVerdict`, `ShardRuns`, `ShardScript`, `ShardUnits`,
  `ShardReports`, `FailedTests`): shard jobs are a step system that may die at any step. The audit is proved sound
  and complete for arbitrary manifests, then free of false green over every run and free of false
  red on finished runs. Every report and every failing id is read off the manifests.
- **Escape-stream parsers** (`Osc8`, `Osc8RoundTrip`, `Osc8Escapes`, `StyledSegment`, `AnsiStrip`): the OSC 8 extractor (OSC, ST
  and CUP as in ECMA-48, sections 8.3.89, 8.3.143 and 8.3.21) inverts a printer of painted rows. The
  styled slicer hands out the slice that shows the text exactly when its two ways of counting agree.
- **Trace normalizers and comparators** (`AcpTrace`, `AcpRuns`, `AcpChunks`, `PrintJson`, `SteerQueue`,
  `FrameAlign`, `Suffix`): for each, exactly which inputs compare equal, and what it keeps of an input.
- **Packaging** (`Packaging`, `PackagingVerdict`, `PackagingContents`): the pruning copy against a flat
  path filter, what a package holds at every path, and what the validator says of it.
- **Stream readers** (`KittyClient`, `KittyMarkers`, `DaemonProbe`): which results do not depend on how bytes are split
  into reads, and by how much the counts that do depend on it are off.

`Text`, `Order` and `Json` hold the shared string, sorting and JSON vocabulary.

Some stated or expected behaviour does not hold of the code. The code is kept as it is, and the exact
condition is proved:

- The docstring of `_failed_tests` says the closing list is always found. It is found exactly when the
  reader is outside a block at the closing header, which the parity of the headers before it tells
  (`ClosingListFoundIff`, `NoDumpsLosesNames`, `OneNameIsLost`).
- Inserting an SGR sequence that changes no state is not always neutral. It is unless it cuts another
  sequence in two (`IdleEscape`, `CutEscapeShows`).
- Merging two SGR sequences into one is not always neutral. The merged list means the same operations
  exactly when both parameter lists are non-empty and the first ends no extended colour early
  (`MergedOps`). The screen of every frame is kept under a weaker condition: exactly when both ways lead
  to the same style from every style that escapes can select (`MergeAlwaysIff`), as two resets do
  although one of them is written with an empty list (`ResetsMerge`).
- The docstring of `normalize_sgr_boundaries` says that both placements of a row-end reset show the same
  cells. The rewrite that drops them keeps the screen exactly when no later character looks different
  without the dropped resets (`BoundariesKeepIff`); after a styled row it colours the next one
  (`DroppedResetShows`).
- Collapsing repeats before splitting a trace makes the comparison depend on the interleaving, except
  when neither half repeats a frame next to itself or one half is empty (`OrderBlindIff`).
- `styled_segment` counts an unmatched ESC differently from `strip_ansi` (`SegmentIsExact`,
  `StrayEscapeFails`).
- `DaemonProbe.command` sends before its `try`, so a failed send leaves the deadline set
  (`DaemonProbe.Probe.Command`).
- Counting mode pushes and pops read by read misses the markers cut by a read boundary, and only those
  (`PerReadMissesCut`, `CountsMissCutMarkers`, `CutPushIsMissed`).
- The materialized text, unlike its tokens, cannot tell a printed style tag from characters that spell
  one (`SpelledTagCollides`), so a row that shows a style and does not end in a space always has a plain
  double. The text determines the screen exactly when every row shows no style and spells no tag, or
  changes once into a style with a background that its last space shows, and spells no tag that could be
  taken for that change (`TextDeterminesIff`).
- The docstring of `schedule_answers` says every query is answered exactly once. Every query is scheduled
  once, but the answers go out per batch, and the number of batches does depend on the split: it is the
  number of queries exactly when these come in one read at a time (`BatchPerQueryIff`,
  `TwoQueriesOneBatch`).
- The docstring of `leg_a_events` says the last event of a row wins. The code keeps every event of a row, in
  paint order (`RoundTrip`).

## Model

| member | source | states |
|---|---|---|
| Sgr.DecodeRecoversGrid | scripts/bang_parity.py:243-304 | For every frame, decoding the emitted tag and character tokens gives back exactly the trimmed cell rows. |
| Sgr.TokensAreCanonical | scripts/bang_parity.py:230-304 | Two frames have the same token rows exactly when their trimmed screens are equal. |
| Sgr.DecodeOfPrint | scripts/bang_parity.py:295-302 | The decoder inverts the row printer from any running style; this needs that the printer's running background is always that of the last cell. |
| Sgr.TrimIsPrefix | scripts/bang_parity.py:293-294 | Trimming leaves a prefix of the row that does not end in a default-background space. |
| Sgr.GridIsDrawn | scripts/bang_parity.py:246-250 | On every screen, spaces carry no foreground and no attributes. |
| Sgr.Stride | scripts/bang_parity.py:258-291 | The variable-stride code loop consumes at least one code and never reads past the list. |
| SgrText.TagBodyInjective | scripts/bang_parity.py:300 | The text of a style tag determines foreground, background and attributes. |
| SgrText.RowTextInjective | scripts/bang_parity.py:303 | The text of a row without a literal `<` determines its tokens. |
| SgrText.RowsOfText | scripts/bang_parity.py:303-304 | Splitting the materialized text at newlines gives its rows back. |
| SgrText.TextIsCanonical | scripts/bang_parity.py:230-304 | For frames without a literal `<`, the final strings are equal exactly when the trimmed screens are. |
| SgrImage.ScreensAreShowable | scripts/bang_parity.py:230-304 | Exactly which screens frames have: at least one row, every cell drawn in a style that escapes can select, no row ending blank. |
| SgrImage.NormalFormsAreLegal | scripts/bang_parity.py:295-304 | Exactly which token rows are a normal form: each tag announces a new selectable style that the character behind it shows. |
| SgrSpots.OneReadingIff | scripts/bang_parity.py:295-304 | A row's text can be read as legal tokens in one way only exactly when, not ending in a space, it spells no tag in front of a character the tag fits, or, ending in a space, it spells one such tag with a background and none in front of that. |
| SgrRows.RowDeterminedIff | scripts/bang_parity.py:295-304 | That is exactly when the row either shows no style and its characters spell no tag, or is in no style up to some cell and in one style with a background from there to its last space, with no tag spelled by its characters that could be taken for that change. |
| SgrRows.TextDeterminesIff | scripts/bang_parity.py:230-304 | For every frame: the returned string determines the screen exactly when every row of the screen is of one of these two kinds. |
| SgrRows.SpelledOut | scripts/bang_parity.py:230-304 | For a frame with no row that ends in a space there is one in no style at all with the same output; the screens are equal exactly when the first shows no style either. |
| SgrEscapes.RowBoundary | scripts/bang_parity.py:231-242 | An escape at the end of a row or at the start of the next one shows the same screen. |
| SgrEscapes.IdleEscape | scripts/bang_parity.py:231-242 | An escape that does not change the running state may be inserted at a place exactly when it does not cut another escape in two. |
| SgrEscapes.InsideShows | scripts/bang_parity.py:253-255 | Any escape put inside another one shows on the screen, as exactly one more ESC cell. |
| SgrEscapes.CutEscapeShows | scripts/bang_parity.py:253-255 | A frame on which an escape without effect, put inside another one, changes the screen. |
| SgrEscapes.LexCat | scripts/bang_parity.py:253-255 | Two texts are tokenized as one after the other whenever no escape is cut between them. |
| SgrEscapes.AcrossSpaces | scripts/bang_parity.py:246-250 | Moving an escape across a run of spaces keeps the screen exactly when the run is empty or the background stays the same. |
| SgrEscapes.OpsCat | scripts/bang_parity.py:258-291 | Two code lists run together mean the two in a row exactly when no operation of the first swallows a code of the second. |
| SgrEscapes.MergedOps | scripts/bang_parity.py:256-291 | Joining two parameter lists with a semicolon means the two sequences in a row exactly when both are non-empty and no colour is ended early. |
| SgrEscapes.MergeIsExact | scripts/bang_parity.py:253-292 | At one place of a frame, merging keeps the screen whatever text follows exactly when both ways leave the same style there. |
| SgrEscapes.MergeableKeepsScreen | scripts/bang_parity.py:253-292 | When both lists are non-empty and no colour is ended early, merging keeps the screen of every frame around them. |
| SgrImage.MergeAlwaysIff | scripts/bang_parity.py:253-292 | Merging two sequences keeps the screen of every frame they may stand in exactly when both ways lead to the same style from every selectable style. |
| SgrImage.ResetsMerge | scripts/bang_parity.py:256 | Two resets, the second with an empty list, may always be merged although their operation lists differ. |
| SgrEscapes.EarlyColourFails | scripts/bang_parity.py:268-280 | A frame on which merging changes the screen because a palette colour was ended early. |
| SgrEscapes.EmptyFirstFails | scripts/bang_parity.py:256 | A frame on which merging loses the reset of an empty first list. |
| SgrEscapes.EmptySecondFails | scripts/bang_parity.py:256 | A frame on which merging loses the reset of an empty second list. |
| SgrScreen.RunCodes | scripts/bang_parity.py:256-291 | The in-place code loop computes the meaning of the code list. |
| SgrScreen.ReadLine | scripts/bang_parity.py:251-292 | The token loop paints the row the interpreter defines and leaves its style for the next row. |
| SgrScreen.TrimLine | scripts/bang_parity.py:293-294 | The pop loop leaves the trimmed row. |
| SgrScreen.PrintRow | scripts/bang_parity.py:295-303 | The printing loop writes the text of the row's tokens. |
| SgrScreen.MaterializeSgr | scripts/bang_parity.py:230-304 | The whole script function, with state carried across rows, returns the text of the frame's normal form. |
| SgrScreen.PlainTextIsFixed | scripts/bang_parity.py:230-304 | An escape-free frame without trailing blanks materializes to itself. |
| SgrScreen.LiteralTextCollides | scripts/bang_parity.py:295-304 | Where the normal form holds no ESC and no row of it ends in a space: a frame and the literal text of its normal form print alike, and their screens are equal exactly when that normal form holds no tag. |
| SgrScreen.SpelledTagCollides | scripts/bang_parity.py:295-304 | A red character and the text that spells its tag out: the same output, different screens. |
| SgrBoundaries.BoundariesKeepIff | scripts/queue_parity.py:151-161 | The boundary rewrite drops escapes only, and keeps the screen of a frame exactly when every character looks the same in the style with the dropped resets and in the style without them. |
| SgrBoundaries.DroppedResetShows | scripts/queue_parity.py:151-161 | A frame whose second row turns red by the rewrite. |
| SgrCells.OneCode | scripts/bang_parity.py:258-291 | Behind one code, in any style, an attribute is there exactly when the code adds it, or it was there and the code is not 0, not 22 for 1 and 2, and not the attribute plus 20 for 21 and 23 to 29; the colours are those selected, cleared by 0, 39 and 49, or as before. |
| SgrCells.ListDecides | scripts/bang_parity.py:256-291 | Behind any code list, every colour and attribute is there exactly when some group of codes selects it that no later group undoes, or when it was there and nothing undoes it. |
| SgrCells.CellAt | scripts/bang_parity.py:241-251 | Every character stands in the row and column that the newlines and characters in front of it count to. |
| SgrCells.ShownCell | scripts/bang_parity.py:230-292 | Every cell of every frame shows exactly the colours and attributes whose last word among all codes in front of it is for them; a space only its background. |
| SgrCells.EmptyIsReset | scripts/bang_parity.py:256 | An escape with an empty list reads as one with the code 0, wherever it stands. |
| SgrCells.CancelShows | scripts/bang_parity.py:285-290 | On the screen of two characters with a code each: the attribute set for the first stays on the second exactly when the second code does not take it away. |
| SgrCells.DimEnds | scripts/bang_parity.py:285-303 | Dim ended by 22: the text, both tags spelled out. |
| SgrCells.UnderlineEnds | scripts/bang_parity.py:287-303 | Underline ended by 24: the text, both tags spelled out. |
| SgrCells.FullTagText | scripts/bang_parity.py:300 | A tag with two colours and two attributes, spelled out. |
| ShardAudit.LoadManifests | scripts/ci_test_shard_summary.py:39-44 | A shard is loaded exactly when some file has its number, and what is loaded is the last such file in path order. |
| ShardAudit.ScanExecutes | scripts/ci_test_shard_summary.py:66-79 | The scan's executed map holds exactly the listed ids that are enumerated. |
| ShardAudit.ScanFinds | scripts/ci_test_shard_summary.py:66-79 | The scan reports nothing exactly when every listed unit is enumerated and none is listed twice, and then no failure exactly when all exit codes are 0. |
| ShardAudit.OneEnumeration | scripts/ci_test_shard_summary.py:59-60 | The set of enumerations has one element exactly when there are manifests and all enumerate alike. |
| ShardAudit.CheckComplete | scripts/ci_test_shard_summary.py:88-93 | The last loop reports every incomplete shard with its unfinished units, and fails exactly when it takes an id modulo zero. |
| ShardAudit.Audit | scripts/ci_test_shard_summary.py:47-94 | The audit's loops compute the specified verdict, early returns and crash included. |
| ShardVerdict.GreenIff | scripts/ci_test_shard_summary.py:47-94 | With no assumption on the manifests: the audit is green exactly when every shard has a complete manifest, all enumerate alike, the listed units are a duplicate-free enumeration of those ids, and all passed. |
| ShardVerdict.ExtraNeverFires | scripts/ci_test_shard_summary.py:84-86 | The report "assigned outside the enumeration" is unreachable. |
| ShardReports.FailedAre | scripts/ci_test_shard_summary.py:66-79 | Once the audit scans: a unit is failed exactly when it is enumerated and its first listing, shards in order, has a non-zero code. |
| ShardReports.ReportsAre | scripts/ci_test_shard_summary.py:66-94 | Then a report is made exactly when it is due: an id listed but not enumerated, with its shard; an id listed again, with the shard of its first listing and the other; the enumerated ids nobody lists; for an incomplete shard, the ids of its class it did not list. |
| ShardReports.ReportsInOrder | scripts/ci_test_shard_summary.py:66-94 | Reports on units come first, then coverage, then one for each incomplete shard in order. |
| ShardReports.MissingReports | scripts/ci_test_shard_summary.py:51-57 | With shards missing, exactly these are reported, in order, and no unit is failed. |
| ShardReports.DifferentIff | scripts/ci_test_shard_summary.py:59-63 | With none missing, different enumerations are reported exactly when there are no manifests or two that disagree. |
| ShardReports.CrashIff | scripts/ci_test_shard_summary.py:64-90 | The audit raises exactly when manifests agree and there is none of shard 1, or the shard count is zero and an incomplete manifest makes it be divided by. |
| ShardReports.AssignedExactly | scripts/ci_test_shard.py:84-85 | A shard is assigned exactly the enumerated ids whose checksum is congruent to its number less one, in the order of the enumeration. |
| ShardRuns.ActKeepsHonest | scripts/ci_test_shard.py:226-249 | Every action of a job keeps: its results are a prefix of its assigned units in order, and its manifest is a snapshot of such a prefix. |
| ShardRuns.RunKeepsHonest | scripts/ci_test_shard.py:226-249 | Every reachable state of every schedule, crashes included, has only such jobs. |
| ShardRuns.NothingIsLost | scripts/ci_test_shard.py:236-249 | However a run goes on, crashes included, a job's results and the units of its manifest only grow. |
| ShardRuns.CompleteIsFinished | scripts/ci_test_shard.py:179-193 | A manifest that says complete comes from a job that ran and reported all its units. |
| ShardRuns.NoFalseGreen | scripts/ci_test_shard.py:226-249 | In every reachable state, even when jobs saw different enumerations: a green audit means every enumerated unit ran exactly once over all shards with exit code 0, and no job stopped with units unrun. |
| ShardRuns.UniformGreenIff | scripts/ci_test_shard_summary.py:47-94 | For jobs started alike, the audit is green exactly when the enumeration repeats no id and every job's snapshot lists its whole hash class with exit code 0. |
| ShardRuns.NoFalseRed | scripts/ci_test_shard_summary.py:47-94 | When all jobs finish one repeat-free enumeration and every unit passes, the audit is green. |
| ShardRuns.CompleteIffNothingMissing | scripts/ci_test_shard.py:188 | For an honest prefix of a repeat-free class, length counting and set difference agree on completeness. |
| ShardRuns.ClassRepeatsNothing | scripts/ci_test_shard.py:84-85 | The hash classes of a repeat-free enumeration repeat nothing. |
| ShardRuns.RepeatShowsInClass | scripts/ci_test_shard.py:84-85 | An id enumerated twice shows up twice in one hash class. |
| ShardScript.RunShard | scripts/ci_test_shard.py:214-261 | One job writes a manifest for each prefix of its results, the whole list last, each with its shard, total and enumeration and complete exactly when it lists as many units as are assigned, and exits 0 exactly when all passed. |
| ShardScript.RunIsDrive | scripts/ci_test_shard.py:226-249 | In a run of the whole system a job ends where its own actions alone lead, however the jobs interleave. |
| ShardScript.LoopIsASchedule | scripts/ci_test_shard.py:236-249 | In any run in which a shard got through n iterations of its loop, its job has the first n results and has left exactly the n-th manifest of the loop. |
| ShardScript.LoadsWhatWasWritten | scripts/ci_test_shard_summary.py:39-44 | Loading the files of a run, in whatever order they sort, yields the manifests its jobs wrote. |
| ShardUnits.EnumerateUnits | scripts/ci_test_shard.py:88-131 | The metadata loop and the sort return the units of all packages, each as often as it arises, no id in front of a smaller one by the first character that differs. |
| ShardUnits.UnitsAre | scripts/ci_test_shard.py:101-127 | A unit is enumerated exactly when some package of that name has a target yielding it. |
| ShardUnits.UnitsByFlags | scripts/ci_test_shard.py:101-127 | Flag by flag: libraries, binaries and tests unless switched off, examples where switched on, doc tests where some target has them, and examples as a whole where there are any. |
| ShardUnits.IdsSpelled | scripts/ci_test_shard.py:78-81 | How the ids of all kinds are spelled. |
| ShardUnits.IdIsInjective | scripts/ci_test_shard.py:78-81 | Units of packages without a hash sign in their names have equal ids exactly when they are equal. |
| ShardUnits.HashesCollide | scripts/ci_test_shard.py:78-81 | Two units that share an id, one of a package with a hash sign in its name. |
| ShardUnits.IdsRepeatIff | scripts/ci_test_shard.py:128-131 | An id repeats exactly when a unit does. |
| ShardUnits.UnitsAreNamed | scripts/ci_test_shard.py:101-127 | The enumeration names a target exactly for the per-target kinds. |
| FailedTests.FailedTestNames | scripts/ci_test_shard.py:156-176 | The two-state reader returns the first of each name it reads. |
| FailedTests.ClosingListIff | scripts/ci_test_shard.py:163-175 | A closing header and its list are read in full when the reader is outside a block before it, and not at all when it is inside. |
| FailedTests.InBlockIff | scripts/ci_test_shard.py:163-175 | The reader is inside a block exactly when the number of header lines since the last line that settles its state is odd, or even if that line was an indented header. |
| FailedTests.ClosingListFoundIff | scripts/ci_test_shard.py:163-175 | So the names of the closing list are found or all lost by that parity of the lines before its header. |
| FailedTests.UsualOutputIsRead | scripts/ci_test_shard.py:156-176 | On output of the usual form, dumps between the two headers, exactly the listed names are found. |
| FailedTests.NoDumpsLosesNames | scripts/ci_test_shard.py:159-161 | With only blank lines between the two headers every name is lost. |
| FailedTests.OneNameIsLost | scripts/ci_test_shard.py:159-161 | Four lines of output on which the one listed name is lost. |
| FailedTests.UniqueIsSet | scripts/ci_test_shard.py:176 | Deduplication keeps the set of names and repeats none. |
| FailedTests.UniqueExactly | scripts/ci_test_shard.py:176 | It keeps the first of each name, in order. |
| FailedTests.NameLine | scripts/ci_test_shard.py:172-173 | A name indented by four spaces is read as it is, unless it begins with an ellipsis. |
| FailedTests.EllipsisEnds | scripts/ci_test_shard.py:172-175 | An indented ellipsis ends the block. |
| FailedTests.CargoOutputIsRead | scripts/ci_test_shard.py:156-176 | Of cargo's output with dumps between the two headers, exactly the indented names are read, whatever names and dumps are. |
| Osc8.EscapeAt | scripts/osc8_parity.py:245-293 | One loop step: what is consumed begins at the ESC, and scanning on from there equals scanning from the ESC. |
| Osc8.LegAEvents | scripts/osc8_parity.py:231-294 | The ESC-by-ESC loop, which skips consumed terminators, returns the events of the left-to-right scan. |
| Osc8RoundTrip.ScanOfRender | scripts/osc8_parity.py:245-294 | Scanning the bytes of any sequence of printed pieces does what the pieces mean, from any state. |
| Osc8RoundTrip.PlayHyperlink | scripts/osc8_parity.py:264-273 | A hyperlink with SGR and other OSC payloads anywhere inside is recorded on the cursor's row with its printable ink, whatever was pending. |
| Osc8RoundTrip.RoundTrip | scripts/osc8_parity.py:231-294 | From the bytes of any painted rows, the events are exactly each row's urls in paint order, each with the bytes 0x20 to 0x7e of its ink as label. |
| Osc8RoundTrip.VisibleIff | scripts/osc8_parity.py:268 | A label is the bytes 0x20 to 0x7e of the ink, all of them, in order, and no others. |
| Osc8RoundTrip.PrintableIsVisible | scripts/osc8_parity.py:268 | Ink of these bytes comes back unchanged. |
| Osc8RoundTrip.OthersVanish | scripts/osc8_parity.py:268 | Any other byte, wherever inserted, changes no label. |
| Osc8RoundTrip.WrappedKeepsFirstRow | scripts/osc8_parity.py:278-286 | A link that moves to another row, styled as it may be on both, keeps only the part on its first row. |
| Osc8RoundTrip.ReopenDropsOuter | scripts/osc8_parity.py:265-266 | A link opened inside an open one replaces it, whatever is inside either; the outer one is never reported. |
| Osc8Escapes.MoveIsRead | scripts/osc8_parity.py:275-287 | ESC, bracket, digits, semicolon, digits, H moves the cursor to that row. |
| Osc8Escapes.CsiIsSkipped | scripts/osc8_parity.py:288-291 | Any other parameters of digits, semicolons and question marks with a final letter are skipped and do nothing. |
| Osc8Escapes.BrokenCsi | scripts/osc8_parity.py:289-293 | Without the letter only the ESC is dropped. |
| Osc8Escapes.LoneEscape | scripts/osc8_parity.py:245-252 | An ESC in front of anything else is text. |
| Osc8Escapes.OscIsSkipped | scripts/osc8_parity.py:253-262 | Another OSC is skipped up to the byte 7 or its ESC backslash. |
| Osc8Escapes.SameRowKeeps | scripts/osc8_parity.py:277-286 | A move within the row leaves the link open; its ink on both sides is the label. |
| StyledSegment.FindsFirst | scripts/queue_parity.py:215 | The reported position is the first occurrence. |
| StyledSegment.StyledSegment | scripts/queue_parity.py:207-238 | The slicer returns nothing when the text is absent, else what the loop's two counters collect. |
| StyledSegment.SegmentIsSlice | scripts/queue_parity.py:219-238 | What is collected is always one contiguous run of the line's sequences and characters. |
| StyledSegment.LineInThree | scripts/queue_parity.py:219-238 | Such a run is a contiguous slice of the line. |
| StyledSegment.SegmentIsExact | scripts/queue_parity.py:207-238 | The two positions between which the result is cut are those of the found occurrence exactly when no unmatched ESC precedes that, and none is in the text unless nothing follows. |
| StyledSegment.SegmentShows | scripts/queue_parity.py:207-238 | On every line, stripping the result gives the part of the stripped line between the non-ESC characters that the two positions count to. |
| StyledSegment.SegmentShowsText | scripts/queue_parity.py:207-238 | In that case stripping the result gives exactly the text. |
| StyledSegment.SliceEnds | scripts/queue_parity.py:226-231 | That slice ends in the text's last character and begins right behind the character before it: escapes at the start are in, escapes at the end are out. |
| StyledSegment.PlainOfSlice | scripts/queue_parity.py:147-148 | Stripping commutes with slicing at whole sequences and characters. |
| StyledSegment.SliceReadsBack | scripts/queue_parity.py:144-148 | A slice of whole sequences and characters is read back as the same ones, so no escape appears or disappears by cutting. |
| StyledSegment.StrayEscapeFails | scripts/queue_parity.py:222-237 | A line with a lone ESC on which the slicer hands out another text. |
| AnsiStrip.SequenceGoes | scripts/queue_parity.py:144-148 | Stripping removes an ESC, a bracket, digits and semicolons, and a letter, whatever follows. |
| AnsiStrip.BrokenStays | scripts/queue_parity.py:144-148 | Without the letter the ESC stays, and stripping goes on behind it. |
| AnsiStrip.OtherStays | scripts/queue_parity.py:144-148 | So does an ESC without a bracket, and every other character. |
| AcpTrace.Coalesce | scripts/acp_compaction_parity.py:195-220 | On all frames on which it does not raise, chunks with any text included as long as only strings are joined, the merging loop, which appends to chunk objects in place, ends with objects that hold the specified joining; every chunk object is new, and no frame object it was given is changed. |
| AcpTrace.Normalize | scripts/acp_compaction_parity.py:188-267 | On all such frames whose metadata the second loop can search, lists and strings included, both loops together compute the specified normal form and change no frame object. |
| AcpTrace.GranularityIrrelevant | scripts/acp_compaction_parity.py:189-194 | Splitting any chunk into consecutive chunks of its kind and message never changes the normal form. |
| AcpTrace.EntriesOf | scripts/acp_compaction_parity.py:195-220 | After joining, no two neighbouring chunks belong to one message. |
| Json.AbsentIsNull | scripts/acp_compaction_parity.py:203 | An absent key reads like an explicit null. |
| AcpChunks.OneEntryIff | scripts/acp_compaction_parity.py:196-220 | Two neighbouring frames end in one entry exactly when both are message chunks or both are thought chunks, of one message; otherwise the second opens its own. |
| AcpChunks.OwnEntry | scripts/acp_compaction_parity.py:196-220 | A chunk that opens an entry keeps its kind, message and text, no text read as the empty one; any other frame passes through. |
| AcpChunks.SplittingIsNeutral | scripts/acp_compaction_parity.py:189-211 | Of either kind: sending a text in two chunks instead of one changes no normal form. |
| AcpChunks.JoinedAreWritten | scripts/acp_compaction_parity.py:224-246 | Every joined entry of every trace is written with exactly these keys, and with its position. |
| AcpRuns.EntriesAreRuns | scripts/acp_compaction_parity.py:195-220 | The joined entries are the one way to cut a trace into consecutive segments, each all chunks of one message or one other frame, with no two neighbours of one message; each carries the concatenated text of its segment. |
| AcpTrace.TextConserved | scripts/acp_compaction_parity.py:204-211 | The text of every message is conserved; a message with a text that is no string stays marked as such. |
| AcpTrace.SequenceIsPosition | scripts/acp_compaction_parity.py:223-265 | Every carried event sequence is its frame's 1-based position, and every chunk carries one. |
| AcpTrace.NormalizeIsIdempotent | scripts/acp_compaction_parity.py:188-267 | Normalizing twice is normalizing once, for a scrub that has nothing left to do on its own output. |
| AcpTrace.ErasingIsStable | scripts/acp_compaction_parity.py:247 | Erasing 36-character session ids at any depth is a scrub that keeps non-chunk frames non-chunk and has nothing left to do on its own output, restamped or not. |
| AcpRuns.EqualTraces | scripts/acp_compaction_parity.py:188-267 | Two traces normalize alike exactly when they can be cut into fully joined runs that agree one by one: the same message text, or frames that differ at most in scrubbed fields and the number they carry. |
| PrintJson.CollapseIsHeads | scripts/print_json_parity.py:284-292 | The collapse keeps exactly the events that do not repeat the delta of their direct predecessor in the stream. |
| PrintJson.KeptExactly | scripts/print_json_parity.py:284-292 | An event is dropped exactly when it and its direct predecessor in the stream are message updates with equal `assistantMessageEvent`; all others are kept in order. |
| PrintJson.RepeatsVanish | scripts/print_json_parity.py:284-292 | Inserting or removing a repeat right after an equal delta never changes the collapsed stream. |
| PrintJson.CollapseKeeps | scripts/print_json_parity.py:278-292 | All other events stay in order, no two neighbouring kept updates share a delta, and collapsing again changes nothing. |
| PrintJson.NormalizeEvents | scripts/print_json_parity.py:273-293 | The loop and the hoist compute the specified stream, or raise exactly when the hoist does. |
| PrintJson.FloatCheckpointAgentEnd | scripts/print_json_parity.py:308-325 | The search loop with its slices computes the hoist; it raises exactly when, behind a candidate and refinement events only, it meets a message event whose message is no object. |
| PrintJson.OneQualifies | scripts/print_json_parity.py:316-323 | At most one index qualifies. |
| PrintJson.HoistPermutes | scripts/print_json_parity.py:308-325 | The result is a permutation: the qualifying agent_end goes to the tail and all else keeps its order; with none, nothing changes. |
| PrintJson.HoistExactly | scripts/print_json_parity.py:296-325 | An `agent_end` behind a `turn_end` and in front of refinement events only, at least one, goes to the tail; without one nothing changes. |
| PrintJson.RaisesExactly | scripts/print_json_parity.py:296-325 | The hoist raises exactly when, behind such an `agent_end` and refinement events only, there is a message event whose message is no object. |
| PrintJson.HoistedIsStable | scripts/print_json_parity.py:308-325 | Hoisting is idempotent. |
| PrintJson.EqualHoists | scripts/print_json_parity.py:308-325 | Two streams hoist alike exactly when they are equal or one is the other with its qualifying agent_end moved behind the refinement events. |
| PrintJson.EqualStreams | scripts/print_json_parity.py:273-325 | Two streams normalize alike exactly when the events that open a run are the same in both, up to where that agent_end stands. |
| SteerQueue.Norm | scripts/steer_queue_parity.py:773-793 | The two loops compute the collapsed compared surface. |
| SteerQueue.SurfaceExactly | scripts/steer_queue_parity.py:773-786 | The compared surface is exactly the shaped frames of the events of the ten types that, when shaped, are no message update and have no custom role and no custom type, in order. |
| SteerQueue.DedupExactly | scripts/steer_queue_parity.py:787-793 | Collapsing drops exactly the frames equal to the one right in front of them. |
| SteerQueue.RunDiff | scripts/steer_queue_parity.py:795-811 | The verdict is equality of both collapsed halves. |
| SteerQueue.HalvesExactly | scripts/steer_queue_parity.py:803-806 | The two halves are exactly the action updates and everything else, each in order. |
| SteerQueue.DedupFilterDedup | scripts/steer_queue_parity.py:787-806 | Collapsing before a filter adds nothing to collapsing after it. |
| SteerQueue.DedupLeavesNone | scripts/steer_queue_parity.py:787-793 | Collapsing leaves no equal neighbours. |
| SteerQueue.DistinctHalvesMatch | scripts/steer_queue_parity.py:797-811 | When neither half repeats itself, every interleaving compares as the halves themselves. |
| SteerQueue.GapShows | scripts/steer_queue_parity.py:797-811 | A repeating half compares differently with the other half behind it and in its gap. |
| SteerQueue.OrderBlindIff | scripts/steer_queue_parity.py:797-811 | The comparison is independent of the interleaving exactly when neither half repeats a frame next to itself, or one half is empty. |
| SteerQueue.SameHalvesMatch | scripts/steer_queue_parity.py:795-811 | Two recordings of the same repeat-free halves match however they interleave. |
| FrameAlign.AlignFrameTops | scripts/compact_parity.py:281-311 | The suffix loop and the slices compute the specified alignment. |
| FrameAlign.AlignedEqualIff | scripts/compact_parity.py:281-311 | Aligned frames are equal exactly when the frames were, or the shorter is the bottom of the longer with at most as many rows missing as are shown. |
| FrameAlign.OnlyTheLeakIsDropped | scripts/compact_parity.py:309-311 | Only the length difference, off the top of the longer frame, is ever dropped. |
| FrameAlign.SignatureIsWords | scripts/compact_parity.py:253-254 | The signature of a block is its words with one space between. |
| FrameAlign.BlockExactly | scripts/compact_parity.py:248-253 | There is a block exactly when some row of the stripped frame has the heading; it is the rows from the first such row on. |
| FrameAlign.GutterGoes | scripts/compact_parity.py:253 | The gutter's two characters become one space wherever they stand. |
| FrameAlign.NoGutterStays | scripts/compact_parity.py:253 | Text without them stays. |
| FrameAlign.SameSignatureIff | scripts/compact_parity.py:253-254 | Two blocks have one signature exactly when they have the same words in order. |
| FrameAlign.SignaturesEqualIff | scripts/compact_parity.py:231-254 | Two frames pass the signature compare exactly when neither has the header, or both have and their blocks read as the same words. |
| Suffix.AgreeUpTo | scripts/info_commands_parity.py:525 | Suffixes of length k agree exactly up to the longest common one. |
| Suffix.BinarySearch | scripts/info_commands_parity.py:522-530 | The binary search finds the longest common suffix length, and the verdict is that it exceeds nine tenths of the shorter text. |
| Suffix.CountUp | scripts/compact_parity.py:302-304 | The linear count finds the same length. |
| Packaging.PruneIsFilter | scripts/package_release.py:170-182 | Pruning equals filtering: what the walk visits at a path is what the tree has there if every component passes, else nothing. |
| Packaging.ListingIsVisit | scripts/package_release.py:170-182 | The walk order lists exactly the visited items. |
| Packaging.VisitPaths | scripts/package_release.py:170-182 | Every visited path continues the walk's own path with the name of one of its entries. |
| Packaging.StageDir.Walk | scripts/package_release.py:170-182 | The walk adds exactly the visited items, or stops at the first symlink in walk order and leaves exactly the items in front of it. |
| Packaging.StageDir.CopyTree | scripts/package_release.py:158-185 | The copy fails exactly on a missing source or a visited symlink; else it adds the whole asset, and on a symlink what the walk met before it. |
| Packaging.StageDir.Stage | scripts/package_release.py:204-239 | Staging succeeds exactly when both assets copy and README.md and LICENSE exist, and leaves exactly the staged tree; otherwise it reports the first step that fails. |
| PackagingVerdict.AssetIsFilter | scripts/package_release.py:147-185 | A file or directory is staged exactly when the tree has it and every path component passes the filter. |
| PackagingContents.ShipsIff | scripts/package_release.py:75-85 | The names that ship, one by one, for the runtime tree and for the other. |
| PackagingContents.StagedExactly | scripts/package_release.py:204-239 | At every path of the staged package there is what the sources have there: single files with their contents, the program executable, of the trees files and directories with only shipping names on the way, and nothing else. |
| PackagingVerdict.AbortsIff | scripts/package_release.py:173-176 | The copy aborts exactly when a symlink lies on an included path. |
| PackagingVerdict.StagedIsClean | scripts/package_release.py:252-256 | Nothing staged is a symlink or fails the base filter. |
| PackagingVerdict.Validate | scripts/package_release.py:242-256 | The validator passes exactly the trees with all required entries, an executable program and nothing unexpected, and otherwise names what is missing first, or an unexpected entry. |
| PackagingVerdict.StagedValidatesIff | scripts/package_release.py:242-256 | A staged package validates exactly when the runtime sources are complete, and is never rejected for an unexpected asset or symlink. |
| PackagingVerdict.Package | scripts/package_release.py:204-256 | Staging and validating end to end: success exactly when the assets copy and the runtime sources are complete, and the first failure of either step otherwise. |
| KittyClient.CountIsOccurrences | scripts/left_arrow_pty_repro.py:268 | For a marker whose first byte occurs in it only once, the non-overlapping count is the number of occurrences. |
| KittyClient.OccurrencesCat | scripts/left_arrow_pty_repro.py:259-261 | Occurrences in a concatenation are those of both parts and those that straddle the cut. |
| KittyClient.PerReadMissesCut | scripts/left_arrow_pty_repro.py:259-261 | Counts taken read by read fall short of the true count by exactly the markers cut at a read boundary. |
| KittyClient.PerReadExact | scripts/left_arrow_pty_repro.py:259-261 | They never exceed the true count, and equal it exactly when no marker is cut. |
| KittyClient.CutPushIsMissed | scripts/left_arrow_pty_repro.py:259-261 | Two reads that cut one push marker, which is not counted. |
| KittyClient.BatchesBounded | scripts/left_arrow_pty_repro.py:265-276 | Reads that reveal a query are at most the queries, and there is one as soon as there is a query. |
| KittyClient.BatchPerQueryIff | scripts/left_arrow_pty_repro.py:265-276 | There is one batch for every query exactly when no read adds more than one query. |
| KittyClient.TwoQueriesOneBatch | scripts/left_arrow_pty_repro.py:265-276 | The same bytes in one read and in two: two queries, answered by one batch and by two. |
| KittyClient.PtyClient.PumpOnce | scripts/left_arrow_pty_repro.py:250-263 | One pump appends a non-empty read and keeps: counts per read, queries scheduled equal to queries in the stream, one batch per revealing read, every batch waiting, half written or written. |
| KittyClient.PtyClient.ScheduleAnswers | scripts/left_arrow_pty_repro.py:265-283 | With answering on, all queries seen are scheduled, in one batch if there are new ones, written at once or put on a timer; with it off, nothing changes. |
| KittyClient.PtyClient.WriteFlags | scripts/left_arrow_pty_repro.py:278-281 | A timer's first write keeps the invariant. |
| KittyClient.PtyClient.WriteAttributes | scripts/left_arrow_pty_repro.py:282-283 | The second write, interleaved with other timers as it may be, keeps it too. |
| KittyClient.EveryBatchIsWritten | scripts/left_arrow_pty_repro.py:265-283 | Once all timers have gone off, each batch has written its flags and its attributes answer, and nothing else was written. |
| KittyClient.SplitsAreIrrelevant | scripts/left_arrow_pty_repro.py:250-276 | Clients that received the same bytes in different reads scheduled the same number of queries, with at most one batch each. |
| KittyClient.CountsMissCutMarkers | scripts/left_arrow_pty_repro.py:259-261 | A client's pushes and pops are the occurrences in its stream less the ones cut at a read boundary. |
| KittyMarkers.ClientCounts | scripts/left_arrow_pty_repro.py:104-110 | By the places of their bytes in the stream: an answering client has scheduled all queries, and counted all pushes and pops but those cut by the end of a read. |
| KittyMarkers.AnswersAlternate | scripts/left_arrow_pty_repro.py:104-105 | Without a delay, the flags and the attributes answer go out in turn, byte for byte, one pair a batch. |
| KittyMarkers.OnlyTheAnswers | scripts/left_arrow_pty_repro.py:104-105 | With one, nothing but these two is ever written. |
| DaemonProbe.Probe.ReadLine | scripts/latency_trace_probe.py:38-56 | A line taken, its newline, the buffer and the unread bytes are the old buffer and unread bytes; on any failure before a line nothing is lost. The deadline is exceeded exactly when the last clock reading is past it, or at it in front of a receive, and every reading before was in time; a closed or silent socket is reported only when no line is buffered and the receive after those that delivered bytes was one. |
| DaemonProbe.Probe.Command | scripts/latency_trace_probe.py:58-69 | The lines read and what is left are the old stream; success returns the first response with the requested id; a closed or silent socket is reported only with no line left in the buffer; the deadline lies the timeout behind the first clock reading, is exceeded only at or past it and kept to otherwise, and is cleared exactly when sending succeeded. |
| DaemonProbe.Probe.Handshake | scripts/latency_trace_probe.py:74-82 | The first line is taken and returned parsed, unless no line came: then nothing is lost, the deadline was exceeded exactly when a clock reading was late, and a closed or silent socket is reported only as in `ReadLine`. The deadline is cleared on every exit. |
| DaemonProbe.LinesAreDetermined | scripts/latency_trace_probe.py:44-55 | However the stream was split into receives, the first k lines and the rest are the same. |
| DaemonProbe.FirstResponse | scripts/latency_trace_probe.py:64-67 | Two successful commands over the same stream, split differently, read the same lines and return the same response. |

## Left out

- SgrText.TextIsCanonical: a condition on both frames that suffices, not the exact one; the exact one for a frame against all others is TextDeterminesIff, and on tokens the equivalence is unconditional.
- SgrScreen.LiteralTextCollides: about the normal form taken as a frame itself, so it excludes texts in which an ESC would be read again; SpelledOut needs no such condition.
- AcpTrace.NormalizeIsIdempotent: the scrub of session ids and token counts by regular expression is a parameter; it is required to keep non-chunk frames non-chunk and to have nothing left to do on its own output. ErasingIsStable shows this of the session id rule, on parsed values.
- AcpTrace.Normalize: frames on which the script raises are outside the model: those that are no objects, whose `params` is none, whose `update`, `content` or outer metadata is none where the loops look inside it, or whose metadata admits no search for an event sequence or holds one that cannot be replaced. So are traces in which two neighbouring chunks of one message do not both have strings for text: there the script raises, or adds numbers or lists. A frame object holds its parsed value as one piece, so sharing inside a frame is not modelled.
- PrintJson.NormalizeEvents: starts from parsed and scrubbed events that are JSON objects.
- SteerQueue.Norm: the shaping of one event's fields is a parameter.
- FrameAlign.SignaturesEqualIff: which characters are white space is a parameter that includes the space.
- FailedTests.FailedTestNames: which characters are white space is a parameter; the reading of the child process is not modelled.
- ShardAudit.Audit: problems carry sets where the script prints sorted lists; the text of a message is not modelled. The checksum is an arbitrary function; manifest files are their parsed values.
- ShardRuns.NoFalseGreen: replacing the manifest file is one atomic step, as the script's rename intends.
- ShardUnits.IdIsInjective: package names with a hash sign are excluded; HashesCollide shows two units that share an id there.
- ShardUnits.EnumerateUnits: the sort is an insertion sort in place of the library's.
- Osc8RoundTrip.RoundTrip: urls and labels stay bytes; UTF-8 decoding with replacement is not modelled.
- StyledSegment.SegmentIsExact: about the positions of the cut; what the returned string shows is SegmentIsSlice and SegmentShows.
- StyledSegment.StyledSegment: the loop walks the remaining line in place of an index into it.
- SgrScreen.ReadLine: the token loop walks the remaining line in place of match positions.
- Suffix.BinarySearch: the nine-tenths factor is the exact rational, not the floating-point constant.
- Packaging.StageDir.Walk: file times and mode bits other than the executable one; a tree has regular files, directories and symlinks only.
- PackagingVerdict.Validate: the tree is scanned path by path in no fixed order, so which of several unexpected entries is reported first is open; a symlink in place of a required entry counts as missing.
- KittyClient.PtyClient.ScheduleAnswers: time is not modelled, only that a timer goes off and writes twice; a write that fails counts as written.
- DaemonProbe.Probe.Command: the clock is an arbitrary sequence of readings, and a receive that would block forever counts as a socket timeout.
- SgrBoundaries.BoundariesKeepIff: the library's regular-expression replacement is a recursive function that drops matches from the left.
- `tray_segment_rows`, the row selectors and the scroll filters around the comparators: each is one filter over rows.
- `write_tar`, gzip and digest computation: byte formats of libraries.
- Reports, summaries, `workspace_version` and argument parsing: formatting.
- The Rust daemon and terminal interface, tmux and pty driving, sandboxes, subprocesses and mock providers.
- `custom_message_parity.py` and `command_dispatch_parity.py`: their aligner and reader repeat the modelled ones.
