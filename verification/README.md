# Verified model of the repository's tooling

The repository holds an inference engine and, around it, Python tooling that decides whether a change may land and
whether a number may be published: scanners over shell and Rust text, a duplicate finder, ratchets over commit
histories, graph closures over make rules and scripts, and the pipeline from benchmark passes to database rows and
back. This project models that tooling in Dafny and proves what its comments promise, on all inputs. Where a promise
turned out to hold only under a condition, the condition is proved to be exact, with an input that breaks it.

`dafny verify dfyconfig.toml` checks the whole project.

## Modules

| module | models |
|---|---|
| `Chars`, `StringOrder`, `Powers` | character classes, physical lines, Python's string order and sorting, powers of two |
| `ShellText`, `ShellScanner`, `ShellAligned`, `ShellNesting` | `clean_shell` as a state machine, its loops, where it keeps columns, nested `$( )` |
| `CommandLines`, `ShellCommands`, `ShellOperators` | continued lines and columns, `split_commands`, `split_operators` |
| `RustArms`, `RustArmsPrinter`, `RustMatchSites` | brackets, `match` arms and arm blocks of Rust text, and a printer they undo |
| `RustSpans`, `RustCode`, `RustCodePrinter`, `RustCodeStable`, `RustBlankText` | the two scanners that blank comments and literals in place, and a printer the first one undoes |
| `LineMatch`, `Twins` | Ratcliff/Obershelp matching over folded lines, and the twin rule with its prefilter |
| `PinList`, `PinHistory` | the pin list against the violations of one tree, and over a history of commits |
| `Aggregate`, `AggregateRun`, `Records`, `Requery`, `RequeryScan`, `RoundTrip`, `ReadBack` | passes, report, records, the re-query and the whole round trip |
| `MakeClosure`, `CallGraph`, `Sourcing`, `BoundStrings` | the closures and fixpoints |
| `FixedPrompt`, `FixedPromptRun` | the exact token fit and its memoising counter |
| `DocResolve`, `DocRefs`, `DocCollect`, `DocHistory` | references into the docs, their comparison with a base, how a tree's references come about, and chains of commits |
| `KvBytes`, `KvStack` | the KV cache byte model of one layer and of a stack |
| `ReleaseFlags`, `RecordQueue` | the release build's flags, the one-at-a-time record queue |

Text is `seq<char>`, a float is a `real`, a dictionary is a `map` with its key order kept where the code reads it,
and an exception is an error value. A loop of the source is a method with a loop, proved equal to a function or to
a closed statement; a class or a list the source changes in place is a class or an array.

## Findings

- `clean_shell` without `join` keeps columns exactly when no here-document takes its tag from a later line and no
  unterminated last line is skipped as a here-document body (`ShellAligned.CleanedAligned`, with
  `SplitTagExample` and `OverrunExample`). Terminated text whose tags stay on their line is always safe.
- `split_commands` undoes the quoting printer exactly when no command is empty and no word is `--`.
- The untyped bracket count of `block_end` agrees with a stack that tells bracket kinds apart wherever that stack
  finds no mismatch. The first arm of a `match` is given the line of the opening brace, which is its pattern's exactly
  when no line break stands between them (`RustArmsPrinter.ArmLines`).
- git lists a move only from a path of the base that is no longer tracked to one the base did not have. The old path
  can still be there as an untracked file, and then a `lib-run` pin can gain members: with `b` moved from `a` and an
  untracked `a` the members `a` and `b` pass against `a` (`PinHistory.LibRunGrows`). An accepted pin embeds into the
  base's exactly when no new member moved away from a path that is still a member (`LibRunEmbeds`).
- Nor do such moves keep a rule's paths from growing in number: with `b` moved from `a`, and `a` there again as an
  untracked file, one pin passes as two (`PinHistory.KeptOldPathDoubles`). Renames that give no two files one old path
  keep the old paths of a tree apart exactly when no file moved from a path that is still a file and has not moved
  itself (`ApartIffNoneKept`).
- The growth of a pin list is compared only when both commits hold one. A commit without a list passes only when
  nothing at all is violated (`PinHistory.NoListNoViolation`); the next one may then bring in a list together with any
  violation that can be pinned (`ListBroughtBack`). Of two commits that pass, every violation of the second goes back
  to one of the first exactly when the first holds a list or the second violates nothing (`ShrinksIffListStays`).
- A sample row filed under a dataset and budget that the result has no cell for is not reported by the re-query
  (`ReadBack.UnknownSlotIsUnnoticed`). Every row a cell counts is: one more or one less shows.
- The correction loop of `fit` is documented as making up for the cost of joining fillers to the prefix. With a
  positive cost it succeeds only when no filler or exactly one is needed, though other numbers of fillers land on the
  target (`FixedPrompt.JoiningCharge`). Where joining saves tokens it can correct its first guess, exactly when the
  correction stays within the price of a filler and above zero (`JoiningSaves`: saving one token at four a filler, 15
  missing tokens are met by four). With a constant price and no joining cost it succeeds exactly when some number lands.
- `inherited` collects every file reached through sourcing but not the starting file itself on a cycle of two files
  or more, though it is collected when it sources itself (`Sourcing.CycleLeavesOutItself`); it collects all of them
  exactly when no longer cycle leads back (`AllReachedUnlessCyclic`).
- A broken reference in CHANGELOG.md counts at the base but not at the head, so each passing commit may repeat it in
  another file, to any number (`DocHistory.ChangelogLends`; `LentToReadme` is the smallest case). A doc cannot: it is
  edited by the addition, and then it fails (`EditedDocLendsNothing`). From a tree that passes alone, no passing commit
  that removes no file and leaves the docs and the changelog as they are breaks anything more often, exactly when the
  changelog cites nothing broken (`HoldsIffChangelogClean`). Over whole chains, whatever docs come and go, nothing is
  broken more often where the changelogs cite nothing broken (`NeverRises`).
- An ambiguous quote that starts with a digit is counted by section number: it is reported exactly when two headings
  have it for their number (`DocResolve.DigitQuoteIsCountedByNumber`, with `DigitQuoteHasNoCarrier` and
  `DigitQuoteIsCounted` for the two sides). The pattern of a quote lets such a phrase in only behind a backtick, which
  is dropped before the phrase is looked up.
- The result of a section reference to a heading titled `body text` reads like the mark of a quote found in the prose,
  so it passes however many headings have that title (`DocRefs.BodyTextSectionPasses`). Any other section that several
  headings answer to is reported (`AmbiguousIsReported`).
- An affine KV side of sixteen bits or more is held as bf16 but its read is priced as codes and scales. It reads more
  than it holds exactly when the bits over sixteen and the scales come to a byte (`KvBytes.WideSideReadsMore`), and the
  slack of eight bytes a layer holds at every shape exactly for codecs without such a side (`SlackIffNarrow`).
- The emitted release flags are read back unless config.toml holds an empty codegen option, which is the token
  `--codegen=`, or an empty token behind a bare `-C` or `--codegen`; then they never are
  (`ReleaseFlags.EmittedReadsBack`).
- A recorder that deletes a record it refuses leaves it in neither directory, though the message says it was kept
  (`RecordQueue.FailedAreKept` gives the exact condition). A record stays in the queue exactly when the rename that
  takes it back out raises (`RecordQueue.NothingIsLost`).

## Model

| member | source | states |
|---|---|---|
| ShellScanner.CleanShell | scripts/report/scripts_gate_text.py:43-135 | the scanning loop, with its quotes, substitutions, arithmetic, comments and here-documents, yields the entries of the state machine for every text and every option |
| ShellScanner.SkipSubstitution | scripts/report/scripts_gate_text.py:188-218 | the loops that skip a `$( ... )` end where the recursive reading of quotes and parentheses ends |
| ShellScanner.ScanArithmetic | scripts/report/scripts_gate_text.py:138-148 | the end of `((...))` on its own line, or the position itself |
| ShellScanner.BlankSingleQuoted | scripts/report/scripts_gate_text.py:163-185 | single-quoted bodies of a substitution become spaces, line breaks and length stay |
| ShellScanner.SkipHeredocs | scripts/report/scripts_gate_text.py:221-231 | one entry for every body line up to each terminator, in the order of the pending tags |
| ShellAligned.StepKeepsGrid | scripts/report/scripts_gate_text.py:60-135 | every step keeps entry k standing in for physical line k, column by column, unless it reads a tag from a later line or overruns an unterminated last line |
| ShellAligned.CleanedAligned | scripts/report/scripts_gate_text.py:43-60 | without `join` the entries line up with the physical lines if and only if the scan meets neither of the two |
| ShellAligned.TerminatedTextAligned | scripts/report/scripts_gate_text.py:43-60 | newline-terminated text whose here-document tags follow `<<` on the same line is always aligned |
| ShellAligned.SplitTagExample | scripts/report/scripts_gate_text.py:43-60 | a tag on the next line breaks the alignment |
| ShellAligned.OverrunExample | scripts/report/scripts_gate_text.py:221-231 | an unterminated last line inside a here-document breaks the alignment |
| ShellNesting.SubstitutionEnds | scripts/report/scripts_gate_text.py:188-218 | for every nesting of quotes, escapes, groups and further substitutions the scan ends right behind its own closing parenthesis |
| ShellCommands.SplitCommands | scripts/report/scripts_gate_text.py:329-391 | the reading loop yields the commands of the word-by-word reading, none empty and none with a `--` word |
| ShellCommands.PrintedCommandsReadBack | scripts/report/scripts_gate_text.py:329-391 | commands of arbitrary words, each double-quoted with `"` and `\` escaped, are recovered exactly if and only if no command is empty and no word is `--` |
| ShellOperators.SplitOperators | scripts/report/scripts_gate_recall.py:102-142 | the loop yields the segments and operators of the recursive reading |
| ShellOperators.NothingLost | scripts/report/scripts_gate_recall.py:102-142 | segments and operators in turn give back the command line, one segment more than operators |
| ShellOperators.PrintedLineSplits | scripts/report/scripts_gate_recall.py:102-142 | a line built from quoted, escaped, substituted, redirecting and plain parts is split at exactly its own operators: quoted text, substitutions and redirections hold none |
| CommandLines.CommandLines | scripts/report/scripts_gate_content.py:225-242 | the commands cover every physical line once and in order, each ending with its first line that is not continued |
| CommandLines.PositionInPieces | scripts/report/scripts_gate_content.py:245-248 | every position of a joined command maps to a line and column that holds its character |
| CommandLines.LinesAreSlices | scripts/report/scripts_gate_content.py:245-248 | physical line k is the slice of the text at the offset its predecessors add up to |
| CommandLines.ColumnsMapBack | scripts/report/scripts_gate_content.py:225-248 | every column of every command of aligned entries maps back to its own offset of the source text, which holds that character unless it was blanked |
| RustArms.BlockEnd | scripts/report/rust_scan.py:107-118 | the first closing bracket that takes the count back to zero, or none |
| RustArms.BlockEndFrom | scripts/report/rust_scan.py:107-118 | the end is a closing bracket with the count at zero, and there is no earlier one |
| RustArms.CountMatchesStack | scripts/report/rust_scan.py:107-118 | where a stack that tells bracket kinds apart finds no mismatch, the untyped count gives its answer |
| RustArms.ReadArms | scripts/report/rust_scan.py:237-277 | the arm loop yields the arms of the recursive reading, or fails where a block does not close |
| RustArms.ArmBlock | scripts/report/rust_scan.py:209-234 | the block loop finds the block of the recursive reading |
| RustArms.HasTopLevelArrow | scripts/report/rust_scan.py:197-206 | true exactly when some `=>` stands where as many brackets closed as opened |
| RustArmsPrinter.PrintedArmsReadBack | scripts/report/rust_scan.py:237-277 | printed arms with balanced patterns and bodies are read back: every pattern and body in order, each with the line its text starts on |
| RustArmsPrinter.ArmLines | scripts/report/rust_scan.py:251-277 | every arm but the first is given the line its pattern starts on; the first is if and only if no line break stands between the brace and its pattern |
| RustArmsPrinter.BlockReads | scripts/report/rust_scan.py:107-118 | a block ends where it ends on its own, whatever follows |
| RustMatchSites.PrintedMatchReadsBack | scripts/report/rust_scan.py:179-277 | behind any scrutinee, blocks of its own included, the block of the arms is found and its arms are read back |
| RustSpans.Blank | scripts/report/scripts_gate_external.py:82-85 | in the stretch every character but a line break becomes a space, nothing else changes |
| RustSpans.LinesStay | scripts/report/rust_scan.py:27-32 | blanked text has the line numbers of its source at every offset |
| RustCode.RustCodeAndLiterals | scripts/report/scripts_gate_external.py:130-158 | the in-place scan gives the text with exactly the comments and string bodies blanked, and each literal as the slice at its offset |
| RustCode.BlockCommentEnd | scripts/report/scripts_gate_external.py:88-97 | the loop ends where the nested comment closes, or at the end of the text |
| RustCode.FaithfulOverlay | scripts/report/scripts_gate_external.py:130-133 | the code has the length, line breaks and line numbers of the source, spaces only inside the spans the scan finds, and the literals lie apart in increasing order behind their quotes |
| RustCodePrinter.PrintedTextReadsBack | scripts/report/scripts_gate_external.py:88-158 | text printed from code, line comments, nested block comments, strings with escapes, raw strings, character literals and lifetimes is read back: exactly its comments and literals are found, exactly those bodies are blanked, and each literal is listed at its offset |
| RustCodeStable.CodeIsStable | scripts/report/scripts_gate_external.py:130-158 | scanning the code again blanks nothing more and finds the same literal bodies: no comment or string content is left |
| RustBlankText.BlankText | scripts/report/rust_scan.py:27-100 | the in-place scan gives the text with its comments and literals blanked, or the first thing that does not end |
| RustBlankText.BlankedKeepsLines | scripts/report/rust_scan.py:27-32 | text that is not refused keeps its length, line breaks and line numbers, and everything outside its comments and literals |
| LineMatch.SplitUndoesJoin | scripts/report/line_match.py:25-52 | lines that are not empty and hold no line break come apart again after joining |
| LineMatch.FoldIdempotent | scripts/report/line_match.py:21-22 | folding digit runs twice changes nothing more |
| LineMatch.NormalizeIsLineLocal | scripts/report/line_match.py:21-28 | normalising a text is normalising each of its lines |
| LineMatch.LongestIsLongest | scripts/report/line_match.py:31-52 | no common run of lines is longer than the one chosen, and none as long starts earlier |
| LineMatch.BlocksAreOrdered | scripts/report/line_match.py:31-52 | matching blocks are common slices in increasing order on both sides |
| LineMatch.BlocksFindSharedLine | scripts/report/line_match.py:31-52 | there is no block if and only if there is no common line |
| LineMatch.MatchedIsShared | scripts/report/line_match.py:31-52 | in either direction the matched lines never exceed the multiset intersection of the lines |
| Twins.FigureIsBounded | scripts/report/scripts_gate_twin.py:35-64 | joined significant lines are read back as themselves, so the figure of two files is at most their shared lines |
| Twins.RuleTwin | scripts/report/scripts_gate_twin.py:48-64 | for every list of files the rule with the prefilter yields what the rule without it yields, in the same order |
| Twins.GroupIsSorted | scripts/report/scripts_gate_twin.py:48-64 | the files of a language are compared in the order of their paths, none lost |
| PinList.GroupViolations | scripts/report/scripts_gate.py:247-276 | violations grouped by rule and path, keys in the order of their first violation |
| PinList.ApplyPins | scripts/report/scripts_gate.py:247-276 | what stays active after the pins, in order, and the keys held back |
| PinList.GrowsTransitive | scripts/report/scripts_gate.py:213-215 | not growing composes: no growth twice is no growth |
| PinList.NothingActiveIffExact | scripts/report/scripts_gate.py:222-276 | nothing stays active if and only if the list pins exactly what is violated, with the same members and figures, and nothing that cannot be pinned is violated or pinned |
| PinHistory.CheckGrowth | scripts/report/scripts_gate.py:287-314 | the growth of a list against its base, pin by pin under the renames; none when either side has no list |
| PinHistory.StepShrinks | scripts/report/scripts_gate.py:247-314 | a gated commit that does not bring in its list together with violations: every violation was one at the base under its old path, no figure grew and no member was added |
| PinHistory.NoListNoViolation | scripts/report/scripts_gate.py:236-276 | a commit without a list passes only when nothing is violated |
| PinHistory.ShrinksIffListStays | scripts/report/scripts_gate.py:287-314 | of two commits that pass, every violation of the second was one of the first if and only if the first holds a list or the second violates nothing |
| PinHistory.ListBroughtBack | scripts/report/scripts_gate.py:292-296 | any violation of a rule that can be pinned passes together with a list where the base had none and nothing was violated |
| PinHistory.HistoryShrinks | scripts/report/scripts_gate.py:247-314 | over any history every violation goes back to one of the first commit under its rule, with no larger figure and no new member |
| PinHistory.StepCount | scripts/report/scripts_gate.py:279-314 | a rule is violated at no more paths than before when no two come from one old path |
| PinHistory.HistoryCount | scripts/report/scripts_gate.py:279-314 | over any such history a rule is never violated at more paths than at first |
| PinHistory.PairsStayApart | scripts/report/scripts_gate.py:279-284 | two twin pairs with one old pair are one pair when no two files have one old path |
| PinHistory.CleanMovesKeepApart | scripts/report/scripts_gate.py:279-284 | renames that give no two files one old path keep the old keys of every rule apart, pairs included |
| PinHistory.ApartIffNoneKept | scripts/report/scripts_gate.py:279-284 | renames with distinct old paths keep the old paths of a tree apart if and only if no file moved from a path that is still a file and has not moved itself |
| PinHistory.MovedAwayIsClean | scripts/report/scripts_gate.py:279-284 | distinct old paths that have all left the tree keep pairs and paths apart |
| PinHistory.KeptOldPathDoubles | scripts/report/scripts_gate.py:279-314 | under a move that git lists one pinned violation passes as two, where the old path is a file again |
| PinHistory.LibRunEmbeds | scripts/report/scripts_gate.py:287-314 | where no two files have one old path, the members of an accepted `lib-run` pin embed into the base's if and only if no new member moved away from a path that is still a member; then there are no more of them |
| PinHistory.LibRunEmbedsByPath | scripts/report/scripts_gate.py:287-314 | under moves that git lists, with the base pinning files of its own, if and only if no member was moved away from a member |
| PinHistory.LibRunGrows | scripts/report/scripts_gate.py:287-314 | under one move that git lists the growth check lets two members pass where the base had one, both accepted as that one |
| Aggregate.CellIndex | scripts/published/aggregate.py:193-198 | the rows of each cell in order, cells in the order they are first seen |
| Aggregate.SameSamplesSameCount | scripts/published/aggregate.py:201-225 | passes over the same samples hold equally many rows of every cell, and at least one |
| Aggregate.SpanOfSum | scripts/published/aggregate.py:228-233 | the spread of a sum is at most the sum of the spreads |
| Aggregate.MacroRangeIsBounded | scripts/published/aggregate.py:475-493 | for any number of datasets with positive rates the macro's range percent is at most the largest of its cells' |
| Aggregate.StableMacroIsWithinBand | scripts/published/aggregate.py:489-493 | a macro that is stable because its cells are lies within the band itself, so a check of its own could not fire |
| AggregateRun.SameAs | scripts/published/aggregate.py:201-225 | true exactly when both passes measured the same cells and in each the same sample ids |
| AggregateRun.MacroCellPerDataset | scripts/published/aggregate.py:290-310 | one cell of each dataset at the headline budget in the order of the datasets, or the first dataset that has none or several |
| AggregateRun.CmdReport | scripts/published/aggregate.py:432-493 | the report of three passes, or the first refusal |
| Records.SampleRecords | scripts/ingest/published.py:261-352 | one record for each sample of each cell, or the first group that is refused |
| Records.GroupSumIsCellSum | scripts/ingest/published.py:261-352 | adding up group by group is adding up the cell: no row lost, none counted twice |
| RequeryScan.FileSamples | scripts/ingest/requery.py:173-182 | the table holds, for every dataset, budget and metric, exactly the values of the rows filed under it |
| RequeryScan.CheckPrompt | scripts/ingest/requery.py:134-156 | the disagreements of one prompt's rows, one of each wanted metric |
| RequeryScan.CheckCells | scripts/ingest/requery.py:184-216 | the disagreements of all cells in order, and the mean of each complete cell |
| RequeryScan.RequeryRun | scripts/ingest/requery.py:159-264 | every disagreement of the rows with the result, in order |
| RoundTrip.CellValues | scripts/ingest/requery.py:173-200 | the values filed for a cell of a recorded report are one for each sample and add up to a third of its rows |
| RoundTrip.CellReadsBack | scripts/ingest/requery.py:184-216 | a cell reads back complete, with the decode and TTFT means of the report |
| ReadBack.MacroReadsBack | scripts/ingest/requery.py:218-227 | the mean over the macro cells of the means read from the recorded rows is the report's macro mean: means over samples, passes and cells exchange |
| ReadBack.RecordedRunReadsBack | scripts/ingest/requery.py:159-264 | for every three passes whose records are accepted, with one cell for each dataset and budget and dataset names of their own, the re-query of exactly the recorded rows reports nothing |
| ReadBack.OneRowMoreOrLessShows | scripts/ingest/requery.py:184-203 | dropping or repeating any decode or TTFT row of a cell that was complete is reported |
| ReadBack.QuietMeansComplete | scripts/ingest/requery.py:184-203 | no problem means that every cell has one row of each metric for each sample |
| ReadBack.UnknownSlotIsUnnoticed | scripts/ingest/requery.py:173-184 | a sample row under a dataset and budget without a cell changes nothing that is reported |
| MakeClosure.Round | scripts/report/scripts_gate_recall.py:220-243 | what one target pushes: its prerequisites and the targets of its `$(MAKE)` lines, or none where a word or a line cannot be followed |
| MakeClosure.NextIsArcs | scripts/report/scripts_gate_recall.py:236-243 | those are exactly the arcs out of the target, quiet from a quiet target or through a silenced line |
| MakeClosure.ExpandWords | scripts/report/scripts_gate_recall.py:201-217 | every word replaced by its expansion, or none if one cannot be followed |
| MakeClosure.MakeClosureRun | scripts/report/scripts_gate_recall.py:220-245 | terminates on every rule graph; refuses if and only if a reached target cannot be followed; otherwise returns a target if and only if a walk from `ci` reaches it, and as quiet those that every such walk reaches across a silenced line |
| CallGraph.Callees | scripts/report/scripts_gate_recall.py:282-285 | the caller lists turned around |
| CallGraph.Reachable | scripts/report/scripts_gate_recall.py:280-293 | exactly the files reached by one call or more |
| Sourcing.Inherited | scripts/report/scripts_gate_env.py:138-143 | terminates on cyclic graphs; a name is collected if and only if a file sourced in one or more steps outside `seen` assigns it, the starting file counting only when it sources itself |
| Sourcing.RoundsAreExact | scripts/report/scripts_gate_env.py:138-143 | forbidding the files of the path so far loses no file: each is still reached by a shorter walk |
| Sourcing.ConsumerNames | scripts/report/scripts_gate_env.py:145-155 | the names that every sourcing file has, itself or through what it sources, and none without such a file |
| Sourcing.CycleLeavesOutItself | scripts/report/scripts_gate_env.py:138-143 | of two files that source each other the first one's own names are not collected |
| Sourcing.AllReachedUnlessCyclic | scripts/report/scripts_gate_env.py:138-143 | every file reached is collected if and only if no cycle of two files or more leads back |
| BoundStrings.Collect | scripts/report/scripts_gate_text.py:490-504 | each name's own constants and the names its values use |
| BoundStrings.BoundStringsOf | scripts/report/scripts_gate_text.py:505-513 | terminates in any order of iteration; each name ends with exactly the constants of the names it leads to |
| BoundStrings.LeastSolution | scripts/report/scripts_gate_text.py:505-513 | every table closed under the assignments holds all of those, so the result is the least one |
| FixedPrompt.EndsAreWordEnds | scripts/published/fixed_prompt.py:137-137 | prefixes are cut exactly where white space or the text ends a word |
| FixedPrompt.NeverNearMiss | scripts/published/fixed_prompt.py:135-199 | a fit's body counts exactly the target, its prefix at most the target and the prefix one word longer, if any, more |
| FixedPrompt.LongestPrefix | scripts/published/fixed_prompt.py:151-160 | with counts that do not fall it is the longest prefix at or below the target |
| FixedPrompt.ConstantFiller | scripts/published/fixed_prompt.py:161-199 | with a constant price the fit succeeds if and only if the price divides the residual, which is if and only if some number of fillers lands on the target |
| FixedPrompt.JoiningCharge | scripts/published/fixed_prompt.py:179-199 | with a positive charge for joining it succeeds if and only if none or exactly one filler is needed, though any residual the price divides after the charge could be reached |
| FixedPrompt.JoiningSaves | scripts/published/fixed_prompt.py:179-199 | where joining saves tokens it succeeds if and only if nothing is missing, or the price of the first filler divides the residual, some number of fillers lands, and the surplus of the first guess is corrected within one price and above zero |
| FixedPromptRun.Counter.constructor | scripts/published/fixed_prompt.py:96-101 | an empty table and no probe |
| FixedPromptRun.Counter.Call | scripts/published/fixed_prompt.py:103-132 | the server's count of the body; a body in the table costs nothing, another at most one probe, and the table stays true |
| FixedPromptRun.Halve | scripts/published/fixed_prompt.py:151-158 | the binary search costs at most one probe for each halving, and leaves the chosen prefix in the table |
| FixedPromptRun.Adjust | scripts/published/fixed_prompt.py:184-199 | the correction loop costs at most three probes |
| FixedPromptRun.FitRun | scripts/published/fixed_prompt.py:135-199 | the fit, with at most ceil(log2 n) + 6 probes for n words |
| Powers.CeilLog2IsLeast | scripts/published/fixed_prompt.py:151-158 | the number of halvings is the least exponent whose power of two reaches n |
| DocResolve.TiersAnswerInOrder | scripts/check/doc_refs.py:265-282 | an exact title silences the other tiers; a phrase that may run on names the longest title it runs past |
| DocResolve.ResolvedHasCarrier | scripts/check/doc_refs.py:284-365 | a section reference resolves to a heading if and only if it has a carrier, and so does a quote that does not start with a digit |
| DocResolve.DigitQuoteIsCountedByNumber | scripts/check/doc_refs.py:288-293 | a quote that several headings answer to counts as ambiguous if and only if it does not start with a digit or two headings have it for a section number |
| DocResolve.DigitQuoteHasNoCarrier | scripts/check/doc_refs.py:288-293 | a quote that starts with a digit can resolve to one of two equal headings and have no carrier |
| DocResolve.DigitQuoteIsCounted | scripts/check/doc_refs.py:288-293 | a quote of the number of two headings that have it for a name counts them both |
| DocRefs.AmbiguousIsReported | scripts/check/doc_refs.py:580-593 | a reference that still names its heading is reported as ambiguous if and only if several headings answer to it, where a digit quote is counted by section number, and it is no section whose heading is titled `body text` |
| DocRefs.BodyTextSectionPasses | scripts/check/doc_refs.py:587-591 | a section reference to one of two headings titled `body text` passes |
| DocRefs.BaseBroken | scripts/check/doc_refs.py:566-572 | how often each target is broken at the base |
| DocRefs.Compare | scripts/check/doc_refs.py:574-606 | the failures, the carried references and the changelog's, each in order |
| DocRefs.PassesIff | scripts/check/doc_refs.py:566-606 | a comparison passes if and only if nothing outside the changelog is re-pointed, ambiguous or broken in or into an edited doc, no fixture marker was gained, and no target has more broken references than at the base |
| DocRefs.OrderDoesNotMatter | scripts/check/doc_refs.py:580-606 | the verdict is the same for every order of the references |
| DocRefs.PassIsRatchet | scripts/check/doc_refs.py:580-606 | after a pass no target is broken more often than at the base, no broken reference touches an edited doc, and what resolved at the base resolves to the same thing |
| DocCollect.CollectedOften | scripts/check/doc_refs.py:431-479 | a reference is collected as often as the text of its file cites the target, unless the file is a fixture, and once more for each top-level doc where there is a documentation map |
| DocHistory.PassingNeverRises | scripts/check/doc_refs.py:556-606 | a passing commit, whatever docs it adds or deletes, breaks no target more often when the changelog it leaves cites nothing broken, each tree read under its own doc names |
| DocHistory.NeverRises | scripts/check/doc_refs.py:556-606 | over a chain of passing commits whose changelogs cite nothing broken, with docs added, deleted and renamed on the way, no target's broken references grow in number |
| DocHistory.HoldsIffChangelogClean | scripts/check/doc_refs.py:556-606 | from any tree that passes alone, no passing commit that removes no file and leaves the docs and the changelog alone breaks a target more often, if and only if the changelog cites nothing broken, where some other file can be made to repeat what the changelog cites |
| DocHistory.ChangelogLends | scripts/check/doc_refs.py:595-606 | from any tree that passes alone and whose changelog cites something broken, every commit of a passing chain can repeat it in a file that is no doc, to any number |
| DocHistory.LentToReadme | scripts/check/doc_refs.py:595-606 | the changelog and then the readme name a doc that is gone: the commit passes and two references to it are broken |
| DocHistory.EditedDocLendsNothing | scripts/check/doc_refs.py:599-606 | a commit with a broken reference out of or into a doc whose text it changed fails |
| KvBytes.ReadsWhatItHolds | scripts/profile/perf_ceiling.py:407-479 | for every parsed codec with affine widths under sixteen, one layer's decode read is what the unshared layer holds, but for at most four bytes a side of an affine store, and none on aligned shapes |
| KvBytes.AffineSide | scripts/profile/perf_ceiling.py:202-206 | rounding codes and scales once exceeds rounding them apart by at most four bytes, by none where both divide |
| KvBytes.WideSideReadsMore | scripts/profile/perf_ceiling.py:202-206 | an affine side of sixteen bits or more never reads less than its bf16 residency, and more if and only if the bits over sixteen and the scales come to a byte |
| KvBytes.SlackIffNarrow | scripts/profile/perf_ceiling.py:407-479 | for every parsed codec the read exceeds the unshared residency by at most eight bytes at every shape if and only if no affine side is sixteen bits or wider |
| KvBytes.SharingAddsMirrors | scripts/profile/perf_ceiling.py:407-430 | sharing moves only Mixed and RotK at a fixed codec, by one bf16 mirror for each side narrower than sixteen bits |
| KvBytes.ResidentGrows | scripts/profile/perf_ceiling.py:300-430 | residency does not fall as the sequence grows |
| KvBytes.NextPow2IsLeast | scripts/profile/perf_ceiling.py:539-543 | the least power of two at or above n |
| KvStack.KvAtCtx | scripts/profile/perf_ceiling.py:792-832 | the sums over all layers of what is read and held, and the counts of global and windowed layers |
| KvStack.ReadsNoMoreThanHeld | scripts/profile/perf_ceiling.py:792-832 | a stack that shares nothing, with a ceiling of at least the context, reads no more than it holds, but for eight bytes for each affine layer that is not aligned |
| KvStack.HeldGrows | scripts/profile/perf_ceiling.py:815-832 | what is held does not fall as the context grows |
| ReleaseFlags.NormalizeLoop | scripts/release/release_cpu.py:65-81 | one token for each option in whichever spelling, or a refusal where the list ends in a bare option name |
| ReleaseFlags.SplitLoop | scripts/release/release_cpu.py:87-95 | the target CPUs and the other flags of the normalised list, both in order, path remaps left out |
| ReleaseFlags.NormalizeTwice | scripts/release/release_cpu.py:59-81 | normalising is idempotent if and only if the list holds no empty option |
| ReleaseFlags.EmptyOptionStays | scripts/release/release_cpu.py:59-95 | a bare `-C` is among the other flags if and only if the list, read token by token, holds `--codegen=` or an empty token behind a bare option name |
| ReleaseFlags.NormalizeApart | scripts/release/release_cpu.py:65-81 | a complete list normalises apart from what follows, despite the lookahead |
| ReleaseFlags.EmittedReadsBack | scripts/release/release_cpu.py:87-162 | the emitted flags split into exactly the baseline CPU and config.toml's other flags if and only if config.toml holds no empty option |
| ReleaseFlags.ReleaseIsAccepted | scripts/release/release_cpu.py:157-182 | the check accepts a binary built with the emitted flags if and only if config.toml holds no empty option |
| RecordQueue.Directories.StageRecords | scripts/ingest/ingest.py:87-127 | records are written unless it is a dry run, and handed on only to be recorded |
| RecordQueue.Directories.RecordStaged | scripts/ingest/ingest.py:130-160 | the loop goes through exactly the states of the run, renames that raise included, and returns the refused records unless something was raised |
| RecordQueue.AlwaysOrderly | scripts/ingest/ingest.py:130-160 | at every state, whatever the recorder does, at most one record of the run is queued and no file is in two places |
| RecordQueue.NothingIsLost | scripts/ingest/ingest.py:130-160 | however the run ends, a record of it is queued if and only if the rename back out raised in its own turn, and it is back in staging if and only if neither that happened nor the recorder took it in its own turn |
| RecordQueue.QueueEndsAsItWas | scripts/ingest/ingest.py:130-160 | the queue ends with nothing it did not hold before if and only if no record was left in it |
| RecordQueue.FailedAreTheRefused | scripts/ingest/ingest.py:139-160 | the returned list holds exactly the records given a non-zero exit |
| RecordQueue.FailedAreKept | scripts/ingest/ingest.py:148-160 | every refused record is still in staging if and only if the recorder deleted none that it refused |

## Left out

- External programs, files and databases: git, make, the server, SQLite, the file system and the recorder are inputs or arbitrary outcomes; argument parsing, printed wording and exit codes beyond the verdicts.
- Floating point: rates and means are reals and byte sizes are exact quotients, so rounding to a double is not modelled; the comparison allowance of the re-query is kept.
- Character classes: letters, digits and word characters are ASCII where the code asks for identifiers, and white space is Python's set; the digit class of line folding is a parameter that holds no letter, underscore, dash or line break. Case folding is ASCII.
- LineMatch: difflib's final merging of adjacent blocks, which changes no sum of sizes, and its junk heuristics, which the code turns off.
- PinList: reading the pin list from text, the wording of reports, and one report for each stale or new member, which are given as sets.
- Aggregate: pass and arm numbering, round figures, token means and the widest sample range, which are carried and never refused.
- Records: the machine and protocol fields of a record, and the sample standard deviation.
- ReadBack: figures written beside the verdict (`db_summary.json`); the query and its parsing.
- RustArms: `enum_variants`, `matches_macros`, `let_patterns` and `extract_fns`, and the search for the word `match`, whose positions are given.
- ShellText: `peel_substitutions`, `command_words` and the reference reader built on them.
- MakeClosure: reading rules and variables from the makefile text, and `line_silenced`, whose answer for each line is an input that can be missing.
- Sourcing: which names a shell line assigns or reads; the assignments and sourcing relation are inputs.
- DocResolve: parsing headings, anchors and short names out of a doc, which are given with each heading.
- DocCollect: the patterns that find references in a text, which are a parameter `Reader`. What the chains need of it is stated in `ReadsByName` (`doc_path_of` looks a bare name up among the doc names, so leaving names out takes no reference to another doc away), and that a file can repeat the changelog's words in `Copies`; the order of the collected references, which no verdict depends on.
- KvBytes: the parsing of codec names, whose results are all covered, and the codec gates the source itself lists as not modelled.
- KvStack: layers are listed by their index, as `build_layers` builds them; weights, FLOPs and anchors.
- RecordQueue: file contents and names beyond being distinct, and a recorder that writes files of its own into the queue.
