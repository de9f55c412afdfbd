# Agent PBX: verified core

Agent PBX runs coding agents in terminal panes and gives their operators previews, transcripts, file
operations, configuration and events. This project models five parts of it in Dafny and proves what they
are for. Nothing here runs the original program.

* **Images.** A terminal preview decodes GIF and PNG by hand. `Bits`, `GifLzw`, `GifInterlace` and
  `GifImage` model the GIF side, `PngFilter` the scanlines of PNG, `Preview` the averaging into characters.
  `GifLzwRoundTrip` has a reference encoder with clear codes anywhere; the decoder inverts it.
* **Transcripts.** `Transcript` is the full scan of a JSONL file, `TranscriptCache` the cache that reads on
  from a byte offset while the file grows. A parsed record is a session id, a prompt, an answer with a phase,
  or something else; parsing is a parameter. `Transcript.SummaryMeans` says what an answer is made of.
* **Trash.** `FileTree` is a directory tree as a map from paths to nodes, in which a rename carries a whole
  prefix. `Trash` holds delete, restore, prune and undo, in which any call may fail. `TrashSingle` and
  `TrashBatch` prove them all-or-nothing; `TrashRuns` keeps an account of every deleted subtree over runs.
* **Configuration.** `TomlLiteral` prints values and scans for comments, `TomlPrinter` says what printed
  values keep, `TomlReader` reads them, `TomlText` reads text line by line, `TomlEditor` edits it, `LineForms`
  gives the patterns of lines and keys, `TomlLaws` and `ConfigEdits` prove the get, set and frame laws,
  `CodexConfig` is the whole patch of the file, and `PatchLaws` says what the request makes of each key.
  `Characters` has the white space and line breaks of Python.
* **Events, panes and waits.** `RateLimiter` is the registry of event clients, `Replay` the replay of a
  journal from a cursor, `Tmux` the windows and panes of a server, `Adoption` the move of a pane into a window
  of its own and back; `AdoptionLaws` says what one adoption and one rollback do, `AdoptionRecords` what they
  put on record and when they go ahead, `AdoptionRuns` what whole runs keep, and `AdoptionReturns` what undoing
  an undisturbed adoption brings back, and what disturbed ones can do, with examples in `HandOver`;
  `ProcessTree` walks the children of a process and `LockWait` waits for a lock to stay free.

Clocks, new ids, parsers, the results of probes and the calls that fail are parameters. Compensating renames
of the trash are taken to succeed where a lemma says so; the lemmas ending in `LosesIff` and `StrandsIff` say
what happens when they do not. In an application others may act before the break, before the inspection and
before the last command, in a rollback before the join. A text is well-formed if every entry takes one line,
headers have one bracket, and no header and no key is repeated.

## Model

| member | source | states |
|---|---|---|
| `Bits.ReadLittleEndianBits` | src/agent_pbx/files.py:2777-2783 | the loop over single bits returns the number that the slice of the least-significant-bit-first bit string of the data stands for |
| `Bits.UnpackPack` | src/agent_pbx/files.py:2777-2783 | a bit string is a prefix of what unpacking its packed bytes gives |
| `GifLzw.DecodeGifLzw` | src/agent_pbx/files.py:2731-2774 | the decoding loop with its table, bit position and output computes the decoder state machine on any bytes; it ends, and every bit read is inside the data |
| `GifLzw.StepKeepsSound` | src/agent_pbx/files.py:2748-2773 | every code keeps: keys are the roots and the learned codes without gaps; the next code is below two to the code size, or the size is 12 and it is at most 4096; every learned entry is a non-empty slice of the output since the last clear; all symbols are below the clear code |
| `GifLzw.EveryReachableDecoderIsSound` | src/agent_pbx/files.py:2738-2774 | that invariant holds in every state that any sequence of codes reaches |
| `GifLzw.DecodeDataIsSound` | src/agent_pbx/files.py:2731-2774 | on any bytes the decoder refuses, or answers at most the expected number of indices, all below the clear code |
| `GifLzwRoundTrip.PhraseKeepsInStep` | src/agent_pbx/files.py:2757-2773 | encoder and decoder stay in step over one phrase although the decoder learns one entry late: same code width, same next code, and the one code the decoder does not have yet is exactly the one it can guess |
| `GifLzwRoundTrip.DecodeInvertsEncode` | src/agent_pbx/files.py:2731-2774 | from any two states in step, decoding what the reference encoder writes gives the string, with clear codes anywhere and with none after the table is full |
| `GifLzwRoundTrip.GifLzwRoundTrip` | src/agent_pbx/files.py:2731-2783 | for minimum code sizes 2 to 8 and every index string, decoding the packed output of the reference encoder gives the string back, cut at the expected size, whatever bytes follow (Appendix F of GIF89a) |
| `GifInterlace.DeinterlaceGifIndices` | src/agent_pbx/files.py:2786-2796 | the four passes in place show every stored row at its place, with short or long input as the code treats it |
| `GifInterlace.InterlaceOrderIsBijection` | src/agent_pbx/files.py:2789-2795 | for every height the four passes visit every row exactly once (Appendix E of GIF89a) |
| `GifInterlace.DeinterlaceInvertsInterlace` | src/agent_pbx/files.py:2786-2796 | de-interlacing an interlaced image shows the image |
| `GifInterlace.InterlaceInvertsDeinterlace` | src/agent_pbx/files.py:2786-2796 | interlacing a de-interlaced image gives the stored indices back |
| `GifImage.SkipGifSubBlocks` | src/agent_pbx/files.py:2675-2684 | skipping ends right behind the terminator of the sub-blocks, and refuses cut blocks and a missing terminator |
| `GifImage.FramingRoundTrip` | src/agent_pbx/files.py:2710-2718 | cutting bytes into sub-blocks in any way and collecting them gives them back, and skipping passes over exactly the blocks (section 15 of GIF89a) |
| `GifImage.CollectedIffSkipped` | src/agent_pbx/files.py:2675-2684 | the two readers of sub-blocks accept the same data, except that collecting tolerates a missing terminator |
| `GifImage.SkippedIsAllThatMatters` | src/agent_pbx/files.py:2675-2684 | what is collected depends only on the bytes that skipping passes over |
| `GifImage.DecodeImageData` | src/agent_pbx/files.py:2705-2728 | the loop over sub-blocks, the LZW decoder, de-interlacing and the colour look-up together give the pixels, padded with black |
| `GifImage.GifImageRoundTrip` | src/agent_pbx/files.py:2705-2728 | every image with at least one pixel, interlaced or not, with any legal compression and any framing, decodes to its own colours |
| `PngFilter.PaethIsFirstClosest` | src/agent_pbx/files.py:2614-2623 | the predictor is the first of left, up and up-left that is closest to left + up - up-left (section 9.4 of the PNG Specification) |
| `PngFilter.UnfilterPngRow` | src/agent_pbx/files.py:2584-2611 | overwriting the row byte by byte computes the unfiltered row, or refuses a filter type above 4 when there is a byte to unfilter |
| `PngFilter.UnfilterInvertsFilter` | src/agent_pbx/files.py:2584-2611 | for all five filter types and any bytes per pixel, unfiltering a filtered row gives the row (section 9.2) |
| `PngFilter.FilterInvertsUnfilter` | src/agent_pbx/files.py:2584-2611 | filtering the recovered row again gives the input bytes |
| `PngFilter.DecodePngRows` | src/agent_pbx/files.py:2544-2559 | the row loop computes the rows of the image, each with the one before it as its predecessor |
| `PngFilter.PngRoundTrip` | src/agent_pbx/files.py:2544-2559 | for any image and any choice of filter type per row, the row loop recovers the image |
| `PngFilter.PngReencodes` | src/agent_pbx/files.py:2544-2559 | filtering the recovered rows with the same types gives the consumed input bytes back |
| `PngFilter.PngAcceptedIff` | src/agent_pbx/files.py:2544-2559 | the rows are accepted exactly if there are enough bytes and every filter type is at most 4, or rows have no bytes |
| `Preview.PreviewFits` | src/agent_pbx/files.py:2456-2466 | a preview has at least one cell each way and is never larger than its source or its limits |
| `Preview.PreviewIsScaled` | src/agent_pbx/files.py:2456-2466 | a preview is its source scaled down just as far as both limits demand, with one scale for both ways, and each size rounded down but at least one |
| `Preview.CellsPartition` | src/agent_pbx/files.py:2478-2481 | when the preview is not larger than the source, every pixel falls into exactly one cell |
| `Preview.CellNotEmpty` | src/agent_pbx/files.py:2478-2485 | then no cell is empty |
| `Preview.CountsAddUp` | src/agent_pbx/files.py:2482-2490 | the pixel counts of all cells sum to width times height |
| `Preview.SampleRegionRgb` | src/agent_pbx/files.py:2469-2493 | the loops over the region return the rounded-down averages of its three channels, or black for an empty region |
| `Preview.SampleBetween` | src/agent_pbx/files.py:2469-2493 | each averaged channel lies between the least and the greatest value of its region |
| `Preview.SampleIsAverage` | src/agent_pbx/files.py:2469-2493 | each channel of a cell is the sum of that channel over exactly the pixels of its region, divided by their number and rounded down |
| `Preview.LuminanceIs` | src/agent_pbx/files.py:2448-2448 | the luminance weighs red, green and blue by 0.2126, 0.7152 and 0.0722 and is rounded down |
| `Preview.CharIndexInRange` | src/agent_pbx/files.py:2448-2449 | every colour has a character, brighter colours never an earlier one, and the cap is never needed |
| `Preview.RenderPixelsAsAscii` | src/agent_pbx/files.py:2418-2453 | the preview has one character for every cell, chosen by the cell's average, and there is a preview exactly if there is an image |
| `Transcript.LatestFromFile` | src/agent_pbx/codex_sessions.py:498-564 | the full scan that collects every result computes the left fold of all lines and picks the last preferred result, or the last other one |
| `Transcript.SummaryMeans` | src/agent_pbx/codex_sessions.py:147-178 | of any lines, the last answer of a wanted phase and the last other one are kept with the text and phase of their own line, the prompt of the last user line before it, and the given session id or else the first one found before it |
| `Transcript.LinesAreCut` | src/agent_pbx/codex_sessions.py:134-146 | the complete lines are the file cut behind every newline, up to the last newline |
| `Transcript.TextLinesAreCut` | src/agent_pbx/codex_sessions.py:498-510 | the lines of the full scan are the whole text cut behind newlines, behind carriage returns without a newline, and behind pairs of the two |
| `Transcript.LinesOfConcat` | src/agent_pbx/codex_sessions.py:134-146 | the lines of a file that grows behind a line boundary are the old lines and the new ones |
| `TranscriptCache.ScanRecord` | src/agent_pbx/codex_sessions.py:147-178 | one record moves the line index, session id, prompt and results on as the fold does |
| `TranscriptCache.ScanTranscriptTail` | src/agent_pbx/codex_sessions.py:120-189 | reading on from a stored offset folds exactly the complete lines behind it and stops in front of an unfinished one |
| `TranscriptCache.CodexTranscriptTailCache.Latest` | src/agent_pbx/codex_sessions.py:66-117 | one call stores the updated entry under its path, leaves all others, and answers from it; a missing file changes nothing |
| `TranscriptCache.ReadAgainOrOn` | src/agent_pbx/codex_sessions.py:80-109 | a stored entry is left alone if file, size and time are the same, is read on from its offset if the file has grown, and is read again from the start if the file is another, is shorter, or has another time at the same size |
| `TranscriptCache.CodexTranscriptTailCache.Clear` | src/agent_pbx/codex_sessions.py:62-64 | forgets every entry |
| `TranscriptCache.CallIsExact` | src/agent_pbx/codex_sessions.py:74-117 | one call on a file that grows between its status and the read: the new offset is a line boundary, line index + 1 is the number of lines before it, the stored state is the fold of exactly those lines, and the answer is that of a scan of one state of the file |
| `TranscriptCache.CacheIsConsistentAfterAnyRun` | src/agent_pbx/codex_sessions.py:66-189 | after any interleaving of appends, replacements and overlapping calls, each of which takes the status before it gets the lock, the stored state is the fold of exactly the lines before the stored offset: no record is skipped or folded twice; and every call under way on the same file will answer like a scan of one state of the file |
| `TranscriptCache.CachedAnswerIsFullScanIff` | src/agent_pbx/codex_sessions.py:66-189 | after any such run a call on a file that has not changed since its status was taken answers what the full scan of the whole file answers, exactly if the unfinished last line does not hold an answer that would be selected; line ends may be newlines or carriage return and newline |
| `TranscriptCache.UnfinishedLineDiffers` | src/agent_pbx/codex_sessions.py:141-145 | a file whose unfinished last line does count, so that cache and full scan differ |
| `TranscriptCache.SecondIsFullScanIff` | src/agent_pbx/codex_sessions.py:80-109 | asked again with other phases while the file stands still, and without a fallback to any phase, the cache answers as the full scan exactly if the last answer of the first phases among the complete lines is the last answer of the second among all |
| `TranscriptCache.PhasesAreNotPartOfTheKey` | src/agent_pbx/codex_sessions.py:80-109 | so this goes well for every finished file exactly if the two sets of phases agree on the phases the parser finds in lines |
| `TranscriptCache.OneLineFile` | src/agent_pbx/codex_sessions.py:80-109 | the shortest file on which it goes wrong: one line whose phase is in one of the two sets only |
| `FileTree.RenameWorks` | src/agent_pbx/files.py:882-882 | a rename to a free name carries the whole subtree, changes nothing else, keeps the tree well-formed, and renaming back restores the tree |
| `FileTree.MakeDirsAdds` | src/agent_pbx/files.py:881-881 | making directories adds only missing directories on the way |
| `Trash.ProjectTrash.DeletePath` | src/agent_pbx/files.py:880-898 | a delete with a failure at any call, and with or without a failing compensation, computes the specified tree |
| `Trash.ProjectTrash.RestoreTrash` | src/agent_pbx/files.py:930-1001 | a restore with a failure at any call computes the specified tree |
| `Trash.ProjectTrash.MoveEntries` | src/agent_pbx/files.py:1063-1068 | the loop of renames with its list of moved entries computes the specified progress |
| `Trash.ProjectTrash.MoveEntriesBack` | src/agent_pbx/files.py:1081-1088 | the loop over the reversed list, in which single renames may fail silently, computes the specified tree |
| `Trash.ProjectTrash.ApplyTrashPrune` | src/agent_pbx/files.py:1039-1097 | a prune with a failure at any call computes the specified tree |
| `Trash.ProjectTrash.UndoTrashPrune` | src/agent_pbx/files.py:1099-1159 | an undo with a failure at any call computes the specified tree |
| `TrashSingle.DeleteIsAllOrNothing` | src/agent_pbx/files.py:880-898 | whichever call of a delete fails, if renaming back works: the subtree is in the trash unchanged and nothing else has moved, or nothing has changed |
| `TrashSingle.FailedDeleteLosesIff` | src/agent_pbx/files.py:885-891 | a failed delete loses the subtree exactly if the manifest write fails and renaming back fails too, because the entry is removed in any case |
| `TrashSingle.RestoreMovesOrRefuses` | src/agent_pbx/files.py:944-992 | a restore moves the subtree home unchanged, or leaves the tree as it is; a failed manifest write is reported as a failure although the subtree has moved |
| `TrashSingle.DeleteThenRestore` | src/agent_pbx/files.py:803-1001 | deleting a path and restoring it gives the project back exactly |
| `TrashBatch.MoveAllWorks` | src/agent_pbx/files.py:1061-1088 | the loop of renames stops where a rename fails, moves exactly the entries before it, and moving back from there restores the tree |
| `TrashBatch.PruneIsAllOrNothing` | src/agent_pbx/files.py:1061-1090 | whichever call of a prune fails, if renaming back works: all listed entries are in the quarantine, or everything is as before |
| `TrashBatch.PruneMovesDue` | src/agent_pbx/files.py:1003-1090 | a prune is accepted exactly if its list is that of the entries whose manifest in the trash is active and expires at the cutoff or before, and no call fails; then an entry leaves the trash exactly if it is one of them |
| `TrashBatch.UndoIsAllOrNothing` | src/agent_pbx/files.py:1116-1153 | whichever call of an undo fails, if renaming back works: all entries of the batch are back, or nothing has changed |
| `TrashBatch.PruneThenUndo` | src/agent_pbx/files.py:1039-1159 | a prune and its undo leave every entry and everything else as it was; only the directories made for the batch and its record remain |
| `TrashBatch.FailedPruneLosesIff` | src/agent_pbx/files.py:1081-1089 | a failed prune loses exactly the entries it had moved and could not move back, because the quarantine is removed in any case |
| `TrashBatch.FailedUndoStrandsIff` | src/agent_pbx/files.py:1116-1159 | a failed undo leaves in the trash exactly the entries it had moved and could not move back, the batch stays applied, and if there is such an entry every further undo is refused because it is in the way; without one nothing has changed |
| `TrashRuns.EventKeepsAccounted` | src/agent_pbx/files.py:803-1159 | every delete, restore, prune, undo and outside change keeps: each entry ever made is at its place and nowhere else, whole, and known to its batch record |
| `TrashRuns.NothingTrashedIsLost` | src/agent_pbx/files.py:803-1159 | over any run from an empty trash, with a failure at any call, each deleted subtree is in exactly one place, the trash or one quarantine, with unchanged content, until it has been restored |
| `TrashRuns.AccountIsOpenedByDelete` | src/agent_pbx/files.py:803-908 | what is accounted for is what stood at the target when it was deleted |
| `TrashRuns.AccountsNeverChange` | src/agent_pbx/files.py:803-1159 | what the accounts say was deleted, and from where, never changes, and what was restored stays restored |
| `TrashRuns.PruneTakesWhenDue` | src/agent_pbx/files.py:1003-1090 | in any run an accepted prune takes a deleted entry out of the trash only at or past the expiry it was deleted with, and then does take it unless it has been restored |
| `TrashRuns.StaysUntilDue` | src/agent_pbx/files.py:803-1159 | so an entry stays in the trash over any run whose prunes all have cutoffs before its expiry |
| `TrashRuns.RestoreKeepsAccounted` | src/agent_pbx/files.py:930-1001 | when a restore takes the content out of an entry, the original place holds exactly what was deleted |
| `TomlLiteral.FindTrailingComment` | src/agent_pbx/codex_config.py:891-902 | the loop with its two flags finds the first hash outside of double quotes and returns what follows, stripped |
| `TomlLiteral.AfterLiteral` | src/agent_pbx/codex_config.py:865-902 | after every printed literal the scanner is outside of strings, expects no escaped character and has seen no bare hash |
| `TomlPrinter.RewrittenKeepsComment` | src/agent_pbx/codex_config.py:661-665 | rewriting a line keeps exactly its comment, and rewriting it again with the same value changes nothing |
| `TomlPrinter.LiteralOneLineIff` | src/agent_pbx/codex_config.py:859-883 | a printed literal is on one line exactly if no key of its maps is an identifier followed by a newline, which the key pattern lets through |
| `TomlPrinter.KeyOneLineIff` | src/agent_pbx/codex_config.py:859-862 | a printed key is on one line exactly if it is not such a key |
| `TomlPrinter.PrintsIff` | src/agent_pbx/codex_config.py:865-883 | a value is printed exactly if it has no null but as an entry of a table, and nothing of an unknown type |
| `TomlReader.LiteralReadsIff` | src/agent_pbx/codex_config.py:859-883 | a reader of TOML values, written apart from the printer, gets the printed value back less its null entries, whatever follows, exactly if all strings and keys have readable characters only, no key is an identifier with a newline or there twice, and all floats are finite; otherwise it refuses the text |
| `TomlReader.StringReadsBackIff` | src/agent_pbx/codex_config.py:873-874 | a printed string of any code points, surrogates included, reads back as a TOML basic string exactly if every character is below U+D800 or from U+E000 to U+FFFF; otherwise TOML refuses it |
| `TomlReader.SurrogatesAreRefused` | src/agent_pbx/codex_config.py:873-874 | the two kinds of strings that are accepted, printed and then refused: with a lone surrogate, which JSON may bring in, or with a character above U+FFFF, printed as two surrogates |
| `TomlReader.FloatReadsIff` | src/agent_pbx/codex_config.py:871-872 | a printed float reads as the same number exactly if it is finite: the others are printed by names that TOML refuses |
| `TomlReader.IntReads` | src/agent_pbx/codex_config.py:869-870 | a printed integer of any size and sign reads as the same number |
| `TomlPrinter.ScannerAgreesIff` | src/agent_pbx/codex_config.py:891-902 | on any line the scanner finds the comment where TOML has it exactly if nothing before that place stops the scan and, when there is a comment, the scanner takes no double quote to be open there |
| `TomlPrinter.ScannerAgreesWithToml` | src/agent_pbx/codex_config.py:891-902 | this is so on every line without single-quoted strings |
| `TomlPrinter.SingleQuotedIff` | src/agent_pbx/codex_config.py:891-902 | behind a single-quoted value the scanner finds the comment where TOML has it exactly if the value has no hash that the scanner takes for one and, when a comment follows, leaves no double quote open; then an edit keeps the comment |
| `TomlPrinter.SingleQuotesFoolScanner` | src/agent_pbx/codex_config.py:891-902 | behind every key a single-quoted hash is taken for a comment |
| `TomlText.SplitOfJoin` | src/agent_pbx/codex_config.py:886-888 | lines that are joined are split into the same lines; no lines at all may become one blank line |
| `LineForms.SplitLinesAreCut` | src/agent_pbx/codex_config.py:650-655 | a text is split behind each break of its lines, a carriage return with a newline being one break, and only a last line that is not empty may lack one |
| `LineForms.AssignedKeyIff` | src/agent_pbx/codex_config.py:151-151 | a line assigns a key exactly if it is blanks, the key, blanks, an equals sign and anything |
| `LineForms.TableNameIff` | src/agent_pbx/codex_config.py:150-150 | a line is a header exactly if it is blanks, a name in brackets without a bracket inside, blanks and perhaps a comment; the name counts stripped |
| `LineForms.WordIsPrinted` | src/agent_pbx/codex_config.py:859-862 | an identifier is printed as it is, also with a newline behind it |
| `LineForms.OthersAreQuoted` | src/agent_pbx/codex_config.py:859-862 | every other key is quoted |
| `LineForms.AppendedIs` | src/agent_pbx/codex_config.py:818-827 | a new table stands behind everything, after one blank line unless one is there |
| `LineForms.InsertedIs` | src/agent_pbx/codex_config.py:668-682 | where a new top-level key stands, and on which side it gets a blank line |
| `TomlText.WellFormedWithIff` | src/agent_pbx/codex_config.py:802-815 | a text with one more line is well-formed exactly if the rest is, the line is, and its key is new to its table |
| `TomlEditor.SetTopLevelKey` | src/agent_pbx/codex_config.py:650-682 | the loops over the lines and the list edits compute the specified new text, or refuse a value that cannot be printed |
| `TomlEditor.SetTableKey` | src/agent_pbx/codex_config.py:746-771 | the same for a key of a table |
| `TomlEditor.FindTableBounds` | src/agent_pbx/codex_config.py:802-815 | the loop returns where the table begins and ends |
| `TomlEditor.AppendTable` | src/agent_pbx/codex_config.py:818-827 | the new table with its key stands behind everything else, after a blank line if there was text |
| `TomlLaws.BoundsEnclose` | src/agent_pbx/codex_config.py:802-815 | with no header twice, the bounds enclose exactly the lines of the table |
| `TomlLaws.AssignmentReads` | src/agent_pbx/codex_config.py:661-665 | a written line reads as its key, its value and its comment |
| `TomlLaws.TopEditIsOk` | src/agent_pbx/codex_config.py:650-682 | setting or removing a top-level key of well-formed lines: the key reads as the new value or is gone, every other key of every table, all comments and all headers are as before, and the lines are well-formed |
| `TomlLaws.TableEditIsOk` | src/agent_pbx/codex_config.py:746-827 | the same for a key of a table; a header is added exactly for a table that had none |
| `ConfigEdits.EditLaw` | src/agent_pbx/codex_config.py:650-682 | the get, set and frame law for whole texts |
| `ConfigEdits.LinesStay` | src/agent_pbx/codex_config.py:650-827 | in any text, whatever its lines hold, an edit replaces or removes one line that assigns the key, or inserts one block, the assignment behind the header of a table that was missing, with at most one blank line; every other line stays, in order |
| `ConfigEdits.EditKeepsLines` | src/agent_pbx/codex_config.py:650-827 | on well-formed text these are the lines of the new text |
| `ConfigEdits.EditTwiceIsOnce` | src/agent_pbx/codex_config.py:650-771 | setting the same key and value twice equals setting it once, and removing twice equals removing once |
| `ConfigEdits.EditsOverlay` | src/agent_pbx/codex_config.py:249-293 | any sequence of edits equals the ordered overlay: every key reads as its last edit says, or as before |
| `CodexConfig.ConfigFile.Patch` | src/agent_pbx/codex_config.py:224-303 | a patch is refused exactly if some part of it is, and then the file and its backup are untouched; otherwise the file holds the text after all edits in order, and the old text is backed up if anything changed |
| `CodexConfig.PatchFixed` | src/agent_pbx/codex_config.py:249-282 | updates, removals, MCP keys, the keymap and the theme are applied in this order by calls of the editor |
| `CodexConfig.PatchSecrets` | src/agent_pbx/codex_config.py:284-293 | secrets are applied in order, each on the text that the one before left |
| `CodexConfig.PatchIsOverlay` | src/agent_pbx/codex_config.py:224-303 | a patch that is not refused is the ordered overlay of its parts on the text; it keeps the text well-formed and every header, and without removals every comment |
| `CodexConfig.OverlayTwiceReadsAsOnce` | src/agent_pbx/codex_config.py:224-303 | the same edits once more change nothing that is read |
| `PatchLaws.SetsValue` | src/agent_pbx/codex_config.py:650-827 | behind a set of a key by the editor, a reader finds the value that was set, less its null entries, exactly if it can be read; behind a removal the key is gone; every other key reads as before |
| `PatchLaws.AcceptedIff` | src/agent_pbx/codex_config.py:224-293 | if every text on the way can be parsed, a patch is refused exactly because of the requirements, an unknown key, a value that cannot be printed, an unknown preset, a theme that is no kebab-case name, or a secret without a value or a proper path |
| `PatchLaws.InvalidIsRefused` | src/agent_pbx/codex_config.py:235-248 | a text that cannot be parsed is refused, unless it is blank |
| `PatchLaws.WordsAreKebab` | src/agent_pbx/codex_config.py:268-273 | words of lower-case letters and digits, joined by hyphens, are accepted as the name of a theme |
| `PatchLaws.KebabIsWords` | src/agent_pbx/codex_config.py:268-273 | and every accepted name is such words |
| `PatchLaws.UpdateIsSet` | src/agent_pbx/codex_config.py:251-254 | behind a patch the last update of a key that is not removed is its value at the top level |
| `PatchLaws.RemovedIsGone` | src/agent_pbx/codex_config.py:255-258 | behind a patch no removed key is at the top level, updated or not |
| `PatchLaws.McpIsSet` | src/agent_pbx/codex_config.py:685-702 | the last MCP setting of a key is its value in the table of the server |
| `PatchLaws.KeymapIsSet` | src/agent_pbx/codex_config.py:705-727 | the preset sets the keys of composer and editor, or removes both |
| `PatchLaws.ThemeIsSet` | src/agent_pbx/codex_config.py:268-282 | the theme is its stripped name, or gone if that is empty |
| `PatchLaws.SecretIsSet` | src/agent_pbx/codex_config.py:730-799 | the last secret of a table of strings leaves the table that the parser found before it, with that one name set or removed and every other name as it was |
| `PatchLaws.OthersStay` | src/agent_pbx/codex_config.py:224-303 | every key that no part of the request names reads as before |
| `RateLimiter.EventClientRegistry.Register` | src/agent_pbx/events.py:35-53 | registers a new client with a fresh window, or refuses because of the limit or the id and changes nothing |
| `RateLimiter.EventClientRegistry.Update` | src/agent_pbx/events.py:55-62 | moves the cursor, never below zero, and the time last seen of one client |
| `RateLimiter.EventClientRegistry.Unregister` | src/agent_pbx/events.py:64-66 | removes one client |
| `RateLimiter.EventClientRegistry.AllowMessage` | src/agent_pbx/events.py:68-81 | allows and charges a message exactly if the client is known and its window, rolled forward after 60 seconds, has room |
| `RateLimiter.MessageMeans` | src/agent_pbx/events.py:68-81 | a message is accepted exactly if the window began 60 seconds ago or more or holds fewer than the limit, at least one; it is counted, in a new window if the old one is over, and moves the time last seen and nothing else; a refused one moves nothing |
| `RateLimiter.AcceptedIsBounded` | src/agent_pbx/events.py:35-81 | over any run of the registry on a clock that does not go back, with any number of disconnections and new connections under the same id, at most twice the limit is accepted in any half-open 60 seconds, and once more for every connection asked for in that time |
| `RateLimiter.BoundIsReached` | src/agent_pbx/events.py:35-81 | for every limit and every number of new connections there is a run on a clock that does not go back that reaches this bound: one connection gets twice the limit, a client id that connects again gets more |
| `RateLimiter.NeverRefusedWithinLimit` | src/agent_pbx/events.py:68-81 | a client that sends at most the limit in every such span is never refused while it is connected, however often it connects again |
| `RateLimiter.ClientsStayBounded` | src/agent_pbx/events.py:38-52 | with the check and the insertion as separate critical sections, the number of clients exceeds the limit by less than the number of registrations under way |
| `RateLimiter.OvershootHappens` | src/agent_pbx/events.py:38-52 | for every limit and every number of threads some interleaving passes the limit by exactly that number less one |
| `RateLimiter.LimitHoldsIff` | src/agent_pbx/events.py:38-52 | so the limit on clients holds exactly if registrations come one at a time |
| `Replay.PollIsGapFree` | src/agent_pbx/events.py:111-138 | for every filter, a poll without a reset from a cursor that is not 0 returns the visible events ever appended between the old cursor and the new one, in order, less those pruned behind the old cursor; so it returns all of them exactly if none of those pruned was visible |
| `Replay.VisibleIff` | src/agent_pbx/events.py:131-176 | with a role and an id that is not blank, a client sees exactly the events of which the subject, or a payload value under a key that names an agent, is one of its ids that are not blank; otherwise it sees every event |
| `Replay.EnvelopeBounds` | src/agent_pbx/events.py:111-156 | an envelope says the oldest and newest id, asks for a reset exactly if there are events but all have ids above the cursor plus one, is a snapshot exactly at a cursor of at most 0 or with a reset, and says more is available exactly if there are ids above its cursor |
| `Replay.EnvelopeHandsOut` | src/agent_pbx/events.py:102-138 | it hands out what the client sees of one slice of the journal, the newest events in a snapshot and the first ones behind the cursor otherwise, as many as the limit says, clamped to 1 and 500; its cursor is that of the last event of the slice |
| `Replay.SnapshotIsNewest` | src/agent_pbx/events.py:119-130 | a snapshot or reset returns the newest events and puts the cursor on the newest one |
| `Replay.CursorAdvances` | src/agent_pbx/events.py:126-130 | the cursor never moves back, and moves on whenever there is a newer event |
| `Replay.ResetFreeRunIsGapFreeIff` | src/agent_pbx/events.py:102-159 | over any run of appends, prefix prunes and polls, with appends and prunes also between the two looks of a poll, without a reset: a poller that takes over the returned cursor gets as many events as are visible between its first and last cursor, less those missed, and gets exactly those events once and in order if and only if none was missed |
| `Replay.UnhurriedMissesNothing` | src/agent_pbx/events.py:102-159 | none is missed if no prune falls between the two looks of a poll |
| `Replay.RunHandsOutTheirs` | src/agent_pbx/events.py:102-159 | such a run hands out exactly the events that the client sees among those appended between its first and last cursor, once and in order |
| `Replay.OthersMakeNoDifference` | src/agent_pbx/events.py:102-159 | so two runs over journals that differ only in events the client does not see hand out the same events between the same cursors |
| `Replay.OvertakenPollHasGap` | src/agent_pbx/events.py:111-130 | a prune between the two looks that takes an event behind the cursor makes a gap without a reset |
| `Replay.CursorIgnoresScope` | src/agent_pbx/events.py:126-138 | the cursors and resets of a run do not depend on the filter |
| `Replay.PollerCatchesUp` | src/agent_pbx/events.py:102-159 | such a poller reaches the newest event |
| `Replay.SocketMovesIff` | src/agent_pbx/api.py:5898-5914 | the web socket loop, which takes over the cursor of a non-empty answer only, moves on exactly if the next page shows something or resets |
| `Replay.SocketStalls` | src/agent_pbx/api.py:5898-5914 | a full page of events that a client may not see stops that loop, however many visible events follow |
| `ProcessTree.Walk` | src/agent_pbx/agent_adoption.py:121-140 | on any finite child graph the worklist ends with exactly the reachable pids, sorted and without repeats |
| `ProcessTree.IncreasingIsUnique` | src/agent_pbx/agent_adoption.py:140-140 | a sorted list without repeats is determined by its members |
| `LockWait.WaitForRelease` | src/agent_pbx/codex_sessions.py:379-395 | the loop ends, at the first turn that is stable or at or past the deadline, and says whether it is stable |
| `LockWait.BoundedIs` | src/agent_pbx/codex_sessions.py:369-378 | timeout and stable interval are raised to 0 and the poll interval to a hundredth of a second; none is changed otherwise |
| `LockWait.SleepsToDeadline` | src/agent_pbx/codex_sessions.py:395-395 | the loop sleeps one poll interval, but not past the deadline |
| `LockWait.AnswerMeans` | src/agent_pbx/codex_sessions.py:379-395 | True means an unbroken run of free probes that spans the stable interval; False means the deadline was reached without one |
| `LockWait.FreeInTimeIsSeen` | src/agent_pbx/codex_sessions.py:369-395 | a lock that stays free from early enough before the deadline is reported as free |
| `Tmux.BreakMoves` | src/agent_pbx/agent_adoption.py:651-668 | a break puts the pane alone into the new window and moves nothing else |
| `Tmux.BreakPaneIff` | src/agent_pbx/agent_adoption.py:651-668 | a break works exactly if the pane has company, the session is there and the window is new |
| `Tmux.JoinMoves` | src/agent_pbx/agent_adoption.py:779-787 | a join puts the pane into the window of its anchor and moves nothing else |
| `Tmux.KillWindowWorks` | src/agent_pbx/agent_adoption.py:840-849 | killing by name takes the window that alone has the name, with its panes, and nothing else |
| `Adoption.AgentPaneAdoptionService.Preview` | src/agent_pbx/agent_adoption.py:259-283 | records the plan in a new batch, or refuses an unknown agent |
| `Adoption.AgentPaneAdoptionService.Apply` | src/agent_pbx/agent_adoption.py:285-351 | an application step by step, with failing calls and a server that changes before the break, before the inspection and before the last command, computes the specified server and store |
| `Adoption.AgentPaneAdoptionService.Settle` | src/agent_pbx/agent_adoption.py:324-349 | from the inspection on: register, mark, remove the control window and complete, or put the pane back |
| `Adoption.AgentPaneAdoptionService.RestorePlacement` | src/agent_pbx/agent_adoption.py:754-798 | joins the pane to its first surviving sibling, if there is one |
| `Adoption.AgentPaneAdoptionService.RestoreRecord` | src/agent_pbx/agent_adoption.py:800-838 | registers the agent of the snapshot again, which merges it into the stored record, and then writes its mapping back or removes it; stops at the first write that fails |
| `Adoption.AgentPaneAdoptionService.Rollback` | src/agent_pbx/agent_adoption.py:353-388 | a rollback step by step computes the specified server and store |
| `AdoptionLaws.SurvivorIsFirst` | src/agent_pbx/agent_adoption.py:763-778 | the anchor is the first sibling of the list that is still there |
| `AdoptionLaws.RestoreGoesHome` | src/agent_pbx/agent_adoption.py:754-798 | putting back moves the pane into the window where its first surviving sibling now is and moves nothing else; without a survivor, without the pane, or if the join fails, nothing moves |
| `AdoptionLaws.AdoptionCompletes` | src/agent_pbx/agent_adoption.py:285-351 | a completed new adoption leaves the agent the only owner of pane and session; the pane was found alone in a window of the destination, with its pid, and that window is on record |
| `AdoptionLaws.SettledIsAlone` | src/agent_pbx/agent_adoption.py:324-332 | if nobody interferes after the inspection the pane is still there and alone, unless the service removed its window as the control window |
| `AdoptionLaws.FailureRestoresIff` | src/agent_pbx/agent_adoption.py:323-330 | what a failed application leaves of a pane it broke out: the pane is put back with its first surviving sibling exactly if it was inspected, a check or record failed and there is a sibling to join; otherwise it is left where it is, also when the inspection fails; and exactly when a mapping has been written |
| `AdoptionLaws.ApplyKeepsOwners` | src/agent_pbx/agent_adoption.py:285-351 | an application gives no pane and no session a second owner, however it ends |
| `AdoptionLaws.AgentComesBackIff` | src/agent_pbx/store.py:3310-3327 | registering a snapshot again overwrites the keys it has, except by null or a blank working directory, and leaves the others; the stored record becomes the snapshot exactly if it has no key that the snapshot lacks and every key that differs is written |
| `AdoptionLaws.RollbackRestores` | src/agent_pbx/agent_adoption.py:353-388 | a completed rollback puts the pane into the window of its first surviving sibling, marks the batch, which was not marked before, and writes agent and mapping back key by key and field by field: the agent is as in the snapshot exactly under that condition, the mapping exactly if no origin was added to it and the writer lease is the same |
| `AdoptionLaws.RollbackKeepsOwnersIff` | src/agent_pbx/agent_adoption.py:800-838 | a rollback keeps owners unique exactly unless it is allowed, has a sibling to join, no call up to the mapping fails, and somebody else has come to own the pane or session of the old mapping |
| `AdoptionRecords.PlanDescribes` | src/agent_pbx/agent_adoption.py:390-557 | a plan has the requested pane, or else the one in the agent's metadata, or else the mapped one; the first session id of four keys of the metadata; the requested origin or the mapped one; and says where the pane is, window, session, process and siblings in order |
| `AdoptionRecords.BlockedIff` | src/agent_pbx/agent_adoption.py:390-530 | a plan is blocked exactly unless the agent is a caller and no alias, has a session and a pane that runs no other session, the pane has company exactly if it is not yet in the destination, nobody else has pane or session, no writer lease is held, and the destination is neither empty nor the origin |
| `AdoptionRecords.ApplicableIff` | src/agent_pbx/agent_adoption.py:285-310 | a batch is applied exactly if it is an unblocked preview, the plan made anew is not blocked, and the pane is in the same window of the same name and session with the same process, start time and directory |
| `AdoptionRecords.RefusedChangesNothing` | src/agent_pbx/agent_adoption.py:285-310 | otherwise the application is refused and changes nothing |
| `AdoptionRecords.ApplicationRecords` | src/agent_pbx/agent_adoption.py:310-351 | what any application puts on record, failed ones too: the mapping names pane, window, session, process and start time as they are, the plan's session and origin or the earlier origin, and keeps the writer exactly if the pane is the same; the metadata of the agent agrees with it; it completes exactly if the pane arrives as planned and no call fails |
| `AdoptionRecords.MergeMeans` | src/agent_pbx/store.py:3310-3327 | merging metadata replaces a key exactly if the new value is not null, and not an empty working directory in the place of another |
| `AdoptionRecords.UnknownAgentReturns` | src/agent_pbx/store.py:3310-3327 | an agent that is gone by the time of a rollback is registered with the role and the keys of its snapshot, null ones apart |
| `AdoptionRecords.RevocableIff` | src/agent_pbx/agent_adoption.py:353-370 | a batch may be rolled back exactly if it has not been, is not past its retention, and its pane still runs the recorded process in the destination |
| `AdoptionRecords.RollbackEnds` | src/agent_pbx/agent_adoption.py:353-388 | otherwise nothing changes; an allowed rollback completes exactly if pane and a sibling are still there and no call fails, and writes each record exactly if no call before fails |
| `AdoptionRuns.RunKeepsInOrder` | src/agent_pbx/agent_adoption.py:285-388 | over any run of previews, applications, rollbacks and outside moves, exits and openings, also in the middle of applications and rollbacks and with any call failing, every pane is in exactly one window |
| `AdoptionRuns.ApplyLosesIff` | src/agent_pbx/agent_adoption.py:331-332 | whatever others do during an application, a pane that does not exit is gone afterwards exactly if the service removes the control window of the session it made and the pane is in it; otherwise it keeps its process |
| `AdoptionRuns.SurvivesIffNeverTaken` | src/agent_pbx/agent_adoption.py:285-388 | over any such run a pane that does not exit is there all the time exactly if no application of the run takes it with a control window, and then it keeps its process and is in exactly one window |
| `AdoptionRuns.ActingRollbacksAreFew` | src/agent_pbx/agent_adoption.py:353-388 | of the rollbacks of one batch that change a pane or a record, all but one were interrupted by a failing call behind the join; none changes anything once the batch is marked |
| `AdoptionReturns.QuietAdoptionSucceeds` | src/agent_pbx/agent_adoption.py:285-351 | an allowed adoption that nobody disturbs and in which no call fails completes: the pane has a window of its own and every other pane is where it was |
| `AdoptionReturns.AdoptionIsUndone` | src/agent_pbx/agent_adoption.py:259-388 | preview, application and rollback that nobody disturbs put every pane back into its window with its process; the agents are as before exactly if the agent already had a value for every key that an adoption writes, and otherwise it stays marked as popped in; the mappings are as before exactly if the adoption did not give a stored mapping its first origin |
| `AdoptionReturns.AdoptedAgentComesBackIff` | src/agent_pbx/agent_adoption.py:724-752 | the record of an adopted agent, written back, is as it was exactly if the agent had been popped in before, and every key that had no value keeps that of the adoption |
| `HandOver.FirstAdoptionLeavesMark` | src/agent_pbx/agent_adoption.py:353-388 | on one small server: a first adoption that is rolled back leaves the agent popped in on record |
| `AdoptionReturns.BystanderIsLost` | src/agent_pbx/agent_adoption.py:840-849 | if another client joins a pane to the control pane before the inspection, the adoption completes and that pane is gone |
| `HandOver.BystanderExample` | src/agent_pbx/agent_adoption.py:840-849 | such an adoption on one small server |
| `AdoptionReturns.CalmRunKeepsPane` | src/agent_pbx/agent_adoption.py:285-388 | if nobody touches the server during an application, no run loses a pane that does not exit, whichever calls fail |
| `AdoptionReturns.RolledBackTwice` | src/agent_pbx/agent_adoption.py:353-388 | a rollback whose last record fails, followed by the user breaking the pane out again, is followed by a second rollback of the same batch that changes it again |
| `AdoptionReturns.AdoptedCanGoHome` | src/agent_pbx/agent_adoption.py:353-388 | every undisturbed adoption leads to a world in which that can happen |
| `HandOver.TwiceExample` | src/agent_pbx/agent_adoption.py:353-388 | and on one small server it does |
| `AdoptionReturns.RollbackSharesPane` | src/agent_pbx/agent_adoption.py:800-838 | a run in which two allowed adoptions and a rollback of the first give a pane two owners, although there was none with two before |
| `HandOver.SharedAfterRollback` | src/agent_pbx/agent_adoption.py:259-388 | such a run on one small server, from its first preview to the second owner |

## Left out

- Byte layouts around the pixels: PNG chunks, colour tables, GIF headers and extensions, zlib, and the width and height fields.
- Pixels of PNG colour types: only the scanlines are modelled, not the step from bytes to colours.
- Half-block and external image previews: the character preview has the same sampling.
- Preview.LuminanceIs: computes in reals; floats round some colours to one less. The same goes for the scale in Preview.PreviewIsScaled and for Preview.CharIndexInRange.
- Floating-point rounding in preview sizes and region bounds: floor division stands in for it.
- TranscriptCache.CachedAnswerIsFullScanIff: is about files whose carriage returns stand in front of newlines, because the full scan splits text at any other carriage return and the cache does not; rewriting a file in place under the same inode and size is not modelled, nor is an inode that is used again, nor are bytes that are no UTF-8.
- The modification time that a stored result carries: every answer overwrites it.
- FileTree.RenameWorks: renaming onto something that exists is not modelled, because the trash never does so.
- TrashBatch.UndoIsAllOrNothing: a record write that fails may leave a temporary file beside the record, which the model does not have; the same goes for prunes.
- Permissions, symbolic links, path checks, preview tokens, git-tracked deletes, temporary files of failed writes and the ignore rule of the trash.
- Trash.ProjectTrash.ApplyTrashPrune: takes the id in a manifest to be the name of its directory; the order and byte counts of the preview are left out.
- TrashRuns.NothingTrashedIsLost: assumes that compensating renames succeed and that nothing else changes the trash, because the entry or quarantine is removed in any case after a failure.
- ConfigEdits.EditLaw: is about texts of one entry a line with bare keys; table names count as they are spelled, so a header written with quotes or blanks inside is another table to the editor and to the law; multi-line values and double brackets are outside.
- TomlReader.LiteralReadsIff: the reader knows what the printer writes and its like: no other escapes, single-quoted or multi-line strings, dates, underscores, other bases, dotted keys in inline tables, or arrays over several lines.
- Parsing of TOML as a whole, the managed requirements, the form of secret paths, file modes and the list of changed paths: parameters or left out.
- RateLimiter.EventClientRegistry.Update: returns a value where the source returns a shared object; aliasing of that object is not modelled.
- RateLimiter.AcceptedIsBounded: takes the clock readings in the order in which the lock is taken.
- Redaction and projection of events, and the agent list of a snapshot: recursion over values without state.
- Replay.SocketStalls: models the cursor of the web socket loop, not its messages.
- Tmux.BreakMoves: breaking out a window's only pane is taken to be refused; a plan asks for a sibling, so this is reached only if all siblings go between the plan and the break.
- Adoption.AgentPaneAdoptionService.RestoreRecord: registering an agent also fills in a missing working directory from its repository if that directory exists, follows special rules for operators, and touches its status and times; values of metadata are text, without blanks around ids.
- Adoption.AgentPaneAdoptionService.Apply: the server is taken to be ready; layouts, zoom and focus are one call that may fail; the records are written without others in between.
- Tmux.KillWindowWorks: matches window names exactly, not by prefix or pattern.
- Expiry of writer leases, time stamps of records, the shortening of window names and the reading of session ids from processes.
- AdoptionReturns.AdoptionIsUndone: says in which window each pane is, not in which order the panes of a window stand.
- LockWait.WaitForRelease: the probe of the lock is a parameter.
- The store, HTTP and web socket endpoints, authentication, the terminal interface and all other commands.
