# Patch engine, update protocol and log window

These modules model the parts of the repository in which state and order matter, and prove
what they promise.

* **The unified-diff engine** (`libs/patch.py`). A line is a sequence of bytes and a file a
  sequence of lines. The parser is a step function over its six mode flags, with the two nested
  loops of `parse` written as loops and proved to take the same steps; `PatchGrammar` says, apart from
  it, which files are accepted and what they stand for. The stream patcher, the
  check before patching, the already-patched detection, `_reverse`, `dump`, `diffstat` and the
  name normalisation work on the hunks the parser delivers; `SetApply` applies and reverts whole
  sets over named files. One declarative meaning ties them together: `Hunks.Splice` replaces the
  source range of every hunk by its target lines.
* **The cache update protocol** (`src/file_provider`). `Downloads.Downloader` is the queue with
  one reply in flight. `UpdateProtocol` is the state machine of all files, the queue and the
  broadcast of an outcome, slot by slot, so that `update` can be called while an outcome is being
  delivered. `CacheFiles` has the files on disk with their time stamps, and what a run of
  outcomes makes of them. `UpdatableFiles` has the objects; `UpdateService` puts them together and
  proves that every call on them is a step of the protocol and of the cache, so that the theorems
  about runs hold for the objects.
* **The shared instances** (`src/global/Env.h`). Any number of threads run `getShared`, one
  lock, look-up, creation or insertion at a time.
* **The log window** (`src/global/LogHandler.cpp`) and **the version text**
  (`src/global/VersionInfo.cpp`).

Lines are compared without the CR and LF bytes at their end (`Lines.StripAll`), as the engine
does; byte-for-byte statements are made for sources and hunks of one line-end style. `Fits` says
that hunks are ordered, disjoint, inside the file and counted as their heads say, `Aligned`
that target starts follow from source starts, `OldStands` that the file holds the source lines of
every hunk. Sources may hold LF and CRLF lines in any mixture.

## What does not hold

* **Marker lines.** The patcher reads a source line for every `\` line
  (`libs/patch.py:1091-1094`). It does what the hunks say exactly when no marker swallows a line
  that no hunk covers (`PatchTheorems.PatchRefinesSplice`, condition `MarkersHarmless`, which hunks
  without markers meet); `PatchExamples.MarkerSwallowsLine` is a hunk that loses a line.
* **The check before patching** never compares the last source line of a hunk
  (`Apply.CheckMissesLastLine`); `Apply.CheckGap` says exactly what is missing. A file that does
  hold all source lines passes exactly when every hunk has source lines or the patch creates a file
  (`Apply.StandingPassesCheck`): a hunk that only adds lines to an existing file is never applied.
  For hunks out of order it can compare with the lines of an earlier hunk and run out of range:
  on some file of `n` lines exactly when starts and counts alone allow it (`Validator.RaisesIff`),
  and only where a hunk overtakes one whose lines are still looked for (`Validator.RaisesNeeds`).
  Of two hunks the second must start inside the first, at its fourth line or later, and then such
  a file exists (`Validator.TwoHunksRaise`; `Validator.OutOfOrderRaises` is one).
* **Applying and reverting** through the file gives it back exactly under the condition of
  `Apply.ApplyThenRevert`. Reverting a patch that makes a new file removes the file, also where the
  file was there before; such a patch passes on any file, again and again
  (`Apply.NewFileAppliesAgain`); and a patch with target `+0,0` removes the whole file, even if it
  deletes only the first lines.
* **Reverting a set** turns every patch around but keeps their order (`libs/patch.py:978-990`).
  With a file of its own for each patch this does no harm: the set returns exactly when each file
  does, and each removed file is made again under its own name (`SetApply.DistinctFilesReturn`); a
  file removed under its source name, where the target has another, is not
  (`SetApply.RemovedUnderSourceName`). Reverted from the last patch to the first, patches that
  return one by one always return (`SetApply.OppositeOrderReturns`). Two patches for one file that
  move no line return exactly when they get along on the lines they share
  (`SetOrder.TwoPatchesReturn`, condition `OrderHarmless`); where they do not, reverting can report
  no error and leave another file (`SetExample.RevertLeavesAnotherLine`).
* **Empty ranges.** The unified format counts an empty range from the line before it, the patcher
  from the line itself. Through `apply` and `revert` a deletion without context never comes back:
  the check refuses the reversed hunk exactly when a line stands before it, and else the file was
  removed (`Apply.PosixDeletionRefused`). Called directly, the patcher puts the lines back one line
  too early (`PatchExamples.DeletionComesBackTooEarly`); `Revert.PosixDeletionReverts` says exactly
  when this does no harm. The same goes for an insertion without context
  (`Revert.PosixInsertionIs`).
* **The name `..`** is kept by the normalisation, although references to parent directories are
  to be removed; `Names.NormalizedIsSafe` says that nothing else is.
* **Normalised names** need not stand on a line of their own, so the dump of a parsed object is
  read back exactly when they do (`PatchSets.OwnDumpParsesBack`). The name `/ a` does, its normal
  form, a blank and `a`, does not (`DumpExample.NormalNameIsUnclean`), and a patch for it parses
  and is not read back (`DumpExample.OwnDumpIsNotReadBack`).
* **Update URLs** are built from section and name with `/`, so files with different keys can share
  one (`UpdateProtocol.KeysMayShareUrl`). Then the first of two outcomes ends both updates
  (`UpdateProtocol.SharedUrlBreaks`); the protocol invariant is proved for files with URLs of
  their own.
* **A download that could not be written in full** is rejected, but the truncated file stays and
  counts as cached from then on. A new version holds all of its data for good exactly when it was
  written in full (`CacheFiles.WrittenForGood`).
* **Foreign files** hide the newest version exactly when what follows the name and `_` does not come
  before its stamp (`CacheFiles.NewestWins`, for runs `CacheFiles.FoundAfterRun`). Versions of a file
  with a longer name can do this, such as `a_3` for `a` (`CacheFiles.LongerNameMayHide`); files whose
  names do not continue with `_` never do (`CacheFiles.ApartIs`).
* **The critical window** is cut by code units where the file holds UTF-8: it is whole
  exactly when every code unit of its last message takes one byte (`LogWindow.EvidenceIsWhole`,
  `LogWindow.AccentIsCut`).

## Model

| member | source | states |
|---|---|---|
| PatchParser.Parse | libs/patch.py:351-598 | the loops of `parse`, nested ones included, compute the run of the mode machine over the whole stream, for every stream of lines, and so they end |
| PatchParser.ReadHeader | libs/patch.py:366-385 | the nested header loop stops at the first line that starts a source name, or at the end of the file, with the mode machine in the same state |
| ParserModes.AlwaysOneMode | libs/patch.py:329-578 | over every input exactly one mode flag is set between cycles, or two after an invalid line under a `-0,0 +0,0` head, and these are one again when the next cycle is over; a stored source name goes with `filenames`, no target name survives a cycle, `hunkhead` has a patch without hunks, counters equal the lines taken so far, and no branch recorded as dead was taken |
| ParserModes.StepModes | libs/patch.py:355-578 | one cycle keeps all this, from any state that has it, on any line, and resolves the exception: one flag is left, unless the header loop of that cycle still runs |
| ParserSound.SuccessIsWellFormed | libs/patch.py:278-620 | a successful parse gives at least one patch; each has source, target and hunks, no hunk is invalid, and each hunk text holds exactly as many source and target lines as its head says, no fewer at any earlier line |
| PatchGrammar.ParsesIff | libs/patch.py:278-620 | a parse succeeds if and only if the file is one of the grammar: patches, each with header lines, one or more source names, a target name and one or more hunks, each hunk a head and lines that reach both counts of the head at the last line and not before; then lines of no patch |
| PatchGrammar.ParseIs | libs/patch.py:278-620 | of such a file the parse gives exactly the patches it stands for, headers, names, numbers, descriptions, texts and line-end counts, no error, and one warning for each empty hunk line, each hunk after which line ends are mixed, and lines behind the last patch |
| PatchLines.CountsMayBeLeftOut | libs/patch.py:545-567 | a file with counts left out of any of its hunk heads is parsed as the file with all counts written out |
| HunkHead.HeadIff | libs/patch.py:340 | a line is a hunk head if and only if it has the form of the regular expression: each range a number, or two numbers and a comma |
| HunkHead.HeadIsRead | libs/patch.py:545-569 | every such line is read as these four numbers, a missing count being 1, and the text up to the line end |
| HunkHead.MissingCountIsOne | libs/patch.py:562-567 | all four combinations of counts, for all numbers and any text behind the head |
| PatchLines.NameIsRead | libs/patch.py:480-483 | the name stands between the marker and a tab or the line end, without blanks around it |
| PatchLines.NamedIff | libs/patch.py:519-521 | there is none if and only if a tab or the end follows the marker |
| PatchLines.DescriptionIsRead | libs/patch.py:569 | the text behind the head, without its first byte and blanks at its end |
| PatchLines.EmptyIsContext | libs/patch.py:394-399 | a hunk line of CR and LF bytes only becomes a context line, any other stays |
| PatchLines.MixedIff | libs/patch.py:447-451 | line ends are mixed if and only if two hunk lines of the patch so far end differently |
| PatchLines.BadLineIsSkipped | libs/patch.py:422-430 | a line that can be no part of the hunk: the hunk is kept as an invalid one, with one error |
| PatchLines.SkippedWithoutTrace | libs/patch.py:462-475 | the lines behind it are skipped until a head or a source name comes |
| PatchLines.HeadEndsSkipping | libs/patch.py:463-466 | a head opens the next hunk of the patch, without a further error |
| PatchLines.NameEndsSkipping | libs/patch.py:467-470 | a source name ends the patch |
| HunkHead.ReadHeadIs | libs/patch.py:545-567 | a printed head is read as the same four numbers |
| Dump.ParseUndoesDump | libs/patch.py:1131-1140 | well-formed patches, printed and parsed, come back without errors: same headers, names, starts, counts and texts up to what printing drops from line ends |
| Dump.DumpParsesBack | libs/patch.py:278-583 | so does the result of every parse that succeeds |
| PatchSets.PatchSet.Parse | libs/patch.py:278-620 | the object holds its earlier patches and the parsed ones, all with normalised names; errors are those of this parse, warnings add up, one for each name with parent references in front and one for each patch in which either name is absolute, and the parse succeeds if there are patches and no errors |
| PatchSets.NamesDecideDump | libs/patch.py:1131-1140 | patches come back from their dump if and only if their names are clean |
| PatchSets.OwnDumpParsesBack | libs/patch.py:618-620 | so for the dump of what an object holds after a successful parse, with its normalised names |
| DumpExample.NormalNameIsUnclean | libs/patch.py:696-739 | the name `/ a` is clean and becomes a blank and `a`, which is not |
| DumpExample.OwnDumpIsNotReadBack | libs/patch.py:1131-1140 | a patch for it is a file that parses, and the dump of the object is not read back as its patches |
| PatchSets.PatchSet.NormalizeFilenames | libs/patch.py:684-744 | every patch keeps everything but its names; both become their normal forms, and warnings are counted |
| PatchSets.PrefixesOfNames | libs/patch.py:702-712 | in a Git or Mercurial patch `a/` is taken from the source name and `b/` from the target name, in another patch neither |
| PatchSets.WarningsAre | libs/patch.py:719-739 | names with parent references or slashes in front lose them; one warning for parent references of each name, one for slashes of either or both |
| PatchSets.PatchSet.Reverse | libs/patch.py:978-990 | every hunk of every patch, and nothing else, is turned around |
| PatchSets.ReverseHunksOf | libs/patch.py:981-984 | the loop over hunks swaps starts, counts and line kinds |
| PatchSets.ReverseTextOf | libs/patch.py:984-990 | the loop over lines turns `+` into `-` and back, in place |
| PatchSets.PatchSet.DumpLines | libs/patch.py:1131-1140 | the printing loops write exactly the lines that parsing undoes |
| PatchStream.SourceReader.GetLine | libs/patch.py:1067-1081 | lines come in order, then empty ones, and line ends are counted as they are read |
| PatchStream.PatchHunk | libs/patch.py:1090-1106 | the inner loop writes context and added lines restyled to the line end seen so far and reads one source line for all others |
| PatchStream.SkipToHunk | libs/patch.py:1085-1088 | the source is copied up to the line before the hunk |
| PatchStream.Patch | libs/patch.py:1052-1109 | the patcher for any file and any hunks, its exact output |
| PatchTheorems.EmittedIsTarget | libs/patch.py:1090-1106 | whatever the source looks like, a hunk writes its target lines, up to line ends |
| PatchTheorems.PatchRefinesSplice | libs/patch.py:1052-1109 | the patcher's output is the splice of all hunks into the source if and only if no marker line swallows a line outside the hunks |
| PatchTheorems.NoMarkersHarmless | libs/patch.py:1091-1094 | hunks without marker lines always meet that condition |
| LineEnds.EmittedStyled | libs/patch.py:1101-1106 | once a line of a one-style source has been read, every hunk line is written in that style |
| LineEnds.LeadingPlusVerbatim | libs/patch.py:1101-1106 | lines added before any source line is read are written as the patch has them |
| LineEnds.PatchedStyled | libs/patch.py:1052-1109 | source and hunks of one style give an output of that style |
| LineEnds.AdaptIs | libs/patch.py:1101-1106 | whatever the source: a hunk line takes the one line end of the lines read so far, if there is just one; else, mixed or none, it is written as the patch has it |
| Lines.SoleIs | libs/patch.py:1102-1103 | there is just one if and only if a line has it and none has another |
| Lines.EndOfText | libs/patch.py:1074-1080 | line ends are told apart, each of the three, or none |
| Revert.ReverseTwice | libs/patch.py:978-990 | reversing hunks is its own inverse |
| Revert.ReverseSwapsSides | libs/patch.py:984-990 | it exchanges source and target lines |
| Revert.ReverseFits | libs/patch.py:978-990 | reversed hunks fit the patched file wherever the hunks fitted the source |
| Revert.RevertUndoesApply | libs/patch.py:978-996 | for every LF or CRLF source, mixed in any way: patching, writing, reading and patching with the reversed hunks gives the source lines back if and only if the source held the source lines of every hunk |
| Revert.RevertIsExact | libs/patch.py:992-996 | in one line-end style, byte for byte |
| Revert.PosixDeletionReverts | libs/patch.py:1086-1094 | the patcher, called for a deletion without context whose target range is counted from the line before it and then for the reversed hunk, gives the source back if and only if nothing stands before the range or every deleted line equals the line before |
| Revert.PosixInsertionIs | libs/patch.py:1086-1106 | the patcher, called for an insertion without context whose source range is counted from the line before it, gives what the hunk says if and only if it names no line or every inserted line equals that line |
| PatchExamples.MarkerSwallowsLine | libs/patch.py:1091-1094 | a hunk with a marker line on three lines: the output is not what the hunk says |
| PatchExamples.DeletionComesBackTooEarly | libs/patch.py:1086-1094 | the second of three lines, deleted and put back: not the source |
| Matcher.MatchFileHunks | libs/patch.py:1013-1049 | the already-patched detection, loop by loop, for all files and hunks |
| Matcher.ComparedNext | libs/patch.py:1026-1037 | every hunk line but removed ones is compared, marker lines too |
| Matcher.DetectorMeaning | libs/patch.py:1013-1049 | on well-formed hunks it answers yes if and only if the target lines of every hunk stand at its target start |
| Matcher.DetectorAcceptsPatched | libs/patch.py:1013-1109 | it answers yes on every output of the patcher for the same hunks |
| Validator.Validate | libs/patch.py:881-944 | the check for every file and every list of hunks, in order or not, line by line, with the exception it can raise |
| Validator.CheckMeaning | libs/patch.py:881-944 | for hunks in order: nothing is raised, and `canpatch` if and only if the patch creates a file, or every hunk has source lines, the file reaches the last of them, and all before the last are there; also when fewer hunks are valid and when the file is reported as ending too early, whatever mismatches occur on the way |
| Validator.RaisesIff | libs/patch.py:890-936 | for any hunks: the check runs out of range on some file of `n` lines if and only if it may by starts and counts, each comparison going either way |
| Validator.RaisesNeeds | libs/patch.py:893-903 | whenever it does, one hunk overtakes another: every hunk between starts before the one before it would be through with the lines still looked for, and the last of them so late that these run out first |
| Validator.TwoHunksRaise | libs/patch.py:893-903 | for two hunks it does on some file if and only if the second starts inside the first, at its fourth line or later |
| Validator.OutOfOrderRaises | libs/patch.py:893-903 | files on which the index runs out of range: four source lines, and a second hunk on the last of them |
| Validator.PassHunk | libs/patch.py:917-936 | going on to the next hunk, after a match or a mismatch, loses no line of it |
| Apply.ApplyToFile | libs/patch.py:847-970 | what becomes of one file, there or missing, for any hunks, and how many errors are counted: kept, created, removed or rewritten, or an exception |
| Apply.AppliedMeaning | libs/patch.py:881-970 | for hunks in order, outcome and errors by what stands in the file |
| Apply.StandingApplies | libs/patch.py:881-970 | a file that holds the source lines is patched without errors if and only if the patch is applicable, else kept with errors |
| Apply.CheckGap | libs/patch.py:902-926 | the file holds all source lines if and only if the check passes and the last source line of each hunk, which it skips, is there too |
| Apply.CheckMissesLastLine | libs/patch.py:902 | a file that differs only there passes the check |
| Apply.StandingPassesCheck | libs/patch.py:890-944 | a file that holds all source lines passes if and only if each hunk has source lines or the patch creates a file |
| Apply.ApplyThenRevert | libs/patch.py:824-996 | applying and reverting a matching file both go through without errors and give the same bytes if and only if both directions are applicable, the patch does not make a new file, and one that removes the file covers all of it |
| Apply.CreateThenRevert | libs/patch.py:849-858 | a missing file is missing again if and only if the patch makes a new file and its reverse is applicable |
| Apply.AppliedTwice | libs/patch.py:948-953 | the same patch once more, if the check refuses it, is recognised as applied: no error but for a file that ends too early |
| Apply.NewFileAppliesAgain | libs/patch.py:938-941 | a patch that makes a new file passes on every file and puts its lines first |
| Apply.PosixDeletionRefused | libs/patch.py:937-970 | a deletion without context, applied: the file is removed if nothing stands before the range; its reverse is refused, with errors, whatever the file holds, if and only if something does |
| SetApply.FindFile | libs/patch.py:804-821 | the name found is that of a file, and where none is found neither name is one |
| SetApply.NothingFound | libs/patch.py:804-821 | no file is found if and only if none has a full name, nor, where both prefixes are there, a name without its prefix |
| SetApply.FoundInOrder | libs/patch.py:806-820 | full names come before those without prefix, the source before the target |
| SetApply.PrefixesStripped | libs/patch.py:811-820 | a patch for `a/f` and `b/f`, neither of them a file, does what the patch for `f` does |
| SetApply.NewFileUnderTarget | libs/patch.py:849-858 | where none is found, a patch that makes a file makes the target |
| SetApply.NoFileIsError | libs/patch.py:859-862 | any other changes nothing and is one error |
| SetApply.Folder.ApplyPatch | libs/patch.py:847-970 | the files after one patch, its errors, and whether it raised |
| SetApply.Folder.Apply | libs/patch.py:824-975 | the loop over the patches: files, sum of errors, end at the first exception |
| SetApply.Folder.Revert | libs/patch.py:992-996 | a turned copy of the set is applied, in the order of the set, which stays as it is |
| SetApply.OneReturnsIff | libs/patch.py:992-996 | applying and reverting one patch leaves all files as they were if and only if its file comes back and, where the patch removes it, is made again under its name |
| SetApply.RemovedUnderSourceName | libs/patch.py:849-854 | which a file removed under a source name that differs from the target is not |
| SetApply.SetIsSeparate | libs/patch.py:838-970 | patches without common names: each does to its files what it would do alone, whatever errors other patches meet, the errors add up, and no other file changes; only an exception ends the run |
| SetApply.DisjointSetReturns | libs/patch.py:978-996 | such a set returns if and only if every patch alone does |
| SetApply.DistinctFilesReturn | libs/patch.py:978-996 | that is, if and only if every file comes back, under its name |
| SetApply.OppositeOrderReturns | libs/patch.py:992-996 | any set whose patches return one by one on the files they meet does so from the last to the first |
| SetApply.SourceOrderReturns | libs/patch.py:978-996 | and in the order of `revert` if and only if that order makes no difference on the patched files |
| SetOrder.AppliedInPlace | libs/patch.py:881-970 | a patch that moves no line and has no marker lines, on any file of that size and style: it writes its lines if those the check compares are there, else it finds its lines already there, or errors are counted |
| SetOrder.TwoOnOneFile | libs/patch.py:978-996 | two such patches for one file, reverted in their order, give it back if and only if the first keeps the lines both cover, the second keeps those of them that the check compares for the first, and either those that it compares for the second too or all lines outside the first |
| SetOrder.TwoPatchesReturn | libs/patch.py:978-996 | so for the set of both, with all other files |
| SetExample.OneLineIsRewritten | libs/patch.py:902-926 | a hunk of one line is applied to every file of one line |
| SetExample.RevertLeavesAnotherLine | libs/patch.py:978-996 | `a` to `b` and `b` to `c`: reverting both reports no error and leaves `b` |
| DiffStat.Diffstat | libs/patch.py:747-798 | the whole text: the totals, and one row per patch with its name, its changes, and a histogram that fits the width, keeps every non-zero side visible and is otherwise the exact share, rounded down |
| DiffStat.Histogram | libs/patch.py:780-793 | the two branches for one row, without division by zero |
| DiffStat.MaxDiffIs | libs/patch.py:766-767 | the scale is the largest number of changes of any patch |
| DiffStat.CountsAreLines | libs/patch.py:747-758 | for a patch and for all: insertions are the number of `+` lines of all hunks, deletions that of `-` lines, by counting positions |
| DiffStat.RowsFit | libs/patch.py:768-794 | a row takes 80 columns with its line end, or, where name and total leave less, two more than they need; bars and totals stand in columns of their own |
| DiffStat.CountIsLineChange | libs/patch.py:747-763 | insertions minus deletions is the change in lines the patcher makes |
| DiffStat.DeltaIsSizeChange | libs/patch.py:754-763 | `delta` is the change in bytes the patcher makes to a matching source |
| Names.XStrip | libs/patch.py:143-156 | the loop ends with a name that is not absolute; every round shortens it |
| Names.NormalizeName | libs/patch.py:696-739 | both loops for one name, and the two warnings |
| Names.PlainStays | libs/patch.py:696-744 | a relative name of plain components stays as it is |
| Names.PrefixIsStripped | libs/patch.py:702-712 | it loses the prefix in a Git or Mercurial patch, and in no other |
| Names.ParentsAreStripped | libs/patch.py:717-726 | parent references in front, however many, are taken away, and nothing else |
| Names.SlashesAreStripped | libs/patch.py:728-739 | so are slashes |
| Names.DriveIsStripped | libs/patch.py:143-156 | and a drive |
| Names.ParentFolds | libs/patch.py:136-141 | a parent reference takes away the component before it, anywhere in a path |
| Names.DotsFold | libs/patch.py:136-141 | empty components and single dots do not count |
| Names.NormalizedIsSafe | libs/patch.py:684-744 | for every name: not absolute in the sense of any platform, no `../` in front, and no parent reference anywhere unless the folded name consists of nothing else, and then it is `..` |
| Names.ParentItselfIsKept | libs/patch.py:717-726 | the name `..` passes through |
| Downloads.Downloader.ScheduleDownload | src/file_provider/Downloader.cpp:37-42 | a request is appended to what is outstanding; an idle downloader starts at once |
| Downloads.Downloader.StartDownloadIfPending | src/file_provider/Downloader.cpp:45-68 | nothing happens while a reply is in flight or the queue is empty, else the oldest request starts |
| Downloads.Downloader.FinishReply | src/file_provider/Downloader.cpp:117-171 | a reply in flight always has its request, the head of the queue, and gives one signal with its URL |
| Downloads.OutcomeIs | src/file_provider/Downloader.cpp:134-170 | unnecessary if and only if trusted with 304; success if and only if trusted with 200, with its own data and its time, or now; else a failure, with its code: not trusted, not found for 404, the network error, or other |
| Downloads.Downloader.ReleaseReply | src/file_provider/Downloader.cpp:111-115 | the guard completes exactly that request and starts the next; scheduled is always completed, then current, then pending |
| Downloads.QueueIsFifo | src/file_provider/Downloader.cpp:37-68 | the queue is first in, first out, and never idle with requests pending |
| UpdateProtocol.StepInv | src/file_provider/UpdatableFile.cpp:149-328 | every step keeps the invariant, also a look-up or an update while an outcome is being delivered |
| UpdateProtocol.ReachableInv | src/file_provider/Downloader.cpp:37-171 | it holds in every state of every run |
| UpdateProtocol.QuiescentState | src/file_provider/UpdatableFile.cpp:306-328 | between deliveries a named file is updating if and only if exactly one request for its URL is pending or in flight; scheduled is completed, then outstanding, and each completed request gave one signal |
| UpdateProtocol.FewRequests | src/file_provider/FileProvider.cpp:32-54 | requests for files never exceed the files that are updating |
| UpdateProtocol.InternalDecreases | src/file_provider/Downloader.cpp:107-171 | every internal step lowers the measure of what is left to do |
| UpdateProtocol.Drains | src/file_provider/Downloader.cpp:107-171 | every run of internal steps, with any reply to each request, is no longer than the measure of its first state; it cannot go on if and only if everything scheduled is completed, in order, each with its signal, and no file is updating |
| UpdateProtocol.SharedUrl | src/file_provider/UpdatableFile.cpp:80-90 | two files share a URL if and only if section and name join to the same text |
| UpdateProtocol.KeysMayShareUrl | src/file_provider/FileProvider.cpp:36 | different keys, same URL |
| UpdateProtocol.SharedUrlBreaks | src/file_provider/UpdatableFile.cpp:149-204 | for any two named files with one URL there is a run that leaves both idle while a request of theirs is in flight |
| CacheFiles.DecodeEncode | src/file_provider/UpdatableFile.cpp:35-49 | a stamp is read back exactly |
| CacheFiles.EncodeOrder | src/file_provider/UpdatableFile.cpp:73-75 | the order of the names is the order of the times |
| CacheFiles.EncodeFields | src/file_provider/UpdatableFile.cpp:166-167 | year, month, day, hour, minute and second, in this order, as decimal numbers |
| CacheFiles.EncodeDecode | src/file_provider/UpdatableFile.cpp:35-49 | only the text of a date is read as one |
| CacheFiles.TimestampIff | src/file_provider/UpdatableFile.cpp:35-49 | a time is read from a path if and only if it ends with the text of that date and two characters or more stand before |
| CacheFiles.NewestWins | src/file_provider/UpdatableFile.cpp:35-77 | whatever is in the folder, the newest version is found if and only if no foreign file stands above it in name order; then its stamp is the one read |
| CacheFiles.NewestExists | src/file_provider/UpdatableFile.cpp:67-77 | where there is a version there is a newest one |
| CacheFiles.NothingCached | src/file_provider/UpdatableFile.cpp:67-77 | no path is found if and only if there is no version and no foreign file |
| CacheFiles.LongerNameMayHide | src/file_provider/UpdatableFile.cpp:70-71 | a version of `a_3` is taken for one of `a`, and its stamp is read |
| CacheFiles.ApartIs | src/file_provider/UpdatableFile.cpp:167 | a version of another name is foreign if and only if that name continues this one with `_` |
| CacheFiles.FilesAfter | src/file_provider/UpdatableFile.cpp:162-230 | after any run of outcomes exactly the files are there that were there or were brought, but for the dirty marks that were cleared |
| CacheFiles.StoredStays | src/file_provider/UpdatableFile.cpp:207-230 | over any run of outcomes nothing stored is changed, and only dirty marks are removed |
| CacheFiles.VersionStays | src/file_provider/UpdatableFile.cpp:162-230 | so every version of every file stays as it was stored |
| CacheFiles.DirtyIsNoVersion | src/file_provider/UpdatableFile.cpp:342-384 | a dirty mark is never a version |
| CacheFiles.MarkStays | src/file_provider/UpdatableFile.cpp:162-204 | after any run of outcomes a file is marked dirty if and only if it was and every outcome of its own was a failure |
| CacheFiles.WrittenForGood | src/file_provider/UpdatableFile.cpp:207-230 | a new version holds all its data after any further outcomes if and only if it was written in full; a truncated one stays truncated |
| CacheFiles.WriteReports | src/file_provider/UpdatableFile.cpp:207-230 | success is reported if and only if a new file holds all the data; an existing one is not touched |
| CacheFiles.FoundAfterRun | src/file_provider/UpdatableFile.cpp:67-77 | after any run the newest version is found if and only if no foreign file that was there or was brought, and was not cleared, stands above it |
| CacheFiles.ApartStaysOwn | src/file_provider/UpdatableFile.cpp:162-182 | which is so when none was there and none of the names continues this one with `_` |
| CacheFiles.TimestampNeverDecreases | src/file_provider/UpdatableFile.cpp:162-230 | over any run of outcomes, whatever other files it brings, the newest version never gets older; where it is found its stamp is read |
| UpdatableFiles.UpdatableFile.Update | src/file_provider/UpdatableFile.cpp:306-328 | an idle named file schedules its URL once, conditional on the stamp it holds; any other does nothing |
| UpdatableFiles.UpdatableFile.OnDownloadSuccess | src/file_provider/UpdatableFile.cpp:162-182 | only the file with that URL reacts: the folder takes the step of this outcome, flag and connections are gone |
| UpdatableFiles.UpdatableFile.OnDownloadFailed | src/file_provider/UpdatableFile.cpp:185-193 | only the flag of the file with that URL is cleared |
| UpdatableFiles.UpdatableFile.OnDownloadUnnecessary | src/file_provider/UpdatableFile.cpp:196-204 | as before, with the dirty mark |
| UpdatableFiles.UpdatableFile.LookupPath | src/file_provider/UpdatableFile.cpp:263-288 | cache before resource before default path; a dirty file that is not updating yet schedules its URL |
| UpdatableFiles.UpdatableFile.MarkDirty | src/file_provider/UpdatableFile.cpp:360-385 | a named file gets its mark, once; nothing else changes, and without a name nothing does |
| UpdateService.Service.Update | src/file_provider/UpdatableFile.cpp:306-328 | the objects take the protocol's step |
| UpdateService.Service.GetFile | src/file_provider/FileProvider.cpp:32-54 | so does a look-up; it returns the object registered for the key, or a new one, which comes last |
| UpdateService.Service.Finish | src/file_provider/Downloader.cpp:117-171 | so does the end of a reply, with its URL and signal |
| UpdateService.Service.Deliver | src/file_provider/UpdatableFile.cpp:149-204 | a delivery is the protocol's delivery, or its delivery, disconnection and reset of the flag, and the folder's step for this outcome, stored under the time that came with it, if the file is still connected and the URL is its own |
| UpdateService.Service.Answer | src/file_provider/Downloader.cpp:107-171 | a reply for one of the files, from its end to the next request: its folder takes exactly the effect of this reply, and the file is connected no more |
| UpdateService.ReplyEffect | src/file_provider/UpdatableFile.cpp:162-204 | after 304 the dirty mark is gone and the versions are the same; after 404 or any failure the folder is as before; after 200 the mark is gone and a new version holds the data of the reply |
| UpdateService.Service.Release | src/file_provider/Downloader.cpp:111-115 | so does the guard |
| UpdateService.DeliveredIsSteps | src/file_provider/UpdatableFile.cpp:149-204 | these are enabled steps of the protocol |
| UpdateService.Service.UpdatingMeansRequested | src/file_provider/UpdatableFile.cpp:306-328 | for the objects, between deliveries: updating if and only if the downloader has exactly one request with that URL |
| UpdatableFiles.FileProvider.GetFile | src/file_provider/FileProvider.cpp:32-54 | one object per key; an existing one gets the new default path and nothing else changes; a new one has the given name and its URL, and is stored if it has a name |
| SharedInstances.StepInv | src/global/Env.h:253-270 | every step of every thread, and every copy or drop of a pointer, keeps the invariant |
| SharedInstances.OneSharedInstance | src/global/Env.h:240-271 | in every state of every run, for any number of threads: all live pointers handed out for a class point to the object in the table |
| SharedInstances.CreatedOnlyWhenNoneLives | src/global/Env.h:258-267 | an object is created only after the second look-up, and only when none of its class lives |
| SharedInstances.HeldIsReturned | src/global/Env.h:240-271 | in every run, for each pointer: as many are held as calls have returned it and copies were made, less those dropped |
| SharedInstances.HeldIsFinished | src/global/Env.h:240-271 | the same for each class, whichever objects they were |
| SharedInstances.CallReturnsPointer | src/global/Env.h:252-270 | a call entered for a class ends with one pointer more of that class, to the object in the table |
| SharedInstances.HeldIsFound | src/global/Env.h:254-262 | while a pointer is held, every look-up for its class finds its object |
| SharedInstances.NothingFound | src/global/Env.h:254-267 | a look-up finds nothing if and only if no pointer of the class is left, but for one just made and not yet in the table |
| SharedInstances.CallAdvances | src/global/Env.h:252-270 | a call makes at most ten steps |
| SharedInstances.SomeThreadMoves | src/global/Env.h:254-268 | as long as a thread is inside, some thread can move: the locks do not block one another for good |
| LogWindow.LogHandler.HandleMessage | src/global/LogHandler.cpp:313-370 | an open log grows by exactly this message; file, positions, flag and window stay in step |
| LogWindow.LogHandler.HandleLogWindow | src/global/LogHandler.cpp:353-370 | the window only fills up after an alarm, else it drops its oldest entry |
| LogWindow.LogHandler.GetCriticalLogWindow | src/global/LogHandler.cpp:157-169 | nothing before the first alarm since the reset; then the bytes of a run of consecutive messages, the last one cut to its code units |
| LogWindow.AlarmIsKept | src/global/LogHandler.cpp:360-369 | the first alarm is in that run, with as many messages before it as fit, and as many behind it as still do, however long the log grows |
| LogWindow.WindowReads | src/global/LogHandler.cpp:157-169 | positions and lengths in the window name exactly those bytes of the file |
| LogWindow.EvidenceIsWhole | src/global/LogHandler.cpp:369 | the run is read whole if and only if every code unit of its last message takes one byte |
| LogWindow.AccentIsCut | src/global/LogHandler.cpp:369 | one letter outside ASCII costs the line end |
| LogText.TextIsReadBack | src/global/LogHandler.cpp:117-124 | the bytes written for any text are read back, by section 3 of RFC 3629, as that text, but for halves of surrogate pairs |
| LogWindow.LogHandler.ReadLogFile | src/global/LogHandler.cpp:127-147 | a part of the file, or its rest; the write position is put back |
| LogWindow.LogHandler.GetBacklog | src/global/LogHandler.cpp:150-154 | exactly what was logged since the last reset, or everything |
| LogWindow.LogHandler.ResetBacklog | src/global/LogHandler.cpp:209-215 | nothing is lost from the log; the backlog starts here |
| LogWindow.LogHandler.SetLogfile | src/global/LogHandler.cpp:427-451 | switching off forgets everything; switching to the same state changes nothing |
| VersionInfo.ReadText | src/global/VersionInfo.cpp:58-73 | the loop over lines, the last entry of a key wins |
| VersionInfo.EntryIff | src/global/VersionInfo.cpp:64-70 | a line is an entry if and only if it has one colon and text on both sides; blanks around both, or none, do not matter |
| VersionInfo.ValueIs | src/global/VersionInfo.cpp:62-71 | a key has the value of its last entry, and no other key is there |
| VersionInfo.WriteText | src/global/VersionInfo.cpp:141-149 | the loop over the map, lines joined |
| VersionInfo.LinesOfText | src/global/VersionInfo.cpp:141-149 | one line `key: value` for each key, in the order of the walk |
| VersionInfo.RoundTrip | src/global/VersionInfo.cpp:58-149 | writing and reading gives the same map if and only if every key and value is non-empty, trimmed and free of `:` and line ends; the empty map included |
| VersionInfo.ReadTwice | src/global/VersionInfo.cpp:58-149 | what was read from any text survives being written and read again |

## Left out

- Dump.ParseUndoesDump: hunk descriptions are not printed, and names are those before normalisation; `dump` strips with text arguments and so works on the text strings of Python 2 only, which is the reading modelled here.
- PatchParser.Parse: the blocks of one cycle update a record of the local variables, not the variables one by one; that a hunk appended twice after an invalid line is one object is not captured.
- Names.NormalizeName: `normpath` belongs to the standard library and follows its documented behaviour for `/`; the type of a patch, found by patterns over header and names, is a parameter.
- DiffStat.Diffstat: shares are exact fractions, not floating-point numbers; names are measured in bytes.
- PatchStream.Patch: output lines are collected in a sequence instead of being yielded one at a time.
- Apply.ApplyToFile: backup files, their failures, directories and the copying of permissions are not part of this model.
- SetApply.Folder.Apply: names are those after stripping leading components; every name is a regular file or free, and two names are never one file.
- SetOrder.TwoPatchesReturn: hunks that move lines are covered by the statement about the two orders only (`SetApply.SourceOrderReturns`).
- UpdateService.Service.Deliver: the objects take the three steps of a slot in one call; calls from inside a slot are part of the protocol only.
- UpdateProtocol.StepInv: slots run directly, one after another, in the order of the connections; one made during an emission is first called for the next one; every reply finishes once with an arbitrary status. Nested event loops and files created without `getFile` are not modelled.
- UpdatableFiles.UpdatableFile.OnDownloadSuccess: the section folder exists and its files can be removed; the case of a folder that could not be created is not modelled.
- CacheFiles.NewestWins: the listing is any list of the folder in reverse name order; names are compared by character, matched with case, and no name holds wildcard characters.
- SharedInstances.OneSharedInstance: constructors do not call `getShared` themselves; the debug-only members that replace instances are left out.
- LogWindow.EvidenceIsWhole: half of a surrogate pair is written as one question mark; this belongs to the library that encodes the text.
- LogWindow.LogHandler.HandleMessage: formatting, forwarding and signals are left out, a message ends with LF, opening the log file never fails, and the capacity does not change at run time.
- VersionInfo.WriteText: the map is walked in any order that meets each key once; the order by key is one of them.
- Stripping leading components of names, reading patches from URLs, the command line and logging in `libs/patch.py`.
- Headers of requests, certificates and aborted transfers in the downloader: they end as one of the statuses.
- JSON and the getters of `VersionInfo`; log file names, copying and removal of old log files.
- The rest of the repository: card and network protocols, user interface, configuration parsing.
