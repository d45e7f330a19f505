# A verified model of the Coding Tools MCP runtime

This project models, in Dafny, the parts of the Coding Tools MCP server that hold shared state or rewrite
files, and proves what they promise.

| file | models |
|---|---|
| `FileSystem.dfy` | a file system in which every operation and every read may raise at any time, and which remembers every content it held and every unlink, mkdir and rmdir that raised |
| `Commit.dfy` | `AtomicPatchCommitter`: prepare, back up, install, roll back |
| `Staging.dfy` | `Runtime.apply_patch`: a list of operations compressed into one staged set |
| `Spans.dfy`, `Ordering.dfy`, `Permutations.dfy` | sorted spans, the back-to-front splice, the changed ranges |
| `Text.dfy` | splitting, joining, counting lines, line endings, the byte order mark |
| `Matching.dfy`, `Indents.dfy`, `Locating.dfy`, `Hunks.dfy`, `HunkProperties.dfy`, `Reapplying.dfy` | the hunk engine |
| `Aligning.dfy`, `Searches.dfy` | what its matching, its search and its indenting mean, character by character |
| `LineEdits.dfy`, `EditedLines.dfy` | the line-edit engine, and what a request means line by line |
| `Idempotency.dfy`, `KeyedCalls.dfy`, `Replays.dfy` | keyed at-most-once calls: the table under its lock, any number of callers racing through it, and what becomes of a recorded success |
| `Breaker.dfy` | the repeat-failure breaker, against a log of everything reported to it |
| `Output.dfy`, `Slots.dfy`, `Eviction.dfy` | command output, start slots and closing, the bound on retained output |
| `Journal.dfy` | the rotating event journal |

How the source's forms appear here. Code that changes fields is a class whose methods are proved against
functions of the old state; loops are loops with invariants. Each section of the source that runs under a lock
is one method, and the interleavings of several threads are runs of a state machine whose events use the same
functions as those methods. A raise, a short write or a kill is a nondeterministic choice inside the
operation that meets it, so every contract holds for every choice. The log of a breaker, the bytes written to
a stream or a journal, and the answers a key has given are ghost fields: they exist only to be compared with.

Where the code does something else than its documentation or its obvious reading suggests, the model follows
the code:

- `_shift_indent` puts extra indent in front of a line's own indent and drops from its front, so with tabs and
  spaces mixed an added line can get another indent than its neighbours (`Indents.ShiftMisplacesMixedIndent`).
- An update, even one found to be applied already, rewrites a file with mixed line endings to the ending of its
  first line (`Reapplying.ContextRewrites`, `LineEdits.IdleEditRewrites`; `LineEdits.IdleEditsAreIdentityIffUniform`,
  `HunkProperties.ContextPatchIsIdentityIffUniform` and `HunkProperties.AlreadyAppliedIsIdentityIffUniform` say when).
- An interrupted wait for a key unpins it without pruning, so the result cache can exceed its bound until the
  next pruning (`KeyedCalls.InterruptionOverflows` is such a run, `KeyedCalls.CacheIsBounded` says exactly when).
- A mkdir chain that raises half way leaves the directories it made (`Commits.HalfMadeChain`), and so does an
  rmdir that raises or a scratch file whose unlink raised; `Commits.Commit` ties what is left to those faults.
- A patch can be staged and run one by one and still not be committed at once, because a file stands in the way
  of a directory (`Staging.NotAtOnce`; `Staging.ApplyPatch` has the exact condition).
- The eviction pass sums up commands that go on writing, so it can end with more than 16 MiB held, whether or not
  it forgets any (`OutputEviction.ActiveOvershoots`, `OutputEviction.ForgottenOvershoots`;
  `OutputEviction.PassBounds` says exactly when). A running command that is remembered as well counts twice.
- Hunk application is not idempotent (`Reapplying.AppendsAgain`, `Reapplying.ContextAddsAgain`;
  `Reapplying.IdempotentIff` has the exact condition).
- Reports can name a line behind the number of lines reported with them: the line-edit engine's when the last
  line put together is empty and the file does not end with a newline (`LineEdits.ReportPastTheEnd`;
  `LineEdits.RangesWithinTotal` says exactly when), the hunk engine's when a replacement reaches the end of the file
  and leaves an empty piece there (`Reapplying.AddedPastTheEnd`; `HunkProperties.RangesWithinTotal`).
- A call that succeeded and was recorded is still answered with an internal error if tracing it or wording its
  answer raises; a later call with the key replays the success (`KeyedCalls.AtMostOnce`,
  `Replays.SuccessIsReplayed`).

The file system stands for a quiet one: nobody else writes to it during a call. Testing whether a path exists
does not raise, reading a file does. Paths are resolved paths, a digest is an injective function of the text,
and temporary names are fresh.

## Model

| member | source | states |
|---|---|---|
| `Commits.Commit` | coding_tools_mcp/patching.py:194-270 | For every list of staged files and every choice of raising steps: on success the disk held at every path of the set exactly the bytes and the mode of the baseline, or nothing if that was nothing, nothing stood where a directory has to be, and apart from scratch files whose unlink raised the disk is exactly the original with all writes and deletes done (files outside the set and `verify` paths included), with exactly the targets' directories added; on a plain failure it is exactly the original, bytes and modes; on a failed rollback every original is at its path or in the backup the error names. Every content the disk held in between is recorded behind the earlier ones, and in each of them every original was at its path or its recorded backup, or the whole set was installed. After a failure the directories are the old ones, those a broken mkdir chain left (named by the mkdir that raised), and those that could not be removed (each with its rmdir fault or with what lay in it); after a plain failure they are the old ones if and only if no mkdir raised half way, no rmdir raised and no file refused to go from a new directory. Without a raise the commit succeeds if and only if paths are unique, every path holds what its baseline says and nothing stands in the way of a directory, and otherwise files and directories are as they were. |
| `Commits.Prepare` | coding_tools_mcp/patching.py:205-208 | First phase: a success leaves one complete new file in a scratch place for every write and makes every parent; wherever it stops, no original has moved and every scratch file is known; without a raise only a file in the way of a directory stops it. |
| `Commits.PrepareOne` | coding_tools_mcp/patching.py:205-208 | One mutation of that phase: afterwards the directories are the old ones and those of the mutations up to this one, unless a mkdir raised half way. |
| `Commits.EnsureParent` | coding_tools_mcp/patching.py:328-335 | Makes exactly the missing ancestors, outermost first, each inside an old one or the one before. Only when a mkdir raises do directories stay that the caller is not told of: exactly those above the one that raised. Fails without a raise only for a file on the way, and then makes nothing. |
| `Commits.StrandedIff` | coding_tools_mcp/patching.py:328-335 | A mkdir that raises leaves something behind if and only if the directory right above it existed neither at the start nor for an earlier mutation. |
| `Commits.HalfMadeChain` | coding_tools_mcp/patching.py:328-335 | The example: two directories to make and the second mkdir raises; the first one stays, and no list of made directories names it. |
| `Commits.AssertBaseline` | coding_tools_mcp/patching.py:128-134 | The recheck: a conflict exactly if the baseline does not hold, or a read that raised. |
| `Commits.CapturedMatchesIff` | coding_tools_mcp/patching.py:119-134 | A baseline taken on one disk holds on another if and only if both have the same bytes and the same mode there, or neither has a file and the second no directory. |
| `Commits.PreparedThere` | coding_tools_mcp/patching.py:194-232 | So no update is lost: a set whose baselines were taken on one disk finds another as it was prepared for if and only if both hold the same file at every path of the set. |
| `Commits.BackUp` | coding_tools_mcp/patching.py:213-221 | Second phase: on success exactly the targets that existed have a backup; a conflict without a raise means a baseline no longer holds. |
| `Commits.BackUpOne` | coding_tools_mcp/patching.py:214-221 | One original moved to a reserved name, after its baseline was checked again. |
| `Commits.InstallAll` | coding_tools_mcp/patching.py:223-232 | Third phase: on success exactly the writes are installed; each new target is checked again before it is taken. |
| `Commits.InstallOne` | coding_tools_mcp/patching.py:224-232 | One prepared file moved onto its target. |
| `Commits.Switch` | coding_tools_mcp/patching.py:210-232 | Rechecking, backing up and installing together: success means every baseline held in the original files. |
| `Commits.Undo` | coding_tools_mcp/patching.py:303-314 | One target put back: the new file out, the original in, everything else untouched; fails without a raise only if the place is taken. |
| `Commits.UndoAll` | coding_tools_mcp/patching.py:301-314 | All targets, last first; if no step failed nothing is installed and no backup is left. |
| `Commits.Rollback` | coding_tools_mcp/patching.py:294-325 | After a rollback without errors no temporary file, backup or installed file is left. Every directory that stays was stranded, or its rmdir raised, or another directory or a file whose own unlink had raised lies in it; without any of these all directories made are gone, also when the rollback of the files failed. |
| `Commits.RemoveDirs` | coding_tools_mcp/patching.py:320-324 | Newest first: a directory stays exactly because its rmdir raised or because something still lies in it at the end; with no file and no stranded directory in the way all of them go. |
| `Commits.SweptNow` | coding_tools_mcp/patching.py:294-325 | From where the preparation stopped and what the removal met: the whole account of the directories by the mkdir and rmdir faults, and the condition under which nothing is left, in both directions. |
| `Commits.Fail` | coding_tools_mcp/patching.py:234-270 | The handler and the cleanup, which after a clean rollback goes over the backups as well, give the promises for failures and keep the crash safety, from any point where the phases can stop. |
| `Commits.Finish` | coding_tools_mcp/patching.py:255-270 | The cleanup after success gives the promise for commits; a backup that cannot be deleted is the only thing left over. |
| `Commits.LayoutMoveAside` | coding_tools_mcp/patching.py:217-220 | Moving an original onto its reserved name keeps the exact account of what every file on disk is for. |
| `Commits.LayoutInstall` | coding_tools_mcp/patching.py:228-231 | Installing a prepared file keeps that account. |
| `Commits.LayoutUninstall` | coding_tools_mcp/patching.py:304-305 | Taking an installed file out again keeps it. |
| `Commits.LayoutRestore` | coding_tools_mcp/patching.py:306-311 | Restoring an original keeps it and retires the backup. |
| `Commits.LayoutRecoverable` | coding_tools_mcp/patching.py:182-192 | Whatever phase the account describes, every original can be found by way of the recorded backups. |
| `Commits.LayoutDone` | coding_tools_mcp/patching.py:255-270 | With everything installed, taking away backups and litter leaves the original files with the set applied. |
| `Commits.NothingInside` | coding_tools_mcp/patching.py:320-324 | Going from the newest directory to the oldest, none to be removed contains another that is still there. |
| `Commits.UnobstructedReady` | coding_tools_mcp/patching.py:279-292 | Baselines that hold at the start still hold at every recheck, whatever directories were made in between. |
| `Staging.StagingIsRunning` | coding_tools_mcp/server.py:2991-3191 | With distinct primary paths, staging succeeds if and only if the operations can be run one by one on the files' contents and every file written over held text; the staged set then means exactly the files the run leaves, has one entry for every path touched, and every baseline is the snapshot from before the patch. Otherwise the error is the reason of the first operation that has one, and never the check for a deleted file. What a run on a tree of files and directories adds to that is the next rows. |
| `Staging.ClearRunsInTree` | coding_tools_mcp/server.py:2987-3191 | On a tree, where a file in the way of a directory stops an operation and writing makes directories: if no touched path lies below another one or below an original file, the run on the tree is the run on the contents, and the directories are those of the touched paths. |
| `Staging.ClearIsUnobstructed` | coding_tools_mcp/server.py:3190-3191 | Exactly under that condition nothing obstructs the commit of the staged set; and the directories it makes are those the run makes. |
| `Staging.NotAtOnce` | coding_tools_mcp/server.py:3190-3191 | What runs one by one need not go through at once: deleting a file and adding one below it stages and runs, but the touched paths are not clear of each other. |
| `Staging.LooserIsMaximum` | coding_tools_mcp/server.py:732-739 | Merging the match grades of chained updates keeps the looser of the two. |
| `Staging.OpSimulates` | coding_tools_mcp/server.py:3017-3186 | One operation: the same equivalence, from any stage reachable so far (chained moves, shared destinations, add over a moved file). |
| `Staging.AddSimulates` | coding_tools_mcp/server.py:3034-3061 | Adding: writes over a file staged by a move keep that move's mode and the first snapshot. |
| `Staging.DeleteSimulates` | coding_tools_mcp/server.py:3062-3074 | Deleting, also of a file that exists only in the stage. |
| `Staging.UpdateSimulates` | coding_tools_mcp/server.py:3154-3186 | Updating in place; text and mode equal to the baseline make it a `verify`, which leaves the same file. |
| `Staging.MoveSimulates` | coding_tools_mcp/server.py:3094-3153 | Moving, onto itself, onto a staged path or onto a file on disk; the mode travels with the source. |
| `Staging.BaselineSeen` | coding_tools_mcp/server.py:3100-3107 | A path's snapshot is taken once, before the patch, and never of a directory. |
| `Staging.AfterIsFinal` | coding_tools_mcp/server.py:3190-3191 | Committing the staged entries in any order gives the files that staging promised. |
| `Staging.StageReports` | coding_tools_mcp/server.py:698-740 | The evidence is about the final files: every revision is the digest of the path's final text and the total its number of lines, a missing revision means the path is gone, `unchanged` means the same bytes and mode as before and `update` that they differ, and paths without evidence are untouched. |
| `Staging.GradesReported` | coding_tools_mcp/server.py:714-740 | The match grade reported for a path is the loosest of the edits its text has come through since it was last written in full, and none if there was none. |
| `Staging.LabelsReported` | coding_tools_mcp/server.py:3034-3186 | Every path is reported as what the last operation naming it did: added, deleted, moved from where, or updated or left unchanged in place. |
| `Staging.AllReported` | coding_tools_mcp/server.py:3017-3206 | The paths reported are exactly those the operations name, and each is reported as the three rows above say. |
| `Staging.MutationReported` | coding_tools_mcp/server.py:3189 | The workspace is reported as mutated exactly if some path is reported as something other than unchanged. |
| `Staging.ChangedIff` | coding_tools_mcp/server.py:3160-3189 | Some path is so reported if and only if the files differ from before or the last operation naming some path was not an update in place; for a patch of updates in place, if and only if the files differ. |
| `Staging.MutatedIff` | coding_tools_mcp/server.py:3160-3191 | A path is written or deleted by the commit if and only if the last operation naming it was not an update in place, or that left another text or mode: what is found to be there already is verified and not rewritten. |
| `Staging.ApplyPatch` | coding_tools_mcp/server.py:2987-3206 | The whole tool on a real disk: a read that raises stops it, and otherwise it is refused exactly when the operations cannot be staged, with a repeated path, nothing to do, or the reason of the first operation that cannot be; either way, and on a dry run, nothing changes. On success files and directories are what running the operations one by one on the tree gives, and the report names exactly the touched paths, with revisions, totals, grades and what was done to them; the workspace is reported as mutated exactly if the files differ or more was asked than updates in place. At every moment of the commit every original could be found or all was installed. Without a raise a patch that is not refused succeeds if and only if the touched paths are clear of each other and of the original files, and otherwise everything is as before. A failed commit leaves the original files, a failed rollback a way to recover them, and either the account of directories that the commit gives. |
| `Staging.HasRepeat` | coding_tools_mcp/server.py:2996-3009 | Finds a repeated primary path exactly if there is one. |
| `Staging.StageOps` | coding_tools_mcp/server.py:3017-3186 | The staging loop computes the staged set that the equivalence is about, applying hunks on the way, unless a read raises. |
| `Spans.SpliceBackIsWeave` | coding_tools_mcp/patching.py:509-518 | Splicing from the last placement to the first equals the left-to-right weave of gaps and replacements. |
| `Ordering.SpliceAll` | coding_tools_mcp/patching.py:514-518 | The splice loop computes the weave. |
| `Ordering.SortSorts` | coding_tools_mcp/patching.py:495 | The sort returns the same placements, in order. |
| `Ordering.SortKeepsTies` | coding_tools_mcp/patching.py:495-514 | It is stable: placements with the same key stay in hunk order. |
| `Ordering.NeighboursSuffice` | coding_tools_mcp/patching.py:496-507 | Checking neighbours of a sorted list is checking all of it. |
| `Spans.MarginsMaximal` | coding_tools_mcp/patching.py:607-615 | The margins trimmed off a range are shared by both texts and as wide as they can be. |
| `Spans.UnchangedMargins` | coding_tools_mcp/patching.py:607-615 | The two loops compute those margins. |
| `Spans.ChangedRanges` | coding_tools_mcp/patching.py:537-569 | The loop computes the reported ranges. |
| `Spans.RangesHold` | coding_tools_mcp/patching.py:537-569 | Each reported range holds exactly the trimmed replacement lines in the new text, and its counts are right. |
| `Spans.OutsideIsUnchanged` | coding_tools_mcp/patching.py:537-569 | Cutting the ranges out of the new text and the trimmed spans out of the old leaves the same lines. |
| `Spans.ReportIsTruthful` | coding_tools_mcp/patching.py:537-569 | Both together, for any list of placements in order. |
| `Spans.ReportDescribesIff` | coding_tools_mcp/patching.py:537-569 | And no other text: ranges, counts and the lines outside determine the result, so the report describes a text if and only if that is the result. |
| `Spans.RangesEndInside` | coding_tools_mcp/patching.py:537-569 | For any list of placements in order, all ranges end before the last line of the result if and only if there is no placement, or the last one ends before the end of the old text, or leaves its last line alone. |
| `Spans.LastLineStays` | coding_tools_mcp/patching.py:537-569 | And then the last line of the result is the last line of the old text. |
| `Matching.FindsAll` | coding_tools_mcp/patching.py:983-997 | The search returns every match at or after the start, ascending, and nothing else. |
| `Matching.CandidatesGrow` | coding_tools_mcp/patching.py:975-997 | A place that matches at a grade matches at every looser one. |
| `Aligning.KeysMeet` | coding_tools_mcp/patching.py:975-997 | Two lines match at a grade if and only if they are equal; or equal up to whitespace at the end; or up to whitespace at both ends. |
| `Matching.SelectedIffSole` | coding_tools_mcp/patching.py:694-704 | Exactly one candidate is left after the end-of-file filter if and only if it is the sole match of its grade, or the sole one reaching the end under an end-of-file mark. |
| `Matching.FindAnchor` | coding_tools_mcp/patching.py:680-687 | The loop over the grades computes the anchor. |
| `Matching.AnchorIsFirst` | coding_tools_mcp/patching.py:680-687 | The anchor is the first line from the cursor on that matches at the strictest grade any of them reaches. |
| `Matching.ComputeIndentDelta` | coding_tools_mcp/patching.py:732-753 | The loop computes the shift. |
| `Matching.IndentDeltaIffAgreed` | coding_tools_mcp/patching.py:732-753 | A shift is found if and only if every line that is not blank on both sides has it. |
| `Indents.ShiftMeasures` | coding_tools_mcp/patching.py:740-753 | One line measures a shift if and only if both have the same visible text and one indent begins with the other; the shift is what is left of it. |
| `Matching.RebuildNewLines` | coding_tools_mcp/patching.py:707-729 | The loop computes the rebuilt lines. |
| `Indents.ShiftKeepsWidth` | coding_tools_mcp/patching.py:756-763 | A shifted line has the file line's visible text and indent width; it is the file line (up to trailing whitespace) if and only if the patch line's indent commutes with the shift: what is added behind it can as well stand before it, what is dropped from its end can as well be taken from its front. |
| `Indents.AddedLineAligns` | coding_tools_mcp/patching.py:722-763 | An added line with the same indent as a context line of the patch gets the indent that line has in the file under the same condition, and always its width. |
| `Indents.ShiftExactWhenUniform` | coding_tools_mcp/patching.py:732-763 | With one indent character throughout they are spelled alike. |
| `Indents.ShiftMisplacesMixedIndent` | coding_tools_mcp/patching.py:740-763 | With tabs and spaces mixed they need not be: the extra indent goes in front of the one it was measured behind. |
| `Aligning.ShiftAligns` | coding_tools_mcp/patching.py:732-763 | Any line shifted by what one context line measured keeps its visible text and is moved by as much as that line. |
| `Aligning.LocatedAligned` | coding_tools_mcp/patching.py:618-729 | Of every placement the search accepts: its span matches the context at its grade; every context line is kept as the file has it; every added line is the patch's own unless the match tolerated indents, and then it keeps its visible text and stands relative to every context line that is not blank as it does in the patch, with that line's indent spelled as in the file under the condition of the rows above. |
| `Aligning.PatchPlacedRight` | coding_tools_mcp/patching.py:481-493 | Over a whole patch: every hunk is skipped or placed once, in order, and every placement is such a one, or appends what a hunk without context adds. |
| `Locating.LocateHunk` | coding_tools_mcp/patching.py:618-671 | The loop over the grades computes the placement. |
| `Locating.SearchGrades` | coding_tools_mcp/patching.py:644-671 | The part of it after the anchor. |
| `Searches.LocateMeans` | coding_tools_mcp/patching.py:618-671 | The search for any hunk comes to one of these, said of the lines alone: the anchor is nowhere; nothing to find, so it is appended; the context stands in one place only at the strictest grade at which it stands at all (only one that reaches the end, under an end-of-file mark) with indents that agree, and is placed there; it stands in several places; it is missing and the hunk's result stands in one place; it is missing. It begins at the cursor or behind the first line that is the anchor at the strictest grade any line reaches. |
| `Searches.FoundOnce` | coding_tools_mcp/patching.py:618-671 | These outcomes exclude one another, and each has one place. |
| `Searches.BeginsOnce` | coding_tools_mcp/patching.py:634-639 | And one point from which the search begins. |
| `Locating.AcceptedIff` | coding_tools_mcp/patching.py:644-671 | A placement is accepted if and only if it is the sole candidate of its grade with none at any stricter grade, and at indent grade the indents agree. |
| `Locating.RebuiltKeepsContext` | coding_tools_mcp/patching.py:707-729 | Rebuilt text keeps every context line as the file has it, is the patch's text at exact grade, and is the old text for a hunk that changes nothing. |
| `Locating.LocatedFits` | coding_tools_mcp/patching.py:634-671 | The cursor never moves back, and a placement lies between the old cursor and the new one, or is appended at the end. |
| `Locating.AlreadyApplied` | coding_tools_mcp/patching.py:766-814 | The loop over the two strict grades computes the evidence. |
| `Locating.AlreadyIff` | coding_tools_mcp/patching.py:766-814 | A hunk's result is recognised if and only if it stands in one place only, from the search point on, at the strictest of the two grades where it stands at all. |
| `Hunks.ParseUpdateHunk` | coding_tools_mcp/patching.py:941-972 | The parse loop gives the two sides, the origins of the lines and the end-of-file mark, or refuses exactly the hunks with a malformed line. |
| `Hunks.ParsedWellFormed` | coding_tools_mcp/patching.py:941-972 | Every context line is traced to its own line of the old side, in order. |
| `Hunks.MarksMean` | coding_tools_mcp/patching.py:941-972 | What the first character of a hunk line stands for, and which lines are malformed. |
| `Hunks.SideAt` | coding_tools_mcp/patching.py:941-972 | Every line is on the sides its mark says, behind what the lines before it put there, and on no other; a context line is traced to itself. |
| `Hunks.MarkedAtEof` | coding_tools_mcp/patching.py:941-972 | The end-of-file mark counts wherever it stands in a hunk. |
| `Hunks.ContextOnly` | coding_tools_mcp/patching.py:941-972 | Context lines alone give two equal sides. |
| `Hunks.LocateHunks` | coding_tools_mcp/patching.py:481-493 | The loop places the hunks one after another. |
| `Hunks.PlacedForward` | coding_tools_mcp/patching.py:484-493 | Because the cursor only moves forward, replaced spans come out disjoint and in hunk order, and everything else is appended at the end. |
| `Hunks.CheckOverlap` | coding_tools_mcp/patching.py:496-507 | The loop finds the first overlapping neighbours. |
| `Hunks.NoOverlapIffOrdered` | coding_tools_mcp/patching.py:495-507 | The check passes if and only if the placements can be woven. |
| `Hunks.OverlapIff` | coding_tools_mcp/patching.py:495-507 | It fails if and only if some appended text meets a span that takes in the empty piece after the final newline and starts before it or belongs to an earlier hunk. |
| `Hunks.OverlapNames` | coding_tools_mcp/patching.py:496-507 | The two hunks an overlap names collide in that way. |
| `Hunks.LoosestIsMaximum` | coding_tools_mcp/patching.py:519-522 | The reported grade is reached by some hunk and exceeded by none. |
| `Hunks.WarnedIffTolerated` | coding_tools_mcp/patching.py:491-493 | Exactly the hunks placed at a looser grade are warned about. |
| `Hunks.Grading` | coding_tools_mcp/patching.py:491-522 | The loops compute grade and warnings. |
| `Hunks.ApplyUpdateHunks` | coding_tools_mcp/patching.py:468-534 | The engine: for any file text and hunks the result, or the reason for refusal, is the one the statements below are about. |
| `HunkProperties.RefusedIffCollision` | coding_tools_mcp/patching.py:495-507 | Once all hunks are placed, the patch is refused if and only if there is such a collision, and the error names one. |
| `HunkProperties.AppendedInHunkOrder` | coding_tools_mcp/patching.py:509-518 | Appended text ends up in hunk order. |
| `HunkProperties.ReportTruthful` | coding_tools_mcp/patching.py:468-569 | On success the new text is rewritten from the weave, which the report describes; and the report describes the file as it will be read again if and only if the weave is not empty, holds no CR or LF inside a line, and brings no byte order mark of its own. |
| `HunkProperties.RereadsIff` | coding_tools_mcp/patching.py:471-534 | Exactly such lines come back when the rewritten file is read. |
| `HunkProperties.TotalOfRewritten` | coding_tools_mcp/server.py:661-684 | The reported total of the rewritten file leaves out the empty piece after a final newline. |
| `HunkProperties.RangesWithinTotal` | coding_tools_mcp/server.py:661-684 | Every range ends within that total if and only if the last replacement ends before the end of the file or leaves its last piece alone, or the result does not end with an empty piece (or is empty, or is a byte order mark alone). |
| `Texts.NormalizeRestored` | coding_tools_mcp/patching.py:1012-1017 | Normalising undoes restoring. |
| `HunkProperties.ContextPatchIsIdentityIffUniform` | coding_tools_mcp/patching.py:468-534 | A patch that changes nothing returns the file byte for byte if and only if its line endings are uniform. |
| `Reapplying.ContextRewrites` | coding_tools_mcp/patching.py:468-534 | The example: one line of context, for a file of two lines with CRLF and LF, rewrites the second line to CRLF. |
| `HunkProperties.AlreadyAppliedIsIdentityIffUniform` | coding_tools_mcp/patching.py:481-534 | The same for a patch whose every hunk was applied already. |
| `HunkProperties.SkippedOnEvidence` | coding_tools_mcp/patching.py:668-671 | A hunk is skipped only if its own context matches nowhere at the strict grades from the search point on and its result stands in exactly one place. |
| `Reapplying.AloneIsTheEngine` | coding_tools_mcp/patching.py:468-534 | What the engine makes of a patch of one hunk, in terms of the one search. |
| `Reapplying.SkippedIff` | coding_tools_mcp/patching.py:644-671 | A hunk is skipped if and only if every grade passes on it (no match there, or the one match cannot be indented) and its result is evidence that stands in exactly one place. |
| `Reapplying.KeepsIff` | coding_tools_mcp/patching.py:618-671 | One hunk leaves the lines as they are if and only if it is skipped, or is placed where it puts back what is there, or has nothing to find and nothing to add. |
| `Reapplying.IdempotentIff` | coding_tools_mcp/patching.py:618-671 | Applying a hunk to its own result changes nothing more if and only if one of these holds of the search in the result. |
| `Reapplying.AppendsAgain` | coding_tools_mcp/patching.py:640-643 | It fails for a hunk with nothing to find: it appends again, so twice is once only if it adds no line. |
| `Reapplying.ContextAddsAgain` | coding_tools_mcp/patching.py:644-671 | And for a line of context with an added line behind it: the context still stands alone in the result, so the line is added once more. |
| `Reapplying.AddedPastTheEnd` | coding_tools_mcp/server.py:661-684 | A range that does: a line and an empty one added to a file without a final newline; it ends at line 3, and two lines are reported in all. |
| `Reapplying.RemovalNotSeen` | coding_tools_mcp/patching.py:471-534 | Removing the one piece an empty file consists of reports a removed line, and the file is what it was. |
| `Texts.RestoreIffUniform` | coding_tools_mcp/patching.py:1004-1017 | Putting the detected ending back over the normalised text is the identity if and only if the text has no bare CR and CRs before all of its LFs or before none. |
| `Texts.DetectsFirst` | coding_tools_mcp/patching.py:1004-1009 | CRLF is detected if and only if the first line ends with it. |
| `Texts.NormalizeIdempotent` | coding_tools_mcp/patching.py:1012-1013 | Normalising twice is normalising once. |
| `Texts.NormalLeavesNoCr` | coding_tools_mcp/patching.py:1012-1013 | Normalised text has no CR. |
| `Texts.JoinSplit` | coding_tools_mcp/patching.py:479 | Splitting a text at LF and joining it again is the identity. |
| `Texts.SplitJoin` | coding_tools_mcp/patching.py:479-518 | So is joining lines and splitting them again. |
| `Texts.StripBom` | coding_tools_mcp/patching.py:1000-1001 | A leading byte order mark is taken off, nothing else is, and the mark and the rest are the text. |
| `Texts.ReadBack` | coding_tools_mcp/patching.py:1000-1017 | Writing a text behind a file's byte order mark in any line ending and reading it again gives the text, but without a mark of its own if the file had none. |
| `Texts.TotalIsLines` | coding_tools_mcp/server.py:661-668 | The reported total is the number of lines of the text. |
| `Texts.TotalBehindBom` | coding_tools_mcp/server.py:661-668 | A byte order mark before them does not change it, unless nothing stands behind it. |
| `Texts.JoinLinesSplitLines` | coding_tools_mcp/changes.py:303-321 | Every text is its lines joined again. |
| `Texts.SplitLinesJoinLines` | coding_tools_mcp/changes.py:303-321 | The other round trip holds if and only if the last line is terminated or not empty, or there is neither a line nor a newline. |
| `Texts.ContentLinesAreWhole` | coding_tools_mcp/changes.py:288-300 | Replacement text is its lines; they hold no CR or LF; only the empty text has none. |
| `LineEdits.SpansSayWhatTheyAddress` | coding_tools_mcp/changes.py:189-250 | A parsed edit covers exactly the lines its request names, and only insertions cover none; they land behind exactly the lines up to the one named, or the ones before it. |
| `LineEdits.RequestIsValidIff` | coding_tools_mcp/changes.py:189-250 | Which requests are taken: content unless it is a deletion, a first line and possibly a last one not before it, or one line to insert after or before, and no field of the other kind. |
| `LineEdits.OperationsAgree` | coding_tools_mcp/changes.py:189-250 | Deleting is replacing by nothing; inserting after a line is inserting before the next. |
| `LineEdits.Place` | coding_tools_mcp/changes.py:364-390 | Placing fails exactly if some edit addresses a line that is not there, and names the first one; otherwise there is one placement per edit with its start, its end and its lines. |
| `LineEdits.RejectOverlaps` | coding_tools_mcp/changes.py:393-409 | The loop finds the first colliding neighbours. |
| `LineEdits.AcceptedIffCompatible` | coding_tools_mcp/changes.py:393-409 | The neighbour check accepts a set of edits if and only if all spans are pairwise disjoint and no two insertions share a point. |
| `LineEdits.ClearAcross` | coding_tools_mcp/changes.py:393-409 | In an accepted list only an insertion and then a replacement share a start. |
| `LineEdits.EditedIff` | coding_tools_mcp/changes.py:324-338 | A request is accepted if and only if every edit lies inside the file and all are compatible. |
| `EditedLines.RequestMeans` | coding_tools_mcp/changes.py:324-409 | A request is accepted if and only if every edit lies inside the file and no two share a line or a point of insertion. The file is then rewritten line by line: in front of each line what is inserted there, then what replaces the span that begins with it, and the line itself unless some edit covers it. Every edit is counted as applied, or reported as applied already if and only if its text was there. Otherwise the error names the first edit that addresses a line that is not there, or two that collide. |
| `EditedLines.OneEditMeans` | coding_tools_mcp/changes.py:324-390 | One edit by itself: the lines before it, its own, the lines behind it. |
| `EditedLines.WeaveLineByLine` | coding_tools_mcp/changes.py:340-348 | The weave of sorted placements is that file, line by line. |
| `LineEdits.ArrayOrderIsFree` | coding_tools_mcp/changes.py:324-356 | The order of the edits array changes neither the verdict nor the resulting file. |
| `LineEdits.OnlyChangingMatter` | coding_tools_mcp/changes.py:353-356 | Leaving out edits that change nothing does not change the result. |
| `LineEdits.ReportTruthful` | coding_tools_mcp/changes.py:345-361 | The report describes the lines put together, though it leaves out edits that change nothing; and it describes the file as it will be read again if and only if those lines are empty, or the file ends with a newline, or the last of them is not empty (and none holds a CR or LF, which parsed requests never do, and none brings a byte order mark). |
| `LineEdits.RereadsIff` | coding_tools_mcp/changes.py:349-352 | Exactly such lines come back when the rewritten file is read. |
| `LineEdits.RewrittenReads` | coding_tools_mcp/changes.py:349-352 | What comes back otherwise: an empty last line is gone if no newline follows it, and so is a byte order mark that has come to stand first. |
| `LineEdits.TotalOfRewritten` | coding_tools_mcp/changes.py:349-352 | The reported total of the rewritten file is the number of lines that come back, for any lines put together without a CR or LF inside; a byte order mark alone counts as one. |
| `LineEdits.RangesWithinTotal` | coding_tools_mcp/changes.py:345-361 | Every range ends within that total if and only if the file ends with a newline, or the last of the lines put together is not empty, or there are none, or the result is a byte order mark alone. |
| `LineEdits.ReportPastTheEnd` | coding_tools_mcp/changes.py:324-361 | The failing input: text with a newline inserted after the one line of a file without a final newline; the range ends at line 3 of a file of two. |
| `LineEdits.IdleAreUnchanged` | coding_tools_mcp/changes.py:359 | The edits reported as applied already are exactly those that change nothing. |
| `LineEdits.IdleEditsAreIdentityIffUniform` | coding_tools_mcp/changes.py:324-361 | Edits that change nothing return the file byte for byte if and only if its line endings are uniform. |
| `LineEdits.IdleEditRewrites` | coding_tools_mcp/changes.py:324-361 | The example: replacing line 1 of such a file by its own text rewrites line 2 to CRLF, and the edit is reported as applied already. |
| `LineEdits.ReverseSortAgrees` | coding_tools_mcp/changes.py:340-347 | The descending sort read backwards is the ascending one, for accepted edits. |
| `LineEdits.ApplyLineEdits` | coding_tools_mcp/changes.py:324-361 | The engine computes the result these statements are about. |
| `Idempotency.Prune` | coding_tools_mcp/server.py:2245-2255 | Pruning leaves at most 64 results, or only pinned ones, and never drops a pinned one. |
| `Idempotency.PruneDropsOldest` | coding_tools_mcp/server.py:2245-2255 | What goes are the unpinned results among the least recently used ones, up to and with the last to go, and no more than needed: then at least 64 are left. The order of the rest stays. Nothing goes if and only if at most 64 are there or all are pinned. |
| `Idempotency.PruneRecords` | coding_tools_mcp/server.py:2245-2255 | What is recorded under a key after pruning: nothing if it is unpinned and among as many of the least recently used unpinned results as there are too many, and otherwise what was recorded; so from 64 results or fewer nothing goes. |
| `Idempotency.LeaveRecords` | coding_tools_mcp/server.py:2229-2236 | So finishing a call forgets exactly those results, whether or not its key has another pin. |
| `Idempotency.StoreRecords` | coding_tools_mcp/server.py:2301-2306 | Recording a success forgets exactly those, and puts it under its key. |
| `Idempotency.PruneOrder` | coding_tools_mcp/server.py:2245-2255 | The order of use stays. |
| `Idempotency.PinnedStays` | coding_tools_mcp/server.py:2245-2255 | What is recorded under a pinned key survives pruning. |
| `Idempotency.AtEndRecords` | coding_tools_mcp/server.py:2268-2272 | Using or storing one result changes what is recorded under its own key only. |
| `Idempotency.IdempotencyTable.Begin` | coding_tools_mcp/server.py:2219-2224 | The locked section: one more pin, and the turn if it is free. |
| `Idempotency.IdempotencyTable.Abandon` | coding_tools_mcp/server.py:2225-2227 | An interrupted wait gives its pin back. |
| `Idempotency.IdempotencyTable.Finish` | coding_tools_mcp/server.py:2229-2236 | The turn and the pin are given back and the results pruned; with 64 results or fewer they stay as they are. |
| `Idempotency.IdempotencyTable.PruneResults` | coding_tools_mcp/server.py:2245-2255 | The pruning loop. |
| `Idempotency.IdempotencyTable.Lookup` | coding_tools_mcp/server.py:2268-2289 | A recorded result is replayed for the same arguments and refused for others. |
| `Idempotency.IdempotencyTable.Record` | coding_tools_mcp/server.py:2301-2306 | A success is stored, a dry run is not. |
| `KeyedCalls.AtMostOnce` | coding_tools_mcp/server.py:2058-2138 | In every state of every interleaving: at most one caller a key is between begin and finish, the pin count is the number of callers waiting or running, and among the answers given while a key stays pinned at most one is a success that counts; every later one repeats its payload, or refuses the key if the arguments differ. A caller is told the answer decided for it, or that the call failed, which happens even after a recorded success if tracing or wording the answer raises. |
| `Replays.SuccessIsReplayed` | coding_tools_mcp/server.py:2058-2306 | In every run, from the recording of a success until a pruning finds it overdue, past the last pin of its key as well: it is what is recorded there, nobody executes under the key, and every caller that has its turn is answered by the replay, or refused if the arguments differ. The next event takes it away if and only if it finds it overdue. |
| `Replays.RecordedStep` | coding_tools_mcp/server.py:2219-2306 | What is recorded under any key after one event: what the event records there, nothing if it finds the result overdue, and otherwise what was recorded before. |
| `Replays.TurnDecides` | coding_tools_mcp/server.py:2257-2289 | A caller that has its turn executes if nothing is recorded under its key, and is answered otherwise. |
| `Replays.NobodyRuns` | coding_tools_mcp/server.py:2257-2306 | While something is recorded under a key nobody executes under it or is about to record. |
| `Replays.RecordedIsEarned` | coding_tools_mcp/server.py:2291-2306 | In every run, whatever is recorded, and so whatever is replayed, is what a real execution of this call with these arguments answered: never a failure, a dry run, or another request's success. |
| `Replays.ResultsInOrder` | coding_tools_mcp/server.py:2268-2306 | In every state of every run the results stand in the order in which they were last replayed or recorded. |
| `KeyedCalls.CacheIsBounded` | coding_tools_mcp/server.py:2245-2255 | In every state of every run the cache holds at most 64 results or only pinned ones, if and only if no interrupted wait has taken the last pin of a recorded key with more than 64 results there without that key having been pinned again or the results pruned since. With nobody active it means at most 64 results. |
| `KeyedCalls.StrayIff` | coding_tools_mcp/server.py:2219-2255 | The same for one key: its result is unpinned among more than 64 if and only if an earlier event of the run was such an interruption for it and no event since has settled it. |
| `KeyedCalls.StrayStep` | coding_tools_mcp/server.py:2219-2255 | One event: a result becomes unpinned among more than 64 only by such an interruption, and stays so until its key is pinned or the results are pruned. |
| `KeyedCalls.RunIsTraced` | coding_tools_mcp/server.py:2219-2255 | Every run is made by such events. |
| `KeyedCalls.BoundKeptIff` | coding_tools_mcp/server.py:2219-2255 | One event: from a state within the bound every event leads to one, except an interrupted wait, which does if and only if there are at most 64 results, or the key has another pin, or it has no result. |
| `KeyedCalls.BoundInRun` | coding_tools_mcp/server.py:2219-2255 | The same for every step of every run. |
| `KeyedCalls.InterruptionOverflows` | coding_tools_mcp/server.py:2225-2227 | A run that breaks the bound: 65 keys one after another, each with a call that succeeds while a second one sleeps; then one of the woken waits is interrupted. |
| `KeyedCalls.NeverAllAsleep` | coding_tools_mcp/server.py:2219-2236 | While anybody is active somebody can take a step. |
| `KeyedCalls.RunKeeps` | coding_tools_mcp/server.py:2058-2138 | Every event of every run keeps all invariants. |
| `KeyedCalls.EventKeeps` | coding_tools_mcp/server.py:2058-2138 | One event of any kind. |
| `KeyedCalls.LookupMine` | coding_tools_mcp/server.py:2257-2289 | A caller whose turn it is finds the earlier success in the cache, or there was none. |
| `KeyedCalls.RecordMine` | coding_tools_mcp/server.py:2291-2306 | Recording puts the one success where later callers find it. |
| `KeyedCalls.TurnsFinish` | coding_tools_mcp/server.py:2229-2236 | Leaving wakes everybody, so nobody sleeps on a key that is free. |
| `Breakers.FailuresAreEvidence` | coding_tools_mcp/breaker.py:108-135 | The count kept incrementally is the number of standing failures in the log. |
| `Breakers.StandingBeganSinceReset` | coding_tools_mcp/breaker.py:123-128 | A standing failure was reported by a call that began after the last reset. |
| `Breakers.CountableIff` | coding_tools_mcp/breaker.py:39-53 | Which failures count: all but the refusal of a used key, and of those that may be retried only the four whose retry means changing the call. |
| `Breakers.SecondFailureCounts` | coding_tools_mcp/breaker.py:27-30 | Two failures of the same call in the same way, with no reset and no success of it since the first, are as many as the limit, so the third attempt is refused. |
| `Breakers.UsedIsLast` | coding_tools_mcp/breaker.py:99-102 | Using a key puts it last and leaves the others in their order. |
| `Breakers.FailureAgrees` | coding_tools_mcp/breaker.py:108-135 | Counting one failure and evicting the oldest entries keeps the table below the log, and equal to it while it can hold all live keys. |
| `Breakers.SuccessAgrees` | coding_tools_mcp/breaker.py:137-145 | So does forgetting a key after a success. |
| `Breakers.Evict` | coding_tools_mcp/breaker.py:133-134 | Of more entries than the table holds exactly the newest stay, in order. |
| `Breakers.RepeatFailureBreaker.BlockedErrorCode` | coding_tools_mcp/breaker.py:95-106 | A code is returned only if at least `limit` failures with it stand against the key; while no more keys are live than the table holds, nothing is returned only if no code has that many. The key becomes the one used last. |
| `Breakers.RepeatFailureBreaker.FirstExhausted` | coding_tools_mcp/breaker.py:103-105 | The loop over the codes. |
| `Breakers.RepeatFailureBreaker.RecordFailure` | coding_tools_mcp/breaker.py:108-135 | Returns a count no larger than the standing failures, equal to them while the table can hold all live keys, and zero exactly for failures that do not count; the table stays within its capacity. |
| `Breakers.RepeatFailureBreaker.RecordSuccess` | coding_tools_mcp/breaker.py:137-145 | After a success of the present generation nothing stands against the key and every other key keeps its evidence; a stale one changes neither evidence nor table. |
| `Breakers.RepeatFailureBreaker.Reset` | coding_tools_mcp/breaker.py:147-157 | Nothing stands against any key, and calls already under way belong to an older generation. |
| `OutputStreams.OutputStream.Append` | coding_tools_mcp/processes.py:177-218 | Appending keeps head, tail, offsets and counters a function of the bytes written, however they were chunked; the evictions reported add up to the gap. |
| `OutputStreams.OutputStream.TrimBuffer` | coding_tools_mcp/processes.py:463-476 | Drops exactly the overflow from the front of the tail. |
| `OutputStreams.OutputStream.Poll` | coding_tools_mcp/processes.py:244-254 | Returns everything retained beyond the cursor, at its true offset, and the number of bytes that are gone. |
| `OutputStreams.PollsAddUp` | coding_tools_mcp/processes.py:244-254 | Over any run of appends and polls, bytes taken and bytes omitted sum to the cursor. |
| `OutputStreams.PollsInOrder` | coding_tools_mcp/processes.py:244-254 | Polls are in stream order and take no byte twice. |
| `OutputStreams.OutputStream.RetainedBytes` | coding_tools_mcp/processes.py:170-175 | A stream retains at most its buffer limit; what it retains and the gap are everything written. |
| `OutputStreams.KeepMore` | coding_tools_mcp/processes.py:177-193 | The rolling update equals cutting head and tail out of the whole stream afresh. |
| `OutputStreams.KeepSizes` | coding_tools_mcp/processes.py:177-193 | An eighth of the buffer keeps the beginning of the stream, the rest of it the end. |
| `OutputStreams.PageIsTrue` | coding_tools_mcp/server.py:4079-4104 | A page is the stream's bytes at its offset, within the limit, and the next offset strictly advances. |
| `OutputStreams.PageIsFull` | coding_tools_mcp/server.py:4079-4104 | A page is as long as it may be: up to the limit, or to the end of the head or of the stream. |
| `OutputStreams.PagingIsComplete` | coding_tools_mcp/server.py:4079-4104 | Following the offsets from 0 gives the whole stream while head and tail meet and otherwise exactly head and tail; delivered and omitted bytes are the total. |
| `CommandSlots.CommandManager.ReserveSlot` | coding_tools_mcp/server.py:3509-3524 | The check and the reservation. |
| `CommandSlots.CommandManager.Register` | coding_tools_mcp/server.py:3546-3551 | The slot is given back and, if nothing was closed, the command registered. |
| `CommandSlots.CommandManager.GiveBack` | coding_tools_mcp/server.py:3554-3557 | The failure path gives the slot back unless that was done. |
| `CommandSlots.CommandManager.Close` | coding_tools_mcp/server.py:1471-1478 | Closing takes all commands, once. |
| `CommandSlots.NeverTooMany` | coding_tools_mcp/server.py:3509-3560 | In every run never more than 16 commands are active or starting, and every start that is over gave its slot back exactly once. |
| `CommandSlots.RefusedIff` | coding_tools_mcp/server.py:3509-3524 | In any state of any run a start is refused if and only if the manager or its runtime is closed, or 16 commands are registered or starting. |
| `CommandSlots.RegisteredIff` | coding_tools_mcp/server.py:3546-3551 | A spawned process is registered if and only if neither was closed; otherwise its start fails and keeps it. |
| `CommandSlots.NothingSurvivesClose` | coding_tools_mcp/server.py:1471-1483 | After a close that has run through, with no start under way, no process ever spawned is alive. |
| `CommandSlots.AnswersKept` | coding_tools_mcp/server.py:3526-3560 | At every step somebody answers for every live process: the registry, a close in progress, or its own start. |
| `CommandSlots.SlotsKept` | coding_tools_mcp/server.py:3509-3560 | Every step keeps the count of slots. |
| `OutputEviction.RetainedOutput.Evict` | coding_tools_mcp/server.py:3893-3900 | The oldest commands are forgotten, and no more than needed. |
| `OutputEviction.RetainedOutput.Remember` | coding_tools_mcp/server.py:3881-3886 | The command becomes the newest, then the pass runs. |
| `OutputEviction.WithoutAt` | coding_tools_mcp/server.py:3881-3886 | Remembering a command again moves it behind the others, whose order stays. |
| `OutputEviction.PassBounds` | coding_tools_mcp/server.py:3888-3900 | After a pass at most 32 finished commands are left. What active and finished commands together hold when the pass is over, with up to 16 active, is within 16 MiB if and only if what grew unseen fits into what the pass took to be free: the forgotten commands until they were forgotten, the active ones and those still remembered until the end. So always if nothing grew, and also if nothing is left to forget; and it is never further above than that growth. |
| `OutputEviction.HeldIsThoughtPlusUnseen` | coding_tools_mcp/server.py:3888-3900 | The equation by itself, after any number of commands forgotten: what is held at the end is what the pass took it to be plus that growth. |
| `OutputEviction.ActiveOvershoots` | coding_tools_mcp/server.py:3888-3900 | A pass that forgets nothing and ends one byte above 16 MiB: sixteen commands are active, fifteen of them with full buffers, one finished command has full buffers, and the sixteenth active one writes a byte. |
| `OutputEviction.ForgottenOvershoots` | coding_tools_mcp/server.py:3888-3900 | A pass that forgets and ends half a MiB and a byte above: a remembered command that is still running fills a buffer between the summing up and its removal, and goes on holding it as an active one. |
| `OutputEviction.SizeIsRetained` | coding_tools_mcp/processes.py:170-175 | What the pass weighs a command by is what its two streams retain. |
| `Journals.EventJournal.Record` | coding_tools_mcp/event_log.py:125-162 | From any state, and wherever it stops: what was added to everything written is the beginning of what was due (a separator after an unterminated record, the record, its newline), all of it on success; the set of records grew by this one or not at all; backups oldest first and the live file are a suffix of everything written, every file is within its limit and no line joins two records; what the files held and what was added is what was dropped and what they hold. Nothing is dropped if the record fits into the live file, and otherwise at most what a rotation overwrites. Without a fault the record is written if and only if the journal is not off and the record is not too long. |
| `Journals.EventJournal.Prepare` | coding_tools_mcp/event_log.py:134-149 | A separator exactly after an unterminated record, and a rotation exactly when the record does not fit. |
| `Journals.EventJournal.Rotate` | coding_tools_mcp/event_log.py:115-123 | A rotation may stop after any move and still leaves a suffix; what it drops is the oldest backup, and only if another one moves onto it, or the live file if no backups are kept. |
| `Journals.EventJournal.MoveBackup` | coding_tools_mcp/event_log.py:119-122 | One backup moves up into a free place, or onto the oldest. |
| `Journals.EventJournal.WriteAll` | coding_tools_mcp/event_log.py:150-155 | The write loop, however the writes are split and wherever they stop: what was added is a prefix of separator, record and newline, in the file and in the log alike. |
| `Journals.EventJournal.Append` | coding_tools_mcp/event_log.py:132-158 | From opening the file to the last byte, with the rotation between: again a prefix of what is due, behind everything written before. |
| `Journals.EventJournal.Restart` | coding_tools_mcp/event_log.py:88-95 | The size check never refuses files the journal left, and the new process takes over exactly what was there. |
| `Journals.MoveUp` | coding_tools_mcp/event_log.py:119-122 | Moving a backup up changes nothing a reader sees except that the oldest is dropped. |
| `Journals.PartlyWritten` | coding_tools_mcp/event_log.py:137-155 | Any part of a separator and a record leaves no line with two records. |
| `Journals.LineIsOneRecord` | coding_tools_mcp/event_log.py:137-155 | What that means to a reader: each line is one whole record or the beginning of one. |
| `Journals.RunWrites` | coding_tools_mcp/event_log.py:88-162 | In every run of records, stops and restarts, everything ever written is what the calls added, call by call. |
| `Journals.RunBalances` | coding_tools_mcp/event_log.py:88-162 | Nothing else is lost: what the calls added is what they dropped and what the files hold. |
| `Journals.EachCall` | coding_tools_mcp/event_log.py:115-162 | Each call adds the beginning of what was due, and drops nothing or what a rotation overwrites. |
| `Journals.JournalIsTail` | coding_tools_mcp/event_log.py:88-162 | At every moment of every such run the files are the tail of that, within their limits, and every line is one offered record or the beginning of one. |
| `Journals.FittingKeepsAll` | coding_tools_mcp/event_log.py:134-155 | A record that fits drops nothing, nor does one for which a rotation overwrites nothing. |
| `Journals.TakeStep` | coding_tools_mcp/event_log.py:88-162 | The methods take the steps those runs are made of, wherever they stop. |

## Left out

- `BaseException` during a commit: only `Exception` starts the rollback in the source, and only that is modelled.
- Writers from outside between a baseline check and the rename after it; the check and the rename act on a quiet disk.
- fsync, symbolic links, path resolution and its refusals, permissions of directories, hashing and JSON encoding.
- Parsing the patch envelope into operations, and `@@` headers into anchors: hunks come with their anchor text.
- `changed_ranges_between`, summaries, added and removed line counts in `apply_patch`: reports without an effect.
- Staging.StageReports: leaves out the changed ranges of the evidence, because they come from the line matching of Python's difflib.
- Diagnostics of refusals (near misses, candidate excerpts, hints): only the kind of refusal and the hunk are modelled.
- `apply_changes` around the line-edit engine (revisions, copies, moves, duplicate paths): its staging is the simpler sibling of `apply_patch`.
- Type errors in requests: an absent field is modelled, a field of another JSON type is not.
- UTF-8 decoding at chunk edges, tail truncation of displayed output, the text around output in replies.
- Process signals, pseudo-terminals, timing and the watchdog: a process is alive or dead, and terminating it is one step.
- Raises in the bookkeeping between a tool's handler and the recording of its result, which would leave a success unrecorded.
- `KeyboardInterrupt` while a command starts, which would keep its slot.
- The age limit of finished commands: expiry only removes entries before the pass that is modelled.
- Journal directories whose `backup_count` changes between restarts: files beyond the new count would be left out of the ring.
- Private-file checks, the writer lock and the warning of the journal.
- `argument_fingerprint`: calls are compared by an injective fingerprint.
- Command policy, sandboxing, transports, authorisation, telemetry, git and search tools, image handling, the desktop client, benchmarks and packaging.
