# Verification of the benchmark harness

A Dafny model of the parts of the benchmark harness that hold state machines, allocators,
arithmetic on patches and undo logic, with proofs of what they are for. `dafny verify
dfyconfig.toml` checks it.

| module | models |
|---|---|
| `UnifiedDiff`, `LineOffset` | edit scripts and hunks as the reference for what a patch does; the line-offset prediction |
| `PatchParser`, `ParserAgreement`, `PatchText` | the four hand-written patch parsers |
| `DepSearch`, `DepMatching`, `DepScores`, `DepContext` | scoring of dependency comments, and its completeness |
| `Docstrings`, `CommentsOnly`, `CodeSequence` | the checks that a patch adds nothing but comments |
| `ResetThrottle` | the BuildKit reset throttle and its three-slot state file |
| `CpuGroups` | CPU groups: division, queue, acquire, start, cleanup |
| `Dispatcher`, `Pipeline`, `ImageTags` | retries, futures, and the builder, base and assembly phases over one registry |
| `EnvBatches` | the batch builder of the evaluation images and its reruns |
| `SkillsInject` | Dockerfile injection and revert |
| `TaskCache`, `SkillsCache` | the local task snapshot, with crashes and with edits by evaluations |
| `CustomTag` | custom tags and their length bound |
| `Manifest` | the manifest summary |
| `Text`, `Sequences`, `Options` | string and sequence functions and a small helper type |

Code that updates variables, fields or files is modelled by methods with loops and by
classes; each is proved against a specification function or relation, and the properties
are proved about that. What Docker, git, the file system and the registry answer is
nondeterministic: a `var x: bool := *`, an event, or a parameter. Text is a sequence of
lines. A registry answer can be falsely negative but not falsely positive.

Hunk headers and line prefixes follow the "Diff -u or -U Output Format" subsection of the
`diff` utility page of POSIX.1-2017.

## What turned out to need a condition

- The predicted position of a line after a patch is wrong after a hunk without old or
  without new lines; `LineOffset.OutsideExact` and `LineOffset.InsideError` give the exact
  condition, `LineOffset.InsertionMisleads` and `LineOffset.InsertionMisleadsNextHunk` the
  smallest cases. Printed with context it is right: `LineOffset.ContextPredicts`.
- The patch parser takes an added line that starts with `++` for a header, counts an
  end-of-file marker line, reads a file name only from its last ` b/` on, and does not
  understand names in quotation marks: `PatchParser.ParsePrintRoundTrip`, with
  `PatchParser.MarkerMisleads`, `PatchParser.PlusPlusIsLost`, `PatchParser.SpacedNameIsCut`
  and `PatchParser.QuotedNameIsLost`.
- The list of acceptable sentences in the comment check is redundant:
  `DepSearch.AcceptedComments`.
- A patch that does exactly what was asked is not a full success once one hunk carries more
  than five comments: `DepScores.FullSuccess`, with `DepContext.WidePatchFails`; what it
  scores instead is `DepScores.ExactScores`. With the
  context that git prints by default this cannot happen: `DepContext.DefaultContextSucceeds`.
- The two line-number parsers count empty lines differently:
  `ParserAgreement.LineNumberParsersAgree`, with `ParserAgreement.PrintedEmptyLineMisleads`.
- A docstring that is never closed is accepted: `Docstrings.VerdictIsGrammar`, with
  `Docstrings.UnclosedIsAccepted`.
- Putting all lines back in another order can be rejected:
  `CommentsOnly.ReorderedIsAccepted`, with `CommentsOnly.SwapIsRejected`. An accepted patch
  keeps the set of code lines, but their order and number only for the shapes of
  `CodeSequence.KeepsCodeIffHarmless`; see `CodeSequence.DuplicatePasses` and
  `CodeSequence.UnseenPasses`.
- Different Docker tags can share a custom tag, and every custom tag is shared:
  `CustomTag.SharedTag`, `CustomTag.EveryTagIsShared`.
- The throttle needs no monotone clock. Of the accesses to the state file only the first
  read and the last write may fail: `ResetThrottle.SpacedIffHarmless`.
- A wrap that fails in the last attempt leaves an unwrapped tag which the next run accepts,
  so runs keep one wrap layer on all tags if and only if they are forced or start from
  wrapped tags: `Pipeline.WrappedIffTagsWrapped`, `Pipeline.UnwrappedTagSurvives`.
- Reruns of the batch builder resume unless they are forced or the prefix is empty or
  nothing but slashes: `EnvBatches.StoredIsRebuilt`, with `EnvBatches.SlashesNeverCheck`.
- The revert normalises line ends, so it restores files exactly if and only if they have no
  carriage return: `SkillsInject.ExactRestore`, with `SkillsInject.CarriageReturnIsLost`. An
  injection that ends with an error is never reverted, which is harmless if and only if it
  has not edited another file yet: `SkillsInject.AbortIsHarmless`.
- The task cache is complete for all crashes if and only if upstream never returns to a
  commit it has left: `TaskCache.CompleteIffNeverReturns`. With snapshots of a single entry
  it can be complete nevertheless; the condition for all snapshots is
  `TaskCache.CompleteIffSafe`. Evaluations with skills edit the cache itself; it stays
  complete if and only if each of them is harmless: `SkillsCache.CompleteIffHarmless`.

## Model

| member | source | states |
|---|---|---|
| `UnifiedDiff.AddsAreNewLines` | benchmarks/hybridgym_depsearch/eval_infer.py:75-84 | What applying a patch does: each recorded number is the position of that added line in the patched text, and the records are exactly the additions of the edit script. |
| `UnifiedDiff.SurvivorPosition` | benchmarks/hybridgym_depsearch/eval_infer.py:93-105 | A kept line is the same line of both texts; its two positions are the lengths of the texts up to it. |
| `LineOffset.ComputeLineOffset` | benchmarks/hybridgym_depsearch/eval_infer.py:93-105 | The loop over the sorted headers, with its early exit and the inside-a-hunk branch, returns the offset function of its inputs. |
| `LineOffset.SortIsStableOrder` | benchmarks/hybridgym_depsearch/eval_infer.py:96 | The sort is an ordered permutation, keeps the order of headers that start at the same line, and leaves a list that is in order alone. |
| `LineOffset.OffsetOfPatch` | benchmarks/hybridgym_depsearch/eval_infer.py:93-105 | On the headers of a patch the sort does nothing. |
| `LineOffset.OutsideExact` | benchmarks/hybridgym_depsearch/eval_infer.py:93-105 | For a line outside all hunks, line + offset is its new position if and only if no hunk starts at or before it or the last one that does has lines on both sides. |
| `LineOffset.InsideError` | benchmarks/hybridgym_depsearch/eval_infer.py:93-105 | For a kept line inside a hunk, line + offset exceeds its new position by the additions minus the deletions below it in the hunk, if and only if the hunk before has lines on both sides. |
| `LineOffset.SurvivorPrediction` | benchmarks/hybridgym_depsearch/eval_infer.py:93-105 | If all hunks have lines on both sides, every surviving line of the whole patch is predicted up to the additions minus deletions below it in its own hunk. |
| `LineOffset.ContextPredicts` | benchmarks/hybridgym_depsearch/run_infer.py:237-240 | So does every patch that is printed with context lines, without a further condition: there a hunk with only one side is the whole file, and no line of it survives. |
| `LineOffset.InsertionMisleads` | benchmarks/hybridgym_depsearch/eval_infer.py:98-104 | A line inserted by a hunk without context: the next line moves to 3 and is predicted on 4. |
| `LineOffset.InsertionMisleadsNextHunk` | benchmarks/hybridgym_depsearch/eval_infer.py:98-104 | In a second hunk after it, the error is not what that hunk adds below the line. |
| `PatchParser.ParsePatchWithDetails` | benchmarks/hybridgym_depsearch/eval_infer.py:35-90 | The line-driven loop with its three variables computes the parse function of the lines. |
| `PatchParser.HunkHeaderRoundTrip` | benchmarks/hybridgym_depsearch/eval_infer.py:66-74 | Every printed hunk header, with any section heading and with counts of 1 left out, is read back as its four numbers. |
| `PatchParser.HunkHeaderIs` | benchmarks/hybridgym_depsearch/eval_infer.py:66-74 | Which lines are understood as hunk headers at all, and with which numbers: exactly those of the pattern. |
| `PatchParser.FileHeaderRoundTrip` | benchmarks/hybridgym_depsearch/eval_infer.py:45-65 | git quotes each of the two names by itself. Of the four forms of a file header, the new name is read back exactly from the one without quotation marks, and there if and only if the name holds no ` b/` with more text after it. |
| `PatchParser.ParsePrintRoundTrip` | benchmarks/hybridgym_depsearch/eval_infer.py:35-90 | For all file names: parsing a printed patch gives back all files, hunk headers and added lines with their positions in the patched files, if and only if every file is clean: names that git does not quote, the new one readable, no added line starting with `++`, and in each hunk no further addition after a line that throws the counter off. |
| `PatchParser.RecordedExact` | benchmarks/hybridgym_depsearch/eval_infer.py:75-84 | Within a hunk the counter is right exactly as long as no end-of-file marker line has been counted before an addition. |
| `PatchParser.HunksExact` | benchmarks/hybridgym_depsearch/eval_infer.py:66-84 | Over all hunks of a file the recorded additions are the true ones if and only if each hunk is clean. |
| `PatchParser.TrailingNewline` | benchmarks/hybridgym_depsearch/eval_infer.py:35-90 | A final newline of the patch text changes nothing. |
| `PatchParser.MarkerMisleads` | benchmarks/hybridgym_depsearch/eval_infer.py:81-84 | Giving a last line its newline: the parser puts the line on line 2 of a file of one line. |
| `PatchParser.PlusPlusIsLost` | benchmarks/hybridgym_depsearch/eval_infer.py:75-84 | An added line that starts with `++` is not recorded. |
| `PatchParser.QuotedNameIsLost` | benchmarks/hybridgym_depsearch/eval_infer.py:45-65 | With a quoted old name the whole file is lost. |
| `PatchParser.SpacedNameIsCut` | benchmarks/hybridgym_depsearch/eval_infer.py:45-65 | The name `x b/y` is read as `y`. |
| `DepSearch.IsLinesCommentOnly` | benchmarks/hybridgym_depsearch/eval_infer.py:108-115 | True exactly if each stripped line is empty or starts with `#`. |
| `DepSearch.AcceptedComments` | benchmarks/hybridgym_depsearch/eval_infer.py:118-139 | A comment is accepted if and only if it names the target and one of three phrases: the list of acceptable sentences adds nothing. |
| `DepSearch.AcceptedLine` | benchmarks/hybridgym_depsearch/eval_infer.py:118-139 | For a comment line: it is accepted if and only if its text, in any case and with any of the marks .,;:! at its end, names the target and one of the three phrases. |
| `DepSearch.CommentsBeginWithHash` | benchmarks/hybridgym_depsearch/eval_infer.py:119-122 | Only a line that begins with `#` when stripped is a comment. |
| `DepSearch.EvaluateInstance` | benchmarks/hybridgym_depsearch/eval_infer.py:142-235 | Zero scores for an empty patch; otherwise the evaluation function of dependencies, target and patch. |
| `DepSearch.MatchComment` | benchmarks/hybridgym_depsearch/eval_infer.py:192-203 | The inner loop finds the first dependency entry within reach of a comment. |
| `DepSearch.FirstMatchIsEntry` | benchmarks/hybridgym_depsearch/eval_infer.py:192-203 | What it finds is an entry within reach with none before it, and if it finds nothing there is none. |
| `DepSearch.CountComments` | benchmarks/hybridgym_depsearch/eval_infer.py:184-205 | The loop over the files updates the tally as the counting function does. |
| `DepSearch.CountFileComments` | benchmarks/hybridgym_depsearch/eval_infer.py:187-205 | The loop over one file and its added lines does so too. |
| `DepSearch.BuildExpected` | benchmarks/hybridgym_depsearch/eval_infer.py:174-178 | The expected dependencies are a dict over file and line: one entry per key, in the order of first occurrence, with the last dependency of that key. |
| `DepSearch.DictOf` | benchmarks/hybridgym_depsearch/eval_infer.py:174-178 | The same for the folding function: a repeated key keeps its place and takes the later dependency. |
| `DepSearch.FirstOccurrencesAre` | benchmarks/hybridgym_depsearch/eval_infer.py:174-178 | That order lists each key once, by the place where it first occurs. |
| `DepSearch.CountAllConserves` | benchmarks/hybridgym_depsearch/eval_infer.py:184-205 | Each accepted comment line raises exactly one of the three counters, whatever was counted before. |
| `DepSearch.ScoresAddUp` | benchmarks/hybridgym_depsearch/eval_infer.py:180-235 | For every patch: true positives, false positives and duplicates add up to the accepted comment lines, true positives are at most the dependencies, precision times the comments and recall times the dependencies are the true positives (and 0 if there are none), F1 is as below, full success is what it says, and the comments-only flag tells whether every added line is blank or a comment. |
| `DepSearch.F1Formula` | benchmarks/hybridgym_depsearch/eval_infer.py:211-218 | With tp > 0, F1 = 2 tp / (comments + dependencies), and it lies between precision and recall. |
| `DepMatching.AdjustedLine` | benchmarks/hybridgym_depsearch/eval_infer.py:190-196 | For a patch that only inserts comments, the adjusted number of a comment is the line below it plus the comments further down in its hunk. |
| `DepMatching.ReachedIsOwn` | benchmarks/hybridgym_depsearch/eval_infer.py:192-203 | With dependencies more than `gap` lines apart (at least ten), a comment reaches a dependency whose comment has at most `gap - 5` below it exactly if it is its own comment and at most four others follow it in the hunk. |
| `DepMatching.FirstMatchIsOwn` | benchmarks/hybridgym_depsearch/eval_infer.py:192-203 | If no hunk holds more than `gap - 4` comments, the first dependency in reach of a comment is the one below it, or none if more than four comments follow in the hunk. |
| `DepMatching.CommentsAreDeps` | benchmarks/hybridgym_depsearch/eval_infer.py:174-203 | Such a patch has as many comments as there are dependencies. |
| `DepMatching.AboveItsDefinition` | benchmarks/hybridgym_depsearch/eval_infer.py:174-178 | What a comment directly above a dependency means: as many old lines come before it as the dataset, counting from 0, gives for the decorator or else for the definition. |
| `DepScores.ExactScores` | benchmarks/hybridgym_depsearch/eval_infer.py:142-235 | One correct comment above each dependency and nothing else: every hunk loses all its comments but the last five as false positives and finds the others, without duplicates, if the comments of a hunk fit between the dependencies. |
| `DepScores.BigHunkMissesOne` | benchmarks/hybridgym_depsearch/eval_infer.py:180-235 | A hunk with more than five comments leaves some dependency unfound, whatever the distances. |
| `DepScores.FullSuccess` | benchmarks/hybridgym_depsearch/eval_infer.py:142-235 | One correct comment above each dependency and nothing else gives tp = num_deps, fp = 0, duplicates = 0 and full success if and only if no hunk carries more than five comments. |
| `DepContext.CommentsFarApart` | benchmarks/hybridgym_depsearch/eval_infer.py:180-203 | Two comments of one hunk of such a patch are more than ten places apart. |
| `DepContext.OneCommentPerHunk` | benchmarks/hybridgym_depsearch/run_infer.py:237-240 | With the context lines that git prints by default a hunk holds at most one of them. |
| `DepContext.DefaultContextSucceeds` | benchmarks/hybridgym_depsearch/run_infer.py:237-240 | So a patch printed with the default context that does exactly what was asked is always a full success. |
| `DepContext.WidePatchFails` | benchmarks/hybridgym_depsearch/eval_infer.py:142-235 | A patch of one wide hunk with n comments does what was asked for every n, and is a full success if and only if n is at most 5. |
| `ParserAgreement.ParseHunkLineNumbers` | benchmarks/hybridgym_funclocalize/eval_infer.py:99-146 | The loop computes the parse function of the second line-number parser. |
| `ParserAgreement.LineNumberParsersAgree` | benchmarks/hybridgym_funclocalize/eval_infer.py:99-146 | For patches whose added lines follow hunk headers, both line-number parsers report the same files and numbers if and only if no empty line precedes an addition of its hunk. |
| `ParserAgreement.NonEmptyLinesAgree` | benchmarks/hybridgym_funclocalize/eval_infer.py:99-146 | They agree on every such patch without empty lines. |
| `ParserAgreement.PrintedEmptyLineMisleads` | benchmarks/hybridgym_funclocalize/eval_infer.py:99-146 | After a printed header, an empty line before an addition makes the two parsers report different numbers. |
| `ParserAgreement.ParseGitPatch` | benchmarks/hybridgym_funclocalize/eval_infer.py:46-96 | The loop computes the parse function of the content parser. |
| `ParserAgreement.ParseGitPatchWithNewFiles` | benchmarks/hybridgym_issuelocalize/eval_infer.py:43-91 | The loop computes the parse function of the content parser that also tells new files. |
| `ParserAgreement.TextParsersAgree` | benchmarks/hybridgym_issuelocalize/eval_infer.py:43-91 | The two content parsers agree on file names, added and removed lines for every input. |
| `PatchText.ChangesOfPrinted` | benchmarks/hybridgym_issuelocalize/eval_infer.py:43-91 | For a printed patch with readable names: per file the stripped non-blank additions and deletions in order, except those that look like file headers, and whether its headers say it is new. |
| `PatchText.TextsOfPrinted` | benchmarks/hybridgym_funclocalize/eval_infer.py:46-96 | The same for the parser without the flag. |
| `PatchText.TextsAre` | benchmarks/hybridgym_issuelocalize/eval_infer.py:73-80 | Which additions and deletions these are, line by line. |
| `Docstrings.IsLinesCommentOnly` | benchmarks/hybridgym_funclocalize/eval_infer.py:149-188 | The loop with its docstring flag and delimiter computes the verdict of the three-state machine. |
| `Docstrings.VerdictIsGrammar` | benchmarks/hybridgym_funclocalize/eval_infer.py:149-188 | Accepted exactly if the lines are blank lines, comments and complete docstrings, possibly ending inside one; rejected exactly if such items are followed by a code line, whatever comes after. |
| `Docstrings.WithoutDelimiterDoesNotClose` | benchmarks/hybridgym_funclocalize/eval_infer.py:158-186 | An interior line that does not contain the delimiter does not end a docstring. |
| `Docstrings.ClosingLine` | benchmarks/hybridgym_funclocalize/eval_infer.py:166-171 | A line closes a docstring exactly if the delimiter stands at its end or occurs in it an odd number of times. |
| `Docstrings.QuotedLineIsAccepted` | benchmarks/hybridgym_funclocalize/eval_infer.py:174-186 | Any text between three double or three single quotes on one line is let through. |
| `Docstrings.BlankLinesDoNotMatter` | benchmarks/hybridgym_funclocalize/eval_infer.py:149-188 | Dropping blank lines never changes the verdict. |
| `Docstrings.UnclosedIsAccepted` | benchmarks/hybridgym_funclocalize/eval_infer.py:158-188 | A docstring that is never closed lets a code line through. |
| `Docstrings.CheckAddCommentsOnly` | benchmarks/hybridgym_funclocalize/eval_infer.py:191-195 | A patch passes if and only if it removes nothing and its added lines pass. |
| `CommentsOnly.CheckAddCommentsOnly` | benchmarks/hybridgym_issuelocalize/eval_infer.py:94-129 | The loops accept a new file, and a change to an existing one exactly if every added code line takes up a removed line and every removed code line is taken up. |
| `CommentsOnly.AcceptedKeepsCode` | benchmarks/hybridgym_issuelocalize/eval_infer.py:94-129 | An accepted patch preserves the set of code lines: each removed one comes back unchanged or followed by a comment, and each added one is such a copy. |
| `CommentsOnly.ClaimIsCode` | benchmarks/hybridgym_issuelocalize/eval_infer.py:108-120 | What an added code line takes up is a removed code line of which it is a copy. |
| `CommentsOnly.ReorderedIsAccepted` | benchmarks/hybridgym_issuelocalize/eval_infer.py:94-129 | Putting all removed lines back is accepted if and only if no removed code line is shadowed by another one. |
| `CommentsOnly.ShadowedIsUnclaimed` | benchmarks/hybridgym_issuelocalize/eval_infer.py:112-120 | A shadowed line is taken up by no added line. |
| `CommentsOnly.SwapIsRejected` | benchmarks/hybridgym_issuelocalize/eval_infer.py:94-129 | Two lines, one the other with a comment, are rejected when they change places. |
| `CodeSequence.KeepsCodeIffHarmless` | benchmarks/hybridgym_issuelocalize/eval_infer.py:43-129 | The skeleton of a patch is the sequence of its code lines, kept, removed or added. All printed patches to an existing file that have a given skeleton and are accepted keep the code in order, if and only if the skeleton changes no code, or replaces one line where it stands, or cannot be accepted because it only removes or only adds code. Lines that the parser does not see are part of the skeleton. |
| `CodeSequence.HarmlessKeepsCode` | benchmarks/hybridgym_issuelocalize/eval_infer.py:94-129 | An accepted patch with such a skeleton keeps the code. |
| `CodeSequence.HarmfulSibling` | benchmarks/hybridgym_issuelocalize/eval_infer.py:94-129 | Every other patch has a sibling with the same skeleton that is accepted and changes the code. |
| `CodeSequence.OneSidedFails` | benchmarks/hybridgym_issuelocalize/eval_infer.py:94-129 | A patch that only adds or only removes visible code is rejected. |
| `CodeSequence.DuplicatePasses` | benchmarks/hybridgym_issuelocalize/eval_infer.py:94-129 | Writing a code line twice is accepted and changes the code. |
| `CodeSequence.UnseenPasses` | benchmarks/hybridgym_issuelocalize/eval_infer.py:73-80 | So is an added line that begins with `++`, which the parser does not see. |
| `ResetThrottle.ThrottleIsHistory` | benchmarks/utils/buildx_utils.py:36-50 | The three slots make the same decision as a scan of the whole recorded reset history. |
| `ResetThrottle.RecordKeepsSummary` | benchmarks/utils/buildx_utils.py:92-130 | Recording a reset that was not throttled keeps the slots a summary of the history. |
| `ResetThrottle.RunKeepsInvariant` | benchmarks/utils/buildx_utils.py:66-135 | Over every run with a positive clock, monotone or not, and with any failures of the state file, the decisions are those of the recorded history and the recorded resets are spaced. |
| `ResetThrottle.ExecutedResetsAreSpaced` | benchmarks/utils/buildx_utils.py:66-135 | If the state file never fails, two executed resets, the earlier at least as strong, are at least the throttle time apart. |
| `ResetThrottle.RefusedIsTooSoon` | benchmarks/utils/buildx_utils.py:92-130 | A request is refused if and only if the executed history holds a reset at least as strong too recently. |
| `ResetThrottle.SpacedIffHarmless` | benchmarks/utils/buildx_utils.py:20-33 | For any pattern of failed reads and writes of the state file, all runs with these faults keep the executed resets spaced if and only if at most the first read and the last write fail. |
| `ResetThrottle.FaultLosesSpacing` | benchmarks/utils/buildx_utils.py:20-33 | Any other fault, a write that fails before the last request or a read that fails after the first, has a run that breaks the spacing. |
| `ResetThrottle.FailedWriteLosesSpacing` | benchmarks/utils/buildx_utils.py:29-33 | The smallest case: a failed write lets two full resets run one second apart. |
| `ResetThrottle.BuildKit.ResetBuildkit` | benchmarks/utils/buildx_utils.py:66-135 | The method that reads, decides, resets and writes performs one step of the history and refuses exactly the requests that come too soon. |
| `ResetThrottle.BuildKit.MaybeReset` | benchmarks/utils/buildx_utils.py:138-146 | A partial reset after the first failed attempt, a full one after later ones, none after the last. |
| `CpuGroups.GroupsPartition` | benchmarks/swefficiency/run_infer.py:85-127 | The groups laid end to end are a prefix of the available CPUs; all have full size exactly if enough CPUs are left, as they are when none or more are skipped. |
| `CpuGroups.RefusedIffTooFew` | benchmarks/swefficiency/run_infer.py:85-109 | With groups of at least one CPU the division is refused if and only if there is no worker or too few CPUs are left for all groups. |
| `CpuGroups.NegativeSize` | benchmarks/swefficiency/run_infer.py:110-122 | A negative size is not refused: the first group gets all but that many of the last CPUs and the others none. |
| `CpuGroups.CpuQueue.Put` | benchmarks/swefficiency/run_infer.py:505-516 | A put that works appends to the queue; one that fails leaves it. |
| `CpuGroups.CpuQueue.Acquire` | benchmarks/swefficiency/run_infer.py:187-196 | The head of the queue, or nothing if it is empty or cannot be reached. |
| `CpuGroups.Workspace.Cleanup` | benchmarks/swefficiency/workspace.py:94-122 | Cleanup gives the group back and forgets it even if the queue refuses it, removes each image once, and prunes the build cache each time if asked to. |
| `CpuGroups.StepConserves` | benchmarks/swefficiency/run_infer.py:198-262 | Every step (acquire, start or failed start, cleanup) keeps queued + held + lost groups as a multiset. |
| `CpuGroups.GroupsAreConserved` | benchmarks/swefficiency/workspace.py:94-105 | In every interleaving queued, held and lost groups together are the initial groups. |
| `CpuGroups.CleanupTwice` | benchmarks/swefficiency/workspace.py:94-105 | A second cleanup changes nothing. |
| `CpuGroups.NoCpuTwice` | benchmarks/swefficiency/workspace.py:94-105 | In every interleaving no CPU is held by two workspaces, nor both held and queued. |
| `CpuGroups.CutGroupsAreDistinct` | benchmarks/swefficiency/run_infer.py:110-127 | The groups cut from an affinity list satisfy the premise of the line above. |
| `CpuGroups.AcquireSucceeds` | benchmarks/swefficiency/run_infer.py:187-196 | With nothing lost and fewer groups held than workers, acquisition yields a group. |
| `Dispatcher.BuildWithRetries` | benchmarks/swebench/build_base_images.py:281-315 | The retry loop returns the output of the first attempt without error or of the last one, within the allowed number of tries, and never reaches the statement after the loop; an attempt that raised leaves an output without tags and with the message as error. |
| `Dispatcher.YieldCompletedFutures` | benchmarks/swebench/build_base_images.py:173-201 | Whatever `wait` answers round by round, heartbeats included, each future is yielded exactly once. |
| `Dispatcher.CollectFutures` | benchmarks/swebench/build_base_images.py:382-419 | For any completion order and outcomes: one manifest record per image, the output of a future that returned, and for one that raised its image, no tags and the error; failures counts the futures that raised, returned an error or no tags, built the others that are not skipped; in_progress ends empty, and the exit code is 0 exactly if no future failed. |
| `Dispatcher.CountPermutes` | benchmarks/commit0/build_images.py:283-324 | The three counters do not depend on the order of arrival. |
| `Dispatcher.FailuresCount` | benchmarks/commit0/build_images.py:294-324 | built + skipped + failures is the number of images, and failures is 0 exactly if no record has an error or empty tags. |
| `ImageTags.OfficialCustomTag` | benchmarks/swebench/build_images.py:62-72 | The custom tag of an official image is the name between the last slash and the colon. |
| `ImageTags.WrappedTags` | benchmarks/swebench/build_images.py:75-79 | The custom tags that are wrapped are `sphinx-doc` and those that begin with `sphinx-doc_`, with or without `sweb.eval.x86_64.` in front. |
| `ImageTags.OfficialIsWrapped` | benchmarks/swebench/build_images.py:62-79 | For every repository name without `_`: the custom tag of its official image is wrapped if and only if the repository is sphinx-doc. |
| `ImageTags.PlainIsWrapped` | benchmarks/swebench/build_images.py:75-79 | The same for a tag without the architecture in front. |
| `ImageTags.TagParts` | benchmarks/swebench/build_base_images.py:100-110 | Which parts the base tag has; and the final tag (line 707) its five, each of which can be read off. |
| `ImageTags.RefsAreInjective` | benchmarks/swebench/build_base_images.py:100-110 | Different custom tags have different base tags and different final tags. |
| `CustomTag.SanitizeRun` | benchmarks/swebenchpro/build_images.py:25-46 | Sanitizing turns a whole run of other characters into one `-` and keeps what is allowed. |
| `CustomTag.ResultIsCustomTag` | benchmarks/swebenchpro/build_images.py:40-53 | Only an empty Docker tag is an error; every result is non-empty, at most 96 characters of [a-z0-9_.-], without `.` or `-` at its ends, whatever lower-casing does. |
| `CustomTag.CustomTagsAreFixed` | benchmarks/swebenchpro/build_images.py:40-53 | The strings of that form are exactly the fixed points, alone or as the tag of any image. |
| `CustomTag.CleanTagIsKept` | benchmarks/swebenchpro/build_images.py:40-49 | A tag of lower-case letters, digits, `_`, `.` and `-`, with neither of the last two at its ends, and of at most 96 characters is its own custom tag, alone or after an image. |
| `CustomTag.LongTagIsCut` | benchmarks/swebenchpro/build_images.py:49-53 | A longer one yields its first 83 characters without the dots and dashes at their end, then `-` and the twelve characters of its digest. |
| `CustomTag.TagIsLowered` | benchmarks/swebenchpro/build_images.py:45-53 | Other tags are lower-cased first; the digest is that of the tag as it was. |
| `CustomTag.NothingLeftIsDigest` | benchmarks/swebenchpro/build_images.py:45-49 | A tag of dots and dashes only has its digest as custom tag. |
| `CustomTag.ExtractTwice` | benchmarks/swebenchpro/build_images.py:40-53 | Extracting from a result gives the result. |
| `CustomTag.SharedTag` | benchmarks/swebenchpro/build_images.py:40-53 | Two Docker tags share a custom tag exactly if both are cut and agree in stem and digest, or neither is cut and they are the same when cleaned, or the one that is not cut is the stem and digest of the other. |
| `CustomTag.EveryTagIsShared` | benchmarks/swebenchpro/build_images.py:45 | Every custom tag is shared: any dots and dashes after a tag are dropped, so `a` and `a-` give the same. |
| `CustomTag.CutTagIsShared` | benchmarks/swebenchpro/build_images.py:49-53 | A tag that is cut always shares its custom tag with one that is not. |
| `CustomTag.CutTagsDiffer` | benchmarks/swebenchpro/build_images.py:49-53 | Two long tags share a shortened one only if their digests agree. |
| `CustomTag.FinalTagFits` | benchmarks/swebench/build_base_images.py:707 | sdk-hash-tag-target has at most 127 characters for the allowed targets and fits the tag grammar of the OCI Distribution Specification, section "Pulling manifests". |
| `Pipeline.StepKeepsInv` | benchmarks/swebench/build_base_images.py:687-768 | Every step of the three phases, in any order of the concurrent tasks and with any outcome of checks, builds, pushes and wraps, keeps the invariant on registry and tasks. |
| `Pipeline.RunKeepsInv` | benchmarks/swebench/build_images.py:217-250 | The invariant holds in every reachable state. |
| `Pipeline.AssemblyHasBase` | benchmarks/swebench/build_images.py:217-250 | Whenever an assembly builds, its base tag is in the registry. |
| `Pipeline.PipelineSafety` | benchmarks/swebench/build_images.py:217-250 | If the run returns 0, every final and base tag is in the registry; an image assembled in the run stands on its own base with one wrap layer if its repository needs it and none otherwise, however many retries; one taken as found is unchanged. |
| `Pipeline.OfficialImageLayers` | benchmarks/swebench/build_images.py:62-79 | After a run that returns 0, the final image assembled for an official image has one wrap layer if its repository is sphinx-doc, and none otherwise. |
| `Pipeline.BuilderComesFirst` | benchmarks/swebench/build_images.py:217-229 | No base image is tried before the builder image is in the registry. |
| `Pipeline.ForcedRunBuildsAll` | benchmarks/swebench/build_base_images.py:204-263 | A forced run that returns 0 has built the builder image, every base image and every final image itself. |
| `Pipeline.RerunIsIdle` | benchmarks/swebench/build_base_images.py:204-263 | An unforced run for which the registry says that it has every image builds nothing, leaves the registry alone and returns 0. |
| `Pipeline.WrappedOnce` | benchmarks/swebench/build_base_images.py:713-768 | A wrapped-repository image has exactly one wrap layer if and only if it was assembled in the run or had one before. |
| `Pipeline.AllWrappedOnce` | benchmarks/swebench/build_images.py:217-250 | Starting from a registry whose existing wrapped-repository tags are wrapped, or forced, all of them have exactly one layer. |
| `Pipeline.WrappedIffTagsWrapped` | benchmarks/swebench/build_images.py:217-250 | Every run that returns 0 leaves all wrapped-repository tags with one layer if and only if it is forced or the existing ones have one before the run. |
| `Pipeline.FinalAttempts` | benchmarks/swebench/build_base_images.py:709-768 | In every interleaving a final image is built at most max_retries times, and one that fails has used all of them unless its check for an existing tag or its wrap step raised. |
| `Pipeline.RaisedFails` | benchmarks/swebench/build_base_images.py:709-768 | An exception of the first check or of the wrap step is not retried: the image fails. |
| `Pipeline.BaseAttempts` | benchmarks/swebench/build_base_images.py:280-315 | The same for base images. |
| `Pipeline.NoTriesNoBases` | benchmarks/swebench/build_base_images.py:281-315 | With no tries allowed no base image is built, and none succeeds. |
| `Pipeline.NonZeroExit` | benchmarks/swebench/build_images.py:217-250 | A run that ends returns 0, or 1 because of a failed image: the builder image before any base was tried, a base, or a final image. |
| `Pipeline.FailedWrapLeavesTag` | benchmarks/swebench/build_base_images.py:750-766 | For any number of retries and any wrapped-repository image that is assembled, some run fails its wrap step in every attempt, leaves its tag unwrapped in the registry and returns 1. |
| `Pipeline.ExistingTagSurvives` | benchmarks/swebench/build_base_images.py:709-711 | A run that is not forced can take any existing tag as it is and return 0. |
| `Pipeline.UnwrappedTagSurvives` | benchmarks/swebench/build_base_images.py:709-711 | The two together: a first run that leaves an unwrapped tag, and a second one that takes it and returns 0. |
| `EnvBatches.ChunksCover` | benchmarks/swtbench/build_eval_env_images.py:364-366 | Chunking loses, repeats and reorders nothing; no chunk is empty or too long, and only the last may be short. |
| `EnvBatches.Chunk` | benchmarks/swtbench/build_eval_env_images.py:364-366 | The slicing loop returns those chunks. |
| `EnvBatches.Builder.RemoteImageExists` | benchmarks/utils/image_utils.py:133-167 | The existence check can raise while it fetches a token; it never reports an absent tag, and finds every present one while the registry answers. |
| `EnvBatches.Builder.TagAndPush` | benchmarks/swtbench/build_eval_env_images.py:369-381 | Pushes only the given images; all of them if it returns without error, some of them otherwise. |
| `EnvBatches.Builder.BasesToBuild` | benchmarks/swtbench/build_eval_env_images.py:165-189 | Unless a check raises, every base key absent from the registry is built; with the registry answering, only those, and no check raises. |
| `EnvBatches.Builder.MissingEnvSpecs` | benchmarks/swtbench/build_eval_env_images.py:224-234 | Unless a check raises, every spec whose environment key is absent is missing; with the registry answering, exactly those, in order. |
| `EnvBatches.Builder.BuildBases` | benchmarks/swtbench/build_eval_env_images.py:165-222 | Builds the base keys found missing and, with a prefix, pushes them all if it ends without error and some of them otherwise. |
| `EnvBatches.Builder.BuildBatch` | benchmarks/swtbench/build_eval_env_images.py:264-335 | At most max_retries + 1 tries, all used up if the batch gives up; only build errors are retried; a finished batch has all its keys in the registry. |
| `EnvBatches.Builder.BuildBatches` | benchmarks/swtbench/build_eval_env_images.py:254-335 | The batches started are a prefix of the chunks, and all but the last have finished. |
| `EnvBatches.Builder.BuildEnvImages` | benchmarks/swtbench/build_eval_env_images.py:125-361 | The whole call: which base images it builds, which specs it finds missing, which batches it starts and what it adds to the registry (relation `Call`); it returns a summary exactly if every batch finished, with built + skipped = total for base and environment images. |
| `EnvBatches.FinishedIsStored` | benchmarks/swtbench/build_eval_env_images.py:263-335 | At any end of a call, with a prefix set, the registry has every key of every finished batch. |
| `EnvBatches.CompleteStoresAll` | benchmarks/swtbench/build_eval_env_images.py:254-361 | On normal return every missing key is pushed, and every base and environment key of the specs is in the registry. |
| `EnvBatches.StoredUnderPrefix` | benchmarks/swtbench/build_eval_env_images.py:151-163 | A call that completes leaves every key of the specs in the registry after its prefix without the slashes at its end and one slash. |
| `EnvBatches.NoPrefixNoPush` | benchmarks/swtbench/build_eval_env_images.py:151-163 | Without a prefix, or with an empty one, nothing is pushed. |
| `EnvBatches.BatchCount` | benchmarks/swtbench/build_eval_env_images.py:254-262 | A call that completes has used as few batches as the batch size allows, a size below 1 counting as 1. |
| `EnvBatches.StoredIsRebuilt` | benchmarks/swtbench/build_eval_env_images.py:151-163 | With the registry answering, a stored key is built again if and only if the call is forced or its prefix is missing, empty or all slashes. |
| `EnvBatches.SlashesNeverCheck` | benchmarks/swtbench/build_eval_env_images.py:151-163 | A prefix of slashes pushes but never asks what is stored. |
| `EnvBatches.RerunsSkipFinished` | benchmarks/swtbench/build_eval_env_images.py:224-234 | In any history of calls, no later call builds a key of a batch that an earlier one finished, unless forced or with a prefix of slashes. |
| `EnvBatches.RerunAfterComplete` | benchmarks/swtbench/build_eval_env_images.py:151-256 | After a complete call a rerun builds nothing, completes, and leaves the registry as it is. |
| `EnvBatches.CountsAreParts` | benchmarks/swtbench/build_eval_env_images.py:337-361 | Neither built nor skipped counts are negative. |
| `SkillsInject.TaskFiles.InsertPosition` | benchmarks/skillsbench/run_infer.py:327-331 | The loop finds the place after the last WORKDIR line, or the end. |
| `SkillsInject.TaskFiles.InjectSkills` | benchmarks/skillsbench/run_infer.py:310-339 | Without errors the files and the returned list are those of the injection functions; an error leaves the edits made so far and returns nothing. |
| `SkillsInject.TaskFiles.RevertDockerfiles` | benchmarks/skillsbench/run_infer.py:342-349 | Every file whose write succeeds gets its recorded text; failed writes affect only their own files. |
| `SkillsInject.ReadTextKeeps` | benchmarks/skillsbench/run_infer.py:320 | Reading text leaves exactly the files without a carriage return alone. |
| `SkillsInject.ReadTextIs` | benchmarks/skillsbench/run_infer.py:320 | Reading turns a carriage return, with or without a line feed, into a line feed. |
| `SkillsInject.BlockIs` | benchmarks/skillsbench/run_infer.py:50-65 | The block copies the skills to the directories of seven agents. |
| `SkillsInject.TouchedUnlessCopied` | benchmarks/skillsbench/run_infer.py:321-323 | A file is left alone if and only if it holds `COPY skills`. |
| `SkillsInject.WorkdirLines` | benchmarks/skillsbench/run_infer.py:328-331 | A WORKDIR line begins with this word in any case, after white space. |
| `SkillsInject.AsciiBreaks` | benchmarks/skillsbench/run_infer.py:326 | Where lines of ASCII text break. |
| `SkillsInject.DeletingTheBlock` | benchmarks/skillsbench/run_infer.py:326-336 | Deleting the inserted characters gives the text back. |
| `SkillsInject.BlockFollowsWorkdir` | benchmarks/skillsbench/run_infer.py:326-336 | No WORKDIR line follows the block, which stands after the last one, or at the end if there is none. |
| `SkillsInject.BlockHasItsOwnLines` | benchmarks/skillsbench/run_infer.py:333-336 | The lines of the block stay whole lines: no instruction runs into them. |
| `SkillsInject.InjectedIsMarked` | benchmarks/skillsbench/run_infer.py:50-65 | An injected text carries the mark that makes the next injection skip it. |
| `SkillsInject.InjectAllAt` | benchmarks/skillsbench/run_infer.py:310-339 | Path by path, the result does not depend on the order or repetition of the list. |
| `SkillsInject.InjectTwice` | benchmarks/skillsbench/run_infer.py:320-323 | Injecting twice is injecting once, and the second time records nothing. |
| `SkillsInject.RecordsAre` | benchmarks/skillsbench/run_infer.py:336 | The recorded pairs are exactly the touched paths of the list with their texts. |
| `SkillsInject.RecordedOnce` | benchmarks/skillsbench/run_infer.py:318-339 | Each path is recorded at most once, even if the list repeats it. |
| `SkillsInject.RevertRestores` | benchmarks/skillsbench/run_infer.py:342-349 | Injecting and reverting gives each touched file its text as read, and leaves the others alone. |
| `SkillsInject.ExactRestore` | benchmarks/skillsbench/run_infer.py:310-349 | All files come back exactly if and only if no touched file has a carriage return. |
| `SkillsInject.AbortKeepsEdits` | benchmarks/skillsbench/run_infer.py:603-635 | If an injection ends with an error, the files before the failing one keep their edits although nothing is recorded. |
| `SkillsInject.AbortIsHarmless` | benchmarks/skillsbench/run_infer.py:603-635 | An injection that ends with an error changes no file but the one it failed at if and only if no other path before it in the list is touched. |
| `SkillsInject.CarriageReturnIsLost` | benchmarks/skillsbench/run_infer.py:319-349 | A file of one carriage return does not come back. |
| `SkillsCache.TreeIsKept` | benchmarks/skillsbench/run_infer.py:603-635 | After any sequence of evaluations with skills, reverted or killed, the task tree is what it was if and only if each of them is harmless for it: nothing to edit, or edits reverted on files without carriage return. |
| `SkillsCache.DamageStays` | benchmarks/skillsbench/run_infer.py:310-349 | No later evaluation undoes the damage of an earlier one. |
| `SkillsCache.CacheAfterEvaluations` | benchmarks/skillsbench/run_infer.py:205-254 | The next call of the cache, online or not, returns the edited tree as the recorded commit, and it is a complete copy if and only if all evaluations were harmless. |
| `SkillsCache.CompleteIffHarmless` | benchmarks/skillsbench/run_infer.py:205-254 | With evaluations as steps among the calls and crashes anywhere: for snapshots of more than one entry, every online call that returns leaves a complete copy in every run if and only if upstream never returns to a commit it has left and every evaluation between two calls for the same commit is harmless for its snapshot. |
| `SkillsCache.EventKeepsInv` | benchmarks/skillsbench/run_infer.py:205-254 | Every call and every such evaluation keeps the invariant. |
| `TaskCache.Cache.RemoveTasks` | benchmarks/skillsbench/run_infer.py:191-192 | Removal can stop at any entry, children before their directory, and leaves a part of the old tasks. |
| `TaskCache.Cache.CopyTasks` | benchmarks/skillsbench/run_infer.py:193 | Copying can stop at any entry, or fail at some and go on: what it leaves is part of the source, with files cut short and no entry without its directory. |
| `TaskCache.Cache.WriteMetadata` | benchmarks/skillsbench/run_infer.py:195-202 | Writing can stop before or after the file is emptied. |
| `TaskCache.Cache.Download` | benchmarks/skillsbench/run_infer.py:136-202 | A download that returns leaves the complete snapshot and names it; one that stops leaves one of the states of `StopsAt`. |
| `TaskCache.Cache.EnsureTasks` | benchmarks/skillsbench/run_infer.py:205-254 | One call is a step of the history relation: cached copy, refresh, or offline fallback. |
| `TaskCache.StepKeepsInv` | benchmarks/skillsbench/run_infer.py:205-254 | Every call, stopped or not, keeps the invariant: of a recorded commit that will be upstream again there is a complete copy, or nothing once it has been left; an online call that returns leaves a complete copy. |
| `TaskCache.OnlineCallsAreComplete` | benchmarks/skillsbench/run_infer.py:205-254 | With crashes anywhere, every online call that returns leaves a complete copy of the commit it resolved, if upstream never returns to a commit it has left. |
| `TaskCache.CompleteIffSafe` | benchmarks/skillsbench/run_infer.py:205-254 | For every sequence of resolved commits and any snapshots: completeness under all crashes holds if and only if, between two calls for the same commit and once it has been left, no refresh can leave anything that is taken for it: `Safe` says which pairs of snapshots these are. |
| `TaskCache.CompleteIffNeverReturns` | benchmarks/skillsbench/run_infer.py:205-254 | For snapshots of more than one entry that is so if and only if upstream never returns to a commit it has left. |
| `TaskCache.OneEmptyFileIsSafe` | benchmarks/skillsbench/run_infer.py:205-254 | If all snapshots are one and the same empty file, every history is complete even if upstream returns. |
| `TaskCache.CrashBreaks` | benchmarks/skillsbench/run_infer.py:191-202 | A crash in a refresh that leaves anything but a copy of the recorded commit makes a later call that resolves that commit, or nothing, return it. |
| `TaskCache.OfflineCallsAreComplete` | benchmarks/skillsbench/run_infer.py:216-228 | On crash-free histories an offline call returns a complete copy of the recorded commit. |
| `TaskCache.UnrecordedIsNotReturned` | benchmarks/skillsbench/run_infer.py:116-133 | Without a readable commit on record an offline call returns nothing. |
| `Manifest.ComputeFloatSum` | benchmarks/utils/build_manifest.py:80-86 | The loop sums a float field over the records that have it. |
| `Manifest.ComputeIntSum` | benchmarks/utils/build_manifest.py:89-104 | The loop sums an integer field, truncating floats and skipping texts that are no integers. |
| `Manifest.FloatSum` | benchmarks/utils/build_manifest.py:80-86 | The float sum of concatenated manifests is the sum of the sums. |
| `Manifest.IntSum` | benchmarks/utils/build_manifest.py:89-104 | So is the integer sum. |
| `Manifest.SumSkipped` | benchmarks/utils/build_manifest.py:187-189 | Adding up the counters whose status starts with `skipped` counts the skipped records. |
| `Manifest.SummarizeBuildRecords` | benchmarks/utils/build_manifest.py:127-266 | The loop produces a summary of the records: counters, failures, slowest builds, mean, median and maximum, sums of all fields, first start, last finish and wall clock. |
| `Manifest.CountersByFields` | benchmarks/utils/build_manifest.py:107-191 | In terms of the fields: failed counts the records whose own status is `failed`, or that have none and have an error text or no tags; built those whose status is `built`, or that have none, no error and tags; skipped those whose status begins with `skipped`; retried those with more than one attempt; the status counts and the skip reasons what they name. |
| `Manifest.ListsByFields` | benchmarks/utils/build_manifest.py:159-183 | What a record adds to the failed and to the timed builds: its image, error text, duration and attempts, with the defaults for missing ones. |
| `Manifest.SumsByFields` | benchmarks/utils/build_manifest.py:80-104 | What a record adds to the sums: its float, and its integer field read as an integer. |
| `Manifest.SummedFields` | benchmarks/utils/build_manifest.py:219-262 | Which thirteen fields are summed. |
| `Manifest.TimesByFields` | benchmarks/utils/build_manifest.py:193-203 | The first start, the last finish, and the time in between. |
| `Manifest.AverageOf` | benchmarks/utils/build_manifest.py:205-207 | The average of the timed builds times their number is the sum of their durations. |
| `Manifest.SummaryIsHomomorphism` | benchmarks/utils/build_manifest.py:127-266 | The summary of concatenated manifests is the sum of the summaries, field by field. |
| `Manifest.TimesAreHomomorphic` | benchmarks/utils/build_manifest.py:193-203 | First start, last finish and all field sums of concatenated manifests follow from those of the parts. |
| `Manifest.MedianSplits` | benchmarks/utils/build_manifest.py:208-210 | Half of the sorted durations are no less than the median, and half no more. |
| `Manifest.CountsPartition` | benchmarks/utils/build_manifest.py:185-191 | Status counts sum to total, successful = total - failed, one failed build per failure. |
| `Manifest.SortIsStable` | benchmarks/utils/build_manifest.py:212-214 | The sort of the slow builds is a permutation, descending and stable. |
| `Manifest.SlowestAreSlowest` | benchmarks/utils/build_manifest.py:212-214 | The slowest list is descending and begins with the maximum; no omitted timed build is slower than a listed one. |
| `Manifest.SlowestOfParts` | benchmarks/utils/build_manifest.py:212-214 | The slowest builds of concatenated manifests are the slowest of the two lists (for a list length that is not negative). |

## Left out

- Docker, git, Apptainer and HTTP themselves: each call is an outcome chosen freely.
- Logging, timing fields, heartbeats, progress bars, markdown and argument parsing.
- Report aggregation over output files, and the conversation and agent orchestration.
- Unicode beyond what is modelled: `Text.Lower` lowers ASCII letters, digits are ASCII digits, white space is Python's.
- Rounding: floats of scores and durations are reals.
- Fields that make the summariser raise: attempt counts that are no integers, durations that are not numbers, dates with and without time zone in one manifest. Dates are integers.
- PatchParser.FileHeaderRoundTrip: git as configured by default, with non-ASCII names quoted; names without surrogates.
- CodeSequence.KeepsCodeIffHarmless: indentation is not compared, and `#` begins a comment even inside a string literal, as the test has it.
- CpuGroups.Workspace.Cleanup: the container shutdown of the parent class is not part of the source.
- ResetThrottle.BuildKit.ResetBuildkit: assumes the file lock works; the code goes on without it on platforms that have none.
- DepScores.ExactScores: where dependencies lie closer than the comments of a hunk reach, the scores depend on the order of the dependency list and are not stated; `DepScores.FullSuccess` still says that the patch is no full success.
- Pipeline.Config.Valid: the custom tags of the images are distinct; `CustomTag.SharedTag` says when two Docker tags break this.
- Pipeline.PipelineSafety: builds with `--push`; without it there is no registry to speak of. Temporary images and the image layers below the base are not modelled.
- EnvBatches.Builder.BuildEnvImages: local images are not modelled; a push of an image that is missing locally is a failed push.
- TaskCache.Cache.EnsureTasks: one process at a time; two processes that refresh the same directory are not modelled. An upstream check that ends with anything but a `RuntimeError`, as without a git binary, passes the fallback by and is not modelled.
- SkillsCache.CompleteIffHarmless: an evaluation whose own write fails can leave any content; it is not part of these runs. Snapshots of at most one entry are treated without evaluations only, in `TaskCache.CompleteIffSafe`.
- SkillsInject.TaskFiles.InjectSkills: paths that are links to one file, and text that is not UTF-8, are not modelled apart from the error they cause.
- CustomTag.ResultIsCustomTag: SHA-1 is any function to twelve hexadecimal digits and lower-casing any function.
- `get_target_dockerfiles`: the list of paths is arbitrary, repetitions included.
