# A verified model of the arXiv translator

The repository turns an arXiv paper into Japanese Markdown. A backend fetches the
TeX source, rewrites it, converts it and lets an LLM translate it, reporting its
progress in one database row per job; a browser extension starts jobs, polls
their rows and shows the outcome. This project models the three parts of it that
are hard to get right and proves what they promise.

**TeX and Markdown rewriting.** `Text`, `Braces`, `LineComments`, `Commands`,
`CommandForms` and `CommandBraces` are the scanners of
`backend/src/tools/arxiv.py`; `Inputs`, `InputNames`, `InputTokens`, `InputWalk`,
`InputsLeft`, `InputFixpoints`, `InputJoins` and `JoinedPieces` its recursive
inlining of files; `Unwrap`, `UnwrapCommands` and `UnwrapTrees` the unwrapper for
`\centering{...}` and its like, and `DivWrappers` and `DivOpeners` the `<div>`
removal of `backend/src/tools/tex_to_markdown.py`; `MathLayout`, `MathIsolation`,
`MathCharacters`, `MathLabels` and `LabelForms` the two functions of
`backend/src/tools/markdown_layout.py`. Loops are loops here as well, each proved
to compute a function of its input; what that function means is then proved
against a grammar, a lexer, a tree or a walk defined on its own, and against the
texts as they are written: commands, directives, tags, labels and whitespace
spelt out letter by letter.

**The job protocol.** `JobRow` is the job manager over its table, `Pipeline` the
runner, the dispatcher and any number of cancel requests as a transition system
whose steps are single row accesses, `Orchestrator` the code of the stages, the
handlers, the dispatcher and the cancel route, proved to take only steps of that
system, `AgentRace` and `RaceOutcomes` the race between an LLM call and the watcher
of the cancel flag and what it comes to, `PipelineRuns` which runs there are, and
`AgentStages` the proof that the outcomes of that race are exactly the
steps the runner can take in such a stage.

**The extension's service worker.** `Worker` is its job table, timers and
snapshots, `Extension` the worker, the backend's jobs, the requests between them
and the browser's storage as one transition system, `ClientAgreement` what holds
in every run of it, late replies, overlapping polls, replaced jobs, kills and
restarts included, `RestartTimes` which jobs a restart brings back, and
`ClientRuns` what can happen: that jobs can be carried through, cancelled and
brought back, and that anything under way can be lost.

Where a promise turned out to hold only under a condition, a concrete input shows
what happens without it, and the condition is stated; it is exact except where
the list says otherwise:

- `\thanks{a\thanks{b}c}`: the loop of `_strip_command` moves backwards, and the
  tail `c}` of the outer note survives. Stripping is exact if and only if no
  occurrence starts inside another's argument. `\thanks{\{}`: it takes an opening
  brace more than closing ones; the counts fall alike if and only if as many
  opening as closing braces are escaped in the removed arguments.
- `\\centering{{}}`: the needle matches off a token boundary, and a balanced text
  becomes an unbalanced one. The unwrapper is the tree homomorphism if and only
  if the wrapper nodes are the only hits.
- `$$$$a$$`: a second pass goes on moving lines. Isolation is idempotent if and
  only if no block's body opens with two more dollars, which texts without `$$$`
  never do. The comment in the source says that the content of a block is kept
  exactly; the blocks are kept, but for whitespace at the ends of their bodies, if
  and only if none holds a run of blank lines.
- `$$\label{a}$$` becomes `$$$$`, which is no block, and `$$x$\label{}$$` closes too
  early. Label removal keeps the blocks if and only if no body is only labels and
  none holds a label between two dollars.
- A `<div>` inside a wrapper loses its own closer, and what followed it comes to
  stand inside it. The closers dropped are the wrappers' own if and only if no
  other div is opened inside a wrapper. The text shows it if and only if that is
  so where a line of another kind stands between any two closers; where two
  closers are neighbours it does not matter which of them goes.
- `\bibliogra\bibliographystyle{}phy{x}`: the style vanishes, a `\bibliography` is
  left behind, and the expansion inlines a file that the walk does not enter. The
  expansion is the walk where no style and no bibliography arises from joined
  pieces and at most ten files are nested. This direction only: with no file to be
  found the same text arises and changes nothing. Where the first that arises is a
  bibliography whose file has not been entered by then, the expansion enters that
  file. Nothing arises where the main file and every file entered is sealed, in
  that no text between its directives ends in the beginning of one, and a project
  with at most ten path keys never nests deeper.
- `\in\bibliographystyle{}put{a}`: the text left is `\input{a}`, which the root
  resolves and a second expansion enters. Every input in the expanded text is one
  that its own file's directory cannot resolve if and only if no input arises from
  joined pieces. Where no directive at all arises, expanding is idempotent; a text
  is left as it is if and only if it holds no style, no input that the root
  resolves and no bibliography that a file is found for.
- An LLM call that has failed when an outer cancel is taken masks the cancel,
  although the code's comment says that outer cancels are never masked. With a
  call that ends in `CancelledError` once it is cancelled, both child tasks are
  finished when `_run_single_agent` exits if and only if it was not so that an
  outer cancel found the call failed and the watcher unfinished at the wait.
- A cancel that arrives after the checkpoint before packaging is accepted, and
  the job can still complete; one that arrives before it always prevents that.

## Model

| member | source | states |
|---|---|---|
| Braces.MatchBalancedBrace | backend/src/tools/arxiv.py:453-476 | the loop returns the partner of the brace, and its two failures are exactly the two error cases |
| Braces.MatchIsTheEnclosingPartner | backend/src/tools/arxiv.py:453-476 | for every text, the match of a brace is the brace that encloses a balanced text with it, and there is one exactly then |
| Braces.ArgumentRoundTrip | backend/src/tools/arxiv.py:453-476 | a matched argument put back between braces, behind any prefix and before any suffix, is matched at exactly its end |
| Braces.MatchesNest | backend/src/tools/arxiv.py:453-476 | a brace inside a matched group with an even number of backslashes before it is matched inside the group |
| LineComments.IsInLineComment | backend/src/tools/arxiv.py:479-507 | the line-local test agrees at every position of every text with a lexer that reads from the start of the text |
| LineComments.InCommentExactly | backend/src/tools/arxiv.py:479-507 | a comment is open exactly where a `%` with an even number of backslashes before it stands earlier on the line |
| Commands.FindCommandInner | backend/src/tools/arxiv.py:510-526 | the loop returns the argument of the first match that is uncommented and balanced |
| Commands.DeclarationIsLeftmost | backend/src/tools/arxiv.py:510-526 | that match is the least position in the text that declares the command, and none is found exactly when the text declares it nowhere |
| Commands.ExtractionRoundTrip | backend/src/tools/arxiv.py:510-526 | a declaration written in front of any text is extracted with its argument unchanged, for every balanced argument |
| CommandForms.ExtractionIsOfTheFirst | backend/src/tools/arxiv.py:510-526 | the argument returned is that of the first `\command`, whitespace, `{`, balanced text, `}` that is written in the text outside comments, and there is none exactly when none is written |
| CommandForms.ExtractionRoundTripBehind | backend/src/tools/arxiv.py:510-526 | a declaration with any whitespace before its brace, behind any text without backslashes and outside a comment, is the one extracted, with its argument unchanged |
| Commands.StripCommand | backend/src/tools/arxiv.py:529-542 | the loop with its moving `last` computes the stripped text |
| Commands.StripsExactlyUnlessNested | backend/src/tools/arxiv.py:529-542 | the loop deletes exactly the given spans if and only if none starts inside another |
| Commands.StripCommandIsExactUnlessNested | backend/src/tools/arxiv.py:529-542 | exactly the `\command{...}` spans are deleted and everything else is kept in order, if and only if no occurrence is nested in another |
| Commands.NestedNoteLeavesItsTail | backend/src/tools/arxiv.py:529-542 | a nested note on which the tail of the outer one survives |
| CommandForms.RemovableExactly | backend/src/tools/arxiv.py:529-542 | what is stripped is the command as it is written, from its backslash to the brace that closes its balanced argument |
| CommandForms.StripTakesTheCommandOut | backend/src/tools/arxiv.py:529-542 | a command with any whitespace before its brace is taken out from between texts without backslashes |
| CommandBraces.StripConservesBracesExactly | backend/src/tools/arxiv.py:529-542 | without nesting, equally many opening and closing braces are removed if and only if as many of either are escaped in the removed arguments |
| CommandBraces.EscapedNoteUnbalances | backend/src/tools/arxiv.py:529-542 | a note with an escaped brace that takes two opening braces and one closing brace with it |
| Inputs.RunExpand | backend/src/tools/arxiv.py:346-450 | the recursion over the shared set yields the specified text, enters the specified keys in order and makes the specified number of calls, on any include graph |
| Inputs.RunInputs | backend/src/tools/arxiv.py:408-418 | replacing the inputs of a text from left to right, with the set updated by each inner expansion before the next |
| Inputs.RunBibs | backend/src/tools/arxiv.py:423-449 | replacing the bibliographies of a text likewise, each behind its heading |
| Inputs.ExpandHasNoBlowUp | backend/src/tools/arxiv.py:346-450 | every key is entered at most once, there is one recursive call for each, at most as many as the project has keys, and the result is no longer than the text and the entered files with 22 characters for each |
| InputNames.InputIsReplaced | backend/src/tools/arxiv.py:398-418 | for `\input{` and `\include{`, every name and whitespace around it: the first of (directory, name), (directory, name.tex), (root, name), (root, name.tex) that the project holds is expanded in place of the directive before what follows, and leaves nothing if it was entered before |
| InputNames.InputEntersFirst | backend/src/tools/arxiv.py:398-418 | and it is the first key entered, whatever it holds and whatever follows |
| InputNames.FileIsInlined | backend/src/tools/arxiv.py:346-450 | its expanded content replaces the directive in the result, where that holds no style and no bibliography with a file |
| InputNames.PlainFileIsInlined | backend/src/tools/arxiv.py:346-450 | a file of plain text replaces the directive word for word, down to nesting depth ten |
| InputNames.MissingFileIsLeft | backend/src/tools/arxiv.py:408-411 | where the project holds none of the four, the text stays and no file is entered |
| InputNames.NestedInputIsInlined | backend/src/tools/arxiv.py:398-418 | an input in a file is looked for in that file's own directory first, and the texts are put into each other |
| InputNames.DepthElevenIsLeft | backend/src/tools/arxiv.py:394-396 | at nesting depth eleven every text is left as it is |
| InputNames.BibliographyIsReplaced | backend/src/tools/arxiv.py:423-449 | for every list of names with whitespace around them: the first with a `.bbl`, else any `.bbl`, is expanded behind `\section*{References}` and a newline in place of the directive; one entered before leaves nothing, and without one the directive stays |
| InputNames.PlainBibliographyIsInlined | backend/src/tools/arxiv.py:423-449 | a `.bbl` of plain text replaces the directive word for word behind the heading; without one the text stays |
| InputNames.StyleIsDropped | backend/src/tools/arxiv.py:420-421 | `\bibliographystyle` goes, whatever it names |
| InputTokens.ReadIsExact | backend/src/tools/arxiv.py:48-54 | every text is the printing of the characters and directives read from it, and no directive starts at a character |
| InputWalk.ExpandIsWalk | backend/src/tools/arxiv.py:346-450 | in every project, with at most ten files nested and no style or bibliography arising from joined pieces, the text is that of a depth-first walk that visits each file once, the keys are entered in its order, and no style and no findable bibliography is left |
| InputWalk.WalkIsClosed | backend/src/tools/arxiv.py:408-448 | every directive of the main file and of each entered file that leads to a file leads to an entered one |
| InputWalk.FewKeysNeverHalt | backend/src/tools/arxiv.py:394-396 | a project with at most ten path keys never meets the depth limit |
| InputJoins.SealedExpansionIsWalk | backend/src/tools/arxiv.py:346-450 | where the main file and every file entered is sealed and there are at most ten path keys, the expansion is the walk |
| InputJoins.SealedExpansionIsFinal | backend/src/tools/arxiv.py:346-450 | and then every input in the expanded text is one that its own file cannot resolve, and a second expansion enters no file and changes nothing |
| InputsLeft.NoResolvableInputIsLeft | backend/src/tools/arxiv.py:408-418 | where the expansion is the walk, every input at any position of the expanded text is a directive of the main file or an entered one whose directory cannot resolve it, if and only if no input arises from joined pieces |
| InputFixpoints.FixedExactly | backend/src/tools/arxiv.py:346-450 | in every project, a text is left as it is and no file is entered if and only if it holds no style, no input that the root resolves and no bibliography that a file is found for |
| InputFixpoints.ExpandIsIdempotent | backend/src/tools/arxiv.py:346-450 | where no directive of any kind arises from joined pieces, a second expansion enters no file and changes nothing |
| JoinedPieces.ArisingBibliographyIsEntered | backend/src/tools/arxiv.py:420-449 | where the first directive to arise is a bibliography whose file has not been entered by then, the expansion enters that file, and its keys are not the walk's unless the walk enters it as well |
| JoinedPieces.JoinedExpansionDiffers | backend/src/tools/arxiv.py:420-449 | a project and a text on which dropping a style makes a bibliography directive: the expansion enters a file and the walk none, and the texts differ |
| JoinedPieces.JoinMayChangeNothing | backend/src/tools/arxiv.py:420-449 | the same text in a project without files: the directive arises and text and keys are those of the walk |
| JoinedPieces.JoinedInputIsLeft | backend/src/tools/arxiv.py:408-421 | a text on which dropping a style makes an input that the root resolves: it is left in the result, and a second expansion enters its file |
| Unwrap.NextHit | backend/src/tools/tex_to_markdown.py:302-309 | the search over all names finds the leftmost hit of any of them |
| Unwrap.GroupEnd | backend/src/tools/tex_to_markdown.py:314-328 | the inline depth loop ends on exactly the index the brace matcher returns, and with open groups exactly when the matcher fails |
| Unwrap.Unwrap | backend/src/tools/tex_to_markdown.py:296-341 | the loop with its recursion computes the unwrapped text, and both terminate |
| UnwrapCommands.CommandIsUnwrapped | backend/src/tools/tex_to_markdown.py:265-341 | `\pandocbounded{`, `\centering{`, `\raggedright{` and `\raggedleft{` around any balanced argument are taken away, and the argument and what follows are unwrapped likewise |
| UnwrapCommands.NothingToUnwrap | backend/src/tools/tex_to_markdown.py:296-297 | a text that holds none of these four strings is returned as it is |
| UnwrapCommands.OpenCommandStays | backend/src/tools/tex_to_markdown.py:336-340 | such a command whose brace is never closed stays, with all that follows |
| Unwrap.UnwrappingOnlyDeletes | backend/src/tools/tex_to_markdown.py:298-341 | on every input the output is a subsequence of it |
| Unwrap.UnwrappingConservesBraces | backend/src/tools/tex_to_markdown.py:298-341 | on every input equally many opening and closing braces are removed |
| UnwrapTrees.UnwrapIsHomomorphismExactly | backend/src/tools/tex_to_markdown.py:273-341 | the printing of a tree becomes the printing of the tree with every wrapper, at every depth, replaced by its children, if and only if the wrapper nodes are the only hits |
| UnwrapTrees.UnwrapKeepsBalance | backend/src/tools/tex_to_markdown.py:273-341 | where the wrapper nodes are the only hits, balanced in gives balanced out |
| UnwrapTrees.StrayHitsShorten | backend/src/tools/tex_to_markdown.py:298-341 | on a printed tree the output is never longer than the erased tree, and shorter as soon as some hit is no wrapper node |
| UnwrapTrees.EscapedBackslashLosesBalance | backend/src/tools/tex_to_markdown.py:302-309 | a balanced text with a hit off a token boundary that becomes unbalanced |
| DivWrappers.StripDivWrappers | backend/src/tools/tex_to_markdown.py:432-455 | the loop over the lines with its count of pending closers computes the specified text |
| DivWrappers.StripKeepsNesting | backend/src/tools/tex_to_markdown.py:432-455 | on well-nested lines the result is well nested, holds no wrapper opener, keeps the other divs, and has lost as many closers as openers |
| DivWrappers.RemovalOfAnyLines | backend/src/tools/tex_to_markdown.py:432-455 | on any lines no wrapper opener stays, the lines that are neither wrapper openers nor closers stay as they are and in order, and at most as many closers go as openers |
| DivWrappers.DroppedArePartnersExactly | backend/src/tools/tex_to_markdown.py:432-455 | on well-nested lines what stays is everything but the wrapper openers and the dropped closers, and these are the wrappers' own partners if and only if no other div is opened inside a wrapper |
| DivWrappers.StripUnwrapsExactly | backend/src/tools/tex_to_markdown.py:432-455 | the output is the text in which each wrapper has lost its opener and its own closer where no other div is opened inside a wrapper, and on lines whose closers are apart only there |
| DivWrappers.InnerCloserIsDropped | backend/src/tools/tex_to_markdown.py:448-454 | a text with a div inside a wrapper: in the output the div ends a line too late |
| DivOpeners.WrapperLinesExactly | backend/src/tools/tex_to_markdown.py:79-83 | a line opens a wrapper if and only if it is, but for whitespace around it, `<div` with at least one of `id="..."`, `class="figure"`, `class="figure*"` and `class="center"`, each behind whitespace, optional whitespace and `>` |
| DivOpeners.CloserLinesExactly | backend/src/tools/tex_to_markdown.py:84 | a line closes a div if and only if it is `</div>` with whitespace around it |
| DivOpeners.OtherLinesExactly | backend/src/tools/tex_to_markdown.py:432-455 | a line opens another div if and only if it is one `<div ...>` tag with whitespace around it that is not the opener of a wrapper |
| MathLayout.ParseIsReading | backend/src/tools/markdown_layout.py:25 | the pattern splits every text into gaps and blocks of the required shape, and nothing is lost |
| MathLayout.CanonicalIsParsed | backend/src/tools/markdown_layout.py:25 | gaps and blocks of that shape, written out, are split into themselves |
| MathLayout.CapCutsARun | backend/src/tools/markdown_layout.py:27 | a run of newlines of any length becomes two at most and nothing else changes |
| MathIsolation.IsolateKeepsInk | backend/src/tools/markdown_layout.py:30-46 | for every text the sequence of characters that are not whitespace is unchanged |
| MathIsolation.IsolateLeavesNoBlankRun | backend/src/tools/markdown_layout.py:30-46 | for every text the output has no run of three newlines |
| MathIsolation.IsolatedReading | backend/src/tools/markdown_layout.py:30-46 | where no body opens with two dollars the output has the same blocks in order, each body on lines of its own, trimmed and with its blank runs cut |
| MathIsolation.IsolateIsIdempotentExactly | backend/src/tools/markdown_layout.py:30-46 | isolating twice is isolating once if and only if no body opens with two dollars |
| MathIsolation.IsolateIsIdempotentWithoutTripleDollars | backend/src/tools/markdown_layout.py:30-46 | idempotence on every text without three dollars in a row |
| MathIsolation.FourDollarsMoveTwice | backend/src/tools/markdown_layout.py:30-46 | a text on which the second pass still changes something |
| MathIsolation.IsolateKeepsMathExactly | backend/src/tools/markdown_layout.py:30-46 | the output is the text of the same blocks in order; they hold the same mathematics, but for whitespace at the ends, if and only if no block holds a run of blank lines |
| MathIsolation.BlankLinesInABlockAreCut | backend/src/tools/markdown_layout.py:36-46 | a text whose block loses a blank line |
| MathCharacters.IsolateKeepsVisible | backend/src/tools/markdown_layout.py:30-46 | on every text the sequence of characters outside an explicit list of code points is kept |
| MathCharacters.IsolateKeepsAscii | backend/src/tools/markdown_layout.py:30-46 | on every text the sequence of characters from `!` to `~` is kept |
| MathCharacters.BodiesStandClear | backend/src/tools/markdown_layout.py:41-43 | apart from its two newlines no body of the result begins or ends with a listed code point, space, tab, carriage return and newline among them |
| MathLabels.CleanedIsBodyExactly | backend/src/tools/markdown_layout.py:68-70 | a body without its labels is still a body if and only if it is not only labels and holds no label between two dollars |
| MathLabels.StripKeepsBlocksExactly | backend/src/tools/markdown_layout.py:49-72 | the output has the same gaps and blocks, each body without its labels, if and only if no body is only labels and none holds a label between two dollars |
| MathLabels.StripKeepsPlainBlocks | backend/src/tools/markdown_layout.py:49-72 | so it is where no body holds a dollar or is only labels |
| MathLabels.DollarsThatMeetCloseTheBlock | backend/src/tools/markdown_layout.py:68-72 | a text with a label between a dollar and the end of its block, which then closes too early |
| MathLabels.CleanedIsPart | backend/src/tools/markdown_layout.py:68-70 | a cleaned body is the body with characters deleted |
| MathLabels.CleaningConservesBraces | backend/src/tools/markdown_layout.py:68-70 | equally many opening and closing braces are taken out of a body |
| MathLabels.LabelOnlyBlockIsLost | backend/src/tools/markdown_layout.py:68-72 | a block that is only a label becomes four dollars, which are no block |
| LabelForms.LabelExactly | backend/src/tools/markdown_layout.py:26 | a label is found exactly where `\label`, whitespace and an argument without braces between braces are written |
| LabelForms.LabelOfABlockIsTakenOut | backend/src/tools/markdown_layout.py:49-72 | such a label in a block is taken out and nothing else of the block is |
| LabelForms.NoBlockNoChange | backend/src/tools/markdown_layout.py:49-72 | a text without blocks is left as it is |
| JobRow.JobManager.CreateJob | backend/src/services/job_manager.py:43-73 | a new row in the accepted state and no other change |
| JobRow.JobManager.GetJob | backend/src/services/job_manager.py:75-101 | the row, or nothing when there is none |
| JobRow.JobManager.UpdateProgress | backend/src/services/job_manager.py:121-155 | unconditional write of status, step and progress and no other change |
| JobRow.JobManager.SetResult | backend/src/services/job_manager.py:157-193 | completed, progress 100 and the download URL; the local path only when given |
| JobRow.JobManager.SetError | backend/src/services/job_manager.py:195-215 | error status, progress 0 and the text |
| JobRow.JobManager.RequestCancel | backend/src/services/job_manager.py:217-256 | the flag is set, and true returned, exactly when the row is not terminal |
| JobRow.JobManager.IsCancelRequested | backend/src/services/job_manager.py:258-271 | the flag of the row, false when there is no row |
| JobRow.JobManager.SetCancelled | backend/src/services/job_manager.py:273-289 | cancelled status and no other change |
| Pipeline.StepKeepsInv | backend/src/agents/orchestrator.py:307-429 | every step of the runner, the dispatcher or a cancel request keeps the coupling of row, position and statuses written |
| Pipeline.TerminalAbsorbs | backend/src/services/job_manager.py:157-289 | once the row is terminal, nothing in it ever changes again |
| Pipeline.EveryRun | backend/src/agents/orchestrator.py:307-429 | the statuses written are the stages in order, cut off anywhere, and at most one terminal status; the fields agree with it; a run that is not killed ends with exactly one terminal write |
| Pipeline.TerminalIsFinished | backend/src/services/job_manager.py:157-289 | completed, progress 100 and a download URL go together, an error text is there exactly on error, and a cancelled job was asked to cancel and stands at a stage's progress before packaging |
| Pipeline.FallbackWritesNothing | backend/src/services/pipeline_dispatcher.py:111-126 | the dispatcher's fallback always finds a terminal row and leaves the whole row as it is |
| Pipeline.EveryRowShowsItsStage | backend/src/agents/orchestrator.py:307-385 | in every run status, step name and progress of the row belong together, stage by stage |
| Pipeline.WatcherSeesFlagExactly | backend/src/agents/orchestrator.py:329-351 | a flag is seen in the middle of a stage exactly while the paper is being translated or summarised |
| Pipeline.TextsTellFailuresApart | backend/src/agents/orchestrator.py:397-429 | two failures store the same text if and only if they are the same, down to pandoc's own words |
| Pipeline.ProgressNeverFalls | backend/src/agents/orchestrator.py:52-58 | progress never falls except to 0 on an error |
| Pipeline.BoundedOvershoot | backend/src/agents/orchestrator.py:228-266 | after the flag is up at most one progress write follows, and only one that a checkpoint had let through |
| Pipeline.CancelledInTimeNeverCompletes | backend/src/agents/orchestrator.py:354-358 | with the flag up before the last checkpoint was passed, no run completes |
| Pipeline.CompletesDespiteCancelExactly | backend/src/agents/orchestrator.py:354-385 | with the flag up, a job in flight can still complete if and only if the last checkpoint has been passed |
| Pipeline.CancelInTimeIsHonoured | backend/src/agents/orchestrator.py:387-429 | a run that was cancelled in time and reaches its end ends cancelled or in an error |
| PipelineRuns.CanComplete | backend/src/agents/orchestrator.py:307-385 | a job whose flag is not raised can be carried to its end, with any URL |
| PipelineRuns.DeadRunnerWritesNothing | backend/src/agents/orchestrator.py:269-306 | once the runner is dead nothing of the row changes any more but the flag |
| PipelineRuns.RaisedEndsAlike | backend/src/services/pipeline_dispatcher.py:118-126 | a raised failure ends in the same row with the fallback and without it |
| PipelineRuns.WritesAreRead | backend/src/api/routes.py:166-181 | in every run the write of a cancel request has its own read before it |
| Orchestrator.CancelJob | backend/src/api/routes.py:152-194 | not found, conflict or accepted by the row as read; the flag is set only on a row in flight |
| Orchestrator.ReadForCancel | backend/src/api/routes.py:166-179 | the refusal by the row as read: missing, finished or in flight |
| Orchestrator.Runner.RequestReads | backend/src/api/routes.py:166-179 | a request's read is one step of the transition system and changes nothing |
| Orchestrator.Runner.RequestWrites | backend/src/api/routes.py:181 | a request's write, any number of the runner's accesses after its read, is one step and sets the flag only in flight |
| Orchestrator.Runner.LetOthersRun | backend/src/api/routes.py:152-194 | the reads and writes of requests between two row accesses of the runner change nothing but the flag |
| Orchestrator.Runner.CheckCancelled | backend/src/agents/orchestrator.py:254-266 | a checkpoint cancels exactly when the flag is set |
| Orchestrator.Runner.PublishStage | backend/src/agents/orchestrator.py:228-251 | a stage's status, step and progress are written as one step of the transition system |
| Orchestrator.Runner.RunSingleAgent | backend/src/agents/orchestrator.py:179-225 | the call's own result or error, or a cancellation only if the flag was read as set |
| Orchestrator.Runner.PlainStage | backend/src/agents/orchestrator.py:308-327 | a stage without an LLM call is checked, published and worked on, and ends in its result, its failure or a cancellation |
| Orchestrator.Runner.AgentStage | backend/src/agents/orchestrator.py:330-351 | a stage with an LLM call likewise |
| Orchestrator.Runner.Stages | backend/src/agents/orchestrator.py:307-385 | the stages end in the first failure, a cancellation or a stored result, with the results of the stages before |
| Orchestrator.Runner.RunPipeline | backend/src/agents/orchestrator.py:269-431 | the run is a run of the transition system that ends in a finished row; the error stored is that of the first failure: the text for PDF-only papers, the fixed prefix and pandoc's own words, or "Pipeline execution failed"; only failures of no known kind are raised again, the returned URL is the row's, and without a cancel request the job is not cancelled |
| Orchestrator.Runner.Dispatch | backend/src/services/pipeline_dispatcher.py:104-126 | every dispatched job ends finished, an error with the text of its first failure, and other jobs' rows are untouched |
| Orchestrator.Runner.RecordFailure | backend/src/services/pipeline_dispatcher.py:118-126 | after a raised failure the fallback leaves the row as it is |
| Orchestrator.FallbackError | backend/src/services/pipeline_dispatcher.py:118-126 | a job in flight is marked as failed, a finished or missing one is left alone |
| AgentRace.StepKeepsInv | backend/src/agents/orchestrator.py:179-225 | every step of the event loop keeps what is known of the call, the watcher and the waiting coroutine |
| AgentRace.EveryExit | backend/src/agents/orchestrator.py:179-225 | at every exit the call is finished, and the watcher too when no outer cancel was taken; cancellation is reported only if the flag was read while the call was unfinished; otherwise the call's own result or the outer cancel comes out |
| AgentRace.EveryExitLeavesBothFinishedExactly | backend/src/agents/orchestrator.py:196-225 | with a call that ends in `CancelledError` once cancelled: every run returns from the wait, and both child tasks are finished at its exit if and only if it was not so that an outer cancel found the call failed and the watcher unfinished there |
| AgentRace.PresentResultIsDelivered | backend/src/agents/orchestrator.py:213-219 | a result or error that is there when the wait returns is delivered in every run |
| AgentRace.OuterCancelIsReRaisedExactly | backend/src/agents/orchestrator.py:196-211 | with such a call, an outer cancel taken at the wait is raised again if and only if the call had not already failed |
| AgentRace.FailureLeavesTheWatcher | backend/src/agents/orchestrator.py:201-211 | a run in which a failure masks the outer cancel and the watcher stays unfinished |
| RaceOutcomes.StopForTheFlagExactly | backend/src/agents/orchestrator.py:215-225 | after the flag was seen first the job is reported as cancelled, unless the call ends in an error and no outer cancel arrives behind that |
| RaceOutcomes.StopForTheOuterCancelExactly | backend/src/agents/orchestrator.py:201-211 | an outer cancel taken with the call unfinished is raised again, unless the call ends in an error and no further cancel arrives behind that |
| RaceOutcomes.TheRaceCanEnd | backend/src/agents/orchestrator.py:179-225 | from every state of the race there is a run to the exit |
| RaceOutcomes.LateFlagDoesNotCount | backend/src/agents/orchestrator.py:213-219 | a run for every result: the flag goes up and is seen when the result is there, and the result is delivered |
| RaceOutcomes.DisobeyingCallLeavesTheWatcher | backend/src/agents/orchestrator.py:201-211 | a run for every error: a call that answers its cancellation with an error masks the outer cancel and the watcher stays unfinished |
| AgentStages.StageStepsAreOutcomesExactly | backend/src/agents/orchestrator.py:179-225 | in a stage with an LLM call the runner can take a step of its own exactly when some race comes to the outcome for it |
| Worker.ServiceWorker.StopPolling | frontend/chrome-extension/background/service-worker.ts:114-120 | the job's timer is gone and nothing else changes |
| Worker.StartingKeepsHandles | frontend/chrome-extension/background/service-worker.ts:339-347 | a new timer under an id without one keeps the running timers exactly those whose handles are kept |
| Worker.StoppingKeepsHandles | frontend/chrome-extension/background/service-worker.ts:114-120 | clearing the kept handle of an id leaves no timer running without one |
| Worker.ServiceWorker.PersistActiveJobs | frontend/chrome-extension/background/service-worker.ts:133-136 | a snapshot of the whole table is handed to storage |
| Worker.ServiceWorker.FindJobByJobId | frontend/chrome-extension/background/service-worker.ts:203-208 | a job with the id is found if and only if there is one |
| Worker.ServiceWorker.ConversionCreated | frontend/chrome-extension/background/service-worker.ts:265-281 | the earlier job of the URL loses its timer, the new one takes its place and is persisted |
| Worker.ServiceWorker.StartPolling | frontend/chrome-extension/background/service-worker.ts:339-353 | a timer is set and the first poll goes out, unless the job has been replaced, when the timer is taken away again |
| Worker.ServiceWorker.PollJobStatus | frontend/chrome-extension/background/service-worker.ts:355-362 | a poll goes out exactly for the job in the table; otherwise its timer stops |
| Worker.ServiceWorker.StatusReplied | frontend/chrome-extension/background/service-worker.ts:372-431 | what a reply does to table, timers and storage; nothing when the job has been replaced |
| Worker.ServiceWorker.HandleConversionComplete | frontend/chrome-extension/background/service-worker.ts:433-448 | completion, progress 100 and the URL are entered and persisted for the job in place |
| Worker.ServiceWorker.CancelConversion | frontend/chrome-extension/background/service-worker.ts:300-314 | the flag is set and persisted exactly for a job in progress |
| Worker.ServiceWorker.CancelFailed | frontend/chrome-extension/background/service-worker.ts:321-333 | the flag is taken back and persisted, if the job is still in place |
| Worker.ServiceWorker.RestoreActiveJobs | frontend/chrome-extension/background/service-worker.ts:144-183 | the table is the stored one without the jobs started more than 86400000 milliseconds ago, persisted again when some were dropped, or the single job of an earlier version, whose key is then removed; with one timer and one first poll for each job in progress |
| Extension.StepKeepsInv | frontend/chrome-extension/background/service-worker.ts:114-448 | every step of backend, worker, network or storage keeps the whole invariant |
| ClientAgreement.EveryAwaitPoint | frontend/chrome-extension/background/service-worker.ts:114-448 | in every run, timers run exactly for the jobs in progress in the table, save those between insertion and polling, and the last snapshot issued is the table in every field but progress |
| ClientAgreement.RestartIsAlwaysPossible | frontend/chrome-extension/background/service-worker.ts:144-183 | what is stored can always be restored from |
| ClientAgreement.ShownOutcomeIsFinal | frontend/chrome-extension/background/service-worker.ts:355-448 | a job shown as complete, failed or cancelled is in the matching terminal state in the backend, and its row never changes again |
| ClientAgreement.ShownOutcomeIsGenuine | frontend/chrome-extension/background/service-worker.ts:355-448 | a complete job has the row's URL, a failed one the row's text, or the extension's own in place of an empty one, and a cancelled one was cancelled by an accepted request |
| ClientAgreement.DisplaysAgree | frontend/chrome-extension/background/service-worker.ts:144-183 | two finished displays of one job never differ, even across restarts |
| ClientAgreement.DisplayNeverChanges | frontend/chrome-extension/background/service-worker.ts:355-448 | within one life of the worker the outcome shown for a finished job never changes, under overlapping and out-of-order polls |
| ClientAgreement.OnlyItsOwnReplyFinishesAJob | frontend/chrome-extension/background/service-worker.ts:384-413 | an entry is replaced only by a start for its URL, its outcome changes only by a reply to a poll of that very job that reports the backend's final row, and a reply to a poll of a replaced job leaves the whole memory as it is |
| ClientAgreement.LateReplyMovesOnlyProgress | frontend/chrome-extension/background/service-worker.ts:418-431 | a late reply to a finished job moves its progress and nothing else |
| ClientAgreement.RestartConverges | frontend/chrome-extension/background/service-worker.ts:144-183 | restarting from any snapshot ever issued, whatever happens until a poll of the job succeeds, that poll brings back the status and URL shown before |
| ClientAgreement.OnePollAfterRestart | frontend/chrome-extension/background/service-worker.ts:173-183 | after a restart from a snapshot that holds the job, started no more than 24 hours ago, the outcome is shown at once or a poll is waiting whose round trip brings it back |
| RestartTimes.RestartKeepsExactly | frontend/chrome-extension/background/service-worker.ts:163-172 | for every snapshot, URL and time: the entry comes back unchanged if and only if now <= startedAt + 86400000 |
| RestartTimes.InsertedJobComesBackExactly | frontend/chrome-extension/background/service-worker.ts:265-281 | for every run after a job was inserted at some time: the stored entry still has that time, and a restart brings it back if and only if no more than 24 hours have passed since |
| ClientRuns.CanBeConverted | frontend/chrome-extension/background/service-worker.ts:265-448 | from every state of a running worker any URL can be converted under any new id, and the result is shown with the backend's URL |
| ClientRuns.FirstJobCanBeConverted | frontend/chrome-extension/background/service-worker.ts:265-448 | and so from the very start |
| ClientRuns.CanBeCancelled | frontend/chrome-extension/background/service-worker.ts:300-336 | from every such state a job can be started, cancelled and shown as cancelled with its flag taken back |
| ClientRuns.RefusalsAreAsked | frontend/chrome-extension/background/service-worker.ts:300-336 | in every run a cancel that is refused was asked for before |
| ClientRuns.EverythingCanBeLost | frontend/chrome-extension/background/service-worker.ts:355-431 | from every state all that is under way can be lost, with no effect on the backend, the worker or its storage |
| ClientRuns.WorkerCanDieAndComeBack | frontend/chrome-extension/background/service-worker.ts:133-183 | once its snapshots have landed a worker can be killed and started again, and exactly the jobs no more than 24 hours old are back, unchanged but for progress |
| ClientRuns.ForeignJobsAreNeverShown | frontend/chrome-extension/background/service-worker.ts:203-281 | a job that another client posts is in no table and no snapshot of any run |

## Left out

- Foreign code (`requests`, pandoc, S3, Lambda, Gemini, the ADK): each call is an arbitrary result or failure at its step.
- DynamoDB beyond atomic reads, unconditional writes and conditional writes of one row; row operations that fail, deletion by TTL and upsert on a missing row.
- More than one runner for a job: a job is dispatched once, so `Pipeline` has one runner; a run without a job manager writes no row and is not modelled.
- Pipeline.Step: the work of a stage is one step; inside an LLM stage only the sighting of the flag is, and its event loop is the subject of `AgentRace`.
- Orchestrator.Runner.RunSingleAgent: how often the flag is read and how the call ends come from outside; the tasks, their teardown and outer cancels are in `AgentRace`, and an outer cancel is the runner's death in `Pipeline`.
- AgentRace: a watcher whose read raises, and an LLM call that ends in `CancelledError` without having been cancelled; the call without a job manager.
- Extension: the answers of the cancel route reach the worker as arbitrary successes and failures; a storage write that fails; more than one worker at a time.
- Extension: storage starts without a job of an earlier version; restoring is one step that precedes the first start.
- Worker.ServiceWorker.CancelFailed: the code writes to the job object it found before the request; within one life of the worker an id has one object, so the entry with that id stands for it.
- The badge, log lines, timestamps other than the start of a job, progress messages, and `resolveDownloadUrl`.
- Inputs: the file system is a total map from path keys to texts with lookups by directory and name; decoding, symbolic links and the order of `rglob` are behind those lookups.
- InputWalk.ExpandIsWalk: a file at nesting depth eleven is left unexpanded by the code, and the walk is compared only where that does not happen; that no style and no bibliography arises from joined pieces is sufficient, not necessary.
- DivWrappers: a div opener other than a wrapper is a line that is one opening tag; tags inside a line of text are text.
- `_convert_table_captions`, the citation, spacing, crossref and image helpers, `_clean_title`, `_clean_author_list` and `_extract_metadata_and_rewrite`: single substitutions or chains of them.
- `fetch_arxiv_paper`, `download_arxiv_source`, `extract_source`, `_find_main_tex_file`, `html_to_markdown.py`, `image_convert.py`, `packaging.py`, authentication, configuration, prompts and the user interfaces.
