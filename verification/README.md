# Verification model of the desktop client

This project models the logic of the desktop client that keeps state, pairs events, transforms data or runs
concurrently, and proves what that logic is for. It is a project for Dafny 4.11; `dafny verify dfyconfig.toml`
checks all of it. There is one module per component.

Where the program computes a value, the model is a function. Where the program changes things step by step, there is
also the imperative form, proved equal to the function: the loops as methods, and the objects as classes whose methods
state the whole new state. Where promises and callbacks interleave, every callback is one step of a state machine, and
the theorems quantify over all runs, so over every interleaving.

## What is modelled

- **Change review.** `GitDiff` reads unified diffs and `DiffHeaders` says from the text alone what every line is read
  as; `DiffRoundTrip` prints diffs as the POSIX.1-2017 `diff` utility defines in its section "Diff -u or -U Output
  Format" and proves that reading undoes printing. `DiffColumns` lays them out in two columns and `DiffLayout` says that
  no other layout has its properties. `FileTree`, `FileTreeTheorems` and `FileTreeShape` build, sort and compress the
  tree of changed files; `FileTreeNodes` does the same over mutable nodes.
- **Activity.** `Protocol` and `Transcript` turn the event log into rows, and `TranscriptRows` says from the log which
  rows these are; `Projection` pairs tool calls with results, closes unfinished calls at turn boundaries and attaches
  approvals; `ToolOutputs` is what is shown of a result; `ProjectionTheorems`, `CallOutcome` and `OpenCalls` say what
  becomes of every call; `Grouping` and `RowOrder` collapse neighbouring tools, and `DisplayedRows` says which rows are
  displayed; `ActivityTranscript` is the pass over shared mutable objects. `Turns` and `TurnTheorems` split the log into
  turns with a folded and a visible part, and `TurnFolds` says which rows are in which. `ConfirmedTurns` and
  `TurnBarriers` say from the events when a turn counts as confirmed, `AskDecisions` how every approval, question and
  call is shown.
- **Saved order.** `ListOrder`: a stored order that also holds keys which are not loaded, and moves within it.
  `DisplayedItems`: which items are displayed and in which order.
- **Drafts.** `Drafts`: versions of drafts. `DraftContents`: what every operation stores. `Submission`: the protocol
  between sending, navigating and editing. `DraftPlaces`: where the submitted draft is after every run of it;
  `DraftRuns`: the same from the steps alone.
- **History cache.** `HistoryCache`: least recently used entries under two bounds. `RecentUse`: what the order of the
  entries means.
- **Image download.** `ImageLoader`: reassembling an image from chunks that are not trusted. `ImageOutcomes`: how every
  download ends.
- **Concurrency.** `Connections` (connection generations), `SupportFlags` (what is known of a host and when),
  `BoundedQueues` (the two bounded read queues).
- **Dialogs.** `Modal`: counted leases on the nodes that open dialogs suspend. `OpenDialogs`: which dialogs are open.
  `Suspension`: the nodes around one dialog. `DialogPage`: all together, on a page with any number of dialogs.

`Options`, `Sequences` and `Text` hold what the modules share.

## Where the code does less than one might expect

Each of these is proved, with the condition under which the code does what is expected.

- `parseDiff` also reports truncation when no line is missing, exactly if the limit is met and the content ends with a
  line break (`GitDiff.FlagIsFalseIff`, and `GitDiff.FlagIsFalseOnce` for one such content). The application passes no
  finite limit (`apps/desktop/src/ReviewDiff.tsx:17`), so only other callers can see it.
- `parseDiff` never leaves hunk mode. When a second file's diff follows in the same text, it comes back right if and
  only if no line of that file's own header starts with `+`, `-` or a space, and the usual `--- a/x` does
  (`DiffRoundTrip.SecondFileReadsBack`, `DiffRoundTrip.SecondFileHeaderIsMisread`). `DiffRoundTrip.HeaderIsMisread` says
  so of whole texts and `DiffRoundTrip.SecondFileIsMisreadOnce` of one text.
- The files of the review tree are its leaves if and only if no path is a directory on the way to another
  (`FileTreeShape.FilesAreLeavesIff`). When paths repeat, the last file of each path is shown
  (`FileTreeTheorems.ReviewShowsTheLatest`).
- Opening a session during a send that is then rejected loses the draft, if nothing was edited, exactly when a session
  was opened, none of the opened ones took the draft, and no session held it before
  (`DraftPlaces.RejectedDraftIsLostIff`; `DraftPlaces.RejectedDraftIsLostOnce` is the shortest such run). With one
  session that means exactly that the session already had a draft of another version
  (`DraftPlaces.RejectedDraftSurvivesIff`).
- When several sessions are opened from the new task in turn, an accepted draft stays under every session that took it
  and was neither the last one opened before the answer nor opened after it (`DraftPlaces.AcceptedDraftStaysIff`,
  `DraftPlaces.AcceptedDraftIsGoneIff`). A rejected draft stays under every session that took it, so it can be under two
  (`DraftPlaces.RejectedDraftIsWhere`, `DraftPlaces.RejectedDraftIsTwiceIff`). `DraftPlaces.TwoSessionsKeepTheDraft`
  gives the shortest run that does both. With one session it ends in one place (`DraftPlaces.DraftEndsInOnePlace`).
- Storing the window of events that the history cache already holds for a conversation does not make the conversation
  the most recently used one. So a `set` is a use exactly if it stores another window or other bounds of it
  (`RecentUse.SetIsUseIff`); `RecentUse.RepeatedSetIsNoUseOnce` is a run in which the conversation that was set last is
  evicted.
- A dialog suspends only HTML elements: an element of another kind beside the way to the dialog stays reachable, with
  everything in it (`Suspension.DialogIsolatesThePage`).

One more exact condition is not a failure of the application. A draft without references keeps its version when its
scope changes to or from the blank scope (`Drafts.RetargetedIsClearedIff`), so equal versions mean equal scope only if
there are entries (`Drafts.SharedVersionIsKindred`). The blank scope belongs to the shared empty draft alone
(`apps/desktop/src/drafts.ts:9`) and no caller sets it, so two real scopes are always told apart.

## Model

| member | source | states |
|---|---|---|
| Text.JoinSplit | apps/desktop/src/ReviewWorkspace.tsx:87-89 | joining the parts of any path with the separator gives the path back |
| Text.SplitJoin | apps/desktop/src/gitDiff.ts:13 | splitting joined parts gives the parts back, as long as no part holds the separator |
| Text.DecimalRoundTrip | apps/desktop/src/gitDiff.ts:20-21 | reading a number written in decimal gives the number |
| GitDiff.ParseDiff | apps/desktop/src/gitDiff.ts:7-50 | the loop returns the first `limit` lines of the whole diff, or all of them if the limit is infinite, and sets the flag exactly when the non-empty lines before the last line break fill the limit |
| GitDiff.ReadLineGrows | apps/desktop/src/gitDiff.ts:18-47 | every raw line except an empty one adds exactly one line and keeps the lines before it |
| GitDiff.LinesAreCounted | apps/desktop/src/gitDiff.ts:13-47 | the diff has exactly one line for every raw line that is not empty |
| GitDiff.FlagIsFalseIff | apps/desktop/src/gitDiff.ts:14-17 | the truncation flag is set with no line missing if and only if the limit is met and the content is empty or ends with a line break |
| GitDiff.FlagIsFalseOnce | apps/desktop/src/gitDiff.ts:14-17 | one line with its line break and room for one line: the flag is set and nothing is missing |
| DiffRoundTrip.HeaderReads | apps/desktop/src/gitDiff.ts:18-23 | every printed hunk header, with or without counts and with any section heading, is recognised with its two start lines |
| DiffRoundTrip.ReadingBack | apps/desktop/src/gitDiff.ts:13-48 | round trip: for every edit script cut into hunks in any way, reading the printed diff gives back the header lines and then every line with its kind, text and numbers |
| DiffRoundTrip.NumbersNameTheirLines | apps/desktop/src/gitDiff.ts:24-44 | every old number read names exactly that line of the old file and every new number that line of the new file, across all hunks |
| DiffRoundTrip.HunkModeStays | apps/desktop/src/gitDiff.ts:18-22 | whatever lines follow the first hunk header, the reader stays in hunk mode |
| DiffRoundTrip.SecondFileReadsBack | apps/desktop/src/gitDiff.ts:18-47 | after a first diff in the same text, the diff of a second file reads back right if and only if none of its header lines starts like a hunk line |
| DiffRoundTrip.SecondFileHeaderIsMisread | apps/desktop/src/gitDiff.ts:31-37 | the usual header of a second file is taken for a removed line |
| DiffRoundTrip.HeaderIsMisread | apps/desktop/src/gitDiff.ts:31-37 | in every text in which a header line that starts with a minus follows a hunk, the result holds a removed line with the rest of that header and a line number |
| DiffRoundTrip.SecondFileIsMisreadOnce | apps/desktop/src/gitDiff.ts:18-37 | one text: a diff of one changed line and then the first header line of another file, which comes back as a removed line |
| DiffHeaders.HeaderIff | apps/desktop/src/gitDiff.ts:18 | a line is read as a hunk header with two start lines if and only if it is spelled like one with these numbers, whoever wrote it |
| DiffHeaders.PaddedDecimal | apps/desktop/src/gitDiff.ts:20-21 | start lines may be written with zeros in front |
| DiffHeaders.EveryLineIsRead | apps/desktop/src/gitDiff.ts:13-47 | for every text: each line that is not empty becomes one line of the diff, in order; its kind follows from its spelling and from whether a header came before, and its numbers count on from the last header |
| DiffHeaders.LastHeader | apps/desktop/src/gitDiff.ts:18-23 | where a header came before there is a last one, so every marked line is numbered or kept whole |
| DiffColumns.SplitDiff | apps/desktop/src/gitDiff.ts:51-74 | the nested loops produce the two-column layout |
| DiffColumns.TakeRun | apps/desktop/src/gitDiff.ts:56-61 | one pass over a run of changed lines gathers its removed and its added lines in order and stops at the first other line |
| DiffColumns.ColumnsConserveLines | apps/desktop/src/gitDiff.ts:51-74 | read down the rows, the left column is the input without the added lines and the right column the input without the removed lines: nothing lost, repeated or reordered, for any mix of runs |
| DiffColumns.RowsAreProper | apps/desktop/src/gitDiff.ts:62-69 | every row is a heading alone, one unchanged line on both sides, or a change with removed lines only left and added lines only right |
| DiffLayout.RowsAreTight | apps/desktop/src/gitDiff.ts:62-69 | within a stretch of changed rows a side that has run out stays empty |
| DiffLayout.LayoutIff | apps/desktop/src/gitDiff.ts:51-74 | rows are the layout if and only if each is proper, no side leaves a gap and the columns show the lines of their side: so the removed and the added line of one place in a run stand side by side |
| FileTree.BuildGrown | apps/desktop/src/ReviewWorkspace.tsx:83-98 | every node's path spells its parts from the root, siblings have different names, and a node without a file is not empty |
| FileTree.LookupInsert | apps/desktop/src/ReviewWorkspace.tsx:86-97 | after a file is added its path leads to it, and every other path leads where it led before |
| FileTree.BuildFinds | apps/desktop/src/ReviewWorkspace.tsx:83-98 | following any path down the built tree leads to the last file given with that path, if there is one |
| FileTreeTheorems.BuildHolds | apps/desktop/src/ReviewWorkspace.tsx:83-98 | the tree holds a file if and only if it is the last given with its path |
| FileTreeTheorems.CompressKeepsFiles | apps/desktop/src/ReviewWorkspace.tsx:99-117 | sorting and merging neither lose, add nor repeat a file, on any tree |
| FileTreeTheorems.ReviewShowsEveryFile | apps/desktop/src/ReviewWorkspace.tsx:83-118 | with distinct paths the files of the displayed tree are a permutation of the input |
| FileTreeTheorems.ReviewShowsTheLatest | apps/desktop/src/ReviewWorkspace.tsx:95 | with repeated paths too: the displayed tree holds a file if and only if it stands in the list with no later file of its path |
| FileTreeShape.ReviewHasNoChains | apps/desktop/src/ReviewWorkspace.tsx:106-109 | nowhere in the displayed tree is a directory the only child of a directory |
| FileTreeShape.ReviewShowsTheForks | apps/desktop/src/ReviewWorkspace.tsx:99-117 | the displayed nodes are exactly the nodes of the built tree that are not directories with a single directory below: compression merges nothing else and repeats nothing |
| FileTreeShape.ReviewLeavesAreFiles | apps/desktop/src/ReviewWorkspace.tsx:83-118 | every leaf of the displayed tree is a file |
| FileTreeShape.FilesAreLeavesIff | apps/desktop/src/ReviewWorkspace.tsx:83-118 | every file of the displayed tree is a leaf if and only if no path is a directory prefix of another |
| FileTreeShape.ReviewIsSpelled | apps/desktop/src/ReviewWorkspace.tsx:106-109 | the shown names from the top down, joined by slashes, spell the path of every node, merged or not |
| FileTreeShape.ReviewIsSorted | apps/desktop/src/ReviewWorkspace.tsx:100-105 | at every level directories come before files, each group in the locale's order of the names that are shown |
| FileTreeShape.SortIsStable | apps/desktop/src/ReviewWorkspace.tsx:102-105 | sorting keeps the order of nodes of one kind whose names the locale does not tell apart |
| FileTreeShape.ReviewShowsFilesInPlace | apps/desktop/src/ReviewWorkspace.tsx:95 | every displayed node with a file has the file of its own path, merged directories or not |
| FileTreeNodes.GetChild | apps/desktop/src/ReviewWorkspace.tsx:89-94 | the child on the way is found by its path, or made and pushed at the end; its siblings keep their values |
| FileTreeNodes.AddFile | apps/desktop/src/ReviewWorkspace.tsx:88-97 | walking down over mutable nodes leaves exactly the tree that the functional insertion gives |
| FileTreeNodes.BuildTree | apps/desktop/src/ReviewWorkspace.tsx:84-98 | the mutable tree after all files is the built tree, and its nodes are pairwise separate |
| FileTreeNodes.SortNodes | apps/desktop/src/ReviewWorkspace.tsx:102-105 | sorting separate nodes gives the same nodes in the specified order, still separate |
| FileTreeNodes.CompressTree | apps/desktop/src/ReviewWorkspace.tsx:99-111 | compressing in place, children first, gives exactly the compressed tree |
| FileTreeNodes.FileTreeOf | apps/desktop/src/ReviewWorkspace.tsx:83-118 | the whole imperative pipeline displays exactly the tree the theorems speak of |
| Transcript.LastChangesAreLast | apps/desktop/src/transcript.ts:95-101 | of several changes recorded for a request the last one is kept |
| Transcript.Terminals | apps/desktop/src/transcript.ts:88-94 | a position is terminal exactly if a state other than running or waiting stands there |
| Transcript.TerminalsIncrease | apps/desktop/src/activity.ts:90-106 | events in order give strictly increasing terminal positions, which the pass scans by index |
| Transcript.ReceiptIsFirst | apps/desktop/src/transcript.ts:59-67 | of several receipts of one message of a session the first one is kept, with its text and position |
| Transcript.HiddenIff | apps/desktop/src/transcript.ts:130-140 | a message is hidden if and only if the first receipt of the same message of the session came earlier and has its text |
| Transcript.TranscriptIncreases | apps/desktop/src/transcript.ts:69-185 | events in order give rows with strictly growing keys |
| Transcript.StandingRowsSurvive | apps/desktop/src/transcript.ts:103-184 | calls, results, messages, questions, approvals and notices each keep exactly one row, in log order |
| Transcript.ProseSurvives | apps/desktop/src/transcript.ts:141-144 | however text is split over events and rows, the prose shown is the prose received |
| Transcript.ProjectEvents | apps/desktop/src/transcript.ts:102-184 | the single pass that extends the last row and the rendered set in place computes the transcript |
| TranscriptRows.RowsAreTheTable | apps/desktop/src/transcript.ts:102-185 | a row other than text is in the transcript if and only if an event of the log is shown as it: states with a message, change cards at the first place with the last changes unless these are empty, messages, hand-offs, asks with what the log decides about them |
| TranscriptRows.ParagraphsHoldTheirText | apps/desktop/src/transcript.ts:141-144 | a paragraph holds exactly the text of the events from its own number up to the next row, in order |
| TranscriptRows.NeighboursAreParted | apps/desktop/src/transcript.ts:177-184 | two paragraphs are neighbours only where an empty change card was left out between them |
| AskDecisions.AskIsShownAs | apps/desktop/src/transcript.ts:73-87 | every approval and question of a log has exactly one row; an approval is allowed or refused as the last decision under its id says, lapsed if there is none and the turn ended, and else undecided; a question has the last answer under its id |
| AskDecisions.ApprovalRowShows | apps/desktop/src/transcript.ts:154-168 | the row of an approval shows these |
| AskDecisions.QuestionRowShows | apps/desktop/src/transcript.ts:145-153 | the row of a question shows these |
| Projection.StepKeepsValid | apps/desktop/src/activity.ts:77-179 | after every item the pending calls are all unfinished, no two ids share a call, and every tool with status pending is unfinished |
| Projection.PlaceKeepsFinished | apps/desktop/src/activity.ts:111-178 | a tool that is no longer unfinished is not changed by any later item |
| Projection.FrozenOnceFinished | apps/desktop/src/activity.ts:81-179 | a tool that has left the unfinished set keeps its output and status to the end of the log |
| Projection.PlaceOnTool | apps/desktop/src/activity.ts:111-178 | one item changes an unfinished call only by answering it or by asking about it, and takes its id over only by a new call under that id |
| Projection.RunFollowsFate | apps/desktop/src/activity.ts:98-179 | the shared maps and sets do to each call exactly what following that call alone would do |
| ProjectionTheorems.CallFollowsFate | apps/desktop/src/activity.ts:77-179 | what the whole pass leaves of a call depends only on the items after it, read without any shared state |
| ProjectionTheorems.PendingFateIsOpen | apps/desktop/src/activity.ts:99-110 | a call stays pending only if no boundary follows it and no result for it while its id is its own |
| ProjectionTheorems.Origin | apps/desktop/src/activity.ts:113-146 | every tool of the output was made by one call, or by one result that found no call |
| ProjectionTheorems.OrphanIsSettled | apps/desktop/src/activity.ts:131-139 | a result without a call makes a row of its own with its content, completed or failed for good |
| ProjectionTheorems.PendingIsStillOpen | apps/desktop/src/activity.ts:77-179 | a tool left pending is a call with no later terminal state, no later message other than a hand-off, and no later result of its own |
| ProjectionTheorems.ResultsAreConserved | apps/desktop/src/activity.ts:123-140 | the outputs held by the tool rows are, as a multiset, the results of the log: each is attached to one call or is a row, none is dropped |
| ToolOutputs.ResultsShowTheFirstImages | apps/desktop/src/toolOutput.ts:3-23 | of any output: the first four images that can be shown are shown, in order and with their own data; in the content every image block becomes a text and every other block stays; other content stays whole |
| ProjectionTheorems.ArrivalOrderIsIrrelevant | apps/desktop/src/activity.ts:123-130 | two neighbouring results without images for different pending calls may arrive in either order: the projection is the same |
| CallOutcome.CallEnds | apps/desktop/src/activity.ts:77-179 | the final status and output of every call with an id, for all seven statuses, from the last approval or question about it before its result, the next call under its id or the end of its turn, and from whether that result came |
| OpenCalls.CallEndsByLog | apps/desktop/src/activity.ts:77-179 | the same from the log alone, with no state of the pass: the call is open up to its result, the next call under its id or the end of its turn, and the last approval or question about it before that place, whether the result stands there and whether the turn closes decide the status and output |
| AskDecisions.CallEndsByEvents | apps/desktop/src/activity.ts:77-179 | end to end, from the events alone: name, input, output and each of the seven statuses of every call with an id; in particular it is denied if and only if the last approval or question about it, put while it was open, was last decided against it |
| OpenCalls.ClosedIff | apps/desktop/src/activity.ts:98-110 | the turn of a call is closed if and only if a terminal state comes after the call, or a message that is no hand-off |
| OpenCalls.PendingIff | apps/desktop/src/activity.ts:98-140 | when an item comes an id is pending if and only if a call before it took the id and nothing in between answered it, took the id over or ended the turn |
| CallOutcome.NamelessCallEnds | apps/desktop/src/activity.ts:112-122 | a call without an id is never answered: it is unconfirmed if its turn closed and pending otherwise |
| CallOutcome.WaitingIsAsked | apps/desktop/src/activity.ts:149-176 | a tool shown as waiting is a call that a later, still undecided approval or question names |
| Grouping.GroupRowsIsProper | apps/desktop/src/activity.ts:180-202 | grouping loses and reorders nothing, every group has at least two tools that are pending, completed or unconfirmed, and no two neighbours could still merge |
| Grouping.GroupingIsUnique | apps/desktop/src/activity.ts:180-202 | any list with those properties is the displayed grouping of its rows |
| Grouping.DisplayFlattens | apps/desktop/src/activity.ts:180-202 | flattening the display gives the rows of the pass less the tools an approval shows already |
| RowOrder.NoToolIsLost | apps/desktop/src/activity.ts:157-158 | every tool of the log is displayed, alone, in a group or with the approval about it |
| RowOrder.DisplayKeysGrow | apps/desktop/src/activity.ts:141-146 | the keys of displayed rows grow strictly, so no two rows share one |
| DisplayedRows.ImagesAreShownIff | apps/desktop/src/activity.ts:141-146 | a row of images is displayed if and only if a result of the log has exactly these images to show and stands directly before it |
| DisplayedRows.PlainIsShownIff | apps/desktop/src/activity.ts:106-110 | an item of the transcript has a row of its own if and only if it is no call, no result, and no approval or question about a call that is open when it comes |
| DisplayedRows.AskedShowsItsCall | apps/desktop/src/activity.ts:149-158 | an approval or question displayed with a tool is one of the log about that call, put while the call was open |
| DisplayedRows.AskIsShownWithItsCall | apps/desktop/src/activity.ts:149-158 | every approval or question about an open call is displayed with that call |
| DisplayedRows.ToolIsAloneIff | apps/desktop/src/activity.ts:157-158 | a tool stands by itself or in a group if and only if no approval or question is displayed with it |
| DisplayedRows.GroupsAreWhole | apps/desktop/src/activity.ts:180-202 | every displayed group has the key of its first tool and at least two tools, each pending, completed or unconfirmed, and nowhere do two rows that could join stand next to each other |
| ActivityTranscript.ActivityPass.Finish | apps/desktop/src/activity.ts:81-87 | in whatever order the unfinished tools are visited, exactly the pending ones among them become unconfirmed |
| ActivityTranscript.ActivityPass.AddTool | apps/desktop/src/activity.ts:112-122 | a new shared tool object is in the rows, the unfinished set and, with an id, the pending map |
| ActivityTranscript.ActivityPass.AddResult | apps/desktop/src/activity.ts:123-140 | the shared object of the pending call is changed in place, seen from every list that holds it |
| ActivityTranscript.ActivityPass.AddAsk | apps/desktop/src/activity.ts:149-177 | an approval or question attaches the pending call it names and sets its status in place |
| ActivityTranscript.ActivityPass.PassTerminals | apps/desktop/src/activity.ts:99-105 | the loop over terminal states closes the turn once however many states it passes |
| ActivityTranscript.ActivityPass.Step | apps/desktop/src/activity.ts:98-178 | one item does to the shared objects what the functional step does to the values |
| ActivityTranscript.GroupRows | apps/desktop/src/activity.ts:180-202 | the grouping loop over shared objects shows the specified groups |
| ActivityTranscript.ActivityTranscript | apps/desktop/src/activity.ts:73-203 | the whole pass over mutable objects shows exactly the specified display |
| Turns.TurnGroupsCoverTheLog | apps/desktop/src/TurnTranscript.tsx:15-21 | the groups concatenate to the log, none is empty, and user events stand exactly at the front of the groups after the first |
| Turns.GroupTurns | apps/desktop/src/TurnTranscript.tsx:17-21 | the push loop makes those groups |
| Turns.TurnTranscript | apps/desktop/src/TurnTranscript.tsx:15-97 | one turn per group, each with the receipts of the whole log: its key, message, status, rows, segments and, if confirmed, the key, text and time of its final reply |
| Turns.ActivitySegments | apps/desktop/src/activity.ts:57-70 | the loop that extends the last segment makes the segments |
| Turns.SegmentsAlternate | apps/desktop/src/activity.ts:57-70 | segments are not empty and neighbours differ in kind |
| Turns.SegmentsCoverTheItems | apps/desktop/src/activity.ts:57-70 | segments concatenate to the items |
| Turns.PartOfSegments | apps/desktop/src/TurnTranscript.tsx:90-96 | the folded and the visible part are the items with and without the flag, in order |
| Turns.AfterBarrier | apps/desktop/src/activity.ts:44-54 | the place right after the last message, tool or attached approval |
| Turns.FinalReplyItems | apps/desktop/src/activity.ts:43-54 | the loop finds exactly the assistant rows after the last barrier |
| Turns.PartIs | apps/desktop/src/TurnTranscript.tsx:72-96 | a row is in a part exactly if the fold rule puts one of its places there |
| Turns.FoldingKeepsEverything | apps/desktop/src/TurnTranscript.tsx:72-96 | folding keeps every item of the turn, in order, in alternating segments |
| Turns.AsksStayVisible | apps/desktop/src/activity.ts:31-40 | an approval or question, settled or not, is visible and never folded |
| Turns.StoppedTurnFoldsTools | apps/desktop/src/TurnTranscript.tsx:72-74 | a stopped turn folds its tools and nothing else |
| Turns.UnconfirmedTurnFoldsNothing | apps/desktop/src/TurnTranscript.tsx:72-76 | a turn neither stopped nor confirmed complete folds nothing |
| Turns.FinalIndexIsTheReply | apps/desktop/src/TurnTranscript.tsx:57-59 | from the final index on, the assistant rows are the whole reply |
| Turns.FinalReplyIsVisible | apps/desktop/src/TurnTranscript.tsx:57-76 | the visible part ends with everything from the final reply on, so the reply is wholly visible |
| TurnFolds.TurnFoldsIff | apps/desktop/src/TurnTranscript.tsx:72-76 | a row is folded if and only if it is a tool or group of a stopped turn, or stands before the reply of a confirmed turn and is text, a tool, a group or a notice other than that of a loaded skill |
| TurnFolds.TurnShowsTheRest | apps/desktop/src/TurnTranscript.tsx:90-96 | the visible part is every other row of the turn |
| TurnFolds.MetersHaveNoRow | apps/desktop/src/transcript.ts:115-120 | no row shows a progress or usage event |
| TurnFolds.TurnStatusIff | apps/desktop/src/TurnTranscript.tsx:35-39 | a turn has the status of its last state event, and is stopped if and only if that is stopped |
| TurnFolds.FinalIs | apps/desktop/src/TurnTranscript.tsx:57-85 | a turn shows a final reply if and only if it is confirmed: under the key of the last row of the reply, with its paragraphs joined by empty lines and the time of the last state |
| TurnFolds.TurnMessageIs | apps/desktop/src/TurnTranscript.tsx:32-34 | the message of a turn that a user event opens is that event's |
| TurnFolds.TurnRowsIff | apps/desktop/src/TurnTranscript.tsx:23-48 | the rows of a turn are the displayed rows less its message, the notices that name the model and the stop mark of a stopped turn |
| TurnFolds.SkillNoticeIff | apps/desktop/src/activity.ts:38 | which notices tell that a skill was loaded |
| TurnFolds.ModelNoticeIff | apps/desktop/src/TurnTranscript.tsx:26-29 | which notices name the model, with or without the provider |
| TurnTheorems.TurnRowsAreDistinct | apps/desktop/src/TurnTranscript.tsx:22-53 | the rows of a turn have strictly growing keys and are distinct |
| TurnTheorems.NoRowIsLost | apps/desktop/src/TurnTranscript.tsx:22-97 | every displayed row is the turn's message, is left out by name, or is folded or visible |
| TurnTheorems.ConfirmedReplyIsShown | apps/desktop/src/TurnTranscript.tsx:60-71 | a confirmed reply is wholly visible, and a turn is confirmed only when it completed and nothing in it is unresolved |
| ConfirmedTurns.OpenedByMessageIff | apps/desktop/src/TurnTranscript.tsx:32-34 | a turn has a message of its own if and only if the first event of its group is a user event |
| ConfirmedTurns.UnresolvedIff | apps/desktop/src/TurnTranscript.tsx:62-71 | a row of the turn is unresolved if and only if an approval or question event of the group has no decision in it and no terminal state after it |
| ConfirmedTurns.RepliesIff | apps/desktop/src/activity.ts:43-54 | a turn has a final reply if and only if a text event comes after every message, tool and attached approval that it shows |
| ConfirmedTurns.ConfirmedIff | apps/desktop/src/TurnTranscript.tsx:32-71 | a turn is confirmed if and only if a user event opens its group, the last state of the group is completed, no approval or question event in it is undecided, and a text event comes after every message, tool and attached approval that the turn shows |
| TurnBarriers.PendingIsOpen | apps/desktop/src/activity.ts:98-140 | when a result, an approval or a question comes, the id it names is pending if and only if a call event under that id came before it and no message, terminal state, result for the id or other call under it in between |
| TurnBarriers.BarriersAreEvents | apps/desktop/src/activity.ts:43-54 | a text event comes after every barrier that its turn shows if and only if it comes after every hand-off, call, result no open call waits for, and approval or question about an open call among the events of the group |
| TurnBarriers.ConfirmedByEventsIff | apps/desktop/src/TurnTranscript.tsx:32-71 | from the events alone: a turn is confirmed if and only if a user event opens its group, the last state of the group is completed, no approval or question in it is undecided, and a text event comes after every barrier among the events |
| ConfirmedTurns.GroupIsTurn | apps/desktop/src/TurnTranscript.tsx:17-21 | every group of a log in order is a non-empty stretch in order with no user event after its first, so the theorems about turns apply to it |
| ConfirmedTurns.TurnKeysAreDistinct | apps/desktop/src/TurnTranscript.tsx:78 | no two turns of a log have the same key |
| TurnTheorems.RowsAreEvents | apps/desktop/src/transcript.ts:103-184 | a row that stands is in the transcript if and only if an event of the log makes it |
| TurnTheorems.PendingToolIsRunning | apps/desktop/src/activity.ts:77-179 | end to end: a tool shown as pending is a call event of the turn after which no state ended the turn and no message came |
| TurnTheorems.AskWaitsIff | apps/desktop/src/transcript.ts:145-168 | an approval or question waits if and only if no event of the log decides it and no terminal state follows it |
| TurnTheorems.WaitingToolIsUndecided | apps/desktop/src/activity.ts:149-176 | end to end: a tool shown as waiting is named by an approval or question event that no event decides and whose turn has not ended |
| ListOrder.ReorderAgrees | apps/desktop/src/MessageQueue.tsx:258-283 | the queue's own reorder submits exactly when the shared rule moves something, and submits exactly its result |
| ListOrder.MovePlaces | apps/desktop/src/listOrder.ts:41-52 | a move keeps the other keys in order, loses and repeats none, and puts the source directly beside the target on the asked side |
| ListOrder.MoveIsUnique | apps/desktop/src/listOrder.ts:41-52 | no other list has these properties |
| ListOrder.MoveIsIdempotent | apps/desktop/src/listOrder.ts:47-51 | repeating a move changes nothing |
| ListOrder.OrderKeysIs | apps/desktop/src/listOrder.ts:27-38 | the displayed keys are the saved keys that are loaded, in saved order, and then the other loaded keys in their own order |
| ListOrder.FillReadsBack | apps/desktop/src/listOrder.ts:65-69 | filling the visible slots leaves every other slot alone, and reading the visible keys gives the new list |
| ListOrder.FillDistinct | apps/desktop/src/listOrder.ts:65-69 | filling keeps the stored order free of repeats |
| ListOrder.MoveIsStored | apps/desktop/src/listOrder.ts:55-70 | for every saved order without repeats and every item list, storing a move and reading it back shows exactly the moved list, keys not loaded keep their index, and no key repeats |
| ListOrder.UniqueKeepsOrder | apps/desktop/src/listOrder.ts:9-15 | reading a stored order keeps the keys in the order in which they first appear |
| ListOrder.ReadOrder | apps/desktop/src/listOrder.ts:9-15 | the loop keeps every stored key exactly once |
| ListOrder.LoadItems | apps/desktop/src/listOrder.ts:28 | the map holds each key once where it first appears, with the last item under it |
| ListOrder.OrderItems | apps/desktop/src/listOrder.ts:27-38 | the loop that deletes from the local map lists the items in the displayed order of keys, each once |
| DisplayedItems.DisplayedAre | apps/desktop/src/listOrder.ts:27-38 | of the loaded items the last one with each key is displayed and no other; two saved ones stand as saved, a saved one before any other, two others as their keys first came |
| ListOrder.FillSlots | apps/desktop/src/listOrder.ts:66-69 | shifting the new keys into the visible slots never runs out and gives the filled order |
| ListOrder.StoreMove | apps/desktop/src/listOrder.ts:55-70 | the imperative form stores exactly the specified order |
| Drafts.SharedVersionIsKindred | apps/desktop/src/drafts.ts:20-42 | drafts of one version have equal text, flag and entries, and equal scope if there are entries |
| Drafts.EditMakesAFreshVersion | apps/desktop/src/drafts.ts:31-40 | an update makes a version no earlier draft has if and only if it changes the content |
| Drafts.EditSurvivesOldClears | apps/desktop/src/drafts.ts:44-60 | over every run of updates, adoptions and clears of older submissions an edited draft stays, even when its text is deleted and typed again |
| Drafts.OnlyItsOwnClearRemoves | apps/desktop/src/drafts.ts:20-60 | in every run a draft leaves its key only by a clear of that key, made while the draft there has the submitted version |
| Drafts.RetargetedIsClearedIff | apps/desktop/src/drafts.ts:28-40 | for every chain of scope changes of a draft without references: the clear of the draft first submitted still removes it if and only if no two neighbouring scopes differ without one of them being blank |
| Drafts.DraftStore.SetDraft | apps/desktop/src/drafts.ts:20-43 | `update` makes a new draft object under the key, inheriting the version if the content is the same |
| Drafts.DraftStore.TakeOver | apps/desktop/src/drafts.ts:44-48 | `adopt` leaves a key that already has a draft alone |
| Drafts.DraftStore.Remove | apps/desktop/src/drafts.ts:56-60 | `clear` deletes the key exactly when the submitted version is current there |
| DraftContents.UpdateStores | apps/desktop/src/drafts.ts:20-43 | after an update the draft under the key has the text, flag and references that were given, and the earlier ones otherwise; every other key and every earlier draft is as before |
| DraftContents.AdoptStores | apps/desktop/src/drafts.ts:44-48 | what is under each key after an adoption |
| DraftContents.ClearStores | apps/desktop/src/drafts.ts:56-60 | what is under each key after a clear |
| DraftContents.ContentIsLastSet | apps/desktop/src/drafts.ts:20-60 | over every run: while a key is neither emptied nor takes a draft over, its text, flag and references are the last ones set there, and under a key without a draft all are empty |
| DraftContents.TakenOverIsWhole | apps/desktop/src/drafts.ts:44-48 | a key that takes a draft over holds that draft with all its fields |
| Submission.StepKeepsEdits | apps/desktop/src/Conversation.tsx:161-184 | no step of the protocol deletes a draft edited after the submission, under any key |
| Submission.RunKeepsEdits | apps/desktop/src/Conversation.tsx:418-446 | the same over every run, whatever is opened and whatever the answer |
| Submission.ContentIsWritten | apps/desktop/src/Conversation.tsx:418-425 | a draft with any text, flag or reference has another version than the empty draft, so the theorems about places apply to it |
| DraftPlaces.RunPlaces | apps/desktop/src/Conversation.tsx:161-184 | for every key and at every moment of every run, with any edits and any number of sessions: what is under the key |
| DraftPlaces.DraftIsWhere | apps/desktop/src/Conversation.tsx:161-184 | the exact place after a run: an edited key holds its edit; another session holds the submitted draft if and only if it took it, or held it before, and has not dropped it; the new task holds it until it is accepted or a session is opened |
| DraftPlaces.TakenIff | apps/desktop/src/drafts.ts:44-48 | a session nobody writes in takes the draft if and only if it is opened and had no draft at the submission |
| DraftPlaces.DraftEndsInOnePlace | apps/desktop/src/Conversation.tsx:418-446 | with one fresh session an accepted draft ends under neither key; a rejected one ends under the session if that was opened and under the new task otherwise, and is the submitted one unless edited |
| DraftPlaces.RejectedDraftIsWhere | apps/desktop/src/Conversation.tsx:442-446 | after a rejection the new task holds the draft if and only if no session was opened, and a session if and only if it took it or held it before |
| DraftPlaces.RejectedDraftIsLostIff | apps/desktop/src/Conversation.tsx:176-181 | over every run without edits that ends rejected: no key holds the draft if and only if a session was opened and none took it or held it before |
| DraftPlaces.RejectedDraftIsLostOnce | apps/desktop/src/Conversation.tsx:175-182 | one failing run: when a session with another draft is opened and the send is then rejected, no key that did not hold the draft before holds it afterwards |
| DraftPlaces.RejectedDraftIsTwiceIff | apps/desktop/src/Conversation.tsx:175-182 | a rejected draft is under two sessions if and only if both took it or held it before |
| DraftPlaces.RejectedDraftSurvivesIff | apps/desktop/src/Conversation.tsx:176-181 | over every run with one session that ends rejected, whichever of answer and opening came first and however often it was reopened: the draft survives if and only if the session was not opened, had no draft, or had the same one |
| DraftPlaces.AcceptedDraftIsGoneIff | apps/desktop/src/Conversation.tsx:435-437 | over every run without edits that ends accepted: no key holds the draft if and only if every session that had it has dropped it |
| DraftPlaces.AcceptedDraftStaysIff | apps/desktop/src/Conversation.tsx:175-182 | an accepted draft stays under a session if and only if the session was opened without a draft of its own, was not the last opened before the answer, and was not opened after it |
| DraftPlaces.TwoSessionsKeepTheDraft | apps/desktop/src/Conversation.tsx:175-182 | two sessions opened in turn before the answer: an accepted draft stays under the first, a rejected one under both |
| DraftRuns.EnabledIff | apps/desktop/src/Conversation.tsx:161-184 | every run can go on with any key shown, with an edit of any key shown so far, and with any answer if there was none |
| DraftRuns.OpensIff | apps/desktop/src/Conversation.tsx:169-184 | a step opens a session from the new task if and only if it shows one while the key shown last is the new task |
| DraftRuns.SessionHoldsIff | apps/desktop/src/Conversation.tsx:161-184 | from the steps alone: a session nobody writes in holds the submitted draft if and only if it held it before or had none and was opened, and it was neither opened after the acceptance nor the last one opened before it |
| DraftRuns.NewTaskHoldsIff | apps/desktop/src/Conversation.tsx:418-446 | from the steps alone: the new task holds it if and only if no answer came, or a refusal came and no session was opened |
| Submission.Conversation.LayoutEffect | apps/desktop/src/Conversation.tsx:169-184 | the layout effect over the refs and the shared store does one migration step |
| Submission.Conversation.AfterSend | apps/desktop/src/Conversation.tsx:426-446 | the rest of `submit` after the answer, its `finally` included, does one settling step |
| HistoryCache.EvictIsLongestSuffix | apps/desktop/src/historyCache.ts:53-57 | eviction leaves exactly the longest run of most recent entries that meets both bounds |
| HistoryCache.StoreKeepsTheNewEntry | apps/desktop/src/historyCache.ts:50-57 | with room for one entry, the entry just stored is never evicted |
| HistoryCache.RunStaysValid | apps/desktop/src/historyCache.ts:19-66 | after every run of calls each conversation has at most one entry and both bounds hold |
| HistoryCache.CacheIsNeverStale | apps/desktop/src/historyCache.ts:32-58 | over every run, what is cached for a conversation is what was stored last for it |
| HistoryCache.Cache.Get | apps/desktop/src/historyCache.ts:19-25 | returns the entry's events and makes it the most recent, changing no size |
| HistoryCache.Cache.Set | apps/desktop/src/historyCache.ts:32-58 | the loop with its running size keeps the size equal to the sum of the entries and gives the specified entries |
| HistoryCache.Cache.ClearHost | apps/desktop/src/historyCache.ts:59-66 | drops exactly the host's entries and subtracts exactly their sizes |
| RecentUse.EntriesStandByUse | apps/desktop/src/historyCache.ts:19-66 | over every run: each entry has a last use, a `get` that found it or a `set` that stored it, and entries stand in the order of their last uses |
| RecentUse.EvictedWasLeastRecent | apps/desktop/src/historyCache.ts:53-57 | a conversation that a `set` evicts was last used before every one that it keeps |
| RecentUse.EvictsOnlyForRoom | apps/desktop/src/historyCache.ts:53-57 | if a `set` evicts anything, what it keeps does not fit together with the most recently used of the entries evicted |
| RecentUse.ReadingKeepsAll | apps/desktop/src/historyCache.ts:19-25 | reading drops and adds nothing, and clearing a host drops exactly its conversations |
| RecentUse.SetStores | apps/desktop/src/historyCache.ts:38-52 | a `set` that stores something new leaves the given window, with every field, as the last entry if it fits, and no entry for its conversation if not |
| RecentUse.SetIsUseIff | apps/desktop/src/historyCache.ts:38-44 | a `set` of a window that fits makes its conversation the most recent one if and only if it stores something other than what is cached, or the conversation was the most recent already |
| RecentUse.RepeatedSetIsNoUseOnce | apps/desktop/src/historyCache.ts:38-57 | one run: repeating the cached window does not save the conversation from being evicted next |
| ImageLoader.TurnAdvances | apps/desktop/src/changeImageLoader.ts:43-69 | a turn that goes on has strictly more bytes and still fewer than the limit, so the download ends against any server |
| ImageLoader.LoadChangeImage | apps/desktop/src/changeImageLoader.ts:19-89 | the loop ends, asks at strictly growing offsets below the limit and returns the specified outcome for every sequence of answers |
| ImageLoader.Assemble | apps/desktop/src/changeImageLoader.ts:71-76 | the copy loop fills the byte array with the chunks one after another |
| ImageLoader.ImageIsConsistent | apps/desktop/src/changeImageLoader.ts:43-85 | when an image comes back, all chunks agreed on size, version, type and hash, only the last had no more, the length is the declared size, and a hash that was sent is the digest of the bytes |
| ImageLoader.TrueSlicesGiveTheContent | apps/desktop/src/changeImageLoader.ts:68-76 | if every chunk is a true slice of some content, an image that comes back is that content |
| ImageLoader.HonestServerDelivers | apps/desktop/src/changeImageLoader.ts:26-87 | from an honest server every image from one byte to the limit comes back whole, however it is cut |
| ImageOutcomes.OutcomeIs | apps/desktop/src/changeImageLoader.ts:26-89 | the download ends as its first turn says that does not go on, for each of the outcomes: cancelled, late, failed, another kind of preview, absent, vanished, a chunk out of order, a wrong digest, an image |
| ImageOutcomes.EveryDownloadEnds | apps/desktop/src/changeImageLoader.ts:26-89 | whatever the server sends, there is such a turn |
| Connections.RunKeepsInv | apps/desktop/src/api.ts:24-71 | over every run attempts of a host form a chain whose recorded end is its last unsettled attempt, and support flags belong to the current generation |
| Connections.ConnectsAreSerial | apps/desktop/src/api.ts:30-62 | at most one native connect per host is in flight in every reachable state |
| Connections.GenerationsTell | apps/desktop/src/api.ts:36-40 | a host's generation is unchanged between two moments exactly if no connect began and no disconnect happened between them |
| Connections.LostConnectionIsAnnouncedIff | apps/desktop/src/api.ts:103-122 | a failed request fires the disconnect event if and only if the connection was reported lost and no connect attempt or disconnect of that host began since the request was issued |
| Connections.PreviewsNeedTheCurrentAnswer | apps/desktop/src/api.ts:96-103 | a preview request leaves only while the answer of the current generation says previews are supported |
| SupportFlags.SupportIsKnownIff | apps/desktop/src/api.ts:42-51 | over every run: a host is known to support previews, or not to, if and only if the answer of an attempt that was the current one said so and nothing has made it forgotten since |
| SupportFlags.RequestGoesOutIff | apps/desktop/src/api.ts:96-103 | a request goes out if and only if it is no preview, or previews are known to be supported at that moment |
| SupportFlags.ConnectMakesAttempt | apps/desktop/src/api.ts:30-63 | a connect call shares the attempt if and only if one is unsettled with the same host data and no password is given; otherwise the new one starts a generation at once if the host is idle and waits for its last unsettled attempt if not |
| Connections.ApiModule.ConnectHost | apps/desktop/src/api.ts:30-63 | shares the pending promise for the same host data without a password, and otherwise queues behind it or starts at once |
| Connections.ApiModule.InvokeConnection | apps/desktop/src/api.ts:35-42 | a queued attempt starts a new generation and forgets the support flag |
| Connections.ApiModule.OnResponse | apps/desktop/src/api.ts:42-51 | an answer sets the support flag only in the generation it belongs to |
| Connections.ApiModule.OnSettled | apps/desktop/src/api.ts:53-60 | a settled promise removes the recorded connection only if it is still the recorded one |
| Connections.ApiModule.OnRequestFailed | apps/desktop/src/api.ts:107-122 | a lost request clears the flag and fires the event only in its own generation |
| BoundedQueues.EnqueueKeepsValid | apps/desktop/src/AttachmentImage.tsx:26-40 | a new job starts at once if a reader is free, waits otherwise, and is refused exactly when the line is full, which only happens while every reader is busy |
| BoundedQueues.SettleKeepsValid | apps/desktop/src/AttachmentImage.tsx:13-21 | a finished job frees its reader for exactly the first waiting job |
| BoundedQueues.RunStaysValid | apps/desktop/src/ReviewWorkspace.tsx:55-75 | over every run the running jobs never exceed the limit, and none waits beside a free reader |
| BoundedQueues.JobsStartOnce | apps/desktop/src/ReviewWorkspace.tsx:58-71 | every job that has been started was started by exactly one step of the run |
| BoundedQueues.RunGrows | apps/desktop/src/ReviewWorkspace.tsx:58-73 | in every run the accepted jobs only grow at the end and the started ones are always the first of them, so jobs start in the order of acceptance |
| BoundedQueues.QueueDrains | apps/desktop/src/ReviewWorkspace.tsx:58-71 | outstanding jobs always include a running one, and once as many jobs have settled as were outstanding every accepted job has |
| BoundedQueues.DiffQueue.Add | apps/desktop/src/ReviewWorkspace.tsx:61-73 | enqueueing on the diff queue with its counter does the specified step |
| BoundedQueues.DiffQueue.JobDone | apps/desktop/src/ReviewWorkspace.tsx:67-70 | the settling callback does the specified step |
| BoundedQueues.ImageQueue.ImageRead | apps/desktop/src/AttachmentImage.tsx:22-41 | refuses exactly when both readers are busy and 64 jobs wait, and otherwise does the specified step |
| BoundedQueues.ImageQueue.ReadDone | apps/desktop/src/AttachmentImage.tsx:16-19 | the settling callback does the specified step |
| Modal.OpenKeepsInv | apps/desktop/src/Modal.tsx:36-47 | opening a dialog keeps the counts exact and the inert flags explained by them |
| Modal.CloseKeepsInv | apps/desktop/src/Modal.tsx:79-90 | so does closing any open dialog, not only the top one |
| Modal.LeasesRestoreThePage | apps/desktop/src/Modal.tsx:33-50 | in every run a node's count is the number of open dialogs that suspended it, it is inert exactly if it was so by itself or one of them holds it, and after the last dialog the page is as before the first |
| OpenDialogs.StackIsOpenDialogs | apps/desktop/src/Modal.tsx:23-90 | over every run the stack holds exactly the dialogs opened and not closed since, in the order of opening, each with the nodes it was opened with |
| OpenDialogs.OpenIff | apps/desktop/src/Modal.tsx:23-90 | a dialog is open after a run if and only if it was opened and not closed since |
| Modal.ModalPage.OpenDialog | apps/desktop/src/Modal.tsx:25-50 | opening over the stack, the owner map and the inert flags does the specified step |
| Modal.ModalPage.CloseDialog | apps/desktop/src/Modal.tsx:79-90 | the clean-up does the specified step |
| Suspension.SuspendAround | apps/desktop/src/Modal.tsx:33-50 | the climb from the dialog to the body collects the specified HTML elements |
| Suspension.SuspendedAre | apps/desktop/src/Modal.tsx:35-49 | a node is suspended exactly if it is an HTML element and leaves the way from the body to the dialog in its last step |
| Suspension.SuspendedDistinct | apps/desktop/src/Modal.tsx:33-50 | one dialog leases no node twice |
| Suspension.DialogIsolatesThePage | apps/desktop/src/Modal.tsx:33-50 | a node off the way to the dialog leaves it at one element, and is cut off if and only if that element is an HTML element; the dialog, what is in it and its ancestors stay reachable |
| Suspension.HtmlPageIsIsolated | apps/desktop/src/Modal.tsx:33-50 | on a page of HTML elements a node stays reachable exactly if it is the dialog, an ancestor of it or inside it |
| DialogPage.OpeningIsEnabled | apps/desktop/src/Modal.tsx:33-50 | what one climb collects can always be leased, so a run may open any dialog that is not open |
| DialogPage.LeasesAreAround | apps/desktop/src/Modal.tsx:33-50 | at every moment of every run each open dialog holds exactly the nodes around its own place, whatever other dialogs hold |
| DialogPage.OpenDialogsCutOff | apps/desktop/src/Modal.tsx:33-90 | after every run of dialogs opened and closed in any order a node cannot be reached if and only if it could not be before the first one, or one of the dialogs still open cuts it off |

## Left out

- Rendering, hooks, focus handling, keyboard navigation, labels, elapsed times and colours: user interface, or arithmetic with no invariant.
- Native calls, network, local storage and event listeners: answers are arbitrary values, and stored orders are given as lists of strings.
- The server and the SQLite store are not part of this model.
- `appendEvents`, `latestTurnChanges` and `imageBytes`: merging two logs by number, a search for the last card and a comparison of leading bytes.
- Text positions are Dafny characters; the program counts UTF-16 units. Only lengths compared with limits could differ.
- Numbers: line numbers are unbounded; the program's are exact up to 2^53. A hunk header with a longer number is read exactly here.
- Regular expressions are written out as the texts they match; `\d` is the ten ASCII digits and `\S` leaves out the white space of ECMAScript.
- `localeCompare` is any order of names; `FileTreeShape.ReviewIsSorted` assumes that it is a total preorder, the other tree theorems assume nothing.
- `JSON.stringify` of event lists is an opaque length, the host of a cache scope an opaque function of it, and SHA-256 an opaque digest of the bytes.
- Deadlines and cancellation are arbitrary: every turn of a download may be late or no longer valid.
- Fractional and negative limits of the cache and of diffs.
- `HistoryCache` keeps the reads `hasEarlier` and `before` only as fields of an entry.
- Item keys of saved orders are pairs and not their JSON text, which is injective on them; any other stored string is `OtherText`.
- Optional strings that the program only tests for truth are "" when absent: tool ids, the tool an approval names, state messages.
- Object identity of drafts and of cached event lists is an index; the weak map never forgets an entry.
- `Submission` follows one submission of a draft that is not the empty one; a prompt sent without a draft has nothing to keep. A second submission while the first record is still there is not modelled, and neither is the `scope` of the record, which only display uses.
- `FileTreeNodes.AddFile`: the inner loop over path parts is a chain of calls that each walk one part down; the mutable nodes are those of the loop.
- `FileTreeNodes.SortNodes`: the engine's sort is a stable insertion sort.
- `ActivityTranscript.ActivityPass.Finish`: the set of unfinished tools is visited in any order; the program visits it in insertion order.
- `BoundedQueues.DiffQueue.Add`: a job is a number and its read is outside the model; a read that throws before it returns a promise is not modelled. That a started job settles once is taken from promises.
- `Modal.LeasesRestoreThePage`: nothing else writes `inert` during the run. `Modal.Release` does keep the branch for a node whose flag was cleared from outside.
- `DialogPage.OpenDialogsCutOff`: the page does not change during a run, and every dialog keeps its place in it.
- Turns.TurnTranscript: the elapsed text and the number of folded segments, which are formatted from the parts that are modelled.
