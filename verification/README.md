# Verified model of the client's workflow engine, editors and live protocols

A Dafny model of the logic behind the client's editors and live pages, with its laws proved. `dafny verify dfyconfig.toml`
checks all of it.

What is modelled, file by file:

- **Workflows** (`client/src/config/workflowFile.js`). The dry run (`DryRun`, with its laws in `DryRunLaws`, the order it
  reports in `DryRunOrder`, and what it comes to, said of the nodes' own lists, in `DryRunOutcome`), the depth-first search
  for a loop (`WorkflowLoops`), the problems of identifiers and links (`WorkflowProblems`), the layered drawing
  (`WorkflowLayout`), names made free (`Names`) and the edits of nodes and links, which write the file (`WorkflowEdits`). `WorkflowReading` drops the links to the empty name, as the reader of the file does,
  and says which edits keep what is read consistent ; `WorkflowMeaning` says what an edit means for a run of it.
  `WorkflowModel` holds the nodes and links, `Graphs` the walks and loops of a finite graph.
- **The refresh of the session** (`client/src/lib/TokenStorage.js`): a step machine of any number of tabs, the shared storage,
  the lock and a server that exchanges each refresh token once, one step per stretch between two awaits (`TokenRefresh`).
  Sign-ins, sign-outs, lost answers and refreshes the lock cannot reach may come at any moment. `TokenAnswers` says what the
  callers of a refresh are answered.
- **Job notifications** (`client/src/lib/jobNotifications.js`): what is told once, and when looks run (`JobNotifications`).
- **Live events** (`client/src/lib/liveEvents.js`): the stream cut into frames, and the listener that runs at most once a
  second (`LiveEvents`).
- **Tree editors** (`client/src/config/categories.js`, `client/src/config/constants.js`). `RowTree` says what a move does to a
  tree as a value, and what it keeps, and `RowLists` what it does to each of its lists. `RowMoves` has the rows in memory, one
  object per row with a list that is spliced in place, and shows each splice to be that move. `Categories` and `Constants` add
  what is their own : the Default row and the paths, the round trip of a map and the values that are never lost.
- **Placeholders in expressions** (`client/src/lib/Helpers.js`): the quote lexer and the splicing (`ExpressionSplice`), and what
  a literal spliced into decodes to (`SplicedLiterals`), over UTF-16 code units, with JSON strings in `Json`. A value to splice
  is its literal and its text (`Given`) : JSON.stringify's and String's of a value, or a source as it is and the text it
  denotes.
- **Column widths** (`client/src/directives/fitColumns.js`): `ColumnSharing`.
- **Roles** (`client/src/config/roles.js`): reading and writing a role (`Roles`).
- **Job logs** (`client/src/lib/jobLog.js`): the two expressions of a line, character by character (`JobLog`), what a log should
  show, said of the codes in it (`JobLogClasses`), and the lines (`JobLogLines`). What html shows is read back by a reader of
  spans and character references that refuses anything else.

`Texts` and `Wrappers` hold what several of them use.

Where a loop or an in-place change computes something, it is a method proved equal to a function of its inputs (or of the
state before), and the laws are about that function. Some cases do not keep what one would expect of the code. They are modelled
as the code has them, each with its exact condition and with one input that shows it, as a lemma :

- Renaming a node to a name another has, or linking to a node there is not, is let through by the edits, and so is naming a
  nameless node that some node has two links to. Exactly when an edit keeps the workflow read consistent :
  `WorkflowReading.EditKeeps` ; inputs : `WorkflowReading.LetThrough`.
- Renamed to the empty name, a node loses the links to it, which the reader drops, and so always runs ; a nameless node that
  gets a name gets the links to the empty name that were not read before. Exactly when a rename in the file is the rename of
  what is read : `WorkflowReading.RenameIsRead` ; exactly when the node renamed to nothing keeps its status :
  `WorkflowMeaning.RenamedToNone` ; inputs : `WorkflowMeaning.RenamedToNothing`, `WorkflowMeaning.NamedNode`.
- A value spliced right after a backslash of a string, or exactly between two quotes of which the first is escaped, can change
  how the rest of the expression is read. Exactly where no string does : `ExpressionSplice.SplicingIsSafeExactly` (between two
  `"` none does) ; exactly where no value does : `ExpressionSplice.SplicingAnyIsSafeExactly` ; inputs :
  `ExpressionSplice.NotSafeAfterBackslash`, `ExpressionSplice.NotSafeBetweenQuotes`.
- Text spliced after an escape begun and not ended, as in `'\u00$(n)'`, is read as the end of it. Exactly when it reads back :
  `SplicedLiterals.SplicedReadsBackExactly` ; input : `SplicedLiterals.EscapeCutShort`.
- `extendedTokenExpiration` on with `allowApiTokens` off is read back with `allowApiTokens` on, unless the file spelled that one
  out : `Roles.SavingKeepsSwitchesExactly` ; input : `Roles.TokensComeBack`.
- A call that joins a refresh under way can be answered the very token it says failed, when that refresh began before that
  token was stored. Exactly when : `TokenAnswers.TheFailedExactly` ; input : `TokenAnswers.JoinedTooLate`.
- A look at the jobs that throws forgets the change heard while it ran, until another is heard. Exactly which runs lose one :
  `JobNotifications.ChangeIsLostExactly` ; input : `JobNotifications.ThrowLosesChange`.
- Escaping comes before the control sequences are looked for, so one with `&`, `<` or `>` in it is cut short and its end shows
  as text : `JobLogLines.LinesAreMeantExactly` ; input : `JobLogLines.SequenceShowsAsText`.
- A constant whose key is empty or has spaces at its ends does not come back as it was :
  `Constants.RowsStoreTheMapExactly` ; input : `Constants.SpacedKeyComesBackTrimmed`.

## Model

| member | source | states |
|---|---|---|
| `DryRun.ParentsOf` | client/src/config/workflowFile.js:979-981 | the links into each node, every one of each kind as often as the file lists it, links to a node there is not left out |
| `DryRun.NextStep` | client/src/config/workflowFile.js:978-1003 | those that start are exactly the undecided nodes that have no parent, or a link into them that holds (every one when they must converge) ; those that never will, exactly those into which none ever holds (or one never does) ; each list in the order of the file |
| `DryRun.PickedIff` | client/src/config/workflowFile.js:984-1001 | an identifier is picked exactly when an undecided node of that identifier gets that verdict |
| `DryRun.VerdictIs` | client/src/config/workflowFile.js:959-1001 | the rule, said of the ends of the parents and of their own success, failure and always lists |
| `DryRun.DryRun` | client/src/config/workflowFile.js:1017-1032 | the loop ends in the state, the order and the failed verdict of the rounds run to their end |
| `DryRunOutcome.ResultIs` | client/src/config/workflowFile.js:1017-1032 | what every dry run comes to, from the statuses it answers : who ran, who failed, who never runs, who is left pending, and whether the workflow fails |
| `DryRunOutcome.NextRound` | client/src/config/workflowFile.js:1020-1028 | round by round : a node runs in the first round that finds what calls it, in the order of the file |
| `DryRun.StableIff` | client/src/config/workflowFile.js:1021-1022 | the loop stops exactly when every node is decided or waits |
| `DryRunLaws.FiresForGood` | client/src/config/workflowFile.js:959-965 | the outcome of a link never changes once it is known |
| `DryRunLaws.VerdictForGood` | client/src/config/workflowFile.js:984-1001 | nor does a start or a skip : whatever is decided elsewhere, the verdict stays |
| `DryRunLaws.RoundSettles` | client/src/config/workflowFile.js:1021-1027 | what a round does to each node ; start and skip never meet when identifiers are unique |
| `DryRunLaws.RoundsJustified` | client/src/config/workflowFile.js:1020-1028 | at any round each decision is the one the rule gives in that very state |
| `DryRunLaws.GuardSuffices` | client/src/config/workflowFile.js:1020-1022 | the guard never cuts a run short, for any workflow : where the loop ends nothing starts and nothing is skipped |
| `DryRunLaws.FinalIsFixpoint` | client/src/config/workflowFile.js:1017-1029 | the final state is a fixpoint : each node is exactly what the rule says of it there |
| `DryRunLaws.ScheduleIndependence` | client/src/config/workflowFile.js:978-1032 | nodes decided one at a time in any order, until nothing is left to decide, end with the statuses of the dry run |
| `DryRunLaws.ReorderingChangesNoStatus` | client/src/config/workflowFile.js:978-1032 | reordering the nodes of the file changes no status and not the verdict |
| `DryRunLaws.PendingIsBehindLoop` | client/src/config/workflowFile.js:1013-1014 | a node left pending has a loop among its ancestors, every node on the way pending too |
| `DryRunLaws.AcyclicLeavesNonePending` | client/src/config/workflowFile.js:1013-1032 | without a loop no node is left pending, whatever fails |
| `DryRunOutcome.RunIsCausal` | client/src/config/workflowFile.js:1017-1032 | the order holds each node that ran exactly once, each after a parent with a link into it that holds (after all of them when they must converge) |
| `DryRunOrder.OnlyRanFailuresMatter` | client/src/config/workflowFile.js:1024-1027 | two sets of failures that agree on the nodes that ran give the same result, in any workflow |
| `WorkflowLoops.LoopFinder.constructor` | client/src/config/workflowFile.js:236-237 | the search starts with no node visited |
| `WorkflowLoops.LoopFinder.Visit` | client/src/config/workflowFile.js:238-248 | a node found lies on a loop ; else all the node leads to was visited before its own visit ended |
| `WorkflowLoops.LoopFinder.VisitAll` | client/src/config/workflowFile.js:242-245 | the same over the links of one node |
| `WorkflowLoops.LoopFinder.Search` | client/src/config/workflowFile.js:249-253 | the same over every node |
| `WorkflowLoops.LoopIn` | client/src/config/workflowFile.js:235-254 | terminates, and answers none exactly when the links it follows have no loop ; an identifier it answers lies on one |
| `WorkflowLoops.AllEndedIsAcyclic` | client/src/config/workflowFile.js:238-248 | when each visit ended after those of what the node leads to, there is no loop |
| `WorkflowLoops.FollowsTheEdges` | client/src/config/workflowFile.js:236-240 | with unique identifiers the links followed are exactly those of the workflow |
| `WorkflowProblems.IdentifierProblems` | client/src/config/workflowFile.js:335-341 | what is wrong with identifiers : the missing, the malformed, the second of a name, and nothing else |
| `WorkflowProblems.GoodIdentifierIs` | client/src/config/workflowFile.js:42 | the letters, digits and signs an identifier may have |
| `WorkflowProblems.LinkProblems` | client/src/config/workflowFile.js:370-376 | the links to a node there is not, all of them and no other |
| `WorkflowProblems.ProblemsOf` | client/src/config/workflowFile.js:325-381 | no problem exactly when identifiers are good and unique, no link dangles and no loop is left |
| `WorkflowProblems.SoundRunsToItsEnd` | client/src/config/workflowFile.js:325-381 | a workflow without a problem leaves no node pending, whatever fails |
| `WorkflowLayout.ListEdges` | client/src/config/workflowFile.js:857-862 | the links drawn are exactly those between nodes there are |
| `WorkflowLayout.Relax` | client/src/config/workflowFile.js:866-872 | one pass : no depth shrinks, each link is satisfied by the depths before it, and a depth is always that of a real path |
| `WorkflowLayout.Depths` | client/src/config/workflowFile.js:863-874 | each depth is reached by a real path and within the number of nodes, loop or not ; without one as many passes as nodes cover every path |
| `WorkflowLayout.LayeredByLongestPath` | client/src/config/workflowFile.js:863-874 | in a workflow without a loop each link leads strictly deeper and a depth is exactly the longest path to the node |
| `WorkflowLayout.ColumnsOf` | client/src/config/workflowFile.js:875-880 | each column holds the nodes of one depth, in the order of the file |
| `WorkflowLayout.Extent` | client/src/config/workflowFile.js:881-882 | the deepest column and the longest one |
| `WorkflowLayout.PlaceNodes` | client/src/config/workflowFile.js:885-892 | each identifier in the place of its column and row ; of several nodes of one identifier, the last one's place |
| `WorkflowLayout.Lift` | client/src/config/workflowFile.js:911-936 | how far everything moves down : exactly what the highest arc needs, nothing when none does |
| `WorkflowLayout.WorkflowGraph` | client/src/config/workflowFile.js:855-943 | each node in its depth's column ; boxes of different identifiers never touch and stay inside the margins ; each column in the order of the file, evenly spaced and centred ; the canvas no larger than it must be, the start centred ; the arcs have their room, and nothing is moved down further than that asks |
| `Names.FreeName` | client/src/config/workflowFile.js:523-528 | ends within as many tries as there are names taken, with the wanted name when free, else the first numbered one that is |
| `Names.DecimalReadsBack` | client/src/config/workflowFile.js:526-527 | the number after a name is its digits |
| `Names.TriedAreTaken` | client/src/config/workflowFile.js:523-528 | numbered names are all different, so only so many can be taken |
| `Names.OneFreeName` | client/src/config/workflowFile.js:523-528 | there is only one name it can answer |
| `WorkflowEdits.EditAddNode` | client/src/config/workflowFile.js:643-666 | under a free name, a node more at the end, without links ; the node named gets one link more, to it, last of the kind asked, and all else is as it was ; or the error for one there is not |
| `WorkflowEdits.EditRename` | client/src/config/workflowFile.js:684-701 | the first node of that identifier is renamed, each link to it follows at its place, and all else is as it was ; or the error |
| `WorkflowEdits.EditRemoveNode` | client/src/config/workflowFile.js:775-790 | the first node of that identifier is gone, with every link to it ; the other nodes and their other links stay, in order |
| `WorkflowEdits.EditLink` | client/src/config/workflowFile.js:806-815 | `to` is then exactly once among the links of `from`, last of those of this kind ; its other links keep their order, every other node is as it was ; or the error |
| `WorkflowEdits.EditUnlink` | client/src/config/workflowFile.js:829-837 | `to` is then in no link of `from` ; its other links keep their order, every other node is as it was ; or the error |
| `WorkflowReading.ReadIsNamed` | client/src/config/workflowFile.js:124-129 | what is read of a file has no link to the empty name |
| `WorkflowReading.RenameIsRead` | client/src/config/workflowFile.js:691-701 | a rename in the file is the rename of what is read, exactly when the name is the one it had, or no link is lost to the empty name nor found from it |
| `WorkflowReading.NamelessIsCutOff` | client/src/config/workflowFile.js:691-701 | renamed to the empty name, a node loses each link to it, and all else is as it was |
| `WorkflowReading.LinkIsRead` | client/src/config/workflowFile.js:806-815 | a link written to the empty name is none when read ; any other is the link made of what is read |
| `WorkflowReading.RemoveIsRead` | client/src/config/workflowFile.js:775-790 | a removal in the file is the removal of what is read |
| `WorkflowReading.RenameKeepsRead` | client/src/config/workflowFile.js:691-701 | a rename keeps what is read consistent exactly when no other node has the name, and, for a nameless node, when no node has two links to the empty name |
| `WorkflowReading.RemoveKeepsRead` | client/src/config/workflowFile.js:775-790 | a removal always does |
| `WorkflowReading.LinkKeepsRead` | client/src/config/workflowFile.js:806-815 | a link does exactly when it leads to a node there is, or to the empty name |
| `WorkflowReading.UnlinkKeepsRead` | client/src/config/workflowFile.js:829-837 | an unlink always does |
| `WorkflowReading.AddKeepsRead` | client/src/config/workflowFile.js:643-666 | an addition under a free name always does |
| `WorkflowReading.EditKeeps` | client/src/config/workflowFile.js:643-837 | each edit keeps what is read consistent (identifiers unique, no link dangling, one kind of link per pair) exactly when it is allowed |
| `WorkflowReading.EditRunKeeps` | client/src/config/workflowFile.js:643-837 | over every run of allowed edits |
| `WorkflowReading.LetThrough` | client/src/config/workflowFile.js:684-815 | a file where a rename and a link let through leave the workflow inconsistent |
| `WorkflowMeaning.RenameCommutesWithRun` | client/src/config/workflowFile.js:691-701 | a dry run after a rename to a fresh name is the dry run before it, renamed : statuses, order and verdict ; whenever no link is lost to the empty name nor found from it |
| `WorkflowMeaning.NamelessAlwaysRuns` | client/src/config/workflowFile.js:1017-1032 | a nameless node always runs, whatever fails |
| `WorkflowMeaning.RenamedToNone` | client/src/config/workflowFile.js:691-701 | renamed to the empty name, a node keeps its status exactly when it ran |
| `WorkflowMeaning.RenamedToNothing` | client/src/config/workflowFile.js:691-701 | a file where a node that would never run is successful once it is renamed to the empty name |
| `WorkflowMeaning.NamedNode` | client/src/config/workflowFile.js:691-701 | and one where a nameless node that ran never runs once it has a name |
| `WorkflowMeaning.AddLeavesTheOthers` | client/src/config/workflowFile.js:643-666 | a node more leaves the status of every other node, and the order they run in, for every set of failures |
| `TokenRefresh.StepKeepsSane` | client/src/lib/TokenStorage.js:73-134 | what every step of any tab, of the server and of a refresh outside the lock keeps |
| `TokenRefresh.TraceIsSane` | client/src/lib/TokenStorage.js:73-134 | over every interleaving |
| `TokenRefresh.OneRefreshInFlight` | client/src/lib/TokenStorage.js:76-92 | at most one tab refreshes, at any moment |
| `TokenRefresh.PostsWhatIsStored` | client/src/lib/TokenStorage.js:94-106 | each post sends the refresh token then in storage, while no other is in flight |
| `TokenAnswers.PostsOnlyWhenStillStored` | client/src/lib/TokenStorage.js:94-134 | a tab posts only when the refresh token it began with is still stored, and once more after five seconds |
| `TokenRefresh.NeverSentAgain` | client/src/lib/TokenStorage.js:94-134 | a refresh token once stored and replaced is never sent again, by any tab |
| `TokenRefresh.AnswersAreStored` | client/src/lib/TokenStorage.js:73-134 | a token answered is the one then stored ; none only when the storage is empty then, or holds the refresh token posted |
| `TokenAnswers.CallIs` | client/src/lib/TokenStorage.js:73-82 | a call is answered at once exactly when another token than the one that failed is stored, and with that one ; otherwise the tab refreshes, or does already |
| `TokenAnswers.NoneIsRefused` | client/src/lib/TokenStorage.js:94-134 | none is answered only when nothing is stored, or a post of the token still stored was refused, or met a second 409 |
| `TokenAnswers.ConflictWaits` | client/src/lib/TokenStorage.js:111-117 | the first 409 has the tab wait |
| `TokenAnswers.WaitsForReplacement` | client/src/lib/TokenStorage.js:119-124 | looking every quarter of a second for five seconds, and taking the token that comes |
| `TokenAnswers.NeverTheFailed` | client/src/lib/TokenStorage.js:73-134 | over every interleaving a caller whose token failed is answered none or a token stored since, never that one, unless it joined a refresh begun before that token was stored |
| `TokenAnswers.TheFailedExactly` | client/src/lib/TokenStorage.js:73-134 | and exactly then some interleaving answers it that one |
| `TokenAnswers.JoinedTooLate` | client/src/lib/TokenStorage.js:73-104 | a state where it is |
| `TokenRefresh.CallJoins` | client/src/lib/TokenStorage.js:76-81 | a call of a tab that refreshes already posts nothing |
| `TokenRefresh.SignInIsHealthy` | client/src/lib/TokenStorage.js:73-134 | tabs just opened keep the invariant, and a sign-in while no tab refreshes begins a stretch where the next two rows hold |
| `TokenRefresh.HealthyStep` | client/src/lib/TokenStorage.js:94-117 | while nothing outside the lock interferes and no answer is lost, no post is refused |
| `TokenRefresh.NoSessionIsLost` | client/src/lib/TokenStorage.js:73-134 | so over every such interleaving no caller goes without a token |
| `JobNotifications.Notifications.Reset` | client/src/lib/jobNotifications.js:138-142 | everything seen is forgotten |
| `JobNotifications.Notifications.WhatIsNew` | client/src/lib/jobNotifications.js:233-257 | what one look tells and what it remembers |
| `JobNotifications.Notifications.Hear` | client/src/lib/jobNotifications.js:387-395 | a look begins, or one more is asked for |
| `JobNotifications.Notifications.EndLook` | client/src/lib/jobNotifications.js:396-400 | a look ends : one more begins when asked for and nothing was thrown |
| `JobNotifications.RememberedIs` | client/src/lib/jobNotifications.js:253-255 | what is remembered of a job is whether it was ever listed, and ever with a final status |
| `JobNotifications.EndedExactly` | client/src/lib/jobNotifications.js:237-245 | over any sequence of looks : exactly which jobs a look tells ended |
| `JobNotifications.NewestIs` | client/src/lib/jobNotifications.js:254 | the newest job of the first look |
| `JobNotifications.ToldInOrder` | client/src/lib/jobNotifications.js:237-251 | what is told is in the order of the lists |
| `JobNotifications.EndedToldOnce` | client/src/lib/jobNotifications.js:237-245 | no job is told ended in two looks |
| `JobNotifications.EndedOnceInLook` | client/src/lib/jobNotifications.js:237-245 | nor twice in one |
| `JobNotifications.EndedIsTold` | client/src/lib/jobNotifications.js:242-244 | a job seen unfinished and then listed finished is told in that look |
| `JobNotifications.WaitingExactly` | client/src/lib/jobNotifications.js:246-251 | exactly which jobs of other users a look tells waiting |
| `JobNotifications.MineIsLaunched` | client/src/lib/jobNotifications.js:236 | a job is the user's own when the username and the login type are, none being local |
| `JobNotifications.WaitingToldOnce` | client/src/lib/jobNotifications.js:246-251 | none of them is told waiting twice |
| `JobNotifications.LooksInTurn` | client/src/lib/jobNotifications.js:387-401 | looks never overlap, and a change heard is still to be looked at exactly when one more look is asked for |
| `JobNotifications.ChangeIsLostExactly` | client/src/lib/jobNotifications.js:387-401 | over every run, once no look is under way : some change heard was followed by no look begun after it exactly when a look threw with a change heard while it ran, and none was heard since |
| `JobNotifications.NoChangeIsLost` | client/src/lib/jobNotifications.js:387-401 | so when no look throws, every change heard is followed by a look begun after it |
| `JobNotifications.ThrowLosesChange` | client/src/lib/jobNotifications.js:393-400 | one run that loses a change |
| `LiveEvents.FramesRebuild` | client/src/lib/liveEvents.js:98-100 | the frames and what is left are the text, nothing more and nothing less |
| `LiveEvents.FramesEndFirst` | client/src/lib/liveEvents.js:98-100 | a frame ends at the first blank line after its start |
| `LiveEvents.FramesOfMore` | client/src/lib/liveEvents.js:96-100 | more text changes no frame there was |
| `LiveEvents.NameOfIs` | client/src/lib/liveEvents.js:101-113 | a frame delivers one name at most : the one its first data has, when it says that something changed |
| `LiveEvents.FedIsWhole` | client/src/lib/liveEvents.js:93-116 | what was delivered is, at any moment, what the frames of the stream so far deliver |
| `LiveEvents.ChunksDoNotMatter` | client/src/lib/liveEvents.js:93-116 | the names delivered depend on the stream only, not on its chunks |
| `LiveEvents.Read` | client/src/lib/liveEvents.js:89-117 | the loops deliver those names, in order |
| `LiveEvents.TakeFrames` | client/src/lib/liveEvents.js:97-115 | the frames ended are taken out of the buffer, in order, and the rest left |
| `LiveEvents.Throttled.constructor` | client/src/lib/liveEvents.js:58-60 | a listener that never ran |
| `LiveEvents.Throttled.Hear` | client/src/lib/liveEvents.js:69-74 | something heard is followed by a run at once, or by one due a second after the last ; runs stay a second apart |
| `LiveEvents.Throttled.Fire` | client/src/lib/liveEvents.js:61-67 | the run waited for follows everything heard |
| `ColumnSharing.SortedOrder` | client/src/directives/fitColumns.js:116 | the columns from the narrowest to the widest |
| `ColumnSharing.ShareIsBestLevel` | client/src/directives/fitColumns.js:118-129 | the share of the first column that does not fit, rounded down, is the best level for all |
| `ColumnSharing.OneBestLevel` | client/src/directives/fitColumns.js:112-131 | there is one such level only |
| `ColumnSharing.ShareWidths` | client/src/directives/fitColumns.js:112-131 | none exactly when all fit ; else each width is the smaller of its own and one level, they fit the room, and one more would not |
| `Json.StringReadsBack` | client/src/lib/Helpers.js:540 | any string reads back from its JSON form (section 7 of RFC 8259) |
| `ExpressionSplice.QuoteContextAt` | client/src/lib/Helpers.js:555-570 | the quote around a position : what reading up to it leaves the reader in |
| `ExpressionSplice.Substitute` | client/src/lib/Helpers.js:501-543 | at the first place of the placeholder, and nowhere else : the literal outside a string, the literal for the quotes around it too when they wrap it exactly, the escaped text inside a longer string |
| `SplicedLiterals.PutReadsBack` | client/src/lib/Helpers.js:532-542 | what is put inside a longer string reads back as the value's text, between what stood before and after |
| `ExpressionSplice.InStringStaysIn` | client/src/lib/Helpers.js:540-542 | any value spliced inside a string leaves the reader in that string |
| `ExpressionSplice.JsonStaysOutside` | client/src/lib/Helpers.js:512-515 | any JSON value spliced outside leaves the reader outside |
| `SplicedLiterals.SplicedReadsBack` | client/src/lib/Helpers.js:523-542 | a value spliced inside a longer string, after a text that cuts no escape short : the text before decodes to what it did, then comes exactly the value, then what follows as it was |
| `SplicedLiterals.SplicedReadsBackExactly` | client/src/lib/Helpers.js:523-542 | every string reads back so exactly when the text before it decodes on its own |
| `SplicedLiterals.LiteralReadsBack` | client/src/lib/Helpers.js:501-542 | for the whole literal of an expression : it stays one literal, with the value between what it held, and decodes to those |
| `SplicedLiterals.EscapeCutShort` | client/src/lib/Helpers.js:540-542 | a string whose digits end an escape begun before them |
| `ExpressionSplice.BodyIsOnOneLine` | client/src/lib/Helpers.js:520-522 | no control character is spliced : the expression stays on one line |
| `ExpressionSplice.SafeForStrings` | client/src/lib/Helpers.js:501-543 | where the placeholder is not escaped, every later position keeps its quote context, for any string |
| `ExpressionSplice.SafeForSources` | client/src/lib/Helpers.js:501-543 | where no quote that wraps it is escaped either, the same for any source that leaves a reader outside strings |
| `ExpressionSplice.SafeForJson` | client/src/lib/Helpers.js:501-543 | and so for any JSON value |
| `ExpressionSplice.UnsafeAfterBackslash` | client/src/lib/Helpers.js:540-542 | right after a backslash of a string, a string that is the quote itself ends the string around it |
| `ExpressionSplice.UnsafeBetweenQuotes` | client/src/lib/Helpers.js:516-519 | between two quotes the first of which is escaped, the empty string leaves the string open |
| `ExpressionSplice.UnsafeForNumbers` | client/src/lib/Helpers.js:516-519 | and so does a number, whichever the quotes |
| `ExpressionSplice.SplicingIsSafeExactly` | client/src/lib/Helpers.js:501-570 | exactly where splicing keeps every later quote context, whatever the string |
| `ExpressionSplice.SplicingAnyIsSafeExactly` | client/src/lib/Helpers.js:501-570 | exactly where it does whatever the JSON value, and whatever the source that leaves a reader outside strings |
| `ExpressionSplice.NotSafeAfterBackslash` | client/src/lib/Helpers.js:540-542 | an expression whose placeholder follows a backslash |
| `ExpressionSplice.NotSafeBetweenQuotes` | client/src/lib/Helpers.js:516-519 | one for each quote, the placeholder between two of it, the first escaped |
| `RowMoves.Locate` | client/src/config/categories.js:34-45 | the list, the place and the two rows above of a row, by which row it is ; none exactly when it is not in the tree |
| `RowMoves.Flatten` | client/src/config/categories.js:19-28 | the listing of the rows in memory |
| `RowMoves.UpShown` | client/src/config/categories.js:77 | taking a row out of a list and putting it back one place before is the move of the tree, the rest of the memory untouched |
| `RowMoves.IndentShown` | client/src/config/categories.js:91-94 | so is taking it out and adding it to the row above |
| `RowMoves.OutdentShown` | client/src/config/categories.js:101-106 | so is taking it out, putting it after its parent and dropping an emptied list |
| `RowMoves.Tree.MoveUp` | client/src/config/categories.js:74-79 | in memory : the row one place up, every other list as it was ; moved exactly when that changes the tree |
| `RowMoves.Tree.MoveDown` | client/src/config/categories.js:81-86 | one place down |
| `RowMoves.Tree.CanOutdent` | client/src/config/categories.js:69-72 | exactly when the row is under another |
| `RowMoves.Tree.PutUnder` | client/src/config/categories.js:90-94 | in memory : the row last under the one above, every other list as it was |
| `RowMoves.Tree.TakeOut` | client/src/config/categories.js:98-108 | in memory : the row right after its parent, an emptied list dropped or not |
| `RowTree.UpKeepsRows` | client/src/config/categories.js:74-79 | every row stays in the tree, once |
| `RowTree.IndentKeepsRows` | client/src/config/categories.js:88-96 | the same |
| `RowTree.OutdentKeepsRows` | client/src/config/categories.js:98-108 | the same |
| `RowTree.IndentListing` | client/src/config/categories.js:88-96 | indenting keeps the listing in its order and puts exactly the row and all it holds one deeper |
| `RowLists.UpLists` | client/src/config/categories.js:74-79 | in its list the row goes before the one before it, if there is one ; every other list, and what each row says, stays |
| `RowLists.DownLists` | client/src/config/categories.js:81-86 | the same, after the one after it |
| `RowLists.IndentLists` | client/src/config/categories.js:88-96 | the row leaves its list for the end of the one the row above holds ; every other list and row stays |
| `RowLists.OutdentLists` | client/src/config/categories.js:98-108 | the row leaves its list for the place right after its parent ; every other list and row stays |
| `RowLists.ShownLists` | client/src/config/categories.js:34-45 | those lists are the ones in memory |
| `RowTree.OutdentUndoesIndent` | client/src/config/categories.js:88-108 | outdent undoes indent, up to a list left empty |
| `RowTree.DownUndoesUp` | client/src/config/categories.js:74-86 | down undoes up |
| `RowTree.UpTakesTheRow` | client/src/config/categories.js:74-79 | the row moves with all it holds, and without it the tree is what it was |
| `RowTree.DownTakesTheRow` | client/src/config/categories.js:81-86 | the same |
| `RowTree.IndentTakesTheRow` | client/src/config/categories.js:88-96 | the same, up to a list left empty |
| `RowTree.OutdentTakesTheRow` | client/src/config/categories.js:98-108 | the same, up to a list left empty |
| `Categories.CanIndent` | client/src/config/categories.js:60-67 | a row above, and at the top level neither of the two the Default one |
| `Categories.MayIndentIff` | client/src/config/categories.js:60-67 | exactly a row that is not the first of its list and, at the top, neither is nor follows the Default one |
| `Categories.MoveIs` | client/src/config/categories.js:74-108 | what each move does to every list of the tree and to what its rows say : one place up or down, the end of the row above, or the place right after the parent, which loses a list left empty |
| `Categories.IndentCategory` | client/src/config/categories.js:88-96 | in memory : that move when it may, nothing otherwise |
| `Categories.OutdentCategory` | client/src/config/categories.js:98-108 | in memory : that move when it may, nothing otherwise |
| `Categories.RunKeepsDefault` | client/src/config/categories.js:11-17 | over every run of moves the Default row stays at the top level, holding none and without an items key |
| `Categories.CategoryPaths` | client/src/config/categories.js:111-121 | the paths of the rows in memory, a nameless category and what it holds skipped |
| `Categories.PathsAreSlashed` | client/src/config/categories.js:111-121 | a path is the trimmed names on the way to the row, joined by slashes, in tree order |
| `Categories.MissingAre` | client/src/config/categories.js:126-129 | the paths reported are exactly those there were and are no more |
| `Categories.UpKeepsPaths` | client/src/config/categories.js:74-79 | a move up changes no path |
| `Categories.DownKeepsPaths` | client/src/config/categories.js:81-86 | nor does a move down |
| `Categories.MovesReportTheirOwn` | client/src/config/categories.js:126-129 | a move reports only paths of the row moved and of what it holds, and up and down report none |
| `Constants.ArrayToConstants` | client/src/config/constants.js:100-126 | the map the rows in memory store |
| `Constants.RowsShowTheMap` | client/src/config/constants.js:85-94 | one row for each value at every level, which shows that value |
| `Constants.FilledAt` | client/src/config/constants.js:100-126 | what each key holds then : what its last row does, as it was when not edited, else as its text reads ; an emptied map is an empty one |
| `Constants.FilledAgain` | client/src/config/constants.js:85-126 | rows read from a map store that map after what is there already |
| `Constants.FilledIsClean` | client/src/config/constants.js:103-104 | a stored key is never empty and has no spaces at its ends |
| `Constants.RowsStoreTheMapExactly` | client/src/config/constants.js:85-126 | the rows of a map store that map, empty maps, lists and nulls included, exactly when its keys at every level are non-empty and trimmed |
| `Constants.SpacedKeyComesBackTrimmed` | client/src/config/constants.js:85-126 | a map with a spaced key, which comes back trimmed, and an empty one, which does not come back |
| `Constants.MoveConstant` | client/src/config/constants.js:197-202 | in memory : one place up or down |
| `Constants.CanIndentConstant` | client/src/config/constants.js:214-220 | a row above, with subkeys or without a value |
| `Constants.MayIndentIff` | client/src/config/constants.js:214-220 | exactly a row that is not the first of its list, when the one before it has subkeys or, spaces aside, no value |
| `Constants.MoveIs` | client/src/config/constants.js:197-274 | what each move does to every list of the tree and to what its rows say : one place up or down, the end of the row above, whose value is then cleared, or the place right after the parent, which keeps its list |
| `Constants.IndentConstant` | client/src/config/constants.js:232-241 | in memory : that move when it may, the value of the row above cleared |
| `Constants.OutdentConstant` | client/src/config/constants.js:268-274 | in memory : that move when it may |
| `Constants.RunKeepsValues` | client/src/config/constants.js:197-274 | over every run of moves a row with a value and no subkeys keeps its value and its key, and gets no subkeys |
| `Roles.RoleOptionDefaults` | client/src/config/roles.js:216-223 | each option as it is when the role does not say |
| `Roles.DefaultsAre` | client/src/config/roles.js:178-223 | which options are on then, and which for the admin alone |
| `Roles.RoleTablesAreUsable` | client/src/config/roles.js:138-202 | the tables of options do meet what the rules below need |
| `Roles.RoleToEditable` | client/src/config/roles.js:285-316 | the role as the editors show it |
| `Roles.LoadedIsComplete` | client/src/config/roles.js:285-302 | a role loaded has a switch for every option |
| `Roles.ShownIs` | client/src/config/roles.js:285-302 | what each option shows : its own value, another's when it follows one, else its default |
| `Roles.SerializeRole` | client/src/config/roles.js:344-387 | the role as it is written |
| `Roles.SavedIs` | client/src/config/roles.js:344-387 | a saved role : the name trimmed, no members for default and public, nothing empty written but the groups |
| `Roles.WrittenAre` | client/src/config/roles.js:368-385 | the options written : those spelled out, those that differ from what leaving them out means, those not known |
| `Roles.UntouchedIsSaved` | client/src/config/roles.js:285-387 | a role saved untouched gets no option it did not have, but for API tokens when the extended expiry gave them |
| `Roles.OptionReadsBack` | client/src/config/roles.js:285-387 | each option written and read back is as it was, but API tokens when the extended expiry alone is on |
| `Roles.SavingKeepsSwitchesExactly` | client/src/config/roles.js:285-387 | reading a saved role back, under any new name, shows every switch as it was and every unknown flag, exactly when the extended expiry is kept under API tokens |
| `Roles.TokensComeBack` | client/src/config/roles.js:285-387 | a role read, API tokens turned off, saved and read back with them on |
| `Roles.EntryReadsBack` | client/src/config/roles.js:249-264 | a member written is the member read, whatever its name |
| `Roles.PlainNameIsLocal` | client/src/config/roles.js:249-257 | a member without a provider is a local one |
| `Roles.MembersReadBack` | client/src/config/roles.js:249-358 | members written and read back are those that have a name, trimmed, in order |
| `Roles.CleanAgain` | client/src/config/roles.js:352-358 | members written again are the members written |
| `Roles.SavingAgainWritesTheSame` | client/src/config/roles.js:344-387 | saving a saved role writes the same role |
| `JobLog.AnsiLine` | client/src/lib/jobLog.js:81-104 | the loops of a line : its colour sequences as spans, the others dropped, what is open closed and carried |
| `JobLogClasses.AppliedIs` | client/src/lib/jobLog.js:88-98 | the codes of a sequence, applied one after the other, leave the classes of those after the last that closes all, on top of what was open when none does |
| `JobLogClasses.AfterIs` | client/src/lib/jobLog.js:81-100 | and so do all the colour sequences of a log |
| `JobLogClasses.OpenedIs` | client/src/lib/jobLog.js:38-53 | the class of each code that opens one |
| `JobLog.ColouredPieces` | client/src/lib/jobLog.js:85-100 | the first expression on a text of characters and complete sequences : the colour ones, and only those, become their spans |
| `JobLog.StrippedPieces` | client/src/lib/jobLog.js:102 | the second : the other sequences go, the spans stay |
| `JobLog.LineReadsAsShown` | client/src/lib/jobLog.js:81-104 | the html of a line is well formed on its own, leaves no span open, and shows each character with the classes carried to it |
| `JobLogClasses.ShowsAsMeantExactly` | client/src/lib/jobLog.js:65-104 | one pass shows just the characters, each with the classes of the codes before it since the last that closes all, exactly when no sequence holds one of the characters escaping replaces |
| `JobLogLines.JobLogLines` | client/src/lib/jobLog.js:116-142 | the loop over the lines, the open classes carried |
| `JobLogLines.SplitIsPieceLines` | client/src/lib/jobLog.js:118 | the lines of the text are those of its pieces |
| `JobLogLines.DroppedAreBlank` | client/src/lib/jobLog.js:119 | the lines returned are the first ones, up to the last that is not blank |
| `JobLogLines.LinesAreOnePass` | client/src/lib/jobLog.js:116-142 | each line returned is well formed on its own, and together they show exactly what one pass over the whole text shows, but for spaces at its end |
| `JobLogLines.LinesAreMeantExactly` | client/src/lib/jobLog.js:116-142 | and that is each character with the classes of the codes before it since the last that closes all, exactly when no sequence holds one of the characters escaping replaces |
| `JobLogLines.SequenceShowsAsText` | client/src/lib/jobLog.js:116-142 | a log whose one sequence shows as text |

## Left out

- The yaml library : files are modelled once parsed, in the shape of AWX's export (links under `related`, each with an
  `identifier`). The shape of the awx.awx collection, comments, quoting and line numbers are not part of this model.
- Problems of a workflow's names, types, playbooks, runners, inventories and credentials : `WorkflowProblems` has the
  identifiers, the links and the loop.
- A problem's line in the file, and the order problems are listed in.
- `editNode` for anything but the identifier, and the edits of whole workflows : they touch no link.
- SVG paths, the label positions and the start links of the drawing ; its box is placed, the curves are not.
- Several nodes of one identifier : `UniqueIds` is asked wherever a law needs it, and `WorkflowProblems.ProblemsOf` reports it ;
  the drawing needs it nowhere.
- DryRun.DryRun: `UniqueIds` is asked by the laws, not by the method, which runs on any list of nodes.
- WorkflowLoops.LoopIn: asks that no link name the empty identifier, which what is read of a file never does
  (`WorkflowReading.ReadIsNamed`).
- WorkflowLayout.WorkflowGraph: `(height - colH) / 2` is a whole number here because node height plus gap is even.
- WorkflowMeaning.RenameCommutesWithRun: a fresh name is one no node has and no link names ; a dangling link to the new name
  would start to lead somewhere. It is one way only : a link lost to the empty name may have made no difference to a run, as
  when its node ran anyway. `WorkflowMeaning.RenamedToNone` is exact for the node's own status.
- Browsers without locks, and the moment between the lock being released and the shared promise being cleared : a tab's call
  joins until its refresh ended.
- TokenAnswers.TheFailedExactly: access and refresh tokens are issued in pairs, so that a token is stored with one refresh token
  only ; a call made while nothing is stored is not in it.
- Requests other than refreshes, and what the interceptors do with a refused one.
- The display of notifications, the approval buttons, the service worker, and what is read of a job to decide who may approve.
- JobNotifications.EndedExactly: final statuses stay final, as the server keeps them, and so between the two lists of one look
  too : the user's own jobs are read before those waiting for an approval (`client/src/lib/jobNotifications.js:424-431`), so a
  job final among the first is not waiting among the second.
- JobNotifications.WaitingExactly: for a job that is listed only among those waiting for an approval.
- JobNotifications.Notifications.WhatIsNew: job ids are numbers.
- Leader election, reconnection and stopping a listener in `liveEvents.js` ; a stream is its decoded chunks, and JSON.parse is
  a parameter.
- LiveEvents.Throttled.Fire: the timer goes off when the clock says so, not before it is due ; the clock is a second past its
  start at the first run.
- Evaluation of expressions, an expression that is not there (`null`), and JSON.stringify, String and JSON.parse themselves but
  for strings : the literal and the text of a value are given, so those of an array or object that is no source (String's text,
  not its JSON) and of a source that is no JSON are any two texts.
- ExpressionSplice.SplicingAnyIsSafeExactly: a source that leaves a reader inside a string (one that is no JSON) is asked for
  nothing ; outside strings and between quotes it is spliced as it is.
- ExpressionSplice.SplicingIsSafeExactly: for a placeholder without quotes or backslashes, which a name in `$( )` is.
- ColumnSharing.ShareWidths: shares are reals, not floating-point numbers ; the sort is any stable one.
- The measuring and the DOM part of `fitColumns.js`.
- A role's description, its credentials, secret stores and runners, and entries of its lists that are no text.
- Roles.SavingAgainWritesTheSame: for providers without a slash in their name.
- The other rows of a category or a constant an editor adds, renames or deletes : only moves are modelled ; a category's missing
  name is an empty one, and each row is in the tree once.
- RowMoves.Locate: searches a tree without a row twice ; the tree is given to a caller as its list of rows.
- Constants.MoveConstant: by one place up or down, the two steps its description allows (`client/src/config/constants.js:192`).
- Constants.RowsStoreTheMapExactly: on rows as `constantsToArray` makes them, their objects' identities aside ; keys that look
  like whole numbers, which JavaScript lists first, keep their place here, and `__proto__` is a key like any other.
- How a list is shown as yaml and how a typed value is read : parameters of the constants' rows.
- The highlighting of a log line's timestamp and level (a line that starts with one, when no colour is open and it has none) :
  every line is modelled through `ansiLine`, which leaves such a line's characters without classes.
- Truncated control sequences in a log.
