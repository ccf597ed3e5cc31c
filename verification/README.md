# AgentNet, verified models

Dafny models of eight parts of AgentNet with the properties they are meant to have, for all inputs,
all decisions and all runs. `dafny verify dfyconfig.toml` checks everything.

## What is modelled

**The Hermes backlog fleet** (`HermesMessages`, `HermesProtocol`, `HermesTheorems`, `HermesEffects`, `HermesAgents`, `HermesTicks`). Planner,
builder and QA exchange messages through an append-only chat log; each keeps the set of message ids it has
processed. `HermesProtocol` is the state machine, one handled message or dispatch attempt per event, with
a post that is stored, lost, or stored with its answer lost. `HermesAgents` holds the agents as classes with
the loops of the source; every tick is proved to be a run of an explicitly listed sequence of events, so the theorems
about runs are theorems about ticks in any interleaving. `HermesEffects` says in plain terms what each step writes and traces
a done item back to the exit codes its criteria had; `HermesTicks` says what a tick leaves unread and unanswered. The invariant ties the one item in flight to the
one unread message. It needs one assumption: a dispatch attempt never ends with the proposal stored and
the answer lost. `DispatchKeepsInvExactly` shows that this is exactly the case that breaks it. The event theorems
take `Inv`, which every quiet backlog (distinct `AB-\d{3,}` ids, nothing in flight, nothing unread) satisfies.

**The ship log and the daily story** (`ShipLog`, `ShipLogPattern`, `ShipLogTheorems`, `Storyteller`, `DailyStory`). The planner's printer, the
storyteller's line pattern on the whole file (its `\s` may cross line ends, its last `\S+` backtracks to the last
colon), the three de-duplicated lists, and, across both programs, what a published list says about the backlog.

**The builder's file writer** (`BuilderFiles`). Backup, writing block by block with the compile gate, and
the two different rollbacks. A backup directory of the same second can hold older copies.

**The Werewolf game** (`WerewolfGame`, `WerewolfTheorems`, `WerewolfEffects`, `WerewolfExamples`, `WerewolfEngine`). The rules as functions on a
snapshot, the theorems about them (`WerewolfEffects`: what each decision does, and who dies by day), and the engine and orchestrator as classes that update the game state in
place and are proved to compute those functions. All decisions and all randomness are inputs.

**The release gate** (`ReleaseGate`, `ReleaseMeaning`). Git is a map from revisions to trees; tree ids are modelled by the trees
themselves.

**The builder bench** (`KeyedSums`, `Bench`, `BenchSummaries`, `BenchRates`, `HarnessVerdict`, `MergeMeaning`, `BenchReports`). The budgeted runner, the summary
arithmetic, the merge rule for harness changes and the regression set, over real numbers; only the rate behind the
saturation test is rounded as a float, because its verdict depends on it.

**The escrow audit** (`EscrowAudit`, `EscrowSettled`) and **the governed task lifecycle** (`TaskLifecycle`). What three green
economics checks mean for the money, and what the transition table means for whole traces.

`Text` and `Dicts` hold what Python's strings, one regular expression and dicts provide.

## Where the code does not do what it seems to

- The planner also takes "ALL PASS" anywhere in a result body as a pass; a failed review whose criterion carries
  the phrase ships the item (`FailedReviewReadAsPassed`; the exact condition is `VerdictReadExactly`).
- A proposal that is stored but not acknowledged is dispatched again (`LostAnswerDispatchesTwice`).
- The builder's header says that only listed files are modified. Blocks for other paths are written, and survive a
  rollback (`StrayBlockSurvives`); the exception branch deletes nothing (`ExceptionKeepsNewFile`).
- A guard's save uses up the witch's potion (`GuardBurnsSave`), the hunter shoots after the win check
  (`ShotCanOutdateVerdict`), and a game has at most eight passes because the round goes up by two in each.
- The sensitive-path gate passes everything when the current release is not given or not known to git
  (`SensitiveGateExactly`).
- E02 says nothing about the payment status of a task whose status is outside its table; `AuditMeansMoneyAddsUp` gives the
  amount that could go missing. This is hypothetical: the column's enum (`services/registry/init-db/01-init.sql:8`) has
  exactly the six statuses of the table, for which `AuditIsSound` holds.
- A service that the target does not contain counts as staged when staging recorded the target itself
  (`AbsentServicesAreReleasable`).
- A budget that ends the bench within a repetition can put pass@1 above pass@k (`CutBenchCanInvert`; exactly when, over
  all outcomes: `RatesOrderedExactly`). At exactly 1799 deliveries in 2000 runs a bench is not saturated.
- Regression-set tasks do not count toward the gain, but they decide through the cost per delivered task
  (`RegressionTaskCanDecide`; exactly when: `RegressionActsExactlyByCost`). Two merges in a row can lose more holdout
  tasks than one may (`MergesDoNotCompose`; for steps that gain in the same way, exactly when: `SameGainComposesExactly`).
- A line break in a title can print an entry that the reader cannot tell from a real one (`TitleForgesEntry`; exactly when
  a log comes back right: `RoundTripExactly`). A colon in a status does no harm.

## Model

| member | source | states |
|---|---|---|
| HermesMessages.ReaderFindsItem | legacy/hermes/hermes_planner_v4.py:232-235 | whatever titles, details and reports contain, the id pattern applied to title and content finds the id the message was sent for |
| HermesMessages.VerdictReadExactly | legacy/hermes/hermes_planner_v4.py:209-213 | the planner reads a result as passed iff QA passed it, or "ALL PASS" stands in a criterion or in the shown output of a failed one |
| HermesMessages.FailedReviewReadAsPassed | legacy/hermes/hermes_planner_v4.py:213 | a failed review that is read as passed |
| HermesProtocol.EventHandles | legacy/hermes/hermes_planner_v4.py:174-230 | in an invariant state each handled message concerns the item in flight, changes only that item, reads only that message and posts at most one answer that carries the item on |
| HermesProtocol.HandlingKeepsInv | legacy/hermes/hermes_agent_base.py:159-166 | handling the unread message leaves at most its own answer unread, and frees the fleet when the item leaves flight |
| HermesProtocol.JudgeItems | legacy/hermes/hermes_planner_v4.py:213-229 | reading a verdict turns the item to done, to open with one more retry, or to blocked with the reason, and logs SHIPPED, RETRY or BLOCKED accordingly |
| HermesProtocol.NextKeepsInv | legacy/hermes/hermes_planner_v4.py:132-240 | every step of every agent keeps: one item in flight, one unread message, and that message names that item at the stage of its kind |
| HermesProtocol.RunKeepsInv | legacy/hermes/hermes_planner_v4.py:237-240 | the same over every run |
| HermesTheorems.Effect | legacy/hermes/hermes_planner_v4.py:132-230 | an event leaves backlog and ship log alone, moves the item in flight on, dispatches one ready item while none is in flight, or judges the item in flight |
| HermesTheorems.BudgetKept | legacy/hermes/hermes_planner_v4.py:221-229 | over a run, dispatches so far plus dispatches left never rises for any item |
| HermesTheorems.AtMostThreeDispatches | legacy/hermes/hermes_planner_v4.py:30 | an open item without retries is dispatched at most RETRY_LIMIT + 1 = 3 times in any run |
| HermesTheorems.MeasureStep | legacy/hermes/hermes_planner_v4.py:200-230 | a measure on the backlog that no event raises, every ship-log line uses up and every handled verdict lowers |
| HermesTheorems.FleetRunsOutOfWork | legacy/hermes/hermes_planner_v4.py:200-230 | in a run of any length at most 3 dispatches and 6 ship-log lines per item |
| HermesTheorems.FinalStatesStay | legacy/hermes/hermes_planner_v4.py:85-96 | done and blocked items never change again; no run changes an id, a title or the criteria |
| HermesTheorems.DoneHasEvidence | legacy/hermes/hermes_planner_v4.py:209-219 | an item that became done has in the log a result about it, first read in this run, from a review of exactly its criteria, that passed or carries the phrase |
| HermesTheorems.DoneMeansEveryCriterionPassed | legacy/hermes/hermes_qaagent_v6.py:178-203 | when no result about the item that this run read carries the phrase, the posted result lists at least one criterion, and each as passed |
| HermesEffects.DoneOnlyByReview | legacy/hermes/hermes_qaagent_v6.py:141-203 | from a quiet start an item becomes done only through a review of this run that ran exactly its criteria; every one exited 0, or the phrase stands in a criterion or in the shown output of a failed one |
| HermesEffects.DoneMeansExitCodesZero | legacy/hermes/hermes_qaagent_v6.py:178-203 | when no review of the run meets the phrase, an item becomes done only if some review of this run found at least one criterion of it and the exit code of each was 0 |
| HermesTheorems.BlockersDoneAlways | legacy/hermes/hermes_planner_v4.py:85-96 | every dispatched item's blocker was done at its dispatch and is still done at the end of the run |
| HermesTheorems.DispatchOrderIsTopological | legacy/hermes/hermes_planner_v4.py:85-96 | in every run all dispatches of a blocker come before any dispatch of an item it blocks |
| HermesTheorems.StuckItemsNeverDispatched | legacy/hermes/hermes_planner_v4.py:91-94 | items on a dependency cycle, behind a blocked item or behind an unknown id are never dispatched |
| HermesEffects.ReadyExactly | legacy/hermes/hermes_planner_v4.py:85-96 | an item can start iff it is open and names no blocker, or one that is done |
| HermesEffects.DispatchEffect | legacy/hermes/hermes_planner_v4.py:132-172 | nothing while an item is in flight or none can start; a lost post changes nothing at all, an unanswered one only the chat, a stored one puts the first ready item in progress and logs it |
| HermesEffects.RouteEffect | legacy/hermes/hermes_planner_v4.py:174-198 | the item goes to review, and QA is asked about exactly it unless the post is lost |
| HermesEffects.VerdictEffect | legacy/hermes/hermes_planner_v4.py:200-230 | which status, retry count, blocker text and ship-log entry each verdict leaves, the third failure included |
| HermesEffects.BuildEffect | legacy/hermes/hermes_builder_v6.py:307-379 | one completion with the outcome of the build, unless the id is one of the two skipped ones or the post is lost |
| HermesEffects.ReviewEffect | legacy/hermes/hermes_qaagent_v6.py:141-203 | one result with the exit codes given for the item's own criteria, passed iff there is one and all were 0, unless the post is lost |
| HermesEffects.ResultComesFromReview | legacy/hermes/hermes_qaagent_v6.py:186-203 | every result a run adds to the log carries the exit codes of a review of that run |
| HermesTheorems.QuietStartsInvariant | legacy/hermes/hermes_planner_v4.py:123-130 | a backlog with nothing in flight and nothing unread satisfies the invariant |
| HermesTheorems.DispatchKeepsInvExactly | legacy/hermes/hermes_planner_v4.py:132-172 | a dispatch attempt keeps the invariant iff it does not post with the answer lost, or has nothing to post |
| HermesTheorems.LostAnswerDispatchesTwice | legacy/hermes/hermes_planner_v4.py:165-172 | after a lost answer the next attempt posts the same proposal again, and both are unread |
| HermesAgents.BacklogStore.UpdateStatus | legacy/hermes/hermes_planner_v4.py:64-73 | changes status and blocker of the first item with the id and nothing else, and says whether there is one |
| HermesAgents.BacklogStore.IncrementRetry | legacy/hermes/hermes_planner_v4.py:75-83 | counts one retry on the first item with the id; 0 for an unknown id |
| HermesAgents.BacklogStore.FindNextOpen | legacy/hermes/hermes_planner_v4.py:85-96 | the first open item without a blocker or with a done one, or none |
| HermesAgents.BacklogStore.InProgressItems | legacy/hermes/hermes_planner_v4.py:98-99 | lists the items in progress or in review, in backlog order |
| HermesAgents.ChatLog.SendMsg | legacy/hermes/hermes_agent_base.py:130-143 | the log grows by the message unless the post is lost; only an acknowledged post returns its id |
| HermesAgents.HermesAgent.MarkProcessed | legacy/hermes/hermes_agent_base.py:159-162 | the processed set grows by exactly this id |
| HermesAgents.HermesAgent.GetNewMessages | legacy/hermes/hermes_agent_base.py:164-166 | the fetched messages not processed, in order |
| HermesAgents.UnreadKeeps | legacy/hermes/hermes_agent_base.py:164-166 | exactly the fetched ids outside the processed set, each once |
| HermesAgents.PlannerV4.DispatchNext | legacy/hermes/hermes_planner_v4.py:132-172 | is the protocol's dispatch event, for every fate of the post |
| HermesAgents.PlannerV4.RouteOne | legacy/hermes/hermes_planner_v4.py:179-198 | is the protocol's routing event |
| HermesAgents.PlannerV4.JudgeOne | legacy/hermes/hermes_planner_v4.py:205-230 | is the protocol's verdict event |
| HermesAgents.PlannerV4.ProcessQaResults | legacy/hermes/hermes_planner_v4.py:200-230 | is one verdict event per unread result, in order, and marks all of them |
| HermesAgents.PlannerV4.ProcessCompleted | legacy/hermes/hermes_planner_v4.py:174-198 | is one routing event per unread completion, in order |
| HermesAgents.PlannerV4.OnTick | legacy/hermes/hermes_planner_v4.py:237-240 | is the run verdicts, routings, one dispatch, for any fetched subset; and keeps the invariant |
| HermesAgents.BuilderV6.BuildOne | legacy/hermes/hermes_builder_v6.py:307-379 | is the protocol's build event, the skip list included |
| HermesAgents.BuilderV6.OnTick | legacy/hermes/hermes_builder_v6.py:297-379 | is one build event for each of the first two unread proposals |
| HermesAgents.QAAgentV6.RunCriteria | legacy/hermes/hermes_qaagent_v6.py:178-184 | runs each criterion once, in order; passed iff there is one and all exited 0 |
| HermesAgents.QAAgentV6.FormatReport | legacy/hermes/hermes_qaagent_v6.py:186-200 | writes the report that the planner later reads |
| HermesAgents.QAAgentV6.ReviewOne | legacy/hermes/hermes_qaagent_v6.py:141-203 | is the protocol's review event with exactly the exit codes the shell gave for the named item's criteria; unless the post is lost the last message is a result with one run per criterion, each ok iff the shell said so |
| HermesAgents.QAAgentV6.OnTick | legacy/hermes/hermes_qaagent_v6.py:210-218 | is one such review event per unread request, in order, with the shell's own answers |
| HermesTicks.UnreadInOrder | legacy/hermes/hermes_agent_base.py:164-166 | the unread messages are handled in the order they were fetched, none left out |
| HermesTicks.TickReadsAll | legacy/hermes/hermes_planner_v4.py:174-240 | a planner tick reads every result and completion it fetched |
| HermesTicks.TickLeavesNothingWaiting | legacy/hermes/hermes_planner_v4.py:237-240 | a planner tick with a stored dispatch leaves an item in flight or none that can start |
| HermesTicks.BuilderTickAnswers | legacy/hermes/hermes_builder_v6.py:297-379 | each proposal a builder tick takes is answered with the outcome of its own build, unless skipped or lost |
| HermesTicks.QaTickReports | legacy/hermes/hermes_qaagent_v6.py:141-218 | each request a QA tick takes is answered with exactly what the shell gave for that item's criteria, unless lost |
| ShipLog.ShipLogText.Append | legacy/hermes/hermes_planner_v4.py:102-113 | the file is header and lines of all appended entries, the header written once |
| ShipLog.HeadRead | legacy/hermes/hermes_storyteller_v4.py:42-45 | the line pattern reads stamp, ticket and status back from a printed line, whatever follows |
| ShipLogPattern.PatternExactly | legacy/hermes/hermes_storyteller_v4.py:42-45 | the matcher finds a match exactly where the pattern's parts stand at the start of the text, and of all ways to read the text so it takes the one that leaves the least behind |
| ShipLogPattern.MatchHasParts | legacy/hermes/hermes_storyteller_v4.py:42-45 | what it finds is the stamp, the ticket and the status of such parts |
| ShipLogPattern.FindsEveryMatch | legacy/hermes/hermes_storyteller_v4.py:42-57 | over a whole text the reader finds exactly the matches of a search without overlaps: at line starts, in order, every line start with a match covered |
| ShipLogTheorems.LineTellsEntry | legacy/hermes/hermes_planner_v4.py:109-113 | no two well-formed entries without the detail mark in their titles, with details of at most 200 characters, print the same line |
| ShipLogTheorems.EntryStays | legacy/hermes/hermes_storyteller_v4.py:42-45 | although the pattern's white space crosses line ends, a match never reaches into the next printed line |
| ShipLogTheorems.LogRecovered | legacy/hermes/hermes_storyteller_v4.py:42-57 | whatever titles and details contain, the reader recovers every appended entry and, behind each, what its free text forges |
| ShipLogTheorems.RoundTripExactly | legacy/hermes/hermes_storyteller_v4.py:42-57 | the appended sequence comes back iff no later line of any entry's free text matches the pattern |
| ShipLogTheorems.ShipLogRoundTrip | legacy/hermes/hermes_storyteller_v4.py:42-57 | for well-formed stamps and ids, one-word statuses and one-line titles and details the pattern recovers exactly the appended sequence |
| Storyteller.RemoveDuplicates | legacy/hermes/hermes_storyteller_v4.py:78-81 | keeps each ticket's first occurrence |
| Storyteller.ParseShipLog | legacy/hermes/hermes_storyteller_v4.py:53-81 | the three lists are the de-duplicated tickets of the in-window matches of their class; none for an absent file |
| Storyteller.ListsFirstReports | legacy/hermes/hermes_storyteller_v4.py:68-81 | a list names, in log order, the first report of each ticket of its class in the window, and every such ticket |
| Storyteller.StoryOfPrintedLog | legacy/hermes/hermes_storyteller_v4.py:26-87 | the same, in terms of the entries the planner appended |
| Storyteller.StoryIsLastDay | legacy/hermes/hermes_storyteller_v4.py:34-87 | from a printed log a ticket is listed under a heading iff an entry of the last 24 hours reports it so, by its status in any letter case; no list names a ticket twice |
| Storyteller.TitleForgesEntry | legacy/hermes/hermes_planner_v4.py:109-113 | for any two entries, details included, one append with a line break in its title prints the very file that the two appends print |
| DailyStory.DoneExactlyIfShipped | legacy/hermes/hermes_planner_v4.py:214-219 | in every run from an empty ship log an item becomes done iff the log shows it shipped |
| DailyStory.RunIsPrintable | legacy/hermes/hermes_planner_v4.py:168-229 | every ship-log entry of every run meets the conditions of the round trip when the titles are one line |
| DailyStory.StoryListsDoneItems | legacy/hermes/hermes_storyteller_v4.py:68-81 | the story of any run lists an item as shipped iff its shipping falls in the last 24 hours, and then the item is done |
| BuilderFiles.Builder.BackupFiles | legacy/hermes/hermes_builder_v6.py:120-130 | the directory holds the listed existing files over what was there |
| BuilderFiles.Builder.RollBackFiles | legacy/hermes/hermes_builder_v6.py:151-157 | every listed path is as in the backup or absent, every other path untouched |
| BuilderFiles.Builder.RestoreFiles | legacy/hermes/hermes_builder_v6.py:162-170 | listed paths with a backup are restored, nothing is deleted |
| BuilderFiles.Builder.ApplyFullFiles | legacy/hermes/hermes_builder_v6.py:132-171 | success iff no block stops the writing; the files and the backup directory afterwards in every case |
| BuilderFiles.AppliedExactly | legacy/hermes/hermes_builder_v6.py:141-161 | after a success each block's path holds its content and nothing else changed |
| BuilderFiles.AppliesExactly | legacy/hermes/hermes_builder_v6.py:139-161 | the application succeeds iff no block raises and every Python file compiles |
| BuilderFiles.PythonFileExactly | legacy/hermes/hermes_builder_v6.py:146-149 | which paths the compile gate looks at |
| BuilderFiles.FailedExactly | legacy/hermes/hermes_builder_v6.py:150-171 | every path after a failure at block n: put back as it was or as an older copy has it, else as the blocks up to n left it, for both failure branches |
| BuilderFiles.RollBackUndoesExactly | legacy/hermes/hermes_builder_v6.py:151-158 | the rollback restores the whole file map iff the written blocks outside the listed files changed nothing and no stale backup of a new file existed |
| BuilderFiles.CompileFailureLeavesNoTrace | legacy/hermes/hermes_builder_v6.py:139-158 | with all blocks listed and a new backup directory, a compile failure at any block leaves every file as before |
| BuilderFiles.RestoreUndoesExactly | legacy/hermes/hermes_builder_v6.py:162-171 | the exception branch restores the whole file map iff, besides, no listed new file was left behind |
| BuilderFiles.ExceptionKeepsNewFile | legacy/hermes/hermes_builder_v6.py:162-171 | an input on which it does not |
| BuilderFiles.StrayBlockSurvives | legacy/hermes/hermes_builder_v6.py:142-145 | a failed application that leaves an unlisted file written |
| WerewolfTheorems.NewGameIsSound | legacy/werewolf/werewolf_engine.py:258-288 | for every shuffle: two wolves, correct counters, nobody has won |
| WerewolfEffects.NewGameSeats | legacy/werewolf/werewolf_engine.py:258-288 | a new game seats the named players in order, alive, with the shuffled roles |
| WerewolfEffects.AdvanceFollowsRound | legacy/werewolf/werewolf_engine.py:291-333 | n advances run through the phases of a round in their order |
| WerewolfEffects.NinthAdvance | legacy/werewolf/werewolf_engine.py:305-333 | the ninth advance starts the next round with a night, unless the rounds are used up |
| WerewolfTheorems.KillKeepsLedger | legacy/werewolf/werewolf_engine.py:372-374 | a death keeps: the counter is the number of the living, exactly the dead are revealed, with their true roles |
| WerewolfTheorems.PassKeepsLedger | legacy/werewolf/werewolf_orchestrator.py:468-480 | the same after every phase of a pass and at all kill sites; the dead only grow |
| WerewolfTheorems.VictimIsLivingPrey | legacy/werewolf/werewolf_orchestrator.py:176-227 | the victim lives, is no wolf, has the most votes if there are votes, and is missing only if no prey is left |
| WerewolfTheorems.NightDeaths | legacy/werewolf/werewolf_engine.py:344-385 | who dies in a night: exactly the unsaved victim and the poisoned player |
| WerewolfTheorems.NightUsesPotions | legacy/werewolf/werewolf_orchestrator.py:284-305 | a potion that works was unused before and is used after; the save is used iff it was or the victim was saved by either |
| WerewolfTheorems.PotionsWorkOnce | legacy/werewolf/werewolf_orchestrator.py:274-305 | over any number of nights and any decisions each potion takes effect at most once, books right and nobody coming back |
| WerewolfTheorems.GuardBurnsSave | legacy/werewolf/werewolf_engine.py:363-366 | a guard's save uses the potion up |
| WerewolfEffects.SeerIsTold | legacy/werewolf/werewolf_orchestrator.py:229-251 | the seer is told of the living player she names whether that player is a werewolf |
| WerewolfEffects.GuardProtectsNamed | legacy/werewolf/werewolf_orchestrator.py:253-272 | the guard protects the living player he names |
| WerewolfEffects.WitchActs | legacy/werewolf/werewolf_orchestrator.py:274-305 | the victim is saved if the witch asks for it and still can; the living player she names is poisoned if she still can |
| WerewolfEffects.WolfVotesStand | legacy/werewolf/werewolf_orchestrator.py:176-216 | each wolf's vote is for the living prey it names; a prey is drawn only when none counts |
| WerewolfEffects.AnyPreyCanFall | legacy/werewolf/werewolf_orchestrator.py:205-227 | when no wolf's vote counts, chance can make any living prey the victim |
| WerewolfExamples.GuardCanBurnSave | legacy/werewolf/werewolf_engine.py:363-366 | for any six player names a first night in which it happens while the witch does nothing |
| WerewolfTheorems.LynchIsStrictPlurality | legacy/werewolf/werewolf_engine.py:406-433 | a player is lynched iff he was voted for and has strictly more votes than every other |
| WerewolfTheorems.LynchIgnoresOrder | legacy/werewolf/werewolf_engine.py:406-433 | the outcome depends only on the multiset of votes |
| WerewolfEffects.DayVotesStand | legacy/werewolf/werewolf_orchestrator.py:364-391 | each living player's vote is for the living player named; a random vote is added only when none counts |
| WerewolfEffects.DayDeaths | legacy/werewolf/werewolf_engine.py:393-448 | by day exactly the lynched player dies before the verdict |
| WerewolfEffects.ShotDeaths | legacy/werewolf/werewolf_orchestrator.py:393-419 | the lynched hunter's shot hits the living player it names and nobody else |
| WerewolfEffects.WholeDayDeaths | legacy/werewolf/werewolf_orchestrator.py:308-345 | a whole day's dead: the lynched player and whom a lynched hunter shoots, no others |
| WerewolfTheorems.VerdictIsRecount | legacy/werewolf/werewolf_engine.py:435-446 | right after the day is resolved the verdict from the counters is a fresh recount, with all three outcomes characterized |
| WerewolfTheorems.NoShotKeepsVerdict | legacy/werewolf/werewolf_orchestrator.py:308-345 | without a hunter's shot the winner at the end of the day is the recount |
| WerewolfTheorems.ShotKeepsVerdictExactly | legacy/werewolf/werewolf_orchestrator.py:393-419 | a shot leaves the verdict right iff the counts before it allow that, by the role it hits |
| WerewolfExamples.ShotCanOutdateVerdict | legacy/werewolf/werewolf_orchestrator.py:342-343 | for any six player names a first pass of a new game after which the game goes on although no wolf lives |
| WerewolfExamples.PlayersAreWellNamed | legacy/werewolf/werewolf_orchestrator.py:27 | the six players of the arena have such names |
| WerewolfTheorems.PassOutcome | legacy/werewolf/werewolf_orchestrator.py:468-482 | a pass ends the game with a result or starts a clean round two further on |
| WerewolfTheorems.RoundsGoUpByTwo | legacy/werewolf/werewolf_engine.py:305-333 | after k passes the game is over or in round 2k |
| WerewolfTheorems.EightPassesEndTheGame | legacy/werewolf/werewolf_orchestrator.py:468-485 | whatever is decided the game ends within eight passes with a winner or a draw |
| WerewolfEngine.GameState.Bury | legacy/werewolf/werewolf_engine.py:214-218 | one death: alive flag, counter and revealed role together |
| WerewolfEngine.GameEngine.InitGame | legacy/werewolf/werewolf_engine.py:258-288 | the new game, sound for every shuffle of the deck |
| WerewolfEngine.GameEngine.AdvancePhase | legacy/werewolf/werewolf_engine.py:291-333 | the phase order, the round limit and the nightly reset |
| WerewolfEngine.GameEngine.ResolveNight | legacy/werewolf/werewolf_engine.py:336-390 | computes the night resolution of the rules, which names no winner |
| WerewolfEngine.GameEngine.TallyLynch | legacy/werewolf/werewolf_engine.py:406-433 | the counting loops find the strict plurality or nobody |
| WerewolfEngine.GameEngine.ResolveDay | legacy/werewolf/werewolf_engine.py:393-448 | computes the lynching, the hunter's prepared shot and the verdict |
| WerewolfEngine.WerewolfOrchestrator.NightWolves | legacy/werewolf/werewolf_orchestrator.py:176-227 | the pack's votes, the random fallback and the victim |
| WerewolfEngine.WerewolfOrchestrator.MaxByCount | legacy/werewolf/werewolf_orchestrator.py:218-227 | a most voted target, for any order in which the set is walked |
| WerewolfEngine.WerewolfOrchestrator.DetermineWolfVictim | legacy/werewolf/werewolf_orchestrator.py:218-227 | the victim of the rules: from the votes, or at random among the living prey |
| WerewolfEngine.WerewolfOrchestrator.NightSeer | legacy/werewolf/werewolf_orchestrator.py:229-251 | the seer's look |
| WerewolfEngine.WerewolfOrchestrator.NightGuard | legacy/werewolf/werewolf_orchestrator.py:253-272 | the guard's choice |
| WerewolfEngine.WerewolfOrchestrator.NightWitch | legacy/werewolf/werewolf_orchestrator.py:274-305 | the witch's two choices |
| WerewolfEngine.WerewolfOrchestrator.RunNight | legacy/werewolf/werewolf_orchestrator.py:136-174 | computes the night of the rules |
| WerewolfEngine.WerewolfOrchestrator.HoldVote | legacy/werewolf/werewolf_orchestrator.py:364-391 | one vote per living player who names a living one, and a random vote if none counts |
| WerewolfEngine.WerewolfOrchestrator.Revenge | legacy/werewolf/werewolf_orchestrator.py:393-419 | the lynched hunter's shot |
| WerewolfEngine.WerewolfOrchestrator.RunDay | legacy/werewolf/werewolf_orchestrator.py:308-345 | computes the day of the rules |
| WerewolfEngine.WerewolfOrchestrator.RunGame | legacy/werewolf/werewolf_orchestrator.py:468-485 | the loop ends after at most eight passes in a finished, sound game |
| ReleaseGate.GateResult.Record | deploy/production/release.py:150-154 | keeps: ok iff every recorded check passed, blocking lists exactly the failed ones in order |
| ReleaseGate.FailedExactly | deploy/production/release.py:150-154 | the list of failed checks is empty iff all passed, and holds a name iff a check of that name failed |
| ReleaseGate.ClassifySensitive | deploy/production/release.py:166-174 | every path is listed under its first matching category and no other, in order |
| ReleaseGate.NothingClassified | deploy/production/release.py:166-174 | nothing is classified iff no path matches any pattern |
| ReleaseGate.PrefixPattern | deploy/production/release.py:67-86 | a pattern `prefix**` matches exactly the paths that begin so |
| ReleaseGate.SuffixPattern | deploy/production/release.py:67-86 | a pattern `**suffix` matches exactly the paths that end so, hence not a file of that name at the root for `**/name` |
| ReleaseMeaning.MatchSplitsExactly | deploy/production/release.py:166-174 | a pattern of two parts matches a text iff the text splits into a match of each |
| ReleaseMeaning.OneStarExactly | deploy/production/release.py:67-86 | `before*after` matches exactly the texts that begin with the one and, behind it, end with the other |
| ReleaseMeaning.ListingExactly | deploy/production/release.py:166-174 | each category lists, in order, exactly the paths whose first matching row of the table is of that category |
| ReleaseMeaning.SensitiveFileBlocks | deploy/production/release.py:258-269 | for every pattern `**end` or `directory**` of the table, an unacknowledged release that changes a file it stands for is not green |
| ReleaseGate.PaymentAndReleasePathsAreSensitive | deploy/production/release.py:71-83 | every path under the payment service or the release machinery is sensitive |
| ReleaseGate.Preflight | deploy/production/release.py:208-279 | raises iff CI or the diff cannot be read; otherwise records exactly the listed checks in order, is consistent, green iff every gate holds, and lists the sensitive changes |
| ReleaseGate.GreenExactly | deploy/production/release.py:208-279 | all of these checks pass iff every gate holds |
| ReleaseGate.StagingBlocksExactly | deploy/production/release.py:254-256 | a service blocks by its name iff it lacks staging evidence |
| ReleaseMeaning.ServicePassesExactly | deploy/production/release.py:177-205 | a service does not block iff staging runs the target itself, or a known commit in which its directory is there and the same as in the target |
| ReleaseMeaning.GatesBlockExactly | deploy/production/release.py:233-278 | each other gate blocks by its own name iff the target is off main, its CI does not say success, a freeze is active, or an unacknowledged change matches a sensitive pattern |
| ReleaseGate.GreenReleaseWasStaged | deploy/production/release.py:282-289 | green and equal trees: for every production service the release carries the very subtree of a commit staging recorded, and says exactly when there is one |
| ReleaseGate.AbsentServicesAreReleasable | deploy/production/release.py:190-191 | an empty commit that staging recorded for every service is releasable |
| ReleaseGate.UnstagedChangeBlocks | deploy/production/release.py:177-205 | a service changed since staging last ran it blocks the release |
| ReleaseGate.SensitiveGateExactly | deploy/production/release.py:258-278 | the sensitive gate is green iff there is no base git knows, the change is acknowledged, or no path matches a pattern |
| ReleaseGate.ReleaseCommand | deploy/production/release.py:349-391 | blocked iff the preflight raises or is not green; released iff executed, the branch was made and its tree is the target's; then it carries only staged subtrees; otherwise what is left behind |
| Bench.RunBench | scripts/bench/run.py:287-308 | runs a prefix of the schedule and skips the rest; each row is what its run came to under what was left of the budget; a run starts iff the budget is not used up; not exceeded if runs respect their cap |
| Bench.RowsOneByOne | scripts/bench/run.py:287-308 | the k-th row records what its run came to, of the (k % n)-th of n tasks for the (k / n)-th time, and started within the budget |
| Bench.AttemptsDifferByOne | scripts/bench/run.py:294-297 | wherever the budget stops the runner, every task was tried q or q + 1 times |
| Bench.FullSchedule | scripts/bench/run.py:294 | without a stop every task is tried exactly `repeat` times |
| Bench.Summarize | scripts/bench/run.py:189-213 | the loops compute the table by task, the totals, one score per split and both pass rates |
| Bench.PerTaskAddsUp | scripts/bench/run.py:196-211 | per-task runs and deliveries add up to the totals |
| Bench.EveryTaskHasASplit | scripts/bench/run.py:191-220 | every task that ran is counted in one of the listed splits |
| Bench.SplitsAddUp | scripts/bench/run.py:216-220 | any per-task number summed split by split is its sum over all tasks |
| Bench.SummaryAddsUp | scripts/bench/run.py:189-220 | the sums by split that the scores are made of add up to the table's totals |
| BenchSummaries.SummaryCounts | scripts/bench/run.py:189-220 | what any summary of the rows counts: tasks, runs and passes of all rows that ran; each split's score counts the same in its own rows alone; tasks, runs, deliveries and passed tasks of the splits add up to the totals |
| BenchSummaries.SplitScoreCounts | scripts/bench/run.py:216-220 | a split's rates times its runs and its tasks are the passed runs and the passed tasks of its own rows |
| BenchSummaries.OwnTable | scripts/bench/run.py:216-220 | the table of a split's own rows is the part of the whole table that lies in the split |
| BenchSummaries.TableEntry | scripts/bench/run.py:195-198 | the table holds for each task the results of its rows, in order |
| BenchSummaries.TasksAreNames | scripts/bench/run.py:204-208 | as many tasks ran as there are task names among the rows that ran |
| BenchSummaries.PassedAreNames | scripts/bench/run.py:203 | as many tasks passed as there are task names among the rows that passed |
| BenchSummaries.RanArePlaces | scripts/bench/run.py:190 | as many rows ran as there are rows without a setup error |
| BenchSummaries.LastRowSplits | scripts/bench/run.py:191 | a task lies in the split of its last row |
| BenchRates.PassRatesOrdered | scripts/bench/run.py:202-203 | with equally many scored runs per task, pass@1 <= pass@k <= 1 |
| BenchRates.RatesOrderedExactly | scripts/bench/run.py:202-203 | pass@1 <= pass@k holds whatever the scored runs come to iff every task that ran has the same number of them |
| BenchRates.UncutBenchIsOrdered | scripts/bench/run.py:294-306 | a bench that its budget does not cut and whose setups all work has its rates in order |
| BenchRates.CutBenchCanInvert | scripts/bench/run.py:294-297 | rows that a budget of 3 leaves of two tasks and two repetitions, with pass@1 = 2/3 and pass@k = 1/2 |
| HarnessVerdict.MergeableIsMonotone | scripts/bench/run.py:243-260 | at the same cost, raising the deliveries of any tasks never turns mergeable into not mergeable |
| MergeMeaning.MergeableInRuns | scripts/bench/run.py:243-260 | the whole rule without a quotient, when every task ran r times: saturated past 1799 in 2000; else mergeable iff it loses at most r holdout runs, gains 2r runs in a split or costs at most 85 % per delivery, and no task fell |
| MergeMeaning.FallStopsMerge | scripts/bench/run.py:251-259 | a task that falls from all its runs to none stops the merge, whatever else was gained |
| MergeMeaning.RegressionFallStopsMerge | scripts/bench/run.py:252-259 | so does a regression-set task that loses two runs or more |
| MergeMeaning.NothingFellMeans | scripts/bench/run.py:251-259 | nothing fell iff no task went from all its runs to none and no regression-set task lost two runs, entry by entry |
| MergeMeaning.ChainNeverDropsATask | scripts/bench/run.py:251-259 | no step of a chain of merges takes a task from all runs to none, nor a regression-set task down by two |
| MergeMeaning.RegressionDrift | scripts/bench/run.py:252-259 | over n merges in a row a regression-set task loses at most n runs |
| MergeMeaning.OneTaskIsWorth | scripts/bench/run.py:223-225 | a task is worth its delivery rate in its own split, and nothing elsewhere, when set aside or without a run |
| HarnessVerdict.SelfComparison | scripts/bench/run.py:243-260 | a report merges against itself iff the bench can tell, something was delivered and nothing was paid |
| HarnessVerdict.SaturationLine | scripts/bench/run.py:254-260 | where the float quotient and its rounding put the saturation line, for any number of runs |
| HarnessVerdict.SaturationInPractice | scripts/bench/run.py:254-260 | up to nine million million runs: saturated iff no active holdout run, or more than 1799 deliveries per 2000 runs |
| HarnessVerdict.RegressionTasksDoNotCount | scripts/bench/run.py:223-225 | scores of regression-set tasks change neither the units nor the holdout rate |
| HarnessVerdict.RegressionActsExactlyByCost | scripts/bench/run.py:243-260 | two candidates that differ only there, with nothing fallen, get the same verdict iff the bench is saturated, the active tasks fail the guard or improve anyway, or both or neither are cheap enough |
| HarnessVerdict.RegressionTaskCanDecide | scripts/bench/run.py:228-229 | a regression-set score that did not fall turns the verdict at the same total cost |
| HarnessVerdict.PartitionSkipsOnlyFull | scripts/bench/run.py:232-240 | the regression set names only tasks delivered in every run of both latest sampled reports |
| MergeMeaning.SetAsideExactly | scripts/bench/run.py:232-240 | a task is in the regression set iff the two latest reports with three samples or more both delivered it in all of at least three runs |
| HarnessVerdict.PartitionOnlyUnsaturates | scripts/bench/run.py:232-260 | where the active holdout tasks saturate the bench, all holdout tasks do |
| HarnessVerdict.HoldoutDrift | scripts/bench/run.py:259 | n merges in a row lose at most n holdout tasks |
| HarnessVerdict.MergesDoNotCompose | scripts/bench/run.py:259 | two mergeable changes in a row that together are not |
| HarnessVerdict.SameGainComposesExactly | scripts/bench/run.py:243-260 | two merges that gain in the same way compose iff, over both, the holdout guard holds and nothing fell (`MergeMeaning.NothingFellMeans`) |
| BenchReports.ReportIsConsistent | scripts/bench/run.py:204-211 | every report the bench writes has one entry per task and a total that is their sum |
| BenchReports.ReportCountsRows | scripts/bench/run.py:204-211 | per task the report counts its rows that ran and those that passed, in all the rows that passed, with an entry for every task that ran |
| BenchReports.PaidBenchNeverMergesAgainstItself | scripts/bench/run.py:243-260 | a bench that paid anything never merges against itself |
| EscrowAudit.TaskChecks | deploy/railway/phase5_live.py:327-343 | the lists of E01 and E02 are empty iff every task has one payment, and iff each such payment follows its task; for the six statuses `EscrowSettled.StatusFollowsExactly` says what that is |
| EscrowAudit.WalletCheck | deploy/railway/phase5_live.py:348-354 | the list of E03 is empty iff every wallet reserves its in-flight escrow and covers it |
| EscrowAudit.EconomicsChecks | deploy/railway/phase5_live.py:323-356 | the three verdicts, each as an if-and-only-if; E01 and E02 in the payments' own terms by `OnePaymentExactly` and `StatusFollowsExactly` |
| EscrowSettled.OnePaymentExactly | deploy/railway/phase5_live.py:334-337 | a task has one payment iff one transaction and no other is a payment for it, and then that is it |
| EscrowSettled.StatusFollowsExactly | deploy/railway/phase5_live.py:338-343 | with the six statuses E02 passes iff each only payment is of the escrowed amount, pends iff the task is in flight, is paid iff it is completed and cancelled iff it was refunded, timed out or failed |
| EscrowAudit.InflightIsHeld | deploy/railway/phase5_live.py:487 | the row read for a wallet is the escrow its owner has in flight, 0 when there is none |
| EscrowAudit.PendingIsHeld | deploy/railway/phase5_live.py:475-488 | passed: pending payments are the escrow in flight plus what pends for unlisted statuses |
| EscrowAudit.ReservedIsHeld | deploy/railway/phase5_live.py:468-488 | passed: the reserved credits of all society wallets are the escrow in flight |
| EscrowAudit.AuditMeansMoneyAddsUp | deploy/railway/phase5_live.py:323-356 | both, and every balance covers its reservation |
| EscrowAudit.AuditIsSound | deploy/railway/phase5_live.py:323-356 | with the six statuses of the table: pending payments = escrow in flight = reserved credits |
| EscrowSettled.EveryCreditIsAccountedFor | deploy/railway/phase5_live.py:323-356 | with the six statuses: pending payments = escrow in flight = reserved credits, paid payments = escrow of the completed tasks, cancelled payments = escrow of the refunded, timed-out and failed ones, and no payment has another status |
| TaskLifecycle.ValidExactly | legacy/society_sqlite/app/models.py:159-165 | text in any letter case is accepted iff it names two statuses with an edge between them |
| TaskLifecycle.EdgesByTarget | legacy/society_sqlite/app/models.py:136-155 | the table read by target: where a task can come from |
| TaskLifecycle.AnyReworkIsAccepted | legacy/society_sqlite/app/models.py:140-154 | any sequence of requested changes, failed QA runs and blocks can come before a task goes on with its work |
| TaskLifecycle.StageTail | legacy/society_sqlite/app/models.py:136-155 | a task at a stage of the chain has just passed all stages before it, one after the other |
| TaskLifecycle.DoneTail | legacy/society_sqlite/app/models.py:136-155 | a done task ends with exactly the nine stages from IN_PROGRESS to DONE |
| TaskLifecycle.ReworkRepeatsEveryGate | legacy/society_sqlite/app/models.py:142-154 | after any requested change, failed QA or block, work, review, QA and human approval all come again |
| TaskLifecycle.VisitsGoDown | legacy/society_sqlite/app/models.py:136-155 | in every trace no stage is entered more often than an earlier one |
| TaskLifecycle.TerminalExactly | legacy/society_sqlite/app/models.py:150-156 | the terminal statuses are exactly those without an exit |
| TaskLifecycle.TerminalOnlyLast | legacy/society_sqlite/app/models.py:156 | a terminal status ends a trace |
| TaskLifecycle.EveryOpenTaskCanFinish | legacy/society_sqlite/app/models.py:136-155 | every accepted trace that has not ended can be completed to DONE |

## Left out

- Network, chat server, language models, git, Docker, subprocesses, files, clocks and random numbers: their results are inputs.
- YAML and JSON encoding, message bodies beyond what readers use, logging, sleeps, health checks and token handling.
- Hermes: handling a message and marking it processed is one step; there is no crash between the two, the processed set on disk is not modelled, and a message is fetched at most once per tick.
- Hermes: items have a title, and fields no modelled branch reads (priority, thread_id, shipped_at) are left out. A proposal the builder cannot parse has the effect of a build whose answer is lost.
- Hermes: service restarts, and liveness: a lost message or the builder's skip list leaves an item in flight for good.
- Hermes: the other versions of the agents are not part of this model.
- HermesAgents.ShipLogFile keeps typed entries; their text form is `ShipLog`. The wall clock enters as one stamp per entry.
- ShipLog: `\s`, `\d` and upper case are ASCII only. Reading a text file turns `\r` into a line break; that step is not modelled, so `\r` is excluded where one-line titles and details are asked for, and a text with `\r` is meant as it reads.
- Storyteller: the story's text and its posting; a parsed time is an integer number of seconds.
- BuilderFiles: directories, compiler caches, symbolic links and several spellings of one path; writes during a rollback succeed.
- Werewolf: player objects are values in a sequence field, so aliasing of players is not captured; public messages, discussion, statistics and saved games are left out, as is the game after the first; the contexts shown to players only read the state.
- Werewolf: `werewolf_v2` needs an engine that is not part of this model.
- ReleaseGate: the texts of the checks, and `[...]` and `?` in patterns, which the table does not use; comparing two revisions is one fact of git.
- ReleaseGate.ReleaseCommand: promises no subtrees when the target is itself named like the release branch made for it.
- Bench: `setup_errors`, result classes, means and skipped-task lists, which add nothing hard; tasks are listed by first appearance instead of by name; no display rounding except in the saturation test.
- Bench.RunBench: a run is a function of its place in the schedule and its cap, so that no run depends on files an earlier one left.
- HarnessVerdict.Partition: `min_samples` is the default, 3.
- HarnessVerdict: sums of quotients and costs are real numbers, so comparisons that hold with equality can differ from those of floats.
- EscrowAudit: audits limited by a start time; the escrow service and the database that write the rows are not part of this model.
- EscrowAudit.AuditIsSound: assumes what the schema promises: distinct ids and one wallet per society agent.
- TaskLifecycle: roles and permissions, a finite table; letter case is that of ASCII.
