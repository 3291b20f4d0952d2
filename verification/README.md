# Marveen core protocols, verified

A Dafny model of the parts of Marveen that decide things: the state machine that hands a coding agent over to a fresh
session, the gate that may clear one, the coordinator that reads Telegram while the native poller is down, the migration
runner, the hand-written text scanners, the token issuer, and the small persisted counters and limiters. Each file models one
source file (or one layer of it) and proves what that code promises over every input or every run.

    dafny verify dfyconfig.toml --resource-limit 2000000 --verification-time-limit 0

How the model is built:

- Code that changes things step by step is imperative here too: the scanners, splitters and partitions are methods with loops,
  and what is persisted or mutated is a field of a class (`SchemaDb`, `EventStore`, `Loop`, `Limiter`, `EnvStore`, `TokenDb`,
  `Issuer`, `AlertState`, `Monitor`, `BlockList`). Each such method is tied to a specification function, and the laws are
  lemmas about that function and its runs. Code made of decisions (the context guard, the restart gate) is functions.
- Concurrency is a state machine over steps: migration runners and token issuers interleave in any order, with failures and
  crashes between any two steps; the transaction is the only atomic thing.
- What comes from outside (clock readings, probe results, HTTP answers, random draws, whether a write or a send goes through)
  is an argument of the step that reads it, and unconstrained unless a lemma says otherwise.

| file | models |
|---|---|
| `Text`, `Options` | the string operations of the runtimes; optional values |
| `Regex`, `Linkify`, `CodeBlocks`, `BlockText`, `Written`, `SplitMessage` | `src/format.ts`; the two patterns run on a backtracking matcher (ECMA-262, section 22.2.2) |
| `ContextGuard`, `GuardActs`, `GuardRuns`, `GuardConfig` | `src/context-guard.ts`: one sweep, what it does in the inputs' terms, whole runs with the runner's daily schedule, the configuration |
| `RestartGate`, `GateActs` | `src/context-restart-gate.ts` and the sweep of its runner |
| `Migrations` | `src/db-migrations.ts` |
| `Coordinator`, `CoordinatorActs`, `LiveMessages`, `CoordinatorLoop` | `src/channel-coordinator.ts`: the protocol, the messages under way, and the loop that runs it |
| `LogRatchet`, `NestedCode`, `FixedMessage`, `PlusCut`, `MessageGrammar` | `scripts/log-message-literal-ratchet.py`: the scanners and the decision, and grammars of what they read |
| `NoticeLimiter` | the limiter of `scripts/send-digest-email.py` |
| `EnvFile`, `EnvReads`, `EnvLens`, `EnvTwice` | `src/env.ts`: reader and updater, what a line reads as, the law between the two, and updating twice |
| `AgentTokens`, `TokenRuns` | `src/agent-tokens.ts` over `src/db/api-tokens.ts` |
| `UsageAlerts`, `PaceVerdicts`, `AlertRuns` | pace and alerts of `scripts/usage-collect.py` |
| `Nudges`, `NudgeCounters`, `HygieneSweep`, `HygieneRuns` | `scripts/blackboard-hygiene.py` |

What the proofs found, stated as lemmas:

- The scanner's remembered search positions in `linkifyLine` (`src/format.ts:36-40`) are never used again: every round either
  makes a link and moves past it or ends the line. The linear bound holds all the same (`Linkify.LinkifyLine`).
- `splitMessage` with limit 0 loops for ever on any text that is not all white space (`SplitMessage.LoopEndsIff`).
- The log ratchet raises on a unary plus after a literal (`MessageGrammar.UnaryPlusRaises`) and refuses a fixed message exactly when
  a then-branch of it holds a `??` outside parentheses; `MessageGrammar.FixedIff` says exactly when it accepts and when it raises.
- Moving the deadlines does not make sleep invisible to the context guard. It shows when a quiet session crosses the idle-flush
  period or the daily time while the machine sleeps, and when a handoff written before the sleep is outdated by work after it
  (`ContextGuard.SleepPutsOffRestart`); `ContextGuard.SleepInvisibleIff` says exactly when in one sweep,
  `GuardRuns.SleepChangesNoRun` in a whole run.
- The coordinator's offset passes an update whose insert throws; `Coordinator.OffsetAndRows` says that this, and only this, loses one.
- A handoff is two calls; when the second throws, the replay queues a message that is still under way once more
  (`LiveMessages.FailedMarkDoubles`), although `src/channel-coordinator/ingest.ts:146-147` says a waiting message is never doubled.
  `LiveMessages.TwoLiveIff` is the exact condition. A message that arrived and is later deleted for its age is handed off again
  too (`LiveMessages.HandedOffAgainIff`).
- `.env` updates with a key named on two lines do not take effect for the reader (`EnvLens.ReadAfterUpdate`), and values that
  need quotes do not read back (`EnvLens.ReadsBackIff`); `EnvLens.LensIff` is the exact condition.
- The header of `src/agent-tokens.ts:11-13` says that a failure never leaves a valid token nobody holds. The new token is indeed never
  left so, but a row that was active before stays active while its secret has been overwritten (`TokenRuns.CrashStrands`) until
  the next call mints (`TokenRuns.CrashStrandsIff`). A row with the wrong role is cured only by a call that finds it not held by the file
  (`TokenRuns.CallCuresIff`).
- The restart gate sends before it records: an alert or a forced clear whose record cannot be written happens again on the next
  sweep (`RestartGate.AlertsApartIff`, `RestartGate.ForcedApartIff`). So does an escalation of the hygiene monitor
  (`HygieneRuns.EscalatedAgainIff`), while one that could not be sent is not made up for if its counters were saved
  (`HygieneRuns.LostWordIff`).
- The restart gate reads a failed lookup of open questions as no question: exactly then a session with one can be cleared
  (`RestartGate.QuestionCutOffIff`).
- The usage collector saves before it prints: an alert lost in between silences its condition for the gap (`AlertRuns.HeardIff`).
- Updating the same `.env` keys twice leaves another file than the second update alone exactly when the keys the file does not name
  come in a different order (`EnvTwice.UpdateTwiceIff`); what is read is the same (`EnvTwice.ReadTwice`).
- Asking for the projection on top of the pace changes nothing in an unexpired window, and does in an expired one (`AlertRuns.OverIff`).

## Model

| member | source | states |
|---|---|---|
| `Regex.SkipMisses` | src/format.ts:75 | a global replacement may skip any stretch in which the pattern matches nowhere |
| `Regex.TakeHit` | src/format.ts:75 | one hit of a global replacement: the text before it is kept, the search goes on behind it with the next match number |
| `Regex.MatchOnLine` | src/format.ts:73-76 | a pattern of dots and plain characters never looks past the end of its line |
| `Linkify.UrlMatch` | src/format.ts:55-61 | the lazy url ends at the first `)` that leaves it non-empty, or there is no match |
| `Linkify.TextMatch` | src/format.ts:48-61 | the lazy text ends at the first `](` that leaves it non-empty and is followed by a url, or fails for good |
| `Linkify.LinkMatch` | src/format.ts:46-61 | the backtracking match of the link pattern at a `[` is decided by two forward searches |
| `Linkify.LinkFromFails` | src/format.ts:50-58 | both early exits are final: no later position of the line matches |
| `Linkify.Remembered` | src/format.ts:36-60 | a search through the remembered position answers what a fresh search would, at the cost it accounts for |
| `Linkify.LinkifyLine` | src/format.ts:41-67 | on every terminator-free line the scanner's output is the leftmost lazy replacement by the pattern, its searches look at no more than the line's length plus one characters, and no remembered position is ever used again |
| `Linkify.LinkReplaceLine` | src/format.ts:69-76 | no link crosses a line terminator: the replacement on a text is the replacement on its first line, the terminator, and the replacement on the rest |
| `Linkify.LinkifyText` | src/format.ts:69-76 | splitting at terminators, scanning each line and joining equals the pattern's replacement on the whole text |
| `Written.LinkIsReplaced` | src/format.ts:36-66 | a written link, behind text that begins none, becomes an anchor with its url and its text, whatever follows |
| `CodeBlocks.LangMatch` | src/format.ts:8-31 | giving back characters of the greedy language word or the newline never finds a closing fence that the greedy choice misses |
| `CodeBlocks.NothingLeft` | src/format.ts:22-24 | an opening fence without a closing one ends the search: no later position matches |
| `CodeBlocks.TakeCodeBlocks` | src/format.ts:14-34 | for every text, result and pushed blocks equal the global replacement by the backtracking pattern, numbered from the blocks already there, with rendered contents in order |
| `Written.BlockIsTaken` | src/format.ts:14-33 | a written block leaves the next mark in its place and its language and body in the list, whatever follows |
| `BlockText.EscapeIsThreePasses` | src/format.ts:116-118 | the three global replacements, ampersands first, escape every character once |
| `BlockText.EscapeReadsBack` | src/format.ts:116-118 | escaped text holds no angle bracket and reads back as the text it was |
| `BlockText.RenderedHolds` | src/format.ts:26-29 | a block is one element, its language if any in the class, whose text reads back as the body without the blanks at its end |
| `BlockText.MarksDiffer` | src/format.ts:28 | the marks of different blocks are different |
| `SplitMessage.Progress` | src/format.ts:126-143 | one round shortens the rest exactly when the limit is positive or the rest starts with white space |
| `SplitMessage.LoopEndsIff` | src/format.ts:126-143 | the loop ends exactly when the limit is positive or the text is nothing but white space |
| `SplitMessage.SplitLosesOnlySpace` | src/format.ts:120-145 | the text is the chunks in order with only white space between them, for any text and positive limit |
| `SplitMessage.SplitSizes` | src/format.ts:120-145 | chunks fit the limit; over the limit all but the last are at least 0.3 * limit long, which bounds their number; later chunks start with a printing character |
| `SplitMessage.BreaksWell` | src/format.ts:132-140 | a chunk ends at the last newline in reach, else the last space in reach, else inside a word, in that order |
| `SplitMessage.Split` | src/format.ts:120-145 | the loop computes the function the laws above are about |
| `ContextGuard.SleepInvisible` | src/context-guard.ts:314-321 | in every phase (in idle: with the idle-flush tier off) the shifted state at the later time takes, for a session that did nothing since before the sleep, the same action for the same reason and yields the shifted next state |
| `ContextGuard.SleepInvisibleIff` | src/context-guard.ts:294-321 | for any session, with stamps from before and after the sleep and any change of the daily flag: action and next state are those of the sleepless sweep exactly when no session seen idle crosses the quiet period or the daily time and no restart goes out whose handoff predates the sleep and is outdated by work after it; the reason too exactly when none of this happens, idle or not, and no such handoff is asked for again |
| `ContextGuard.SleepPutsOffRestart` | src/context-guard.ts:429-605 | a handoff fresh enough without the sleep, written before it with work after it, is asked for again instead of the restart exactly when gap and sleep together exceed the slack |
| `ContextGuard.CalibrateLimit` | src/context-guard.ts:252-263 | the window is kept if it explains the observation within 1.25, else stepped to the smallest tier above it that does, or the largest tier |
| `GuardActs.IdleActs` | src/context-guard.ts:513-555 | in the idle phase a session is restarted exactly when its pane is saturated for the second time running, or, unsaturated, when the enabled guard measures it at the hard threshold outside a turn; it is asked for a handoff exactly between the thresholds, or heavy, quiet and idle, or idle at the daily time, each with its own reason |
| `GuardActs.IdleReasons` | src/context-guard.ts:519-555 | why a calm idle session is restarted or left alone, each reason exactly when it is the case |
| `GuardActs.StaleIs` | src/context-guard.ts:406-435 | a handoff is behind exactly by more than three minutes of work, told to the nearest minute, and unknown exactly without a transcript |
| `GuardActs.AwaitHandoffActs` | src/context-guard.ts:557-624 | awaiting a handoff: when it stands down, restarts, asks again and waits, exactly, from the inputs |
| `GuardActs.AwaitReasons` | src/context-guard.ts:557-624 | the reasons given while a handoff is awaited, each exactly when it is the case |
| `GuardActs.WaitingActs` | src/context-guard.ts:626-645 | the resume prompt goes out exactly to a running, ready session, the wait is given up exactly at its deadline, a cooldown ends exactly at its time |
| `GuardActs.ActionStates` | src/context-guard.ts:458-488 | the exact state each action leaves, with its deadline, the handoff on record and the staleness it reports |
| `GuardActs.NothingDone` | src/context-guard.ts:494-530 | a sweep that does nothing keeps the state, but for the saturation streak and a session that is gone |
| `GuardRuns.RestartsApart` | src/context-guard.ts:475-492 | in every run two restarts are at least the cooldown apart |
| `GuardRuns.QuietCooldown` | src/context-guard.ts:458-473 | no handoff request and no restart before a cooldown that was entered ends |
| `GuardRuns.InjectFollowsRestart` | src/context-guard.ts:624-650 | a resume prompt follows a restart with nothing done in between: one per restart at most |
| `GuardRuns.InjectsSeparated` | src/context-guard.ts:624-650 | between two resume prompts lies a restart |
| `GuardRuns.NoBusyRestart` | src/context-guard.ts:494-682 | a busy pane is restarted only when saturated, and then only by the saturation net |
| `GuardRuns.SaturationNeedsTwo` | src/context-guard.ts:494-556 | an idle-phase saturation restart happens exactly at the second consecutive saturated sweep |
| `GuardActs.RestartIsFollowedUp` | src/context-guard.ts:626-645 | in every run the first sweep that finds the restarted session running and ready within twenty charged minutes sends its resume prompt; the wait ends there or at the first sweep that reaches the twenty minutes |
| `GuardActs.DailyIff` | src/web/context-guard-runner.ts:190-207 | in every run the daily handoff is due exactly from its time on until it has been asked for: two daily requests have a daily time between them |
| `GuardRuns.EveryWaitBegan` | src/context-guard.ts:746-764 | every await-handoff sweep belongs to a wait begun by one request from the idle phase |
| `GuardRuns.DeadlineFixed` | src/context-guard.ts:557-624 | refresh requests never move the deadline, which stands one timeout after the first request, counted in charges |
| `GuardRuns.TimeoutIsCharged` | src/context-guard.ts:304-321 | a handoff times out only when the per-sweep charges (elapsed time, or one interval over a gap) reach the timeout, and the first running, non-busy sweep at or after that leaves the phase |
| `GuardRuns.RequestsAdvance` | src/context-guard.ts:557-624 | the requests of one wait are recorded with strictly increasing handoff times |
| `GuardRuns.SleepChangesNoRun` | src/web/context-guard-runner.ts:174-207 | two-run theorem over runs with a clock, transcript and handoff stamps and the daily schedule: a noticed sleep before a sweep that lies one interval after its predecessor leaves every action and (moved) state as it was exactly when at no later sweep a session seen idle crosses the quiet period or the daily time, or a restart finds a handoff from before the sleep outdated by work after it; every reason too exactly when none of it happens, idle or not |
| `GuardConfig.NormalizedIsSafe` | src/context-guard.ts:126-165 | whatever was stored, thresholds are in (0, 1) in order, periods positive and token counts plausible |
| `GuardConfig.NormalizeStored` | src/context-guard.ts:126-165 | storing a normalised configuration and reading it back changes nothing |
| `GuardConfig.ValidIsKept` | src/context-guard.ts:126-165 | every valid setting is kept, every other becomes its default, and only the hard threshold moves, up to the other one |
| `GuardConfig.TimeIsKept` | src/context-guard.ts:147-149 | the daily time is kept, trimmed, exactly when it is written as a time of day |
| `RestartGate.AllowAntitone` | src/context-restart-gate.ts:165-248 | more live work, or less certainty about it, never opens the gate; a longer streak never closes it |
| `RestartGate.NothingCutOff` | src/context-restart-gate.ts:165-280 | a clear, allowed or forced, needs an idle pane, no known child, no dispatched message, no open question, no task; an unmeasured child check passes only the ordinary gate after the fallback window |
| `GateActs.ClearedIff` | src/web/context-restart-gate-runner.ts:615-692 | a session is cleared in the ordinary way exactly when the gate is on, a reset it needs is saved, the measured context is over the threshold, no other guard is at work, nothing is live or limited, the child check answered or has failed long enough, and the send goes through |
| `GateActs.ForcedAndAlertedIff` | src/web/context-restart-gate-runner.ts:694-760 | a stuck gate forces a clear exactly when it may and the send goes through, and alerts exactly when an alert is due and nothing was forced and recorded |
| `GateActs.StoredIs` | src/web/context-restart-gate-runner.ts:655-780 | the exact state stored after any sweep, with every combination of sends and writes that fail |
| `RestartGate.ForcedOverrides` | src/context-restart-gate.ts:251-280 | with the gate on and the context not below the threshold, a forced restart overrides only the unmeasurable, hard-guard and usage-limit blocks |
| `RestartGate.ResetsCommute` | src/context-restart-gate.ts:326-358 | the two streak resets commute and are idempotent |
| `RestartGate.YoungSessionIsQuiet` | src/context-restart-gate.ts:298-333 | a session of known start younger than the alert time less 60 s never raises the alert, whatever was stored |
| `RestartGate.YoungSessionBound` | src/context-restart-gate.ts:298-333 | the bound is exact: a streak kept by the tolerance raises the alert from that age on |
| `RestartGate.AlertsApart` | src/web/context-restart-gate-runner.ts:724-757 | an alert comes at least the alert time after any earlier recorded alert of the run, across resets, restarts, clears and failures |
| `RestartGate.AlertsApartIff` | src/web/context-restart-gate-runner.ts:724-757 | after an alert every continuation of the run keeps the alert time exactly when the write that follows the send goes through |
| `RestartGate.UnrecordedAlertRepeats` | src/web/context-restart-gate-runner.ts:733-757 | an alert that went out and was not recorded goes out again in the next like sweep |
| `RestartGate.ForcedApart` | src/web/context-restart-gate-runner.ts:695-723 | a forced clear comes at least the force time after any earlier recorded clear |
| `RestartGate.ForcedApartIff` | src/web/context-restart-gate-runner.ts:695-723 | after a forced clear every continuation keeps the force time exactly when its notice and the write after it go through |
| `RestartGate.UnrecordedForceRepeats` | src/web/context-restart-gate-runner.ts:701-723 | a forced clear whose notice or write fails is repeated by the next like sweep |
| `RestartGate.AlertIsEarned` | src/web/context-restart-gate-runner.ts:661-775 | an alert (forced clear) is preceded by the alert (force) time of sweeps over the threshold or unmeasurable, but where the write of a reset failed, without a recorded clear, within the current session when its start is known |
| `RestartGate.ClearsCutNothingOff` | src/web/context-restart-gate-runner.ts:589-723 | in every run whatever clears a session cuts off no turn, no known child, no dispatched message (a failed count is one), no task, and no open question but one whose lookup threw; an ordinary clear is over the threshold and not usage-limited |
| `RestartGate.QuestionCutOffIff` | src/web/context-restart-gate-runner.ts:606-608 | a session with an open question is cleared exactly if the lookup of it throws and nothing else holds the clear back |
| `Migrations.RunnersAreSafe` | src/db-migrations.ts:154-182 | any number of runners, any interleaving, any script failing: no script runs twice or again, versions ascend strictly, each that ran is recorded with its checksum, nothing recorded is lost, and a runner at index i finds files[0..i) recorded |
| `Migrations.NobodyBlocks` | src/db-migrations.ts:368-383 | from any state a runner that was not refused finishes in one step and one for each file, whatever the others did |
| `Migrations.FinishedMeansDone` | src/db-migrations.ts:357-386 | once one runner finished, exactly the scripts pending at the start have run, in order, also those below the highest recorded version, and nothing is pending |
| `Migrations.RerunExecutesNothing` | src/db-migrations.ts:329-386 | from then on no step of any runner changes the database |
| `Migrations.ReportPartitions` | src/db-migrations.ts:258-281 | recorded versions split into ahead, without a file, and known; shipped ones into pending and known |
| `Migrations.ReportIs` | src/db-migrations.ts:254-281 | entry by entry what the report says: highest versions, their number, ahead, without a file, and edited without being known safe |
| `Migrations.MismatchedAreKnown` | src/db-migrations.ts:208-256 | a checksum is compared only for a version both recorded and shipped, the known-safe ones excepted |
| `Migrations.AheadIffMax` | src/db-migrations.ts:258-281 | some version is ahead exactly when the highest recorded one lies above every file |
| `Migrations.SchemaDb.ApplyMigration` | src/db-migrations.ts:154-182 | one transaction: re-checked, applied and recorded, or rolled back |
| `Migrations.SchemaDb.ApplyMigrations` | src/db-migrations.ts:329-386 | alone with the database: the pending scripts run in order and the report says so; a failing one stops the run with everything before it applied |
| `Coordinator.TakeAllKeeps` | src/channel-coordinator.ts:234-268 | a processed batch hands off only its own updates, each at most once ever, and leaves a row for every one whose insert did not throw |
| `Coordinator.ReplayIsExact` | src/channel-coordinator.ts:272-300 | the replay creates one message for exactly the oldest events that need one and whose create does not throw; an event stops waiting exactly if its mark does not throw either; none is forgotten |
| `Coordinator.ReplayDrains` | src/channel-coordinator.ts:272-300 | with at most fifty waiting and no failure nothing is left waiting |
| `Coordinator.StepStore` | src/channel-coordinator.ts:313-407 | everything one iteration may do to rows, hand-offs and offset |
| `CoordinatorActs.WatchIff` | src/channel-coordinator.ts:319-360 | watching: which readings count, when the loop seeds, backfills, stops and cools down, exactly, and the offset a seed brings |
| `CoordinatorActs.BackfillIff` | src/channel-coordinator.ts:362-404 | backfilling: the loop yields exactly on an UP probe or a 409, stops exactly at a fatal answer, and moves the offset exactly with a batch that is taken, to its highest id |
| `CoordinatorActs.BatchIsTaken` | src/channel-coordinator.ts:234-260 | a batch taken while backfilling books exactly the new updates it offers: a row, and one live message the row points at unless its create or mark throws |
| `CoordinatorActs.ReplayIff` | src/channel-coordinator.ts:272-300 | an iteration hands an event it finds off again exactly when the query comes through, the event is among the first fifty stranded ones and the create does not throw; its row then points at the new message exactly if the mark comes through |
| `CoordinatorActs.MessagesAfter` | src/channel-coordinator.ts:272-300 | an iteration changes no message it finds |
| `CoordinatorActs.DeliveredAfter` | src/channel-coordinator.ts:262-271 | no message is lost for good: an event with n stranded ones before it is delivered after n / 50 + 1 iterations in which no replay fails, whatever is polled, seeded or inserted in them |
| `Coordinator.NoDoubleHandoff` | src/channel-coordinator.ts:234-268 | in every run no update is handed off twice by batches, whichever inserts, creates, marks and queries throw |
| `LiveMessages.TwoLiveIff` | src/channel-coordinator.ts:248-300 | an update whose marks come through from here on never has two messages under way, in every continuation, exactly when its row points at each of its live messages |
| `LiveMessages.NoDoubleLive` | src/channel-coordinator/ingest.ts:146-166 | in a run that starts so and in which every mark of the update comes through it never has two messages under way |
| `LiveMessages.FailedMarkDoubles` | src/channel-coordinator.ts:272-300 | after a mark that threw, the next iteration puts a second message under way exactly if its replay reaches the event and can create, as long as the router has not given up on the first |
| `LiveMessages.HandedOffAgainIff` | src/channel-coordinator/ingest.ts:139-163 | in every run a delivered update is handed off again exactly when its message was given up by the router or deleted for its age, and a replay then or later reaches the update and can create |
| `Coordinator.RowsStay` | src/channel-coordinator.ts:234-300 | a stored event is never lost |
| `Coordinator.OffsetAndRows` | src/channel-coordinator.ts:326-403 | the offset changes only to a seeded high-water or a fully processed batch's maximum, and then every mapped update has a row unless its insert threw |
| `Coordinator.DiscardedBatch` | src/channel-coordinator.ts:389-403 | a batch overtaken by native recovery changes nothing |
| `Coordinator.NothingBelowHighWater` | src/channel-coordinator.ts:326-403 | inside a window nothing at or below the seeded high-water is handed off |
| `Coordinator.ConflictsApart` | src/channel-coordinator.ts:59-111 | with a nondecreasing clock two 409 answers are at least the cooldown plus the rest of the debounce apart |
| `Coordinator.AskedOnlyWhenDown` | src/channel-coordinator.ts:313-403 | Telegram is asked only after a DOWN probe in the same iteration, for the high-water only debounced and outside the cooldown; a batch is processed only after a second DOWN |
| `CoordinatorLoop.Loop.ProcessBatch` | src/channel-coordinator.ts:234-268 | the loop over the updates changes the store as the step function says and returns the highest id |
| `CoordinatorLoop.Loop.ReconcilePending` | src/channel-coordinator.ts:272-300 | the replay loop changes the store as the step function says |
| `CoordinatorLoop.Loop.RunLoop` | src/channel-coordinator.ts:313-407 | the loop over module variables and store is the run of the state machine, iteration by iteration |
| `LogRatchet.StringEnd` | scripts/log-message-literal-ratchet.py:40-55 | the mutually recursive scanners terminate, return past their start and at most one beyond the end (template substitutions) |
| `LogRatchet.BalancedEnd` | scripts/log-message-literal-ratchet.py:58-81 | the same for the bracket scanner, with strings and comments skipped |
| `LogRatchet.SkipString` | scripts/log-message-literal-ratchet.py:40-55 | the loop computes that position |
| `LogRatchet.SkipBalanced` | scripts/log-message-literal-ratchet.py:58-81 | the loop computes that position |
| `LogRatchet.SplitArgs` | scripts/log-message-literal-ratchet.py:84-105 | the loop computes the top-level arguments the laws below are about |
| `LogRatchet.SplitPlus` | scripts/log-message-literal-ratchet.py:108-125 | the loop computes the operands the laws below are about |
| `NestedCode.StringScan` | scripts/log-message-literal-ratchet.py:40-55 | a closed string literal, with escapes and nested substitutions, is skipped as a whole |
| `NestedCode.CodeScan` | scripts/log-message-literal-ratchet.py:58-81 | inside a bracket, well-nested comment-free text is passed over without a change of depth |
| `NestedCode.SplitUndoesCall` | scripts/log-message-literal-ratchet.py:84-105 | splitting "(" + join(", ") + ")" with anything before and after gives exactly the arguments back, for all non-empty, trimmed, well-nested, comment-free arguments without top-level commas |
| `NestedCode.SplitUndoesSum` | scripts/log-message-literal-ratchet.py:108-125 | splitting operands joined by " + " gives them back |
| `FixedMessage.SplitTernary` | scripts/log-message-literal-ratchet.py:137-172 | the two loops compute the ternary the laws below are about |
| `FixedMessage.IsFixedMessage` | scripts/log-message-literal-ratchet.py:175-183 | the recursive decision, an empty operand ending in an exception, equals the function the laws are about |
| `FixedMessage.RaisesIff` | scripts/log-message-literal-ratchet.py:128-134 | a list of operands raises exactly when an empty one is reached with only literals before it |
| `PlusCut.PlainLiteralIff` | scripts/log-message-literal-ratchet.py:128-134 | a well-nested operand is plain exactly when it is one string literal, a template literal only without a substitution |
| `PlusCut.SumRaisesIff` | scripts/log-message-literal-ratchet.py:108-134 | for any well-nested text the operands raise exactly when its parts between top-level pluses reach a blank one with only literals before it |
| `MessageGrammar.TernaryFound` | scripts/log-message-literal-ratchet.py:137-172 | cutting `c ? a : b` undoes writing it, for branches that are themselves ternaries, sums or parenthesized to any depth, exactly when the then-branch holds no `??` outside parentheses; else no ternary is found |
| `MessageGrammar.WrappedIff` | scripts/log-message-literal-ratchet.py:178-179 | a text counts as parenthesized exactly when one pair of parentheses encloses all of it |
| `MessageGrammar.FixedIff` | scripts/log-message-literal-ratchet.py:175-183 | over the grammar of sums with unary pluses, ternaries and parentheses the decision accepts exactly the expressions whose branches are all sums of literals and none of whose then-branches holds a `??` outside parentheses; it raises exactly when the first branch reached that is not accepted reaches an empty operand after literals only, or the condition of an unrecognised ternary does |
| `MessageGrammar.FullNeverRaises` | scripts/log-message-literal-ratchet.py:175-183 | with every ternary recognised and no unary plus in a branch it never raises |
| `MessageGrammar.UnaryPlusRaises` | scripts/log-message-literal-ratchet.py:108-134 | a unary plus after a literal makes the decision raise, whatever follows it |
| `MessageGrammar.NullishHides` | scripts/log-message-literal-ratchet.py:154-171 | any ternary whose then-branch holds a `??` outside parentheses is not found and is refused, even if all its branches are literals; it raises exactly when its condition, before its last operand, reaches an empty one after literals only |
| `NoticeLimiter.Limiter.ReserveSlot` | scripts/send-digest-email.py:376-407 | file and reply after a call, with lock and write failures |
| `NoticeLimiter.ReplyIs` | scripts/send-digest-email.py:329-407 | on any file and clock: when a call fails, refuses or reserves, and what it writes, stamps from the future taken back to now |
| `NoticeLimiter.AtMostSixPerHour` | scripts/send-digest-email.py:376-407 | from no file and on a nondecreasing clock every half-open hour holds at most six reservations |
| `NoticeLimiter.GrantedIffRoom` | scripts/send-digest-email.py:376-407 | a call that gets lock and write is granted exactly when fewer than six reservations lie within the last hour |
| `NoticeLimiter.StampsSettle` | scripts/send-digest-email.py:329-353 | from any well-formed file no stamp lies past the time of a call that answered |
| `NoticeLimiter.RefusalsEnd` | scripts/send-digest-email.py:376-407 | from any file, two refusals with no reservation between them are less than a window apart |
| `EnvFile.SafeEntryIff` | src/env.ts:60-67 | which entries are safe to write, by the codes of their characters |
| `EnvFile.UsableAreUsable` | src/env.ts:52-76 | the entries written are exactly the safe ones with a value |
| `EnvFile.EnvStore.ReadEnvFile` | src/env.ts:17-44 | the loop returns the map in which later lines win, cut down to the wanted keys |
| `EnvReads.QuotedReads` | src/env.ts:27-42 | a value in quotes reads as the text between them, with any blanks around key, sign and value |
| `EnvReads.PlainReads` | src/env.ts:27-42 | a trimmed value that is not in quotes reads as itself |
| `EnvReads.NothingIff` | src/env.ts:27-31 | a line gives nothing exactly when it is blank, a comment, or has no sign |
| `EnvReads.ReadIff` | src/env.ts:17-44 | a key is read with a value exactly when it is wanted and the last line naming it gives that value |
| `EnvReads.LinesAre` | src/env.ts:27 | the lines are the pieces between line feeds |
| `EnvFile.EnvStore.UpdateEnvFile` | src/env.ts:69-110 | the loops leave the file rewritten line by line with the missing keys appended; untouched when nothing is usable |
| `EnvLens.EntryParses` | src/env.ts:27-42 | a written line names its key only, and reads as its value trimmed and unquoted |
| `EnvLens.ReadsBackIff` | src/env.ts:27-42 | a value reads back as itself exactly when it has no space at either end and is not in quotes |
| `EnvLens.UpdatedContent` | src/env.ts:52-64 | no written entry can start a further line: the lines of the new file are the updated lines |
| `EnvLens.ReadAfterUpdate` | src/env.ts:69-110 | for every key what is read after the update: the new value if at most one line named it, else the old one; other keys unchanged |
| `EnvLens.LensIff` | src/env.ts:17-110 | reading after updating gives the old map overridden by the updates exactly when each updated key is named once at most and its value reads back, or it is repeated and already had the value |
| `EnvLens.OtherLinesStay` | src/env.ts:89-107 | every line keeps its place and its key, lines naming no updated key keep their text, and only missing keys are appended |
| `EnvTwice.UpdateTwiceIff` | src/env.ts:69-110 | updating the same keys again leaves the file as the second update alone would, exactly when the keys the file does not name come in the same order in both |
| `EnvTwice.UpdateTwice` | src/env.ts:69-110 | so it does when both list their keys in one order |
| `EnvTwice.ReadTwice` | src/env.ts:17-110 | reading after both is reading after the second alone, in any order, whenever the second names every key of the first |
| `AgentTokens.TokenDb.RotateApiToken` | src/db/api-tokens.ts:178-195 | fails without a trace unless the tenant exists and the row is active; else revokes it and mints its copy |
| `AgentTokens.TokenDb.ReplaceActiveApiToken` | src/db/api-tokens.ts:212-233 | the loop and the rotation together revoke exactly the active rows of the name and mint one, or roll back |
| `AgentTokens.Issuer.Issue` | src/agent-tokens.ts:102-126 | kept without a change, or file written first and row replaced, or file written and the table as it was |
| `AgentTokens.Issuer.CheckAgentTokens` | src/agent-tokens.ts:255-274 | one row per agent, the operator's, the shared token's, and `ok` exactly when all are |
| `AgentTokens.SpecsAreApart` | src/agent-tokens.ts:63-72 | token names are apart for different agents, the operator and the shared token, and exactly the main agent and the operator get admin tokens |
| `AgentTokens.SharedIff` | src/agent-tokens.ts:265-273 | which rows the shared token gets and when they say `ok`, exactly |
| `TokenRuns.NeverTwoActive` | src/agent-tokens.ts:91-126 | any interleaving of any processes with crashes anywhere keeps at most one active row |
| `AgentTokens.MintedIs` | src/db/api-tokens.ts:212-231 | the minted row copies the active row whose hash the file held, else it is new for the subject; every other row keeps its place and data, the active ones of the name revoked |
| `TokenRuns.OneAfterReplace` | src/db/api-tokens.ts:212-233 | a committed replacement leaves exactly one active row from its clock reading on |
| `TokenRuns.CompletionStep` | src/agent-tokens.ts:102-126 | the end of a call made alone: a mint makes file and row agree whatever was active before, a `kept` writes nothing |
| `TokenRuns.CompletionAgrees` | src/agent-tokens.ts:91-126 | serialized runs with crashes: every completed call leaves exactly one active row, and its hash is the file's |
| `TokenRuns.NextIsKept` | src/agent-tokens.ts:107-113 | then the next unrotated call is `kept` and changes nothing |
| `TokenRuns.AgreedLasts` | src/db/api-tokens.ts:146-152 | the agreement lasts exactly as long as the row's expiry, for good for a minted row |
| `TokenRuns.ReissueRepairs` | src/agent-tokens.ts:102-126 | a call that mints repairs whatever a crash or an overlap left |
| `TokenRuns.CrashStrands` | src/agent-tokens.ts:115-125 | dying after the file write leaves a file no row knows, which the next call replaces; rows active before stay active and unheld |
| `TokenRuns.CrashStrandsIff` | src/agent-tokens.ts:102-126 | a call that dies anywhere else leaves file and rows as they were; it strands an active row exactly if it dies after the file write with a row active |
| `TokenRuns.CheckOkIff` | src/agent-tokens.ts:231-244 | the check says `ok` exactly when the file holds the sole active row and that row has the expected role and agent |
| `AgentTokens.CheckIs` | src/agent-tokens.ts:231-244 | which of the six answers the check gives, by the one row the file's hash belongs to |
| `TokenRuns.CallCuresIff` | src/agent-tokens.ts:102-126 | a call made alone and not failing ends in `ok` exactly when the file held no active row of the name, or one with the right role and agent that is the only active one or is rotated |
| `TokenRuns.WrongRoleStays` | src/db/api-tokens.ts:178-195 | neither keeping nor rotating cures the wrong role of the row the file holds |
| `TokenRuns.CommitAgreesIff` | src/agent-tokens.ts:79-86 | in any interleaving a commit leaves file and row agreeing exactly if nobody wrote the file after the committer |
| `TokenRuns.OverlapDisagrees` | src/agent-tokens.ts:79-86 | two unserialized processes can both complete and leave the file of one with the active row of the other |
| `UsageAlerts.RefireIsThrottle` | scripts/usage-collect.py:656-679 | the refiring kinds decide alike at all times exactly on entries where active and last_fired agree |
| `UsageAlerts.AlertState.ShouldFire` | scripts/usage-collect.py:656-679 | decision and new entry of one call |
| `UsageAlerts.AlertState.ComputeAlerts` | scripts/usage-collect.py:682-760 | the loop with its early exits is the fold that judges near, over and under for each window |
| `PaceVerdicts.JudgedIff` | scripts/usage-collect.py:165-190 | a window is judged exactly when percent, reset time and a length are there, for underuse only from a day on |
| `PaceVerdicts.NearIff` | scripts/usage-collect.py:720-722 | nearly exhausted is 92 percent used |
| `PaceVerdicts.OverusedIff` | scripts/usage-collect.py:734-742 | overuse in percent and seconds: percent times length at least 150 times the seconds elapsed, these at least 15 hundredths of the window, and past the reset the use outruns the extra time too |
| `PaceVerdicts.UnderusedIff` | scripts/usage-collect.py:750-752 | underuse in percent and seconds: percent times length at most 50 times the seconds elapsed, these at least 15 hundredths of a window of a day or more |
| `AlertRuns.ProjectionIff` | scripts/usage-collect.py:165-214 | in an unexpired window the projected exhaustion precedes the reset exactly when the pace is above one |
| `AlertRuns.OverIff` | scripts/usage-collect.py:734-742 | exactly when overuse is signalled, in unexpired and expired windows |
| `AlertRuns.SnapshotEffect` | scripts/usage-collect.py:708-758 | a snapshot calls the gate of each key at most once, with its own scope's condition |
| `AlertRuns.RunConsistent` | scripts/usage-collect.py:656-679 | from an empty state file active holds exactly when last_fired is set, for every key in every run |
| `AlertRuns.EpisodeAlertsApart` | scripts/usage-collect.py:656-679 | within an episode two alerts of a kind are at least its gap apart, from any state and by any clock |
| `AlertRuns.AlertedIff` | scripts/usage-collect.py:656-679 | an alert is raised exactly when its condition is judged true and recorded and no alert of the episode lies less than the gap back |
| `AlertRuns.NeverSilentLong` | scripts/usage-collect.py:656-679 | whenever a condition is judged true and recorded, an alert of this episode was decided less than the gap ago or is now, and it is the last one |
| `AlertRuns.PrintedIff` | scripts/usage-collect.py:780-786 | an alert gets out exactly when its run decided it, saved, and lived that far down its list |
| `AlertRuns.HeardIff` | scripts/usage-collect.py:780-786 | over runs that fail to save, or save and die while printing: such a condition was printed within the gap exactly when the last alert decided in its episode was printed |
| `AlertRuns.Collector.Run` | scripts/usage-collect.py:780-786 | one run over the state file: load, decide, save, then print as many alerts as it lives to |
| `Nudges.Partition` | scripts/blackboard-hygiene.py:441-471 | the loops compute the four lists from one group per agent |
| `Nudges.GroupsDisjoint` | scripts/blackboard-hygiene.py:441-471 | no agent is in two groups |
| `Nudges.GroupIff` | scripts/blackboard-hygiene.py:184-246 | exactly which agents are nudged, why, and which are held back, in row states and seconds |
| `Nudges.OneNudgeEach` | scripts/blackboard-hygiene.py:471 | no agent is nudged twice in a round or both nudged and held |
| `NudgeCounters.NextCounters` | scripts/blackboard-hygiene.py:248-266 | the loops leave for every agent the counter it should have, and list the escalated ones in order |
| `NudgeCounters.AdvanceIs` | scripts/blackboard-hygiene.py:248-266 | that describes exactly one map |
| `NudgeCounters.CounterIs` | scripts/blackboard-hygiene.py:248-266 | a stored counter is the number of nudged rounds of the current stretch modulo the threshold, zero not stored |
| `NudgeCounters.CountersInRange` | scripts/blackboard-hygiene.py:248-266 | stored counters stay in 1..ESCALATE_AT-1 |
| `NudgeCounters.EscalatedIff` | scripts/blackboard-hygiene.py:248-266 | an agent is escalated exactly at every ESCALATE_AT-th nudged round since its last round neither nudged nor held |
| `NudgeCounters.EscalationsSpaced` | scripts/blackboard-hygiene.py:248-266 | over rounds whose counters are kept, two escalations without improvement have a positive multiple of ESCALATE_AT nudging rounds between them |
| `HygieneRuns.CountersAreSaved` | scripts/blackboard-hygiene.py:475-520 | in runs of the monitor with any wake gaps, dry runs and failed writes the counters are those of the saved rounds |
| `HygieneRuns.MonitorEscalatedIff` | scripts/blackboard-hygiene.py:475-520 | a sweep that sends escalates an agent exactly at each ESCALATE_AT-th nudging round of its stretch, counting this one and the saved ones before it |
| `HygieneRuns.MonitorEscalationsSpaced` | scripts/blackboard-hygiene.py:475-520 | after an escalation whose counters were saved the next one is a multiple of ESCALATE_AT counted nudging rounds away |
| `HygieneRuns.EscalatedAgainIff` | scripts/blackboard-hygiene.py:503-520 | an escalated agent nudged in the next round is escalated again exactly when the counters of the first were not saved |
| `HygieneRuns.OwnerToldIff` | scripts/blackboard-hygiene.py:503-520 | word of an agent reaches the owner exactly in a sweep that sends, nudges it for the ESCALATE_AT-th counted time of its stretch (or a multiple) and whose word gets out |
| `HygieneRuns.SendsIff` | scripts/blackboard-hygiene.py:420-437 | a sweep sends exactly when it is no dry run and the last recorded sweep lies at most 75 minutes back |
| `HygieneRuns.LostWordIff` | scripts/blackboard-hygiene.py:503-520 | a word that did not get out is made up for in the next nudging round exactly when the counters were not saved either and that word gets out |
| `HygieneSweep.Monitor.Run` | scripts/blackboard-hygiene.py:415-520 | messages that get out, their failures counted, and state written by one sweep, with wake guard, dry run, failing sends and failing writes |
| `HygieneSweep.OutboxIsRight` | scripts/blackboard-hygiene.py:471-512 | who is nudged and why, agent by agent, and that escalations go with a nudge for the same reason |
| `HygieneRuns.NudgesAreSpaced` | scripts/blackboard-hygiene.py:212-224 | two nudges that got out to one agent, the second under the hold, are at least the cooldown apart unless the row was updated after the first or the first is no longer listed, and the longer hold while one is undelivered |

## Left out

- The rest of the `formatForTelegram` pipeline (`src/format.ts:78-114`): its other passes are plain regex replacements whose nested placeholders have no clean invariant.
- UTF-16 surrogates, Unicode normalisation, message wording and log lines.
- Floating-point rounding: milliseconds, percentages and the 1.25 factor are reals, `0.3 * limit` is compared exactly.
- HTTP, SQLite, tmux, `ps` and the file system appear only as arguments and as the contracts their callers rely on (insert-if-absent, atomic transaction, exclusive lock, atomic rename); file modes are not modelled.
- `contextLimitForModel` and the reason strings of the guard beyond which tier produced them; of the guard's runner only the sweep order, the sleep correction and the daily schedule are modelled, so a restart or prompt that fails and is rolled back is not.
- The one-time bootstrap of an unversioned database and `applyAddColumnsTolerantly` (`src/db-migrations.ts:91-152`): the runs start after it, a script either applies as a whole or fails.
- SHA-256: a migration file carries its checksum, a token is its hash and a draw is never a hash seen before.
- The report of `describeSchema` holds recorded versions as sets where the source has ascending lists.
- `builds_message`, the call pattern and the file walk of the ratchet: which argument the decision is asked about, and counting.
- MessageGrammar.FixedIff: its expressions are written with single spaces around binary operators and none elsewhere; blanks are stripped in the decision (see Padded) but the grammar does not vary them. A sum that ends in a plus, which no program holds, is left out.
- The order of `listActiveApiTokensByName`: rows are listed in table order, which is indistinguishable since hashes are unique.
- `rotateSharedToken`, the start-up enrolment of the dashboard token and the archive age check: the same replacement for one more name.
- An `.env` key spelled `__proto__`, which a JavaScript object does not store; `CLAUDECLAW_ENV_DIR`.
- `normalizeGateConfig`: fractional settings below one floor to zero, so positive periods are assumed where a lemma needs them.
- The coordinator's signal handlers, back-off times, fatal exit and single-instance lock; the ingest module is its insert, hand-off and replay contract.
- The window sources of the usage collector; scopes of one snapshot are distinct, as the keys of its dictionaries are.
- SplitMessage.Split: states nothing for limit 0, where the loop ends on white space only (see LoopEndsIff).
- Coordinator.NoDoubleHandoff: a run is the life of one process; one that dies in the middle of a batch leaves the store of a shorter batch, from which the next run starts, its unmarked message one that LiveMessages.TwoLiveIff finds unpointed.
- GuardRuns.SleepChangesNoRun: the two runs see the same session but for the moved stamps; a session that would have acted differently for the lost time is another run.
- Coordinator.ReplayIsExact: a message the router failed and the agent answers all the same stays lost (`src/db/agents.ts:307`).
- AgentTokens.Issuer.Issue: runs alone; overlapping calls are the steps of TokenRuns.
