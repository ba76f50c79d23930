# Murrmure: verified models of the hub, the bridge and the executors

Murrmure is a local hub that runs workflows shared by people and agents. This project models the parts of it that hold real algorithms or state machines and proves what they promise. `dafny verify dfyconfig.toml` checks everything.

Each loop of the program is a method with a loop, and each object that changes in place is a class; both are proved against functions on values, and the theorems are about those functions, or about every run of a state machine whose steps they are. Work that the program awaits is cut at the awaits, so that other steps may come in between.

## What is modelled

**Shell templates** (`ShellTokenizer`, `ShellResolver`, `TemplateKeys`, `ShellReading`, `ScriptMeaning`). The quote-aware tokenizer, the resolver that turns a template and bindings into a script, and the collector of placeholder keys. The resolver is treated as a compiler: the script tokenizes back to the template's tokens with every placeholder replaced by one quoted value. `Resolution` says, by the tokens and the bindings alone, which tokens stay, what stands for each, and which error is reported. A reader of the Shell Command Language (POSIX.1-2017, sections 2.2.1 to 2.2.3 and 2.6.7) reads it as the template with literal values exactly when the template leaves the shell outside quotes at every placeholder (`ScriptMeansTemplateIff`); `ValueInsideQuotes` is a template that resolves and does not. The reason is that tokenizer and shell quote differently in one case, a double-quoted string that ends in an escaped backslash: the shell closes the string there, the tokenizer does not. For quoting this is the only case (`AgreementIff`); comments, which also hide quotes from the shell, are not part of the reader. A stripped and trimmed script loses an escaped space at its end (`StrippingLosesEscapedSpace`), and the collector misses keys written with a backslash (`CollectedIffWrittenOut`).

**Upload intents** (`UploadIntents`, `UploadQuota`, `UploadLifecycle`, `UploadIssue`, `UploadAdmission`, `UploadService`, `UploadRaces`). Issue calls queue on a promise tail; accepts, prepares, consumes and abandons take no lock and run between their awaits. The load of a run or space counts, path by path, what is stored or may be put back by a staged file, and every declared file still to be staged. `NeverOversold` says that the load stays under every ceiling, together with what the issue calls rely on, exactly as long as each file staged is safe. Files of intents on record always are (`OwnStageIsSafe`). A prepare that is in flight when its intent is abandoned stages regardless: whether that breaks a ceiling depends on the number in `StageKeepsQuotasIff`, and `OrphanOversells` is a run from the start that leaves more bytes on disk than the ceiling allows. Which calls are admitted is stated by what the intent was issued for and what the call brings (`EveryCallIsAnswered`, `BeginAcceptIff`, `BeginPrepareIff`), and over every run: whatever is uploaded, prepared or staged was brought or asked for by the intent's own actor and token while it was open (`UploadedByOwner`, `PreparedByOwner`). An accepted file keeps its hash exactly until an overlapping accept of the same file brings another one (`KeepsFileIff`, `OverlappingAcceptsReplace`).

**Control messages** (`ControlMessages`, `ControlBus`, `WakeCoalescing`, `WakeSeats`, `HandshakeDelivery`). The hub's numbered outboxes, the handshake route (`packages/hub-daemon/src/routes/mcp/index.ts:22-67`), the bridge's acknowledgement cursor, restart detection on both sides, and the merging of wake-ups: `WakeSeats` says by the fields of the messages which fall together and what stands for them. `RestartDeliversAllIff` says exactly when a restart loses messages, and `RestartLosesMessage` is such a run.

**Live meeting seats** (`LiveSeats`, `LiveSeatRuns`, `LiveDelivery`, `LiveOrder`, `LiveAssignments`). Seats, backlogs and archives; two routes to a seat; no message twice and none lost. Messages may change their order: what a participant was given, followed by what waits for it, is what it was notified of exactly as long as no step hands over a row while an earlier one has to wait (`OrderIff`). That happens in three ways: a start brings a principal over a backlog (`StartLetsLaterOvertake`, `DrainedStep`), a message without a prompt waits while the next one is typed (`MissingPromptIsOvertaken`), and a terminal is attached over such a message (`AttachReorders`).

**Processes and terminals** (`PersistentSession`, `SessionClose`, `DetachedCommand`, `ShellProcesses`). The closures around a child process as machines over their events, in any order of timers. What a close does and what the exit reports depends on the first close only (`CloseDoes`, `ReportsFirstReason`). A turn that is taken up while the terminal refuses it is gone (`TurnsTypedIff`, `RefusedTurnIsLost`). The boot timer of a terminal is not stopped by the first output, so that two turns can be typed without an Enter between them: `OrderlyStep` gives the exact condition, `BootTimerRunsTurnsTogether` an instance.

**Store-level algorithms** (`MeetingJournal`, `MeetingPolling`, `ReaderGrants`, `ReaderSync`, `BankAccess`, `FlowIndex`, `TagGrants`). The meeting transcript and its cursor; memory readers and who may read a bank; the secondary flow index; tag grants. An append to a meeting takes its number, inserts its row and stamps it in three steps. `CaughtUpIff` says that a polling reader has seen the whole transcript up to its cursor exactly when no row was stamped at or below the cursor; a row that was is never returned, as in `OvertakenAppendIsMissed`.

**Smaller loops** (`BranchValidator`, `BranchRules`, `BranchContract`, `JsonPointer`, `InvokeQueue`, `PrivateEnv`, `EnvRoundTrip`, `EnvReading`). The branch-contract validator against a declarative contract, the invoke retry queue under overlapping flushes, and the env-file parser with a round trip for every map.

`JsText`, `Selections`, `SpaceIds` and `Wrappers` hold what several components share.

## Model

| member | source | states |
|---|---|---|
| ShellTokenizer.TokenizeShellCommand | packages/executors/src/shell-command.ts:66-165 | the loop computes the token list of the character machine |
| ShellTokenizer.JoinTokenize | packages/executors/src/shell-command.ts:66-165 | joining separators and raw texts gives the command back, except for trailing white space and a final lone backslash after white space |
| ShellTokenizer.TokenizeJoin | packages/executors/src/shell-command.ts:66-165 | any well-formed token list is what tokenizing its text returns |
| ShellResolver.AssertHandlerTemplateGrammar | packages/executors/src/shell-command.ts:279-302 | accepts exactly the templates all of whose tokens obey the grammar, and reports the first that does not |
| ShellResolver.GrammarErrorIff | packages/executors/src/shell-command.ts:279-302 | a token is at fault exactly where a placeholder in it is quoted, or is not the whole argument |
| ShellResolver.ResolveSafeShellCommand | packages/executors/src/shell-command.ts:193-273 | a failure names the first offending token and how it offends; otherwise the script has, in order, exactly the template's tokens, each placeholder replaced by its quoted value, but for the prompts when these are to be stripped, and says whether one was |
| ShellResolver.SubstitutedAnswers | packages/executors/src/shell-command.ts:193-273 | the same for the tokens: which stay, what stands for each, and which error is reported, for every template, bindings and options |
| ShellResolver.ResolvesIff | packages/executors/src/shell-command.ts:193-302 | resolution succeeds exactly when the grammar check accepts the template and every placeholder key is the prompt or bound to a value |
| ShellResolver.QuotedTokenGenuine | packages/executors/src/shell-command.ts:34-37 | a quoted value, whatever it holds, is one closed token with one quoted segment, the value |
| ShellResolver.ScriptTokens | packages/executors/src/shell-command.ts:193-273 | without prompt stripping the script tokenizes to the template's tokens, same separators, each placeholder one quoted segment with the value, all others untouched |
| ShellResolver.PlainTemplate | packages/executors/src/shell-command.ts:193-209 | a template without placeholders resolves to itself up to the dropped tail |
| ShellResolver.StrippedScriptTokens | packages/executors/src/shell-command.ts:240-242 | a trimmed script tokenizes to the tokens that stay exactly when the last of them does not itself end in white space |
| TemplateKeys.StrippingLosesEscapedSpace | packages/executors/src/shell-command.ts:240-242 | a template whose last kept token ends in an escaped space, which trimming takes |
| TemplateKeys.CollectTemplatePlaceholderKeys | packages/executors/src/shell-command.ts:305-311 | returns every placeholder key that occurs in the text, once, in the order of first occurrence |
| TemplateKeys.NoOverlap | packages/executors/src/shell-command.ts:305-311 | placeholder matches do not overlap, so that the scan misses none |
| TemplateKeys.CollectedIffWrittenOut | packages/executors/src/shell-command.ts:246-311 | for every accepted template a key is collected exactly when a placeholder token has it written out, without backslashes |
| TemplateKeys.CollectedKeysAreTokenKeys | packages/executors/src/shell-command.ts:246-311 | so for accepted backslash-free templates the collected keys are exactly the ones resolution looks up |
| ShellReading.QuotedValueReads | packages/executors/src/shell-command.ts:34-37 | the shell reads a quoted value as that value, literally, as a field even when empty |
| ShellReading.AgreementIff | packages/executors/src/shell-command.ts:66-165 | tokenizer and shell agree on what is quoted, everywhere, exactly when no double-quoted string ends in an escaped backslash |
| ScriptMeaning.ScriptMeansTemplateIff | packages/executors/src/shell-command.ts:193-273 | the shell reads the resolved script as the template with literal values, whatever the values are, exactly when the template leaves it outside quotes at every placeholder |
| ScriptMeaning.AgreementSuffices | packages/executors/src/shell-command.ts:66-165 | it is enough that no double-quoted string of the template ends in an escaped backslash |
| ScriptMeaning.ValueInsideQuotes | packages/executors/src/shell-command.ts:66-165 | a template that resolves while the shell is inside a double-quoted string where the value goes |
| UploadIntents.LockedEffect | packages/hub-daemon/src/upload-intent-service.ts:100-162 | a step of a locked issue call moves its own call only, and touches records and index only when it commits |
| UploadIssue.EveryCallIsAnswered | packages/hub-daemon/src/upload-intent-service.ts:114-129 | in every run a known request for the same branch, space and files gets its intent, one known otherwise is refused, and a new one goes on exactly when its files are small enough |
| UploadIssue.ReservedIsDeclared | packages/hub-daemon/src/upload-intent-service.ts:130-147 | what the checks count as reserved is exactly what the intents on record of the run, or of the space, declare |
| UploadIssue.RunCheckIff | packages/hub-daemon/src/upload-intent-service.ts:130-139 | the first check lets a call pass exactly when found, reserved and asked bytes fit under 250 MiB |
| UploadIssue.SpaceCheckIff | packages/hub-daemon/src/upload-intent-service.ts:140-162 | the second check issues the intent, new and empty, exactly when they fit under 2 GiB |
| UploadIssue.PrepareCheckIff | packages/hub-daemon/src/upload-intent-service.ts:262-279 | a prepare gets to stage exactly when what it finds and what was reserved when it began fit under both ceilings |
| UploadIssue.AlwaysSmall | packages/hub-daemon/src/upload-intent-service.ts:123-129 | in every run no intent on record asks for more than 25 MiB in a file or 50 MiB in all |
| UploadQuota.Accounting | packages/hub-daemon/src/upload-intent-service.ts:122-150 | what is stored and still to be staged is at most the bytes that stayed put since the snapshot plus what the snapshot reserves |
| UploadQuota.CheckGivesRoom | packages/hub-daemon/src/upload-intent-service.ts:122-150 | a check that passes leaves room for the new intent although files came and went during its directory walk |
| UploadQuota.NeverOversold | packages/hub-daemon/src/upload-intent-service.ts:100-335 | in every run, issue calls are served one at a time in arrival order and stored plus unstaged bytes fit under every ceiling, exactly as long as every file staged is safe |
| UploadQuota.StageKeepsQuotasIff | packages/hub-daemon/src/upload-intent-service.ts:280-299 | staging a file, of an intent on record or not, keeps the quotas exactly when the load with the file in place fits under the ceilings of its run and its space |
| UploadQuota.StageIff | packages/hub-daemon/src/upload-intent-service.ts:280-299 | it keeps the whole invariant exactly when it also stays within what the issue call under way has counted |
| UploadQuota.OwnIntentsNeverOversell | packages/hub-daemon/src/upload-intent-service.ts:100-335 | in every run that stages only for intents on record, stored bytes plus all bytes still to be staged fit under every ceiling |
| UploadQuota.StoredPlusUnstaged | packages/hub-daemon/src/upload-intent-service.ts:242-335 | the load is at least the stored bytes plus those of every declared file not yet staged, files that share a path included |
| UploadQuota.AnyStagingIsWithinLoad | packages/hub-daemon/src/upload-intent-service.ts:242-335 | whichever intents on record are staged and whatever is deleted, a directory never comes to hold more than the load |
| UploadRaces.OrphanOversells | packages/hub-daemon/src/upload-intent-service.ts:242-335 | a run from the start in which staging for an abandoned intent leaves more bytes on disk than the ceiling of the run directory |
| UploadLifecycle.AlwaysAgree | packages/hub-daemon/src/upload-intent-service.ts:114-162 | records and idempotency index stay in one-to-one agreement in every run |
| UploadLifecycle.ReissueReturnsSame | packages/hub-daemon/src/upload-intent-service.ts:115-121 | an identical re-issue returns the same intent and reserves nothing |
| UploadLifecycle.OnlyForward | packages/hub-daemon/src/upload-intent-service.ts:242-335 | an intent moves from open to prepared to removed only, and keeps what it was issued for |
| UploadLifecycle.AcceptedAsDeclared | packages/hub-daemon/src/upload-intent-service.ts:164-197 | in every run what has been accepted has the declared size and a hash |
| UploadAdmission.BeginAcceptIff | packages/hub-daemon/src/upload-intent-service.ts:164-189 | an accept starts exactly when the caller is the one the intent was issued to, it is open and its lease runs, and the call brings a missing declared file in its size; a repetition renews the lease; anything else changes nothing |
| UploadAdmission.AcceptCodes | packages/hub-daemon/src/upload-intent-service.ts:164-189 | which code each refused accept gets |
| UploadAdmission.OpenCodes | packages/hub-daemon/src/upload-intent-service.ts:350-364 | which code a caller gets for an intent that is not there, not its own, not open or expired |
| UploadAdmission.BeginPrepareIff | packages/hub-daemon/src/upload-intent-service.ts:242-266 | a prepare starts exactly when, besides, run, step, branch and key are the issued ones and no file is missing |
| UploadAdmission.PrepareCodes | packages/hub-daemon/src/upload-intent-service.ts:242-261 | which code each refused prepare gets |
| UploadAdmission.UploadedByOwner | packages/hub-daemon/src/upload-intent-service.ts:164-197 | in every run whatever counts as uploaded was brought by the intent's actor with its token, in the declared size, while it was open, and the recorded hash is that of those bytes |
| UploadAdmission.PreparedByOwner | packages/hub-daemon/src/upload-intent-service.ts:242-304 | in every run what is being prepared, has been prepared or has been staged was asked for by a call with the intent's actor, token, run, step, branch and key, with no file missing |
| UploadAdmission.PreparedIsStaged | packages/hub-daemon/src/upload-intent-service.ts:280-304 | in every run an intent counts as prepared only when each of its files has been staged |
| UploadLifecycle.CommitAcceptKeeps | packages/hub-daemon/src/upload-intent-service.ts:164-197 | an accept that takes effect leaves a file of any intent alone exactly when it does not bring another hash for that very file, already accepted |
| UploadLifecycle.KeepsFileIff | packages/hub-daemon/src/upload-intent-service.ts:164-335 | the same for every step of the service, as long as the intent stays on record |
| UploadLifecycle.AcceptedFilesNeverChange | packages/hub-daemon/src/upload-intent-service.ts:164-197 | in every run an accepted file keeps its hash and size as long as no accept replaces that file |
| UploadLifecycle.OverlapChangesHash | packages/hub-daemon/src/upload-intent-service.ts:164-197 | two overlapping accepts of a file replace its hash |
| UploadRaces.OverlappingAcceptsReplace | packages/hub-daemon/src/upload-intent-service.ts:164-197 | a run from the start in which that happens |
| UploadLifecycle.SweepLeavesNoneExpired | packages/hub-daemon/src/upload-intent-service.ts:337-348 | after a sweep at a time no intent on record counts as expired at that time, whatever ran in between |
| UploadService.UploadIntentService.EnterLocked | packages/hub-daemon/src/upload-intent-service.ts:114-129 | the checks before the first directory walk take the transition of the model |
| UploadService.UploadIntentService.SweepExpired | packages/hub-daemon/src/upload-intent-service.ts:337-348 | an uninterrupted sweep removes exactly the expired intents and keeps the agreement with the index |
| ControlBus.Bus.PurgeExpired | packages/hub-daemon/src/control-bus.ts:86-94 | exactly the outboxes that have not expired remain |
| ControlBus.Bus.Publish | packages/hub-daemon/src/control-bus.ts:96-107 | the message is numbered one above its outbox and appended; other outboxes only expire |
| ControlBus.Bus.Drain | packages/hub-daemon/src/control-bus.ts:109-115 | returns the messages of the outbox beyond a number |
| ControlBus.HandshakeDrainCursor | packages/hub-daemon/src/control-bus.ts:70-74 | a number the hub can have given is kept; a missing one, or one outside 0 to its counter, starts from zero |
| ControlBus.Bus.Handshake | packages/hub-daemon/src/routes/mcp/index.ts:22-67 | publishes the ack and returns everything behind the client's number |
| WakeCoalescing.CoalesceMeetingSaidMessages | packages/mcp-bridge/src/wake-relay.ts:67-109 | the loop that overwrites slots computes the coalesced messages |
| WakeCoalescing.EarliestCursorIsMinimum | packages/mcp-bridge/src/wake-relay.ts:38-42 | the merged cursor is the smallest valid one, and missing exactly when all are |
| WakeCoalescing.MergedMeans | packages/mcp-bridge/src/wake-relay.ts:67-109 | what stands for a group has its seat, last number, last message, smallest cursor and size |
| WakeCoalescing.OneMessagePerSeat | packages/mcp-bridge/src/wake-relay.ts:67-109 | each seat gets exactly one message, at the place of its first |
| WakeSeats.FallTogetherIff | packages/mcp-bridge/src/wake-relay.ts:29-36 | two messages fall together exactly when both are said notifications whose session, participant and handler are texts, not blank, and the same |
| WakeSeats.EveryAddressOnce | packages/mcp-bridge/src/wake-relay.ts:67-109 | every session, participant and handler that a said notification names has exactly one message in the output, which stands for all of them: the last one, with their number, their smallest cursor and the prompt reworded accordingly |
| WakeSeats.PlacesKept | packages/mcp-bridge/src/wake-relay.ts:67-109 | the output has, in order, a message for exactly the messages that have no such address, unchanged, or are the first for theirs |
| WakeCoalescing.OthersSurvive | packages/mcp-bridge/src/wake-relay.ts:67-109 | messages for no seat stay, in order |
| WakeCoalescing.CoalescingIsIdempotent | packages/mcp-bridge/src/wake-relay.ts:67-109 | coalescing twice is coalescing once |
| WakeCoalescing.CoalescingKeepsMaxSeq | packages/mcp-bridge/src/wake-relay.ts:67-109 | for ascending input the largest number survives |
| HandshakeDelivery.CompletePoll | packages/mcp-bridge/src/main.ts:388-463 | one poll handles the coalesced messages beyond its base and moves the cursor to the maximum |
| HandshakeDelivery.CompleteDoes | packages/mcp-bridge/src/main.ts:388-463 | whatever a poll brings, the bridge acts on the coalesced messages beyond its base, which is zero exactly after a restart it can see, and its number becomes the largest there is |
| HandshakeDelivery.DeliversExactlyAPrefix | packages/mcp-bridge/src/main.ts:388-463 | whatever is published and whichever responses are lost, the messages accounted for are exactly the outbox up to the cursor |
| HandshakeDelivery.CompletedPollCatchesUp | packages/mcp-bridge/src/main.ts:388-463 | a completed poll reaches everything published before it |
| HandshakeDelivery.ActsOnEveryCoalescedMessage | packages/mcp-bridge/src/main.ts:388-463 | the skip rule drops none of the coalesced messages |
| HandshakeDelivery.RestartDeliversAllIff | packages/mcp-bridge/src/main.ts:388-463 | after a restart hub and bridge both start over and everything new is delivered exactly when the counter had not caught up with the old number at the first completed poll; otherwise exactly the first messages up to that number are missing |
| HandshakeDelivery.RestartLosesMessage | packages/mcp-bridge/src/main.ts:388-463 | a run in which the counter has caught up and a message is lost although the bridge notices the restart |
| LiveSeats.StepCounts | packages/hub-daemon/src/live-assignments.ts:120-271 | a step delivers a message to a seat exactly when it enters the seat's told set, and then once |
| LiveSeats.StepKeepsInHand | packages/hub-daemon/src/live-assignments.ts:120-271 | no step but a revoke makes a told or pending message disappear, and none appears unasked |
| LiveSeats.FlushHandsOverAll | packages/hub-daemon/src/live-assignments.ts:230-245 | a seat with a principal gets its untold backlog, in queue order |
| LiveSeatRuns.ToldIsExact | packages/hub-daemon/src/live-assignments.ts:120-271 | over one incarnation deliveries and told set account for each other exactly |
| LiveSeatRuns.DeliveredAtMostOnce | packages/hub-daemon/src/live-assignments.ts:158-179 | a seat incarnation receives each message id at most once |
| LiveSeatRuns.NothingLost | packages/hub-daemon/src/live-assignments.ts:158-245 | until its participant is revoked, every notified message is told or pending |
| LiveSeatRuns.BindHandsOverBacklog | packages/hub-daemon/src/live-assignments.ts:54-57 | in every run a bind to a seat of the same space, written with or without prefix, makes the principal the seat's and hands over the backlog in order; a bind to any other seat, or none, changes and delivers nothing |
| LiveDelivery.SameSeatIff | packages/hub-daemon/src/live-assignments.ts:46-52 | two calls speak of one seat exactly when they name the same participant of the same session, with or without prefix |
| LiveDelivery.NotifyDoes | packages/hub-daemon/src/live-assignments.ts:158-179 | nothing for a message told before; otherwise it is typed where that can be done, posted to the principal where one is, and queued once where neither is |
| LiveDelivery.StartDoes | packages/hub-daemon/src/live-assignments.ts:120-142 | run and handler are the new ones, principal and space change only where the start brings some, terminal, told messages and cursor stay |
| LiveDelivery.HandOverDoes | packages/hub-daemon/src/live-assignments.ts:144-156 | attaching a terminal or binding a principal sends each message of the backlog the way the seat then allows, and changes only this seat and its backlog |
| LiveSeatRuns.DrainedStep | packages/hub-daemon/src/live-assignments.ts:120-179 | seats with a principal keep an empty backlog exactly until a start brings a principal over one |
| LiveSeatRuns.StartLetsLaterOvertake | packages/hub-daemon/src/live-assignments.ts:120-142 | a run in which a later message overtakes an earlier one because of a start |
| LiveOrder.OrderStep | packages/hub-daemon/src/live-assignments.ts:120-271 | a step keeps what was given and what waits in the order of the notifications exactly when it hands over no row while an earlier one has to wait |
| LiveOrder.OrderIff | packages/hub-daemon/src/live-assignments.ts:120-271 | the same over every run, from a moment with nothing in hand until the participant is revoked |
| LiveOrder.MissingPromptIsOvertaken | packages/hub-daemon/src/live-assignments.ts:158-271 | a run in which a message without a prompt is overtaken, with no start over a backlog |
| LiveOrder.AttachReorders | packages/hub-daemon/src/live-assignments.ts:144-156 | attaching a terminal over a backlog types a later message and leaves an earlier one waiting |
| LiveSeatRuns.RevokeTakesExactly | packages/hub-daemon/src/live-assignments.ts:181-216 | the seat, backlog and archive of every participant after a revoke: those named are archived and gone, all others as they were; a session-wide one leaves the backlogs of participants without a seat |
| LiveAssignments.InMemoryLiveAssignments.Notify | packages/hub-daemon/src/live-assignments.ts:158-179 | the call takes the step of the model, tables and deliveries alike |
| LiveAssignments.InMemoryLiveAssignments.FlushPending | packages/hub-daemon/src/live-assignments.ts:230-245 | the loop hands over the backlog as specified and puts the rest back |
| LiveAssignments.InMemoryLiveAssignments.Revoke | packages/hub-daemon/src/live-assignments.ts:181-216 | takes the step of the model and closes exactly the controllers of the seats it removes |
| PersistentSession.TurnsAreConserved | packages/executors/src/shell-spawn.ts:919-978 | in every event order turns accepted are turns taken up, typed or refused, followed by turns queued, and an open session is idle only with an empty queue |
| PersistentSession.AllTypedStep | packages/executors/src/shell-spawn.ts:919-958 | every turn taken up stays typed exactly through the steps that take up none while the terminal refuses it |
| PersistentSession.TurnsTypedIff | packages/executors/src/shell-spawn.ts:919-978 | in every run turns accepted are turns typed followed by turns queued if and only if no turn was taken up while the terminal refused it |
| PersistentSession.RefusedTurnIsLost | packages/executors/src/shell-spawn.ts:926-930 | a run that loses a turn while the session stays open |
| PersistentSession.SignalsInOrder | packages/executors/src/shell-spawn.ts:979-1051 | SIGTERM before SIGKILL, each at most once, only after a close, never after the exit; one completion, at the exit |
| PersistentSession.NothingAfterTheEnd | packages/executors/src/shell-spawn.ts:919-1051 | nothing is typed, taken in or taken up once the session is closing or has exited |
| PersistentSession.TailIsEndOfOutput | packages/executors/src/shell-spawn.ts:1011-1023 | the tail is always the last 256000 characters of the whole output |
| PersistentSession.OrderlyStep | packages/executors/src/shell-spawn.ts:919-958 | every turn gets its own Enter before the next turn exactly as long as no turn is typed over an armed Enter and no Enter fails |
| PersistentSession.EveryTurnGetsItsEnterIff | packages/executors/src/shell-spawn.ts:919-958 | the same over every run of an open session, both ways |
| PersistentSession.BootTimerRunsTurnsTogether | packages/executors/src/shell-spawn.ts:1064 | the boot timer can type a turn over another one's Enter |
| ShellProcesses.PersistentShell.Write | packages/executors/src/shell-spawn.ts:965-971 | queues and perhaps types the trimmed text as the machine does |
| SessionClose.CloseDoes | packages/executors/src/shell-spawn.ts:979-1006 | in every run the first close of an open session sends SIGTERM in its own step exactly for the three urgent reasons, and otherwise types Ctrl-D if that is taken and arms the grace timer; its reason is the one given, trimmed, unless that is missing or blank |
| SessionClose.ReportsFirstReason | packages/executors/src/shell-spawn.ts:1025-1040 | the exit of a closed session reports the reason of its first close |
| SessionClose.UnaskedExitFails | packages/executors/src/shell-spawn.ts:1025-1051 | an exit that nobody asked for reports a failure with its code, signal and the last 256000 characters shown |
| SessionClose.TimersDo | packages/executors/src/shell-spawn.ts:996-1031 | in every run a grace timer that fires sends SIGTERM and arms the kill timer, that one sends SIGKILL, and the exit disarms everything |
| SessionClose.AcceptedIsWritten | packages/executors/src/shell-spawn.ts:965-971 | in every run the turns taken in are exactly the texts written to the open session, trimmed, without the blank ones |
| SessionClose.TurnsRightlyTyped | packages/executors/src/shell-spawn.ts:829-840 | in every run a turn goes into a file exactly when it has several lines or more than 240 characters |
| SessionClose.TakenUpAtRest | packages/executors/src/shell-spawn.ts:919-978 | in every run a turn is taken up only by a boot or idle timer, or by a write to a terminal that has shown nothing and was given nothing since such a timer fired |
| ShellProcesses.PersistentShell.Close | packages/executors/src/shell-spawn.ts:979-1008 | takes the step of the machine that CloseDoes speaks about |
| ShellProcesses.PersistentShell.OnExit | packages/executors/src/shell-spawn.ts:1025-1051 | clears the timers and reports once, a success exactly when a close was asked for |
| DetachedCommand.EveryRunAccounted | packages/executors/src/shell-spawn.ts:724-812 | the first of timeout, error and close settles the command; it is signalled exactly when that was the timeout, and the SIGKILL stays armed whatever follows |
| MeetingJournal.MeetingStore.SetJournalIndexMeetingSeq | packages/hub-persistence/src/memory.ts:784-787 | stamps the first row of the entry and no other |
| MeetingJournal.MeetingStore.AllocateMeetingSeq | packages/hub-persistence/src/memory.ts:815-820 | gives the next number of this meeting |
| MeetingJournal.BareAgreeIff | packages/hub-persistence/src/memory.ts:815-834 | two session ids are of one meeting exactly when they are the same up to the prefix |
| MeetingJournal.SelectSort | packages/hub-persistence/src/memory.ts:822-834 | filtering and the stable sort commute |
| MeetingJournal.TranscriptHas | packages/hub-persistence/src/memory.ts:822-834 | a query returns, ascending, exactly the stamped rows of the session, of the kinds named if any are, and beyond the cursor if there is one |
| MeetingJournal.TranscriptSplits | packages/hub-persistence/src/memory.ts:822-834 | for every cursor a query is its entries up to the cursor followed by the query from it |
| MeetingPolling.CaughtUpStep | packages/hub-core/src/meetings/journal.ts:10-35 | a caught-up reader stays so exactly through the steps that stamp nothing at or below its cursor |
| MeetingPolling.CaughtUpIff | packages/hub-core/src/meetings/journal.ts:10-35 | in every run the reader has seen exactly the transcript up to its cursor if and only if no stamp was late |
| MeetingPolling.LateIsForGood | packages/hub-core/src/meetings/journal.ts:10-35 | a row stamped late is never returned to that reader |
| MeetingPolling.OvertakenAppendIsMissed | packages/hub-core/src/meetings/journal.ts:10-35 | a run of two overlapping appends and two polls in which the reader misses the first entry |
| MeetingPolling.SerialAppendsAreNeverLate | packages/hub-core/src/meetings/journal.ts:10-35 | appends that do not overlap, such as one-step appends, are never late |
| MeetingPolling.PollsSeeEverythingOnce | packages/hub-persistence/src/memory.ts:815-834 | a poll then leaves every stamped row of the meeting seen exactly once, strictly increasing |
| ReaderGrants.GrantStore.Upsert | packages/hub-daemon/src/memory-bank-grants.ts:19-40 | adds a grant exactly when the reader has none for the bank, whoever owns it, so that no pair of reader and bank ever has two |
| ReaderGrants.GrantStore.SyncMemoryReadersFromApply | packages/hub-daemon/src/memory-bank-grants.ts:42-81 | the loops grant and revoke as specified, and return exactly the rows added and the rows taken back |
| ReaderSync.OwnerGrantsOnlyDesired | packages/hub-daemon/src/memory-bank-grants.ts:42-81 | after a sync the owner's active grants are all for the bank and for desired readers |
| ReaderSync.DesiredServedOnce | packages/hub-daemon/src/memory-bank-grants.ts:42-81 | every desired reader holds a grant and no pair of reader and bank has two |
| ReaderSync.OthersUntouched | packages/hub-daemon/src/memory-bank-grants.ts:42-81 | other owners' grants stay as they were |
| ReaderSync.SyncIsIdempotent | packages/hub-daemon/src/memory-bank-grants.ts:42-81 | a second sync changes nothing |
| ReaderSync.NoBankRevokesAll | packages/hub-daemon/src/memory-bank-grants.ts:55-61 | without a bank, or with an empty one, all active grants of the owner are revoked at that time, and only those |
| ReaderSync.ReportsTerminated | packages/hub-daemon/src/memory-bank-grants.ts:63-80 | the rows reported as revoked are exactly those that were active before and are no longer, as they are then |
| ReaderSync.SchemaNamesAreWellNamed | packages/contracts/src/ids.ts:3-12 | names that meet the id schema carry the space prefix once, as the lemmas about a sync ask |
| BankAccess.ReadsForeignIff | packages/hub-daemon/src/memory-bank-access.ts:70-139 | a foreign bank is readable exactly when an active space owns it and the reader has an active grant |
| BankAccess.ReadersAfterSync | packages/hub-daemon/src/memory-bank-access.ts:70-139 | after a sync the bank's readers are exactly the desired ones and those another owner granted it |
| BankAccess.ResolveReadableBanks | packages/hub-daemon/src/memory-bank-access.ts:36-68 | lists the own bank and every granted one, each once, with the grant and the owner it comes from |
| BankAccess.ListedIffReadable | packages/hub-daemon/src/memory-bank-access.ts:36-139 | the check allows a bank exactly when it is listed and is the own one or has an active owner, and then by the grant the list shows |
| BankAccess.ListedButRefused | packages/hub-daemon/src/memory-bank-access.ts:36-139 | a bank whose owner is no longer active is listed and refused |
| BankAccess.ReadIs | packages/hub-daemon/src/memory-bank-access.ts:70-139 | every decision on a read: the own bank to whoever names it or none, a foreign bank by the first active grant, and otherwise whether it is unknown or denied |
| BankAccess.WriteIs | packages/hub-daemon/src/memory-bank-access.ts:141-186 | every decision on a write: only the own bank, and otherwise whether it is unknown or denied |
| BankAccess.WritersRead | packages/hub-daemon/src/memory-bank-access.ts:141-186 | only the own bank is written, and it is then readable |
| FlowIndex.FlowStore.ReplaceSpaceIndex | packages/hub-persistence/src/memory.ts:403-422 | the two loops clear and refill the index as specified |
| FlowIndex.AlwaysAgrees | packages/hub-persistence/src/memory.ts:403-475 | after any replacements with flows of their own space a lookup is the last entry of the listed snapshot, in every space |
| FlowIndex.ReplaceKeepsAgreement | packages/hub-persistence/src/memory.ts:403-475 | one replacement keeps the agreement and leaves other spaces alone |
| FlowIndex.AgreesIff | packages/hub-persistence/src/memory.ts:403-475 | a replaced snapshot agrees with its index exactly when its last entry of every flow is of its own space |
| FlowIndex.AllAgreeIff | packages/hub-persistence/src/memory.ts:403-475 | a replacement keeps all snapshots in agreement exactly when, besides, what it files under other spaces is what those have themselves |
| TagGrants.RetainIff | packages/hub-daemon/src/memory-grants.ts:27-56 | an argument is accepted exactly when every text in its list, trimmed and not blank, is granted, and is kept as asked; otherwise the refusal names, in order, those that are not |
| TagGrants.ShownIff | packages/hub-daemon/src/memory-grants.ts:64-126 | a filter is accepted exactly when every tag it asks for is granted; the facts then returned are those the grant allows, or those with a tag asked for, and those without tags unless excluded |
| TagGrants.ModeIs | packages/hub-daemon/src/memory-grants.ts:64-126 | the mode that goes with a filter, asked for or by default |
| TagGrants.WrittenIsRead | packages/hub-daemon/src/memory-grants.ts:39-126 | the default read filter of a grant matches every fact whose tags it accepts |
| TagGrants.LimitedGrantShowsGranted | packages/hub-daemon/src/memory-mcp-client.ts:72-80 | any accepted filter under a limited grant shows only untagged facts or facts with a granted tag |
| TagGrants.BankHas | packages/hub-daemon/src/memory-mcp-client.ts:121-172 | a bank holds exactly the facts it had or retained, and has not retired since |
| TagGrants.FoundUntilRetired | packages/hub-daemon/src/memory-mcp-client.ts:121-172 | a fact there or retained comes back with every default read until it is retired, whatever else the engine retains and retires |
| BranchValidator.ValidateBranchContract | packages/contracts/src/branch-validation.ts:156-248 | reports exactly the violations, rule by rule and file by file |
| BranchRules.ViolatesIff | packages/contracts/src/branch-validation.ts:53-248 | each error is reported exactly when its rule is broken, stated by the contract's and the files' own fields: names, extensions, bounds, defaults, required fields and the schema the payload is checked against |
| BranchContract.MeetsIff | packages/contracts/src/branch-validation.ts:156-248 | there is no violation exactly when the declarative contract is met |
| BranchContract.OrderOfFilesIsFree | packages/contracts/src/branch-validation.ts:199-242 | the verdict does not depend on the order of a slot's files |
| BranchContract.RequiredFieldsPartition | packages/contracts/src/branch-validation.ts:53-80 | required fields split into payload and slots, and the payload schema asks for exactly the former |
| JsonPointer.EscapeRoundTrips | packages/contracts/src/branch-validation.ts:49-51 | a slot name can be read back from an error path and adds no step to it |
| InvokeQueue.AlwaysConserved | packages/hub-daemon/src/invoke-service.ts:597-647 | enqueued items are the completed, the held and the queued ones, whatever fails and overlaps |
| InvokeQueue.InOrderStep | packages/hub-daemon/src/invoke-service.ts:597-647 | the original order is kept exactly by the steps that do not overtake another flush |
| InvokeQueue.OrderWithoutOverlap | packages/hub-daemon/src/invoke-service.ts:597-647 | without overlapping flushes the order is always kept |
| InvokeQueue.OverlapReorders | packages/hub-daemon/src/invoke-service.ts:608-647 | overlapping flushes complete a later item first |
| InvokeQueue.InvokeService.FlushQueuedInvokes | packages/hub-daemon/src/invoke-service.ts:608-647 | a flush is a run of the model's events: it stops at the first failure, puts that item and the rest before what came meanwhile, completes the items before, and leaves other spaces alone |
| PrivateEnv.ParseQuotedValue | packages/hub-daemon/src/load-private-env.ts:185-215 | the loop computes the quoted text or the reason it is malformed |
| PrivateEnv.ParseEnvFile | packages/hub-daemon/src/load-private-env.ts:152-174 | the settings of the lines, or the first malformed line |
| EnvReading.LineSays | packages/hub-daemon/src/load-private-env.ts:152-174 | blank lines and comments say nothing, export before a setting is ignored, and any other line is cut at its first equals sign, or refused for the reason given |
| EnvReading.PlainValueReads | packages/hub-daemon/src/load-private-env.ts:176-183 | a value without quotes reaches to the first number sign behind white space, less the white space around it |
| EnvReading.WrittenPlainReads | packages/hub-daemon/src/load-private-env.ts:176-183 | a plain value is read back, whatever white space or comment stands behind it |
| EnvReading.SingleQuotedReads | packages/hub-daemon/src/load-private-env.ts:185-215 | between single quotes every character stands for itself, and only a comment may follow |
| EnvReading.EscapeReads | packages/hub-daemon/src/load-private-env.ts:185-228 | in double quotes a backslash and a character stand for a line feed, carriage return or tab, or for that character |
| PrivateEnv.LoadPrivateEnv | packages/hub-daemon/src/load-private-env.ts:65-86 | set variables are never overridden and exactly the new keys are counted |
| PrivateEnv.SecondLoadAddsNone | packages/hub-daemon/src/load-private-env.ts:65-86 | a second load adds none and changes nothing |
| EnvRoundTrip.LineReads | packages/hub-daemon/src/load-private-env.ts:152-228 | a printed setting is read back from its line, also when its key begins with export |
| EnvRoundTrip.PrintThenParse | packages/hub-daemon/src/load-private-env.ts:152-228 | a printed file is read back, with either kind of line end |
| EnvRoundTrip.MapRoundTrips | packages/hub-daemon/src/load-private-env.ts:152-228 | every map from valid keys to arbitrary strings survives printing and parsing, in any order |

## Left out

- AlwaysAgrees: asks that each snapshot holds flows of its own space, because the index files an entry under its own origin; AllAgreeIff is the exact condition for one replacement.
- SyncIsIdempotent: asks, like the other lemmas about a sync, that no name carries the space prefix twice, because service and store strip it once each; the id schema of the declaration and the ids of spaces see to it (SchemaNamesAreWellNamed).
- EveryTurnGetsItsEnterIff: is about sessions that nobody has closed, because closing drops the armed Enter.
- OrderIff: is about the time until the participant is revoked, because a revoke drops its backlog.
- Comments, here-documents, `$(...)` and assignments in the shell's reading of a script; keys such as `constructor` that bindings, slots or payloads inherit from JavaScript's prototype; error messages.
- Upload intents on disk: writing and loading their records, diagnostics, and a record file that comes back after its removal. A staged file's name is taken as given, a space's root is identified with its id, and a directory walk is assumed to count at least the files that stay put.
- A pending-wake file that cannot be written in the middle of a batch, which makes the bridge repeat the batch at the next poll; outbox expiry, which acts like a restart; rendering of prompts and wake texts.
- Live seats are values in their table: that a flush holds on to the seat object while a start replaces it is not captured, and each public call is one step, because delivery has no real wait inside. Snapshots of terminals are parameters of a revoke.
- Durations: timers are unordered events. Submission without delay, which the program uses under its test runner only, watchers of the output, the file a long turn goes to, and the foreground command runner.
- The order of the sorted bank list, which follows the locale, and the look-up of a flow without its space.
- The `match` mode of a tag filter, which the in-memory engine ignores; recall and reflect, which add a text search.
- Lower-casing, the JSON Schema verdict, ids, hashes and clocks are parameters or fresh values; ids are assumed free of colons where the program joins them into keys. The order in which a contract's errors are listed.
- What an invoke does while it is tried, and a crash in the middle of a flush.
- Finding, statting and reading the env file.
- Nested run transitions, the trigger dispatcher, SQL storage, HTTP routes, processes, windows and the rest of the user interface: no deep property, or only effects.
