# Verified model of vmstated

vmstated supervises bhyve virtual machines: it runs hook scripts when a machine
changes state, launches it, restarts it when it reboots, and puts it into a failure
state when it is started too often. This project models that logic in Dafny 4.11 and
proves properties of it for all inputs and all runs. `dafny verify dfyconfig.toml`
checks everything.

## What is modelled

**Lifecycle supervisor** (`Lifecycle`, `StateHandling`, `ProcessSpec`, `ProcessStates`,
`DirectorSpec`, `Directors`). The classes `StateHandler`, `ProcessState`, `WatchedVm` and
`Director` have the fields and loops of state_handler.c, process_state.c and
bhyve_director.c. Their methods are proved against the functions of `ProcessSpec` and the
steps of `DirectorSpec`. Every answer of the world outside (exit code of a hook script,
success of a launch, result of a signal, fate of the child, time that passed) comes from
an arbitrary sequence of answers for each machine, and every question is written into a
journal with its time. An execution (`Executions`) is any sequence of the steps start,
stop, reset, reboot, exit event, and the two steps of the restart thread, so a property of
all executions covers all interleavings of clients, exit-event thread and restart thread
at the granularity of one operation, and a sequence of calls of the class `Director`
follows an execution. The other modules of this part prove what holds in every execution:
`HookHistory` and `Traces` say what journals look like, `Bracketing`, `RestartLimit`,
`LaunchLimit`, `Convergence`, `StartExactness`, `FailurePaths`, `StepOutcomes`, `Accounting`
and `RebootQueue` hold the results.

**Identifier keeper** (`IdentSpec`, `IdentKeeping`). The class keeps the sorted list of
reservation objects and the next identifier; on values it is proved to be a set of free
identifiers, with the exact condition under which validation breaks that.

**Socket and codec** (`Sockets`, `Framing`, `TransmitCollecting`, `Replies`, `NvMapping`,
`VmInfo`, `StatusReply`). The read events of a connection with their 1024 byte buffer and
what the listeners are given, the collector, the reply with its length in front, the
table-driven structure codec and their composition: the list of machines the client ends
up with is the one the daemon had. A socket moves as many bytes a call as an arbitrary
schedule says. A structure is modelled as its bytes and the strings behind its pointers. Packing and unpacking of name-value lists are
parameters that are inverse to each other.

**Configuration** (`Texts`, `CoreParameters`, `Checks`, `Translate`, `OutputCore`,
`Override`, `ConfigGenerator`). Translation of a configuration into core parameters, the
rule table, the generated lines and what a reader that takes the last line of a key finds
behind a base file.

## Where the code differs from its documentation

- The comment of sth_transitionto says that a hook fails when it returns a negative
  value; the code fails on every value other than 0, and so does the model.
- The manual bounds restarts by maxrestart. The code bounds recorded start requests by
  maxrestart + 1 in any window (`RestartLimit.AttemptsAreLimited`). Launches follow their
  record after the start hooks. Where none comes more than d seconds after its record,
  windows of u seconds hold at most maxrestart + 1 launches exactly when u + d is at most
  maxrestarttime (`LaunchLimit.LaunchLimitExactly`); without any condition the bound is
  maxrestart + 2 (`LaunchLimit.LaunchesAreLimited`).
- The manual says that a failing hook script puts a machine into the failure state. When it
  does is stated exactly for starts, stops and ends of a child
  (`FailurePaths.StartFailsExactly`, `StopFailsExactly`, `ExitFailsExactly`). A failing first
  hook of a cold start leaves the machine in INIT or STOPPED (`FailurePaths.ColdStartStays`),
  a failing STOP_STORAGE hook after exit code 1 leaves it RUNNING without a child
  (`FailurePaths.RunningWithoutChild`), and after a failed start hook whose failure walk
  succeeds the child is launched all the same (`StartExactness.LaunchReachedExactly`).
- A start request looks at the budget and generates the configuration before it looks at
  the state, so for a RUNNING machine over the budget, or with a failed generation, it ends
  in FAILED and leaves the child behind; so does a stop whose signal cannot be sent
  (`Accounting.StartStrandsChild`, `Accounting.UnsentSignalStrandsChild`). With these and the
  exit codes that are ignored while a reboot is under way, `Accounting.AccountedExactly`
  says exactly when every child belongs to a machine that is up.
- A child killed by a signal right after its launch is treated as exit code 0 and rebooted
  (`FailurePaths.SignalledAtOnceReboots`), and a child that was merely stopped then is not
  registered for exit events.
- A waiting machine can leave RESTART_STOPPED while it is queued
  (`RebootQueue.TidyExactly` says exactly when, and `RebootQueue.OlderChildDisturbs` gives an
  execution without an impatient client). The queue of the source links its
  members through themselves, so queueing a machine twice would damage it; that each
  machine waits once is what makes a sequence a faithful model of it.
- The read loop asks for the number of bytes that were announced before the last read, so
  after a short first read it can take more than was announced and goes on until the buffer
  is full or the stream is empty (`Framing.TakesNoMoreExactly`, `Framing.ShortReadTakesAll`).
- Listeners are given every byte that was read behind the command, so a request arrives as
  it was sent exactly when it comes alone (`Framing.HandsOutAllBehind`,
  `Framing.RequestsInOrder`); the next one is handed out by the next read event.
- An incomplete request is waited for only when its command is complete and the unused part
  of the buffer holds no zero byte (`Framing.WaitsExactly`), on a new connection never
  (`Framing.CutIsHandedOut`).
- A write of the generated file that fails is not noticed (`OutputCore.LostWrite`).
- The mapping of "pid" has the offset of vmstate (`VmInfo.PidEntryHoldsBoth`); the round
  trip holds all the same.
- The number of cores is written under the key "sockets" (`Override.SocketsMayBeCores`).
- ik_validate_reservation can make later reservations fail while identifiers are free
  (`IdentSpec.ValidateLosesIdent`, `IdentSpec.ValidateExactly`).

## Model

| member | source | states |
|---|---|---|
| `Lifecycle.TableIsAllowed` | src/libprocwatch/process_state.c:171-252 | For every pair of states the transition table has a matching entry if and only if the relation `Allowed` holds, and every matching entry leads to the node of the requested state |
| `StateHandling.FirstMatchFinds` | src/libstate/state_handler.c:66-89 | The search gives nothing exactly when no entry matches, and otherwise the first entry of the table that matches |
| `StateHandling.TransitExactly` | src/libstate/state_handler.c:103-133 | A transition on any table: when it moves, where to, and which of on_exit and on_enter are asked in which order |
| `StateHandling.TransitIsEnter` | src/libstate/state_handler.c:103-133 | On the tables of process_state.c the generic handler moves exactly as `ProcessSpec.Enter`: nothing without an entry, the hook of the target otherwise, a move only when it returns 0 |
| `StateHandling.StateHandler.FindTransition` | src/libstate/state_handler.c:66-89 | The index loop returns the first entry that leads from the current state to the target |
| `StateHandling.StateHandler.TransitionTo` | src/libstate/state_handler.c:103-133 | Current node, journal and return code after a transition on any table, with on_exit before on_enter and no move when either does not return 0 |
| `StateHandling.LookupState` | src/libstate/state_handler.c:152-164 | -1 exactly when no node has the id, else the first index that has it |
| `ProcessStates.ProcessState.constructor` | src/libprocwatch/process_state.c:822-856 | A new machine is in INIT with no process id |
| `ProcessStates.ProcessState.TransitionTo` | src/libstate/state_handler.c:103-133 | One transition of a machine is `ProcessSpec.Enter` |
| `ProcessStates.ProcessState.FailureState` | src/libprocwatch/process_state.c:424-440 | Four transitions to FAILED, stopping at the first that fails, from any state |
| `ProcessStates.ProcessState.ResetFailure` | src/libprocwatch/process_state.c:457-467 | -1 and nothing done unless in FAILED, else the transition to INIT |
| `ProcessStates.ProcessState.StartVm` | src/libprocwatch/process_state.c:474-632 | State, process id, journal and return code of a start for every outcome of hooks and launch |
| `ProcessStates.ProcessState.StopOrReboot` | src/libprocwatch/process_state.c:637-697 | Only from RUNNING; state, journal and return code for every outcome of hooks and signal, 0 exactly with the answers of `StopGoes` |
| `ProcessStates.ProcessState.OnExit` | src/libprocwatch/process_state.c:309-418 | What the end of a child does for every state, exit code, hook outcome and answer of the reboot manager |
| `Directors.WatchedVm.Timestamp` | src/libprocwatch/bhyve_director.c:191-205 | The clock is read and its time put at the tail of the queue |
| `Directors.WatchedVm.CountRestartsSince` | src/libprocwatch/bhyve_director.c:212-247 | Both loops end; leading entries before the deadline are removed and the count of the rest is taken modulo 2^32 |
| `Directors.WatchedVm.IsCountFail` | src/libprocwatch/bhyve_director.c:355-373 | Clock, pruned queue and verdict of the restart budget |
| `Directors.WatchedVm.Start` | src/libprocwatch/bhyve_director.c:585-666 | The whole start of a machine that was found: budget before state, record, configuration, start, look at the child; code, state and request as functions of the answers |
| `Directors.WatchedVm.LookAtChild` | src/libprocwatch/bhyve_director.c:624-663 | A vanished child counts as exit code 4, one reaped at once ends the start with code 165, one that lives is registered |
| `Directors.WatchedVm.ChildEnded` | src/libprocwatch/bhyve_director.c:761-791 | An exit goes to psv_onexit with its code, every other end to the failure state; state and request as functions of the answers |
| `Directors.Director.GetVmByName` | src/libprocwatch/bhyve_director.c:451-479 | The first machine of that name, if there is one |
| `Directors.Director.RequestReboot` | src/libprocwatch/bhyve_director.c:399-444 | The machine that belongs to the process state is put at the tail of the reboot queue |
| `Directors.Director.StartVm` | src/libprocwatch/bhyve_director.c:567-666 | The director is afterwards in the state that step `Start` of the specification gives; return code by its number as the function of the answers `StartCode` says, 162 and no change for an unknown name |
| `Directors.Director.StopVm` | src/libprocwatch/bhyve_director.c:522-538 | The step `Stop`; 0 if and only if the machine is known and RUNNING and the answers are those of `StopGoes`, else -1 |
| `Directors.Director.ResetFailVm` | src/libprocwatch/bhyve_director.c:543-562 | The step `ResetFail`; -1 for an unknown name, 164 unless in FAILED, else 0 |
| `Directors.Director.ProcessEvent` | src/libprocwatch/bhyve_director.c:761-791 | The step `Exit` for one event of the kernel queue |
| `Directors.Director.TakeReboot` | src/libprocwatch/bhyve_director.c:690-720 | The restart thread takes the head of the queue, if there is one |
| `Directors.Director.StartTaken` | src/libprocwatch/bhyve_director.c:703-712 | The machine taken is started, found again by its name |
| `Executions.ExecutionExists` | src/libprocwatch/bhyve_director.c:567-791 | From every state every sequence of commands can be executed, so the results about executions are not empty |
| `HookHistory.AlwaysExplained` | src/libstate/state_handler.c:103-133 | In every execution each state is the last one entered successfully, each entry was allowed by the table, and reboot requests were made in RESTART_STOPPED only |
| `Traces.JournalsGrow` | src/libprocwatch/process_state.c:309-697 | Journals only grow along an execution and clocks do not go back |
| `Traces.StepTrace` | src/libprocwatch/bhyve_director.c:567-791 | The launches, records, signals, exits and requests one step journals for each machine, in order of time |
| `Bracketing.HooksAreBracketed` | src/libprocwatch/process_state.c:171-252 | In every execution with any hook failures: a successful network stop between two network starts, a storage stop after each storage start before the next network stop or storage start; the state tells which of the two is up |
| `Bracketing.StopSticks` | src/libprocwatch/process_state.c:309-395 | After a stop that returned 0 no reboot is requested before a later start has reached RUNNING, for any later steps and hook outcomes |
| `StepOutcomes.StopOfRunningSticks` | src/libprocwatch/process_state.c:637-697 | So after a stop of a RUNNING machine with the answers of `StopGoes` |
| `RestartLimit.PrunedCountIsCount` | src/libprocwatch/bhyve_director.c:212-247 | With nondecreasing times and deadlines the length of the pruned queue is the count over the never pruned history |
| `RestartLimit.BudgetCountsHistory` | src/libprocwatch/bhyve_director.c:355-373 | Whenever the budget is looked at its count is the number of recorded starts of the whole history in the window |
| `RestartLimit.AttemptsAreLimited` | src/libprocwatch/bhyve_director.c:586-597 | Every execution from a fresh director: at most maxrestart + 1 recorded start attempts of a machine in any window of maxrestarttime seconds |
| `RestartLimit.LimiterOff` | src/libprocwatch/bhyve_director.c:355-373 | With a maxrestart of 2^32 - 1 the budget never fails, because the count is an unsigned int |
| `LaunchLimit.LaunchesAreLimited` | src/libprocwatch/bhyve_director.c:586-622 | Every execution: at most maxrestart + 2 launches in any window by the clock of the launches themselves |
| `LaunchLimit.PromptLaunchesAreLimited` | src/libprocwatch/bhyve_director.c:586-622 | Where no launch comes more than d seconds after its record, every window d seconds shorter than maxrestarttime holds at most maxrestart + 1 launches, in every execution |
| `LaunchLimit.LaunchBoundIsMet` | src/libprocwatch/bhyve_director.c:586-622 | For every maxrestart, window and delay d up to the window there is an execution with launches at most d seconds late and maxrestart + 2 of them within maxrestarttime + 1 - d seconds |
| `LaunchLimit.LaunchLimitExactly` | src/libprocwatch/bhyve_director.c:586-622 | With launches at most d seconds late, windows of u seconds hold at most maxrestart + 1 launches in every execution if and only if u + d is at most maxrestarttime |
| `Convergence.TooManyStartsFail` | src/libprocwatch/bhyve_director.c:586-595 | From any state and bounded queue, maxrestart + 2 start requests in one window with succeeding hooks and no reset leave the machine FAILED |
| `Convergence.FailedAlwaysStays` | src/libprocwatch/bhyve_director.c:543-562 | When hooks succeed, FAILED is left by a reset only, over whole executions |
| `Convergence.FailedLeftExactly` | src/libprocwatch/process_state.c:457-467 | When hooks succeed, one step takes a FAILED machine to another state if and only if it is its reset, and then to INIT |
| `StartExactness.StartSucceedsExactly` | src/libprocwatch/process_state.c:474-632 | A start returns 0 if and only if both start hooks, the launch and the hooks after it succeed, if and only if it ends in RUNNING; then the journal is the cold or the restart sequence with one launch |
| `StartExactness.LaunchReachedExactly` | src/libprocwatch/process_state.c:503-549 | The launch is reached if and only if both start hooks succeed or a failed one is followed by a failure walk that succeeds; then a child is launched for a machine in FAILED |
| `StartExactness.WalkExactly` | src/libstate/state_handler.c:103-133 | A walk along allowed states arrives if and only if all its hooks succeed |
| `FailurePaths.StartEnds` | src/libprocwatch/process_state.c:474-632 | The state in which a start leaves a machine, for every pattern of answers of hooks and launch |
| `FailurePaths.StartFailsExactly` | src/libprocwatch/process_state.c:474-632 | That state is FAILED if and only if the answers are these: never when the first hook of a cold start fails, otherwise only when the hooks of the failure walk succeed |
| `FailurePaths.ColdStartStays` | src/libprocwatch/process_state.c:503-527 | A cold start whose first hook fails stays in INIT or STOPPED and returns -1 |
| `FailurePaths.StopEnds` | src/libprocwatch/process_state.c:637-697 | The state in which a stop or reboot leaves a RUNNING machine, for every pattern of answers of hooks and signal |
| `FailurePaths.StopFailsExactly` | src/libprocwatch/process_state.c:637-697 | That state is FAILED if and only if the signal cannot be sent or the stop hook fails, and the failure walk succeeds |
| `StepOutcomes.StopReturnsExactly` | src/libprocwatch/process_state.c:637-697 | A stop or reboot returns 0 if and only if the machine is RUNNING and the signal was sent, or there was no child to signal, or a failure walk that was needed succeeded; else -1 |
| `FailurePaths.ExitEnds` | src/libprocwatch/process_state.c:309-418 | The state in which the end of a child leaves a machine, for every state, exit code, pattern of hook answers and answer of the reboot manager |
| `FailurePaths.ExitFailsExactly` | src/libprocwatch/process_state.c:309-418 | Exactly when that state is FAILED |
| `FailurePaths.RunningWithoutChild` | src/libprocwatch/process_state.c:366-377 | A STOP_STORAGE hook that fails after exit code 1 leaves the machine RUNNING without a child |
| `FailurePaths.SignalledAtOnceReboots` | src/libprocwatch/bhyve_director.c:624-663 | A child killed by a signal right after its launch asks for a reboot, if and only if the three hooks on the way succeed |
| `StepOutcomes.ExitReturnsExactly` | src/libprocwatch/process_state.c:309-418 | psv_onexit: return code, request to the reboot manager and process id for every state, exit code, pattern of answers and manager |
| `StepOutcomes.ExitEventEnds` | src/libprocwatch/bhyve_director.c:761-791 | One process event: state, reboot request and process id for every exit status and pattern of answers |
| `StepOutcomes.ExitEventArrives` | src/libprocwatch/bhyve_director.c:761-791 | The same when hooks succeed, code by code: 0 asks for a restart, 1 and 2 shut a RUNNING machine down, during a stop all codes below 3 do, everything else is a failure |
| `StepOutcomes.LookEnds` | src/libprocwatch/bhyve_director.c:624-663 | The look at the child: return code by its number, state and reboot request for everything the world may tell of the child |
| `StepOutcomes.StartReturnsExactly` | src/libprocwatch/process_state.c:474-632 | psv_startvm: 0 exactly when all succeeds, 2 when a child was launched and a state behind the launch was not entered, -1 when none was launched; the process id is that of the child |
| `StepOutcomes.StartRequestEnds` | src/libprocwatch/bhyve_director.c:567-666 | A start request for every pattern of answers: 169, 163, 168, 166, 165, 167 or 0, the state it leaves and the reboot request it makes |
| `StepOutcomes.StartReturnsZeroExactly` | src/libprocwatch/bhyve_director.c:567-666 | 0 if and only if within the budget, not FAILED, configured, started, and the child vanished, is merely stopped, or lives and could be registered |
| `StepOutcomes.StepEnds` | src/libprocwatch/bhyve_director.c:522-791 | Every step of the director: the state in which it leaves each machine, for every pattern of answers |
| `StepOutcomes.StepQueuesExactly` | src/libprocwatch/bhyve_director.c:399-444 | Exactly which steps and answers put a machine into the reboot queue, at its tail |
| `Accounting.StepAccountsExactly` | src/libprocwatch/bhyve_director.c:567-666 | When hooks succeed, a step keeps a machine up exactly while one of its children has not been seen to end, if and only if it is no start of a machine that is up over the budget or with a failed generation, no stop or reboot whose signal cannot be sent, and no exit with code 1 or 2 during a reboot |
| `Accounting.AccountedExactly` | src/libprocwatch/bhyve_director.c:567-791 | The same over executions, for each machine on its own: accounted in all states if and only if no such step hits this machine |
| `Accounting.UnsentSignalStrandsChild` | src/libprocwatch/process_state.c:663-668 | A stop or reboot whose signal cannot be sent leaves a child behind a FAILED machine |
| `Accounting.StartStrandsChild` | src/libprocwatch/bhyve_director.c:586-611 | A start over the budget, or one whose configuration cannot be generated, drives a machine that is up to FAILED and leaves its child behind |
| `Accounting.SecondStartStrandsChild` | src/libprocwatch/bhyve_director.c:586-591 | From a fresh director with a maxrestart of 0, two start requests within the window do so |
| `RebootQueue.RequestsAreConserved` | src/libprocwatch/bhyve_director.c:399-444 | In every execution the requests accepted are those popped followed by those queued, in order, and per machine as many as its journal holds |
| `RebootQueue.StepKeepsTidy` | src/libprocwatch/bhyve_director.c:690-720 | With any hook outcomes, a step that disturbs no waiting machine keeps every waiting machine waiting once and in RESTART_STOPPED |
| `RebootQueue.TidyExactly` | src/libprocwatch/process_state.c:321-365 | When hooks succeed, one step keeps that if and only if it is no client start of a waiting machine and no failing exit of an older child of one |
| `RebootQueue.QueueStaysTidy` | src/libprocwatch/bhyve_director.c:690-720 | The same over whole executions |
| `RebootQueue.PatienceIsEnough` | src/libprocwatch/bhyve_director.c:399-444 | In accounted executions it is enough that clients do not start machines in RESTART_STOPPED |
| `RebootQueue.OlderChildDisturbs` | src/libprocwatch/bhyve_director.c:761-791 | From a fresh director and without such a client: a failed generation leaves a child behind, and its end takes the machine out of RESTART_STOPPED while it is queued |
| `IdentSpec.ReserveRefines` | src/libconfig/ident_keeper.c:253-294 | Reserving fails if and only if no identifier is free, else takes one free identifier out of the set, the least one once all were handed out |
| `IdentSpec.DisposeRefines` | src/libconfig/ident_keeper.c:227-248 | Disposing puts exactly its identifier back |
| `IdentSpec.NextAfterDispose` | src/libconfig/ident_keeper.c:227-248 | After disposing the last one handed out it is the next, otherwise the next one or, once all were handed out, the least free one |
| `IdentSpec.ReserveKeepsOrder` | src/libconfig/ident_keeper.c:118-179 | In every ordered state the identifier given was free and the list stays sorted; failure exactly when there is no next identifier and no gap before the last entry |
| `IdentSpec.ReservesUntilFull` | src/libconfig/ident_keeper.c:253-294 | In every run of reservations and disposals, reserving fails if and only if all max - min + 1 identifiers are held |
| `IdentSpec.RunsStayOrdered` | src/libconfig/ident_keeper.c:118-294 | In every run, validations included, held identifiers are distinct, ascending, within the limits and below the next one |
| `IdentSpec.ValidateExactly` | src/libconfig/ident_keeper.c:188-222 | Validation keeps the state in which reserving is exact if and only if the identifier is valid, or identifiers are left to hand out, or it is not the maximum |
| `IdentSpec.ValidateKeepsIdent` | src/libconfig/ident_keeper.c:188-222 | An invalid reservation gets the same identifier back if and only if all were handed out, none below it is free and one above it is held |
| `IdentSpec.ValidateLosesIdent` | src/libconfig/ident_keeper.c:188-222 | Two identifiers, both reserved, the second invalidated: it is dropped and the next reservation fails although one is free |
| `IdentKeeping.IdentKeeper.New` | src/libconfig/ident_keeper.c:299-329 | Nothing for reversed limits, else a new keeper that holds nothing and hands out from the minimum on |
| `IdentKeeping.IdentKeeper.NextIdent` | src/libconfig/ident_keeper.c:118-147 | The next identifier or the first gap of the list, and the new next identifier |
| `IdentKeeping.IdentKeeper.InsertReservation` | src/libconfig/ident_keeper.c:152-179 | The reservation is put before the first larger one |
| `IdentKeeping.IdentKeeper.Reserve` | src/libconfig/ident_keeper.c:253-294 | A fresh reservation with the next identifier and counter value is in the list, or nothing changed and null is returned |
| `IdentKeeping.IdentKeeper.Dispose` | src/libconfig/ident_keeper.c:227-248 | Exactly this reservation is out of the list and the next identifier steps back when it was the last one handed out |
| `IdentKeeping.IdentKeeper.ValidateReservation` | src/libconfig/ident_keeper.c:188-222 | A valid reservation stays, an invalid one has a new identifier or is dropped with -1 |
| `Framing.CompleteRequest` | src/libsocket/socket_handle.c:464-544 | A buffer that starts with a complete request is parsed into it, and dropping it leaves exactly the bytes behind it, whatever the unused part of the buffer holds |
| `Framing.DropLeavesClearExactly` | src/libsocket/socket_handle.c:193-218 | Exactly when a drop leaves the buffer clear behind what is left; bytes from 1024 - count to count stay where they were |
| `Framing.WaitsExactly` | src/libsocket/socket_handle.c:464-544 | A request of which only a part has arrived is waited for if and only if its command is complete and the unused part of the buffer holds no zero byte |
| `Framing.CutIsHandedOut` | src/libsocket/socket_handle.c:415-544 | In a buffer that is clear behind what was read it is never waited for: cut in its data it is handed out as far as it came, cut in its command with a length of 2^64 - 1 |
| `Framing.ErrorsExactly` | src/libsocket/socket_handle.c:464-544 | Error code and drop for every buffer: 1 for a command of more than four bytes, 2 for a full buffer without a zero byte, 3 for one without a zero byte behind its command, 172 when more has to be read |
| `Framing.HandsOutAllBehind` | src/libsocket/socket_handle.c:415-457 | The listeners get the command, its data and every byte read behind them; so the request as it was sent if and only if nothing was read behind it, and what is behind it stays |
| `Framing.RequestsInOrder` | src/libsocket/socket_handle.c:672-754 | Requests completed by one read event each are handed out in order, each with its command and data that starts with its own; all as they were sent if and only if every read event brings exactly one |
| `Framing.ParseAndDropAll` | src/libsocket/socket_handle.c:464-544 | Repeated parsing and dropping takes a buffer of complete requests apart into these requests and empties it |
| `Framing.TakesNoMoreExactly` | src/libsocket/socket_handle.c:551-586 | A read event takes no more bytes than were announced if and only if the stream or the buffer hold no more, or its first read brings all of them, or its reads add up to them |
| `Framing.NeverTakesMoreExactly` | src/libsocket/socket_handle.c:551-586 | So it is with every number of bytes a read if and only if the stream or the buffer hold no more or at most one byte was announced |
| `Framing.ShortReadTakesAll` | src/libsocket/socket_handle.c:572-583 | A first read of one byte makes the loop go on until buffer or stream are exhausted: 10 bytes announced, 100 taken |
| `Framing.Connection.ReadData` | src/libsocket/socket_handle.c:551-586 | The whole buffer after a read event: a prefix of the stream behind what was there, as long as the function `Taken` says for any numbers of bytes a read |
| `Framing.Connection.DropBytes` | src/libsocket/socket_handle.c:193-218 | Contents of the whole buffer and number of bytes after a drop |
| `Framing.Connection.DropMessage` | src/libsocket/socket_handle.c:223-234 | Drops command, data and two zero bytes |
| `Framing.Connection.TryCmdParsing` | src/libsocket/socket_handle.c:464-544 | Error code, lengths and what is dropped for every contents of the buffer |
| `Framing.Connection.CallListeners` | src/libsocket/socket_handle.c:415-457 | What the listeners are given: command up to its zero byte, the bytes behind it, and the number of bytes read less the command and one as a size_t |
| `Framing.Connection.HandleRead` | src/libsocket/socket_handle.c:672-754 | One read event: outcome, buffer and number of bytes as the function `Arrive` gives them for the bytes that were taken |
| `Framing.AnswerEach` | src/libsocket/socket_handle.c:551-754 | A client that waits for each reply: every request is handed out as it was sent, with any number of bytes a read |
| `Framing.TwoWritesSend` | src/libsocket/socket_connect.c:209-212 | Two writes that take a request send exactly the request |
| `Framing.AlwaysStaysExactly` | src/libsocket/socket_connect.c:209-212 | The sending loop stays inside the request with every number of bytes a write if and only if the request has at most two bytes |
| `Framing.SendRequest` | src/libsocket/socket_connect.c:195-222 | The bytes on the wire for all writes that stay inside the request; -1 and nothing for one over 1024 bytes |
| `Framing.SendText` | src/libsocket/socket_connect.c:241-256 | A command with a text is one complete request on the wire, as far as the writes went |
| `TransmitCollecting.CutRestores` | src/libutils/transmit_collect.c:128-164 | The lengths add up to the size and cutting the output at them gives the stored buffers back |
| `TransmitCollecting.TransmitCollector.StoreTransmit` | src/libutils/transmit_collect.c:82-110 | Appends a buffer, refuses an empty one |
| `TransmitCollecting.TransmitCollector.GetBufferCount` | src/libutils/transmit_collect.c:171-188 | Number of stored buffers |
| `TransmitCollecting.TransmitCollector.GetBufferSize` | src/libutils/transmit_collect.c:195-212 | Size of their concatenation |
| `TransmitCollecting.TransmitCollector.Collect` | src/libutils/transmit_collect.c:128-164 | Success if and only if there is something to write to and it fits; then concatenation and lengths at the front of the caller's buffers, the rest untouched |
| `Replies.NumberOfDigits` | src/libsocket/socket_connect.c:144-153 | Reading a printed length gives it back, whatever follows |
| `Replies.HeaderFits` | src/libsocket/socket_handle.c:357-359 | The header fits its 128 bytes for every length |
| `Replies.ReplyCollector.AddReply` | src/libsocket/reply_collector.c:189-198 | Reply data is appended to the collector |
| `Replies.ReplyCollector.ShortReply` | src/libsocket/reply_collector.c:147-163 | The first short reply stays |
| `Replies.ReplyCollector.HasReply` | src/libsocket/reply_collector.c:168-174 | True exactly when something was stored |
| `Replies.ReplyCollector.GetReply` | src/libsocket/reply_collector.c:102-139 | The concatenation of all that was stored, nothing when nothing was |
| `Replies.ReplyMsg` | src/libsocket/socket_handle.c:320-337 | 0 exactly when message and zero byte were written completely under any partial writes; otherwise a prefix was |
| `Replies.ReplyShortMsg` | src/libsocket/socket_handle.c:400-410 | Code, colon, message and zero byte on the wire, cut at the 1024 bytes of the buffer; a prefix when it fails |
| `Replies.ReplyGenericMsg` | src/libsocket/socket_handle.c:386-395 | The same with OK for code 0 and NOK for others |
| `Replies.CodeIsRead` | src/libsocket/socket_handle.c:386-410 | The signed number in front of a short reply is its code, for every signed 64 bit code, and no short reply starts like a blob |
| `Replies.GenericTextIsSpelled` | src/libsocket/socket_handle.c:386-395 | "0000: OK" for code 0, the code in four places and ": NOK" for every other from -999 to 9999, byte by byte |
| `Replies.MessageFollows` | src/libsocket/socket_handle.c:400-410 | Behind the number come a colon, a space and the message, cut at 1023 bytes in all |
| `Replies.ReplyIsSpelled` | src/libsocket/socket_handle.c:357-359 | A blob reply is "DATA ", the length in decimal digits, a zero byte and the blob |
| `Replies.ReplyData` | src/libsocket/socket_handle.c:342-381 | Header, zero byte and blob on the wire under any partial writes |
| `Replies.ReceiveReply` | src/libsocket/socket_connect.c:113-175 | Under any partial reads a blob reply is read back exactly when its header is shorter than the reply buffer, and nothing behind it is taken; a text reply that fits and is read at once is in the reply buffer |
| `Replies.ReadText` | src/libsocket/socket_connect.c:121-131 | A text reply is in the reply buffer when one read brings what follows the first four bytes |
| `Replies.TellResult` | src/libsocket/socket_connect.c:113-131 | The reply to a command arrives: its text is in the reply buffer of a client that reads it at once |
| `NvMapping.EncodeNvlist` | src/libcommand/bhyve_command.c:69-124 | One entry for each field of the table up to the first unsupported type |
| `NvMapping.DecodeNvlist` | src/libcommand/bhyve_command.c:140-222 | Fields written from the entries of their type, missing ones left alone, missing strings set to NULL |
| `NvMapping.RoundTrip` | src/libcommand/bhyve_command.c:69-222 | For every table with distinct names whose fields overlap only when both are numbers, decoding an encoded structure restores the value of each field, NULL strings and overlapping numbers included |
| `NvMapping.MissingEntry` | src/libcommand/bhyve_command.c:140-222 | A missing entry, or one of another type, changes no byte and makes a string NULL |
| `NvMapping.EncodedNames` | src/libcommand/bhyve_command.c:69-124 | The list has the names of the table entries that were encoded and those it had |
| `NvMapping.LeRestores` | src/libcommand/bhyve_command.c:170-200 | Writing a number read from bytes gives the bytes back |
| `VmInfo.VmTableIsSound` | src/libcommand/vm_info.c:71-126 | The table of a machine meets the condition of the round trip although "pid" has the offset of vmstate |
| `VmInfo.PidEntryHoldsBoth` | src/libcommand/vm_info.c:96-101 | The entry "pid" is vmstate + 2^32 * pid |
| `VmInfo.InfoRoundTrip` | src/libcommand/vm_info.c:177-207 | The description of a machine survives encoding and decoding, whatever memory it is decoded into |
| `VmInfo.InfoEntries` | src/libcommand/vm_info.c:71-126 | The list of a machine, name by name and value by value |
| `VmInfo.ManagerEntries` | src/libcommand/vm_info.c:128-141 | The two numbers of the manager: machines modulo 2^32 and messages |
| `VmInfo.ManagerBack` | src/libcommand/vm_info.c:128-141 | The message count survives, the number of machines is reduced to 32 bits |
| `StatusReply.EncodeManager` | src/libcommand/vm_info.c:399-497 | -1 exactly for an empty list, else the numbers, all machines packed into one blob and their lengths |
| `StatusReply.DecodeManager` | src/libcommand/vm_info.c:215-303 | From such a list the same machines and message count, or a failed assertion from 2^32 machines on |
| `StatusReply.EncodeBinary` | src/libcommand/vm_info.c:346-365 | The list of the manager, packed |
| `StatusReply.DecodeBinary` | src/libcommand/vm_info.c:372-391 | Unpacking and decoding it |
| `StatusReply.Answer` | src/libprocwatch/bhyve_director.c:967-993 | The daemon's side of a status command under any partial writes: the list as a blob, or code -1 as text when there is no machine |
| `StatusReply.StatusCommand` | src/libsocket/socket_connect.c:57-175 | End to end: the client has the list of the daemon exactly when there is a machine and the header is shorter than its reply buffer, under any partial writes and reads, for fewer than 2^32 machines |
| `CoreParameters.Core.constructor` | src/libconfig/config_core.c:251-271 | Empty parameters with the name cut at 255 characters |
| `CoreParameters.Core.SetBootrom` | src/libconfig/config_core.c:177-192 | Boot rom and variables file cut at their fields; -1 and no change when variables are asked for without a file |
| `CoreParameters.Core.EnableComport` | src/libconfig/config_core.c:216-229 | One COM port is set, -1 for a number above 3 |
| `CoreParameters.Core.SetComportBackend` | src/libconfig/config_core.c:234-246 | The backend of one COM port is set, -1 for a number above 3 |
| `CoreParameters.Core.AddPciSlotAt` | src/libconfig/config_core.c:350-369 | The slot is put at the head of the list |
| `CoreParameters.SlotIter.Next` | src/libconfig/config_core.c:302-319 | The iterator gives each slot once in the order of the list and then stays at its end |
| `Checks.IdentIsPlace` | src/libconfig/check_core.c:171-175 | Two slots print the same identifier if and only if they have the same place |
| `Checks.IdentFits` | src/libconfig/check_core.c:171 | The identifier fits its 16 bytes |
| `Checks.StringList.Has` | src/libconfig/string_list.c:66-82 | True exactly for strings in the list |
| `Checks.StringList.Add` | src/libconfig/string_list.c:87-108 | The string is put at the head of the list |
| `Checks.CountHostbridge` | src/libconfig/check_core.c:60-77 | Number of host bridges among the slots |
| `Checks.CountIsaBridge` | src/libconfig/check_isabridge.c:30-48 | Number of ISA bridges among the slots |
| `Checks.CheckHostbridgeSlot` | src/libconfig/check_core.c:82-111 | Whether the first host bridge, if there is one, is at 0:0:0 |
| `Checks.CheckIsaBridgeBus` | src/libconfig/check_isabridge.c:118-141 | Whether all ISA bridges are on bus 0 |
| `Checks.CheckComWithIsa` | src/libconfig/check_isabridge.c:70-86 | Whether an enabled COM port comes with an ISA bridge |
| `Checks.CheckPciIdConflict` | src/libconfig/check_core.c:145-186 | Whether all printed identifiers are distinct |
| `Checks.CheckParametersOk` | src/libconfig/check.c:122-134 | No rule is reported if and only if the parameters are bootable; a rule that is reported is broken and all before it hold |
| `Checks.RulesAreBootable` | src/libconfig/check.c:44-100 | All rules hold if and only if name and boot rom are set, there is exactly one host bridge, at 0:0:0, exactly one ISA bridge, on bus 0, and no two slots share a place |
| `Checks.BootableExactly` | src/libconfig/check.c:44-100 | Bootable, slot by slot: exactly one slot is a host bridge and it is at 0:0:0, exactly one is an ISA bridge and it is on bus 0, no two have the same bus, slot and function |
| `Checks.RulesExactly` | src/libconfig/check.c:44-100 | Each rule by itself, slot by slot |
| `Checks.ComRuleIsRedundant` | src/libconfig/check.c:75-79 | The rule on COM ports follows from the rules on the boot rom |
| `Translate.TranslateConfig` | src/libtranslate/param_translate_core.c:71-146 | The parameters that come out of a configuration |
| `ConfigGenerator.PortsOfConsoles` | src/libtranslate/param_translate_core.c:116-137 | One COM port for each of the first four consoles, with its name and backend cut at their fields |
| `Translate.AddConsoles` | src/libtranslate/param_translate_core.c:116-137 | The loop enables one COM port for each of the first four consoles |
| `Translate.TranslationPassesExactly` | src/libtranslate/param_translate_core.c:71-146 | A translated configuration passes the checks if and only if it has a name, a host bridge, a boot rom and a console |
| `OutputCore.Output.Add` | src/libconfig/output_bhyve_core.c:86-116 | The line key=value is put at the head of the list |
| `OutputCore.Output.SetConsoles` | src/libconfig/output_bhyve_core.c:209-233 | One setting for each enabled COM port |
| `OutputCore.Output.SetPciSlots` | src/libconfig/output_bhyve_core.c:130-204 | One setting for each slot up to the first that cannot be written, -1 exactly when there is one |
| `OutputCore.WritableExactly` | src/libconfig/output_bhyve_core.c:130-204 | All slots can be written exactly when they are host bridges and ISA bridges |
| `OutputCore.Output.SetCore` | src/libconfig/output_bhyve_core.c:238-298 | All settings in the order of the source |
| `OutputCore.WrittenExactly` | src/libconfig/output_bhyve_core.c:368-394 | The file is written as a whole and success is reported if and only if every write takes its whole text |
| `OutputCore.SuccessExactly` | src/libconfig/output_bhyve_core.c:368-394 | Success is reported if and only if no text was written short and no end of line failed |
| `OutputCore.WrittenIsFront` | src/libconfig/output_bhyve_core.c:368-394 | While every write takes something the file holds a front of the whole text |
| `OutputCore.LostWrite` | src/libconfig/output_bhyve_core.c:370-373 | A failed write of a text is not noticed, because -1 is compared as an unsigned number |
| `OutputCore.Output.CombineWith` | src/libconfig/output_bhyve_core.c:340-401 | Return code and contents of the file for every failure to read, open, change the mode or write: base file, end of line, and the lines from the head of the list on |
| `Override.GeneratedOverrides` | src/libconfig/output_bhyve_core.c:371-393 | Read last-wins, a key has the value of the first setting that was added with it, and every other key that of the base file |
| `Override.ParametersOverride` | src/vmstated/vmstated.8:123-130 | Every key the parameters speak of, other than "sockets", has the value they say, with keys and values spelled out, whatever the base file says |
| `Override.SocketsMayBeCores` | src/libconfig/output_bhyve_core.c:262-272 | The key "sockets" has the number of sockets, or the number of cores when no sockets are given |
| `Override.OtherKeysStay` | src/vmstated/vmstated.8:123-130 | Every other key keeps the value of the base file |
| `ConfigGenerator.GenerateConfigFile` | src/vmstated/config_generator.c:64-101 | 0 with the whole text in the file if and only if the files can be read and opened and every write takes its whole text |
| `ConfigGenerator.GeneratedFileIsRead` | src/vmstated/vmstated.8:123-130 | What a configuration says is what a reader finds in the generated file, every key and value spelled out, and other keys keep the value of the base file, for texts without line breaks |

## Left out

- Liveness of the restart thread: it waits on a condition without testing the queue again, so only safety is stated; shutdown of the threads is not modelled.
- Data races on the state handler, which the source does not lock: one operation is one step.
- Failures of malloc, mutexes, strdup and condition signals; errno.
- fork, execve, waitpid, kill, kqueue, sockets, files and the clock: their outcomes are the answers of the journal, the schedules of the sockets and the answers of the file system.
- A reboot request in the source calls back into the director while psv_onexit runs; in the model the operation reports it and the director puts the machine into the queue when the operation returns.
- Waiting for the exit code in psv_stop_or_reboot, which only tests use; console links; log redirection; the message counter; bd_runautostart, which only repeats bd_startvm.
- Machines of the same name: the manual leaves their behaviour undefined, and the director assumes names to be distinct.
- psv_rebootvm is a step of executions (`Reboot`) but no client command reaches it.
- Framing.SendRequest: covers streams whose writes stay inside the request, because the loop of the source asks for too many bytes from the third write on and then sends what lies behind its buffer.
- Framing.Connection.CallListeners: a buffer without any zero byte, in which the source looks for the end of the command beyond the buffer; the model stops at its end.
- Framing.Connection.ReadData: a read that fails, whose -1 the source adds to the number of bytes read.
- Framing.Connection.HandleRead: the text of the error replies, and the disconnection of a client.
- Replies.ReadText: says what is read when one read brings the rest of a text reply, because the loop of the source overwrites the buffer with each read.
- Replies.ReceiveReply: reply buffers of at most four bytes, for which the source reads with a length that wraps.
- StatusReply.DecodeManager: says nothing of lists the encoder did not make, which the client of the daemon never gets.
- StatusReply.DecodeBinary: says nothing of blobs the encoder did not make, for the same reason.
- Directors.Director.RequestReboot: a process state that belongs to no machine, with which the source dereferences NULL.
- IdentKeeping.IdentKeeper.New: a maximum of 2^64 - 1, with which the next identifier wraps.
- Later status replies on one connection: the collector is never cleared, so they contain the earlier ones.
- The order of entries in a packed name-value list, and libnv's refusal of duplicate names: a list is a map.
- Process ids and times of the last boot are given by their 32 and 64 bits, not as signed numbers.
- CoreParameters.Core.constructor: a name of 255 characters or more leaves its field without a zero byte; the model cuts it at the size of the field.
- Parsing of UCL and bhyve configuration files, block, network, VNC and controller slots, string getters, the user interface and the daemon's main loop.
