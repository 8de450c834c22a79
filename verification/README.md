# A verified model of the Coder server's protocols and text formats

Coder provisions remote workspaces. This project models, in Dafny, the parts of it whose
correctness rests on an argument that runs across several functions or over whole runs, and
proves that argument.

| file | what it models |
|---|---|
| `CryptoRand.dfy`, `Counting.dfy` | the random integers and strings of `cryptorand`, counted over all raw draws |
| `LogFollow.dfy` | following the logs of a provisioner job: writer, pubsub handlers, bounded buffer, reader |
| `LogOrder.dfy` | what a client is sent, in which order, and what a handler still owes it |
| `SshConfig.dfy` | the managed section that `coder config-ssh` keeps in the user's SSH config |
| `BuildLifecycle.dfy` | build numbers and job activity under create, cancel, worker and clock steps |
| `Parameters.dfy` | the delete-then-insert loop over workspace parameters |
| `AgentHeartbeat.dfy` | the connection row of an agent, written by overlapping connections |
| `ResourceJoin.dfy` | the nested-loop and the map-indexed assembly of a job's resources |
| `Deadline.dfy`, `Durations.dfy`, `MachineInts.dfy` | activity bumps, extensions and the time-to-live validator |
| `AppHealth.dfy` | the health checks of workspace apps and their reporter |
| `QuerySearch.dfy` | the quote-aware splitter and the workspace search query |
| `PortForward.dfy`, `Decimal.dfy` | port-forward specifications |
| `DurationDisplay.dfy` | durations as the command line shows them |

Code that changes things step by step is a method or a class proved against a function of its
inputs or of the old state; the promises are then proved of that function. Concurrent code is a
state machine over its critical sections, and its theorems are about every run of the machine.

## What was found

Several promises do not hold of the code as it stands. For each of these the code is modelled as
it is, a run or an input shows the failure, and a theorem says exactly when the promise holds.

- A log batch whose first row has id 1 is announced with id 0, which the handlers take to mean
  that there is no batch; a client that read its history before never gets those rows
  (`LogFollow.ZeroIdLosesRow`, `LogFollow.InOrderDeliveryIff`).
- Handlers that run out of publish order can lose a row silently, although no read fails and the
  buffer never fills (`LogFollow.OutOfOrderLosesRow`); this happens exactly when the end closes the
  channel while another handler owes the row (`LogFollow.FaultlessDeliveryIff`).
- A job that is cancelled while pending, or fails while it is acquired, is completed without its end
  being announced; a client that found it unfinished waits until it disconnects
  (`LogFollow.DroppedJobLeavesWaiting`). So does one that follows a job re-opened after its end was
  announced (`LogFollow.ReopenedJobLeavesWaiting`). `LogFollow.StuckIff` says when.
- A cancel that read a pending job can complete it under the worker that has just acquired it; a
  client that then finds it completed lacks what the worker still writes (`LogFollow.LateRowIsLost`).
- A worker that writes after 30 seconds of silence, or a cancel of such a silent build once a
  newer build exists, leaves two builds active (`BuildLifecycle.RuleBreaksAfterSilence`); so does a
  create whose check has gone out of date (`BuildLifecycle.OutdatedInsertBreaksRule`).
- A worker may complete a job that it has already failed, and the job then reads as a success
  (`BuildLifecycle.LateCompletionOverturns`).
- A cancel that read the job before it completed and writes afterwards re-opens it
  (`BuildLifecycle.StaleCancelReopens`, `BuildLifecycle.CompletedNeverActiveAgainIff`).
- `Int63n` is uniform over raw draws exactly when its bound divides 2^63
  (`CryptoRand.Int63nUniformIff`), while `Uint32` is exactly uniform thanks to the raw draw -2^63
  staying negative (`CryptoRand.Uint32IsUniform`).
- A stray end marker before the managed section makes the next rewrite slice out of bounds
  (`SshConfig.StrayEndPanicsNextRunIff`), and rewriting is idempotent exactly when the markers are
  well placed (`SshConfig.RewriteIdempotentIff`).
- A port range that ends at 65535 never finishes expanding (`PortForward.RangeLoopEndsIff`).
- An extension that lands between a bump's check and its write is undone by the bump
  (`Deadline.ExtensionIsLost`); `Deadline.NeverEarlierIff` and `Deadline.ExtensionSurvivesIff` say
  exactly when a deadline moves earlier and when an extension survives.
- A bump compares the row it fetched with a later clock; an extension written in between can leave
  less than 50 minutes (`Deadline.StaleCheckLeavesThirtyMinutes`, `Deadline.FiftyMinutesLeftIff`).
- Overlapping bumps can both write (`Deadline.OverlappingBumpsBothWrite`, `Deadline.BumpWritesSpanIff`),
  and rounding to microseconds makes their ten-minute spacing non-strict (`Deadline.SpanNotStrict`).
- The product of milliseconds in the time-to-live validator wraps around, so values 2^58 apart are
  not told apart (`Deadline.TtlPeriodic`, `Deadline.HugeTtlAccepted`).
- A health report that fails to post is not sent again until some health changes
  (`AppHealth.ServerAgreesIff`, `AppHealth.LostPostDisagrees`).

Where comments and code differ the model follows the code: an extension must lie 29 minutes ahead,
not 30; an app turns unhealthy at one failure more than its threshold; durations above 24 hours
are truncated to the hour, not to the minute.

## Model

| member | source | states |
|---|---|---|
| `CryptoRand.ThresholdIsRemainder` | cryptorand/numbers.go:118-120 | the 32-bit value of -n mod n is 2^32 mod n |
| `CryptoRand.ShortcutIsExact` | cryptorand/numbers.go:115-131 | guarding with low < n first rejects exactly the inputs that the plain test low < 2^32 mod n rejects |
| `CryptoRand.UnbiasedModulo32IsUniform` | cryptorand/numbers.go:115-131 | for every n and k in [0,n), exactly floor(2^32/n) of the 2^32 inputs are accepted and map to k |
| `CryptoRand.HighIsStripe` | cryptorand/numbers.go:16-62 | which raw 64-bit draws give a 32-bit value: two mirrored stripes, and -2^63 for zero |
| `CryptoRand.Uint32IsUniform` | cryptorand/numbers.go:55-62 | every 32-bit value comes from exactly 2^32 of the 2^64 raw draws |
| `CryptoRand.Int31nUniformAtEveryAttempt` | cryptorand/numbers.go:100-131 | after any number j of rejected draws every k below n comes from the same number of raw draw sequences, (rejected draws)^j * floor(2^32/n) * 2^32 |
| `CryptoRand.AttemptDecidesInt31n` | cryptorand/numbers.go:100-131 | a stream that begins with such a sequence makes the redraw loop settle on k after exactly those bytes |
| `CryptoRand.Int63nIntervalIsFair` | cryptorand/numbers.go:83-96 | the accepted interval has a length that is a multiple of max, so every residue has equally many non-negative preimages |
| `CryptoRand.Int63nPreimages` | cryptorand/numbers.go:78-97 | the exact number of raw draws that give each residue, residue zero losing one when max does not divide 2^63 |
| `CryptoRand.Int63nUniformIff` | cryptorand/numbers.go:78-97 | all residues have equally many raw draws if and only if max divides 2^63 |
| `CryptoRand.Int63nUniformAtEveryAttemptIff` | cryptorand/numbers.go:78-97 | after any number of redraws all residues come from equally many raw draw sequences if and only if max divides 2^63 |
| `CryptoRand.AttemptDecidesInt63n` | cryptorand/numbers.go:78-97 | a stream that begins with such a sequence makes the loop settle on that residue after exactly those bytes |
| `CryptoRand.Int63nInRangeIff` | cryptorand/numbers.go:16-27 | an accepted raw draw gives a result in [0,max) except -2^63 when max does not divide 2^63 |
| `CryptoRand.FirstAccepted32IsAccepted` | cryptorand/numbers.go:116-129 | the redraw loop stops only on an accepted input |
| `CryptoRand.FirstAccepted63IsAccepted` | cryptorand/numbers.go:84-94 | the redraw loop stops only inside the fair interval |
| `CryptoRand.Entropy.Int63` | cryptorand/numbers.go:16-27 | the absolute value of the next eight bytes read big-endian, -2^63 staying as it is |
| `CryptoRand.Entropy.Uint32` | cryptorand/numbers.go:55-62 | the high half of the next draw |
| `CryptoRand.Entropy.UnbiasedModulo32` | cryptorand/numbers.go:115-131 | terminates with the pick of the first accepted input of the stream, in [0,n), or fails when the stream ends |
| `CryptoRand.Entropy.Int31n` | cryptorand/numbers.go:100-107 | the pick of the first accepted draw, in range |
| `CryptoRand.Entropy.Int63n` | cryptorand/numbers.go:78-97 | the residue of the first draw in the fair interval |
| `CryptoRand.Entropy.Intn` | cryptorand/numbers.go:134-154 | below 2^31 the index of the first accepted draw, in [0,max) for every draw; from there on the residue of the first accepted draw, in [0,max) for all but -2^63 with max not dividing 2^63 |
| `CryptoRand.Entropy.StringCharset` | cryptorand/strings.go:36-68 | exactly `size` runes, all from the charset, no index out of bounds; an empty charset gives the empty string |
| `CryptoRand.StringsAreUniform` | cryptorand/strings.go:52-66 | every index vector is produced by exactly floor(2^32/n)^size vectors of accepted words |
| `CryptoRand.AcceptedWordsDecideString` | cryptorand/strings.go:52-66 | when the words of the buffer are accepted, the string spells the index vector they pick |
| `CryptoRand.StringsUniformAtEveryAttempt` | cryptorand/strings.go:52-66 | however often each position redraws, every index vector comes from equally many inputs |
| `CryptoRand.InputsDecideString` | cryptorand/strings.go:52-66 | a buffer and stream that hold such inputs make the generator spell the index vector |
| `CryptoRand.BigEndian32IsBijective` | cryptorand/strings.go:57-58 | four bytes read big-endian and 32-bit words correspond one to one |
| `CryptoRand.BigEndian64IsBijective` | cryptorand/numbers.go:16-27 | eight bytes read big-endian and signed 64-bit numbers correspond one to one |
| `CryptoRand.DrawsOfEncoded` | cryptorand/numbers.go:16-27 | the stream that holds any sequence of raw draws reads back as that sequence |
| `CryptoRand.EncodedOfDraws` | cryptorand/numbers.go:16-27 | and every stream of whole draws is the stream of the draws it reads as |
| `CryptoRand.WordsOfEncoded` | cryptorand/strings.go:56-58 | the buffer that holds any vector of words reads back as that vector |
| `CryptoRand.EncodedOfWords` | cryptorand/strings.go:56-58 | and every buffer of whole words is the buffer of exactly one vector |
| `CryptoRand.BuffersAreUniform` | cryptorand/strings.go:45-66 | every index vector comes from exactly floor(2^32/n)^size byte buffers of accepted words |
| `CryptoRand.BufferDecidesString` | cryptorand/strings.go:45-69 | such a buffer at the head of the entropy makes the generator return the letters of that vector and leave the rest unread |
| `CryptoRand.StringFromBufferIff` | cryptorand/strings.go:45-69 | with distinct letters a buffer of accepted words gives a string if and only if it is one of the counted buffers of its index vector |
| `CryptoRand.StringEdges` | cryptorand/strings.go:36-69 | no letters or no length give the empty string and read nothing; otherwise a string has the length asked for, and an error means that the entropy ran dry |
| `FollowChannel.RowsAscending` | coderd/database/queries/provisionerjoblogs.sql:1-11 | the query returns exactly the rows above one id or below the other, in ascending order |
| `FollowChannel.AdvanceIsSafe` | coderd/provisionerjobs.go:380-445 | each action of a handler keeps mutual exclusion and never sends on or closes a closed channel |
| `FollowChannel.ApplyIsSafe` | coderd/provisionerjobs.go:370-451 | so does every publish and receive |
| `FollowChannel.NoPanicInAnyRun` | coderd/provisionerjobs.go:370-451 | for any messages and any interleaving of handlers, no send on a closed channel and no double close |
| `FollowChannel.BufferIsBounded` | coderd/provisionerjobs.go:373-422 | in every run the buffer holds at most 128 rows, and a handler drops its row if and only if it holds that many |
| `FollowChannel.StartedLateStaysQuiet` | coderd/provisionerjobs.go:381-386 | a handler that starts once the channel is closed never reads the table, in any run |
| `LogFollow.StepKeepsBasic` | coderd/provisionerjobs.go:151-190 | every step keeps: only rows of the job are sent, history first and in order, later logs not in it |
| `LogFollow.BasicInEveryRun` | coderd/provisionerjobs.go:32-191 | that invariant holds in every run |
| `LogFollow.HistoryExactlyOnce` | coderd/provisionerjobs.go:151-190 | in every run a finished client has each row of the historical read exactly once, and only rows of the job |
| `LogFollow.StepKeepsEnds` | coderd/provisionerjobs.go:47-76 | every step keeps: a client that subscribed before the end was announced has it on its way, and one that streamed to the end has drained the buffer |
| `LogFollow.StepKeepsFirstSkipped` | coderd/provisionerdserver/provisionerdserver.go:340-355 | every step keeps: no handler ever reads or buffers a row of the batch that begins with row 1 |
| `LogFollow.StepKeepsInv` | coderd/provisionerjobs.go:32-191 | every step keeps, in any order of handlers: until the channel closes, every row above the start id is in history, buffered, owed by a handler, about to be announced, missed by a fault, or in that batch |
| `LogFollow.StepLosesIff` | coderd/provisionerjobs.go:151-190 | a step makes a row unobtainable if and only if it closes the channel after history was read and before the row was buffered, or writes the row after the client had found the job completed |
| `LogFollow.DeliveredIff` | coderd/provisionerjobs.go:32-191 | in every run a finished client lacks a row above its start id if and only if some step of the run was one of these |
| `LogFollow.LossHasCause` | coderd/provisionerjobs.go:394-444 | an early close has a cause: another handler still owes the row, a fault lost it, or it is in the batch that begins with row 1 |
| `LogFollow.FaultlessMissesNothing` | coderd/provisionerjobs.go:394-428 | when reads succeed and the buffer has room no row is missed |
| `LogFollow.FaultlessDeliveryIff` | coderd/provisionerjobs.go:32-191 | without faults and in whatever order handlers run, a finished client lacks a row if and only if the end overtook a handler owing it, it was written after the client found the job completed, or it is in the batch that begins with row 1 and not in history |
| `LogFollow.InOrderNeverOvertakes` | coderd/provisionerjobs.go:404-408 | handlers run in publish order never let the end overtake |
| `LogFollow.EveryRowDelivered` | coderd/provisionerjobs.go:32-191 | in publish order, with any faults, a finished client has every row above its start id save missed ones, late ones and that batch |
| `LogFollow.InOrderDeliveryIff` | coderd/provisionerjobs.go:32-191 | in publish order and without faults a finished client lacks exactly the late rows and the rows of that batch that are not in its history |
| `LogFollow.NeverMarkedNeverLate` | coderd/workspacebuilds.go:577-600 | rows are written late only if a cancel that read the job while it was pending completes it under its worker |
| `LogFollow.WorkerDoneDeliveryIff` | coderd/provisionerjobs.go:32-191 | without such cancels a finished client lacks exactly the rows of that batch that are not in its history |
| `LogFollow.StuckIff` | coderd/provisionerjobs.go:63-76 | in every reachable state where nothing but giving up is possible, the request has finished or was given up if and only if the client did not find the job unfinished and then get no end: its worker stopped without announcing it, or it was announced before the client subscribed |
| `LogFollow.RunsAreBounded` | coderd/provisionerjobs.go:151-190 | once the worker is at rest every schedule comes to rest within a bounded number of steps |
| `LogFollow.KeepsReadingFinishesIff` | coderd/provisionerjobs.go:47-76 | so a client that keeps reading finishes if and only if it is not left waiting in that way |
| `LogFollow.QuietClientHasEverything` | coderd/provisionerjobs.go:151-190 | while the job goes on, a streaming client in a quiet system already has every row above its start id save missed ones and that batch |
| `LogFollow.OutOfOrderLosesRow` | coderd/provisionerjobs.go:430-444 | a faultless run whose finished client lacks a row because the end overtook its handler |
| `LogFollow.ZeroIdLosesRow` | coderd/provisionerdserver/provisionerdserver.go:345-351 | a faultless run in publish order whose finished client lacks row 1, announced with id zero |
| `LogFollow.LateRowIsLost` | coderd/workspacebuilds.go:589-600 | a faultless run in publish order whose finished client lacks a row written after a cancel completed the job under its worker |
| `LogFollow.DroppedJobLeavesWaiting` | coderd/provisionerdserver/provisionerdserver.go:96-113 | a run in which a job is completed before it starts, nobody announces its end, and a client waits for good |
| `LogFollow.ReopenedJobLeavesWaiting` | coderd/workspacebuilds.go:589-600 | a run in which a cancel re-opens a job whose end was announced, and a client that follows it then waits for good |
| `LogOrder.HistoryIsExact` | coderd/provisionerjobs.go:109-113 | the history is exactly the stored rows above the start id, in ascending order |
| `LogOrder.BelowStartIff` | coderd/provisionerjobs.go:109-190 | a client is sent a row at or below its start id if and only if it was streamed and a handler buffered it |
| `LogOrder.StreamedInEveryRun` | coderd/provisionerjobs.go:151-190 | in every interleaving the client has been sent its history followed by the rows taken from the buffer that are not in it, in buffer order |
| `LogOrder.SentExactly` | coderd/provisionerjobs.go:151-190 | a finished client has been sent exactly its history and then, if it streamed, every buffered row that is not in it |
| `LogOrder.QueryOffers` | coderd/provisionerjobs.go:394-404 | a handler that has read the table owes exactly the rows above the announced id, in ascending order |
| `LogOrder.SendOffersLowest` | coderd/provisionerjobs.go:404-422 | each send takes the lowest row still owed, buffered or dropped |
| `LogOrder.OfferingInEveryRun` | coderd/provisionerjobs.go:404-422 | in every run what a handler still owes is in ascending order and stored |
| `LogOrder.AnnouncedEndFinishes` | coderd/provisionerjobs.go:47-190 | once the end is announced and no cancel re-opens the job, a client that does not give up has finished wherever the run comes to rest, whenever it subscribed |
| `SshConfig.Index` | cli/configssh.go:422-423 | the first occurrence of the token, or -1 if and only if there is none |
| `SshConfig.BeforeIsMarkerFree` | cli/configssh.go:433-451 | the part before the section is free of markers if and only if the markers are well placed |
| `SshConfig.RewriteKeepsUserBytesIff` | cli/configssh.go:249-308 | splitting the rewritten file gives back the same before and after bytes if and only if the markers are well placed |
| `SshConfig.RewriteIdempotentIff` | cli/configssh.go:249-308 | rewriting twice equals rewriting once if and only if the markers are well placed |
| `SshConfig.OnlySectionReplaced` | cli/configssh.go:421-451 | with both markers on their own lines, file and rewritten file are the same bytes around the old and the new section |
| `SshConfig.OnlyNewlinesDroppedIff` | cli/configssh.go:433-451 | with the markers in order, the split drops no user byte but a newline on either side if and only if each marker has a line of its own |
| `SshConfig.StrayEndPanicsNextRunIff` | cli/configssh.go:421-428 | after a rewrite of a file without start marker, the next run slices out of bounds if and only if the file held an end marker |
| `SshConfig.FirstRewriteAppends` | cli/configssh.go:249-308 | a file without both markers comes out as itself, a newline unless it is empty, and the section |
| `SshConfig.BothMarkersSplit` | cli/configssh.go:433-451 | with both markers the split takes the bytes before the first start marker less one and those after the first end marker and one more |
| `SshConfig.AdjacentMarkers` | cli/configssh.go:421-428 | a start marker right behind the end marker extracts as an empty section |
| `SshConfig.TaggedLine` | cli/configssh.go:399-419 | a tagged line gives its value under the option key and nothing under any other; the key without a value panics |
| `SshConfig.CarriageReturnIgnored` | cli/configssh.go:399-419 | a line reads the same with a Windows line ending |
| `SshConfig.StanzaHolds` | cli/configssh.go:269-303 | looking a host up in the written lines finds exactly its settings, the given options first |
| `SshConfig.OptionsRoundTripIff` | cli/configssh.go:399-428 | writing the header, extracting the section and parsing it returns the same options in the same order if and only if each is one line, fits the scanner and does not end in a carriage return |
| `SshConfig.RerunReproducesFile` | cli/configssh.go:209-217 | rerunning with the previous options reproduces the file byte for byte |
| `SshConfig.WriteOptions` | cli/configssh.go:388-390 | appends one line per option |
| `SshConfig.WriteSectionHeader` | cli/configssh.go:378-393 | appends the marker, the banner and the stored options |
| `SshConfig.WriteHosts` | cli/configssh.go:269-303 | appends the block of every host with every option |
| `SshConfig.WriteAround` | cli/configssh.go:251-308 | the section between the two halves of the user's file, after a newline if anything precedes it |
| `SshConfig.RewriteConfig` | cli/configssh.go:249-308 | computes the rewritten file that the theorems are about |
| `SshConfig.ParseLastOptions` | cli/configssh.go:399-419 | the scanner loop computes the parsed options, or panics on a line that is too long or lacks '=' |
| `BuildLifecycle.Latest` | coderd/database/queries/workspacebuilds.sql:66-76 | a build with the highest number |
| `BuildLifecycle.InsertKeepsNumbering` | coderd/workspacebuilds.go:458-487 | an insert keeps the numbers 1..N, and is refused by the unique key if and only if another build was created since its check |
| `BuildLifecycle.BuildNumbersAreConsecutive` | coderd/workspacebuilds.go:384-487 | in every run, with checks and inserts interleaved freely, the numbers are exactly 1..N |
| `BuildLifecycle.StepKeepsOnlyLatestActiveIff` | coderd/provisionerjobs.go:335-358 | a step keeps the one-active-build rule if and only if it is not a late heartbeat or cancel of a superseded build nor an insert on an outdated check |
| `BuildLifecycle.OneActiveBuildIff` | coderd/workspacebuilds.go:384-403 | throughout a run only the latest build is active if and only if no such step occurs |
| `BuildLifecycle.AtMostOneActive` | codersdk/provisionerdaemons.go:54-58 | the rule leaves at most one active build |
| `BuildLifecycle.OneActiveBuildFromStart` | coderd/workspaces.go:430-457 | from the first build on: consecutive numbers and no two active builds |
| `BuildLifecycle.CompletedStaysIff` | coderd/workspacebuilds.go:577-600 | a completed job is inactive, and one step re-opens it if and only if it is a cancel that read the job while a worker held it |
| `BuildLifecycle.CompletedNeverActiveAgainIff` | coderd/workspacebuilds.go:577-600 | throughout a run a completed job is never active again if and only if no such cancel writes |
| `BuildLifecycle.SilencedRun` | coderd/provisionerjobs.go:352-356 | the run in which build 2 is created after build 1 fell silent |
| `BuildLifecycle.RuleBreaksAfterSilence` | coderd/provisionerjobs.go:352-356 | from there a late heartbeat, or a cancel of the silent build, leaves two active builds |
| `BuildLifecycle.StaleCancelReopens` | coderd/workspacebuilds.go:577-600 | the run in which a cancel that read the job before it completed re-opens it |
| `BuildLifecycle.OutdatedInsertBreaksRule` | coderd/workspacebuilds.go:384-403 | the run in which a silent worker writes between check and insert and two builds are active |
| `BuildLifecycle.StatusFollowsSteps` | coderd/provisionerjobs.go:335-358 | in every run the status of a job is decided by the steps taken on it: whether it was acquired and cancelled, how its last ending went, and how long ago its worker wrote |
| `BuildLifecycle.BuildsBeginUntouched` | coderd/workspacebuilds.go:458-487 | every job begins pending, with no step taken on it |
| `BuildLifecycle.EndDecidesStatus` | coderd/provisionerjobs.go:335-358 | from one ending of a job to the next ending or cancel, whatever else happens, it reads succeeded, failed or cancelled as it ended |
| `BuildLifecycle.StatusAdmits` | coderd/workspacebuilds.go:577-588 | a worker takes exactly pending jobs and updates no pending one; a cancel is admitted once, until the job ends |
| `BuildLifecycle.CheckedInsertKeepsRule` | coderd/workspacebuilds.go:384-403 | a create request that inserts right after its check keeps the rule of one active build |
| `BuildLifecycle.LateCompletionOverturns` | coderd/provisionerdserver/provisionerdserver.go:464-590 | after a failure a second failure is refused but a completion is not, and turns the job into a success |
| `BuildLifecycle.NumbersRunOut` | coderd/workspacebuilds.go:474-485 | the build after number 2^31-1 gets the lowest number, is never the latest, and no later request can insert another |
| `BuildLifecycle.DroppedKeepsOthers` | coderd/workspacebuilds.go:384-487 | a request that is done leaves all others waiting |
| `Parameters.DeleteExisting` | coderd/workspacebuilds.go:425-433 | the inner loop removes exactly the stored row of that name |
| `Parameters.InsertRefusedIff` | coderd/workspacebuilds.go:424-449 | an insert is refused if and only if the request named it before |
| `Parameters.WriteOne` | coderd/workspacebuilds.go:424-449 | one round of the outer loop |
| `Parameters.WriteParameters` | coderd/workspacebuilds.go:413-449 | succeeds if and only if no name is requested twice; then the table is the surviving rows and the requested ones, otherwise it is unchanged |
| `Parameters.WritingOverrides` | coderd/workspacebuilds.go:413-449 | the scope read as a map is the old map overridden by the request |
| `Parameters.WritingKeepsKeyAndOthers` | coderd/workspacebuilds.go:413-449 | each name has one row afterwards and every other scope is untouched |
| `AgentHeartbeat.StatusFollowsLastWrite` | coderd/workspaceagents.go:719-755 | in every run of overlapping connections the status is decided by the last write that landed and the clock; before any write it is connecting, or timed out exactly once the positive connection timeout has passed |
| `AgentHeartbeat.SilenceDisconnects` | coderd/workspaceagents.go:507-595 | more than the timeout after the last write the agent is disconnected, whether or not the closing write landed |
| `AgentHeartbeat.ConnectedUntilNextWrite` | coderd/workspaceagents.go:507-595 | after a heartbeat write the agent is connected until the next write if and only if the timeout has not passed |
| `AgentHeartbeat.ConnectionCarriesTimes` | coderd/workspaceagents.go:507-595 | in every interleaving a connection carries the first time of the row it loaded or else its own opening, its own last beat, and that row's disconnect time until its own closing |
| `ResourceJoin.ConvertMetadata` | coderd/workspacebuilds.go:950-977 | in ascending key order exactly the fields with a value, explicit ones overriding the implicit type |
| `ResourceJoin.AscendingUnique` | coderd/workspacebuilds.go:975-977 | the sorted list does not depend on the order of map iteration |
| `ResourceJoin.NestedAgents` | coderd/provisionerjobs.go:253-274 | the agents of one resource with their apps, in table order, or failure if one does not convert |
| `ResourceJoin.NestedJoin` | coderd/provisionerjobs.go:251-282 | the nested loops compute the join |
| `ResourceJoin.GroupBy` | coderd/workspacebuilds.go:883-898 | each bucket of an index is the filter of its table by that key, in table order |
| `ResourceJoin.IndexedAgents` | coderd/workspacebuilds.go:912-921 | the inner loop over the indexes gives the same agents |
| `ResourceJoin.IndexedJoin` | coderd/workspacebuilds.go:883-924 | the map-indexed assembly computes the join |
| `ResourceJoin.JoinsUnique` | coderd/workspacebuilds.go:883-924 | the join determines the result, including failure |
| `ResourceJoin.WhereKeepsOrder` | coderd/workspacebuilds.go:883-898 | a bucket holds every matching row once, in table order |
| `ResourceJoin.MetadataOfRows` | coderd/workspacebuilds.go:950-977 | an entry is listed if and only if the last row of its key has that value and sensitivity, or no row has the key "type" and it is the implicit type |
| `ResourceJoin.QueriedJoins` | coderd/provisionerjobs.go:212-249 | joining the rows fetched by id is joining the whole tables |
| `ResourceJoin.AssembliesAgree` | coderd/provisionerjobs.go:251-285 | both assemblies give the same lists in the same order, or fail together |
| `ResourceJoin.SortByName` | coderd/provisionerjobs.go:283-285 | the final sort is a permutation in name order |
| `Deadline.Rounded` | coderd/database/time.go:6-14 | whole microseconds, within half a microsecond |
| `Deadline.Row.ActivityBump` | coderd/activitybump.go:37-66 | writes if and only if a started, completed, auto-stop build has under 50 minutes; then the deadline moves later, and 50 minutes from the check are left |
| `Deadline.Row.ExtendDeadline` | coderd/workspaces.go:729-785 | accepted if and only if the build is started, completed and auto-stop and the time is 29 minutes ahead and not before the start; each refusal names the first condition that fails, and leaves the row unchanged |
| `Deadline.ManualStaysManual` | coderd/activitybump.go:41-44 | in every run of overlapping bumps and extensions a manual build never gets a deadline |
| `Deadline.BumpLeavesLifeIff` | coderd/activitybump.go:24-66 | a bump that writes leaves 50 minutes; one that ends at its check leaves them if and only if the last to write since it fetched the row did, and within its 15 seconds only an extension can fail to |
| `Deadline.FiftyMinutesLeftIff` | coderd/activitybump.go:21-66 | throughout any run of bumps and extensions every bump that ends leaves 50 minutes if and only if none ends a check on a row undercut since its fetch |
| `Deadline.WriteEarlierIff` | coderd/activitybump.go:25-66 | a bump moves the deadline earlier if and only if the last to write since it fetched the row was a bump stamped later or an extension past the new deadline |
| `Deadline.NeverEarlierIff` | coderd/activitybump.go:24-66 | throughout any run of bumps and extensions no bump moves the deadline earlier if and only if none writes after being outrun so |
| `Deadline.ExtensionSurvivesIff` | coderd/workspaces.go:762-785 | an accepted extension survives if and only if no bump that had fetched the row before it writes an earlier deadline after it |
| `Deadline.BumpWritesSpanIff` | coderd/activitybump.go:25-66 | in every run without extensions any k bump writes store deadlines spanning (k-1) * 10 minutes if and only if no bump writes over another that came between its fetch and its write |
| `Deadline.WriteSpacedIff` | coderd/activitybump.go:21-66 | one bump write keeps the ten minutes if and only if nobody wrote since its fetch |
| `Deadline.ApartInDeadline` | coderd/activitybump.go:46-56 | a check that saw the last deadline leads to one ten minutes later, strictly more if and only if its stamp comes half a microsecond or more after the ten minutes |
| `Deadline.BumpReadingsSpan` | coderd/activitybump.go:46-66 | in undisturbed runs the clock readings span strictly more than that from the first stored stamp |
| `Deadline.SpanNotStrict` | coderd/activitybump.go:52-56 | two bumps whose stored deadlines are exactly ten minutes apart |
| `Deadline.OverlappingBumpsBothWrite` | coderd/activitybump.go:24-66 | overlapping bumps that both write at once |
| `Deadline.ExtensionIsLost` | coderd/activitybump.go:24-66 | an extension between check and write that the bump undoes |
| `Deadline.StaleCheckLeavesThirtyMinutes` | coderd/activitybump.go:25-54 | a run in which the check passes on a fetched row and 30 minutes are left |
| `Deadline.StoredTtlInRange` | coderd/workspaces.go:1050-1063 | what is stored is a whole number of minutes from one minute to seven days |
| `Deadline.TtlFaithfulIff` | coderd/workspaces.go:1038-1064 | the requested time rounded down to the minute is stored if and only if it is at least a minute and below seven days and a minute |
| `Deadline.TtlPeriodic` | coderd/workspaces.go:1050 | times 2^58 milliseconds apart get the same answer |
| `Deadline.HugeTtlAccepted` | coderd/workspaces.go:1050 | 2^58 milliseconds more than an hour is accepted as an hour |
| `Deadline.TtlDefault` | coderd/workspaces.go:1039-1048 | no request, or one of zero, stores the default, and nothing if that is zero |
| `Deadline.TtlRefusedIff` | coderd/workspaces.go:1050-1058 | short of overflow a time is refused as too short if and only if it is below a minute, and as too long if and only if it is at least seven days and a minute |
| `Deadline.ExtensionWritesIff` | coderd/workspaces.go:729-785 | a request reaches its write, whatever runs in between, if and only if its checks held when it made them, and then stores the time it asked for |
| `Deadline.WriteWindow` | coderd/activitybump.go:19-66 | a bump may write up to 15 seconds after its fetch and not later |
| `AppHealth.Monitor.constructor` | agent/apphealth.go:34-50 | the starting maps, and whether any app has checks enabled |
| `AppHealth.Monitor.Record` | agent/apphealth.go:87-105 | the critical section after one check |
| `AppHealth.Monitor.Tick` | agent/apphealth.go:123-136 | an uninterrupted tick posts the health map if and only if it differs from the last copy |
| `AppHealth.HealthChanged` | agent/apphealth.go:159-171 | true if and only if some app is new or has another health, in any iteration order |
| `AppHealth.CopyHealth` | agent/apphealth.go:173-180 | an equal map |
| `AppHealth.ChangedIff` | agent/apphealth.go:159-171 | over the same apps the one-sided comparison finds every difference |
| `AppHealth.CounterAndHealth` | agent/apphealth.go:49-105 | in every run the counter is min(threshold, failures since the last success), and health is unhealthy past the threshold, healthy after a success, otherwise as before the streak |
| `AppHealth.AppFollowsResults` | agent/apphealth.go:34-58 | for the apps of a workspace, each one with an url, a positive interval and a positive threshold follows its own results from its own start once some app has its checks enabled, and each other one keeps its health |
| `AppHealth.OtherAppsDoNotMatter` | agent/apphealth.go:49-105 | equal results of one app give equal counter and health whatever the other goroutines do |
| `AppHealth.ReportingInEveryRun` | agent/apphealth.go:112-141 | between ticks the reporter holds the last posted map, or the starting copy |
| `AppHealth.QuietTickReports` | agent/apphealth.go:119-141 | once checks stop changing health and a tick has compared since, the last posted map, or the starting copy, is the health map |
| `AppHealth.SettledPostsNothing` | agent/apphealth.go:124-129 | from then on nothing is posted until some health changes |
| `AppHealth.ServerAgreesIff` | agent/apphealth.go:131-139 | a settled reporter and the server agree if and only if the last post was delivered or told nothing new, or with no post if nothing changed before the starting copy |
| `AppHealth.LostPostDisagrees` | agent/apphealth.go:134-139 | a run that settles while the server is wrong |
| `QuerySearch.SplitQuery` | coderd/workspaces.go:1162-1177 | the splitter with its captured quote flag computes the specified parts |
| `QuerySearch.SplitLosesOnlyDelimiters` | coderd/workspaces.go:1162-1177 | the parts concatenated are the query less its unquoted delimiters, and every part but the last has balanced quotes |
| `QuerySearch.SearchQuery` | coderd/workspaces.go:1110-1139 | the loop over the elements computes the specified parameters or error |
| `QuerySearch.PrintedTermsRoundTrip` | coderd/workspaces.go:1098-1139 | any list of quoted terms that lower-casing leaves alone, printed with spaces, parses to the map they describe |
| `QuerySearch.LastTermWins` | coderd/workspaces.go:1115-1139 | of repeated keys the last one counts |
| `QuerySearch.SplitCutsAtEveryDelimiter` | coderd/workspaces.go:1162-1169 | no part is empty or holds an unquoted delimiter: the query is cut at all of them |
| `QuerySearch.TrimIsExact` | coderd/workspaces.go:1170-1174 | trimming removes exactly the quotes at both ends |
| `QuerySearch.NamesParse` | coderd/workspaces.go:1115-1126 | a bare name sets the name, and owner/name sets both |
| `QuerySearch.TooManyParts` | coderd/workspaces.go:1127-1137 | a third part behind a second colon or slash is an error |
| `QuerySearch.EmptyElements` | coderd/workspaces.go:1115-1137 | an element of nothing but colons, or nothing but slashes, is an error |
| `QuerySearch.RefusedIff` | coderd/workspaces.go:1113-1139 | a query is refused if and only if one of its elements is, wherever it stands |
| `QuerySearch.CaseIsIgnored` | coderd/workspaces.go:1109 | queries that differ only in case read the same |
| `Decimal.ValueOfItoa` | cli/portforward.go:246 | a printed number reads back as itself |
| `Decimal.ItoaInjective` | cli/portforward.go:246 | different numbers print differently |
| `PortForward.RangeLoopEndsIff` | cli/portforward.go:360-363 | the loop over the 16-bit counter ends if and only if the range ends below 65535 |
| `PortForward.RangeDivergesIff` | cli/portforward.go:344-365 | parsing a range has no outcome if and only if it names two ports in order and the loop between them never exits |
| `PortForward.ParsePortRange` | cli/portforward.go:344-365 | the specified ports, an error, or no end |
| `PortForward.ParseSrcDestPorts` | cli/portforward.go:301-342 | the specified pairs, an error, or no end |
| `PortForward.PairsKeepOffset` | cli/portforward.go:334-341 | local ports are consecutive and remote ports lie at a constant offset |
| `PortForward.PrintedRangesForward` | cli/portforward.go:323-341 | a printed pair of ranges forwards port by port, or is refused if and only if the lengths differ |
| `PortForward.LocalKeyInjective` | cli/portforward.go:275 | the text of network and address identifies network and port |
| `PortForward.CheckDuplicates` | cli/portforward.go:272-280 | passes if and only if all network and local port pairs are distinct |
| `PortForward.ParseNetwork` | cli/portforward.go:236-252 | all comma-separated specifications of one network, up to the first that fails |
| `PortForward.ParsePortForwards` | cli/portforward.go:233-283 | succeeds if and only if every specification parses and all local ports are distinct |
| `PortForward.PrintedPair` | cli/portforward.go:301-321 | a printed pair forwards the first port to the second, and a single port to itself |
| `PortForward.PortIff` | cli/portforward.go:285-295 | a text reads as a port if and only if it is that port's digits with white space around them |
| `PortForward.BlanksAreTrimmed` | cli/portforward.go:285-295 | blanks, tabs and line ends on either side of a port do not matter |
| `PortForward.NotAPort` | cli/portforward.go:285-295 | zero, numbers past 65535, a sign and the empty text are no ports |
| `PortForward.MalformedSpecs` | cli/portforward.go:301-358 | a backwards range, a single port as a range, and a port paired with a range are refused |
| `PortForward.FirstFaultDecides` | cli/portforward.go:236-270 | the first specification that does not parse decides, whatever follows it |
| `PortForward.TcpFaultDecides` | cli/portforward.go:236-270 | a fault in the tcp flags decides before any udp flag is read |
| `PortForward.LastPortDiverges` | cli/portforward.go:343-366 | a local range up to 65535 never returns, whatever the remote part says |
| `PortForward.PrintedFlagsForward` | cli/portforward.go:233-270 | any tcp and udp flags of printed, comma-joined specifications parse to exactly the forwards they mean, in order and each under its network |
| `DurationDisplay.DisplayDuration` | cli/util.go:27-61 | the method computes the displayed text |
| `DurationDisplay.CountDays` | cli/util.go:46-50 | the day loop ends with the quotient and remainder by a day |
| `DurationDisplay.DisplayWhole` | cli/util.go:46-59 | whole minutes become the text that the read-back theorem is about |
| `DurationDisplay.TrimSuffixes` | cli/util.go:55-59 | the suffix loop applies the four trims in order |
| `DurationDisplay.NotTrimmed` | cli/util.go:55-59 | a number that is not zero is never cut by a trim |
| `DurationDisplay.ReadBack` | cli/util.go:46-59 | after trimming exactly the parts that are not zero are left, for all hours and minutes below a day and all days and hours above |
| `DurationDisplay.DisplayReadsBackIff` | cli/util.go:27-61 | reading the text back gives the absolute value rounded down to the minute, or to the hour above a day, if and only if it is at least a minute and not the minimum integer; zero, and shorter or minimal ones, have exactly their own texts |

## Left out

- HTTP routing, request decoding, status codes, authorization, audit and telemetry: plumbing around the modelled steps.
- SQL, pubsub and websocket transport: tables are sequences of rows, publishing starts a handler, and a lost connection is an abort.
- Postgres rounding an extension's deadline to microseconds: the model stores it as given.
- `cryptorand` floats, shuffles and hex strings, and the conversion of a charset string to runes: no argument of their own.
- CryptoRand.Entropy.StringCharset: requires fewer than 2^31 runes, because the 32-bit conversion of a longer charset's length is outside what the generator is for.
- FollowChannel and LogFollow: the `before` and `after` query parameters other than a start id, and reading without following.
- Sorting workspaces and hosts in `config-ssh`, prompts, the diff, shell escaping and replacing the file: hosts are taken in their final order, and the escaped binary and configuration paths as one text.
- SshConfig: `Rewrite` is the rewrite body alone; on a file whose markers are crossed the command panics on extracting the section before it gets there.
- SshConfig.RewriteKeepsUserBytesIff: requires options, hosts and paths free of marker text, which the command does not check.
- BuildLifecycle.BuildNumbersAreConsecutive: speaks of up to 2^31-1 builds; the number column is a 32-bit integer, and BuildLifecycle.NumbersRunOut says what the next one gets.
- Provisioner job tags, types and the choice among pending jobs, and a worker that dies without its row being updated: any pending job may be acquired.
- AgentHeartbeat: the two clocks of server replicas are one, so are the two readings when a connection opens, and failed database writes are steps that do not happen.
- The fields of resources, agents and apps that are copied across unchanged.
- AppHealth: HTTP checks and tickers are a stream of results per app; threads are cut at their critical sections.
- QuerySearch: the typed parsing of known filters; lower-casing of a single rune is a parameter.
- Deadline: build creation and completion of the job, the row beginning in any state; a bump's update and commit are one step, taken within its 15 seconds.
- LogFollow: that the scheduler eventually runs every goroutine, and a batch whose announcement fails to publish.
- Finite tables such as workspace display status, cron schedules, tailnet, terminals and process control.
