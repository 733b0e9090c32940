# A verified model of the quickfix-tokio session engine

quickfix-tokio is a FIX engine in which one task owns all the state of a session. This project models
its five hard parts in Dafny and proves what they promise:

* the **session layer**: sequence numbers, the stash of messages that arrive too early, resend requests
  and their answers, possible duplicates, GapFills, the NextExpectedMsgSeqNum(789) logon, heartbeats and
  the session schedule;
* the **wire codec and the framer**: printing with computed BodyLength and CheckSum, parsing with
  length-prefixed data, carving messages out of a byte stream;
* the **stores**: an append-only file store and a bounded memory store against a plain map;
* the **schedule**: when two instants belong to the same occurrence of a session window;
* **repeating groups** and the canonical order of a message body.

`dafny verify dfyconfig.toml` checks everything.

## How it is organised

| file | contents |
|---|---|
| `Messages.dfy` | what the session layer sees of a message |
| `SessionSpec.dfy` | every handler of the session as a function on its state, `Apply` for one event, `Run` for a sequence of events |
| `SessionMachine.dfy` | `Session`, the object that updates its fields in place; each method is proved to compute its function |
| `SessionInvariants.dfy` | what every event keeps; in-order delivery and sender numbering over whole runs |
| `GapRecovery.dfy` | answers to resend requests, and two sessions connected by one |
| `ClosedLoop.dfy` | a gap asked for piece by piece, answered, and filled |
| `Handshake.dfy` | two sessions that log on with 789 |
| `ResendChunks.dfy` | resend requests in pieces |
| `Sending.dfy` | which sends go out, and what a healthy connection does with them |
| `Duplicates.dfy` | numbers that are too low |
| `StoreResets.dfy` | every occasion on which a session restarts at 1, and logging on with ResetSeqNumFlag |
| `Reactions.dfy` | what each fault, verdict, timer, tick and command causes |
| `StashReplay.dfy` | which stashed messages the application gets to see |
| `Timers.dfy` | deadlines and what happens at them |
| `Schedule.dfy`, `ScheduledResets.dfy` | session windows, and the resets they cause over runs |
| `Bytes.dfy`, `Framer.dfy`, `Codec.dfy`, `CodecRoundTrip.dfy`, `CodecMachine.dfy` | decimal numbers, framing, codec, their inverses, and the parser and printer loops |
| `FrameShape.dfy`, `CodecValidation.dfy` | what is a frame, and what is a message, over positions in the bytes |
| `Checksums.dfy`, `Corruption.dfy` | what the checksum is, and which damage validation notices |
| `StoreFiles.dfy`, `Stores.dfy`, `StoreHistory.dfy` | the text of the store's files, the stores, and what they hold told from their history |
| `FieldGroups.dfy` | field maps, repeating groups, canonical order |
| `CanonicalForms.dfy` | canonical bodies as fixed points, and for which dictionaries canonicalising is idempotent |
| `GroupMeaning.dfy` | for which dictionaries canonicalising keeps what groups mean |

The session is a class whose methods change it, and each of them ends in the state that a function of the
old state names; that function is what the lemmas are about. `Session.Serve` therefore carries every
theorem about `Run` over to the object. The flags and counters of the session are grouped into five
records (connection, outgoing, incoming, recovery, clock). The records also keep history that the program
does not have: what was put on the wire, what was numbered and delivered in the present epoch, which ranges
were asked for, when scheduled resets happened. An *epoch* lasts from one store reset, or one change of the
counters by an operator, to the next.

## What the model takes for granted

* Store operations succeed and the outbound channel stays open during a step. The file store is modelled
  separately, and `RefreshOnLogon` is left out of the session because reloading an unchanged store changes
  nothing, as `Stores` shows.
* Verdicts the session cannot compute are oracles that travel with the message, once for its arrival and
  once for a replay from the stash: BeginString, dictionary, SendingTime, CompID and OrigSendingTime checks
  and the answers of the application. Callbacks do not change the fields that drive sequencing.
* Sequence numbers are at least 1 (an operator does not set 0) and do not wrap around. The program stops
  short of that anyway: numbers are printed through a signed 64-bit integer (src/value.rs:63).
* Wall clock time is whole seconds of UTC; weekdays follow from day numbers. Monotonic time and the factors
  1.2 and 2.4 are exact.
* HeartBtInt(108) is announced in whole seconds; the interval itself is a non-negative real number.
* `sort_by_key` is a stable sort, modelled by insertion; that the result is sorted, a permutation and stable
  is proved.

## What was found

* A message that waits in the stash is skipped when its type begins with "A" or "2", because the test for
  queued Logons and ResendRequests compares a prefix (src/session.rs:1386). `QueuedMessageDeliveredIff` says
  exactly which messages are concerned; `SkippedMessageIsLost` follows one, such as a TradeCaptureReport (AE),
  that arrives one number early: the session ends up behind it, and no resend brings it back.
* The Logon reply announces next-target + 1 (src/session.rs:669), also when the Logon it answers is itself
  too high and is not counted (`AnnouncesNextIff`). An acceptor that is behind then never recovers through
  the handshake: what it is sent starts one number too late, and the range it recorded keeps it from
  asking. `LogonRecoversIff` states that both directions recover if and only if the acceptor was in sequence.
* A request that ends at 999999 is answered as if it were open-ended, also when it asks for one piece of a
  larger gap (src/session.rs:1243). `AnsweredAsAskedIff` gives the exact condition.
* Setting ResetSeqNumFlag without ResetOnLogon makes the acceptor forget its counters but not the initiator its
  own, so the two are in step only if the initiator stood at 1 anyway (`ResetLogonInStepIff`).
* Validation compares the sum with the first CheckSum field it finds, but sums up to the last
  (src/message.rs:191-196). So one damaged byte that turns another tag into 10 can go unnoticed:
  `ChangedByteIsNoticed` shows that this is the only way, `UnnoticedChange` and `UnnoticedChangeExists` that it
  is one.
* On the closing second of an overnight window the store is taken to belong to another occurrence, so a tick
  on that second resets the session once more (`OvernightResetDueIff`); `OneResetPerOccurrence` shows that
  this is the only way to get two resets in one occurrence.
* A weekly window that starts and ends on the same day, opening no later than it closes, has no occurrences
  in any consistent sense: "same range" is not transitive (`FoldedWeekIsNotTransitive`).
* Canonicalising a body twice can differ from canonicalising it once. `IdempotentIff` characterises the
  dictionaries for which it never does, by a finite certificate that can be computed from the dictionary;
  `CanonicalIsIdempotent` and `PartialNestingBreaks` are conditions on either side that are easy to read.
* Canonicalising can tear a group apart whose counter may occur in another group. `KeepsGroupsIff` says for
  which groups this cannot happen.

## Model

| member | source | states |
|---|---|---|
| `SessionInvariants.InOrderDelivery` | src/session.rs:894-1016 | over any interleaving of messages, replays, rejects, timers, ticks and reconnects in an epoch, next-target never decreases and what the application newly sees has strictly ascending numbers, each equal to the number expected at that moment |
| `SessionInvariants.SenderNumbering` | src/session.rs:566-598 | from a reset store, fresh sends are numbered 1, 2, 3, ... without gap or repeat, connected or not; a persisting store holds exactly the messages that took the numbers used; whatever the epoch put on the wire is a possible duplicate or one of these messages, each at most once and in ascending order |
| `SessionInvariants.SendCountsIff` | src/session.rs:566-598 | a send takes exactly one number, unless the application refuses it; then nothing changes at all |
| `Sending.TransmittedIff` | src/session.rs:587-611 | an accepted send made while connected puts exactly the newly numbered message on the wire, if and only if a Logon was sent or the message is a Logon, Logout, ResendRequest or SequenceReset |
| `Sending.NumberedAsGiven` | src/session.rs:566-586 | it carries the next number, no PossDupFlag and otherwise what the application gave; it is saved if messages are persisted |
| `Sending.SendsGoOut` | src/session.rs:566-611 | any sequence of sends of a logged-on session appears on the wire, numbered consecutively |
| `Sending.SentIsDelivered` | src/session.rs:1359-1368 | two sessions logged on and in sequence: what one application sends the other receives, once, in order and unchanged but for the number; counters stay in step and nothing is asked for |
| `SessionInvariants.MarkStays` | src/session.rs:602-611 | within an epoch the part of the wire that belongs to it begins at one place |
| `SessionInvariants.AnswerIsDuplicate` | src/session.rs:1262-1314 | resends and GapFills are all marked as possible duplicates |
| `SessionInvariants.RunKeeps` | src/session.rs:255-338 | every run without operator changes keeps the invariant: numbering, deliveries, resend range bounds, every stashed key strictly above next-target |
| `SessionInvariants.RunEvolvesThroughout` | src/session.rs:255-338 | any two moments of a run are related: counters only grow and logs are only appended to within an epoch |
| `SessionInvariants.EventKeeps` | src/session.rs:255-338 | each single event keeps that invariant and that relation |
| `SessionInvariants.SpawnedIsSound` | src/session.rs:190-235 | a session spawned over any well-numbered store starts in the invariant |
| `SessionInvariants.ProcessStep` | src/session.rs:847-890 | handling one message keeps the connection, the invariant and the order of the logs, whichever branch is taken |
| `Duplicates.TooLowDropsIff` | src/session.rs:1048-1092 | a number that is too low ends the connection with exactly one Logout if and only if PossDupFlag is not set; a plausible duplicate changes nothing at all; one without OrigSendingTime is rejected, one whose time lies behind SendingTime is rejected and followed by a Logout |
| `Duplicates.LowLogonDropsIff` | src/session.rs:1048-1054 | the same for a Logon that resets nothing |
| `Reactions.FaultIsAnswered` | src/session.rs:856-966 | wrong version, failed validation, missing or stale SendingTime, wrong CompIDs and missing number: what is sent, what is counted, and whether the connection stays |
| `Reactions.VerdictIsCarriedOut` | src/session.rs:991-1013 | a due application message is delivered and the verdict of the application carried out |
| `Reactions.AdminIsAnswered` | src/session.rs:1217-1234 | heartbeats and rejects are counted, a TestRequest is answered by a Heartbeat and counted, a second Logon ends the connection |
| `Reactions.RequestCountsIffDue` | src/session.rs:1249-1256 | a ResendRequest is counted exactly if it was due |
| `Reactions.ResetModeMoves` | src/session.rs:1316-1340 | a SequenceReset without GapFillFlag is obeyed whatever its number, forwards only |
| `Reactions.OpenRequestAsksForAll` | src/session.rs:759-772 | without a limit a gap is asked for up to the end, in the notation of the version |
| `Reactions.AsksAgainIff` | src/session.rs:1036-1044 | while a range is outstanding, a message ahead asks again exactly if configured |
| `Reactions.CommandActs` | src/session.rs:273-300 | logging out, changing counters, a second connection, garbled bytes and messages without a type |
| `Reactions.UnexpectedEnds` | src/session.rs:1020-1028 | messages before the Logon, an answer to a Logon never sent, and a Logon with a bad time end the connection without a word |
| `Reactions.AdmittedIff` | src/session.rs:1020-1028 | who is let in before and after the Logons; a message that is not ends the connection without a word |
| `Reactions.LogonNeedsNumber` | src/session.rs:955-966 | a Logon without a number is not accepted, counted or answered |
| `Reactions.HighLogonAsksIff` | src/session.rs:1175-1192 | a Logon ahead is stashed; its gap is only recorded in 789 mode and asked for otherwise, or when the Logon resets |
| `Reactions.RequestCovers` | src/session.rs:1240-1245 | a request covers what it names, no further than the last message sent; no end, 0 and 999999 mean everything, no beginning means 1 |
| `SessionInvariants.ProcessSettles` | src/session.rs:847-890 | if the stash lies above next-target before a message, it lies at or above next-target after it |
| `SessionInvariants.DrainStep` | src/session.rs:1378-1395 | replay takes stashed messages exactly when they are due and, unless the connection drops, leaves only keys strictly above next-target |
| `SessionInvariants.DrainKeepsCourse` | src/session.rs:1378-1395 | replay never resets the store, never asks for anything and leaves the outstanding range alone, because a Logout is never stashed |
| `SessionSpec.InSequenceNeverStashes` | src/session.rs:1378-1395 | handling a message that is due never stashes anything, so the stash strictly shrinks and the replay loop ends; it asks for nothing, and only a Logout can reset the store |
| `SessionSpec.ApplyKeepsKeys` | src/session.rs:1030-1046 | across every event each stashed message sits under its own sequence number and is no Logout |
| `GapRecovery.TwoSessionRecovery` | src/session.rs:1236-1340 | everything one session puts on the wire for a resend request, fed to another that expects its begin and has nothing stashed in the range, leaves the receiver at end + 1 with exactly the stored, parseable, non-admin, non-vetoed messages delivered once each and in order; then it only replays what it had stashed |
| `GapRecovery.ReplayTiles` | src/session.rs:1284-1313 | for every store content and veto pattern the answer partitions [begin, end + 1) in ascending order |
| `GapRecovery.ReplayContents` | src/session.rs:1284-1313 | no two GapFills are adjacent, everything is a possible duplicate, and apart from GapFills the answer is exactly the messages to be sent again, in order |
| `GapRecovery.AnswerTiles` | src/session.rs:1262-1271 | the same for a whole answer, and without persistence one GapFill for the range |
| `GapRecovery.AnswerOnWire` | src/session.rs:1236-1257 | answering puts exactly the answer on the wire, consumes no sender number and changes neither stash nor deliveries |
| `GapRecovery.ReceiveTile` | src/session.rs:1316-1340 | one GapFill or resent message received when due consumes exactly its numbers and delivers exactly the application message |
| `GapRecovery.ReceiveTiles` | src/session.rs:817-844 | a whole tiling of a range received in order consumes exactly that range, sending nothing as long as it stays within the piece asked for |
| `ClosedLoop.GapIsRecovered` | src/session.rs:759-796 | a session that asks for a gap piece by piece and receives the answers fills a gap of n messages in exactly ceil(n / max) rounds; it has then delivered exactly the resendable messages of the gap, once each and in order, cleared its range, and replayed its stash as far as it was due |
| `ClosedLoop.GapOpens` | src/session.rs:1030-1046 | a message that arrives too early is stashed and the first piece of the gap is asked for |
| `ClosedLoop.NextPieceAsked` | src/session.rs:784-796 | a finished piece that is not the last one is followed by the request for the next, and by nothing else |
| `ClosedLoop.LastPieceSettles` | src/session.rs:817-844 | the last piece clears the range and leaves nothing stashed that is due |
| `ClosedLoop.AnsweredAsAskedIff` | src/session.rs:1240-1245 | a request is answered up to the number it asks for if and only if that is not 999999, or nothing lies behind |
| `Handshake.LogonRecoversGap` | src/session.rs:1096-1214 | two idle sessions, acceptor in sequence, initiator behind by any amount: after the reply and the implied retransmission both counters agree, stash and resend range are empty, no request was made, the initiator's application has seen exactly the missed messages, and the acceptor keeps the announced heartbeat interval unless it has its own |
| `Handshake.LogonRecoversIff` | src/session.rs:1141-1214 | when everything both sides send has arrived, both directions are recovered if and only if the acceptor was in sequence; one that was behind stays where it was, delivers nothing, sends nothing and asks for nothing |
| `Handshake.StaysStuck` | src/session.rs:1030-1046 | messages ahead of the expected number change nothing but the stash while a range is outstanding and redundant requests are off |
| `Handshake.LogonIsAnswered` | src/session.rs:642-674 | the Logon announces next-target and the interval; the acceptor adopts the interval, replies, and counts or stashes the Logon |
| `Handshake.AnnouncesNextIff` | src/session.rs:665-670 | the announced 789 is the number accepted next if and only if the Logon answered was in sequence |
| `Handshake.InitiatorOpens` | src/session.rs:613-640 | attaching sends one Logon that announces next-target and changes nothing else of the counters |
| `Handshake.AcceptorGreets` | src/session.rs:1141-1214 | an acceptor adopts the interval, replies and sends what the peer's 789 says is missing; a Logon in sequence is counted, one too high is stashed and its gap recorded |
| `Handshake.InitiatorHears` | src/session.rs:1171-1212 | a reply that is too high is stashed and its gap recorded without a ResendRequest, one in sequence is counted, and what its 789 asks for is sent again |
| `Handshake.CatchUp` | src/session.rs:976-988 | whether the stashed Logon is replayed first or superseded by the final GapFill, the initiator ends at the same number with nothing stashed or outstanding |
| `Handshake.GreetingTiles` | src/session.rs:1205-1212 | the retransmission covers the missing range including the reply itself, and so ends in a GapFill |
| `Handshake.DisconnectIdles` | src/session.rs:375-398 | a dropped connection leaves no flag, stash or range behind |
| `StoreResets.ResetLogonInStepIff` | src/session.rs:1113-1136 | two sessions at any counters that log on with ResetSeqNumFlag are in step if and only if the initiator itself starts at 1 |
| `StoreResets.AcceptorRestarts` | src/session.rs:1113-1214 | an acceptor made to restart forgets everything before it looks at the Logon: its reply is number 1, and only a Logon number 1 is counted |
| `StoreResets.ReplyIsHeard` | src/session.rs:1137-1198 | the reply, number 1, is counted by an initiator that expects 1 and ends the connection of one that expects more |
| `StoreResets.AttachRestartsIff` | src/session.rs:341-373 | attaching restarts an initiator exactly if configured, before its Logon takes the next number |
| `StoreResets.LogoutRestartsIff` | src/session.rs:1342-1357 | a Logout is answered unless we sent one, counted, and ends the connection; the store restarts exactly if configured |
| `StoreResets.ClosingRestartsIff` | src/session.rs:375-398 | a closed connection restarts the store exactly if configured |
| `StoreResets.SpawnedIsIdle` | src/session.rs:190-235 | a spawned session has no connection and nothing left over |
| `ResendChunks.ChunkedRecovery` | src/session.rs:759-796 | while a recovery lasts, requested ranges are disjoint, ascending, inside the original gap and at most max long, and n missing messages cost at most ceil(n / max) requests |
| `ResendChunks.CheckEndsRecoveryIff` | src/session.rs:784-796 | the check clears the range exactly when expected exceeds the end of the gap, and asks again exactly when the current piece is complete and the gap is not |
| `ResendChunks.EventAsks` | src/session.rs:1039-1044 | during a recovery no event asks for anything but the next piece of the outstanding range |
| `ResendChunks.RunFollowsPlan` | src/session.rs:759-796 | the requests of a whole run are successive pieces of one gap, each as long as allowed unless the gap ends first |
| `StashReplay.QueuedMessageDeliveredIff` | src/session.rs:1378-1395 | a due stashed application message that passes all checks reaches the application if and only if it parses again and the prefix test does not take it for a Logon or ResendRequest |
| `StashReplay.PassedOverStaysUndelivered` | src/session.rs:894-1016 | a number passed over is never delivered in its epoch, whatever the peer resends |
| `StashReplay.SkippedMessageIsLost` | src/session.rs:1378-1395 | a run that loses a message: n + 1, of a type the prefix test mistakes, arrives before n; afterwards n + 2 is expected, only n was delivered, and n + 1 is not delivered while the epoch lasts |
| `StashReplay.SkippedTypes` | src/session.rs:1456-1464 | every application type that begins with "A" or "2" is such a type |
| `Timers.ActsIffDue` | src/session.rs:412-478 | the timer acts if and only if the announced deadline has been reached |
| `Timers.ActionMakesProgress` | src/session.rs:437-478 | every action disconnects or moves the deadline strictly beyond now |
| `Timers.SilenceDisconnects` | src/session.rs:465-469 | after 2.4 intervals without a verified message any firing disconnects, and the deadline has passed by then |
| `Reactions.TimerActs` | src/session.rs:437-478 | the timeouts, the TestRequest after 1.2 intervals of silence and the Heartbeat after one idle interval, in order of precedence |
| `Reactions.ZeroIntervalIsSilent` | src/session.rs:421-425 | an interval of 0 turns the timers of a logged-on session off |
| `Timers.TimersOverRuns` | src/session.rs:412-478 | over any run at most one test request is outstanding, and agreement and progress hold at every state reached |
| `Timers.EventTimers` | src/session.rs:255-338 | every event keeps what the timers rely on |
| `ScheduledResets.OneResetPerOccurrence` | src/session.rs:483-512 | over any run with non-decreasing wall clock no two scheduled resets fall in one occurrence, whatever else happens, except that overnight a further one may fall on the closing second |
| `ScheduledResets.StrictlyOneReset` | src/session.rs:483-512 | without ticks on the closing second of an overnight window, every occurrence of every window sees at most one scheduled reset |
| `ScheduledResets.ResetsAreTicks` | src/session.rs:499-512 | scheduled resets happen at ticks and nowhere else |
| `ScheduledResets.TickAlignsStore` | src/session.rs:483-512 | after a tick inside the window the store's creation time lies in the current occurrence |
| `ScheduledResets.EventClock` | src/session.rs:499-512 | creation time changes only to the present, and a scheduled reset is recorded exactly when a tick finds one due |
| `StoreResets.DueTickRestarts` | src/session.rs:499-512 | a tick that finds the store stamped in another occurrence says goodbye, drops the connection and restarts both counters at 1 with nothing saved |
| `StoreResets.OtherTickKeeps` | src/session.rs:483-533 | any other tick leaves counters and stamp alone, unless it drops a connection whose end resets |
| `Reactions.OutsideWindowEnds` | src/session.rs:488-498 | outside the window the connection is ended, with a Logout if logged on |
| `Reactions.InsideWindowActs` | src/session.rs:513-532 | when the logon window is closed a logged-on session says Logout; when it opens a deferred Logon is sent |
| `ScheduledResets.OvernightResetDueIff` | src/schedule.rs:215-234 | inside one overnight span a second reset is due exactly on the closing second |
| `Schedules.SameRangeIsSameOccurrence` | src/schedule.rs:196-275 | for daytime and weekly windows `is_in_same_range` holds iff both instants lie in one interval of the periodic window |
| `Schedules.RangeIsUnionOfOccurrences` | src/schedule.rs:155-191 | being in range is lying in some interval of the window, overnight windows included |
| `Schedules.SameRangeIsEquivalence` | src/schedule.rs:196-213 | reflexive, symmetric and transitive on in-range instants |
| `Schedules.OccurrenceIsConvex` | src/schedule.rs:196-213 | instants between two of one occurrence belong to it |
| `Schedules.StartDateIsIndex` | src/schedule.rs:238-250 | the computed start date names the occurrence |
| `Schedules.OvernightLooksBack` | src/schedule.rs:215-234 | for an earlier instant: true iff same span across midnight and now is not the closing second |
| `Schedules.OvernightLooksAhead` | src/schedule.rs:215-234 | for a later instant: exactly when the answer is right |
| `Schedules.OvernightIsInexact` | src/schedule.rs:215-234 | closing and opening second of every overnight span are told apart |
| `Schedules.FoldedWeekIsNotTransitive` | src/schedule.rs:252-275 | a same-day weekly window opening no later than it closes is never transitive |
| `Schedules.NonStopNeverEnds` | src/schedule.rs:155-213 | a non-stop session is always in range and in the same occurrence |
| `SessionMachine.Session.Retransmit` | src/session.rs:1275-1314 | the loop over the range emits exactly `Replay` |
| `SessionMachine.Session.DrainStash` | src/session.rs:1378-1395 | the replay loop, terminating because the stash shrinks |
| `SessionMachine.Session.OnInbound` | src/session.rs:817-844 | garbled bytes are ignored unless a Logon is awaited; otherwise process, drain, check pieces |
| `SessionMachine.Session.Handle` | src/session.rs:255-338 | one turn of the run loop is `Apply` |
| `SessionMachine.Session.Serve` | src/session.rs:255-338 | any stretch of the run loop is `Run`, so every theorem on runs holds for the object |
| `Framer.ChunkInvariance` | src/parser.rs:24-87 | for every byte stream, garbage included, and any two ways of splitting it into reads, the frames and the remainder are those of the whole stream |
| `Framer.FramesAreCarved` | src/parser.rs:24-87 | frames are disjoint in-order substrings, each from "8=" to SOH |
| `Framer.ExtractCarves` | src/parser.rs:24-87 | a frame lies in the buffer and what remains is exactly what follows it |
| `Framer.FrameStable` | src/parser.rs:24-87 | more bytes do not change a frame already complete |
| `Framer.IncompleteStable` | src/parser.rs:34-39 | what an incomplete extraction drops has no influence on what more bytes bring |
| `Framer.FramesJoin` | src/transport.rs:51-67 | draining and reading on is draining the longer buffer |
| `FrameShape.ExtractIff` | src/parser.rs:24-87 | on any bytes, what is extracted is the frame at the first "8=" that is not garbled, everything before it is dropped, and if there is such a frame it is extracted |
| `FrameShape.ScanIff` | src/parser.rs:42-85 | a frame: BodyLength n behind the first field, the first CheckSum tag at the end of these n bytes or later, and the SOH behind it |
| `FrameShape.GarbledIff` | src/parser.rs:47-66 | a beginning is garbled exactly if its second field is no BodyLength or holds no number |
| `Framer.Find` | src/parser.rs:89-91 | the first occurrence, or none anywhere |
| `Framer.ScanBuffer` | src/parser.rs:42-84 | the checks behind an "8=" |
| `Framer.Receiver.ExtractFrame` | src/parser.rs:24-87 | consumes the frame and all before it; the resynchronising loop terminates on any bytes |
| `Framer.Receiver.Drain` | src/transport.rs:57-61 | all frames of the buffer |
| `Framer.Receiver.ReadAll` | src/transport.rs:51-67 | the read loop yields the frames of everything read |
| `Bytes.ParseDecimal` | src/value.rs:60-74 | a printed number reads back, within the width of the reader |
| `Bytes.ParseSignedDecimal` | src/value.rs:60-74 | the same for signed numbers such as tags |
| `CodecRoundTrip.PrintParseRoundTrip` | src/message.rs:70-204 | every well-sectioned message parses back from its bytes with no structure error, the same body, and header and trailer in canonical order with computed 9 and 10 |
| `CodecRoundTrip.ReprintIsIdentical` | src/message.rs:214-247 | printing what was parsed gives identical bytes |
| `CodecRoundTrip.FramerInvertsPrinter` | src/parser.rs:62-85 | behind a printed message the framer stops exactly at its end, whatever its data contains and whatever follows |
| `CodecRoundTrip.FramesOfPrinted` | src/parser.rs:24-87 | the frames of any list of printed messages are those byte strings, in order |
| `CodecRoundTrip.WireDelivers` | src/transport.rs:51-67 | printing, any splitting into reads, framing and parsing return the messages sent |
| `CodecValidation.ParsesIff` | src/message.rs:70-173 | a byte string parses exactly if its fields can be read and begin with 8, 9 and 35; the result is its fields in order, each in the section of its tag, with the first one out of place named |
| `CodecValidation.ValidatedIff` | src/message.rs:175-201 | validation accepts exactly if, in addition, BodyLength is the distance from the second field to the last CheckSum field and the first CheckSum field holds the byte sum before the last one, modulo 256 |
| `CodecValidation.CountsFromSecond` | src/message.rs:266-277 | the end of the second field is behind the second SOH |
| `CodecValidation.TagTables` | src/tags.rs:82-149 | the tag classes; a Length tag and its data tag share a section and are printed next to each other |
| `Corruption.DeclaredNumbersDecide` | src/message.rs:175-201 | a well-formed message printed with any BodyLength and CheckSum is accepted if and only if both are right |
| `Corruption.WrongChecksumIsRefused` | src/message.rs:191-200 | any other number in the CheckSum field is refused |
| `Corruption.WrongLengthIsRefused` | src/message.rs:178-190 | any other number in the BodyLength field is refused, even with a matching CheckSum |
| `Corruption.ChangedByteIsNoticed` | src/message.rs:175-201 | one changed byte ahead of the CheckSum field is noticed, unless it makes a CheckSum field appear ahead of the real one |
| `Corruption.UnnoticedChange` | src/message.rs:191-200 | a field 20 that holds one less than the checksum: damaged to 10, the message is accepted |
| `Corruption.UnnoticedChangeExists` | src/message.rs:191-200 | such messages exist |
| `Checksums.ChecksumAdds` | src/message.rs:280-282 | the empty sum is 0, a byte sums to itself, and sums add modulo 256 |
| `Checksums.ChecksumNotices` | src/message.rs:280-282 | changing a byte changes the checksum |
| `CodecRoundTrip.SortSorts` | src/message.rs:221-237 | printed sections are sorted permutations |
| `CodecRoundTrip.SortIsStable` | src/message.rs:221-237 | fields of equal tag, such as hops, keep their order |
| `CodecRoundTrip.SortKeepsSorted` | src/message.rs:221-237 | sorted sections print as they are |
| `CodecMachine.NextField` | src/message.rs:81-117 | one field, a data value as long as announced |
| `CodecMachine.ParseMessage` | src/message.rs:70-204 | the parsing loop computes `Parse`, errors included; what that accepts is said by `ParsesIff` and `ValidatedIff` |
| `CodecMachine.FieldEndOf` | src/message.rs:266-277 | the end of the nth field |
| `CodecMachine.WriteFields` | src/field_map.rs:151-155 | appends the fields in stored order |
| `CodecMachine.PrintMessage` | src/message.rs:214-247 | the printer computes `ToBytes`; its declared numbers are the only ones accepted, by `DeclaredNumbersDecide` |
| `Stores.FileStore.DoAll` | src/store.rs:178-374 | over every sequence of save, incr, set, get, reset, refresh and reopen the file store answers like a plain map and ends up holding what the map holds |
| `Stores.FileStore.Do` | src/store.rs:301-374 | each operation, as a plain map would do it |
| `Stores.FileStore.constructor` | src/store.rs:194-221 | opening finds what the files hold and stamps a creation time if there is none |
| `Stores.FileStore.SaveMessage` | src/store.rs:331-344 | appends body and index; the message is readable at once and after loading |
| `Stores.FileStore.GetMessages` | src/store.rs:345-359 | exactly the saved messages of the range, ascending |
| `Stores.FileStore.WriteSeqnums` | src/store.rs:287-293 | the counters on disk are those in memory |
| `Stores.FileStore.Reload` | src/store.rs:360-364 | loading again changes nothing observable |
| `Stores.FileStore.ResetAll` | src/store.rs:365-374 | an empty store, on disk as in memory |
| `Stores.CrashDuringSave` | src/store.rs:28-31 | after a crash between any two writes of save_message_and_incr, reopening finds the store as before, the message saved with its number unused, or the finished operation; nothing saved is lost |
| `StoreHistory.CountersTell` | src/store.rs:100-115 | the counters are what they were last set to, 1 by a reset, plus the increments since |
| `StoreHistory.LastSaveStands` | src/store.rs:119-126 | the last save of a number stands until it is saved again or the store is reset |
| `StoreHistory.ResetForgets` | src/store.rs:130-136 | a reset forgets every message and restamps the store |
| `StoreHistory.RangeIsSaved` | src/store.rs:124-126 | whatever a range returns is saved and inside it |
| `StoreHistory.SavedIsInRange` | src/store.rs:124-126 | every saved message of a range is returned |
| `StoreHistory.RangeAscends` | src/store.rs:124-126 | in ascending order, each once |
| `Stores.AppendBodyKeeps` | src/store.rs:331-336 | bytes appended to the body disturb nothing |
| `Stores.AppendIndexSaves` | src/store.rs:338-341 | once its index line is written a message is readable |
| `Stores.WriteCountersSets` | src/store.rs:287-293 | the fixed-width line replaces its predecessor completely |
| `Stores.HighestAbsorbs` | src/store.rs:81-89 | trimming before or after an insertion makes no difference |
| `Stores.MemoryStore.Trim` | src/store.rs:81-89 | the loop leaves exactly the highest `cap` keys |
| `Stores.MemoryStore.SaveMessage` | src/store.rs:119-123 | insert, then trim |
| `Stores.MemoryStore.Do` | src/store.rs:93-137 | after any operation a bounded store equals the unbounded one restricted to its highest `cap` keys, and answers from these |
| `Stores.MemoryStore.GetMessages` | src/store.rs:124-126 | exactly the messages kept of the range, ascending |
| `Stores.MemoryStore.DoAll` | src/store.rs:93-137 | the answers to every sequence of operations are those of the reference, as far as the capacity reaches |
| `Stores.DoBoth` | src/store.rs:178-374 | a file store and an unbounded memory store that agree answer every sequence of operations alike, and agree afterwards |
| `StoreFiles.LineReadsBack` | src/store.rs:254-268 | an index line reads back as written |
| `StoreFiles.AppendLine` | src/store.rs:254-268 | appending a line to an index adds exactly its entry |
| `StoreFiles.CountersReadBack` | src/store.rs:244-253 | the counters line reads back as written |
| `StoreFiles.TrimStrips` | src/store.rs:244-253 | blanks around the counters are ignored |
| `StoreFiles.ReturnIsStripped` | src/store.rs:254-268 | index lines may end in carriage return and line feed |
| `FieldGroups.CanonicalOrder` | src/datadictionary.rs:447-468 | fields are permuted, whole segments are moved (a block stays behind its counter), heads ascend, equal heads keep their order |
| `CanonicalForms.FixedPointIff` | src/datadictionary.rs:447-468 | canonicalising leaves a body alone if and only if the heads of its segments ascend |
| `CanonicalForms.IdempotentIff` | src/datadictionary.rs:447-468 | canonicalising twice is canonicalising once, for every body, if and only if the dictionary has a finite certificate: a set of reading situations closed under reading on, in which no smaller head can be met |
| `CanonicalForms.CanonicalIsIdempotent` | src/datadictionary.rs:447-468 | in particular when every group that may hold the counter of a larger-tagged group may hold all of that group |
| `CanonicalForms.PartialNestingBreaks` | src/datadictionary.rs:447-468 | whenever a group may hold a larger counter but not one of its members that is smaller than its own counter, some body changes the second time |
| `GroupMeaning.CanonicalKeepsGroups` | src/field_map.rs:163-195 | a group whose counter occurs once, whose tags occur only in its block, and whose block lies inside one segment reads the same before and after |
| `GroupMeaning.KeepsGroupsIff` | src/datadictionary.rs:447-477 | every body with an isolated group of a template keeps its reading if and only if whatever group may hold the counter may hold the whole group |
| `GroupMeaning.SegmentAround` | src/datadictionary.rs:453-465 | every field heads its segment or is a member of the group that does |
| `GroupMeaning.HeadsItsSegment` | src/datadictionary.rs:453-465 | a counter that no group may hold always heads its segment |
| `FieldGroups.GroupsRoundTrip` | src/field_map.rs:201-213 | on a map that lacks the counter, groups read back exactly as written |
| `FieldGroups.ReadsIff` | src/field_map.rs:163-195 | on any fields: no counter, no groups; the count is invalid exactly if it is no number or differs from the number of delimiters in the run of members behind it; otherwise the groups are that run, split in front of every delimiter |
| `FieldGroups.ReadsOnlyBlock` | src/field_map.rs:163-195 | only the members directly behind the first counter matter |
| `FieldGroups.FieldMap.Set` | src/field_map.rs:101-106 | replaces the first occurrence or appends |
| `FieldGroups.FieldMap.Push` | src/field_map.rs:109-113 | always appends |
| `FieldGroups.FieldMap.GetGroups` | src/field_map.rs:163-195 | the splitting loop, with its count check |
| `FieldGroups.FieldMap.AppendGroups` | src/field_map.rs:201-213 | sets the counter and appends the instances |
| `FieldGroups.FieldMap.CanonicalizeBody` | src/datadictionary.rs:447-468 | the segmentation loop, the sort and the rebuilding compute `Canonicalize` |

## Left out

- Sockets, TLS, listening and reconnecting, log files and the engine's wiring (src/transport.rs apart from its read loop, src/engine.rs, src/tls.rs, src/log.rs).
- Settings, XML dictionaries and per-field validation (src/settings.rs, the rest of src/datadictionary.rs): a dictionary's verdict is an oracle.
- Generated message types and their generator (src/fix44, src/fix50, src/bin/generate-fix.rs).
- Local time, daylight saving and fractions of a second in schedules; rounding in the heartbeat factors.
- Texts, reject reasons and their layout per FIX version, reverse routing, LastMsgSeqNumProcessed(369), and the Stop command, whose waiting loop only feeds messages to `OnInbound`.
- I/O errors, a write channel that closes within a step, fsync, and a crash in the middle of a single write.
- 64-bit overflow of a position plus an absurd BodyLength or Length value, and of the checksum's 32-bit sum.
- Stores.FileStore.Do: a range whose begin lies behind its end is excluded, because the program panics on it; the session never asks for one. Numbers and the body's size stay below 2^64. Reopening is modelled by `Reload`, since opening the same files gives another object with the same contents (`Stores.FileStore.constructor`).
- Stores.FileStore.constructor: the creation time is kept as a number, not as RFC 3339 text, and files that do not load are excluded; the program refuses to open them.
- CodecMachine.NextField: the source has this inside the one loop of `parse`; likewise `Framer.ScanBuffer` is the part of `extract_frame` behind an "8=".
- SessionMachine.Session: the methods without a row above state that they compute the function of the same name in `SessionSpec`; refreshing the store on logon is left out of them.
- GapRecovery.TwoSessionRecovery: stored messages that parse again are assumed to have a MsgType that is valid UTF-8; the receiver ignores any other, so the range would not be consumed.
- GapRecovery.TwoSessionRecovery: the receiver's checks and application accept what is resent; rejected resends are covered by `SessionInvariants.InOrderDelivery`.
- ClosedLoop.GapIsRecovered: the answering side has nothing of its own to recover, both sides' checks and applications accept what arrives, and no piece ends at 999999, where the request would be answered as open-ended.
- Handshake.LogonRecoversIff: redundant resend requests are off, as they are by default; with them on, the acceptor asks again.
- ResendChunks.ChunkedRecovery: speaks of one recovery, that is, of the time in which a resend range stays outstanding and redundant requests are off.
- GroupMeaning.CanonicalKeepsGroups: nested groups inside an instance are read as part of it, as `read_groups` does; a template's members are the tags of its group, as `group_template` builds them.
