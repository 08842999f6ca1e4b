# SyncAnywhere: a verified model

SyncAnywhere keeps files in step between a few machines. A daemon on each machine queues one task per
peer for every file the user adds, and two clients, one for the TCP mode and one for the UDP mode, take
turns draining that queue according to a mode that can change at any time. A GUI talks to the daemon over
local datagrams. The model covers the stateful core and states what holds of it on every input and every
interleaving, and where it fails, exactly when.

| file | models |
|---|---|
| `SyncRepos.dfy` | the 30-slot queue without a fullness test, against the history of everything enqueued; fan-out to peers |
| `SyncWorkers.dfy` | listener and both clients as a transition system over the shared queue: accounting, order, safety of the unlocked read, admission |
| `SyncOutcomes.dfy` | what becomes of the queue under a fixed mode: draining with and without adds meanwhile, and what overruns lose |
| `SyncSwitches.dfy` | mode switches: what one in the middle of a transfer costs, and exactly which of them keep the order |
| `CText.dfy` | `%8x`, `%d`, `strtol`, `atoi` on bytes (ISO/IEC 9899:2011, sections 7.21.6.1, 7.22.1.4 and 7.22.1.2) |
| `IpcMessages.dfy` | message layouts, the `strlen`-bounded channel, the reused receive buffer, decoding, round trips |
| `SyncListener.dfy` | the encoders and both listeners as they run, and GUI to daemon and back end to end |
| `FileTransfer.dfy` | the chunk loop with its progress reports, and the receiving loop that forgets how much it read |
| `Handshake.dfy` | the file-name handshake and the byte stream under arbitrary segmentation |
| `PortQuery.dfy` | the peer manager's sampled ports, and the client's overlaying reads |
| `UnsyncList.dfy` | the GUI's circular list |
| `ProgressBar.dfy` | the progress bar, and the pipeline from the sending loop to the bar |

The queue's safety rests on two assumptions, written as `SyncWorkers.Disciplined`: the mode changes only
while no client is between its mode check and its remove, and the head never moves onto a thirtieth
pending entry. A mode message that repeats the current mode, as a mere change of port does, is free at any
time. `SyncWorkers.Admitted` is the version that a caller can check beforehand.

What holds beyond them is stated as well. `SyncSwitches.SwitchKeepsOrderIff` says of every orderly state
which switches keep the order in all runs from there, further adds included; an empty queue does not excuse a
switch, because the next add exposes the client that was caught (`AddAfterCatchBreaksTheOrder`).
`SwitchMidTransferSendsTwice` shows a whole run that goes wrong. For overruns, `SyncOutcomes.FixedModeDrains`
says what is sent from every state that is not underrun, has no add under way and finds the client off duty
asleep. `NothingIsLostIff` says when that is everything: at most 29 entries behind the one that the client on
duty holds. So a whole lap of 30 is lost if it is added before the client's emptiness test (`AddsThenDrain`)
and harmless if it is complete in the middle of a transfer (`OverrunMidTransfer`). `Accounting` holds without
either assumption.

Where code and comments of the repository disagree the model follows the code: the GUI's zeroing loop for
its two scratch arrays stands before the first `case` and never takes effect, so the scratch arrays start
with arbitrary contents; padding bytes that are written as pointers to literals are arbitrary non-zero
bytes; a `char` is signed. The daemon copies the path out of a message without a terminator, so what lies
behind the copy belongs to the path it queues; and a file name of 32 bytes or more runs on into the path
that is stored next to it.

The condition on the scratch arrays, `CText.Stops`, is more than "the ninth byte is no hexadecimal digit":
after a zero count an `x` and a digit are read as a prefix (`ZeroFollowedByPrefixMisreads`).
`StrtolInvertsHex8Iff` shows that it is exact.

## Model

| member | source | states |
|---|---|---|
| SyncRepos.TargetList | daemon/SyncAnywhereDaemonTypes.h:58-61 | the peers served: all valid non-local ones, in index order, no others |
| SyncRepos.FanOutIsOneTaskPerTarget | daemon/SyncAnywhereDaemonTypes.h:52-75 | one add makes exactly one entry per targeted peer, in peer-index order, with that peer's address |
| SyncRepos.SentToValidRemotePeers | daemon/SyncAnywhereDaemonTypes.h:60 | an added file goes to an address exactly if a valid peer that is not this machine has it |
| SyncRepos.TasksCarryTheFile | daemon/SyncAnywhereDaemonTypes.h:62-65 | every entry carries path, size and name; of a name of 32 bytes or more the first 32, running on into the path |
| SyncRepos.NameReadsBackIff | daemon/SyncAnywhereDaemonTypes.h:12-13 | a name reads back from its slot exactly if it has at most 31 bytes |
| SyncRepos.DistinctAddressesCountOnce | daemon/SyncAnywhereDaemonTypes.h:60 | with distinct addresses an address is served once if it is targeted, else not at all |
| SyncRepos.FanOutAllCount | daemon/SyncAnywhereDaemonTypes.h:52-75 | conservation: occurrences of a delivery are adds of the file times targeted peers at the address |
| SyncRepos.EmptinessTest | daemon/SyncAnywhereDaemonTypes.h:102-118 | "empty" is answered exactly when enqueues minus removes is a multiple of 30: right up to 29, wrong at 30 |
| SyncRepos.HeadSlotIsFree | daemon/SyncAnywhereDaemonTypes.h:62-65 | writing the head slot disturbs none of the last 29 entries and, in bounds, never the tail slot |
| SyncRepos.HeadMovesOn | daemon/SyncAnywhereDaemonTypes.h:66-70 | moving the head, wrap-around included, adds the filled slot to the history |
| SyncRepos.TailSlotAfterLaps | daemon/SyncAnywhereDaemonTypes.h:78-83 | however far the ring was overrun, the tail slot holds the oldest entry behind the last whole lap |
| SyncRepos.TailSlotIsOldest | daemon/SyncAnywhereDaemonTypes.h:78-83 | in bounds the tail slot holds the oldest pending entry |
| SyncRepos.Repos.constructor | daemon/SyncAnywhereDaemonTypes.h:43-47 | the queue starts empty |
| SyncRepos.Repos.AddItem | daemon/SyncAnywhereDaemonTypes.h:52-75 | the history grows by the fan-out, overflow or not; the queue stays in bounds exactly if pending and fan-out fit 29 together, and then the pending sequence is extended by it |
| SyncRepos.Repos.GetCurrent | daemon/SyncAnywhereDaemonTypes.h:78-83 | reads the tail slot, which in bounds is the first pending entry |
| SyncRepos.Repos.RemoveItem | daemon/SyncAnywhereDaemonTypes.h:88-95 | counts one remove, and in bounds drops exactly the first pending entry |
| SyncRepos.Repos.HasMore | daemon/SyncAnywhereDaemonTypes.h:102-118 | 1 exactly at a multiple of 30, in bounds exactly when nothing is pending |
| SyncRepos.Repos.PrintedLength | daemon/SyncAnywhereDaemonTypes.h:120-124 | the printed number is the length modulo 30, and the length exactly when head is not below tail |
| SyncRepos.Repos.TransferCurrent | daemon/SyncTCPClient.c:346-355 | one round sends the oldest entry of the incomplete lap and removes one, overrun or not |
| SyncRepos.Repos.Drain | daemon/SyncTCPClient.c:328-357 | a client on duty, with no adds, for every history, overrun or not, sends exactly the newest entries up to the last whole lap of 30, oldest first, and ends with head at tail; in bounds these are the pending ones |
| SyncWorkers.Step | daemon/SyncTCPClient.c:324-360 | each step of listener or client keeps the memory well formed and the peer list as it is |
| SyncWorkers.ReadsWithoutTheLock | daemon/SyncAnywhereDaemonTypes.h:78-83 | whatever the listener is in the middle of and whoever is on duty, a client past its emptiness test can read name, size and address of the tail slot, one after the other |
| SyncWorkers.SendsWithoutTheLock | daemon/SyncTCPClient.c:351-355 | and can query the port and transfer what it has read, while an add holds the lock |
| SyncWorkers.ChecksModeWithoutTheLock | daemon/SyncAnywhereDaemonTypes.h:133-136 | the mode check takes no lock either, and lets exactly the client on duty pass |
| SyncWorkers.WritesFieldByField | daemon/SyncAnywhereDaemonTypes.h:62-70 | an add fills the head slot in the order name, path, address, size, and moves the head only then |
| SyncWorkers.SwitchesAtAnyMoment | daemon/SyncListener.c:85-96 | the listener can switch the mode wherever the clients stand |
| SyncWorkers.AddExcludesTestAndRemove | daemon/SyncAnywhereDaemonTypes.h:54-118 | the lock: until an add is complete, in every interleaving, nothing is removed and no client passes its emptiness test |
| SyncWorkers.ListenKeepsAccounts | daemon/SyncAnywhereDaemonTypes.h:57-72 | every field write and head move inside an add keeps ring, history and the half-written slot in agreement |
| SyncWorkers.WorkKeepsAccounts | daemon/SyncUDPClient.c:262-293 | every client step, racing or not, keeps the accounts |
| SyncWorkers.Accounting | daemon/SyncAnywhereDaemonTypes.h:52-118 | in every run, racing and overflowing ones included: head and tail are the enqueues and removes modulo 30, removes equal transfer calls that have returned, and the emptiness test is right within 29 |
| SyncWorkers.ListenKeepsOrder | daemon/SyncListener.c:69-96 | under discipline the listener's steps keep order, duty and copies |
| SyncWorkers.WorkKeepsOrder | daemon/SyncTCPClient.c:330-355 | under discipline the clients' steps keep order, duty and copies |
| SyncWorkers.DisciplinedRunIsOrderly | daemon/SyncUDPClient.c:258-294 | the invariant holds after every disciplined run |
| SyncWorkers.TransfersFollowEnqueueOrder | daemon/SyncTCPClient.c:324-360 | in every disciplined run at most one client is in flight, the ring is in bounds, and the transfer log is a prefix of the order of enqueueing |
| SyncWorkers.RemovedTaskWasSent | daemon/SyncTCPClient.c:305 | the slot removed is the one whose contents the client copied and sent last |
| SyncWorkers.UnlockedReadIsSafe | daemon/SyncAnywhereDaemonTypes.h:78-83 | no listener step touches the slot being read, so a field-by-field read copies one whole entry |
| SyncWorkers.AtRestEveryPeerIsServed | daemon/SyncAnywhereDaemonTypes.h:52-75 | at rest the transfer log is what the adds fan out to, each address served once per add and targeted peer |
| SyncWorkers.AdmittedStepHasRoom | daemon/SyncAnywhereDaemonTypes.h:57-72 | an add that fits at its beginning never reaches a thirtieth pending entry, whatever the clients do meanwhile |
| SyncWorkers.AdmittedRunIsDisciplined | daemon/SyncAnywhereDaemonTypes.h:52-75 | pending plus targeted peers at most 29 at every add, checked beforehand, is enough for discipline |
| SyncOutcomes.AddWithoutATurn | daemon/SyncAnywhereDaemonTypes.h:52-75 | an add can always be finished, and without turns of the clients it is disciplined exactly if it is admitted |
| SyncOutcomes.OnDutyCountsDown | daemon/SyncTCPClient.c:328-357 | each step of the client on duty brings an empty queue exactly one step nearer |
| SyncOutcomes.OnDutySendsInOrder | daemon/SyncTCPClient.c:346-355 | conservation: each step of the client on duty keeps what was sent, what it holds and what is still to come the same together, overrun or not |
| SyncOutcomes.FixedModeDrains | daemon/SyncTCPClient.c:328-357 | from every state that is not underrun, has no add under way and finds the client off duty asleep, wherever in its cycle the client on duty stands: in every interleaving with enough of its turns it sends what it holds, then the entries behind that without the whole laps, and the test says "empty" |
| SyncOutcomes.NothingIsLostIff | daemon/SyncAnywhereDaemonTypes.h:102-118 | if the log so far is in order, that is everything exactly if at most 29 entries lie behind the one that the client on duty holds |
| SyncOutcomes.DrainsWhileAddsGoOn | daemon/SyncTCPClient.c:324-360 | liveness while files are added and ports change: nine turns of the client on duty for each of the first n entries not yet removed, and these have been sent, in every disciplined run that keeps the mode |
| SyncOutcomes.EveryPeerIsEventuallyServed | daemon/SyncTCPClient.c:324-360 | from the daemon's start: after any disciplined run, 261 turns of the client on duty, interleaved with further adds and port changes, and every address has each file added by then at least once per add and targeted peer; exactly so often with the clients alone |
| SyncSwitches.SwitchMidTransferSendsTwice | daemon/SyncUDPClient.c:264-289 | from every calm state with something pending, one mid-transfer mode switch sends the first entry twice and removes two; with one pending the ring is underrun |
| SyncSwitches.SwitchMidTransferBreaksTheOrder | daemon/SyncUDPClient.c:264-289 | that run keeps the order of deliveries exactly if the two oldest entries deliver the very same |
| SyncSwitches.SwitchKeepsOrderIff | daemon/SyncListener.c:69-96 | in every orderly state, when the listener stores a mode: every run from there, further adds included, keeps the order of enqueueing exactly if the mode is the current one, or no client is in flight, or there is no targeted peer |
| SyncSwitches.SwitchWithoutAddsIff | daemon/SyncListener.c:85-96 | the same for the clients alone, if no add follows: exactly if the mode is the current one, or no client is in flight, or nothing is pending |
| SyncSwitches.AddAfterCatchBreaksTheOrder | daemon/SyncTCPClient.c:330-346 | a client caught in flight at an empty queue: the next add leads to one transfer too many |
| SyncSwitches.CaughtInFlightBreaksTheOrder | daemon/SyncUDPClient.c:264-289 | a client caught in flight with something pending always has a continuation with one transfer too many |
| SyncOutcomes.WholeLapIsStranded | daemon/SyncAnywhereDaemonTypes.h:106 | with a whole lap of 30 pending no interleaving of the clients ever sends or removes anything |
| SyncOutcomes.AddsWithoutATurn | daemon/SyncAnywhereDaemonTypes.h:52-75 | any files can be added before a client's next turn, overrun included |
| SyncOutcomes.OverrunMidTransfer | daemon/SyncTCPClient.c:346-355 | any adds while the client on duty is transferring, then a drain: it sends what it has copied and the newest entries up to the last whole lap behind it; everything exactly if at most 30 are pending |
| SyncOutcomes.AddsThenDrain | daemon/SyncAnywhereDaemonTypes.h:52-118 | from the daemon's start: after any adds, and a drain in any interleaving, exactly the newest entries up to the last whole lap are sent, and all of them exactly if there are at most 29 |
| SyncOutcomes.ThreeAddsToTenPeersAreLost | daemon/SyncAnywhereDaemonTypes.h:102-118 | from the daemon's start: three files for ten peers make 30 pending, and no interleaving of the clients ever sends anything |
| CText.CString | GUI/IPCAgent.c:39 | what `strlen` bounds: the longest prefix without a NUL |
| CText.TrimLineEnd | daemon/SyncTCPServer.c:73-77 | strips a line end, and changes nothing exactly when there is none |
| CText.AccumulateDigits | GUI/GUIListner.c:112-113 | accumulating the digits of a number gives the number, in base 10 and 16, whatever follows |
| CText.DigitsInCharacters | GUI/GUIListner.c:112-113 | which characters are digits, and what each is worth |
| CText.PrintedInLowerCase | SyncIPCMsg.h:205-206 | hexadecimal numbers are printed with small letters |
| CText.StrtolIgnoresCase | GUI/GUIListner.c:112-113 | upper-case digits and prefixes are read like lower-case ones |
| CText.SpaceIsSkipped | GUI/GUIListner.c:112-113 | each of the six white-space characters in front is skipped |
| CText.NumeralIsRead | GUI/GUIListner.c:112-113 | a numeral is read as its value, cut to the range of a 64-bit long |
| CText.SignIsRead | GUI/GUIListner.c:112-113 | a plus sign changes nothing, a minus sign negates, both within the range of a long |
| CText.StrtolInvertsHex8 | SyncIPCMsg.h:205-211 | `strtol` in base 16 inverts `%8x` for every 32-bit int, negative ones by wrap-around, if the bytes behind stop it for that int |
| CText.StrtolInvertsHex8Iff | GUI/GUIListner.c:69-75 | exactly which bytes behind the eight let every 32-bit int be read back right |
| CText.ExtraDigitMisreads | GUI/GUIListner.c:103-113 | a further hexadecimal digit behind the eight spoils 0 or 1, however many digits follow |
| CText.ZeroFollowedByPrefixMisreads | GUI/GUIListner.c:69-75 | a zero count followed by `x1` in the scratch array is read as 1 |
| CText.AtoiInvertsDecimal | daemon/PeerManage.c:92-94 | `atoi` inverts `%d` for every 32-bit int |
| IpcMessages.DatagramIsCut | GUI/IPCAgent.c:39 | the datagram ends before the first NUL of the message |
| IpcMessages.AddFileLayout | SyncIPCMsg.h:95-104 | every byte of an add-file message: type 1, length, size, path |
| IpcMessages.ModeLayout | SyncIPCMsg.h:144-152 | every byte of a mode message: type 2, length 26, mode, port with the high byte first, end of a size field, fixed path |
| IpcMessages.ProgressFields | SyncIPCMsg.h:164-220 | every byte of a progress report: type 1, length, port with the high byte first, padded address, two counts, name |
| IpcMessages.AddFileRoundTrip | SyncIPCMsg.h:83-105 | the path is extracted unchanged, from every stale buffer and with any junk, exactly for lengths up to 117 |
| IpcMessages.DecodePathByLengthByte | SyncIPCMsg.h:230-238 | the signed length byte: 10 to 127 is copied, everything else leaves the buffer |
| IpcMessages.PathRunsOn | SyncIPCMsg.h:230-238 | the path copy, used as a string, goes on into the heap behind it, and is the path exactly if nothing or a NUL follows |
| IpcMessages.ModeRoundTrip | SyncIPCMsg.h:127-154 | for every int port the mode arrives; the port arrives modulo 2^16 if its high byte is not zero, otherwise the stale byte 4 is taken |
| IpcMessages.PortArrivesIff | daemon/SyncListener.c:77-96 | a port number arrives exactly if it is at least 256 or the stale byte happens to equal it |
| IpcMessages.SmallPortReadsHistory | daemon/SyncListener.c:44-81 | after an added file a small port is read as 32, after a mode message as the earlier port's low byte |
| IpcMessages.ProgressRoundTrip | SyncIPCMsg.h:162-226 | port, both counts and name are recovered from every stale buffer, with any junk |
| IpcMessages.CutProgressShowsStaleCounts | daemon/SyncAnywhereDaemonTypes.h:202 | a zero byte in the port cuts the report before its address, and the rest of the buffer stays stale |
| IpcMessages.ProgressRoundTripIff | GUI/GUIListner.c:89-127 | for all stale buffers at once the round trip holds exactly for names up to 49 bytes and ports without a zero byte |
| SyncListener.BaseName | daemon/SyncListener.c:71 | the part behind the last slash |
| SyncListener.SetAddSyncFileMsg | SyncIPCMsg.h:83-105 | the filled buffer is the add-file layout |
| SyncListener.SetTransModeMsg | SyncIPCMsg.h:127-154 | the filled buffer is the mode layout for the port given as text |
| SyncListener.SetProgressNotifyInfo | SyncIPCMsg.h:162-226 | the filled buffer is the progress layout, an overlong address included |
| SyncListener.DaemonListener.constructor | daemon/SendfileServer.c:67-69 | the daemon starts in UDP mode with ports 20000 and 30000 and an empty queue |
| SyncListener.DaemonListener.Handle | daemon/SyncListener.c:44-103 | one turn: the buffer, the queue's history, mode and ports after any datagram on any stale buffer and any heap behind the path copy |
| SyncListener.AddFileFromGui | GUI/IPCAgent.c:47-54 | end to end, an added file appears in the queue once per targeted peer, under the path that the heap makes of it; with path and base name right exactly if no heap byte follows and the base name has at most 31 bytes |
| SyncListener.SwitchModeFromGui | GUI/IPCAgent.c:56-62 | end to end, for every int port: the mode is set; the port arrives modulo 2^16 if its high byte is not zero, otherwise the stale byte is taken; nothing else changes |
| SyncListener.GuiListener.Handle | GUI/GUIListner.c:40-136 | one turn of the GUI's listener on any stale buffer and scratch contents |
| SyncListener.GuiListener.ReadProgress | GUI/GUIListner.c:89-113 | the three copying loops and two conversions read what the buffer says, and keep the scratch tails |
| SyncListener.ReportToGui | daemon/SyncAnywhereDaemonTypes.h:181-208 | end to end, the GUI reads the report that was made |
| FileTransfer.NonZeroKeepsTheRest | daemon/SyncTCPServer.c:102-106 | the scan keeps every byte but NUL with its multiplicity, and is the identity exactly without a NUL |
| FileTransfer.SendFile | daemon/SyncTCPClient.c:232-260 | the chunks are the pieces of the file in order; one report per full interval with the byte count so far, and a final one with the duration |
| FileTransfer.PiecesAreFull | daemon/SyncTCPClient.c:215-236 | the k-th chunk is the k-th 1000 bytes of the file, the last one what is left |
| FileTransfer.ReportsInBytes | daemon/SyncUDPClient.c:175-179 | the TCP client reports every 1.5 million bytes, the UDP client every half million |
| FileTransfer.ReceiveOne | daemon/SyncTCPServer.c:98-108 | one read over the zeroed buffer writes its non-zero bytes and leaves the buffer zeroed |
| FileTransfer.ReceiveFile | daemon/SyncTCPServer.c:94-108 | the loop writes, read by read, what each read holds |
| FileTransfer.SegmentationDoesNotMatter | daemon/SyncTCPServer.c:96-108 | for every split of the stream the result is the file's non-zero bytes, and the file exactly if it has no NUL |
| FileTransfer.OnlyTheLastReportFinishes | GUI/GUITutor.c:519-525 | no intermediate report passes the finished test, the final one does exactly when size exceeds duration, and counts never fall |
| Handshake.ClientKeepsInv | daemon/SyncTCPClient.c:188-253 | every client step keeps the account of name and content in the stream |
| Handshake.ServerKeepsInv | daemon/SyncTCPServer.c:65-108 | every server read, of any length, keeps that account |
| Handshake.NoContentBeforeTheReply | daemon/SyncTCPClient.c:188-206 | in every interleaving no content is written before the server has read its name and replied, and the name read holds only name bytes; up to 24 bytes its terminator has room |
| Handshake.CompletedContent | daemon/SyncTCPServer.c:94-108 | for every segmentation: leftover name bytes are taken for content, so the file's bytes are right exactly if the name came in one read |
| Handshake.CompletedName | daemon/SyncTCPServer.c:65-77 | where the terminator had room, the server's name is right exactly if it came in one read, has no NUL and no line end |
| Handshake.ReplyIsOk | daemon/SyncTCPServer.c:65-108 | the client is never told anything but "OK" |
| Handshake.EverySegmentationHappens | daemon/SyncTCPServer.c:65-108 | the name read can take any k of the first 25 bytes, and the file can be written and read in any pieces of at most 1000 |
| Handshake.StepsCountDown | daemon/SyncTCPServer.c:65-108 | every step of either end brings the end of the transfer nearer |
| Handshake.EveryTransferCompletes | daemon/SyncTCPClient.c:188-253 | a run has at most 6 + name length + 2 * file length steps, and with a name it can go on exactly until the server is done; an empty name keeps the server waiting |
| PortQuery.RequestsAreUnderstood | daemon/PeerManage.c:75-102 | exactly the two commands, with or without a line end, are answered, whatever follows a NUL |
| PortQuery.StepKeepsInv | daemon/PeerManage.c:51-109 | every sample, answer and port change keeps the ages of sampled ports |
| PortQuery.AnswersAreFresh | daemon/PeerManage.c:51-109 | in every interleaving an answer carries ports in force at or after the close of the answer before it |
| PortQuery.AtMostOneStaleAnswer | daemon/SyncListener.c:85-96 | once ports stop changing every answer but the first is current |
| PortQuery.PortsChangeAtAnyMoment | daemon/SyncListener.c:85-96 | at any moment of any run either port can change, the other keeps its value, and the manager's sample and log stay |
| PortQuery.AnswersFollowTheChange | daemon/SyncAnywhereDaemonTypes.h:138-157 | after a change and no further one, every answer but the first gives the new port for that mode and the old value of the other |
| PortQuery.OneStaleAnswerHappens | daemon/PeerManage.c:51-109 | the bound is reached: with changes between and after the two samples, an answer gives the newer TCP and the older UDP port, neither of them current |
| PortQuery.LastToReachWins | daemon/SyncTCPClient.c:119-123 | byte by byte: at each position of the buffer stands the byte of the last piece long enough to reach it, else zero |
| PortQuery.ReadPort | daemon/SyncTCPClient.c:113-127 | the read loop yields `atoi` of the successive overlays |
| PortQuery.PortQueryRoundTrip | daemon/SyncUDPClient.c:43-55 | the port is read back right exactly when the answer arrives in one read |
| UnsyncList.UnsyncFileList.constructor | GUI/GUITutor.c:605-609 | the list starts empty with its head node |
| UnsyncList.UnsyncFileList.Add | GUI/GUITutor.c:65-87 | appends one entry, with path and name in the fields of the last node, keeps the single cycle and all nodes, and counts it; the find-last loop ends |
| UnsyncList.UnsyncFileList.WalkIsInsertionOrder | GUI/GUITutor.c:69-87 | walking from the head meets the entries in order of insertion and is back after exactly their number |
| ProgressBar.SetProgressBar | GUI/GUITutor.c:506-542 | the drawing loops produce the 64 cells of the bar |
| ProgressBar.QuotientBounds | GUI/GUITutor.c:527-528 | the cut rational is the integer quotient, within range, and at the top only for the whole |
| ProgressBar.BarGrows | GUI/GUITutor.c:527-540 | percentage and width never fall as bytes sent grow |
| ProgressBar.BarRange | GUI/GUITutor.c:521-540 | percentage within 0 to 100, width within 0 to 64, both full exactly when all bytes are sent |
| ProgressBar.TextFits | GUI/GUITutor.c:535-536 | the text fits the bar for every name that fits a queue slot and under a million seconds |
| ProgressBar.SecondsAreShown | GUI/GUITutor.c:529-536 | the text ends in the seconds exactly if they are not zero |
| ProgressBar.CellsShown | GUI/GUITutor.c:514-540 | every one of the 64 cells: the text from the left; behind it '>' below 64 times the part sent, all of them at the end, and '=' from there on |
| ProgressBar.NumbersShown | GUI/GUITutor.c:519-528 | the numbers shown: 100 * sent / size and no seconds, or 100 and the seconds carried in place of the size |
| ProgressBar.TextOfPercentage | GUI/GUITutor.c:530-536 | the text while a transfer runs, literally |
| ProgressBar.TextOfSeconds | GUI/GUITutor.c:533-536 | the text with the seconds at the end, literally |
| ProgressBar.BarsOfATransfer | GUI/GUITutor.c:519-540 | over a whole transfer the bar never goes back and no intermediate text shows seconds; the last bar is full exactly if size is at least the duration, and its text shows the seconds exactly if 0 < duration < size |
| ProgressBar.SendAndReport | daemon/SyncUDPClient.c:150-190 | the GUI sees every report of the sending loop as made, in order |
| ProgressBar.ReportsAreDrawable | GUI/GUITutor.c:519-525 | no report of a transfer divides by zero, unless the file is empty and sent within the second |
| ProgressBar.SendAndShow | GUI/GUIListner.c:89-127 | the whole pipeline: each report of the sending loop is drawn with exactly the 64 cells it calls for |

## Left out

- Sockets, accept errors, exits, thread creation and restarts: operating-system plumbing; TCP is a reliable byte stream cut anywhere.
- `daemon/SyncUDPServer.c`, `daemon/SimpleTCPTransferClient.c` and `test()`: a kernel `sendfile` server and interactive debug copies of the same loops.
- GTK widgets and callbacks, apart from the list and the bar.
- File system, interface enumeration, checksums: a peer carries whether it is local, and file sizes and contents are parameters.
- Sleeps and clocks: sleeps are steps that change nothing, and the duration is a parameter.
- Sizes of arrays: paths of 150 bytes or more and addresses of 20 bytes or more do not fit their slot arrays; a name of 32 bytes or more runs over the client's own array when it is copied out again, where the model passes it on whole. Of the two writes behind the ends of arrays, `buffer[9]` is left out, and the name terminator after a 25-byte read makes no promise about the name.
- A copy of one string into a slot field is one step of the queue's transition system.
- Port numbers: the remote port that a client obtains before a transfer has no place in the queue's transition system; the UDP client asks for both ports and keeps the TCP one.
- FileTransfer.SendFile: reads are full and writes succeed, because a short write leaves the stream itself undefined in the code.
- SyncListener.DaemonListener.Handle: a path copied from outside the buffer, or too long for a slot, is reported and changes nothing, where the code reads or writes foreign memory; the dispatch is on one datagram at a time.
- CText.TrimLineEnd: on values, where the code overwrites the last bytes of its array; an empty text is left alone, where the code reads in front of the array.
- Handshake.Step: the client takes the whole reply at once; a reply read in pieces would change nothing, because its text is ignored.
- SyncRepos.Repos.Drain: the clients loop for ever; the model stops at the first empty test.
- ProgressBar.SetProgressBar: rounding of floating-point numbers, and texts longer than the bar.
- UnsyncList.UnsyncFileList.Add: splitting the path into components is left to the caller.
