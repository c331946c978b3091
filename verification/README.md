# The check_dns_propagation daemon and its generated configuration, in Dafny

The daemon receives DNS NOTIFY messages and console commands, checks for each zone that its name servers
all get the new serial, and reports to Icinga. This project models it in four parts and proves what each
part promises.

1. **Event loop, job table, worker pool.** `Protocol` is a state machine whose actions are what one goroutine
   does between two points where it may block, with both bounded queues, the console sessions and the workers.
   `SingleFlight`, `Dropped`, `Progress`, `Deadlock` and `ConsoleHandOff` prove properties of all its runs, and
   `ConsoleRuns` connects them to the console sessions below; `DaemonProcess` is the code, each method
   proved to be one action, so that every object of the class is in a reachable state.
   `lost`, `closed` and the counters in the state only record what happened.
2. **The poll loop of a check.** `Propagation` has the poll history as a function of what the network answers,
   and the code of `checkZone` proved against it.
3. **The telnet console.** `Telnet` and `Editing` describe tokens and keys; `LineEditing`, `Crlf`, `DevClient` and
   `TelnetServer` are the code; `Session`, `Screen`, `ScreenAgreement`, `Recall`, `HistoryMachine`, `Completion` and
   `Negotiation` prove what it does over whole sessions, and `Typing`, `Conversation` and `Sending` say it in terms of
   the bytes that a user types. The commands and the peer are those of RFC 854
   ("TELNET Command Structure", "General Considerations") and RFC 855.
4. **Generated configuration.** `Sorting`, `IcingaConf`, `Rendering`, `Files` and `ZonesFile` go from Go's arbitrary
   map iteration to an installed file, piece by piece, and a reload. `Becs` is the session protocol of the DHCP check's client.

`Prelude` has byte strings and options, `Reading` the buffered reader. A byte is a character: statements hold for
all characters, so for the 256 byte values. How the network cuts the stream into packets is an arbitrary function
`arrived`; what a console command prints, what the network answers, where a read fails and in which order a map is
iterated are parameters too.

## What the code does that its comments do not say

- A zone whose SOA or NS query fails posts no MessageDone, stays in `jobs`, and is never checked again until the
  daemon restarts (`SingleFlight.LostForever`, reached in `Deadlock.CheckCanBeLost`). Jobs are freed exactly in runs
  without such an end (`Progress.CleanRunFreesEveryJob`).
- A NOTIFY that finds its zone with a worker is dropped, and no check starts after it unless the zone is requested again;
  one that finds the zone still in the work queue is not missed (`Dropped.RequestFollowedExactly`).
- A console `check` sends to the queue that the sender itself drains. It ends the daemon, in every run from there, exactly
  if its requests and the events queued behind it are more than 500 (`Deadlock.CommandStopsExactly`); so does
  `check all` with more than 500 DnsNode zones, always (`Deadlock.CheckAllStops`). One that does fit can be
  overtaken: it can end the daemon exactly if it sends anything at all (`Deadlock.CommandCanStopExactly`), in any
  configuration (`Deadlock.ConsoleCheckCanDeadlock`). Without console checks the daemon can get stuck
  exactly if more than 500 + workers zones may be notified (`Deadlock.StuckWithoutChecksExactly`).
- The answer to a DO or WILL of option 10 contains the byte LF and is rewritten by `crlfConn`: the peer reads an answer
  about option 13 and shows a line feed (`Crlf.NegotiationPassesExactly`, `Screen.ReplyShows`). Its own request is never
  answered (`Negotiation.OptionTenStaysOpen`). The screen is wrong at most until the line ends
  (`ScreenAgreement.RecoversAtPrompt`).
- An escaped 255 is put in the edit buffer without an echo, and comes back from the history as a raw IAC
  (`ScreenAgreement.EscapedComesBackRaw`): on a screen that was right, the recalled line is shown exactly if it holds no
  255 (`Recall.RecallShowsExactly`). These two keys are exactly those after which the screen is wrong
  (`ScreenAgreement.ScreenShowsBufferExactly`).
- The server never answers a DONT, although RFC 854 asks for a WONT, and does not obey it: it has no state, and echoes
  also to a peer that has refused the echo or asked for its end (`Negotiation.EndOfEchoStaysOpen`). Requests to end an
  option at the server and those for option 10 are exactly the ones without an answer (`Negotiation.AtRestExactly`).
- The server asks the peer for SUPPRESS-GO-AHEAD and refuses it when the peer agrees (`Negotiation.AtRestExactly`).
- `FileCmp` compares what was read before it looks at an error. So equal files are reported "different", without an
  error, exactly if their reads end at different places (`Files.CompareExactly`, with two such files in
  `Files.EqualFilesTakenForDifferent`); it never reports "same" wrongly. When that or another failure makes an
  unchanged file be installed and loaded again is `Files.UnchangedReloadedExactly`.
- A copy that fails in `Sync` has replaced the target but not loaded it, and later runs find nothing to do
  (`Files.FailedSyncSticks`). When icinga has loaded what is installed is `Files.CurrentExactly`.
- `CopyFile` onto another name of the same file would empty it (`Files.CopyContent`); the `SameFile` shortcut of
  `FileCmp` keeps the installation from doing that (`Files.InstallExactly`), unless a `Stat` fails
  (`Files.FileSystem.GenerateConf`).
- The length that `crlfConn.Write` reports for a partial write is too large exactly if a CR was added to what was sent
  (`Crlf.OverReportedExactly`).

## Model

| member | source | states |
|---|---|---|
| `SingleFlight.StepAccounted` | cmd/check_dns_propagation/check_dns_propagation.go:471-516 | Every action of every goroutine keeps this: a zone is in `jobs` iff exactly one check of it exists (in the loop's hand, in the work queue, with a worker, in a queued report, or lost), and the counters balance |
| `SingleFlight.ReachableAccounted` | cmd/check_dns_propagation/check_dns_propagation.go:471-516 | The same in every state of every run, from the start of the daemon |
| `SingleFlight.NoTwoWorkersOnOneZone` | cmd/check_dns_propagation/check_dns_propagation.go:290-294 | Single flight: in every reachable state two busy workers have different zones, and both zones are in `jobs` |
| `SingleFlight.DoneFindsItsJob` | cmd/check_dns_propagation/check_dns_propagation.go:498-506 | The "INTERNAL ERROR" branch is never taken: a MessageDone at the head of the queue finds its job |
| `SingleFlight.Conservation` | cmd/check_dns_propagation/check_dns_propagation.go:484-506 | MessageNew handled = dropped as already running + handed to the workers (+ one in hand); jobs handed over = freed + queued + with workers + reported + lost; the work queue is never longer than `jobs` |
| `SingleFlight.LostGrows` | cmd/check_dns_propagation/check_dns_propagation.go:155-166 | Along any run no lost check comes back, and one is lost iff some check ended by one of the two exits that post no MessageDone |
| `SingleFlight.LostForever` | cmd/check_dns_propagation/check_dns_propagation.go:155-166 | A zone whose SOA or NS query failed stays in `jobs` in every later state with nothing left that could free it; every later MessageNew for it is dropped |
| `Dropped.StartsExactly` | cmd/check_dns_propagation/check_dns_propagation.go:484-496 | In any run without a further request for a zone, by the end of which it no longer waits: a check of it starts iff it waited at first, in the loop's hand or in the work queue |
| `Dropped.RequestFollowedExactly` | cmd/check_dns_propagation/check_dns_propagation.go:484-489 | The last request for a zone is followed by a check that starts after it iff the zone was free or still in the work queue; otherwise it is dropped for good, and a worker, a report or the lost set holds the zone |
| `Progress.HandOffNeverBlocks` | cmd/check_dns_propagation/check_dns_propagation.go:78-83 | If the zones that a NOTIFY can name and those that the consoles' checks request are at most 500 in all, however many are configured, the send to `chanWork` always finds room |
| `Progress.StuckExactlyWhenBlocked` | cmd/check_dns_propagation/check_dns_propagation.go:471-516 | With work left and at least one worker, the daemon is stuck iff the event queue is full, the loop itself is sending (to that queue, or to a full work queue) and no worker can go on |
| `Progress.OnlyConsoleChecksDeadlock` | cmd/check_dns_propagation/check_dns_propagation.go:325-337 | With at most 500 + workers such zones, a reachable state with work left is stuck iff the loop is sending for a console `check` to its own full queue and no worker can go on |
| `Deadlock.StopsExactly` | cmd/check_dns_propagation/check_dns_propagation.go:325-337 | While a command executes: in every run the loop never receives or finishes again iff the queued events and the requests still to be sent are more than 500; otherwise there is a run in which it finishes |
| `Deadlock.Finishes` | cmd/check_dns_propagation/check_dns_propagation.go:325-337 | If they are at most 500, sending them all and then finishing is such a run |
| `Deadlock.CommandStopsExactly` | cmd/check_dns_propagation/check_dns_propagation.go:507-511 | The same before the command is taken from the queue: it ends the daemon iff it sends more events than there is room for besides those queued behind it |
| `Deadlock.DnsNodeZonesExactly` | cmd/check_dns_propagation/check_dns_propagation.go:328-333 | `check all` requests each DnsNode zone exactly once, in any iteration order |
| `Deadlock.RequestsExactly` | cmd/check_dns_propagation/check_dns_propagation.go:325-337 | Only `check` and one word behind it request anything: `check all` each DnsNode zone as often as the iteration comes to it, `check` and another word that word |
| `Deadlock.CheckAllStops` | cmd/check_dns_propagation/check_dns_propagation.go:327-333 | In any reachable state, `check all` with more than 500 DnsNode zones ends the daemon in every run |
| `Deadlock.CheckAllCanStop` | cmd/check_dns_propagation/check_dns_propagation.go:327-333 | Such a state is reached with no notification at all |
| `Deadlock.StuckWithoutChecksExactly` | cmd/check_dns_propagation/check_dns_propagation.go:484-496 | Without console checks a run can get stuck iff more than 500 + workers zones may be notified |
| `Deadlock.HandOffCanDeadlock` | cmd/check_dns_propagation/check_dns_propagation.go:491-495 | From 501 + workers such zones on there is a run that ends stuck with the loop handing over a zone |
| `Deadlock.CheckCanBeLost` | cmd/check_dns_propagation/check_dns_propagation.go:155-159 | For any zone that may be notified, a run from the start loses its check |
| `Deadlock.CanStopExactly` | cmd/check_dns_propagation/check_dns_propagation.go:325-337 | While a command executes: there is a run in which it never finishes and the daemon is lost, iff the command has anything left to send, however empty the queue is |
| `Deadlock.CommandCanStopExactly` | cmd/check_dns_propagation/check_dns_propagation.go:507-511 | The same before the command is taken from the queue: it can end the daemon iff it sends any event |
| `Deadlock.ConsoleCheckCanDeadlock` | cmd/check_dns_propagation/check_dns_propagation.go:325-337 | In any configuration, also without zones, and with no notification there is a run with one console `check` that ends stuck with all workers idle |
| `Progress.StepDrains` | cmd/check_dns_propagation/check_dns_propagation.go:471-516 | Without outside events every step of the loop or a worker strictly lowers a weight of the queued and running work |
| `Progress.RunDrains` | cmd/check_dns_propagation/check_dns_propagation.go:471-516 | Every run of the loop and the workers alone is no longer than the weight it starts from |
| `Progress.RestsExactlyOnLostJobs` | cmd/check_dns_propagation/check_dns_propagation.go:155-166 | When such a run ends unblocked, nothing is queued or running and `jobs` holds exactly the lost zones, each once |
| `Progress.CleanRunFreesEveryJob` | cmd/check_dns_propagation/check_dns_propagation.go:140-166 | A run that ends at rest has freed every job iff none of its checks ended without a MessageDone |
| `ConsoleHandOff.StepHeld` | cmd/check_dns_propagation/check_dns_propagation.go:507-511 | Each `Done` channel is with a queued command, with the executing one, or closed; only a submission makes a new one |
| `ConsoleHandOff.PendingConsoleIsSilent` | cmd/check_dns_propagation/telnet_server.go:43-70 | In every reachable state a connection has at most one command queued or executing, and while it has one its session can take no action at all: no echo, no prompt, no submission, no wake-up |
| `ConsoleHandOff.DoneClosedExactlyOnce` | cmd/check_dns_propagation/check_dns_propagation.go:507-511 | No channel is closed twice, and a waiting session's channel is closed iff its command is neither queued nor executing |
| `ConsoleHandOff.AtRestAllClosed` | cmd/check_dns_propagation/check_dns_propagation.go:507-511 | In a reachable state with nothing queued or executing every channel made so far has been closed exactly once, and every waiting session can go on |
| `ConsoleHandOff.SessionActsOnlyAfterFinish` | cmd/check_dns_propagation/telnet_server.go:60-69 | In any run, between a command's arrival on the queue and the next action of its session lies the close of that connection's `Done` |
| `ConsoleRuns.SubmitsItsMessages` | cmd/check_dns_propagation/telnet_server.go:43-66 | In any run the commands that a connection submits are a first part of the messages of its session, and all of them once it has ended |
| `ConsoleRuns.ExecutesInOrder` | cmd/check_dns_propagation/check_dns_propagation.go:473-508 | In any run the loop takes the commands of a connection in the order of submission, each once |
| `ConsoleRuns.LoopExecutesMessages` | cmd/check_dns_propagation/telnet_server.go:43-70 | In any run, with whatever else goes on, what the loop executes for a connection are the messages of its session, in order and each once, at most one of those submitted still to come; all of them once it has ended |
| `ConsoleRuns.ExecutionDependsOnKeys` | cmd/check_dns_propagation/telnet_readline.go:77-90 | So the commands executed for an ended session, but for empty ones, do not depend on how its stream was cut into packets, nor on the rest of the run |
| `DaemonProcess.Daemon.constructor` | cmd/check_dns_propagation/check_dns_propagation.go:591-600 | The initial state has empty queues and max(1, MaxWorkers) idle workers |
| `DaemonProcess.NotifiedExactly` | cmd/check_dns_propagation/check_dns_propagation.go:448-453 | Names are sent for exactly the questions that are, with or without a final dot, a configured zone on DnsNode to be checked for propagation: the name of that zone, in the order of the questions |
| `DaemonProcess.Daemon.HandleDNSRequest` | cmd/check_dns_propagation/check_dns_propagation.go:446-458 | The same of the code, and nothing for a message that is not a NOTIFY: which questions, which name for each, and the order |
| `DaemonProcess.Daemon.SendNotify` | cmd/check_dns_propagation/check_dns_propagation.go:453 | The whole new state is that of the Notify action |
| `DaemonProcess.Daemon.ReceiveEvent` | cmd/check_dns_propagation/check_dns_propagation.go:473-515 | One iteration of the loop up to its first send is the Receive action, for every kind of event; a MessageDone finds its job and no internal error is ever counted |
| `DaemonProcess.Daemon.HandleNew` | cmd/check_dns_propagation/check_dns_propagation.go:484-496 | Deduplication by zone: dropped if running, else entered in `jobs` and taken in hand |
| `DaemonProcess.Daemon.HandleDone` | cmd/check_dns_propagation/check_dns_propagation.go:498-506 | The job is removed, or an internal error counted |
| `DaemonProcess.Daemon.HandleCLI` | cmd/check_dns_propagation/check_dns_propagation.go:507-511 | The command's requests are computed and the loop goes on executing it |
| `DaemonProcess.Daemon.CLI` | cmd/check_dns_propagation/check_dns_propagation.go:309-337 | The zones for which `check` sends a MessageNew: the named one, or for `all` the DnsNode zones in the order of the map iteration |
| `DaemonProcess.Daemon.SendWork` | cmd/check_dns_propagation/check_dns_propagation.go:495 | The whole new state is that of the HandOff action |
| `DaemonProcess.Daemon.SendRequest` | cmd/check_dns_propagation/check_dns_propagation.go:331-335 | The whole new state is that of the Request action |
| `DaemonProcess.Daemon.CloseDone` | cmd/check_dns_propagation/check_dns_propagation.go:509-511 | The whole new state is that of the Finish action |
| `DaemonProcess.Daemon.TakeWork` | cmd/check_dns_propagation/check_dns_propagation.go:290-294 | The new state is that of the Take action, and no other busy worker has the zone that was taken |
| `DaemonProcess.Daemon.RunCheck` | cmd/check_dns_propagation/check_dns_propagation.go:140-200 | A worker that ran `checkZone` goes on to post iff the zone is unknown or both primary queries succeeded, otherwise the zone is lost; a report is about the poll history of that zone, through DnsNode iff it is configured so |
| `DaemonProcess.Daemon.SendDone` | cmd/check_dns_propagation/check_dns_propagation.go:284 | The whole new state is that of the Post action |
| `DaemonProcess.Daemon.SendCommand` | cmd/check_dns_propagation/telnet_server.go:60-69 | The event is queued with a new `Done` channel, on which the session then waits |
| `DaemonProcess.Daemon.AcceptConsole` | cmd/check_dns_propagation/telnet_server.go:85-91 | A new session that awaits a line |
| `DaemonProcess.Daemon.HaveLine` | cmd/check_dns_propagation/telnet_server.go:44-59 | The session has a line to send |
| `DaemonProcess.Daemon.WakeConsole` | cmd/check_dns_propagation/telnet_server.go:69 | A session whose channel is closed awaits a line again |
| `DaemonProcess.Daemon.CloseConsole` | cmd/check_dns_propagation/telnet_server.go:46-59 | The session is over |
| `Propagation.Poll` | cmd/check_dns_propagation/check_dns_propagation.go:188-251 | Whatever the network answers: `sites` tells the poll history (every server seen, with the last try in which it was wrong, 0 if never), `ix` is the first try without a wrong server or 76, `wrongSerial` holds iff `ix` is 76, and the output is that of the last try |
| `Propagation.Try` | cmd/check_dns_propagation/check_dns_propagation.go:193-249 | One try carries the history over to the next |
| `Propagation.PollAll` | cmd/check_dns_propagation/check_dns_propagation.go:200-245 | One try records exactly the servers that the history function lists for it |
| `Propagation.PollPrimaries` | cmd/check_dns_propagation/check_dns_propagation.go:207-215 | The loop over the distribution primaries records its observations in order |
| `Propagation.PollSites` | cmd/check_dns_propagation/check_dns_propagation.go:216-224 | The loop over the sites continues from what the first loop left |
| `Propagation.PollServers` | cmd/check_dns_propagation/check_dns_propagation.go:227-244 | The loop over the NS records: it finds a wrong serial iff some server has not answered with the target serial, a failed query included; what it changes in `sites`, server by server |
| `Propagation.RecordMeaning` | cmd/check_dns_propagation/check_dns_propagation.go:123-132 | What incremental updates with -1 and `ix` amount to: a key is present iff it was seen, with `ix` iff wrong in this try, else its former value or 0 |
| `Propagation.OutcomeUnique` | cmd/check_dns_propagation/check_dns_propagation.go:188-251 | `ix` and `sites` are determined by the answers alone |
| `Propagation.LargestEntry` | cmd/check_dns_propagation/check_dns_propagation.go:269-280 | No entry exceeds `ix`-1 and one equals it (or there is no entry and `ix` is 1); no reported response time exceeds 300 seconds |
| `Propagation.CheckZone` | cmd/check_dns_propagation/check_dns_propagation.go:140-285 | A MessageDone is posted except on the two exits for failed primary queries; the report is OK iff in some try up to the 75th every server has the target serial; `ix` is the first such try, and each entry of `sites` the last try in which that server's own answer was another or none |
| `Propagation.CheckServers` | cmd/check_dns_propagation/check_dns_propagation.go:187-284 | The part behind those queries, with the same result; no report iff the DnsNode API fails before that, and in which try |
| `Propagation.CounterExactly` | cmd/check_dns_propagation/check_dns_propagation.go:187-253 | The loop counter is the first try in which every server, or every primary and site of DnsNode, has the target serial |
| `Propagation.EntriesExactly` | cmd/check_dns_propagation/check_dns_propagation.go:205-244 | `sites` has exactly the servers asked up to then, each with the last try in which its answer was not the target serial |
| `Propagation.ServerLines` | cmd/check_dns_propagation/check_dns_propagation.go:229-243 | The output has one line for each name server that failed or has another serial, with its name and serial, in their order |
| `Propagation.StatusLines` | cmd/check_dns_propagation/check_dns_propagation.go:204-224 | The same for DnsNode: one line for each such primary, and then one for each such site |
| `Propagation.CollectDelays` | cmd/check_dns_propagation/check_dns_propagation.go:256-267 | One delay for each site of the last status that has the target serial |
| `Propagation.DelaysExactly` | cmd/check_dns_propagation/check_dns_propagation.go:256-267 | The delays are those of exactly the sites with the target serial, in the order of the status |
| `Telnet.SubLengthOfDoubled` | cmd/check_dns_propagation/telnet_readline.go:226-243 | A subnegotiation whose 255s are doubled ends at its own IAC SE (RFC 855), whatever follows |
| `Telnet.CommandLengthOfEncoded` | cmd/check_dns_propagation/telnet_readline.go:205-251 | The parser consumes exactly one well-formed command (RFC 854), whatever follows |
| `Telnet.TokensAppend` | cmd/check_dns_propagation/telnet_readline.go:67-110 | Tokenizing distributes over any cut between tokens |
| `Telnet.TokensOfCommand` | cmd/check_dns_propagation/telnet_readline.go:205-251 | A well-formed command is one token: the negotiation it encodes, an escaped 255 iff it encodes one, or another command |
| `DevClient.SkipSubnegotiation` | cmd/check_dns_propagation/telnet_devclient.go:88-104 | Consumes up to and including IAC SE, or fails iff the stream ends before it |
| `DevClient.SkipTelnetIACSequence` | cmd/check_dns_propagation/telnet_devclient.go:79-113 | Leaves the reader where `handleTelnetCommand` does on every stream, also on one that ends within the command, with the same failures; shows 255 for an escaped one and nothing otherwise |
| `DevClient.RelayUnit` | cmd/check_dns_propagation/telnet_devclient.go:62-73 | One iteration of the relay loop; nothing is shown of a command that the stream ends in |
| `DevClient.RelayConnToStdout` | cmd/check_dns_propagation/telnet_devclient.go:59-75 | Shows exactly the data of the stream, and the notice iff the stream does not end within a command |
| `DevClient.DecodeInvertsEncode` | cmd/check_dns_propagation/telnet_devclient.go:59-113 | Decode inverts encode: for any mix of data (255 doubled) and well-formed commands, exactly the data bytes are shown |
| `DevClient.RelayAppend` | cmd/check_dns_propagation/telnet_devclient.go:59-75 | What is shown of a stream does not depend on where it is cut between units |
| `Crlf.RewriteCharacterized` | cmd/check_dns_propagation/telnet_crlf.go:22-41 | What is sent is the one and only byte string with the same lines and no bare LF; hence rewriting is idempotent |
| `Crlf.SplitWriteExactly` | cmd/check_dns_propagation/telnet_crlf.go:22-41 | Splitting a write in two sends the same bytes iff the cut is not between a CR and its LF |
| `Crlf.NegotiationPassesExactly` | cmd/check_dns_propagation/telnet_readline.go:216-225 | A negotiation passes unchanged iff its option is not 10; for option 10 a CR is put into it |
| `Crlf.OverReportedExactly` | cmd/check_dns_propagation/telnet_crlf.go:33-40 | For a partial write, the reported length exceeds the number of bytes of the input that were sent iff a CR had been added to those |
| `Crlf.CrlfConn.Write` | cmd/check_dns_propagation/telnet_crlf.go:22-41 | The bytes sent, the error, and the reported length, for every partial write and for an error after all bytes |
| `Crlf.CrlfConn.Send` | cmd/check_dns_propagation/telnet_crlf.go:22-41 | A write that is taken in full sends the rewriting |
| `Crlf.CrlfConn.Translate` | cmd/check_dns_propagation/telnet_crlf.go:26-32 | The loop computes the rewriting |
| `Reading.Reader.PeekBuffered` | cmd/check_dns_propagation/telnet_readline.go:83-87 | The next byte, if it has already arrived |
| `LineEditing.LineEditor.constructor` | cmd/check_dns_propagation/telnet_readline.go:54-59 | An empty line and an empty history |
| `LineEditing.LineEditor.Submit` | cmd/check_dns_propagation/telnet_readline.go:112-121 | History and bytes sent for a submitted line |
| `LineEditing.LineEditor.Backspace` | cmd/check_dns_propagation/telnet_readline.go:123-129 | The whole effect on the editor and the connection |
| `LineEditing.LineEditor.SetLine` | cmd/check_dns_propagation/telnet_readline.go:174-182 | The whole effect on the editor and the connection |
| `LineEditing.LineEditor.HistoryMove` | cmd/check_dns_propagation/telnet_readline.go:154-171 | The whole effect, with the position clamped to the history |
| `LineEditing.LineEditor.Complete` | cmd/check_dns_propagation/telnet_readline.go:186-201 | The whole effect: listing, bell, or redrawing |
| `LineEditing.LineEditor.HandleTelnetCommand` | cmd/check_dns_propagation/telnet_readline.go:205-251 | Consumes exactly the command, obeys it, and fails iff the stream ends within it |
| `LineEditing.LineEditor.Answer` | cmd/check_dns_propagation/telnet_readline.go:211-225 | The reply to each negotiation |
| `LineEditing.LineEditor.DiscardSubnegotiation` | cmd/check_dns_propagation/telnet_readline.go:226-243 | Consumes up to and including IAC SE |
| `LineEditing.LineEditor.HandleEscape` | cmd/check_dns_propagation/telnet_readline.go:132-152 | Arrow keys and other escape sequences, with the bytes they consume |
| `LineEditing.LineEditor.Dispatch` | cmd/check_dns_propagation/telnet_readline.go:72-108 | Every branch other than CR does to editor, connection and reader what the key function says |
| `LineEditing.LineEditor.PressKey` | cmd/check_dns_propagation/telnet_readline.go:89-108 | The branches for single-byte keys; a byte from the space on, but for ? and DEL, is added to the line and echoed, DEL and BS take the last byte back, EOT quits iff the line is empty, other control characters do nothing |
| `LineEditing.LineEditor.ReadToken` | cmd/check_dns_propagation/telnet_readline.go:67-109 | One iteration consumes one token, or two if a buffered LF or NUL follows a CR |
| `LineEditing.LineEditor.Return` | cmd/check_dns_propagation/telnet_readline.go:77-88 | A LF or NUL after CR is swallowed iff it has already arrived |
| `LineEditing.LineEditor.ReadLine` | cmd/check_dns_propagation/telnet_readline.go:63-110 | Result, editor, tokens consumed and bytes sent of a whole call, on every stream and every division into packets. In terms of the bytes before the first CR or LF: plain bytes are returned and echoed as they are; with DEL, BS, EOT and other control characters the result is what they leave, and the history after it |
| `LineEditing.LineEditor.ReadTokens` | cmd/check_dns_propagation/telnet_readline.go:67-110 | The loop of ReadLine: result, editor, tokens consumed and bytes sent |
| `Typing.PlainTyped` | cmd/check_dns_propagation/telnet_readline.go:106-107 | Bytes from the space on, but for ?, DEL and 255, are the line, and are echoed as they are |
| `Typing.TypedExactly` | cmd/check_dns_propagation/telnet_readline.go:89-107 | One more byte: a plain one is added at the end, DEL and BS take back exactly the last byte there is, other control characters change nothing |
| `Typing.QuitsExactly` | cmd/check_dns_propagation/telnet_readline.go:91-94 | Ctrl-D quits iff what was typed before it leaves an empty line |
| `Typing.ReadLineTyped` | cmd/check_dns_propagation/telnet_readline.go:63-121 | On these bytes and a CR, a LF or the end of the stream: what ReadLine returns, what is in the history then, every byte sent, and how many bytes are consumed |
| `Typing.RememberExactly` | cmd/check_dns_propagation/telnet_readline.go:114-119 | A line is remembered iff it holds more than spaces and is not the last entry |
| `Typing.CompleteWithExactly` | cmd/check_dns_propagation/telnet_readline.go:184-201 | What Tab or ? shows and leaves in the line for many candidates, one and none |
| `Typing.TabTyped` | cmd/check_dns_propagation/telnet_readline.go:95-96 | Bytes typed, Tab or ?, and a CR or LF: ReadLine returns the completion of what was typed |
| `Editing.TrimExactly` | cmd/check_dns_propagation/telnet_server.go:45 | Trimming takes all the space at both ends of a line, and nothing else |
| `Editing.LexTokens` | cmd/check_dns_propagation/telnet_readline.go:67-110 | How the stream arrives does not change its tokens |
| `Session.ReadLineReplays` | cmd/check_dns_propagation/telnet_readline.go:63-110 | Reading a line and then the rest is the same as replaying all the keys: a swallowed LF or NUL makes no difference |
| `Session.SessionReplays` | cmd/check_dns_propagation/telnet_server.go:43-70 | What a session hands to the event loop (up to blank messages), its history and its end are a function of its keys alone |
| `Session.ChunkingIndependent` | cmd/check_dns_propagation/telnet_readline.go:77-90 | Chunking independence: for any two divisions of one byte stream into packets these are equal |
| `Session.CommandTransparent` | cmd/check_dns_propagation/telnet_readline.go:205-251 | Command transparency: any well-formed command other than IAC IAC, between any two tokens, changes none of them |
| `Session.EscapeTransparent` | cmd/check_dns_propagation/telnet_readline.go:133-152 | Neither does an escape sequence other than Up and Down, or ESC and another byte |
| `Session.DriveByLine` | cmd/check_dns_propagation/telnet_server.go:43-70 | A session followed key by key is the same as line by line, with every byte sent |
| `TelnetServer.NegotiateTelnet` | cmd/check_dns_propagation/telnet_readline.go:36-40 | The three opening offers |
| `TelnetServer.Greet` | cmd/check_dns_propagation/telnet_server.go:37-42 | Everything sent before the first prompt |
| `TelnetServer.ServeLine` | cmd/check_dns_propagation/telnet_server.go:44-69 | One line: handed over, or the end of the session |
| `TelnetServer.HandleTelnetClient` | cmd/check_dns_propagation/telnet_server.go:24-71 | The messages, history, end and every byte sent of a whole session, for any stream and any console output; the messages that are not blank are the lines typed, without the space around them, up to a line "quit" or "q", an EOT on an empty line, or the end of the stream |
| `Conversation.SessionTyped` | cmd/check_dns_propagation/telnet_server.go:43-66 | The same of a session on any list of lines typed, each ended by CR, LF, CR LF or CR NUL, and what is typed last |
| `Sending.SessionSends` | cmd/check_dns_propagation/telnet_server.go:37-69 | Every byte that a session sends for lines ended by CR: for each its echo, a newline, the output of its command and a prompt; the farewell iff the user quits |
| `Screen.EchoShows` | cmd/check_dns_propagation/telnet_readline.go:105-107 | If the screen showed the buffer, after an echoed key it shows the new buffer |
| `Screen.BackspaceShows` | cmd/check_dns_propagation/telnet_readline.go:123-129 | The same for a backspace |
| `Screen.RedrawShows` | cmd/check_dns_propagation/telnet_readline.go:174-182 | The same for a redrawn line, which covers the whole old one |
| `Screen.ListingShows` | cmd/check_dns_propagation/telnet_readline.go:189-192 | After a listing the new row shows the completed line |
| `Screen.ReplyShows` | cmd/check_dns_propagation/telnet_readline.go:216-225 | A negotiation is invisible on the console iff its option is not 10 |
| `Screen.OutputLeavesFreshRow` | cmd/check_dns_propagation/check_dns_propagation.go:307-311 | Output of complete lines leaves a fresh row for the prompt |
| `ScreenAgreement.StepAgreesExactly` | cmd/check_dns_propagation/telnet_readline.go:72-108 | After a key that does not end the line the row is "> ", the new buffer and blanks, with the cursor behind it, iff the key is not one of two: an escaped 255, or DO or WILL of option 10 |
| `ScreenAgreement.ShowsExactly` | cmd/check_dns_propagation/telnet_readline.go:63-201 | Over any keys, lines and console output: the screen shows the buffer whenever the session awaits a key iff no such key is read |
| `ScreenAgreement.ScreenShowsBufferExactly` | cmd/check_dns_propagation/telnet_readline.go:63-201 | The same for a whole session on any byte stream in any packets, through `crlfConn` and the local console's relay, on any terminal |
| `ScreenAgreement.SessionStartsGood` | cmd/check_dns_propagation/telnet_server.go:37-42 | Negotiation, banner and first prompt show an empty buffer |
| `ScreenAgreement.RecoversAtPrompt` | cmd/check_dns_propagation/telnet_readline.go:63-121 | After requests for option 10 every following prompt shows the buffer again, in any session without an escaped 255 |
| `ScreenAgreement.EscapedIsRemembered` | cmd/check_dns_propagation/telnet_readline.go:244-246 | An escaped 255 goes into the history with its line |
| `ScreenAgreement.EscapedComesBackRaw` | cmd/check_dns_propagation/telnet_readline.go:154-182 | From there an arrow key sends it as a raw IAC: what is sent ends within a command |
| `Recall.RecallShowsExactly` | cmd/check_dns_propagation/telnet_readline.go:154-182 | On a screen that shows a buffer without byte 255, a recalled line is shown iff it holds no byte 255, whatever commands such bytes make with those around them |
| `HistoryMachine.StepKeepsHistory` | cmd/check_dns_propagation/telnet_readline.go:112-171 | One key keeps 0 <= histPos <= len(history), no blank entry and no two equal neighbours, and at most appends the submitted line |
| `HistoryMachine.SessionKeepsHistory` | cmd/check_dns_propagation/telnet_readline.go:63-171 | The same over any keys and any number of lines; the history only grows at its end |
| `HistoryMachine.UpsThenDowns` | cmd/check_dns_propagation/telnet_readline.go:154-171 | On a fresh line with n entries, k Ups then j Downs show entry min(n, max(0, n-k)+j), or the empty line when that is n |
| `HistoryMachine.EscapeExactly` | cmd/check_dns_propagation/telnet_readline.go:133-152 | ESC [ and a byte, and ESC and another byte, are one key each, which does nothing but for ESC [ A and ESC [ B |
| `HistoryMachine.ArrowsRecall` | cmd/check_dns_propagation/telnet_readline.go:133-171 | The bytes of k Ups and j Downs on a fresh line, and a CR or LF: ReadLine returns that entry |
| `Completion.FieldsOfJoin` | cmd/check_dns_propagation/telnet_readline.go:312-340 | Splitting joined words gives the words back; an empty last word is not seen |
| `Completion.IsSpaced` | cmd/check_dns_propagation/telnet_readline.go:311-312 | Every line is words with gaps of spaces before, between and behind them |
| `Completion.ParseExactly` | cmd/check_dns_propagation/telnet_readline.go:311-317 | The words of any such line are its fields, and the last is the word being typed iff no gap is behind it |
| `Completion.CommonPrefixGreatest` | cmd/check_dns_propagation/telnet_readline.go:291-305 | The common prefix is a prefix of every item, and every prefix of every item is a prefix of it |
| `Completion.CommonPrefixOrder` | cmd/check_dns_propagation/telnet_readline.go:291-305 | It does not depend on the order or repetition of the items |
| `Completion.CandidatesExact` | cmd/check_dns_propagation/telnet_readline.go:319-333 | The candidates are exactly the options that extend the word being typed, with their multiplicity, sorted |
| `Completion.CommandsExactly` | cmd/check_dns_propagation/telnet_readline.go:257 | Without a word before it: the seven commands, each once |
| `Completion.ArgumentsExactly` | cmd/check_dns_propagation/telnet_readline.go:259-264 | Behind a command: its arguments, each once; for `check` the word all and every zone that is not hidden |
| `Completion.ZonesExactly` | cmd/check_dns_propagation/telnet_readline.go:329-333 | Behind two words or more: every zone that is not hidden for `show zone`, nothing else |
| `Completion.CompletionExtends` | cmd/check_dns_propagation/telnet_readline.go:335-344 | The completed word extends what was typed and is shared by all candidates; the earlier words are kept |
| `Completion.AmbiguousIsFixedPoint` | cmd/check_dns_propagation/telnet_readline.go:307-345 | Completing an ambiguous completion again gives the same line and the same candidates, if the shared part has no space |
| `Completion.ZoneOrderIrrelevant` | cmd/check_dns_propagation/telnet_readline.go:266-278 | Completion does not depend on the order in which the zone map is iterated |
| `Completion.MatchPrefix` | cmd/check_dns_propagation/telnet_readline.go:280-289 | The matching options, sorted |
| `Completion.ListZones` | cmd/check_dns_propagation/telnet_readline.go:266-278 | The zone names that do not start with "__", sorted |
| `Completion.Shorten` | cmd/check_dns_propagation/telnet_readline.go:297-302 | The inner loop finds the longest shared prefix |
| `Completion.FindCommonPrefix` | cmd/check_dns_propagation/telnet_readline.go:291-305 | The two loops, with their early exit, find the greatest common prefix |
| `Completion.Complete` | cmd/check_dns_propagation/telnet_readline.go:310-345 | The code computes the completion that the laws above are about |
| `Negotiation.RunBounded` | cmd/check_dns_propagation/telnet_readline.go:205-225 | Every step of server or peer lowers a potential, so a run is no longer than the potential it starts from |
| `Negotiation.NegotiationTerminates` | cmd/check_dns_propagation/telnet_readline.go:36-40 | With any peer that obeys RFC 854, "General Considerations", and makes k requests of its own, at most 4k+15 messages are ever sent |
| `Negotiation.AnswerDecoded` | cmd/check_dns_propagation/telnet_readline.go:216-225 | The answers of the model are what a peer decodes of the bytes that the editor writes through `crlfConn`: those for option 10 arrive as ones for option 13 |
| `Negotiation.OpeningDecoded` | cmd/check_dns_propagation/telnet_readline.go:36-40 | The initial messages are what a peer decodes of the bytes of `negotiateTelnet` |
| `Negotiation.AtRestExactly` | cmd/check_dns_propagation/telnet_readline.go:205-225 | When all is read, the peer performs nothing, not even the SUPPRESS-GO-AHEAD it was asked for, and takes the server to perform at most ECHO and SUPPRESS-GO-AHEAD; of its requests exactly those for option 10 and all to end an option at the server have had no answer |
| `Negotiation.EndOfEchoStaysOpen` | cmd/check_dns_propagation/telnet_readline.go:211-225 | A run that ends at rest with a DONT of ECHO that the server has read, and neither answered nor obeyed |
| `Negotiation.OptionTenStaysOpen` | cmd/check_dns_propagation/telnet_readline.go:216-225 | A run that ends at rest with a request for option 10 open |
| `Files.Handle.ReadFull` | internal/util.go:77-78 | A chunk, EOF, ErrUnexpectedEOF or another error, as the documentation of `io.ReadFull` has it |
| `Files.ComparisonExactly` | internal/util.go:76-101 | The chunk loop finds files the same iff they are and no read fails; equal files are taken for different without an error iff the reads end at different places, and give an error iff some read fails and they end at the same place |
| `Files.CompareExactly` | internal/util.go:41-101 | The same with failures of `Stat` and `Open`: same iff equal and nothing fails; the only unreported failure is that of reads |
| `Files.CompareChunks` | internal/util.go:74-101 | The chunk loop ends, with exactly this result for all lengths, equal or not, and all read errors |
| `Files.EqualFilesTakenForDifferent` | internal/util.go:86-100 | Two equal files of two bytes that are taken for different without an error |
| `Files.FileSystem.FileCmp` | internal/util.go:37-102 | Exact if nothing fails, never wrongly "same", and with the exact result for every failure of `Stat`, `Open` and reading; a missing file is an error |
| `Files.FileSystem.WriteFile` | cmd/check_dns_propagation/icinga_zones_conf.go:86 | Creating truncates an existing file, whatever its other names |
| `Files.FileSystem.CopyFile` | internal/util.go:105-133 | Fails iff the source is missing, a file cannot be opened, or copying or `Sync` fails; the whole file system after each, also after a failure |
| `Files.CopyContent` | internal/util.go:105-133 | What every name reads after a copy, also a failed one; a copy onto another name of the same file loses its content |
| `Files.InstallExactly` | cmd/check_dns_propagation/icinga_zones_conf.go:122-140 | After an install the target is the text, a reload happened iff it was missing or different before (and not the temporary file itself), and other files are as before |
| `Files.InstallTwice` | cmd/check_dns_propagation/icinga_zones_conf.go:122-140 | A second install changes nothing and reloads nothing |
| `Files.FileSystem.CopyAndReload` | cmd/check_dns_propagation/icinga_zones_conf.go:134-140 | A reload follows a successful copy and no other |
| `Files.UnchangedReloadedExactly` | cmd/check_dns_propagation/icinga_zones_conf.go:123-139 | An unchanged file is installed and loaded again iff anything in the comparison fails; in `writeIcingaConfig` iff a read failure goes unreported or the look for the file does not find it |
| `Files.RunsExactly` | cmd/check_dns_propagation/icinga_zones_conf.go:122-140 | Over any number of runs, whatever fails in them: the target holds what the last run that wrote to it left there, and icinga has loaded the text of the last run whose copy did not fail |
| `Files.LastOnes` | cmd/check_dns_propagation/icinga_zones_conf.go:122-140 | There are such runs, or none |
| `Files.CurrentExactly` | cmd/check_dns_propagation/icinga_zones_conf.go:122-140 | Icinga has not loaded what is installed iff the last run that wrote to the target failed in the copy, and left something else than the last successful copy before had installed |
| `Files.FailedSyncSticks` | internal/util.go:126-130 | After a copy that fails behind its last byte, no number of further runs with the same text loads it |
| `Files.CleanRunRepairsExactly` | cmd/check_dns_propagation/icinga_zones_conf.go:122-140 | A run without failures brings icinga up to date iff it was, or the text is not already in the target |
| `Files.FileSystem.GenerateConf` | cmd/check_dns_propagation/icinga_zones_conf.go:122-140 | The code does that: target, reload and result of a run with any failures |
| `Files.FileSystem.Update` | cmd/check_becs_dhcp_scope/check_becs_dhcp_scope.go:90-105 | From the look for an installed file on: whether it is compared, copied and loaded, and the result |
| `Files.FileSystem.WriteIcingaConfig` | cmd/check_becs_dhcp_scope/check_becs_dhcp_scope.go:84-106 | The same, with a failed comparison as an error; the temporary file is removed on every way out after it was written |
| `IcingaConf.GroupedCount` | internal/check.go:166-176 | A customer has exactly its own visited zones not starting with "_", as often as visited, and no customer is empty |
| `IcingaConf.LayoutCanonical` | internal/check.go:166-177 | For any two iteration orders of the two maps the sorted layout is the same |
| `IcingaConf.FileCanonical` | cmd/check_dns_propagation/icinga_zones_conf.go:94-120 | For any two iteration orders every byte of the file is the same |
| `IcingaConf.CustomersComplete` | internal/util.go:136-145 | The file lists exactly the customers with a visible zone, sorted and each once |
| `IcingaConf.ZonesComplete` | cmd/check_dns_propagation/icinga_zones_conf.go:102-109 | Under each customer are exactly its own visible zones, sorted and each once |
| `Rendering.FileTextExactly` | cmd/check_dns_propagation/icinga_zones_conf.go:92-120 | The file is the header, and for each customer of the layout its heading and the block of each of its zones, in order, and no other piece; where each piece begins and ends |
| `Rendering.VisibleZoneOnce` | cmd/check_dns_propagation/icinga_zones_conf.go:109-119 | Each zone not starting with "_" has its block exactly once, behind the heading of its own customer |
| `Rendering.NoOtherBlock` | cmd/check_dns_propagation/icinga_zones_conf.go:109-119 | There is no other block |
| `Rendering.HeadingOnce` | cmd/check_dns_propagation/icinga_zones_conf.go:95-100 | A customer has a heading iff it has such a zone, and only one |
| `IcingaConf.GroupByCustomer` | internal/check.go:166-176 | The loop computes the grouping |
| `IcingaConf.SortedKeys` | internal/util.go:136-145 | A sorted permutation of the keys |
| `IcingaConf.GenerateSection` | cmd/check_dns_propagation/icinga_zones_conf.go:95-119 | One customer: the heading, and behind it one after the other the block of each of its zones, whatever is checked of it |
| `IcingaConf.GenerateText` | cmd/check_dns_propagation/icinga_zones_conf.go:92-120 | The header and all sections in order |
| `IcingaConf.GenerateFile` | cmd/check_dns_propagation/icinga_zones_conf.go:92-120 | From the zones and the two iteration orders to the bytes of the file |
| `ZonesFile.GenerateIcingaZonesConf` | cmd/check_dns_propagation/icinga_zones_conf.go:85-141 | After a successful run the installed file is the rendering, with a block for exactly the zones not starting with "_", or empty if it is the temporary file itself and a `Stat` fails; target, reload and result with any failures are those of the run function |
| `ZonesFile.SecondRunReloadsNothing` | cmd/check_dns_propagation/icinga_zones_conf.go:83-141 | A second run, with other map iteration orders, changes no file and reloads nothing |
| `Sorting.SortedUnique` | internal/util.go:141-143 | A sorted arrangement is determined by its elements, so the sorting algorithm does not matter |
| `Sorting.LeExactly` | internal/util.go:141-143 | The order is Go's: a prefix first, otherwise by the first byte that differs |
| `Becs.SessionTrace` | cmd/check_becs_dhcp_scope/becs.go:66-145 | Over any queries and logouts and any replies: ids are 1, 2, 3, ..., a login is sent iff no session is held, and every other request carries the session of the last successful login |
| `Becs.SessionExactly` | cmd/check_becs_dhcp_scope/becs.go:115-145 | The session held is that of the last login that gave one, unless there was a logout since |
| `Becs.RequestsExactly` | cmd/check_becs_dhcp_scope/becs.go:68-145 | Over any queries and logouts: each query adds one login iff no session is held, and exactly one `rdrGet`, as its last request, iff one is held then; each logout adds exactly one request iff a session is held |
| `Becs.BecsClient.Call` | cmd/check_becs_dhcp_scope/becs.go:68-113 | With a session held at the end, the last request is the operation asked for, under that session and the next id, and the reply is the server's to it; with none before, a login was sent first, and its reply decides; the two methods that call each other come to an end |
| `Becs.BecsClient.Login` | cmd/check_becs_dhcp_scope/becs.go:115-135 | One login request; fails iff its reply holds no session id, and else takes that |
| `Becs.BecsClient.constructor` | cmd/check_becs_dhcp_scope/becs.go:40-45 | No session, and no request sent |
| `Becs.BecsClient.RdrGet` | cmd/check_becs_dhcp_scope/becs.go:163-170 | The same for a query: its last request is `rdrGet`, and it returns the reply to that, iff a session is held after the login it may need |
| `Becs.BecsClient.Logout` | cmd/check_becs_dhcp_scope/becs.go:139-145 | Exactly one logout request iff a session is held; the session is given up whatever the reply |

## Left out

- Sockets, DNS and HTTP exchange, the DnsNode client, JSON and YAML decoding, `time.Sleep`: their results are parameters.
- Blocking on a console's own connection: writes to it always complete, except in `Crlf.CrlfConn.Write`.
- Log broadcasting to the consoles: assumed silent, since it may write into a session at any moment.
- The branches of `CLI` other than `check`, and the text that any branch prints: an arbitrary function of how many
  commands the session has handed over. The screen theorem asks of that output that it consists of complete lines
  without the byte 255, and of zone names that they are printable.
- Terminal wrapping, multi-byte characters, a row below the current one: one column per byte, rows of any width.
- Editing.TrimExactly: does not model white space other than the space, because control characters never enter the edit
  buffer by a key and multi-byte spaces are not considered.
- Completion.ParseExactly: does not model words with white space other than the space, for the same reason.
- Sending.SessionSends: does not cover lines ended otherwise than by CR, because after CR LF it depends on the packets
  whether the LF ends a blank line of its own, with its own output and prompt; `Conversation.SessionTyped` covers them.
- The banner is one write instead of four; its lines end in LF, so by `Crlf.SplitWriteExactly` the bytes are the same.
- `sort.Strings` and `sort.Slice` are insertion into a sorted list; by `Sorting.SortedUnique` any correct sort gives
  the same.
- `text/template`: the block of a zone is an arbitrary function of its name and record, and rendering does not fail.
- Errors of single writes to the temporary file, which `generateIcingaZonesConf` ignores.
- Changes to the installed file by anything but these programs, and a `systemctl reload` that fails: loading is taken to
  succeed.
- A channel that is closed wakes its waiter by the Resume action, enabled from the close on; the Go scheduler's
  fairness is not part of the model, so draining is a bound on every run rather than a promise of progress.
- `DHCPScopeUtilization` sums, and the parameters of a request other than its session id.
- The debug flags, `help` and `show`, the ntp, chrony, gonemaster, file-status, rrsig, LDAP, RADIUS, IMAP and HTTP
  checks, `Range` and `SetStatus`: short computations that would add only easy members.
