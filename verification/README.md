# Redis-Watcher: a verified model

Redis-Watcher turns the byte stream of Redis `MONITOR` into events, fans them out to outputs and an alert engine, and
pauses while the upstream Redis is not the primary. This Dafny project models its five connected parts and proves what
they promise. `dafny verify dfyconfig.toml` checks all of it.

| file | models |
|---|---|
| `Text.dfy` | byte strings, `strings.IndexByte` and friends, `strconv.ParseInt`, decimal printing |
| `Lexer.dfy` | the argument lexer, its grammar, and Redis's `sdscatrepr()` |
| `Parser.dfy` | timestamp, bracketed segment and address, and the whole MONITOR line with its printer |
| `Framing.dfy` | cutting the stream into lines and a session into outcomes |
| `Monitor.dfy` | the MONITOR client object: handshake, read loop, drop policy, reconnect loop |
| `RoleGate.dfy`, `Role.dfy` | the role gate as an interleaved protocol, and the checker object |
| `Pipeline.dfy` | reader, dispatcher, outputs and alert engine as one state machine |
| `Shutdown.dfy` | what blocking queues do to that machine at shutdown: a lost event, a dispatcher that waits for ever |
| `Output.dfy`, `Health.dfy`, `Metrics.dfy` | consumers, fan-out, quoting, failure edges and the registry's health state |
| `RateLimit.dfy`, `Retry.dfy`, `Alert.dfy` | the alert engine: fixed-window limiter, backoff, dispatch accounting |
| `Resp.dfy`, `Events.dfy` | RESP2 framing and the reconstructed command line |
| `History.dfy`, `Durations.dfy` | marked histories and subsequences; 64-bit doubling |

How it is modelled:

- Text is a `string`; a Go string of arbitrary bytes is a `seq<byte>`, a byte being a character below 256.
- Objects with fields are classes. Each method is proved equal to a function of the old state, and what the program
  promises is proved of these functions.
- Concurrency is a state, a set of actions and `Exec(s, actions)`. An action that is not enabled changes nothing, so a
  theorem over all action lists is a theorem over all interleavings and every reachable state. Goroutines interleave at
  every atomic load and store, critical section, channel send and channel receive.
- Three classes are tied to the machines by a `View`. `Role.Checker.View` is a state of `RoleGate`, and a probe, a
  subscription, a cancel and the gate's answer are stated as what they do to it (`RoleGate.WholeProbe` is the run of
  atomic steps a probe consists of). `Output.Consumer.View` and `Alert.Engine.View` are stages of `Pipeline`, and
  submitting, receiving, writing, the shutdown drain and handling an alert are steps of such a stage. The read loop of
  `Monitor.Client` and the reader of `Pipeline` share `Framing.SessionFrom`.
- All components write to one `Metrics.Registry`, with the functions that `Health.ReadinessIsRightExactly` is about. The
  snapshot is compared between attempts: an output flips its flag and then tells the registry (output.go:172-173,
  184-185), and a reader between these two statements still sees the old entry.
- The clock, the sinks, the notification channels, the scheduler and the network are oracles: parameters or
  nondeterministic choices. `strings.ToUpper` is the parameter `up` and the alert patterns are the parameter `pattern`;
  nothing is assumed of either.

Where a promise fails, the project gives the input and the exact condition:

- `runOnce` does not look at the gate again after `Subscribe` (`Wait` does). A flip that is announced while the client
  dials is missed, and the session stays on the replica until the next flip, although the documentation says the
  connection is dropped immediately (README.md:148). `RoleGate.TeardownExactly`, `FlipDuringDialIsMissed` and
  `StaleUntilTheNextFlip`.
- Two outputs of one name share an entry of the registry's failing set. Two outputs of type `file` do. When one
  recovers, the other is forgotten. Alert channels would too, but the configuration allows one of each kind.
  `Health.ReadinessIsRightExactly`, `SharedNameForgets`, `SharedChannelForgets`.
- A closed interval of k windows can hold (k + 1) * max - 1 alerts of one key, and this is reached.
  `RateLimit.SlidingBound`, `SlidingBoundIsTight`.
- A negative `RetryMaxBackoff` switches the cap off, and with no maximum an initial backoff above one minute is slept
  once. `Retry.BackoffClosedForm`, `NormalisedInitial`.
- `monitor.New` leaves the maximum below the minimum when the minimum exceeds half a minute.
  `Monitor.NormalisedOrdered`.
- With blocking queues one parsed event can be lost uncounted at shutdown. `Shutdown.NothingAbandonedExactly`.
- With blocking queues the dispatcher can submit to a sink that has already shut down with a full queue. Nothing ever
  frees it, and the wait that ends the program (app.go:182) does not return. One session suffices: the context ends, the
  sinks stop, and lines the session had already received fill a queue that nobody reads. `Shutdown.StuckExactly`.
- A command line with arguments is also the line of a longer command with a space in it. The decoder recovers command
  and arguments if and only if the command holds no space. `Events.LongerCommandSharesTheLine`, `LineIsUniqueExactly`,
  `CommandLineDecodes`.
- A (command, ip) pair has a rate-limit bucket to itself if and only if neither holds a `|`.
  `RateLimit.OwnBucketExactly`, `BarInAddressSharesABucket`.
- A `]` of the address with a quote behind it, blanks between them or not, closes the bracketed segment early.
  `Parser.CloseOfPrinted`.
- The comment on `RoleUnknown` (role.go:37-38) says the role is unknown whenever a check fails. The code keeps the last
  role, and so does the model.

## Model

| member | source | states |
|---|---|---|
| RoleGate.NoLostWakeup | internal/role/role.go:127-187 | in every interleaving of one prober, any callers of Wait and any sessions, a caller parked while the gate is active has its token or a send that the prober is bound to make |
| RoleGate.ParkedCallerReturns | internal/role/role.go:127-151 | from every such state the probe in progress can finish and the caller's own three steps make Wait return nil |
| RoleGate.CallerReturns | internal/role/role.go:127-151 | from every reachable state with an active gate, any caller whose context has not made it give up is at most three own steps, after the announcement in progress, away from nil |
| RoleGate.NothingWithoutTheGate | internal/role/role.go:127-151 | over every run, no caller has been answered nil and no session dialled unless the gate was active at some state of it, and no caller an error unless its context ended |
| RoleGate.StepAnswers | internal/role/role.go:127-151 | step by step: nil is answered only while the gate is active, an error only when the context ends, an answer stands, nobody dials at an inactive gate, and a session leaves only for an inactive gate or the end of its context |
| RoleGate.SessionStaysUp | internal/monitor/client.go:230-249 | a session leaves over no run in which the gate stays active and its context does not end |
| RoleGate.CancelledCallerReturns | internal/role/role.go:140-143 | a parked caller whose context ends unsubscribes and returns the error |
| RoleGate.NoSubscriptionLeaks | internal/role/role.go:160-176 | at every reachable state each subscribed channel is listed once and its owner still uses it |
| RoleGate.RemoveExactly | internal/role/role.go:168-173 | cancelling removes the first occurrence and nothing else |
| RoleGate.DueIsDelivered | internal/role/role.go:178-187 | the rest of a probe past its stores ends with a token in every subscribed channel that was owed one, and the flag as it was |
| RoleGate.TeardownExactly | internal/monitor/client.go:230-249 | for every reachable subscribe: no continuation ever leaves the session stale if and only if the gate was active then or a flip was still to be announced |
| RoleGate.ArmedIsNeverStale | internal/monitor/client.go:230-249 | a session that subscribed in time never has an open connection, a parked watcher without a wake-up under way and an inactive gate |
| RoleGate.FlipDuringDialIsMissed | internal/monitor/client.go:159-172 | a run from the start in which the assumption fails and the session stays on the replica |
| RoleGate.StaleUntilTheNextFlip | internal/monitor/client.go:238-247 | a stale session stays stale over every continuation until another role is answered or its context ends |
| RoleGate.RoleHistory | internal/role/role.go:204-256 | after every completed probe of every run the flag agrees with the role, the transitions form a chain from unknown to it without self-steps, and each was announced once |
| RoleGate.WholeProbe | internal/role/role.go:204-256 | an uninterrupted probe of the protocol, failed or successful, has the effect that the checker object states for one call |
| RoleGate.StepKeepsInv | internal/role/role.go:127-256 | the invariant behind these theorems is kept by every atomic step of every goroutine |
| Role.Checker.IsMaster | internal/role/role.go:117-122 | the gate of the object is the gate of the protocol: replicas are allowed or the role is master |
| Role.Checker.Subscribe | internal/role/role.go:160-164 | appends a fresh empty channel: the critical section of the protocol |
| Role.Checker.Cancel | internal/role/role.go:165-174 | takes the first occurrence of the channel out of the list and nothing else: the critical section of the protocol, except that a token left in the channel is forgotten with it, where the protocol still lists it |
| Role.Checker.Notify | internal/role/role.go:178-187 | leaves a token in every subscribed channel |
| Role.Checker.ProbeOnce | internal/role/role.go:204-256 | has the effect of a whole probe of the protocol: a failed one changes the error only, a successful one sets flag and role together, records the transition if there is one, and fills exactly then every channel; afterwards the registry knows the role if and only if it is neither unknown nor empty |
| Role.Checker.constructor | internal/role/role.go:89-105 | starts unknown, inactive, without subscribers |
| Pipeline.Conservation | internal/app/app.go:200-234 | at every reachable state, drain included: each '+' line read is a parse error, a monitor drop, in hand, queued, ignored or recorded, and each recorded event is at every output and the alert engine written, failed, dropped, in hand, queued or pending |
| Pipeline.DropsNeedAFullQueue | internal/output/output.go:103-114 | over every run nothing is dropped without the drop policy, nor before more events have come than the queue can hold |
| Pipeline.ReaderDropsOnlyWhenFull | internal/monitor/client.go:318-326 | step by step, the monitor queue drops only when it is full and takes whatever finds room |
| Pipeline.StageDropsOnlyWhenFull | internal/output/output.go:103-114 | the same for the queue of every output and of the alert engine |
| Pipeline.RelevantExactly | internal/app/app.go:208-213 | what is passed on are exactly the events of the commands that are not ignored, each as often as it came |
| Pipeline.Order | internal/output/output.go:103-151 | each sink's attempts, its event in hand and its queue are the events submitted to it with exactly the dropped ones deleted, a subsequence of the parsed events, and everything relevant when nothing was dropped |
| Pipeline.EndToEnd | internal/monitor/client.go:159-335 | over any number of sessions that carry printed lines and others, cut off anywhere by reconnects, every sink sees a subsequence of exactly the printed events of the sessions in MONITOR order, and there are no more parse errors than '+' lines that are none |
| Pipeline.EverythingDelivered | internal/app/app.go:208-222 | once all '+' lines sent have been read and all has gone through without drops, a sink was handed exactly the printed events of all sessions whose commands are not ignored, and each '+' line that is none was one parse error |
| Pipeline.RunKeepsWire | internal/monitor/client.go:284-316 | over every run the outcomes are those of the first lines of each session, one session after the other, and those the current session still yields are on the wire |
| Pipeline.HeardPrinted | internal/monitor/client.go:284-316 | what is heard of the sessions parses to a subsequence of the printed events, with no more failures than '+' lines that are none, and to exactly these events and failures when no line was missed |
| Pipeline.OneSessionIsRead | internal/monitor/client.go:284-316 | in a run of one session all has been read once no terminated line is left |
| Pipeline.StageKeepsInv | internal/output/output.go:136-224 | receive, write, shutdown notice and drain steps keep a stage's accounting |
| Pipeline.SubmitKeepsStage | internal/alert/alert.go:196-208 | an accepted or dropped submission extends the stage's offers by one and keeps its accounting |
| Pipeline.StepKeepsInv | internal/app/app.go:200-234 | the whole accounting is kept by every step of reader, dispatcher, outputs and alert engine |
| Pipeline.StageRunIsExec | internal/output/output.go:191-224 | the steps one output takes by itself after the context has ended are a run of the whole machine that touches nothing else |
| Shutdown.NothingAbandonedExactly | internal/monitor/client.go:318-333 | no run loses a parsed event at a cancelled send if and only if the queues drop |
| Shutdown.NothingStopsBeforeTheEnd | internal/output/output.go:144-151 | over every run in which the context has not ended all sinks run, the dispatcher is there, and no event has been given up |
| Shutdown.NoSessionAfterTheEnd | internal/monitor/client.go:163-165 | once the context has ended there are no further sessions |
| Shutdown.OnlyOutputsDrain | internal/alert/alert.go:218-228 | at the end of the context the alert engine stops at once, while an output goes on with its queue until a write fails |
| Shutdown.AbandonIsReachable | internal/monitor/client.go:327-333 | with blocking queues every printed line can be read and then lost uncounted when the context ends |
| Shutdown.AbandonedEventIsUncounted | internal/monitor/client.go:327-333 | such a loss leaves the counters exactly one short |
| Shutdown.WedgedIsStuck | internal/output/output.go:103-114 | with blocking queues a dispatcher that submits to a stopped stage with a full queue stays there over every continuation |
| Shutdown.StuckExactly | internal/app/app.go:178-222 | given a sink and a line whose command is not ignored, some run gets the dispatcher stuck for ever, so that the shutdown does not end, if and only if the queues block |
| Parser.ParseInvertsPrint | internal/monitor/parser.go:45-91 | for every second, microsecond, db, unambiguous address and nonempty list of byte strings, parsing the printed line succeeds exactly when both numbers fit in 64 bits, and then returns exactly the event of the entry |
| Parser.ParsedFields | internal/monitor/parser.go:79-91 | field by field: nanoseconds, db, source, the upper-cased first argument as command, the other arguments as they were, and the upper-cased second one as subcommand exactly for the sixteen listed commands |
| Parser.FirstFault | internal/monitor/parser.go:55-77 | of several faults in one line the timestamp's is reported first, then the bracket's, then the arguments' |
| Parser.NothingBehindTheBracket | internal/monitor/parser.go:71-77 | a line that ends with its bracketed segment has no command |
| Parser.NoBracketedSegment | internal/monitor/parser.go:127-154 | a segment never opened and one never closed are told apart |
| Parser.BracketBodyParts | internal/monitor/parser.go:155-168 | the text before the first space has to be a 64-bit number, the rest is the address |
| Parser.NoTimestampExactly | internal/monitor/parser.go:55-58 | a line without a space, or with one in front, has no timestamp, and no other line is refused so |
| Parser.EmptyLineExactly | internal/monitor/parser.go:46-50 | only line terminators make an empty line |
| Parser.PlusIsOptional | internal/monitor/parser.go:51-53 | a line reads the same with and without its '+' |
| Parser.CloseOfPrinted | internal/monitor/parser.go:127-157 | the scan finds the outer bracket past every ']' inside the address if and only if no ']' of the address is followed by blanks and a quote |
| Parser.SplitHostPortOfPeer | internal/monitor/parser.go:170-192 | every address of each of the four shapes is split into the address and port it was made of |
| Parser.EveryAddressIsAPeer | internal/monitor/parser.go:170-192 | every text has one of the four shapes |
| Parser.TimestampOfStamp | internal/monitor/parser.go:93-125 | a printed second and microsecond are read as that many nanoseconds, and seconds beyond 64 bits are an error |
| Parser.TimestampOfDecimal | internal/monitor/parser.go:93-125 | any number of fraction digits: the nanoseconds are the fraction of a second, cut off after the ninth |
| Parser.NegativeSeconds | internal/monitor/parser.go:106-108 | a negative number of seconds is an error of its own |
| Text.ParseIntExactly | internal/monitor/parser.go:102-105 | exactly the plain and signed decimal numerals of the 64-bit range are numbers, with their values |
| Parser.ParseTimestamp | internal/monitor/parser.go:93-125 | the padding loop computes the scaled fraction |
| Parser.ParseBracket | internal/monitor/parser.go:127-168 | the nested scans compute the first boundary and the fields around it |
| Parser.ParseLine | internal/monitor/parser.go:45-91 | the composed methods compute Parse on every line, errors included |
| Lexer.ParseQuotedArgs | internal/monitor/parser.go:197-264 | the index loop computes the lexer function on every text and terminates |
| Lexer.LexerLanguage | internal/monitor/parser.go:197-264 | the lexer accepts exactly (blank* quoted-string)* blank*, and its result is the unescaping of any derivation, malformed hexadecimal escapes included |
| Lexer.Soundness | internal/monitor/parser.go:197-264 | every accepted text has a derivation with these values |
| Lexer.Completeness | internal/monitor/parser.go:197-264 | every derivation is accepted with its values, so they are unique |
| Lexer.ArgsOfRepr | internal/monitor/parser.go:194-264 | lexing inverts sdscatrepr on every list of arbitrary byte strings |
| Lexer.ErrorsExactly | internal/monitor/parser.go:197-264 | a text that is refused is unterminated exactly when more text could complete it; an unexpected character is never mended |
| Lexer.LoneEscape | internal/monitor/parser.go:218-246 | what a backslash and each single character stand for |
| Lexer.HexTable | internal/monitor/parser.go:234-241 | the hexadecimal digits of both cases and their values |
| Framing.StreamFraming | internal/monitor/client.go:284-316 | a stream of printed lines, '+' lines that do not parse and stray lines, with an unterminated tail, yields exactly the printed events in order and one failure for each line that does not parse |
| Framing.ErrorReplyEndsTheSession | internal/monitor/client.go:300-306 | a '-' line ends the session after exactly the earlier events and failures, whatever follows |
| Monitor.Client.ReadLoop | internal/monitor/client.go:284-335 | the loop offers exactly the session's events in order, an event is refused exactly when the queue is full at its offer, the counters are the failures and the drops, and the error tells how the session ended; only an interrupted blocking send stops earlier |
| Monitor.Client.Offer | internal/monitor/client.go:318-334 | under the drop policy an event is refused exactly when the queue is full, and counted |
| Monitor.RoomForAll | internal/monitor/client.go:318-326 | while the queue could hold everything, nothing is refused |
| Monitor.SessionOverTheWire | internal/monitor/client.go:254-281 | two accepting replies are all the handshake consumes, and the printed lines after them come out as exactly the printed events |
| Monitor.Client.Greet | internal/monitor/client.go:254-268 | sends AUTH if there is a password and MONITOR, and ends as the server's replies say, with the rest of the data untouched |
| Monitor.GreetingOnTheWire | internal/resp/resp.go:85-92 | what is sent reads back as one AUTH command, username before password, and MONITOR |
| Monitor.RefusedOverTheWire | internal/monitor/client.go:254-268 | an error reply to AUTH or MONITOR ends the handshake with the server's words |
| Monitor.Client.RunOnce | internal/monitor/client.go:207-282 | nothing happens to queue, counters and registry unless the handshake is accepted; then the read loop works on exactly the data after it, an event is refused exactly when the queue is full and none while it could hold everything, and the registry says connected while it runs and not afterwards |
| Monitor.Client.Run | internal/monitor/client.go:159-205 | turn by turn, a session is started exactly when the context has not ended and the gate is absent, active or waited for; a pause precedes it exactly when the gate was inactive; a failed session is followed by a role disconnect exactly when the gate is inactive then, and by a sleep otherwise; the loop goes on exactly after these; reconnects are one less than sessions |
| Monitor.TurnLogObeys | internal/monitor/client.go:159-205 | the log of a turn, from which the delays are computed, obeys the same rules |
| Monitor.LogConforms | internal/monitor/client.go:159-205 | every sleep has the delay given by the number of slept failures since the start or the last gate pause; role disconnects and good sessions do not count |
| Monitor.DelayStep | internal/monitor/client.go:200-203 | doubling and capping in 64 bits takes the delay after n failures to that after n + 1 |
| Monitor.DelayClosedForm | internal/monitor/client.go:159-205 | the delay is min(BackoffMin * 2^n, BackoffMax) for all n if and only if the bounds are ordered |
| Monitor.NormalisedOrdered | internal/monitor/client.go:106-111 | New orders the bounds if and only if not both the minimum is above half a minute and the maximum below it |
| Monitor.Normalised | internal/monitor/client.go:106-111 | a positive minimum and a maximum not below it are kept; the defaults are a second and half a minute |
| Monitor.NoGateNoPause | internal/monitor/client.go:166-192 | without a gate there are no pauses and no role disconnects |
| Output.Consumer.Submit | internal/output/output.go:103-114 | enqueues, discards and counts, or blocks, as room and policy say: the submission of the pipeline |
| Output.Consumer.WriteOne | internal/output/output.go:164-187 | one attempt is logged and counted as the pipeline's step says; registry calls and reports are made at an edge only, and are those the history of attempts prescribes |
| Output.Consumer.DrainAfterShutdown | internal/output/output.go:191-224 | attempts a prefix of the queue in order, stops at the first failure, loses nothing, touches no other output's mark, and is a run of the pipeline's stage that ends stopped |
| Output.Manager.Dispatch | internal/output/output.go:247-251 | every output is offered the event once, in order, each by the submission of the pipeline, up to one whose full queue it waits for |
| Output.QuoteText | internal/output/output.go:297-312 | produces the argument text of the reconstructed command line |
| Health.FailureEdges | internal/output/output.go:164-224 | over every sequence of outcomes: failing means the last attempt failed, the registry calls alternate starting with true, and there is one report per maximal block of failures |
| Health.ReadinessIsRightExactly | internal/metrics/metrics.go:564-578 | over every run of sessions, probes, writes and dispatches the snapshot says whether a session is open, whether the last role is known, and exactly which outputs and channels failed last, if and only if no two outputs and no two channels share a name |
| Health.SessionAndRoleTold | internal/metrics/metrics.go:387-398 | session and role are right whatever the names |
| Health.SharedNameForgets | internal/metrics/metrics.go:461-474 | a three-write run that breaks it for any two outputs of one name |
| Health.SharedChannelForgets | internal/metrics/metrics.go:523-536 | a run of two dispatches that breaks it for any two channels of one name |
| RateLimit.SlidingBound | internal/alert/alert.go:441-459 | with nondecreasing time a closed interval of k windows holds at most (k + 1) * max - 1 allowed alerts of one key |
| RateLimit.SlidingBoundIsTight | internal/alert/alert.go:441-459 | for every k up to the window length some run reaches the bound |
| RateLimit.RateLimitBound | internal/alert/alert.go:441-459 | the bound for each key of any run over the shared map |
| RateLimit.DenialFromTheStart | internal/alert/alert.go:454-456 | a denial happens only when max alerts of the key were allowed within the window ending now |
| RateLimit.OffAllowsAll | internal/alert/alert.go:442-444 | a limiter that is switched off or has no positive window or maximum allows everything and remembers nothing |
| RateLimit.KeysDoNotInterfere | internal/alert/alert.go:445-458 | the verdicts for one key in any interleaving are those of its own bucket on its own requests |
| RateLimit.OwnBucketExactly | internal/alert/alert.go:445 | a (command, ip) pair shares its bucket with no other pair if and only if neither part holds a bar |
| RateLimit.KeyInjective | internal/alert/alert.go:445 | among addresses without a bar the joined key determines command and ip, whatever the commands are |
| RateLimit.BarInAddressSharesABucket | internal/alert/alert.go:445 | for every address with a bar, the pair split at that bar shares the bucket |
| Retry.BackoffClosedForm | internal/alert/alert.go:415-424 | in 64-bit arithmetic the i-th sleep is min(initial * 2^i, cap) for all i if and only if the first sleep respects the cap and the maximum is not negative, or nothing is slept |
| Retry.NormalisedInitial | internal/alert/alert.go:149-157 | New makes the first sleep respect the cap unless no maximum is set and more than a minute is asked for |
| Retry.TotalSleep | internal/alert/alert.go:295-341 | one dispatch sleeps at most (attempts - 1) * cap in all |
| Retry.SendsPerDispatch | internal/alert/alert.go:298-341 | every dispatch makes between one and the maximum number of sends |
| Alert.Channel.SendOne | internal/alert/alert.go:290-360 | adds one dispatch of valid shape to the channel's history; sends equal dispatches plus retries and also sent plus errors, and the registry is told how the dispatch ended |
| Alert.Engine.DispatchAll | internal/alert/alert.go:265-269 | adds exactly one dispatch to every channel's history whatever the others did; with distinct names the registry then names exactly the channels whose last dispatch failed |
| Alert.Engine.Handle | internal/alert/alert.go:230-271 | no match if and only if the command is not listed and no pattern matches its line; a match from an ignored address is ignored, and of the others exactly those are dispatched that the limiter allows; suspicious events equal rate-limited plus dispatched ones, the registry's marks stay right, and the event is accounted for as the pipeline's step says |
| Alert.Engine.RateLimitAllow | internal/alert/alert.go:441-459 | updates the shared map and answers as the limiter function says |
| Alert.Engine.Submit | internal/alert/alert.go:197-208 | enqueues, drops and counts, or blocks, as room and policy say: the submission of the pipeline |
| Alert.Engine.constructor | internal/alert/alert.go:138-194 | normalises buffer and retry options and starts with every account balanced |
| Resp.CommandFraming | internal/resp/resp.go:20-83 | RESP2: the header line announces the number of arguments, and as many bulk strings give back the arguments and leave exactly the rest, for arbitrary bytes |
| Resp.CommandsArePrefixFree | internal/resp/resp.go:20-30 | no two commands, whatever follows them, begin with the same bytes |
| Resp.ReadBulkOfEncoded | internal/resp/resp.go:56-83 | a written bulk string is read back and nothing after it is touched |
| Resp.BulkRefusals | internal/resp/resp.go:57-78 | a first line that is no bulk header is told apart as empty, an error reply, another frame, a bad length or the null bulk string, and nothing after it is touched |
| Resp.BulkCutOff | internal/resp/resp.go:79-82 | a body that is cut off is an error that tells whether any of it had arrived |
| Resp.SimpleReply | internal/resp/resp.go:34-51 | a simple reply is judged by its first character and consumes exactly its line |
| Resp.Writer.WriteCommand | internal/resp/resp.go:20-30 | the loop appends the encoded command |
| Resp.Reader.ReadBulkString | internal/resp/resp.go:56-83 | result and remaining data are those of the reading function, errors included |
| Resp.Reader.ReadSimpleString | internal/resp/resp.go:34-51 | result and remaining data are those of the reading function, errors included |
| Events.CommandLineDecodes | internal/event/event.go:41-64 | this decoder recovers command and arguments, empty ones and backslashes included, if and only if the command holds no space |
| Events.LongerCommandSharesTheLine | internal/event/event.go:41-64 | moving any first arguments into the command gives another pair with the same line |
| Events.LineIsUniqueExactly | internal/event/event.go:41-64 | among all commands a pair has its line to itself if and only if there are no arguments and no part of the command from a space on reads as arguments |
| Events.CommandLineInjective | internal/event/event.go:41-64 | different space-free commands or arguments have different lines |
| Events.CommandLine | internal/event/event.go:44-64 | the nested loops build that line |
| Events.QuotedExactly | internal/event/event.go:46-58 | an argument stands as it is if and only if it holds no blank, tab, line terminator or quote |
| Events.FullCommandIsALine | internal/event/event.go:34-39 | the full command is the line of the command with its subcommand as the only argument |
| Events.FullCommandInjective | internal/event/event.go:34-39 | command and subcommand are recoverable from the full command |

## Left out

- Sockets, dialing, deadlines, file rotation and the HTTP channels: foreign input and output, replaced by oracles.
- Prometheus registration, histograms, gauges, the queue-depth collector and the HTTP server: library wrappers.
- Sentry spans and captures: only the number of write reports is kept.
- `RecordRoleTransition`, `ObserveLastEvent` and the other pure statistics: the recorded transitions are a field of the checker.
- Configuration loading, logging, signal handling and the wiring functions.
- JSON and RFC 3339 formatting in `encode`: library code. Only `quoteText` is modelled.
- Error texts: errors are constructors, with the server's own line kept where the program passes it on.
- The payload built in `handle` for the channels, and the choice of the reason text in `match`.
- `Consumer.Run`, `Manager.Run`, `Engine.Run` and `dispatcher.run`: their select loops are steps of `Pipeline`, not methods. The engine class is its running phase; that it stops at the end of the context is a step of `Pipeline`.
- Shutdown.StuckExactly: assumes a sink, a positive event buffer (the configuration repairs others) and a line that is not ignored, without which the dispatcher has nothing to wait for.
- `Checker.Wait` and the watcher goroutine: steps of `RoleGate`, not methods.
- Resp.ReadBulk: does not model the failure to allocate a buffer for an absurd announced length; too little data is the error in the model.
- Monitor.Client.Run: assumes both bounds below 2^62 nanoseconds (146 years), below which doubling does not overflow.
- Liveness under blocking queues, and the real elapsed time of the drain deadline, which is a nondeterministic stop.
- Unbuffered queues: the configuration always gives the channels a positive capacity, so no hand-over without a buffer is modelled.
