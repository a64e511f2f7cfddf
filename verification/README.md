# Verified models of mxdx

mxdx drives remote terminals, workers and tasks over Matrix rooms. This project models the state
machines and arithmetic kernels between the network calls and proves what they keep over every
run. Network calls, timers, clock readings, hash-map orders and nonces are steps or inputs.
`dafny verify dfyconfig.toml` checks everything.

| file | what it models |
|---|---|
| BatchedSender.dfy, BatchModes.dfy, TerminalSocket.dfy, ArrivalAccounts.dfy, Pipeline.dfy | the terminal byte stream: the batching, rate-limited sender; the reordering receiver; both ends and the room between them |
| Calendar.dfy, Timestamp.dfy, ParseForms.dfy, TimestampOrder.dfy, StampFormats.dfy, StateMerge.dfy | civil dates, timestamp text, its string order, and the merge that relies on it |
| P2PVerify.dfy, P2PHandshake.dfy, P2PInbox.dfy, PollOrder.dfy, UnackedEvents.dfy, RequeuedPackets.dfy | the P2P transcript, the handshake that signs it, the inbox with its waiters, unacknowledged events, and what their requeue does to the terminal receiver |
| CircuitBreaker.dfy, FailureWindow.dfy, SharedNames.dfy, MultiHsClient.dfy, RecoveryProbes.dfy, EventDedup.dfy | the multi-homeserver client |
| TaskRetries.dfy, WatchlistCheck.dfy, RetryLineage.dfy, ClaimRace.dfy | the fabric coordinator's retries and the workers' claim race |
| CapabilityRouting.dfy | the capability index against the router's scan |
| Paths.dfy | path normalisation |

Each component that updates state in place is a class whose methods are proved equal, step by
step, to a transition function; the lemmas are about all runs of those functions. The drain
coroutine of the sender is cut at its suspension points (compress, send, rate-limit wait).

Twelve properties one might expect do not hold of the code as written. Each has a lemma with a
failing input or run, and the exact condition under which it does hold:

- progress of the receiver, when a number is buffered twice (`StallingRun`, `DrainsIffDistinct`,
  `Progress`);
- the same end to end, when a packet requeued to Matrix arrives while its first copy is buffered
  (`RequeueStalls`, `StallsIffRepeated`);
- an injective transcript, and with it agreement of peers that accept each other, when too many of
  its strings may hold a NUL (`Collision`, `InjectiveIff`, `AgreementIff`);
- agreement of a peer with one it accepts, when it holds an empty device id (`EmptyIdAccepts`,
  `HeldIdDecides`);
- a healthy preferred server, when a latency is not below the bound the failover search starts
  from, as for a server whose first sync failed in Rust, or when some but not all entries share a
  name, which the JavaScript client does not rule out (`UnusableLoses`, `MixedNamesLose`,
  `AlwaysHealthyIff`);
- agreement of the bounded event memory with an unbounded one, past 8,000 new ids in between
  (`ForgetsAfter8001`, `AgreesExactlyUpTo8000`);
- string order of timestamps, from the year 10000 on (`Year10000SortsFirst`, `OrderAgreesUpTo9999`);
- the fresher of two entries in the merge, when one has whole seconds, as the Rust worker writes
  them, and the other a later millisecond of the same second (`OlderCachedIsKept`,
  `KeepsGreatestInstant`);
- a bound on how often policies are applied, when their message cannot be sent; only entries taken
  off are bounded (`UnsentPolicyRepeats`, `RetriesTerminate`);
- a single winner of the claim race, which only holds among overlapping claims (`TwoCanWin`,
  `WinsIffUndisturbed`);
- a normal form that still names the directory of its path, when a relative path cancels out to the
  empty text (`WorkingDirectoryIsLost`, `MeaningPreserved`);
- equal resolution of a path and its normal form in general, when the path passes through a missing
  directory (`MissingDirectoryIsHidden`, `AgreesIff`).

## Model

| member | source | states |
|---|---|---|
| Pipeline.DeliveredIsPrefix | packages/core/batched-sender.js:154-227 | At every moment of every run in which no packet was dropped without having reached the room, with packets enqueued in the order of the room, the bytes delivered by the receiver are a prefix of the bytes pushed. Rate limits, coalescing, packets received while their send is pending, sends that fail after acceptance, destroy and close are allowed. |
| Pipeline.DeliveredIsComplete | packages/core/terminal-socket.js:130-188 | Once sender, wire and receiver timers have settled, delivered bytes equal pushed bytes, although coalescing left holes in the numbering. |
| Pipeline.CanComplete | packages/core/terminal-socket.js:130-188 | From every state reachable without a loss, destroy or close, some schedule pushes nothing more and delivers exactly the bytes pushed: the system never gets stuck. |
| Pipeline.DeliversRoomPrefix | packages/core/terminal-socket.js:130-155 | Lossy or not, the delivered packets are a prefix of the packets the room accepted, in that order. |
| Pipeline.AnyArrivalOrder | packages/core/terminal-socket.js:130-188 | With accepted packets lost, repeated and reordered at will on their way, the output is a subsequence of the room, in its order, and the room of what the sender resolved or is sending. |
| BatchedSender.Conservation | packages/core/batched-sender.js:132-245 | Over every run, until destroy: pushed bytes are the resolved packets (sent or dropped), then the queue, then the buffer, in order. |
| BatchedSender.Numbering | packages/core/batched-sender.js:154-227 | Over every run: resolved packets carry adjacent blocks of flushes from flush 0 on, each ending at its own number; numbers on the wire strictly increase. |
| BatchedSender.NothingStranded | packages/core/batched-sender.js:132-245 | Buffer non-empty iff the flush timer is armed; queue non-empty iff a drain is active; a sender with neither has resolved everything it was given. |
| BatchedSender.BlocksCoalesced | packages/core/batched-sender.js:169-174 | Coalescing the queue under its last number keeps the blocks, the end of the numbering and the bytes. |
| BatchedSender.BlocksPayload | packages/core/batched-sender.js:169-174 | Adjacent blocks merge to exactly the flushes from the first to the last number. |
| BatchedSender.ResumeAdvances | packages/core/batched-sender.js:164-227 | Each resumption of the drain strictly decreases a rank, whatever was buffered meanwhile, so a drain whose sends succeed ends. |
| BatchModes.NothingWaitsInImmediateMode | packages/core/batched-sender.js:139-147 | In every run whose batch window stays at most 10 ms the buffer is empty and no timer armed in every state. |
| BatchModes.PushesWaitInBatchedMode | packages/core/batched-sender.js:149-152 | In every run whose window stays above 10 ms a push to a live sender joins the buffer, arms the timer and leaves queue, numbering and drain alone; flushes numbered are at most the timer firings, wait ends and flush calls. |
| BatchModes.PushAfterDestroy | packages/core/batched-sender.js:133-133 | A push after destroy changes nothing. |
| BatchModes.NothingSentWhileWaiting | packages/core/batched-sender.js:193-205 | A rate limit keeps the packet queued, and nothing is sent or dropped before the wait is over, whatever else happens. |
| BatchModes.WaitCoalesces | packages/core/batched-sender.js:205-217 | In every reachable state the end of a wait empties buffer and timer of a live sender and makes all it holds one packet under the last number. |
| BatchModes.FlushesEmptyTheBuffer | packages/core/batched-sender.js:154-162 | In every reachable state the timer and a flush call leave buffer and timer empty. |
| BatchedSender.Sender.Push | packages/core/batched-sender.js:132-152 | The new state is the push step of the machine: immediate flush up to a 10 ms batch, otherwise an armed timer; nothing after destroy. |
| BatchedSender.Sender.Flush | packages/core/batched-sender.js:154-162 | Clears the timer, numbers the buffer as one packet and starts a drain if none is active. |
| BatchedSender.Sender.Pump | packages/core/batched-sender.js:168-177 | The drain loop from its condition to its first suspension, coalescing a queue of several packets under the last number. |
| BatchedSender.Sender.OnSettled | packages/core/batched-sender.js:182-224 | A send that succeeded or failed for good leaves the queue and the loop goes on. |
| BatchedSender.Sender.OnRateLimited | packages/core/batched-sender.js:193-205 | A rate limit keeps the packet queued and suspends the drain. |
| BatchedSender.Sender.OnWaitOver | packages/core/batched-sender.js:205-217 | After the wait the buffer is numbered into the queue and the loop goes on, so coalescing takes in what came meanwhile. |
| BatchedSender.Sender.OnTimer | packages/core/batched-sender.js:149-151 | The batch timer runs the private flush. |
| BatchedSender.Sender.OnCompressed | packages/core/batched-sender.js:176-186 | The compressed packet is the one sent, whatever was queued meanwhile. |
| BatchedSender.Sender.FlushNow | packages/core/batched-sender.js:230-245 | The public flush numbers the buffer and drains a non-empty queue. |
| BatchedSender.Sender.Destroy | packages/core/batched-sender.js:247-255 | Empties buffer and queue and clears the timer, whatever is in flight. |
| Common.ConcatBytes | packages/core/batched-sender.js:5-15 | Copying every part at its offset yields the concatenation of the parts. |
| TerminalSocket.Safety | packages/core/terminal-socket.js:130-199 | Over every run, with duplicates, reordering and any timer schedule: the expected number never decreases, delivered packets had arrived, their numbers strictly increase, and nothing delivered is taken back. |
| TerminalSocket.OneTimerPerGap | packages/core/terminal-socket.js:136-199 | In every reachable state the two timers exclude each other, and while open one is pending exactly when the buffer head lies beyond the expected number (so never with a stale head). |
| TerminalSocket.RequestsAreGaps | packages/core/terminal-socket.js:157-175 | Each retransmit request starts at the expected number, is non-empty and contains no buffered number. |
| TerminalSocket.GapTimerAsksForTheGap | packages/core/terminal-socket.js:157-181 | In every reachable state a pending gap timer of an open socket sends exactly one request, from the expected number to the one before the head, and starts the retransmit wait; nothing else sends one. |
| TerminalSocket.ClosingStopsTimers | packages/core/terminal-socket.js:218-229 | Closing clears both timers and changes nothing else; timers that fire on a closed socket deliver and request nothing. |
| TerminalSocket.ArrivalsIgnoreClosing | packages/core/terminal-socket.js:114-128 | Packets that arrive after closing are enqueued and delivered as before. |
| TerminalSocket.TimersDrain | packages/core/terminal-socket.js:157-188 | With distinct buffered numbers, two firings per gap (one fewer if the first retransmit wait is running) empty the buffer and deliver all of it in order. |
| TerminalSocket.Progress | packages/core/terminal-socket.js:130-188 | Over every run: the timers alone can empty the buffer of an open socket iff no number was ever buffered twice. In that case exactly one timer is pending when anything is buffered, none otherwise, and at most two firings per gap deliver the rest. |
| TerminalSocket.HealthyIffNeverTwice | packages/core/terminal-socket.js:130-188 | A buffer without repeats and stale head stays so along a run iff no packet arrives while its number is buffered. |
| TerminalSocket.StallingRun | packages/core/terminal-socket.js:130-134 | A run into the stall: packet 1 arrives twice before packet 0; both numbers are delivered once, a stale copy stays, and nothing is delivered ever after. |
| TerminalSocket.DrainsIffDistinct | packages/core/terminal-socket.js:130-188 | The exact condition for progress: the timers alone can empty the buffer of a reachable open socket iff no number is buffered twice and the head is not stale. |
| TerminalSocket.StaleForever | packages/core/terminal-socket.js:130-155 | Once the head is stale, no later step of any kind delivers anything. |
| TerminalSocket.TwiceBufferedStalls | packages/core/terminal-socket.js:130-134 | If a number is buffered twice and one copy is delivered, nothing is delivered ever after: the missing duplicate check of enqueue stalls the stream. |
| TerminalSocket.ExecDoomed | packages/core/terminal-socket.js:130-188 | No run repairs a buffer that holds a number twice or a stale head. |
| ArrivalAccounts.EveryArrivalAccounted | packages/core/terminal-socket.js:130-155 | Over every run, delivered and buffered packets together are, with multiplicity, exactly the arrivals that were not below the expected number when they came. |
| ArrivalAccounts.DroppedIffPassed | packages/core/terminal-socket.js:130-188 | A packet is dropped on arrival iff its number was delivered before or its gap was skipped before, of which exactly one is the case. |
| TerminalSocket.SortIsSorted | packages/core/terminal-socket.js:130-134 | The sort after a push is a stable sorted permutation. |
| TerminalSocket.Socket.OnPacket | packages/core/terminal-socket.js:114-134 | Enqueue then flush: the arrival step of the machine, with exactly its deliveries. |
| TerminalSocket.Socket.Enqueue | packages/core/terminal-socket.js:130-134 | Old numbers are dropped; anything else is pushed and the buffer sorted. |
| TerminalSocket.Socket.Flush | packages/core/terminal-socket.js:136-155 | Delivers the run of consecutive numbers from the expected one, clears the timers if there was any, and starts a gap timer if a gap remains. |
| TerminalSocket.Socket.OnGapTimer | packages/core/terminal-socket.js:157-182 | Requests the missing range and starts the retransmit wait, or flushes if the gap has closed. |
| TerminalSocket.Socket.OnRetransmitTimer | packages/core/terminal-socket.js:176-188 | Skips to the first buffered number and flushes. |
| TerminalSocket.Socket.ClearGapTimers | packages/core/terminal-socket.js:190-199 | Both timers are cleared. |
| TerminalSocket.Socket.Close | packages/core/terminal-socket.js:218-234 | Marks the socket closed once and clears its timers. |
| Calendar.DaysAreNaive | crates/mxdx-client/src/liveness.rs:138-150 | For every year and month, negative years too, the closed form equals the naive year-by-year, month-by-month Gregorian count. |
| Calendar.NextDayAddsOne | crates/mxdx-client/src/liveness.rs:138-150 | Advancing one calendar day adds exactly one; 1970-01-01 is day 0. |
| Calendar.CivilOfDays | crates/mxdx-matrix/src/client.rs:943-953 | For every valid date, converting to days and back gives the date. |
| Calendar.DaysOfCivil | crates/mxdx-client/src/diagnose.rs:1478-1487 | For every day number, negative ones too, converting to a date gives a valid date whose day number is the original. |
| Timestamp.PrintParse | crates/mxdx-client/src/liveness.rs:92-134 | For every 64-bit millisecond value, parsing the printed timestamp returns exactly that value, without overflow. |
| Timestamp.ParseText | crates/mxdx-client/src/liveness.rs:92-134 | Parsing the text of any valid date (year from 0) and time of day computes the instant of those fields. |
| ParseForms.ParseRendered | crates/mxdx-client/src/liveness.rs:92-134 | With either ending and with any digits after the point or none, the parser rejects rendered fields iff one is out of range, and otherwise computes their milliseconds (the first three digits count, missing ones as zeros), with overflow exactly before 1970 or past 64 bits. |
| ParseForms.NeedsEnding | crates/mxdx-client/src/liveness.rs:94-94 | A text with neither ending is rejected. |
| Timestamp.YearIffDays | crates/mxdx-matrix/src/client.rs:943-953 | The year of a day number is below a bound iff the day lies before 1 January of that year. |
| TimestampOrder.PrintedShape | crates/mxdx-matrix/src/client.rs:954-957 | The printed text has the date-time form of section 5.6 of RFC 3339 iff the instant is before the year 10000. |
| TimestampOrder.PrintOrder | crates/mxdx-matrix/src/client.rs:935-957 | For years with equally many digits the string order of printed timestamps is the order of the instants. |
| TimestampOrder.OrderAgreesUpTo9999 | crates/mxdx-client/src/matrix.rs:308-318 | The exact limit: string order is time order on all instants below a limit iff the limit does not pass the year 9999. |
| TimestampOrder.Year10000SortsFirst | crates/mxdx-client/src/matrix.rs:308-318 | A counterexample past the limit: the first instant of the year 10000 sorts before the epoch. |
| StateMerge.Merge | crates/mxdx-client/src/matrix.rs:303-330 | For every state key: present iff some source has it, no fetched entry is later as a string, and the last cached entry is kept unless a fetched one is strictly later. |
| StateMerge.KeepsGreatestInstant | crates/mxdx-client/src/matrix.rs:299-330 | Over every mix of millisecond, whole-second and absent timestamps up to the year 9999: the entry kept has the greatest instant of those offered for its key iff no whole second hides a later millisecond of the greatest second. |
| StateMerge.KeepsGreatestSecond | crates/mxdx-client/src/matrix.rs:299-330 | Whatever the formats, the entry kept has the greatest whole second. |
| StateMerge.OlderCachedIsKept | crates/mxdx-client/src/matrix.rs:308-321 | The failing inputs: a cached entry in whole seconds beats every fetched one of a later millisecond of its second. |
| StateMerge.MillisAreNotMasked | crates/mxdx-client/src/matrix.rs:299-330 | Without whole seconds nothing is hidden. |
| StateMerge.AllAreOffered | crates/mxdx-client/src/matrix.rs:304-307 | With one cached entry per key, all entries of the key are offered. |
| StampFormats.StampOrder | crates/mxdx-client/src/matrix.rs:309-316 | Up to the year 9999 the texts of both formats, and no text, sort by second, then millisecond, with a text without a fraction after all those of its second. |
| StampFormats.MixedOrder | crates/mxdx-worker/src/telemetry.rs:150-171 | A text with milliseconds sorts before one without iff its second is not later, and after it iff it is. |
| StampFormats.TextInjective | crates/mxdx-worker/src/telemetry.rs:150-171 | The text determines format and value. |
| StampFormats.SecondsParse | crates/mxdx-client/src/liveness.rs:92-134 | The liveness parser reads every whole-second text back exactly, without overflow. |
| P2PVerify.BuildTranscript | packages/core/p2p-verify.js:50-99 | Rejects exactly the nonces of wrong length; otherwise the bytes filled in by offset are the concatenation of the fields and separators. |
| P2PVerify.ParseOfTranscript | packages/core/p2p-verify.js:50-99 | A parser reading from both ends recovers all nine fields of every transcript with 32-byte nonces if the four strings after them and any two of room, session and call are free of NUL; the third may hold anything. |
| P2PVerify.TranscriptOfParse | packages/core/p2p-verify.js:50-99 | Whatever that parser accepts is the transcript of what it returns. |
| P2PVerify.Injective | packages/core/p2p-verify.js:50-99 | On those inputs two transcripts are equal iff all their fields are, although the call id runs into the nonces without a separator. |
| P2PVerify.InjectiveIff | packages/core/p2p-verify.js:50-99 | The exact boundary, over every choice of the strings required to be free of NUL: injective on that class iff the four strings after the nonces and at least two of room, session and call are among them. |
| P2PVerify.Collision | packages/core/p2p-verify.js:50-99 | For every other choice, two different inputs of the class, without an empty string, with the same transcript. |
| P2PVerify.CollidesAfterNonces | packages/core/p2p-verify.js:78-88 | A NUL in any one string after the nonces collides with an input that has none: the call id takes a byte of the nonces and these the separator. |
| P2PVerify.CollideBeforeNonces | packages/core/p2p-verify.js:72-80 | A NUL in one of room, session and call collides with the same NUL in another. |
| P2PVerify.NotInjectiveWithNul | packages/core/p2p-verify.js:50-99 | For all strings, a NUL can move between room and session without changing the transcript. |
| P2PHandshake.AcceptedIffAgreed | packages/core/p2p-transport.js:384-491 | Between complementary roles, under ideal signatures, for every decodable class of inputs, a response is accepted iff its key is the known one and the peers agree on room, session, call, nonces, parties and fingerprints, where a peer that holds no device id takes over the one in the response. |
| P2PHandshake.SignedByRole | packages/core/p2p-transport.js:384-419 | Read back from the signed message, field by field: the nonce and id of the offerer in the first slot and those of the answerer in the second, on either side; the response carries its key and device id. |
| P2PHandshake.HeldIdDecides | packages/core/p2p-transport.js:460-462 | An accepted response means agreement of the peers themselves iff the accepting one holds a device id or the other has none; agreement with the known key is always accepted. |
| P2PHandshake.EmptyIdAccepts | packages/core/p2p-transport.js:460-462 | The failing inputs: a peer holding an empty device id accepts every named peer that it otherwise agrees with. |
| P2PHandshake.AgreementIff | packages/core/p2p-transport.js:426-491 | Acceptance means agreement for all complementary peers of a class that can sign and hold an id iff the class is decodable. |
| P2PHandshake.SameRoleAccepted | packages/core/p2p-verify.js:105-107 | With the same role on both sides a response is accepted iff its key is the known one and the peers hold the same view, local and remote not swapped. |
| P2PHandshake.SameRoleRejected | packages/core/p2p-verify.js:105-107 | So peers of the same role with different device ids or nonces never accept each other. |
| P2PHandshake.OwnResponseAccepted | packages/core/p2p-transport.js:426-491 | A peer accepts its own response sent back to it, whatever its strings, iff it holds a peer id or has none itself. |
| CircuitBreaker.AlwaysHealthy | crates/mxdx-matrix/src/multi_hs.rs:887-990 | With at least two distinct servers of usable latency, after any sequence of successes and failures the preferred server is healthy and every healthy server has fewer than five recorded failures. |
| CircuitBreaker.AlwaysHealthyIffUsable | crates/mxdx-matrix/src/multi_hs.rs:950-990 | The exact condition: the preferred server is healthy in every run iff every latency is below the bound the search starts from. |
| CircuitBreaker.UnusableLoses | crates/mxdx-matrix/src/multi_hs.rs:950-990 | For every pool with an unusable latency, a run that leaves the preferred server down. |
| CircuitBreaker.SharedNameLoses | packages/core/multi-hs-client.js:210-237 | Failures of an entry that shares the breaker of the preferred one take it down without a failover. |
| SharedNames.AlwaysHealthyIff | packages/core/multi-hs-client.js:210-269 | The exact condition over all pools, names and latencies: the preferred server is healthy in every run iff all names are the same, or names are pairwise distinct and every latency is below the bound of the search. |
| SharedNames.MixedNamesLose | packages/core/multi-hs-client.js:210-269 | For every pool with some names shared and others not, a run that leaves the preferred server down. |
| SharedNames.OneBreakerHealthy | packages/core/multi-hs-client.js:218-230 | With one name for all, every trip becomes a reset, so the preferred server stays healthy. |
| SharedNames.AlwaysSomeHealthy | crates/mxdx-matrix/src/multi_hs.rs:887-947 | Whatever names, latencies and number of servers: after every run some server is healthy and every healthy one has fewer than five recorded failures. |
| CircuitBreaker.FailoverPicksLeast | crates/mxdx-matrix/src/multi_hs.rs:926-990 | A failure that takes the preferred server down moves to a healthy other server of least latency. |
| CircuitBreaker.BestIsLeast | crates/mxdx-matrix/src/multi_hs.rs:950-970 | The search finds the first candidate of least latency, and none only if there is none. |
| FailureWindow.RecentExact | crates/mxdx-matrix/src/multi_hs.rs:896-898 | Pruning keeps exactly the failures less than 300,000 ms old, in order and with multiplicity. |
| FailureWindow.DownAfterBurst | crates/mxdx-matrix/src/multi_hs.rs:887-931 | Over every run with a clock that does not go back: a down server has five failures of its name within 300,000 ms, none followed by a success of that name or a reset. |
| FailureWindow.FifthFailureDecides | crates/mxdx-matrix/src/multi_hs.rs:900-925 | A failure of a healthy server takes it down or closes all breakers iff the last five failures of its name since a success or reset lie within 300,000 ms; otherwise the preferred server stays. |
| FailureWindow.NoBurstNeverDown | packages/core/multi-hs-client.js:210-237 | Failures of a name that never come five within 300,000 ms never take it down. |
| MultiHsClient.Client.RecordFailure | crates/mxdx-matrix/src/multi_hs.rs:887-931 | The new breakers and preferred server are those of the failure step: prune, note, reset all, or trip and fail over. |
| MultiHsClient.Client.Prune | crates/mxdx-matrix/src/multi_hs.rs:896-898 | Keeps exactly the failures inside the window, in order. |
| MultiHsClient.Client.RecordSuccess | crates/mxdx-matrix/src/multi_hs.rs:934-947 | Clears the failures and marks the server healthy; nothing with a single server. |
| MultiHsClient.Client.TriggerFailover | crates/mxdx-matrix/src/multi_hs.rs:950-990 | The scan from the bound ends at the specified best candidate, or changes nothing. |
| MultiHsClient.ResolveAccounts | crates/mxdx-client/src/config.rs:104-142 | Homeservers are distinct, command-line credentials come first, a homeserver is present iff it was given there or configured with a password, and every other account is that of the first such entry. |
| MultiHsClient.LocalpartOf | crates/mxdx-client/src/config.rs:124-130 | The username of a full user id is its name. |
| RecoveryProbes.NoServerForgotten | packages/core/multi-hs-client.js:210-307 | Over every run of calls, timers, probe results and shutdown, whatever the names: while the client runs, every down server has a timer pending or a probe in flight under its name; some server is healthy, and the preferred one if names are pairwise distinct or all the same. |
| RecoveryProbes.WatchedServer | packages/core/multi-hs-client.js:291-307 | With distinct names that timer or probe is that of the server itself. |
| RecoveryProbes.TimersAreCancelled | packages/core/multi-hs-client.js:239-248 | A success of a down server cancels its timer, and a shutdown all timers. |
| RecoveryProbes.ProbesStartAndEnd | packages/core/multi-hs-client.js:291-307 | A probe starts only with a timer of a running client and is over with its result; after a shutdown a failed probe gets no new timer. |
| RecoveryProbes.Client.RecordFailure | packages/core/multi-hs-client.js:210-237 | A trip also starts a recovery probe. |
| RecoveryProbes.Client.RecordSuccess | packages/core/multi-hs-client.js:239-248 | A recovery cancels the pending timer. |
| RecoveryProbes.Client.StartRecoveryProbe | packages/core/multi-hs-client.js:291-307 | At most one timer per server. |
| RecoveryProbes.Client.OnRecoveryTimer | packages/core/multi-hs-client.js:295-299 | The timer becomes a probe while running. |
| RecoveryProbes.Client.OnProbe | packages/core/multi-hs-client.js:298-303 | A successful probe is a success, a failed one gets a new timer while running. |
| RecoveryProbes.Client.Shutdown | packages/core/multi-hs-client.js:309-313 | Stops and clears all timers. |
| EventDedup.ExactMemory | crates/mxdx-matrix/src/multi_hs.rs:707-729 | Over every run the remembered ids have no repeats, are at most 10,000 and at least min(n, 8001), and are exactly a suffix of the n ids ever taken as new; an id is called a duplicate iff it is among them. |
| EventDedup.AgreesWithUnbounded | crates/mxdx-matrix/src/multi_hs.rs:707-729 | The answers are those of an unbounded seen-set whenever at most 8,000 new ids separate equal ones. |
| EventDedup.AgreesExactlyUpTo8000 | crates/mxdx-matrix/src/multi_hs.rs:707-729 | And 8,000 is the exact limit: for separations up to any larger number the answers differ on some stream. |
| EventDedup.ForgetsAfter8001 | crates/mxdx-matrix/src/multi_hs.rs:718-729 | The witness: after 10,001 different ids, one seen 8,001 ids ago is taken as new. |
| EventDedup.NoFalseDuplicate | packages/core/multi-hs-client.js:194-206 | An id called a duplicate did occur before. |
| EventDedup.Memory.IsDuplicate | crates/mxdx-matrix/src/multi_hs.rs:707-729 | Map and order list keep the same ids; answer and new list are those of the specification; always "new" with a single server. |
| EventDedup.Memory.Evict | crates/mxdx-matrix/src/multi_hs.rs:720-726 | The oldest 2,000 ids leave list and map together. |
| UnackedEvents.EveryEventAccounted | packages/core/p2p-transport.js:228-275 | In every run each event placed on the channel has one fate; in send order, pending, handed to Matrix and acknowledged events are exactly those so marked, and every ack covered its event. |
| UnackedEvents.FatesAreFinal | packages/core/p2p-transport.js:631-714 | An acknowledged or handed-over event stays so: nothing is handed over twice or after its ack. |
| UnackedEvents.AckKeeps | packages/core/p2p-transport.js:631-641 | An ack of n leaves exactly the pending events without a number or with one above n, in order. |
| UnackedEvents.BareAckKeeps | packages/core/p2p-transport.js:631-641 | An ack without a number leaves exactly the events whose content does not parse. |
| UnackedEvents.AckSettles | packages/core/p2p-transport.js:631-641 | Over every run, events pending before an ack of n are acknowledged by it iff they have a number up to n, and still pending otherwise. |
| UnackedEvents.AckedNumbers | packages/core/p2p-transport.js:631-641 | Over every run, an event acknowledged by n has a number up to n. |
| UnackedEvents.ClosingSettles | packages/core/p2p-transport.js:643-709 | Over every run, an idle timeout and the closing of an active channel hand over every pending event; the closing of an inactive one leaves them pending. |
| UnackedEvents.PendingAcks.SentOnChannel | packages/core/p2p-transport.js:259-262 | The event joins the end of the pending list. |
| UnackedEvents.PendingAcks.HandleAck | packages/core/p2p-transport.js:631-641 | Exactly the covered events leave the list; unparseable ones stay. |
| UnackedEvents.PendingAcks.HandleChannelClose | packages/core/p2p-transport.js:643-660 | Pending events are handed over only if the channel was active; otherwise they stay pending. |
| UnackedEvents.PendingAcks.HandleIdleTimeout | packages/core/p2p-transport.js:694-709 | All pending events are handed over in order. |
| RequeuedPackets.StallsIffRepeated | packages/core/p2p-transport.js:643-709 | End to end with the terminal receiver, over every run of sends, acks, closes, idle timeouts, arrivals and timers: the open receiver can deliver what it buffers iff no packet arrived a second time while its first copy was still buffered. |
| RequeuedPackets.RepeatsAreUnacked | packages/core/p2p-transport.js:631-709 | A packet that arrives a second time was never acknowledged and has been handed to Matrix. |
| RequeuedPackets.RequeueStalls | packages/core/p2p-transport.js:643-660 | Such a run: on an active channel packet 1 arrives while 0 is missing, the channel closes before its ack and hands it over, it arrives again, the timers deliver it once, and nothing is delivered ever after. |
| P2PInbox.OneQueuePerType | packages/core/p2p-transport.js:595-629 | Over every mix of polls, timeouts, arrivals and closing: no type has both queued messages and waiters, and delivered messages then the inbox equal the decrypted messages in order. |
| P2PInbox.DeliveredInOrder | packages/core/p2p-transport.js:729-745 | Delivered messages of a type are a prefix of those that arrived, and all of them while a poll waits. |
| PollOrder.FirstWaiterIsServed | packages/core/p2p-transport.js:619-622 | Over every run of different polls, those waiting for a type are the ones that started and were not served, timed out or dropped, in the order in which they started, and a message goes to the first. |
| P2PInbox.Inbox.OnMessage | packages/core/p2p-transport.js:608-622 | Pushes the message and hands the oldest one to the first waiter, if any. |
| P2PInbox.Inbox.OnPoll | packages/core/p2p-transport.js:281-293 | Takes the oldest message, or waits if the channel is active and the timeout positive. |
| P2PInbox.Inbox.OnTimeout | packages/core/p2p-transport.js:731-738 | Removes just that waiter. |
| P2PInbox.Inbox.OnClose | packages/core/p2p-transport.js:302-310 | All waiters are dropped; the inbox stays. |
| TaskRetries.RetryRaisesAttempt | crates/mxdx-fabric/src/failure.rs:26-92 | A retry raises the attempt by one, to at most the larger limit of the two policies and within a u8, and the new task keeps the policies and carries the new attempt. |
| TaskRetries.RetryUuidInjective | crates/mxdx-fabric/src/failure.rs:26-92 | Retry uuids are equal iff parent uuid and attempt are. |
| TaskRetries.NeverRoutedTwice | crates/mxdx-fabric/src/coordinator.rs:108-167 | In every run, no uuid is taken up for routing twice. |
| TaskRetries.RetriesTerminate | crates/mxdx-fabric/src/coordinator.rs:298-397 | In every run, along any mix of timeouts and missed heartbeats, policies take entries off the watchlist at most once for each task submitted from outside and once more for each attempt left below the larger limit of its own two policies, so at most one more than that limit. |
| TaskRetries.UnsentPolicyRepeats | crates/mxdx-fabric/src/coordinator.rs:328-340 | What is not bounded: where every decision keeps its entry, as for a message that cannot be sent, a check changes nothing, so the policy is applied again by every check. |
| WatchlistCheck.CheckOutcome | crates/mxdx-fabric/src/coordinator.rs:298-397 | What a check does to each entry in every reachable state: not past due, it stays as it is; past due, it is replaced by its routed next attempt iff the timeout policy (unclaimed) or the heartbeat policy (claimed) has attempts left, with plan and payload pinned; otherwise it is not retried, and taken off iff its message was sent. |
| WatchlistCheck.TimeoutPolicyRules | crates/mxdx-fabric/src/coordinator.rs:308-323 | An unclaimed task that is abandoned or escalated on timeout is never retried, whatever its heartbeat policy. |
| WatchlistCheck.AliveStaysWatched | crates/mxdx-fabric/src/coordinator.rs:255-274 | A task claimed in time that sends its heartbeats in time is never taken off by a check, over every run without its result. |
| WatchlistCheck.UnroutedIsUnwatched | crates/mxdx-fabric/src/coordinator.rs:123-164 | A task whose lookup or routing failed is never watched, however often it is submitted again. |
| WatchlistCheck.FinishedStaysUnwatched | crates/mxdx-fabric/src/coordinator.rs:276-296 | A task whose result has come is never watched again, and no other entry changes. |
| WatchlistCheck.TakenUp | crates/mxdx-fabric/src/coordinator.rs:149-164 | A new task is watched unclaimed, from the time it is taken up. |
| WatchlistCheck.AttemptWraps | crates/mxdx-fabric/src/coordinator.rs:149-153 | A submitted attempt is read as a u8, so larger numbers wrap around. |
| RetryLineage.AttemptsStayWithinLimits | crates/mxdx-fabric/src/coordinator.rs:298-397 | In every run each watched or reposted task is the k-th retry of a submitted one, carries its attempt plus k and its policies, and stays within the larger limit; so does the k of every uuid ever taken up. |
| RetryLineage.NextRetry | crates/mxdx-fabric/src/failure.rs:26-92 | A retry of the k-th retry of a task is its next retry. |
| RetryLineage.ChainUuidGrows | crates/mxdx-fabric/src/failure.rs:26-92 | The uuids along a lineage are all different. |
| TaskRetries.RetryNotLost | crates/mxdx-fabric/src/coordinator.rs:298-397 | In every reachable state the tasks a check reposts have different uuids, and each is new to the coordinator unless its uuid was submitted from outside. |
| TaskRetries.CoordinatorBot.HandleTaskEvent | crates/mxdx-fabric/src/coordinator.rs:108-167 | Seen tasks are skipped; others are marked seen, routed, and watched only if lookup and routing succeed. |
| TaskRetries.CoordinatorBot.Submitted | crates/mxdx-fabric/src/coordinator.rs:108-167 | A task event from outside is handled and adds its retries to the budget. |
| TaskRetries.CoordinatorBot.HandleClaim | crates/mxdx-fabric/src/coordinator.rs:233-253 | A watched entry gets its claim time. |
| TaskRetries.CoordinatorBot.HandleHeartbeat | crates/mxdx-fabric/src/coordinator.rs:255-274 | A watched entry gets its heartbeat time and, if present, its progress. |
| TaskRetries.CoordinatorBot.HandleResult | crates/mxdx-fabric/src/coordinator.rs:276-296 | The entry leaves the watchlist. |
| TaskRetries.CoordinatorBot.CheckWatchlist | crates/mxdx-fabric/src/coordinator.rs:298-397 | In any iteration order, with a clock reading for each entry and each repost: overdue entries are decided by their policy, removed ones dropped, then retries handled as new task events. |
| TaskRetries.CoordinatorBot.Scan | crates/mxdx-fabric/src/coordinator.rs:298-385 | The lists built by the loop are the entries to drop and the tasks to repost, in iteration order. |
| ClaimRace.WinsIffUndisturbed | crates/mxdx-fabric/src/worker.rs:146-200 | A claim wins iff nobody else writes the state key between its write and its read. |
| ClaimRace.WinnersAreDisjoint | crates/mxdx-fabric/src/worker.rs:146-200 | Winning claims of different workers have disjoint write-to-read windows, over all interleavings. |
| ClaimRace.OverlappingElectOne | crates/mxdx-fabric/src/worker.rs:89-200 | Among mutually overlapping claims at most one worker wins. |
| ClaimRace.LastWriterWins | crates/mxdx-fabric/src/worker.rs:146-200 | If all writes precede all reads, a read wins iff its worker wrote last. |
| ClaimRace.FinalClaimWins | crates/mxdx-fabric/src/worker.rs:146-200 | A claim with the last write of all wins. |
| ClaimRace.ReadHasClaim | crates/mxdx-fabric/src/worker.rs:146-200 | In an interleaving every read completes a claim. |
| ClaimRace.TwoCanWin | crates/mxdx-fabric/src/worker.rs:89-144 | The election is not global: two workers claiming one after the other both win. |
| CapabilityRouting.IndexIsExact | crates/mxdx-coordinator/src/index.rs:21-50 | After any history a worker is listed under a name iff its stored info has that capability or a healthy tool of that name, and no list is empty. |
| CapabilityRouting.WorkersWithAll | crates/mxdx-coordinator/src/index.rs:61-74 | The intersection loop answers exactly the workers offering everything required; all workers when nothing is. |
| CapabilityRouting.RouteFinds | crates/mxdx-coordinator/src/router.rs:44-64 | The scan finds the first worker, in router order, that offers everything required, or none exists. |
| CapabilityRouting.RegisteredInPlace | crates/mxdx-coordinator/src/router.rs:22-33 | An update replaces the first entry of the worker where it stands, or adds one at the end. |
| CapabilityRouting.UnregisteredPicks | crates/mxdx-coordinator/src/router.rs:36-38 | A removal keeps exactly the entries of other workers, in order. |
| CapabilityRouting.RouteAgreesWithIndex | crates/mxdx-coordinator/src/router.rs:22-64 | Given the same history, the scan picks a member of the index answer with the same info, and none iff that answer is empty. |
| CapabilityRouting.CapabilityIndex.Update | crates/mxdx-coordinator/src/index.rs:21-41 | Removes the old info, then lists the worker under its capabilities and healthy tools. |
| CapabilityRouting.CapabilityIndex.Remove | crates/mxdx-coordinator/src/index.rs:44-50 | Takes the worker from every list, drops emptied lists and its info. |
| CapabilityRouting.Router.UpdateWorker | crates/mxdx-coordinator/src/router.rs:22-33 | Replaces the first entry of the worker in place, or appends. |
| CapabilityRouting.Router.RemoveWorker | crates/mxdx-coordinator/src/router.rs:36-38 | Keeps the other entries in order. |
| Paths.NormalizePath | crates/mxdx-launcher/src/executor.rs:110-135 | The component-stack loop computes the normal form specified by the lemmas below. |
| Paths.MeaningPreserved | crates/mxdx-launcher/src/executor.rs:109-135 | In every tree without symbolic links and from every working directory, a path that names a directory names the same one once normalised iff it is absolute or its components do not all cancel. |
| Paths.WorkingDirectoryIsLost | crates/mxdx-launcher/src/executor.rs:199-208 | In every tree "." names the working directory and normalises to the empty text, which names nothing. |
| Paths.EmptyIffNothingRemains | crates/mxdx-launcher/src/executor.rs:130-134 | The normal form is empty iff the path is relative and its components cancel. |
| Paths.ResolvesIff | crates/mxdx-launcher/src/executor.rs:110-135 | A path resolves iff it is not empty and every directory it enters exists; its normal form iff something remains and its components enter existing directories. |
| Paths.DirectoryPreserved | crates/mxdx-launcher/src/executor.rs:110-135 | Read as text alone, path and normal form lead to the same directory from every working directory, whatever exists. |
| Paths.AgreesIff | crates/mxdx-launcher/src/executor.rs:110-135 | The exact condition for equal resolution, for every tree, start and path: if the path names a directory, that something of it remains; otherwise, that its normal form names none either. |
| Paths.MissingDirectoryIsHidden | crates/mxdx-launcher/src/executor.rs:110-135 | The counterexample without it: going down into a missing directory and up again. |
| Paths.NormalForm | crates/mxdx-launcher/src/executor.rs:110-135 | For every path: no empty or "." component, no ".." when absolute, ".." only as a leading run when relative; absolute stays absolute. |
| Paths.Idempotent | crates/mxdx-launcher/src/executor.rs:110-135 | Normalising twice is normalising once, as text. |
| Paths.FixedIffNormal | crates/mxdx-launcher/src/executor.rs:110-135 | A path is unchanged iff it is the text of a normal form. |
| Paths.Canonical | crates/mxdx-launcher/src/executor.rs:110-135 | Two paths have the same normal form iff they lead to the same directory from every working directory. |

## Left out

- Matrix SDK, REST calls, login, cross-signing, key backup, room creation, WASM bindings, CLI, diagnose reports, cleanup commands and web UI: I/O and plumbing.
- Compression, base64, JSON, AES-GCM and Ed25519: identities, total inverses or an ideal signature. A throw of the sender's compressor (packages/core/batched-sender.js:177, outside the try) and a failed decompression at the receiver are not steps.
- Callbacks: onError, onBuffering with its flag, onmessage calling back into the socket, onPreferredChange, onHangup, onStatusChange.
- The session filter and the poll loop of the terminal socket, and the link from closing it to destroying its sender.
- The sender half of client/mxdx-client/src/terminal.ts, which numbers after awaiting compression, so that call order is not wire order; its receive half is the algorithm of TerminalSocket.dfy.
- Real durations: timers are steps that may fire whenever pending, and the length of a rate-limit wait is not modelled.
- Sequence numbers and flush counters are unbounded; JavaScript's 2^53 limit is not modelled.
- P2PHandshake.AcceptedIffAgreed: strings are their UTF-8 bytes (lone surrogates, which the encoder merges, are not modelled) and fingerprints are inputs, so extracting them from SDP text is left out, as are the legacy v1 handshake and the timers around the exchange. That status "p2p" implies a verified peer is not claimed.
- Timestamp.PrintParse: the parser's byte slicing of a non-ASCII fraction is not modelled, and overflow of its 64-bit arithmetic is one outcome, whether it panics or wraps; neither arises from printed text. The printer's skip of an instant of zero belongs to its caller.
- Calendar.DaysOfCivil: 64-bit overflow of day numbers is not modelled; of `unix_to_rfc3339` only the civil conversion is, not the text for negative years.
- The liveness classification of workers: three comparisons around the parser.
- StateMerge.KeepsGreatestInstant: timestamps in other formats, which compare as any text; the instant of a whole second is its beginning.
- StateMerge.Merge: the shortcut taken when the fetched list is empty and the fallback paths of `read_state_events`.
- FailureWindow.DownAfterBurst: for a clock that does not go back, as in Rust; JavaScript reads the wall clock, which may.
- CircuitBreaker.AlwaysHealthy: latencies are reals, so NaN and infinity are not modelled; the initial choice of the preferred server is an input.
- Profile filters on the resolved accounts, and their certificate flag.
- `sync_and_collect_events`, which feeds several servers' events through the event memory.
- TaskRetries.NeverRoutedTwice: a failed room lookup or send counts as routed, as the code marks the uuid seen before either; a task whose routing fails is not watched and so not retried.
- TaskRetries.RetriesTerminate: overflow of twice the heartbeat interval (u64) is not modelled, and the texts of escalation and abandonment messages are left out.
- UnackedEvents.EveryEventAccounted: stops at transport close, which drops the pending list; a failed send to Matrix during requeue is swallowed by the code and counts as handed over.
- P2PInbox.OneQueuePerType: polls answered by Matrix while P2P is inactive, and messages dropped because the peer is unverified or decryption fails, are outside the queues.
- ClaimRace.WinsIffUndisturbed: one state key, linearizable; the loop of `watch_and_claim` over collected events and the homeserver's own conflict resolution are left out.
- Paths.MeaningPreserved: symbolic links, files as last component, and the prefix policy that decides which normal forms are used as a working directory.
- RequeuedPackets.StallsIffRepeated: the content of an event is its number; encryption, oversized frames and other event types are left out. Real durations decide whether a requeue falls into the receiver's wait of two half seconds.
- Pipeline.DeliveredIsPrefix: a rate-limited send is taken not to have reached the room.
- `Watchlist`, `ClaimTracker`, attach-mode selection, the launcher's failover enum, argument blocking and policy prefixes: facts of one branch each.
