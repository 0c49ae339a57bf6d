# Velocitas FIX engine: a verified model

This project models the cores of a FIX protocol engine written in Rust and proves what they are for.
One module stands for one source file or one protocol over several of them.

- **Wire codec and framing** (`Bytes`, `Decimal`, `Checksum`, `Message`, `WireFormat`, `Serializer`, `Parser`,
  `CodecRoundTrip`, `ParserAccepts`, `Framing`). `WireFormat.Encode` is the reference byte form of a message (FIX 4.4 Volume 2,
  standard header and trailer). The serializer, a class that patches the body length back into its buffer, is
  proved to write exactly that form; the loop parser is proved to invert it, and to accept and refuse exactly what a
  grammar of printed fields says; the reassembly buffer is proved to
  cut any stream of messages back into those messages, however it was received.
- **Two engines over one bus** (`Session`, `EngineMessages`, `EngineProtocol`, `EngineHandshake`,
  `EngineLife`, `AeronTransport`, `Engine`, `EngineLoop`, `TcpAccept`). The receive loops of two engines are step relations over one shared frame queue,
  down to the bytes of every message. The invariant says that what one side sent is what the other side
  processed, has buffered, or still has on the bus, in that order and consecutively numbered. `Engine.FixEngine`
  is the class whose methods carry out those steps on real buffers, and `EngineLoop` runs its loops. `TcpAccept`
  is one engine behind a stream whose first Logon was read elsewhere.
- **Sessions** (`SessionRuns`, `HeartbeatTimer`, `RateLimiter`): what whole runs of session calls do to the
  counters, the state and the timers.
- **Repeating groups** (`Groups`): recursive descent with loops, over any nesting.
- **Slot pool** (`PoolProtocol`, `PoolLimits`, `Pool`): every atomic operation is a step; beside it the same pool
  run alone.
- **Cluster** (`SessionTable`, `SessionHistory`, `Cluster`, `Election`, `ElectionWins`, `RepeatedGrants`): vote
  counting, log replay and snapshots.
- **Journal** (`Crc`, `Journal`): a circular log under CRC-32 (section 8 of RFC 1952).
- **Calendar and timestamps** (`Calendar`, `CalendarWords`, `Timestamp`), **block scanning** (`BlockScan`).

Conventions. Integers follow the release profile of `Cargo.toml`: fixed-width arithmetic wraps, `usize` has 64
bits; a debug build would panic where the model wraps. Clocks are arguments. Strings are byte sequences. A method
that changes state is specified by a function of the old state, and the lemmas are about that function.

Where code and documentation disagree the model follows the code: the field index holds 512 entries
(`src/message.rs:9`), not the 256 of `SPECIFICATION.md`; `validate_inbound_seq` enters Resending from any state,
not only from Active; the receive loop drops the gap it reports; a probe is sent as a Heartbeat, because the loop
answers every Send action with one; `msg_type` answers with the last field 35, `get_field` with the first.

Some properties hold only under a condition. For these the model proves exactly where they end:

- The pool never hands out a slot that is held as long as allocations do not overlap each other. Without that rule
  it does so for some run if and only if it has two slots and two threads or more
  (`PoolLimits.NeverSharedExactly`). Overlapping or not, its calls index outside the list for some run if and only
  if it has no slot and a thread to call it (`PoolLimits.NeverOutsideExactly`).
- No two nodes ever lead one term as long as each grant is delivered at most once. `receive_vote` ignores its
  sender, so when grants may repeat this holds for all runs if and only if the cluster has at most three nodes
  (`RepeatedGrants.RepeatedGrantsSafeUpToThree`).
- A silent peer is given up in bounded time if and only if timer checks come less than a heartbeat interval apart
  (`HeartbeatTimer.GivenUpExactly`).
- Any second holds at most twice the configured rate, for all runs with at most m calls a window, if and only if m is
  below 2^32 (`RateLimiter.BoundedExactly`).
- Two engines never see a gap on the bus. On the TCP path the Logon read ahead is never counted: the acceptor's
  inbound counter stays at 1 if and only if number 1 never comes again, and then each message beyond it that the loop
  processes is reported as a gap (`TcpAccept.TcpLogonLeavesGap`). From the first one on, the heartbeat timer of an
  acceptor whose peer goes on counting is off (`TcpAccept.CountingPeerIsAGap`).
- A session that asks before it reconnects makes at most b attempts in a row, in every run, if and only if it is an
  acceptor or has a limit of at most b other than zero (`SessionRuns.AttemptsBoundedExactly`).
- An appended journal entry reads back whole if and only if its body is shorter than 2^32
  (`Journal.AppendedReadsExactly`).
- A group is parsed unless some count in it is too large to reserve, and then the process aborts (`Groups.Parse`);
  `Groups.HugeCountAborts` gives the input.

Other main theorems keep a condition that a caller has to meet: one vote per node and term in the elections, and
applications that send well-formed messages stamped with the number they were offered in the two-engine model.

## Model

| member | source | states |
|---|---|---|
| EngineProtocol.NoGapEver | src/engine.rs:192-325 | In every interleaving of two new engines on an empty bus, whose applications send well-formed messages stamped with their next number, no session ever enters Resending and no frame is ever refused as too long |
| EngineProtocol.FlightIsConsecutive | src/session.rs:136-196 | At every moment the messages under way from one side to the other carry exactly the numbers from the receiver's expected one up to the sender's next, modulo 2^64 |
| EngineProtocol.AppSeesPrefix | src/engine.rs:316-323 | Each application has been given a prefix of its peer's application messages, in order and once each; all of them when nothing is under way |
| EngineProtocol.StepInv | src/engine.rs:192-352 | One step of either engine keeps the whole invariant: counters count, numbering is consecutive, and sent equals processed, then buffered, then in flight |
| EngineProtocol.LocalKeeps | src/engine.rs:196-325 | Every step but the receive keeps an engine's books and loses nothing it has received |
| EngineProtocol.FrameHandled | src/engine.rs:240-324 | A whole frame with the expected number is cut off, accepted and acted on: at most one message goes out, and it is delivered exactly if its type is not A, 0, 1 or 5 |
| EngineProtocol.TakeOldest | src/transport_aeron.rs:112-133 | Receiving takes the peer's oldest frame and leaves the receiver's own frames in place and order |
| EngineHandshake.LogonComesFirst | src/engine.rs:164-182 | In every interleaving the first message either side sends, and the first either side processes, is a Logon, whatever roles the two sessions are configured with |
| EngineLife.HeardIsActive | src/engine.rs:164-350 | In every interleaving an engine that takes part and has heard its peer is Active until its application asks for the end or a Logout is heard; it is Disconnected if and only if it has said its one Logout, and in LogoutSent only between the wish and the end of the message loop |
| EngineLife.UnheardWaits | src/engine.rs:164-182 | Until then, a launched engine has said one Logon and waits in LogonSent or, in the acceptor's role, in Connecting; one not launched has said nothing |
| EngineLife.LogonsSaid | src/engine.rs:274-298 | Logons on the bus: one for the launch, one for the peer's Logon heard in the acceptor's role, counted by the type read in the bytes sent |
| EngineLife.HeartbeatsSaid | src/engine.rs:196-213 | Heartbeats an engine has built: exactly one for each TestRequest processed and one each time its timer asked |
| EngineLife.LogoutSaid | src/engine.rs:303-350 | At most one Logout, the last message ever sent; a Logout heard has been answered unless the application failed |
| EngineLife.AllSaid | src/engine.rs:164-350 | Nothing else is ever sent: those and what the application handed over are all messages |
| EngineLife.HandedOverAsIs | src/engine.rs:43-48 | A message the application hands over joins the end of the bus unchanged |
| EngineLife.TickStops | src/engine.rs:196-213 | A tick stops the engine if and only if it was asked to or its peer is given up |
| EngineLife.TimersRestart | src/engine.rs:101-161 | Every message sent ahead of the end restarts the send timer, every message processed the receive timer |
| EngineLife.MalformedIsSkipped | src/engine.rs:255-258 | A frame that does not parse is cut off and changes nothing else |
| EngineLife.HeardIsSound | src/engine.rs:255-258 | Every frame an engine makes sense of is a message whose checksum and stated length hold |
| EngineLife.FailingApplication | src/engine.rs:303-306 | A dispatch ends the engine with an error if and only if the application fails on a Logout, and then nothing is sent |
| EngineMessages.SessionMessageRead | src/serializer.rs:256-310 | Every Logon, Heartbeat and Logout an engine builds fits its buffers, is one frame, and is read back with its type and the number it was given, for every clock value and every SOH-free identity that fits |
| EngineMessages.SessionMessageTells | src/serializer.rs:256-310 | And with its version, sender, receiver and time in fields 8, 49, 56 and 52, a Logon with 0 and the heartbeat interval in fields 98 and 108 |
| EngineMessages.BuildLogon | src/serializer.rs:274-292 | Fills the front of any buffer long enough with exactly the reference form of the Logon |
| EngineMessages.BuildHeartbeat | src/serializer.rs:256-271 | The same for the Heartbeat |
| EngineMessages.BuildLogout | src/serializer.rs:295-310 | The same for the Logout |
| AeronTransport.AeronTransport.Send | src/transport_aeron.rs:102-110 | One frame under the sender's id joins the end of the queue; without a bus nothing happens and the error says so |
| AeronTransport.AeronTransport.Recv | src/transport_aeron.rs:112-133 | The first foreign frame leaves the queue and fills the front of the buffer; it is lost with an error when the buffer is too small; with no such frame the answer is 0 and nothing changes |
| Engine.FixEngine.SendLogon | src/engine.rs:101-120 | Does to session and bus what the protocol's send step says |
| Engine.FixEngine.SendHeartbeat | src/engine.rs:123-140 | The same for the Heartbeat |
| Engine.FixEngine.SendLogout | src/engine.rs:143-161 | The same for the Logout, leaving the session in LogoutSent |
| Engine.FixEngine.SendRaw | src/engine.rs:43-48 | Puts the application's bytes on the bus as they are and only then takes a number |
| Engine.FixEngine.Launch | src/engine.rs:164-168 | Connects the session and sends the Logon |
| Engine.FixEngine.HandleInboundLogon | src/engine.rs:185-190 | Connects the session, makes it Active and sends the Logon, counting nothing inbound |
| Engine.FixEngine.Tick | src/engine.rs:196-213 | Stop flag, then heartbeat timer: the protocol's tick step, with the place control goes to |
| Engine.FixEngine.ReceiveData | src/engine.rs:215-237 | One frame moves from the bus behind the buffered bytes, or sends control back to the top, or ends the engine |
| Engine.FixEngine.Dispatch | src/engine.rs:240-324 | One turn of the message loop equals the protocol's dispatch step on any buffer contents, malformed frames included |
| Engine.FixEngine.Finish | src/engine.rs:327-352 | A closed session stops the engine; one asked to end sends its Logout first |
| EngineLoop.RunLoop | src/engine.rs:192-357 | The nested loops, for any script of clock readings and application behaviour and any bus contents: what they do continues the given run by steps of the protocol that play the used turns of the script one after the other, each for one tick or one dispatch with its callback; they end stopped, failed, or with the script, and only a stopped engine closes its endpoint |
| EngineLoop.MessageLoop | src/engine.rs:240-325 | The inner loop dispatches, one turn of the script each, until nothing whole is buffered or the application fails: exactly those turns are added to the run, as steps of the protocol |
| EngineLoop.RunInitiator | src/engine.rs:164-173 | The same with the Logon in front: the run is its step followed by the used turns |
| TcpAccept.TcpLogonLeavesGap | src/engine.rs:185-273 | Over any run of an engine that answered its peer's Logon ahead of the loop, the stream coming in any pieces: the inbound counter stays at 1 throughout if and only if no processed message is numbered 1, and then the gaps reported are exactly those from 1 to each processed number beyond it, in order |
| TcpAccept.CountingPeerIsAGap | src/session.rs:181-244 | When the peer goes on counting, every message processed is reported as a gap, and after the first no check of the heartbeat timer ever sends, probes or disconnects |
| TcpAccept.FirstMessageIsAGap | src/engine.rs:185-273 | Such a run exists for every well-formed message numbered beyond 1 |
| TcpAccept.AnswersLogon | src/engine.rs:185-190 | Answering puts one message on the bus, a Logon with number 1, and leaves number 2 as the next |
| SessionRuns.OutboundCounts | src/session.rs:136-140 | In every run without a reset the outbound counter has moved once for each number handed out, modulo 2^64, whatever happened in between |
| SessionRuns.InboundCounts | src/session.rs:181-196 | And the inbound counter once for each expected number heard |
| SessionRuns.ResendingExactly | src/session.rs:155-213 | After any run a session is in Resending if and only if it heard a number beyond the expected one, in whatever state it was, and nothing has set its state since |
| SessionRuns.GapHealed | src/session.rs:199-202 | After a reported gap, `on_gap_filled` with the number that came makes the session Active, and that number is the next one accepted |
| SessionRuns.DayCounts | src/session.rs:281-286 | A run without further resets counts both numbers from 1, whatever came before it |
| SessionRuns.AttemptsBoundedExactly | src/session.rs:260-279 | For every configuration and bound: all runs of a new session that reconnects only when `should_reconnect` says so make at most that many attempts between connections if and only if it is an acceptor or its limit is not zero and within the bound |
| Session.Session.ValidateInboundSeq | src/session.rs:181-196 | Accepts the expected number, reports the gap before a later one and enters Resending, ignores an earlier one |
| Session.Session.CheckHeartbeatTimer | src/session.rs:216-244 | The action and the state after it, heartbeat before probe before disconnect |
| Session.Session.CheckRateLimit | src/session.rs:289-300 | Restarts the window after a second, counts the call, allows it while the count is within the rate |
| HeartbeatTimer.PendingWasProbed | src/session.rs:216-257 | In every run of session calls an outstanding probe was sent by some check and nothing was received since |
| HeartbeatTimer.DisconnectIsJustified | src/session.rs:230-236 | A check gives the peer up only after such a probe, and no earlier than the interval and five seconds after the last receipt |
| HeartbeatTimer.CheckedIsHeard | src/session.rs:216-244 | Right after a check of an Active session less than the interval lies behind its last sending, and a check that finds the interval over says Send |
| HeartbeatTimer.GivenUpExactly | src/session.rs:216-244 | With checks at most d apart there is a bound by which every silent run has given the peer up if and only if d is below the heartbeat interval (or zero); the bound is interval plus 5 s plus 2d, or 3d when 2d reaches the interval; above it no bound holds |
| HeartbeatTimer.SilenceIsNoticed | src/session.rs:216-244 | The bound, for every d below the interval and whatever is sent meanwhile |
| HeartbeatTimer.FirstDisconnectInTime | src/session.rs:216-244 | The first disconnect comes at or after interval plus 5 s, and before that plus 3d when 2d is below the interval and plus 4d when only d is |
| RateLimiter.CounterWraps | src/session.rs:289-300 | Over any run of session calls the 32-bit counter is the number of rate checks in the window modulo 2^32 |
| RateLimiter.DecisionsAgree | src/session.rs:289-300 | So the session allows in any second exactly what the unbounded window, read modulo 2^32, allows |
| RateLimiter.WindowBound | src/session.rs:293-299 | A window of n calls allows at most the rate if and only if n is below 2^32 |
| RateLimiter.BoundedExactly | src/session.rs:289-300 | For every rate: all runs of a new session with a clock that does not run back and at most m rate checks a window keep every half-open second within twice the rate if and only if m is below 2^32 |
| RateLimiter.RateBound | src/session.rs:289-300 | The bound below 2^32 |
| RateLimiter.RateBoundReached | src/session.rs:289-300 | For every rate there is a run that reaches twice the rate within one second |
| CodecRoundTrip.RoundTrip | src/parser.rs:94-207 | With both validations on, the serializer's output followed by any bytes, within 65,536, is accepted, consumed exactly, and yields the written fields with 8, 9, 35 in front and 10 behind (the first 512 of them) |
| CodecRoundTrip.ParseEncoded | src/parser.rs:94-207 | The same for every parser setting; the one failure is a body of a million bytes or more under length validation |
| CodecRoundTrip.StatedFaithful | src/serializer.rs:235-253 | Six digits state a length faithfully if and only if it is below one million |
| CodecRoundTrip.EncodedBoundary | src/parser.rs:213-235 | The boundary search stops exactly behind a serialized message, whatever follows it |
| CodecRoundTrip.ValidEncoded | src/checksum.rs:45-84 | The checksum of every serialized message is accepted |
| CodecRoundTrip.ChangeRejected | src/checksum.rs:45-84 | After any single-byte change in front of the trailer's tag it is rejected, the change that destroys the trailer's own SOH included |
| ParserAccepts.AcceptsExactly | src/parser.rs:94-207 | For every parser setting and buffer: it is accepted if and only if its size is admitted and it starts with printed fields, tags 8, 9, 35 in front and the first tag 10 last, whose stated length and checksum hold where they are validated |
| ParserAccepts.RejectsExactly | src/parser.rs:94-207 | For every parser setting, buffer and error: that error is answered if and only if the printed fields say so, structural errors behind the longest readable front included |
| ParserAccepts.ParsesTo | src/parser.rs:94-207 | The verdict on a message, and on acceptance its first 512 fields where they stand and its exact length |
| ParserAccepts.AcceptedFields | src/parser.rs:163-176 | What the index gives back is the tag and the value of each printed field |
| ParserAccepts.AcceptedIsValid | src/parser.rs:195-201 | Under checksum validation whatever is accepted is valid as far as it was read |
| ParserAccepts.ChangeNotAccepted | src/parser.rs:195-201 | No single changed byte ahead of the trailer's tag of a serialized message is accepted as the whole message |
| Serializer.RightJustify | src/serializer.rs:155-231 | The two-digit-table loop leaves exactly the decimal digits at the end of its scratch array |
| Serializer.WriteU64ToBuf | src/serializer.rs:235-253 | The number's own digits below one million and its low six digits otherwise; zero-padding them gives the six-digit form |
| Serializer.FixSerializer.Begin | src/serializer.rs:39-52 | Opens a message with six reserved zeros and its MsgType |
| Serializer.FixSerializer.AddStr | src/serializer.rs:55-59 | Appends exactly one field to the body |
| Serializer.FixSerializer.AddInt | src/serializer.rs:62-69 | The same with the signed decimal text, the least i64 included |
| Serializer.FixSerializer.AddU64 | src/serializer.rs:72-79 | The same with the unsigned decimal text |
| Serializer.FixSerializer.Finalize | src/serializer.rs:83-115 | After back-patching, the buffer holds exactly the reference form of the message that was built |
| Decimal.U64RoundTrip | src/message.rs:207-220 | Every u64 reads back from its printed digits |
| Decimal.I64RoundTrip | src/message.rs:183-204 | Every i64 reads back from its printed text |
| Decimal.DigitsShortest | src/serializer.rs:155-231 | Printed numbers have no leading zero |
| Decimal.ParseU64 | src/message.rs:207-220 | The value of an all-digit text, reduced to 64 bits; anything else is refused |
| Decimal.ParseI64 | src/message.rs:183-204 | The same with a leading minus, two's complement |
| Parser.ParseMessage | src/parser.rs:94-207 | The loop parser computes the parse function: same index, same count of bytes consumed, same error |
| Parser.ReadField | src/parser.rs:108-137 | One "tag=value" up to its delimiter, or the first thing wrong with it |
| Parser.FindMessageBoundary | src/parser.rs:213-235 | The end of the first SOH, "10=", three bytes, SOH; none exactly if there is no such place |
| Parser.FindChecksumTagStart | src/parser.rs:246-260 | The last place ahead of the end where SOH and "10=" meet |
| Message.MessageView.AddField | src/message.rs:58-72 | Adds one index entry of any range while there is room, keeping the cached MsgType position right |
| Message.MessageView.GetField | src/message.rs:95-104 | The value of the first field with the tag |
| Message.MessageView.MsgType | src/message.rs:127-136 | The value of the last field 35 |
| Message.MessageView.MsgSeqNum | src/message.rs:176-178 | The number of the first field 34, if it is all digits |
| Checksum.Compute | src/checksum.rs:7-31 | Four wrapping accumulators over chunks and a remainder give the byte sum modulo 256, for every length |
| Checksum.Format | src/checksum.rs:36-41 | Three digits, zero-padded |
| Checksum.Validate | src/checksum.rs:45-84 | True exactly if the last trailer's three stated digits equal the sum of everything before it |
| Checksum.SumDetectsChange | src/checksum.rs:7-31 | Changing one byte changes the sum modulo 256 |
| Framing.ChunkingIrrelevant | src/engine.rs:231-253 | Frames and leftover depend on the bytes received, not on how the stream was cut into receives |
| Framing.Conserved | src/engine.rs:240-253 | Frames followed by the retained buffer are all the bytes received, and no frame is left in the buffer |
| Framing.ExtractAppend | src/engine.rs:231-253 | Cutting frames before or after more bytes arrive gives the same |
| Framing.MessagesRecovered | src/engine.rs:231-253 | A stream of serialized messages in any pieces comes out as exactly those messages, with nothing left |
| Framing.ReceiveBuffer.Append | src/engine.rs:231-237 | Bytes join the buffer's end, which grows when full |
| Framing.ReceiveBuffer.TakeFrame | src/engine.rs:240-253 | The first frame is copied out and the rest moved to the front in place |
| Framing.ReceiveBuffer.Receive | src/engine.rs:231-253 | One receive yields exactly the frames the stream function names and keeps exactly its leftover |
| Groups.Parse | src/groups.rs:73-161 | The nested loops, for any field list, start and definition: the group returned belongs to the definition, has at most the declared entries, and its count field, entries and nested groups spell exactly the fields up to the index returned; the process aborts if and only if a count in the group is too large to reserve |
| Groups.FlatReads | src/groups.rs:88-156 | Without nested groups the entries' fields, entry after entry, are the fields behind the count field |
| Groups.GroupAccounted | src/groups.rs:88-156 | With any nesting every field taken is in the group or a nested one, or is the count field of one of them, as multisets |
| Groups.EntryInOrder | src/groups.rs:109-149 | Each entry's own fields are a subsequence of its stretch |
| Groups.GroupExactly | src/groups.rs:73-101 | There is a group exactly where its count tag stands with a number behind it |
| Groups.ReadsToItsEnd | src/groups.rs:103-156 | Fewer entries than declared only when no delimiter follows, and behind the last entry nothing could have continued it |
| Groups.ExactReservable | src/groups.rs:101 | Counts that are true never abort: a group with exact counts and at most that many fields can always be reserved |
| Groups.HugeCountAborts | src/groups.rs:101 | A single count field above (2^63 - 1) / 48 aborts, whatever the definition |
| Groups.TreeRoundTrip | src/groups.rs:73-161 | Printing a group tree of any depth and parsing it gives the tree back and stops right behind it, when tags are disjoint across levels, counts are exact and the next field is foreign |
| Groups.TreeConserves | src/groups.rs:73-161 | Every field is consumed once, in input order: the parsed tree printed again, then the rest, is the input |
| Groups.ParsedFits | src/groups.rs:88-156 | In whatever is parsed every entry holds one delimiter, at its head, only members follow, and entries never exceed the declared count, at every level |
| Groups.ViewSize | src/groups.rs:73-161 | The number of fields consumed is one count field per group plus all entry and nested fields of the result |
| Groups.ParseCount | src/groups.rs:216-226 | The decimal value modulo 2^64; empty reads as zero |
| PoolProtocol.RunSafe | src/pool.rs:72-109 | In every interleaving with at most one thread inside allocate, any number returning, and spurious failures, the free chain is acyclic and free, held and being returned split the slots |
| PoolProtocol.AllocationSound | src/pool.rs:72-88 | So the slot handed out was neither held nor being returned, exhaustion means every slot is one of these, and no link outside the list is read |
| PoolLimits.NeverSharedExactly | src/pool.rs:72-109 | For every capacity and thread count: no run, however its calls overlap, hands out a slot that is held, if and only if there is one slot or at most one thread |
| PoolLimits.SharedSlot | src/pool.rs:72-88 | The run that does, for every pool of two slots and two threads or more |
| PoolLimits.NeverOutsideExactly | src/pool.rs:72-109 | For every capacity and thread count: no run, however its calls overlap, indexes outside the list, if and only if there is a slot or no thread |
| PoolLimits.EmptyPoolPanics | src/pool.rs:72-79 | A pool without slots indexes outside its list on the first allocate |
| PoolProtocol.AllocateAlone | src/pool.rs:72-88 | Uncontended, the four atomic steps of allocate pop the chain |
| PoolProtocol.DeallocateAlone | src/pool.rs:94-109 | Uncontended, the four atomic steps of deallocate push the handle |
| Pool.BufferPool.constructor | src/pool.rs:39-66 | All slots free, in order; without slots the pool is not usable |
| Pool.BufferPool.Allocate | src/pool.rs:72-88 | Pops the LIFO stack of free slots, or None when it is empty, whatever the spurious failures |
| Pool.BufferPool.Deallocate | src/pool.rs:94-109 | Pushes the handle on that stack |
| Pool.BufferPool.WriteThrough | src/pool.rs:113-117 | A write through one slot's slice changes that byte of that slot and no other slot |
| Pool.BufferPool.Get | src/pool.rs:120-123 | The bytes of the handle's slot |
| Pool.SlotsDisjoint | src/pool.rs:113-117 | Different handles have disjoint byte ranges |
| Election.ElectionSafety | src/cluster.rs:225-260 | In every run with one vote per node and term and each grant delivered at most once, of all nodes that ever led a term there is only one |
| Election.LeadersRecorded | src/cluster.rs:218-222 | A node that leads at any point of a run is among those the safety theorem speaks of |
| Election.StepInv | src/cluster.rs:225-260 | No candidate's counter exceeds the votes it received, and every leader ever had a majority behind it |
| Election.TermsRise | src/cluster.rs:225-246 | Over any run a node's term does not fall unless it starts an election at the largest 64-bit term |
| Election.TermsNeverFall | src/cluster.rs:225-246 | A step lowers a term if and only if it is that wrap |
| Election.TermCanFall | src/cluster.rs:225-246 | In a cluster of any size a run reaches that wrap |
| RepeatedGrants.RepeatedGrantsSafeUpToThree | src/cluster.rs:242-260 | For every cluster size: when grants may be delivered again, no run has two leaders of one term if and only if there are at most three nodes |
| RepeatedGrants.SmallStep | src/cluster.rs:225-260 | Up to three nodes a candidate has its own vote only, and whoever leads has a majority, at every step |
| RepeatedGrants.LargeClustersFail | src/cluster.rs:242-260 | The run with two leaders of term 1, for every size from four on |
| ElectionWins.MajorityElects | src/cluster.rs:242-260 | In a cluster of any size a candidate that is granted votes one by one goes on waiting as long as they are no majority, and leads from the one that makes it |
| ElectionWins.LaterTermFollows | src/cluster.rs:242-247 | Word of a later term makes a node a follower of that term without a vote or a leader |
| ElectionWins.IdleReply | src/cluster.rs:248-252 | A reply of an earlier term, a refusal, or a reply to a node that does not stand changes nothing |
| Cluster.ClusterNode.BeginElection | src/cluster.rs:225-236 | Next term, own vote, candidate; alone, leader at once |
| Cluster.ClusterNode.ReceiveVote | src/cluster.rs:242-260 | Higher term steps down; a counted grant may win; anything else changes nothing |
| Cluster.ClusterNode.StepDown | src/cluster.rs:209-215 | Follower of the given term with a clean vote state |
| Cluster.ClusterNode.ReplicateSessionState | src/cluster.rs:263-275 | One entry with the next index, the current term and the session's byte form joins the log |
| Cluster.LogNumbered | src/cluster.rs:263-275 | A log built from nothing has number k + 1 modulo 2^64 at position k, with the term and, if its texts are short, the session of the k-th change |
| Cluster.AppliedThrough | src/cluster.rs:296-301 | A node that applies such a log from the start ends with its length as the last index applied |
| Cluster.ClusterNode.ApplyLogEntry | src/cluster.rs:278-302 | Applies the entry to the table; indexes only rise |
| Cluster.ClusterNode.CreateSnapshot | src/cluster.rs:310-321 | The byte form of the whole table |
| Cluster.ClusterNode.RestoreSnapshot | src/cluster.rs:324-351 | The table any bytes stand for, truncated and undecodable blocks included; Active unless there was no count |
| SessionTable.SnapshotTransparent | src/cluster.rs:278-351 | For any log and split point, replay, snapshot, restore into an empty table and replay of the rest give the table of the whole log, below 2^32 sessions |
| SessionTable.SnapshotRoundTrip | src/cluster.rs:310-351 | Restoring a snapshot gives the table back if and only if its size is below 2^32; beyond that it gives the leading sessions the wrapped count covers |
| SessionTable.ReplayKeeps | src/cluster.rs:278-302 | Every table built by replay has distinct session ids and texts that fit their 16-bit lengths |
| SessionTable.SessionRoundTrip | src/cluster.rs:355-420 | A session survives its byte form if and only if every text fits its 16-bit length |
| SessionTable.ReplicatedApplies | src/cluster.rs:263-295 | Applying the entry made for a session files that session |
| SessionTable.LastChangeWins | src/cluster.rs:278-295 | After a decodable change the session's counters are the ones it carried |
| SessionHistory.TableTells | src/cluster.rs:278-295 | After replaying any log the table holds a changed session with the names of its first change and the numbers of its last |
| SessionHistory.UnchangedIsAbsent | src/cluster.rs:278-295 | And no session without a change |
| SessionHistory.SessionLaidOut | src/cluster.rs:355-375 | Where each text, its length and each number stand in a session's bytes, lowest byte first |
| SessionHistory.SnapshotLaidOut | src/cluster.rs:310-321 | A snapshot starts with the number of sessions, then block after block behind its length |
| SessionTable.EncodeSessionState | src/cluster.rs:355-375 | The vector grown field by field is the session's byte form |
| SessionTable.DecodeSessionState | src/cluster.rs:378-420 | The moving offset reads what the decode function reads, and gives up where it does |
| Crc.ByteChangeDetected | src/journal.rs:167-180 | Bodies of one length that differ in one byte have different CRCs |
| Crc.BurstDetected | src/journal.rs:167-180 | So do bodies that differ only inside a window of at most four bytes |
| Crc.BitStepInjective | src/journal.rs:172-177 | One bit step never maps two registers to the same one |
| Crc.TableForm | src/journal.rs:167-180 | Eight bit steps are the byte-table step of section 8 of RFC 1952 |
| Crc.TableTop | src/journal.rs:172-177 | The table's entry for 128 is EDB88320 hexadecimal, the polynomial of section 8 of RFC 1952 |
| Crc.SealedRegister | src/journal.rs:167-180 | Any data followed by its own CRC, lowest byte first, leaves one and the same register |
| Crc.RegisterWhole | src/journal.rs:167-180 | Feeding a body byte by byte is one division of its little-endian number |
| Crc.ComputeCrc32 | src/journal.rs:167-180 | The nested loops compute that CRC and stay within 32 bits |
| Journal.CorruptionDetected | src/journal.rs:118-142 | Changing any one byte of a stored body makes reading the entry return None |
| Journal.SurvivorsRead | src/journal.rs:74-142 | After any run of appends every entry no later one overlaps reads back with its exact header and body |
| Journal.AppendedReadsExactly | src/journal.rs:74-142 | For every body that fits the map: what was appended reads back as written if and only if its length is below 2^32 |
| Journal.RecoveryExact | src/journal.rs:74-142 | Following header lengths from offset 0 to the write offset recovers the current lap's records in append order |
| Journal.RecoversAllExactly | src/journal.rs:74-142 | Recovery finds every record ever appended if and only if their sizes add up to at most the capacity |
| Journal.RecoversLatest | src/journal.rs:74-142 | In general it finds the latest ones, from the last that no longer fitted behind those before it |
| Journal.AppendedBehind | src/journal.rs:83-105 | An entry that fits goes right behind the write offset, any other to the front; every byte outside it stays |
| Journal.HeaderLaidOut | src/journal.rs:89-103 | Session hash, sequence number, body length and CRC stand in a header's bytes in this order, lowest byte first |
| Journal.LapLaidOut | src/journal.rs:74-115 | The current lap fills the map from its start to the write offset, entry after entry |
| Journal.Journal.AppendMessage | src/journal.rs:74-115 | Overwrites exactly the entry's bytes at the write offset, or at 0 when it does not fit, and returns that place |
| Journal.Journal.ReadEntry | src/journal.rs:118-142 | Header and body at an offset more than 24 below 2^64, or None when they run over the end or the CRC disagrees |
| CalendarWords.CivilWithin | src/timestamp.rs:298-310 | On 64-bit integers: every day number below 2^63 - 719468, negative ones included, gives a real Gregorian date whose position in the calendar is that day |
| CalendarWords.CivilEnds | src/timestamp.rs:298-310 | The day number 2^63 - 719468 gives the date after its own, because the first sum wraps |
| CalendarWords.CivilInWordsAgrees | src/timestamp.rs:298-310 | Below that bound the source's integers compute what unbounded ones do, so the rows that follow, on unbounded integers, are about the source there |
| Calendar.CivilCounts | src/timestamp.rs:298-310 | On unbounded integers every day number gives a real Gregorian date whose position in the calendar is that day |
| Calendar.CivilOfDayNumber | src/timestamp.rs:298-310 | Every date is reached, from exactly one day |
| Calendar.CivilSuccessor | src/timestamp.rs:298-310 | The next day is the calendar's next date |
| Calendar.CivilEpoch | src/timestamp.rs:298-310 | Day 0 is 1970-01-01 |
| Calendar.CivilOrdered | src/timestamp.rs:298-310 | Later days are later dates |
| Timestamp.TimestampOrdered | src/timestamp.rs:74-133 | At each precision a timestamp sorts before another byte by byte if and only if its tick is earlier, and is the same text if and only if the tick is the same; at nanoseconds this is strict order and no loss |
| Timestamp.TimestampReads | src/timestamp.rs:74-133 | Read back at each precision, a timestamp is a calendar date and a clock time, and days since 1970-01-01, seconds and fraction add up to exactly the tick it was printed for |
| Timestamp.TimestampShape | src/timestamp.rs:74-113 | Every byte is a digit or the separator of its place |
| Timestamp.ToFixTimestamp | src/timestamp.rs:74-85 | The in-place writers produce the millisecond text, and read back it states the instant |
| Timestamp.ToFixTimestampUs | src/timestamp.rs:89-100 | The same for microseconds |
| Timestamp.ToFixTimestampNs | src/timestamp.rs:104-113 | The same for nanoseconds |
| BlockScan.FindByteSse2 | src/simd.rs:158-189 | The 16-byte mask scan with its scalar tail finds the first position, on every buffer and needle |
| BlockScan.CountByteSse2 | src/simd.rs:192-219 | The mask population counts with the tail are the count |
| BlockScan.FindByteNeon | src/simd.rs:56-93 | The two-lane scan with trailing zeros over eight finds the same first position |
| BlockScan.CountByteNeon | src/simd.rs:97-127 | The lane sums with the tail are the count |
| BlockScan.MaskFindsFirst | src/simd.rs:165-178 | The lowest mask bit is the first match |
| BlockScan.LanesFindFirst | src/simd.rs:71-81 | The lowest set bit of a lane word lies in the first matching byte |

## Left out

- Sockets, servers and clients. Of the TCP path only the answered Logon and the engine behind it are modelled.
- `initiate_logout`, called from outside the loop, is not a step of the two-engine model; neither is running one engine twice.
- The retry of gaps, resends, PossDup and sequence resets is described in `SPECIFICATION.md` but absent from the receive loop.
- In the two-engine model an application's own sending is restricted to what `next_seq_num` is offered for: one well-formed frame of at most 8192 bytes carrying the next number. Larger frames are taken off the bus before their length is checked and are lost; the receive contract states this.
- The loops of `EngineLoop` run one engine; its peer's steps interleave in `EngineProtocol` only.
- Transport failures other than an oversized frame: the bus is in memory and stays connected while the engines run.
- The heartbeat seconds an engine announces and the interval its session keeps are two inputs here; the source takes the first from the second in whole seconds (`src/engine.rs:107`).
- Memory orderings of the pool: atomic operations interleave under sequential consistency. Page touching and the tiered pool add nothing.
- Groups work on the resolved tag and value list; the lookup of each value through the field index is proved in `Message` and `CodecRoundTrip`. The read-only accessors of groups are not modelled.
- Running out of memory: an allocation that fits the address space succeeds.
- The digit table of the serializer is given by rule instead of as two hundred characters.
- File mapping, flushing and pointer casts of the journal: the map is a byte array, the header a 24-byte little-endian record. `session_hash` is not part of this model.
- Journal.Journal.ReadEntry: an offset within 24 of 2^64 wraps in the source's first sum (`src/journal.rs:119`) and panics on the slice behind it; the contract answers None.
- Calendar.CivilCounts: the wrap of day numbers from 2^63 - 719468 on is not in this row; `CalendarWords.CivilWithin` and `CalendarWords.CivilEnds` state where the source leaves it. Its one caller passes fewer than 300,000 days.
- Vote requests, log shipping, heartbeats between cluster nodes and commit decisions: the source has no handlers for them. Calls of `step_down` or `become_leader` from outside a node are not steps of the elections.
- Reading and calibrating clocks; saturation and overflow of `Duration` values.
- Dashboards, metrics, dictionaries, FIXT delegation, acceptor bookkeeping, DPDK, tools and benchmarks.
