# raynet core, modelled and proved

raynet carries sessions of a byte stream between two endpoints over relays.  This project models
its synchronous core: the KCP transport with its 32-bit sequence numbers, the route planner over a
graph of channels, the replay filter, the endpoint's sessions, the envelope on the wire, and the
relay that passes packets on.  From the shell it models the function that sorts the configured
edges into a route graph.  All of it does no I/O; clocks, timers, random values and what arrives
from the network are inputs, and every statement holds for all of them.

`dafny verify dfyconfig.toml` checks everything.

## How it is built

| part | modules |
|---|---|
| KCP | `KcpMachine` says what each operation makes of a control block, on numbers that wrap or that do not; `Kcp` is the control block itself, an object on bytes; `KcpPair`, `KcpSender`, `KcpReceiver`, `KcpSafety` prove what two blocks and any network keep; `KcpWrap` that the wrapping machine follows the other; `KcpTheorems`, `KcpAhead` and `KcpPackets` draw the conclusions; `KcpFlush` and `KcpInput` say what a flush writes and what a packet does on the fields of the block alone; `KcpProgress` that no run is stuck; `KcpCodec` is the layout of segments |
| replay filter | `SequenceSpec` is the set of accepted stamps and its runs, `Sequence` the circular bitmap, `SequenceFilter` the windows of all senders and their expiry, `SequenceLog` which stamps are let through, told on the accepted ones |
| routes | `RouteSpec` has graphs, paths and service times, `RouteTable` the correctness of the search, `RouteTimes` arrivals in the fields of the edges, `RouteUpdate` what plans, failures and feedback change, `RouteRuns` and `RouteFairness` what happens over time, `Routing` the planner; `TopoSpec` and `TopoSort` build the graph |
| wire and relay | `Wire` has the codecs, `Relay` one relay and journeys over many, `RelayRuns` a relay over time |
| endpoint | `EndpointSpec` and `EndpointSession` are one session around its KCP; `SessionTrace`, `SessionTable`, `SessionSafety`, `SessionRest`, `SessionPackets`, `SessionStream`, `SessionRuns`, `SessionStory` and `Sessions` are all of them; `GracefulClose` joins sessions and KCP pairs; `Budget`, `SenderSpec`, `Samples` and `Transmitter` send; `Deadlines`, `EndpointRuns` and `Endpoint` put it together; `Polls` says what a poll leaves, `Exchanges` what endpoints tell each other besides KCP; `EndToEnd` joins two endpoints over relays |

Objects that the original updates in place are classes whose methods are proved against functions
on values; the theorems are about those functions, and class invariants carry them over every
sequence of calls.  What each main operation does is also stated without its function, on the fields
before and after it, on the packets, or on the log of a run.

## What was found

* `parse_ack` compares raw 32-bit numbers, so while `snd_buf` straddles the wrap an ACK can be
  ignored.  `KcpSender.AckRemovesIff` says exactly when; the segment then stays in `snd_buf`.
* `snd_una` can run ahead of the peer's `rcv_nxt`: segments acknowledged one by one wait in
  `rcv_buf` while the receive queue is full.  `KcpAhead.UnaRunsAhead` is such a run, and
  `KcpAhead.UnaAheadIff` says exactly when it is so.  That the peer has accepted a segment therefore
  means that its number is below `rcv_nxt` or in `rcv_buf`.
* `send` measures a message against its own receive window (DESIGN.md:510), not the peer's.  A peer with
  a smaller one can never hand the message over, and everything behind it waits for ever:
  `KcpProgress.StuckAtSmallerWindow`.  Apart from that and from a send window of zero nothing can stop a
  run for good (`KcpProgress.NeverStuckIff`).
* Window probes are built from the ACK segment of the same flush and carry its last number and time.
* `peeksize` adds one to an eight-bit counter.  It would wrap at 255, which `send` never produces.
* The reserve for padding must not be zero: a full packet on the longest route leaves exactly the
  reserve, and the original divides by the room that is left.
* A message is refused by KCP when its fragments do not fit the receive window, which the endpoint
  does not check before it unwraps the result.  DESIGN.md:510 makes it a duty of the configuration:
  `SessionWrite` requires it, and a configuration is required to leave room for one fragment.
* DESIGN.md:758 bounds the outstanding samples by ceil(timeout / interval) + 1.  A sample that is lost
  after a younger one was sent goes out again with a new deadline, which the bound does not count:
  `Samples.LateLossExceedsTheBound` is such a run.  Without such losses `Samples.SamplesAreBounded`
  proves the bound, and one less.
* The replay filter keeps its promise for runs of up to 2^25 - 705 ticks, and not for one more
  (`SequenceSpec.SpanIsExact`); a year is well inside.

## Model

| member | source | states |
|---|---|---|
| KcpTheorems.OrderedExactlyOnce | crates/raynet-core/src/kcp/kcp.rs:241-350 | In every run of two control blocks over a network that drops, repeats and reorders packets (numbers in flight less than half the space old), the messages each side hands over are a prefix of the messages the other was given, bytes and boundaries intact |
| KcpTheorems.NoLossByAcknowledgement | crates/raynet-core/src/kcp/kcp.rs:373-399 | In every such run each number given out is still buffered by its sender or held by the receiver: no acknowledgement discards what the peer does not hold |
| KcpTheorems.WrappingRefinesUnbounded | crates/raynet-core/src/kcp/kcp.rs:72-74 | The 32-bit machine follows, step by step, a machine whose sequence numbers never wrap |
| KcpTheorems.StepKeepsInv | crates/raynet-core/src/kcp/kcp.rs:459-580 | No move of either node, timely or not, breaks the invariant of the pair |
| KcpTheorems.WindowsStayBounded | crates/raynet-core/src/kcp/kcp.rs:427-456 | In every run `snd_buf` is strictly ordered in `[snd_una, snd_nxt)`, at most `snd_wnd` long, `rcv_buf` strictly ordered inside the receive window, and `rcv_queue` at most `rcv_wnd` |
| KcpTheorems.QuiescentMeansAccepted | crates/raynet-core/src/kcp/kcp.rs:644-646 | When `wait_snd()` of either node is zero its peer has accepted every fragment of every message; a peer with empty buffers has handed over all of them |
| KcpProgress.NeverStuckIff | crates/raynet-core/src/kcp/kcp.rs:325-787 | No deadlock: from every state of every run there are moves after which the peer has handed over every message submitted so far and nothing waits, exactly if each of them has no more fragments than the peer's receive window and there is a send window |
| KcpProgress.NeverStuck | crates/raynet-core/src/kcp/kcp.rs:325-336 | With receive windows of one size on both sides, every run can be finished, in both directions |
| KcpProgress.StuckAtSmallerWindow | crates/raynet-core/src/kcp/kcp.rs:325-336 | A message that `send` takes and that a peer with a smaller window can never hand over |
| KcpSafety.ActKeepsOutgoing | crates/raynet-core/src/kcp/kcp.rs:690-811 | Every action of a node keeps what is known of the data it sends |
| KcpSafety.ActKeepsIncoming | crates/raynet-core/src/kcp/kcp.rs:459-580 | Every action of a node keeps what is known of the data it receives |
| KcpSafety.ReassemblyIsInverse | crates/raynet-core/src/kcp/kcp.rs:325-350 | Joining the fragments of a message gives the message back, byte for byte |
| KcpSafety.FrontIsNextMessage | crates/raynet-core/src/kcp/kcp.rs:259-296 | What `recv` hands over is exactly the next message, and the rest of the queue starts after it |
| KcpSafety.WholeMessageQueued | crates/raynet-core/src/kcp/kcp.rs:298-323 | `peeksize` succeeds only when every fragment of the next message has arrived |
| KcpSender.RemoveAckedTrims | crates/raynet-core/src/kcp/kcp.rs:373-389 | Comparing raw words, an ACK removes the segment it names or nothing |
| KcpSender.AckRemovesIff | crates/raynet-core/src/kcp/kcp.rs:373-389 | An ACK for a buffered segment removes it exactly when its word is not below the word of the oldest buffered segment |
| KcpSender.AckAcrossTheWrapIsIgnored | crates/raynet-core/src/kcp/kcp.rs:373-389 | A buffer that straddles the wrap and an ACK that is ignored |
| KcpAhead.UnaAheadIff | crates/raynet-core/src/kcp/kcp.rs:366-371 | In every run, of either node, `snd_una` passes the peer's `rcv_nxt` only while the peer's receive queue is full with the next segment waiting behind it; and then exactly if that segment was acknowledged on its own |
| KcpAhead.UnaRunsAhead | crates/raynet-core/src/kcp/kcp.rs:373-389 | A run of six moves in which it does |
| KcpSender.DropAckedTrims | crates/raynet-core/src/kcp/kcp.rs:391-399 | `parse_una` drops only segments that the receiver holds |
| KcpReceiver.AcceptExtends | crates/raynet-core/src/kcp/kcp.rs:427-456 | A genuine segment leaves the receiver with the same stream, more of it, and in possession of all it will acknowledge |
| KcpMachine.PackIsFaithful | crates/raynet-core/src/kcp/kcp.rs:648-688 | Cutting segments into packets loses, adds and reorders nothing, leaves no packet empty and keeps each within the MTU |
| KcpCodec.ParseInvertsEncode | crates/raynet-core/src/kcp/kcp.rs:459-495 | Parsing a packet of whole segments yields exactly those segments and no error |
| KcpCodec.FrontOfEncoded | crates/raynet-core/src/kcp/kcp.rs:100-111 | Reading back an encoded segment gives the segment, whatever follows it |
| KcpPackets.PeerPacketsParse | crates/raynet-core/src/kcp/kcp.rs:554-580 | In every run each packet that either node put on the wire fits its MTU, and `input` on the other side parses it without error into the segments that were emitted |
| KcpPackets.FlushPacketsFit | crates/raynet-core/src/kcp/kcp.rs:690-787 | The packets of one flush of either node are, joined, the segments that it emits, and each fits the MTU |
| KcpFlush.FlushInEveryRun | crates/raynet-core/src/kcp/kcp.rs:690-787 | In every run, of either node, whatever the timers say: a flush numbers queued fragments until none is left or `min(snd_wnd, rmt_wnd)` are in flight; and what a peer parses out of its packets is one ACK for each pending one, the probes asked for, and exactly the segments of the send buffer that were never transmitted or are due again, each once, with its number, `frg` and bytes, and no other |
| KcpFlush.EmittedWrites | crates/raynet-core/src/kcp/kcp.rs:690-787 | The same of what a block in any state writes, told on its fields: every segment with the conversation, the free window and `rcv_nxt`, segments of the buffer in order and stamped now |
| KcpMachine.PackIsTight | crates/raynet-core/src/kcp/kcp.rs:773-785 | No packet is closed while its next segment would still fit |
| KcpInput.InputInEveryRun | crates/raynet-core/src/kcp/kcp.rs:497-560 | In every run, whenever a packet is delivered: each PUSH from below the end of the window of that moment is acknowledged with its own number and time, new or repeated, and held from then on, and nothing else is; each segment makes the sender forget exactly the numbers below its `una` and, if it is an ACK, the number that it names unless an older one waits across the wrap; `rmt_wnd` is that of the last segment |
| KcpInput.InputAcknowledges | crates/raynet-core/src/kcp/kcp.rs:527-530 | Of any block and packet: after `input` the ACK list is the old one followed by one `(sn, ts)` for each PUSH below the window end of the moment when it was read |
| KcpInput.DeliveredIsAcknowledged | crates/raynet-core/src/kcp/kcp.rs:525-545 | After a PUSH from below the window end has been delivered, repeated or not, a peer that parses the packets of the next flush finds an ACK with its number and time |
| KcpInput.AcknowledgeForgets | crates/raynet-core/src/kcp/kcp.rs:373-399 | Which segments a segment removes from the send buffer: both directions |
| KcpInput.DrainInEveryRun | crates/raynet-core/src/kcp/kcp.rs:259-323 | In every run `recv` hands over the peer's next message exactly when every fragment of it is there, keeps all else that is held, and asks to announce the window exactly when that was closed and has opened |
| Kcp.Block.constructor | crates/raynet-core/src/kcp/kcp.rs:192-239 | A new block is in the initial state of the machine |
| Kcp.Block.MoveBuf | crates/raynet-core/src/kcp/kcp.rs:241-256 | Moves the run of next segments from buffer to queue while the window has room |
| Kcp.Block.Peek | crates/raynet-core/src/kcp/kcp.rs:298-323 | Size of the front message, or why there is none |
| Kcp.Block.Recv | crates/raynet-core/src/kcp/kcp.rs:259-296 | Hands over the front message, moves the buffer on and remembers to tell the window when it opens |
| Kcp.Block.TakeFront | crates/raynet-core/src/kcp/kcp.rs:271-283 | Takes exactly the fragments of the front message off the queue and joins them |
| Kcp.Block.SendMessage | crates/raynet-core/src/kcp/kcp.rs:325-350 | Queues the fragments of a message, all or none |
| Kcp.Block.Split | crates/raynet-core/src/kcp/kcp.rs:334-348 | The loop cuts the message into the fragments the specification says |
| Kcp.Block.ShrinkBuf | crates/raynet-core/src/kcp/kcp.rs:366-371 | `snd_una` becomes the first buffered number, or `snd_nxt` |
| Kcp.Block.ParseUna | crates/raynet-core/src/kcp/kcp.rs:391-399 | Drops acknowledged segments from the front |
| Kcp.Block.ParseAck | crates/raynet-core/src/kcp/kcp.rs:373-389 | Removes the segment named by an ACK inside the window |
| Kcp.Block.ParseData | crates/raynet-core/src/kcp/kcp.rs:427-456 | Inserts a segment at its place unless it is old, beyond the window or repeated |
| Kcp.Block.Input | crates/raynet-core/src/kcp/kcp.rs:459-580 | Applies every whole segment up to the first fault and reports that fault; which of them that acknowledges is `KcpInput.InputAcknowledges`, what else they do `KcpInput.InputInEveryRun` |
| Kcp.Block.InputOne | crates/raynet-core/src/kcp/kcp.rs:497-560 | What one segment does to both sides of the block |
| Kcp.Block.InputPush | crates/raynet-core/src/kcp/kcp.rs:525-545 | A PUSH below the end of the window adds its `(sn, ts)` to the ACK list, repeated or not, and is inserted if it is not old |
| Kcp.Block.Write | crates/raynet-core/src/kcp/kcp.rs:773-785 | Appends a segment, closing the packet first when it would not fit |
| Kcp.Block.FlushAcks | crates/raynet-core/src/kcp/kcp.rs:658-668 | Writes all pending ACKs and clears the list |
| Kcp.Block.FlushProbes | crates/raynet-core/src/kcp/kcp.rs:678-688 | Writes the probes asked for, reusing the last ACK written |
| Kcp.Block.MoveToSendBuffer | crates/raynet-core/src/kcp/kcp.rs:714-732 | Numbers queued fragments while the window has room |
| Kcp.Block.FlushData | crates/raynet-core/src/kcp/kcp.rs:742-787 | Writes the segments of the buffer that were never transmitted or are due again, each once, in order, with number, `frg` and bytes, and marks all as transmitted |
| Kcp.Block.FlushNow | crates/raynet-core/src/kcp/kcp.rs:690-787 | A flush leaves the state and writes the packets the machine says; `KcpFlush.EmittedWrites` and `KcpFlush.FlushInEveryRun` say what those carry |
| Kcp.Block.Flush | crates/raynet-core/src/kcp/kcp.rs:690-693 | Refuses to flush before the first update |
| Kcp.Block.Update | crates/raynet-core/src/kcp/kcp.rs:813-837 | Stamps the clock and flushes when the interval has passed |
| Kcp.Block.WaitSnd | crates/raynet-core/src/kcp/kcp.rs:644-646 | Counts the fragments waiting to be sent or acknowledged |
| SequenceSpec.NoStampTwice | crates/raynet-core/src/sequence.rs:105-125 | In every run whose clock never steps back and spans less than 2^25 - 705 ticks no stamp is accepted twice, although windows are forgotten and time wraps at 26 bits |
| SequenceSpec.ArriveKeepsSafe | crates/raynet-core/src/sequence.rs:105-125 | An accepted stamp was never accepted before |
| SequenceSpec.ForgetKeepsSafe | crates/raynet-core/src/sequence.rs:127-145 | Forgetting expired windows loses no stamp that could still be fresh |
| SequenceSpec.TimeDiffExact | crates/raynet-core/src/sequence.rs:161-168 | Less than half a turn apart, the modular difference is the true one |
| SequenceSpec.SpanIsExact | crates/raynet-core/src/sequence.rs:161-168 | The promise holds for all runs of at most a given span exactly when that is at most 2^25 - 705 ticks |
| SequenceSpec.TooLongAcceptsTwice | crates/raynet-core/src/sequence.rs:161-168 | A run of one tick more in which a stamp is accepted twice: its window looks half a turn old and is forgotten |
| SequenceSpec.FullTurnAcceptsTwice | crates/raynet-core/src/sequence.rs:161-168 | After a full turn of the clock a stamp is accepted again |
| SequenceSpec.YearIsInSpan | crates/raynet-core/src/sequence.rs:161-168 | A year of ticks is inside the span |
| SequenceLog.RunJudgesRightly | crates/raynet-core/src/sequence.rs:105-125 | In every run, whatever was forgotten and when: an arriving stamp is accepted if and only if its time stands for a tick at most 645 before now and 59 after, its number was not accepted from that sender since its window was last opened, and none larger by 2^20 or more was |
| SequenceLog.StampsAreRightlyJudged | crates/raynet-core/src/sequence.rs:34-57 | The same of every sequence of windows that a filter may go through |
| SequenceLog.ReorderingIsHarmless | crates/raynet-core/src/sequence.rs:35-42 | Two recent stamps of one sender within 2^20 of each other are both accepted, in either order |
| RelayRuns.RelayJudgesRightly | crates/raynet-core/src/machine.rs:102-120 | The same of every run of a relay: it admits exactly the stamps of intact packets that are recent, new since the window was opened and not 2^20 behind |
| EndpointRuns.EndpointJudgesRightly | crates/raynet-core/src/endpoint.rs:433-464 | The same of every sequence of arrivals and polls of an endpoint: exactly such messages are dispatched |
| Sequence.SequenceWindow.constructor | crates/raynet-core/src/sequence.rs:24-32 | A new window has accepted exactly its first number |
| Sequence.SequenceWindow.Insert | crates/raynet-core/src/sequence.rs:34-57 | Accepts a number exactly when it was never accepted and exceeds `max_seq_no - 2^20`; the bitmap then tells the new set |
| Sequence.SequenceWindow.ClearAfter | crates/raynet-core/src/sequence.rs:59-77 | Clears the positions of the skipped numbers, for any alignment and wrap, and no other |
| Sequence.SweptIsClearedInTurn | crates/raynet-core/src/sequence.rs:59-77 | Word-at-a-time clearing equals clearing each of the new bits in turn |
| SequenceFilter.Filter.CheckAndInsert | crates/raynet-core/src/sequence.rs:105-125 | Accepts a stamp exactly if its age is between -59 and 645 ticks and, when there is a window for its sender, its number was never accepted there and exceeds the largest less 2^20; then it is remembered |
| SequenceFilter.Filter.RemoveExpired | crates/raynet-core/src/sequence.rs:127-145 | Forgets the oldest expired windows, oldest first, until at most `cap` are left, and no other |
| SequenceFilter.RemovalIffExpired | crates/raynet-core/src/sequence.rs:127-145 | Something is removed exactly when there are more than `cap` windows and one has expired |
| SequenceFilter.Filter.NextExpiryDelayMs | crates/raynet-core/src/sequence.rs:147-158 | The least time any window still has |
| SequenceFilter.ExpiryDeadlineIsFirst | crates/raynet-core/src/endpoint.rs:284-290 | The sequence deadline is the first millisecond at which a window has expired, despite 1024 ms ticks |
| RouteTable.TableIsLowerBound | crates/raynet-core/src/routing.rs:209-236 | No allowed path arrives earlier than the table says, in either state |
| RouteTable.TraceArrives | crates/raynet-core/src/routing.rs:243-249 | Going back over the predecessors gives a path that exists and arrives when the table says |
| RouteTable.TraceIsBest | crates/raynet-core/src/routing.rs:198-252 | The traced route is connected, allowed, contains the forced edge, arrives earliest of all, earliest to each node on its way, and is the first in graph order among equally early ones |
| RouteTimes.ArrivalFollows | crates/raynet-core/src/routing.rs:223-229 | When a packet arrives, in the fields of the edges: at each it waits until `virtual_free_at`, is served for the least time in which the capacity, reduced by the loss penalty, serves its bits, and travels for `latency_ms` |
| RouteTimes.IdleArrival | crates/raynet-core/src/routing.rs:223-229 | On idle edges the time on the way is the sum of `latency_ms * 65536` and of service times; a lossless one is the least `s` with `bytes * 8 * 65536 <= capacity_kbps * s` |
| RouteTimes.SlowerByAsMuch | crates/raynet-core/src/routing.rs:282-285 | On idle edges, `d` more milliseconds on one edge of a path delay its arrival by exactly `d * 65536` |
| RouteTimes.SerializationIsService | crates/raynet-core/src/routing.rs:273-280 | The service time by its defining inequalities, with and without loss |
| RouteTimes.FasterIsPlanned | crates/raynet-core/src/routing.rs:223-235 | Of usable edges between the same nodes that differ in latency only, an ordinary plan takes the fastest, and of equally fast ones the first |
| RouteTimes.ChosenIsOut | crates/raynet-core/src/routing.rs:254-256 | No edge of a plan is in cooldown |
| RouteTable.NoEntryNoRoute | crates/raynet-core/src/routing.rs:238-241 | No entry at the destination means that there is no such route |
| RouteTable.TableAfter | crates/raynet-core/src/routing.rs:223-233 | Trying one more edge keeps the table right |
| RouteTable.OfferBounded | crates/raynet-core/src/routing.rs:207-208 | Within the stated range no computed arrival reaches the value that stands for none |
| Routing.RoutePlanner.constructor | crates/raynet-core/src/routing.rs:59-91 | Edges start idle, without loss or cooldown; zero hints become defaults |
| Routing.RoutePlanner.NewEdgeTakesHints | crates/raynet-core/src/routing.rs:64-88 | A hint is used unless it is zero, which stands for 50000 kbps and 50 ms |
| Routing.RoutePlanner.CalculatePath | crates/raynet-core/src/routing.rs:198-252 | The earliest allowed route, over the forced edge if there is one; `None` exactly when there is none; what arrival means is `RouteTimes.ArrivalFollows` |
| Routing.RoutePlanner.RelaxEdges | crates/raynet-core/src/routing.rs:216-235 | The loop over the edges of a node tries each of them |
| Routing.RoutePlanner.Backtrack | crates/raynet-core/src/routing.rs:243-250 | The loop ends and yields the traced route |
| Routing.RoutePlanner.Reserve | crates/raynet-core/src/routing.rs:258-271 | Books each edge of the route behind what it was promised; no other edge changes |
| RouteUpdate.ReservationMeetsPrediction | crates/raynet-core/src/routing.rs:258-271 | Booking the traced route makes the packet arrive at exactly the time that the search has in its table for the last node |
| RouteUpdate.BookingsKeepLog | crates/raynet-core/src/routing.rs:258-271 | Over any run of plans the service intervals booked on one edge are disjoint and in order |
| RouteUpdate.ReservedBacklog | crates/raynet-core/src/routing.rs:258-271 | A plan moves what is promised by at most one worst service time for each node |
| RouteUpdate.QueuesDrain | crates/raynet-core/src/routing.rs:258-271 | While time passes without a plan the promised services are worked off, down to none |
| RouteUpdate.DrainedHasRoom | crates/raynet-core/src/routing.rs:223-226 | However many plans it made before, a planner that is idle now can plan for at least 2^28 node services, at any time of a year, and no arrival reaches the sentinel |
| Routing.RoutePlanner.SamplingEdge | crates/raynet-core/src/routing.rs:115-142 | Among reachable edges out of cooldown the one sampled longest ago, the first in graph order of those |
| RouteFairness.SamplingIsFair | crates/raynet-core/src/routing.rs:115-142 | Over as many sample plans as the graph has edges, every edge that could be sampled at each of them lies on at least one |
| Routing.RoutePlanner.HistoryIsFair | crates/raynet-core/src/routing.rs:115-142 | The same of what a planner object has itself done since any moment of its life, if its samples before were at earlier times |
| RouteSpec.CandidateExtends | crates/raynet-core/src/routing.rs:190-195 | Every edge that may be sampled extends to a full allowed route |
| RouteSpec.CandidateExistsIff | crates/raynet-core/src/routing.rs:115-142 | There is an edge to sample unless all of the local edges are in cooldown |
| RouteSpec.RouteExistsIff | crates/raynet-core/src/routing.rs:238-241 | There is a route unless all of the local edges are in cooldown |
| Routing.RoutePlanner.BuildRoutePlan | crates/raynet-core/src/routing.rs:93-113 | No plan exactly when `cooldown_until` of all local edges lies ahead, for samples and ordinary packets alike; otherwise the best route, over edges out of cooldown, is booked and its channels returned, and of edges that differ in latency only an ordinary plan takes the fastest; as long as what is promised on the edges now leaves room below the sentinel |
| Routing.RoutePlanner.NoteLocalSendFailure | crates/raynet-core/src/routing.rs:144-159 | The first local edge on the channel loses half its distance to full loss and enters cooldown; nothing else changes |
| Routing.RoutePlanner.NoteFeedback | crates/raynet-core/src/routing.rs:161-196 | Every edge of the plan takes the result unless it knows something newer; an accepted success of the first ends its cooldown |
| RouteUpdate.PlanWalksItsPath | crates/raynet-core/src/routing.rs:161-172 | Where channels differ, the plan of a path leads back to the edges of that path |
| RouteUpdate.ObservationsMoveLoss | crates/raynet-core/src/routing.rs:144-187 | A success takes a quarter off the loss score, a failure adds a sixteenth of what is missing to 65535, a failure to send half of it, each rounded down, unless something newer is known; then nothing changes |
| RouteUpdate.LossMovesStrictly | crates/raynet-core/src/routing.rs:180-184 | A success strictly lowers a score that is not zero, a failure strictly raises one that is not within 15 of the top, a failure to send one that is not within 1 |
| RouteUpdate.SuccessesForgive | crates/raynet-core/src/routing.rs:180-181 | Successes in a row make every edge lossless |
| RouteUpdate.SuccessRestores | crates/raynet-core/src/routing.rs:190-194 | An accepted success of the first hop makes it usable at once, and its next failure costs 50 ms again |
| RouteUpdate.FeedbackReachesAll | crates/raynet-core/src/routing.rs:161-189 | The result of a sample reaches every edge of its plan that knows nothing newer, and no other edge |
| RouteUpdate.CooldownBacksOff | crates/raynet-core/src/routing.rs:156-158 | Failures in a row keep an edge out of use for 50, 100 and then always 200 ms |
| RouteSpec.PenaltyRange | crates/raynet-core/src/routing.rs:273-280 | The service penalty runs from onefold to sixteenfold |
| RouteSpec.SerializationMonotoneInLoss | crates/raynet-core/src/routing.rs:273-280 | A lossier edge is never predicted to be faster |
| RouteSpec.ServiceIsBounded | crates/raynet-core/src/routing.rs:273-285 | Upper bounds of service time and latency of one packet on one edge |
| TopoSort.BuildRoute | crates/raynet-shell/src/config.rs:179-246 | Returns a graph exactly when there are edges, one source, one sink and no cycle; it describes the same edges under a renumbering of the nodes, and every edge leads forward |
| TopoSort.CompleteIffAcyclic | crates/raynet-shell/src/config.rs:214-226 | The order is complete exactly when the named edges have no cycle |
| TopoSort.Sort | crates/raynet-shell/src/config.rs:213-225 | The loop orders every node that can be ordered, each after all that lead to it |
| TopoSort.NumberNames | crates/raynet-shell/src/config.rs:181-187 | Numbers the names without gaps or repetitions |
| TopoSort.Adjacency | crates/raynet-shell/src/config.rs:189-202 | Enters every edge at its node and counts it at its target, or finds an edge from a node to itself |
| TopoSort.OneSourceIff | crates/raynet-shell/src/config.rs:204-210 | The count of nodes without incoming edges is one exactly when one name is a source |
| TopoSort.OneSinkIff | crates/raynet-shell/src/config.rs:211-211 | The count of nodes without edges is one exactly when one name is a sink |
| TopoSort.RenumberedDescribes | crates/raynet-shell/src/config.rs:228-245 | The renumbered graph is isomorphic to the named edges, in their order |
| TopoSort.OnAWay | crates/raynet-shell/src/config.rs:179-246 | Every node is reachable from the first and reaches the last |
| TopoSort.OnlySourceOnlySink | crates/raynet-shell/src/config.rs:204-211 | Node 0 is the only source and the last node the only sink |
| Wire.EnvelopeReadsBack | crates/raynet-core/src/wire.rs:65-118 | Decoding an encoded envelope gives the envelope back |
| Wire.EnvelopeIsCanonical | crates/raynet-core/src/wire.rs:84-118 | Decoded bytes are the only encoding of what was decoded, and all fields are in range |
| Wire.EncodeWithPrefix | crates/raynet-core/src/wire.rs:65-82 | The loops write the envelope behind the prefix |
| Wire.Decode | crates/raynet-core/src/wire.rs:84-118 | The loops read an envelope, or find that there is none |
| Wire.MessageReadsBack | crates/raynet-core/src/wire.rs:150-195 | Decoding an encoded endpoint message gives it back |
| Wire.MessageIsCanonicalIff | crates/raynet-core/src/wire.rs:171-195 | Encoding a decoded endpoint message gives the bytes back exactly when nothing follows it |
| Wire.SessionReadsBack | crates/raynet-core/src/wire.rs:220-260 | Decoding an encoded session message gives it back |
| Wire.SessionIsCanonicalIff | crates/raynet-core/src/wire.rs:236-260 | Encoding a decoded session message gives the bytes back exactly when nothing follows it |
| Wire.U48Reads | crates/raynet-core/src/wire.rs:209-217 | Six bytes written for a number are read as that number |
| Wire.EnvelopeLayout | crates/raynet-core/src/wire.rs:65-82 | Where each field is in the bytes of an envelope: hops in the low six bits of the first word and the time above them, sender, number, payload, two bytes a channel, padding that tells its length |
| Wire.MessageLayout | crates/raynet-core/src/wire.rs:150-169 | Kind and reply depth in the first byte of an endpoint message, then the packet or the stamp |
| Wire.SessionLayout | crates/raynet-core/src/wire.rs:220-234 | The first byte of a session message, then its bytes or the number of its reason |
| Relay.SealOpens | crates/raynet-core/src/packet.rs:14-47 | What is sealed is opened again |
| Relay.RelayCore.ForwardPacket | crates/raynet-core/src/relay.rs:74-127 | Sends on exactly the packets that are intact, new, routed over a local channel and fit; always remembers an accepted stamp |
| Relay.ForwardsExactly | crates/raynet-core/src/relay.rs:74-127 | A packet is sent on if and only if it is intact, holds an envelope, its stamp is recent and new to the window of its sender, its first hop is a local channel, and without it, with one byte of padding, it fits the MTU |
| Relay.ForwardedIs | crates/raynet-core/src/relay.rs:101-124 | It goes over the first channel of its plan and is the same but for that hop and the padding |
| Relay.RelayCore.CheckStamp | crates/raynet-core/src/machine.rs:102-120 | Admits a new stamp and then forgets every expired window |
| Relay.RelayCore.Repack | crates/raynet-core/src/relay.rs:101-123 | Takes one hop off the plan and chooses padding within the MTU |
| Relay.NextEnvelopeFits | crates/raynet-core/src/relay.rs:112-124 | What is sent on is valid, within the relay's MTU, and differs only in plan and padding |
| Relay.JourneyPreserves | crates/raynet-core/src/relay.rs:74-127 | After any number of hops stamp and payload are unchanged, the channels taken are those of the plan, and the rest of it is left |
| Relay.FullJourneyArrives | crates/raynet-core/src/relay.rs:74-127 | After all its hops a packet arrives with an empty plan, unchanged stamp and payload |
| Relay.HopPossibleIff | crates/raynet-core/src/relay.rs:101-123 | An intact packet can be sent on by some relay exactly when its plan is not empty |
| RelayRuns.NoStampForwardedTwice | crates/raynet-core/src/relay.rs:86-93 | Over a year a relay admits, and so forwards, no stamp twice |
| Budget.LongestHops | crates/raynet-core/src/endpoint.rs:794-803 | The backward loop computes the number of hops of the longest route |
| Budget.LongestIsBound | crates/raynet-core/src/endpoint.rs:794-803 | No way to the last node has more hops |
| Budget.LongestIsReached | crates/raynet-core/src/endpoint.rs:794-803 | Some way to the last node has exactly that many hops |
| Budget.BudgetHolds | crates/raynet-core/src/endpoint.rs:112-115 | On every route a full KCP packet leaves at least the reserve for padding, and the padded packet fits the MTU |
| Budget.ReserveIsTight | crates/raynet-core/src/endpoint.rs:387-389 | A full packet on the longest route leaves exactly the reserve, so a reserve of zero would leave nothing to divide by |
| SenderSpec.BookedIsEnough | crates/raynet-core/src/endpoint.rs:376-380 | What is planned for a packet covers it on every route with the padding that is set aside; on the longest route it is exactly that |
| Transmitter.Transmitter.constructor | crates/raynet-core/src/endpoint.rs:117-149 | A new transmitter has sent nothing and waits for its first keep-alive |
| Transmitter.Transmitter.SendEnvelope | crates/raynet-core/src/endpoint.rs:368-421 | Not sent exactly when all local edges are in cooldown; otherwise one packet that opens to this payload and stamp, within the MTU, goes out on the route the planner booked, and the sample and both timers are set |
| Transmitter.Transmitter.PaddingFor | crates/raynet-core/src/endpoint.rs:386-389 | Padding is never empty and never makes the packet exceed the MTU |
| Transmitter.Transmitter.NextSequence | crates/raynet-core/src/endpoint.rs:423-431 | Numbers of one sender id are used once, and a new id starts at zero |
| Transmitter.Transmitter.SendEndpointMessage | crates/raynet-core/src/endpoint.rs:351-366 | Sends the sealed message under the next stamp |
| Transmitter.Transmitter.SendKcpPackets | crates/raynet-core/src/endpoint.rs:331-349 | The packets are sent one after the other, each under the next stamp and as a sample when one is due |
| SenderSpec.KcpSendsAre | crates/raynet-core/src/endpoint.rs:331-349 | Of KCP packets sent in one go either none is sent, all local edges being in cooldown, or each exactly once, in order, opening to its own bytes within the MTU, numbered without gaps; at most the first is a sample, and it is when one was due |
| SenderSpec.SealedReadsBack | crates/raynet-core/src/endpoint.rs:689-712 | Behind an intact seal the message is found again |
| Transmitter.Transmitter.ExpireFeedback | crates/raynet-core/src/endpoint.rs:645-658 | Samples whose deadline has come, and no others, are forgotten, and the planner is told of each, in the order of ids, that it failed |
| Transmitter.Transmitter.NoteReply | crates/raynet-core/src/endpoint.rs:489-497 | A reply settles its sample: the planner is told of a success on its plan |
| Transmitter.Transmitter.HandleSendFailed | crates/raynet-core/src/endpoint.rs:202-232 | The planner is told of the failed channel and a sample is void, so that another is due; a KCP packet is sent again on a new route under its old stamp, as a sample if it was one |
| Samples.SamplesAreBounded | crates/raynet-core/src/endpoint.rs:407-420 | In every run in which no sample is lost late, after a younger one was sent, an expiry leaves at most ceil(timeout / interval) samples outstanding |
| Samples.LateLossExceedsTheBound | crates/raynet-core/src/endpoint.rs:202-232 | A run in which two samples are lost late and sent again: six are outstanding where the timeout has four intervals |
| SenderSpec.PlannedWalks | crates/raynet-core/src/endpoint.rs:493-496 | Feedback for a stored plan always finds its edges |
| Exchanges.MessageIsSent | crates/raynet-core/src/endpoint.rs:351-421 | Every message goes out in exactly one packet that opens to it, under the next number and within the MTU, unless all local edges are in cooldown; if it is a sample, a reply to that packet is awaited until the timeout |
| Exchanges.SampleComesBack | crates/raynet-core/src/endpoint.rs:475-512 | A sample that one endpoint sends reaches the other over its relays, is answered with its own stamp, and when that reply arrives in time the planner is told that the route the sample took has succeeded, and it is awaited no more |
| Exchanges.ReplyIsSent | crates/raynet-core/src/endpoint.rs:499-511 | A message that asks for a reply gets one packet with its own stamp, unless there is no way |
| Exchanges.KeepAliveIsSent | crates/raynet-core/src/endpoint.rs:256-268 | When it is due exactly one keep-alive goes out, a sample if one is due, unless there is no way; and the next is due later |
| Exchanges.ExpiryIsTold | crates/raynet-core/src/endpoint.rs:645-658 | Each sample whose deadline has come, and only such, is awaited no more and told the planner as failed |
| Exchanges.LostIsSentAgain | crates/raynet-core/src/endpoint.rs:202-232 | The planner is told of the channel; a KCP packet goes out again with its old stamp and payload unless there is no way left, as a sample if it was one |
| EndpointSession.EndpointSession.SendMessage | crates/raynet-core/src/endpoint.rs:741-745 | Queues the message, flushes and returns the packets |
| EndpointSession.EndpointSession.InputPacket | crates/raynet-core/src/endpoint.rs:747-754 | Applies the packet, flushes, and takes out the messages it completed |
| EndpointSession.EndpointSession.Poll | crates/raynet-core/src/endpoint.rs:756-759 | Runs the timer and returns the packets |
| EndpointSession.EndpointSession.FlushNow | crates/raynet-core/src/endpoint.rs:761-765 | Runs the timer and flushes |
| EndpointSession.EndpointSession.RecvMessages | crates/raynet-core/src/endpoint.rs:778-791 | The loop takes out every complete message, in order, and then none is left |
| SessionPackets.NewPacketsFit | crates/raynet-core/src/endpoint.rs:741-765 | Whatever a session does, every packet it puts out fits the KCP MTU |
| SessionPackets.SubmitsHoldsNothing | crates/raynet-core/src/endpoint.rs:741-745 | Once a message has been submitted every pending ACK and every segment that the windows allow has been written |
| SessionPackets.ReceivesHoldsNothing | crates/raynet-core/src/endpoint.rs:747-754 | Once a packet has arrived every ACK for it has been written, and no complete message is left behind |
| EndpointSpec.DeedWaits | crates/raynet-core/src/kcp/kcp.rs:644-646 | Only an accepted message adds to `wait_snd`, only an arriving packet takes from it |
| EndpointSpec.DeedIsMove | crates/raynet-core/src/endpoint.rs:741-765 | What a session does to its KCP is a move of a node of the pair |
| EndpointSpec.OperationsAreLogged | crates/raynet-core/src/endpoint.rs:741-765 | Sending, receiving and polling do to the KCP exactly what the session's log of deeds says |
| Sessions.SessionSet.SessionOpen | crates/raynet-core/src/endpoint.rs:167-176 | A fresh id becomes an open session whose only message is Open; the packets are all that its KCP put out |
| Sessions.SessionSet.SessionWrite | crates/raynet-core/src/endpoint.rs:177-192 | All or nothing: refused exactly when the fragments would exceed the send window, else one message more and the packets that its KCP put out |
| Sessions.SessionSet.SessionClose | crates/raynet-core/src/endpoint.rs:193-201 | Starts the local close, and queues Close now if the window has room; the packets are those of the Close |
| Sessions.SessionSet.QueueLocalClose | crates/raynet-core/src/endpoint.rs:307-329 | Queues a deferred Close as soon as the window has room, once, and not after the deadline; the packets are those of the Close |
| Sessions.SessionSet.FinishClosedSession | crates/raynet-core/src/endpoint.rs:607-639 | Removes a session whose close is complete or whose time is up |
| Sessions.SessionSet.HandleKcpPacket | crates/raynet-core/src/endpoint.rs:514-551 | Drops packets for tombstones and foreign senders; the others are answered with exactly what the KCP, and then a deferred Close, put out, and their messages handled in order |
| Sessions.SessionSet.HandleSessionMessage | crates/raynet-core/src/endpoint.rs:553-605 | What each message does in each phase; over runs that is `SessionStory.MessagesDecide` |
| Sessions.SessionSet.ExpireSequences | crates/raynet-core/src/endpoint.rs:660-683 | Resets and buries every session of a forgotten sender |
| Sessions.SessionSet.ExpireTombstones | crates/raynet-core/src/endpoint.rs:244-245 | Removes the tombstones whose time has come |
| Sessions.SessionSet.PollSessions | crates/raynet-core/src/endpoint.rs:246-255 | Visits every session in order and returns the packets of all visits |
| Sessions.SessionSet.PollOne | crates/raynet-core/src/endpoint.rs:247-254 | Queueing a deferred Close never removes the session that is polled next; its packets come before those of the timer |
| SessionSafety.PollStepKeepsTable | crates/raynet-core/src/endpoint.rs:247-254 | The lookup after queueing a deferred Close always succeeds |
| SessionSafety.QueueKeepsTable | crates/raynet-core/src/endpoint.rs:307-329 | After queueing, a session that could finish in time has its Close queued |
| SessionSafety.PacketKeepsTable | crates/raynet-core/src/endpoint.rs:514-551 | Every arriving packet keeps every session sound, its window bound and the trace lawful |
| SessionRest.PollRemovesIff | crates/raynet-core/src/endpoint.rs:246-255 | A poll removes exactly the sessions whose close deadline has come |
| SessionRest.QuietVisited | crates/raynet-core/src/endpoint.rs:246-255 | Before the first close deadline a poll leaves every session where it stands: none is removed, told or buried |
| SessionRest.VisitRemovesIff | crates/raynet-core/src/endpoint.rs:607-639 | A visit removes its session exactly when its deadline has come: a session that waits to be closed still has something to send |
| SessionStory.MessagesDecide | crates/raynet-core/src/endpoint.rs:553-605 | In every run, of every session, by the messages that its KCP has handed over: entered by a peer it waits exactly until the first, which was Open, and `OpenSession` was told right after its entry, once; while the shell has not closed it, it is open without a deadline exactly until the first Close, whose own reason was told, and its deadline counts from then; a local close begins a deadline of its own |
| SessionStory.SessionsStay | crates/raynet-core/src/endpoint.rs:553-639 | No session leaves without a reason: one that is not closing locally stays through every event while its time is not up and its sender not forgotten; only a waiting one can be given up for what comes, and only if its first message is not Open |
| SessionStory.UnwelcomeLeaves | crates/raynet-core/src/endpoint.rs:577-580 | A first message other than Open ends a waiting session, unseen by the shell and without a tombstone |
| SessionStory.PacketIsTaken | crates/raynet-core/src/endpoint.rs:514-551 | A packet from its own sender is given to its session, and one for an unknown id that is not buried makes a session; what it completes is taken out |
| SessionStory.StrangersAreIgnored | crates/raynet-core/src/endpoint.rs:522-540 | A packet for a buried id or from another sender changes nothing and is not answered |
| SessionStory.CloseIsBegun | crates/raynet-core/src/endpoint.rs:193-201 | A local close keeps its reason and starts its deadline; Close is sent at once exactly if the window has room |
| SessionStory.VisitRunsTimer | crates/raynet-core/src/endpoint.rs:246-255 | A visit of a poll runs the KCP timer of its session: when it is due everything is flushed that is due |
| SessionStory.VisitIsReturned | crates/raynet-core/src/endpoint.rs:246-255 | A visit returns every packet that its session puts out |
| SessionStory.AnswerIsReturned | crates/raynet-core/src/endpoint.rs:514-551 | An arriving packet is answered with every packet that its session puts out |
| SessionRuns.EveryRun | crates/raynet-core/src/endpoint.rs:160-268 | In every run of events each session is sound, the trace lawful, each close that finished in time graceful, no session was given a packet that had not come for it, and each stands where the messages it has got and its shell have put it, with the data written that came before the first Close |
| SessionTable.EvictPeersLeaves | crates/raynet-core/src/endpoint.rs:660-683 | Exactly the sessions bound to forgotten senders are gone, and no other has changed |
| SessionTable.FitIsLawful | crates/raynet-core/src/endpoint.rs:553-639 | In every reachable state the trace obeys the life of a session |
| SessionTrace.WritesOnlyWhileOpen | crates/raynet-core/src/endpoint.rs:572-576 | `WriteSession` occurs only after the session became visible and before any close |
| SessionTrace.ClosedBeforeLeaving | crates/raynet-core/src/endpoint.rs:616-638 | A session the shell has seen is told closed before it leaves, and is buried |
| SessionTrace.ReopenedOnlyAfterTombstone | crates/raynet-core/src/endpoint.rs:522-532 | No session is opened under an id sooner than the tombstone time after its last one was buried |
| GracefulClose.CloseReachesPeer | crates/raynet-core/src/endpoint.rs:616-638 | A session of the table that closed locally and finished before its deadline sent Close as its last message; however its logged deeds interleave with a genuine peer's, the peer accepted every segment up to and including it |
| EndToEnd.GracefulInEveryRun | crates/raynet-core/src/endpoint.rs:193-200 | The same in every run of the session table, whose sessions are given only packets that came for them |
| EndToEnd.BytesArriveInOrder | crates/raynet-core/src/endpoint.rs:572-576 | In every run of the session table the chunks of bytes written to the shell for a session are the first of the chunks that its peer was given to send; while it is open, all that arrived |
| SessionStream.HandleStreams | crates/raynet-core/src/endpoint.rs:553-605 | Handling a message writes its bytes exactly if it is Data and the session is open, and moves the session on as its messages so far say |
| SessionSafety.EveryWriteIsTakenIff | crates/raynet-core/src/endpoint.rs:177-192 | Every write of at most 65535 bytes is accepted by KCP and not refused by an idle session exactly when the configuration meets the inequalities of DESIGN.md:505-512 |
| EndToEnd.KcpPacketArrives | crates/raynet-core/src/endpoint.rs:331-366 | A KCP packet that is sent, once relays have passed it on, is found by the other endpoint as exactly the segments that were put out, for the same conversation |
| EndToEnd.KcpPacketIsGiven | crates/raynet-core/src/endpoint.rs:475-488 | A KCP packet that counts is given to the session of its conversation, segment by segment, and what it completes is taken out |
| GracefulClose.DeedsAreARun | crates/raynet-core/src/endpoint.rs:741-765 | The deeds of a session are one side of a run of the pair |
| Endpoint.EndpointCore.AcceptPacket | crates/raynet-core/src/endpoint.rs:433-464 | Seals, empty plan and stamp are checked in this order; a packet that fails an earlier check leaves no trace in the filter |
| Endpoint.EndpointCore.HandleTransportPacket | crates/raynet-core/src/endpoint.rs:433-512 | A packet that does not count leaves sessions and sender alone; otherwise its message is dispatched and then answered under its stamp.  The filter has admitted its stamp exactly when its seals were intact and its plan empty; the clock has not passed the call, and the room left is known |
| Endpoint.EndpointCore.NeverDispatchedTwice | crates/raynet-core/src/endpoint.rs:433-464 | Of all packets that an endpoint has received in its life, with all polls in between, it has dispatched no stamp twice |
| Endpoint.EndpointCore.DispatchedRightly | crates/raynet-core/src/endpoint.rs:433-464 | And it has dispatched every message that came intact, recent and new, and no other |
| EndpointRuns.NoStampDispatchedTwice | crates/raynet-core/src/endpoint.rs:433-464 | The same of every sequence of arrivals and polls within the span |
| Endpoint.EndpointCore.Dispatch | crates/raynet-core/src/endpoint.rs:475-498 | A KCP packet goes to its session and what that puts out is sent; a reply settles its sample with the planner; a keep-alive does nothing |
| Endpoint.EndpointCore.Reply | crates/raynet-core/src/endpoint.rs:499-511 | A message that asks for a reply gets one, itself a sample if one is due and the exchange is less than three deep |
| Endpoint.EndpointCore.Transmit | crates/raynet-core/src/endpoint.rs:331-349 | Sends what the sessions put out, encoded and in order: all of it, each packet exactly once, or nothing when there is no way |
| Endpoint.EndpointCore.NextDeadline | crates/raynet-core/src/endpoint.rs:270-292 | No later than any deadline, and one of them unless there is none |
| Endpoint.EndpointCore.Poll | crates/raynet-core/src/endpoint.rs:241-268 | Gives up what has expired and tells the planner of failed samples, visits every session, sends what they put out, and a keep-alive if one is due; the room left is known |
| Endpoint.EndpointCore.KeepAlive | crates/raynet-core/src/endpoint.rs:256-268 | A keep-alive is sent exactly when it is due, as a sample when one is, and then not again for the interval |
| Deadlines.DueIffDeadline | crates/raynet-core/src/endpoint.rs:270-292 | Without an event something becomes due exactly when the first deadline known now has come |
| Endpoint.EndpointCore.DeadlinesAreExact | crates/raynet-core/src/endpoint.rs:270-292 | The same for an endpoint in its year of life: no window gets so old that its age wraps |
| EndpointRuns.WindowsStayYoung | crates/raynet-core/src/sequence.rs:127-159 | Within the span no window is older than half a turn of the clock |
| Deadlines.QuietUntil | crates/raynet-core/src/endpoint.rs:270-292 | Nothing is due before a time that no deadline precedes; at a deadline something is |
| Deadlines.QuietPoll | crates/raynet-core/src/endpoint.rs:241-255 | With nothing due a poll gives up no sample, sender, session or tombstone, tells the planner and the shell nothing, and only runs KCP |
| Polls.PollLeavesNothingDue | crates/raynet-core/src/endpoint.rs:241-292 | After a poll nothing is due at its time any more: no session, tombstone, sample, sender or keep-alive |

## Left out

* Congestion control, RTT estimation and fast-retransmit counters of KCP: congestion control is
  always off, and which segments are resent in a flush is any set, given as an input.  So is
  whether the flush interval and the probe timer have passed, and the answer of `check`.
* Fairness of the network and of the timers: `KcpProgress.NeverStuckIff` says that a run can always be
  finished, not that it will be.
* AEGIS and BLAKE3: a packet is what was sealed and whether its seal is intact.  The random stream:
  random values are arbitrary.
* Metrics counters, the tests and the simulator, sockets, SOCKS5, command line and TOML loading.
* The bitmap's 64-bit words are sequences of 64 bits; shifts and masks are positions in them.
* A hash map has no order: which of several equally old windows is forgotten first is left open.
* The order among sends and session actions of one call: sessions report to a trace, sends go to a
  list of their own, and the sessions return the KCP packets that `Transmit` sends when they are
  done, where the original sends them in the middle.  The shell's three session events are
  `SessionSet`'s handlers, each to be followed by `Transmit`.
* EndpointCore keeps its sessions by value: `Sessions` holds them in a map, and
  `EndpointSession` shows that a session object around its KCP block does the same to them.
* Sequence numbers and ids of the endpoint are natural numbers; KCP's numbers are 32-bit words.
  Times are natural numbers; a planner is asked only while what its edges are promised at that
  moment leaves its times below 2^64.  `RouteUpdate.ReservedBacklog` says how far a plan moves them,
  `RouteUpdate.QueuesDrain` and `RouteUpdate.DrainedHasRoom` how they come back.
* Panics of the original are preconditions where the shell or a genuine peer rules them out: an
  unknown session, a message that cannot be decoded, a KCP packet of another conversation.
* KcpTheorems.OrderedExactlyOnce: asks that a delivered packet is less than half the number space
  (less 2^16) old, because an older one is indistinguishable from a new one.
* SequenceSpec.NoStampTwice: asks for a span that covers the life of one instance (DESIGN.md:899);
  `SequenceSpec.SpanIsExact` shows that no longer one will do.
* Deadlines.DueIffDeadline: does not cover KCP's own timers.
* Routing.RoutePlanner.NoteFeedback: asks for a plan that leads along edges; every stored plan does
  when the channels of a node differ (`SenderSpec.PlannedWalks`).
* Kcp.Block.FlushData: which transmitted segments are due again is a given set, because KCP's
  retransmission timing is left open in every result.
* Kcp.Block.Update: whether the flush interval has passed is given, for the same reason.
* Sessions.SessionSet.SessionOpen: asks that the next id is in no session and under no tombstone.
* Wire.EncodeWithPrefix: asks for at most 63 hops; more would not fit the six bits of the header.
