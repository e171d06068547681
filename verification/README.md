# eRPC: a verified model

eRPC is a client/server RPC library over an unreliable packet network. This project models its datapath
protocol, its session management, and the data structures that it and its applications rely on, and proves
what they promise over all inputs and all runs. Source line numbers below are those of the C and C++ files.

**Datapath.** `Datapath` gives each packet handler as a function on client and server slots. `Session` joins a
client, a server and a network into a state machine: the network is the set of packets ever sent, so loss is
never delivering, duplication is delivering again, and any order is possible. A TX batch item that the source
fills with a pointer stays a reference whose bytes are read when the batch is sent. `SlotInvariant` and
`SessionInvariant` state the invariant that ties the two ends together; `ClientSlotSteps`, `ServerSlotSteps`,
`SharedQueues`, `ClientSteps` and `SessionSteps` prove that every step keeps it; `Theorems` and `Asserts` draw
the conclusions. `ClientEffects` and `ServerEffects` say what each step does, in terms of messages, packets,
credits and queues, `Recovery` shows that no reachable session is stuck, and `LossScan` says which requests the
loss scan retransmits. `ClientRpc` and `ServerRpc` are the imperative handlers and the event loop, proved to be
runs of that state machine. Window, credits and packet size are arbitrary positive constants, and whether a
packet bypasses the wheel is an arbitrary choice in the state machine.

The handler functions are total: where the source dereferences a pointer or subtracts without a check, the
function has some value, and `Asserts` proves that no reachable world gets there. Three asserts depend on what
the application sends and on memory: `AssertsExactly` says exactly when a step meets them. A message that is too
large is handled like any other; a request whose buffer cannot be allocated leaves the slot as it was. Which
request types have background handlers is an arbitrary set. `ActiveList` is the doubly linked list of active
slots.

**Timing wheel and pacing.** `WheelSpec` is a wheel as a list of slots, `WheelRuns` its runs, `Pacing` the
sessions that feed it, `WheelUnits` its dimensions in cycles, and `TimingWheel` the circular bucket array with
chains and a pool, proved to refine `WheelSpec`. `PacedSessions` joins the datapath of any number of sessions to
one wheel. Floating-point numbers of the source are real numbers here.

**B+ tree.** `TreeShape` has the tree as a value, `TreeNodes` its layout in numbered nodes, `BPlusTree` the
in-place algorithms.

**HugeAlloc and MsgBuffer.** `SizeClasses`, `HugeAlloc`, `MsgBuffers`. Addresses are counted: each reserved
address is in exactly one free or outstanding buffer.

**Session management.** `SessionMgmt` gives handlers and the state machine of any number of Rpcs,
`SessionMgmtProof` and `SessionMgmtSteps` the invariant, `SessionMgmtTheorems` and `SessionMgmtProgress` the results,
`SessionMgmtRpc` the imperative handlers.

**Logs and table.** `RaftLog` and `PmemLog` are the Raft log ring and its persistent mirror, `Pmica` the
persistent hash table.

Every lemma turns automatic induction off; each inductive proof is written out.

## Assumptions

- A slot carries fewer than 2^44 requests, the width of the request number in a packet header.
- Each request handler calls `enqueue_response` exactly once, with a response that fits the client's buffer.
- Request types are registered and are not `kInvalidReqType`.
- The bytes of a packet are those its buffer has when `do_tx_burst_st` sends it.
- Session tokens are unique. An Rpc that has registered stays registered.
- Timestamps do not decrease. Pacing gaps are at most a constant, which `WheelUnits` sets to the largest packet at the
  lowest rate.
- The system hands out memory regions that overlap no region it handed out before; the persistent log file is
  large enough.

## Where the code and its own words differ

- `src/rpc_impl/rpc_connect_handlers.cc:168` says that the server allocated nothing when it answered with an
  error. A repeated connect request can be accepted after the first was refused: `ErrorsCanOrphan` gives the
  run. `NewOrphansExactly` says exactly when a step leaves a server session without its client, and
  `OrphansStay` that it then stays for good.
- `src/cc/timing_wheel.h:151` asserts that an insert within the horizon stays within the wheel. `HorizonFits`
  gives the exact condition over all runs, and `AssertExactly` says for which clock frequencies and packet sizes
  the rounded constants meet it. Paced packets need less: `InsertsPassExactly` and `PacingExactly` give the exact
  condition for them, and `RoundingOverflows` a run of a session that fails it.
- `src/rpc_impl/rpc_rx.cc:33` asserts that a message is at most `kMaxMsgSize`, but nothing stops an application
  from sending a larger one that the allocator grants: `SizeCanFail`, `OneTooLarge`.
- `src/rpc_impl/rpc_req.cc:220` asserts that the buffer of a request was allocated, and
  `src/rpc_impl/rpc_req.cc:147` copies into one without a check, although `alloc_msg_buffer` may return none:
  `AllocationCanFail`. It also asserts that the size is not zero, while `src/rpc_impl/rpc_rx.cc:33` says it can be:
  `EmptyCanFail`.
- `src/rpc_impl/rpc_disconnect_handlers.cc:59` says that ring entries are freed before the disconnect request is sent.
  They are freed when its response comes: `DisconnectRespMeans`.
- `src/rpc.h:623` says that the wheel is not bypassed while it has packets for the session. The test is of the slot
  alone, and so is `KickReq`.
- Entries with equal desired times can leave the wheel in either order: `EqualTimesCanSwap` gives a run, and
  `LeavesFirst` and `InOrder` say exactly when it happens.

## Model

| member | source | states |
|---|---|---|
| `Theorems.ExecutedAtMostOnce` | src/rpc_impl/rpc_req.cc:78-255 | In every reachable world each request number has at most one handler invocation over all slots, invocations of a slot are in increasing order, and the type and bytes the handler saw are those the client enqueued. |
| `Theorems.ContinuationSeesItsResponse` | src/rpc_impl/rpc_resp.cc:73-170 | Each continuation runs at most once and in order; the response it was given is, in size and bytes, the one its handler enqueued for that request number, and that handler did run. |
| `Theorems.ExactlyOnce` | src/rpc_impl/rpc_resp.cc:131-162 | A request that is no longer active was executed and its continuation ran; with the two rows above, exactly once. |
| `Theorems.ResponseIsFinal` | src/rpc_impl/rpc_resp.cc:60-67 | No step changes or forgets the response recorded for a request number. |
| `Theorems.WireIsTrue` | src/rpc.h:811-832 | Every request or response packet ever put on the wire carries the number, size and bytes of the message it belongs to, although a batch item is only a reference that is read when the batch is sent. |
| `Theorems.Lockstep` | src/rpc_impl/rpc_req.cc:111-129 | The server's request number is the client's or exactly one window behind; when behind, the client has an active request with nothing received; when equal, the client is never ahead of what the server received. |
| `Theorems.DisconnectChecksPass` | src/rpc_impl/rpc_disconnect_handlers.cc:37-49 | When every client slot is free, each server slot has its request buried, no handler pending, and has received request plus response packets minus one. |
| `Asserts.AssertsFromInvariant` | src/rpc_impl/rpc_req.cc:111-129 | The invariant implies the protocol asserts of every handler at the point where a step calls it: request numbers, credits, RFR ranges, wheel counts, buried buffers, stall queue membership, buffer bounds of copies. |
| `Asserts.AssertsExactly` | src/rpc_impl/rpc_rx.cc:33-85 | In a reachable world an enabled step meets all asserts of the code it runs, those on message size and allocation included, if and only if the message it receives is at most kMaxMsgSize and, where a new request needs its own buffer, is not empty and gets memory. |
| `Asserts.SizeCanFail` | src/rpc_impl/rpc_rx.cc:33 | That can fail: a run in which a request one byte larger than kMaxMsgSize arrives. |
| `Asserts.AllocationCanFail` | src/rpc_impl/rpc_req.cc:219-220 | So can the assert on the request buffer: a run in which a two-packet request finds no memory. |
| `Asserts.EmptyCanFail` | src/rpc_impl/rpc_req.cc:145-150 | So can the assert of alloc_msg_buffer: a run in which an empty request arrives for a background handler. |
| `Theorems.CreditsConserved` | src/rpc.h:835-839 | Credits plus the packets outstanding over all slots equal kSessionCredits always, so no slot's window exceeds the credits that are out, and an inactive slot has none outstanding. |
| `Theorems.NothingForgotten` | src/rpc_impl/rpc_pkt_loss.cc:16-61 | An active request is in the active list and either has unacknowledged packets or waits once in the stall queue with nothing sent. |
| `Recovery.NeverStuck` | src/rpc_impl/rpc_pkt_loss.cc:12-128 | From every reachable world, even if everything in flight is lost, and whatever fitting responses the handlers give, there is a run in which the application enqueues nothing, only packets sent in that run arrive and every handler gives that response, after which all slots are free, the backlog is empty and the continuation of every request sent has run. |
| `Recovery.RoundTrip` | src/rpc_impl/rpc_pkt_loss.cc:98-127 | While a request is active, some request can be timed out, retransmitted and answered as its handler chooses, which leaves fewer packets to do over all slots and the backlog, and forgets no request. |
| `Recovery.AskServed` | src/rpc_impl/rpc_req.cc:159-254 | The server, in any state the invariant allows, meets the client's first unacknowledged packet with the credit return or response packet that acknowledges it, or has the handler running that will give it. |
| `Recovery.StalledBehindAnother` | src/rpc_impl/rpc_queues.cc:6-20 | If the drain leaves the stall queue non-empty, credits are zero and another active request has unacknowledged packets; without any packet arriving, a run leads to a loss scan that is enabled for it, with none of its packets in the wheel. |
| `Theorems.RetransmissionResends` | src/rpc_impl/rpc_pkt_loss.cc:98-127 | A rollback never lowers num_tx and queues the first unacknowledged packet again: a request packet in the batch or the wheel, or an RFR in the batch. |
| `Theorems.WheelAccounting` | src/rpc.h:787-789 | A slot's wheel entries are unacknowledged packets of its current request with distinct credit indices; wheel_count_ equals their number and the number of set flags, and a flag is set if and only if an entry has its index. |
| `Theorems.WheelHoldsCredits` | src/rpc_impl/rpc_kick.cc:12-26 | Packets in the wheel plus free credits are at most kSessionCredits: each wheeled packet holds a credit. |
| `Theorems.BufferFreeAtCompletion` | src/rpc_impl/rpc_resp.cc:131-140 | When a continuation fires, no TX batch item refers to the request buffer, no wheel entry names the slot and wheel_count_ is zero. |
| `Theorems.CompletionMeansLast` | src/rpc_impl/rpc_resp.cc:120-129 | A continuation fires only on an in-order response packet that is the last of request plus response packets. |
| `Theorems.BufferFreeAtBurial` | src/rpc.h:510-522 | When the server moves to a new request, burying its old response, no TX batch item refers to that response. |
| `Theorems.ReferencesLive` | src/rpc.h:721-745 | The next item of either TX batch always refers to a live buffer, so a burst always sends it. |
| `Theorems.RequestsInOrder` | src/rpc_impl/rpc_req.cc:27-50 | Requests take slots in the order of their enqueue_request calls, a backlog means no slot is free, and the free vector and the active list hold exactly the inactive and the active slots, each once; the links that make up the list are in the ActiveList rows. |
| `ActiveList.AddLinks` | src/rpc.h:639-647 | The four link updates append the slot to the list that the links make up between the sentinels, in both directions. |
| `ActiveList.DeleteLinks` | src/rpc.h:650-653 | The two link updates take the slot, and nothing else, out of it. |
| `ActiveList.WalkVisits` | src/rpc.h:636-653 | Following the links from the root sentinel to the tail sentinel visits exactly the slots of the active list, in order. |
| `ClientEffects.CreditReturnSpends` | src/rpc_impl/rpc_cr.cc:27-51 | In every reachable world a credit return that acknowledges the first unacknowledged packet brings a credit back, stamps progress, and sends min(credits, pending) further request packets at the end of the batch or the wheel; any other credit return changes nothing. |
| `ClientEffects.InOrderAcks` | src/rpc.h:574-594 | The flag test of in_order_client passes if and only if the packet acknowledges the first unacknowledged packet of the slot's request and that packet is not in the wheel. |
| `ClientEffects.ResponseAsksOn` | src/rpc_impl/rpc_resp.cc:73-129 | A response packet that acknowledges the next packet but not the last of all brings a credit back and sends min(credits, remaining) requests-for-response, numbered on from num_tx. |
| `ClientEffects.LastCompletes` | src/rpc_impl/rpc_resp.cc:120-168 | The one that acknowledges the last of all gives the continuation the handler's response and frees the slot; with a backlog, its first request starts in that slot and is sent with the credits there are. |
| `ClientEffects.OthersIgnored` | src/rpc_impl/rpc_resp.cc:78-87 | A response packet that does not acknowledge the next packet changes nothing. |
| `ClientEffects.EnqueueStarts` | src/rpc_impl/rpc_req.cc:10-75 | A request takes the last free slot under the next request number and min(credits, packets) of its packets are sent; without credits it joins the stall queue, without a free slot the backlog. |
| `ClientEffects.UnstalledStarts` | src/rpc_impl/rpc_queues.cc:6-20 | The head of the stall queue leaves it and min(credits, packets) of its packets are sent from the first on. |
| `ClientEffects.ReapedMoves` | src/rpc_impl/rpc_queues.cc:29-52 | A packet that leaves the wheel is at the end of the batch, as that packet of its slot's request. |
| `ClientEffects.BurstSends` | src/rpc.h:811-832 | Exactly the packet that the first batch item stands for is added to the wire. |
| `ClientEffects.LossSendsAgain` | src/rpc_impl/rpc_pkt_loss.cc:83-128 | A retransmission takes back the credits of all unacknowledged packets and sends min(credits, remaining) packets from the first of them on; with packets of the slot in the wheel it changes nothing. |
| `ServerEffects.OldIgnored` | src/rpc_impl/rpc_req.cc:91-95 | A packet of a request that the server has moved past changes nothing. |
| `ServerEffects.RepeatAnswered` | src/rpc_impl/rpc_req.cc:96-108 | A packet received before is acknowledged again: by a credit return, or, if it is the last, by the first response packet with a drain, if there is a response. |
| `ServerEffects.NextTaken` | src/rpc_impl/rpc_req.cc:159-254 | The next packet of the current request is stored and, unless it is the last, acknowledged by a credit return; the last invokes the handler on the bytes that the client enqueued; a packet out of turn is dropped. |
| `ServerEffects.NewTaken` | src/rpc_impl/rpc_req.cc:111-152 | The first packet of the next request, memory permitting where it is needed, buries the old response and moves the server on: a one-packet request goes to its handler, otherwise a credit return goes out; other packets of it are dropped. |
| `ServerEffects.RfrAnswered` | src/rpc_impl/rpc_rfr.cc:29-68 | A request-for-response of the current request is answered with the response packet it names: the next one, or an earlier one with a drain; one out of turn or of an older request is dropped. |
| `ServerEffects.RespondSends` | src/rpc_impl/rpc_resp.cc:19-69 | A handler's answer is recorded for its request and its first packet is at the end of the batch. |
| `ServerEffects.BurstSends` | src/rpc.h:811-832 | Exactly the packet that the first batch item stands for is added to the wire: its credit return, or that packet of the recorded response. |
| `SessionSteps.StepOk` | src/rpc_impl/rpc_ev_loop.cc:15-35 | Every step of the client event loop, the server and the network keeps the cross-endpoint invariant. |
| `SessionSteps.ReachableOk` | src/session.h:65-99 | The invariant holds in every world reachable from two fresh sessions. |
| `Messages.SlotOfIsMod` | src/rpc_impl/rpc_rx.cc:62 | The slot of a request number is its remainder modulo the window. |
| `Messages.CreditIdxIsMod` | src/rpc.h:586-587 | The credit index of a packet is its number modulo kSessionCredits. |
| `Messages.CreditIdxDistinct` | src/rpc.h:586-590 | Different packets less than a credit window apart have different credit indices. |
| `Messages.NumPktsCover` | src/rpc.h:601-604 | data_size_to_num_pkts is enough packets for the data, and one packet fewer is not. |
| `Messages.HoldsStep` | src/rpc.h:842-848 | Copying packet k into a buffer that holds the first k packets of a message makes it hold the first k + 1, last short packet included. |
| `Messages.HoldsAll` | src/rpc.h:842-848 | A buffer that holds all packets of a message holds exactly its bytes. |
| `ClientRpc.Endpoint.constructor` | src/session.h:77-98 | The loop that builds slots and free vector gives the initial client of the state machine. |
| `ClientRpc.Endpoint.KickReq` | src/rpc_impl/rpc_kick.cc:6-27 | The loop sends min(credits, pending) request packets in order, taking one credit each: to the batch without pacing, or when the bypass is allowed, the slot has nothing in the wheel and the session is uncongested, and otherwise to the wheel. |
| `ClientRpc.Endpoint.KickRfr` | src/rpc_impl/rpc_kick.cc:33-50 | The loop sends min(credits, pending) RFRs numbered from num_tx, one credit each; its asserts are preconditions. |
| `ClientRpc.Endpoint.EnqueueRequest` | src/rpc_impl/rpc_req.cc:10-75 | Backlogs the request, or starts it in the last free slot and kicks or stalls it, as the state machine does. |
| `ClientRpc.Endpoint.Enqueue` | src/rpc_impl/rpc_req.cc:22-75 | An application call is an Enqueue step. |
| `ClientRpc.Endpoint.ProcessCr` | src/rpc_impl/rpc_cr.cc:27-51 | Drops an out-of-order credit return; otherwise takes the credit and kicks pending request packets. What that sends is in ClientEffects.CreditReturnSpends. |
| `ClientRpc.Endpoint.StoreMulti` | src/rpc_impl/rpc_resp.cc:110-125 | Sizes the response on its first packet, sends remaining RFRs, copies the data at its index. |
| `ClientRpc.Endpoint.Complete` | src/rpc_impl/rpc_resp.cc:138-168 | Frees the slot, starts the first backlogged request if any, records the continuation with the response. |
| `ClientRpc.Endpoint.ProcessResp` | src/rpc_impl/rpc_resp.cc:73-170 | Drop, single-packet completion, multi-packet store or completion, as the state machine does. |
| `ClientRpc.Endpoint.Receive` | src/rpc_impl/rpc_rx.cc:33-85 | Dispatching a delivered packet is a ClientRx step, and the result says whether the assert on its size held. |
| `ClientRpc.Endpoint.ReceiveOne` | src/rpc_impl/rpc_rx.cc:18-86 | From a reachable world, receiving any packet on the wire is exactly one ClientRx step of that packet, keeps the active list linked, and reports success if and only if all asserts of that step hold. |
| `ClientRpc.Endpoint.AddToActiveRpcList` | src/rpc.h:639-647 | Linking a slot that is not listed appends it to the active list. |
| `ClientRpc.Endpoint.DeleteFromActiveRpcList` | src/rpc.h:650-653 | Unlinking a listed slot removes exactly it. |
| `ClientRpc.Endpoint.ProcessComps` | src/rpc_impl/rpc_rx.cc:6-91 | A received burst is a run of one ClientRx step per packet, in order, which reports success if and only if every packet was at most kMaxMsgSize. |
| `ClientRpc.Endpoint.KickStalledHead` | src/rpc_impl/rpc_queues.cc:11-13 | One turn of the stall queue loop that finds a credit is exactly one Unstalled step. |
| `ClientRpc.Endpoint.ProcessCreditStallQueue` | src/rpc_impl/rpc_queues.cc:6-20 | The in-place compaction loop is a run of Unstalled steps only; it takes as many slots off the front of the queue as there are steps and ends with an empty queue or no credits. |
| `ClientRpc.Endpoint.ReapFront` | src/rpc_impl/rpc_queues.cc:29-52 | One turn of the ready queue loop is a Reaped step: packet to the batch, flag and count down. |
| `ClientRpc.Endpoint.ProcessWheel` | src/rpc_impl/rpc_queues.cc:23-53 | Draining the ready packets is a run of exactly that many Reaped steps, and takes them off the front. |
| `ClientRpc.Endpoint.DoTxBurst` | src/rpc.h:811-832 | Sending the batch is a run of one ClientBurst step per item, which empties it. |
| `ClientRpc.Endpoint.PktLossRetransmit` | src/rpc_impl/rpc_pkt_loss.cc:83-128 | Ignores a request with packets in the wheel, otherwise rolls back and kicks, as the state machine does. |
| `ClientRpc.Endpoint.ScanSlot` | src/rpc_impl/rpc_pkt_loss.cc:18-60 | A slot whose num_tx and num_rx differ and whose progress is more than rpc_rto_cycles ago is retransmitted and the batch drained, step for step; any other slot is left alone, and so are all other slots. |
| `ClientRpc.Endpoint.PktLossScan` | src/rpc_impl/rpc_pkt_loss.cc:12-61 | The walk along the links retransmits exactly the active slots whose num_tx and num_rx differ and whose progress is more than rpc_rto_cycles ago when it begins, in list order, each followed by its drain. |
| `LossScan.DueDetected` | src/rpc_impl/rpc_pkt_loss.cc:16-61 | A scan detects a loss in a listed slot if and only if its num_tx and num_rx differ and more than rpc_rto_cycles have passed since its progress. |
| `LossScan.ScanResends` | src/rpc_impl/rpc_pkt_loss.cc:12-128 | In the run of a turn whose scan detects the loss of a request with nothing in the wheel, the first unacknowledged packet of that request goes on the wire again, or is in the wheel. |
| `ClientRpc.Endpoint.ProcessBgRequests` | src/rpc_impl/rpc_queues.cc:56-67 | Requests from background threads are a run of one Enqueue step each, in order, and are all recorded. |
| `ClientRpc.Endpoint.StampClock` | src/rpc_impl/rpc_ev_loop.cc:15 | Reading a clock that has not gone back is exactly one Tick step to that time. |
| `ClientRpc.Endpoint.TransmitStages` | src/rpc_impl/rpc_ev_loop.cc:18-22 | Stall queue, wheel and burst are run in that order, step for step; the batch ends up empty, and the stall queue too unless credits are out. |
| `ClientRpc.Endpoint.TailStage` | src/rpc_impl/rpc_ev_loop.cc:24-35 | Background requests, then a loss scan exactly when the last one is more than the scan period ago, whose time is then recorded. |
| `ClientRpc.Endpoint.RunEventLoopDoOne` | src/rpc_impl/rpc_ev_loop.cc:6-36 | One event loop iteration from a reachable world is the run made of its clock stamp, its received packets, its transmit stages, its background requests and its loss scan, in that order; a loss is detected in an active slot if and only if the last scan is more than the scan period ago and the slot has unacknowledged packets and no progress for the timeout. |
| `ServerRpc.Endpoint.constructor` | src/session.h:77-98 | A new server session is the initial server of the state machine. |
| `ServerRpc.Endpoint.ProcessSmallReq` | src/rpc_impl/rpc_req.cc:78-152 | Drop, re-send or execute a one-packet request as the state machine does; reports success if and only if a buffer it needs is wanted for some data and found. |
| `ServerRpc.Endpoint.ProcessLargeReq` | src/rpc_impl/rpc_req.cc:155-255 | Order check, credit return, re-send, buffer allocation and reassembly of a multi-packet request as the state machine does; reports success if and only if an allocation that it makes succeeds. |
| `ServerRpc.Endpoint.StorePkt` | src/rpc_impl/rpc_req.cc:230-254 | Credit return for all but the last packet, copy, and the handler call exactly when all packets are in. |
| `ServerRpc.Endpoint.ProcessRfr` | src/rpc_impl/rpc_rfr.cc:29-68 | In-order RFR answered, old ones dropped, repeated ones answered again and drained. |
| `ServerRpc.Endpoint.Receive` | src/rpc_impl/rpc_rx.cc:33-85 | Dispatching a delivered packet is a ServerRx step, and the result says whether its asserts on size and memory held. |
| `ServerRpc.Endpoint.ReceiveOne` | src/rpc_impl/rpc_rx.cc:18-86 | From a reachable world, receiving any packet on the wire is exactly one ServerRx step of that packet, followed by a full drain if and only if its handler asks for one, and reports success if and only if all asserts of that step hold. |
| `ServerRpc.Endpoint.ProcessComps` | src/rpc_impl/rpc_rx.cc:6-91 | A received burst is a run of one ServerRx step per packet, in order, each followed by its drain, and reports success if and only if the asserts held at each of the worlds it went through. |
| `ServerRpc.Endpoint.EnqueueResponse` | src/rpc_impl/rpc_resp.cc:19-69 | From a reachable world, a response from a handler that has not answered yet is a Respond step; its asserts follow. |
| `ServerRpc.Endpoint.DoTxBurst` | src/rpc.h:811-832 | Sending the batch is a run of one ServerBurst step per item, which empties it. |
| `WheelSpec.Reap` | src/cc/timing_wheel.h:115-123 | reap terminates, and leaves the head slot time later than the reap time, by at most one slot width if it moved. |
| `WheelSpec.DeltaTime` | src/cc/timing_wheel.h:137-160 | After the reap an insert does, the chosen slot time lies between the desired time and one slot width later. |
| `WheelSpec.DeltaLeaves` | src/cc/timing_wheel.h:145-155 | The slot an insert picks falls due at the first slot time after the desired time, except that an entry for the very time of the current slot goes into it. |
| `WheelSpec.SwapsExactly` | src/cc/timing_wheel.h:145-155 | Of two entries for the same time, the second leaves earlier if and only if that time is a slot time, its slot was ahead at the first insert and is the current one at the second. |
| `WheelRuns.HorizonFits` | src/cc/timing_wheel.h:139-151 | Over all runs and all inserts that meet the other asserts, the slot assert holds if and only if horizon_tsc is at most (slots - 1) times the slot width. |
| `WheelSpec.DeltaFits` | src/cc/timing_wheel.h:142-160 | One half: under that bound no insert within the horizon overflows the wheel. |
| `WheelRuns.HorizonOverflows` | src/cc/timing_wheel.h:139-151 | The other half: beyond that bound the first insert into a new wheel, just before its first slot is due and for the end of the horizon, fails the assert. |
| `WheelRuns.StepOk` | src/cc/timing_wheel.h:115-160 | Every reap, insert and pop keeps the wheel invariant. |
| `WheelRuns.ReachableOk` | src/cc/timing_wheel.h:79-99 | The invariant holds after every run from a new wheel, whatever the horizon. |
| `WheelRuns.NothingLost` | src/cc/timing_wheel.h:163-199 | Over any run, what was inserted is, as a multiset, what was popped plus what is ready plus what is in the slots. |
| `WheelRuns.OnTime` | src/cc/timing_wheel.h:115-123 | An entry has been released if and only if the wheel was given its exit time, which is no earlier than asked for and at most one slot width later. |
| `WheelRuns.LeavesFirst` | src/cc/timing_wheel.h:137-199 | Of any two entries, the one inserted later leaves first if and only if its exit time is earlier: never for a later desired time, and for an equal one exactly in the case of the swap. |
| `WheelRuns.InOrder` | src/cc/timing_wheel.h:181-199 | All entries leave in insertion order if and only if their exit times are in that order; for desired times that never go back, if and only if no two entries for the same time swap. |
| `WheelRuns.EqualTimesCanSwap` | src/cc/timing_wheel.h:137-160 | The swap happens: a run in which the second of two entries for one time leaves before the first. |
| `Pacing.SendWithinCredits` | src/session.h:117-127 | With fewer than kSessionCredits packets of a session still ahead, its next desired time is at most kSessionCredits largest gaps away. |
| `Pacing.GapKept` | src/session.h:117-127 | In every run a packet that enters the wheel is for a time at least its gap after every earlier packet of its session, not before now, and no later than that. |
| `Pacing.StepOk` | src/rpc.h:775-790 | Sends, event loop turns and new sessions keep the pacing invariant. |
| `PacedSessions.InsertsAlwaysPass` | src/rpc.h:775-790 | For any number of sessions running the datapath over one wheel, if kSessionCredits largest gaps are within the horizon and within all slots but one, every packet that any step wheels passes all asserts of insert: its session's credit accounting alone keeps it there. |
| `PacedSessions.InsertsPassExactly` | src/rpc.h:775-790 | And only then: over all runs and all steps of the sessions, the asserts of insert never fail if and only if that bound holds. |
| `PacedSessions.BurstFails` | src/rpc.h:775-790 | Otherwise the run that fails: a new session sends one request of a packet per credit, each with the largest gap, just before the first slot falls due. |
| `PacedSessions.MoveOk` | src/rpc.h:775-790 | Every step of the sessions and the wheel keeps each session reachable and the wheel holding exactly as many of its packets as the session counts. |
| `PacedSessions.WheelGrows` | src/rpc_impl/rpc_queues.cc:28-52 | Only draining the ready queue takes packets out of a session's wheel. |
| `Pacing.WithinHorizon` | src/cc/timing_wheel.h:137-151 | In every run, if kSessionCredits largest gaps are within the horizon and within all slots but one, each insert passes the assert on its times and the slot assert. |
| `Pacing.PassExactly` | src/cc/timing_wheel.h:137-151 | The inserts of every run do so if and only if that bound holds. |
| `WheelSpec.DeltaReach` | src/cc/timing_wheel.h:145-151 | When the current slot falls due next, a time farther than all slots but one fails the slot assert. |
| `WheelUnits.CoversExactly` | src/cc/timing_wheel.h:28-37 | For every clock frequency, packet size and credit count, the rounded slots cover the rounded horizon if and only if what rounding takes off the slots is below what the wheel has to spare. |
| `WheelUnits.WholeSlotCovers` | src/cc/timing_wheel.h:28-37 | When the slot width is a whole number of cycles, the rounded horizon is covered by the slots. |
| `WheelUnits.AssertExactly` | src/cc/timing_wheel.h:79-84 | A wheel with the rounded dimensions passes its slot assert in every run if and only if little is lost in that sense. |
| `WheelUnits.RoundingOverflows` | src/util/timer.h:98-104 | At 2.1999 GHz with packets of 1024 bytes and 32 credits it fails on a paced packet: one request of 32 packets on a new session. |
| `WheelUnits.RoundingSpares` | src/util/timer.h:98-104 | At 0.500108 GHz some insert within the horizon fails the slot assert, but no paced packet of any run does. |
| `WheelUnits.PacingExactly` | src/cc/timing_wheel.h:28-37 | On a wheel with the rounded dimensions, the paced packets of all runs pass all asserts of insert if and only if kSessionCredits rounded gaps are within all rounded slots but one. |
| `WheelUnits.LittleLossFits` | src/cc/timing_wheel.h:28-37 | They are when little is lost. |
| `WheelUnits.GapPerCredit` | src/cc/timing_wheel.h:29-30 | kSessionCredits rounded gaps stay within the rounded horizon. |
| `TimingWheel.Wheel.constructor` | src/cc/timing_wheel.h:79-99 | A new wheel is the empty abstract wheel, whatever was in the memory of its buckets. |
| `TimingWheel.Wheel.AllocBkt` | src/cc/timing_wheel.h:206-210 | A bucket from the pool is empty, unlinked and in no chain; other buckets are untouched. |
| `TimingWheel.Wheel.ExtendPool` | src/util/mempool.h:16-27 | An empty pool gets new buckets and nothing in use changes. |
| `TimingWheel.Wheel.InsertIntoWslot` | src/cc/timing_wheel.h:163-177 | Appends to one slot, across the bucket boundary, and changes no other slot. |
| `TimingWheel.Wheel.AddBkt` | src/cc/timing_wheel.h:171-176 | A full last bucket gets a fresh one linked behind it. |
| `TimingWheel.Wheel.ReapWslot` | src/cc/timing_wheel.h:181-199 | Moves one slot to the ready queue in order, returns the extra buckets to the pool and changes no other slot. |
| `TimingWheel.Wheel.DrainChain` | src/cc/timing_wheel.h:182-196 | Walking the chain empties each bucket once, in order, and terminates. |
| `TimingWheel.Wheel.ReapStep` | src/cc/timing_wheel.h:116-122 | One turn of reap rotates the abstract wheel by one slot, across wrap-around. |
| `TimingWheel.Wheel.Reap` | src/cc/timing_wheel.h:115-123 | The concrete wheel refines the abstract reap. |
| `TimingWheel.Wheel.Insert` | src/cc/timing_wheel.h:137-160 | The concrete wheel refines the abstract insert. |
| `BPlusTree.Index.constructor` | benchmark/src/bplustree_mind.h:203-207 | A new index is empty. |
| `BPlusTree.Index.Insert` | benchmark/src/bplustree_mind.h:690-741 | insert refines map update and keeps sorted keys, occupancy, equal leaf depth, the leaf chain and live separators, for any memory of new nodes. |
| `BPlusTree.Index.Update` | benchmark/src/bplustree_mind.h:484-488 | update on an index with a root refines map update as well. |
| `BPlusTree.Index.Read` | benchmark/src/bplustree_mind.h:475-479 | read returns the value of the map, or nothing if and only if the key is absent. |
| `BPlusTree.Index.Search` | benchmark/src/bplustree_mind.h:440-470 | The recursive search of a subtree finds an entry if and only if the subtree has one for the key. |
| `BPlusTree.Index.Scan` | benchmark/src/bplustree_mind.h:222-275 | scan returns the first min(len, available) map entries at or above the key in increasing order, all of them when len is below one. |
| `BPlusTree.Index.ScanStart` | benchmark/src/bplustree_mind.h:229-245 | The descent that goes left on equality stops with every smaller key before the cursor and every other key at or after it. |
| `BPlusTree.CollectChain` | benchmark/src/bplustree_mind.h:247-268 | The walk over linked leaves returns a prefix of the entries from a place on, cut exactly at len, or all of them. |
| `BPlusTree.Index.ScanChain` | benchmark/src/bplustree_mind.h:247-268 | The walk over the leaf chain returns a prefix of the remaining entries, cut exactly at len. |
| `BPlusTree.Index.UpdateIfFound` | benchmark/src/bplustree_mind.h:507-534 | Overwrites the one entry with the key, or reports absence and changes no node. |
| `BPlusTree.Index.SplitNode` | benchmark/src/bplustree_mind.h:545-623 | Splitting a full child turns the nodes into those of the split tree, chain included, and touches nothing else. |
| `BPlusTree.Index.InsertNotFull` | benchmark/src/bplustree_mind.h:629-685 | Insertion below a non-full node adds exactly one entry and keeps shape and chain. |
| `BPlusTree.Index.InsertIntoLeaf` | benchmark/src/bplustree_mind.h:633-666 | Insertion into a non-full leaf. |
| `BPlusTree.Index.InsertBelow` | benchmark/src/bplustree_mind.h:684 | Insertion through the child chosen by the separators. |
| `BPlusTree.Index.InsertFirst` | benchmark/src/bplustree_mind.h:693-712 | The first insert makes a one-leaf tree. |
| `BPlusTree.Index.GrowAndInsert` | benchmark/src/bplustree_mind.h:718-734 | A full root gets a new parent, is split, and the entry is added. |
| `BPlusTree.Index.CreateNode` | benchmark/src/bplustree_mind.h:493-502 | A new node is the only node that changes. |
| `BPlusTree.Position` | benchmark/src/bplustree_mind.h:443-446 | The scan loop stops at the first key not below the argument. |
| `BPlusTree.InsertEntry` | benchmark/src/bplustree_mind.h:634-656 | Shifting from the end and writing equals ordered insertion. |
| `BPlusTree.MakeRoom` | benchmark/src/bplustree_mind.h:604-615 | The parent loops open one gap in keys and children and lose nothing. |
| `BPlusTree.SplitLeaf` | benchmark/src/bplustree_mind.h:546-584 | The upper half of a leaf moves and the chain goes through the new leaf. |
| `BPlusTree.SplitInner` | benchmark/src/bplustree_mind.h:586-602 | The upper half of an inner node moves without its middle key. |
| `BPlusTree.ChildFor` | benchmark/src/bplustree_mind.h:668-671 | The backward scan chooses the child whose separators surround the key. |
| `BPlusTree.TakeLeaf` | benchmark/src/bplustree_mind.h:256-263 | Copying a leaf stops exactly when the result has len entries. |
| `BPlusTree.RangeOk` | benchmark/src/bplustree_mind.h:222-275 | A prefix of the entries at or above the key is the range of the map. |
| `TreeShape.PutMap` | benchmark/src/bplustree_mind.h:690-741 | Ordered insertion into the entry list is map update. |
| `TreeShape.PutIntoChild` | benchmark/src/bplustree_mind.h:629-685 | Insertion into the right child is insertion into the tree. |
| `TreeShape.SplitOk` | benchmark/src/bplustree_mind.h:545-623 | A split keeps the entries and all occupancy and depth bounds. |
| `TreeShape.SeparatorIsLive` | benchmark/src/bplustree_mind.h:573-621 | Every separator is the key of an entry in a leaf. |
| `TreeShape.SplitBetween` | benchmark/src/bplustree_mind.h:678-684 | After a split the strict comparison with the new separator picks the right half, because an absent key is not equal to a live separator. |
| `TreeShape.KeyInChild` | benchmark/src/bplustree_mind.h:507-534 | A key is in the tree if and only if it is in the child chosen for it. |
| `SizeClasses.GetClassIsSmallest` | src/util/huge_alloc.h:153-162 | The shift computation gives the smallest class that fits, a valid class for every size up to the maximum. |
| `SizeClasses.GetClassSlow` | src/util/huge_alloc.h:165-176 | The loop gives the same class as the fast form. |
| `SizeClasses.MsbBounds` | src/util/math_utils.h:33-40 | The most significant bit index bounds its argument between powers of two. |
| `SizeClasses.MaxClass` | src/util/huge_alloc.h:69-71 | The largest class size is the largest allocation. |
| `SizeClasses.ClassOfMax` | src/util/huge_alloc.h:121-129 | The class of a class size is that class, so a freed buffer goes back to its own freelist. |
| `HugeAlloc.BuffersDisjoint` | src/util/huge_alloc.cc:156-199 | In a valid state an address of an outstanding buffer is in no other outstanding buffer, in no free buffer, and in a reserved block. |
| `HugeAlloc.FreeDisjoint` | src/util/huge_alloc.cc:156-217 | In a valid state two different places of the freelists hold buffers that share no address. |
| `HugeAlloc.NoAddressLost` | src/util/huge_alloc.cc:156-217 | In a valid state each reserved address is in an outstanding or a free buffer. |
| `HugeAlloc.Allocator.constructor` | src/util/huge_alloc.cc:13-23 | A new allocator is valid and empty. |
| `HugeAlloc.Allocator.Alloc` | src/util/huge_alloc.cc:156-199 | Keeps tiling, alignment and statistics; fails exactly when no class at or above has a buffer and no memory comes, changing nothing; otherwise returns a buffer of the smallest fitting class, taking from the nearest class that has one, and reserves memory, twice as much as last time, only when none has. |
| `HugeAlloc.Allocator.NextClass` | src/util/huge_alloc.cc:163-183 | The first class from the wanted one on with free buffers, or after a reservation the largest. |
| `HugeAlloc.Allocator.SplitDown` | src/util/huge_alloc.cc:185-194 | Splitting from the first non-empty class down reaches the wanted class; split's preconditions hold at each turn. |
| `HugeAlloc.Allocator.Split` | src/util/huge_alloc.h:180-195 | Replaces a buffer by its two halves in the class below. |
| `HugeAlloc.Allocator.AllocFromClass` | src/util/huge_alloc.h:201-212 | Hands out the last free buffer of the class and counts its bytes. |
| `HugeAlloc.Allocator.FreeBuf` | src/util/huge_alloc.h:121-129 | Returns an outstanding buffer to its class and uncounts its bytes. |
| `HugeAlloc.Allocator.AddBlock` | src/util/huge_alloc.cc:209-214 | A fresh largest-class block joins the top freelist. |
| `HugeAlloc.Allocator.ReserveHugepages` | src/util/huge_alloc.cc:201-217 | Adds size / largest-class blocks, or changes nothing when the reservation fails. |
| `MsgBuffers.HeaderFits` | src/msg_buffer.h:35-46 | Each packet header lies inside the buffer and does not overlap the data area. |
| `MsgBuffers.HeaderAligned` | src/msg_buffer.h:41-46 | Each packet header is 8-byte aligned in the buffer. |
| `MsgBuffers.HeadersApart` | src/msg_buffer.h:35-46 | Different headers do not overlap. |
| `MsgBuffers.PktsCarryData` | src/msg_buffer.h:62-66 | The per-packet sizes of the first k packets add up to the data they cover, and of all packets to the data size. |
| `MsgBuffers.Resize` | src/msg_buffer.h:120-125 | Resizing within the allocation keeps the buffer, its limits, the layout, the header addresses and the packet count rule. |
| `MsgBuffers.FewerPkts` | src/rpc.h:601-604 | A smaller message needs no more packets, which is why a shrinking resize needs no header. |
| `MsgBuffers.MaxMessageFits` | src/rpc.h:86-88 | Every message up to kMaxMsgSize can be allocated if and only if kMaxMsgSize is at most the packet limit times kMaxDataPerPkt. |
| `MsgBuffers.AllocMsgBuffer` | src/rpc.h:140-160 | An allocated message buffer has a valid layout in a new outstanding buffer; allocation fails if and only if no class at or above has a buffer and no memory comes, and then changes nothing. |
| `MsgBuffers.LargerAllocates` | src/rpc.h:86-88 | Some message larger than kMaxMsgSize can be allocated if and only if one a byte larger can. |
| `MsgBuffers.OneTooLarge` | src/rpc.h:86-88 | It can with packets of 1024 bytes: kMaxMsgSize is then 7903368. |
| `SessionMgmtTheorems.OneSessionPerToken` | src/rpc_impl/rpc_connect_handlers.cc:21-115 | At most one server session, and at most one client session, is ever created per token, over all Rpcs and even after disconnect. |
| `SessionMgmtTheorems.ConnectedMeansLive` | src/rpc_impl/rpc_connect_handlers.cc:142-217 | A connected client session has a live connected server session with the same token and endpoints. |
| `SessionMgmtTheorems.ResourcesConserved` | src/rpc.h:545-560 | Free ring entries plus kSessionCredits per live session equal the ring size, and preallocated buffers are a window per live server session. |
| `SessionMgmtTheorems.HandlersNeverAssert` | src/rpc_impl/rpc_connect_handlers.cc:149-155 | Any packet on the network, however late or often it comes, meets the asserts of its handler. |
| `SessionMgmtTheorems.OrphansExactly` | src/rpc_impl/rpc_connect_handlers.cc:167-178 | A live server session has lost its client session if and only if that session ended with a connect error. |
| `SessionMgmtTheorems.NewOrphansExactly` | src/rpc_impl/rpc_connect_handlers.cc:21-178 | A step leaves a new orphan if and only if it delivers a connect error that ends a client session while its server session is live, or it is a connect request that the handler accepts while its client session is gone. |
| `SessionMgmtTheorems.OrphansStay` | src/rpc_impl/rpc_disconnect_handlers.cc:12-57 | No step ends an orphan: its disconnect request is never sent. |
| `SessionMgmtTheorems.ErrorsCanOrphan` | src/rpc_impl/rpc_connect_handlers.cc:167-178 | That does happen: a repeated connect request is accepted after the first one failed, contrary to the comment that the server allocated nothing. |
| `SessionMgmtProgress.ConnectRespMeans` | src/rpc_impl/rpc_connect_handlers.cc:142-217 | Delivering a connect response to a session in ConnectInProgress: without error it is connected to the server of the response, or, when routing does not resolve, in DisconnectInProgress with its disconnect request sent; with an error it is gone and its ring entries are free, unless it is to retry. To any other session: nothing. |
| `SessionMgmtProgress.ConnectReqRepeats` | src/rpc_impl/rpc_connect_handlers.cc:21-39 | A repeated connect request creates nothing and is answered with the session of its token while that is alive. |
| `SessionMgmtProgress.ConnectReqIsNew` | src/rpc_impl/rpc_connect_handlers.cc:41-129 | A new connect request is answered with the first obstacle in the order transport, ring, routing, memory, and then takes nothing; without one, a connected session takes the next number, ring entries and buffers, and is named in the answer. |
| `SessionMgmtProgress.DisconnectReqMeans` | src/rpc_impl/rpc_disconnect_handlers.cc:12-57 | A disconnect request is always answered; the session it names is gone, and if it was there its ring entries and buffers are free again. |
| `SessionMgmtProgress.DisconnectRespMeans` | src/rpc_impl/rpc_disconnect_handlers.cc:62-98 | A disconnect response ends the client session that it names, if it is still there, and frees its ring entries. |
| `SessionMgmtProgress.CreateMeans` | src/rpc_impl/rpc_sm_api.cc:15-78 | Creating takes ring entries and the next number and sends the connect request, or does nothing without enough ring entries. |
| `SessionMgmtProgress.DestroyMeans` | src/rpc_impl/rpc_sm_api.cc:81-148 | Destroying acts on connected client sessions alone, which then have their disconnect request sent. |
| `SessionMgmtProgress.ResendMeans` | src/rpc_impl/rpc_pkt_loss.cc:63-79 | The loss scan sends the connect or disconnect request again that the session waits on. |
| `SessionMgmtProgress.RejectMeans` | src/nexus_impl/nexus_sm_thread.cc:40-55 | The Nexus of an Rpc that is not up answers connect requests with InvalidRemoteRpcId; no disconnect request ever reaches it. |
| `SessionMgmtProgress.CanConnect` | src/rpc_impl/rpc_connect_handlers.cc:21-217 | From every reachable world, a session in ConnectInProgress whose server is up and has ring entries, or has its session already, becomes connected in some run of resends and deliveries. |
| `SessionMgmtProgress.CanFinish` | src/rpc_impl/rpc_disconnect_handlers.cc:12-98 | From every reachable world, a session in DisconnectInProgress ends in some run of resends and deliveries, and so does its server session; what they held is free again. |
| `SessionMgmtProgress.CanDisconnect` | src/rpc_impl/rpc_sm_api.cc:81-148 | From every reachable world, some run that starts with the destruction of a connected session ends both sessions and gives both rings and the buffers back. |
| `SessionMgmtSteps.StepOk` | src/rpc_impl/rpc_sm_helpers.cc:74-90 | Every create, destroy, resend, rejection and delivery keeps the invariant. |
| `SessionMgmtSteps.ReachableOk` | src/rpc_impl/rpc_sm_api.cc:15-148 | The invariant holds after every run. |
| `SessionMgmtSteps.ServerAlive` | src/rpc_impl/rpc_disconnect_handlers.cc:12-57 | The server session of a client that is not leaving is alive. |
| `SessionMgmtRpc.Endpoint.constructor` | src/rpc.h:545-560 | A new Rpc has the whole ring and no sessions. |
| `SessionMgmtRpc.Endpoint.CreateSession` | src/rpc_impl/rpc_sm_api.cc:15-78 | Fails without ring entries, otherwise appends a session in connect-in-progress and sends its request. |
| `SessionMgmtRpc.Endpoint.DestroySession` | src/rpc_impl/rpc_sm_api.cc:81-148 | Acts only on a connected client session, which starts to disconnect. |
| `SessionMgmtRpc.Endpoint.PreallocBufs` | src/rpc_impl/rpc_connect_handlers.cc:82-99 | The loop keeps a whole window of buffers or gives all of them back. |
| `SessionMgmtRpc.Endpoint.HandleConnectReq` | src/rpc_impl/rpc_connect_handlers.cc:12-124 | Repeats, the error paths in order, and the accepting path, as the state machine has them. |
| `SessionMgmtRpc.Endpoint.HandleConnectResp` | src/rpc_impl/rpc_connect_handlers.cc:127-217 | Ignored, failed, unresolvable and connected outcomes, as the state machine has them. |
| `SessionMgmtRpc.Endpoint.HandleDisconnectReq` | src/rpc_impl/rpc_disconnect_handlers.cc:12-57 | A repeat is only answered; the first frees the ring entries and buries the session. |
| `SessionMgmtRpc.Endpoint.HandleDisconnectResp` | src/rpc_impl/rpc_disconnect_handlers.cc:62-94 | A repeat is ignored; the first frees the ring entries and buries the session. |
| `SessionMgmtRpc.Endpoint.BurySession` | src/rpc_impl/rpc_sm_helpers.cc:42-58 | Empties one entry of the session vector and frees the buffers of a server session. |
| `SessionMgmtRpc.Endpoint.NumActiveSessions` | src/rpc_impl/rpc_sm_api.cc:151-161 | The loop counts the live sessions. |
| `RaftLog.WrapIsMod` | apps/smr/willemt_raft/src/raft_log.c:186 | One conditional subtraction is the remainder the ring uses. |
| `RaftLog.RunLength` | apps/smr/willemt_raft/src/raft_log.c:170-197 | From any live entry the contiguous run is non-empty, live, consecutive, and stops short only at the end of the array. |
| `RaftLog.Log.constructor` | apps/smr/willemt_raft/src/raft_log.c:89-102 | A new log is empty with base zero. |
| `RaftLog.Log.EnsureCapacity` | apps/smr/willemt_raft/src/raft_log.c:49-76 | Growing keeps the contents in order; it fails only when full and out of memory. |
| `RaftLog.Log.AppendEntry` | apps/smr/willemt_raft/src/raft_log.c:142-168 | Appends one entry, or changes nothing when it cannot grow. |
| `RaftLog.Log.Place` | apps/smr/willemt_raft/src/raft_log.c:152 | Writing behind the last live entry changes no live entry. |
| `RaftLog.Log.Advance` | apps/smr/willemt_raft/src/raft_log.c:163-165 | Moving the back makes the placed entry the last one. |
| `RaftLog.Log.GetAtIdx` | apps/smr/willemt_raft/src/raft_log.c:199-215 | The entry with a given index, if and only if it is live. |
| `RaftLog.Log.GetFromIdx` | apps/smr/willemt_raft/src/raft_log.c:170-197 | A non-empty run of consecutive live entries from the index, as long as the array allows; none if and only if the index is not live. |
| `RaftLog.Log.PeekTail` | apps/smr/willemt_raft/src/raft_log.c:276-287 | The last entry, if any. |
| `RaftLog.Log.Poll` | apps/smr/willemt_raft/src/raft_log.c:251-274 | Removes the first entry and raises the base. |
| `RaftLog.Log.PopBack` | apps/smr/willemt_raft/src/raft_log.c:235-246 | Removes the last entry. |
| `RaftLog.Log.Delete` | apps/smr/willemt_raft/src/raft_log.c:222-249 | Exactly the entries with an index below the given one stay: the last that stays is below it and the first that goes is not; index zero is refused and changes nothing. |
| `RaftLog.Mirrored.constructor` | apps/smr/pmem_log.h:73-107 | The new pair of logs mirror each other. |
| `RaftLog.Mirrored.AppendEntry` | apps/smr/log_callbacks.h:15-34 | Ring and persistent log grow together, the offer callback's index check holds, and a crash exposes the old or the new log. |
| `RaftLog.Mirrored.Delete` | apps/smr/log_callbacks.h:95-111 | Ring and persistent log shrink together, and a crash exposes only prefixes between the old and the new log. |
| `RaftLog.Mirrored.PopBoth` | apps/smr/log_callbacks.h:95-111 | One pop removes the last entry of both. |
| `PmemLog.Log.constructor` | apps/smr/pmem_log.h:73-107 | The formatted log holds its one placeholder entry. |
| `PmemLog.Log.Append` | apps/smr/pmem_log.h:117-125 | Adds one entry; at every persist recovery sees the old or the new log, even when the entry write is torn. |
| `PmemLog.Log.Truncate` | apps/smr/pmem_log.h:110-113 | Keeps a prefix; recovery sees the old or the new log. |
| `PmemLog.Log.Pop` | apps/smr/pmem_log.h:115 | Drops the last entry; recovery sees the old or the new log. |
| `Pmica.HashMap.constructor` | apps/persistent_kv/pmica.h:120-165 | A new table is the empty map with every extra bucket free. |
| `Pmica.HashMap.Get` | apps/persistent_kv/pmica.h:325-344 | get returns the value of the map, or nothing if and only if the key is absent. |
| `Pmica.HashMap.Set` | apps/persistent_kv/pmica.h:397-439 | A successful set updates exactly one key; it fails if and only if the key is absent, the chain of bucket hash mod count has no empty slot and no extra bucket is free, and then changes nothing; an extra bucket is taken only when key and empty slot are absent. |
| `Pmica.HashMap.InItsChain` | apps/persistent_kv/pmica.h:397-410 | Every key in a slot of chain i has i as its hash modulo the number of regular buckets, and the slot has its value. |
| `Pmica.HashMap.FindItemIndex` | apps/persistent_kv/pmica.h:233-250 | The chain walk terminates with the slot of the key, or with the last bucket when the key is in no slot of the chain. |
| `Pmica.HashMap.AllocExtraBucket` | apps/persistent_kv/pmica.h:346-359 | Links the last free bucket behind the chain, or changes nothing when none is free. |
| `Pmica.HashMap.WriteSlot` | apps/persistent_kv/pmica.h:431-438 | Writing an own or an empty slot is map update. |
| `Pmica.FindInBucket` | apps/persistent_kv/pmica.h:238-243 | The first slot with the key, or none. |
| `Pmica.WrittenHolds` | apps/persistent_kv/pmica.h:397-439 | A table written at one slot of the right chain represents the updated map. |
| `Pmica.GrownShape` | apps/persistent_kv/pmica.h:346-359 | After linking an extra bucket each bucket is still in exactly one chain or on the free list. |
| `Pmica.GrownHolds` | apps/persistent_kv/pmica.h:346-359 | Linking an extra bucket does not change the map. |

## Left out

- The datapath state machine has one session; other sessions of an Rpc share its wheel, stall queue and batch, of which `PacedSessions` models the wheel. Which packet of its session a ready wheel entry stands for is left open there.
- The header's magic, destination session and request type of control packets, and the checks on them in `rpc_rx.cc`.
- Field widths in the packet header and in session numbers; 64-bit wrap-around of timestamps and addresses.
- The burst that a full TX batch starts in the middle of a handler: the state machine sends single items between handlers instead, which is the same because items are references to buffers that the handler leaves in place.
- The reuse of control message buffers in a ring; a control packet is its header from the moment it is queued.
- Background threads, their queues and locks; a background request or response is an ordinary call at the point where the event loop takes it.
- Transports, UDP, NUMA, hugepage mapping, persistent memory mapping, the clock.
- Timely's rate computation: a packet's gap is any number up to the bound. Rounding of floating-point arithmetic itself.
- Session reset handlers, and the fault injection that the source compiles in for its own tests.
- Fairness: that a request finishes in every run in which packets keep arriving. `NeverStuck` says that from every state some run finishes all of them.
- Fairness of session management: `CanConnect` and `CanDisconnect` say that some run connects or ends a session, not that every fair run does.
- `sm_pending_reqs_`, the user's session management callback, and calls it makes.
- The wheel's record of actions and `catchup`.
- B+ tree `aggregate`, `print` and destruction, values copied by string length, the count of hops that `scan` returns, and overflow of its `int` counter.
- B+ tree nodes are values in the tree's vector of nodes, and a pointer is an index there; heap aliasing outside that vector is not modelled.
- `HugeAlloc` alignment of raw regions, registration keys, and the statistics of raw allocations.
- Raft consensus, snapshots, `log_clear_entries`, notification of configuration entries, serialisation of entries, the persisted term and vote.
- Compaction of the mirrored pair: the application's poll callback refuses it, so only the ring alone has `Poll`.
- PmemLog.Log.Append: does not model a full file, because the source does not check for one.
- `pmica` redo log and batches, its hash function, and the rounding of the bucket count to a power of two, by which the source's mask is the remainder used here.
- `enqueue_wheel_rfr_st`, which has no caller.
- HeartbeatMgr, latency histograms, loggers, benchmark and application drivers.
