# DECTstrous: a verified model of its protocols

DECTstrous is a two-chip radio-mesh node (a 9151 modem behind a relay processor) whose control surface is a
9P file system. The routing and ARQ stack and the 9P library are outside the repository; what is inside is a
set of small stateful protocols laid over one another. This project models those protocols in Dafny and
proves what they promise over whole runs. Run `dafny verify dfyconfig.toml` to check it.

| file | what it models |
|---|---|
| `Wire.dfy` | 9P2000 requests: codecs, builders, and the shape test that tells them from chat datagrams |
| `Conversation.dfy`, `ConversationRuns.dfy` | the `/net/aether` service as a state machine, and theorems about all its runs |
| `Namespace.dfy` | the service's root directory as a linked sibling list updated in place; directory paging |
| `AetherNet.dfy` | the service's code, in place, tied to the state machine and to the directory list |
| `Retarget.dfy` | live re-targeting in the chat client: two processes, one lock, one remote conversation |
| `RequestRing.dfy` | the mesh 9P server's request ring with its ACK gate, under every interleaving |
| `TagRpc.dfy`, `Drain.dfy` | tag-matched RPC over untagged datagrams (four copies, one loop with a policy), and the in-process drain session over it |
| `MeshPeer.dfy`, `MeshPush.dfy`, `LateVersion.dfy`, `Leftover.dfy` | firmware push over the mesh: peer and air, the sending chain, the one lateness it does not survive, and what an earlier image in the slot makes of it |
| `Framer.dfy`, `Relink.dfy`, `RelayWrite.dfy` | the relay's link to the 9151: interrupt framer, re-attach discipline, chunked write forwarding |
| `Base64.dfy`, `Telemetry.dfy`, `MfltFiles.dfy`, `MeshTelemetry.dfy` | the telemetry stream as printer and parser, from destructive reads to posted chunks |
| `DrainedNode.dfy` | both ends of a drain together: the session against a node that serves each Tread from its queue |
| `ChatLog.dfy` | the bounded scrollback against the unbounded history |

Code that changes state in place is modelled by classes whose methods are proved against functions on values;
the theorems are lemmas about those functions. Concurrency is modelled as steps between preemption points: a
run is any sequence of steps, and the classes `Ring` and `Chat` have one method per step. What a lossy
channel does is left open (`*`) or given as an arbitrary function, so a theorem covers everything it may do.

## What is assumed of code outside the repository

- `aether_mesh_send_reliable` returns success only if the datagram landed at the peer; on failure it may or
  may not have. Any request of the run sent before may land again at any later time, except that a Tversion lands
  only during its own exchange, and none from elsewhere lands during the run. The peer's mesh server has one
  session, which a telemetry drain, a probe or another gateway resets by a Tversion of its own just as well;
  `LateVersion.dfy` shows what any Tversion does.
- The peer's flash writer skips bytes it already has, keeps its position when a session is re-made, and
  finalizes only when the file is clunked by a Tclunk (doc/OTA.md:107-113). A write beyond its position is
  recorded in `gap` and writes nothing; it is proved never to happen. At the start of a run the slot may hold
  anything, in particular part of another image, nothing being finalized yet; a run pushes one image.
- The receive thread is the only producer of the request ring and its gate runs just before its callback.
  Work submitted while it runs is queued again. A `k_msgq` is a bounded FIFO that hands a put to the reader
  parked longest. Whether a purge, besides discarding what is queued, wakes parked readers with an error is a
  parameter (`wakes`); `anet_read` returns 0 bytes, an EOF, to a reader so woken (dect_mesh/src/aether_net.c:567).
- The 9P library hands a file's generator the offset of a Tread and its count as the buffer size, and sends what
  it returns as an Rread with the Tread's tag.
- Sizes set by Kconfig (`CONFIG_AETHER_MAX_PAYLOAD`, `CONFIG_NINEP_MAX_MESSAGE_SIZE`,
  `CONFIG_NINEP_REMOTE_FS_WRITE_CHUNK`) are symbolic, with a lower bound where one is used.

## Where a property fails, and when it holds

- `anet_read` frames a datagram after the dequeue, without the lock. In every run a read in flight returns the
  framing that was due at receipt if and only if the state now calls for a source prefix exactly when the state
  at receipt did (`ReadIsFramedAsMatched`); a re-bind in the window can change that (`RebindDuringReadMisframes`).
- A read ends the stream if and only if a sentinel or an empty datagram comes up (`EofReadExactly`), so an empty
  datagram passes for a hang-up (`EmptyDatagramReadsAsHangup`).
- A read the relay gives up on stays parked at the server, ahead of the reader's next one, and takes the next
  EOF or datagram. A /connect whose hang-up is reported done is completed by the reader if and only if a purge
  wakes parked reads, or no such read is there, or an EOF is on its way already (`SwitchCompletesExactly`);
  otherwise nothing but another /connect helps (`NothingElseHelps`; `AbandonedReadSwallowsEof` is one run under
  both kinds of purge), and one more /connect than there are abandoned reads does (`RepeatedConnectsReach`).
- Once no switch is pending the chat client's conversation is bound to the last address asked for if and only if
  the hang-up was reported done, the connect got through and its address parses, or the hang-up never got through
  and the conversation was bound to that address already (`SettledExactly`). A hang-up done but reported as
  failed therefore leaves it unbound (`LostHangupReplyLeavesUnbound`); a connect done but reported as failed
  does no harm.
- Draining a node is destructive: a Tread whose reply is lost is sent again, and what it took is gone. In every
  drain chunks are kept, wasted or still queued, each once, and the kept ones are the front of the queue in order
  if none is wasted; without a lost reply none is, and the first reply lost while a chunk is queued wastes one
  (`FlowConserves`). A read takes a chunk at all if and only if the datagram holds the device line and 286 bytes
  (`ReadTakesExactly`).
- RPC tags restart with each session. A call is safe from the replies to other calls, on every channel, if and
  only if none of them has its tag (`OwnReplyExactly`): within a session none has, over two sessions some does
  (`RestartedTagsAreShared`, `RestartedTagsTakeStaleReply`).
- `aether_net_drain_peer` clamps an Rread's count by comparing it as an int, so a count of 2^31 or more passes
  both clamps and the copy is given that length. A copy stays inside the reply and the output buffer if and only
  if the count is below 2^31 (`ClampExactly`), and a session stays inside its buffers if and only if it keeps no
  reply with such a count (`DrainPeer`); one 12-byte datagram does it, in a run where every datagram answers its
  own call (`OversizedCountOverruns`).
- The peer skips offsets it already has whatever they belong to, so a push over a slot that holds P bytes of
  another image writes only what follows them. A push that reports success has finalized its file if and only
  if a copy of the clunk landed and the slot held a beginning of that file at first (`MeshOta`,
  `WholeExactlyOver`); `SecondImageRun` is a whole run with two images.
- Of all requests that may land late while part of an image is in, exactly a Tversion costs the push its tail
  (`LateRequestExactly`), this run's own or any other, and it can end with that part finalized (`LateSessionRun`).
- The outcome of the finalizing clunk's RPC is ignored, so a push can report success with nothing finalized
  (`LostClunkRun`); with nothing going wrong underneath a copy of the clunk has landed (`MeshOta`).
- Two telemetry streams after one another mean what they mean separately if and only if the second names its
  device before its first chunk or the first left no name (`AttributionSurvivesConcat`). A node without a mesh
  context prints a stream that does not; no path in the repository puts such a stream behind a named one, since
  the host walks each file by itself and such a node cannot be drained over the mesh.
- A read of `dev/mflt` into a buffer that cannot hold the DEV line and a terminator returns the line's length,
  which is the buffer's or more (`Node.GenMflt`).
- The chat log stores the end of the history exactly as long as each formatted line is shorter than the
  96-byte line buffer (`LineKeepsHistory`). Its shift and copy stay inside the log exactly when the line fits the
  room left or, half the log being kept, the other half (`Log.Append`).
- `do_put` does not go back for what a short write left out. For every way the 9151 may answer, it succeeds with
  the file there if and only if the stream opens and every write of the plan is taken whole (`PutFile`,
  `PutExactly`); against one that takes nothing and never fails it succeeds with nothing there
  (`PutSucceedsOnNothing`).
- The framer delivers exactly the frames sent if and only if no read reaches across a frame's end and each frame
  is handed off before the next byte (`RunDeliversExactly`).

The code and its own comments disagree in these places, and the model follows the code: `fw9151_open_remote`
says it retries with a fresh Tversion and Tattach (dect_relay/src/main.c:893-900), but a versioned link is
first re-attached without one; `g_push`'s comment puts the ring at six (dect_mesh/src/aether_net.c:1062-1066),
but it has eight slots; `do_mesh_ota`'s known-limitation note (tools/aether_conv.c:386-391) says a re-target
finalizes the partial image, which doc/OTA.md:111-113 describes as no longer so.

## Model

| member | source | states |
|---|---|---|
| Wire.DecodeOfEncode | dect_mesh/src/aether_net.c:1093-1131 | Every request the clients build, read by the layout in section 5 of the Plan 9 manual, gives back its type, tag and every field, for all values that fit their length fields. |
| Wire.DemuxSeparates | dect_mesh/src/aether_9p_mesh.c:106-118 | A built request is claimed by the mesh 9P server if and only if it fits one datagram, and no message of an odd type, so no reply and no Rerror, ever is. |
| Wire.ClaimedExactly | dect_mesh/src/aether_9p_mesh.c:106-118 | For all bytes: exactly those are claimed that give their own length first and have an even type from 100 to 126; no text is, since a printable fourth character makes a length no datagram has. |
| Wire.MsgBuf.BuildTwrite | dect_mesh/src/aether_net.c:1224-1232 | The bytes written index by index into the buffer are the frame of that Twrite, size stamped last. |
| Wire.MsgBuf.BuildTwalkDev | dect_mesh/src/aether_net.c:1115-1120 | The same for the two-element walk to dev and a file of any name. |
| Wire.MsgBuf.BuildTread | dect_mesh/src/aether_net.c:927-930 | The same for a Tread. |
| Conversation.ConvStepKeepsQueue | dect_mesh/src/aether_net.c:228-395 | Whatever event happens, beyond a sentinel at the head everything queued in a slot arrived under a match its present state and peer still give; a parked reader means an empty queue; at most 16 wait. |
| Conversation.ConvStepKeepsLedger | dect_mesh/src/aether_net.c:247-349 | Whatever event happens, the arrivals a slot matched stay partitioned into dropped, purged, read and queued, the last two in order of arrival. |
| ConversationRuns.RunGood | dect_mesh/src/aether_net.c:228-395 | Both hold of every slot in every run from boot. |
| ConversationRuns.QueueFitsBinding | dect_mesh/src/aether_net.c:228-395 | In every run nothing but a sentinel waits in an unbound or free slot, only unicasts matching the current peer in a connected one, only broadcasts on a party line, only unicasts in an announced one, and a sentinel is never behind anything. |
| ConversationRuns.BindingHeldWhileQueued | dect_mesh/src/aether_net.c:228-395 | While a datagram is queued, its slot's use, state and peer have not changed since just before it arrived: no hang-up, re-connect, free or re-allocation comes between. |
| ConversationRuns.ReadAgreesWithMatch | dect_mesh/src/aether_net.c:563-599 | The head of any queue in any run reads with a source prefix exactly when it was matched at receipt as a broadcast or by an announced conversation, and is EMSGSIZE exactly when that does not fit the count. |
| ConversationRuns.HandWasTaken | dect_mesh/src/aether_net.c:563-576 | In every run what a reader holds, dequeued or put straight to it while parked, is a sentinel or an arrival its slot matched when it came. |
| ConversationRuns.ReadIsFramedAsMatched | dect_mesh/src/aether_net.c:563-599 | In every run a read in flight returns the framing due at receipt if and only if the state now calls for the prefix exactly when the state at receipt did. |
| ConversationRuns.RebindDuringReadMisframes | dect_mesh/src/aether_net.c:563-599 | A concrete run in which a hang-up and a connect to broadcast between dequeue and framing put a source prefix on a unicast datagram. |
| ConversationRuns.EofFirstUntilRead | dect_mesh/src/aether_net.c:247-265 | From a hang-up or ctl clunk of a slot in use, whatever its reader is doing, through any events until an EOF has been returned or the slot gets a new owner, an EOF is first in line, and a reader parked at the hang-up holds it. |
| ConversationRuns.HangupDelivers | dect_mesh/src/aether_net.c:383-393 | A reader parked at the hang-up next returns 0 bytes; any other, one between dequeue and framing included, gets the sentinel from its next get, before any newer datagram. |
| ConversationRuns.HangupFences | dect_mesh/src/aether_net.c:247-265 | No datagram queued before a hang-up is in the queue or handed to a reader after it. |
| ConversationRuns.EofReadExactly | dect_mesh/src/aether_net.c:563-575 | In every run what a reader holds or gets next ends the stream if and only if it is the sentinel or an arrival with an empty payload. |
| ConversationRuns.EmptyDatagramReadsAsHangup | dect_mesh/src/aether_net.c:573-575 | A concrete run in which an empty datagram from the peer reads as EOF on a connected conversation. |
| ConversationRuns.MatchedExactly | dect_mesh/src/aether_net.c:296-344 | A slot's ledger lists exactly the arrivals that found it in use and were for it: broadcasts on the party line, any unicast when announced, unicasts from its peer's route, identity or raw address when connected. |
| ConversationRuns.ArrivalIsDelivered | dect_mesh/src/aether_net.c:299-343 | In every run an arrival for a slot in use goes to the reader parked there, else behind the fewer than 16 waiting, else it is dropped, under its source's identity and clipped; it does nothing to any other slot. |
| ConversationRuns.CloneGivesFreshSlot | dect_mesh/src/aether_net.c:228-245 | In every run a clone or internal dial gives out the lowest free slot, empty and unbound or bound to the peer dialled, and changes no other; none when all are in use. |
| ConversationRuns.ClunkGivesBack | dect_mesh/src/aether_net.c:247-265 | In every run a clunk of ctl gives that slot back, unbound, and no other. |
| ConversationRuns.FanOutConserves | dect_mesh/src/aether_net.c:296-345 | Every matched pair of datagram and conversation is dropped, purged, read or still queued, exactly one of them; reads and queue are in order of arrival without repetition, at most 16 waiting. |
| ConversationRuns.DropCounterAddsUp | dect_mesh/src/aether_net.c:338-340 | The shared counter is the sum of the four slots' drops, modulo 2^32. |
| Namespace.Root.constructor | dect_mesh/src/aether_net.c:1350-1370 | After start the root lists the six fixed files and no conversation. |
| Namespace.Root.LinkChild | dect_mesh/src/aether_net.c:187-192 | The child is in front of the list the links spell out, and nothing else changed. |
| Namespace.Root.UnlinkChild | dect_mesh/src/aether_net.c:194-206 | The loop ends, the list stays acyclic and duplicate-free, and exactly the child has left it; a child that is not listed changes nothing. |
| Namespace.Root.Lookup | dect_mesh/src/aether_net.c:423-428 | A node is found if and only if one of that name is listed. |
| Namespace.Root.ReadDir | dect_mesh/src/aether_net.c:438-472 | One read of the directory returns the scan of its entries, or an error when it meets one whose record cannot be written. |
| Namespace.ScanIsPage | dect_mesh/src/aether_net.c:450-472 | When every record can be written the scan is the page of whole entries the paging theorem is about. |
| Namespace.ScanFailsExactly | dect_mesh/src/aether_net.c:450-472 | A read from an entry boundary is an error if and only if the entries before the first record that cannot be written all fit. |
| Namespace.PagingReturnsEveryEntryOnce | dect_mesh/src/aether_net.c:450-472 | On an unchanged directory, reads that each start where the last ended, with room for the largest entry, return the entries once each, whole, in order, and then nothing. |
| AetherNet.Net.constructor | dect_mesh/src/aether_net.c:1350-1377 | The service starts as the state machine's empty run. |
| AetherNet.Offer | dect_mesh/src/aether_net.c:303-343 | The loop body's branches match, truncate, queue, hand over or drop as the state machine's receive does. |
| AetherNet.Net.FanOut | dect_mesh/src/aether_net.c:300-344 | Every slot is offered the datagram once, and the wrapping counter grows by the number of slots that dropped it. |
| AetherNet.Net.RecvCb | dect_mesh/src/aether_net.c:269-349 | The callback is one Arrive event of the run, and counts one datagram and its clipped length, modulo 2^32. |
| AetherNet.Net.CtlWrite | dect_mesh/src/aether_net.c:353-395 | A parsed ctl command is one Ctl event of the run and succeeds exactly when the grammar accepts it in the slot's state. |
| AetherNet.Net.WriteCtl | dect_mesh/src/aether_net.c:622-636 | A ctl write of any text is the command its first 63 characters, stripped of trailing blanks and read as a C string, spell, and returns the whole count or EINVAL. |
| AetherNet.CtlTextOf | dect_mesh/src/aether_net.c:622-633 | The text a ctl write comes to is its first 63 characters without the newlines, returns and blanks behind, up to a NUL. |
| AetherNet.CtlTextMeans | dect_mesh/src/aether_net.c:353-395 | What each text does to a slot: announce and connect only to an unconnected one, connect to all ones to the party line, hangup always, with an EOF first in line; anything else, and an address that does not parse, is refused and changes nothing. |
| AetherNet.Net.BeginDataRead | dect_mesh/src/aether_net.c:563-572 | The get is one event of the run: the head is dequeued or the reader parks. |
| AetherNet.Net.FinishDataRead | dect_mesh/src/aether_net.c:573-599 | What the read returns is the frame of the dequeued datagram under the state at that moment, EMSGSIZE included. |
| AetherNet.Net.ConvAlloc | dect_mesh/src/aether_net.c:228-245 | The lowest free slot is cleared and its directory listed first, or nothing changes when all are in use. |
| AetherNet.Net.WalkClone | dect_mesh/src/aether_net.c:411-421 | Walking clone is one Clone event and yields the new slot's ctl, or nothing when the pool is full. |
| AetherNet.Net.Dial | dect_mesh/src/aether_net.c:873-885 | The internal clients' allocate-and-bind is one event of the run. |
| AetherNet.Net.ConvFree | dect_mesh/src/aether_net.c:247-265 | The directory leaves the list, the queue is purged, and the sentinel is put last. |
| AetherNet.Net.ClunkCtlFid | dect_mesh/src/aether_net.c:769-788 | Clunking ctl is one ClunkCtl event of the run. |
| AetherNet.Net.WalkRoot | dect_mesh/src/aether_net.c:401-429 | Walking "i" succeeds if and only if slot i is in use; any other name succeeds if and only if it is listed. |
| AetherNet.Net.ActiveCount | dect_mesh/src/aether_net.c:491-499 | The count in the status file is the number of numeric directories the root lists. |
| Retarget.NextKeeps | tools/achat/achat_core.c:70-119 | Every step of either process, the mesh or the relay keeps the rendezvous invariant, abandoned reads included. |
| Retarget.HangupReachesReader | dect_mesh/src/aether_net.c:383-393 | A hang-up that gets through puts an EOF on its way to the reader if and only if its purge wakes parked reads, or no abandoned one is parked ahead of it, or an EOF was on its way already. |
| Retarget.PendingSwitchHasEofComing | tools/achat/achat_core.c:95-110 | In every interleaving a pending switch means the conversation is unconnected, and a 0-byte read is queued, dequeued or with the reader if and only if no abandoned read swallowed it; a connect is only ever written to an unconnected conversation. |
| Retarget.SettledExactly | tools/achat/achat_core.c:143-172 | In every interleaving, whenever no switch is pending, the conversation is bound to the last address asked for, rapid repeats included, if and only if the last /connect's writes fared as they must. |
| Retarget.ReaderAloneCompletesExactly | tools/achat/achat_core.c:70-119 | From every state with a switch pending and no connect written, six moves of the reader alone complete it if and only if an EOF is on its way. |
| Retarget.SwitchCompletesExactly | tools/achat/achat_core.c:160-172 | A /connect whose hang-up is reported done is completed by the reader if and only if a purge wakes parked reads or, when it was written, no abandoned read was parked or an EOF was on its way. |
| Retarget.NothingElseHelps | dect_relay/src/main.c:319-327 | Without an EOF on its way no sequence of reads, expiries and datagrams completes the switch. |
| Retarget.RepeatedConnectsReach | tools/achat/achat_core.c:157-172 | One more /connect than there are abandoned reads puts an EOF on its way to the reader. |
| Retarget.AbandonedReadSwallowsEof | dect_relay/src/main.c:319-327 | A concrete run with one expired read, every write reported as it went: the hang-up's EOF goes to that read and the reader stays parked behind it, unless the purge wakes parked reads, and then the EOF reaches the reader. |
| Retarget.LostHangupReplyLeavesUnbound | tools/achat/achat_core.c:164-170 | A concrete run, under either kind of purge, in which a hang-up reported as failed but done leaves the conversation unbound with the reader parked. |
| Retarget.Chat.TakeCommand | tools/achat/achat_core.c:160-164 | /connect up to its ctl write is one step of the protocol. |
| Retarget.Chat.SendHangup | tools/achat/achat_core.c:165-165 | Its ctl write is one step, whatever becomes of the write or its reply; at the server every parked read gets an EOF, or only the oldest does, as the purge has it. |
| Retarget.Chat.EndCommand | tools/achat/achat_core.c:165-171 | Its end is one step; the flag is taken back exactly when the write was reported failed. |
| Retarget.Chat.EndOfRead | tools/achat/achat_core.c:81-95 | The reader takes a read for EOF exactly when it returned no bytes. |
| Retarget.Chat.Reconnect | tools/achat/achat_core.c:102-108 | Under the lock a stray EOF is ignored; a pending connect whose reply comes back fails only for an address that does not parse. |
| RequestRing.ExecKeeps | dect_mesh/src/aether_9p_mesh.c:52-161 | Every interleaving of producer and consumer keeps the ring's invariant. |
| RequestRing.RingTheorem | dect_mesh/src/aether_9p_mesh.c:79-161 | In every interleaving nothing the gate admitted is dropped, at most eight requests are held, they are served once each in order of arrival from slots nobody is writing, a count above zero means the drain is due or running, and at rest everything admitted has been served. |
| RequestRing.PendingIsFifo | dect_mesh/src/aether_9p_mesh.c:84-161 | From outside the ring is a FIFO of at most eight: a claim appends, serving takes the oldest, no other step shows. |
| RequestRing.Ring.AckGate | dect_mesh/src/aether_9p_mesh.c:120-129 | A request is let through if and only if the count is below eight. |
| RequestRing.Ring.DropDuplicate | dect_mesh/src/aether_9p_mesh.c:120-122 | A gated datagram that duplicate suppression then drops is one step and leaves the ring as it was. |
| RequestRing.Ring.ClaimSlot | dect_mesh/src/aether_9p_mesh.c:141-155 | The callback's own fullness test never fires after the gate. |
| RequestRing.Ring.FillSlot | dect_mesh/src/aether_9p_mesh.c:156-158 | Writing the claimed slot is one step of the interleaving. |
| RequestRing.Ring.CountSlot | dect_mesh/src/aether_9p_mesh.c:159-159 | So is counting it. |
| RequestRing.Ring.ServeHead | dect_mesh/src/aether_9p_mesh.c:85-95 | The request handed to the server is the oldest one admitted and not yet served. |
| RequestRing.Ring.AdvanceHead | dect_mesh/src/aether_9p_mesh.c:96-99 | Moving the head is one step. |
| RequestRing.Ring.UncountSlot | dect_mesh/src/aether_9p_mesh.c:100-100 | Uncounting is one step, and the count is never below zero. |
| TagRpc.Rpc | dect_mesh/src/aether_net.c:831-865 | For any policy and channel the retry and read loops compute the specified outcome; a reply behind any number of foreign ones within the attempt is returned without another send; a call without a reply has sent its request the full number of times, or its last send failed, or its last read was silent, empty or found the link down, and the policy gives up on that: never on a foreign tag. |
| TagRpc.AttemptExactly | tools/aether_forwarder.c:394-403 | One attempt, by the policy's own fields: the first read it does not skip decides, as the reply, as a reason to give up or as a reason to send again; foreign replies are always skipped, and after the last poll the next attempt begins. |
| TagRpc.ReactionsOfTheCopies | tools/aether_conv.c:819-830 | In numbers of sends and reads, how m9_rpc, mesh_rpc, do_bridge and pump_fn take failing sends, silence, a link that is down, empty reads and nothing but foreign replies. |
| TagRpc.AttemptsHonest | tools/aether_forwarder.c:390-405 | A reply returned bears the tag and is the first read that does; the last send before it was acknowledged; at most `attempts` sends and `attempts * polls` reads are made. |
| TagRpc.GivesUpOnlyWhenSpent | tools/aether_conv.c:819-829 | A call fails only with its budget spent, or on a failed send or a read other than a foreign reply that its policy gives up on. |
| TagRpc.BudgetsOfTheCopies | dect_relay/src/aether_conv_transport.c:89-108 | On any channel a call costs at most 2 sends and 4 reads in m9_rpc, 4 and 24 in mesh_rpc and do_bridge, 8 and 48 in pump_fn. |
| TagRpc.CallGetsItsOwnReply | dect_relay/src/aether_conv_transport.c:87-108 | A call whose tag no other has returns, if it succeeds, a reply to itself, whatever the channel loses, duplicates or delays, and every framed reply it passed over was to another call. |
| TagRpc.OwnReplyExactly | dect_mesh/src/aether_net.c:831-865 | For any list of calls, over one session or several, a call is safe from the replies to the others on every channel if and only if none of them has its tag. |
| TagRpc.RestartedTagsAreShared | dect_mesh/src/aether_net.c:888-889 | Over two sessions with the same tags no call has a tag of its own. |
| TagRpc.RestartedTagsTakeStaleReply | dect_mesh/src/aether_net.c:889-897 | A concrete channel on which a late reply of the session before, bearing the same tag, is taken. |
| Drain.RequestTag | dect_mesh/src/aether_net.c:891-930 | The session's k-th request carries the k-th of twenty distinct tags. |
| Drain.SetupOpensMflt | dect_mesh/src/aether_net.c:891-930 | The four set-up requests take the peer's session to dev/mflt open for reading as fid 2, and every Tread is on that fid. |
| Drain.WalkOnTheWire | dect_mesh/src/aether_net.c:907-913 | The walk as it goes out, byte for byte, to dev/mflt. |
| Drain.ReadOnTheWire | dect_mesh/src/aether_net.c:927-930 | Every Tread as it goes out, byte for byte: its tag, fid 2, offset 0 and the datagram size less 16. |
| Drain.OtherTypeEnds | dect_mesh/src/aether_net.c:896-932 | A reply of another type than its call's, an error say, ends the session: with nothing at the set-up, with what is collected at a Tread. |
| Drain.BatchesAnswerTheirReads | dect_mesh/src/aether_net.c:924-940 | When the peer sends only replies to this session's calls, the i-th batch kept is a reply to the i-th Tread and to no other call, and later batches were read later. |
| Drain.SessionAnswersItsReads | dect_mesh/src/aether_net.c:891-940 | The same from the session's first call on. |
| Drain.DrainPeer | dect_mesh/src/aether_net.c:873-946 | ENOSPC without a free slot. Otherwise the copies stay inside their buffers if and only if the session keeps no reply whose count is 2^31 or more while the buffer has room; and then what lands in the buffer is the payloads of the session's replies in order, complete unless the buffer is within eight bytes of full, at most one of them cut and only at the end, and room is left for a terminator. |
| Drain.ReadBatch | dect_mesh/src/aether_net.c:924-938 | One Tread brings the reply to it, by its tag, or nothing if that is missing, shorter than its count or of another type; the loop goes on from it exactly when it carries data or an oversized count. |
| Drain.ClampExactly | dect_mesh/src/aether_net.c:936-937 | For every count and every size below 2^31 of what is there and what fits, the length the two clamps leave is within both if and only if the count is below 2^31, and then it is the least of the three. |
| Drain.OversizedCountOverruns | dect_mesh/src/aether_net.c:891-940 | A concrete run, for every buffer the loop uses at all, in which each call gets its own reply and the fifth carries one byte under a count of 2^31: the copy is given 2^31 bytes. |
| DrainedNode.TreadServes | dect_mesh/src/aether_9p.c:422-459 | Against a node that serves a Tread's offset and count from its queue, each of the session's Treads brings the device line and at least one chunk from the front as long as there is one, and an empty reply when there is none. |
| DrainedNode.BatchesCarry | dect_mesh/src/aether_net.c:924-940 | Whatever replies are lost, the batches the session collects are the printed batches the node took out for the replies that came back, whole and in order. |
| DrainedNode.FlowConserves | dect_mesh/src/aether_9p.c:422-459 | Chunks are kept, wasted or still queued, each once; with none wasted the kept ones are the front of the queue; the reads stop only at an empty queue, after sixteen, or at a call without reply; nothing is wasted without a lost reply, and the first one lost while a chunk is queued wastes one. |
| DrainedNode.ReadTakesExactly | dect_mesh/src/aether_9p.c:443-447 | A read takes a chunk if and only if the datagram holds the device line and 286 bytes. |
| DrainedNode.DrainBringsQueue | dect_mesh/src/aether_net.c:873-946 | End to end for one named node and any lost replies: the drain leaves in the buffer a printed stream naming its device first, from its start, cut only where the room ends; the host parses it to the chunks kept, in order and under the node's name; without a lost reply these are the front of the node's queue, all of it unless sixteen reads did not do. |
| MeshPeer.ServeKeeps | doc/OTA.md:103-113 | Serving a request the peer can take keeps its slot a beginning of the goal with nothing skipped, grown by at most one tile. |
| MeshPeer.SettleKeeps | dect_mesh/src/aether_9p_mesh.c:52-63 | Serving a whole ring does so too, by at most one tile a request. |
| MeshPeer.StepKeeps | dect_mesh/src/aether_9p_mesh.c:120-161 | Whatever lands, however late and often, and whenever the peer serves: the invariant is kept and slot, settled slot and transmissions only grow. |
| MeshPeer.RunIsSafe | doc/OTA.md:101-113 | At every moment of a run whose sender transmits only what the settled peer could take, from any slot: the slot is a beginning of the goal (the file written over what was there) with no gap, anything finalized was all of the goal, and the slot trails the settled one by at most eight tiles. |
| MeshPush.Mesh.SendReliable | dect_mesh/src/aether_net.c:1234-1235 | Lost, landed without its acknowledgement, or landed and acknowledged; an acknowledged request has had its effect on the settled peer, whatever else lands around it. |
| MeshPush.Mesh.Background | dect_mesh/src/aether_9p_mesh.c:131-161 | Any number of servings and late landings keeps the run disciplined and an open file open. |
| MeshPush.TilesCover | dect_mesh/src/aether_net.c:1210-1243 | A block is cut into pieces without gap or overlap, none empty or larger than the maximum, only the last smaller, and their data is the block. |
| MeshPush.TileRecognized | dect_mesh/src/aether_net.c:1191-1196 | Every tile's frame fits one datagram and the peer's server recognizes it. |
| MeshPush.WalkOnTheWire | dect_mesh/src/aether_net.c:1115-1121 | The push's walk as it goes out, byte for byte, to dev/firmware. |
| MeshPush.Gateway.Rpc | dect_mesh/src/aether_net.c:831-865 | Set-up requests and the clunk are tried twice, unless a hang-up ends the first try, and a failure means a send or a reply was lost in each. |
| MeshPush.Gateway.PushOpen | dect_mesh/src/aether_net.c:1093-1168 | A successful target leaves the settled peer with dev/firmware open, even when replies were stale, and the next tag at 4; an earlier stream is dropped without a clunk. |
| MeshPush.Gateway.SendTile | dect_mesh/src/aether_net.c:1211-1240 | A tile is sent up to twelve times, each under the next tag, and given up only after twelve unacknowledged sends; once acknowledged it is in the settled slot. |
| MeshPush.Gateway.PushWrite | dect_mesh/src/aether_net.c:1186-1246 | A block is accepted whole, tile after tile in order, or fails, an active session's only after twelve unacknowledged sends of one tile; an accepted block is in the settled slot. |
| MeshPush.Gateway.PushClose | dect_mesh/src/aether_net.c:1250-1278 | The finalizing clunk goes out exactly when a session is active, whatever its RPC comes to, and the session ends; the goal is then finalized if and only if a copy of the clunk has landed, and without a fault one has. |
| MeshPush.Relay.PushTarget | dect_relay/src/main.c:1111-1126 | A target reported as done is done; one reported as failed met a fault. |
| MeshPush.Relay.PushCommit | dect_relay/src/main.c:1111-1126 | A commit reported as done has sent the clunk, and has finalized the goal if and only if a copy of it landed. |
| MeshPush.Relay.PushWrite | dect_relay/src/main.c:1131-1169 | Sub-chunked at the host's own offsets, a block is reported whole, and then is in the settled slot, or as an error. |
| MeshPush.HostWrite | tools/aether_conv.c:405-411 | Up to fifteen tries at a block; while a session is active it fails only after fifteen faults; a block reported whole is on the host's record and in the settled slot. |
| MeshPush.Stream | tools/aether_conv.c:399-419 | A pass demands to start at or below the peer's written position; what it counts as written are the file's blocks one after another from there, chunk by chunk, all in the settled slot; it stalls exactly when it ends short of the file's end. |
| MeshPush.Pass | tools/aether_conv.c:378-432 | A pass that streams begins at the resume offset; one that stalls makes the next resume 16384 bytes behind where it got, or at the start; one that never streams changes nothing. |
| MeshPush.ResumePointMoves | tools/aether_conv.c:369-376 | If every pass that stalls gets S > 16384 bytes beyond where it began, the resume point after k of them is at least k * (S - 16384), and lies more than 16384 bytes before the end. |
| MeshPush.PushCompletes | tools/aether_conv.c:378-438 | So with passes enough for the whole file at that pace, those that never stream aside, the last one reaches its end. |
| MeshPush.BackupIsWritten | tools/aether_conv.c:369-376 | Backing up 16384 bytes from any offset the settled peer has reached lands at or below what the peer has already written: eight slots of 384 bytes are covered. |
| MeshPush.ClunkedIsWhole | dect_mesh/src/aether_net.c:1250-1269 | Whenever a finalizing clunk is on the air the settled slot is the whole goal. |
| MeshPush.MeshOta | tools/aether_conv.c:346-445 | From any slot and over any pattern of lost acknowledgements, late landings, stalls and re-targets: at every moment of the run the slot is a beginning of the goal, the file over what was there, without a gap and anything finalized was all of the goal; the slot only grows; success means the commit went out with the settled slot equal to the goal, and the file is finalized if and only if a copy of the clunk landed and the slot held a beginning of the file at first; the passes are one run of resumptions, each 16384 bytes back, until one reaches the end or the allowance is used up; without a fault there is no failure and the goal is finalized. |
| MeshPeer.ClosingStep | dect_mesh/src/aether_net.c:1255-1268 | From an open dev/firmware on, any step but a late Tversion keeps it open until a copy of the clunk lands, and that finalizes. |
| MeshPeer.FinalizedExactly | dect_mesh/src/aether_net.c:1266-1268 | While closing, all of the goal is finalized if and only if some copy of the clunk has landed. |
| LateVersion.RemainingTiles | dect_mesh/src/aether_net.c:1210-1243 | The requests still to be sent carry the tiles of the rest of the file. |
| LateVersion.LateRequestExactly | tools/aether_conv.c:386-391 | If one request, the run's own or another gateway's Tversion, lands late while part of the file is in, and all remaining tiles land acknowledged, the whole file is in if and only if the late one was not a Tversion. |
| LateVersion.LateSessionFinalizesPart | tools/aether_conv.c:386-391 | From any open session with part of the file in: with the rest of the set-up landing late as well, the clunk finalizes the part that was in when the Tversion struck. |
| LateVersion.LateSessionRun | tools/aether_conv.c:386-391 | The same as a whole run from the start, tags counted as the gateway counts them, for every file longer than its first tile. |
| LateVersion.LostClunkRun | dect_mesh/src/aether_net.c:1266-1277 | A whole run for every file in which all tiles land, both copies of the clunk are lost, and nothing is finalized although the push succeeds. |
| Leftover.WholeExactlyOver | doc/OTA.md:103-113 | For every slot, file and tile size: when all tiles land on an open session the slot is the file written over what was there, and the file is in if and only if the slot held a beginning of it. |
| Leftover.SecondImageRun | tools/aether_conv.c:363-397 | A whole run with two images, for any of them: the push of one is given up after n bytes, the other is pushed without a loss, and what is finalized is the second image if and only if it begins with those n bytes. |
| Framer.AnyBytesAreSound | dect_relay/src/main.c:422-474 | For arbitrary bytes in arbitrary reads the accumulator stays below its buffer, a parsed size is between 7 and the buffer's and never overrun, the overflow reset is never reached, and every message handed up is as long as its size field says. |
| Framer.ResyncExactly | dect_relay/src/main.c:446-465 | Seven bytes whose size cannot be a frame's are dropped together and the next byte starts anew; any others are kept. |
| Framer.RunDeliversExactly | dect_relay/src/main.c:393-474 | For every sequence of valid frames and every run that reads exactly their bytes, the messages delivered are the frames sent if and only if no read reaches across a frame's end and each frame is handed off before the next byte. |
| Framer.FramesAreDelivered | dect_relay/src/main.c:393-474 | In particular, split into reads that end where a frame ends and handed off in between, exactly those frames are delivered. |
| Framer.DeliveredIsFed | dect_relay/src/main.c:446-472 | For arbitrary bytes no more is delivered than was buffered and read. |
| Framer.CrossingReadLosesTail | dect_relay/src/main.c:446-472 | What follows a finished frame in the same read leaves no trace. |
| Framer.MeshRx.Isr | dect_relay/src/main.c:443-472 | The interrupt's byte loop over one read is the specified feed. |
| Framer.MeshRx.Accept | dect_relay/src/main.c:447-471 | Its body, from any accumulator, does one byte of it. |
| Framer.MeshRx.WorkHandler | dect_relay/src/main.c:393-420 | The finished message is copied out and delivered, and the accumulator is free before that. |
| Relink.Session.EnsureAttached | dect_relay/src/main.c:537-602 | A versioned link is re-attached by a Tattach alone; only if that fails, or there is no version, a Tversion goes out and then a Tattach that decides; the flags afterwards are what the last of these came to, and success means a Tattach has succeeded since the last Tversion. |
| Relink.Session.HostDisconnected | dect_relay/src/main.c:637-645 | Both flags fall. |
| Relink.Session.OpenRemote | dect_relay/src/main.c:888-942 | At most two walks, then the open; both walks fail before it gives up on them, and the link is attached anew between; every walk comes when within the call a Tattach had succeeded with no Tversion after it, and it is still so unless another user of the link sent one in between; a link without a failed Tattach, disconnect or reboot sees no Tversion. |
| Relink.Session.MonitorRound | dect_relay/src/main.c:775-794 | A live link is left strictly alone and a dead one is tried. |
| Relink.LooseMeans | dect_relay/src/main.c:562-584 | The bookkeeping, spelled out: no successful Tversion yet, or since the last one a Tattach has failed or a host has disconnected. |
| Relink.EveryTversionHasItsReason | dect_relay/src/main.c:562-584 | Every Tversion ever sent is the first handshake or follows a failed Tattach or a host disconnect with no successful Tversion in between. |
| Relink.HeldSurvive | dect_relay/src/main.c:555-576 | With neither happening and no reboot, any number of link flaps and stale walks sends no Tversion and loses no conversation held on the 9151. |
| Relink.LostExactly | dect_relay/src/main.c:555-576 | A conversation its holder neither drops nor re-opens is lost if and only if a Tversion is sent or the 9151 reboots. |
| RelayWrite.Stream.Write | dect_relay/src/main.c:1014-1078 | For any answers of the 9151: the remote writes are contiguous from 0, at most the chunk each, the 9151's image has grown by exactly the bytes the host is told were taken, woff is their total, and a failed one ends the stream. |
| RelayWrite.BlockStops | dect_relay/src/main.c:1040-1075 | A block goes out in whole chunks until one is not taken whole: an error if that one failed, what was taken by then if it was short, the block's length if none was. |
| RelayWrite.Stream.Clunk | dect_relay/src/main.c:1081-1096 | The stream ends as it stands and its total is the image's length. |
| RelayWrite.PutExactly | tools/aether_conv.c:307-314 | For every remote, file and pair of block sizes the loop ends with the file on the 9151 if and only if the remote takes every write of the plan whole. |
| RelayWrite.PutSucceedsOnNothing | tools/aether_conv.c:307-314 | Against a remote that takes nothing and never fails the loop succeeds for every file and leaves nothing there. |
| RelayWrite.PutFile | tools/aether_conv.c:303-314 | The host's loop does what PutExactly speaks of, its remote answers given by call number, the failed open included; it fails exactly when the last write did. |
| Base64.DecOfEnc | dect_mesh/src/aether_9p.c:396-413 | The host's decoder undoes the device's encoder for every byte string. |
| Base64.LowBitsSuffice | tools/aether_forwarder.c:507-515 | Decoding depends only on the low fourteen bits of the accumulator, so its wrapping at 32 bits is harmless. |
| Base64.StandardAlphabet | dect_mesh/src/aether_9p.c:398-399 | The alphabet is A to Z, a to z, 0 to 9, plus and slash. |
| Base64.StrayCharactersAreSkipped | tools/aether_forwarder.c:504-510 | A character outside the alphabet changes nothing wherever it stands. |
| Base64.EncHasNoColon | dect_mesh/src/aether_9p.c:396-413 | No encoded chunk contains the token separator. |
| Base64.B64Enc | dect_mesh/src/aether_9p.c:396-413 | The encoder's loop writes the encoding at its index, leaves the rest of the buffer alone and returns its length. |
| Base64.B64Dec | tools/aether_forwarder.c:501-517 | The decoder's loop stores the decoded bytes as far as the buffer takes them. |
| Telemetry.ParsePrefix | tools/aether_forwarder.c:557-593 | Any text at all, cut anywhere, yields a prefix of the whole text's posts: no partial chunk, none under another name. |
| Telemetry.ParseOfRender | tools/aether_forwarder.c:557-593 | Parsing any printed sequence of DEV lines, chunk lines and diagnostic lines yields exactly the chunks with their devices, in order. |
| Telemetry.ParseOfCut | tools/aether_forwarder.c:557-593 | Parsing a printed stream cut anywhere yields a prefix of them. |
| Telemetry.PrintedStream | dect_mesh/src/aether_9p.c:433-457 | A small stream as it is printed, character for character. |
| MfltFiles.AttributionSurvivesConcat | dect_mesh/src/aether_9p.c:431-441 | Two streams after one another mean what they mean separately if and only if the second names its device before its first chunk or the first left no name. |
| MfltFiles.Node.GenMflt | dect_mesh/src/aether_9p.c:422-459 | The buffer holds the device line and whole chunk lines; what is printed has left the queue and the rest stays in order; it stops only when the queue is empty or fewer than 270 bytes are left, so a pending chunk is printed whenever 270 bytes are left behind the device line; a buffer too small for the device line gets a count past its end and loses no chunk. |
| MfltFiles.FindToken | tools/aether_forwarder.c:562-587 | The search finds the token that starts first and where its body ends, or none. |
| MfltFiles.ForwardStream | tools/aether_forwarder.c:557-593 | The loop posts exactly what parsing the text yields. |
| MeshTelemetry.HostSees | tools/aether_forwarder.c:557-593 | From a buffer of printed streams the host posts a prefix of what the drained neighbors emitted, all of it if nothing was cut. |
| MeshTelemetry.GenMfltMesh | dect_mesh/src/aether_9p.c:471-535 | For any outcomes of the drains and any time budget: the neighbors are gone through in table order, each one in use and not the node itself adding what its drain brings or a diagnostic line, until the table ends, three have brought something, or an eligible one meets fewer than 128 bytes or no time; the host posts their chunks each under its own device, from the first on and none twice, and all of them when room for another drain is left. |
| ChatLog.LineKeepsHistory | dect_mesh/src/aether_9p.c:206-226 | The stored text stays the end of the history, shorter than 1024 and at least the newest 512 or everything, if and only if the formatted line is shorter than 96 characters. |
| ChatLog.RunRefines | dect_mesh/src/aether_9p.c:206-226 | So it is after any run of lines that fit. |
| ChatLog.Log.Append | dect_mesh/src/aether_9p.c:212-225 | For every line: the shift and the copy stay inside the buffer if and only if the line fits behind the text with a character to spare, or there is a half to keep and the line fits the other; and then they do in place what the specification says, what lies behind the line buffer included. |
| ChatLog.Log.Snapshot | dect_mesh/src/aether_9p.c:228-237 | The start of the stored text, as far as the buffer takes it. |
| ChatLog.Log.Read | dect_mesh/src/aether_9p.c:239-255 | A read returns the stored text from its offset, as much as fits, and nothing only at the end. |
| ChatLog.TailIsLongest | dect_mesh/src/main.c:468-485 | No longer end of the text has at most n newlines. |
| ChatLog.LastLinesOfHistory | dect_mesh/src/main.c:468-485 | Whenever more than n newlines are stored, the last n lines shown are those of the whole history. |
| ChatLog.LastLines | dect_mesh/src/main.c:466-488 | The backward scan shows the longest end of the snapshot with at most n newlines, or all of it without an argument. |

## Left out

- MeshPush.Mesh.Background: a Tversion landing in the middle of a run, late or another gateway's, is excluded, because with one the push does not keep its promise; `LateRequestExactly` says exactly when.
- MeshPush.Gateway.PushWrite: reaping of Rwrites is not modelled, since the peer suppresses them (dect_mesh/src/aether_9p_mesh.c:163-180) and nothing reads them.
- MeshPush.Relay.PushWrite: the gateway's block write is all or error, so the branch for a short remote write is never taken; a library that shortens a write below the relay's chunk is not modelled.
- MeshPeer.ServeKeeps: the peer's session is modelled as far as fids 0 and 2 and dev/firmware; requests on anything else are refused.
- MeshPush.MeshOta: dev/reboot and dev/confirm sessions, which also open fid 2 at the peer, and requests still in the air from an earlier run are not part of this model; neither are pacing and sleeps.
- Drain.DrainPeer: what memory holds after an overrun is not modelled, the run ends there; the conversation it runs over is `AetherNet.Net.Dial` and `ConvFree`.
- MeshTelemetry.GenMfltMesh: each neighbor's stream is given, and what its drain comes to is any beginning of it that leaves a terminator and stops short only within eight bytes of the room; `DrainBringsQueue` proves that of a drain whose requests land. The diagnostic lines' numbers are arbitrary.
- DrainedNode.DrainBringsQueue: requests land, once for each send; a request lost or repeated on the air is not modelled there, a lost reply is.
- MfltFiles.Node.GenMflt: the packetizer yields a chunk whenever it says one is available.
- MfltFiles.ForwardStream: every POST succeeds; the device table is not modelled.
- ChatLog.Log.Append: the formatting itself is given, and what memory holds after an access outside the buffer is not modelled.
- Namespace.Root: the five-file subtree inside a conversation's directory is not modelled; it is rebuilt at each allocation and reached only through the directory.
- AetherNet.Net.BeginDataRead: one reader per conversation; a second get while one is outstanding does nothing here. Reads abandoned at the server are modelled in `Retarget`.
- AetherNet.Net.WriteCtl: what address text sscanf accepts is a parameter.
- Retarget.Chat.Deliver: datagrams are not truncated to the maximum message here. An answer that crosses the relay giving up on its read counts as having found the read abandoned.
- TagRpc.CallGetsItsOwnReply: the peer sends nothing but replies on the conversation; chat datagrams of the same shape and tag are not modelled.
- The event numbers carried by queued datagrams and the per-slot ledgers are the model's own bookkeeping; no operation branches on them.
- Outgoing data writes, statistics other than the drop counter, prove, addr and the other single-value files.
- The conversation transport's connect and disconnect (dect_relay/src/aether_conv_transport.c:121-216), whose fid bookkeeping would add only easy members; its pump is one policy of `TagRpc`.
- The staged-image auto-confirm of the relay, LEDs, resets, BLE, USB and console bridging.
- mesh_rx_reset racing a pending hand-off, and the unlocked reads of counters.
- Radio, routing, neighbor tables, ARQ internals, the 9P and DFU libraries, cryptography.
- Real time: timeouts and sleeps are choices.
