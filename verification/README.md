# Verified models of pg's transport, cache and codec packages

These Dafny modules model five packages of the repository and prove what they promise, over all inputs, all
schedules and all reachable states. `dafny verify dfyconfig.toml` checks everything.

**`rdt` — reliable transfer over a network that loses, repeats and reorders.** `RdtProtocol` is one direction of one
connection as a transition system. The network is the set of all messages ever sent: any of them may be handled any
number of times, at any later moment, or never. The receiving side moves one statement at a time (lookup, delete, push,
increment), and the goroutine that answers queries scans the receive pool one lookup at a time in between.
The sending side has the channel in which received NCKs wait, in order, for the NCK loop, the wait of `Write` for the
window, and the send of `resend` on an unbuffered channel, which parks the NCK loop until such a `Write` takes it.
`RdtSafety` is the invariant, its preservation and its stability under any
loss, `RdtGuarantees` its meaning for every run. `RdtProgress` has the progress measure and the number of rounds that
suffice when the NCK loop is woken between them, `RdtRounds` a round in the midst of any other steps, `RdtStuck` exactly
when the send pool can empty without a `Write`, and that no `Write` is stuck, `RdtQueue` when the channel of NCKs stops
the packet loop, and `RdtFinish` exactly when a close can still succeed. `RdtClose` and `RdtFindings` show what
closing and reordering can do that a reader may not expect. `RdtAtomic` and `RdtWrite` describe uninterrupted calls and prove that each is a run of
the system. `RdtConn` is the connection as a class with the program's loops, every method proved equal to these
descriptions, and `RdtWire` shows that encoding the messages loses nothing.

**`connmux` — many streams on one ordered pipe.** `MuxProtocol` is the two-ended system of dialing, implicit accept,
DATA, FIN and partial reads; each stream carries its identity as history, the program only its wrapping 32-bit number,
given out unasked. `MuxSafety` and `MuxRuns` prove the invariant for runs in which every number was free when it was
given, `MuxGuarantees` states what it means, and that runs with up to 2^31 streams a side are such runs. `MuxReuse`
proves that a free number is exactly the condition under which no frame can go to a wrong stream. `MuxWire` is the
framing, and `MuxSession` is the session and its connections as objects writing bytes to the pipe.

**`cache/lru` and `cache` — recency cache and TTL cache.** `LinkedList` is the ring of `container/list` on the heap,
`Lru` the map into it, `LruSpec` the pure recency sequence it refines, `LruTheorems` inclusion of a smaller cache in a
larger one and agreement with a textbook cache of time stamps. `LruRace` takes the move to the front apart into its
writes of links, as readers that share a read lock interleave them. `TtlCache` is the entry as a class, and any number of callers
of `LoadTTL` that interleave between its lock sections and between all accesses to the clock and to an entry.

**`stun` and `socks5` — codecs and a two-party handshake.** `StunAttrs` is the attribute walk, `Stun` the messages of
RFC 5389, `StunParse` the printers and parsers with their loops and captured variables, `StunTheorems` what they make
of each other's packets, and `StunPackets` every packet byte by byte and every verdict. `Socks5` describes both sides of the handshake of RFC 1928 and RFC 1929 read by read,
`Confluence` proves that two sides whose moves commute come to one end under every schedule, and do get there, `Socks5Agreement` says
which end that is, `Socks5Conn` proves the two handshake procedures equal to their sides, and
`Socks5Transcript` says byte by byte what goes over the wire.

Where a property one would expect is false of the code, the code is modelled as it is:

- The NCK loop handles one NCK, the first in its channel, and is then parked until a `Write` waits for the window. When
  no `Write` does, what is in the send pool may stay there and a lost frame may never be sent again
  (`RdtStuck.LastFrameLost`); `RdtStuck.EmptiesAlone` is the exact condition. It is not enough that all frames are on
  their way and no NCK waits: the query of the check loop reaches one window beyond ackNO, and the pool can hold more
  (`RdtFindings.OneQueryIsNotEnough`).
- While the NCK loop is parked each turn of the check loop adds an NCK to the channel, until the packet loop, which all
  connections of the listener share, stops in `recv` (`RdtQueue.ListenerStops`); `RdtQueue.HandFrees` says when it goes
  on without a `Write`.
- A close may be unable to get its FINACK although the network is good from then on (`RdtFinish.CloseFails`);
  `RdtFinish.CloseCanSucceed` is the exact condition.
- Two readers of the TTL cache that hit neighbouring entries at once can leave a list that is no ring and a walk that
  never ends, for every list of three or more (`LruRace.TwoReadersBreak`); one reader alone keeps the ring
  (`LruRace.AloneMoves`).
- After the peer's FIN, `Close` drops the rest of a half-read frame while `Read` can still take later frames from the
  closed channel (`RdtFindings.CloseSkipsBytes`); `RdtClose.CloseGap` is the exact condition, `CloseGuard` the part of it
  a caller can see.
- While the drain loop is half way, a query can acknowledge frames that wait in the pool, so `ackNO` runs ahead of
  `recvNO` (`RdtFindings.AckAheadOfDelivery`), though never further than the drain loop will come
  (`RdtAtomic.AckWithinDrain`); between packets it does not (`RdtGuarantees.AckWhenIdle`).
- The drain loop deletes the entry before the one it delivers, so one delivered frame stays in the receive pool for each
  reordering (`RdtFindings.PoolKeepsDelivered`); no invariant depends on those entries.
- `sendFIN` on a connection that wrote nothing always times out, because FINACK 0 reads as the end of the retries
  (`RdtConn.Conn.AwaitFinAck`).
- A `Write` that fails returns 0 although frames were accepted (`RdtWrite.FailedWriteKeepsFrames`): at least those there
  was room for when it was called (`RdtWrite.FailedWrite`).
- The loop of `sendNCK` ends if and only if it is not asked about the last 32-bit number (`RdtConn.LoopEnds`).
- A mux `Write` of more than 65535 bytes is cut by its 16-bit length (`MuxWire.FrameRoundTrip`, both directions).
- A stream number is given again without asking. A run of 2^31 + 1 streams misroutes a frame
  (`MuxReuse.WrapMisroutes`); the number is free if and only if nothing can be misrouted
  (`MuxReuse.FreeIffNeverMisrouted`).
- A binding request may end in a FINGERPRINT that is not four bytes long; the checksum then covers the bytes before it
  exactly when it is 1 to 4 bytes long (`StunTheorems.AcceptedRequest`, `EmptyFingerprintAccepted`).
- A SOCKS name or password whose length is a multiple of 256 is announced as empty and refused
  (`Socks5Agreement.Agreement`).
- The time since "never" saturates at 2^63 - 1, so with that ttl a first load stores nothing and finds nothing, at any
  moment (`TtlCache.FirstLoad`); a call finds nothing if and only if no caller has stored anything by then
  (`TtlCache.EmptyIffNeverStored`).

## Model

| member | source | states |
|---|---|---|
| RdtSafety.StepKeeps | rdt/rdt.go:69-417 | every step of sender, packet loop, query goroutine and application keeps the whole invariant, under any network behaviour |
| RdtSafety.ExecKeeps | rdt/rdt.go:69-417 | every run keeps it, and what was sent, written, pushed and received only grows |
| RdtSafety.LossKeeps | rdt/rdt.go:252-259 | losing any part of what is on its way, at any moment, keeps the invariant |
| RdtGuarantees.HistoryIsRun | rdt/rdt.go:69-136 | the history fields are exactly the bytes that went into Write and came out of Read in the run |
| RdtGuarantees.InOrderDelivery | rdt/rdt.go:306-343 | frames put into `inbound` are the written frames 1..recvNO, in order, with their bytes; bytes read, dropped and waiting form a prefix of the bytes written |
| RdtGuarantees.ReadsArePrefix | rdt/rdt.go:69-136 | until the receiver closes, the bytes returned by any reads are a prefix of the bytes passed to any writes |
| RdtGuarantees.FlowControl | rdt/rdt.go:112-130 | the send pool never exceeds the window, sentNO never exceeds recvNO + 2 windows, fewer than two windows of frames wait |
| RdtGuarantees.NeverTooFar | rdt/rdt.go:336-339 | no DATA frame of the peer, however late, is out of the receiver's reach |
| RdtGuarantees.OldNckIsSafe | rdt/rdt.go:229-247 | an NCK handled at any later time removes only frames the receiver holds; those it names that are still missing stay, unchanged |
| RdtGuarantees.UnreceivedIsPooled | rdt/rdt.go:127-131 | each frame sent and not received is in the send pool with its bytes, at every moment |
| RdtGuarantees.AckWhenIdle | rdt/rdt.go:284-291 | between packets ackNO <= recvNO <= sentNO |
| RdtGuarantees.NckWhenIdle | rdt/rdt.go:349-366 | between packets an NCK is empty iff its number is delivered, and one within the window is never dropped for overflow |
| RdtGuarantees.QueryAnswer | rdt/rdt.go:434-446 | a report made during the drain loop is always sent, and what it leaves out has arrived |
| RdtGuarantees.GracefulClose | rdt/rdt.go:293-302 | a FINACK exists only when every frame written is in the peer's `inbound` or beyond, and numbers agree |
| RdtGuarantees.StaysOnNet | rdt/rdt.go:252-259 | what is true of a message when it is sent is true of every copy handled later |
| RdtSafety.ResentSpec | rdt/rdt.go:231-240 | resend sends exactly the named frames that are in the pool |
| RdtSafety.ResentOk | rdt/rdt.go:231-240 | each is a written frame with its own number and bytes |
| RdtSafety.ResentInOrder | rdt/rdt.go:231-240 | in the order of the list, once for each time a number is named |
| RdtAtomic.AckWithinDrain | rdt/rdt.go:284-291 | in every state ackNO is at most what the drain loop will deliver without another packet |
| RdtAtomic.TickIsRun | rdt/rdt.go:410-416 | in every reachable state the check loop sends nothing iff the pool is empty, else one query, about everything sent but no more than a window beyond ackNO; it is a step of the system, and between packets can be answered without overflow |
| RdtConn.Conn.CheckTick | rdt/rdt.go:403-417 | the loop sends nothing iff the pool is empty, else exactly that query |
| RdtProgress.RoundBeginsWithTick | rdt/rdt.go:410-416 | a round, after the wake-up it may need, begins with exactly the query that the check loop sends |
| RdtSafety.SendNckSound | rdt/rdt.go:349-366 | a report between packets leaves out only what has arrived, is no longer than the window and, while the sender is open, reaches no further than it |
| RdtSafety.ReportSpec | rdt/rdt.go:349-366 | the report lists the gaps above recvNO in ascending order, each once, counted in 16 bits; none is sent iff the count exceeds the window |
| RdtAtomic.AcceptCases | rdt/rdt.go:314-342 | which frames are dropped, kept and delivered |
| RdtAtomic.ReplyCases | rdt/rdt.go:311-339 | a report on each frame whose number is a multiple of the window, and on one more than two windows ahead, and about what |
| RdtAtomic.DrainedOrder | rdt/rdt.go:320-333 | the drain loop pushes the pooled frames recvNO+1.. in order and stops at the first gap |
| RdtAtomic.DrainedSpec | rdt/rdt.go:320-333 | after the drain loop nothing deliverable is left and no undelivered frame is lost |
| RdtAtomic.DataIsRun | rdt/rdt.go:306-343 | an uninterrupted recvData is a run of the fine-grained system |
| RdtAtomic.QueryIsRun | rdt/rdt.go:349-366 | so is a query answered without interruption |
| RdtAtomic.NckIsRun | rdt/rdt.go:229-250 | so is receiving and handling an NCK when no other waits and the NCK loop is free: what is sent again, what stays in the pool, and the loop parked in its last send |
| RdtAtomic.ReceiveIsRun | rdt/rdt.go:280-292 | so is recv of an NCK: acknowledged at once, then in the channel if there is room, else in the hand of the blocked packet loop |
| RdtProgress.RoundSpec | rdt/rdt.go:403-446 | a round, after the wake-up it may need, is a run that delivers at least all it asked about and leaves the NCK loop parked |
| RdtProgress.RoundDecreases | rdt/rdt.go:229-250 | every completed round with a non-empty pool strictly decreases (unacknowledged, undelivered, pooled) |
| RdtProgress.NothingUndoes | rdt/rdt.go:229-417 | no other event, while nothing is written, increases that measure |
| RdtProgress.RoundsFinish | rdt/rdt.go:229-250 | from a state in which no NCK waits, two rounds per unacknowledged window and one more deliver every frame and empty the pool, provided the NCK loop is woken as often |
| RdtProgress.WindowsIsLeast | rdt/rdt.go:415 | the number of windows counted is the least that covers the frames |
| RdtProgress.RoundsAreRun | rdt/rdt.go:403-446 | completed rounds from a state in which no NCK waits, their wake-ups by waiting Writes included, are runs of the system |
| RdtProgress.HeadHandled | rdt/rdt.go:420-432 | a free NCK loop can take the first waiting NCK, whatever waits behind it: what is sent again, what stays in the pool, what still waits |
| RdtProgress.QueueHandled | rdt/rdt.go:229-432 | the NCKs that wait are handled in their order, each for one wake-up |
| RdtProgress.Settles | rdt/rdt.go:320-358 | the receiver can always come to rest without the sender |
| RdtProgress.WakesDeliver | rdt/rdt.go:229-446 | from any state, after any loss, wake-ups for every NCK that waits and for the rounds after them lead to everything delivered in order, by frames sent again from then on, with nothing written |
| RdtProgress.WaitEnds | rdt/rdt.go:112-126 | a Write that waits for the window, and waits again each time it is woken too early, gets room |
| RdtRounds.InterleavedRound | rdt/rdt.go:229-446 | a query, its answer, its handling and the arrivals decrease the measure whatever other steps and other NCKs come between them, as long as nothing is written |
| RdtStuck.ParkedStays | rdt/rdt.go:248-249 | while no Write takes part a parked sender keeps its pool and sends no frame again |
| RdtStuck.EmptiesAlone | rdt/rdt.go:229-250 | without a Write the pool can be emptied iff it is empty, or the NCK loop is free and the next NCK clears it: the first that waits, or, when none waits and each frame has arrived or is on its way, one on the network or the report on the next query or on a DATA frame that is on its way |
| RdtStuck.EmptiesAfterLoss | rdt/rdt.go:229-250 | the same for every run and every loss at its end |
| RdtStuck.LastFrameLost | rdt/rdt.go:248-249 | a run of two frames after which the lost second one is never sent again unless a Write waits |
| RdtStuck.RoomComes | rdt/rdt.go:111-126 | from any state, after any loss and with any NCKs waiting, there is room for a frame again, by messages sent from then on |
| RdtStuck.WriteFinishes | rdt/rdt.go:100-136 | so any number of frames can be accepted, in order: no Write is stuck |
| RdtQueue.QueueFills | rdt/rdt.go:403-432 | with the NCK loop parked and a frame unacknowledged, for every n up to the capacity a run without a Write leaves n NCKs in the channel |
| RdtQueue.HandFrees | rdt/rdt.go:292 | without a Write the packet loop, about to put an NCK into the channel, goes on iff the NCK loop is free or the channel is not full |
| RdtQueue.PacketLoopStops | rdt/rdt.go:292 | from any such state a run without a Write stops the packet loop for good, as long as no Write comes |
| RdtQueue.ListenerStops | rdt/rdt.go:292 | a run of two frames from the start that ends so |
| RdtFinish.CloseCanSucceed | rdt/rdt.go:140-171 | a close that has begun can still receive a FINACK iff all frames have arrived or are on their way and the packet loop is not stopped, or the NCK loop is free and the NCK it handles next names all that is lost |
| RdtFinish.FinReport | rdt/rdt.go:293-296 | the report on a FIN is never dropped for overflow and names every missing frame |
| RdtFinish.CloseFails | rdt/rdt.go:140-171 | a run of two frames and a close after which no FINACK can come |
| RdtClose.LateReads | rdt/rdt.go:160-166 | what is read after the close is a prefix of what was queued at the close |
| RdtClose.CloseGap | rdt/rdt.go:140-171 | all later reads continue the prefix iff the queued bytes are a prefix of the dropped bytes followed by the queued bytes |
| RdtClose.CloseGuard | rdt/rdt.go:160-166 | safe when no frame is half read or none is queued; unsafe when both are and the first bytes differ |
| RdtFindings.CloseSkipsBytes | rdt/rdt.go:160-166 | a run that writes 1 2 3 and reads 1 3 |
| RdtFindings.AckAheadOfDelivery | rdt/rdt.go:317-333 | a run in which ackNO is 2 and recvNO 1 |
| RdtFindings.PoolKeepsDelivered | rdt/rdt.go:326 | for every n a run that ends with everything acknowledged and n delivered frames in the pool |
| RdtFindings.OneQueryIsNotEnough | rdt/rdt.go:415 | a run after which the loop is free, no NCK waits and all frames are on their way, and still no run without a Write empties the pool |
| RdtWire.WireRoundTrip | rdt/rdt.go:252-283 | a message that is built, marked with its side, sent, unmarked and parsed is itself and fits the MTU |
| RdtWire.WireIsTransparent | rdt/rdt.go:536-545 | every message of every run is such a message |
| RdtWire.NumbersRoundTrip | rdt/rdt.go:285-288 | the numbers of an NCK are read back in order, whatever follows |
| Bytes.BigEndian32 | rdt/rdt.go:261-267 | the four bytes of a number, the most significant first |
| RdtWire.WireLayout | rdt/rdt.go:252-267 | every packet byte by byte: command with the server's bit, number, length, and the frame |
| RdtWire.ReportLayout | rdt/rdt.go:285-288 | each missing number of a report in its four bytes |
| RdtWire.WindowIsLargest | rdt/rdt.go:575-576 | the window is the largest number of gaps whose report fits the MTU, the frame size the largest payload |
| RdtWire.TailIgnored | rdt/rdt.go:269-304 | bytes after the message in a packet are ignored |
| RdtWire.DroppedPackets | rdt/rdt.go:269-304 | a frame or report is dropped iff it is cut short, and so is any other command |
| RdtWrite.ChunksSpec | rdt/rdt.go:105-110 | the frames of a Write concatenate to its bytes and each is non-empty and fits |
| RdtWrite.ChunkAt | rdt/rdt.go:105-110 | how many frames there are, and frame i is the slice that starts at i times the frame size |
| RdtWrite.WriteIsRun | rdt/rdt.go:100-136 | a Write, whatever NCKs arrive and are handled while it waits, is a run that appends exactly the accepted frames and sends exactly the packets of its outcome |
| RdtWrite.WriteWithRoom | rdt/rdt.go:127-133 | a Write for which there is room does not wait: its frames get the next numbers in order, each is pooled and sent once |
| RdtWrite.WaitsWhileFull | rdt/rdt.go:111-126 | a Write waits exactly while the pool is full, letting a parked NCK loop go on each time, and goes on when there is room |
| RdtWrite.FullToTheEnd | rdt/rdt.go:114-118 | if there is no room until the close it has accepted nothing |
| RdtWrite.EventEffect | rdt/rdt.go:229-292 | what the arrival and the handling of an NCK meanwhile do to acknowledgement, channel and pool, and what is sent |
| RdtWrite.WriteAppends | rdt/rdt.go:134-135 | a successful Write appends exactly its bytes, a failed one a first part cut at a frame boundary |
| RdtWrite.FailedWrite | rdt/rdt.go:111-126 | a failed Write has accepted at least the frames there was room for; when nothing happens while it waits it fails iff there is not room for all, having accepted exactly those |
| RdtWrite.FailedWriteKeepsFrames | rdt/rdt.go:115-118 | a Write of five bytes that fails after four have joined the stream |
| RdtConn.Conn.Write | rdt/rdt.go:100-136 | state, channel, packets and result of the loop with its wait for the window, equal to the outcome proved a run |
| RdtConn.Conn.Read | rdt/rdt.go:69-95 | result and new state are the system's Read; at most `size` bytes, from one frame, nothing lost, repeated or out of turn |
| RdtConn.Conn.RecvData | rdt/rdt.go:306-343 | in-order, duplicate, pooled and too-far branches and the reports each makes |
| RdtConn.Conn.Drain | rdt/rdt.go:320-333 | the loop computes the drained receiver |
| RdtConn.Conn.CollectGaps | rdt/rdt.go:350-360 | the loop lists exactly the missing numbers, with a 16-bit count |
| RdtConn.Conn.SendNCK | rdt/rdt.go:349-366 | the report sent, or none on overflow |
| RdtConn.LoopEnds | rdt/rdt.go:352 | the 32-bit loop counter passes `no` iff `no` is not the last 32-bit number |
| RdtConn.Conn.AnswerQuery | rdt/rdt.go:434-445 | one query is taken and answered |
| RdtConn.Conn.Resend | rdt/rdt.go:229-250 | both loops: the packets sent again, the pool left, and the loop parked |
| RdtConn.Conn.HandleNck | rdt/rdt.go:420-432 | the first NCK of the channel is taken, a blocked packet loop goes on, and the NCK is acted upon, which parks the loop |
| RdtConn.Conn.Recv | rdt/rdt.go:269-304 | the effect of any packet of 7 bytes or more, by what it decodes to; an NCK blocks it iff the channel is full |
| RdtConn.Conn.AwaitFinAck | rdt/rdt.go:387-400 | success iff sentNO comes before any 0 and is not 0; timeout iff 0 comes first |
| MuxRuns.StepKeeps | connmux/connmux.go:78-349 | every write, close, delivery, read, removal and every opening with a free number keeps the invariant of both ends |
| MuxGuarantees.Conservation | connmux/connmux.go:78-123 | per stream and direction, bytes written = bytes read ++ buf ++ inbound ++ DATA on the wire, in every run |
| MuxGuarantees.ReadsArePrefix | connmux/connmux.go:78-104 | what is read of a stream is a prefix of what the other end wrote to it |
| MuxGuarantees.FinMeansAll | connmux/connmux.go:323-330 | when the FIN has arrived, all that was ever written has |
| MuxGuarantees.DisjointKeys | connmux/connmux.go:49-55 | no number is dialed and accepted at once, also after wrap-around |
| MuxGuarantees.NothingFollowsFin | connmux/connmux.go:106-138 | no frame of a stream follows its FIN on the wire |
| MuxGuarantees.AcceptedExactlyOnce | connmux/connmux.go:305-321 | accepted streams are exactly the peer's streams known here, each once, and no channel is closed twice |
| MuxGuarantees.RightStream | connmux/connmux.go:295-330 | in a run that gave only free numbers the lookup by number gives every frame to its own stream |
| MuxGuarantees.NextFrameIsReady | connmux/connmux.go:295-330 | in every run the next frame meets what the frame handler needs |
| MuxGuarantees.FreshUntilWrap | connmux/connmux.go:36-41 | the next number is free while fewer than 2^31 streams were opened |
| MuxGuarantees.FewOpensAreCareful | connmux/connmux.go:334-349 | every run in which no side opens more than 2^31 streams gives only free numbers, so all of the above holds of it |
| MuxReuse.FreeIffNeverMisrouted | connmux/connmux.go:334-349 | the number OpenStream gives is free iff no way to go on misroutes a frame |
| MuxReuse.WrapMisroutes | connmux/connmux.go:36-41 | a run of 2^31 + 1 opened streams, the first still there, that misroutes a frame |
| MuxSession.SeqGen.GenSeq | connmux/connmux.go:36-41 | the k-th call gives the k-th number of the generator modulo 2^32 |
| MuxSession.NextNumber | connmux/connmux.go:36-41 | numbers advance by delta modulo 2^32 from the initial one |
| MuxSession.MuxConn.Read | connmux/connmux.go:78-104 | what is returned and kept, including the choice of EOF: nothing lost, repeated or out of turn, a frame that fits finished and no second one begun |
| MuxSession.Session.OpenStream | connmux/connmux.go:334-349 | the session becomes the system's end with the next stream opened |
| MuxSession.Session.Write | connmux/connmux.go:106-123 | one DATA frame and the system's end after it, or nothing once closed |
| MuxSession.Session.Close | connmux/connmux.go:125-138 | the system's end closed for writing, and one FIN, once |
| MuxSession.Session.EndWait | connmux/connmux.go:140-147 | the wait ends, at the FIN or at the time-out |
| MuxSession.Session.Forget | connmux/connmux.go:148-151 | the system's end with the stream forgotten and whatever was under its number deleted |
| MuxSession.Session.NextFrame | connmux/connmux.go:274-332 | from the bytes of the next frame to the new state of maps, queues and pipe, equal to the system's delivery |
| MuxSession.PipeCarriesFrames | connmux/connmux.go:106-138 | the bytes a session has written decode to exactly the frames it has sent |
| MuxSession.CloseIsSteps | connmux/connmux.go:125-138 | Close is the system's two closing steps |
| MuxSession.NextFrameIsSteps | connmux/connmux.go:323-330 | handling a frame is a delivery, followed by the closing steps for a FIN |
| MuxSession.MethodsAreSteps | connmux/connmux.go:78-151 | writing, reading, forgetting and opening are steps of the system with the effect the methods state |
| MuxSession.FrameEffect | connmux/connmux.go:295-330 | whose stream a frame is, and all that DATA and FIN change, for known and unknown numbers |
| MuxSession.ForgetEffect | connmux/connmux.go:148-151 | forgetting a stream deletes what is under its number from both maps and changes nothing else |
| MuxSession.CommandOf | connmux/connmux.go:106-128 | DATA is command 0, a FIN command 1 |
| MuxWire.FrameLayout | connmux/connmux.go:106-110 | a frame byte by byte |
| MuxWire.FrameErrors | connmux/connmux.go:274-331 | exactly when reading a frame fails, and with which error |
| MuxWire.FrameRoundTrip | connmux/connmux.go:106-110 | the next frame is the one written, whatever follows, iff its payload fits 16 bits; else where it is cut |
| MuxWire.FramesRoundTrip | connmux/connmux.go:251-294 | decoding the concatenation of any legal frames gives exactly these and leaves no byte |
| MuxWire.DecodedIsEncoded | connmux/connmux.go:251-294 | conversely, any bytes are the encoding of the frames read from them followed by what cannot be read |
| MuxWire.FramesOfPrefix | connmux/connmux.go:251-294 | any first part of the bytes gives a first part of the frames |
| MuxWire.Pipe.ReadFrame | connmux/connmux.go:274-331 | the reads of a frame, its errors, and what each leaves unread |
| MuxWire.Pipe.Run | connmux/connmux.go:251-264 | the loop returns the decoded list, and reads exactly up to its end and the failed frame |
| LruSpec.RunKeeps | cache/lru/lru.go:29-76 | in every history no key twice and never more than capacity entries |
| LruSpec.TouchedFirst | cache/lru/lru.go:29-52 | a hit or an update is in front with its value and can be read back |
| LruSpec.OthersStay | cache/lru/lru.go:54-60 | another key goes away iff a new key is put on a full cache and it is the last one |
| LruTheorems.Inclusion | cache/lru/lru.go:29-76 | for any common history a smaller cache is a subsequence of a larger one: every hit is the same hit |
| LruTheorems.SubOrder | cache/lru/lru.go:29-76 | a subsequence keeps the recency order |
| LruTheorems.ListIsRecency | cache/lru/lru.go:29-76 | the list is the textbook cache of time stamps, latest first, for every history |
| LinkedList.List.Remove | cache/lru/lru.go:57 | unlinking one node of the heap ring leaves the others in order |
| LinkedList.List.PushFront | cache/lru/lru.go:62 | a new node behind the root |
| LinkedList.List.MoveToFront | cache/lru/lru.go:31 | the node moves behind the root, also when it is there already |
| Lru.Cache.Get | cache/lru/lru.go:29-35 | result and new contents, for map and linked list together |
| Lru.Cache.Put | cache/lru/lru.go:47-64 | update in front, or insertion with eviction of the last node |
| Lru.Cache.Del | cache/lru/lru.go:66-71 | removal from map and list |
| Lru.Cache.Clear | cache/lru/lru.go:73-76 | both empty |
| Lru.Cache.Find | cache/lru/lru.go:37-45 | some matching entry, moved to front; none iff nothing matches |
| Lru.Cache.Dump | cache/lru/lru.go:78-84 | exactly the entries |
| LruRace.AloneMoves | cache/lru/lru.go:31 | the statements of one move, with no other reader between them, put any node in front of the ring |
| LruRace.TwoReadersBreak | cache/cache.go:42-44 | for every list and any two neighbours in it, not in front, an interleaving of two readers ends with links that are no ring and a walk from the front that never ends |
| TtlCache.BoundedStaleness | cache/cache.go:17-58 | in every interleaving of callers and evictions a load that returns a value returns what newValue of its own key gave no more than the ttl and two delays of a refresh before its check |
| TtlCache.RunKeeps | cache/cache.go:41-58 | cells hold values of their own key, and the LRU refers to cells of its keys |
| TtlCache.CacheValue.LoadTTL | cache/cache.go:17-24 | within the ttl, a second if it is 0, the stored value is returned and nothing changes; beyond it, and always for a negative ttl, a new value is made and returned; a caller gets nothing iff nothing was stored and the saturating time since the zero time is within the ttl |
| TtlCache.LoadIsSteps | cache/cache.go:17-24 | the class's load is the five steps of a caller of the system when nothing comes between them |
| TtlCache.EmptyIffNeverStored | cache/cache.go:18-23 | in every interleaving a call returns nothing iff no caller has stored a value in its entry by then |
| TtlCache.FirstLoad | cache/cache.go:18-23 | the first load of a key, at any moment and for any ttl: nothing iff the saturating elapsed time is within the ttl, always for the largest |
| TtlCache.LoadAlone | cache/cache.go:41-58 | a whole load of a key that is not interrupted: the entry it uses comes first in the LRU, and is kept within the ttl and made anew beyond it |
| TtlCache.HitIsHeldAtOnce | cache/cache.go:42-45 | a call that finds its key under the read lock holds that entry, moved to the front, and does not lock again |
| StunAttrs.WalkVisitsAll | stun/stun.go:135-153 | the walk visits exactly the attributes of a well-formed list, in order, to the end |
| StunAttrs.WalkIsEncoded | stun/stun.go:135-153 | conversely, bytes walked to the end are the encoding of the attributes visited |
| StunAttrs.WalkOfCut | stun/stun.go:137-146 | a list cut within an attribute is walked up to the cut and is malformed |
| StunAttrs.ForeachAttr | stun/stun.go:135-153 | the loop hands the attributes to its visitor until the first error |
| Stun.XorNatTwice | stun/stun.go:182-190 | masking twice gives back the number |
| StunTheorems.ResponseRoundTrip | stun/stun.go:156-251 | a response followed by anything gives back transaction, port and address: IPv4 as it is, IPv6 without zone, or as the IPv4 address it is mapped from |
| StunTheorems.ResponseCut | stun/stun.go:196-211 | any shorter piece of a response is refused |
| StunTheorems.UnknownIgnored | stun/stun.go:219-240 | an attribute of another type never changes the result |
| StunTheorems.XorWins | stun/stun.go:219-246 | the last XOR-MAPPED-ADDRESS is the answer whatever MAPPED-ADDRESS stands before or after |
| StunTheorems.MappedIsFallback | stun/stun.go:247-250 | without it the last MAPPED-ADDRESS, and without either an error |
| StunTheorems.RequestRoundTrip | stun/stun.go:51-123 | a request gives back its transaction for any checksum function |
| StunTheorems.AcceptedRequest | stun/stun.go:88-123 | the structure of what is accepted, when the fingerprint covers exactly the bytes before it, and that one of four bytes is their masked checksum |
| StunTheorems.EmptyFingerprintAccepted | stun/stun.go:105-119 | a request that ends in an empty FINGERPRINT and is accepted |
| StunPackets.XorBits | stun/stun.go:182-190 | each bit of the masked number is the exclusive or of the bits |
| StunPackets.ResponseLayout | stun/stun.go:156-192 | a response byte by byte |
| StunPackets.RequestLayout | stun/stun.go:51-78 | a request byte by byte, with the masked checksum of its first 32 bytes |
| StunPackets.XorMappedRead | stun/stun.go:253-279 | port and address of a XOR-MAPPED-ADDRESS from its bytes |
| StunPackets.XorMappedRefused | stun/stun.go:253-290 | it cannot be read iff the family is unknown or octets are missing |
| StunPackets.MappedRead | stun/stun.go:292-306 | port and address of a MAPPED-ADDRESS from its bytes |
| StunPackets.MappedRefused | stun/stun.go:281-306 | the same condition for it |
| StunPackets.NoResponse | stun/stun.go:196-211 | exactly which packets are no STUN packet and no response, and whose transaction is returned |
| StunPackets.UnreadableRefused | stun/stun.go:213-240 | an address attribute that cannot be read makes the response malformed wherever it stands |
| StunPackets.LastXorAnswers | stun/stun.go:219-246 | the answer for any attributes, from the bytes of the last XOR-MAPPED-ADDRESS of either number |
| StunPackets.LastMappedAnswers | stun/stun.go:230-250 | without one, from the bytes of the last MAPPED-ADDRESS |
| StunPackets.NoAddressRefused | stun/stun.go:243-250 | without either the response is malformed |
| StunPackets.NoRequest | stun/stun.go:88-113 | exactly which packets are no STUN packet, no binding request and malformed |
| StunPackets.RequestVerdict | stun/stun.go:94-122 | the verdict on any request with well-formed attributes: which error, or the transaction |
| StunPackets.OnlyTheChecksumPasses | stun/stun.go:117-122 | an otherwise good request ending in a FINGERPRINT of four bytes is accepted iff these are the masked checksum of what comes before |
| StunParse.Response | stun/stun.go:156-192 | the loop builds the message of one XOR-MAPPED-ADDRESS |
| StunParse.XorMappedAddress | stun/stun.go:253-279 | the loop unmasks the address, and the errors |
| StunParse.SeenIsLast | stun/stun.go:212-240 | the captured variables hold the last address of each kind |
| StunParse.ParseResponse | stun/stun.go:196-251 | the result for any packet |
| StunParse.CheckedIsLast | stun/stun.go:97-111 | the captured variables of the request parser |
| StunParse.ParseBindingRequest | stun/stun.go:88-123 | the result for any packet and checksum |
| Confluence.AnyMove | socks5/socks5.go:115-277 | whichever side moves first, the same end is one move closer |
| Confluence.OneEnd | socks5/socks5.go:115-277 | every schedule of two commuting sides leads to one end |
| Confluence.EndIsReached | socks5/socks5.go:115-277 | some schedule reaches that end |
| Socks5Agreement.Diamond | socks5/socks5.go:115-277 | the moves of the two sides commute |
| Socks5Agreement.OneOutcome | socks5/socks5.go:115-277 | every schedule of the handshake leads to the stated end, failures included |
| Socks5Agreement.EndingIsReached | socks5/socks5.go:115-277 | some schedule reaches the stated end |
| Socks5Agreement.ScheduleNeverMatters | socks5/socks5.go:115-277 | for any arguments whatever, long names and invalid addresses included, there is one end, it is reached, and every stuck run is there |
| Socks5Agreement.Agreement | socks5/socks5.go:115-306 | both succeed iff credentials, command and local address are good; then each holds the other's address and no byte is left over |
| Socks5.SplitFinds | socks5/socks5.go:309-335 | an address is found at the front of any bytes iff it is a valid one |
| Socks5.UdpRoundTrip | socks5/socks5.go:424-457 | a datagram decodes to what was encoded iff its address is valid |
| Socks5.UdpDecodedIsEncoded | socks5/socks5.go:424-448 | what decodes without error is an encoding of the result |
| Socks5Conn.ReadAddr | socks5/socks5.go:279-306 | exactly the address at the front is taken from the stream, through the reused buffer |
| Socks5Conn.ServerHandshake | socks5/socks5.go:115-212 | outcome, bytes left and bytes written equal to the server's side |
| Socks5Conn.ClientHandshake | socks5/socks5.go:215-277 | the same for the client |
| Socks5Conn.BytesBeyondStay | socks5/socks5.go:115-306 | a side that comes to its end leaves every byte beyond the handshake unread |
| Socks5Conn.SoloIsRun | socks5/socks5.go:115-212 | running the server is a schedule of the conversation |
| Socks5Conn.ClientSoloIsRun | socks5/socks5.go:215-277 | running the client is one too |
| Socks5Transcript.AddrLayout | socks5/socks5.go:309-335 | valid addresses byte by byte |
| Socks5Transcript.UdpAccepted | socks5/socks5.go:424-448 | a datagram is accepted iff it begins with three zero bytes and a valid address |
| Socks5Transcript.ServerOpen | socks5/socks5.go:115-212 | all that a server without an authenticator reads and writes, for any greeting and request |
| Socks5Transcript.ServerAuth | socks5/socks5.go:131-212 | the same with an authenticator, accepted or refused |
| Socks5Transcript.ServerRefusesEmptyName | socks5/socks5.go:139-147 | an empty name is refused at once |
| Socks5Transcript.ServerRefusesEmptyPassword | socks5/socks5.go:154-162 | an empty password after the name |
| Socks5Transcript.ClientOpen | socks5/socks5.go:215-277 | all that a client writes and reads when no password is asked for |
| Socks5Transcript.ClientAuth | socks5/socks5.go:239-277 | the same when one is |
| Socks5Transcript.ClientRejected | socks5/socks5.go:258-264 | any other status than 0 is a refusal |
| Socks5Transcript.ClientGivesUp | socks5/socks5.go:232-268 | the version, the method and the missing password that end it at the greeting |

## Left out

- rdt, both directions: one direction of a connection is modelled; the other is the same code with roles exchanged and shares only the packet loop.
- rdt, limits: the MTU is between 11 and 1500 and equal on both ends, and frame numbers stay two windows below 2^32, where the program's 32-bit numbers would wrap.
- rdt, accept: a packet other than DATA that arrives before the first DATA is dropped by the listener; here it is one of the losses.
- rdt, scheduling: the capacities of the buffered channels other than that of NCKs, sleeps, the number of FINs sent, the deadline of Read and the 15 s FIN wait are nondeterministic steps.
- rdt, close by the sender: it begins when no Write waits, and the model of the sender ends when sendFIN returns; what a parked NCK loop does after its channel is closed is not modelled.
- rdt, after both sides are closed: the reset of the counters, the CLOSED state and a later connection from the same address.
- rdt, close by the receiving application: only the close that answers the peer's FIN is modelled.
- rdt, the in-place marking of packets: the mark is put on a copy; in the program pooled packets keep it, and marking again changes nothing.
- rdt, network: it is the set of messages, so a frame counts as sent in the step that pools it.
- rdt, malformed packets: a packet whose length field exceeds its size is dropped; the program may read into spare capacity of the slice.
- RdtConn.Conn.CollectGaps: not for the number 2^32 - 1, for which the program's loop does not end (LoopEnds); the numbers of all modelled runs are smaller.
- RdtConn.Conn.Read: with nothing buffered the channel is taken to be closed; waiting is not an outcome.
- RdtConn.Conn.SendNCK: not for the number 2^32 - 1, for which its loop does not end; runs between packets; its interleaving with the drain loop is the transition system's.
- RdtConn.Conn.AnswerQuery: not for the number 2^32 - 1, for the same reason.
- RdtConn.Conn.RecvData: recvNO + window is below 2^32 - 1, as in every modelled run.
- RdtConn.Conn.Recv: the same bound, and no FIN with the number 2^32 - 1; the passive close it starts after a FINACK is the system's step PassiveClose.
- connmux, timeouts: the 30 s wait for the peer's FIN ends by itself only for a stream that the peer has never learned of; deadlines are left out.
- connmux, payload: a Write is at most 65535 bytes in the system; what happens beyond is stated by the framing.
- connmux, queues: `inbound` holds any number of frames, and a session accepts without waiting; errors of the pipe end the model.
- MuxSession.Session.NextFrame: errors of the frame reader are stated by the framing; here the bytes are those of a frame the other side sent.
- cache/lru, entry: element and entry are one node; a Get under a read lock is one step in `Lru` and `TtlCache`; its statements are steps in `LruRace`, each of them a read and a write at once.
- LruTheorems.Inclusion: Find is not among the operations, because it picks by map order.
- cache, time: the clock is a number of nanoseconds since the zero time and does not go back; a refresh takes at most some delay, any number, from the call of newValue to its reading of the clock.
- stun, checksum and random numbers: CRC-32 is any function, transaction ids are any 12 bytes; the id returned beside some errors is left out.
- socks5, text addresses: the server's own address is any valid SOCKS address or none; parsing and printing of text are left out.
- Socks5Agreement.Agreement: names and passwords are at most 255 bytes long or a multiple of 256; which end other lengths lead to is up to the bytes, that it is one end is proved for all (ScheduleNeverMatters).
- socks5, the read of the password's length: a single Read into one byte is taken to return that byte.
- Socks5Conn.ServerHandshake: begins on a connection on which nothing has been written yet.
- Socks5Conn.ClientHandshake: begins on a connection on which nothing has been written yet.
- socks5, errors of the connection: a side that would wait for ever on a finished stream ends with Eof; failed writes are left out.
- Peer registry, NAT probing, secure channels, file sharing, VPN, UPnP, statistics and command-line code: straight-line code over libraries, devices and timers.
