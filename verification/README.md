# A verified model of the MEGA65 network stack

This project models the portable network stack of the repository (`src/net/`, with the tick and
the pool layout of `src/abi/api.c`) in Dafny and proves what it promises: a TCP that delivers a
prefix of what was sent over a network that loses, repeats and reorders; sockets and mailboxes that
share one block of external memory without ever touching one another; a DHCP client that counts
down every lease of two minutes up to 45 days and gives the address up in time, and exactly which
leases it holds for ever; and the arithmetic and codecs underneath (the Internet checksum, the
calendar, DNS messages, the ARP cache). `dafny verify dfyconfig.toml` checks all of it.

## How it is put together

TCP is described twice, and the two descriptions are proved to agree where they differ: on the rings
and their copies, the bytes on the wire, the loops, and the dispatch of a call or segment to them.
The scalar fields are one value in both, and most assignments to them are the same functions.

* `Tcp.dfy` is the socket as a machine on values, one function per C function, with the same
  branches and the same constants: `Connect`, `ListenOn`, `SendBytes`, `RecvBytes`, `CloseDown`,
  `Abort`, `HandleAck`, `PassiveOpen`, `SegmentInput`, `PollOne`, and the helpers they share. The
  rings appear as what they hold: `acc` is every byte ever accepted on the connection, `got` every
  byte ever received, and the queues are their last `sndLen` and `rcvCount` bytes. `rcvAbs` and
  `edgeAbs` are `rcv_nxt` and `adv_edge` counted without wrapping. These histories are written and
  never read by any decision of the code. The link is an arbitrary function from attempts to
  answers (accepted, refused, next hop unknown).
* `TcpSocket.dfy` is the socket as the program has it: an object whose rings lie in the shared pool
  (`Xmem.dfy`) and are reached by at most two block copies, which writes its segments byte by byte
  into the transmit buffer (`NetLink.dfy`, `TcpCodec.dfy`) and runs the C code's loops. Each method
  is proved to change the object, its rings and the wire exactly as the function of `Tcp.dfy` says.
* `TcpSet.dfy` and `TcpDispatch.dfy` do the same for the set of sockets and the dispatcher.
* `SharedPool.dfy` and `Mailboxes.dfy` put the sockets and the UDP mailboxes in one array.

On the value machine stand the theorems: the invariant of every step (`TcpInvariants.dfy`), what
goes on the wire (`TcpSegments.dfy`), what is never taken back (`TcpWindow.dfy`), bounded
retransmission (`TcpTimer.dfy`), TIME_WAIT (`TcpTimeWait.dfy`), what each call achieves
(`TcpCalls.dfy`), every run from `mn_tcp_init` (`TcpRuns.dfy`), what a close and a used-up window mean
for the rest of a connection (`TcpClosing.dfy`), and two endpoints with a network between them
(`TcpEndToEnd.dfy`, `TcpNetwork.dfy`, and flow control in `TcpFlow.dfy`). What does happen is proved
beside what cannot: who owns what is sent (`TcpDelivery.dfy`), what each segment and each poll achieves
(`TcpProgress.dfy`), and, over a link that takes everything, the handshake and a round trip of data
(`TcpTransfer.dfy`) and the orderly close (`TcpGoodbye.dfy`). The network is the growing set
of all segments ever sent; any of them may arrive any number of times, in any order, or never, and
an RST that nobody sent may arrive at any time.

DHCP follows the same plan: `Dhcp.dfy` is the machine on values, `DhcpClient.dfy` the object with
its loops over the clock, the options and the message buffer, `DhcpRuns.dfy` the theorems over
whole runs and over real time, `DhcpAcquire.dfy` what a server's replies and the lease's times make
happen, `DhcpLease.dfy` which leases end. `Calendar.dfy`, `Dns.dfy`,
`Arp.dfy`, `Packets.dfy` and `Checksum.dfy` prove the source's loops against closed formulas, abstract
syntax, a queue, or the plain sum.

## Behaviour worth knowing

The model follows the code where a comment or an expectation says otherwise.

* `src/net/mn_tcp.h:2` calls the sender stop-and-wait. The code keeps up to four segments in flight
  (`src/net/mn_tcp.c:644-666`), and so does the model.
* `src/net/mn_tcp.c:115-117` says that a peer with a forgotten connection learns it at once from
  the RST. It does exactly if its own receive ring is not full: an RST at the edge of a closed
  window is ignored (`OrphanLearns`).
* `fin_sent` stays set after our FIN has been acknowledged, so FIN_WAIT_2 remains on the
  retransmission timer: a peer that keeps its side open without sending its FIN is given up like a
  silent one, whatever else it sends (`HalfClosedIsUnanswered` with `GivesUpInTime`).
* A connection that reaches TIME_WAIT from CLOSING by an empty acknowledgement finds whatever
  `timewait_at` an earlier wait has left (`src/net/mn_tcp.c:519`, `src/net/mn_tcp.c:610-618`), so its
  wait can be cut short, down to nothing: `CutShort` is the input, `LastsInFull` says exactly when the
  wait lasts 100 ticks, `WaitsOut` what restarts it.
* A lease of less than 120 seconds, like one of 45 days or more, gets no terms
  (`src/net/mn_dhcp.c:208-210`), and a bound client without terms looks neither at the age of its lease
  nor at its mail (`src/net/mn_dhcp.c:256-257`): it keeps the address for ever (`ForEverIff`, `OneMinute`).
* The last ACK of the handshake is not repeated: a SYN|ACK that arrives again after it has been lost is
  neither taken nor answered (`src/net/mn_tcp.c:480-487`, `RepeatedSynAck`). A side that connects and then
  stays silent is left established when the listener gives up.
* There is no persist timer. A closed window with nothing in flight silences the socket until a
  segment arrives, even if an acknowledgement is due (`NeverProbes`).
* A due acknowledgement does not always leave with the next poll: data queued behind a window that
  is used up holds it back (`AckLeaves` says exactly when).
* The advertised edge moves when a segment is built, even if the link then refuses it
  (`src/net/mn_tcp.c:109-112`); the promise is kept all the same (`PromiseKept`).
* The window of any in-order segment is believed, however old its acknowledgement
  (`src/net/mn_tcp.c:489-490`): a reordered old segment can make the sender take a right edge beyond
  the one the peer advertised (`RightEdgeTaken`, `StaleWindow`). An out-of-order segment moves the position
  without the window, with the same effect (`StalePosition`). Without such segments it never happens
  (`FlowControl`); with them the receiver cuts the data, and nothing is lost.
* `mn_ntp_civil` adds the offset in 32 bits before it chooses the era. It is right exactly for
  local times in the era around its pivot (`RightInEra`). Just outside, the C addition overflows a
  signed integer, which the model reads as wrapping.
* DHCP stores the options of every message that matches the transaction, not only of an ACK
  (`src/net/mn_dhcp.c:157-165`); the terms of the lease change only with an ACK.
* In DNS the 16-bit sum of offset and record length can wrap and move backwards
  (`src/net/mn_dns.c:145-152`). Reading still ends, because the record count falls, and stays
  inside the message.
* A datagram to port 0 goes to the first closed UDP socket, whose port is 0 (`src/net/mn_net.c:78-80`);
  opening that socket empties its mailbox again.
* Refreshing an ARP entry does not protect it: the oldest insertion is replaced next, however
  recently it was learned again (`RefreshDoesNotSave`).
* The mailboxes keep to one 64 KB segment, as `src/net/mn_net.h:56-58` asks, only for pools that
  start in the right part of a segment (`BoxesInOneSegment`); they never meet a ring wherever the
  pool starts.

## Model

| member | source | states |
|---|---|---|
| `Words.SerialOrder` | src/net/mn_tcp.c:21-23 | The signed 32-bit tests SEQ_LT and SEQ_LEQ decide integer order for any two positions less than 2^31 apart, across the wrap |
| `Words.SerialWindow` | src/net/mn_tcp.c:355 | `!(ack <= una) && !(nxt < ack)` is exactly "ack lies in (una, nxt]" on the sequence circle |
| `Words.InWindow` | src/net/mn_tcp.c:436 | The two signed tests of the RST check say exactly that a number lies in a window of less than 2^31 |
| `Xmem.RingRead` | src/net/mn_tcp.c:39-46 | At most two block copies deliver exactly the ring bytes from a position on, and write nothing else in the destination |
| `Xmem.RingWrite` | src/net/mn_tcp.c:48-55 | At most two block copies put the bytes on the arc from a position on and change nothing else in the pool |
| `Xmem.Appended` | src/net/mn_tcp.c:246-248 | Writing at the tail of a ring appends to the queue in it, wherever the end falls |
| `Xmem.Dropped` | src/net/mn_tcp.c:281-282 | Moving the head forward drops exactly the front of the queue |
| `Xmem.Part` | src/net/mn_tcp.c:104-106 | A run of the ring from `off` past the head is that slice of the queue |
| `NetLink.PutHeader` | src/net/mn_tcp.c:90-99 | Writes the twenty header bytes of a segment, checksum zero, and nothing else |
| `NetLink.Seal` | src/net/mn_tcp.c:107-108 | Computes the checksum over the pseudo-header and stores it in its field |
| `NetLink.Nif.TxBegin` | src/net/mn_net.c:191-208 | Fails exactly while the next hop is unresolved; that attempt is then over and nothing was sent |
| `NetLink.Nif.TxSend` | src/net/mn_net.c:210-217 | Offers the payload in the transmit buffer; it is on the wire exactly if the link accepts it |
| `TcpCodec.RoundTrip` | src/net/mn_tcp.c:537-549 | Reading what `emit` wrote gives back every field, the options and the data |
| `TcpCodec.EncodedVerifies` | src/net/mn_tcp.c:107-108 | Every segment written passes the receiver's checksum test |
| `TcpCodec.CorruptionDropped` | src/net/mn_tcp.c:537-549 | A segment one of whose aligned words was changed on the way is read if and only if the change is a multiple of 65535 and a changed data offset still fits |
| `TcpCodec.OurMss` | src/net/mn_tcp.c:377-390 | The option our SYNs carry is read by take_mss as an MSS of 1460 |
| `TcpCodec.MssRead` | src/net/mn_tcp.c:377-390 | Every well-formed option list is understood: the last MSS option decides |
| `TcpInvariants.ApplyInv` | src/net/mn_tcp.c:198-693 | Every call, segment and poll keeps the invariant: sequence accounting, FIN states, advertised edge, window update, congestion window |
| `TcpInvariants.AckWindow` | src/net/mn_tcp.c:355-356 | An acknowledgement takes effect if and only if it lies in (snd_una, snd_nxt] |
| `TcpInvariants.AckDistance` | src/net/mn_tcp.c:357-361 | What a new acknowledgement retires is exactly its distance from snd_una, our FIN not counted; the clamp to `inflight` never bites |
| `TcpInvariants.HandleAckInv` | src/net/mn_tcp.c:351-374 | Retiring acknowledged data keeps the accounting and the state |
| `TcpInvariants.SegmentInputInv` | src/net/mn_tcp.c:416-524 | Any segment at all, genuine or not, keeps the invariant |
| `TcpInvariants.SendLoopInv` | src/net/mn_tcp.c:649-661 | The send loop keeps the invariant and the state, for every answer of the link and every MSS |
| `TcpSegments.ApplyGenuine` | src/net/mn_tcp.c:78-113 | Every segment any step puts on the wire carries the accepted stream at its sequence number, acknowledges only what was received, and advertises the edge the socket records |
| `TcpSegments.RetransmitGenuine` | src/net/mn_tcp.c:633-640 | A retransmission carries the same bytes at the same sequence number as the first transmission |
| `TcpSegments.SendLoopLimit` | src/net/mn_tcp.c:647-661 | New segments leave `inflight` at most the limit, and each moves it forward |
| `TcpSegments.SendQueuedGenuine` | src/net/mn_tcp.c:646-666 | Whatever a poll newly sends leaves inflight <= min(snd_wnd, cwnd) |
| `TcpSegments.SendFinGenuine` | src/net/mn_tcp.c:669-679 | Our FIN first goes out when everything accepted has been acknowledged, with the sequence number right after the last accepted byte |
| `TcpWindow.NeverRetreats` | src/net/mn_tcp.c:109-110 | No step moves the advertised right edge, the position or the received stream back |
| `TcpWindow.PromiseKept` | src/net/mn_tcp.c:492-501 | In ESTABLISHED, FIN_WAIT_1 and FIN_WAIT_2 a segment at rcv_nxt that ends inside the last advertised edge is accepted in full |
| `TcpWindow.InOrderGot` | src/net/mn_tcp.c:492-501 | An in-order segment appends exactly the part of its data that fits |
| `TcpWindow.RecvLater` | src/net/mn_tcp.c:279-300 | What the application drains is the front of the ring; draining moves no edge back |
| `TcpWindow.PollOnePolls` | src/net/mn_tcp.c:576-685 | A poll never touches the streams, the rings' contents, or what the peer has acknowledged |
| `TcpRuns.Reached` | src/net/mn_tcp.c:162-190 | Every state reachable from mn_tcp_init satisfies the invariant |
| `TcpRuns.Accounting` | src/net/mn_tcp.c:351-374 | In every reachable live state snd_nxt - snd_una counts unacknowledged SYN, inflight and FIN; inflight <= snd_len <= 3072; fin_sent holds exactly in the FIN states |
| `TcpRuns.Timeouts` | src/net/mn_tcp.c:626-634 | In every reachable state rto = min(50 * 2^retries, 400), with at most five retries while live |
| `TcpRuns.CongestionWindow` | src/net/mn_tcp.c:370-371 | In every reachable state cwnd is a multiple of peer_mss, 1 to 4 times it past the handshake, and peer_mss <= 1460 |
| `TcpRuns.WindowUpdates` | src/net/mn_tcp.c:279-289 | No forgotten window update: an exhausted advertised window with room in the ring means that an acknowledgement is due |
| `TcpRuns.WindowLag` | src/net/mn_tcp.c:279-289 | What the peer was told of the right edge lags by less than 256 bytes unless an acknowledgement is due |
| `TcpRuns.StateTells` | src/net/mn_tcp.c:503-523 | Past the handshake the state says exactly whether our FIN has been sent and the peer's taken |
| `TcpRuns.FramesFit` | src/net/mn_tcp.c:377-390 | Everything ever sent fits a frame of 1518 bytes with its headers |
| `TcpRuns.Faithful` | src/net/mn_tcp.c:646-679 | Sender refinement: over any run of one connection every segment ever sent carries exactly the accepted bytes at its sequence number |
| `TcpRuns.NeverGoesBack` | src/net/mn_tcp.c:109-110 | Over any live run the advertised right edge never retreats |
| `TcpRuns.PromisesKept` | src/net/mn_tcp.c:492-501 | Every edge ever advertised on a live connection is honoured: a segment at rcv_nxt that ends inside it is accepted in full |
| `TcpRuns.AckLeaves` | src/net/mn_tcp.c:646-684 | A due acknowledgement leaves with the next accepted poll, unless queued data is blocked by a used-up window or the poll gives up: both cases exactly |
| `TcpTimer.GivesUpInTime` | src/net/mn_tcp.c:586-642 | With a SYN, a SYN ACK, data or FIN outstanding, polls at most g ticks apart and no new acknowledgement there are at most five resends, and every poll up to the one that gives up (TIMEOUT, or back to LISTEN) comes less than 1550 + 6g ticks after the start, across wraps of the tick |
| `TcpTimer.HalfClosedIsUnanswered` | src/net/mn_tcp.c:626 | FIN_WAIT_2 stays on the retransmission timer: no segment but a FIN or an RST counts as an answer, because fin_sent is never cleared |
| `TcpTimer.NeverEarly` | src/net/mn_tcp.c:626 | A poll less than the timeout after the last start leaves the timer running and counts no retry, across the wrap of the tick |
| `TcpTimer.PollTick` | src/net/mn_tcp.c:626-642 | One poll of a silent connection: the timer goes on, or counts one resend at the doubled timeout, or the socket gives up |
| `TcpTimer.UnansweredGoesOn` | src/net/mn_tcp.c:351-374 | No segment without a new acknowledgement and no call of the application touches the timer |
| `TcpTimer.ConnectKnocks` | src/net/mn_tcp.c:198-218 | A connect whose SYN the link accepts starts the timer that GivesUpInTime is about |
| `TcpTimer.PassiveKnocks` | src/net/mn_tcp.c:393-413 | So does a SYN whose SYN ACK the link accepts |
| `TcpTimeWait.WaitsOut` | src/net/mn_tcp.c:610-618 | TIME_WAIT ends with exactly the first poll that finds no acknowledgement due 100 ticks after the last poll that found one, whatever segments, calls and polls come in between short of an abort or an RST |
| `TcpTimeWait.LastAckBegins` | src/net/mn_tcp.c:611-615 | A poll that finds the last acknowledgement due sends it and begins the wait anew |
| `TcpTimeWait.EntersTimeWait` | src/net/mn_tcp.c:503-523 | Exactly when TIME_WAIT is entered with an acknowledgement due |
| `TcpTimeWait.LastsInFull` | src/net/mn_tcp.c:503-523 | The wait that a segment begins lasts 100 ticks from that tick if and only if an acknowledgement is then due or `timewait_at` happens to equal the tick: the condition on the state before the segment |
| `TcpTimeWait.CutShort` | src/net/mn_tcp.c:610-618 | An input at which it does not: CLOSING, no acknowledgement due, `timewait_at` 0, and an empty acknowledgement of our FIN at any tick from 100 on: the poll of the same tick closes the socket |
| `TcpClosing.CloseIsFinal` | src/net/mn_tcp.c:313-324 | After mn_tcp_close no byte is accepted on the connection any more, whatever happens; what is still sent is the stream accepted before, and every FIN stands right behind its last byte |
| `TcpClosing.NeverProbes` | src/net/mn_tcp.c:644-666 | No persist timer: from every reachable state with data queued, nothing in flight and a closed window, no run of polls, reads, writes and a close makes a single transmission attempt, until a segment arrives or the socket is aborted |
| `TcpClosing.RunMarked` | src/net/mn_tcp.c:644-666 | In every reachable state queued data that is not in flight is marked tx_pending |
| `TcpCalls.SendTakesAllThatFits` | src/net/mn_tcp.c:231-252 | mn_tcp_send takes the front of what it is offered, all of it unless the ring is then full, in exactly ESTABLISHED and CLOSE_WAIT before a close |
| `TcpCalls.RecvGivesAllThatFits` | src/net/mn_tcp.c:291-300 | mn_tcp_recv hands over all there is room for, oldest first, and loses none of the rest |
| `TcpCalls.RstIffInWindow` | src/net/mn_tcp.c:436-440 | An RST resets a synchronized connection if and only if its sequence number lies in the receive window |
| `TcpCalls.RightEdgeTaken` | src/net/mn_tcp.c:489-490 | The sender takes an in-order segment's right edge for the peer's, exactly unless the segment acknowledges less than was acknowledged before |
| `TcpCalls.SendLoopFills` | src/net/mn_tcp.c:647-661 | On a link that takes everything the send loop sends all that is queued or all that the limit allows |
| `TcpCalls.SendLoopInOrder` | src/net/mn_tcp.c:647-661 | The segments of a burst carry, one after the other, exactly the next bytes of the queue |
| `TcpEndToEnd.InOrderContinues` | src/net/mn_tcp.c:478-501 | A genuine segment at rcv_nxt continues the received stream exactly; its FIN stands at the end of the stream |
| `TcpEndToEnd.RetireEarned` | src/net/mn_tcp.c:351-363 | A genuine acknowledgement retires only bytes that are in the peer's receive ring or beyond |
| `TcpEndToEnd.SyncedStreams` | src/net/mn_tcp.c:475-524 | Any segment the peer may have sent keeps both directions prefix-correct |
| `TcpNetwork.HandshakeDone` | src/net/mn_tcp.c:465-473 | Only a peer that knows our initial sequence number completes the handshake, so that both sides then agree on both |
| `TcpNetwork.PlayInv` | src/net/mn_tcp.c:528-574 | Every move of the two endpoints and the network keeps the invariant of the whole system |
| `TcpNetwork.Reliable` | src/net/mn_tcp.c:351-524 | End to end, under loss, duplication, reordering and injected RSTs: what one side has received is a prefix of what the other accepted, nothing is retired before the peer has it, EOF means complete, and both sides agree on both initial sequence numbers |
| `TcpFlow.FlowControl` | src/net/mn_tcp.c:489-490 | End to end, under loss, duplication, reordering and injected RSTs: in every run in which no segment with a stale window is delivered no sender takes its peer's right edge to lie beyond what the peer has told, and nothing in flight reaches beyond it |
| `TcpFlow.FreshWithin` | src/net/mn_tcp.c:475-490 | Any segment of the peer that is not stale keeps the sender within what the peer has told |
| `TcpFlow.StaleWindow` | src/net/mn_tcp.c:489-490 | An in-order segment that shows the furthest edge the peer has told keeps the sender within it if and only if it does not acknowledge less than is acknowledged already |
| `TcpFlow.StalePosition` | src/net/mn_tcp.c:480-487 | A sender that stands at the furthest edge stays within it after an out-of-order segment if and only if that acknowledges nothing new |
| `TcpDispatch.OthersUntouched` | src/net/mn_tcp.c:551-574 | A segment changes no socket but the first owner of its four-tuple, else the lowest listener |
| `TcpDispatch.TuplesStayDistinct` | src/net/mn_tcp.c:393-413 | In any run whose connects pick free four-tuples no two live sockets share one |
| `TcpDispatch.OneOwner` | src/net/mn_tcp.c:551-560 | With distinct four-tuples a segment has at most one owner |
| `TcpDispatch.NobodyHome` | src/net/mn_tcp.c:551-574 | A segment to a port no socket uses is answered with an RST, unless it is one |
| `TcpDispatch.OnlySynsOpen` | src/net/mn_tcp.c:561-569 | Only a bare SYN to its port, owned by nobody, opens a listener |
| `TcpDelivery.SentIsOwned` | src/net/mn_tcp.c:90-91 | Whatever step makes a socket send, every segment sent is owned by its live peer at the other end of the mirrored four-tuple |
| `TcpDelivery.SynIsHeard` | src/net/mn_tcp.c:198-229 | The SYN of a connect to a port is a bare SYN that a socket told to listen there takes, for every state of the two before the calls |
| `TcpDelivery.ListenerAnswers` | src/net/mn_tcp.c:393-413 | A listener that takes a SYN becomes the sender's peer, half open, right behind that SYN, and answers it with a SYN ACK for it |
| `TcpDelivery.SynIsRefused` | src/net/mn_tcp.c:118-145 | Whatever step of a connecting socket has sent a SYN, the RST that answers it finds that socket and closes it as REFUSED |
| `TcpDelivery.OrphanLearns` | src/net/mn_tcp.c:115-117 | The RST that answers any segment a synchronized socket has just sent finds it, and resets it exactly if its receive ring is not full |
| `TcpDelivery.AbortIsHeard` | src/net/mn_tcp.c:326-335 | The RST of an abort finds the peer, and resets one that has received everything exactly if its ring is not full |
| `TcpProgress.OpensClean` | src/net/mn_tcp.c:147-160 | Whatever begins a connection begins it with nothing flagged, queued, received or owed |
| `TcpProgress.AnswerEstablishes` | src/net/mn_tcp.c:443-457 | In SYN_SENT a segment without RST establishes the connection if and only if it is a SYN ACK for our SYN; then position, window, segment size and the ACK owed are its own; otherwise nothing changes |
| `TcpProgress.AckEstablishes` | src/net/mn_tcp.c:460-474 | In SYN_RCVD a segment without RST completes the handshake if and only if it is no SYN and acknowledges ours right behind the peer's; a repeated SYN makes the SYN ACK due again |
| `TcpProgress.HandshakeReset` | src/net/mn_tcp.c:423-435 | An RST refuses a connecting socket if and only if it acknowledges its SYN, and makes a half-open listener listen again |
| `TcpProgress.AckTaken` | src/net/mn_tcp.c:351-374 | Past the handshake a new acknowledgement, in order or not, retires what it covers, restarts the timer without retries and makes cwnd one segment larger until it is four; any other segment changes nothing of this |
| `TcpProgress.InOrderTaken` | src/net/mn_tcp.c:489-523 | An in-order segment: the data that fits, the FIN, the position, the window, the ACK owed, and the next state by the state diagram of RFC 9293 |
| `TcpProgress.OthersNotTaken` | src/net/mn_tcp.c:477-487 | Any other segment is not taken; with data or a FIN it is answered |
| `TcpProgress.AbortSends` | src/net/mn_tcp.c:326-335 | An abort sends one RST exactly if there is a connection to end, and leaves what was received readable |
| `TcpProgress.DataLeaves` | src/net/mn_tcp.c:646-661 | Queued data with nothing in flight makes a poll attempt the transmission of its front, and start the timer, if and only if the peer's window is open and it takes data at all |
| `TcpProgress.CloseSendsFin` | src/net/mn_tcp.c:669-679 | After mn_tcp_close the first poll the link accepts sends the FIN if and only if everything is acknowledged; then alone, one past the last byte, with FIN_WAIT_1 or LAST_ACK |
| `TcpProgress.FinWaitsForLink` | src/net/mn_tcp.c:669-679 | A FIN the link does not take has not been sent: it stays due and the state stays |
| `TcpProgress.CloseElsewhere` | src/net/mn_tcp.c:313-324 | In every other state mn_tcp_close ends what is not established and changes nothing else |
| `TcpProgress.AckSettled` | src/net/mn_tcp.c:681-684 | A bare acknowledgement settles what is owed unless the next hop is unknown |
| `TcpProgress.ExpiryResends` | src/net/mn_tcp.c:624-642 | At every expiry but the last exactly the oldest segment or the FIN goes out again and cwnd is one segment; at the last one TIMEOUT |
| `TcpProgress.SynLeaves` | src/net/mn_tcp.c:586-608 | A SYN or SYN ACK that is due or expired is offered again and stays due until the link accepts it; before, nothing is sent |
| `TcpTransfer.Handshake` | src/net/mn_tcp.c:198-474 | Connect, listen, SYN, SYN ACK and the ACK of the next poll, over a link that takes everything, leave both sides ESTABLISHED, each at the other's position |
| `TcpTransfer.RepeatedSynAck` | src/net/mn_tcp.c:475-487 | A SYN ACK repeated because the last ACK was lost means nothing to a socket past its handshake, and none is owed for it |
| `TcpTransfer.AllTaken` | src/net/mn_tcp.c:489-501 | A receiver with room takes every segment of a flight, and its position ends behind the last byte |
| `TcpTransfer.RoundTrip` | src/net/mn_tcp.c:351-661 | The poll of a sender with nothing in flight, its segments at the peer, the peer's poll and its first segment back: exactly the front of the queue that both windows allow has moved to the peer's stream and is retired |
| `TcpGoodbye.OrderlyClose` | src/net/mn_tcp.c:313-684 | From two idle ends in step four segments lead to TIME_WAIT on the side that closed first and CLOSED on the other, each with the other's end flagged |
| `TcpSocket.TakeMss` | src/net/mn_tcp.c:377-390 | The option loop stops inside the options and leaves the last well-formed MSS, at most 1460 |
| `TcpSocket.Socket.constructor` | src/net/mn_tcp.c:176-186 | A closed socket with two empty rings one after the other |
| `TcpSocket.Socket.Compose` | src/net/mn_tcp.c:84-108 | The transmit buffer holds the encoded segment, its data read from the ring across the wrap |
| `TcpSocket.Socket.Emit` | src/net/mn_tcp.c:78-113 | One transmission attempt: the advertised edge moves even if the link refuses the frame, and not if the next hop is unresolved |
| `TcpSocket.Socket.Connect` | src/net/mn_tcp.c:198-218 | Counters reset, rings emptied, the SYN offered; refused unless closed |
| `TcpSocket.Socket.ListenOn` | src/net/mn_tcp.c:220-229 | A closed socket begins to listen on a nonzero port |
| `TcpSocket.Socket.Send` | src/net/mn_tcp.c:236-252 | What fits is appended to the queue in the send ring, and nothing outside that ring changes |
| `TcpSocket.Socket.Recv` | src/net/mn_tcp.c:291-300 | Hands over exactly the front of the receive ring |
| `TcpSocket.Socket.AfterRecv` | src/net/mn_tcp.c:279-289 | The head moves and an acknowledgement is due when the edge has moved 256 or the window had closed |
| `TcpSocket.Socket.Abort` | src/net/mn_tcp.c:326-335 | An RST is offered and the send side is dropped |
| `TcpSocket.Socket.RingPut` | src/net/mn_tcp.c:338-348 | As much of the payload as fits is appended to the receive ring |
| `TcpSocket.Socket.HandleAck` | src/net/mn_tcp.c:351-374 | The head of the send ring moves over exactly the retired bytes |
| `TcpSocket.Socket.PassiveOpen` | src/net/mn_tcp.c:393-413 | A listener takes a SYN and answers it |
| `TcpSocket.Socket.InOrder` | src/net/mn_tcp.c:489-523 | Acknowledgement, window, data, FIN and the state, in the source's order, with both rings right afterwards |
| `TcpSocket.Socket.SyncedInput` | src/net/mn_tcp.c:475-524 | In-order segments are taken; anything else is answered with what is expected |
| `TcpSocket.Socket.SegmentInput` | src/net/mn_tcp.c:416-524 | One segment for the socket: its new state, its rings, and nothing outside its receive ring |
| `TcpSocket.Socket.PollHandshake` | src/net/mn_tcp.c:586-608 | A SYN is resent, or the attempt is given up; a pending SYN is no retry |
| `TcpSocket.Socket.PollTimeWait` | src/net/mn_tcp.c:610-618 | The last acknowledgement and the end of the wait |
| `TcpSocket.Socket.Retransmit` | src/net/mn_tcp.c:624-642 | The oldest segment or the FIN again at the doubled timeout, or the end |
| `TcpSocket.Socket.SendBurst` | src/net/mn_tcp.c:647-661 | The loop sends exactly the segments of its specification and ends for every peer and every link |
| `TcpSocket.Socket.SendQueued` | src/net/mn_tcp.c:644-666 | Queued data up to both windows, and whether more is due |
| `TcpSocket.Socket.SendFin` | src/net/mn_tcp.c:668-679 | The FIN counts as sent only if the link accepted it |
| `TcpSocket.Socket.SendAck` | src/net/mn_tcp.c:681-684 | A bare acknowledgement; it stays due only if the next hop is unresolved |
| `TcpSocket.Socket.PollSynced` | src/net/mn_tcp.c:624-685 | Timer, queued data, FIN, acknowledgement: the first that applies |
| `TcpSocket.Socket.PollOne` | src/net/mn_tcp.c:576-685 | One poll of a socket: its new state, its rings unchanged, and exactly what the link accepted |
| `TcpSet.Fits` | src/net/mn_tcp.c:166-170 | As many sockets as fit before the next 64 KB boundary, and no fewer |
| `TcpSet.Set.constructor` | src/net/mn_tcp.c:162-190 | The rings of all sockets lie side by side in one segment of the pool, everything closed |
| `TcpSet.Set.ToOwner` | src/net/mn_tcp.c:551-560 | A segment for one socket changes nobody else's rings |
| `TcpSet.Set.ToListener` | src/net/mn_tcp.c:561-569 | A SYN for one listener changes nobody else |
| `TcpSet.Set.SendRst` | src/net/mn_tcp.c:118-145 | One RST at most, offered once |
| `TcpSet.Set.FindOwner` | src/net/mn_tcp.c:551-560 | The first live owner of the four-tuple |
| `TcpSet.Set.FindListener` | src/net/mn_tcp.c:562-568 | The lowest listener on the port |
| `TcpSet.Set.Input` | src/net/mn_tcp.c:528-574 | A segment that decodes goes to its owner, else a listener, else an RST answers it unless it is one; anything else goes nowhere; the wire shows exactly that answer |
| `TcpSet.Set.Poll` | src/net/mn_tcp.c:687-693 | Every socket is polled once, in order, and the wire shows exactly what they sent |
| `TcpSet.PolledOnce` | src/net/mn_tcp.c:687-693 | In a round of polls each socket takes exactly one step of its own |
| `TcpSet.Set.SendOn` | src/net/mn_tcp.c:236-252 | Bytes accepted by one socket touch nobody else's rings |
| `TcpSet.Set.Connect` | src/net/mn_tcp.c:198-218 | A connect on one socket touches nobody else, and the wire shows exactly its SYN |
| `TcpSet.Set.ListenOn` | src/net/mn_tcp.c:220-229 | A listen on one socket touches nobody else |
| `TcpSet.Set.CloseDown` | src/net/mn_tcp.c:313-324 | A close of one socket touches nobody else |
| `TcpSet.Set.Abort` | src/net/mn_tcp.c:326-335 | An abort of one socket touches nobody else, and the wire shows exactly its RST |
| `TcpSet.Set.RecvFrom` | src/net/mn_tcp.c:291-300 | Draining one socket touches nobody else |
| `Mailboxes.BoxesApart` | src/net/mn_net.c:98-105 | No two mailboxes overlap, wherever the pool starts |
| `Mailboxes.Udp.SetPool` | src/net/mn_net.c:98-105 | The mailboxes get their places; ports and flags stay |
| `Mailboxes.Udp.Open` | src/net/mn_net.c:238-252 | A free socket for a port no socket has, else 0xff |
| `Mailboxes.Udp.Close` | src/net/mn_net.c:254-260 | The port is free and its mailbox empty; a bad index does nothing |
| `Mailboxes.Udp.DeliverUdp` | src/net/mn_net.c:66-96 | A datagram that fails its length or checksum changes nothing; any other is taken by the first socket with its port unless the mailbox is full or the payload too long, and every other mailbox keeps what it holds |
| `Mailboxes.Udp.Deliver` | src/net/mn_net.c:77-95 | Past the checks: the same for a payload already taken apart |
| `Mailboxes.Udp.Recv` | src/net/mn_net.c:262-284 | Hands over exactly the waiting datagram, as much as fits, and empties the mailbox |
| `SharedPool.RingsAndBoxesApart` | src/abi/api.c:207-211 | Wherever the pool starts, no mailbox overlaps the rings of any socket |
| `SharedPool.BoxesInOneSegment` | src/net/mn_net.h:56-59 | The mailboxes keep to one 64 KB segment, as mn_net_set_pool asks, exactly if the pool starts at most 5888 or at least 8192 bytes into its segment |
| `SharedPool.Api.constructor` | src/abi/api.c:207-211 | Sockets and mailboxes share one array and none overlaps another |
| `SharedPool.Api.Datagram` | src/net/mn_net.c:66-96 | A datagram is taken exactly as deliver_udp says and then changes one mailbox; no connection notices |
| `SharedPool.Api.Segment` | src/net/mn_tcp.c:528-574 | A TCP segment changes one socket; no mailbox notices |
| `SharedPool.Api.Send` | src/net/mn_tcp.c:236-252 | Bytes queued on one connection, as many as mn_tcp_send accepts, change no mailbox and no other connection |
| `SharedPool.Api.Recv` | src/net/mn_tcp.c:291-300 | Draining one connection changes no mailbox and no other connection |
| `SharedPool.Api.Connect` | src/net/mn_tcp.c:198-218 | A connect changes one connection and no mailbox |
| `SharedPool.Api.ListenOn` | src/net/mn_tcp.c:220-229 | A listen changes one connection and no mailbox |
| `SharedPool.Api.CloseDown` | src/net/mn_tcp.c:313-324 | A close changes one connection and no mailbox |
| `SharedPool.Api.Abort` | src/net/mn_tcp.c:326-335 | An abort changes one connection and no mailbox |
| `SharedPool.Api.Poll` | src/net/mn_tcp.c:687-693 | A round of polls changes no mailbox |
| `SharedPool.Api.OpenUdp` | src/net/mn_net.c:238-252 | Opening a UDP socket, possible exactly if no socket has the port and one is free, changes one mailbox and no connection |
| `SharedPool.Api.CloseUdp` | src/net/mn_net.c:254-260 | Closing a UDP socket changes one mailbox and no connection |
| `SharedPool.Api.RecvUdp` | src/net/mn_net.c:262-284 | Taking a datagram empties one mailbox and changes no connection |
| `Checksum.Sum16` | src/net/mn_checksum.c:7-29 | For every length the end-around loop gives the folded sum of the words: congruent to it modulo 65535, and zero only for all-zero data |
| `Checksum.EndAroundFolds` | src/net/mn_checksum.c:7-29 | One 16-bit end-around addition is one addition before folding |
| `Checksum.ZeroSum` | src/net/mn_checksum.c:7-29 | The sum is zero if and only if every byte is |
| `Checksum.ComputeChecksum` | src/net/mn_checksum.c:31-34 | The value to store |
| `Checksum.CheckValid` | src/net/mn_checksum.c:36-39 | A block verifies |
| `Checksum.ComputePseudo` | src/net/mn_checksum.c:46-68 | The checksum of the segment with its pseudo-header in front, though the two are summed apart |
| `Checksum.StoredVerifies` | src/net/mn_checksum.c:36-39 | A block checksummed with its field zero verifies once the checksum is stored |
| `Checksum.StoredOnesVerify` | src/net/mn_udp.c:22-25 | 0xffff stored for a zero checksum verifies too |
| `Checksum.OneWordChanged` | src/net/mn_checksum.c:36-39 | A verifying block with one word changed still verifies if and only if the change is a multiple of 65535 and not everything became zero |
| `Checksum.TransportWordChanged` | src/net/mn_checksum.c:46-68 | With the pseudo-header a changed word is noticed unless the change is a multiple of 65535, whatever the segment holds |
| `Packets.BuildIp` | src/net/mn_ipv4.c:19-39 | Writes exactly a header with its checksum |
| `Packets.CheckIp` | src/net/mn_ipv4.c:51-67 | Version, header length, total length and checksum |
| `Packets.BuiltIpValid` | src/net/mn_ipv4.c:19-67 | What is built is valid in front of its payload, whatever trails it, and reads back |
| `Packets.CorruptHeader` | src/net/mn_ipv4.c:51-67 | A valid header, with options or without, one of whose words was changed is taken for valid if and only if the change is a multiple of 65535 and a changed length still fits the header and what is available |
| `Packets.BuildUdp` | src/net/mn_udp.c:11-27 | Writes exactly a datagram header with its checksum, 0xffff for 0 |
| `Packets.CheckUdp` | src/net/mn_udp.c:29-40 | Length and checksum, zero meaning none |
| `Packets.BuiltUdpValid` | src/net/mn_udp.c:11-40 | What is built is valid, carries a checksum and reads back |
| `Packets.CorruptUdp` | src/net/mn_udp.c:29-40 | A valid datagram with a checksum, one of whose words was changed, is taken for valid if and only if the change is a multiple of 65535 that leaves the length alone, or erases the checksum |
| `Packets.CorruptUnchecked` | src/net/mn_udp.c:29-40 | Without a checksum only the length is checked, and a checksum that appears has to be right |
| `Packets.IsEchoRequest` | src/net/mn_icmp.c:11-35 | A valid IPv4 packet for our address with a valid echo request in it |
| `Packets.BuildEchoReply` | src/net/mn_icmp.c:37-62 | The whole reply frame |
| `Packets.ReplyIsValid` | src/net/mn_icmp.c:37-62 | A valid echo request gets a valid echo reply to the asker, with the request's identifier, sequence number and data, no longer than the request |
| `Packets.OneAddressee` | src/net/mn_icmp.c:11-35 | A frame is a ping for at most one address |
| `Packets.NoPingPong` | src/net/mn_icmp.c:11-62 | A reply is never itself taken for a request |
| `Calendar.YearOf` | src/net/mn_ntp.c:98-114 | The year loop ends and finds the year of a day and the day of that year by the closed formula |
| `Calendar.MonthOf` | src/net/mn_ntp.c:116-125 | The month loop finds the month of a day and the day of that month by the closed formula |
| `Calendar.ToCivil` | src/net/mn_ntp.c:81-126 | For every timestamp and offset a valid Gregorian date that stands for exactly the time taken, with the right weekday |
| `Calendar.RightInEra` | src/net/mn_ntp.c:84-97 | That time is the local time the caller meant if and only if it lies in [2^31, 2^31 + 2^32) |
| `Calendar.EraSplit` | src/net/mn_ntp.c:91-97 | The constants 49710 and 23296 carry 2^32 seconds exactly, without overflow |
| `Calendar.InOrder` | src/net/mn_ntp.c:81-126 | The count of seconds is the order of the calendar, so no two valid dates stand for the same second and the date given is the only right one |
| `Calendar.Weekdays` | src/net/mn_ntp.c:106 | Counting from Monday 1900-01-01 agrees with an independent weekday formula |
| `Calendar.YearStep` | src/net/mn_ntp.c:76-79 | Years follow one another by the leap rule |
| `Calendar.EraInDates` | src/net/mn_ntp.c:84-97 | In dates: a valid date lies in the era if and only if it is not before 1968-01-20 03:14:08 and before 2104-02-26 09:42:24 |
| `Dns.Resolver.Build` | src/net/mn_dns.c:22-56 | Writes exactly the query for a name of labels of 1 to 63 bytes, and 0 if and only if some label is empty or too long |
| `Dns.QueryReadsBack` | src/net/mn_dns.c:22-56 | The query's labels decode back to the name, and skip_name lands exactly after it |
| `Dns.SkipNameIn` | src/net/mn_dns.c:99-111 | The loop ends, reads only inside the message, and gives the offset after the name |
| `Dns.SkipsName` | src/net/mn_dns.c:99-111 | A name is skipped exactly, whether it ends at the root or with a pointer |
| `Dns.ReadsLabels` | src/net/mn_dns.c:34-52 | Labels written one after the other read back one by one |
| `Dns.JoinSplit` | src/net/mn_dns.c:36-48 | Splitting a name at its dots loses nothing |
| `Dns.SkipQuestionsIn` | src/net/mn_dns.c:131-136 | The loop over the questions ends inside the message or fails |
| `Dns.FindIn` | src/net/mn_dns.c:137-154 | The loop over the answers ends for every message, though the 16-bit offset can move backwards |
| `Dns.Resolver.Parse` | src/net/mn_dns.c:114-155 | A good answer fills in the address; an error code fails the lookup; anything else changes nothing |
| `Dns.WellFormedAnswered` | src/net/mn_dns.c:114-155 | Every well-formed response of at most 576 bytes, with pointers and any records around the answer, yields its first A record of class IN |
| `Dns.OthersIgnored` | src/net/mn_dns.c:117-124 | A response to another query, or a query, changes nothing, whatever it holds |
| `Dhcp.WalkStores` | src/net/mn_dhcp.c:141-169 | A well-formed option area is stored option by option |
| `Dhcp.LastOptionWins` | src/net/mn_dhcp.c:157-165 | Of each kind the last option that is long enough decides |
| `Dhcp.MessageReads` | src/net/mn_dhcp.c:53-88 | Our own messages read back: type, transaction, hardware address, and ciaddr exactly while bound |
| `DhcpClient.WalkArea` | src/net/mn_dhcp.c:141-169 | The option loop ends and stays inside the area |
| `DhcpClient.BuildMessage` | src/net/mn_dhcp.c:53-88 | The buffer holds exactly the message |
| `DhcpClient.Machine.constructor` | src/abi/api.c:198-199 | An idle client |
| `DhcpClient.Machine.ClockTick` | src/net/mn_dhcp.c:221-234 | The loop and the carries add exactly the ticks since the last call, both accumulators in range |
| `DhcpClient.Machine.ReadMessage` | src/net/mn_dhcp.c:176-200 | A reply to our transaction is read in up to three option areas; anything else has type 0 |
| `DhcpClient.Machine.Send` | src/net/mn_dhcp.c:90-105 | Renewing goes to the server, everything else to everyone; a pending send is no try |
| `DhcpClient.Machine.Begin` | src/net/mn_dhcp.c:107-133 | Acquisition starts from nothing, without an address |
| `DhcpClient.Machine.Lose` | src/net/mn_dhcp.c:238-249 | The address is dropped and acquisition starts over |
| `DhcpClient.Machine.PollLease` | src/net/mn_dhcp.c:251-295 | One poll of a bound client |
| `DhcpClient.Machine.PollAcquire` | src/net/mn_dhcp.c:307-355 | One poll of an acquiring client |
| `DhcpClient.Machine.Run` | src/net/mn_dhcp.c:297-356 | One poll; both run invariants are kept |
| `DhcpRuns.TickExact` | src/net/mn_dhcp.c:219-234 | No minute is lost while a lease that expires is held |
| `DhcpRuns.PollHonest` | src/net/mn_dhcp.c:251-356 | Every poll keeps the phase right and the address honest, whatever arrives |
| `DhcpRuns.TermsGood` | src/net/mn_dhcp.c:208-215 | T1 is half and T2 seven eighths of the whole minutes of a lease of 120 to 3887999 seconds; any other gets no terms at all |
| `DhcpRuns.SaysItsState` | src/net/mn_dhcp.c:53-105 | Every message sent has the type, the address and the destination that the state calls for, and there is at most one |
| `DhcpRuns.AlwaysHonest` | src/net/mn_dhcp.c:203-356 | Over every run: with a lease that has terms the phase is the one its age calls for and minutes are left; acquiring or failed, the address is 0.0.0.0 |
| `DhcpRuns.TicksExact` | src/abi/api.c:65-71 | The 16-bit tick counts frames exactly if read at least every 256 frames |
| `DhcpRuns.LeaseClock` | src/net/mn_dhcp.c:203-295 | Over every timely schedule, with L the seconds of the last grant: if 120 <= L < 3888000, minutes, seconds and ticks together are exactly the frames since the grant, the last call came less than 50 L frames after it, and the phase is the one those frames call for; any other L has no terms |
| `DhcpAcquire.StartsOut` | src/net/mn_dhcp.c:107-133 | Acquisition starts from nothing: no address, one DISCOVER to everyone |
| `DhcpAcquire.OfferTaken` | src/net/mn_dhcp.c:317-323 | A selecting client takes every OFFER to its transaction, read option by option, and sends to everyone a REQUEST whose option 50 is the OFFER's yiaddr and whose option 54 its server |
| `DhcpAcquire.AckTaken` | src/net/mn_dhcp.c:324-332 | A requesting client takes every ACK to its transaction: address, mask and router of the host, lease and clock |
| `DhcpAcquire.NakTaken` | src/net/mn_dhcp.c:333-338 | A NAK makes it start over from DISCOVER |
| `DhcpAcquire.Acquires` | src/net/mn_dhcp.c:307-340 | OFFER, REQUEST, ACK, configured host: with what was confirmed, for as long as the lease is |
| `DhcpAcquire.RetriesOnTime` | src/net/mn_dhcp.c:342-354 | Without mail a pending message is offered again at once, an unanswered one after 200 ticks and not before, and after the fifth the client fails |
| `DhcpAcquire.OthersIgnored` | src/net/mn_dhcp.c:176-190 | Mail that is no reply, or is for another transaction or interface, changes nothing |
| `DhcpAcquire.Overloaded` | src/net/mn_dhcp.c:193-200 | The overload flags add the file field and then the sname field to the options |
| `DhcpAcquire.RenewsInTime` | src/net/mn_dhcp.c:276-294 | With a lease that has terms a poll without mail sends a REQUEST exactly from the renewal time on, T1 at first and then every minute, to the server before T2 and to everyone after; at expiry the address goes and a DISCOVER goes out |
| `DhcpAcquire.BoundReplies` | src/net/mn_dhcp.c:259-275 | While bound an ACK is a new lease of the same address and a NAK the end of it |
| `DhcpLease.ForEverIff` | src/net/mn_dhcp.c:203-216 | After the ACK that grants or renews a lease of L seconds the address is held under every sequence of polls if and only if not 120 <= L < 3888000 |
| `DhcpLease.HeldForEver` | src/net/mn_dhcp.c:256-257 | A lease without terms survives every sequence of polls, which send nothing and read no mail |
| `DhcpLease.ServerDecides` | src/net/mn_dhcp.c:203-216 | The same seen from the server: its ACK of L seconds to a requesting client, read option by option, configures the host, for ever exactly unless 120 <= L < 3888000 |
| `DhcpLease.OneMinute` | src/net/mn_dhcp.c:208-210 | The input: an ACK of 60 seconds is still held after any polls |
| `DhcpRuns.GivesUp` | src/net/mn_dhcp.c:342-354 | Nobody answering, at most five messages are sent, and every poll up to the one that fails comes less than 1000 + 5g frames after the start; then the client has FAILED, without an address |
| `Arp.Cache.constructor` | src/net/mn_arp.c:108-114 | Empty |
| `Arp.Cache.Learn` | src/net/mn_arp.c:116-140 | A known address keeps its place; a new one goes to the back of the queue and pushes out its front when full |
| `Arp.Cache.Lookup` | src/net/mn_arp.c:142-149 | The pair in the queue, if there is one |
| `Arp.HoldsLastInserted` | src/net/mn_arp.c:116-140 | After any history the cache holds exactly the four most recently inserted addresses, in order; a refresh moves nothing |
| `Arp.NeverTwice` | src/net/mn_arp.c:121-127 | No address ever occupies two slots |
| `Arp.HitIsLatest` | src/net/mn_arp.c:116-149 | A hit is the MAC most recently learned for that address |
| `Arp.FoundIffInserted` | src/net/mn_arp.c:116-149 | An address is found if and only if it is among the last four inserted |
| `Arp.RefreshDoesNotSave` | src/net/mn_arp.c:121-135 | The oldest insertion of a full cache goes with the next new address even if it has just been refreshed |

## Left out

- TcpSocket.Socket: the scalar fields of the C struct are one value `t`, replaced as a whole by each
  assignment; the rings, their heads, the transmit buffer and the wire are updated in place. What a
  reader in the middle of one C function would see between two scalar assignments is not modelled.
- DhcpClient.Machine: likewise, the fields of `mn_dhcp` other than the message buffer are one value.
- NetLink.Nif.TxBegin: which next hop is chosen and whether the ARP cache has it is an arbitrary function
  of the number of the attempt.
- NetLink.Nif.TxSend: the IPv4 and Ethernet headers in front of the payload are not on the modelled wire;
  the IPv4 header is built and validated in `Packets.dfy`.
- TcpFlow.FlowControl: speaks of data and of the window, not of our FIN, which `mn_tcp_poll` sends without
  looking at the window.
- TcpFlow.StaleWindow: for acknowledgements of what has been sent; so is `StalePosition`.
- TcpTimeWait.WaitsOut: an abort or an RST in the window ends the wait at once (`RstIffInWindow`) and is not
  among its steps.
- Arp.HitIsLatest: says what a hit returns; that an address may be missing although it was learned
  once is `HoldsLastInserted`.
- `mn_tcp_send_x`, `mn_tcp_recv_x` and the `_x` ring copies: the same code with a 28-bit pointer.
- `initial_seq` and the local port formula: both are arbitrary values chosen by the caller.
- Statistics and diagnostic counters, except `rst_sent`.
- The ARP request that goes out when the next hop is unknown, `mn_net_next_hop`, subnet broadcasts,
  Ethernet headers, the ARP frame builders and `mn_net_poll`'s dispatch by protocol: to the
  transports the link is an arbitrary sequence of answers.
- UDP source addresses and ports as filters: the DHCP client does not look at them, and the mailbox
  only hands them over.
- The request and retry machines of DNS and NTP, whose shape is that of DHCP's acquiring states.
- DHCP's choice of socket and mailbox contents: each call meets an arbitrary result and an arbitrary
  datagram of at most 576 bytes.
- The 2^31 bound of the end-to-end theorem: beyond it sequence numbers repeat within reach of one
  another and nothing is claimed.
- Liveness in general: a handshake, a flight of data and a close are proved to succeed over a link that
  takes everything, not to succeed in the end over one that only sometimes does.
- `src/hal/`, interrupt vectors, zero-page swapping and the parameter block of `src/abi/`: no protocol
  logic.
