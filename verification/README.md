# Verified model of a BACnet stack

This project models the protocol core of a BACnet stack written in Go and proves what it is
supposed to do. References to sections are to ANSI/ASHRAE 135-2024.

* **Segmentation** (sections 5.4.1 and 5.4.5). The confirmed-service machine of a responder that
  reassembles segmented requests and sends long responses in windows (`machine.dfy`, `server.dfy`,
  `segmentation.dfy`, `transmit.dfy`, `cooperation.dfy`, `reassembly.dfy`, `delivery.dfy`), what the two
  sides agree on (`agreement.dfy`), the server tables that own such machines (`tables.dfy`, `ase.dfy`,
  `exchanges.dfy`, `refusals.dfy`, `handover.dfy`), what goes on the wire for a request (`answers.dfy`) and
  for each other operation (`outcomes.dfy`), the allocation of invoke identifiers (`invokes.dfy`), and
  both ends of an exchange (`replies.dfy`).
* **APDU headers** (section 20.1): `apdu.dfy`, `codec.dfy`. The octets of all layers in numbers: `layouts.dfy`.
* **Routing** (sections 6.2, 6.4 and 6.6.3). The NPDU codec (`npdu.dfy`), network-layer messages
  (`nlm.dfy`), the ageing routing table (`routing.dfy`), what a router decides about one unit
  (`forwarding.dfy`, `decisions.dfy`), the router object (`router.dfy`), and any number of routers
  (`internetwork.dfy`).
* **Values and constructed data** (sections 20.2, 15.5, 15.7 and 13). Tag headers (`tags.dfy`), the
  stack parser for nested tags (`bodies.dfy`), primitives (`primitives.dfy`), application values
  (`values.dfy`), the list-valued answers and notifications (`lists.dfy`, `notifications.dfy`), and which
  octets all these readers accept (`grammar.dfy`).

Where the original updates state step by step there is a method or a class here, proved equal to a
function on values; the properties are lemmas about those functions. So that no such function rests on
itself alone, `agreement.dfy`, `answers.dfy`, `outcomes.dfy`, `decisions.dfy`, `layouts.dfy`,
`grammar.dfy` and `replies.dfy` tell in plain numbers, and end to end, what comes out of them.

Octets are integers from 0 to 255, and shifts and masks are written as division and remainder. An absent
slice and an empty one are the same except for the two addresses of an NPDU, where the original tells
them apart. Clocks, handlers, the transport's refusals, the router's busy verdict and the UTF-8 library
are parameters.

`dafny verify dfyconfig.toml` checks everything.

## What the proofs brought to light

* A positive Segment-ACK for any segment of the window in flight, even its first, moves past the
  whole window, and ends the exchange when that was the last one (`Transmission.AckMeansWholeWindow`).
  Completion therefore means that every segment was sent, not that every segment was acknowledged.
  The announced window size is adopted first, so confirming the last segment of a window while
  announcing a smaller one than is in flight counts as a failure (`Cooperation.AcknowledgesExactly`).
* An answer sent in one APDU keeps to the agreed size exactly when its header still fits, because only
  the handler's octets are compared with that size; a full one exceeds it by three octets
  (`Transmission.UnsegmentedFitsExactly`, `Transmission.FullAnswerIsTooLong`).
* Among requests without empty segments, those of at most 256 are reassembled right on every
  network, and those of more on none, not even a perfect one, because every sequence number 0 is
  taken for a first segment (`Delivery.SafeExactlyUpTo256`).
* A limit of 255 duplicates is never exceeded, because the count saturates (`Delivery.DuplicateBudget`).
* A request delivered promptly and in order is handed over if and only if the element supports
  segmentation, the request is not empty, a handler is registered, and the transport refuses neither
  the Segment-ACK of the first segment, if one is due, nor the last one
  (`Handover.PromptIsHandedOver`). Refusals in between only leave the deadline as it was. After a
  refused first Segment-ACK nothing is stored (`Handover.RefusedFirstAck`); after a refused last one an
  aborted machine blocks the exchange until the collector removes it (`Handover.RefusedLastAck`,
  `Handover.AbortedEntryOutlives`, `Handover.CollectedEntryMakesRoom`).
* Table entries agree with their machines after an operation if and only if no refusal meets a segment
  that ends an open reception, or falls within the reply to a Segment-ACK for a response already in
  progress (`Refusals.ConsistentExactly`). Refusals that meet an exchange not yet filed, such as that
  of the first window of a response, leave no entry behind.
* Whatever is sent while a request is received, be it a Segment-ACK, makes the element forget a response still
  in progress for the same requester and invoke identifier (`Outcomes.SegmentIsFiled`).
* A request whose segments are all empty is never handed over, whatever happens
  (`Handover.HandedOnlyTheWhole`).
* The router fails on a valid unit exactly when that has no application payload and some forward of
  it is due, broadcast or unicast (`Forwarding.EvaluationFailsExactly`); the constructors rebuild a
  valid unit exactly when its hop count is not zero and its application payload is not empty
  (`Npdu.RebuiltExactly`).
* A requester refuses the first segment of a response, and the rest with it, by an Abort with reason 4
  (`Replies.SegmentsAreRebuffed`), so what reaches it from a responder like this one are the answers that
  keep within the sizes of both (`Replies.ExchangeCompletes`).
* Two network-layer models count as valid with the broadcast network number, which does not survive
  the wire (`Nlm.WireRoundTripExactly`).
* The reader of ReadPropertyMultiple results steps over the tag that closes the results of an object as one
  octet. In its two-octet form it is a closing tag like any other, and makes the answer be refused
  (`Grammar.ReadAccessesExactly`, `Grammar.LongClosingIsRefused`); the same holds for notifications
  (`Grammar.MultiplesExactly`).
* The decoder of ReadPropertyMultiple results indexes past the end of the payload exactly when that
  consists of complete results, the object and opening tag of one more, complete entries of that one,
  and a final property identifier (`Lists.DecoderCrashesExactly`): every well-formed answer that is cut
  off there does it (`Lists.TruncatedAnswersCrash`), for example the octets 0C 00 00 00 01 1E 29 55
  (`Lists.CutOffAnswerCrashes`).

## Model

| member | source | states |
|---|---|---|
| Server.ConfirmedServerMachine.constructor | apdu/state_machine_server.go:28-60 | a new machine is idle, with zero windows and duplicate limits replaced by their defaults |
| Server.ConfirmedServerMachine.Handle | apdu/state_machine_server.go:368-394 | every event in every state leaves exactly the variables and output of the step function |
| Server.ConfirmedServerMachine.SetSegmentTimeout | apdu/state_machine_server.go:71-76 | only the deadline changes |
| Server.ConfirmedServerMachine.SegmentTimeoutExpired | apdu/state_machine_server.go:78-88 | expired exactly when a deadline is set and lies strictly before now |
| Server.ConfirmedServerMachine.ObserveDuplicate | apdu/state_machine.go:213-219 | the count saturates at 255; exceeded exactly when a non-zero limit is passed |
| Server.ConfirmedServerMachine.DuplicateSegmentOutput | apdu/state_machine_server.go:264-278 | a tolerated duplicate is acknowledged with the last contiguous number, one too many aborts |
| Server.ConfirmedServerMachine.BufferSegment | apdu/state_machine.go:231-235 | the segment and its mark are kept under its number, nothing else changes |
| Server.ConfirmedServerMachine.TakeBufferedSegment | apdu/state_machine.go:237-255 | returns and removes exactly the segment asked for; a missing mark counts as more to follow |
| Server.ConfirmedServerMachine.ConsumeContiguous | apdu/state_machine_server.go:280-305 | the loop consumes the maximal run of buffered segments up to the last one, counting modulo 256 |
| Server.ConfirmedServerMachine.DrainContiguousSegmentBuffer | apdu/state_machine_server.go:280-329 | after draining: acknowledgement when the request is complete or the window full, silence otherwise |
| Server.ConfirmedServerMachine.HandleInIdle | apdu/state_machine_server.go:396-457 | the idle state's transitions |
| Server.ConfirmedServerMachine.HandleInReceiving | apdu/state_machine_server.go:700-760 | the receiving state's transitions |
| Server.ConfirmedServerMachine.CollectWindow | apdu/state_machine_server.go:623-663 | the loop emits the segments of one window in order and reports where it stopped |
| Server.ConfirmedServerMachine.BuildWindow | apdu/state_machine_server.go:623-663 | the window's base, end and numbering after building it |
| Server.ConfirmedServerMachine.HandleInAwaitResponse | apdu/state_machine_server.go:762-827 | answers, failures and the choice to segment |
| Server.ConfirmedServerMachine.StartResponse | apdu/state_machine_server.go:665-698 | the variables a segmented response begins with |
| Server.ConfirmedServerMachine.RetryWindow | apdu/state_machine_server.go:868-894 | the same window again while retries last, then an abort |
| Server.ConfirmedServerMachine.HandleInAwaitSegmentACK | apdu/state_machine_server.go:838-904 | Segment-ACKs, timeouts and closing while sending |
| Server.WindowIgnoresBookkeeping | apdu/state_machine_server.go:595-621 | a window's contents depend on configuration, response and window size only |
| MachineSpec.StepKeepsConfig | apdu/state_machine_server.go:368-394 | no event changes a machine's configuration |
| Segmentation.CuttingIsGood | apdu/state_machine_server.go:511-567 | the ceiling division counts exactly the segments that begin inside the response, 2 to 65 of them and no more than the requester accepts |
| Segmentation.CountIsCut | apdu/state_machine_server.go:511-531 | the announced count is the number of pieces greedy cutting makes; none is empty and together they are the response |
| Segmentation.WindowIsCanonical | apdu/state_machine_server.go:623-663 | a window is a run of consecutive canonical segments, as long as its budget or the response allows |
| Segmentation.SegmentFits | apdu/codec.go:113-133 | every encoded segment, header included, fits the agreed APDU size |
| Transmission.SendWindowSends | apdu/state_machine_server.go:623-663 | building a window never fails while sending, and sends at most a window of canonical segments |
| Transmission.StepIsFaithful | apdu/state_machine_server.go:838-904 | every event keeps the sending invariant, and neither a Segment-ACK nor a timeout errs |
| Transmission.EverySegmentIsCanonical | apdu/state_machine_server.go:595-689 | whatever the peer and the clock do, segment k carries the k-th greedy piece and announces more exactly when it is not the last |
| Transmission.RetransmissionsAgree | apdu/state_machine_server.go:838-904 | two transmissions with one number differ in the window size at most |
| Transmission.EverySegmentFits | apdu/state_machine_server.go:475-531 | every segment of every run encodes within the agreed size |
| Transmission.UnsegmentedFitsExactly | apdu/state_machine_server.go:829-836 | an answer in one APDU, of any type, encodes and keeps within the agreed size exactly when its header and payload together do |
| Transmission.FullAnswerIsTooLong | apdu/state_machine_server.go:829-836 | an acknowledged answer of exactly the agreed size is sent three octets too long |
| Transmission.AnyCopiesReassemble | apdu/codec.go:238-260 | decoding one copy of each segment and joining them in order gives back the handler's response and its service choice |
| Transmission.CompletedMeansAllSent | apdu/state_machine_server.go:853-866 | completion implies that every segment was sent and can be decoded |
| Transmission.StepSpends | apdu/state_machine_server.go:838-894 | every Segment-ACK or timeout uses up fuel or ends the exchange |
| Transmission.ResponseTerminates | apdu/state_machine_server.go:838-894 | whatever other events come in between, an exchange of n segments is over after n times retries-plus-one Segment-ACKs and timeouts; without retries, after one more than the segments beyond the first window |
| Transmission.BoundIsReached | apdu/state_machine_server.go:838-894 | one event less does not suffice, whatever the window and the number of retries |
| Transmission.AckMeansWholeWindow | apdu/state_machine_server.go:847-866 | when exactly a Segment-ACK completes, advances past the whole window, or repeats it, with the announced window size adopted first |
| Cooperation.AcknowledgesExactly | apdu/state_machine_server.go:847-866 | a positive Segment-ACK for a segment in flight moves on exactly when that segment lies within the window size it announces |
| Cooperation.CooperationCompletesExactly | apdu/state_machine_server.go:838-866 | when the last segment of every window is confirmed, the exchange completes exactly when the windows cover the response, and every segment is sent once, in order |
| Cooperation.RepliesCooperate | apdu/state_machine_server.go:838-866 | such confirmations exist for every response, one for each full or last window |
| Agreement.SegmentedExactly | apdu/state_machine_server.go:511-567 | an acknowledged answer is segmented exactly when both sides can, it is longer than one segment of the smaller size, and it fits 2, 4, 8, 16, 32, 64 or 65 of them, as the requester's code says |
| Agreement.SegmentsKeepWithinBoth | apdu/state_machine_server.go:483-531 | in every run each encoded segment keeps within the requester's and the local size, every one but the last fills the smaller of them exactly, and their number keeps within the code's |
| Agreement.TooLongExactly | apdu/state_machine_server.go:762-827 | an answer too long for one APDU starts such a response exactly then, and is otherwise given up with Abort reason 4 |
| Agreement.AnswerIsNoted | apdu/state_machine_server.go:331-335 | the type and length the machine notes are those of what it sends |
| Agreement.FirstWindowIs | apdu/state_machine_server.go:569-580 | the first window has the preferred size, no more segments than are accepted, and no more than there are |
| Agreement.WindowFollowsPeer | apdu/state_machine_server.go:838-866 | after a Segment-ACK no more segments are in flight than it announces, and they announce the smallest size of all sides |
| Agreement.AbortsExactly | apdu/state_machine_server.go:700-904 | whatever happens in whatever state, an Abort the machine sends of its own accord is all it sends, ends the exchange, and has reason 0, 2, 4, 10 or 11 by state and event |
| Agreement.RefusedExactly | apdu/state_machine_server.go:368-394 | what can happen in each state; anything else is an error and changes nothing |
| Reassembly.FirstSegment | apdu/state_machine_server.go:396-457 | the first segment opens the exchange, or completes a request of one segment |
| Reassembly.AwaitedSegment | apdu/state_machine_server.go:700-760 | the awaited segment is appended and acknowledged exactly when it fills a window or is the last |
| Reassembly.OtherSegment | apdu/state_machine_server.go:722-739 | any other segment is counted as a duplicate exactly when it was received in this window or is the first; otherwise refused without effect |
| Reassembly.PhaseIsRemainder | apdu/state_machine_server.go:306-327 | how far the window is filled is the number of segments modulo the window size |
| Agreement.EveryAckAnnounces | apdu/state_machine_server.go:459-473 | in every run after a first segment every Segment-ACK announces the smaller of the proposed and the preferred window, zeros counting as one |
| Agreement.InOrderIsAcked | apdu/state_machine_server.go:700-760 | a request arriving in order is sent exactly one Segment-ACK for each full window of that size and one at its end |
| Agreement.IdleAborts | apdu/state_machine_server.go:396-457 | a segmented request is refused at once exactly when it does not begin with segment 0 or the responder cannot receive segments |
| Agreement.NegativeExactly | apdu/state_machine_server.go:722-739 | in any state of the window, a segment not awaited gets a negative Segment-ACK exactly when none were received in it or the segment lies further ahead of its base than those |
| Delivery.ReassemblyIsSafe | apdu/state_machine_server.go:280-329 | under loss, duplication, reordering and timeouts the buffer is always the first k segments and every completed request is the original |
| Delivery.WindowArithmetic | apdu/state_machine.go:200-219 | next number = window base + received in window, modulo 256, and nothing stays buffered |
| Delivery.AwaitedVerdict | apdu/state_machine_server.go:306-327 | a positive Segment-ACK follows accepted segment k exactly when k+1 is a multiple of the window or k is the last |
| Delivery.OtherVerdict | apdu/state_machine_server.go:722-739 | re-acknowledged, aborted or refused: exactly when each |
| Delivery.DuplicateBudget | apdu/state_machine.go:213-219 | between accepted segments exactly the configured number of duplicates is tolerated; a limit of 255 is never exceeded |
| Delivery.DefaultBudget | apdu/state_machine_server.go:28-60 | without a limit of its own a responder tolerates three duplicates and not the fourth |
| Delivery.InOrderCompletes | apdu/state_machine_server.go:700-760 | delivered once and in order, every request of at most 256 segments completes |
| Delivery.CompletesExactly | apdu/state_machine_server.go:700-760 | without expiry, and with no more duplicates in between than are tolerated, a request completes if and only if its segments arrive in order, whatever else arrives |
| Delivery.SafeExactlyUpTo256 | apdu/ase.go:789-794 | reassembly is right on every network if and only if there are at most 256 segments, and on none if and only if there are more |
| Delivery.NeverRightBeyond256 | apdu/ase.go:789-794 | beyond 256 non-empty segments nothing that is ever completed is the original, from any entry holding at most one segment for each number |
| Apdu.LengthRoundsUp | apdu/codec.go:318-344 | a length is announced as the smallest standard size that holds it |
| Apdu.DecodeEncode | apdu/codec.go:55-294 | every APDU the encoder accepts decodes to the same fields |
| Apdu.DecodeSegmentedRequest | apdu/codec.go:188-230 | every segmented request header and payload is read back; continuations carry no service choice |
| Layouts.ApdusAreEncoded | apdu/codec.go:55-173 | every APDU octet by octet, and which ones there is no encoding for |
| Layouts.EncodesExactly | apdu/codec.go:55-173 | the error for each APDU that has no encoding |
| Layouts.ApdusExactly | apdu/codec.go:175-294 | which octets are an APDU: types 0 to 7, the shortest length of each, and a known size code; and the error otherwise |
| Layouts.TrailingIsIgnored | apdu/codec.go:262-290 | what follows a Segment-ACK, reject or abort is ignored |
| ApduCodec.EncodeBuffer | apdu/codec.go:55-173 | filling the buffer yields the encoding, or the same refusal |
| ApduCodec.EncodeComplexACK | apdu/codec.go:103-133 | segment 0 carries the service choice in front of its payload, others do not |
| ApduCodec.DecodeAPDU | apdu/codec.go:175-294 | setting the fields one by one yields the decoded APDU, or the same refusal |
| Ase.ServiceElement.SyncResponseEntry | apdu/ase.go:636-661 | the entry is kept with a new deadline exactly while the machine awaits a Segment-ACK and the element is open |
| Ase.ServiceElement.SendServerOutput | apdu/ase.go:1098-1145 | the loop sends a prefix of the output; a refused APDU aborts the machine and leaves the table alone |
| Ase.ServiceElement.HandleSegmentACK | apdu/ase.go:683-729 | the tables, what is sent and the error after a Segment-ACK, late ones included |
| Ase.ServiceElement.HandleFailure | apdu/ase.go:1077-1096 | what a failed handler leaves behind |
| Ase.ServiceElement.DispatchToHandler | apdu/ase.go:1009-1075 | who is asked, what is checked about the answer, and how it is sent |
| Ase.ServiceElement.HandleConfirmedRequest | apdu/ase.go:731-794 | routing of confirmed requests to the three paths |
| Ase.ServiceElement.StartSegmentedReceive | apdu/ase.go:803-905 | a first segment opens an exchange, repeats one, or ends an expired one |
| Ase.ServiceElement.ContinueSegmentedReceive | apdu/ase.go:911-984 | a continuation needs an open exchange and may complete or end it |
| Ase.ServiceElement.AssembleAndHandOver | apdu/ase.go:986-1003 | the assembled request carries the first segment's header; an empty one is not ready |
| Ase.ServiceElement.CollectTimedOut | apdu/ase.go:1312-1357 | one tick, in any order of the maps: stale inbound entries go, expired responses see the timeout and stay only if sent again |
| Ase.ServiceElement.Close | apdu/ase.go:285-323 | closing forgets every exchange; closing again does nothing |
| Exchanges.AckKeepsConsistent | apdu/ase.go:683-729 | a Segment-ACK never meets a machine that refuses it or output that does not encode |
| Exchanges.EmitReports | apdu/ase.go:1098-1145 | sending fails only for an APDU that does not encode or is refused, or, exactly then with its own error, when an output to send holds none |
| Exchanges.RequestKeepsConsistent | apdu/ase.go:731-984 | requests keep the tables consistent when the transport accepts; when it does not is told by Refusals.ConsistentExactly |
| Exchanges.CollectorKeepsConsistent | apdu/ase.go:1312-1357 | the collector keeps them consistent even under refusals |
| Exchanges.ConsistentForever | apdu/ase.go:636-1360 | in every state reached without refusals inbound machines are receiving, outbound ones are sending a well-cut response, and each entry expires at its machine's deadline |
| Refusals.EmissionExactly | apdu/ase.go:1121-1138 | an output is sent in full as if nothing were refused, or a refusal falls on one of its APDUs and tells the machine that it cannot send |
| Refusals.EndsExactly | apdu/state_machine_server.go:700-760 | a receiving machine leaves that state exactly on a late segment, a duplicate too many, or the segment that completes the request, and never silently |
| Refusals.ReplyExactly | apdu/state_machine_server.go:838-894 | how many APDUs answer a Segment-ACK or its late arrival, and that a machine that cannot send them is finished |
| Refusals.ConsistentExactly | apdu/ase.go:1132-1137 | an operation keeps the tables consistent if and only if no refusal meets a segment that ends a reception, or falls within the reply to a Segment-ACK |
| Refusals.ConsistentThroughoutExactly | apdu/ase.go:636-1360 | over a whole history the tables are consistent at every point if and only if no operation meets such a refusal |
| Exchanges.ApplyFiles | apdu/ase.go:636-661 | outbound entries always sit under their machine's invoke identifier |
| Handover.HandedOnlyTheWhole | apdu/ase.go:803-1003 | through any history, refusals included, the application is handed only the request as it was before segmentation, field by field, and never an empty one |
| Handover.HandedOncePerFirst | apdu/ase.go:803-984 | and at most once for each arrival of its first segment, an open exchange counting as one more |
| Handover.PromptIsHandedOver | apdu/ase.go:803-1003 | a request delivered promptly and in order, under any refusals, is handed over exactly once if segmentation is supported, it is not empty, a handler is registered and neither the first Segment-ACK due for segment 0 nor the last one is refused; otherwise never |
| Handover.RefusedFirstAck | apdu/ase.go:854-858 | a refused Segment-ACK for the first segment fails without storing anything |
| Handover.RefusedLastAck | apdu/ase.go:1132-1137 | a refused last Segment-ACK loses the request and leaves an aborted machine in the table |
| Handover.AbortedEntryBlocks | apdu/ase.go:947-950 | such an entry refuses every further segment of its exchange |
| Handover.AbortedEntryOutlives | apdu/ase.go:1312-1357 | through any history the entry stays as it is, and nothing is handed over for its exchange, until a tick past deadline and grace period or closing drops it |
| Handover.CollectedEntryMakesRoom | apdu/ase.go:1312-1357 | such a tick drops it, and a first segment then opens an exchange again |
| Answers.AnswerIsSent | apdu/ase.go:1050-1074 | an answer within the sizes of both sides goes out as one APDU with its payload, the request's invoke identifier and service, as the acknowledgement, error, reject or abort it is |
| Answers.LongAnswerIsSent | apdu/ase.go:1050-1074 | a longer one begins the segmented response of that payload and is filed with its deadline, exactly when it can be segmented; otherwise Abort reason 4 goes out |
| Answers.FailureIsSent | apdu/ase.go:1077-1096 | no handler gives a Reject, a failing one an Error, a wrong answer a Reject, octet by octet, with what is reported |
| Answers.RequestIsAnswered | apdu/ase.go:743-787 | the same from the arrival of an unsegmented request |
| Answers.RequestIsRefused | apdu/ase.go:743-787 | and for its refusals |
| Answers.LongRequestIsAnswered | apdu/ase.go:743-787 | and for long answers, with the exact condition in the request's own fields |
| Answers.LastSegmentIsAnswered | apdu/ase.go:911-984 | the last segment of a request is acknowledged and then answered, under the header of the first |
| Outcomes.FirstSegmentOpens | apdu/ase.go:803-905 | a first segment with more to come is stored with its sender, priority and a deadline one interval ahead, and whatever its machine sends goes out |
| Outcomes.SegmentIsFiled | apdu/ase.go:911-984 | a segment in time that leaves the exchange open renews its deadline, and whatever its machine sends goes out; a response under the same key is forgotten if anything does |
| Outcomes.EmptyIsNotReady | apdu/ase.go:986-1003 | a request that turns out empty is acknowledged at its end, reported as not ready and forgotten |
| Outcomes.TooManyDuplicatesEnd | apdu/ase.go:803-905 | one duplicate too many sends an Abort, reason 2, reports segmentation as unsupported and drops the entry |
| Outcomes.LateSegmentEnds | apdu/ase.go:911-984 | a segment after the deadline sends an Abort, reason 10, reports the timeout and drops the entry |
| Outcomes.UnsupportedIsRefused | apdu/ase.go:803-905 | without support for segmentation a first segment gets an Abort, reason 0, and nothing is stored |
| Outcomes.AckIsServed | apdu/ase.go:683-729 | a Segment-ACK moves its response, in time or as a timeout; what is sent, reported and filed |
| Outcomes.CollectorExactly | apdu/ase.go:1312-1357 | which requests and responses a tick drops, keeps or renews, and what it sends for each |
| Outcomes.ClosedForGood | apdu/ase.go:636-661 | through any history a closed element stays closed and never has a response in progress |
| Invokes.SearchIsExact | apdu/ase.go:593-619 | the wrapping search succeeds exactly when fewer than 256 identifiers are in flight, with the next free one |
| Invokes.ReissuedLast | apdu/ase.go:593-598 | an identifier is issued again at once only when all others are in flight |
| Invokes.Requester.StartTransaction | apdu/ase.go:570-620 | succeeds exactly when open and below both limits; the identifier was free and no other transaction changes |
| Invokes.Requester.SendRequest | apdu/state_machine_client.go:181-200 | a request awaits its answer exactly when it fits one APDU, and ends there otherwise |
| Invokes.Requester.CompleteTransaction | apdu/ase.go:1210-1295 | a reply ends exactly the transaction it concludes, with the outcome it stands for, and no other; what that is tell the rows below |
| Invokes.Requester.FinishTransaction | apdu/ase.go:622-626 | only that identifier is freed |
| Invokes.Requester.Close | apdu/ase.go:285-308 | every pending transaction fails, once |
| Replies.RequestFitsExactly | apdu/state_machine_client.go:50-56 | a request goes out exactly when its octets keep within the limit |
| Replies.ConcludesExactly | apdu/ase.go:202-222 | a reply concludes a transaction exactly when that awaits one, was for this peer, and for the service the reply names, if it names one |
| Replies.AnswerConcludes | apdu/ase.go:1210-1252 | the octets of an answer, decoded, conclude the transaction they answer with its payload or its refusal, and conclude nothing when they come from elsewhere |
| Replies.SegmentsAreRebuffed | apdu/ase.go:1222-1231 | a segment of a response ends its transaction as not supported and is answered by Abort reason 4 |
| Replies.ExchangeCompletes | apdu/ase.go:743-787 | a request encoded, decoded, answered, encoded and decoded again gives the requester the payload the service returned |
| Nlm.EncodePortEntryList | npdu/nlm_models.go:66-74 | appending entry by entry yields the list's bytes |
| Nlm.DecodeNetworkList | npdu/nlm_models.go:90-125 | the loop reads the numbers of an even, non-empty payload and refuses local and broadcast |
| Nlm.DecodeRoutingTableEntries | npdu/nlm_models.go:538-579 | the cursor loop reads the announced entries and refuses truncation, trailing octets and none |
| Nlm.EntriesRoundTrip | npdu/nlm_models.go:66-74 | any valid entries of any lengths are parsed back, whatever follows |
| Nlm.EntriesNormal | npdu/nlm_models.go:538-579 | every accepted payload is the bytes of its entries |
| Nlm.DecodedIsNormal | npdu/nlm_models.go:581-679 | the model of an accepted message has its header and exactly its payload, and is one the constructors build |
| Nlm.ModelRoundTrip | npdu/nlm_models.go:581-679 | decoding inverts every constructor-built valid model |
| Nlm.EncodeWireBuffer | npdu/nlm_wire.go:16-44 | filling the buffer yields type, vendor and payload |
| Nlm.WireRoundTripExactly | npdu/nlm_wire.go:16-77 | a valid model survives the wire if and only if it does not name the broadcast network in the two lenient models |
| Nlm.WireIsCanonical | npdu/nlm_wire.go:48-77 | every accepted wire form is the encoding of its model |
| Layouts.MessagesAreEncoded | npdu/nlm_wire.go:16-44 | every valid message octet by octet |
| Layouts.MessagesExactly | npdu/nlm_models.go:581-679 | which payloads each message type may have, that a vendor stands with the proprietary types alone, and the error otherwise |
| Npdu.DecodeEncode | npdu/npdu.go:374-593 | decoding inverts encoding on every valid unit, over all flag combinations |
| Npdu.EncodeDecode | npdu/npdu.go:374-593 | every accepted octet string decodes to a valid unit that encodes to it |
| Npdu.AcceptsExactlyEncodings | npdu/npdu.go:450-593 | exactly the encodings of valid units are accepted |
| Npdu.EncodeBuffer | npdu/npdu.go:374-445 | the precomputed size is exact and the running index fills the buffer with the layout |
| Npdu.DecodeCursor | npdu/npdu.go:450-593 | walking the cursor yields the decoded unit, or the same refusal |
| Npdu.FlagsDecompose | npdu/npdu.go:1060-1072 | a control byte with clear reserved bits is exactly its five fields |
| Npdu.RebuiltExactly | npdu/npdu.go:712-838 | building a valid unit again from its own view gives it back if and only if its hop count is not zero and its application payload not empty |
| Npdu.ConstructedIsValid | npdu/npdu.go:712-838 | what constructors build is valid and shows the view and payload it was built from |
| Layouts.ApplicationUnitIs | npdu/npdu.go:374-445 | every constructed unit octet by octet, from version 1 to the hop count |
| Layouts.MessageUnitIs | npdu/npdu.go:374-445 | the same with message type and vendor |
| Layouts.UnitsExactly | npdu/npdu.go:450-593 | which octets are a unit, and the error for every other octet string |
| Routing.BestIsUnique | npdu/router/router.go:85-131 | at most one route is preferred, so no iteration order matters |
| Routing.BestIsBest | npdu/router/router.go:85-131 | there is a preferred route unless there is no route |
| Routing.LookupIsLive | npdu/router/table.go:105-118 | a lookup yields a route of the table that has not expired, and none exactly when there is none |
| Routing.LookupPrefers | npdu/router/router.go:85-131 | a lookup gives the connected route on the lowest port, failing that the learned route heard of last, and of several the one on the lowest port |
| Routing.AddingSets | npdu/router/table.go:24-86 | what adding and learning leave under every network and port, and when they are refused |
| Routing.RefusingKeeps | npdu/router/table.go:47-86 | which routes are refused with which error, and that a refusal changes nothing |
| Routing.HistoryKeepsWellFormed | npdu/router/table.go:14-103 | over any history keys, expiry fields and non-empty port maps stay consistent |
| Routing.PruningIsInvisible | npdu/router/router.go:149-165 | pruning at whatever moments shows exactly the unexpired routes of the history without pruning |
| Routing.ConnectedRouteStays | npdu/router/table.go:24-44 | no advertisement and no ageing ever changes a connected route |
| Forwarding.TransitIsDecremented | npdu/router/router.go:477-500 | a transit forward is the same unit with one hop less; an exhausted one is not built |
| Forwarding.LocalDeliveryIsStripped | npdu/router/router.go:502-523 | final-hop delivery is the same unit without its destination |
| Forwarding.ForwardsAreFaithful | npdu/router/router.go:257-394 | no forward leaves by the ingress port or a port that served the source network before; each carries the unit unchanged |
| Forwarding.FanOutExact | npdu/router/router.go:396-475 | ascending ports, one forward per eligible port, stripped exactly when connected, learned-only ports omitted exactly when the hop count is spent |
| Forwarding.BroadcastGoesEverywhere | npdu/router/router.go:257-475 | the same for whole evaluations: on the pruned and taught table, past the barred ports, and not at all when broadcasts are off or the router is busy |
| Forwarding.EmptyBroadcastFails | npdu/npdu.go:717-719 | the fan-out of a unit without payload fails exactly when some port would have got it |
| Forwarding.EvaluationFailsExactly | npdu/npdu.go:717-719 | an evaluation fails to rebuild exactly when a valid unit without payload is due to be forwarded, broadcast or unicast, and otherwise only on invalid units |
| Forwarding.UnicastFollowsBestRoute | npdu/router/router.go:332-394 | a unicast forward exists exactly when the preferred route on the taught table lets the unit through, and goes out through that port alone; it fails exactly when there is no payload to rebuild |
| Forwarding.EvaluationIsEvent | npdu/router/router.go:283-299 | evaluating teaches the table exactly one learned route, after pruning |
| Decisions.NothingGoesBack | npdu/router/router.go:180-201 | no forward leaves by the ingress port or by a port with an unexpired route to the source network |
| Decisions.BroadcastExactly | npdu/router/router.go:396-475 | a port gets a broadcast exactly when it is neither of these and an unexpired route leads out of it, connected, or learned with two hops left; and in which form |
| Decisions.UnicastVerdict | npdu/router/router.go:332-394 | whether a unicast is forwarded, and the drop reason and reject octets of each other fate |
| Decisions.OthersVerdict | npdu/router/router.go:257-330 | what becomes of units without destination and of broadcasts: delivered, never rejected, held back exactly when the router is busy or does not forward them |
| Decisions.LocalExactly | npdu/router/router.go:257-394 | a unit is for this router exactly when it has no destination, is a broadcast or a network-layer message, or is delivered on a connected network |
| Decisions.TeachesExactly | npdu/router/router.go:283-299 | an evaluation leaves the unexpired routes and one learned route to the source network, for 60 seconds, where no connected one stands |
| Decisions.RejectIs | npdu/router/router.go:206-230 | the six octets of a reject |
| RouterObject.Router.PruneExpired | npdu/router/router.go:149-165 | in any order of the maps exactly the expired learned routes and emptied networks go |
| RouterObject.Router.UpsertRoute | npdu/router/table.go:24-44 | refresh, keep or replace, per network and port |
| RouterObject.Router.AddConnectedRoute | npdu/router/table.go:46-63 | a valid connected route is added or replaces |
| RouterObject.Router.AddLearnedRoute | npdu/router/table.go:65-86 | a valid learned route is added or refreshed |
| RouterObject.Router.RemoveRoute | npdu/router/table.go:88-91 | every route to the network goes |
| RouterObject.Router.RemoveRouteOnPort | npdu/router/table.go:93-103 | exactly that port's route goes, and the network with its last port |
| RouterObject.Router.BestRoute | npdu/router/router.go:85-131 | the loop finds the preferred live route whatever the order of the map |
| RouterObject.Router.SelectBest | npdu/router/router.go:94-130 | the comparisons of the loop pick the unique best route |
| RouterObject.Router.LookupAll | npdu/router/table.go:120-153 | every live route once, in strict order of preference, the preferred one first |
| RouterObject.RankedHeadIsBest | npdu/router/table.go:132-140 | the head of the ranking is the preferred route |
| RouterObject.RankedInOrder | npdu/router/table.go:132-140 | the order of two neighbours, by kind, age and port |
| RouterObject.Router.CollectPorts | npdu/router/router.go:407-425 | the nested loops collect exactly the ports with an admissible connected or learned route |
| RouterObject.Router.EvaluateGlobalBroadcast | npdu/router/router.go:396-475 | the loops build exactly the fan-out |
| RouterObject.Router.EvaluatePDU | npdu/router/router.go:257-394 | table and decision of one evaluation |
| Internetwork.HopSpends | npdu/router/router.go:257-394 | through any router in any state a hop keeps the message and either costs one hop towards the same destination or leaves the internetwork |
| Internetwork.ForwardingIsFinite | npdu/router/router.go:477-523 | in any network of any routers a unit is forwarded at most max(hop count, 1) times |
| Internetwork.BoundIsReached | npdu/router/router.go:477-523 | some network forwards it exactly that often |
| Internetwork.MessageIsKept | npdu/router/router.go:477-523 | payload, source, priority and reply flag never change; the destination is the original one until it is stripped |
| Tags.ParseTag | encoding/tag.go:19-85 | an accepted header is non-empty and its value lies within the octets; opening and closing tags have no value |
| Tags.ParseIsLocal | encoding/tag.go:19-85 | what follows a tag and its value does not matter |
| Tags.ParseIsTight | encoding/tag.go:19-85 | nor does cutting it off |
| Tags.OpeningParses | encoding/tag.go:87-101 | opening and closing tags of all numbers parse back |
| Tags.ContextParses | encoding/tag.go:103-131 | every context primitive parses back, in all length forms |
| Tags.ApplicationParses | encoding/value.go:41-68 | every application primitive parses back, in all length forms |
| Tags.ExpectContextFinds | encoding/tag.go:139-162 | a context primitive is found wherever it was put |
| Grammar.HeadersExactly | encoding/tag.go:19-85 | a tag header is read exactly from the octets that begin with one of its forms, long or short, and hold the value announced |
| Layouts.TagsAre | encoding/tag.go:87-131 | opening, closing, context and application tags octet by octet |
| Bodies.DecodeTaggedBody | apdu/client_object_access.go:371-408 | the loop computes the scan; its stack is never empty at a closing tag and its cursor always advances |
| Bodies.ParsingIsExact | apdu/client_object_access.go:371-408 | it succeeds if and only if a balanced body stands between matching tags, with that body and its end |
| Bodies.ScanSkips | apdu/client_object_access.go:380-405 | every balanced body is passed over with the stack unchanged |
| Bodies.ScanSplits | apdu/client_object_access.go:380-405 | whatever is scanned splits into a balanced body and its closing tag |
| Bodies.TaggedBodyFinds | apdu/client_object_access.go:371-408 | an encoded body is found wherever it was put |
| Primitives.DecodeUnsigned | encoding/value.go:28-39 | the accumulator reads one to four octets big-endian without overflow |
| Primitives.UnsignedRoundTrip | encoding/value.go:14-39 | unsigned integers survive |
| Primitives.UnsignedIsShortest | encoding/value.go:14-26 | no decodable form is shorter, and none of that length differs |
| Layouts.UnsignedIs | encoding/value.go:14-26 | the octets of an unsigned integer |
| Layouts.UnsignedIsRead | encoding/value.go:28-39 | the number one to four octets stand for, leading zeros or not |
| Primitives.DecodeSigned | encoding/value.go:315-330 | sign extension and shifting never leave 32 bits |
| Primitives.SignedRoundTrip | encoding/value.go:300-330 | two's-complement integers survive |
| Primitives.SignedIsShortest | encoding/value.go:300-313 | no decodable form is shorter, and none of that length differs |
| Layouts.SignedIs | encoding/value.go:300-313 | the octets of a signed integer |
| Layouts.SignedIsRead | encoding/value.go:315-330 | the number one to four octets stand for |
| Primitives.EncodeBitString | encoding/value.go:411-432 | setting bits one by one in the buffer packs them, most significant first |
| Primitives.DecodeBitString | encoding/value.go:434-456 | bit i is read from its place, unused bits dropped |
| Primitives.BitStringRoundTrip | encoding/value.go:411-456 | bit strings of any length survive |
| Layouts.BitStringIs | encoding/value.go:411-432 | the unused count, the length, and where every bit stands; unused bits are clear |
| Layouts.BitStringIsRead | encoding/value.go:434-456 | which octets are a bit string, and which bits |
| Primitives.DateRoundTrip | encoding/value.go:486-518 | a year is encodable exactly when unspecified or from 1900 to 2154, and survives |
| Values.ValueRoundTrip | encoding/application_value.go:140-305 | every encodable value of the 13 types is decoded again with its exact length, whatever follows |
| Layouts.ValuesAreEncoded | encoding/application_value.go:250-305 | every value octet by octet, its tag number and length form included |
| Layouts.ContentsExactly | encoding/application_value.go:140-248 | which octets are a value of each tag number, and what makes a boolean true |
| Values.TextExactly | encoding/value.go:164-193 | in which character sets a string is taken as it is |
| Values.DecodeValues | client/read.go:72-90 | the loop decodes every leading value; its guard against standing still never fires |
| Values.DecodeValue | client/read.go:72-90 | all values, the first of them, and the raw octets |
| Values.ListRoundTrip | client/read.go:72-90 | a list of values followed by anything decodes to the list followed by what that decodes to |
| Layouts.ValuesEndAtContext | client/read.go:72-90 | a list of values ends where a context tag begins |
| Values.EncodingIsInjective | encoding/application_value.go:250-305 | different lists have different encodings |
| Lists.DecodeReadPropertyMultipleAck | apdu/client_object_access.go:280-321 | the nested loops compute the list of results, a refusal or an index beyond the payload |
| Lists.DecodeEntries | apdu/client_object_access.go:303-315 | the inner loop collects entries up to the closing tag |
| Lists.ReadAccessesRoundTrip | apdu/client_object_access.go:280-369 | any list of results with any values, errors and indices comes back, and the unguarded index is not reached |
| Grammar.EntryExactly | apdu/client_object_access.go:323-369 | an entry is accepted exactly when it is a property, perhaps an index, and a balanced body in tags 4 or 5 |
| Grammar.ReadAccessesExactly | apdu/client_object_access.go:280-321 | an answer is accepted exactly when it is a sequence of objects with their entries in tags 1, and gives exactly those |
| Grammar.LongClosingIsRefused | apdu/client_object_access.go:303-306 | a two-octet closing tag at its end makes it be refused |
| Lists.DecoderCrashesExactly | apdu/client_object_access.go:337 | the unguarded index fails if and only if the payload is complete results, one more object with its opening tag, complete entries, and a final property identifier |
| Lists.TruncatedAnswersCrash | apdu/client_object_access.go:337 | every answer cut off after the identifier of any of its properties reaches the unguarded index |
| Lists.CutOffAnswerCrashes | apdu/client_object_access.go:337 | a concrete payload that reaches it; a property identifier alone is refused before |
| Notifications.DecodeCovPropertyValueList | apdu/client_cov.go:430-458 | the loop computes the list; neither its iteration bound nor its progress test can refuse a payload |
| Notifications.CovListHere | apdu/client_cov.go:430-515 | any list of property values comes back, wherever it stands |
| Notifications.DecodeMultiple | apdu/client_cov.go:361-428 | the loop computes the notification; its iteration bound never fires |
| Notifications.MultipleRoundTrip | apdu/client_cov.go:361-428 | a notification about any number of objects comes back |
| Grammar.MultiplesExactly | apdu/client_cov.go:361-428 | a notification is accepted exactly when it is a process, a device of type 8, a time, and objects with their values in tags 3, with nothing behind |
| Grammar.CovListExactly | apdu/client_cov.go:430-515 | a list of property values, their optional indices, and priorities from 1 to 16 |
| Notifications.DecodeReadPropertyAck | apdu/client.go:680-781 | the decoder's own stack loop finds the same body as the shared one |
| Notifications.PropertyAckRoundTrip | apdu/client.go:680-781 | a property value, whatever is nested in it, comes back |
| Grammar.PropertyAcksExactly | apdu/client.go:680-781 | an answer is accepted exactly when it is an object, a property, perhaps an index, and a balanced body in tags 3 |

## Left out

- Ase.ServiceElement: table entries hold machine values, not references, so two entries sharing one machine object are not captured; the machine class itself is proved equal to those values.
- Ase.ServiceElement.HandleConfirmedRequest: operations are atomic, so the set of requests in flight, which only matters while a handler runs concurrently, is not modelled.
- Ase.ServiceElement.HandleSegmentACK: the check for a client transaction with the same invoke identifier (apdu/ase.go:669-674) is not part of it.
- Ase.ServiceElement.SendServerOutput: wrapping an APDU into an NPDU (apdu/ase.go:1362-1420) is not part of it; only the APDU encoding and the transport's answer are.
- RouterObject.Router.EvaluatePDU: the clock is read once per evaluation, not once per table access.
- RouterObject.Router.EvaluateGlobalBroadcast: library sorting of the ports is a scan of the port numbers in ascending order; sorting in LookupAll is an insertion into a ranked list.
- Tags.ContextParses: values are shorter than 4 GiB, the most a tag header can announce; the original would truncate a longer length. Integers of the original are taken to be 64 bits wide.
- Values.ValueRoundTrip: UTF-8 validity and the recovery of other character sets are parameters; floating-point numbers are bit patterns.
- Lists.ReadAccessesRoundTrip: the encoders the decoders are set against follow the order of the fields in the standard; the original has no encoder for these answers.
- UDP transport, BVLC, BBMD tables, discovery, pacing and the device directory: I/O or fixed layouts.
- Invokes.Requester.CompleteTransaction: the requester's timer, retries and cancelling are not part of it; a transaction that ends so is removed by FinishTransaction.
- The unconfirmed machines: few states, settled branch by branch.
- Snapshot and the export of routing-table entries: the same sorting again.
- The single-object COV notification and the request encoders: the same field readers again.
- Timers, goroutines, mutexes, contexts, logging and defensive copies.
- Error texts; errors of one decoder that the original tells apart only by text are one value here.
