/** What a requester gets on the wire for its request, octet by octet, once the application has
    answered it, failed, or was not there. */
module Answers {
  import opened Wire
  import opened Apdu
  import opened MachineSpec
  import opened ServiceTables
  import opened Exchanges
  import opened Refusals
  import Reassembly
  import opened Segmentation
  import Transmission
  import opened Agreement
  import Handover

  /** The machine has the whole request that began with the given APDU and awaits the answer. */
  predicate Awaits(cfg: AseConfig, m: Machine, first: InboundAPDU) {
    m.state == AwaitResponse && m.cfg == Defaulted(MachineConfig(cfg, first))
  }

  /** What the machine keeps of a request, field by field. */
  lemma RequestIsKept(cfg: AseConfig, m: Machine, first: InboundAPDU)
    requires Awaits(cfg, m, first)
    ensures m.cfg.invokeID == first.invokeID && m.cfg.serviceChoice == first.serviceChoice
    ensures m.cfg.requesterMaxAPDU == first.maxAPDULengthAccepted
            && m.cfg.requesterMaxSegments == first.maxSegmentsAccepted
    ensures m.cfg.maxAPDU == cfg.maxAPDU && m.cfg.segmentation == cfg.segmentation
    ensures m.cfg.maxRetries == cfg.retries
    ensures m.cfg.maxDuplicates == (if cfg.maxDuplicates == 0 then 3 else cfg.maxDuplicates)
    ensures m.cfg.preferredWindow == (if cfg.preferredWindow == 0 then 1 else cfg.preferredWindow)
    ensures (m.cfg.requesterSegmentation == Receive || m.cfg.requesterSegmentation == Both)
            <==> first.segmentedResponseAccepted
  {
  }

  /** With an accepting transport an output whose APDUs encode is sent in full. */
  lemma EmitsAll(cfg: AseConfig, t: Tables, c: Circumstances, m: Machine, output: MachineOutput)
    requires c.failAt.None? && output.action != NoAction && Sent(output) != [] && AllEncode(Sent(output))
    ensures var e := Emit(cfg, t, c, m, output);
            && e.err.None? && e.sent == Sent(output) && e.m == Armed(cfg, t.closed, m, c.now)
            && e.outbound == Put(t.outbound, Key(c.src, m.cfg.invokeID), EntryFor(cfg, t.closed, c.priority, m, c.now))
  {
    PushedRefuses(Sent(output), None, 0);
    hide Step, Encode, Put, EntryFor, Armed;
    assert Sent(output)[..|Sent(output)|] == Sent(output);
  }

  /** One that does not encode is not sent. */
  lemma EmitsNothing(cfg: AseConfig, t: Tables, c: Circumstances, m: Machine, output: MachineOutput)
    requires output.action != NoAction && |Sent(output)| == 1 && Encode(Sent(output)[0]).Err?
    ensures var e := Emit(cfg, t, c, m, output); e.err == Some(EncodingFailure) && e.sent == []
  {
    hide Step, Encode, Put, EntryFor, Armed;
  }

  /** Exactly one APDU went out, these octets. */
  predicate Octets(sent: seq<OutboundAPDU>, raw: seq<byte>) {
    |sent| == 1 && Encode(sent[0]) == Ok(raw)
  }

  // --- answers that fit one APDU ---

  /** The octets of an answer: a simple acknowledgement when there is nothing to return, a complex one,
      an error, a reject or an abort with a reason. Of the last two only one octet can be encoded. */
  function AnswerOctets(first: InboundAPDU, payload: seq<byte>, t: ResponseType): Option<seq<byte>> {
    var reason := if payload == [] then [0] else payload;
    match t
    case AckType => Some([if payload == [] then 0x20 else 0x30, first.invokeID, first.serviceChoice] + payload)
    case ErrorType => Some([0x50, first.invokeID, first.serviceChoice] + payload)
    case RejectType => if |payload| > 1 then None else Some([0x60, first.invokeID] + reason)
    case AbortType => if |payload| > 1 then None else Some([0x71, first.invokeID] + reason)
    case UnknownType => None
  }

  lemma ReadyExactly(m: Machine, first: InboundAPDU, p: seq<byte>, t: ResponseType)
    requires m.state == AwaitResponse && m.cfg.invokeID == first.invokeID && m.cfg.serviceChoice == first.serviceChoice
    requires !MaxAPDUSizeExceeded(m.cfg, |p|)
    ensures var s := Step(m, ResponseReady, MachineInput(None, Some(p), Some(t)));
            if t == UnknownType then s == Stepped(m, Err(InvalidStateTransition))
            else
              && s.result.Ok? && s.m.state == Completed && s.m.cfg == m.cfg
              && s.result.value.action != NoAction && |Sent(s.result.value)| == 1
              && var raw := AnswerOctets(first, p, t);
                 if raw.Some? then Encode(Sent(s.result.value)[0]) == Ok(raw.value)
                 else Encode(Sent(s.result.value)[0]).Err?
  {
    var id := first.invokeID;
    assert [0x60, id] + [0] == [0x60, id, 0] && [0x71, id] + [0] == [0x71, id, 0];
    if |p| == 1 {
      assert [0x60, id] + p == [0x60, id, p[0]] && [0x71, id] + p == [0x71, id, p[0]];
    }
    hide MaxAPDUSizeExceeded;
  }

  /** The outcome of handing a request over: what went out, what is reported, which entry is gone. */
  predicate Served1(r: Served, t: Tables, key: Key, raw: seq<byte>, a: Option<InboundAPDU>, err: Option<AseError>) {
    && Octets(r.sent, raw) && r.dispatched == a && r.err == err
    && r.t == t.(outbound := t.outbound - {key})
  }

  /** An answer within the sizes both sides accept goes out in one APDU that carries it unchanged, under
      the invoke identifier and service of the request. */
  lemma AnswerIsSent(cfg: AseConfig, t: Tables, c: Circumstances, m: Machine, first: InboundAPDU, a: InboundAPDU,
                     payload: seq<byte>, rt: ResponseType)
    requires Awaits(cfg, m, first) && a.invokeID == first.invokeID && c.failAt.None?
    requires WithinBoth(|payload|, first.maxAPDULengthAccepted, cfg.maxAPDU)
    ensures var r := Dispatch(cfg, t, c, m, a, ServiceTables.Answers(a.invokeID, c.src, payload, rt));
            var raw := AnswerOctets(first, payload, rt);
            if raw.Some? then Served1(r, t, Key(c.src, first.invokeID), raw.value, Some(a), None)
            else r.sent == [] && r.dispatched == Some(a)
                 && r.err == Some(if rt == UnknownType then MachineFailure(InvalidStateTransition) else EncodingFailure)
  {
    RequestIsKept(cfg, m, first);
    LimitIsAgreed(m.cfg, |payload|);
    ReadyExactly(m, first, payload, rt);
    var s := Step(m, ResponseReady, MachineInput(None, Some(payload), Some(rt)));
    hide Step, Encode, Emit, AnswerOctets, MaxAPDUSizeExceeded, Defaulted, MachineConfig;
    if rt != UnknownType {
      if AnswerOctets(first, payload, rt).Some? {
        EmitsAll(cfg, t, c, s.m, s.result.value);
      } else {
        EmitsNothing(cfg, t, c, s.m, s.result.value);
      }
    }
  }

  // --- nobody there, failures, wrong answers ---

  lemma FailedExactly(cfg: AseConfig, t: Tables, c: Circumstances, m: Machine, cause: AseError, rt: ResponseType)
    requires m.state == AwaitResponse && (rt == RejectType || rt == ErrorType) && c.failAt.None?
    ensures Served1(Failed(cfg, t, c, m, cause, rt), t, Key(c.src, m.cfg.invokeID),
                    if rt == RejectType then [0x60, m.cfg.invokeID, 0] else [0x50, m.cfg.invokeID, m.cfg.serviceChoice],
                    None, Some(cause))
  {
    var s := Step(m, HandlerFailed, MachineInput(None, None, Some(rt)));
    assert s.result.Ok? && s.m.cfg == m.cfg && s.m.state == Aborted && |Sent(s.result.value)| == 1;
    assert [0x50, m.cfg.invokeID, m.cfg.serviceChoice] + [] == [0x50, m.cfg.invokeID, m.cfg.serviceChoice];
    EmitsAll(cfg, t, c, s.m, s.result.value);
    hide Emit;
  }

  /** Without a handler the request is rejected; a handler that fails yields an error; an answer for
      another request or another station is replaced by a reject. */
  lemma FailureIsSent(cfg: AseConfig, t: Tables, c: Circumstances, m: Machine, first: InboundAPDU, a: InboundAPDU,
                      handler: Handler)
    requires Awaits(cfg, m, first) && c.failAt.None?
    requires handler.Answers? ==> handler.invokeID != a.invokeID || handler.destination != c.src
    ensures var id := first.invokeID;
            var r := Dispatch(cfg, t, c, m, a, handler);
            match handler
            case NotRegistered => Served1(r, t, Key(c.src, id), [0x60, id, 0], None, Some(HandlerNotFound))
            case Fails => Served1(r, t, Key(c.src, id), [0x50, id, first.serviceChoice], Some(a), Some(HandlerFailure))
            case Answers(_, _, _, _) => Served1(r, t, Key(c.src, id), [0x60, id, 0], Some(a), Some(InvalidAnswer))
  {
    RequestIsKept(cfg, m, first);
    FailedExactly(cfg, t, c, m, HandlerNotFound, RejectType);
    FailedExactly(cfg, t, c, m, HandlerFailure, ErrorType);
    FailedExactly(cfg, t, c, m, InvalidAnswer, RejectType);
    hide Failed, Encode;
  }

  // --- answers that do not fit ---

  /** An acknowledged answer beyond what one APDU may carry begins a segmented response, and its machine
      is filed with a new deadline, exactly when both sides can segment and the requester accepts enough
      segments of the agreed size; otherwise it is given up with an Abort, reason 4. */
  lemma LongAnswerIsSent(cfg: AseConfig, t: Tables, c: Circumstances, m: Machine, first: InboundAPDU, a: InboundAPDU,
                         payload: seq<byte>, size: int)
    requires Awaits(cfg, m, first) && a.invokeID == first.invokeID && c.failAt.None?
    requires !WithinBoth(|payload|, first.maxAPDULengthAccepted, cfg.maxAPDU)
    requires IsAgreed(size, first.maxAPDULengthAccepted, cfg.maxAPDU)
    ensures var key := Key(c.src, first.invokeID);
            var r := Dispatch(cfg, t, c, m, a, ServiceTables.Answers(a.invokeID, c.src, payload, AckType));
            var o := Transmission.ResponseRun(m, payload, []);
            var deadline := c.now + cfg.segmentedRequestTimeout;
            var fits := && (cfg.segmentation == Transmit || cfg.segmentation == Both) && first.segmentedResponseAccepted
                        && size > 5 && AcceptedSegments(first.maxSegmentsAccepted) > 0
                        && |payload| <= Capacity(size, AcceptedSegments(first.maxSegmentsAccepted));
            && r.dispatched == Some(a)
            && if fits then
                 && Segmentable(m.cfg, payload) && r.err.None? && r.sent == o.sent && o.m.state == AwaitSegmentACK
                 && var entry := OutboundEntry(Timed(o.m, deadline), c.priority, deadline);
                    r.t == t.(outbound := if t.closed then t.outbound - {key} else t.outbound[key := entry])
               else Served1(r, t, key, [0x71, first.invokeID, 4], Some(a), Some(SegmentationUnsupported))
  {
    RequestIsKept(cfg, m, first);
    LimitIsAgreed(m.cfg, |payload|);
    SegmentedExactly(m.cfg, payload, size);
    hide Dispatch, MaxAPDUSizeExceeded, WithinBoth, IsAgreed, Defaulted, MachineConfig, Transmission.ResponseRun,
         Segmentable,
         AcceptedSegments, Capacity, Served1;
    if Segmentable(m.cfg, payload) {
      LongStarts(cfg, t, c, m, a, payload);
    } else {
      LongGivesUp(cfg, t, c, m, a, payload);
    }
  }

  lemma SendingIsFiled(cfg: AseConfig, t: Tables, c: Circumstances, m: Machine)
    requires m.state == AwaitSegmentACK
    ensures var key := Key(c.src, m.cfg.invokeID);
            var deadline := c.now + cfg.segmentedRequestTimeout;
            Put(t.outbound, key, EntryFor(cfg, t.closed, c.priority, m, c.now))
            == if t.closed then t.outbound - {key}
               else t.outbound[key := OutboundEntry(Timed(m, deadline), c.priority, deadline)]
    ensures Armed(cfg, t.closed, m, c.now).state == AwaitSegmentACK
  {
  }

  lemma LongStarts(cfg: AseConfig, t: Tables, c: Circumstances, m: Machine, a: InboundAPDU, payload: seq<byte>)
    requires m.state == AwaitResponse && m.cfg.invokeID == a.invokeID && c.failAt.None?
    requires MaxAPDUSizeExceeded(m.cfg, |payload|) && Segmentable(m.cfg, payload)
    ensures var key := Key(c.src, a.invokeID);
            var r := Dispatch(cfg, t, c, m, a, ServiceTables.Answers(a.invokeID, c.src, payload, AckType));
            var o := Transmission.ResponseRun(m, payload, []);
            var deadline := c.now + cfg.segmentedRequestTimeout;
            && r.dispatched == Some(a) && r.err.None? && r.sent == o.sent && o.m.state == AwaitSegmentACK
            && r.t == t.(outbound := if t.closed then t.outbound - {key}
                                     else t.outbound[key := OutboundEntry(Timed(o.m, deadline), c.priority, deadline)])
  {
    TooLongExactly(m, payload, AckType);
    LongStep(m, payload);
    var s := Step(m, ResponseRequiresSegmentation, MachineInput(None, Some(payload), Some(AckType)));
    hide Step, Encode, Emit, MaxAPDUSizeExceeded, Transmission.ResponseRun, Segmentable, Sent, Put, EntryFor, Armed,
         Timed;
    EmitsAll(cfg, t, c, s.m, s.result.value);
    SendingIsFiled(cfg, t, c, s.m);
  }

  lemma LongGivesUp(cfg: AseConfig, t: Tables, c: Circumstances, m: Machine, a: InboundAPDU, payload: seq<byte>)
    requires m.state == AwaitResponse && m.cfg.invokeID == a.invokeID && c.failAt.None?
    requires MaxAPDUSizeExceeded(m.cfg, |payload|) && !Segmentable(m.cfg, payload)
    ensures Served1(Dispatch(cfg, t, c, m, a, ServiceTables.Answers(a.invokeID, c.src, payload, AckType)), t,
                    Key(c.src, a.invokeID), [0x71, a.invokeID, 4], Some(a), Some(SegmentationUnsupported))
  {
    TooLongExactly(m, payload, AckType);
    LongStep(m, payload);
    var s := Step(m, ResponseRequiresSegmentation, MachineInput(None, Some(payload), Some(AckType)));
    hide Step, Encode, Emit, MaxAPDUSizeExceeded, Transmission.ResponseRun, Segmentable;
    EmitsAll(cfg, t, c, s.m, s.result.value);
  }

  lemma LongStep(m: Machine, p: seq<byte>)
    requires m.state == AwaitResponse
    ensures var s := Step(m, ResponseRequiresSegmentation, MachineInput(None, Some(p), Some(AckType)));
            && s.result.Ok? && s.m.cfg == m.cfg && s.result.value.action != NoAction
            && Sent(s.result.value) != [] && AllEncode(Sent(s.result.value))
            && s.m == (if Segmentable(m.cfg, p) then Transmission.ResponseRun(m, p, []).m else s.m)
  {
    if Segmentable(m.cfg, p) {
      Transmission.StartWindow(m, p);
      Transmission.ResponseRunUnfolds(m, p, []);
      CuttingIsGood(m.cfg, p);
      var c := CuttingOf(m.cfg, p);
      BoundaryNext(c, 0);
      Transmission.SendWindowSends(Prepared(m, p), c);
      WindowEncodes(Prepared(m, p), c, 0, Min(NegotiatedWindow(m.cfg), c.n));
    }
  }

  // --- end to end ---

  /** An unsegmented request is handed over as it arrived. */
  lemma UnsegmentedIsDispatched(cfg: AseConfig, t: Tables, c: Circumstances, a: InboundAPDU, handler: Handler)
    returns (m: Machine)
    requires !a.segmentedMessage
    ensures Awaits(cfg, m, a) && RequestArrives(cfg, t, c, a, handler) == Dispatch(cfg, t, c, m, a, handler)
  {
    m := Step(NewMachine(MachineConfig(cfg, a)), InboundConfirmedRequest, In(a)).m;
    hide Dispatch;
  }

  /** What the requester gets for an unsegmented request whose handler answers within both sizes. */
  lemma RequestIsAnswered(cfg: AseConfig, t: Tables, c: Circumstances, a: InboundAPDU, payload: seq<byte>,
                          rt: ResponseType)
    requires !a.segmentedMessage && c.failAt.None? && WithinBoth(|payload|, a.maxAPDULengthAccepted, cfg.maxAPDU)
    ensures var r := RequestArrives(cfg, t, c, a, ServiceTables.Answers(a.invokeID, c.src, payload, rt));
            var raw := AnswerOctets(a, payload, rt);
            if raw.Some? then Served1(r, t, Key(c.src, a.invokeID), raw.value, Some(a), None)
            else r.sent == [] && r.dispatched == Some(a)
                 && r.err == Some(if rt == UnknownType then MachineFailure(InvalidStateTransition) else EncodingFailure)
  {
    hide RequestArrives, Dispatch, Awaits, WithinBoth, AnswerOctets, Served1;
    var m := UnsegmentedIsDispatched(cfg, t, c, a, ServiceTables.Answers(a.invokeID, c.src, payload, rt));
    AnswerIsSent(cfg, t, c, m, a, a, payload, rt);
  }

  /** What it gets when nobody answers it properly. */
  lemma RequestIsRefused(cfg: AseConfig, t: Tables, c: Circumstances, a: InboundAPDU, handler: Handler)
    requires !a.segmentedMessage && c.failAt.None?
    requires handler.Answers? ==> handler.invokeID != a.invokeID || handler.destination != c.src
    ensures var id := a.invokeID;
            var r := RequestArrives(cfg, t, c, a, handler);
            match handler
            case NotRegistered => Served1(r, t, Key(c.src, id), [0x60, id, 0], None, Some(HandlerNotFound))
            case Fails => Served1(r, t, Key(c.src, id), [0x50, id, a.serviceChoice], Some(a), Some(HandlerFailure))
            case Answers(_, _, _, _) => Served1(r, t, Key(c.src, id), [0x60, id, 0], Some(a), Some(InvalidAnswer))
  {
    hide RequestArrives, Dispatch, Awaits, Served1;
    var m := UnsegmentedIsDispatched(cfg, t, c, a, handler);
    FailureIsSent(cfg, t, c, m, a, a, handler);
  }

  /** A long answer to an unsegmented request: if the segments can be sent and accepted, what is sent is
      how the machine's response begins, so that any copies of all its segments give the answer back;
      otherwise it is an Abort. */
  lemma LongRequestIsAnswered(cfg: AseConfig, t: Tables, c: Circumstances, a: InboundAPDU, payload: seq<byte>,
                              size: int)
    returns (m: Machine)
    requires !a.segmentedMessage && c.failAt.None? && !WithinBoth(|payload|, a.maxAPDULengthAccepted, cfg.maxAPDU)
    requires IsAgreed(size, a.maxAPDULengthAccepted, cfg.maxAPDU)
    ensures var r := RequestArrives(cfg, t, c, a, ServiceTables.Answers(a.invokeID, c.src, payload, AckType));
            var fits := && (cfg.segmentation == Transmit || cfg.segmentation == Both) && a.segmentedResponseAccepted
                        && size > 5 && AcceptedSegments(a.maxSegmentsAccepted) > 0
                        && |payload| <= Capacity(size, AcceptedSegments(a.maxSegmentsAccepted));
            && m.state == AwaitResponse && m.cfg.invokeID == a.invokeID && m.cfg.serviceChoice == a.serviceChoice
            && r.dispatched == Some(a)
            && if fits then
                 Segmentable(m.cfg, payload) && r.err.None? && r.sent == Transmission.ResponseRun(m, payload, []).sent
               else
                 Served1(r, t, Key(c.src, a.invokeID), [0x71, a.invokeID, 4], Some(a), Some(SegmentationUnsupported))
  {
    hide RequestArrives, Dispatch, Awaits, WithinBoth, Served1, IsAgreed, Transmission.ResponseRun, Segmentable,
         Capacity,
         AcceptedSegments;
    m := UnsegmentedIsDispatched(cfg, t, c, a, ServiceTables.Answers(a.invokeID, c.src, payload, AckType));
    LongAnswerIsSent(cfg, t, c, m, a, a, payload, size);
    RequestIsKept(cfg, m, a);
    AwaitsResponse(cfg, m, a);
  }

  lemma AwaitsResponse(cfg: AseConfig, m: Machine, first: InboundAPDU)
    requires Awaits(cfg, m, first)
    ensures m.state == AwaitResponse
  {
  }

  // --- answers to segmented requests ---

  lemma ContinuedIs(cfg: AseConfig, t: Tables, c: Circumstances, key: Key, handler: Handler, e: Emission)
    requires key in t.inbound && e.err.None? && e.m.state == AwaitResponse && e.m.vars.segmentBuffer != []
    ensures var entry := t.inbound[key];
            var d := Since(c.(priority := entry.priority), |e.sent|);
            var r := Dispatch(cfg, With(t, key, None, e.outbound), d, e.m,
                              Assembled(entry.firstInbound, e.m.vars.segmentBuffer), handler);
            Handover.Continued(cfg, t, c, key, handler, e) == Sooner(r, e.sent)
  {
    hide Dispatch, With, Since;
  }

  lemma LastIsAwaited(cfg: AseConfig, q: Reassembly.Request, m: Machine, s: Stepped)
    requires |q.segments| > 0 && m.cfg == Defaulted(Handover.ConfigFor(cfg, q))
    requires Handover.Took(cfg, q, m, s, |q.segments| - 1)
    ensures Awaits(cfg, s.m, Reassembly.Piece(q, 0)) && s.m.vars.segmentBuffer == Concat(q.segments)
  {
    hide Deliverable, Sendable;
  }

  lemma LastAckIs(cfg: AseConfig, t: Tables, c: Circumstances, q: Reassembly.Request, m: Machine, s: Stepped,
                  e: Emission)
    requires 1 <= |q.segments| <= 256 && c.failAt.None?
    requires Handover.Took(cfg, q, m, s, |q.segments| - 1) && Handover.Emits(cfg, t, c, q, s, |q.segments| - 1, e)
    ensures e.err.None? && e.m == s.m && |e.sent| == 1
    ensures e.sent[0].pduType == SegmentACK && !e.sent[0].negativeAck && e.sent[0].sequenceNumber == |q.segments| - 1
  {
    Handover.TookIsFine(cfg, q, m, s, |q.segments| - 1);
    hide Step, Healthy, Reassembly.Holding;
    assert Handover.AckIsDue(cfg, q, |q.segments| - 1);
  }

  lemma WaitingMachine(cfg: AseConfig, t: Tables, q: Reassembly.Request, key: Key, k: nat, deadline: int)
    requires |q.segments| > 0 && Handover.Waiting(cfg, q, key, t, k, deadline)
    ensures key in t.inbound && t.inbound[key].firstInbound == Reassembly.Piece(q, 0)
    ensures t.inbound[key].machine.cfg == Defaulted(Handover.ConfigFor(cfg, q))
  {
    hide Reassembly.Piece;
  }

  /** The last segment is acknowledged, and then the whole request is handed over. */
  lemma LastIsDispatched(cfg: AseConfig, t: Tables, c: Circumstances, q: Reassembly.Request, deadline: int,
                         handler: Handler)
    returns (m: Machine, u: Tables, d: Circumstances, ack: OutboundAPDU)
    requires 2 <= |q.segments| <= 256 && Concat(q.segments) != []
    requires Handover.Waiting(cfg, q, Key(c.src, q.header.invokeID), t, |q.segments| - 1, deadline)
    requires c.now <= deadline && c.failAt.None?
    ensures Awaits(cfg, m, Reassembly.Piece(q, 0)) && d.src == c.src && d.failAt.None?
    ensures ack.pduType == SegmentACK && !ack.negativeAck && ack.sequenceNumber == |q.segments| - 1
    ensures RequestArrives(cfg, t, c, Reassembly.Piece(q, |q.segments| - 1), handler)
            == Sooner(Dispatch(cfg, u, d, m, Handover.Whole(q), handler), [ack])
  {
    hide RequestArrives, Step, Dispatch, Handover.Took, Handover.Waiting, Reassembly.Piece, Handover.ConfigFor,
         Defaulted, Awaits,
         With, Handover.Continued, Handover.Emits, Assembled, Concat;
    var key := Key(c.src, q.header.invokeID);
    WaitingMachine(cfg, t, q, key, |q.segments| - 1, deadline);
    var entry := t.inbound[key];
    var s, e := Handover.NextEmits(cfg, t, c, q, |q.segments| - 1, deadline, handler);
    LastIsAwaited(cfg, q, entry.machine, s);
    AwaitsResponse(cfg, s.m, Reassembly.Piece(q, 0));
    LastAckIs(cfg, t, c, q, entry.machine, s, e);
    ContinuedIs(cfg, t, c, key, handler, e);
    m, u, d, ack := s.m, With(t, key, None, e.outbound), Since(c.(priority := entry.priority), |e.sent|), e.sent[0];
    assert e.sent == [ack];
  }

  /** Segment k was acknowledged, the request handed over, and these octets sent for it. */
  predicate AckedAndAnswered(r: Served, k: nat, raw: seq<byte>, request: InboundAPDU) {
    && |r.sent| == 2 && r.sent[0].pduType == SegmentACK && !r.sent[0].negativeAck && r.sent[0].sequenceNumber == k
    && Encode(r.sent[1]) == Ok(raw) && r.err.None? && r.dispatched == Some(request)
  }

  /** The answer to a request that arrived in segments follows the last Segment-ACK, under the invoke
      identifier and service the request came with. */
  lemma LastSegmentIsAnswered(cfg: AseConfig, t: Tables, c: Circumstances, q: Reassembly.Request, deadline: int,
                              payload: seq<byte>, rt: ResponseType)
    requires 2 <= |q.segments| <= 256 && Concat(q.segments) != []
    requires Handover.Waiting(cfg, q, Key(c.src, q.header.invokeID), t, |q.segments| - 1, deadline)
    requires c.now <= deadline && c.failAt.None?
    requires WithinBoth(|payload|, q.header.maxAPDULengthAccepted, cfg.maxAPDU)
    requires AnswerOctets(q.header, payload, rt).Some?
    ensures AckedAndAnswered(RequestArrives(cfg, t, c, Reassembly.Piece(q, |q.segments| - 1),
                                            ServiceTables.Answers(q.header.invokeID, c.src, payload, rt)),
                             |q.segments| - 1, AnswerOctets(q.header, payload, rt).value, Handover.Whole(q))
  {
    hide RequestArrives, Encode, Dispatch, Handover.Waiting, Reassembly.Piece, Awaits, WithinBoth, AnswerOctets,
         Handover.Whole, Concat,
         Served1, Sooner, AckedAndAnswered;
    var handler := ServiceTables.Answers(q.header.invokeID, c.src, payload, rt);
    HeaderIsKept(q, payload, rt, cfg);
    var m, u, d, ack := LastIsDispatched(cfg, t, c, q, deadline, handler);
    AnswerIsSent(cfg, u, d, m, Reassembly.Piece(q, 0), Handover.Whole(q), payload, rt);
    AckThenAnswer(Dispatch(cfg, u, d, m, Handover.Whole(q), handler), ack, u, Key(d.src, q.header.invokeID),
                  AnswerOctets(q.header, payload, rt).value, Handover.Whole(q));
  }

  lemma AckThenAnswer(r: Served, ack: OutboundAPDU, t: Tables, key: Key, raw: seq<byte>, a: InboundAPDU)
    requires Served1(r, t, key, raw, Some(a), None)
    requires ack.pduType == SegmentACK && !ack.negativeAck
    ensures AckedAndAnswered(Sooner(r, [ack]), ack.sequenceNumber, raw, a)
  {
    hide Encode;
  }

  lemma HeaderIsKept(q: Reassembly.Request, payload: seq<byte>, rt: ResponseType, cfg: AseConfig)
    requires |q.segments| > 0
    ensures var first := Reassembly.Piece(q, 0);
            && AnswerOctets(first, payload, rt) == AnswerOctets(q.header, payload, rt)
            && first.maxAPDULengthAccepted == q.header.maxAPDULengthAccepted && first.invokeID == q.header.invokeID
            && Handover.Whole(q).invokeID == q.header.invokeID
  {
  }
}
