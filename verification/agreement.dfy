/** What the two sides of an exchange agree on, in numbers: window sizes, APDU sizes, how many
    segments a response may have, and when it is segmented at all. */
module Agreement {
  import opened Wire
  import opened Apdu
  import opened MachineSpec
  import opened Reassembly
  import opened Segmentation
  import opened Transmission

  /** The smaller of two window sizes, where 0 stands for 1. */
  predicate SmallerWindow(w: byte, a: byte, b: byte) {
    && w <= (if a == 0 then 1 else a) && w <= (if b == 0 then 1 else b)
    && (w == (if a == 0 then 1 else a) || w == (if b == 0 then 1 else b))
  }

  // --- receiving a request ---

  /** While receiving, the window in force is the smaller of those the first segment proposed and the
      responder prefers. */
  predicate Announcing(m: Machine, cfg: Config, first: InboundAPDU) {
    && m.state != Idle && m.cfg == Defaulted(cfg)
    && (m.state == SegmentedRequestReceiving ==>
          SmallerWindow(m.vars.actualWindowSize, first.proposedWindowSize, cfg.preferredWindow))
  }

  /** Every Segment-ACK among the APDUs announces that window. */
  predicate AllAnnounce(cfg: Config, first: InboundAPDU, sent: seq<OutboundAPDU>) {
    forall i :: 0 <= i < |sent| && sent[i].pduType == SegmentACK ==>
      && sent[i].server && sent[i].invokeID == cfg.invokeID
      && SmallerWindow(sent[i].actualWindowSize, first.proposedWindowSize, cfg.preferredWindow)
  }

  lemma {:induction false} TakingKeepsWindow(v: Variables)
    ensures TakeContiguous(v).vars.actualWindowSize == v.actualWindowSize
    decreases |v.bufferedPayloads|
  {
    if v.sequenceNumber in v.bufferedPayloads && MoreAfterNext(v) {
      TakingKeepsWindow(Consumed(v));
    }
  }

  /** A step that keeps the window and announces it. */
  predicate Keeps(s: Stepped, cfg: Config, first: InboundAPDU) {
    Announcing(s.m, cfg, first) && AllAnnounce(cfg, first, SentBy(s))
  }

  lemma DrainAnnounces(m: Machine, cfg: Config, first: InboundAPDU)
    requires Announcing(m, cfg, first) && m.state == SegmentedRequestReceiving
    ensures Keeps(Drain(m), cfg, first)
  {
    TakingKeepsWindow(m.vars);
    hide TakeContiguous, SmallerWindow;
  }

  predicate NoAcks(apdus: seq<OutboundAPDU>) {
    forall i :: 0 <= i < |apdus| ==> apdus[i].pduType != SegmentACK
  }

  predicate AllSegments(apdus: seq<OutboundAPDU>) {
    forall i :: 0 <= i < |apdus| ==> apdus[i].pduType == ComplexACK
  }

  lemma {:induction false} WindowsAreSegments(m: Machine, sequenceNumber: byte, offset: nat, budget: nat)
    ensures AllSegments(WindowFrom(m, sequenceNumber, offset, budget).apdus)
    decreases budget
  {
    if budget > 0 && offset < |m.vars.responsePayload| && PayloadLimit(m.cfg, sequenceNumber) > 0 {
      var end := SegmentEnd(m, sequenceNumber, offset);
      var rest := WindowFrom(m, Next(sequenceNumber), end, budget - 1);
      WindowsAreSegments(m, Next(sequenceNumber), end, budget - 1);
      var a := ResponseSegment(m, sequenceNumber, offset, end);
      var w := WindowFrom(m, sequenceNumber, offset, budget);
      assert w.apdus == [a] + if end == |m.vars.responsePayload| then [] else rest.apdus;
    }
  }

  lemma WindowIsNoAck(m: Machine)
    ensures var s := SendWindow(m);
            s.m.cfg == m.cfg && s.m.state == m.state && NoAcks(SentBy(s)) && AllSegments(SentBy(s))
  {
    WindowsAreSegments(m, m.vars.sequenceNumber, m.vars.responsePayloadOffset,
                       if m.vars.actualWindowSize == 0 then 1 else m.vars.actualWindowSize);
    hide WindowFrom;
  }

  lemma NoAcksAnnounce(cfg: Config, first: InboundAPDU, sent: seq<OutboundAPDU>)
    requires NoAcks(sent)
    ensures AllAnnounce(cfg, first, sent)
  {
    hide SmallerWindow;
  }

  lemma DuplicateAnnounces(m: Machine, cfg: Config, first: InboundAPDU)
    requires Announcing(m, cfg, first) && m.state == SegmentedRequestReceiving
    ensures Keeps(DuplicateSegment(m), cfg, first)
  {
    hide SmallerWindow;
  }

  lemma RefusalAnnounces(m: Machine, cfg: Config, first: InboundAPDU)
    requires Announcing(m, cfg, first) && m.state == SegmentedRequestReceiving
    ensures Keeps(Stepped(m, Ok(MachineSpec.Sending(SendSegmentACK, SegmentAck(m, LastContiguous(m.vars), true)))), cfg,
                  first)
    ensures Keeps(Aborting(m, [REASON_TSM_TIMEOUT]), cfg, first)
  {
    hide SmallerWindow;
  }

  lemma ReceivingAnnounces(m: Machine, cfg: Config, first: InboundAPDU, event: MachineEvent, input: MachineInput)
    requires Announcing(m, cfg, first) && m.state == SegmentedRequestReceiving
    ensures Keeps(Step(m, event, input), cfg, first)
  {
    hide Drain, SmallerWindow, DuplicateInWindow, DuplicateSegment;
    DuplicateAnnounces(m, cfg, first);
    RefusalAnnounces(m, cfg, first);
    if event == InboundSegment && input.inbound.Some? {
      var a := input.inbound.value;
      DrainAnnounces(m.(vars := Buffered(m.vars, a.sequenceNumber, a.payload, a.moreFollows)), cfg, first);
      hide Keeps, Aborting;
    }
  }

  /** A step into a later state that sends no Segment-ACK. */
  predicate Later(m: Machine, s: Stepped) {
    s.m.cfg == m.cfg && s.m.state !in {Idle, SegmentedRequestReceiving} && NoAcks(SentBy(s))
  }

  lemma NoneIsNoAck()
    ensures NoAcks([])
  {
  }

  lemma OneIsNoAck(a: OutboundAPDU)
    requires a.pduType != SegmentACK
    ensures NoAcks([a])
  {
  }

  lemma AnswerIsLater(m: Machine, action: MachineAction, state: MachineState, t: PduType, payload: seq<byte>,
                      v: Variables)
    requires t != SegmentACK && state !in {Idle, SegmentedRequestReceiving}
    ensures Later(m, Stepped(m.(state := state, vars := v),
                             Ok(MachineSpec.Sending(action, Response(m.cfg, t, payload)))))
    ensures Later(m, Stepped(m.(state := state, vars := v), Ok(MachineSpec.Sending(action, AbortAPDU(m.cfg, payload)))))
  {
    OneIsNoAck(Response(m.cfg, t, payload));
    OneIsNoAck(AbortAPDU(m.cfg, payload));
    hide NoAcks;
  }

  lemma ResponseReadySendsNoAck(m: Machine, input: MachineInput)
    requires m.state == AwaitResponse
    ensures Later(m, AwaitResponseStep(m, ResponseReady, input))
  {
    hide MaxAPDUSizeExceeded, NoAcks;
    NoneIsNoAck();
    var kind := ResponseKind(input);
    if input.handlerResult.Some? && kind.Some? {
      var payload := input.handlerResult.value;
      AnswerIsLater(m, kind.value.1, Completed, kind.value.0, payload, WithResponse(m.vars, kind.value.0, |payload|));
      AnswerIsLater(m, SendAbort, Aborted, Abort, [REASON_APDU_TOO_LONG], WithResponse(m.vars, Abort, 0));
    }
  }

  lemma SegmentingSendsNoAck(m: Machine, input: MachineInput)
    requires m.state == AwaitResponse
    ensures Later(m, AwaitResponseStep(m, ResponseRequiresSegmentation, input))
  {
    hide SendWindow, CanSegmentResponse, NoAcks;
    NoneIsNoAck();
    if input.handlerResult.Some? {
      WindowIsNoAck(Prepared(m, input.handlerResult.value));
      AnswerIsLater(m, SendAbort, Aborted, Abort, [REASON_SEGMENTATION_NOT_SUPPORTED], WithResponse(m.vars, Abort, 0));
    }
  }

  lemma FailingSendsNoAck(m: Machine, input: MachineInput)
    requires m.state == AwaitResponse
    ensures Later(m, AwaitResponseStep(m, HandlerFailed, input))
  {
    hide NoAcks;
    NoneIsNoAck();
    var t := if input.responseType.Some? then input.responseType.value else AbortType;
    var kind := ResponseKind(input.(inbound := None, responseType := Some(t)));
    if kind.Some? {
      AnswerIsLater(m, kind.value.1, Aborted, kind.value.0, [], WithResponse(m.vars, kind.value.0, 0));
    }
  }

  lemma AnsweringSendsNoAck(m: Machine, event: MachineEvent, input: MachineInput)
    requires m.state == AwaitResponse
    ensures Later(m, Step(m, event, input))
  {
    if event == ResponseReady {
      ResponseReadySendsNoAck(m, input);
      hide AwaitResponseStep;
    } else if event == ResponseRequiresSegmentation {
      SegmentingSendsNoAck(m, input);
      hide AwaitResponseStep;
    } else if event == HandlerFailed {
      FailingSendsNoAck(m, input);
      hide AwaitResponseStep;
    } else {
      NoneIsNoAck();
      hide NoAcks;
    }
  }

  lemma RetrySendsNoAck(m: Machine)
    requires m.state == AwaitSegmentACK
    ensures Later(m, Retry(m))
  {
    if m.vars.retryCount < m.cfg.maxRetries {
      WindowIsNoAck(Rewound(m));
    }
    hide SendWindow;
  }

  lemma AdoptionIsQuiet(m: Machine, ack: InboundAPDU)
    ensures WindowAdopted(m, ack).cfg == m.cfg && WindowAdopted(m, ack).state == m.state
  {
    hide NormalizedWindow;
  }

  lemma SendingSendsNoAck(m: Machine, event: MachineEvent, input: MachineInput)
    requires m.state == AwaitSegmentACK
    ensures Later(m, Step(m, event, input))
  {
    hide SendWindow, Retry, InWindow, WindowAdopted, NoAcks;
    NoneIsNoAck();
    if event == InboundSegmentACK && input.inbound.Some? {
      var n := WindowAdopted(m, input.inbound.value);
      AdoptionIsQuiet(m, input.inbound.value);
      WindowIsNoAck(Advanced(n));
      RetrySendsNoAck(n);
    } else if event == Timeout {
      RetrySendsNoAck(m);
    }
  }

  lemma LaterAnnounces(m: Machine, cfg: Config, first: InboundAPDU, event: MachineEvent, input: MachineInput)
    requires Announcing(m, cfg, first) && m.state != SegmentedRequestReceiving
    ensures var s := Step(m, event, input); Announcing(s.m, cfg, first) && AllAnnounce(cfg, first, SentBy(s))
  {
    var s := Step(m, event, input);
    if m.state == AwaitResponse {
      AnsweringSendsNoAck(m, event, input);
      hide Step, AllAnnounce;
      NoAcksAnnounce(cfg, first, SentBy(s));
    } else if m.state == AwaitSegmentACK {
      SendingSendsNoAck(m, event, input);
      hide Step, AllAnnounce;
      NoAcksAnnounce(cfg, first, SentBy(s));
    } else {
      assert SentBy(s) == [];
      hide Step;
    }
  }

  lemma {:induction false} RunAnnounces(m: Machine, cfg: Config, first: InboundAPDU, stimuli: seq<Stimulus>)
    requires Announcing(m, cfg, first)
    ensures AllAnnounce(cfg, first, Run(m, stimuli).sent)
    decreases |stimuli|
  {
    hide Step, Announcing, SmallerWindow;
    if stimuli != [] {
      if m.state == SegmentedRequestReceiving {
        ReceivingAnnounces(m, cfg, first, stimuli[0].event, stimuli[0].input);
      } else {
        LaterAnnounces(m, cfg, first, stimuli[0].event, stimuli[0].input);
      }
      RunAnnounces(Step(m, stimuli[0].event, stimuli[0].input).m, cfg, first, stimuli[1..]);
    }
  }

  lemma OpeningAnnounces(cfg: Config, first: InboundAPDU)
    requires first.segmentedMessage
    ensures var s := Step(NewMachine(cfg), InboundConfirmedRequest, Input(first));
            Announcing(s.m, cfg, first) && AllAnnounce(cfg, first, SentBy(s))
  {
    var n := StartReceiving(NewMachine(cfg), first);
    DrainAnnounces(n.(vars := Buffered(n.vars, 0, first.payload, first.moreFollows)), cfg, first);
    hide Drain;
  }

  /** From its first segment on, whatever happens, every Segment-ACK for a request announces the smaller
      of the window sizes its sender proposed and the responder prefers. */
  lemma EveryAckAnnounces(cfg: Config, first: InboundAPDU, stimuli: seq<Stimulus>, i: nat)
    requires first.segmentedMessage
    requires var sent := Run(NewMachine(cfg), [Stimulus(InboundConfirmedRequest, Input(first))] + stimuli).sent;
             i < |sent| && sent[i].pduType == SegmentACK
    ensures var sent := Run(NewMachine(cfg), [Stimulus(InboundConfirmedRequest, Input(first))] + stimuli).sent;
            && sent[i].server && sent[i].invokeID == cfg.invokeID
            && SmallerWindow(sent[i].actualWindowSize, first.proposedWindowSize, cfg.preferredWindow)
  {
    var all := [Stimulus(InboundConfirmedRequest, Input(first))] + stimuli;
    var s := Step(NewMachine(cfg), InboundConfirmedRequest, Input(first));
    assert all[1..] == stimuli;
    OpeningAnnounces(cfg, first);
    RunAnnounces(s.m, cfg, first, stimuli);
    hide Step, Announcing, SmallerWindow, NewMachine;
    assert Run(NewMachine(cfg), all).sent == SentBy(s) + Run(s.m, stimuli).sent;
  }

  /** The acknowledgement of segment k under a window of w segments. */
  function AckFor(cfg: Config, k: byte, w: byte): OutboundAPDU {
    OutboundAPDU(SegmentACK, false, false, false, 0, 0, cfg.invokeID, 0, [], k, w, false, true)
  }

  /** What is sent for segments k to n - 1 of a request of n: an acknowledgement for the last one and
      for every one that completes a window. */
  function AcksFrom(cfg: Config, n: nat, w: byte, k: nat): seq<OutboundAPDU>
    requires w >= 1 && k <= n <= 256
    decreases n - k
  {
    if k == n then []
    else (if k + 1 == n || (k + 1) % w == 0 then [AckFor(cfg, k, w)] else []) + AcksFrom(cfg, n, w, k + 1)
  }

  /** Segments k and later arriving in order. */
  function ArrivingFrom(q: Request, k: nat): seq<Stimulus>
    requires k <= |q.segments|
    decreases |q.segments| - k
  {
    if k == |q.segments| then []
    else
      var event := if k == 0 then InboundConfirmedRequest else InboundSegment;
      [Stimulus(event, Input(Piece(q, k)))] + ArrivingFrom(q, k + 1)
  }

  lemma WindowIsSmaller(cfg: Config, q: Request)
    ensures SmallerWindow(AgreedWindow(cfg, q), q.header.proposedWindowSize, cfg.preferredWindow)
  {
  }

  lemma {:induction false} RestIsAcked(cfg: Config, q: Request, m: Machine, k: nat)
    requires Holding(m, cfg, q, k)
    ensures Run(m, ArrivingFrom(q, k)).sent == AcksFrom(cfg, |q.segments|, AgreedWindow(cfg, q), k)
    decreases |q.segments| - k
  {
    hide Step, Piece, Phase, AgreedWindow;
    var n := |q.segments|;
    var w := AgreedWindow(cfg, q);
    AwaitedSegment(m, cfg, q, k);
    PhaseIsRemainder(k + 1, w);
    var s := Step(m, InboundSegment, Input(Piece(q, k)));
    AckIs(cfg, q, m, s, k);
    var all := ArrivingFrom(q, k);
    assert all[0] == Stimulus(InboundSegment, Input(Piece(q, k))) && all[1..] == ArrivingFrom(q, k + 1);
    if k + 1 < n {
      RestIsAcked(cfg, q, s.m, k + 1);
    } else {
      assert Run(s.m, ArrivingFrom(q, k + 1)).sent == [];
    }
  }

  lemma AckIs(cfg: Config, q: Request, m: Machine, s: Stepped, k: nat)
    requires Holding(m, cfg, q, k) && s == Step(m, InboundSegment, Input(Piece(q, k)))
    ensures PositiveAck(s.m, k) == MachineSpec.Sending(SendSegmentACK, AckFor(cfg, k, AgreedWindow(cfg, q)))
  {
    StepAccepts(m, Piece(q, k));
  }

  /** A request whose segments arrive in order is acknowledged once for every full window, and once at
      its end, under a window that is the smaller of the proposed and the preferred one. */
  lemma InOrderIsAcked(cfg: Config, q: Request) returns (w: byte)
    requires 1 <= |q.segments| <= 256 && (cfg.segmentation == Receive || cfg.segmentation == Both)
    ensures w >= 1 && SmallerWindow(w, q.header.proposedWindowSize, cfg.preferredWindow)
    ensures Run(NewMachine(cfg), ArrivingFrom(q, 0)).sent == AcksFrom(cfg, |q.segments|, w, 0)
  {
    w := AgreedWindow(cfg, q);
    WindowIsSmaller(cfg, q);
    FirstSegment(cfg, q);
    PhaseIsRemainder(1, w);
    var s := Step(NewMachine(cfg), InboundConfirmedRequest, Input(Piece(q, 0)));
    var all := ArrivingFrom(q, 0);
    assert all[0] == Stimulus(InboundConfirmedRequest, Input(Piece(q, 0))) && all[1..] == ArrivingFrom(q, 1);
    FirstAckIs(cfg, q);
    hide Step, NewMachine, Piece, AgreedWindow, Phase;
    if |q.segments| == 1 {
      assert Run(s.m, ArrivingFrom(q, 1)).sent == [];
    } else {
      RestIsAcked(cfg, q, s.m, 1);
    }
  }

  lemma FirstAckIs(cfg: Config, q: Request)
    requires 1 <= |q.segments| <= 256 && (cfg.segmentation == Receive || cfg.segmentation == Both)
    ensures var s := Step(NewMachine(cfg), InboundConfirmedRequest, Input(Piece(q, 0)));
            PositiveAck(s.m, 0) == MachineSpec.Sending(SendSegmentACK, AckFor(cfg, 0, AgreedWindow(cfg, q)))
  {
    var n := StartReceiving(NewMachine(cfg), Piece(q, 0));
    DrainOne(n, q.segments[0], 1 < |q.segments|);
    hide Drain;
  }

  /** In whatever state the window is, a segment that is not awaited is refused by a negative Segment-ACK
      exactly when nothing was received in this window, or the segment lies further ahead of where the
      window began than what was received in it. */
  lemma NegativeExactly(m: Machine, seg: InboundAPDU)
    requires m.state == SegmentedRequestReceiving && seg.sequenceNumber != m.vars.sequenceNumber
    ensures var base, a := m.vars.initialSequenceNumber, seg.sequenceNumber;
            var ahead := if a >= base then a - base else a - base + 256;
            var sent := SentBy(Step(m, InboundSegment, Input(seg)));
            && |sent| == 1
            && (sent[0].pduType == SegmentACK && sent[0].negativeAck
                <==> m.vars.receivedInCurrentWindow == 0 || ahead > m.vars.receivedInCurrentWindow)
  {
    var base: int, a: int := m.vars.initialSequenceNumber, seg.sequenceNumber;
    assert (a - base) % 256 == if a >= base then a - base else a - base + 256;
    hide Drain;
  }

  // --- sending a response ---

  /** The length fits every limit that is given; 0 gives none. */
  predicate WithinBoth(length: int, requester: uint16, local: uint16) {
    (requester == 0 || length <= requester) && (local == 0 || length <= local)
  }

  /** The limit is one of those given and keeps within both. */
  predicate IsAgreed(limit: int, requester: uint16, local: uint16) {
    limit > 0 && (limit == requester || limit == local) && WithinBoth(limit, requester, local)
  }

  lemma LimitIsAgreed(cfg: Config, length: nat)
    ensures MaxAPDUSizeExceeded(cfg, length) <==> !WithinBoth(length, cfg.requesterMaxAPDU, cfg.maxAPDU)
    ensures ResponseAPDULimit(cfg) == 0 <==> cfg.requesterMaxAPDU == 0 && cfg.maxAPDU == 0
    ensures ResponseAPDULimit(cfg) > 0 ==> IsAgreed(ResponseAPDULimit(cfg), cfg.requesterMaxAPDU, cfg.maxAPDU)
  {
  }

  /** How many segments the requester accepts, by the code in its request; an unspecified number and
      unknown codes count as none. */
  function AcceptedSegments(code: byte): nat {
    if code < 8 then [0, 2, 4, 8, 16, 32, 64, 65][code] else 0
  }

  lemma AcceptedIsLimit(code: byte)
    ensures MaxSegmentsLimit(code) == AcceptedSegments(code)
  {
  }

  /** Every segment of a response, encoded, keeps within what either side accepts, and every one but the
      last fills the smaller of the two sizes to the octet. */
  lemma {:induction false} SegmentsKeepWithinBoth(m: Machine, p: seq<byte>, stimuli: seq<Stimulus>, i: nat)
    requires m.state == AwaitResponse && Segmentable(m.cfg, p)
    requires var sent := ResponseRun(m, p, stimuli).sent; i < |sent| && sent[i].pduType == ComplexACK
    ensures var a := ResponseRun(m, p, stimuli).sent[i];
            var raw := Encode(a);
            && raw.Ok? && WithinBoth(|raw.value|, m.cfg.requesterMaxAPDU, m.cfg.maxAPDU)
            && (a.moreFollows ==> IsAgreed(|raw.value|, m.cfg.requesterMaxAPDU, m.cfg.maxAPDU))
            && a.sequenceNumber < AcceptedSegments(m.cfg.requesterMaxSegments)
  {
    ResponseRunIsFaithful(m, p, stimuli);
    var c := CuttingOf(m.cfg, p);
    CuttingIsGood(m.cfg, p);
    AcceptedIsLimit(m.cfg.requesterMaxSegments);
    var a := ResponseRun(m, p, stimuli).sent[i];
    assert Legitimate(m.cfg, c, a);
    SegmentFills(m.cfg, c, a.actualWindowSize, a.sequenceNumber);
    hide Run, ResponseRun, Faithful, Good, Boundary, Encode, CanonicalSegment, SegmentCount, CanSegmentResponse,
         IsAgreed, WithinBoth;
  }

  lemma SegmentFills(cfg: Config, c: Cutting, w: byte, k: nat)
    requires Cuts(c, cfg) && k < c.n
    ensures var raw := Encode(CanonicalSegment(cfg, c, w, k));
            && raw.Ok? && WithinBoth(|raw.value|, cfg.requesterMaxAPDU, cfg.maxAPDU)
            && (k + 1 < c.n ==> IsAgreed(|raw.value|, cfg.requesterMaxAPDU, cfg.maxAPDU))
  {
    SegmentFits(cfg, c, w, k);
    BoundaryNext(c, k);
    LimitIsAgreed(cfg, 0);
    SliceLength(c, k);
    hide Good, Boundary, Slice;
  }

  lemma SliceLength(c: Cutting, k: nat)
    requires Good(c) && k < c.n
    ensures k + 1 < c.n ==> |Slice(c, k)| == Limit(c, k)
  {
    BoundaryNext(c, k);
  }

  /** The octets that fit into n segments of the given size. */
  function Capacity(size: int, n: nat): int
    requires n > 0
  {
    (size - 5) + (n - 1) * (size - 4)
  }

  lemma CountWithin(first: int, rest: int, length: int, n: nat)
    requires first > 0 && rest > 0 && length > first && n >= 1
    ensures 1 + (length - first + rest - 1) / rest <= n <==> length <= first + (n - 1) * rest
    ensures 1 + (length - first + rest - 1) / rest >= 2
  {
    var q := (length - first + rest - 1) / rest;
    CeilingDivision(length - first, rest);
    if q <= n - 1 {
      ProductGrows(q, n - 1, rest);
    } else {
      ProductGrows(n - 1, q - 1, rest);
    }
    if q < 1 {
      ProductGrows(q, 0, rest);
    }
  }

  lemma ProductGrows(a: int, b: int, d: int)
    requires a <= b && d > 0
    ensures a * d <= b * d
  {
  }

  /** An acknowledged answer is sent in segments exactly when both sides are able to, it does not fit one
      segment of the smaller size, and it fits as many as the requester accepts. */
  lemma SegmentedExactly(cfg: Config, p: seq<byte>, size: int)
    requires IsAgreed(size, cfg.requesterMaxAPDU, cfg.maxAPDU)
    ensures Segmentable(cfg, p) <==>
              && (cfg.segmentation == Transmit || cfg.segmentation == Both)
              && (cfg.requesterSegmentation == Receive || cfg.requesterSegmentation == Both)
              && size > 5 && |p| > size - 5 && AcceptedSegments(cfg.requesterMaxSegments) > 0
              && |p| <= Capacity(size, AcceptedSegments(cfg.requesterMaxSegments))
  {
    LimitIsAgreed(cfg, 0);
    assert ResponseAPDULimit(cfg) == size;
    AcceptedIsLimit(cfg.requesterMaxSegments);
    var n := AcceptedSegments(cfg.requesterMaxSegments);
    if size > 5 && |p| > size - 5 && n > 0 {
      CountWithin(size - 5, size - 4, |p|, n);
    }
    hide MaxSegmentsLimit, AcceptedSegments, ResponseAPDULimit, IsAgreed;
  }

  /** An answer too long for one APDU starts a segmented response exactly then; otherwise it is given up
      with an Abort, reason 4. */
  lemma TooLongExactly(m: Machine, p: seq<byte>, t: ResponseType)
    requires m.state == AwaitResponse
    ensures var s := Step(m, ResponseRequiresSegmentation, MachineInput(None, Some(p), Some(t)));
            if t == AckType && Segmentable(m.cfg, p) then
              s.m.state == AwaitSegmentACK && SentBy(s) == ResponseRun(m, p, []).sent
            else
              && s.m.state == Aborted && |SentBy(s)| == 1
              && Encode(SentBy(s)[0]) == Ok([0x71, m.cfg.invokeID, 4])
  {
    if t == AckType && Segmentable(m.cfg, p) {
      StartIsFaithful(m, p);
      ResponseRunUnfolds(m, p, []);
      hide StartSegmentedResponse, Run, Segmentable, CanSegmentResponse;
      assert SentBy(StartSegmentedResponse(m, p)) + [] == SentBy(StartSegmentedResponse(m, p));
    }
    hide CanSegmentResponse;
  }

  // --- windows of a response ---

  /** The first window of a response has the size the responder prefers, but no more segments than the
      requester accepts, and no more than there are; each segment announces that size. */
  lemma FirstWindowIs(m: Machine, p: seq<byte>)
    requires m.state == AwaitResponse && Segmentable(m.cfg, p)
    ensures var sent := SentBy(StartSegmentedResponse(m, p));
            var n := SegmentCount(m.cfg, |p|);
            && sent != [] && |sent| <= n
            && forall i :: 0 <= i < |sent| ==>
                 && sent[i].pduType == ComplexACK && sent[i].sequenceNumber == i
                 && SmallerWindow(sent[i].actualWindowSize, m.cfg.preferredWindow,
                                  AcceptedSegments(m.cfg.requesterMaxSegments))
                 && (|sent| == sent[i].actualWindowSize || (|sent| == n && n <= sent[i].actualWindowSize))
  {
    var c := CuttingOf(m.cfg, p);
    CuttingIsGood(m.cfg, p);
    BoundaryNext(c, 0);
    SendWindowSends(Prepared(m, p), c);
    CutCount(m.cfg, p);
    AcceptedIsLimit(m.cfg.requesterMaxSegments);
    hide SendWindow, SegmentCount, CanSegmentResponse, Boundary, Good;
  }

  /** The size is the smallest of the one announced, the preferred one and the number accepted. */
  predicate SmallestWindow(w: byte, announced: byte, preferred: byte, accepted: nat) {
    && w <= announced && w <= (if preferred == 0 then 1 else preferred) && w <= accepted
    && (w == announced || w == accepted || w == (if preferred == 0 then 1 else preferred))
  }

  lemma AdoptedIs(m: Machine, ack: InboundAPDU)
    requires ack.actualWindowSize != 0 && AcceptedSegments(m.cfg.requesterMaxSegments) > 0
    ensures SmallestWindow(WindowAdopted(m, ack).vars.actualWindowSize, ack.actualWindowSize, m.cfg.preferredWindow,
                           AcceptedSegments(m.cfg.requesterMaxSegments))
  {
    AcceptedIsLimit(m.cfg.requesterMaxSegments);
  }

  /** After a Segment-ACK that announces a window size, no more segments than that are in flight, whether
      they are new or repeated, and the size they announce is the smallest that all sides accept. */
  lemma WindowFollowsPeer(m: Machine, c: Cutting, ack: InboundAPDU)
    requires m.state == AwaitSegmentACK && Transmission.Sending(m, c) && ack.actualWindowSize != 0
    requires AcceptedSegments(m.cfg.requesterMaxSegments) > 0
    ensures var sent := SentBy(Step(m, InboundSegmentACK, Input(ack)));
            && |sent| <= ack.actualWindowSize
            && forall i :: 0 <= i < |sent| && sent[i].pduType == ComplexACK ==>
                 SmallestWindow(sent[i].actualWindowSize, ack.actualWindowSize, m.cfg.preferredWindow,
                                AcceptedSegments(m.cfg.requesterMaxSegments))
  {
    hide SendWindow, Cuts, Boundary, NegotiatedWindow, NormalizedWindow, InWindow, SmallestWindow, AcceptedSegments;
    AdoptedIs(m, ack);
    var n := WindowAdopted(m, ack);
    if Acknowledges(m, ack) {
      if !n.vars.sentAllSegments {
        SendWindowSends(Advanced(n), c);
      }
    } else if n.vars.retryCount < n.cfg.maxRetries {
      SendWindowSends(Rewound(n), c);
    }
  }

  // --- aborts ---

  /** The reason octet of an Abort the machine sends of its own accord: 0 when a request cannot be
      received, 2 for too many duplicates, 4 when a response would have to be segmented and cannot be,
      10 when a timer ran out for good, 11 when an answer is too long. */
  function AbortReason(state: MachineState, event: MachineEvent): byte {
    match state
    case Idle => 0
    case SegmentedRequestReceiving => if event == SegmentTimeout then 10 else 2
    case AwaitResponse => if event == ResponseReady then 11 else 4
    case _ => 10
  }

  /** Nothing but this Abort was sent, and the exchange is over. */
  predicate AbortsWith(s: Stepped, id: byte, reason: byte) {
    s.m.state == Aborted && |SentBy(s)| == 1 && Encode(SentBy(s)[0]) == Ok([0x71, id, reason])
  }

  predicate SendsAbort(s: Stepped) {
    exists i :: 0 <= i < |SentBy(s)| && SentBy(s)[i].pduType == Abort
  }

  lemma AbortingIs(m: Machine, payload: seq<byte>)
    requires |payload| <= 1
    ensures AbortsWith(Aborting(m, payload), m.cfg.invokeID, if payload == [] then 0 else payload[0])
  {
  }

  lemma SegmentsAreNoAbort(s: Stepped)
    requires AllSegments(SentBy(s))
    ensures !SendsAbort(s)
  {
  }

  lemma OneAtMost(s: Stepped)
    requires |SentBy(s)| <= 1
    ensures SendsAbort(s) <==> |SentBy(s)| == 1 && SentBy(s)[0].pduType == Abort
  {
  }

  lemma DrainKeepsGoing(m: Machine)
    requires m.state == SegmentedRequestReceiving
    ensures !SendsAbort(Drain(m)) && Drain(m).m.state != Aborted
  {
    hide TakeContiguous;
  }

  lemma IdleAborts(m: Machine, event: MachineEvent, input: MachineInput)
    requires m.state == Idle
    ensures var s := Step(m, event, input);
            var refused := && event == InboundConfirmedRequest && input.inbound.Some?
                           && input.inbound.value.segmentedMessage
                           && (input.inbound.value.sequenceNumber != 0
                               || (m.cfg.segmentation != Receive && m.cfg.segmentation != Both));
            if refused then AbortsWith(s, m.cfg.invokeID, 0) else s.m.state != Aborted && !SendsAbort(s)
  {
    AbortingIs(m, []);
    hide Drain, AbortsWith;
    if event == InboundConfirmedRequest && input.inbound.Some? && input.inbound.value.segmentedMessage {
      var seg := input.inbound.value;
      var n := StartReceiving(m, seg);
      DrainKeepsGoing(n.(vars := Buffered(n.vars, 0, seg.payload, seg.moreFollows)));
    }
  }

  lemma DuplicateAborts(m: Machine)
    requires m.state == SegmentedRequestReceiving
    ensures var s := DuplicateSegment(m);
            if s.m.state == Aborted then AbortsWith(s, m.cfg.invokeID, 2) && SendsAbort(s) else !SendsAbort(s)
  {
    var n := m.(vars := m.vars.(duplicateCount := Saturated(m.vars.duplicateCount)));
    AbortingIs(n, [REASON_INVALID_IN_STATE]);
    OneAtMost(DuplicateSegment(m));
    hide AbortsWith, SendsAbort;
  }

  lemma ReceivingAborts(m: Machine, event: MachineEvent, input: MachineInput)
    requires m.state == SegmentedRequestReceiving
    ensures var s := Step(m, event, input);
            && (event == SegmentTimeout ==> AbortsWith(s, m.cfg.invokeID, 10))
            && (SendsAbort(s) && event != SegmentTimeout ==> AbortsWith(s, m.cfg.invokeID, 2))
            && (s.m.state == Aborted ==> SendsAbort(s) || event == InboundAbort || event == Close)
  {
    hide AbortsWith, SendsAbort;
    var s := Step(m, event, input);
    DuplicateAborts(m);
    if event == SegmentTimeout {
      AbortingIs(m, [REASON_TSM_TIMEOUT]);
      TimeoutSends(m);
    } else if event == InboundSegment && input.inbound.Some? {
      SegmentAborts(m, input.inbound.value, input);
    } else {
      hide DuplicateSegment;
      if s != DuplicateSegment(m) {
        OneAtMost(s);
      }
    }
  }

  lemma TimeoutSends(m: Machine)
    ensures SendsAbort(Aborting(m, [REASON_TSM_TIMEOUT]))
  {
    OneAtMost(Aborting(m, [REASON_TSM_TIMEOUT]));
  }

  lemma SegmentAborts(m: Machine, seg: InboundAPDU, input: MachineInput)
    requires m.state == SegmentedRequestReceiving && input.inbound == Some(seg)
    ensures var s := Step(m, InboundSegment, input);
            if SendsAbort(s) then AbortsWith(s, m.cfg.invokeID, 2) else s.m.state != Aborted
  {
    DuplicateAborts(m);
    DrainKeepsGoing(m.(vars := Buffered(m.vars, seg.sequenceNumber, seg.payload, seg.moreFollows)));
    OneAtMost(Stepped(m, Ok(MachineSpec.Sending(SendSegmentACK, SegmentAck(m, LastContiguous(m.vars), true)))));
    hide Drain, AbortsWith, SendsAbort, DuplicateSegment, DuplicateInWindow;
  }

  lemma RetryAborts(m: Machine)
    requires m.state == AwaitSegmentACK
    ensures if m.vars.retryCount < m.cfg.maxRetries then Retry(m).m.state != Aborted && !SendsAbort(Retry(m))
            else AbortsWith(Retry(m), m.cfg.invokeID, 10)
  {
    if m.vars.retryCount < m.cfg.maxRetries {
      WindowIsNoAck(m.(vars := m.vars.(retryCount := m.vars.retryCount + 1,
                                       sequenceNumber := m.vars.initialSequenceNumber)));
      SegmentsAreNoAbort(Retry(m));
    } else {
      AbortingIs(m, [REASON_TSM_TIMEOUT]);
    }
    hide SendWindow, AbortsWith, SendsAbort;
  }

  lemma AckAborts(m: Machine, ack: InboundAPDU, input: MachineInput)
    requires m.state == AwaitSegmentACK && input.inbound == Some(ack)
    ensures var s := Step(m, InboundSegmentACK, input);
            && (SendsAbort(s) ==> AbortsWith(s, m.cfg.invokeID, 10))
            && (s.m.state == Aborted ==> m.vars.retryCount >= m.cfg.maxRetries)
  {
    var s := Step(m, InboundSegmentACK, input);
    var n := WindowAdopted(m, ack);
    AdoptionIsQuiet(m, ack);
    RetryAborts(n);
    WindowIsNoAck(Advanced(n));
    hide SendWindow, AbortsWith, Retry, InWindow, SendsAbort, AllSegments, NoAcks, NormalizedWindow;
    if s == SendWindow(Advanced(n)) {
      SegmentsAreNoAbort(s);
    } else if s != Retry(n) {
      OneAtMost(s);
    }
  }

  lemma SendingAborts(m: Machine, event: MachineEvent, input: MachineInput)
    requires m.state == AwaitSegmentACK
    ensures var s := Step(m, event, input);
            && (SendsAbort(s) ==> AbortsWith(s, m.cfg.invokeID, 10))
            && (s.m.state == Aborted ==> m.vars.retryCount >= m.cfg.maxRetries || event == CannotSend || event == Close)
  {
    hide AbortsWith, SendsAbort;
    if event == InboundSegmentACK && input.inbound.Some? {
      AckAborts(m, input.inbound.value, input);
      hide Step;
    } else if event == Timeout {
      RetryAborts(m);
      hide Retry;
    } else {
      OneAtMost(Step(m, event, input));
    }
  }

  lemma TooLongAborts(m: Machine, input: MachineInput)
    requires m.state == AwaitResponse && input.responseType != Some(AbortType)
    ensures var s := Step(m, ResponseReady, input);
            if SendsAbort(s) then AbortsWith(s, m.cfg.invokeID, 11) else s.m.state != Aborted
  {
    AbortingIs(m, [REASON_APDU_TOO_LONG]);
    OneAtMost(Step(m, ResponseReady, input));
    hide AbortsWith, SendsAbort, MaxAPDUSizeExceeded;
  }

  lemma UnsegmentableAborts(m: Machine, input: MachineInput)
    requires m.state == AwaitResponse
    ensures var s := Step(m, ResponseRequiresSegmentation, input);
            if SendsAbort(s) then AbortsWith(s, m.cfg.invokeID, 4) else s.m.state != Aborted
  {
    var s := Step(m, ResponseRequiresSegmentation, input);
    hide SendWindow, CanSegmentResponse, AbortsWith, SendsAbort;
    if input.handlerResult.Some? {
      AbortingIs(m, [REASON_SEGMENTATION_NOT_SUPPORTED]);
      WindowIsNoAck(Prepared(m, input.handlerResult.value));
      if s == StartSegmentedResponse(m, input.handlerResult.value) {
        SegmentsAreNoAbort(s);
      } else {
        OneAtMost(s);
      }
    } else {
      OneAtMost(s);
    }
  }

  lemma AnsweringAborts(m: Machine, event: MachineEvent, input: MachineInput)
    requires m.state == AwaitResponse && event != HandlerFailed && input.responseType != Some(AbortType)
    ensures var s := Step(m, event, input);
            && (SendsAbort(s) ==> AbortsWith(s, m.cfg.invokeID, AbortReason(AwaitResponse, event)))
            && (s.m.state == Aborted ==> SendsAbort(s) || event == CannotSend || event == Close)
  {
    hide AbortsWith, SendsAbort;
    if event == ResponseReady {
      TooLongAborts(m, input);
      hide Step;
    } else if event == ResponseRequiresSegmentation {
      UnsegmentableAborts(m, input);
      hide Step;
    } else {
      OneAtMost(Step(m, event, input));
    }
  }

  /** Whatever happens in whatever state, an Abort the machine sends of its own accord is the only APDU it
      sends, ends the exchange, and carries this reason. */
  lemma AbortsExactly(m: Machine, event: MachineEvent, input: MachineInput)
    requires event != HandlerFailed && input.responseType != Some(AbortType)
    requires SendsAbort(Step(m, event, input))
    ensures AbortsWith(Step(m, event, input), m.cfg.invokeID, AbortReason(m.state, event))
  {
    hide Step, AbortsWith, SendsAbort;
    match m.state {
      case Idle => IdleAborts(m, event, input);
      case SegmentedRequestReceiving => ReceivingAborts(m, event, input);
      case AwaitResponse => AnsweringAborts(m, event, input);
      case AwaitSegmentACK => SendingAborts(m, event, input);
      case _ => FinishedIsSilent(m, event, input);
    }
  }

  lemma FinishedIsSilent(m: Machine, event: MachineEvent, input: MachineInput)
    requires m.state == Completed || m.state == Aborted
    ensures SentBy(Step(m, event, input)) == [] && !SendsAbort(Step(m, event, input))
  {
  }

  /** What ends an exchange without a word to the peer. */
  lemma EndsQuietly(m: Machine, event: MachineEvent, input: MachineInput)
    requires || (event == CannotSend && m.state in {AwaitResponse, AwaitSegmentACK, Completed})
             || (event == Close && m.state in {SegmentedRequestReceiving, AwaitResponse, AwaitSegmentACK})
             || (event == InboundAbort && m.state == SegmentedRequestReceiving)
    ensures var s := Step(m, event, input); s.result.Ok? && s.m == m.(state := Aborted) && SentBy(s) == []
  {
  }

  /** What can happen to a machine in each state. */
  predicate Handled(state: MachineState, event: MachineEvent) {
    match state
    case Idle => event == InboundConfirmedRequest
    case SegmentedRequestReceiving =>
      event in {InboundConfirmedRequest, InboundSegment, InboundAbort, SegmentTimeout, Close}
    case AwaitResponse => event in {ResponseReady, ResponseRequiresSegmentation, HandlerFailed, CannotSend, Close}
    case AwaitSegmentACK => event in {InboundSegmentACK, Timeout, CannotSend, Close}
    case Completed => event in {CannotSend, Close}
    case Aborted => event == Close
  }

  /** Anything else is an error and changes nothing; and of what can happen, only an answer that is missing
      or of an unknown type, and an APDU that is missing, are refused as out of place. */
  lemma RefusedExactly(m: Machine, event: MachineEvent, input: MachineInput)
    ensures !Handled(m.state, event) ==> Step(m, event, input) == Stepped(m, Err(InvalidStateTransition))
    ensures Handled(m.state, event) && event !in {ResponseReady, ResponseRequiresSegmentation, HandlerFailed}
            && input.inbound.Some? ==>
              Step(m, event, input).result != Err(InvalidStateTransition)
    ensures m.state == AwaitResponse && event == ResponseReady ==>
              (Step(m, event, input).result == Err(InvalidStateTransition)
               <==> input.handlerResult.None? || input.responseType == Some(UnknownType))
  {
    hide WindowFrom, TakeContiguous, CanSegmentResponse, MaxAPDUSizeExceeded, InWindow, NormalizedWindow;
  }

  /** What the machine notes about its response is what it sends: the type, and for anything but an Abort of
      its own the length of the payload. */
  lemma AnswerIsNoted(m: Machine, p: seq<byte>, t: ResponseType)
    requires m.state == AwaitResponse && t != UnknownType
    ensures var s := Step(m, ResponseReady, MachineInput(None, Some(p), Some(t)));
            && |SentBy(s)| == 1 && s.m.vars.responsePduType == Some(SentBy(s)[0].pduType)
            && s.m.vars.responsePayloadLength
               == if WithinBoth(|p|, m.cfg.requesterMaxAPDU, m.cfg.maxAPDU) then |SentBy(s)[0].payload| else 0
    ensures Segmentable(m.cfg, p) ==>
              var s := Step(m, ResponseRequiresSegmentation, MachineInput(None, Some(p), Some(AckType)));
              && s.m.vars.responsePduType == Some(ComplexACK) && s.m.vars.responsePayloadLength == |p|
  {
    LimitIsAgreed(m.cfg, |p|);
    hide MaxAPDUSizeExceeded, WithinBoth, CanSegmentResponse, WindowFrom;
  }
}
