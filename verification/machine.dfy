/** The confirmed-service state machine of a responding application entity
    (sections 5.4.1 and 5.4.5 of ANSI/ASHRAE 135-2024): its variables, and the effect
    of one event as a function on machine values. The class in server.dfy
    updates the same variables in place and is proved to have this effect. */
module MachineSpec {
  import opened Wire
  import opened Apdu

  datatype MachineState =
    | Idle | SegmentedRequestReceiving | AwaitResponse | AwaitSegmentACK | Completed | Aborted

  /** OtherEvent stands for the events no state of this machine handles. */
  datatype MachineEvent =
    | InboundConfirmedRequest | InboundSegment | SegmentTimeout | InboundAbort | InboundSegmentACK
    | ResponseReady | ResponseRequiresSegmentation | HandlerFailed
    | CannotSend | Timeout | Close | OtherEvent

  datatype MachineAction =
    | NoAction | SendAbort | FailClosed | SendSimpleACK | SendComplexACK
    | SendError | SendReject | SendSegmentACK | DeliverCannotSend

  /** UnknownType stands for the byte values outside the four declared ones. */
  datatype ResponseType = AckType | ErrorType | RejectType | AbortType | UnknownType

  datatype SegmentationSupport = NoSegmentation | Transmit | Receive | Both

  datatype MachineError =
    | InvalidStateTransition | UnexpectedSequenceNumber | TransactionNotReady | CannotSegment

  datatype MachineInput = MachineInput(
    inbound: Option<InboundAPDU>,
    handlerResult: Option<seq<byte>>,
    responseType: Option<ResponseType>)

  datatype MachineOutput = MachineOutput(
    action: MachineAction,
    outbound: Option<OutboundAPDU>,
    batch: seq<OutboundAPDU>)

  const DEFAULT_MAX_DUPLICATES: byte := 3

  const REASON_INVALID_IN_STATE: byte := 2
  const REASON_SEGMENTATION_NOT_SUPPORTED: byte := 4
  const REASON_TSM_TIMEOUT: byte := 10
  const REASON_APDU_TOO_LONG: byte := 11

  datatype Config = Config(
    invokeID: byte,
    serviceChoice: byte,
    requesterSegmentation: SegmentationSupport,
    requesterMaxSegments: byte,
    requesterMaxAPDU: uint16,
    segmentation: SegmentationSupport,
    preferredWindow: byte,
    maxDuplicates: byte,
    maxRetries: byte,
    maxAPDU: uint16)

  datatype Variables = Variables(
    sequenceNumber: byte,
    initialSequenceNumber: byte,
    lastSequenceNumber: byte,
    proposedWindowSize: byte,
    actualWindowSize: byte,
    retryCount: byte,
    sentAllSegments: bool,
    segmentCount: uint16,
    segmentTimeout: Option<int>,
    duplicateCount: byte,
    bufferedPayloads: map<byte, seq<byte>>,
    bufferedMoreFollows: map<byte, bool>,
    segmentBuffer: seq<byte>,
    receivedInCurrentWindow: byte,
    responsePayload: seq<byte>,
    responsePayloadOffset: nat,
    responseNextOffset: nat,
    responsePayloadLength: nat,
    responsePduType: Option<PduType>)

  datatype Machine = Machine(cfg: Config, state: MachineState, vars: Variables)

  datatype Stepped = Stepped(m: Machine, result: Result<MachineOutput, MachineError>)

  /** The defaults applied when a machine is created. */
  function Defaulted(cfg: Config): (c: Config)
    ensures c.preferredWindow >= 1 && c.maxDuplicates >= 1
  {
    cfg.(preferredWindow := if cfg.preferredWindow == 0 then 1 else cfg.preferredWindow,
         maxDuplicates := if cfg.maxDuplicates == 0 then DEFAULT_MAX_DUPLICATES else cfg.maxDuplicates)
  }

  const InitialVariables: Variables :=
    Variables(0, 0, 0, 0, 0, 0, false, 0, None, 0, map[], map[], [], 0, [], 0, 0, 0, None)

  function NewMachine(cfg: Config): Machine {
    Machine(Defaulted(cfg), Idle, InitialVariables)
  }

  // --- outputs ---

  const Silence: MachineOutput := MachineOutput(NoAction, None, [])

  function Sending(action: MachineAction, a: OutboundAPDU): MachineOutput {
    MachineOutput(action, Some(a), [])
  }

  /** The APDUs the application entity puts on the wire for an output. */
  function Sent(out: MachineOutput): seq<OutboundAPDU> {
    if |out.batch| > 0 then out.batch
    else if out.outbound.Some? then [out.outbound.value]
    else []
  }

  function SegmentAck(m: Machine, sequenceNumber: byte, negative: bool): OutboundAPDU {
    Outbound(SegmentACK).(
      negativeAck := negative, server := true, invokeID := m.cfg.invokeID,
      sequenceNumber := sequenceNumber, actualWindowSize := m.vars.actualWindowSize)
  }

  function AbortAPDU(cfg: Config, payload: seq<byte>): OutboundAPDU {
    Outbound(Abort).(invokeID := cfg.invokeID, server := true, payload := payload)
  }

  function Response(cfg: Config, t: PduType, payload: seq<byte>): OutboundAPDU {
    Outbound(t).(server := t == Abort, invokeID := cfg.invokeID,
                 serviceChoice := cfg.serviceChoice, payload := payload)
  }

  function WithResponse(v: Variables, t: PduType, length: nat): Variables {
    v.(responsePduType := Some(t), responsePayloadLength := length)
  }

  function Aborting(m: Machine, payload: seq<byte>): Stepped {
    Stepped(m.(state := Aborted, vars := WithResponse(m.vars, Abort, 0)),
            Ok(Sending(SendAbort, AbortAPDU(m.cfg, payload))))
  }

  function Refused(m: Machine): Stepped {
    Stepped(m, Err(InvalidStateTransition))
  }

  // --- receiving a segmented request ---

  predicate InWindow(v: Variables, a: byte, b: byte) {
    (a - b) % 256 < v.actualWindowSize
  }

  predicate DuplicateInWindow(v: Variables, a: byte) {
    v.receivedInCurrentWindow != 0 && (a - v.initialSequenceNumber) % 256 <= v.receivedInCurrentWindow
  }

  function LastContiguous(v: Variables): byte {
    if v.sequenceNumber == 0 then 0 else v.sequenceNumber - 1
  }

  function Saturated(count: byte): byte {
    if count < 255 then count + 1 else count
  }

  function DuplicateSegment(m: Machine): Stepped {
    var n := m.(vars := m.vars.(duplicateCount := Saturated(m.vars.duplicateCount)));
    if m.cfg.maxDuplicates != 0 && n.vars.duplicateCount > m.cfg.maxDuplicates
    then Aborting(n, [REASON_INVALID_IN_STATE])
    else Stepped(n, Ok(Sending(SendSegmentACK, SegmentAck(n, LastContiguous(n.vars), false))))
  }

  function Buffered(v: Variables, sequenceNumber: byte, payload: seq<byte>, moreFollows: bool): Variables {
    v.(bufferedPayloads := v.bufferedPayloads[sequenceNumber := payload],
       bufferedMoreFollows := v.bufferedMoreFollows[sequenceNumber := moreFollows])
  }

  /** The effect of consuming one buffered segment, the one numbered sequenceNumber. */
  function Consumed(v: Variables): (w: Variables)
    requires v.sequenceNumber in v.bufferedPayloads
    ensures |w.bufferedPayloads| < |v.bufferedPayloads|
  {
    var payloads := v.bufferedPayloads - {v.sequenceNumber};
    assert v.bufferedPayloads.Keys == payloads.Keys + {v.sequenceNumber};
    v.(segmentBuffer := v.segmentBuffer + v.bufferedPayloads[v.sequenceNumber],
       lastSequenceNumber := v.sequenceNumber,
       sequenceNumber := Next(v.sequenceNumber),
       receivedInCurrentWindow := Next(v.receivedInCurrentWindow),
       segmentCount := (v.segmentCount + 1) % 0x1_0000,
       bufferedPayloads := payloads,
       bufferedMoreFollows := v.bufferedMoreFollows - {v.sequenceNumber})
  }

  /** A payload buffered without a more-follows mark counts as not last. */
  predicate MoreAfterNext(v: Variables) {
    v.sequenceNumber in v.bufferedMoreFollows ==> v.bufferedMoreFollows[v.sequenceNumber]
  }

  datatype Taken = Taken(vars: Variables, count: nat, last: bool)

  /** Consume buffered segments in sequence until one is missing or the last one is taken. */
  function TakeContiguous(v: Variables): Taken
    decreases |v.bufferedPayloads|
  {
    if v.sequenceNumber !in v.bufferedPayloads then Taken(v, 0, false)
    else if !MoreAfterNext(v) then Taken(Consumed(v), 1, true)
    else
      var rest := TakeContiguous(Consumed(v));
      rest.(count := rest.count + 1)
  }

  function Drain(m: Machine): Stepped {
    var t := TakeContiguous(m.vars);
    if t.count % 256 == 0 then Stepped(m.(vars := t.vars), Ok(Silence))
    else
      var n := m.(vars := t.vars.(duplicateCount := 0));
      var ack := Ok(Sending(SendSegmentACK, SegmentAck(n, n.vars.lastSequenceNumber, false)));
      if t.last then Stepped(n.(state := AwaitResponse), ack)
      else if n.vars.receivedInCurrentWindow >= n.vars.actualWindowSize then
        Stepped(n.(vars := n.vars.(receivedInCurrentWindow := 0,
                                   initialSequenceNumber := n.vars.sequenceNumber)), ack)
      else Stepped(n, Ok(Silence))
  }

  function MinWindow(clientProposed: byte, serverPreferred: byte): (w: byte)
    ensures w >= 1
  {
    var c := if clientProposed == 0 then 1 else clientProposed;
    var s := if serverPreferred == 0 then 1 else serverPreferred;
    if c < s then c else s
  }

  function StartReceiving(m: Machine, seg: InboundAPDU): Machine {
    var proposed := if seg.proposedWindowSize == 0 then 1 else seg.proposedWindowSize;
    m.(state := SegmentedRequestReceiving,
       vars := m.vars.(
         proposedWindowSize := proposed,
         actualWindowSize := MinWindow(proposed, m.cfg.preferredWindow),
         sequenceNumber := 0, initialSequenceNumber := 0, lastSequenceNumber := 0,
         segmentCount := 0, duplicateCount := 0, segmentBuffer := [], receivedInCurrentWindow := 0))
  }

  function IdleStep(m: Machine, event: MachineEvent, input: MachineInput): Stepped {
    if event != InboundConfirmedRequest then Refused(m)
    else if input.inbound.Some? && input.inbound.value.segmentedMessage then
      var seg := input.inbound.value;
      if m.cfg.segmentation != Receive && m.cfg.segmentation != Both then Aborting(m, [])
      else if seg.sequenceNumber != 0 then Aborting(m, [])
      else
        var n := StartReceiving(m, seg);
        Drain(n.(vars := Buffered(n.vars, 0, seg.payload, seg.moreFollows)))
    else Stepped(m.(state := AwaitResponse), Ok(Silence))
  }

  function ReceivingStep(m: Machine, event: MachineEvent, input: MachineInput): Stepped {
    match event
    case InboundConfirmedRequest =>
      if input.inbound.None? then Refused(m)
      else if input.inbound.value.sequenceNumber == 0 then DuplicateSegment(m)
      else Stepped(m, Err(UnexpectedSequenceNumber))
    case InboundSegment =>
      if input.inbound.None? then Refused(m)
      else
        var seg := input.inbound.value;
        if seg.sequenceNumber == m.vars.sequenceNumber then
          Drain(m.(vars := Buffered(m.vars, seg.sequenceNumber, seg.payload, seg.moreFollows)))
        else if DuplicateInWindow(m.vars, seg.sequenceNumber) then DuplicateSegment(m)
        else Stepped(m, Ok(Sending(SendSegmentACK, SegmentAck(m, LastContiguous(m.vars), true))))
    case InboundAbort => Stepped(m.(state := Aborted), Ok(Silence))
    case SegmentTimeout => Aborting(m, [REASON_TSM_TIMEOUT])
    case Close => Stepped(m.(state := Aborted), Ok(MachineOutput(FailClosed, None, [])))
    case _ => Refused(m)
  }

  // --- sending the response ---

  function ResponseKind(input: MachineInput): Option<(PduType, MachineAction)> {
    var hasPayload := input.handlerResult.Some? && |input.handlerResult.value| > 0;
    var ack := if hasPayload then (ComplexACK, SendComplexACK) else (SimpleACK, SendSimpleACK);
    if input.responseType.None? then Some(ack)
    else match input.responseType.value
      case AckType => Some(ack)
      case ErrorType => Some((ErrorPdu, SendError))
      case RejectType => Some((Reject, SendReject))
      case AbortType => Some((Abort, SendAbort))
      case UnknownType => None
  }

  function ResponseAPDULimit(cfg: Config): uint16 {
    if cfg.requesterMaxAPDU == 0 then cfg.maxAPDU
    else if cfg.maxAPDU == 0 then cfg.requesterMaxAPDU
    else if cfg.requesterMaxAPDU < cfg.maxAPDU then cfg.requesterMaxAPDU
    else cfg.maxAPDU
  }

  predicate MaxAPDUSizeExceeded(cfg: Config, length: nat) {
    ResponseAPDULimit(cfg) != 0 && length > ResponseAPDULimit(cfg)
  }

  function HeaderLength(sequenceNumber: byte): nat {
    if sequenceNumber == 0 then 5 else 4
  }

  function PayloadLimit(cfg: Config, sequenceNumber: byte): int {
    ResponseAPDULimit(cfg) - HeaderLength(sequenceNumber)
  }

  function SegmentCount(cfg: Config, length: int): int {
    var first := PayloadLimit(cfg, 0);
    var continuation := PayloadLimit(cfg, 1);
    if length <= 0 then 0
    else if first <= 0 then 0
    else if length <= first then 1
    else if continuation <= 0 then 0
    else 1 + (length - first + continuation - 1) / continuation
  }

  function MaxSegmentsLimit(code: byte): (n: nat)
    ensures n <= 65
  {
    if code == 1 then 2 else if code == 2 then 4 else if code == 3 then 8
    else if code == 4 then 16 else if code == 5 then 32 else if code == 6 then 64
    else if code == 7 then 65 else 0
  }

  predicate CanSegmentResponse(cfg: Config, t: ResponseType, length: int) {
    && t == AckType && length > 0
    && (cfg.segmentation == Transmit || cfg.segmentation == Both)
    && (cfg.requesterSegmentation == Receive || cfg.requesterSegmentation == Both)
    && SegmentCount(cfg, length) >= 2
    && MaxSegmentsLimit(cfg.requesterMaxSegments) > 0
    && SegmentCount(cfg, length) <= MaxSegmentsLimit(cfg.requesterMaxSegments)
  }

  function NegotiatedWindow(cfg: Config): (w: byte)
    ensures w >= 1
  {
    var preferred := if cfg.preferredWindow == 0 then 1 else cfg.preferredWindow;
    var limit := MaxSegmentsLimit(cfg.requesterMaxSegments);
    if limit > 0 && preferred > limit then limit else preferred
  }

  function NormalizedWindow(cfg: Config, peer: byte): (w: byte)
    ensures 1 <= w <= NegotiatedWindow(cfg)
  {
    var p := if peer == 0 then 1 else peer;
    if p < NegotiatedWindow(cfg) then p else NegotiatedWindow(cfg)
  }

  /** The segment numbered sequenceNumber, holding payload[start..end]. */
  function ResponseSegment(m: Machine, sequenceNumber: byte, start: nat, end: nat): OutboundAPDU
    requires start <= end <= |m.vars.responsePayload|
  {
    Outbound(ComplexACK).(
      segmentedMessage := true,
      moreFollows := end != |m.vars.responsePayload|,
      invokeID := m.cfg.invokeID,
      sequenceNumber := sequenceNumber,
      actualWindowSize := m.vars.actualWindowSize,
      serviceChoice := m.cfg.serviceChoice,
      payload := m.vars.responsePayload[start..end])
  }

  datatype Window = Window(apdus: seq<OutboundAPDU>, next: nat, last: Option<byte>, failed: bool)

  function SegmentEnd(m: Machine, sequenceNumber: byte, start: nat): nat
    requires PayloadLimit(m.cfg, sequenceNumber) > 0
  {
    if start + PayloadLimit(m.cfg, sequenceNumber) > |m.vars.responsePayload|
    then |m.vars.responsePayload|
    else start + PayloadLimit(m.cfg, sequenceNumber)
  }

  /** At most budget segments from offset on, numbered from sequenceNumber. */
  function WindowFrom(m: Machine, sequenceNumber: byte, offset: nat, budget: nat): (w: Window)
    ensures !w.failed && w.apdus == [] ==> w.last.None?
    ensures w.apdus != [] ==> w.last.Some?
    decreases budget
  {
    if budget == 0 || offset >= |m.vars.responsePayload| then Window([], offset, None, false)
    else if PayloadLimit(m.cfg, sequenceNumber) <= 0 then Window([], offset, None, true)
    else
      var end := SegmentEnd(m, sequenceNumber, offset);
      var a := ResponseSegment(m, sequenceNumber, offset, end);
      if end == |m.vars.responsePayload| then Window([a], end, Some(sequenceNumber), false)
      else
        var rest := WindowFrom(m, Next(sequenceNumber), end, budget - 1);
        Window([a] + rest.apdus, rest.next,
               if rest.last.Some? then rest.last else Some(sequenceNumber), rest.failed)
  }

  /** Build the window that starts at responsePayloadOffset and send it. */
  function SendWindow(m: Machine): Stepped {
    var v := m.vars;
    if v.responsePayloadOffset >= |v.responsePayload| then Stepped(m, Err(TransactionNotReady))
    else
      var size := if v.actualWindowSize == 0 then 1 else v.actualWindowSize;
      var w := WindowFrom(m, v.sequenceNumber, v.responsePayloadOffset, size);
      var marked := v.(initialSequenceNumber := v.sequenceNumber,
                       lastSequenceNumber := if w.last.Some? then w.last.value else v.lastSequenceNumber);
      if w.failed then Stepped(m.(vars := marked), Err(CannotSegment))
      else
        assert w.apdus != [];
        Stepped(m.(vars := marked.(responseNextOffset := w.next,
                                   sentAllSegments := w.next == |v.responsePayload|,
                                   sequenceNumber := Next(w.last.value))),
                Ok(MachineOutput(SendComplexACK, Some(w.apdus[0]), w.apdus)))
  }

  function Prepared(m: Machine, payload: seq<byte>): Machine {
    m.(vars := WithResponse(
         m.vars.(responsePayload := payload, responsePayloadOffset := 0, responseNextOffset := 0,
                 sequenceNumber := 0, initialSequenceNumber := 0, lastSequenceNumber := 0,
                 actualWindowSize := NegotiatedWindow(m.cfg), retryCount := 0, sentAllSegments := false),
         ComplexACK, |payload|))
  }

  function StartSegmentedResponse(m: Machine, payload: seq<byte>): Stepped {
    var s := SendWindow(Prepared(m, payload));
    if s.result.Ok? then s.(m := s.m.(state := AwaitSegmentACK)) else s
  }

  function AwaitResponseStep(m: Machine, event: MachineEvent, input: MachineInput): Stepped {
    match event
    case ResponseReady =>
      if input.handlerResult.None? then Refused(m)
      else
        var kind := ResponseKind(input);
        var payload := input.handlerResult.value;
        if kind.None? then Refused(m)
        else if MaxAPDUSizeExceeded(m.cfg, |payload|) then Aborting(m, [REASON_APDU_TOO_LONG])
        else
          Stepped(m.(state := Completed, vars := WithResponse(m.vars, kind.value.0, |payload|)),
                  Ok(Sending(kind.value.1, Response(m.cfg, kind.value.0, payload))))
    case ResponseRequiresSegmentation =>
      if input.handlerResult.None? then Refused(m)
      else
        var t := if input.responseType.Some? then input.responseType.value else AckType;
        if CanSegmentResponse(m.cfg, t, |input.handlerResult.value|)
        then StartSegmentedResponse(m, input.handlerResult.value)
        else Aborting(m, [REASON_SEGMENTATION_NOT_SUPPORTED])
    case HandlerFailed =>
      var t := if input.responseType.Some? then input.responseType.value else AbortType;
      var kind := ResponseKind(input.(inbound := None, responseType := Some(t)));
      var n := m.(state := Aborted);
      if kind.None? then Stepped(n, Err(InvalidStateTransition))
      else
        Stepped(n.(vars := WithResponse(n.vars, kind.value.0, 0)),
                Ok(Sending(kind.value.1, Response(m.cfg, kind.value.0, []))))
    case CannotSend => Stepped(m.(state := Aborted), Ok(MachineOutput(DeliverCannotSend, None, [])))
    case Close => Stepped(m.(state := Aborted), Ok(MachineOutput(FailClosed, None, [])))
    case _ => Refused(m)
  }

  /** Send the current window again, or give up when the retries are spent. */
  function Retry(m: Machine): Stepped {
    if m.vars.retryCount < m.cfg.maxRetries then
      SendWindow(m.(vars := m.vars.(retryCount := m.vars.retryCount + 1,
                                    sequenceNumber := m.vars.initialSequenceNumber)))
    else Aborting(m, [REASON_TSM_TIMEOUT])
  }

  /** The peer's window size is adopted before the acknowledged number is tested against it. */
  function WindowAdopted(m: Machine, ack: InboundAPDU): Machine {
    if ack.actualWindowSize == 0 then m
    else m.(vars := m.vars.(actualWindowSize := NormalizedWindow(m.cfg, ack.actualWindowSize)))
  }

  function AwaitSegmentACKStep(m: Machine, event: MachineEvent, input: MachineInput): Stepped {
    match event
    case InboundSegmentACK =>
      if input.inbound.None? then Refused(m)
      else
        var ack := input.inbound.value;
        var n := WindowAdopted(m, ack);
        if !ack.negativeAck && InWindow(n.vars, ack.sequenceNumber, n.vars.initialSequenceNumber) then
          if n.vars.sentAllSegments then Stepped(n.(state := Completed), Ok(Silence))
          else SendWindow(n.(vars := n.vars.(retryCount := 0,
                                             responsePayloadOffset := n.vars.responseNextOffset)))
        else Retry(n)
    case Timeout => Retry(m)
    case CannotSend => Stepped(m.(state := Aborted), Ok(MachineOutput(DeliverCannotSend, None, [])))
    case Close => Stepped(m.(state := Aborted), Ok(MachineOutput(FailClosed, None, [])))
    case _ => Refused(m)
  }

  function Step(m: Machine, event: MachineEvent, input: MachineInput): Stepped {
    match m.state
    case Idle => IdleStep(m, event, input)
    case SegmentedRequestReceiving => ReceivingStep(m, event, input)
    case AwaitResponse => AwaitResponseStep(m, event, input)
    case AwaitSegmentACK => AwaitSegmentACKStep(m, event, input)
    case Completed =>
      if event == CannotSend then
        Stepped(m.(state := Aborted), Ok(MachineOutput(DeliverCannotSend, None, [])))
      else if event == Close then Stepped(m, Ok(Silence))
      else Refused(m)
    case Aborted =>
      if event == Close then Stepped(m, Ok(Silence)) else Refused(m)
  }

  /** No event changes what the machine was configured with. */
  lemma StepKeepsConfig(m: Machine, event: MachineEvent, input: MachineInput)
    ensures Step(m, event, input).m.cfg == m.cfg
  {
    hide WindowFrom, TakeContiguous;
  }
}
