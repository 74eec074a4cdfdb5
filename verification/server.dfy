/** The confirmed-service state machine as an object that updates its variables in place. */
module Server {
  import opened Wire
  import opened Apdu
  import opened MachineSpec

  /** A window depends on the configuration, the response and the window size only. */
  lemma {:induction false} WindowIgnoresBookkeeping(m: Machine, n: Machine, sequenceNumber: byte, offset: nat,
                                                    budget: nat)
    requires m.cfg == n.cfg && m.vars.responsePayload == n.vars.responsePayload
    requires m.vars.actualWindowSize == n.vars.actualWindowSize
    ensures WindowFrom(m, sequenceNumber, offset, budget) == WindowFrom(n, sequenceNumber, offset, budget)
    decreases budget
  {
    if budget > 0 && offset < |m.vars.responsePayload| && PayloadLimit(m.cfg, sequenceNumber) > 0 {
      WindowIgnoresBookkeeping(m, n, Next(sequenceNumber), SegmentEnd(m, sequenceNumber, offset), budget - 1);
    }
  }

  /** The outcome of a run of segments of which some were taken before. */
  function TakenBefore(taken: nat, rest: Taken): Taken {
    rest.(count := rest.count + taken)
  }

  /** One turn of the loop. */
  lemma TakeUnfolds(v: Variables, taken: nat)
    ensures v.sequenceNumber in v.bufferedPayloads ==> |Consumed(v).bufferedPayloads| < |v.bufferedPayloads|
    ensures TakenBefore(taken, TakeContiguous(v))
            == if v.sequenceNumber !in v.bufferedPayloads then Taken(v, taken, false)
               else if !MoreAfterNext(v) then Taken(Consumed(v), taken + 1, true)
               else TakenBefore(taken + 1, TakeContiguous(Consumed(v)))
  {
    hide Consumed, MoreAfterNext;
  }

  lemma NextCounts(b: byte, taken: nat)
    requires b == taken % 256
    ensures Next(b) == (taken + 1) % 256
  {
  }

  /** One segment, and the window that follows it. */
  lemma WindowUnfolds(m: Machine, sequenceNumber: byte, offset: nat, budget: nat)
    requires budget > 0 && offset < |m.vars.responsePayload| && PayloadLimit(m.cfg, sequenceNumber) > 0
    ensures var end := SegmentEnd(m, sequenceNumber, offset);
            var a := ResponseSegment(m, sequenceNumber, offset, end);
            var w := WindowFrom(m, sequenceNumber, offset, budget);
            if end == |m.vars.responsePayload| then w == Window([a], end, Some(sequenceNumber), false)
            else
              var rest := WindowFrom(m, Next(sequenceNumber), end, budget - 1);
              w == Window([a] + rest.apdus, rest.next, if rest.last.Some? then rest.last else Some(sequenceNumber),
                          rest.failed)
  {
    hide PayloadLimit, ResponseSegment, SegmentEnd;
  }

  lemma WindowFails(m: Machine, sequenceNumber: byte, offset: nat, budget: nat)
    requires budget > 0 && offset < |m.vars.responsePayload| && PayloadLimit(m.cfg, sequenceNumber) <= 0
    ensures WindowFrom(m, sequenceNumber, offset, budget) == Window([], offset, None, true)
  {
  }

  lemma WindowEnds(m: Machine, sequenceNumber: byte, offset: nat, budget: nat)
    requires budget == 0 || offset >= |m.vars.responsePayload|
    ensures WindowFrom(m, sequenceNumber, offset, budget) == Window([], offset, None, false)
  {
  }

  class ConfirmedServerMachine {
    const cfg: Config
    var state: MachineState
    var variables: Variables

    /** The machine value this object currently holds. */
    function View(): Machine
      reads this
    {
      Machine(cfg, state, variables)
    }

    constructor (config: Config)
      ensures View() == NewMachine(config)
    {
      cfg := Defaulted(config);
      state := Idle;
      variables := InitialVariables;
    }

    method SetSegmentTimeout(deadline: int)
      modifies this
      ensures View() == old(View()).(vars := old(variables).(segmentTimeout := Some(deadline)))
    {
      variables := variables.(segmentTimeout := Some(deadline));
    }

    method SegmentTimeoutExpired(now: int) returns (expired: bool)
      ensures expired <==> variables.segmentTimeout.Some? && now > variables.segmentTimeout.value
    {
      if variables.segmentTimeout.None? {
        return false;
      }
      expired := now > variables.segmentTimeout.value;
    }

    /** Advance by one event; the new variables and the output are those of Step. */
    method Handle(event: MachineEvent, input: MachineInput) returns (r: Result<MachineOutput, MachineError>)
      modifies this
      ensures Stepped(View(), r) == Step(old(View()), event, input)
    {
      match state
      case Idle => r := HandleInIdle(event, input);
      case SegmentedRequestReceiving => r := HandleInReceiving(event, input);
      case AwaitResponse => r := HandleInAwaitResponse(event, input);
      case AwaitSegmentACK => r := HandleInAwaitSegmentACK(event, input);
      case Completed =>
        if event == CannotSend {
          state := Aborted;
          r := Ok(MachineOutput(DeliverCannotSend, None, []));
        } else {
          r := if event == Close then Ok(Silence) else Err(InvalidStateTransition);
        }
      case Aborted =>
        r := if event == Close then Ok(Silence) else Err(InvalidStateTransition);
    }

    method AbortWith(payload: seq<byte>) returns (out: MachineOutput)
      modifies this
      ensures Stepped(View(), Ok(out)) == Aborting(old(View()), payload)
    {
      state := Aborted;
      variables := WithResponse(variables, Abort, 0);
      out := Sending(SendAbort, AbortAPDU(cfg, payload));
    }

    method ObserveDuplicate() returns (exceeded: bool)
      modifies this
      ensures View()
              == old(View()).(vars := old(variables).(duplicateCount := Saturated(old(variables).duplicateCount)))
      ensures exceeded <==> cfg.maxDuplicates != 0 && variables.duplicateCount > cfg.maxDuplicates
    {
      if variables.duplicateCount < 255 {
        variables := variables.(duplicateCount := variables.duplicateCount + 1);
      }
      exceeded := cfg.maxDuplicates != 0 && variables.duplicateCount > cfg.maxDuplicates;
    }

    method DuplicateSegmentOutput() returns (out: MachineOutput)
      modifies this
      ensures Stepped(View(), Ok(out)) == DuplicateSegment(old(View()))
    {
      var exceeded := ObserveDuplicate();
      if exceeded {
        out := AbortWith([REASON_INVALID_IN_STATE]);
      } else {
        out := Sending(SendSegmentACK, SegmentAck(View(), LastContiguous(variables), false));
      }
    }

    method BufferSegment(sequenceNumber: byte, payload: seq<byte>, moreFollows: bool)
      modifies this
      ensures View() == old(View()).(vars := Buffered(old(variables), sequenceNumber, payload, moreFollows))
    {
      variables := variables.(bufferedPayloads := variables.bufferedPayloads[sequenceNumber := payload]);
      variables := variables.(bufferedMoreFollows := variables.bufferedMoreFollows[sequenceNumber := moreFollows]);
    }

    /** Remove and return one buffered segment. */
    method TakeBufferedSegment(sequenceNumber: byte) returns (payload: seq<byte>, moreFollows: bool, ok: bool)
      modifies this
      ensures ok <==> sequenceNumber in old(variables).bufferedPayloads
      ensures !ok ==> View() == old(View())
      ensures ok ==>
        && payload == old(variables).bufferedPayloads[sequenceNumber]
        && moreFollows == (sequenceNumber in old(variables).bufferedMoreFollows
                           ==> old(variables).bufferedMoreFollows[sequenceNumber])
        && View() == old(View()).(vars := old(variables).(
             bufferedPayloads := old(variables).bufferedPayloads - {sequenceNumber},
             bufferedMoreFollows := old(variables).bufferedMoreFollows - {sequenceNumber}))
    {
      if sequenceNumber !in variables.bufferedPayloads {
        return [], false, false;
      }
      payload, ok := variables.bufferedPayloads[sequenceNumber], true;
      moreFollows := true;
      if sequenceNumber in variables.bufferedMoreFollows {
        moreFollows := variables.bufferedMoreFollows[sequenceNumber];
      }
      variables := variables.(bufferedPayloads := variables.bufferedPayloads - {sequenceNumber},
                              bufferedMoreFollows := variables.bufferedMoreFollows - {sequenceNumber});
    }

    /** Move the next expected segment, when it is buffered, to the reassembly buffer. */
    method ConsumeNext() returns (moreFollows: bool, ok: bool)
      modifies this
      ensures ok <==> old(variables).sequenceNumber in old(variables).bufferedPayloads
      ensures state == old(state)
      ensures variables == if ok then Consumed(old(variables)) else old(variables)
      ensures ok ==> moreFollows == MoreAfterNext(old(variables))
    {
      var payload: seq<byte>;
      payload, moreFollows, ok := TakeBufferedSegment(variables.sequenceNumber);
      if ok {
        variables := variables.(segmentBuffer := variables.segmentBuffer + payload);
        variables := variables.(lastSequenceNumber := variables.sequenceNumber);
        variables := variables.(sequenceNumber := Next(variables.sequenceNumber),
                                receivedInCurrentWindow := Next(variables.receivedInCurrentWindow),
                                segmentCount := (variables.segmentCount + 1) % 0x1_0000);
      }
    }

    method ConsumeContiguous() returns (consumed: byte, last: bool)
      modifies this
      ensures state == old(state)
      ensures var all := TakeContiguous(old(variables));
              variables == all.vars && last == all.last && consumed == all.count % 256
    {
      hide TakeContiguous, Consumed, MoreAfterNext;
      consumed, last := 0, false;
      ghost var taken := 0;
      while true
        invariant state == old(state) && consumed == taken % 256 && !last
        invariant TakeContiguous(old(variables)) == TakenBefore(taken, TakeContiguous(variables))
        decreases |variables.bufferedPayloads|
      {
        TakeUnfolds(variables, taken);
        var moreFollows, ok := ConsumeNext();
        if !ok {
          return;
        }
        NextCounts(consumed, taken);
        consumed := Next(consumed);
        taken := taken + 1;
        if !moreFollows {
          last := true;
          return;
        }
      }
    }

    method DrainContiguousSegmentBuffer() returns (out: MachineOutput)
      modifies this
      ensures Stepped(View(), Ok(out)) == Drain(old(View()))
    {
      var consumed, last := ConsumeContiguous();
      if consumed == 0 {
        return Silence;
      }
      variables := variables.(duplicateCount := 0);
      if last {
        state := AwaitResponse;
        return Sending(SendSegmentACK, SegmentAck(View(), variables.lastSequenceNumber, false));
      }
      if variables.receivedInCurrentWindow >= variables.actualWindowSize {
        variables := variables.(receivedInCurrentWindow := 0, initialSequenceNumber := variables.sequenceNumber);
        return Sending(SendSegmentACK, SegmentAck(View(), variables.lastSequenceNumber, false));
      }
      out := Silence;
    }

    method HandleInIdle(event: MachineEvent, input: MachineInput) returns (r: Result<MachineOutput, MachineError>)
      modifies this
      ensures Stepped(View(), r) == IdleStep(old(View()), event, input)
    {
      if event != InboundConfirmedRequest {
        return Err(InvalidStateTransition);
      }
      if input.inbound.Some? && input.inbound.value.segmentedMessage {
        var seg := input.inbound.value;
        if (cfg.segmentation != Receive && cfg.segmentation != Both) || seg.sequenceNumber != 0 {
          var out := AbortWith([]);
          return Ok(out);
        }
        var proposed := seg.proposedWindowSize;
        if proposed == 0 {
          proposed := 1;
        }
        variables := variables.(proposedWindowSize := proposed,
                                actualWindowSize := MinWindow(proposed, cfg.preferredWindow));
        variables := variables.(sequenceNumber := 0, initialSequenceNumber := 0, lastSequenceNumber := 0,
                                segmentCount := 0, duplicateCount := 0);
        variables := variables.(segmentBuffer := [], receivedInCurrentWindow := 0);
        state := SegmentedRequestReceiving;
        BufferSegment(seg.sequenceNumber, seg.payload, seg.moreFollows);
        var out := DrainContiguousSegmentBuffer();
        return Ok(out);
      }
      state := AwaitResponse;
      r := Ok(Silence);
    }

    method HandleInReceiving(event: MachineEvent, input: MachineInput) returns (r: Result<MachineOutput, MachineError>)
      modifies this
      ensures Stepped(View(), r) == ReceivingStep(old(View()), event, input)
    {
      match event
      case InboundConfirmedRequest =>
        if input.inbound.None? {
          return Err(InvalidStateTransition);
        }
        if input.inbound.value.sequenceNumber == 0 {
          var out := DuplicateSegmentOutput();
          return Ok(out);
        }
        r := Err(UnexpectedSequenceNumber);
      case InboundSegment =>
        if input.inbound.None? {
          return Err(InvalidStateTransition);
        }
        var seg := input.inbound.value;
        if seg.sequenceNumber == variables.sequenceNumber {
          BufferSegment(seg.sequenceNumber, seg.payload, seg.moreFollows);
          var out := DrainContiguousSegmentBuffer();
          return Ok(out);
        }
        if DuplicateInWindow(variables, seg.sequenceNumber) {
          var out := DuplicateSegmentOutput();
          return Ok(out);
        }
        r := Ok(Sending(SendSegmentACK, SegmentAck(View(), LastContiguous(variables), true)));
      case InboundAbort =>
        state := Aborted;
        r := Ok(Silence);
      case SegmentTimeout =>
        var out := AbortWith([REASON_TSM_TIMEOUT]);
        r := Ok(out);
      case Close =>
        state := Aborted;
        r := Ok(MachineOutput(FailClosed, None, []));
      case _ =>
        r := Err(InvalidStateTransition);
    }

    /** Build segments from offset start until the window or the response is used up. */
    method CollectWindow(start: nat, windowSize: byte)
      returns (apdus: seq<OutboundAPDU>, offset: nat, failed: bool)
      modifies this
      ensures state == old(state)
      ensures var w := WindowFrom(old(View()), old(variables).sequenceNumber, start, windowSize);
              && apdus == w.apdus && offset == w.next && failed == w.failed
              && variables == old(variables).(
                   lastSequenceNumber := if w.last.Some? then w.last.value else old(variables).lastSequenceNumber)
    {
      hide WindowFrom, PayloadLimit;
      var seqNo := variables.sequenceNumber;
      apdus, offset, failed := [], start, false;
      var i := 0;
      ghost var m := View();
      ghost var whole := WindowFrom(m, seqNo, start, windowSize);
      ghost var rest := whole;
      while i < windowSize && offset < |variables.responsePayload|
        invariant 0 <= i <= windowSize && state == old(state) && !failed
        invariant variables == old(variables).(lastSequenceNumber := variables.lastSequenceNumber)
        invariant rest == WindowFrom(m, seqNo, offset, windowSize - i)
        invariant whole.apdus == apdus + rest.apdus && whole.next == rest.next && whole.failed == rest.failed
        invariant (if whole.last.Some? then whole.last.value else old(variables).lastSequenceNumber)
                  == (if rest.last.Some? then rest.last.value else variables.lastSequenceNumber)
        decreases windowSize - i
      {
        var limit := PayloadLimit(cfg, seqNo);
        if limit <= 0 {
          WindowFails(m, seqNo, offset, windowSize - i);
          failed := true;
          return;
        }
        var end: nat := offset + limit;
        if end > |variables.responsePayload| {
          end := |variables.responsePayload|;
        }
        var segment := ResponseSegment(View(), seqNo, offset, end);
        assert segment == ResponseSegment(m, seqNo, offset, end) && end == SegmentEnd(m, seqNo, offset);
        WindowUnfolds(m, seqNo, offset, windowSize - i);
        apdus := apdus + [segment];
        offset := end;
        variables := variables.(lastSequenceNumber := seqNo);
        if end == |variables.responsePayload| {
          return;
        }
        seqNo := Next(seqNo);
        i := i + 1;
        rest := WindowFrom(m, seqNo, offset, windowSize - i);
      }
      WindowEnds(m, seqNo, offset, windowSize - i);
    }

    method BuildWindow() returns (r: Result<MachineOutput, MachineError>)
      modifies this
      ensures Stepped(View(), r) == SendWindow(old(View()))
    {
      var start := variables.responsePayloadOffset;
      if start >= |variables.responsePayload| {
        return Err(TransactionNotReady);
      }
      var windowSize := variables.actualWindowSize;
      if windowSize == 0 {
        windowSize := 1;
      }
      variables := variables.(initialSequenceNumber := variables.sequenceNumber);
      WindowIgnoresBookkeeping(old(View()), View(), variables.sequenceNumber, start, windowSize);
      var apdus, offset, failed := CollectWindow(start, windowSize);
      if failed {
        return Err(CannotSegment);
      }
      variables := variables.(responseNextOffset := offset,
                              sentAllSegments := offset == |variables.responsePayload|,
                              sequenceNumber := Next(variables.lastSequenceNumber));
      r := Ok(MachineOutput(SendComplexACK, Some(apdus[0]), apdus));
    }

    method HandleInAwaitResponse(event: MachineEvent, input: MachineInput)
      returns (r: Result<MachineOutput, MachineError>)
      modifies this
      ensures Stepped(View(), r) == AwaitResponseStep(old(View()), event, input)
    {
      match event
      case ResponseReady =>
        if input.handlerResult.None? {
          return Err(InvalidStateTransition);
        }
        var kind := ResponseKind(input);
        if kind.None? {
          return Err(InvalidStateTransition);
        }
        var payload := input.handlerResult.value;
        if MaxAPDUSizeExceeded(cfg, |payload|) {
          var out := AbortWith([REASON_APDU_TOO_LONG]);
          return Ok(out);
        }
        state := Completed;
        variables := WithResponse(variables, kind.value.0, |payload|);
        r := Ok(Sending(kind.value.1, Response(cfg, kind.value.0, payload)));
      case ResponseRequiresSegmentation =>
        if input.handlerResult.None? {
          return Err(InvalidStateTransition);
        }
        var t := if input.responseType.Some? then input.responseType.value else AckType;
        if CanSegmentResponse(cfg, t, |input.handlerResult.value|) {
          r := StartResponse(input.handlerResult.value);
        } else {
          var out := AbortWith([REASON_SEGMENTATION_NOT_SUPPORTED]);
          r := Ok(out);
        }
      case HandlerFailed =>
        state := Aborted;
        var t := if input.responseType.Some? then input.responseType.value else AbortType;
        var kind := ResponseKind(MachineInput(None, input.handlerResult, Some(t)));
        if kind.None? {
          return Err(InvalidStateTransition);
        }
        variables := WithResponse(variables, kind.value.0, 0);
        r := Ok(Sending(kind.value.1, Response(cfg, kind.value.0, [])));
      case CannotSend =>
        state := Aborted;
        r := Ok(MachineOutput(DeliverCannotSend, None, []));
      case Close =>
        state := Aborted;
        r := Ok(MachineOutput(FailClosed, None, []));
      case _ =>
        r := Err(InvalidStateTransition);
    }

    method StartResponse(payload: seq<byte>) returns (r: Result<MachineOutput, MachineError>)
      modifies this
      ensures Stepped(View(), r) == StartSegmentedResponse(old(View()), payload)
    {
      variables := variables.(responsePayload := payload, responsePayloadLength := |payload|);
      variables := variables.(responsePayloadOffset := 0, responseNextOffset := 0);
      variables := variables.(sequenceNumber := 0, initialSequenceNumber := 0, lastSequenceNumber := 0);
      variables := variables.(actualWindowSize := NegotiatedWindow(cfg), retryCount := 0, sentAllSegments := false);
      variables := WithResponse(variables, ComplexACK, |payload|);
      r := BuildWindow();
      if r.Ok? {
        state := AwaitSegmentACK;
      }
    }

    method RetryWindow() returns (r: Result<MachineOutput, MachineError>)
      modifies this
      ensures Stepped(View(), r) == Retry(old(View()))
    {
      if variables.retryCount < cfg.maxRetries {
        variables := variables.(retryCount := variables.retryCount + 1);
        variables := variables.(sequenceNumber := variables.initialSequenceNumber);
        r := BuildWindow();
      } else {
        var out := AbortWith([REASON_TSM_TIMEOUT]);
        r := Ok(out);
      }
    }

    method HandleInAwaitSegmentACK(event: MachineEvent, input: MachineInput)
      returns (r: Result<MachineOutput, MachineError>)
      modifies this
      ensures Stepped(View(), r) == AwaitSegmentACKStep(old(View()), event, input)
    {
      match event
      case InboundSegmentACK =>
        if input.inbound.None? {
          return Err(InvalidStateTransition);
        }
        var ack := input.inbound.value;
        if ack.actualWindowSize != 0 {
          variables := variables.(actualWindowSize := NormalizedWindow(cfg, ack.actualWindowSize));
        }
        if !ack.negativeAck && InWindow(variables, ack.sequenceNumber, variables.initialSequenceNumber) {
          if variables.sentAllSegments {
            state := Completed;
            return Ok(Silence);
          }
          variables := variables.(retryCount := 0);
          variables := variables.(responsePayloadOffset := variables.responseNextOffset);
          r := BuildWindow();
        } else {
          r := RetryWindow();
        }
      case Timeout =>
        r := RetryWindow();
      case CannotSend =>
        state := Aborted;
        r := Ok(MachineOutput(DeliverCannotSend, None, []));
      case Close =>
        state := Aborted;
        r := Ok(MachineOutput(FailClosed, None, []));
      case _ =>
        r := Err(InvalidStateTransition);
    }
  }
}
