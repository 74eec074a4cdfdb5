/** What a refusing transport does to the server tables: exactly which operations leave an entry
    whose machine is no longer what the table takes it for. */
module Refusals {
  import opened Wire
  import opened Apdu
  import opened MachineSpec
  import opened ServiceTables
  import opened Exchanges
  import Segmentation
  import Transmission

  // --- when sending is refused ---

  /** The transport refuses one of this many APDUs. */
  predicate RefusedWithin(failAt: Option<nat>, count: nat) {
    failAt.Some? && failAt.value < count
  }

  lemma {:induction false} PushedRefuses(apdus: seq<OutboundAPDU>, failAt: Option<nat>, from: nat)
    requires AllEncode(apdus) && from <= |apdus| && (failAt.Some? ==> from <= failAt.value)
    ensures Pushed(apdus, failAt, from)
            == if RefusedWithin(failAt, |apdus|) then Progress(failAt.value, Some(TransportFailure))
               else Progress(|apdus|, None)
    decreases |apdus| - from
  {
    hide Encode;
    if from < |apdus| {
      assert Encode(apdus[from]).Ok?;
      if failAt != Some(from) {
        PushedRefuses(apdus, failAt, from + 1);
      }
    }
  }

  /** An output is sent in full, as if the transport refused nothing, or its refusal tells the
      machine that it cannot send. */
  lemma EmissionExactly(cfg: AseConfig, t: Tables, c: Circumstances, m: Machine, output: MachineOutput)
    requires Deliverable(output)
    ensures var e := EmitIfAny(cfg, t, c, m, output);
            if output.outbound.Some? && RefusedWithin(c.failAt, |Sent(output)|) then
              e.err == Some(TransportFailure) && e.m == Step(m, CannotSend, NoInput).m
            else
              && e == EmitIfAny(cfg, t, c.(failAt := None), m, output) && e.err.None?
              && e.sent == if output.outbound.Some? then Sent(output) else []
  {
    hide Step, Encode, Put, EntryFor, Armed;
    if output.outbound.Some? {
      PushedRefuses(Sent(output), c.failAt, 0);
      PushedRefuses(Sent(output), None, 0);
    }
  }

  // --- requests ---

  /** One more duplicate exceeds the limit. */
  predicate BudgetSpent(m: Machine) {
    m.cfg.maxDuplicates != 0 && Saturated(m.vars.duplicateCount) > m.cfg.maxDuplicates
  }

  /** The awaited segment lets the machine consume everything up to the last one. */
  predicate Completes(m: Machine, a: InboundAPDU) {
    var taken := TakeContiguous(Buffered(m.vars, a.sequenceNumber, a.payload, a.moreFollows));
    taken.last && taken.count % 256 != 0
  }

  /** A segment that ends the reception, for better or worse: it comes too late, repeats once too
      often, or completes the request. */
  predicate EndsReceiving(m: Machine, a: InboundAPDU, now: int) {
    || Expired(m, now)
    || if a.sequenceNumber == 0 then BudgetSpent(m)
       else if a.sequenceNumber == m.vars.sequenceNumber then Completes(m, a)
       else DuplicateInWindow(m.vars, a.sequenceNumber) && BudgetSpent(m)
  }

  /** What the table does with a segment is to step the entry's machine by this event. */
  function EventFor(m: Machine, a: InboundAPDU, now: int): MachineEvent {
    if Expired(m, now) then SegmentTimeout
    else if a.sequenceNumber == 0 then InboundConfirmedRequest
    else InboundSegment
  }

  function InputFor(m: Machine, a: InboundAPDU, now: int): MachineInput {
    if Expired(m, now) then NoInput else In(a)
  }

  lemma DrainEnds(m: Machine)
    requires m.state == SegmentedRequestReceiving
    ensures var t := TakeContiguous(m.vars);
            var s := Drain(m);
            && (s.m.state != SegmentedRequestReceiving <==> t.last && t.count % 256 != 0)
            && s.result.Ok? && s.result.value.batch == []
            && (s.m.state != SegmentedRequestReceiving ==> s.result.value.outbound.Some?)
  {
    hide TakeContiguous;
  }

  lemma DuplicateEnds(m: Machine)
    requires m.state == SegmentedRequestReceiving
    ensures var s := DuplicateSegment(m);
            && (s.m.state != SegmentedRequestReceiving <==> BudgetSpent(m))
            && s.result.Ok? && s.result.value.outbound.Some? && s.result.value.batch == []
  {
  }

  /** A receiving machine leaves that state exactly on such a segment, and never silently. */
  lemma EndsExactly(m: Machine, a: InboundAPDU, now: int)
    requires m.state == SegmentedRequestReceiving
    ensures var s := Step(m, EventFor(m, a, now), InputFor(m, a, now));
            && Healthy(m, s) && s.m.state in {SegmentedRequestReceiving, AwaitResponse, Aborted}
            && (s.m.state != SegmentedRequestReceiving <==> EndsReceiving(m, a, now))
            && (s.m.state != SegmentedRequestReceiving ==> s.result.value.outbound.Some?)
            && s.result.value.batch == []
  {
    hide Drain, DuplicateSegment, BudgetSpent, Healthy, TakeContiguous, DuplicateInWindow;
    if Expired(m, now) {
      ExpiryIsHealthy(m);
    } else if a.sequenceNumber == 0 {
      RepeatIsHealthy(m, a);
      DuplicateEnds(m);
    } else {
      SegmentIsHealthy(m, a);
      DuplicateEnds(m);
      DrainEnds(m.(vars := Buffered(m.vars, a.sequenceNumber, a.payload, a.moreFollows)));
    }
  }

  /** After a refusal the entry is consistent exactly when its machine goes on receiving. */
  lemma RefusedMachine(m: Machine)
    requires m.state in {SegmentedRequestReceiving, AwaitResponse, Aborted}
    ensures var n := Step(m, CannotSend, NoInput).m;
            if m.state == SegmentedRequestReceiving then n == m else n.state == Aborted
  {
  }

  /** Only the entry of the segment's own exchange can become inconsistent. */
  lemma ContainedDecides(t: Tables, r: Served, key: Key, failAt: Option<nat>)
    requires Consistent(t) && Contained(t, r, key, failAt)
    ensures Consistent(r.t) <==> (key in r.t.inbound ==> InboundFits(key, r.t.inbound[key]))
  {
    hide InboundFits, OutboundsFit;
    forall k | k in r.t.inbound && k != key
      ensures InboundFits(k, r.t.inbound[k])
    {
      assert k in r.t.inbound - {key};
      assert (r.t.inbound - {key})[k] == (t.inbound - {key})[k];
    }
  }

  /** What becomes of the entry of an exchange whose machine took the step s. */
  predicate EntryAfter(key: Key, entry: InboundEntry, r: Served, s: Stepped, refused: bool) {
    if refused then key in r.t.inbound && r.t.inbound[key] == entry.(machine := Step(s.m, CannotSend, NoInput).m)
    else key in r.t.inbound ==> InboundFits(key, r.t.inbound[key])
  }

  lemma EntryDecides(key: Key, entry: InboundEntry, a: InboundAPDU, now: int, r: Served, refused: bool)
    requires InboundFits(key, entry)
    requires EntryAfter(key, entry, r,
                        Step(entry.machine, EventFor(entry.machine, a, now), InputFor(entry.machine, a, now)), refused)
    ensures (key in r.t.inbound ==> InboundFits(key, r.t.inbound[key]))
            <==> !(refused && EndsReceiving(entry.machine, a, now))
  {
    EndsExactly(entry.machine, a, now);
    var s := Step(entry.machine, EventFor(entry.machine, a, now), InputFor(entry.machine, a, now));
    RefusedMachine(s.m);
    hide Step, EndsReceiving, EventFor, InputFor;
  }

  /** The machine has something to say, and the transport does not take it. */
  predicate Refused(s: Stepped, failAt: Option<nat>) {
    s.result.Ok? && s.result.value.outbound.Some? && failAt == Some(0)
  }

  /** A healthy step with at most one APDU to send: refused, or carried out. */
  predicate EmitsOrRefused(cfg: AseConfig, t: Tables, c: Circumstances, s: Stepped) {
    && s.result.Ok?
    && var e := EmitIfAny(cfg, t, c, s.m, s.result.value);
       if Refused(s, c.failAt) then e.err.Some? && e.m == Step(s.m, CannotSend, NoInput).m
       else e.err.None? && e.m == s.m
  }

  lemma HealthyEmits(cfg: AseConfig, t: Tables, c: Circumstances, m: Machine, s: Stepped)
    requires Healthy(m, s) && s.m.state != AwaitSegmentACK && s.result.value.batch == []
    ensures EmitsOrRefused(cfg, t, c, s)
  {
    hide Step, Emit, Sendable, AllEncode;
    EmissionExactly(cfg, t, c, s.m, s.result.value);
    EmitReports(cfg, t, c, s.m, s.result.value);
  }

  lemma SegmentEmits(cfg: AseConfig, t: Tables, c: Circumstances, m: Machine, a: InboundAPDU)
    requires m.state == SegmentedRequestReceiving
    ensures var s := Step(m, EventFor(m, a, c.now), InputFor(m, a, c.now));
            Healthy(m, s) && EmitsOrRefused(cfg, t, c, s)
  {
    hide Step, EventFor, InputFor, EndsReceiving, EmitsOrRefused;
    EndsExactly(m, a, c.now);
    HealthyEmits(cfg, t, c, m, Step(m, EventFor(m, a, c.now), InputFor(m, a, c.now)));
  }

  lemma LateEntry(cfg: AseConfig, t: Tables, c: Circumstances, a: InboundAPDU)
    requires var key := Key(c.src, a.invokeID);
             Consistent(t) && key in t.inbound && Expired(t.inbound[key].machine, c.now)
    ensures var key := Key(c.src, a.invokeID);
            var m := t.inbound[key].machine;
            var s := Step(m, EventFor(m, a, c.now), InputFor(m, a, c.now));
            EntryAfter(key, t.inbound[key], LateSegment(cfg, t, c, key), s, Refused(s, c.failAt))
  {
    var key := Key(c.src, a.invokeID);
    assert InboundFits(key, t.inbound[key]);
    SegmentEmits(cfg, t, c, t.inbound[key].machine, a);
    hide Step, EmitIfAny, InboundFits, Healthy;
  }

  lemma RepeatEntry(cfg: AseConfig, t: Tables, c: Circumstances, a: InboundAPDU)
    requires var key := Key(c.src, a.invokeID);
             Consistent(t) && key in t.inbound && !Expired(t.inbound[key].machine, c.now) && a.sequenceNumber == 0
    ensures var key := Key(c.src, a.invokeID);
            var m := t.inbound[key].machine;
            var s := Step(m, EventFor(m, a, c.now), InputFor(m, a, c.now));
            EntryAfter(key, t.inbound[key], FirstRepeats(cfg, t, c, a), s, Refused(s, c.failAt))
  {
    var key := Key(c.src, a.invokeID);
    var entry := t.inbound[key];
    assert InboundFits(key, entry);
    SegmentEmits(cfg, t, c, entry.machine, a);
    RepeatIsHealthy(entry.machine, a);
    var s := Step(entry.machine, InboundConfirmedRequest, In(a));
    hide Step, EmitIfAny, Refreshed, InboundFits;
    assert s.m.cfg.invokeID == key.invokeID;
    if s.m.state == SegmentedRequestReceiving {
      RefreshedFits(cfg, key, entry, s.m, c.now);
    }
  }

  lemma NextEntry(cfg: AseConfig, t: Tables, c: Circumstances, a: InboundAPDU, handler: Handler)
    requires var key := Key(c.src, a.invokeID);
             Consistent(t) && key in t.inbound && !Expired(t.inbound[key].machine, c.now) && a.sequenceNumber != 0
    ensures var key := Key(c.src, a.invokeID);
            var m := t.inbound[key].machine;
            var s := Step(m, EventFor(m, a, c.now), InputFor(m, a, c.now));
            EntryAfter(key, t.inbound[key], SegmentContinues(cfg, t, c, a, handler), s, Refused(s, c.failAt))
  {
    var key := Key(c.src, a.invokeID);
    var entry := t.inbound[key];
    assert InboundFits(key, entry);
    SegmentEmits(cfg, t, c, entry.machine, a);
    SegmentIsHealthy(entry.machine, a);
    var s := Step(entry.machine, InboundSegment, In(a));
    var e := EmitIfAny(cfg, t, c, s.m, s.result.value);
    hide Step, EmitIfAny, Refreshed, InboundFits, AssembleAndDispatch;
    assert s.m.cfg.invokeID == key.invokeID;
    if Refused(s, c.failAt) {
    } else if s.m.state == SegmentedRequestReceiving {
      RefreshedFits(cfg, key, entry, s.m, c.now);
    } else if s.m.state == AwaitResponse {
      ReceivingEmits(cfg, t, c, entry.machine, s);
      AssembledKeeps(cfg, With(t, key, None, e.outbound), Since(c.(priority := entry.priority), |e.sent|), e.m,
                     entry.firstInbound, handler);
    }
  }

  /** Every inbound entry but the one addressed is as it was. */
  lemma SegmentContained(cfg: AseConfig, t: Tables, c: Circumstances, a: InboundAPDU, handler: Handler)
    requires Consistent(t) && a.segmentedMessage
    ensures Contained(t, SegmentArrives(cfg, t, c, a, handler), Key(c.src, a.invokeID), c.failAt)
  {
    hide LateSegment, FirstRepeats, FirstOpens, SegmentContinues, InboundFits, OutboundsFit;
    var key := Key(c.src, a.invokeID);
    if key in t.inbound && Expired(t.inbound[key].machine, c.now) {
      LateContained(cfg, t, c, key);
    } else if a.sequenceNumber == 0 {
      if key in t.inbound {
        RepeatContained(cfg, t, c, a);
      } else {
        OpeningContained(cfg, t, c, a, handler);
      }
    } else if key in t.inbound {
      ContinuingContained(cfg, t, c, a, handler);
    }
  }

  lemma RequestStrands(cfg: AseConfig, t: Tables, c: Circumstances, a: InboundAPDU, handler: Handler)
    requires Consistent(t)
    ensures Consistent(RequestArrives(cfg, t, c, a, handler).t) <==> !Strands(t, Request(c, a, handler))
  {
    var key := Key(c.src, a.invokeID);
    var r := RequestArrives(cfg, t, c, a, handler);
    if !a.segmentedMessage {
      UnsegmentedKeeps(cfg, t, c, a, handler);
      hide UnsegmentedArrives, InboundFits, OutboundsFit;
    } else {
      SegmentContained(cfg, t, c, a, handler);
      ContainedDecides(t, r, key, c.failAt);
      if key in t.inbound {
        AddressedStrands(cfg, t, c, a, handler);
        hide SegmentArrives, InboundFits, OutboundsFit, EndsReceiving, Consistent, Contained;
      } else {
        hide FirstOpens, InboundFits, OutboundsFit;
        if a.sequenceNumber == 0 {
          OpeningContained(cfg, t, c.(failAt := None), a, handler);
          OpeningFits(cfg, t, c, a, handler);
        }
      }
    }
  }

  lemma OpeningFits(cfg: AseConfig, t: Tables, c: Circumstances, a: InboundAPDU, handler: Handler)
    requires Consistent(t) && Key(c.src, a.invokeID) !in t.inbound && a.segmentedMessage
    ensures var key := Key(c.src, a.invokeID);
            var r := FirstOpens(cfg, t, c, a, handler);
            key in r.t.inbound ==> InboundFits(key, r.t.inbound[key])
  {
    var key := Key(c.src, a.invokeID);
    var m := NewMachine(MachineConfig(cfg, a));
    OpeningIsHealthy(MachineConfig(cfg, a), a);
    var s := Step(m, InboundConfirmedRequest, In(a));
    hide Step, EmitIfAny, NewMachine, Healthy, OutboundsFit, AssembleAndDispatch, Refreshed, InboundFits;
    assert s.result.Ok?;
    ReceivingEmits(cfg, t, c, m, s);
    var e := EmitIfAny(cfg, t, c, s.m, s.result.value);
    if e.err.None? && s.result.value.action != SendAbort {
      if e.m.state == AwaitResponse {
        AssembledKeeps(cfg, t.(outbound := e.outbound), Since(c, |e.sent|), e.m, a, handler);
      } else {
        RefreshedFits(cfg, key, InboundEntry(e.m, c.priority, a, 0), e.m, c.now);
      }
    }
  }

  lemma AddressedStrands(cfg: AseConfig, t: Tables, c: Circumstances, a: InboundAPDU, handler: Handler)
    requires Consistent(t) && Key(c.src, a.invokeID) in t.inbound && a.segmentedMessage
    ensures var key := Key(c.src, a.invokeID);
            var r := SegmentArrives(cfg, t, c, a, handler);
            (key in r.t.inbound ==> InboundFits(key, r.t.inbound[key])) <==> !Strands(t, Request(c, a, handler))
  {
    var key := Key(c.src, a.invokeID);
    var m := t.inbound[key].machine;
    assert InboundFits(key, t.inbound[key]);
    var s := Step(m, EventFor(m, a, c.now), InputFor(m, a, c.now));
    var r := SegmentArrives(cfg, t, c, a, handler);
    EndsExactly(m, a, c.now);
    hide InboundFits, Step, LateSegment, FirstRepeats, SegmentContinues, EndsReceiving, EventFor, InputFor, EntryAfter,
         Healthy;
    if Expired(m, c.now) {
      LateEntry(cfg, t, c, a);
    } else if a.sequenceNumber == 0 {
      RepeatEntry(cfg, t, c, a);
    } else {
      NextEntry(cfg, t, c, a, handler);
    }
    EntryDecides(key, t.inbound[key], a, c.now, r, Refused(s, c.failAt));
  }

  // --- Segment-ACKs ---

  /** How many APDUs a sending machine answers a Segment-ACK with, or its late arrival: the rest of
      the response up to a window after a positive acknowledgement, the same window again while
      retries last, or an abort. */
  function ReplyLength(m: Machine, ack: InboundAPDU, now: int): int {
    var late := Expired(m, now);
    var w := if late then m.vars.actualWindowSize else WindowAdopted(m, ack).vars.actualWindowSize;
    var n := SegmentCount(m.cfg, |m.vars.responsePayload|);
    if !late && Transmission.Acknowledges(m, ack) then Least(w, n - m.vars.sequenceNumber)
    else if m.vars.retryCount < m.cfg.maxRetries then Least(w, n - m.vars.initialSequenceNumber)
    else 1
  }

  function Least(a: int, b: int): int {
    if a < b then a else b
  }

  /** The operation meets a refusal that leaves an entry behind whose machine is finished. */
  predicate Strands(t: Tables, op: Operation) {
    match op
    case Request(c, a, handler) =>
      var key := Key(c.src, a.invokeID);
      a.segmentedMessage && key in t.inbound && c.failAt == Some(0) && EndsReceiving(t.inbound[key].machine, a, c.now)
    case Acknowledge(c, a) =>
      var key := Key(c.src, a.invokeID);
      key in t.outbound && !a.server
      && c.failAt.Some? && c.failAt.value < ReplyLength(t.outbound[key].machine, a, c.now)
    case Collect(_, _) => false
    case CloseDown => false
  }

  lemma WindowLength(m: Machine, c: Segmentation.Cutting)
    requires Transmission.Ready(m, c)
    ensures var s := SendWindow(m);
            && s.result.Ok? && s.result.value.outbound.Some? && s.m.state == m.state
            && |Sent(s.result.value)| == Least(m.vars.actualWindowSize, c.n - m.vars.sequenceNumber)
  {
    hide WindowFrom, Segmentation.Good, Segmentation.Boundary, Segmentation.CanonicalSegment;
    Transmission.SendWindowSends(m, c);
  }

  /** The step of a sending machine that has adopted the window size announced to it, if any. */
  function Reply(n: Machine, acknowledged: bool): Stepped {
    if !acknowledged then Retry(n)
    else if n.vars.sentAllSegments then Stepped(n.(state := Completed), Ok(Silence))
    else SendWindow(Transmission.Advanced(n))
  }

  lemma StepIsReply(m: Machine, a: InboundAPDU)
    requires m.state == AwaitSegmentACK
    ensures Step(m, Timeout, In(a)) == Reply(m, false)
    ensures Step(m, InboundSegmentACK, In(a)) == Reply(WindowAdopted(m, a), Transmission.Acknowledges(m, a))
  {
    hide SendWindow, Retry, InWindow, NormalizedWindow;
  }

  lemma WindowReply(n: Machine, acknowledged: bool)
    requires SendingResponse(n)
    ensures var s := Reply(n, acknowledged);
            s.result.Ok?
            && (if s.result.value.outbound.Some? then |Sent(s.result.value)| else 0)
               == (if acknowledged then Least(n.vars.actualWindowSize, CuttingFor(n).n - n.vars.sequenceNumber)
                   else if n.vars.retryCount < n.cfg.maxRetries
                   then Least(n.vars.actualWindowSize, CuttingFor(n).n - n.vars.initialSequenceNumber)
                   else 1)
            && s.m.state in {AwaitSegmentACK, Completed, Aborted}
            && (!acknowledged ==> s.result.value.outbound.Some?)
  {
    hide SendWindow, Segmentation.Good, Segmentation.Boundary, SegmentCount;
    if acknowledged {
      if !n.vars.sentAllSegments {
        WindowLength(Transmission.Advanced(n), CuttingFor(n));
      }
    } else if n.vars.retryCount < n.cfg.maxRetries {
      WindowLength(Transmission.Rewound(n), CuttingFor(n));
    }
  }

  lemma FinishedWhenRefused(m: Machine)
    requires m.state in {AwaitSegmentACK, Completed, Aborted}
    ensures Step(m, CannotSend, NoInput).m.state == Aborted
  {
  }

  /** What a sending machine answers with, and that it is finished when it cannot send it. */
  lemma ReplyExactly(m: Machine, a: InboundAPDU, now: int)
    requires SendingResponse(m)
    ensures var s := Step(m, if Expired(m, now) then Timeout else InboundSegmentACK, In(a));
            && Healthy(m, s)
            && ReplyLength(m, a, now) == (if s.result.value.outbound.Some? then |Sent(s.result.value)| else 0)
            && Step(s.m, CannotSend, NoInput).m.state == Aborted
            && (Expired(m, now) ==> s.result.value.outbound.Some?)
  {
    assert m.state == AwaitSegmentACK;
    hide Step, Reply, WindowAdopted, Transmission.Acknowledges, SendingResponse, SegmentCount, Healthy, Sent;
    TimeoutIsHealthy(m, In(a));
    AckIsHealthy(m, In(a));
    AdoptionKeepsSending(m, a);
    StepIsReply(m, a);
    var n := if Expired(m, now) then m else WindowAdopted(m, a);
    var acknowledged := !Expired(m, now) && Transmission.Acknowledges(m, a);
    WindowReply(n, acknowledged);
    FinishedWhenRefused(Reply(n, acknowledged).m);
  }

  lemma AdoptionKeepsSending(m: Machine, a: InboundAPDU)
    requires SendingResponse(m)
    ensures var n := WindowAdopted(m, a);
            && SendingResponse(n) && CuttingFor(n) == CuttingFor(m)
            && n.cfg == m.cfg && n.vars == m.vars.(actualWindowSize := n.vars.actualWindowSize)
            && CuttingFor(m).n == SegmentCount(m.cfg, |m.vars.responsePayload|)
  {
    hide Segmentation.Good, Segmentation.Boundary, SegmentCount;
  }

  /** A reply that is refused leaves an aborted machine in the table. */
  lemma AckRefused(cfg: AseConfig, t: Tables, c: Circumstances, a: InboundAPDU)
    requires Consistent(t) && Key(c.src, a.invokeID) in t.outbound && Strands(t, Acknowledge(c, a))
    ensures !Consistent(AckArrives(cfg, t, c, a).t)
  {
    var key := Key(c.src, a.invokeID);
    var entry := t.outbound[key];
    assert OutboundFits(key, entry);
    ReplyExactly(entry.machine, a, c.now);
    var s := Step(entry.machine, if Expired(entry.machine, c.now) then Timeout else InboundSegmentACK, In(a));
    hide Step, EmitIfAny, ReplyLength, SendingResponse, Deliverable, Sendable, EntryFor, Put, Sent, OutboundFits;
    EmissionExactly(cfg, t.(outbound := t.outbound[key := entry.(machine := s.m)]), c.(priority := entry.priority),
                    s.m, s.result.value);
    var r := AckArrives(cfg, t, c, a);
    assert key in r.t.outbound && r.t.outbound[key].machine.state == Aborted;
    AbortedDoesNotFit(key, r.t.outbound[key]);
  }

  lemma SameEmission(cfg: AseConfig, t: Tables, c: Circumstances, a: InboundAPDU, s: Stepped)
    requires Key(c.src, a.invokeID) in t.outbound && s.result.Ok?
    requires var m := t.outbound[Key(c.src, a.invokeID)].machine;
             s == Step(m, if Expired(m, c.now) then Timeout else InboundSegmentACK, In(a))
    requires var key := Key(c.src, a.invokeID);
             var entry := t.outbound[key];
             var t1 := t.(outbound := t.outbound[key := entry.(machine := s.m)]);
             var d := c.(priority := entry.priority);
             EmitIfAny(cfg, t1, d, s.m, s.result.value) == EmitIfAny(cfg, t1, d.(failAt := None), s.m, s.result.value)
    ensures AckArrives(cfg, t, c, a) == AckArrives(cfg, t, c.(failAt := None), a)
  {
    hide Step, EmitIfAny, EntryFor, Put;
  }

  /** A reply that is sent in full has the effect it has when nothing is refused. */
  lemma AckUnrefused(cfg: AseConfig, t: Tables, c: Circumstances, a: InboundAPDU)
    requires Consistent(t) && !Strands(t, Acknowledge(c, a))
    ensures AckArrives(cfg, t, c, a) == AckArrives(cfg, t, c.(failAt := None), a)
  {
    var key := Key(c.src, a.invokeID);
    if key in t.outbound && !a.server {
      var entry := t.outbound[key];
      assert OutboundFits(key, entry);
      ReplyExactly(entry.machine, a, c.now);
      var s := Step(entry.machine, if Expired(entry.machine, c.now) then Timeout else InboundSegmentACK, In(a));
      hide Step, EmitIfAny, ReplyLength, SendingResponse, Deliverable, Sendable, Sent, OutboundFits, AckArrives;
      EmissionExactly(cfg, t.(outbound := t.outbound[key := entry.(machine := s.m)]), c.(priority := entry.priority),
                      s.m, s.result.value);
      SameEmission(cfg, t, c, a, s);
    }
  }

  lemma AckStrands(cfg: AseConfig, t: Tables, c: Circumstances, a: InboundAPDU)
    requires Consistent(t)
    ensures Consistent(AckArrives(cfg, t, c, a).t) <==> !Strands(t, Acknowledge(c, a))
  {
    hide AckArrives, Consistent, ReplyLength;
    if Strands(t, Acknowledge(c, a)) {
      AckRefused(cfg, t, c, a);
    } else {
      AckUnrefused(cfg, t, c, a);
      AckKeepsConsistent(cfg, t, c.(failAt := None), a);
    }
  }

  lemma AbortedDoesNotFit(key: Key, e: OutboundEntry)
    requires e.machine.state == Aborted
    ensures !OutboundFits(key, e)
  {
  }

  // --- runs ---

  /** An operation keeps the tables consistent with their machines if and only if it meets no refusal
      where that ends an exchange already filed: on a segment that ends an open reception, or within
      the reply to a Segment-ACK for a response in progress. A refused acknowledgement in the middle of
      a request does no harm, and neither does one for an exchange that is only about to be filed. */
  lemma ConsistentExactly(cfg: AseConfig, t: Tables, op: Operation)
    requires Consistent(t)
    ensures Consistent(Apply(cfg, t, op).t) <==> !Strands(t, op)
  {
    match op {
      case Request(c, a, handler) => RequestStrands(cfg, t, c, a, handler);
      case Acknowledge(c, a) => AckStrands(cfg, t, c, a);
      case Collect(now, refusals) => CollectorKeepsConsistent(cfg, t, now, refusals);
      case CloseDown =>
    }
    hide RequestArrives, AckArrives, Collected, Consistent, EndsReceiving, ReplyLength;
  }

  predicate ConsistentThroughout(cfg: AseConfig, t: Tables, ops: seq<Operation>)
    decreases |ops|
  {
    Consistent(t) && (ops != [] ==> ConsistentThroughout(cfg, Apply(cfg, t, ops[0]).t, ops[1..]))
  }

  predicate NoneStrands(cfg: AseConfig, t: Tables, ops: seq<Operation>)
    decreases |ops|
  {
    ops == [] || (!Strands(t, ops[0]) && NoneStrands(cfg, Apply(cfg, t, ops[0]).t, ops[1..]))
  }

  /** Over a whole history the tables agree with their machines at every point if and only if no
      operation strands an entry. */
  lemma {:induction false} ConsistentThroughoutExactly(cfg: AseConfig, t: Tables, ops: seq<Operation>)
    requires Consistent(t)
    ensures ConsistentThroughout(cfg, t, ops) <==> NoneStrands(cfg, t, ops)
    decreases |ops|
  {
    hide Apply, Consistent, Strands;
    if ops != [] {
      ConsistentExactly(cfg, t, ops[0]);
      if !Strands(t, ops[0]) {
        ConsistentThroughoutExactly(cfg, Apply(cfg, t, ops[0]).t, ops[1..]);
      }
    }
  }
}
