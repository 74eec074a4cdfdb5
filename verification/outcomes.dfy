/** What each operation on the server tables comes to while the transport accepts everything: what goes
    on the wire, what is reported, and what the tables hold afterwards. */
module Outcomes {
  import opened Wire
  import opened Apdu
  import opened MachineSpec
  import opened ServiceTables
  import opened Exchanges
  import opened Refusals
  import opened Transmission
  import opened Agreement
  import opened Answers

  /** An output is sent in full; the entry of the exchange among the responses is filed anew or gone. */
  lemma EmitsOutput(cfg: AseConfig, t: Tables, c: Circumstances, m: Machine, output: MachineOutput)
    requires c.failAt.None? && Deliverable(output)
    ensures var e := EmitIfAny(cfg, t, c, m, output);
            && e.err.None? && e.sent == (if output.outbound.Some? then Sent(output) else [])
            && e.m == (if output.outbound.Some? then Armed(cfg, t.closed, m, c.now) else m)
            && var filed := EntryFor(cfg, t.closed, c.priority, m, c.now);
               e.outbound == if output.outbound.Some? then Put(t.outbound, Key(c.src, m.cfg.invokeID), filed)
                             else t.outbound
  {
    hide Emit, Sent, Encode, Put, EntryFor, Armed;
    if output.outbound.Some? {
      EmitsAll(cfg, t, c, m, output);
    }
  }

  /** Without an APDU of its own an output holds no others either. */
  lemma SilenceIsSilent(m: Machine, event: MachineEvent, input: MachineInput)
    ensures var s := Step(m, event, input);
            s.result.Ok? && s.result.value.outbound.None? ==> SentBy(s) == []
  {
    hide WindowFrom, TakeContiguous, CanSegmentResponse, MaxAPDUSizeExceeded, InWindow, NormalizedWindow;
  }

  /** A receiving machine's output, which leaves no response to file. */
  lemma EmitsWhileReceiving(cfg: AseConfig, t: Tables, c: Circumstances, m: Machine, event: MachineEvent,
                            input: MachineInput)
    requires c.failAt.None? && Healthy(m, Step(m, event, input)) && Step(m, event, input).m.state != AwaitSegmentACK
    ensures var s := Step(m, event, input);
            var e := EmitIfAny(cfg, t, c, s.m, s.result.value);
            && e.err.None? && e.m == s.m && e.sent == SentBy(s)
            && e.outbound == if SentBy(s) == [] then t.outbound else t.outbound - {Key(c.src, m.cfg.invokeID)}
  {
    var s := Step(m, event, input);
    SilenceIsSilent(m, event, input);
    hide Step, EmitIfAny, Encode;
    EmitsOutput(cfg, t, c, s.m, s.result.value);
  }

  // --- segments for an open exchange ---

  /** The tables with one inbound entry set or gone; responses under the same key are forgotten once
      something is sent for it. */
  function Settled(t: Tables, key: Key, entry: Option<InboundEntry>, sent: bool): Tables {
    Tables(t.closed, if entry.Some? then t.inbound[key := entry.value] else t.inbound - {key},
           if sent then t.outbound - {key} else t.outbound)
  }

  /** A segment after the deadline ends the exchange with an Abort, reason 10. */
  lemma LateSegmentEnds(cfg: AseConfig, t: Tables, c: Circumstances, a: InboundAPDU, handler: Handler)
    requires Consistent(t) && c.failAt.None? && a.segmentedMessage && Key(c.src, a.invokeID) in t.inbound
    requires c.now > t.inbound[Key(c.src, a.invokeID)].expiresAt
    ensures var key := Key(c.src, a.invokeID);
            var r := RequestArrives(cfg, t, c, a, handler);
            && Octets(r.sent, [0x71, a.invokeID, 10]) && r.dispatched.None? && r.err == Some(APDUTimeout)
            && r.t == Settled(t, key, None, true)
  {
    var key := Key(c.src, a.invokeID);
    assert InboundFits(key, t.inbound[key]);
    var m := t.inbound[key].machine;
    ExpiryIsHealthy(m);
    EmitsWhileReceiving(cfg, t, c, m, SegmentTimeout, NoInput);
    ReceivingAborts(m, SegmentTimeout, NoInput);
    hide Step, EmitIfAny, Encode, SegmentContinues, FirstRepeats, FirstOpens, Healthy;
  }

  /** The event a segment in time is. */
  function ArrivalOf(a: InboundAPDU): MachineEvent {
    if a.sequenceNumber == 0 then InboundConfirmedRequest else InboundSegment
  }

  lemma FiledIs(cfg: AseConfig, t: Tables, key: Key, entry: InboundEntry, m: Machine, now: int, sent: bool)
    ensures var deadline := now + cfg.segmentedRequestTimeout;
            var filed := InboundEntry(Timed(m, deadline), entry.priority, entry.firstInbound, deadline);
            With(t, key, Some(Refreshed(cfg, entry, m, now)), if sent then t.outbound - {key} else t.outbound)
            == Settled(t, key, Some(filed), sent)
  {
  }

  lemma EntryIsReceiving(t: Tables, key: Key, now: int)
    requires Consistent(t) && key in t.inbound
    ensures var entry := t.inbound[key];
            && entry.machine.state == SegmentedRequestReceiving && entry.machine.cfg.invokeID == key.invokeID
            && (Expired(entry.machine, now) <==> now > entry.expiresAt)
  {
    assert InboundFits(key, t.inbound[key]);
  }

  lemma ArrivalIsHealthy(m: Machine, a: InboundAPDU)
    requires m.state == SegmentedRequestReceiving
    ensures var s := Step(m, ArrivalOf(a), In(a)); Healthy(m, s) && s.result.Ok?
  {
    if a.sequenceNumber == 0 {
      RepeatIsHealthy(m, a);
    } else {
      SegmentIsHealthy(m, a);
    }
    hide Step;
  }

  lemma StaysOpen(cfg: AseConfig, t: Tables, c: Circumstances, a: InboundAPDU, handler: Handler, s: Stepped,
                  e: Emission)
    requires a.segmentedMessage && Key(c.src, a.invokeID) in t.inbound
    requires var entry := t.inbound[Key(c.src, a.invokeID)];
             && s == Step(entry.machine, ArrivalOf(a), In(a)) && s.result.Ok? && s.m.state == SegmentedRequestReceiving
             && e == EmitIfAny(cfg, t, c, s.m, s.result.value) && e.err.None? && e.m == s.m
             && !Expired(entry.machine, c.now)
    ensures var entry := t.inbound[Key(c.src, a.invokeID)];
            var filed := Some(Refreshed(cfg, entry, s.m, c.now));
            RequestArrives(cfg, t, c, a, handler)
            == Served(With(t, Key(c.src, a.invokeID), filed, e.outbound), e.sent, None, None)
  {
    hide Step, EmitIfAny, AssembleAndDispatch, With, Refreshed, Since;
  }

  /** A segment in time that leaves the exchange open: whatever the machine sends goes out, and the entry
      waits for another full interval. */
  lemma SegmentIsFiled(cfg: AseConfig, t: Tables, c: Circumstances, a: InboundAPDU, handler: Handler)
    requires Consistent(t) && c.failAt.None? && a.segmentedMessage && Key(c.src, a.invokeID) in t.inbound
    requires c.now <= t.inbound[Key(c.src, a.invokeID)].expiresAt
    requires Step(t.inbound[Key(c.src, a.invokeID)].machine, ArrivalOf(a), In(a)).m.state == SegmentedRequestReceiving
    ensures var key := Key(c.src, a.invokeID);
            var entry := t.inbound[key];
            var s := Step(entry.machine, ArrivalOf(a), In(a));
            var deadline := c.now + cfg.segmentedRequestTimeout;
            var filed := InboundEntry(Timed(s.m, deadline), entry.priority, entry.firstInbound, deadline);
            RequestArrives(cfg, t, c, a, handler)
            == Served(Settled(t, key, Some(filed), SentBy(s) != []), SentBy(s), None, None)
  {
    hide Step, EmitIfAny, With, Refreshed, Settled, SentBy, Timed, RequestArrives, Consistent, Healthy, Expired;
    var key := Key(c.src, a.invokeID);
    var entry := t.inbound[key];
    EntryIsReceiving(t, key, c.now);
    var s := Step(entry.machine, ArrivalOf(a), In(a));
    ArrivalIsHealthy(entry.machine, a);
    FiledIs(cfg, t, key, entry, s.m, c.now, SentBy(s) != []);
    EmitsWhileReceiving(cfg, t, c, entry.machine, ArrivalOf(a), In(a));
    StaysOpen(cfg, t, c, a, handler, s, EmitIfAny(cfg, t, c, s.m, s.result.value));
  }

  lemma EmptySettles(cfg: AseConfig, t: Tables, c: Circumstances, a: InboundAPDU, handler: Handler, s: Stepped,
                     e: Emission)
    requires a.segmentedMessage && a.sequenceNumber != 0 && Key(c.src, a.invokeID) in t.inbound
    requires var entry := t.inbound[Key(c.src, a.invokeID)];
             && s == Step(entry.machine, InboundSegment, In(a)) && s.result.Ok?
             && s.m.state == AwaitResponse && s.m.vars.segmentBuffer == []
             && e == EmitIfAny(cfg, t, c, s.m, s.result.value) && e.err.None? && e.m == s.m
             && !Expired(entry.machine, c.now)
    ensures RequestArrives(cfg, t, c, a, handler)
            == Served(With(t, Key(c.src, a.invokeID), None, e.outbound), e.sent, None, Some(NotReady))
  {
    assert e.sent + [] == e.sent;
    hide Step, EmitIfAny, Dispatch, With, Refreshed, Since;
  }

  /** The last segment of a request that turns out to be empty is acknowledged, and the request reported as
      not ready and forgotten. */
  lemma EmptyIsNotReady(cfg: AseConfig, t: Tables, c: Circumstances, a: InboundAPDU, handler: Handler)
    requires Consistent(t) && c.failAt.None? && a.segmentedMessage && a.sequenceNumber != 0
    requires Key(c.src, a.invokeID) in t.inbound && c.now <= t.inbound[Key(c.src, a.invokeID)].expiresAt
    requires var s := Step(t.inbound[Key(c.src, a.invokeID)].machine, InboundSegment, In(a));
             s.m.state == AwaitResponse && s.m.vars.segmentBuffer == []
    ensures var key := Key(c.src, a.invokeID);
            var s := Step(t.inbound[key].machine, InboundSegment, In(a));
            RequestArrives(cfg, t, c, a, handler)
            == Served(Settled(t, key, None, SentBy(s) != []), SentBy(s), None, Some(NotReady))
  {
    hide Step, EmitIfAny, SentBy, RequestArrives, Consistent, Healthy, Expired;
    var key := Key(c.src, a.invokeID);
    var entry := t.inbound[key];
    EntryIsReceiving(t, key, c.now);
    var s := Step(entry.machine, InboundSegment, In(a));
    ArrivalIsHealthy(entry.machine, a);
    EmitsWhileReceiving(cfg, t, c, entry.machine, InboundSegment, In(a));
    EmptySettles(cfg, t, c, a, handler, s, EmitIfAny(cfg, t, c, s.m, s.result.value));
  }

  /** One duplicate too many ends it with an Abort, reason 2. */
  lemma TooManyDuplicatesEnd(cfg: AseConfig, t: Tables, c: Circumstances, a: InboundAPDU, handler: Handler)
    requires Consistent(t) && c.failAt.None? && a.segmentedMessage && Key(c.src, a.invokeID) in t.inbound
    requires c.now <= t.inbound[Key(c.src, a.invokeID)].expiresAt
    requires Step(t.inbound[Key(c.src, a.invokeID)].machine, ArrivalOf(a), In(a)).m.state == Aborted
    ensures var r := RequestArrives(cfg, t, c, a, handler);
            && Octets(r.sent, [0x71, a.invokeID, 2]) && r.dispatched.None? && r.err == Some(SegmentationUnsupported)
            && r.t == Settled(t, Key(c.src, a.invokeID), None, true)
  {
    var key := Key(c.src, a.invokeID);
    var entry := t.inbound[key];
    assert InboundFits(key, entry);
    DuplicateSendsAbort(entry.machine, ArrivalOf(a), a);
    ReceivingAborts(entry.machine, ArrivalOf(a), In(a));
    hide Step, EmitIfAny, Encode, Healthy, AssembleAndDispatch, SendsAbort;
    if a.sequenceNumber == 0 {
      RepeatIsHealthy(entry.machine, a);
      EmitsWhileReceiving(cfg, t, c, entry.machine, InboundConfirmedRequest, In(a));
    } else {
      SegmentIsHealthy(entry.machine, a);
      EmitsWhileReceiving(cfg, t, c, entry.machine, InboundSegment, In(a));
    }
  }

  lemma DuplicateSendsAbort(m: Machine, event: MachineEvent, a: InboundAPDU)
    requires m.state == SegmentedRequestReceiving && event in {InboundConfirmedRequest, InboundSegment}
    requires Step(m, event, In(a)).m.state == Aborted
    ensures Step(m, event, In(a)).result.value.action == SendAbort
  {
    var n := m.(vars := Buffered(m.vars, a.sequenceNumber, a.payload, a.moreFollows));
    DrainKeepsGoing(n);
    DuplicateAction(m);
    hide Drain, SendsAbort, DuplicateSegment, DuplicateInWindow, Buffered;
  }

  lemma DuplicateAction(m: Machine)
    requires m.state == SegmentedRequestReceiving
    ensures var s := DuplicateSegment(m);
            s.result.Ok? && (s.m.state == Aborted ==> s.result.value.action == SendAbort)
  {
  }

  // --- segments without one ---

  /** A continuation nobody waits for is refused without a word. */
  lemma StraySegmentIsRefused(cfg: AseConfig, t: Tables, c: Circumstances, a: InboundAPDU, handler: Handler)
    requires a.segmentedMessage && Key(c.src, a.invokeID) !in t.inbound && a.sequenceNumber != 0
    ensures RequestArrives(cfg, t, c, a, handler) == Served(t, [], None, Some(UnexpectedPDU))
  {
  }

  /** An element that cannot receive segments answers a first one with an Abort, reason 0. */
  lemma UnsupportedIsRefused(cfg: AseConfig, t: Tables, c: Circumstances, a: InboundAPDU, handler: Handler)
    requires a.segmentedMessage && Key(c.src, a.invokeID) !in t.inbound && a.sequenceNumber == 0 && c.failAt.None?
    requires cfg.segmentation != Receive && cfg.segmentation != Both
    ensures var key := Key(c.src, a.invokeID);
            var r := RequestArrives(cfg, t, c, a, handler);
            && Octets(r.sent, [0x71, a.invokeID, 0]) && r.dispatched.None? && r.err == Some(SegmentationUnsupported)
            && r.t == Tables(t.closed, t.inbound, t.outbound - {key})
  {
    var m := NewMachine(MachineConfig(cfg, a));
    OpeningIsHealthy(MachineConfig(cfg, a), a);
    IdleAborts(m, InboundConfirmedRequest, In(a));
    EmitsWhileReceiving(cfg, t, c, m, InboundConfirmedRequest, In(a));
    hide Step, EmitIfAny, Encode, Healthy, AssembleAndDispatch, SendsAbort;
  }

  lemma Opens(cfg: AseConfig, t: Tables, c: Circumstances, a: InboundAPDU, handler: Handler, s: Stepped, e: Emission)
    requires a.segmentedMessage && Key(c.src, a.invokeID) !in t.inbound && a.sequenceNumber == 0
    requires s == Step(NewMachine(MachineConfig(cfg, a)), InboundConfirmedRequest, In(a))
    requires s.result.Ok? && s.result.value.action != SendAbort && s.m.state == SegmentedRequestReceiving
    requires e == EmitIfAny(cfg, t, c, s.m, s.result.value) && e.err.None? && e.m == s.m
    ensures RequestArrives(cfg, t, c, a, handler)
            == Served(With(t, Key(c.src, a.invokeID),
                           Some(Refreshed(cfg, InboundEntry(s.m, c.priority, a, 0), s.m, c.now)), e.outbound),
                      e.sent, None, None)
  {
    hide Step, EmitIfAny, AssembleAndDispatch, With, Refreshed, Since, NewMachine;
  }

  /** A first segment with more to come opens an exchange that waits for one interval. */
  lemma FirstSegmentOpens(cfg: AseConfig, t: Tables, c: Circumstances, a: InboundAPDU, handler: Handler)
    requires a.segmentedMessage && Key(c.src, a.invokeID) !in t.inbound && a.sequenceNumber == 0 && c.failAt.None?
    requires var s := Step(NewMachine(MachineConfig(cfg, a)), InboundConfirmedRequest, In(a));
             s.m.state == SegmentedRequestReceiving
    ensures var s := Step(NewMachine(MachineConfig(cfg, a)), InboundConfirmedRequest, In(a));
            var deadline := c.now + cfg.segmentedRequestTimeout;
            var filed := InboundEntry(Timed(s.m, deadline), c.priority, a, deadline);
            RequestArrives(cfg, t, c, a, handler)
            == Served(Settled(t, Key(c.src, a.invokeID), Some(filed), SentBy(s) != []), SentBy(s), None, None)
  {
    hide Step, EmitIfAny, With, Refreshed, Settled, SentBy, Timed, RequestArrives, NewMachine, Healthy, MachineConfig;
    var m := NewMachine(MachineConfig(cfg, a));
    NewMachineIs(cfg, a);
    OpeningIsHealthy(MachineConfig(cfg, a), a);
    OpeningSendsNoAbort(m, a);
    var s := Step(m, InboundConfirmedRequest, In(a));
    FiledIs(cfg, t, Key(c.src, a.invokeID), InboundEntry(s.m, c.priority, a, 0), s.m, c.now, SentBy(s) != []);
    EmitsWhileReceiving(cfg, t, c, m, InboundConfirmedRequest, In(a));
    Opens(cfg, t, c, a, handler, s, EmitIfAny(cfg, t, c, s.m, s.result.value));
  }

  lemma NewMachineIs(cfg: AseConfig, a: InboundAPDU)
    ensures var m := NewMachine(MachineConfig(cfg, a)); m.state == Idle && m.cfg.invokeID == a.invokeID
  {
  }

  lemma OpeningSendsNoAbort(m: Machine, a: InboundAPDU)
    requires m.state == Idle && a.segmentedMessage
    requires Step(m, InboundConfirmedRequest, In(a)).m.state == SegmentedRequestReceiving
    ensures var s := Step(m, InboundConfirmedRequest, In(a)); s.result.Ok? && s.result.value.action != SendAbort
  {
    hide TakeContiguous;
  }

  // --- Segment-ACKs ---

  /** A Segment-ACK for nothing that is being sent, or from a server, is refused without a word. */
  lemma StrayAckIsRefused(cfg: AseConfig, t: Tables, c: Circumstances, a: InboundAPDU)
    requires Key(c.src, a.invokeID) !in t.outbound || a.server
    ensures AckArrives(cfg, t, c, a) == Served(t, [], None, Some(UnexpectedPDU))
  {
  }

  /** What is filed after a machine has sent what it had to. */
  function Refiled(cfg: AseConfig, t: Tables, key: Key, m: Machine, priority: byte, now: int): map<Key, OutboundEntry> {
    var deadline := now + cfg.segmentedRequestTimeout;
    if m.state == AwaitSegmentACK && !t.closed
    then t.outbound[key := OutboundEntry(Timed(m, deadline), priority, deadline)] else t.outbound - {key}
  }

  lemma RefiledIs(cfg: AseConfig, t: Tables, key: Key, m: Machine, priority: byte, now: int)
    ensures Put(t.outbound, key, EntryFor(cfg, t.closed, priority, m, now)) == Refiled(cfg, t, key, m, priority, now)
  {
  }

  /** A Segment-ACK for a response in progress moves its machine, as an acknowledgement when it is in time
      and as a timeout when it is not; whatever the machine sends goes out, and the response is filed with a
      new deadline while it goes on, and forgotten when it is over. */
  lemma AckIsServed(cfg: AseConfig, t: Tables, c: Circumstances, a: InboundAPDU)
    requires Consistent(t) && c.failAt.None? && Key(c.src, a.invokeID) in t.outbound && !a.server
    ensures var key := Key(c.src, a.invokeID);
            var entry := t.outbound[key];
            var late := c.now > entry.expiresAt;
            var s := Step(entry.machine, if late then Timeout else InboundSegmentACK, In(a));
            var r := AckArrives(cfg, t, c, a);
            && r.sent == SentBy(s) && r.dispatched.None? && r.err == (if late then Some(APDUTimeout) else None)
            && r.t == t.(outbound := Refiled(cfg, t, key, s.m, entry.priority, c.now))
  {
    var key := Key(c.src, a.invokeID);
    var entry := t.outbound[key];
    assert OutboundFits(key, entry);
    var late := Expired(entry.machine, c.now);
    var event := if late then Timeout else InboundSegmentACK;
    var s := Step(entry.machine, event, In(a));
    SilenceIsSilent(entry.machine, event, In(a));
    TimeoutIsHealthy(entry.machine, In(a));
    AckIsHealthy(entry.machine, In(a));
    var t1 := t.(outbound := t.outbound[key := entry.(machine := s.m)]);
    var d := c.(priority := entry.priority);
    hide Step, EmitIfAny, Encode, SendingResponse, Sendable, Sent, Put, EntryFor, Armed, Deliverable, Refiled;
    EmitsOutput(cfg, t1, d, s.m, s.result.value);
    RefiledIs(cfg, t, key, s.m, entry.priority, c.now);
    PutPut(t.outbound, key, entry.(machine := s.m), EntryFor(cfg, t.closed, entry.priority, s.m, c.now));
    FinishedIsGone(cfg, t, key, s.m, entry.priority, c.now);
  }

  lemma FinishedIsGone(cfg: AseConfig, t: Tables, key: Key, m: Machine, priority: byte, now: int)
    ensures m.state != AwaitSegmentACK ==>
              Refiled(cfg, t, key, m, priority, now) - {key} == Refiled(cfg, t, key, m, priority, now)
    ensures Armed(cfg, t.closed, m, now).state == m.state
  {
  }

  // --- the collector ---

  lemma TimeoutReply(m: Machine)
    requires SendingResponse(m)
    ensures var s := Step(m, Timeout, NoInput);
            && Healthy(m, s) && s.result.Ok? && s.result.value.outbound.Some? && SentBy(s) == Sent(s.result.value)
            && (s.m.state == AwaitSegmentACK <==> m.vars.retryCount < m.cfg.maxRetries)
            && (m.vars.retryCount >= m.cfg.maxRetries ==> AbortsWith(s, m.cfg.invokeID, 10))
  {
    assert m.state == AwaitSegmentACK;
    TimeoutIsRetry(m);
    TimeoutIsHealthy(m, NoInput);
    RetryAborts(m);
    hide Step, Retry, AbortsWith, SendsAbort, SendingResponse, Sendable, AllEncode, Sent;
    if m.vars.retryCount < m.cfg.maxRetries {
      RetryGoesOn(m);
    } else {
      AbortingEnds(Retry(m), m.cfg.invokeID);
    }
  }

  lemma TimeoutIsRetry(m: Machine)
    requires m.state == AwaitSegmentACK
    ensures Step(m, Timeout, NoInput) == Retry(m)
  {
    hide Retry;
  }

  lemma AbortingEnds(s: Stepped, id: byte)
    requires AbortsWith(s, id, 10)
    ensures s.m.state == Aborted
  {
    hide Encode;
  }

  lemma RetryGoesOn(m: Machine)
    requires m.state == AwaitSegmentACK && m.vars.retryCount < m.cfg.maxRetries
    ensures Retry(m).m.state == AwaitSegmentACK
  {
    WindowIsNoAck(Rewound(m));
    hide SendWindow, NoAcks, AllSegments;
  }

  /** What the collector does with one expired response: its machine sees the timeout. */
  lemma LateResponse(cfg: AseConfig, t: Tables, now: int, k: Key)
    requires Consistent(t) && k in t.outbound
    ensures var entry := t.outbound[k];
            var s := Step(entry.machine, Timeout, NoInput);
            var deadline := now + cfg.segmentedRequestTimeout;
            var e := Late(cfg, t, now, map[], k);
            && e.sent == SentBy(s)
            && (k in e.outbound <==> entry.machine.vars.retryCount < entry.machine.cfg.maxRetries && !t.closed)
            && (k in e.outbound ==> e.outbound[k] == OutboundEntry(Timed(s.m, deadline), entry.priority, deadline))
            && (entry.machine.vars.retryCount >= entry.machine.cfg.maxRetries ==>
                  Octets(e.sent, [0x71, k.invokeID, 10]))
  {
    var entry := t.outbound[k];
    assert OutboundFits(k, entry);
    var m := entry.machine;
    var s := Step(m, Timeout, NoInput);
    var u, d := Tables(t.closed, map[], map[]), Circumstances(k.src, entry.priority, now, None);
    hide Step, EmitIfAny, Encode, SendingResponse, Sendable, Sent, Put, EntryFor, Armed, Deliverable, Refiled;
    TimeoutReply(m);
    EmitsOutput(cfg, u, d, s.m, s.result.value);
    RefiledIs(cfg, u, k, s.m, entry.priority, now);
    RefiledAlone(cfg, u, k, s.m, entry.priority, now);
  }

  lemma RefiledAlone(cfg: AseConfig, u: Tables, k: Key, m: Machine, priority: byte, now: int)
    requires u.outbound == map[]
    ensures var deadline := now + cfg.segmentedRequestTimeout;
            var filed := Refiled(cfg, u, k, m, priority, now);
            && (k in filed <==> m.state == AwaitSegmentACK && !u.closed)
            && (k in filed ==> filed[k] == OutboundEntry(Timed(m, deadline), priority, deadline))
  {
  }

  /** One tick of the collector: a request is dropped once its deadline and the grace period lie before now,
      silently. A response is left alone until its deadline has passed; then its window is sent again and its
      deadline renewed while retries last, and otherwise it is dropped with an Abort, reason 10. */
  lemma CollectorExactly(cfg: AseConfig, t: Tables, now: int, k: Key)
    requires Consistent(t)
    ensures var u := Collected(cfg, t, now, map[]);
            && (k in u.inbound <==> k in t.inbound && now <= t.inbound[k].expiresAt + cfg.gracePeriod)
            && (k in u.inbound ==> u.inbound[k] == t.inbound[k])
    ensures var sends := CollectorSends(cfg, t, now, map[], {});
            && (k in sends <==> k in t.outbound && now > t.outbound[k].expiresAt)
            && (k in sends ==> sends[k] == SentBy(Step(t.outbound[k].machine, Timeout, NoInput)))
    ensures k in t.outbound ==>
              var entry := t.outbound[k];
              var spent := entry.machine.vars.retryCount >= entry.machine.cfg.maxRetries;
              var deadline := now + cfg.segmentedRequestTimeout;
              var u := Collected(cfg, t, now, map[]);
              if now <= entry.expiresAt then k in u.outbound && u.outbound[k] == entry
              else
                && (k in u.outbound <==> !spent && !t.closed)
                && (k in u.outbound ==>
                      u.outbound[k] == OutboundEntry(Timed(Step(entry.machine, Timeout, NoInput).m, deadline),
                                                     entry.priority, deadline))
                && (spent ==> Octets(CollectorSends(cfg, t, now, map[], {})[k], [0x71, k.invokeID, 10]))
    ensures k !in t.outbound ==> k !in Collected(cfg, t, now, map[]).outbound
  {
    hide Late, Octets, Step, OutboundFits, InboundFits;
    if k in t.outbound {
      LateResponse(cfg, t, now, k);
    }
  }

  // --- a closed element ---

  lemma ClosedEmits(cfg: AseConfig, t: Tables, c: Circumstances, m: Machine, output: MachineOutput)
    requires t.closed && t.outbound == map[]
    ensures Emit(cfg, t, c, m, output).outbound == map[] && EmitIfAny(cfg, t, c, m, output).outbound == map[]
  {
    hide Step, Encode, Sent, Pushed;
  }

  /** The element is closed and holds no response. */
  predicate Quiet(t: Tables) {
    t.closed && t.outbound == map[]
  }

  lemma ClosedDispatches(cfg: AseConfig, t: Tables, c: Circumstances, m: Machine, a: InboundAPDU, handler: Handler)
    requires Quiet(t)
    ensures Quiet(Dispatch(cfg, t, c, m, a, handler).t)
  {
    var rt := if handler.NotRegistered? || handler.Answers? then RejectType else ErrorType;
    var f := Step(m, HandlerFailed, MachineInput(None, None, Some(rt)));
    if f.result.Ok? {
      ClosedEmits(cfg, t, c, f.m, f.result.value);
    }
    if handler.Answers? {
      var long := MaxAPDUSizeExceeded(m.cfg, |handler.payload|);
      var s := Step(m, if long then ResponseRequiresSegmentation else ResponseReady,
                    MachineInput(None, Some(handler.payload), Some(handler.responseType)));
      if s.result.Ok? {
        ClosedEmits(cfg, t, c, s.m, s.result.value);
      }
    }
    hide Step, Emit, MaxAPDUSizeExceeded;
  }

  lemma ClosedOpens(cfg: AseConfig, t: Tables, c: Circumstances, a: InboundAPDU, handler: Handler)
    requires Quiet(t)
    ensures Quiet(FirstOpens(cfg, t, c, a, handler).t)
  {
    var s := Step(NewMachine(MachineConfig(cfg, a)), InboundConfirmedRequest, In(a));
    hide Step, EmitIfAny, Dispatch, NewMachine, Refreshed;
    if s.result.Ok? {
      ClosedEmits(cfg, t, c, s.m, s.result.value);
      var e := EmitIfAny(cfg, t, c, s.m, s.result.value);
      ClosedDispatches(cfg, t.(outbound := e.outbound), Since(c, |e.sent|), e.m,
                       Assembled(a, e.m.vars.segmentBuffer), handler);
    }
  }

  lemma ClosedContinues(cfg: AseConfig, t: Tables, c: Circumstances, a: InboundAPDU, handler: Handler)
    requires Quiet(t) && Key(c.src, a.invokeID) in t.inbound
    ensures Quiet(SegmentContinues(cfg, t, c, a, handler).t)
  {
    var key := Key(c.src, a.invokeID);
    var entry := t.inbound[key];
    var s := Step(entry.machine, InboundSegment, In(a));
    hide Step, EmitIfAny, Dispatch, Refreshed;
    if s.result.Ok? {
      ClosedEmits(cfg, t, c, s.m, s.result.value);
      var e := EmitIfAny(cfg, t, c, s.m, s.result.value);
      ClosedDispatches(cfg, With(t, key, None, e.outbound), Since(c.(priority := entry.priority), |e.sent|), e.m,
                       Assembled(entry.firstInbound, e.m.vars.segmentBuffer), handler);
    }
  }

  lemma ClosedRepeats(cfg: AseConfig, t: Tables, c: Circumstances, a: InboundAPDU)
    requires Quiet(t) && Key(c.src, a.invokeID) in t.inbound
    ensures Quiet(FirstRepeats(cfg, t, c, a).t) && Quiet(LateSegment(cfg, t, c, Key(c.src, a.invokeID)).t)
  {
    var entry := t.inbound[Key(c.src, a.invokeID)];
    var s, l := Step(entry.machine, InboundConfirmedRequest, In(a)), Step(entry.machine, SegmentTimeout, NoInput);
    hide Step, EmitIfAny, Refreshed;
    if s.result.Ok? {
      ClosedEmits(cfg, t, c, s.m, s.result.value);
    }
    if l.result.Ok? {
      ClosedEmits(cfg, t, c, l.m, l.result.value);
    }
  }

  lemma ClosedServes(cfg: AseConfig, t: Tables, op: Operation)
    requires Quiet(t)
    ensures Quiet(Apply(cfg, t, op).t)
  {
    hide LateSegment, FirstRepeats, FirstOpens, SegmentContinues, Dispatch, Step, Quiet;
    if op.Request? {
      var s := Step(NewMachine(MachineConfig(cfg, op.a)), InboundConfirmedRequest, In(op.a));
      ClosedDispatches(cfg, t, op.c, s.m, op.a, op.handler);
      ClosedOpens(cfg, t, op.c, op.a, op.handler);
      if Key(op.c.src, op.a.invokeID) in t.inbound {
        ClosedRepeats(cfg, t, op.c, op.a);
        ClosedContinues(cfg, t, op.c, op.a, op.handler);
      }
    } else {
      ClosedRest(cfg, t, op);
    }
  }

  lemma ClosedRest(cfg: AseConfig, t: Tables, op: Operation)
    requires Quiet(t) && !op.Request?
    ensures Quiet(Apply(cfg, t, op).t)
  {
    hide Late;
  }

  /** Once closed, always closed; and whatever is asked of a closed element, it never has a response in
      progress again. */
  lemma ClosedForGood(cfg: AseConfig, t: Tables, ops: seq<Operation>)
    requires t.closed ==> t.outbound == map[]
    ensures var u := RunTables(cfg, Closed(t), ops); u.closed && u.outbound == map[]
  {
    StaysQuiet(cfg, Closed(t), ops);
  }

  lemma {:induction false} StaysQuiet(cfg: AseConfig, t: Tables, ops: seq<Operation>)
    requires Quiet(t)
    ensures Quiet(RunTables(cfg, t, ops))
    decreases |ops|
  {
    hide Apply, Quiet;
    if ops != [] {
      ClosedServes(cfg, t, ops[0]);
      StaysQuiet(cfg, Apply(cfg, t, ops[0]).t, ops[1..]);
    }
  }
}
