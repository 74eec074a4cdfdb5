/** Whole runs of the application service element's server tables: the consistency of the tables
    with their machines, and that a segmented request is handed over only as it was sent. */
module Exchanges {
  import opened Wire
  import opened Apdu
  import opened MachineSpec
  import opened ServiceTables
  import Segmentation
  import Transmission

  // --- what one event does to a machine in a table ---

  predicate AllEncode(apdus: seq<OutboundAPDU>) {
    forall i :: 0 <= i < |apdus| ==> Encode(apdus[i]).Ok?
  }

  /** The cutting of the response a machine is sending. */
  function CuttingFor(m: Machine): Segmentation.Cutting {
    Segmentation.Cutting(PayloadLimit(m.cfg, 0), PayloadLimit(m.cfg, 1), m.vars.responsePayload,
                         if SegmentCount(m.cfg, |m.vars.responsePayload|) < 0 then 0
                         else SegmentCount(m.cfg, |m.vars.responsePayload|))
  }

  predicate SendingResponse(m: Machine) {
    m.state == AwaitSegmentACK && Transmission.Sending(m, CuttingFor(m))
  }

  /** A machine may be kept in the outbound table only while it is sending. */
  predicate Sendable(m: Machine) {
    m.state == AwaitSegmentACK ==> SendingResponse(m)
  }

  /** The output is silent, or holds APDUs that all encode. */
  predicate Deliverable(out: MachineOutput) {
    if out.action == NoAction then out.outbound.None?
    else out.outbound.Some? && Sent(out) != [] && AllEncode(Sent(out))
  }

  /** A step without error whose output can be sent and whose machine may be kept. */
  predicate Healthy(m: Machine, s: Stepped) {
    && s.result.Ok? && Deliverable(s.result.value)
    && s.m.cfg == m.cfg && s.m.vars.segmentTimeout == m.vars.segmentTimeout
    && Sendable(s.m)
  }

  lemma WindowEncodes(m: Machine, c: Segmentation.Cutting, k: nat, j: nat)
    requires Segmentation.Cuts(c, m.cfg) && k <= j <= c.n
    ensures AllEncode(Segmentation.SegmentRun(m.cfg, c, m.vars.actualWindowSize, k, j))
  {
    var run := Segmentation.SegmentRun(m.cfg, c, m.vars.actualWindowSize, k, j);
    forall i | 0 <= i < |run|
      ensures Encode(run[i]).Ok?
    {
      Segmentation.SegmentFits(m.cfg, c, m.vars.actualWindowSize, k + i);
    }
  }

  lemma WindowIsHealthy(m: Machine, c: Segmentation.Cutting)
    requires Transmission.Ready(m, c) && c == CuttingFor(m)
    ensures Healthy(m, SendWindow(m)) && SendWindow(m).m.state == m.state
    ensures SendWindow(m).result.Ok? && SendWindow(m).result.value.outbound.Some?
  {
    Transmission.SendWindowSends(m, c);
    var j := Segmentation.Min(m.vars.sequenceNumber + m.vars.actualWindowSize, c.n);
    WindowEncodes(m, c, m.vars.sequenceNumber, j);
    hide Encode;
  }

  lemma RetryIsHealthy(m: Machine)
    requires SendingResponse(m)
    ensures Healthy(m, Retry(m)) && Retry(m).result.value.outbound.Some?
  {
    if m.vars.retryCount < m.cfg.maxRetries {
      WindowIsHealthy(Transmission.Rewound(m), CuttingFor(m));
    }
  }

  lemma AckIsHealthy(m: Machine, input: MachineInput)
    requires SendingResponse(m) && input.inbound.Some?
    ensures Healthy(m, Step(m, InboundSegmentACK, input))
  {
    hide SendWindow, Retry, InWindow, NormalizedWindow, Segmentation.Good, Segmentation.Boundary, Sent, AllEncode;
    var n := WindowAdopted(m, input.inbound.value);
    assert SendingResponse(n) && CuttingFor(n) == CuttingFor(m);
    RetryIsHealthy(n);
    if !n.vars.sentAllSegments {
      WindowIsHealthy(Transmission.Advanced(n), CuttingFor(m));
    }
  }

  lemma {:induction false} TakingKeepsTimer(v: Variables)
    ensures TakeContiguous(v).vars.segmentTimeout == v.segmentTimeout
    decreases |v.bufferedPayloads|
  {
    if v.sequenceNumber in v.bufferedPayloads && MoreAfterNext(v) {
      TakingKeepsTimer(Consumed(v));
    }
  }

  lemma DrainIsHealthy(m: Machine)
    requires m.state == SegmentedRequestReceiving
    ensures Healthy(m, Drain(m)) && Drain(m).m.state in {SegmentedRequestReceiving, AwaitResponse}
  {
    hide TakeContiguous;
    TakingKeepsTimer(m.vars);
  }

  lemma DuplicateIsHealthy(m: Machine)
    requires m.state == SegmentedRequestReceiving
    ensures Healthy(m, DuplicateSegment(m)) && DuplicateSegment(m).m.state in {SegmentedRequestReceiving, Aborted}
  {
  }

  lemma SegmentIsHealthy(m: Machine, a: InboundAPDU)
    requires m.state == SegmentedRequestReceiving
    ensures var s := Step(m, InboundSegment, In(a));
            Healthy(m, s) && s.m.state in {SegmentedRequestReceiving, AwaitResponse, Aborted}
  {
    hide Drain, DuplicateSegment;
    DuplicateIsHealthy(m);
    DrainIsHealthy(m.(vars := Buffered(m.vars, a.sequenceNumber, a.payload, a.moreFollows)));
  }

  lemma RepeatIsHealthy(m: Machine, a: InboundAPDU)
    requires m.state == SegmentedRequestReceiving && a.sequenceNumber == 0
    ensures var s := Step(m, InboundConfirmedRequest, In(a));
            Healthy(m, s) && s.m.state in {SegmentedRequestReceiving, Aborted}
  {
    DuplicateIsHealthy(m);
  }

  lemma ExpiryIsHealthy(m: Machine)
    requires m.state == SegmentedRequestReceiving
    ensures var s := Step(m, SegmentTimeout, NoInput); Healthy(m, s) && s.m.state == Aborted
  {
  }

  lemma OpeningIsHealthy(cfg: Config, a: InboundAPDU)
    requires a.segmentedMessage
    ensures var s := Step(NewMachine(cfg), InboundConfirmedRequest, In(a));
            && Healthy(NewMachine(cfg), s) && s.result.Ok?
            && s.m.cfg.invokeID == cfg.invokeID
            && s.m.state in {SegmentedRequestReceiving, AwaitResponse, Aborted}
            && (s.m.state == Aborted ==> s.result.value.action == SendAbort)
  {
    hide Drain;
    var n := StartReceiving(NewMachine(cfg), a);
    DrainIsHealthy(n.(vars := Buffered(n.vars, 0, a.payload, a.moreFollows)));
  }

  /** An answer leaves a machine that may be kept; a long one that is sent in segments is. */
  lemma AnswerIsSendable(m: Machine, payload: seq<byte>, responseType: ResponseType, long: bool)
    requires m.state == AwaitResponse
    ensures var s := Step(m, if long then ResponseRequiresSegmentation else ResponseReady,
                          MachineInput(None, Some(payload), Some(responseType)));
            s.m.cfg == m.cfg && (s.result.Ok? ==> Sendable(s.m))
  {
    if long && CanSegmentResponse(m.cfg, responseType, |payload|) {
      Transmission.StartIsFaithful(m, payload);
    }
  }

  lemma FailureIsSendable(m: Machine, responseType: ResponseType)
    requires m.state == AwaitResponse
    ensures var s := Step(m, HandlerFailed, MachineInput(None, None, Some(responseType)));
            s.m.cfg == m.cfg && Sendable(s.m)
  {
  }

  // --- the tables stay consistent with their machines ---

  predicate InboundFits(k: Key, e: InboundEntry) {
    && e.machine.state == SegmentedRequestReceiving
    && e.machine.cfg.invokeID == k.invokeID
    && e.machine.vars.segmentTimeout == Some(e.expiresAt)
  }

  predicate OutboundFits(k: Key, e: OutboundEntry) {
    && SendingResponse(e.machine)
    && e.machine.cfg.invokeID == k.invokeID
    && e.machine.vars.segmentTimeout == Some(e.expiresAt)
  }

  predicate OutboundsFit(outbound: map<Key, OutboundEntry>) {
    forall k :: k in outbound ==> OutboundFits(k, outbound[k])
  }

  /** Every inbound entry is receiving, every outbound entry is in the middle of sending its
      response, and each entry expires exactly at the deadline its machine stores. */
  predicate Consistent(t: Tables) {
    && (forall k :: k in t.inbound ==> InboundFits(k, t.inbound[k]))
    && OutboundsFit(t.outbound)
  }

  lemma EntryFits(cfg: AseConfig, closed: bool, priority: byte, m: Machine, now: int, k: Key)
    requires Sendable(m) && m.cfg.invokeID == k.invokeID
    ensures var e := EntryFor(cfg, closed, priority, m, now); e.Some? ==> OutboundFits(k, e.value)
  {
    var n := Timed(m, now + cfg.segmentedRequestTimeout);
    assert m.state == AwaitSegmentACK ==> CuttingFor(n) == CuttingFor(m) && SendingResponse(n);
  }

  /** What sending reports: it fails only when an APDU does not encode or is refused, or there is none
      to send, leaves the machine as it was unless one is refused, and on success puts the new entry. */
  lemma EmitReports(cfg: AseConfig, t: Tables, c: Circumstances, m: Machine, output: MachineOutput)
    ensures var e := Emit(cfg, t, c, m, output);
            && (m.state != AwaitSegmentACK && e.err != Some(TransportFailure) ==> e.m == m)
            && (e.m.state == m.state || e.err == Some(TransportFailure))
            && (c.failAt.None? ==> e.err != Some(TransportFailure))
            && (e.err.Some? ==> e.err.value in {EncodingFailure, TransportFailure, NothingToSend})
            && (e.err == Some(NothingToSend) <==> output.action != NoAction && Sent(output) == [])
            && (Deliverable(output) ==> e.err.None? || (c.failAt.Some? && e.err == Some(TransportFailure)))
            && e.outbound == if output.action == NoAction || e.err.Some? then t.outbound
                             else Put(t.outbound, Key(c.src, m.cfg.invokeID),
                                      EntryFor(cfg, t.closed, c.priority, m, c.now))
  {
    hide Encode, Step, Put;
    PushedAll(Sent(output), c.failAt, 0);
  }

  lemma EmitKeeps(cfg: AseConfig, t: Tables, c: Circumstances, m: Machine, output: MachineOutput)
    requires OutboundsFit(t.outbound) && Sendable(m)
    ensures OutboundsFit(Emit(cfg, t, c, m, output).outbound)
  {
    hide Emit, Put, EntryFor, Sendable, OutboundFits;
    var k := Key(c.src, m.cfg.invokeID);
    EntryFits(cfg, t.closed, c.priority, m, c.now, k);
    EmitReports(cfg, t, c, m, output);
    PutFits(t.outbound, k, EntryFor(cfg, t.closed, c.priority, m, c.now));
  }

  lemma {:induction false} PushedAll(apdus: seq<OutboundAPDU>, failAt: Option<nat>, from: nat)
    requires from <= |apdus|
    ensures failAt.None? ==> Pushed(apdus, failAt, from).err != Some(TransportFailure)
    ensures Pushed(apdus, failAt, from).err in {None, Some(EncodingFailure), Some(TransportFailure)}
    ensures var p := Pushed(apdus, failAt, from);
            AllEncode(apdus) ==> p.err.None? || (failAt.Some? && p.err == Some(TransportFailure))
    decreases |apdus| - from
  {
    hide Encode;
    if from < |apdus| {
      PushedAll(apdus, failAt, from + 1);
    }
  }

  lemma AckKeepsConsistent(cfg: AseConfig, t: Tables, c: Circumstances, a: InboundAPDU)
    requires Consistent(t)
    ensures var r := AckArrives(cfg, t, c, a);
            && (c.failAt.None? ==> Consistent(r.t))
            && (r.err.Some? ==> r.err.value in {UnexpectedPDU, APDUTimeout, TransportFailure})
  {
    var key := Key(c.src, a.invokeID);
    if key in t.outbound && !a.server {
      var m := t.outbound[key].machine;
      assert OutboundFits(key, t.outbound[key]);
      hide Step, SendingResponse, Sendable, Deliverable, EmitIfAny, OutboundsFit;
      TimeoutIsHealthy(m, In(a));
      AckIsHealthy(m, In(a));
      AckSettles(cfg, t, c, a, Step(m, if Expired(m, c.now) then Timeout else InboundSegmentACK, In(a)));
    }
  }

  lemma TimeoutIsHealthy(m: Machine, input: MachineInput)
    requires SendingResponse(m)
    ensures var s := Step(m, Timeout, input); Healthy(m, s) && s.result.value.outbound.Some?
  {
    hide Retry;
    RetryIsHealthy(m);
  }

  lemma PutPut<E>(table: map<Key, E>, key: Key, x: E, e: Option<E>)
    ensures Put(table[key := x], key, e) == Put(table, key, e)
  {
  }

  lemma AckSettles(cfg: AseConfig, t: Tables, c: Circumstances, a: InboundAPDU, s: Stepped)
    requires Consistent(t) && Key(c.src, a.invokeID) in t.outbound && !a.server
    requires var m := t.outbound[Key(c.src, a.invokeID)].machine;
             && Healthy(m, s)
             && s == Step(m, if Expired(m, c.now) then Timeout else InboundSegmentACK, In(a))
             && (Expired(m, c.now) ==> s.result.value.outbound.Some?)
    ensures var r := AckArrives(cfg, t, c, a);
            && (c.failAt.None? ==> Consistent(r.t))
            && (r.err.Some? ==> r.err.value in {UnexpectedPDU, APDUTimeout, TransportFailure})
  {
    hide Step, Encode, SendingResponse, Sent, Put, EntryFor, Emit;
    var key := Key(c.src, a.invokeID);
    var entry := t.outbound[key];
    var t1 := t.(outbound := t.outbound[key := entry.(machine := s.m)]);
    var d := c.(priority := entry.priority);
    var next := EntryFor(cfg, t.closed, entry.priority, s.m, c.now);
    assert OutboundFits(key, entry);
    EntryFits(cfg, t.closed, entry.priority, s.m, c.now, key);
    PutPut(t.outbound, key, entry.(machine := s.m), next);
    PutFits(t.outbound, key, next);
    EmitReports(cfg, t1, d, s.m, s.result.value);
    RemoveFits(Put(t.outbound, key, next), key);
  }

  lemma PutFits(outbound: map<Key, OutboundEntry>, key: Key, e: Option<OutboundEntry>)
    requires OutboundsFit(outbound) && (e.Some? ==> OutboundFits(key, e.value))
    ensures OutboundsFit(Put(outbound, key, e))
  {
  }

  lemma RemoveFits(outbound: map<Key, OutboundEntry>, key: Key)
    requires OutboundsFit(outbound)
    ensures OutboundsFit(outbound - {key})
  {
  }

  /** Whatever the handler answers, dispatching leaves the inbound table alone and the outbound
      one consistent. */
  lemma DispatchKeeps(cfg: AseConfig, t: Tables, c: Circumstances, m: Machine, a: InboundAPDU, handler: Handler)
    requires OutboundsFit(t.outbound) && m.state == AwaitResponse
    ensures var r := Dispatch(cfg, t, c, m, a, handler);
            && r.t == t.(outbound := r.t.outbound) && OutboundsFit(r.t.outbound)
            && (r.dispatched.Some? ==> r.dispatched.value == a)
  {
    FailedKeeps(cfg, t, c, m, HandlerNotFound, RejectType);
    FailedKeeps(cfg, t, c, m, HandlerFailure, ErrorType);
    FailedKeeps(cfg, t, c, m, InvalidAnswer, RejectType);
    if handler.Answers? {
      var long := MaxAPDUSizeExceeded(m.cfg, |handler.payload|);
      var s := Step(m, if long then ResponseRequiresSegmentation else ResponseReady,
                    MachineInput(None, Some(handler.payload), Some(handler.responseType)));
      AnswerIsSendable(m, handler.payload, handler.responseType, MaxAPDUSizeExceeded(m.cfg, |handler.payload|));
      hide Step, Emit, OutboundsFit, Sendable;
      if s.result.Ok? {
        EmitKeeps(cfg, t, c, s.m, s.result.value);
      }
    }
  }

  lemma FailedKeeps(cfg: AseConfig, t: Tables, c: Circumstances, m: Machine, cause: AseError,
                    responseType: ResponseType)
    requires OutboundsFit(t.outbound) && m.state == AwaitResponse
    ensures var r := Failed(cfg, t, c, m, cause, responseType);
            r.t == t.(outbound := r.t.outbound) && OutboundsFit(r.t.outbound) && r.dispatched.None?
  {
    FailureIsSendable(m, responseType);
    var s := Step(m, HandlerFailed, MachineInput(None, None, Some(responseType)));
    hide Step, Emit, OutboundsFit, Sendable;
    if s.result.Ok? {
      EmitKeeps(cfg, t, c, s.m, s.result.value);
    }
  }

  lemma AssembledKeeps(cfg: AseConfig, t: Tables, c: Circumstances, m: Machine, first: InboundAPDU, handler: Handler)
    requires OutboundsFit(t.outbound) && m.state == AwaitResponse
    ensures var r := AssembleAndDispatch(cfg, t, c, m, first, handler);
            && r.t == t.(outbound := r.t.outbound) && OutboundsFit(r.t.outbound)
            && (r.dispatched.Some? ==> r.dispatched.value == Assembled(first, m.vars.segmentBuffer))
  {
    hide Dispatch, OutboundsFit;
    DispatchKeeps(cfg, t, c, m, Assembled(first, m.vars.segmentBuffer), handler);
  }

  lemma UnsegmentedKeeps(cfg: AseConfig, t: Tables, c: Circumstances, a: InboundAPDU, handler: Handler)
    requires OutboundsFit(t.outbound) && !a.segmentedMessage
    ensures var r := UnsegmentedArrives(cfg, t, c, a, handler);
            && r.t == t.(outbound := r.t.outbound) && OutboundsFit(r.t.outbound)
            && (r.dispatched.Some? ==> r.dispatched.value == a)
  {
    hide Dispatch, OutboundsFit;
    var s := Step(NewMachine(MachineConfig(cfg, a)), InboundConfirmedRequest, In(a));
    assert s.result.Ok? && s.m.state == AwaitResponse;
    DispatchKeeps(cfg, t, c, s.m, a, handler);
  }

  lemma RefreshedFits(cfg: AseConfig, k: Key, entry: InboundEntry, m: Machine, now: int)
    requires m.state == SegmentedRequestReceiving && m.cfg.invokeID == k.invokeID
    ensures InboundFits(k, Refreshed(cfg, entry, m, now))
  {
  }

  /** The output of a receiving machine: the outbound table stays consistent, and without
      refusals the machine is untouched. */
  lemma ReceivingEmits(cfg: AseConfig, t: Tables, c: Circumstances, m: Machine, s: Stepped)
    requires OutboundsFit(t.outbound) && Healthy(m, s) && s.m.state != AwaitSegmentACK
    ensures var e := EmitIfAny(cfg, t, c, s.m, s.result.value);
            && OutboundsFit(e.outbound)
            && (e.err.None? ==> e.m == s.m)
            && (e.err.Some? ==> c.failAt.Some? && e.err == Some(TransportFailure))
  {
    hide OutboundsFit;
    EmitKeeps(cfg, t, c, s.m, s.result.value);
    EmitReports(cfg, t, c, s.m, s.result.value);
  }

  /** What an operation on one receiving exchange keeps: other inbound entries as they were, the
      outbound table consistent, and its own entry consistent unless the transport refused. */
  predicate Contained(t: Tables, r: Served, key: Key, failAt: Option<nat>) {
    && OutboundsFit(r.t.outbound) && r.t.closed == t.closed
    && r.t.inbound - {key} == t.inbound - {key}
    && (failAt.None? && key in r.t.inbound ==> InboundFits(key, r.t.inbound[key]))
  }

  lemma Settles(t: Tables, r: Served, key: Key, failAt: Option<nat>, entry: Option<InboundEntry>)
    requires OutboundsFit(r.t.outbound) && r.t == With(t, key, entry, r.t.outbound)
    requires failAt.None? && entry.Some? ==> InboundFits(key, entry.value)
    ensures Contained(t, r, key, failAt)
  {
    hide OutboundsFit, InboundFits;
  }

  lemma LateContained(cfg: AseConfig, t: Tables, c: Circumstances, key: Key)
    requires Consistent(t) && key in t.inbound && key.src == c.src
    ensures Contained(t, LateSegment(cfg, t, c, key), key, c.failAt)
    ensures LateSegment(cfg, t, c, key).err.value in {APDUTimeout, TransportFailure}
  {
    var entry := t.inbound[key];
    assert InboundFits(key, entry);
    ExpiryIsHealthy(entry.machine);
    var s := Step(entry.machine, SegmentTimeout, NoInput);
    assert s.result.Ok?;
    hide Step, EmitIfAny, OutboundsFit, Contained, InboundFits, Healthy, With;
    ReceivingEmits(cfg, t, c, entry.machine, s);
    var e := EmitIfAny(cfg, t, c, s.m, s.result.value);
    var r := LateSegment(cfg, t, c, key);
    WithKeeps(t, key, if e.err.Some? then Some(entry.(machine := e.m)) else None, r.t.outbound);
    Settles(t, r, key, c.failAt, if e.err.Some? then Some(entry.(machine := e.m)) else None);
  }

  lemma WithKeeps(t: Tables, key: Key, entry: Option<InboundEntry>, outbound: map<Key, OutboundEntry>)
    ensures With(t, key, entry, outbound).outbound == outbound
  {
  }

  lemma RepeatContained(cfg: AseConfig, t: Tables, c: Circumstances, a: InboundAPDU)
    requires Consistent(t) && Key(c.src, a.invokeID) in t.inbound && a.sequenceNumber == 0
    ensures Contained(t, FirstRepeats(cfg, t, c, a), Key(c.src, a.invokeID), c.failAt)
  {
    var key := Key(c.src, a.invokeID);
    var entry := t.inbound[key];
    assert InboundFits(key, entry);
    RepeatIsHealthy(entry.machine, a);
    var s := Step(entry.machine, InboundConfirmedRequest, In(a));
    assert s.result.Ok? && s.m.cfg.invokeID == key.invokeID;
    hide Step, EmitIfAny, OutboundsFit, Contained, Refreshed, InboundFits, Healthy, With;
    ReceivingEmits(cfg, t, c, entry.machine, s);
    var e := EmitIfAny(cfg, t, c, s.m, s.result.value);
    var r := FirstRepeats(cfg, t, c, a);
    var kept := if e.err.Some? then Some(entry.(machine := e.m))
                else if e.m.state == Aborted then None
                else Some(Refreshed(cfg, entry, e.m, c.now));
    if e.err.None? && e.m.state != Aborted {
      RefreshedFits(cfg, key, entry, e.m, c.now);
    }
    WithKeeps(t, key, kept, e.outbound);
    WithKeeps(t, key, kept, t.outbound);
    Settles(t, r, key, c.failAt, kept);
  }

  lemma OpeningContained(cfg: AseConfig, t: Tables, c: Circumstances, a: InboundAPDU, handler: Handler)
    requires Consistent(t) && Key(c.src, a.invokeID) !in t.inbound && a.segmentedMessage
    ensures Contained(t, FirstOpens(cfg, t, c, a, handler), Key(c.src, a.invokeID), c.failAt)
  {
    var key := Key(c.src, a.invokeID);
    var m := NewMachine(MachineConfig(cfg, a));
    OpeningIsHealthy(MachineConfig(cfg, a), a);
    var s := Step(m, InboundConfirmedRequest, In(a));
    hide Step, EmitIfAny, NewMachine, Healthy, OutboundsFit, AssembleAndDispatch, Contained, Refreshed, InboundFits;
    assert s.result.Ok?;
    ReceivingEmits(cfg, t, c, m, s);
    var e := EmitIfAny(cfg, t, c, s.m, s.result.value);
    var r := FirstOpens(cfg, t, c, a, handler);
    assert t.inbound - {key} == t.inbound;
    if e.err.Some? || s.result.value.action == SendAbort {
      Settles(t, r, key, c.failAt, None);
    } else if e.m.state == AwaitResponse {
      AssembledKeeps(cfg, t.(outbound := e.outbound), Since(c, |e.sent|), e.m, a, handler);
      Settles(t, r, key, c.failAt, None);
    } else {
      var entry := Refreshed(cfg, InboundEntry(e.m, c.priority, a, 0), e.m, c.now);
      RefreshedFits(cfg, key, InboundEntry(e.m, c.priority, a, 0), e.m, c.now);
      Settles(t, r, key, c.failAt, Some(entry));
    }
  }

  lemma ContinuingContained(cfg: AseConfig, t: Tables, c: Circumstances, a: InboundAPDU, handler: Handler)
    requires Consistent(t) && Key(c.src, a.invokeID) in t.inbound
    ensures Contained(t, SegmentContinues(cfg, t, c, a, handler), Key(c.src, a.invokeID), c.failAt)
  {
    var key := Key(c.src, a.invokeID);
    var entry := t.inbound[key];
    assert InboundFits(key, entry);
    SegmentIsHealthy(entry.machine, a);
    var s := Step(entry.machine, InboundSegment, In(a));
    ReceivingEmits(cfg, t, c, entry.machine, s);
    hide Step, EmitIfAny, OutboundsFit, AssembleAndDispatch, Contained, Refreshed, InboundFits;
    var e := EmitIfAny(cfg, t, c, s.m, s.result.value);
    var r := SegmentContinues(cfg, t, c, a, handler);
    if e.err.Some? {
      Settles(t, r, key, c.failAt, Some(entry.(machine := e.m)));
    } else if e.m.state == AwaitResponse {
      AssembledKeeps(cfg, With(t, key, None, e.outbound), Since(c.(priority := entry.priority), |e.sent|), e.m,
                     entry.firstInbound, handler);
      Settles(t, r, key, c.failAt, None);
    } else if e.m.state == Aborted {
      Settles(t, r, key, c.failAt, None);
    } else {
      RefreshedFits(cfg, key, entry, e.m, c.now);
      Settles(t, r, key, c.failAt, Some(Refreshed(cfg, entry, e.m, c.now)));
    }
  }

  lemma RequestKeepsConsistent(cfg: AseConfig, t: Tables, c: Circumstances, a: InboundAPDU, handler: Handler)
    requires Consistent(t)
    ensures c.failAt.None? ==> Consistent(RequestArrives(cfg, t, c, a, handler).t)
  {
    var key := Key(c.src, a.invokeID);
    var r := RequestArrives(cfg, t, c, a, handler);
    hide LateSegment, FirstRepeats, FirstOpens, SegmentContinues, UnsegmentedArrives, InboundFits, OutboundsFit;
    if !a.segmentedMessage {
      UnsegmentedKeeps(cfg, t, c, a, handler);
    } else {
      if key in t.inbound && Expired(t.inbound[key].machine, c.now) {
        LateContained(cfg, t, c, key);
      } else if a.sequenceNumber == 0 {
        if key in t.inbound {
          RepeatContained(cfg, t, c, a);
        } else {
          OpeningContained(cfg, t, c, a, handler);
        }
      } else if key in t.inbound {
        ContinuingContained(cfg, t, c, a, handler);
      } else {
        assert r.t == t;
      }
      forall k | k in r.t.inbound && k != key
        ensures InboundFits(k, r.t.inbound[k])
      {
        assert k in r.t.inbound - {key};
        assert (r.t.inbound - {key})[k] == (t.inbound - {key})[k];
      }
    }
  }

  lemma LateFits(cfg: AseConfig, t: Tables, now: int, refusals: map<Key, nat>, k: Key)
    requires OutboundsFit(t.outbound) && k in t.outbound
    ensures var e := Late(cfg, t, now, refusals, k); k in e.outbound ==> OutboundFits(k, e.outbound[k])
  {
    var entry := t.outbound[k];
    assert OutboundFits(k, entry);
    RetryIsHealthy(entry.machine);
    var s := Step(entry.machine, Timeout, NoInput);
    assert s == Retry(entry.machine);
    hide Step, Retry, Healthy, OutboundFits, Emit;
    var failAt := if k in refusals then Some(refusals[k]) else None;
    EmitKeeps(cfg, Tables(t.closed, map[], map[]), Circumstances(k.src, entry.priority, now, failAt), s.m,
              s.result.value);
  }

  /** The collector keeps the tables consistent even when the transport refuses. */
  lemma CollectorKeepsConsistent(cfg: AseConfig, t: Tables, now: int, refusals: map<Key, nat>)
    requires Consistent(t)
    ensures Consistent(Collected(cfg, t, now, refusals))
  {
    hide Late, OutboundFits, InboundFits;
    forall k | k in t.outbound
      ensures k in Late(cfg, t, now, refusals, k).outbound
              ==> OutboundFits(k, Late(cfg, t, now, refusals, k).outbound[k])
    {
      LateFits(cfg, t, now, refusals, k);
    }
  }

  // --- runs ---

  datatype Operation =
    | Request(c: Circumstances, a: InboundAPDU, handler: Handler)
    | Acknowledge(c: Circumstances, a: InboundAPDU)
    | Collect(now: int, refusals: map<Key, nat>)
    | CloseDown

  function Apply(cfg: AseConfig, t: Tables, op: Operation): Served {
    match op
    case Request(c, a, handler) => RequestArrives(cfg, t, c, a, handler)
    case Acknowledge(c, a) => AckArrives(cfg, t, c, a)
    case Collect(now, refusals) => Served(Collected(cfg, t, now, refusals), [], None, None)
    case CloseDown => Served(Closed(t), [], None, None)
  }

  function RunTables(cfg: AseConfig, t: Tables, ops: seq<Operation>): Tables
    decreases |ops|
  {
    if ops == [] then t else RunTables(cfg, Apply(cfg, t, ops[0]).t, ops[1..])
  }

  /** The transport accepts every APDU of the operation; the collector may meet refusals. */
  predicate Accepted(op: Operation) {
    (op.Request? || op.Acknowledge?) ==> op.c.failAt.None?
  }

  /** Whatever requesters, handlers, timers, the collector and closing do, the tables agree with
      the machines in them as long as the transport accepts what it is given. */
  lemma {:induction false} ConsistentForever(cfg: AseConfig, t: Tables, ops: seq<Operation>)
    requires Consistent(t)
    requires forall i :: 0 <= i < |ops| ==> Accepted(ops[i])
    ensures Consistent(RunTables(cfg, t, ops))
    decreases |ops|
  {
    if ops != [] {
      assert Accepted(ops[0]);
      match ops[0] {
        case Request(c, a, handler) => RequestKeepsConsistent(cfg, t, c, a, handler);
        case Acknowledge(c, a) => AckKeepsConsistent(cfg, t, c, a);
        case Collect(now, refusals) => CollectorKeepsConsistent(cfg, t, now, refusals);
        case CloseDown =>
      }
      hide Apply, Consistent;
      ConsistentForever(cfg, Apply(cfg, t, ops[0]).t, ops[1..]);
    }
  }

  lemma PutFiles(outbound: map<Key, OutboundEntry>, key: Key, e: Option<OutboundEntry>)
    requires Filed(outbound) && (e.Some? ==> e.value.machine.cfg.invokeID == key.invokeID)
    ensures Filed(Put(outbound, key, e))
  {
  }

  lemma EmitFiles(cfg: AseConfig, t: Tables, c: Circumstances, m: Machine, output: MachineOutput)
    requires Filed(t.outbound)
    ensures var e := EmitIfAny(cfg, t, c, m, output); Filed(e.outbound) && e.m.cfg == m.cfg
    ensures Filed(Emit(cfg, t, c, m, output).outbound)
  {
    StepKeepsConfig(m, CannotSend, NoInput);
    PutFiles(t.outbound, Key(c.src, m.cfg.invokeID), EntryFor(cfg, t.closed, c.priority, m, c.now));
    hide Step, Pushed, Encode, Sent, Filed, Put;
  }

  /** The ways in which a Segment-ACK may leave the outbound table. */
  predicate AckLeaves(cfg: AseConfig, t: Tables, c: Circumstances, key: Key, entry: OutboundEntry, s: Stepped,
                      e: Emission, left: map<Key, OutboundEntry>)
  {
    var t1 := t.outbound[key := entry.(machine := s.m)];
    || left == t1
    || left == t.outbound[key := entry.(machine := e.m)]
    || left == e.outbound
    || left == e.outbound - {key}
    || left == t1 - {key}
    || left == Put(t1, Key(c.src, s.m.cfg.invokeID), EntryFor(cfg, t.closed, entry.priority, s.m, c.now))
  }

  lemma AckUnfolds(cfg: AseConfig, t: Tables, c: Circumstances, a: InboundAPDU, s: Stepped)
    requires Key(c.src, a.invokeID) in t.outbound && !a.server
    requires var m := t.outbound[Key(c.src, a.invokeID)].machine;
             s == Step(m, if Expired(m, c.now) then Timeout else InboundSegmentACK, In(a))
    ensures var key := Key(c.src, a.invokeID);
            var entry := t.outbound[key];
            var t1 := t.(outbound := t.outbound[key := entry.(machine := s.m)]);
            var e := if s.result.Err? then Emission(t.outbound, s.m, [], None)
                     else EmitIfAny(cfg, t1, c.(priority := entry.priority), s.m, s.result.value);
            AckLeaves(cfg, t, c, key, entry, s, e, AckArrives(cfg, t, c, a).t.outbound)
  {
    hide Step, EmitIfAny, EntryFor, Put;
  }

  lemma AckLeavesFiled(cfg: AseConfig, t: Tables, c: Circumstances, key: Key, s: Stepped, e: Emission,
                       left: map<Key, OutboundEntry>)
    requires key in t.outbound && AckLeaves(cfg, t, c, key, t.outbound[key], s, e, left)
    requires Filed(t.outbound) && Filed(e.outbound)
    requires s.m.cfg == t.outbound[key].machine.cfg && e.m.cfg == s.m.cfg
    ensures Filed(left)
  {
    hide EntryFor, Put, Filed;
    var entry := t.outbound[key];
    FiledAt(t.outbound, key);
    var t1 := t.outbound[key := entry.(machine := s.m)];
    PutFiles(t.outbound, key, Some(entry.(machine := s.m)));
    PutFiles(t.outbound, key, Some(entry.(machine := e.m)));
    PutIs(t.outbound, key, entry.(machine := s.m));
    PutIs(t.outbound, key, entry.(machine := e.m));
    PutIs(e.outbound, key, entry);
    PutIs(t1, key, entry);
    PutFiles(e.outbound, key, None);
    PutFiles(t1, key, None);
    EntryKeepsConfig(cfg, t.closed, entry.priority, s.m, c.now);
    PutFiles(t1, Key(c.src, s.m.cfg.invokeID), EntryFor(cfg, t.closed, entry.priority, s.m, c.now));
  }

  lemma PutIs<E>(table: map<Key, E>, key: Key, e: E)
    ensures Put(table, key, Some(e)) == table[key := e] && Put(table, key, None) == table - {key}
  {
  }

  lemma AckFiles(cfg: AseConfig, t: Tables, c: Circumstances, a: InboundAPDU)
    requires Filed(t.outbound)
    ensures Filed(AckArrives(cfg, t, c, a).t.outbound)
  {
    var key := Key(c.src, a.invokeID);
    if key in t.outbound && !a.server {
      var entry := t.outbound[key];
      var event := if Expired(entry.machine, c.now) then Timeout else InboundSegmentACK;
      hide Step, EmitIfAny, Filed, AckArrives, AckLeaves;
      StepKeepsConfig(entry.machine, event, In(a));
      var s := Step(entry.machine, event, In(a));
      AckUnfolds(cfg, t, c, a, s);
      var t1 := t.(outbound := t.outbound[key := entry.(machine := s.m)]);
      var d := c.(priority := entry.priority);
      FiledAt(t.outbound, key);
      PutFiles(t.outbound, key, Some(entry.(machine := s.m)));
      PutIs(t.outbound, key, entry.(machine := s.m));
      var e := Emission(t.outbound, s.m, [], None);
      if s.result.Ok? {
        EmitFiles(cfg, t1, d, s.m, s.result.value);
        e := EmitIfAny(cfg, t1, d, s.m, s.result.value);
      }
      AckLeavesFiled(cfg, t, c, key, s, e, AckArrives(cfg, t, c, a).t.outbound);
    }
  }

  lemma FiledAt(outbound: map<Key, OutboundEntry>, key: Key)
    requires Filed(outbound) && key in outbound
    ensures outbound[key].machine.cfg.invokeID == key.invokeID
  {
  }

  lemma EntryKeepsConfig(cfg: AseConfig, closed: bool, priority: byte, m: Machine, now: int)
    ensures var e := EntryFor(cfg, closed, priority, m, now); e.Some? ==> e.value.machine.cfg == m.cfg
  {
  }

  lemma DispatchFiles(cfg: AseConfig, t: Tables, c: Circumstances, m: Machine, a: InboundAPDU, handler: Handler)
    requires Filed(t.outbound)
    ensures Filed(Dispatch(cfg, t, c, m, a, handler).t.outbound)
  {
    var failed := Step(m, HandlerFailed, MachineInput(None, None, Some(RejectType)));
    var erred := Step(m, HandlerFailed, MachineInput(None, None, Some(ErrorType)));
    hide Step, Emit, Filed;
    if failed.result.Ok? {
      EmitFiles(cfg, t, c, failed.m, failed.result.value);
    }
    if erred.result.Ok? {
      EmitFiles(cfg, t, c, erred.m, erred.result.value);
    }
    if handler.Answers? {
      var long := MaxAPDUSizeExceeded(m.cfg, |handler.payload|);
      var s := Step(m, if long then ResponseRequiresSegmentation else ResponseReady,
                    MachineInput(None, Some(handler.payload), Some(handler.responseType)));
      if s.result.Ok? {
        EmitFiles(cfg, t, c, s.m, s.result.value);
      }
    }
  }

  lemma ContinuingFiles(cfg: AseConfig, t: Tables, c: Circumstances, a: InboundAPDU, handler: Handler)
    requires Filed(t.outbound) && Key(c.src, a.invokeID) in t.inbound
    ensures Filed(SegmentContinues(cfg, t, c, a, handler).t.outbound)
  {
    hide Step, EmitIfAny, Filed, Dispatch;
    var key := Key(c.src, a.invokeID);
    var entry := t.inbound[key];
    var next := Step(entry.machine, InboundSegment, In(a));
    if next.result.Ok? {
      EmitFiles(cfg, t, c, next.m, next.result.value);
      var e := EmitIfAny(cfg, t, c, next.m, next.result.value);
      DispatchFiles(cfg, With(t, key, None, e.outbound), Since(c.(priority := entry.priority), |e.sent|), e.m,
                    Assembled(entry.firstInbound, e.m.vars.segmentBuffer), handler);
    }
  }

  lemma RepeatFiles(cfg: AseConfig, t: Tables, c: Circumstances, a: InboundAPDU)
    requires Filed(t.outbound) && Key(c.src, a.invokeID) in t.inbound
    ensures Filed(FirstRepeats(cfg, t, c, a).t.outbound)
    ensures Filed(LateSegment(cfg, t, c, Key(c.src, a.invokeID)).t.outbound)
  {
    hide Step, EmitIfAny, Filed, Put;
    var m := t.inbound[Key(c.src, a.invokeID)].machine;
    var again := Step(m, InboundConfirmedRequest, In(a));
    var late := Step(m, SegmentTimeout, NoInput);
    if again.result.Ok? {
      EmitFiles(cfg, t, c, again.m, again.result.value);
    }
    if late.result.Ok? {
      EmitFiles(cfg, t, c, late.m, late.result.value);
    }
  }

  lemma OpeningFiles(cfg: AseConfig, t: Tables, c: Circumstances, a: InboundAPDU, handler: Handler)
    requires Filed(t.outbound)
    ensures Filed(FirstOpens(cfg, t, c, a, handler).t.outbound)
  {
    hide Step, EmitIfAny, Filed, Dispatch;
    var s := Step(NewMachine(MachineConfig(cfg, a)), InboundConfirmedRequest, In(a));
    if s.result.Ok? {
      EmitFiles(cfg, t, c, s.m, s.result.value);
      var e := EmitIfAny(cfg, t, c, s.m, s.result.value);
      DispatchFiles(cfg, t.(outbound := e.outbound), Since(c, |e.sent|), e.m, Assembled(a, e.m.vars.segmentBuffer),
                    handler);
    }
  }

  lemma SegmentFiles(cfg: AseConfig, t: Tables, c: Circumstances, a: InboundAPDU, handler: Handler)
    requires Filed(t.outbound)
    ensures Filed(SegmentArrives(cfg, t, c, a, handler).t.outbound)
  {
    hide Filed, FirstOpens, FirstRepeats, LateSegment, SegmentContinues;
    OpeningFiles(cfg, t, c, a, handler);
    if Key(c.src, a.invokeID) in t.inbound {
      RepeatFiles(cfg, t, c, a);
      ContinuingFiles(cfg, t, c, a, handler);
    }
  }

  /** However the transport behaves, outbound entries stay filed under their machine's invoke ID. */
  lemma ApplyFiles(cfg: AseConfig, t: Tables, op: Operation)
    requires Filed(t.outbound)
    ensures Filed(Apply(cfg, t, op).t.outbound)
  {
    match op {
      case Request(c, a, handler) =>
        hide Step, Filed, Dispatch, SegmentArrives;
        SegmentFiles(cfg, t, c, a, handler);
        var s := Step(NewMachine(MachineConfig(cfg, a)), InboundConfirmedRequest, In(a));
        DispatchFiles(cfg, t, c, s.m, a, handler);
      case Acknowledge(c, a) =>
        AckFiles(cfg, t, c, a);
      case Collect(now, refusals) =>
        forall k | k in t.outbound
          ensures var e := Late(cfg, t, now, refusals, k);
                  k in e.outbound ==> e.outbound[k].machine.cfg.invokeID == k.invokeID
        {
          var entry := t.outbound[k];
          var s := Step(entry.machine, Timeout, NoInput);
          StepKeepsConfig(entry.machine, Timeout, NoInput);
          hide Step, EmitIfAny;
          if s.result.Ok? {
            EmitFiles(cfg, Tables(t.closed, map[], map[]),
                      Circumstances(k.src, entry.priority, now, if k in refusals then Some(refusals[k]) else None),
                      s.m, s.result.value);
          }
        }
      case CloseDown =>
    }
  }
}
