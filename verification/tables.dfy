/** The server tables of the application service element as values: which exchanges are in
    progress, and how inbound APDUs, timers, handlers and the transport move them. The class
    in ase.dfy updates such tables in place and is proved to have these effects. */
module ServiceTables {
  import opened Wire
  import opened Apdu
  import opened MachineSpec

  /** A BACnet station: network number, transport peer and MAC on a remote network. */
  datatype Address = Address(network: uint16, peer: seq<byte>, mac: seq<byte>)

  datatype Key = Key(src: Address, invokeID: byte)

  datatype InboundEntry = InboundEntry(
    machine: Machine, priority: byte, firstInbound: InboundAPDU, expiresAt: int)

  datatype OutboundEntry = OutboundEntry(machine: Machine, priority: byte, expiresAt: int)

  datatype Tables = Tables(closed: bool, inbound: map<Key, InboundEntry>, outbound: map<Key, OutboundEntry>)

  const Empty: Tables := Tables(false, map[], map[])

  datatype AseError =
    | UnexpectedPDU | APDUTimeout | SegmentationUnsupported | TransportFailure | EncodingFailure
    | NotReady | HandlerNotFound | HandlerFailure | InvalidAnswer | NothingToSend
    | MachineFailure(e: MachineError)

  /** What the registered handler answers; consulted only when a request is dispatched. */
  datatype Handler =
    | NotRegistered
    | Fails
    | Answers(invokeID: byte, destination: Address, payload: seq<byte>, responseType: ResponseType)

  datatype AseConfig = AseConfig(
    segmentedRequestTimeout: nat, gracePeriod: nat, retries: byte, maxDuplicates: byte,
    segmentation: SegmentationSupport, preferredWindow: byte, maxAPDU: uint16)

  /** The circumstances of one operation: the requester, the clock, and the number of APDUs
      the transport accepts before it refuses one, if it refuses any. */
  datatype Circumstances = Circumstances(src: Address, priority: byte, now: int, failAt: Option<nat>)

  /** The circumstances left once the transport has accepted n APDUs of the operation. */
  function Since(c: Circumstances, n: nat): Circumstances {
    c.(failAt := if c.failAt.Some? && c.failAt.value >= n then Some(c.failAt.value - n) else None)
  }

  /** The outcome of one operation: tables, what went on the wire, what the handler was
      given, and the error returned. */
  datatype Served = Served(
    t: Tables, sent: seq<OutboundAPDU>, dispatched: Option<InboundAPDU>, err: Option<AseError>)

  function RequesterSupport(a: InboundAPDU): SegmentationSupport {
    if a.segmentedMessage then (if a.segmentedResponseAccepted then Both else Transmit)
    else if a.segmentedResponseAccepted then Receive
    else NoSegmentation
  }

  /** The configuration of the machine created for an inbound request. */
  function MachineConfig(cfg: AseConfig, a: InboundAPDU): Config {
    Config(a.invokeID, a.serviceChoice, RequesterSupport(a), a.maxSegmentsAccepted, a.maxAPDULengthAccepted,
           cfg.segmentation, cfg.preferredWindow, cfg.maxDuplicates, cfg.retries, cfg.maxAPDU)
  }

  function Timed(m: Machine, deadline: int): Machine {
    m.(vars := m.vars.(segmentTimeout := Some(deadline)))
  }

  predicate Expired(m: Machine, now: int) {
    m.vars.segmentTimeout.Some? && now > m.vars.segmentTimeout.value
  }

  /** The table with the entry for one key replaced, or removed. */
  function Put<E>(table: map<Key, E>, key: Key, e: Option<E>): map<Key, E> {
    if e.Some? then table[key := e.value] else table - {key}
  }

  function In(a: InboundAPDU): MachineInput {
    MachineInput(Some(a), None, None)
  }

  const NoInput: MachineInput := MachineInput(None, None, None)

  // --- sending ---

  /** The outbound entry of a machine whose output went out at time now. */
  function EntryFor(cfg: AseConfig, closed: bool, priority: byte, m: Machine, now: int): Option<OutboundEntry> {
    if closed || m.state != AwaitSegmentACK then None
    else
      var deadline := now + cfg.segmentedRequestTimeout;
      Some(OutboundEntry(Timed(m, deadline), priority, deadline))
  }

  /** The machine as sending leaves it, next to its entry. */
  function Armed(cfg: AseConfig, closed: bool, m: Machine, now: int): Machine {
    if closed || m.state != AwaitSegmentACK then m else Timed(m, now + cfg.segmentedRequestTimeout)
  }

  datatype Emission = Emission(outbound: map<Key, OutboundEntry>, m: Machine, sent: seq<OutboundAPDU>,
                               err: Option<AseError>)

  /** How many of the APDUs go out, and why no more. */
  datatype Progress = Progress(count: nat, err: Option<AseError>)

  function Pushed(apdus: seq<OutboundAPDU>, failAt: Option<nat>, from: nat): (p: Progress)
    requires from <= |apdus|
    ensures from <= p.count <= |apdus| && (p.err.None? ==> p.count == |apdus|)
    decreases |apdus| - from
  {
    if from == |apdus| then Progress(from, None)
    else if Encode(apdus[from]).Err? then Progress(from, Some(EncodingFailure))
    else if failAt == Some(from) then Progress(from, Some(TransportFailure))
    else Pushed(apdus, failAt, from + 1)
  }

  /** Put an output on the wire. A refused APDU tells the machine that it cannot send and
      leaves the table alone; an output sent in full replaces or removes the entry. */
  function Emit(cfg: AseConfig, t: Tables, c: Circumstances, m: Machine, output: MachineOutput): Emission {
    if output.action == NoAction then Emission(t.outbound, m, [], None)
    else
      var apdus := Sent(output);
      if apdus == [] then Emission(t.outbound, m, [], Some(NothingToSend))
      else
        var p := Pushed(apdus, c.failAt, 0);
        if p.err.Some? then
          Emission(t.outbound, if p.err.value == TransportFailure then Step(m, CannotSend, NoInput).m else m,
                   apdus[..p.count], p.err)
        else
          Emission(Put(t.outbound, Key(c.src, m.cfg.invokeID), EntryFor(cfg, t.closed, c.priority, m, c.now)),
                   Armed(cfg, t.closed, m, c.now), apdus, None)
  }

  /** The output is sent only when it holds an APDU. */
  function EmitIfAny(cfg: AseConfig, t: Tables, c: Circumstances, m: Machine, output: MachineOutput): Emission {
    if output.outbound.Some? then Emit(cfg, t, c, m, output) else Emission(t.outbound, m, [], None)
  }

  // --- Segment-ACKs for a response in progress ---

  function AckArrives(cfg: AseConfig, t: Tables, c: Circumstances, a: InboundAPDU): Served {
    var key := Key(c.src, a.invokeID);
    if key !in t.outbound || a.server then Served(t, [], None, Some(UnexpectedPDU))
    else
      var entry := t.outbound[key];
      var late := Expired(entry.machine, c.now);
      var s := Step(entry.machine, if late then Timeout else InboundSegmentACK, In(a));
      var t1 := t.(outbound := t.outbound[key := entry.(machine := s.m)]);
      if s.result.Err? then Served(t1, [], None, Some(MachineFailure(s.result.error)))
      else
        var e := EmitIfAny(cfg, t1, c.(priority := entry.priority), s.m, s.result.value);
        if e.err.Some? then
          Served(t.(outbound := t.outbound[key := entry.(machine := e.m)]), e.sent, None, e.err)
        else
          var kept := if s.result.value.outbound.Some? then e.outbound
                      else if late then t1.outbound
                      else Put(t1.outbound, Key(c.src, s.m.cfg.invokeID),
                               EntryFor(cfg, t.closed, entry.priority, s.m, c.now));
          Served(t.(outbound := if late && e.m.state != AwaitSegmentACK then kept - {key} else kept),
                 e.sent, None, if late then Some(APDUTimeout) else None)
  }

  // --- dispatching ---

  /** Tell the machine that there is no answer, send what it makes of that, return the cause. */
  function Failed(cfg: AseConfig, t: Tables, c: Circumstances, m: Machine, cause: AseError,
                  responseType: ResponseType): Served {
    var s := Step(m, HandlerFailed, MachineInput(None, None, Some(responseType)));
    if s.result.Err? then Served(t, [], None, Some(MachineFailure(s.result.error)))
    else
      var e := Emit(cfg, t, c, s.m, s.result.value);
      Served(t.(outbound := e.outbound), e.sent, None, if e.err.Some? then e.err else Some(cause))
  }

  /** Send the handler's answer, in segments when it is too long for one APDU. */
  function Answered(cfg: AseConfig, t: Tables, c: Circumstances, m: Machine, payload: seq<byte>,
                    responseType: ResponseType): Served {
    var long := MaxAPDUSizeExceeded(m.cfg, |payload|);
    var s := Step(m, if long then ResponseRequiresSegmentation else ResponseReady,
                  MachineInput(None, Some(payload), Some(responseType)));
    if s.result.Err? then Served(t, [], None, Some(MachineFailure(s.result.error)))
    else
      var e := Emit(cfg, t, c, s.m, s.result.value);
      Served(t.(outbound := e.outbound), e.sent, None,
             if e.err.Some? then e.err
             else if long && e.m.state != AwaitSegmentACK then Some(SegmentationUnsupported)
             else None)
  }

  function Dispatch(cfg: AseConfig, t: Tables, c: Circumstances, m: Machine, a: InboundAPDU, handler: Handler): Served {
    match handler
    case NotRegistered => Failed(cfg, t, c, m, HandlerNotFound, RejectType)
    case Fails => Failed(cfg, t, c, m, HandlerFailure, ErrorType).(dispatched := Some(a))
    case Answers(invokeID, destination, payload, responseType) =>
      if invokeID != a.invokeID || destination != c.src then
        Failed(cfg, t, c, m, InvalidAnswer, RejectType).(dispatched := Some(a))
      else Answered(cfg, t, c, m, payload, responseType).(dispatched := Some(a))
  }

  // --- confirmed requests ---

  function UnsegmentedArrives(cfg: AseConfig, t: Tables, c: Circumstances, a: InboundAPDU, handler: Handler): Served {
    var s := Step(NewMachine(MachineConfig(cfg, a)), InboundConfirmedRequest, In(a));
    if s.result.Err? then Served(t, [], None, Some(MachineFailure(s.result.error)))
    else Dispatch(cfg, t, c, s.m, a, handler)
  }

  /** The request handed to the application once every segment is in. */
  function Assembled(first: InboundAPDU, payload: seq<byte>): InboundAPDU {
    Inbound(ConfirmedRequest).(
      segmentedResponseAccepted := first.segmentedResponseAccepted,
      maxSegmentsAccepted := first.maxSegmentsAccepted,
      maxAPDULengthAccepted := first.maxAPDULengthAccepted,
      invokeID := first.invokeID, serviceChoice := first.serviceChoice, payload := payload)
  }

  /** An empty buffer is reported as not ready. */
  function AssembleAndDispatch(cfg: AseConfig, t: Tables, c: Circumstances, m: Machine, first: InboundAPDU,
                               handler: Handler): Served {
    if m.vars.segmentBuffer == [] then Served(t, [], None, Some(NotReady))
    else Dispatch(cfg, t, c, m, Assembled(first, m.vars.segmentBuffer), handler)
  }

  /** The table after an operation touched one inbound entry and sent something. */
  function With(t: Tables, key: Key, entry: Option<InboundEntry>, outbound: map<Key, OutboundEntry>): Tables {
    t.(inbound := Put(t.inbound, key, entry), outbound := outbound)
  }

  function Sooner(r: Served, sent: seq<OutboundAPDU>): Served {
    r.(sent := sent + r.sent)
  }

  function Refreshed(cfg: AseConfig, entry: InboundEntry, m: Machine, now: int): InboundEntry {
    entry.(machine := Timed(m, now + cfg.segmentedRequestTimeout), expiresAt := now + cfg.segmentedRequestTimeout)
  }

  /** A segment for an exchange whose deadline has passed ends the exchange. */
  function LateSegment(cfg: AseConfig, t: Tables, c: Circumstances, key: Key): Served
    requires key in t.inbound
  {
    var entry := t.inbound[key];
    var s := Step(entry.machine, SegmentTimeout, NoInput);
    if s.result.Err? then
      Served(With(t, key, Some(entry.(machine := s.m)), t.outbound), [], None, Some(MachineFailure(s.result.error)))
    else
      var e := EmitIfAny(cfg, t, c, s.m, s.result.value);
      if e.err.Some? then Served(With(t, key, Some(entry.(machine := e.m)), t.outbound), e.sent, None, e.err)
      else Served(With(t, key, None, e.outbound), e.sent, None, Some(APDUTimeout))
  }

  /** Sequence number 0 for an exchange already open: a duplicate of its first segment. */
  function FirstRepeats(cfg: AseConfig, t: Tables, c: Circumstances, a: InboundAPDU): Served
    requires Key(c.src, a.invokeID) in t.inbound
  {
    var key := Key(c.src, a.invokeID);
    var entry := t.inbound[key];
    var s := Step(entry.machine, InboundConfirmedRequest, In(a));
    if s.result.Err? then
      Served(With(t, key, Some(entry.(machine := s.m)), t.outbound), [], None, Some(MachineFailure(s.result.error)))
    else
      var e := EmitIfAny(cfg, t, c, s.m, s.result.value);
      if e.err.Some? then Served(With(t, key, Some(entry.(machine := e.m)), t.outbound), e.sent, None, e.err)
      else if e.m.state == Aborted then
        Served(With(t, key, None, e.outbound), e.sent, None,
               if s.result.value.action == SendAbort then Some(SegmentationUnsupported) else None)
      else Served(With(t, key, Some(Refreshed(cfg, entry, e.m, c.now)), e.outbound), e.sent, None, None)
  }

  /** Sequence number 0 with no exchange open. */
  function FirstOpens(cfg: AseConfig, t: Tables, c: Circumstances, a: InboundAPDU, handler: Handler): Served {
    var key := Key(c.src, a.invokeID);
    var s := Step(NewMachine(MachineConfig(cfg, a)), InboundConfirmedRequest, In(a));
    if s.result.Err? then Served(t, [], None, Some(MachineFailure(s.result.error)))
    else
      var e := EmitIfAny(cfg, t, c, s.m, s.result.value);
      var t1 := t.(outbound := e.outbound);
      if e.err.Some? then Served(t, e.sent, None, e.err)
      else if s.result.value.action == SendAbort then Served(t1, e.sent, None, Some(SegmentationUnsupported))
      else if e.m.state == AwaitResponse then Sooner(AssembleAndDispatch(cfg, t1, Since(c, |e.sent|), e.m, a, handler),
                                                     e.sent)
      else
        var started := InboundEntry(e.m, c.priority, a, 0);
        Served(With(t, key, Some(Refreshed(cfg, started, e.m, c.now)), e.outbound), e.sent, None, None)
  }

  /** Any other sequence number for an open exchange. */
  function SegmentContinues(cfg: AseConfig, t: Tables, c: Circumstances, a: InboundAPDU, handler: Handler): Served
    requires Key(c.src, a.invokeID) in t.inbound
  {
    var key := Key(c.src, a.invokeID);
    var entry := t.inbound[key];
    var s := Step(entry.machine, InboundSegment, In(a));
    if s.result.Err? then
      Served(With(t, key, Some(entry.(machine := s.m)), t.outbound), [], None, Some(MachineFailure(s.result.error)))
    else
      var e := EmitIfAny(cfg, t, c, s.m, s.result.value);
      if e.err.Some? then Served(With(t, key, Some(entry.(machine := e.m)), t.outbound), e.sent, None, e.err)
      else if e.m.state == AwaitResponse then
        Sooner(AssembleAndDispatch(cfg, With(t, key, None, e.outbound), Since(c.(priority := entry.priority), |e.sent|),
                                   e.m, entry.firstInbound, handler), e.sent)
      else if e.m.state == Aborted then
        Served(With(t, key, None, e.outbound), e.sent, None,
               Some(if s.result.value.action == SendSegmentACK || s.result.value.action == SendAbort
                    then SegmentationUnsupported else UnexpectedPDU))
      else Served(With(t, key, Some(Refreshed(cfg, entry, e.m, c.now)), e.outbound), e.sent, None, None)
  }

  function SegmentArrives(cfg: AseConfig, t: Tables, c: Circumstances, a: InboundAPDU, handler: Handler): Served {
    var key := Key(c.src, a.invokeID);
    if key in t.inbound && Expired(t.inbound[key].machine, c.now) then LateSegment(cfg, t, c, key)
    else if a.sequenceNumber == 0 then
      if key in t.inbound then FirstRepeats(cfg, t, c, a) else FirstOpens(cfg, t, c, a, handler)
    else if key in t.inbound then SegmentContinues(cfg, t, c, a, handler)
    else Served(t, [], None, Some(UnexpectedPDU))
  }

  function RequestArrives(cfg: AseConfig, t: Tables, c: Circumstances, a: InboundAPDU, handler: Handler): Served {
    if a.segmentedMessage then SegmentArrives(cfg, t, c, a, handler)
    else UnsegmentedArrives(cfg, t, c, a, handler)
  }

  // --- the collector ---

  /** What the collector does with one outbound entry: a machine whose deadline has passed sees
      the timeout, and its entry lives on when it sent its window once more. */
  function CollectedEntry(cfg: AseConfig, closed: bool, key: Key, entry: OutboundEntry, now: int,
                          failAt: Option<nat>): Emission {
    var s := Step(entry.machine, Timeout, NoInput);
    if s.result.Err? then Emission(map[], s.m, [], Some(MachineFailure(s.result.error)))
    else EmitIfAny(cfg, Tables(closed, map[], map[]), Circumstances(key.src, entry.priority, now, failAt), s.m,
                   s.result.value)
  }

  /** Inbound entries are dropped after a grace period, without a word to the requester. */
  function CollectedInbound(cfg: AseConfig, t: Tables, now: int): map<Key, InboundEntry> {
    map k | k in t.inbound && t.inbound[k].expiresAt >= now - cfg.gracePeriod :: t.inbound[k]
  }

  function CollectedOutbound(cfg: AseConfig, t: Tables, now: int, refusals: map<Key, nat>): map<Key, OutboundEntry> {
    CollectedBut(cfg, t, now, refusals, {})
  }

  /** The outbound table when the expired entries in pending are still to be tried again. */
  function CollectedBut(cfg: AseConfig, t: Tables, now: int, refusals: map<Key, nat>,
                        pending: set<Key>): map<Key, OutboundEntry> {
    map k | k in t.outbound && (t.outbound[k].expiresAt >= now
                                || (k !in pending && k in Late(cfg, t, now, refusals, k).outbound)) ::
      if t.outbound[k].expiresAt >= now then t.outbound[k] else Late(cfg, t, now, refusals, k).outbound[k]
  }

  /** What the collector sends to whom, the entries in pending left out. */
  function CollectorSends(cfg: AseConfig, t: Tables, now: int, refusals: map<Key, nat>,
                          pending: set<Key>): map<Key, seq<OutboundAPDU>> {
    map k | k in t.outbound && t.outbound[k].expiresAt < now && k !in pending :: Late(cfg, t, now, refusals, k).sent
  }

  function Late(cfg: AseConfig, t: Tables, now: int, refusals: map<Key, nat>, k: Key): Emission
    requires k in t.outbound
  {
    CollectedEntry(cfg, t.closed, k, t.outbound[k], now, if k in refusals then Some(refusals[k]) else None)
  }

  function Collected(cfg: AseConfig, t: Tables, now: int, refusals: map<Key, nat>): Tables {
    t.(inbound := CollectedInbound(cfg, t, now), outbound := CollectedOutbound(cfg, t, now, refusals))
  }

  /** Outbound entries are filed under the invoke ID of their machine. */
  predicate Filed(outbound: map<Key, OutboundEntry>) {
    forall k :: k in outbound ==> outbound[k].machine.cfg.invokeID == k.invokeID
  }

  /** Closing forgets every exchange; closing again changes nothing. */
  function Closed(t: Tables): Tables {
    if t.closed then t else Tables(true, map[], map[])
  }
}
