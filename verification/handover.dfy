/** End to end: whatever arrives, expires, is refused by the transport or collected, the
    application is handed a segmented request only as its sender cut it up. */
module Handover {
  import opened Wire
  import opened Apdu
  import opened MachineSpec
  import opened Reassembly
  import opened ServiceTables
  import opened Exchanges
  import opened Refusals

  /** The configuration of the machines created for the request. */
  function ConfigFor(cfg: AseConfig, q: Reassembly.Request): Config
    requires |q.segments| > 0
  {
    MachineConfig(cfg, Piece(q, 0))
  }

  /** A machine kept for the request: it holds the first segments, or was told that it cannot
      send and is stuck. */
  predicate Genuine(cfg: AseConfig, q: Reassembly.Request, m: Machine)
    requires |q.segments| > 0
  {
    m.state == Aborted || Holding(m, ConfigFor(cfg, q), q, m.vars.sequenceNumber)
  }

  predicate EntrySound(cfg: AseConfig, q: Reassembly.Request, e: InboundEntry)
    requires |q.segments| > 0
  {
    Genuine(cfg, q, e.machine) && e.firstInbound == Piece(q, 0)
  }

  predicate SoundAt(cfg: AseConfig, q: Reassembly.Request, key: Key, t: Tables)
    requires |q.segments| > 0
  {
    key in t.inbound ==> EntrySound(cfg, q, t.inbound[key])
  }

  function Whole(q: Reassembly.Request): InboundAPDU
    requires |q.segments| > 0
  {
    Assembled(Piece(q, 0), Concat(q.segments))
  }

  /** What the handler gets once every segment is in: an empty request counts as not ready. */
  function Due(q: Reassembly.Request): Option<InboundAPDU>
    requires |q.segments| > 0
  {
    if Concat(q.segments) == [] then None else Some(Whole(q))
  }

  /** The operation leaves the exchange sound and hands over the whole request or nothing. */
  predicate Right(cfg: AseConfig, q: Reassembly.Request, key: Key, r: Served)
    requires |q.segments| > 0
  {
    && SoundAt(cfg, q, key, r.t)
    && (r.dispatched.Some? ==> r.dispatched == Due(q))
  }

  // --- one operation ---

  lemma HoldingKeepsTime(cfg: AseConfig, q: Reassembly.Request, e: InboundEntry, m: Machine, now: int)
    requires |q.segments| > 0 && Genuine(cfg, q, m) && e.firstInbound == Piece(q, 0)
    ensures EntrySound(cfg, q, Refreshed(cfg, e, m, now))
  {
  }

  /** Being refused by the transport aborts a machine that has the whole request; any other
      receiving machine stays as it is. */
  lemma RefusalIsGenuine(cfg: AseConfig, q: Reassembly.Request, m: Machine)
    requires |q.segments| > 0
    requires m.state == AwaitResponse || Genuine(cfg, q, m)
    ensures Genuine(cfg, q, Step(m, CannotSend, NoInput).m)
  {
  }

  lemma EmitsGenuine(cfg: AseConfig, t: Tables, c: Circumstances, m: Machine, output: MachineOutput,
                     q: Reassembly.Request)
    requires |q.segments| > 0 && Deliverable(output)
    requires m.state == AwaitResponse || Genuine(cfg, q, m)
    ensures var e := EmitIfAny(cfg, t, c, m, output);
            if e.err.None? then e.m == m else Genuine(cfg, q, e.m)
  {
    RefusalIsGenuine(cfg, q, m);
    PushedAll(Sent(output), c.failAt, 0);
    hide Step, Encode, Genuine;
  }

  lemma AbortedRefuses(m: Machine, event: MachineEvent, input: MachineInput)
    requires m.state == Aborted && event != Close
    ensures Step(m, event, input) == Stepped(m, Err(InvalidStateTransition))
  {
  }

  lemma LateIsRight(cfg: AseConfig, t: Tables, c: Circumstances, key: Key, q: Reassembly.Request)
    requires |q.segments| > 0 && key in t.inbound && SoundAt(cfg, q, key, t)
    ensures Right(cfg, q, key, LateSegment(cfg, t, c, key))
  {
    var m := t.inbound[key].machine;
    if m.state == Aborted {
      AbortedRefuses(m, SegmentTimeout, NoInput);
    } else {
      ExpiryIsHealthy(m);
      var s := Step(m, SegmentTimeout, NoInput);
      EmitsGenuine(cfg, t, c, s.m, s.result.value, q);
    }
    hide Step, EmitIfAny, Holding;
  }

  lemma RepeatIsRight(cfg: AseConfig, t: Tables, c: Circumstances, q: Reassembly.Request)
    requires 1 <= |q.segments| <= 256
    requires var key := Key(c.src, q.header.invokeID); key in t.inbound && SoundAt(cfg, q, key, t)
    ensures Right(cfg, q, Key(c.src, q.header.invokeID), FirstRepeats(cfg, t, c, Piece(q, 0)))
  {
    var entry := t.inbound[Key(c.src, q.header.invokeID)];
    var m := entry.machine;
    if m.state == Aborted {
      AbortedRefuses(m, InboundConfirmedRequest, In(Piece(q, 0)));
    } else {
      RepeatIsHealthy(m, Piece(q, 0));
      OtherSegment(m, ConfigFor(cfg, q), q, m.vars.sequenceNumber, 0);
      var s := Step(m, InboundConfirmedRequest, In(Piece(q, 0)));
      assert Genuine(cfg, q, s.m);
      EmitsGenuine(cfg, t, c, s.m, s.result.value, q);
      HoldingKeepsTime(cfg, q, entry, s.m, c.now);
      hide Step, EmitIfAny, Holding, Refreshed, Genuine;
    }
  }

  lemma AssembledIsRight(cfg: AseConfig, t: Tables, c: Circumstances, m: Machine, first: InboundAPDU, handler: Handler)
    ensures var r := AssembleAndDispatch(cfg, t, c, m, first, handler);
            && r.t.inbound == t.inbound
            && (r.dispatched.Some? ==>
                  m.vars.segmentBuffer != [] && r.dispatched.value == Assembled(first, m.vars.segmentBuffer))
  {
    hide Step, Emit;
  }

  /** A machine after a segment: it may be kept, or it has the whole request. */
  predicate Progressed(cfg: AseConfig, q: Reassembly.Request, m: Machine, s: Stepped)
    requires |q.segments| > 0
  {
    && Healthy(m, s)
    && (Genuine(cfg, q, s.m) || (s.m.state == AwaitResponse && s.m.vars.segmentBuffer == Concat(q.segments)))
    && (s.m.state == AwaitResponse || s.m.state == Aborted || s.m.state == SegmentedRequestReceiving)
  }

  lemma OpeningProgresses(cfg: AseConfig, q: Reassembly.Request)
    requires 1 <= |q.segments| <= 256
    ensures var m := NewMachine(ConfigFor(cfg, q));
            Progressed(cfg, q, m, Step(m, InboundConfirmedRequest, In(Piece(q, 0))))
  {
    OpeningIsHealthy(ConfigFor(cfg, q), Piece(q, 0));
    if cfg.segmentation == Receive || cfg.segmentation == Both {
      FirstSegment(ConfigFor(cfg, q), q);
      hide Step, Healthy, Drain;
    } else {
      hide Healthy;
    }
  }

  lemma ContinuingProgresses(cfg: AseConfig, q: Reassembly.Request, m: Machine, i: nat)
    requires 1 <= i < |q.segments| <= 256 && m.state != Aborted && Genuine(cfg, q, m)
    ensures Progressed(cfg, q, m, Step(m, InboundSegment, In(Piece(q, i))))
  {
    hide Step, Healthy, Piece, Phase, AgreedWindow, Repeats, AbortAPDU, SegmentAck, ConfigFor;
    SegmentIsHealthy(m, Piece(q, i));
    if i == m.vars.sequenceNumber {
      AwaitedSegment(m, ConfigFor(cfg, q), q, i);
    } else {
      OtherSegment(m, ConfigFor(cfg, q), q, m.vars.sequenceNumber, i);
    }
  }

  lemma OpeningIsRight(cfg: AseConfig, t: Tables, c: Circumstances, q: Reassembly.Request, handler: Handler)
    requires 1 <= |q.segments| <= 256 && Key(c.src, q.header.invokeID) !in t.inbound
    ensures Right(cfg, q, Key(c.src, q.header.invokeID), FirstOpens(cfg, t, c, Piece(q, 0), handler))
  {
    var a := Piece(q, 0);
    assert a.invokeID == q.header.invokeID;
    hide Step, EmitIfAny, Genuine, Refreshed, AssembleAndDispatch, NewMachine;
    var s := Step(NewMachine(ConfigFor(cfg, q)), InboundConfirmedRequest, In(a));
    OpeningProgresses(cfg, q);
    EmitsGenuine(cfg, t, c, s.m, s.result.value, q);
    var e := EmitIfAny(cfg, t, c, s.m, s.result.value);
    AssembledIsRight(cfg, t.(outbound := e.outbound), Since(c, |e.sent|), e.m, a, handler);
    if Genuine(cfg, q, s.m) {
      HoldingKeepsTime(cfg, q, InboundEntry(s.m, c.priority, a, 0), s.m, c.now);
    }
  }

  lemma ContinuingIsRight(cfg: AseConfig, t: Tables, c: Circumstances, q: Reassembly.Request, i: nat, handler: Handler)
    requires 1 <= i < |q.segments| <= 256
    requires var key := Key(c.src, q.header.invokeID); key in t.inbound && SoundAt(cfg, q, key, t)
    ensures Right(cfg, q, Key(c.src, q.header.invokeID), SegmentContinues(cfg, t, c, Piece(q, i), handler))
  {
    var key := Key(c.src, q.header.invokeID);
    var entry := t.inbound[key];
    var a := Piece(q, i);
    if entry.machine.state == Aborted {
      AbortedRefuses(entry.machine, InboundSegment, In(a));
      hide Step, EmitIfAny, Holding;
    } else {
      ContinuingProgresses(cfg, q, entry.machine, i);
      hide Step, EmitIfAny, Genuine, Refreshed, AssembleAndDispatch;
      var s := Step(entry.machine, InboundSegment, In(a));
      EmitsGenuine(cfg, t, c, s.m, s.result.value, q);
      var e := EmitIfAny(cfg, t, c, s.m, s.result.value);
      AssembledIsRight(cfg, With(t, key, None, e.outbound), Since(c.(priority := entry.priority), |e.sent|), e.m,
                       Piece(q, 0), handler);
      if Genuine(cfg, q, s.m) {
        HoldingKeepsTime(cfg, q, entry, s.m, c.now);
      }
    }
  }

  lemma DispatchKeepsInbound(cfg: AseConfig, t: Tables, c: Circumstances, m: Machine, a: InboundAPDU, handler: Handler)
    ensures Dispatch(cfg, t, c, m, a, handler).t.inbound == t.inbound
  {
    hide Step, Emit;
  }

  /** The inbound entry under the key is the same in both tables, or missing from both. */
  predicate SameAt(t: Tables, u: Tables, key: Key) {
    (key in u.inbound <==> key in t.inbound) && (key in t.inbound ==> u.inbound[key] == t.inbound[key])
  }

  lemma OpeningTouches(cfg: AseConfig, t: Tables, c: Circumstances, a: InboundAPDU, handler: Handler, key: Key)
    requires key != Key(c.src, a.invokeID)
    ensures var r := FirstOpens(cfg, t, c, a, handler);
            SameAt(t, r.t, key)
  {
    var s := Step(NewMachine(MachineConfig(cfg, a)), InboundConfirmedRequest, In(a));
    hide Step, EmitIfAny, AssembleAndDispatch;
    if s.result.Ok? {
      var e := EmitIfAny(cfg, t, c, s.m, s.result.value);
      AssembledIsRight(cfg, t.(outbound := e.outbound), Since(c, |e.sent|), e.m, a, handler);
    }
  }

  lemma WithTouches(t: Tables, k: Key, entry: Option<InboundEntry>, outbound: map<Key, OutboundEntry>, key: Key)
    requires key != k
    ensures SameAt(t, With(t, k, entry, outbound), key)
  {
  }

  lemma ContinuingTouches(cfg: AseConfig, t: Tables, c: Circumstances, a: InboundAPDU, handler: Handler, key: Key)
    requires Key(c.src, a.invokeID) in t.inbound && key != Key(c.src, a.invokeID)
    ensures SameAt(t, SegmentContinues(cfg, t, c, a, handler).t, key)
  {
    var k := Key(c.src, a.invokeID);
    var entry := t.inbound[k];
    var s := Step(entry.machine, InboundSegment, In(a));
    hide Step, EmitIfAny, AssembleAndDispatch, Refreshed, Since, With, SameAt;
    WithTouches(t, k, Some(entry.(machine := s.m)), t.outbound, key);
    if s.result.Ok? {
      var e := EmitIfAny(cfg, t, c, s.m, s.result.value);
      WithTouches(t, k, Some(entry.(machine := e.m)), t.outbound, key);
      WithTouches(t, k, Some(Refreshed(cfg, entry, e.m, c.now)), e.outbound, key);
      WithTouches(t, k, None, e.outbound, key);
      var d := Since(c.(priority := entry.priority), |e.sent|);
      var u := With(t, k, None, e.outbound);
      AssembledIsRight(cfg, u, d, e.m, entry.firstInbound, handler);
      AssembledTouches(t, u, AssembleAndDispatch(cfg, u, d, e.m, entry.firstInbound, handler).t, key);
    }
  }

  lemma AssembledTouches(t: Tables, u: Tables, v: Tables, key: Key)
    requires SameAt(t, u, key) && v.inbound == u.inbound
    ensures SameAt(t, v, key)
  {
  }

  lemma RepeatTouches(cfg: AseConfig, t: Tables, c: Circumstances, a: InboundAPDU, key: Key)
    requires Key(c.src, a.invokeID) in t.inbound && key != Key(c.src, a.invokeID)
    ensures var r := FirstRepeats(cfg, t, c, a);
            SameAt(t, r.t, key)
    ensures var r := LateSegment(cfg, t, c, Key(c.src, a.invokeID));
            SameAt(t, r.t, key)
  {
    hide Step, EmitIfAny, Refreshed;
  }

  /** Operations on other exchanges do not touch this inbound entry. */
  lemma OthersUntouched(cfg: AseConfig, t: Tables, c: Circumstances, a: InboundAPDU, handler: Handler, key: Key)
    requires key != Key(c.src, a.invokeID)
    ensures var r := RequestArrives(cfg, t, c, a, handler);
            SameAt(t, r.t, key)
  {
    hide Step, Dispatch, FirstOpens, FirstRepeats, LateSegment, SegmentContinues;
    if !a.segmentedMessage {
      var s := Step(NewMachine(MachineConfig(cfg, a)), InboundConfirmedRequest, In(a));
      DispatchKeepsInbound(cfg, t, c, s.m, a, handler);
    } else if Key(c.src, a.invokeID) in t.inbound {
      ContinuingTouches(cfg, t, c, a, handler, key);
      RepeatTouches(cfg, t, c, a, key);
    } else {
      OpeningTouches(cfg, t, c, a, handler, key);
    }
  }

  /** Segmented requests of this exchange are segments of q; nothing is asked of any other
      operation. */
  predicate Belongs(q: Reassembly.Request, key: Key, op: Operation) {
    op.Request? && Key(op.c.src, op.a.invokeID) == key
    ==> exists i: nat :: i < |q.segments| && op.a == Piece(q, i)
  }

  function HandedBy(cfg: AseConfig, t: Tables, op: Operation, key: Key): seq<InboundAPDU> {
    if op.Request? && Key(op.c.src, op.a.invokeID) == key && Apply(cfg, t, op).dispatched.Some?
    then [Apply(cfg, t, op).dispatched.value]
    else []
  }

  /** What the application is handed for one exchange in a run. */
  function Handed(cfg: AseConfig, t: Tables, ops: seq<Operation>, key: Key): seq<InboundAPDU>
    decreases |ops|
  {
    if ops == [] then []
    else HandedBy(cfg, t, ops[0], key) + Handed(cfg, Apply(cfg, t, ops[0]).t, ops[1..], key)
  }

  lemma PieceIsRight(cfg: AseConfig, t: Tables, c: Circumstances, q: Reassembly.Request, i: nat, handler: Handler)
    requires i < |q.segments| <= 256 && SoundAt(cfg, q, Key(c.src, q.header.invokeID), t)
    ensures Right(cfg, q, Key(c.src, q.header.invokeID), RequestArrives(cfg, t, c, Piece(q, i), handler))
  {
    var key := Key(c.src, q.header.invokeID);
    assert Piece(q, i).invokeID == q.header.invokeID && Piece(q, i).sequenceNumber == i;
    if key in t.inbound && Expired(t.inbound[key].machine, c.now) {
      LateIsRight(cfg, t, c, key, q);
    } else if i == 0 {
      if key in t.inbound {
        RepeatIsRight(cfg, t, c, q);
      } else {
        OpeningIsRight(cfg, t, c, q, handler);
      }
    } else if key in t.inbound {
      ContinuingIsRight(cfg, t, c, q, i, handler);
    }
    hide Piece, Holding, LateSegment, FirstRepeats, FirstOpens, SegmentContinues, EntrySound;
  }

  lemma OperationIsRight(cfg: AseConfig, t: Tables, op: Operation, q: Reassembly.Request, key: Key)
    requires 1 <= |q.segments| <= 256 && SoundAt(cfg, q, key, t) && Belongs(q, key, op)
    requires key.invokeID == q.header.invokeID
    ensures SoundAt(cfg, q, key, Apply(cfg, t, op).t)
    ensures var h := HandedBy(cfg, t, op, key); h == [] || (Due(q).Some? && h == [Whole(q)])
  {
    match op {
      case Request(c, a, handler) =>
        if Key(c.src, a.invokeID) == key {
          var i: nat :| i < |q.segments| && a == Piece(q, i);
          PieceIsRight(cfg, t, c, q, i, handler);
        } else {
          OthersUntouched(cfg, t, c, a, handler, key);
        }
        hide RequestArrives, EntrySound;
      case Acknowledge(c, a) =>
        hide Step, Emit, EmitIfAny, EntrySound;
      case Collect(now, refusals) =>
        hide EntrySound;
      case CloseDown =>
    }
  }

  /** The request as its sender meant it: one unsegmented request with the joined payload. */
  predicate IsWhole(q: Reassembly.Request, x: InboundAPDU) {
    && x.pduType == ConfirmedRequest && !x.segmentedMessage && !x.moreFollows && x.payload == Concat(q.segments)
    && x.invokeID == q.header.invokeID && x.serviceChoice == q.header.serviceChoice
    && x.segmentedResponseAccepted == q.header.segmentedResponseAccepted
    && x.maxSegmentsAccepted == q.header.maxSegmentsAccepted
    && x.maxAPDULengthAccepted == q.header.maxAPDULengthAccepted
  }

  lemma WholeIsWhole(q: Reassembly.Request)
    requires |q.segments| > 0
    ensures IsWhole(q, Whole(q))
  {
  }

  /** Through any history in which the exchange's segments are lost, repeated, reordered, late
      or followed by transport refusals, and whatever else the tables see, the application is
      handed nothing but the request as it was before segmentation, and nothing at all when that
      is empty. */
  lemma {:induction false} HandedOnlyTheWhole(cfg: AseConfig, t: Tables, ops: seq<Operation>, q: Reassembly.Request,
                                              key: Key)
    requires 1 <= |q.segments| <= 256 && SoundAt(cfg, q, key, t)
    requires key.invokeID == q.header.invokeID
    requires forall i :: 0 <= i < |ops| ==> Belongs(q, key, ops[i])
    ensures forall x :: x in Handed(cfg, t, ops, key) ==> x == Whole(q) && IsWhole(q, x)
    ensures Concat(q.segments) == [] ==> Handed(cfg, t, ops, key) == []
    ensures SoundAt(cfg, q, key, RunTables(cfg, t, ops))
    decreases |ops|
  {
    WholeIsWhole(q);
    if ops != [] {
      assert Belongs(q, key, ops[0]);
      OperationIsRight(cfg, t, ops[0], q, key);
      hide Apply, SoundAt, Belongs, HandedBy;
      HandedOnlyTheWhole(cfg, Apply(cfg, t, ops[0]).t, ops[1..], q, key);
    }
  }

  // --- at most one hand-over for each first segment ---

  /** The operation brings a first segment of the exchange. */
  predicate BringsFirst(op: Operation, key: Key) {
    op.Request? && Key(op.c.src, op.a.invokeID) == key && op.a.sequenceNumber == 0
  }

  function FirstsIn(ops: seq<Operation>, key: Key): nat
    decreases |ops|
  {
    if ops == [] then 0 else (if BringsFirst(ops[0], key) then 1 else 0) + FirstsIn(ops[1..], key)
  }

  /** An exchange in progress may still be handed over once. */
  function Pending(t: Tables, key: Key): nat {
    if key in t.inbound then 1 else 0
  }

  lemma SegmentsDoNotDispatch(cfg: AseConfig, t: Tables, c: Circumstances, a: InboundAPDU)
    requires Key(c.src, a.invokeID) in t.inbound
    ensures FirstRepeats(cfg, t, c, a).dispatched.None?
    ensures LateSegment(cfg, t, c, Key(c.src, a.invokeID)).dispatched.None?
  {
    hide Step, EmitIfAny;
  }

  /** Opening an exchange hands over its only segment, or files it. */
  lemma OpeningPends(cfg: AseConfig, t: Tables, c: Circumstances, a: InboundAPDU, handler: Handler)
    requires Key(c.src, a.invokeID) !in t.inbound
    ensures var r := FirstOpens(cfg, t, c, a, handler); r.dispatched.Some? ==> Key(c.src, a.invokeID) !in r.t.inbound
  {
    var s := Step(NewMachine(MachineConfig(cfg, a)), InboundConfirmedRequest, In(a));
    hide Step, EmitIfAny, AssembleAndDispatch;
    if s.result.Ok? {
      var e := EmitIfAny(cfg, t, c, s.m, s.result.value);
      AssembledIsRight(cfg, t.(outbound := e.outbound), Since(c, |e.sent|), e.m, a, handler);
    }
  }

  /** A segment that completes the request takes its entry out of the table. */
  lemma ContinuingPends(cfg: AseConfig, t: Tables, c: Circumstances, a: InboundAPDU, handler: Handler)
    requires Key(c.src, a.invokeID) in t.inbound
    ensures var r := SegmentContinues(cfg, t, c, a, handler);
            r.dispatched.Some? ==> Key(c.src, a.invokeID) !in r.t.inbound
  {
    var key := Key(c.src, a.invokeID);
    var entry := t.inbound[key];
    var s := Step(entry.machine, InboundSegment, In(a));
    hide Step, EmitIfAny, AssembleAndDispatch;
    if s.result.Ok? {
      var e := EmitIfAny(cfg, t, c, s.m, s.result.value);
      AssembledIsRight(cfg, With(t, key, None, e.outbound), Since(c.(priority := entry.priority), |e.sent|), e.m,
                       entry.firstInbound, handler);
    }
  }

  lemma SegmentPends(cfg: AseConfig, t: Tables, c: Circumstances, a: InboundAPDU, handler: Handler)
    ensures var key := Key(c.src, a.invokeID);
            var r := SegmentArrives(cfg, t, c, a, handler);
            (if r.dispatched.Some? then 1 else 0) + Pending(r.t, key)
            <= Pending(t, key) + (if a.sequenceNumber == 0 then 1 else 0)
  {
    var key := Key(c.src, a.invokeID);
    hide LateSegment, FirstRepeats, FirstOpens, SegmentContinues;
    if key in t.inbound {
      SegmentsDoNotDispatch(cfg, t, c, a);
      ContinuingPends(cfg, t, c, a, handler);
    } else {
      OpeningPends(cfg, t, c, a, handler);
    }
  }

  lemma OperationPends(cfg: AseConfig, t: Tables, op: Operation, q: Reassembly.Request, key: Key)
    requires Belongs(q, key, op)
    ensures |HandedBy(cfg, t, op, key)| + Pending(Apply(cfg, t, op).t, key)
            <= Pending(t, key) + (if BringsFirst(op, key) then 1 else 0)
  {
    match op {
      case Request(c, a, handler) =>
        hide SegmentArrives, UnsegmentedArrives;
        if Key(c.src, a.invokeID) == key {
          SegmentPends(cfg, t, c, a, handler);
        } else {
          OthersUntouched(cfg, t, c, a, handler, key);
        }
      case Acknowledge(c, a) =>
        hide Step, Emit, EmitIfAny;
      case Collect(now, refusals) =>
      case CloseDown =>
    }
  }

  /** Through any history a request is handed over at most once for each time its first segment
      arrived, an exchange already open counting as one more. */
  lemma {:induction false} HandedOncePerFirst(cfg: AseConfig, t: Tables, ops: seq<Operation>, q: Reassembly.Request,
                                              key: Key)
    requires forall i :: 0 <= i < |ops| ==> Belongs(q, key, ops[i])
    ensures |Handed(cfg, t, ops, key)| <= FirstsIn(ops, key) + Pending(t, key)
    decreases |ops|
  {
    if ops != [] {
      assert Belongs(q, key, ops[0]);
      OperationPends(cfg, t, ops[0], q, key);
      hide Apply, Pending, Belongs, HandedBy, BringsFirst;
      HandedOncePerFirst(cfg, Apply(cfg, t, ops[0]).t, ops[1..], q, key);
    }
  }

  // --- and the whole request does arrive ---

  /** The exchange holds the first k segments and may wait until the deadline. */
  predicate Waiting(cfg: AseConfig, q: Reassembly.Request, key: Key, t: Tables, k: nat, deadline: int)
    requires |q.segments| > 0
  {
    && key in t.inbound && t.inbound[key].firstInbound == Piece(q, 0)
    && Holding(t.inbound[key].machine, ConfigFor(cfg, q), q, k)
    && t.inbound[key].machine.vars.segmentTimeout == Some(deadline)
  }

  /** A Segment-ACK answers segment k: it is the last, or fills a window. */
  predicate AckIsDue(cfg: AseConfig, q: Reassembly.Request, k: nat)
    requires k < |q.segments|
  {
    k + 1 == |q.segments| || (k + 1) % AgreedWindow(ConfigFor(cfg, q), q) == 0
  }

  /** The transport refuses the Segment-ACK for segment k. */
  predicate Unacked(cfg: AseConfig, q: Reassembly.Request, k: nat, c: Circumstances)
    requires k < |q.segments|
  {
    AckIsDue(cfg, q, k) && c.failAt == Some(0)
  }

  lemma DispatchHandsOver(cfg: AseConfig, t: Tables, c: Circumstances, m: Machine, first: InboundAPDU, handler: Handler)
    ensures AssembleAndDispatch(cfg, t, c, m, first, handler).dispatched
            == if m.vars.segmentBuffer == [] || handler == NotRegistered then None
               else Some(Assembled(first, m.vars.segmentBuffer))
  {
    hide Step, Emit;
  }

  /** A step that took segment k, and acknowledges it when that is due. */
  predicate Took(cfg: AseConfig, q: Reassembly.Request, m: Machine, s: Stepped, k: nat)
    requires k < |q.segments|
  {
    && Healthy(m, s) && s.result.value == (if AckIsDue(cfg, q, k) then PositiveAck(s.m, k % 256) else Silence)
    && if k + 1 == |q.segments| then s.m.state == AwaitResponse && s.m.vars.segmentBuffer == Concat(q.segments)
       else s.m.state == SegmentedRequestReceiving && Holding(s.m, ConfigFor(cfg, q), q, k + 1)
  }

  /** The element accepts segmented requests. */
  predicate Supports(cfg: AseConfig) {
    cfg.segmentation == Receive || cfg.segmentation == Both
  }

  lemma FirstIsTook(cfg: AseConfig, q: Reassembly.Request)
    requires 1 <= |q.segments| <= 256 && Supports(cfg)
    ensures var m := NewMachine(ConfigFor(cfg, q));
            Took(cfg, q, m, Step(m, InboundConfirmedRequest, In(Piece(q, 0))), 0)
  {
    FirstSegment(ConfigFor(cfg, q), q);
    OpeningIsHealthy(ConfigFor(cfg, q), Piece(q, 0));
    PhaseIsRemainder(1, AgreedWindow(ConfigFor(cfg, q), q));
    hide Step, Drain, Healthy, AgreedWindow;
  }

  lemma TookWhen(cfg: AseConfig, q: Reassembly.Request, m: Machine, s: Stepped, k: nat)
    requires k < |q.segments| <= 256 && Healthy(m, s)
    requires var last := k + 1 == |q.segments|;
             && s.result == Ok(if last || Phase(k + 1, AgreedWindow(ConfigFor(cfg, q), q)) == 0
                               then PositiveAck(s.m, k) else Silence)
             && if last then s.m.state == AwaitResponse && s.m.vars.segmentBuffer == Concat(q.segments)
                else Holding(s.m, ConfigFor(cfg, q), q, k + 1)
    ensures Took(cfg, q, m, s, k)
  {
    hide Healthy, AgreedWindow, Phase, Piece, ConfigFor, PositiveAck;
    PhaseIsRemainder(k + 1, AgreedWindow(ConfigFor(cfg, q), q));
  }

  lemma NextIsTook(cfg: AseConfig, q: Reassembly.Request, m: Machine, k: nat)
    requires |q.segments| > 0 && Holding(m, ConfigFor(cfg, q), q, k)
    ensures Took(cfg, q, m, Step(m, InboundSegment, In(Piece(q, k))), k)
  {
    assert m.state == SegmentedRequestReceiving && k < 256 && |q.segments| <= 256;
    hide Step, Healthy, AgreedWindow, Phase, Piece, ConfigFor, PositiveAck, Holding, Took;
    AwaitedSegment(m, ConfigFor(cfg, q), q, k);
    SegmentIsHealthy(m, Piece(q, k));
    TookWhen(cfg, q, m, Step(m, InboundSegment, In(Piece(q, k))), k);
  }

  lemma RefreshedWaits(cfg: AseConfig, q: Reassembly.Request, key: Key, t: Tables, e: InboundEntry, m: Machine,
                       k: nat, now: int, outbound: map<Key, OutboundEntry>)
    requires |q.segments| > 0 && Holding(m, ConfigFor(cfg, q), q, k) && e.firstInbound == Piece(q, 0)
    ensures Waiting(cfg, q, key, With(t, key, Some(Refreshed(cfg, e, m, now)), outbound), k,
                    now + cfg.segmentedRequestTimeout)
  {
  }

  /** A refused Segment-ACK does not refresh the deadline. */
  function NextDeadline(cfg: AseConfig, q: Reassembly.Request, k: nat, c: Circumstances, deadline: int): int
    requires k < |q.segments|
  {
    if k > 0 && Unacked(cfg, q, k, c) then deadline else c.now + cfg.segmentedRequestTimeout
  }

  /** What the last segment brings: the request is handed over unless its acknowledgement was
      refused or nobody is registered for it. */
  function Final(q: Reassembly.Request, unacked: bool, handler: Handler): Option<InboundAPDU>
    requires |q.segments| > 0
  {
    if unacked || handler == NotRegistered then None else Due(q)
  }

  /** The operation took segment k: the request is settled, or the exchange waits on; when the
      first Segment-ACK was refused there is no exchange. */
  predicate Advances(cfg: AseConfig, q: Reassembly.Request, key: Key, c: Circumstances, handler: Handler, r: Served,
                     k: nat, deadline: int)
    requires k < |q.segments|
  {
    if k + 1 == |q.segments| then r.dispatched == Final(q, Unacked(cfg, q, k, c), handler)
    else
      && r.dispatched.None?
      && if k == 0 && Unacked(cfg, q, k, c) then key !in r.t.inbound
         else Waiting(cfg, q, key, r.t, k + 1, NextDeadline(cfg, q, k, c, deadline))
  }

  /** What goes out for a segment that was taken. */
  lemma TookEmits(cfg: AseConfig, t: Tables, c: Circumstances, q: Reassembly.Request, m: Machine, s: Stepped, k: nat)
    requires k < |q.segments| && Took(cfg, q, m, s, k)
    ensures Emits(cfg, t, c, q, s, k, EmitIfAny(cfg, t, c, s.m, s.result.value))
  {
    hide Step, Holding, AckIsDue, AllEncode, Sendable, Emit;
    HealthyEmits(cfg, t, c, m, s);
    EmissionExactly(cfg, t, c, s.m, s.result.value);
    EmitReports(cfg, t, c, s.m, s.result.value);
  }

  lemma TookIsFine(cfg: AseConfig, q: Reassembly.Request, m: Machine, s: Stepped, k: nat)
    requires k < |q.segments| && Took(cfg, q, m, s, k)
    ensures s.result.Ok? && s.result.value.action != SendAbort && s.m.state != Aborted && s.m.state != AwaitSegmentACK
  {
    hide Holding, AckIsDue, Sendable, AllEncode;
  }

  lemma TookAll(cfg: AseConfig, q: Reassembly.Request, m: Machine, s: Stepped)
    requires |q.segments| > 0 && Took(cfg, q, m, s, |q.segments| - 1)
    ensures s.m.state == AwaitResponse && s.m.vars.segmentBuffer == Concat(q.segments)
  {
  }

  lemma TookSome(cfg: AseConfig, q: Reassembly.Request, m: Machine, s: Stepped, k: nat)
    requires k + 1 < |q.segments| && Took(cfg, q, m, s, k)
    ensures s.m.state == SegmentedRequestReceiving && Holding(s.m, ConfigFor(cfg, q), q, k + 1)
  {
  }

  /** What is sent for a segment that was taken, and how it leaves the machine. */
  predicate Emits(cfg: AseConfig, t: Tables, c: Circumstances, q: Reassembly.Request, s: Stepped, k: nat, e: Emission)
    requires k < |q.segments|
  {
    if Unacked(cfg, q, k, c) then
      e.err == Some(TransportFailure) && e.m == Step(s.m, CannotSend, NoInput).m && e.outbound == t.outbound
    else
      && e.err.None? && e.m == s.m
      && (s.result.Ok? ==> e.sent == if s.result.value.outbound.Some? then Sent(s.result.value) else [])
  }

  /** The effect of a first segment in terms of its step and what is sent for it. */
  function Opened(cfg: AseConfig, t: Tables, c: Circumstances, a: InboundAPDU, handler: Handler, e: Emission): Served {
    if e.err.Some? then Served(t, e.sent, None, e.err)
    else if e.m.state == AwaitResponse then
      Sooner(AssembleAndDispatch(cfg, t.(outbound := e.outbound), Since(c, |e.sent|), e.m, a, handler), e.sent)
    else
      var entry := Refreshed(cfg, InboundEntry(e.m, c.priority, a, 0), e.m, c.now);
      Served(With(t, Key(c.src, a.invokeID), Some(entry), e.outbound), e.sent, None, None)
  }

  lemma OpeningUnfolds(cfg: AseConfig, t: Tables, c: Circumstances, a: InboundAPDU, handler: Handler, s: Stepped,
                       e: Emission)
    requires s == Step(NewMachine(MachineConfig(cfg, a)), InboundConfirmedRequest, In(a))
    requires s.result.Ok? && s.result.value.action != SendAbort && e == EmitIfAny(cfg, t, c, s.m, s.result.value)
    ensures FirstOpens(cfg, t, c, a, handler) == Opened(cfg, t, c, a, handler, e)
  {
    hide Step, EmitIfAny, AssembleAndDispatch, Refreshed, With, Since;
  }

  lemma FirstEmits(cfg: AseConfig, t: Tables, c: Circumstances, q: Reassembly.Request, handler: Handler)
    returns (s: Stepped, e: Emission)
    requires 1 <= |q.segments| <= 256 && Supports(cfg) && Key(c.src, q.header.invokeID) !in t.inbound
    ensures Took(cfg, q, NewMachine(ConfigFor(cfg, q)), s, 0) && Emits(cfg, t, c, q, s, 0, e)
    ensures RequestArrives(cfg, t, c, Piece(q, 0), handler) == Opened(cfg, t, c, Piece(q, 0), handler, e)
  {
    hide Step, Took, FirstOpens, Unacked, NewMachine, EmitIfAny, Opened;
    var a := Piece(q, 0);
    assert a.invokeID == q.header.invokeID && a.sequenceNumber == 0 && a.segmentedMessage;
    var m := NewMachine(ConfigFor(cfg, q));
    s := Step(m, InboundConfirmedRequest, In(a));
    FirstIsTook(cfg, q);
    TookIsFine(cfg, q, m, s, 0);
    TookEmits(cfg, t, c, q, m, s, 0);
    e := EmitIfAny(cfg, t, c, s.m, s.result.value);
    OpeningUnfolds(cfg, t, c, a, handler, s, e);
  }

  lemma OnlySettles(cfg: AseConfig, t: Tables, c: Circumstances, q: Reassembly.Request, handler: Handler, s: Stepped,
                    e: Emission)
    requires |q.segments| == 1 && Took(cfg, q, NewMachine(ConfigFor(cfg, q)), s, 0) && Emits(cfg, t, c, q, s, 0, e)
    ensures Opened(cfg, t, c, Piece(q, 0), handler, e).dispatched == Final(q, Unacked(cfg, q, 0, c), handler)
  {
    hide Step, AssembleAndDispatch, Piece, NewMachine, Since, Unacked, Took, Assembled;
    TookAll(cfg, q, NewMachine(ConfigFor(cfg, q)), s);
    DispatchHandsOver(cfg, t.(outbound := e.outbound), Since(c, |e.sent|), s.m, Piece(q, 0), handler);
  }

  lemma FirstWaits(cfg: AseConfig, t: Tables, c: Circumstances, q: Reassembly.Request, handler: Handler, deadline: int,
                   s: Stepped, e: Emission)
    requires |q.segments| > 1 && !Unacked(cfg, q, 0, c)
    requires Took(cfg, q, NewMachine(ConfigFor(cfg, q)), s, 0) && Emits(cfg, t, c, q, s, 0, e)
    ensures var key := Key(c.src, q.header.invokeID);
            var r := Opened(cfg, t, c, Piece(q, 0), handler, e);
            r.dispatched.None? && Waiting(cfg, q, key, r.t, 1, NextDeadline(cfg, q, 0, c, deadline))
  {
    var key := Key(c.src, q.header.invokeID);
    assert Piece(q, 0).invokeID == q.header.invokeID;
    hide Step, AssembleAndDispatch, Piece, NewMachine, Waiting, Refreshed, With, Since, Took, AckIsDue, Holding;
    TookSome(cfg, q, NewMachine(ConfigFor(cfg, q)), s, 0);
    RefreshedWaits(cfg, q, key, t, InboundEntry(s.m, c.priority, Piece(q, 0), 0), s.m, 1, c.now, e.outbound);
  }

  lemma FirstIsTaken(cfg: AseConfig, t: Tables, c: Circumstances, q: Reassembly.Request, handler: Handler,
                     deadline: int)
    requires 1 <= |q.segments| <= 256 && Supports(cfg) && Key(c.src, q.header.invokeID) !in t.inbound
    ensures var r := RequestArrives(cfg, t, c, Piece(q, 0), handler);
            && Advances(cfg, q, Key(c.src, q.header.invokeID), c, handler, r, 0, deadline)
            && (Unacked(cfg, q, 0, c) ==> r.t == t && r.err == Some(TransportFailure))
  {
    hide RequestArrives, Step, AssembleAndDispatch, Piece, NewMachine, Waiting, With, Refreshed, Since, Took, Unacked,
         NextDeadline, Final;
    var s, e := FirstEmits(cfg, t, c, q, handler);
    if |q.segments| == 1 {
      OnlySettles(cfg, t, c, q, handler, s, e);
    } else if !Unacked(cfg, q, 0, c) {
      FirstWaits(cfg, t, c, q, handler, deadline, s, e);
    }
  }

  /** A refused acknowledgement leaves the machine holding its segments, at the old deadline. */
  lemma RefusedWaits(cfg: AseConfig, q: Reassembly.Request, key: Key, t: Tables, s: Stepped, k: nat, deadline: int)
    requires 1 <= k && k + 1 < |q.segments| && Waiting(cfg, q, key, t, k, deadline)
    requires Took(cfg, q, t.inbound[key].machine, s, k)
    ensures var n := Step(s.m, CannotSend, NoInput).m;
            Waiting(cfg, q, key, With(t, key, Some(t.inbound[key].(machine := n)), t.outbound), k + 1, deadline)
  {
    hide AckIsDue, Deliverable, Sendable, Piece;
    RefusedMachine(s.m);
  }

  /** The effect of a further segment in terms of its step and what is sent for it. */
  function Continued(cfg: AseConfig, t: Tables, c: Circumstances, key: Key, handler: Handler, e: Emission): Served
    requires key in t.inbound
  {
    var entry := t.inbound[key];
    if e.err.Some? then Served(With(t, key, Some(entry.(machine := e.m)), t.outbound), e.sent, None, e.err)
    else if e.m.state == AwaitResponse then
      Sooner(AssembleAndDispatch(cfg, With(t, key, None, e.outbound), Since(c.(priority := entry.priority), |e.sent|),
                                 e.m, entry.firstInbound, handler), e.sent)
    else Served(With(t, key, Some(Refreshed(cfg, entry, e.m, c.now)), e.outbound), e.sent, None, None)
  }

  lemma ContinuingUnfolds(cfg: AseConfig, t: Tables, c: Circumstances, a: InboundAPDU, handler: Handler, s: Stepped,
                          e: Emission)
    requires Key(c.src, a.invokeID) in t.inbound
    requires s == Step(t.inbound[Key(c.src, a.invokeID)].machine, InboundSegment, In(a))
    requires s.result.Ok? && e == EmitIfAny(cfg, t, c, s.m, s.result.value) && (e.err.None? ==> e.m.state != Aborted)
    ensures SegmentContinues(cfg, t, c, a, handler) == Continued(cfg, t, c, Key(c.src, a.invokeID), handler, e)
  {
    hide Step, EmitIfAny, AssembleAndDispatch, Refreshed, With, Since;
  }

  lemma NextEmits(cfg: AseConfig, t: Tables, c: Circumstances, q: Reassembly.Request, k: nat, deadline: int,
                  handler: Handler)
    returns (s: Stepped, e: Emission)
    requires 1 <= k < |q.segments| <= 256 && Waiting(cfg, q, Key(c.src, q.header.invokeID), t, k, deadline)
    requires c.now <= deadline
    ensures var key := Key(c.src, q.header.invokeID);
            && key in t.inbound && Took(cfg, q, t.inbound[key].machine, s, k) && Emits(cfg, t, c, q, s, k, e)
            && RequestArrives(cfg, t, c, Piece(q, k), handler) == Continued(cfg, t, c, key, handler, e)
  {
    hide Step, Took, SegmentContinues, Unacked, EmitIfAny, Continued, Holding;
    var a := Piece(q, k);
    assert a.invokeID == q.header.invokeID && a.sequenceNumber == k && a.segmentedMessage;
    var m := t.inbound[Key(c.src, q.header.invokeID)].machine;
    s := Step(m, InboundSegment, In(a));
    NextIsTook(cfg, q, m, k);
    TookIsFine(cfg, q, m, s, k);
    TookEmits(cfg, t, c, q, m, s, k);
    e := EmitIfAny(cfg, t, c, s.m, s.result.value);
    ContinuingUnfolds(cfg, t, c, a, handler, s, e);
  }

  lemma LastSettles(cfg: AseConfig, t: Tables, c: Circumstances, q: Reassembly.Request, key: Key, handler: Handler,
                    s: Stepped, e: Emission)
    requires |q.segments| > 0 && key in t.inbound && t.inbound[key].firstInbound == Piece(q, 0)
    requires var k := |q.segments| - 1; Took(cfg, q, t.inbound[key].machine, s, k) && Emits(cfg, t, c, q, s, k, e)
    ensures Continued(cfg, t, c, key, handler, e).dispatched == Final(q, Unacked(cfg, q, |q.segments| - 1, c), handler)
  {
    hide Step, AssembleAndDispatch, Piece, With, Since, Unacked, Took, Assembled;
    var entry := t.inbound[key];
    TookAll(cfg, q, entry.machine, s);
    DispatchHandsOver(cfg, With(t, key, None, e.outbound), Since(c.(priority := entry.priority), |e.sent|), s.m,
                      Piece(q, 0), handler);
  }

  lemma NextWaits(cfg: AseConfig, t: Tables, c: Circumstances, q: Reassembly.Request, key: Key, k: nat, deadline: int,
                  handler: Handler, s: Stepped, e: Emission)
    requires 1 <= k && k + 1 < |q.segments| && Waiting(cfg, q, key, t, k, deadline)
    requires Took(cfg, q, t.inbound[key].machine, s, k) && Emits(cfg, t, c, q, s, k, e)
    ensures var r := Continued(cfg, t, c, key, handler, e);
            r.dispatched.None? && Waiting(cfg, q, key, r.t, k + 1, NextDeadline(cfg, q, k, c, deadline))
  {
    var entry := t.inbound[key];
    assert entry.firstInbound == Piece(q, 0);
    hide Step, AssembleAndDispatch, Piece, Waiting, Refreshed, With, Since, Took, AckIsDue, Holding;
    TookSome(cfg, q, entry.machine, s, k);
    if Unacked(cfg, q, k, c) {
      RefusedWaits(cfg, q, key, t, s, k, deadline);
    } else {
      RefreshedWaits(cfg, q, key, t, entry, s.m, k + 1, c.now, e.outbound);
    }
  }

  lemma WaitingIsFiled(cfg: AseConfig, q: Reassembly.Request, key: Key, t: Tables, k: nat, deadline: int)
    requires |q.segments| > 0 && Waiting(cfg, q, key, t, k, deadline)
    ensures key in t.inbound && t.inbound[key].firstInbound == Piece(q, 0)
  {
    hide Holding, Piece;
  }

  lemma LastAdvances(cfg: AseConfig, q: Reassembly.Request, key: Key, c: Circumstances, handler: Handler, r: Served,
                     k: nat, deadline: int)
    requires k + 1 == |q.segments| && r.dispatched == Final(q, Unacked(cfg, q, k, c), handler)
    ensures Advances(cfg, q, key, c, handler, r, k, deadline)
  {
  }

  lemma OthersAdvance(cfg: AseConfig, q: Reassembly.Request, key: Key, c: Circumstances, handler: Handler, r: Served,
                      k: nat, deadline: int)
    requires 1 <= k && k + 1 < |q.segments| && r.dispatched.None?
    requires Waiting(cfg, q, key, r.t, k + 1, NextDeadline(cfg, q, k, c, deadline))
    ensures Advances(cfg, q, key, c, handler, r, k, deadline)
  {
    hide Waiting, NextDeadline, Unacked;
  }

  lemma NextIsTaken(cfg: AseConfig, t: Tables, c: Circumstances, q: Reassembly.Request, k: nat, deadline: int,
                    handler: Handler)
    requires 1 <= k < |q.segments| <= 256 && Waiting(cfg, q, Key(c.src, q.header.invokeID), t, k, deadline)
    requires c.now <= deadline
    ensures Advances(cfg, q, Key(c.src, q.header.invokeID), c, handler, RequestArrives(cfg, t, c, Piece(q, k), handler),
                     k, deadline)
  {
    hide RequestArrives, Piece, Waiting, Took, Unacked, NextDeadline, Emits, Continued, Final, Advances;
    var key := Key(c.src, q.header.invokeID);
    WaitingIsFiled(cfg, q, key, t, k, deadline);
    var s, e := NextEmits(cfg, t, c, q, k, deadline, handler);
    if k + 1 == |q.segments| {
      LastSettles(cfg, t, c, q, key, handler, s, e);
      LastAdvances(cfg, q, key, c, handler, Continued(cfg, t, c, key, handler, e), k, deadline);
    } else {
      NextWaits(cfg, t, c, q, key, k, deadline, handler, s, e);
      OthersAdvance(cfg, q, key, c, handler, Continued(cfg, t, c, key, handler, e), k, deadline);
    }
  }

  /** The segments from number k on arrive once each, in order, each before the deadline then in
      force; nothing else happens. The transport refuses what it likes. */
  predicate Prompt(cfg: AseConfig, q: Reassembly.Request, key: Key, ops: seq<Operation>, k: nat, deadline: int)
    decreases |ops|
  {
    if k >= |q.segments| then k == |q.segments| && ops == []
    else
      && ops != [] && ops[0].Request? && ops[0].a == Piece(q, k)
      && ops[0].c.src == key.src && (k > 0 ==> ops[0].c.now <= deadline)
      && Prompt(cfg, q, key, ops[1..], k + 1, NextDeadline(cfg, q, k, ops[0].c, deadline))
  }

  /** One operation for each segment. */
  lemma {:induction false} PromptLength(cfg: AseConfig, q: Reassembly.Request, key: Key, ops: seq<Operation>, k: nat,
                                        deadline: int)
    requires Prompt(cfg, q, key, ops, k, deadline)
    ensures |ops| == |q.segments| - k && forall i :: 0 <= i < |ops| ==> ops[i].Request?
    decreases |ops|
  {
    if ops != [] {
      PromptLength(cfg, q, key, ops[1..], k + 1, NextDeadline(cfg, q, k, ops[0].c, deadline));
    }
  }

  /** One prompt segment, and the run that follows it. */
  lemma HandedUnfolds(cfg: AseConfig, t: Tables, ops: seq<Operation>, q: Reassembly.Request, key: Key, k: nat,
                      deadline: int)
    requires k < |q.segments| && key.invokeID == q.header.invokeID && Prompt(cfg, q, key, ops, k, deadline)
    ensures var r := RequestArrives(cfg, t, ops[0].c, Piece(q, k), ops[0].handler);
            Handed(cfg, t, ops, key)
            == (if r.dispatched.Some? then [r.dispatched.value] else []) + Handed(cfg, r.t, ops[1..], key)
  {
    hide RequestArrives, NextDeadline;
    assert Piece(q, k).invokeID == key.invokeID;
  }

  lemma HandedNothing(cfg: AseConfig, t: Tables, key: Key)
    ensures Handed(cfg, t, [], key) == []
  {
  }

  /** The outcome of a prompt run once an exchange is open depends on its last operation. */
  function Settled(cfg: AseConfig, q: Reassembly.Request, last: Operation): seq<InboundAPDU>
    requires |q.segments| > 0 && last.Request?
  {
    var f := Final(q, Unacked(cfg, q, |q.segments| - 1, last.c), last.handler);
    if f.Some? then [f.value] else []
  }

  lemma {:induction false} RestIsHandedOver(cfg: AseConfig, t: Tables, ops: seq<Operation>, q: Reassembly.Request,
                                            key: Key, k: nat, deadline: int)
    requires 1 <= k < |q.segments| <= 256 && key.invokeID == q.header.invokeID
    requires Waiting(cfg, q, key, t, k, deadline) && Prompt(cfg, q, key, ops, k, deadline)
    ensures ops != [] && ops[|ops| - 1].Request? && Handed(cfg, t, ops, key) == Settled(cfg, q, ops[|ops| - 1])
    decreases |ops|
  {
    hide RequestArrives, Waiting, Piece, Handed, Unacked, NextDeadline;
    PromptLength(cfg, q, key, ops, k, deadline);
    HandedUnfolds(cfg, t, ops, q, key, k, deadline);
    NextIsTaken(cfg, t, ops[0].c, q, k, deadline, ops[0].handler);
    var r := RequestArrives(cfg, t, ops[0].c, Piece(q, k), ops[0].handler);
    if k + 1 == |q.segments| {
      HandedNothing(cfg, r.t, key);
      assert ops[1..] == [];
    } else {
      RestIsHandedOver(cfg, r.t, ops[1..], q, key, k + 1, NextDeadline(cfg, q, k, ops[0].c, deadline));
    }
  }

  lemma StrangerIsRefused(cfg: AseConfig, t: Tables, c: Circumstances, a: InboundAPDU, handler: Handler)
    requires a.segmentedMessage && a.sequenceNumber != 0 && Key(c.src, a.invokeID) !in t.inbound
    ensures RequestArrives(cfg, t, c, a, handler) == Served(t, [], None, Some(UnexpectedPDU))
  {
  }

  /** With no exchange open, segments other than the first are strangers. */
  lemma {:induction false} StrangersAreRefused(cfg: AseConfig, t: Tables, ops: seq<Operation>, q: Reassembly.Request,
                                               key: Key, k: nat, deadline: int)
    requires 1 <= k <= |q.segments| <= 256 && key.invokeID == q.header.invokeID
    requires key !in t.inbound && Prompt(cfg, q, key, ops, k, deadline)
    ensures Handed(cfg, t, ops, key) == []
    decreases |ops|
  {
    hide Handed, NextDeadline, RequestArrives;
    if k == |q.segments| {
      HandedNothing(cfg, t, key);
    } else {
      HandedUnfolds(cfg, t, ops, q, key, k, deadline);
      StrangerIsRefused(cfg, t, ops[0].c, Piece(q, k), ops[0].handler);
      StrangersAreRefused(cfg, t, ops[1..], q, key, k + 1, NextDeadline(cfg, q, k, ops[0].c, deadline));
    }
  }

  /** Without support for segmentation the first segment opens nothing. */
  lemma UnsupportedOpensNothing(cfg: AseConfig, t: Tables, c: Circumstances, q: Reassembly.Request, handler: Handler)
    requires |q.segments| > 0 && !Supports(cfg) && Key(c.src, q.header.invokeID) !in t.inbound
    ensures var r := RequestArrives(cfg, t, c, Piece(q, 0), handler);
            r.dispatched.None? && Key(c.src, q.header.invokeID) !in r.t.inbound
  {
    hide EmitIfAny, AssembleAndDispatch;
    var a := Piece(q, 0);
    assert a.invokeID == q.header.invokeID && a.sequenceNumber == 0 && a.segmentedMessage;
    var s := Step(NewMachine(ConfigFor(cfg, q)), InboundConfirmedRequest, In(a));
    assert s.result.Ok? && s.result.value.action == SendAbort;
  }

  /** What must go well for a request delivered promptly and in order: the element supports
      segmentation, the request is not empty, somebody is registered for it, and the transport
      refuses neither the Segment-ACK for the first segment, if one is due, nor the last one. */
  predicate GoesWell(cfg: AseConfig, q: Reassembly.Request, first: Operation, last: Operation)
    requires |q.segments| > 0 && first.Request? && last.Request?
  {
    && Supports(cfg) && Concat(q.segments) != [] && last.handler != NotRegistered
    && !Unacked(cfg, q, 0, first.c) && !Unacked(cfg, q, |q.segments| - 1, last.c)
  }

  /** A request delivered promptly and in order is handed over, exactly once, if and only if all
      that goes well; Segment-ACKs refused in between do no harm. */
  lemma {:induction false} PromptIsHandedOver(cfg: AseConfig, t: Tables, ops: seq<Operation>, q: Reassembly.Request,
                                              key: Key)
    requires 1 <= |q.segments| <= 256 && key.invokeID == q.header.invokeID
    requires key !in t.inbound && Prompt(cfg, q, key, ops, 0, 0)
    ensures |ops| == |q.segments| && ops[0].Request? && ops[|ops| - 1].Request?
    ensures Handed(cfg, t, ops, key) == if GoesWell(cfg, q, ops[0], ops[|ops| - 1]) then [Whole(q)] else []
  {
    hide RequestArrives, Waiting, Piece, Handed, AckIsDue, NextDeadline;
    PromptLength(cfg, q, key, ops, 0, 0);
    HandedUnfolds(cfg, t, ops, q, key, 0, 0);
    var c := ops[0].c;
    var next := NextDeadline(cfg, q, 0, c, 0);
    var r := RequestArrives(cfg, t, c, Piece(q, 0), ops[0].handler);
    if !Supports(cfg) {
      UnsupportedOpensNothing(cfg, t, c, q, ops[0].handler);
      StrangersAreRefused(cfg, r.t, ops[1..], q, key, 1, next);
    } else {
      FirstIsTaken(cfg, t, c, q, ops[0].handler, 0);
      if |q.segments| == 1 {
        HandedNothing(cfg, r.t, key);
        assert ops[1..] == [];
      } else if Unacked(cfg, q, 0, c) {
        StrangersAreRefused(cfg, r.t, ops[1..], q, key, 1, next);
      } else {
        RestIsHandedOver(cfg, r.t, ops[1..], q, key, 1, next);
      }
    }
  }

  // --- what a refusing transport leaves behind ---

  /** When the transport refuses the Segment-ACK of the first segment, nothing is stored. */
  lemma RefusedFirstAck(cfg: AseConfig, t: Tables, c: Circumstances, q: Reassembly.Request, handler: Handler)
    requires 1 <= |q.segments| <= 256 && Supports(cfg) && Key(c.src, q.header.invokeID) !in t.inbound
    requires Unacked(cfg, q, 0, c)
    ensures var r := RequestArrives(cfg, t, c, Piece(q, 0), handler);
            r.t == t && r.dispatched.None? && r.err == Some(TransportFailure)
  {
    hide RequestArrives, Piece, AckIsDue, Waiting;
    FirstIsTaken(cfg, t, c, q, handler, 0);
  }

  lemma AbortedIsInconsistent(t: Tables, key: Key)
    requires key in t.inbound && t.inbound[key].machine.state == Aborted
    ensures !Consistent(t)
  {
    assert !InboundFits(key, t.inbound[key]);
  }

  /** When the transport refuses the Segment-ACK of the last segment, the whole request is lost
      and its aborted machine stays in the table. */
  lemma RefusedLastAck(cfg: AseConfig, t: Tables, c: Circumstances, q: Reassembly.Request, deadline: int,
                       handler: Handler)
    requires 2 <= |q.segments| <= 256 && Waiting(cfg, q, Key(c.src, q.header.invokeID), t, |q.segments| - 1, deadline)
    requires c.now <= deadline && c.failAt == Some(0)
    ensures var key := Key(c.src, q.header.invokeID);
            var r := RequestArrives(cfg, t, c, Piece(q, |q.segments| - 1), handler);
            && r.err == Some(TransportFailure) && r.dispatched.None?
            && key in r.t.inbound && r.t.inbound[key].machine.state == Aborted
            && !Consistent(r.t)
  {
    var key := Key(c.src, q.header.invokeID);
    assert Unacked(cfg, q, |q.segments| - 1, c);
    var m := t.inbound[key].machine;
    hide RequestArrives, Step, Piece, Waiting, Took, Unacked, Holding, Consistent;
    var s, e := NextEmits(cfg, t, c, q, |q.segments| - 1, deadline, handler);
    TookAll(cfg, q, m, s);
    RefusedMachine(s.m);
    AbortedIsInconsistent(RequestArrives(cfg, t, c, Piece(q, |q.segments| - 1), handler).t, key);
  }

  /** From then on every segment of that exchange is refused, the first one included, until the
      collector removes the entry. */
  lemma AbortedEntryBlocks(cfg: AseConfig, t: Tables, c: Circumstances, a: InboundAPDU, handler: Handler)
    requires a.segmentedMessage && Key(c.src, a.invokeID) in t.inbound
    requires t.inbound[Key(c.src, a.invokeID)].machine.state == Aborted
    ensures RequestArrives(cfg, t, c, a, handler) == Served(t, [], None, Some(MachineFailure(InvalidStateTransition)))
  {
    var key := Key(c.src, a.invokeID);
    var entry := t.inbound[key];
    AbortedRefuses(entry.machine, SegmentTimeout, NoInput);
    AbortedRefuses(entry.machine, InboundConfirmedRequest, In(a));
    AbortedRefuses(entry.machine, InboundSegment, In(a));
    hide Step;
    assert With(t, key, Some(entry.(machine := entry.machine)), t.outbound) == t;
  }

  /** A tick of the collector that drops the entry, or the first closing of the element. */
  predicate Drops(cfg: AseConfig, t: Tables, op: Operation, key: Key)
    requires key in t.inbound
  {
    || (op.Collect? && t.inbound[key].expiresAt < op.now - cfg.gracePeriod)
    || (op.CloseDown? && !t.closed)
  }

  /** Segmented requests only; other requests do not use the entry. */
  predicate SegmentsOnly(op: Operation, key: Key) {
    op.Request? && Key(op.c.src, op.a.invokeID) == key ==> op.a.segmentedMessage
  }

  /** No other operation touches the entry, so it is as it was, or gone. */
  lemma AbortedEntryStays(cfg: AseConfig, t: Tables, op: Operation, key: Key)
    requires key in t.inbound && t.inbound[key].machine.state == Aborted
    ensures var u := Apply(cfg, t, op).t;
            && (key in u.inbound <==> !Drops(cfg, t, op, key))
            && (key in u.inbound ==> u.inbound[key] == t.inbound[key])
    ensures SegmentsOnly(op, key) ==> HandedBy(cfg, t, op, key) == []
  {
    match op {
      case Request(c, a, handler) =>
        hide SegmentArrives, UnsegmentedArrives;
        if Key(c.src, a.invokeID) != key {
          OthersUntouched(cfg, t, c, a, handler, key);
        } else if a.segmentedMessage {
          AbortedEntryBlocks(cfg, t, c, a, handler);
        } else {
          UnsegmentedKeepsInbound(cfg, t, c, a, handler);
        }
        hide RequestArrives;
      case Acknowledge(c, a) =>
        hide Step, Emit, EmitIfAny;
      case Collect(now, refusals) =>
        hide CollectedOutbound;
      case CloseDown =>
    }
  }

  lemma UnsegmentedKeepsInbound(cfg: AseConfig, t: Tables, c: Circumstances, a: InboundAPDU, handler: Handler)
    ensures UnsegmentedArrives(cfg, t, c, a, handler).t.inbound == t.inbound
  {
    hide Step, Dispatch;
    var s := Step(NewMachine(MachineConfig(cfg, a)), InboundConfirmedRequest, In(a));
    DispatchKeepsInbound(cfg, t, c, s.m, a, handler);
  }

  /** The entry outlives every operation of the run. */
  predicate NeverDropped(cfg: AseConfig, t: Tables, ops: seq<Operation>, key: Key)
    requires key in t.inbound
    decreases |ops|
  {
    ops == []
    || (!Drops(cfg, t, ops[0], key)
        && (key in Apply(cfg, t, ops[0]).t.inbound ==> NeverDropped(cfg, Apply(cfg, t, ops[0]).t, ops[1..], key)))
  }

  /** Through any history without such a tick or closing an aborted entry stays what it is, and
      nothing is handed over for its exchange. */
  lemma {:induction false} AbortedEntryOutlives(cfg: AseConfig, t: Tables, ops: seq<Operation>, key: Key)
    requires key in t.inbound && t.inbound[key].machine.state == Aborted && NeverDropped(cfg, t, ops, key)
    requires forall i :: 0 <= i < |ops| ==> SegmentsOnly(ops[i], key)
    ensures var u := RunTables(cfg, t, ops); key in u.inbound && u.inbound[key] == t.inbound[key]
    ensures Handed(cfg, t, ops, key) == []
    decreases |ops|
  {
    if ops != [] {
      AbortedEntryStays(cfg, t, ops[0], key);
      hide Apply, Drops, HandedBy, SegmentsOnly;
      assert SegmentsOnly(ops[0], key);
      AbortedEntryOutlives(cfg, Apply(cfg, t, ops[0]).t, ops[1..], key);
    }
  }

  /** The next tick past the deadline and the grace period drops the entry; after that the first
      segment of a new request opens an exchange again, or settles it at once. */
  lemma CollectedEntryMakesRoom(cfg: AseConfig, t: Tables, now: int, refusals: map<Key, nat>, c: Circumstances,
                                q: Reassembly.Request, handler: Handler, deadline: int)
    requires 1 <= |q.segments| <= 256 && Supports(cfg)
    requires var key := Key(c.src, q.header.invokeID);
             key in t.inbound && t.inbound[key].machine.state == Aborted
                 && t.inbound[key].expiresAt < now - cfg.gracePeriod
    ensures var key := Key(c.src, q.header.invokeID);
            var u := Apply(cfg, t, Collect(now, refusals)).t;
            && key !in u.inbound
            && Advances(cfg, q, key, c, handler, RequestArrives(cfg, u, c, Piece(q, 0), handler), 0, deadline)
  {
    var key := Key(c.src, q.header.invokeID);
    hide Advances, RequestArrives, Piece, CollectedOutbound;
    AbortedEntryStays(cfg, t, Collect(now, refusals), key);
    FirstIsTaken(cfg, Apply(cfg, t, Collect(now, refusals)).t, c, q, handler, deadline);
  }
}
