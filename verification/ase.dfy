/** The server half of the application service element as an object whose tables are updated in
    place. Every operation has exactly the effect the functions of tables.dfy describe. */
module Ase {
  import opened Wire
  import opened Apdu
  import opened MachineSpec
  import opened ServiceTables

  class ServiceElement {
    const cfg: AseConfig
    var closed: bool
    var inbound: map<Key, InboundEntry>
    var outbound: map<Key, OutboundEntry>

    function View(): Tables
      reads this
    {
      Tables(closed, inbound, outbound)
    }

    constructor (config: AseConfig)
      ensures cfg == config && View() == Empty
    {
      cfg, closed, inbound, outbound := config, false, map[], map[];
    }

    /** Keep the entry of a machine that awaits a Segment-ACK, with a new deadline; drop any other. */
    method SyncResponseEntry(c: Circumstances, m: Machine) returns (n: Machine)
      modifies this`outbound
      ensures outbound == Put(old(outbound), Key(c.src, m.cfg.invokeID), EntryFor(cfg, closed, c.priority, m, c.now))
      ensures n == Armed(cfg, closed, m, c.now)
    {
      var key := Key(c.src, m.cfg.invokeID);
      n := m;
      if closed || m.state != AwaitSegmentACK {
        outbound := outbound - {key};
        return;
      }
      var expiresAt := c.now + cfg.segmentedRequestTimeout;
      n := Timed(m, expiresAt);
      outbound := outbound[key := OutboundEntry(n, c.priority, expiresAt)];
    }

    method SendServerOutput(c: Circumstances, m: Machine, output: MachineOutput)
      returns (n: Machine, sent: seq<OutboundAPDU>, err: Option<AseError>)
      modifies this`outbound
      ensures Emission(outbound, n, sent, err) == Emit(cfg, old(View()), c, m, output)
    {
      n, sent, err := m, [], None;
      if output.action == NoAction {
        return;
      }
      var apdus := Sent(output);
      if |apdus| == 0 {
        err := Some(NothingToSend);
        return;
      }
      var i := 0;
      while i < |apdus|
        invariant 0 <= i <= |apdus| && sent == apdus[..i]
        invariant outbound == old(outbound) && n == m && err == None
        invariant Pushed(apdus, c.failAt, 0) == Pushed(apdus, c.failAt, i)
      {
        if Encode(apdus[i]).Err? {
          err := Some(EncodingFailure);
          return;
        }
        if c.failAt == Some(i) {
          n := Step(m, CannotSend, NoInput).m;
          err := Some(TransportFailure);
          return;
        }
        sent := sent + [apdus[i]];
        i := i + 1;
      }
      n := SyncResponseEntry(c, m);
    }

    method HandleSegmentACK(c: Circumstances, a: InboundAPDU)
      returns (sent: seq<OutboundAPDU>, err: Option<AseError>)
      modifies this
      ensures Served(View(), sent, None, err) == AckArrives(cfg, old(View()), c, a)
    {
      hide Step, Pushed, Sent, Put, EntryFor, Armed;
      sent, err := [], None;
      var key := Key(c.src, a.invokeID);
      if key !in outbound || a.server {
        err := Some(UnexpectedPDU);
        return;
      }
      var entry := outbound[key];
      var d := c.(priority := entry.priority);
      var late := Expired(entry.machine, c.now);
      var s := Step(entry.machine, if late then Timeout else InboundSegmentACK, In(a));
      outbound := outbound[key := entry.(machine := s.m)];
      if s.result.Err? {
        err := Some(MachineFailure(s.result.error));
        return;
      }
      var n := s.m;
      if s.result.value.outbound.Some? {
        n, sent, err := SendServerOutput(d, s.m, s.result.value);
        if err.Some? {
          outbound := outbound[key := entry.(machine := n)];
          assert outbound == old(outbound)[key := entry.(machine := n)];
          return;
        }
      } else if !late {
        n := SyncResponseEntry(d, s.m);
      }
      if late {
        if n.state != AwaitSegmentACK {
          outbound := outbound - {key};
        }
        err := Some(APDUTimeout);
      }
    }

    method HandleFailure(c: Circumstances, m: Machine, cause: AseError, responseType: ResponseType)
      returns (sent: seq<OutboundAPDU>, err: Option<AseError>)
      modifies this
      ensures Served(View(), sent, None, err) == Failed(cfg, old(View()), c, m, cause, responseType)
    {
      hide Step, Emit;
      var s := Step(m, HandlerFailed, MachineInput(None, None, Some(responseType)));
      if s.result.Err? {
        return [], Some(MachineFailure(s.result.error));
      }
      var n: Machine;
      n, sent, err := SendServerOutput(c, s.m, s.result.value);
      if err.None? {
        err := Some(cause);
      }
    }

    /** The machine must await a response; the handler's verdict is a parameter. */
    method DispatchToHandler(c: Circumstances, m: Machine, a: InboundAPDU, handler: Handler)
      returns (sent: seq<OutboundAPDU>, dispatched: Option<InboundAPDU>, err: Option<AseError>)
      modifies this
      ensures Served(View(), sent, dispatched, err) == Dispatch(cfg, old(View()), c, m, a, handler)
    {
      hide Step, Emit, Failed;
      dispatched := None;
      match handler
      case NotRegistered =>
        sent, err := HandleFailure(c, m, HandlerNotFound, RejectType);
      case Fails =>
        dispatched := Some(a);
        sent, err := HandleFailure(c, m, HandlerFailure, ErrorType);
      case Answers(invokeID, destination, payload, responseType) =>
        dispatched := Some(a);
        if invokeID != a.invokeID || destination != c.src {
          sent, err := HandleFailure(c, m, InvalidAnswer, RejectType);
          return;
        }
        var long := MaxAPDUSizeExceeded(m.cfg, |payload|);
        var s := Step(m, if long then ResponseRequiresSegmentation else ResponseReady,
                      MachineInput(None, Some(payload), Some(responseType)));
        if s.result.Err? {
          return [], dispatched, Some(MachineFailure(s.result.error));
        }
        var n: Machine;
        n, sent, err := SendServerOutput(c, s.m, s.result.value);
        if err.None? && long && n.state != AwaitSegmentACK {
          err := Some(SegmentationUnsupported);
        }
    }

    method HandleConfirmedRequest(c: Circumstances, a: InboundAPDU, handler: Handler)
      returns (sent: seq<OutboundAPDU>, dispatched: Option<InboundAPDU>, err: Option<AseError>)
      modifies this
      ensures Served(View(), sent, dispatched, err) == RequestArrives(cfg, old(View()), c, a, handler)
    {
      hide Dispatch, FirstOpens, FirstRepeats, SegmentContinues, LateSegment, Step;
      if a.segmentedMessage {
        if a.sequenceNumber == 0 {
          sent, dispatched, err := StartSegmentedReceive(c, a, handler);
        } else {
          sent, dispatched, err := ContinueSegmentedReceive(c, a, handler);
        }
        return;
      }
      var s := Step(NewMachine(MachineConfig(cfg, a)), InboundConfirmedRequest, In(a));
      if s.result.Err? {
        return [], None, Some(MachineFailure(s.result.error));
      }
      sent, dispatched, err := DispatchToHandler(c, s.m, a, handler);
    }

    /** End an exchange whose deadline has passed. */
    method ExpireExchange(c: Circumstances, key: Key)
      returns (sent: seq<OutboundAPDU>, err: Option<AseError>)
      requires key in inbound
      modifies this
      ensures Served(View(), sent, None, err) == LateSegment(cfg, old(View()), c, key)
    {
      hide Step, Pushed, Sent, EntryFor, Armed;
      sent, err := [], None;
      var entry := inbound[key];
      var s := Step(entry.machine, SegmentTimeout, NoInput);
      inbound := inbound[key := entry.(machine := s.m)];
      if s.result.Err? {
        return [], Some(MachineFailure(s.result.error));
      }
      var n := s.m;
      if s.result.value.outbound.Some? {
        n, sent, err := SendServerOutput(c, s.m, s.result.value);
        if err.Some? {
          inbound := inbound[key := entry.(machine := n)];
          assert inbound == old(inbound)[key := entry.(machine := n)];
          return;
        }
      }
      inbound := inbound - {key};
      assert inbound == old(inbound) - {key};
      err := Some(APDUTimeout);
    }

    method StartSegmentedReceive(c: Circumstances, a: InboundAPDU, handler: Handler)
      returns (sent: seq<OutboundAPDU>, dispatched: Option<InboundAPDU>, err: Option<AseError>)
      requires a.sequenceNumber == 0
      modifies this
      ensures Served(View(), sent, dispatched, err) == SegmentArrives(cfg, old(View()), c, a, handler)
    {
      var key := Key(c.src, a.invokeID);
      dispatched := None;
      hide Step, FirstOpens, FirstRepeats, LateSegment;
      if key in inbound {
        if Expired(inbound[key].machine, c.now) {
          sent, err := ExpireExchange(c, key);
          return;
        }
        sent, err := RepeatFirstSegment(c, a);
      } else {
        sent, dispatched, err := OpenExchange(c, a, handler);
      }
    }

    method RepeatFirstSegment(c: Circumstances, a: InboundAPDU)
      returns (sent: seq<OutboundAPDU>, err: Option<AseError>)
      requires Key(c.src, a.invokeID) in inbound
      modifies this
      ensures Served(View(), sent, None, err) == FirstRepeats(cfg, old(View()), c, a)
    {
      hide Step, Pushed, Sent, EntryFor, Armed;
      sent, err := [], None;
      var key := Key(c.src, a.invokeID);
      var entry := inbound[key];
      var s := Step(entry.machine, InboundConfirmedRequest, In(a));
      inbound := inbound[key := entry.(machine := s.m)];
      if s.result.Err? {
        return [], Some(MachineFailure(s.result.error));
      }
      var n := s.m;
      if s.result.value.outbound.Some? {
        n, sent, err := SendServerOutput(c, s.m, s.result.value);
        if err.Some? {
          inbound := inbound[key := entry.(machine := n)];
          assert inbound == old(inbound)[key := entry.(machine := n)];
          return;
        }
      }
      if n.state == Aborted {
        inbound := inbound - {key};
        assert inbound == old(inbound) - {key};
        err := if s.result.value.action == SendAbort then Some(SegmentationUnsupported) else None;
        return;
      }
      inbound := inbound[key := Refreshed(cfg, entry, n, c.now)];
      assert inbound == old(inbound)[key := Refreshed(cfg, entry, n, c.now)];
    }

    method OpenExchange(c: Circumstances, a: InboundAPDU, handler: Handler)
      returns (sent: seq<OutboundAPDU>, dispatched: Option<InboundAPDU>, err: Option<AseError>)
      modifies this
      ensures Served(View(), sent, dispatched, err) == FirstOpens(cfg, old(View()), c, a, handler)
    {
      hide Step, Emit, AssembleAndDispatch;
      sent, dispatched, err := [], None, None;
      var s := Step(NewMachine(MachineConfig(cfg, a)), InboundConfirmedRequest, In(a));
      if s.result.Err? {
        return [], None, Some(MachineFailure(s.result.error));
      }
      var n := s.m;
      if s.result.value.outbound.Some? {
        n, sent, err := SendServerOutput(c, s.m, s.result.value);
        if err.Some? {
          FailedEmitKeepsTable(cfg, old(View()), c, s.m, s.result.value);
          return;
        }
      }
      if s.result.value.action == SendAbort {
        err := Some(SegmentationUnsupported);
        return;
      }
      if n.state == AwaitResponse {
        var more;
        more, dispatched, err := AssembleAndHandOver(Since(c, |sent|), n, a, handler);
        sent := sent + more;
        return;
      }
      var entry := Refreshed(cfg, InboundEntry(n, c.priority, a, 0), n, c.now);
      inbound := inbound[Key(c.src, a.invokeID) := entry];
    }

    method AssembleAndHandOver(c: Circumstances, m: Machine, first: InboundAPDU, handler: Handler)
      returns (sent: seq<OutboundAPDU>, dispatched: Option<InboundAPDU>, err: Option<AseError>)
      modifies this
      ensures Served(View(), sent, dispatched, err) == AssembleAndDispatch(cfg, old(View()), c, m, first, handler)
    {
      hide Dispatch;
      if m.vars.segmentBuffer == [] {
        return [], None, Some(NotReady);
      }
      sent, dispatched, err := DispatchToHandler(c, m, Assembled(first, m.vars.segmentBuffer), handler);
    }

    method ContinueSegmentedReceive(c: Circumstances, a: InboundAPDU, handler: Handler)
      returns (sent: seq<OutboundAPDU>, dispatched: Option<InboundAPDU>, err: Option<AseError>)
      requires a.sequenceNumber != 0
      modifies this
      ensures Served(View(), sent, dispatched, err) == SegmentArrives(cfg, old(View()), c, a, handler)
    {
      var key := Key(c.src, a.invokeID);
      dispatched := None;
      hide Step, SegmentContinues, LateSegment;
      if key !in inbound {
        return [], None, Some(UnexpectedPDU);
      }
      if Expired(inbound[key].machine, c.now) {
        sent, err := ExpireExchange(c, key);
        return;
      }
      sent, dispatched, err := TakeSegment(c, a, handler);
    }

    method TakeSegment(c: Circumstances, a: InboundAPDU, handler: Handler)
      returns (sent: seq<OutboundAPDU>, dispatched: Option<InboundAPDU>, err: Option<AseError>)
      requires Key(c.src, a.invokeID) in inbound
      modifies this
      ensures Served(View(), sent, dispatched, err) == SegmentContinues(cfg, old(View()), c, a, handler)
    {
      hide Step, Pushed, Sent, EntryFor, Armed, AssembleAndDispatch, Refreshed, Encode;
      sent, dispatched, err := [], None, None;
      var key := Key(c.src, a.invokeID);
      var entry := inbound[key];
      var s := Step(entry.machine, InboundSegment, In(a));
      inbound := inbound[key := entry.(machine := s.m)];
      if s.result.Err? {
        return [], None, Some(MachineFailure(s.result.error));
      }
      var n := s.m;
      if s.result.value.outbound.Some? {
        n, sent, err := SendServerOutput(c, s.m, s.result.value);
        if err.Some? {
          inbound := inbound[key := entry.(machine := n)];
          assert inbound == old(inbound)[key := entry.(machine := n)];
          return;
        }
      }
      if n.state == AwaitResponse {
        inbound := inbound - {key};
        assert inbound == old(inbound) - {key};
        var more;
        var d := Since(c.(priority := entry.priority), |sent|);
        more, dispatched, err := AssembleAndHandOver(d, n, entry.firstInbound, handler);
        sent := sent + more;
      } else if n.state == Aborted {
        inbound := inbound - {key};
        assert inbound == old(inbound) - {key};
        var refused := s.result.value.action == SendSegmentACK || s.result.value.action == SendAbort;
        err := Some(if refused then SegmentationUnsupported else UnexpectedPDU);
      } else {
        inbound := inbound[key := Refreshed(cfg, entry, n, c.now)];
        assert inbound == old(inbound)[key := Refreshed(cfg, entry, n, c.now)];
      }
    }

    /** One tick of the collector: first the inbound entries, then the outbound ones, each in an
        order of its own; refusals of the transport end only the exchange they hit. */
    method CollectTimedOut(now: int, refusals: map<Key, nat>) returns (sent: map<Key, seq<OutboundAPDU>>)
      requires Filed(outbound)
      modifies this
      ensures View() == Collected(cfg, old(View()), now, refusals)
      ensures sent == CollectorSends(cfg, old(View()), now, refusals, {})
    {
      hide Late, CollectedInbound;
      ghost var t := View();
      DropInbound(now);
      var expired := TakeExpired(now);
      sent := map[];
      var keys := expired.Keys;
      while keys != {}
        invariant keys <= expired.Keys && inbound == CollectedInbound(cfg, t, now) && closed == t.closed
        invariant outbound == CollectedBut(cfg, t, now, refusals, keys)
        invariant sent == CollectorSends(cfg, t, now, refusals, keys)
        decreases |keys|
      {
        hide CollectedBut, CollectorSends;
        var key :| key in keys;
        CollectedStep(cfg, t, now, refusals, keys, key);
        var output := RetryExpired(key, expired[key], now, if key in refusals then Some(refusals[key]) else None);
        sent := sent[key := output];
        keys := keys - {key};
      }
    }

    method DropInbound(now: int)
      modifies this`inbound
      ensures inbound == CollectedInbound(cfg, old(View()), now)
    {
      var keys := inbound.Keys;
      while keys != {}
        invariant keys <= old(inbound).Keys
        invariant inbound == map k | k in old(inbound)
                                     && (k in keys || old(inbound)[k].expiresAt >= now - cfg.gracePeriod) ::
                               old(inbound)[k]
        decreases |keys|
      {
        var key :| key in keys;
        if inbound[key].expiresAt < now - cfg.gracePeriod {
          inbound := inbound - {key};
        }
        keys := keys - {key};
      }
    }

    method TakeExpired(now: int) returns (expired: map<Key, OutboundEntry>)
      modifies this`outbound
      ensures expired == map k | k in old(outbound) && old(outbound)[k].expiresAt < now :: old(outbound)[k]
      ensures outbound == map k | k in old(outbound) && old(outbound)[k].expiresAt >= now :: old(outbound)[k]
    {
      expired := map[];
      var keys := outbound.Keys;
      while keys != {}
        invariant keys <= old(outbound).Keys
        invariant expired == map k | k in old(outbound) && k !in keys && old(outbound)[k].expiresAt < now ::
                               old(outbound)[k]
        invariant outbound == map k | k in old(outbound) && (k in keys || old(outbound)[k].expiresAt >= now) ::
                                old(outbound)[k]
        decreases |keys|
      {
        var key :| key in keys;
        if outbound[key].expiresAt < now {
          expired := expired[key := outbound[key]];
          outbound := outbound - {key};
        }
        keys := keys - {key};
      }
    }

    method RetryExpired(key: Key, entry: OutboundEntry, now: int, failAt: Option<nat>) returns (sent: seq<OutboundAPDU>)
      requires key !in outbound && entry.machine.cfg.invokeID == key.invokeID
      modifies this`outbound
      ensures var e := CollectedEntry(cfg, closed, key, entry, now, failAt);
              && sent == e.sent
              && outbound == if key in e.outbound then old(outbound)[key := e.outbound[key]] else old(outbound)
    {
      StepKeepsConfig(entry.machine, Timeout, NoInput);
      hide Step, Pushed, Sent;
      sent := [];
      var s := Step(entry.machine, Timeout, NoInput);
      if s.result.Err? {
        return;
      }
      if s.result.value.outbound.Some? {
        var n, err;
        n, sent, err := SendServerOutput(Circumstances(key.src, entry.priority, now, failAt), s.m, s.result.value);
      }
    }

    method Close()
      modifies this
      ensures View() == Closed(old(View()))
    {
      if !closed {
        closed, inbound, outbound := true, map[], map[];
      }
    }
  }

  lemma CollectedStep(cfg: AseConfig, t: Tables, now: int, refusals: map<Key, nat>, pending: set<Key>, k: Key)
    requires k in t.outbound && t.outbound[k].expiresAt < now && k in pending
    ensures var e := Late(cfg, t, now, refusals, k);
            var before := CollectedBut(cfg, t, now, refusals, pending);
            && k !in before
            && e == CollectedEntry(cfg, t.closed, k, t.outbound[k], now,
                                   if k in refusals then Some(refusals[k]) else None)
            && CollectedBut(cfg, t, now, refusals, pending - {k})
               == (if k in e.outbound then before[k := e.outbound[k]] else before)
            && CollectorSends(cfg, t, now, refusals, pending - {k})
               == CollectorSends(cfg, t, now, refusals, pending)[k := e.sent]
  {
    hide CollectedEntry;
  }

  lemma FailedEmitKeepsTable(cfg: AseConfig, t: Tables, c: Circumstances, m: Machine, output: MachineOutput)
    requires Emit(cfg, t, c, m, output).err.Some?
    ensures Emit(cfg, t, c, m, output).outbound == t.outbound
  {
    hide Step, Pushed;
  }
}