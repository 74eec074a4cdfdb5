/** What the router decides about one incoming unit (section 6.6.3 of ANSI/ASHRAE 135-2024):
    deliver, forward, drop, reject. */
module Forwarding {
  import opened Wire
  import opened Routing
  import Nlm
  import opened Npdu

  datatype DropReason = NoDrop | UnknownDestination | SamePort | HopCountExpired | LoopSuppressed | Busy

  datatype ForwardKind = Transit | LocalDelivery

  datatype Forward = Forward(outPort: byte, pdu: PDU, kind: ForwardKind)

  datatype Decision = Decision(
    deliverLocally: bool, forwards: seq<Forward>, dropReason: DropReason, rejectResponse: Option<PDU>)

  datatype RouterError = InvalidNPDU | RouteRefused(r: RouteError) | RebuildFailed(e: NpduError)

  const REASON_OTHER: byte := 0
  const REASON_TOO_MANY_HOPS: byte := 1
  const REASON_ROUTER_BUSY: byte := 2

  /** A learned route lives for a minute, counted in nanoseconds. */
  const MINUTE: int := 60_000_000_000

  /** How the router is set up, and what it meets: its own busy verdict, the clock, the ingress. */
  datatype Circumstances = Circumstances(forwardsBroadcast: bool, busy: bool, now: int, inPort: byte)

  // --- rebuilding ---

  datatype Built = Sent(forward: Forward) | Expired | Broken(e: NpduError)

  function BuildForward(port: byte, n: PDU): Built
    requires Valid(n) && HasDestination(n.flags)
  {
    var c := NPCIOf(n);
    if c.destination.value.hopCount <= 1 then Expired
    else
      var hop := c.destination.value.hopCount - 1;
      var r := Rebuilt(n, c.(destination := Some(c.destination.value.(hopCount := hop))));
      if r.Err? then Broken(r.error) else Sent(Forward(port, r.value, Transit))
  }

  function BuildLocalDelivery(port: byte, n: PDU): Built
    requires Valid(n)
  {
    var r := Rebuilt(n, NPCIOf(n).(destination := None));
    if r.Err? then Broken(r.error) else Sent(Forward(port, r.value, LocalDelivery))
  }

  function BuildReject(dnet: uint16, reason: byte): Option<PDU> {
    var m := Nlm.New(Nlm.RejectMessage(dnet, reason), Nlm.InvalidMessage);
    if m.Err? then None
    else
      var n := NewNetworkLayer(NPCI(0, false, None, None), Nlm.HeaderOf(m.value), Nlm.PayloadBytes(m.value));
      if n.Err? then None else Some(n.value)
  }

  /** The unit with one hop less. */
  function Decremented(n: PDU): PDU
    requires n.hopCount.Some? && n.hopCount.value >= 1
  {
    n.(hopCount := Some(n.hopCount.value - 1))
  }

  /** The unit without its destination specifier. */
  function Stripped(n: PDU): PDU
    requires HasDestination(n.flags)
  {
    n.(flags := n.flags - 32, dnet := None, dlen := None, dadr := None, hopCount := None)
  }

  /** Whether the payload survives rebuilding: an empty application payload does not. */
  predicate Carries(n: PDU) {
    IsNetworkMessage(n.flags) || n.apdu != []
  }

  lemma StrippedFlags(flags: byte)
    requires ReservedClear(flags) && HasDestination(flags)
    ensures var f := flags - 32;
            && 0 <= f && ReservedClear(f) && !HasDestination(f) && HasSource(f) == HasSource(flags)
            && IsNetworkMessage(f) == IsNetworkMessage(flags) && PriorityOf(f) == PriorityOf(flags)
            && ExpectsReply(f) == ExpectsReply(flags)
  {
    hide Has, PriorityOf;
    FlagsDecompose(flags);
    FlagsCompose(PriorityOf(flags), ExpectsReply(flags), HasSource(flags), false, IsNetworkMessage(flags));
  }

  /** A transit forward is the same unit with one hop less; an exhausted one is never sent on. */
  lemma TransitIsDecremented(port: byte, n: PDU)
    requires Valid(n) && HasDestination(n.flags)
    ensures BuildForward(port, n)
            == if n.hopCount.value <= 1 then Expired
               else if Carries(n) then Sent(Forward(port, Decremented(n), Transit))
               else Broken(InvalidLength)
    ensures n.hopCount.value >= 2 ==> Valid(Decremented(n))
  {
    hide Has, PriorityOf, Nlm.DecodeModel;
    if n.hopCount.value >= 2 {
      var d := Decremented(n);
      assert Valid(d);
      var c := NPCIOf(n);
      assert NPCIOf(d) == c.(destination := Some(c.destination.value.(hopCount := c.destination.value.hopCount - 1)));
      assert Rebuilt(n, NPCIOf(d)) == Rebuilt(d, NPCIOf(d));
      RebuiltExactly(d);
    }
  }

  /** Final-hop delivery is the same unit without its destination specifier. */
  lemma LocalDeliveryIsStripped(port: byte, n: PDU)
    requires Valid(n) && HasDestination(n.flags)
    ensures BuildLocalDelivery(port, n)
            == if Carries(n) then Sent(Forward(port, Stripped(n), LocalDelivery)) else Broken(InvalidLength)
    ensures Valid(Stripped(n)) && !HasDestination(Stripped(n).flags)
  {
    StrippedFlags(n.flags);
    hide Has, PriorityOf, Nlm.DecodeModel;
    var d := Stripped(n);
    assert Valid(d);
    assert NPCIOf(d) == NPCIOf(n).(destination := None);
    assert Rebuilt(n, NPCIOf(d)) == Rebuilt(d, NPCIOf(d));
    RebuiltExactly(d);
  }

  // --- the decision ---

  /** The ports that serve the network the unit came from. */
  function SourcePorts(t: Table, n: PDU): set<byte> {
    if HasSource(n.flags) && n.snet.Some? && n.snet.value in t then t[n.snet.value].Keys else {}
  }

  function SourceNetwork(n: PDU): uint16 {
    if n.snet.Some? then n.snet.value else Nlm.LOCAL_NETWORK
  }

  /** A route of the given kind leaves through the port. */
  predicate Serves(t: Table, port: byte, kind: RouteKind) {
    exists network :: network in t && port in t[network] && t[network][port].kind == kind
  }

  /** The port may carry a broadcast onwards. */
  predicate Eligible(t: Table, inPort: byte, blocked: set<byte>, port: byte) {
    port != inPort && port !in blocked && (Serves(t, port, Connected) || Serves(t, port, Learned))
  }

  /** The forward for one port of a broadcast; nothing when its hop count is spent. */
  function FanOutTo(t: Table, port: byte, n: PDU): Built
    requires Valid(n) && HasDestination(n.flags)
  {
    if Serves(t, port, Connected) then BuildLocalDelivery(port, n) else BuildForward(port, n)
  }

  /** The forwards for the listed ports, in order. */
  function FanOutOver(t: Table, ports: seq<byte>, n: PDU): Result<seq<Forward>, NpduError>
    requires Valid(n) && HasDestination(n.flags)
    decreases |ports|
  {
    if ports == [] then Ok([])
    else
      var b := FanOutTo(t, ports[0], n);
      if b.Broken? then Err(b.e)
      else
        var rest := FanOutOver(t, ports[1..], n);
        if rest.Err? then rest
        else Ok((if b.Sent? then [b.forward] else []) + rest.value)
  }

  /** The eligible ports from k on, ascending. */
  function EligibleFrom(t: Table, inPort: byte, blocked: set<byte>, k: nat): (s: seq<byte>)
    requires k <= 256
    ensures forall i :: 0 <= i < |s| ==> s[i] >= k && Eligible(t, inPort, blocked, s[i])
    ensures forall i, j :: 0 <= i < j < |s| ==> s[i] < s[j]
    ensures forall p: byte :: p >= k && Eligible(t, inPort, blocked, p) ==> p in s
    decreases 256 - k
  {
    if k == 256 then []
    else
      var rest := EligibleFrom(t, inPort, blocked, k + 1);
      if Eligible(t, inPort, blocked, k) then [k] + rest else rest
  }

  function FanOut(t: Table, inPort: byte, blocked: set<byte>, n: PDU): Result<seq<Forward>, NpduError>
    requires Valid(n) && HasDestination(n.flags)
  {
    FanOutOver(t, EligibleFrom(t, inPort, blocked, 0), n)
  }

  datatype Evaluation = Evaluation(t: Table, result: Result<Decision, RouterError>)

  function Dropped(local: bool, reason: DropReason, reject: Option<PDU>): Result<Decision, RouterError> {
    Ok(Decision(local, [], reason, reject))
  }

  function Delivered(local: bool, forwards: seq<Forward>): Result<Decision, RouterError> {
    Ok(Decision(local, forwards, NoDrop, None))
  }

  function DecideBroadcast(c: Circumstances, t: Table, blocked: set<byte>, n: PDU): Result<Decision, RouterError>
    requires Valid(n) && HasDestination(n.flags)
  {
    if !c.forwardsBroadcast then Delivered(true, [])
    else if c.busy then Dropped(true, Busy, None)
    else
      var f := FanOut(t, c.inPort, blocked, n);
      if f.Err? then Err(RebuildFailed(f.error)) else Delivered(true, f.value)
  }

  function DecideUnicast(c: Circumstances, t: Table, blocked: set<byte>, n: PDU): Result<Decision, RouterError>
    requires Valid(n) && HasDestination(n.flags)
  {
    var local := IsNetworkMessage(n.flags);
    var dnet := n.dnet.value;
    var route := Lookup(t, dnet, c.now);
    if route.None? then Dropped(local, UnknownDestination, BuildReject(dnet, REASON_OTHER))
    else if route.value.port == c.inPort then Dropped(local, SamePort, None)
    else if route.value.port in blocked then Dropped(local, LoopSuppressed, None)
    else if c.busy then Dropped(local, Busy, BuildReject(dnet, REASON_ROUTER_BUSY))
    else if route.value.kind == Connected then
      var b := BuildLocalDelivery(route.value.port, n);
      if b.Broken? then Err(RebuildFailed(b.e))
      else if b.Sent? then Delivered(true, [b.forward])
      else Delivered(true, [])
    else
      var b := BuildForward(route.value.port, n);
      if b.Broken? then Err(RebuildFailed(b.e))
      else if b.Expired? then Dropped(local, HopCountExpired, BuildReject(dnet, REASON_TOO_MANY_HOPS))
      else Delivered(local, [b.forward])
  }

  /** The table learns where the unit came from before the decision is made; the ports that
      served its source network before that are barred. */
  function Evaluate(c: Circumstances, t: Table, n: PDU): Evaluation {
    if !Valid(n) then Evaluation(t, Err(InvalidNPDU))
    else if !HasDestination(n.flags) then Evaluation(t, Delivered(true, []))
    else
      var pruned := Prune(t, c.now);
      var blocked := SourcePorts(pruned, n);
      var learned := AddLearned(pruned, c.inPort, SourceNetwork(n), MINUTE, c.now);
      if learned.err.Some? && learned.err.value != RouteToLocalNetwork then
        Evaluation(learned.t, Err(RouteRefused(learned.err.value)))
      else if n.dnet.value == Nlm.GLOBAL_BROADCAST then
        Evaluation(learned.t, DecideBroadcast(c, learned.t, blocked, n))
      else
        Evaluation(Prune(learned.t, c.now), DecideUnicast(c, learned.t, blocked, n))
  }

  // --- what forwards look like ---

  /** A forward is the unit with one hop less, or the unit with its destination removed. */
  predicate Faithful(n: PDU, f: Forward) {
    && HasDestination(n.flags) && n.hopCount.Some?
    && if f.kind == Transit then n.hopCount.value >= 2 && f.pdu == Decremented(n) else f.pdu == Stripped(n)
  }

  lemma BuiltIsFaithful(t: Table, port: byte, n: PDU)
    requires Valid(n) && HasDestination(n.flags)
    ensures var b := BuildForward(port, n); b.Sent? ==> Faithful(n, b.forward) && b.forward.outPort == port
    ensures var b := BuildLocalDelivery(port, n); b.Sent? ==> Faithful(n, b.forward) && b.forward.outPort == port
  {
    TransitIsDecremented(port, n);
    LocalDeliveryIsStripped(port, n);
  }

  lemma {:induction false} FanOutIsFaithful(t: Table, ports: seq<byte>, n: PDU)
    requires Valid(n) && HasDestination(n.flags) && FanOutOver(t, ports, n).Ok?
    ensures var fs := FanOutOver(t, ports, n).value;
            forall i :: 0 <= i < |fs| ==> Faithful(n, fs[i]) && fs[i].outPort in ports
    decreases |ports|
  {
    hide BuildForward, BuildLocalDelivery, Faithful, Serves;
    if ports != [] {
      BuiltIsFaithful(t, ports[0], n);
      FanOutIsFaithful(t, ports[1..], n);
    }
  }

  /** The forward respects the barred ports and carries the unit. */
  predicate Proper(c: Circumstances, blocked: set<byte>, n: PDU, f: Forward) {
    Faithful(n, f) && f.outPort != c.inPort && f.outPort !in blocked
  }

  predicate AllProper(c: Circumstances, blocked: set<byte>, n: PDU, r: Result<Decision, RouterError>) {
    r.Ok? ==> forall i :: 0 <= i < |r.value.forwards| ==> Proper(c, blocked, n, r.value.forwards[i])
  }

  lemma BroadcastIsProper(c: Circumstances, t: Table, blocked: set<byte>, n: PDU)
    requires Valid(n) && HasDestination(n.flags)
    ensures AllProper(c, blocked, n, DecideBroadcast(c, t, blocked, n))
  {
    hide FanOutOver, Faithful, Valid;
    if FanOut(t, c.inPort, blocked, n).Ok? {
      FanOutIsFaithful(t, EligibleFrom(t, c.inPort, blocked, 0), n);
    }
  }

  lemma BuiltIsProper(c: Circumstances, blocked: set<byte>, n: PDU, port: byte)
    requires Valid(n) && HasDestination(n.flags) && port != c.inPort && port !in blocked
    ensures var b := BuildForward(port, n); b.Sent? ==> Proper(c, blocked, n, b.forward)
    ensures var b := BuildLocalDelivery(port, n); b.Sent? ==> Proper(c, blocked, n, b.forward)
  {
    hide Faithful, Valid, BuildForward, BuildLocalDelivery, HasDestination;
    BuiltIsFaithful(map[], port, n);
  }

  lemma UnicastIsProper(c: Circumstances, t: Table, blocked: set<byte>, n: PDU)
    requires Valid(n) && HasDestination(n.flags)
    ensures AllProper(c, blocked, n, DecideUnicast(c, t, blocked, n))
  {
    DestinationIsPresent(n);
    hide Proper, Valid, BuildForward, BuildLocalDelivery, Lookup, BuildReject, HasDestination, IsNetworkMessage;
    var route := Lookup(t, n.dnet.value, c.now);
    if route.Some? && route.value.port != c.inPort && route.value.port !in blocked {
      BuiltIsProper(c, blocked, n, route.value.port);
    }
  }

  lemma FaithfulIsValid(n: PDU, f: Forward)
    requires Valid(n) && Faithful(n, f)
    ensures Valid(f.pdu)
  {
    TransitIsDecremented(f.outPort, n);
    LocalDeliveryIsStripped(f.outPort, n);
    hide Valid;
  }

  /** Split horizon and loop suppression: no forward leaves through the port the unit came in
      by, nor through a port that served its source network before it arrived; and every
      forward carries the unit unchanged but for the hop count or the destination. */
  lemma ForwardsAreFaithful(c: Circumstances, t: Table, n: PDU, i: nat)
    requires var e := Evaluate(c, t, n); e.result.Ok? && i < |e.result.value.forwards|
    ensures var f := Evaluate(c, t, n).result.value.forwards[i];
            && Valid(n) && Faithful(n, f) && Valid(f.pdu)
            && f.outPort != c.inPort
            && f.outPort !in SourcePorts(Prune(t, c.now), n)
  {
    hide Prune, AddLearned, DecideBroadcast, DecideUnicast, SourcePorts, Faithful, Valid;
    var pruned := Prune(t, c.now);
    var blocked := SourcePorts(pruned, n);
    var learned := AddLearned(pruned, c.inPort, SourceNetwork(n), MINUTE, c.now);
    if Valid(n) && HasDestination(n.flags) {
      BroadcastIsProper(c, learned.t, blocked, n);
      UnicastIsProper(c, learned.t, blocked, n);
    }
    var f := Evaluate(c, t, n).result.value.forwards[i];
    assert Proper(c, blocked, n, f);
    FaithfulIsValid(n, f);
  }

  // --- broadcast fan-out is exact ---

  /** Whether the port gets the broadcast at all. */
  predicate Reached(t: Table, port: byte, n: PDU)
    requires n.hopCount.Some?
  {
    Serves(t, port, Connected) || n.hopCount.value >= 2
  }

  /** The forward the port gets. */
  function ForwardFor(t: Table, port: byte, n: PDU): Forward
    requires HasDestination(n.flags) && n.hopCount.Some? && Reached(t, port, n)
  {
    if Serves(t, port, Connected) then Forward(port, Stripped(n), LocalDelivery)
    else Forward(port, Decremented(n), Transit)
  }

  /** The forwards are exactly those due on the listed ports, in ascending order. */
  predicate ExactOver(t: Table, ports: seq<byte>, n: PDU, fs: seq<Forward>)
    requires HasDestination(n.flags) && n.hopCount.Some?
  {
    && (forall i, j :: 0 <= i < j < |fs| ==> fs[i].outPort < fs[j].outPort)
    && (forall i :: 0 <= i < |fs| ==> fs[i].outPort in ports && Reached(t, fs[i].outPort, n)
                                      && fs[i] == ForwardFor(t, fs[i].outPort, n))
    && (forall p :: p in ports && Reached(t, p, n) ==> ForwardFor(t, p, n) in fs)
  }

  lemma ExactGrows(t: Table, ports: seq<byte>, n: PDU, rest: seq<Forward>)
    requires HasDestination(n.flags) && n.hopCount.Some? && ports != []
    requires forall j :: 0 < j < |ports| ==> ports[0] < ports[j]
    requires ExactOver(t, ports[1..], n, rest)
    ensures ExactOver(t, ports, n, (if Reached(t, ports[0], n) then [ForwardFor(t, ports[0], n)] else []) + rest)
  {
    hide HasDestination, Serves, Stripped, Decremented;
    var p := ports[0];
    var fs := (if Reached(t, p, n) then [ForwardFor(t, p, n)] else []) + rest;
    forall i | 0 <= i < |rest|
      ensures p < rest[i].outPort
    {
      assert rest[i].outPort in ports[1..];
    }
    forall q | q in ports && Reached(t, q, n)
      ensures ForwardFor(t, q, n) in fs
    {
      if q == p {
        assert fs[0] == ForwardFor(t, p, n);
      } else {
        assert q in ports[1..] && ForwardFor(t, q, n) in rest;
      }
    }
  }

  lemma {:induction false} FanOutOverExact(t: Table, ports: seq<byte>, n: PDU)
    requires Valid(n) && HasDestination(n.flags) && Carries(n)
    requires forall i, j :: 0 <= i < j < |ports| ==> ports[i] < ports[j]
    ensures FanOutOver(t, ports, n).Ok? && ExactOver(t, ports, n, FanOutOver(t, ports, n).value)
    decreases |ports|
  {
    assert n.hopCount.Some?;
    hide Valid, HasDestination, Serves, BuildForward, BuildLocalDelivery, Carries, Stripped, Decremented, ExactOver;
    if ports == [] {
      NothingIsExact(t, n);
    } else {
      TransitIsDecremented(ports[0], n);
      LocalDeliveryIsStripped(ports[0], n);
      FanOutOverExact(t, ports[1..], n);
      ExactGrows(t, ports, n, FanOutOver(t, ports[1..], n).value);
    }
  }

  lemma NothingIsExact(t: Table, n: PDU)
    requires HasDestination(n.flags) && n.hopCount.Some?
    ensures ExactOver(t, [], n, [])
  {
  }

  /** Global-broadcast forwarding: ascending ports, exactly one forward for each eligible port,
      stripped exactly when the port has a connected route; learned-only ports are left out
      exactly when the hop count is spent. */
  lemma FanOutExact(t: Table, inPort: byte, blocked: set<byte>, n: PDU)
    requires Valid(n) && HasDestination(n.flags) && Carries(n)
    ensures FanOut(t, inPort, blocked, n).Ok?
    ensures var fs := FanOut(t, inPort, blocked, n).value;
            && (forall i, j :: 0 <= i < j < |fs| ==> fs[i].outPort < fs[j].outPort)
            && (forall i :: 0 <= i < |fs| ==>
                  && Eligible(t, inPort, blocked, fs[i].outPort) && Reached(t, fs[i].outPort, n)
                  && fs[i] == ForwardFor(t, fs[i].outPort, n))
            && (forall p: byte :: Eligible(t, inPort, blocked, p) && Reached(t, p, n) ==> ForwardFor(t, p, n) in fs)
  {
    hide Valid, Has, Serves, Carries, ForwardFor, Reached, FanOutOver, Eligible;
    FanOutOverExact(t, EligibleFrom(t, inPort, blocked, 0), n);
  }

  lemma {:induction false} FanOutOverBreaks(t: Table, ports: seq<byte>, n: PDU)
    requires Valid(n) && HasDestination(n.flags) && !Carries(n)
    ensures FanOutOver(t, ports, n).Err? <==> exists p :: p in ports && Reached(t, p, n)
    ensures FanOutOver(t, ports, n).Ok? ==> FanOutOver(t, ports, n).value == []
    decreases |ports|
  {
    assert n.hopCount.Some?;
    hide Valid, Has, Serves, BuildForward, BuildLocalDelivery, Carries;
    if ports != [] {
      var p := ports[0];
      TransitIsDecremented(p, n);
      LocalDeliveryIsStripped(p, n);
      FanOutOverBreaks(t, ports[1..], n);
      if Reached(t, p, n) {
        assert p in ports;
      } else if exists q :: q in ports && Reached(t, q, n) {
        var q :| q in ports && Reached(t, q, n);
        assert q in ports[1..];
      }
    }
  }

  /** A broadcast without payload fails exactly when some port would have got it. */
  lemma EmptyBroadcastFails(t: Table, inPort: byte, blocked: set<byte>, n: PDU)
    requires Valid(n) && HasDestination(n.flags) && !Carries(n)
    ensures FanOut(t, inPort, blocked, n).Err?
            <==> exists p: byte :: Eligible(t, inPort, blocked, p) && Reached(t, p, n)
  {
    assert n.hopCount.Some?;
    hide Valid, Has, Serves, Carries, Reached, FanOutOver, Eligible;
    var ports := EligibleFrom(t, inPort, blocked, 0);
    hide EligibleFrom;
    FanOutOverBreaks(t, ports, n);
    if FanOutOver(t, ports, n).Err? {
      var p :| p in ports && Reached(t, p, n);
      assert Eligible(t, inPort, blocked, p);
    }
    if exists p: byte :: Eligible(t, inPort, blocked, p) && Reached(t, p, n) {
      var p: byte :| Eligible(t, inPort, blocked, p) && Reached(t, p, n);
      assert p in ports;
    }
  }

  // --- a whole evaluation ---

  /** The table a decision is made on: pruned, and taught where the unit came from. */
  function Taught(c: Circumstances, t: Table, n: PDU): Table {
    AddLearned(Prune(t, c.now), c.inPort, SourceNetwork(n), MINUTE, c.now).t
  }

  /** The ports barred for the unit. */
  function Barred(c: Circumstances, t: Table, n: PDU): set<byte> {
    SourcePorts(Prune(t, c.now), n)
  }

  /** The broadcast leaves through the port. */
  predicate BroadcastReaches(c: Circumstances, t: Table, n: PDU, port: byte)
    requires n.hopCount.Some?
  {
    Eligible(Taught(c, t, n), c.inPort, Barred(c, t, n), port) && Reached(Taught(c, t, n), port, n)
  }

  /** The preferred route to the unit's destination. */
  function Preferred(c: Circumstances, t: Table, n: PDU): Option<Route>
    requires n.dnet.Some?
  {
    Lookup(Taught(c, t, n), n.dnet.value, c.now)
  }

  /** A preferred route lets the unit through. */
  predicate Passes(c: Circumstances, best: Option<Route>, blocked: set<byte>, n: PDU)
    requires n.hopCount.Some?
  {
    && best.Some? && best.value.port != c.inPort && best.value.port !in blocked && !c.busy
    && (best.value.kind == Connected || n.hopCount.value >= 2)
  }

  predicate UnicastPasses(c: Circumstances, t: Table, n: PDU)
    requires n.dnet.Some? && n.hopCount.Some?
  {
    Passes(c, Preferred(c, t, n), Barred(c, t, n), n)
  }

  /** The forward for the preferred route: stripped when the destination is connected. */
  function ForwardAlong(best: Route, n: PDU): Forward
    requires HasDestination(n.flags) && n.hopCount.Some? && (best.kind == Connected || n.hopCount.value >= 2)
  {
    if best.kind == Connected then Forward(best.port, Stripped(n), LocalDelivery)
    else Forward(best.port, Decremented(n), Transit)
  }

  /** Some forward is due for the unit. */
  predicate ForwardIsDue(c: Circumstances, t: Table, n: PDU)
    requires n.dnet.Some? && n.hopCount.Some?
  {
    if n.dnet.value == Nlm.GLOBAL_BROADCAST then
      c.forwardsBroadcast && !c.busy && exists p: byte :: BroadcastReaches(c, t, n, p)
    else UnicastPasses(c, t, n)
  }

  /** The source network of a valid unit is one a route may lead to, or there is none. */
  lemma SourceIsLearnable(c: Circumstances, t: Table, n: PDU)
    requires Valid(n)
    ensures var err := AddLearned(Prune(t, c.now), c.inPort, SourceNetwork(n), MINUTE, c.now).err;
            err.None? || err.value == RouteToLocalNetwork
  {
    hide Has, MessageValid, DestinationValid, Prune, Upsert;
  }

  lemma BroadcastFailsWhen(c: Circumstances, t: Table, n: PDU)
    requires Valid(n) && HasDestination(n.flags) && n.dnet.value == Nlm.GLOBAL_BROADCAST
    ensures var r := DecideBroadcast(c, Taught(c, t, n), Barred(c, t, n), n);
            && (r.Err? <==> !Carries(n) && ForwardIsDue(c, t, n))
            && (r.Err? ==> r.error.RebuildFailed?)
  {
    assert n.hopCount.Some?;
    hide Valid, Has, Carries, Reached, FanOut, Eligible, Taught, Barred;
    if Carries(n) {
      FanOutExact(Taught(c, t, n), c.inPort, Barred(c, t, n), n);
    } else {
      EmptyBroadcastFails(Taught(c, t, n), c.inPort, Barred(c, t, n), n);
      BroadcastReachesSome(c, t, n);
    }
  }

  lemma BroadcastReachesSome(c: Circumstances, t: Table, n: PDU)
    requires n.hopCount.Some?
    ensures (exists p: byte :: BroadcastReaches(c, t, n, p))
            <==> exists p: byte ::
                   Eligible(Taught(c, t, n), c.inPort, Barred(c, t, n), p) && Reached(Taught(c, t, n), p, n)
  {
    hide Reached, Eligible, Taught, Barred;
    if p: byte :| BroadcastReaches(c, t, n, p) {
      assert Eligible(Taught(c, t, n), c.inPort, Barred(c, t, n), p);
    }
    if p: byte :| Eligible(Taught(c, t, n), c.inPort, Barred(c, t, n), p) && Reached(Taught(c, t, n), p, n) {
      assert BroadcastReaches(c, t, n, p);
    }
  }

  lemma UnicastDecides(c: Circumstances, t: Table, blocked: set<byte>, n: PDU)
    requires Valid(n) && HasDestination(n.flags) && n.dnet.value != Nlm.GLOBAL_BROADCAST
    ensures var best := Lookup(t, n.dnet.value, c.now);
            var r := DecideUnicast(c, t, blocked, n);
            && (r.Err? <==> !Carries(n) && Passes(c, best, blocked, n))
            && (r.Err? ==> r.error.RebuildFailed?)
            && (r.Ok? ==> r.value.forwards == if Passes(c, best, blocked, n) then [ForwardAlong(best.value, n)] else [])
  {
    var best := Lookup(t, n.dnet.value, c.now);
    DestinationIsPresent(n);
    hide Valid, HasDestination, IsNetworkMessage, Carries, Lookup, BuildForward, BuildLocalDelivery, BuildReject,
         Stripped;
    if best.Some? {
      TransitIsDecremented(best.value.port, n);
      LocalDeliveryIsStripped(best.value.port, n);
    }
  }

  /** A unit with a destination is decided on the learned table. */
  lemma EvaluationDecides(c: Circumstances, t: Table, n: PDU)
    requires Valid(n) && HasDestination(n.flags)
    ensures Evaluate(c, t, n).result
            == if n.dnet.value == Nlm.GLOBAL_BROADCAST then DecideBroadcast(c, Taught(c, t, n), Barred(c, t, n), n)
               else DecideUnicast(c, Taught(c, t, n), Barred(c, t, n), n)
  {
    SourceIsLearnable(c, t, n);
    hide Valid, HasDestination, Prune, AddLearned, SourcePorts, DecideBroadcast, DecideUnicast;
  }

  /** An evaluation fails for want of a payload exactly when a unit without one is due to be
      forwarded, broadcast or unicast; nothing else fails but an invalid unit. */
  lemma EvaluationFailsExactly(c: Circumstances, t: Table, n: PDU)
    ensures var r := Evaluate(c, t, n).result;
            && (r.Err? && r.error.RebuildFailed?
                <==> Valid(n) && HasDestination(n.flags) && !Carries(n) && ForwardIsDue(c, t, n))
            && (r.Err? && !r.error.RebuildFailed? <==> !Valid(n))
  {
    if Valid(n) && HasDestination(n.flags) {
      DestinationIsPresent(n);
      EvaluationDecides(c, t, n);
      if n.dnet.value == Nlm.GLOBAL_BROADCAST {
        BroadcastFailsWhen(c, t, n);
      } else {
        UnicastDecides(c, Taught(c, t, n), Barred(c, t, n), n);
      }
      hide Valid, HasDestination, Carries, Passes, ForwardAlong, BroadcastReaches, Evaluate, DecideBroadcast,
           DecideUnicast;
    }
  }

  /** A broadcast that is evaluated without failure goes out through exactly the ports it
      reaches, in ascending order, stripped exactly where the port has a connected route. */
  lemma BroadcastGoesEverywhere(c: Circumstances, t: Table, n: PDU)
    requires Valid(n) && HasDestination(n.flags) && n.dnet.value == Nlm.GLOBAL_BROADCAST
    requires Evaluate(c, t, n).result.Ok?
    ensures var fs := Evaluate(c, t, n).result.value.forwards;
            && (forall i, j :: 0 <= i < j < |fs| ==> fs[i].outPort < fs[j].outPort)
            && (forall i :: 0 <= i < |fs| ==> BroadcastReaches(c, t, n, fs[i].outPort)
                                              && fs[i] == ForwardFor(Taught(c, t, n), fs[i].outPort, n))
            && (c.forwardsBroadcast && !c.busy ==>
                  forall p: byte :: BroadcastReaches(c, t, n, p) ==> ForwardFor(Taught(c, t, n), p, n) in fs)
            && (!c.forwardsBroadcast || c.busy ==> fs == [])
  {
    DestinationIsPresent(n);
    EvaluationDecides(c, t, n);
    hide Valid, Has, Serves, Carries, Evaluate, ForwardFor, Reached, FanOutOver, Eligible, Taught, Barred;
    if Carries(n) {
      FanOutExact(Taught(c, t, n), c.inPort, Barred(c, t, n), n);
    } else {
      EmptyBroadcastFails(Taught(c, t, n), c.inPort, Barred(c, t, n), n);
      EmptyBroadcastIsEmpty(Taught(c, t, n), c.inPort, Barred(c, t, n), n);
    }
  }

  lemma EmptyBroadcastIsEmpty(t: Table, inPort: byte, blocked: set<byte>, n: PDU)
    requires Valid(n) && HasDestination(n.flags) && !Carries(n)
    ensures FanOut(t, inPort, blocked, n).Ok? ==> FanOut(t, inPort, blocked, n).value == []
  {
    hide Valid, Has, Carries, Reached, FanOutOver, Eligible;
    FanOutOverBreaks(t, EligibleFrom(t, inPort, blocked, 0), n);
  }

  /** A unicast forward goes out alone, through the port of the preferred route, exactly when
      that route lets the unit through. */
  lemma UnicastFollowsBestRoute(c: Circumstances, t: Table, n: PDU)
    requires Valid(n) && HasDestination(n.flags) && n.dnet.value != Nlm.GLOBAL_BROADCAST
    ensures var r := Evaluate(c, t, n).result;
            && (r.Err? <==> !Carries(n) && UnicastPasses(c, t, n))
            && (r.Ok? ==>
                  r.value.forwards
                  == if UnicastPasses(c, t, n) then [ForwardAlong(Preferred(c, t, n).value, n)] else [])
  {
    EvaluationDecides(c, t, n);
    UnicastDecides(c, Taught(c, t, n), Barred(c, t, n), n);
    hide Valid, HasDestination, Carries, Passes, ForwardAlong, Evaluate, DecideUnicast;
  }

  // --- evaluating is an event of the table's history ---

  lemma PruneOfLive(t: Table, now: int)
    requires WellFormed(t) && forall n, p :: Get(t, n, p).Some? ==> Live(Get(t, n, p).value, now)
    ensures Prune(t, now) == t
  {
    forall n | n in t
      ensures PrunePorts(t[n], now) == t[n]
    {
      forall p | p in t[n]
        ensures Live(t[n][p], now)
      {
        assert Get(t, n, p).Some?;
      }
    }
  }

  lemma LearningIsLive(t: Table, now: int, port: byte, network: uint16)
    requires WellFormed(t)
    ensures var u := Applied(Prune(t, now), now, Learn(port, network, MINUTE)); WellFormed(u) && Prune(u, now) == u
  {
    hide Prune, Upsert, WellFormed;
    PruneKeepsWellFormed(t, now);
    AppliedKeepsWellFormed(Prune(t, now), now, Learn(port, network, MINUTE));
    var u := Applied(Prune(t, now), now, Learn(port, network, MINUTE));
    forall m, p | Get(u, m, p).Some?
      ensures Live(Get(u, m, p).value, now)
    {
      PruneGets(t, now, m, p);
      UpsertGets(Prune(t, now), LearnedRoute(port, network, MINUTE, now), m, p);
    }
    PruneOfLive(u, now);
  }

  lemma AfterOne(t: Table, e: Timed)
    requires e.prunes
    ensures After(t, [e]) == Applied(Prune(t, e.now), e.now, e.event)
  {
    hide Prune, Applied;
    assert [e][..0] == [];
    assert After(t, []) == t;
  }

  /** Evaluating a unit leaves the table alone or teaches it one learned route. */
  lemma EvaluationIsEvent(c: Circumstances, t: Table, n: PDU)
    requires WellFormed(t)
    ensures var learn := Timed(c.now, true, Learn(c.inPort, SourceNetwork(n), MINUTE));
            Evaluate(c, t, n).t == if Valid(n) && HasDestination(n.flags) then After(t, [learn]) else t
  {
    hide Valid, HasDestination, DecideBroadcast, DecideUnicast, Prune, AddLearned, WellFormed, After;
    LearningIsLive(t, c.now, c.inPort, SourceNetwork(n));
    AfterOne(t, Timed(c.now, true, Learn(c.inPort, SourceNetwork(n), MINUTE)));
  }
}
