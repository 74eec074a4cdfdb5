/** What an evaluation comes to, told from the table before it and in numbers: which ports a unit
    never leaves by, which it does leave by, and what is reported when it is dropped. */
module Decisions {
  import opened Wire
  import opened Routing
  import Nlm
  import opened Npdu
  import opened Forwarding

  /** The port serves the network the unit came from, by a route that has not expired. */
  predicate ServesSource(t: Table, n: PDU, port: byte, now: int) {
    n.snet.Some? && Current(t, n.snet.value, port, now)
  }

  lemma SourceIsFlagged(n: PDU)
    requires Valid(n)
    ensures HasSource(n.flags) <==> n.snet.Some?
    ensures n.snet.Some? ==> 1 <= n.snet.value <= 0xFFFE
  {
    hide Has, MessageValid, DestinationValid;
  }

  lemma BarredExactly(c: Circumstances, t: Table, n: PDU, port: byte)
    requires Valid(n)
    ensures port in Barred(c, t, n) <==> ServesSource(t, n, port, c.now)
  {
    SourceIsFlagged(n);
    hide Valid, HasSource, Prune;
    if n.snet.Some? {
      CurrentSurvives(t, n.snet.value, c.now);
    }
  }

  /** No forward goes back where the unit came from: not out of its ingress port, nor out of any port
      known to serve its source network. */
  lemma NothingGoesBack(c: Circumstances, t: Table, n: PDU, i: nat)
    requires var r := Evaluate(c, t, n).result; r.Ok? && i < |r.value.forwards|
    ensures var port := Evaluate(c, t, n).result.value.forwards[i].outPort;
            port != c.inPort && !ServesSource(t, n, port, c.now)
  {
    ForwardsAreFaithful(c, t, n, i);
    BarredExactly(c, t, n, Evaluate(c, t, n).result.value.forwards[i].outPort);
  }

  // --- broadcasts ---

  /** An unexpired route of the given kind leaves through the port. */
  predicate LeadsTo(t: Table, network: uint16, port: byte, now: int, kind: RouteKind) {
    Current(t, network, port, now) && t[network][port].kind == kind
  }

  ghost predicate Leads(t: Table, port: byte, now: int, kind: RouteKind) {
    exists network: uint16 :: LeadsTo(t, network, port, now, kind)
  }

  lemma TaughtElsewhere(c: Circumstances, t: Table, n: PDU, network: uint16, port: byte)
    requires port != c.inPort
    ensures var u := Taught(c, t, n);
            && (Current(t, network, port, c.now) <==> network in u && port in u[network])
            && (Current(t, network, port, c.now) ==> u[network][port] == t[network][port])
  {
    var pruned := Prune(t, c.now);
    CurrentSurvives(t, network, c.now);
    UpsertGets(pruned, LearnedRoute(c.inPort, SourceNetwork(n), MINUTE, c.now), network, port);
    hide Prune, Upsert;
  }

  lemma ServesExactly(c: Circumstances, t: Table, n: PDU, port: byte, kind: RouteKind)
    requires port != c.inPort
    ensures Serves(Taught(c, t, n), port, kind) <==> Leads(t, port, c.now, kind)
  {
    hide Taught, Current;
    var u: Table := Taught(c, t, n);
    if network: uint16 :| network in u && port in u[network] && u[network][port].kind == kind {
      TaughtElsewhere(c, t, n, network, port);
      assert LeadsTo(t, network, port, c.now, kind);
    }
    if network: uint16 :| LeadsTo(t, network, port, c.now, kind) {
      TaughtElsewhere(c, t, n, network, port);
    }
  }

  /** A port gets a broadcast exactly when it is not the ingress, does not serve the source network,
      and an unexpired route leads out of it: a connected one, or a learned one with hops to spare. */
  ghost predicate GetsBroadcast(c: Circumstances, t: Table, n: PDU, port: byte)
    requires n.hopCount.Some?
  {
    && port != c.inPort && !ServesSource(t, n, port, c.now)
    && (Leads(t, port, c.now, Connected) || (Leads(t, port, c.now, Learned) && n.hopCount.value >= 2))
  }

  lemma BroadcastReachesExactly(c: Circumstances, t: Table, n: PDU, port: byte)
    requires Valid(n) && n.hopCount.Some?
    ensures BroadcastReaches(c, t, n, port) <==> GetsBroadcast(c, t, n, port)
  {
    hide Valid, Serves, Leads, Taught, Barred, ServesSource;
    BarredExactly(c, t, n, port);
    if port != c.inPort {
      ServesExactly(c, t, n, port, Connected);
      ServesExactly(c, t, n, port, Learned);
    }
  }

  /** Every such port gets one forward and no other port gets any: without destination where a
      connected route leads out of it, with one hop less elsewhere. */
  lemma BroadcastExactly(c: Circumstances, t: Table, n: PDU, port: byte)
    requires Valid(n) && HasDestination(n.flags) && n.dnet.value == 0xFFFF
    requires c.forwardsBroadcast && !c.busy && Evaluate(c, t, n).result.Ok?
    ensures var fs := Evaluate(c, t, n).result.value.forwards;
            && n.hopCount.Some?
            && (GetsBroadcast(c, t, n, port) <==> exists i :: 0 <= i < |fs| && fs[i].outPort == port)
            && forall i :: 0 <= i < |fs| && fs[i].outPort == port ==>
                 if Leads(t, port, c.now, Connected) then fs[i] == Forward(port, Stripped(n), LocalDelivery)
                 else fs[i] == Forward(port, Decremented(n), Transit)
  {
    DestinationIsPresent(n);
    BroadcastGoesEverywhere(c, t, n);
    BroadcastReachesExactly(c, t, n, port);
    if port != c.inPort {
      ServesExactly(c, t, n, port, Connected);
    }
    hide Valid, Has, HasDestination, Serves, Leads, Taught, Barred, Evaluate, GetsBroadcast, Stripped, Decremented,
         Eligible;
    var fs := Evaluate(c, t, n).result.value.forwards;
    if GetsBroadcast(c, t, n, port) {
      var f := ForwardFor(Taught(c, t, n), port, n);
      assert f in fs;
      var i :| 0 <= i < |fs| && fs[i] == f;
    }
  }

  // --- what is reported ---

  /** A reject for a network, octet by octet: version 1, a network-layer message of type 3. */
  predicate IsReject(n: PDU, network: uint16, reason: byte) {
    Npdu.Encode(n) == Ok([1, 0x80, 0x03, network / 0x100, network % 0x100, reason])
  }

  lemma RejectIs(network: uint16, reason: byte)
    requires 1 <= network <= 0xFFFE && reason <= 4
    ensures BuildReject(network, reason).Some? && IsReject(BuildReject(network, reason).value, network, reason)
  {
    var m := Nlm.RejectMessage(network, reason);
    assert Nlm.New(m, Nlm.InvalidMessage) == Ok(m) && Nlm.PayloadBytes(m) == Put16(network) + [reason];
    Nlm.ModelRoundTrip(m);
    ConstructedIsValid(NPCI(0, false, None, None), Nlm.HeaderOf(m), Nlm.PayloadBytes(m));
    MessageOctets(BuildReject(network, reason).value);
    assert [1, 0x80, 3] + (Put16(network) + [reason]) == [1, 0x80, 3, network / 0x100, network % 0x100, reason];
  }

  /** The octets of a plain network-layer message. */
  lemma MessageOctets(n: PDU)
    requires Valid(n) && n.flags == 0x80 && n.messageType.Some? && n.messageType.value < 0x80
    ensures Npdu.Encode(n) == Ok([1, 0x80, n.messageType.value] + n.apdu)
  {
    hide Nlm.DecodeModel;
    assert !HasDestination(0x80) && !HasSource(0x80) && IsNetworkMessage(0x80);
    var rest := MessageBytes(n) + n.apdu;
    assert MessageBytes(n) == [n.messageType.value];
    assert [] + ([] + ([] + rest)) == rest;
    assert Layout(n) == [1, 0x80] + rest;
    assert [1, 0x80] + rest == [1, 0x80, n.messageType.value] + n.apdu;
  }

  lemma PruneTwice(t: Table, now: int)
    ensures Prune(Prune(t, now), now) == Prune(t, now)
  {
    var u := Prune(t, now);
    forall n | n in u
      ensures PrunePorts(u[n], now) == u[n]
    {
    }
  }

  /** The preferred route in the table that the evaluation leaves behind. */
  function Chosen(c: Circumstances, t: Table, n: PDU): Option<Route>
    requires n.dnet.Some?
  {
    Lookup(Evaluate(c, t, n).t, n.dnet.value, c.now)
  }

  lemma ChosenIsPreferred(c: Circumstances, t: Table, n: PDU)
    requires Valid(n) && HasDestination(n.flags) && n.dnet.value != 0xFFFF
    ensures Chosen(c, t, n) == Forwarding.Preferred(c, t, n)
  {
    SourceIsLearnable(c, t, n);
    PruneTwice(Taught(c, t, n), c.now);
    hide Valid, HasDestination, Prune, AddLearned, SourcePorts, DecideUnicast;
  }

  /** How far the preferred route takes a unit. */
  datatype Fate = NoRoute | BackWhereItCameFrom | IntoItsSource | RouterIsBusy | OutOfHops | GoesOut

  function FateOf(c: Circumstances, t: Table, n: PDU, best: Option<Route>): Fate
    requires n.hopCount.Some?
  {
    FateBy(c, n.hopCount.value, best, best.Some? && ServesSource(t, n, best.value.port, c.now))
  }

  /** The reason given for a drop, and the octet of the reject sent for it, if any is sent. */
  function ReportFor(f: Fate): (DropReason, Option<byte>) {
    match f
    case NoRoute => (UnknownDestination, Some(0))
    case BackWhereItCameFrom => (SamePort, None)
    case IntoItsSource => (LoopSuppressed, None)
    case RouterIsBusy => (Busy, Some(2))
    case OutOfHops => (HopCountExpired, Some(1))
    case GoesOut => (NoDrop, None)
  }

  predicate Reports(d: Decision, network: uint16, report: (DropReason, Option<byte>)) {
    && d.dropReason == report.0
    && (d.rejectResponse.Some? <==> report.1.Some?)
    && (report.1.Some? ==> d.rejectResponse.Some? && IsReject(d.rejectResponse.value, network, report.1.value))
  }

  /** The fate of a unit by its preferred route, with source telling whether that leads back. */
  function FateBy(c: Circumstances, hops: byte, best: Option<Route>, source: bool): Fate {
    if best.None? then NoRoute
    else if best.value.port == c.inPort then BackWhereItCameFrom
    else if source then IntoItsSource
    else if c.busy then RouterIsBusy
    else if best.value.kind == Learned && hops <= 1 then OutOfHops
    else GoesOut
  }

  /** The reject that the model builds for an octet. */
  function RejectFor(network: uint16, octet: Option<byte>): Option<PDU> {
    if octet.None? then None else BuildReject(network, octet.value)
  }

  lemma RejectReports(d: Decision, network: uint16, f: Fate)
    requires 1 <= network <= 0xFFFE
    requires d.dropReason == ReportFor(f).0 && d.rejectResponse == RejectFor(network, ReportFor(f).1)
    ensures Reports(d, network, ReportFor(f))
  {
    RejectIs(network, 0);
    RejectIs(network, 1);
    RejectIs(network, 2);
    hide BuildReject, IsReject;
  }

  /** The route is not even tried. */
  predicate HeldBack(c: Circumstances, blocked: set<byte>, best: Option<Route>) {
    best.None? || best.value.port == c.inPort || best.value.port in blocked || c.busy
  }

  lemma HeldBackFor(c: Circumstances, t: Table, blocked: set<byte>, n: PDU, best: Option<Route>)
    requires Valid(n) && HasDestination(n.flags) && n.dnet.Some? && n.hopCount.Some?
    requires best == Lookup(t, n.dnet.value, c.now) && HeldBack(c, blocked, best)
    ensures var r := DecideUnicast(c, t, blocked, n);
            var report := ReportFor(FateBy(c, n.hopCount.value, best, best.Some? && best.value.port in blocked));
            r.Ok? && r.value.dropReason == report.0 && r.value.rejectResponse == RejectFor(n.dnet.value, report.1)
  {
    hide Valid, HasDestination, IsNetworkMessage, Lookup, BuildForward, BuildLocalDelivery, BuildReject;
  }

  lemma TriedFor(c: Circumstances, t: Table, blocked: set<byte>, n: PDU, best: Option<Route>)
    requires Valid(n) && HasDestination(n.flags) && n.dnet.Some? && n.hopCount.Some?
    requires best == Lookup(t, n.dnet.value, c.now) && !HeldBack(c, blocked, best)
    ensures var r := DecideUnicast(c, t, blocked, n);
            var report := ReportFor(FateBy(c, n.hopCount.value, best, best.Some? && best.value.port in blocked));
            r.Ok? ==> r.value.dropReason == report.0 && r.value.rejectResponse == RejectFor(n.dnet.value, report.1)
  {
    TransitIsDecremented(best.value.port, n);
    hide Valid, HasDestination, IsNetworkMessage, Lookup, BuildForward, BuildLocalDelivery, BuildReject, Carries,
         Decremented,
         Stripped;
  }

  lemma DropsFor(c: Circumstances, t: Table, blocked: set<byte>, n: PDU)
    requires Valid(n) && HasDestination(n.flags) && n.dnet.value != 0xFFFF
    ensures var best := Lookup(t, n.dnet.value, c.now);
            var r := DecideUnicast(c, t, blocked, n);
            && n.hopCount.Some?
            && var report := ReportFor(FateBy(c, n.hopCount.value, best, best.Some? && best.value.port in blocked));
               r.Ok? ==> r.value.dropReason == report.0 && r.value.rejectResponse == RejectFor(n.dnet.value, report.1)
  {
    DestinationIsPresent(n);
    hide Valid, HasDestination, Lookup, DecideUnicast, FateBy, ReportFor, RejectFor;
    var best := Lookup(t, n.dnet.value, c.now);
    if HeldBack(c, blocked, best) {
      HeldBackFor(c, t, blocked, n, best);
    } else {
      TriedFor(c, t, blocked, n, best);
    }
  }

  lemma DropsReport(c: Circumstances, t: Table, blocked: set<byte>, n: PDU)
    requires Valid(n) && HasDestination(n.flags) && n.dnet.value != 0xFFFF
    ensures var best := Lookup(t, n.dnet.value, c.now);
            var r := DecideUnicast(c, t, blocked, n);
            && n.hopCount.Some?
            && var fate := FateBy(c, n.hopCount.value, best, best.Some? && best.value.port in blocked);
               r.Ok? ==> Reports(r.value, n.dnet.value, ReportFor(fate))
  {
    DestinationIsPresent(n);
    hide Valid, HasDestination, Lookup, DecideUnicast, FateBy, ReportFor, RejectFor, Reports;
    DropsFor(c, t, blocked, n);
    var best := Lookup(t, n.dnet.value, c.now);
    var r := DecideUnicast(c, t, blocked, n);
    if r.Ok? {
      RejectReports(r.value, n.dnet.value,
                    FateBy(c, n.hopCount.value, best, best.Some? && best.value.port in blocked));
    }
  }

  lemma GoingOut(c: Circumstances, t: Table, blocked: set<byte>, n: PDU)
    requires Valid(n) && HasDestination(n.flags) && n.dnet.value != 0xFFFF
    ensures var best := Lookup(t, n.dnet.value, c.now);
            var r := DecideUnicast(c, t, blocked, n);
            && n.hopCount.Some?
            && var out := FateBy(c, n.hopCount.value, best, best.Some? && best.value.port in blocked) == GoesOut;
               && (r.Ok? ==>
                     && (r.value.forwards != [] <==> out)
                     && (r.value.deliverLocally <==>
                           IsNetworkMessage(n.flags) || (out && best.value.kind == Connected)))
  {
    DestinationIsPresent(n);
    hide Valid, HasDestination, IsNetworkMessage, Lookup, BuildForward, BuildLocalDelivery, BuildReject, Carries;
    var best := Lookup(t, n.dnet.value, c.now);
    if best.Some? {
      TransitIsDecremented(best.value.port, n);
      LocalDeliveryIsStripped(best.value.port, n);
    }
  }

  /** What becomes of a unicast unit: whether it is forwarded, why not, and what its sender is told. */
  lemma UnicastVerdict(c: Circumstances, t: Table, n: PDU)
    requires Valid(n) && HasDestination(n.flags) && n.dnet.value != 0xFFFF && Evaluate(c, t, n).result.Ok?
    ensures n.hopCount.Some?
    ensures var d := Evaluate(c, t, n).result.value;
            var fate := FateOf(c, t, n, Chosen(c, t, n));
            Reports(d, n.dnet.value, ReportFor(fate)) && (d.forwards != [] <==> fate == GoesOut)
  {
    EvaluationDecides(c, t, n);
    ChosenIsPreferred(c, t, n);
    DropsReport(c, Taught(c, t, n), Barred(c, t, n), n);
    GoingOut(c, Taught(c, t, n), Barred(c, t, n), n);
    hide Valid, HasDestination, Taught, Barred, Evaluate, DecideUnicast, FateBy, Reports, ServesSource, Lookup, Chosen;
    var best := Forwarding.Preferred(c, t, n);
    if best.Some? {
      BarredExactly(c, t, n, best.value.port);
    }
  }

  /** A unit is for this router too exactly when it names no other network, is a broadcast or a
      network-layer message, or is delivered on a connected network. */
  lemma LocalExactly(c: Circumstances, t: Table, n: PDU)
    requires Evaluate(c, t, n).result.Ok?
    ensures var d := Evaluate(c, t, n).result.value;
            d.deliverLocally <==> || n.dnet.None? || n.dnet.value == 0xFFFF || n.messageType.Some?
                                  || (d.forwards != [] && d.forwards[0].kind == LocalDelivery)
  {
    assert Valid(n);
    FieldsAreFlagged(n);
    if HasDestination(n.flags) {
      EvaluationDecides(c, t, n);
      if n.dnet.value != 0xFFFF {
        GoingOut(c, Taught(c, t, n), Barred(c, t, n), n);
        UnicastFollowsBestRoute(c, t, n);
      }
    }
    hide Valid, HasDestination, Has, IsNetworkMessage, Taught, Barred, DecideUnicast, FateBy, FanOut, Lookup, Carries,
         Stripped,
         Decremented;
  }

  /** Everything that is not a unicast: a unit without destination is delivered and nothing else; a broadcast
      is never rejected, and held back, as busy or silently, exactly when the router is busy or does not
      forward broadcasts. */
  lemma OthersVerdict(c: Circumstances, t: Table, n: PDU)
    requires Valid(n) && (n.dnet.None? || n.dnet.value == 0xFFFF) && Evaluate(c, t, n).result.Ok?
    ensures var d := Evaluate(c, t, n).result.value;
            && d.deliverLocally && d.rejectResponse.None?
            && d.dropReason == (if n.dnet.Some? && c.forwardsBroadcast && c.busy then Busy else NoDrop)
            && (n.dnet.None? || !c.forwardsBroadcast || c.busy ==> d.forwards == [])
  {
    FieldsAreFlagged(n);
    if HasDestination(n.flags) {
      EvaluationDecides(c, t, n);
    }
    hide Valid, HasDestination, Has, FanOut, Taught, Barred, Prune, AddLearned, SourcePorts;
  }

  lemma FieldsAreFlagged(n: PDU)
    requires Valid(n)
    ensures HasDestination(n.flags) <==> n.dnet.Some?
    ensures IsNetworkMessage(n.flags) <==> n.messageType.Some?
  {
    hide Has, Nlm.DecodeModel;
  }

  // --- what the table is taught ---

  lemma EvaluationLeaves(c: Circumstances, t: Table, n: PDU)
    requires WellFormed(t) && Valid(n) && HasDestination(n.flags)
    ensures Evaluate(c, t, n).t == Taught(c, t, n)
  {
    SourceIsLearnable(c, t, n);
    LearningIsLive(t, c.now, c.inPort, SourceNetwork(n));
    hide Valid, Has, HasDestination, HasSource, Prune, AddLearned, WellFormed, DecideBroadcast, DecideUnicast,
         SourcePorts;
  }

  /** A unit that needs routing teaches one learned route, to its source network by its ingress port,
      good for a minute of nanoseconds, unless a connected route stands there; expired routes go. */
  lemma TeachesExactly(c: Circumstances, t: Table, n: PDU, m: uint16, p: byte)
    requires WellFormed(t) && Valid(n) && HasDestination(n.flags)
    ensures var before := if Current(t, m, p, c.now) then Get(t, m, p) else None;
            Get(Evaluate(c, t, n).t, m, p)
            == if n.snet == Some(m) && p == c.inPort && (before.None? || before.value.kind == Learned)
               then Some(Route(m, p, [], Learned, c.now, Some(c.now + 60_000_000_000))) else before
  {
    EvaluationLeaves(c, t, n);
    SourceIsFlagged(n);
    hide Evaluate, Valid, Has, HasDestination, HasSource, WellFormed, Upsert, Prune;
    var pruned := Prune(t, c.now);
    PruneKeepsWellFormed(t, c.now);
    PruneGets(t, c.now, m, p);
    if n.snet.Some? {
      AddingSets(pruned, c.inPort, n.snet.value, [], MINUTE, c.now, m, p);
    }
  }
}
