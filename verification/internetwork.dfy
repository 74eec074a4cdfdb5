/** Any number of routers in any state: how far a unit can travel, and what arrives. */
module Internetwork {
  import opened Wire
  import opened Routing
  import Nlm
  import opened Npdu
  import opened Forwarding

  predicate ForwardsAs(c: Circumstances, t: Table, a: PDU, i: nat, b: PDU) {
    var r := Evaluate(c, t, a).result;
    r.Ok? && i < |r.value.forwards| && r.value.forwards[i].pdu == b
  }

  /** Some router, with some table, policy, clock and ingress port, forwards a as b. */
  ghost predicate Hop(a: PDU, b: PDU) {
    exists c: Circumstances, t: Table, i: nat :: ForwardsAs(c, t, a, i, b)
  }

  /** Every unit of the chain is a forward of the one before it, each by a router of its own. */
  ghost predicate Chain(s: seq<PDU>) {
    forall i :: 0 <= i < |s| - 1 ==> Hop(s[i], s[i + 1])
  }

  /** The most forwards a unit can go through. */
  function Budget(n: PDU): nat {
    if Valid(n) && HasDestination(n.flags) then (if n.hopCount.value == 0 then 1 else n.hopCount.value) else 0
  }

  /** What no router changes. */
  predicate SameMessage(a: PDU, b: PDU) {
    && b.apdu == a.apdu && b.messageType == a.messageType && b.vendorID == a.vendorID
    && b.snet == a.snet && b.slen == a.slen && b.sadr == a.sadr
    && PriorityOf(b.flags) == PriorityOf(a.flags) && ExpectsReply(b.flags) == ExpectsReply(a.flags)
    && IsNetworkMessage(b.flags) == IsNetworkMessage(a.flags) && HasSource(b.flags) == HasSource(a.flags)
  }

  predicate SameDestination(a: PDU, b: PDU) {
    b.dnet == a.dnet && b.dlen == a.dlen && b.dadr == a.dadr
  }

  /** One hop less towards the same destination, or off the internetwork. */
  predicate Spends(a: PDU, b: PDU) {
    && Valid(a) && HasDestination(a.flags) && Valid(b) && SameMessage(a, b)
    && if HasDestination(b.flags)
       then SameDestination(a, b) && a.hopCount.value >= 2 && b.hopCount.value == a.hopCount.value - 1
       else b.dnet.None? && b.dadr.None? && b.hopCount.None?
  }

  lemma FaithfulSpends(a: PDU, f: Forward)
    requires Valid(a) && Faithful(a, f)
    ensures Spends(a, f.pdu)
  {
    hide Has, PriorityOf, Nlm.DecodeModel;
    StrippedFlags(a.flags);
    FaithfulIsValid(a, f);
  }

  lemma HopSpends(a: PDU, b: PDU)
    requires Hop(a, b)
    ensures Spends(a, b)
  {
    hide Evaluate, Valid, Faithful, Spends, Has;
    var c: Circumstances, t: Table, i: nat :| ForwardsAs(c, t, a, i, b);
    ForwardsAreFaithful(c, t, a, i);
    FaithfulSpends(a, Evaluate(c, t, a).result.value.forwards[i]);
  }

  /** Forwarding ends in any network: whatever its routers believe, a unit is forwarded at most
      as often as its hop count says, and at most once when that is spent. */
  lemma {:induction false} ForwardingIsFinite(s: seq<PDU>)
    requires s != [] && Chain(s)
    ensures |s| - 1 <= Budget(s[0])
    decreases |s|
  {
    if |s| > 1 {
      assert Hop(s[0], s[1]);
      HopSpends(s[0], s[1]);
      var rest := s[1..];
      forall i | 0 <= i < |rest| - 1
        ensures Hop(rest[i], rest[i + 1])
      {
        assert Hop(s[i + 1], s[i + 2]);
      }
      hide Valid, Hop, Has;
      ForwardingIsFinite(rest);
    }
  }

  /** The unit after k hops: the same message, and while it has a destination, the original one
      with k hops less. */
  predicate KeptAfter(a: PDU, b: PDU, k: nat) {
    && SameMessage(a, b)
    && (k > 0 && HasDestination(b.flags) ==>
          && a.hopCount.Some? && b.hopCount.Some?
          && SameDestination(a, b) && b.hopCount.value == a.hopCount.value - k)
  }

  lemma KeptFurther(a: PDU, b: PDU, c: PDU, k: nat)
    requires KeptAfter(a, b, k) && Spends(b, c) && (k == 0 ==> a == b)
    ensures KeptAfter(a, c, k + 1) && HasDestination(b.flags)
  {
    hide Has, PriorityOf, Nlm.DecodeModel;
  }

  /** Along the chain the message, its source, priority and reply flag never change; as long as
      there is a destination it is the original one, with one hop less for each forward. */
  lemma {:induction false} MessageIsKept(s: seq<PDU>, k: nat)
    requires k < |s| && Chain(s)
    ensures KeptAfter(s[0], s[k], k)
    ensures k + 1 < |s| ==> HasDestination(s[k].flags)
    decreases k
  {
    hide Hop, Spends, KeptAfter, HasDestination;
    if k == 0 {
      KeptAtFirst(s[0]);
    } else {
      MessageIsKept(s, k - 1);
      assert Hop(s[k - 1], s[k]);
      HopSpends(s[k - 1], s[k]);
      KeptFurther(s[0], s[k - 1], s[k], k - 1);
    }
    if k + 1 < |s| {
      assert Hop(s[k], s[k + 1]);
      HopSpends(s[k], s[k + 1]);
      KeptFurther(s[0], s[k], s[k + 1], k);
    }
  }

  lemma KeptAtFirst(n: PDU)
    ensures KeptAfter(n, n, 0)
  {
  }

  // --- the bound is reached ---

  /** A router that knows one route to the destination network. */
  function OneRoute(network: uint16, kind: RouteKind): Table {
    map[network := map[1 := Route(network, 1, [], kind, 1, if kind == Learned then Some(2) else None)]]
  }

  /** The unit needs routing and can be rebuilt, and its source is not its destination network. */
  predicate Routable(n: PDU) {
    && Valid(n) && HasDestination(n.flags) && Carries(n)
    && n.dnet.value != Nlm.GLOBAL_BROADCAST && n.snet != n.dnet
  }

  lemma OneRouteForwards(n: PDU, kind: RouteKind)
    requires Routable(n) && (kind == Learned ==> n.hopCount.value >= 2)
    ensures Hop(n, if kind == Connected then Stripped(n) else Decremented(n))
  {
    var c := Circumstances(true, false, 0, 0);
    var t := OneRoute(n.dnet.value, kind);
    var dnet := n.dnet.value;
    PruneIsIdle(dnet, kind);
    var learned := AddLearned(Prune(t, 0), 0, SourceNetwork(n), MINUTE, 0);
    assert learned.t == t || (dnet in learned.t && learned.t[dnet] == t[dnet]);
    LookupFindsOne(learned.t, dnet, kind);
    assert 1 !in SourcePorts(Prune(t, 0), n);
    UnicastFollowsBestRoute(c, t, n);
    hide DecideUnicast, Lookup, Prune, AddLearned;
    assert ForwardsAs(c, t, n, 0, if kind == Connected then Stripped(n) else Decremented(n));
  }

  lemma PruneIsIdle(network: uint16, kind: RouteKind)
    ensures Prune(OneRoute(network, kind), 0) == OneRoute(network, kind)
  {
    var t := OneRoute(network, kind);
    assert 1 in PrunePorts(t[network], 0).Keys;
    assert PrunePorts(t[network], 0) == t[network];
  }

  lemma LookupFindsOne(t: Table, network: uint16, kind: RouteKind)
    requires network in t && t[network] == OneRoute(network, kind)[network]
    ensures Lookup(t, network, 0) == Some(OneRoute(network, kind)[network][1])
  {
    var ports := t[network];
    assert 1 in PrunePorts(ports, 0).Keys;
    assert PrunePorts(ports, 0) == ports;
    var u := Prune(t, 0);
    assert u[network] == ports;
    BestIsBest(ports);
  }

  lemma ChainGrows(n: PDU, rest: seq<PDU>)
    requires rest != [] && Chain(rest) && Hop(n, rest[0])
    ensures Chain([n] + rest)
  {
    hide Hop;
    var s := [n] + rest;
    forall i | 0 <= i < |s| - 1
      ensures Hop(s[i], s[i + 1])
    {
      if i > 0 {
        assert Hop(rest[i - 1], rest[i]);
      }
    }
  }

  lemma DecrementedIsRoutable(n: PDU)
    requires Routable(n) && n.hopCount.value >= 2
    ensures Routable(Decremented(n)) && Decremented(n).hopCount == Some(n.hopCount.value - 1)
    ensures Budget(n) == Budget(Decremented(n)) + 1
  {
    TransitIsDecremented(0, n);
    hide Has, Nlm.DecodeModel, BuildForward;
  }

  lemma RoutableHops(n: PDU)
    requires Routable(n)
    ensures n.hopCount.Some? && HasDestination(n.flags)
            && Budget(n) == if n.hopCount.value == 0 then 1 else n.hopCount.value
  {
  }

  /** For every routable unit some network forwards it exactly as often as the bound allows. */
  lemma {:induction false} BoundIsReached(n: PDU) returns (s: seq<PDU>)
    requires Routable(n)
    ensures s != [] && s[0] == n && Chain(s) && |s| - 1 == Budget(n)
    decreases Budget(n)
  {
    hide Hop, Routable, Chain, Budget, Stripped;
    RoutableHops(n);
    if n.hopCount.value <= 1 {
      OneRouteForwards(n, Connected);
      s := [n, Stripped(n)];
      ChainOfTwo(n, Stripped(n));
    } else {
      OneRouteForwards(n, Learned);
      DecrementedIsRoutable(n);
      var rest := BoundIsReached(Decremented(n));
      ChainGrows(n, rest);
      s := [n] + rest;
    }
  }

  lemma ChainOfTwo(a: PDU, b: PDU)
    requires Hop(a, b)
    ensures Chain([a, b])
  {
    hide Hop;
  }
}
