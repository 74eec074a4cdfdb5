/** The router as an object whose routing table is pruned, learned into and searched in place.
    Maps are walked in an order the code cannot rely on; every result is independent of it. */
module RouterObject {
  import opened Wire
  import opened Routing
  import Nlm
  import opened Npdu
  import opened Forwarding

  /** The routes of a network in order of preference. */
  predicate Ranked(s: seq<Route>) {
    forall i, j :: 0 <= i < j < |s| ==> Better(s[i], s[j])
  }

  /** Each route of the ports exactly once, and nothing else. */
  predicate Lists(ports: Ports, s: seq<Route>) {
    && |s| == |ports|
    && (forall i :: 0 <= i < |s| ==> s[i].port in ports && ports[s[i].port] == s[i])
    && (forall p :: p in ports ==> ports[p] in s)
  }

  /** Insert before the first less preferred route. */
  function Insert(s: seq<Route>, r: Route): (t: seq<Route>)
    decreases |s|
  {
    if s == [] then [r]
    else if Better(r, s[0]) then [r] + s
    else [s[0]] + Insert(s[1..], r)
  }

  lemma {:induction false} InsertRanks(s: seq<Route>, r: Route)
    requires Ranked(s)
    requires forall i :: 0 <= i < |s| ==> s[i].port != r.port
    ensures var t := Insert(s, r);
            && Ranked(t) && |t| == |s| + 1 && r in t
            && (forall x :: x in s ==> x in t) && (forall x :: x in t ==> x in s || x == r)
    decreases |s|
  {
    if s != [] && !Better(r, s[0]) {
      InsertRanks(s[1..], r);
      var t := Insert(s[1..], r);
      assert Better(s[0], r);
      forall x | x in t
        ensures Better(s[0], x)
      {
        if x in s[1..] {
          var i :| 0 <= i < |s[1..]| && s[1..][i] == x;
          assert Better(s[0], s[i + 1]);
        }
      }
      assert s == [s[0]] + s[1..];
    } else if s != [] {
      forall i | 0 <= i < |s|
        ensures Better(r, s[i])
      {
        if i > 0 {
          assert Better(s[0], s[i]);
        }
      }
    }
  }

  /** The first of a complete ranking is the preferred route. */
  lemma RankedHeadIsBest(ports: Ports, s: seq<Route>)
    requires Keyed(ports) && Ranked(s) && Lists(ports, s) && s != []
    ensures Best(ports) == Some(s[0])
  {
    forall p | p in ports && p != s[0].port
      ensures Better(s[0], ports[p])
    {
      var i :| 0 <= i < |s| && s[i] == ports[p];
      assert Better(s[0], s[i]);
    }
    assert IsBest(ports, s[0]);
    BestIsBest(ports);
    assert ports.Keys != {} by { assert s[0].port in ports.Keys; }
    BestIsUnique(ports, s[0], Best(ports).value);
  }

  /** Of two neighbours in a ranking: connected routes first and by port, then learned ones, the one
      heard of last first, and by port when they were heard of at once. */
  lemma RankedInOrder(ports: Ports, s: seq<Route>, i: nat)
    requires Keyed(ports) && Ranked(s) && Lists(ports, s) && i + 1 < |s|
    ensures s[i + 1].kind == Connected ==> s[i].kind == Connected && s[i].port < s[i + 1].port
    ensures s[i].kind == Learned && s[i + 1].kind == Learned ==>
              s[i].lastSeen > s[i + 1].lastSeen || (s[i].lastSeen == s[i + 1].lastSeen && s[i].port < s[i + 1].port)
  {
    assert Better(s[i], s[i + 1]);
  }

  /** The table when the networks in pending are still to be pruned. */
  function PrunedBut(t: Table, now: int, pending: set<uint16>): Table {
    map n | n in t && (n in pending || PrunePorts(t[n], now).Keys != {}) ::
      if n in pending then t[n] else PrunePorts(t[n], now)
  }

  lemma PrunedAtEnds(t: Table, now: int)
    ensures PrunedBut(t, now, t.Keys) == t && PrunedBut(t, now, {}) == Prune(t, now)
  {
    hide PrunePorts;
  }

  lemma PrunedStep(t: Table, now: int, pending: set<uint16>, network: uint16)
    requires network in t && network in pending
    ensures var u := PrunedBut(t, now, pending);
            var ports := PrunePorts(t[network], now);
            && network in u && u[network] == t[network]
            && PrunedBut(t, now, pending - {network}) == if ports.Keys == {} then u - {network} else u[network := ports]
  {
    hide PrunePorts;
  }

  class Router {
    const forwardsBroadcast: bool
    var routes: Table

    ghost predicate Valid()
      reads this
    {
      WellFormed(routes)
    }

    constructor (forwardsBroadcast: bool)
      ensures this.forwardsBroadcast == forwardsBroadcast && routes == map[] && Valid()
    {
      this.forwardsBroadcast := forwardsBroadcast;
      routes := map[];
    }

    method PruneExpired(now: int)
      modifies this
      ensures routes == Prune(old(routes), now)
    {
      hide PrunePorts;
      ghost var t := routes;
      var networks := routes.Keys;
      PrunedAtEnds(t, now);
      while networks != {}
        invariant networks <= t.Keys && routes == PrunedBut(t, now, networks)
        decreases |networks|
      {
        hide PrunedBut;
        var network :| network in networks;
        PrunedStep(t, now, networks, network);
        networks := networks - {network};
        var ports := PruneNetwork(routes[network], now);
        if ports.Keys == {} {
          routes := routes - {network};
        } else {
          routes := routes[network := ports];
        }
      }
    }

    method PruneNetwork(all: Ports, now: int) returns (ports: Ports)
      ensures ports == PrunePorts(all, now)
    {
      ports := all;
      var keys := all.Keys;
      while keys != {}
        invariant keys <= all.Keys
        invariant ports == map p | p in all && (p in keys || Live(all[p], now)) :: all[p]
        decreases |keys|
      {
        var port :| port in keys;
        keys := keys - {port};
        if !Live(ports[port], now) {
          ports := ports - {port};
        }
      }
    }

    method UpsertRoute(r: Route)
      modifies this
      ensures routes == Upsert(old(routes), r)
    {
      var ports: Ports := map[];
      if r.network in routes {
        ports := routes[r.network];
      }
      if r.port in ports {
        var existing := ports[r.port];
        if existing.kind == Learned && r.kind == Learned {
          existing := existing.(lastSeen := r.lastSeen, expiresAt := r.expiresAt);
          routes := routes[r.network := ports[r.port := existing]];
          return;
        }
        if existing.kind == Connected && r.kind == Learned {
          assert ports[r.port := existing] == ports;
          assert routes[r.network := ports] == routes;
          return;
        }
      }
      routes := routes[r.network := ports[r.port := r]];
    }

    method AddConnectedRoute(port: byte, network: uint16, portInfo: seq<byte>, now: int)
      returns (err: Option<RouteError>)
      requires Valid()
      modifies this
      ensures Valid() && Change(routes, err) == AddConnected(old(routes), port, network, portInfo, now)
    {
      err := ValidateRoute(network, portInfo);
      if err.None? {
        UpsertRoute(ConnectedRoute(port, network, portInfo, now));
        UpsertKeepsWellFormed(old(routes), ConnectedRoute(port, network, portInfo, now));
      }
    }

    method AddLearnedRoute(port: byte, network: uint16, ttl: int, now: int) returns (err: Option<RouteError>)
      requires Valid()
      modifies this
      ensures Valid() && Change(routes, err) == AddLearned(old(routes), port, network, ttl, now)
    {
      err := ValidateRoute(network, []);
      if err.Some? {
        return;
      }
      if ttl <= 0 {
        return Some(InvalidRoute);
      }
      UpsertRoute(LearnedRoute(port, network, ttl, now));
      UpsertKeepsWellFormed(old(routes), LearnedRoute(port, network, ttl, now));
    }

    method RemoveRoute(network: uint16)
      requires Valid()
      modifies this
      ensures Valid() && routes == Remove(old(routes), network)
    {
      routes := routes - {network};
    }

    method RemoveRouteOnPort(network: uint16, port: byte)
      requires Valid()
      modifies this
      ensures Valid() && routes == RemoveOnPort(old(routes), network, port)
    {
      RemoveKeepsWellFormed(routes, network, port);
      if network !in routes {
        return;
      }
      var ports := routes[network] - {port};
      if ports.Keys == {} {
        routes := routes - {network};
      } else {
        routes := routes[network := ports];
      }
    }

    /** The preferred route, whatever the order in which the ports are looked at. */
    method BestRoute(network: uint16, now: int) returns (best: Option<Route>)
      requires Valid()
      modifies this
      ensures Valid() && routes == Prune(old(routes), now) && best == Lookup(old(routes), network, now)
    {
      PruneExpired(now);
      PruneKeepsWellFormed(old(routes), now);
      if network !in routes {
        return None;
      }
      var ports := routes[network];
      best := SelectBest(ports);
    }

    method SelectBest(ports: Ports) returns (best: Option<Route>)
      requires Keyed(ports)
      ensures best == Best(ports)
    {
      best := None;
      var keys := ports.Keys;
      while keys != {}
        invariant keys <= ports.Keys
        invariant best.None? <==> keys == ports.Keys
        invariant best.Some? ==>
                    && best.value.port in ports && best.value.port !in keys && ports[best.value.port] == best.value
                    && forall p :: p in ports && p !in keys && p != best.value.port ==> Better(best.value, ports[p])
        decreases |keys|
      {
        var key :| key in keys;
        keys := keys - {key};
        var candidate := ports[key];
        if best.None? {
          best := Some(candidate);
        } else if candidate.kind == Connected && best.value.kind != Connected {
          best := Some(candidate);
        } else if candidate.kind != Connected && best.value.kind == Connected {
        } else if candidate.kind == Learned && best.value.kind == Learned {
          if candidate.lastSeen > best.value.lastSeen {
            best := Some(candidate);
          } else if candidate.lastSeen == best.value.lastSeen && candidate.port < best.value.port {
            best := Some(candidate);
          }
        } else if candidate.port < best.value.port {
          best := Some(candidate);
        }
      }
      BestIsBest(ports);
      if best.Some? {
        assert IsBest(ports, best.value);
        assert best.value.port in ports.Keys;
        BestIsUnique(ports, best.value, Best(ports).value);
      }
    }

    /** Every live route to the network once, in order of preference, the preferred one first. */
    method LookupAll(network: uint16, now: int) returns (all: seq<Route>)
      requires Valid()
      modifies this
      ensures Valid() && routes == Prune(old(routes), now)
      ensures Ranked(all) && Lists(if network in routes then routes[network] else map[], all)
      ensures Lookup(old(routes), network, now) == if all == [] then None else Some(all[0])
      ensures forall i :: 0 <= i < |all| - 1 ==>
                && (all[i + 1].kind == Connected ==> all[i].kind == Connected && all[i].port < all[i + 1].port)
                && (all[i].kind == Learned ==>
                      && all[i + 1].kind == Learned && all[i].lastSeen >= all[i + 1].lastSeen
                      && (all[i].lastSeen == all[i + 1].lastSeen ==> all[i].port < all[i + 1].port))
    {
      PruneExpired(now);
      PruneKeepsWellFormed(old(routes), now);
      if network !in routes {
        return [];
      }
      all := Rank(routes[network]);
      assert |routes[network].Keys| == |routes[network]|;
      RankedHeadIsBest(routes[network], all);
      forall i | 0 <= i < |all| - 1
        ensures Better(all[i], all[i + 1])
      {
        RankedInOrder(routes[network], all, i);
      }
    }

    method Rank(ports: Ports) returns (all: seq<Route>)
      requires Keyed(ports)
      ensures Ranked(all) && Lists(ports, all)
    {
      all := [];
      var keys := ports.Keys;
      while keys != {}
        invariant keys <= ports.Keys && Ranked(all) && |all| + |keys| == |ports|
        invariant forall i :: 0 <= i < |all| ==>
                    all[i].port in ports && all[i].port !in keys && ports[all[i].port] == all[i]
        invariant forall p :: p in ports && p !in keys ==> ports[p] in all
        decreases |keys|
      {
        var key :| key in keys;
        InsertRanks(all, ports[key]);
        ghost var before := all;
        all := Insert(all, ports[key]);
        keys := keys - {key};
        forall i | 0 <= i < |all|
          ensures all[i].port in ports && all[i].port !in keys && ports[all[i].port] == all[i]
        {
          assert all[i] in before || all[i] == ports[key];
        }
      }
    }

    /** The ports a broadcast may leave through: in connected those with a connected route, in
        learned those with a learned one. */
    method CollectPorts(inPort: byte, blocked: set<byte>) returns (connected: set<byte>, learned: set<byte>)
      requires Valid()
      ensures forall p: byte :: p in connected <==> p != inPort && p !in blocked && Serves(routes, p, Connected)
      ensures forall p: byte :: p in learned <==> p != inPort && p !in blocked && Serves(routes, p, Learned)
    {
      hide Admits, ServesWithin, Serves;
      connected, learned := {}, {};
      var networks := routes.Keys;
      ghost var done: set<uint16> := {};
      NothingServed(routes, inPort, blocked);
      while networks != {}
        invariant networks + done == routes.Keys
        invariant Admits(routes, done, inPort, blocked, Connected, connected)
        invariant Admits(routes, done, inPort, blocked, Learned, learned)
        decreases |networks|
      {
        var network :| network in networks;
        networks := networks - {network};
        var c, l := PortsOf(routes[network], inPort, blocked);
        OneNetworkMore(routes, done, network, inPort, blocked, Connected, connected, c);
        OneNetworkMore(routes, done, network, inPort, blocked, Learned, learned, l);
        connected, learned := connected + c, learned + l;
        done := done + {network};
      }
      assert done == routes.Keys;
      EveryNetwork(routes, inPort, blocked, Connected, connected);
      EveryNetwork(routes, inPort, blocked, Learned, learned);
    }

    method PortsOf(ports: Ports, inPort: byte, blocked: set<byte>) returns (connected: set<byte>, learned: set<byte>)
      requires Keyed(ports)
      ensures forall p: byte :: p in connected <==>
                p != inPort && p !in blocked && p in ports && ports[p].kind == Connected
      ensures forall p: byte :: p in learned <==> p != inPort && p !in blocked && p in ports && ports[p].kind == Learned
    {
      connected, learned := {}, {};
      var keys := ports.Keys;
      while keys != {}
        invariant keys <= ports.Keys
        invariant forall p: byte :: p in connected <==>
                    p != inPort && p !in blocked && p in ports && p !in keys && ports[p].kind == Connected
        invariant forall p: byte :: p in learned <==>
                    p != inPort && p !in blocked && p in ports && p !in keys && ports[p].kind == Learned
        decreases |keys|
      {
        var key :| key in keys;
        keys := keys - {key};
        var route := ports[key];
        if route.port != inPort && route.port !in blocked {
          if route.kind == Connected {
            connected := connected + {route.port};
          } else {
            learned := learned + {route.port};
          }
        }
      }
    }

    method EvaluateGlobalBroadcast(inPort: byte, blocked: set<byte>, n: PDU)
      returns (r: Result<seq<Forward>, NpduError>)
      requires Valid() && Npdu.Valid(n) && HasDestination(n.flags)
      ensures r == FanOut(routes, inPort, blocked, n)
    {
      hide Npdu.Valid, Has, BuildForward, BuildLocalDelivery, Serves, WellFormed, FanOutOver, EligibleFrom, FanOutTo;
      var connected, learned := CollectPorts(inPort, blocked);
      var forwards := [];
      ghost var whole := FanOut(routes, inPort, blocked, n);
      assert whole.Ok? ==> [] + whole.value == whole.value;
      for p := 0 to 256
        invariant whole == Prepended(forwards, FanOutOver(routes, EligibleFrom(routes, inPort, blocked, p), n))
      {
        EligibleStep(routes, inPort, blocked, p);
        if p in connected || p in learned {
          FanOutStep(routes, p, EligibleFrom(routes, inPort, blocked, p + 1), n, forwards);
          var built := ForwardVia(p, p in connected, n);
          if built.Broken? {
            return Err(built.e);
          }
          if built.Sent? {
            forwards := forwards + [built.forward];
          } else {
            assert forwards + [] == forwards;
          }
        }
      }
      NoneLeft(routes, inPort, blocked, n);
      assert forwards + [] == forwards;
      r := Ok(forwards);
    }

    /** Final-hop delivery on a connected port, transit on any other. */
    method ForwardVia(port: byte, connected: bool, n: PDU) returns (built: Built)
      requires Npdu.Valid(n) && HasDestination(n.flags) && (connected <==> Serves(routes, port, Connected))
      ensures built == FanOutTo(routes, port, n)
    {
      hide Npdu.Valid, Has, BuildForward, BuildLocalDelivery, Serves;
      if connected {
        built := BuildLocalDelivery(port, n);
      } else {
        built := BuildForward(port, n);
      }
    }

    method EvaluatePDU(n: PDU, busy: bool, now: int, inPort: byte) returns (r: Result<Decision, RouterError>)
      requires Valid()
      modifies this
      ensures Valid()
      ensures Evaluation(routes, r) == Evaluate(Circumstances(forwardsBroadcast, busy, now, inPort), old(routes), n)
    {
      hide Npdu.Valid, Has, BuildForward, BuildLocalDelivery, BuildReject, FanOut, Prune, AddLearned, Lookup,
           WellFormed;
      if !Npdu.Valid(n) {
        return Err(InvalidNPDU);
      }
      if !HasDestination(n.flags) {
        return Delivered(true, []);
      }
      assert n.dnet.Some? by { Npdu.DestinationIsPresent(n); }
      PruneExpired(now);
      PruneKeepsWellFormed(old(routes), now);
      var blocked := SourcePorts(routes, n);
      var err := AddLearnedRoute(inPort, SourceNetwork(n), MINUTE, now);
      if err.Some? && err.value != RouteToLocalNetwork {
        return Err(RouteRefused(err.value));
      }
      var dnet := n.dnet.value;
      if dnet == Nlm.GLOBAL_BROADCAST {
        if !forwardsBroadcast {
          return Delivered(true, []);
        }
        if busy {
          return Dropped(true, Busy, None);
        }
        var forwards := EvaluateGlobalBroadcast(inPort, blocked, n);
        return if forwards.Err? then Err(RebuildFailed(forwards.error)) else Delivered(true, forwards.value);
      }
      var local := IsNetworkMessage(n.flags);
      var route := BestRoute(dnet, now);
      if route.None? {
        return Dropped(local, UnknownDestination, BuildReject(dnet, REASON_OTHER));
      }
      if route.value.port == inPort {
        return Dropped(local, SamePort, None);
      }
      if route.value.port in blocked {
        return Dropped(local, LoopSuppressed, None);
      }
      if busy {
        return Dropped(local, Busy, BuildReject(dnet, REASON_ROUTER_BUSY));
      }
      if route.value.kind == Connected {
        var built := BuildLocalDelivery(route.value.port, n);
        return if built.Broken? then Err(RebuildFailed(built.e))
               else if built.Sent? then Delivered(true, [built.forward]) else Delivered(true, []);
      }
      var built := BuildForward(route.value.port, n);
      if built.Broken? {
        return Err(RebuildFailed(built.e));
      }
      if built.Expired? {
        return Dropped(local, HopCountExpired, BuildReject(dnet, REASON_TOO_MANY_HOPS));
      }
      r := Delivered(local, [built.forward]);
    }
  }

  /** A route of the given kind leaves through the port to one of the networks. */
  predicate ServesWithin(t: Table, networks: set<uint16>, port: byte, kind: RouteKind) {
    exists network :: network in networks && network in t && port in t[network] && t[network][port].kind == kind
  }

  /** The ports that serve one of these networks and may be used. */
  ghost predicate Admits(t: Table, networks: set<uint16>, inPort: byte, blocked: set<byte>, kind: RouteKind,
                         ports: set<byte>) {
    forall p: byte :: p in ports <==> p != inPort && p !in blocked && ServesWithin(t, networks, p, kind)
  }

  lemma NothingServed(t: Table, inPort: byte, blocked: set<byte>)
    ensures forall kind :: Admits(t, {}, inPort, blocked, kind, {})
  {
  }

  lemma EveryNetwork(t: Table, inPort: byte, blocked: set<byte>, kind: RouteKind, ports: set<byte>)
    requires Admits(t, t.Keys, inPort, blocked, kind, ports)
    ensures forall p: byte :: p in ports <==> p != inPort && p !in blocked && Serves(t, p, kind)
  {
    forall p: byte | Serves(t, p, kind)
      ensures ServesWithin(t, t.Keys, p, kind)
    {
      var network :| network in t && p in t[network] && t[network][p].kind == kind;
      assert network in t.Keys;
    }
  }

  /** One more network adds exactly the usable ports it has a route of that kind on. */
  lemma OneNetworkMore(t: Table, done: set<uint16>, network: uint16, inPort: byte, blocked: set<byte>,
                       kind: RouteKind, ports: set<byte>, more: set<byte>)
    requires network in t && Admits(t, done, inPort, blocked, kind, ports)
    requires forall p: byte :: p in more <==>
               p != inPort && p !in blocked && p in t[network] && t[network][p].kind == kind
    ensures Admits(t, done + {network}, inPort, blocked, kind, ports + more)
  {
    forall p: byte
      ensures ServesWithin(t, done + {network}, p, kind)
              <==> ServesWithin(t, done, p, kind) || (p in t[network] && t[network][p].kind == kind)
    {
      if p in t[network] && t[network][p].kind == kind {
        assert network in done + {network};
      }
    }
  }

  function Prepended(forwards: seq<Forward>, r: Result<seq<Forward>, NpduError>): Result<seq<Forward>, NpduError> {
    if r.Err? then r else Ok(forwards + r.value)
  }

  lemma EligibleStep(t: Table, inPort: byte, blocked: set<byte>, p: byte)
    ensures EligibleFrom(t, inPort, blocked, p)
            == (if Eligible(t, inPort, blocked, p) then [p] else []) + EligibleFrom(t, inPort, blocked, p + 1)
    ensures !Eligible(t, inPort, blocked, p)
            ==> EligibleFrom(t, inPort, blocked, p) == EligibleFrom(t, inPort, blocked, p + 1)
  {
    hide Eligible;
  }

  lemma NoneLeft(t: Table, inPort: byte, blocked: set<byte>, n: PDU)
    requires Npdu.Valid(n) && HasDestination(n.flags)
    ensures FanOutOver(t, EligibleFrom(t, inPort, blocked, 256), n) == Ok([])
  {
  }

  lemma FanOutStep(t: Table, p: byte, rest: seq<byte>, n: PDU, forwards: seq<Forward>)
    requires Npdu.Valid(n) && HasDestination(n.flags)
    ensures var b := FanOutTo(t, p, n);
            Prepended(forwards, FanOutOver(t, [p] + rest, n))
            == if b.Broken? then Err(b.e)
               else Prepended(forwards + (if b.Sent? then [b.forward] else []), FanOutOver(t, rest, n))
  {
    hide Npdu.Valid, Has, FanOutTo;
    var b := FanOutTo(t, p, n);
    assert ([p] + rest)[1..] == rest;
    var later := FanOutOver(t, rest, n);
    if later.Ok? && b.Sent? {
      assert forwards + ([b.forward] + later.value) == (forwards + [b.forward]) + later.value;
    } else if later.Ok? {
      assert forwards + ([] + later.value) == (forwards + []) + later.value;
    }
  }
}
