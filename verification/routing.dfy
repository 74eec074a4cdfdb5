/** The routing table of the network-layer router as a value: what adding, learning, ageing and
    removing routes do to it, and which route is preferred. */
module Routing {
  import opened Wire
  import Nlm

  datatype RouteKind = Connected | Learned

  datatype Route = Route(
    network: uint16, port: byte, portInfo: seq<byte>, kind: RouteKind, lastSeen: int, expiresAt: Option<int>)

  type Ports = map<byte, Route>

  type Table = map<uint16, Ports>

  datatype RouteError = RouteToLocalNetwork | InvalidRoute

  function ValidateRoute(network: uint16, portInfo: seq<byte>): Option<RouteError> {
    if network == Nlm.LOCAL_NETWORK then Some(RouteToLocalNetwork)
    else if network == Nlm.GLOBAL_BROADCAST then Some(InvalidRoute)
    else if |portInfo| > 255 then Some(InvalidRoute)
    else None
  }

  /** The route to a network on one port. */
  function Get(t: Table, network: uint16, port: byte): Option<Route> {
    if network in t && port in t[network] then Some(t[network][port]) else None
  }

  // --- ageing ---

  /** Only learned routes age. */
  predicate Live(r: Route, now: int) {
    r.kind == Learned && r.expiresAt.Some? ==> r.expiresAt.value > now
  }

  function PrunePorts(ports: Ports, now: int): Ports {
    map p | p in ports && Live(ports[p], now) :: ports[p]
  }

  function Prune(t: Table, now: int): Table {
    map n | n in t && PrunePorts(t[n], now).Keys != {} :: PrunePorts(t[n], now)
  }

  lemma PruneGets(t: Table, now: int, n: uint16, p: byte)
    ensures Get(Prune(t, now), n, p)
            == if Get(t, n, p).Some? && Live(Get(t, n, p).value, now) then Get(t, n, p) else None
  {
    if n in t && p in t[n] && Live(t[n][p], now) {
      assert p in PrunePorts(t[n], now).Keys;
    }
  }

  // --- adding and removing ---

  /** A learned advertisement refreshes a learned route and never replaces a connected one. */
  function Merged(existing: Option<Route>, r: Route): Route {
    if existing.Some? && existing.value.kind == Learned && r.kind == Learned
    then existing.value.(lastSeen := r.lastSeen, expiresAt := r.expiresAt)
    else if existing.Some? && existing.value.kind == Connected && r.kind == Learned then existing.value
    else r
  }

  function Upsert(t: Table, r: Route): Table {
    var ports := if r.network in t then t[r.network] else map[];
    t[r.network := ports[r.port := Merged(Get(t, r.network, r.port), r)]]
  }

  lemma UpsertGets(t: Table, r: Route, n: uint16, p: byte)
    ensures Get(Upsert(t, r), n, p)
            == if n == r.network && p == r.port then Some(Merged(Get(t, n, p), r)) else Get(t, n, p)
  {
  }

  function ConnectedRoute(port: byte, network: uint16, portInfo: seq<byte>, now: int): Route {
    Route(network, port, portInfo, Connected, now, None)
  }

  function LearnedRoute(port: byte, network: uint16, ttl: int, now: int): Route {
    Route(network, port, [], Learned, now, Some(now + ttl))
  }

  datatype Change = Change(t: Table, err: Option<RouteError>)

  function AddConnected(t: Table, port: byte, network: uint16, portInfo: seq<byte>, now: int): Change {
    var err := ValidateRoute(network, portInfo);
    if err.Some? then Change(t, err) else Change(Upsert(t, ConnectedRoute(port, network, portInfo, now)), None)
  }

  function AddLearned(t: Table, port: byte, network: uint16, ttl: int, now: int): Change {
    var err := ValidateRoute(network, []);
    if err.Some? then Change(t, err)
    else if ttl <= 0 then Change(t, Some(InvalidRoute))
    else Change(Upsert(t, LearnedRoute(port, network, ttl, now)), None)
  }

  function Remove(t: Table, network: uint16): Table {
    t - {network}
  }

  function RemoveOnPort(t: Table, network: uint16, port: byte): Table {
    if network !in t then t
    else
      var rest := t[network] - {port};
      if rest.Keys == {} then t - {network} else t[network := rest]
  }

  lemma RemoveGets(t: Table, network: uint16, port: byte, n: uint16, p: byte)
    ensures Get(Remove(t, network), n, p) == if n == network then None else Get(t, n, p)
    ensures Get(RemoveOnPort(t, network, port), n, p) == if n == network && p == port then None else Get(t, n, p)
  {
    if network in t && p in t[network] && p != port {
      assert p in (t[network] - {port}).Keys;
    }
  }

  // --- consistency ---

  predicate RouteFits(n: uint16, p: byte, r: Route) {
    && r.network == n && r.port == p && Nlm.Routable(n) && |r.portInfo| <= 255
    && (r.kind == Connected ==> r.expiresAt.None?)
    && (r.kind == Learned ==> r.portInfo == [] && r.expiresAt.Some? && r.lastSeen < r.expiresAt.value)
  }

  /** Routes sit under their own network and port, connected routes never expire, learned ones
      always do, and no network is listed without a route. */
  predicate WellFormed(t: Table) {
    forall n :: n in t ==> t[n].Keys != {} && forall p :: p in t[n] ==> RouteFits(n, p, t[n][p])
  }

  lemma PruneKeepsWellFormed(t: Table, now: int)
    requires WellFormed(t)
    ensures WellFormed(Prune(t, now))
  {
  }

  lemma UpsertKeepsWellFormed(t: Table, r: Route)
    requires WellFormed(t) && RouteFits(r.network, r.port, r)
    ensures WellFormed(Upsert(t, r))
  {
    var u := Upsert(t, r);
    assert r.port in u[r.network].Keys;
  }

  lemma RemoveKeepsWellFormed(t: Table, network: uint16, port: byte)
    requires WellFormed(t)
    ensures WellFormed(Remove(t, network)) && WellFormed(RemoveOnPort(t, network, port))
  {
  }

  // --- preference ---

  /** Connected before learned; among learned the fresher; then the lower port. */
  predicate Better(a: Route, b: Route) {
    if a.kind != b.kind then a.kind == Connected
    else if a.kind == Learned && a.lastSeen != b.lastSeen then a.lastSeen > b.lastSeen
    else a.port < b.port
  }

  /** Every other route on the network is less preferred. */
  predicate IsBest(ports: Ports, r: Route) {
    && r.port in ports && ports[r.port] == r
    && forall p :: p in ports && p != r.port ==> Better(r, ports[p])
  }

  predicate Keyed(ports: Ports) {
    forall p :: p in ports ==> ports[p].port == p
  }

  lemma BestIsUnique(ports: Ports, a: Route, b: Route)
    requires IsBest(ports, a) && IsBest(ports, b)
    ensures a == b
  {
  }

  /** Of two routes the better one. */
  function Preferred(a: Option<Route>, b: Route): Route {
    if a.None? || Better(b, a.value) then b else a.value
  }

  /** The best route on the ports below k. */
  function BestBelow(ports: Ports, k: nat): (r: Option<Route>)
    requires k <= 256
    decreases k
  {
    if k == 0 then None
    else if k - 1 in ports then Some(Preferred(BestBelow(ports, k - 1), ports[k - 1]))
    else BestBelow(ports, k - 1)
  }

  function Best(ports: Ports): Option<Route> {
    BestBelow(ports, 256)
  }

  lemma {:induction false} BestBelowBeats(ports: Ports, k: nat)
    requires k <= 256 && Keyed(ports)
    ensures BestBelow(ports, k).None? <==> forall p :: p in ports ==> p >= k
    ensures var r := BestBelow(ports, k);
            r.Some? ==> && r.value.port < k && r.value.port in ports && ports[r.value.port] == r.value
                        && forall p :: p in ports && p < k && p != r.value.port ==> Better(r.value, ports[p])
    decreases k
  {
    if k > 0 {
      BestBelowBeats(ports, k - 1);
    }
  }

  /** There is a best route unless there is no route. */
  lemma BestIsBest(ports: Ports)
    requires Keyed(ports)
    ensures Best(ports).None? <==> ports.Keys == {}
    ensures Best(ports).Some? ==> IsBest(ports, Best(ports).value)
  {
    BestBelowBeats(ports, 256);
    if ports.Keys != {} {
      var p :| p in ports.Keys;
    }
  }

  /** The preferred route to a network at time now. */
  function Lookup(t: Table, network: uint16, now: int): Option<Route> {
    var u := Prune(t, now);
    if network in u then Best(u[network]) else None
  }

  /** A lookup yields a live route of the table, and none exactly when there is none. */
  lemma LookupIsLive(t: Table, network: uint16, now: int)
    requires WellFormed(t)
    ensures var r := Lookup(t, network, now);
            && (r.Some? ==> Get(t, network, r.value.port) == r && Live(r.value, now)
                            && (r.value.kind == Learned ==> now < r.value.expiresAt.value))
            && (r.None? ==> forall p :: Get(t, network, p).Some? ==> !Live(Get(t, network, p).value, now))
  {
    var u := Prune(t, now);
    PruneKeepsWellFormed(t, now);
    if network in u {
      BestIsBest(u[network]);
    } else {
      forall p | Get(t, network, p).Some?
        ensures !Live(Get(t, network, p).value, now)
      {
        PruneGets(t, now, network, p);
      }
    }
  }

  /** The route to a network on a port has not expired: connected routes never do, learned ones do at
      the time they carry. */
  predicate Current(t: Table, network: uint16, port: byte, now: int) {
    && network in t && port in t[network]
    && (t[network][port].kind == Learned && t[network][port].expiresAt.Some? ==> now < t[network][port].expiresAt.value)
  }

  lemma CurrentSurvives(t: Table, network: uint16, now: int)
    ensures var u := Prune(t, now);
            var ports := if network in u then u[network] else map[];
            && (forall p :: p in ports <==> Current(t, network, p, now))
            && (forall p :: p in ports ==> ports[p] == t[network][p])
  {
    forall p: byte
      ensures var u := Prune(t, now);
              && ((network in u && p in u[network]) <==> Current(t, network, p, now))
              && (network in u && p in u[network] ==> u[network][p] == t[network][p])
    {
      PruneGets(t, now, network, p);
    }
  }

  /** Whom a lookup prefers: connected routes, of those the one on the lowest port; failing these the
      learned route heard of last, and of several heard of at once the one on the lowest port. */
  lemma LookupPrefers(t: Table, network: uint16, now: int)
    requires WellFormed(t)
    ensures var r := Lookup(t, network, now);
            && (r.None? <==> forall p: byte :: !Current(t, network, p, now))
            && (r.Some? ==> Current(t, network, r.value.port, now) && t[network][r.value.port] == r.value)
    ensures var r := Lookup(t, network, now);
            forall p: byte :: Current(t, network, p, now) ==>
              var other := t[network][p];
              && r.Some?
              && (other.kind == Connected ==> r.value.kind == Connected && r.value.port <= p)
              && (r.value.kind == Learned ==>
                    && other.kind == Learned && other.lastSeen <= r.value.lastSeen
                    && (other.lastSeen == r.value.lastSeen ==> r.value.port <= p))
  {
    var u := Prune(t, now);
    PruneKeepsWellFormed(t, now);
    CurrentSurvives(t, network, now);
    if network in u {
      BestIsBest(u[network]);
      assert u[network].Keys != {};
      assert Current(t, network, Lookup(t, network, now).value.port, now);
    } else {
      forall p: byte
        ensures !Current(t, network, p, now)
      {
        assert network !in u;
      }
    }
  }

  /** What adding a route does, entry by entry: a connected route replaces whatever was there, a
      learned one is filed or refreshed unless a connected one stands in its place. */
  lemma AddingSets(t: Table, port: byte, network: uint16, portInfo: seq<byte>, ttl: int, now: int, n: uint16, p: byte)
    requires WellFormed(t) && 1 <= network <= 0xFFFE
    ensures var u := AddConnected(t, port, network, portInfo, now);
            && (u.err.None? <==> |portInfo| <= 255)
            && Get(u.t, n, p) == if n == network && p == port && |portInfo| <= 255
                                 then Some(Route(network, port, portInfo, Connected, now, None)) else Get(t, n, p)
    ensures var u := AddLearned(t, port, network, ttl, now);
            var before := Get(t, n, p);
            && (u.err.None? <==> ttl > 0)
            && Get(u.t, n, p) == if n == network && p == port && ttl > 0
                                    && (before.None? || before.value.kind == Learned)
                                 then Some(Route(network, port, [], Learned, now, Some(now + ttl))) else before
  {
    UpsertGets(t, ConnectedRoute(port, network, portInfo, now), n, p);
    UpsertGets(t, LearnedRoute(port, network, ttl, now), n, p);
  }

  /** Which routes are refused, and that a refusal changes nothing. */
  lemma RefusingKeeps(t: Table, port: byte, network: uint16, portInfo: seq<byte>, ttl: int, now: int)
    ensures var u := AddConnected(t, port, network, portInfo, now);
            && u.err == (if network == 0 then Some(RouteToLocalNetwork)
                         else if network == 0xFFFF || |portInfo| > 255 then Some(InvalidRoute) else None)
            && (u.err.Some? ==> u.t == t)
    ensures var u := AddLearned(t, port, network, ttl, now);
            && u.err == (if network == 0 then Some(RouteToLocalNetwork)
                         else if network == 0xFFFF || ttl <= 0 then Some(InvalidRoute) else None)
            && (u.err.Some? ==> u.t == t)
  {
  }

  // --- histories ---

  datatype Event =
    | Connect(port: byte, network: uint16, portInfo: seq<byte>)
    | Learn(port: byte, network: uint16, ttl: int)
    | Forget(network: uint16)
    | ForgetOnPort(network: uint16, port: byte)

  /** An event at a time; the router may prune the table first, as lookups and evaluations do. */
  datatype Timed = Timed(now: int, prunes: bool, event: Event)

  function Applied(t: Table, now: int, e: Event): Table {
    match e
    case Connect(port, network, portInfo) => AddConnected(t, port, network, portInfo, now).t
    case Learn(port, network, ttl) => AddLearned(t, port, network, ttl, now).t
    case Forget(network) => Remove(t, network)
    case ForgetOnPort(network, port) => RemoveOnPort(t, network, port)
  }

  function After(t: Table, h: seq<Timed>): Table
    decreases |h|
  {
    if h == [] then t
    else
      var last := h[|h| - 1];
      var u := After(t, h[..|h| - 1]);
      Applied(if last.prunes then Prune(u, last.now) else u, last.now, last.event)
  }

  /** The same history without any pruning: the plain meaning of the table. */
  function Plain(t: Table, h: seq<Timed>): Table
    decreases |h|
  {
    if h == [] then t
    else Applied(Plain(t, h[..|h| - 1]), h[|h| - 1].now, h[|h| - 1].event)
  }

  predicate Ordered(h: seq<Timed>, now: int) {
    && (forall i, j :: 0 <= i <= j < |h| ==> h[i].now <= h[j].now)
    && (forall i :: 0 <= i < |h| ==> h[i].now <= now)
  }

  lemma AppliedKeepsWellFormed(t: Table, now: int, e: Event)
    requires WellFormed(t)
    ensures WellFormed(Applied(t, now, e))
  {
    match e {
      case Connect(port, network, portInfo) =>
        if ValidateRoute(network, portInfo).None? {
          UpsertKeepsWellFormed(t, ConnectedRoute(port, network, portInfo, now));
        }
      case Learn(port, network, ttl) =>
        if ValidateRoute(network, []).None? && ttl > 0 {
          UpsertKeepsWellFormed(t, LearnedRoute(port, network, ttl, now));
        }
      case Forget(network) => RemoveKeepsWellFormed(t, network, 0);
      case ForgetOnPort(network, port) => RemoveKeepsWellFormed(t, network, port);
    }
  }

  lemma {:induction false} HistoryKeepsWellFormed(t: Table, h: seq<Timed>)
    requires WellFormed(t)
    ensures WellFormed(After(t, h)) && WellFormed(Plain(t, h))
    decreases |h|
  {
    if h != [] {
      var last := h[|h| - 1];
      HistoryKeepsWellFormed(t, h[..|h| - 1]);
      var u := After(t, h[..|h| - 1]);
      PruneKeepsWellFormed(u, last.now);
      AppliedKeepsWellFormed(if last.prunes then Prune(u, last.now) else u, last.now, last.event);
      AppliedKeepsWellFormed(Plain(t, h[..|h| - 1]), last.now, last.event);
    }
  }

  /** One port's live route, the only thing a lookup can see of it. */
  function Visible(t: Table, n: uint16, p: byte, now: int): Option<Route> {
    if Get(t, n, p).Some? && Live(Get(t, n, p).value, now) then Get(t, n, p) else None
  }

  lemma VisibleFits(t: Table, n: uint16, p: byte)
    requires WellFormed(t)
    ensures Get(t, n, p).Some? ==> RouteFits(n, p, Get(t, n, p).value)
  {
  }

  /** What may be seen of a route at one place. */
  function Seen(r: Option<Route>, now: int): Option<Route> {
    if r.Some? && Live(r.value, now) then r else None
  }

  /** Merging into what has expired is like merging into nothing. */
  lemma MergedAlike(a: Option<Route>, b: Option<Route>, r: Route, n: uint16, p: byte, now: int, later: int)
    requires (a.Some? ==> RouteFits(n, p, a.value)) && (b.Some? ==> RouteFits(n, p, b.value)) && RouteFits(n, p, r)
    requires Seen(a, now) == Seen(b, now) && now <= later
    ensures Seen(Some(Merged(a, r)), later) == Seen(Some(Merged(b, r)), later)
  {
  }

  lemma UpsertAlike(t: Table, u: Table, r: Route, now: int, n: uint16, p: byte, later: int)
    requires WellFormed(t) && WellFormed(u) && RouteFits(r.network, r.port, r) && now <= later
    requires Visible(t, n, p, now) == Visible(u, n, p, now)
    ensures Visible(Upsert(t, r), n, p, later) == Visible(Upsert(u, r), n, p, later)
  {
    hide Upsert, Get, Merged;
    VisibleFits(t, n, p);
    VisibleFits(u, n, p);
    hide WellFormed;
    UpsertGets(t, r, n, p);
    UpsertGets(u, r, n, p);
    if n == r.network && p == r.port {
      MergedAlike(Get(t, n, p), Get(u, n, p), r, n, p, now, later);
    }
  }

  /** Tables that look alike now still look alike after the same event, at any later time. */
  lemma AppliedAlike(t: Table, u: Table, now: int, e: Event, n: uint16, p: byte, later: int)
    requires WellFormed(t) && WellFormed(u) && now <= later
    requires Visible(t, n, p, now) == Visible(u, n, p, now)
    ensures Visible(Applied(t, now, e), n, p, later) == Visible(Applied(u, now, e), n, p, later)
  {
    hide Upsert, Remove, RemoveOnPort, Get, WellFormed;
    match e {
      case Connect(port, network, portInfo) =>
        if ValidateRoute(network, portInfo).None? {
          UpsertAlike(t, u, ConnectedRoute(port, network, portInfo, now), now, n, p, later);
        }
      case Learn(port, network, ttl) =>
        if ValidateRoute(network, []).None? && ttl > 0 {
          UpsertAlike(t, u, LearnedRoute(port, network, ttl, now), now, n, p, later);
        }
      case Forget(network) =>
        RemoveGets(t, network, 0, n, p);
        RemoveGets(u, network, 0, n, p);
      case ForgetOnPort(network, port) =>
        RemoveGets(t, network, port, n, p);
        RemoveGets(u, network, port, n, p);
    }
  }

  /** Pruning at whatever moments is invisible: as long as the clock does not run backwards, the
      table shows exactly the routes of the plain history that have not expired. */
  lemma {:induction false} PruningIsInvisible(t: Table, h: seq<Timed>, n: uint16, p: byte, now: int)
    requires WellFormed(t) && Ordered(h, now)
    ensures Visible(After(t, h), n, p, now) == Visible(Plain(t, h), n, p, now)
    decreases |h|
  {
    if h != [] {
      var last := h[|h| - 1];
      var earlier := h[..|h| - 1];
      forall i | 0 <= i < |earlier|
        ensures earlier[i].now <= last.now
      {
        assert h[i].now <= last.now;
      }
      PruningIsInvisible(t, earlier, n, p, last.now);
      HistoryKeepsWellFormed(t, earlier);
      var u := After(t, earlier);
      PruneGets(u, last.now, n, p);
      PruneKeepsWellFormed(u, last.now);
      AppliedAlike(if last.prunes then Prune(u, last.now) else u, Plain(t, earlier), last.now, last.event, n, p, now);
    }
  }

  /** The event leaves this connected route in place. */
  predicate Spares(e: Event, n: uint16, p: byte) {
    match e
    case Connect(port, network, _) => network != n || port != p
    case Learn(_, _, _) => true
    case Forget(network) => network != n
    case ForgetOnPort(network, port) => network != n || port != p
  }

  /** No advertisement and no ageing ever touches a connected route: until it is removed or
      connected anew it stays exactly as it was added. */
  lemma {:induction false} ConnectedRouteStays(t: Table, h: seq<Timed>, n: uint16, p: byte)
    requires Get(t, n, p).Some? && Get(t, n, p).value.kind == Connected
    requires forall i :: 0 <= i < |h| ==> Spares(h[i].event, n, p)
    ensures Get(After(t, h), n, p) == Get(t, n, p)
    decreases |h|
  {
    if h != [] {
      var last := h[|h| - 1];
      ConnectedRouteStays(t, h[..|h| - 1], n, p);
      assert Spares(last.event, n, p);
      var u := After(t, h[..|h| - 1]);
      PruneGets(u, last.now, n, p);
      var v := if last.prunes then Prune(u, last.now) else u;
      match last.event {
        case Connect(port, network, portInfo) => UpsertGets(v, ConnectedRoute(port, network, portInfo, last.now), n, p);
        case Learn(port, network, ttl) => UpsertGets(v, LearnedRoute(port, network, ttl, last.now), n, p);
        case Forget(network) => RemoveGets(v, network, 0, n, p);
        case ForgetOnPort(network, port) => RemoveGets(v, network, port, n, p);
      }
      hide Upsert, Remove, RemoveOnPort, Prune;
    }
  }
}
