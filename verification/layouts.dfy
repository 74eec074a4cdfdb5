/** The octets themselves, in numbers: what round trips alone would leave open. */
module Layouts {
  import opened Wire
  import Apdu
  import Nlm
  import Npdu
  import Tags
  import Primitives
  import Values

  /** Two octets, the high one first. */
  function Big(x: uint16): seq<byte> {
    [x / 0x100, x % 0x100]
  }

  // --- APDUs, section 20.1 of ANSI/ASHRAE 135-2024 ---

  /** The standard sizes by their codes. */
  lemma SizesByCode(code: byte)
    ensures Apdu.LengthForCode(code)
            == if code < 6 then Ok([50, 128, 206, 480, 1024, 1476][code]) else Err(Apdu.DecodeFailure)
  {
  }

  /** Every APDU octet by octet; of a reason of several octets there is no encoding, and none for a
      segmented request. */
  function ApduOctets(a: Apdu.OutboundAPDU, code: byte): Option<seq<byte>>
    requires a.maxSegmentsAccepted < 8 && code < 6
  {
    var service := [a.invokeID, a.serviceChoice] + a.payload;
    var reason := if a.payload == [] then 0 else a.payload[0];
    match a.pduType
    case ConfirmedRequest =>
      if a.segmentedMessage || a.moreFollows then None
      else Some([if a.segmentedResponseAccepted then 0x02 else 0x00, a.maxSegmentsAccepted * 0x10 + code] + service)
    case UnconfirmedRequest => Some([0x10, a.serviceChoice] + a.payload)
    case SimpleACK => Some([0x20] + service)
    case ComplexACK =>
      if !a.segmentedMessage then Some([0x30] + service)
      else if a.sequenceNumber != 0 then
        Some([if a.moreFollows then 0x3C else 0x38, a.invokeID, a.sequenceNumber, a.actualWindowSize] + a.payload)
      else
        Some([if a.moreFollows then 0x3C else 0x38, a.invokeID, 0, a.actualWindowSize, a.serviceChoice] + a.payload)
    case SegmentACK =>
      Some([if a.negativeAck then (if a.server then 0x43 else 0x42) else if a.server then 0x41 else 0x40,
            a.invokeID, a.sequenceNumber, a.actualWindowSize])
    case ErrorPdu => Some([0x50] + service)
    case Reject => if |a.payload| > 1 then None else Some([0x60, a.invokeID, reason])
    case Abort => if |a.payload| > 1 then None else Some([if a.server then 0x71 else 0x70, a.invokeID, reason])
  }

  /** The size code of a request is that of the smallest standard size that is large enough. */
  predicate CodeFits(length: uint16, code: byte) {
    && code < 6 && length <= [50, 128, 206, 480, 1024, 1476][code]
    && (code > 0 ==> length > [50, 128, 206, 480, 1024, 1476][code - 1])
  }

  lemma ApdusAreEncoded(a: Apdu.OutboundAPDU, code: byte)
    requires a.maxSegmentsAccepted < 8 && code < 6
    requires a.pduType == Apdu.ConfirmedRequest ==> CodeFits(a.maxAPDULengthAccepted, code)
    ensures var raw := ApduOctets(a, code);
            if raw.Some? then Apdu.Encode(a) == Ok(raw.value) else Apdu.Encode(a).Err?
  {
    var p := a.payload;
    match a.pduType {
      case ConfirmedRequest =>
        assert Apdu.CodeForLength(a.maxAPDULengthAccepted) == Ok(code);
        var first := if a.segmentedResponseAccepted then 0x02 else 0x00;
        var second: byte := a.maxSegmentsAccepted * 0x10 + code;
        assert [first, second] + ([a.invokeID, a.serviceChoice] + p)
            == [first, second, a.invokeID, a.serviceChoice] + p;
      case SimpleACK => assert [0x20] + ([a.invokeID, a.serviceChoice] + p) == [0x20, a.invokeID, a.serviceChoice] + p;
      case ErrorPdu => assert [0x50] + ([a.invokeID, a.serviceChoice] + p) == [0x50, a.invokeID, a.serviceChoice] + p;
      case ComplexACK =>
        assert [0x30] + ([a.invokeID, a.serviceChoice] + p) == [0x30, a.invokeID, a.serviceChoice] + p;
        var first := if a.moreFollows then 0x3C else 0x38;
        var head := [first, a.invokeID, a.sequenceNumber, a.actualWindowSize];
        assert head + [] + p == head + p;
        assert head + [a.serviceChoice] + p
            == [first, a.invokeID, a.sequenceNumber, a.actualWindowSize, a.serviceChoice] + p;
      case _ =>
    }
  }

  /** Which APDUs have no encoding, and the error. */
  lemma EncodesExactly(a: Apdu.OutboundAPDU)
    ensures var request := a.pduType == Apdu.ConfirmedRequest;
            var segmented := request && (a.segmentedMessage || a.moreFollows);
            var refused := || a.maxSegmentsAccepted > 7 || segmented || (request && a.maxAPDULengthAccepted > 1476)
                           || (a.pduType in {Apdu.Reject, Apdu.Abort} && |a.payload| > 1);
            && (Apdu.Encode(a).Err? <==> refused)
            && (refused ==> Apdu.Encode(a).error == if a.maxSegmentsAccepted <= 7 && segmented
                                                    then Apdu.SegmentationNotSupported else Apdu.EncodeFailure)
  {
  }

  // --- NPDUs, section 6.2 ---

  function AddressOctets(net: uint16, address: seq<byte>): seq<byte>
    requires |address| <= 255
  {
    Big(net) + [|address|] + address
  }

  /** The control octet: priority, reply expected, source, destination, network-layer message. */
  function ControlOctet(c: Npdu.NPCI, networkMessage: bool): int {
    (c.priority as int) + (if c.expectingReply then 0x04 else 0) + (if c.source.Some? then 0x08 else 0)
    + (if c.destination.Some? then 0x20 else 0) + (if networkMessage then 0x80 else 0)
  }

  lemma AddressesFit(c: Npdu.NPCI)
    requires c.priority < 4 && Npdu.NewWithNPCI(c).Ok?
    ensures c.destination.Some? ==> |c.destination.value.dadr| <= 255
    ensures c.source.Some? ==> |c.source.value.sadr| <= 255
  {
  }

  function DestinationOctets(c: Npdu.NPCI): seq<byte>
    requires c.destination.Some? ==> |c.destination.value.dadr| <= 255
  {
    if c.destination.Some? then AddressOctets(c.destination.value.dnet, c.destination.value.dadr) else []
  }

  function SourceOctets(c: Npdu.NPCI): seq<byte>
    requires c.source.Some? ==> |c.source.value.sadr| <= 255
  {
    if c.source.Some? then AddressOctets(c.source.value.snet, c.source.value.sadr) else []
  }

  function HopOctets(c: Npdu.NPCI): seq<byte> {
    if c.destination.Some? then [c.destination.value.hopCount] else []
  }

  /** Version, control, destination, source, hop count, and what follows. */
  function UnitOctets(c: Npdu.NPCI, control: byte, rest: seq<byte>): seq<byte>
    requires c.destination.Some? ==> |c.destination.value.dadr| <= 255
    requires c.source.Some? ==> |c.source.value.sadr| <= 255
  {
    [0x01, control] + (DestinationOctets(c) + (SourceOctets(c) + (HopOctets(c) + rest)))
  }

  lemma GroupIs(net: uint16, address: seq<byte>)
    requires |address| <= 255
    ensures Npdu.AddressBytes(net, |address|, Some(address)) == AddressOctets(net, address)
    ensures address == [] ==> Npdu.AddressBytes(net, 0, None) == AddressOctets(net, address)
  {
  }

  /** The addresses and the hop count of a valid unit are those of its view. */
  lemma ViewIsLaidOut(n: Npdu.PDU, c: Npdu.NPCI)
    requires Npdu.Valid(n) && Npdu.NPCIOf(n) == c
    ensures c.destination.Some? ==> |c.destination.value.dadr| <= 255
    ensures c.source.Some? ==> |c.source.value.sadr| <= 255
    ensures Npdu.DestinationBytes(n) == DestinationOctets(c) && Npdu.SourceBytes(n) == SourceOctets(c)
    ensures Npdu.HopBytes(n) == HopOctets(c)
  {
    hide Has, Npdu.PriorityOf, Npdu.MessageValid, AddressOctets, Npdu.AddressBytes;
    if c.destination.Some? {
      GroupIs(c.destination.value.dnet, c.destination.value.dadr);
    }
    if c.source.Some? {
      GroupIs(c.source.value.snet, c.source.value.sadr);
    }
  }

  /** A valid unit whose control octet and message head are known. */
  lemma LaidOut(n: Npdu.PDU, c: Npdu.NPCI, control: byte, head: seq<byte>, payload: seq<byte>)
    requires Npdu.Valid(n) && Npdu.NPCIOf(n) == c && n.flags == control && n.apdu == payload
    requires Npdu.MessageBytes(n) == head
    requires c.destination.Some? ==> |c.destination.value.dadr| <= 255
    requires c.source.Some? ==> |c.source.value.sadr| <= 255
    ensures Npdu.Encode(n) == Ok(UnitOctets(c, control, head + payload))
  {
    ViewIsLaidOut(n, c);
    assert n.protocolVersion == 0x01;
    hide Npdu.NPCIOf, Npdu.DestinationBytes, Npdu.SourceBytes, Npdu.HopBytes, Npdu.MessageBytes, AddressOctets,
         Npdu.Valid;
  }

  lemma ControlIs(c: Npdu.NPCI, payload: seq<byte>, h: Nlm.Header)
    requires c.priority < 4
    ensures ControlOctet(c, false) < 256 && ControlOctet(c, true) < 256
    ensures var n := Npdu.NewApplication(c, payload); n.Ok? ==> n.value.flags == ControlOctet(c, false)
    ensures var n := Npdu.NewNetworkLayer(c, h, payload); n.Ok? ==> n.value.flags == ControlOctet(c, true)
  {
    hide Nlm.Normalized, Nlm.StructureValid;
  }

  /** Every unit a constructor builds, octet by octet. */
  lemma ApplicationUnitIs(c: Npdu.NPCI, payload: seq<byte>)
    requires Npdu.NewApplication(c, payload).Ok?
    ensures c.priority < 4 && ControlOctet(c, false) < 256
    ensures c.destination.Some? ==> |c.destination.value.dadr| <= 255
    ensures c.source.Some? ==> |c.source.value.sadr| <= 255
    ensures Npdu.Encode(Npdu.NewApplication(c, payload).value) == Ok(UnitOctets(c, ControlOctet(c, false), payload))
  {
    AddressesFit(c);
    var h := Nlm.Header(0, None);
    Npdu.ConstructedIsValid(c, h, payload);
    ControlIs(c, payload, h);
    var n := Npdu.NewApplication(c, payload).value;
    assert Npdu.MessageBytes(n) == [];
    hide Npdu.NewApplication, Npdu.Valid, Npdu.NPCIOf, Npdu.MessageBytes, UnitOctets, ControlOctet, Npdu.Encode;
    LaidOut(n, c, ControlOctet(c, false), [], payload);
    assert [] + payload == payload;
  }

  /** A network-layer message as a unit of its own: the same with its type, and its vendor if it has one,
      in front of the payload. */
  lemma MessageUnitIs(c: Npdu.NPCI, h: Nlm.Header, payload: seq<byte>)
    requires Npdu.NewNetworkLayer(c, h, payload).Ok?
    ensures c.priority < 4 && ControlOctet(c, true) < 256
    ensures c.destination.Some? ==> |c.destination.value.dadr| <= 255
    ensures c.source.Some? ==> |c.source.value.sadr| <= 255
    ensures var head := if h.vendorID.Some? then [h.messageType] + Big(h.vendorID.value) else [h.messageType];
            Npdu.Encode(Npdu.NewNetworkLayer(c, h, payload).value)
            == Ok(UnitOctets(c, ControlOctet(c, true), head + payload))
  {
    AddressesFit(c);
    Npdu.ConstructedIsValid(c, h, payload);
    ControlIs(c, payload, h);
    var n := Npdu.NewNetworkLayer(c, h, payload).value;
    var head := if h.vendorID.Some? then [h.messageType] + Big(h.vendorID.value) else [h.messageType];
    HeadIs(n, h);
    hide Npdu.NewNetworkLayer, Npdu.Valid, Npdu.NPCIOf, Npdu.MessageBytes, UnitOctets, ControlOctet, Npdu.Encode;
    LaidOut(n, c, ControlOctet(c, true), head, payload);
  }

  lemma HeadIs(n: Npdu.PDU, h: Nlm.Header)
    requires Npdu.Valid(n) && Npdu.IsNetworkMessage(n.flags) && Npdu.HeaderOf(n) == h
    ensures Npdu.MessageBytes(n)
            == if h.vendorID.Some? then [h.messageType] + Big(h.vendorID.value) else [h.messageType]
  {
    hide Has, Nlm.DecodeModel;
  }

  // --- network-layer messages, section 6.4 ---

  function NetworkOctets(networks: seq<uint16>): seq<byte> {
    if networks == [] then [] else Big(networks[0]) + NetworkOctets(networks[1..])
  }

  function PortOctets(ports: seq<Nlm.PortEntry>): seq<byte>
    requires forall i :: 0 <= i < |ports| ==> |ports[i].portInfo| <= 255
  {
    if ports == [] then []
    else
      var info := ports[0].portInfo;
      Big(ports[0].connectedDNET) + [ports[0].portID, |info|] + info + PortOctets(ports[1..])
  }

  /** The type octet, and two more for the vendor of a proprietary message. */
  function TypeOctets(m: Nlm.Message): seq<byte> {
    match m
    case WhoIsRouter(_) => [0x00]
    case IAmRouter(_) => [0x01]
    case ICouldBeRouter(_, _) => [0x02]
    case RejectMessage(_, _) => [0x03]
    case RouterBusy(_) => [0x04]
    case RouterAvailable(_) => [0x05]
    case InitializeTable(_) => [0x06]
    case InitializeTableAck(_) => [0x07]
    case EstablishConnection(_, _) => [0x08]
    case DisconnectConnection(_) => [0x09]
    case WhatIsNetworkNumber => [0x12]
    case NetworkNumberIs(_, _) => [0x13]
    case Proprietary(t, vendor, _) => [t] + Big(vendor)
  }

  function ContentOctets(m: Nlm.Message): seq<byte>
    requires Nlm.Valid(m)
  {
    match m
    case WhoIsRouter(n) => if n.None? then [] else Big(n.value)
    case IAmRouter(ns) => NetworkOctets(ns)
    case ICouldBeRouter(n, index) => Big(n) + [index]
    case RejectMessage(n, reason) => Big(n) + [reason]
    case RouterBusy(ns) => NetworkOctets(ns)
    case RouterAvailable(ns) => NetworkOctets(ns)
    case InitializeTable(ps) => [|ps|] + PortOctets(ps)
    case InitializeTableAck(ps) => [|ps|] + PortOctets(ps)
    case EstablishConnection(n, time) => Big(n) + [time]
    case DisconnectConnection(n) => Big(n)
    case WhatIsNetworkNumber => []
    case NetworkNumberIs(n, configured) => Big(n) + [if configured then 1 else 0]
    case Proprietary(_, _, p) => p
  }

  lemma {:induction false} NetworksAre(ns: seq<uint16>)
    ensures Nlm.NetworkBytes(ns) == NetworkOctets(ns)
    decreases |ns|
  {
    if ns != [] {
      NetworksAre(ns[1..]);
    }
  }

  lemma {:induction false} PortsAre(ps: seq<Nlm.PortEntry>)
    requires forall i :: 0 <= i < |ps| ==> |ps[i].portInfo| <= 255
    ensures Nlm.EntriesBytes(ps) == PortOctets(ps)
    decreases |ps|
  {
    if ps != [] {
      PortsAre(ps[1..]);
      assert Nlm.EntryBytes(ps[0]) == Big(ps[0].connectedDNET) + [ps[0].portID, |ps[0].portInfo|] + ps[0].portInfo;
    }
  }

  lemma TypesAre(m: Nlm.Message)
    requires Nlm.Valid(m)
    ensures var h := Nlm.HeaderOf(m);
            [h.messageType] + (if h.vendorID.Some? then Put16(h.vendorID.value) else []) == TypeOctets(m)
  {
  }

  lemma ListIs(ns: seq<uint16>)
    requires Nlm.RoutableList(ns)
    ensures Nlm.NetworkListBytes(ns) == NetworkOctets(ns)
  {
    NetworksAre(ns);
  }

  lemma TableIs(ps: seq<Nlm.PortEntry>)
    requires 1 <= |ps| <= 255 && Nlm.EntriesValid(ps)
    ensures forall i :: 0 <= i < |ps| ==> |ps[i].portInfo| <= 255
    ensures Nlm.PortListBytes(ps) == [|ps|] + PortOctets(ps)
  {
    hide PortOctets, Nlm.EntriesBytes;
    PortsAreShort(ps);
    PortsAre(ps);
  }

  lemma PortsAreShort(ps: seq<Nlm.PortEntry>)
    requires Nlm.EntriesValid(ps)
    ensures forall i :: 0 <= i < |ps| ==> |ps[i].portInfo| <= 255
  {
    forall i | 0 <= i < |ps|
      ensures |ps[i].portInfo| <= 255
    {
      assert Nlm.EntryValid(ps[i]);
    }
  }

  lemma ContentsAre(m: Nlm.Message)
    requires Nlm.Valid(m)
    ensures Nlm.PayloadBytes(m) == ContentOctets(m)
  {
    hide Nlm.RoutableList, Nlm.EntriesValid, Nlm.NetworkListBytes, Nlm.PortListBytes, NetworkOctets, PortOctets;
    match m {
      case IAmRouter(ns) => ListIs(ns);
      case RouterBusy(ns) => ListIs(ns);
      case RouterAvailable(ns) => ListIs(ns);
      case InitializeTable(ps) => TableIs(ps);
      case InitializeTableAck(ps) => TableIs(ps);
      case _ =>
    }
  }

  /** Every valid message on the wire, octet by octet. */
  lemma MessagesAreEncoded(m: Nlm.Message)
    requires Nlm.Valid(m)
    ensures Nlm.EncodeWire(m) == Ok(TypeOctets(m) + ContentOctets(m))
  {
    TypesAre(m);
    ContentsAre(m);
    hide Nlm.HeaderOf, Nlm.PayloadBytes, TypeOctets, ContentOctets, Nlm.Valid;
  }

  // --- which octets are a network-layer message, and which a unit ---

  /** The network number at the front can be routed to. */
  predicate Routes(p: seq<byte>)
    requires |p| >= 2
  {
    1 <= 0x100 * (p[0] as int) + p[1] <= 0xFFFE
  }

  /** Why these octets are not a list of network numbers. */
  function NetworksRefusal(p: seq<byte>): Option<Nlm.NlmError> {
    if p == [] || |p| % 2 == 1 then Some(Nlm.InvalidLength)
    else if AllRoute(p) then None
    else Some(Nlm.InvalidNetworkNumber)
  }

  predicate AllRoute(p: seq<byte>)
    requires |p| % 2 == 0
  {
    p == [] || (Routes(p) && AllRoute(p[2..]))
  }

  /** Why these octets are not that many entries of a routing table, with nothing behind them. */
  function PortsRefusal(p: seq<byte>, n: nat): Option<Nlm.NlmError>
    decreases n
  {
    if n == 0 then (if p == [] then None else Some(Nlm.InvalidLength))
    else if |p| < 4 then Some(Nlm.InvalidLength)
    else if !Routes(p) then Some(Nlm.InvalidNetworkNumber)
    else if |p| < 4 + p[3] as int then Some(Nlm.InvalidLength)
    else PortsRefusal(p[4 + p[3] as int..], n - 1)
  }

  /** Why these octets are not of the given length, beginning with a network that can be routed to. */
  function NetworkRefusal(p: seq<byte>, length: nat): Option<Nlm.NlmError>
    requires length >= 2
  {
    if |p| != length then Some(Nlm.InvalidLength) else if !Routes(p) then Some(Nlm.InvalidNetworkNumber) else None
  }

  /** Why these octets may not follow a message type. */
  function MessageRefusal(t: byte, p: seq<byte>): Option<Nlm.NlmError> {
    match t
    case 0x00 => if p == [] then None else NetworkRefusal(p, 2)
    case 0x01 => NetworksRefusal(p)
    case 0x02 => NetworkRefusal(p, 3)
    case 0x03 =>
      if NetworkRefusal(p, 3).None? && p[2] > 4 then Some(Nlm.InvalidMessage) else NetworkRefusal(p, 3)
    case 0x04 => NetworksRefusal(p)
    case 0x05 => NetworksRefusal(p)
    case 0x06 => if p == [] || p == [0] then Some(Nlm.InvalidLength) else PortsRefusal(p[1..], p[0])
    case 0x07 => if p == [] || p == [0] then Some(Nlm.InvalidLength) else PortsRefusal(p[1..], p[0])
    case 0x08 => NetworkRefusal(p, 3)
    case 0x09 => NetworkRefusal(p, 2)
    case 0x12 => if p == [] then None else Some(Nlm.InvalidLength)
    case 0x13 => if |p| == 3 && p[2] > 1 then Some(Nlm.InvalidMessage) else NetworkRefusal(p, 3)
    case _ => if t >= 0x80 then None else Some(Nlm.InvalidMessage)
  }

  lemma RoutesExactly(p: seq<byte>)
    requires |p| >= 2
    ensures Routes(p) <==> Nlm.Routable(Get16(p))
    ensures (p[0] != 0 || p[1] != 0 <==> Get16(p) != 0) && (p[0] == 0xFF && p[1] == 0xFF <==> Get16(p) == 0xFFFF)
  {
  }

  predicate AllRoutable(ns: seq<uint16>) {
    forall i :: 0 <= i < |ns| ==> Nlm.Routable(ns[i])
  }

  lemma OneMoreRoutable(n: uint16, ns: seq<uint16>)
    ensures AllRoutable([n] + ns) <==> Nlm.Routable(n) && AllRoutable(ns)
  {
    var all := [n] + ns;
    assert all[0] == n;
    assert forall i :: 0 <= i < |ns| ==> ns[i] == all[i + 1];
    hide Nlm.Routable;
  }

  lemma {:induction false} NetworksExactly(p: seq<byte>)
    requires |p| % 2 == 0
    ensures AllRoute(p) <==> AllRoutable(Nlm.Numbers(p))
    decreases |p|
  {
    if p != [] {
      NetworksExactly(p[2..]);
      RoutesExactly(p);
      OneMoreRoutable(Get16(p), Nlm.Numbers(p[2..]));
    }
    hide AllRoutable, Get16, Routes;
  }

  /** What parsing that many entries and then looking behind them comes to. */
  function PortsOutcome(p: seq<byte>, n: nat): Option<Nlm.NlmError> {
    var r := Nlm.EntriesOf(p, n);
    if r.Err? then Some(r.error) else if r.value.rest != [] then Some(Nlm.InvalidLength) else None
  }

  lemma {:induction false} PortsExactly(p: seq<byte>, n: nat)
    ensures PortsOutcome(p, n) == PortsRefusal(p, n)
    ensures Nlm.EntriesOf(p, n).Ok? ==> |Nlm.EntriesOf(p, n).value.ports| == n
    decreases n
  {
    if n > 0 && |p| >= 4 {
      RoutesExactly(p);
      if |p| >= 4 + p[3] as int {
        PortsExactly(p[4 + p[3] as int..], n - 1);
      }
    }
    hide Get16, Routes, Nlm.Routable;
  }

  /** The error a reading came to, if any. */
  function Refusal<T, E>(r: Result<T, E>): Option<E> {
    if r.Ok? then None else Some(r.error)
  }

  lemma NetworkListExactly(p: seq<byte>)
    ensures Refusal(Nlm.NetworkListOf(p)) == NetworksRefusal(p)
    ensures Nlm.NetworkListOf(p).Ok? ==> Nlm.RoutableList(Nlm.NetworkListOf(p).value)
  {
    if |p| % 2 == 0 {
      NetworksExactly(p);
    }
    hide AllRoute;
  }

  lemma TableExactly(p: seq<byte>)
    ensures Refusal(Nlm.TableOf(p))
            == if p == [] || p == [0] then Some(Nlm.InvalidLength) else PortsRefusal(p[1..], p[0])
    ensures Nlm.TableOf(p).Ok? ==> Nlm.EntriesValid(Nlm.TableOf(p).value)
  {
    if p != [] {
      PortsExactly(p[1..], p[0]);
      if Nlm.TableOf(p).Ok? {
        Nlm.TableNormal(p);
      }
      if p[0] == 0 {
        assert p == [0] + p[1..];
      }
    }
    hide Nlm.EntriesOf;
  }

  /** What may follow the message types without a list. */
  lemma PlainMessagesExactly(h: Nlm.Header, p: seq<byte>)
    requires h.messageType !in {0x01, 0x04, 0x05, 0x06, 0x07} && (h.messageType >= 0x80 <==> h.vendorID.Some?)
    ensures Refusal(Nlm.DecodeModel(h, p)) == MessageRefusal(h.messageType, p)
  {
    if |p| >= 2 {
      RoutesExactly(p);
    }
    hide NetworksRefusal, PortsRefusal, Nlm.NetworkListOf, Nlm.TableOf, Routes, Get16, Nlm.Routable;
  }

  /** A message is accepted exactly when a vendor stands with a proprietary type and with no other, and its
      payload is one the type may have; otherwise this is the error. */
  lemma MessagesExactly(h: Nlm.Header, p: seq<byte>)
    ensures Refusal(Nlm.DecodeModel(h, p))
            == if h.messageType >= 0x80 <==> h.vendorID.Some? then MessageRefusal(h.messageType, p)
               else Some(Nlm.InvalidMessage)
  {
    if !(h.messageType >= 0x80 <==> h.vendorID.Some?) {
    } else if h.messageType in {0x01, 0x04, 0x05, 0x06, 0x07} {
      NetworkListExactly(p);
      TableExactly(p);
      hide NetworksRefusal, PortsRefusal, Nlm.NetworkListOf, Nlm.TableOf, Nlm.RoutableList, Nlm.EntriesValid;
    } else {
      PlainMessagesExactly(h, p);
      hide MessageRefusal, Nlm.DecodeModel;
    }
  }

  /** The message type, a vendor behind a proprietary one, and a payload the type may have. */
  function BodyRefusal(networkMessage: bool, p: seq<byte>): Option<Npdu.NpduError> {
    if !networkMessage then None
    else if p == [] || (p[0] >= 0x80 && |p| < 3) then Some(Npdu.DecodeFailure)
    else if p[0] < 0x80 && MessageRefusal(p[0], p[1..]).Some? then Some(Npdu.DecodeFailure)
    else None
  }

  function HopAndBody(destination: bool, networkMessage: bool, p: seq<byte>): Option<Npdu.NpduError> {
    if !destination then BodyRefusal(networkMessage, p)
    else if p == [] then Some(Npdu.DecodeFailure)
    else BodyRefusal(networkMessage, p[1..])
  }

  /** A source has a network that can be routed to, and an address. */
  function SourceAndMore(source: bool, destination: bool, networkMessage: bool, p: seq<byte>): Option<Npdu.NpduError> {
    if !source then HopAndBody(destination, networkMessage, p)
    else if |p| < 3 then Some(Npdu.DecodeFailure)
    else if !Routes(p) then Some(Npdu.InvalidNetworkNumber)
    else if p[2] == 0 then Some(Npdu.InvalidLength)
    else if |p| < 3 + p[2] as int then Some(Npdu.DecodeFailure)
    else HopAndBody(destination, networkMessage, p[3 + p[2] as int..])
  }

  /** A destination has a network other than zero, and no address on the broadcast network. */
  function DestinationAndMore(source: bool, destination: bool, networkMessage: bool,
                              p: seq<byte>): Option<Npdu.NpduError>
  {
    if !destination then SourceAndMore(source, false, networkMessage, p)
    else if |p| < 3 then Some(Npdu.DecodeFailure)
    else if (p[0] == 0 && p[1] == 0) || (p[0] == 0xFF && p[1] == 0xFF && p[2] != 0) then Some(Npdu.InvalidNetworkNumber)
    else if |p| < 3 + p[2] as int then Some(Npdu.DecodeFailure)
    else SourceAndMore(source, true, networkMessage, p[3 + p[2] as int..])
  }

  /** Version 1, a control octet without its two reserved bits, and what the other bits announce. */
  function UnitRefusal(raw: seq<byte>): Option<Npdu.NpduError> {
    if |raw| < 2 then Some(Npdu.InvalidLength)
    else if raw[0] != 1 then Some(Npdu.InvalidProtocolVersion)
    else if raw[1] / 0x10 % 2 == 1 || raw[1] / 0x40 % 2 == 1 then Some(Npdu.ReservedBitSet)
    else DestinationAndMore(raw[1] / 8 % 2 == 1, raw[1] / 0x20 % 2 == 1, raw[1] / 0x80 % 2 == 1, raw[2..])
  }

  lemma BodyExactly(flags: byte, p: seq<byte>)
    ensures Refusal(Npdu.MaybeHeader(flags, p)) == BodyRefusal(Npdu.IsNetworkMessage(flags), p)
  {
    var h := Npdu.ParseHeader(p);
    if h.Ok? {
      MessagesExactly(h.value.value, h.value.rest);
    }
    hide Has, Nlm.DecodeModel, Get16;
  }

  /** The rest of a unit as the decoder reads it, from the hop count on. */
  function HopOutcome(flags: byte, p: seq<byte>): Option<Npdu.NpduError> {
    var hop := Npdu.MaybeHopCount(flags, p);
    if hop.Err? then Some(hop.error) else Refusal(Npdu.MaybeHeader(flags, hop.value.rest))
  }

  lemma HopExactly(flags: byte, p: seq<byte>)
    ensures HopOutcome(flags, p) == HopAndBody(Npdu.HasDestination(flags), Npdu.IsNetworkMessage(flags), p)
  {
    hide Has, BodyRefusal, Npdu.MaybeHeader;
    BodyExactly(flags, p);
    if p != [] {
      BodyExactly(flags, p[1..]);
    }
  }

  /** The same from the source on. */
  function SourceOutcome(flags: byte, p: seq<byte>): Option<Npdu.NpduError> {
    var s := Npdu.MaybeSource(flags, p);
    if s.Err? then Some(s.error) else HopOutcome(flags, s.value.rest)
  }

  lemma SourceExactly(flags: byte, p: seq<byte>)
    ensures SourceOutcome(flags, p)
            == SourceAndMore(Npdu.HasSource(flags), Npdu.HasDestination(flags), Npdu.IsNetworkMessage(flags), p)
  {
    hide Has, HopAndBody, HopOutcome, Routes, Get16, Nlm.Routable;
    HopExactly(flags, p);
    if |p| >= 3 {
      RoutesExactly(p);
      if |p| >= 3 + p[2] as int {
        HopExactly(flags, p[3 + p[2] as int..]);
      }
    }
  }

  lemma FieldsAre(flags: byte, p: seq<byte>)
    ensures var d := Npdu.MaybeDestination(flags, p);
            Refusal(Npdu.DecodeFields(flags, p)) == if d.Err? then Some(d.error) else SourceOutcome(flags, d.value.rest)
  {
    hide Has, Npdu.MaybeHeader, Npdu.MaybeHopCount, Npdu.MaybeSource, Npdu.MaybeDestination;
  }

  lemma DestinationExactly(flags: byte, p: seq<byte>)
    ensures Refusal(Npdu.DecodeFields(flags, p))
            == DestinationAndMore(Npdu.HasSource(flags), Npdu.HasDestination(flags), Npdu.IsNetworkMessage(flags), p)
  {
    hide Has, SourceAndMore, SourceOutcome, Get16, Npdu.DecodeFields;
    FieldsAre(flags, p);
    SourceExactly(flags, p);
    if |p| >= 3 {
      RoutesExactly(p);
      if |p| >= 3 + p[2] as int {
        SourceExactly(flags, p[3 + p[2] as int..]);
      }
    }
  }

  /** Which octets are a unit, and the error for every other. */
  lemma UnitsExactly(raw: seq<byte>)
    ensures Refusal(Npdu.Decode(raw)) == UnitRefusal(raw)
  {
    if |raw| >= 2 {
      DestinationExactly(raw[1], raw[2..]);
    }
    hide DestinationAndMore, Npdu.DecodeFields;
  }

  // --- tags, section 20.2.1 ---

  /** The length of a value where it does not fit the tag octet itself. */
  function LongLength(length: nat): seq<byte>
    requires length < 0x1_0000_0000
  {
    if length < 254 then [length]
    else if length < 0x1_0000 then [254, length / 0x100, length % 0x100]
    else [255, length / 0x100_0000, length / 0x1_0000 % 0x100, length / 0x100 % 0x100, length % 0x100]
  }

  lemma LongLengthIs(length: nat)
    requires length < 0x1_0000_0000
    ensures Tags.LengthBytes(length) == LongLength(length)
  {
    if length >= 0x1_0000 {
      BigFour(length);
      assert [255] + Put32(length)
          == [255, length / 0x100_0000, length / 0x1_0000 % 0x100, length / 0x100 % 0x100, length % 0x100];
    }
  }

  lemma BigFour(x: uint32)
    ensures Put32(x) == [x / 0x100_0000, x / 0x1_0000 % 0x100, x / 0x100 % 0x100, x % 0x100]
  {
    Halves(x);
    assert Put32(x) == Put16(x / 0x1_0000) + Put16(x % 0x1_0000);
    hide Put32;
  }

  lemma Halves(x: uint32)
    ensures x / 0x1_0000 / 0x100 == x / 0x100_0000
    ensures x % 0x1_0000 / 0x100 == x / 0x100 % 0x100 && x % 0x1_0000 % 0x100 == x % 0x100
  {
    var high, low := x / 0x1_0000, x % 0x1_0000;
    assert x == 0x1_0000 * high + low;
    assert x / 0x100 == 0x100 * high + low / 0x100;
  }

  /** Opening and closing tags, context primitives and application primitives, octet by octet. */
  lemma TagsAre(number: byte, value: seq<byte>)
    requires |value| < 0x1_0000_0000
    ensures Tags.OpeningTag(number) == if number < 15 then [0x10 * number + 0x0E] else [0xFE, number]
    ensures Tags.ClosingTag(number) == if number < 15 then [0x10 * number + 0x0F] else [0xFF, number]
    ensures number < 15 && |value| < 5 ==>
              && Tags.ContextPrimitive(number, value) == [0x10 * number + 0x08 + |value|] + value
              && Tags.ApplicationPrimitive(number, value) == [0x10 * number + |value|] + value
    ensures number < 15 && |value| >= 5 ==>
              Tags.ApplicationPrimitive(number, value) == [0x10 * number + 0x05] + LongLength(|value|) + value
    ensures number >= 15 || |value| >= 5 ==>
              Tags.ContextPrimitive(number, value) == [0xFD, number] + LongLength(|value|) + value
  {
    LongLengthIs(|value|);
    hide Tags.LengthBytes, LongLength;
  }

  // --- application values, section 20.2 ---

  /** An unsigned integer is the sum of its octets weighted by powers of 256, the high one first, and
      its encoding has no leading zero. */
  lemma UnsignedIs(v: uint32)
    ensures Primitives.EncodeUnsigned(v)
            == if v < 0x100 then [v]
               else if v < 0x1_0000 then [v / 0x100, v % 0x100]
               else if v < 0x100_0000 then [v / 0x1_0000, v / 0x100 % 0x100, v % 0x100]
               else [v / 0x100_0000, v / 0x1_0000 % 0x100, v / 0x100 % 0x100, v % 0x100]
  {
    DigitsAre(v);
    TopOctet(v);
    hide Primitives.Digits;
  }

  /** The highest octet needs no remainder. */
  lemma TopOctet(v: nat)
    ensures v < 0x100 ==> v % 0x100 == v
    ensures v < 0x1_0000 ==> v / 0x100 % 0x100 == v / 0x100
    ensures v < 0x100_0000 ==> v / 0x1_0000 % 0x100 == v / 0x1_0000
    ensures v < 0x1_0000_0000 ==> v / 0x100_0000 % 0x100 == v / 0x100_0000
  {
  }

  lemma DigitsAre(v: int)
    ensures Primitives.Digits(v, 1) == [v % 0x100]
    ensures Primitives.Digits(v, 2) == [v / 0x100 % 0x100, v % 0x100]
    ensures Primitives.Digits(v, 3) == [v / 0x1_0000 % 0x100, v / 0x100 % 0x100, v % 0x100]
    ensures Primitives.Digits(v, 4) == [v / 0x100_0000 % 0x100, v / 0x1_0000 % 0x100, v / 0x100 % 0x100, v % 0x100]
  {
    Nested(v);
    assert Primitives.Digits(v, 1) == Primitives.Digits(v / 0x100, 0) + [v % 0x100];
    DigitsStep(v, 2);
    DigitsStep(v, 3);
    DigitsStep(v, 4);
    DigitsStep(v / 0x100, 1);
    DigitsStep(v / 0x100, 2);
    DigitsStep(v / 0x100, 3);
    DigitsStep(v / 0x1_0000, 1);
    DigitsStep(v / 0x1_0000, 2);
    DigitsStep(v / 0x100_0000, 1);
    hide Primitives.Digits;
  }

  lemma DigitsStep(v: int, n: nat)
    requires n > 0
    ensures Primitives.Digits(v, n) == Primitives.Digits(v / 0x100, n - 1) + [v % 0x100]
    ensures Primitives.Digits(v, 0) == [] && Primitives.Digits(v / 0x100, 0) == []
  {
  }

  lemma Adding(x: int, k: int)
    ensures (x + 0x100 * k) / 0x100 == x / 0x100 + k && (x + 0x100 * k) % 0x100 == x % 0x100
  {
  }

  lemma Nested(x: int)
    ensures x / 0x100 / 0x100 == x / 0x1_0000 && x / 0x1_0000 / 0x100 == x / 0x100_0000
  {
  }

  /** Adding the next power of 256 leaves the octets below it as they are. */
  lemma Complement(v: int)
    ensures var w := v + 0x1_0000; w % 0x100 == v % 0x100 && w / 0x100 == v / 0x100 + 0x100
    ensures var w := v + 0x100_0000;
            w % 0x100 == v % 0x100 && w / 0x100 == v / 0x100 + 0x1_0000 && w / 0x1_0000 == v / 0x1_0000 + 0x100
    ensures var w := v + 0x1_0000_0000;
            && w % 0x100 == v % 0x100 && w / 0x100 == v / 0x100 + 0x100_0000 && w / 0x1_0000 == v / 0x1_0000 + 0x1_0000
            && w / 0x100_0000 == v / 0x100_0000 + 0x100
  {
    Adding(v, 0x100);
    Adding(v, 0x1_0000);
    Adding(v, 0x100_0000);
    Adding(v / 0x100, 0x100);
    Adding(v / 0x100, 0x1_0000);
    Adding(v / 0x1_0000, 0x100);
    Nested(v);
    Nested(v + 0x100_0000);
    Nested(v + 0x1_0000_0000);
  }

  lemma Wraps(x: int, k: nat)
    requires k in {0, 0x100, 0x1_0000, 0x100_0000}
    ensures (x + k) % 0x100 == x % 0x100
    ensures 0 <= x < 0x100 ==> x % 0x100 == x
    ensures -0x100 <= x < 0 ==> x % 0x100 == x + 0x100
  {
  }

  /** The n octets of a signed integer: those of the number itself, or of the number and the next power of
      256 when it is negative. */
  lemma SignedDigits(v: int)
    ensures -0x80 <= v < 0x80 ==> Primitives.Digits(v, 1) == [if v < 0 then v + 0x100 else v]
    ensures -0x8000 <= v < 0x8000 ==>
              var w := if v < 0 then v + 0x1_0000 else v; Primitives.Digits(v, 2) == [w / 0x100, w % 0x100]
    ensures -0x80_0000 <= v < 0x80_0000 ==>
              var w := if v < 0 then v + 0x100_0000 else v;
              Primitives.Digits(v, 3) == [w / 0x1_0000, w / 0x100 % 0x100, w % 0x100]
    ensures -0x8000_0000 <= v < 0x8000_0000 ==>
              var w := if v < 0 then v + 0x1_0000_0000 else v;
              Primitives.Digits(v, 4) == [w / 0x100_0000, w / 0x1_0000 % 0x100, w / 0x100 % 0x100, w % 0x100]
  {
    DigitsAre(v);
    Complement(v);
    Wraps(v, 0);
    Wraps(v / 0x100, 0x100);
    Wraps(v / 0x100, 0x1_0000);
    Wraps(v / 0x100, 0x100_0000);
    Wraps(v / 0x1_0000, 0x100);
    Wraps(v / 0x1_0000, 0x1_0000);
    Wraps(v / 0x100_0000, 0x100);
    hide Primitives.Digits;
  }

  /** A signed integer in two's complement, in as few octets as hold it with its sign. */
  lemma SignedIs(v: Primitives.int32)
    ensures var e := Primitives.EncodeSigned(v);
            if -0x80 <= v < 0x80 then e == [if v < 0 then v + 0x100 else v]
            else if -0x8000 <= v < 0x8000 then
              var w: int := if v < 0 then v + 0x1_0000 else v; e == [w / 0x100, w % 0x100]
            else if -0x80_0000 <= v < 0x80_0000 then
              var w: int := if v < 0 then v + 0x100_0000 else v; e == [w / 0x1_0000, w / 0x100 % 0x100, w % 0x100]
            else
              var w: int := if v < 0 then v + 0x1_0000_0000 else v;
              e == [w / 0x100_0000, w / 0x1_0000 % 0x100, w / 0x100 % 0x100, w % 0x100]
  {
    SignedDigits(v);
    hide Primitives.Digits;
  }

  /** Four octets, the high one first. */
  function Four(x: uint32): seq<byte> {
    [x / 0x100_0000, x / 0x1_0000 % 0x100, x / 0x100 % 0x100, x % 0x100]
  }

  /** The value octets of each type, in the order the standard gives them. Strings are written in
      character set 0; years count from 1900, and 255 stands for an unspecified one. */
  function ValueOctets(lib: Values.TextLibrary, v: Values.AppValue): Option<seq<byte>> {
    match v
    case Null => Some([])
    case Boolean(_) => Some([])
    case Unsigned(u) => Some(Primitives.EncodeUnsigned(u))
    case Signed(i) => Some(Primitives.EncodeSigned(i))
    case Real(bits) => Some(Four(bits))
    case Double(high, low) => Some(Four(high) + Four(low))
    case OctetString(octets) => Some(octets)
    case CharacterString(text) => if lib.valid(text) then Some([0] + text) else None
    case BitString(flags) => Some(Primitives.BitStringBytes(flags))
    case Enumerated(code) => Some(Primitives.EncodeUnsigned(code))
    case Date(year, month, day, weekday) =>
      if year == 255 then Some([255, month, day, weekday])
      else if 1900 <= year <= 2154 then Some([year - 1900, month, day, weekday])
      else None
    case Time(hour, minute, second, hundredths) => Some([hour, minute, second, hundredths])
    case ObjectIdentifier(id) => Some(Four(id))
  }

  lemma ContentIs(lib: Values.TextLibrary, v: Values.AppValue)
    ensures Values.ContentOf(lib, v) == ValueOctets(lib, v)
  {
    match v {
      case Real(bits) => BigFour(bits);
      case Double(high, low) => BigFour(high); BigFour(low);
      case ObjectIdentifier(id) => BigFour(id);
      case _ =>
    }
  }

  /** The tag octet, the length where it does not fit there, and the value: a boolean is all tag octet. */
  lemma ValuesAreEncoded(lib: Values.TextLibrary, v: Values.AppValue)
    requires var c := ValueOctets(lib, v); c.Some? && |c.value| < 0x1_0000_0000
    ensures Values.Encodable(lib, v)
    ensures var c := ValueOctets(lib, v).value;
            var tag: int := match v
              case Null => 0x00
              case Boolean(on) => if on then 0x11 else 0x10
              case Unsigned(_) => 0x20
              case Signed(_) => 0x30
              case Real(_) => 0x40
              case Double(_, _) => 0x50
              case OctetString(_) => 0x60
              case CharacterString(_) => 0x70
              case BitString(_) => 0x80
              case Enumerated(_) => 0x90
              case Date(_, _, _, _) => 0xA0
              case Time(_, _, _, _) => 0xB0
              case ObjectIdentifier(_) => 0xC0;
            Values.Encode(lib, v) == if |c| < 5 then [tag + |c|] + c else [tag + 5] + LongLength(|c|) + c
  {
    ContentIs(lib, v);
    var c := ValueOctets(lib, v).value;
    hide ValueOctets, Values.ContentOf, LongLength, Tags.ApplicationPrimitive;
    BooleanIsEmpty(lib, v);
    TagsAre(Values.TagOf(v), c);
  }

  lemma BooleanIsEmpty(lib: Values.TextLibrary, v: Values.AppValue)
    ensures v.Boolean? ==> ValueOctets(lib, v) == Some([])
  {
  }

  /** One to four octets as an unsigned number, leading zeros or not. */
  lemma UnsignedIsRead(a: byte, b: byte, c: byte, d: byte)
    ensures Primitives.UnsignedOf([a]) == Some(a)
    ensures Primitives.UnsignedOf([a, b]) == Some(0x100 * (a as int) + b)
    ensures Primitives.UnsignedOf([a, b, c]) == Some(0x1_0000 * (a as int) + 0x100 * (b as int) + c)
    ensures Primitives.UnsignedOf([a, b, c, d])
            == Some(0x100_0000 * (a as int) + 0x1_0000 * (b as int) + 0x100 * (c as int) + d)
  {
    ShiftsIn(0, a, b, c, d);
    hide Primitives.ShiftIn;
  }

  lemma ShiftsIn(s: int, a: byte, b: byte, c: byte, d: byte)
    ensures Primitives.ShiftIn(s, [a]) == 0x100 * s + a
    ensures Primitives.ShiftIn(s, [a, b]) == 0x1_0000 * s + 0x100 * (a as int) + b
    ensures Primitives.ShiftIn(s, [a, b, c]) == 0x100_0000 * s + 0x1_0000 * (a as int) + 0x100 * (b as int) + c
    ensures Primitives.ShiftIn(s, [a, b, c, d])
            == 0x1_0000_0000 * s + 0x100_0000 * (a as int) + 0x1_0000 * (b as int) + 0x100 * (c as int) + d
  {
    assert [a][..0] == [] && Primitives.ShiftIn(s, []) == s;
    assert Primitives.ShiftIn(s, [a]) == 0x100 * s + a;
    assert [a, b][..1] == [a];
    assert Primitives.ShiftIn(s, [a, b]) == 0x100 * Primitives.ShiftIn(s, [a]) + b;
    assert [a, b, c][..2] == [a, b];
    assert Primitives.ShiftIn(s, [a, b, c]) == 0x100 * Primitives.ShiftIn(s, [a, b]) + c;
    assert [a, b, c, d][..3] == [a, b, c];
    assert Primitives.ShiftIn(s, [a, b, c, d]) == 0x100 * Primitives.ShiftIn(s, [a, b, c]) + d;
  }

  /** One to four octets as a signed number: with the top bit set it is the unsigned one less the next
      power of 256. */
  lemma SignedIsRead(a: byte, b: byte, c: byte, d: byte)
    ensures Primitives.SignedOf([a]) == Some((a as int) - (if a < 0x80 then 0 else 0x100))
    ensures Primitives.SignedOf([a, b]) == Some(0x100 * (a as int) + b - (if a < 0x80 then 0 else 0x1_0000))
    ensures Primitives.SignedOf([a, b, c])
            == Some(0x1_0000 * (a as int) + 0x100 * (b as int) + c - (if a < 0x80 then 0 else 0x100_0000))
    ensures Primitives.SignedOf([a, b, c, d])
            == Some(0x100_0000 * (a as int) + 0x1_0000 * (b as int) + 0x100 * (c as int) + d
                    - (if a < 0x80 then 0 else 0x1_0000_0000))
  {
    ShiftsIn(0, a, b, c, d);
    ShiftsIn(-1, a, b, c, d);
    hide Primitives.ShiftIn;
  }

  /** The weight of bit i in its octet, the first bit the heaviest. */
  function BitWeight(i: nat): (w: nat)
    ensures w > 0
  {
    [128, 64, 32, 16, 8, 4, 2, 1][i % 8]
  }

  lemma WeightIsMask(i: nat)
    ensures BitWeight(i) == Primitives.Mask(i % 8)
  {
  }

  /** Bits on the wire: how many of the last octet are unused, and bit i in octet i / 8 behind that. */
  lemma BitStringIs(bits: seq<bool>, i: nat)
    requires i < 8 * ((|bits| + 7) / 8)
    ensures var s := Primitives.BitStringBytes(bits);
            && |s| == 1 + (|bits| + 7) / 8 && s[0] == 8 * ((|bits| + 7) / 8) - |bits|
            && (s[1 + i / 8] / BitWeight(i) % 2 == 1 <==> i < |bits| && bits[i])
  {
    WeightIsMask(i);
    Primitives.OctetBit(bits, i);
    var s := Primitives.BitStringBytes(bits);
    assert s[1 + i / 8] == Primitives.PackFrom(bits, 0, (|bits| + 7) / 8)[i / 8];
    hide Primitives.Octet, BitWeight;
  }

  /** Which octets are a bit string, and which bits. */
  lemma BitStringIsRead(raw: seq<byte>)
    ensures Primitives.BitStringOf(raw).Some? <==> raw != [] && raw[0] < 8 && raw[0] <= 8 * (|raw| - 1)
    ensures var r := Primitives.BitStringOf(raw);
            r.Some? ==>
              && |r.value| == 8 * (|raw| - 1) - raw[0]
              && forall i :: 0 <= i < |r.value| ==> (r.value[i] <==> raw[1 + i / 8] / BitWeight(i) % 2 == 1)
  {
    var r := Primitives.BitStringOf(raw);
    if r.Some? {
      forall i | 0 <= i < |r.value|
        ensures r.value[i] <==> raw[1 + i / 8] / BitWeight(i) % 2 == 1
      {
        WeightIsMask(i);
        assert raw[1..][i / 8] == raw[1 + i / 8];
      }
    }
  }

  /** Which octets are a value of each type. */
  predicate IsContent(number: byte, raw: seq<byte>) {
    match number
    case 0 => true
    case 1 => true
    case 2 => 1 <= |raw| <= 4
    case 3 => 1 <= |raw| <= 4
    case 4 => |raw| == 4
    case 5 => |raw| == 8
    case 6 => true
    case 7 => raw != []
    case 8 => raw != [] && raw[0] < 8 && raw[0] <= 8 * (|raw| - 1)
    case 9 => 1 <= |raw| <= 4
    case 10 => |raw| == 4
    case 11 => |raw| == 4
    case 12 => |raw| == 4
    case _ => false
  }

  /** A value of a type is read from exactly those octets, and it has that type; a boolean is false only
      when the tag octet ends in zero. */
  lemma ContentsExactly(lib: Values.TextLibrary, number: byte, first: byte, raw: seq<byte>)
    ensures Values.ValueOf(lib, number, first, raw).Some? <==> IsContent(number, raw)
    ensures IsContent(number, raw) ==> Values.TagOf(Values.ValueOf(lib, number, first, raw).value) == number
    ensures Values.ValueOf(lib, 1, first, raw) == Some(Values.Boolean(first % 8 != 0))
  {
    BitStringIsRead(raw);
    hide Primitives.BitStringOf, Primitives.UnsignedOf, Primitives.SignedOf, Get32;
  }

  /** A list of values ends where a context tag begins, whatever is behind that. */
  lemma ValuesEndAtContext(lib: Values.TextLibrary, vs: seq<Values.AppValue>, rest: seq<byte>)
    requires Values.AllEncodable(lib, vs)
    requires rest == [] || (Tags.ParseTag(rest).Some? && Tags.ParseTag(rest).value.tag.contextSpecific)
    ensures Values.ValuesOf(lib, Values.EncodeAll(lib, vs) + rest) == vs
  {
    Values.ListRoundTrip(lib, vs, rest);
    assert Values.ValuesOf(lib, rest) == [];
    assert vs + [] == vs;
  }

  // --- what the APDU decoder accepts ---

  /** The shortest APDU of each type; segmented ones are longer, their first segment by one more octet. */
  function ShortestApdu(raw: seq<byte>): nat
    requires raw != []
  {
    var segmented := raw[0] / 8 % 2 == 1;
    match raw[0] / 0x10
    case 0 => if !segmented then 4 else if |raw| > 3 && raw[3] == 0 then 6 else 5
    case 1 => 2
    case 2 => 3
    case 3 => if !segmented then 3 else if |raw| > 2 && raw[2] == 0 then 5 else 4
    case 4 => 4
    case _ => 3
  }

  /** Which octets are an APDU: type 0 to 7, long enough, and a known size code in a request. */
  lemma ApdusExactly(raw: seq<byte>)
    ensures Apdu.Decode(raw).Ok?
            <==> raw != [] && raw[0] < 0x80 && |raw| >= ShortestApdu(raw) && (raw[0] < 0x10 ==> raw[1] % 0x10 < 6)
    ensures Apdu.Decode(raw).Err? ==>
              Apdu.Decode(raw).error == if raw != [] && raw[0] >= 0x80 then Apdu.InvalidPduType else Apdu.DecodeFailure
  {
  }

  /** Segment-ACKs, rejects and aborts have a fixed length; what is behind them is ignored. */
  lemma TrailingIsIgnored(raw: seq<byte>, rest: seq<byte>)
    requires raw != [] && raw[0] / 0x10 in {4, 6, 7} && |raw| == ShortestApdu(raw)
    ensures Apdu.Decode(raw + rest) == Apdu.Decode(raw)
  {
    var all := raw + rest;
    assert all[2..3] == raw[2..3];
    hide Has;
  }
}
