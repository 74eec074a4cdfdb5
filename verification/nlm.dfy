/** Network-layer messages (section 6.4 of ANSI/ASHRAE 135-2024): typed models, their payload
    bytes, and the wire form with message type and vendor identifier. */
module Nlm {
  import opened Wire

  const LOCAL_NETWORK: uint16 := 0
  const GLOBAL_BROADCAST: uint16 := 0xFFFF

  datatype NlmError = InvalidMessage | InvalidLength | InvalidNetworkNumber | EncodeFailure | DecodeFailure

  datatype Header = Header(messageType: byte, vendorID: Option<uint16>)

  datatype PortEntry = PortEntry(connectedDNET: uint16, portID: byte, portInfo: seq<byte>)

  datatype Message =
    | WhoIsRouter(anyDNET: Option<uint16>)
    | IAmRouter(networks: seq<uint16>)
    | RouterBusy(networks: seq<uint16>)
    | RouterAvailable(networks: seq<uint16>)
    | ICouldBeRouter(dnet: uint16, performanceIndex: byte)
    | RejectMessage(dnet: uint16, reason: byte)
    | InitializeTable(ports: seq<PortEntry>)
    | InitializeTableAck(ports: seq<PortEntry>)
    | EstablishConnection(dnet: uint16, terminationTime: byte)
    | DisconnectConnection(dnet: uint16)
    | WhatIsNetworkNumber
    | NetworkNumberIs(number: uint16, configured: bool)
    | Proprietary(messageType: byte, vendorID: uint16, payload: seq<byte>)

  predicate IsProprietary(messageType: byte) {
    messageType >= 0x80
  }

  predicate StructureValid(h: Header) {
    IsProprietary(h.messageType) <==> h.vendorID.Some?
  }

  function HeaderOf(m: Message): Header {
    match m
    case WhoIsRouter(_) => Header(0x00, None)
    case IAmRouter(_) => Header(0x01, None)
    case ICouldBeRouter(_, _) => Header(0x02, None)
    case RejectMessage(_, _) => Header(0x03, None)
    case RouterBusy(_) => Header(0x04, None)
    case RouterAvailable(_) => Header(0x05, None)
    case InitializeTable(_) => Header(0x06, None)
    case InitializeTableAck(_) => Header(0x07, None)
    case EstablishConnection(_, _) => Header(0x08, None)
    case DisconnectConnection(_) => Header(0x09, None)
    case WhatIsNetworkNumber => Header(0x12, None)
    case NetworkNumberIs(_, _) => Header(0x13, None)
    case Proprietary(t, v, _) => Header(t, Some(v))
  }

  // --- what constructors accept and what counts as valid ---

  /** A network number that can be routed to. */
  predicate Routable(n: uint16) {
    n != LOCAL_NETWORK && n != GLOBAL_BROADCAST
  }

  predicate RoutableList(networks: seq<uint16>) {
    networks != [] && forall i :: 0 <= i < |networks| ==> Routable(networks[i])
  }

  predicate EntryValid(e: PortEntry) {
    Routable(e.connectedDNET) && |e.portInfo| <= 255
  }

  predicate EntriesValid(ports: seq<PortEntry>) {
    forall i :: 0 <= i < |ports| ==> EntryValid(ports[i])
  }

  /** The constructors' checks. */
  predicate Constructible(m: Message) {
    match m
    case WhoIsRouter(n) => n.Some? ==> Routable(n.value)
    case IAmRouter(ns) => RoutableList(ns)
    case RouterBusy(ns) => RoutableList(ns)
    case RouterAvailable(ns) => RoutableList(ns)
    case ICouldBeRouter(n, _) => Routable(n)
    case RejectMessage(n, r) => Routable(n) && r <= 4
    case InitializeTable(ps) => EntriesValid(ps)
    case InitializeTableAck(ps) => EntriesValid(ps)
    case EstablishConnection(n, _) => Routable(n)
    case DisconnectConnection(n) => Routable(n)
    case WhatIsNetworkNumber => true
    case NetworkNumberIs(n, _) => Routable(n)
    case Proprietary(t, _, _) => IsProprietary(t)
  }

  function New(m: Message, refusal: NlmError): Result<Message, NlmError> {
    if Constructible(m) then Ok(m) else Err(refusal)
  }

  /** The models' own check: it lets the broadcast network pass in two of them, and wants
      between 1 and 255 ports. */
  predicate Valid(m: Message) {
    match m
    case RejectMessage(n, r) => n != LOCAL_NETWORK && r <= 4
    case NetworkNumberIs(n, _) => n != LOCAL_NETWORK
    case InitializeTable(ps) => 1 <= |ps| <= 255 && EntriesValid(ps)
    case InitializeTableAck(ps) => 1 <= |ps| <= 255 && EntriesValid(ps)
    case _ => Constructible(m)
  }

  // --- payloads ---

  function NetworkBytes(networks: seq<uint16>): (b: seq<byte>)
    ensures |b| == 2 * |networks|
  {
    if networks == [] then [] else Put16(networks[0]) + NetworkBytes(networks[1..])
  }

  /** A list that fails validation has no payload. */
  function NetworkListBytes(networks: seq<uint16>): seq<byte> {
    if RoutableList(networks) then NetworkBytes(networks) else []
  }

  function EntryBytes(e: PortEntry): seq<byte> {
    Put16(e.connectedDNET) + [e.portID, |e.portInfo| % 256] + e.portInfo
  }

  function EntriesBytes(ports: seq<PortEntry>): seq<byte> {
    if ports == [] then [] else EntryBytes(ports[0]) + EntriesBytes(ports[1..])
  }

  function PortListBytes(ports: seq<PortEntry>): seq<byte> {
    [|ports| % 256] + EntriesBytes(ports)
  }

  function PayloadBytes(m: Message): seq<byte> {
    match m
    case WhoIsRouter(n) => if n.None? then [] else Put16(n.value)
    case IAmRouter(ns) => NetworkListBytes(ns)
    case RouterBusy(ns) => NetworkListBytes(ns)
    case RouterAvailable(ns) => NetworkListBytes(ns)
    case ICouldBeRouter(n, x) => Put16(n) + [x]
    case RejectMessage(n, r) => Put16(n) + [r]
    case InitializeTable(ps) => PortListBytes(ps)
    case InitializeTableAck(ps) => PortListBytes(ps)
    case EstablishConnection(n, x) => Put16(n) + [x]
    case DisconnectConnection(n) => Put16(n)
    case WhatIsNetworkNumber => []
    case NetworkNumberIs(n, c) => Put16(n) + [Weight(c, 1)]
    case Proprietary(_, _, p) => p
  }

  /** The same bytes, appended entry by entry. */
  method EncodePortEntryList(ports: seq<PortEntry>) returns (out: seq<byte>)
    ensures out == PortListBytes(ports)
  {
    out := [|ports| % 256];
    for i := 0 to |ports|
      invariant out + EntriesBytes(ports[i..]) == PortListBytes(ports)
    {
      out := out + Put16(ports[i].connectedDNET) + [ports[i].portID, |ports[i].portInfo| % 256];
      out := out + ports[i].portInfo;
      assert EntriesBytes(ports[i..]) == EntryBytes(ports[i]) + EntriesBytes(ports[i + 1..]) by {
        assert ports[i..][1..] == ports[i + 1..];
      }
    }
  }

  // --- decoding ---

  /** The numbers a payload of even length holds. */
  function Numbers(payload: seq<byte>): (ns: seq<uint16>)
    requires |payload| % 2 == 0
    decreases |payload|
  {
    if payload == [] then [] else [Get16(payload)] + Numbers(payload[2..])
  }

  lemma Put16Inverts(b: seq<byte>)
    requires |b| >= 2
    ensures Put16(Get16(b)) == b[..2]
  {
  }

  lemma {:induction false} NumbersNormal(payload: seq<byte>)
    requires |payload| % 2 == 0
    ensures NetworkBytes(Numbers(payload)) == payload
    decreases |payload|
  {
    if payload != [] {
      Put16Inverts(payload);
      NumbersNormal(payload[2..]);
      assert Numbers(payload)[1..] == Numbers(payload[2..]);
      hide Put16, Get16;
      assert payload == payload[..2] + payload[2..];
    }
  }

  lemma {:induction false} NumbersInvert(ns: seq<uint16>)
    ensures Numbers(NetworkBytes(ns)) == ns
  {
    if ns != [] {
      NumbersInvert(ns[1..]);
      var b := NetworkBytes(ns);
      assert b[..2] == Put16(ns[0]) && b[2..] == NetworkBytes(ns[1..]);
    }
  }

  function NetworkListOf(payload: seq<byte>): Result<seq<uint16>, NlmError> {
    if payload == [] || |payload| % 2 != 0 then Err(InvalidLength)
    else if RoutableList(Numbers(payload)) then Ok(Numbers(payload))
    else Err(InvalidNetworkNumber)
  }

  method ValidateNetworkList(networks: seq<uint16>) returns (ok: bool)
    ensures ok <==> RoutableList(networks)
  {
    if |networks| == 0 {
      return false;
    }
    for j := 0 to |networks|
      invariant forall k :: 0 <= k < j ==> Routable(networks[k])
    {
      if !Routable(networks[j]) {
        return false;
      }
    }
    ok := true;
  }

  method DecodeNetworkList(payload: seq<byte>) returns (r: Result<seq<uint16>, NlmError>)
    ensures r == NetworkListOf(payload)
  {
    if |payload| == 0 || |payload| % 2 != 0 {
      return Err(InvalidLength);
    }
    hide Get16;
    var networks := [];
    var i := 0;
    ghost var rest := Numbers(payload);
    assert payload[0..] == payload;
    while i < |payload|
      invariant 0 <= i <= |payload| && i % 2 == 0
      invariant rest == Numbers(payload[i..])
      invariant networks + rest == Numbers(payload)
    {
      assert payload[i..][2..] == payload[i + 2..];
      var n := Get16(payload[i..]);
      networks := networks + [n];
      rest := Numbers(payload[i + 2..]);
      i := i + 2;
    }
    assert networks == Numbers(payload);
    var ok := ValidateNetworkList(networks);
    r := if ok then Ok(networks) else Err(InvalidNetworkNumber);
  }

  datatype Entries = Entries(ports: seq<PortEntry>, rest: seq<byte>)

  /** Where the first entry ends. */
  function EntryEnd(payload: seq<byte>): nat
    requires |payload| >= 4
  {
    4 + (payload[3] as int)
  }

  /** The entry a payload begins with. */
  function HeadOf(payload: seq<byte>): (r: Result<PortEntry, NlmError>)
    ensures r.Ok? ==> 4 + |r.value.portInfo| <= |payload|
  {
    if |payload| < 4 then Err(InvalidLength)
    else if !Routable(Get16(payload)) then Err(InvalidNetworkNumber)
    else if |payload| < EntryEnd(payload) then Err(InvalidLength)
    else Ok(PortEntry(Get16(payload), payload[2], payload[4..EntryEnd(payload)]))
  }

  /** Parse count routing-table entries. */
  function EntriesOf(payload: seq<byte>, count: nat): Result<Entries, NlmError>
    decreases count
  {
    if count == 0 then Ok(Entries([], payload))
    else
      var head := HeadOf(payload);
      if head.Err? then Err(head.error)
      else
        var more := EntriesOf(payload[4 + |head.value.portInfo|..], count - 1);
        if more.Err? then more else Ok(more.value.(ports := [head.value] + more.value.ports))
  }

  function TableOf(payload: seq<byte>): Result<seq<PortEntry>, NlmError> {
    if payload == [] then Err(InvalidLength)
    else
      var r := EntriesOf(payload[1..], payload[0]);
      if r.Err? then Err(r.error)
      else if r.value.rest != [] then Err(InvalidLength)
      else if r.value.ports == [] then Err(InvalidLength)
      else Ok(r.value.ports)
  }

  function Prefixed(ports: seq<PortEntry>, r: Result<Entries, NlmError>): Result<Entries, NlmError> {
    if r.Err? then r else Ok(r.value.(ports := ports + r.value.ports))
  }

  /** Read the entry at the cursor. */
  method ReadEntry(payload: seq<byte>, start: nat) returns (r: Result<PortEntry, NlmError>, cursor: nat)
    requires start <= |payload|
    ensures r == HeadOf(payload[start..])
    ensures r.Ok? ==> cursor == start + 4 + |r.value.portInfo| <= |payload|
  {
    cursor := start;
    if cursor + 4 > |payload| {
      return Err(InvalidLength), cursor;
    }
    var connected := Get16(payload[cursor..]);
    if !Routable(connected) {
      return Err(InvalidNetworkNumber), cursor;
    }
    var portID := payload[cursor + 2];
    var infoLength: nat := payload[cursor + 3];
    cursor := cursor + 4;
    if cursor + infoLength > |payload| {
      return Err(InvalidLength), cursor;
    }
    var info := payload[cursor..cursor + infoLength];
    assert info == payload[start..][4..EntryEnd(payload[start..])];
    r := Ok(PortEntry(connected, portID, info));
    cursor := cursor + infoLength;
  }

  method DecodeRoutingTableEntries(payload: seq<byte>) returns (r: Result<seq<PortEntry>, NlmError>)
    ensures r == TableOf(payload)
  {
    hide HeadOf;
    if |payload| == 0 {
      return Err(InvalidLength);
    }
    var portCount: nat := payload[0];
    var cursor := 1;
    var ports := [];
    ghost var whole := EntriesOf(payload[1..], portCount);
    assert whole.Ok? ==> [] + whole.value.ports == whole.value.ports;
    for i := 0 to portCount
      invariant 1 <= cursor <= |payload|
      invariant whole == Prefixed(ports, EntriesOf(payload[cursor..], portCount - i))
    {
      ghost var from := payload[cursor..];
      var entry, next := ReadEntry(payload, cursor);
      if entry.Err? {
        return Err(entry.error);
      }
      assert payload[next..] == from[4 + |entry.value.portInfo|..];
      ghost var tail := EntriesOf(payload[next..], portCount - i - 1);
      assert tail.Ok? ==> ports + ([entry.value] + tail.value.ports) == (ports + [entry.value]) + tail.value.ports;
      ports := ports + [entry.value];
      cursor := next;
    }
    assert ports + [] == ports;
    if cursor != |payload| {
      return Err(InvalidLength);
    }
    if |ports| == 0 {
      return Err(InvalidLength);
    }
    r := Ok(ports);
  }

  lemma HeadInverts(e: PortEntry, rest: seq<byte>)
    requires EntryValid(e)
    ensures var b := EntryBytes(e) + rest;
            HeadOf(b) == Ok(e) && b[4 + |e.portInfo|..] == rest
  {
    var b := EntryBytes(e) + rest;
    assert b[..2] == Put16(e.connectedDNET);
    assert b[4..EntryEnd(b)] == e.portInfo;
  }

  /** Parsing inverts appending, whatever follows. */
  lemma {:induction false} EntriesRoundTrip(ports: seq<PortEntry>, rest: seq<byte>)
    requires EntriesValid(ports)
    ensures EntriesOf(EntriesBytes(ports) + rest, |ports|) == Ok(Entries(ports, rest))
    decreases |ports|
  {
    hide EntryBytes, HeadOf, EntryValid;
    if ports == [] {
      assert EntriesBytes(ports) + rest == rest;
    } else {
      assert EntryValid(ports[0]);
      var tail := EntriesBytes(ports[1..]) + rest;
      EntriesRoundTrip(ports[1..], rest);
      HeadInverts(ports[0], tail);
      assert EntriesBytes(ports) + rest == EntryBytes(ports[0]) + tail;
      assert [ports[0]] + ports[1..] == ports;
    }
  }

  lemma HeadIsNormal(payload: seq<byte>)
    requires HeadOf(payload).Ok?
    ensures var e := HeadOf(payload).value;
            EntryValid(e) && payload == EntryBytes(e) + payload[4 + |e.portInfo|..]
  {
    var e := HeadOf(payload).value;
    Put16Inverts(payload);
    assert payload
        == payload[..2] + [payload[2], payload[3]] + payload[4..EntryEnd(payload)] + payload[EntryEnd(payload)..];
  }

  /** Every accepted payload is the bytes of the entries it was parsed into, and what is left. */
  lemma {:induction false} EntriesNormal(payload: seq<byte>, count: nat)
    requires EntriesOf(payload, count).Ok?
    ensures var r := EntriesOf(payload, count).value;
            |r.ports| == count && EntriesValid(r.ports) && payload == EntriesBytes(r.ports) + r.rest
    decreases count
  {
    hide EntryBytes, HeadOf;
    if count > 0 {
      var r := EntriesOf(payload, count).value;
      HeadIsNormal(payload);
      var e := HeadOf(payload).value;
      var tail := payload[4 + |e.portInfo|..];
      EntriesNormal(tail, count - 1);
      assert r.ports[1..] == EntriesOf(tail, count - 1).value.ports;
      assert EntryBytes(e) + (EntriesBytes(r.ports[1..]) + r.rest)
          == (EntryBytes(e) + EntriesBytes(r.ports[1..])) + r.rest;
    }
  }

  function DecodeModel(h: Header, payload: seq<byte>): Result<Message, NlmError> {
    if !StructureValid(h) then Err(InvalidMessage)
    else if IsProprietary(h.messageType) then Ok(Proprietary(h.messageType, h.vendorID.value, payload))
    else if h.messageType == 0x00 then
      if |payload| == 0 then Ok(WhoIsRouter(None))
      else if |payload| == 2 then New(WhoIsRouter(Some(Get16(payload))), InvalidNetworkNumber)
      else Err(InvalidLength)
    else if h.messageType == 0x01 || h.messageType == 0x04 || h.messageType == 0x05 then
      var networks := NetworkListOf(payload);
      if networks.Err? then Err(networks.error)
      else if h.messageType == 0x01 then New(IAmRouter(networks.value), InvalidNetworkNumber)
      else if h.messageType == 0x04 then New(RouterBusy(networks.value), InvalidNetworkNumber)
      else New(RouterAvailable(networks.value), InvalidNetworkNumber)
    else if h.messageType == 0x02 then
      if |payload| != 3 then Err(InvalidLength)
      else New(ICouldBeRouter(Get16(payload), payload[2]), InvalidNetworkNumber)
    else if h.messageType == 0x03 then
      if |payload| != 3 then Err(InvalidLength)
      else New(RejectMessage(Get16(payload), payload[2]),
               if Routable(Get16(payload)) then InvalidMessage else InvalidNetworkNumber)
    else if h.messageType == 0x06 || h.messageType == 0x07 then
      var ports := TableOf(payload);
      if ports.Err? then Err(ports.error)
      else if h.messageType == 0x06 then New(InitializeTable(ports.value), InvalidLength)
      else New(InitializeTableAck(ports.value), InvalidLength)
    else if h.messageType == 0x08 then
      if |payload| != 3 then Err(InvalidLength)
      else New(EstablishConnection(Get16(payload), payload[2]), InvalidNetworkNumber)
    else if h.messageType == 0x09 then
      if |payload| != 2 then Err(InvalidLength)
      else New(DisconnectConnection(Get16(payload)), InvalidNetworkNumber)
    else if h.messageType == 0x12 then
      if |payload| != 0 then Err(InvalidLength) else Ok(WhatIsNetworkNumber)
    else if h.messageType == 0x13 then
      if |payload| != 3 then Err(InvalidLength)
      else if payload[2] > 1 then Err(InvalidMessage)
      else New(NetworkNumberIs(Get16(payload), payload[2] == 1), InvalidNetworkNumber)
    else Err(InvalidMessage)
  }

  /** The payload a message is carried with, normalized by decoding it first. */
  function Normalized(h: Header, payload: seq<byte>): Result<seq<byte>, NlmError> {
    var m := DecodeModel(h, payload);
    if m.Err? then Err(m.error) else Ok(PayloadBytes(m.value))
  }

  lemma {:induction false} TableNormal(payload: seq<byte>)
    requires TableOf(payload).Ok?
    ensures var ports := TableOf(payload).value;
            1 <= |ports| <= 255 && EntriesValid(ports) && PortListBytes(ports) == payload
  {
    EntriesNormal(payload[1..], payload[0]);
  }

  /** The model of every accepted header and payload has that header and exactly that payload,
      and is one a constructor would build. Normalization changes nothing. */
  lemma DecodedIsNormal(h: Header, payload: seq<byte>)
    requires DecodeModel(h, payload).Ok?
    ensures var m := DecodeModel(h, payload).value;
            HeaderOf(m) == h && PayloadBytes(m) == payload && Constructible(m) && Valid(m)
  {
    if |payload| >= 2 {
      Put16Inverts(payload);
    }
    if h.messageType == 0x06 || h.messageType == 0x07 {
      TableNormal(payload);
    } else if NetworkListOf(payload).Ok? {
      NumbersNormal(payload);
    }
  }

  lemma NetworkListInverts(ns: seq<uint16>)
    requires RoutableList(ns)
    ensures NetworkListOf(NetworkListBytes(ns)) == Ok(ns)
  {
    NumbersInvert(ns);
  }

  lemma TableInverts(ports: seq<PortEntry>)
    requires 1 <= |ports| <= 255 && EntriesValid(ports)
    ensures TableOf(PortListBytes(ports)) == Ok(ports)
  {
    hide EntriesBytes, EntriesOf;
    EntriesRoundTrip(ports, []);
    assert PortListBytes(ports)[1..] == EntriesBytes(ports) + [];
  }

  lemma ModelRoundTrip(m: Message)
    requires Constructible(m) && Valid(m)
    ensures DecodeModel(HeaderOf(m), PayloadBytes(m)) == Ok(m)
  {
    hide NetworkListBytes, NetworkListOf, PortListBytes, TableOf;
    match m {
      case IAmRouter(ns) => NetworkListInverts(ns);
      case RouterBusy(ns) => NetworkListInverts(ns);
      case RouterAvailable(ns) => NetworkListInverts(ns);
      case InitializeTable(ports) => TableInverts(ports);
      case InitializeTableAck(ports) => TableInverts(ports);
      case _ =>
    }
  }

  // --- the wire form ---

  function EncodeWire(m: Message): Result<seq<byte>, NlmError> {
    if !Valid(m) then Err(EncodeFailure)
    else
      var h := HeaderOf(m);
      Ok([h.messageType] + (if h.vendorID.Some? then Put16(h.vendorID.value) else []) + PayloadBytes(m))
  }

  function DecodeWire(raw: seq<byte>): Result<Message, NlmError> {
    if raw == [] then Err(DecodeFailure)
    else if IsProprietary(raw[0]) then
      if |raw| < 3 then Err(DecodeFailure)
      else AsDecodeFailure(DecodeModel(Header(raw[0], Some(Get16(raw[1..]))), raw[3..]))
    else AsDecodeFailure(DecodeModel(Header(raw[0], None), raw[1..]))
  }

  function AsDecodeFailure(r: Result<Message, NlmError>): Result<Message, NlmError> {
    if r.Err? then Err(DecodeFailure) else r
  }

  /** Fill a buffer of the announced length at a moving offset. */
  method EncodeWireBuffer(m: Message) returns (r: Result<seq<byte>, NlmError>)
    ensures r == EncodeWire(m)
  {
    if !Valid(m) {
      return Err(EncodeFailure);
    }
    var h := HeaderOf(m);
    var payload := PayloadBytes(m);
    var length := 1 + |payload|;
    if h.vendorID.Some? {
      length := length + 2;
    }
    var out := new byte[length];
    out[0] := h.messageType;
    var offset := 1;
    if h.vendorID.Some? {
      out[1] := h.vendorID.value / 0x100;
      out[2] := h.vendorID.value % 0x100;
      offset := 3;
    }
    ghost var head := [h.messageType] + (if h.vendorID.Some? then Put16(h.vendorID.value) else []);
    assert out[..offset] == head;
    hide HeaderOf, PayloadBytes, Put16;
    forall i | 0 <= i < |payload| {
      out[offset + i] := payload[i];
    }
    assert out[..] == head + payload;
    r := Ok(out[..]);
  }

  /** A valid model survives the wire exactly when its constructor would have built it; the two
      models that let the broadcast network pass are the only exceptions. */
  lemma WireRoundTripExactly(m: Message)
    requires Valid(m)
    ensures DecodeWire(EncodeWire(m).value) == Ok(m)
            <==> (!(m.RejectMessage? && m.dnet == GLOBAL_BROADCAST)
                  && !(m.NetworkNumberIs? && m.number == GLOBAL_BROADCAST))
  {
    var raw := EncodeWire(m).value;
    if m.Proprietary? {
      assert raw[1..3] == Put16(m.vendorID) && raw[3..] == m.payload;
      assert Get16(raw[1..]) == Get16(raw[1..3]);
      ModelRoundTrip(m);
    } else {
      assert raw[1..] == PayloadBytes(m);
      if Constructible(m) {
        ModelRoundTrip(m);
      }
    }
  }

  /** Every accepted wire form is the encoding of its model. */
  lemma WireIsCanonical(raw: seq<byte>)
    requires DecodeWire(raw).Ok?
    ensures EncodeWire(DecodeWire(raw).value) == Ok(raw)
  {
    if IsProprietary(raw[0]) {
      var h := Header(raw[0], Some(Get16(raw[1..])));
      DecodedIsNormal(h, raw[3..]);
      Put16Inverts(raw[1..]);
      assert raw[1..][..2] == raw[1..3];
      assert raw == [raw[0]] + raw[1..3] + raw[3..];
    } else {
      DecodedIsNormal(Header(raw[0], None), raw[1..]);
      assert raw == [raw[0]] + [] + raw[1..];
    }
  }
}
