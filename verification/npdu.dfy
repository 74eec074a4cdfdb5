/** Network protocol data units (section 6.2.2 of ANSI/ASHRAE 135-2024): the control byte that
    decides which fields are present, their wire layout, and the constructors. */
module Npdu {
  import opened Wire
  import Nlm

  datatype NpduError =
    | EncodeFailure | DecodeFailure | InvalidLength | InvalidProtocolVersion | ReservedBitSet
    | InvalidNetworkNumber | InvalidPriority | InvalidHopCount | InvalidMessage

  const PROTOCOL_VERSION: byte := 1

  /** Field presence is independent of the control byte here; Valid ties the two together. */
  datatype PDU = PDU(
    protocolVersion: byte,
    flags: byte,
    dnet: Option<uint16>,
    dlen: Option<byte>,
    dadr: Option<seq<byte>>,
    snet: Option<uint16>,
    slen: Option<byte>,
    sadr: Option<seq<byte>>,
    hopCount: Option<byte>,
    messageType: Option<byte>,
    vendorID: Option<uint16>,
    apdu: seq<byte>)

  // --- the control byte ---

  function PriorityOf(flags: byte): (p: byte)
    ensures p < 4
  {
    flags % 4
  }

  predicate ExpectsReply(flags: byte) {
    Has(flags, 4)
  }

  predicate HasSource(flags: byte) {
    Has(flags, 8)
  }

  predicate HasDestination(flags: byte) {
    Has(flags, 32)
  }

  predicate IsNetworkMessage(flags: byte) {
    Has(flags, 128)
  }

  predicate ReservedClear(flags: byte) {
    !Has(flags, 16) && !Has(flags, 64)
  }

  function FlagsOf(priority: byte, reply: bool, source: bool, destination: bool, networkMessage: bool): byte
    requires priority < 4
  {
    priority + Weight(reply, 4) + Weight(source, 8) + Weight(destination, 32) + Weight(networkMessage, 128)
  }

  lemma UpperHalves(x: nat)
    ensures x / 32 == 2 * (x / 64) + x / 32 % 2
    ensures x / 64 == 2 * (x / 128) + x / 64 % 2
    ensures x < 256 ==> x / 128 == x / 128 % 2
  {
  }

  lemma LowerHalves(x: nat)
    ensures x == 4 * (x / 4) + x % 4
    ensures x / 4 == 2 * (x / 8) + x / 4 % 2
    ensures x / 8 == 2 * (x / 16) + x / 8 % 2
    ensures x / 16 == 2 * (x / 32) + x / 16 % 2
  {
  }

  /** A control byte with clear reserved bits is exactly its five fields. */
  lemma FlagsDecompose(flags: byte)
    requires ReservedClear(flags)
    ensures flags == FlagsOf(PriorityOf(flags), ExpectsReply(flags), HasSource(flags), HasDestination(flags),
                             IsNetworkMessage(flags))
  {
    UpperHalves(flags);
    LowerHalves(flags);
  }

  lemma FlagsCompose(priority: byte, reply: bool, source: bool, destination: bool, networkMessage: bool)
    requires priority < 4
    ensures var f := FlagsOf(priority, reply, source, destination, networkMessage);
            && PriorityOf(f) == priority && ExpectsReply(f) == reply && HasSource(f) == source
            && HasDestination(f) == destination && IsNetworkMessage(f) == networkMessage && ReservedClear(f)
  {
    hide Has;
    var f := FlagsOf(priority, reply, source, destination, networkMessage);
    var s, d, n := Weight(source, 1), Weight(destination, 1), Weight(networkMessage, 1);
    var below8: int := priority + Weight(reply, 4);
    var below16 := below8 + Weight(source, 8);
    var below64 := below16 + Weight(destination, 32);
    BitOf(f, s + 4 * d + 16 * n, reply, 4, priority);
    BitOf(f, 2 * d + 8 * n, source, 8, below8);
    BitOf(f, d + 4 * n, false, 16, below16);
    BitOf(f, 2 * n, destination, 32, below16);
    BitOf(f, n, false, 64, below64);
    BitOf(f, 0, networkMessage, 128, below64);
  }

  // --- validity ---

  function HeaderOf(n: PDU): Nlm.Header
    requires n.messageType.Some?
  {
    Nlm.Header(n.messageType.value, n.vendorID)
  }

  predicate MessageValid(n: PDU) {
    if IsNetworkMessage(n.flags) then
      && n.messageType.Some?
      && (n.messageType.value >= 0x80 <==> n.vendorID.Some?)
      && Nlm.DecodeModel(HeaderOf(n), n.apdu).Ok?
    else n.messageType.None? && n.vendorID.None?
  }

  predicate DestinationValid(n: PDU) {
    if HasDestination(n.flags) then
      && n.dnet.Some? && n.dlen.Some? && n.hopCount.Some?
      && n.dnet.value != 0
      && if n.dlen.value == 0 then n.dadr.None?
         else n.dnet.value != Nlm.GLOBAL_BROADCAST && n.dadr.Some? && |n.dadr.value| == n.dlen.value
    else n.dnet.None? && n.dlen.None? && n.dadr.None? && n.hopCount.None?
  }

  lemma DestinationIsPresent(n: PDU)
    requires Valid(n) && HasDestination(n.flags)
    ensures n.dnet.Some? && n.dnet.value != 0 && n.hopCount.Some?
  {
  }

  predicate SourceValid(n: PDU) {
    if HasSource(n.flags) then
      && n.snet.Some? && n.slen.Some? && n.slen.value != 0
      && n.sadr.Some? && |n.sadr.value| == n.slen.value
      && Nlm.Routable(n.snet.value)
    else n.snet.None? && n.slen.None? && n.sadr.None?
  }

  predicate Valid(n: PDU) {
    && n.protocolVersion == PROTOCOL_VERSION && ReservedClear(n.flags)
    && MessageValid(n) && DestinationValid(n) && SourceValid(n)
  }

  // --- layout ---

  function Bytes(a: Option<seq<byte>>): seq<byte> {
    if a.Some? then a.value else []
  }

  function AddressBytes(net: uint16, len: byte, adr: Option<seq<byte>>): seq<byte> {
    Put16(net) + [len] + Bytes(adr)
  }

  function DestinationBytes(n: PDU): seq<byte>
    requires DestinationValid(n)
  {
    if HasDestination(n.flags) then AddressBytes(n.dnet.value, n.dlen.value, n.dadr) else []
  }

  function SourceBytes(n: PDU): seq<byte>
    requires SourceValid(n)
  {
    if HasSource(n.flags) then AddressBytes(n.snet.value, n.slen.value, n.sadr) else []
  }

  function HopBytes(n: PDU): seq<byte>
    requires DestinationValid(n)
  {
    if HasDestination(n.flags) then [n.hopCount.value] else []
  }

  function MessageBytes(n: PDU): seq<byte>
    requires MessageValid(n)
  {
    if IsNetworkMessage(n.flags)
    then [n.messageType.value] + (if n.messageType.value >= 0x80 then Put16(n.vendorID.value) else [])
    else []
  }

  function Layout(n: PDU): seq<byte>
    requires Valid(n)
  {
    [n.protocolVersion, n.flags] + (DestinationBytes(n) + (SourceBytes(n) + (HopBytes(n) + (MessageBytes(n) + n.apdu))))
  }

  function Encode(n: PDU): Result<seq<byte>, NpduError> {
    if Valid(n) then Ok(Layout(n)) else Err(EncodeFailure)
  }

  // --- parsing, field group by field group ---

  datatype Parsed<+T> = Parsed(value: T, rest: seq<byte>)

  datatype NetworkAddress = NetworkAddress(net: uint16, len: byte, adr: Option<seq<byte>>)

  /** How many octets an address group takes. */
  function GroupLength(len: byte): nat {
    3 + (len as int)
  }

  predicate DestinationAddressValid(a: NetworkAddress) {
    && a.net != 0
    && if a.len == 0 then a.adr.None?
       else a.net != Nlm.GLOBAL_BROADCAST && a.adr.Some? && |a.adr.value| == a.len
  }

  function ParseDestination(b: seq<byte>): Result<Parsed<NetworkAddress>, NpduError> {
    if |b| < 3 then Err(DecodeFailure)
    else if Get16(b) == 0 then Err(InvalidNetworkNumber)
    else if b[2] == 0 then Ok(Parsed(NetworkAddress(Get16(b), 0, None), b[3..]))
    else if Get16(b) == Nlm.GLOBAL_BROADCAST then Err(InvalidNetworkNumber)
    else if |b| < GroupLength(b[2]) then Err(DecodeFailure)
    else Ok(Parsed(NetworkAddress(Get16(b), b[2], Some(b[3..GroupLength(b[2])])), b[GroupLength(b[2])..]))
  }

  predicate SourceAddressValid(a: NetworkAddress) {
    Nlm.Routable(a.net) && a.len != 0 && a.adr.Some? && |a.adr.value| == a.len
  }

  function ParseSource(b: seq<byte>): Result<Parsed<NetworkAddress>, NpduError> {
    if |b| < 3 then Err(DecodeFailure)
    else if !Nlm.Routable(Get16(b)) then Err(InvalidNetworkNumber)
    else if b[2] == 0 then Err(InvalidLength)
    else if |b| < GroupLength(b[2]) then Err(DecodeFailure)
    else Ok(Parsed(NetworkAddress(Get16(b), b[2], Some(b[3..GroupLength(b[2])])), b[GroupLength(b[2])..]))
  }

  function ParseHeader(b: seq<byte>): Result<Parsed<Nlm.Header>, NpduError> {
    if |b| < 1 then Err(DecodeFailure)
    else if b[0] < 0x80 then Ok(Parsed(Nlm.Header(b[0], None), b[1..]))
    else if |b| < 3 then Err(DecodeFailure)
    else Ok(Parsed(Nlm.Header(b[0], Some(Get16(b[1..]))), b[3..]))
  }

  lemma AddressSplits(a: NetworkAddress, rest: seq<byte>)
    requires |Bytes(a.adr)| == a.len
    ensures var b := AddressBytes(a.net, a.len, a.adr) + rest;
            && |b| >= GroupLength(a.len) && Get16(b) == a.net && b[2] == a.len
            && b[3..GroupLength(a.len)] == Bytes(a.adr) && b[GroupLength(a.len)..] == rest
  {
    var b := AddressBytes(a.net, a.len, a.adr) + rest;
    assert b[..2] == Put16(a.net);
  }

  lemma AddressJoins(b: seq<byte>)
    requires |b| >= 3 && |b| >= GroupLength(b[2])
    ensures b == AddressBytes(Get16(b), b[2], Some(b[3..GroupLength(b[2])])) + b[GroupLength(b[2])..]
    ensures b[2] == 0 ==> b == AddressBytes(Get16(b), 0, None) + b[3..]
  {
    Nlm.Put16Inverts(b);
    assert b == b[..2] + [b[2]] + b[3..GroupLength(b[2])] + b[GroupLength(b[2])..];
  }

  lemma ParseDestinationInverts(a: NetworkAddress, rest: seq<byte>)
    requires DestinationAddressValid(a)
    ensures ParseDestination(AddressBytes(a.net, a.len, a.adr) + rest) == Ok(Parsed(a, rest))
  {
    hide AddressBytes, Get16;
    AddressSplits(a, rest);
  }

  lemma ParseSourceInverts(a: NetworkAddress, rest: seq<byte>)
    requires SourceAddressValid(a)
    ensures ParseSource(AddressBytes(a.net, a.len, a.adr) + rest) == Ok(Parsed(a, rest))
  {
    hide AddressBytes, Get16;
    AddressSplits(a, rest);
  }

  lemma ParseDestinationNormal(b: seq<byte>)
    requires ParseDestination(b).Ok?
    ensures var p := ParseDestination(b).value;
            DestinationAddressValid(p.value) && b == AddressBytes(p.value.net, p.value.len, p.value.adr) + p.rest
  {
    hide AddressBytes, Get16;
    AddressJoins(b);
  }

  lemma ParseSourceNormal(b: seq<byte>)
    requires ParseSource(b).Ok?
    ensures var p := ParseSource(b).value;
            SourceAddressValid(p.value) && b == AddressBytes(p.value.net, p.value.len, p.value.adr) + p.rest
  {
    hide AddressBytes, Get16;
    AddressJoins(b);
  }

  function HeaderBytes(h: Nlm.Header): seq<byte> {
    [h.messageType] + (if h.vendorID.Some? then Put16(h.vendorID.value) else [])
  }

  lemma ParseHeaderInverts(h: Nlm.Header, rest: seq<byte>)
    requires Nlm.StructureValid(h)
    ensures ParseHeader(HeaderBytes(h) + rest) == Ok(Parsed(h, rest))
  {
    var b := HeaderBytes(h) + rest;
    if h.vendorID.Some? {
      assert b[1..][..2] == Put16(h.vendorID.value) && b[3..] == rest;
    } else {
      assert b[1..] == rest;
    }
  }

  lemma ParseHeaderNormal(b: seq<byte>)
    requires ParseHeader(b).Ok?
    ensures var p := ParseHeader(b).value; Nlm.StructureValid(p.value) && b == HeaderBytes(p.value) + p.rest
  {
    if b[0] >= 0x80 {
      Nlm.Put16Inverts(b[1..]);
      assert b == [b[0]] + b[1..][..2] + b[3..];
    }
  }

  // --- the whole unit ---

  function MaybeDestination(flags: byte, b: seq<byte>): Result<Parsed<Option<NetworkAddress>>, NpduError> {
    if !HasDestination(flags) then Ok(Parsed(None, b))
    else
      var p := ParseDestination(b);
      if p.Err? then Err(p.error) else Ok(Parsed(Some(p.value.value), p.value.rest))
  }

  function MaybeSource(flags: byte, b: seq<byte>): Result<Parsed<Option<NetworkAddress>>, NpduError> {
    if !HasSource(flags) then Ok(Parsed(None, b))
    else
      var p := ParseSource(b);
      if p.Err? then Err(p.error) else Ok(Parsed(Some(p.value.value), p.value.rest))
  }

  function MaybeHopCount(flags: byte, b: seq<byte>): Result<Parsed<Option<byte>>, NpduError> {
    if !HasDestination(flags) then Ok(Parsed(None, b))
    else if |b| < 1 then Err(DecodeFailure)
    else Ok(Parsed(Some(b[0]), b[1..]))
  }

  function MaybeHeader(flags: byte, b: seq<byte>): Result<Parsed<Option<Nlm.Header>>, NpduError> {
    if !IsNetworkMessage(flags) then Ok(Parsed(None, b))
    else
      var p := ParseHeader(b);
      if p.Err? then Err(p.error)
      else if Nlm.DecodeModel(p.value.value, p.value.rest).Err? then Err(DecodeFailure)
      else Ok(Parsed(Some(p.value.value), p.value.rest))
  }

  /** The unit with these field groups. */
  function Assemble(flags: byte, d: Option<NetworkAddress>, s: Option<NetworkAddress>, hop: Option<byte>,
                    h: Option<Nlm.Header>, apdu: seq<byte>): PDU {
    PDU(PROTOCOL_VERSION, flags,
        if d.Some? then Some(d.value.net) else None,
        if d.Some? then Some(d.value.len) else None,
        if d.Some? then d.value.adr else None,
        if s.Some? then Some(s.value.net) else None,
        if s.Some? then Some(s.value.len) else None,
        if s.Some? then s.value.adr else None,
        hop,
        if h.Some? then Some(h.value.messageType) else None,
        if h.Some? then h.value.vendorID else None,
        apdu)
  }

  function DecodeFields(flags: byte, b: seq<byte>): Result<PDU, NpduError> {
    var d := MaybeDestination(flags, b);
    if d.Err? then Err(d.error)
    else
      var s := MaybeSource(flags, d.value.rest);
      if s.Err? then Err(s.error)
      else
        var hop := MaybeHopCount(flags, s.value.rest);
        if hop.Err? then Err(hop.error)
        else
          var h := MaybeHeader(flags, hop.value.rest);
          if h.Err? then Err(h.error)
          else Ok(Assemble(flags, d.value.value, s.value.value, hop.value.value, h.value.value, h.value.rest))
  }

  function Decode(data: seq<byte>): Result<PDU, NpduError> {
    if |data| < 2 then Err(InvalidLength)
    else if data[0] != PROTOCOL_VERSION then Err(InvalidProtocolVersion)
    else if !ReservedClear(data[1]) then Err(ReservedBitSet)
    else DecodeFields(data[1], data[2..])
  }

  // --- round trips ---

  function DestinationOf(n: PDU): Option<NetworkAddress>
    requires DestinationValid(n)
  {
    if HasDestination(n.flags) then Some(NetworkAddress(n.dnet.value, n.dlen.value, n.dadr)) else None
  }

  function SourceOf(n: PDU): Option<NetworkAddress>
    requires SourceValid(n)
  {
    if HasSource(n.flags) then Some(NetworkAddress(n.snet.value, n.slen.value, n.sadr)) else None
  }

  function MessageHeaderOf(n: PDU): Option<Nlm.Header>
    requires MessageValid(n)
  {
    if IsNetworkMessage(n.flags) then Some(HeaderOf(n)) else None
  }

  lemma ValidIsAssembled(n: PDU)
    requires Valid(n)
    ensures n == Assemble(n.flags, DestinationOf(n), SourceOf(n), n.hopCount, MessageHeaderOf(n), n.apdu)
  {
    hide Has;
  }

  lemma DestinationInverts(n: PDU, rest: seq<byte>)
    requires Valid(n)
    ensures MaybeDestination(n.flags, DestinationBytes(n) + rest) == Ok(Parsed(DestinationOf(n), rest))
  {
    hide Has, AddressBytes, ParseDestination;
    if HasDestination(n.flags) {
      ParseDestinationInverts(NetworkAddress(n.dnet.value, n.dlen.value, n.dadr), rest);
    } else {
      assert [] + rest == rest;
    }
  }

  lemma SourceInverts(n: PDU, rest: seq<byte>)
    requires Valid(n)
    ensures MaybeSource(n.flags, SourceBytes(n) + rest) == Ok(Parsed(SourceOf(n), rest))
  {
    hide Has, AddressBytes, ParseSource;
    if HasSource(n.flags) {
      ParseSourceInverts(NetworkAddress(n.snet.value, n.slen.value, n.sadr), rest);
    } else {
      assert [] + rest == rest;
    }
  }

  lemma HopCountInverts(n: PDU, rest: seq<byte>)
    requires Valid(n)
    ensures MaybeHopCount(n.flags, HopBytes(n) + rest) == Ok(Parsed(n.hopCount, rest))
  {
    hide Has;
    assert (HopBytes(n) + rest)[|HopBytes(n)|..] == rest;
  }

  lemma HeaderInverts(n: PDU)
    requires Valid(n)
    ensures MaybeHeader(n.flags, MessageBytes(n) + n.apdu) == Ok(Parsed(MessageHeaderOf(n), n.apdu))
  {
    hide Has, ParseHeader, Nlm.DecodeModel;
    if IsNetworkMessage(n.flags) {
      ParseHeaderInverts(HeaderOf(n), n.apdu);
      assert MessageBytes(n) == HeaderBytes(HeaderOf(n));
    } else {
      assert [] + n.apdu == n.apdu;
    }
  }

  /** Decoding inverts encoding on every valid unit. */
  lemma DecodeEncode(n: PDU)
    requires Valid(n)
    ensures Decode(Encode(n).value) == Ok(n)
  {
    hide Has, MaybeDestination, MaybeSource, MaybeHopCount, MaybeHeader, MessageValid, DestinationValid, SourceValid;
    ValidIsAssembled(n);
    HeaderInverts(n);
    var m := MessageBytes(n) + n.apdu;
    HopCountInverts(n, m);
    SourceInverts(n, HopBytes(n) + m);
    DestinationInverts(n, SourceBytes(n) + (HopBytes(n) + m));
    assert Layout(n)[2..] == DestinationBytes(n) + (SourceBytes(n) + (HopBytes(n) + m));
  }

  lemma DestinationNormal(flags: byte, b: seq<byte>, s: Option<NetworkAddress>, hop: Option<byte>,
                          h: Option<Nlm.Header>, apdu: seq<byte>)
    requires MaybeDestination(flags, b).Ok? && (hop.Some? <==> HasDestination(flags))
    ensures var p := MaybeDestination(flags, b).value;
            var n := Assemble(flags, p.value, s, hop, h, apdu);
            DestinationValid(n) && b == DestinationBytes(n) + p.rest
  {
    hide Has, AddressBytes, ParseDestination;
    if HasDestination(flags) {
      ParseDestinationNormal(b);
    } else {
      assert b == [] + b;
    }
  }

  lemma SourceNormal(flags: byte, b: seq<byte>, d: Option<NetworkAddress>, hop: Option<byte>,
                     h: Option<Nlm.Header>, apdu: seq<byte>)
    requires MaybeSource(flags, b).Ok?
    ensures var p := MaybeSource(flags, b).value;
            var n := Assemble(flags, d, p.value, hop, h, apdu);
            SourceValid(n) && b == SourceBytes(n) + p.rest
  {
    hide Has, AddressBytes, ParseSource;
    if HasSource(flags) {
      ParseSourceNormal(b);
    } else {
      assert b == [] + b;
    }
  }

  lemma HeaderNormal(flags: byte, b: seq<byte>, d: Option<NetworkAddress>, s: Option<NetworkAddress>, hop: Option<byte>)
    requires MaybeHeader(flags, b).Ok?
    ensures var p := MaybeHeader(flags, b).value;
            var n := Assemble(flags, d, s, hop, p.value, p.rest);
            MessageValid(n) && b == MessageBytes(n) + n.apdu
  {
    hide Has, ParseHeader, Nlm.DecodeModel;
    if IsNetworkMessage(flags) {
      ParseHeaderNormal(b);
    } else {
      assert b == [] + b;
    }
  }

  /** Every accepted octet string is the encoding of the unit it decodes to. */
  lemma EncodeDecode(data: seq<byte>)
    requires Decode(data).Ok?
    ensures Valid(Decode(data).value) && Encode(Decode(data).value) == Ok(data)
  {
    hide Has, MaybeDestination, MaybeSource, MaybeHeader, MessageValid, DestinationValid, SourceValid,
         MessageBytes, DestinationBytes, SourceBytes;
    var flags := data[1];
    var d := MaybeDestination(flags, data[2..]).value;
    var s := MaybeSource(flags, d.rest).value;
    var hop := MaybeHopCount(flags, s.rest).value;
    var h := MaybeHeader(flags, hop.rest).value;
    DestinationNormal(flags, data[2..], s.value, hop.value, h.value, h.rest);
    SourceNormal(flags, d.rest, d.value, hop.value, h.value, h.rest);
    HeaderNormal(flags, hop.rest, d.value, s.value, hop.value);
    var n := Decode(data).value;
    assert Valid(n);
    assert s.rest == HopBytes(n) + hop.rest;
    assert data == [data[0], flags] + data[2..];
  }

  /** Exactly the encodings of valid units are accepted. */
  lemma AcceptsExactlyEncodings(data: seq<byte>)
    ensures Decode(data).Ok? <==> exists n :: Encode(n) == Ok(data)
  {
    if Decode(data).Ok? {
      EncodeDecode(data);
    }
    forall n | Encode(n) == Ok(data)
      ensures Decode(data).Ok?
    {
      DecodeEncode(n);
    }
  }

  // --- filling a buffer and walking a cursor, as the codec does ---

  /** Copy b into the buffer at index i. */
  method Write(out: array<byte>, i: nat, b: seq<byte>) returns (next: nat)
    requires i + |b| <= out.Length
    modifies out
    ensures next == i + |b|
    ensures out[..next] == old(out[..i]) + b
  {
    next := i + |b|;
    forall k | 0 <= k < |b| {
      out[i + k] := b[k];
    }
  }

  method WriteAddress(out: array<byte>, start: nat, net: uint16, len: byte, adr: Option<seq<byte>>) returns (i: nat)
    requires start + 3 + |Bytes(adr)| <= out.Length
    modifies out
    ensures i == start + 3 + |Bytes(adr)|
    ensures out[..i] == old(out[..start]) + AddressBytes(net, len, adr)
  {
    hide Put16;
    i := Write(out, start, Put16(net));
    i := Write(out, i, [len]);
    i := Write(out, i, Bytes(adr));
  }

  method WriteMessage(out: array<byte>, start: nat, n: PDU) returns (i: nat)
    requires MessageValid(n) && start + |MessageBytes(n)| <= out.Length
    modifies out
    ensures i == start + |MessageBytes(n)|
    ensures out[..i] == old(out[..start]) + MessageBytes(n)
  {
    hide Put16, Has, Nlm.DecodeModel;
    i := start;
    if IsNetworkMessage(n.flags) {
      i := Write(out, i, [n.messageType.value]);
      if n.messageType.value >= 0x80 {
        i := Write(out, i, Put16(n.vendorID.value));
      }
    }
  }

  /** The wire size, computed before anything is written. */
  method WireSize(n: PDU) returns (size: nat)
    requires Valid(n)
    ensures size == |Layout(n)|
  {
    hide Has, Nlm.DecodeModel, Put16;
    size := 2;
    if HasDestination(n.flags) {
      size := size + 3 + |Bytes(n.dadr)|;
    }
    if HasSource(n.flags) {
      size := size + 3 + |Bytes(n.sadr)|;
    }
    if HasDestination(n.flags) {
      size := size + 1;
    }
    if IsNetworkMessage(n.flags) {
      size := size + 1;
      if n.messageType.value >= 0x80 {
        size := size + 2;
      }
    }
    size := size + |n.apdu|;
  }

  method WriteDestination(out: array<byte>, start: nat, n: PDU) returns (i: nat)
    requires DestinationValid(n) && start + |DestinationBytes(n)| <= out.Length
    modifies out
    ensures i == start + |DestinationBytes(n)| && out[..i] == old(out[..start]) + DestinationBytes(n)
  {
    hide Has, AddressBytes;
    i := start;
    if HasDestination(n.flags) {
      AddressLength(n.dnet.value, n.dlen.value, n.dadr);
      i := WriteAddress(out, i, n.dnet.value, n.dlen.value, n.dadr);
    }
  }

  method WriteSource(out: array<byte>, start: nat, n: PDU) returns (i: nat)
    requires SourceValid(n) && start + |SourceBytes(n)| <= out.Length
    modifies out
    ensures i == start + |SourceBytes(n)| && out[..i] == old(out[..start]) + SourceBytes(n)
  {
    hide Has, AddressBytes;
    i := start;
    if HasSource(n.flags) {
      AddressLength(n.snet.value, n.slen.value, n.sadr);
      i := WriteAddress(out, i, n.snet.value, n.slen.value, n.sadr);
    }
  }

  method WriteHopCount(out: array<byte>, start: nat, n: PDU) returns (i: nat)
    requires DestinationValid(n) && start + |HopBytes(n)| <= out.Length
    modifies out
    ensures i == start + |HopBytes(n)| && out[..i] == old(out[..start]) + HopBytes(n)
  {
    hide Has;
    i := start;
    if HasDestination(n.flags) {
      i := Write(out, i, [n.hopCount.value]);
    }
  }

  method EncodeBuffer(n: PDU) returns (r: Result<seq<byte>, NpduError>)
    ensures r == Encode(n)
  {
    hide Has, MessageValid, SourceValid, DestinationValid, MessageBytes, SourceBytes, DestinationBytes, HopBytes,
         ReservedClear;
    if !Valid(n) {
      return Err(EncodeFailure);
    }
    LayoutInOrder(n);
    hide Layout;
    var size := WireSize(n);
    var out := new byte[size];
    var i := Write(out, 0, [n.protocolVersion, n.flags]);
    i := WriteDestination(out, i, n);
    i := WriteSource(out, i, n);
    i := WriteHopCount(out, i, n);
    i := WriteMessage(out, i, n);
    i := Write(out, i, n.apdu);
    assert out[..size] == out[..];
    r := Ok(out[..]);
  }

  lemma LayoutInOrder(n: PDU)
    requires Valid(n)
    ensures Layout(n)
            == [] + [n.protocolVersion, n.flags] + DestinationBytes(n) + SourceBytes(n) + HopBytes(n)
               + MessageBytes(n) + n.apdu
    ensures |Layout(n)| == 2 + |DestinationBytes(n)| + |SourceBytes(n)| + |HopBytes(n)| + |MessageBytes(n)| + |n.apdu|
  {
    hide Has, MessageValid, SourceValid, DestinationValid, MessageBytes, SourceBytes, DestinationBytes, HopBytes;
  }

  lemma AddressLength(net: uint16, len: byte, adr: Option<seq<byte>>)
    ensures |AddressBytes(net, len, adr)| == 3 + |Bytes(adr)|
  {
  }

  /** Read an address group at the cursor. */
  method ReadDestination(data: seq<byte>, start: nat) returns (r: Result<NetworkAddress, NpduError>, i: nat)
    requires start <= |data|
    ensures r.Ok? ==> start <= i <= |data|
    ensures ParseDestination(data[start..]) == if r.Ok? then Ok(Parsed(r.value, data[i..])) else Err(r.error)
  {
    hide Get16;
    i := start;
    if i + 3 > |data| {
      return Err(DecodeFailure), i;
    }
    var dnet := Get16(data[i..]);
    if dnet == 0 {
      return Err(InvalidNetworkNumber), i;
    }
    i := i + 2;
    var dlen := data[i];
    i := i + 1;
    if dlen == 0 {
      assert data[start..][3..] == data[i..];
      return Ok(NetworkAddress(dnet, dlen, None)), i;
    }
    if dnet == Nlm.GLOBAL_BROADCAST {
      return Err(InvalidNetworkNumber), i;
    }
    var end: nat := i + (dlen as int);
    if end > |data| {
      return Err(DecodeFailure), i;
    }
    assert data[start..][3..GroupLength(dlen)] == data[i..end];
    assert data[start..][GroupLength(dlen)..] == data[end..];
    r := Ok(NetworkAddress(dnet, dlen, Some(data[i..end])));
    i := end;
  }

  method ReadSource(data: seq<byte>, start: nat) returns (r: Result<NetworkAddress, NpduError>, i: nat)
    requires start <= |data|
    ensures r.Ok? ==> start <= i <= |data|
    ensures ParseSource(data[start..]) == if r.Ok? then Ok(Parsed(r.value, data[i..])) else Err(r.error)
  {
    hide Get16;
    i := start;
    if i + 3 > |data| {
      return Err(DecodeFailure), i;
    }
    var snet := Get16(data[i..]);
    if !Nlm.Routable(snet) {
      return Err(InvalidNetworkNumber), i;
    }
    i := i + 2;
    var slen := data[i];
    i := i + 1;
    if slen == 0 {
      return Err(InvalidLength), i;
    }
    var end: nat := i + (slen as int);
    if end > |data| {
      return Err(DecodeFailure), i;
    }
    assert data[start..][3..GroupLength(slen)] == data[i..end];
    assert data[start..][GroupLength(slen)..] == data[end..];
    r := Ok(NetworkAddress(snet, slen, Some(data[i..end])));
    i := end;
  }

  method ReadHeader(data: seq<byte>, start: nat) returns (r: Result<Nlm.Header, NpduError>, i: nat)
    requires start <= |data|
    ensures r.Ok? ==> start <= i <= |data|
    ensures ParseHeader(data[start..]) == if r.Ok? then Ok(Parsed(r.value, data[i..])) else Err(r.error)
  {
    hide Get16;
    i := start;
    if i >= |data| {
      return Err(DecodeFailure), i;
    }
    var mt := data[i];
    i := i + 1;
    if mt < 0x80 {
      return Ok(Nlm.Header(mt, None)), i;
    }
    if i + 2 > |data| {
      return Err(DecodeFailure), i;
    }
    assert data[start..][1..] == data[i..];
    assert data[start..][3..] == data[i + 2..];
    r := Ok(Nlm.Header(mt, Some(Get16(data[i..]))));
    i := i + 2;
  }

  method DecodeCursor(data: seq<byte>) returns (r: Result<PDU, NpduError>)
    ensures r == Decode(data)
  {
    hide Has, ParseDestination, ParseSource, ParseHeader, Nlm.DecodeModel, Get16;
    if |data| < 2 {
      return Err(InvalidLength);
    }
    var i: nat := 0;
    var res := PDU(data[i], 0, None, None, None, None, None, None, None, None, None, []);
    i := i + 1;
    if res.protocolVersion != PROTOCOL_VERSION {
      return Err(InvalidProtocolVersion);
    }
    res := res.(flags := data[i]);
    i := i + 1;
    if !ReservedClear(res.flags) {
      return Err(ReservedBitSet);
    }
    if HasDestination(res.flags) {
      var d;
      d, i := ReadDestination(data, i);
      if d.Err? {
        return Err(d.error);
      }
      res := res.(dnet := Some(d.value.net), dlen := Some(d.value.len), dadr := d.value.adr);
    }
    ghost var d := MaybeDestination(data[1], data[2..]);
    assert d.Ok? && d.value.rest == data[i..];
    if HasSource(res.flags) {
      var s;
      s, i := ReadSource(data, i);
      if s.Err? {
        return Err(s.error);
      }
      res := res.(snet := Some(s.value.net), slen := Some(s.value.len), sadr := s.value.adr);
    }
    ghost var s := MaybeSource(data[1], d.value.rest);
    assert s.Ok? && s.value.rest == data[i..];
    if HasDestination(res.flags) {
      if i >= |data| {
        return Err(DecodeFailure);
      }
      res := res.(hopCount := Some(data[i]));
      i := i + 1;
    }
    ghost var hop := MaybeHopCount(data[1], s.value.rest);
    assert hop.Ok? && hop.value.rest == data[i..];
    if IsNetworkMessage(res.flags) {
      var h;
      h, i := ReadHeader(data, i);
      if h.Err? {
        return Err(h.error);
      }
      res := res.(messageType := Some(h.value.messageType), vendorID := h.value.vendorID);
    }
    res := res.(apdu := data[i..]);
    if IsNetworkMessage(res.flags) && Nlm.DecodeModel(HeaderOf(res), res.apdu).Err? {
      return Err(DecodeFailure);
    }
    r := Ok(res);
  }

  // --- constructors ---

  datatype Destination = Destination(dnet: uint16, dadr: seq<byte>, hopCount: byte)

  datatype Source = Source(snet: uint16, sadr: seq<byte>)

  datatype NPCI = NPCI(priority: byte, expectingReply: bool, destination: Option<Destination>, source: Option<Source>)

  function NewWithNPCI(c: NPCI): Result<PDU, NpduError>
    requires c.priority < 4
  {
    if c.destination.Some? && c.destination.value.dnet == Nlm.LOCAL_NETWORK then Err(InvalidNetworkNumber)
    else if c.destination.Some? && |c.destination.value.dadr| > 255 then Err(InvalidLength)
    else if c.destination.Some? && c.destination.value.dnet == Nlm.GLOBAL_BROADCAST && c.destination.value.dadr != []
    then Err(InvalidLength)
    else if c.destination.Some? && c.destination.value.hopCount == 0 then Err(InvalidHopCount)
    else if c.source.Some? && (|c.source.value.sadr| == 0 || |c.source.value.sadr| > 255) then Err(InvalidLength)
    else if c.source.Some? && !Nlm.Routable(c.source.value.snet) then Err(InvalidNetworkNumber)
    else
      var d := if c.destination.None? then None
               else
                 var dadr := c.destination.value.dadr;
                 Some(NetworkAddress(c.destination.value.dnet, |dadr|, if dadr == [] then None else Some(dadr)));
      var s := if c.source.None? then None
               else Some(NetworkAddress(c.source.value.snet, |c.source.value.sadr|, Some(c.source.value.sadr)));
      Ok(Assemble(FlagsOf(c.priority, c.expectingReply, s.Some?, d.Some?, false), d, s,
                  if c.destination.None? then None else Some(c.destination.value.hopCount), None, []))
  }

  function NewApplication(c: NPCI, payload: seq<byte>): Result<PDU, NpduError> {
    if c.priority > 3 then Err(InvalidPriority)
    else if payload == [] then Err(InvalidLength)
    else
      var n := NewWithNPCI(c);
      if n.Err? then n else Ok(n.value.(apdu := payload))
  }

  function NewNetworkLayer(c: NPCI, h: Nlm.Header, payload: seq<byte>): Result<PDU, NpduError> {
    if c.priority > 3 then Err(InvalidPriority)
    else if !Nlm.StructureValid(h) then Err(InvalidMessage)
    else
      var normalized := Nlm.Normalized(h, payload);
      if normalized.Err? then Err(InvalidMessage)
      else
        var n := NewWithNPCI(c);
        if n.Err? then n
        else
          Ok(n.value.(flags := FlagsOf(c.priority, c.expectingReply, c.source.Some?, c.destination.Some?, true),
                      messageType := Some(h.messageType), vendorID := h.vendorID, apdu := normalized.value))
  }

  /** The routing view of a unit. */
  function NPCIOf(n: PDU): (c: NPCI)
    ensures c.priority < 4
  {
    NPCI(PriorityOf(n.flags), ExpectsReply(n.flags),
         if HasDestination(n.flags) && n.dnet.Some? && n.hopCount.Some?
         then Some(Destination(n.dnet.value, Bytes(n.dadr), n.hopCount.value)) else None,
         if HasSource(n.flags) && n.snet.Some? then Some(Source(n.snet.value, Bytes(n.sadr))) else None)
  }

  /** What a unit carries is built again from its routing view and its payload. */
  function Rebuilt(n: PDU, c: NPCI): Result<PDU, NpduError>
    requires Valid(n)
  {
    if IsNetworkMessage(n.flags) then NewNetworkLayer(c, HeaderOf(n), n.apdu) else NewApplication(c, n.apdu)
  }

  /** The constructors can express the unit: its hop count is not spent, and an application
      payload is not empty. */
  predicate Expressible(n: PDU)
    requires Valid(n)
  {
    && (HasDestination(n.flags) ==> n.hopCount.value >= 1)
    && (!IsNetworkMessage(n.flags) ==> n.apdu != [])
  }

  /** Building a valid unit again from its own view gives it back exactly when the constructors
      can express it. */
  lemma RebuiltExactly(n: PDU)
    requires Valid(n)
    ensures Rebuilt(n, NPCIOf(n)) == Ok(n) <==> Expressible(n)
    ensures Expressible(n) <==> Rebuilt(n, NPCIOf(n)).Ok?
  {
    FlagsDecompose(n.flags);
    if IsNetworkMessage(n.flags) {
      Nlm.DecodedIsNormal(HeaderOf(n), n.apdu);
    }
    ValidIsAssembled(n);
    hide Has, PriorityOf, Nlm.DecodeModel, FlagsOf;
  }

  lemma ApplicationIsValid(c: NPCI, payload: seq<byte>)
    requires NewApplication(c, payload).Ok?
    ensures var n := NewApplication(c, payload).value;
            Valid(n) && NPCIOf(n) == c && n.apdu == payload && !IsNetworkMessage(n.flags)
  {
    hide Has, PriorityOf, Nlm.DecodeModel, FlagsOf;
    FlagsCompose(c.priority, c.expectingReply, c.source.Some?, c.destination.Some?, false);
  }

  lemma NetworkLayerIsValid(c: NPCI, h: Nlm.Header, payload: seq<byte>)
    requires NewNetworkLayer(c, h, payload).Ok?
    ensures var n := NewNetworkLayer(c, h, payload).value;
            Valid(n) && NPCIOf(n) == c && n.apdu == payload && IsNetworkMessage(n.flags) && HeaderOf(n) == h
  {
    hide Has, PriorityOf, Nlm.DecodeModel, FlagsOf, Nlm.PayloadBytes;
    FlagsCompose(c.priority, c.expectingReply, c.source.Some?, c.destination.Some?, true);
    Nlm.DecodedIsNormal(h, payload);
  }

  /** Everything a constructor builds is valid, and shows the view and payload it was built from. */
  lemma ConstructedIsValid(c: NPCI, h: Nlm.Header, payload: seq<byte>)
    ensures var n := NewApplication(c, payload);
            n.Ok? ==>
              Valid(n.value) && NPCIOf(n.value) == c && n.value.apdu == payload && !IsNetworkMessage(n.value.flags)
    ensures var n := NewNetworkLayer(c, h, payload);
            n.Ok? ==> Valid(n.value) && NPCIOf(n.value) == c && n.value.apdu == payload
                      && IsNetworkMessage(n.value.flags) && HeaderOf(n.value) == h
  {
    hide NewApplication, NewNetworkLayer, Valid, NPCIOf, IsNetworkMessage;
    if NewApplication(c, payload).Ok? {
      ApplicationIsValid(c, payload);
    }
    if NewNetworkLayer(c, h, payload).Ok? {
      NetworkLayerIsValid(c, h, payload);
    }
  }
}
