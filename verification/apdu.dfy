/** APDU headers: the internal inbound and outbound forms and their wire codec. */
module Apdu {
  import opened Wire

  datatype PduType =
    | ConfirmedRequest | UnconfirmedRequest | SimpleACK | ComplexACK
    | SegmentACK | ErrorPdu | Reject | Abort

  function PduCode(t: PduType): (c: byte)
    ensures c < 8
  {
    match t
    case ConfirmedRequest => 0
    case UnconfirmedRequest => 1
    case SimpleACK => 2
    case ComplexACK => 3
    case SegmentACK => 4
    case ErrorPdu => 5
    case Reject => 6
    case Abort => 7
  }

  function PduForCode(c: byte): Option<PduType> {
    if c == 0 then Some(ConfirmedRequest)
    else if c == 1 then Some(UnconfirmedRequest)
    else if c == 2 then Some(SimpleACK)
    else if c == 3 then Some(ComplexACK)
    else if c == 4 then Some(SegmentACK)
    else if c == 5 then Some(ErrorPdu)
    else if c == 6 then Some(Reject)
    else if c == 7 then Some(Abort)
    else None
  }

  datatype InboundAPDU = InboundAPDU(
    pduType: PduType,
    segmentedMessage: bool,
    moreFollows: bool,
    segmentedResponseAccepted: bool,
    negativeAck: bool,
    server: bool,
    maxSegmentsAccepted: byte,
    maxAPDULengthAccepted: uint16,
    invokeID: byte,
    sequenceNumber: byte,
    proposedWindowSize: byte,
    actualWindowSize: byte,
    serviceChoice: byte,
    payload: seq<byte>)

  datatype OutboundAPDU = OutboundAPDU(
    pduType: PduType,
    segmentedMessage: bool,
    moreFollows: bool,
    segmentedResponseAccepted: bool,
    maxSegmentsAccepted: byte,
    maxAPDULengthAccepted: uint16,
    invokeID: byte,
    serviceChoice: byte,
    payload: seq<byte>,
    sequenceNumber: byte,
    actualWindowSize: byte,
    negativeAck: bool,
    server: bool)

  datatype CodecError = EncodeFailure | DecodeFailure | InvalidPduType | SegmentationNotSupported

  /** An inbound APDU of the given type whose other fields are zero. */
  function Inbound(t: PduType): InboundAPDU {
    InboundAPDU(t, false, false, false, false, false, 0, 0, 0, 0, 0, 0, 0, [])
  }

  function Outbound(t: PduType): OutboundAPDU {
    OutboundAPDU(t, false, false, false, 0, 0, 0, 0, [], 0, 0, false, false)
  }

  // --- the max-APDU-length field ---

  function LengthForCode(code: byte): Result<uint16, CodecError> {
    if code == 0 then Ok(50)
    else if code == 1 then Ok(128)
    else if code == 2 then Ok(206)
    else if code == 3 then Ok(480)
    else if code == 4 then Ok(1024)
    else if code == 5 then Ok(1476)
    else Err(DecodeFailure)
  }

  function CodeForLength(length: uint16): Result<byte, CodecError> {
    if length <= 50 then Ok(0)
    else if length <= 128 then Ok(1)
    else if length <= 206 then Ok(2)
    else if length <= 480 then Ok(3)
    else if length <= 1024 then Ok(4)
    else if length <= 1476 then Ok(5)
    else Err(EncodeFailure)
  }

  /** Encoding a length announces the smallest standard size that holds it. */
  lemma LengthRoundsUp(length: uint16, code: byte)
    ensures var c := CodeForLength(length);
            c.Ok? <==> exists k: byte :: LengthForCode(k).Ok? && length <= LengthForCode(k).value
    ensures var c := CodeForLength(length);
            c.Ok? ==> LengthForCode(c.value).Ok? && length <= LengthForCode(c.value).value
    ensures var c := CodeForLength(length);
            c.Ok? && LengthForCode(code).Ok? && length <= LengthForCode(code).value
            ==> LengthForCode(c.value).value <= LengthForCode(code).value
  {
    if length <= 1476 {
      var k: byte := 5;
      assert LengthForCode(k).Ok? && length <= LengthForCode(k).value;
    }
  }

  // --- wire codec ---

  function Encode(a: OutboundAPDU): Result<seq<byte>, CodecError> {
    var first: int := PduCode(a.pduType) * 16;
    if a.maxSegmentsAccepted > 7 then Err(EncodeFailure)
    else match a.pduType
      case ConfirmedRequest =>
        if a.segmentedMessage || a.moreFollows then Err(SegmentationNotSupported)
        else
          var code := CodeForLength(a.maxAPDULengthAccepted);
          if code.Err? then Err(code.error)
          else
            LengthRoundsUp(a.maxAPDULengthAccepted, 0);
            Ok([first + Weight(a.segmentedResponseAccepted, 2),
                a.maxSegmentsAccepted * 16 + code.value,
                a.invokeID, a.serviceChoice] + a.payload)
      case UnconfirmedRequest => Ok([first, a.serviceChoice] + a.payload)
      case SimpleACK => Ok([first, a.invokeID, a.serviceChoice] + a.payload)
      case ErrorPdu => Ok([first, a.invokeID, a.serviceChoice] + a.payload)
      case ComplexACK =>
        if !a.segmentedMessage then Ok([first, a.invokeID, a.serviceChoice] + a.payload)
        else
          Ok([first + 8 + Weight(a.moreFollows, 4), a.invokeID, a.sequenceNumber, a.actualWindowSize]
             + (if a.sequenceNumber == 0 then [a.serviceChoice] else [])
             + a.payload)
      case Reject => EncodeReason(a, first)
      case Abort => EncodeReason(a, first + Weight(a.server, 1))
      case SegmentACK =>
        Ok([first + Weight(a.negativeAck, 2) + Weight(a.server, 1),
            a.invokeID, a.sequenceNumber, a.actualWindowSize])
  }

  function EncodeReason(a: OutboundAPDU, first: byte): Result<seq<byte>, CodecError> {
    if |a.payload| > 1 then Err(EncodeFailure)
    else Ok([first, a.invokeID, if |a.payload| == 1 then a.payload[0] else 0])
  }

  function Decode(raw: seq<byte>): Result<InboundAPDU, CodecError> {
    if |raw| < 1 then Err(DecodeFailure)
    else
      var t := PduForCode(raw[0] / 16);
      if t.None? then Err(InvalidPduType)
      else
        var base := Inbound(t.value);
        match t.value
        case ConfirmedRequest => DecodeConfirmedRequest(raw)
        case UnconfirmedRequest =>
          if |raw| < 2 then Err(DecodeFailure)
          else Ok(base.(serviceChoice := raw[1], payload := raw[2..]))
        case SimpleACK => DecodeAck(raw, base)
        case ErrorPdu => DecodeAck(raw, base)
        case ComplexACK =>
          var flagged := base.(segmentedMessage := Has(raw[0], 8), moreFollows := Has(raw[0], 4));
          if flagged.segmentedMessage then DecodeComplexSegment(raw, flagged) else DecodeAck(raw, flagged)
        case Reject =>
          if |raw| < 3 then Err(DecodeFailure)
          else Ok(base.(invokeID := raw[1], payload := raw[2..3]))
        case Abort =>
          if |raw| < 3 then Err(DecodeFailure)
          else Ok(base.(server := Has(raw[0], 1), invokeID := raw[1], payload := raw[2..3]))
        case SegmentACK =>
          if |raw| < 4 then Err(DecodeFailure)
          else Ok(base.(negativeAck := Has(raw[0], 2), server := Has(raw[0], 1), invokeID := raw[1],
                        sequenceNumber := raw[2], actualWindowSize := raw[3], proposedWindowSize := raw[3]))
  }

  function DecodeAck(raw: seq<byte>, base: InboundAPDU): Result<InboundAPDU, CodecError> {
    if |raw| < 3 then Err(DecodeFailure)
    else Ok(base.(invokeID := raw[1], serviceChoice := raw[2], payload := raw[3..]))
  }

  function DecodeComplexSegment(raw: seq<byte>, base: InboundAPDU): Result<InboundAPDU, CodecError> {
    if |raw| < 4 then Err(DecodeFailure)
    else
      var head := base.(invokeID := raw[1], sequenceNumber := raw[2], proposedWindowSize := raw[3]);
      if raw[2] != 0 then Ok(head.(payload := raw[4..]))
      else if |raw| < 5 then Err(DecodeFailure)
      else Ok(head.(serviceChoice := raw[4], payload := raw[5..]))
  }

  function DecodeConfirmedRequest(raw: seq<byte>): Result<InboundAPDU, CodecError> {
    if |raw| < 4 then Err(DecodeFailure)
    else
      var length := LengthForCode(raw[1] % 16);
      if length.Err? then Err(length.error)
      else
        var head := Inbound(ConfirmedRequest).(
          segmentedMessage := Has(raw[0], 8),
          moreFollows := Has(raw[0], 4),
          segmentedResponseAccepted := Has(raw[0], 2),
          maxSegmentsAccepted := raw[1] / 16 % 8,
          maxAPDULengthAccepted := length.value,
          invokeID := raw[2]);
        if !head.segmentedMessage then Ok(head.(serviceChoice := raw[3], payload := raw[4..]))
        else if |raw| < 5 then Err(DecodeFailure)
        else
          var numbered := head.(sequenceNumber := raw[3], proposedWindowSize := raw[4]);
          if raw[3] != 0 then Ok(numbered.(payload := raw[5..]))
          else if |raw| < 6 then Err(DecodeFailure)
          else Ok(numbered.(serviceChoice := raw[5], payload := raw[6..]))
  }

  // --- round trips ---

  /** What the peer of an encodable APDU is told, field by field. */
  predicate Conveys(a: OutboundAPDU, i: InboundAPDU) {
    && i.pduType == a.pduType
    && (a.pduType != UnconfirmedRequest ==> i.invokeID == a.invokeID)
    && match a.pduType
       case ConfirmedRequest =>
         && !i.segmentedMessage && !i.moreFollows
         && i.segmentedResponseAccepted == a.segmentedResponseAccepted
         && i.maxSegmentsAccepted == a.maxSegmentsAccepted
         && a.maxAPDULengthAccepted <= i.maxAPDULengthAccepted
         && i.serviceChoice == a.serviceChoice && i.payload == a.payload
       case ComplexACK =>
         && i.segmentedMessage == a.segmentedMessage
         && i.payload == a.payload
         && (a.segmentedMessage ==>
               && i.moreFollows == a.moreFollows
               && i.sequenceNumber == a.sequenceNumber
               && i.proposedWindowSize == a.actualWindowSize)
         && (!a.segmentedMessage || a.sequenceNumber == 0 ==> i.serviceChoice == a.serviceChoice)
       case SegmentACK =>
         && i.negativeAck == a.negativeAck && i.server == a.server
         && i.sequenceNumber == a.sequenceNumber && i.actualWindowSize == a.actualWindowSize
       case Reject => i.payload == if |a.payload| == 1 then a.payload else [0]
       case Abort => i.server == a.server && i.payload == if |a.payload| == 1 then a.payload else [0]
       case UnconfirmedRequest => i.serviceChoice == a.serviceChoice && i.payload == a.payload
       case SimpleACK => i.serviceChoice == a.serviceChoice && i.payload == a.payload
       case ErrorPdu => i.serviceChoice == a.serviceChoice && i.payload == a.payload
  }

  lemma FlagByte(code: nat, f8: bool, f4: bool, f2: bool, f1: bool)
    requires code < 8
    ensures var b := code * 16 + Weight(f8, 8) + Weight(f4, 4) + Weight(f2, 2) + Weight(f1, 1);
            b / 16 == code && Has(b, 8) == f8 && Has(b, 4) == f4 && Has(b, 2) == f2 && Has(b, 1) == f1
  {
    hide Has;
    var b: int := code * 16 + Weight(f8, 8) + Weight(f4, 4) + Weight(f2, 2) + Weight(f1, 1);
    BitOf(b, code, f8, 8, Weight(f4, 4) + Weight(f2, 2) + Weight(f1, 1));
    BitOf(b, 2 * code + Weight(f8, 1), f4, 4, Weight(f2, 2) + Weight(f1, 1));
    BitOf(b, 4 * code + Weight(f8, 2) + Weight(f4, 1), f2, 2, Weight(f1, 1));
    BitOf(b, 8 * code + Weight(f8, 4) + Weight(f4, 2) + Weight(f2, 1), f1, 1, 0);
  }

  /** Decoding inverts encoding for every APDU the encoder accepts. */
  lemma DecodeEncode(a: OutboundAPDU)
    requires Encode(a).Ok?
    ensures var d := Decode(Encode(a).value); d.Ok? && Conveys(a, d.value)
  {
    match a.pduType {
      case ConfirmedRequest => DecodeEncodeRequest(a);
      case ComplexACK => DecodeEncodeComplexACK(a);
      case Abort =>
        FlagByte(7, false, false, false, a.server);
        assert Encode(a).value[2..3] == [Encode(a).value[2]];
      case SegmentACK => FlagByte(4, false, false, a.negativeAck, a.server);
      case Reject => assert Encode(a).value[2..3] == [Encode(a).value[2]];
      case UnconfirmedRequest => assert Encode(a).value[2..] == a.payload;
      case SimpleACK => assert Encode(a).value[3..] == a.payload;
      case ErrorPdu => assert Encode(a).value[3..] == a.payload;
    }
  }

  lemma DecodeEncodeRequest(a: OutboundAPDU)
    requires a.pduType == ConfirmedRequest && Encode(a).Ok?
    ensures var d := Decode(Encode(a).value); d.Ok? && Conveys(a, d.value)
  {
    var raw := Encode(a).value;
    LengthRoundsUp(a.maxAPDULengthAccepted, 0);
    FlagByte(0, false, false, a.segmentedResponseAccepted, false);
    var code := CodeForLength(a.maxAPDULengthAccepted).value;
    assert raw[1] % 16 == code && raw[1] / 16 % 8 == a.maxSegmentsAccepted;
    assert raw[4..] == a.payload;
  }

  lemma DecodeEncodeComplexACK(a: OutboundAPDU)
    requires a.pduType == ComplexACK && Encode(a).Ok?
    ensures var d := Decode(Encode(a).value); d.Ok? && Conveys(a, d.value)
  {
    var raw := Encode(a).value;
    if a.segmentedMessage {
      FlagByte(3, true, a.moreFollows, false, false);
      assert raw[if a.sequenceNumber == 0 then 5 else 4..] == a.payload;
    } else {
      FlagByte(3, false, false, false, false);
      assert raw[3..] == a.payload;
    }
  }

  /** A segmented confirmed request as section 20.1.2 of ANSI/ASHRAE 135-2024 lays it out;
      the original only ever decodes this form. */
  function SegmentedRequestBytes(i: InboundAPDU, code: byte): seq<byte>
    requires i.maxSegmentsAccepted < 8 && code < 6
  {
    [8 + Weight(i.moreFollows, 4) + Weight(i.segmentedResponseAccepted, 2),
     i.maxSegmentsAccepted * 16 + code, i.invokeID, i.sequenceNumber, i.proposedWindowSize]
    + (if i.sequenceNumber == 0 then [i.serviceChoice] else [])
    + i.payload
  }

  /** Every segmented request header and payload survives the wire; continuation
      segments carry no service choice. */
  lemma DecodeSegmentedRequest(i: InboundAPDU, code: byte)
    requires i.pduType == ConfirmedRequest && i.segmentedMessage
    requires i.maxSegmentsAccepted < 8 && code < 6
    requires LengthForCode(code) == Ok(i.maxAPDULengthAccepted)
    requires !i.negativeAck && !i.server && i.actualWindowSize == 0
    ensures Decode(SegmentedRequestBytes(i, code))
            == Ok(if i.sequenceNumber == 0 then i else i.(serviceChoice := 0))
  {
    var raw := SegmentedRequestBytes(i, code);
    FlagByte(0, true, i.moreFollows, i.segmentedResponseAccepted, false);
    assert raw[1] % 16 == code && raw[1] / 16 % 8 == i.maxSegmentsAccepted;
    assert raw[if i.sequenceNumber == 0 then 6 else 5..] == i.payload;
  }
}
