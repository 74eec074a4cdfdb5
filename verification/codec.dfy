/** The APDU codec as it works: encoding fills a buffer of known size, decoding sets the fields
    of a fresh APDU one after the other. Both have exactly the effect of the functions in
    apdu.dfy. */
module ApduCodec {
  import opened Wire
  import opened Apdu

  /** A buffer of the given header followed by the payload. */
  method Filled(header: seq<byte>, payload: seq<byte>) returns (out: array<byte>)
    ensures fresh(out) && out[..] == header + payload
  {
    out := new byte[|header| + |payload|];
    forall i | 0 <= i < |header| {
      out[i] := header[i];
    }
    forall i | 0 <= i < |payload| {
      out[|header| + i] := payload[i];
    }
  }

  method EncodeBuffer(a: OutboundAPDU) returns (r: Result<seq<byte>, CodecError>)
    ensures r == Encode(a)
  {
    hide CodeForLength;
    if a.maxSegmentsAccepted > 7 {
      return Err(EncodeFailure);
    }
    var first: int := PduCode(a.pduType) * 16;
    match a.pduType
    case ConfirmedRequest =>
      if a.segmentedMessage || a.moreFollows {
        return Err(SegmentationNotSupported);
      }
      var code := CodeForLength(a.maxAPDULengthAccepted);
      if code.Err? {
        return Err(code.error);
      }
      CodeIsSmall(a.maxAPDULengthAccepted);
      if a.segmentedResponseAccepted {
        first := first + 2;
      }
      var out := Filled([first, a.maxSegmentsAccepted * 16 + code.value, a.invokeID, a.serviceChoice], a.payload);
      r := Ok(out[..]);
    case UnconfirmedRequest =>
      var out := Filled([first, a.serviceChoice], a.payload);
      r := Ok(out[..]);
    case SimpleACK =>
      var out := Filled([first, a.invokeID, a.serviceChoice], a.payload);
      r := Ok(out[..]);
    case ErrorPdu =>
      var out := Filled([first, a.invokeID, a.serviceChoice], a.payload);
      r := Ok(out[..]);
    case ComplexACK =>
      r := EncodeComplexACK(a);
    case Reject =>
      r := EncodeReasoned(a);
    case Abort =>
      r := EncodeReasoned(a);
    case SegmentACK =>
      if a.negativeAck {
        first := first + 2;
      }
      if a.server {
        first := first + 1;
      }
      var out := Filled([first, a.invokeID, a.sequenceNumber, a.actualWindowSize], []);
      assert out[..] == [first, a.invokeID, a.sequenceNumber, a.actualWindowSize];
      r := Ok(out[..]);
  }

  lemma CodeIsSmall(length: uint16)
    requires CodeForLength(length).Ok?
    ensures CodeForLength(length).value < 6
  {
  }

  /** A segment numbered 0 carries the service choice in front of its payload. */
  method EncodeComplexACK(a: OutboundAPDU) returns (r: Result<seq<byte>, CodecError>)
    requires a.pduType == ComplexACK && a.maxSegmentsAccepted <= 7
    ensures r == Encode(a)
  {
    var first: byte := PduCode(ComplexACK) * 16;
    if !a.segmentedMessage {
      var plain := Filled([first, a.invokeID, a.serviceChoice], a.payload);
      return Ok(plain[..]);
    }
    var baseLen := 4 + |a.payload|;
    var payloadOffset: int := 4;
    if a.sequenceNumber == 0 {
      baseLen := baseLen + 1;
      payloadOffset := payloadOffset + 1;
    }
    var out := new byte[baseLen];
    out[0] := first;
    out[0] := out[0] + 8;
    if a.moreFollows {
      out[0] := out[0] + 4;
    }
    out[1] := a.invokeID;
    out[2] := a.sequenceNumber;
    out[3] := a.actualWindowSize;
    if a.sequenceNumber == 0 {
      out[4] := a.serviceChoice;
    }
    forall i | 0 <= i < |a.payload| {
      out[payloadOffset + i] := a.payload[i];
    }
    assert out[..] == Encode(a).value;
    r := Ok(out[..]);
  }

  method EncodeReasoned(a: OutboundAPDU) returns (r: Result<seq<byte>, CodecError>)
    requires (a.pduType == Reject || a.pduType == Abort) && a.maxSegmentsAccepted <= 7
    ensures r == Encode(a)
  {
    if |a.payload| > 1 {
      return Err(EncodeFailure);
    }
    var reason: byte := 0;
    if |a.payload| == 1 {
      reason := a.payload[0];
    }
    var out := new byte[3];
    out[0] := PduCode(a.pduType) * 16;
    if a.pduType == Abort && a.server {
      out[0] := out[0] + 1;
    }
    out[1] := a.invokeID;
    out[2] := reason;
    assert out[..] == Encode(a).value;
    r := Ok(out[..]);
  }

  method DecodeAPDU(raw: seq<byte>) returns (r: Result<InboundAPDU, CodecError>)
    ensures r == Decode(raw)
  {
    hide Has, LengthForCode;
    if |raw| < 1 {
      return Err(DecodeFailure);
    }
    var t := PduForCode(raw[0] / 16);
    if t.None? {
      return Err(InvalidPduType);
    }
    var decoded := Inbound(t.value);
    match t.value
    case ConfirmedRequest =>
      r := DecodeRequest(raw);
    case UnconfirmedRequest =>
      if |raw| < 2 {
        return Err(DecodeFailure);
      }
      decoded := decoded.(serviceChoice := raw[1]);
      r := Ok(decoded.(payload := raw[2..]));
    case SimpleACK =>
      r := DecodeAnswer(raw, decoded);
    case ErrorPdu =>
      r := DecodeAnswer(raw, decoded);
    case ComplexACK =>
      decoded := decoded.(segmentedMessage := Has(raw[0], 8));
      decoded := decoded.(moreFollows := Has(raw[0], 4));
      r := DecodeAnswer(raw, decoded);
    case Reject =>
      if |raw| < 3 {
        return Err(DecodeFailure);
      }
      decoded := decoded.(invokeID := raw[1]);
      r := Ok(decoded.(payload := raw[2..3]));
    case Abort =>
      if |raw| < 3 {
        return Err(DecodeFailure);
      }
      decoded := decoded.(server := Has(raw[0], 1));
      decoded := decoded.(invokeID := raw[1]);
      r := Ok(decoded.(payload := raw[2..3]));
    case SegmentACK =>
      if |raw| < 4 {
        return Err(DecodeFailure);
      }
      decoded := decoded.(negativeAck := Has(raw[0], 2));
      decoded := decoded.(server := Has(raw[0], 1));
      decoded := decoded.(invokeID := raw[1]);
      decoded := decoded.(sequenceNumber := raw[2]);
      decoded := decoded.(actualWindowSize := raw[3]);
      r := Ok(decoded.(proposedWindowSize := raw[3]));
  }

  method DecodeAnswer(raw: seq<byte>, base: InboundAPDU) returns (r: Result<InboundAPDU, CodecError>)
    requires |raw| >= 1
    ensures r == if base.segmentedMessage then DecodeComplexSegment(raw, base) else DecodeAck(raw, base)
  {
    var decoded := base;
    if decoded.segmentedMessage {
      if |raw| < 4 {
        return Err(DecodeFailure);
      }
      decoded := decoded.(invokeID := raw[1]);
      decoded := decoded.(sequenceNumber := raw[2]);
      decoded := decoded.(proposedWindowSize := raw[3]);
      if decoded.sequenceNumber == 0 {
        if |raw| < 5 {
          return Err(DecodeFailure);
        }
        decoded := decoded.(serviceChoice := raw[4]);
        return Ok(decoded.(payload := raw[5..]));
      }
      return Ok(decoded.(payload := raw[4..]));
    }
    if |raw| < 3 {
      return Err(DecodeFailure);
    }
    decoded := decoded.(invokeID := raw[1]);
    decoded := decoded.(serviceChoice := raw[2]);
    r := Ok(decoded.(payload := raw[3..]));
  }

  method DecodeRequest(raw: seq<byte>) returns (r: Result<InboundAPDU, CodecError>)
    requires |raw| >= 1
    ensures r == DecodeConfirmedRequest(raw)
  {
    hide Has, LengthForCode;
    if |raw| < 4 {
      return Err(DecodeFailure);
    }
    var decoded := Inbound(ConfirmedRequest);
    decoded := decoded.(segmentedMessage := Has(raw[0], 8), moreFollows := Has(raw[0], 4));
    decoded := decoded.(segmentedResponseAccepted := Has(raw[0], 2));
    decoded := decoded.(maxSegmentsAccepted := raw[1] / 16 % 8);
    var maxAPDU := LengthForCode(raw[1] % 16);
    if maxAPDU.Err? {
      return Err(maxAPDU.error);
    }
    decoded := decoded.(maxAPDULengthAccepted := maxAPDU.value);
    decoded := decoded.(invokeID := raw[2]);
    if decoded.segmentedMessage {
      if |raw| < 5 {
        return Err(DecodeFailure);
      }
      decoded := decoded.(sequenceNumber := raw[3]);
      decoded := decoded.(proposedWindowSize := raw[4]);
      if decoded.sequenceNumber == 0 {
        if |raw| < 6 {
          return Err(DecodeFailure);
        }
        decoded := decoded.(serviceChoice := raw[5]);
        return Ok(decoded.(payload := raw[6..]));
      }
      return Ok(decoded.(payload := raw[5..]));
    }
    decoded := decoded.(serviceChoice := raw[3]);
    r := Ok(decoded.(payload := raw[4..]));
  }
}
