/** Both ends of an exchange: the requester that sends a request and takes the reply, and the responder
    that answers it. */
module Replies {
  import opened Wire
  import opened Apdu
  import opened MachineSpec
  import opened ServiceTables
  import opened Agreement
  import opened Answers
  import Invokes

  /** The transaction that awaits the reply to a request. */
  predicate Pending(pending: map<byte, Invokes.Transaction>, peer: Address, invokeID: byte, serviceChoice: byte) {
    invokeID in pending && pending[invokeID] == Invokes.Transaction(peer, serviceChoice, true)
  }

  /** The APDU is a reply, so it ends in the requester's tables if anywhere. */
  predicate IsReply(a: InboundAPDU) {
    a.pduType in {SimpleACK, ComplexACK, ErrorPdu, Reject, Abort}
  }

  // --- requests ---

  /** A request goes out exactly when its octets keep within the limit, 0 giving none. */
  lemma RequestFitsExactly(a: OutboundAPDU, maxAPDU: nat)
    requires a.pduType == ConfirmedRequest && Encode(a).Ok?
    ensures Invokes.FitsOne(|a.payload|, maxAPDU) <==> maxAPDU == 0 || |Encode(a).value| <= maxAPDU
  {
  }

  // --- replies ---

  /** A reply concludes a transaction exactly when that awaits one, was for this peer, and was for the
      service the reply names; rejects and aborts name none. */
  lemma ConcludesExactly(pending: map<byte, Invokes.Transaction>, src: Address, a: InboundAPDU)
    requires IsReply(a)
    ensures Invokes.Concludes(pending, src, a).Some?
            <==> exists service: byte ::
                   Pending(pending, src, a.invokeID, service)
                       && (a.pduType in {Reject, Abort} || a.serviceChoice == service)
  {
    if Invokes.Concludes(pending, src, a).Some? {
      assert Pending(pending, src, a.invokeID, pending[a.invokeID].serviceChoice);
    }
  }

  /** What the requester is told for each kind of answer. */
  function Told(payload: seq<byte>, t: ResponseType): Option<Invokes.Confirmation> {
    match t
    case AckType => Some(Invokes.Acknowledged(if payload == [] then None else Some(payload)))
    case ErrorType => Some(Invokes.Refused(ErrorPdu))
    case RejectType => Some(Invokes.Refused(Reject))
    case AbortType => Some(Invokes.Refused(Abort))
    case UnknownType => None
  }

  lemma AnswerDecodes(first: InboundAPDU, payload: seq<byte>, t: ResponseType)
    requires AnswerOctets(first, payload, t).Some?
    ensures var d := Decode(AnswerOctets(first, payload, t).value);
            && d.Ok? && IsReply(d.value) && d.value.invokeID == first.invokeID && !Invokes.Segmented(d.value)
            && (d.value.pduType !in {Reject, Abort} ==> d.value.serviceChoice == first.serviceChoice)
            && Told(payload, t) == Some(Invokes.Confirms(d.value))
  {
    var raw := AnswerOctets(first, payload, t).value;
    match t {
      case AckType => assert raw[3..] == payload;
      case ErrorType => assert raw[3..] == payload;
      case _ =>
    }
  }

  /** The octets of an answer conclude the transaction they answer, with the payload of the answer, and no
      other: not when they come from elsewhere, and not when another service was asked for. */
  lemma AnswerConcludes(pending: map<byte, Invokes.Transaction>, peer: Address, first: InboundAPDU, payload: seq<byte>,
                        t: ResponseType, src: Address)
    requires Pending(pending, peer, first.invokeID, first.serviceChoice) && AnswerOctets(first, payload, t).Some?
    ensures var d := Decode(AnswerOctets(first, payload, t).value);
            && d.Ok?
            && Invokes.Concludes(pending, src, d.value) == (if src == peer then Told(payload, t) else None)
            && Invokes.Rebuffs(pending, src, d.value) == None
  {
    AnswerDecodes(first, payload, t);
    hide AnswerOctets, Decode, Told, Invokes.Confirms;
  }

  /** A segment of a response is not taken: the requester is told so, and the responder gets an Abort,
      reason 4. */
  lemma SegmentsAreRebuffed(pending: map<byte, Invokes.Transaction>, peer: Address, a: OutboundAPDU)
    requires a.pduType == ComplexACK && a.segmentedMessage && a.sequenceNumber == 0 && Encode(a).Ok?
    requires Pending(pending, peer, a.invokeID, a.serviceChoice)
    ensures var d := Decode(Encode(a).value);
            && d.Ok? && Invokes.Concludes(pending, peer, d.value) == Some(Invokes.NotSupported)
            && var abort := Invokes.Rebuffs(pending, peer, d.value);
               abort.Some? && Encode(abort.value) == Ok([0x70, a.invokeID, 4])
  {
    DecodeEncode(a);
    hide Encode, Decode;
    AbortOctets(Decode(Encode(a).value).value);
  }

  lemma AbortOctets(a: InboundAPDU)
    ensures Encode(Invokes.AbortFor(a)) == Ok([0x70, a.invokeID, 4])
  {
  }

  // --- both ends ---

  /** A request on the wire reaches its service, and the answer on the wire reaches whoever asked: for any
      request and any acknowledgement that keeps within the sizes of both sides, the payload the requester
      gets is the one the service returned. */
  lemma ExchangeCompletes(request: OutboundAPDU, cfg: AseConfig, t: Tables, c: Circumstances, payload: seq<byte>,
                          pending: map<byte, Invokes.Transaction>, responder: Address)
    requires request.pduType == ConfirmedRequest && Encode(request).Ok? && c.failAt.None?
    requires Pending(pending, responder, request.invokeID, request.serviceChoice)
    requires var arrived := Decode(Encode(request).value);
             arrived.Ok? ==> WithinBoth(|payload|, arrived.value.maxAPDULengthAccepted, cfg.maxAPDU)
    ensures var arrived := Decode(Encode(request).value);
            && arrived.Ok? && arrived.value.serviceChoice == request.serviceChoice
                && arrived.value.payload == request.payload
            && var r := RequestArrives(cfg, t, c, arrived.value,
                                       ServiceTables.Answers(request.invokeID, c.src, payload, AckType));
               && r.dispatched == Some(arrived.value) && r.err.None? && |r.sent| == 1 && Encode(r.sent[0]).Ok?
               && var reply := Decode(Encode(r.sent[0]).value);
                  && reply.Ok?
                  && Invokes.Concludes(pending, responder, reply.value)
                     == Some(Invokes.Acknowledged(if payload == [] then None else Some(payload)))
  {
    DecodeEncode(request);
    var a := Decode(Encode(request).value).value;
    assert !a.segmentedMessage;
    hide Encode, Decode, RequestArrives, WithinBoth;
    RequestIsAnswered(cfg, t, c, a, payload, AckType);
    AnswerConcludes(pending, responder, a, payload, AckType, responder);
  }
}
