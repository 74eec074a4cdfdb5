/** Whole runs of a segmented response: what any sequence of Segment-ACKs, timeouts and
    other events can make the machine send. */
module Transmission {
  import opened Wire
  import opened Apdu
  import opened MachineSpec
  import opened Segmentation

  datatype Stimulus = Stimulus(event: MachineEvent, input: MachineInput)

  datatype Outcome = Outcome(m: Machine, sent: seq<OutboundAPDU>)

  function SentBy(s: Stepped): seq<OutboundAPDU> {
    if s.result.Ok? then Sent(s.result.value) else []
  }

  /** Feed the stimuli to the machine one by one and collect what it sends. */
  function Run(m: Machine, stimuli: seq<Stimulus>): Outcome
    decreases |stimuli|
  {
    if stimuli == [] then Outcome(m, [])
    else
      var s := Step(m, stimuli[0].event, stimuli[0].input);
      var rest := Run(s.m, stimuli[1..]);
      Outcome(rest.m, SentBy(s) + rest.sent)
  }

  /** The run that begins when the handler returned the response p. */
  function ResponseRun(m: Machine, p: seq<byte>, stimuli: seq<Stimulus>): Outcome {
    Run(m, [Stimulus(ResponseRequiresSegmentation, MachineInput(None, Some(p), Some(AckType)))] + stimuli)
  }

  // --- the invariant ---

  /** The window in flight is the canonical segments initialSequenceNumber up to, and not
      including, sequenceNumber. */
  predicate Sending(m: Machine, c: Cutting) {
    var v := m.vars;
    && Cuts(c, m.cfg) && c.p == v.responsePayload
    && v.initialSequenceNumber < v.sequenceNumber <= c.n
    && v.responsePayloadOffset == Boundary(c, v.initialSequenceNumber)
    && v.responseNextOffset == Boundary(c, v.sequenceNumber)
    && (v.sentAllSegments <==> v.sequenceNumber == c.n)
    && v.retryCount <= m.cfg.maxRetries
    && 1 <= v.actualWindowSize <= NegotiatedWindow(m.cfg)
  }

  predicate Emitted(sent: seq<OutboundAPDU>, k: nat) {
    exists i :: 0 <= i < |sent| && sent[i].pduType == ComplexACK && sent[i].sequenceNumber == k
  }

  /** A canonical segment of the response, whatever window size it announces, or an Abort. */
  predicate Legitimate(cfg: Config, c: Cutting, a: OutboundAPDU)
    requires Cuts(c, cfg)
  {
    if a.pduType == ComplexACK then
      && a.sequenceNumber < c.n
      && 1 <= a.actualWindowSize <= NegotiatedWindow(cfg)
      && a == CanonicalSegment(cfg, c, a.actualWindowSize, a.sequenceNumber)
    else a.pduType == Abort
  }

  predicate AllLegitimate(cfg: Config, c: Cutting, sent: seq<OutboundAPDU>)
    requires Cuts(c, cfg)
  {
    forall i :: 0 <= i < |sent| ==> Legitimate(cfg, c, sent[i])
  }

  /** What holds between the machine and everything it has sent so far. */
  predicate Faithful(m: Machine, c: Cutting, sent: seq<OutboundAPDU>) {
    && Cuts(c, m.cfg)
    && AllLegitimate(m.cfg, c, sent)
    && match m.state
       case AwaitSegmentACK => Sending(m, c) && forall k: nat :: k < m.vars.sequenceNumber ==> Emitted(sent, k)
       case Completed => forall k: nat :: k < c.n ==> Emitted(sent, k)
       case Aborted => true
       case _ => false
  }

  lemma EmittedGrows(sent: seq<OutboundAPDU>, more: seq<OutboundAPDU>, k: nat)
    requires Emitted(sent, k) || Emitted(more, k)
    ensures Emitted(sent + more, k)
  {
    if Emitted(sent, k) {
      var i :| 0 <= i < |sent| && sent[i].pduType == ComplexACK && sent[i].sequenceNumber == k;
      assert (sent + more)[i] == sent[i];
    } else {
      var i :| 0 <= i < |more| && more[i].pduType == ComplexACK && more[i].sequenceNumber == k;
      assert (sent + more)[|sent| + i] == more[i];
    }
  }

  /** The machine is about to send the window that begins at segment sequenceNumber. */
  predicate Ready(m: Machine, c: Cutting) {
    && Cuts(c, m.cfg) && c.p == m.vars.responsePayload && m.vars.sequenceNumber < c.n
    && m.vars.responsePayloadOffset == Boundary(c, m.vars.sequenceNumber)
    && m.vars.retryCount <= m.cfg.maxRetries
    && 1 <= m.vars.actualWindowSize <= NegotiatedWindow(m.cfg)
  }

  /** Building a window never fails while sending: it yields one to window-size many
      canonical segments, beginning with the window's base. */
  lemma SendWindowSends(m: Machine, c: Cutting)
    requires Ready(m, c)
    ensures var s := SendWindow(m);
            var k := m.vars.sequenceNumber;
            var j := Min(k + m.vars.actualWindowSize, c.n);
            && s.result.Ok?
            && SentBy(s) == SegmentRun(m.cfg, c, m.vars.actualWindowSize, k, j)
            && s.m.cfg == m.cfg && s.m.state == m.state && Sending(s.m, c)
            && s.m.vars.initialSequenceNumber == k && s.m.vars.sequenceNumber == j
            && s.m.vars.retryCount == m.vars.retryCount
            && s.m.vars.actualWindowSize == m.vars.actualWindowSize
  {
    WindowIsCanonical(m, c, m.vars.sequenceNumber, m.vars.actualWindowSize);
  }

  lemma RunIsLegitimate(cfg: Config, c: Cutting, w: byte, k0: nat, j: nat, sent: seq<OutboundAPDU>)
    requires Cuts(c, cfg) && k0 <= j <= c.n
    requires 1 <= w <= NegotiatedWindow(cfg)
    requires AllLegitimate(cfg, c, sent)
    ensures AllLegitimate(cfg, c, sent + SegmentRun(cfg, c, w, k0, j))
  {
    var batch := SegmentRun(cfg, c, w, k0, j);
    forall i | 0 <= i < |sent + batch|
      ensures Legitimate(cfg, c, (sent + batch)[i])
    {
      if i < |sent| {
        assert (sent + batch)[i] == sent[i];
      } else {
        assert (sent + batch)[i] == batch[i - |sent|] == CanonicalSegment(cfg, c, w, k0 + (i - |sent|));
      }
    }
  }

  lemma RunIsEmitted(cfg: Config, c: Cutting, w: byte, k0: nat, j: nat, sent: seq<OutboundAPDU>, k: nat)
    requires Cuts(c, cfg) && k0 <= j <= c.n && k < j
    requires k < k0 ==> Emitted(sent, k)
    ensures Emitted(sent + SegmentRun(cfg, c, w, k0, j), k)
  {
    var batch := SegmentRun(cfg, c, w, k0, j);
    if k >= k0 {
      assert batch[k - k0] == CanonicalSegment(cfg, c, w, k);
    }
    EmittedGrows(sent, batch, k);
  }

  lemma SendWindowIsFaithful(m: Machine, c: Cutting, sent: seq<OutboundAPDU>)
    requires Ready(m, c)
    requires AllLegitimate(m.cfg, c, sent)
    requires forall k: nat :: k < m.vars.sequenceNumber ==> Emitted(sent, k)
    ensures var s := SendWindow(m);
            && AllLegitimate(m.cfg, c, sent + SentBy(s))
            && forall k: nat :: k < s.m.vars.sequenceNumber ==> Emitted(sent + SentBy(s), k)
  {
    SendWindowSends(m, c);
    var j := Min(m.vars.sequenceNumber + m.vars.actualWindowSize, c.n);
    RunIsLegitimate(m.cfg, c, m.vars.actualWindowSize, m.vars.sequenceNumber, j, sent);
    forall k: nat | k < j
      ensures Emitted(sent + SentBy(SendWindow(m)), k)
    {
      RunIsEmitted(m.cfg, c, m.vars.actualWindowSize, m.vars.sequenceNumber, j, sent, k);
    }
  }

  /** The machine after a positive Segment-ACK inside the window, ready for the next window. */
  function Advanced(m: Machine): Machine {
    m.(vars := m.vars.(retryCount := 0, responsePayloadOffset := m.vars.responseNextOffset))
  }

  /** The machine about to repeat its window. */
  function Rewound(m: Machine): Machine
    requires m.vars.retryCount < m.cfg.maxRetries
  {
    m.(vars := m.vars.(retryCount := m.vars.retryCount + 1, sequenceNumber := m.vars.initialSequenceNumber))
  }

  lemma RetryIsFaithful(m: Machine, c: Cutting, sent: seq<OutboundAPDU>)
    requires m.state == AwaitSegmentACK && Faithful(m, c, sent)
    ensures var s := Retry(m);
            s.m.cfg == m.cfg && s.result.Ok? && Faithful(s.m, c, sent + SentBy(s))
  {
    if m.vars.retryCount < m.cfg.maxRetries {
      SendWindowSends(Rewound(m), c);
      SendWindowIsFaithful(Rewound(m), c, sent);
    }
  }

  lemma AckIsFaithful(m: Machine, c: Cutting, sent: seq<OutboundAPDU>, input: MachineInput)
    requires m.state == AwaitSegmentACK && Faithful(m, c, sent) && input.inbound.Some?
    ensures var s := Step(m, InboundSegmentACK, input);
            s.m.cfg == m.cfg && s.result.Ok? && Faithful(s.m, c, sent + SentBy(s))
  {
    var ack := input.inbound.value;
    var n := WindowAdopted(m, ack);
    if ack.negativeAck || !InWindow(n.vars, ack.sequenceNumber, n.vars.initialSequenceNumber) {
      RetryIsFaithful(n, c, sent);
    } else if n.vars.sentAllSegments {
      assert sent + [] == sent;
    } else {
      SendWindowSends(Advanced(n), c);
      SendWindowIsFaithful(Advanced(n), c, sent);
    }
  }

  /** Every event keeps the invariant, and while sending a Segment-ACK or a timeout never errs. */
  lemma StepIsFaithful(m: Machine, c: Cutting, sent: seq<OutboundAPDU>, event: MachineEvent, input: MachineInput)
    requires Faithful(m, c, sent)
    ensures var s := Step(m, event, input);
            s.m.cfg == m.cfg && Faithful(s.m, c, sent + SentBy(s))
    ensures m.state == AwaitSegmentACK && Prods(event, input) ==> Step(m, event, input).result.Ok?
  {
    if m.state == AwaitSegmentACK && event == Timeout {
      RetryIsFaithful(m, c, sent);
    } else if m.state == AwaitSegmentACK && Prods(event, input) {
      AckIsFaithful(m, c, sent, input);
    } else {
      assert sent + [] == sent;
      assert SentBy(Step(m, event, input)) == [];
    }
  }

  lemma {:induction false} RunIsFaithful(m: Machine, c: Cutting, sent: seq<OutboundAPDU>, stimuli: seq<Stimulus>)
    requires Faithful(m, c, sent)
    ensures var o := Run(m, stimuli); o.m.cfg == m.cfg && Faithful(o.m, c, sent + o.sent)
    decreases |stimuli|
  {
    if stimuli == [] {
      assert sent + [] == sent;
    } else {
      var s := Step(m, stimuli[0].event, stimuli[0].input);
      StepIsFaithful(m, c, sent, stimuli[0].event, stimuli[0].input);
      RunIsFaithful(s.m, c, sent + SentBy(s), stimuli[1..]);
      assert sent + (SentBy(s) + Run(s.m, stimuli[1..]).sent) == sent + SentBy(s) + Run(s.m, stimuli[1..]).sent;
    }
  }

  lemma StartIsFaithful(m: Machine, p: seq<byte>)
    requires m.state == AwaitResponse && Segmentable(m.cfg, p)
    ensures var s := StartSegmentedResponse(m, p);
            && s.result.Ok? && s.m.state == AwaitSegmentACK && s.m.cfg == m.cfg
            && Faithful(s.m, CuttingOf(m.cfg, p), SentBy(s))
            && s.m.vars.initialSequenceNumber == 0 && s.m.vars.retryCount == 0
  {
    CuttingIsGood(m.cfg, p);
    var c := CuttingOf(m.cfg, p);
    BoundaryNext(c, 0);
    SendWindowSends(Prepared(m, p), c);
    SendWindowIsFaithful(Prepared(m, p), c, []);
    var s := StartSegmentedResponse(m, p);
    assert [] + SentBy(s) == SentBy(s);
  }

  lemma {:induction false} ResponseRunUnfolds(m: Machine, p: seq<byte>, stimuli: seq<Stimulus>)
    requires m.state == AwaitResponse && Segmentable(m.cfg, p)
    ensures var s := StartSegmentedResponse(m, p);
            var rest := Run(s.m, stimuli);
            ResponseRun(m, p, stimuli) == Outcome(rest.m, SentBy(s) + rest.sent)
  {
    var first := Stimulus(ResponseRequiresSegmentation, MachineInput(None, Some(p), Some(AckType)));
    assert ([first] + stimuli)[1..] == stimuli;
    assert Step(m, first.event, first.input) == StartSegmentedResponse(m, p);
  }

  lemma {:induction false} ResponseRunIsFaithful(m: Machine, p: seq<byte>, stimuli: seq<Stimulus>)
    requires m.state == AwaitResponse && Segmentable(m.cfg, p)
    ensures var o := ResponseRun(m, p, stimuli);
            o.m.cfg == m.cfg && Faithful(o.m, CuttingOf(m.cfg, p), o.sent)
  {
    StartIsFaithful(m, p);
    ResponseRunUnfolds(m, p, stimuli);
    var s := StartSegmentedResponse(m, p);
    RunIsFaithful(s.m, CuttingOf(m.cfg, p), SentBy(s), stimuli);
  }

  // --- refinement ---

  /** Whatever the peer and the clock do, each segment numbered k carries exactly the k-th
      canonical slice of the response, and announces more to follow exactly when it is not the
      last. No sequence number wraps. */
  lemma {:induction false} EverySegmentIsCanonical(m: Machine, p: seq<byte>, stimuli: seq<Stimulus>, i: nat)
    requires m.state == AwaitResponse && Segmentable(m.cfg, p)
    requires var o := ResponseRun(m, p, stimuli); i < |o.sent| && o.sent[i].pduType == ComplexACK
    ensures var pieces := Cut(p, PayloadLimit(m.cfg, 0), PayloadLimit(m.cfg, 1));
            var a := ResponseRun(m, p, stimuli).sent[i];
            && a.segmentedMessage
            && a.sequenceNumber < |pieces| && a.payload == pieces[a.sequenceNumber]
            && (a.moreFollows <==> a.sequenceNumber + 1 < |pieces|)
            && a.invokeID == m.cfg.invokeID && a.serviceChoice == m.cfg.serviceChoice
            && 1 <= a.actualWindowSize <= NegotiatedWindow(m.cfg)
  {
    ResponseRunIsFaithful(m, p, stimuli);
    var c := CuttingOf(m.cfg, p);
    CuttingIsGood(m.cfg, p);
    CountIsCut(m.cfg, p);
    BoundaryNext(c, 0);
    CutFrom(c, 0);
    assert p[0..] == p;
    assert Legitimate(m.cfg, c, ResponseRun(m, p, stimuli).sent[i]);
  }

  /** Two transmissions with one sequence number differ in the window size at most. */
  lemma {:induction false} RetransmissionsAgree(m: Machine, p: seq<byte>, stimuli: seq<Stimulus>, i: nat, j: nat)
    requires m.state == AwaitResponse && Segmentable(m.cfg, p)
    requires var sent := ResponseRun(m, p, stimuli).sent;
             && i < |sent| && j < |sent|
             && sent[i].pduType == ComplexACK && sent[j].pduType == ComplexACK
             && sent[i].sequenceNumber == sent[j].sequenceNumber
    ensures var sent := ResponseRun(m, p, stimuli).sent;
            sent[i] == sent[j].(actualWindowSize := sent[i].actualWindowSize)
  {
    ResponseRunIsFaithful(m, p, stimuli);
    var c := CuttingOf(m.cfg, p);
    CuttingIsGood(m.cfg, p);
    var sent := ResponseRun(m, p, stimuli).sent;
    assert Legitimate(m.cfg, c, sent[i]) && Legitimate(m.cfg, c, sent[j]);
  }

  /** Every APDU of the run encodes, and within the size both sides agreed on. */
  lemma {:induction false} EverySegmentFits(m: Machine, p: seq<byte>, stimuli: seq<Stimulus>, i: nat)
    requires m.state == AwaitResponse && Segmentable(m.cfg, p)
    requires var sent := ResponseRun(m, p, stimuli).sent; i < |sent| && sent[i].pduType == ComplexACK
    ensures var raw := Encode(ResponseRun(m, p, stimuli).sent[i]);
            raw.Ok? && |raw.value| <= ResponseAPDULimit(m.cfg)
  {
    ResponseRunIsFaithful(m, p, stimuli);
    var c := CuttingOf(m.cfg, p);
    CuttingIsGood(m.cfg, p);
    var a := ResponseRun(m, p, stimuli).sent[i];
    assert Legitimate(m.cfg, c, a);
    SegmentFits(m.cfg, c, a.actualWindowSize, a.sequenceNumber);
  }

  /** The octets of an answer that is not segmented: only acknowledgements with a result and errors
      carry what the handler returned. */
  function AnswerLength(t: PduType, length: nat): nat {
    if t == ComplexACK || t == ErrorPdu then 3 + length else 3
  }

  /** An answer sent in one APDU stays within the agreed size exactly when it does so together with
      its header, although only the handler's octets are compared with that size beforehand. */
  lemma UnsegmentedFitsExactly(m: Machine, p: seq<byte>, t: ResponseType)
    requires m.state == AwaitResponse && !MaxAPDUSizeExceeded(m.cfg, |p|)
    ensures var s := Step(m, ResponseReady, MachineInput(None, Some(p), Some(t)));
            && (s.result.Ok? <==> t != UnknownType)
            && (s.result.Ok? ==>
                  && s.m.state == Completed && |Sent(s.result.value)| == 1
                  && var a := Sent(s.result.value)[0];
                     && (Encode(a).Ok? <==> (t == RejectType || t == AbortType ==> |p| <= 1))
                     && (Encode(a).Ok? ==>
                           (|Encode(a).value| <= ResponseAPDULimit(m.cfg)
                            <==> AnswerLength(a.pduType, |p|) <= ResponseAPDULimit(m.cfg))))
  {
  }

  /** An acknowledged answer that fills the agreed size to the last octet goes out in one APDU that
      exceeds it by its header. */
  lemma FullAnswerIsTooLong(m: Machine, p: seq<byte>)
    requires m.state == AwaitResponse && |p| == ResponseAPDULimit(m.cfg) > 0
    ensures var s := Step(m, ResponseReady, MachineInput(None, Some(p), Some(AckType)));
            && s.result.Ok? && |Sent(s.result.value)| == 1
            && var raw := Encode(Sent(s.result.value)[0]);
               raw.Ok? && |raw.value| == ResponseAPDULimit(m.cfg) + 3
  {
  }

  // --- completeness on the wire ---

  /** A copy of segment k that the requester got off the wire. */
  predicate Received(sent: seq<OutboundAPDU>, copy: InboundAPDU, k: nat) {
    && copy.pduType == ComplexACK && copy.segmentedMessage && copy.sequenceNumber == k
    && exists i :: 0 <= i < |sent| && Encode(sent[i]).Ok? && Decode(Encode(sent[i]).value) == Ok(copy)
  }

  function Payloads(copies: seq<InboundAPDU>): (s: seq<seq<byte>>)
    ensures |s| == |copies|
    ensures forall k :: 0 <= k < |s| ==> s[k] == copies[k].payload
  {
    if copies == [] then [] else [copies[0].payload] + Payloads(copies[1..])
  }

  lemma ReceivedCopy(cfg: Config, c: Cutting, sent: seq<OutboundAPDU>, copy: InboundAPDU, k: nat)
    requires Cuts(c, cfg) && AllLegitimate(cfg, c, sent) && Received(sent, copy, k)
    ensures k < c.n && copy.payload == Slice(c, k)
    ensures copy.moreFollows <==> k + 1 < c.n
    ensures copy.invokeID == cfg.invokeID && (k == 0 ==> copy.serviceChoice == cfg.serviceChoice)
  {
    var i :| 0 <= i < |sent| && Encode(sent[i]).Ok? && Decode(Encode(sent[i]).value) == Ok(copy);
    DecodeEncode(sent[i]);
    assert Legitimate(cfg, c, sent[i]);
  }

  /** Decoding any one copy of each segment and concatenating the copies in sequence order,
      up to the one that announces no more, gives back the handler's response. */
  lemma {:induction false} AnyCopiesReassemble(m: Machine, p: seq<byte>, stimuli: seq<Stimulus>,
                                               copies: seq<InboundAPDU>)
    requires m.state == AwaitResponse && Segmentable(m.cfg, p)
    requires |copies| > 0
    requires forall k: nat :: k < |copies| ==> Received(ResponseRun(m, p, stimuli).sent, copies[k], k)
    requires !copies[|copies| - 1].moreFollows
    ensures Concat(Payloads(copies)) == p
    ensures copies[0].serviceChoice == m.cfg.serviceChoice
  {
    hide SegmentCount, CanSegmentResponse, ResponseRun, Received;
    ResponseRunIsFaithful(m, p, stimuli);
    var sent := ResponseRun(m, p, stimuli).sent;
    var c := CuttingOf(m.cfg, p);
    CuttingIsGood(m.cfg, p);
    forall k: nat | k < |copies|
      ensures k < c.n && copies[k].payload == Slice(c, k)
      ensures copies[k].moreFollows <==> k + 1 < c.n
      ensures k == 0 ==> copies[k].serviceChoice == m.cfg.serviceChoice
    {
      ReceivedCopy(m.cfg, c, sent, copies[k], k);
    }
    assert |copies| == c.n;
    assert Payloads(copies) == SlicesFrom(c, 0);
    SlicesConcat(c, 0);
    BoundaryNext(c, 0);
    assert p[0..] == p;
  }

  /** The machine completes only after every segment has been sent, and each sent segment can
      be decoded by the requester. */
  lemma {:induction false} CompletedMeansAllSent(m: Machine, p: seq<byte>, stimuli: seq<Stimulus>, k: nat)
    requires m.state == AwaitResponse && Segmentable(m.cfg, p)
    requires ResponseRun(m, p, stimuli).m.state == Completed
    requires k < SegmentCount(m.cfg, |p|)
    ensures exists copy :: Received(ResponseRun(m, p, stimuli).sent, copy, k)
  {
    ResponseRunIsFaithful(m, p, stimuli);
    CuttingIsGood(m.cfg, p);
    var c := CuttingOf(m.cfg, p);
    var sent := ResponseRun(m, p, stimuli).sent;
    assert Emitted(sent, k);
    var i :| 0 <= i < |sent| && sent[i].pduType == ComplexACK && sent[i].sequenceNumber == k;
    assert Legitimate(m.cfg, c, sent[i]);
    DecodeEncode(sent[i]);
    var copy := Decode(Encode(sent[i]).value).value;
    assert Received(sent, copy, k);
  }

  // --- termination ---

  /** The events that drive the exchange: a Segment-ACK or the expiry of the timer. */
  predicate Prods(event: MachineEvent, input: MachineInput) {
    event == Timeout || (event == InboundSegmentACK && input.inbound.Some?)
  }

  /** What is left: segments not yet advanced past, each worth one try and every retry; without
      retries the window in flight cannot be cut up any more and is worth one. */
  function Fuel(m: Machine, c: Cutting): int {
    if m.state != AwaitSegmentACK then 0
    else if m.cfg.maxRetries == 0 then c.n - m.vars.sequenceNumber + 1
    else (c.n - m.vars.initialSequenceNumber) * (m.cfg.maxRetries + 1) - m.vars.retryCount
  }

  /** The most Segment-ACKs and timeouts an exchange of n segments may see. */
  function WorstCase(cfg: Config, n: nat): int {
    if cfg.maxRetries == 0 then n - Min(NegotiatedWindow(cfg), n) + 1 else n * (cfg.maxRetries + 1)
  }

  lemma Distribute(a: nat, b: nat, tries: nat)
    ensures (a + b) * tries == a * tries + b * tries
    ensures b > 0 ==> b * tries >= tries
  {
    if b > 0 {
      assert b * tries == tries + (b - 1) * tries;
    }
  }

  lemma AdvanceSpends(n: nat, i: nat, j: nat, tries: nat)
    requires i < j <= n
    ensures (n - j) * tries + tries <= (n - i) * tries
  {
    Distribute(n - j, j - i, tries);
  }

  lemma RetrySpends(m: Machine, c: Cutting)
    requires m.state == AwaitSegmentACK && Sending(m, c)
    ensures Fuel(m, c) > 0
    ensures var s := Retry(m).m;
            if s.state == AwaitSegmentACK then Fuel(s, c) < Fuel(m, c) else s.state == Aborted
  {
    hide SendWindow, Cuts, Boundary, NegotiatedWindow;
    AdvanceSpends(c.n, m.vars.initialSequenceNumber, c.n, m.cfg.maxRetries + 1);
    if m.vars.retryCount < m.cfg.maxRetries {
      SendWindowSends(Rewound(m), c);
    }
  }

  lemma AdvanceFuel(m: Machine, c: Cutting)
    requires m.state == AwaitSegmentACK && Sending(m, c) && !m.vars.sentAllSegments
    ensures var s := SendWindow(Advanced(m)).m; s.state == AwaitSegmentACK && Fuel(s, c) < Fuel(m, c)
  {
    SendWindowSends(Advanced(m), c);
    AdvanceSpends(c.n, m.vars.initialSequenceNumber, m.vars.sequenceNumber, m.cfg.maxRetries + 1);
  }

  /** While sending there is fuel, and every Segment-ACK or timeout burns some or ends the exchange. */
  lemma StepSpends(m: Machine, c: Cutting, event: MachineEvent, input: MachineInput)
    requires m.state == AwaitSegmentACK && Sending(m, c) && Prods(event, input)
    ensures Fuel(m, c) > 0
    ensures var s := Step(m, event, input).m;
            if s.state == AwaitSegmentACK then Fuel(s, c) < Fuel(m, c)
            else s.state == Completed || s.state == Aborted
  {
    hide SendWindow, Retry, Cuts, Boundary, NegotiatedWindow, NormalizedWindow, InWindow;
    RetrySpends(m, c);
    if event == InboundSegmentACK {
      var n := WindowAdopted(m, input.inbound.value);
      assert Fuel(n, c) == Fuel(m, c);
      RetrySpends(n, c);
      if !n.vars.sentAllSegments {
        AdvanceFuel(n, c);
      }
    }
  }

  /** How many of the events drive the exchange. */
  function ProdCount(stimuli: seq<Stimulus>): nat
    decreases |stimuli|
  {
    if stimuli == [] then 0
    else (if Prods(stimuli[0].event, stimuli[0].input) then 1 else 0) + ProdCount(stimuli[1..])
  }

  /** Any other event leaves a sending machine as it is, or ends the exchange. */
  lemma OthersDoNotMove(m: Machine, event: MachineEvent, input: MachineInput)
    requires m.state == AwaitSegmentACK && !Prods(event, input)
    ensures var s := Step(m, event, input).m; s == m || s.state == Aborted
  {
  }

  lemma {:induction false} RunSpends(m: Machine, c: Cutting, sent: seq<OutboundAPDU>, stimuli: seq<Stimulus>)
    requires Faithful(m, c, sent) && ProdCount(stimuli) >= Fuel(m, c)
    ensures var o := Run(m, stimuli); o.m.state == Completed || o.m.state == Aborted
    decreases |stimuli|
  {
    if stimuli == [] {
      if m.state == AwaitSegmentACK {
        StepSpends(m, c, Timeout, MachineInput(None, None, None));
      }
    } else {
      var s := Step(m, stimuli[0].event, stimuli[0].input);
      StepIsFaithful(m, c, sent, stimuli[0].event, stimuli[0].input);
      FuelFalls(m, c, sent, stimuli);
      hide Step, Faithful, Fuel, ProdCount, Prods;
      RunSpends(s.m, c, sent + SentBy(s), stimuli[1..]);
    }
  }

  lemma FuelFalls(m: Machine, c: Cutting, sent: seq<OutboundAPDU>, stimuli: seq<Stimulus>)
    requires Faithful(m, c, sent) && stimuli != [] && ProdCount(stimuli) >= Fuel(m, c)
    ensures ProdCount(stimuli[1..]) >= Fuel(Step(m, stimuli[0].event, stimuli[0].input).m, c)
  {
    var x := stimuli[0];
    if m.state == AwaitSegmentACK {
      if Prods(x.event, x.input) {
        StepSpends(m, c, x.event, x.input);
      } else {
        OthersDoNotMove(m, x.event, x.input);
      }
      hide Step, AllLegitimate, Cuts, Emitted;
    }
  }

  /** A cutting starts with one try and every retry for each segment. */
  lemma FreshRunSpends(m: Machine, c: Cutting, sent: seq<OutboundAPDU>, stimuli: seq<Stimulus>, n: nat)
    requires Faithful(m, c, sent) && m.state == AwaitSegmentACK
    requires m.vars.initialSequenceNumber == 0 && m.vars.retryCount == 0
    requires c.n == n && m.vars.sequenceNumber == Min(NegotiatedWindow(m.cfg), n)
    requires WorstCase(m.cfg, n) <= ProdCount(stimuli)
    ensures var o := Run(m, stimuli); o.m.state == Completed || o.m.state == Aborted
  {
    hide Run, ProdCount, Faithful, NegotiatedWindow;
    assert c.n - m.vars.initialSequenceNumber == n;
    RunSpends(m, c, sent, stimuli);
  }

  /** A response begins with its first window, of the negotiated size. */
  lemma StartWindow(m: Machine, p: seq<byte>)
    requires m.state == AwaitResponse && Segmentable(m.cfg, p)
    ensures var c := CuttingOf(m.cfg, p);
            var n := StartSegmentedResponse(m, p).m;
            && 2 <= c.n <= 65 && Sending(n, c) && n.state == AwaitSegmentACK && n.cfg == m.cfg
            && n.vars.initialSequenceNumber == 0 && n.vars.retryCount == 0
            && n.vars.sequenceNumber == Min(NegotiatedWindow(m.cfg), c.n)
            && n.vars.actualWindowSize == NegotiatedWindow(m.cfg)
  {
    var c := CuttingOf(m.cfg, p);
    CuttingIsGood(m.cfg, p);
    BoundaryNext(c, 0);
    SendWindowSends(Prepared(m, p), c);
    hide SendWindow, SegmentCount, CanSegmentResponse, Boundary, Good;
  }

  lemma CutCount(cfg: Config, p: seq<byte>)
    requires Segmentable(cfg, p)
    ensures CuttingOf(cfg, p).n == SegmentCount(cfg, |p|) >= 0
  {
  }

  /** Every exchange is over once it has seen its worst case of Segment-ACKs and timeouts, whatever
      else happens in between. */
  lemma {:induction false} ResponseTerminates(m: Machine, p: seq<byte>, stimuli: seq<Stimulus>)
    requires m.state == AwaitResponse && Segmentable(m.cfg, p)
    requires SegmentCount(m.cfg, |p|) >= 0 ==> ProdCount(stimuli) >= WorstCase(m.cfg, SegmentCount(m.cfg, |p|))
    ensures var o := ResponseRun(m, p, stimuli); o.m.state == Completed || o.m.state == Aborted
  {
    hide Run, ResponseRun, ProdCount, Faithful, Segmentable, SegmentCount, StartSegmentedResponse, CuttingOf, SentBy,
         WorstCase;
    StartIsFaithful(m, p);
    StartWindow(m, p);
    ResponseRunUnfolds(m, p, stimuli);
    CutCount(m.cfg, p);
    var s := StartSegmentedResponse(m, p);
    FreshRunSpends(s.m, CuttingOf(m.cfg, p), SentBy(s), stimuli, SegmentCount(m.cfg, |p|));
  }

  // --- what one Segment-ACK acknowledges ---

  /** The acknowledgement is positive and its number lies in the window, counted with the size
      it announces. */
  predicate Acknowledges(m: Machine, ack: InboundAPDU) {
    !ack.negativeAck && InWindow(WindowAdopted(m, ack).vars, ack.sequenceNumber, m.vars.initialSequenceNumber)
  }

  /** A positive Segment-ACK for any segment of the window, even its first, moves on past the
      whole window, and ends the exchange when that was the last one; any other repeats the
      window. */
  lemma AckMeansWholeWindow(m: Machine, c: Cutting, ack: InboundAPDU)
    requires m.state == AwaitSegmentACK && Sending(m, c)
    ensures var s := Step(m, InboundSegmentACK, MachineInput(Some(ack), None, None)).m;
            if !Acknowledges(m, ack) then
              || s.state == Aborted
              || (s.state == AwaitSegmentACK && s.vars.initialSequenceNumber == m.vars.initialSequenceNumber)
            else if m.vars.sequenceNumber == c.n then s.state == Completed
            else
              && s.state == AwaitSegmentACK && s.vars.initialSequenceNumber == m.vars.sequenceNumber
              && s.vars.retryCount == 0
  {
    hide InWindow, SendWindow, NormalizedWindow, Cuts, Boundary;
    var n := WindowAdopted(m, ack);
    if Acknowledges(m, ack) {
      if !n.vars.sentAllSegments {
        SendWindowSends(Advanced(n), c);
      }
    } else if n.vars.retryCount < n.cfg.maxRetries {
      SendWindowSends(Rewound(n), c);
    }
  }

  // --- the bound on events is reached ---

  const Expiry: Stimulus := Stimulus(Timeout, MachineInput(None, None, None))

  function Acknowledge(k: byte): Stimulus {
    Stimulus(InboundSegmentACK, MachineInput(Some(Inbound(SegmentACK).(sequenceNumber := k)), None, None))
  }

  predicate AllProd(stimuli: seq<Stimulus>) {
    forall i :: 0 <= i < |stimuli| ==> Prods(stimuli[i].event, stimuli[i].input)
  }

  lemma {:induction false} AllProdCount(stimuli: seq<Stimulus>)
    requires AllProd(stimuli)
    ensures ProdCount(stimuli) == |stimuli|
    decreases |stimuli|
  {
    hide Prods;
    if stimuli != [] {
      assert Prods(stimuli[0].event, stimuli[0].input);
      AllProdCount(stimuli[1..]);
    }
  }

  function Expiries(r: nat): (s: seq<Stimulus>)
    ensures |s| == r && AllProd(s)
  {
    if r == 0 then [] else [Expiry] + Expiries(r - 1)
  }

  /** Every retry of every segment from k on is used up before its acknowledgement comes; the
      last acknowledgement never does. */
  function Slowest(n: nat, k: nat, retries: nat): (s: seq<Stimulus>)
    requires k < n <= 65
    ensures AllProd(s)
    decreases n - k
  {
    if k + 1 == n then Expiries(retries) else Expiries(retries) + ([Acknowledge(k)] + Slowest(n, k + 1, retries))
  }

  lemma {:induction false} SlowestLength(n: nat, k: nat, retries: nat)
    requires k < n <= 65
    ensures |Slowest(n, k, retries)| == (n - k) * (retries + 1) - 1
    decreases n - k
  {
    if k + 1 < n {
      SlowestLength(n, k + 1, retries);
      assert (n - k) * (retries + 1) == (n - (k + 1)) * (retries + 1) + (retries + 1);
    }
  }

  lemma {:induction false} RunAppends(m: Machine, a: seq<Stimulus>, b: seq<Stimulus>)
    ensures Run(m, a + b).m == Run(Run(m, a).m, b).m
    decreases |a|
  {
    hide Step;
    if a == [] {
      assert a + b == b;
    } else {
      assert (a + b)[1..] == a[1..] + b;
      RunAppends(Step(m, a[0].event, a[0].input).m, a[1..], b);
    }
  }

  /** One segment at a time is in flight, segment k. */
  predicate Single(m: Machine, c: Cutting, k: nat, retries: nat) {
    && m.state == AwaitSegmentACK && Sending(m, c) && m.vars.initialSequenceNumber == k
        && m.vars.sequenceNumber == k + 1
    && m.vars.retryCount == retries && m.vars.actualWindowSize == 1
  }

  lemma {:induction false} ExpiriesAreSurvived(m: Machine, c: Cutting, k: nat, done: nat, r: nat)
    requires Single(m, c, k, done) && done + r <= m.cfg.maxRetries
    ensures var o := Run(m, Expiries(r)).m; Single(o, c, k, done + r) && o.cfg == m.cfg
    decreases r
  {
    hide SendWindow, Cuts, Boundary, NegotiatedWindow;
    if r > 0 {
      SendWindowSends(Rewound(m), c);
      var s := Step(m, Timeout, Expiry.input);
      assert s == SendWindow(Rewound(m));
      assert Expiries(r)[1..] == Expiries(r - 1);
      ExpiriesAreSurvived(s.m, c, k, done + 1, r - 1);
    }
  }

  lemma SingleIsOpen(m: Machine, c: Cutting, k: nat, retries: nat)
    requires Single(m, c, k, retries)
    ensures m.state == AwaitSegmentACK && c.n <= 65
  {
  }

  lemma RunSteps(m: Machine, x: Stimulus, rest: seq<Stimulus>)
    ensures Run(m, [x] + rest).m == Run(Step(m, x.event, x.input).m, rest).m
  {
    hide Step;
    assert ([x] + rest)[1..] == rest;
  }

  lemma {:induction false} SlowestIsSurvived(m: Machine, c: Cutting, k: nat)
    requires Single(m, c, k, 0) && k < c.n <= 65
    ensures Run(m, Slowest(c.n, k, m.cfg.maxRetries)).m.state == AwaitSegmentACK
    decreases c.n - k
  {
    hide AllProd, Expiries, Single, Run, Step;
    var r: nat := m.cfg.maxRetries;
    ExpiriesAreSurvived(m, c, k, 0, r);
    var o := Run(m, Expiries(r)).m;
    SingleIsOpen(o, c, k, r);
    if k + 1 < c.n {
      var rest := Slowest(c.n, k + 1, r);
      RunAppends(m, Expiries(r), [Acknowledge(k)] + rest);
      AcknowledgedSingle(o, c, k, r);
      RunSteps(o, Acknowledge(k), rest);
      SlowestIsSurvived(Step(o, InboundSegmentACK, Acknowledge(k).input).m, c, k + 1);
    }
  }

  lemma AcknowledgedSingle(m: Machine, c: Cutting, k: nat, retries: nat)
    requires Single(m, c, k, retries) && k + 1 < c.n
    ensures var s := Step(m, InboundSegmentACK, Acknowledge(k).input).m; Single(s, c, k + 1, 0) && s.cfg == m.cfg
  {
    SendWindowSends(Advanced(m), c);
  }

  /** The two ways to cut a window up into single segments: ask for it again one by one, or, when
      there are no retries, acknowledge its first segment and ask for the rest one by one. */
  const Again: Stimulus :=
    Stimulus(InboundSegmentACK,
             MachineInput(Some(Inbound(SegmentACK).(negativeAck := true, actualWindowSize := 1)), None, None))

  const Singly: Stimulus :=
    Stimulus(InboundSegmentACK, MachineInput(Some(Inbound(SegmentACK).(actualWindowSize := 1)), None, None))

  lemma AgainIsSingle(m: Machine, c: Cutting)
    requires m.state == AwaitSegmentACK && Sending(m, c) && m.cfg.maxRetries > 0
    requires m.vars.initialSequenceNumber == 0 && m.vars.retryCount == 0
    ensures var s := Step(m, Again.event, Again.input).m; Single(s, c, 0, 1) && s.cfg == m.cfg
  {
    hide SendWindow, Cuts, Boundary, NegotiatedWindow;
    var n := WindowAdopted(m, Again.input.inbound.value);
    assert n.vars.actualWindowSize == 1;
    SendWindowSends(Rewound(n), c);
    assert Step(m, Again.event, Again.input) == SendWindow(Rewound(n));
  }

  lemma SinglyIsSingle(m: Machine, c: Cutting)
    requires m.state == AwaitSegmentACK && Sending(m, c) && m.vars.sequenceNumber < c.n
    requires m.vars.initialSequenceNumber == 0
    ensures var s := Step(m, Singly.event, Singly.input).m; Single(s, c, m.vars.sequenceNumber, 0) && s.cfg == m.cfg
  {
    hide SendWindow, Cuts, Boundary, NegotiatedWindow;
    var n := WindowAdopted(m, Singly.input.inbound.value);
    assert n.vars.actualWindowSize == 1;
    SendWindowSends(Advanced(n), c);
    assert Step(m, Singly.event, Singly.input) == SendWindow(Advanced(n));
  }

  /** The longest run that leaves the exchange open after its first window. */
  function LongestRun(cfg: Config, n: nat): (s: seq<Stimulus>)
    requires 2 <= n <= 65
    ensures AllProd(s)
  {
    var w := Min(NegotiatedWindow(cfg), n);
    if cfg.maxRetries == 0 then if w == n then [] else [Singly] + Slowest(n, w, 0)
    else [Again] + (Expiries(cfg.maxRetries - 1) + ([Acknowledge(0)] + Slowest(n, 1, cfg.maxRetries)))
  }

  lemma LongestRunLength(cfg: Config, n: nat)
    requires 2 <= n <= 65
    ensures |LongestRun(cfg, n)| == WorstCase(cfg, n) - 1
  {
    var w := Min(NegotiatedWindow(cfg), n);
    var r: nat := cfg.maxRetries;
    hide NegotiatedWindow, Slowest, Expiries;
    if r == 0 {
      if w < n {
        SlowestLength(n, w, 0);
      }
    } else {
      SlowestLength(n, 1, r);
      Distribute(n - 1, 1, r + 1);
    }
  }

  lemma LongestRunStaysOpen(m: Machine, c: Cutting)
    requires m.state == AwaitSegmentACK && Sending(m, c) && 2 <= c.n <= 65
    requires m.vars.initialSequenceNumber == 0 && m.vars.retryCount == 0
    requires m.vars.sequenceNumber == Min(NegotiatedWindow(m.cfg), c.n)
    ensures Run(m, LongestRun(m.cfg, c.n)).m.state == AwaitSegmentACK
  {
    hide Expiries, Slowest, Run, Single, Sending, NegotiatedWindow, Step, AllProd;
    var r: nat := m.cfg.maxRetries;
    var w := m.vars.sequenceNumber;
    if r > 0 {
      AgainIsSingle(m, c);
      var o := Step(m, Again.event, Again.input).m;
      var rest := [Acknowledge(0)] + Slowest(c.n, 1, r);
      RunSteps(m, Again, Expiries(r - 1) + rest);
      ExpiriesAreSurvived(o, c, 0, 1, r - 1);
      RunAppends(o, Expiries(r - 1), rest);
      var k := Run(o, Expiries(r - 1)).m;
      AcknowledgedSingle(k, c, 0, r);
      RunSteps(k, Acknowledge(0), Slowest(c.n, 1, r));
      SlowestIsSurvived(Step(k, InboundSegmentACK, Acknowledge(0).input).m, c, 1);
    } else if w < c.n {
      SinglyIsSingle(m, c);
      RunSteps(m, Singly, Slowest(c.n, w, 0));
      SlowestIsSurvived(Step(m, Singly.event, Singly.input).m, c, w);
    } else {
      RunNothing(m);
    }
  }

  lemma RunNothing(m: Machine)
    ensures Run(m, []).m == m
  {
  }

  /** No smaller number of events would do: whatever the window and the retries, a run of one event
      less than the worst case can leave the exchange open. */
  lemma {:induction false} BoundIsReached(m: Machine, p: seq<byte>) returns (stimuli: seq<Stimulus>)
    requires m.state == AwaitResponse && Segmentable(m.cfg, p)
    ensures SegmentCount(m.cfg, |p|) >= 0 && ProdCount(stimuli) == WorstCase(m.cfg, SegmentCount(m.cfg, |p|)) - 1
    ensures ResponseRun(m, p, stimuli).m.state == AwaitSegmentACK
  {
    var c := CuttingOf(m.cfg, p);
    var s := StartSegmentedResponse(m, p);
    StartWindow(m, p);
    CutCount(m.cfg, p);
    hide Sending, LongestRun, WorstCase, SegmentCount, Segmentable, CuttingOf, StartSegmentedResponse, Run,
         ResponseRun, AllProd, ProdCount;
    stimuli := LongestRun(m.cfg, c.n);
    LongestRunLength(m.cfg, c.n);
    AllProdCount(stimuli);
    LongestRunStaysOpen(s.m, c);
    ResponseRunUnfolds(m, p, stimuli);
  }
}
