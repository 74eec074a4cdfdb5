/** Reassembly of a segmented request, one segment at a time: what the machine does with
    each arriving segment of a genuine request. */
module Reassembly {
  import opened Wire
  import opened Apdu
  import opened MachineSpec

  /** A request as its sender cut it up; header holds the fields common to all segments. */
  datatype Request = Request(header: InboundAPDU, segments: seq<seq<byte>>)

  /** The i-th segment as it arrives; sequence numbers are eight bits wide. */
  function Piece(q: Request, i: nat): InboundAPDU
    requires i < |q.segments|
  {
    q.header.(pduType := ConfirmedRequest, segmentedMessage := true, moreFollows := i + 1 < |q.segments|,
              sequenceNumber := i % 256, payload := q.segments[i])
  }

  function AgreedWindow(cfg: Config, q: Request): (w: byte)
    ensures w >= 1
  {
    MinWindow(q.header.proposedWindowSize, Defaulted(cfg).preferredWindow)
  }

  /** How many of the first k segments fall into a window that is not yet full. */
  function Phase(k: nat, w: byte): (r: nat)
    requires w > 0
    ensures r < w && r <= k
  {
    if k == 0 then 0 else if Phase(k - 1, w) + 1 == w then 0 else Phase(k - 1, w) + 1
  }

  lemma MultipleIsLarge(d: int, w: int)
    requires d >= 1 && w > 0
    ensures d * w >= w
  {
  }

  lemma QuotientIsUnique(w: int, q: int, r: int, e: int, s: int)
    requires 0 <= r < w && 0 <= s < w && q * w + r == e * w + s
    ensures r == s
  {
    assert (q - e) * w == q * w - e * w;
    assert (e - q) * w == e * w - q * w;
    if q > e {
      MultipleIsLarge(q - e, w);
    } else if e > q {
      MultipleIsLarge(e - q, w);
    }
  }

  lemma ModIs(x: int, w: int, q: int, r: int)
    requires 0 <= r < w && x == q * w + r
    ensures x % w == r
  {
    QuotientIsUnique(w, q, r, x / w, x % w);
  }

  lemma RemainderGrows(k: int, w: int)
    requires w > 0
    ensures (k + 1) % w == if k % w + 1 == w then 0 else k % w + 1
  {
    var q, r := k / w, k % w;
    assert k == q * w + r;
    if r + 1 == w {
      assert (q + 1) * w == q * w + w;
      ModIs(k + 1, w, q + 1, 0);
    } else {
      ModIs(k + 1, w, q, r + 1);
    }
  }

  lemma {:induction false} PhaseIsRemainder(k: nat, w: byte)
    requires w > 0
    ensures Phase(k, w) == k % w
  {
    if k > 0 {
      PhaseIsRemainder(k - 1, w);
      RemainderGrows(k - 1, w);
    }
  }

  /** The machine holds exactly the first k segments and waits for segment k. */
  predicate Holding(m: Machine, cfg: Config, q: Request, k: nat) {
    var v := m.vars;
    var w := AgreedWindow(cfg, q);
    && m.cfg == Defaulted(cfg) && m.state == SegmentedRequestReceiving
    && 1 <= k < |q.segments| <= 256
    && v.segmentBuffer == Concat(q.segments[..k])
    && v.sequenceNumber == k
    && v.actualWindowSize == w
    && v.receivedInCurrentWindow == Phase(k, w)
    && v.initialSequenceNumber == k - Phase(k, w)
    && v.bufferedPayloads == map[] && v.bufferedMoreFollows == map[]
    && (v.duplicateCount <= m.cfg.maxDuplicates)
  }

  function Input(a: InboundAPDU): MachineInput {
    MachineInput(Some(a), None, None)
  }

  function PositiveAck(m: Machine, k: byte): MachineOutput {
    Sending(SendSegmentACK, SegmentAck(m, k, false))
  }

  /** The variables after the expected segment was appended, before any window bookkeeping. */
  function Appended(v: Variables, payload: seq<byte>): Variables {
    v.(segmentBuffer := v.segmentBuffer + payload,
       lastSequenceNumber := v.sequenceNumber,
       sequenceNumber := Next(v.sequenceNumber),
       receivedInCurrentWindow := Next(v.receivedInCurrentWindow),
       segmentCount := (v.segmentCount + 1) % 0x1_0000,
       duplicateCount := 0)
  }

  /** With nothing else buffered, draining consumes exactly the segment just buffered. */
  lemma DrainOne(m: Machine, payload: seq<byte>, more: bool)
    requires m.vars.bufferedPayloads == map[] && m.vars.bufferedMoreFollows == map[]
    ensures var s := Drain(m.(vars := Buffered(m.vars, m.vars.sequenceNumber, payload, more)));
            var n := m.(vars := Appended(m.vars, payload));
            var ack := PositiveAck(n, m.vars.sequenceNumber);
            if !more then s == Stepped(n.(state := AwaitResponse), Ok(ack))
            else if n.vars.receivedInCurrentWindow >= n.vars.actualWindowSize then
              s == Stepped(n.(vars := n.vars.(receivedInCurrentWindow := 0,
                                              initialSequenceNumber := n.vars.sequenceNumber)), Ok(ack))
            else s == Stepped(n, Ok(Silence))
  {
    var b := Buffered(m.vars, m.vars.sequenceNumber, payload, more);
    assert b.bufferedPayloads == map[m.vars.sequenceNumber := payload];
    var t := Consumed(b);
    assert t.bufferedPayloads == map[] && t.bufferedMoreFollows == map[];
    assert TakeContiguous(t) == Taken(t, 0, false);
    assert TakeContiguous(b) == Taken(t, 1, !more);
    assert t.(duplicateCount := 0) == Appended(m.vars, payload);
  }

  /** The first segment opens the exchange, unless it is the whole request. */
  lemma FirstSegment(cfg: Config, q: Request)
    requires 1 <= |q.segments| <= 256
    requires cfg.segmentation == Receive || cfg.segmentation == Both
    ensures var s := Step(NewMachine(cfg), InboundConfirmedRequest, Input(Piece(q, 0)));
            if |q.segments| == 1 then
              && s.m.state == AwaitResponse && s.m.vars.segmentBuffer == Concat(q.segments)
              && s.result == Ok(PositiveAck(s.m, 0))
            else
              && Holding(s.m, cfg, q, 1) && s.m.vars.duplicateCount == 0
              && s.result == Ok(if AgreedWindow(cfg, q) == 1 then PositiveAck(s.m, 0) else Silence)
  {
    hide Drain;
    var m := NewMachine(cfg);
    var a := Piece(q, 0);
    var n := StartReceiving(m, a);
    DrainOne(n, a.payload, a.moreFollows);
    assert q.segments[..1] == [q.segments[0]];
    assert Concat(q.segments[..1]) == q.segments[0] + Concat([]);
    assert |q.segments| == 1 ==> q.segments[..1] == q.segments;
  }

  lemma PrefixGrows(q: Request, k: nat)
    requires k < |q.segments|
    ensures Concat(q.segments[..k]) + q.segments[k] == Concat(q.segments[..k + 1])
    ensures k + 1 == |q.segments| ==> q.segments[..k + 1] == q.segments
  {
    TakeSnoc(q.segments, k);
    ConcatSnoc(q.segments[..k], q.segments[k]);
  }

  /** The machine that has taken one segment more, its window closed when it is full. */
  function Windowed(n: Machine): Machine {
    if n.vars.receivedInCurrentWindow >= n.vars.actualWindowSize
    then n.(vars := n.vars.(receivedInCurrentWindow := 0, initialSequenceNumber := n.vars.sequenceNumber))
    else n
  }

  /** Receiving the expected segment with an empty buffer. */
  lemma StepAccepts(m: Machine, a: InboundAPDU)
    requires m.state == SegmentedRequestReceiving && a.sequenceNumber == m.vars.sequenceNumber
    requires m.vars.bufferedPayloads == map[] && m.vars.bufferedMoreFollows == map[]
    ensures var n := m.(vars := Appended(m.vars, a.payload));
            var full := n.vars.receivedInCurrentWindow >= n.vars.actualWindowSize;
            Step(m, InboundSegment, Input(a))
            == Stepped(if a.moreFollows then Windowed(n) else n.(state := AwaitResponse),
                       Ok(if a.moreFollows && !full then Silence else PositiveAck(n, m.vars.sequenceNumber)))
  {
    DrainOne(m, a.payload, a.moreFollows);
  }

  lemma HoldingGrows(m: Machine, cfg: Config, q: Request, k: nat)
    requires Holding(m, cfg, q, k) && k + 1 < |q.segments|
    ensures var n := m.(vars := Appended(m.vars, q.segments[k]));
            && Holding(Windowed(n), cfg, q, k + 1)
            && (n.vars.receivedInCurrentWindow >= n.vars.actualWindowSize
                <==> Phase(k + 1, AgreedWindow(cfg, q)) == 0)
  {
    PrefixGrows(q, k);
    assert Phase(k + 1, AgreedWindow(cfg, q)) <= k + 1;
  }

  /** Segment k is accepted when it is the one awaited. A positive Segment-ACK follows exactly
      when it fills a window or is the last. */
  lemma AwaitedSegment(m: Machine, cfg: Config, q: Request, k: nat)
    requires Holding(m, cfg, q, k)
    ensures var s := Step(m, InboundSegment, Input(Piece(q, k)));
            var last := k + 1 == |q.segments|;
            && s.result == Ok(if last || Phase(k + 1, AgreedWindow(cfg, q)) == 0 then PositiveAck(s.m, k) else Silence)
            && s.m.vars.segmentBuffer == m.vars.segmentBuffer + q.segments[k]
            && s.m.vars.duplicateCount == 0
            && if last then s.m.state == AwaitResponse && s.m.vars.segmentBuffer == Concat(q.segments)
               else Holding(s.m, cfg, q, k + 1)
  {
    var a := Piece(q, k);
    StepAccepts(m, a);
    if k + 1 == |q.segments| {
      PrefixGrows(q, k);
    } else {
      HoldingGrows(m, cfg, q, k);
    }
  }

  /** A segment that repeats one already held, in the window being received or the very first. */
  predicate Repeats(cfg: Config, q: Request, k: nat, i: nat) {
    i < k && (i == 0 || k - Phase(k, AgreedWindow(cfg, q)) <= i)
  }

  /** The machine with one more duplicate on its count. */
  function Counted(m: Machine): Machine {
    m.(vars := m.vars.(duplicateCount := Saturated(m.vars.duplicateCount)))
  }

  /** Among segments other than the awaited one, exactly the repetitions are acknowledged again,
      until they exceed the limit; every other one is refused by a negative Segment-ACK and
      changes nothing. Both name the last contiguous segment. */
  lemma OtherSegment(m: Machine, cfg: Config, q: Request, k: nat, i: nat)
    requires Holding(m, cfg, q, k) && i < |q.segments| && i != k
    ensures var event := if i == 0 then InboundConfirmedRequest else InboundSegment;
            var s := Step(m, event, Input(Piece(q, i)));
            if !Repeats(cfg, q, k, i) then
              s == Stepped(m, Ok(Sending(SendSegmentACK, SegmentAck(m, k - 1, true))))
            else if m.vars.duplicateCount < m.cfg.maxDuplicates || m.cfg.maxDuplicates == 255 then
              s == Stepped(Counted(m), Ok(PositiveAck(Counted(m), k - 1))) && Holding(s.m, cfg, q, k)
            else
              && s.m.state == Aborted && s.m.vars.segmentBuffer == m.vars.segmentBuffer
              && s.result == Ok(Sending(SendAbort, AbortAPDU(m.cfg, [REASON_INVALID_IN_STATE])))
  {
    hide Phase, AgreedWindow;
    assert Piece(q, i).sequenceNumber == i;
    DistanceInWindow(i, m.vars.initialSequenceNumber);
  }

  /** Eight-bit distances between numbers that are not far apart. */
  lemma DistanceInWindow(a: byte, b: byte)
    ensures (a - b) % 256 == if a >= b then a - b else a - b + 256
  {
  }
}
