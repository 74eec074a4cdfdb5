/** A requester that plays along: it confirms the last segment of every window. */
module Cooperation {
  import opened Wire
  import opened Apdu
  import opened MachineSpec
  import opened Segmentation
  import opened Transmission

  /** The window size in force once the acknowledgement has been seen. */
  function WindowAfter(cfg: Config, w: byte, ack: InboundAPDU): (v: byte)
    requires w >= 1
    ensures v >= 1
  {
    if ack.actualWindowSize == 0 then w else NormalizedWindow(cfg, ack.actualWindowSize)
  }

  /** A positive acknowledgement of the last segment in flight, which announces no window smaller
      than what is in flight. The response has n segments, its window begins at base. */
  predicate Confirms(cfg: Config, n: nat, base: nat, w: byte, ack: InboundAPDU)
    requires w >= 1
  {
    var next := Min(base + w, n);
    base < n && !ack.negativeAck && ack.sequenceNumber == next - 1 && next - base <= WindowAfter(cfg, w, ack)
  }

  /** One such acknowledgement for each window, none after the end. */
  predicate Cooperative(cfg: Config, n: nat, base: nat, w: byte, acks: seq<InboundAPDU>)
    requires w >= 1
    decreases |acks|
  {
    acks == []
    || (Confirms(cfg, n, base, w, acks[0]) && Cooperative(cfg, n, base + w, WindowAfter(cfg, w, acks[0]), acks[1..]))
  }

  /** The sizes of the windows that were confirmed, added up. */
  function Covered(cfg: Config, w: byte, acks: seq<InboundAPDU>): nat
    requires w >= 1
    decreases |acks|
  {
    if acks == [] then 0 else w + Covered(cfg, WindowAfter(cfg, w, acks[0]), acks[1..])
  }

  /** The same with the window in flight after the last of them. */
  function Started(cfg: Config, w: byte, acks: seq<InboundAPDU>): nat
    requires w >= 1
    decreases |acks|
  {
    if acks == [] then w else w + Started(cfg, WindowAfter(cfg, w, acks[0]), acks[1..])
  }

  function Given(ack: InboundAPDU): Stimulus {
    Stimulus(InboundSegmentACK, MachineInput(Some(ack), None, None))
  }

  function AllGiven(acks: seq<InboundAPDU>): seq<Stimulus>
    decreases |acks|
  {
    if acks == [] then [] else [Given(acks[0])] + AllGiven(acks[1..])
  }

  /** The window that begins at base is in flight, w segments or what is left. */
  predicate InFlight(m: Machine, c: Cutting, base: nat, w: byte) {
    && m.state == AwaitSegmentACK && Transmission.Sending(m, c) && m.vars.actualWindowSize == w
    && m.vars.initialSequenceNumber == base && m.vars.sequenceNumber == Min(base + w, c.n)
  }

  /** A positive acknowledgement of a segment in flight moves on exactly when that lies within the
      window size it announces; otherwise the window is repeated. */
  lemma AcknowledgesExactly(m: Machine, c: Cutting, base: nat, w: byte, ack: InboundAPDU)
    requires InFlight(m, c, base, w) && !ack.negativeAck && base <= ack.sequenceNumber < m.vars.sequenceNumber
    ensures Acknowledges(m, ack) <==> ack.sequenceNumber - base < WindowAfter(m.cfg, w, ack)
  {
    hide Cuts, Boundary, NegotiatedWindow, NormalizedWindow;
  }

  /** What a confirmed window leads to: the end, or the next window in flight. */
  lemma ConfirmedStep(m: Machine, c: Cutting, base: nat, w: byte, ack: InboundAPDU)
    requires InFlight(m, c, base, w) && Confirms(m.cfg, c.n, base, w, ack)
    ensures var s := Step(m, InboundSegmentACK, Given(ack).input);
            var v := WindowAfter(m.cfg, w, ack);
            && s.m.cfg == m.cfg
            && if base + w >= c.n then s.m.state == Completed && SentBy(s) == []
               else InFlight(s.m, c, base + w, v)
                    && SentBy(s) == SegmentRun(m.cfg, c, v, base + w, Min(base + w + v, c.n))
  {
    hide SendWindow, Retry, Cuts, Boundary, NegotiatedWindow, NormalizedWindow, InWindow, SegmentRun;
    AcknowledgesExactly(m, c, base, w, ack);
    var n := WindowAdopted(m, ack);
    if base + w < c.n {
      SendWindowSends(Advanced(n), c);
    }
  }

  /** Segments k to j - 1, each once and in order. */
  predicate Consecutive(apdus: seq<OutboundAPDU>, k: nat, j: nat) {
    && k <= j && |apdus| == j - k
    && forall i :: 0 <= i < |apdus| ==> apdus[i].pduType == ComplexACK && apdus[i].sequenceNumber == k + i
  }

  lemma RunIsConsecutive(cfg: Config, c: Cutting, w: byte, k: nat, j: nat)
    requires Cuts(c, cfg) && k <= j <= c.n
    ensures Consecutive(SegmentRun(cfg, c, w, k, j), k, j)
  {
    hide Good;
  }

  lemma ConsecutiveJoins(a: seq<OutboundAPDU>, b: seq<OutboundAPDU>, i: nat, j: nat, k: nat)
    requires Consecutive(a, i, j) && Consecutive(b, j, k)
    ensures Consecutive(a + b, i, k)
  {
  }

  lemma CooperativeUnfolds(cfg: Config, n: nat, base: nat, w: byte, acks: seq<InboundAPDU>)
    requires w >= 1 && acks != [] && Cooperative(cfg, n, base, w, acks)
    ensures var v := WindowAfter(cfg, w, acks[0]);
            && Confirms(cfg, n, base, w, acks[0]) && Cooperative(cfg, n, base + w, v, acks[1..])
            && (base + w >= n ==> acks[1..] == [])
            && Covered(cfg, w, acks) == w + Covered(cfg, v, acks[1..])
            && Started(cfg, w, acks) == w + Started(cfg, v, acks[1..])
  {
  }

  lemma GivenUnfolds(m: Machine, acks: seq<InboundAPDU>)
    requires acks != []
    ensures var s := Step(m, InboundSegmentACK, Given(acks[0]).input);
            var rest := Run(s.m, AllGiven(acks[1..]));
            Run(m, AllGiven(acks)) == Outcome(rest.m, SentBy(s) + rest.sent)
  {
    hide Step;
    assert AllGiven(acks)[1..] == AllGiven(acks[1..]);
  }

  lemma InFlightIsOpen(m: Machine, c: Cutting, base: nat, w: byte)
    requires InFlight(m, c, base, w)
    ensures m.state == AwaitSegmentACK && Cuts(c, m.cfg) && base < c.n
  {
  }

  /** What a cooperative run comes to, and that it sends the segments from k on. */
  predicate Goes(o: Outcome, k: nat, cfg: Config, n: nat, base: nat, w: byte, acks: seq<InboundAPDU>)
    requires w >= 1
  {
    && o.m.state == (if base + Covered(cfg, w, acks) >= n then Completed else AwaitSegmentACK)
    && Consecutive(o.sent, k, Min(base + Started(cfg, w, acks), n))
  }

  lemma NothingGoes(m: Machine, n: nat, base: nat, w: byte, cfg: Config)
    requires w >= 1 && base < n && m.state == AwaitSegmentACK
    ensures Goes(Run(m, AllGiven([])), Min(base + w, n), cfg, n, base, w, [])
  {
  }

  lemma LastGoes(m: Machine, s: Stepped, cfg: Config, n: nat, base: nat, w: byte, acks: seq<InboundAPDU>)
    requires w >= 1 && acks != [] && Cooperative(cfg, n, base, w, acks) && base + w >= n
    requires s == Step(m, InboundSegmentACK, Given(acks[0]).input) && s.m.state == Completed && SentBy(s) == []
    ensures Goes(Run(m, AllGiven(acks)), n, cfg, n, base, w, acks)
  {
    hide Step, SentBy, Cooperative, Confirms, WindowAfter;
    CooperativeUnfolds(cfg, n, base, w, acks);
    GivenUnfolds(m, acks);
    EndOfRun(s.m);
    assert SentBy(s) + [] == [];
  }

  lemma NextGoes(m: Machine, s: Stepped, cfg: Config, n: nat, base: nat, w: byte, acks: seq<InboundAPDU>)
    requires w >= 1 && acks != [] && Cooperative(cfg, n, base, w, acks) && base + w < n
    requires s == Step(m, InboundSegmentACK, Given(acks[0]).input)
    requires var v := WindowAfter(cfg, w, acks[0]);
             && Consecutive(SentBy(s), base + w, Min(base + w + v, n))
             && Goes(Run(s.m, AllGiven(acks[1..])), Min(base + w + v, n), cfg, n, base + w, v, acks[1..])
    ensures Goes(Run(m, AllGiven(acks)), base + w, cfg, n, base, w, acks)
  {
    hide Step, SentBy, Cooperative, Confirms, WindowAfter, Consecutive, Run, AllGiven;
    CooperativeUnfolds(cfg, n, base, w, acks);
    GivenUnfolds(m, acks);
    var v := WindowAfter(cfg, w, acks[0]);
    ConsecutiveJoins(SentBy(s), Run(s.m, AllGiven(acks[1..])).sent, base + w, Min(base + w + v, n),
                     Min(base + Started(cfg, w, acks), n));
  }

  lemma {:induction false} CooperationFrom(m: Machine, c: Cutting, base: nat, w: byte, acks: seq<InboundAPDU>)
    requires InFlight(m, c, base, w) && w >= 1 && Cooperative(m.cfg, c.n, base, w, acks)
    ensures Goes(Run(m, AllGiven(acks)), Min(base + w, c.n), m.cfg, c.n, base, w, acks)
    decreases |acks|
  {
    hide Step, InFlight, SegmentRun, WindowAfter, Consecutive, SentBy, Cooperative, Confirms, Good, Goes, Run, AllGiven;
    InFlightIsOpen(m, c, base, w);
    if acks == [] {
      NothingGoes(m, c.n, base, w, m.cfg);
    } else {
      CooperativeUnfolds(m.cfg, c.n, base, w, acks);
      ConfirmedStep(m, c, base, w, acks[0]);
      var v := WindowAfter(m.cfg, w, acks[0]);
      var s := Step(m, InboundSegmentACK, Given(acks[0]).input);
      if base + w >= c.n {
        LastGoes(m, s, m.cfg, c.n, base, w, acks);
      } else {
        CooperationFrom(s.m, c, base + w, v, acks[1..]);
        NextIsConsecutive(m, c, v, base + w, SentBy(s));
        NextGoes(m, s, m.cfg, c.n, base, w, acks);
      }
    }
  }

  lemma EndOfRun(m: Machine)
    ensures Run(m, AllGiven([])) == Outcome(m, [])
  {
  }

  lemma NoneIsConsecutive(k: nat)
    ensures Consecutive([], k, k)
  {
  }

  lemma NextIsConsecutive(m: Machine, c: Cutting, v: byte, k: nat, apdus: seq<OutboundAPDU>)
    requires Cuts(c, m.cfg) && k <= c.n && apdus == SegmentRun(m.cfg, c, v, k, Min(k + v, c.n))
    ensures Consecutive(apdus, k, Min(k + v, c.n))
  {
    RunIsConsecutive(m.cfg, c, v, k, Min(k + v, c.n));
  }

  lemma FirstWindowIsConsecutive(m: Machine, p: seq<byte>)
    requires m.state == AwaitResponse && Segmentable(m.cfg, p)
    ensures Consecutive(SentBy(StartSegmentedResponse(m, p)), 0, Min(NegotiatedWindow(m.cfg), SegmentCount(m.cfg, |p|)))
  {
    var c := CuttingOf(m.cfg, p);
    CuttingIsGood(m.cfg, p);
    BoundaryNext(c, 0);
    SendWindowSends(Prepared(m, p), c);
    CutCount(m.cfg, p);
    RunIsConsecutive(m.cfg, c, NegotiatedWindow(m.cfg), 0, Min(NegotiatedWindow(m.cfg), c.n));
    hide SendWindow, SegmentCount, CanSegmentResponse, Boundary, Good, Consecutive;
  }

  lemma StartIsInFlight(m: Machine, p: seq<byte>)
    requires m.state == AwaitResponse && Segmentable(m.cfg, p)
    ensures var c := CuttingOf(m.cfg, p);
            var n := StartSegmentedResponse(m, p).m;
            && InFlight(n, c, 0, NegotiatedWindow(m.cfg)) && n.cfg == m.cfg
            && c.n == SegmentCount(m.cfg, |p|)
  {
    hide SegmentCount, Segmentable, StartSegmentedResponse, NegotiatedWindow, CuttingOf;
    StartWindow(m, p);
    CutCount(m.cfg, p);
  }

  /** When the requester confirms every window, whatever sizes it announces, the exchange completes
      exactly when the confirmed windows cover the response, it stays open until then, and every
      segment is sent once only, in order. */
  lemma CooperationCompletesExactly(m: Machine, p: seq<byte>, acks: seq<InboundAPDU>)
    requires m.state == AwaitResponse && Segmentable(m.cfg, p) && SegmentCount(m.cfg, |p|) >= 0
    requires Cooperative(m.cfg, SegmentCount(m.cfg, |p|), 0, NegotiatedWindow(m.cfg), acks)
    ensures var n := SegmentCount(m.cfg, |p|);
            var w := NegotiatedWindow(m.cfg);
            var o := ResponseRun(m, p, AllGiven(acks));
            && o.m.state == (if Covered(m.cfg, w, acks) >= n then Completed else AwaitSegmentACK)
            && Consecutive(o.sent, 0, Min(Started(m.cfg, w, acks), n))
  {
    var c := CuttingOf(m.cfg, p);
    var w := NegotiatedWindow(m.cfg);
    var s := StartSegmentedResponse(m, p);
    StartIsInFlight(m, p);
    hide InFlight, Consecutive, Covered, Started, Cooperative, SegmentCount, Segmentable, CuttingOf, SentBy,
         StartSegmentedResponse, Run, ResponseRun, NegotiatedWindow, Cuts;
    FirstWindowIsConsecutive(m, p);
    CooperationFrom(s.m, c, 0, w, acks);
    ResponseRunUnfolds(m, p, AllGiven(acks));
    ConsecutiveJoins(SentBy(s), Run(s.m, AllGiven(acks)).sent, 0, Min(w, c.n), Min(Started(m.cfg, w, acks), c.n));
  }

  // --- such a requester exists ---

  /** The confirmations of one who announces nothing. */
  function Replies(n: byte, base: nat, w: byte): (acks: seq<InboundAPDU>)
    requires w >= 1
    decreases n - base
  {
    if base >= n then []
    else [Inbound(SegmentACK).(sequenceNumber := Min(base + w, n) - 1)] + Replies(n, base + w, w)
  }

  /** One confirmation for each window of w segments, the last perhaps shorter, completes it. */
  lemma {:induction false} RepliesCooperate(cfg: Config, n: byte, base: nat, w: byte)
    requires w >= 1 && base < n
    ensures var acks := Replies(n, base, w);
            && Cooperative(cfg, n, base, w, acks) && Covered(cfg, w, acks) == |acks| * w
            && (|acks| - 1) * w < n - base <= |acks| * w
    decreases n - base
  {
    var acks := Replies(n, base, w);
    var rest := Replies(n, base + w, w);
    assert acks[1..] == rest && WindowAfter(cfg, w, acks[0]) == w;
    Distribute(1, |rest|, w);
    if base + w < n {
      RepliesCooperate(cfg, n, base + w, w);
      Distribute(1, |rest| - 1, w);
    } else {
      assert rest == [];
    }
  }
}
