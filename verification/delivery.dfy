/** Whole runs of a segmented request over a network that loses, repeats and reorders
    segments, routed to machines as the application service element routes them. */
module Delivery {
  import opened Wire
  import opened Apdu
  import opened MachineSpec
  import opened Reassembly

  /** The entry for one requester and invoke ID: none, or a machine still receiving. */
  datatype Link = Absent | Open(m: Machine)

  /** Segment i of the request arrives, or the entry times out and is dropped. */
  datatype Happening = Arrive(i: nat) | Expire

  datatype Outcome = Outcome(link: Link, completed: seq<seq<byte>>)

  predicate Supports(cfg: Config) {
    cfg.segmentation == Receive || cfg.segmentation == Both
  }

  /** The entry after a machine took a segment, and the request it completed, if it did. */
  function Settle(s: Stepped): Outcome {
    if s.m.state == SegmentedRequestReceiving then Outcome(Open(s.m), [])
    else if s.m.state == AwaitResponse then Outcome(Absent, [s.m.vars.segmentBuffer])
    else Outcome(Absent, [])
  }

  /** Sequence number 0 opens an exchange or repeats its first segment; any other number
      needs an exchange to be open. */
  function Deliver(cfg: Config, link: Link, a: InboundAPDU): Outcome {
    if a.sequenceNumber == 0 then
      Settle(Step(if link.Open? then link.m else NewMachine(cfg), InboundConfirmedRequest, Input(a)))
    else if link.Absent? then Outcome(Absent, [])
    else Settle(Step(link.m, InboundSegment, Input(a)))
  }

  predicate Within(q: Request, h: Happening) {
    h.Arrive? ==> h.i < |q.segments|
  }

  predicate AllWithin(q: Request, hs: seq<Happening>) {
    forall j :: 0 <= j < |hs| ==> Within(q, hs[j])
  }

  function React(cfg: Config, link: Link, q: Request, h: Happening): Outcome
    requires Within(q, h)
  {
    match h
    case Expire => Outcome(Absent, [])
    case Arrive(i) => Deliver(cfg, link, Piece(q, i))
  }

  function Run(cfg: Config, link: Link, q: Request, hs: seq<Happening>): Outcome
    requires AllWithin(q, hs)
    decreases |hs|
  {
    if hs == [] then Outcome(link, [])
    else
      var first := React(cfg, link, q, hs[0]);
      var rest := Run(cfg, first.link, q, hs[1..]);
      Outcome(rest.link, first.completed + rest.completed)
  }

  // --- safety ---

  /** An open entry holds a proper prefix of the request and waits for the next segment. */
  predicate Sound(cfg: Config, link: Link, q: Request) {
    link.Open? ==> Holding(link.m, cfg, q, link.m.vars.sequenceNumber)
  }

  /** What the delivery of one segment may do. */
  predicate Right(cfg: Config, o: Outcome, q: Request) {
    Sound(cfg, o.link, q) && (o.completed == [] || o.completed == [Concat(q.segments)])
  }

  lemma OpeningIsRight(cfg: Config, q: Request)
    requires 1 <= |q.segments| <= 256
    ensures Right(cfg, Deliver(cfg, Absent, Piece(q, 0)), q)
  {
    assert Piece(q, 0).sequenceNumber == 0;
    if Supports(cfg) {
      FirstSegment(cfg, q);
      hide Step, NewMachine;
    } else {
      hide Drain;
    }
  }

  lemma ContinuingIsRight(cfg: Config, m: Machine, q: Request, i: nat)
    requires Sound(cfg, Open(m), q) && i < |q.segments|
    ensures Right(cfg, Deliver(cfg, Open(m), Piece(q, i)), q)
  {
    if i == m.vars.sequenceNumber {
      AwaitedReaction(cfg, m, q, i);
      hide Deliver;
    } else {
      OtherReaction(cfg, m, q, i);
    }
  }

  lemma OtherReaction(cfg: Config, m: Machine, q: Request, i: nat)
    requires Sound(cfg, Open(m), q) && i < |q.segments| && i != m.vars.sequenceNumber
    ensures Right(cfg, Deliver(cfg, Open(m), Piece(q, i)), q)
  {
    assert m.state == SegmentedRequestReceiving && Piece(q, i).sequenceNumber == i;
    OtherSegment(m, cfg, q, m.vars.sequenceNumber, i);
    hide Step, Piece, Phase, AgreedWindow, AbortAPDU, Repeats, Concat;
  }

  lemma ReactIsSound(cfg: Config, link: Link, q: Request, h: Happening)
    requires 1 <= |q.segments| <= 256 && Within(q, h) && Sound(cfg, link, q)
    ensures Right(cfg, React(cfg, link, q, h), q)
  {
    if h.Arrive? {
      assert Piece(q, h.i).sequenceNumber == h.i;
      if link.Open? {
        ContinuingIsRight(cfg, link.m, q, h.i);
        hide Step, Holding, Deliver;
      } else if h.i == 0 {
        OpeningIsRight(cfg, q);
        hide Step, Holding, Deliver;
      }
    }
  }

  /** However segments are lost, repeated, reordered or timed out, and however often the
      exchange starts over: every completed request is the original one, and in between
      the buffer is the concatenation of the first k segments with k the number awaited. */
  lemma {:induction false} ReassemblyIsSafe(cfg: Config, link: Link, q: Request, hs: seq<Happening>)
    requires 1 <= |q.segments| <= 256 && AllWithin(q, hs) && Sound(cfg, link, q)
    ensures var o := Run(cfg, link, q, hs);
            && Sound(cfg, o.link, q)
            && forall j :: 0 <= j < |o.completed| ==> o.completed[j] == Concat(q.segments)
    decreases |hs|
  {
    if hs != [] {
      ReactIsSound(cfg, link, q, hs[0]);
      ReassemblyIsSafe(cfg, React(cfg, link, q, hs[0]).link, q, hs[1..]);
    }
  }

  /** In a sound open entry the sequence variables are exactly those of the window protocol. */
  lemma WindowArithmetic(cfg: Config, m: Machine, q: Request)
    requires Sound(cfg, Open(m), q)
    ensures var v := m.vars;
            && v.sequenceNumber == (v.initialSequenceNumber + v.receivedInCurrentWindow) % 256
            && v.receivedInCurrentWindow == v.sequenceNumber % v.actualWindowSize < v.actualWindowSize
            && v.bufferedPayloads == map[] && v.bufferedMoreFollows == map[]
  {
    PhaseIsRemainder(m.vars.sequenceNumber, m.vars.actualWindowSize);
  }

  /** Which of the segments held, with k awaited, belong to the window being received. */
  predicate InThisWindow(w: byte, k: nat, i: nat)
    requires w > 0
  {
    k - k % w <= i < k
  }

  /** The awaited segment is accepted, and acknowledged exactly when it completes a window or
      the request. */
  lemma AwaitedVerdict(cfg: Config, m: Machine, q: Request)
    requires Sound(cfg, Open(m), q)
    ensures var k := m.vars.sequenceNumber;
            var s := Step(m, InboundSegment, Input(Piece(q, k)));
            && s.m.vars.segmentBuffer == m.vars.segmentBuffer + q.segments[k]
            && s.m.vars.duplicateCount == 0
            && s.result == Ok(if k + 1 == |q.segments| || (k + 1) % m.vars.actualWindowSize == 0
                              then PositiveAck(s.m, k) else Silence)
  {
    hide Step, Piece, Phase, AgreedWindow;
    var k: int := m.vars.sequenceNumber;
    AwaitedSegment(m, cfg, q, k);
    PhaseIsRemainder(k + 1, AgreedWindow(cfg, q));
  }

  lemma WindowByPhase(w: byte, k: nat, i: nat)
    requires w > 0
    ensures InThisWindow(w, k, i) <==> k - Phase(k, w) <= i < k
  {
    PhaseIsRemainder(k, w);
  }

  /** Of the other segments, one already received in this window, or the first, is acknowledged
      again or, when the limit of duplicates is spent, ends the exchange; any other is refused
      and changes nothing. */
  lemma OtherVerdict(cfg: Config, m: Machine, q: Request, i: nat)
    requires Sound(cfg, Open(m), q) && i < |q.segments| && i != m.vars.sequenceNumber
    ensures var k := m.vars.sequenceNumber;
            var s := Step(m, if i == 0 then InboundConfirmedRequest else InboundSegment, Input(Piece(q, i)));
            if i == 0 || InThisWindow(m.vars.actualWindowSize, k, i) then
              && s.m.vars.segmentBuffer == m.vars.segmentBuffer
              && if m.vars.duplicateCount < m.cfg.maxDuplicates || m.cfg.maxDuplicates == 255
                 then s.m.state == SegmentedRequestReceiving && s.result == Ok(PositiveAck(s.m, k - 1))
                 else s.m.state == Aborted && s.result.value.action == SendAbort
            else s == Stepped(m, Ok(Sending(SendSegmentACK, SegmentAck(m, k - 1, true))))
  {
    hide Step, Piece, Phase, AgreedWindow, AbortAPDU, InThisWindow;
    WindowByPhase(m.vars.actualWindowSize, m.vars.sequenceNumber, i);
    OtherSegment(m, cfg, q, m.vars.sequenceNumber, i);
  }

  // --- duplicates ---

  predicate AllRepeat(cfg: Config, m: Machine, q: Request, dups: seq<nat>) {
    forall j :: 0 <= j < |dups| ==> Repeats(cfg, q, m.vars.sequenceNumber, dups[j])
  }

  function Arrivals(numbers: seq<nat>): (hs: seq<Happening>)
    ensures |hs| == |numbers|
    ensures forall j :: 0 <= j < |hs| ==> hs[j] == Arrive(numbers[j])
  {
    if numbers == [] then [] else [Arrive(numbers[0])] + Arrivals(numbers[1..])
  }

  /** The machine tolerates one more duplicate. */
  predicate Tolerates(m: Machine) {
    m.vars.duplicateCount < m.cfg.maxDuplicates || m.cfg.maxDuplicates == 255
  }

  /** A duplicate is counted while that is tolerated, and ends the exchange otherwise. */
  lemma RepeatReaction(cfg: Config, m: Machine, q: Request, i: nat)
    requires Sound(cfg, Open(m), q) && i < |q.segments| && Repeats(cfg, q, m.vars.sequenceNumber, i)
    ensures var o := Deliver(cfg, Open(m), Piece(q, i));
            o == if Tolerates(m) then Outcome(Open(Counted(m)), []) else Outcome(Absent, [])
    ensures Tolerates(m) ==> Sound(cfg, Open(Counted(m)), q)
  {
    hide Step, AbortAPDU, Phase, AgreedWindow;
    assert Piece(q, i).sequenceNumber == i;
    OtherSegment(m, cfg, q, m.vars.sequenceNumber, i);
  }

  lemma RepeatsAreWithin(cfg: Config, m: Machine, q: Request, dups: seq<nat>)
    requires Sound(cfg, Open(m), q) && AllRepeat(cfg, m, q, dups)
    ensures AllWithin(q, Arrivals(dups))
  {
    hide Phase, AgreedWindow;
    forall j | 0 <= j < |dups|
      ensures Within(q, Arrivals(dups)[j])
    {
      assert Repeats(cfg, q, m.vars.sequenceNumber, dups[j]);
    }
  }

  lemma CountedIsTheSame(cfg: Config, m: Machine, q: Request, dups: seq<nat>)
    requires AllRepeat(cfg, m, q, dups) && dups != []
    ensures AllRepeat(cfg, Counted(m), q, dups[1..]) && Repeats(cfg, q, m.vars.sequenceNumber, dups[0])
    ensures var n := Counted(m);
            && n.cfg == m.cfg && n.vars.sequenceNumber == m.vars.sequenceNumber
            && (m.vars.duplicateCount < 255 ==> n.vars.duplicateCount == m.vars.duplicateCount + 1)
  {
    hide Repeats;
    forall j | 0 <= j < |dups[1..]|
      ensures Repeats(cfg, q, m.vars.sequenceNumber, dups[1..][j])
    {
      assert dups[1..][j] == dups[j + 1];
    }
  }

  /** Between two accepted segments exactly maxDuplicates duplicates are tolerated: the next one
      ends the exchange. The eight-bit count saturates, so a limit of 255 is never exceeded. */
  lemma {:induction false} DuplicateBudget(cfg: Config, m: Machine, q: Request, dups: seq<nat>)
    requires Sound(cfg, Open(m), q) && AllRepeat(cfg, m, q, dups)
    ensures AllWithin(q, Arrivals(dups))
    ensures var o := Run(cfg, Open(m), q, Arrivals(dups));
            && (m.cfg.maxDuplicates == 255 || m.vars.duplicateCount + |dups| <= m.cfg.maxDuplicates ==>
                  o.link.Open? && o.link.m.vars.sequenceNumber == m.vars.sequenceNumber)
            && (m.cfg.maxDuplicates < 255 && m.vars.duplicateCount + |dups| == m.cfg.maxDuplicates + 1 ==>
                  o.link == Absent && o.completed == [])
    decreases |dups|
  {
    RepeatsAreWithin(cfg, m, q, dups);
    assert m.vars.duplicateCount <= m.cfg.maxDuplicates;
    hide Deliver, Sound, AllRepeat, Counted, Repeats, Piece;
    if dups != [] {
      CountedIsTheSame(cfg, m, q, dups);
      RepeatReaction(cfg, m, q, dups[0]);
      assert Arrivals(dups)[1..] == Arrivals(dups[1..]);
      if Tolerates(m) {
        DuplicateBudget(cfg, Counted(m), q, dups[1..]);
      } else if |dups| == 1 {
        assert dups[1..] == [];
      }
    }
  }

  /** A responder without a limit of its own tolerates three duplicates in a row, and not the fourth. */
  lemma DefaultBudget(cfg: Config, m: Machine, q: Request, dups: seq<nat>)
    requires Sound(cfg, Open(m), q) && AllRepeat(cfg, m, q, dups)
    requires cfg.maxDuplicates == 0 && m.vars.duplicateCount == 0 && |dups| <= 4
    ensures AllWithin(q, Arrivals(dups))
    ensures Run(cfg, Open(m), q, Arrivals(dups)).link.Open? <==> |dups| < 4
  {
    DuplicateBudget(cfg, m, q, dups);
    assert m.cfg == Defaulted(cfg);
    hide Run, Sound, AllRepeat;
  }

  // --- liveness, and how far safety reaches ---

  /** The segments lo, ..., hi - 1 in order. */
  function InOrder(lo: nat, hi: nat): (hs: seq<Happening>)
    requires lo <= hi
    ensures |hs| == hi - lo
    ensures forall j :: 0 <= j < |hs| ==> hs[j] == Arrive(lo + j)
    decreases hi - lo
  {
    if lo == hi then [] else [Arrive(lo)] + InOrder(lo + 1, hi)
  }

  /** The awaited segment of an open exchange. */
  lemma AwaitedReaction(cfg: Config, m: Machine, q: Request, k: nat)
    requires Holding(m, cfg, q, k)
    ensures var o := Deliver(cfg, Open(m), Piece(q, k));
            if k + 1 == |q.segments| then o == Outcome(Absent, [Concat(q.segments)])
            else o.link.Open? && o.completed == [] && Holding(o.link.m, cfg, q, k + 1)
  {
    assert Piece(q, k).sequenceNumber == k && k >= 1;
    hide Step, Piece, Phase, AgreedWindow;
    AwaitedSegment(m, cfg, q, k);
  }

  lemma {:induction false} RestInOrder(cfg: Config, m: Machine, q: Request, k: nat)
    requires k < |q.segments| && Holding(m, cfg, q, k)
    ensures Run(cfg, Open(m), q, InOrder(k, |q.segments|)) == Outcome(Absent, [Concat(q.segments)])
    decreases |q.segments| - k
  {
    hide Deliver, Piece, Holding, Concat;
    var hs := InOrder(k, |q.segments|);
    assert hs[0] == Arrive(k) && hs[1..] == InOrder(k + 1, |q.segments|);
    AwaitedReaction(cfg, m, q, k);
    var o := React(cfg, Open(m), q, hs[0]);
    if k + 1 == |q.segments| {
      assert hs[1..] == [];
    } else {
      RestInOrder(cfg, o.link.m, q, k + 1);
    }
  }

  /** Delivered once and in order, every request of at most 256 segments completes. */
  lemma {:induction false} InOrderCompletes(cfg: Config, q: Request)
    requires 1 <= |q.segments| <= 256 && Supports(cfg)
    ensures Run(cfg, Absent, q, InOrder(0, |q.segments|)) == Outcome(Absent, [Concat(q.segments)])
  {
    var hs := InOrder(0, |q.segments|);
    assert hs[0] == Arrive(0) && hs[1..] == InOrder(1, |q.segments|);
    FirstSegment(cfg, q);
    var o := React(cfg, Absent, q, hs[0]);
    if |q.segments| == 1 {
      assert hs[1..] == [];
    } else {
      RestInOrder(cfg, o.link.m, q, 1);
    }
  }

  // --- imperfect delivery that still completes ---

  /** The numbers from k up to n - 1 arrive in this order, whatever arrives in between. */
  predicate BringsFrom(numbers: seq<nat>, k: nat, n: nat)
    decreases |numbers|
  {
    k >= n || (numbers != [] && BringsFrom(numbers[1..], if numbers[0] == k then k + 1 else k, n))
  }

  /** Between two segments that are taken no more duplicates arrive than are tolerated; count is how
      many did since the last one, with segment k awaited. */
  predicate Tolerable(cfg: Config, q: Request, numbers: seq<nat>, k: nat, count: nat)
    decreases |numbers|
  {
    || numbers == [] || k >= |q.segments|
    || if numbers[0] == k then Tolerable(cfg, q, numbers[1..], k + 1, 0)
       else if Repeats(cfg, q, k, numbers[0]) then
         && (count < Defaulted(cfg).maxDuplicates || Defaulted(cfg).maxDuplicates == 255)
         && Tolerable(cfg, q, numbers[1..], k, count + 1)
       else Tolerable(cfg, q, numbers[1..], k, count)
  }

  /** The exchange holds the first k segments, or none and is not open. */
  predicate HoldsCounting(cfg: Config, link: Link, q: Request, k: nat, count: nat) {
    if k == 0 then link == Absent
    else
      && link.Open? && Holding(link.m, cfg, q, k)
      && link.m.vars.duplicateCount == if count < 255 then count else 255
  }

  /** One arrival: the awaited segment is taken, and completes the request if it is the last; any
      other leaves what is held alone while that is tolerated. */
  lemma ArrivalCounts(cfg: Config, link: Link, q: Request, k: nat, count: nat, i: nat)
    requires k < |q.segments| <= 256 && Supports(cfg) && i < |q.segments| && HoldsCounting(cfg, link, q, k, count)
    requires i != k && Repeats(cfg, q, k, i)
            ==> count < Defaulted(cfg).maxDuplicates || Defaulted(cfg).maxDuplicates == 255
    ensures var o := Deliver(cfg, link, Piece(q, i));
            if i != k then o.completed == []
                           && HoldsCounting(cfg, o.link, q, k, if Repeats(cfg, q, k, i) then count + 1 else count)
            else if k + 1 == |q.segments| then o.completed == [Concat(q.segments)]
            else o.completed == [] && HoldsCounting(cfg, o.link, q, k + 1, 0)
  {
    assert Piece(q, i).sequenceNumber == i;
    if k == 0 {
      if i == 0 {
        FirstSegment(cfg, q);
      }
      hide Step, NewMachine, Phase, AgreedWindow, Concat;
    } else if i == k {
      hide Step, Piece, Phase, AgreedWindow, Concat;
      AwaitedSegment(link.m, cfg, q, k);
    } else {
      hide Step, Piece, Phase, AgreedWindow, Repeats, AbortAPDU, Concat;
      OtherSegment(link.m, cfg, q, k, i);
    }
  }

  /** Without expiry, and with no more duplicates than are tolerated, the request completes if and
      only if its segments arrive in order, whatever else arrives in between. */
  lemma {:induction false} CompletesExactly(cfg: Config, link: Link, q: Request, k: nat, count: nat, numbers: seq<nat>)
    requires k < |q.segments| <= 256 && Supports(cfg) && HoldsCounting(cfg, link, q, k, count)
    requires forall j :: 0 <= j < |numbers| ==> numbers[j] < |q.segments|
    requires Tolerable(cfg, q, numbers, k, count)
    ensures AllWithin(q, Arrivals(numbers))
    ensures var completed := Run(cfg, link, q, Arrivals(numbers)).completed;
            && (completed != [] <==> BringsFrom(numbers, k, |q.segments|))
            && (completed != [] ==> completed[0] == Concat(q.segments))
    decreases |numbers|
  {
    hide Deliver, Piece, Repeats, HoldsCounting, Supports, Concat;
    if numbers != [] {
      var i := numbers[0];
      ArrivalCounts(cfg, link, q, k, count, i);
      var o := Deliver(cfg, link, Piece(q, i));
      assert Arrivals(numbers)[0] == Arrive(i) && Arrivals(numbers)[1..] == Arrivals(numbers[1..]);
      if i != k {
        CompletesExactly(cfg, o.link, q, k, if Repeats(cfg, q, k, i) then count + 1 else count, numbers[1..]);
      } else if k + 1 < |q.segments| {
        CompletesExactly(cfg, o.link, q, k + 1, 0, numbers[1..]);
      }
    }
  }

  /** The request is reassembled right on every network. */
  ghost predicate AlwaysRight(cfg: Config, q: Request) {
    forall hs | AllWithin(q, hs) ::
      forall j :: 0 <= j < |Run(cfg, Absent, q, hs).completed| ==>
        Run(cfg, Absent, q, hs).completed[j] == Concat(q.segments)
  }

  /** Segments indistinguishable on the wire have the same effect. */
  lemma {:induction false} SameWireSameRun(cfg: Config, link: Link, q: Request, r: Request,
                                           hs: seq<Happening>, gs: seq<Happening>)
    requires AllWithin(q, hs) && AllWithin(r, gs) && |hs| == |gs|
    requires forall j :: 0 <= j < |hs| ==> hs[j].Arrive? && gs[j].Arrive? && Piece(q, hs[j].i) == Piece(r, gs[j].i)
    ensures Run(cfg, link, q, hs) == Run(cfg, link, r, gs)
    decreases |hs|
  {
    if hs != [] {
      assert Piece(q, hs[0].i) == Piece(r, gs[0].i);
      forall j | 0 <= j < |hs[1..]|
        ensures hs[1..][j].Arrive? && gs[1..][j].Arrive? && Piece(q, hs[1..][j].i) == Piece(r, gs[1..][j].i)
      {
        assert hs[1..][j] == hs[j + 1] && gs[1..][j] == gs[j + 1];
      }
      SameWireSameRun(cfg, React(cfg, link, q, hs[0]).link, q, r, hs[1..], gs[1..]);
    }
  }

  /** A request with more than 256 segments can be cut short: its first segments followed by its
      last one look exactly like a shorter request. */
  function Shortened(q: Request): Request
    requires |q.segments| > 256
  {
    var last := |q.segments| - 1;
    q.(segments := q.segments[..last % 256] + [q.segments[last]])
  }

  function ShortcutHappenings(q: Request): seq<Happening>
    requires |q.segments| > 256
  {
    InOrder(0, (|q.segments| - 1) % 256) + [Arrive(|q.segments| - 1)]
  }

  lemma {:induction false} ShortcutCompletes(cfg: Config, q: Request)
    requires |q.segments| > 256 && Supports(cfg)
    ensures AllWithin(q, ShortcutHappenings(q))
    ensures Run(cfg, Absent, q, ShortcutHappenings(q)).completed == [Concat(Shortened(q).segments)]
  {
    var r := Shortened(q);
    var hs := ShortcutHappenings(q);
    var gs := InOrder(0, |r.segments|);
    forall j | 0 <= j < |hs|
      ensures hs[j].Arrive? && hs[j].i < |q.segments| && Piece(q, hs[j].i) == Piece(r, gs[j].i)
    {
      if j == |r.segments| - 1 {
        assert hs[j] == Arrive(|q.segments| - 1);
      }
    }
    InOrderCompletes(cfg, r);
    SameWireSameRun(cfg, Absent, q, r, hs, gs);
  }

  // --- beyond 256 segments nothing is right ---

  /** Segments taken one for each sequence number, whatever their place in the request. */
  predicate Picked(q: Request, picks: seq<nat>) {
    && 1 <= |picks| <= 256
    && forall j :: 0 <= j < |picks| ==> picks[j] < |q.segments| && picks[j] % 256 == j
  }

  function Joined(q: Request, picks: seq<nat>): seq<byte>
    requires forall j :: 0 <= j < |picks| ==> picks[j] < |q.segments|
  {
    if picks == [] then []
    else Joined(q, picks[..|picks| - 1]) + q.segments[picks[|picks| - 1]]
  }

  /** Whatever arrived, an open machine holds one segment for each number up to the awaited one. */
  predicate HoldsPicks(m: Machine, q: Request, picks: seq<nat>) {
    && m.state == SegmentedRequestReceiving && Picked(q, picks)
    && m.vars.segmentBuffer == Joined(q, picks) && m.vars.sequenceNumber == |picks| % 256
    && m.vars.bufferedPayloads == map[] && m.vars.bufferedMoreFollows == map[]
  }

  /** What an arrival may leave: a machine that holds such segments, or a request joined from them. */
  predicate Patched(o: Outcome, q: Request, picks: seq<nat>) {
    && (o.link.Open? ==> HoldsPicks(o.link.m, q, picks))
    && (o.completed == [] || (Picked(q, picks) && o.completed == [Joined(q, picks)]))
  }

  lemma JoinedGrows(q: Request, picks: seq<nat>, i: nat)
    requires i < |q.segments| && |picks| < 256 && i % 256 == |picks|
    requires picks == [] || Picked(q, picks)
    ensures Picked(q, picks + [i]) && Joined(q, picks + [i]) == Joined(q, picks) + q.segments[i]
  {
    assert (picks + [i])[..|picks|] == picks;
  }

  lemma OpeningPicks(cfg: Config, q: Request, i: nat)
    requires i < |q.segments| && i % 256 == 0
    ensures Patched(Deliver(cfg, Absent, Piece(q, i)), q, [i])
  {
    var a := Piece(q, i);
    if Supports(cfg) {
      var n := StartReceiving(NewMachine(cfg), a);
      DrainOne(n, a.payload, a.moreFollows);
      JoinedGrows(q, [], i);
      assert [] + [i] == [i];
    }
    hide Drain, Joined, Picked;
  }

  lemma TakenPicks(m: Machine, a: InboundAPDU)
    requires m.state == SegmentedRequestReceiving && a.sequenceNumber == m.vars.sequenceNumber
    requires m.vars.bufferedPayloads == map[] && m.vars.bufferedMoreFollows == map[]
    ensures var s := Step(m, InboundSegment, Input(a)).m;
            && s.state == (if a.moreFollows then SegmentedRequestReceiving else AwaitResponse)
            && s.vars.segmentBuffer == m.vars.segmentBuffer + a.payload
            && s.vars.sequenceNumber == Next(m.vars.sequenceNumber)
            && s.vars.bufferedPayloads == map[] && s.vars.bufferedMoreFollows == map[]
  {
    hide Step, Drain;
    StepAccepts(m, a);
  }

  lemma NextPicks(cfg: Config, m: Machine, q: Request, i: nat, picks: seq<nat>)
    requires HoldsPicks(m, q, picks) && i < |q.segments| && i % 256 != 0 && i % 256 == m.vars.sequenceNumber
    ensures Patched(Deliver(cfg, Open(m), Piece(q, i)), q, picks + [i])
  {
    hide Step, Joined;
    var a := Piece(q, i);
    TakenPicks(m, a);
    JoinedGrows(q, picks, i);
    hide Picked;
  }

  lemma OtherPicks(cfg: Config, m: Machine, q: Request, i: nat, picks: seq<nat>)
    requires HoldsPicks(m, q, picks) && i < |q.segments| && (i % 256 == 0 || i % 256 != m.vars.sequenceNumber)
    ensures Patched(Deliver(cfg, Open(m), Piece(q, i)), q, picks)
  {
    hide Drain, Joined, Picked, DuplicateInWindow;
  }

  lemma ReactPicks(cfg: Config, link: Link, q: Request, h: Happening, picks: seq<nat>) returns (more: seq<nat>)
    requires Within(q, h) && (link.Open? ==> HoldsPicks(link.m, q, picks))
    ensures Patched(React(cfg, link, q, h), q, more)
  {
    more := picks;
    if h.Arrive? {
      assert Piece(q, h.i).sequenceNumber == h.i % 256;
      if link.Absent? {
        if h.i % 256 == 0 {
          more := [h.i];
          OpeningPicks(cfg, q, h.i);
        }
      } else if h.i % 256 != 0 && h.i % 256 == link.m.vars.sequenceNumber {
        more := picks + [h.i];
        NextPicks(cfg, link.m, q, h.i, picks);
      } else {
        OtherPicks(cfg, link.m, q, h.i, picks);
      }
      hide Step, HoldsPicks, Joined, Picked;
    }
  }

  /** The octets of the picked segments among the first n. */
  function PickedLength(q: Request, picks: seq<nat>, n: nat): nat
    requires n <= |q.segments|
  {
    if n == 0 then 0
    else PickedLength(q, picks, n - 1) + (if n - 1 in picks then |q.segments[n - 1]| else 0)
  }

  lemma {:induction false} OneMorePicked(q: Request, picks: seq<nat>, i: nat, n: nat)
    requires n <= |q.segments| && i < |q.segments| && i !in picks
    ensures PickedLength(q, picks + [i], n) == PickedLength(q, picks, n) + (if i < n then |q.segments[i]| else 0)
    decreases n
  {
    if n > 0 {
      OneMorePicked(q, picks, i, n - 1);
    }
  }

  lemma {:induction false} NothingPicked(q: Request, n: nat)
    requires n <= |q.segments|
    ensures PickedLength(q, [], n) == 0
    decreases n
  {
    if n > 0 {
      NothingPicked(q, n - 1);
    }
  }

  lemma {:induction false} JoinedLength(q: Request, picks: seq<nat>)
    requires picks == [] || Picked(q, picks)
    ensures |Joined(q, picks)| == PickedLength(q, picks, |q.segments|)
    decreases |picks|
  {
    if picks == [] {
      NothingPicked(q, |q.segments|);
    } else {
      var front, i := picks[..|picks| - 1], picks[|picks| - 1];
      JoinedLength(q, front);
      assert picks == front + [i];
      OneMorePicked(q, front, i, |q.segments|);
    }
  }

  /** A segment that is not picked is missing. */
  lemma {:induction false} PickedIsShorter(q: Request, picks: seq<nat>, n: nat, missing: nat)
    requires n <= |q.segments| && missing < |q.segments| && missing !in picks && q.segments[missing] != []
    ensures PickedLength(q, picks, n) <= |Concat(q.segments[..n])|
    ensures missing < n ==> PickedLength(q, picks, n) < |Concat(q.segments[..n])|
    decreases n
  {
    if n > 0 {
      PickedIsShorter(q, picks, n - 1, missing);
      PrefixGrows(q, n - 1);
    }
  }

  lemma PicksMissOne(q: Request, picks: seq<nat>)
    requires Picked(q, picks) && |q.segments| > 256
    requires forall j :: 0 <= j < |q.segments| ==> q.segments[j] != []
    ensures Joined(q, picks) != Concat(q.segments)
  {
    var missing := if picks[0] == 0 then 256 else 0;
    assert forall j :: 0 < j < |picks| ==> picks[j] % 256 != missing % 256;
    JoinedLength(q, picks);
    PickedIsShorter(q, picks, |q.segments|, missing);
    assert q.segments[..|q.segments|] == q.segments;
  }

  /** Beyond 256 segments no network at all, not even a perfect one, gets the request through:
      whatever is completed, it is not the original. */
  lemma {:induction false} NeverRightBeyond256(cfg: Config, link: Link, q: Request, hs: seq<Happening>, picks: seq<nat>)
    requires |q.segments| > 256 && AllWithin(q, hs) && (link.Open? ==> HoldsPicks(link.m, q, picks))
    requires forall j :: 0 <= j < |q.segments| ==> q.segments[j] != []
    ensures forall x :: x in Run(cfg, link, q, hs).completed ==> x != Concat(q.segments)
    decreases |hs|
  {
    if hs != [] {
      var more := ReactPicks(cfg, link, q, hs[0], picks);
      var o := React(cfg, link, q, hs[0]);
      hide React, HoldsPicks, Joined, Picked;
      NeverRightBeyond256(cfg, o.link, q, hs[1..], more);
      if o.completed != [] {
        PicksMissOne(q, more);
      }
    }
  }

  /** No network ever completes the request as it was. */
  ghost predicate NeverRight(cfg: Config, q: Request) {
    forall hs | AllWithin(q, hs) :: Concat(q.segments) !in Run(cfg, Absent, q, hs).completed
  }

  /** Among requests without empty segments, those of at most 256 are reassembled right on every
      network and those of more on none. */
  lemma {:induction false} SafeExactlyUpTo256(cfg: Config, q: Request)
    requires |q.segments| >= 1 && Supports(cfg)
    requires forall j :: 0 <= j < |q.segments| ==> q.segments[j] != []
    ensures AlwaysRight(cfg, q) <==> |q.segments| <= 256
    ensures NeverRight(cfg, q) <==> |q.segments| > 256
  {
    if |q.segments| <= 256 {
      forall hs | AllWithin(q, hs)
        ensures forall j :: 0 <= j < |Run(cfg, Absent, q, hs).completed| ==>
                  Run(cfg, Absent, q, hs).completed[j] == Concat(q.segments)
      {
        ReassemblyIsSafe(cfg, Absent, q, hs);
      }
      InOrderCompletes(cfg, q);
      assert AllWithin(q, InOrder(0, |q.segments|));
    } else {
      forall hs | AllWithin(q, hs)
        ensures Concat(q.segments) !in Run(cfg, Absent, q, hs).completed
      {
        NeverRightBeyond256(cfg, Absent, q, hs, []);
      }
      ShortcutCompletes(cfg, q);
      assert Run(cfg, Absent, q, ShortcutHappenings(q)).completed[0] != Concat(q.segments);
    }
  }
}
