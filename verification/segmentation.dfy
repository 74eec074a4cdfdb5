/** How a long response is cut into segments, and that a transmit window is a run of
    consecutive canonical segments. */
module Segmentation {
  import opened Wire
  import opened Apdu
  import opened MachineSpec

  /** A response of n segments: the first carries at most first bytes, the others rest. */
  datatype Cutting = Cutting(first: int, rest: int, p: seq<byte>, n: nat)

  /** The most payload segment k may carry. */
  function Limit(c: Cutting, k: nat): int {
    if k == 0 then c.first else c.rest
  }

  /** Where segment k begins. */
  function Start(c: Cutting, k: nat): int {
    if k == 0 then 0 else Start(c, k - 1) + Limit(c, k - 1)
  }

  /** Exactly the first n segments begin inside the response. */
  predicate Good(c: Cutting) {
    c.first > 0 && c.rest > 0 && c.n > 0 && Start(c, c.n - 1) < |c.p| <= Start(c, c.n)
  }

  lemma {:induction false} StartMonotone(c: Cutting, i: nat, j: nat)
    requires c.first > 0 && c.rest > 0 && i <= j
    ensures Start(c, i) + (j - i) <= Start(c, j)
    decreases j - i
  {
    if i < j {
      StartMonotone(c, i + 1, j);
    }
  }

  /** Segment k begins inside the response exactly when k is below the count. */
  lemma StartInside(c: Cutting, k: nat)
    requires Good(c)
    ensures 0 <= Start(c, k)
    ensures Start(c, k) < |c.p| <==> k < c.n
  {
    StartMonotone(c, 0, k);
    if k < c.n {
      StartMonotone(c, k, c.n - 1);
    } else {
      StartMonotone(c, c.n, k);
    }
  }

  function Min(a: int, b: int): int {
    if a < b then a else b
  }

  /** Where segment k begins, or the end of the response when there is no segment k. */
  function Boundary(c: Cutting, k: nat): (b: nat)
    requires Good(c) && k <= c.n
    ensures b <= |c.p|
    ensures b < |c.p| <==> k < c.n
  {
    StartInside(c, k);
    if k == c.n then |c.p| else Start(c, k)
  }

  lemma BoundaryNext(c: Cutting, k: nat)
    requires Good(c) && k < c.n
    ensures Boundary(c, 0) == 0
    ensures Limit(c, k) > 0
    ensures Boundary(c, k) < Boundary(c, k + 1) == Min(Boundary(c, k) + Limit(c, k), |c.p|)
    ensures k + 1 < c.n ==> Boundary(c, k) + Limit(c, k) < |c.p|
  {
    StartInside(c, k);
    StartInside(c, k + 1);
    assert Start(c, k + 1) == Start(c, k) + Limit(c, k);
  }

  /** The bytes of segment k. */
  function Slice(c: Cutting, k: nat): (s: seq<byte>)
    requires Good(c) && k < c.n
    ensures s != [] && |s| <= Limit(c, k)
  {
    BoundaryNext(c, k);
    c.p[Boundary(c, k)..Boundary(c, k + 1)]
  }

  /** The segments k, k + 1, ... of the response. */
  function SlicesFrom(c: Cutting, k: nat): (s: seq<seq<byte>>)
    requires Good(c) && k <= c.n
    ensures |s| == c.n - k
    ensures forall i :: 0 <= i < |s| ==> s[i] == Slice(c, k + i)
    decreases c.n - k
  {
    if k == c.n then [] else [Slice(c, k)] + SlicesFrom(c, k + 1)
  }

  /** An independent reading: cut the longest allowed prefix until nothing is left. */
  function Cut(p: seq<byte>, first: int, rest: int): seq<seq<byte>>
    decreases |p|
  {
    if p == [] || first <= 0 then []
    else if |p| <= first then [p]
    else [p[..first]] + Cut(p[first..], rest, rest)
  }

  lemma {:induction false} CutFrom(c: Cutting, k: nat)
    requires Good(c) && k < c.n
    ensures Cut(c.p[Boundary(c, k)..], Limit(c, k), c.rest) == SlicesFrom(c, k)
    decreases c.n - k
  {
    BoundaryNext(c, k);
    var tail := c.p[Boundary(c, k)..];
    if k + 1 == c.n {
      assert SlicesFrom(c, k) == [Slice(c, k)];
      assert tail == Slice(c, k);
    } else {
      CutFrom(c, k + 1);
      assert tail[..Limit(c, k)] == Slice(c, k);
      assert tail[Limit(c, k)..] == c.p[Boundary(c, k + 1)..];
    }
  }

  lemma {:induction false} SlicesConcat(c: Cutting, k: nat)
    requires Good(c) && k <= c.n
    ensures Concat(SlicesFrom(c, k)) == c.p[Boundary(c, k)..]
    decreases c.n - k
  {
    if k < c.n {
      SlicesConcat(c, k + 1);
      var rest := SlicesFrom(c, k + 1);
      assert SlicesFrom(c, k) == [Slice(c, k)] + rest;
      assert Concat([Slice(c, k)] + rest) == Slice(c, k) + Concat(rest) by {
        assert ([Slice(c, k)] + rest)[1..] == rest;
      }
      SliceThenRest(c, k);
    }
  }

  lemma SliceThenRest(c: Cutting, k: nat)
    requires Good(c) && k < c.n
    ensures c.p[Boundary(c, k)..] == Slice(c, k) + c.p[Boundary(c, k + 1)..]
  {
    BoundaryNext(c, k);
  }

  // --- the machine's arithmetic ---

  /** The responses that are sent in segments. */
  predicate Segmentable(cfg: Config, p: seq<byte>) {
    CanSegmentResponse(cfg, AckType, |p|)
  }

  function CuttingOf(cfg: Config, p: seq<byte>): Cutting
    requires Segmentable(cfg, p)
  {
    Cutting(PayloadLimit(cfg, 0), PayloadLimit(cfg, 1), p, SegmentCount(cfg, |p|))
  }

  lemma CeilingDivision(a: nat, d: nat)
    requires d > 0
    ensures var q := (a + d - 1) / d; q * d >= a && (q - 1) * d < a
  {
    var q := (a + d - 1) / d;
    assert a + d - 1 == q * d + (a + d - 1) % d;
  }

  lemma {:induction false} StartClosedForm(c: Cutting, k: nat)
    ensures Start(c, k + 1) == c.first + k * c.rest
  {
    if k > 0 {
      StartClosedForm(c, k - 1);
    }
  }

  /** The machine's ceiling division yields a good cutting of 2 to 65 segments. */
  lemma CuttingIsGood(cfg: Config, p: seq<byte>)
    requires Segmentable(cfg, p)
    ensures Good(CuttingOf(cfg, p)) && 2 <= CuttingOf(cfg, p).n <= 65
    ensures CuttingOf(cfg, p).n <= MaxSegmentsLimit(cfg.requesterMaxSegments)
  {
    var c := CuttingOf(cfg, p);
    CeilingDivision(|p| - c.first, c.rest);
    StartClosedForm(c, c.n - 1);
    StartClosedForm(c, c.n - 2);
  }

  /** The announced count is the number of pieces that greedy cutting makes. The pieces are
      the canonical segments, none is empty, and together they are the response. */
  lemma CountIsCut(cfg: Config, p: seq<byte>)
    requires Segmentable(cfg, p)
    ensures var pieces := Cut(p, PayloadLimit(cfg, 0), PayloadLimit(cfg, 1));
            && |pieces| == SegmentCount(cfg, |p|)
            && Concat(pieces) == p
            && forall k :: 0 <= k < |pieces| ==> pieces[k] != []
  {
    CuttingIsGood(cfg, p);
    var c := CuttingOf(cfg, p);
    BoundaryNext(c, 0);
    CutFrom(c, 0);
    SlicesConcat(c, 0);
    assert p[0..] == p;
  }

  // --- windows ---

  /** The cutting describes the response the machine is sending. */
  predicate Cuts(c: Cutting, cfg: Config) {
    && Good(c) && 2 <= c.n <= 65
    && c.first == PayloadLimit(cfg, 0) && c.rest == PayloadLimit(cfg, 1)
  }

  /** Segment k as it goes on the wire when the window size in force is w. */
  function CanonicalSegment(cfg: Config, c: Cutting, w: byte, k: nat): OutboundAPDU
    requires Cuts(c, cfg) && k < c.n
  {
    Outbound(ComplexACK).(
      segmentedMessage := true,
      moreFollows := k + 1 < c.n,
      invokeID := cfg.invokeID,
      sequenceNumber := k,
      actualWindowSize := w,
      serviceChoice := cfg.serviceChoice,
      payload := Slice(c, k))
  }

  lemma SegmentIsCanonical(m: Machine, c: Cutting, k: nat)
    requires Cuts(c, m.cfg) && c.p == m.vars.responsePayload && k < c.n
    ensures PayloadLimit(m.cfg, k) > 0
    ensures SegmentEnd(m, k, Boundary(c, k)) == Boundary(c, k + 1) > Boundary(c, k)
    ensures ResponseSegment(m, k, Boundary(c, k), Boundary(c, k + 1))
            == CanonicalSegment(m.cfg, c, m.vars.actualWindowSize, k)
  {
    BoundaryNext(c, k);
  }

  /** The canonical segments k, ..., j - 1. */
  function SegmentRun(cfg: Config, c: Cutting, w: byte, k: nat, j: nat): (s: seq<OutboundAPDU>)
    requires Cuts(c, cfg) && k <= j <= c.n
    ensures |s| == j - k
    ensures forall i :: 0 <= i < |s| ==> s[i] == CanonicalSegment(cfg, c, w, k + i)
    decreases j - k
  {
    if k == j then [] else [CanonicalSegment(cfg, c, w, k)] + SegmentRun(cfg, c, w, k + 1, j)
  }

  /** A window from segment k is the canonical segments from k up to its budget or the end. */
  lemma {:induction false} WindowIsCanonical(m: Machine, c: Cutting, k: nat, budget: nat)
    requires Cuts(c, m.cfg) && c.p == m.vars.responsePayload && k < c.n && budget > 0
    ensures var j := Min(k + budget, c.n);
            WindowFrom(m, k, Boundary(c, k), budget)
            == Window(SegmentRun(m.cfg, c, m.vars.actualWindowSize, k, j), Boundary(c, j), Some(j - 1), false)
    decreases budget
  {
    hide PayloadLimit, Boundary, SegmentEnd, ResponseSegment, CanonicalSegment, Good;
    SegmentIsCanonical(m, c, k);
    var end := Boundary(c, k + 1);
    if k + 1 < c.n && budget > 1 {
      WindowIsCanonical(m, c, k + 1, budget - 1);
    } else {
      assert SegmentRun(m.cfg, c, m.vars.actualWindowSize, k + 1, k + 1) == [];
      if k + 1 < c.n {
        assert WindowFrom(m, k + 1, end, 0) == Window([], end, None, false);
      }
    }
  }

  /** An encoded segment, header included, fits the agreed APDU size. */
  lemma SegmentFits(cfg: Config, c: Cutting, w: byte, k: nat)
    requires Cuts(c, cfg) && k < c.n
    ensures var raw := Encode(CanonicalSegment(cfg, c, w, k));
            raw.Ok? && |raw.value| <= ResponseAPDULimit(cfg)
  {
  }
}
