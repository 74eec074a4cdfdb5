/** Constructed values: what the stack parser for nested opening and closing tags accepts, and
    that it finds exactly the balanced body. */
module Bodies {
  import opened Wire
  import opened Tags

  /** A balanced body: primitives and properly nested pairs of opening and closing tags. */
  datatype Body =
    | Empty
    | Primitive(raw: seq<byte>, rest: Body)
    | Group(open: seq<byte>, inner: Body, close: seq<byte>, rest: Body)

  function Bytes(b: Body): seq<byte> {
    match b
    case Empty => []
    case Primitive(raw, rest) => raw + Bytes(rest)
    case Group(open, inner, close, rest) => open + (Bytes(inner) + (close + Bytes(rest)))
  }

  predicate IsOpening(raw: seq<byte>, number: byte) {
    ParseTag(raw) == Some(Head(Tag(number, true, true, false), |raw|, 0))
  }

  predicate IsClosing(raw: seq<byte>, number: byte) {
    ParseTag(raw) == Some(Head(Tag(number, true, false, true), |raw|, 0))
  }

  predicate IsPrimitive(raw: seq<byte>) {
    var h := ParseTag(raw);
    h.Some? && !h.value.tag.opening && !h.value.tag.closing && TotalLength(h.value) == |raw|
  }

  /** The two tags of a pair carry the same number. */
  predicate IsPair(open: seq<byte>, close: seq<byte>) {
    var h := ParseTag(open);
    h.Some? && IsOpening(open, h.value.tag.number) && IsClosing(close, h.value.tag.number)
  }

  predicate Balanced(b: Body) {
    match b
    case Empty => true
    case Primitive(raw, rest) => IsPrimitive(raw) && Balanced(rest)
    case Group(open, inner, close, rest) => IsPair(open, close) && Balanced(inner) && Balanced(rest)
  }

  /** The body's end and the end of the tag that closes it, counted from where the scan began. */
  datatype Found = Found(bodyEnd: nat, end: nat)

  function Shift(d: nat, f: Option<Found>): Option<Found> {
    if f.None? then None else Some(Found(d + f.value.bodyEnd, d + f.value.end))
  }

  /** Scan on with the given open tags, the innermost last. */
  function Scan(payload: seq<byte>, stack: seq<byte>): (r: Option<Found>)
    requires stack != []
    ensures r.Some? ==> r.value.bodyEnd < r.value.end <= |payload|
    decreases |payload|
  {
    if payload == [] then None
    else
      var h := ParseTag(payload);
      if h.None? then None
      else
        var t := h.value.tag;
        var length := TotalLength(h.value);
        if t.opening then Shift(length, Scan(payload[length..], stack + [t.number]))
        else if t.closing then
          if stack[|stack| - 1] != t.number then None
          else if |stack| == 1 then Some(Found(0, length))
          else Shift(length, Scan(payload[length..], stack[..|stack| - 1]))
        else Shift(length, Scan(payload[length..], stack))
  }

  datatype TaggedBody = TaggedBody(next: nat, value: seq<byte>)

  /** The value between the opening tag at offset and its closing tag, and where to go on. */
  function TaggedBodyAt(payload: seq<byte>, offset: nat, number: byte): (r: Option<TaggedBody>)
    ensures r.Some? ==> offset < r.value.next <= |payload|
  {
    var start := ExpectOpening(payload, offset, number);
    if start.None? then None
    else
      var f := Scan(payload[start.value..], [number]);
      if f.None? then None
      else Some(TaggedBody(start.value + f.value.end, payload[start.value..][..f.value.bodyEnd]))
  }

  /** The open tags after one more tag; nothing when a closing tag does not match. */
  function Restacked(stack: seq<byte>, t: Tag): Option<seq<byte>>
    requires stack != []
  {
    if t.opening then Some(stack + [t.number])
    else if !t.closing then Some(stack)
    else if stack[|stack| - 1] == t.number then Some(stack[..|stack| - 1])
    else None
  }

  lemma ScanTurn(p: seq<byte>, stack: seq<byte>)
    requires p != [] && stack != []
    ensures var h := ParseTag(p);
            if h.None? then Scan(p, stack).None?
            else
              var s := Restacked(stack, h.value.tag);
              if s.None? then Scan(p, stack).None?
              else if s.value == [] then Scan(p, stack) == Some(Found(0, h.value.header))
              else Scan(p, stack) == Shift(TotalLength(h.value), Scan(p[TotalLength(h.value)..], s.value))
  {
    hide ParseTag;
  }

  /** One turn of the loop. */
  lemma ScanTurns(payload: seq<byte>, cursor: nat, stack: seq<byte>, passed: nat)
    requires cursor < |payload| && stack != []
    ensures var h := ParseTag(payload[cursor..]);
            var found := Shift(passed, Scan(payload[cursor..], stack));
            if h.None? then found.None?
            else
              var next := cursor + TotalLength(h.value);
              var s := Restacked(stack, h.value.tag);
              && next <= |payload|
              && if s.None? then found.None?
                 else if s.value == [] then found == Some(Found(passed, passed + h.value.header))
                 else found == Shift(passed + next - cursor, Scan(payload[next..], s.value))
  {
    hide ParseTag;
    var p := payload[cursor..];
    var h := ParseTag(p);
    ScanTurn(p, stack);
    hide Scan, Restacked;
    if h.Some? {
      assert p[TotalLength(h.value)..] == payload[cursor + TotalLength(h.value)..];
    }
  }

  /** The loop of the decoder: the stack is never empty when a closing tag is met, and the
      cursor always advances. */
  method DecodeTaggedBody(payload: seq<byte>, offset: nat, number: byte) returns (r: Option<TaggedBody>)
    ensures r == TaggedBodyAt(payload, offset, number)
  {
    hide ParseTag, ExpectOpening, Scan;
    var next := ExpectOpening(payload, offset, number);
    if next.None? {
      return None;
    }
    var start := next.value;
    var stack := [number];
    var cursor := start;
    ghost var found := Scan(payload[start..], [number]);
    while cursor < |payload|
      invariant start <= cursor <= |payload| && stack != []
      invariant found == Shift(cursor - start, Scan(payload[cursor..], stack))
      decreases |payload| - cursor
    {
      ScanTurns(payload, cursor, stack, cursor - start);
      var h := ParseTag(payload[cursor..]);
      if h.None? {
        return None;
      }
      if h.value.tag.opening {
        stack := stack + [h.value.tag.number];
      } else if h.value.tag.closing {
        assert |stack| > 0;
        var expected := stack[|stack| - 1];
        if expected != h.value.tag.number {
          return None;
        }
        stack := stack[..|stack| - 1];
        if |stack| == 0 {
          assert payload[start..][..cursor - start] == payload[start..cursor];
          return Some(TaggedBody(cursor + h.value.header, payload[start..cursor]));
        }
      }
      cursor := cursor + TotalLength(h.value);
    }
    ScanOfNothing(payload, stack);
    r := None;
  }

  lemma ScanOfNothing(payload: seq<byte>, stack: seq<byte>)
    requires stack != []
    ensures Scan(payload[|payload|..], stack).None?
  {
  }

  // --- every balanced body is found ---

  lemma {:induction false} ScanSkips(b: Body, rest: seq<byte>, stack: seq<byte>)
    requires Balanced(b) && stack != []
    ensures Scan(Bytes(b) + rest, stack) == Shift(|Bytes(b)|, Scan(rest, stack))
    decreases b
  {
    hide ParseTag, Scan, IsOpening, IsClosing, IsPrimitive;
    match b {
      case Empty =>
        assert [] + rest == rest;
      case Primitive(raw, more) =>
        var tail := Bytes(more) + rest;
        assert Bytes(b) + rest == raw + tail;
        ScanPasses(raw, tail, stack);
        ScanSkips(more, rest, stack);
      case Group(open, inner, close, more) =>
        var number := ParseTag(open).value.tag.number;
        var afterClose := Bytes(more) + rest;
        var afterOpen := Bytes(inner) + (close + afterClose);
        assert Bytes(b) + rest == open + afterOpen;
        ScanOpens(open, number, afterOpen, stack);
        ScanSkips(inner, close + afterClose, stack + [number]);
        ScanCloses(close, number, afterClose, stack);
        ScanSkips(more, rest, stack);
    }
  }

  lemma ScanPasses(raw: seq<byte>, rest: seq<byte>, stack: seq<byte>)
    requires IsPrimitive(raw) && stack != []
    ensures Scan(raw + rest, stack) == Shift(|raw|, Scan(rest, stack))
  {
    hide ParseTag;
    ParseIsLocal(raw, rest);
    assert (raw + rest)[|raw|..] == rest;
  }

  lemma ScanOpens(open: seq<byte>, number: byte, rest: seq<byte>, stack: seq<byte>)
    requires IsOpening(open, number) && stack != []
    ensures Scan(open + rest, stack) == Shift(|open|, Scan(rest, stack + [number]))
  {
    hide ParseTag;
    ParseIsLocal(open, rest);
    assert (open + rest)[|open|..] == rest;
  }

  lemma ScanCloses(close: seq<byte>, number: byte, rest: seq<byte>, stack: seq<byte>)
    requires IsClosing(close, number) && stack != []
    ensures Scan(close + rest, stack + [number]) == Shift(|close|, Scan(rest, stack))
    ensures Scan(close + rest, [number]) == Some(Found(0, |close|))
  {
    hide ParseTag;
    ParseIsLocal(close, rest);
    assert (close + rest)[|close|..] == rest;
    assert (stack + [number])[..|stack|] == stack;
  }

  // --- nothing else is accepted ---

  /** A scanned payload split at the tag that closes the innermost open one. */
  datatype Split = Split(body: Body, close: seq<byte>, rest: seq<byte>)

  predicate SplitsAs(s: Split, payload: seq<byte>, stack: seq<byte>)
    requires stack != []
  {
    && Balanced(s.body) && IsClosing(s.close, stack[|stack| - 1])
    && payload == Bytes(s.body) + (s.close + s.rest)
    && if |stack| == 1 then Scan(payload, stack) == Some(Found(|Bytes(s.body)|, |Bytes(s.body)| + |s.close|))
       else Scan(s.rest, stack[..|stack| - 1]).Some?
  }

  lemma {:induction false} ScanSplits(payload: seq<byte>, stack: seq<byte>) returns (s: Split)
    requires stack != [] && Scan(payload, stack).Some?
    ensures SplitsAs(s, payload, stack)
    decreases |payload|
  {
    hide ParseTag;
    var h := ParseTag(payload).value;
    var raw := payload[..TotalLength(h)];
    var tail := payload[TotalLength(h)..];
    assert payload == raw + tail;
    ParseIsTight(payload);
    if h.tag.opening {
      s := SplitGroup(payload, raw, tail, stack);
    } else if h.tag.closing {
      HeadIsWhole(payload);
      s := Split(Empty, raw, tail);
      assert payload == [] + (raw + tail);
    } else {
      var t := ScanSplits(tail, stack);
      s := Split(Primitive(raw, t.body), t.close, t.rest);
      assert payload == (raw + Bytes(t.body)) + (t.close + t.rest);
      ScanSkips(s.body, s.close + s.rest, stack);
      if |stack| == 1 {
        ClosingEndsScan(s, payload, stack[0]);
      }
    }
  }

  /** A tag without a value is its header; opening and closing tags are context specific. */
  lemma HeadIsWhole(payload: seq<byte>)
    requires ParseTag(payload).Some?
    ensures var h := ParseTag(payload).value;
            var raw := payload[..TotalLength(h)];
            (h.tag.opening ==> IsOpening(raw, h.tag.number)) && (h.tag.closing ==> IsClosing(raw, h.tag.number))
  {
    ParseIsTight(payload);
  }

  lemma ClosingEndsScan(s: Split, payload: seq<byte>, number: byte)
    requires Balanced(s.body) && IsClosing(s.close, number) && payload == Bytes(s.body) + (s.close + s.rest)
    ensures Scan(payload, [number]) == Some(Found(|Bytes(s.body)|, |Bytes(s.body)| + |s.close|))
  {
    hide ParseTag, Scan, Bytes, Balanced, IsClosing;
    ScanSkips(s.body, s.close + s.rest, [number]);
    ScanCloses(s.close, number, s.rest, [number]);
  }

  lemma OpeningNumber(raw: seq<byte>, number: byte)
    requires IsOpening(raw, number)
    ensures ParseTag(raw).Some? && ParseTag(raw).value.tag.number == number
  {
  }

  lemma {:induction false} SplitGroup(payload: seq<byte>, raw: seq<byte>, tail: seq<byte>, stack: seq<byte>)
    returns (s: Split)
    requires stack != [] && Scan(payload, stack).Some? && payload == raw + tail
    requires ParseTag(payload).Some? && ParseTag(payload).value.tag.opening
    requires |raw| == TotalLength(ParseTag(payload).value)
    ensures SplitsAs(s, payload, stack)
    decreases |payload|, 0
  {
    hide ParseTag, Scan, IsOpening, IsClosing;
    var number := ParseTag(payload).value.tag.number;
    assert payload[..|raw|] == raw && payload[|raw|..] == tail;
    HeadIsWhole(payload);
    ScanOpens(raw, number, tail, stack);
    OpeningNumber(raw, number);
    var t := ScanSplits(tail, stack + [number]);
    assert (stack + [number])[..|stack|] == stack;
    var u := ScanSplits(t.rest, stack);
    s := Split(Group(raw, t.body, t.close, u.body), u.close, u.rest);
    assert payload == (raw + (Bytes(t.body) + (t.close + Bytes(u.body)))) + (u.close + u.rest);
    if |stack| == 1 {
      assert stack == [stack[0]];
      ClosingEndsScan(s, payload, stack[0]);
    }
  }

  predicate EnclosedBy(payload: seq<byte>, offset: nat, number: byte, b: Body, next: nat,
                       open: seq<byte>, close: seq<byte>, rest: seq<byte>)
  {
    && offset <= |payload| && payload[offset..] == open + (Bytes(b) + (close + rest))
    && IsOpening(open, number) && IsClosing(close, number)
    && next == offset + |open| + |Bytes(b)| + |close|
  }

  /** The payload holds, from offset on, an opening tag, this body, a matching closing tag. */
  ghost predicate Encloses(payload: seq<byte>, offset: nat, number: byte, b: Body, next: nat) {
    exists open, close, rest :: EnclosedBy(payload, offset, number, b, next, open, close, rest)
  }

  lemma EnclosedPartsAreFound(payload: seq<byte>, offset: nat, number: byte, b: Body, next: nat,
                              open: seq<byte>, close: seq<byte>, rest: seq<byte>)
    requires Balanced(b) && EnclosedBy(payload, offset, number, b, next, open, close, rest)
    ensures TaggedBodyAt(payload, offset, number) == Some(TaggedBody(next, Bytes(b)))
  {
    hide ParseTag, Scan, Balanced, IsOpening, IsClosing, Bytes, ExpectOpening;
    var tail := Bytes(b) + (close + rest);
    OpeningIsExpected(payload, offset, number, open, tail);
    ClosingEndsScan(Split(b, close, rest), tail, number);
    assert tail[..|Bytes(b)|] == Bytes(b);
  }

  lemma EnclosedIsFound(payload: seq<byte>, offset: nat, number: byte, b: Body, next: nat)
    requires Balanced(b) && Encloses(payload, offset, number, b, next)
    ensures TaggedBodyAt(payload, offset, number) == Some(TaggedBody(next, Bytes(b)))
  {
    hide EnclosedBy, TaggedBodyAt;
    var open, close, rest :| EnclosedBy(payload, offset, number, b, next, open, close, rest);
    EnclosedPartsAreFound(payload, offset, number, b, next, open, close, rest);
  }

  lemma OpeningIsExpected(payload: seq<byte>, offset: nat, number: byte, open: seq<byte>, tail: seq<byte>)
    requires offset <= |payload| && payload[offset..] == open + tail && IsOpening(open, number)
    ensures ExpectOpening(payload, offset, number) == Some(offset + |open|)
    ensures payload[offset + |open|..] == tail
  {
    hide ParseTag;
    ParseIsLocal(open, tail);
    assert payload[offset + |open|..] == payload[offset..][|open|..];
  }

  lemma FoundIsEnclosed(payload: seq<byte>, offset: nat, number: byte) returns (b: Body)
    requires TaggedBodyAt(payload, offset, number).Some?
    ensures var r := TaggedBodyAt(payload, offset, number).value;
            Balanced(b) && Bytes(b) == r.value && Encloses(payload, offset, number, b, r.next)
  {
    hide ParseTag;
    var start := ExpectOpening(payload, offset, number).value;
    HeadIsWhole(payload[offset..]);
    var open := payload[offset..][..start - offset];
    var s := ScanSplits(payload[start..], [number]);
    b := s.body;
    assert payload[start..][..|Bytes(b)|] == Bytes(b);
    assert payload[offset..] == open + payload[start..];
    assert EnclosedBy(payload, offset, number, b, start + |Bytes(b)| + |s.close|, open, s.close, s.rest);
  }

  /** The parser succeeds exactly on a balanced body between matching tags, returns exactly that
      body, and stops right behind the closing tag. */
  lemma ParsingIsExact(payload: seq<byte>, offset: nat, number: byte, value: seq<byte>, next: nat)
    ensures TaggedBodyAt(payload, offset, number) == Some(TaggedBody(next, value))
            <==> exists b :: Balanced(b) && Bytes(b) == value && Encloses(payload, offset, number, b, next)
  {
    hide Scan, ParseTag;
    if TaggedBodyAt(payload, offset, number) == Some(TaggedBody(next, value)) {
      var b := FoundIsEnclosed(payload, offset, number);
    }
    forall b | Balanced(b) && Bytes(b) == value && Encloses(payload, offset, number, b, next)
      ensures TaggedBodyAt(payload, offset, number) == Some(TaggedBody(next, value))
    {
      EnclosedIsFound(payload, offset, number, b, next);
    }
  }

  /** An encoded body is found wherever it was put. */
  lemma TaggedBodyFinds(before: seq<byte>, number: byte, b: Body, after: seq<byte>)
    requires Balanced(b)
    ensures TaggedBodyAt(before + (OpeningTag(number) + Bytes(b) + ClosingTag(number)) + after, |before|, number)
            == Some(TaggedBody(|before| + |OpeningTag(number)| + |Bytes(b)| + |ClosingTag(number)|, Bytes(b)))
  {
    hide ParseTag, OpeningTag, ClosingTag, Scan, TaggedBodyAt, Bytes, Balanced;
    var open, close := OpeningTag(number), ClosingTag(number);
    var payload := before + (open + Bytes(b) + close) + after;
    OpeningParses(number);
    assert IsOpening(open, number) && IsClosing(close, number);
    hide IsOpening, IsClosing;
    assert payload[|before|..] == open + (Bytes(b) + (close + after));
    EnclosedPartsAreFound(payload, |before|, number, b, |before| + |open| + |Bytes(b)| + |close|, open, close, after);
  }
}
