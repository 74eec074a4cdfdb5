/** Which octets the readers of constructed data accept, told as a grammar: tag headers form by form
    (section 20.2.1 of ANSI/ASHRAE 135-2024), and list-valued answers and notifications as tags in
    sequence. */
module Grammar {
  import opened Wire
  import opened Tags
  import opened Bodies
  import opened Primitives
  import opened Lists
  import opened Notifications

  // --- tag headers ---

  /** Where the length of a value stands: in the tag octet, or in one, two or four octets of its own. */
  datatype Size = InTag(length: nat) | InOne(length: nat) | InTwo(length: nat) | InFour(length: nat)

  /** The forms of a header: an opening or closing tag, an application boolean, which keeps its value in
      the tag octet, and anything else followed by a value. A long form has its number in an octet of
      its own. */
  datatype Form =
    | Bracket(number: byte, long: bool, closing: bool)
    | Truth(long: bool, low: nat)
    | Value(number: byte, long: bool, context: bool, size: Size)

  function SizeOctets(s: Size): seq<int> {
    match s
    case InTag(_) => []
    case InOne(n) => [n]
    case InTwo(n) => [254, n / 0x100, n % 0x100]
    case InFour(n) => [255, n / 0x100_0000, n / 0x1_0000 % 0x100, n / 0x100 % 0x100, n % 0x100]
  }

  function LeadOctets(number: byte, long: bool, low: nat): seq<int> {
    if long then [0xF0 + low, number] else [number * 0x10 + low]
  }

  function FormOctets(f: Form): seq<int> {
    match f
    case Bracket(number, long, closing) => LeadOctets(number, long, if closing then 0x0F else 0x0E)
    case Truth(long, low) => LeadOctets(1, long, low)
    case Value(number, long, context, size) =>
      LeadOctets(number, long, (if context then 8 else 0) + (if size.InTag? then size.length else 5)) + SizeOctets(size)
  }

  /** Numbers above 14 need the long form. Lengths up to 4 fit the tag octet, and so do 6 and 7 where
      these do not mark an opening or closing tag. */
  predicate IsForm(f: Form) {
    match f
    case Bracket(number, long, _) => long || number < 15
    case Truth(_, low) => low < 8
    case Value(number, long, context, size) =>
      && (long || number < 15) && (context || number != 1)
      && match size
         case InTag(n) => n < 5 || (!context && (n == 6 || n == 7))
         case InOne(n) => n < 254
         case InTwo(n) => n < 0x1_0000
         case InFour(n) => n < 0x1_0000_0000
  }

  function Announced(f: Form): Head {
    match f
    case Bracket(number, _, closing) => Head(Tag(number, true, !closing, closing), |FormOctets(f)|, 0)
    case Truth(_, _) => Head(Tag(1, false, false, false), |FormOctets(f)|, 0)
    case Value(number, _, context, size) => Head(Tag(number, context, false, false), |FormOctets(f)|, size.length)
  }

  /** The octets begin with this header, and hold the value it announces. */
  predicate Begins(raw: seq<byte>, f: Form) {
    IsForm(f) && FormOctets(f) <= raw && TotalLength(Announced(f)) <= |raw|
  }

  lemma LeadIs(high: nat, low: nat)
    requires high < 16 && low < 16
    ensures var b := high * 16 + low;
            b < 256 && b / 16 == high && b % 8 == (if low < 8 then low else low - 8) && (Has(b, 8) <==> low >= 8)
  {
    TagByte(high, low >= 8, if low < 8 then low else low - 8);
  }

  lemma LeadSplits(b: byte)
    ensures var low := (if Has(b, 8) then 8 else 0) + b % 8; low < 16 && b == b / 16 * 16 + low
  {
  }

  lemma SizeIsRead(raw: seq<byte>, offset: nat, s: Size)
    requires !s.InTag? && offset + |SizeOctets(s)| <= |raw| && raw[offset..offset + |SizeOctets(s)|] == SizeOctets(s)
    requires match s
             case InOne(n) => n < 254
             case InTwo(n) => n < 0x1_0000
             case InFour(n) => n < 0x1_0000_0000
    ensures ExtendedLength(raw, offset) == Some((offset + |SizeOctets(s)|, s.length))
  {
    var o := raw[offset..offset + |SizeOctets(s)|];
    assert raw[offset] == o[0];
    match s {
      case InOne(n) =>
      case InTwo(n) =>
        assert raw[offset + 1..offset + 3] == o[1..3];
      case InFour(n) =>
        assert raw[offset + 1..offset + 5] == o[1..5];
        FourIs(o[1..5], n);
    }
  }

  lemma Digit(x: nat)
    ensures x == 0x100 * (x / 0x100) + x % 0x100
  {
  }

  lemma Quotients(n: nat)
    ensures n / 0x100 / 0x100 == n / 0x1_0000 && n / 0x1_0000 / 0x100 == n / 0x100_0000
  {
  }

  lemma FourIs(b: seq<byte>, n: uint32)
    requires |b| == 4
    requires b[0] == n / 0x100_0000 && b[1] == n / 0x1_0000 % 0x100 && b[2] == n / 0x100 % 0x100 && b[3] == n % 0x100
    ensures Get32(b) == n
  {
    Quotients(n);
    Digit(n);
    Digit(n / 0x100);
    Digit(n / 0x1_0000);
    assert Get32(b) == 0x1_0000 * (0x100 * (b[0] as int) + b[1]) + (0x100 * (b[2] as int) + b[3]);
  }

  lemma LeadParses(raw: seq<byte>, number: byte, long: bool, low: nat)
    requires low < 16 && (long || number < 15) && LeadOctets(number, long, low) <= raw
    ensures raw != [] && (raw[0] / 16 == 15 <==> long)
            && (if long then |raw| >= 2 && raw[1] == number else raw[0] / 16 == number)
    ensures (Has(raw[0], 8) <==> low >= 8) && Lvt(raw[0]) == if low < 8 then low else low - 8
  {
    var o := LeadOctets(number, long, low);
    assert raw[0] == o[0] && (long ==> raw[1] == o[1]);
    LeadIs(if long then 15 else number, low);
    hide Has;
  }

  lemma BracketIsParsed(raw: seq<byte>, f: Form)
    requires Begins(raw, f) && !f.Value?
    ensures ParseTag(raw) == Some(Announced(f))
  {
    if f.Bracket? {
      LeadParses(raw, f.number, f.long, if f.closing then 15 else 14);
    } else {
      LeadParses(raw, 1, f.long, f.low);
    }
    hide ExtendedLength, Has, Lvt;
  }

  lemma ValueIsParsed(raw: seq<byte>, f: Form)
    requires Begins(raw, f) && f.Value?
    ensures ParseTag(raw) == Some(Announced(f))
  {
    var size := f.size;
    var low := (if f.context then 8 else 0) + (if size.InTag? then size.length else 5);
    var lead := LeadOctets(f.number, f.long, low);
    var o := lead + SizeOctets(size);
    assert FormOctets(f) == o && lead <= o <= raw;
    LeadParses(raw, f.number, f.long, low);
    if !size.InTag? {
      assert raw[|lead|..|o|] == o[|lead|..] == SizeOctets(size);
      SizeIsRead(raw, |lead|, size);
    }
    hide ExtendedLength, Has, Lvt, SizeOctets;
  }

  lemma FormIsParsed(raw: seq<byte>, f: Form)
    requires Begins(raw, f)
    ensures ParseTag(raw) == Some(Announced(f))
  {
    hide ParseTag, Begins, Announced;
    if f.Value? {
      ValueIsParsed(raw, f);
    } else {
      BracketIsParsed(raw, f);
    }
  }

  function SizeAt(raw: seq<byte>, offset: nat): Size
    requires offset <= |raw| && ExtendedLength(raw, offset).Some?
  {
    var length := ExtendedLength(raw, offset).value.1;
    if raw[offset] <= 253 then InOne(length) else if raw[offset] == 254 then InTwo(length) else InFour(length)
  }

  lemma SizeAtIs(raw: seq<byte>, offset: nat)
    requires offset <= |raw| && ExtendedLength(raw, offset).Some?
    ensures var s := SizeAt(raw, offset);
            && !s.InTag? && ExtendedLength(raw, offset).value == (offset + |SizeOctets(s)|, s.length)
            && offset + |SizeOctets(s)| <= |raw| && raw[offset..offset + |SizeOctets(s)|] == SizeOctets(s)
            && match s
               case InOne(n) => n < 254
               case InTwo(n) => n < 0x1_0000
               case InFour(n) => n < 0x1_0000_0000
  {
    if raw[offset] == 255 {
      var b := raw[offset + 1..offset + 5];
      FourDigits(b);
      assert raw[offset..offset + 5] == [raw[offset], b[0], b[1], b[2], b[3]];
    } else if raw[offset] == 254 {
      var b := raw[offset + 1..offset + 3];
      assert raw[offset..offset + 3] == [raw[offset], b[0], b[1]];
    }
  }

  lemma FourDigits(b: seq<byte>)
    requires |b| == 4
    ensures var n := Get32(b);
            n / 0x100_0000 == b[0] && n / 0x1_0000 % 0x100 == b[1] && n / 0x100 % 0x100 == b[2] && n % 0x100 == b[3]
  {
    var n := Get32(b);
    var high, low := 0x100 * (b[0] as int) + b[1], 0x100 * (b[2] as int) + b[3];
    assert n == 0x1_0000 * high + low && n / 0x1_0000 == high && n % 0x1_0000 == low;
    assert n / 0x100 == 0x100 * high + b[2];
    assert high / 0x100 == b[0];
  }

  /** The tag octet, and the number behind it in a long form. */
  lemma LeadIsRead(raw: seq<byte>)
    requires ParseTag(raw).Some?
    ensures var h := ParseTag(raw).value;
            var long := raw[0] / 16 == 15;
            var low := (if Has(raw[0], 8) then 8 else 0) + raw[0] % 8;
            && low < 16 && (if long then 2 else 1) <= |raw| && (long || h.tag.number < 15)
            && raw[..if long then 2 else 1] == LeadOctets(h.tag.number, long, low)
            && (h.tag.contextSpecific <==> Has(raw[0], 8))
            && (h.tag.opening <==> low == 14) && (h.tag.closing <==> low == 15)
  {
    LeadSplits(raw[0]);
    hide Has, ExtendedLength;
  }

  lemma PlainHasForm(raw: seq<byte>, f: Form)
    requires ParseTag(raw).Some?
    requires var t := ParseTag(raw).value.tag;
             var long := raw[0] / 16 == 15;
             var low := raw[0] % 8;
             if t.opening || t.closing then f == Bracket(t.number, long, t.closing)
             else if !t.contextSpecific && t.number == 1 then f == Truth(long, low)
             else low != 5 && f == Value(t.number, long, t.contextSpecific, InTag(low))
    ensures Begins(raw, f) && Announced(f) == ParseTag(raw).value
  {
    LeadIsRead(raw);
    hide Has, ExtendedLength, LeadOctets;
    assert FormOctets(f) == raw[..if raw[0] / 16 == 15 then 2 else 1];
  }

  lemma SizedHasForm(raw: seq<byte>, offset: nat, f: Form)
    requires ParseTag(raw).Some? && offset == if raw[0] / 16 == 15 then 2 else 1
    requires var t := ParseTag(raw).value.tag; !t.opening && !t.closing && (t.contextSpecific || t.number != 1)
    requires raw[0] % 8 == 5
    requires offset <= |raw| && ExtendedLength(raw, offset).Some?
    requires var t := ParseTag(raw).value.tag;
             f == Value(t.number, raw[0] / 16 == 15, t.contextSpecific, SizeAt(raw, offset))
    ensures Begins(raw, f) && Announced(f) == ParseTag(raw).value
  {
    LeadIsRead(raw);
    SizeAtIs(raw, offset);
    hide Has, ExtendedLength, SizeAt, SizeOctets, LeadOctets;
    assert raw[..offset] + raw[offset..offset + |SizeOctets(f.size)|] == raw[..offset + |SizeOctets(f.size)|];
    assert FormOctets(f) == raw[..offset + |SizeOctets(f.size)|];
  }

  lemma ParsedHasForm(raw: seq<byte>) returns (f: Form)
    requires ParseTag(raw).Some?
    ensures Begins(raw, f) && Announced(f) == ParseTag(raw).value
  {
    var t := ParseTag(raw).value.tag;
    var long := raw[0] / 16 == 15;
    var low := raw[0] % 8;
    if !t.opening && !t.closing && (t.contextSpecific || t.number != 1) && low == 5 {
      var offset := if long then 2 else 1;
      f := Value(t.number, long, t.contextSpecific, SizeAt(raw, offset));
      SizedHasForm(raw, offset, f);
    } else {
      f := if t.opening || t.closing then Bracket(t.number, long, t.closing)
           else if !t.contextSpecific && t.number == 1 then Truth(long, low)
           else Value(t.number, long, t.contextSpecific, InTag(low));
      PlainHasForm(raw, f);
    }
    hide Begins, Announced, Has;
  }

  /** A header is read from the octets exactly when they begin with one of these forms and hold the value
      it announces. */
  lemma HeadersExactly(raw: seq<byte>, h: Head)
    ensures ParseTag(raw) == Some(h) <==> exists f :: Begins(raw, f) && Announced(f) == h
  {
    hide ParseTag, Begins, Announced;
    if ParseTag(raw) == Some(h) {
      var f := ParsedHasForm(raw);
    }
    forall f | Begins(raw, f)
      ensures ParseTag(raw) == Some(Announced(f))
    {
      FormIsParsed(raw, f);
    }
  }

  // --- fields ---

  /** A context primitive of this number and nothing else. */
  predicate IsField(raw: seq<byte>, number: byte) {
    var h := ParseTag(raw);
    h.Some? && h.value.tag == Tag(number, true, false, false) && TotalLength(h.value) == |raw|
  }

  function Content(raw: seq<byte>): seq<byte>
    requires ParseTag(raw).Some?
  {
    raw[ParseTag(raw).value.header..]
  }

  predicate IsNumber(raw: seq<byte>, number: byte, v: uint32) {
    IsField(raw, number) && UnsignedOf(Content(raw)) == Some(v)
  }

  predicate IsObject(raw: seq<byte>, number: byte, id: uint32) {
    IsField(raw, number) && |Content(raw)| == 4 && Get32(Content(raw)) == id
  }

  /** A field that may be missing is only recognised in the short form of its number. */
  predicate IsOptional(raw: seq<byte>, number: byte, v: Option<uint32>) {
    if v.None? then raw == [] else raw != [] && raw[0] / 0x10 == number && IsNumber(raw, number, v.value)
  }

  /** A balanced body between an opening and a closing tag of this number. */
  predicate IsWrapping(raw: seq<byte>, number: byte, open: seq<byte>, b: Body, close: seq<byte>) {
    raw == open + (Bytes(b) + close) && Balanced(b) && IsOpening(open, number) && IsClosing(close, number)
  }

  ghost predicate IsWrapped(raw: seq<byte>, number: byte, content: seq<byte>) {
    exists open, b, close :: IsWrapping(raw, number, open, b, close) && Bytes(b) == content
  }

  /** The two places lie in the payload, the second behind the first. */
  predicate Ahead(payload: seq<byte>, offset: nat, next: nat) {
    offset < next <= |payload|
  }

  /** A part of a part. */
  lemma PartOf(payload: seq<byte>, from: nat, to: nat, a: nat, b: nat)
    requires from <= a <= b <= to <= |payload|
    ensures payload[from..to][a - from..b - from] == payload[a..b]
  {
    var x, y := payload[from..to][a - from..b - from], payload[a..b];
    assert |x| == |y|;
    assert forall i :: 0 <= i < |x| ==> x[i] == y[i];
  }

  lemma ToTheEnd(payload: seq<byte>, from: nat)
    requires from <= |payload|
    ensures payload[from..|payload|] == payload[from..]
  {
  }

  /** A part split in two. */
  lemma SplitAt(payload: seq<byte>, from: nat, mid: nat, to: nat)
    requires from <= mid <= to <= |payload|
    ensures payload[from..to][..mid - from] == payload[from..mid] && payload[from..to][mid - from..] == payload[mid..to]
  {
    PartOf(payload, from, to, from, mid);
    PartOf(payload, from, to, mid, to);
  }

  lemma FieldExactly(payload: seq<byte>, offset: nat, number: byte, value: seq<byte>, next: nat)
    ensures ExpectContext(payload, offset, number) == Some(Field(value, next))
            <==> Ahead(payload, offset, next) && IsField(payload[offset..next], number)
                 && Content(payload[offset..next]) == value
  {
    hide ParseTag;
    if offset < |payload| {
      var tail := payload[offset..];
      if ParseTag(tail).Some? {
        var end := offset + TotalLength(ParseTag(tail).value);
        ParseIsTight(tail);
        assert tail[..end - offset] == payload[offset..end];
      }
      if Ahead(payload, offset, next) && IsField(payload[offset..next], number) {
        ParseIsLocal(payload[offset..next], payload[next..]);
        assert tail == payload[offset..next] + payload[next..];
      }
    }
  }

  lemma NumberExactly(payload: seq<byte>, offset: nat, number: byte, v: uint32, next: nat)
    ensures UnsignedAt(payload, offset, number) == Good(v, next)
            <==> Ahead(payload, offset, next) && IsNumber(payload[offset..next], number, v)
  {
    hide ParseTag, UnsignedOf, ExpectContext, Content;
    var f := ExpectContext(payload, offset, number);
    if f.Some? {
      FieldExactly(payload, offset, number, f.value.value, f.value.next);
    }
    if Ahead(payload, offset, next) && IsField(payload[offset..next], number) {
      FieldExactly(payload, offset, number, Content(payload[offset..next]), next);
    }
  }

  lemma ObjectExactly(payload: seq<byte>, offset: nat, number: byte, id: uint32, next: nat)
    ensures ObjectAt(payload, offset, number) == Good(id, next)
            <==> Ahead(payload, offset, next) && IsObject(payload[offset..next], number, id)
  {
    hide ParseTag, Get32, ExpectContext, Content;
    var f := ExpectContext(payload, offset, number);
    if f.Some? {
      FieldExactly(payload, offset, number, f.value.value, f.value.next);
    }
    if Ahead(payload, offset, next) && IsField(payload[offset..next], number) {
      FieldExactly(payload, offset, number, Content(payload[offset..next]), next);
    }
  }

  lemma OpeningExactly(payload: seq<byte>, offset: nat, number: byte, next: nat)
    ensures ExpectOpening(payload, offset, number) == Some(next)
            <==> Ahead(payload, offset, next) && IsOpening(payload[offset..next], number)
  {
    hide ParseTag;
    if offset < |payload| {
      var tail := payload[offset..];
      if ParseTag(tail).Some? {
        var end := offset + TotalLength(ParseTag(tail).value);
        HeadIsWhole(tail);
        assert tail[..end - offset] == payload[offset..end];
      }
      if Ahead(payload, offset, next) && IsOpening(payload[offset..next], number) {
        ParseIsLocal(payload[offset..next], payload[next..]);
        assert tail == payload[offset..next] + payload[next..];
      }
    }
  }

  lemma WrappedExactly(payload: seq<byte>, offset: nat, number: byte, content: seq<byte>, next: nat)
    ensures TaggedBodyAt(payload, offset, number) == Some(TaggedBody(next, content))
            <==> Ahead(payload, offset, next) && IsWrapped(payload[offset..next], number, content)
  {
    hide ParseTag, Balanced, Bytes, TaggedBodyAt, IsOpening, IsClosing;
    if TaggedBodyAt(payload, offset, number) == Some(TaggedBody(next, content)) {
      var b := FoundIsEnclosed(payload, offset, number);
      var open, close, rest :| EnclosedBy(payload, offset, number, b, next, open, close, rest);
      assert payload[offset..next] == payload[offset..][..next - offset] == open + (Bytes(b) + close);
      assert IsWrapping(payload[offset..next], number, open, b, close);
    }
    if Ahead(payload, offset, next) && IsWrapped(payload[offset..next], number, content) {
      var open, b, close :| IsWrapping(payload[offset..next], number, open, b, close) && Bytes(b) == content;
      assert payload[offset..] == payload[offset..next] + payload[next..];
      assert payload[offset..] == open + (Bytes(b) + (close + payload[next..]));
      assert EnclosedBy(payload, offset, number, b, next, open, close, payload[next..]);
      EnclosedIsFound(payload, offset, number, b, next);
    }
  }

  /** What a tag octet looks like to the reader of optional fields. */
  lemma LooksExactly(raw: seq<byte>, number: byte)
    requires ParseTag(raw).Some? && number < 15
    ensures LooksLikeContext(raw[0], number)
            <==> ParseTag(raw).value.tag == Tag(number, true, false, false) && raw[0] / 0x10 == number
  {
    hide ExtendedLength, Has;
  }

  lemma StartLooks(payload: seq<byte>, offset: nat, next: nat, number: byte)
    requires Ahead(payload, offset, next) && number < 15
    requires var h := ParseTag(payload[offset..next]); h.Some? && TotalLength(h.value) == next - offset
    ensures LooksLikeContext(payload[offset], number)
            <==> ParseTag(payload[offset..next]).value.tag == Tag(number, true, false, false)
                 && payload[offset] / 0x10 == number
  {
    hide ParseTag, LooksLikeContext;
    LooksExactly(payload[offset..next], number);
  }

  lemma OptionalExactly(payload: seq<byte>, offset: nat, number: byte, v: Option<uint32>, next: nat)
    requires offset < |payload| && number < 15
    ensures OptionalAt(payload, offset, number) == Good(v, next)
            <==> && offset <= next <= |payload| && IsOptional(payload[offset..next], number, v)
                 && (v.None? ==> !LooksLikeContext(payload[offset], number))
  {
    hide ParseTag, UnsignedOf, LooksLikeContext, UnsignedAt;
    if v.Some? {
      NumberExactly(payload, offset, number, v.value, next);
      if Ahead(payload, offset, next) && IsNumber(payload[offset..next], number, v.value) {
        StartLooks(payload, offset, next, number);
      }
    }
  }

  // --- ReadProperty-ACK ---

  /** The parts of a read-property answer, told by where they end. */
  ghost predicate AckParts(raw: seq<byte>, a: PropertyAck, subject: nat, property: nat, index: nat) {
    && 0 < subject < property <= index < |raw|
    && IsObject(raw[..subject], 0, a.id) && IsNumber(raw[subject..property], 1, a.property)
    && IsOptional(raw[property..index], 2, a.index) && IsWrapped(raw[index..], 3, a.content)
  }

  /** An object, a property, perhaps an index, and a value in its tags. */
  ghost predicate IsPropertyAck(raw: seq<byte>, a: PropertyAck) {
    exists subject, property, index :: AckParts(raw, a, subject, property, index)
  }

  /** What wraps a body does not look like a field. */
  lemma WrappingIsNoField(payload: seq<byte>, offset: nat, next: nat, number: byte, content: seq<byte>, other: byte)
    requires Ahead(payload, offset, next) && IsWrapped(payload[offset..next], number, content) && other < 15
    ensures !LooksLikeContext(payload[offset], other)
  {
    hide ParseTag, LooksLikeContext, Bytes, Balanced, IsClosing;
    var raw := payload[offset..next];
    var open, b, close :| IsWrapping(raw, number, open, b, close) && Bytes(b) == content;
    assert payload[offset] == raw[0] == open[0];
    LooksExactly(open, other);
  }

  lemma PropertyAckIsAccepted(raw: seq<byte>, a: PropertyAck, subject: nat, property: nat, index: nat)
    requires AckParts(raw, a, subject, property, index)
    ensures PropertyAckOf(raw) == Some(a)
  {
    hide IsObject, IsNumber, IsOptional, IsWrapped, ObjectAt, UnsignedAt, OptionalAt, TaggedBodyAt, LooksLikeContext;
    ObjectExactly(raw, 0, 0, a.id, subject);
    NumberExactly(raw, subject, 1, a.property, property);
    OptionalExactly(raw, property, 2, a.index, index);
    WrappedExactly(raw, index, 3, a.content, |raw|);
    assert raw[index..|raw|] == raw[index..];
    assert raw[0..subject] == raw[..subject];
    if property == index {
      WrappingIsNoField(raw, index, |raw|, 3, a.content, 2);
    } else {
      EmptyIsMissing(raw[property..index], 2, a.index);
    }
  }

  lemma EmptyIsMissing(raw: seq<byte>, number: byte, v: Option<uint32>)
    requires IsOptional(raw, number, v)
    ensures raw == [] <==> v.None?
  {
    hide IsNumber;
  }

  lemma AcceptedIsPropertyAck(raw: seq<byte>, a: PropertyAck)
    requires PropertyAckOf(raw) == Some(a)
    ensures IsPropertyAck(raw, a)
  {
    hide IsObject, IsNumber, IsOptional, IsWrapped, ObjectAt, UnsignedAt, OptionalAt, TaggedBodyAt, LooksLikeContext;
    var subject := ObjectAt(raw, 0, 0).next;
    var property := UnsignedAt(raw, subject, 1).next;
    var index := OptionalAt(raw, property, 2).next;
    ObjectExactly(raw, 0, 0, a.id, subject);
    NumberExactly(raw, subject, 1, a.property, property);
    OptionalExactly(raw, property, 2, a.index, index);
    WrappedExactly(raw, index, 3, a.content, |raw|);
    assert raw[index..|raw|] == raw[index..];
    assert raw[0..subject] == raw[..subject];
    assert AckParts(raw, a, subject, property, index);
  }

  /** A read-property answer is accepted exactly when it is made of these parts, with nothing behind
      them. */
  lemma PropertyAcksExactly(raw: seq<byte>, a: PropertyAck)
    ensures PropertyAckOf(raw) == Some(a) <==> IsPropertyAck(raw, a)
  {
    hide PropertyAckOf, AckParts;
    if PropertyAckOf(raw) == Some(a) {
      AcceptedIsPropertyAck(raw, a);
    }
    if subject, property, index :| AckParts(raw, a, subject, property, index) {
      PropertyAckIsAccepted(raw, a, subject, property, index);
    }
  }

  // --- ReadPropertyMultiple-ACK ---

  ghost predicate EntryParts(raw: seq<byte>, e: Entry, property: nat, index: nat) {
    && 0 < property <= index < |raw|
    && IsNumber(raw[..property], 2, e.property) && IsOptional(raw[property..index], 3, e.index)
    && IsWrapped(raw[index..], if e.failed then 5 else 4, e.content)
  }

  /** A property, perhaps an index, and a value in tags 4 or an error in tags 5. */
  ghost predicate IsEntry(raw: seq<byte>, e: Entry) {
    exists property, index :: EntryParts(raw, e, property, index)
  }

  /** One entry after the other. */
  ghost predicate AreEntries(raw: seq<byte>, es: seq<Entry>)
    decreases |es|
  {
    if es == [] then raw == []
    else exists n :: 0 < n <= |raw| && IsEntry(raw[..n], es[0]) && AreEntries(raw[n..], es[1..])
  }

  ghost predicate AccessParts(raw: seq<byte>, a: ReadAccess, subject: nat, opening: nat) {
    && 0 < subject < opening < |raw|
    && IsObject(raw[..subject], 0, a.id) && IsOpening(raw[subject..opening], 1)
    && AreEntries(raw[opening..|raw| - 1], a.results) && raw[|raw| - 1] == 0x1F
  }

  /** An object, and its entries in tags 1, of which the closing one is a single octet. */
  ghost predicate IsAccess(raw: seq<byte>, a: ReadAccess) {
    exists subject, opening :: AccessParts(raw, a, subject, opening)
  }

  ghost predicate AreAccesses(raw: seq<byte>, s: seq<ReadAccess>)
    decreases |s|
  {
    if s == [] then raw == []
    else exists n :: 0 < n <= |raw| && IsAccess(raw[..n], s[0]) && AreAccesses(raw[n..], s[1..])
  }

  /** The content with its tags, value or error. */
  lemma ContentExactly(payload: seq<byte>, offset: nat, e: Entry, next: nat)
    ensures ContentAt(payload, offset, e.property, e.index) == Good(e, next)
            <==> Ahead(payload, offset, next)
                 && IsWrapped(payload[offset..next], if e.failed then 5 else 4, e.content)
  {
    hide ParseTag, IsWrapped, TaggedBodyAt;
    WrappedExactly(payload, offset, if e.failed then 5 else 4, e.content, next);
    if TaggedBodyAt(payload, offset, 4).Some? {
      BodyOpens(payload, offset, 4);
    }
    if TaggedBodyAt(payload, offset, 5).Some? {
      BodyOpens(payload, offset, 5);
    }
  }

  lemma BodyOpens(payload: seq<byte>, offset: nat, number: byte)
    requires TaggedBodyAt(payload, offset, number).Some?
    ensures OpeningAt(payload, offset, number)
    ensures forall other: byte :: OpeningAt(payload, offset, other) ==> other == number
  {
    hide ParseTag;
  }

  lemma EntryIsAccepted(payload: seq<byte>, offset: nat, e: Entry, next: nat, property: nat, index: nat)
    requires Ahead(payload, offset, next) && EntryParts(payload[offset..next], e, property, index)
    ensures EntryAt(payload, offset) == Good(e, next)
  {
    hide IsNumber, IsOptional, IsWrapped, UnsignedAt, OptionalAt, ContentAt, LooksLikeContext;
    var raw := payload[offset..next];
    var p, i := offset + property, offset + index;
    PartOf(payload, offset, next, p, i);
    SplitAt(payload, offset, p, next);
    SplitAt(payload, offset, i, next);
    NumberExactly(payload, offset, 2, e.property, p);
    OptionalExactly(payload, p, 3, e.index, i);
    ContentExactly(payload, i, e, next);
    if p == i {
      WrappingIsNoField(payload, i, next, if e.failed then 5 else 4, e.content, 3);
    } else {
      EmptyIsMissing(payload[p..i], 3, e.index);
    }
  }

  lemma AcceptedIsEntry(payload: seq<byte>, offset: nat, e: Entry, next: nat)
    requires EntryAt(payload, offset) == Good(e, next)
    ensures Ahead(payload, offset, next) && IsEntry(payload[offset..next], e)
  {
    hide IsNumber, IsOptional, IsWrapped, UnsignedAt, OptionalAt, LooksLikeContext;
    var p := UnsignedAt(payload, offset, 2).next;
    var i := OptionalAt(payload, p, 3).next;
    assert ContentAt(payload, i, e.property, e.index) == Good(e, next) by { ContentKeeps(payload, i, e, next); }
    hide ContentAt;
    NumberExactly(payload, offset, 2, e.property, p);
    OptionalExactly(payload, p, 3, e.index, i);
    ContentExactly(payload, i, e, next);
    var raw := payload[offset..next];
    PartOf(payload, offset, next, p, i);
    SplitAt(payload, offset, p, next);
    SplitAt(payload, offset, i, next);
    assert EntryParts(raw, e, p - offset, i - offset);
  }

  lemma ContentKeeps(payload: seq<byte>, offset: nat, e: Entry, next: nat)
    ensures forall property, index :: ContentAt(payload, offset, property, index) == Good(e, next)
              ==> e.property == property && e.index == index
  {
    hide TaggedBodyAt, ExpectOpening;
  }

  lemma EntryExactly(payload: seq<byte>, offset: nat, e: Entry, next: nat)
    ensures EntryAt(payload, offset) == Good(e, next)
            <==> Ahead(payload, offset, next) && IsEntry(payload[offset..next], e)
  {
    hide EntryAt, EntryParts;
    if EntryAt(payload, offset) == Good(e, next) {
      AcceptedIsEntry(payload, offset, e, next);
    }
    if Ahead(payload, offset, next) && IsEntry(payload[offset..next], e) {
      var property, index :| EntryParts(payload[offset..next], e, property, index);
      EntryIsAccepted(payload, offset, e, next, property, index);
    }
  }

  /** Where an entry stands no list of entries ends. */
  lemma EntryDoesNotClose(payload: seq<byte>, offset: nat)
    requires EntryAt(payload, offset).Good?
    ensures !ClosingAt(payload, offset, 1)
  {
    hide UnsignedAt, OptionalAt, ContentAt, ClosingAt;
    UnsignedDoesNotClose(payload, offset);
  }

  lemma {:induction false} EntriesExactly(payload: seq<byte>, cursor: nat, es: seq<Entry>, next: nat)
    ensures EntriesAt(payload, cursor) == Good(es, next)
            <==> && Ahead(payload, cursor, next) && AreEntries(payload[cursor..next - 1], es)
                 && ClosingAt(payload, next - 1, 1)
    decreases |es|
  {
    hide EntryAt, ClosingAt, IsEntry;
    if EntriesAt(payload, cursor) == Good(es, next) {
      AcceptedAreEntries(payload, cursor, es, next);
    }
    if Ahead(payload, cursor, next) && AreEntries(payload[cursor..next - 1], es) && ClosingAt(payload, next - 1, 1) {
      EntriesAreAccepted(payload, cursor, es, next);
    }
  }

  lemma {:induction false} AcceptedAreEntries(payload: seq<byte>, cursor: nat, es: seq<Entry>, next: nat)
    requires EntriesAt(payload, cursor) == Good(es, next)
    ensures Ahead(payload, cursor, next) && AreEntries(payload[cursor..next - 1], es) && ClosingAt(payload, next - 1, 1)
    decreases |es|
  {
    hide EntryAt, ClosingAt, IsEntry;
    if es != [] {
      var e := EntryAt(payload, cursor);
      EntryExactly(payload, cursor, es[0], e.next);
      assert es[1..] == EntriesAt(payload, e.next).value;
      AcceptedAreEntries(payload, e.next, es[1..], next);
      var raw, n := payload[cursor..next - 1], e.next - cursor;
      SplitAt(payload, cursor, e.next, next - 1);
    }
  }

  lemma {:induction false} EntriesAreAccepted(payload: seq<byte>, cursor: nat, es: seq<Entry>, next: nat)
    requires Ahead(payload, cursor, next) && AreEntries(payload[cursor..next - 1], es)
            && ClosingAt(payload, next - 1, 1)
    ensures EntriesAt(payload, cursor) == Good(es, next)
    decreases |es|
  {
    hide EntryAt, ClosingAt, IsEntry;
    if es != [] {
      var raw := payload[cursor..next - 1];
      var n :| 0 < n <= |raw| && IsEntry(raw[..n], es[0]) && AreEntries(raw[n..], es[1..]);
      SplitAt(payload, cursor, cursor + n, next - 1);
      EntryExactly(payload, cursor, es[0], cursor + n);
      EntryDoesNotClose(payload, cursor);
      EntriesAreAccepted(payload, cursor + n, es[1..], next);
      assert [es[0]] + es[1..] == es;
    }
  }

  /** A closing tag is stepped over as one octet; where it is two octets long, what is left of it cannot
      begin a field. */
  lemma OneOctetCloses(payload: seq<byte>, offset: nat, number: byte)
    requires number < 15 && number % 0x10 < 8
    ensures offset < |payload| && payload[offset] == number * 0x10 + 0x0F ==> ClosingAt(payload, offset, number)
    ensures ClosingAt(payload, offset, number) ==>
              && offset < |payload|
              && (payload[offset] == number * 0x10 + 0x0F || (offset + 1 < |payload| && payload[offset + 1] == number))
  {
    if offset < |payload| {
      LeadSplits(payload[offset]);
      LeadIs(number, 15);
    }
    hide ExtendedLength, Has;
  }

  lemma NumberIsNoField(payload: seq<byte>, offset: nat)
    requires offset < |payload| && payload[offset] < 8
    ensures ObjectAt(payload, offset, 0) == Refused
  {
    hide ExtendedLength;
  }

  lemma AcceptedIsAccess(payload: seq<byte>, cursor: nat, a: ReadAccess, next: nat)
    requires AccessAt(payload, cursor) == Good(a, next)
    requires next == |payload| || ObjectAt(payload, next, 0).Good?
    ensures Ahead(payload, cursor, next) && IsAccess(payload[cursor..next], a)
  {
    hide ParseTag, ObjectAt, ExpectOpening, EntriesAt, IsObject, IsOpening, AreEntries, ClosingAt;
    var o := ObjectAt(payload, cursor, 0).next;
    var inside := ExpectOpening(payload, o, 1).value;
    ObjectExactly(payload, cursor, 0, a.id, o);
    OpeningExactly(payload, o, 1, inside);
    EntriesExactly(payload, inside, a.results, next);
    OneOctetCloses(payload, next - 1, 1);
    if next < |payload| && payload[next] == 1 {
      NumberIsNoField(payload, next);
    }
    var raw := payload[cursor..next];
    SplitAt(payload, cursor, o, next);
    PartOf(payload, cursor, next, o, inside);
    PartOf(payload, cursor, next, inside, next - 1);
    assert AccessParts(raw, a, o - cursor, inside - cursor);
  }

  lemma AccessIsAccepted(payload: seq<byte>, cursor: nat, a: ReadAccess, next: nat)
    requires Ahead(payload, cursor, next) && IsAccess(payload[cursor..next], a)
    ensures AccessAt(payload, cursor) == Good(a, next)
  {
    hide ParseTag, ObjectAt, ExpectOpening, EntriesAt, IsObject, IsOpening, AreEntries, ClosingAt;
    var raw := payload[cursor..next];
    var subject: nat, opening: nat :| AccessParts(raw, a, subject, opening);
    var o, inside := cursor + subject, cursor + opening;
    SplitAt(payload, cursor, o, next);
    PartOf(payload, cursor, next, o, inside);
    PartOf(payload, cursor, next, inside, next - 1);
    ObjectExactly(payload, cursor, 0, a.id, o);
    OpeningExactly(payload, o, 1, inside);
    OneOctetCloses(payload, next - 1, 1);
    EntriesExactly(payload, inside, a.results, next);
  }

  lemma AccessBegins(payload: seq<byte>, cursor: nat)
    requires cursor <= |payload| && AccessesAt(payload, cursor).Good?
    ensures cursor == |payload| || ObjectAt(payload, cursor, 0).Good?
  {
    hide ObjectAt, ExpectOpening, EntriesAt;
  }

  lemma {:induction false} AcceptedAreAccesses(payload: seq<byte>, cursor: nat, s: seq<ReadAccess>, next: nat)
    requires cursor <= |payload| && AccessesAt(payload, cursor) == Good(s, next)
    ensures next == |payload| && AreAccesses(payload[cursor..], s)
    decreases |s|
  {
    hide AccessAt, IsAccess, ObjectAt;
    if s != [] {
      var a := AccessAt(payload, cursor);
      assert s[1..] == AccessesAt(payload, a.next).value;
      AccessBegins(payload, a.next);
      AcceptedIsAccess(payload, cursor, s[0], a.next);
      AcceptedAreAccesses(payload, a.next, s[1..], next);
      var raw, n := payload[cursor..], a.next - cursor;
      SplitAt(payload, cursor, a.next, |payload|);
      ToTheEnd(payload, cursor);
      ToTheEnd(payload, a.next);
    }
  }

  lemma {:induction false} AccessesAreAccepted(payload: seq<byte>, cursor: nat, s: seq<ReadAccess>)
    requires cursor <= |payload| && AreAccesses(payload[cursor..], s)
    ensures AccessesAt(payload, cursor) == Good(s, |payload|)
    decreases |s|
  {
    hide AccessAt, IsAccess;
    if s != [] {
      var raw := payload[cursor..];
      var n :| 0 < n <= |raw| && IsAccess(raw[..n], s[0]) && AreAccesses(raw[n..], s[1..]);
      SplitAt(payload, cursor, cursor + n, |payload|);
      ToTheEnd(payload, cursor);
      ToTheEnd(payload, cursor + n);
      AccessIsAccepted(payload, cursor, s[0], cursor + n);
      AccessesAreAccepted(payload, cursor + n, s[1..]);
      assert [s[0]] + s[1..] == s;
    }
  }

  /** The answer to a read of several properties is accepted exactly when it is a sequence of such
      results, and gives exactly those; the reader never stops before its end. */
  lemma ReadAccessesExactly(raw: seq<byte>, s: seq<ReadAccess>, next: nat)
    ensures AccessesAt(raw, 0) == Good(s, next) <==> next == |raw| && AreAccesses(raw, s)
  {
    hide AccessesAt, AreAccesses;
    assert raw[0..] == raw;
    if AccessesAt(raw, 0) == Good(s, next) {
      AcceptedAreAccesses(raw, 0, s, next);
    }
    if AreAccesses(raw, s) {
      AccessesAreAccepted(raw, 0, s);
    }
  }

  lemma AccessEnds(raw: seq<byte>, a: ReadAccess)
    requires IsAccess(raw, a)
    ensures raw != [] && raw[|raw| - 1] == 0x1F
  {
    hide IsOpening, IsObject, AreEntries;
  }

  lemma {:induction false} AcceptedEnds(payload: seq<byte>, cursor: nat)
    requires cursor < |payload| && AccessesAt(payload, cursor).Good?
    ensures payload[|payload| - 1] == 0x1F
    decreases |payload| - cursor
  {
    hide AccessAt, IsAccess, ObjectAt;
    var a := AccessAt(payload, cursor);
    AccessBegins(payload, a.next);
    AcceptedIsAccess(payload, cursor, a.value, a.next);
    AccessEnds(payload[cursor..a.next], a.value);
    if a.next < |payload| {
      AcceptedEnds(payload, a.next);
    }
  }

  /** The long form of a closing tag is one, and is taken as one where it closes a value; where it closes the
      results of an object, as the last thing in an answer, the answer is refused. */
  lemma LongClosingIsRefused(front: seq<byte>)
    ensures IsClosing([0xFF, 0x01], 1) && !AccessesAt(front + [0xFF, 0x01], 0).Good?
  {
    FormIsParsed([0xFF, 0x01], Bracket(1, true, true));
    var raw := front + [0xFF, 0x01];
    if AccessesAt(raw, 0).Good? {
      AcceptedEnds(raw, 0);
      assert false;
    }
  }

  // --- change-of-value notifications ---

  predicate IsPriority(raw: seq<byte>, priority: Option<byte>) {
    if priority.None? then raw == []
    else raw != [] && raw[0] / 0x10 == 3 && IsNumber(raw, 3, priority.value) && 1 <= priority.value <= 16
  }

  ghost predicate CovParts(raw: seq<byte>, v: CovValue, property: nat, index: nat, content: nat) {
    && 0 < property <= index < content <= |raw|
    && IsNumber(raw[..property], 0, v.property) && IsOptional(raw[property..index], 1, v.index)
    && IsWrapped(raw[index..content], 2, v.content) && IsPriority(raw[content..], v.priority)
  }

  /** A property, perhaps an index, a value in tags 2, and perhaps a priority from 1 to 16. */
  ghost predicate IsCovValue(raw: seq<byte>, v: CovValue) {
    exists property, index, content :: CovParts(raw, v, property, index, content)
  }

  ghost predicate AreCovValues(raw: seq<byte>, vs: seq<CovValue>)
    decreases |vs|
  {
    if vs == [] then raw == []
    else exists n :: 0 < n <= |raw| && IsCovValue(raw[..n], vs[0]) && AreCovValues(raw[n..], vs[1..])
  }

  ghost predicate ListParts(raw: seq<byte>, vs: seq<CovValue>, number: byte, opening: nat) {
    && 0 < opening < |raw| && IsOpening(raw[..opening], number)
    && AreCovValues(raw[opening..|raw| - 1], vs) && raw[|raw| - 1] == (number as int) * 0x10 + 0x0F
  }

  /** Property values in tags of this number, of which the closing one is a single octet. */
  ghost predicate IsCovList(raw: seq<byte>, vs: seq<CovValue>, number: byte) {
    exists opening :: ListParts(raw, vs, number, opening)
  }

  ghost predicate ObjectParts(raw: seq<byte>, o: CovObject, subject: nat) {
    0 < subject < |raw| && IsObject(raw[..subject], 0, o.id) && IsCovList(raw[subject..], o.values, 1)
  }

  ghost predicate IsCovObject(raw: seq<byte>, o: CovObject) {
    exists subject :: ObjectParts(raw, o, subject)
  }

  ghost predicate AreCovObjects(raw: seq<byte>, os: seq<CovObject>)
    decreases |os|
  {
    if os == [] then raw == []
    else exists n :: 0 < n <= |raw| && IsCovObject(raw[..n], os[0]) && AreCovObjects(raw[n..], os[1..])
  }

  ghost predicate MultipleParts(raw: seq<byte>, m: Multiple, process: nat, device: nat, time: nat, opening: nat) {
    && 0 < process < device < time < opening < |raw|
    && IsNumber(raw[..process], 0, m.processID) && IsObject(raw[process..device], 1, m.device)
    && IsNumber(raw[device..time], 2, m.timeRemaining) && IsOpening(raw[time..opening], 3)
    && AreCovObjects(raw[opening..|raw| - 1], m.objects) && raw[|raw| - 1] == 0x3F
  }

  /** A process, a device, which has object type 8 in its upper ten bits, the time remaining, and objects
      in tags 3, with nothing behind them. */
  ghost predicate IsMultiple(raw: seq<byte>, m: Multiple) {
    && 0x0200_0000 <= m.device < 0x0240_0000
    && exists process, device, time, opening :: MultipleParts(raw, m, process, device, time, opening)
  }

  /** What comes next is not taken for a priority. */
  predicate NoPriorityNext(payload: seq<byte>, next: nat) {
    next >= |payload| || !LooksLikeContext(payload[next], 3)
  }

  lemma PriorityExactly(payload: seq<byte>, offset: nat, priority: Option<byte>, next: nat)
    requires offset <= |payload|
    ensures PriorityAt(payload, offset) == Good(priority, next)
            <==> && offset <= next <= |payload| && IsPriority(payload[offset..next], priority)
                 && (priority.None? ==> NoPriorityNext(payload, offset))
  {
    hide ParseTag, UnsignedOf, LooksLikeContext, UnsignedAt;
    if priority.Some? {
      NumberExactly(payload, offset, 3, priority.value, next);
      if Ahead(payload, offset, next) && IsNumber(payload[offset..next], 3, priority.value) {
        StartLooks(payload, offset, next, 3);
      }
    }
  }

  lemma PriorityIsMissing(raw: seq<byte>, priority: Option<byte>)
    requires IsPriority(raw, priority)
    ensures raw == [] <==> priority.None?
  {
    hide IsNumber;
  }

  lemma CovIndexExactly(payload: seq<byte>, offset: nat, v: Option<uint32>, next: nat)
    requires offset < |payload|
    ensures CovIndexAt(payload, offset) == Good(v, next)
            <==> && offset <= next <= |payload| && IsOptional(payload[offset..next], 1, v)
                 && (v.None? ==> !LooksLikeContext(payload[offset], 1))
  {
    hide OptionalAt, IsOptional, LooksLikeContext;
    OptionalExactly(payload, offset, 1, v, next);
  }

  lemma CovValueIsAccepted(payload: seq<byte>, offset: nat, v: CovValue, next: nat, property: nat, index: nat,
                           content: nat)
    requires Ahead(payload, offset, next) && CovParts(payload[offset..next], v, property, index, content)
    requires v.priority.None? ==> NoPriorityNext(payload, next)
    ensures CovValueAt(payload, offset) == Good(v, next)
  {
    hide IsNumber, IsOptional, IsWrapped, UnsignedAt, CovIndexAt, TaggedBodyAt, PriorityAt, LooksLikeContext,
         NoPriorityNext;
    var raw := payload[offset..next];
    var p, i, c := offset + property, offset + index, offset + content;
    PartOf(payload, offset, next, p, i);
    PartOf(payload, offset, next, i, c);
    SplitAt(payload, offset, p, next);
    SplitAt(payload, offset, c, next);
    NumberExactly(payload, offset, 0, v.property, p);
    CovIndexExactly(payload, p, v.index, i);
    WrappedExactly(payload, i, 2, v.content, c);
    PriorityIsMissing(payload[c..next], v.priority);
    PriorityExactly(payload, c, v.priority, next);
    if p == i {
      WrappingIsNoField(payload, i, c, 2, v.content, 1);
    } else {
      EmptyIsMissing(payload[p..i], 1, v.index);
    }
  }

  lemma AcceptedIsCovValue(payload: seq<byte>, offset: nat, v: CovValue, next: nat)
    requires CovValueAt(payload, offset) == Good(v, next)
    ensures Ahead(payload, offset, next) && IsCovValue(payload[offset..next], v)
    ensures v.priority.None? ==> NoPriorityNext(payload, next)
  {
    hide IsNumber, IsOptional, IsWrapped, UnsignedAt, CovIndexAt, TaggedBodyAt, PriorityAt, LooksLikeContext,
         NoPriorityNext;
    var p := UnsignedAt(payload, offset, 0).next;
    var i := CovIndexAt(payload, p).next;
    var c := TaggedBodyAt(payload, i, 2).value.next;
    NumberExactly(payload, offset, 0, v.property, p);
    WrappedExactly(payload, i, 2, v.content, c);
    CovIndexExactly(payload, p, v.index, i);
    PriorityExactly(payload, c, v.priority, next);
    PriorityIsMissing(payload[c..next], v.priority);
    PartOf(payload, offset, next, p, i);
    PartOf(payload, offset, next, i, c);
    var raw := payload[offset..next];
    SplitAt(payload, offset, p, next);
    SplitAt(payload, offset, c, next);
    assert CovParts(raw, v, p - offset, i - offset, c - offset);
  }

  lemma CovValueBegins(payload: seq<byte>, cursor: nat, listTag: byte)
    requires CovValueAt(payload, cursor).Good? || ClosingAt(payload, cursor, listTag)
    ensures NoPriorityNext(payload, cursor)
    ensures CovValueAt(payload, cursor).Good? ==> !ClosingAt(payload, cursor, listTag)
  {
    if cursor < |payload| {
      FieldOrClosing(payload[cursor..], 3);
    }
    hide ParseTag, LooksLikeContext, CovIndexAt, TaggedBodyAt, PriorityAt, UnsignedOf;
  }

  lemma FieldOrClosing(raw: seq<byte>, number: byte)
    requires number < 15
    ensures ParseTag(raw).Some? && LooksLikeContext(raw[0], number) ==>
              var t := ParseTag(raw).value.tag; t.number == number && !t.closing
  {
    hide LooksLikeContext, ParseTag;
    if ParseTag(raw).Some? {
      LooksExactly(raw, number);
    }
  }

  lemma {:induction false} AcceptedAreCovValues(payload: seq<byte>, cursor: nat, vs: seq<CovValue>, listTag: byte,
                                                next: nat)
    requires CovValuesAt(payload, cursor, listTag) == Good(vs, next)
    ensures Ahead(payload, cursor, next) && AreCovValues(payload[cursor..next - 1], vs)
            && ClosingAt(payload, next - 1, listTag)
    decreases |vs|
  {
    hide CovValueAt, ClosingAt, IsCovValue;
    if vs != [] {
      var v := CovValueAt(payload, cursor);
      assert vs[1..] == CovValuesAt(payload, v.next, listTag).value;
      AcceptedIsCovValue(payload, cursor, vs[0], v.next);
      AcceptedAreCovValues(payload, v.next, vs[1..], listTag, next);
      var raw, n := payload[cursor..next - 1], v.next - cursor;
      SplitAt(payload, cursor, v.next, next - 1);
    }
  }

  lemma {:induction false} CovValuesAreAccepted(payload: seq<byte>, cursor: nat, vs: seq<CovValue>, listTag: byte,
                                                next: nat)
    requires Ahead(payload, cursor, next) && AreCovValues(payload[cursor..next - 1], vs)
            && ClosingAt(payload, next - 1, listTag)
    ensures CovValuesAt(payload, cursor, listTag) == Good(vs, next) && NoPriorityNext(payload, cursor)
    decreases |vs|
  {
    hide CovValueAt, ClosingAt, IsCovValue, NoPriorityNext;
    if vs != [] {
      var raw := payload[cursor..next - 1];
      var n :| 0 < n <= |raw| && IsCovValue(raw[..n], vs[0]) && AreCovValues(raw[n..], vs[1..]);
      SplitAt(payload, cursor, cursor + n, next - 1);
      CovValuesAreAccepted(payload, cursor + n, vs[1..], listTag, next);
      CovValueAccepted(payload, cursor, vs[0], cursor + n);
      assert [vs[0]] + vs[1..] == vs;
    }
    CovValueBegins(payload, cursor, listTag);
  }

  lemma CovValueAccepted(payload: seq<byte>, offset: nat, v: CovValue, next: nat)
    requires Ahead(payload, offset, next) && IsCovValue(payload[offset..next], v) && NoPriorityNext(payload, next)
    ensures CovValueAt(payload, offset) == Good(v, next)
  {
    hide CovParts, CovValueAt, NoPriorityNext;
    var property: nat, index: nat, content: nat :| CovParts(payload[offset..next], v, property, index, content);
    CovValueIsAccepted(payload, offset, v, next, property, index, content);
  }

  /** A list of property values, up to and including one octet of the tag that closes it. */
  lemma CovListExactly(payload: seq<byte>, offset: nat, vs: seq<CovValue>, listTag: byte, next: nat)
    ensures CovListAt(payload, offset, listTag) == Good(vs, next)
            <==> exists inside: nat ::
                   && Ahead(payload, offset, inside) && Ahead(payload, inside, next)
                   && IsOpening(payload[offset..inside], listTag)
                   && AreCovValues(payload[inside..next - 1], vs) && ClosingAt(payload, next - 1, listTag)
  {
    hide ExpectOpening, CovValuesAt, AreCovValues, ClosingAt, IsOpening;
    if CovListAt(payload, offset, listTag) == Good(vs, next) {
      var inside := ExpectOpening(payload, offset, listTag).value;
      OpeningExactly(payload, offset, listTag, inside);
      AcceptedAreCovValues(payload, inside, vs, listTag, next);
    }
    if inside: nat :|
      && Ahead(payload, offset, inside) && Ahead(payload, inside, next)
      && IsOpening(payload[offset..inside], listTag)
      && AreCovValues(payload[inside..next - 1], vs) && ClosingAt(payload, next - 1, listTag)
    {
      OpeningExactly(payload, offset, listTag, inside);
      CovValuesAreAccepted(payload, inside, vs, listTag, next);
    }
  }

  /** A list whose closing tag is one octet. */
  lemma CovListIsAccepted(payload: seq<byte>, offset: nat, vs: seq<CovValue>, next: nat)
    requires Ahead(payload, offset, next) && IsCovList(payload[offset..next], vs, 1)
    ensures CovListAt(payload, offset, 1) == Good(vs, next)
  {
    hide CovListAt, AreCovValues, ClosingAt, IsOpening;
    var raw := payload[offset..next];
    var opening: nat :| ListParts(raw, vs, 1, opening);
    var inside := offset + opening;
    SplitAt(payload, offset, inside, next);
    PartOf(payload, offset, next, inside, next - 1);
    OneOctetCloses(payload, next - 1, 1);
    CovListExactly(payload, offset, vs, 1, next);
  }

  lemma AcceptedIsCovList(payload: seq<byte>, offset: nat, vs: seq<CovValue>, next: nat)
    requires CovListAt(payload, offset, 1) == Good(vs, next)
    requires ClosingAt(payload, next, 3) || ObjectAt(payload, next, 0).Good?
    ensures Ahead(payload, offset, next) && IsCovList(payload[offset..next], vs, 1)
  {
    hide ParseTag, CovListAt, AreCovValues, ClosingAt, IsOpening, ObjectAt;
    CovListExactly(payload, offset, vs, 1, next);
    var inside: nat :|
      && Ahead(payload, offset, inside) && Ahead(payload, inside, next) && IsOpening(payload[offset..inside], 1)
      && AreCovValues(payload[inside..next - 1], vs) && ClosingAt(payload, next - 1, 1);
    OneOctetCloses(payload, next - 1, 1);
    if next < |payload| && payload[next] == 1 {
      NumberIsNoField(payload, next);
      NumberIsNoClosing(payload, next);
    }
    var raw := payload[offset..next];
    PartOf(payload, offset, next, inside, next - 1);
    SplitAt(payload, offset, inside, next);
    assert ListParts(raw, vs, 1, inside - offset);
  }

  lemma NumberIsNoClosing(payload: seq<byte>, offset: nat)
    requires offset < |payload| && payload[offset] < 8
    ensures !ClosingAt(payload, offset, 3)
  {
    hide ExtendedLength;
  }

  lemma {:induction false} AcceptedAreCovObjects(payload: seq<byte>, cursor: nat, os: seq<CovObject>, next: nat)
    requires CovObjectsAt(payload, cursor) == Good(os, next)
    ensures Ahead(payload, cursor, next) && AreCovObjects(payload[cursor..next - 1], os)
            && ClosingAt(payload, next - 1, 3)
    decreases |os|
  {
    hide CovListAt, ClosingAt, IsCovList, ObjectAt, IsObject;
    if os != [] {
      var o := ObjectAt(payload, cursor, 0);
      var vs := CovListAt(payload, o.next, 1);
      assert os[1..] == CovObjectsAt(payload, vs.next).value;
      ObjectExactly(payload, cursor, 0, os[0].id, o.next);
      AcceptedIsCovList(payload, o.next, os[0].values, vs.next);
      AcceptedAreCovObjects(payload, vs.next, os[1..], next);
      var one := payload[cursor..vs.next];
      SplitAt(payload, cursor, o.next, vs.next);
      assert ObjectParts(one, os[0], o.next - cursor);
      var raw, n := payload[cursor..next - 1], vs.next - cursor;
      SplitAt(payload, cursor, vs.next, next - 1);
    }
  }

  lemma {:induction false} CovObjectsAreAccepted(payload: seq<byte>, cursor: nat, os: seq<CovObject>, next: nat)
    requires Ahead(payload, cursor, next) && AreCovObjects(payload[cursor..next - 1], os)
            && ClosingAt(payload, next - 1, 3)
    ensures CovObjectsAt(payload, cursor) == Good(os, next)
    decreases |os|
  {
    hide CovListAt, ClosingAt, IsCovList, ObjectAt, IsObject;
    if os != [] {
      var raw := payload[cursor..next - 1];
      var n :| 0 < n <= |raw| && IsCovObject(raw[..n], os[0]) && AreCovObjects(raw[n..], os[1..]);
      var subject: nat :| ObjectParts(raw[..n], os[0], subject);
      var o, end := cursor + subject, cursor + n;
      SplitAt(payload, cursor, end, next - 1);
      SplitAt(payload, cursor, o, end);
      ObjectExactly(payload, cursor, 0, os[0].id, o);
      ObjectDoesNotClose(payload, cursor);
      CovListIsAccepted(payload, o, os[0].values, end);
      CovObjectsAreAccepted(payload, end, os[1..], next);
      assert [os[0]] + os[1..] == os;
    }
  }

  lemma ObjectDoesNotClose(payload: seq<byte>, offset: nat)
    requires ObjectAt(payload, offset, 0).Good?
    ensures !ClosingAt(payload, offset, 3)
  {
    hide ParseTag;
  }

  lemma DeviceNumbers(id: uint32)
    ensures IsDevice(id) <==> 0x0200_0000 <= id < 0x0240_0000
  {
  }

  lemma AcceptedIsMultiple(raw: seq<byte>, m: Multiple)
    requires MultipleOf(raw) == Some(m)
    ensures IsMultiple(raw, m)
  {
    hide ParseTag, UnsignedAt, ObjectAt, ExpectOpening, CovObjectsAt, IsNumber, IsObject, IsOpening, AreCovObjects,
         ClosingAt,
         IsDevice;
    DeviceNumbers(m.device);
    var p := UnsignedAt(raw, 0, 0).next;
    var d := ObjectAt(raw, p, 1).next;
    var t := UnsignedAt(raw, d, 2).next;
    var inside := ExpectOpening(raw, t, 3).value;
    NumberExactly(raw, 0, 0, m.processID, p);
    ObjectExactly(raw, p, 1, m.device, d);
    NumberExactly(raw, d, 2, m.timeRemaining, t);
    OpeningExactly(raw, t, 3, inside);
    AcceptedAreCovObjects(raw, inside, m.objects, |raw|);
    OneOctetCloses(raw, |raw| - 1, 3);
    assert raw[0..p] == raw[..p];
    assert MultipleParts(raw, m, p, d, t, inside);
  }

  lemma MultipleIsAccepted(raw: seq<byte>, m: Multiple)
    requires IsMultiple(raw, m)
    ensures MultipleOf(raw) == Some(m)
  {
    hide ParseTag, UnsignedAt, ObjectAt, ExpectOpening, CovObjectsAt, IsNumber, IsObject, IsOpening, AreCovObjects,
         ClosingAt,
         IsDevice;
    DeviceNumbers(m.device);
    var p: nat, d: nat, t: nat, inside: nat :| MultipleParts(raw, m, p, d, t, inside);
    assert raw[0..p] == raw[..p];
    NumberExactly(raw, 0, 0, m.processID, p);
    ObjectExactly(raw, p, 1, m.device, d);
    NumberExactly(raw, d, 2, m.timeRemaining, t);
    OpeningExactly(raw, t, 3, inside);
    OneOctetCloses(raw, |raw| - 1, 3);
    CovObjectsAreAccepted(raw, inside, m.objects, |raw|);
  }

  /** A notification about several objects is accepted exactly when it is made of these parts. */
  lemma MultiplesExactly(raw: seq<byte>, m: Multiple)
    ensures MultipleOf(raw) == Some(m) <==> IsMultiple(raw, m)
  {
    hide MultipleOf, IsMultiple;
    if MultipleOf(raw) == Some(m) {
      AcceptedIsMultiple(raw, m);
    }
    if IsMultiple(raw, m) {
      MultipleIsAccepted(raw, m);
    }
  }
}
