/** Tag headers (section 20.2.1 of ANSI/ASHRAE 135-2024): parsing, and the encoders. */
module Tags {
  import opened Wire

  datatype Tag = Tag(number: byte, contextSpecific: bool, opening: bool, closing: bool)

  /** A tag with the lengths of its header and of the value that follows. */
  datatype Head = Head(tag: Tag, header: nat, value: nat)

  function TotalLength(h: Head): nat {
    h.header + h.value
  }

  /** The length announced after a header of the given length, and the header's full length. */
  function ExtendedLength(raw: seq<byte>, offset: nat): Option<(nat, nat)>
    requires offset <= |raw|
  {
    if |raw| < offset + 1 then None
    else if raw[offset] <= 253 then Some((offset + 1, raw[offset]))
    else if raw[offset] == 254 then
      if |raw| < offset + 3 then None else Some((offset + 3, Get16(raw[offset + 1..offset + 3])))
    else
      if |raw| < offset + 5 then None else Some((offset + 5, Get32(raw[offset + 1..offset + 5])))
  }

  /** The length-value-type field. */
  function Lvt(b: byte): byte {
    b % 8
  }

  /** One tag header at the front of raw; None is a decode failure. */
  function ParseTag(raw: seq<byte>): (r: Option<Head>)
    ensures r.Some? ==> 1 <= r.value.header && TotalLength(r.value) <= |raw|
    ensures r.Some? && (r.value.tag.opening || r.value.tag.closing) ==> r.value.value == 0
    ensures r.Some? ==> !(r.value.tag.opening && r.value.tag.closing)
  {
    if |raw| == 0 then None
    else
      var extended := raw[0] / 16 == 15;
      if extended && |raw| < 2 then None
      else
        var number := if extended then raw[1] else raw[0] / 16;
        var offset := if extended then 2 else 1;
        var context := Has(raw[0], 8);
        var lvt := Lvt(raw[0]);
        if context && lvt == 6 then Some(Head(Tag(number, true, true, false), offset, 0))
        else if context && lvt == 7 then Some(Head(Tag(number, true, false, true), offset, 0))
        else if !context && number == 1 then Some(Head(Tag(1, false, false, false), offset, 0))
        else
          var length := if lvt == 5 then ExtendedLength(raw, offset) else Some((offset, lvt as nat));
          if length.None? || |raw| < length.value.0 + length.value.1 then None
          else Some(Head(Tag(number, context, false, false), length.value.0, length.value.1))
  }

  /** A header is read from its own octets and the value's alone: what follows does not matter. */
  lemma ParseIsLocal(raw: seq<byte>, rest: seq<byte>)
    requires ParseTag(raw).Some? && TotalLength(ParseTag(raw).value) == |raw|
    ensures ParseTag(raw + rest) == ParseTag(raw)
  {
    var all := raw + rest;
    assert all[0] == raw[0];
    var offset := if raw[0] / 16 == 15 then 2 else 1;
    if Lvt(raw[0]) == 5 {
      if |raw| >= offset + 3 {
        assert all[offset + 1..offset + 3] == raw[offset + 1..offset + 3];
      }
      if |raw| >= offset + 5 {
        assert all[offset + 1..offset + 5] == raw[offset + 1..offset + 5];
      }
    }
    hide Get16, Get32, Has;
  }

  /** Cutting off what follows the value does not matter either. */
  lemma ParseIsTight(all: seq<byte>)
    requires ParseTag(all).Some?
    ensures ParseTag(all[..TotalLength(ParseTag(all).value)]) == ParseTag(all)
  {
    var h := ParseTag(all).value;
    var raw := all[..TotalLength(h)];
    var offset := if all[0] / 16 == 15 then 2 else 1;
    if Lvt(all[0]) == 5 && h.value + h.header >= offset + 1 {
      if h.header >= offset + 3 {
        assert all[offset + 1..offset + 3] == raw[offset + 1..offset + 3];
      }
      if h.header >= offset + 5 {
        assert all[offset + 1..offset + 5] == raw[offset + 1..offset + 5];
      }
    }
    hide Get16, Get32, Has;
  }

  // --- encoders ---

  function OpeningTag(number: byte): seq<byte> {
    if number <= 14 then [number * 16 + 14] else [0xFE, number]
  }

  function ClosingTag(number: byte): seq<byte> {
    if number <= 14 then [number * 16 + 15] else [0xFF, number]
  }

  /** The octets that announce a value of the given length after the low three bits said 5. */
  function LengthBytes(length: nat): seq<byte>
    requires length < 0x1_0000_0000
  {
    if length <= 253 then [length]
    else if length <= 0xFFFF then [254] + Put16(length)
    else [255] + Put32(length)
  }

  /** A context-specific primitive; long values and large tag numbers both take the long form. */
  function ContextPrimitive(number: byte, value: seq<byte>): seq<byte>
    requires |value| < 0x1_0000_0000
  {
    if number <= 14 && |value| <= 4 then [number * 16 + 8 + |value|] + value
    else [0xFD, number] + LengthBytes(|value|) + value
  }

  function ApplicationPrimitive(number: byte, value: seq<byte>): seq<byte>
    requires number <= 14 && |value| < 0x1_0000_0000
  {
    if |value| <= 4 then [number * 16 + |value|] + value
    else [number * 16 + 5] + LengthBytes(|value|) + value
  }

  lemma TagByte(number: nat, context: bool, lvt: nat)
    requires number < 16 && lvt < 8
    ensures var b := number * 16 + Weight(context, 8) + lvt;
            b < 256 && b / 16 == number && Has(b, 8) == context && b % 8 == lvt
  {
  }

  lemma LengthRoundTrip(front: seq<byte>, length: nat, rest: seq<byte>)
    requires length < 0x1_0000_0000
    ensures ExtendedLength(front + LengthBytes(length) + rest, |front|)
            == Some((|front| + |LengthBytes(length)|, length))
  {
    var raw := front + LengthBytes(length) + rest;
    var f := |front|;
    if length <= 253 {
    } else if length <= 0xFFFF {
      assert raw[f + 1..f + 3] == Put16(length);
    } else {
      assert raw[f + 1..f + 5] == Put32(length);
    }
  }

  lemma OpeningParses(number: byte)
    ensures ParseTag(OpeningTag(number)) == Some(Head(Tag(number, true, true, false), |OpeningTag(number)|, 0))
    ensures ParseTag(ClosingTag(number)) == Some(Head(Tag(number, true, false, true), |ClosingTag(number)|, 0))
  {
    if number <= 14 {
      TagByte(number, true, 6);
      TagByte(number, true, 7);
    }
  }

  /** Every context primitive parses back to its tag number and value length, in all four forms. */
  lemma ContextParses(number: byte, value: seq<byte>)
    requires |value| < 0x1_0000_0000
    ensures var raw := ContextPrimitive(number, value);
            var h := ParseTag(raw);
            && h == Some(Head(Tag(number, true, false, false), |raw| - |value|, |value|))
            && raw[|raw| - |value|..] == value
  {
    var raw := ContextPrimitive(number, value);
    if number <= 14 && |value| <= 4 {
      TagByte(number, true, |value|);
    } else {
      LengthRoundTrip([0xFD, number], |value|, value);
    }
    hide LengthBytes, ExtendedLength;
  }

  /** Every application primitive but a boolean parses back likewise. */
  lemma ApplicationParses(number: byte, value: seq<byte>)
    requires number <= 14 && number != 1 && |value| < 0x1_0000_0000
    ensures var raw := ApplicationPrimitive(number, value);
            var h := ParseTag(raw);
            && h == Some(Head(Tag(number, false, false, false), |raw| - |value|, |value|))
            && raw[|raw| - |value|..] == value
  {
    var raw := ApplicationPrimitive(number, value);
    if |value| <= 4 {
      TagByte(number, false, |value|);
    } else {
      TagByte(number, false, 5);
      LengthRoundTrip([number * 16 + 5], |value|, value);
    }
    hide LengthBytes, ExtendedLength;
  }

  // --- expected tags ---

  datatype Field = Field(value: seq<byte>, next: nat)

  /** The value of the context primitive at offset, if it carries the expected number. */
  function ExpectContext(payload: seq<byte>, offset: nat, expected: byte): (r: Option<Field>)
    ensures r.Some? ==> offset < r.value.next <= |payload|
  {
    if offset >= |payload| then None
    else
      var h := ParseTag(payload[offset..]);
      if h.None? then None
      else
        var t := h.value.tag;
        if !t.contextSpecific || t.number != expected || t.opening || t.closing then None
        else
          var start := offset + h.value.header;
          Some(Field(payload[start..start + h.value.value], start + h.value.value))
  }

  function ExpectOpening(payload: seq<byte>, offset: nat, number: byte): (r: Option<nat>)
    ensures r.Some? ==> offset < r.value <= |payload|
  {
    if offset >= |payload| then None
    else
      var h := ParseTag(payload[offset..]);
      if h.Some? && h.value.tag.opening && h.value.tag.number == number then Some(offset + h.value.header) else None
  }

  predicate OpeningAt(payload: seq<byte>, offset: nat, number: byte) {
    ExpectOpening(payload, offset, number).Some?
  }

  predicate ClosingAt(payload: seq<byte>, offset: nat, number: byte) {
    if offset >= |payload| then false
    else
      var h := ParseTag(payload[offset..]);
      h.Some? && h.value.tag.closing && h.value.tag.number == number
  }

  /** Whether an octet can begin a short-numbered context primitive with this number. */
  predicate LooksLikeContext(b: byte, number: byte) {
    Has(b, 8) && b / 16 == number && Lvt(b) <= 5
  }

  /** A context primitive is found again wherever it was put. */
  lemma ExpectContextFinds(before: seq<byte>, number: byte, value: seq<byte>, after: seq<byte>)
    requires |value| < 0x1_0000_0000
    ensures ExpectContext(before + ContextPrimitive(number, value) + after, |before|, number)
            == Some(Field(value, |before| + |ContextPrimitive(number, value)|))
  {
    hide ContextPrimitive, ParseTag;
    var raw := ContextPrimitive(number, value);
    var payload := before + raw + after;
    ContextParses(number, value);
    ParseIsLocal(raw, after);
    assert payload[|before|..] == raw + after;
    assert payload[|before| + (|raw| - |value|)..|before| + |raw|] == value;
  }

  lemma ExpectOpeningFinds(before: seq<byte>, number: byte, after: seq<byte>)
    ensures ExpectOpening(before + OpeningTag(number) + after, |before|, number)
            == Some(|before| + |OpeningTag(number)|)
    ensures ClosingAt(before + ClosingTag(number) + after, |before|, number)
  {
    hide OpeningTag, ClosingTag, ParseTag;
    OpeningParses(number);
    ParseIsLocal(OpeningTag(number), after);
    ParseIsLocal(ClosingTag(number), after);
    assert (before + OpeningTag(number) + after)[|before|..] == OpeningTag(number) + after;
    assert (before + ClosingTag(number) + after)[|before|..] == ClosingTag(number) + after;
  }
}
