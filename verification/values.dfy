/** Application-tagged values of the thirteen types, and lists of them. Floating-point numbers
    are their bit patterns; strings are their UTF-8 octets. */
module Values {
  import opened Wire
  import opened Tags
  import opened Primitives

  datatype AppValue =
    | Null
    | Boolean(on: bool)
    | Unsigned(u: uint32)
    | Signed(i: int32)
    | Real(bits: uint32)
    | Double(high: uint32, low: uint32)
    | OctetString(octets: seq<byte>)
    | CharacterString(text: seq<byte>)
    | BitString(flags: seq<bool>)
    | Enumerated(code: uint32)
    | Date(year: uint16, month: byte, day: byte, weekday: byte)
    | Time(hour: byte, minute: byte, second: byte, hundredths: byte)
    | ObjectIdentifier(id: uint32)

  /** What the text library decides: which octets are valid UTF-8, and how strings in another
      character set, or mislabelled ones, are recovered. */
  datatype TextLibrary = TextLibrary(valid: seq<byte> -> bool, recover: (byte, seq<byte>) -> seq<byte>)

  function TagOf(v: AppValue): (n: byte)
    ensures n <= 12
  {
    match v
    case Null => 0
    case Boolean(_) => 1
    case Unsigned(_) => 2
    case Signed(_) => 3
    case Real(_) => 4
    case Double(_, _) => 5
    case OctetString(_) => 6
    case CharacterString(_) => 7
    case BitString(_) => 8
    case Enumerated(_) => 9
    case Date(_, _, _, _) => 10
    case Time(_, _, _, _) => 11
    case ObjectIdentifier(_) => 12
  }

  /** The value octets; strings must be valid UTF-8 and years in range. */
  function ContentOf(lib: TextLibrary, v: AppValue): Option<seq<byte>> {
    match v
    case Null => Some([])
    case Boolean(_) => Some([])
    case Unsigned(u) => Some(EncodeUnsigned(u))
    case Signed(i) => Some(EncodeSigned(i))
    case Real(bits) => Some(Put32(bits))
    case Double(high, low) => Some(Put32(high) + Put32(low))
    case OctetString(octets) => Some(octets)
    case CharacterString(text) => if lib.valid(text) then Some([0] + text) else None
    case BitString(flags) => Some(BitStringBytes(flags))
    case Enumerated(code) => Some(EncodeUnsigned(code))
    case Date(year, month, day, weekday) => EncodeDate(year, month, day, weekday)
    case Time(h, m, s, x) => Some([h, m, s, x])
    case ObjectIdentifier(id) => Some(Put32(id))
  }

  /** The lengths a tag header can announce. */
  predicate Encodable(lib: TextLibrary, v: AppValue) {
    var c := ContentOf(lib, v);
    c.Some? && |c.value| < 0x1_0000_0000
  }

  function Encode(lib: TextLibrary, v: AppValue): seq<byte>
    requires Encodable(lib, v)
  {
    if v.Boolean? then [16 + Weight(v.on, 1)] else ApplicationPrimitive(TagOf(v), ContentOf(lib, v).value)
  }

  /** Text in character set 0, unless it is not UTF-8, and in sets 1, 2 and unknown ones when it
      happens to be UTF-8, is taken as it is; anything else is recovered. */
  function TextOf(lib: TextLibrary, raw: seq<byte>): Option<seq<byte>> {
    if raw == [] then None
    else if raw[0] !in {3, 4, 5} && lib.valid(raw[1..]) then Some(raw[1..])
    else Some(lib.recover(raw[0], raw[1..]))
  }

  /** Strings in ISO 8859-1, UCS-2 or UCS-4, sets 3 to 5, are always recovered; in any other set the octets
      are taken exactly when they are valid UTF-8. Without a set there is no string. */
  lemma TextExactly(lib: TextLibrary, charset: byte, octets: seq<byte>)
    ensures TextOf(lib, []) == None
    ensures TextOf(lib, [charset] + octets)
            == Some(if (charset < 3 || charset > 5) && lib.valid(octets) then octets else lib.recover(charset, octets))
  {
    assert ([charset] + octets)[1..] == octets;
  }

  /** The value with this tag number and these octets; first is the tag octet itself, which
      alone carries a boolean. */
  function ValueOf(lib: TextLibrary, number: byte, first: byte, raw: seq<byte>): Option<AppValue> {
    if number == 0 then Some(Null)
    else if number == 1 then Some(Boolean(Lvt(first) != 0))
    else if number == 2 then
      var u := UnsignedOf(raw);
      if u.None? then None else Some(Unsigned(u.value))
    else if number == 3 then
      var i := SignedOf(raw);
      if i.None? then None else Some(Signed(i.value))
    else if number == 4 then if |raw| != 4 then None else Some(Real(Get32(raw)))
    else if number == 5 then if |raw| != 8 then None else Some(Double(Get32(raw[..4]), Get32(raw[4..])))
    else if number == 6 then Some(OctetString(raw))
    else if number == 7 then
      var t := TextOf(lib, raw);
      if t.None? then None else Some(CharacterString(t.value))
    else if number == 8 then
      var b := BitStringOf(raw);
      if b.None? then None else Some(BitString(b.value))
    else if number == 9 then
      var u := UnsignedOf(raw);
      if u.None? then None else Some(Enumerated(u.value))
    else if number == 10 then if |raw| != 4 then None else Some(Date(YearOf(raw[0]), raw[1], raw[2], raw[3]))
    else if number == 11 then if |raw| != 4 then None else Some(Time(raw[0], raw[1], raw[2], raw[3]))
    else if number == 12 then if |raw| != 4 then None else Some(ObjectIdentifier(Get32(raw)))
    else None
  }

  datatype Decoded = Decoded(value: AppValue, length: nat)

  /** The application value at the front of raw. */
  function DecodeHead(lib: TextLibrary, raw: seq<byte>): (r: Option<Decoded>)
    ensures r.Some? ==> 1 <= r.value.length <= |raw|
  {
    var h := ParseTag(raw);
    if h.None? || h.value.tag.contextSpecific then None
    else
      var v := ValueOf(lib, h.value.tag.number, raw[0], raw[h.value.header..TotalLength(h.value)]);
      if v.None? then None else Some(Decoded(v.value, TotalLength(h.value)))
  }

  lemma ContentRoundTrip(lib: TextLibrary, v: AppValue, first: byte)
    requires Encodable(lib, v) && !v.Boolean?
    ensures ValueOf(lib, TagOf(v), first, ContentOf(lib, v).value) == Some(v)
  {
    hide EncodeUnsigned, UnsignedOf, EncodeSigned, SignedOf, BitStringBytes, BitStringOf, Put32, Get32;
    var c := ContentOf(lib, v).value;
    match v {
      case Unsigned(u) => UnsignedRoundTrip(u);
      case Signed(i) => SignedRoundTrip(i);
      case Double(high, low) => assert c[..4] == Put32(high) && c[4..] == Put32(low);
      case CharacterString(text) => assert c[1..] == text;
      case BitString(flags) => BitStringRoundTrip(flags);
      case Enumerated(code) => UnsignedRoundTrip(code);
      case Date(year, month, day, weekday) => DateRoundTrip(year, month, day, weekday);
      case _ =>
    }
  }

  /** Every encodable value is decoded again, with its exact length, whatever follows it. */
  lemma ValueRoundTrip(lib: TextLibrary, v: AppValue, rest: seq<byte>)
    requires Encodable(lib, v)
    ensures DecodeHead(lib, Encode(lib, v) + rest) == Some(Decoded(v, |Encode(lib, v)|))
  {
    var raw := Encode(lib, v);
    var all := raw + rest;
    if v.Boolean? {
      TagByte(1, false, Weight(v.on, 1));
      assert ParseTag(all) == Some(Head(Tag(1, false, false, false), 1, 0));
    } else {
      var c := ContentOf(lib, v).value;
      ApplicationParses(TagOf(v), c);
      hide ParseTag, ApplicationPrimitive, ValueOf, ContentOf;
      ParseIsLocal(raw, rest);
      ContentRoundTrip(lib, v, all[0]);
      assert all[|raw| - |c|..|raw|] == raw[|raw| - |c|..] == c;
    }
  }

  // --- lists ---

  /** Every leading application value; decoding stops where something else begins. */
  function ValuesOf(lib: TextLibrary, raw: seq<byte>): seq<AppValue>
    decreases |raw|
  {
    var d := DecodeHead(lib, raw);
    if d.None? then [] else [d.value.value] + ValuesOf(lib, raw[d.value.length..])
  }

  /** The loop of the reader; the guard against a decoder that does not advance never fires. */
  method DecodeValues(lib: TextLibrary, raw: seq<byte>) returns (values: seq<AppValue>)
    ensures values == ValuesOf(lib, raw)
  {
    hide DecodeHead;
    values := [];
    var off := 0;
    assert raw[0..] == raw;
    assert [] + ValuesOf(lib, raw) == ValuesOf(lib, raw);
    while off < |raw|
      invariant 0 <= off <= |raw|
      invariant values + ValuesOf(lib, raw[off..]) == ValuesOf(lib, raw)
      decreases |raw| - off
    {
      var d := DecodeHead(lib, raw[off..]);
      if d.None? {
        assert values + [] == values;
        return;
      }
      var next := off + d.value.length;
      assert next > off;
      assert raw[off..][d.value.length..] == raw[next..];
      ghost var more := ValuesOf(lib, raw[next..]);
      assert values + ([d.value.value] + more) == (values + [d.value.value]) + more;
      values := values + [d.value.value];
      off := next;
    }
    assert raw[off..] == [];
    assert ValuesOf(lib, raw[off..]) == [] by { NothingToDecode(lib); }
    assert values + [] == values;
  }

  lemma NothingToDecode(lib: TextLibrary)
    ensures ValuesOf(lib, []) == []
  {
  }

  predicate AllEncodable(lib: TextLibrary, vs: seq<AppValue>) {
    forall i :: 0 <= i < |vs| ==> Encodable(lib, vs[i])
  }

  function EncodeAll(lib: TextLibrary, vs: seq<AppValue>): seq<byte>
    requires AllEncodable(lib, vs)
  {
    if vs == [] then [] else Encode(lib, vs[0]) + EncodeAll(lib, vs[1..])
  }

  /** A list of values is read back in full and in order, and so is what follows it. */
  lemma {:induction false} ListRoundTrip(lib: TextLibrary, vs: seq<AppValue>, rest: seq<byte>)
    requires AllEncodable(lib, vs)
    ensures ValuesOf(lib, EncodeAll(lib, vs) + rest) == vs + ValuesOf(lib, rest)
    decreases |vs|
  {
    hide DecodeHead, Encode, Encodable;
    if vs == [] {
      assert [] + rest == rest;
    } else {
      var tail := EncodeAll(lib, vs[1..]) + rest;
      assert EncodeAll(lib, vs) + rest == Encode(lib, vs[0]) + tail;
      ValueRoundTrip(lib, vs[0], tail);
      assert (Encode(lib, vs[0]) + tail)[|Encode(lib, vs[0])|..] == tail;
      ListRoundTrip(lib, vs[1..], rest);
      assert vs == [vs[0]] + vs[1..];
    }
  }

  /** A property body that holds a list of values is decoded to exactly that list. */
  lemma WholeListRoundTrip(lib: TextLibrary, vs: seq<AppValue>)
    requires AllEncodable(lib, vs)
    ensures ValuesOf(lib, EncodeAll(lib, vs)) == vs
  {
    hide DecodeHead, EncodeAll;
    ListRoundTrip(lib, vs, []);
    NothingToDecode(lib);
    assert EncodeAll(lib, vs) + [] == EncodeAll(lib, vs);
  }

  /** The first and all values of a property body, and the body itself. */
  datatype PropertyValue = PropertyValue(raw: Option<AppValue>, values: seq<AppValue>, rawBytes: seq<byte>)

  method DecodeValue(lib: TextLibrary, raw: seq<byte>) returns (p: PropertyValue)
    ensures p.values == ValuesOf(lib, raw) && p.rawBytes == raw
    ensures p.raw == if p.values == [] then None else Some(p.values[0])
  {
    if |raw| == 0 {
      NothingToDecode(lib);
      return PropertyValue(None, [], raw);
    }
    var values := DecodeValues(lib, raw);
    p := PropertyValue(if |values| == 0 then None else Some(values[0]), values, raw);
  }

  /** Two different lists of values never have the same encoding. */
  lemma EncodingIsInjective(lib: TextLibrary, vs: seq<AppValue>, ws: seq<AppValue>)
    requires AllEncodable(lib, vs) && AllEncodable(lib, ws) && EncodeAll(lib, vs) == EncodeAll(lib, ws)
    ensures vs == ws
  {
    hide EncodeAll, ValuesOf;
    WholeListRoundTrip(lib, vs);
    WholeListRoundTrip(lib, ws);
  }
}
