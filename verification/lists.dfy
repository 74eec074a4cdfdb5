/** List-valued answers and notifications: ReadProperty-ACK, ReadPropertyMultiple-ACK (sections
    15.5 and 15.7 of ANSI/ASHRAE 135-2024) and COV notifications (section 13). Each decoder is
    set against an encoder that lays the same fields out in order. */
module Lists {
  import opened Wire
  import opened Tags
  import opened Bodies
  import opened Primitives

  /** A decoded piece and where to go on; a refusal; or an index beyond the payload. */
  datatype Parsed<+T> = Good(value: T, next: nat) | Refused | Crashes

  // --- finding the pieces in place ---

  lemma ContextHere(payload: seq<byte>, offset: nat, number: byte, value: seq<byte>, rest: seq<byte>)
    requires |value| < 0x1_0000_0000 && offset <= |payload|
    requires payload[offset..] == ContextPrimitive(number, value) + rest
    ensures var next := offset + |ContextPrimitive(number, value)|;
            && ExpectContext(payload, offset, number) == Some(Field(value, next))
            && next <= |payload| && payload[next..] == rest
  {
    hide ParseTag, ContextPrimitive, ExpectContext;
    var raw := ContextPrimitive(number, value);
    assert payload == payload[..offset] + raw + rest;
    ExpectContextFinds(payload[..offset], number, value, rest);
    assert payload[offset + |raw|..] == payload[offset..][|raw|..];
  }

  lemma OpeningHere(payload: seq<byte>, offset: nat, number: byte, rest: seq<byte>)
    requires offset <= |payload| && payload[offset..] == OpeningTag(number) + rest
    ensures var next := offset + |OpeningTag(number)|;
            ExpectOpening(payload, offset, number) == Some(next) && next <= |payload| && payload[next..] == rest
  {
    hide ParseTag, OpeningTag, ExpectOpening;
    assert payload == payload[..offset] + OpeningTag(number) + rest;
    ExpectOpeningFinds(payload[..offset], number, rest);
    assert payload[offset + |OpeningTag(number)|..] == payload[offset..][|OpeningTag(number)|..];
  }

  /** The decoders step over a closing tag as if it were one octet long; these are. */
  lemma ClosingHere(payload: seq<byte>, offset: nat, number: byte, rest: seq<byte>)
    requires number <= 14 && offset <= |payload| && payload[offset..] == ClosingTag(number) + rest
    ensures ClosingAt(payload, offset, number) && payload[offset + 1..] == rest
  {
    hide ParseTag;
    assert payload == payload[..offset] + ClosingTag(number) + rest;
    ExpectOpeningFinds(payload[..offset], number, rest);
    assert payload[offset + 1..] == payload[offset..][1..];
  }

  lemma BodyHere(payload: seq<byte>, offset: nat, number: byte, b: Body, rest: seq<byte>)
    requires Balanced(b) && offset <= |payload|
    requires payload[offset..] == OpeningTag(number) + (Bytes(b) + (ClosingTag(number) + rest))
    ensures var next := offset + |OpeningTag(number)| + |Bytes(b)| + |ClosingTag(number)|;
            && TaggedBodyAt(payload, offset, number) == Some(TaggedBody(next, Bytes(b)))
            && next <= |payload| && payload[next..] == rest
    ensures OpeningAt(payload, offset, number)
  {
    hide ParseTag, OpeningTag, ClosingTag, TaggedBodyAt, Bytes, Balanced;
    var whole := OpeningTag(number) + Bytes(b) + ClosingTag(number);
    assert payload[offset..] == whole + rest;
    assert payload == payload[..offset] + whole + rest;
    TaggedBodyFinds(payload[..offset], number, b, rest);
    OpeningHere(payload, offset, number, Bytes(b) + (ClosingTag(number) + rest));
    assert payload[offset + |whole|..] == payload[offset..][|whole|..];
  }

  /** The tag at the front closes, or has another number, so nothing else is taken for it. */
  lemma ContextIsNotClosing(payload: seq<byte>, offset: nat, number: byte, value: seq<byte>, rest: seq<byte>,
                            other: byte)
    requires |value| < 0x1_0000_0000 && offset <= |payload|
    requires payload[offset..] == ContextPrimitive(number, value) + rest
    ensures !ClosingAt(payload, offset, other)
  {
    hide ParseTag, ContextPrimitive;
    ContextParses(number, value);
    ParseIsLocal(ContextPrimitive(number, value), rest);
  }

  lemma OpeningIsOnly(payload: seq<byte>, offset: nat, number: byte, rest: seq<byte>, other: byte)
    requires other != number && offset <= |payload| && payload[offset..] == OpeningTag(number) + rest
    ensures !OpeningAt(payload, offset, other)
  {
    hide ParseTag, OpeningTag;
    OpeningParses(number);
    ParseIsLocal(OpeningTag(number), rest);
  }

  lemma FirstOctetTells(first: byte, number: byte, lvt: nat)
    requires number <= 14 && lvt <= 7 && first == number * 16 + 8 + lvt
    ensures forall n: byte :: LooksLikeContext(first, n) <==> n == number && lvt <= 5
  {
    TagByte(number, true, lvt);
    hide Has;
  }

  /** The first octet of an opening or closing tag, and of a short context primitive. */
  lemma FirstOctets(number: byte, value: seq<byte>)
    requires number <= 14 && |value| <= 4
    ensures OpeningTag(number) == [number * 16 + 14] && ClosingTag(number) == [number * 16 + 15]
    ensures forall n: byte :: !LooksLikeContext(OpeningTag(number)[0], n) && !LooksLikeContext(ClosingTag(number)[0], n)
    ensures forall n: byte :: LooksLikeContext(ContextPrimitive(number, value)[0], n) <==> n == number
  {
    hide LooksLikeContext;
    FirstOctetTells(OpeningTag(number)[0], number, 6);
    FirstOctetTells(ClosingTag(number)[0], number, 7);
    FirstOctetTells(ContextPrimitive(number, value)[0], number, |value|);
  }

  // --- optional unsigned fields ---

  function UnsignedAt(payload: seq<byte>, offset: nat, number: byte): (r: Parsed<uint32>)
    ensures r.Good? ==> offset < r.next <= |payload|
  {
    var f := ExpectContext(payload, offset, number);
    if f.None? then Refused
    else
      var u := UnsignedOf(f.value.value);
      if u.None? then Refused else Good(u.value, f.value.next)
  }

  /** The field is there when the next octet looks like its tag. */
  function OptionalAt(payload: seq<byte>, offset: nat, number: byte): (r: Parsed<Option<uint32>>)
    requires offset < |payload|
    ensures r.Good? ==> offset <= r.next <= |payload|
  {
    if !LooksLikeContext(payload[offset], number) then Good(None, offset)
    else
      var u := UnsignedAt(payload, offset, number);
      if u.Good? then Good(Some(u.value), u.next) else Refused
  }

  function UnsignedField(number: byte, v: uint32): seq<byte> {
    ContextPrimitive(number, EncodeUnsigned(v))
  }

  function OptionalField(number: byte, v: Option<uint32>): seq<byte> {
    if v.None? then [] else UnsignedField(number, v.value)
  }

  lemma UnsignedHere(payload: seq<byte>, offset: nat, number: byte, v: uint32, rest: seq<byte>)
    requires offset <= |payload| && payload[offset..] == UnsignedField(number, v) + rest
    ensures var next := offset + |UnsignedField(number, v)|;
            UnsignedAt(payload, offset, number) == Good(v, next) && payload[next..] == rest
  {
    hide ContextPrimitive, ExpectContext, UnsignedOf, EncodeUnsigned;
    ContextHere(payload, offset, number, EncodeUnsigned(v), rest);
    UnsignedRoundTrip(v);
  }

  lemma OptionalHere(payload: seq<byte>, offset: nat, number: byte, v: Option<uint32>, rest: seq<byte>)
    requires number <= 14 && offset <= |payload| && payload[offset..] == OptionalField(number, v) + rest
    requires rest != [] && !LooksLikeContext(rest[0], number)
    ensures var next := offset + |OptionalField(number, v)|;
            && offset < |payload| && OptionalAt(payload, offset, number) == Good(v, next)
            && next <= |payload| && payload[next..] == rest
  {
    hide LooksLikeContext, UnsignedAt, EncodeUnsigned;
    assert payload[offset] == payload[offset..][0];
    if v.Some? {
      FirstOctets(number, EncodeUnsigned(v.value));
      UnsignedHere(payload, offset, number, v.value, rest);
    } else {
      assert [] + rest == rest;
    }
  }

  function ObjectAt(payload: seq<byte>, offset: nat, number: byte): (r: Parsed<uint32>)
    ensures r.Good? ==> offset < r.next <= |payload|
  {
    var f := ExpectContext(payload, offset, number);
    if f.None? || |f.value.value| != 4 then Refused else Good(Get32(f.value.value), f.value.next)
  }

  function ObjectField(number: byte, id: uint32): seq<byte> {
    ContextPrimitive(number, Put32(id))
  }

  lemma ObjectHere(payload: seq<byte>, offset: nat, number: byte, id: uint32, rest: seq<byte>)
    requires offset <= |payload| && payload[offset..] == ObjectField(number, id) + rest
    ensures var next := offset + |ObjectField(number, id)|;
            ObjectAt(payload, offset, number) == Good(id, next) && payload[next..] == rest
  {
    hide ContextPrimitive, ExpectContext, Put32, Get32;
    ContextHere(payload, offset, number, Put32(id), rest);
  }

  // --- ReadPropertyMultiple-ACK ---

  /** One property's value, or the error that stands in for it. */
  datatype Entry = Entry(property: uint32, index: Option<uint32>, failed: bool, content: seq<byte>)

  datatype ReadAccess = ReadAccess(id: uint32, results: seq<Entry>)

  /** The content of an entry is a balanced body. */
  ghost predicate HasBody(content: seq<byte>) {
    exists b :: Balanced(b) && Bytes(b) == content
  }

  /** A value has tag 4, an error tag 5. */
  function ContentAt(payload: seq<byte>, offset: nat, property: uint32, index: Option<uint32>): (r: Parsed<Entry>)
    ensures r.Good? ==> offset < r.next <= |payload|
  {
    if OpeningAt(payload, offset, 4) then
      var v := TaggedBodyAt(payload, offset, 4);
      if v.None? then Refused else Good(Entry(property, index, false, v.value.value), v.value.next)
    else if OpeningAt(payload, offset, 5) then
      var e := TaggedBodyAt(payload, offset, 5);
      if e.None? then Refused else Good(Entry(property, index, true, e.value.value), e.value.next)
    else Refused
  }

  /** After the property identifier the next octet is looked at without asking whether there is
      one. */
  function EntryAt(payload: seq<byte>, offset: nat): (r: Parsed<Entry>)
    ensures r.Good? ==> offset < r.next <= |payload|
  {
    var p := UnsignedAt(payload, offset, 2);
    if !p.Good? then Refused
    else if p.next >= |payload| then Crashes
    else
      var i := OptionalAt(payload, p.next, 3);
      if !i.Good? then Refused else ContentAt(payload, i.next, p.value, i.value)
  }

  function EntriesAt(payload: seq<byte>, cursor: nat): (r: Parsed<seq<Entry>>)
    ensures r.Good? ==> cursor < r.next <= |payload|
    decreases if cursor < |payload| then |payload| - cursor else 0
  {
    if ClosingAt(payload, cursor, 1) then Good([], cursor + 1)
    else
      var e := EntryAt(payload, cursor);
      if !e.Good? then (if e.Crashes? then Crashes else Refused)
      else
        var more := EntriesAt(payload, e.next);
        if more.Good? then Good([e.value] + more.value, more.next) else more
  }

  function AccessAt(payload: seq<byte>, cursor: nat): (r: Parsed<ReadAccess>)
    ensures r.Good? ==> cursor < r.next <= |payload|
  {
    var o := ObjectAt(payload, cursor, 0);
    if !o.Good? then Refused
    else
      var next := ExpectOpening(payload, o.next, 1);
      if next.None? then Refused
      else
        var es := EntriesAt(payload, next.value);
        if es.Good? then Good(ReadAccess(o.value, es.value), es.next)
        else if es.Crashes? then Crashes else Refused
  }

  function AccessesAt(payload: seq<byte>, cursor: nat): (r: Parsed<seq<ReadAccess>>)
    requires cursor <= |payload|
    decreases |payload| - cursor
  {
    if cursor == |payload| then Good([], cursor)
    else
      var a := AccessAt(payload, cursor);
      if !a.Good? then (if a.Crashes? then Crashes else Refused)
      else
        var more := AccessesAt(payload, a.next);
        if more.Good? then Good([a.value] + more.value, more.next) else more
  }

  function Prefixed<T>(front: seq<T>, r: Parsed<seq<T>>): Parsed<seq<T>> {
    if r.Good? then Good(front + r.value, r.next) else r
  }

  lemma PrefixedAgain<T>(front: seq<T>, x: T, r: Parsed<seq<T>>)
    ensures Prefixed(front, Prefixed([x], r)) == Prefixed(front + [x], r)
    ensures Prefixed([], r) == r && front + [] == front
  {
    if r.Good? {
      assert front + ([x] + r.value) == (front + [x]) + r.value;
      assert [] + r.value == r.value;
    }
  }

  method DecodeEntries(payload: seq<byte>, start: nat) returns (r: Parsed<seq<Entry>>)
    ensures r == EntriesAt(payload, start)
  {
    hide ClosingAt, EntryAt;
    var results: seq<Entry> := [];
    var cursor := start;
    ghost var whole := EntriesAt(payload, start);
    PrefixedAgain([], Entry(0, None, false, []), whole);
    while true
      invariant whole == Prefixed(results, EntriesAt(payload, cursor))
      decreases if cursor < |payload| then |payload| - cursor else 0
    {
      if ClosingAt(payload, cursor, 1) {
        assert results + [] == results;
        return Good(results, cursor + 1);
      }
      var e := EntryAt(payload, cursor);
      if !e.Good? {
        return if e.Crashes? then Crashes else Refused;
      }
      PrefixedAgain(results, e.value, EntriesAt(payload, e.next));
      results := results + [e.value];
      cursor := e.next;
    }
  }

  method DecodeReadPropertyMultipleAck(payload: seq<byte>) returns (r: Parsed<seq<ReadAccess>>)
    ensures r == AccessesAt(payload, 0)
  {
    hide ExpectOpening, ObjectAt, EntriesAt;
    var accesses: seq<ReadAccess> := [];
    var cursor := 0;
    PrefixedAgain([], ReadAccess(0, []), AccessesAt(payload, 0));
    while cursor < |payload|
      invariant cursor <= |payload|
      invariant AccessesAt(payload, 0) == Prefixed(accesses, AccessesAt(payload, cursor))
      decreases |payload| - cursor
    {
      var o := ObjectAt(payload, cursor, 0);
      if !o.Good? {
        return Refused;
      }
      var inside := ExpectOpening(payload, o.next, 1);
      if inside.None? {
        return Refused;
      }
      var es := DecodeEntries(payload, inside.value);
      if !es.Good? {
        return if es.Crashes? then Crashes else Refused;
      }
      var access := ReadAccess(o.value, es.value);
      PrefixedAgain(accesses, access, AccessesAt(payload, es.next));
      accesses := accesses + [access];
      cursor := es.next;
    }
    assert accesses + [] == accesses;
    r := Good(accesses, cursor);
  }

  function ContentTag(e: Entry): byte {
    if e.failed then 5 else 4
  }

  function EntryBytes(e: Entry): seq<byte> {
    UnsignedField(2, e.property) + OptionalField(3, e.index)
    + (OpeningTag(ContentTag(e)) + e.content + ClosingTag(ContentTag(e)))
  }

  function EntriesBytes(es: seq<Entry>): seq<byte> {
    if es == [] then [] else EntryBytes(es[0]) + EntriesBytes(es[1..])
  }

  function AccessBytes(a: ReadAccess): seq<byte> {
    ObjectField(0, a.id) + OpeningTag(1) + EntriesBytes(a.results) + ClosingTag(1)
  }

  function AccessesBytes(s: seq<ReadAccess>): seq<byte> {
    if s == [] then [] else AccessBytes(s[0]) + AccessesBytes(s[1..])
  }

  ghost predicate EntriesBalanced(es: seq<Entry>) {
    forall i :: 0 <= i < |es| ==> HasBody(es[i].content)
  }

  ghost predicate AccessesBalanced(s: seq<ReadAccess>) {
    forall i :: 0 <= i < |s| ==> EntriesBalanced(s[i].results)
  }

  lemma ContentHere(payload: seq<byte>, offset: nat, e: Entry, rest: seq<byte>)
    requires HasBody(e.content) && offset <= |payload|
    requires payload[offset..] == OpeningTag(ContentTag(e)) + e.content + ClosingTag(ContentTag(e)) + rest
    ensures var next := offset + |OpeningTag(ContentTag(e)) + e.content + ClosingTag(ContentTag(e))|;
            && ContentAt(payload, offset, e.property, e.index) == Good(e, next)
            && next <= |payload| && payload[next..] == rest
  {
    hide OpeningTag, ClosingTag, Balanced, Bytes, TaggedBodyAt, ExpectOpening;
    var b :| Balanced(b) && Bytes(b) == e.content;
    var t := ContentTag(e);
    var tail := e.content + (ClosingTag(t) + rest);
    assert payload[offset..] == OpeningTag(t) + tail;
    BodyHere(payload, offset, t, b, rest);
    if e.failed {
      OpeningIsOnly(payload, offset, 5, tail, 4);
    }
  }

  lemma EntryHere(payload: seq<byte>, offset: nat, e: Entry, rest: seq<byte>)
    requires HasBody(e.content) && offset <= |payload| && payload[offset..] == EntryBytes(e) + rest
    ensures var next := offset + |EntryBytes(e)|;
            EntryAt(payload, offset) == Good(e, next) && next <= |payload| && payload[next..] == rest
    ensures !ClosingAt(payload, offset, 1)
  {
    hide UnsignedAt, OptionalAt, ContentAt, UnsignedField, OptionalField, OpeningTag, ClosingTag, HasBody, ClosingAt,
         LooksLikeContext;
    var t := ContentTag(e);
    var content := OpeningTag(t) + e.content + ClosingTag(t) + rest;
    var indexed := OptionalField(3, e.index) + content;
    assert payload[offset..] == UnsignedField(2, e.property) + indexed;
    UnsignedIsNotClosing(payload, offset, 2, e.property, indexed, 1);
    UnsignedHere(payload, offset, 2, e.property, indexed);
    FirstOctets(t, []);
    assert content[0] == OpeningTag(t)[0];
    OptionalHere(payload, offset + |UnsignedField(2, e.property)|, 3, e.index, content);
    ContentHere(payload, offset + |UnsignedField(2, e.property)| + |OptionalField(3, e.index)|, e, rest);
  }

  lemma UnsignedIsNotClosing(payload: seq<byte>, offset: nat, number: byte, v: uint32, rest: seq<byte>, other: byte)
    requires offset <= |payload| && payload[offset..] == UnsignedField(number, v) + rest
    ensures !ClosingAt(payload, offset, other)
  {
    hide ClosingAt, EncodeUnsigned;
    ContextIsNotClosing(payload, offset, number, EncodeUnsigned(v), rest, other);
  }

  lemma {:induction false} EntriesHere(payload: seq<byte>, offset: nat, es: seq<Entry>, rest: seq<byte>)
    requires EntriesBalanced(es) && offset <= |payload|
    requires payload[offset..] == EntriesBytes(es) + (ClosingTag(1) + rest)
    ensures var next := offset + |EntriesBytes(es)| + 1;
            EntriesAt(payload, offset) == Good(es, next) && next <= |payload| && payload[next..] == rest
    decreases |es|
  {
    hide EntryAt, EntryBytes, HasBody, ClosingAt;
    if es == [] {
      assert payload[offset..] == ClosingTag(1) + rest;
      ClosingHere(payload, offset, 1, rest);
    } else {
      assert HasBody(es[0].content);
      var tail := EntriesBytes(es[1..]) + (ClosingTag(1) + rest);
      assert payload[offset..] == EntryBytes(es[0]) + tail;
      EntryHere(payload, offset, es[0], tail);
      EntriesHere(payload, offset + |EntryBytes(es[0])|, es[1..], rest);
      assert [es[0]] + es[1..] == es;
    }
  }

  lemma AccessHere(payload: seq<byte>, offset: nat, a: ReadAccess, rest: seq<byte>)
    requires EntriesBalanced(a.results) && offset <= |payload| && payload[offset..] == AccessBytes(a) + rest
    ensures var next := offset + |AccessBytes(a)|;
            AccessAt(payload, offset) == Good(a, next) && next <= |payload| && payload[next..] == rest
  {
    hide ObjectAt, ObjectField, ExpectOpening, EntriesAt, EntriesBytes, EntriesBalanced;
    var closing := ClosingTag(1) + rest;
    var inner := EntriesBytes(a.results) + closing;
    var inside := OpeningTag(1) + inner;
    assert payload[offset..] == ObjectField(0, a.id) + inside;
    ObjectHere(payload, offset, 0, a.id, inside);
    var o := offset + |ObjectField(0, a.id)|;
    OpeningHere(payload, o, 1, inner);
    EntriesHere(payload, o + |OpeningTag(1)|, a.results, rest);
  }

  lemma {:induction false} AccessesHere(payload: seq<byte>, offset: nat, s: seq<ReadAccess>)
    requires AccessesBalanced(s) && offset <= |payload| && payload[offset..] == AccessesBytes(s)
    ensures AccessesAt(payload, offset) == Good(s, |payload|)
    decreases |s|
  {
    hide AccessAt, AccessBytes, EntriesBalanced;
    if s != [] {
      assert EntriesBalanced(s[0].results);
      AccessHere(payload, offset, s[0], AccessesBytes(s[1..]));
      AccessesHere(payload, offset + |AccessBytes(s[0])|, s[1..]);
      assert [s[0]] + s[1..] == s;
    }
  }

  /** Any list of read-access results, each with any number of values and errors, comes back as
      it was; the unguarded index is never reached. */
  lemma ReadAccessesRoundTrip(s: seq<ReadAccess>)
    requires AccessesBalanced(s)
    ensures AccessesAt(AccessesBytes(s), 0) == Good(s, |AccessesBytes(s)|)
  {
    hide AccessesAt, AccessesBytes, AccessesBalanced;
    assert AccessesBytes(s)[0..] == AccessesBytes(s);
    AccessesHere(AccessesBytes(s), 0, s);
  }

  // --- where the unguarded index is reached ---

  /** Complete results stand between the two cursors, one after the other. */
  predicate AccessesUpTo(payload: seq<byte>, cursor: nat, stop: nat)
    decreases if cursor < |payload| then |payload| - cursor else 0
  {
    cursor == stop || (AccessAt(payload, cursor).Good? && AccessesUpTo(payload, AccessAt(payload, cursor).next, stop))
  }

  /** Complete entries stand between the two cursors, none of them the end of their list. */
  predicate EntriesUpTo(payload: seq<byte>, cursor: nat, stop: nat)
    decreases if cursor < |payload| then |payload| - cursor else 0
  {
    cursor == stop || (!ClosingAt(payload, cursor, 1) && EntryAt(payload, cursor).Good?
                       && EntriesUpTo(payload, EntryAt(payload, cursor).next, stop))
  }

  /** A property identifier with nothing after it. */
  predicate EndsWithProperty(payload: seq<byte>, offset: nat) {
    UnsignedAt(payload, offset, 2).Good? && UnsignedAt(payload, offset, 2).next == |payload|
  }

  /** A result whose list of entries is cut off after the property identifier at last. */
  predicate CutInside(payload: seq<byte>, cursor: nat, last: nat) {
    && ObjectAt(payload, cursor, 0).Good?
    && ExpectOpening(payload, ObjectAt(payload, cursor, 0).next, 1).Some?
    && EntriesUpTo(payload, ExpectOpening(payload, ObjectAt(payload, cursor, 0).next, 1).value, last)
    && EndsWithProperty(payload, last)
  }

  /** Complete results, and then one that is cut off. */
  predicate CutAfterProperty(payload: seq<byte>, from: nat, cursor: nat, last: nat) {
    AccessesUpTo(payload, from, cursor) && CutInside(payload, cursor, last)
  }

  lemma UnsignedDoesNotClose(payload: seq<byte>, offset: nat)
    requires UnsignedAt(payload, offset, 2).Good?
    ensures !ClosingAt(payload, offset, 1)
  {
    hide ParseTag;
  }

  lemma EntryCrashes(payload: seq<byte>, offset: nat)
    ensures EntryAt(payload, offset) == Crashes <==> EndsWithProperty(payload, offset)
  {
    hide UnsignedAt, OptionalAt, TaggedBodyAt, ExpectOpening;
  }

  lemma {:induction false} EntriesCrash(payload: seq<byte>, cursor: nat) returns (last: nat)
    requires EntriesAt(payload, cursor) == Crashes
    ensures EntriesUpTo(payload, cursor, last) && EndsWithProperty(payload, last)
    decreases if cursor < |payload| then |payload| - cursor else 0
  {
    hide EntryAt, ClosingAt, EndsWithProperty;
    EntryCrashes(payload, cursor);
    var e := EntryAt(payload, cursor);
    if e.Good? {
      last := EntriesCrash(payload, e.next);
    } else {
      last := cursor;
    }
  }

  lemma {:induction false} CutEntriesCrash(payload: seq<byte>, cursor: nat, last: nat)
    requires EntriesUpTo(payload, cursor, last) && EndsWithProperty(payload, last)
    ensures EntriesAt(payload, cursor) == Crashes
    decreases if cursor < |payload| then |payload| - cursor else 0
  {
    UnsignedDoesNotClose(payload, last);
    hide EntryAt, ClosingAt, EndsWithProperty;
    EntryCrashes(payload, cursor);
    if cursor != last {
      CutEntriesCrash(payload, EntryAt(payload, cursor).next, last);
    }
  }

  lemma AccessCrashes(payload: seq<byte>, cursor: nat) returns (last: nat)
    requires AccessAt(payload, cursor) == Crashes
    ensures CutInside(payload, cursor, last)
  {
    hide ObjectAt, ExpectOpening, EntriesAt, EntriesUpTo, EndsWithProperty;
    last := EntriesCrash(payload, ExpectOpening(payload, ObjectAt(payload, cursor, 0).next, 1).value);
  }

  lemma CutAccessCrashes(payload: seq<byte>, cursor: nat, last: nat)
    requires CutInside(payload, cursor, last)
    ensures cursor < |payload| && AccessAt(payload, cursor) == Crashes
  {
    hide ObjectAt, ExpectOpening, EntriesAt, EntriesUpTo, EndsWithProperty;
    CutEntriesCrash(payload, ExpectOpening(payload, ObjectAt(payload, cursor, 0).next, 1).value, last);
  }

  lemma {:induction false} AccessesCrash(payload: seq<byte>, from: nat) returns (cursor: nat, last: nat)
    requires from <= |payload| && AccessesAt(payload, from) == Crashes
    ensures CutAfterProperty(payload, from, cursor, last)
    decreases |payload| - from
  {
    hide AccessAt, CutInside;
    var a := AccessAt(payload, from);
    if a.Good? {
      cursor, last := AccessesCrash(payload, a.next);
    } else {
      cursor := from;
      last := AccessCrashes(payload, from);
    }
  }

  lemma {:induction false} CutAccessesCrash(payload: seq<byte>, from: nat, cursor: nat, last: nat)
    requires from <= |payload| && CutAfterProperty(payload, from, cursor, last)
    ensures AccessesAt(payload, from) == Crashes
    decreases |payload| - from
  {
    hide AccessAt, CutInside;
    if from == cursor {
      CutAccessCrashes(payload, cursor, last);
    } else {
      CutAccessesCrash(payload, AccessAt(payload, from).next, cursor, last);
    }
  }

  /** The decoder indexes past the end if and only if the payload consists of complete results,
      the object and opening tag of one more, complete entries of that one, and a property
      identifier that ends the payload. */
  lemma DecoderCrashesExactly(payload: seq<byte>)
    ensures AccessesAt(payload, 0) == Crashes
            <==> exists cursor: nat, last: nat :: CutAfterProperty(payload, 0, cursor, last)
  {
    hide AccessesAt, CutAfterProperty;
    if AccessesAt(payload, 0) == Crashes {
      var cursor, last := AccessesCrash(payload, 0);
    }
    if cursor: nat, last: nat :| CutAfterProperty(payload, 0, cursor, last) {
      CutAccessesCrash(payload, 0, cursor, last);
    }
  }

  lemma {:induction false} EntriesUpToHere(payload: seq<byte>, offset: nat, es: seq<Entry>, rest: seq<byte>)
    requires EntriesBalanced(es) && offset <= |payload| && payload[offset..] == EntriesBytes(es) + rest
    ensures var stop := offset + |EntriesBytes(es)|;
            EntriesUpTo(payload, offset, stop) && stop <= |payload| && payload[stop..] == rest
    decreases |es|
  {
    hide EntryAt, EntryBytes, HasBody, ClosingAt;
    if es == [] {
      assert payload[offset..] == rest;
    } else {
      assert HasBody(es[0].content);
      assert payload[offset..] == EntryBytes(es[0]) + (EntriesBytes(es[1..]) + rest);
      EntryHere(payload, offset, es[0], EntriesBytes(es[1..]) + rest);
      EntriesUpToHere(payload, offset + |EntryBytes(es[0])|, es[1..], rest);
    }
  }

  lemma {:induction false} AccessesUpToHere(payload: seq<byte>, offset: nat, s: seq<ReadAccess>, rest: seq<byte>)
    requires AccessesBalanced(s) && offset <= |payload| && payload[offset..] == AccessesBytes(s) + rest
    ensures var stop := offset + |AccessesBytes(s)|;
            AccessesUpTo(payload, offset, stop) && stop <= |payload| && payload[stop..] == rest
    decreases |s|
  {
    hide AccessAt, AccessBytes, EntriesBalanced;
    if s == [] {
      assert payload[offset..] == rest;
    } else {
      assert EntriesBalanced(s[0].results);
      assert payload[offset..] == AccessBytes(s[0]) + (AccessesBytes(s[1..]) + rest);
      AccessHere(payload, offset, s[0], AccessesBytes(s[1..]) + rest);
      AccessesUpToHere(payload, offset + |AccessBytes(s[0])|, s[1..], rest);
    }
  }

  /** What is left of an answer cut off after the identifier of one property. */
  function TruncatedBytes(s: seq<ReadAccess>, id: uint32, es: seq<Entry>, property: uint32): seq<byte> {
    AccessesBytes(s) + (ObjectField(0, id) + (OpeningTag(1) + (EntriesBytes(es) + UnsignedField(2, property))))
  }

  lemma LastPropertyEnds(payload: seq<byte>, last: nat, property: uint32)
    requires last <= |payload| && payload[last..] == UnsignedField(2, property)
    ensures EndsWithProperty(payload, last)
  {
    hide UnsignedAt, UnsignedField;
    assert payload[last..] == UnsignedField(2, property) + [];
    UnsignedHere(payload, last, 2, property, []);
  }

  lemma CutInsideHere(payload: seq<byte>, cursor: nat, id: uint32, es: seq<Entry>, property: uint32) returns (last: nat)
    requires EntriesBalanced(es) && cursor <= |payload|
    requires payload[cursor..] == ObjectField(0, id) + (OpeningTag(1) + (EntriesBytes(es) + UnsignedField(2, property)))
    ensures CutInside(payload, cursor, last)
  {
    hide ObjectAt, ObjectField, ExpectOpening, OpeningTag, EntriesUpTo, EntriesBytes, EntriesBalanced, UnsignedAt,
         UnsignedField;
    var inner := EntriesBytes(es) + UnsignedField(2, property);
    ObjectHere(payload, cursor, 0, id, OpeningTag(1) + inner);
    var o := cursor + |ObjectField(0, id)|;
    OpeningHere(payload, o, 1, inner);
    var inside := o + |OpeningTag(1)|;
    EntriesUpToHere(payload, inside, es, UnsignedField(2, property));
    last := inside + |EntriesBytes(es)|;
    LastPropertyEnds(payload, last, property);
    hide EndsWithProperty;
  }

  /** Every answer cut off there makes the decoder index past the end, whatever came before. */
  lemma TruncatedAnswersCrash(s: seq<ReadAccess>, id: uint32, es: seq<Entry>, property: uint32)
    requires AccessesBalanced(s) && EntriesBalanced(es)
    ensures AccessesAt(TruncatedBytes(s, id, es, property), 0) == Crashes
  {
    hide AccessesAt, AccessesBytes, AccessesBalanced, ObjectField, OpeningTag, EntriesBytes, EntriesBalanced,
         UnsignedField, CutInside, AccessesUpTo;
    var payload := TruncatedBytes(s, id, es, property);
    var rest := ObjectField(0, id) + (OpeningTag(1) + (EntriesBytes(es) + UnsignedField(2, property)));
    assert payload[0..] == AccessesBytes(s) + rest;
    AccessesUpToHere(payload, 0, s, rest);
    var last := CutInsideHere(payload, |AccessesBytes(s)|, id, es, property);
    CutAccessesCrash(payload, 0, |AccessesBytes(s)|, last);
  }

  /** Property 85 of analog input 1, cut off before its value. */
  const CUT_OFF: seq<byte> := [0x0C, 0, 0, 0, 1, 0x1E, 0x29, 0x55]

  lemma CutOffBytes()
    ensures TruncatedBytes([], 1, [], 85) == CUT_OFF && UnsignedField(2, 85) == [0x29, 0x55]
  {
    hide Has;
    assert EncodeUnsigned(85) == [85];
    assert Put32(1) == [0, 0, 0, 1];
    FirstOctets(1, []);
  }

  /** A field with one number is not taken for one with another. */
  lemma OtherNumberIsRefused(payload: seq<byte>, offset: nat, number: byte, other: byte)
    requires UnsignedAt(payload, offset, number).Good? && other != number
    ensures ObjectAt(payload, offset, other) == Refused
  {
    hide ParseTag;
  }

  /** A payload on which the decoder indexes past the end; a property identifier alone is
      refused before that. */
  lemma CutOffAnswerCrashes()
    ensures AccessesAt(CUT_OFF, 0) == Crashes
    ensures EntryAt([0x29, 0x55], 0) == Crashes && AccessesAt([0x29, 0x55], 0) == Refused
  {
    CutOffBytes();
    assert UnsignedField(2, 85) + [] == UnsignedField(2, 85);
    TruncatedAnswersCrash([], 1, [], 85);
    UnsignedHere([0x29, 0x55], 0, 2, 85, []);
    EntryCrashes([0x29, 0x55], 0);
    OtherNumberIsRefused([0x29, 0x55], 0, 2, 0);
    hide ObjectAt, UnsignedAt, EntryAt, UnsignedField, TruncatedBytes, ExpectOpening;
  }
}
