/** ReadProperty-ACK (section 15.5 of ANSI/ASHRAE 135-2024) and change-of-value notifications
    (section 13), their decoders set against encoders that lay the same fields out in order. */
module Notifications {
  import opened Wire
  import opened Tags
  import opened Bodies
  import opened Primitives
  import opened Lists

  // --- property values of a notification ---

  datatype CovValue = CovValue(property: uint32, index: Option<uint32>, content: seq<byte>, priority: Option<byte>)

  /** The priority that may follow a value; 1 to 16. */
  function PriorityAt(payload: seq<byte>, offset: nat): (r: Parsed<Option<byte>>)
    requires offset <= |payload|
    ensures r.Good? ==> offset <= r.next <= |payload|
  {
    if offset == |payload| || !LooksLikeContext(payload[offset], 3) then Good(None, offset)
    else
      var u := UnsignedAt(payload, offset, 3);
      if !u.Good? then Refused
      else if u.value == 0 || u.value > 16 then Refused
      else Good(Some(u.value), u.next)
  }

  function CovIndexAt(payload: seq<byte>, offset: nat): (r: Parsed<Option<uint32>>)
    requires offset <= |payload|
    ensures r.Good? ==> offset <= r.next <= |payload|
  {
    if offset == |payload| then Good(None, offset) else OptionalAt(payload, offset, 1)
  }

  function CovValueAt(payload: seq<byte>, offset: nat): (r: Parsed<CovValue>)
    ensures r.Good? ==> offset < r.next <= |payload|
    ensures !r.Crashes?
  {
    if offset >= |payload| then Refused
    else
      var p := UnsignedAt(payload, offset, 0);
      if !p.Good? then Refused
      else
        var i := CovIndexAt(payload, p.next);
        if !i.Good? then Refused
        else
          var b := TaggedBodyAt(payload, i.next, 2);
          if b.None? then Refused
          else
            var q := PriorityAt(payload, b.value.next);
            if !q.Good? then Refused else Good(CovValue(p.value, i.value, b.value.value, q.value), q.next)
  }

  function CovValuesAt(payload: seq<byte>, cursor: nat, listTag: byte): (r: Parsed<seq<CovValue>>)
    ensures r.Good? ==> cursor < r.next <= |payload|
    ensures !r.Crashes?
    decreases if cursor < |payload| then |payload| - cursor else 0
  {
    if ClosingAt(payload, cursor, listTag) then Good([], cursor + 1)
    else
      var v := CovValueAt(payload, cursor);
      if !v.Good? then Refused
      else
        var more := CovValuesAt(payload, v.next, listTag);
        if more.Good? then Good([v.value] + more.value, more.next) else more
  }

  function CovListAt(payload: seq<byte>, offset: nat, listTag: byte): (r: Parsed<seq<CovValue>>)
    ensures r.Good? ==> offset < r.next <= |payload|
    ensures !r.Crashes?
  {
    var start := ExpectOpening(payload, offset, listTag);
    if start.None? then Refused else CovValuesAt(payload, start.value, listTag)
  }

  /** The loop of the decoder. Neither its bound on iterations nor its test for progress can
      ever refuse a payload. */
  method DecodeCovPropertyValueList(payload: seq<byte>, offset: nat, listTag: byte) returns (r: Parsed<seq<CovValue>>)
    ensures r == CovListAt(payload, offset, listTag)
  {
    hide ExpectOpening, ClosingAt, CovValueAt;
    var start := ExpectOpening(payload, offset, listTag);
    if start.None? {
      return Refused;
    }
    var cursor := start.value;
    var values: seq<CovValue> := [];
    var iterations := 0;
    ghost var whole := CovValuesAt(payload, cursor, listTag);
    PrefixedAgain([], CovValue(0, None, [], None), whole);
    while true
      invariant start.value <= cursor <= |payload| && iterations <= cursor - start.value
      invariant whole == Prefixed(values, CovValuesAt(payload, cursor, listTag))
      decreases |payload| - cursor
    {
      iterations := iterations + 1;
      if iterations > |payload| + 1 {
        assert false;
        return Refused;
      }
      var prevCursor := cursor;
      if ClosingAt(payload, cursor, listTag) {
        assert values + [] == values;
        return Good(values, cursor + 1);
      }
      var v := CovValueAt(payload, cursor);
      if !v.Good? {
        return Refused;
      }
      PrefixedAgain(values, v.value, CovValuesAt(payload, v.next, listTag));
      values := values + [v.value];
      cursor := v.next;
      if cursor <= prevCursor {
        assert false;
        return Refused;
      }
    }
  }

  function PriorityField(priority: Option<byte>): seq<byte> {
    if priority.None? then [] else UnsignedField(3, priority.value)
  }

  function CovValueBytes(v: CovValue): seq<byte> {
    UnsignedField(0, v.property) + OptionalField(1, v.index)
    + (OpeningTag(2) + v.content + ClosingTag(2)) + PriorityField(v.priority)
  }

  function CovValuesBytes(vs: seq<CovValue>): seq<byte> {
    if vs == [] then [] else CovValueBytes(vs[0]) + CovValuesBytes(vs[1..])
  }

  function CovListBytes(vs: seq<CovValue>, listTag: byte): seq<byte> {
    OpeningTag(listTag) + CovValuesBytes(vs) + ClosingTag(listTag)
  }

  /** A balanced content, and a priority in range if there is one. */
  ghost predicate Proper(v: CovValue) {
    HasBody(v.content) && (v.priority.Some? ==> 1 <= v.priority.value <= 16)
  }

  ghost predicate AllProper(vs: seq<CovValue>) {
    forall i :: 0 <= i < |vs| ==> Proper(vs[i])
  }

  lemma PriorityHere(payload: seq<byte>, offset: nat, priority: Option<byte>, rest: seq<byte>)
    requires offset <= |payload| && payload[offset..] == PriorityField(priority) + rest
    requires priority.Some? ==> 1 <= priority.value <= 16
    requires rest != [] ==> !LooksLikeContext(rest[0], 3)
    ensures var next := offset + |PriorityField(priority)|;
            PriorityAt(payload, offset) == Good(priority, next) && next <= |payload| && payload[next..] == rest
  {
    hide LooksLikeContext, UnsignedAt, EncodeUnsigned;
    if priority.Some? {
      assert payload[offset] == payload[offset..][0];
      FirstOctets(3, EncodeUnsigned(priority.value));
      UnsignedHere(payload, offset, 3, priority.value, rest);
    } else {
      assert [] + rest == rest;
      assert rest != [] ==> payload[offset] == payload[offset..][0];
    }
  }

  lemma ContentStarts(content: seq<byte>, rest: seq<byte>)
    ensures var c := OpeningTag(2) + content + ClosingTag(2) + rest;
            c != [] && !LooksLikeContext(c[0], 1)
  {
    FirstOctets(2, []);
  }

  lemma WrappedBodyHere(payload: seq<byte>, offset: nat, number: byte, content: seq<byte>, rest: seq<byte>)
    requires HasBody(content) && offset <= |payload|
    requires payload[offset..] == OpeningTag(number) + content + ClosingTag(number) + rest
    ensures var next := offset + |OpeningTag(number) + content + ClosingTag(number)|;
            && TaggedBodyAt(payload, offset, number) == Some(TaggedBody(next, content))
            && next <= |payload| && payload[next..] == rest
  {
    hide OpeningTag, ClosingTag, Balanced, Bytes, TaggedBodyAt;
    var b :| Balanced(b) && Bytes(b) == content;
    assert payload[offset..] == OpeningTag(number) + (content + (ClosingTag(number) + rest));
    BodyHere(payload, offset, number, b, rest);
  }

  lemma CovValueHere(payload: seq<byte>, offset: nat, v: CovValue, rest: seq<byte>, listTag: byte)
    requires Proper(v) && offset <= |payload| && payload[offset..] == CovValueBytes(v) + rest
    requires rest != [] ==> !LooksLikeContext(rest[0], 3)
    ensures var next := offset + |CovValueBytes(v)|;
            CovValueAt(payload, offset) == Good(v, next) && next <= |payload| && payload[next..] == rest
    ensures !ClosingAt(payload, offset, listTag)
  {
    hide UnsignedAt, OptionalAt, PriorityAt, TaggedBodyAt, UnsignedField, OptionalField, PriorityField, OpeningTag,
         ClosingTag, HasBody, ClosingAt, LooksLikeContext;
    var last := PriorityField(v.priority) + rest;
    var content := OpeningTag(2) + v.content + ClosingTag(2) + last;
    var indexed := OptionalField(1, v.index) + content;
    assert payload[offset..] == UnsignedField(0, v.property) + indexed;
    UnsignedIsNotClosing(payload, offset, 0, v.property, indexed, listTag);
    UnsignedHere(payload, offset, 0, v.property, indexed);
    ContentStarts(v.content, last);
    var o1 := offset + |UnsignedField(0, v.property)|;
    OptionalHere(payload, o1, 1, v.index, content);
    var o2 := o1 + |OptionalField(1, v.index)|;
    WrappedBodyHere(payload, o2, 2, v.content, last);
    var o3 := o2 + |OpeningTag(2) + v.content + ClosingTag(2)|;
    PriorityHere(payload, o3, v.priority, rest);
  }

  /** Whatever follows a value, another value or the closing tag, does not look like a priority. */
  lemma NextIsNoPriority(vs: seq<CovValue>, listTag: byte, rest: seq<byte>)
    requires listTag <= 14
    ensures var tail := CovValuesBytes(vs) + (ClosingTag(listTag) + rest);
            tail != [] && !LooksLikeContext(tail[0], 3)
  {
    FirstOctets(listTag, []);
    if vs != [] {
      FirstOctets(0, EncodeUnsigned(vs[0].property));
      hide LooksLikeContext, EncodeUnsigned;
      assert (CovValuesBytes(vs) + (ClosingTag(listTag) + rest))[0] == UnsignedField(0, vs[0].property)[0];
    }
  }

  lemma {:induction false} CovValuesHere(payload: seq<byte>, offset: nat, vs: seq<CovValue>, listTag: byte,
                                         rest: seq<byte>)
    requires AllProper(vs) && listTag <= 14 && offset <= |payload|
    requires payload[offset..] == CovValuesBytes(vs) + (ClosingTag(listTag) + rest)
    ensures var next := offset + |CovValuesBytes(vs)| + 1;
            CovValuesAt(payload, offset, listTag) == Good(vs, next) && next <= |payload| && payload[next..] == rest
    decreases |vs|
  {
    hide CovValueAt, CovValueBytes, Proper, ClosingAt, LooksLikeContext;
    if vs == [] {
      assert payload[offset..] == ClosingTag(listTag) + rest;
      ClosingHere(payload, offset, listTag, rest);
    } else {
      assert Proper(vs[0]);
      var tail := CovValuesBytes(vs[1..]) + (ClosingTag(listTag) + rest);
      assert payload[offset..] == CovValueBytes(vs[0]) + tail;
      NextIsNoPriority(vs[1..], listTag, rest);
      CovValueHere(payload, offset, vs[0], tail, listTag);
      CovValuesHere(payload, offset + |CovValueBytes(vs[0])|, vs[1..], listTag, rest);
      assert [vs[0]] + vs[1..] == vs;
    }
  }

  /** Any list of property values comes back as it was, wherever it stands. */
  lemma CovListHere(payload: seq<byte>, offset: nat, vs: seq<CovValue>, listTag: byte, rest: seq<byte>)
    requires AllProper(vs) && listTag <= 14 && offset <= |payload|
    requires payload[offset..] == CovListBytes(vs, listTag) + rest
    ensures var next := offset + |CovListBytes(vs, listTag)|;
            CovListAt(payload, offset, listTag) == Good(vs, next) && next <= |payload| && payload[next..] == rest
  {
    hide ExpectOpening, CovValuesAt, CovValuesBytes, AllProper;
    var inner := CovValuesBytes(vs) + (ClosingTag(listTag) + rest);
    assert payload[offset..] == OpeningTag(listTag) + inner;
    OpeningHere(payload, offset, listTag, inner);
    CovValuesHere(payload, offset + |OpeningTag(listTag)|, vs, listTag, rest);
  }

  // --- notifications about several objects ---

  datatype CovObject = CovObject(id: uint32, values: seq<CovValue>)

  datatype Multiple = Multiple(processID: uint32, device: uint32, timeRemaining: uint32, objects: seq<CovObject>)

  const DEVICE_TYPE: nat := 8

  predicate IsDevice(id: uint32) {
    id / 0x40_0000 == DEVICE_TYPE
  }

  function CovObjectsAt(payload: seq<byte>, cursor: nat): (r: Parsed<seq<CovObject>>)
    ensures r.Good? ==> cursor < r.next <= |payload|
    ensures !r.Crashes?
    decreases if cursor < |payload| then |payload| - cursor else 0
  {
    if ClosingAt(payload, cursor, 3) then Good([], cursor + 1)
    else
      var o := ObjectAt(payload, cursor, 0);
      if !o.Good? then Refused
      else
        var vs := CovListAt(payload, o.next, 1);
        if !vs.Good? then Refused
        else
          var more := CovObjectsAt(payload, vs.next);
          if more.Good? then Good([CovObject(o.value, vs.value)] + more.value, more.next) else more
  }

  function MultipleOf(payload: seq<byte>): Option<Multiple> {
    var p := UnsignedAt(payload, 0, 0);
    if !p.Good? then None
    else
      var d := ObjectAt(payload, p.next, 1);
      if !d.Good? || !IsDevice(d.value) then None
      else
        var t := UnsignedAt(payload, d.next, 2);
        if !t.Good? then None
        else
          var start := ExpectOpening(payload, t.next, 3);
          if start.None? then None
          else
            var objects := CovObjectsAt(payload, start.value);
            if !objects.Good? || objects.next != |payload| then None
            else Some(Multiple(p.value, d.value, t.value, objects.value))
  }

  method DecodeMultiple(payload: seq<byte>) returns (r: Option<Multiple>)
    ensures r == MultipleOf(payload)
  {
    hide UnsignedAt, ObjectAt, ExpectOpening, ClosingAt, CovListAt, IsDevice;
    var p := UnsignedAt(payload, 0, 0);
    if !p.Good? {
      return None;
    }
    var d := ObjectAt(payload, p.next, 1);
    if !d.Good? || !IsDevice(d.value) {
      return None;
    }
    var t := UnsignedAt(payload, d.next, 2);
    if !t.Good? {
      return None;
    }
    var start := ExpectOpening(payload, t.next, 3);
    if start.None? {
      return None;
    }
    var cursor := start.value;
    var objects: seq<CovObject> := [];
    var iterations := 0;
    ghost var whole := CovObjectsAt(payload, cursor);
    PrefixedAgain([], CovObject(0, []), whole);
    while true
      invariant start.value <= cursor <= |payload| && iterations <= cursor - start.value
      invariant whole == Prefixed(objects, CovObjectsAt(payload, cursor))
      decreases |payload| - cursor
    {
      iterations := iterations + 1;
      if iterations > |payload| + 1 {
        assert false;
        return None;
      }
      if ClosingAt(payload, cursor, 3) {
        assert objects + [] == objects;
        cursor := cursor + 1;
        break;
      }
      var o := ObjectAt(payload, cursor, 0);
      if !o.Good? {
        return None;
      }
      var values := DecodeCovPropertyValueList(payload, o.next, 1);
      if !values.Good? {
        return None;
      }
      PrefixedAgain(objects, CovObject(o.value, values.value), CovObjectsAt(payload, values.next));
      objects := objects + [CovObject(o.value, values.value)];
      cursor := values.next;
    }
    if cursor != |payload| {
      return None;
    }
    r := Some(Multiple(p.value, d.value, t.value, objects));
  }

  function CovObjectBytes(o: CovObject): seq<byte> {
    ObjectField(0, o.id) + CovListBytes(o.values, 1)
  }

  function CovObjectsBytes(os: seq<CovObject>): seq<byte> {
    if os == [] then [] else CovObjectBytes(os[0]) + CovObjectsBytes(os[1..])
  }

  function MultipleBytes(m: Multiple): seq<byte> {
    UnsignedField(0, m.processID) + ObjectField(1, m.device) + UnsignedField(2, m.timeRemaining)
    + OpeningTag(3) + CovObjectsBytes(m.objects) + ClosingTag(3)
  }

  ghost predicate ObjectsProper(os: seq<CovObject>) {
    forall i :: 0 <= i < |os| ==> AllProper(os[i].values)
  }

  lemma ObjectIsNotClosing(payload: seq<byte>, offset: nat, number: byte, id: uint32, rest: seq<byte>, other: byte)
    requires offset <= |payload| && payload[offset..] == ObjectField(number, id) + rest
    ensures !ClosingAt(payload, offset, other)
  {
    hide ClosingAt, Put32;
    ContextIsNotClosing(payload, offset, number, Put32(id), rest, other);
  }

  lemma {:induction false} CovObjectsHere(payload: seq<byte>, offset: nat, os: seq<CovObject>)
    requires ObjectsProper(os) && offset <= |payload|
    requires payload[offset..] == CovObjectsBytes(os) + ClosingTag(3)
    ensures CovObjectsAt(payload, offset) == Good(os, |payload|)
    decreases |os|
  {
    hide ObjectAt, ObjectField, CovListAt, CovListBytes, AllProper, ClosingAt;
    if os == [] {
      assert payload[offset..] == ClosingTag(3) + [];
      ClosingHere(payload, offset, 3, []);
    } else {
      var o := os[0];
      assert AllProper(o.values);
      var tail := CovObjectsBytes(os[1..]) + ClosingTag(3);
      var listed := CovListBytes(o.values, 1) + tail;
      assert payload[offset..] == ObjectField(0, o.id) + listed;
      ObjectIsNotClosing(payload, offset, 0, o.id, listed, 3);
      ObjectHere(payload, offset, 0, o.id, listed);
      CovListHere(payload, offset + |ObjectField(0, o.id)|, o.values, 1, tail);
      CovObjectsHere(payload, offset + |ObjectField(0, o.id)| + |CovListBytes(o.values, 1)|, os[1..]);
      assert [o] + os[1..] == os;
    }
  }

  /** A notification about any number of objects comes back as it was. */
  lemma MultipleRoundTrip(m: Multiple)
    requires ObjectsProper(m.objects) && IsDevice(m.device)
    ensures MultipleOf(MultipleBytes(m)) == Some(m)
  {
    hide UnsignedAt, ObjectAt, ExpectOpening, CovObjectsAt, UnsignedField, ObjectField, CovObjectsBytes, ObjectsProper,
         IsDevice;
    var payload := MultipleBytes(m);
    var inner := CovObjectsBytes(m.objects) + ClosingTag(3);
    var opening := OpeningTag(3) + inner;
    var timed := UnsignedField(2, m.timeRemaining) + opening;
    var deviced := ObjectField(1, m.device) + timed;
    assert payload[0..] == UnsignedField(0, m.processID) + deviced;
    UnsignedHere(payload, 0, 0, m.processID, deviced);
    var o1 := |UnsignedField(0, m.processID)|;
    ObjectHere(payload, o1, 1, m.device, timed);
    var o2 := o1 + |ObjectField(1, m.device)|;
    UnsignedHere(payload, o2, 2, m.timeRemaining, opening);
    var o3 := o2 + |UnsignedField(2, m.timeRemaining)|;
    OpeningHere(payload, o3, 3, inner);
    CovObjectsHere(payload, o3 + |OpeningTag(3)|, m.objects);
  }

  // --- ReadProperty-ACK ---

  datatype PropertyAck = PropertyAck(id: uint32, property: uint32, index: Option<uint32>, content: seq<byte>)

  /** The value is the body between the tags numbered 3, and nothing may follow it. */
  function PropertyAckOf(payload: seq<byte>): Option<PropertyAck> {
    var o := ObjectAt(payload, 0, 0);
    if !o.Good? then None
    else
      var p := UnsignedAt(payload, o.next, 1);
      if !p.Good? || p.next == |payload| then None
      else
        var i := OptionalAt(payload, p.next, 2);
        if !i.Good? then None
        else
          var b := TaggedBodyAt(payload, i.next, 3);
          if b.None? || b.value.next != |payload| then None
          else Some(PropertyAck(o.value, p.value, i.value, b.value.value))
  }

  /** This decoder has a tag stack of its own; it finds the same bodies. */
  method DecodeReadPropertyAck(payload: seq<byte>) returns (r: Option<PropertyAck>)
    ensures r == PropertyAckOf(payload)
  {
    hide ObjectAt, UnsignedAt, OptionalAt, ParseTag, Scan;
    var o := ObjectAt(payload, 0, 0);
    if !o.Good? {
      return None;
    }
    var p := UnsignedAt(payload, o.next, 1);
    if !p.Good? || p.next >= |payload| {
      return None;
    }
    var i := OptionalAt(payload, p.next, 2);
    if !i.Good? || i.next >= |payload| {
      return None;
    }
    var h := ParseTag(payload[i.next..]);
    if h.None? || h.value.tag.number != 3 || !h.value.tag.opening {
      return None;
    }
    var cursor := i.next + h.value.header;
    var valueStart := cursor;
    var stack: seq<byte> := [3];
    ghost var found := Scan(payload[valueStart..], [3]);
    while cursor < |payload|
      invariant valueStart <= cursor <= |payload| && stack != []
      invariant found == Shift(cursor - valueStart, Scan(payload[cursor..], stack))
      decreases |payload| - cursor
    {
      ScanTurns(payload, cursor, stack, cursor - valueStart);
      var t := ParseTag(payload[cursor..]);
      if t.None? {
        return None;
      }
      if t.value.tag.opening {
        stack := stack + [t.value.tag.number];
      } else if t.value.tag.closing {
        assert |stack| > 0;
        if stack[|stack| - 1] != t.value.tag.number {
          return None;
        }
        stack := stack[..|stack| - 1];
        if |stack| == 0 {
          assert payload[valueStart..][..cursor - valueStart] == payload[valueStart..cursor];
          if cursor + t.value.header != |payload| {
            return None;
          }
          return Some(PropertyAck(o.value, p.value, i.value, payload[valueStart..cursor]));
        }
      }
      cursor := cursor + TotalLength(t.value);
    }
    ScanOfNothing(payload, stack);
    r := None;
  }

  function PropertyAckBytes(a: PropertyAck): seq<byte> {
    ObjectField(0, a.id) + UnsignedField(1, a.property) + OptionalField(2, a.index)
    + (OpeningTag(3) + a.content + ClosingTag(3))
  }

  /** A property value, whatever is nested in it, comes back as it was. */
  lemma PropertyAckRoundTrip(a: PropertyAck)
    requires HasBody(a.content)
    ensures PropertyAckOf(PropertyAckBytes(a)) == Some(a)
  {
    hide ObjectAt, UnsignedAt, OptionalAt, ObjectField, UnsignedField, OptionalField, OpeningTag, ClosingTag,
         LooksLikeContext, HasBody, TaggedBodyAt;
    var payload := PropertyAckBytes(a);
    var content := OpeningTag(3) + a.content + ClosingTag(3);
    var indexed := OptionalField(2, a.index) + content;
    var named := UnsignedField(1, a.property) + indexed;
    assert payload[0..] == ObjectField(0, a.id) + named;
    ObjectHere(payload, 0, 0, a.id, named);
    var o1 := |ObjectField(0, a.id)|;
    UnsignedHere(payload, o1, 1, a.property, indexed);
    var o2 := o1 + |UnsignedField(1, a.property)|;
    FirstOctets(3, []);
    assert content[0] == OpeningTag(3)[0];
    OptionalHere(payload, o2, 2, a.index, content);
    var o3 := o2 + |OptionalField(2, a.index)|;
    assert content == content + [];
    WrappedBodyHere(payload, o3, 3, a.content, []);
  }
}
