/** The value octets of application primitives (sections 20.2.2 to 20.2.14 of ANSI/ASHRAE
    135-2024): shortest integers, bit strings, dates, times, object identifiers. */
module Primitives {
  import opened Wire

  type int32 = x: int | -0x8000_0000 <= x < 0x8000_0000

  // --- big-endian digits ---

  /** The n low octets of a number, most significant first; shifts of the original round down. */
  function Digits(v: int, n: nat): (s: seq<byte>)
    ensures |s| == n
    decreases n
  {
    if n == 0 then [] else Digits(v / 256, n - 1) + [v % 256]
  }

  /** Shift in octets behind a start value. */
  function ShiftIn(start: int, raw: seq<byte>): int {
    if raw == [] then start else 256 * ShiftIn(start, raw[..|raw| - 1]) + raw[|raw| - 1]
  }

  function Power(n: nat): (p: nat)
    ensures p > 0
  {
    if n == 0 then 1 else 256 * Power(n - 1)
  }

  lemma Powers()
    ensures Power(0) == 1 && Power(1) == 0x100 && Power(2) == 0x1_0000 && Power(3) == 0x100_0000
            && Power(4) == 0x1_0000_0000
  {
  }

  lemma {:induction false} DigitsShiftIn(s: int, v: int, n: nat)
    requires s in {-1, 0} && s * Power(n) <= v < (s + 1) * Power(n)
    ensures ShiftIn(s, Digits(v, n)) == v
    decreases n
  {
    if n > 0 {
      DigitsShiftIn(s, v / 256, n - 1);
      var d := Digits(v, n);
      assert d[..|d| - 1] == Digits(v / 256, n - 1);
    }
  }

  lemma {:induction false} ShiftInDigits(s: int, raw: seq<byte>)
    ensures Digits(ShiftIn(s, raw), |raw|) == raw
  {
    if raw != [] {
      var front := raw[..|raw| - 1];
      ShiftInDigits(s, front);
      assert ShiftIn(s, raw) / 256 == ShiftIn(s, front);
    }
  }

  lemma {:induction false} ShiftInBound(s: int, raw: seq<byte>)
    requires s in {-1, 0}
    ensures s * Power(|raw|) <= ShiftIn(s, raw) < (s + 1) * Power(|raw|)
  {
    if raw != [] {
      ShiftInBound(s, raw[..|raw| - 1]);
    }
  }

  // --- unsigned integers ---

  function UnsignedWidth(v: uint32): (n: nat)
    ensures 1 <= n <= 4
  {
    if v <= 0xFF then 1 else if v <= 0xFFFF then 2 else if v <= 0xFF_FFFF then 3 else 4
  }

  function EncodeUnsigned(v: uint32): (s: seq<byte>)
    ensures 1 <= |s| <= 4
  {
    Digits(v, UnsignedWidth(v))
  }

  lemma ShortFits(raw: seq<byte>)
    requires |raw| <= 4
    ensures 0 <= ShiftIn(0, raw) < 0x1_0000_0000
  {
    ShiftInBound(0, raw);
    Powers();
  }

  function UnsignedOf(raw: seq<byte>): (v: Option<uint32>)
    ensures v.Some? <==> 1 <= |raw| <= 4
  {
    if |raw| == 0 || |raw| > 4 then None
    else
      ShortFits(raw);
      Some(ShiftIn(0, raw))
  }

  method DecodeUnsigned(raw: seq<byte>) returns (v: Option<uint32>)
    ensures v == UnsignedOf(raw)
  {
    if |raw| == 0 || |raw| > 4 {
      return None;
    }
    var out: uint32 := 0;
    for i := 0 to |raw|
      invariant out == ShiftIn(0, raw[..i])
    {
      assert raw[..i + 1][..i] == raw[..i];
      ShortFits(raw[..i + 1]);
      out := 256 * (out as int) + raw[i];
    }
    assert raw[..|raw|] == raw;
    v := Some(out);
  }

  lemma UnsignedRoundTrip(v: uint32)
    ensures UnsignedOf(EncodeUnsigned(v)) == Some(v)
  {
    Powers();
    DigitsShiftIn(0, v, UnsignedWidth(v));
  }

  /** No octet string that decodes to the value is shorter than its encoding, and none of the
      same length is different. */
  lemma UnsignedIsShortest(v: uint32, raw: seq<byte>)
    requires UnsignedOf(raw) == Some(v)
    ensures |raw| >= |EncodeUnsigned(v)|
    ensures |raw| == |EncodeUnsigned(v)| ==> raw == EncodeUnsigned(v)
  {
    Powers();
    ShiftInBound(0, raw);
    ShiftInDigits(0, raw);
    hide Digits, ShiftIn;
    assert |raw| == 1 || |raw| == 2 || |raw| == 3 || |raw| == 4;
  }

  // --- signed integers ---

  function SignedWidth(v: int32): (n: nat)
    ensures 1 <= n <= 4
  {
    if -0x80 <= v <= 0x7F then 1
    else if -0x8000 <= v <= 0x7FFF then 2
    else if -0x80_0000 <= v <= 0x7F_FFFF then 3
    else 4
  }

  function EncodeSigned(v: int32): (s: seq<byte>)
    ensures 1 <= |s| <= 4
  {
    Digits(v, SignedWidth(v))
  }

  /** Sign extension starts from all ones when the first octet has its top bit set. */
  function SignOf(raw: seq<byte>): int
    requires raw != []
  {
    if raw[0] >= 128 then -1 else 0
  }

  /** The range of n octets in two's complement. */
  lemma {:induction false} SignedBound(raw: seq<byte>)
    requires raw != []
    ensures -128 * Power(|raw| - 1) <= ShiftIn(SignOf(raw), raw) < 128 * Power(|raw| - 1)
    ensures ShiftIn(SignOf(raw), raw) < 0 <==> raw[0] >= 128
  {
    if |raw| > 1 {
      SignedBound(raw[..|raw| - 1]);
    } else {
      assert ShiftIn(SignOf(raw), raw[..0]) == SignOf(raw);
    }
  }

  lemma {:induction false} DigitsSign(v: int, n: nat)
    requires n >= 1 && -128 * Power(n - 1) <= v < 128 * Power(n - 1)
    ensures SignOf(Digits(v, n)) == if v < 0 then -1 else 0
    decreases n
  {
    if n > 1 {
      DigitsSign(v / 256, n - 1);
      assert Digits(v, n)[0] == Digits(v / 256, n - 1)[0];
    } else {
      assert Digits(v, 1) == [v % 256];
    }
  }

  /** Up to four octets never leave the 32-bit range, so no step of the shifting overflows. */
  lemma PrefixFits(raw: seq<byte>, k: nat)
    requires 1 <= |raw| <= 4 && k <= |raw|
    ensures -0x8000_0000 <= ShiftIn(SignOf(raw), raw[..k]) < 0x8000_0000
  {
    Powers();
    if k == 0 {
      assert raw[..k] == [];
    } else {
      assert SignOf(raw[..k]) == SignOf(raw);
      SignedBound(raw[..k]);
      hide ShiftIn;
    }
  }

  function SignedOf(raw: seq<byte>): (v: Option<int32>)
    ensures v.Some? <==> 1 <= |raw| <= 4
  {
    if |raw| == 0 || |raw| > 4 then None
    else
      PrefixFits(raw, |raw|);
      assert raw[..|raw|] == raw;
      Some(ShiftIn(SignOf(raw), raw))
  }

  method DecodeSigned(raw: seq<byte>) returns (v: Option<int32>)
    ensures v == SignedOf(raw)
  {
    if |raw| == 0 || |raw| > 4 {
      return None;
    }
    var out: int32 := 0;
    if raw[0] >= 128 {
      out := -1;
    }
    for i := 0 to |raw|
      invariant out == ShiftIn(SignOf(raw), raw[..i])
    {
      assert raw[..i + 1][..i] == raw[..i];
      PrefixFits(raw, i + 1);
      out := 256 * (out as int) + raw[i];
    }
    assert raw[..|raw|] == raw;
    v := Some(out);
  }

  lemma SignedRoundTrip(v: int32)
    ensures SignedOf(EncodeSigned(v)) == Some(v)
  {
    Powers();
    var n := SignedWidth(v);
    DigitsSign(v, n);
    DigitsShiftIn(if v < 0 then -1 else 0, v, n);
    hide Digits, ShiftIn;
  }

  lemma SignedIsShortest(v: int32, raw: seq<byte>)
    requires SignedOf(raw) == Some(v)
    ensures |raw| >= |EncodeSigned(v)|
    ensures |raw| == |EncodeSigned(v)| ==> raw == EncodeSigned(v)
  {
    Powers();
    SignedBound(raw);
    ShiftInDigits(SignOf(raw), raw);
    hide Digits, ShiftIn;
    assert |raw| == 1 || |raw| == 2 || |raw| == 3 || |raw| == 4;
  }

  // --- bit strings ---

  /** The weight of bit k of an octet, counted from the most significant. */
  function Mask(k: nat): (m: nat)
    requires k < 8
    ensures m in {1, 2, 4, 8, 16, 32, 64, 128}
  {
    if k == 0 then 128 else if k == 1 then 64 else if k == 2 then 32 else if k == 3 then 16
    else if k == 4 then 8 else if k == 5 then 4 else if k == 6 then 2 else 1
  }

  /** Bit i, or zero beyond the end. */
  predicate Bit(bits: seq<bool>, i: nat) {
    i < |bits| && bits[i]
  }

  /** The j-th octet of the packed bits. */
  function Octet(bits: seq<bool>, j: nat): byte {
    Weight(Bit(bits, 8 * j), 128) + Weight(Bit(bits, 8 * j + 1), 64) + Weight(Bit(bits, 8 * j + 2), 32)
    + Weight(Bit(bits, 8 * j + 3), 16) + Weight(Bit(bits, 8 * j + 4), 8) + Weight(Bit(bits, 8 * j + 5), 4)
    + Weight(Bit(bits, 8 * j + 6), 2) + Weight(Bit(bits, 8 * j + 7), 1)
  }

  function OctetCount(n: nat): nat {
    (n + 7) / 8
  }

  /** The octets j, j + 1, ... up to count. */
  function PackFrom(bits: seq<bool>, j: nat, count: nat): (s: seq<byte>)
    requires j <= count
    ensures |s| == count - j
    ensures forall k :: 0 <= k < |s| ==> s[k] == Octet(bits, j + k)
    decreases count - j
  {
    if j == count then [] else [Octet(bits, j)] + PackFrom(bits, j + 1, count)
  }

  /** The count of unused bits, then the bits, most significant first. */
  function BitStringBytes(bits: seq<bool>): seq<byte> {
    [OctetCount(|bits|) * 8 - |bits|] + PackFrom(bits, 0, OctetCount(|bits|))
  }

  predicate BitAt(data: seq<byte>, i: nat)
    requires i < 8 * |data|
  {
    Has(data[i / 8], Mask(i % 8))
  }

  function UnpackFrom(data: seq<byte>, i: nat, total: nat): (s: seq<bool>)
    requires i <= total <= 8 * |data|
    ensures |s| == total - i
    ensures forall k :: 0 <= k < |s| ==> s[k] == BitAt(data, i + k)
    decreases total - i
  {
    if i == total then [] else [BitAt(data, i)] + UnpackFrom(data, i + 1, total)
  }

  function BitStringOf(raw: seq<byte>): Option<seq<bool>> {
    if |raw| == 0 then None
    else if raw[0] > 7 then None
    else if (|raw| - 1) * 8 - raw[0] < 0 then None
    else Some(UnpackFrom(raw[1..], 0, (|raw| - 1) * 8 - raw[0]))
  }

  lemma UpperBits(bits: seq<bool>, j: nat)
    ensures Has(Octet(bits, j), 128) == Bit(bits, 8 * j) && Has(Octet(bits, j), 64) == Bit(bits, 8 * j + 1)
    ensures Has(Octet(bits, j), 32) == Bit(bits, 8 * j + 2) && Has(Octet(bits, j), 16) == Bit(bits, 8 * j + 3)
  {
    hide Has, Bit;
    var b, f := 8 * j, Octet(bits, j);
    var w0, w1 := Weight(Bit(bits, b), 1), Weight(Bit(bits, b + 1), 1);
    var w2, w3 := Weight(Bit(bits, b + 2), 1), Weight(Bit(bits, b + 3), 1);
    var low := Weight(Bit(bits, b + 4), 8) + Weight(Bit(bits, b + 5), 4)
               + Weight(Bit(bits, b + 6), 2) + Weight(Bit(bits, b + 7), 1);
    BitOf(f, 0, Bit(bits, b), 128, 64 * w1 + 32 * w2 + 16 * w3 + low);
    BitOf(f, w0, Bit(bits, b + 1), 64, 32 * w2 + 16 * w3 + low);
    BitOf(f, 2 * w0 + w1, Bit(bits, b + 2), 32, 16 * w3 + low);
    BitOf(f, 4 * w0 + 2 * w1 + w2, Bit(bits, b + 3), 16, low);
  }

  lemma LowerBits(bits: seq<bool>, j: nat)
    ensures Has(Octet(bits, j), 8) == Bit(bits, 8 * j + 4) && Has(Octet(bits, j), 4) == Bit(bits, 8 * j + 5)
    ensures Has(Octet(bits, j), 2) == Bit(bits, 8 * j + 6) && Has(Octet(bits, j), 1) == Bit(bits, 8 * j + 7)
  {
    hide Has, Bit;
    var b, f := 8 * j, Octet(bits, j);
    var high := 8 * Weight(Bit(bits, b), 1) + 4 * Weight(Bit(bits, b + 1), 1)
                + 2 * Weight(Bit(bits, b + 2), 1) + Weight(Bit(bits, b + 3), 1);
    LowBits(f, high, Bit(bits, b + 4), Bit(bits, b + 5), Bit(bits, b + 6), Bit(bits, b + 7));
  }

  lemma LowBits(f: byte, high: nat, b4: bool, b5: bool, b6: bool, b7: bool)
    requires f == 16 * high + Weight(b4, 8) + Weight(b5, 4) + Weight(b6, 2) + Weight(b7, 1)
    ensures Has(f, 8) == b4 && Has(f, 4) == b5 && Has(f, 2) == b6 && Has(f, 1) == b7
  {
    hide Has;
    var h5 := 2 * high + Weight(b4, 1);
    var h6 := 2 * h5 + Weight(b5, 1);
    var h7 := 2 * h6 + Weight(b6, 1);
    BitOf(f, h7, b7, 1, 0);
    BitOf(f, h6, b6, 2, Weight(b7, 1));
    BitOf(f, h5, b5, 4, Weight(b6, 2) + Weight(b7, 1));
    BitOf(f, high, b4, 8, Weight(b5, 4) + Weight(b6, 2) + Weight(b7, 1));
  }

  lemma OctetBit(bits: seq<bool>, i: nat)
    ensures Has(Octet(bits, i / 8), Mask(i % 8)) == Bit(bits, i)
  {
    hide Has, Bit, Octet;
    UpperBits(bits, i / 8);
    LowerBits(bits, i / 8);
    assert 8 * (i / 8) + i % 8 == i;
  }

  /** Bit strings of any length survive, the empty one included. */
  lemma BitStringRoundTrip(bits: seq<bool>)
    ensures BitStringOf(BitStringBytes(bits)) == Some(bits)
  {
    hide Has, Octet;
    var n := |bits|;
    var count := OctetCount(n);
    var data := PackFrom(bits, 0, count);
    assert BitStringBytes(bits)[1..] == data;
    var out := UnpackFrom(data, 0, n);
    forall i | 0 <= i < n
      ensures out[i] == bits[i]
    {
      OctetBit(bits, i);
      assert data[i / 8] == Octet(bits, i / 8);
    }
    assert out == bits;
  }

  /** One more bit sets its mask in its own octet, where it was still clear. */
  lemma OctetGrows(bits: seq<bool>, i: nat, j: nat)
    requires i < |bits|
    ensures Octet(bits[..i + 1], j) == Octet(bits[..i], j) + (if j == i / 8 then Weight(bits[i], Mask(i % 8)) else 0)
  {
    forall k: nat
      ensures Bit(bits[..i + 1], k) == if k == i then bits[i] else Bit(bits[..i], k)
    {
    }
    assert !Bit(bits[..i], i);
    assert 8 * (i / 8) + i % 8 == i;
    hide Bit;
  }

  /** The octets of the first i bits. */
  predicate Packed(data: seq<byte>, bits: seq<bool>, i: nat)
    requires i <= |bits|
  {
    forall j :: 0 <= j < |data| ==> data[j] == Octet(bits[..i], j)
  }

  /** Setting a bit is adding its mask, as it is still clear. */
  function WithBit(data: seq<byte>, bits: seq<bool>, i: nat): (d: seq<byte>)
    requires i < |bits| && i / 8 < |data| && Packed(data, bits, i)
    ensures |d| == |data| && Packed(d, bits, i + 1)
  {
    OctetsGrow(bits, i);
    hide Octet;
    if bits[i] then data[i / 8 := data[i / 8] + Mask(i % 8)] else data
  }

  lemma OctetsGrow(bits: seq<bool>, i: nat)
    requires i < |bits|
    ensures forall j: nat ::
              Octet(bits[..i + 1], j) == Octet(bits[..i], j) + (if j == i / 8 then Weight(bits[i], Mask(i % 8)) else 0)
  {
    forall j: nat
      ensures Octet(bits[..i + 1], j) == Octet(bits[..i], j) + (if j == i / 8 then Weight(bits[i], Mask(i % 8)) else 0)
    {
      OctetGrows(bits, i, j);
    }
  }

  method SetBit(data: array<byte>, bits: seq<bool>, i: nat)
    requires i < |bits| && i / 8 < data.Length && Packed(data[..], bits, i)
    modifies data
    ensures Packed(data[..], bits, i + 1)
  {
    hide Octet, Bit, Weight, Mask, Packed;
    ghost var next := WithBit(data[..], bits, i);
    if bits[i] {
      assert next[i / 8] == data[i / 8] + Mask(i % 8);
      data[i / 8] := data[i / 8] + Mask(i % 8);
    }
    assert data[..] == next;
  }

  /** Fill the buffer bit by bit. */
  method EncodeBitString(bits: seq<bool>) returns (out: seq<byte>)
    ensures out == BitStringBytes(bits)
  {
    hide Octet, Packed;
    var n := |bits|;
    if n == 0 {
      return [0];
    }
    var numBytes := (n + 7) / 8;
    var unused := numBytes * 8 - n;
    var data := new byte[numBytes](_ => 0);
    NothingPacked(data[..], bits);
    for i := 0 to n
      invariant Packed(data[..], bits, i)
    {
      SetBit(data, bits, i);
    }
    AllPacked(data[..], bits);
    out := [unused] + data[..];
  }

  lemma AllPacked(data: seq<byte>, bits: seq<bool>)
    requires |data| == OctetCount(|bits|) && Packed(data, bits, |bits|)
    ensures data == PackFrom(bits, 0, |data|)
  {
    hide Octet;
    assert bits[..|bits|] == bits;
  }

  lemma NothingPacked(data: seq<byte>, bits: seq<bool>)
    requires forall j :: 0 <= j < |data| ==> data[j] == 0
    ensures Packed(data, bits, 0)
  {
  }

  method DecodeBitString(raw: seq<byte>) returns (r: Option<seq<bool>>)
    ensures r == BitStringOf(raw)
  {
    if |raw| == 0 {
      return None;
    }
    var unused: int := raw[0];
    var data := raw[1..];
    if unused > 7 {
      return None;
    }
    var total := |data| * 8 - unused;
    if total < 0 {
      return None;
    }
    var bits := new bool[total];
    for i := 0 to total
      invariant forall k :: 0 <= k < i ==> bits[k] == BitAt(data, k)
    {
      bits[i] := Has(data[i / 8], Mask(i % 8));
    }
    assert bits[..] == UnpackFrom(data, 0, total);
    r := Some(bits[..]);
  }

  // --- dates, times, object identifiers ---

  const UNSPECIFIED: byte := 255

  function EncodeDate(year: uint16, month: byte, day: byte, weekday: byte): Option<seq<byte>> {
    if year == UNSPECIFIED then Some([255, month, day, weekday])
    else if year < 1900 || year - 1900 > 254 then None
    else Some([year - 1900, month, day, weekday])
  }

  function YearOf(b: byte): uint16 {
    if b == 255 then UNSPECIFIED else 1900 + (b as int)
  }

  /** A year is encodable exactly when it is unspecified or between 1900 and 2154. */
  lemma DateRoundTrip(year: uint16, month: byte, day: byte, weekday: byte)
    ensures var e := EncodeDate(year, month, day, weekday);
            && (e.Some? <==> year == UNSPECIFIED || 1900 <= year <= 2154)
            && (e.Some? ==> |e.value| == 4 && YearOf(e.value[0]) == year && e.value[1..] == [month, day, weekday])
  {
  }
}
