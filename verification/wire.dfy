/** Octets, big-endian integers and the two wrappers shared by every module.
    Shifts and masks of the original are written as division and remainder. */
module Wire {
  type byte = x: int | 0 <= x < 0x100
  type uint16 = x: int | 0 <= x < 0x1_0000
  type uint32 = x: int | 0 <= x < 0x1_0000_0000

  datatype Option<+T> = None | Some(value: T)

  datatype Result<+T, +E> = Ok(value: T) | Err(error: E)

  /** Eight-bit increment. */
  function Next(b: byte): byte {
    if b == 255 then 0 else b + 1
  }

  /** Bit test by weight: weight 8 is bit 3. */
  predicate Has(b: byte, weight: int)
    requires weight > 0
  {
    b / weight % 2 == 1
  }

  function Weight(on: bool, weight: nat): nat {
    if on then weight else 0
  }

  /** The bit of an octet that is split around it. */
  lemma BitOf(f: byte, high: nat, on: bool, weight: nat, low: nat)
    requires weight in {1, 2, 4, 8, 16, 32, 64, 128} && low < weight
    requires f == 2 * weight * high + Weight(on, weight) + low
    ensures Has(f, weight) == on
  {
    var q := 2 * high + Weight(on, 1);
    if weight == 1 {
      assert f == q && f / 1 == q;
    } else if weight == 2 || weight == 4 || weight == 8 {
      SmallQuotient(f, q, weight, low);
    } else {
      LargeQuotient(f, q, weight, low);
    }
  }

  lemma SmallQuotient(f: nat, q: nat, weight: nat, low: nat)
    requires weight in {2, 4, 8} && low < weight
    requires (weight == 2 ==> f == 2 * q + low) && (weight == 4 ==> f == 4 * q + low)
            && (weight == 8 ==> f == 8 * q + low)
    ensures f / weight == q
  {
  }

  lemma LargeQuotient(f: nat, q: nat, weight: nat, low: nat)
    requires weight in {16, 32, 64, 128} && low < weight
    requires (weight == 16 ==> f == 16 * q + low) && (weight == 32 ==> f == 32 * q + low)
    requires (weight == 64 ==> f == 64 * q + low) && (weight == 128 ==> f == 128 * q + low)
    ensures f / weight == q
  {
  }

  function Put16(x: uint16): (b: seq<byte>)
    ensures |b| == 2 && Get16(b) == x
  {
    [x / 0x100, x % 0x100]
  }

  function Get16(b: seq<byte>): uint16
    requires |b| >= 2
  {
    0x100 * (b[0] as int) + b[1]
  }

  function Put32(x: uint32): (b: seq<byte>)
    ensures |b| == 4 && Get32(b) == x
  {
    var b := Put16(x / 0x1_0000) + Put16(x % 0x1_0000);
    assert b[..2] == Put16(x / 0x1_0000) && b[2..] == Put16(x % 0x1_0000);
    b
  }

  function Get32(b: seq<byte>): uint32
    requires |b| >= 4
  {
    0x1_0000 * (Get16(b[..2]) as int) + Get16(b[2..])
  }

  function Concat<T>(parts: seq<seq<T>>): seq<T> {
    if parts == [] then [] else parts[0] + Concat(parts[1..])
  }

  lemma {:induction false} ConcatAppend<T>(a: seq<seq<T>>, b: seq<seq<T>>)
    ensures Concat(a + b) == Concat(a) + Concat(b)
  {
    if a == [] {
      assert a + b == b;
    } else {
      assert (a + b)[1..] == a[1..] + b;
      ConcatAppend(a[1..], b);
    }
  }

  lemma ConcatSnoc<T>(a: seq<seq<T>>, x: seq<T>)
    ensures Concat(a + [x]) == Concat(a) + x
  {
    ConcatAppend(a, [x]);
    assert Concat([x]) == x + Concat([]);
  }

  lemma TakeSnoc<T>(a: seq<T>, k: nat)
    requires k < |a|
    ensures a[..k + 1] == a[..k] + [a[k]]
  {
  }
}
