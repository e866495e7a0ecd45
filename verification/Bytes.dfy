/** Values shared by every component: octets, optional results and small sequence helpers. */
module Bytes {

  type Byte = b: int | 0 <= b < 256

  datatype Option<+T> = None | Some(value: T)

  /** The big-endian 16-bit value of two octets, `(hi << 8) | lo`. */
  function U16(hi: Byte, lo: Byte): (v: nat)
    ensures v < 0x1_0000
  {
    hi * 256 + lo
  }

  /** Bit k of an octet, counted from the least significant one. */
  predicate BitOf(b: Byte, k: nat)
    requires k < 8
  {
    match k
    case 0 => b % 2 == 1
    case 1 => b / 2 % 2 == 1
    case 2 => b / 4 % 2 == 1
    case 3 => b / 8 % 2 == 1
    case 4 => b / 16 % 2 == 1
    case 5 => b / 32 % 2 == 1
    case 6 => b / 64 % 2 == 1
    case 7 => b / 128 == 1
  }

  /** The octet with the given bits, most significant first. */
  function OctetValue(b7: bool, b6: bool, b5: bool, b4: bool, b3: bool, b2: bool, b1: bool, b0: bool): Byte {
    (if b7 then 128 else 0) + (if b6 then 64 else 0) + (if b5 then 32 else 0) + (if b4 then 16 else 0)
    + (if b3 then 8 else 0) + (if b2 then 4 else 0) + (if b1 then 2 else 0) + (if b0 then 1 else 0)
  }

  function BitValue(b: Byte, k: nat): nat
    requires k < 8
  {
    if BitOf(b, k) then 1 else 0
  }

  lemma Halves(b: Byte)
    ensures b == 2 * (b / 2) + BitValue(b, 0) && b / 2 == 2 * (b / 4) + BitValue(b, 1)
    ensures b / 4 == 2 * (b / 8) + BitValue(b, 2) && b / 8 == 2 * (b / 16) + BitValue(b, 3)
    ensures b / 16 == 2 * (b / 32) + BitValue(b, 4) && b / 32 == 2 * (b / 64) + BitValue(b, 5)
    ensures b / 64 == 2 * (b / 128) + BitValue(b, 6) && b / 128 == BitValue(b, 7)
  {
    assert b / 4 == b / 2 / 2 && b / 8 == b / 4 / 2 && b / 16 == b / 8 / 2;
    assert b / 32 == b / 16 / 2 && b / 64 == b / 32 / 2 && b / 128 == b / 64 / 2;
  }

  lemma ByteOfBits(a: Byte, b: Byte)
    requires forall k | 0 <= k < 8 :: BitOf(a, k) == BitOf(b, k)
    ensures a == b
  {
    forall k | 0 <= k < 8 ensures BitValue(a, k) == BitValue(b, k) {}
    hide *;
    Halves(a);
    Halves(b);
  }

  lemma OctetValueBits(b7: bool, b6: bool, b5: bool, b4: bool, b3: bool, b2: bool, b1: bool, b0: bool)
    ensures var v := OctetValue(b7, b6, b5, b4, b3, b2, b1, b0);
      && BitOf(v, 7) == b7 && BitOf(v, 6) == b6 && BitOf(v, 5) == b5 && BitOf(v, 4) == b4
      && BitOf(v, 3) == b3 && BitOf(v, 2) == b2 && BitOf(v, 1) == b1 && BitOf(v, 0) == b0
  {
    hide BitOf;
    var q := OctetValue(false, false, false, false, false, false, false, b7);
    var q6 := OctetValue(false, false, false, false, false, false, b7, b6);
    var q5 := OctetValue(false, false, false, false, false, b7, b6, b5);
    var q4 := OctetValue(false, false, false, false, b7, b6, b5, b4);
    var q3 := OctetValue(false, false, false, b7, b6, b5, b4, b3);
    var q2 := OctetValue(false, false, b7, b6, b5, b4, b3, b2);
    var q1 := OctetValue(false, b7, b6, b5, b4, b3, b2, b1);
    BitsOfDouble(q, 0, b7);
    BitsOfDouble(q6, q, b6);
    BitsOfDouble(q5, q6, b5);
    BitsOfDouble(q4, q5, b4);
    BitsOfDouble(q3, q4, b3);
    BitsOfDouble(q2, q3, b2);
    BitsOfDouble(q1, q2, b1);
    BitsOfDouble(OctetValue(b7, b6, b5, b4, b3, b2, b1, b0), q1, b0);
  }

  lemma BitsOfDouble(v: Byte, half: Byte, bit: bool)
    requires v == 2 * half + if bit then 1 else 0
    ensures BitOf(v, 0) == bit && BitOf(v, 1) == BitOf(half, 0) && BitOf(v, 2) == BitOf(half, 1)
    ensures BitOf(v, 3) == BitOf(half, 2) && BitOf(v, 4) == BitOf(half, 3) && BitOf(v, 5) == BitOf(half, 4)
    ensures BitOf(v, 6) == BitOf(half, 5) && BitOf(v, 7) == BitOf(half, 6)
  {
    assert v / 2 == half && half < 128;
    assert v / 4 == half / 2 && v / 8 == half / 4 && v / 16 == half / 8 && v / 32 == half / 16;
    assert v / 64 == half / 32 && v / 128 == half / 64;
  }

  /** The concatenation of a sequence of sequences. */
  function Flatten<T>(parts: seq<seq<T>>): seq<T> {
    if parts == [] then [] else parts[0] + Flatten(parts[1..])
  }

  lemma {:induction false} FlattenAppend<T>(a: seq<seq<T>>, b: seq<seq<T>>)
    ensures Flatten(a + b) == Flatten(a) + Flatten(b)
  {
    if a == [] {
      assert a + b == b;
    } else {
      assert (a + b)[1..] == a[1..] + b;
      FlattenAppend(a[1..], b);
    }
  }

  lemma FlattenSnoc<T>(a: seq<seq<T>>, x: seq<T>)
    ensures Flatten(a + [x]) == Flatten(a) + x
  {
    FlattenAppend(a, [x]);
    assert Flatten([x]) == x + Flatten([]);
  }
}
