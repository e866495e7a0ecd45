/** The CRC-32 of PSI sections: a table-driven loop that refines the bit-serial shift register of
    Annex A of ISO/IEC 13818-1. */
module Crc32 {
  import opened Bytes

  // ------------------------------------------------------------------------------------------
  // 32-bit words. The operations are named so that proofs can hide their bit patterns.
  // ------------------------------------------------------------------------------------------

  function Xor(a: bv32, b: bv32): bv32 {
    a ^ b
  }

  function Shl(w: bv32): bv32 {
    w << 1
  }

  predicate Msb(w: bv32) {
    w & 0x8000_0000 != 0
  }

  function Pattern(b7: bool, b6: bool, b5: bool, b4: bool, b3: bool, b2: bool, b1: bool, b0: bool): bv32 {
    (if b7 then 0x80 else 0) | (if b6 then 0x40 else 0) | (if b5 then 0x20 else 0) | (if b4 then 0x10 else 0)
    | (if b3 then 0x08 else 0) | (if b2 then 0x04 else 0) | (if b1 then 0x02 else 0) | (if b0 then 0x01 else 0)
  }

  /** An octet widened to 32 bits. */
  function Octet(b: Byte): bv32 {
    Pattern(BitOf(b, 7), BitOf(b, 6), BitOf(b, 5), BitOf(b, 4), BitOf(b, 3), BitOf(b, 2), BitOf(b, 1), BitOf(b, 0))
  }

  /** The big-endian 32-bit value of four octets. */
  function Word(b0: Byte, b1: Byte, b2: Byte, b3: Byte): bv32 {
    Place(b0, 3) | Place(b1, 2) | Place(b2, 1) | Place(b3, 0)
  }

  /** An octet moved left by whole octets. */
  function Place(b: Byte, k: nat): bv32
    requires k < 4
  {
    match k
    case 0 => Octet(b)
    case 1 => Octet(b) << 8
    case 2 => Octet(b) << 16
    case 3 => Octet(b) << 24
  }

  // ------------------------------------------------------------------------------------------
  // The specification: the shift register of Annex A
  // ------------------------------------------------------------------------------------------

  /** One clock of the register: the input bit and the bit leaving on the left decide whether
      the polynomial 0x04C11DB7 is added. */
  function ClockBit(c: bv32, bit: bool): bv32 {
    if Msb(c) != bit then Xor(Shl(c), 0x04C1_1DB7) else Shl(c)
  }

  /** The register after clocking in all the bits, first bit first. */
  function BitSerial(c: bv32, bits: seq<bool>): bv32
    decreases |bits|
  {
    if bits == [] then c else BitSerial(ClockBit(c, bits[0]), bits[1..])
  }

  /** The n most significant bits of a word, most significant first. */
  function TopBits(w: bv32, n: nat): (bits: seq<bool>)
    ensures |bits| == n
    decreases n
  {
    if n == 0 then [] else [Msb(w)] + TopBits(Shl(w), n - 1)
  }

  /** The eight bits of an octet, most significant first. */
  function Bits(b: Byte): (bits: seq<bool>)
    ensures |bits| == 8
  {
    TopBits(Place(b, 3), 8)
  }

  /** The bits of a string of octets in transmission order. */
  function AllBits(data: seq<Byte>): (bits: seq<bool>)
    ensures |bits| == 8 * |data|
  {
    if data == [] then [] else Bits(data[0]) + AllBits(data[1..])
  }

  /** The CRC of Annex A: the register starts with all ones. */
  function Crc(data: seq<Byte>): bv32 {
    BitSerial(0xFFFF_FFFF, AllBits(data))
  }

  lemma {:induction false} BitSerialAppend(c: bv32, a: seq<bool>, b: seq<bool>)
    ensures BitSerial(c, a + b) == BitSerial(BitSerial(c, a), b)
    decreases |a|
  {
    hide ClockBit;
    if a == [] {
      assert a + b == b;
    } else {
      assert (a + b)[1..] == a[1..] + b;
      BitSerialAppend(ClockBit(c, a[0]), a[1..], b);
    }
  }

  lemma {:induction false} AllBitsAppend(a: seq<Byte>, b: seq<Byte>)
    ensures AllBits(a + b) == AllBits(a) + AllBits(b)
  {
    hide Bits;
    if a == [] {
      assert a + b == b;
    } else {
      assert (a + b)[1..] == a[1..] + b;
      AllBitsAppend(a[1..], b);
      assert Bits(a[0]) + (AllBits(a[1..]) + AllBits(b)) == (Bits(a[0]) + AllBits(a[1..])) + AllBits(b);
    }
  }

  lemma CrcAppend(a: seq<Byte>, b: seq<Byte>)
    ensures Crc(a + b) == BitSerial(Crc(a), AllBits(b))
  {
    hide AllBits;
    hide BitSerial;
    AllBitsAppend(a, b);
    BitSerialAppend(0xFFFF_FFFF, AllBits(a), AllBits(b));
  }

  lemma CrcOfEmpty()
    ensures Crc([]) == 0xFFFF_FFFF
  {}

  lemma CrcSnoc(a: seq<Byte>, b: Byte)
    ensures Crc(a + [b]) == BitSerial(Crc(a), Bits(b))
  {
    hide Crc;
    hide BitSerial;
    hide Bits;
    CrcAppend(a, [b]);
    assert AllBits([b]) == Bits(b);
  }

  // ------------------------------------------------------------------------------------------
  // Algebra of words over GF(2)
  // ------------------------------------------------------------------------------------------

  lemma MsbXor(a: bv32, b: bv32)
    ensures Msb(Xor(a, b)) == (Msb(a) != Msb(b))
  {}

  lemma ShlXor(a: bv32, b: bv32)
    ensures Shl(Xor(a, b)) == Xor(Shl(a), Shl(b))
  {}

  lemma XorCommutes(a: bv32, b: bv32)
    ensures Xor(a, b) == Xor(b, a)
  {}

  lemma XorAssociates(a: bv32, b: bv32, c: bv32)
    ensures Xor(Xor(a, b), c) == Xor(a, Xor(b, c))
  {}

  lemma XorZero(a: bv32)
    ensures Xor(a, 0) == a
    ensures Xor(a, a) == 0
    ensures Shl(0) == 0 && !Msb(0)
  {}

  lemma XorEqual(a: bv32, b: bv32)
    ensures Xor(a, b) == 0 <==> a == b
  {
    if Xor(a, b) == 0 { XorCancels(a, b); }
  }

  lemma XorCancels(a: bv32, b: bv32)
    requires a ^ b == 0
    ensures a == b
  {}

  /** A clock without input. */
  function Shift(c: bv32): bv32 {
    ClockBit(c, false)
  }

  function ShiftN(c: bv32, n: nat): bv32
    decreases n
  {
    if n == 0 then c else ShiftN(Shift(c), n - 1)
  }

  /** The word shifted left n times, losing its top bits. */
  function Drop(w: bv32, n: nat): bv32
    decreases n
  {
    if n == 0 then w else Drop(Shl(w), n - 1)
  }

  lemma AbsorbStep(x: bv32, w: bv32)
    ensures Shift(Xor(x, w)) == Xor(ClockBit(x, Msb(w)), Shl(w))
  {
    hide Msb;
    hide Shl;
    hide Xor;
    MsbXor(x, w);
    ShlXor(x, w);
    XorAssociates(Shl(x), Shl(w), 0x04C1_1DB7);
    XorCommutes(Shl(w), 0x04C1_1DB7);
    XorAssociates(Shl(x), 0x04C1_1DB7, Shl(w));
  }

  lemma BitSerialTopBits(x: bv32, w: bv32, n: nat)
    requires n > 0
    ensures BitSerial(x, TopBits(w, n)) == BitSerial(ClockBit(x, Msb(w)), TopBits(Shl(w), n - 1))
  {
    hide Msb;
    hide Shl;
    hide ClockBit;
    var bits := TopBits(w, n);
    assert bits[1..] == TopBits(Shl(w), n - 1);
  }

  /** Adding a word to the register and then clocking n times is clocking in the word's n top
      bits one by one and then adding what is left of the word. */
  lemma {:induction false} Absorb(x: bv32, w: bv32, n: nat)
    ensures ShiftN(Xor(x, w), n) == Xor(BitSerial(x, TopBits(w, n)), Drop(w, n))
    decreases n
  {
    hide Msb;
    hide Shl;
    hide Xor;
    hide ClockBit;
    hide Shift;
    if n > 0 {
      AbsorbStep(x, w);
      Absorb(ClockBit(x, Msb(w)), Shl(w), n - 1);
      BitSerialTopBits(x, w, n);
    }
  }

  lemma {:induction false} DropAdd(w: bv32, m: nat, n: nat)
    ensures Drop(w, m + n) == Drop(Drop(w, m), n)
    decreases m
  {
    hide Shl;
    if m > 0 {
      DropAdd(Shl(w), m - 1, n);
    }
  }

  lemma DropSucc(w: bv32, n: nat)
    ensures Drop(w, n + 1) == Shl(Drop(w, n))
  {
    hide Shl;
    DropAdd(w, n, 1);
    assert Drop(Drop(w, n), 1) == Drop(Shl(Drop(w, n)), 0);
  }

  lemma ShiftSums(w: bv32)
    ensures Shl(w << 1) == w << 2 && Shl(w << 2) == w << 3 && Shl(w << 3) == w << 4 && Shl(w << 4) == w << 5
    ensures Shl(w << 5) == w << 6 && Shl(w << 6) == w << 7 && Shl(w << 7) == w << 8
  {}

  lemma DropConstant(w: bv32)
    ensures Drop(w, 0) == w && Drop(w, 1) == w << 1 && Drop(w, 2) == w << 2 && Drop(w, 3) == w << 3
    ensures Drop(w, 4) == w << 4 && Drop(w, 5) == w << 5 && Drop(w, 6) == w << 6 && Drop(w, 7) == w << 7
    ensures Drop(w, 8) == w << 8
  {
    DropZero(w);
    hide *;
    DropSucc(w, 0);
    DropSucc(w, 1);
    DropSucc(w, 2);
    DropSucc(w, 3);
    DropSucc(w, 4);
    DropSucc(w, 5);
    DropSucc(w, 6);
    DropSucc(w, 7);
    ShiftSums(w);
  }

  lemma DropZero(w: bv32)
    ensures Drop(w, 0) == w && Shl(w) == w << 1
  {}

  lemma PatternBits(b7: bool, b6: bool, b5: bool, b4: bool, b3: bool, b2: bool, b1: bool, b0: bool)
    ensures var p := Pattern(b7, b6, b5, b4, b3, b2, b1, b0);
      && (p & 0x80 != 0) == b7 && (p & 0x40 != 0) == b6 && (p & 0x20 != 0) == b5 && (p & 0x10 != 0) == b4
      && (p & 0x08 != 0) == b3 && (p & 0x04 != 0) == b2 && (p & 0x02 != 0) == b1 && (p & 0x01 != 0) == b0
      && p < 256
  {}

  lemma OctetBits(b: Byte)
    ensures Octet(b) < 256
    ensures (Octet(b) & 0x80 != 0) == BitOf(b, 7) && (Octet(b) & 0x40 != 0) == BitOf(b, 6)
    ensures (Octet(b) & 0x20 != 0) == BitOf(b, 5) && (Octet(b) & 0x10 != 0) == BitOf(b, 4)
    ensures (Octet(b) & 0x08 != 0) == BitOf(b, 3) && (Octet(b) & 0x04 != 0) == BitOf(b, 2)
    ensures (Octet(b) & 0x02 != 0) == BitOf(b, 1) && (Octet(b) & 0x01 != 0) == BitOf(b, 0)
  {
    hide BitOf;
    hide Pattern;
    PatternBits(BitOf(b, 7), BitOf(b, 6), BitOf(b, 5), BitOf(b, 4), BitOf(b, 3), BitOf(b, 2), BitOf(b, 1), BitOf(b, 0));
  }

  lemma OctetInjective(a: Byte, b: Byte)
    requires Octet(a) == Octet(b)
    ensures a == b
  {
    SameBits(a, b);
    ByteOfBits(a, b);
  }

  lemma SameBits(a: Byte, b: Byte)
    requires Octet(a) == Octet(b)
    ensures forall k | 0 <= k < 8 :: BitOf(a, k) == BitOf(b, k)
  {
    hide *;
    OctetBits(a);
    OctetBits(b);
  }

  /** The n most significant bits of the word are zero. */
  predicate TopClear(w: bv32, n: nat)
    decreases n
  {
    n == 0 || (!Msb(w) && TopClear(Shl(w), n - 1))
  }

  /** Clocking in zeros is clocking without input. */
  lemma {:induction false} NoInput(x: bv32, w: bv32, n: nat)
    requires TopClear(w, n)
    ensures BitSerial(x, TopBits(w, n)) == ShiftN(x, n)
    decreases n
  {
    hide Msb;
    hide Shl;
    hide ClockBit;
    if n > 0 {
      BitSerialTopBits(x, w, n);
      NoInput(Shift(x), Shl(w), n - 1);
    }
  }

  /** The largest word whose n top bits are zero. */
  function TopBound(n: nat): bv32
    requires n <= 8
  {
    [0xFFFF_FFFF, 0x7FFF_FFFF, 0x3FFF_FFFF, 0x1FFF_FFFF, 0x0FFF_FFFF,
     0x07FF_FFFF, 0x03FF_FFFF, 0x01FF_FFFF, 0x00FF_FFFF][n]
  }

  lemma {:induction false} BelowTop(w: bv32, n: nat, bound: bv32)
    requires n <= 8 && w <= bound == TopBound(n)
    ensures TopClear(w, n)
    decreases n
  {
    if n > 0 {
      BelowTopStep(w, bound);
      BelowTop(Shl(w), n - 1, (bound << 1) | 1);
    }
  }

  lemma BelowTopStep(w: bv32, bound: bv32)
    requires w <= bound <= 0x7FFF_FFFF
    ensures !Msb(w) && Shl(w) <= (bound << 1) | 1
  {}

  /** Eight clocks pass on unchanged, only shifted, what lies below the top octet. */
  lemma EightClocksBelowTop(x: bv32, low: bv32)
    requires low <= 0x00FF_FFFF
    ensures ShiftN(Xor(x, low), 8) == Xor(ShiftN(x, 8), low << 8)
  {
    TopBoundEight();
    hide *;
    BelowTop(low, 8, 0x00FF_FFFF);
    Absorb(x, low, 8);
    NoInput(x, low, 8);
    DropConstant(low);
  }

  lemma TopBoundEight()
    ensures TopBound(8) == 0x00FF_FFFF
  {}

  /** Clocking in an octet is adding it to the top of the register and clocking eight times. */
  lemma ClockOctet(c: bv32, b: Byte)
    ensures BitSerial(c, Bits(b)) == ShiftN(Xor(c, Place(b, 3)), 8)
  {
    hide Place;
    hide BitSerial;
    hide TopBits;
    hide ShiftN;
    hide Drop;
    hide Xor;
    hide Octet;
    Absorb(c, Place(b, 3), 8);
    DropConstant(Place(b, 3));
    ShiftedOut(b);
    XorZero(BitSerial(c, Bits(b)));
  }

  lemma ShiftedOut(b: Byte)
    ensures Place(b, 3) << 8 == 0
  {
    hide Octet;
  }

  lemma ShiftZero(x: bv32)
    requires Shift(x) == 0
    ensures x == 0
  {
    OddFeedback(x);
  }

  lemma OddFeedback(x: bv32)
    ensures Xor(Shl(x), 0x04C1_1DB7) != 0
    ensures Shl(x) == 0 && !Msb(x) ==> x == 0
  {
    assert ((x << 1) ^ 0x04C1_1DB7) & 1 == 1;
  }

  /** Clocking never reaches zero from a non-zero register: being linear, it is a bijection. */
  lemma {:induction false} ShiftNZero(x: bv32, n: nat)
    ensures ShiftN(x, n) == 0 <==> x == 0
    decreases n
  {
    hide ClockBit;
    if n > 0 {
      ShiftNZero(Shift(x), n - 1);
      if Shift(x) == 0 { ShiftZero(x); }
      ShiftOfZero();
    }
  }

  lemma ShiftOfZero()
    ensures Shift(0) == 0
  {}

  // ------------------------------------------------------------------------------------------
  // The table and the byte-wise loop
  // ------------------------------------------------------------------------------------------

  /** Rows of eight consecutive entries of the constant table. */
  function TableRow(row: nat): (entries: seq<bv32>)
    requires row < 32
    ensures |entries| == 8
  {
    match row
    case 0 => [0x0000_0000, 0x04c1_1db7, 0x0982_3b6e, 0x0d43_26d9,
                0x1304_76dc, 0x17c5_6b6b, 0x1a86_4db2, 0x1e47_5005]
    case 1 => [0x2608_edb8, 0x22c9_f00f, 0x2f8a_d6d6, 0x2b4b_cb61,
                0x350c_9b64, 0x31cd_86d3, 0x3c8e_a00a, 0x384f_bdbd]
    case 2 => [0x4c11_db70, 0x48d0_c6c7, 0x4593_e01e, 0x4152_fda9,
                0x5f15_adac, 0x5bd4_b01b, 0x5697_96c2, 0x5256_8b75]
    case 3 => [0x6a19_36c8, 0x6ed8_2b7f, 0x639b_0da6, 0x675a_1011,
                0x791d_4014, 0x7ddc_5da3, 0x709f_7b7a, 0x745e_66cd]
    case 4 => [0x9823_b6e0, 0x9ce2_ab57, 0x91a1_8d8e, 0x9560_9039,
                0x8b27_c03c, 0x8fe6_dd8b, 0x82a5_fb52, 0x8664_e6e5]
    case 5 => [0xbe2b_5b58, 0xbaea_46ef, 0xb7a9_6036, 0xb368_7d81,
                0xad2f_2d84, 0xa9ee_3033, 0xa4ad_16ea, 0xa06c_0b5d]
    case 6 => [0xd432_6d90, 0xd0f3_7027, 0xddb0_56fe, 0xd971_4b49,
                0xc736_1b4c, 0xc3f7_06fb, 0xceb4_2022, 0xca75_3d95]
    case 7 => [0xf23a_8028, 0xf6fb_9d9f, 0xfbb8_bb46, 0xff79_a6f1,
                0xe13e_f6f4, 0xe5ff_eb43, 0xe8bc_cd9a, 0xec7d_d02d]
    case 8 => [0x3486_7077, 0x3047_6dc0, 0x3d04_4b19, 0x39c5_56ae,
                0x2782_06ab, 0x2343_1b1c, 0x2e00_3dc5, 0x2ac1_2072]
    case 9 => [0x128e_9dcf, 0x164f_8078, 0x1b0c_a6a1, 0x1fcd_bb16,
                0x018a_eb13, 0x054b_f6a4, 0x0808_d07d, 0x0cc9_cdca]
    case 10 => [0x7897_ab07, 0x7c56_b6b0, 0x7115_9069, 0x75d4_8dde,
                0x6b93_dddb, 0x6f52_c06c, 0x6211_e6b5, 0x66d0_fb02]
    case 11 => [0x5e9f_46bf, 0x5a5e_5b08, 0x571d_7dd1, 0x53dc_6066,
                0x4d9b_3063, 0x495a_2dd4, 0x4419_0b0d, 0x40d8_16ba]
    case 12 => [0xaca5_c697, 0xa864_db20, 0xa527_fdf9, 0xa1e6_e04e,
                0xbfa1_b04b, 0xbb60_adfc, 0xb623_8b25, 0xb2e2_9692]
    case 13 => [0x8aad_2b2f, 0x8e6c_3698, 0x832f_1041, 0x87ee_0df6,
                0x99a9_5df3, 0x9d68_4044, 0x902b_669d, 0x94ea_7b2a]
    case 14 => [0xe0b4_1de7, 0xe475_0050, 0xe936_2689, 0xedf7_3b3e,
                0xf3b0_6b3b, 0xf771_768c, 0xfa32_5055, 0xfef3_4de2]
    case 15 => [0xc6bc_f05f, 0xc27d_ede8, 0xcf3e_cb31, 0xcbff_d686,
                0xd5b8_8683, 0xd179_9b34, 0xdc3a_bded, 0xd8fb_a05a]
    case 16 => [0x690c_e0ee, 0x6dcd_fd59, 0x608e_db80, 0x644f_c637,
                0x7a08_9632, 0x7ec9_8b85, 0x738a_ad5c, 0x774b_b0eb]
    case 17 => [0x4f04_0d56, 0x4bc5_10e1, 0x4686_3638, 0x4247_2b8f,
                0x5c00_7b8a, 0x58c1_663d, 0x5582_40e4, 0x5143_5d53]
    case 18 => [0x251d_3b9e, 0x21dc_2629, 0x2c9f_00f0, 0x285e_1d47,
                0x3619_4d42, 0x32d8_50f5, 0x3f9b_762c, 0x3b5a_6b9b]
    case 19 => [0x0315_d626, 0x07d4_cb91, 0x0a97_ed48, 0x0e56_f0ff,
                0x1011_a0fa, 0x14d0_bd4d, 0x1993_9b94, 0x1d52_8623]
    case 20 => [0xf12f_560e, 0xf5ee_4bb9, 0xf8ad_6d60, 0xfc6c_70d7,
                0xe22b_20d2, 0xe6ea_3d65, 0xeba9_1bbc, 0xef68_060b]
    case 21 => [0xd727_bbb6, 0xd3e6_a601, 0xdea5_80d8, 0xda64_9d6f,
                0xc423_cd6a, 0xc0e2_d0dd, 0xcda1_f604, 0xc960_ebb3]
    case 22 => [0xbd3e_8d7e, 0xb9ff_90c9, 0xb4bc_b610, 0xb07d_aba7,
                0xae3a_fba2, 0xaafb_e615, 0xa7b8_c0cc, 0xa379_dd7b]
    case 23 => [0x9b36_60c6, 0x9ff7_7d71, 0x92b4_5ba8, 0x9675_461f,
                0x8832_161a, 0x8cf3_0bad, 0x81b0_2d74, 0x8571_30c3]
    case 24 => [0x5d8a_9099, 0x594b_8d2e, 0x5408_abf7, 0x50c9_b640,
                0x4e8e_e645, 0x4a4f_fbf2, 0x470c_dd2b, 0x43cd_c09c]
    case 25 => [0x7b82_7d21, 0x7f43_6096, 0x7200_464f, 0x76c1_5bf8,
                0x6886_0bfd, 0x6c47_164a, 0x6104_3093, 0x65c5_2d24]
    case 26 => [0x119b_4be9, 0x155a_565e, 0x1819_7087, 0x1cd8_6d30,
                0x029f_3d35, 0x065e_2082, 0x0b1d_065b, 0x0fdc_1bec]
    case 27 => [0x3793_a651, 0x3352_bbe6, 0x3e11_9d3f, 0x3ad0_8088,
                0x2497_d08d, 0x2056_cd3a, 0x2d15_ebe3, 0x29d4_f654]
    case 28 => [0xc5a9_2679, 0xc168_3bce, 0xcc2b_1d17, 0xc8ea_00a0,
                0xd6ad_50a5, 0xd26c_4d12, 0xdf2f_6bcb, 0xdbee_767c]
    case 29 => [0xe3a1_cbc1, 0xe760_d676, 0xea23_f0af, 0xeee2_ed18,
                0xf0a5_bd1d, 0xf464_a0aa, 0xf927_8673, 0xfde6_9bc4]
    case 30 => [0x89b8_fd09, 0x8d79_e0be, 0x803a_c667, 0x84fb_dbd0,
                0x9abc_8bd5, 0x9e7d_9662, 0x933e_b0bb, 0x97ff_ad0c]
    case _ => [0xafb0_10b1, 0xab71_0d06, 0xa632_2bdf, 0xa2f3_3668,
                0xbcb4_666d, 0xb875_7bda, 0xb536_5d03, 0xb1f7_40b4]
  }

  function TableEntry(i: bv8): bv32 {
    TableRow((i >> 3) as int)[(i & 7) as int]
  }

  function EightShifts(c: bv32): bv32 {
    Shift(Shift(Shift(Shift(Shift(Shift(Shift(Shift(c))))))))
  }

  lemma TableRows0To3(i: bv8)
    requires i < 32
    ensures TableEntry(i) == EightShifts((i as bv32) << 24)
  {
    if i & 7 == 0 {} else if i & 7 == 1 {} else if i & 7 == 2 {} else if i & 7 == 3 {}
    else if i & 7 == 4 {} else if i & 7 == 5 {} else if i & 7 == 6 {}
  }

  lemma TableRows4To7(i: bv8)
    requires 32 <= i < 64
    ensures TableEntry(i) == EightShifts((i as bv32) << 24)
  {
    if i & 7 == 0 {} else if i & 7 == 1 {} else if i & 7 == 2 {} else if i & 7 == 3 {}
    else if i & 7 == 4 {} else if i & 7 == 5 {} else if i & 7 == 6 {}
  }

  lemma TableRows8To11(i: bv8)
    requires 64 <= i < 96
    ensures TableEntry(i) == EightShifts((i as bv32) << 24)
  {
    if i & 7 == 0 {} else if i & 7 == 1 {} else if i & 7 == 2 {} else if i & 7 == 3 {}
    else if i & 7 == 4 {} else if i & 7 == 5 {} else if i & 7 == 6 {}
  }

  lemma TableRows12To15(i: bv8)
    requires 96 <= i < 128
    ensures TableEntry(i) == EightShifts((i as bv32) << 24)
  {
    if i & 7 == 0 {} else if i & 7 == 1 {} else if i & 7 == 2 {} else if i & 7 == 3 {}
    else if i & 7 == 4 {} else if i & 7 == 5 {} else if i & 7 == 6 {}
  }

  lemma TableRows16To19(i: bv8)
    requires 128 <= i < 160
    ensures TableEntry(i) == EightShifts((i as bv32) << 24)
  {
    if i & 7 == 0 {} else if i & 7 == 1 {} else if i & 7 == 2 {} else if i & 7 == 3 {}
    else if i & 7 == 4 {} else if i & 7 == 5 {} else if i & 7 == 6 {}
  }

  lemma TableRows20To23(i: bv8)
    requires 160 <= i < 192
    ensures TableEntry(i) == EightShifts((i as bv32) << 24)
  {
    if i & 7 == 0 {} else if i & 7 == 1 {} else if i & 7 == 2 {} else if i & 7 == 3 {}
    else if i & 7 == 4 {} else if i & 7 == 5 {} else if i & 7 == 6 {}
  }

  lemma TableRows24To27(i: bv8)
    requires 192 <= i < 224
    ensures TableEntry(i) == EightShifts((i as bv32) << 24)
  {
    if i & 7 == 0 {} else if i & 7 == 1 {} else if i & 7 == 2 {} else if i & 7 == 3 {}
    else if i & 7 == 4 {} else if i & 7 == 5 {} else if i & 7 == 6 {}
  }

  lemma TableRows28To31(i: bv8)
    requires 224 <= i
    ensures TableEntry(i) == EightShifts((i as bv32) << 24)
  {
    if i & 7 == 0 {} else if i & 7 == 1 {} else if i & 7 == 2 {} else if i & 7 == 3 {}
    else if i & 7 == 4 {} else if i & 7 == 5 {} else if i & 7 == 6 {}
  }

  /** Each of the 256 entries is eight clocks of its index. */
  lemma TableIsEightShifts(i: bv8)
    ensures TableEntry(i) == EightShifts((i as bv32) << 24)
  {
    hide TableEntry;
    hide EightShifts;
    if i < 32 { TableRows0To3(i); }
    else if i < 64 { TableRows4To7(i); }
    else if i < 96 { TableRows8To11(i); }
    else if i < 128 { TableRows12To15(i); }
    else if i < 160 { TableRows16To19(i); }
    else if i < 192 { TableRows20To23(i); }
    else if i < 224 { TableRows24To27(i); }
    else { TableRows28To31(i); }
  }

  /** The low octet of a word, moved to the top. */
  function Top(w: bv32): bv32 {
    w << 24
  }

  /** All but the top octet. */
  function Low24(c: bv32): bv32 {
    c & 0x00FF_FFFF
  }

  function Mixed(c: bv32, p: bv32): bv32 {
    ((c >> 24) ^ p) & 0xFF
  }

  function IndexOf(c: bv32, p: bv32): bv8 {
    MixedBelow(c, p);
    Mixed(c, p) as bv8
  }

  lemma MixedBelow(c: bv32, p: bv32)
    ensures Mixed(c, p) < 256
  {}

  /** The top octet of the register combined with the next input octet. */
  function TableIndex(c: bv32, b: Byte): bv8 {
    IndexOf(c, Octet(b))
  }

  /** One round of the loop: `(crc << 8) ^ table[((crc >> 24) ^ b) & 0xFF]`. */
  function TableStep(c: bv32, b: Byte): bv32 {
    Xor(c << 8, TableEntry(TableIndex(c, b)))
  }

  lemma ShiftNEight(c: bv32)
    ensures ShiftN(c, 8) == EightShifts(c)
  {
    hide Shift;
    var d := Shift(Shift(c));
    assert ShiftN(c, 8) == ShiftN(d, 6);
    var e := Shift(Shift(d));
    assert ShiftN(d, 6) == ShiftN(e, 4);
    assert ShiftN(e, 4) == ShiftN(Shift(Shift(e)), 2);
  }

  lemma TopAndLow(c: bv32)
    ensures c == Xor(Top(c >> 24), Low24(c))
  {}

  lemma TopOfXor(a: bv32, b: bv32)
    ensures Top(Xor(a, b)) == Xor(Top(a), Top(b))
  {}

  lemma TopOfLow(w: bv32)
    ensures Top(w & 0xFF) == Top(w)
  {}

  lemma MixedIs(c: bv32, p: bv32)
    ensures Mixed(c, p) == Xor(c >> 24, p) & 0xFF
  {}

  lemma SplitBits(c: bv32, p: bv32)
    ensures Xor(c, Top(p)) == Xor(Top(Mixed(c, p)), Low24(c))
  {
    hide *;
    var t := c >> 24;
    TopAndLow(c);
    MixedIs(c, p);
    TopOfLow(Xor(t, p));
    TopOfXor(t, p);
    XorAssociates(Top(t), Low24(c), Top(p));
    XorCommutes(Low24(c), Top(p));
    XorAssociates(Top(t), Top(p), Low24(c));
  }

  lemma Widened(w: bv32)
    requires w < 256
    ensures (w as bv8) as bv32 == w
  {}

  lemma IndexWidened(c: bv32, p: bv32)
    ensures IndexOf(c, p) as bv32 == Mixed(c, p)
  {
    hide Mixed;
    MixedBelow(c, p);
    Widened(Mixed(c, p));
  }

  lemma SplitWord(c: bv32, p: bv32)
    ensures Xor(c, Top(p)) == Xor(Top(IndexOf(c, p) as bv32), Low24(c))
  {
    hide *;
    IndexWidened(c, p);
    SplitBits(c, p);
  }

  lemma SplitLow(c: bv32)
    ensures Low24(c) <= 0x00FF_FFFF && Low24(c) << 8 == c << 8
  {}

  lemma TableIndexIs(c: bv32, b: Byte)
    ensures TableIndex(c, b) == IndexOf(c, Octet(b))
  {
    hide Octet;
    hide IndexOf;
  }

  lemma SplitRegister(c: bv32, b: Byte)
    ensures Xor(c, Place(b, 3)) == Xor(Top(TableIndex(c, b) as bv32), Low24(c))
  {
    hide *;
    TableIndexIs(c, b);
    SplitWord(c, Octet(b));
    PlaceThree(b);
  }

  lemma PlaceThree(b: Byte)
    ensures Place(b, 3) == Top(Octet(b))
  {
    hide Octet;
  }

  lemma EntryShifts(i: bv8)
    ensures TableEntry(i) == EightShifts(Top(i as bv32))
  {
    hide TableEntry;
    hide EightShifts;
    TableIsEightShifts(i);
  }

  /** A round of the table-driven loop is eight clocks of the shift register. */
  lemma TableStepIsEightClocks(c: bv32, b: Byte)
    ensures TableStep(c, b) == BitSerial(c, Bits(b))
  {
    TableStepIs(c, b);
    hide *;
    var i := TableIndex(c, b);
    ClockOctet(c, b);
    SplitRegister(c, b);
    SplitLow(c);
    EightClocksBelowTop(Top(i as bv32), Low24(c));
    ShiftNEight(Top(i as bv32));
    EntryShifts(i);
  }

  lemma TableStepIs(c: bv32, b: Byte)
    ensures TableStep(c, b) == Xor(TableEntry(TableIndex(c, b)), c << 8)
  {
    hide Xor;
    hide TableEntry;
    hide TableIndex;
    XorCommutes(c << 8, TableEntry(TableIndex(c, b)));
  }

  /** The table-driven loop computes the CRC of Annex A. */
  method CalculateCRC32(data: seq<Byte>) returns (crc: bv32)
    ensures crc == Crc(data)
  {
    hide *;
    CrcOfEmpty();
    crc := 0xFFFF_FFFF;
    for i := 0 to |data|
      invariant crc == Crc(data[..i])
    {
      TableStepIsEightClocks(crc, data[i]);
      CrcSnoc(data[..i], data[i]);
      assert data[..i + 1] == data[..i] + [data[i]];
      crc := TableStep(crc, data[i]);
    }
    assert data[..|data|] == data;
  }

  // ------------------------------------------------------------------------------------------
  // Zero residue
  // ------------------------------------------------------------------------------------------

  lemma AllBitsFour(b: seq<Byte>)
    requires |b| == 4
    ensures AllBits(b) == Bits(b[0]) + (Bits(b[1]) + (Bits(b[2]) + Bits(b[3])))
  {
    hide Bits;
    assert b == [b[0]] + ([b[1]] + ([b[2]] + [b[3]]));
    AllBitsAppend([b[0]], [b[1]] + ([b[2]] + [b[3]]));
    AllBitsAppend([b[1]], [b[2]] + [b[3]]);
    AllBitsAppend([b[2]], [b[3]]);
    forall x: Byte ensures AllBits([x]) == Bits(x) { assert AllBits([x]) == Bits(x) + AllBits([]); }
  }

  lemma {:induction false} ShiftNAdd(x: bv32, m: nat, n: nat)
    ensures ShiftN(x, m + n) == ShiftN(ShiftN(x, m), n)
    decreases m
  {
    hide Shift;
    if m > 0 {
      ShiftNAdd(Shift(x), m - 1, n);
    }
  }

  lemma {:induction false} TopClearAdd(w: bv32, m: nat, n: nat)
    requires TopClear(w, m) && TopClear(Drop(w, m), n)
    ensures TopClear(w, m + n)
    decreases m
  {
    hide Msb;
    hide Shl;
    if m > 0 {
      TopClearAdd(Shl(w), m - 1, n);
    }
  }

  /** An octet clocked in after n clocks could have been added to the register before them,
      n bits further down. */
  lemma ClockOctetEarly(x: bv32, n: nat, low: bv32, b: Byte)
    requires TopClear(low, n) && Drop(low, n) == Place(b, 3)
    ensures BitSerial(ShiftN(x, n), Bits(b)) == ShiftN(Xor(x, low), n + 8)
  {
    hide *;
    ClockOctet(ShiftN(x, n), b);
    Absorb(x, low, n);
    NoInput(x, low, n);
    ShiftNAdd(Xor(x, low), n, 8);
  }

  lemma OctetShifts(p: bv32)
    requires p < 256
    ensures p <= 0x00FF_FFFF && p << 8 <= 0x00FF_FFFF && p << 16 <= 0x00FF_FFFF
    ensures (p << 8) << 8 == p << 16 && (p << 16) << 8 == p << 24
  {}

  /** Octets below the top of a word reach the top after as many clocks as they are below it. */
  lemma OctetDepthEight(b: Byte)
    ensures TopClear(Place(b, 2), 8) && Drop(Place(b, 2), 8) == Place(b, 3)
  {
    TopBoundEight();
    hide *;
    PlaceShifts(b);
    BelowTop(Place(b, 2), 8, 0x00FF_FFFF);
    DropConstant(Place(b, 2));
  }

  lemma OctetDepthSixteen(b: Byte)
    ensures TopClear(Place(b, 1), 16) && Drop(Place(b, 1), 16) == Place(b, 3)
  {
    TopBoundEight();
    hide *;
    PlaceShifts(b);
    BelowTop(Place(b, 1), 8, 0x00FF_FFFF);
    DropConstant(Place(b, 1));
    OctetDepthEight(b);
    TopClearAdd(Place(b, 1), 8, 8);
    DropAdd(Place(b, 1), 8, 8);
  }

  lemma OctetDepthTwentyFour(b: Byte)
    ensures TopClear(Place(b, 0), 24) && Drop(Place(b, 0), 24) == Place(b, 3)
  {
    TopBoundEight();
    hide *;
    PlaceShifts(b);
    BelowTop(Place(b, 0), 8, 0x00FF_FFFF);
    DropConstant(Place(b, 0));
    OctetDepthSixteen(b);
    TopClearAdd(Place(b, 0), 8, 16);
    DropAdd(Place(b, 0), 8, 16);
  }

  lemma PlaceShifts(b: Byte)
    ensures Place(b, 2) <= 0x00FF_FFFF && Place(b, 1) <= 0x00FF_FFFF && Place(b, 0) <= 0x00FF_FFFF
    ensures Place(b, 0) << 8 == Place(b, 1) && Place(b, 1) << 8 == Place(b, 2) && Place(b, 2) << 8 == Place(b, 3)
  {
    hide Octet;
    OctetBits(b);
    OctetShifts(Octet(b));
  }

  lemma JoinIsXor(w0: bv32, w1: bv32, w2: bv32, w3: bv32)
    requires w0 & 0x00FF_FFFF == 0 && w1 & 0xFF00_FFFF == 0 && w2 & 0xFFFF_00FF == 0 && w3 & 0xFFFF_FF00 == 0
    ensures w0 | w1 | w2 | w3 == Xor(Xor(w0, w1), Xor(w2, w3))
  {}

  lemma PlaceMasks(b: Byte)
    ensures Place(b, 3) & 0x00FF_FFFF == 0 && Place(b, 2) & 0xFF00_FFFF == 0
    ensures Place(b, 1) & 0xFFFF_00FF == 0 && Place(b, 0) & 0xFFFF_FF00 == 0
  {
    hide Octet;
    OctetBits(b);
  }

  lemma WordIsXor(b0: Byte, b1: Byte, b2: Byte, b3: Byte)
    ensures Word(b0, b1, b2, b3) == Xor(Xor(Place(b0, 3), Place(b1, 2)), Xor(Place(b2, 1), Place(b3, 0)))
  {
    hide Place;
    hide Xor;
    PlaceMasks(b0);
    PlaceMasks(b1);
    PlaceMasks(b2);
    PlaceMasks(b3);
    JoinIsXor(Place(b0, 3), Place(b1, 2), Place(b2, 1), Place(b3, 0));
  }

  lemma AddWord(c: bv32, b0: Byte, b1: Byte, b2: Byte, b3: Byte)
    ensures Xor(Xor(Xor(Xor(c, Place(b0, 3)), Place(b1, 2)), Place(b2, 1)), Place(b3, 0))
      == Xor(c, Word(b0, b1, b2, b3))
  {
    hide *;
    WordIsXor(b0, b1, b2, b3);
    XorAssociates(c, Place(b0, 3), Place(b1, 2));
    var upper := Xor(Place(b0, 3), Place(b1, 2));
    XorAssociates(Xor(c, upper), Place(b2, 1), Place(b3, 0));
    XorAssociates(c, upper, Xor(Place(b2, 1), Place(b3, 0)));
  }

  /** Clocking in four octets is adding their word and clocking 32 times. */
  lemma ClockWord(c: bv32, b: seq<Byte>)
    requires |b| == 4
    ensures BitSerial(c, AllBits(b)) == ShiftN(Xor(c, Word(b[0], b[1], b[2], b[3])), 32)
  {
    hide *;
    var x0 := Xor(c, Place(b[0], 3));
    var x1 := Xor(x0, Place(b[1], 2));
    var x2 := Xor(x1, Place(b[2], 1));
    ClockOctet(c, b[0]);
    OctetDepthEight(b[1]);
    ClockOctetEarly(x0, 8, Place(b[1], 2), b[1]);
    OctetDepthSixteen(b[2]);
    ClockOctetEarly(x1, 16, Place(b[2], 1), b[2]);
    OctetDepthTwentyFour(b[3]);
    ClockOctetEarly(x2, 24, Place(b[3], 0), b[3]);
    AddWord(c, b[0], b[1], b[2], b[3]);
    ClockFour(c, b);
  }

  lemma ClockFour(c: bv32, b: seq<Byte>)
    requires |b| == 4
    ensures BitSerial(c, AllBits(b))
      == BitSerial(BitSerial(BitSerial(BitSerial(c, Bits(b[0])), Bits(b[1])), Bits(b[2])), Bits(b[3]))
  {
    hide *;
    AllBitsFour(b);
    BitSerialAppend(c, Bits(b[0]), Bits(b[1]) + (Bits(b[2]) + Bits(b[3])));
    var c1 := BitSerial(c, Bits(b[0]));
    BitSerialAppend(c1, Bits(b[1]), Bits(b[2]) + Bits(b[3]));
    BitSerialAppend(BitSerial(c1, Bits(b[1])), Bits(b[2]), Bits(b[3]));
  }

  /** The last four octets as a big-endian word. */
  function Trailer(data: seq<Byte>): bv32
    requires |data| >= 4
  {
    var n := |data|;
    Word(data[n - 4], data[n - 3], data[n - 2], data[n - 1])
  }

  /** The CRC over a whole section, trailer included, is zero exactly when the trailer is the CRC
      of what precedes it. */
  lemma ZeroResidue(data: seq<Byte>)
    requires |data| >= 4
    ensures Crc(data) == 0 <==> Crc(data[..|data| - 4]) == Trailer(data)
  {
    hide *;
    var n := |data|;
    assert data[..n - 4] + data[n - 4..] == data;
    ResidueOfWord(data[..n - 4], data[n - 4..]);
    TrailerIs(data);
  }

  lemma ResidueOfWord(a: seq<Byte>, t: seq<Byte>)
    requires |t| == 4
    ensures Crc(a + t) == 0 <==> Crc(a) == Word(t[0], t[1], t[2], t[3])
  {
    hide *;
    CrcAppend(a, t);
    ClockWord(Crc(a), t);
    ShiftNZero(Xor(Crc(a), Word(t[0], t[1], t[2], t[3])), 32);
    XorEqual(Crc(a), Word(t[0], t[1], t[2], t[3]));
  }

  lemma TrailerIs(data: seq<Byte>)
    requires |data| >= 4
    ensures var t := data[|data| - 4..]; Trailer(data) == Word(t[0], t[1], t[2], t[3])
  {
    hide Word;
  }

  /** Accepts a section exactly when its whole residue is zero. */
  method VerifyCRC32(data: seq<Byte>) returns (ok: bool)
    ensures ok <==> |data| >= 4 && Crc(data) == 0
  {
    hide Crc;
    hide Word;
    if |data| < 4 {
      return false;
    }
    var n := |data|;
    var expectedCrc := Word(data[n - 4], data[n - 3], data[n - 2], data[n - 1]);
    var calculatedCrc := CalculateCRC32(data[..n - 4]);
    ZeroResidue(data);
    return calculatedCrc == expectedCrc;
  }

  // ------------------------------------------------------------------------------------------
  // Encoding a CRC
  // ------------------------------------------------------------------------------------------

  /** The least significant octet of a word. */
  function LowOctet(w: bv32): Byte {
    OctetValue(w & 0x80 != 0, w & 0x40 != 0, w & 0x20 != 0, w & 0x10 != 0,
               w & 0x08 != 0, w & 0x04 != 0, w & 0x02 != 0, w & 0x01 != 0)
  }

  lemma PatternOfBits(w: bv32)
    ensures Pattern(w & 0x80 != 0, w & 0x40 != 0, w & 0x20 != 0, w & 0x10 != 0,
                    w & 0x08 != 0, w & 0x04 != 0, w & 0x02 != 0, w & 0x01 != 0) == w & 0xFF
  {}

  lemma LowOctetRoundTrip(w: bv32)
    ensures Octet(LowOctet(w)) == w & 0xFF
  {
    hide BitOf;
    hide Pattern;
    hide OctetValue;
    OctetValueBits(w & 0x80 != 0, w & 0x40 != 0, w & 0x20 != 0, w & 0x10 != 0,
                   w & 0x08 != 0, w & 0x04 != 0, w & 0x02 != 0, w & 0x01 != 0);
    PatternOfBits(w);
  }

  /** The big-endian octets of a word. */
  function WordBytes(w: bv32): (b: seq<Byte>)
    ensures |b| == 4
  {
    [LowOctet(w >> 24), LowOctet(w >> 16), LowOctet(w >> 8), LowOctet(w)]
  }

  lemma WordParts(w: bv32)
    ensures (((w >> 24) & 0xFF) << 24) | (((w >> 16) & 0xFF) << 16) | (((w >> 8) & 0xFF) << 8) | (w & 0xFF) == w
  {}

  lemma WordBytesRoundTrip(w: bv32)
    ensures var b := WordBytes(w); Word(b[0], b[1], b[2], b[3]) == w
  {
    hide Octet;
    hide LowOctet;
    LowOctetRoundTrip(w >> 24);
    LowOctetRoundTrip(w >> 16);
    LowOctetRoundTrip(w >> 8);
    LowOctetRoundTrip(w);
    WordParts(w);
  }

  /** Appending the computed CRC always yields a section that verifies. */
  lemma AppendedCrcVerifies(data: seq<Byte>)
    ensures Crc(data + WordBytes(Crc(data))) == 0
    ensures Trailer(data + WordBytes(Crc(data))) == Crc(data)
  {
    TrailerIs(data + WordBytes(Crc(data)));
    hide *;
    var t := WordBytes(Crc(data));
    var s := data + t;
    WordBytesRoundTrip(Crc(data));
    ZeroResidue(s);
    assert s[..|s| - 4] == data && s[|s| - 4..] == t;
  }

  // ------------------------------------------------------------------------------------------
  // Burst detection
  // ------------------------------------------------------------------------------------------

  predicate Odd(w: bv32) {
    w & 1 != 0
  }

  lemma OddFacts(w: bv32)
    ensures !Odd(Shl(w)) && Odd(Xor(Shl(w), 0x04C1_1DB7)) && !Odd(0)
    ensures Shl(w) == 0 && !Msb(w) ==> w == 0
  {}

  /** The registers after a clock differ by the shifted difference before it, plus the polynomial
      if exactly one of them was fed back. */
  lemma ClockDifference(x: bv32, y: bv32, a: bool, b: bool)
    ensures Xor(ClockBit(x, a), ClockBit(y, b)) ==
      if (Msb(x) != a) == (Msb(y) != b) then Shl(Xor(x, y)) else Xor(Shl(Xor(x, y)), 0x04C1_1DB7)
  {
    hide Msb;
    hide Shl;
    hide Xor;
    ShlXor(x, y);
    XorPolynomial(Shl(x), Shl(y), 0x04C1_1DB7);
  }

  lemma XorPolynomial(a: bv32, b: bv32, p: bv32)
    ensures Xor(Xor(a, p), Xor(b, p)) == Xor(a, b)
    ensures Xor(Xor(a, p), b) == Xor(Xor(a, b), p)
    ensures Xor(a, Xor(b, p)) == Xor(Xor(a, b), p)
  {
    hide *;
    XorAssociates(a, b, p);
    XorCommutes(b, p);
    XorAssociates(a, p, b);
    XorAssociates(a, p, Xor(b, p));
    XorAssociates(p, b, p);
    XorCommutes(p, b);
    XorAssociates(b, p, p);
    XorZero(p);
    XorZero(b);
    XorCommutes(p, Xor(b, p));
  }

  lemma {:induction false} DropOfZero(n: nat)
    ensures Drop(0, n) == 0
  {
    if n > 0 {
      DropOfZero(n - 1);
    }
  }

  function OctetShift(w: bv32): bv32 {
    w << 8
  }

  lemma OddStays(w: bv32)
    requires Odd(w)
    ensures OctetShift(OctetShift(OctetShift(w))) << 7 != 0
  {}

  lemma DropOctet(w: bv32)
    ensures Drop(w, 8) == OctetShift(w) && Drop(w, 7) == w << 7
  {
    hide Drop;
    DropConstant(w);
  }

  /** Three octets and seven more bits shift all but the lowest bit out. */
  lemma Drop31(w: bv32)
    ensures Drop(w, 31) == OctetShift(OctetShift(OctetShift(w))) << 7
  {
    hide *;
    DropOctet(w);
    DropOctet(OctetShift(w));
    DropOctet(OctetShift(OctetShift(w)));
    DropOctet(OctetShift(OctetShift(OctetShift(w))));
    DropAdd(w, 8, 8);
    DropAdd(w, 16, 8);
    DropAdd(w, 24, 7);
  }

  /** An odd word is not shifted out in fewer than 32 steps. */
  lemma DropOdd(w: bv32, n: nat)
    requires n <= 31 && Odd(w)
    ensures Drop(w, n) != 0
  {
    hide *;
    OddStays(w);
    Drop31(w);
    DropAdd(w, n, 31 - n);
    DropOfZero(31 - n);
  }

  lemma BurstStep(x: bv32, y: bv32, a: bool, b: bool, n: nat)
    requires n <= 31 && Drop(Xor(ClockBit(x, a), ClockBit(y, b)), n) == 0
    ensures Drop(Xor(x, y), n + 1) == 0
    ensures x == y ==> a == b
  {
    DropSuccLeft(Xor(x, y), n);
    hide *;
    ClockDifference(x, y, a, b);
    OddFacts(Xor(x, y));
    if (Msb(x) != a) != (Msb(y) != b) {
      DropOdd(Xor(ClockBit(x, a), ClockBit(y, b)), n);
    }
  }

  lemma DropSuccLeft(w: bv32, n: nat)
    ensures Drop(w, n + 1) == Drop(Shl(w), n)
  {
    hide Shl;
  }

  /** If two strings of at most 32 bits lead to the same register, the registers they started
      from differ only in their leading bits; equal starts then force equal strings. */
  lemma {:induction false} BurstWindow(x: bv32, y: bv32, a: seq<bool>, b: seq<bool>)
    requires |a| == |b| <= 32
    requires BitSerial(x, a) == BitSerial(y, b)
    ensures Drop(Xor(x, y), |a|) == 0
    ensures x == y ==> a == b
    decreases |a|
  {
    BitSerialUnfold(x, a);
    BitSerialUnfold(y, b);
    DropZero(Xor(x, y));
    hide *;
    if a == [] {
      XorEqual(x, y);
    } else {
      BurstWindow(ClockBit(x, a[0]), ClockBit(y, b[0]), a[1..], b[1..]);
      BurstStep(x, y, a[0], b[0], |a| - 1);
      if x == y {
        assert a == [a[0]] + a[1..] && b == [b[0]] + b[1..];
      }
    }
  }

  lemma BitSerialUnfold(c: bv32, bits: seq<bool>)
    ensures BitSerial(c, bits) == if bits == [] then c else BitSerial(ClockBit(c, bits[0]), bits[1..])
  {
    hide ClockBit;
  }

  /** A clock is injective for each input bit. */
  lemma ClockBitInjective(x: bv32, y: bv32, bit: bool)
    requires ClockBit(x, bit) == ClockBit(y, bit)
    ensures x == y
  {
    hide *;
    XorZero(ClockBit(x, bit));
    ClockDifference(x, y, bit, bit);
    OddFacts(Xor(x, y));
    MsbXor(x, y);
    XorEqual(x, y);
  }

  /** Clocking the same bits through two registers never makes them meet. */
  lemma {:induction false} SameInputInjective(x: bv32, y: bv32, bits: seq<bool>)
    requires BitSerial(x, bits) == BitSerial(y, bits)
    ensures x == y
    decreases |bits|
  {
    hide ClockBit;
    if bits != [] {
      SameInputInjective(ClockBit(x, bits[0]), ClockBit(y, bits[0]), bits[1..]);
      ClockBitInjective(x, y, bits[0]);
    }
  }

  lemma PlaceInjective(a: Byte, b: Byte)
    requires Xor(0, Place(a, 3)) == Xor(0, Place(b, 3))
    ensures a == b
  {
    PlaceThree(a);
    PlaceThree(b);
    hide *;
    OctetBits(a);
    OctetBits(b);
    TopInjective(Octet(a), Octet(b));
    OctetInjective(a, b);
  }

  lemma TopInjective(p: bv32, q: bv32)
    requires p < 256 && q < 256 && Xor(0, Top(p)) == Xor(0, Top(q))
    ensures p == q
  {}

  lemma {:induction false} ShiftNInjective(x: bv32, y: bv32, n: nat)
    requires ShiftN(x, n) == ShiftN(y, n)
    ensures x == y
    decreases n
  {
    hide ClockBit;
    if n > 0 {
      ShiftNInjective(Shift(x), Shift(y), n - 1);
      ClockBitInjective(x, y, false);
    }
  }

  lemma BitsInjective(a: Byte, b: Byte)
    requires Bits(a) == Bits(b)
    ensures a == b
  {
    hide *;
    ClockOctet(0, a);
    ClockOctet(0, b);
    ShiftNInjective(Xor(0, Place(a, 3)), Xor(0, Place(b, 3)), 8);
    PlaceInjective(a, b);
  }

  lemma {:induction false} AllBitsInjective(a: seq<Byte>, b: seq<Byte>)
    requires |a| == |b| && AllBits(a) == AllBits(b)
    ensures a == b
  {
    hide Bits;
    if a != [] {
      assert Bits(a[0]) == AllBits(a)[..8] == AllBits(b)[..8] == Bits(b[0]);
      assert AllBits(a[1..]) == AllBits(a)[8..] == AllBits(b)[8..] == AllBits(b[1..]);
      BitsInjective(a[0], b[0]);
      AllBitsInjective(a[1..], b[1..]);
      assert a == [a[0]] + a[1..] && b == [b[0]] + b[1..];
    }
  }

  lemma CrcInThreeParts(head: seq<bool>, burst: seq<bool>, tail: seq<bool>)
    ensures BitSerial(0xFFFF_FFFF, head + (burst + tail))
      == BitSerial(BitSerial(BitSerial(0xFFFF_FFFF, head), burst), tail)
  {
    hide *;
    BitSerialAppend(0xFFFF_FFFF, head, burst + tail);
    BitSerialAppend(BitSerial(0xFFFF_FFFF, head), burst, tail);
  }

  lemma CrcIsBitSerial(a: seq<Byte>)
    ensures Crc(a) == BitSerial(0xFFFF_FFFF, AllBits(a))
  {
    hide BitSerial;
  }

  /** Two sections of equal length that both verify and agree outside some window of 32
      consecutive bits are the same section: every burst of up to 32 bits is detected. */
  lemma BurstDetected(a: seq<Byte>, b: seq<Byte>, from: nat)
    requires |a| == |b| && Crc(a) == Crc(b) == 0
    requires from + 32 <= 8 * |a|
    requires AllBits(a)[..from] == AllBits(b)[..from]
    requires AllBits(a)[from + 32..] == AllBits(b)[from + 32..]
    ensures a == b
  {
    hide *;
    var p, q := AllBits(a), AllBits(b);
    var head, tail := p[..from], p[from + 32..];
    var burstA, burstB := p[from..from + 32], q[from..from + 32];
    CrcIsBitSerial(a);
    CrcIsBitSerial(b);
    assert p == head + (burstA + tail);
    assert q == head + (burstB + tail);
    CrcInThreeParts(head, burstA, tail);
    CrcInThreeParts(head, burstB, tail);
    var c := BitSerial(0xFFFF_FFFF, head);
    SameInputInjective(BitSerial(c, burstA), BitSerial(c, burstB), tail);
    BurstWindow(c, c, burstA, burstB);
    AllBitsInjective(a, b);
  }
}
