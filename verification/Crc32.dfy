/**
  The table-driven CRC-32 of the workbook writer against the bit-serial
  reflected CRC-32, section 4.4.7 of the PKWARE APPNOTE and section 8 of RFC 1952.
  Source: frontend/src/utils/antennaTemplate.js, `crc32` and `CRC32_TABLE`
*/
module Crc32 {

  const POLYNOMIAL: bv32 := 0xEDB8_8320

  // ---------- The bit operations, by name

  function Xor(a: bv32, b: bv32): bv32 {
    a ^ b
  }

  function Half(x: bv32): bv32 {
    x >> 1
  }

  function LowBit(x: bv32): bv32 {
    x & 1
  }

  // ---------- The definition: one message bit at a time

  /** The register after one division step. */
  function Shift(crc: bv32): bv32 {
    if crc & 1 == 1 then POLYNOMIAL ^ (crc >> 1) else crc >> 1
  }

  /** The register after the lowest `k` bits of `bits`, the lowest first. */
  function FeedBits(crc: bv32, bits: bv32, k: nat): bv32
    decreases k
  {
    if k == 0 then crc else FeedBits(Shift(Xor(crc, LowBit(bits))), Half(bits), k - 1)
  }

  function FeedAll(crc: bv32, bytes: seq<bv8>): bv32 {
    if bytes == [] then crc
    else FeedBits(FeedAll(crc, bytes[..|bytes| - 1]), bytes[|bytes| - 1] as bv32, 8)
  }

  function BitwiseCrc32(bytes: seq<bv8>): bv32 {
    Xor(FeedAll(0xFFFF_FFFF, bytes), 0xFFFF_FFFF)
  }

  // The register after each of the digits one to nine.

  lemma FirstSteps()
    ensures FeedBits(0xFFFF_FFFF, 0x31, 8) == 0x7C23_1048
    ensures FeedBits(0x7C23_1048, 0x32, 8) == 0xB0AC_BB32
    ensures FeedBits(0xB0AC_BB32, 0x33, 8) == 0x77B7_9C2D
    ensures FeedBits(0x77B7_9C2D, 0x34, 8) == 0x641C_1F5C
  {
  }

  lemma LaterSteps()
    ensures FeedBits(0x641C_1F5C, 0x35, 8) == 0x340A_C5E3
    ensures FeedBits(0x340A_C5E3, 0x36, 8) == 0xF68D_2C9E
    ensures FeedBits(0xF68D_2C9E, 0x37, 8) == 0xAFFC_9660
    ensures FeedBits(0xAFFC_9660, 0x38, 8) == 0x651F_2550
    ensures FeedBits(0x651F_2550, 0x39, 8) == 0x340B_C6D9
  {
  }

  lemma OneMoreByte(bytes: seq<bv8>, k: nat)
    requires k < |bytes|
    ensures FeedAll(0xFFFF_FFFF, bytes[..k + 1]) == FeedBits(FeedAll(0xFFFF_FFFF, bytes[..k]), bytes[k] as bv32, 8)
  {
    hide FeedBits;
    assert bytes[..k + 1][..k] == bytes[..k];
  }

  /** The check value of the standard: the checksum of the digits one to nine. */
  lemma CheckValue()
    ensures BitwiseCrc32([0x31, 0x32, 0x33, 0x34, 0x35, 0x36, 0x37, 0x38, 0x39]) == 0xCBF4_3926
  {
    hide FeedBits, FeedAll;
    var digits: seq<bv8> := [0x31, 0x32, 0x33, 0x34, 0x35, 0x36, 0x37, 0x38, 0x39];
    FirstSteps();
    LaterSteps();
    NothingFed();
    assert digits[..0] == [] && digits[..9] == digits;
    OneMoreByte(digits, 0);
    OneMoreByte(digits, 1);
    OneMoreByte(digits, 2);
    OneMoreByte(digits, 3);
    OneMoreByte(digits, 4);
    OneMoreByte(digits, 5);
    OneMoreByte(digits, 6);
    OneMoreByte(digits, 7);
    OneMoreByte(digits, 8);
  }

  lemma NothingFed()
    ensures FeedAll(0xFFFF_FFFF, []) == 0xFFFF_FFFF
  {
  }

  // ---------- The program: a table of 256 entries

  function Shifts(value: bv32, k: nat): bv32
    decreases k
  {
    if k == 0 then value else Shifts(Shift(value), k - 1)
  }

  predicate IsTable(table: seq<bv32>) {
    |table| == 256 && forall i :: 0 <= i < 256 ==> table[i] == Shifts(i as bv32, 8)
  }

  method BuildTable() returns (table: seq<bv32>)
    ensures IsTable(table)
  {
    hide Shifts;
    table := [];
    for index := 0 to 256
      invariant |table| == index
      invariant forall i :: 0 <= i < index ==> table[i] == Shifts(i as bv32, 8)
    {
      var value := index as bv32;
      for bit := 0 to 8
        invariant Shifts(value, 8 - bit) == Shifts(index as bv32, 8)
      {
        ShiftsStep(value, 8 - bit);
        value := if value & 1 == 1 then POLYNOMIAL ^ (value >> 1) else value >> 1;
      }
      ShiftsStep(value, 0);
      table := table + [value];
    }
  }

  lemma ShiftsStep(value: bv32, k: nat)
    ensures Shifts(value, k) == if k == 0 then value else Shifts(Shift(value), k - 1)
  {
  }

  method ComputeCrc32(bytes: seq<bv8>) returns (checksum: bv32)
    ensures checksum == BitwiseCrc32(bytes)
  {
    hide FeedBits, Shifts, IsTable, Slot;
    var table := BuildTable();
    var crc: bv32 := 0xFFFF_FFFF;
    for i := 0 to |bytes|
      invariant crc == FeedAll(0xFFFF_FFFF, bytes[..i])
    {
      assert bytes[..i + 1][..i] == bytes[..i];
      crc := LookUp(table, crc, bytes[i]);
    }
    assert bytes[..|bytes|] == bytes;
    checksum := crc ^ 0xFFFF_FFFF;
  }

  /** The loop body of the source: one table entry, exclusive or the register's upper bytes. */
  method LookUp(table: seq<bv32>, crc: bv32, byte: bv8) returns (next: bv32)
    requires IsTable(table)
    ensures next == FeedBits(crc, byte as bv32, 8)
  {
    hide FeedBits, Shifts, Slot, IsTable, Xor, UpperPart;
    ByteFits(byte);
    ByteStep(crc, byte as bv32);
    var slot := Slot(Xor(crc, byte as bv32));
    TableEntry(table, slot);
    next := Xor(table[slot as int], UpperPart(crc));
  }

  function UpperPart(x: bv32): bv32 {
    x >> 8
  }

  lemma ByteFits(byte: bv8)
    ensures byte as bv32 <= 0xFF
  {
  }

  function Slot(x: bv32): bv32 {
    x & 0xFF
  }

  lemma TableEntry(table: seq<bv32>, slot: bv32)
    requires IsTable(table) && slot <= 0xFF
    ensures 0 <= slot as int < |table| && table[slot as int] == Shifts(slot, 8)
  {
    hide Shifts;
    assert (slot as int) as bv32 == slot;
  }

  // ---------- Why they agree: the division step is linear over exclusive or

  lemma ShiftRightLinear(x: bv32, y: bv32)
    ensures (x ^ y) >> 1 == (x >> 1) ^ (y >> 1)
    ensures (x ^ y) & 1 == (x & 1) ^ (y & 1)
  {
  }

  lemma BitIsZeroOrOne(x: bv32)
    ensures x & 1 == 0 || x & 1 == 1
  {
  }

  lemma XorRegroup(p: bv32, a: bv32, b: bv32)
    ensures (p ^ a) ^ (p ^ b) == a ^ b
    ensures p ^ (a ^ b) == (p ^ a) ^ b == a ^ (p ^ b)
  {
  }

  lemma ShiftLinearPlain(x: bv32, y: bv32)
    ensures Shift(x ^ y) == Shift(x) ^ Shift(y)
  {
    ShiftRightLinear(x, y);
    BitIsZeroOrOne(x);
    BitIsZeroOrOne(y);
    XorRegroup(POLYNOMIAL, x >> 1, y >> 1);
  }

  lemma ShiftLinear(x: bv32, y: bv32)
    ensures Shift(Xor(x, y)) == Xor(Shift(x), Shift(y))
  {
    hide Shift;
    ShiftLinearPlain(x, y);
  }

  lemma {:induction false} ShiftsLinear(x: bv32, y: bv32, k: nat)
    ensures Shifts(Xor(x, y), k) == Xor(Shifts(x, k), Shifts(y, k))
    decreases k
  {
    hide Shift, Xor;
    if k > 0 {
      ShiftLinear(x, y);
      ShiftsLinear(Shift(x), Shift(y), k - 1);
    }
  }

  function Halves(x: bv32, k: nat): bv32
    decreases k
  {
    if k == 0 then x else Halves(Half(x), k - 1)
  }

  function Even(x: bv32): bv32 {
    x & 0xFFFF_FFFE
  }

  lemma SplitLowBit(crc: bv32, x: bv32)
    ensures Xor(crc, x) == Xor(Xor(crc, LowBit(x)), Even(x))
  {
  }

  lemma EvenBits(x: bv32)
    ensures (x & 0xFFFF_FFFE) & 1 == 0 && (x & 0xFFFF_FFFE) >> 1 == x >> 1
  {
  }

  lemma EvenShift(x: bv32)
    ensures Shift(Even(x)) == Half(x)
  {
    hide Shift;
    EvenBits(x);
    ClearShift(Even(x));
  }

  /** Dividing with the whole of `bits` xored in is feeding its lowest bit and keeping the others for later. */
  lemma FeedOne(crc: bv32, bits: bv32)
    ensures Shift(Xor(crc, bits)) == Xor(Shift(Xor(crc, LowBit(bits))), Half(bits))
  {
    hide Shift, Xor, LowBit, Half, Even;
    SplitLowBit(crc, bits);
    EvenShift(bits);
    ShiftLinear(Xor(crc, LowBit(bits)), Even(bits));
  }

  lemma {:induction false} FeedBitsIsShifts(crc: bv32, bits: bv32, k: nat)
    ensures Xor(FeedBits(crc, bits, k), Halves(bits, k)) == Shifts(Xor(crc, bits), k)
    decreases k
  {
    hide Shift, Xor, LowBit, Half;
    if k > 0 {
      FeedOne(crc, bits);
      FeedBitsIsShifts(Shift(Xor(crc, LowBit(bits))), Half(bits), k - 1);
    }
  }

  /** Dividing a register whose lowest `k` bits are clear only shifts it. */
  lemma {:induction false} ClearShifts(x: bv32, k: nat)
    requires ClearBits(x, k)
    ensures Shifts(x, k) == Halves(x, k)
    decreases k
  {
    if k > 0 {
      ClearShift(x);
      hide Shift, Half;
      ClearShifts(Half(x), k - 1);
    }
  }

  lemma ClearShift(x: bv32)
    ensures LowBit(x) == 0 ==> Shift(x) == Half(x)
  {
  }

  predicate ClearBits(x: bv32, k: nat)
    decreases k
  {
    k == 0 || (LowBit(x) == 0 && ClearBits(Half(x), k - 1))
  }

  lemma FourHalves(x: bv32)
    ensures Half(Half(Half(Half(x)))) == x >> 4
    ensures x & 0xF == 0 ==> LowBit(x) == 0 && LowBit(Half(x)) == 0 && LowBit(Half(Half(x))) == 0
                             && LowBit(Half(Half(Half(x)))) == 0
  {
  }

  function Nibble(x: bv32): bv32 {
    x >> 4
  }

  predicate ClearNibble(x: bv32) {
    x & 0xF == 0
  }

  lemma FourSteps(x: bv32, k: nat)
    ensures Halves(x, k + 4) == Halves(Nibble(x), k)
    ensures ClearNibble(x) && ClearBits(Nibble(x), k) ==> ClearBits(x, k + 4)
  {
    FourHalves(x);
    hide Half, LowBit;
    var a := Half(x);
    var b := Half(a);
    var c := Half(b);
    assert Halves(x, k + 4) == Halves(a, k + 3) == Halves(b, k + 2) == Halves(c, k + 1) == Halves(Half(c), k);
    assert ClearBits(x, k + 4) == (LowBit(x) == 0 && ClearBits(a, k + 3));
    assert ClearBits(a, k + 3) == (LowBit(a) == 0 && ClearBits(b, k + 2));
    assert ClearBits(b, k + 2) == (LowBit(b) == 0 && ClearBits(c, k + 1));
  }

  lemma EightSteps(x: bv32)
    ensures Halves(x, 8) == UpperPart(x)
    ensures x & 0xFF == 0 ==> ClearBits(x, 8)
  {
    hide Halves, ClearBits, Nibble, ClearNibble, UpperPart;
    FourSteps(x, 4);
    FourSteps(Nibble(x), 0);
    NoSteps(Nibble(Nibble(x)));
    ByteIsTwoNibbles(x);
  }

  lemma NoSteps(x: bv32)
    ensures Halves(x, 0) == x && ClearBits(x, 0)
  {
  }

  lemma ByteIsTwoNibbles(x: bv32)
    ensures Nibble(Nibble(x)) == UpperPart(x)
    ensures x & 0xFF == 0 ==> ClearNibble(x) && ClearNibble(Nibble(x))
  {
  }

  function High(x: bv32): bv32 {
    x & 0xFFFF_FF00
  }

  lemma SplitRegister(x: bv32)
    ensures x == Xor(Slot(x), High(x))
    ensures UpperPart(High(x)) == UpperPart(x) && High(x) & 0xFF == 0 && Slot(x) <= 0xFF
  {
  }

  lemma UpperBytes(crc: bv32, byte: bv32)
    requires byte <= 0xFF
    ensures UpperPart(Xor(crc, byte)) == UpperPart(crc) && UpperPart(byte) == 0
  {
  }

  lemma XorZero(x: bv32)
    ensures Xor(x, 0) == x
  {
  }

  /** One table look-up does the work of eight bit steps. */
  lemma ByteStep(crc: bv32, byte: bv32)
    requires byte <= 0xFF
    ensures Slot(Xor(crc, byte)) <= 0xFF
    ensures FeedBits(crc, byte, 8) == Xor(Shifts(Slot(Xor(crc, byte)), 8), UpperPart(crc))
  {
    hide FeedBits, Shifts, Halves, Slot, High, Xor, ClearBits, UpperPart;
    var x := Xor(crc, byte);
    SplitRegister(x);
    UpperBytes(crc, byte);
    FeedBitsIsShifts(crc, byte, 8);
    EightSteps(byte);
    XorZero(FeedBits(crc, byte, 8));
    ShiftsLinear(Slot(x), High(x), 8);
    EightSteps(High(x));
    ClearShifts(High(x), 8);
  }
}
