/** The reflected CRC-32 shift register, one bit at a time. */
module Crc32Bits {
  // The bit operations get names, so that proofs about them can go by equations.

  function Xor(a: bv32, b: bv32): bv32 {
    a ^ b
  }

  function Half(s: bv32): bv32 {
    s >> 1
  }

  predicate Odd(s: bv32) {
    s & 1 == 1
  }

  function Low8(s: bv32): bv32 {
    s & 0xff
  }

  function Down8(s: bv32): bv32 {
    s >> 8
  }

  function Up8(s: bv32): bv32 {
    s << 8
  }

  const POLYNOMIAL: bv32 := 0xEDB88320

  /** One bit of the shift-and-xor CRC with the reflected polynomial. */
  function Shift(s: bv32): bv32 {
    if Odd(s) then Xor(Half(s), POLYNOMIAL) else Half(s)
  }

  function Shift2(s: bv32): bv32 {
    Shift(Shift(s))
  }

  function Shift4(s: bv32): bv32 {
    Shift2(Shift2(s))
  }

  /** Eight bits. */
  function Shift8(s: bv32): bv32 {
    Shift4(Shift4(s))
  }

  // The register is linear over exclusive or.

  lemma OddXor(a: bv32, b: bv32)
    ensures Odd(Xor(a, b)) <==> Odd(a) != Odd(b)
  {
  }

  lemma HalfXor(a: bv32, b: bv32)
    ensures Half(Xor(a, b)) == Xor(Half(a), Half(b))
  {
  }

  lemma XorRight(a: bv32, b: bv32, p: bv32)
    ensures Xor(a, Xor(b, p)) == Xor(Xor(a, b), p)
  {
    assert a ^ (b ^ p) == (a ^ b) ^ p;
  }

  lemma XorCommutes(a: bv32, b: bv32)
    ensures Xor(a, b) == Xor(b, a)
  {
  }

  lemma XorLeft(a: bv32, b: bv32, p: bv32)
    ensures Xor(Xor(a, p), b) == Xor(Xor(a, b), p)
  {
    XorCommutes(Xor(a, p), b);
    XorRight(b, a, p);
    XorCommutes(a, b);
  }

  lemma XorBoth(a: bv32, b: bv32, p: bv32)
    ensures Xor(Xor(a, p), Xor(b, p)) == Xor(a, b)
  {
    assert (a ^ p) ^ (b ^ p) == a ^ b;
  }

  lemma ShiftLinear(a: bv32, b: bv32)
    ensures Shift(Xor(a, b)) == Xor(Shift(a), Shift(b))
  {
    OddXor(a, b);
    HalfXor(a, b);
    XorLeft(Half(a), Half(b), POLYNOMIAL);
    XorRight(Half(a), Half(b), POLYNOMIAL);
    XorBoth(Half(a), Half(b), POLYNOMIAL);
  }

  lemma Shift2Linear(a: bv32, b: bv32)
    ensures Shift2(Xor(a, b)) == Xor(Shift2(a), Shift2(b))
  {
    ShiftLinear(a, b);
    ShiftLinear(Shift(a), Shift(b));
  }

  lemma Shift4Linear(a: bv32, b: bv32)
    ensures Shift4(Xor(a, b)) == Xor(Shift4(a), Shift4(b))
  {
    Shift2Linear(a, b);
    Shift2Linear(Shift2(a), Shift2(b));
  }

  lemma Shift8Linear(a: bv32, b: bv32)
    ensures Shift8(Xor(a, b)) == Xor(Shift8(a), Shift8(b))
  {
    Shift4Linear(a, b);
    Shift4Linear(Shift4(a), Shift4(b));
  }

  // The register loses nothing: each state comes from exactly one state.

  function Unshift(s: bv32): bv32 {
    if s & 0x80000000 != 0 then ((s ^ 0xEDB88320) << 1) | 1 else s << 1
  }

  lemma UnshiftShift(s: bv32)
    ensures Unshift(Shift(s)) == s
  {
  }

  lemma Shift2Injective(a: bv32, b: bv32)
    requires Shift2(a) == Shift2(b)
    ensures a == b
  {
    UnshiftShift(Shift(a));
    UnshiftShift(Shift(b));
    UnshiftShift(a);
    UnshiftShift(b);
  }

  lemma Shift8Injective(a: bv32, b: bv32)
    requires Shift8(a) == Shift8(b)
    ensures a == b
  {
    Shift2Injective(Shift2(Shift4(a)), Shift2(Shift4(b)));
    Shift2Injective(Shift4(a), Shift4(b));
    Shift2Injective(Shift2(a), Shift2(b));
    Shift2Injective(a, b);
  }

  /** Bits above the lowest eight only move down. */
  lemma Shift8High(s: bv32)
    requires Low8(s) == 0
    ensures Shift8(s) == Down8(s)
  {
  }

  function High24(s: bv32): bv32 {
    s & 0xffffff00
  }

  lemma LowHigh(s: bv32)
    ensures s == Xor(Low8(s), High24(s)) && Low8(High24(s)) == 0 && Down8(High24(s)) == Down8(s)
  {
  }

  /** Eight bits at once, given what the lowest eight contribute. */
  lemma Shift8ByTable(s: bv32)
    ensures Shift8(s) == Xor(Shift8(Low8(s)), Down8(s))
  {
    LowHigh(s);
    Shift8Linear(Low8(s), High24(s));
    Shift8High(High24(s));
  }
}
