/**
 * The CRC-64 of the boot descriptor (Tools/make_can_boot_descriptor.py), most significant bit
 * first: the loops that compute it, and what it detects.
 */
module Crc64 {
  const POLYNOMIAL: bv64 := 0x42F0E1EBA9EA3693
  const MASK: bv64 := 0xFFFFFFFFFFFFFFFF

  /** The exponents of the polynomial of ECMA-182, Annex B, below its leading x^64. */
  lemma PolynomialIs()
    ensures POLYNOMIAL
         == (1 << 62) | (1 << 57) | (1 << 55) | (1 << 54) | (1 << 53) | (1 << 52) | (1 << 47) | (1 << 46)
            | (1 << 45) | (1 << 40) | (1 << 39) | (1 << 38) | (1 << 37) | (1 << 35) | (1 << 33) | (1 << 32)
            | (1 << 31) | (1 << 29) | (1 << 27) | (1 << 24) | (1 << 23) | (1 << 22) | (1 << 21) | (1 << 19)
            | (1 << 17) | (1 << 13) | (1 << 12) | (1 << 10) | (1 << 9) | (1 << 7) | (1 << 4) | (1 << 1)
            | (1 << 0)
    ensures MASK + 1 == 0
  {
  }

  // The bit operations get names, so that proofs about them can go by equations.

  function Xor(a: bv64, b: bv64): bv64 {
    a ^ b
  }

  function Twice(v: bv64): bv64 {
    v << 1
  }

  predicate TopBit(v: bv64) {
    v & 0x8000000000000000 != 0
  }

  function Up8(v: bv64): bv64 {
    v << 8
  }

  function Down8(v: bv64): bv64 {
    v >> 8
  }

  /** A byte in the highest eight bits. */
  function Top(b: bv8): bv64 {
    (b as bv64) << 56
  }

  /** One bit of the shift-and-xor CRC. */
  function Shift(v: bv64): bv64 {
    if TopBit(v) then Xor(Twice(v), POLYNOMIAL) else Twice(v)
  }

  function ShiftTimes(n: nat, v: bv64): bv64 {
    if n == 0 then v else Shift(ShiftTimes(n - 1, v))
  }

  function Shift2(v: bv64): bv64 {
    Shift(Shift(v))
  }

  function Shift4(v: bv64): bv64 {
    Shift2(Shift2(v))
  }

  /** Eight bits. */
  function Shift8(v: bv64): bv64 {
    Shift4(Shift4(v))
  }

  lemma EightTimes(v: bv64)
    ensures ShiftTimes(8, v) == Shift8(v)
  {
    assert ShiftTimes(2, v) == Shift(ShiftTimes(1, v)) == Shift2(v);
    assert ShiftTimes(4, v) == Shift(ShiftTimes(3, v)) == Shift2(ShiftTimes(2, v));
    assert ShiftTimes(6, v) == Shift(ShiftTimes(5, v)) == Shift2(ShiftTimes(4, v));
    assert ShiftTimes(8, v) == Shift(ShiftTimes(7, v)) == Shift2(ShiftTimes(6, v));
  }

  function FeedByte(v: bv64, b: bv8): bv64 {
    Shift8(Xor(v, Top(b)))
  }

  /** The register after `data`, from state `v`. */
  function Feed(v: bv64, data: seq<bv8>): bv64 {
    if |data| == 0 then v else FeedByte(Feed(v, data[..|data| - 1]), data[|data| - 1])
  }

  function Crc(data: seq<bv8>): bv64 {
    Xor(Feed(MASK, data), MASK)
  }

  /** The nested loops compute the CRC. */
  method Compute(data: seq<bv8>) returns (crc: bv64)
    ensures crc == Crc(data)
  {
    var v := MASK;
    for i := 0 to |data|
      invariant v == Feed(MASK, data[..i])
    {
      FeedAppend(MASK, data, i);
      v := ComputeByte(v, data[i]);
    }
    assert data[..|data|] == data;
    crc := Xor(v, MASK);
  }

  /** The inner loop, over the bits of a byte. */
  method ComputeByte(before: bv64, b: bv8) returns (v: bv64)
    ensures v == FeedByte(before, b)
  {
    v := Xor(before, Top(b));
    ghost var start := v;
    for bit := 0 to 8
      invariant v == ShiftTimes(bit, start)
    {
      if TopBit(v) {
        v := Xor(Twice(v), POLYNOMIAL);
      } else {
        v := Twice(v);
      }
    }
    EightTimes(start);
  }

  lemma FeedAppend(v: bv64, data: seq<bv8>, i: nat)
    requires i < |data|
    ensures Feed(v, data[..i + 1]) == FeedByte(Feed(v, data[..i]), data[i])
  {
    assert data[..i + 1][..i] == data[..i];
  }

  /** The published check value: the CRC of the digits '1' to '9'. */
  lemma CheckValue()
    ensures Crc([0x31, 0x32, 0x33, 0x34, 0x35, 0x36, 0x37, 0x38, 0x39]) == 0x62EC59E3F1A4F00A
  {
    var a: seq<bv8>, b: seq<bv8>, c: seq<bv8> := [0x31, 0x32, 0x33], [0x34, 0x35, 0x36], [0x37, 0x38, 0x39];
    assert [0x31, 0x32, 0x33, 0x34, 0x35, 0x36, 0x37, 0x38, 0x39] == a + b + c;
    FeedParts(a, b, c);
    CheckDigits();
  }

  lemma CheckDigits()
    ensures Feed(Feed(Feed(MASK, [0x31, 0x32, 0x33]), [0x34, 0x35, 0x36]), [0x37, 0x38, 0x39]) == 0x9D13A61C0E5B0FF5
  {
    FirstDigits();
    LastDigits();
    FeedThree(0xFFFFFFFFFFFFFFFF, 0x31, 0x32, 0x33);
    FeedThree(0x2A0BB93A7813CA88, 0x34, 0x35, 0x36);
    FeedThree(0xC242B8ED1B26187A, 0x37, 0x38, 0x39);
  }

  lemma FeedThree(v: bv64, a: bv8, b: bv8, c: bv8)
    ensures Feed(v, [a, b, c]) == FeedByte(FeedByte(FeedByte(v, a), b), c)
  {
    assert [a, b, c] == [a, b] + [c] && [a, b] == [a] + [b];
    FeedConcat(v, [a, b], [c]);
    FeedConcat(v, [a], [b]);
    FeedOne(v, a);
    FeedOne(FeedByte(v, a), b);
    FeedOne(FeedByte(FeedByte(v, a), b), c);
  }

  lemma FirstDigits()
    ensures FeedByte(0xFFFFFFFFFFFFFFFF, 0x31) == 0x8DB4713229B2F2A5
    ensures FeedByte(0x8DB4713229B2F2A5, 0x32) == 0xF488D61A961B3128
    ensures FeedByte(0xF488D61A961B3128, 0x33) == 0x2A0BB93A7813CA88
    ensures FeedByte(0x2A0BB93A7813CA88, 0x34) == 0x33302B9FC23855A8
    ensures FeedByte(0x33302B9FC23855A8, 0x35) == 0xFCF93A5065C329F9
  {
  }

  lemma LastDigits()
    ensures FeedByte(0xFCF93A5065C329F9, 0x36) == 0xC242B8ED1B26187A
    ensures FeedByte(0xC242B8ED1B26187A, 0x37) == 0xCFC30460A7CC7B9F
    ensures FeedByte(0xCFC30460A7CC7B9F, 0x38) == 0xCB9E4A0B1E7BF3B9
    ensures FeedByte(0xCB9E4A0B1E7BF3B9, 0x39) == 0x9D13A61C0E5B0FF5
  {
  }

  lemma {:induction false} FeedConcat(v: bv64, a: seq<bv8>, b: seq<bv8>)
    ensures Feed(v, a + b) == Feed(Feed(v, a), b)
  {
    if |b| == 0 {
      assert a + b == a;
    } else {
      FeedConcat(v, a, b[..|b| - 1]);
      assert (a + b)[..|a + b| - 1] == a + b[..|b| - 1];
    }
  }

  // The register is linear over exclusive or.

  lemma TopBitXor(a: bv64, b: bv64)
    ensures TopBit(Xor(a, b)) <==> TopBit(a) != TopBit(b)
  {
  }

  lemma TwiceXor(a: bv64, b: bv64)
    ensures Twice(Xor(a, b)) == Xor(Twice(a), Twice(b))
  {
  }

  lemma XorRight(a: bv64, b: bv64, p: bv64)
    ensures Xor(a, Xor(b, p)) == Xor(Xor(a, b), p)
  {
    assert a ^ (b ^ p) == (a ^ b) ^ p;
  }

  lemma XorCommutes(a: bv64, b: bv64)
    ensures Xor(a, b) == Xor(b, a)
  {
  }

  lemma XorCancels(a: bv64, p: bv64)
    ensures Xor(Xor(a, p), p) == a
  {
  }

  lemma XorLeft(a: bv64, b: bv64, p: bv64)
    ensures Xor(Xor(a, p), b) == Xor(Xor(a, b), p)
  {
    XorCommutes(Xor(a, p), b);
    XorRight(b, a, p);
    XorCommutes(a, b);
  }

  lemma XorBoth(a: bv64, b: bv64, p: bv64)
    ensures Xor(Xor(a, p), Xor(b, p)) == Xor(a, b)
  {
    XorLeft(a, Xor(b, p), p);
    XorRight(a, b, p);
    XorCancels(Xor(a, b), p);
  }

  lemma ShiftLinear(a: bv64, b: bv64)
    ensures Shift(Xor(a, b)) == Xor(Shift(a), Shift(b))
  {
    TopBitXor(a, b);
    TwiceXor(a, b);
    var x, y, z := Twice(a), Twice(b), Twice(Xor(a, b));
    if TopBit(a) && TopBit(b) {
      assert Shift(Xor(a, b)) == z && Shift(a) == Xor(x, POLYNOMIAL) && Shift(b) == Xor(y, POLYNOMIAL);
      XorBoth(x, y, POLYNOMIAL);
    } else if TopBit(a) {
      assert Shift(Xor(a, b)) == Xor(z, POLYNOMIAL) && Shift(a) == Xor(x, POLYNOMIAL) && Shift(b) == y;
      XorLeft(x, y, POLYNOMIAL);
    } else if TopBit(b) {
      assert Shift(Xor(a, b)) == Xor(z, POLYNOMIAL) && Shift(a) == x && Shift(b) == Xor(y, POLYNOMIAL);
      XorRight(x, y, POLYNOMIAL);
    }
  }

  lemma Shift2Linear(a: bv64, b: bv64)
    ensures Shift2(Xor(a, b)) == Xor(Shift2(a), Shift2(b))
  {
    ShiftLinear(a, b);
    ShiftLinear(Shift(a), Shift(b));
  }

  lemma Shift4Linear(a: bv64, b: bv64)
    ensures Shift4(Xor(a, b)) == Xor(Shift4(a), Shift4(b))
  {
    Shift2Linear(a, b);
    Shift2Linear(Shift2(a), Shift2(b));
  }

  lemma Shift8Linear(a: bv64, b: bv64)
    ensures Shift8(Xor(a, b)) == Xor(Shift8(a), Shift8(b))
  {
    Shift4Linear(a, b);
    Shift4Linear(Shift4(a), Shift4(b));
  }

  // The register loses nothing: the polynomial is odd, so the lowest bit tells what was shifted out.

  predicate Odd(v: bv64) {
    v & 1 != 0
  }

  function Half(v: bv64): bv64 {
    v >> 1
  }

  function WithTop(v: bv64): bv64 {
    v | 0x8000000000000000
  }

  function Unshift(v: bv64): bv64 {
    if Odd(v) then WithTop(Half(Xor(v, POLYNOMIAL))) else Half(v)
  }

  lemma UnshiftShift(v: bv64)
    ensures Unshift(Shift(v)) == v
  {
    TwiceIsEven(v);
    HalfOfTwice(v);
    XorCancels(Twice(v), POLYNOMIAL);
  }

  lemma TwiceIsEven(v: bv64)
    ensures !Odd(Twice(v)) && Odd(Xor(Twice(v), POLYNOMIAL))
  {
  }

  lemma HalfOfTwice(v: bv64)
    ensures if TopBit(v) then WithTop(Half(Twice(v))) == v else Half(Twice(v)) == v
  {
  }

  lemma Shift2Injective(a: bv64, b: bv64)
    requires Shift2(a) == Shift2(b)
    ensures a == b
  {
    UnshiftShift(Shift(a));
    UnshiftShift(Shift(b));
    UnshiftShift(a);
    UnshiftShift(b);
  }

  lemma Shift8Injective(a: bv64, b: bv64)
    requires Shift8(a) == Shift8(b)
    ensures a == b
  {
    Shift2Injective(Shift2(Shift4(a)), Shift2(Shift4(b)));
    Shift2Injective(Shift4(a), Shift4(b));
    Shift2Injective(Shift2(a), Shift2(b));
    Shift2Injective(a, b);
  }

  lemma XorInjective(a: bv64, b: bv64, x: bv64)
    requires Xor(a, x) == Xor(b, x)
    ensures a == b
  {
    assert (a ^ x) ^ x == a && (b ^ x) ^ x == b;
  }

  lemma XorInjectiveRight(x: bv64, a: bv64, b: bv64)
    requires Xor(x, a) == Xor(x, b)
    ensures a == b
  {
    assert x ^ (x ^ a) == a && x ^ (x ^ b) == b;
  }

  /** Different states stay different through the same bytes. */
  lemma {:induction false} FeedInjective(v: bv64, w: bv64, data: seq<bv8>)
    requires Feed(v, data) == Feed(w, data)
    ensures v == w
  {
    if |data| == 0 {
    } else {
      var init, b := data[..|data| - 1], data[|data| - 1];
      Shift8Injective(Xor(Feed(v, init), Top(b)), Xor(Feed(w, init), Top(b)));
      XorInjective(Feed(v, init), Feed(w, init), Top(b));
      FeedInjective(v, w, init);
    }
  }

  // Up to eight bytes go through the register as one word.

  function Word(data: seq<bv8>): bv64 {
    if |data| == 0 then 0 else Xor(Top(data[0]), Down8(Word(data[1..])))
  }

  /** As many times eight bits as there are bytes. */
  function ShiftBytes(n: nat, v: bv64): bv64 {
    if n == 0 then v else ShiftBytes(n - 1, Shift8(v))
  }

  /** A word of `n` bytes leaves the other bits free. */
  predicate Fits(n: nat, w: bv64) {
    if n == 0 then w == 0
    else if n == 1 then w & 0x00ffffffffffffff == 0
    else if n == 2 then w & 0x0000ffffffffffff == 0
    else if n == 3 then w & 0x000000ffffffffff == 0
    else if n == 4 then w & 0x00000000ffffffff == 0
    else if n == 5 then w & 0x0000000000ffffff == 0
    else if n == 6 then w & 0x000000000000ffff == 0
    else w & 0x00000000000000ff == 0
  }

  lemma FitsAppend(n: nat, b: bv8, w: bv64)
    requires n <= 6 && Fits(n, w)
    ensures Fits(n + 1, Xor(Top(b), Down8(w)))
  {
  }

  lemma FitsLow(n: nat, w: bv64)
    requires Fits(n, w)
    ensures w & 0xff == 0
  {
  }

  lemma {:induction false} WordFits(data: seq<bv8>)
    requires |data| <= 7
    ensures Fits(|data|, Word(data))
  {
    if |data| == 0 {
    } else {
      WordFits(data[1..]);
      FitsAppend(|data| - 1, data[0], Word(data[1..]));
    }
  }

  lemma WordUnfolds(data: seq<bv8>)
    requires 1 <= |data| <= 8
    ensures Word(data) == Xor(Top(data[0]), Down8(Word(data[1..]))) && Word(data[1..]) & 0xff == 0
  {
    WordFits(data[1..]);
    FitsLow(|data| - 1, Word(data[1..]));
  }

  /** A word with free bits above only moves up. */
  lemma Shift8Down(w: bv64)
    requires w & 0xff == 0
    ensures Shift8(Down8(w)) == w
  {
    DownUp(w);
    Shift8Low(Down8(w));
  }

  lemma DownUp(w: bv64)
    requires w & 0xff == 0
    ensures Up8(Down8(w)) == w && Down8(w) <= 0x00ffffffffffffff
  {
  }

  lemma Shift8Low(v: bv64)
    requires v <= 0x00ffffffffffffff
    ensures Shift8(v) == Up8(v)
  {
  }

  lemma {:induction false} ShiftBytesInjective(n: nat, a: bv64, b: bv64)
    requires ShiftBytes(n, a) == ShiftBytes(n, b)
    ensures a == b
  {
    if n == 0 {
    } else {
      ShiftBytesInjective(n - 1, Shift8(a), Shift8(b));
      Shift8Injective(a, b);
    }
  }

  lemma FeedOne(v: bv64, b: bv8)
    ensures Feed(v, [b]) == FeedByte(v, b)
  {
    assert [b][..0] == [];
  }

  lemma {:induction false} FeedWord(v: bv64, data: seq<bv8>)
    requires |data| <= 8
    ensures Feed(v, data) == ShiftBytes(|data|, Xor(v, Word(data)))
    decreases |data|
  {
    if |data| == 0 {
      assert v ^ 0 == v;
    } else {
      var b, more := data[0], data[1..];
      assert data == [b] + more;
      FeedConcat(v, [b], more);
      FeedOne(v, b);
      FeedWord(FeedByte(v, b), more);
      FirstByte(v, b, Word(more));
      WordUnfolds(data);
    }
  }

  /** The first byte and the rest of the word enter together. */
  lemma FirstByte(v: bv64, b: bv8, w: bv64)
    ensures w & 0xff == 0 ==> Xor(FeedByte(v, b), w) == Shift8(Xor(v, Xor(Top(b), Down8(w))))
  {
    if w & 0xff == 0 {
      Shift8Down(w);
      Shift8Linear(Xor(v, Top(b)), Down8(w));
      XorRight(v, Top(b), Down8(w));
    }
  }

  lemma {:induction false} WordInjective(a: seq<bv8>, b: seq<bv8>)
    requires |a| == |b| <= 8 && Word(a) == Word(b)
    ensures a == b
  {
    if |a| == 0 {
    } else {
      WordUnfolds(a);
      WordUnfolds(b);
      ByteAndRest(a[0], b[0], Word(a[1..]), Word(b[1..]));
      WordInjective(a[1..], b[1..]);
      assert a == [a[0]] + a[1..] && b == [b[0]] + b[1..];
    }
  }

  lemma ByteAndRest(a: bv8, b: bv8, v: bv64, w: bv64)
    requires v & 0xff == 0 && w & 0xff == 0 && Xor(Top(a), Down8(v)) == Xor(Top(b), Down8(w))
    ensures a == b && v == w
  {
  }

  /**
   * Burst detection: two sequences of equal length that differ only within eight consecutive
   * bytes have different CRCs.
   */
  lemma BurstDetected(before: seq<bv8>, a: seq<bv8>, b: seq<bv8>, after: seq<bv8>)
    requires |a| == |b| <= 8 && a != b
    ensures Crc(before + a + after) != Crc(before + b + after)
  {
    var v := Feed(MASK, before);
    FeedParts(before, a, after);
    FeedParts(before, b, after);
    if Crc(before + a + after) == Crc(before + b + after) {
      XorInjective(Feed(MASK, before + a + after), Feed(MASK, before + b + after), MASK);
      FeedInjective(Feed(v, a), Feed(v, b), after);
      FeedWord(v, a);
      FeedWord(v, b);
      ShiftBytesInjective(|a|, Xor(v, Word(a)), Xor(v, Word(b)));
      XorInjectiveRight(v, Word(a), Word(b));
      WordInjective(a, b);
    }
  }

  lemma FeedParts(before: seq<bv8>, a: seq<bv8>, after: seq<bv8>)
    ensures Feed(MASK, before + a + after) == Feed(Feed(Feed(MASK, before), a), after)
  {
    FeedConcat(MASK, before + a, after);
    FeedConcat(MASK, before, a);
  }
}
