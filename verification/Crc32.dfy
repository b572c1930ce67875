/**
 * The CRC-32 of byte sequences: the bit-at-a-time definition, the table-driven loop that
 * computes it, and what it detects.
 */
module Crc32 {
  import opened Crc32Bits
  import opened Crc32Table

  /** One byte, bit by bit. */
  function CrcByte(s: bv32, b: bv8): bv32 {
    Shift8(Xor(s, b as bv32))
  }

  function Crc(s: bv32, data: seq<bv8>): bv32 {
    if |data| == 0 then s else CrcByte(Crc(s, data[..|data| - 1]), data[|data| - 1])
  }

  lemma {:induction false} CrcConcat(s: bv32, a: seq<bv8>, b: seq<bv8>)
    ensures Crc(s, a + b) == Crc(Crc(s, a), b)
  {
    if |b| == 0 {
      assert a + b == a;
    } else {
      CrcConcat(s, a, b[..|b| - 1]);
      assert (a + b)[..|a + b| - 1] == a + b[..|b| - 1];
    }
  }

  /** One byte through the table. */
  function TableByte(s: bv32, b: bv8): bv32 {
    Xor(CrcTab(Low8(Xor(s, b as bv32)) as bv8), Down8(s))
  }

  lemma ByteIsLow(s: bv32, b: bv8)
    ensures Down8(Xor(s, b as bv32)) == Down8(s)
    ensures (Low8(Xor(s, b as bv32)) as bv8) as bv32 == Low8(Xor(s, b as bv32))
  {
  }

  lemma TableByteIsCrcByte(s: bv32, b: bv8)
    ensures TableByte(s, b) == CrcByte(s, b)
  {
    ByteIsLow(s, b);
    Shift8ByTable(Xor(s, b as bv32));
  }

  /** The table-driven loop computes the bit-at-a-time CRC, from every starting state. */
  method Update(bytes: seq<bv8>, initial: bv32) returns (state: bv32)
    ensures state == Crc(initial, bytes)
  {
    state := initial;
    for i := 0 to |bytes|
      invariant state == Crc(initial, bytes[..i])
    {
      TableByteIsCrcByte(state, bytes[i]);
      CrcAppend(initial, bytes, i);
      var index := Low8(Xor(state, bytes[i] as bv32)) as bv8;
      state := Xor(CrcTab(index), Down8(state));
    }
    assert bytes[..|bytes|] == bytes;
  }

  lemma CrcAppend(s: bv32, data: seq<bv8>, i: nat)
    requires i < |data|
    ensures Crc(s, data[..i + 1]) == CrcByte(Crc(s, data[..i]), data[i])
  {
    assert data[..i + 1][..i] == data[..i];
  }

  // What the CRC detects.

  lemma XorInjective(a: bv32, b: bv32, x: bv32)
    requires Xor(a, x) == Xor(b, x)
    ensures a == b
  {
    assert (a ^ x) ^ x == a;
  }

  /** Different states stay different through the same bytes. */
  lemma {:induction false} CrcInjective(s: bv32, t: bv32, data: seq<bv8>)
    requires Crc(s, data) == Crc(t, data)
    ensures s == t
  {
    if |data| == 0 {
    } else {
      var init, b := data[..|data| - 1], data[|data| - 1];
      Shift8Injective(Xor(Crc(s, init), b as bv32), Xor(Crc(t, init), b as bv32));
      XorInjective(Crc(s, init), Crc(t, init), b as bv32);
      CrcInjective(s, t, init);
    }
  }

  /** A few bytes as one little-endian word. */
  function Word(data: seq<bv8>): bv32 {
    if |data| == 0 then 0 else Xor(data[0] as bv32, Up8(Word(data[1..])))
  }

  /** As many times eight bits as there are bytes. */
  function ShiftBytes(n: nat, s: bv32): bv32 {
    if n == 0 then s else ShiftBytes(n - 1, Shift8(s))
  }

  /** A word of at most three bytes leaves the highest eight bits free. */
  lemma {:induction false} WordIsSmall(data: seq<bv8>)
    requires |data| <= 3
    ensures Fits(|data|, Word(data))
  {
    if |data| == 0 {
    } else {
      WordIsSmall(data[1..]);
      AppendFits(|data| - 1, data[0], Word(data[1..]));
    }
  }

  predicate Fits(n: nat, w: bv32) {
    if n == 0 then w == 0 else if n == 1 then w <= 0xff else if n == 2 then w <= 0xffff else w <= 0xffffff
  }

  lemma AppendFits(n: nat, b: bv8, w: bv32)
    requires n <= 2 && Fits(n, w)
    ensures Fits(n + 1, Xor(b as bv32, Up8(w)))
  {
  }

  lemma UpDown(w: bv32)
    requires w <= 0xffffff
    ensures Low8(Up8(w)) == 0 && Down8(Up8(w)) == w
  {
  }

  lemma {:induction false} ShiftBytesInjective(n: nat, a: bv32, b: bv32)
    requires ShiftBytes(n, a) == ShiftBytes(n, b)
    ensures a == b
  {
    if n == 0 {
    } else {
      ShiftBytesInjective(n - 1, Shift8(a), Shift8(b));
      Shift8Injective(a, b);
    }
  }

  /** Up to four bytes go through the register as one word. */
  lemma {:induction false} CrcOfWord(s: bv32, data: seq<bv8>)
    requires |data| <= 4
    ensures Crc(s, data) == ShiftBytes(|data|, Xor(s, Word(data)))
    decreases |data|
  {
    if |data| == 0 {
      assert s ^ 0 == s;
    } else {
      var b, more := data[0], data[1..];
      var w := Word(more);
      var s1 := CrcByte(s, b);
      assert data == [b] + more;
      CrcConcat(s, [b], more);
      assert [b][..0] == [] && Crc(s, [b]) == s1;
      CrcOfWord(s1, more);
      WordIsSmall(more);
      UpDown(w);
      Shift8Linear(Xor(s, b as bv32), Up8(w));
      Shift8High(Up8(w));
      XorRight(s, b as bv32, Up8(w));
    }
  }

  lemma {:induction false} WordInjective(a: seq<bv8>, b: seq<bv8>)
    requires |a| == |b| <= 4 && Word(a) == Word(b)
    ensures a == b
  {
    if |a| == 0 {
    } else {
      WordHead(a, b);
      WordInjective(a[1..], b[1..]);
      assert a == [a[0]] + a[1..] && b == [b[0]] + b[1..];
    }
  }

  lemma WordHead(a: seq<bv8>, b: seq<bv8>)
    requires 1 <= |a| == |b| <= 4 && Word(a) == Word(b)
    ensures a[0] == b[0] && Word(a[1..]) == Word(b[1..])
  {
    WordUnfolds(a);
    WordUnfolds(b);
    ByteAndRest(a[0], b[0], Word(a[1..]), Word(b[1..]));
  }

  lemma WordUnfolds(data: seq<bv8>)
    requires 1 <= |data| <= 4
    ensures Word(data) == Xor(data[0] as bv32, Up8(Word(data[1..]))) && Word(data[1..]) <= 0xffffff
  {
    WordBelow(data[1..]);
  }

  lemma WordBelow(data: seq<bv8>)
    requires |data| <= 3
    ensures Word(data) <= 0xffffff
  {
    WordIsSmall(data);
    FitsBelow(|data|, Word(data));
  }

  lemma FitsBelow(n: nat, w: bv32)
    requires Fits(n, w)
    ensures w <= 0xffffff
  {
  }

  lemma ByteAndRest(a: bv8, b: bv8, v: bv32, w: bv32)
    requires v <= 0xffffff && w <= 0xffffff && Xor(a as bv32, Up8(v)) == Xor(b as bv32, Up8(w))
    ensures a == b && v == w
  {
  }

  /**
   * Burst detection: two sequences of equal length that differ only within four
   * consecutive bytes have different CRCs, from every starting state.
   */
  lemma BurstDetected(s: bv32, before: seq<bv8>, a: seq<bv8>, b: seq<bv8>, after: seq<bv8>)
    requires |a| == |b| <= 4 && a != b
    ensures Crc(s, before + a + after) != Crc(s, before + b + after)
  {
    CrcConcat(s, before + a, after);
    CrcConcat(s, before + b, after);
    CrcConcat(s, before, a);
    CrcConcat(s, before, b);
    if Crc(s, before + a + after) == Crc(s, before + b + after) {
      CrcInjective(Crc(s, before + a), Crc(s, before + b), after);
      var t := Crc(s, before);
      CrcOfWord(t, a);
      CrcOfWord(t, b);
      ShiftBytesInjective(|a|, Xor(t, Word(a)), Xor(t, Word(b)));
      XorInjectiveRight(t, Word(a), Word(b));
      WordInjective(a, b);
    }
  }

  lemma XorInjectiveRight(x: bv32, a: bv32, b: bv32)
    requires Xor(x, a) == Xor(x, b)
    ensures a == b
  {
    assert x ^ (x ^ a) == a && x ^ (x ^ b) == b;
  }
}
