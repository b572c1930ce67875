/**
 * The layout that a C compiler gives the structs of a message type, by the natural alignment
 * of every member and from the innermost struct outwards, and its agreement with the sizes
 * that the generator computes.
 */
module CLayout {
  import opened UorbLayout

  /** How deeply types are embedded in each other. */
  function Depth(t: Type): nat
    decreases t
  {
    match t
    case Builtin(_) => 0
    case Embedded(fs) => 1 + MaxDepth(fs)
  }

  function MaxDepth(fs: seq<Field>): nat
    decreases fs
  {
    if |fs| == 0 then 0 else
    assert fs decreases to fs[0];
    Max(Depth(fs[0].typ), MaxDepth(fs[1..]))
  }

  lemma {:induction false} DepthOfMember(fs: seq<Field>, i: nat)
    requires i < |fs|
    ensures Depth(fs[i].typ) <= MaxDepth(fs)
  {
    if i == 0 {
    } else {
      DepthOfMember(fs[1..], i - 1);
    }
  }

  lemma {:induction false} DepthBound(fs: seq<Field>, d: nat)
    requires forall i :: 0 <= i < |fs| ==> Depth(fs[i].typ) <= d
    ensures MaxDepth(fs) <= d
  {
    if |fs| == 0 {
    } else {
      DepthBound(fs[1..], d);
    }
  }

  /** The members of the struct: the padded fields that are generated, or the sorted ones alone. */
  function Members(fs: seq<Field>, padded: bool): seq<Field> {
    if padded then Generated(fs).fields else Sort(fs)
  }

  /** A member is a field of the type, or a padding field. */
  lemma MemberOfMembers(fs: seq<Field>, padded: bool, i: nat) returns (j: nat)
    requires i < |Members(fs, padded)|
    ensures var m := Members(fs, padded)[i];
            (j < |fs| && m == fs[j]) || (padded && m.typ == Builtin(UInt8))
  {
    j := i;
    if padded {
      SortIsSorted(fs);
      var k, n := OnePadding(Sort(fs), 0, 0);
      j := MemberOfPadded(Sort(fs), Generated(fs).fields, k, n, PaddingField(0, n), i);
    }
    if j < |Sort(fs)| {
      j := MemberOfSorted(fs, j);
    }
  }

  lemma MemberOfPadded(sorted: seq<Field>, ms: seq<Field>, k: nat, n: nat, p: Field, i: nat) returns (j: nat)
    requires k <= |sorted| && i < |ms| && ms == if n == 0 then sorted else sorted[..k] + [p] + sorted[k..]
    ensures if j < |sorted| then ms[i] == sorted[j] else ms[i] == p
  {
    j := if n == 0 || i < k then i else if i == k then |sorted| else i - 1;
  }

  lemma MembersDepth(fs: seq<Field>, padded: bool)
    ensures MaxDepth(Members(fs, padded)) <= MaxDepth(fs)
  {
    var ms := Members(fs, padded);
    forall i | 0 <= i < |ms|
      ensures Depth(ms[i].typ) <= MaxDepth(fs)
    {
      var j := MemberOfMembers(fs, padded, i);
      if j < |fs| && ms[i] == fs[j] {
        DepthOfMember(fs, j);
      }
    }
    DepthBound(ms, MaxDepth(fs));
  }

  // The C types that the fields are declared with.

  /** `intN_t`, `uintN_t`, `float`, `double`, `bool` and `char`. */
  datatype CType = IntN(bits: nat) | UIntN(bits: nat) | CFloat | CDouble | CBool | CChar

  /** The type map of the generator. */
  function Declaration(k: Kind): CType {
    match k
    case Int8 => IntN(8)
    case Int16 => IntN(16)
    case Int32 => IntN(32)
    case Int64 => IntN(64)
    case UInt8 => UIntN(8)
    case UInt16 => UIntN(16)
    case UInt32 => UIntN(32)
    case UInt64 => UIntN(64)
    case Float32 => CFloat
    case Float64 => CDouble
    case Bool => CBool
    case Char => CChar
  }

  /** Width in bits: exact-width integers, IEC 60559 single and double precision, one byte for the others. */
  function Width(c: CType): nat {
    match c
    case IntN(bits) => bits
    case UIntN(bits) => bits
    case CFloat => 32
    case CDouble => 64
    case CBool => 8
    case CChar => 8
  }

  /** Bytes of eight bits; a type of n bytes is naturally aligned to n. */
  function ScalarSize(k: Kind): (n: nat)
    ensures IsAlignment(n) && 8 * n == Width(Declaration(k))
  {
    Width(Declaration(k)) / 8
  }

  /** The generator's size table is right for the types that it declares. */
  lemma SizesAgree(k: Kind)
    ensures KindSize(k) == ScalarSize(k)
  {
  }

  /** The sizes in numbers. */
  lemma ScalarSizes()
    ensures KindSize(Int8) == KindSize(UInt8) == KindSize(Bool) == KindSize(Char) == 1
    ensures KindSize(Int16) == KindSize(UInt16) == 2
    ensures KindSize(Int32) == KindSize(UInt32) == KindSize(Float32) == 4
    ensures KindSize(Int64) == KindSize(UInt64) == KindSize(Float64) == 8
  {
  }

  /** Rounding up to an alignment gives the next multiple of it. */
  lemma AlignUpIsNext(pos: nat, a: nat)
    requires IsAlignment(a)
    ensures Over(pos, a) == pos % a
    ensures pos <= AlignUp(pos, a) < pos + a && AlignUp(pos, a) % a == 0
  {
    if a == 8 {
      NextOf8(pos);
    } else if a == 4 {
      NextOf4(pos);
    } else if a == 2 {
      NextOf2(pos);
    } else {
      assert pos % 1 == 0;
    }
  }

  lemma NextOf8(pos: nat)
    ensures pos % 8 != 0 ==> (pos + (8 - pos % 8)) % 8 == 0
  {
    assert pos + (8 - pos % 8) == 8 * (pos / 8 + 1);
  }

  lemma NextOf4(pos: nat)
    ensures pos % 4 != 0 ==> (pos + (4 - pos % 4)) % 4 == 0
  {
    assert pos + (4 - pos % 4) == 4 * (pos / 4 + 1);
  }

  lemma NextOf2(pos: nat)
    ensures pos % 2 != 0 ==> (pos + (2 - pos % 2)) % 2 == 0
  {
    assert pos + (2 - pos % 2) == 2 * (pos / 2 + 1);
  }

  // `_Alignof` and `sizeof`.

  function NaturalAlign(t: Type, padded: bool): (a: nat)
    ensures IsAlignment(a)
    decreases Depth(t), 0, 0
  {
    match t
    case Builtin(k) => ScalarSize(k)
    case Embedded(fs) =>
      MembersDepth(fs, padded);
      StrictestAlign(Members(fs, padded), padded)
  }

  /** A struct is aligned as its strictest member. */
  function StrictestAlign(ms: seq<Field>, padded: bool): (a: nat)
    ensures IsAlignment(a)
    decreases MaxDepth(ms), 1, |ms|
  {
    if |ms| == 0 then 1 else Max(NaturalAlign(ms[0].typ, padded), StrictestAlign(ms[1..], padded))
  }

  function SizeOf(t: Type, padded: bool): nat
    decreases Depth(t), 0, 0
  {
    match t
    case Builtin(k) => ScalarSize(k)
    case Embedded(fs) =>
      MembersDepth(fs, padded);
      var ms := Members(fs, padded);
      AlignUp(EndOf(ms, 0, padded), StrictestAlign(ms, padded))
  }

  /** Position after the last member, each placed at the next multiple of its alignment. */
  function EndOf(ms: seq<Field>, pos: nat, padded: bool): nat
    decreases MaxDepth(ms), 1, |ms|
  {
    if |ms| == 0 then pos else
    var size := SizeOf(ms[0].typ, padded) * ms[0].count;
    EndOf(ms[1..], AlignUp(pos, NaturalAlign(ms[0].typ, padded)) + size, padded)
  }

  /** Every member directly follows the one before it: the compiler inserts nothing. */
  predicate NoGaps(ms: seq<Field>, pos: nat, padded: bool)
    decreases |ms|
  {
    |ms| > 0 ==>
      && Over(pos, NaturalAlign(ms[0].typ, padded)) == 0
      && NoGaps(ms[1..], pos + SizeOf(ms[0].typ, padded) * ms[0].count, padded)
  }

  // Agreement.

  /** The compiler and the generator agree on a type. */
  predicate Agree(t: Type, padded: bool) {
    SizeOf(t, padded) == TypeSize(t) && NaturalAlign(t, padded) == Align(t)
  }

  ghost predicate MembersAgree(ms: seq<Field>, padded: bool) {
    forall i :: 0 <= i < |ms| ==> Agree(ms[i].typ, padded)
  }

  lemma {:induction false} SameEnd(ms: seq<Field>, pos: nat, padded: bool)
    requires MembersAgree(ms, padded)
    ensures EndOf(ms, pos, padded) == CEnd(ms, pos)
    ensures NoGaps(ms, pos, padded) <==> Tight(ms, pos)
    decreases |ms|
  {
    if |ms| == 0 {
    } else {
      MembersAgreeRest(ms, padded);
      EndStep(ms, pos, padded);
      GapStep(ms, pos, padded);
      SameEnd(ms[1..], AlignUp(pos, AlignOf(ms[0])) + Extent(ms[0]), padded);
      SameEnd(ms[1..], pos + Extent(ms[0]), padded);
    }
  }

  /** The first member, when compiler and generator agree on it. */
  lemma EndStep(ms: seq<Field>, pos: nat, padded: bool)
    requires |ms| > 0 && Agree(ms[0].typ, padded) && SizeOf(ms[0].typ, padded) * ms[0].count == Extent(ms[0])
    ensures EndOf(ms, pos, padded) == EndOf(ms[1..], AlignUp(pos, AlignOf(ms[0])) + Extent(ms[0]), padded)
  {
  }

  lemma GapStep(ms: seq<Field>, pos: nat, padded: bool)
    requires |ms| > 0 && Agree(ms[0].typ, padded) && SizeOf(ms[0].typ, padded) * ms[0].count == Extent(ms[0])
    ensures NoGaps(ms, pos, padded) <==>
              Over(pos, AlignOf(ms[0])) == 0 && NoGaps(ms[1..], pos + Extent(ms[0]), padded)
  {
  }

  lemma MembersAgreeRest(ms: seq<Field>, padded: bool)
    requires |ms| > 0 && MembersAgree(ms, padded)
    ensures Agree(ms[0].typ, padded) && MembersAgree(ms[1..], padded)
    ensures SizeOf(ms[0].typ, padded) * ms[0].count == Extent(ms[0])
  {
    assert Agree(ms[0].typ, padded);
  }

  lemma {:induction false} SameAlign(ms: seq<Field>, padded: bool)
    requires MembersAgree(ms, padded)
    ensures StrictestAlign(ms, padded) == MaxAlign(ms)
  {
    if |ms| == 0 {
    } else {
      MembersAgreeRest(ms, padded);
      SameAlign(ms[1..], padded);
    }
  }

  /** A struct whose members agree has the size that their layout gives. */
  lemma StructSize(fs: seq<Field>, padded: bool)
    requires MembersAgree(Members(fs, padded), padded)
    ensures SizeOf(Embedded(fs), padded) == CSize(Members(fs, padded))
    ensures NaturalAlign(Embedded(fs), padded) == MaxAlign(Members(fs, padded))
    ensures NoGaps(Members(fs, padded), 0, padded) <==> Tight(Members(fs, padded), 0)
  {
    SameEnd(Members(fs, padded), 0, padded);
    SameAlign(Members(fs, padded), padded);
  }

  /** What holds of the fields of a type holds of the members of its struct. */
  lemma AllMembersAgree(fs: seq<Field>, padded: bool)
    requires forall i :: 0 <= i < |fs| ==> Agree(fs[i].typ, padded)
    ensures MembersAgree(Members(fs, padded), padded)
  {
    var ms := Members(fs, padded);
    forall i | 0 <= i < |ms|
      ensures Agree(ms[i].typ, padded)
    {
      var j := MemberOfMembers(fs, padded, i);
      if j < |fs| && ms[i] == fs[j] {
        assert Agree(fs[j].typ, padded);
      } else {
        SizesAgree(UInt8);
      }
    }
  }

  /**
   * Layout agreement, for every message type: the compiler gives the generated struct exactly
   * the size that the generator returned, a multiple of 8, and inserts no padding of its own.
   */
  lemma {:induction false} LayoutAgreement(t: Type)
    ensures SizeOf(t, true) == TypeSize(t) && NaturalAlign(t, true) == Align(t)
    ensures t.Embedded? ==>
              var g := Generated(t.fields);
              SizeOf(t, true) == g.size && g.size % 8 == 0 && NoGaps(g.fields, 0, true)
    decreases t
  {
    if t.Builtin? {
      SizesAgree(t.kind);
    } else {
      forall i | 0 <= i < |t.fields|
        ensures Agree(t.fields[i].typ, true)
      {
        LayoutAgreement(t.fields[i].typ);
      }
      AllMembersAgree(t.fields, true);
      StructSize(t.fields, true);
      StructAgrees(t.fields);
    }
  }

  // Without the padding fields.

  /** Every struct has a member of 8 bytes, as every message has a 64-bit timestamp. */
  ghost predicate HasTimestamps(t: Type)
    decreases t
  {
    t.Embedded? ==>
      && (exists i :: 0 <= i < |t.fields| && Key(t.fields[i]) == 8)
      && forall i :: 0 <= i < |t.fields| ==> HasTimestamps(t.fields[i].typ)
  }

  lemma TimestampAligns(t: Type)
    requires HasTimestamps(t) && t.Embedded?
    ensures Align(t) == 8
  {
    var k :| 0 <= k < |t.fields| && Key(t.fields[k]) == 8;
    AlignAtLeast(t.fields, k);
  }

  /**
   * With a timestamp in every struct, the compiler gives the structs without any padding
   * fields, at every depth, the same sizes: 8 is the right alignment.
   */
  lemma {:induction false} UnpaddedAgrees(t: Type)
    requires HasTimestamps(t)
    ensures SizeOf(t, false) == SizeOf(t, true) == TypeSize(t) && NaturalAlign(t, false) == NaturalAlign(t, true)
    decreases t
  {
    LayoutAgreement(t);
    if t.Builtin? {
    } else {
      forall i | 0 <= i < |t.fields|
        ensures Agree(t.fields[i].typ, false)
        ensures t.fields[i].typ.Embedded? ==> Align(t.fields[i].typ) == 8
      {
        UnpaddedAgrees(t.fields[i].typ);
        LayoutAgreement(t.fields[i].typ);
        if t.fields[i].typ.Embedded? {
          TimestampAligns(t.fields[i].typ);
        }
      }
      AllMembersAgree(t.fields, false);
      StructSize(t.fields, false);
      var k :| 0 <= k < |t.fields| && Key(t.fields[k]) == 8;
      UnpaddedStruct(t.fields, k);
      TimestampAligns(t);
    }
  }
}
