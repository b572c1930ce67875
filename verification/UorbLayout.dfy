/**
 * Padding of uORB message structs (msg/tools/px_generate_uorb_topic_helper.py): the order
 * and the padding that leave the C compiler no padding to insert.
 */
module UorbLayout {
  import opened Bytes

  // Message types. A type that embeds others is the finite tree of their definitions.

  datatype Kind =
    | Int8 | Int16 | Int32 | Int64 | UInt8 | UInt16 | UInt32 | UInt64
    | Float32 | Float64 | Bool | Char

  datatype Type = Builtin(kind: Kind) | Embedded(fields: seq<Field>)

  /** A declared name, or that of the padding field with a number. */
  datatype Name = Declared(text: string) | Padding(index: nat) {
    function Text(): string {
      match this
      case Declared(text) => text
      case Padding(index) => "_padding" + Decimal(index)
    }
  }

  function Decimal(n: nat): string {
    if n < 10 then ["0123456789"[n]] else Decimal(n / 10) + ["0123456789"[n % 10]]
  }

  function DigitValue(c: char): nat {
    if '0' <= c <= '9' then (c - '0') as nat else 0
  }

  /** The number that a string of decimal digits stands for. */
  function ReadDecimal(s: string): nat {
    if |s| == 0 then 0 else 10 * ReadDecimal(s[..|s| - 1]) + DigitValue(s[|s| - 1])
  }

  /** The name of a padding field is `_padding` and its number, in digits without a leading zero. */
  lemma PaddingName(index: nat)
    ensures var text := Padding(index).Text();
            && |text| > 8 && text[..8] == "_padding" && ReadDecimal(text[8..]) == index
            && (forall c :: c in text[8..] ==> '0' <= c <= '9') && (text[8] == '0' ==> index == 0)
  {
    DecimalDigits(index);
    var text := Padding(index).Text();
    assert text[..8] == "_padding" && text[8..] == Decimal(index);
  }

  lemma {:induction false} DecimalDigits(n: nat)
    ensures |Decimal(n)| > 0 && ReadDecimal(Decimal(n)) == n && (Decimal(n)[0] == '0' ==> n == 0)
    ensures forall c :: c in Decimal(n) ==> '0' <= c <= '9'
  {
    Digit(n % 10);
    if n < 10 {
    } else {
      DecimalDigits(n / 10);
      assert Decimal(n)[..|Decimal(n)| - 1] == Decimal(n / 10);
    }
  }

  lemma Digit(n: nat)
    requires n < 10
    ensures DigitValue("0123456789"[n]) == n && '0' <= "0123456789"[n] <= '9' && ("0123456789"[n] == '0' ==> n == 0)
  {
  }

  /** A field; `count` is its array length, 1 for a field that is not an array. */
  datatype Field = Field(name: Name, typ: Type, count: nat)

  function KindSize(k: Kind): (n: nat)
    ensures n == 1 || n == 2 || n == 4 || n == 8
  {
    match k
    case Int8 => 1
    case Int16 => 2
    case Int32 => 4
    case Int64 => 8
    case UInt8 => 1
    case UInt16 => 2
    case UInt32 => 4
    case UInt64 => 8
    case Float32 => 4
    case Float64 => 8
    case Bool => 1
    case Char => 1
  }

  // The order of the fields.

  /** The sort key: embedded types go to the end. */
  function Key(f: Field): (k: nat)
    ensures k == 0 || k == 1 || k == 2 || k == 4 || k == 8
  {
    if f.typ.Builtin? then KindSize(f.typ.kind) else 0
  }

  /** The fields with one key, in their given order. */
  function WithKey(fs: seq<Field>, key: nat): seq<Field> {
    if |fs| == 0 then [] else Only(fs[0], key) + WithKey(fs[1..], key)
  }

  function Only(f: Field, key: nat): seq<Field> {
    if Key(f) == key then [f] else []
  }

  /** A stable sort by descending key. */
  function Sort(fs: seq<Field>): seq<Field> {
    WithKey(fs, 8) + WithKey(fs, 4) + WithKey(fs, 2) + WithKey(fs, 1) + WithKey(fs, 0)
  }

  ghost predicate Descending(fs: seq<Field>) {
    forall i, j :: 0 <= i < j < |fs| ==> Key(fs[i]) >= Key(fs[j])
  }

  lemma {:induction false} WithKeyOnly(fs: seq<Field>, key: nat)
    ensures forall i :: 0 <= i < |WithKey(fs, key)| ==> Key(WithKey(fs, key)[i]) == key
  {
    if |fs| == 0 {
    } else {
      WithKeyOnly(fs[1..], key);
    }
  }

  /** Sorting orders the fields by descending size. */
  lemma SortIsSorted(fs: seq<Field>)
    ensures Descending(Sort(fs))
  {
    WithKeyOnly(fs, 8);
    WithKeyOnly(fs, 4);
    WithKeyOnly(fs, 2);
    WithKeyOnly(fs, 1);
    WithKeyOnly(fs, 0);
  }

  lemma {:induction false} WithKeyCount(fs: seq<Field>, key: nat, f: Field)
    ensures multiset(WithKey(fs, key))[f] == if Key(f) == key then multiset(fs)[f] else 0
  {
    if |fs| == 0 {
    } else {
      WithKeyCount(fs[1..], key, f);
      assert fs == [fs[0]] + fs[1..];
    }
  }

  lemma SortCount(fs: seq<Field>, f: Field)
    ensures multiset(Sort(fs))[f]
         == multiset(WithKey(fs, 8))[f] + multiset(WithKey(fs, 4))[f] + multiset(WithKey(fs, 2))[f]
            + multiset(WithKey(fs, 1))[f] + multiset(WithKey(fs, 0))[f]
  {
  }

  lemma SortKeepsAll(fs: seq<Field>)
    ensures multiset(Sort(fs)) == multiset(fs)
  {
    forall f: Field
      ensures multiset(Sort(fs))[f] == multiset(fs)[f]
    {
      SortCount(fs, f);
      WithKeyCount(fs, 8, f);
      WithKeyCount(fs, 4, f);
      WithKeyCount(fs, 2, f);
      WithKeyCount(fs, 1, f);
      WithKeyCount(fs, 0, f);
    }
  }

  lemma {:induction false} WithKeyConcat(a: seq<Field>, b: seq<Field>, key: nat)
    ensures WithKey(a + b, key) == WithKey(a, key) + WithKey(b, key)
  {
    if |a| == 0 {
      assert a + b == b;
    } else {
      WithKeyConcat(a[1..], b, key);
      assert (a + b)[0] == a[0] && (a + b)[1..] == a[1..] + b;
      Assoc(Only(a[0], key), WithKey(a[1..], key), WithKey(b, key));
    }
  }

  lemma {:induction false} WithKeyOfGroup(fs: seq<Field>, group: nat, key: nat)
    requires forall i :: 0 <= i < |fs| ==> Key(fs[i]) == group
    ensures WithKey(fs, key) == if group == key then fs else []
  {
    if |fs| == 0 {
    } else {
      WithKeyOfGroup(fs[1..], group, key);
    }
  }

  /** Fields of one size keep the order in which they are declared. */
  lemma SortIsStable(fs: seq<Field>, key: nat)
    requires key == 0 || key == 1 || key == 2 || key == 4 || key == 8
    ensures WithKey(Sort(fs), key) == WithKey(fs, key)
  {
    WithKeyConcat5(WithKey(fs, 8), WithKey(fs, 4), WithKey(fs, 2), WithKey(fs, 1), WithKey(fs, 0), key);
    GroupWithin(fs, 8, key);
    GroupWithin(fs, 4, key);
    GroupWithin(fs, 2, key);
    GroupWithin(fs, 1, key);
    GroupWithin(fs, 0, key);
    OneOfFive(WithKey(fs, key));
  }

  lemma OneOfFive(g: seq<Field>)
    ensures g + [] == g && [] + g == g && [] + [] == g[..0]
  {
  }

  lemma WithKeyConcat5(a: seq<Field>, b: seq<Field>, c: seq<Field>, d: seq<Field>, e: seq<Field>, key: nat)
    ensures WithKey(a + b + c + d + e, key)
         == WithKey(a, key) + WithKey(b, key) + WithKey(c, key) + WithKey(d, key) + WithKey(e, key)
  {
    WithKeyConcat(a + b + c + d, e, key);
    WithKeyConcat(a + b + c, d, key);
    WithKeyConcat(a + b, c, key);
    WithKeyConcat(a, b, key);
  }

  lemma GroupWithin(fs: seq<Field>, group: nat, key: nat)
    ensures WithKey(WithKey(fs, group), key) == if group == key then WithKey(fs, key) else []
  {
    WithKeyOnly(fs, group);
    WithKeyOfGroup(WithKey(fs, group), group, key);
  }

  // Sizes.

  function RoundUp8(n: nat): (r: nat)
    ensures n <= r < n + 8
  {
    n + PaddingBefore(n)
  }

  lemma RoundUp8Aligns(n: nat)
    ensures RoundUp8(n) % 8 == 0
  {
  }

  function PaddingBefore(size: nat): (n: nat)
    ensures n <= 7
  {
    if size % 8 == 0 then 0 else 8 - size % 8
  }

  /** Size of one element: a struct is its builtin fields, padded to 8, and then its embedded ones. */
  function TypeSize(t: Type): nat
    decreases t
  {
    match t
    case Builtin(k) => KindSize(k)
    case Embedded(fs) => RoundUp8(BuiltinBytes(fs)) + EmbeddedBytes(fs)
  }

  function BuiltinBytes(fs: seq<Field>): nat {
    if |fs| == 0 then 0 else (if fs[0].typ.Builtin? then Extent(fs[0]) else 0) + BuiltinBytes(fs[1..])
  }

  function EmbeddedBytes(fs: seq<Field>): nat
    decreases fs
  {
    if |fs| == 0 then 0 else
    (if fs[0].typ.Embedded? then Extent(fs[0]) else 0) + EmbeddedBytes(fs[1..])
  }

  /** The bytes that a field takes up. */
  function Extent(f: Field): nat {
    TypeSize(f.typ) * f.count
  }

  lemma MultipleOf8(a: nat, b: nat)
    requires a % 8 == 0
    ensures (a * b) % 8 == 0
  {
    var q := a / 8;
    assert a * b == 8 * (q * b);
  }

  lemma SumOf8(a: nat, b: nat)
    requires a % 8 == 0 && b % 8 == 0
    ensures (a + b) % 8 == 0
  {
  }

  lemma {:induction false} EmbeddedMultipleOf8(fs: seq<Field>)
    ensures EmbeddedBytes(fs) % 8 == 0
    decreases fs
  {
    if |fs| == 0 {
    } else {
      EmbeddedMultipleOf8(fs[1..]);
      if fs[0].typ.Embedded? {
        assert fs decreases to fs[0];
        EmbeddedMultipleOf8(fs[0].typ.fields);
        RoundUp8Aligns(BuiltinBytes(fs[0].typ.fields));
        SumOf8(RoundUp8(BuiltinBytes(fs[0].typ.fields)), EmbeddedBytes(fs[0].typ.fields));
        MultipleOf8(TypeSize(fs[0].typ), fs[0].count);
        SumOf8(Extent(fs[0]), EmbeddedBytes(fs[1..]));
      }
    }
  }

  lemma StructMultipleOf8(fs: seq<Field>)
    ensures TypeSize(Embedded(fs)) % 8 == 0
  {
    EmbeddedMultipleOf8(fs);
    RoundUp8Aligns(BuiltinBytes(fs));
    SumOf8(RoundUp8(BuiltinBytes(fs)), EmbeddedBytes(fs));
  }

  lemma FieldMultipleOf8(f: Field)
    requires f.typ.Embedded?
    ensures Extent(f) % 8 == 0
  {
    StructMultipleOf8(f.typ.fields);
    MultipleOf8(TypeSize(f.typ), f.count);
  }

  lemma AfterStruct(size: nat, bytes: nat)
    requires bytes % 8 == 0
    ensures (RoundUp8(size) + bytes) % 8 == 0
    ensures RoundUp8(RoundUp8(size) + bytes) == RoundUp8(size) + bytes
  {
  }

  // The padding algorithm.

  function PaddingField(index: nat, n: nat): Field {
    Field(Padding(index), Builtin(UInt8), n)
  }

  /** A padding field, when there is padding to add. */
  function Lead(index: nat, n: nat): seq<Field> {
    if n == 0 then [] else [PaddingField(index, n)]
  }

  /** The fields with their padding, the struct's size and the padding at its end. */
  datatype Padded = Padded(fields: seq<Field>, size: nat, tail: nat)

  /** What `add_padding_bytes` does to the fields that are left, at running size `size`. */
  function Pad(fs: seq<Field>, size: nat, index: nat): Padded {
    if |fs| == 0 then
      var n := PaddingBefore(size);
      Padded(Lead(index, n), size + n, n)
    else
      var f := fs[0];
      var n := if f.typ.Builtin? then 0 else PaddingBefore(size);
      var rest := Pad(fs[1..], size + n + Extent(f), if n == 0 then index else index + 1);
      rest.(fields := Lead(index, n) + ([f] + rest.fields))
  }

  /** The fields of the struct that is generated for a message type. */
  function Generated(fs: seq<Field>): Padded {
    Pad(Sort(fs), 0, 0)
  }

  // The size that is returned, for fields in sorted order.

  lemma EmbeddedTail(fs: seq<Field>)
    requires Descending(fs) && |fs| > 0 && fs[0].typ.Embedded?
    ensures Descending(fs[1..]) && (|fs| > 1 ==> fs[1].typ.Embedded?)
  {
    if |fs| > 1 {
      assert Key(fs[0]) >= Key(fs[1]);
    }
  }

  lemma {:induction false} EmbeddedOnly(fs: seq<Field>)
    requires Descending(fs) && (|fs| > 0 ==> fs[0].typ.Embedded?)
    ensures BuiltinBytes(fs) == 0
  {
    if |fs| == 0 {
    } else {
      EmbeddedTail(fs);
      EmbeddedOnly(fs[1..]);
    }
  }

  lemma {:induction false} PadSize(fs: seq<Field>, size: nat, index: nat)
    requires Descending(fs)
    ensures Pad(fs, size, index).size == RoundUp8(size + BuiltinBytes(fs)) + EmbeddedBytes(fs)
    decreases |fs|
  {
    if |fs| == 0 {
    } else {
      DescendingRest(fs);
      if fs[0].typ.Builtin? {
        var next := size + Extent(fs[0]);
        PadSize(fs[1..], next, index);
        PadSizeBuiltin(fs, size, index, next);
      } else {
        var next, index' := RoundUp8(size) + Extent(fs[0]), if PaddingBefore(size) == 0 then index else index + 1;
        PadSize(fs[1..], next, index');
        PadSizeEmbedded(fs, size, index, next, index');
      }
    }
  }

  lemma DescendingRest(fs: seq<Field>)
    requires Descending(fs) && |fs| > 0
    ensures Descending(fs[1..])
  {
  }

  lemma PadSizeBuiltin(fs: seq<Field>, size: nat, index: nat, next: nat)
    requires |fs| > 0 && fs[0].typ.Builtin? && next == size + Extent(fs[0])
    requires Pad(fs[1..], next, index).size == RoundUp8(next + BuiltinBytes(fs[1..])) + EmbeddedBytes(fs[1..])
    ensures Pad(fs, size, index).size == RoundUp8(size + BuiltinBytes(fs)) + EmbeddedBytes(fs)
  {
    PadCons(fs, size, index);
    BytesCons(fs, size);
    SumAfterBuiltin(size, Extent(fs[0]), BuiltinBytes(fs[1..]), BuiltinBytes(fs));
  }

  lemma PadSizeEmbedded(fs: seq<Field>, size: nat, index: nat, next: nat, index': nat)
    requires Descending(fs) && |fs| > 0 && fs[0].typ.Embedded?
    requires next == RoundUp8(size) + Extent(fs[0]) && index' == if PaddingBefore(size) == 0 then index else index + 1
    requires Pad(fs[1..], next, index').size == RoundUp8(next + BuiltinBytes(fs[1..])) + EmbeddedBytes(fs[1..])
    ensures Pad(fs, size, index).size == RoundUp8(size + BuiltinBytes(fs)) + EmbeddedBytes(fs)
  {
    PadCons(fs, size, index);
    BytesCons(fs, size);
    NoBuiltins(fs);
    SizeStaysRound(size, fs[0]);
    SumAfterStruct(size, Extent(fs[0]), BuiltinBytes(fs[1..]), BuiltinBytes(fs));
  }

  lemma SumAfterBuiltin(size: nat, bytes: nat, rest: nat, all: nat)
    requires all == bytes + rest
    ensures RoundUp8(size + bytes + rest) == RoundUp8(size + all)
  {
    assert size + bytes + rest == size + all;
  }

  lemma SumAfterStruct(size: nat, bytes: nat, rest: nat, all: nat)
    requires all == 0 == rest && RoundUp8(RoundUp8(size) + bytes) == RoundUp8(size) + bytes
    ensures RoundUp8(RoundUp8(size) + bytes + rest) == RoundUp8(size + all) + bytes
  {
    assert RoundUp8(size) + bytes + rest == RoundUp8(size) + bytes && size + all == size;
  }

  lemma BytesCons(fs: seq<Field>, size: nat)
    requires |fs| > 0
    ensures if fs[0].typ.Builtin? then
              && size + BuiltinBytes(fs) == size + Extent(fs[0]) + BuiltinBytes(fs[1..])
              && EmbeddedBytes(fs) == EmbeddedBytes(fs[1..])
            else EmbeddedBytes(fs) == Extent(fs[0]) + EmbeddedBytes(fs[1..])
  {
  }

  lemma NoBuiltins(fs: seq<Field>)
    requires Descending(fs) && |fs| > 0 && fs[0].typ.Embedded?
    ensures Descending(fs[1..]) && BuiltinBytes(fs) == BuiltinBytes(fs[1..]) == 0
  {
    EmbeddedOnly(fs);
    EmbeddedTail(fs);
    EmbeddedOnly(fs[1..]);
  }

  lemma SizeStaysRound(size: nat, f: Field)
    requires f.typ.Embedded?
    ensures RoundUp8(RoundUp8(size) + Extent(f)) == RoundUp8(size) + Extent(f)
  {
    FieldMultipleOf8(f);
    AfterStruct(size, Extent(f));
  }

  lemma {:induction false} BytesConcat(a: seq<Field>, b: seq<Field>)
    ensures BuiltinBytes(a + b) == BuiltinBytes(a) + BuiltinBytes(b)
    ensures EmbeddedBytes(a + b) == EmbeddedBytes(a) + EmbeddedBytes(b)
  {
    if |a| == 0 {
      assert a + b == b;
    } else {
      BytesConcat(a[1..], b);
      assert (a + b)[1..] == a[1..] + b;
    }
  }

  lemma WithKeyStep(fs: seq<Field>, key: nat)
    requires |fs| > 0
    ensures BuiltinBytes(WithKey(fs, key))
         == (if Key(fs[0]) == key && fs[0].typ.Builtin? then Extent(fs[0]) else 0) + BuiltinBytes(WithKey(fs[1..], key))
    ensures EmbeddedBytes(WithKey(fs, key))
         == (if Key(fs[0]) == key && fs[0].typ.Embedded? then Extent(fs[0]) else 0)
            + EmbeddedBytes(WithKey(fs[1..], key))
  {
    if Key(fs[0]) == key {
      assert WithKey(fs, key)[1..] == WithKey(fs[1..], key);
    } else {
      assert WithKey(fs, key) == WithKey(fs[1..], key);
    }
  }

  lemma {:induction false} WithKeyBytes(fs: seq<Field>)
    ensures BuiltinBytes(WithKey(fs, 0)) == 0 && EmbeddedBytes(WithKey(fs, 0)) == EmbeddedBytes(fs)
    ensures EmbeddedBytes(WithKey(fs, 1)) == EmbeddedBytes(WithKey(fs, 2)) == EmbeddedBytes(WithKey(fs, 4))
         == EmbeddedBytes(WithKey(fs, 8)) == 0
    ensures BuiltinBytes(WithKey(fs, 8)) + BuiltinBytes(WithKey(fs, 4)) + BuiltinBytes(WithKey(fs, 2))
            + BuiltinBytes(WithKey(fs, 1)) == BuiltinBytes(fs)
  {
    if |fs| == 0 {
    } else {
      WithKeyBytes(fs[1..]);
      WithKeyStep(fs, 8);
      WithKeyStep(fs, 4);
      WithKeyStep(fs, 2);
      WithKeyStep(fs, 1);
      WithKeyStep(fs, 0);
    }
  }

  lemma SortKeepsBytes(fs: seq<Field>)
    ensures BuiltinBytes(Sort(fs)) == BuiltinBytes(fs) && EmbeddedBytes(Sort(fs)) == EmbeddedBytes(fs)
  {
    WithKeyBytes(fs);
    var a, b, c, d, e := WithKey(fs, 8), WithKey(fs, 4), WithKey(fs, 2), WithKey(fs, 1), WithKey(fs, 0);
    BytesConcat(a + b + c + d, e);
    BytesConcat(a + b + c, d);
    BytesConcat(a + b, c);
    BytesConcat(a, b);
  }

  /** The size returned for a message type is the size that embedding it costs, a multiple of 8. */
  lemma GeneratedSize(fs: seq<Field>)
    ensures Generated(fs).size == TypeSize(Embedded(fs)) && Generated(fs).size % 8 == 0
  {
    SortIsSorted(fs);
    SortKeepsBytes(fs);
    PadSize(Sort(fs), 0, 0);
    StructMultipleOf8(fs);
  }

  // Where the padding goes.

  /** The fields with a padding field of `n` bytes in front of field `k`, or as they are. */
  function Inserted(fs: seq<Field>, k: nat, index: nat, n: nat): seq<Field>
    requires k <= |fs|
  {
    if n == 0 then fs else fs[..k] + [PaddingField(index, n)] + fs[k..]
  }

  /** At most one padding field of 1 to 7 bytes is added; the fields stay, in order. */
  lemma {:induction false} OnePadding(fs: seq<Field>, size: nat, index: nat) returns (k: nat, n: nat)
    requires Descending(fs)
    ensures k <= |fs| && n <= 7
    ensures Pad(fs, size, index).fields == Inserted(fs, k, index, n)
    decreases |fs|
  {
    if |fs| == 0 {
      k, n := 0, PaddingBefore(size);
      PaddingAlone(fs, size, index);
    } else if fs[0].typ.Builtin? {
      var j;
      DescendingRest(fs);
      j, n := OnePadding(fs[1..], size + Extent(fs[0]), index);
      k := j + 1;
      OnePaddingBehind(fs, size, index, j, n);
    } else {
      k, n := 0, PaddingBefore(size);
      PaddingInFront(fs, size, index);
    }
  }

  lemma PaddingAlone(fs: seq<Field>, size: nat, index: nat)
    requires |fs| == 0
    ensures Pad(fs, size, index).fields == Inserted(fs, 0, index, PaddingBefore(size))
  {
    assert Pad(fs, size, index).fields == Lead(index, PaddingBefore(size));
  }

  lemma OnePaddingBehind(fs: seq<Field>, size: nat, index: nat, j: nat, n: nat)
    requires |fs| > 0 && fs[0].typ.Builtin? && j <= |fs| - 1
    requires Pad(fs[1..], size + Extent(fs[0]), index).fields == Inserted(fs[1..], j, index, n)
    ensures Pad(fs, size, index).fields == Inserted(fs, j + 1, index, n)
  {
    PadBuiltin(fs, size, index);
    InsertBehind(fs, j, index, n);
  }

  lemma PadBuiltin(fs: seq<Field>, size: nat, index: nat)
    requires |fs| > 0 && fs[0].typ.Builtin?
    ensures Pad(fs, size, index).fields == [fs[0]] + Pad(fs[1..], size + Extent(fs[0]), index).fields
  {
    PadCons(fs, size, index);
    NoLead(index, [fs[0]] + Pad(fs[1..], size + Extent(fs[0]), index).fields);
  }

  lemma NoLead(index: nat, rest: seq<Field>)
    ensures Lead(index, 0) + rest == rest
  {
  }

  /** Inserting a field behind the first one. */
  lemma InsertBehind(fs: seq<Field>, j: nat, index: nat, n: nat)
    requires |fs| > 0 && j <= |fs| - 1
    ensures [fs[0]] + Inserted(fs[1..], j, index, n) == Inserted(fs, j + 1, index, n)
  {
  }

  lemma PaddingInFront(fs: seq<Field>, size: nat, index: nat)
    requires Descending(fs) && |fs| > 0 && fs[0].typ.Embedded?
    ensures Pad(fs, size, index).fields == Inserted(fs, 0, index, PaddingBefore(size))
  {
    RestUnpadded(fs, size, if PaddingBefore(size) == 0 then index else index + 1);
    PadStep(fs, size, index);
    Front(fs, PaddingField(index, PaddingBefore(size)));
  }

  lemma RestUnpadded(fs: seq<Field>, size: nat, index: nat)
    requires Descending(fs) && |fs| > 0 && fs[0].typ.Embedded?
    ensures Pad(fs[1..], size + PaddingBefore(size) + Extent(fs[0]), index).fields == fs[1..]
  {
    EmbeddedTail(fs);
    FieldMultipleOf8(fs[0]);
    AfterStruct(size, Extent(fs[0]));
    NoPadding(fs[1..], RoundUp8(size) + Extent(fs[0]), index);
  }

  lemma Front(fs: seq<Field>, f: Field)
    requires |fs| > 0
    ensures [fs[0]] + fs[1..] == fs && [f] + fs == fs[..0] + [f] + fs[0..]
  {
  }

  /** The algorithm's step at a field that is an embedded type. */
  lemma PadStep(fs: seq<Field>, size: nat, index: nat)
    requires |fs| > 0 && fs[0].typ.Embedded?
    ensures var n := PaddingBefore(size);
            var rest := Pad(fs[1..], size + n + Extent(fs[0]), if n == 0 then index else index + 1);
            Pad(fs, size, index).fields
            == if n == 0 then [fs[0]] + rest.fields else [PaddingField(index, n)] + ([fs[0]] + rest.fields)
  {
  }

  /** At a multiple of 8, no padding is needed in front of an embedded type. */
  lemma PadEmbedded(fs: seq<Field>, size: nat, index: nat)
    requires |fs| > 0 && fs[0].typ.Embedded? && size % 8 == 0
    ensures Pad(fs, size, index).fields == [fs[0]] + Pad(fs[1..], size + Extent(fs[0]), index).fields
  {
    PadStep(fs, size, index);
  }

  lemma NextMultipleOf8(f: Field, size: nat)
    requires f.typ.Embedded? && size % 8 == 0
    ensures (size + Extent(f)) % 8 == 0
  {
    FieldMultipleOf8(f);
    SumOf8(size, Extent(f));
  }

  lemma {:induction false} NoPadding(fs: seq<Field>, size: nat, index: nat)
    requires size % 8 == 0 && Descending(fs) && (|fs| > 0 ==> fs[0].typ.Embedded?)
    ensures Pad(fs, size, index).fields == fs
    decreases |fs|
  {
    if |fs| == 0 {
    } else {
      EmbeddedTail(fs);
      NextMultipleOf8(fs[0], size);
      NoPadding(fs[1..], size + Extent(fs[0]), index);
      PadEmbedded(fs, size, index);
      assert fs == [fs[0]] + fs[1..];
    }
  }

  // The layout that a C compiler gives a struct: natural alignment of every member.

  function Align(t: Type): nat
    decreases t
  {
    match t
    case Builtin(k) => KindSize(k)
    case Embedded(fs) => MaxAlign(fs)
  }

  function MaxAlign(fs: seq<Field>): nat
    decreases fs
  {
    if |fs| == 0 then 1 else
    assert fs decreases to fs[0];
    Max(Align(fs[0].typ), MaxAlign(fs[1..]))
  }

  function Max(a: nat, b: nat): nat {
    if a >= b then a else b
  }

  predicate IsAlignment(a: nat) {
    a == 1 || a == 2 || a == 4 || a == 8
  }

  lemma {:induction false} AlignIsPower(fs: seq<Field>)
    ensures IsAlignment(MaxAlign(fs))
    decreases fs
  {
    if |fs| == 0 {
    } else {
      AlignIsPower(fs[1..]);
      if fs[0].typ.Embedded? {
        assert fs decreases to fs[0];
        AlignIsPower(fs[0].typ.fields);
      }
    }
  }

  /** `pos` modulo an alignment. */
  function Over(pos: nat, a: nat): (r: nat)
    requires IsAlignment(a)
    ensures r < a && r <= pos
  {
    if a == 8 then pos % 8 else if a == 4 then pos % 4 else if a == 2 then pos % 2 else 0
  }

  function AlignUp(pos: nat, a: nat): nat
    requires IsAlignment(a)
  {
    if Over(pos, a) == 0 then pos else pos + (a - Over(pos, a))
  }

  function AlignOf(f: Field): (a: nat)
    ensures IsAlignment(a) && a == Align(f.typ)
  {
    if f.typ.Builtin? then KindSize(f.typ.kind)
    else
      AlignIsPower(f.typ.fields);
      Align(f.typ)
  }

  /** Position after the last member, when the first is placed at or after `pos`. */
  function CEnd(fs: seq<Field>, pos: nat): nat {
    if |fs| == 0 then pos else CEnd(fs[1..], AlignUp(pos, AlignOf(fs[0])) + Extent(fs[0]))
  }

  /** `sizeof` the struct. */
  function CSize(fs: seq<Field>): nat {
    AlignIsPower(fs);
    AlignUp(CEnd(fs, 0), MaxAlign(fs))
  }

  /** Every member follows the one before it directly: the compiler inserts no padding. */
  predicate Tight(fs: seq<Field>, pos: nat) {
    |fs| > 0 ==> Over(pos, AlignOf(fs[0])) == 0 && Tight(fs[1..], pos + Extent(fs[0]))
  }

  function TotalBytes(fs: seq<Field>): nat {
    if |fs| == 0 then 0 else Extent(fs[0]) + TotalBytes(fs[1..])
  }

  lemma {:induction false} TightEnd(fs: seq<Field>, pos: nat)
    requires Tight(fs, pos)
    ensures CEnd(fs, pos) == pos + TotalBytes(fs)
  {
    if |fs| == 0 {
    } else {
      TightEnd(fs[1..], pos + Extent(fs[0]));
    }
  }

  lemma {:induction false} PadTotal(fs: seq<Field>, size: nat, index: nat)
    ensures Pad(fs, size, index).size == size + TotalBytes(Pad(fs, size, index).fields)
    decreases |fs|
  {
    if |fs| == 0 {
      LeadTotal(index, PaddingBefore(size), []);
      assert Lead(index, PaddingBefore(size)) + [] == Lead(index, PaddingBefore(size));
    } else {
      var f := fs[0];
      var n := if f.typ.Builtin? then 0 else PaddingBefore(size);
      var index' := if n == 0 then index else index + 1;
      PadTotal(fs[1..], size + n + Extent(f), index');
      PadCons(fs, size, index);
      TotalOfStep(f, index, n, Pad(fs[1..], size + n + Extent(f), index').fields);
    }
  }

  lemma TotalOfStep(f: Field, index: nat, n: nat, rest: seq<Field>)
    ensures TotalBytes(Lead(index, n) + ([f] + rest)) == n + Extent(f) + TotalBytes(rest)
  {
    TotalCons(f, rest);
    LeadTotal(index, n, [f] + rest);
  }

  lemma TotalCons(f: Field, rest: seq<Field>)
    ensures TotalBytes([f] + rest) == Extent(f) + TotalBytes(rest)
  {
    assert ([f] + rest)[1..] == rest;
  }

  lemma LeadTotal(index: nat, n: nat, rest: seq<Field>)
    ensures TotalBytes(Lead(index, n) + rest) == n + TotalBytes(rest)
  {
    if n == 0 {
      assert Lead(index, n) + rest == rest;
    } else {
      TotalCons(PaddingField(index, n), rest);
    }
  }

  lemma AlignedAt8(pos: nat, a: nat)
    requires pos % 8 == 0 && IsAlignment(a)
    ensures Over(pos, a) == 0
  {
  }

  /** After an array of a builtin type, any type that is not larger is aligned. */
  lemma StillAligned(pos: nat, f: Field, t: nat)
    requires f.typ.Builtin? && IsAlignment(t) && t <= Key(f) && Over(pos, Key(f)) == 0
    ensures Over(pos + Extent(f), t) == 0
  {
    assert Extent(f) == Key(f) * f.count;
    OverAfter(pos, Key(f), f.count);
    OverSmaller(pos + Extent(f), Key(f), t);
  }

  lemma OverAfter(pos: nat, s: nat, n: nat)
    requires IsAlignment(s)
    ensures Over(pos + s * n, s) == Over(pos, s)
  {
    if s == 8 {
      After8(pos, n);
    } else if s == 4 {
      After4(pos, n);
    } else if s == 2 {
      After2(pos, n);
    }
  }

  lemma After8(pos: nat, n: nat)
    ensures (pos + 8 * n) % 8 == pos % 8
  {
  }

  lemma After4(pos: nat, n: nat)
    ensures (pos + 4 * n) % 4 == pos % 4
  {
  }

  lemma After2(pos: nat, n: nat)
    ensures (pos + 2 * n) % 2 == pos % 2
  {
  }

  lemma OverSmaller(pos: nat, s: nat, t: nat)
    requires IsAlignment(s) && IsAlignment(t) && t <= s && Over(pos, s) == 0
    ensures Over(pos, t) == 0
  {
  }

  predicate FirstAligned(fs: seq<Field>, size: nat) {
    |fs| > 0 && fs[0].typ.Builtin? ==> Over(size, Key(fs[0])) == 0
  }

  lemma NextAligned(fs: seq<Field>, size: nat)
    requires Descending(fs) && |fs| > 0 && fs[0].typ.Builtin? && FirstAligned(fs, size)
    ensures FirstAligned(fs[1..], size + Extent(fs[0])) && Descending(fs[1..])
  {
    if |fs| > 1 && fs[1].typ.Builtin? {
      assert Key(fs[0]) >= Key(fs[1]);
      StillAligned(size, fs[0], Key(fs[1]));
    }
  }

  /** Padding leaves every member aligned. */
  lemma {:induction false} PadTight(fs: seq<Field>, size: nat, index: nat)
    requires Descending(fs) && FirstAligned(fs, size)
    ensures Tight(Pad(fs, size, index).fields, size)
    decreases |fs|
  {
    if |fs| == 0 {
    } else {
      var f := fs[0];
      if f.typ.Builtin? {
        NextAligned(fs, size);
        PadTight(fs[1..], size + Extent(f), index);
        PadCons(fs, size, index);
        TightCons(f, Pad(fs[1..], size + Extent(f), index).fields, size);
      } else {
        EmbeddedTight(fs, size, index);
      }
    }
  }

  lemma TightCons(f: Field, rest: seq<Field>, size: nat)
    requires Over(size, AlignOf(f)) == 0 && Tight(rest, size + Extent(f))
    ensures Tight([] + ([f] + rest), size)
  {
    assert [] + ([f] + rest) == [f] + rest && ([f] + rest)[1..] == rest;
  }

  lemma {:induction false} EmbeddedTight(fs: seq<Field>, size: nat, index: nat)
    requires Descending(fs) && |fs| > 0 && fs[0].typ.Embedded?
    ensures Tight(Pad(fs, size, index).fields, size)
    decreases |fs|
  {
    PaddingInFront(fs, size, index);
    RoundUp8Aligns(size);
    StructsTight(fs, RoundUp8(size));
    TightBehind(fs, size, PaddingBefore(size), index);
  }

  /** Behind a padding field, the rest is as tight as it is without. */
  lemma TightBehind(fs: seq<Field>, size: nat, n: nat, index: nat)
    requires Tight(fs, size + n)
    ensures Tight(Inserted(fs, 0, index, n), size)
  {
    if n > 0 {
      var g := fs[..0] + [PaddingField(index, n)] + fs[0..];
      assert g[0] == PaddingField(index, n) && g[1..] == fs;
    }
  }

  lemma {:induction false} StructsTight(fs: seq<Field>, pos: nat)
    requires Descending(fs) && (|fs| > 0 ==> fs[0].typ.Embedded?) && pos % 8 == 0
    ensures Tight(fs, pos)
    decreases |fs|
  {
    if |fs| == 0 {
    } else {
      EmbeddedTail(fs);
      FieldMultipleOf8(fs[0]);
      SumOf8(pos, Extent(fs[0]));
      StructsTight(fs[1..], pos + Extent(fs[0]));
      AlignedAt8(pos, AlignOf(fs[0]));
    }
  }

  // The alignment of the generated struct is that of the declared fields.

  lemma {:induction false} AlignAtMost(fs: seq<Field>, i: nat)
    requires i < |fs|
    ensures Align(fs[i].typ) <= MaxAlign(fs)
  {
    if i == 0 {
    } else {
      AlignAtMost(fs[1..], i - 1);
    }
  }

  lemma {:induction false} AlignAttained(fs: seq<Field>)
    ensures MaxAlign(fs) == 1 || exists i :: 0 <= i < |fs| && Align(fs[i].typ) == MaxAlign(fs)
  {
    if |fs| == 0 {
    } else {
      AlignAttained(fs[1..]);
      if MaxAlign(fs) == Align(fs[0].typ) {
      } else if MaxAlign(fs[1..]) != 1 {
        var i :| 0 <= i < |fs[1..]| && Align(fs[1..][i].typ) == MaxAlign(fs[1..]);
        assert fs[i + 1] == fs[1..][i];
      }
    }
  }

  /** The alignment is that of the strictest member, wherever it stands. */
  lemma SameMembersAlign(a: seq<Field>, b: seq<Field>)
    requires forall f :: f in a && Align(f.typ) > 1 ==> f in b
    ensures MaxAlign(a) <= MaxAlign(b)
  {
    AlignAttained(a);
    AlignIsPower(a);
    AlignIsPower(b);
    if MaxAlign(a) != 1 {
      var i :| 0 <= i < |a| && Align(a[i].typ) == MaxAlign(a);
      var j :| 0 <= j < |b| && b[j] == a[i];
      AlignAtMost(b, j);
    }
  }

  lemma SortKeepsAlign(fs: seq<Field>)
    ensures MaxAlign(Sort(fs)) == MaxAlign(fs)
  {
    SortKeepsAll(fs);
    assert forall f :: f in Sort(fs) <==> f in multiset(Sort(fs));
    assert forall f :: f in fs <==> f in multiset(fs);
    SameMembersAlign(fs, Sort(fs));
    SameMembersAlign(Sort(fs), fs);
  }

  lemma PaddingKeepsAlign(fs: seq<Field>)
    ensures MaxAlign(Generated(fs).fields) == MaxAlign(fs)
  {
    var sorted := Sort(fs);
    SortIsSorted(fs);
    SortKeepsAlign(fs);
    var k, n := OnePadding(sorted, 0, 0);
    if n > 0 {
      InsertKeepsAlign(sorted, k, PaddingField(0, n));
    }
  }

  lemma InsertKeepsAlign(fs: seq<Field>, k: nat, p: Field)
    requires k <= |fs| && Align(p.typ) == 1
    ensures MaxAlign(fs[..k] + [p] + fs[k..]) == MaxAlign(fs)
  {
    var a, b := fs[..k], fs[k..];
    assert fs == a + b;
    AlignConcat(a, b);
    AlignBetween(a, p, b);
  }

  lemma AlignBetween(a: seq<Field>, p: Field, b: seq<Field>)
    requires Align(p.typ) == 1
    ensures MaxAlign(a + [p] + b) == Max(MaxAlign(a), MaxAlign(b))
  {
    AlignConcat(a + [p], b);
    AlignConcat(a, [p]);
    AlignIsPower(a);
    assert MaxAlign([p]) == 1;
  }

  lemma {:induction false} AlignConcat(a: seq<Field>, b: seq<Field>)
    ensures MaxAlign(a + b) == Max(MaxAlign(a), MaxAlign(b))
  {
    AlignIsPower(b);
    if |a| == 0 {
      assert a + b == b;
    } else {
      AlignConcat(a[1..], b);
      assert (a + b)[0] == a[0] && (a + b)[1..] == a[1..] + b;
    }
  }

  /** One generated struct, when its members have the sizes that the tool computed for them. */
  lemma StructAgrees(fs: seq<Field>)
    ensures var g := Generated(fs);
            && Tight(g.fields, 0) && MaxAlign(g.fields) == MaxAlign(fs)
            && g.size == CSize(g.fields) == TypeSize(Embedded(fs)) && g.size % 8 == 0
  {
    GeneratedSize(fs);
    PaddingKeepsAlign(fs);
    GeneratedTight(fs);
    SizeOfTight(Generated(fs).fields, Generated(fs).size);
  }

  lemma GeneratedTight(fs: seq<Field>)
    ensures Tight(Generated(fs).fields, 0) && Generated(fs).size == TotalBytes(Generated(fs).fields)
  {
    SortIsSorted(fs);
    PadTight(Sort(fs), 0, 0);
    PadTotal(Sort(fs), 0, 0);
  }

  lemma SizeOfTight(fs: seq<Field>, size: nat)
    requires Tight(fs, 0) && size == TotalBytes(fs) && size % 8 == 0
    ensures CSize(fs) == size
  {
    TightEnd(fs, 0);
    AlignIsPower(fs);
    AlignedAt8(size, MaxAlign(fs));
  }

  // Without the padding fields.

  lemma {:induction false} AlignAtLeast(fs: seq<Field>, i: nat)
    requires i < |fs| && Key(fs[i]) == 8
    ensures MaxAlign(fs) == 8
  {
    AlignIsPower(fs);
    AlignIsPower(fs[1..]);
    if i == 0 {
    } else {
      AlignAtLeast(fs[1..], i - 1);
    }
  }

  lemma {:induction false} UnpaddedEnd(fs: seq<Field>, size: nat, index: nat)
    requires Descending(fs) && FirstAligned(fs, size)
    requires forall i :: 0 <= i < |fs| && fs[i].typ.Embedded? ==> AlignOf(fs[i]) == 8
    ensures AlignUp(CEnd(fs, size), 8) == Pad(fs, size, index).size
    decreases |fs|
  {
    if |fs| == 0 {
    } else {
      var f := fs[0];
      if f.typ.Builtin? {
        NextAligned(fs, size);
        UnpaddedEnd(fs[1..], size + Extent(f), index);
      } else {
        EmbeddedTail(fs);
        var n := PaddingBefore(size);
        UnpaddedEnd(fs[1..], size + n + Extent(f), if n == 0 then index else index + 1);
      }
    }
  }

  /** The same for the sorted fields alone, when there is a member of 8 bytes and structs are aligned to 8. */
  lemma UnpaddedStruct(fs: seq<Field>, k: nat)
    requires k < |fs| && Key(fs[k]) == 8
    requires forall i :: 0 <= i < |fs| && fs[i].typ.Embedded? ==> Align(fs[i].typ) == 8
    ensures MaxAlign(Sort(fs)) == 8 && CSize(Sort(fs)) == Generated(fs).size
  {
    var sorted := Sort(fs);
    SortIsSorted(fs);
    SortKeepsAlign(fs);
    AlignAtLeast(fs, k);
    forall i | 0 <= i < |sorted| && sorted[i].typ.Embedded?
      ensures AlignOf(sorted[i]) == 8
    {
      var j := MemberOfSorted(fs, i);
    }
    UnpaddedEnd(sorted, 0, 0);
  }

  // The algorithm as it runs: padding fields are inserted into the list in place.

  class FieldList {
    var items: seq<Field>

    constructor (items: seq<Field>)
      ensures this.items == items
    {
      this.items := items;
    }
  }

  lemma MemberOfSorted(fs: seq<Field>, k: nat) returns (j: nat)
    requires k < |Sort(fs)|
    ensures j < |fs| && fs[j] == Sort(fs)[k]
  {
    SortKeepsAll(fs);
    assert Sort(fs)[k] in multiset(Sort(fs));
    j :| 0 <= j < |fs| && fs[j] == Sort(fs)[k];
  }

  /** What is done up to field `k`, followed by what the rest still yields, is the whole result. */
  ghost predicate OnCourse(all: seq<Field>, k: nat, done: seq<Field>, size: nat, index: nat)
    requires k <= |all|
  {
    var rest := Pad(all[k..], size, index);
    Pad(all, 0, 0) == rest.(fields := done + rest.fields)
  }

  lemma CourseStarts(all: seq<Field>)
    ensures all[0..] == all && [] + all == all && OnCourse(all, 0, [], 0, 0)
  {
    assert [] + Pad(all, 0, 0).fields == Pad(all, 0, 0).fields;
  }

  lemma CourseEnds(all: seq<Field>, done: seq<Field>, size: nat, index: nat)
    requires OnCourse(all, |all|, done, size, index)
    ensures var n := PaddingBefore(size);
            Pad(all, 0, 0) == Padded(done + Lead(index, n), size + n, n)
  {
    assert all[|all|..] == [];
  }

  lemma CourseStep(all: seq<Field>, k: nat, done: seq<Field>, size: nat, index: nat)
    requires k < |all| && OnCourse(all, k, done, size, index)
    ensures var n := if all[k].typ.Builtin? then 0 else PaddingBefore(size);
            OnCourse(all, k + 1, done + Lead(index, n) + [all[k]], size + n + Extent(all[k]),
                     if n == 0 then index else index + 1)
  {
    var f := all[k];
    var n := if f.typ.Builtin? then 0 else PaddingBefore(size);
    var rest := Pad(all[k + 1..], size + n + Extent(f), if n == 0 then index else index + 1);
    assert all[k..][1..] == all[k + 1..];
    PadCons(all[k..], size, index);
    Regroup(done, Lead(index, n), [f], rest.fields);
  }

  lemma CourseStepAt(all: seq<Field>, k: nat, done: seq<Field>, size: nat, index: nat, n: nat, bytes: nat)
    requires k < |all| && OnCourse(all, k, done, size, index)
    requires n == (if all[k].typ.Builtin? then 0 else PaddingBefore(size)) && bytes == Extent(all[k])
    ensures OnCourse(all, k + 1, done + Lead(index, n) + [all[k]], size + n + bytes,
                     if n == 0 then index else index + 1)
  {
    CourseStep(all, k, done, size, index);
  }

  lemma PadCons(fs: seq<Field>, size: nat, index: nat)
    requires |fs| > 0
    ensures var n := if fs[0].typ.Builtin? then 0 else PaddingBefore(size);
            var rest := Pad(fs[1..], size + n + Extent(fs[0]), if n == 0 then index else index + 1);
            Pad(fs, size, index) == rest.(fields := Lead(index, n) + ([fs[0]] + rest.fields))
  {
  }

  lemma Regroup<T>(a: seq<T>, b: seq<T>, c: seq<T>, d: seq<T>)
    ensures a + (b + (c + d)) == a + b + c + d
  {
  }

  /** Inserts padding in front of item `i` when the running size needs it. */
  method InsertPadding(list: FieldList, i: nat, structSize: nat, paddingIdx: nat) returns (n: nat)
    requires i <= |list.items|
    modifies list
    ensures n == PaddingBefore(structSize)
    ensures list.items == old(list.items)[..i] + Lead(paddingIdx, n) + old(list.items)[i..]
  {
    n := 8 - structSize % 8;
    if n != 8 {
      list.items := list.items[..i] + [PaddingField(paddingIdx, n)] + list.items[i..];
    } else {
      n := 0;
    }
  }

  lemma ListStep(done: seq<Field>, lead: seq<Field>, all: seq<Field>, k: nat)
    requires k < |all|
    ensures var items := done + all[k..];
            items[..|done|] + lead + items[|done|..] == done + lead + [all[k]] + all[k + 1..]
    ensures done + all[k..] == done + [] + [all[k]] + all[k + 1..]
  {
    var items := done + all[k..];
    assert items[..|done|] == done && items[|done|..] == all[k..] && all[k..] == [all[k]] + all[k + 1..];
  }

  /** The bytes that a field takes; for an embedded type its own struct is laid out. */
  method FieldBytes(f: Field) returns (bytes: nat)
    ensures bytes == Extent(f)
    decreases f.typ, 3
  {
    var elementSize := Key(f);
    if f.typ.Embedded? {
      var children := new FieldList(Sort(f.typ.fields));
      var tail;
      elementSize, tail := AddPaddingBytes(children, f.typ);
      GeneratedSize(f.typ.fields);
    }
    bytes := elementSize * f.count;
  }

  /** One turn of the loop, at item `i`, which is field `k` of the type. */
  method PadField(list: FieldList, i: nat, size: nat, index: nat, ghost t: Type, ghost k: nat, ghost done: seq<Field>)
    returns (i': nat, size': nat, index': nat, ghost done': seq<Field>)
    requires t.Embedded? && k < |Sort(t.fields)| && i == |done| && list.items == done + Sort(t.fields)[k..]
    requires OnCourse(Sort(t.fields), k, done, size, index)
    modifies list
    ensures i' == |done'| && list.items == done' + Sort(t.fields)[k + 1..]
    ensures OnCourse(Sort(t.fields), k + 1, done', size', index')
    decreases t, 0
  {
    ghost var all := Sort(t.fields);
    var f := list.items[i];
    assert f == all[k];
    var n := 0;
    if f.typ.Embedded? {
      n := InsertPadding(list, i, size, index);
    }
    ListStep(done, Lead(index, n), all, k);
    done' := done + Lead(index, n) + [all[k]];
    assert list.items == done' + all[k + 1..];
    ghost var j := MemberOfSorted(t.fields, k);
    var bytes := FieldBytes(f);
    CourseStepAt(all, k, done, size, index, n, bytes);
    index' := if n == 0 then index else index + 1;
    size' := size + n + bytes;
    i' := if n == 0 then i + 1 else i + 2;
  }

  /** The loop over the sorted fields of a type. */
  method PadFields(list: FieldList, ghost t: Type) returns (i: nat, structSize: nat, paddingIdx: nat)
    requires t.Embedded? && list.items == Sort(t.fields)
    modifies list
    ensures i == |list.items| && OnCourse(Sort(t.fields), |Sort(t.fields)|, list.items, structSize, paddingIdx)
    decreases t, 1
  {
    ghost var all, done: seq<Field> := list.items, [];
    ghost var k := 0;
    structSize := 0;
    i, paddingIdx := 0, 0;
    CourseStarts(all);
    while i < |list.items|
      invariant 0 <= k <= |all| && i == |done| && list.items == done + all[k..]
      invariant OnCourse(all, k, done, structSize, paddingIdx)
      decreases |all| - k
    {
      i, structSize, paddingIdx, done := PadField(list, i, structSize, paddingIdx, t, k, done);
      k := k + 1;
    }
    AllDone(all, k, done);
  }

  lemma AllDone(all: seq<Field>, k: nat, done: seq<Field>)
    requires k <= |all| && |done| >= |done + all[k..]|
    ensures k == |all| && done + all[k..] == done
  {
  }

  /** Returns the struct size and the padding at its end, for the sorted fields of a type. */
  method AddPaddingBytes(list: FieldList, ghost t: Type) returns (structSize: nat, tail: nat)
    requires t.Embedded? && list.items == Sort(t.fields)
    modifies list
    ensures Generated(t.fields) == Padded(list.items, structSize, tail)
    decreases t, 2
  {
    var i, paddingIdx;
    i, structSize, paddingIdx := PadFields(list, t);
    ghost var done := list.items;
    CourseEnds(Sort(t.fields), done, structSize, paddingIdx);
    tail := InsertPadding(list, i, structSize, paddingIdx);
    InsertAtEnd(done, Lead(paddingIdx, tail));
    structSize := structSize + tail;
  }

  lemma InsertAtEnd(done: seq<Field>, lead: seq<Field>)
    ensures done[..|done|] + lead + done[|done|..] == done + lead
  {
  }
}
