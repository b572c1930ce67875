/**
 * MAVLink 1 messages: field encodings, the field permutation between constructor order and
 * wire order, packing and decoding (Tools/mavlink_px4.py).
 */
module MavlinkCodec {
  import opened Bytes

  const MAGIC := 254

  // Field encodings, as `struct` packs them little-endian.

  /** A format letter: B H I Q, b h i q, f d, and a counted `s`. */
  datatype FieldType = Unsigned(size: nat) | Signed(size: nat) | Float(size: nat) | Text(size: nat)

  /** Integers are numbers; floats and strings are kept as their bytes. */
  datatype Value = Number(n: int) | Raw(bytes: seq<byte>)

  function Power256(n: nat): (p: nat)
    ensures p >= 1 && (n >= 1 ==> p % 2 == 0)
  {
    if n == 0 then 1 else 256 * Power256(n - 1)
  }

  function LeBytes(v: nat, n: nat): (s: seq<byte>)
    ensures |s| == n
  {
    if n == 0 then [] else [v % 256] + LeBytes(v / 256, n - 1)
  }

  function LeValue(s: seq<byte>): nat {
    if |s| == 0 then 0 else s[0] as int + 256 * LeValue(s[1..])
  }

  lemma {:induction false} LeRoundTrip(v: nat, n: nat)
    requires v < Power256(n)
    ensures LeValue(LeBytes(v, n)) == v
  {
    if n == 0 {
    } else {
      LeRoundTrip(v / 256, n - 1);
      assert LeBytes(v, n)[1..] == LeBytes(v / 256, n - 1);
    }
  }

  lemma {:induction false} LeValueBytes(s: seq<byte>)
    ensures LeValue(s) < Power256(|s|) && LeBytes(LeValue(s), |s|) == s
  {
    if |s| == 0 {
    } else {
      LeValueBytes(s[1..]);
      var hi := LeValue(s[1..]);
      assert (s[0] as int + 256 * hi) / 256 == hi && (s[0] as int + 256 * hi) % 256 == s[0] as int;
    }
  }

  lemma {:induction false} PowerSplit(n: nat, k: nat)
    requires k <= n
    ensures Power256(n) == Power256(k) * Power256(n - k)
  {
    if k == 0 {
    } else {
      PowerSplit(n - 1, k - 1);
      Product(256, Power256(k - 1), Power256(n - k));
    }
  }

  lemma Product(a: int, b: int, c: int)
    ensures a * (b * c) == (a * b) * c
  {
  }

  /** A quotient and a remainder that fit are the quotient and the remainder. */
  lemma Quotient(v: int, d: int, q: int, r: int)
    requires d > 0 && v == d * q + r && 0 <= r < d
    ensures v / d == q && v % d == r
  {
    assert v == d * (v / d) + v % d;
    assert d * (v / d - q) == r - v % d;
    SmallMultiple(d, v / d - q);
  }

  lemma SmallMultiple(d: int, e: int)
    requires -d < d * e < d
    ensures e == 0
  {
    if e >= 1 {
      MultipleAtLeast(d, e);
    } else if e <= -1 {
      MultipleAtLeast(d, -e);
    }
  }

  lemma MultipleAtLeast(d: int, e: int)
    requires d > 0 && e >= 1
    ensures d * e >= d
  {
  }

  lemma DivideTwice(v: nat, p: nat)
    requires p > 0
    ensures v / 256 / p == v / (256 * p)
  {
    var q, r := v / 256 / p, v / 256 % p;
    assert v / 256 == p * q + r;
    assert v == 256 * (p * q + r) + v % 256 == (256 * p) * q + (256 * r + v % 256);
    assert r <= p - 1 && 256 * r <= 256 * (p - 1) == 256 * p - 256;
    Quotient(v, 256 * p, q, 256 * r + v % 256);
  }

  /** Little-endian: byte `k` has the weight 256^k. */
  lemma {:induction false} LeByteAt(v: nat, n: nat, k: nat)
    requires k < n
    ensures LeBytes(v, n)[k] as int == v / Power256(k) % 256
    decreases n
  {
    if k == 0 {
    } else {
      LeByteAt(v / 256, n - 1, k - 1);
      assert LeBytes(v, n)[k] == LeBytes(v / 256, n - 1)[k - 1];
      DivideTwice(v, Power256(k - 1));
    }
  }

  /** What `struct.pack` accepts; a string of any length is padded or cut. */
  predicate Fits(t: FieldType, v: Value) {
    match t
    case Unsigned(n) => v.Number? && 0 <= v.n < Power256(n)
    case Signed(n) => v.Number? && -(Power256(n) as int) <= 2 * v.n < Power256(n)
    case Float(n) => v.Raw? && |v.bytes| == n
    case Text(n) => v.Raw?
  }

  function PadTo(s: seq<byte>, n: nat): (r: seq<byte>)
    ensures |r| == n
  {
    if |s| >= n then s[..n] else s + seq(n - |s|, _ => 0)
  }

  function EncodeField(t: FieldType, v: Value): (s: seq<byte>)
    requires Fits(t, v)
    ensures |s| == t.size
  {
    match t
    case Unsigned(n) => LeBytes(v.n, n)
    case Signed(n) => LeBytes(if v.n < 0 then v.n + Power256(n) else v.n, n)
    case Float(n) => v.bytes
    case Text(n) => PadTo(v.bytes, n)
  }

  function DecodeField(t: FieldType, s: seq<byte>): Value
    requires |s| == t.size
  {
    match t
    case Unsigned(n) => Number(LeValue(s))
    case Signed(n) => Number(if 2 * LeValue(s) >= Power256(n) then LeValue(s) - Power256(n) else LeValue(s))
    case Float(n) => Raw(s)
    case Text(n) => Raw(s)
  }

  /** The value as it comes back: a string comes back at its full field length. */
  function Canonical(t: FieldType, v: Value): Value
    requires Fits(t, v)
  {
    if t.Text? then Raw(PadTo(v.bytes, t.size)) else v
  }

  /** Adding a multiple of 256 times the divisor does not change this digit. */
  lemma SameDigit(v: int, p: int, m: int)
    requires p > 0
    ensures (v + p * (256 * m)) / p % 256 == v / p % 256
  {
    var q, r := v / p, v % p;
    assert v == p * q + r;
    assert v + p * (256 * m) == p * (q + 256 * m) + r;
    Quotient(v + p * (256 * m), p, q + 256 * m, r);
    assert q + 256 * m == 256 * (q / 256 + m) + q % 256;
    Quotient(q + 256 * m, 256, q / 256 + m, q % 256);
  }

  /** Integers are little-endian, and two's complement when they are signed. */
  lemma IntegerByteAt(t: FieldType, v: int, k: nat)
    requires (t.Unsigned? || t.Signed?) && Fits(t, Number(v)) && k < t.size
    ensures EncodeField(t, Number(v))[k] as int == v / Power256(k) % 256
  {
    if v >= 0 {
      LeByteAt(v, t.size, k);
    } else {
      ComplementByteAt(v, t.size, k);
    }
  }

  lemma ComplementByteAt(v: int, n: nat, k: nat)
    requires k < n && -(Power256(n) as int) <= v
    ensures LeBytes(v + Power256(n), n)[k] as int == v / Power256(k) % 256
  {
    var p, m := Power256(k), Power256(n - k - 1);
    LeByteAt(v + Power256(n), n, k);
    PowerSplit(n, k);
    assert Power256(n) == p * (256 * m);
    SameDigit(v, p, m);
  }

  /** A string is followed by NULs, or cut. */
  lemma TextByteAt(n: nat, s: seq<byte>, k: nat)
    requires k < n
    ensures EncodeField(Text(n), Raw(s))[k] == if k < |s| then s[k] else 0
  {
  }

  lemma FieldRoundTrip(t: FieldType, v: Value)
    requires Fits(t, v) && (t.Signed? ==> t.size >= 1)
    ensures DecodeField(t, EncodeField(t, v)) == Canonical(t, v)
  {
    match t
    case Unsigned(n) => LeRoundTrip(v.n, n);
    case Signed(n) => LeRoundTrip(if v.n < 0 then v.n + Power256(n) else v.n, n);
    case Float(_) =>
    case Text(_) =>
  }

  /** The other inverse: no wire bytes are lost by decoding them. */
  lemma WireRoundTrip(t: FieldType, s: seq<byte>)
    requires |s| == t.size && (t.Signed? ==> t.size >= 1)
    ensures Fits(t, DecodeField(t, s)) && EncodeField(t, DecodeField(t, s)) == s
  {
    LeValueBytes(s);
  }

  /** What a NUL-terminated string shows. */
  function CString(s: seq<byte>): seq<byte> {
    if |s| == 0 || s[0] == 0 then [] else [s[0]] + CString(s[1..])
  }

  /** Padding a string that fits does not change what it shows. */
  lemma {:induction false} PaddingIsInvisible(s: seq<byte>, n: nat)
    requires |s| <= n
    ensures CString(PadTo(s, n)) == CString(s)
  {
    if |s| == 0 {
    } else {
      PaddingIsInvisible(s[1..], n - 1);
      assert PadTo(s, n)[1..] == PadTo(s[1..], n - 1);
    }
  }

  // Payloads: all fields in wire order.

  function FormatSize(fmt: seq<FieldType>): nat {
    if |fmt| == 0 then 0 else fmt[0].size + FormatSize(fmt[1..])
  }

  ghost predicate AllFit(fmt: seq<FieldType>, vs: seq<Value>) {
    |vs| == |fmt| && forall i :: 0 <= i < |fmt| ==> Fits(fmt[i], vs[i]) && (fmt[i].Signed? ==> fmt[i].size >= 1)
  }

  function PackFields(fmt: seq<FieldType>, vs: seq<Value>): (s: seq<byte>)
    requires AllFit(fmt, vs)
    ensures |s| == FormatSize(fmt)
  {
    if |fmt| == 0 then [] else EncodeField(fmt[0], vs[0]) + PackFields(fmt[1..], vs[1..])
  }

  function UnpackFields(fmt: seq<FieldType>, s: seq<byte>): (vs: seq<Value>)
    requires |s| == FormatSize(fmt)
    ensures |vs| == |fmt|
  {
    if |fmt| == 0 then [] else [DecodeField(fmt[0], s[..fmt[0].size])] + UnpackFields(fmt[1..], s[fmt[0].size..])
  }

  ghost function CanonicalAll(fmt: seq<FieldType>, vs: seq<Value>): seq<Value>
    requires AllFit(fmt, vs)
  {
    seq(|vs|, i requires 0 <= i < |vs| => Canonical(fmt[i], vs[i]))
  }

  lemma {:induction false} PayloadRoundTrip(fmt: seq<FieldType>, vs: seq<Value>)
    requires AllFit(fmt, vs)
    ensures UnpackFields(fmt, PackFields(fmt, vs)) == CanonicalAll(fmt, vs)
  {
    if |fmt| == 0 {
    } else {
      PayloadRoundTrip(fmt[1..], vs[1..]);
      FieldRoundTrip(fmt[0], vs[0]);
      var s := PackFields(fmt, vs);
      assert s[..fmt[0].size] == EncodeField(fmt[0], vs[0]) && s[fmt[0].size..] == PackFields(fmt[1..], vs[1..]);
    }
  }

  /** Fields lie one after the other, in the order of the format. */
  function Offset(fmt: seq<FieldType>, j: nat): (o: nat)
    requires j <= |fmt|
    ensures j < |fmt| ==> o + fmt[j].size <= FormatSize(fmt)
  {
    if j == 0 then 0 else fmt[0].size + Offset(fmt[1..], j - 1)
  }

  /** The bytes of field `j` in a payload. */
  function Slot(fmt: seq<FieldType>, payload: seq<byte>, j: nat): (s: seq<byte>)
    requires |payload| == FormatSize(fmt) && j < |fmt|
    ensures |s| == fmt[j].size
  {
    payload[Offset(fmt, j)..Offset(fmt, j) + fmt[j].size]
  }

  lemma FirstSlot(fmt: seq<FieldType>, first: seq<byte>, rest: seq<byte>)
    requires |fmt| > 0 && |first| == fmt[0].size && |rest| == FormatSize(fmt[1..])
    ensures Slot(fmt, first + rest, 0) == first
  {
  }

  lemma LaterSlot(fmt: seq<FieldType>, first: seq<byte>, rest: seq<byte>, j: nat)
    requires |fmt| > 0 && |first| == fmt[0].size && |rest| == FormatSize(fmt[1..]) && 0 < j < |fmt|
    ensures Slot(fmt, first + rest, j) == Slot(fmt[1..], rest, j - 1)
  {
    LaterSlice(first, rest, Offset(fmt[1..], j - 1), fmt[j].size);
  }

  lemma LaterSlice(a: seq<byte>, b: seq<byte>, o: nat, n: nat)
    requires o + n <= |b|
    ensures (a + b)[|a| + o..|a| + o + n] == b[o..o + n]
  {
  }

  lemma {:induction false} PackedAt(fmt: seq<FieldType>, vs: seq<Value>, j: nat)
    requires AllFit(fmt, vs) && j < |fmt|
    ensures Slot(fmt, PackFields(fmt, vs), j) == EncodeField(fmt[j], vs[j])
  {
    var first, rest := EncodeField(fmt[0], vs[0]), PackFields(fmt[1..], vs[1..]);
    if j == 0 {
      FirstSlot(fmt, first, rest);
    } else {
      PackedAt(fmt[1..], vs[1..], j - 1);
      LaterSlot(fmt, first, rest, j);
    }
  }

  lemma {:induction false} UnpackedAt(fmt: seq<FieldType>, s: seq<byte>, j: nat)
    requires |s| == FormatSize(fmt) && j < |fmt|
    ensures UnpackFields(fmt, s)[j] == DecodeField(fmt[j], Slot(fmt, s, j))
  {
    var first, rest := s[..fmt[0].size], s[fmt[0].size..];
    assert s == first + rest;
    UnpackCons(fmt, first, rest);
    if j == 0 {
      FirstSlot(fmt, first, rest);
    } else {
      UnpackedAt(fmt[1..], rest, j - 1);
      LaterSlot(fmt, first, rest, j);
    }
  }

  lemma UnpackCons(fmt: seq<FieldType>, first: seq<byte>, rest: seq<byte>)
    requires |fmt| > 0 && |first| == fmt[0].size && |rest| == FormatSize(fmt[1..])
    ensures UnpackFields(fmt, first + rest) == [DecodeField(fmt[0], first)] + UnpackFields(fmt[1..], rest)
  {
    assert (first + rest)[..fmt[0].size] == first && (first + rest)[fmt[0].size..] == rest;
  }

  // The permutation between constructor order and wire order.

  ghost predicate IsPermutation(order: seq<nat>) {
    && (forall i :: 0 <= i < |order| ==> order[i] < |order|)
    && (forall j :: 0 <= j < |order| ==> j in order)
    && (forall i, j :: 0 <= i < j < |order| ==> order[i] != order[j])
  }

  /** Position in the constructor of the field that is `j`-th on the wire. */
  ghost function IndexOf(order: seq<nat>, j: nat): (i: nat)
    requires j in order
    ensures i < |order| && order[i] == j
  {
    var i: nat :| i < |order| && order[i] == j;
    i
  }

  ghost function ToWire<T>(order: seq<nat>, fields: seq<T>): seq<T>
    requires IsPermutation(order) && |fields| == |order|
  {
    seq(|order|, j requires 0 <= j < |order| => fields[IndexOf(order, j)])
  }

  ghost function FromWire<T>(order: seq<nat>, wire: seq<T>): seq<T>
    requires |wire| == |order| && forall i :: 0 <= i < |order| ==> order[i] < |order|
  {
    seq(|order|, i requires 0 <= i < |order| => wire[order[i]])
  }

  /** Permuting to the wire and back is the identity, both ways. */
  lemma PermutationRoundTrip<T>(order: seq<nat>, fields: seq<T>)
    requires IsPermutation(order) && |fields| == |order|
    ensures FromWire(order, ToWire(order, fields)) == fields
    ensures ToWire(order, FromWire(order, fields)) == fields
  {
  }

  /** The loop of `decode` that puts the fields into constructor order. */
  method Reorder<T>(order: seq<nat>, wire: seq<T>) returns (fields: seq<T>)
    requires |wire| == |order| && forall i :: 0 <= i < |order| ==> order[i] < |order|
    ensures fields == FromWire(order, wire)
    ensures |fields| == |order| && forall i :: 0 <= i < |order| ==> fields[i] == wire[order[i]]
  {
    fields := wire;
    for i := 0 to |wire|
      invariant |fields| == |wire|
      invariant forall j :: 0 <= j < i ==> fields[j] == wire[order[j]]
    {
      fields := fields[i := wire[order[i]]];
    }
  }

  // Messages.

  datatype Entry = Entry(format: seq<FieldType>, order: seq<nat>, crcExtra: byte)

  ghost predicate WellFormed(e: Entry) {
    && |e.order| == |e.format| && IsPermutation(e.order) && FormatSize(e.format) <= 255
    && forall i :: 0 <= i < |e.format| ==> (e.format[i].Signed? ==> e.format[i].size >= 1)
  }

  type Word = x: int | 0 <= x < 65536

  /** The message table and the X.25 checksum of a byte sequence followed by one extra byte. */
  datatype Dialect = Dialect(entries: map<byte, Entry>, crc: (seq<byte>, byte) -> Word) {
    ghost predicate Valid() {
      forall id :: id in entries ==> WellFormed(entries[id])
    }
  }

  datatype Header = Header(length: byte, sequence: byte, system: byte, component: byte, id: byte)

  datatype Reason = BadPrefix | BadHeader | BadMagic | BadLength | UnknownId | BadCrc | BadPayload

  datatype Message =
    | Good(header: Header, fields: seq<Value>, payload: seq<byte>, crc: Word, raw: seq<byte>)
    | BadData(raw: seq<byte>, reason: Reason)

  function HeaderBytes(h: Header): (s: seq<byte>)
    ensures |s| == 6
  {
    [MAGIC, h.length, h.sequence, h.system, h.component, h.id]
  }

  /** The checksum covers all but the magic byte and the checksum itself. */
  function FrameBytes(h: Header, payload: seq<byte>, crc: Word): seq<byte> {
    HeaderBytes(h) + payload + [crc % 256, crc / 256]
  }

  /** A message to be sent, and the sender's state that goes into its header. */
  datatype Outgoing = Outgoing(id: byte, fields: seq<Value>, sequence: byte, system: byte, component: byte)

  ghost predicate Sendable(d: Dialect, m: Outgoing) {
    && m.id in d.entries && WellFormed(d.entries[m.id]) && |m.fields| == |d.entries[m.id].order|
    && AllFit(d.entries[m.id].format, ToWire(d.entries[m.id].order, m.fields))
  }

  /** The message as it comes back from the wire. */
  ghost function Echo(d: Dialect, m: Outgoing): (r: Message)
    requires Sendable(d, m)
  {
    var e := d.entries[m.id];
    var wire := ToWire(e.order, m.fields);
    var payload := PackFields(e.format, wire);
    var h := Header(|payload|, m.sequence, m.system, m.component, m.id);
    var crc := d.crc((HeaderBytes(h) + payload)[1..], e.crcExtra);
    Good(h, FromWire(e.order, CanonicalAll(e.format, wire)), payload, crc, FrameBytes(h, payload, crc))
  }

  ghost function Pack(d: Dialect, m: Outgoing): seq<byte>
    requires Sendable(d, m)
  {
    Echo(d, m).raw
  }

  /** `decode` in robust mode: a raised MAVError becomes the `BadData` message that is returned. */
  ghost function Decode(d: Dialect, s: seq<byte>): (m: Message)
    requires d.Valid()
    ensures m.raw == s
  {
    if |s| < 6 then BadData(s, BadHeader)
    else if s[0] != MAGIC then BadData(s, BadMagic)
    else if s[1] as int != |s| - 8 then BadData(s, BadLength)
    else if s[5] !in d.entries then BadData(s, UnknownId)
    else
      var e := d.entries[s[5]];
      var crc := Le16(s[|s| - 2], s[|s| - 1]);
      if crc != d.crc(s[1..|s| - 2], e.crcExtra) then BadData(s, BadCrc)
      else
        var payload := s[6..|s| - 2];
        if |payload| != FormatSize(e.format) then BadData(s, BadPayload)
        else
          var fields := FromWire(e.order, UnpackFields(e.format, payload));
          Good(Header(s[1], s[2], s[3], s[4], s[5]), fields, payload, crc, s)
  }

  method DecodeMessage(d: Dialect, s: seq<byte>) returns (m: Message)
    requires d.Valid()
    ensures m == Decode(d, s)
  {
    if |s| < 6 {
      return BadData(s, BadHeader);
    }
    var h := Header(s[1], s[2], s[3], s[4], s[5]);
    if s[0] != MAGIC {
      return BadData(s, BadMagic);
    }
    if h.length as int != |s| - 8 {
      return BadData(s, BadLength);
    }
    if h.id !in d.entries {
      return BadData(s, UnknownId);
    }
    var e := d.entries[h.id];
    var crc := Le16(s[|s| - 2], s[|s| - 1]);
    if crc != d.crc(s[1..|s| - 2], e.crcExtra) {
      return BadData(s, BadCrc);
    }
    var payload := s[6..|s| - 2];
    if |payload| != FormatSize(e.format) {
      return BadData(s, BadPayload);
    }
    var fields := Reorder(e.order, UnpackFields(e.format, payload));
    m := Good(h, fields, payload, crc, s);
  }

  /** A frame that is complete, known and undamaged as far as its checksum tells. */
  ghost predicate Intact(d: Dialect, s: seq<byte>) {
    && |s| >= 8 && s[0] == 254 && |s| == s[1] as int + 8 && s[5] in d.entries
    && |s| - 8 == FormatSize(d.entries[s[5]].format)
    && s[|s| - 2] as int + 256 * s[|s| - 1] as int == d.crc(s[1..|s| - 2], d.entries[s[5]].crcExtra)
  }

  /** Exactly the intact frames are accepted. */
  lemma AcceptedIff(d: Dialect, s: seq<byte>)
    requires d.Valid()
    ensures Decode(d, s).Good? <==> Intact(d, s)
    ensures Decode(d, s).raw == s
  {
  }

  /** Why a frame is rejected: the first of the checks that fails. */
  lemma RejectedWhy(d: Dialect, s: seq<byte>)
    requires d.Valid()
    ensures var m := Decode(d, s);
            var framed := |s| >= 8 && s[0] == 254 && |s| == s[1] as int + 8;
            && (m == BadData(s, BadHeader) <==> |s| < 6)
            && (m == BadData(s, BadMagic) <==> |s| >= 6 && s[0] != 254)
            && (m == BadData(s, BadLength) <==> |s| >= 6 && s[0] == 254 && |s| != s[1] as int + 8)
            && (m == BadData(s, UnknownId) <==> framed && s[5] !in d.entries)
            && (m == BadData(s, BadCrc) <==>
                  && framed && s[5] in d.entries
                  && s[|s| - 2] as int + 256 * s[|s| - 1] as int != d.crc(s[1..|s| - 2], d.entries[s[5]].crcExtra))
            && (m == BadData(s, BadPayload) <==>
                  && framed && s[5] in d.entries && |s| - 8 != FormatSize(d.entries[s[5]].format)
                  && s[|s| - 2] as int + 256 * s[|s| - 1] as int == d.crc(s[1..|s| - 2], d.entries[s[5]].crcExtra))
  {
  }

  /** Where the parts of an accepted message come from, byte by byte. */
  lemma DecodedParts(d: Dialect, s: seq<byte>)
    requires d.Valid() && Intact(d, s)
    ensures var m, e := Decode(d, s), d.entries[s[5]];
            && m.Good? && m.header == Header(s[1], s[2], s[3], s[4], s[5]) && m.payload == s[6..|s| - 2]
            && |m.fields| == |e.order|
            && forall i :: 0 <= i < |e.order| ==>
                 m.fields[i] == DecodeField(e.format[e.order[i]], Slot(e.format, m.payload, e.order[i]))
  {
    var e, payload := d.entries[s[5]], s[6..|s| - 2];
    forall j | 0 <= j < |e.format|
      ensures UnpackFields(e.format, payload)[j] == DecodeField(e.format[j], Slot(e.format, payload, j))
    {
      UnpackedAt(e.format, payload, j);
    }
  }

  /** A packed message, byte by byte: magic, header, payload, checksum. */
  lemma PackedParts(d: Dialect, m: Outgoing)
    requires Sendable(d, m)
    ensures var s, e := Pack(d, m), d.entries[m.id];
            && |s| == FormatSize(e.format) + 8
            && s[0] == 254 && s[1] as int == |s| - 8 && s[2] == m.sequence && s[3] == m.system && s[4] == m.component
            && s[5] == m.id && s[6..|s| - 2] == PackFields(e.format, ToWire(e.order, m.fields))
            && s[|s| - 2] as int + 256 * s[|s| - 1] as int == d.crc(s[1..|s| - 2], e.crcExtra)
  {
    var echo := Echo(d, m);
    FrameParts(echo.header, echo.payload, echo.crc);
    FrameStart(echo.header, Pack(d, m));
  }

  lemma FrameParts(h: Header, payload: seq<byte>, crc: Word)
    ensures var s := FrameBytes(h, payload, crc);
            && |s| == |payload| + 8 && s[..6] == HeaderBytes(h)
            && s[1..|s| - 2] == (HeaderBytes(h) + payload)[1..] && s[6..|s| - 2] == payload
            && Le16(s[|s| - 2], s[|s| - 1]) == crc
  {
  }

  /** Decoding undoes packing: same header, same fields, whatever the checksum function is. */
  lemma CodecRoundTrip(d: Dialect, m: Outgoing)
    requires d.Valid() && Sendable(d, m)
    ensures Decode(d, Pack(d, m)) == Echo(d, m)
    ensures |Pack(d, m)| >= 8 && |Pack(d, m)| == Pack(d, m)[1] as int + 8 && Pack(d, m)[0] == MAGIC
  {
    var e, echo, s := d.entries[m.id], Echo(d, m), Pack(d, m);
    PayloadRoundTrip(e.format, ToWire(e.order, m.fields));
    FrameParts(echo.header, echo.payload, echo.crc);
    FrameStart(echo.header, s);
    DecodeFrame(d, s, echo.header, echo.payload, echo.crc);
  }

  lemma FrameStart(h: Header, s: seq<byte>)
    requires |s| >= 6 && s[..6] == HeaderBytes(h)
    ensures s[0] == MAGIC && Header(s[1], s[2], s[3], s[4], s[5]) == h
  {
    assert forall i :: 0 <= i < 6 ==> s[i] == s[..6][i];
  }

  /** What decoding makes of a well-formed frame. */
  lemma DecodeFrame(d: Dialect, s: seq<byte>, h: Header, payload: seq<byte>, crc: Word)
    requires d.Valid() && |s| == |payload| + 8 && s[0] == MAGIC && Header(s[1], s[2], s[3], s[4], s[5]) == h
    requires h.length as int == |payload| && h.id in d.entries && |payload| == FormatSize(d.entries[h.id].format)
    requires s[6..|s| - 2] == payload && Le16(s[|s| - 2], s[|s| - 1]) == crc
    requires crc == d.crc(s[1..|s| - 2], d.entries[h.id].crcExtra)
    ensures var e := d.entries[h.id];
            Decode(d, s) == Good(h, FromWire(e.order, UnpackFields(e.format, payload)), payload, crc, s)
  {
  }

  /** Fields without strings come back unchanged. */
  lemma FieldsComeBack(d: Dialect, m: Outgoing)
    requires Sendable(d, m)
    ensures var e := d.entries[m.id];
            && |Echo(d, m).fields| == |m.fields|
            && forall i :: 0 <= i < |m.fields| ==>
                 && Fits(e.format[e.order[i]], m.fields[i])
                 && Echo(d, m).fields[i] == Canonical(e.format[e.order[i]], m.fields[i])
  {
    var e := d.entries[m.id];
    var wire := ToWire(e.order, m.fields);
    PermutationRoundTrip(e.order, m.fields);
    forall i | 0 <= i < |m.fields|
      ensures Fits(e.format[e.order[i]], m.fields[i])
      ensures Echo(d, m).fields[i] == Canonical(e.format[e.order[i]], m.fields[i])
    {
      assert wire[e.order[i]] == m.fields[i] by { assert FromWire(e.order, wire)[i] == m.fields[i]; }
    }
  }
}
