/**
 * The ULog byte stream: length-prefixed frames, and the packets that a stream of
 * frames is cut into.
 */
module UlogFormat {
  import opened Bytes

  type Frame = f: seq<byte> | IsFrame(f) witness [0, 0, 0]

  const HEADER_LENGTH := 16

  /** Offset value of a packet in which no frame starts. */
  const NO_START := 255

  predicate IsFrame(f: seq<byte>) {
    |f| >= 3 && |f| == Le16(f[0], f[1]) + 3
  }

  /** Position at which frame `k` starts; `Start(fs, |fs|)` is the end of the stream. */
  function Start(fs: seq<Frame>, k: nat): nat
    requires k <= |fs|
  {
    if k == 0 then 0 else Start(fs, k - 1) + |fs[k - 1]|
  }

  lemma {:induction false} StartIsPrefix(fs: seq<Frame>, k: nat)
    requires k <= |fs|
    ensures Start(fs, k) == |Flatten(fs[..k])|
  {
    if k == 0 {
    } else {
      StartIsPrefix(fs, k - 1);
      assert fs[..k] == fs[..k - 1] + [fs[k - 1]];
      FlattenAppend(fs[..k - 1], fs[k - 1]);
    }
  }

  lemma StartStep(fs: seq<Frame>, k: nat)
    requires k < |fs|
    ensures Start(fs, k + 1) == Start(fs, k) + |fs[k]| <= |Flatten(fs)|
    ensures Flatten(fs)[Start(fs, k)..Start(fs, k + 1)] == fs[k]
  {
    StartIsPrefix(fs, k);
    StartIsPrefix(fs, k + 1);
    assert fs[..k + 1] == fs[..k] + [fs[k]];
    FlattenAppend(fs[..k], fs[k]);
    assert fs == fs[..k + 1] + fs[k + 1..];
    FlattenConcat(fs[..k + 1], fs[k + 1..]);
  }

  lemma {:induction false} StartMonotone(fs: seq<Frame>, a: nat, b: nat)
    requires a <= b <= |fs|
    ensures Start(fs, a) + (b - a) <= Start(fs, b) <= |Flatten(fs)|
    decreases b - a
  {
    if a == b {
      StartIsPrefix(fs, a);
      assert fs == fs[..a] + fs[a..];
      FlattenConcat(fs[..a], fs[a..]);
    } else {
      StartStep(fs, a);
      StartMonotone(fs, a + 1, b);
    }
  }

  lemma StartEnds(fs: seq<Frame>)
    ensures Start(fs, 0) == 0 && Start(fs, |fs|) == |Flatten(fs)|
  {
    StartIsPrefix(fs, |fs|);
    assert fs[..|fs|] == fs;
  }

  /** The first frame that starts at or after position `c`. */
  ghost function Next(fs: seq<Frame>, c: nat): (k: nat)
    requires c <= |Flatten(fs)|
    ensures IsNext(fs, c, k)
  {
    NextExists(fs, c);
    var k :| IsNext(fs, c, k);
    k
  }

  ghost predicate IsNext(fs: seq<Frame>, c: nat, k: nat) {
    k <= |fs| && c <= Start(fs, k) && (k > 0 ==> Start(fs, k - 1) < c)
  }

  lemma NextExists(fs: seq<Frame>, c: nat)
    requires c <= |Flatten(fs)|
    ensures exists k: nat :: IsNext(fs, c, k)
  {
    StartEnds(fs);
    var k: nat := |fs|;
    while k > 0 && c <= Start(fs, k - 1)
      invariant k <= |fs| && c <= Start(fs, k)
    {
      k := k - 1;
    }
    assert IsNext(fs, c, k);
  }

  lemma NextUnique(fs: seq<Frame>, c: nat, k: nat)
    requires c <= |Flatten(fs)| && k <= |fs|
    requires c <= Start(fs, k) && (k > 0 ==> Start(fs, k - 1) < c)
    ensures Next(fs, c) == k
  {
    var n := Next(fs, c);
    if n < k {
      StartMonotone(fs, n, k - 1);
    } else if k < n {
      StartMonotone(fs, k, n - 1);
    }
  }

  lemma NextMonotone(fs: seq<Frame>, c: nat, d: nat)
    requires c <= d <= |Flatten(fs)|
    ensures Next(fs, c) <= Next(fs, d)
  {
    var m, n := Next(fs, c), Next(fs, d);
    if n < m {
      StartMonotone(fs, n, m - 1);
    }
  }

  /** The frame in progress at position `p`, at or after frame `q`. */
  lemma Ended(fs: seq<Frame>, q: nat, p: nat) returns (e: nat)
    requires q <= |fs| && Start(fs, q) <= p <= |Flatten(fs)|
    ensures q <= e <= |fs| && Start(fs, e) <= p && (e < |fs| ==> p < Start(fs, e + 1))
  {
    e := q;
    while e < |fs| && Start(fs, e + 1) <= p
      invariant q <= e <= |fs| && Start(fs, e) <= p
    {
      e := e + 1;
    }
  }

  /** Number of leading bytes of `data` that are complete frames. */
  function WholeLength(data: seq<byte>): (n: nat)
    ensures n <= |data|
  {
    if |data| <= 2 then 0 else
    var length := Le16(data[0], data[1]) + 3;
    if length > |data| then 0 else length + WholeLength(data[length..])
  }

  lemma WholeLengthStep(f: Frame, rest: seq<byte>)
    ensures WholeLength(f + rest) == |f| + WholeLength(rest)
  {
    assert (f + rest)[|f|..] == rest;
  }

  lemma WholeLengthPartial(f: Frame, n: nat)
    requires n < |f|
    ensures WholeLength(f[..n]) == 0
  {
  }

  /** From the start of frame `q` to position `p`, the complete frames are those ending by `p`. */
  lemma {:induction false} WholeLengthAt(fs: seq<Frame>, q: nat, e: nat, p: nat)
    requires q <= e <= |fs| && Start(fs, e) <= p <= |Flatten(fs)|
    requires e < |fs| ==> p < Start(fs, e + 1)
    ensures Start(fs, q) <= Start(fs, e)
    ensures WholeLength(Flatten(fs)[Start(fs, q)..p]) == Start(fs, e) - Start(fs, q)
    decreases e - q
  {
    StartMonotone(fs, q, e);
    StartEnds(fs);
    var s := Flatten(fs);
    if q < e {
      StartMonotone(fs, q + 1, e);
      WholeLengthAt(fs, q + 1, e, p);
      WholeLengthFrom(fs, q, p);
    } else if q < |fs| {
      StartStep(fs, q);
      SliceHead(s, Start(fs, q), p, Start(fs, q + 1));
      WholeLengthPartial(fs[q], p - Start(fs, q));
    }
  }

  lemma WholeLengthFrom(fs: seq<Frame>, q: nat, p: nat)
    requires q < |fs| && Start(fs, q + 1) <= p <= |Flatten(fs)|
    ensures WholeLength(Flatten(fs)[Start(fs, q)..p]) == |fs[q]| + WholeLength(Flatten(fs)[Start(fs, q + 1)..p])
    ensures Start(fs, q + 1) == Start(fs, q) + |fs[q]|
  {
    StartStep(fs, q);
    SliceAt(Flatten(fs), Start(fs, q), Start(fs, q + 1), p);
    WholeLengthStep(fs[q], Flatten(fs)[Start(fs, q + 1)..p]);
  }

  /**
   * A session: the frames of a log and the positions at which the stream was cut into
   * packets. Packet `i` carries the bytes from `cuts[i]` to `cuts[i + 1]`; the last cut
   * may fall anywhere, since a log can be stopped in the middle of a frame.
   */
  datatype Session = Session(frames: seq<Frame>, cuts: seq<nat>) {
    ghost predicate Valid() {
      && |cuts| >= 1 && cuts[0] == 0
      && (forall i, j :: 0 <= i <= j < |cuts| ==> cuts[i] <= cuts[j])
      && cuts[|cuts| - 1] <= |Flatten(frames)|
    }

    ghost function Count(): nat
      requires Valid()
    {
      |cuts| - 1
    }

    ghost function Body(i: nat): seq<byte>
      requires Valid() && i < Count()
    {
      Flatten(frames)[cuts[i]..cuts[i + 1]]
    }

    /** `o` tells where the first frame starting in packet `i` starts, or that none does. */
    ghost predicate Honest(i: nat, o: byte)
      requires Valid() && i < Count()
    {
      var start := Start(frames, Next(frames, cuts[i]));
      || (o == NO_START && cuts[i + 1] <= start)
      || (start <= cuts[i + 1] && o as int == start - cuts[i])
    }

    /** Packet `i` carries a part of frame `k`. */
    ghost predicate Overlaps(i: nat, k: nat)
      requires Valid() && i < Count() && k < |frames|
    {
      cuts[i] < Start(frames, k + 1) && Start(frames, k) < cuts[i + 1]
    }

    /** No packet up to `last` that carries a part of frame `k` is missing from `got`. */
    ghost predicate Intact(got: set<nat>, last: int, k: nat)
      requires Valid() && -1 <= last < Count() && k < |frames|
    {
      forall i: nat {:trigger Overlaps(i, k)} :: i <= last && Overlaps(i, k) ==> i in got
    }

    /** Frame `k` ended by packet `last` and every packet that carries a part of it was got. */
    ghost predicate Arrived(got: set<nat>, last: int, k: nat)
      requires Valid() && -1 <= last < Count() && k < |frames|
    {
      Start(frames, k + 1) <= cuts[last + 1] && Intact(got, last, k)
    }

    /** The frames below `k` that arrived, in order. */
    ghost function ArrivedBelow(got: set<nat>, last: int, k: nat): seq<nat>
      requires Valid() && -1 <= last < Count() && k <= |frames|
    {
      if k == 0 then [] else
      ArrivedBelow(got, last, k - 1) + if Arrived(got, last, k - 1) then [k - 1] else []
    }
  }

  /** A packet as sent: its 16-bit sequence number, its bytes, its offset and its kind. */
  datatype Packet = Packet(sequence: nat, payload: seq<byte>, offset: byte, acked: bool)

  const MODULUS := 65536

  /** The packets carry consecutive sequence numbers, modulo 2^16. */
  ghost predicate Numbered(packets: seq<Packet>, base: nat) {
    forall i {:trigger SequenceOf(packets, i)} :: 0 <= i < |packets| ==> SequenceOf(packets, i) == (base + i) % MODULUS
  }

  ghost function SequenceOf(packets: seq<Packet>, i: nat): nat
    requires i < |packets|
  {
    packets[i].sequence
  }

  /**
   * `packets` carry the 16-byte `header` followed by the frames of `s`. The first packet
   * begins with the header and has offset 0; every other packet has an honest offset.
   */
  ghost predicate Packetised(s: Session, header: seq<byte>, packets: seq<Packet>) {
    && s.Valid() && |packets| == s.Count() && |header| == HEADER_LENGTH
    && forall i :: 0 <= i < |packets| ==> PacketMatches(s, header, i, packets[i])
  }

  ghost predicate PacketMatches(s: Session, header: seq<byte>, i: nat, p: Packet)
    requires s.Valid() && i < s.Count()
  {
    && p.sequence < MODULUS
    && p.payload == (if i == 0 then header else []) + s.Body(i)
    && |p.payload| < NO_START
    && s.Honest(i, p.offset)
    && (i == 0 ==> p.offset == 0)
  }
}
