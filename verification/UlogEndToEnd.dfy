/** From the frames the logger writes on the vehicle to the file on the ground. */
module UlogEndToEnd {
  import opened Bytes
  import opened UlogFormat
  import opened UlogReceiver
  import opened UlogReassembly
  import opened UlogRun
  import opened UlogSender

  /** The items in the file are whole frames, so the file is the header and whole ULog frames. */
  lemma {:induction false} RenderIsFrames(fs: seq<Frame>, items: seq<Item>) returns (out: seq<Frame>)
    ensures Render(fs, items) == Flatten(out) && |out| == |items|
    ensures forall i :: 0 <= i < |out| ==> out[i] == ItemBytes(fs, items[i])
  {
    if |items| == 0 {
      out := [];
    } else {
      var init := RenderIsFrames(fs, items[..|items| - 1]);
      FlattenAppend(init, ItemBytes(fs, items[|items| - 1]));
      out := init + [ItemBytes(fs, items[|items| - 1])];
    }
  }

  /** Byte `x` of the stream was in a packet that was accepted. */
  ghost predicate ByteGot(s: Session, got: set<nat>, last: nat, x: nat)
    requires s.Valid() && last < s.Count()
  {
    exists i: nat {:trigger s.cuts[i]} :: i <= last && i in got && s.cuts[i] <= x < s.cuts[i + 1]
  }

  ghost predicate AllBytesGot(s: Session, got: set<nat>, last: nat, k: nat)
    requires s.Valid() && last < s.Count() && k < |s.frames|
  {
    forall x: nat :: Start(s.frames, k) <= x < Start(s.frames, k + 1) ==> ByteGot(s, got, last, x)
  }

  lemma PacketOf(s: Session, last: nat, x: nat) returns (i: nat)
    requires s.Valid() && last < s.Count() && x < s.cuts[last + 1]
    ensures i <= last && s.cuts[i] <= x < s.cuts[i + 1]
  {
    i := last;
    while x < s.cuts[i]
      invariant i <= last && x < s.cuts[i + 1]
      decreases i
    {
      i := i - 1;
    }
  }

  /**
   * When no packet after the first is empty, a frame arrived exactly when all its bytes
   * were in accepted packets.
   */
  lemma ArrivedMeansAllBytes(s: Session, got: set<nat>, last: nat, k: nat)
    requires s.Valid() && last < s.Count() && k < |s.frames|
    requires forall i :: 1 <= i <= last ==> s.cuts[i] < s.cuts[i + 1]
    ensures s.Arrived(got, last, k) <==> AllBytesGot(s, got, last, k)
  {
    if s.Arrived(got, last, k) {
      GotAllBytes(s, got, last, k);
    }
    if AllBytesGot(s, got, last, k) {
      GotAllPackets(s, got, last, k);
    }
  }

  lemma GotAllBytes(s: Session, got: set<nat>, last: nat, k: nat)
    requires s.Valid() && last < s.Count() && k < |s.frames| && s.Arrived(got, last, k)
    ensures AllBytesGot(s, got, last, k)
  {
    forall x: nat | Start(s.frames, k) <= x < Start(s.frames, k + 1)
      ensures ByteGot(s, got, last, x)
    {
      var i := PacketOf(s, last, x);
      assert s.Overlaps(i, k);
    }
  }

  lemma GotAllPackets(s: Session, got: set<nat>, last: nat, k: nat)
    requires s.Valid() && last < s.Count() && k < |s.frames| && AllBytesGot(s, got, last, k)
    requires forall i :: 1 <= i <= last ==> s.cuts[i] < s.cuts[i + 1]
    ensures s.Arrived(got, last, k)
  {
    StartStep(s.frames, k);
    LastByteGot(s, got, last, Start(s.frames, k + 1) - 1);
    forall i: nat | i <= last && s.Overlaps(i, k)
      ensures i in got
    {
      PartGot(s, got, last, k, i);
    }
  }

  lemma PartGot(s: Session, got: set<nat>, last: nat, k: nat, i: nat)
    requires s.Valid() && i <= last < s.Count() && k < |s.frames| && AllBytesGot(s, got, last, k)
    requires s.Overlaps(i, k) && (i == 0 || s.cuts[i] < s.cuts[i + 1])
    ensures i in got
  {
    var a := Start(s.frames, k);
    StartStep(s.frames, k);
    var x := if s.cuts[i] < a then a else s.cuts[i];
    assert ByteGot(s, got, last, x);
    PacketGot(s, got, last, i, x);
  }

  lemma LastByteGot(s: Session, got: set<nat>, last: nat, x: nat)
    requires s.Valid() && last < s.Count() && ByteGot(s, got, last, x)
    ensures x < s.cuts[last + 1]
  {
  }

  lemma PacketGot(s: Session, got: set<nat>, last: nat, i: nat, x: nat)
    requires s.Valid() && i <= last < s.Count() && s.cuts[i] <= x < s.cuts[i + 1] && ByteGot(s, got, last, x)
    ensures i in got
  {
    var j: nat :| j <= last && j in got && s.cuts[j] <= x < s.cuts[j + 1];
    assert j == i;
  }

  lemma CutsIncrease(s: Session, header: seq<byte>, packets: seq<Packet>)
    requires Packetised(s, header, packets) && Sized(packets)
    ensures forall i :: 1 <= i < s.Count() ==> s.cuts[i] < s.cuts[i + 1]
  {
    forall i | 1 <= i < s.Count()
      ensures s.cuts[i] < s.cuts[i + 1]
    {
      assert PacketMatches(s, header, i, packets[i]) && |packets[i].payload| == |s.Body(i)|;
    }
  }

  /** Packets that arrive in order and without loss. */
  ghost predicate InOrder(arrivals: Trace) {
    forall t :: 0 <= t < |arrivals| ==> arrivals[t] == t
  }

  lemma {:induction false} InOrderRecords(arrivals: Trace)
    requires InOrder(arrivals)
    ensures Records(arrivals) == arrivals && InWindow(arrivals)
  {
    if |arrivals| == 0 {
    } else {
      InOrderRecords(arrivals[..|arrivals| - 1]);
    }
  }

  /** On track with nothing lost, the next packet's bytes are all kept. */
  lemma KeepsAllBytes(s: Session, header: seq<byte>, got: set<nat>, j: nat, p: Packet, items: seq<Item>, rx: Rx,
                      gotSection: bool)
    requires Tracks(s, header, got, j - 1, items, rx) && 0 < j < s.Count()
    requires forall i: nat :: i < j ==> i in got
    requires PacketMatches(s, header, j, p)
    ensures var rx' := ProcessBody(rx.(gotSection := gotSection), p.payload, p.offset, 0);
            rx'.file + rx'.pending == (rx.file + rx.pending) + p.payload
  {
    if rx.pending == [] {
      var k := Next(s.frames, s.cuts[j]);
      assert k > 0 ==> s.Intact(got, j - 1, k - 1);
      assert Start(s.frames, 0) == 0;
      assert Start(s.frames, k) == s.cuts[j];
      assert p.offset == 0 || |p.payload| == 0;
    }
    ConservesBytes(rx.(gotSection := gotSection), p.payload, p.offset);
  }

  lemma LosslessStep(s: Session, header: seq<byte>, packets: seq<Packet>, base: nat, arrivals: Trace)
    requires Packetised(s, header, packets) && Numbered(packets, base) && Sent(packets, arrivals)
    requires InOrder(arrivals) && |arrivals| > 1
    ensures |arrivals| <= |packets|
    ensures var r, r' := Run(packets, arrivals[..|arrivals| - 1]), Run(packets, arrivals);
            && r.Some? && r'.Some?
            && r'.value.rx.file + r'.value.rx.pending
               == (r.value.rx.file + r.value.rx.pending) + packets[|arrivals| - 1].payload
  {
    var init, j := arrivals[..|arrivals| - 1], |arrivals| - 1;
    assert arrivals[j] == j;
    assert PacketMatches(s, header, 0, packets[0]) && PacketMatches(s, header, j, packets[j]);
    var items := TracksInOrder(s, header, packets, base, init);
    NewestInOrder(init, arrivals, j);
    var gotSection := NextInOrder(packets, base, init, arrivals, j);
    KeepsAllBytes(s, header, ToSet(init), j, packets[j], items, Run(packets, init).value.rx, gotSection);
  }

  lemma TracksInOrder(s: Session, header: seq<byte>, packets: seq<Packet>, base: nat, arrivals: Trace)
    returns (items: seq<Item>)
    requires Packetised(s, header, packets) && Numbered(packets, base) && Sent(packets, arrivals)
    requires InOrder(arrivals) && |arrivals| > 0
    ensures Run(packets, arrivals).Some?
    ensures Tracks(s, header, ToSet(arrivals), |arrivals| - 1, items, Run(packets, arrivals).value.rx)
    ensures forall i: nat :: i < |arrivals| ==> i in ToSet(arrivals)
  {
    InOrderRecords(arrivals);
    assert arrivals[0] == 0 && Last(arrivals) == |arrivals| - 1;
    items := KeepsTrack(s, header, packets, base, arrivals);
    forall i: nat | i < |arrivals|
      ensures i in ToSet(arrivals)
    {
      assert arrivals[i] == i;
    }
  }

  lemma NextInOrder(packets: seq<Packet>, base: nat, init: Trace, arrivals: Trace, j: nat) returns (gotSection: bool)
    requires Numbered(packets, base) && Sent(packets, init) && Sent(packets, arrivals) && InWindow(arrivals)
    requires |arrivals| == j + 1 && j > 0 && init == arrivals[..j] && j < |packets|
    requires arrivals[j] == j && Last(Records(init)) == j - 1
    requires |packets[arrivals[0]].payload| >= HEADER_LENGTH
    ensures var r, r', p := Run(packets, init), Run(packets, arrivals), packets[j];
            && r.Some? && r'.Some?
            && r'.value.rx == ProcessBody(r.value.rx.(gotSection := gotSection), p.payload, p.offset, 0)
  {
    RunNext(packets, base, arrivals);
    gotSection := Run(packets, init).value.rx.gotSection || !packets[j].acked;
  }

  lemma NewestInOrder(init: Trace, arrivals: Trace, j: nat)
    requires InOrder(arrivals) && |arrivals| == j + 1 && j > 0 && init == arrivals[..j]
    ensures InWindow(arrivals) && arrivals[j] == j && Last(Records(init)) == j - 1
  {
    InOrderRecords(arrivals);
    InOrderRecords(init);
  }

  ghost function Payloads(packets: seq<Packet>): seq<seq<byte>> {
    seq(|packets|, i requires 0 <= i < |packets| => packets[i].payload)
  }

  /** Lossless byte conservation: file and pending bytes are what was received, after every packet. */
  lemma {:induction false} Lossless(s: Session, header: seq<byte>, packets: seq<Packet>, base: nat, arrivals: Trace)
    requires Packetised(s, header, packets) && Numbered(packets, base) && Sent(packets, arrivals)
    requires InOrder(arrivals) && |arrivals| > 0
    ensures Run(packets, arrivals).Some? && |arrivals| <= |packets|
    ensures var rx := Run(packets, arrivals).value.rx;
            rx.file + rx.pending == Flatten(Payloads(packets[..|arrivals|]))
    decreases |arrivals|
  {
    var n := |arrivals|;
    assert arrivals[n - 1] == n - 1;
    var p := packets[n - 1];
    assert Payloads(packets[..n]) == Payloads(packets[..n - 1]) + [p.payload];
    FlattenAppend(Payloads(packets[..n - 1]), p.payload);
    if n == 1 {
      assert PacketMatches(s, header, 0, p);
      RunFirst(packets, arrivals);
      FirstConserves(p);
      assert Flatten(Payloads(packets[..0])) == [];
    } else {
      Lossless(s, header, packets, base, arrivals[..n - 1]);
      LosslessStep(s, header, packets, base, arrivals);
    }
  }

  lemma FirstConserves(p: Packet)
    requires |p.payload| >= HEADER_LENGTH && p.offset == 0
    ensures var rx := Process(Rx(false, !p.acked, [], []), p.payload, p.offset, 0).value;
            rx.file + rx.pending == p.payload
  {
    var head, body := p.payload[..HEADER_LENGTH], p.payload[HEADER_LENGTH..];
    ConservesBytes(Rx(true, !p.acked, [], [] + head), body, 0);
    assert head + body == p.payload;
  }

  /**
   * End to end: for every log written on the vehicle and every arrival pattern on the
   * ground that starts with the first packet, the file is the header followed by the
   * frames all of whose bytes were accepted, in order, and by reports of the losses.
   */
  lemma EndToEnd(header: seq<byte>, reliable: bool, acks: Acks, ops: seq<Op>, arrivals: Trace)
    returns (s: Session, items: seq<Item>)
    requires |header| == HEADER_LENGTH
    requires var packets := RunWriter(header, reliable, acks, ops).published;
             forall t :: 0 <= t < |arrivals| ==> arrivals[t] < |packets|
    requires |arrivals| > 0 && arrivals[0] == 0 && InWindow(arrivals)
    ensures s.frames == FramesOf(ops) && Packetised(s, header, RunWriter(header, reliable, acks, ops).published)
    ensures Reassembled(s, header, RunWriter(header, reliable, acks, ops).published, arrivals, items)
    ensures var records := Records(arrivals);
            forall k: nat :: k < |s.frames| ==>
              (s.Arrived(ToSet(records), Last(records), k) <==> AllBytesGot(s, ToSet(records), Last(records), k))
  {
    s := SenderIsHonest(header, reliable, acks, ops);
    var packets := RunWriter(header, reliable, acks, ops).published;
    assert Sent(packets, arrivals) by {
      assert forall i :: 0 <= i < |packets| ==> PacketMatches(s, header, i, packets[i]);
    }
    items := Reassembly(s, header, packets, 0, arrivals);
    CutsIncrease(s, header, packets);
    var records := Records(arrivals);
    forall k: nat | k < |s.frames|
      ensures s.Arrived(ToSet(records), Last(records), k) <==> AllBytesGot(s, ToSet(records), Last(records), k)
    {
      ArrivedMeansAllBytes(s, ToSet(records), Last(records), k);
    }
  }

  // The reliable section.

  lemma {:induction false} SameCuts(header: seq<byte>, s: Session, p: seq<Packet>, t: Session, q: seq<Packet>, n: nat)
    requires Packetised(s, header, p) && Packetised(t, header, q) && UlogSender.Continues(p, q) && n <= |p|
    ensures s.cuts[n] == t.cuts[n]
  {
    if n == 0 {
    } else {
      SameCuts(header, s, p, t, q, n - 1);
      assert p[n - 1] == q[..|p|][n - 1];
      assert PacketMatches(s, header, n - 1, p[n - 1]) && PacketMatches(t, header, n - 1, q[n - 1]);
      assert |s.Body(n - 1)| == |t.Body(n - 1)|;
    }
  }

  /** Frames that end by the end of packet `n - 1` arrived when all packets up to it were accepted. */
  lemma PrefixArrives(s: Session, got: set<nat>, last: nat, n: nat, k: nat)
    requires s.Valid() && Bounded(got, last) && last < s.Count() && 0 < n <= s.Count() && k < |s.frames|
    requires (forall i: nat :: i < n ==> i in got) && Start(s.frames, k + 1) <= s.cuts[n]
    ensures s.Arrived(got, last, k)
  {
    assert n - 1 in got;
    forall i: nat | i <= last && s.Overlaps(i, k)
      ensures i in got
    {
      assert s.cuts[i] < s.cuts[n];
    }
  }

  /** A log that begins with a reliable section, and the uses of the writer up to its end. */
  ghost predicate BeginsReliably(section: seq<Op>, first: seq<Op>, ops: seq<Op>) {
    OnlyWrites(section) && first == section + [Reliable(false)] && first <= ops
  }

  /** Where the reliable section ends in the packets, when it was acknowledged. */
  lemma SectionEnds(header: seq<byte>, acks: Acks, section: seq<Op>, first: seq<Op>, ops: seq<Op>, s: Session)
    returns (n: nat)
    requires |header| == HEADER_LENGTH && BeginsReliably(section, first, ops)
    requires RunWriter(header, true, acks, first).started && s.frames == FramesOf(ops)
    requires Packetised(s, header, RunWriter(header, true, acks, ops).published)
    ensures n == |RunWriter(header, true, acks, first).published| && 0 < n <= s.Count()
    ensures |FramesOf(section)| <= |s.frames| && Start(s.frames, |FramesOf(section)|) == s.cuts[n]
  {
    assert ops[..|first|] == first && first[..|section|] == section;
    var w, packets := RunWriter(header, true, acks, first), RunWriter(header, true, acks, ops).published;
    n := |w.published|;
    SectionIsReliable(header, acks, section);
    var t := SenderIsHonest(header, true, acks, first);
    assert t.frames == FramesOf(first) == FramesOf(section);
    AllPublished(w, header, t);
    RunExtends(header, true, acks, ops, |first|);
    SameCuts(header, t, w.published, s, packets, n);
    FramesPrefix(ops, |first|);
    StartIsPrefix(s.frames, |t.frames|);
  }

  /** With an empty buffer, all bytes were published. */
  lemma AllPublished(w: Writer, header: seq<byte>, s: Session)
    requires Sound(w, header, s) && Filling(w, header, s, |Flatten(s.frames)|) && w.buffer == [] && |header| > 0
    ensures |w.published| > 0 && s.cuts[|w.published|] == |Flatten(s.frames)|
  {
  }

  /**
   * Reliable transfer: when the packets of the reliable section at the start of a log, which
   * all ask for an acknowledgement, were accepted on the ground, then every frame written in
   * it arrived, whatever is lost later.
   */
  lemma ReliableSectionArrives(header: seq<byte>, acks: Acks, section: seq<Op>, first: seq<Op>, ops: seq<Op>,
                               arrivals: Trace)
    returns (s: Session, items: seq<Item>)
    requires |header| == HEADER_LENGTH && BeginsReliably(section, first, ops)
    requires RunWriter(header, true, acks, first).started
    requires forall t :: 0 <= t < |arrivals| ==> arrivals[t] < |RunWriter(header, true, acks, ops).published|
    requires |arrivals| > 0 && arrivals[0] == 0 && InWindow(arrivals)
    requires forall i: nat :: i < |RunWriter(header, true, acks, first).published| ==> i in Records(arrivals)
    ensures AllAcked(RunWriter(header, true, acks, first).published)
    ensures s.frames == FramesOf(ops) && |FramesOf(section)| <= |s.frames|
    ensures Reassembled(s, header, RunWriter(header, true, acks, ops).published, arrivals, items)
    ensures forall k: nat :: k < |FramesOf(section)| ==> s.Arrived(ToSet(Records(arrivals)), Last(Records(arrivals)), k)
  {
    SectionIsReliable(header, acks, section);
    s, items := EndToEnd(header, true, acks, ops, arrivals);
    SectionOfSession(header, acks, section, first, ops, s, arrivals);
  }

  lemma SectionOfSession(header: seq<byte>, acks: Acks, section: seq<Op>, first: seq<Op>, ops: seq<Op>, s: Session,
                         arrivals: Trace)
    requires |header| == HEADER_LENGTH && BeginsReliably(section, first, ops)
    requires RunWriter(header, true, acks, first).started && s.frames == FramesOf(ops)
    requires Packetised(s, header, RunWriter(header, true, acks, ops).published)
    requires |arrivals| > 0 && Last(Records(arrivals)) < s.Count()
    requires forall i: nat :: i < |RunWriter(header, true, acks, first).published| ==> i in Records(arrivals)
    ensures |FramesOf(section)| <= |s.frames|
    ensures forall k: nat :: k < |FramesOf(section)| ==> s.Arrived(ToSet(Records(arrivals)), Last(Records(arrivals)), k)
  {
    var n := SectionEnds(header, acks, section, first, ops, s);
    RecordsBounded(arrivals);
    SectionArrives(s, Records(arrivals), n, |FramesOf(section)|);
  }

  lemma SectionArrives(s: Session, records: Trace, n: nat, m: nat)
    requires s.Valid() && |records| > 0 && Last(records) < s.Count() && Bounded(ToSet(records), Last(records))
    requires 0 < n <= s.Count() && m <= |s.frames| && Start(s.frames, m) <= s.cuts[n]
    requires forall i: nat :: i < n ==> i in records
    ensures forall k: nat :: k < m ==> s.Arrived(ToSet(records), Last(records), k)
  {
    FramesArrive(s, ToSet(records), Last(records), n, m);
  }

  lemma FramesArrive(s: Session, got: set<nat>, last: nat, n: nat, m: nat)
    requires s.Valid() && Bounded(got, last) && last < s.Count() && 0 < n <= s.Count() && m <= |s.frames|
    requires (forall i: nat :: i < n ==> i in got) && Start(s.frames, m) <= s.cuts[n]
    ensures forall k: nat :: k < m ==> s.Arrived(got, last, k)
  {
    forall k: nat | k < m
      ensures s.Arrived(got, last, k)
    {
      StartMonotone(s.frames, k + 1, m);
      PrefixArrives(s, got, last, n, k);
    }
  }

  lemma RecordsBounded(arrivals: Trace)
    requires |arrivals| > 0
    ensures Bounded(ToSet(Records(arrivals)), Last(Records(arrivals)))
  {
    RecordsIncrease(arrivals);
    var r := Records(arrivals);
    forall x | x in ToSet(r)
      ensures x <= Last(r)
    {
      var i :| 0 <= i < |r| && r[i] == x;
      if i < |r| - 1 {
        assert r[i] < r[|r| - 1];
      }
    }
  }
}
