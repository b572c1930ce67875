/**
 * The logger's MAVLink backend (src/modules/logger/log_writer_mavlink.cpp), which cuts the
 * log into packets, and the proof that what it sends is an honest packetisation.
 */
module UlogSender {
  import opened Bytes
  import opened UlogFormat

  const DATA_LENGTH := 249

  /** `acks(i)` says whether the receiver acknowledges packet `i` in time. */
  type Acks = nat -> bool

  datatype Writer = Writer(started: bool, reliable: bool, sequence: nat, buffer: seq<byte>, offset: byte,
                           published: seq<Packet>)

  function StartLog(reliable: bool): Writer {
    Writer(true, reliable, 0, [], 0, [])
  }

  function Publish(w: Writer, acks: Acks): Writer {
    var w1 := w.(published := w.published + [Packet(w.sequence, w.buffer, w.offset, w.reliable)], buffer := []);
    if w.reliable && !acks(|w.published|) then w1.(started := false)
    else w1.(sequence := (w.sequence + 1) % MODULUS, offset := NO_START)
  }

  function WriteData(w: Writer, acks: Acks, data: seq<byte>): (w': Writer)
    requires |w.buffer| < DATA_LENGTH
    ensures |w'.buffer| < DATA_LENGTH
    decreases |data|
  {
    var room := DATA_LENGTH - |w.buffer|;
    if |data| < room then w.(buffer := w.buffer + data)
    else
      var w1 := Publish(w.(buffer := w.buffer + data[..room]), acks);
      if w1.started then WriteData(w1, acks, data[room..]) else w1
  }

  function Written(w: Writer, acks: Acks, data: seq<byte>): (w': Writer)
    requires |w.buffer| < DATA_LENGTH
    ensures |w'.buffer| < DATA_LENGTH
  {
    if !w.started then w
    else WriteData(w.(offset := if w.offset == NO_START then |w.buffer| else w.offset), acks, data)
  }

  function SetReliable(w: Writer, acks: Acks, reliable: bool): (w': Writer)
    requires |w.buffer| < DATA_LENGTH
    ensures |w'.buffer| < DATA_LENGTH
  {
    (if !reliable && w.reliable && |w.buffer| > 0 then Publish(w, acks) else w).(reliable := reliable)
  }

  /** A use of the writer after the log was started and its header written. */
  datatype Op = Write(frame: Frame) | Reliable(on: bool)

  function FramesOf(ops: seq<Op>): seq<Frame> {
    if |ops| == 0 then [] else
    FramesOf(ops[..|ops| - 1]) + match ops[|ops| - 1] case Write(f) => [f] case Reliable(_) => []
  }

  function RunWriter(header: seq<byte>, reliable: bool, acks: Acks, ops: seq<Op>): (w: Writer)
    ensures |w.buffer| < DATA_LENGTH
  {
    if |ops| == 0 then Written(StartLog(reliable), acks, header) else
    var w := RunWriter(header, reliable, acks, ops[..|ops| - 1]);
    match ops[|ops| - 1]
    case Write(f) => Written(w, acks, f)
    case Reliable(on) => SetReliable(w, acks, on)
  }

  /** The packets published so far match the frames, and all are numbered. */
  ghost predicate Sound(w: Writer, header: seq<byte>, s: Session) {
    && Packetised(s, header, w.published) && NumberedFromZero(w) && Sized(w.published)
    && (!w.started ==> w.buffer == [])
  }

  ghost predicate Sized(packets: seq<Packet>) {
    forall i :: 0 <= i < |packets| ==> 1 <= |packets[i].payload| <= 249
  }

  ghost predicate NumberedFromZero(w: Writer) {
    Numbered(w.published, 0) && (w.started ==> w.sequence == |w.published| % MODULUS)
  }

  /** The offset kept for the packet being filled, which begins at position `c`. */
  ghost predicate OpenOffset(fs: seq<Frame>, c: nat, first: bool, o: byte)
    requires c <= |Flatten(fs)|
  {
    var k := Next(fs, c);
    if first then o == 0 else if k == |fs| then o == NO_START else o as int == Start(fs, k) - c
  }

  /** While the log is started, `pos` bytes of the frames were taken over. */
  ghost predicate Filling(w: Writer, header: seq<byte>, s: Session, pos: nat)
    requires s.Valid()
  {
    var c, first := s.cuts[s.Count()], s.Count() == 0;
    && c <= pos <= |Flatten(s.frames)| && |w.buffer| < DATA_LENGTH
    && w.buffer == (if first then header else []) + Flatten(s.frames)[c..pos]
    && OpenOffset(s.frames, c, first, w.offset)
  }

  ghost function Cut(s: Session, pos: nat): Session {
    s.(cuts := s.cuts + [pos])
  }

  ghost function More(s: Session, f: Frame): Session {
    s.(frames := s.frames + [f])
  }

  lemma {:induction false} StartPrefix(fs: seq<Frame>, f: Frame, k: nat)
    requires k <= |fs|
    ensures Start(fs + [f], k) == Start(fs, k)
  {
    if k == 0 {
    } else {
      StartPrefix(fs, f, k - 1);
    }
  }

  lemma NextPrefix(fs: seq<Frame>, f: Frame, c: nat)
    requires c <= |Flatten(fs)|
    ensures Flatten(fs + [f]) == Flatten(fs) + f
    ensures Next(fs + [f], c) == Next(fs, c) && Start(fs + [f], Next(fs, c)) == Start(fs, Next(fs, c))
  {
    FlattenAppend(fs, f);
    var k := Next(fs, c);
    StartPrefix(fs, f, k);
    if k > 0 {
      StartPrefix(fs, f, k - 1);
    }
    NextUnique(fs + [f], c, k);
  }

  /** A later frame does not change what was published. */
  lemma MoreFrames(header: seq<byte>, s: Session, packets: seq<Packet>, f: Frame)
    requires Packetised(s, header, packets)
    ensures Packetised(More(s, f), header, packets)
  {
    FlattenAppend(s.frames, f);
    assert More(s, f).Valid();
    forall i | 0 <= i < |packets|
      ensures PacketMatches(More(s, f), header, i, packets[i])
    {
      assert PacketMatches(s, header, i, packets[i]);
      NextPrefix(s.frames, f, s.cuts[i]);
      assert More(s, f).Body(i) == s.Body(i);
    }
  }

  /** The buffered bytes form an honest packet once the newest frame has begun in them or before. */
  lemma OpenPacket(header: seq<byte>, s: Session, pos: nat, p: Packet)
    requires s.Valid() && s.cuts[s.Count()] <= pos <= |Flatten(s.frames)| && Cut(s, pos).Valid()
    requires var c := s.cuts[s.Count()];
             && p.payload == (if s.Count() == 0 then header else []) + Flatten(s.frames)[c..pos]
             && OpenOffset(s.frames, c, s.Count() == 0, p.offset)
    requires |s.frames| > 0 ==> Start(s.frames, |s.frames| - 1) < pos
    requires |p.payload| <= DATA_LENGTH && p.sequence < MODULUS
    ensures PacketMatches(Cut(s, pos), header, s.Count(), p)
  {
    var k := Next(s.frames, s.cuts[s.Count()]);
    StartEnds(s.frames);
    if s.Count() == 0 {
      NextUnique(s.frames, 0, 0);
    } else if k < |s.frames| {
      StartMonotone(s.frames, k, |s.frames| - 1);
    }
  }

  /** Publishing the buffer adds one honest packet. */
  lemma PublishedPacket(header: seq<byte>, s: Session, packets: seq<Packet>, pos: nat, p: Packet)
    requires Packetised(s, header, packets)
    requires s.cuts[s.Count()] <= pos <= |Flatten(s.frames)| && Cut(s, pos).Valid()
    requires PacketMatches(Cut(s, pos), header, s.Count(), p)
    ensures Packetised(Cut(s, pos), header, packets + [p])
  {
    var s' := Cut(s, pos);
    forall i | 0 <= i < |packets|
      ensures PacketMatches(s', header, i, packets[i])
    {
      assert PacketMatches(s, header, i, packets[i]);
      assert s'.cuts[i] == s.cuts[i] && s'.cuts[i + 1] == s.cuts[i + 1];
      assert s'.Body(i) == s.Body(i);
    }
  }

  lemma NumberNext(w: Writer, acks: Acks)
    requires NumberedFromZero(w) && w.started
    ensures NumberedFromZero(Publish(w, acks))
  {
    var w' := Publish(w, acks);
    forall i: nat | i < |w'.published|
      ensures SequenceOf(w'.published, i) == (0 + i) % MODULUS
    {
      if i < |w.published| {
        assert SequenceOf(w.published, i) == (0 + i) % MODULUS;
      }
    }
  }

  /** Publishing keeps the session sound and starts an empty packet. */
  lemma Publishes(w: Writer, acks: Acks, header: seq<byte>, s: Session, pos: nat)
    requires Sound(w, header, s) && w.started && s.cuts[s.Count()] <= pos <= |Flatten(s.frames)|
    requires w.buffer == (if s.Count() == 0 then header else []) + Flatten(s.frames)[s.cuts[s.Count()]..pos]
    requires 1 <= |w.buffer| <= DATA_LENGTH && OpenOffset(s.frames, s.cuts[s.Count()], s.Count() == 0, w.offset)
    requires |s.frames| > 0 ==> Start(s.frames, |s.frames| - 1) < pos
    ensures Sound(Publish(w, acks), header, Cut(s, pos))
    ensures Publish(w, acks).started ==> Filling(Publish(w, acks), header, Cut(s, pos), pos)
  {
    var p := Packet(w.sequence, w.buffer, w.offset, w.reliable);
    assert Cut(s, pos).Valid();
    OpenPacket(header, s, pos, p);
    PublishedPacket(header, s, w.published, pos, p);
    NumberNext(w, acks);
    SizedNext(w.published, p);
    if Publish(w, acks).started {
      EmptyPacket(Publish(w, acks), header, Cut(s, pos), pos);
    }
  }

  lemma SizedNext(packets: seq<Packet>, p: Packet)
    requires Sized(packets) && 1 <= |p.payload| <= DATA_LENGTH
    ensures Sized(packets + [p])
  {
  }

  /** An empty packet in which no frame starts yet, at the end of what was published. */
  lemma EmptyPacket(w: Writer, header: seq<byte>, s: Session, pos: nat)
    requires s.Valid() && s.Count() > 0 && s.cuts[s.Count()] == pos
    requires w.buffer == [] && w.offset == NO_START && (|s.frames| > 0 ==> Start(s.frames, |s.frames| - 1) < pos)
    ensures Filling(w, header, s, pos)
  {
    StartEnds(s.frames);
    NextUnique(s.frames, pos, |s.frames|);
  }

  /** Data that fits leaves the packet open. */
  lemma Fits(w: Writer, header: seq<byte>, s: Session, pos: nat, data: seq<byte>)
    requires Sound(w, header, s) && w.started && Filling(w, header, s, pos)
    requires data == Flatten(s.frames)[pos..] && |w.buffer| + |data| < DATA_LENGTH
    ensures var w' := w.(buffer := w.buffer + data);
            Sound(w', header, s) && Filling(w', header, s, |Flatten(s.frames)|)
  {
    TakesOver(w, header, s, pos, |Flatten(s.frames)|);
  }

  lemma FullBuffer(w: Writer, header: seq<byte>, s: Session, pos: nat, data: seq<byte>, room: nat)
    requires Sound(w, header, s) && w.started && Filling(w, header, s, pos)
    requires data == Flatten(s.frames)[pos..] && |w.buffer| + room == DATA_LENGTH && room <= |data|
    ensures data[room..] == Flatten(s.frames)[pos + room..]
    ensures w.buffer + data[..room]
         == (if s.Count() == 0 then header else []) + Flatten(s.frames)[s.cuts[s.Count()]..pos + room]
  {
    TakesOver(w, header, s, pos, pos + room);
    SliceHead(Flatten(s.frames), pos, pos + room, |Flatten(s.frames)|);
    SliceTail(Flatten(s.frames), pos, pos + room, |Flatten(s.frames)|);
  }

  lemma StillSound(w: Writer, header: seq<byte>, s: Session, buffer: seq<byte>)
    requires Sound(w, header, s) && w.started
    ensures Sound(w.(buffer := buffer), header, s)
  {
  }

  /** Data that fills the packet is cut there. */
  lemma Fills(w: Writer, acks: Acks, header: seq<byte>, s: Session, pos: nat, data: seq<byte>, room: nat, w1: Writer,
              end: nat)
    requires Sound(w, header, s) && w.started && Filling(w, header, s, pos)
    requires |s.frames| > 0 && Start(s.frames, |s.frames| - 1) <= pos && data == Flatten(s.frames)[pos..]
    requires |w.buffer| + room == DATA_LENGTH && room <= |data| && w1 == w.(buffer := w.buffer + data[..room])
    requires end == pos + room
    ensures Sound(Publish(w1, acks), header, Cut(s, end))
    ensures Publish(w1, acks).started ==> Filling(Publish(w1, acks), header, Cut(s, end), end)
    ensures data[room..] == Flatten(s.frames)[end..]
  {
    FullBuffer(w, header, s, pos, data, room);
    StillSound(w, header, s, w1.buffer);
    PublishesFull(w1, acks, header, s, end);
  }

  lemma PublishesFull(w: Writer, acks: Acks, header: seq<byte>, s: Session, pos: nat)
    requires Sound(w, header, s) && w.started && s.cuts[s.Count()] <= pos <= |Flatten(s.frames)|
    requires w.buffer == (if s.Count() == 0 then header else []) + Flatten(s.frames)[s.cuts[s.Count()]..pos]
    requires |w.buffer| == DATA_LENGTH && OpenOffset(s.frames, s.cuts[s.Count()], s.Count() == 0, w.offset)
    requires |s.frames| > 0 && Start(s.frames, |s.frames| - 1) < pos
    ensures Sound(Publish(w, acks), header, Cut(s, pos))
    ensures Publish(w, acks).started ==> Filling(Publish(w, acks), header, Cut(s, pos), pos)
  {
    Publishes(w, acks, header, s, pos);
  }

  lemma WriteDataStep(w: Writer, acks: Acks, data: seq<byte>, room: nat, w1: Writer)
    requires |w.buffer| + room == DATA_LENGTH && 0 < room <= |data| && w1 == w.(buffer := w.buffer + data[..room])
    ensures WriteData(w, acks, data)
         == if Publish(w1, acks).started then WriteData(Publish(w1, acks), acks, data[room..]) else Publish(w1, acks)
  {
  }

  /** Writing the rest of the newest frame. */
  lemma {:induction false} Writes(w: Writer, acks: Acks, header: seq<byte>, s: Session, pos: nat, data: seq<byte>)
    returns (s': Session)
    requires Sound(w, header, s) && w.started && Filling(w, header, s, pos)
    requires |s.frames| > 0 && Start(s.frames, |s.frames| - 1) <= pos && data == Flatten(s.frames)[pos..]
    ensures s'.frames == s.frames && Sound(WriteData(w, acks, data), header, s')
    ensures WriteData(w, acks, data).started ==>
              Filling(WriteData(w, acks, data), header, s', |Flatten(s.frames)|)
    decreases |data|
  {
    var room := DATA_LENGTH - |w.buffer|;
    if |data| < room {
      s' := s;
      Fits(w, header, s, pos, data);
    } else {
      var w1 := w.(buffer := w.buffer + data[..room]);
      var w2, end, rest := Publish(w1, acks), pos + room, data[room..];
      Fills(w, acks, header, s, pos, data, room, w1, end);
      WriteDataStep(w, acks, data, room, w1);
      var cut := Cut(s, end);
      if w2.started {
        s' := Writes(w2, acks, header, cut, end, rest);
      } else {
        s' := cut;
      }
    }
  }

  /** The bytes from `pos` to `end` taken over into the buffer. */
  lemma TakesOver(w: Writer, header: seq<byte>, s: Session, pos: nat, end: nat)
    requires Sound(w, header, s) && Filling(w, header, s, pos) && pos <= end <= |Flatten(s.frames)|
    ensures w.buffer + Flatten(s.frames)[pos..end]
         == (if s.Count() == 0 then header else []) + Flatten(s.frames)[s.cuts[s.Count()]..end]
  {
    var stream, c := Flatten(s.frames), s.cuts[s.Count()];
    SliceAt(stream, c, pos, end);
    Assoc(if s.Count() == 0 then header else [], stream[c..pos], stream[pos..end]);
  }

  /** A new frame begins where the stream ends so far. */
  lemma BeginsFrame(w: Writer, header: seq<byte>, s: Session, f: Frame)
    requires Sound(w, header, s) && w.started && Filling(w, header, s, |Flatten(s.frames)|)
    ensures var w1 := w.(offset := if w.offset == NO_START then |w.buffer| else w.offset);
            && Sound(w1, header, More(s, f)) && Filling(w1, header, More(s, f), |Flatten(s.frames)|)
            && Start(s.frames + [f], |s.frames|) == |Flatten(s.frames)|
            && Flatten(s.frames + [f])[|Flatten(s.frames)|..] == f
  {
    var c := s.cuts[s.Count()];
    MoreFrames(header, s, w.published, f);
    NextPrefix(s.frames, f, c);
    StartPrefix(s.frames, f, |s.frames|);
    StartEnds(s.frames);
    assert Flatten(s.frames + [f])[c..|Flatten(s.frames)|] == Flatten(s.frames)[c..];
    var k := Next(s.frames, c);
    if k < |s.frames| && s.Count() > 0 {
      StartMonotone(s.frames, k, |s.frames|);
    }
  }

  /**
   * The sender is honest: whatever frames are written, however the transfer mode changes
   * and wherever an acknowledgement fails to come, the published packets are the header
   * and the frames, cut into packets of 1 to 249 bytes with honest offsets and consecutive
   * sequence numbers.
   */
  lemma {:induction false} SenderIsHonest(header: seq<byte>, reliable: bool, acks: Acks, ops: seq<Op>)
    returns (s: Session)
    requires |header| == HEADER_LENGTH
    ensures s.frames == FramesOf(ops) && Sound(RunWriter(header, reliable, acks, ops), header, s)
    ensures RunWriter(header, reliable, acks, ops).started ==>
              Filling(RunWriter(header, reliable, acks, ops), header, s, |Flatten(s.frames)|)
  {
    if |ops| == 0 {
      s := Session([], [0]);
      NextUnique([], 0, 0);
      var w := RunWriter(header, reliable, acks, ops);
      assert w == StartLog(reliable).(buffer := [] + header);
      assert w.buffer == header + Flatten<byte>([])[0..0];
    } else {
      var init, op := ops[..|ops| - 1], ops[|ops| - 1];
      var before := SenderIsHonest(header, reliable, acks, init);
      var w := RunWriter(header, reliable, acks, init);
      s := match op case Write(f) => More(before, f) case Reliable(_) => before;
      if op.Write? {
        MoreFrames(header, before, w.published, op.frame);
        if w.started {
          BeginsFrame(w, header, before, op.frame);
          var w1 := w.(offset := if w.offset == NO_START then |w.buffer| else w.offset);
          s := Writes(w1, acks, header, s, |Flatten(before.frames)|, op.frame);
        }
      } else if !op.on && w.reliable && |w.buffer| > 0 && w.started {
        Flushes(w, acks, header, before);
        s := Cut(before, |Flatten(before.frames)|);
      }
    }
  }

  // A missing acknowledgement ends the log.

  /** Packet `i` is not waiting for an acknowledgement that never came. */
  predicate Answered(packets: seq<Packet>, acks: Acks, i: nat)
    requires i < |packets|
  {
    packets[i].acked ==> acks(i)
  }

  /** All packets but the last were answered, and the log goes on exactly when the last was too. */
  ghost predicate EndsUnanswered(w: Writer, acks: Acks) {
    && (forall i :: 0 <= i < |w.published| - 1 ==> Answered(w.published, acks, i))
    && (w.started <==> forall i :: 0 <= i < |w.published| ==> Answered(w.published, acks, i))
    && (!w.started ==> w.buffer == [])
  }

  lemma PublishEnds(w: Writer, acks: Acks)
    requires EndsUnanswered(w, acks) && w.started
    ensures EndsUnanswered(Publish(w, acks), acks)
  {
    var n, more := |w.published|, Publish(w, acks).published;
    assert forall i :: 0 <= i < n ==> more[i] == w.published[i];
    forall i | 0 <= i < n
      ensures Answered(more, acks, i)
    {
      assert Answered(w.published, acks, i);
    }
    assert Answered(more, acks, n) <==> Publish(w, acks).started;
  }

  lemma {:induction false} WriteEnds(w: Writer, acks: Acks, data: seq<byte>)
    requires EndsUnanswered(w, acks) && w.started && |w.buffer| < DATA_LENGTH
    ensures EndsUnanswered(WriteData(w, acks, data), acks)
    decreases |data|
  {
    var room := DATA_LENGTH - |w.buffer|;
    if |data| < room {
      assert EndsUnanswered(w.(buffer := w.buffer + data), acks);
    } else {
      var w1 := w.(buffer := w.buffer + data[..room]);
      assert EndsUnanswered(w1, acks);
      PublishEnds(w1, acks);
      if Publish(w1, acks).started {
        WriteEnds(Publish(w1, acks), acks, data[room..]);
      }
    }
  }

  /**
   * In every run, the log stops with the first packet whose acknowledgement is missing: no
   * packet follows it, and the log has stopped exactly when there is one.
   */
  lemma {:induction false} MissingAckEndsLog(header: seq<byte>, reliable: bool, acks: Acks, ops: seq<Op>)
    ensures EndsUnanswered(RunWriter(header, reliable, acks, ops), acks)
  {
    if |ops| == 0 {
      WriteEnds(StartLog(reliable), acks, header);
    } else {
      var init, op := ops[..|ops| - 1], ops[|ops| - 1];
      MissingAckEndsLog(header, reliable, acks, init);
      var w := RunWriter(header, reliable, acks, init);
      if !w.started {
        assert EndsUnanswered(w.(reliable := !w.reliable), acks);
      } else if op.Write? {
        var w1 := w.(offset := if w.offset == NO_START then |w.buffer| else w.offset);
        assert EndsUnanswered(w1, acks);
        WriteEnds(w1, acks, op.frame);
      } else {
        PublishEnds(w, acks);
      }
    }
  }

  // The reliable section at the start of a log.

  predicate Continues(a: seq<Packet>, b: seq<Packet>) {
    |a| <= |b| && b[..|a|] == a
  }

  /** The packets that `b` has after those of `a` are all of one kind. */
  predicate ContinuesBy(a: seq<Packet>, b: seq<Packet>, acked: bool) {
    Continues(a, b) && forall i :: |a| <= i < |b| ==> b[i].acked == acked
  }

  lemma {:induction false} WriteExtends(w: Writer, acks: Acks, data: seq<byte>)
    requires |w.buffer| < DATA_LENGTH
    ensures ContinuesBy(w.published, WriteData(w, acks, data).published, w.reliable)
    ensures WriteData(w, acks, data).reliable == w.reliable
    decreases |data|
  {
    var room := DATA_LENGTH - |w.buffer|;
    if |data| >= room {
      var w1 := Publish(w.(buffer := w.buffer + data[..room]), acks);
      assert w1.published[..|w.published|] == w.published;
      if w1.started {
        WriteExtends(w1, acks, data[room..]);
        ExtendsAgain(w.published, w1.published, WriteData(w1, acks, data[room..]).published, w.reliable);
      }
    }
  }

  lemma ExtendsAgain(a: seq<Packet>, b: seq<Packet>, c: seq<Packet>, acked: bool)
    requires ContinuesBy(a, b, acked) && ContinuesBy(b, c, acked)
    ensures ContinuesBy(a, c, acked)
  {
    assert c[..|a|] == c[..|b|][..|a|];
    assert forall i :: 0 <= i < |b| ==> c[i] == c[..|b|][i];
  }

  /** What was published stays published. */
  lemma {:induction false} RunExtends(header: seq<byte>, reliable: bool, acks: Acks, ops: seq<Op>, n: nat)
    requires n <= |ops|
    ensures Continues(RunWriter(header, reliable, acks, ops[..n]).published,
                    RunWriter(header, reliable, acks, ops).published)
    decreases |ops|
  {
    if n == |ops| {
      assert ops[..n] == ops;
    } else {
      var init, op := ops[..|ops| - 1], ops[|ops| - 1];
      RunExtends(header, reliable, acks, init, n);
      assert init[..n] == ops[..n];
      var w, w' := RunWriter(header, reliable, acks, init), RunWriter(header, reliable, acks, ops);
      StepExtends(w, acks, op);
      var first := RunWriter(header, reliable, acks, ops[..n]).published;
      assert w'.published[..|first|] == w'.published[..|w.published|][..|first|];
    }
  }

  lemma StepExtends(w: Writer, acks: Acks, op: Op)
    requires |w.buffer| < DATA_LENGTH
    ensures Continues(w.published, (match op case Write(f) => Written(w, acks, f)
                                           case Reliable(on) => SetReliable(w, acks, on)).published)
  {
    match op
    case Write(f) =>
      if w.started {
        WriteExtends(w.(offset := if w.offset == NO_START then |w.buffer| else w.offset), acks, f);
      }
    case Reliable(on) =>
      assert Publish(w, acks).published[..|w.published|] == w.published;
  }

  predicate OnlyWrites(ops: seq<Op>) {
    forall i :: 0 <= i < |ops| ==> ops[i].Write?
  }

  predicate AllAcked(packets: seq<Packet>) {
    forall i :: 0 <= i < |packets| ==> packets[i].acked
  }

  lemma {:induction false} SectionStaysReliable(header: seq<byte>, acks: Acks, section: seq<Op>)
    requires OnlyWrites(section)
    ensures var w := RunWriter(header, true, acks, section);
            w.reliable && AllAcked(w.published)
  {
    if |section| == 0 {
      WriteExtends(StartLog(true), acks, header);
    } else {
      var init, op := section[..|section| - 1], section[|section| - 1];
      SectionStaysReliable(header, acks, init);
      var w := RunWriter(header, true, acks, init);
      if w.started {
        WriteExtends(w.(offset := if w.offset == NO_START then |w.buffer| else w.offset), acks, op.frame);
        var more := RunWriter(header, true, acks, section).published;
        assert forall i :: 0 <= i < |w.published| ==> more[i] == more[..|w.published|][i];
      }
    }
  }

  /** All that was written in reliable mode goes out in packets that ask for an acknowledgement. */
  lemma SectionIsReliable(header: seq<byte>, acks: Acks, section: seq<Op>)
    requires OnlyWrites(section)
    ensures var w := RunWriter(header, true, acks, section + [Reliable(false)]);
            AllAcked(w.published) && w.buffer == [] && !w.reliable
  {
    SectionStaysReliable(header, acks, section);
    assert (section + [Reliable(false)])[..|section|] == section;
  }

  lemma {:induction false} FramesPrefix(ops: seq<Op>, n: nat)
    requires n <= |ops|
    ensures |FramesOf(ops[..n])| <= |FramesOf(ops)| && FramesOf(ops)[..|FramesOf(ops[..n])|] == FramesOf(ops[..n])
    decreases |ops|
  {
    if n == |ops| {
      assert ops[..n] == ops;
    } else {
      var init := ops[..|ops| - 1];
      FramesPrefix(init, n);
      assert init[..n] == ops[..n];
      var m := |FramesOf(ops[..n])|;
      assert FramesOf(ops)[..m] == FramesOf(init)[..m];
    }
  }

  /** A flush between frames. */
  lemma Flushes(w: Writer, acks: Acks, header: seq<byte>, s: Session)
    requires Sound(w, header, s) && w.started && w.buffer != [] && Filling(w, header, s, |Flatten(s.frames)|)
    ensures var s' := Cut(s, |Flatten(s.frames)|);
            && Sound(Publish(w, acks), header, s')
            && (Publish(w, acks).started ==> Filling(Publish(w, acks), header, s', |Flatten(s.frames)|))
  {
    StartEnds(s.frames);
    if |s.frames| > 0 {
      StartStep(s.frames, |s.frames| - 1);
    }
    Publishes(w, acks, header, s, |Flatten(s.frames)|);
  }

  class LogWriterMavlink {
    const data: array<byte>
    const acks: Acks
    var length: nat
    var offset: byte
    var sequence: nat
    var started: bool
    var reliable: bool
    var published: seq<Packet>

    ghost predicate Valid()
      reads this
    {
      data.Length == DATA_LENGTH && length <= DATA_LENGTH
    }

    ghost function View(): Writer
      requires Valid()
      reads this, data
    {
      Writer(started, reliable, sequence, data[..length], offset, published)
    }

    /** A writer on which the log was just started. */
    constructor (acks: Acks, reliable: bool)
      ensures Valid() && View() == StartLog(reliable) && this.acks == acks && fresh(data)
    {
      data := new byte[DATA_LENGTH];
      this.acks, this.reliable := acks, reliable;
      length, offset, sequence, started, published := 0, 0, 0, true, [];
    }

    /** `ok` is false when the acknowledgement timed out and the log was stopped. */
    method PublishMessage() returns (ok: bool)
      requires Valid()
      modifies this
      ensures Valid() && length == 0 && View() == Publish(old(View()), acks)
      ensures ok <==> !old(reliable) || acks(|old(published)|)
    {
      var index := |published|;
      published := published + [Packet(sequence, data[..length], offset, reliable)];
      if reliable && !acks(index) {
        length, started := 0, false;
        return false;
      }
      sequence := (sequence + 1) % MODULUS;
      length := 0;
      offset := NO_START;
      ok := true;
    }

    method Append(bytes: seq<byte>)
      requires Valid() && length + |bytes| <= DATA_LENGTH
      modifies this`length, data
      ensures Valid() && View() == old(View()).(buffer := old(View()).buffer + bytes)
    {
      forall i | 0 <= i < |bytes| {
        data[length + i] := bytes[i];
      }
      length := length + |bytes|;
    }

    method WriteMessage(message: seq<byte>)
      requires Valid() && length < DATA_LENGTH
      modifies this, data
      ensures Valid() && length < DATA_LENGTH
      ensures View() == Written(old(View()), acks, message)
    {
      if !started {
        return;
      }
      if offset == NO_START {
        offset := length;
      }
      var rest := message;
      ghost var goal := WriteData(View(), acks, message);
      assert goal == Written(old(View()), acks, message);
      while |rest| > 0
        invariant Valid() && length < DATA_LENGTH && started
        invariant WriteData(View(), acks, rest) == goal
        decreases |rest|
      {
        var room := DATA_LENGTH - length;
        var sendLength := if |rest| < room then |rest| else room;
        ghost var w := View();
        assert |rest| < room ==> rest[..sendLength] == rest;
        Append(rest[..sendLength]);
        rest := rest[sendLength..];
        if length >= DATA_LENGTH {
          var ok := PublishMessage();
          if !ok {
            return;
          }
        } else {
          assert data[..length] + [] == data[..length];
        }
      }
      assert data[..length] + [] == data[..length];
    }

    method SetNeedReliableTransfer(needReliable: bool)
      requires Valid() && length < DATA_LENGTH
      modifies this
      ensures Valid() && length < DATA_LENGTH
      ensures View() == SetReliable(old(View()), acks, needReliable)
    {
      if !needReliable && reliable {
        if length > 0 {
          var _ := PublishMessage();
        }
      }
      reliable := needReliable;
    }
  }
}
