/**
 * The incremental MAVLink 1 parser in robust mode (Tools/mavlink_px4.py): a tokenizer that
 * skips noise byte by byte, and the class that works by updating its buffer and counters.
 */
module MavlinkParser {
  import opened Bytes
  import opened MavlinkCodec

  // Cutting the input into pieces: single noise bytes, and frames.

  /** Length of the piece at the front of `buf`; 0 when it is not complete. */
  function PieceLength(buf: seq<byte>): (n: nat)
    ensures n <= |buf|
  {
    if |buf| >= 1 && buf[0] != MAGIC then 1
    else if |buf| >= 2 && |buf| >= buf[1] as int + 8 then buf[1] as int + 8
    else 0
  }

  predicate IsFrame(f: seq<byte>) {
    |f| >= 8 && f[0] == MAGIC && |f| == f[1] as int + 8
  }

  predicate IsPiece(p: seq<byte>) {
    IsFrame(p) || (|p| == 1 && p[0] != MAGIC)
  }

  datatype Split = Split(pieces: seq<seq<byte>>, rest: seq<byte>)

  /** All complete pieces of `buf`, and what is left. */
  function Pieces(buf: seq<byte>): Split
    decreases |buf|
  {
    var n := PieceLength(buf);
    if n == 0 then Split([], buf) else
    var more := Pieces(buf[n..]);
    Split([buf[..n]] + more.pieces, more.rest)
  }

  /** A complete piece at the front is cut off, whatever follows it. */
  lemma CutPiece(piece: seq<byte>, more: seq<byte>)
    requires IsPiece(piece)
    ensures Pieces(piece + more) == Split([piece] + Pieces(more).pieces, Pieces(more).rest)
  {
    var n := |piece|;
    assert PieceLength(piece + more) == n;
    assert (piece + more)[..n] == piece && (piece + more)[n..] == more;
  }

  lemma FrontPiece(buf: seq<byte>)
    requires PieceLength(buf) > 0
    ensures var n := PieceLength(buf);
            IsPiece(buf[..n]) && buf == buf[..n] + buf[n..]
  {
  }

  /** Cutting in two parts is cutting at once. */
  lemma {:induction false} PiecesSplit(a: seq<byte>, b: seq<byte>)
    ensures var first := Pieces(a);
            var second := Pieces(first.rest + b);
            Pieces(a + b) == Split(first.pieces + second.pieces, second.rest)
    decreases |a|
  {
    var n := PieceLength(a);
    if n == 0 {
    } else {
      FrontPiece(a);
      var piece, more := a[..n], a[n..];
      PiecesSplit(more, b);
      CutPiece(piece, more);
      CutPiece(piece, more + b);
      Assoc(piece, more, b);
      Assoc([piece], Pieces(more).pieces, Pieces(Pieces(more).rest + b).pieces);
    }
  }

  /** No byte is lost or made up, and nothing complete is left. */
  lemma {:induction false} PiecesConserve(buf: seq<byte>)
    ensures Flatten(Pieces(buf).pieces) + Pieces(buf).rest == buf
    ensures PieceLength(Pieces(buf).rest) == 0
    decreases |buf|
  {
    var n := PieceLength(buf);
    if n == 0 {
    } else {
      FrontPiece(buf);
      PiecesConserve(buf[n..]);
      CutPiece(buf[..n], buf[n..]);
      FlattenConcat([buf[..n]], Pieces(buf[n..]).pieces);
      Assoc(buf[..n], Flatten(Pieces(buf[n..]).pieces), Pieces(buf[n..]).rest);
    }
  }

  // The messages that the pieces stand for.

  ghost function Interpret(d: Dialect, piece: seq<byte>): (m: Message)
    requires d.Valid()
    ensures m.raw == piece
  {
    if |piece| == 1 then BadData(piece, BadPrefix) else Decode(d, piece)
  }

  ghost function Messages(d: Dialect, pieces: seq<seq<byte>>): (ms: seq<Message>)
    requires d.Valid()
    ensures |ms| == |pieces|
  {
    seq(|pieces|, i requires 0 <= i < |pieces| => Interpret(d, pieces[i]))
  }

  ghost function GoodCount(ms: seq<Message>): (n: nat)
    ensures n <= |ms|
  {
    if |ms| == 0 then 0 else GoodCount(ms[..|ms| - 1]) + if ms[|ms| - 1].Good? then 1 else 0
  }

  lemma {:induction false} GoodCountConcat(a: seq<Message>, b: seq<Message>)
    ensures GoodCount(a + b) == GoodCount(a) + GoodCount(b)
  {
    if |b| == 0 {
      assert a + b == a;
    } else {
      GoodCountConcat(a, b[..|b| - 1]);
      assert (a + b)[..|a + b| - 1] == a + b[..|b| - 1];
    }
  }

  /** The raw bytes of messages, one after the other. */
  ghost function RawBytes(ms: seq<Message>): seq<byte> {
    Flatten(seq(|ms|, i requires 0 <= i < |ms| => ms[i].raw))
  }

  lemma RawOfMessages(d: Dialect, pieces: seq<seq<byte>>)
    requires d.Valid()
    ensures RawBytes(Messages(d, pieces)) == Flatten(pieces)
  {
    var ms := Messages(d, pieces);
    assert seq(|ms|, i requires 0 <= i < |ms| => ms[i].raw) == pieces;
  }

  // The parser's state, and whole runs of it.

  /** How long the message being collected is expected to be. */
  function Expected(rest: seq<byte>): nat {
    if |rest| >= 2 then rest[1] as int + 8 else 6
  }

  datatype State = State(buf: seq<byte>, expected: nat, received: nat, errors: nat, bytes: nat) {
    /** `expected` is stale only when a message was just taken. */
    predicate Valid() {
      expected == 6 || (|buf| >= 2 && buf[0] == MAGIC && expected == buf[1] as int + 8)
    }
  }

  const INITIAL := State([], 6, 0, 0, 0)

  function BytesNeeded(st: State): (n: nat)
    ensures n >= 1
  {
    if st.expected <= |st.buf| then 1 else st.expected - |st.buf|
  }

  /** `parse_buffer`: the state it leaves and the messages it returns. */
  ghost function Feed(d: Dialect, st: State, chunk: seq<byte>): (State, seq<Message>)
    requires d.Valid()
  {
    Taken(d, st, Pieces(st.buf + chunk), |chunk|)
  }

  /** The messages of all complete pieces, counted, and the rest of `n` more bytes kept. */
  ghost function Taken(d: Dialect, st: State, split: Split, n: nat): (State, seq<Message>)
    requires d.Valid()
  {
    var ms := Messages(d, split.pieces);
    (State(split.rest, Expected(split.rest), st.received + GoodCount(ms), st.errors + (|ms| - GoodCount(ms)),
           st.bytes + n), ms)
  }

  lemma TakenTwice(d: Dialect, st: State, a: Split, m: nat, b: Split, n: nat)
    requires d.Valid()
    ensures var first := Taken(d, st, a, m);
            var second := Taken(d, first.0, b, n);
            Taken(d, st, Split(a.pieces + b.pieces, b.rest), m + n) == (second.0, first.1 + second.1)
  {
    MessagesSplit(d, a.pieces, b.pieces);
  }

  ghost function FeedAll(d: Dialect, chunks: seq<seq<byte>>): (State, seq<Message>)
    requires d.Valid()
  {
    if |chunks| == 0 then (INITIAL, []) else
    var before := FeedAll(d, chunks[..|chunks| - 1]);
    var last := Feed(d, before.0, chunks[|chunks| - 1]);
    (last.0, before.1 + last.1)
  }

  /** Feeding `a` and then `b` is feeding `a + b`. */
  lemma FeedTwice(d: Dialect, st: State, a: seq<byte>, b: seq<byte>)
    requires d.Valid()
    ensures var first := Feed(d, st, a);
            var second := Feed(d, first.0, b);
            Feed(d, st, a + b) == (second.0, first.1 + second.1)
  {
    PiecesSplit(st.buf + a, b);
    Assoc(st.buf, a, b);
    FeedByPieces(d, st, a, b, Pieces(st.buf + a), Pieces(Pieces(st.buf + a).rest + b), Pieces(st.buf + (a + b)));
  }

  lemma FeedByPieces(d: Dialect, st: State, a: seq<byte>, b: seq<byte>, first: Split, second: Split, both: Split)
    requires d.Valid() && both == Split(first.pieces + second.pieces, second.rest)
    ensures var st1 := Taken(d, st, first, |a|);
            var st2 := Taken(d, st1.0, second, |b|);
            Taken(d, st, both, |a + b|) == (st2.0, st1.1 + st2.1) && st1.0.buf == first.rest
  {
    TakenTwice(d, st, first, |a|, second, |b|);
  }

  lemma MessagesSplit(d: Dialect, a: seq<seq<byte>>, b: seq<seq<byte>>)
    requires d.Valid()
    ensures Messages(d, a + b) == Messages(d, a) + Messages(d, b)
    ensures GoodCount(Messages(d, a + b)) == GoodCount(Messages(d, a)) + GoodCount(Messages(d, b))
    ensures |a + b| == |a| + |b|
  {
    assert Messages(d, a + b) == Messages(d, a) + Messages(d, b);
    GoodCountConcat(Messages(d, a), Messages(d, b));
  }

  /**
   * Chunking independence: however a byte stream is split, the parser returns the same
   * messages and ends in the same state, counters included.
   */
  lemma {:induction false} ChunkingIndependence(d: Dialect, chunks: seq<seq<byte>>)
    requires d.Valid()
    ensures FeedAll(d, chunks) == Feed(d, INITIAL, Flatten(chunks))
  {
    if |chunks| == 0 {
      FeedNothing(d);
    } else {
      var init, last := chunks[..|chunks| - 1], chunks[|chunks| - 1];
      ChunkingIndependence(d, init);
      FlattenAppend(init, last);
      assert chunks == init + [last];
      FeedLast(d, init, last, Flatten(init));
    }
  }

  lemma FeedNothing(d: Dialect)
    requires d.Valid()
    ensures Feed(d, INITIAL, []) == (INITIAL, [])
  {
    assert INITIAL.buf + [] == [] && Pieces([]) == Split([], []);
  }

  lemma FeedLast(d: Dialect, init: seq<seq<byte>>, last: seq<byte>, s: seq<byte>)
    requires d.Valid() && FeedAll(d, init) == Feed(d, INITIAL, s)
    ensures FeedAll(d, init + [last]) == Feed(d, INITIAL, s + last)
  {
    assert (init + [last])[..|init|] == init;
    FeedTwice(d, INITIAL, s, last);
  }

  /**
   * Parser conservation: the raw bytes of all messages returned, followed by the buffer,
   * are the bytes received; and every message is counted once, as a packet or an error.
   */
  lemma Conservation(d: Dialect, chunks: seq<seq<byte>>)
    requires d.Valid()
    ensures var (st, ms) := FeedAll(d, chunks);
            && RawBytes(ms) + st.buf == Flatten(chunks) && st.bytes == |Flatten(chunks)|
            && st.received == GoodCount(ms) && st.received + st.errors == |ms|
            && PieceLength(st.buf) == 0 && st.Valid()
  {
    ChunkingIndependence(d, chunks);
    var s := Flatten(chunks);
    assert INITIAL.buf + s == s;
    PiecesConserve(s);
    TakenConserves(d, Pieces(s), |s|);
  }

  lemma TakenConserves(d: Dialect, split: Split, n: nat)
    requires d.Valid() && PieceLength(split.rest) == 0
    ensures var (st, ms) := Taken(d, INITIAL, split, n);
            && RawBytes(ms) == Flatten(split.pieces) && st.buf == split.rest && st.bytes == n
            && st.received == GoodCount(ms) && st.received + st.errors == |ms| && st.Valid()
  {
    RawOfMessages(d, split.pieces);
  }

  // Streams of frames and noise.

  /** A stream of frames and noise bytes is cut into exactly these, and a part of one waits. */
  lemma {:induction false} CutStream(pieces: seq<seq<byte>>, part: seq<byte>)
    requires forall i :: 0 <= i < |pieces| ==> IsPiece(pieces[i])
    requires PieceLength(part) == 0
    ensures Pieces(Flatten(pieces) + part) == Split(pieces, part)
  {
    if |pieces| == 0 {
      assert Flatten(pieces) + part == part;
    } else {
      CutStream(pieces[1..], part);
      assert Flatten(pieces) == pieces[0] + Flatten(pieces[1..]);
      Assoc(pieces[0], Flatten(pieces[1..]), part);
      CutPiece(pieces[0], Flatten(pieces[1..]) + part);
    }
  }

  /** What is on the line: messages that were sent, frames damaged on the way, and noise between them. */
  datatype Signal = Noise(b: byte) | Sent(message: Outgoing) | Damaged(frame: seq<byte>)

  ghost predicate Plausible(d: Dialect, s: Signal) {
    match s
    case Noise(b) => b != MAGIC
    case Sent(m) => Sendable(d, m)
    case Damaged(f) => IsFrame(f) && !Intact(d, f)
  }

  ghost function SignalBytes(d: Dialect, s: Signal): seq<byte>
    requires Plausible(d, s)
  {
    match s
    case Noise(b) => [b]
    case Sent(m) => Pack(d, m)
    case Damaged(f) => f
  }

  /** What the parser must make of it: the message, or an error that holds the bytes. */
  ghost predicate Answers(d: Dialect, s: Signal, m: Message)
    requires Plausible(d, s)
  {
    match s
    case Noise(b) => m == BadData([b], BadPrefix)
    case Sent(message) => m == Echo(d, message)
    case Damaged(f) => m.BadData? && m.raw == f
  }

  ghost function Line(d: Dialect, signals: seq<Signal>): seq<seq<byte>>
    requires forall i :: 0 <= i < |signals| ==> Plausible(d, signals[i])
  {
    seq(|signals|, i requires 0 <= i < |signals| => SignalBytes(d, signals[i]))
  }

  lemma SignalIsPiece(d: Dialect, s: Signal)
    requires d.Valid() && Plausible(d, s)
    ensures IsPiece(SignalBytes(d, s)) && Answers(d, s, Interpret(d, SignalBytes(d, s)))
  {
    match s
    case Noise(_) =>
    case Sent(m) => CodecRoundTrip(d, m);
    case Damaged(f) => AcceptedIff(d, f);
  }

  ghost function SentCount(signals: seq<Signal>): nat {
    if |signals| == 0 then 0
    else SentCount(signals[..|signals| - 1]) + if signals[|signals| - 1].Sent? then 1 else 0
  }

  lemma {:induction false} GoodAreSent(d: Dialect, signals: seq<Signal>, ms: seq<Message>)
    requires |ms| == |signals| && forall i :: 0 <= i < |signals| ==> Plausible(d, signals[i])
    requires forall i :: 0 <= i < |signals| ==> Answers(d, signals[i], ms[i])
    ensures GoodCount(ms) == SentCount(signals)
  {
    if |ms| == 0 {
    } else {
      var n := |ms| - 1;
      GoodAreSent(d, signals[..n], ms[..n]);
      assert Answers(d, signals[n], ms[n]);
    }
  }

  /**
   * Stream round trip: whatever messages are sent, with whatever noise and damaged frames
   * between them, and however the line is read in chunks, the parser returns exactly those
   * messages in order, counted as received, one counted error for each noise byte and for each
   * damaged frame, and keeps nothing.
   */
  lemma StreamRoundTrip(d: Dialect, signals: seq<Signal>, chunks: seq<seq<byte>>)
    requires d.Valid() && forall i :: 0 <= i < |signals| ==> Plausible(d, signals[i])
    requires Flatten(chunks) == Flatten(Line(d, signals))
    ensures var (st, ms) := FeedAll(d, chunks);
            && st.buf == [] && |ms| == |signals|
            && st.received == SentCount(signals) && st.received + st.errors == |signals|
            && forall i :: 0 <= i < |signals| ==> Answers(d, signals[i], ms[i])
  {
    var line := Line(d, signals);
    forall i | 0 <= i < |signals|
      ensures IsPiece(line[i]) && Answers(d, signals[i], Interpret(d, line[i]))
    {
      SignalIsPiece(d, signals[i]);
    }
    ChunkingIndependence(d, chunks);
    CutStream(line, []);
    assert INITIAL.buf + Flatten(chunks) == Flatten(line) + [];
    TakenLine(d, signals, line, |Flatten(chunks)|);
  }

  lemma TakenLine(d: Dialect, signals: seq<Signal>, line: seq<seq<byte>>, n: nat)
    requires d.Valid() && |line| == |signals| && forall i :: 0 <= i < |signals| ==> Plausible(d, signals[i])
    requires forall i :: 0 <= i < |signals| ==> Answers(d, signals[i], Interpret(d, line[i]))
    ensures var (st, ms) := Taken(d, INITIAL, Split(line, []), n);
            && st.buf == [] && |ms| == |signals|
            && st.received == SentCount(signals) && st.received + st.errors == |signals|
            && forall i :: 0 <= i < |signals| ==> Answers(d, signals[i], ms[i])
  {
    GoodAreSent(d, signals, Messages(d, line));
  }

  // Reading ahead.

  ghost predicate Boundary(pieces: seq<seq<byte>>, j: nat, e: nat) {
    j < |pieces| && IsFrame(pieces[j]) && e == |Flatten(pieces[..j + 1])|
  }

  /** The piece in which position `p` of the stream lies. */
  lemma {:induction false} Locate(pieces: seq<seq<byte>>, p: nat) returns (k: nat)
    requires p < |Flatten(pieces)|
    ensures k < |pieces| && |Flatten(pieces[..k])| <= p < |Flatten(pieces[..k])| + |pieces[k]|
    ensures Flatten(pieces)[..p] == Flatten(pieces[..k]) + pieces[k][..p - |Flatten(pieces[..k])|]
  {
    var init, last := pieces[..|pieces| - 1], pieces[|pieces| - 1];
    assert pieces == init + [last];
    FlattenAppend(init, last);
    if |Flatten(init)| <= p {
      k := |pieces| - 1;
      assert pieces[..k] == init;
    } else {
      k := Locate(init, p);
      assert init[..k] == pieces[..k];
      assert Flatten(pieces)[..p] == Flatten(init)[..p];
    }
  }

  lemma {:induction false} BoundaryAfter(pieces: seq<seq<byte>>, k: nat, j: nat)
    requires k <= j < |pieces|
    ensures |Flatten(pieces[..k])| + |pieces[j]| <= |Flatten(pieces[..j + 1])|
    ensures k < j ==> |Flatten(pieces[..k + 1])| <= |Flatten(pieces[..j + 1])|
  {
    assert pieces[..j + 1] == pieces[..j] + [pieces[j]];
    FlattenAppend(pieces[..j], pieces[j]);
    assert pieces[..j] == pieces[..k] + pieces[k..j];
    FlattenConcat(pieces[..k], pieces[k..j]);
    if k < j {
      assert pieces[..j + 1] == pieces[..k + 1] + pieces[k + 1..j + 1];
      FlattenConcat(pieces[..k + 1], pieces[k + 1..j + 1]);
    }
  }

  /**
   * Read-ahead bound: a reader that asks for `bytes_needed` after `p` bytes of a stream of
   * frames and noise never reads past the end of a frame.
   */
  lemma NeverReadsPastAFrame(d: Dialect, pieces: seq<seq<byte>>, chunks: seq<seq<byte>>, p: nat, j: nat, e: nat)
    requires d.Valid() && forall i :: 0 <= i < |pieces| ==> IsPiece(pieces[i])
    requires p <= |Flatten(pieces)| && Flatten(chunks) == Flatten(pieces)[..p]
    requires Boundary(pieces, j, e) && p < e
    ensures p + BytesNeeded(FeedAll(d, chunks).0) <= e
  {
    BoundaryWithin(pieces, j);
    var k := Locate(pieces, p);
    var start := |Flatten(pieces[..k])|;
    var part := pieces[k][..p - start];
    Waiting(d, pieces[..k], pieces[k], part, chunks);
    Room(pieces, p, k, j, e);
  }

  /** A frame end after `p` is at least as far away as the end of the piece in which `p` lies. */
  lemma Room(pieces: seq<seq<byte>>, p: nat, k: nat, j: nat, e: nat)
    requires k < |pieces| && |Flatten(pieces[..k])| <= p < |Flatten(pieces[..k])| + |pieces[k]|
    requires Boundary(pieces, j, e) && p < e
    ensures |Flatten(pieces[..k])| + |pieces[k]| <= e && (p == |Flatten(pieces[..k])| ==> p + 8 <= e)
  {
    if j < k {
      BoundaryBefore(pieces, j, k);
    } else {
      BoundaryAfter(pieces, k, j);
      BoundaryAfter(pieces, k, k);
    }
  }

  /** In the middle of a piece, the parser waits for no more than the rest of it. */
  lemma Waiting(d: Dialect, pieces: seq<seq<byte>>, piece: seq<byte>, part: seq<byte>, chunks: seq<seq<byte>>)
    requires d.Valid() && (forall i :: 0 <= i < |pieces| ==> IsPiece(pieces[i])) && IsPiece(piece)
    requires |part| < |piece| && part == piece[..|part|] && Flatten(chunks) == Flatten(pieces) + part
    ensures BytesNeeded(FeedAll(d, chunks).0) <= if part == [] then 8 else |piece| - |part|
  {
    assert PieceLength(part) == 0;
    CutStream(pieces, part);
    ChunkingIndependence(d, chunks);
    assert INITIAL.buf + Flatten(chunks) == Flatten(pieces) + part;
  }

  /**
   * How much the parser waits for: in a frame whose length byte has arrived, exactly the rest
   * of the frame; before that, the rest of a header.
   */
  lemma NeedsExactly(d: Dialect, pieces: seq<seq<byte>>, frame: seq<byte>, part: seq<byte>, chunks: seq<seq<byte>>)
    requires d.Valid() && (forall i :: 0 <= i < |pieces| ==> IsPiece(pieces[i])) && IsFrame(frame)
    requires |part| < |frame| && part == frame[..|part|] && Flatten(chunks) == Flatten(pieces) + part
    ensures BytesNeeded(FeedAll(d, chunks).0) == if |part| >= 2 then |frame| - |part| else 6 - |part|
  {
    assert PieceLength(part) == 0;
    CutStream(pieces, part);
    ChunkingIndependence(d, chunks);
    assert INITIAL.buf + Flatten(chunks) == Flatten(pieces) + part;
  }

  lemma BoundaryWithin(pieces: seq<seq<byte>>, j: nat)
    requires j < |pieces|
    ensures |Flatten(pieces[..j + 1])| <= |Flatten(pieces)|
  {
    assert pieces == pieces[..j + 1] + pieces[j + 1..];
    FlattenConcat(pieces[..j + 1], pieces[j + 1..]);
  }

  lemma BoundaryBefore(pieces: seq<seq<byte>>, j: nat, k: nat)
    requires j < k <= |pieces|
    ensures |Flatten(pieces[..j + 1])| <= |Flatten(pieces[..k])|
  {
    assert pieces[..k] == pieces[..j + 1] + pieces[j + 1..k];
    FlattenConcat(pieces[..j + 1], pieces[j + 1..k]);
  }

  // The object that parses and sends.

  /** `parse_char`: takes bytes in and returns at most one message. */
  ghost function ParseStep(d: Dialect, st: State, c: seq<byte>): (State, Option<Message>)
    requires d.Valid() && st.Valid()
  {
    var buf := st.buf + c;
    var n := PieceLength(buf);
    var st1 := st.(buf := buf[n..], expected := if n == 0 then Expected(buf) else 6, bytes := st.bytes + |c|);
    if n == 0 then (st1, None)
    else
      var m := Interpret(d, buf[..n]);
      (if m.Good? then st1.(received := st.received + 1) else st1.(errors := st.errors + 1), Some(m))
  }

  /** Taking one message and then draining is draining. */
  lemma FeedAfterStep(d: Dialect, st: State, c: seq<byte>)
    requires d.Valid() && st.Valid()
    ensures var (st1, m) := ParseStep(d, st, c);
            && st1.Valid()
            && (m.None? ==> Feed(d, st, c) == (st1, []))
            && (m.Some? ==> |st1.buf| < |st.buf + c|
                            && Feed(d, st, c) == (Feed(d, st1, []).0, [m.value] + Feed(d, st1, []).1))
  {
    var n := PieceLength(st.buf + c);
    if n > 0 {
      FrontPiece(st.buf + c);
      FeedTakes(d, st, c, ParseStep(d, st, c).0, (st.buf + c)[..n]);
    }
  }

  /** Draining begins with the piece at the front. */
  lemma FeedTakes(d: Dialect, st: State, c: seq<byte>, st1: State, piece: seq<byte>)
    requires d.Valid() && IsPiece(piece) && st.buf + c == piece + st1.buf && st1.bytes == st.bytes + |c|
    requires var good := if Interpret(d, piece).Good? then 1 else 0;
             st1.received == st.received + good && st1.errors == st.errors + (1 - good)
    ensures Feed(d, st, c) == (Feed(d, st1, []).0, [Interpret(d, piece)] + Feed(d, st1, []).1)
  {
    CutPiece(piece, st1.buf);
    assert st1.buf + [] == st1.buf;
    TakenAfter(d, st, st1, piece, Pieces(st1.buf), |c|);
  }

  lemma TakenAfter(d: Dialect, st: State, st1: State, piece: seq<byte>, more: Split, n: nat)
    requires d.Valid() && st1.bytes == st.bytes + n
    requires var good := if Interpret(d, piece).Good? then 1 else 0;
             st1.received == st.received + good && st1.errors == st.errors + (1 - good)
    ensures var rest := Taken(d, st1, more, 0);
            Taken(d, st, Split([piece] + more.pieces, more.rest), n) == (rest.0, [Interpret(d, piece)] + rest.1)
  {
    MessagesSplit(d, [piece], more.pieces);
    MessagesOfOne(d, piece);
  }

  lemma MessagesOfOne(d: Dialect, piece: seq<byte>)
    requires d.Valid()
    ensures Messages(d, [piece]) == [Interpret(d, piece)]
    ensures GoodCount(Messages(d, [piece])) == if Interpret(d, piece).Good? then 1 else 0
  {
    assert Messages(d, [piece]) == [Interpret(d, piece)];
    assert GoodCount([Interpret(d, piece)]) == if Interpret(d, piece).Good? then 1 else 0;
  }

  class Mavlink {
    const dialect: Dialect
    const system: byte
    const component: byte
    var buf: seq<byte>
    var expectedLength: nat
    var totalPacketsReceived: nat
    var totalReceiveErrors: nat
    var totalBytesReceived: nat
    var sequence: byte
    var file: seq<byte>
    var totalPacketsSent: nat
    var totalBytesSent: nat

    ghost function View(): State
      reads this
    {
      State(buf, expectedLength, totalPacketsReceived, totalReceiveErrors, totalBytesReceived)
    }

    constructor (dialect: Dialect, system: byte, component: byte)
      ensures View() == INITIAL && sequence == 0 && file == []
      ensures this.dialect == dialect && this.system == system && this.component == component
    {
      this.dialect, this.system, this.component := dialect, system, component;
      buf, expectedLength, totalPacketsReceived, totalReceiveErrors, totalBytesReceived := [], 6, 0, 0, 0;
      sequence, file, totalPacketsSent, totalBytesSent := 0, [], 0, 0;
    }

    method ParseChar(c: seq<byte>) returns (m: Option<Message>)
      requires dialect.Valid() && View().Valid()
      modifies `buf, `expectedLength, `totalPacketsReceived, `totalReceiveErrors, `totalBytesReceived
      ensures (View(), m) == ParseStep(dialect, old(View()), c)
    {
      buf := buf + c;
      totalBytesReceived := totalBytesReceived + |c|;
      if |buf| >= 1 && buf[0] != MAGIC {
        var noise := SkipByte();
        return Some(noise);
      }
      if |buf| >= 2 {
        expectedLength := buf[1] as int + 8;
      }
      if expectedLength >= 8 && |buf| >= expectedLength {
        var message := TakeFrame();
        return Some(message);
      }
      return None;
    }

    /** Takes one byte that no frame starts with. */
    method SkipByte() returns (m: Message)
      requires dialect.Valid() && |buf| >= 1 && buf[0] != MAGIC
      modifies `buf, `expectedLength, `totalReceiveErrors
      ensures m == Interpret(dialect, old(buf[..1])) && !m.Good?
      ensures buf == old(buf[1..]) && expectedLength == 6 && totalReceiveErrors == old(totalReceiveErrors) + 1
    {
      assert buf[..1] == [buf[0]];
      m := BadData([buf[0]], BadPrefix);
      buf := buf[1..];
      expectedLength := 6;
      totalReceiveErrors := totalReceiveErrors + 1;
    }

    /** Takes the complete frame at the front of the buffer. */
    method TakeFrame() returns (m: Message)
      requires dialect.Valid() && 8 <= expectedLength <= |buf|
      modifies `buf, `expectedLength, `totalPacketsReceived, `totalReceiveErrors
      ensures m == Interpret(dialect, old(buf[..expectedLength]))
      ensures buf == old(buf[expectedLength..]) && expectedLength == 6
      ensures totalPacketsReceived == old(totalPacketsReceived) + if m.Good? then 1 else 0
      ensures totalReceiveErrors == old(totalReceiveErrors) + if m.Good? then 0 else 1
    {
      var frame := buf[..expectedLength];
      buf := buf[expectedLength..];
      expectedLength := 6;
      m := DecodeMessage(dialect, frame);
      if m.Good? {
        totalPacketsReceived := totalPacketsReceived + 1;
      } else {
        totalReceiveErrors := totalReceiveErrors + 1;
      }
    }

    method ParseBuffer(s: seq<byte>) returns (messages: Option<seq<Message>>)
      requires dialect.Valid() && View().Valid()
      modifies `buf, `expectedLength, `totalPacketsReceived, `totalReceiveErrors, `totalBytesReceived
      ensures View() == Feed(dialect, old(View()), s).0 && View().Valid()
      ensures var ms := Feed(dialect, old(View()), s).1;
              messages == if ms == [] then None else Some(ms)
    {
      ghost var all := Feed(dialect, View(), s);
      FeedAfterStep(dialect, View(), s);
      var m := ParseChar(s);
      if m.None? {
        return None;
      }
      var ret := [m.value];
      while true
        invariant View().Valid() && |ret| > 0
        invariant all == (Feed(dialect, View(), []).0, ret + Feed(dialect, View(), []).1)
        decreases |buf|
      {
        FeedAfterStep(dialect, View(), []);
        assert View().buf + [] == View().buf;
        m := ParseChar([]);
        if m.None? {
          assert ret + [] == ret;
          return Some(ret);
        }
        Assoc(ret, [m.value], Feed(dialect, View(), []).1);
        ret := ret + [m.value];
      }
    }

    method NeededBytes() returns (n: nat)
      ensures n == BytesNeeded(View())
    {
      var missing: int := expectedLength - |buf|;
      n := if missing <= 0 then 1 else missing;
    }

    /** The payload of each message class is packed in wire order. */
    method Wire(order: seq<nat>, fields: seq<Value>) returns (wire: seq<Value>)
      requires IsPermutation(order) && |fields| == |order|
      ensures wire == ToWire(order, fields)
    {
      wire := fields;
      for i := 0 to |order|
        invariant |wire| == |order|
        invariant forall j :: 0 <= j < i ==> wire[order[j]] == fields[j]
      {
        wire := wire[order[i] := fields[i]];
      }
    }

    /** Sends a message, which goes out with the next sequence number, modulo 255. */
    method Send(id: byte, fields: seq<Value>)
      requires Sendable(dialect, Outgoing(id, fields, sequence, system, component))
      modifies `sequence, `file, `totalPacketsSent, `totalBytesSent
      ensures var packed := Pack(dialect, Outgoing(id, fields, old(sequence), system, component));
              file == old(file) + packed && totalBytesSent == old(totalBytesSent) + |packed|
      ensures sequence == (old(sequence) as int + 1) % 255 && totalPacketsSent == old(totalPacketsSent) + 1
    {
      var e := dialect.entries[id];
      var wire := Wire(e.order, fields);
      var payload := PackFields(e.format, wire);
      var h := Header(|payload|, sequence, system, component, id);
      var crc := dialect.crc((HeaderBytes(h) + payload)[1..], e.crcExtra);
      var packed := FrameBytes(h, payload, crc);
      file := file + packed;
      sequence := (sequence as int + 1) % 255;
      totalPacketsSent := totalPacketsSent + 1;
      totalBytesSent := totalBytesSent + |packed|;
    }
  }
}
