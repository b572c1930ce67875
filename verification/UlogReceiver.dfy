/**
 * The ground-station receiver of a streamed ULog (Tools/mavlink_ulog_streaming.py): its
 * step functions on values, and the class that works by updating its fields.
 */
module UlogReceiver {
  import opened Bytes
  import opened UlogFormat

  /** What `check_sequence` answers: is the packet newer, and how many were lost before it. */
  datatype Freshness = Freshness(newer: bool, drops: nat)

  const HALF := 32768

  function CheckSequence(last: int, sequence: nat): Freshness
    requires -1 <= last < MODULUS && sequence < MODULUS
  {
    if last == -1 then Freshness(true, 0)
    else if sequence == last then Freshness(false, 0)
    else if sequence > last then
      if sequence - last > HALF then Freshness(false, 0)
      else Freshness(true, sequence - last - 1)
    else if last - sequence > HALF then Freshness(true, MODULUS - last - 1 + sequence)
    else Freshness(false, 0)
  }

  /** Of two distinct sequence numbers exactly one is newer, also at distance 2^15. */
  lemma ExactlyOneIsNewer(a: nat, b: nat)
    requires a < 65536 && b < 65536 && a != b
    ensures CheckSequence(a, b).newer <==> !CheckSequence(b, a).newer
    ensures CheckSequence(a, b).newer ==> (a + CheckSequence(a, b).drops + 1) % 65536 == b
  {
  }

  /** Within 2^15 of the last accepted packet, wrap-around arithmetic finds the true distance. */
  lemma WindowIsExact(base: nat, last: nat, i: nat)
    requires -HALF < i - last < HALF
    ensures CheckSequence((base + last) % MODULUS, (base + i) % MODULUS)
         == if i > last then Freshness(true, i - last - 1) else Freshness(false, 0)
  {
    var x, y := (base + last) % MODULUS, (base + i) % MODULUS;
    var q, r := (base + last) / MODULUS, (base + i) / MODULUS;
    assert base + last == q * MODULUS + x && base + i == r * MODULUS + y;
    assert i - last == (r - q) * MODULUS + y - x;
    assert -1 <= r - q <= 1;
  }

  /** The part of the receiver that turns packets into the file. */
  datatype Rx = Rx(gotHeader: bool, gotSection: bool, pending: seq<byte>, file: seq<byte>)

  const MAX_REPORTED_DROPS := 25

  /** Reports a dropout ('O') of 10 ms a packet, for at most 25 packets. */
  function DropoutFrame(drops: nat): (f: Frame)
    ensures |f| == 5 && f[2] as char == 'O'
    ensures Le16(f[3], f[4]) == if drops > 25 then 250 else 10 * drops
  {
    [2, 0, 79, if drops > MAX_REPORTED_DROPS then 250 else drops * 10, 0]
  }

  /** Writes the complete frames of `data` and keeps the rest. */
  function WriteTail(r: Rx, data: seq<byte>): Rx {
    var n := WholeLength(data);
    r.(file := r.file + data[..n], pending := data[n..])
  }

  /** After a loss: reports it and writes what is complete of the pending bytes. */
  function FlushPending(r: Rx, drops: nat): Rx {
    var r1 := if r.gotSection then r.(file := r.file + DropoutFrame(drops)) else r;
    WriteTail(r1, r.pending).(pending := [])
  }

  function ProcessBody(r: Rx, data: seq<byte>, offset: byte, drops: nat): Rx {
    if drops > 0 then
      var r1 := FlushPending(r, drops);
      if offset == NO_START then r1 else WriteTail(r1, From(data, offset))
    else if offset == NO_START && r.pending != [] then r.(pending := r.pending + data)
    else
      var r1 := if r.pending != [] then r.(file := r.file + (r.pending + Upto(data, offset)), pending := []) else r;
      WriteTail(r1, From(data, offset))
  }

  /** `process_streamed_ulog_data`; `None` when the first packet is too short for the header. */
  function Process(r: Rx, data: seq<byte>, offset: byte, drops: nat): Option<Rx> {
    if r.gotHeader then Some(ProcessBody(r, data, offset, drops))
    else if |data| < HEADER_LENGTH then None
    else
      var r1 := r.(gotHeader := true, file := r.file + data[..HEADER_LENGTH]);
      Some(ProcessBody(r1, data[HEADER_LENGTH..], offset, drops))
  }

  lemma WriteTailKeeps(r: Rx, data: seq<byte>)
    ensures WriteTail(r, data).file + WriteTail(r, data).pending == r.file + data
  {
    var n := WholeLength(data);
    assert data == data[..n] + data[n..];
  }

  /**
   * With no packet lost, exactly when a packet adds its bytes to what the receiver holds:
   * bytes before the offset are thrown away when no frame is pending.
   */
  lemma ConservesBytes(r: Rx, data: seq<byte>, offset: byte)
    ensures var r' := ProcessBody(r, data, offset, 0);
            r'.file + r'.pending == (r.file + r.pending) + data
            <==> r.pending != [] || offset == 0 || data == []
  {
    if r.pending == [] {
      KeepsFromOffset(r, data, offset);
    } else if offset == NO_START {
      Assoc(r.file, r.pending, data);
    } else {
      KeepsPendingAndData(r, data, offset);
    }
  }

  lemma KeepsPendingAndData(r: Rx, data: seq<byte>, offset: byte)
    ensures var r1 := r.(file := r.file + (r.pending + Upto(data, offset)), pending := []);
            var r' := WriteTail(r1, From(data, offset));
            r'.file + r'.pending == (r.file + r.pending) + data
  {
    var head, rest := Upto(data, offset), From(data, offset);
    WriteTailKeeps(r.(file := r.file + (r.pending + head), pending := []), rest);
    UptoFrom(data, offset);
    assert r.file + (r.pending + head) + rest == (r.file + r.pending) + (head + rest);
  }

  lemma KeepsFromOffset(r: Rx, data: seq<byte>, offset: byte)
    requires r.pending == []
    ensures var r' := WriteTail(r, From(data, offset));
            r'.file + r'.pending == (r.file + r.pending) + data <==> offset == 0 || data == []
  {
    var rest := From(data, offset);
    var r' := WriteTail(r, rest);
    WriteTailKeeps(r, rest);
    assert r.file + [] == r.file;
    if offset == 0 || data == [] {
      assert rest == data;
    } else {
      assert |r'.file + r'.pending| == |r.file| + |rest| < |r.file| + |data|;
    }
  }

  datatype Receiver = Receiver(lastSequence: int, numDropouts: nat, loggingStarted: bool,
                               acksSent: seq<nat>, rx: Rx) {
    predicate Valid() {
      -1 <= lastSequence < MODULUS
    }
  }

  const INITIAL := Receiver(-1, 0, false, [], Rx(false, false, [], []))

  datatype Message = CommandAck(isLoggingStart: bool, result: int) | LoggingData(packet: Packet)

  predicate Wire(m: Message) {
    m.LoggingData? ==> m.packet.sequence < MODULUS
  }

  /** The state after `read_message` took a packet, before its bytes are processed. */
  function Note(r: Receiver, p: Packet): Receiver
    requires r.Valid() && p.sequence < MODULUS
  {
    var f := CheckSequence(r.lastSequence, p.sequence);
    var r1 := if p.acked then r.(acksSent := r.acksSent + [p.sequence]) else r;
    if !f.newer then r1 else
    var r2 := r1.(numDropouts := r1.numDropouts + f.drops, lastSequence := p.sequence);
    if p.acked || r.rx.gotSection then r2
    else r2.(loggingStarted := true, rx := r2.rx.(gotSection := true))
  }

  /** One turn of the `read_messages` loop; `None` is a raised exception. */
  function Receive(r: Receiver, m: Message): Option<Receiver>
    requires r.Valid() && Wire(m)
  {
    match m
    case CommandAck(isStart, result) =>
      if isStart && !r.rx.gotSection then
        if result == 0 then Some(r.(loggingStarted := true)) else None
      else Some(r)
    case LoggingData(p) =>
      var f := CheckSequence(r.lastSequence, p.sequence);
      var r1 := Note(r, p);
      if !f.newer then Some(r1) else
      match Process(r1.rx, p.payload, p.offset, f.drops)
      case None => None
      case Some(rx) => Some(r1.(rx := rx))
  }

  /** A COMMAND_ACK raises an exception exactly when it refuses the start; it never touches the reception. */
  lemma AckKeepsReception(r: Receiver, isStart: bool, result: int)
    requires r.Valid()
    ensures var r' := Receive(r, CommandAck(isStart, result));
            && (r'.None? <==> isStart && result != 0 && !r.rx.gotSection)
            && (r'.Some? ==> r'.value == r.(loggingStarted := r'.value.loggingStarted))
            && (r'.Some? ==> (r'.value.loggingStarted <==> r.loggingStarted || (isStart && !r.rx.gotSection)))
  {
  }

  /** What one packet does to the receiver's fields. */
  lemma ReceivePacket(r: Receiver, p: Packet)
    requires r.Valid() && p.sequence < MODULUS
    requires r.rx.gotHeader || |p.payload| >= HEADER_LENGTH
    ensures var f, r' := CheckSequence(r.lastSequence, p.sequence), Receive(r, LoggingData(p));
            && r'.Some?
            && (!f.newer ==>
                  && r'.value.lastSequence == r.lastSequence && r'.value.numDropouts == r.numDropouts
                  && r'.value.rx == r.rx && r'.value.loggingStarted == r.loggingStarted)
            && r'.value.acksSent == r.acksSent + (if p.acked then [p.sequence] else [])
            && (f.newer ==>
                  r'.value.loggingStarted == (r.loggingStarted || (!p.acked && !r.rx.gotSection)))
            && (f.newer ==>
                  var rx := r.rx.(gotSection := r.rx.gotSection || !p.acked);
                  && r'.value.lastSequence == p.sequence && r'.value.numDropouts == r.numDropouts + f.drops
                  && Process(rx, p.payload, p.offset, f.drops) == Some(r'.value.rx)
                  && r'.value.rx.gotHeader && r'.value.rx.gotSection == rx.gotSection)
  {
  }

  /** The next frame of `data`, at position `n`. */
  lemma NextWhole(data: seq<byte>, n: nat, rest: seq<byte>, length: nat)
    requires n <= |data| && rest == data[n..] && |rest| > 2 && length == Le16(rest[0], rest[1]) + 3 <= |rest|
    ensures n + length <= |data| && data[..n] + rest[..length] == data[..n + length]
    ensures rest[length..] == data[n + length..] && WholeLength(rest) == length + WholeLength(rest[length..])
  {
    TakeMore(data, n, length);
    WholeStep(rest, length);
  }

  lemma WholeStep(data: seq<byte>, length: nat)
    requires |data| > 2 && length == Le16(data[0], data[1]) + 3 <= |data|
    ensures WholeLength(data) == length + WholeLength(data[length..])
  {
    var f := data[..length];
    assert f[0] == data[0] && f[1] == data[1];
    WholeLengthStep(f, data[length..]);
    assert data == f + data[length..];
  }

  class LogStreaming {
    var gotHeader: bool
    var gotSection: bool
    var pending: seq<byte>
    var file: seq<byte>
    var lastSequence: int
    var loggingStarted: bool
    var numDropouts: nat
    var acksSent: seq<nat>

    ghost function View(): Receiver
      reads this
    {
      Receiver(lastSequence, numDropouts, loggingStarted, acksSent, Rx(gotHeader, gotSection, pending, file))
    }

    constructor ()
      ensures View() == INITIAL
    {
      gotHeader, gotSection, pending, file := false, false, [], [];
      lastSequence, loggingStarted, numDropouts, acksSent := -1, false, 0, [];
    }

    method WriteMessages(data: seq<byte>) returns (rest: seq<byte>)
      modifies `file
      ensures file == old(file) + data[..WholeLength(data)]
      ensures rest == data[WholeLength(data)..]
    {
      rest := data;
      ghost var n := 0;
      while |rest| > 2
        invariant 0 <= n <= |data| && rest == data[n..]
        invariant file == old(file) + data[..n]
        invariant WholeLength(data) == n + WholeLength(rest)
        decreases |rest|
      {
        var length := Le16(rest[0], rest[1]) + 3;
        if length > |rest| {
          break;
        }
        file := file + rest[..length];
        NextWhole(data, n, rest, length);
        Assoc(old(file), data[..n], rest[..length]);
        n := n + length;
        rest := rest[length..];
      }
    }

    method ProcessStreamedData(packet: seq<byte>, offset: byte, drops: nat) returns (ok: bool)
      modifies `gotHeader, `pending, `file
      ensures ok <==> Process(old(View().rx), packet, offset, drops).Some?
      ensures ok ==> View().rx == Process(old(View().rx), packet, offset, drops).value
      ensures !ok ==> View() == old(View())
      ensures ok <==> old(gotHeader) || |packet| >= 16
    {
      var data, first := packet, offset;
      if !gotHeader {
        if |data| < HEADER_LENGTH {
          return false;
        }
        file := file + data[..HEADER_LENGTH];
        data := data[HEADER_LENGTH..];
        gotHeader := true;
      }
      ok := true;
      if gotSection && drops > 0 {
        file := file + DropoutFrame(drops);
      }
      if drops > 0 {
        var _ := WriteMessages(pending);
        pending := [];
        if first == NO_START {
          return;
        }
        data := From(data, first);
        first := 0;
      }
      if first == NO_START && |pending| > 0 {
        pending := pending + data;
        return;
      }
      if |pending| > 0 {
        file := file + (pending + Upto(data, first));
        pending := [];
      }
      var rest := WriteMessages(From(data, first));
      pending := rest;
    }

    /** One received message; `ok` is false when the original raises an exception. */
    method HandleMessage(m: Message) returns (ok: bool)
      requires View().Valid() && Wire(m)
      modifies this
      ensures ok <==> Receive(old(View()), m).Some?
      ensures ok ==> View() == Receive(old(View()), m).value
      ensures View().Valid() && (!ok ==> file == old(file))
    {
      ok := true;
      match m {
        case CommandAck(isStart, result) =>
          if isStart && !gotSection {
            if result == 0 {
              loggingStarted := true;
            } else {
              ok := false;
            }
          }
        case LoggingData(p) =>
          var f := CheckSequence(lastSequence, p.sequence);
          if p.acked {
            acksSent := acksSent + [p.sequence];
          }
          if f.newer {
            if f.drops > 0 {
              numDropouts := numDropouts + f.drops;
            }
            if !p.acked && !gotSection {
              loggingStarted, gotSection := true, true;
            }
            lastSequence := p.sequence;
            ok := ProcessStreamedData(p.payload, p.offset, f.drops);
          }
      }
    }
  }
}
