/** Whole runs of the receiver: packets arrive lost, duplicated and out of order. */
module UlogRun {
  import opened Bytes
  import opened UlogFormat
  import opened UlogReceiver
  import opened UlogReassembly

  /** The indices of the packets that were sent, as they arrive. */
  type Trace = seq<nat>

  ghost predicate Sent(packets: seq<Packet>, arrivals: Trace) {
    && (forall i :: 0 <= i < |packets| ==> packets[i].sequence < MODULUS)
    && (forall t :: 0 <= t < |arrivals| ==> arrivals[t] < |packets|)
  }

  lemma InWindowIsExact(packets: seq<Packet>, base: nat, last: nat, i: nat)
    requires Numbered(packets, base) && last < |packets| && i < |packets| && -HALF < i - last < HALF
    requires packets[last].sequence < MODULUS && packets[i].sequence < MODULUS
    ensures CheckSequence(packets[last].sequence, packets[i].sequence)
         == if i > last then Freshness(true, i - last - 1) else Freshness(false, 0)
  {
    assert SequenceOf(packets, last) == (base + last) % MODULUS && SequenceOf(packets, i) == (base + i) % MODULUS;
    WindowIsExact(base, last, i);
  }

  /** The arrivals that are newer than all earlier ones. */
  ghost function Records(arrivals: Trace): (r: Trace)
    ensures |r| > 0 <==> |arrivals| > 0
    ensures |r| <= |arrivals| && forall i :: 0 <= i < |r| ==> r[i] in arrivals
  {
    if |arrivals| == 0 then [] else
    var r, x := Records(arrivals[..|arrivals| - 1]), arrivals[|arrivals| - 1];
    if |r| == 0 || x > Last(r) then r + [x] else r
  }

  ghost function Last(r: Trace): nat
    requires |r| > 0
  {
    r[|r| - 1]
  }

  /** Every arrival is less than 2^15 packets away from the newest one before it. */
  ghost predicate InWindow(arrivals: Trace) {
    |arrivals| > 0 ==>
      var init, x := arrivals[..|arrivals| - 1], arrivals[|arrivals| - 1];
      InWindow(init) && (|init| > 0 ==> -HALF < x - Last(Records(init)) < HALF)
  }

  ghost function Run(packets: seq<Packet>, arrivals: Trace): (r: Option<Receiver>)
    requires Sent(packets, arrivals)
    ensures r.Some? ==> r.value.Valid()
  {
    if |arrivals| == 0 then Some(INITIAL) else
    match Run(packets, arrivals[..|arrivals| - 1])
    case None => None
    case Some(r) => Receive(r, LoggingData(packets[arrivals[|arrivals| - 1]]))
  }

  ghost function ToSet(r: Trace): set<nat> {
    set i | i in r
  }

  lemma {:induction false} RecordsIncrease(arrivals: Trace)
    requires |arrivals| > 0
    ensures var r := Records(arrivals);
            r[0] == arrivals[0] && forall i, j :: 0 <= i < j < |r| ==> r[i] < r[j]
  {
    var init := arrivals[..|arrivals| - 1];
    if |init| == 0 {
    } else {
      RecordsIncrease(init);
    }
  }

  /**
   * Drop accounting: the receiver accepts exactly the arrivals that are newer than all
   * earlier ones, and counts as dropped the packets between the first and the last of
   * them that it did not accept.
   */
  lemma {:induction false} DropAccounting(packets: seq<Packet>, base: nat, arrivals: Trace)
    requires Sent(packets, arrivals) && Numbered(packets, base) && InWindow(arrivals)
    requires |arrivals| > 0 && |packets[arrivals[0]].payload| >= HEADER_LENGTH
    ensures Run(packets, arrivals).Some?
    ensures var r, records := Run(packets, arrivals).value, Records(arrivals);
            && r.rx.gotHeader && r.lastSequence == packets[Last(records)].sequence
            && r.numDropouts == (Last(records) - records[0]) - (|records| - 1)
  {
    var init, x := arrivals[..|arrivals| - 1], arrivals[|arrivals| - 1];
    if |init| == 0 {
      assert Run(packets, init) == Some(INITIAL);
      ReceivePacket(INITIAL, packets[x]);
    } else {
      DropAccounting(packets, base, init);
      InWindowIsExact(packets, base, Last(Records(init)), x);
      var r, r' := Run(packets, init).value, Run(packets, arrivals);
      assert r' == Receive(r, LoggingData(packets[x]));
      ReceivePacket(r, packets[x]);
      if x > Last(Records(init)) {
        assert Records(arrivals) == Records(init) + [x];
        assert r'.value.lastSequence == packets[x].sequence;
        assert r'.value.numDropouts == r.numDropouts + (x - Last(Records(init)) - 1);
      } else {
        assert Records(arrivals) == Records(init);
      }
    }
  }

  /** The arrivals that the receiver took for newer than the last one it had accepted. */
  ghost function Accepted(packets: seq<Packet>, arrivals: Trace): Trace
    requires Sent(packets, arrivals)
  {
    if |arrivals| == 0 then [] else
    var init, x := arrivals[..|arrivals| - 1], arrivals[|arrivals| - 1];
    Accepted(packets, init) + if Accepts(Run(packets, init), packets[x]) then [x] else []
  }

  ghost predicate Accepts(r: Option<Receiver>, p: Packet)
    requires (r.Some? ==> r.value.Valid()) && p.sequence < MODULUS
  {
    r.Some? && CheckSequence(r.value.lastSequence, p.sequence).newer
  }

  /**
   * The receiver, which knows only the last 16-bit sequence number, accepts exactly the
   * arrivals that are newer than all before them; so their indices strictly increase.
   */
  lemma {:induction false} AcceptedIncrease(packets: seq<Packet>, base: nat, arrivals: Trace)
    requires Sent(packets, arrivals) && Numbered(packets, base) && InWindow(arrivals)
    requires |arrivals| > 0 && |packets[arrivals[0]].payload| >= HEADER_LENGTH
    ensures var a := Accepted(packets, arrivals);
            && a == Records(arrivals) && |a| > 0 && a[0] == arrivals[0]
            && forall i, j :: 0 <= i < j < |a| ==> a[i] < a[j]
    decreases |arrivals|
  {
    RecordsIncrease(arrivals);
    var init, x := arrivals[..|arrivals| - 1], arrivals[|arrivals| - 1];
    if |init| == 0 {
      assert Run(packets, init) == Some(INITIAL);
    } else {
      AcceptedIncrease(packets, base, init);
      DropAccounting(packets, base, init);
      InWindowIsExact(packets, base, Last(Records(init)), x);
    }
  }

  /** The sequence numbers of the arrivals that ask for an acknowledgement, duplicates included. */
  ghost function Acknowledged(packets: seq<Packet>, arrivals: Trace): seq<nat>
    requires Sent(packets, arrivals)
  {
    if |arrivals| == 0 then [] else
    var p := packets[arrivals[|arrivals| - 1]];
    Acknowledged(packets, arrivals[..|arrivals| - 1]) + if p.acked then [p.sequence] else []
  }

  /** Every such arrival is acknowledged, also one that was accepted before. */
  lemma {:induction false} EveryArrivalIsAcknowledged(packets: seq<Packet>, arrivals: Trace)
    requires Sent(packets, arrivals)
    ensures Run(packets, arrivals).Some? ==>
              Run(packets, arrivals).value.acksSent == Acknowledged(packets, arrivals)
  {
    if |arrivals| == 0 {
    } else {
      EveryArrivalIsAcknowledged(packets, arrivals[..|arrivals| - 1]);
    }
  }

  // What the file must hold, told from the accepted packets alone.

  /** Accepted packets: indices of packets, increasing. */
  ghost predicate Accounted(s: Session, packets: seq<Packet>, records: Trace) {
    && s.Valid() && s.Count() == |packets|
    && (forall i :: 0 <= i < |records| ==> records[i] < |packets|)
    && (forall i, j :: 0 <= i < j < |records| ==> records[i] < records[j])
  }

  /** The number of packets lost right before the last accepted one. */
  ghost function Lost(records: Trace): int {
    if |records| <= 1 then 0 else records[|records| - 1] as int - records[|records| - 2] - 1
  }

  ghost predicate PastHeaderSection(packets: seq<Packet>, records: Trace)
    requires forall i :: 0 <= i < |records| ==> records[i] < |packets|
  {
    exists i :: 0 <= i < |records| && !packets[records[i]].acked
  }

  /** A loss is reported once the header section has ended. */
  ghost predicate Reports(packets: seq<Packet>, records: Trace)
    requires forall i :: 0 <= i < |records| ==> records[i] < |packets|
  {
    Lost(records) > 0 && PastHeaderSection(packets, records)
  }

  /** The losses that are reported in the file. */
  ghost function ReportedLosses(packets: seq<Packet>, records: Trace): seq<nat>
    requires forall i :: 0 <= i < |records| ==> records[i] < |packets|
  {
    if |records| == 0 then [] else
    ReportedLosses(packets, records[..|records| - 1]) + if Reports(packets, records) then [Lost(records)] else []
  }

  /** A frame that arrived last is complete but not written yet. */
  ghost predicate Held(s: Session, packets: seq<Packet>, records: Trace)
    requires Accounted(s, packets, records)
  {
    |records| > 1 &&
      var init, x := records[..|records| - 1], Last(records);
      HeldBack(s, ToSet(records), Last(init), x, packets[x].offset, Held(s, packets, init))
  }

  /** The frames of the log that are in the file: those that arrived, but for one that is held back. */
  ghost function Written(s: Session, packets: seq<Packet>, records: Trace): seq<nat>
    requires Accounted(s, packets, records)
  {
    if |records| == 0 then [] else
    var arrived := s.ArrivedBelow(ToSet(records), Last(records), |s.frames|);
    if Held(s, packets, records) && |arrived| > 0 then arrived[..|arrived| - 1] else arrived
  }

  /**
   * What the file holds, in order: each accepted packet adds the report of the loss before
   * it, and then the frames that are written because of it.
   */
  ghost function FileItems(s: Session, packets: seq<Packet>, records: Trace): seq<Item>
    requires Accounted(s, packets, records)
  {
    if |records| == 0 then [] else
    var init := records[..|records| - 1];
    var before, now := Written(s, packets, init), Written(s, packets, records);
    FileItems(s, packets, init) + ReportOf(packets, records) + Logs(if |before| <= |now| then now[|before|..] else [])
  }

  ghost function ReportOf(packets: seq<Packet>, records: Trace): seq<Item>
    requires forall i :: 0 <= i < |records| ==> records[i] < |packets|
  {
    if Reports(packets, records) then Report(true, Lost(records)) else Report(false, 0)
  }

  // The receiver is on track.

  ghost predicate OnTrack(s: Session, header: seq<byte>, packets: seq<Packet>, records: Trace, items: seq<Item>,
                          rx: Rx)
  {
    && Ledger(packets, records, items, rx.gotSection)
    && Tracks(s, header, ToSet(records), Last(records), items, rx)
  }

  /** The reports in the file and the end of the header section are as the accepted packets tell. */
  ghost predicate Ledger(packets: seq<Packet>, records: Trace, items: seq<Item>, gotSection: bool) {
    && |records| > 0 && (forall i :: 0 <= i < |records| ==> records[i] < |packets|)
    && (gotSection <==> PastHeaderSection(packets, records))
    && LossesIn(items) == ReportedLosses(packets, records)
  }

  /** The frames logged are those that arrived, but for a complete one that is pending. */
  ghost predicate LoggedOrPending(s: Session, got: set<nat>, last: int, items: seq<Item>, pending: seq<byte>)
    requires s.Valid() && -1 <= last < s.Count()
  {
    var arrived := s.ArrivedBelow(got, last, |s.frames|);
    if WholeLength(pending) == 0 then LoggedIn(items) == arrived
    else exists k :: 0 <= k < |s.frames| && pending == s.frames[k] && LoggedIn(items) + [k] == arrived
  }

  /** The items are those that the accepted packets call for, and the pending bytes as well. */
  ghost predicate Arranged(s: Session, packets: seq<Packet>, records: Trace, items: seq<Item>, rx: Rx) {
    && Accounted(s, packets, records)
    && items == FileItems(s, packets, records) && LoggedIn(items) == Written(s, packets, records)
    && (Held(s, packets, records) <==> WholeLength(rx.pending) > 0)
  }

  /** The first packet: its header is cut off and its frames are written from the start. */
  lemma FirstPacket(s: Session, header: seq<byte>, packets: seq<Packet>) returns (items: seq<Item>, rx: Rx)
    requires Packetised(s, header, packets) && |packets| > 0
    ensures Process(Rx(false, !packets[0].acked, [], []), packets[0].payload, packets[0].offset, 0) == Some(rx)
    ensures Tracks(s, header, {0}, 0, items, rx) && AddsFrames([], items) && WholeLength(rx.pending) == 0
  {
    var p := packets[0];
    assert PacketMatches(s, header, 0, p);
    var rx0 := Rx(true, !p.acked, [], header);
    CutsHeader(header, s.Body(0), p, rx0);
    TracksNothing(s, header, rx0);
    items := Step(s, header, {}, -1, 0, p.offset, [], rx0, 0, []);
    rx := ProcessBody(rx0, s.Body(0), p.offset, 0);
    WritesAllFrames(rx0, s.Body(0), p.offset, 0);
    assert {} + {0} == {0};
  }

  lemma CutsHeader(header: seq<byte>, body: seq<byte>, p: Packet, rx: Rx)
    requires |header| == HEADER_LENGTH && p.payload == header + body && rx == Rx(true, !p.acked, [], header)
    ensures Process(Rx(false, !p.acked, [], []), p.payload, p.offset, 0) == Some(ProcessBody(rx, body, p.offset, 0))
  {
    assert p.payload[..HEADER_LENGTH] == header && p.payload[HEADER_LENGTH..] == body;
    assert [] + header == header;
  }

  lemma TracksNothing(s: Session, header: seq<byte>, rx: Rx)
    requires s.Valid() && s.Count() > 0 && rx.gotHeader && rx.pending == [] && rx.file == header
    ensures Tracks(s, header, {}, -1, [], rx)
  {
    assert header == header + Render(s.frames, []);
    NextUnique(s.frames, 0, 0);
  }

  lemma RunFirst(packets: seq<Packet>, arrivals: Trace)
    requires Sent(packets, arrivals) && |arrivals| == 1 && |packets[arrivals[0]].payload| >= HEADER_LENGTH
    ensures Records(arrivals) == arrivals && Run(packets, arrivals).Some?
    ensures var p, rx := packets[arrivals[0]], Run(packets, arrivals).value.rx;
            && Process(Rx(false, !p.acked, [], []), p.payload, p.offset, 0) == Some(rx)
            && rx.gotSection == !p.acked
  {
    assert arrivals[..0] == [] && Run(packets, []) == Some(INITIAL);
    ReceivePacket(INITIAL, packets[arrivals[0]]);
  }

  /** What the next arrival does: a newer packet is processed, any other changes nothing. */
  lemma RunNext(packets: seq<Packet>, base: nat, arrivals: Trace)
    requires Sent(packets, arrivals) && Numbered(packets, base) && InWindow(arrivals) && |arrivals| > 1
    requires |packets[arrivals[0]].payload| >= HEADER_LENGTH
    ensures var init, x := arrivals[..|arrivals| - 1], arrivals[|arrivals| - 1];
            var r, r', last := Run(packets, init), Run(packets, arrivals), Last(Records(init));
            && r.Some? && r'.Some? && r.value.rx.gotHeader
            && if x > last then
                 var rx := r.value.rx.(gotSection := r.value.rx.gotSection || !packets[x].acked);
                 && Records(arrivals) == Records(init) + [x] && r'.value.rx.gotSection == rx.gotSection
                 && r'.value.rx == ProcessBody(rx, packets[x].payload, packets[x].offset, x - last - 1)
               else
                 Records(arrivals) == Records(init) && r'.value.rx == r.value.rx
  {
    var init, x := arrivals[..|arrivals| - 1], arrivals[|arrivals| - 1];
    DropAccounting(packets, base, init);
    InWindowIsExact(packets, base, Last(Records(init)), x);
    ReceivePacket(Run(packets, init).value, packets[x]);
  }

  lemma TrackNext(s: Session, header: seq<byte>, got: set<nat>, last: nat, x: nat, p: Packet, items: seq<Item>,
                  rx: Rx, gotSection: bool, rx': Rx, lost: nat, report: seq<Item>, held: bool)
    returns (items': seq<Item>)
    requires x == last + 1 + lost && report == Report(gotSection && lost > 0, lost)
    requires held <==> WholeLength(rx.pending) > 0
    requires Tracks(s, header, got, last, items, rx)
    requires x < s.Count() && PacketMatches(s, header, x, p)
    requires rx' == ProcessBody(rx.(gotSection := gotSection), p.payload, p.offset, lost)
    ensures Tracks(s, header, got + {x}, x, items', rx') && LoggedOrPending(s, got + {x}, x, items', rx'.pending)
    ensures AddsFrames(items + report, items')
    ensures WholeLength(rx'.pending) > 0 <==>
              HeldBack(s, got + {x}, last, x, p.offset, held)
  {
    assert p.payload == s.Body(x);
    var rx1 := rx.(gotSection := gotSection);
    items' := Step(s, header, got, last, x, p.offset, items, rx1, lost, report);
    HeldAfter(s, header, got, last, x, p.offset, items, rx1, items', rx', lost, held);
    ArrivedOrPending(s, header, got + {x}, x, items', rx');
  }

  lemma Extends(packets: seq<Packet>, records: Trace, x: nat)
    requires |records| > 0 && x < |packets| && forall i :: 0 <= i < |records| ==> records[i] < |packets|
    ensures ToSet(records + [x]) == ToSet(records) + {x}
    ensures PastHeaderSection(packets, records + [x]) <==> PastHeaderSection(packets, records) || !packets[x].acked
    ensures Last(records + [x]) == x && (records + [x])[..|records|] == records
    ensures Lost(records + [x]) == x as int - Last(records) - 1
  {
    var more := records + [x];
    assert more[|records|] == x && more[..|records|] == records;
    assert forall i :: 0 <= i < |records| ==> more[i] == records[i];
  }

  /** What an accepted packet adds to the ledger. */
  lemma LedgerNext(fs: seq<Frame>, packets: seq<Packet>, records: Trace, x: nat, items: seq<Item>, gotSection: bool,
                   items': seq<Item>, gotSection': bool, lost: nat, report: seq<Item>)
    requires Ledger(packets, records, items, gotSection) && Last(records) < x < |packets|
    requires gotSection' <==> gotSection || !packets[x].acked
    requires x == Last(records) + 1 + lost && report == Report(gotSection' && lost > 0, lost)
    requires AddsFrames(items + report, items')
    ensures Ledger(packets, records + [x], items', gotSection')
    ensures AddsFrames(items + ReportOf(packets, records + [x]), items')
  {
    var on := gotSection' && lost > 0;
    Extends(packets, records, x);
    ReportNext(packets, records, x, on);
    LossesNext(fs, items, items', on, lost);
  }

  lemma ReportNext(packets: seq<Packet>, records: Trace, x: nat, on: bool)
    requires |records| > 0 && Last(records) < x < |packets|
    requires forall i :: 0 <= i < |records| ==> records[i] < |packets|
    requires on <==> PastHeaderSection(packets, records + [x]) && Last(records) + 1 < x
    ensures var more, lost := records + [x], x - Last(records) - 1;
            && ReportOf(packets, more) == Report(on, lost)
            && ReportedLosses(packets, more) == ReportedLosses(packets, records) + if on then [lost] else []
  {
    Extends(packets, records, x);
  }

  lemma LossesNext(fs: seq<Frame>, items: seq<Item>, items': seq<Item>, on: bool, lost: nat)
    requires AddsFrames(items + Report(on, lost), items')
    ensures LossesIn(items') == LossesIn(items) + if on then [lost] else []
  {
    AddedFrames(items + Report(on, lost), items');
    ReportAppends(fs, items, on, lost);
  }

  /** The items stay arranged. */
  lemma ArrangedNext(s: Session, packets: seq<Packet>, records: Trace, x: nat, items: seq<Item>, rx: Rx,
                     items': seq<Item>, rx': Rx, held: bool)
    requires held <==> WholeLength(rx.pending) > 0
    requires Arranged(s, packets, records, items, rx) && |records| > 0 && Last(records) < x < |packets|
    requires LoggedOrPending(s, ToSet(records + [x]), x, items', rx'.pending)
    requires ToSet(records + [x]) == ToSet(records) + {x} && Last(records + [x]) == x
    requires AddsFrames(items + ReportOf(packets, records + [x]), items')
    requires WholeLength(rx'.pending) > 0 <==>
               HeldBack(s, ToSet(records + [x]), Last(records), x, packets[x].offset, held)
    ensures Arranged(s, packets, records + [x], items', rx')
  {
    HeldNext(s, packets, records, x, held);
    WrittenIsLogged(s, packets, records + [x], items', rx'.pending);
    ItemsNext(s, packets, records, x, items, items');
  }

  lemma HeldNext(s: Session, packets: seq<Packet>, records: Trace, x: nat, before: bool)
    requires Accounted(s, packets, records) && |records| > 0 && Last(records) < x < |packets|
    requires Held(s, packets, records) <==> before
    ensures Accounted(s, packets, records + [x])
    ensures Held(s, packets, records + [x])
       <==> HeldBack(s, ToSet(records + [x]), Last(records), x, packets[x].offset, before)
  {
    Extends(packets, records, x);
  }

  lemma ItemsNext(s: Session, packets: seq<Packet>, records: Trace, x: nat, items: seq<Item>, items': seq<Item>)
    requires |records| > 0 && Accounted(s, packets, records) && Accounted(s, packets, records + [x])
    requires items == FileItems(s, packets, records) && LoggedIn(items) == Written(s, packets, records)
    requires LoggedIn(items') == Written(s, packets, records + [x])
    requires AddsFrames(items + ReportOf(packets, records + [x]), items')
    ensures items' == FileItems(s, packets, records + [x])
  {
    var more := records + [x];
    assert more[..|more| - 1] == records;
    AddedFrames(items + ReportOf(packets, more), items');
    LogsNoReport(s.frames, items, packets, more);
  }

  lemma LogsNoReport(fs: seq<Frame>, items: seq<Item>, packets: seq<Packet>, records: Trace)
    requires forall i :: 0 <= i < |records| ==> records[i] < |packets|
    ensures LoggedIn(items + ReportOf(packets, records)) == LoggedIn(items)
  {
    if Reports(packets, records) {
      ReportAppends(fs, items, true, Lost(records));
    } else {
      ReportAppends(fs, items, false, 0);
    }
  }

  /** The frames logged are those that arrived, but for one that is held back. */
  lemma WrittenIsLogged(s: Session, packets: seq<Packet>, records: Trace, items: seq<Item>, pending: seq<byte>)
    requires Accounted(s, packets, records) && |records| > 0
    requires LoggedOrPending(s, ToSet(records), Last(records), items, pending)
    requires Held(s, packets, records) <==> WholeLength(pending) > 0
    ensures LoggedIn(items) == Written(s, packets, records)
  {
    var arrived := s.ArrivedBelow(ToSet(records), Last(records), |s.frames|);
    if WholeLength(pending) > 0 {
      var k :| 0 <= k < |s.frames| && pending == s.frames[k] && LoggedIn(items) + [k] == arrived;
      assert arrived[..|arrived| - 1] == LoggedIn(items);
    }
  }

  /** Every run keeps the receiver on track and the file arranged. */
  lemma {:induction false} KeepsTrack(s: Session, header: seq<byte>, packets: seq<Packet>, base: nat, arrivals: Trace)
    returns (items: seq<Item>)
    requires Packetised(s, header, packets) && Numbered(packets, base)
    requires Sent(packets, arrivals) && InWindow(arrivals) && |arrivals| > 0 && arrivals[0] == 0
    ensures Run(packets, arrivals).Some?
    ensures OnTrack(s, header, packets, Records(arrivals), items, Run(packets, arrivals).value.rx)
    ensures Arranged(s, packets, Records(arrivals), items, Run(packets, arrivals).value.rx)
    decreases |arrivals|
  {
    if |arrivals| == 1 {
      items := TrackFirst(s, header, packets, arrivals);
    } else {
      var init := KeepsTrack(s, header, packets, base, arrivals[..|arrivals| - 1]);
      items := TrackArrival(s, header, packets, base, arrivals, init);
    }
  }

  lemma TrackFirst(s: Session, header: seq<byte>, packets: seq<Packet>, arrivals: Trace) returns (items: seq<Item>)
    requires Packetised(s, header, packets) && Sent(packets, arrivals) && |arrivals| == 1 && arrivals[0] == 0
    ensures Run(packets, arrivals).Some?
    ensures OnTrack(s, header, packets, Records(arrivals), items, Run(packets, arrivals).value.rx)
    ensures Arranged(s, packets, Records(arrivals), items, Run(packets, arrivals).value.rx)
  {
    assert PacketMatches(s, header, 0, packets[0]);
    var rx;
    items, rx := FirstPacket(s, header, packets);
    RunFirst(packets, arrivals);
    assert arrivals == [0];
    FirstRecord(s, header, packets, items, rx);
    ArrivedOrPending(s, header, {0}, 0, items, rx);
    FirstArranged(s, packets, items, rx);
  }

  lemma FirstRecord(s: Session, header: seq<byte>, packets: seq<Packet>, items: seq<Item>, rx: Rx)
    requires |packets| > 0 && rx.gotSection == !packets[0].acked
    requires Tracks(s, header, {0}, 0, items, rx) && AddsFrames([], items)
    ensures OnTrack(s, header, packets, [0], items, rx)
  {
    assert ToSet([0]) == {0} && Last([0]) == 0;
    assert PastHeaderSection(packets, [0]) <==> !packets[[0][0]].acked;
    AddedFrames([], items);
    assert [0][..0] == [];
  }

  lemma FirstArranged(s: Session, packets: seq<Packet>, items: seq<Item>, rx: Rx)
    requires s.Valid() && s.Count() == |packets| > 0 && LoggedOrPending(s, {0}, 0, items, rx.pending)
    requires AddsFrames([], items) && WholeLength(rx.pending) == 0
    ensures Arranged(s, packets, [0], items, rx)
  {
    assert ToSet([0]) == {0} && Last([0]) == 0;
    WrittenIsLogged(s, packets, [0], items, rx.pending);
    AddedFrames([], items);
    assert [0][..0] == [] && LoggedIn(items)[0..] == LoggedIn(items);
  }

  lemma TrackArrival(s: Session, header: seq<byte>, packets: seq<Packet>, base: nat, arrivals: Trace, init: seq<Item>)
    returns (items: seq<Item>)
    requires Packetised(s, header, packets) && Numbered(packets, base)
    requires Sent(packets, arrivals) && InWindow(arrivals) && |arrivals| > 1 && arrivals[0] == 0
    requires var before := arrivals[..|arrivals| - 1];
             && Run(packets, before).Some?
             && OnTrack(s, header, packets, Records(before), init, Run(packets, before).value.rx)
             && Arranged(s, packets, Records(before), init, Run(packets, before).value.rx)
    ensures Run(packets, arrivals).Some?
    ensures OnTrack(s, header, packets, Records(arrivals), items, Run(packets, arrivals).value.rx)
    ensures Arranged(s, packets, Records(arrivals), items, Run(packets, arrivals).value.rx)
  {
    var before, x := arrivals[..|arrivals| - 1], arrivals[|arrivals| - 1];
    assert PacketMatches(s, header, 0, packets[0]);
    var records, rx := Records(before), Run(packets, before).value.rx;
    if x > Last(records) {
      var gotSection := rx.gotSection || !packets[x].acked;
      var lost := x - Last(records) - 1;
      var report := Report(gotSection && lost > 0, lost);
      var held := WholeLength(rx.pending) > 0;
      items := TrackAccepted(s, header, packets, base, arrivals, before, x, records, init, rx, gotSection, lost,
                             report, held);
      Accept(s, header, packets, records, x, init, rx, gotSection, items, Run(packets, arrivals).value.rx, lost,
             report, held);
    } else {
      items := init;
      RunSame(packets, base, arrivals);
    }
  }

  lemma RunSame(packets: seq<Packet>, base: nat, arrivals: Trace)
    requires Sent(packets, arrivals) && Numbered(packets, base) && InWindow(arrivals) && |arrivals| > 1
    requires |packets[arrivals[0]].payload| >= HEADER_LENGTH
    requires arrivals[|arrivals| - 1] <= Last(Records(arrivals[..|arrivals| - 1]))
    ensures var r, r' := Run(packets, arrivals[..|arrivals| - 1]), Run(packets, arrivals);
            r.Some? && r'.Some? && r'.value.rx == r.value.rx && Records(arrivals) == Records(arrivals[..|arrivals| - 1])
  {
    RunNext(packets, base, arrivals);
  }

  lemma RunAccepts(packets: seq<Packet>, base: nat, arrivals: Trace, x: nat, last: nat, gotSection: bool, lost: nat)
    requires x == last + 1 + lost
    requires Sent(packets, arrivals) && Numbered(packets, base) && InWindow(arrivals) && |arrivals| > 1
    requires |packets[arrivals[0]].payload| >= HEADER_LENGTH
    requires x == arrivals[|arrivals| - 1] && last == Last(Records(arrivals[..|arrivals| - 1])) < x
    requires var r := Run(packets, arrivals[..|arrivals| - 1]);
             r.Some? && gotSection == (r.value.rx.gotSection || !packets[x].acked)
    ensures Run(packets, arrivals).Some? && Records(arrivals) == Records(arrivals[..|arrivals| - 1]) + [x]
    ensures var rx, rx' := Run(packets, arrivals[..|arrivals| - 1]).value.rx, Run(packets, arrivals).value.rx;
            && rx'.gotSection == gotSection
            && rx' == ProcessBody(rx.(gotSection := gotSection), packets[x].payload, packets[x].offset, lost)
  {
    RunNext(packets, base, arrivals);
  }

  /** A newer packet is accepted, and the receiver keeps track. */
  lemma TrackAccepted(s: Session, header: seq<byte>, packets: seq<Packet>, base: nat, arrivals: Trace, before: Trace,
                      x: nat, records: Trace, items: seq<Item>, rx: Rx, gotSection: bool, lost: nat,
                      report: seq<Item>, held: bool)
    returns (items': seq<Item>)
    requires Packetised(s, header, packets) && Numbered(packets, base)
    requires Sent(packets, arrivals) && InWindow(arrivals) && |arrivals| > 1 && arrivals[0] == 0
    requires before == arrivals[..|arrivals| - 1] && x == arrivals[|arrivals| - 1] && records == Records(before)
    requires Last(records) < x && Run(packets, before).Some? && rx == Run(packets, before).value.rx
    requires Tracks(s, header, ToSet(records), Last(records), items, rx)
    requires gotSection == (rx.gotSection || !packets[x].acked)
    requires x == Last(records) + 1 + lost && report == Report(gotSection && lost > 0, lost)
    requires held <==> WholeLength(rx.pending) > 0
    ensures Run(packets, arrivals).Some? && Records(arrivals) == records + [x]
    ensures var rx' := Run(packets, arrivals).value.rx;
            && rx'.gotSection == gotSection
            && Tracks(s, header, ToSet(records) + {x}, x, items', rx')
            && LoggedOrPending(s, ToSet(records) + {x}, x, items', rx'.pending)
            && (WholeLength(rx'.pending) > 0 <==>
                HeldBack(s, ToSet(records) + {x}, Last(records), x, packets[x].offset, held))
    ensures AddsFrames(items + report, items')
  {
    assert PacketMatches(s, header, 0, packets[0]) && PacketMatches(s, header, x, packets[x]);
    RunAccepts(packets, base, arrivals, x, Last(records), gotSection, lost);
    items' := TrackNext(s, header, ToSet(records), Last(records), x, packets[x], items, rx,
                        gotSection, Run(packets, arrivals).value.rx, lost, report, held);
  }

  /** The receiver stays on track, and the file arranged, when packet `x` is accepted. */
  lemma Accept(s: Session, header: seq<byte>, packets: seq<Packet>, records: Trace, x: nat, items: seq<Item>,
               rx: Rx, gotSection: bool, items': seq<Item>, rx': Rx, lost: nat, report: seq<Item>, held: bool)
    requires Ledger(packets, records, items, rx.gotSection) && Arranged(s, packets, records, items, rx)
    requires Last(records) < x < s.Count() && rx'.gotSection == gotSection == (rx.gotSection || !packets[x].acked)
    requires x == Last(records) + 1 + lost && report == Report(gotSection && lost > 0, lost)
    requires held <==> WholeLength(rx.pending) > 0
    requires Tracks(s, header, ToSet(records) + {x}, x, items', rx')
    requires LoggedOrPending(s, ToSet(records) + {x}, x, items', rx'.pending) && AddsFrames(items + report, items')
    requires WholeLength(rx'.pending) > 0 <==>
               HeldBack(s, ToSet(records) + {x}, Last(records), x, packets[x].offset, held)
    ensures OnTrack(s, header, packets, records + [x], items', rx')
    ensures Arranged(s, packets, records + [x], items', rx')
  {
    Settled(s, packets, records, x, items, rx, items', rx', lost, report, held);
    Extends(packets, records, x);
  }

  lemma Settled(s: Session, packets: seq<Packet>, records: Trace, x: nat, items: seq<Item>, rx: Rx,
                items': seq<Item>, rx': Rx, lost: nat, report: seq<Item>, held: bool)
    requires held <==> WholeLength(rx.pending) > 0
    requires Ledger(packets, records, items, rx.gotSection) && Arranged(s, packets, records, items, rx)
    requires Last(records) < x < |packets| && (rx'.gotSection <==> rx.gotSection || !packets[x].acked)
    requires x == Last(records) + 1 + lost && report == Report(rx'.gotSection && lost > 0, lost)
    requires AddsFrames(items + report, items')
    requires LoggedOrPending(s, ToSet(records) + {x}, x, items', rx'.pending)
    requires WholeLength(rx'.pending) > 0 <==>
               HeldBack(s, ToSet(records) + {x}, Last(records), x, packets[x].offset, held)
    ensures Ledger(packets, records + [x], items', rx'.gotSection)
    ensures Arranged(s, packets, records + [x], items', rx')
  {
    LedgerNext(s.frames, packets, records, x, items, rx.gotSection, items', rx'.gotSection, lost, report);
    Extends(packets, records, x);
    ArrangedNext(s, packets, records, x, items, rx, items', rx', held);
  }

  /**
   * What the file must hold after `arrivals`: the header followed by whole frames, in the
   * order of `FileItems`. The frames of the log among them are, in order, exactly those
   * every part of which was accepted, except that the last of these may still be held back,
   * complete, in the pending bytes; the other frames report the losses after the header
   * section, each in front of what is written after the loss.
   */
  ghost predicate Reassembled(s: Session, header: seq<byte>, packets: seq<Packet>, arrivals: Trace, items: seq<Item>) {
    && |arrivals| > 0 && Sent(packets, arrivals) && Run(packets, arrivals).Some?
    && Accounted(s, packets, Records(arrivals))
    && var rx, records := Run(packets, arrivals).value.rx, Records(arrivals);
       && rx.file == header + Render(s.frames, items) && items == FileItems(s, packets, records)
       && LossesIn(items) == ReportedLosses(packets, records)
       && (Held(s, packets, records) <==> WholeLength(rx.pending) > 0)
       && LoggedOrPending(s, ToSet(records), Last(records), items, rx.pending)
  }

  /**
   * Loss-tolerant reassembly, for every list of frames, every honest packetisation and
   * every arrival pattern that starts with the first packet.
   */
  lemma Reassembly(s: Session, header: seq<byte>, packets: seq<Packet>, base: nat, arrivals: Trace)
    returns (items: seq<Item>)
    requires Packetised(s, header, packets) && Numbered(packets, base)
    requires Sent(packets, arrivals) && InWindow(arrivals) && |arrivals| > 0 && arrivals[0] == 0
    ensures Reassembled(s, header, packets, arrivals, items)
  {
    items := KeepsTrack(s, header, packets, base, arrivals);
    var rx, records := Run(packets, arrivals).value.rx, Records(arrivals);
    ArrivedOrPending(s, header, ToSet(records), Last(records), items, rx);
  }

  lemma ArrivedOrPending(s: Session, header: seq<byte>, got: set<nat>, last: int, items: seq<Item>, rx: Rx)
    requires Tracks(s, header, got, last, items, rx)
    ensures LoggedOrPending(s, got, last, items, rx.pending)
  {
    NoneBeyond(s, got, last);
    if rx.pending != [] {
      PendingFrame(s, header, got, last, items, rx);
    }
  }

  lemma NoneBeyond(s: Session, got: set<nat>, last: int)
    requires s.Valid() && -1 <= last < s.Count()
    ensures s.ArrivedBelow(got, last, |s.frames|) == s.ArrivedBelow(got, last, Next(s.frames, s.cuts[last + 1]))
  {
    var k := Next(s.frames, s.cuts[last + 1]);
    forall i: nat | k <= i < |s.frames|
      ensures !s.Arrived(got, last, i)
    {
      StartMonotone(s.frames, k, i);
      StartStep(s.frames, i);
    }
    NoArrivals(s, got, last, k, |s.frames|);
  }
}
