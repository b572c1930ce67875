/**
 * Loss-tolerant reassembly: whatever packets are lost, duplicated or reordered, the file
 * holds exactly the frames that arrived whole, in order.
 */
module UlogReassembly {
  import opened Bytes
  import opened UlogFormat
  import opened UlogReceiver

  /** What the file holds after its header: frames of the log and inserted dropout frames. */
  datatype Item = Logged(k: nat) | Dropout(drops: nat)

  ghost function ItemBytes(fs: seq<Frame>, item: Item): Frame {
    match item
    case Logged(k) => if k < |fs| then fs[k] else [0, 0, 0]
    case Dropout(drops) => DropoutFrame(drops)
  }

  ghost function Render(fs: seq<Frame>, items: seq<Item>): seq<byte> {
    if |items| == 0 then [] else
    Render(fs, items[..|items| - 1]) + ItemBytes(fs, items[|items| - 1])
  }

  /** The frames of the log among the items. */
  ghost function LoggedIn(items: seq<Item>): seq<nat> {
    if |items| == 0 then [] else
    var last := items[|items| - 1];
    LoggedIn(items[..|items| - 1]) + if last.Logged? then [last.k] else []
  }

  /** The losses reported by the inserted dropout frames. */
  ghost function LossesIn(items: seq<Item>): seq<nat> {
    if |items| == 0 then [] else
    var last := items[|items| - 1];
    LossesIn(items[..|items| - 1]) + if last.Dropout? then [last.drops] else []
  }

  lemma Append(fs: seq<Frame>, items: seq<Item>, item: Item)
    ensures Render(fs, items + [item]) == Render(fs, items) + ItemBytes(fs, item)
    ensures LoggedIn(items + [item]) == LoggedIn(items) + if item.Logged? then [item.k] else []
    ensures LossesIn(items + [item]) == LossesIn(items) + if item.Dropout? then [item.drops] else []
  {
    assert (items + [item])[..|items|] == items;
  }

  /** Writing one more item to the file. */
  lemma WriteItem(fs: seq<Frame>, header: seq<byte>, items: seq<Item>, item: Item)
    ensures header + Render(fs, items) + ItemBytes(fs, item) == header + Render(fs, items + [item])
    ensures LoggedIn(items + [item]) == LoggedIn(items) + if item.Logged? then [item.k] else []
  {
    Append(fs, items, item);
    Assoc(header, Render(fs, items), ItemBytes(fs, item));
  }

  /** Nothing but frames of the log was added to the items. */
  ghost predicate AddsFrames(items: seq<Item>, items': seq<Item>) {
    items <= items' && forall i :: |items| <= i < |items'| ==> items'[i].Logged?
  }

  lemma AddsMore(a: seq<Item>, b: seq<Item>, c: seq<Item>)
    requires AddsFrames(a, b) && AddsFrames(b, c)
    ensures AddsFrames(a, c)
  {
  }

  /** The report of a loss, once there is something to report it in. */
  ghost function Report(on: bool, drops: nat): seq<Item> {
    if on then [Dropout(drops)] else []
  }

  /** Frames of the log, as items. */
  ghost function Logs(ks: seq<nat>): seq<Item> {
    seq(|ks|, i requires 0 <= i < |ks| => Logged(ks[i]))
  }

  /** Items that were added are the frames that are logged in addition. */
  lemma {:induction false} AddedFrames(items: seq<Item>, items': seq<Item>)
    requires AddsFrames(items, items')
    ensures LossesIn(items') == LossesIn(items) && |LoggedIn(items)| <= |LoggedIn(items')|
    ensures items' == items + Logs(LoggedIn(items')[|LoggedIn(items)|..])
    decreases |items'|
  {
    if |items'| == |items| {
      assert items' == items;
    } else {
      var init, k := items'[..|items'| - 1], items'[|items'| - 1].k;
      AddedFrames(items, init);
      assert items' == init + [Logged(k)];
      assert LoggedIn(items') == LoggedIn(init) + [k];
      LogsAppend(LoggedIn(init)[|LoggedIn(items)|..], k);
      assert LoggedIn(items')[|LoggedIn(items)|..] == LoggedIn(init)[|LoggedIn(items)|..] + [k];
    }
  }

  lemma LogsAppend(ks: seq<nat>, k: nat)
    ensures Logs(ks + [k]) == Logs(ks) + [Logged(k)]
  {
  }

  lemma ReportAppends(fs: seq<Frame>, items: seq<Item>, on: bool, drops: nat)
    ensures LoggedIn(items + Report(on, drops)) == LoggedIn(items)
    ensures LossesIn(items + Report(on, drops)) == LossesIn(items) + if on then [drops] else []
  {
    if on {
      Append(fs, items, Dropout(drops));
    } else {
      assert items + [] == items;
    }
  }

  /** The numbers from `a` up to, but not including, `b`. */
  ghost function Range(a: nat, b: nat): seq<nat> {
    if b <= a then [] else Range(a, b - 1) + [b - 1]
  }

  /** Frames `a` to `b` appended as items. */
  lemma {:induction false} AppendRange(fs: seq<Frame>, items: seq<Item>, a: nat, b: nat) returns (items': seq<Item>)
    requires a <= b <= |fs|
    ensures Start(fs, a) <= Start(fs, b) <= |Flatten(fs)|
    ensures Render(fs, items') == Render(fs, items) + Flatten(fs)[Start(fs, a)..Start(fs, b)]
    ensures LoggedIn(items') == LoggedIn(items) + Range(a, b)
    ensures AddsFrames(items, items')
    decreases b - a
  {
    StartMonotone(fs, a, b);
    if a == b {
      items' := items;
    } else {
      var init := AppendRange(fs, items, a, b - 1);
      items' := init + [Logged(b - 1)];
      NextFrame(fs, items, init, a, b - 1);
      AddsMore(items, init, items');
    }
  }

  lemma NextFrame(fs: seq<Frame>, items: seq<Item>, init: seq<Item>, a: nat, b: nat)
    requires a <= b < |fs| && Start(fs, a) <= Start(fs, b) <= Start(fs, b + 1) <= |Flatten(fs)|
    requires Render(fs, init) == Render(fs, items) + Flatten(fs)[Start(fs, a)..Start(fs, b)]
    requires LoggedIn(init) == LoggedIn(items) + Range(a, b)
    ensures var items' := init + [Logged(b)];
            && Render(fs, items') == Render(fs, items) + Flatten(fs)[Start(fs, a)..Start(fs, b + 1)]
            && LoggedIn(items') == LoggedIn(items) + Range(a, b + 1)
  {
    Append(fs, init, Logged(b));
    StartStep(fs, b);
    SliceAt(Flatten(fs), Start(fs, a), Start(fs, b), Start(fs, b + 1));
    Assoc(Render(fs, items), Flatten(fs)[Start(fs, a)..Start(fs, b)], fs[b]);
    Assoc(LoggedIn(items), Range(a, b), [b]);
  }

  ghost predicate Bounded(got: set<nat>, last: int) {
    forall i :: i in got ==> i <= last
  }

  // How the arrival of packet `j`, after packet `last`, changes which frames arrived.

  lemma EndedBefore(s: Session, got: set<nat>, last: int, j: nat, k: nat)
    requires s.Valid() && -1 <= last < j < s.Count() && Bounded(got, last) && k < |s.frames|
    requires Start(s.frames, k + 1) <= s.cuts[last + 1]
    ensures s.Arrived(got + {j}, j, k) <==> s.Arrived(got, last, k)
  {
    assert s.Intact(got, last, k) <==> s.Intact(got + {j}, j, k) by {
      forall i: nat | i <= j && s.Overlaps(i, k)
        ensures i <= last
      {
        assert s.cuts[i] < s.cuts[last + 1];
      }
    }
  }

  lemma NextPacket(s: Session, got: set<nat>, j: nat, k: nat)
    requires s.Valid() && j < s.Count() && Bounded(got, j - 1) && k < |s.frames|
    ensures s.Intact(got + {j}, j, k) <==> s.Intact(got, j - 1, k)
  {
    if s.Intact(got + {j}, j, k) {
      forall i: nat | i <= j - 1 && s.Overlaps(i, k)
        ensures i in got
      {
        assert i in got + {j};
      }
    }
  }

  /** A frame that straddles lost packets is broken. */
  lemma Straddles(s: Session, got: set<nat>, last: int, j: nat, k: nat)
    requires s.Valid() && -1 <= last && last + 1 < j < s.Count() && Bounded(got, last) && k < |s.frames|
    requires Start(s.frames, k) < s.cuts[j] && s.cuts[last + 1] < Start(s.frames, k + 1)
    ensures !s.Intact(got + {j}, j, k)
  {
    var i := last + 1;
    while i + 1 < j && s.cuts[i + 1] < Start(s.frames, k + 1)
      invariant last < i < j && s.cuts[i] < Start(s.frames, k + 1)
    {
      i := i + 1;
    }
    StartStep(s.frames, k);
    assert s.Overlaps(i, k) && i !in got + {j};
  }

  lemma StartsWithin(s: Session, got: set<nat>, j: nat, k: nat)
    requires s.Valid() && j < s.Count() && k < |s.frames|
    requires s.cuts[j] <= Start(s.frames, k)
    ensures s.Intact(got + {j}, j, k)
  {
    forall i: nat | i <= j && s.Overlaps(i, k)
      ensures i == j
    {
      assert s.cuts[i + 1] > s.cuts[j];
    }
  }

  lemma {:induction false} SameArrivals(s: Session, got: set<nat>, last: int, got': set<nat>, last': int, k: nat)
    requires s.Valid() && -1 <= last < s.Count() && -1 <= last' < s.Count() && k <= |s.frames|
    requires forall i: nat :: i < k ==> s.Arrived(got, last, i) == s.Arrived(got', last', i)
    ensures s.ArrivedBelow(got, last, k) == s.ArrivedBelow(got', last', k)
  {
    if k == 0 {
    } else {
      SameArrivals(s, got, last, got', last', k - 1);
    }
  }

  lemma {:induction false} NoArrivals(s: Session, got: set<nat>, last: int, a: nat, b: nat)
    requires s.Valid() && -1 <= last < s.Count() && a <= b <= |s.frames|
    requires forall i: nat :: a <= i < b ==> !s.Arrived(got, last, i)
    ensures s.ArrivedBelow(got, last, b) == s.ArrivedBelow(got, last, a)
  {
    if a == b {
    } else {
      NoArrivals(s, got, last, a, b - 1);
    }
  }

  lemma {:induction false} AllArrivals(s: Session, got: set<nat>, last: int, a: nat, b: nat)
    requires s.Valid() && -1 <= last < s.Count() && a <= b <= |s.frames|
    requires forall i: nat :: a <= i < b ==> s.Arrived(got, last, i)
    ensures s.ArrivedBelow(got, last, b) == s.ArrivedBelow(got, last, a) + Range(a, b)
  {
    if a == b {
    } else {
      AllArrivals(s, got, last, a, b - 1);
    }
  }

  /** The file and the pending bytes are as they should be after packet `last`. */
  ghost predicate Tracks(s: Session, header: seq<byte>, got: set<nat>, last: int, items: seq<Item>, rx: Rx) {
    && s.Valid() && -1 <= last < s.Count() && Bounded(got, last)
    && rx.gotHeader && rx.file == header + Render(s.frames, items)
    && var pos := s.cuts[last + 1];
       var k := Next(s.frames, pos);
       if rx.pending == [] then
         && LoggedIn(items) == s.ArrivedBelow(got, last, k)
         && (k > 0 && pos < Start(s.frames, k) ==> !s.Intact(got, last, k - 1))
       else
         && k > 0 && rx.pending == Flatten(s.frames)[Start(s.frames, k - 1)..pos]
         && LoggedIn(items) == s.ArrivedBelow(got, last, k - 1)
         && s.Intact(got, last, k - 1)
  }

  /** A pending frame counts among those that arrived exactly when it is complete. */
  lemma PendingFrame(s: Session, header: seq<byte>, got: set<nat>, last: int, items: seq<Item>, rx: Rx)
    requires Tracks(s, header, got, last, items, rx) && rx.pending != []
    ensures var pos := s.cuts[last + 1];
            var k := Next(s.frames, pos);
            if pos == Start(s.frames, k) then
              && rx.pending == s.frames[k - 1] && WholeLength(rx.pending) == |rx.pending|
              && s.ArrivedBelow(got, last, k) == LoggedIn(items) + [k - 1]
            else
              && WholeLength(rx.pending) == 0 && s.ArrivedBelow(got, last, k) == LoggedIn(items)
  {
    var fs, pos := s.frames, s.cuts[last + 1];
    var k := Next(fs, pos);
    StartStep(fs, k - 1);
    if pos == Start(fs, k) {
      WholeLengthStep(fs[k - 1], []);
      assert fs[k - 1] + [] == fs[k - 1];
    } else {
      SliceHead(Flatten(fs), Start(fs, k - 1), pos, Start(fs, k));
      WholeLengthPartial(fs[k - 1], pos - Start(fs, k - 1));
    }
  }

  /** Flushing after a loss writes the pending frame exactly when it is complete. */
  lemma Flush(s: Session, header: seq<byte>, got: set<nat>, last: int, items: seq<Item>, rx: Rx, drops: nat)
    returns (items': seq<Item>)
    requires Tracks(s, header, got, last, items, rx)
    ensures FlushPending(rx, drops).file == header + Render(s.frames, items')
    ensures LoggedIn(items') == s.ArrivedBelow(got, last, Next(s.frames, s.cuts[last + 1]))
    ensures AddsFrames(items + Report(rx.gotSection, drops), items')
  {
    var reported := items + Report(rx.gotSection, drops);
    var file := rx.file;
    if rx.gotSection {
      WriteItem(s.frames, header, items, Dropout(drops));
      file := file + DropoutFrame(drops);
    } else {
      assert reported == items;
    }
    items' := FlushFrame(s, header, got, last, items, reported, file, rx);
  }

  lemma FlushFrame(s: Session, header: seq<byte>, got: set<nat>, last: int, items: seq<Item>, items1: seq<Item>,
                   file: seq<byte>, rx: Rx)
    returns (items': seq<Item>)
    requires Tracks(s, header, got, last, items, rx)
    requires file == header + Render(s.frames, items1) && LoggedIn(items1) == LoggedIn(items)
    ensures file + rx.pending[..WholeLength(rx.pending)] == header + Render(s.frames, items')
    ensures LoggedIn(items') == s.ArrivedBelow(got, last, Next(s.frames, s.cuts[last + 1]))
    ensures AddsFrames(items1, items')
  {
    WholePending(s, header, got, last, items, rx);
    if WholeLength(rx.pending) == 0 {
      items' := items1;
      assert file + [] == file;
    } else {
      var k := Next(s.frames, s.cuts[last + 1]);
      WriteItem(s.frames, header, items1, Logged(k - 1));
      items' := items1 + [Logged(k - 1)];
    }
  }

  /** What is complete of the pending bytes is the last frame that arrived, or nothing. */
  lemma WholePending(s: Session, header: seq<byte>, got: set<nat>, last: int, items: seq<Item>, rx: Rx)
    requires Tracks(s, header, got, last, items, rx)
    ensures var k, n := Next(s.frames, s.cuts[last + 1]), WholeLength(rx.pending);
            if n == 0 then s.ArrivedBelow(got, last, k) == LoggedIn(items)
            else
              && k > 0 && rx.pending[..n] == s.frames[k - 1]
              && s.ArrivedBelow(got, last, k) == LoggedIn(items) + [k - 1]
  {
    if rx.pending != [] {
      PendingFrame(s, header, got, last, items, rx);
    }
  }

  /** From frame start `q` up to position `pos`, writing leaves the frame in progress at `pos`. */
  lemma TailBytes(fs: seq<Frame>, items: seq<Item>, q: nat, e: nat, pos: nat) returns (items': seq<Item>)
    requires q <= e <= |fs| && Start(fs, e) <= pos <= |Flatten(fs)|
    requires e < |fs| ==> pos < Start(fs, e + 1)
    ensures Start(fs, q) <= Start(fs, e) && LoggedIn(items') == LoggedIn(items) + Range(q, e)
    ensures var data := Flatten(fs)[Start(fs, q)..pos];
            var n := WholeLength(data);
            && Render(fs, items') == Render(fs, items) + data[..n]
            && data[n..] == Flatten(fs)[Start(fs, e)..pos]
    ensures AddsFrames(items, items')
  {
    WholeAndRest(fs, q, e, pos);
    items' := AppendRange(fs, items, q, e);
  }

  /** The bytes from frame start `q` to `pos`: the frames that end by then, and the rest. */
  lemma WholeAndRest(fs: seq<Frame>, q: nat, e: nat, pos: nat)
    requires q <= e <= |fs| && Start(fs, e) <= pos <= |Flatten(fs)|
    requires e < |fs| ==> pos < Start(fs, e + 1)
    ensures Start(fs, q) <= Start(fs, e)
    ensures var data := Flatten(fs)[Start(fs, q)..pos];
            var n := WholeLength(data);
            data[..n] == Flatten(fs)[Start(fs, q)..Start(fs, e)] && data[n..] == Flatten(fs)[Start(fs, e)..pos]
  {
    WholeLengthAt(fs, q, e, pos);
    SliceHead(Flatten(fs), Start(fs, q), Start(fs, e), pos);
    SliceTail(Flatten(fs), Start(fs, q), Start(fs, e), pos);
  }

  /** The frames that start in packet `j` and end by its end arrived, and no others of them did. */
  lemma TailArrivals(s: Session, got: set<nat>, j: nat, e: nat)
    requires s.Valid() && j < s.Count() && j in got
    requires Next(s.frames, s.cuts[j]) <= e <= |s.frames| && Start(s.frames, e) <= s.cuts[j + 1]
    ensures var q := Next(s.frames, s.cuts[j]);
            s.ArrivedBelow(got, j, e) == s.ArrivedBelow(got, j, q) + Range(q, e)
    ensures e < |s.frames| ==> s.Intact(got, j, e)
  {
    var fs := s.frames;
    var q := Next(fs, s.cuts[j]);
    assert got + {j} == got;
    forall i: nat | q <= i < |fs|
      ensures s.Intact(got, j, i)
    {
      StartMonotone(fs, q, i);
      StartsWithin(s, got, j, i);
    }
    forall i: nat | q <= i < e
      ensures s.Arrived(got, j, i)
    {
      StartMonotone(fs, i + 1, e);
    }
    AllArrivals(s, got, j, q, e);
  }

  /** When the frames up to `e` are settled and frame `e` is in progress, the receiver is on track. */
  lemma Settle(s: Session, header: seq<byte>, got: set<nat>, j: nat, e: nat, items: seq<Item>, rx: Rx)
    requires s.Valid() && j < s.Count() && Bounded(got, j) && e <= |s.frames|
    requires Start(s.frames, e) <= s.cuts[j + 1] && (e < |s.frames| ==> s.cuts[j + 1] < Start(s.frames, e + 1))
    requires rx.gotHeader && rx.file == header + Render(s.frames, items)
    requires rx.pending == Flatten(s.frames)[Start(s.frames, e)..s.cuts[j + 1]]
    requires LoggedIn(items) == s.ArrivedBelow(got, j, e) && (e < |s.frames| ==> s.Intact(got, j, e))
    ensures Tracks(s, header, got, j, items, rx)
  {
    var fs, pos := s.frames, s.cuts[j + 1];
    StartEnds(fs);
    if Start(fs, e) == pos {
      if e > 0 {
        StartStep(fs, e - 1);
      }
      NextUnique(fs, pos, e);
    } else {
      NextUnique(fs, pos, e + 1);
    }
  }

  /** Writing from a frame start inside packet `j` to the packet's end. */
  lemma Tail(s: Session, header: seq<byte>, got: set<nat>, j: nat, items: seq<Item>, rx: Rx)
    returns (items': seq<Item>)
    requires s.Valid() && j < s.Count() && Bounded(got, j) && j in got
    requires rx.gotHeader && rx.file == header + Render(s.frames, items)
    requires var q := Next(s.frames, s.cuts[j]);
             Start(s.frames, q) <= s.cuts[j + 1] && LoggedIn(items) == s.ArrivedBelow(got, j, q)
    ensures var q := Next(s.frames, s.cuts[j]);
            var data := Flatten(s.frames)[Start(s.frames, q)..s.cuts[j + 1]];
            Tracks(s, header, got, j, items', WriteTail(rx, data))
    ensures AddsFrames(items, items')
  {
    var fs, pos := s.frames, s.cuts[j + 1];
    var q := Next(fs, s.cuts[j]);
    var e := Ended(fs, q, pos);
    items' := TailBytes(fs, items, q, e, pos);
    var data := Flatten(fs)[Start(fs, q)..pos];
    Assoc(header, Render(fs, items), data[..WholeLength(data)]);
    TailArrivals(s, got, j, e);
    Settle(s, header, got, j, e, items', WriteTail(rx, data));
  }

  /** After a loss, the frames that arrived and start before packet `j` are those ended before it. */
  lemma AfterLoss(s: Session, got: set<nat>, last: int, j: nat)
    requires s.Valid() && -1 <= last && last + 1 < j < s.Count() && Bounded(got, last)
    ensures var k, q := Next(s.frames, s.cuts[last + 1]), Next(s.frames, s.cuts[j]);
            s.ArrivedBelow(got + {j}, j, q) == s.ArrivedBelow(got, last, k)
  {
    var fs, pos := s.frames, s.cuts[last + 1];
    var k, q := Next(fs, pos), Next(fs, s.cuts[j]);
    NextMonotone(fs, pos, s.cuts[j]);
    forall i: nat | i < q
      ensures if i < k then s.Arrived(got + {j}, j, i) == s.Arrived(got, last, i) else !s.Arrived(got + {j}, j, i)
    {
      if Start(fs, i + 1) <= pos {
        if k <= i { StartMonotone(fs, k, i); StartStep(fs, i); }
        EndedBefore(s, got, last, j, i);
      } else {
        StartMonotone(fs, i, q - 1);
        Straddles(s, got, last, j, i);
      }
    }
    SameArrivals(s, got + {j}, j, got, last, k);
    NoArrivals(s, got + {j}, j, k, q);
  }

  /** With no loss, the frames that arrived and start before packet `j`. */
  lemma NoLoss(s: Session, got: set<nat>, j: nat, k: nat)
    requires s.Valid() && j < s.Count() && Bounded(got, j - 1)
    requires k <= |s.frames|
    requires k > 0 ==> Start(s.frames, k - 1) <= s.cuts[j]
    requires k > 0 && s.cuts[j] < Start(s.frames, k) ==> !s.Intact(got, j - 1, k - 1)
    ensures s.ArrivedBelow(got + {j}, j, k) == s.ArrivedBelow(got, j - 1, k)
  {
    forall i: nat | i < k
      ensures s.Arrived(got + {j}, j, i) == s.Arrived(got, j - 1, i)
    {
      if i < k - 1 {
        StartMonotone(s.frames, i + 1, k - 1);
      }
      if Start(s.frames, i + 1) <= s.cuts[j] {
        EndedBefore(s, got, j - 1, j, i);
      } else {
        NextPacket(s, got, j, i);
      }
    }
    SameArrivals(s, got + {j}, j, got, j - 1, k);
  }

  /** The receiver keeps track when packet `j` is the next one it accepts, `lost` packets after packet `last`. */
  lemma Step(s: Session, header: seq<byte>, got: set<nat>, last: int, j: nat, offset: byte, items: seq<Item>, rx: Rx,
             lost: nat, report: seq<Item>)
    returns (items': seq<Item>)
    requires Tracks(s, header, got, last, items, rx) && j == last + 1 + lost
    requires j < s.Count() && s.Honest(j, offset) && |s.Body(j)| < NO_START
    requires report == Report(rx.gotSection && lost > 0, lost)
    ensures Tracks(s, header, got + {j}, j, items', ProcessBody(rx, s.Body(j), offset, lost))
    ensures AddsFrames(items + report, items')
  {
    if lost > 0 {
      items' := StepAfterLoss(s, header, got, last, j, offset, items, rx, lost);
    } else {
      items' := StepInSequence(s, header, got, j, offset, items, rx);
      assert items + [] == items;
    }
  }

  /** An honest offset cuts the packet at the first frame that starts in it. */
  lemma CutAtOffset(s: Session, j: nat, offset: byte)
    requires s.Valid() && j < s.Count() && s.Honest(j, offset) && |s.Body(j)| < NO_START && offset != NO_START
    ensures var q := Next(s.frames, s.cuts[j]);
            && Start(s.frames, q) <= s.cuts[j + 1]
            && Upto(s.Body(j), offset) == Flatten(s.frames)[s.cuts[j]..Start(s.frames, q)]
            && From(s.Body(j), offset) == Flatten(s.frames)[Start(s.frames, q)..s.cuts[j + 1]]
  {
    var start := Start(s.frames, Next(s.frames, s.cuts[j]));
    SliceHead(Flatten(s.frames), s.cuts[j], start, s.cuts[j + 1]);
    SliceTail(Flatten(s.frames), s.cuts[j], start, s.cuts[j + 1]);
  }

  /** A packet in which no frame starts, when no frame is pending. */
  lemma Idle(s: Session, header: seq<byte>, got: set<nat>, j: nat, items: seq<Item>, rx: Rx)
    requires s.Valid() && j < s.Count() && Bounded(got, j)
    requires rx.gotHeader && rx.file == header + Render(s.frames, items) && rx.pending == []
    requires var q := Next(s.frames, s.cuts[j]);
             && s.cuts[j + 1] <= Start(s.frames, q) && LoggedIn(items) == s.ArrivedBelow(got, j, q)
             && (q > 0 && s.cuts[j + 1] < Start(s.frames, q) ==> !s.Intact(got, j, q - 1))
    ensures Tracks(s, header, got, j, items, rx)
  {
    NextUnique(s.frames, s.cuts[j + 1], Next(s.frames, s.cuts[j]));
  }

  lemma StepAfterLoss(s: Session, header: seq<byte>, got: set<nat>, last: int, j: nat, offset: byte,
                      items: seq<Item>, rx: Rx, lost: nat)
    returns (items': seq<Item>)
    requires Tracks(s, header, got, last, items, rx) && lost > 0 && j == last + 1 + lost
    requires j < s.Count() && s.Honest(j, offset) && |s.Body(j)| < NO_START
    ensures Tracks(s, header, got + {j}, j, items', ProcessBody(rx, s.Body(j), offset, lost))
    ensures AddsFrames(items + Report(rx.gotSection, lost), items')
  {
    var flushed := Flush(s, header, got, last, items, rx, lost);
    AfterLoss(s, got, last, j);
    var rx1 := FlushPending(rx, lost);
    items' := Resume(s, header, got, last, j, offset, flushed, rx1);
    AddsMore(items + Report(rx.gotSection, lost), flushed, items');
    AfterFlush(rx, s.Body(j), offset, lost, rx1);
  }

  lemma AfterFlush(rx: Rx, data: seq<byte>, offset: byte, lost: nat, rx1: Rx)
    requires lost > 0 && rx1 == FlushPending(rx, lost)
    ensures ProcessBody(rx, data, offset, lost)
         == if offset == NO_START then rx1 else WriteTail(rx1, From(data, offset))
  {
  }

  lemma Resume(s: Session, header: seq<byte>, got: set<nat>, last: int, j: nat, offset: byte,
               items: seq<Item>, rx: Rx)
    returns (items': seq<Item>)
    requires s.Valid() && -1 <= last && last + 1 < j < s.Count() && Bounded(got, last)
    requires s.Honest(j, offset) && |s.Body(j)| < NO_START
    requires rx.gotHeader && rx.file == header + Render(s.frames, items) && rx.pending == []
    requires LoggedIn(items) == s.ArrivedBelow(got + {j}, j, Next(s.frames, s.cuts[j]))
    ensures Tracks(s, header, got + {j}, j, items',
                   if offset == NO_START then rx else WriteTail(rx, From(s.Body(j), offset)))
    ensures AddsFrames(items, items')
  {
    if offset == NO_START {
      items' := items;
      var q := Next(s.frames, s.cuts[j]);
      if q > 0 && s.cuts[j + 1] < Start(s.frames, q) {
        Straddles(s, got, last, j, q - 1);
      }
      Idle(s, header, got + {j}, j, items', rx);
    } else {
      CutAtOffset(s, j, offset);
      items' := Tail(s, header, got + {j}, j, items, rx);
    }
  }

  lemma StepInSequence(s: Session, header: seq<byte>, got: set<nat>, j: nat, offset: byte, items: seq<Item>, rx: Rx)
    returns (items': seq<Item>)
    requires Tracks(s, header, got, j - 1, items, rx) && j < s.Count()
    requires s.Honest(j, offset) && |s.Body(j)| < NO_START
    ensures Tracks(s, header, got + {j}, j, items', ProcessBody(rx, s.Body(j), offset, 0))
    ensures AddsFrames(items, items')
  {
    if rx.pending == [] {
      items' := StepFresh(s, header, got, j, offset, items, rx);
    } else {
      items' := StepPending(s, header, got, j, offset, items, rx);
    }
  }

  lemma StepFresh(s: Session, header: seq<byte>, got: set<nat>, j: nat, offset: byte, items: seq<Item>, rx: Rx)
    returns (items': seq<Item>)
    requires Tracks(s, header, got, j - 1, items, rx) && j < s.Count()
    requires s.Honest(j, offset) && |s.Body(j)| < NO_START && rx.pending == []
    ensures Tracks(s, header, got + {j}, j, items', ProcessBody(rx, s.Body(j), offset, 0))
    ensures AddsFrames(items, items')
  {
    NoLoss(s, got, j, Next(s.frames, s.cuts[j]));
    if offset == NO_START {
      items' := items;
      StaysIdle(s, header, got, j, items, rx);
      NothingWritten(rx, s.Body(j));
    } else {
      CutAtOffset(s, j, offset);
      items' := Tail(s, header, got + {j}, j, items, rx);
    }
  }

  lemma StaysIdle(s: Session, header: seq<byte>, got: set<nat>, j: nat, items: seq<Item>, rx: Rx)
    requires Tracks(s, header, got, j - 1, items, rx) && j < s.Count() && rx.pending == []
    requires s.cuts[j + 1] <= Start(s.frames, Next(s.frames, s.cuts[j]))
    ensures Tracks(s, header, got + {j}, j, items, rx)
  {
    var k := Next(s.frames, s.cuts[j]);
    NoLoss(s, got, j, k);
    if k > 0 && s.cuts[j + 1] < Start(s.frames, k) {
      NextPacket(s, got, j, k - 1);
    }
    Idle(s, header, got + {j}, j, items, rx);
  }

  lemma NothingWritten(rx: Rx, body: seq<byte>)
    requires rx.pending == [] && |body| < NO_START
    ensures ProcessBody(rx, body, NO_START, 0) == rx
  {
    assert From(body, NO_START) == [] && rx.file + [] == rx.file;
  }

  /** The frame in progress stays intact when the next packet arrives. */
  lemma KeepsPending(s: Session, header: seq<byte>, got: set<nat>, j: nat, items: seq<Item>, rx: Rx)
    requires Tracks(s, header, got, j - 1, items, rx) && j < s.Count() && rx.pending != []
    ensures var k := Next(s.frames, s.cuts[j]);
            && s.Intact(got + {j}, j, k - 1) && LoggedIn(items) == s.ArrivedBelow(got + {j}, j, k - 1)
            && (Start(s.frames, k) <= s.cuts[j + 1]
                ==> LoggedIn(items) + [k - 1] == s.ArrivedBelow(got + {j}, j, k))
  {
    var k := Next(s.frames, s.cuts[j]);
    if k > 1 {
      StartStep(s.frames, k - 2);
    }
    NoLoss(s, got, j, k - 1);
    NextPacket(s, got, j, k - 1);
  }

  lemma Continues(s: Session, header: seq<byte>, got: set<nat>, j: nat, items: seq<Item>, rx: Rx)
    requires Tracks(s, header, got, j - 1, items, rx) && j < s.Count() && rx.pending != []
    requires s.cuts[j + 1] <= Start(s.frames, Next(s.frames, s.cuts[j]))
    ensures Tracks(s, header, got + {j}, j, items, rx.(pending := rx.pending + s.Body(j)))
  {
    var k := Next(s.frames, s.cuts[j]);
    KeepsPending(s, header, got, j, items, rx);
    NextUnique(s.frames, s.cuts[j + 1], k);
    SliceAt(Flatten(s.frames), Start(s.frames, k - 1), s.cuts[j], s.cuts[j + 1]);
    InProgress(s, header, got + {j}, j, k, items, rx.(pending := rx.pending + s.Body(j)));
  }

  /** When frame `k - 1` is pending, intact so far, and the frames before it are settled, the receiver is on track. */
  lemma InProgress(s: Session, header: seq<byte>, got: set<nat>, j: nat, k: nat, items: seq<Item>, rx: Rx)
    requires s.Valid() && j < s.Count() && Bounded(got, j) && k == Next(s.frames, s.cuts[j + 1]) && k > 0
    requires rx.gotHeader && rx.file == header + Render(s.frames, items)
    requires rx.pending != [] && rx.pending == Flatten(s.frames)[Start(s.frames, k - 1)..s.cuts[j + 1]]
    requires LoggedIn(items) == s.ArrivedBelow(got, j, k - 1) && s.Intact(got, j, k - 1)
    ensures Tracks(s, header, got, j, items, rx)
  {
  }

  lemma CompletesPending(s: Session, header: seq<byte>, got: set<nat>, j: nat, items: seq<Item>, rx: Rx)
    returns (items': seq<Item>)
    requires s.Valid() && j < s.Count() && Bounded(got, j) && j in got
    requires rx.gotHeader && rx.file == header + Render(s.frames, items)
    requires var k := Next(s.frames, s.cuts[j]);
             && k > 0 && Start(s.frames, k) <= s.cuts[j + 1]
             && LoggedIn(items) + [k - 1] == s.ArrivedBelow(got, j, k)
    ensures var k := Next(s.frames, s.cuts[j]);
            var data := Flatten(s.frames)[Start(s.frames, k)..s.cuts[j + 1]];
            Tracks(s, header, got, j, items', WriteTail(rx.(file := rx.file + s.frames[k - 1], pending := []), data))
    ensures AddsFrames(items, items')
  {
    var k := Next(s.frames, s.cuts[j]);
    WriteItem(s.frames, header, items, Logged(k - 1));
    var rx1 := rx.(file := rx.file + s.frames[k - 1], pending := []);
    items' := Tail(s, header, got, j, items + [Logged(k - 1)], rx1);
    AddsMore(items, items + [Logged(k - 1)], items');
  }

  lemma StepPending(s: Session, header: seq<byte>, got: set<nat>, j: nat, offset: byte, items: seq<Item>, rx: Rx)
    returns (items': seq<Item>)
    requires Tracks(s, header, got, j - 1, items, rx) && j < s.Count()
    requires s.Honest(j, offset) && |s.Body(j)| < NO_START && rx.pending != []
    ensures Tracks(s, header, got + {j}, j, items', ProcessBody(rx, s.Body(j), offset, 0))
    ensures AddsFrames(items, items')
  {
    if offset == NO_START {
      items' := items;
      Continues(s, header, got, j, items, rx);
    } else {
      items' := Completes(s, header, got, j, offset, items, rx);
    }
  }

  lemma MeetsPending(s: Session, header: seq<byte>, got: set<nat>, j: nat, items: seq<Item>, rx: Rx)
    requires Tracks(s, header, got, j - 1, items, rx) && j < s.Count() && rx.pending != []
    ensures Start(s.frames, Next(s.frames, s.cuts[j])) <= |Flatten(s.frames)|
    ensures var k := Next(s.frames, s.cuts[j]);
            rx.pending + Flatten(s.frames)[s.cuts[j]..Start(s.frames, k)] == s.frames[k - 1]
  {
    var k := Next(s.frames, s.cuts[j]);
    StartStep(s.frames, k - 1);
    SliceAt(Flatten(s.frames), Start(s.frames, k - 1), s.cuts[j], Start(s.frames, k));
  }

  lemma Completes(s: Session, header: seq<byte>, got: set<nat>, j: nat, offset: byte, items: seq<Item>, rx: Rx)
    returns (items': seq<Item>)
    requires Tracks(s, header, got, j - 1, items, rx) && j < s.Count() && rx.pending != []
    requires s.Honest(j, offset) && |s.Body(j)| < NO_START && offset != NO_START
    ensures var rx1 := rx.(file := rx.file + (rx.pending + Upto(s.Body(j), offset)), pending := []);
            Tracks(s, header, got + {j}, j, items', WriteTail(rx1, From(s.Body(j), offset)))
    ensures AddsFrames(items, items')
  {
    var k := Next(s.frames, s.cuts[j]);
    CutAtOffset(s, j, offset);
    KeepsPending(s, header, got, j, items, rx);
    items' := CompletesPending(s, header, got + {j}, j, items, rx);
    MeetsPending(s, header, got, j, items, rx);
  }

  // Frames that are complete but not yet written.

  /**
   * After packet `j`, the last frame that arrived is held back: it ended with a packet in
   * which no frame starts. `before` says whether one was held back before packet `j`.
   */
  ghost predicate HeldBack(s: Session, got: set<nat>, last: int, j: nat, offset: byte, before: bool)
    requires s.Valid() && -1 <= last < j < s.Count()
  {
    && last + 1 == j && offset == NO_START
    && if s.cuts[j] == s.cuts[j + 1] then before else EndsWith(s, got, j)
  }

  /** A frame that arrived ends with packet `j`. */
  ghost predicate EndsWith(s: Session, got: set<nat>, j: nat)
    requires s.Valid() && j < s.Count()
  {
    var k := Next(s.frames, s.cuts[j + 1]);
    k > 0 && Start(s.frames, k) == s.cuts[j + 1] && s.Arrived(got, j, k - 1)
  }

  lemma {:induction false} RestIsPartial(data: seq<byte>)
    ensures WholeLength(data[WholeLength(data)..]) == 0
    decreases |data|
  {
    if |data| <= 2 || Le16(data[0], data[1]) + 3 > |data| {
      assert data[0..] == data;
    } else {
      var length := Le16(data[0], data[1]) + 3;
      RestIsPartial(data[length..]);
      assert data[WholeLength(data)..] == data[length..][WholeLength(data[length..])..];
    }
  }

  lemma HeldAfter(s: Session, header: seq<byte>, got: set<nat>, last: int, j: nat, offset: byte,
                  items: seq<Item>, rx: Rx, items': seq<Item>, rx': Rx, lost: nat, held: bool)
    requires Tracks(s, header, got, last, items, rx) && j == last + 1 + lost
    requires j < s.Count() && s.Honest(j, offset) && |s.Body(j)| < NO_START
    requires Tracks(s, header, got + {j}, j, items', rx') && rx' == ProcessBody(rx, s.Body(j), offset, lost)
    requires held <==> WholeLength(rx.pending) > 0
    ensures WholeLength(rx'.pending) > 0 <==> HeldBack(s, got + {j}, last, j, offset, held)
  {
    if lost > 0 || offset != NO_START {
      WritesAllFrames(rx, s.Body(j), offset, lost);
    } else {
      HeldNoStart(s, header, got, last, j, offset, items, rx, items', rx', lost, held);
    }
  }

  lemma HeldNoStart(s: Session, header: seq<byte>, got: set<nat>, last: int, j: nat, offset: byte,
                    items: seq<Item>, rx: Rx, items': seq<Item>, rx': Rx, lost: nat, held: bool)
    requires Tracks(s, header, got, last, items, rx) && j == last + 1 && lost == 0 && offset == NO_START
    requires j < s.Count() && s.Honest(j, offset) && |s.Body(j)| < NO_START
    requires Tracks(s, header, got + {j}, j, items', rx') && rx' == ProcessBody(rx, s.Body(j), offset, lost)
    requires held <==> WholeLength(rx.pending) > 0
    ensures WholeLength(rx'.pending) > 0 <==> HeldBack(s, got + {j}, last, j, offset, held)
  {
    NoStart(s, j);
    NoStartGoesOn(rx, s.Body(j));
    HeldInSequence(s, header, got, j, items, rx, items', rx');
  }

  /** After a loss, or when a frame starts in the packet, every complete frame is written. */
  lemma WritesAllFrames(rx: Rx, data: seq<byte>, offset: byte, drops: nat)
    requires drops > 0 || offset != NO_START
    ensures WholeLength(ProcessBody(rx, data, offset, drops).pending) == 0
  {
    RestIsPartial(From(data, offset));
  }

  lemma NoStart(s: Session, j: nat)
    requires s.Valid() && j < s.Count() && s.Honest(j, NO_START) && |s.Body(j)| < NO_START
    ensures s.cuts[j + 1] <= Start(s.frames, Next(s.frames, s.cuts[j]))
  {
  }

  /** What a packet in which no frame starts leaves: a pending frame goes on, otherwise nothing changes. */
  ghost function GoesOn(rx: Rx, data: seq<byte>): Rx {
    if rx.pending == [] then rx else rx.(pending := rx.pending + data)
  }

  lemma NoStartGoesOn(rx: Rx, body: seq<byte>)
    requires |body| < NO_START
    ensures ProcessBody(rx, body, NO_START, 0) == GoesOn(rx, body)
  {
    if rx.pending == [] {
      NothingWritten(rx, body);
    }
  }

  lemma HeldInSequence(s: Session, header: seq<byte>, got: set<nat>, j: nat, items: seq<Item>, rx: Rx,
                       items': seq<Item>, rx': Rx)
    requires Tracks(s, header, got, j - 1, items, rx) && j < s.Count()
    requires s.cuts[j + 1] <= Start(s.frames, Next(s.frames, s.cuts[j]))
    requires Tracks(s, header, got + {j}, j, items', rx') && rx' == GoesOn(rx, s.Body(j))
    ensures WholeLength(rx'.pending) > 0
       <==> if s.cuts[j] == s.cuts[j + 1] then WholeLength(rx.pending) > 0 else EndsWith(s, got + {j}, j)
  {
    if rx.pending != [] {
      StillHeld(s, header, got, j, items, rx, items');
    } else if s.cuts[j] < s.cuts[j + 1] {
      NothingHeld(s, header, got, j, items, rx);
    }
  }

  /** Without a pending frame, a packet in which no frame starts completes none. */
  lemma NothingHeld(s: Session, header: seq<byte>, got: set<nat>, j: nat, items: seq<Item>, rx: Rx)
    requires Tracks(s, header, got, j - 1, items, rx) && j < s.Count() && rx.pending == []
    requires s.cuts[j + 1] <= Start(s.frames, Next(s.frames, s.cuts[j])) && s.cuts[j] < s.cuts[j + 1]
    ensures !EndsWith(s, got + {j}, j)
  {
    var q := Next(s.frames, s.cuts[j]);
    NextUnique(s.frames, s.cuts[j + 1], q);
    if q > 0 {
      NextPacket(s, got, j, q - 1);
    }
  }

  lemma StillHeld(s: Session, header: seq<byte>, got: set<nat>, j: nat, items: seq<Item>, rx: Rx, items': seq<Item>)
    requires Tracks(s, header, got, j - 1, items, rx) && j < s.Count() && rx.pending != []
    requires Tracks(s, header, got + {j}, j, items', rx.(pending := rx.pending + s.Body(j)))
    ensures WholeLength(rx.pending + s.Body(j)) > 0
       <==> if s.cuts[j] == s.cuts[j + 1] then WholeLength(rx.pending) > 0 else EndsWith(s, got + {j}, j)
  {
    if s.cuts[j] == s.cuts[j + 1] {
      assert rx.pending + s.Body(j) == rx.pending;
    } else {
      PendingFrame(s, header, got + {j}, j, items', rx.(pending := rx.pending + s.Body(j)));
    }
  }
}
