/**
 * The firmware uploader (Tools/px_uploader.py): padding of the image, its CRC over the
 * whole flash, the programming loop with windowed acknowledgement, and verification.
 */
module Uploader {
  import opened Bytes
  import opened Crc32

  type Image = seq<bv8>

  // The image and its CRC.

  /** Erased flash reads as 0xff, so a shorter image is extended with it. */
  function ExtendTo(image: Image, length: nat): (r: Image)
    requires |image| <= length
    ensures |r| == length && r[..|image|] == image && forall i :: |image| <= i < length ==> r[i] == 0xff
  {
    image + Fill(length - |image|)
  }

  function RoundUp4(n: nat): (r: nat)
    ensures n <= r < n + 4 && r % 4 == 0
  {
    (n + 3) / 4 * 4
  }

  /** Number of four-byte fillings that `crc(padlen)` adds: the loop stops at `padlen - 1`. */
  function Fillings(length: nat, padlen: int): nat
    decreases padlen - length
  {
    if length < padlen - 1 then 1 + Fillings(length + 4, padlen) else 0
  }

  /** Number of bytes that `crc(padlen)` covers. */
  function Covered(length: nat, padlen: int): (n: nat)
    ensures n >= length
  {
    length + 4 * Fillings(length, padlen)
  }

  lemma CoveredStep(length: nat, padlen: int)
    ensures Covered(length, padlen) == if length < padlen - 1 then Covered(length + 4, padlen) else length
  {
  }

  lemma {:induction false} LastFilling(length: nat, padlen: int)
    ensures padlen - 1 <= Covered(length, padlen)
    ensures Covered(length, padlen) == length || Covered(length, padlen) < padlen + 3
    decreases padlen - length
  {
    if length < padlen - 1 {
      LastFilling(length + 4, padlen);
    }
  }

  /** The CRC covers exactly `padlen` bytes in exactly these cases, despite the loop bound. */
  lemma CoversExactly(length: nat, padlen: int)
    ensures Covered(length, padlen) == padlen <==> length <= padlen && (padlen - length) % 4 == 0
  {
    LastFilling(length, padlen);
  }

  lemma ExtendMore(image: Image, i: nat)
    requires |image| <= i
    ensures ExtendTo(image, i) + Fill(4) == ExtendTo(image, i + 4)
  {
  }

  class Firmware {
    var image: Image

    /** The constructor pads the image to a multiple of four bytes. */
    constructor (raw: Image)
      ensures image == ExtendTo(raw, RoundUp4(|raw|))
    {
      var padded := raw;
      while |padded| % 4 != 0
        invariant |raw| <= |padded| <= RoundUp4(|raw|) && padded == ExtendTo(raw, |padded|)
        decreases RoundUp4(|raw|) - |padded|
      {
        padded := padded + [0xff];
      }
      image := padded;
    }

    method CrcOver(padlen: int) returns (state: bv32)
      ensures state == Crc(0, ExtendTo(image, Covered(|image|, padlen)))
    {
      state := Update(image, 0);
      var i := |image|;
      assert ExtendTo(image, i) == image;
      while i < padlen - 1
        invariant i >= |image| && Covered(i, padlen) == Covered(|image|, padlen)
        invariant state == Crc(0, ExtendTo(image, i))
      {
        CoveredStep(i, padlen);
        state := AddFilling(i, state);
        i := i + 4;
      }
      CoveredStep(i, padlen);
    }

    method AddFilling(i: nat, before: bv32) returns (state: bv32)
      requires |image| <= i && before == Crc(0, ExtendTo(image, i))
      ensures state == Crc(0, ExtendTo(image, i + 4))
    {
      CrcConcat(0, ExtendTo(image, i), Fill(4));
      ExtendMore(image, i);
      state := Update(Fill(4), before);
    }

    /** `__verify_v3`: compares the CRC that the bootloader reports with the expected one. */
    method Verify(flashSize: int, reported: bv32) returns (ok: bool)
      ensures ok <==> reported == Crc(0, ExtendTo(image, Covered(|image|, flashSize)))
    {
      var expected := CrcOver(flashSize);
      ok := reported == expected;
    }
  }

  /** What a bootloader reports whose flash holds `flash`. */
  function Report(flash: Image): bv32 {
    Crc(0, flash)
  }

  /**
   * Verification against the flash: a correctly programmed flash passes, and one that
   * differs from it within four consecutive bytes does not.
   */
  lemma VerifyDetectsBursts(image: Image, flashSize: nat, at: nat, bad: Image)
    requires |image| <= flashSize && |image| % 4 == 0 && flashSize % 4 == 0
    requires |bad| <= 4 && at + |bad| <= flashSize
    ensures Covered(|image|, flashSize) == flashSize
    ensures var flash := ExtendTo(image, flashSize);
            var damaged := flash[..at] + bad + flash[at + |bad|..];
            damaged != flash ==> Report(damaged) != Report(flash)
  {
    WholeWords(|image|, flashSize);
    CoversExactly(|image|, flashSize);
    DamageDetected(ExtendTo(image, flashSize), at, bad);
  }

  lemma WholeWords(a: nat, b: nat)
    requires a <= b && a % 4 == 0 && b % 4 == 0
    ensures (b - a) % 4 == 0
  {
  }

  lemma DamageDetected(flash: Image, at: nat, bad: Image)
    requires |bad| <= 4 && at + |bad| <= |flash|
    ensures var damaged := flash[..at] + bad + flash[at + |bad|..];
            damaged != flash ==> Report(damaged) != Report(flash)
  {
    var good := flash[at..at + |bad|];
    assert flash == flash[..at] + good + flash[at + |bad|..];
    if good != bad {
      BurstDetected(0, flash[..at], good, bad, flash[at + |bad|..]);
    }
  }

  // Programming.

  const PROG_MULTI_MAX := 252

  /** A sequence cut into pieces of `n` elements; the last piece may be shorter. */
  function SplitLength(s: Image, n: nat): (pieces: seq<Image>)
    requires n > 0
    ensures Flatten(pieces) == s
    decreases |s|
  {
    if |s| == 0 then []
    else if |s| <= n then
      assert s + Flatten([]) == s;
      [s]
    else
      assert s == s[..n] + s[n..];
      [s[..n]] + SplitLength(s[n..], n)
  }

  /** A block is non-empty, no longer than `n`, and a whole number of words when `words`. */
  predicate IsBlock(block: Image, n: nat, words: bool) {
    1 <= |block| <= n && (words ==> |block| % 4 == 0)
  }

  ghost predicate AreBlocks(blocks: seq<Image>, n: nat, words: bool) {
    forall i :: 0 <= i < |blocks| ==> IsBlock(blocks[i], n, words) && (i < |blocks| - 1 ==> |blocks[i]| == n)
  }

  lemma {:induction false} BlockSizes(s: Image, n: nat, words: bool)
    requires n > 0 && (words ==> |s| % 4 == 0 && n % 4 == 0)
    ensures AreBlocks(SplitLength(s, n), n, words)
    decreases |s|
  {
    if |s| > n {
      BlockSizes(s[n..], n, words);
      var pieces, rest := SplitLength(s, n), SplitLength(s[n..], n);
      assert AreBlocks(rest, n, words);
      assert pieces == [s[..n]] + rest;
    }
  }

  const INSYNC: bv8 := 0x12
  const OK: bv8 := 0x10
  const EOC: bv8 := 0x20
  const PROG_MULTI: bv8 := 0x27
  const WINDOW_BLOCKS := 256

  /** The command that programs one block. */
  function Command(block: Image): Image
    requires |block| <= 255
  {
    [PROG_MULTI, |block| as bv8] + block + [EOC]
  }

  /** Reply `i` says that block `i` was programmed. */
  predicate Acked(replies: Image, i: nat) {
    2 * i + 1 < |replies| && replies[2 * i] == INSYNC && replies[2 * i + 1] == OK
  }

  predicate AllAcked(replies: Image, n: nat) {
    forall i :: 0 <= i < n ==> Acked(replies, i)
  }

  function Commands(blocks: seq<Image>): Image
    requires forall i :: 0 <= i < |blocks| ==> |blocks[i]| <= 255
  {
    if |blocks| == 0 then [] else Commands(blocks[..|blocks| - 1]) + Command(blocks[|blocks| - 1])
  }

  lemma CommandsStep(blocks: seq<Image>, i: nat)
    requires i < |blocks| && forall k :: 0 <= k < |blocks| ==> |blocks[k]| <= 255
    ensures Commands(blocks[..i + 1]) == Commands(blocks[..i]) + Command(blocks[i])
  {
    assert blocks[..i + 1][..i] == blocks[..i];
  }

  // What a bootloader makes of the bytes that it receives.

  /**
   * The bytes that go into flash: each command is 0x27, a length, that many bytes and 0x20.
   * `None` when what was received is not a sequence of whole commands.
   */
  function Flashed(received: Image): Option<Image>
    decreases |received|
  {
    if |received| == 0 then Some([])
    else if |received| < 3 || received[0] != 0x27 then None
    else
      var n := received[1] as int;
      if |received| < n + 3 || received[n + 2] != 0x20 then None
      else
        match Flashed(received[n + 3..])
        case None => None
        case Some(more) => Some(received[2..n + 2] + more)
  }

  /** A command in front adds its block. */
  lemma FlashedCommand(block: Image, rest: Image)
    requires |block| <= 255 && Flashed(rest).Some?
    ensures Flashed(Command(block) + rest) == Some(block + Flashed(rest).value)
  {
    CommandParts(block, rest);
    FlashedStep(Command(block) + rest, |block|);
  }

  lemma LengthByte(n: nat)
    requires n <= 255
    ensures (n as bv8) as int == n
  {
    assert n % 256 == n;
  }

  lemma CommandParts(block: Image, rest: Image)
    requires |block| <= 255
    ensures var s, n := Command(block) + rest, |block|;
            && |s| >= n + 3 && s[0] == 0x27 && s[1] as int == n && s[n + 2] == 0x20
            && s[2..n + 2] == block && s[n + 3..] == rest
  {
    LengthByte(|block|);
  }

  lemma FlashedStep(received: Image, n: nat)
    requires |received| >= n + 3 && received[0] == 0x27 && received[1] as int == n && received[n + 2] == 0x20
    requires Flashed(received[n + 3..]).Some?
    ensures Flashed(received) == Some(received[2..n + 2] + Flashed(received[n + 3..]).value)
  {
  }

  /** What all commands together program. */
  lemma {:induction false} FlashedCommands(blocks: seq<Image>, rest: Image)
    requires (forall i :: 0 <= i < |blocks| ==> |blocks[i]| <= 255) && Flashed(rest).Some?
    ensures Flashed(Commands(blocks) + rest) == Some(Flatten(blocks) + Flashed(rest).value)
  {
    if |blocks| == 0 {
      assert Commands(blocks) + rest == rest && Flatten(blocks) + Flashed(rest).value == Flashed(rest).value;
    } else {
      var init, last := blocks[..|blocks| - 1], blocks[|blocks| - 1];
      FlashedCommand(last, rest);
      FlashedCommands(init, Command(last) + rest);
      Assoc(Commands(init), Command(last), rest);
      assert blocks == init + [last];
      FlattenAppend(init, last);
      Assoc(Flatten(init), last, Flashed(rest).value);
    }
  }

  /** Programming conserves the image: what the commands for its blocks put into flash is the image. */
  lemma FlashedIsImage(image: Image)
    ensures AreBlocks(SplitLength(image, PROG_MULTI_MAX), PROG_MULTI_MAX, false)
    ensures var blocks := SplitLength(image, PROG_MULTI_MAX);
            (forall i :: 0 <= i < |blocks| ==> |blocks[i]| <= 255) && Flashed(Commands(blocks)) == Some(image)
  {
    var blocks := SplitLength(image, PROG_MULTI_MAX);
    BlockSizes(image, PROG_MULTI_MAX, false);
    ShortBlocks(blocks);
    FlashedCommands(blocks, []);
    assert Commands(blocks) + [] == Commands(blocks) && image + [] == image;
  }

  /** The bytes sent since `before` put exactly the image into flash. */
  ghost predicate Programs(image: Image, before: Image, sent: Image) {
    before <= sent && Flashed(sent[|before|..]) == Some(image)
  }

  lemma ImageIsProgrammed(image: Image, blocks: seq<Image>, before: Image)
    requires blocks == SplitLength(image, PROG_MULTI_MAX)
    ensures forall i :: 0 <= i < |blocks| ==> |blocks[i]| <= 255
    ensures Programs(image, before, before + Commands(blocks))
  {
    FlashedIsImage(image);
    assert (before + Commands(blocks))[|before|..] == Commands(blocks);
  }

  /** After an upload of a padded image to erased flash, verification accepts. */
  lemma UploadVerifies(image: Image, flashSize: nat)
    requires |image| % 4 == 0 && flashSize % 4 == 0 && |image| <= flashSize
    ensures var blocks := SplitLength(image, PROG_MULTI_MAX);
            && (forall i :: 0 <= i < |blocks| ==> |blocks[i]| <= 255)
            && var flashed := Flashed(Commands(blocks));
               && flashed.Some? && |flashed.value| <= flashSize
               && Report(ExtendTo(flashed.value, flashSize)) == Crc(0, ExtendTo(image, Covered(|image|, flashSize)))
  {
    FlashedIsImage(image);
    WholeWords(|image|, flashSize);
    CoversExactly(|image|, flashSize);
  }

  /** Reply by reply: 0x12 and then 0x10. */
  lemma AckedBytes(replies: Image, n: nat)
    ensures AllAcked(replies, n) <==>
              2 * n <= |replies| && forall j :: 0 <= j < 2 * n ==> replies[j] == if j % 2 == 0 then 0x12 else 0x10
  {
    if AllAcked(replies, n) {
      assert n > 0 ==> Acked(replies, n - 1);
      forall j | 0 <= j < 2 * n
        ensures replies[j] == if j % 2 == 0 then 0x12 else 0x10
      {
        assert Acked(replies, j / 2);
      }
    } else {
      var i :| 0 <= i < n && !Acked(replies, i);
      assert 2 * n <= |replies| ==> (2 * i) % 2 == 0 && (2 * i + 1) % 2 == 1;
    }
  }

  /** Blocks sent since the last full window of 256. */
  function InWindow(n: nat): (k: nat)
    ensures k < WINDOW_BLOCKS
  {
    n % 256
  }

  lemma NextInWindow(n: nat)
    ensures InWindow(n + 1) == if InWindow(n) == WINDOW_BLOCKS - 1 then 0 else InWindow(n) + 1
  {
  }

  lemma RepliesMissing(replies: Image, acked: nat, count: nat)
    requires count % 2 == 0 && count > 0 && |replies| < 2 * acked + count
    ensures !AllAcked(replies, acked + count / 2)
  {
    assert !Acked(replies, acked + count / 2 - 1);
  }

  // What happens on the link, in order.

  type Short = block: Image | |block| <= 255 witness []

  /** A block goes out, or reply bytes come in. */
  datatype Event = Sent(block: Short) | Read(count: nat)

  ghost function SentBytes(trace: seq<Event>): Image {
    if |trace| == 0 then [] else
    var last := trace[|trace| - 1];
    SentBytes(trace[..|trace| - 1]) + if last.Sent? then Command(last.block) else []
  }

  ghost function ReadBytes(trace: seq<Event>): nat {
    if |trace| == 0 then 0 else
    var last := trace[|trace| - 1];
    ReadBytes(trace[..|trace| - 1]) + if last.Read? then last.count else 0
  }

  /** Reply bytes that are still to come: each block is answered by two. */
  ghost function Outstanding(trace: seq<Event>): int {
    if |trace| == 0 then 0 else
    var last := trace[|trace| - 1];
    Outstanding(trace[..|trace| - 1]) + if last.Sent? then 2 else 0 - last.count
  }

  /** At no time are more reply bytes outstanding than a full window has. */
  ghost predicate InBounds(trace: seq<Event>) {
    forall k :: 0 <= k <= |trace| ==> Outstanding(trace[..k]) <= 512
  }

  lemma Happens(trace: seq<Event>, e: Event)
    ensures var more := trace + [e];
            && SentBytes(more) == SentBytes(trace) + (if e.Sent? then Command(e.block) else [])
            && ReadBytes(more) == ReadBytes(trace) + (if e.Read? then e.count else 0)
            && Outstanding(more) == Outstanding(trace) + (if e.Sent? then 2 else 0 - e.count)
  {
    assert (trace + [e])[..|trace|] == trace;
  }

  lemma StaysInBounds(trace: seq<Event>, e: Event)
    requires InBounds(trace) && Outstanding(trace + [e]) <= 2 * WINDOW_BLOCKS
    ensures InBounds(trace + [e])
  {
    var more := trace + [e];
    forall k | 0 <= k <= |more|
      ensures Outstanding(more[..k]) <= 2 * WINDOW_BLOCKS
    {
      if k <= |trace| {
        assert more[..k] == trace[..k];
      } else {
        assert more[..k] == more;
      }
    }
  }

  lemma WithinBounds(trace: seq<Event>)
    requires InBounds(trace)
    ensures Outstanding(trace) <= 2 * WINDOW_BLOCKS
  {
    assert trace[..|trace|] == trace;
  }

  /**
   * The serial link to the bootloader. `replies` are the bytes that the bootloader sends,
   * of which `taken` were read; a read comes back short when they run out.
   */
  class Link {
    const windowed: bool
    const replies: Image
    var sent: Image
    var taken: nat
    var window: nat
    ghost var acked: nat
    ghost var trace: seq<Event>

    /** The trace is what was sent and read, and it stayed in bounds. */
    ghost predicate Recorded()
      reads this
    {
      sent == SentBytes(trace) && taken == ReadBytes(trace) && InBounds(trace)
    }

    /** Every reply byte that was read belongs to a checked reply. */
    ghost predicate Valid()
      reads this
    {
      Recorded() && taken == 2 * acked <= |replies| && AllAcked(replies, acked)
    }

    constructor (windowed: bool, replies: Image)
      ensures Valid() && this.windowed == windowed && this.replies == replies
      ensures sent == [] && taken == 0 && window == 0 && trace == []
    {
      this.windowed, this.replies := windowed, replies;
      sent, taken, window, acked, trace := [], 0, 0, 0, [];
    }

    /** Reads at most `count` bytes. */
    method Receive(count: nat) returns (data: Image)
      requires Recorded() && taken <= |replies|
      modifies `taken, `trace
      ensures Recorded() && data == Upto(replies[old(taken)..], count)
      ensures taken == old(taken) + |data| && trace == old(trace) + [Read(|data|)]
      ensures Outstanding(trace) == Outstanding(old(trace)) - |data|
    {
      data := Upto(replies[taken..], count);
      taken := taken + |data|;
      Happens(trace, Read(|data|));
      WithinBounds(trace);
      StaysInBounds(trace, Read(|data|));
      trace := trace + [Read(|data|)];
    }

    /** Reads and checks `count` reply bytes; fails when one is missing or wrong. */
    method AckWindow(count: nat) returns (ok: bool)
      requires Valid() && count % 2 == 0
      modifies `taken, `acked, `trace
      ensures Recorded() && (ok <==> AllAcked(replies, old(acked) + count / 2))
      ensures ok ==> Valid() && acked == old(acked) + count / 2 && taken == old(taken) + count
      ensures ok ==> Outstanding(trace) == Outstanding(old(trace)) - count
    {
      if count == 0 {
        return true;
      }
      ghost var start := acked;
      var data := Receive(count);
      if |data| != count {
        RepliesMissing(replies, start, count);
        return false;
      }
      ok := CheckReplies(data);
    }

    /** Checks replies that were read, pair by pair. */
    method CheckReplies(data: Image) returns (ok: bool)
      requires |data| % 2 == 0 && AllAcked(replies, acked)
      requires 2 * acked + |data| <= |replies| && data == replies[2 * acked..2 * acked + |data|]
      modifies `acked
      ensures ok ==> acked == old(acked) + |data| / 2 && AllAcked(replies, acked)
      ensures !ok ==> !AllAcked(replies, old(acked) + |data| / 2)
    {
      ghost var start := acked;
      var i := 0;
      while i < |data|
        invariant 0 <= i <= |data| && i % 2 == 0
        invariant acked == start + i / 2 && AllAcked(replies, acked)
      {
        assert data[i] == replies[2 * acked] && data[i + 1] == replies[2 * acked + 1];
        if data[i] != INSYNC || data[i + 1] != OK {
          assert !Acked(replies, acked);
          return false;
        }
        acked := acked + 1;
        i := i + 2;
      }
      ok := true;
    }

    /** Sends one block. */
    method SendBlock(block: Short)
      requires Recorded() && Outstanding(trace) + 2 <= 2 * WINDOW_BLOCKS
      modifies `sent, `trace
      ensures Recorded() && sent == old(sent) + Command(block) && trace == old(trace) + [Sent(block)]
      ensures Outstanding(trace) == Outstanding(old(trace)) + 2
    {
      sent := sent + [PROG_MULTI] + [|block| as bv8] + block + [EOC];
      assert sent == old(sent) + Command(block);
      Happens(trace, Sent(block));
      StaysInBounds(trace, Sent(block));
      trace := trace + [Sent(block)];
    }

    /** Sends one block; without a window its reply is checked at once. */
    method ProgramMulti(block: Short) returns (ok: bool)
      requires Valid() && Outstanding(trace) + 2 <= 2 * WINDOW_BLOCKS
      modifies `sent, `taken, `acked, `trace
      ensures Recorded() && sent == old(sent) + Command(block)
      ensures ok ==> Valid() && acked == old(acked) + if windowed then 0 else 1
      ensures ok ==> Outstanding(trace) == Outstanding(old(trace)) + if windowed then 2 else 0
      ensures ok <==> windowed || AllAcked(replies, old(acked) + 1)
    {
      SendBlock(block);
      if windowed {
        return true;
      }
      ok := AckWindow(2);
    }

    /** The replies to `n` blocks are checked or outstanding, and the window counts the latter. */
    ghost predicate Counts(n: nat, start: nat)
      reads this
    {
      && 2 * acked + window == 2 * (start + n) && Outstanding(trace) == window
      && window == if windowed then 2 * InWindow(n) else 0
    }

    /**
     * Sends block number `n` and, when that fills the window, checks the replies to it;
     * `start` replies were checked before the first block.
     */
    method ProgramBlock(block: Short, n: nat, ghost start: nat) returns (ok: bool)
      requires Valid() && Counts(n, start)
      modifies this
      ensures Recorded() && sent == old(sent) + Command(block)
      ensures ok ==> Valid() && Counts(n + 1, start)
      ensures !ok ==> !AllAcked(replies, start + n + 1)
    {
      ok := ProgramMulti(block);
      if !ok {
        return;
      }
      NextInWindow(n);
      if windowed {
        window := window + 2;
      }
      if InWindow(n + 1) == 0 {
        ok := AckWindow(window);
        if ok {
          window := 0;
        }
      }
    }

    /**
     * Programs an image. A normal return means that every block was sent, in order, and
     * that every block's reply was read and checked once; it happens exactly when the
     * bootloader acknowledges every block. However it ends, at no time were more than 512
     * reply bytes outstanding.
     */
    method Program(image: Image) returns (ok: bool)
      requires Valid() && window == 0 && Outstanding(trace) == 0
      modifies this
      ensures var blocks := SplitLength(image, 252);
              && (forall i :: 0 <= i < |blocks| ==> |blocks[i]| <= 255)
              && (ok <==> AllAcked(replies, old(acked) + |blocks|))
              && (ok ==> Valid() && window == 0 && taken == old(taken) + 2 * |blocks|
                         && sent == old(sent) + Commands(blocks) && Outstanding(trace) == 0)
      ensures ok ==> Programs(image, old(sent), sent)
      ensures sent == SentBytes(trace) && taken == ReadBytes(trace) && InBounds(trace)
    {
      var groups := SplitLength(image, PROG_MULTI_MAX);
      ok := ProgramSplit(image, groups);
    }

    method ProgramSplit(ghost image: Image, groups: seq<Image>) returns (ok: bool)
      requires Valid() && window == 0 && Outstanding(trace) == 0 && groups == SplitLength(image, 252)
      modifies this
      ensures forall i :: 0 <= i < |groups| ==> |groups[i]| <= 255
      ensures Recorded() && (ok <==> AllAcked(replies, old(acked) + |groups|))
      ensures ok ==> Valid() && window == 0 && taken == old(taken) + 2 * |groups|
      ensures ok ==> sent == old(sent) + Commands(groups) && Outstanding(trace) == 0
      ensures ok ==> Programs(image, old(sent), sent)
    {
      ImageIsProgrammed(image, groups, sent);
      ok := ProgramGroups(groups);
    }

    /** Programs all blocks and checks the last window. */
    method ProgramGroups(groups: seq<Image>) returns (ok: bool)
      requires Valid() && window == 0 && Outstanding(trace) == 0
      requires forall i :: 0 <= i < |groups| ==> |groups[i]| <= 255
      modifies this
      ensures Recorded() && (ok <==> AllAcked(replies, old(acked) + |groups|))
      ensures ok ==> Valid() && window == 0 && taken == old(taken) + 2 * |groups|
      ensures ok ==> sent == old(sent) + Commands(groups) && Outstanding(trace) == 0
    {
      ok := ProgramBlocks(groups);
      if ok {
        ok := AckWindow(window);
        window := if ok then 0 else window;
      }
    }

    /** The loop over the blocks; the last window is left to be checked. */
    method ProgramBlocks(groups: seq<Image>) returns (ok: bool)
      requires Valid() && window == 0 && Outstanding(trace) == 0
      requires forall i :: 0 <= i < |groups| ==> |groups[i]| <= 255
      modifies this
      ensures Recorded()
      ensures ok ==> Valid() && Counts(|groups|, old(acked)) && sent == old(sent) + Commands(groups)
      ensures !ok ==> !AllAcked(replies, old(acked) + |groups|)
    {
      ghost var start, before := acked, sent;
      assert before + [] == before;
      var n := 0;
      while n < |groups|
        invariant 0 <= n <= |groups| && Valid() && Counts(n, start)
        invariant sent == before + Commands(groups[..n])
      {
        CommandsStep(groups, n);
        Assoc(before, Commands(groups[..n]), Command(groups[n]));
        ok := ProgramBlock(groups[n], n, start);
        if !ok {
          return;
        }
        n := n + 1;
      }
      assert groups[..n] == groups;
      ok := true;
    }
  }

  lemma ShortBlocks(blocks: seq<Image>)
    requires AreBlocks(blocks, PROG_MULTI_MAX, false)
    ensures forall i :: 0 <= i < |blocks| ==> |blocks[i]| <= 255
  {
    forall i | 0 <= i < |blocks|
      ensures |blocks[i]| <= 255
    {
      assert IsBlock(blocks[i], PROG_MULTI_MAX, false);
    }
  }
}
