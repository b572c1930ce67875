/**
 * The option parser (platforms/common/px4_getopt.c): it moves the options in front of the
 * other arguments, in place, and then returns them one by one.
 */
module Getopt {
  import opened Bytes

  /** A C string's character; reading at its end gives the terminating NUL. */
  function CharAt(s: string, i: nat): char {
    if i < |s| then s[i] else '\0'
  }

  predicate IsOption(s: string) {
    CharAt(s, 0) == '-'
  }

  /** What `isvalidopt` answers: the option character or '?', and whether it takes an argument. */
  datatype Match = Match(c: char, takesArg: bool) {
    predicate Known() {
      c != '?'
    }
  }

  function FirstIndex(p: char, options: string): (i: nat)
    ensures i <= |options| && (i < |options| ==> options[i] == p)
  {
    if |options| == 0 || options[0] == p then 0 else 1 + FirstIndex(p, options[1..])
  }

  function Lookup(p: char, options: string): Match {
    var i := FirstIndex(p, options);
    if i == |options| then Match('?', false) else Match(p, CharAt(options, i + 1) == ':')
  }

  /** `p` stands at index `i` of the option string, and nowhere before. */
  predicate FirstAt(p: char, options: string, i: nat) {
    i < |options| && options[i] == p && forall k :: 0 <= k < i ==> options[k] != p
  }

  /** A colon stands right behind index `i`. */
  predicate ColonAfter(options: string, i: nat) {
    i + 1 < |options| && options[i + 1] == ':'
  }

  lemma {:induction false} FirstIndexIs(p: char, options: string, i: nat)
    requires FirstAt(p, options, i)
    ensures FirstIndex(p, options) == i
  {
    if i == 0 {
    } else {
      FirstIndexIs(p, options[1..], i - 1);
    }
  }

  /** The first place of an option decides, and a colon right behind it asks for an argument. */
  lemma LookupFirst(p: char, options: string, i: nat)
    requires FirstAt(p, options, i)
    ensures Lookup(p, options) == Match(p, ColonAfter(options, i))
  {
    FirstIndexIs(p, options, i);
  }

  lemma {:induction false} LookupNone(p: char, options: string)
    requires p !in options
    ensures FirstIndex(p, options) == |options| && Lookup(p, options) == Match('?', false)
  {
    if |options| == 0 {
    } else {
      LookupNone(p, options[1..]);
    }
  }

  method IsValidOpt(p: char, options: string) returns (c: char, takesArg: bool)
    ensures Match(c, takesArg) == Lookup(p, options)
    ensures p !in options ==> c == '?' && !takesArg
    ensures forall i: nat :: FirstAt(p, options, i) ==> c == p && (takesArg <==> ColonAfter(options, i))
  {
    if p !in options {
      LookupNone(p, options);
    }
    forall k: nat | FirstAt(p, options, k)
      ensures Lookup(p, options) == Match(p, ColonAfter(options, k))
    {
      LookupFirst(p, options, k);
    }
    var i := 0;
    while i < |options| && p != options[i]
      invariant 0 <= i <= |options|
      invariant FirstIndex(p, options) == i + FirstIndex(p, options[i..])
    {
      assert options[i..][1..] == options[i + 1..];
      i := i + 1;
    }
    if i == |options| {
      return '?', false;
    }
    takesArg := CharAt(options, i + 1) == ':';
    c := options[i];
  }

  function MatchOf(arg: string, options: string): Match {
    Lookup(CharAt(arg, 1), options)
  }

  /** A word is an option when it starts with a dash; the character behind the dash names it. */
  lemma OptionByCharacter(arg: string, options: string, i: nat)
    requires |arg| >= 2 && FirstAt(arg[1], options, i)
    ensures IsOption(arg) <==> arg[0] == '-'
    ensures MatchOf(arg, options) == Match(arg[1], ColonAfter(options, i))
  {
    LookupFirst(arg[1], options, i);
  }

  lemma UnknownByCharacter(arg: string, options: string)
    requires |arg| >= 2 && arg[1] !in options
    ensures !MatchOf(arg, options).Known()
  {
    LookupNone(arg[1], options);
  }

  // Reading the arguments from left to right.

  /** An option with its argument, if it takes one. */
  datatype Use = Use(c: char, arg: Option<string>)

  /**
   * The options in order, the words they take up, and the other words; or a failure, when
   * an option is unknown or lacks its argument.
   */
  datatype Scanned = Failed | Scanned(uses: seq<Use>, front: seq<string>, back: seq<string>) {
    function Before(use: seq<Use>, front': seq<string>, back': seq<string>): Scanned {
      if Failed? then Failed else Scanned(use + uses, front' + front, back' + back)
    }
  }

  function Scan(args: seq<string>, options: string): Scanned {
    if |args| == 0 then Scanned([], [], [])
    else if !IsOption(args[0]) then Scan(args[1..], options).Before([], [], [args[0]])
    else
      var m := MatchOf(args[0], options);
      if !m.Known() then Failed
      else if !m.takesArg then Scan(args[1..], options).Before([Use(m.c, None)], [args[0]], [])
      else if |args| == 1 then Failed
      else Scan(args[2..], options).Before([Use(m.c, Some(args[1]))], [args[0], args[1]], [])
  }

  /** The arguments as `reorder` leaves them. */
  function Reordered(args: seq<string>, options: string): seq<string> {
    var r := Scan(args, options);
    if r.Failed? then args else r.front + r.back
  }

  /** Reordering loses and invents no argument. */
  lemma {:induction false} ReorderedIsPermutation(args: seq<string>, options: string)
    ensures multiset(Reordered(args, options)) == multiset(args)
    ensures |Reordered(args, options)| == |args|
  {
    if Scan(args, options).Scanned? {
      ScanKeepsAll(args, options);
    }
  }

  predicate Shared(front: seq<string>, back: seq<string>, words: seq<string>) {
    multiset(front) + multiset(back) == multiset(words) && |front| + |back| == |words|
  }

  lemma SharedGrows(f: seq<string>, b: seq<string>, front: seq<string>, back: seq<string>, words: seq<string>)
    requires Shared(front, back, words)
    ensures Shared(f + front, b + back, f + b + words)
    ensures f + [] == f && [] + b == b
  {
  }

  lemma {:induction false} ScanKeepsAll(args: seq<string>, options: string)
    requires Scan(args, options).Scanned?
    ensures Shared(Scan(args, options).front, Scan(args, options).back, args)
    decreases |args|
  {
    if |args| == 0 {
    } else {
      var f, b := KeptFirst(args, options);
      var rest := args[|f + b|..];
      ScanKeepsAll(rest, options);
      SharedGrows(f, b, Scan(rest, options).front, Scan(rest, options).back, rest);
    }
  }

  /** What the first step of the scan puts in front and behind. */
  lemma KeptFirst(args: seq<string>, options: string) returns (f: seq<string>, b: seq<string>)
    requires |args| > 0 && Scan(args, options).Scanned?
    ensures 0 < |f + b| <= |args| && args == f + b + args[|f + b|..]
    ensures var r, rest := Scan(args, options), Scan(args[|f + b|..], options);
            rest.Scanned? && r.front == f + rest.front && r.back == b + rest.back
  {
    if !IsOption(args[0]) {
      f, b := [], [args[0]];
      assert f + b == b && args == b + args[1..];
    } else if !MatchOf(args[0], options).takesArg {
      f, b := [args[0]], [];
      assert f + b == f && args == f + args[1..];
    } else {
      f, b := [args[0], args[1]], [];
      assert f + b == f && args == f + args[2..];
    }
  }

  /** No option is left among the other words. */
  lemma {:induction false} BackHasNoOptions(args: seq<string>, options: string)
    requires Scan(args, options).Scanned?
    ensures forall i :: 0 <= i < |Scan(args, options).back| ==> !IsOption(Scan(args, options).back[i])
    decreases |args|
  {
    if |args| == 0 {
    } else {
      if !IsOption(args[0]) || !MatchOf(args[0], options).takesArg {
        BackHasNoOptions(args[1..], options);
      } else {
        BackHasNoOptions(args[2..], options);
      }
    }
  }

  lemma {:induction false} ScanBack(back: seq<string>, options: string)
    requires forall i :: 0 <= i < |back| ==> !IsOption(back[i])
    ensures Scan(back, options) == Scanned([], [], back)
  {
    if |back| == 0 {
    } else {
      ScanBack(back[1..], options);
      assert back == [back[0]] + back[1..];
    }
  }

  lemma ScanFlag(a: string, more: seq<string>, options: string)
    requires IsOption(a) && MatchOf(a, options).Known() && !MatchOf(a, options).takesArg
    ensures Scan([a] + more, options) == Scan(more, options).Before([Use(MatchOf(a, options).c, None)], [a], [])
  {
    assert ([a] + more)[1..] == more;
  }

  lemma ScanPair(a: string, b: string, more: seq<string>, options: string)
    requires IsOption(a) && MatchOf(a, options).Known() && MatchOf(a, options).takesArg
    ensures Scan([a, b] + more, options)
         == Scan(more, options).Before([Use(MatchOf(a, options).c, Some(b))], [a, b], [])
  {
    assert ([a, b] + more)[2..] == more;
  }

  /** The words in front scan to the same options, whatever words without options follow. */
  lemma {:induction false} ScanFront(args: seq<string>, options: string, back: seq<string>)
    requires Scan(args, options).Scanned?
    requires forall i :: 0 <= i < |back| ==> !IsOption(back[i])
    ensures var r := Scan(args, options);
            Scan(r.front + back, options) == Scanned(r.uses, r.front, back)
    decreases |args|
  {
    var r := Scan(args, options);
    if |args| == 0 {
      ScanBack(back, options);
      assert [] + back == back;
    } else if !IsOption(args[0]) {
      ScanFront(args[1..], options, back);
      assert r.front == Scan(args[1..], options).front && r.uses == Scan(args[1..], options).uses;
    } else if !MatchOf(args[0], options).takesArg {
      ScanFront(args[1..], options, back);
      var front := Scan(args[1..], options).front;
      ScanFlag(args[0], front + back, options);
      Assoc([args[0]], front, back);
    } else {
      ScanFront(args[2..], options, back);
      var front := Scan(args[2..], options).front;
      ScanPair(args[0], args[1], front + back, options);
      Assoc([args[0], args[1]], front, back);
    }
  }

  /** A second reordering changes nothing, and the same options are found in the same order. */
  lemma ReorderTwice(args: seq<string>, options: string)
    ensures Reordered(Reordered(args, options), options) == Reordered(args, options)
    ensures var r := Scan(args, options);
            Scan(Reordered(args, options), options) == r
  {
    var r := Scan(args, options);
    if r.Scanned? {
      BackHasNoOptions(args, options);
      ScanFront(args, options, r.back);
    }
  }

  // The vector of arguments, ended by a null pointer.

  type Slots = seq<Option<string>>

  type Argv = array<Option<string>>

  ghost predicate IsArgv(argc: nat, argv: Slots) {
    && 1 <= argc < |argv| && argv[argc] == None
    && forall i :: 0 <= i < argc ==> argv[i].Some?
  }

  /** The arguments after the program's name. */
  ghost function Args(argc: nat, argv: Slots): (args: seq<string>)
    requires IsArgv(argc, argv)
    ensures |args| == argc - 1
  {
    seq(argc - 1, i requires 0 <= i < argc - 1 => argv[i + 1].value)
  }

  /** The vector with other arguments; the program's name and what follows the arguments stay. */
  ghost function WithArgs(argc: nat, argv: Slots, args: seq<string>): (r: Slots)
    requires IsArgv(argc, argv) && |args| == argc - 1
    ensures |r| == |argv| && IsArgv(argc, r) && Args(argc, r) == args
    ensures forall i :: 0 <= i < |argv| && (i == 0 || i >= argc) ==> r[i] == argv[i]
  {
    seq(|argv|, i requires 0 <= i < |argv| => if 1 <= i < argc then Some(args[i - 1]) else argv[i])
  }

  /** What is still to be scanned from word `k` on completes what was scanned before it. */
  ghost predicate Halfway(args: seq<string>, options: string, k: nat, front: seq<string>, back: seq<string>)
    requires k <= |args|
  {
    var all, rest := Scan(args, options), Scan(args[k..], options);
    && (all.Failed? <==> rest.Failed?)
    && (all.Scanned? ==> all.front == front + rest.front && all.back == back + rest.back)
  }

  lemma HalfwayStep(args: seq<string>, options: string, k: nat, front: seq<string>, back: seq<string>)
    requires k < |args| && Halfway(args, options, k, front, back)
    ensures var a := args[k];
            if !IsOption(a) then Halfway(args, options, k + 1, front, back + [a])
            else
              var m := MatchOf(a, options);
              if !m.Known() || (m.takesArg && k + 1 >= |args|) then Scan(args, options).Failed?
              else if m.takesArg then Halfway(args, options, k + 2, front + [a, args[k + 1]], back)
              else Halfway(args, options, k + 1, front + [a], back)
  {
    var a := args[k];
    assert args[k..] == [a] + args[k + 1..];
    if !IsOption(a) {
      ScanWord(a, args[k + 1..], options);
      Moved(front, back, [], [a], Scan(args[k + 1..], options));
    } else if MatchOf(a, options).Known() && !MatchOf(a, options).takesArg {
      ScanFlag(a, args[k + 1..], options);
      Moved(front, back, [a], [], Scan(args[k + 1..], options));
    } else if MatchOf(a, options).Known() && k + 1 < |args| {
      assert args[k..] == [a, args[k + 1]] + args[k + 2..];
      ScanPair(a, args[k + 1], args[k + 2..], options);
      Moved(front, back, [a, args[k + 1]], [], Scan(args[k + 2..], options));
    }
  }

  lemma Moved(front: seq<string>, back: seq<string>, f: seq<string>, b: seq<string>, rest: Scanned)
    ensures rest.Scanned? ==>
              front + (f + rest.front) == front + f + rest.front && back + (b + rest.back) == back + b + rest.back
    ensures front + [] == front && back + [] == back
  {
  }

  lemma HalfwayOther(args: seq<string>, options: string, k: nat, front: seq<string>, back: seq<string>)
    requires k < |args| && Halfway(args, options, k, front, back) && !IsOption(args[k])
    ensures Halfway(args, options, k + 1, front, back + [args[k]])
  {
    HalfwayStep(args, options, k, front, back);
  }

  lemma HalfwayFlag(args: seq<string>, options: string, k: nat, front: seq<string>, back: seq<string>)
    requires k < |args| && Halfway(args, options, k, front, back) && IsOption(args[k])
    requires MatchOf(args[k], options).Known() && !MatchOf(args[k], options).takesArg
    ensures Halfway(args, options, k + 1, front + [args[k]], back)
  {
    HalfwayStep(args, options, k, front, back);
  }

  lemma HalfwayPair(args: seq<string>, options: string, k: nat, front: seq<string>, back: seq<string>)
    requires k + 1 < |args| && Halfway(args, options, k, front, back) && IsOption(args[k])
    requires MatchOf(args[k], options).Known() && MatchOf(args[k], options).takesArg
    ensures Halfway(args, options, k + 2, front + [args[k]] + [args[k + 1]], back)
  {
    HalfwayStep(args, options, k, front, back);
    assert front + [args[k], args[k + 1]] == front + [args[k]] + [args[k + 1]];
  }

  lemma HalfwayBad(args: seq<string>, options: string, k: nat, front: seq<string>, back: seq<string>)
    requires k < |args| && Halfway(args, options, k, front, back) && IsOption(args[k])
    requires !MatchOf(args[k], options).Known() || (MatchOf(args[k], options).takesArg && k + 1 >= |args|)
    ensures Scan(args, options).Failed?
  {
    HalfwayStep(args, options, k, front, back);
  }

  // The same, position by position.

  /** The word at `i` is the argument of the option before it. */
  predicate IsArgument(args: seq<string>, options: string, i: nat)
    requires i <= |args|
    decreases i, 0
  {
    i > 0 && IsStart(args, options, i - 1) && MatchOf(args[i - 1], options).takesArg
  }

  /** The word at `i` is an option: it has a dash and is not the argument of another option. */
  predicate IsStart(args: seq<string>, options: string, i: nat)
    requires i < |args|
    decreases i, 1
  {
    IsOption(args[i]) && !IsArgument(args, options, i)
  }

  /** The option at `i` is known and has the argument it takes. */
  predicate GoodStart(args: seq<string>, options: string, i: nat)
    requires i < |args|
  {
    MatchOf(args[i], options).Known() && (MatchOf(args[i], options).takesArg ==> i + 1 < |args|)
  }

  /** Of the first `k` words, in their order, those that belong in front, or those that do not. */
  function Picked(args: seq<string>, options: string, k: nat, front: bool): seq<string>
    requires k <= |args|
  {
    if k == 0 then []
    else
      var leads := IsStart(args, options, k - 1) || IsArgument(args, options, k - 1);
      Picked(args, options, k - 1, front) + if leads == front then [args[k - 1]] else []
  }

  /** The options that start among the first `k` words, in their order, with the words after them as arguments. */
  function UsesAt(args: seq<string>, options: string, k: nat): seq<Use>
    requires k <= |args|
  {
    if k == 0 then []
    else
      UsesAt(args, options, k - 1) + if IsStart(args, options, k - 1) then [UseAt(args, options, k - 1)] else []
  }

  function UseAt(args: seq<string>, options: string, i: nat): Use
    requires i < |args|
  {
    var m := MatchOf(args[i], options);
    Use(m.c, if m.takesArg && i + 1 < |args| then Some(args[i + 1]) else None)
  }

  /** What is still to be scanned from word `k` on completes the options before it. */
  ghost predicate UsesSoFar(args: seq<string>, options: string, k: nat) {
    && k <= |args| && !IsArgument(args, options, k)
    && var all, rest := Scan(args, options), Scan(args[k..], options);
       (all.Scanned? ==> rest.Scanned?) && (all.Scanned? ==> all.uses == UsesAt(args, options, k) + rest.uses)
  }

  /** The options found are those that start at some position, in order. */
  lemma UsesByPosition(args: seq<string>, options: string)
    requires Scan(args, options).Scanned?
    ensures Scan(args, options).uses == UsesAt(args, options, |args|)
  {
    assert args[0..] == args;
    UsesFrom(args, options, 0);
  }

  lemma {:induction false} UsesFrom(args: seq<string>, options: string, k: nat)
    requires Scan(args, options).Scanned? && UsesSoFar(args, options, k)
    ensures Scan(args, options).uses == UsesAt(args, options, |args|)
    decreases |args| - k
  {
    if k == |args| {
      assert args[k..] == [];
    } else {
      var n := UsesStep(args, options, k);
      UsesFrom(args, options, n);
    }
  }

  lemma UsesStep(args: seq<string>, options: string, k: nat) returns (n: nat)
    requires k < |args| && Scan(args, options).Scanned? && UsesSoFar(args, options, k)
    ensures k < n && UsesSoFar(args, options, n)
  {
    var a, uses := args[k], UsesAt(args, options, k);
    assert args[k..] == [a] + args[k + 1..];
    if !IsOption(a) {
      n := k + 1;
      ScanWord(a, args[n..], options);
      assert uses + ([] + Scan(args[n..], options).uses) == uses + Scan(args[n..], options).uses;
    } else if !MatchOf(a, options).takesArg {
      n := k + 1;
      ScanKnown(args, options, k);
      ScanFlag(a, args[n..], options);
      Assoc(uses, [UseAt(args, options, k)], Scan(args[n..], options).uses);
    } else {
      ScanKnown(args, options, k);
      n := k + 2;
      assert args[k..] == [a, args[k + 1]] + args[n..];
      ScanPair(a, args[k + 1], args[n..], options);
      UsesPair(args, options, k);
      Assoc(uses, [UseAt(args, options, k)], Scan(args[n..], options).uses);
    }
  }

  /** Where the scan succeeds, an option is known and has its argument. */
  lemma ScanKnown(args: seq<string>, options: string, k: nat)
    requires k < |args| && Scan(args[k..], options).Scanned? && IsOption(args[k])
    ensures MatchOf(args[k], options).Known() && (MatchOf(args[k], options).takesArg ==> k + 1 < |args|)
  {
  }

  lemma UsesPair(args: seq<string>, options: string, k: nat)
    requires k + 1 < |args| && IsStart(args, options, k) && MatchOf(args[k], options).takesArg
    ensures UsesAt(args, options, k + 2) == UsesAt(args, options, k) + [UseAt(args, options, k)]
    ensures !IsArgument(args, options, k + 2)
  {
    assert IsArgument(args, options, k + 1);
    assert UsesAt(args, options, k + 1) == UsesAt(args, options, k) + [UseAt(args, options, k)];
  }

  /**
   * Stable order: reordering succeeds exactly when every option is known and has its argument;
   * then the options and their arguments come first, and both they and the others keep their order.
   */
  lemma StableOrder(args: seq<string>, options: string)
    ensures Scan(args, options).Scanned?
       <==> forall i :: 0 <= i < |args| && IsStart(args, options, i) ==> GoodStart(args, options, i)
    ensures Scan(args, options).Scanned? ==>
      && Reordered(args, options) == Picked(args, options, |args|, true) + Picked(args, options, |args|, false)
      && Scan(args, options).front == Picked(args, options, |args|, true)
  {
    assert args[0..] == args;
    StableFrom(args, options, 0);
  }

  /** The first `k` words have been sorted, and the next is not an argument of theirs. */
  ghost predicate Stable(args: seq<string>, options: string, k: nat) {
    && k <= |args| && !IsArgument(args, options, k)
    && Halfway(args, options, k, Picked(args, options, k, true), Picked(args, options, k, false))
    && forall i :: 0 <= i < k && IsStart(args, options, i) ==> GoodStart(args, options, i)
  }

  lemma StableStep(args: seq<string>, options: string, k: nat) returns (n: nat)
    requires k < |args| && Stable(args, options, k) && (IsStart(args, options, k) ==> GoodStart(args, options, k))
    ensures k < n && Stable(args, options, n)
  {
    var front, back := Picked(args, options, k, true), Picked(args, options, k, false);
    HalfwayStep(args, options, k, front, back);
    n := k + 1;
    if !IsOption(args[k]) {
      assert Picked(args, options, n, true) == front && Picked(args, options, n, false) == back + [args[k]];
    } else if MatchOf(args[k], options).takesArg {
      n := k + 2;
      PickPair(args, options, k);
    } else {
      assert Picked(args, options, n, true) == front + [args[k]] && Picked(args, options, n, false) == back;
    }
  }

  lemma StableFails(args: seq<string>, options: string, k: nat)
    requires k < |args| && Stable(args, options, k) && IsStart(args, options, k) && !GoodStart(args, options, k)
    ensures Scan(args, options).Failed?
  {
    HalfwayStep(args, options, k, Picked(args, options, k, true), Picked(args, options, k, false));
  }

  lemma StableDone(args: seq<string>, options: string)
    requires Stable(args, options, |args|)
    ensures Scan(args, options).Scanned?
    ensures Scan(args, options).front == Picked(args, options, |args|, true)
    ensures Scan(args, options).back == Picked(args, options, |args|, false)
  {
    assert args[|args|..] == [];
  }

  lemma {:induction false} StableFrom(args: seq<string>, options: string, k: nat)
    requires Stable(args, options, k)
    ensures Scan(args, options).Scanned?
       <==> forall i :: 0 <= i < |args| && IsStart(args, options, i) ==> GoodStart(args, options, i)
    ensures Scan(args, options).Scanned? ==>
      && Reordered(args, options) == Picked(args, options, |args|, true) + Picked(args, options, |args|, false)
      && Scan(args, options).front == Picked(args, options, |args|, true)
    decreases |args| - k
  {
    if k == |args| {
      StableDone(args, options);
    } else if IsStart(args, options, k) && !GoodStart(args, options, k) {
      StableFails(args, options, k);
    } else {
      var n := StableStep(args, options, k);
      StableFrom(args, options, n);
    }
  }

  lemma PickPair(args: seq<string>, options: string, k: nat)
    requires k + 1 < |args| && IsStart(args, options, k) && MatchOf(args[k], options).takesArg
    ensures !IsStart(args, options, k + 1) && !IsArgument(args, options, k + 2)
    ensures Picked(args, options, k + 2, true) == Picked(args, options, k, true) + [args[k], args[k + 1]]
    ensures Picked(args, options, k + 2, false) == Picked(args, options, k, false)
  {
    var before := Picked(args, options, k, true);
    assert Picked(args, options, k + 1, true) == before + [args[k]];
    assert IsArgument(args, options, k + 1);
    assert before + [args[k]] + [args[k + 1]] == before + [args[k], args[k + 1]];
  }

  /** Past another word, of which there are never more than the scan has found. */
  lemma HalfwayWord(args: seq<string>, options: string, k: nat, front: seq<string>, back: seq<string>, r: Scanned)
    requires k < |args| && Halfway(args, options, k, front, back) && !IsOption(args[k])
    requires r == Scan(args, options) && r.Scanned?
    ensures Halfway(args, options, k + 1, front, back + [args[k]]) && |back| < |r.back|
    ensures r.front + back + [args[k]] == r.front + (back + [args[k]])
  {
    HalfwayStep(args, options, k, front, back);
  }

  /** Past an option of arguments that scan: the option is known and has its argument. */
  lemma HalfwayOption(args: seq<string>, options: string, k: nat, front: seq<string>, back: seq<string>)
    returns (next: nat, front': seq<string>)
    requires k < |args| && Halfway(args, options, k, front, back) && IsOption(args[k])
    requires Scan(args, options).Scanned?
    ensures MatchOf(args[k], options).Known()
    ensures next == (if MatchOf(args[k], options).takesArg then k + 2 else k + 1) <= |args|
    ensures Halfway(args, options, next, front', back)
  {
    HalfwayStep(args, options, k, front, back);
    if MatchOf(args[k], options).takesArg {
      next, front' := k + 2, front + [args[k], args[k + 1]];
    } else {
      next, front' := k + 1, front + [args[k]];
    }
  }

  lemma ScanWord(a: string, more: seq<string>, options: string)
    requires !IsOption(a)
    ensures Scan([a] + more, options) == Scan(more, options).Before([], [], [a])
  {
    assert ([a] + more)[1..] == more;
  }

  /** Stores one more word in the temporary vector. */
  method Put(tmp: Argv, n: nat, slot: Option<string>, ghost words: seq<string>)
    requires 1 <= n < tmp.Length && Copied(tmp[1..n], words) && slot.Some?
    modifies tmp
    ensures Copied(tmp[1..n + 1], words + [slot.value])
  {
    tmp[n] := slot;
    assert tmp[1..n + 1] == old(tmp[1..n]) + [slot];
  }

  /** The first loop: copies the options with their arguments; fails on the first bad one. */
  method CollectOptions(argc: nat, argv: Argv, options: string, tmp: Argv) returns (ok: bool, tmpidx: nat)
    requires IsArgv(argc, argv[..]) && tmp.Length == argc && tmp != argv
    modifies tmp
    ensures ok <==> Scan(Args(argc, argv[..]), options).Scanned?
    ensures ok ==> 1 <= tmpidx <= argc
                   && Copied(tmp[1..tmpidx], Scan(Args(argc, argv[..]), options).front)
  {
    ghost var args := Args(argc, argv[..]);
    ghost var front, back: seq<string> := [], [];
    var idx := 1;
    tmpidx := 1;
    assert args[0..] == args;
    ghost var k := 0;
    while idx < argc && argv[idx] != None
      invariant 1 <= tmpidx <= idx <= argc
      invariant k == idx - 1 && Halfway(args, options, k, front, back)
      invariant Copied(tmp[1..tmpidx], front)
    {
      var arg := argv[idx].value;
      assert arg == args[k];
      if CharAt(arg, 0) == '-' {
        var c, takesArg := IsValidOpt(CharAt(arg, 1), options);
        if c == '?' {
          HalfwayBad(args, options, k, front, back);
          return false, tmpidx;
        }
        Put(tmp, tmpidx, argv[idx], front);
        tmpidx := tmpidx + 1;
        if takesArg {
          if idx + 1 >= argc {
            HalfwayBad(args, options, k, front, back);
            return false, tmpidx;
          }
          assert argv[idx + 1] == Some(args[idx]);
          Put(tmp, tmpidx, argv[idx + 1], front + [arg]);
          tmpidx := tmpidx + 1;
          HalfwayPair(args, options, k, front, back);
          k, front := k + 2, front + [arg] + [args[idx]];
          idx := idx + 1;
        } else {
          HalfwayFlag(args, options, k, front, back);
          k, front := k + 1, front + [arg];
        }
      } else {
        HalfwayOther(args, options, k, front, back);
        k, back := k + 1, back + [arg];
      }
      idx := idx + 1;
    }
    ok := true;
    assert args[|args|..] == [];
  }

  ghost predicate Copied(slots: Slots, words: seq<string>) {
    |slots| == |words| && forall i :: 0 <= i < |slots| ==> slots[i] == Some(words[i])
  }

  /** The second loop: copies the other words behind them, so that every slot is filled. */
  method CollectOthers(argc: nat, argv: Argv, options: string, tmp: Argv, start: nat) returns (tmpidx: nat)
    requires IsArgv(argc, argv[..]) && tmp.Length == argc && tmp != argv
    requires Scan(Args(argc, argv[..]), options).Scanned? && 1 <= start <= argc
    requires Copied(tmp[1..start], Scan(Args(argc, argv[..]), options).front)
    modifies tmp
    ensures tmpidx == argc && Copied(tmp[1..argc], Reordered(Args(argc, argv[..]), options))
  {
    ghost var args := Args(argc, argv[..]);
    ghost var r := Scan(args, options);
    ghost var front, back: seq<string> := [], [];
    var idx := 1;
    ghost var k := 0;
    tmpidx := start;
    assert args[0..] == args && r.front + [] == r.front;
    ScanKeepsAll(args, options);
    while idx < argc && argv[idx] != None
      invariant 1 <= idx <= argc && start <= tmpidx == start + |back| <= argc
      invariant k == idx - 1 && Halfway(args, options, k, front, back)
      invariant Copied(tmp[1..tmpidx], r.front + back)
    {
      var arg := argv[idx].value;
      assert arg == args[idx - 1];
      if CharAt(arg, 0) == '-' {
        k, front := HalfwayOption(args, options, k, front, back);
        var c, takesArg := IsValidOpt(CharAt(arg, 1), options);
        if c == '?' {
          assert false;
        }
        if takesArg {
          idx := idx + 1;
        }
      } else {
        HalfwayWord(args, options, k, front, back, r);
        Put(tmp, tmpidx, argv[idx], r.front + back);
        tmpidx := tmpidx + 1;
        k, back := k + 1, back + [arg];
      }
      idx := idx + 1;
    }
  }

  /** Reorders the vector in place; on failure it is left as it was. */
  method Reorder(argc: nat, argv: Argv, options: string) returns (ok: bool)
    requires IsArgv(argc, argv[..])
    modifies argv
    ensures IsArgv(argc, argv[..])
    ensures ok <==> Scan(Args(argc, old(argv[..])), options).Scanned?
    ensures ok ==> |Reordered(Args(argc, old(argv[..])), options)| == argc - 1
    ensures argv[..] == if ok then WithArgs(argc, old(argv[..]), Reordered(Args(argc, old(argv[..])), options))
                        else old(argv[..])
  {
    ghost var before := argv[..];
    ghost var args := Args(argc, before);
    var tmp := new Option<string>[argc];
    var tmpidx;
    ok, tmpidx := CollectOptions(argc, argv, options, tmp);
    if !ok {
      return;
    }
    tmpidx := CollectOthers(argc, argv, options, tmp, tmpidx);
    ReorderedIsPermutation(args, options);
    CopyBack(argc, argv, tmp, Reordered(args, options));
  }

  /** The last loop: writes the temporary vector over the arguments. */
  method CopyBack(argc: nat, argv: Argv, tmp: Argv, ghost words: seq<string>)
    requires IsArgv(argc, argv[..]) && tmp.Length == argc && tmp != argv
    requires |words| == argc - 1 && Copied(tmp[1..argc], words)
    modifies argv
    ensures argv[..] == WithArgs(argc, old(argv[..]), words)
  {
    ghost var before := argv[..];
    var idx := 1;
    while idx < argc
      invariant 1 <= idx <= argc
      invariant forall i :: 0 <= i < argv.Length ==> argv[i] == if 1 <= i < idx then Some(words[i - 1]) else before[i]
    {
      assert tmp[idx] == tmp[1..argc][idx - 1];
      argv[idx] := tmp[idx];
      idx := idx + 1;
    }
  }

  // One call, and the loop that callers write around it.

  /** What a call returns: an option character (or '?'), or nothing any more. */
  datatype Outcome = Outcome(c: Option<char>, optind: nat, optarg: Option<string>)

  /** A call after the vector was reordered, or could not be. */
  ghost function Next(argc: nat, argv: Slots, options: string, optind: nat, optarg: Option<string>): (r: Outcome)
    requires IsArgv(argc, argv) && 1 <= optind <= argc
    ensures optind <= r.optind <= argc && (r.c.Some? ==> optind < r.optind)
  {
    var p := argv[optind];
    var optarg1 := if optarg == None then p else optarg;
    if p.None? || !IsOption(p.value) then Outcome(None, optind, optarg1)
    else
      var m := MatchOf(p.value, options);
      if !m.Known() then Outcome(Some('?'), optind + 1, optarg1)
      else if !m.takesArg then Outcome(Some(m.c), optind + 1, optarg1)
      else
        var arg := argv[optind + 1];
        if arg == None then Outcome(None, optind + 1, None) else Outcome(Some(m.c), optind + 2, arg)
  }

  /** The vector that a call leaves. */
  ghost function Settled(argc: nat, argv: Slots, options: string, optind: nat): (r: Slots)
    requires IsArgv(argc, argv)
    ensures IsArgv(argc, r)
  {
    ReorderedIsPermutation(Args(argc, argv), options);
    if optind == 1 then WithArgs(argc, argv, Reordered(Args(argc, argv), options)) else argv
  }

  ghost function Call(argc: nat, argv: Slots, options: string, optind: nat, optarg: Option<string>): (r: Outcome)
    requires IsArgv(argc, argv) && 1 <= optind <= argc
    ensures optind <= r.optind <= argc && (r.c.Some? ==> optind < r.optind)
  {
    if optind == 1 && Scan(Args(argc, argv), options).Failed? then
      assert argc > 1;
      Outcome(Some('?'), 2, optarg)
    else Next(argc, Settled(argc, argv, options, optind), options, optind, optarg)
  }

  lemma SameArgs(argc: nat, argv: Slots)
    requires IsArgv(argc, argv)
    ensures WithArgs(argc, argv, Args(argc, argv)) == argv
  {
  }

  method GetOpt(argc: nat, argv: Argv, options: string, optind: nat, optarg: Option<string>)
    returns (c: Option<char>, optind': nat, optarg': Option<string>)
    requires IsArgv(argc, argv[..]) && 1 <= optind <= argc
    modifies argv
    ensures IsArgv(argc, argv[..]) && argv[..] == Settled(argc, old(argv[..]), options, optind)
    ensures Outcome(c, optind', optarg') == Call(argc, old(argv[..]), options, optind, optarg)
  {
    optind', optarg' := optind, optarg;
    if optind == 1 {
      SameArgs(argc, argv[..]);
      var ok := Reorder(argc, argv, options);
      if !ok {
        optind' := optind' + 1;
        return Some('?'), optind', optarg';
      }
    }
    var p := argv[optind'];
    if optarg' == None {
      optarg' := argv[optind'];
    }
    if p.Some? && CharAt(p.value, 0) == '-' {
      var ch, takesArg := IsValidOpt(CharAt(p.value, 1), options);
      if ch == '?' {
        optind' := optind' + 1;
        return Some(ch), optind', optarg';
      }
      optind' := optind' + 1;
      if takesArg {
        optarg' := argv[optind'];
        if optarg' == None {
          return None, optind', optarg';
        }
        optind' := optind' + 1;
      }
      return Some(ch), optind', optarg';
    }
    c := None;
  }

  /** The outcomes of calling until nothing is returned any more, the last one included. */
  ghost function Enumerate(argc: nat, argv: Slots, options: string, optind: nat,
                            optarg: Option<string>): seq<Outcome>
    requires IsArgv(argc, argv) && 1 <= optind <= argc
    decreases argc - optind
  {
    var r := Call(argc, argv, options, optind, optarg);
    if r.c.None? then [r]
    else [r] + Enumerate(argc, Settled(argc, argv, options, optind), options, r.optind, r.optarg)
  }

  /** The loop stops within `argc` calls, for every vector, also one that cannot be reordered. */
  lemma {:induction false} StopsInTime(argc: nat, argv: Slots, options: string, optind: nat, optarg: Option<string>)
    requires IsArgv(argc, argv) && 1 <= optind <= argc
    ensures |Enumerate(argc, argv, options, optind, optarg)| <= argc - optind + 1
    decreases argc - optind
  {
    var r := Call(argc, argv, options, optind, optarg);
    if r.c.Some? {
      StopsInTime(argc, Settled(argc, argv, options, optind), options, r.optind, r.optarg);
    }
  }

  lemma {:induction false} FrontStartsWithOption(args: seq<string>, options: string)
    requires Scan(args, options).Scanned?
    ensures var r := Scan(args, options);
            |r.front| >= |r.uses| && (|r.front| > 0 ==> IsOption(r.front[0]))
    decreases |args|
  {
    if |args| == 0 {
    } else {
      if !IsOption(args[0]) || !MatchOf(args[0], options).takesArg {
        FrontStartsWithOption(args[1..], options);
      } else {
        FrontStartsWithOption(args[2..], options);
      }
    }
  }

  /** The words from `optind` on, which have their options in front. */
  ghost predicate InFront(argc: nat, argv: Slots, options: string, optind: nat, words: seq<string>)
    requires IsArgv(argc, argv) && 1 <= optind <= argc
  {
    words == Args(argc, argv)[optind - 1..] && Settles(words, options)
  }

  ghost predicate Reports(outs: seq<Outcome>, uses: seq<Use>, end: nat) {
    && |outs| == |uses| + 1 && outs[|uses|].c == None && outs[|uses|].optind == end
    && forall i :: 0 <= i < |uses| ==>
         outs[i].c == Some(uses[i].c) && (uses[i].arg.Some? ==> outs[i].optarg == uses[i].arg)
  }

  /** Words with their options in front. */
  predicate Settles(words: seq<string>, options: string) {
    Scan(words, options).Scanned? && words == Scan(words, options).front + Scan(words, options).back
  }

  /** Where the options are in front, what follows the first option and its argument is again such. */
  lemma AfterFirst(words: seq<string>, options: string) returns (n: nat)
    requires Settles(words, options) && |Scan(words, options).front| > 0
    ensures IsOption(words[0]) && MatchOf(words[0], options).Known()
    ensures n == (if MatchOf(words[0], options).takesArg then 2 else 1) <= |words|
    ensures var r, more := Scan(words, options), Scan(words[n..], options);
            && Settles(words[n..], options) && |more.front| + n == |r.front|
            && r.uses == [Use(MatchOf(words[0], options).c, if n == 2 then Some(words[1]) else None)] + more.uses
  {
    FrontStartsWithOption(words, options);
    assert words[0] == Scan(words, options).front[0];
    if MatchOf(words[0], options).takesArg {
      n := 2;
      var more := Scan(words[2..], options);
      Shorter(words, [words[0], words[1]], more.front, more.back);
    } else {
      n := 1;
      var more := Scan(words[1..], options);
      Shorter(words, [words[0]], more.front, more.back);
    }
  }

  lemma Shorter(words: seq<string>, first: seq<string>, front: seq<string>, back: seq<string>)
    requires words == (first + front) + back
    ensures words[|first|..] == front + back
  {
  }

  /** A call where the options are in front returns the first of them. */
  lemma FirstUse(argc: nat, argv: Slots, options: string, optind: nat, optarg: Option<string>, words: seq<string>)
    returns (more: seq<string>)
    requires IsArgv(argc, argv) && 1 <= optind <= argc && InFront(argc, argv, options, optind, words)
    ensures var r, out := Scan(words, options), Next(argc, argv, options, optind, optarg);
            if |r.front| == 0 then r.uses == [] && out.c == None && out.optind == optind
            else
              && |r.uses| > 0 && out.c == Some(r.uses[0].c)
              && (r.uses[0].arg.Some? ==> out.optarg == r.uses[0].arg)
              && InFront(argc, argv, options, out.optind, more)
              && Scan(more, options).uses == r.uses[1..]
              && |Scan(more, options).front| + out.optind == |r.front| + optind
  {
    assert |words| > 0 ==> argv[optind] == Some(words[0]);
    if |Scan(words, options).front| > 0 {
      var n := AfterFirst(words, options);
      assert n == 2 ==> argv[optind + 1] == Some(words[1]);
      more := words[n..];
      assert Args(argc, argv)[optind - 1 + n..] == more;
    } else {
      more := [];
      NoneInFront(words, options);
    }
  }

  lemma NoneInFront(words: seq<string>, options: string)
    requires Settles(words, options) && |Scan(words, options).front| == 0
    ensures Scan(words, options).uses == [] && (|words| > 0 ==> !IsOption(words[0]))
  {
    FrontStartsWithOption(words, options);
  }

  lemma {:induction false} EnumerateFrom(argc: nat, argv: Slots, options: string, optind: nat,
                                         optarg: Option<string>, words: seq<string>)
    requires IsArgv(argc, argv) && 1 <= optind <= argc && InFront(argc, argv, options, optind, words)
    requires optind == 1 ==> Settled(argc, argv, options, 1) == argv && Scan(Args(argc, argv), options).Scanned?
    ensures Reports(Enumerate(argc, argv, options, optind, optarg), Scan(words, options).uses,
                    optind + |Scan(words, options).front|)
    decreases argc - optind
  {
    var more := FirstUse(argc, argv, options, optind, optarg, words);
    var out := Next(argc, argv, options, optind, optarg);
    var r := Scan(words, options);
    EnumerateStep(argc, argv, options, optind, optarg);
    if out.c.Some? {
      EnumerateFrom(argc, argv, options, out.optind, out.optarg, more);
      ReportsMore(out, Enumerate(argc, argv, options, out.optind, out.optarg), r.uses, optind + |r.front|);
    }
  }

  lemma EnumerateStep(argc: nat, argv: Slots, options: string, optind: nat, optarg: Option<string>)
    requires IsArgv(argc, argv) && 1 <= optind <= argc
    requires optind == 1 ==> Settled(argc, argv, options, 1) == argv && Scan(Args(argc, argv), options).Scanned?
    ensures var out := Next(argc, argv, options, optind, optarg);
            Enumerate(argc, argv, options, optind, optarg)
            == [out] + if out.c.None? then [] else Enumerate(argc, argv, options, out.optind, out.optarg)
  {
  }

  lemma ReportsMore(out: Outcome, outs: seq<Outcome>, uses: seq<Use>, end: nat)
    requires |uses| > 0 && Reports(outs, uses[1..], end)
    requires out.c == Some(uses[0].c) && (uses[0].arg.Some? ==> out.optarg == uses[0].arg)
    ensures Reports([out] + outs, uses, end)
  {
  }

  /**
   * Option enumeration: from `optind` 1, on a vector in which every option is known and has its
   * argument, the calls return exactly the options that start at some position, with their
   * arguments, in their original order, and then stop at the first word that is not an option.
   */
  lemma OptionEnumeration(argc: nat, argv: Slots, options: string, optarg: Option<string>)
    requires IsArgv(argc, argv)
    requires var args := Args(argc, argv);
             forall i :: 0 <= i < |args| && IsStart(args, options, i) ==> GoodStart(args, options, i)
    ensures var args := Args(argc, argv);
            Reports(Enumerate(argc, argv, options, 1, optarg), UsesAt(args, options, |args|),
                    1 + |Picked(args, options, |args|, true)|)
  {
    var args := Args(argc, argv);
    StableOrder(args, options);
    UsesByPosition(args, options);
    EnumerateScanned(argc, argv, options, optarg);
  }

  /** On any other vector the first call answers '?', moves past the first word and leaves the vector alone. */
  lemma BadVectorRejected(argc: nat, argv: Slots, options: string, optarg: Option<string>)
    requires IsArgv(argc, argv)
    requires var args := Args(argc, argv);
             exists i :: 0 <= i < |args| && IsStart(args, options, i) && !GoodStart(args, options, i)
    ensures Call(argc, argv, options, 1, optarg) == Outcome(Some('?'), 2, optarg)
    ensures Settled(argc, argv, options, 1) == argv
  {
    StableOrder(Args(argc, argv), options);
    SameArgs(argc, argv);
  }

  /**
   * A call that does not reorder, as they follow a rejected vector too, told from the characters
   * of the word: it ends at the end or at a word without a dash, skips an unknown option with
   * '?', and returns a known one with the next word as its argument, or ends when that is missing.
   */
  lemma LaterCall(argc: nat, argv: Slots, options: string, optind: nat, optarg: Option<string>)
    requires IsArgv(argc, argv) && 2 <= optind <= argc
    ensures var out := Call(argc, argv, options, optind, optarg);
            && (optind == argc ==> out.c == None && out.optind == argc)
            && (optind < argc ==>
                  var word := argv[optind].value;
                  && (word == "" || word[0] != '-' ==> out.c == None && out.optind == optind)
                  && (|word| >= 2 && word[0] == '-' && word[1] !in options ==>
                        out.c == Some('?') && out.optind == optind + 1)
                  && (|word| >= 2 && word[0] == '-' && word[1] != '?' ==>
                        forall i: nat :: FirstAt(word[1], options, i) ==>
                          if !ColonAfter(options, i) then out.c == Some(word[1]) && out.optind == optind + 1
                          else if optind + 1 < argc then
                            out.c == Some(word[1]) && out.optind == optind + 2 && out.optarg == argv[optind + 1]
                          else out.c == None && out.optind == argc && out.optarg == None))
  {
    if optind < argc && |argv[optind].value| >= 2 {
      var p := argv[optind].value[1];
      if p !in options {
        LookupNone(p, options);
      }
      forall i: nat | FirstAt(p, options, i)
        ensures Lookup(p, options) == Match(p, ColonAfter(options, i))
      {
        LookupFirst(p, options, i);
      }
    }
  }

  lemma EnumerateScanned(argc: nat, argv: Slots, options: string, optarg: Option<string>)
    requires IsArgv(argc, argv) && Scan(Args(argc, argv), options).Scanned?
    ensures var r := Scan(Args(argc, argv), options);
            Reports(Enumerate(argc, argv, options, 1, optarg), r.uses, 1 + |r.front|)
  {
    var args := Args(argc, argv);
    var settled := Settled(argc, argv, options, 1);
    ReorderTwice(args, options);
    var words := Args(argc, settled);
    assert words[0..] == words;
    SameArgs(argc, settled);
    EnumerateFrom(argc, settled, options, 1, optarg, words);
    EnumerateSettled(argc, argv, options, optarg);
  }

  lemma EnumerateSettled(argc: nat, argv: Slots, options: string, optarg: Option<string>)
    requires IsArgv(argc, argv) && Scan(Args(argc, argv), options).Scanned?
    ensures Enumerate(argc, argv, options, 1, optarg)
         == Enumerate(argc, Settled(argc, argv, options, 1), options, 1, optarg)
  {
    ReorderTwice(Args(argc, argv), options);
    var settled := Settled(argc, argv, options, 1);
    SameArgs(argc, settled);
    assert Settled(argc, settled, options, 1) == settled;
  }
}
