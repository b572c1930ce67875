/**
 * The shutdown coordinator (platforms/common/shutdown.cpp, build with work queues): locks,
 * hooks and the worker that reschedules itself until the system may stop.
 */
module Shutdown {
  import opened Bytes

  const MAX_HOOKS := 1
  const TIMEOUT_RUNS := 500

  /** A hook, by its address. */
  type Hook = nat

  /** The bits of `shutdown_args`. */
  datatype Request = Request(inProgress: bool, reboot: bool, toBootloader: bool)

  datatype Stop = Running | Rebooted(toBootloader: bool) | PoweredOff

  /** What the board supports. */
  datatype Board = Board(hasReset: bool, hasPowerControl: bool)

  datatype State = State(lockCounter: nat, counter: nat, args: Request, hooks: seq<Option<Hook>>,
                         scheduled: bool, stop: Stop) {
    predicate Valid() {
      lockCounter < 256 && counter < 65536 && |hooks| == MAX_HOOKS
    }
  }

  const INITIAL := State(0, 0, Request(false, false, false), [None], false, Running)

  /** All registered hooks answer that they are done. */
  predicate HooksDone(hooks: seq<Option<Hook>>, answers: Hook -> bool) {
    forall i :: 0 <= i < |hooks| && hooks[i].Some? ==> answers(hooks[i].value)
  }

  // The operations, each of which runs under the mutex.

  function Locked(s: State): State {
    s.(lockCounter := (s.lockCounter + 1) % 256)
  }

  function Unlocked(s: State): State {
    if s.lockCounter > 0 then s.(lockCounter := s.lockCounter - 1) else s
  }

  function FirstSlot(hooks: seq<Option<Hook>>, wanted: Option<Hook>): (i: nat)
    ensures i <= |hooks| && (i < |hooks| ==> hooks[i] == wanted)
  {
    if |hooks| == 0 || hooks[0] == wanted then 0 else 1 + FirstSlot(hooks[1..], wanted)
  }

  /** Puts `replacement` into the first slot that holds `wanted`, if there is one. */
  function Replaced(s: State, wanted: Option<Hook>, replacement: Option<Hook>): State {
    var i := FirstSlot(s.hooks, wanted);
    if i < |s.hooks| then s.(hooks := s.hooks[i := replacement]) else s
  }

  /** A hook that found a slot is asked before the system may stop, and so are those before it. */
  lemma RegisteredHookIsAsked(s: State, hook: Hook, answers: Hook -> bool)
    requires None in s.hooks
    ensures HooksDone(Replaced(s, None, Some(hook)).hooks, answers) <==> HooksDone(s.hooks, answers) && answers(hook)
  {
    FirstSlotIsFound(s.hooks, None);
    var i, hooks := FirstSlot(s.hooks, None), Replaced(s, None, Some(hook)).hooks;
    assert hooks[i] == Some(hook) && forall j :: 0 <= j < |hooks| && j != i ==> hooks[j] == s.hooks[j];
    if HooksDone(hooks, answers) {
      forall j | 0 <= j < |s.hooks| && s.hooks[j].Some?
        ensures answers(s.hooks[j].value)
      {
        assert hooks[j] == s.hooks[j];
      }
    }
  }

  /** Unregistering a hook that was just registered, and was not before, restores the state. */
  lemma UnregisterUndoes(s: State, hook: Hook)
    requires None in s.hooks && Some(hook) !in s.hooks
    ensures Replaced(Replaced(s, None, Some(hook)), Some(hook), None) == s
  {
    FirstSlotIsFound(s.hooks, None);
    var i, hooks := FirstSlot(s.hooks, None), Replaced(s, None, Some(hook)).hooks;
    assert hooks[i] == Some(hook);
    FirstSlotIsFound(hooks, Some(hook));
    assert FirstSlot(hooks, Some(hook)) == i;
    assert hooks[i := None] == s.hooks;
  }

  lemma {:induction false} FirstSlotIsFound(hooks: seq<Option<Hook>>, wanted: Option<Hook>)
    requires wanted in hooks
    ensures FirstSlot(hooks, wanted) < |hooks| && forall j :: 0 <= j < FirstSlot(hooks, wanted) ==> hooks[j] != wanted
  {
    if hooks[0] != wanted {
      FirstSlotIsFound(hooks[1..], wanted);
    }
  }

  /** One run of the worker: it stops the system, or counts the run and schedules itself again. */
  function Worked(s: State, answers: Hook -> bool): State {
    if HooksDone(s.hooks, answers) && s.lockCounter == 0 then Stopped(s)
    else
      var s1 := s.(counter := (s.counter + 1) % 65536);
      if s1.counter > TIMEOUT_RUNS then Stopped(s1) else s1.(scheduled := true)
  }

  function Stopped(s: State): State {
    s.(stop := if s.args.reboot then Rebooted(s.args.toBootloader) else PoweredOff, scheduled := false)
  }

  /** A request is refused when the board cannot do it, and ignored while one is in progress. */
  function Requested(s: State, board: Board, reboot: bool, toBootloader: bool, answers: Hook -> bool): State {
    if reboot && !board.hasReset then s
    else if !reboot && !board.hasPowerControl then s
    else if s.args.inProgress then s
    else
      Worked(s.(args := Request(true, s.args.reboot || reboot, s.args.toBootloader || toBootloader)), answers)
  }

  // Runs: any interleaving of clients, hooks, requests and the worker.

  datatype Event =
    | Lock
    | Unlock
    | Register(hook: Hook)
    | Unregister(hook: Hook)
    | Ask(reboot: bool, toBootloader: bool, answers: Hook -> bool)
    | Work(answers: Hook -> bool)

  /** The system and what a run is measured by: locks held, worker runs, the first request. */
  datatype World = World(s: State, held: nat, runs: nat, first: Option<Request>, quiet: bool)

  function Accepted(s: State, board: Board, e: Event): bool {
    && e.Ask? && !s.args.inProgress && (if e.reboot then board.hasReset else board.hasPowerControl)
  }

  /** What the event makes of the world; `quiet` records whether the worker found all hooks done. */
  function After(w: World, board: Board, e: Event): World {
    match e
    case Lock => w.(s := Locked(w.s), held := w.held + 1)
    case Unlock => w.(s := Unlocked(w.s), held := if w.held > 0 then w.held - 1 else 0)
    case Register(h) => w.(s := Replaced(w.s, None, Some(h)))
    case Unregister(h) => w.(s := Replaced(w.s, Some(h), None))
    case Ask(reboot, toBootloader, answers) =>
      var s := Requested(w.s, board, reboot, toBootloader, answers);
      if Accepted(w.s, board, e) then
        World(s, w.held, w.runs + 1, Some(Request(true, reboot, toBootloader)), HooksDone(w.s.hooks, answers))
      else w.(s := s)
    case Work(answers) => w.(s := Worked(w.s, answers), runs := w.runs + 1, quiet := HooksDone(w.s.hooks, answers))
  }

  /** Clients unlock only what they locked, and the queue runs only scheduled work. */
  predicate Possible(w: World, e: Event) {
    && w.s.stop.Running?
    && (e.Unlock? ==> w.held > 0)
    && (e.Work? ==> w.s.scheduled)
  }

  /** Clients hold at most `limit` locks at a time. */
  predicate Countable(w: World, e: Event, limit: nat) {
    e.Lock? ==> w.held < limit
  }

  /** As many locks as the counter can count. */
  const MAX_LOCKS := 255

  const START := World(INITIAL, 0, 0, None, false)

  ghost function Run(board: Board, events: seq<Event>): World {
    if |events| == 0 then START else After(Run(board, events[..|events| - 1]), board, events[|events| - 1])
  }

  /** A run in which every step is possible and at most `limit` locks are held at a time. */
  ghost predicate LegalUpTo(board: Board, events: seq<Event>, limit: nat) {
    |events| > 0 ==>
      var before, e := Run(board, events[..|events| - 1]), events[|events| - 1];
      LegalUpTo(board, events[..|events| - 1], limit) && Possible(before, e) && Countable(before, e, limit)
  }

  ghost predicate Legal(board: Board, events: seq<Event>) {
    LegalUpTo(board, events, MAX_LOCKS)
  }

  /** What every step keeps. */
  ghost predicate Invariant(w: World) {
    && w.s.Valid() && w.s.lockCounter == w.held
    && w.s.args == (if w.first.Some? then w.first.value else Request(false, false, false))
    && (w.first.Some? ==> w.first.value.inProgress)
    && (w.s.scheduled <==> w.first.Some? && w.s.stop.Running?)
    && (w.first.None? ==> w.runs == 0 && w.s.counter == 0 && w.s.stop.Running?)
    && (w.s.stop.Running? ==> w.s.counter == w.runs <= TIMEOUT_RUNS)
    && (!w.s.stop.Running? ==>
          && w.runs <= TIMEOUT_RUNS + 1
          && (w.s.counter == TIMEOUT_RUNS + 1 == w.runs || (w.quiet && w.held == 0))
          && w.s.stop == if w.s.args.reboot then Rebooted(w.s.args.toBootloader) else PoweredOff)
  }

  lemma StepKeepsInvariant(w: World, board: Board, e: Event)
    requires Invariant(w) && Possible(w, e) && Countable(w, e, MAX_LOCKS)
    ensures Invariant(After(w, board, e))
  {
  }

  lemma {:induction false} RunKeepsInvariant(board: Board, events: seq<Event>)
    requires Legal(board, events)
    ensures Invariant(Run(board, events))
  {
    if |events| == 0 {
    } else {
      var init := events[..|events| - 1];
      RunKeepsInvariant(board, init);
      StepKeepsInvariant(Run(board, init), board, events[|events| - 1]);
    }
  }

  /** The system does not stop with locks held or hooks not done, except on timeout. */
  predicate Safe(w: World) {
    !w.s.stop.Running? ==> (w.quiet && w.held == 0) || w.s.counter > TIMEOUT_RUNS
  }

  /**
   * Safety and bound, in every interleaving: the system stops only when all hooks are done
   * and no lock is held, or after the timeout; the worker runs at most 501 times, and until
   * the system stops a request that was accepted keeps it scheduled.
   */
  lemma ShutdownIsSafe(board: Board, events: seq<Event>)
    requires Legal(board, events)
    ensures var w := Run(board, events);
            && w.runs <= 501
            && Safe(w) && (w.s.counter > TIMEOUT_RUNS ==> w.runs == 501)
            && (w.runs == 501 ==> !w.s.stop.Running?)
            && (w.first.Some? && w.s.stop.Running? ==> w.s.scheduled)
  {
    RunKeepsInvariant(board, events);
  }

  /** The first request that is accepted decides how the system stops; no later one changes it. */
  lemma {:induction false} FirstRequestStands(board: Board, events: seq<Event>, n: nat)
    requires Legal(board, events) && n <= |events| && Run(board, events[..n]).first.Some?
    ensures Run(board, events).first == Run(board, events[..n]).first
    ensures Run(board, events).s.args == Run(board, events[..n]).first.value
  {
    RunKeepsInvariant(board, events);
    if n < |events| {
      var init := events[..|events| - 1];
      assert init[..n] == events[..n];
      FirstRequestStands(board, init, n);
      RunKeepsInvariant(board, init);
      var w, e := Run(board, init), events[|events| - 1];
      assert Run(board, events) == After(w, board, e) && !Accepted(w.s, board, e);
    } else {
      assert events[..n] == events;
    }
  }

  // What the width of the lock counter means.

  ghost function Locks(n: nat): seq<Event> {
    seq(n, _ => Lock)
  }

  function Wrap256(n: nat): (r: nat)
    ensures r < 256
  {
    n % 256
  }

  lemma WrapNext(n: nat)
    ensures Wrap256(n + 1) == Wrap256(Wrap256(n) + 1)
  {
  }

  lemma {:induction false} ManyLocks(board: Board, n: nat)
    ensures Run(board, Locks(n)) == START.(s := INITIAL.(lockCounter := Wrap256(n)), held := n)
  {
    if n == 0 {
    } else {
      ManyLocks(board, n - 1);
      assert Locks(n)[..n - 1] == Locks(n - 1);
      WrapNext(n - 1);
    }
  }

  /**
   * With `n` locks held and no hook, a reboot request stops the system at once exactly when
   * `n` is a multiple of 256: the eight-bit counter cannot tell 256 locks from none.
   */
  lemma LocksBeyondTheCounter(board: Board, n: nat, answers: Hook -> bool)
    requires board.hasReset
    ensures var w := Run(board, Locks(n) + [Ask(true, false, answers)]);
            w.held == n && (!w.s.stop.Running? <==> Wrap256(n) == 0)
  {
    ManyLocks(board, n);
    var events := Locks(n) + [Ask(true, false, answers)];
    assert events[..|events| - 1] == Locks(n);
  }

  /** The event that goes on towards a shutdown, with all hooks done. */
  function Onward(w: World, board: Board): Event {
    if w.s.scheduled then Work(_ => true) else Ask(board.hasReset, false, _ => true)
  }

  /**
   * From every run in which 255 locks are held, one more lock makes the counter forget them
   * all: the worker's next run stops the system, without a timeout.
   */
  lemma OneLockTooMany(board: Board, events: seq<Event>)
    requires (board.hasReset || board.hasPowerControl) && Legal(board, events)
    requires Run(board, events).held == MAX_LOCKS && Run(board, events).s.stop.Running?
    ensures var locked := Run(board, events + [Lock]);
            var w := After(locked, board, Onward(locked, board));
            && Possible(Run(board, events), Lock) && Possible(locked, Onward(locked, board))
            && !w.s.stop.Running? && w.held == 256 && !Safe(w)
  {
    RunKeepsInvariant(board, events);
    assert (events + [Lock])[..|events|] == events;
    LockForgets(Run(board, events), board);
  }

  lemma LockForgets(w: World, board: Board)
    requires Invariant(w) && w.held == MAX_LOCKS && w.s.stop.Running? && (board.hasReset || board.hasPowerControl)
    ensures var locked := After(w, board, Lock);
            var w' := After(locked, board, Onward(locked, board));
            && Possible(w, Lock) && Possible(locked, Onward(locked, board))
            && !w'.s.stop.Running? && w'.held == 256 && !Safe(w')
  {
    assert Locked(w.s).lockCounter == 0;
  }

  lemma {:induction false} LegalWithin(board: Board, events: seq<Event>, limit: nat)
    requires LegalUpTo(board, events, limit) && limit <= MAX_LOCKS
    ensures Legal(board, events)
  {
    if |events| == 0 {
    } else {
      LegalWithin(board, events[..|events| - 1], limit);
    }
  }

  lemma {:induction false} LocksAreLegal(board: Board, n: nat, limit: nat)
    requires n <= limit
    ensures LegalUpTo(board, Locks(n), limit)
  {
    ManyLocks(board, n);
    if n == 0 {
    } else {
      LocksAreLegal(board, n - 1, limit);
      ManyLocks(board, n - 1);
      assert Locks(n)[..n - 1] == Locks(n - 1);
    }
  }

  /**
   * The limit: every run in which clients hold at most `limit` locks at a time is safe if and
   * only if the limit is at most 255, on every board that can stop.
   */
  lemma LockLimit(board: Board, limit: nat)
    requires board.hasReset || board.hasPowerControl
    ensures (forall events :: LegalUpTo(board, events, limit) ==> Safe(Run(board, events))) <==> limit <= 255
  {
    if limit <= MAX_LOCKS {
      forall events | LegalUpTo(board, events, limit)
        ensures Safe(Run(board, events))
      {
        LegalWithin(board, events, limit);
        RunKeepsInvariant(board, events);
      }
    } else {
      var events := Unsafe(board, limit);
    }
  }

  lemma Unsafe(board: Board, limit: nat) returns (events: seq<Event>)
    requires (board.hasReset || board.hasPowerControl) && limit >= 256
    ensures LegalUpTo(board, events, limit) && !Safe(Run(board, events))
  {
    var locks := Locks(256);
    LocksAreLegal(board, 256, limit);
    ManyLocks(board, 256);
    var e := Ask(board.hasReset, false, _ => true);
    events := locks + [e];
    assert events[..|events| - 1] == locks;
  }

  // The operations as they run: static variables that are changed in place.

  class Coordinator {
    const board: Board
    const hooks: array<Option<Hook>>
    var lockCounter: nat
    var counter: nat
    var args: Request
    var scheduled: bool
    var stop: Stop

    ghost predicate Valid()
      reads this
    {
      lockCounter < 256 && counter < 65536 && hooks.Length == MAX_HOOKS
    }

    ghost function View(): State
      reads this, hooks
    {
      State(lockCounter, counter, args, hooks[..], scheduled, stop)
    }

    constructor (board: Board)
      ensures Valid() && View() == INITIAL && this.board == board && fresh(hooks)
    {
      this.board := board;
      hooks := new Option<Hook>[MAX_HOOKS](_ => None);
      lockCounter, counter, args, scheduled, stop := 0, 0, Request(false, false, false), false, Running;
      new;
      assert hooks[..] == [None];
    }

    method Lock()
      requires Valid()
      modifies `lockCounter
      ensures Valid() && View() == Locked(old(View()))
    {
      lockCounter := (lockCounter + 1) % 256;
    }

    /** `ok` is false when there was nothing to unlock. */
    method Unlock() returns (ok: bool)
      requires Valid()
      modifies `lockCounter
      ensures Valid() && View() == Unlocked(old(View())) && (ok <==> old(lockCounter) > 0)
    {
      ok := lockCounter > 0;
      if ok {
        lockCounter := lockCounter - 1;
      }
    }

    method Replace(wanted: Option<Hook>, replacement: Option<Hook>) returns (ok: bool)
      requires Valid()
      modifies hooks
      ensures View() == Replaced(old(View()), wanted, replacement)
      ensures ok <==> FirstSlot(old(hooks[..]), wanted) < MAX_HOOKS
    {
      ghost var before := hooks[..];
      for i := 0 to MAX_HOOKS
        invariant hooks[..] == before && FirstSlot(before, wanted) == i + FirstSlot(before[i..], wanted)
      {
        assert before[i..][1..] == before[i + 1..];
        if hooks[i] == wanted {
          hooks[i] := replacement;
          assert hooks[..] == before[i := replacement];
          return true;
        }
      }
      ok := false;
    }

    /** Fails (-ENOMEM) when no slot is free. */
    method RegisterHook(hook: Hook) returns (ok: bool)
      requires Valid()
      modifies hooks
      ensures View() == Replaced(old(View()), None, Some(hook))
      ensures ok <==> FirstSlot(old(hooks[..]), None) < MAX_HOOKS
    {
      ok := Replace(None, Some(hook));
    }

    /** Fails (-EINVAL) when the hook is not registered. */
    method UnregisterHook(hook: Hook) returns (ok: bool)
      requires Valid()
      modifies hooks
      ensures View() == Replaced(old(View()), Some(hook), None)
      ensures ok <==> FirstSlot(old(hooks[..]), Some(hook)) < MAX_HOOKS
    {
      ok := Replace(Some(hook), None);
    }

    method Worker(answers: Hook -> bool)
      requires Valid()
      modifies `counter, `scheduled, `stop
      ensures Valid() && View() == Worked(old(View()), answers)
    {
      var done := true;
      for i := 0 to MAX_HOOKS
        invariant done <==> HooksDone(hooks[..i], answers)
      {
        assert hooks[..i + 1] == hooks[..i] + [hooks[i]];
        if hooks[i].Some? && !answers(hooks[i].value) {
          done := false;
        }
      }
      assert hooks[..MAX_HOOKS] == hooks[..];
      var stopping := done && lockCounter == 0;
      if !stopping {
        counter := (counter + 1) % 65536;
        stopping := counter > TIMEOUT_RUNS;
      }
      if stopping {
        stop := if args.reboot then Rebooted(args.toBootloader) else PoweredOff;
        scheduled := false;
      } else {
        scheduled := true;
      }
    }

    /** Fails (-EINVAL) when the board does not support the requested method. */
    method ShutdownRequest(reboot: bool, toBootloader: bool, answers: Hook -> bool) returns (ok: bool)
      requires Valid()
      modifies `args, `counter, `scheduled, `stop
      ensures Valid() && View() == Requested(old(View()), board, reboot, toBootloader, answers)
      ensures ok <==> if reboot then board.hasReset else board.hasPowerControl
    {
      if reboot && !board.hasReset {
        return false;
      }
      if !reboot && !board.hasPowerControl {
        return false;
      }
      ok := true;
      if args.inProgress {
        return;
      }
      args := args.(inProgress := true);
      if reboot {
        args := args.(reboot := true);
      }
      if toBootloader {
        args := args.(toBootloader := true);
      }
      Worker(answers);
    }
  }
}
