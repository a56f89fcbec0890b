/**
 The speaker and motor workers of chapter6/rpi6/rpi6.c.

 A request starts a thread that tries a lock, performs a fixed script of pin writes if it got
 it, and leaves at once if it did not.  `Device` is the shared state of one such pin, its lock
 and every thread ever started for it; an `Event` is one atomic step of one thread.  The main
 results hold after every interleaving of every number of threads.
 */
module Actuators {
  import opened Levels
  import opened Options

  // Notes in Hz; the fractional initialisers of the source's int array are truncated.
  const NOTES: seq<int> := [
    391, 391, 440, 440, 391, 391, 329, 329,
    391, 391, 329, 329, 293, 293, 293, 0,
    391, 391, 440, 440, 391, 391, 329, 329,
    391, 329, 293, 329, 261, 261, 261, 0
  ]

  const TOTAL := 32

  /** What the speaker is given are the source's 32 initialisers, here in hundredths of Hz,
      without their fractions. */
  lemma NotesAreTruncated()
    ensures var score := [39100, 39100, 44000, 44000, 39100, 39100, 32963, 32963,
                          39100, 39100, 32963, 32963, 29366, 29366, 29366, 0,
                          39100, 39100, 44000, 44000, 39100, 39100, 32963, 32963,
                          39100, 32963, 29366, 32963, 26163, 26163, 26163, 0];
      |NOTES| == |score| == 32 && forall i :: 0 <= i < 32 ==> NOTES[i] == score[i] / 100
  {
  }

  // Three times on, then off.
  const MOTOR_SESSION: seq<bool> := [HIGH, LOW, HIGH, LOW, HIGH, LOW]

  // ---------- the transition system ----------

  // Holding(i): inside the critical section with i writes done.
  datatype Phase = Started | Holding(written: nat) | Gone(performed: bool)

  datatype Device<!T> = Device(threads: map<nat, Phase>, lock: Option<nat>, trace: seq<T>)

  datatype Event = Start(t: nat) | TryLock(t: nat) | Write(t: nat) | Unlock(t: nat)

  function Idle<T>(): Device<T> {
    Device(map[], None, [])
  }

  predicate Enabled<T>(script: seq<T>, d: Device<T>, e: Event) {
    match e
    case Start(t) => t !in d.threads
    case TryLock(t) => t in d.threads && d.threads[t] == Started
    case Write(t) => t in d.threads && d.threads[t].Holding? && d.threads[t].written < |script|
    case Unlock(t) => t in d.threads && d.threads[t] == Holding(|script|)
  }

  function Next<T>(script: seq<T>, d: Device<T>, e: Event): Device<T>
    requires Enabled(script, d, e)
  {
    match e
    case Start(t) =>
      d.(threads := d.threads[t := Started])
    case TryLock(t) =>
      if d.lock == None then d.(threads := d.threads[t := Holding(0)], lock := Some(t))
      else d.(threads := d.threads[t := Gone(false)])   // EBUSY
    case Write(t) =>
      var i := d.threads[t].written;
      d.(threads := d.threads[t := Holding(i + 1)], trace := d.trace + [script[i]])
    case Unlock(t) =>
      d.(threads := d.threads[t := Gone(true)], lock := None)
  }

  /** The state after a run from the start of the program; None if some step was not enabled. */
  function After<T>(script: seq<T>, run: seq<Event>): Option<Device<T>> {
    if run == [] then Some(Idle())
    else
      var n := |run| - 1;
      match After(script, run[..n])
      case None => None
      case Some(c) => if Enabled(script, c, run[n]) then Some(Next(script, c, run[n])) else None
  }

  predicate Reachable<T(==)>(script: seq<T>, run: seq<Event>, d: Device<T>) {
    After(script, run) == Some(d)
  }

  // ---------- what every run keeps ----------

  function Repeat<T>(s: seq<T>, k: nat): (r: seq<T>)
    ensures |r| == k * |s|
  {
    if k == 0 then [] else Repeat(s, k - 1) + s
  }

  // Threads that have performed the whole script and left.
  ghost function Performers<T>(d: Device<T>): set<nat> {
    set t | t in d.threads && d.threads[t] == Gone(true)
  }

  ghost predicate Consistent<T>(script: seq<T>, d: Device<T>) {
    && (forall t :: t in d.threads && d.threads[t].Holding? ==> d.lock == Some(t) && d.threads[t].written <= |script|)
    && (d.lock.Some? ==> d.lock.value in d.threads && d.threads[d.lock.value].Holding?)
  }

  // Writes done by the thread that holds the lock.
  function Progress<T>(d: Device<T>): nat
    requires d.lock.Some? ==> d.lock.value in d.threads && d.threads[d.lock.value].Holding?
  {
    if d.lock.Some? then d.threads[d.lock.value].written else 0
  }

  ghost predicate Orderly<T>(script: seq<T>, d: Device<T>) {
    && Consistent(script, d)
    && d.trace == Repeat(script, |Performers(d)|) + script[..Progress(d)]
  }

  lemma StartOrTryKeepsOrder<T>(script: seq<T>, d: Device<T>, e: Event)
    requires Orderly(script, d) && Enabled(script, d, e) && (e.Start? || e.TryLock?)
    ensures Orderly(script, Next(script, d, e))
  {
    assert Performers(Next(script, d, e)) == Performers(d);
    assert script[..0] == [];
  }

  lemma WriteKeepsOrder<T>(script: seq<T>, d: Device<T>, t: nat)
    requires Orderly(script, d) && Enabled(script, d, Write(t))
    ensures Orderly(script, Next(script, d, Write(t)))
  {
    var i := d.threads[t].written;
    assert Performers(Next(script, d, Write(t))) == Performers(d);
    assert script[..i] + [script[i]] == script[..i + 1];
  }

  lemma UnlockKeepsOrder<T>(script: seq<T>, d: Device<T>, t: nat)
    requires Orderly(script, d) && Enabled(script, d, Unlock(t))
    ensures Orderly(script, Next(script, d, Unlock(t)))
  {
    assert Performers(Next(script, d, Unlock(t))) == Performers(d) + {t};
    assert script[..|script|] == script && script[..0] == [];
  }

  lemma StepKeepsOrder<T>(script: seq<T>, d: Device<T>, e: Event)
    requires Orderly(script, d) && Enabled(script, d, e)
    ensures Orderly(script, Next(script, d, e))
  {
    match e
    case Start(_) => StartOrTryKeepsOrder(script, d, e);
    case TryLock(_) => StartOrTryKeepsOrder(script, d, e);
    case Write(t) => WriteKeepsOrder(script, d, t);
    case Unlock(t) => UnlockKeepsOrder(script, d, t);
  }

  /** Every reachable trace is complete performances, one for each thread that has finished
      one, followed by the prefix the current lock holder has written: performances never
      overlap, interleave or break off. */
  lemma {:induction false} TraceIsWholePerformances<T>(script: seq<T>, run: seq<Event>, d: Device<T>)
    requires Reachable(script, run, d)
    ensures Consistent(script, d)
    ensures d.trace == Repeat(script, |Performers(d)|) + script[..Progress(d)]
  {
    if run == [] {
      assert Performers(d) == {};
    } else {
      var n := |run| - 1;
      var c := After(script, run[..n]).value;
      TraceIsWholePerformances(script, run[..n], c);
      StepKeepsOrder(script, c, run[n]);
    }
  }

  // The level last written to the motor pin, LOW before the first write.
  function PinLevel(trace: seq<bool>): bool {
    if trace == [] then LOW else trace[|trace| - 1]
  }

  /** Whenever motor_lock is free the motor pin is LOW, and while it is held the pin follows
      the holder's position in the on-off sequence. */
  lemma MotorOffWhenLockFree(run: seq<Event>, d: Device<bool>)
    requires Reachable(MOTOR_SESSION, run, d)
    ensures Consistent(MOTOR_SESSION, d)
    ensures PinLevel(d.trace) == (if Progress(d) % 2 == 1 then HIGH else LOW)
    ensures d.lock == None ==> PinLevel(d.trace) == LOW
  {
    TraceIsWholePerformances(MOTOR_SESSION, run, d);
    var k, i := |Performers(d)|, Progress(d);
    if i == 0 && k > 0 {
      var sessions := Repeat(MOTOR_SESSION, k - 1) + MOTOR_SESSION;
      assert d.trace == sessions + [];
      assert sessions[|sessions| - 1] == MOTOR_SESSION[5];
    } else if i > 0 {
      assert d.trace[|d.trace| - 1] == MOTOR_SESSION[i - 1];
    }
  }

  /** Nothing blocks: in every reachable state every thread that has not left has exactly one
      enabled step. */
  lemma NoThreadEverWaits<T>(script: seq<T>, run: seq<Event>, d: Device<T>, t: nat)
    requires Reachable(script, run, d) && t in d.threads && !d.threads[t].Gone?
    ensures exists e: Event :: e.t == t && Enabled(script, d, e)
    ensures forall e: Event, e': Event ::
              (e.t == t && e'.t == t && Enabled(script, d, e) && Enabled(script, d, e')) ==> e == e'
  {
    TraceIsWholePerformances(script, run, d);
    match d.threads[t]
    case Started => assert Enabled(script, d, TryLock(t));
    case Holding(i) =>
      if i < |script| {
        assert Enabled(script, d, Write(t));
      } else {
        assert Enabled(script, d, Unlock(t));
      }
  }

  // The steps of thread t in a run.
  function StepsOf(run: seq<Event>, t: nat): nat {
    if run == [] then 0
    else StepsOf(run[..|run| - 1], t) + (if run[|run| - 1].t == t then 1 else 0)
  }

  /** Every thread ends: it takes at most |script| + 3 steps, and has left exactly when it has
      taken them all, or the two of a refused lock.  NoThreadEverWaits gives the next one. */
  lemma {:induction false} ThreadStepsAreBounded<T>(script: seq<T>, run: seq<Event>, d: Device<T>, t: nat)
    requires Reachable(script, run, d)
    ensures StepsOf(run, t) ==
      if t !in d.threads then 0
      else match d.threads[t]
           case Started => 1
           case Holding(i) => i + 2
           case Gone(performed) => if performed then |script| + 3 else 2
    ensures StepsOf(run, t) <= |script| + 3
  {
    TraceIsWholePerformances(script, run, d);
    if run == [] {
    } else {
      var n := |run| - 1;
      ThreadStepsAreBounded(script, run[..n], After(script, run[..n]).value, t);
    }
  }

  // ---------- both devices together ----------

  datatype Board = Board(music: Device<int>, motor: Device<bool>)

  datatype BoardEvent = Music(e: Event) | Motor(m: Event)

  function MusicOf(run: seq<BoardEvent>): seq<Event> {
    if run == [] then []
    else
      var rest, last := MusicOf(run[..|run| - 1]), run[|run| - 1];
      if last.Music? then rest + [last.e] else rest
  }

  function MotorOf(run: seq<BoardEvent>): seq<Event> {
    if run == [] then []
    else
      var rest, last := MotorOf(run[..|run| - 1]), run[|run| - 1];
      if last.Motor? then rest + [last.m] else rest
  }

  predicate BoardEnabled(b: Board, e: BoardEvent) {
    match e
    case Music(x) => Enabled(NOTES, b.music, x)
    case Motor(x) => Enabled(MOTOR_SESSION, b.motor, x)
  }

  function BoardNext(b: Board, e: BoardEvent): Board
    requires BoardEnabled(b, e)
  {
    match e
    case Music(x) => b.(music := Next(NOTES, b.music, x))
    case Motor(x) => b.(motor := Next(MOTOR_SESSION, b.motor, x))
  }

  function BoardAfter(run: seq<BoardEvent>): Option<Board> {
    if run == [] then Some(Board(Idle(), Idle()))
    else
      var n := |run| - 1;
      match BoardAfter(run[..n])
      case None => None
      case Some(a) => if BoardEnabled(a, run[n]) then Some(BoardNext(a, run[n])) else None
  }

  lemma AfterOneMore<T>(script: seq<T>, run: seq<Event>, e: Event, d: Device<T>)
    requires Reachable(script, run, d) && Enabled(script, d, e)
    ensures Reachable(script, run + [e], Next(script, d, e))
  {
    assert (run + [e])[..|run|] == run;
  }

  lemma {:induction false} BoardProjects(run: seq<BoardEvent>, b: Board)
    requires BoardAfter(run) == Some(b)
    ensures Reachable(NOTES, MusicOf(run), b.music)
    ensures Reachable(MOTOR_SESSION, MotorOf(run), b.motor)
  {
    if run == [] {
    } else {
      var n := |run| - 1;
      var a := BoardAfter(run[..n]).value;
      BoardProjects(run[..n], a);
      match run[n]
      case Music(x) => AfterOneMore(NOTES, MusicOf(run[..n]), x, a.music);
      case Motor(x) => AfterOneMore(MOTOR_SESSION, MotorOf(run[..n]), x, a.motor);
    }
  }

  /** Any interleaving of any number of music and motor threads: the speaker has played whole
      tunes and at most one prefix of the tune, the motor has run whole sessions and at most
      one prefix, and the motor is off whenever its lock is free. */
  lemma EveryInterleavingIsOrderly(run: seq<BoardEvent>, b: Board)
    requires BoardAfter(run) == Some(b)
    ensures exists k, i :: 0 <= i <= 32 && b.music.trace == Repeat(NOTES, k) + NOTES[..i]
                        && (b.music.lock == None ==> i == 0)
    ensures exists k, i :: 0 <= i <= 6 && b.motor.trace == Repeat(MOTOR_SESSION, k) + MOTOR_SESSION[..i]
                        && (b.motor.lock == None ==> i == 0)
    ensures b.motor.lock == None ==> PinLevel(b.motor.trace) == LOW
  {
    BoardProjects(run, b);
    TraceIsWholePerformances(NOTES, MusicOf(run), b.music);
    TraceIsWholePerformances(MOTOR_SESSION, MotorOf(run), b.motor);
    MotorOffWhenLockFree(MotorOf(run), b.motor);
  }

  // ---------- the program text ----------

  /** The pins and locks as the worker functions see them when they run without interruption. */
  class Pins {
    var speaker: seq<int>
    var motor: seq<bool>
    var musicLocked: bool
    var motorLocked: bool

    constructor ()
      ensures speaker == [] && motor == [] && !musicLocked && !motorLocked
    {
      speaker, motor, musicLocked, motorLocked := [], [], false, false;
    }

    method MusicPlay()
      modifies this`speaker
      ensures speaker == old(speaker) + NOTES && |speaker| == |old(speaker)| + 32
    {
      var i := 0;
      while i < TOTAL
        invariant 0 <= i <= TOTAL
        invariant speaker == old(speaker) + NOTES[..i]
      {
        speaker := speaker + [NOTES[i]];
        i := i + 1;
      }
    }

    method MotorControl()
      modifies this`motor
      ensures motor == old(motor) + MOTOR_SESSION
      ensures motor == old(motor) + [HIGH, LOW, HIGH, LOW, HIGH, LOW]
      ensures PinLevel(motor) == LOW
    {
      var i := 0;
      while i < 3
        invariant 0 <= i <= 3
        invariant motor == old(motor) + MOTOR_SESSION[..2 * i]
      {
        motor := motor + [HIGH];
        motor := motor + [LOW];
        i := i + 1;
      }
    }

    method MusicFunction()
      modifies this`speaker, this`musicLocked
      ensures musicLocked == old(musicLocked)
      ensures speaker == old(speaker) + (if old(musicLocked) then [] else NOTES)
    {
      if !musicLocked {
        musicLocked := true;
        MusicPlay();
        musicLocked := false;
      }
    }

    method MotorFunction()
      modifies this`motor, this`motorLocked
      ensures motorLocked == old(motorLocked)
      ensures motor == old(motor) + (if old(motorLocked) then [] else MOTOR_SESSION)
    {
      if !motorLocked {
        motorLocked := true;
        MotorControl();
        motorLocked := false;
      }
    }
  }

  // The steps of thread t from its lock attempt on, when no other thread runs.
  function Solo<T>(script: seq<T>, t: nat, i: nat): seq<Event>
    requires i <= |script|
    decreases |script| - i
  {
    if i == |script| then [Unlock(t)] else [Write(t)] + Solo(script, t, i + 1)
  }

  ghost predicate Steps<T>(script: seq<T>, d: Device<T>, run: seq<Event>, d': Device<T>)
    decreases |run|
  {
    if run == [] then d == d'
    else Enabled(script, d, run[0]) && Steps(script, Next(script, d, run[0]), run[1..], d')
  }

  lemma StepsCons<T>(script: seq<T>, d: Device<T>, e: Event, rest: seq<Event>, d': Device<T>)
    requires Enabled(script, d, e) && Steps(script, Next(script, d, e), rest, d')
    ensures Steps(script, d, [e] + rest, d')
  {
    assert ([e] + rest)[1..] == rest;
  }

  lemma {:induction false} SoloFrom<T>(script: seq<T>, d: Device<T>, t: nat, i: nat)
    requires i <= |script| && d.lock == Some(t) && t in d.threads && d.threads[t] == Holding(i)
    ensures Steps(script, d, Solo(script, t, i), Device(d.threads[t := Gone(true)], None, d.trace + script[i..]))
    decreases |script| - i
  {
    var end := Device(d.threads[t := Gone(true)], None, d.trace + script[i..]);
    if i == |script| {
      assert d.trace + script[i..] == d.trace;
      StepsCons(script, d, Unlock(t), [], end);
    } else {
      var c := Next(script, d, Write(t));
      SoloFrom(script, c, t, i + 1);
      assert c.threads[t := Gone(true)] == d.threads[t := Gone(true)];
      assert c.trace + script[i + 1..] == d.trace + script[i..];
      StepsCons(script, d, Write(t), Solo(script, t, i + 1), end);
    }
  }

  /** A thread scheduled alone has the effect its function's contract states: a free lock
      gives one whole performance and a free lock, a held lock gives nothing. */
  lemma {:induction false} SoloThread<T>(script: seq<T>, d: Device<T>, t: nat)
    requires t in d.threads && d.threads[t] == Started
    ensures d.lock == None ==>
      Steps(script, d, [TryLock(t)] + Solo(script, t, 0),
            Device(d.threads[t := Gone(true)], None, d.trace + script))
    ensures d.lock.Some? ==>
      Steps(script, d, [TryLock(t)], Device(d.threads[t := Gone(false)], d.lock, d.trace))
  {
    var c := Next(script, d, TryLock(t));
    if d.lock == None {
      SoloFrom(script, c, t, 0);
      assert ([TryLock(t)] + Solo(script, t, 0))[1..] == Solo(script, t, 0);
      assert c.threads[t := Gone(true)] == d.threads[t := Gone(true)];
      assert script[0..] == script;
    } else {
      assert [TryLock(t)][1..] == [];
    }
  }

  // ---------- how often the script is performed ----------

  ghost predicate AllGone<T>(d: Device<T>) {
    forall t :: t in d.threads ==> d.threads[t].Gone?
  }

  // A thread is refused only while another holds the lock, and that one performs.
  lemma {:induction false} RefusalNeedsPerformer<T>(script: seq<T>, run: seq<Event>, d: Device<T>)
    requires Reachable(script, run, d)
    ensures (exists t :: t in d.threads && d.threads[t] == Gone(false)) ==> d.lock.Some? || Performers(d) != {}
  {
    if run == [] {
    } else {
      var n := |run| - 1;
      var c := After(script, run[..n]).value;
      RefusalNeedsPerformer(script, run[..n], c);
      var e := run[n];
      if e.Unlock? {
        assert e.t in Performers(d);
      } else if d.lock == None {
        assert Performers(d) == Performers(c);
        assert forall t :: t in d.threads && d.threads[t] == Gone(false) ==>
                             t in c.threads && c.threads[t] == Gone(false);
      }
    }
  }

  lemma {:induction false} SubsetSize(a: set<nat>, b: set<nat>)
    requires a <= b
    ensures |a| <= |b|
    decreases |b|
  {
    if b == {} {
    } else {
      var x :| x in b;
      SubsetSize(a - {x}, b - {x});
    }
  }

  // There are no more performers than threads, and fewer while one holds the lock.
  lemma PerformersAreThreads<T>(d: Device<T>)
    ensures |Performers(d)| <= |d.threads|
    ensures d.lock.Some? && d.lock.value in d.threads && d.threads[d.lock.value].Holding? ==>
              |Performers(d)| < |d.threads|
  {
    var all := d.threads.Keys;
    SubsetSize(Performers(d), all);
    if d.lock.Some? && d.lock.value in d.threads && d.threads[d.lock.value].Holding? {
      SubsetSize(Performers(d) + {d.lock.value}, all);
    }
  }

  /** Once all threads have left, the trace is whole performances, at least one if there was
      any thread and at most one for each. */
  lemma SomeonePerforms<T>(script: seq<T>, run: seq<Event>, d: Device<T>)
    requires Reachable(script, run, d) && AllGone(d)
    ensures var k := |Performers(d)|;
      && d.lock == None && d.trace == Repeat(script, k)
      && k <= |d.threads| && (k == 0 <==> d.threads == map[])
  {
    TraceIsWholePerformances(script, run, d);
    RefusalNeedsPerformer(script, run, d);
    PerformersAreThreads(d);
    assert script[..0] == [];
    if t :| t in d.threads {
      assert d.threads[t] == Gone(false) || t in Performers(d);
    }
  }

  lemma {:induction false} Extend<T>(script: seq<T>, run: seq<Event>, d: Device<T>, more: seq<Event>, d': Device<T>)
    requires Reachable(script, run, d) && Steps(script, d, more, d')
    ensures Reachable(script, run + more, d')
    decreases |more|
  {
    if more == [] {
      assert run + more == run;
    } else {
      var c := Next(script, d, more[0]);
      AfterOneMore(script, run, more[0], d);
      Extend(script, run + [more[0]], c, more[1..], d');
      assert run + more == (run + [more[0]]) + more[1..];
    }
  }

  // Thread 0 in the given phase and m others that were refused.
  function Crowd(m: nat, first: Phase): map<nat, Phase> {
    if m == 0 then map[0 := first] else Crowd(m - 1, first)[m := Gone(false)]
  }

  lemma {:induction false} CrowdShape(m: nat, first: Phase)
    ensures var c := Crowd(m, first);
      && |c| == m + 1 && 0 in c && c[0] == first
      && forall t :: t in c ==> t <= m && (t != 0 ==> c[t] == Gone(false))
  {
    if m > 0 {
      CrowdShape(m - 1, first);
    }
  }

  lemma {:induction false} FirstMoves(m: nat, first: Phase, after: Phase)
    ensures Crowd(m, first)[0 := after] == Crowd(m, after)
  {
    if m == 0 {
    } else {
      FirstMoves(m - 1, first, after);
    }
  }

  // Thread t starts and is refused.
  lemma OneRefusedMore<T>(script: seq<T>, run: seq<Event>, d: Device<T>, t: nat)
    requires Reachable(script, run, d) && d.lock.Some? && t !in d.threads
    ensures Reachable(script, run + [Start(t)] + [TryLock(t)], d.(threads := d.threads[t := Gone(false)]))
  {
    var c := Next(script, d, Start(t));
    AfterOneMore(script, run, Start(t), d);
    AfterOneMore(script, run + [Start(t)], TryLock(t), c);
    assert c.threads[t := Gone(false)] == d.threads[t := Gone(false)];
  }

  // Thread 0 gets the lock and m others try it before it writes.
  lemma {:induction false} AllRefused<T>(script: seq<T>, m: nat) returns (run: seq<Event>)
    ensures Reachable(script, run, Device(Crowd(m, Holding(0)), Some(0), []))
  {
    if m == 0 {
      var c := Next(script, Idle(), Start(0));
      AfterOneMore(script, [], Start(0), Idle());
      AfterOneMore(script, [] + [Start(0)], TryLock(0), c);
      run := [] + [Start(0)] + [TryLock(0)];
      assert Next(script, c, TryLock(0)).threads == map[0 := Holding(0)];
    } else {
      var d := Device(Crowd(m - 1, Holding(0)), Some(0), []);
      run := AllRefused(script, m - 1);
      CrowdShape(m - 1, Holding(0));
      OneRefusedMore(script, run, d, m);
      run := run + [Start(m)] + [TryLock(m)];
    }
  }

  // A thread that is started and runs alone adds one performance.
  lemma OnePerformerMore<T>(script: seq<T>, run: seq<Event>, d: Device<T>, t: nat) returns (run': seq<Event>)
    requires Reachable(script, run, d) && d.lock == None && t !in d.threads
    ensures Reachable(script, run', Device(d.threads[t := Gone(true)], None, d.trace + script))
  {
    var c := Next(script, d, Start(t));
    AfterOneMore(script, run, Start(t), d);
    SoloThread(script, c, t);
    assert c.threads[t := Gone(true)] == d.threads[t := Gone(true)];
    run' := run + [Start(t)] + ([TryLock(t)] + Solo(script, t, 0));
    Extend(script, run + [Start(t)], c, [TryLock(t)] + Solo(script, t, 0),
           Device(d.threads[t := Gone(true)], None, d.trace + script));
  }

  // The threads are 0 to n - 1, all have left, and k of them performed.
  ghost predicate Ended<T>(d: Device<T>, n: nat, k: nat) {
    && AllGone(d) && d.lock == None && |Performers(d)| == k
    && |d.threads| == n && forall t :: t in d.threads ==> t < n
  }

  // One performs while all the others are refused.
  lemma AllButOneLost<T>(script: seq<T>, n: nat) returns (run: seq<Event>, d: Device<T>)
    requires n >= 1
    ensures Reachable(script, run, d) && Ended(d, n, 1)
  {
    var m := n - 1;
    var c := Device(Crowd(m, Holding(0)), Some(0), []);
    run := AllRefused(script, m);
    d := Device(Crowd(m, Gone(true)), None, script);
    CrowdShape(m, Holding(0));
    CrowdShape(m, Gone(true));
    FirstMoves(m, Holding(0), Gone(true));
    SoloFrom(script, c, 0, 0);
    assert [] + script[0..] == script;
    Extend(script, run, c, Solo(script, 0, 0), d);
    run := run + Solo(script, 0, 0);
    assert Performers(d) == {0};
  }

  lemma {:induction false} Attained<T>(script: seq<T>, n: nat, k: nat) returns (run: seq<Event>, d: Device<T>)
    requires 1 <= k <= n
    ensures Reachable(script, run, d) && Ended(d, n, k)
    decreases n
  {
    if k == 1 {
      run, d := AllButOneLost(script, n);
    } else {
      run, d := Attained(script, n - 1, k - 1);
      var was := Performers(d);
      run := OnePerformerMore(script, run, d, n - 1);
      d := Device(d.threads[n - 1 := Gone(true)], None, d.trace + script);
      assert Performers(d) == was + {n - 1};
    }
  }

  // Some run of n threads ends with k performances.
  ghost predicate CanPerform<T(!new)>(script: seq<T>, n: nat, k: nat) {
    exists run, d :: Reachable(script, run, d) && AllGone(d) && |d.threads| == n && |Performers(d)| == k
  }

  /** The possible numbers of performances of n requests are exactly 1 to n: requests that
      come while one performs are lost, and every number can be lost but all. */
  lemma PossiblePerformances<T(!new)>(script: seq<T>, n: nat, k: nat)
    requires n > 0
    ensures CanPerform(script, n, k) <==> 1 <= k <= n
  {
    if CanPerform(script, n, k) {
      var run, d :| Reachable(script, run, d) && AllGone(d) && |d.threads| == n && |Performers(d)| == k;
      SomeonePerforms(script, run, d);
    }
    if 1 <= k <= n {
      var run, d := Attained(script, n, k);
    }
  }
}
