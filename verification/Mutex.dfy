/**
 The mutex program chapter5/thread_mutex/thread_mutex.c, for any number of threads running
 either body.  `g_var++` and `g_var--` are a load and a store each, and the two printed reads
 around them are one step each.
 */
module Mutex {
  import opened Options

  datatype Kind = Inc | Dec

  // How far a thread is: before pthread_mutex_lock, inside with k of four steps done and the
  // loaded value in hand, or after pthread_mutex_unlock.
  datatype At = Waiting | Inside(k: nat, reg: int) | Finished

  datatype Thread = Thread(kind: Kind, at: At)

  datatype Note = Before(kind: Kind, value: int) | After(kind: Kind, value: int)

  datatype State = State(threads: seq<Thread>, owner: Option<nat>, gVar: int, printed: seq<Note>)

  function Change(kind: Kind): int {
    match kind
    case Inc => 1
    case Dec => -1
  }

  function Begin(kinds: seq<Kind>, g: int): State {
    State(seq(|kinds|, i requires 0 <= i < |kinds| => Thread(kinds[i], Waiting)), None, g, [])
  }

  // A waiting thread's step is taking the lock, possible only while it is free.
  predicate Enabled(s: State, t: nat) {
    && t < |s.threads|
    && match s.threads[t].at
       case Waiting => s.owner == None
       case Inside(_, _) => true
       case Finished => false
  }

  function Moved(s: State, t: nat, at: At): seq<Thread>
    requires t < |s.threads|
  {
    s.threads[t := s.threads[t].(at := at)]
  }

  // The next step of thread t.
  function Next(s: State, t: nat): State
    requires Enabled(s, t)
  {
    var kind := s.threads[t].kind;
    match s.threads[t].at
    case Waiting =>
      s.(threads := Moved(s, t, Inside(0, 0)), owner := Some(t))
    case Inside(k, reg) =>
      if k == 0 then s.(threads := Moved(s, t, Inside(1, reg)), printed := s.printed + [Before(kind, s.gVar)])
      else if k == 1 then s.(threads := Moved(s, t, Inside(2, s.gVar)))
      else if k == 2 then s.(threads := Moved(s, t, Inside(3, reg)), gVar := reg + Change(kind))
      else if k == 3 then s.(threads := Moved(s, t, Inside(4, reg)), printed := s.printed + [After(kind, s.gVar)])
      else s.(threads := Moved(s, t, Finished), owner := None)
  }

  /** The state after a schedule, a sequence of thread numbers; None if a step was blocked. */
  function Run(kinds: seq<Kind>, g: int, schedule: seq<nat>): Option<State> {
    if schedule == [] then Some(Begin(kinds, g))
    else
      var n := |schedule| - 1;
      match Run(kinds, g, schedule[..n])
      case None => None
      case Some(s) => if Enabled(s, schedule[n]) then Some(Next(s, schedule[n])) else None
  }

  // ---------- the serial program ----------

  // The threads in the order in which they took the lock.
  function Order(kinds: seq<Kind>, g: int, schedule: seq<nat>): seq<nat>
    requires Run(kinds, g, schedule).Some?
  {
    if schedule == [] then []
    else
      var n := |schedule| - 1;
      var s := Run(kinds, g, schedule[..n]).value;
      var rest := Order(kinds, g, schedule[..n]);
      if s.threads[schedule[n]].at == Waiting then rest + [schedule[n]] else rest
  }

  // What the bodies compute and print, called one after another in the given order.
  function SerialValue(kinds: seq<Kind>, g: int, order: seq<nat>): int {
    if order == [] then g
    else
      var n := |order| - 1;
      SerialValue(kinds, g, order[..n]) + (if order[n] < |kinds| then Change(kinds[order[n]]) else 0)
  }

  function SerialPrint(kinds: seq<Kind>, g: int, order: seq<nat>): seq<Note> {
    if order == [] then []
    else
      var n := |order| - 1;
      var v := SerialValue(kinds, g, order[..n]);
      var earlier := SerialPrint(kinds, g, order[..n]);
      if order[n] < |kinds| then
        var kind := kinds[order[n]];
        earlier + [Before(kind, v), After(kind, v + Change(kind))]
      else earlier
  }

  // The sum of the changes of the finished threads.
  function Net(threads: seq<Thread>): int {
    if threads == [] then 0
    else
      var last := threads[|threads| - 1];
      Net(threads[..|threads| - 1]) + (if last.at == Finished then Change(last.kind) else 0)
  }

  lemma {:induction false} NetUpdate(threads: seq<Thread>, t: nat, at: At)
    requires t < |threads| && threads[t].at != Finished
    ensures Net(threads[t := threads[t].(at := at)])
         == Net(threads) + (if at == Finished then Change(threads[t].kind) else 0)
  {
    var n := |threads| - 1;
    var after := threads[t := threads[t].(at := at)];
    if t < n {
      NetUpdate(threads[..n], t, at);
      assert after[..n] == threads[..n][t := threads[t].(at := at)];
    } else {
      assert after[..n] == threads[..n];
    }
  }

  lemma {:induction false} NetAtStart(kinds: seq<Kind>, g: int, n: nat)
    requires n <= |kinds|
    ensures Net(Begin(kinds, g).threads[..n]) == 0
  {
    if n == 0 {
    } else {
      NetAtStart(kinds, g, n - 1);
      assert Begin(kinds, g).threads[..n][..n - 1] == Begin(kinds, g).threads[..n - 1];
    }
  }

  // Finished increments and decrements, counted.
  lemma {:induction false} NetCounts(threads: seq<Thread>)
    ensures Net(threads) + multiset(threads)[Thread(Dec, Finished)] == multiset(threads)[Thread(Inc, Finished)]
  {
    if threads == [] {
    } else {
      var n := |threads| - 1;
      NetCounts(threads[..n]);
      assert threads == threads[..n] + [threads[n]];
    }
  }

  // ---------- what every schedule keeps ----------

  ghost predicate OwnerAlone(s: State) {
    && (forall t :: 0 <= t < |s.threads| && s.threads[t].at.Inside? ==> s.owner == Some(t) && s.threads[t].at.k <= 4)
    && (s.owner.Some? ==> s.owner.value < |s.threads| && s.threads[s.owner.value].at.Inside?)
  }

  // g and printed inside a critical section entered at value v with `out` printed.
  ghost predicate Midway(at: At, kind: Kind, v: int, out: seq<Note>, s: State)
    requires at.Inside?
  {
    && (at.k == 2 ==> at.reg == v)
    && s.gVar == (if at.k <= 2 then v else v + Change(kind))
    && s.printed == (if at.k == 0 then out
                     else if at.k <= 3 then out + [Before(kind, v)]
                     else out + [Before(kind, v), After(kind, v + Change(kind))])
  }

  // s is what the serial program gives after the critical sections in `order`, the last of
  // them unfinished if the lock is held.
  ghost predicate SerialSoFar(kinds: seq<Kind>, g: int, order: seq<nat>, s: State) {
    && OwnerAlone(s)
    && |s.threads| == |kinds|
    && (forall t :: 0 <= t < |kinds| ==> s.threads[t].kind == kinds[t])
    && if s.owner == None then
         && s.gVar == SerialValue(kinds, g, order)
         && s.printed == SerialPrint(kinds, g, order)
         && s.gVar == g + Net(s.threads)
       else
         && order != [] && order[|order| - 1] == s.owner.value
         && var t, done := s.owner.value, order[..|order| - 1];
            && SerialValue(kinds, g, done) == g + Net(s.threads)
            && Midway(s.threads[t].at, kinds[t], SerialValue(kinds, g, done), SerialPrint(kinds, g, done), s)
  }

  lemma LockStep(kinds: seq<Kind>, g: int, order: seq<nat>, s: State, t: nat)
    requires SerialSoFar(kinds, g, order, s) && Enabled(s, t) && s.threads[t].at == Waiting
    ensures SerialSoFar(kinds, g, order + [t], Next(s, t))
  {
    NetUpdate(s.threads, t, Inside(0, 0));
    assert (order + [t])[..|order|] == order;
  }

  lemma BodyStep(kinds: seq<Kind>, g: int, order: seq<nat>, s: State, t: nat)
    requires SerialSoFar(kinds, g, order, s) && Enabled(s, t)
    requires s.threads[t].at.Inside? && s.threads[t].at.k < 4
    ensures SerialSoFar(kinds, g, order, Next(s, t))
  {
    NetUpdate(s.threads, t, Next(s, t).threads[t].at);
  }

  lemma UnlockStep(kinds: seq<Kind>, g: int, order: seq<nat>, s: State, t: nat)
    requires SerialSoFar(kinds, g, order, s) && Enabled(s, t)
    requires s.threads[t].at.Inside? && s.threads[t].at.k == 4
    ensures SerialSoFar(kinds, g, order, Next(s, t))
  {
    NetUpdate(s.threads, t, Finished);
  }

  lemma {:induction false} SerialThroughout(kinds: seq<Kind>, g: int, schedule: seq<nat>, s: State)
    requires Run(kinds, g, schedule) == Some(s)
    ensures SerialSoFar(kinds, g, Order(kinds, g, schedule), s)
  {
    if schedule == [] {
      NetAtStart(kinds, g, |kinds|);
      assert s.threads[..|kinds|] == s.threads;
    } else {
      var n := |schedule| - 1;
      var c := Run(kinds, g, schedule[..n]).value;
      var t := schedule[n];
      var order := Order(kinds, g, schedule[..n]);
      SerialThroughout(kinds, g, schedule[..n], c);
      if c.threads[t].at == Waiting {
        LockStep(kinds, g, order, c, t);
      } else if c.threads[t].at.k < 4 {
        BodyStep(kinds, g, order, c, t);
      } else {
        UnlockStep(kinds, g, order, c, t);
      }
    }
  }

  /** Whenever the mutex is free, the variable and everything printed are what running the
      same critical sections one after another, in the order the lock was taken, would give,
      and the variable is its start value plus finished increments less finished decrements. */
  lemma EveryScheduleIsSerial(kinds: seq<Kind>, g: int, schedule: seq<nat>, s: State)
    requires Run(kinds, g, schedule) == Some(s) && s.owner == None
    ensures s.gVar == SerialValue(kinds, g, Order(kinds, g, schedule))
    ensures s.printed == SerialPrint(kinds, g, Order(kinds, g, schedule))
    ensures s.gVar == g + multiset(s.threads)[Thread(Inc, Finished)] - multiset(s.threads)[Thread(Dec, Finished)]
  {
    SerialThroughout(kinds, g, schedule, s);
    NetCounts(s.threads);
  }

  // The threads in the order are those that have got the lock, and none is in it twice.
  ghost predicate Named(order: seq<nat>, s: State) {
    && (forall t: nat :: t in order <==> t < |s.threads| && s.threads[t].at != Waiting)
    && forall i, j :: 0 <= i < j < |order| ==> order[i] != order[j]
  }

  lemma NamedAfterStep(order: seq<nat>, s: State, t: nat)
    requires Named(order, s) && Enabled(s, t)
    ensures Named(if s.threads[t].at == Waiting then order + [t] else order, Next(s, t))
  {
    var at := Next(s, t).threads[t].at;
    assert at != Waiting && Next(s, t).threads == Moved(s, t, at);
  }

  /** That order names exactly the threads that have got the lock, each once. */
  lemma {:induction false} OrderNamesEachOnce(kinds: seq<Kind>, g: int, schedule: seq<nat>, s: State)
    requires Run(kinds, g, schedule) == Some(s)
    ensures var order := Order(kinds, g, schedule);
      && (forall t: nat :: t in order <==> t < |s.threads| && s.threads[t].at != Waiting)
      && (forall i, j :: 0 <= i < j < |order| ==> order[i] != order[j])
  {
    if schedule == [] {
    } else {
      var n := |schedule| - 1;
      var c := Run(kinds, g, schedule[..n]).value;
      OrderNamesEachOnce(kinds, g, schedule[..n], c);
      NamedAfterStep(Order(kinds, g, schedule[..n]), c, schedule[n]);
    }
  }

  /** At most one thread is ever inside, and no deadlock is reachable: until all threads have
      finished some step is enabled. */
  lemma ExclusiveAndNeverStuck(kinds: seq<Kind>, g: int, schedule: seq<nat>, s: State)
    requires Run(kinds, g, schedule) == Some(s)
    ensures forall t, u ::
              (0 <= t < |s.threads| && 0 <= u < |s.threads| && s.threads[t].at.Inside? && s.threads[u].at.Inside?)
              ==> t == u
    ensures (exists t :: 0 <= t < |s.threads| && s.threads[t].at != Finished) ==> exists t: nat :: Enabled(s, t)
  {
    SerialThroughout(kinds, g, schedule, s);
    if s.owner.Some? {
      assert Enabled(s, s.owner.value);
    } else if t :| 0 <= t < |s.threads| && s.threads[t].at != Finished {
      assert Enabled(s, t);
    }
  }

  // ---------- every schedule ends ----------

  function StepsTaken(at: At): nat {
    match at
    case Waiting => 0
    case Inside(k, _) => k + 1
    case Finished => 6
  }

  function Sum(threads: seq<Thread>): nat {
    if threads == [] then 0 else Sum(threads[..|threads| - 1]) + StepsTaken(threads[|threads| - 1].at)
  }

  lemma {:induction false} SumUpdate(threads: seq<Thread>, t: nat, at: At)
    requires t < |threads|
    ensures Sum(threads[t := threads[t].(at := at)]) == Sum(threads) - StepsTaken(threads[t].at) + StepsTaken(at)
  {
    var n := |threads| - 1;
    var after := threads[t := threads[t].(at := at)];
    if t < n {
      SumUpdate(threads[..n], t, at);
      assert after[..n] == threads[..n][t := threads[t].(at := at)];
    } else {
      assert after[..n] == threads[..n];
    }
  }

  lemma {:induction false} SumBound(threads: seq<Thread>)
    requires forall t :: 0 <= t < |threads| && threads[t].at.Inside? ==> threads[t].at.k <= 4
    ensures Sum(threads) <= 6 * |threads|
    ensures Sum(threads) == 6 * |threads| <==> forall t :: 0 <= t < |threads| ==> threads[t].at == Finished
  {
    if threads == [] {
    } else {
      var n := |threads| - 1;
      SumBound(threads[..n]);
      if Sum(threads) == 6 * |threads| {
        assert forall t :: 0 <= t < n ==> threads[t] == threads[..n][t];
      }
    }
  }

  lemma {:induction false} SumAtStart(threads: seq<Thread>)
    requires forall t :: 0 <= t < |threads| ==> threads[t].at == Waiting
    ensures Sum(threads) == 0
  {
    if threads == [] {
    } else {
      SumAtStart(threads[..|threads| - 1]);
    }
  }

  lemma {:induction false} ScheduleLength(kinds: seq<Kind>, g: int, schedule: seq<nat>, s: State)
    requires Run(kinds, g, schedule) == Some(s)
    ensures |schedule| == Sum(s.threads) && |s.threads| == |kinds|
  {
    if schedule == [] {
      SumAtStart(s.threads);
    } else {
      var n := |schedule| - 1;
      var c := Run(kinds, g, schedule[..n]).value;
      ScheduleLength(kinds, g, schedule[..n], c);
      SerialThroughout(kinds, g, schedule[..n], c);
      SumUpdate(c.threads, schedule[n], s.threads[schedule[n]].at);
    }
  }

  /** Every schedule has at most six steps a thread, and has them all exactly when every
      thread has finished; with no deadlock reachable, every schedule can be run to the end. */
  lemma EveryScheduleFinishes(kinds: seq<Kind>, g: int, schedule: seq<nat>, s: State)
    requires Run(kinds, g, schedule) == Some(s)
    ensures |schedule| <= 6 * |kinds|
    ensures |schedule| == 6 * |kinds| <==> forall t :: 0 <= t < |s.threads| ==> s.threads[t].at == Finished
  {
    ScheduleLength(kinds, g, schedule, s);
    SerialThroughout(kinds, g, schedule, s);
    SumBound(s.threads);
  }

  // ---------- one thread undisturbed ----------

  predicate Steps(s: State, schedule: seq<nat>, t: State)
    decreases |schedule|
  {
    if schedule == [] then s == t
    else Enabled(s, schedule[0]) && Steps(Next(s, schedule[0]), schedule[1..], t)
  }

  /** A thread scheduled alone from a free lock has the effect its function's contract states:
      an increment raises the variable by one, a decrement lowers it by one, and the values
      before and after are printed. */
  lemma SoloThread(s: State, t: nat)
    requires s.owner == None && t < |s.threads| && s.threads[t].at == Waiting
    ensures var kind := s.threads[t].kind;
      var after := if kind == Inc then s.gVar + 1 else s.gVar - 1;
      Steps(s, [t, t, t, t, t, t],
            State(Moved(s, t, Finished), None, after, s.printed + [Before(kind, s.gVar), After(kind, after)]))
  {
    var kind := s.threads[t].kind;
    var s1 := Next(s, t);
    var s2 := Next(s1, t);
    var s3 := Next(s2, t);
    var s4 := Next(s3, t);
    var s5 := Next(s4, t);
    var s6 := Next(s5, t);
    assert s6.threads == Moved(s, t, Finished);
    assert s6.printed == s.printed + [Before(kind, s.gVar), After(kind, s.gVar + Change(kind))];
    assert Steps(s6, [], s6);
    assert Steps(s5, [t], s6) by { assert [t][1..] == []; }
    assert Steps(s4, [t, t], s6) by { assert [t, t][1..] == [t]; }
    assert Steps(s3, [t, t, t], s6) by { assert [t, t, t][1..] == [t, t]; }
    assert Steps(s2, [t, t, t, t], s6) by { assert [t, t, t, t][1..] == [t, t, t]; }
    assert Steps(s1, [t, t, t, t, t], s6) by { assert [t, t, t, t, t][1..] == [t, t, t, t]; }
    assert [t, t, t, t, t, t][1..] == [t, t, t, t, t];
  }

  // ---------- the final value ----------

  lemma {:induction false} FinishedCounts(kinds: seq<Kind>, threads: seq<Thread>, kind: Kind)
    requires |threads| == |kinds|
    requires forall t :: 0 <= t < |kinds| ==> threads[t] == Thread(kinds[t], Finished)
    ensures multiset(threads)[Thread(kind, Finished)] == multiset(kinds)[kind]
  {
    if kinds == [] {
    } else {
      var n := |kinds| - 1;
      FinishedCounts(kinds[..n], threads[..n], kind);
      assert kinds == kinds[..n] + [kinds[n]] && threads == threads[..n] + [threads[n]];
    }
  }

  /** When every thread has finished the variable is its start value plus the increments of the
      program less its decrements; the program's own two threads leave it at the 1 it started
      from. */
  lemma FinalValue(kinds: seq<Kind>, g: int, schedule: seq<nat>, s: State)
    requires Run(kinds, g, schedule) == Some(s)
    requires forall t :: 0 <= t < |s.threads| ==> s.threads[t].at == Finished
    ensures s.gVar == g + multiset(kinds)[Inc] - multiset(kinds)[Dec]
    ensures kinds == [Inc, Dec] && g == 1 ==> s.gVar == 1
  {
    SerialThroughout(kinds, g, schedule, s);
    NetCounts(s.threads);
    FinishedCounts(kinds, s.threads, Inc);
    FinishedCounts(kinds, s.threads, Dec);
  }

  // ---------- the program text ----------

  /** The globals, with each thread function as it behaves when it runs undisturbed. */
  class Globals {
    var gVar: int
    var locked: bool
    var printed: seq<Note>

    constructor ()
      ensures gVar == 1 && !locked && printed == []
    {
      gVar, locked, printed := 1, false, [];
    }

    method IncFunction()
      requires !locked
      modifies this
      ensures !locked && gVar == old(gVar) + 1
      ensures printed == old(printed) + [Before(Inc, old(gVar)), After(Inc, old(gVar) + 1)]
    {
      locked := true;
      printed := printed + [Before(Inc, gVar)];
      gVar := gVar + 1;
      printed := printed + [After(Inc, gVar)];
      locked := false;
    }

    method DecFunction()
      requires !locked
      modifies this
      ensures !locked && gVar == old(gVar) - 1
      ensures printed == old(printed) + [Before(Dec, old(gVar)), After(Dec, old(gVar) - 1)]
    {
      locked := true;
      printed := printed + [Before(Dec, gVar)];
      gVar := gVar - 1;
      printed := printed + [After(Dec, gVar)];
      locked := false;
    }
  }
}
