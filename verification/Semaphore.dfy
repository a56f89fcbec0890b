/**
 The semaphore program chapter5/thread/thread.c, for any number of rounds.

 `cnt++` and `cnt--` are a load and a store each, and the semaphore does not keep the two
 threads out of each other's updates: V increments before it posts.  The semaphore's own value
 is exact in every interleaving.  A finished run kept the printed count exact throughout if and
 only if no two updates overlapped; with overlaps the count can end anywhere from -rounds to
 rounds.
 */
module Semaphore {
  import opened Options

  // Where ptheadV and ptheadP are in their loop bodies.
  datatype AtV = TopV | LoadedV(reg: int) | StoredV
  datatype AtP = TopP | TakenP | LoadedP(reg: int)

  datatype State = State(sem: int, cnt: int, v: AtV, vRounds: nat, p: AtP, pRounds: nat)

  datatype Move = LoadV | StoreV | PostV | WaitP | LoadP | StoreP

  function Initial(): State {
    State(1, 0, TopV, 0, TopP, 0)
  }

  predicate Enabled(n: nat, s: State, m: Move) {
    match m
    case LoadV => s.v == TopV && s.vRounds < n
    case StoreV => s.v.LoadedV?
    case PostV => s.v == StoredV
    case WaitP => s.p == TopP && s.pRounds < n && s.sem > 0   // semop blocks at zero
    case LoadP => s.p == TakenP
    case StoreP => s.p.LoadedP?
  }

  function Next(n: nat, s: State, m: Move): State
    requires Enabled(n, s, m)
  {
    match m
    case LoadV => s.(v := LoadedV(s.cnt))
    case StoreV => s.(v := StoredV, cnt := s.v.reg + 1)
    case PostV => s.(v := TopV, vRounds := s.vRounds + 1, sem := s.sem + 1)
    case WaitP => s.(p := TakenP, sem := s.sem - 1)
    case LoadP => s.(p := LoadedP(s.cnt))
    case StoreP => s.(p := TopP, pRounds := s.pRounds + 1, cnt := s.p.reg - 1)
  }

  /** The state a run leads to; None if some step was not enabled. */
  function After(n: nat, run: seq<Move>): Option<State> {
    if run == [] then Some(Initial())
    else
      var k := |run| - 1;
      match After(n, run[..k])
      case None => None
      case Some(s) => if Enabled(n, s, run[k]) then Some(Next(n, s, run[k])) else None
  }

  predicate Finished(n: nat, s: State) {
    s.v == TopV && s.p == TopP && s.vRounds == n && s.pRounds == n
  }

  // ---------- the semaphore ----------

  function Posts(s: State): nat {
    s.vRounds
  }

  function Waits(s: State): nat {
    s.pRounds + if s.p == TopP then 0 else 1
  }

  // Stores of cnt so far.
  function Increments(s: State): nat {
    s.vRounds + if s.v == StoredV then 1 else 0
  }

  function Decrements(s: State): nat {
    s.pRounds
  }

  function StepsTaken(s: State): nat {
    3 * s.vRounds + (match s.v case TopV => 0 case LoadedV(_) => 1 case StoredV => 2)
    + 3 * s.pRounds + (match s.p case TopP => 0 case TakenP => 1 case LoadedP(_) => 2)
  }

  // The semaphore's value, and no round past the last.
  predicate Counted(n: nat, s: State) {
    && s.sem == 1 + Posts(s) - Waits(s) && s.sem >= 0
    && s.vRounds <= n && (s.vRounds == n ==> s.v == TopV)
    && s.pRounds <= n && (s.pRounds == n ==> s.p == TopP)
  }

  lemma CountedStep(n: nat, s: State, m: Move)
    requires Counted(n, s) && Enabled(n, s, m)
    ensures Counted(n, Next(n, s, m)) && StepsTaken(Next(n, s, m)) == StepsTaken(s) + 1
  {
  }

  lemma {:induction false} CountedThroughout(n: nat, run: seq<Move>, s: State)
    requires After(n, run) == Some(s)
    ensures Counted(n, s) && |run| == StepsTaken(s)
  {
    if run == [] {
    } else {
      var k := |run| - 1;
      var c := After(n, run[..k]).value;
      CountedThroughout(n, run[..k], c);
      CountedStep(n, c, run[k]);
    }
  }

  /** In every interleaving the semaphore is one plus the completed v's less the completed
      p's and never negative, and no round is started beyond the last. */
  lemma {:induction false} SemaphoreIsExact(n: nat, run: seq<Move>, s: State)
    requires After(n, run) == Some(s)
    ensures s.sem == 1 + Posts(s) - Waits(s) && s.sem >= 0
    ensures s.vRounds <= n && (s.vRounds == n ==> s.v == TopV)
    ensures s.pRounds <= n && (s.pRounds == n ==> s.p == TopP)
    ensures |run| == StepsTaken(s)
  {
    CountedThroughout(n, run, s);
  }

  /** No deadlock: until both threads have finished, some step is enabled. */
  lemma NeverStuck(n: nat, run: seq<Move>, s: State)
    requires After(n, run) == Some(s) && !Finished(n, s)
    ensures exists m :: Enabled(n, s, m)
  {
    SemaphoreIsExact(n, run, s);
    if s.v != TopV || s.vRounds < n {
      var m := match s.v case TopV => LoadV case LoadedV(_) => StoreV case StoredV => PostV;
      assert Enabled(n, s, m);
    } else {
      var m := match s.p case TopP => WaitP case TakenP => LoadP case LoadedP(_) => StoreP;
      assert Enabled(n, s, m);
    }
  }

  /** Every run has at most six steps a round, ends by finishing both threads exactly when it
      has them all, and then leaves the semaphore at one. */
  lemma EveryRunFinishes(n: nat, run: seq<Move>, s: State)
    requires After(n, run) == Some(s)
    ensures |run| <= 6 * n
    ensures |run| == 6 * n <==> Finished(n, s)
    ensures Finished(n, s) ==> s.sem == 1
  {
    SemaphoreIsExact(n, run, s);
  }

  // ---------- the count ----------

  // The count a state would have if no update had been lost.
  function Exact(s: State): int {
    s.sem - 1 + (if s.v == StoredV then 1 else 0) + (if s.p == TopP then 0 else 1)
  }

  // No state of the run has both threads between their load and their store.
  predicate NoOverlap(n: nat, run: seq<Move>)
    requires After(n, run).Some?
  {
    && !(After(n, run).value.v.LoadedV? && After(n, run).value.p.LoadedP?)
    && (run != [] ==> NoOverlap(n, run[..|run| - 1]))
  }

  /** While updates do not overlap the count is the semaphore less one, plus one for a v still
      to come and one for a decrement still to come; so it never falls below -1 and ends at 0. */
  lemma {:induction false} CountIsExactWithoutOverlap(n: nat, run: seq<Move>, s: State)
    requires After(n, run) == Some(s) && NoOverlap(n, run)
    ensures s.cnt == Exact(s)
    ensures s.cnt >= -1
    ensures Finished(n, s) ==> s.cnt == 0
    ensures (s.v.LoadedV? ==> s.v.reg == s.cnt) && (s.p.LoadedP? ==> s.p.reg == s.cnt)
  {
    SemaphoreIsExact(n, run, s);
    if run == [] {
    } else {
      var k := |run| - 1;
      CountIsExactWithoutOverlap(n, run[..k], After(n, run[..k]).value);
    }
  }

  // The count was exact in every state of the run.
  predicate AlwaysExact(n: nat, run: seq<Move>)
    requires After(n, run).Some?
  {
    && After(n, run).value.cnt == Exact(After(n, run).value)
    && (run != [] ==> AlwaysExact(n, run[..|run| - 1]))
  }

  lemma {:induction false} NoOverlapIsAlwaysExact(n: nat, run: seq<Move>)
    requires After(n, run).Some? && NoOverlap(n, run)
    ensures AlwaysExact(n, run)
  {
    CountIsExactWithoutOverlap(n, run, After(n, run).value);
    if run == [] {
    } else {
      NoOverlapIsAlwaysExact(n, run[..|run| - 1]);
    }
  }

  // Some thread's update is open, with both open or with a copy the count has moved past.
  predicate Tangled(s: State) {
    || (s.v.LoadedV? && s.p.LoadedP?)
    || (s.v.LoadedV? && s.v.reg != s.cnt)
    || (s.p.LoadedP? && s.p.reg != s.cnt)
  }

  /** While the count stays exact, an overlap leaves one thread with an update that can no
      longer be stored correctly: V's copy is too high or P's too low, and stays so. */
  lemma {:induction false} OverlapStaysOpen(n: nat, run: seq<Move>, s: State)
    requires After(n, run) == Some(s) && AlwaysExact(n, run)
    ensures s.v.LoadedV? ==> s.v.reg >= s.cnt
    ensures s.p.LoadedP? ==> s.p.reg <= s.cnt
    ensures !NoOverlap(n, run) ==> Tangled(s)
  {
    if run == [] {
      assert !s.v.LoadedV? && !s.p.LoadedP?;
    } else {
      var k := |run| - 1;
      OverlapStaysOpen(n, run[..k], After(n, run[..k]).value);
    }
  }

  /** A finished run kept the count exact in every state if and only if no state of it had
      both threads between their load and their store. */
  lemma {:induction false} ExactIffNoOverlap(n: nat, run: seq<Move>, s: State)
    requires After(n, run) == Some(s) && Finished(n, s)
    ensures AlwaysExact(n, run) <==> NoOverlap(n, run)
  {
    if AlwaysExact(n, run) {
      OverlapStaysOpen(n, run, s);
    }
    if NoOverlap(n, run) {
      NoOverlapIsAlwaysExact(n, run);
    }
  }

  /** In any interleaving the count, and any copy a thread holds, lies between minus the
      decrements and the increments stored so far. */
  lemma {:induction false} CountIsBounded(n: nat, run: seq<Move>, s: State)
    requires After(n, run) == Some(s)
    ensures 0 - Decrements(s) <= s.cnt <= Increments(s)
    ensures s.v.LoadedV? ==> 0 - Decrements(s) <= s.v.reg <= Increments(s)
    ensures s.p.LoadedP? ==> 0 - Decrements(s) <= s.p.reg <= Increments(s)
  {
    if run == [] {
    } else {
      var k := |run| - 1;
      CountIsBounded(n, run[..k], After(n, run[..k]).value);
    }
  }

  // Both threads at the top of their loops after k rounds each.
  function Quiet(k: nat, c: int): State {
    State(1, c, TopV, k, TopP, k)
  }

  // One round of each thread: in turn, losing the decrement, or losing the increment.
  function Round(drift: int): seq<Move> {
    if drift > 0 then [WaitP, LoadV, LoadP, StoreP, StoreV, PostV]
    else if drift < 0 then [WaitP, LoadP, LoadV, StoreV, StoreP, PostV]
    else [LoadV, StoreV, PostV, WaitP, LoadP, StoreP]
  }

  lemma AfterStep(n: nat, run: seq<Move>, m: Move, s: State)
    requires After(n, run) == Some(s) && Enabled(n, s, m)
    ensures After(n, run + [m]) == Some(Next(n, s, m))
  {
    assert (run + [m])[..|run|] == run;
  }

  // Six steps in a row.
  lemma AfterSix(n: nat, run: seq<Move>, ms: seq<Move>, s: seq<State>)
    requires |ms| == 6 && |s| == 7 && After(n, run) == Some(s[0])
    requires forall i :: 0 <= i < 6 ==> Enabled(n, s[i], ms[i]) && s[i + 1] == Next(n, s[i], ms[i])
    ensures After(n, run + ms) == Some(s[6])
  {
    var i := 0;
    assert run + ms[..0] == run;
    while i < 6
      invariant 0 <= i <= 6 && After(n, run + ms[..i]) == Some(s[i])
    {
      AfterStep(n, run + ms[..i], ms[i], s[i]);
      assert run + ms[..i] + [ms[i]] == run + ms[..i + 1];
      i := i + 1;
    }
    assert ms[..6] == ms;
  }

  // The states a round passes through.
  function RoundStates(k: nat, c: int, drift: int): (s: seq<State>)
    ensures |s| == 7
  {
    if drift > 0 then
      [Quiet(k, c), State(0, c, TopV, k, TakenP, k), State(0, c, LoadedV(c), k, TakenP, k),
       State(0, c, LoadedV(c), k, LoadedP(c), k), State(0, c - 1, LoadedV(c), k, TopP, k + 1),
       State(0, c + 1, StoredV, k, TopP, k + 1), Quiet(k + 1, c + 1)]
    else if drift < 0 then
      [Quiet(k, c), State(0, c, TopV, k, TakenP, k), State(0, c, TopV, k, LoadedP(c), k),
       State(0, c, LoadedV(c), k, LoadedP(c), k), State(0, c + 1, StoredV, k, LoadedP(c), k),
       State(0, c - 1, StoredV, k, TopP, k + 1), Quiet(k + 1, c - 1)]
    else
      [Quiet(k, c), State(1, c, LoadedV(c), k, TopP, k), State(1, c + 1, StoredV, k, TopP, k),
       State(2, c + 1, TopV, k + 1, TopP, k), State(1, c + 1, TopV, k + 1, TakenP, k),
       State(1, c + 1, TopV, k + 1, LoadedP(c + 1), k), Quiet(k + 1, c)]
  }

  lemma AfterRound(n: nat, run: seq<Move>, k: nat, c: int, drift: int)
    requires k < n && -1 <= drift <= 1 && After(n, run) == Some(Quiet(k, c))
    ensures After(n, run + Round(drift)) == Some(Quiet(k + 1, c + drift))
  {
    AfterSix(n, run, Round(drift), RoundStates(k, c, drift));
  }

  lemma {:induction false} Drift(n: nat, k: nat, c: int) returns (run: seq<Move>)
    requires k <= n && 0 - k <= c <= k
    ensures After(n, run) == Some(Quiet(k, c))
  {
    if k == 0 {
      run := [];
    } else {
      var drift := if c > 0 then 1 else if c < 0 then -1 else 0;
      run := Drift(n, k - 1, c - drift);
      AfterRound(n, run, k - 1, c - drift, drift);
      run := run + Round(drift);
    }
  }

  ghost predicate CanEndAt(n: nat, c: int) {
    exists run :: After(n, run).Some? && Finished(n, After(n, run).value) && After(n, run).value.cnt == c
  }

  /** The final counts of the program with its real, interruptible updates are exactly the
      numbers from -n to n: unprotected updates can be lost in either direction, every round. */
  lemma FinalCounts(n: nat, c: int)
    ensures CanEndAt(n, c) <==> 0 - n <= c <= n
  {
    if 0 - n <= c <= n {
      var run := Drift(n, n, c);
      assert Finished(n, After(n, run).value);
    }
    if run :| After(n, run).Some? && Finished(n, After(n, run).value) && After(n, run).value.cnt == c {
      CountIsBounded(n, run, After(n, run).value);
    }
  }

  // ---------- one thread undisturbed ----------

  predicate Steps(n: nat, s: State, run: seq<Move>, t: State)
    decreases |run|
  {
    if run == [] then s == t
    else Enabled(n, s, run[0]) && Steps(n, Next(n, s, run[0]), run[1..], t)
  }

  function Rounds(body: seq<Move>, k: nat): seq<Move> {
    if k == 0 then [] else body + Rounds(body, k - 1)
  }

  lemma ThreeSteps(n: nat, s: State, a: Move, b: Move, c: Move, rest: seq<Move>, t: State)
    requires Enabled(n, s, a) && Enabled(n, Next(n, s, a), b) && Enabled(n, Next(n, Next(n, s, a), b), c)
    requires Steps(n, Next(n, Next(n, Next(n, s, a), b), c), rest, t)
    ensures Steps(n, s, [a, b, c] + rest, t)
  {
    var run := [a, b, c] + rest;
    assert run[1..][0] == b && run[1..][1..][0] == c && run[1..][1..][1..] == rest;
  }

  /** Scheduled alone for k rounds, V has the effect PtheadV's contract states. */
  lemma {:induction false} SoloV(n: nat, s: State, k: nat)
    requires s.v == TopV && s.vRounds + k <= n
    ensures Steps(n, s, Rounds([LoadV, StoreV, PostV], k),
                  s.(sem := s.sem + k, cnt := s.cnt + k, vRounds := s.vRounds + k))
    decreases k
  {
    if k == 0 {
      assert Rounds([LoadV, StoreV, PostV], 0) == [];
    } else {
      var t := s.(sem := s.sem + 1, cnt := s.cnt + 1, vRounds := s.vRounds + 1);
      SoloV(n, t, k - 1);
      ThreeSteps(n, s, LoadV, StoreV, PostV, Rounds([LoadV, StoreV, PostV], k - 1),
                 t.(sem := t.sem + (k - 1), cnt := t.cnt + (k - 1), vRounds := t.vRounds + (k - 1)));
    }
  }

  /** Scheduled alone for k rounds the semaphore allows, P has the effect PtheadP's contract
      states. */
  lemma {:induction false} SoloP(n: nat, s: State, k: nat)
    requires s.p == TopP && s.pRounds + k <= n && s.sem >= k
    ensures Steps(n, s, Rounds([WaitP, LoadP, StoreP], k),
                  s.(sem := s.sem - k, cnt := s.cnt - k, pRounds := s.pRounds + k))
    decreases k
  {
    if k == 0 {
      assert Rounds([WaitP, LoadP, StoreP], 0) == [];
    } else {
      var t := s.(sem := s.sem - 1, cnt := s.cnt - 1, pRounds := s.pRounds + 1);
      SoloP(n, t, k - 1);
      ThreeSteps(n, s, WaitP, LoadP, StoreP, Rounds([WaitP, LoadP, StoreP], k - 1),
                 t.(sem := t.sem - (k - 1), cnt := t.cnt - (k - 1), pRounds := t.pRounds + (k - 1)));
    }
  }

  // ---------- the program text ----------

  /** The shared state, with each thread function as it behaves when it runs undisturbed. */
  class Shared {
    var sem: int
    var cnt: int

    constructor ()
      ensures sem == 1 && cnt == 0
    {
      sem, cnt := 1, 0;
    }

    // semop with sem_op -1: the caller is let through only at a positive value.
    method P()
      requires sem > 0
      modifies this`sem
      ensures sem == old(sem) - 1
    {
      sem := sem - 1;
    }

    method V()
      modifies this`sem
      ensures sem == old(sem) + 1
    {
      sem := sem + 1;
    }

    method PtheadV(rounds: nat)
      modifies this
      ensures sem == old(sem) + rounds && cnt == old(cnt) + rounds
    {
      var i := 0;
      while i < rounds
        invariant 0 <= i <= rounds && sem == old(sem) + i && cnt == old(cnt) + i
      {
        cnt := cnt + 1;
        V();
        i := i + 1;
      }
    }

    method PtheadP(rounds: nat)
      requires sem >= rounds
      modifies this
      ensures sem == old(sem) - rounds && cnt == old(cnt) - rounds
    {
      var i := 0;
      while i < rounds
        invariant 0 <= i <= rounds && sem == old(sem) - i && cnt == old(cnt) - i
      {
        P();
        cnt := cnt - 1;
        i := i + 1;
      }
    }
  }
}
