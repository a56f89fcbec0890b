/**
 Requests and workers of chapter6/rpi6/rpi6.c together.

 Connections are handled one after another, so the commands of all requests form one sequence;
 `RequestServer.Server.Serve` shows which.  A music or motor command starts a worker thread.
 A run interleaves the commands with the steps of all the workers started so far.
 */
module WebControl {
  import opened Actuators
  import opened Levels
  import opened Options
  import opened Requests

  // The commands issued so far, the devices with their threads, and the LED.
  datatype System = System(issued: seq<Command>, board: Board, led: bool)

  // Issue(c, t): the connection acts on command c, and t is the thread it starts, if any.
  datatype Step = Issue(c: Command, t: nat) | Work(e: BoardEvent)

  // The thread start that a command means.
  function Starts(c: Command, t: nat): Option<BoardEvent> {
    match c
    case PlayMusic => Some(Music(Start(t)))
    case RunMotor => Some(Motor(Start(t)))
    case _ => None
  }

  predicate IsStart(e: BoardEvent) {
    match e
    case Music(x) => x.Start?
    case Motor(x) => x.Start?
  }

  // The devices' part of a step.
  function OnBoard(x: Step): Option<BoardEvent> {
    match x
    case Issue(c, t) => Starts(c, t)
    case Work(e) => Some(e)
  }

  function BoardRun(run: seq<Step>): seq<BoardEvent> {
    if run == [] then []
    else
      var before := BoardRun(run[..|run| - 1]);
      match OnBoard(run[|run| - 1])
      case None => before
      case Some(e) => before + [e]
  }

  predicate CanStep(cs: seq<Command>, s: System, x: Step) {
    && (OnBoard(x).Some? ==> BoardEnabled(s.board, OnBoard(x).value))
    && match x
       case Issue(c, _) => |s.issued| < |cs| && c == cs[|s.issued|]
       case Work(e) => !IsStart(e)
  }

  function BoardStep(b: Board, e: Option<BoardEvent>): Board
    requires e.Some? ==> BoardEnabled(b, e.value)
  {
    match e
    case None => b
    case Some(x) => BoardNext(b, x)
  }

  function StepFrom(cs: seq<Command>, s: System, x: Step): System
    requires CanStep(cs, s, x)
  {
    var board := BoardStep(s.board, OnBoard(x));
    match x
    case Issue(c, _) => System(s.issued + [c], board, LedAfter(s.led, [c]))
    case Work(_) => s.(board := board)
  }

  /** The state after a run of the server on the given commands; None if some step was not
      possible. */
  function SystemAfter(cs: seq<Command>, led: bool, run: seq<Step>): Option<System> {
    if run == [] then Some(System([], Board(Idle(), Idle()), led))
    else
      var n := |run| - 1;
      match SystemAfter(cs, led, run[..n])
      case None => None
      case Some(s) => if CanStep(cs, s, run[n]) then Some(StepFrom(cs, s, run[n])) else None
  }

  // A thread for every command that starts one, and the LED as the commands leave it.
  ghost predicate Accounted(cs: seq<Command>, led: bool, s: System) {
    && |s.issued| <= |cs| && s.issued == cs[..|s.issued|]
    && |s.board.music.threads| == multiset(s.issued)[PlayMusic]
    && |s.board.motor.threads| == multiset(s.issued)[RunMotor]
    && s.led == LedAfter(led, s.issued)
  }

  lemma BoardAfterOneMore(run: seq<BoardEvent>, b: Board, e: BoardEvent)
    requires BoardAfter(run) == Some(b) && BoardEnabled(b, e)
    ensures BoardAfter(run + [e]) == Some(BoardNext(b, e))
  {
    assert (run + [e])[..|run|] == run;
  }

  lemma IssueKeepsCount(cs: seq<Command>, led: bool, s: System, c: Command, t: nat)
    requires Accounted(cs, led, s) && CanStep(cs, s, Issue(c, t))
    ensures Accounted(cs, led, StepFrom(cs, s, Issue(c, t)))
  {
    var more := s.issued + [c];
    assert more[..|s.issued|] == s.issued && more == cs[..|more|];
    LedAfterMore(led, s.issued, [c]);
  }

  // A step other than a start adds no thread.
  lemma WorkAddsNoThread<T>(script: seq<T>, d: Device<T>, e: Event)
    requires Enabled(script, d, e) && !e.Start?
    ensures |Next(script, d, e).threads| == |d.threads|
  {
    assert Next(script, d, e).threads.Keys == d.threads.Keys;
  }

  lemma WorkKeepsCount(cs: seq<Command>, led: bool, s: System, e: BoardEvent)
    requires Accounted(cs, led, s) && CanStep(cs, s, Work(e))
    ensures Accounted(cs, led, StepFrom(cs, s, Work(e)))
  {
    match e
    case Music(x) => WorkAddsNoThread(NOTES, s.board.music, x);
    case Motor(x) => WorkAddsNoThread(MOTOR_SESSION, s.board.motor, x);
  }

  /** Every run of the server is a run of the two devices whose starts are exactly the music
      and motor commands issued, which are the requests' commands in order. */
  lemma {:induction false} RunsAreBoardRuns(cs: seq<Command>, led: bool, run: seq<Step>, s: System)
    requires SystemAfter(cs, led, run) == Some(s)
    ensures BoardAfter(BoardRun(run)) == Some(s.board)
    ensures Accounted(cs, led, s)
  {
    if run == [] {
    } else {
      var n := |run| - 1;
      var c := SystemAfter(cs, led, run[..n]).value;
      RunsAreBoardRuns(cs, led, run[..n], c);
      if OnBoard(run[n]).Some? {
        BoardAfterOneMore(BoardRun(run[..n]), c.board, OnBoard(run[n]).value);
      }
      match run[n]
      case Issue(d, t) => IssueKeepsCount(cs, led, c, d, t);
      case Work(e) => WorkKeepsCount(cs, led, c, e);
    }
  }

  // Whole performances, at most one for each of n threads, then the lock holder's prefix.
  ghost predicate Performed<T>(script: seq<T>, d: Device<T>, n: nat) {
    && Consistent(script, d)
    && d.trace == Repeat(script, |Performers(d)|) + script[..Progress(d)]
    && |Performers(d)| + (if d.lock.Some? then 1 else 0) <= n
  }

  lemma DeviceServes<T>(script: seq<T>, run: seq<Event>, d: Device<T>)
    requires Reachable(script, run, d)
    ensures Performed(script, d, |d.threads|)
  {
    TraceIsWholePerformances(script, run, d);
    PerformersAreThreads(d);
  }

  // The options acted on so far, and the threads they started.
  lemma IssuedOptions(os: seq<Pair>, led: bool, run: seq<Step>, s: System)
    requires SystemAfter(Commands(os), led, run) == Some(s)
    ensures |s.issued| <= |os| && s.issued == Commands(os[..|s.issued|])
    ensures |s.board.music.threads| == multiset(os[..|s.issued|])[("music", "Play")]
    ensures |s.board.motor.threads| == multiset(os[..|s.issued|])[("motor", "On")]
  {
    RunsAreBoardRuns(Commands(os), led, run, s);
    assert Commands(os)[..|s.issued|] == Commands(os[..|s.issued|]);
    CommandCounts(os[..|s.issued|]);
  }

  /** Whatever the options of the requests and however their commands and the workers interleave:
      the tune has been played whole, at most once for each music=Play acted on, and then at most
      one prefix; the motor likewise for motor=On; and the motor is off whenever its lock is free. */
  lemma EveryServerRunIsOrderly(os: seq<Pair>, led: bool, run: seq<Step>, s: System)
    requires SystemAfter(Commands(os), led, run) == Some(s)
    ensures |s.issued| <= |os|
    ensures Performed(NOTES, s.board.music, multiset(os[..|s.issued|])[("music", "Play")])
    ensures Performed(MOTOR_SESSION, s.board.motor, multiset(os[..|s.issued|])[("motor", "On")])
    ensures s.board.motor.lock == None ==> PinLevel(s.board.motor.trace) == LOW
  {
    IssuedOptions(os, led, run, s);
    RunsAreBoardRuns(Commands(os), led, run, s);
    BoardProjects(BoardRun(run), s.board);
    DeviceServes(NOTES, MusicOf(BoardRun(run)), s.board.music);
    DeviceServes(MOTOR_SESSION, MotorOf(BoardRun(run)), s.board.motor);
    MotorOffWhenLockFree(MotorOf(BoardRun(run)), s.board.motor);
  }

  // k whole performances for n commands: some, unless there were none.
  ghost predicate Answered<T>(script: seq<T>, d: Device<T>, k: nat, n: nat) {
    d.trace == Repeat(script, k) && k <= n && (k == 0 <==> n == 0)
  }

  lemma DeviceAnswers<T>(script: seq<T>, run: seq<Event>, d: Device<T>)
    requires Reachable(script, run, d) && AllGone(d)
    ensures Answered(script, d, |Performers(d)|, |d.threads|)
  {
    SomeonePerforms(script, run, d);
  }

  /** Once every option has been acted on and every worker has left: there was a music thread for
      each music=Play and a motor thread for each motor=On; the tune was played at least once if
      any option asked for it and at most once for each, the motor likewise; and the LED is as
      the last led option says: `last` is one past its position, or zero if there is none. */
  lemma FinishedServerRun(os: seq<Pair>, led: bool, run: seq<Step>, s: System, last: nat)
    requires SystemAfter(Commands(os), led, run) == Some(s) && LastLedOption(os, last)
    requires |s.issued| == |os| && AllGone(s.board.music) && AllGone(s.board.motor)
    ensures |s.board.music.threads| == multiset(os)[("music", "Play")]
    ensures |s.board.motor.threads| == multiset(os)[("motor", "On")]
    ensures exists k :: Answered(NOTES, s.board.music, k, |s.board.music.threads|)
    ensures exists k :: Answered(MOTOR_SESSION, s.board.motor, k, |s.board.motor.threads|)
    ensures s.led == if last == 0 then led else os[last - 1] == ("led", "On")
  {
    IssuedOptions(os, led, run, s);
    RunsAreBoardRuns(Commands(os), led, run, s);
    BoardProjects(BoardRun(run), s.board);
    assert os[..|os|] == os;
    LedOfLastOption(led, os, last);
    DeviceAnswers(NOTES, MusicOf(BoardRun(run)), s.board.music);
    DeviceAnswers(MOTOR_SESSION, MotorOf(BoardRun(run)), s.board.motor);
  }
}
