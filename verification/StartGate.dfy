/** The bimanual start: a parent launches one lifecycle process per side, waits until both have
    finished their motion-free preflight, and only then releases them. Every process may crash,
    every check may fail, signals and timeouts may come at any moment. */
module StartGate {

  // ----- one side

  /** Where the lifecycle process of a side is. */
  datatype Place =
    | Unborn
    | Opening                 // bringing the two CAN links up
    | Probing                 // probing the motors of both links
    | AtGate                  // preflight reported, waiting for START
    | Released                // START read, motion-capable sidecar not yet spawned
    | Watching                // sidecar spawned
    | Cleaning                // the finally blocks
    | Gone(orderly: bool)     // exited; orderly unless killed or crashed

  /** How many links were configured, which of them are still up, and whether the exit is one with an
      error; what the sidecar does; what the parent knows of the side and has sent it. */
  datatype Side = Side(
    place: Place, configured: nat, up: set<nat>, probes: nat, reported: bool, stop: bool, failed: bool,
    sidecar: bool, spawned: bool,
    ready: bool, started: bool, consumed: bool, inputClosed: bool)
  {
    /** Both links are configured, so the exit takes them down. */
    predicate LinksOpen() { configured == LINKS }
  }

  const NEW_SIDE := Side(Unborn, 0, {}, 0, false, false, false, false, false, false, false, false, false)

  const LINKS := 2

  /** What a lifecycle process, its sidecar and its surroundings can do. A sidecar leaves with a good or
      a bad status; in the finally blocks stopping it may raise, the links in `stuck` may stay up, and
      anything else there may be refused without leaving a link up. */
  datatype Move =
    | OpenLink | Probe | ReadGate | Spawn | SidecarExits | Leave(good: bool)
    | Clean(stopped: bool, stuck: set<nat>, quiet: bool)
    | Fail       // any check, probe, subprocess call or deadline of the current place fails
    | Interrupt  // a signal arrives
    | Die        // the process is killed or crashes

  /** Some check can fail here; the finally blocks follow. */
  predicate Active(p: Place) { p.Opening? || p.Probing? || p.AtGate? || p.Released? || p.Watching? }

  /** Configuring a link ends with bringing it up. */
  function LinkOpened(x: Side): Side {
    if x.place.Opening? && x.configured < LINKS then
      x.(configured := x.configured + 1, up := x.up + {x.configured}, place := if x.configured + 1 == LINKS then Probing else Opening)
    else x
  }

  function Probed(x: Side): Side {
    if x.place.Probing? then
      var more := x.probes < LINKS;
      x.(probes := if more then x.probes + 1 else x.probes, reported := x.reported || !more, place := if more then Probing else AtGate)
    else x
  }

  /** Only START opens the gate; the end of the input does not. */
  function GateRead(x: Side): Side {
    if !x.place.AtGate? || x.stop then x
    else if x.started && !x.consumed then x.(consumed := true, place := Released)
    else if x.inputClosed then Failed(x)
    else x
  }

  function Spawned(x: Side): Side {
    if x.place.Released? then x.(sidecar := true, spawned := true, place := Watching) else x
  }

  /** Asked to stop, the process stops a running sidecar; a sidecar that ends badly is an error. */
  function Left(x: Side, good: bool): Side {
    if x.place.Watching? && (!x.sidecar || x.stop) then x.(sidecar := false, failed := x.failed || !good, place := Cleaning)
    else if x.place.AtGate? && x.stop then x.(place := Cleaning)
    else x
  }

  /** The sidecar is stopped before the links are taken down. If stopping it raises, nothing is taken
      down; if the links were not both configured, neither; a link that stays up is an error. */
  function Cleaned(x: Side, stopped: bool, stuck: set<nat>, quiet: bool): Side {
    if !x.place.Cleaning? then x
    else if x.sidecar && !stopped then x.(failed := true, place := Gone(true))
    else
      var left := if x.LinksOpen() then x.up * stuck else x.up;
      x.(sidecar := false, up := left, failed := x.failed || !quiet || (x.LinksOpen() && left != {}), place := Gone(true))
  }

  function Failed(x: Side): Side { x.(failed := true, place := Cleaning) }

  function Moved(x: Side, m: Move): Side {
    match m
    case OpenLink => LinkOpened(x)
    case Probe => Probed(x)
    case ReadGate => GateRead(x)
    case Spawn => Spawned(x)
    case SidecarExits => x.(sidecar := false)
    case Leave(good) => Left(x, good)
    case Clean(stopped, stuck, quiet) => Cleaned(x, stopped, stuck, quiet)
    case Fail => if Active(x.place) then Failed(x) else x
    case Interrupt => if x.place.Unborn? then x else x.(stop := true)
    case Die => if Absent(x) then x else x.(place := Gone(false))
  }

  predicate Absent(x: Side) { x.place.Gone? || x.place.Unborn? }

  // ----- the parent

  datatype Stage =
    | Launching(next: nat)   // starting the processes
    | Waiting                // for both preflight reports
    | Checking(next: nat)    // that both still run
    | Writing(next: nat)     // START, left first
    | Closing(next: nat)     // their inputs
    | Running                // both released
    | Stopping(next: nat)    // closing inputs and interrupting
    | Reaping(next: nat)     // waiting for the exits, killing where needed
    | Finished
    | Crashed

  type Pair = s: seq<Side> | |s| == 2 witness [NEW_SIDE, NEW_SIDE]

  datatype State = State(stage: Stage, sides: Pair)

  const INITIAL := State(Launching(0), [NEW_SIDE, NEW_SIDE])

  datatype Action =
    | Launch | Pump(side: nat) | AllReady | Check | Write | Close
    | Abort    // a launch fails, an exit is noticed, a deadline passes, the session ends, ...
    | Stop | Reap
    | Crash
    | Child(side: nat, move: Move)

  predicate Working(g: Stage) {
    g.Launching? || g.Waiting? || g.Checking? || g.Writing? || g.Closing? || g.Running?
  }

  function Put(s: State, i: nat, x: Side, g: Stage): State
    requires i < 2
  {
    State(g, s.sides[i := x])
  }

  /** The reader thread passes on a report line that was printed. */
  function Pumped(s: State, i: nat): State
    requires i < 2
  {
    if s.sides[i].reported && !s.stage.Crashed? then Put(s, i, s.sides[i].(ready := true), s.stage) else s
  }

  function Launched(s: State): State {
    if !s.stage.Launching? || s.stage.next >= 2 then s
    else
      var i := s.stage.next;
      Put(s, i, s.sides[i].(place := Opening), if i == 0 then Launching(1) else Waiting)
  }

  function Checked(s: State): State {
    if !s.stage.Checking? || s.stage.next >= 2 then s
    else
      var i := s.stage.next;
      if s.sides[i].place.Gone? || s.sides[i].inputClosed then s.(stage := Stopping(0))
      else s.(stage := if i == 0 then Checking(1) else Writing(0))
  }

  /** The pipe is line buffered: writing the line delivers it. Writing to a process that is gone raises. */
  function Written(s: State): State {
    if !s.stage.Writing? || s.stage.next >= 2 then s
    else
      var i := s.stage.next;
      if s.sides[i].place.Gone? then s.(stage := Stopping(0))
      else Put(s, i, s.sides[i].(started := true), if i == 0 then Writing(1) else Closing(0))
  }

  function Closed(s: State): State {
    if !s.stage.Closing? || s.stage.next >= 2 then s
    else
      var i := s.stage.next;
      Put(s, i, s.sides[i].(inputClosed := true), if i == 0 then Closing(1) else Running)
  }

  function Stopped(s: State): State {
    if !s.stage.Stopping? || s.stage.next >= 2 then s
    else
      var i := s.stage.next;
      var x := s.sides[i];
      Put(s, i, if x.place.Unborn? then x else x.(inputClosed := true, stop := true),
          if i == 0 then Stopping(1) else Reaping(0))
  }

  /** A process that does not exit in time is killed with its whole group. */
  function Reaped(s: State): State {
    if !s.stage.Reaping? || s.stage.next >= 2 then s
    else
      var i := s.stage.next;
      var x := s.sides[i];
      Put(s, i, if Absent(x) then x else x.(place := Gone(false), sidecar := false),
          if i == 0 then Reaping(1) else Finished)
  }

  function InputLost(x: Side): Side { if x.place.Unborn? then x else x.(inputClosed := true) }

  /** The parent dies; its ends of the pipes close. */
  function ParentCrashed(s: State): State {
    if s.stage.Finished? then s
    else State(Crashed, [InputLost(s.sides[0]), InputLost(s.sides[1])])
  }

  function Step(s: State, a: Action): State {
    match a
    case Child(i, m) => if i < 2 then Put(s, i, Moved(s.sides[i], m), s.stage) else s
    case Pump(i) => if i < 2 then Pumped(s, i) else s
    case Launch => Launched(s)
    case AllReady => if s.stage.Waiting? && s.sides[0].ready && s.sides[1].ready then s.(stage := Checking(0)) else s
    case Check => Checked(s)
    case Write => Written(s)
    case Close => Closed(s)
    case Abort => if Working(s.stage) then s.(stage := Stopping(0)) else s
    case Stop => Stopped(s)
    case Reap => Reaped(s)
    case Crash => ParentCrashed(s)
  }

  function Run(actions: seq<Action>): State
    decreases |actions|
  {
    if actions == [] then INITIAL else Step(Run(actions[..|actions| - 1]), actions[|actions| - 1])
  }

  // ----- invariants

  ghost predicate AllUp(x: Side) { forall j: nat :: j in x.up <==> j < x.configured }

  /** Without an error nothing is left behind. */
  predicate ExitInv(x: Side) {
    && (x.place.Cleaning? && !x.failed ==> x.LinksOpen())
    && (x.place == Gone(true) && !x.failed ==> x.up == {} && !x.sidecar)
    && (x.place.Cleaning? || x.place == Gone(true) ==> x.failed || x.stop || x.spawned)
  }

  /** What holds of a side wherever it is. */
  ghost predicate SideInv(x: Side) {
    && x.configured <= LINKS && x.probes <= LINKS && (x.spawned ==> x.consumed) && (x.consumed ==> x.started) && (x.sidecar ==> x.spawned)
    && (x.place.Released? || x.place.Watching? ==> x.consumed) && (x.place.Opening? || x.place.Probing? || x.place.AtGate? ==> !x.consumed)
    && (x.place.AtGate? || x.place.Released? || x.place.Watching? ==> x.reported)
    && (x.reported ==> x.probes == LINKS) && (x.ready ==> x.reported)
    && (x.probes > 0 || x.place.Probing? || x.reported ==> x.LinksOpen())
    && (x.place.Unborn? ==> x == NEW_SIDE)
    && (x.sidecar ==> x.place.Watching? || x.place.Cleaning? || x.place.Gone?)
    && (x.place.Opening? ==> x.configured < LINKS) && (x.place.Watching? ==> x.spawned)
    && (!x.place.Gone? ==> AllUp(x)) && ExitInv(x)
  }

  predicate BothReady(s: State) { s.sides[0].ready && s.sides[1].ready }

  /** The release comes only after both reports, left first. */
  predicate GateInv(s: State) {
    && (s.sides[0].started || s.sides[1].started ==> BothReady(s))
    && (s.sides[1].started ==> s.sides[0].started)
    && (s.stage.Launching? || s.stage.Waiting? || s.stage.Checking? ==> !s.sides[0].started && !s.sides[1].started)
    && (s.stage.Checking? || s.stage.Writing? || s.stage.Closing? || s.stage.Running? ==> BothReady(s))
    && (s.stage.Writing? ==> (s.sides[0].started <==> s.stage.next > 0) && !s.sides[1].started && s.stage.next < 2)
    && (s.stage.Closing? || s.stage.Running? ==> s.sides[1].started)
    && (s.stage.Launching? ==> s.stage.next < 2) && (s.stage.Checking? ==> s.stage.next < 2)
  }

  /** Which processes exist at each stage. */
  predicate StageInv(s: State) {
    && (s.stage == Launching(0) ==> s.sides[0].place.Unborn?)
    && (s.stage.Launching? ==> s.sides[1].place.Unborn?)
    && (s.stage.Reaping? ==> s.stage.next < 2) && (s.stage.Stopping? ==> s.stage.next < 2)
    && (s.stage == Reaping(1) || s.stage.Finished? ==> Absent(s.sides[0]))
    && (s.stage.Finished? ==> Absent(s.sides[1]))
  }

  ghost predicate Inv(s: State) { SideInv(s.sides[0]) && SideInv(s.sides[1]) && GateInv(s) && StageInv(s) }

  /** A side's own moves never touch the release, and never bring a process back. */
  ghost predicate Kept(x: Side, y: Side) {
    && SideInv(y) && y.started == x.started && y.ready == x.ready
    && (x.place.Unborn? ==> y == x) && (Absent(x) ==> Absent(y))
  }

  lemma OpeningKeeps(x: Side)
    requires SideInv(x)
    ensures Kept(x, LinkOpened(x))
  {}

  lemma ProbingKeeps(x: Side)
    requires SideInv(x)
    ensures Kept(x, Probed(x))
  {}

  lemma GateKeeps(x: Side)
    requires SideInv(x)
    ensures Kept(x, GateRead(x)) && Kept(x, Spawned(x))
  {}

  lemma LeavingKeeps(x: Side, good: bool)
    requires SideInv(x)
    ensures Kept(x, Left(x, good))
  {}

  lemma CleaningKeeps(x: Side, stopped: bool, stuck: set<nat>, quiet: bool)
    requires SideInv(x)
    ensures Kept(x, Cleaned(x, stopped, stuck, quiet))
  {}

  lemma EnvironmentKeeps(x: Side, m: Move)
    requires SideInv(x) && (m.SidecarExits? || m.Fail? || m.Interrupt? || m.Die?)
    ensures Kept(x, Moved(x, m))
  {}

  lemma MoveKeeps(x: Side, m: Move)
    requires SideInv(x)
    ensures Kept(x, Moved(x, m))
  {
    if m.SidecarExits? || m.Fail? || m.Interrupt? || m.Die? {
      EnvironmentKeeps(x, m);
    } else {
      OpeningKeeps(x);
      ProbingKeeps(x);
      GateKeeps(x);
      if m.Leave? { LeavingKeeps(x, m.good); }
      if m.Clean? { CleaningKeeps(x, m.stopped, m.stuck, m.quiet); }
      hide SideInv, Kept, LinkOpened, Probed, GateRead, Spawned, Left, Cleaned;
    }
  }

  lemma ChildKeeps(s: State, i: nat, m: Move)
    requires Inv(s) && i < 2
    ensures Inv(Step(s, Child(i, m)))
  {
    MoveKeeps(s.sides[i], m);
    hide Moved, SideInv;
  }

  lemma PumpKeeps(s: State, i: nat)
    requires Inv(s) && i < 2
    ensures Inv(Pumped(s, i))
  {}

  lemma LaunchKeeps(s: State)
    requires Inv(s)
    ensures Inv(Launched(s))
  {}

  lemma CheckKeeps(s: State)
    requires Inv(s)
    ensures Inv(Checked(s))
  {
    hide SideInv;
  }

  lemma WriteKeeps(s: State)
    requires Inv(s)
    ensures Inv(Written(s))
  {}

  lemma CloseKeeps(s: State)
    requires Inv(s)
    ensures Inv(Closed(s))
  {
    InputMayClose(s.sides[0]);
    InputMayClose(s.sides[1]);
    hide SideInv;
  }

  lemma StopKeeps(s: State)
    requires Inv(s)
    ensures Inv(Stopped(s))
  {
    InputMayClose(s.sides[0]);
    InputMayClose(s.sides[1]);
    hide SideInv;
  }

  /** The end of the input and a stop request touch nothing else; a crash leaves unborn sides alone. */
  lemma InputMayClose(x: Side)
    requires SideInv(x)
    ensures !x.place.Unborn? ==> SideInv(x.(inputClosed := true)) && SideInv(x.(inputClosed := true, stop := true))
  {}

  lemma ReapKeeps(s: State)
    requires Inv(s)
    ensures Inv(Reaped(s))
  {}

  lemma CrashKeeps(s: State)
    requires Inv(s)
    ensures Inv(ParentCrashed(s))
  {
    InputMayClose(s.sides[0]);
    InputMayClose(s.sides[1]);
    hide SideInv;
  }

  lemma StageKeeps(s: State, a: Action)
    requires Inv(s) && (a.AllReady? || a.Abort?)
    ensures Inv(Step(s, a))
  {
    hide SideInv;
  }

  lemma StepKeeps(s: State, a: Action)
    requires Inv(s)
    ensures Inv(Step(s, a))
  {
    if a.AllReady? || a.Abort? {
      StageKeeps(s, a);
    } else {
      hide Inv, Pumped, Launched, Checked, Written, Closed, Stopped, Reaped, ParentCrashed;
      match a {
        case Child(i, m) => if i < 2 { ChildKeeps(s, i, m); }
        case Pump(i) => if i < 2 { PumpKeeps(s, i); }
        case Launch => LaunchKeeps(s);
        case Check => CheckKeeps(s);
        case Write => WriteKeeps(s);
        case Close => CloseKeeps(s);
        case Stop => StopKeeps(s);
        case Reap => ReapKeeps(s);
        case Crash => CrashKeeps(s);
        case _ =>
      }
    }
  }

  lemma {:induction false} InvAlways(actions: seq<Action>)
    ensures Inv(Run(actions))
    decreases |actions|
  {
    if actions != [] {
      InvAlways(actions[..|actions| - 1]);
      hide Inv, Step;
      StepKeeps(Run(actions[..|actions| - 1]), actions[|actions| - 1]);
    }
  }

  // ----- safety over all interleavings

  /** The motors of both links answered every probe and the side said so. */
  predicate Preflighted(x: Side) { x.probes == LINKS && x.reported }

  /** If either side ever spawned its motion-capable sidecar, both sides had completed every motor
      probe and reported it, and that side had been sent START. */
  lemma MotionNeedsBothPreflights(actions: seq<Action>, i: nat)
    requires i < 2 && Run(actions).sides[i].spawned
    ensures Preflighted(Run(actions).sides[0]) && Preflighted(Run(actions).sides[1])
    ensures Run(actions).sides[i].started && Run(actions).sides[i].consumed
  {
    hide Run;
    InvAlways(actions);
  }

  /** The left side is released first; once the parent has returned from the release, both are. */
  lemma ReleaseIsOrdered(actions: seq<Action>)
    ensures Run(actions).sides[1].started ==> Run(actions).sides[0].started
    ensures Run(actions).stage.Running? ==> Run(actions).sides[0].started && Run(actions).sides[1].started
  {
    InvAlways(actions);
  }

  lemma StoppedStays(s: State, a: Action, i: nat)
    requires i < 2 && !Working(s.stage) && Inv(s)
    ensures !Working(Step(s, a).stage) && Step(s, a).sides[i].started == s.sides[i].started
  {
    if a.Child? && a.side < 2 { MoveKeeps(s.sides[a.side], a.move); }
    hide Moved, Inv, SideInv;
  }

  /** Once the parent has started to stop, no further START is ever written. */
  lemma {:induction false} NothingIsReleasedLater(actions: seq<Action>, more: seq<Action>, i: nat)
    requires i < 2 && !Working(Run(actions).stage)
    ensures !Working(Run(actions + more).stage)
    ensures Run(actions + more).sides[i].started == Run(actions).sides[i].started
    decreases |more|
  {
    if more == [] {
      assert actions + more == actions;
    } else {
      var n := |more| - 1;
      NothingIsReleasedLater(actions, more[..n], i);
      assert (actions + more)[..|actions + more| - 1] == actions + more[..n];
      var s, a := Run(actions + more[..n]), more[n];
      assert Run(actions + more) == Step(s, a);
      InvAlways(actions + more[..n]);
      StoppedStays(s, a, i);
    }
  }

  /** A side that was not sent START when the parent began to stop never spawns its sidecar. */
  lemma UnreleasedNeverMoves(actions: seq<Action>, more: seq<Action>, i: nat)
    requires i < 2 && !Working(Run(actions).stage) && !Run(actions).sides[i].started
    ensures !Run(actions + more).sides[i].spawned
  {
    NothingIsReleasedLater(actions, more, i);
    InvAlways(actions + more);
    hide Run;
  }

  // ----- when the release is atomic

  predicate Split(s: State) { s.sides[0].started != s.sides[1].started }

  /** The parent breaks off between the two STARTs: the right process is gone, an exception, or a crash. */
  predicate BreaksOff(s: State, a: Action) {
    s.stage == Writing(1) && ((a.Write? && s.sides[1].place.Gone?) || a.Abort? || a.Crash?)
  }

  predicate StoppedSplit(s: State) { !Working(s.stage) && Split(s) }

  predicate BrokeOff(actions: seq<Action>) {
    exists n :: 0 <= n < |actions| && BreaksOff(Run(actions[..n]), actions[n])
  }

  lemma SplitStep(s: State, a: Action)
    requires Inv(s)
    ensures StoppedSplit(Step(s, a)) <==> StoppedSplit(s) || BreaksOff(s, a)
  {
    if !Working(s.stage) {
      StoppedStays(s, a, 0);
      StoppedStays(s, a, 1);
    } else {
      hide Moved, SideInv;
    }
  }

  /** The release reaches exactly one side, the left one, if and only if the parent broke off between
      the two STARTs, or stands there now; the right side then never moves. */
  lemma {:induction false} ReleaseSplitsExactly(actions: seq<Action>)
    ensures Split(Run(actions)) <==> Run(actions).stage == Writing(1) || BrokeOff(actions)
    ensures Run(actions).stage == Writing(1) ==> !BrokeOff(actions)
    ensures Split(Run(actions)) ==> Run(actions).sides[0].started && !Run(actions).sides[1].spawned
  {
    InvAlways(actions);
    BrokeOffExactly(actions);
  }

  lemma {:induction false} BrokeOffExactly(actions: seq<Action>)
    ensures StoppedSplit(Run(actions)) <==> BrokeOff(actions)
    decreases |actions|
  {
    if actions != [] {
      var earlier, a := actions[..|actions| - 1], actions[|actions| - 1];
      BrokeOffExactly(earlier);
      hide StoppedSplit, BrokeOff, Run;
      BrokeOffStep(earlier, a);
      assert earlier + [a] == actions;
    }
  }

  lemma BrokeOffStep(actions: seq<Action>, a: Action)
    requires StoppedSplit(Run(actions)) <==> BrokeOff(actions)
    ensures StoppedSplit(Run(actions + [a])) <==> BrokeOff(actions + [a])
  {
    hide Inv, StoppedSplit, BreaksOff, BrokeOff, Step;
    InvAlways(actions);
    SplitStep(Run(actions), a);
    BrokeOffOneMore(actions, a);
    assert (actions + [a])[..|actions|] == actions;
  }

  lemma BrokeOffOneMore(actions: seq<Action>, a: Action)
    ensures BrokeOff(actions + [a]) <==> BrokeOff(actions) || BreaksOff(Run(actions), a)
  {
    hide Run, BreaksOff;
    var all := actions + [a];
    assert all[..|actions|] == actions && all[|actions|] == a;
    assert forall k :: 0 <= k < |actions| ==> all[..k] == actions[..k] && all[k] == actions[k];
  }

  // ----- what an exit leaves behind

  /** The process has left in order and its link j is up. */
  predicate LeftUp(s: State, i: nat, j: nat)
    requires i < 2
  {
    s.sides[i].place == Gone(true) && j in s.sides[i].up
  }

  /** The finally blocks do not take the configured link down: not both links were configured, stopping
      the sidecar raised, or the shutdown of this link failed. */
  predicate Leaves(s: State, a: Action, i: nat, j: nat)
    requires i < 2
  {
    var x := s.sides[i];
    && a.Child? && a.side == i && a.move.Clean? && x.place.Cleaning? && j < x.configured
    && (!x.LinksOpen() || (x.sidecar && !a.move.stopped) || j in a.move.stuck)
  }

  predicate LeftSometime(actions: seq<Action>, i: nat, j: nat)
    requires i < 2
  {
    exists n :: 0 <= n < |actions| && Leaves(Run(actions[..n]), actions[n], i, j)
  }

  lemma CleanedLeaves(x: Side, stopped: bool, stuck: set<nat>, quiet: bool, j: nat)
    requires SideInv(x) && x.place.Cleaning?
    ensures var y := Cleaned(x, stopped, stuck, quiet);
      y.place == Gone(true) && (j in y.up <==> j < x.configured && (!x.LinksOpen() || (x.sidecar && !stopped) || j in stuck))
  {}

  /** No process left in order, and one that has keeps its links and its sidecar. */
  predicate Stays(x: Side, y: Side) {
    (y.place == Gone(true) <==> x.place == Gone(true)) && (x.place == Gone(true) ==> y.up == x.up && y.sidecar == x.sidecar)
  }

  lemma ProgressStays(x: Side)
    ensures Stays(x, LinkOpened(x)) && Stays(x, GateRead(x)) && Stays(x, Spawned(x))
  {}

  lemma ProbingStays(x: Side)
    ensures Stays(x, Probed(x))
  {}

  lemma LeavingStays(x: Side, good: bool)
    ensures Stays(x, Left(x, good))
  {}

  lemma EnvironmentStays(x: Side, m: Move)
    requires m.Fail? || m.Interrupt? || m.Die?
    ensures Stays(x, Moved(x, m))
  {}

  /** No move but cleaning up ends a process in order. */
  lemma OnlyCleaningEnds(x: Side, m: Move)
    requires !m.SidecarExits? && !(m.Clean? && x.place.Cleaning?)
    ensures Stays(x, Moved(x, m))
  {
    if m.Fail? || m.Interrupt? || m.Die? {
      EnvironmentStays(x, m);
    } else if m.Clean? {
    } else {
      ProgressStays(x);
      ProbingStays(x);
      if m.Leave? { LeavingStays(x, m.good); }
      hide Stays, LinkOpened, Probed, GateRead, Spawned, Left;
    }
  }

  lemma SendingStays(s: State, i: nat)
    requires i < 2
    ensures Stays(s.sides[i], Written(s).sides[i]) && Stays(s.sides[i], Closed(s).sides[i])
    ensures Written(s).sides[i].failed == s.sides[i].failed == Closed(s).sides[i].failed
  {}

  lemma StoppingStays(s: State, i: nat)
    requires i < 2
    ensures Stays(s.sides[i], Stopped(s).sides[i]) && Stays(s.sides[i], Reaped(s).sides[i])
    ensures Stopped(s).sides[i].failed == s.sides[i].failed == Reaped(s).sides[i].failed
  {}

  lemma LaunchingStays(s: State, i: nat)
    requires i < 2 && Inv(s)
    ensures Stays(s.sides[i], Launched(s).sides[i]) && Launched(s).sides[i].failed == s.sides[i].failed
  {
    hide SideInv, GateInv;
  }

  lemma InputLostStays(x: Side)
    ensures Stays(x, InputLost(x)) && InputLost(x).failed == x.failed
  {}

  lemma CrashingStays(s: State, i: nat)
    requires i < 2
    ensures Stays(s.sides[i], ParentCrashed(s).sides[i]) && ParentCrashed(s).sides[i].failed == s.sides[i].failed
  {
    InputLostStays(s.sides[i]);
    hide InputLost;
  }

  lemma ReportsStay(s: State, a: Action, i: nat)
    requires i < 2 && (a.Pump? || a.AllReady? || a.Check? || a.Abort?)
    ensures Stays(s.sides[i], Step(s, a).sides[i]) && Step(s, a).sides[i].failed == s.sides[i].failed
  {}

  lemma SidesStay(s: State, a: Action, i: nat)
    requires i < 2 && Inv(s) && !a.Child?
    ensures Stays(s.sides[i], Step(s, a).sides[i]) && Step(s, a).sides[i].failed == s.sides[i].failed
  {
    if a.Pump? || a.AllReady? || a.Check? || a.Abort? {
      ReportsStay(s, a, i);
    } else {
      hide Inv, Stays, Launched, Written, Closed, Stopped, Reaped, ParentCrashed;
      LaunchingStays(s, i);
      SendingStays(s, i);
      StoppingStays(s, i);
      CrashingStays(s, i);
    }
  }

  lemma LeftUpStep(s: State, a: Action, i: nat, j: nat)
    requires i < 2 && Inv(s)
    ensures LeftUp(Step(s, a), i, j) <==> LeftUp(s, i, j) || Leaves(s, a, i, j)
  {
    if !a.Child? {
      SidesStay(s, a, i);
    } else if a.side == i {
      var x, m := s.sides[i], a.move;
      hide SideInv, Cleaned;
      if m.Clean? && x.place.Cleaning? {
        CleanedLeaves(x, m.stopped, m.stuck, m.quiet, j);
      } else if !m.SidecarExits? {
        OnlyCleaningEnds(x, m);
        hide Moved;
      }
    }
  }

  lemma LeftOneMore(actions: seq<Action>, a: Action, i: nat, j: nat)
    requires i < 2
    ensures LeftSometime(actions + [a], i, j) <==> LeftSometime(actions, i, j) || Leaves(Run(actions), a, i, j)
  {
    hide Run, Leaves;
    var all := actions + [a];
    assert all[..|actions|] == actions && all[|actions|] == a;
    assert forall k :: 0 <= k < |actions| ==> all[..k] == actions[..k] && all[k] == actions[k];
  }

  /** In every run a process that has left in order leaves a link up if and only if the link was
      configured and, at its exit, the second link was not, or stopping the sidecar raised, or the
      shutdown of this link failed. */
  lemma {:induction false} LinkLeftUpExactly(actions: seq<Action>, i: nat, j: nat)
    requires i < 2
    ensures LeftUp(Run(actions), i, j) <==> LeftSometime(actions, i, j)
    decreases |actions|
  {
    if actions != [] {
      var earlier, a := actions[..|actions| - 1], actions[|actions| - 1];
      LinkLeftUpExactly(earlier, i, j);
      hide LeftUp, LeftSometime, Run;
      LinkLeftUpOneMore(earlier, a, i, j);
      assert earlier + [a] == actions;
    }
  }

  lemma LinkLeftUpOneMore(actions: seq<Action>, a: Action, i: nat, j: nat)
    requires i < 2 && (LeftUp(Run(actions), i, j) <==> LeftSometime(actions, i, j))
    ensures LeftUp(Run(actions + [a]), i, j) <==> LeftSometime(actions + [a], i, j)
  {
    hide Inv, LeftUp, Leaves, LeftSometime, Step;
    InvAlways(actions);
    LeftUpStep(Run(actions), a, i, j);
    LeftOneMore(actions, a, i, j);
    assert (actions + [a])[..|actions|] == actions;
  }

  /** The process has left in order and its sidecar still runs. */
  predicate Orphaned(s: State, i: nat)
    requires i < 2
  {
    s.sides[i].place == Gone(true) && s.sides[i].sidecar
  }

  /** Stopping the sidecar in the finally blocks raises. */
  predicate Abandons(s: State, a: Action, i: nat)
    requires i < 2
  {
    var x := s.sides[i];
    a.Child? && a.side == i && a.move.Clean? && x.place.Cleaning? && x.sidecar && !a.move.stopped
  }

  /** From the n-th action on the sidecar of side i does not end by itself. */
  predicate Lingers(actions: seq<Action>, n: int, i: nat) {
    forall k :: 0 <= k < |actions| && n <= k ==> actions[k] != Child(i, SidecarExits)
  }

  predicate AbandonedSometime(actions: seq<Action>, i: nat)
    requires i < 2
  {
    exists n :: 0 <= n < |actions| && Abandons(Run(actions[..n]), actions[n], i) && Lingers(actions, n, i)
  }

  lemma OrphanedStep(s: State, a: Action, i: nat)
    requires i < 2 && Inv(s)
    ensures Orphaned(Step(s, a), i) <==> (Orphaned(s, i) && a != Child(i, SidecarExits)) || Abandons(s, a, i)
  {
    if !a.Child? {
      SidesStay(s, a, i);
    } else if a.side == i {
      var x, m := s.sides[i], a.move;
      hide SideInv;
      if !m.SidecarExits? && !(m.Clean? && x.place.Cleaning?) {
        OnlyCleaningEnds(x, m);
        hide Moved;
      }
    }
  }

  lemma AbandonedOneMore(actions: seq<Action>, a: Action, i: nat)
    requires i < 2
    ensures AbandonedSometime(actions + [a], i)
      <==> (AbandonedSometime(actions, i) && a != Child(i, SidecarExits)) || Abandons(Run(actions), a, i)
  {
    hide Run;
    var all := actions + [a];
    assert all[..|actions|] == actions && all[|actions|] == a;
    assert forall k :: 0 <= k < |actions| ==> all[..k] == actions[..k] && all[k] == actions[k];
  }

  /** In every run a sidecar outlives a process that has left in order if and only if stopping it raised
      there and it has not ended by itself since. */
  lemma {:induction false} SidecarLeftExactly(actions: seq<Action>, i: nat)
    requires i < 2
    ensures Orphaned(Run(actions), i) <==> AbandonedSometime(actions, i)
    decreases |actions|
  {
    if actions != [] {
      var earlier, a := actions[..|actions| - 1], actions[|actions| - 1];
      SidecarLeftExactly(earlier, i);
      hide Orphaned, AbandonedSometime, Run;
      SidecarLeftOneMore(earlier, a, i);
      assert earlier + [a] == actions;
    }
  }

  lemma SidecarLeftOneMore(actions: seq<Action>, a: Action, i: nat)
    requires i < 2 && (Orphaned(Run(actions), i) <==> AbandonedSometime(actions, i))
    ensures Orphaned(Run(actions + [a]), i) <==> AbandonedSometime(actions + [a], i)
  {
    hide Inv, Orphaned, Abandons, AbandonedSometime, Step;
    InvAlways(actions);
    OrphanedStep(Run(actions), a, i);
    AbandonedOneMore(actions, a, i);
    assert (actions + [a])[..|actions|] == actions;
  }

  /** A process that leaves without an error has taken its sidecar and both links down. */
  lemma CleanExitLeavesNothing(actions: seq<Action>, i: nat)
    requires i < 2 && Run(actions).sides[i].place == Gone(true) && !Run(actions).sides[i].failed
    ensures Run(actions).sides[i].up == {} && !Run(actions).sides[i].sidecar
  {
    InvAlways(actions);
  }

  // ----- what is not promised

  lemma Then(actions: seq<Action>, a: Action) returns (longer: seq<Action>)
    ensures longer == actions + [a] && Run(longer) == Step(Run(actions), a)
  {
    longer := actions + [a];
    assert longer[..|actions|] == actions;
  }

  const PREPARED := Side(AtGate, 2, {0, 1}, 2, true, false, false, false, false, false, false, false, false)

  /** A side on its own can get through its preflight. */
  lemma Prepare(actions: seq<Action>, i: nat) returns (r: seq<Action>)
    requires i < 2 && Run(actions).sides[i] == NEW_SIDE.(place := Opening)
    ensures Run(r) == Put(Run(actions), i, PREPARED, Run(actions).stage)
  {
    hide Run;
    r := Then(actions, Child(i, OpenLink));
    r := Then(r, Child(i, OpenLink));
    assert Run(r).sides[i] == NEW_SIDE.(place := Probing, configured := 2, up := {0, 1});
    r := Then(r, Child(i, Probe));
    r := Then(r, Child(i, Probe));
    r := Then(r, Child(i, Probe));
    assert Run(r).sides[i] == PREPARED;
  }

  lemma PrepareBoth() returns (r: seq<Action>)
    ensures Run(r) == State(Writing(0), [PREPARED.(ready := true), PREPARED.(ready := true)])
  {
    r := [];
    assert Run(r) == INITIAL;
    hide Run;
    r := Then(r, Launch);
    r := Then(r, Launch);
    r := Prepare(r, 0);
    r := Prepare(r, 1);
    assert Run(r) == State(Waiting, [PREPARED, PREPARED]);
    r := Then(r, Pump(0));
    r := Then(r, Pump(1));
    r := Then(r, AllReady);
    r := Then(r, Check);
    r := Then(r, Check);
    assert Run(r).sides == [PREPARED.(ready := true), PREPARED.(ready := true)];
  }

  /** The release is not atomic: if the right side dies between the last check and its START, the
      left side alone moves while the parent stops. */
  lemma OneSideMayMoveAlone() returns (r: seq<Action>)
    ensures Run(r).sides[0].sidecar && !Run(r).sides[1].started && !Run(r).sides[1].spawned && Run(r).stage.Stopping?
  {
    r := PrepareBoth();
    hide Run;
    r := Then(r, Child(1, Die));
    r := Then(r, Write);
    r := Then(r, Write);
    assert Run(r).stage == Stopping(0) && Run(r).sides[0] == PREPARED.(ready := true, started := true);
    r := Then(r, Child(0, ReadGate));
    r := Then(r, Child(0, Spawn));
  }

  /** A lifecycle process whose second link cannot be configured exits and leaves the first one up; one
      whose first link cannot be shut down leaves that one up though everything was configured. */
  lemma ALinkMayStayUp(both: bool) returns (r: seq<Action>)
    ensures Run(r).sides[0].place == Gone(true) && Run(r).sides[0].up == {0}
    ensures Run(r).sides[0].LinksOpen() <==> both
  {
    r := [];
    assert Run(r) == INITIAL;
    hide Run;
    r := Then(r, Launch);
    r := Then(r, Child(0, OpenLink));
    if both { r := Then(r, Child(0, OpenLink)); }
    r := Then(r, Child(0, Fail));
    r := Then(r, Child(0, Clean(true, {0}, true)));
  }

  // ----- what is possible

  /** A process that has read START and spawned its sidecar. */
  const MOVING := PREPARED.(place := Watching, ready := true, started := true, consumed := true, inputClosed := true,
                            sidecar := true, spawned := true)

  /** Undisturbed, both sides come to move, released by the parent. */
  lemma BothMayRun() returns (r: seq<Action>)
    ensures Run(r) == State(Running, [MOVING, MOVING])
  {
    r := PrepareBoth();
    hide Run;
    r := Then(r, Write);
    r := Then(r, Write);
    r := Then(r, Close);
    r := Then(r, Close);
    assert Run(r).stage == Running;
    r := Then(r, Child(0, ReadGate));
    r := Then(r, Child(1, ReadGate));
    r := Then(r, Child(0, Spawn));
    r := Then(r, Child(1, Spawn));
    assert Run(r).sides == [MOVING, MOVING];
  }

  /** Then, told to stop, both leave without an error, and nothing is left of either. */
  lemma BothMayStop() returns (r: seq<Action>)
    ensures Run(r).stage.Finished?
    ensures forall i :: 0 <= i < 2 ==> Run(r).sides[i] == MOVING.(place := Gone(true), stop := true, sidecar := false, up := {})
  {
    r := BothMayRun();
    hide Run;
    r := Then(r, Abort);
    r := Then(r, Stop);
    r := Then(r, Stop);
    assert Run(r) == State(Reaping(0), [MOVING.(stop := true), MOVING.(stop := true)]);
    r := Then(r, Child(0, Leave(true)));
    r := Then(r, Child(0, Clean(true, {}, true)));
    assert Run(r).sides[0] == MOVING.(place := Gone(true), stop := true, sidecar := false, up := {});
    r := Then(r, Child(1, Leave(true)));
    r := Then(r, Child(1, Clean(true, {}, true)));
    assert Run(r).sides[1] == MOVING.(place := Gone(true), stop := true, sidecar := false, up := {});
    r := Then(r, Reap);
    r := Then(r, Reap);
  }

  /** A process after some moves of its own. */
  function Life(x: Side, moves: seq<Move>): Side
    decreases |moves|
  {
    if moves == [] then x else Moved(Life(x, moves[..|moves| - 1]), moves[|moves| - 1])
  }

  lemma {:induction false} Lives(actions: seq<Action>, i: nat, moves: seq<Move>) returns (r: seq<Action>)
    requires i < 2
    ensures Run(r) == Put(Run(actions), i, Life(Run(actions).sides[i], moves), Run(actions).stage)
    decreases |moves|
  {
    hide Run, Moved;
    if moves == [] {
      r := actions;
    } else {
      r := Lives(actions, i, moves[..|moves| - 1]);
      r := Then(r, Child(i, moves[|moves| - 1]));
    }
  }

  lemma Next(x: Side, moves: seq<Move>, m: Move) returns (longer: seq<Move>)
    ensures longer == moves + [m] && Life(x, longer) == Moved(Life(x, moves), m)
  {
    hide Moved;
    longer := moves + [m];
    assert longer[..|moves|] == moves;
  }

  /** What the moves of a process towards its end keep. */
  predicate Onward(x: Side, y: Side) {
    Sound(y) && y.stop && y.failed == x.failed && y.started == x.started && !Absent(y)
  }

  /** As much of what always holds of a side as is needed here. */
  predicate Sound(x: Side) {
    && x.configured <= LINKS && x.probes <= LINKS && (x.place.Cleaning? && !x.failed ==> x.LinksOpen())
    && (x.place.Probing? || x.place.AtGate? || x.place.Released? || x.place.Watching? ==> x.LinksOpen())
    && (x.place.Opening? ==> x.configured < LINKS)
  }

  lemma Begin(x: Side) returns (m: seq<Move>)
    requires Sound(x) && !Absent(x)
    ensures Onward(x, Life(x, m))
  {
    m := [];
    assert Life(x, m) == x;
    hide Life;
    m := Next(x, m, Interrupt);
  }

  lemma Configure(x: Side, moves: seq<Move>) returns (m: seq<Move>)
    requires Onward(x, Life(x, moves))
    ensures Onward(x, Life(x, m)) && !Life(x, m).place.Opening?
  {
    hide Life;
    m := moves;
    if Life(x, m).place.Opening? && Life(x, m).configured == 0 { m := Next(x, m, OpenLink); }
    if Life(x, m).place.Opening? { m := Next(x, m, OpenLink); }
  }

  lemma ProbedOnward(x: Side, y: Side)
    requires Onward(x, y) && y.place.Probing?
    ensures Onward(x, Probed(y)) && (Probed(y).place.AtGate? || (Probed(y).place.Probing? && Probed(y).probes == y.probes + 1))
    ensures y.probes >= LINKS ==> Probed(y).place.AtGate?
  {}

  lemma ProbeOnce(x: Side, moves: seq<Move>) returns (m: seq<Move>)
    requires Onward(x, Life(x, moves)) && Life(x, moves).place.Probing?
    ensures Onward(x, Life(x, m)) && (Life(x, m).place.AtGate? || (Life(x, m).place.Probing? && Life(x, m).probes == Life(x, moves).probes + 1))
    ensures Life(x, moves).probes >= LINKS ==> Life(x, m).place.AtGate?
  {
    hide Life, Onward, Probed;
    ProbedOnward(x, Life(x, moves));
    m := Next(x, moves, Probe);
  }

  lemma ProbeAll(x: Side, moves: seq<Move>) returns (m: seq<Move>)
    requires Onward(x, Life(x, moves)) && !Life(x, moves).place.Opening?
    ensures Onward(x, Life(x, m)) && !Life(x, m).place.Opening? && !Life(x, m).place.Probing?
  {
    hide Life, Onward, Moved;
    m := moves;
    if Life(x, m).place.Probing? { m := ProbeOnce(x, m); }
    if Life(x, m).place.Probing? { m := ProbeOnce(x, m); }
    if Life(x, m).place.Probing? { m := ProbeOnce(x, m); }
  }

  lemma Depart(x: Side, moves: seq<Move>) returns (m: seq<Move>)
    requires Onward(x, Life(x, moves)) && !Life(x, moves).place.Opening? && !Life(x, moves).place.Probing?
    ensures Onward(x, Life(x, m)) && Life(x, m).place.Cleaning?
  {
    hide Life;
    m := moves;
    if Life(x, m).place.Released? { m := Next(x, m, Spawn); }
    if !Life(x, m).place.Cleaning? { m := Next(x, m, Leave(true)); }
  }

  lemma End(x: Side, moves: seq<Move>) returns (m: seq<Move>)
    requires Onward(x, Life(x, moves)) && Life(x, moves).place.Cleaning?
    ensures var y := Life(x, m);
      y.place == Gone(true) && !y.sidecar && y.failed == x.failed && (!y.failed ==> y.up == {}) && y.started == x.started
  {
    hide Life;
    m := Next(x, moves, Clean(true, {}, true));
  }

  /** From wherever it is in whatever run, a living process can still leave in order, by its own moves once
      it is asked to stop: its sidecar is gone, no new error appears, and without one both links are down. */
  lemma EveryProcessCanLeave(actions: seq<Action>, i: nat) returns (r: seq<Action>)
    requires i < 2 && !Absent(Run(actions).sides[i])
    ensures var x, y := Run(actions).sides[i], Run(r).sides[i];
      y.place == Gone(true) && !y.sidecar && y.failed == x.failed && (!y.failed ==> y.up == {}) && y.started == x.started
    ensures Run(r) == Put(Run(actions), i, Run(r).sides[i], Run(actions).stage)
  {
    var x := Run(actions).sides[i];
    InvAlways(actions);
    Enough(x);
    hide Run, Life, Onward;
    var m := Begin(x);
    m := Configure(x, m);
    m := ProbeAll(x, m);
    m := Depart(x, m);
    m := End(x, m);
    r := Lives(actions, i, m);
  }

  lemma Enough(x: Side)
    requires SideInv(x)
    ensures Sound(x)
  {}

  /** From wherever it is, a living parent can finish: it asks both processes to stop, and no process that
      was alive is left, nor its sidecar. */
  lemma ParentCanFinish(actions: seq<Action>) returns (r: seq<Action>)
    requires !Run(actions).stage.Crashed?
    ensures Run(r).stage.Finished?
    ensures forall i :: 0 <= i < 2 ==> Absent(Run(r).sides[i])
    ensures forall i :: 0 <= i < 2 && !Absent(Run(actions).sides[i]) ==> !Run(r).sides[i].sidecar
  {
    r := StopsBoth(actions);
    InvAlways(r);
    hide Run;
    if Run(r).stage == Reaping(0) { r := Then(r, Reap); }
    if Run(r).stage == Reaping(1) { r := Then(r, Reap); }
  }

  /** First it closes the input of every process it has launched and asks it to stop. */
  lemma StopsBoth(actions: seq<Action>) returns (r: seq<Action>)
    requires !Run(actions).stage.Crashed?
    ensures Run(r).stage.Reaping? || Run(r).stage.Finished?
    ensures Working(Run(actions).stage) ==> Run(r).stage == Reaping(0)
    ensures forall i :: 0 <= i < 2 && !Absent(Run(actions).sides[i]) && Working(Run(actions).stage) ==>
      Run(r).sides[i] == Run(actions).sides[i].(stop := true, inputClosed := true)
    ensures forall i :: 0 <= i < 2 ==> Run(r).sides[i].place == Run(actions).sides[i].place
    ensures Run(actions).stage.Reaping? || Run(actions).stage.Finished? ==> Run(r) == Run(actions)
  {
    InvAlways(actions);
    hide Run, SideInv;
    r := actions;
    if Working(Run(r).stage) { r := Then(r, Abort); }
    if Run(r).stage == Stopping(0) { r := Then(r, Stop); }
    if Run(r).stage == Stopping(1) { r := Then(r, Stop); }
  }

  /** When the parent dies, the input of every process it had launched ends; a process that waits at the gate
      without a START then leaves with an error, and never moves. */
  lemma OrphansLeave(actions: seq<Action>, i: nat)
    requires i < 2 && !Run(actions).stage.Finished? && Run(actions).sides[i].place.AtGate? && !Run(actions).sides[i].stop
    requires !Run(actions).sides[i].started
    ensures var r := actions + [Crash, Child(i, ReadGate)];
      Run(r).stage.Crashed? && Run(r).sides[i].place.Cleaning? && Run(r).sides[i].failed && !Run(r).sides[i].spawned
  {
    InvAlways(actions);
    var r := Then(actions, Crash);
    hide Run;
    var q := Then(r, Child(i, ReadGate));
    assert q == actions + [Crash, Child(i, ReadGate)];
  }

  // ----- the exit status

  /** The move makes the exit of the process one with an error: a failure, the end of the input at the gate,
      a sidecar that ended badly, or trouble in the finally blocks. */
  predicate Errs(x: Side, m: Move) {
    || (m.Fail? && Active(x.place))
    || (m.ReadGate? && x.place.AtGate? && !x.stop && !x.started && x.inputClosed)
    || (m.Leave? && !m.good && x.place.Watching? && (x.stop || !x.sidecar))
    || (m.Clean? && x.place.Cleaning? && ((x.sidecar && !m.stopped) || !m.quiet || (x.LinksOpen() && x.up * m.stuck != {})))
  }

  predicate ErredSometime(actions: seq<Action>, i: nat)
    requires i < 2
  {
    exists n :: 0 <= n < |actions| && ErrsAt(actions, n, i)
  }

  predicate ErrsAt(actions: seq<Action>, n: nat, i: nat)
    requires n < |actions| && i < 2
  {
    actions[n].Child? && actions[n].side == i && Errs(Run(actions[..n]).sides[i], actions[n].move)
  }

  lemma ErrsMove(x: Side, m: Move)
    requires SideInv(x)
    ensures Moved(x, m).failed <==> x.failed || Errs(x, m)
  {
    hide Probed, LinkOpened, Spawned, GateRead, Left, Cleaned;
    match m {
      case OpenLink => OpenedFailed(x);
      case Probe => ProbedFailed(x);
      case Spawn => SpawnedFailed(x);
      case ReadGate => GateFailed(x);
      case Leave(good) => LeftFailed(x, good);
      case Clean(stopped, stuck, quiet) => CleanedFailed(x, stopped, stuck, quiet);
      case _ =>
    }
  }

  lemma ProbedFailed(x: Side)
    ensures Probed(x).failed == x.failed
  {}

  lemma OpenedFailed(x: Side)
    ensures LinkOpened(x).failed == x.failed
  {}

  lemma SpawnedFailed(x: Side)
    ensures Spawned(x).failed == x.failed
  {}

  lemma GateFailed(x: Side)
    requires SideInv(x)
    ensures GateRead(x).failed <==> x.failed || Errs(x, ReadGate)
  {}

  lemma LeftFailed(x: Side, good: bool)
    ensures Left(x, good).failed <==> x.failed || Errs(x, Leave(good))
  {}

  lemma CleanedFailed(x: Side, stopped: bool, stuck: set<nat>, quiet: bool)
    ensures Cleaned(x, stopped, stuck, quiet).failed <==> x.failed || Errs(x, Clean(stopped, stuck, quiet))
  {}

  lemma ErrsStep(s: State, a: Action, i: nat)
    requires i < 2 && Inv(s)
    ensures Step(s, a).sides[i].failed <==> s.sides[i].failed || (a.Child? && a.side == i && Errs(s.sides[i], a.move))
  {
    if !a.Child? {
      SidesStay(s, a, i);
    } else if a.side == i {
      ErrsMove(s.sides[i], a.move);
      hide Moved, Errs, SideInv;
    }
  }

  lemma ErredOneMore(actions: seq<Action>, a: Action, i: nat)
    requires i < 2
    ensures ErredSometime(actions + [a], i)
      <==> ErredSometime(actions, i) || (a.Child? && a.side == i && Errs(Run(actions).sides[i], a.move))
  {
    hide Run, Errs;
    var all := actions + [a];
    assert all[..|actions|] == actions && all[|actions|] == a;
    forall n: nat | n < |actions| ensures ErrsAt(all, n, i) <==> ErrsAt(actions, n, i) {
      assert all[..n] == actions[..n];
    }
    if a.Child? && a.side == i && Errs(Run(actions).sides[i], a.move) { assert ErrsAt(all, |actions|, i); }
    if n :| 0 <= n < |all| && ErrsAt(all, n, i) { assert n == |actions| || ErrsAt(actions, n, i); }
    if n :| 0 <= n < |actions| && ErrsAt(actions, n, i) { assert ErrsAt(all, n, i); }
  }

  /** Over all runs a process is one that exits with an error if and only if one of its moves erred. */
  lemma {:induction false} StatusIsExact(actions: seq<Action>, i: nat)
    requires i < 2
    ensures Run(actions).sides[i].failed <==> ErredSometime(actions, i)
    decreases |actions|
  {
    if actions != [] {
      var earlier, a := actions[..|actions| - 1], actions[|actions| - 1];
      StatusIsExact(earlier, i);
      hide Run, ErredSometime;
      StatusOneMore(earlier, a, i);
      assert earlier + [a] == actions;
    }
  }

  lemma StatusOneMore(actions: seq<Action>, a: Action, i: nat)
    requires i < 2 && (Run(actions).sides[i].failed <==> ErredSometime(actions, i))
    ensures Run(actions + [a]).sides[i].failed <==> ErredSometime(actions + [a], i)
  {
    hide Inv, ErredSometime, Step, Errs;
    InvAlways(actions);
    ErrsStep(Run(actions), a, i);
    ErredOneMore(actions, a, i);
    assert (actions + [a])[..|actions|] == actions;
  }

  /** A process that leaves in order without an error was asked to stop, or its sidecar had run. */
  lemma CleanExitHasAReason(actions: seq<Action>, i: nat)
    requires i < 2 && Run(actions).sides[i].place == Gone(true) && !Run(actions).sides[i].failed
    ensures Run(actions).sides[i].stop || Run(actions).sides[i].spawned
  {
    hide Run;
    InvAlways(actions);
  }
}
