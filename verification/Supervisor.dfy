/** The automatic supervisor and its native motor owners: one owner at a time, a disable-only owner
    after a failed one, the link lowered last. Children may fail, hang or be killed at any moment,
    the supervisor itself may be killed, and another run may be started. */
module Supervisor {
  import opened Common

  // ----- a native owner

  /** What one motor reported, and when the reply was received. */
  datatype Reply = Reply(receivedNs: nat, disabled: bool)

  /** All eight motors report disabled, in replies received after the disable command. */
  predicate Confirms(replies: seq<Reply>, commandNs: nat) {
    |replies| == 8 && forall i :: 0 <= i < 8 ==> replies[i].receivedNs > commandNs && replies[i].disabled
  }

  datatype Kind = Motion | DisableOnly

  /** The wait of a native owner for its disable to be confirmed, over the feedback rounds that fit
      before its deadline: it ends with the first round that confirms, if there is one. */
  method ConfirmDisable(rounds: seq<seq<Reply>>, commandNs: nat) returns (confirmed: bool, used: nat)
    requires forall k :: 0 <= k < |rounds| ==> |rounds[k]| == 8
    ensures confirmed <==> exists k :: 0 <= k < |rounds| && Confirms(rounds[k], commandNs)
    ensures confirmed ==> used < |rounds| && Confirms(rounds[used], commandNs)
    ensures forall k :: 0 <= k < |rounds| && Confirms(rounds[k], commandNs) ==> used <= k
  {
    confirmed, used := false, 0;
    while used < |rounds|
      invariant used <= |rounds| && !confirmed
      invariant forall k :: 0 <= k < used ==> !Confirms(rounds[k], commandNs)
    {
      confirmed := true;
      for i := 0 to 8
        invariant confirmed <==> forall j :: 0 <= j < i ==> rounds[used][j].receivedNs > commandNs && rounds[used][j].disabled
      {
        if rounds[used][i].receivedNs <= commandNs || !rounds[used][i].disabled { confirmed := false; }
      }
      assert confirmed == Confirms(rounds[used], commandNs);
      if confirmed { return; }
      used := used + 1;
    }
  }

  /** The status lines of a native owner that the supervisor acts on. */
  datatype Line = Running | NotEnabled | Disabled | Completed

  datatype Stage =
    | Working              // up to the end of the control loop
    | Disabling            // the command and the wait for replies
    | Confirmed            // eight fresh disabled replies seen
    | Closed               // SDK closed, files being written
    | Exited(zero: bool)

  datatype Native = Native(
    kind: Kind, stage: Stage, enabled: bool, commandNs: Option<nat>, replies: seq<Reply>,
    success: bool, out: seq<Line>, reaped: bool)

  function NewNative(kind: Kind): Native { Native(kind, Working, false, None, [], false, [], false) }

  datatype Move =
    | Say                          // a running status line
    | Enable                       // the first enable command is issued
    | Conclude(ok: bool)           // the loop ended, normally or not
    | Command(now: nat)            // the disable command
    | Look(replies: seq<Reply>)    // one round of fresh feedback
    | GiveUp                       // the command failed, or the replies did not come in time
    | Announce                     // the disabled status line
    | Trouble                      // a health check or an output file failed afterwards
    | Exit
    | Die                          // killed, or crashed

  predicate Alive(n: Native) { !n.stage.Exited? }

  /** A motion owner succeeds only after enabling; the disable-only owner always disables. */
  function Concluded(n: Native, ok: bool): Native {
    if n.kind.DisableOnly? || n.enabled then n.(enabled := true, success := ok || n.kind.DisableOnly?, stage := Disabling)
    else n.(success := false, out := n.out + [NotEnabled], stage := Closed)
  }

  function Looked(n: Native, replies: seq<Reply>): Native {
    if n.commandNs.Some? && Confirms(replies, n.commandNs.value) then n.(replies := replies, stage := Confirmed) else n
  }

  function Finished(n: Native): Native {
    if n.success && Disabled in n.out then n.(out := n.out + [Completed], stage := Exited(true))
    else n.(stage := Exited(false))
  }

  function Moved(n: Native, m: Move): Native {
    match n.stage
    case Exited(_) => n
    case _ =>
      match m
      case Say => if n.stage.Working? then n.(out := n.out + [Running]) else n
      case Enable => if n.stage.Working? && n.kind.Motion? then n.(enabled := true) else n
      case Conclude(ok) => if n.stage.Working? then Concluded(n, ok) else n
      case Command(now) => if n.stage.Disabling? && n.commandNs == None then n.(commandNs := Some(now)) else n
      case Look(replies) => if n.stage.Disabling? then Looked(n, replies) else n
      case GiveUp => if n.stage.Disabling? then n.(success := false, stage := Closed) else n
      case Announce => if n.stage.Confirmed? then n.(out := n.out + [Disabled], stage := Closed) else n
      case Trouble => n.(success := false)
      case Exit => if n.stage.Closed? then Finished(n) else n
      case Die => n.(stage := Exited(false))
  }

  /** The owner saw every motor disabled by replies newer than its command. */
  predicate Evidence(n: Native) { n.commandNs.Some? && Confirms(n.replies, n.commandNs.value) }

  predicate NativeInv(n: Native) {
    && (n.stage.Confirmed? ==> Evidence(n)) && (Disabled in n.out ==> Evidence(n))
    && (n.stage == Exited(true) ==> Disabled in n.out && n.success)
    && (n.stage.Working? || n.stage.Disabling? ==> Disabled !in n.out)
    && (n.reaped ==> !Alive(n))
  }

  lemma MoveKeeps(n: Native, m: Move)
    requires NativeInv(n)
    ensures NativeInv(Moved(n, m)) && Moved(n, m).kind == n.kind && n.out <= Moved(n, m).out
    ensures !Alive(n) ==> Moved(n, m) == n
  {
    hide Confirms;
  }

  // ----- the supervisor

  /** What the supervision of one child has seen. */
  datatype Watch = Watch(kind: Kind, read: nat, disabled: bool, failure: bool, terminated: bool)

  datatype Place =
    | Off                                        // not running
    | Preflight                                  // the exclusive lock is held
    | Configured                                 // the link is configured, motors are probed
    | Watching(w: Watch)
    | Draining(w: Watch)                         // the child has exited
    | Abandoning(w: Watch)                       // an exception: stop and reap the child
    | Returned(w: Watch, zero: bool)
    | Raised(kind: Kind, owned: bool)            // its child, if there was one, is reaped
    | Lowering
    | Done

  datatype State = State(
    place: Place, natives: seq<Native>, linkUp: bool, configured: bool,
    disabledVerified: bool, passed: bool, motionStarted: bool, cleanupStarted: bool)

  const INITIAL := State(Off, [], false, false, false, false, false, false)

  datatype Action =
    | Start | Configure | Refuse | Launch | LaunchFails
    | ReadLine | Fault | Terminate | Kill | NoticeExit | Throw | Drain | Reap
    | Judge(complete: bool) | Lower(ok: bool)
    | Crash                            // the supervisor is killed
    | OrphanLowers                     // a native owner without supervisor
    | Child(k: nat, move: Move)

  /** The lock is inherited by the children, so it is free when the supervisor and all of them
      have exited. */
  predicate LockFree(s: State) { (s.place.Off? || s.place.Done?) && NoneAlive(s.natives) }

  predicate NoneAlive(natives: seq<Native>) { forall k :: 0 <= k < |natives| ==> !Alive(natives[k]) }

  function Started(s: State): State {
    if LockFree(s) then State(Preflight, s.natives, s.linkUp, false, false, false, false, false) else s
  }

  /** A failed preflight skips to the end, a failed launch counts as a failed owner. */
  function Refused(s: State): State {
    if s.place.Preflight? || s.place.Configured? then s.(place := Lowering) else s
  }

  function Spawn(s: State, kind: Kind): State {
    s.(place := Watching(Watch(kind, 0, false, false, false)), natives := s.natives + [NewNative(kind)],
       motionStarted := true, cleanupStarted := s.cleanupStarted || kind.DisableOnly?)
  }

  /** The motion owner starts from a configured link, the disable-only owner after a failed one. */
  predicate MayClean(s: State) { s.place.Raised? && s.place.kind.Motion? }

  function Launched(s: State): State {
    if s.place.Configured? then Spawn(s, Motion)
    else if MayClean(s) then Spawn(s, DisableOnly)
    else s
  }

  function LaunchFailed(s: State): State {
    if s.place.Configured? then s.(place := Raised(Motion, false), motionStarted := true)
    else if MayClean(s) then s.(place := Raised(DisableOnly, false), cleanupStarted := true)
    else s
  }

  /** The lines of the current child. */
  function Output(s: State): seq<Line> {
    if s.natives == [] then [] else s.natives[|s.natives| - 1].out
  }

  function LineRead(s: State): State {
    if s.place.Watching? && s.place.w.read < |Output(s)| then
      var w := s.place.w;
      s.(place := Watching(w.(read := w.read + 1, disabled := w.disabled || Output(s)[w.read] == Disabled)))
    else s
  }

  /** Whatever is wrong is remembered; the child is then told to stop. */
  function Faulted(s: State): State {
    if s.place.Watching? then s.(place := Watching(s.place.w.(failure := true))) else s
  }

  function Terminated(s: State): State {
    if s.place.Watching? && s.place.w.failure then s.(place := Watching(s.place.w.(terminated := true))) else s
  }

  function WithLast(natives: seq<Native>, n: Native): seq<Native>
    requires natives != []
  {
    natives[|natives| - 1 := n]
  }

  /** A process that is waited for is gone; what it could still write is lost if it was killed. */
  function Waited(n: Native): Native {
    if Alive(n) then n.(stage := Exited(false), reaped := true) else n.(reaped := true)
  }

  function LastWaited(natives: seq<Native>): seq<Native> {
    if natives == [] then natives else WithLast(natives, Waited(natives[|natives| - 1]))
  }

  function Killed(s: State): State {
    if s.place.Watching? && s.place.w.terminated then
      s.(place := Draining(s.place.w), natives := LastWaited(s.natives))
    else s
  }

  function ExitNoticed(s: State): State {
    if s.place.Watching? && s.natives != [] && !Alive(s.natives[|s.natives| - 1]) then
      s.(place := Draining(s.place.w), natives := LastWaited(s.natives))
    else s
  }

  function Thrown(s: State): State {
    match s.place
    case Watching(w) => s.(place := Abandoning(w))
    case Draining(w) => s.(place := Abandoning(w))
    case _ => s
  }

  /** The rest of the output is read, then the exit code. */
  function Drained(s: State): State {
    if s.place.Draining? && s.natives != [] then
      var n := s.natives[|s.natives| - 1];
      s.(place := Returned(s.place.w.(disabled := s.place.w.disabled || Disabled in n.out), n.stage == Exited(true)))
    else s
  }

  function Abandoned(s: State): State {
    if s.place.Abandoning? then s.(place := Raised(s.place.w.kind, true), natives := LastWaited(s.natives)) else s
  }

  /** The verdict on a child: only a motion owner that exited with 0, without a fault, disabled and
      with complete evidence passes. Without a verified disable a disable-only owner follows. */
  function Judged(s: State, complete: bool): State {
    if s.place.Returned? then
      var w := s.place.w;
      var t := s.(disabledVerified := w.disabled);
      if w.kind.DisableOnly? then t.(place := Lowering)
      else if !w.disabled then t.(place := Raised(Motion, true))
      else t.(place := Lowering, passed := s.place.zero && !w.failure && complete)
    else if s.place.Raised? && s.place.kind.DisableOnly? then s.(place := Lowering)
    else s
  }

  function Lowered(s: State, ok: bool): State {
    if !s.place.Lowering? then s
    else if s.configured && ok then s.(place := Done, linkUp := false)
    else s.(place := Done, passed := s.passed && ok)
  }

  /** A native owner whose supervisor is gone takes the link down after its own disable attempt. */
  function OrphanLowered(s: State): State {
    if s.place.Off? && s.natives != [] && s.natives[|s.natives| - 1].stage.Closed? then s.(linkUp := false) else s
  }

  function Step(s: State, a: Action): State {
    match a
    case Start => Started(s)
    case Configure => if s.place.Preflight? then s.(place := Configured, configured := true, linkUp := true) else s
    case Refuse => Refused(s)
    case Launch => Launched(s)
    case LaunchFails => LaunchFailed(s)
    case ReadLine => LineRead(s)
    case Fault => Faulted(s)
    case Terminate => Terminated(s)
    case Kill => Killed(s)
    case NoticeExit => ExitNoticed(s)
    case Throw => Thrown(s)
    case Drain => Drained(s)
    case Reap => Abandoned(s)
    case Judge(complete) => Judged(s, complete)
    case Lower(ok) => Lowered(s, ok)
    case Crash => if s.place.Done? then s else s.(place := Off, passed := false, disabledVerified := false)
    case OrphanLowers => OrphanLowered(s)
    case Child(k, m) => if k < |s.natives| then s.(natives := s.natives[k := Moved(s.natives[k], m)]) else s
  }

  function Run(actions: seq<Action>): State
    decreases |actions|
  {
    if actions == [] then INITIAL else Step(Run(actions[..|actions| - 1]), actions[|actions| - 1])
  }

  // ----- invariants

  predicate NativesInv(natives: seq<Native>) { forall k :: 0 <= k < |natives| ==> NativeInv(natives[k]) }

  /** Only the newest owner can be alive. */
  predicate OnlyLast(natives: seq<Native>) { forall k :: 0 <= k < |natives| - 1 ==> !Alive(natives[k]) }

  function Last(s: State): Native
    requires s.natives != []
  {
    s.natives[|s.natives| - 1]
  }

  /** What the supervisor has noted is what its child printed. */
  predicate Seen(s: State, w: Watch) {
    s.natives != [] && Last(s).kind == w.kind && (w.disabled ==> Disabled in Last(s).out)
  }

  predicate Reported(s: State) { s.passed || s.disabledVerified }

  predicate LastReaped(s: State) { s.natives != [] && Last(s).reaped && NoneAlive(s.natives) }

  predicate PlaceInv(s: State) {
    match s.place
    case Off => !Reported(s)
    case Watching(w) => Seen(s, w) && !Reported(s)
    case Abandoning(w) => Seen(s, w) && !Reported(s)
    case Draining(w) => Seen(s, w) && LastReaped(s) && !Reported(s)
    case Returned(w, zero) =>
      && Seen(s, w) && LastReaped(s) && !Reported(s)
      && (zero <==> Last(s).stage == Exited(true)) && (w.disabled <==> Disabled in Last(s).out)
    case Raised(_, owned) => NoneAlive(s.natives) && !Reported(s) && (owned ==> LastReaped(s))
    case Lowering => NoneAlive(s.natives)
    case Done => NoneAlive(s.natives)
    case _ => NoneAlive(s.natives) && !Reported(s)
  }

  /** Motion starts at most once in a run; without a verified disable a cleanup was tried. */
  predicate CleanupInv(s: State) {
    match s.place
    case Off => true
    case Preflight => !s.motionStarted && !s.configured
    case Configured => !s.motionStarted && s.configured
    case Watching(w) => s.motionStarted && (w.kind.DisableOnly? ==> s.cleanupStarted)
    case Draining(w) => s.motionStarted && (w.kind.DisableOnly? ==> s.cleanupStarted)
    case Abandoning(w) => s.motionStarted && (w.kind.DisableOnly? ==> s.cleanupStarted)
    case Returned(w, _) => s.motionStarted && (w.kind.DisableOnly? ==> s.cleanupStarted)
    case Raised(kind, _) => s.motionStarted && (kind.DisableOnly? ==> s.cleanupStarted)
    case _ => s.motionStarted && !s.disabledVerified ==> s.cleanupStarted
  }

  /** A report of a verified disable, or of success, rests on evidence of the newest owner. */
  predicate ReportInv(s: State) {
    && (s.disabledVerified ==> s.natives != [] && Evidence(Last(s)) && !Alive(Last(s)))
    && (s.passed ==> s.disabledVerified && Last(s).kind == Motion && Last(s).stage == Exited(true))
  }

  predicate Inv(s: State) { NativesInv(s.natives) && OnlyLast(s.natives) && PlaceInv(s) && ReportInv(s) && CleanupInv(s) }

  lemma ChildKeeps(s: State, k: nat, m: Move)
    requires Inv(s) && k < |s.natives|
    ensures Inv(Step(s, Child(k, m)))
  {
    MoveKeeps(s.natives[k], m);
    hide Moved, NativeInv, Confirms, Evidence;
    var n := Moved(s.natives[k], m);
    assert forall x :: x in s.natives[k].out ==> x in n.out;
  }

  lemma LaunchKeeps(s: State)
    requires Inv(s)
    ensures Inv(Launched(s)) && Inv(LaunchFailed(s)) && Inv(Started(s)) && Inv(Refused(s))
  {
    hide Confirms;
  }

  lemma WatchKeeps(s: State)
    requires Inv(s)
    ensures Inv(LineRead(s)) && Inv(Faulted(s)) && Inv(Terminated(s)) && Inv(Thrown(s))
  {
    hide NativeInv, Evidence;
  }

  lemma WaitedKeeps(s: State)
    requires NativesInv(s.natives) && OnlyLast(s.natives) && s.natives != []
    ensures var after := LastWaited(s.natives);
      && NativesInv(after) && NoneAlive(after) && |after| == |s.natives| && after[|after| - 1].reaped
      && after[|after| - 1].kind == Last(s).kind && after[|after| - 1].out == Last(s).out
  {
    hide Confirms;
  }

  lemma ReapKeeps(s: State)
    requires Inv(s)
    ensures Inv(Killed(s)) && Inv(ExitNoticed(s)) && Inv(Abandoned(s))
  {
    if s.natives != [] { WaitedKeeps(s); }
    hide NativesInv, LastWaited, Evidence, Waited;
    assert NoneAlive(LastWaited(s.natives)) ==> OnlyLast(LastWaited(s.natives));
  }

  lemma JudgeKeeps(s: State, complete: bool)
    requires Inv(s)
    ensures Inv(Drained(s)) && Inv(Judged(s, complete))
  {
    hide Evidence;
    if s.natives != [] { assert NativeInv(Last(s)); }
  }

  lemma EndKeeps(s: State, ok: bool)
    requires Inv(s)
    ensures Inv(Lowered(s, ok)) && Inv(OrphanLowered(s)) && Inv(Step(s, Crash)) && Inv(Step(s, Configure))
  {
    hide NativesInv, Evidence, OnlyLast;
  }

  lemma StepKeeps(s: State, a: Action)
    requires Inv(s)
    ensures Inv(Step(s, a))
  {
    hide Inv, Launched, LaunchFailed, Started, Refused, LineRead, Faulted, Terminated, Thrown, Killed, ExitNoticed,
      Abandoned, Drained, Judged, Lowered, OrphanLowered, Moved;
    match a {
      case Child(k, m) => if k < |s.natives| { ChildKeeps(s, k, m); }
      case Start | Refuse | Launch | LaunchFails => LaunchKeeps(s);
      case ReadLine | Fault | Terminate | Throw => WatchKeeps(s);
      case Kill | NoticeExit | Reap => ReapKeeps(s);
      case Drain => JudgeKeeps(s, false);
      case Judge(complete) => JudgeKeeps(s, complete);
      case Lower(ok) => EndKeeps(s, ok);
      case Configure | Crash | OrphanLowers => EndKeeps(s, false);
    }
  }

  lemma {:induction false} InvAlways(actions: seq<Action>)
    ensures Inv(Run(actions))
    decreases |actions|
  {
    if actions != [] {
      InvAlways(actions[..|actions| - 1]);
      hide Inv, Step;
      StepKeeps(Run(actions[..|actions| - 1]), actions[|actions| - 1]);
    }
  }

  // ----- safety over all behaviours

  /** At most one native motor owner is alive, however runs fail, crash and are started again. */
  lemma AtMostOneOwner(actions: seq<Action>, j: nat, k: nat)
    requires j < |Run(actions).natives| && k < |Run(actions).natives|
    requires Alive(Run(actions).natives[j]) && Alive(Run(actions).natives[k])
    ensures j == k
  {
    InvAlways(actions);
  }

  /** An owner is launched only when every earlier one has exited. A disable-only owner is launched
      only after motion was tried in this run, whose owner, if there was one, has been waited for;
      a motion owner only if motion was not tried yet. */
  lemma OwnersAreSequential(actions: seq<Action>)
    ensures var s, t := Run(actions), Step(Run(actions), Launch);
      t.natives != s.natives ==>
        && NoneAlive(s.natives) && t.natives == s.natives + [NewNative(Last(t).kind)]
        && (Last(t).kind.Motion? <==> !s.motionStarted)
        && (Last(t).kind.DisableOnly? && s.place.owned ==> LastReaped(s))
  {
    InvAlways(actions);
    hide NativesInv, Evidence, OnlyLast;
  }

  /** The supervisor takes the link down only when no owner is alive. Otherwise only an owner whose
      supervisor is gone does, and only after its own disable attempt. */
  lemma LinkGoesDownLast(actions: seq<Action>, a: Action)
    requires Run(actions).linkUp && !Step(Run(actions), a).linkUp
    ensures var s := Run(actions);
      || (a.Lower? && NoneAlive(s.natives))
      || (a.OrphanLowers? && s.place.Off? && s.natives != [] && Last(s).stage.Closed?)
  {
    InvAlways(actions);
    hide NativesInv, Evidence, OnlyLast, Moved;
  }

  /** A passed run ended with a motion owner that exited with 0 after it saw a disabled reply from
      each of the eight motors, received after its disable command; and no owner is left. */
  lemma PassedMeansDisabled(actions: seq<Action>)
    requires Run(actions).passed
    ensures var s := Run(actions);
      && s.natives != [] && Last(s).kind == Motion && Last(s).stage == Exited(true) && NoneAlive(s.natives)
      && Last(s).commandNs.Some? && |Last(s).replies| == 8
      && forall i :: 0 <= i < 8 ==> Last(s).replies[i].disabled && Last(s).replies[i].receivedNs > Last(s).commandNs.value
  {
    InvAlways(actions);
  }

  /** A finished run that tried motion either verified that the motors are disabled, or tried a
      disable-only owner and reports failure. */
  lemma FinishedRunsAreAccountedFor(actions: seq<Action>)
    requires Run(actions).place.Done? && Run(actions).motionStarted
    ensures var s := Run(actions);
      if s.disabledVerified then s.natives != [] && Evidence(Last(s)) else s.cleanupStarted && !s.passed
  {
    InvAlways(actions);
    hide NativesInv, Evidence, OnlyLast;
  }

  // ----- the verdict

  /** Something was wrong since the owner that is supervised was launched. */
  predicate FaultSince(actions: seq<Action>)
    decreases |actions|
  {
    actions != [] &&
    var n := |actions| - 1;
    var before := Run(actions[..n]).place;
    if actions[n].Launch? && (before.Configured? || before.Raised?) then false
    else (actions[n].Fault? && before.Watching?) || FaultSince(actions[..n])
  }

  /** What the supervision remembers of faults is what happened. */
  predicate Remembers(s: State, faulty: bool) {
    match s.place
    case Watching(w) => w.failure == faulty
    case Draining(w) => w.failure == faulty
    case Returned(w, _) => w.failure == faulty
    case _ => true
  }

  lemma {:induction false} FaultsRemembered(actions: seq<Action>)
    ensures Remembers(Run(actions), FaultSince(actions))
    decreases |actions|
  {
    if actions != [] {
      var n := |actions| - 1;
      FaultsRemembered(actions[..n]);
      RemembersStep(Run(actions[..n]), actions[n], FaultSince(actions[..n]), FaultSince(actions));
    }
  }

  lemma RemembersStep(s: State, a: Action, faulty: bool, after: bool)
    requires Remembers(s, faulty)
    requires after == if a.Launch? && (s.place.Configured? || s.place.Raised?) then false else (a.Fault? && s.place.Watching?) || faulty
    ensures Remembers(Step(s, a), after)
  {
    hide Moved, LastWaited;
  }

  /** The run passes with this action: the supervised motion owner has exited with 0 and printed that
      the motors are disabled, nothing was wrong since its launch, and the evidence is complete. */
  predicate PassesWith(actions: seq<Action>, a: Action) {
    var s := Run(actions);
    && a == Judge(true) && s.place.Returned? && s.natives != [] && Last(s).kind.Motion?
    && Last(s).stage == Exited(true) && Disabled in Last(s).out && !FaultSince(actions)
  }

  /** A run that has passed is no longer passed: the link could not be lowered, the supervisor died
      before its end, or the next run has begun. */
  predicate Undone(s: State, a: Action) {
    || (a == Lower(false) && s.place.Lowering?) || (a.Crash? && !s.place.Done?) || (a.Start? && LockFree(s))
  }

  /** Over all runs: a run comes to be passed exactly with such a verdict, and stays so until undone. */
  lemma PassedExactly(actions: seq<Action>, a: Action)
    ensures Run(actions + [a]).passed <==> if Run(actions).passed then !Undone(Run(actions), a) else PassesWith(actions, a)
  {
    assert (actions + [a])[..|actions|] == actions;
    InvAlways(actions);
    FaultsRemembered(actions);
    VerdictStep(Run(actions), a, FaultSince(actions));
  }

  lemma VerdictStep(s: State, a: Action, faulty: bool)
    requires Inv(s) && Remembers(s, faulty)
    ensures Step(s, a).passed <==>
      if s.passed then !Undone(s, a)
      else
        && a == Judge(true) && s.place.Returned? && s.natives != [] && Last(s).kind.Motion?
        && Last(s).stage == Exited(true) && Disabled in Last(s).out && !faulty
  {
    if a.Judge? { JudgeVerdict(s, a.complete, faulty); } else { OtherVerdict(s, a); }
  }

  lemma JudgeVerdict(s: State, complete: bool, faulty: bool)
    requires Inv(s) && Remembers(s, faulty)
    ensures Judged(s, complete).passed <==>
      s.passed || (complete && s.place.Returned? && s.natives != [] && Last(s).kind.Motion?
                   && Last(s).stage == Exited(true) && Disabled in Last(s).out && !faulty)
  {
    hide NativesInv, Evidence, OnlyLast, NoneAlive, CleanupInv;
  }

  lemma OtherVerdict(s: State, a: Action)
    requires Inv(s) && !a.Judge?
    ensures Step(s, a).passed <==> s.passed && !Undone(s, a)
  {
    hide Moved, LastWaited, NativesInv, Evidence, OnlyLast, NoneAlive, ReportInv, Judged, Last, CleanupInv;
  }

  /** The disable counts as verified exactly if the owner that is judged printed so; without, a motion
      owner is followed by a disable-only one, and a run that tried that has failed. */
  lemma DisableVerifiedExactly(actions: seq<Action>, complete: bool)
    requires Run(actions).place.Returned?
    ensures var s, t := Run(actions), Step(Run(actions), Judge(complete));
      && s.natives != [] && (t.disabledVerified <==> Disabled in Last(s).out)
      && (Last(s).kind.DisableOnly? ==> t.place.Lowering? && !t.passed)
      && (Last(s).kind.Motion? ==> if t.disabledVerified then t.place.Lowering? else MayClean(t))
  {
    InvAlways(actions);
    hide NativesInv, Evidence, OnlyLast;
  }

  // ----- the life of one owner

  function Life(n: Native, moves: seq<Move>): Native
    decreases |moves|
  {
    if moves == [] then n else Moved(Life(n, moves[..|moves| - 1]), moves[|moves| - 1])
  }

  lemma Next(n: Native, moves: seq<Move>, m: Move) returns (longer: seq<Move>)
    ensures longer == moves + [m] && Life(n, longer) == Moved(Life(n, moves), m)
  {
    hide Moved;
    longer := moves + [m];
    assert longer[..|moves|] == moves;
  }

  /** The normal life of an owner: a motion owner enables and its loop ends well, then every motor is
      disabled, eight fresh replies say so, this is announced, and it exits with 0. */
  lemma OwnerMayComplete(kind: Kind, now: nat, replies: seq<Reply>) returns (moves: seq<Move>)
    requires |replies| == 8 && forall i :: 0 <= i < 8 ==> replies[i].disabled && replies[i].receivedNs > now
    ensures Life(NewNative(kind), moves)
      == Native(kind, Exited(true), true, Some(now), replies, true, [Running, Disabled, Completed], false)
  {
    var n := NewNative(kind);
    moves := [];
    assert Life(n, moves) == n;
    hide Life;
    moves := Next(n, moves, Say);
    moves := Next(n, moves, Enable);
    moves := Next(n, moves, Conclude(true));
    assert Life(n, moves) == Native(kind, Disabling, true, None, [], true, [Running], false);
    moves := Next(n, moves, Command(now));
    moves := Next(n, moves, Look(replies));
    moves := Next(n, moves, Announce);
    assert Life(n, moves) == Native(kind, Closed, true, Some(now), replies, true, [Running, Disabled], false);
    moves := Next(n, moves, Exit);
  }

  /** A motion owner that never enabled says so, disables nothing, and fails. */
  lemma OwnerMayNotEnable(ok: bool) returns (moves: seq<Move>)
    ensures Life(NewNative(Motion), moves) == Native(Motion, Exited(false), false, None, [], false, [NotEnabled], false)
  {
    var n := NewNative(Motion);
    moves := [];
    assert Life(n, moves) == n;
    hide Life;
    moves := Next(n, moves, Conclude(ok));
    moves := Next(n, moves, Exit);
  }

  /** Past its loop an owner that has failed, by its loop, by giving up on the disable or by later trouble,
      never succeeds again. */
  lemma {:induction false} FailedOwnerStays(n: Native, moves: seq<Move>)
    requires !n.stage.Working? && !n.success && n.stage != Exited(true)
    ensures var m := Life(n, moves); !m.stage.Working? && !m.success && m.stage != Exited(true)
    decreases |moves|
  {
    if moves != [] {
      FailedOwnerStays(n, moves[..|moves| - 1]);
      hide Confirms;
    }
  }

  /** And these are its failures: a loop that did not end well, a disable that was given up, trouble
      afterwards; being killed ends it at once. */
  lemma FailuresAreNoted(n: Native, ok: bool)
    requires Alive(n)
    ensures n.stage.Working? && n.kind.Motion? && (!ok || !n.enabled) ==> !Moved(n, Conclude(ok)).success && !Moved(n, Conclude(ok)).stage.Working?
    ensures n.stage.Working? && n.kind.Motion? && n.enabled ==> Moved(n, Conclude(ok)) == n.(success := ok, stage := Disabling)
    ensures n.stage.Working? && n.kind.DisableOnly? ==> Moved(n, Conclude(ok)) == n.(enabled := true, success := true, stage := Disabling)
    ensures n.stage.Disabling? ==> Moved(n, GiveUp) == n.(success := false, stage := Closed)
    ensures Moved(n, Trouble) == n.(success := false) && Moved(n, Die) == n.(stage := Exited(false))
  {}

  /** The first disable command counts, and only its fresh confirmation ends the wait. */
  lemma DisableIsConfirmedOnce(n: Native, now: nat, replies: seq<Reply>)
    requires n.stage.Disabling?
    ensures Moved(n, Command(now)).commandNs == if n.commandNs == None then Some(now) else n.commandNs
    ensures Moved(n, Command(now)).stage == n.stage
    ensures var m := Moved(n, Look(replies));
      if n.commandNs.Some? && |replies| == 8 && forall i :: 0 <= i < 8 ==> replies[i].disabled && replies[i].receivedNs > n.commandNs.value
      then m == n.(replies := replies, stage := Confirmed) else m == n
  {}

  // ----- what is possible

  lemma Then(actions: seq<Action>, a: Action) returns (longer: seq<Action>)
    ensures longer == actions + [a] && Run(longer) == Step(Run(actions), a)
  {
    longer := actions + [a];
    assert longer[..|actions|] == actions;
  }

  lemma {:induction false} Lives(actions: seq<Action>, k: nat, moves: seq<Move>) returns (r: seq<Action>)
    requires k < |Run(actions).natives|
    ensures Run(r) == Run(actions).(natives := Run(actions).natives[k := Life(Run(actions).natives[k], moves)])
    decreases |moves|
  {
    hide Run, Moved;
    if moves == [] {
      r := actions;
    } else {
      r := Lives(actions, k, moves[..|moves| - 1]);
      r := Then(r, Child(k, moves[|moves| - 1]));
    }
  }

  lemma MotionIsLaunched() returns (r: seq<Action>)
    ensures Run(r) == State(Watching(Watch(Motion, 0, false, false, false)), [NewNative(Motion)], true, true, false, false, true, false)
  {
    r := [];
    assert Run(r) == INITIAL;
    hide Run;
    r := Then(r, Start);
    r := Then(r, Configure);
    r := Then(r, Launch);
  }

  /** What a completed owner is like once it has been waited for. */
  function CompletedOwner(kind: Kind, now: nat, replies: seq<Reply>): Native {
    Native(kind, Exited(true), true, Some(now), replies, true, [Running, Disabled, Completed], true)
  }

  /** A watched owner may complete, and the supervisor then knows that the motors are disabled. */
  lemma OwnerIsSeenThrough(actions: seq<Action>, kind: Kind, now: nat, replies: seq<Reply>) returns (r: seq<Action>)
    requires |replies| == 8 && forall i :: 0 <= i < 8 ==> replies[i].disabled && replies[i].receivedNs > now
    requires Run(actions).place == Watching(Watch(kind, 0, false, false, false))
    requires Run(actions).natives != [] && Last(Run(actions)) == NewNative(kind)
    ensures Run(r) == Run(actions).(
      place := Returned(Watch(kind, 0, true, false, false), true), natives := WithLast(Run(actions).natives, CompletedOwner(kind, now, replies)))
  {
    hide Run, Life, Moved;
    var moves := OwnerMayComplete(kind, now, replies);
    var k := |Run(actions).natives| - 1;
    r := Lives(actions, k, moves);
    r := Then(r, NoticeExit);
    r := Then(r, Drain);
  }

  /** An undisturbed run passes: the motion owner completes, and the link is lowered. */
  lemma RunMayPass(now: nat, replies: seq<Reply>) returns (r: seq<Action>)
    requires |replies| == 8 && forall i :: 0 <= i < 8 ==> replies[i].disabled && replies[i].receivedNs > now
    ensures Run(r) == State(Done, [CompletedOwner(Motion, now, replies)], false, true, true, true, true, false)
  {
    r := MotionIsLaunched();
    hide Run;
    r := OwnerIsSeenThrough(r, Motion, now, replies);
    r := Then(r, Judge(true));
    r := Then(r, Lower(true));
  }

  /** A run whose motion owner had to be killed still disables the motors with a second owner, and fails. */
  lemma RunMayCleanUp(now: nat, replies: seq<Reply>) returns (r: seq<Action>)
    requires |replies| == 8 && forall i :: 0 <= i < 8 ==> replies[i].disabled && replies[i].receivedNs > now
    ensures Run(r) == State(Done, [NewNative(Motion).(stage := Exited(false), reaped := true), CompletedOwner(DisableOnly, now, replies)],
                            false, true, true, false, true, true)
  {
    r := CleanUpIsLaunched();
    hide Run;
    r := OwnerIsSeenThrough(r, DisableOnly, now, replies);
    r := Then(r, Judge(false));
    r := Then(r, Lower(true));
  }

  lemma CleanUpIsLaunched() returns (r: seq<Action>)
    ensures Run(r) == State(Watching(Watch(DisableOnly, 0, false, false, false)),
      [NewNative(Motion).(stage := Exited(false), reaped := true), NewNative(DisableOnly)], true, true, false, false, true, true)
  {
    r := KilledOwner();
    hide Run;
    r := Then(r, Drain);
    r := Then(r, Judge(false));
    r := Then(r, Launch);
  }

  lemma KilledOwner() returns (r: seq<Action>)
    ensures Run(r) == State(Draining(Watch(Motion, 0, false, true, true)),
      [NewNative(Motion).(stage := Exited(false), reaped := true)], true, true, false, false, true, false)
  {
    r := MotionIsLaunched();
    hide Run;
    r := Then(r, Fault);
    r := Then(r, Terminate);
    r := Then(r, Kill);
  }

  /** From wherever it is, a running supervisor can come to its end: no owner is left alive, and a link it
      had configured is down. */
  lemma RunCanEnd(actions: seq<Action>) returns (r: seq<Action>)
    requires !Run(actions).place.Off? && !Run(actions).place.Done?
    ensures Run(r).place.Done? && NoneAlive(Run(r).natives)
    ensures Run(r).configured ==> !Run(r).linkUp
  {
    r := Unwatched(actions);
    r := ToLowering(r);
    hide Run;
    r := Then(r, Lower(true));
    InvAlways(r);
  }

  /** An exception ends the supervision of a child, which is then stopped and waited for. */
  lemma Unwatched(actions: seq<Action>) returns (r: seq<Action>)
    requires !Run(actions).place.Off? && !Run(actions).place.Done?
    ensures var p := Run(r).place;
      p.Preflight? || p.Configured? || p.Returned? || p.Raised? || p.Lowering?
  {
    hide Run;
    r := actions;
    if Run(r).place.Watching? || Run(r).place.Draining? { r := Then(r, Throw); }
    if Run(r).place.Abandoning? { r := Then(r, Reap); }
  }

  lemma ToLowering(actions: seq<Action>) returns (r: seq<Action>)
    requires var p := Run(actions).place;
      p.Preflight? || p.Configured? || p.Returned? || p.Raised? || p.Lowering?
    ensures Run(r).place.Lowering?
  {
    hide Run;
    r := actions;
    if Run(r).place.Preflight? || Run(r).place.Configured? { r := Then(r, Refuse); }
    if Run(r).place.Returned? { r := Then(r, Judge(false)); }
    if Run(r).place.Raised? && Run(r).place.kind.Motion? { r := Then(r, LaunchFails); }
    if Run(r).place.Raised? { r := Then(r, Judge(false)); }
  }

  /** A run begins exactly when no supervisor runs and no owner of any earlier run is alive, and begins with
      nothing configured, tried, verified or passed. */
  lemma StartNeedsTheLock(actions: seq<Action>)
    ensures var s, t := Run(actions), Step(Run(actions), Start);
      if (s.place.Off? || s.place.Done?) && forall k :: 0 <= k < |s.natives| ==> s.natives[k].stage.Exited?
      then t == State(Preflight, s.natives, s.linkUp, false, false, false, false, false) else t == s
  {
    hide Run;
  }

  /** An owner whose supervisor has died may take the link down when its own disable attempt is over. */
  lemma OrphanMayLower(s: State)
    requires s.place.Off? && s.natives != [] && Last(s).stage.Closed?
    ensures Step(s, OrphanLowers) == s.(linkUp := false)
  {}

  /** An owner was told to stop since it was launched. */
  predicate WarnedSince(actions: seq<Action>)
    decreases |actions|
  {
    actions != [] &&
    var n := |actions| - 1;
    var before := Run(actions[..n]).place;
    if actions[n].Launch? && (before.Configured? || before.Raised?) then false
    else (actions[n].Terminate? && before.Watching? && FaultSince(actions[..n])) || WarnedSince(actions[..n])
  }

  predicate RemembersWarning(s: State, warned: bool) {
    match s.place
    case Watching(w) => w.terminated == warned
    case _ => true
  }

  lemma {:induction false} WarningsRemembered(actions: seq<Action>)
    ensures RemembersWarning(Run(actions), WarnedSince(actions))
    decreases |actions|
  {
    if actions != [] {
      var n := |actions| - 1;
      WarningsRemembered(actions[..n]);
      FaultsRemembered(actions[..n]);
      hide Run;
      WarningStep(Run(actions[..n]), actions[n], FaultSince(actions[..n]), WarnedSince(actions[..n]));
      RunsOn(actions);
    }
  }

  lemma RunsOn(actions: seq<Action>)
    requires actions != []
    ensures Run(actions) == Step(Run(actions[..|actions| - 1]), actions[|actions| - 1])
  {
    hide Step;
  }

  lemma WarningStep(s: State, a: Action, faulty: bool, warned: bool)
    requires Remembers(s, faulty) && RemembersWarning(s, warned)
    ensures RemembersWarning(Step(s, a),
      if a.Launch? && (s.place.Configured? || s.place.Raised?) then false
      else (a.Terminate? && s.place.Watching? && faulty) || warned)
  {
    hide Moved, LastWaited;
  }

  /** The supervisor kills an owner exactly if it still watches it, something was wrong since its launch, and
      it was told to stop after that; the owner is then gone and waited for. */
  lemma KillNeedsWarning(actions: seq<Action>)
    ensures var s, t := Run(actions), Step(Run(actions), Kill);
      if s.place.Watching? && WarnedSince(actions) then t.place == Draining(s.place.w) && t.natives == LastWaited(s.natives)
      else t == s
  {
    WarningsRemembered(actions);
    hide Run, LastWaited;
  }
}
