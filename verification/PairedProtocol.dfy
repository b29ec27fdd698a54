/** The offline verifier of a paired session report, and its agreement with the machine
    that produced the report. */
module PairedProtocol {
  import opened Common
  import opened PairedSweep

  datatype Handling = Handling(settleSeconds: real, settleTimeoutSeconds: real)

  datatype Policy = Policy(hold: real, transition: real, cycles: nat, holdTest: real, handling: Option<Handling>) {
    function SweepSeconds(): real { hold + (4 * cycles) as real * (transition + hold) }
  }

  datatype Completion = Completion(completed: bool, disabledVerified: bool, elapsed: real)

  datatype Report = Report(
    policy: Policy, phases: seq<PhaseEvent>, acks: seq<Ack>, actual: real, completions: seq<Completion>)

  datatype ReportFault = WrongPhases | WrongAcks | BadTiming | BadSweep | BadSettling | BadCap | BadCompletion

  datatype PhaseSpan = PhaseSpan(name: Name, start: real, end: real)

  function Names(handling: bool): seq<Name> {
    if handling then [Baseline, AwaitingAttach, SettlingLoaded, Loaded, AwaitingRemove, SettlingEmptyAfter, EmptyAfter, Done]
    else [Baseline, AwaitingAttach, Loaded, AwaitingRemove, EmptyAfter, Done]
  }

  /** Which listed phases are sweeps, and which are settling. */
  function Sweeps(handling: bool): seq<nat> { if handling then [0, 3, 6] else [0, 2, 4] }

  function Microsecond(): real { 0.000001 }

  function Distance(x: real, y: real): real { if x < y then y - x else x - y }

  predicate NamesMatch(phases: seq<PhaseEvent>, names: seq<Name>) {
    |phases| == |names| && forall i :: 0 <= i < |names| ==> phases[i].name == names[i]
  }

  predicate Increasing(phases: seq<PhaseEvent>) {
    forall i :: 0 < i < |phases| ==> phases[i - 1].elapsed < phases[i].elapsed
  }

  function Length(phases: seq<PhaseEvent>, i: nat): real
    requires i + 1 < |phases|
  {
    phases[i + 1].elapsed - phases[i].elapsed
  }

  function PairedPhases(r: Report, timeout: real): Result<seq<PhaseSpan>, ReportFault> {
    var handling := r.policy.handling.Some?;
    var names := Names(handling);
    var t := r.phases;
    if !NamesMatch(t, names) then Err(WrongPhases)
    else if r.acks != [AttachReady, RemoveReady] then Err(WrongAcks)
    else if t[0].elapsed != 0.0 || !Increasing(t) then Err(BadTiming)
    else if exists i :: i in Sweeps(handling) && Distance(Length(t, i), r.policy.SweepSeconds()) > timeout then Err(BadSweep)
    else if handling && (BadSettle(r, 2) || BadSettle(r, 5)) then Err(BadSettling)
    else if r.actual >= r.policy.holdTest || t[|t| - 1].elapsed >= r.policy.holdTest
         || Distance(r.actual, t[|t| - 1].elapsed) > Microsecond() then Err(BadCap)
    else if |r.completions| != 1 || !r.completions[0].completed || !r.completions[0].disabledVerified
         || r.completions[0].elapsed != r.actual then Err(BadCompletion)
    else Ok(seq(|names| - 1, i requires 0 <= i < |names| - 1 => PhaseSpan(names[i], t[i].elapsed, t[i + 1].elapsed)))
  }

  predicate BadSettle(r: Report, i: nat)
    requires r.policy.handling.Some? && i + 1 < |r.phases|
  {
    !(r.policy.handling.value.settleSeconds - Microsecond() <= Length(r.phases, i) < r.policy.handling.value.settleTimeoutSeconds)
  }

  // ----- the machine's own log

  /** The place of the current phase in the list of names. */
  function Place(handling: bool, s: State): nat
    requires s.phase <= 5
  {
    if handling then [0, 1, 3, 4, 6, 7][s.phase] + (if s.settling then 1 else 0) else s.phase
  }

  function AcksBy(s: State): seq<Ack> {
    if s.phase == 0 || (s.phase == 1 && !s.settling) then []
    else if s.phase <= 2 || (s.phase == 3 && !s.settling) then [AttachReady]
    else [AttachReady, RemoveReady]
  }

  /** Every phase left so far lasted as the machine requires. */
  ghost predicate Lasted(c: Config, t: seq<PhaseEvent>) {
    && (forall i :: i in Sweeps(c.Handling()) && i + 1 < |t| ==> Length(t, i) >= c.duration)
    && (c.Handling() ==> forall i :: i in [2, 5] && i + 1 < |t| ==> c.settleMinimum <= Length(t, i) < c.settleTimeout)
  }

  ghost predicate NamedAlong(t: seq<PhaseEvent>, names: seq<Name>) {
    |t| <= |names| && forall i :: 0 <= i < |t| ==> t[i].name == names[i]
  }

  lemma NamesGrow(t: seq<PhaseEvent>, names: seq<Name>, next: PhaseEvent)
    requires NamedAlong(t, names) && |t| < |names| && next.name == names[|t|]
    ensures NamedAlong(t + [next], names)
  {}

  ghost predicate Logged(c: Config, x: Session) {
    var s, t, names := x.state, x.log, Names(c.Handling());
    && s.phase <= 5 && (s.settling ==> s.Waiting() && c.Handling()) && s.start <= s.last
    && |t| == Place(c.Handling(), s) + 1 && NamedAlong(t, names)
    && t[0].elapsed == 0.0 && t[|t| - 1].elapsed == s.start && Increasing(t)
    && x.acks == AcksBy(s) && Lasted(c, t)
    && (s.phase == 5 ==> s.start < c.cap)
  }

  ghost predicate StrictlyIncreasing(inputs: seq<Input>) {
    forall i :: 0 < i < |inputs| ==> inputs[i - 1].elapsed < inputs[i].elapsed
  }

  /** Appending the event that ends the current phase, if that phase lasted long enough. */
  lemma LogGrows(c: Config, t: seq<PhaseEvent>, next: PhaseEvent)
    requires t != [] && Lasted(c, t) && Increasing(t)
    requires var length, i := next.elapsed - t[|t| - 1].elapsed, |t| - 1;
      && length > 0.0
      && (i in Sweeps(c.Handling()) ==> length >= c.duration)
      && (c.Handling() && i in [2, 5] ==> c.settleMinimum <= length < c.settleTimeout)
    ensures Lasted(c, t + [next]) && Increasing(t + [next])
  {
    var u := t + [next];
    forall i: nat | i + 1 < |u|
      ensures i + 1 < |t| ==> Length(u, i) == Length(t, i)
      ensures i + 1 == |t| ==> Length(u, i) == next.elapsed - t[|t| - 1].elapsed
    {}
  }

  /** A step that changes the announced phase moves to the next name, at once, and only
      after the phase it leaves has lasted long enough. */
  lemma PhaseChange(c: Config, s: State, i: Input)
    requires c.Valid() && s.phase < 5 && s.start <= s.last && (s.settling ==> s.Waiting() && c.Handling())
    requires s.phase > 0 ==> s.last < i.elapsed
    requires Step(c, s, i.elapsed, i.advance, i.settled).1 == None
    ensures var h, n := c.Handling(), Step(c, s, i.elapsed, i.advance, i.settled).0;
      && n.phase <= 5 && (n.settling ==> n.Waiting() && h) && n.start <= n.last && (n.phase == 5 ==> n.start < c.cap)
      && Place(h, n) < |Names(h)| && Names(h)[Place(h, n)] == NameOf(n)
      && AcksBy(n) == (if i.advance then AcksBy(s) + [if s.phase == 1 then AttachReady else RemoveReady] else AcksBy(s))
      && if NameOf(n) == NameOf(s) then n == s.(last := i.elapsed)
         else
           var place, length := Place(h, s), i.elapsed - s.start;
           && Place(h, n) == place + 1 && n.start == i.elapsed && length > 0.0
           && (place in Sweeps(h) ==> length >= c.duration)
           && (h && place in [2, 5] ==> c.settleMinimum <= length < c.settleTimeout)
  {}

  lemma LoggedStep(c: Config, x: Session, i: Input)
    requires c.Valid() && Logged(c, x) && x.Live()
    requires x.state.phase > 0 ==> x.state.last < i.elapsed
    requires Continue(c, x, i).fault == None
    ensures Logged(c, Continue(c, x, i))
  {
    hide Step, NameOf, Lasted, Increasing, Names, AcksBy, NamedAlong, Sweeps;
    PhaseChange(c, x.state, i);
    var n := Step(c, x.state, i.elapsed, i.advance, i.settled).0;
    if NameOf(n) != NameOf(x.state) {
      NamesGrow(x.log, Names(c.Handling()), PhaseEvent(NameOf(n), i.elapsed));
      LogGrows(c, x.log, PhaseEvent(NameOf(n), i.elapsed));
    }
  }

  lemma {:induction false} RunIsLogged(c: Config, inputs: seq<Input>)
    requires c.Valid() && StrictlyIncreasing(inputs)
    ensures Run(c, inputs).fault == None ==> Logged(c, Run(c, inputs))
  {
    if inputs != [] {
      var front := inputs[..|inputs| - 1];
      RunIsLogged(c, front);
      WorkInProgress(c, front);
      LiveLast(c, front);
      var x := Run(c, front);
      if x.Live() && Run(c, inputs).fault == None {
        LoggedStep(c, x, inputs[|inputs| - 1]);
      }
    }
  }

  // ----- agreement

  /** The report of a completed session, as the supervisor assembles it. */
  function ReportOf(policy: Policy, x: Session): Report
    requires x.log != []
  {
    var end := x.log[|x.log| - 1].elapsed;
    Report(policy, x.log, x.acks, end, [Completion(true, true, end)])
  }

  /** The policy the machine was configured from. */
  ghost predicate Configures(policy: Policy, c: Config) {
    && policy.SweepSeconds() == c.duration && policy.holdTest == c.cap
    && (policy.handling.Some? <==> c.Handling())
    && (c.Handling() ==> policy.handling.value == Handling(c.settleMinimum, c.settleTimeout))
  }

  /** How late the step that closed each sweep came. */
  ghost predicate SweepsCloseWithin(c: Config, t: seq<PhaseEvent>, timeout: real) {
    forall i :: i in Sweeps(c.Handling()) && i + 1 < |t| ==> Length(t, i) - c.duration <= timeout
  }

  /** A completed session is accepted if and only if none of the three steps that closed a
      sweep came more than `timeout` after the sweep's end; nothing else can reject it. */
  lemma CompletedReportAccepted(c: Config, policy: Policy, inputs: seq<Input>, timeout: real)
    requires c.Valid() && Configures(policy, c) && StrictlyIncreasing(inputs)
    requires Run(c, inputs).fault == None && Run(c, inputs).state.Complete()
    ensures var x := Run(c, inputs);
      && x.log != []
      && (PairedPhases(ReportOf(policy, x), timeout).Ok? <==> SweepsCloseWithin(c, x.log, timeout))
      && (PairedPhases(ReportOf(policy, x), timeout).Err? ==> PairedPhases(ReportOf(policy, x), timeout).error == BadSweep)
  {
    var x := Run(c, inputs);
    RunIsLogged(c, inputs);
    AcceptLogged(c, policy, x, timeout);
  }

  lemma AcceptLogged(c: Config, policy: Policy, x: Session, timeout: real)
    requires c.Valid() && Configures(policy, c) && Logged(c, x) && x.state.Complete()
    ensures x.log != []
    ensures PairedPhases(ReportOf(policy, x), timeout).Ok? <==> SweepsCloseWithin(c, x.log, timeout)
    ensures PairedPhases(ReportOf(policy, x), timeout).Err? ==> PairedPhases(ReportOf(policy, x), timeout).error == BadSweep
  {
    var t, r := x.log, ReportOf(policy, x);
    NamesAsListed(c, x);
    SettlesAsListed(c, policy, x);
    SweepTest(c, t, timeout);
    hide Names, Increasing, Lasted, BadSettle, SweepsCloseWithin, NamedAlong, NamesMatch, Sweeps;
    assert Distance(r.actual, t[|t| - 1].elapsed) <= Microsecond();
  }

  lemma NamesAsListed(c: Config, x: Session)
    requires Logged(c, x) && x.state.Complete()
    ensures |x.log| == |Names(c.Handling())| >= 6 && NamesMatch(x.log, Names(c.Handling())) && x.acks == [AttachReady, RemoveReady]
    ensures forall i :: i in Sweeps(c.Handling()) ==> i + 1 < |x.log|
  {}

  lemma SettlesAsListed(c: Config, policy: Policy, x: Session)
    requires c.Valid() && Configures(policy, c) && Logged(c, x) && x.state.Complete()
    ensures c.Handling() ==> |x.log| == 8 && !BadSettle(ReportOf(policy, x), 2) && !BadSettle(ReportOf(policy, x), 5)
  {
    hide Increasing, Names, NamedAlong;
    if c.Handling() {
      assert 2 in [2, 5] && 5 in [2, 5];
      assert c.settleMinimum <= Length(x.log, 2) < c.settleTimeout && c.settleMinimum <= Length(x.log, 5) < c.settleTimeout;
    }
  }

  lemma SweepTest(c: Config, t: seq<PhaseEvent>, timeout: real)
    requires (forall i :: i in Sweeps(c.Handling()) ==> i + 1 < |t|) && Lasted(c, t)
    ensures (exists i :: i in Sweeps(c.Handling()) && Distance(Length(t, i), c.duration) > timeout)
       <==> !SweepsCloseWithin(c, t, timeout)
  {
    hide Sweeps;
    if !SweepsCloseWithin(c, t, timeout) {
      var i :| i in Sweeps(c.Handling()) && i + 1 < |t| && Length(t, i) - c.duration > timeout;
      assert Distance(Length(t, i), c.duration) > timeout;
    }
  }

  /** Control steps never further apart than `gap`. */
  ghost predicate GapsWithin(inputs: seq<Input>, gap: real) {
    && (inputs != [] ==> inputs[0].elapsed <= gap)
    && forall i :: 0 < i < |inputs| ==> inputs[i].elapsed - inputs[i - 1].elapsed <= gap
  }

  // ----- acceptance, step by step

  /** A step that finds its sweep overdue: it comes more than the tolerance after the sweep's end. */
  predicate Overdue(c: Config, s: State, elapsed: real, timeout: real) {
    s.Sweeping() && elapsed - s.start > c.duration + timeout
  }

  ghost predicate NeverOverdue(c: Config, inputs: seq<Input>, timeout: real) {
    forall k :: 0 <= k < |inputs| ==> OnTime(c, inputs, k, timeout)
  }

  /** Step k, if the session is still open, does not find its sweep overdue. */
  predicate OnTime(c: Config, inputs: seq<Input>, k: nat, timeout: real)
    requires k < |inputs|
  {
    Run(c, inputs[..k]).Live() ==> !Overdue(c, Run(c, inputs[..k]).state, inputs[k].elapsed, timeout)
  }

  lemma NeverOverdueGrows(c: Config, inputs: seq<Input>, timeout: real)
    requires inputs != []
    ensures var n := |inputs| - 1;
      NeverOverdue(c, inputs, timeout) <==> NeverOverdue(c, inputs[..n], timeout) && OnTime(c, inputs, n, timeout)
  {
    hide Run, Overdue;
    var n := |inputs| - 1;
    forall k | 0 <= k < n ensures OnTime(c, inputs, k, timeout) <==> OnTime(c, inputs[..n], k, timeout) {
      assert inputs[..n][..k] == inputs[..k];
    }
    hide OnTime;
  }

  /** A step closes the sweep in progress with a length that is too long exactly if it was overdue. */
  lemma StepCloses(c: Config, x: Session, i: Input, timeout: real)
    requires c.Valid() && Logged(c, x) && x.Live() && timeout >= 0.0 && (x.state.phase > 0 ==> x.state.last < i.elapsed)
    requires Continue(c, x, i).fault == None
    ensures SweepsCloseWithin(c, Continue(c, x, i).log, timeout)
       <==> SweepsCloseWithin(c, x.log, timeout) && !Overdue(c, x.state, i.elapsed, timeout)
  {
    PhaseChange(c, x.state, i);
    hide SweepsCloseWithin, Lasted, Names, AcksBy;
    var t, u, n := x.log, Continue(c, x, i).log, Step(c, x.state, i.elapsed, i.advance, i.settled).0;
    if NameOf(n) == NameOf(x.state) {
      assert u == t;
    } else {
      LogClosed(c, t, PhaseEvent(NameOf(n), i.elapsed), Place(c.Handling(), x.state), timeout);
      PlaceOfSweep(c, x.state);
    }
  }

  lemma PlaceOfSweep(c: Config, s: State)
    requires s.phase < 5 && (s.settling ==> s.Waiting() && c.Handling())
    ensures Place(c.Handling(), s) in Sweeps(c.Handling()) <==> s.Sweeping()
  {}

  lemma LogClosed(c: Config, t: seq<PhaseEvent>, next: PhaseEvent, place: nat, timeout: real)
    requires |t| == place + 1
    ensures SweepsCloseWithin(c, t + [next], timeout)
       <==> SweepsCloseWithin(c, t, timeout)
            && (place in Sweeps(c.Handling()) ==> next.elapsed - t[place].elapsed - c.duration <= timeout)
  {
    hide Sweeps;
    var u := t + [next];
    assert forall i: nat :: i + 1 < |t| ==> Length(u, i) == Length(t, i);
    assert Length(u, place) == next.elapsed - t[place].elapsed;
    if SweepsCloseWithin(c, u, timeout) {
      forall i | i in Sweeps(c.Handling()) && i + 1 < |t| ensures Length(t, i) - c.duration <= timeout {
        assert Length(u, i) == Length(t, i);
      }
    }
  }

  lemma {:induction false} LogShowsOverdue(c: Config, inputs: seq<Input>, timeout: real)
    requires c.Valid() && StrictlyIncreasing(inputs) && timeout >= 0.0 && Run(c, inputs).fault == None
    ensures SweepsCloseWithin(c, Run(c, inputs).log, timeout) <==> NeverOverdue(c, inputs, timeout)
  {
    if inputs != [] {
      hide SweepsCloseWithin, NeverOverdue, Logged, Overdue;
      var n := |inputs| - 1;
      var x := Run(c, inputs[..n]);
      LogShowsOverdue(c, inputs[..n], timeout);
      RunIsLogged(c, inputs[..n]);
      WorkInProgress(c, inputs[..n]);
      LiveLast(c, inputs[..n]);
      NeverOverdueGrows(c, inputs, timeout);
      if x.Live() { StepCloses(c, x, inputs[n], timeout); }
    }
  }

  /** A completed session is accepted if and only if no step found its sweep overdue: a condition on
      the time of each step that can be read off before the step is taken. */
  lemma AcceptedExactlyOnTime(c: Config, policy: Policy, inputs: seq<Input>, timeout: real)
    requires c.Valid() && Configures(policy, c) && StrictlyIncreasing(inputs) && timeout >= 0.0
    requires Run(c, inputs).fault == None && Run(c, inputs).state.Complete()
    ensures var x := Run(c, inputs);
      x.log != [] && (PairedPhases(ReportOf(policy, x), timeout).Ok? <==> NeverOverdue(c, inputs, timeout))
    ensures var r := PairedPhases(ReportOf(policy, Run(c, inputs)), timeout); r.Err? ==> r.error == BadSweep
  {
    CompletedReportAccepted(c, policy, inputs, timeout);
    LogShowsOverdue(c, inputs, timeout);
  }

  /** Steps no further apart than the tolerance never find a sweep overdue. */
  lemma NeverOverdueInTime(c: Config, inputs: seq<Input>, timeout: real)
    requires c.Valid() && StrictlyIncreasing(inputs) && GapsWithin(inputs, timeout)
    ensures NeverOverdue(c, inputs, timeout)
  {
    forall k | 0 <= k < |inputs| ensures OnTime(c, inputs, k, timeout) {
      WorkInProgress(c, inputs[..k]);
      LiveLast(c, inputs[..k]);
      AcknowledgedEndsBeforeCap(c, inputs[..k]);
      if k > 0 { assert inputs[..k][k - 1] == inputs[k - 1]; }
      hide Run;
      assert Run(c, []) == OPENING;
    }
  }

  /** Every complete session with strictly increasing steps no further apart than the state
      timeout is accepted, with or without manual handling. */
  lemma TimelySessionAccepted(c: Config, policy: Policy, inputs: seq<Input>, timeout: real)
    requires c.Valid() && Configures(policy, c) && StrictlyIncreasing(inputs) && GapsWithin(inputs, timeout)
    requires Run(c, inputs).fault == None && Run(c, inputs).state.Complete()
    ensures Run(c, inputs).log != [] && PairedPhases(ReportOf(policy, Run(c, inputs)), timeout).Ok?
  {
    NeverOverdueInTime(c, inputs, timeout);
    hide Run, NeverOverdue, PairedPhases;
    AcceptedExactlyOnTime(c, policy, inputs, timeout);
  }

  // ----- what every accepted report is

  /** The phases follow each other from time zero, under the given names. */
  predicate Timeline(t: seq<PhaseEvent>, names: seq<Name>) {
    && |t| == |names| && t != [] && t[0].elapsed == 0.0
    && (forall i :: 0 <= i < |t| ==> t[i].name == names[i])
    && forall i, j :: 0 <= i < j < |t| ==> t[i].elapsed < t[j].elapsed
  }

  /** Phase i lasted as long as a sweep, to the tolerance. */
  predicate SweepFits(r: Report, timeout: real, i: nat)
    requires i + 1 < |r.phases|
  {
    var length := r.phases[i + 1].elapsed - r.phases[i].elapsed;
    var nominal := r.policy.hold + (4 * r.policy.cycles) as real * (r.policy.transition + r.policy.hold);
    nominal - timeout <= length <= nominal + timeout
  }

  /** Phase i lasted at least the dwell, to the microsecond, and less than its timeout. */
  predicate SettleFits(r: Report, i: nat)
    requires i + 1 < |r.phases| && r.policy.handling.Some?
  {
    var length := r.phases[i + 1].elapsed - r.phases[i].elapsed;
    r.policy.handling.value.settleSeconds - 0.000001 <= length < r.policy.handling.value.settleTimeoutSeconds
  }

  /** The session was acknowledged twice, ended before its cap, and is reported once, complete, disabled
      and at the very time of its last phase, to the microsecond. */
  predicate WellEnded(r: Report) {
    && r.acks == [AttachReady, RemoveReady] && r.phases != []
    && r.actual < r.policy.holdTest && r.phases[|r.phases| - 1].elapsed < r.policy.holdTest
    && r.phases[|r.phases| - 1].elapsed - 0.000001 <= r.actual <= r.phases[|r.phases| - 1].elapsed + 0.000001
    && r.completions == [Completion(true, true, r.actual)]
  }

  /** A report without manual handling is accepted exactly if it shows baseline, attach, loaded, remove,
      empty and complete in order, its three sweeps fit, and it is well ended. */
  lemma PlainReportExactly(r: Report, timeout: real)
    requires r.policy.handling == None
    ensures PairedPhases(r, timeout).Ok? <==>
      && Timeline(r.phases, [Baseline, AwaitingAttach, Loaded, AwaitingRemove, EmptyAfter, Done])
      && SweepFits(r, timeout, 0) && SweepFits(r, timeout, 2) && SweepFits(r, timeout, 4) && WellEnded(r)
  {
    hide Increasing, NamesMatch, Timeline, SweepFits, Distance, Microsecond, WellEnded;
    TimelineExactly(r);
    if r.phases != [] { EndedExactly(r); }
    TimelineLength(r.phases, [Baseline, AwaitingAttach, Loaded, AwaitingRemove, EmptyAfter, Done]);
    MatchLength(r.phases, Names(false));
    if |r.phases| == 6 { SweepsExactly(r, timeout, [0, 2, 4]); }
  }

  /** With manual handling two settling phases lie before the loaded and the last sweep, and fit too. */
  lemma HandledReportExactly(r: Report, timeout: real)
    requires r.policy.handling.Some?
    ensures PairedPhases(r, timeout).Ok? <==>
      && Timeline(r.phases, [Baseline, AwaitingAttach, SettlingLoaded, Loaded, AwaitingRemove, SettlingEmptyAfter, EmptyAfter, Done])
      && SweepFits(r, timeout, 0) && SweepFits(r, timeout, 3) && SweepFits(r, timeout, 6)
      && SettleFits(r, 2) && SettleFits(r, 5) && WellEnded(r)
  {
    hide Increasing, NamesMatch, Timeline, SweepFits, SettleFits, BadSettle, Distance, Microsecond, WellEnded;
    TimelineExactly(r);
    if r.phases != [] { EndedExactly(r); }
    TimelineLength(r.phases, [Baseline, AwaitingAttach, SettlingLoaded, Loaded, AwaitingRemove, SettlingEmptyAfter, EmptyAfter, Done]);
    MatchLength(r.phases, Names(true));
    if |r.phases| == 8 {
      SweepsExactly(r, timeout, [0, 3, 6]);
      SettleExactly(r, 2);
      SettleExactly(r, 5);
    }
  }

  lemma TimelineLength(t: seq<PhaseEvent>, names: seq<Name>)
    ensures Timeline(t, names) ==> |t| == |names|
  {}

  lemma MatchLength(t: seq<PhaseEvent>, names: seq<Name>)
    ensures NamesMatch(t, names) ==> |t| == |names|
  {}

  lemma SettleExactly(r: Report, i: nat)
    requires r.policy.handling.Some? && i + 1 < |r.phases|
    ensures SettleFits(r, i) <==> !BadSettle(r, i)
  {}

  lemma EndedExactly(r: Report)
    requires r.phases != []
    ensures WellEnded(r) <==>
      && r.acks == [AttachReady, RemoveReady]
      && !(r.actual >= r.policy.holdTest || r.phases[|r.phases| - 1].elapsed >= r.policy.holdTest
           || Distance(r.actual, r.phases[|r.phases| - 1].elapsed) > Microsecond())
      && !(|r.completions| != 1 || !r.completions[0].completed || !r.completions[0].disabledVerified
           || r.completions[0].elapsed != r.actual)
  {
    CompletionExactly(r);
  }

  lemma TimelineExactly(r: Report)
    ensures var names := Names(r.policy.handling.Some?);
      Timeline(r.phases, names) <==> NamesMatch(r.phases, names) && r.phases[0].elapsed == 0.0 && Increasing(r.phases)
  {
    if Increasing(r.phases) { PairwiseIncreasing(r.phases); }
  }

  lemma {:induction false} PairwiseIncreasing(t: seq<PhaseEvent>)
    requires Increasing(t)
    ensures forall i, j :: 0 <= i < j < |t| ==> t[i].elapsed < t[j].elapsed
  {
    if t != [] {
      var n := |t| - 1;
      PairwiseIncreasing(t[..n]);
      forall i | 0 <= i < n ensures t[i].elapsed < t[n].elapsed {
        assert t[..n][i] == t[i] && t[n - 1].elapsed < t[n].elapsed;
      }
    }
  }

  lemma CompletionExactly(r: Report)
    ensures |r.completions| == 1 && r.completions[0].completed && r.completions[0].disabledVerified
            && r.completions[0].elapsed == r.actual
       <==> r.completions == [Completion(true, true, r.actual)]
  {}

  lemma SweepsExactly(r: Report, timeout: real, sweeps: seq<nat>)
    requires forall i :: i in sweeps ==> i + 1 < |r.phases|
    ensures (forall i :: i in sweeps ==> SweepFits(r, timeout, i))
       <==> !exists i :: i in sweeps && Distance(Length(r.phases, i), r.policy.SweepSeconds()) > timeout
  {
    forall i | i in sweeps
      ensures SweepFits(r, timeout, i) <==> !(Distance(Length(r.phases, i), r.policy.SweepSeconds()) > timeout)
    {}
  }

  /** The spans of an accepted report are its phases, each from its own time to that of the next. */
  lemma SpansArePhases(r: Report, timeout: real, i: nat)
    requires PairedPhases(r, timeout).Ok? && i < |PairedPhases(r, timeout).value|
    ensures |PairedPhases(r, timeout).value| + 1 == |r.phases|
    ensures PairedPhases(r, timeout).value[i] == PhaseSpan(r.phases[i].name, r.phases[i].elapsed, r.phases[i + 1].elapsed)
  {
    hide Increasing, Sweeps, Distance;
  }
}
