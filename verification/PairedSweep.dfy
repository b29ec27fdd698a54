/** The paired sweep: unloaded, loaded and unloaded again in one enabled session, advanced
    by operator acknowledgements in stationary waiting phases. */
module PairedSweep {
  import opened Common

  datatype Config = Config(duration: real, cap: real, settleTimeout: real, settleMinimum: real) {
    /** What the constructor demands of the session budget. */
    predicate Valid() {
      && duration > 0.0 && settleTimeout >= 0.0 && settleMinimum >= 0.0
      && (settleTimeout > 0.0 ==> 0.0 < settleMinimum < settleTimeout)
      && cap > 3.0 * duration + 2.0 * settleTimeout
    }

    predicate Handling() { settleTimeout > 0.0 }
  }

  datatype State = State(start: real, last: real, settling: bool, phase: nat) {
    predicate Waiting() { phase == 1 || phase == 3 }
    predicate Complete() { phase == 5 }
    predicate Sweeping() { phase == 0 || phase == 2 || phase == 4 }
  }

  const INITIAL := State(0.0, 0.0, false, 0)

  datatype Fault = InvalidTime | SessionCap | UnexpectedAdvance | InsufficientTime | SettlingTimeout | PrematureSettling

  datatype Name = Baseline | AwaitingAttach | SettlingLoaded | Loaded | AwaitingRemove | SettlingEmptyAfter | EmptyAfter | Done

  function NameOf(s: State): Name
    requires s.phase <= 5
  {
    if s.settling then (if s.phase == 1 then SettlingLoaded else SettlingEmptyAfter)
    else [Baseline, AwaitingAttach, Loaded, AwaitingRemove, EmptyAfter, Done][s.phase]
  }

  /** Time still to be reserved when an acknowledgement is accepted in this phase. */
  function Reserve(c: Config, phase: nat): real {
    if phase == 1 then 2.0 * (c.duration + c.settleTimeout) else c.duration + c.settleTimeout
  }

  /** One control step: the next state, and the fault that ended the session if any. */
  function Step(c: Config, s: State, elapsed: real, advance: bool, settled: bool): (State, Option<Fault>) {
    if elapsed < s.last || s.Complete() then (s, Some(InvalidTime))
    else
      var t := s.(last := elapsed);
      if elapsed >= c.cap then (t, Some(SessionCap))
      else if advance then
        if !s.Waiting() || s.settling then (t, Some(UnexpectedAdvance))
        else if elapsed + Reserve(c, s.phase) >= c.cap then (t, Some(InsufficientTime))
        else if c.Handling() then (t.(settling := true, start := elapsed), None)
        else (t.(phase := s.phase + 1, start := elapsed), None)
      else if s.settling then
        if elapsed - s.start >= c.settleTimeout then (t, Some(SettlingTimeout))
        else if !settled then (t, None)
        else if elapsed - s.start < c.settleMinimum then (t, Some(PrematureSettling))
        else (t.(settling := false, phase := s.phase + 1, start := elapsed), None)
      else if !s.Waiting() && elapsed - s.start >= c.duration then (t.(phase := s.phase + 1, start := elapsed), None)
      else (t, None)
  }

  /** No step goes past the last phase. */
  lemma PhaseStays(s: State)
    requires s.phase <= 5
    ensures forall c, e, a, d :: Step(c, s, e, a, d).0.phase <= 5
  {}

  class Sweep {
    const config: Config
    var start: real
    var last: real
    var settling: bool
    var phase: nat

    constructor (config: Config)
      requires config.Valid()
      ensures this.config == config && View() == INITIAL
    {
      this.config := config;
      start, last, settling, phase := 0.0, 0.0, false, 0;
    }

    function View(): State
      reads this
    {
      State(start, last, settling, phase)
    }

    method Advance(elapsed: real, advance: bool, settled: bool) returns (fault: Option<Fault>)
      modifies this
      ensures (View(), fault) == Step(config, old(View()), elapsed, advance, settled)
    {
      if elapsed < last || phase == 5 { return Some(InvalidTime); }
      last := elapsed;
      if elapsed >= config.cap { return Some(SessionCap); }
      var waiting := phase == 1 || phase == 3;
      if advance {
        if !waiting || settling { return Some(UnexpectedAdvance); }
        if elapsed + (if phase == 1 then 2.0 else 1.0) * (config.duration + config.settleTimeout) >= config.cap {
          return Some(InsufficientTime);
        }
        if config.settleTimeout > 0.0 { settling := true; } else { phase := phase + 1; }
        start := elapsed;
      } else if settling {
        if elapsed - start >= config.settleTimeout { return Some(SettlingTimeout); }
        if settled {
          if elapsed - start < config.settleMinimum { return Some(PrematureSettling); }
          settling, phase, start := false, phase + 1, elapsed;
        }
      } else if !waiting && elapsed - start >= config.duration {
        phase, start := phase + 1, elapsed;
      }
      return None;
    }
  }

  // ----- runs

  datatype Input = Input(elapsed: real, advance: bool, settled: bool)
  datatype PhaseEvent = PhaseEvent(name: Name, elapsed: real)
  datatype Ack = AttachReady | RemoveReady

  /** A session so far: where the machine is, the phases it announced, the operator
      acknowledgements it accepted. */
  datatype Session = Session(state: State, fault: Option<Fault>, log: seq<PhaseEvent>, acks: seq<Ack>) {
    predicate Live() { fault == None && state.phase < 5 }
  }

  const OPENING := Session(INITIAL, None, [PhaseEvent(Baseline, 0.0)], [])

  function Continue(c: Config, x: Session, i: Input): Session
    requires x.state.phase <= 5
  {
    if !x.Live() then x
    else
      var (next, fault) := Step(c, x.state, i.elapsed, i.advance, i.settled);
      if fault.Some? then x.(state := next, fault := fault)
      else
        Session(next, None,
                if NameOf(next) == NameOf(x.state) then x.log else x.log + [PhaseEvent(NameOf(next), i.elapsed)],
                if i.advance then x.acks + [if x.state.phase == 1 then AttachReady else RemoveReady] else x.acks)
  }

  function Run(c: Config, inputs: seq<Input>): (x: Session)
    ensures x.state.phase <= 5
  {
    if inputs == [] then OPENING else Continue(c, Run(c, inputs[..|inputs| - 1]), inputs[|inputs| - 1])
  }

  // ----- the session cap

  /** The latest nominal end of the sweep in progress or of the settling and sweep just
      acknowledged, plus what the other pair still needs if it is yet to come. */
  function NominalEnd(c: Config, s: State): real {
    s.start + (if s.settling then c.settleTimeout else 0.0) + c.duration
    + (if s.phase <= 2 then c.duration + c.settleTimeout else 0.0)
  }

  predicate Reserved(c: Config, s: State) {
    && (s.settling ==> s.Waiting() && c.Handling() && NominalEnd(c, s) < c.cap)
    && (s.phase == 2 || s.phase == 4 ==> NominalEnd(c, s) < c.cap)
    && s.start <= s.last
  }

  lemma StepReserves(c: Config, s: State, elapsed: real, advance: bool, settled: bool)
    requires c.Valid() && Reserved(c, s)
    ensures Reserved(c, Step(c, s, elapsed, advance, settled).0)
  {}

  /** After the first accepted acknowledgement, in every settling and sweeping phase, the
      latest nominal end lies before the session cap. */
  lemma {:induction false} AcknowledgedEndsBeforeCap(c: Config, inputs: seq<Input>)
    requires c.Valid()
    ensures Reserved(c, Run(c, inputs).state)
  {
    if inputs != [] {
      var n := |inputs| - 1;
      AcknowledgedEndsBeforeCap(c, inputs[..n]);
      StepReserves(c, Run(c, inputs[..n]).state, inputs[n].elapsed, inputs[n].advance, inputs[n].settled);
      hide Step, Reserved;
    }
  }

  /** The latest nominal end of the sweep in progress or being settled for. */
  function LatestEnd(c: Config, s: State): real { s.start + Allowance(c, s) + (if s.settling then c.duration else 0.0) }

  /** How long the current settling or sweeping phase may last. */
  function Allowance(c: Config, s: State): real { if s.settling then c.settleTimeout else c.duration }

  predicate Busy(s: State) { s.settling || s.Sweeping() }

  /** The session settles for sweep q or is in it. */
  predicate WorksOn(s: State, q: nat) { if s.settling then s.phase + 1 == q else s.Sweeping() && s.phase == q }

  function Work(s: State): nat { if s.settling then s.phase + 1 else s.phase }

  /** While the session is busy, the last step fell short of the end of the phase and of the cap. */
  lemma {:induction false} WorkInProgress(c: Config, inputs: seq<Input>)
    requires c.Valid()
    ensures var x := Run(c, inputs);
      x.Live() ==> x.state.last < c.cap && (Busy(x.state) ==> x.state.last < x.state.start + Allowance(c, x.state))
  {
    if inputs != [] {
      WorkInProgress(c, inputs[..|inputs| - 1]);
      AcknowledgedEndsBeforeCap(c, inputs[..|inputs| - 1]);
    }
  }

  lemma LiveLast(c: Config, inputs: seq<Input>)
    ensures var x := Run(c, inputs); x.Live() && inputs != [] ==> x.state.last == inputs[|inputs| - 1].elapsed
  {}

  // ----- sessions that go on with steps at most `gap` apart

  function LastOf(last: real, more: seq<Input>): real { if more == [] then last else more[|more| - 1].elapsed }

  predicate Paced(last: real, more: seq<Input>, gap: real) {
    more == [] ||
      (var n := |more| - 1;
       Paced(last, more[..n], gap) && LastOf(last, more[..n]) <= more[n].elapsed <= LastOf(last, more[..n]) + gap)
  }

  lemma {:induction false} PacedJoin(last: real, a: seq<Input>, b: seq<Input>, gap: real)
    requires Paced(last, a, gap) && Paced(LastOf(last, a), b, gap)
    ensures Paced(last, a + b, gap)
  {
    if b == [] {
      assert a + b == a;
    } else {
      var n := |b| - 1;
      PacedJoin(last, a, b[..n], gap);
      assert (a + b)[..|a + b| - 1] == a + b[..n];
    }
  }

  /** The paced continuation ends with the session cut off by the cap, in the very work the session
      was doing. */
  predicate CutsOff(c: Config, inputs: seq<Input>, more: seq<Input>, gap: real) {
    && more != [] && Paced(Run(c, inputs).state.last, more, gap)
    && (var before := Run(c, inputs + more[..|more| - 1]);
        && before.Live() && WorksOn(before.state, Work(Run(c, inputs).state))
        && Run(c, inputs + more).fault == Some(SessionCap))
  }

  /** The session has finished work q, or is at it and will end no later than `end`. */
  predicate Ahead(c: Config, s: State, q: nat, end: real) {
    s.phase > q || (WorksOn(s, q) && LatestEnd(c, s) <= end)
  }

  lemma AheadStep(c: Config, x: Session, i: Input, q: nat, end: real)
    requires c.Valid() && x.Live() && Ahead(c, x.state, q, end)
    requires x.state.settling ==> x.state.Waiting()
    ensures Continue(c, x, i).Live() ==> Ahead(c, Continue(c, x, i).state, q, end)
  {}

  lemma {:induction false} AheadAlways(c: Config, inputs: seq<Input>, more: seq<Input>)
    requires c.Valid() && Run(c, inputs).Live() && Busy(Run(c, inputs).state)
    ensures var s := Run(c, inputs).state; var x := Run(c, inputs + more);
      x.Live() ==> Ahead(c, x.state, Work(s), LatestEnd(c, s))
    decreases |more|
  {
    if more == [] {
      assert inputs + more == inputs;
    } else {
      var n := |more| - 1;
      var s := Run(c, inputs).state;
      AheadAlways(c, inputs, more[..n]);
      RunOneMore(c, inputs + more[..n], more[n]);
      assert inputs + more[..n] + [more[n]] == inputs + more;
      AcknowledgedEndsBeforeCap(c, inputs + more[..n]);
      if Run(c, inputs + more[..n]).Live() { AheadStep(c, Run(c, inputs + more[..n]), more[n], Work(s), LatestEnd(c, s)); }
    }
  }

  /** Only the cap ends a session at the cap. */
  lemma CapFaults(c: Config, x: Session, i: Input)
    requires x.Live() && x.state.phase <= 5 && i.elapsed >= x.state.last
    ensures Continue(c, x, i).fault == Some(SessionCap) <==> i.elapsed >= c.cap
  {}

  lemma MarginReaches(c: Config, s: State, q: nat, end: real, gap: real, elapsed: real)
    requires c.Valid() && end + gap <= c.cap && Ahead(c, s, q, end) && WorksOn(s, q) && s.last < s.start + Allowance(c, s)
    requires elapsed <= s.last + gap
    ensures elapsed < c.cap
  {}

  /** With the margin a paced step never meets the cap. */
  lemma MarginSuffices(c: Config, inputs: seq<Input>, more: seq<Input>, gap: real)
    requires c.Valid() && Run(c, inputs).Live() && Busy(Run(c, inputs).state)
    requires LatestEnd(c, Run(c, inputs).state) + gap <= c.cap
    ensures !CutsOff(c, inputs, more, gap)
  {
    hide Run, Ahead, Allowance, LatestEnd, Continue, Paced;
    if CutsOff(c, inputs, more, gap) {
      CutOffStep(c, inputs, more, gap);
      var n := |more| - 1;
      var s, before := Run(c, inputs).state, Run(c, inputs + more[..n]);
      AheadAlways(c, inputs, more[..n]);
      WorkInProgress(c, inputs + more[..n]);
      MarginReaches(c, before.state, Work(s), LatestEnd(c, s), gap, more[n].elapsed);
      CapFaults(c, before, more[n]);
      assert false;
    }
  }

  lemma CutOffStep(c: Config, inputs: seq<Input>, more: seq<Input>, gap: real)
    requires CutsOff(c, inputs, more, gap)
    ensures var n := |more| - 1; var before := Run(c, inputs + more[..n]);
      && Run(c, inputs + more) == Continue(c, before, more[n])
      && before.state.last <= more[n].elapsed <= before.state.last + gap
  {
    hide Run, Continue;
    var n := |more| - 1;
    RunOneMore(c, inputs + more[..n], more[n]);
    assert inputs + more[..n] + [more[n]] == inputs + more;
    PacedFromLast(c, inputs, more[..n]);
  }

  lemma PacedFromLast(c: Config, inputs: seq<Input>, more: seq<Input>)
    ensures Run(c, inputs + more).Live() ==> Run(c, inputs + more).state.last == LastOf(Run(c, inputs).state.last, more)
  {
    LiveLast(c, inputs + more);
    if more == [] { assert inputs + more == inputs; }
  }

  // ----- the late continuation

  function Times(n: nat, gap: real): real { if n == 0 then 0.0 else gap + Times(n - 1, gap) }

  lemma {:induction false} TimesIsProduct(n: nat, gap: real)
    ensures Times(n, gap) == n as real * gap
  {
    if n > 0 {
      TimesIsProduct(n - 1, gap);
      OneMore((n - 1) as real, gap);
    }
  }

  lemma OneMore(a: real, gap: real)
    ensures (a + 1.0) * gap == a * gap + gap
  {}

  lemma Enough(gap: real, distance: real) returns (n: nat)
    requires gap > 0.0 && distance >= 0.0
    ensures Times(n, gap) >= distance
  {
    var q := distance / gap;
    n := q.Floor + 1;
    TimesIsProduct(n, gap);
    assert distance == q * gap && n as real >= q;
    MoreIsMore(q, n as real, gap);
  }

  lemma MoreIsMore(a: real, b: real, gap: real)
    requires a <= b && gap >= 0.0
    ensures a * gap <= b * gap
  {}

  /** A busy session may be stepped, without settling, to any time before its phase and the cap end. */
  lemma Idle(c: Config, inputs: seq<Input>, e: real)
    requires c.Valid() && Run(c, inputs).Live() && Busy(Run(c, inputs).state)
    requires var s := Run(c, inputs).state; s.last <= e < c.cap && e < s.start + Allowance(c, s)
    ensures Run(c, inputs + [Input(e, false, false)]) == Run(c, inputs).(state := Run(c, inputs).state.(last := e))
  {
    hide Run, Continue, Busy, Allowance;
    RunOneMore(c, inputs, Input(e, false, false));
    AcknowledgedEndsBeforeCap(c, inputs);
    IdleStep(c, Run(c, inputs), e);
  }

  lemma IdleStep(c: Config, x: Session, e: real)
    requires x.Live() && x.state.phase <= 5 && Busy(x.state) && (x.state.settling ==> x.state.Waiting())
    requires x.state.last <= e < c.cap && e < x.state.start + Allowance(c, x.state)
    ensures Continue(c, x, Input(e, false, false)) == x.(state := x.state.(last := e))
  {}

  lemma {:induction false} Walk(c: Config, inputs: seq<Input>, e: real, gap: real, n: nat) returns (more: seq<Input>)
    requires c.Valid() && gap > 0.0 && Run(c, inputs).Live() && Busy(Run(c, inputs).state)
    requires var s := Run(c, inputs).state; s.last <= e <= s.last + Times(n, gap) && e < c.cap && e < s.start + Allowance(c, s)
    ensures Paced(Run(c, inputs).state.last, more, gap) && LastOf(Run(c, inputs).state.last, more) == e
    ensures Run(c, inputs + more) == Run(c, inputs).(state := Run(c, inputs).state.(last := e))
    decreases n
  {
    hide Run;
    var s := Run(c, inputs).state;
    if e <= s.last + gap {
      more := [Input(e, false, false)];
      Idle(c, inputs, e);
      OnePaced(s.last, more[0], gap);
    } else {
      var i := Input(s.last + gap, false, false);
      Idle(c, inputs, i.elapsed);
      var rest := Walk(c, inputs + [i], e, gap, n - 1);
      more := [i] + rest;
      assert inputs + [i] + rest == inputs + more;
      OnePaced(s.last, i, gap);
      PacedJoin(s.last, [i], rest, gap);
    }
  }

  lemma OnePaced(last: real, i: Input, gap: real)
    requires last <= i.elapsed <= last + gap
    ensures Paced(last, [i], gap) && LastOf(last, [i]) == i.elapsed
  {
    assert [i][..0] == [];
    assert Paced(last, [i][..0], gap);
  }

  /** A sweep with less than the margin: stop short of its end, then take the last step late. */
  lemma LateSweepStep(c: Config, inputs: seq<Input>, gap: real) returns (more: seq<Input>)
    requires c.Valid() && gap > 0.0 && Run(c, inputs).Live() && Run(c, inputs).state.Sweeping()
    requires LatestEnd(c, Run(c, inputs).state) + gap > c.cap
    ensures CutsOff(c, inputs, more, gap)
  {
    hide Run, Continue, Paced;
    WorkInProgress(c, inputs);
    AcknowledgedEndsBeforeCap(c, inputs);
    var s := Run(c, inputs).state;
    var stop := if s.last < c.cap - gap then c.cap - gap else s.last;
    var n := Enough(gap, stop - s.last);
    var walk := Walk(c, inputs, stop, gap, n);
    var late := Input(c.cap, false, false);
    RunOneMore(c, inputs + walk, late);
    CapFaults(c, Run(c, inputs + walk), late);
    more := walk + [late];
    assert inputs + walk + [late] == inputs + more;
    assert more[..|more| - 1] == walk;
    OnePaced(stop, late, gap);
    PacedJoin(s.last, walk, [late], gap);
  }

  /** While settling with less than the margin: settle late enough, then take the sweep's last step late. */
  lemma LateSettling(c: Config, inputs: seq<Input>, gap: real) returns (more: seq<Input>)
    requires c.Valid() && gap > 0.0 && Run(c, inputs).Live() && Run(c, inputs).state.settling
    requires LatestEnd(c, Run(c, inputs).state) + gap > c.cap
    ensures CutsOff(c, inputs, more, gap)
  {
    WorkInProgress(c, inputs);
    AcknowledgedEndsBeforeCap(c, inputs);
    hide Run, CutsOff, Paced;
    var s := Run(c, inputs).state;
    var least := Larger(s.last, Larger(s.start + c.settleMinimum, c.cap - c.duration - gap));
    var when := (least + s.start + c.settleTimeout) / 2.0;
    var first := SettleAt(c, inputs, when, gap);
    var late := LateSweepStep(c, inputs + first, gap);
    more := first + late;
    CutsOffLater(c, inputs, first, late, gap);
  }

  /** A settling session may be stepped to settle at any time its limits allow. */
  lemma SettleAt(c: Config, inputs: seq<Input>, when: real, gap: real) returns (more: seq<Input>)
    requires c.Valid() && gap > 0.0 && Run(c, inputs).Live() && Run(c, inputs).state.settling && Run(c, inputs).state.Waiting()
    requires var s := Run(c, inputs).state;
      s.last <= when < c.cap && s.start + c.settleMinimum <= when < s.start + c.settleTimeout
    ensures Paced(Run(c, inputs).state.last, more, gap) && Run(c, inputs + more).fault == None
    ensures Run(c, inputs + more).state == State(when, when, false, Run(c, inputs).state.phase + 1)
  {
    hide Run, Paced;
    var s := Run(c, inputs).state;
    var n := Enough(gap, when - s.last);
    var walk := Walk(c, inputs, when, gap, n);
    var settle := Input(when, false, true);
    RunOneMore(c, inputs + walk, settle);
    more := walk + [settle];
    assert inputs + walk + [settle] == inputs + more;
    OnePaced(when, settle, gap);
    PacedJoin(s.last, walk, [settle], gap);
  }

  function Larger(a: real, b: real): real { if a < b then b else a }

  /** A cut-off further on in the same work is one of the whole continuation. */
  lemma CutsOffLater(c: Config, inputs: seq<Input>, first: seq<Input>, then_: seq<Input>, gap: real)
    requires Paced(Run(c, inputs).state.last, first, gap) && Run(c, inputs + first).Live()
    requires Work(Run(c, inputs + first).state) == Work(Run(c, inputs).state)
    requires CutsOff(c, inputs + first, then_, gap)
    ensures CutsOff(c, inputs, first + then_, gap)
  {
    PacedFromLast(c, inputs, first);
    hide Run;
    PacedJoin(Run(c, inputs).state.last, first, then_, gap);
    var more := first + then_;
    assert inputs + first + then_ == inputs + more;
    assert inputs + first + then_[..|then_| - 1] == inputs + more[..|more| - 1];
  }

  /** A session at work is never cut off by the cap, however it goes on with steps at most `gap` apart,
      if and only if its latest nominal end leaves one such step before the cap. */
  lemma NeverCutOffExactly(c: Config, inputs: seq<Input>, gap: real)
    requires c.Valid() && gap > 0.0 && Run(c, inputs).Live() && Busy(Run(c, inputs).state)
    ensures (forall more :: !CutsOff(c, inputs, more, gap)) <==> LatestEnd(c, Run(c, inputs).state) + gap <= c.cap
  {
    hide Run, CutsOff, LatestEnd;
    if LatestEnd(c, Run(c, inputs).state) + gap <= c.cap {
      forall more ensures !CutsOff(c, inputs, more, gap) {
        MarginSuffices(c, inputs, more, gap);
      }
    } else if Run(c, inputs).state.settling {
      var more := LateSettling(c, inputs, gap);
    } else {
      var more := LateSweepStep(c, inputs, gap);
    }
  }

  /** An accepted acknowledgement starts work that is never cut off if and only if it leaves one step more
      than the work can last; the reserve it was checked against asks only for the work itself. */
  lemma AcknowledgedNeverCutOffExactly(c: Config, inputs: seq<Input>, ack: Input, gap: real)
    requires c.Valid() && gap > 0.0 && Run(c, inputs).Live() && ack.advance && Run(c, inputs + [ack]).fault == None
    ensures (forall more :: !CutsOff(c, inputs + [ack], more, gap))
      <==> ack.elapsed + c.settleTimeout + c.duration + gap <= c.cap
  {
    hide Run, CutsOff, Continue, LatestEnd, Busy;
    RunOneMore(c, inputs, ack);
    AcknowledgementStarts(c, Run(c, inputs), ack);
    NeverCutOffExactly(c, inputs + [ack], gap);
  }

  lemma AcknowledgementStarts(c: Config, x: Session, ack: Input)
    requires c.Valid() && x.Live() && x.state.phase <= 5 && ack.advance && Continue(c, x, ack).fault == None
    ensures var y := Continue(c, x, ack);
      y.Live() && Busy(y.state) && LatestEnd(c, y.state) == ack.elapsed + c.settleTimeout + c.duration
  {}

  /** The reserve does not cover late steps: here the last acknowledgement is accepted with
      room to spare, and a step that comes 0.3 s late still ends the session at the cap. */
  lemma LateStepStillHitsCap()
    ensures var c := Config(1.0, 3.5, 0.0, 0.0);
      var inputs := [Input(1.0, false, false), Input(1.25, true, false), Input(2.25, false, false), Input(2.3, true, false)];
      && c.Valid() && Run(c, inputs).Live() && Run(c, inputs).state.phase == 4
      && NominalEnd(c, Run(c, inputs).state) == 3.3
      && Run(c, inputs + [Input(3.6, false, false)]).fault == Some(SessionCap)
  {
    var c := Config(1.0, 3.5, 0.0, 0.0);
    var a, b, d, e, f := Input(1.0, false, false), Input(1.25, true, false), Input(2.25, false, false), Input(2.3, true, false), Input(3.6, false, false);
    var i1, i2, i3, i4 := [a], [a, b], [a, b, d], [a, b, d, e];
    assert Run(c, []) == OPENING;
    hide Run;
    assert [] + [a] == i1 && i1 + [b] == i2 && i2 + [d] == i3 && i3 + [e] == i4;
    RunStep(c, [], a, State(1.0, 1.0, false, 1));
    RunStep(c, i1, b, State(1.25, 1.25, false, 2));
    RunStep(c, i2, d, State(2.25, 2.25, false, 3));
    RunStep(c, i3, e, State(2.3, 2.3, false, 4));
    RunOneMore(c, i4, f);
  }

  lemma RunStep(c: Config, inputs: seq<Input>, i: Input, next: State)
    requires Run(c, inputs).Live() && Step(c, Run(c, inputs).state, i.elapsed, i.advance, i.settled) == (next, None)
    ensures Run(c, inputs + [i]).state == next && Run(c, inputs + [i]).fault == None
  {
    RunOneMore(c, inputs, i);
  }

  lemma RunOneMore(c: Config, inputs: seq<Input>, i: Input)
    ensures Run(c, inputs + [i]) == Continue(c, Run(c, inputs), i)
  {
    assert (inputs + [i])[..|inputs|] == inputs;
  }

  // ----- the budget

  /** What a configuration must be apart from its budget. */
  predicate Sensible(c: Config) {
    c.duration > 0.0 && c.settleTimeout >= 0.0 && c.settleMinimum >= 0.0 && (c.settleTimeout > 0.0 ==> 0.0 < c.settleMinimum < c.settleTimeout)
  }

  /** What holds of every session: past its first acknowledgement only on a budget that covers three
      sweeps and two settling timeouts. */
  predicate Budgeted(c: Config, s: State) {
    && s.start <= s.last && (s.phase == 0 ==> s.start == 0.0 && !s.settling) && (s.phase == 1 && !s.settling ==> c.duration <= s.start)
    && (s.settling || s.phase >= 2 ==> c.cap > 3.0 * c.duration + 2.0 * c.settleTimeout)
  }

  lemma BudgetedStep(c: Config, s: State, i: Input)
    requires Sensible(c) && Budgeted(c, s) && s.phase <= 5
    ensures Budgeted(c, Step(c, s, i.elapsed, i.advance, i.settled).0)
  {}

  lemma {:induction false} AcknowledgedNeedsBudget(c: Config, inputs: seq<Input>)
    requires Sensible(c)
    ensures Budgeted(c, Run(c, inputs).state)
  {
    hide Budgeted, Step;
    if inputs == [] {
      assert Budgeted(c, OPENING.state) by { OpeningIsBudgeted(c); }
    } else {
      var n := |inputs| - 1;
      AcknowledgedNeedsBudget(c, inputs[..n]);
      BudgetedStep(c, Run(c, inputs[..n]).state, inputs[n]);
    }
  }

  lemma OpeningIsBudgeted(c: Config)
    requires Sensible(c)
    ensures Budgeted(c, OPENING.state)
  {}

  lemma RunPhase(c: Config, inputs: seq<Input>, i: Input, next: State) returns (longer: seq<Input>)
    requires Run(c, inputs).Live() && Step(c, Run(c, inputs).state, i.elapsed, i.advance, i.settled) == (next, None)
    ensures longer == inputs + [i] && Run(c, longer).state == next && Run(c, longer).fault == None
  {
    longer := inputs + [i];
    RunStep(c, inputs, i, next);
  }

  /** One acknowledged sweep, taken as fast as it goes. */
  lemma NextSweep(c: Config, inputs: seq<Input>) returns (longer: seq<Input>)
    requires Sensible(c) && Run(c, inputs).Live()
    requires var s := Run(c, inputs).state;
      && s.Waiting() && !s.settling && s.last == s.start && s.last + Reserve(c, s.phase) < c.cap
    ensures var s, t := Run(c, inputs).state, Run(c, longer).state;
      && Run(c, longer).fault == None && !t.settling && t.phase == s.phase + 2 && t.start == t.last
      && t.last == s.last + c.duration + (if c.Handling() then c.settleMinimum else 0.0)
  {
    hide Run;
    var s := Run(c, inputs).state;
    var e := s.last;
    if c.Handling() {
      longer := RunPhase(c, inputs, Input(e, true, false), State(e, e, true, s.phase));
      e := e + c.settleMinimum;
      longer := RunPhase(c, longer, Input(e, false, true), State(e, e, false, s.phase + 1));
    } else {
      longer := RunPhase(c, inputs, Input(e, true, false), State(e, e, false, s.phase + 1));
    }
    e := e + c.duration;
    longer := RunPhase(c, longer, Input(e, false, false), State(e, e, false, s.phase + 2));
  }

  lemma CanComplete(c: Config) returns (inputs: seq<Input>)
    requires Sensible(c) && c.cap > 3.0 * c.duration + 2.0 * c.settleTimeout
    ensures Run(c, inputs).fault == None && Run(c, inputs).state.Complete()
  {
    assert Run(c, []) == OPENING;
    hide Run;
    inputs := RunPhase(c, [], Input(c.duration, false, false), State(c.duration, c.duration, false, 1));
    inputs := NextSweep(c, inputs);
    inputs := NextSweep(c, inputs);
  }

  /** The budget that the constructor demands is exactly what some session can complete on. */
  lemma BudgetIsExact(c: Config)
    requires Sensible(c)
    ensures c.Valid() <==> exists inputs :: Run(c, inputs).fault == None && Run(c, inputs).state.Complete()
  {
    if c.cap > 3.0 * c.duration + 2.0 * c.settleTimeout { var inputs := CanComplete(c); }
    if inputs :| Run(c, inputs).fault == None && Run(c, inputs).state.Complete() { AcknowledgedNeedsBudget(c, inputs); }
  }
}
