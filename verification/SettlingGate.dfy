/** The settling gate: after a hands-clear acknowledgement it waits until every motor has
    been slow and within a small span for long enough; any renewed motion starts over. */
module SettlingGate {
  import opened Common
  import opened AutoSpec

  /** One motor's decoded feedback, in degrees, degrees per second and newton metres. */
  datatype MotorSample = MotorSample(
    stampNs: nat, position: real, velocity: real, torque: real, status: nat,
    mosTemperature: nat, rotorTemperature: nat, endpoint: bool)

  type Feedback = f: seq<MotorSample> | |f| == 8
    witness seq(8, _ => MotorSample(0, 0.0, 0.0, 0.0, 0, 0, 0, false))

  function Positions(f: Feedback): Vec8 { seq(8, i requires 0 <= i < 8 => f[i].position) }

  predicate Quiet(h: ManualHandling, f: Feedback) {
    forall i :: 0 <= i < 8 ==> Abs(f[i].velocity) <= h.settleSpeed
  }

  datatype State = State(since: nat, last: nat, lo: Vec8, hi: Vec8)

  const ZEROS: Vec8 := [0.0, 0.0, 0.0, 0.0, 0.0, 0.0, 0.0, 0.0]
  const INITIAL := State(0, 0, ZEROS, ZEROS)

  function Lower(a: Vec8, b: Vec8): Vec8 { seq(8, i requires 0 <= i < 8 => if b[i] < a[i] then b[i] else a[i]) }
  function Upper(a: Vec8, b: Vec8): Vec8 { seq(8, i requires 0 <= i < 8 => if b[i] > a[i] then b[i] else a[i]) }

  predicate Moved(h: ManualHandling, lo: Vec8, hi: Vec8) {
    exists i :: 0 <= i < 8 && hi[i] - lo[i] > h.settleSpan
  }

  predicate Monotonic(g: State, now: nat) { now > 0 && now > g.last }

  /** The gate after one update, and whether it reports settled. */
  function Updated(h: ManualHandling, g: State, now: nat, f: Feedback): (State, bool) {
    var q := Positions(f);
    var lo, hi := Lower(g.lo, q), Upper(g.hi, q);
    if !Quiet(h, f) then (g.(since := 0, last := now), false)
    else if g.since == 0 || Moved(h, lo, hi) then (State(now, now, q, q), false)
    else (State(g.since, now, lo, hi), now - g.since >= h.settleNs)
  }

  class Gate {
    const handling: ManualHandling
    var since: nat
    var last: nat
    var lo: Vec8
    var hi: Vec8

    constructor (handling: ManualHandling)
      ensures this.handling == handling && View() == INITIAL
    {
      this.handling := handling;
      since, last, lo, hi := 0, 0, ZEROS, ZEROS;
    }

    function View(): State
      reads this
    {
      State(since, last, lo, hi)
    }

    method Reset()
      modifies this
      ensures View() == old(View()).(since := 0, last := 0)
    {
      since, last := 0, 0;
    }

    /** None when the clock did not advance. */
    method Update(now: nat, states: Feedback) returns (settled: Option<bool>)
      modifies this
      ensures !Monotonic(old(View()), now) ==> settled == None && View() == old(View())
      ensures Monotonic(old(View()), now) ==> settled.Some? && (View(), settled.value) == Updated(handling, old(View()), now, states)
    {
      if now == 0 || now <= last { return None; }
      last := now;
      for i := 0 to 8
        invariant View() == old(View()).(last := now)
        invariant forall j :: 0 <= j < i ==> Abs(states[j].velocity) <= handling.settleSpeed
      {
        if Abs(states[i].velocity) > handling.settleSpeed {
          since := 0;
          return Some(false);
        }
      }
      var q := Positions(states);
      if since == 0 {
        since, lo, hi := now, q, q;
        return Some(false);
      }
      var moved := false;
      for i := 0 to 8
        invariant since == old(since) && last == now
        invariant forall j :: 0 <= j < i ==> lo[j] == Lower(old(lo), q)[j] && hi[j] == Upper(old(hi), q)[j]
        invariant forall j :: i <= j < 8 ==> lo[j] == old(lo)[j] && hi[j] == old(hi)[j]
        invariant moved <==> exists j :: 0 <= j < i && hi[j] - lo[j] > handling.settleSpan
      {
        if q[i] < lo[i] { lo := lo[i := q[i]]; }
        if q[i] > hi[i] { hi := hi[i := q[i]]; }
        moved := moved || hi[i] - lo[i] > handling.settleSpan;
      }
      assert lo == Lower(old(lo), q) && hi == Upper(old(hi), q);
      if moved {
        since, lo, hi := now, q, q;
        return Some(false);
      }
      return Some(now - since >= handling.settleNs);
    }
  }

  // ----- soundness over histories

  datatype Update = Update(now: nat, feedback: Feedback)

  /** The updates since the last reset, with the clock advancing. */
  ghost predicate Clocked(history: seq<Update>) {
    && (forall k :: 0 <= k < |history| ==> history[k].now > 0)
    && (forall j, k :: 0 <= j < k < |history| ==> history[j].now < history[k].now)
  }

  function After(h: ManualHandling, lo: Vec8, hi: Vec8, history: seq<Update>): (State, bool) {
    if history == [] then (State(0, 0, lo, hi), false)
    else
      var u := history[|history| - 1];
      Updated(h, After(h, lo, hi, history[..|history| - 1]).0, u.now, u.feedback)
  }

  /** From update w on, every motor was slow and stayed within the span of itself. */
  ghost predicate Still(h: ManualHandling, history: seq<Update>, w: nat) {
    && (forall k :: w <= k < |history| ==> Quiet(h, history[k].feedback))
    && (forall k, l, i :: w <= k < |history| && w <= l < |history| && 0 <= i < 8 ==>
          Abs(history[k].feedback[i].position - history[l].feedback[i].position) <= h.settleSpan)
  }

  /** The gate's extrema bracket every position since update w. */
  ghost predicate Brackets(h: ManualHandling, g: State, history: seq<Update>, w: nat) {
    && w < |history| && history[w].now == g.since
    && (forall k :: w <= k < |history| ==> Quiet(h, history[k].feedback))
    && (forall k, i :: w <= k < |history| && 0 <= i < 8 ==> g.lo[i] <= history[k].feedback[i].position <= g.hi[i])
    && !Moved(h, g.lo, g.hi)
  }

  lemma BracketsStep(h: ManualHandling, g: State, history: seq<Update>, w: nat, u: Update)
    requires Brackets(h, g, history, w) && Quiet(h, u.feedback)
    requires !Moved(h, Lower(g.lo, Positions(u.feedback)), Upper(g.hi, Positions(u.feedback)))
    ensures Brackets(h, Updated(h, g, u.now, u.feedback).0, history + [u], w) || g.since == 0
  {}

  lemma WindowRestarts(h: ManualHandling, g: State, history: seq<Update>, u: Update)
    requires h.settleSpan >= 0.0
    requires g.since == 0 || Moved(h, Lower(g.lo, Positions(u.feedback)), Upper(g.hi, Positions(u.feedback)))
    ensures Updated(h, g, u.now, u.feedback).0.since > 0 ==>
      Brackets(h, Updated(h, g, u.now, u.feedback).0, history + [u], |history|)
  {}

  /** Where the current window began: the gate only ever watches a contiguous suffix. */
  lemma {:induction false} WindowOf(h: ManualHandling, lo: Vec8, hi: Vec8, history: seq<Update>) returns (w: nat)
    requires Clocked(history) && h.settleSpan >= 0.0
    ensures var g := After(h, lo, hi, history).0;
      g.since > 0 ==> Brackets(h, g, history, w)
  {
    w := 0;
    if history != [] {
      var n := |history| - 1;
      var front, u := history[..n], history[n];
      w := WindowOf(h, lo, hi, front);
      var before, g := After(h, lo, hi, front).0, After(h, lo, hi, history).0;
      assert history == front + [u];
      if before.since == 0 || Moved(h, Lower(before.lo, Positions(u.feedback)), Upper(before.hi, Positions(u.feedback))) {
        w := n;
        WindowRestarts(h, before, front, u);
      } else if Quiet(h, u.feedback) {
        BracketsStep(h, before, front, w, u);
      }
      hide Brackets, Moved, Lower, Upper, Quiet;
    }
  }

  lemma BracketsAreStill(h: ManualHandling, g: State, history: seq<Update>, w: nat)
    requires Brackets(h, g, history, w)
    ensures Still(h, history, w)
  {
    hide Quiet;
    forall k, l, i | w <= k < |history| && w <= l < |history| && 0 <= i < 8
      ensures Abs(history[k].feedback[i].position - history[l].feedback[i].position) <= h.settleSpan
    {
      assert g.hi[i] - g.lo[i] <= h.settleSpan;
    }
  }

  /** "Settled" is never a false claim: it names a contiguous suffix of the updates, at
      least settle_ns long, in which every motor was slow and no two positions of a motor
      differ by more than the span. */
  lemma SettledIsSound(h: ManualHandling, lo: Vec8, hi: Vec8, history: seq<Update>) returns (w: nat)
    requires Clocked(history) && h.settleSpan >= 0.0 && After(h, lo, hi, history).1
    ensures w < |history| && Still(h, history, w)
    ensures history[|history| - 1].now - history[w].now >= h.settleNs
  {
    w := WindowOf(h, lo, hi, history);
    BracketsAreStill(h, After(h, lo, hi, history).0, history, w);
  }

  /** Slow means every motor's velocity within the settling speed, and still since w means in addition every
      motor's positions since w within the span of each other. */
  lemma StillExactly(h: ManualHandling, history: seq<Update>, w: nat)
    ensures Still(h, history, w) <==>
      && (forall k, i :: w <= k < |history| && 0 <= i < 8 ==>
            -h.settleSpeed <= history[k].feedback[i].velocity <= h.settleSpeed)
      && (forall k, l, i :: w <= k < |history| && w <= l < |history| && 0 <= i < 8 ==>
            history[k].feedback[i].position - history[l].feedback[i].position <= h.settleSpan)
  {
    forall k | w <= k < |history|
      ensures Quiet(h, history[k].feedback) <==> forall i :: 0 <= i < 8 ==> -h.settleSpeed <= history[k].feedback[i].velocity <= h.settleSpeed
    {}
    hide Quiet;
  }

  // ----- and exact

  ghost predicate Attained(history: seq<Update>, w: nat, i: nat, v: real)
    requires i < 8
  {
    exists k :: w <= k < |history| && history[k].feedback[i].position == v
  }

  /** A window opens at update w: all motors are slow there, and it is the first update since a reset,
      or follows one that was not slow, or is the one that breaks the stillness of the window before. */
  ghost predicate Opens(h: ManualHandling, history: seq<Update>, w: nat)
    requires w < |history|
    decreases w
  {
    Quiet(h, history[w].feedback) && (Fresh(h, history, w) || exists v :: 0 <= v < w && BrokenAt(h, history, v, w))
  }

  ghost predicate Fresh(h: ManualHandling, history: seq<Update>, w: nat)
    requires w < |history|
  {
    w == 0 || !Quiet(h, history[w - 1].feedback)
  }

  /** The window that opened at v was still until update w. */
  ghost predicate BrokenAt(h: ManualHandling, history: seq<Update>, v: nat, w: nat)
    requires v < w < |history|
    decreases w, 0
  {
    Opens(h, history, v) && Still(h, history[..w], v) && !Still(h, history[..w + 1], v)
  }

  /** Whether a window opens depends on nothing later. */
  lemma {:induction false} OpensPrefix(h: ManualHandling, history: seq<Update>, n: nat, w: nat)
    requires w < n <= |history|
    ensures Opens(h, history, w) <==> Opens(h, history[..n], w)
    decreases w
  {
    hide Quiet, Still;
    var front := history[..n];
    assert Fresh(h, history, w) <==> Fresh(h, front, w);
    forall v | 0 <= v < w ensures BrokenAt(h, history, v, w) <==> BrokenAt(h, front, v, w) {
      OpensPrefix(h, history, n, v);
      assert front[..w] == history[..w] && front[..w + 1] == history[..w + 1];
    }
  }

  lemma AttainedLater(history: seq<Update>, w: nat, i: nat, v: real, u: Update)
    requires i < 8 && Attained(history, w, i, v)
    ensures Attained(history + [u], w, i, v)
  {
    var k :| w <= k < |history| && history[k].feedback[i].position == v;
    assert (history + [u])[k] == history[k];
  }

  lemma AttainedNow(history: seq<Update>, w: nat, i: nat, u: Update)
    requires i < 8 && w <= |history|
    ensures Attained(history + [u], w, i, u.feedback[i].position)
  {
    assert (history + [u])[|history|] == u;
  }

  ghost predicate Extremes(history: seq<Update>, w: nat, lo: Vec8, hi: Vec8) {
    forall i :: 0 <= i < 8 ==> Attained(history, w, i, lo[i]) && Attained(history, w, i, hi[i])
  }

  lemma ExtremesGrow(history: seq<Update>, w: nat, lo: Vec8, hi: Vec8, u: Update)
    requires w <= |history| && Extremes(history, w, lo, hi)
    ensures Extremes(history + [u], w, Lower(lo, Positions(u.feedback)), Upper(hi, Positions(u.feedback)))
  {
    forall i | 0 <= i < 8
      ensures Attained(history + [u], w, i, Lower(lo, Positions(u.feedback))[i])
      ensures Attained(history + [u], w, i, Upper(hi, Positions(u.feedback))[i])
    {
      AttainedLater(history, w, i, lo[i], u);
      AttainedLater(history, w, i, hi[i], u);
      AttainedNow(history, w, i, u);
    }
  }

  lemma StillMeansNotMoved(h: ManualHandling, history: seq<Update>, w: nat, lo: Vec8, hi: Vec8)
    requires Still(h, history, w) && Extremes(history, w, lo, hi)
    ensures !Moved(h, lo, hi)
  {
    forall i | 0 <= i < 8 ensures hi[i] - lo[i] <= h.settleSpan {
      assert Attained(history, w, i, lo[i]) && Attained(history, w, i, hi[i]);
      var k :| w <= k < |history| && history[k].feedback[i].position == lo[i];
      var l :| w <= l < |history| && history[l].feedback[i].position == hi[i];
    }
  }

  /** The window began at update w, and is long enough exactly when it is said to be. */
  ghost predicate Reported(h: ManualHandling, g: State, settled: bool, history: seq<Update>, w: nat) {
    && w < |history| && 0 < g.since == history[w].now && Extremes(history, w, g.lo, g.hi)
    && (settled <==> history[|history| - 1].now - history[w].now >= h.settleNs)
  }

  lemma WindowOpens(h: ManualHandling, g: State, front: seq<Update>, u: Update)
    requires g.since == 0 || Moved(h, Lower(g.lo, Positions(u.feedback)), Upper(g.hi, Positions(u.feedback)))
    requires Quiet(h, u.feedback) && u.now > 0 && h.settleNs > 0
    ensures var n := Updated(h, g, u.now, u.feedback);
      Reported(h, n.0, n.1, front + [u], |front|)
  {
    forall i | 0 <= i < 8 ensures Attained(front + [u], |front|, i, Positions(u.feedback)[i]) {
      AttainedNow(front, |front|, i, u);
    }
  }

  lemma WindowContinues(h: ManualHandling, g: State, settled: bool, front: seq<Update>, w: nat, u: Update)
    requires Reported(h, g, settled, front, w) && Quiet(h, u.feedback) && Still(h, front + [u], w)
    ensures var n := Updated(h, g, u.now, u.feedback);
      Reported(h, n.0, n.1, front + [u], w)
  {
    hide Extremes, Still, Quiet, Moved, Lower, Upper;
    var q := Positions(u.feedback);
    ExtremesGrow(front, w, g.lo, g.hi, u);
    StillMeansNotMoved(h, front + [u], w, Lower(g.lo, q), Upper(g.hi, q));
  }

  /** A slow update that starts a window in any of the three ways. */
  lemma StillnessBegins(h: ManualHandling, lo: Vec8, hi: Vec8, front: seq<Update>, u: Update)
    requires Quiet(h, u.feedback) && u.now > 0 && h.settleNs > 0
    requires var g := After(h, lo, hi, front).0;
      || front == [] || !Quiet(h, front[|front| - 1].feedback)
      || Moved(h, Lower(g.lo, Positions(u.feedback)), Upper(g.hi, Positions(u.feedback)))
    ensures var (g, settled) := After(h, lo, hi, front + [u]);
      Reported(h, g, settled, front + [u], |front|)
  {
    hide Reported, Updated, After, Quiet, Moved, Lower, Upper;
    DisturbedGateIsClosed(h, lo, hi, front);
    AfterOneMore(h, lo, hi, front, u);
    WindowOpens(h, After(h, lo, hi, front).0, front, u);
  }

  lemma StillnessLasts(h: ManualHandling, lo: Vec8, hi: Vec8, front: seq<Update>, w: nat, u: Update)
    requires Quiet(h, u.feedback) && Still(h, front + [u], w)
    requires Reported(h, After(h, lo, hi, front).0, After(h, lo, hi, front).1, front, w)
    ensures var (g, settled) := After(h, lo, hi, front + [u]);
      Reported(h, g, settled, front + [u], w)
  {
    hide Reported, Updated, After, Quiet, Still;
    AfterOneMore(h, lo, hi, front, u);
    WindowContinues(h, After(h, lo, hi, front).0, After(h, lo, hi, front).1, front, w, u);
  }

  /** Wherever a window opens, if the motors have been still since, it is the gate's window, and the gate
      reports it exactly when it has lasted settle_ns: neither early nor late. */
  lemma {:induction false} StillnessIsReported(h: ManualHandling, lo: Vec8, hi: Vec8, history: seq<Update>, w: nat)
    requires Clocked(history) && h.settleSpan >= 0.0 && h.settleNs > 0
    requires w < |history| && Opens(h, history, w) && Still(h, history, w)
    ensures Reported(h, After(h, lo, hi, history).0, After(h, lo, hi, history).1, history, w)
    decreases |history|
  {
    hide Reported, Updated, Still, Opens, After, Quiet, Clocked, Moved, Lower, Upper;
    FrontIsStill(h, history, w);
    ClockedFront(history);
    var n := |history| - 1;
    if w < n {
      OpensPrefix(h, history, n, w);
      StillnessIsReported(h, lo, hi, history[..n], w);
      StillnessLasts(h, lo, hi, history[..n], w, history[n]);
    } else {
      if !Fresh(h, history, w) {
        var v := WindowBefore(h, history);
        StillnessIsReported(h, lo, hi, history[..n], v);
        StillnessBreaks(h, lo, hi, history[..n], v, history[n]);
      }
      StillnessBegins(h, lo, hi, history[..n], history[n]);
    }
  }

  /** The window that the last update breaks. */
  lemma WindowBefore(h: ManualHandling, history: seq<Update>) returns (v: nat)
    requires history != [] && Opens(h, history, |history| - 1) && !Fresh(h, history, |history| - 1)
    ensures var n := |history| - 1;
      v < n && Opens(h, history[..n], v) && Still(h, history[..n], v) && !Still(h, history, v)
  {
    hide Still, Quiet;
    var n := |history| - 1;
    v :| 0 <= v < n && BrokenAt(h, history, v, n);
    OpensPrefix(h, history, n, v);
    assert history[..n + 1] == history;
  }

  /** The update that ends a window's stillness, being slow itself, exceeds the span. */
  lemma StillnessBreaks(h: ManualHandling, lo: Vec8, hi: Vec8, front: seq<Update>, v: nat, u: Update)
    requires Clocked(front) && h.settleSpan >= 0.0 && Quiet(h, u.feedback) && !Still(h, front + [u], v)
    requires Reported(h, After(h, lo, hi, front).0, After(h, lo, hi, front).1, front, v)
    ensures var g := After(h, lo, hi, front).0;
      Moved(h, Lower(g.lo, Positions(u.feedback)), Upper(g.hi, Positions(u.feedback)))
  {
    hide After, Quiet, Still, Moved, Lower, Upper, Brackets;
    var g, q := After(h, lo, hi, front).0, Positions(u.feedback);
    var w := WindowOf(h, lo, hi, front);
    SameWindow(h, g, front, v, w);
    if !Moved(h, Lower(g.lo, q), Upper(g.hi, q)) {
      BracketsStep(h, g, front, v, u);
      BracketsAreStill(h, Updated(h, g, u.now, u.feedback).0, front + [u], v);
    }
  }

  lemma SameWindow(h: ManualHandling, g: State, history: seq<Update>, v: nat, w: nat)
    requires Clocked(history) && v < |history| && g.since == history[v].now && Brackets(h, g, history, w)
    ensures v == w
  {
    hide Quiet, Moved;
  }

  /** After a slow update the gate watches a window that is still. */
  lemma {:induction false} GateWatchesAWindow(h: ManualHandling, history: seq<Update>) returns (w: nat)
    requires h.settleSpan >= 0.0 && history != [] && Quiet(h, history[|history| - 1].feedback)
    ensures w < |history| && Opens(h, history, w) && Still(h, history, w)
    decreases |history|
  {
    hide Quiet, Opens, Still;
    var n := |history| - 1;
    if Fresh(h, history, n) {
      w := n;
      WindowStarts(h, history, 0);
    } else {
      w := GateWatchesAWindow(h, history[..n]);
      OpensPrefix(h, history, n, w);
      if !Still(h, history, w) {
        WindowStarts(h, history, w);
        w := n;
      }
    }
  }

  lemma WindowStarts(h: ManualHandling, history: seq<Update>, v: nat)
    requires h.settleSpan >= 0.0 && history != [] && Quiet(h, history[|history| - 1].feedback)
    requires var n := |history| - 1;
      Fresh(h, history, n) || (v < n && Opens(h, history, v) && Still(h, history[..n], v) && !Still(h, history, v))
    ensures Opens(h, history, |history| - 1) && Still(h, history, |history| - 1)
  {
    hide Quiet;
    var n := |history| - 1;
    assert history[..n + 1] == history;
    assert Still(h, history, n);
    hide Still;
    if !Fresh(h, history, n) { assert BrokenAt(h, history, v, n); }
  }

  /** The motors have been still since a window opened at w, and for long enough. */
  ghost predicate StillLongEnough(h: ManualHandling, history: seq<Update>, w: nat)
    requires w < |history|
  {
    Opens(h, history, w) && Still(h, history, w) && history[|history| - 1].now - history[w].now >= h.settleNs
  }

  /** After any updates the gate reports settled if and only if some window, however it was opened, has
      been still until now for settle_ns. */
  lemma SettledExactly(h: ManualHandling, lo: Vec8, hi: Vec8, history: seq<Update>)
    requires Clocked(history) && h.settleSpan >= 0.0 && h.settleNs > 0
    ensures After(h, lo, hi, history).1 <==> exists w :: 0 <= w < |history| && StillLongEnough(h, history, w)
  {
    hide Quiet, Opens, Still, Clocked, Extremes;
    if After(h, lo, hi, history).1 {
      SettledIsQuiet(h, lo, hi, history);
      var w := GateWatchesAWindow(h, history);
      StillnessIsReported(h, lo, hi, history, w);
      assert StillLongEnough(h, history, w);
    }
    if w :| 0 <= w < |history| && StillLongEnough(h, history, w) {
      StillnessIsReported(h, lo, hi, history, w);
    }
  }

  lemma SettledIsQuiet(h: ManualHandling, lo: Vec8, hi: Vec8, history: seq<Update>)
    requires After(h, lo, hi, history).1
    ensures history != [] && Quiet(h, history[|history| - 1].feedback)
  {
    hide Quiet;
  }

  lemma ClockedFront(history: seq<Update>)
    requires Clocked(history) && history != []
    ensures Clocked(history[..|history| - 1]) && history[|history| - 1].now > 0
  {}

  lemma FrontIsStill(h: ManualHandling, history: seq<Update>, w: nat)
    requires w < |history| && Still(h, history, w)
    ensures var n := |history| - 1;
      && Quiet(h, history[n].feedback) && history == history[..n] + [history[n]]
      && (w < n ==> Still(h, history[..n], w))
      && (w == n && Fresh(h, history, w) ==> n == 0 || !Quiet(h, history[..n][n - 1].feedback))
  {
    hide Quiet;
  }

  lemma AfterOneMore(h: ManualHandling, lo: Vec8, hi: Vec8, history: seq<Update>, u: Update)
    ensures After(h, lo, hi, history + [u]) == Updated(h, After(h, lo, hi, history).0, u.now, u.feedback)
  {
    assert (history + [u])[..|history|] == history;
  }

  lemma DisturbedGateIsClosed(h: ManualHandling, lo: Vec8, hi: Vec8, history: seq<Update>)
    ensures history == [] || !Quiet(h, history[|history| - 1].feedback) ==> After(h, lo, hi, history).0.since == 0
  {}
}
