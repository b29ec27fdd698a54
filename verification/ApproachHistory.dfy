/** The approach history of the residual model: per joint, the last resolved direction of
    motion, reversed only by an excursion from the last extremum. */
module ApproachHistory {
  import opened Common

  type Vec7 = v: seq<real> | |v| == 7 witness [0.0, 0.0, 0.0, 0.0, 0.0, 0.0, 0.0]

  /** Direction -1, 0 (unresolved) or 1, and the position it is measured from. */
  datatype Joint = Joint(direction: int, extremum: real)

  type Joints = j: seq<Joint> | |j| == 7
    witness [Joint(0, 0.0), Joint(0, 0.0), Joint(0, 0.0), Joint(0, 0.0), Joint(0, 0.0), Joint(0, 0.0), Joint(0, 0.0)]

  /** What the caller hands in; anything but seven named finite numbers is malformed. */
  datatype Input = Malformed | Reading(ns: int, position: Vec7)

  datatype State = State(timestamp: Option<int>, joints: Joints, failed: bool)

  function Turn(j: Joint, threshold: real, q: real): Joint {
    var delta := q - j.extremum;
    if (j.direction <= 0 && delta >= threshold) || (j.direction >= 0 && delta <= -threshold) then
      Joint(if delta > 0.0 then 1 else -1, q)
    else if (j.direction > 0 && delta > 0.0) || (j.direction < 0 && delta < 0.0) then j.(extremum := q)
    else j
  }

  predicate Accepted(s: State, i: Input) {
    !s.failed && i.Reading? && i.ns > 0 && (s.timestamp.Some? ==> i.ns > s.timestamp.value)
  }

  predicate Gap(s: State, gap: int, i: Input)
    requires i.Reading?
  {
    s.timestamp == None || i.ns - s.timestamp.value > gap
  }

  function Next(thresholds: Vec7, gap: int, s: State, i: Input): State {
    if !Accepted(s, i) then s.(failed := true)
    else if Gap(s, gap, i) then State(Some(i.ns), Restart(i.position), false)
    else State(Some(i.ns), seq(7, k requires 0 <= k < 7 => Turn(s.joints[k], thresholds[k], i.position[k])), false)
  }

  function Restart(q: Vec7): Joints { seq(7, k requires 0 <= k < 7 => Joint(0, q[k])) }

  function Directions(s: State): seq<int> { seq(7, k requires 0 <= k < 7 => s.joints[k].direction) }

  class History {
    const thresholds: Vec7
    const gap: int
    var timestamp: Option<int>
    var joints: Joints
    var failed: bool

    constructor (thresholds: Vec7, gap: int)
      requires gap > 0 && forall k :: 0 <= k < 7 ==> thresholds[k] > 0.0
      ensures this.thresholds == thresholds && this.gap == gap
      ensures timestamp == None && !failed
    {
      this.thresholds, this.gap := thresholds, gap;
      timestamp, failed := None, false;
      joints := [Joint(0, 0.0), Joint(0, 0.0), Joint(0, 0.0), Joint(0, 0.0), Joint(0, 0.0), Joint(0, 0.0), Joint(0, 0.0)];
    }

    function View(): State
      reads this
    {
      State(timestamp, joints, failed)
    }

    /** The resolved directions, or None once any input has been refused. */
    method Update(i: Input) returns (r: Option<seq<int>>)
      modifies this
      ensures View() == Next(thresholds, gap, old(View()), i)
      ensures r == if failed then None else Some(Directions(View()))
    {
      if failed { return None; }
      if i.Malformed? || i.ns <= 0 || (timestamp.Some? && i.ns <= timestamp.value) {
        failed := true;
        return None;
      }
      if timestamp == None || i.ns - timestamp.value > gap {
        joints := Restart(i.position);
      } else {
        ghost var before := joints;
        for k := 0 to 7
          invariant timestamp == old(timestamp) && !failed
          invariant forall m :: 0 <= m < k ==> joints[m] == Turn(before[m], thresholds[m], i.position[m])
          invariant forall m :: k <= m < 7 ==> joints[m] == before[m]
        {
          var q, threshold := i.position[k], thresholds[k];
          var delta, direction := q - joints[k].extremum, joints[k].direction;
          if (direction <= 0 && delta >= threshold) || (direction >= 0 && delta <= -threshold) {
            joints := joints[k := Joint(if delta > 0.0 then 1 else -1, q)];
          } else if (direction > 0 && delta > 0.0) || (direction < 0 && delta < 0.0) {
            joints := joints[k := joints[k].(extremum := q)];
          }
        }
        assert joints == seq(7, m requires 0 <= m < 7 => Turn(before[m], thresholds[m], i.position[m]));
      }
      timestamp := Some(i.ns);
      return Some(Directions(View()));
    }
  }

  // ----- one joint between gaps

  function Track(j: Joint, threshold: real, qs: seq<real>): Joint {
    if qs == [] then j else Turn(Track(j, threshold, qs[..|qs| - 1]), threshold, qs[|qs| - 1])
  }

  /** The highest position since (and including) `top`. */
  function Highest(top: real, qs: seq<real>): real {
    if qs == [] then top
    else var h := Highest(top, qs[..|qs| - 1]); if qs[|qs| - 1] > h then qs[|qs| - 1] else h
  }

  /** No position so far has fallen back from the running maximum by the threshold. */
  ghost predicate NoRetreat(top: real, threshold: real, qs: seq<real>) {
    forall k :: 0 <= k < |qs| ==> Retreat(top, qs, k) < threshold
  }

  function Retreat(top: real, qs: seq<real>, k: nat): real
    requires k < |qs|
  {
    Highest(top, qs[..k + 1]) - qs[k]
  }

  ghost predicate NoExcursion(origin: real, threshold: real, qs: seq<real>) {
    forall k :: 0 <= k < |qs| ==> -threshold < qs[k] - origin < threshold
  }

  /** A rising direction is kept, measured from the running maximum, for exactly as long as
      no position retreats from that maximum by the threshold; the first that does turns
      the direction at that sample and is the new extremum. */
  lemma {:induction false} RisingTurnsAtFirstRetreat(threshold: real, top: real, qs: seq<real>)
    requires threshold > 0.0 && qs != [] && NoRetreat(top, threshold, qs[..|qs| - 1])
    ensures var n := |qs| - 1;
      && Track(Joint(1, top), threshold, qs[..n]) == Joint(1, Highest(top, qs[..n]))
      && Track(Joint(1, top), threshold, qs) ==
           if Retreat(top, qs, n) >= threshold then Joint(-1, qs[n]) else Joint(1, Highest(top, qs))
    decreases |qs|
  {
    var n := |qs| - 1;
    var front := qs[..n];
    assert qs[..n + 1] == qs;
    if n > 0 {
      var earlier := front[..n - 1];
      forall k | 0 <= k < n - 1 ensures Retreat(top, earlier, k) < threshold {
        assert earlier[..k + 1] == front[..k + 1];
        assert Retreat(top, front, k) < threshold;
      }
      RisingTurnsAtFirstRetreat(threshold, top, front);
      assert Retreat(top, front, n - 1) < threshold;
    }
  }

  /** An unresolved direction resolves at the first sample at least a threshold away from
      where the history started, towards that side; smaller motion leaves it unresolved. */
  lemma {:induction false} ResolvesAtFirstExcursion(threshold: real, origin: real, qs: seq<real>)
    requires threshold > 0.0 && qs != [] && NoExcursion(origin, threshold, qs[..|qs| - 1])
    ensures var n, d := |qs| - 1, qs[|qs| - 1] - origin;
      && Track(Joint(0, origin), threshold, qs[..n]) == Joint(0, origin)
      && Track(Joint(0, origin), threshold, qs) ==
           if d >= threshold then Joint(1, qs[n]) else if d <= -threshold then Joint(-1, qs[n]) else Joint(0, origin)
    decreases |qs|
  {
    var n := |qs| - 1;
    var front := qs[..n];
    if n > 0 {
      assert forall k :: 0 <= k < n - 1 ==> front[..n - 1][k] == front[k];
      ResolvesAtFirstExcursion(threshold, origin, front);
      assert front[n - 1] == qs[n - 1] && -threshold < front[n - 1] - origin < threshold;
    }
  }

  // ----- mirror symmetry

  function Mirror(j: Joint): Joint { Joint(-j.direction, -j.extremum) }

  function Negated(qs: seq<real>): (r: seq<real>)
    ensures |r| == |qs|
  {
    seq(|qs|, k requires 0 <= k < |qs| => -qs[k])
  }

  lemma TurnMirrors(j: Joint, threshold: real, q: real)
    requires threshold > 0.0
    ensures Turn(Mirror(j), threshold, -q) == Mirror(Turn(j, threshold, q))
  {}

  /** Negating every position negates every direction: the falling case is the rising case
      upside down. */
  lemma {:induction false} TrackMirrors(j: Joint, threshold: real, qs: seq<real>)
    requires threshold > 0.0
    ensures Track(Mirror(j), threshold, Negated(qs)) == Mirror(Track(j, threshold, qs))
    decreases |qs|
  {
    if qs != [] {
      var n := |qs| - 1;
      assert Negated(qs)[..n] == Negated(qs[..n]);
      TrackMirrors(j, threshold, qs[..n]);
      TurnMirrors(Track(j, threshold, qs[..n]), threshold, qs[n]);
    }
  }

  /** The lowest position since (and including) `bottom`. */
  function Lowest(bottom: real, qs: seq<real>): real {
    if qs == [] then bottom
    else var l := Lowest(bottom, qs[..|qs| - 1]); if qs[|qs| - 1] < l then qs[|qs| - 1] else l
  }

  function Rise(bottom: real, qs: seq<real>, k: nat): real
    requires k < |qs|
  {
    qs[k] - Lowest(bottom, qs[..k + 1])
  }

  /** No position so far has risen from the running minimum by the threshold. */
  ghost predicate NoRise(bottom: real, threshold: real, qs: seq<real>) {
    forall k :: 0 <= k < |qs| ==> Rise(bottom, qs, k) < threshold
  }

  lemma {:induction false} LowestMirrors(bottom: real, qs: seq<real>)
    ensures Highest(-bottom, Negated(qs)) == -Lowest(bottom, qs)
  {
    if qs != [] {
      var n := |qs| - 1;
      assert Negated(qs)[..n] == Negated(qs[..n]);
      LowestMirrors(bottom, qs[..n]);
    }
  }

  lemma RiseMirrors(bottom: real, qs: seq<real>, k: nat)
    requires k < |qs|
    ensures Retreat(-bottom, Negated(qs), k) == Rise(bottom, qs, k)
  {
    assert Negated(qs)[..k + 1] == Negated(qs[..k + 1]);
    LowestMirrors(bottom, qs[..k + 1]);
  }

  lemma NoRiseMirrors(bottom: real, threshold: real, qs: seq<real>)
    requires NoRise(bottom, threshold, qs)
    ensures NoRetreat(-bottom, threshold, Negated(qs))
  {
    hide Retreat, Rise;
    var top, mirrored := -bottom, Negated(qs);
    forall k | 0 <= k < |mirrored| ensures Retreat(top, mirrored, k) < threshold {
      RiseMirrors(bottom, qs, k);
      assert Rise(bottom, qs, k) < threshold;
    }
  }

  /** A falling direction is kept, measured from the running minimum, for exactly as long as no
      position rises from that minimum by the threshold; the first that does turns the direction. */
  lemma FallingTurnsAtFirstRise(threshold: real, bottom: real, qs: seq<real>)
    requires threshold > 0.0 && qs != [] && NoRise(bottom, threshold, qs[..|qs| - 1])
    ensures var n := |qs| - 1;
      && Track(Joint(-1, bottom), threshold, qs[..n]) == Joint(-1, Lowest(bottom, qs[..n]))
      && Track(Joint(-1, bottom), threshold, qs) ==
           if Rise(bottom, qs, n) >= threshold then Joint(1, qs[n]) else Joint(-1, Lowest(bottom, qs))
  {
    var n := |qs| - 1;
    hide Track, Highest, Lowest, Retreat, Rise, NoRise, NoRetreat;
    var mirrored := Negated(qs);
    assert mirrored[..n] == Negated(qs[..n]);
    NoRiseMirrors(bottom, threshold, qs[..n]);
    RisingTurnsAtFirstRetreat(threshold, -bottom, mirrored);
    TrackMirrors(Joint(-1, bottom), threshold, qs);
    TrackMirrors(Joint(-1, bottom), threshold, qs[..n]);
    RiseMirrors(bottom, qs, n);
    LowestMirrors(bottom, qs);
    LowestMirrors(bottom, qs[..n]);
  }

  function NegatedInput(i: Input): Input {
    match i
    case Malformed => Malformed
    case Reading(ns, q) => Reading(ns, Negated(q))
  }

  function MirrorState(s: State): State {
    s.(joints := seq(7, k requires 0 <= k < 7 => Mirror(s.joints[k])))
  }

  function Run(thresholds: Vec7, gap: int, s: State, inputs: seq<Input>): State {
    if inputs == [] then s else Next(thresholds, gap, Run(thresholds, gap, s, inputs[..|inputs| - 1]), inputs[|inputs| - 1])
  }

  lemma NextMirrors(thresholds: Vec7, gap: int, s: State, i: Input)
    requires forall k :: 0 <= k < 7 ==> thresholds[k] > 0.0
    ensures Next(thresholds, gap, MirrorState(s), NegatedInput(i)) == MirrorState(Next(thresholds, gap, s, i))
  {
    if Accepted(s, i) {
      forall k | 0 <= k < 7
        ensures Turn(MirrorState(s).joints[k], thresholds[k], -i.position[k]) == Mirror(Turn(s.joints[k], thresholds[k], i.position[k]))
      {
        TurnMirrors(s.joints[k], thresholds[k], i.position[k]);
      }
    }
    assert Next(thresholds, gap, MirrorState(s), NegatedInput(i)).joints == MirrorState(Next(thresholds, gap, s, i)).joints;
  }

  /** Across gaps and refusals too: the history of the negated motion is the mirror image. */
  lemma {:induction false} NegationMirrorsRuns(thresholds: Vec7, gap: int, s: State, inputs: seq<Input>)
    requires forall k :: 0 <= k < 7 ==> thresholds[k] > 0.0
    ensures var negated := seq(|inputs|, k requires 0 <= k < |inputs| => NegatedInput(inputs[k]));
      Run(thresholds, gap, MirrorState(s), negated) == MirrorState(Run(thresholds, gap, s, inputs))
  {
    if inputs != [] {
      var n := |inputs| - 1;
      NegationMirrorsRuns(thresholds, gap, s, inputs[..n]);
      var negated := seq(|inputs|, k requires 0 <= k < |inputs| => NegatedInput(inputs[k]));
      assert negated[..n] == seq(n, k requires 0 <= k < n => NegatedInput(inputs[..n][k]));
      NextMirrors(thresholds, gap, Run(thresholds, gap, s, inputs[..n]), inputs[n]);
    }
  }

  /** How long reading m came after the one before it. */
  function Wait(start: int, inputs: seq<Input>, m: nat): int
    requires m < |inputs| && forall l :: 0 <= l < |inputs| ==> inputs[l].Reading?
  {
    inputs[m].ns - (if m == 0 then start else inputs[m - 1].ns)
  }

  /** Between gaps every joint of a run is tracked on its own. */
  lemma {:induction false} JointsAreIndependent(thresholds: Vec7, gap: int, s: State, inputs: seq<Input>, k: nat)
    requires k < 7 && s.timestamp.Some? && !s.failed
    requires !Run(thresholds, gap, s, inputs).failed
    requires forall m :: 0 <= m < |inputs| ==> inputs[m].Reading?
    requires forall m :: 0 <= m < |inputs| ==> Wait(s.timestamp.value, inputs, m) <= gap
    ensures var x := Run(thresholds, gap, s, inputs);
      && x.timestamp == Some(if inputs == [] then s.timestamp.value else inputs[|inputs| - 1].ns)
      && x.joints[k] == Track(s.joints[k], thresholds[k], Column(inputs, k))
    decreases |inputs|
  {
    if inputs != [] {
      var n := |inputs| - 1;
      assert forall m :: 0 <= m < n ==> Wait(s.timestamp.value, inputs[..n], m) == Wait(s.timestamp.value, inputs, m);
      assert Wait(s.timestamp.value, inputs, n) <= gap;
      JointsAreIndependent(thresholds, gap, s, inputs[..n], k);
      assert Column(inputs, k)[..n] == Column(inputs[..n], k);
    }
  }

  function Column(inputs: seq<Input>, k: nat): (r: seq<real>)
    requires k < 7 && forall m :: 0 <= m < |inputs| ==> inputs[m].Reading?
    ensures |r| == |inputs|
  {
    seq(|inputs|, m requires 0 <= m < |inputs| => inputs[m].position[k])
  }

  // ----- one update, in plain terms

  /** Input that latches the history: malformed, or at a time that is not positive or not later. */
  predicate Latches(s: State, i: Input) {
    || s.failed || i.Malformed? || i.ns <= 0
    || (s.timestamp.Some? && i.ns <= s.timestamp.value)
  }

  /** The direction of one joint after a reading without a gap: it turns to the side of the reading if that
      lies a threshold away from the extremum and not on the side the joint already goes to; the extremum
      follows the joint on its way. */
  predicate Turned(before: Joint, threshold: real, q: real, after: Joint) {
    if before.direction <= 0 && q >= before.extremum + threshold then after == Joint(1, q)
    else if before.direction >= 0 && q <= before.extremum - threshold then after == Joint(-1, q)
    else
      && after.direction == before.direction
      && after.extremum == (if before.direction > 0 && q > before.extremum then q
                            else if before.direction < 0 && q < before.extremum then q else before.extremum)
  }

  /** An update latches exactly on such input and then changes nothing else; the first reading and one after
      more than the gap start all joints anew where they are; any other turns each joint on its own. */
  lemma UpdateExactly(thresholds: Vec7, gap: int, s: State, i: Input, k: nat)
    requires k < 7 && forall m :: 0 <= m < 7 ==> thresholds[m] > 0.0
    ensures var t := Next(thresholds, gap, s, i);
      && (t.failed <==> Latches(s, i)) && (t.failed ==> t.joints == s.joints && t.timestamp == s.timestamp)
      && (!t.failed ==>
            && t.timestamp == Some(i.ns)
            && (if s.timestamp == None || i.ns > s.timestamp.value + gap then t.joints[k] == Joint(0, i.position[k])
                else Turned(s.joints[k], thresholds[k], i.position[k], t.joints[k])))
      && |Directions(t)| == 7 && Directions(t)[k] == t.joints[k].direction
  {}
}
