/** Exclusive command ownership: one lease at a time, kept alive by heartbeats and commands, and
    lost on the first thing that is wrong. */
module CommandSession {
  import opened Common

  // ----- what callers submit

  const FEATURE_NAMES: seq<string> := [
    "left_joint_1.pos", "left_joint_2.pos", "left_joint_3.pos", "left_joint_4.pos",
    "left_joint_5.pos", "left_joint_6.pos", "left_joint_7.pos", "left_gripper.pos",
    "right_joint_1.pos", "right_joint_2.pos", "right_joint_3.pos", "right_joint_4.pos",
    "right_joint_5.pos", "right_joint_6.pos", "right_joint_7.pos", "right_gripper.pos"]

  type Values = map<string, real>

  /** Exactly the robot's features are named. */
  predicate Complete(v: Values) {
    (forall f :: f in FEATURE_NAMES ==> f in v) && forall f :: f in v.Keys ==> f in FEATURE_NAMES
  }

  /** White space among the ASCII characters. */
  predicate Blank(c: char) { c == ' ' || '\t' <= c <= '\r' || '\U{1C}' <= c <= '\U{1F}' }

  /** Non-empty text without surrounding white space. */
  predicate Normalized(s: string) { s != "" && !Blank(s[0]) && !Blank(s[|s| - 1]) }

  datatype Command = Command(lease: string, sequence: int, stampNs: int, action: Values) {
    predicate WellFormed() { Normalized(lease) && sequence >= 0 && stampNs >= 0 && Complete(action) }
  }

  datatype Sample = Sample(sequence: int, stampNs: int, values: Values) {
    predicate WellFormed() { sequence >= 0 && stampNs >= 0 && Complete(values) }
  }

  // ----- the state

  datatype Policy = Policy(ready: bool, livenessNs: int, inactivityNs: int, toleranceDeg: real) {
    predicate Valid() { livenessNs > 0 && inactivityNs > 0 && toleranceDeg >= 0.0 }
  }

  datatype Mode = Disconnected | ReadOnly | Commanding

  datatype Reason =
    | Stated(text: string) | LivenessTimeout | InactivityTimeout | TimeWentBack | InvalidTime
    | IncompleteState | LeaseMismatch | InvalidCommand | InvalidReason | HeartbeatWentBack

  datatype State = State(
    mode: Mode, lease: Option<string>, heartbeatNs: Option<int>, acceptedNs: Option<int>,
    sequence: Option<int>, commandNs: Option<int>, feedbackSequence: Option<int>, feedbackNs: Option<int>,
    acquiredNs: Option<int>, reason: Option<Reason>)
  {
    /** Nothing is left of any lease. */
    predicate Cleared() {
      && lease == None && heartbeatNs == None && acceptedNs == None && sequence == None && commandNs == None
      && feedbackSequence == None && feedbackNs == None && acquiredNs == None
    }
  }

  const INITIAL := State(Disconnected, None, None, None, None, None, None, None, None, None)

  function Clear(mode: Mode, reason: Option<Reason>): State {
    State(mode, None, None, None, None, None, None, None, None, reason)
  }

  function Failed(reason: Reason): State { Clear(ReadOnly, Some(reason)) }

  // ----- the transitions; false if the call is refused

  function Connect(s: State, now: int): (State, bool) {
    if now < 0 || s.mode != Disconnected then (s, false) else (s.(mode := ReadOnly, reason := None), true)
  }

  predicate Acquirable(p: Policy, lease: string, measured: Option<Sample>, now: int) {
    && p.ready && Normalized(lease) && measured.Some? && measured.value.WellFormed()
    && 0 <= now - measured.value.stampNs <= p.inactivityNs
  }

  function Acquire(p: Policy, s: State, lease: string, measured: Option<Sample>, now: int): (State, bool) {
    if now < 0 || s.mode != ReadOnly || !Acquirable(p, lease, measured, now) then (s, false)
    else
      var m := measured.value;
      (State(Commanding, Some(lease), Some(now), Some(now), None, None, Some(m.sequence), Some(m.stampNs), Some(now), None), true)
  }

  /** The active lease, or the state after a mismatch was punished. */
  function RequireLease(s: State, lease: string): (State, bool) {
    if s.mode != Commanding then (s, false)
    else if s.lease != Some(lease) then (Failed(LeaseMismatch), false)
    else (s, true)
  }

  datatype Answer = Raised | Answered(timedOut: bool)

  function CheckTimeouts(p: Policy, s: State, now: int): (State, Answer) {
    if now < 0 then (if s.mode == Commanding then Failed(InvalidTime) else s, Raised)
    else if s.mode != Commanding then (s, Answered(false))
    else if s.heartbeatNs == None || s.acceptedNs == None then (Failed(IncompleteState), Answered(true))
    else if now < s.heartbeatNs.value || now < s.acceptedNs.value then (Failed(TimeWentBack), Answered(true))
    else if now - s.heartbeatNs.value > p.livenessNs then (Failed(LivenessTimeout), Answered(true))
    else if now - s.acceptedNs.value > p.inactivityNs then (Failed(InactivityTimeout), Answered(true))
    else (s, Answered(false))
  }

  function Heartbeat(p: Policy, s: State, lease: string, now: int): (State, bool) {
    var (held, ok) := RequireLease(s, lease);
    if !ok then (held, false)
    else
      var (t, _) := CheckTimeouts(p, s, now);
      if t.mode != Commanding then (t, false)
      else if t.heartbeatNs.Some? && now < t.heartbeatNs.value then (Failed(HeartbeatWentBack), false)
      else (t.(heartbeatNs := Some(now)), true)
  }

  predicate Contiguous(s: State, c: Command, now: int) {
    && c.sequence == (if s.sequence == None then 0 else s.sequence.value + 1)
    && (s.commandNs.Some? ==> c.stampNs > s.commandNs.value) && c.stampNs <= now
  }

  predicate FeedbackOk(p: Policy, s: State, f: Sample, now: int) {
    && f.WellFormed() && s.feedbackSequence.Some? && s.feedbackNs.Some?
    && f.sequence > s.feedbackSequence.value && f.stampNs > s.feedbackNs.value
    && 0 <= now - f.stampNs <= p.inactivityNs
  }

  /** The action holds the measured pose on the first n features. */
  predicate Holds(p: Policy, action: Values, measured: Values, n: nat)
    requires Complete(action) && Complete(measured) && n <= |FEATURE_NAMES|
  {
    CompleteNames(action);
    CompleteNames(measured);
    HoldsOn(p, FEATURE_NAMES, action, measured, n)
  }

  predicate HoldsOn(p: Policy, names: seq<string>, action: Values, measured: Values, n: nat)
    requires n <= |names| && forall k :: 0 <= k < n ==> names[k] in action && names[k] in measured
  {
    forall k :: 0 <= k < n ==> Abs(action[names[k]] - measured[names[k]]) <= p.toleranceDeg
  }

  /** A lease begins by holding a pose measured after it was acquired. */
  predicate FirstOk(p: Policy, s: State, c: Command, f: Sample)
    requires Complete(c.action) && Complete(f.values)
  {
    && s.acquiredNs.Some? && f.stampNs > s.acquiredNs.value && c.stampNs >= f.stampNs
    && Holds(p, c.action, f.values, |FEATURE_NAMES|)
  }

  predicate Acceptable(p: Policy, s: State, c: Command, now: int, feedback: Option<Sample>)
    requires c.WellFormed()
  {
    && Contiguous(s, c, now) && now - c.stampNs <= p.inactivityNs
    && feedback.Some? && FeedbackOk(p, s, feedback.value, now)
    && (s.sequence == None ==> FirstOk(p, s, c, feedback.value))
  }

  function Accept(p: Policy, s: State, command: Option<Command>, now: int, feedback: Option<Sample>): (State, bool) {
    if command == None || !command.value.WellFormed() then
      (if s.mode == Commanding then Failed(InvalidCommand) else s, false)
    else
      var c := command.value;
      var (held, ok) := RequireLease(s, c.lease);
      if !ok then (held, false)
      else
        var (t, _) := CheckTimeouts(p, s, now);
        if t.mode != Commanding then (t, false)
        else if !Acceptable(p, t, c, now, feedback) then (Failed(InvalidCommand), false)
        else
          var f := feedback.value;
          (t.(sequence := Some(c.sequence), commandNs := Some(c.stampNs), feedbackSequence := Some(f.sequence),
              feedbackNs := Some(f.stampNs), acceptedNs := Some(now)), true)
  }

  function Release(s: State, lease: string, reason: string): (State, bool) {
    var (held, ok) := RequireLease(s, lease);
    if !ok then (held, false)
    else if !Normalized(reason) then (Failed(InvalidReason), false)
    else (Failed(Stated(reason)), true)
  }

  // ----- the session object

  class Session {
    const policy: Policy
    var mode: Mode
    var lease: Option<string>
    var heartbeatNs: Option<int>
    var acceptedNs: Option<int>
    var sequence: Option<int>
    var commandNs: Option<int>
    var feedbackSequence: Option<int>
    var feedbackNs: Option<int>
    var acquiredNs: Option<int>
    var reason: Option<Reason>

    constructor (policy: Policy)
      requires policy.Valid()
      ensures this.policy == policy && View() == INITIAL
    {
      this.policy := policy;
      mode, lease, heartbeatNs, acceptedNs, sequence := Disconnected, None, None, None, None;
      commandNs, feedbackSequence, feedbackNs, acquiredNs, reason := None, None, None, None, None;
    }

    function View(): State
      reads this
    {
      State(mode, lease, heartbeatNs, acceptedNs, sequence, commandNs, feedbackSequence, feedbackNs, acquiredNs, reason)
    }

    method ConnectReadOnly(now: int) returns (ok: bool)
      modifies this
      ensures (View(), ok) == Connect(old(View()), now)
    {
      if now < 0 || mode != Disconnected { return false; }
      mode := ReadOnly;
      reason := None;
      return true;
    }

    method ClearCommandState()
      modifies this
      ensures View() == Clear(old(mode), old(reason))
    {
      lease, heartbeatNs, acceptedNs, sequence := None, None, None, None;
      commandNs, feedbackSequence, feedbackNs, acquiredNs := None, None, None, None;
    }

    method Disconnect()
      modifies this
      ensures View() == Clear(Disconnected, old(reason))
    {
      ClearCommandState();
      mode := Disconnected;
    }

    method FailClosed(why: Reason)
      modifies this
      ensures View() == Failed(why)
    {
      reason := Some(why);
      ClearCommandState();
      mode := ReadOnly;
    }

    method AcquireCommand(leaseId: string, measured: Option<Sample>, now: int) returns (ok: bool)
      modifies this
      ensures (View(), ok) == Acquire(policy, old(View()), leaseId, measured, now)
    {
      hide Normalized, Sample.WellFormed;
      if now < 0 || mode != ReadOnly || !policy.ready || !Normalized(leaseId) { return false; }
      if measured == None || !measured.value.WellFormed() { return false; }
      var m := measured.value;
      if m.stampNs > now || now - m.stampNs > policy.inactivityNs { return false; }
      mode, lease, heartbeatNs, acceptedNs := Commanding, Some(leaseId), Some(now), Some(now);
      sequence, commandNs, reason := None, None, None;
      feedbackSequence, feedbackNs, acquiredNs := Some(m.sequence), Some(m.stampNs), Some(now);
      return true;
    }

    method RequireActiveLease(leaseId: string) returns (ok: bool)
      modifies this
      ensures (View(), ok) == RequireLease(old(View()), leaseId)
    {
      if mode != Commanding { return false; }
      if Some(leaseId) != lease { FailClosed(LeaseMismatch); return false; }
      return true;
    }

    method CheckTimeoutsNow(now: int) returns (answer: Answer)
      modifies this
      ensures (View(), answer) == CheckTimeouts(policy, old(View()), now)
    {
      if now < 0 {
        if mode == Commanding { FailClosed(InvalidTime); }
        return Raised;
      }
      if mode != Commanding { return Answered(false); }
      if heartbeatNs == None || acceptedNs == None { FailClosed(IncompleteState); return Answered(true); }
      if now < heartbeatNs.value || now < acceptedNs.value { FailClosed(TimeWentBack); return Answered(true); }
      if now - heartbeatNs.value > policy.livenessNs { FailClosed(LivenessTimeout); return Answered(true); }
      if now - acceptedNs.value > policy.inactivityNs { FailClosed(InactivityTimeout); return Answered(true); }
      return Answered(false);
    }

    method Beat(leaseId: string, now: int) returns (ok: bool)
      modifies this
      ensures (View(), ok) == Heartbeat(policy, old(View()), leaseId, now)
    {
      ok := RequireActiveLease(leaseId);
      if !ok { return false; }
      var _ := CheckTimeoutsNow(now);
      if mode != Commanding { return false; }
      if heartbeatNs.Some? && now < heartbeatNs.value { FailClosed(HeartbeatWentBack); return false; }
      heartbeatNs := Some(now);
      return true;
    }

    /** Compare the action with the measured pose, feature by feature. */
    method HoldsPose(action: Values, measured: Values) returns (ok: bool)
      requires Complete(action) && Complete(measured)
      ensures ok == Holds(policy, action, measured, |FEATURE_NAMES|)
    {
      hide FEATURE_NAMES;
      for k := 0 to |FEATURE_NAMES|
        invariant Holds(policy, action, measured, k)
      {
        var name := FEATURE_NAMES[k];
        assert name in FEATURE_NAMES;
        if Abs(action[name] - measured[name]) > policy.toleranceDeg { return false; }
      }
      return true;
    }

    /** The checks of a command within an active lease. */
    method Examine(c: Command, now: int, feedback: Option<Sample>) returns (ok: bool)
      requires c.WellFormed()
      ensures ok == Acceptable(policy, View(), c, now, feedback)
    {
      hide Holds, Complete, Normalized;
      if c.sequence != (if sequence == None then 0 else sequence.value + 1) { return false; }
      if commandNs.Some? && c.stampNs <= commandNs.value { return false; }
      if c.stampNs > now || now - c.stampNs > policy.inactivityNs { return false; }
      if feedback == None || !feedback.value.WellFormed() { return false; }
      var f := feedback.value;
      if feedbackSequence == None || feedbackNs == None { return false; }
      if f.sequence <= feedbackSequence.value || f.stampNs <= feedbackNs.value { return false; }
      if f.stampNs > now || now - f.stampNs > policy.inactivityNs { return false; }
      if sequence == None {
        if acquiredNs == None || f.stampNs <= acquiredNs.value || c.stampNs < f.stampNs { return false; }
        ok := HoldsPose(c.action, f.values);
        return ok;
      }
      return true;
    }

    method AcceptCommand(command: Option<Command>, now: int, feedback: Option<Sample>) returns (ok: bool)
      modifies this
      ensures (View(), ok) == Accept(policy, old(View()), command, now, feedback)
    {
      hide Acceptable, Command.WellFormed;
      if command == None || !command.value.WellFormed() {
        if mode == Commanding { FailClosed(InvalidCommand); }
        return false;
      }
      var c := command.value;
      ok := RequireActiveLease(c.lease);
      if !ok { return false; }
      var _ := CheckTimeoutsNow(now);
      if mode != Commanding { return false; }
      ok := Examine(c, now, feedback);
      if !ok { FailClosed(InvalidCommand); return false; }
      AcceptedHasFeedback(policy, View(), c, now, feedback);
      sequence, commandNs := Some(c.sequence), Some(c.stampNs);
      feedbackSequence, feedbackNs := Some(feedback.value.sequence), Some(feedback.value.stampNs);
      acceptedNs := Some(now);
      return true;
    }

    method ReleaseLease(leaseId: string, why: string) returns (ok: bool)
      modifies this
      ensures (View(), ok) == Release(old(View()), leaseId, why)
    {
      ok := RequireActiveLease(leaseId);
      if !ok { return false; }
      if !Normalized(why) { FailClosed(InvalidReason); return false; }
      FailClosed(Stated(why));
      return true;
    }
  }

  lemma AcceptedHasFeedback(p: Policy, s: State, c: Command, now: int, feedback: Option<Sample>)
    requires c.WellFormed() && Acceptable(p, s, c, now, feedback)
    ensures feedback.Some?
  {}

  // ----- whole runs

  datatype Event =
    | Connecting(now: int) | Disconnecting | Acquiring(lease: string, measured: Option<Sample>, now: int)
    | Beating(lease: string, now: int) | Ordering(command: Option<Command>, now: int, feedback: Option<Sample>)
    | Releasing(lease: string, why: string) | Checking(now: int)

  function Step(p: Policy, s: State, e: Event): (State, bool) {
    match e
    case Connecting(now) => Connect(s, now)
    case Disconnecting => (Clear(Disconnected, s.reason), true)
    case Acquiring(lease, measured, now) => Acquire(p, s, lease, measured, now)
    case Beating(lease, now) => Heartbeat(p, s, lease, now)
    case Ordering(command, now, feedback) => Accept(p, s, command, now, feedback)
    case Releasing(lease, why) => Release(s, lease, why)
    case Checking(now) => var (t, answer) := CheckTimeouts(p, s, now); (t, answer != Raised)
  }

  /** What a lease was used for: an accepted heartbeat, or an accepted command. */
  datatype Entry = Beat(now: int) | Order(command: Command, feedback: Sample, now: int)

  /** What a lease was granted on. */
  datatype Grant = Grant(lease: string, measured: Sample, acquiredNs: int)

  /** One lease from its acquisition on. */
  datatype Tenure = Tenure(grant: Grant, entries: seq<Entry>)

  /** The tenures after a step. */
  function Recorded(tenures: seq<Tenure>, e: Event, ok: bool): seq<Tenure> {
    if !ok then tenures
    else if e.Acquiring? && e.measured.Some? then tenures + [Tenure(Grant(e.lease, e.measured.value, e.now), [])]
    else if e.Beating? then Extended(tenures, Beat(e.now))
    else if e.Ordering? && e.command.Some? && e.feedback.Some? then
      Extended(tenures, Order(e.command.value, e.feedback.value, e.now))
    else tenures
  }

  function Extended(tenures: seq<Tenure>, e: Entry): seq<Tenure> {
    if tenures == [] then []
    else
      var n := |tenures| - 1;
      tenures[n := tenures[n].(entries := tenures[n].entries + [e])]
  }

  function Run(p: Policy, events: seq<Event>): (State, seq<Tenure>)
    decreases |events|
  {
    if events == [] then (INITIAL, [])
    else
      var n := |events| - 1;
      var (s, tenures) := Run(p, events[..n]);
      var (t, ok) := Step(p, s, events[n]);
      (t, Recorded(tenures, events[n], ok))
  }

  // ----- what a tenure must look like

  type Accepted = e: Entry | e.Order? witness Order(Command("", 0, 0, map[]), Sample(0, 0, map[]), 0)

  function Orders(entries: seq<Entry>): seq<Accepted>
    decreases |entries|
  {
    if entries == [] then []
    else
      var n := |entries| - 1;
      if entries[n].Order? then Orders(entries[..n]) + [entries[n]] else Orders(entries[..n])
  }

  /** When the lease was last confirmed by a heartbeat. */
  function LastBeat(t: Tenure): int
    decreases |t.entries|
  {
    if t.entries == [] then t.grant.acquiredNs
    else
      var n := |t.entries| - 1;
      if t.entries[n].Beat? then t.entries[n].now else LastBeat(t.(entries := t.entries[..n]))
  }

  /** When it last accepted a command, or was acquired. */
  function LastAccepted(t: Tenure): int {
    var orders := Orders(t.entries);
    if orders == [] then t.grant.acquiredNs else orders[|orders| - 1].now
  }

  predicate Newer(f: Sample, than: Sample) { f.sequence > than.sequence && f.stampNs > than.stampNs }

  /** An entry that may come next: both timeouts are kept and, for a command, the number, the
      times, the freshness of the feedback and, for the first, the held pose are right. */
  predicate Follows(p: Policy, t: Tenure, e: Entry) {
    && e.now >= 0 && 0 <= e.now - LastBeat(t) <= p.livenessNs && 0 <= e.now - LastAccepted(t) <= p.inactivityNs
    && (e.Order? ==> OrderFollows(p, t.grant, Orders(t.entries), e))
  }

  predicate OrderFollows(p: Policy, g: Grant, orders: seq<Accepted>, e: Accepted) {
    var c, f := e.command, e.feedback;
    && c.WellFormed() && f.WellFormed() && c.lease == g.lease && c.sequence == |orders|
    && 0 <= e.now - c.stampNs <= p.inactivityNs && 0 <= e.now - f.stampNs <= p.inactivityNs
    && if orders == [] then FirstOrder(p, g, e) else NextOrder(orders[|orders| - 1], e)
  }

  predicate FirstOrder(p: Policy, g: Grant, e: Accepted)
    requires e.command.WellFormed() && e.feedback.WellFormed()
  {
    && Newer(e.feedback, g.measured) && g.acquiredNs < e.feedback.stampNs <= e.command.stampNs
    && Holds(p, e.command.action, e.feedback.values, |FEATURE_NAMES|)
  }

  predicate NextOrder(last: Accepted, e: Accepted) {
    Newer(e.feedback, last.feedback) && e.command.stampNs > last.command.stampNs
  }

  predicate Opened(p: Policy, g: Grant) {
    && p.ready && Normalized(g.lease) && g.measured.WellFormed() && g.acquiredNs >= 0
    && 0 <= g.acquiredNs - g.measured.stampNs <= p.inactivityNs
  }

  function Until(t: Tenure, n: nat): Tenure
    requires n <= |t.entries|
  {
    t.(entries := t.entries[..n])
  }

  predicate Orderly(p: Policy, t: Tenure) {
    Opened(p, t.grant) && forall k :: 0 <= k < |t.entries| ==> Follows(p, Until(t, k), t.entries[k])
  }

  /** What the session knows of its tenure. */
  function StateOf(t: Tenure): State {
    var orders := Orders(t.entries);
    var beat, accepted := Some(LastBeat(t)), Some(LastAccepted(t));
    if orders == [] then
      State(Commanding, Some(t.grant.lease), beat, accepted, None, None, Some(t.grant.measured.sequence), Some(t.grant.measured.stampNs),
            Some(t.grant.acquiredNs), None)
    else
      var last := orders[|orders| - 1];
      State(Commanding, Some(t.grant.lease), beat, accepted, Some(|orders| - 1), Some(last.command.stampNs),
            Some(last.feedback.sequence), Some(last.feedback.stampNs), Some(t.grant.acquiredNs), None)
  }

  // ----- exactly what is accepted

  lemma EntriesGrow(t: Tenure, e: Entry)
    ensures var u := t.(entries := t.entries + [e]);
      && Orders(u.entries) == (if e.Order? then Orders(t.entries) + [e] else Orders(t.entries))
      && LastBeat(u) == (if e.Beat? then e.now else LastBeat(t))
      && LastAccepted(u) == (if e.Order? then e.now else LastAccepted(t))
  {
    assert (t.entries + [e])[..|t.entries|] == t.entries;
  }

  /** A heartbeat is accepted exactly when the lease is right and both timeouts are kept. */
  lemma HeartbeatIsExact(p: Policy, t: Tenure, lease: string, now: int)
    ensures var (s, ok) := Heartbeat(p, StateOf(t), lease, now);
      && (ok <==> lease == t.grant.lease && Follows(p, t, Beat(now)))
      && if ok then s == StateOf(t.(entries := t.entries + [Beat(now)])) else s.mode == ReadOnly && s.Cleared()
  {
    hide Orders, LastBeat, OrderFollows;
    EntriesGrow(t, Beat(now));
  }

  lemma AcceptableInOrder(p: Policy, t: Tenure, c: Command, now: int, feedback: Option<Sample>)
    requires c.WellFormed() && c.lease == t.grant.lease
    ensures Acceptable(p, StateOf(t), c, now, feedback) <==>
      feedback.Some? && OrderFollows(p, t.grant, Orders(t.entries), Order(c, feedback.value, now))
    ensures Acceptable(p, StateOf(t), c, now, feedback) ==> c.sequence == |Orders(t.entries)|
  {
    hide Holds, Orders, LastBeat, Command.WellFormed, Sample.WellFormed;
  }

  lemma OrderIsWellFormed(p: Policy, t: Tenure, e: Accepted)
    ensures OrderFollows(p, t.grant, Orders(t.entries), e) ==> e.command.WellFormed() && e.command.lease == t.grant.lease
  {}

  /** A command is accepted exactly when it may come next in the tenure. */
  lemma AcceptIsExact(p: Policy, t: Tenure, command: Option<Command>, now: int, feedback: Option<Sample>)
    ensures var (s, ok) := Accept(p, StateOf(t), command, now, feedback);
      && (ok <==> command.Some? && feedback.Some? && Follows(p, t, Order(command.value, feedback.value, now)))
      && if ok then s == StateOf(t.(entries := t.entries + [Order(command.value, feedback.value, now)]))
         else s.mode == ReadOnly && s.Cleared()
  {
    hide Acceptable, OrderFollows, Orders, LastBeat, Command.WellFormed;
    if command.Some? && command.value.WellFormed() && command.value.lease == t.grant.lease {
      AcceptableInOrder(p, t, command.value, now, feedback);
    }
    if command.Some? && feedback.Some? {
      EntriesGrow(t, Order(command.value, feedback.value, now));
      OrderIsWellFormed(p, t, Order(command.value, feedback.value, now));
    }
  }

  lemma OrderlyGrows(p: Policy, t: Tenure, e: Entry)
    requires Orderly(p, t) && Follows(p, t, e)
    ensures Orderly(p, t.(entries := t.entries + [e]))
  {
    hide Follows;
    var u := t.(entries := t.entries + [e]);
    forall k | 0 <= k < |u.entries| ensures Follows(p, Until(u, k), u.entries[k]) {
      if k < |t.entries| {
        assert u.entries[..k] == t.entries[..k];
      } else {
        assert u.entries[..k] == t.entries;
      }
    }
  }

  predicate AllOrderly(p: Policy, tenures: seq<Tenure>) {
    forall k :: 0 <= k < |tenures| ==> Orderly(p, tenures[k])
  }

  /** While a lease is held the session knows its tenure; otherwise it knows nothing. */
  predicate Faithful(s: State, tenures: seq<Tenure>) {
    if s.mode == Commanding then tenures != [] && s == StateOf(tenures[|tenures| - 1]) else s.Cleared()
  }

  lemma UseKeeps(p: Policy, tenures: seq<Tenure>, e: Entry)
    requires tenures != [] && AllOrderly(p, tenures) && Follows(p, tenures[|tenures| - 1], e)
    ensures AllOrderly(p, Extended(tenures, e))
  {
    OrderlyGrows(p, tenures[|tenures| - 1], e);
    hide Follows, Orderly;
  }

  lemma AcquireKeeps(p: Policy, s: State, tenures: seq<Tenure>, lease: string, measured: Option<Sample>, now: int)
    requires AllOrderly(p, tenures) && Faithful(s, tenures)
    ensures var (t, ok) := Acquire(p, s, lease, measured, now);
      var after := Recorded(tenures, Acquiring(lease, measured, now), ok);
      AllOrderly(p, after) && Faithful(t, after)
  {
    hide Normalized, Complete;
    var (t, ok) := Acquire(p, s, lease, measured, now);
    if ok {
      var tenure := Tenure(Grant(lease, measured.value, now), []);
      assert Orderly(p, tenure) && t == StateOf(tenure);
      hide Orderly, StateOf;
    }
  }

  lemma BeatKeeps(p: Policy, s: State, tenures: seq<Tenure>, lease: string, now: int)
    requires AllOrderly(p, tenures) && Faithful(s, tenures) && s.mode == Commanding
    ensures var (t, ok) := Heartbeat(p, s, lease, now);
      var after := Recorded(tenures, Beating(lease, now), ok);
      AllOrderly(p, after) && Faithful(t, after)
  {
    HeartbeatIsExact(p, tenures[|tenures| - 1], lease, now);
    hide Heartbeat, StateOf, Follows, Orderly, AllOrderly;
    if Heartbeat(p, s, lease, now).1 { UseKeeps(p, tenures, Beat(now)); }
  }

  lemma OrderKeeps(p: Policy, s: State, tenures: seq<Tenure>, command: Option<Command>, now: int, feedback: Option<Sample>)
    requires AllOrderly(p, tenures) && Faithful(s, tenures) && s.mode == Commanding
    ensures var (t, ok) := Accept(p, s, command, now, feedback);
      var after := Recorded(tenures, Ordering(command, now, feedback), ok);
      AllOrderly(p, after) && Faithful(t, after)
  {
    AcceptIsExact(p, tenures[|tenures| - 1], command, now, feedback);
    hide Accept, StateOf, Follows, Orderly, AllOrderly;
    if Accept(p, s, command, now, feedback).1 { UseKeeps(p, tenures, Order(command.value, feedback.value, now)); }
  }

  lemma OtherKeeps(p: Policy, s: State, tenures: seq<Tenure>, e: Event)
    requires AllOrderly(p, tenures) && Faithful(s, tenures) && !e.Acquiring?
    requires s.mode != Commanding || (!e.Beating? && !e.Ordering?)
    ensures Recorded(tenures, e, Step(p, s, e).1) == tenures && Faithful(Step(p, s, e).0, tenures)
  {
    hide StateOf, Orderly, Acceptable, Normalized, Command.WellFormed;
  }

  lemma StepKeeps(p: Policy, s: State, tenures: seq<Tenure>, e: Event)
    requires AllOrderly(p, tenures) && Faithful(s, tenures)
    ensures var (t, ok) := Step(p, s, e);
      AllOrderly(p, Recorded(tenures, e, ok)) && Faithful(t, Recorded(tenures, e, ok))
  {
    hide AllOrderly, Faithful, Acquire, Heartbeat, Accept, Release, CheckTimeouts, Connect, Recorded;
    if e.Acquiring? {
      AcquireKeeps(p, s, tenures, e.lease, e.measured, e.now);
    } else if s.mode == Commanding && e.Beating? {
      BeatKeeps(p, s, tenures, e.lease, e.now);
    } else if s.mode == Commanding && e.Ordering? {
      OrderKeeps(p, s, tenures, e.command, e.now, e.feedback);
    } else {
      OtherKeeps(p, s, tenures, e);
    }
  }

  /** In every run, every lease is used in an orderly way, and a session without a lease has
      forgotten all of them. */
  lemma {:induction false} RunsAreOrderly(p: Policy, events: seq<Event>)
    ensures AllOrderly(p, Run(p, events).1) && Faithful(Run(p, events).0, Run(p, events).1)
    decreases |events|
  {
    if events != [] {
      var n := |events| - 1;
      RunsAreOrderly(p, events[..n]);
      hide AllOrderly, Faithful, Step;
      StepKeeps(p, Run(p, events[..n]).0, Run(p, events[..n]).1, events[n]);
    }
  }

  /** A heartbeat or command that raises while a lease is held leaves a read-only session with
      every lease field cleared; so does a timeout. */
  lemma RaisingFailsClosed(p: Policy, s: State, e: Event)
    requires s.mode == Commanding && (e.Beating? || e.Ordering?) && !Step(p, s, e).1
    ensures Step(p, s, e).0.mode == ReadOnly && Step(p, s, e).0.Cleared() && Step(p, s, e).0.reason.Some?
  {
    hide Acceptable, Normalized, Complete;
  }

  /** Raising without a lease changes nothing. */
  lemma RaisingElsewhereIsHarmless(p: Policy, s: State, e: Event)
    requires s.mode != Commanding && !Step(p, s, e).1
    ensures Step(p, s, e).0 == s
  {
    hide Acceptable, Acquirable, Normalized, Complete;
  }

  // ----- what that means for the commands of a lease

  /** Numbered from zero, with increasing times and ever fresher feedback. */
  predicate Contiguously(lease: string, orders: seq<Accepted>) {
    && (forall k :: 0 <= k < |orders| ==> orders[k].command.sequence == k && orders[k].command.lease == lease)
    && forall j, k :: 0 <= j < k < |orders| ==> NextOrder(orders[j], orders[k])
  }

  /** The time of the acceptance before the k-th, or of the acquisition. */
  function Previously(acquiredNs: int, orders: seq<Accepted>, k: nat): int
    requires k <= |orders|
  {
    if k == 0 then acquiredNs else orders[k - 1].now
  }

  /** No two acceptances are further apart than the inactivity timeout. */
  predicate Paced(p: Policy, acquiredNs: int, orders: seq<Accepted>) {
    forall k :: 0 <= k < |orders| ==> 0 <= orders[k].now - Previously(acquiredNs, orders, k) <= p.inactivityNs
  }

  /** The first command was in place. */
  predicate BeginsHeld(p: Policy, g: Grant, orders: seq<Accepted>) {
    orders != [] ==> orders[0].command.WellFormed() && orders[0].feedback.WellFormed() && FirstOrder(p, g, orders[0])
  }

  lemma ContiguouslyGrows(p: Policy, g: Grant, orders: seq<Accepted>, e: Accepted)
    requires Contiguously(g.lease, orders) && OrderFollows(p, g, orders, e)
    ensures Contiguously(g.lease, orders + [e])
  {
    hide FirstOrder, Command.WellFormed, Sample.WellFormed;
    forall j | 0 <= j < |orders| ensures NextOrder(orders[j], e) {
      var last := |orders| - 1;
      assert j < last ==> NextOrder(orders[j], orders[last]);
    }
  }

  lemma PacedGrows(p: Policy, acquiredNs: int, orders: seq<Accepted>, e: Accepted)
    requires Paced(p, acquiredNs, orders) && 0 <= e.now - Previously(acquiredNs, orders, |orders|) <= p.inactivityNs
    ensures Paced(p, acquiredNs, orders + [e])
  {
    hide Previously;
    var longer := orders + [e];
    forall k | 0 <= k < |longer|
      ensures 0 <= longer[k].now - Previously(acquiredNs, longer, k) <= p.inactivityNs
    {
      PreviouslyKept(acquiredNs, orders, e, k);
      assert k < |orders| ==> longer[k] == orders[k];
    }
  }

  lemma PreviouslyKept(acquiredNs: int, orders: seq<Accepted>, e: Accepted, k: nat)
    requires k <= |orders|
    ensures Previously(acquiredNs, orders + [e], k) == Previously(acquiredNs, orders, k)
  {
  }

  lemma ShorterIsOrderly(p: Policy, t: Tenure, n: nat)
    requires Orderly(p, t) && n <= |t.entries|
    ensures Orderly(p, Until(t, n))
  {
    hide Follows;
    forall k | 0 <= k < n ensures Follows(p, Until(Until(t, n), k), t.entries[k]) {
      assert t.entries[..n][..k] == t.entries[..k];
    }
  }

  /** The commands accepted within one lease of any run are numbered 0, 1, 2, ... with increasing
      timestamps and strictly fresher feedback, never further apart than the inactivity timeout;
      and the first holds a pose measured after the lease was acquired. */
  lemma {:induction false} CommandsAreContiguous(p: Policy, t: Tenure)
    requires Orderly(p, t)
    ensures Contiguously(t.grant.lease, Orders(t.entries)) && Paced(p, t.grant.acquiredNs, Orders(t.entries))
    ensures BeginsHeld(p, t.grant, Orders(t.entries))
    decreases |t.entries|
  {
    if t.entries != [] {
      var n := |t.entries| - 1;
      var before, e := Until(t, n), t.entries[n];
      ShorterIsOrderly(p, t, n);
      CommandsAreContiguous(p, before);
      assert Follows(p, before, e);
      if e.Order? {
        var orders := Orders(before.entries);
        hide Contiguously, Paced, Holds, Command.WellFormed, Sample.WellFormed, Orderly, NextOrder;
        assert Previously(t.grant.acquiredNs, orders, |orders|) == LastAccepted(before);
        ContiguouslyGrows(p, t.grant, orders, e);
        PacedGrows(p, t.grant.acquiredNs, orders, e);
      }
    }
  }

  // ----- leases that end

  /** Without the white space at both ends. */
  function Stripped(s: string): string {
    if s != "" && Blank(s[0]) then Stripped(s[1..])
    else if s != "" && Blank(s[|s| - 1]) then Stripped(s[..|s| - 1])
    else s
  }

  lemma StrippedIsShorter(s: string)
    ensures |Stripped(s)| <= |s|
  {}

  /** A text is normalized exactly when it is not empty and stripping changes nothing. */
  lemma NormalizedExactly(s: string)
    ensures Normalized(s) <==> s != "" && Stripped(s) == s
  {
    if s != "" {
      StrippedIsShorter(s[1..]);
      StrippedIsShorter(s[..|s| - 1]);
    }
  }

  /** A release under the held lease always ends it, read-only and with nothing left; the reason given is
      recorded, or that it was no proper one. Under another lease the lease is lost as well. */
  lemma ReleaseEnds(p: Policy, s: State, lease: string, why: string)
    requires s.mode == Commanding
    ensures var (t, ok) := Step(p, s, Releasing(lease, why));
      && t.mode == ReadOnly && t.Cleared()
      && (ok <==> s.lease == Some(lease) && why != "" && Stripped(why) == why)
      && t.reason == Some(if s.lease != Some(lease) then LeaseMismatch
                          else if why != "" && Stripped(why) == why then Stated(why) else InvalidReason)
  {
    NormalizedExactly(why);
  }

  /** Disconnecting ends everything but the reason, and only then can a session connect, to read-only. */
  lemma ConnectionIsExact(p: Policy, s: State, now: int)
    ensures var (t, ok) := Step(p, s, Connecting(now));
      && (ok <==> now >= 0 && s.mode == Disconnected)
      && (if ok then t.mode == ReadOnly && t.reason == None && (s.Cleared() ==> t.Cleared()) else t == s)
    ensures var (t, ok) := Step(p, s, Disconnecting);
      ok && t.mode == Disconnected && t.Cleared() && t.reason == s.reason
  {}

  /** A lease is granted exactly to a connected session without one, on a ready policy, under a proper
      name, on a complete pose that is recent and not from the future; it begins a tenure of its own. */
  lemma AcquireIsExact(p: Policy, s: State, lease: string, measured: Option<Sample>, now: int)
    ensures var (t, ok) := Step(p, s, Acquiring(lease, measured, now));
      && (ok <==> s.mode == ReadOnly && p.ready && now >= 0 && lease != "" && Stripped(lease) == lease
                  && measured.Some? && measured.value.sequence >= 0 && 0 <= measured.value.stampNs <= now
                  && now - measured.value.stampNs <= p.inactivityNs
                  && forall f :: f in FEATURE_NAMES <==> f in measured.value.values)
      && t == if ok then StateOf(Tenure(Grant(lease, measured.value, now), [])) else s
  {
    NormalizedExactly(lease);
    hide Normalized;
  }

  /** A check of a held lease reports a timeout exactly when one of its two clocks has run out or runs
      back, and then the lease is lost; otherwise nothing changes. */
  lemma TimeoutIsExact(p: Policy, t: Tenure, now: int)
    ensures var beat, used := now - LastBeat(t), now - LastAccepted(t);
      CheckTimeouts(p, StateOf(t), now) ==
        if now < 0 then (Failed(InvalidTime), Raised)
        else if beat < 0 || used < 0 then (Failed(TimeWentBack), Answered(true))
        else if beat > p.livenessNs then (Failed(LivenessTimeout), Answered(true))
        else if used > p.inactivityNs then (Failed(InactivityTimeout), Answered(true))
        else (StateOf(t), Answered(false))
  {
    hide Orders, LastBeat;
  }

  /** Without a lease a check changes nothing and reports none; it refuses only an invalid time. */
  lemma CheckWithoutLease(p: Policy, s: State, now: int)
    requires s.mode != Commanding
    ensures CheckTimeouts(p, s, now) == (s, if now < 0 then Raised else Answered(false))
    ensures Step(p, s, Checking(now)) == (s, now >= 0)
  {}

  /** The k-th event is an acquisition that is granted. */
  predicate Granted(p: Policy, events: seq<Event>, k: nat)
    requires k < |events|
  {
    events[k].Acquiring? && Step(p, Run(p, events[..k]).0, events[k]).1
  }

  /** The k-th event is no heartbeat or command, or is refused. */
  predicate NotUsed(p: Policy, events: seq<Event>, k: nat)
    requires k < |events|
  {
    events[k].Beating? || events[k].Ordering? ==> !Step(p, Run(p, events[..k]).0, events[k]).1
  }

  /** The event ends the lease that is held: a release, a disconnection, a check that reports a timeout
      or cannot tell the time, or a heartbeat or command that is refused. */
  predicate Ends(p: Policy, s: State, e: Event) {
    s.mode == Commanding &&
    match e
    case Releasing(_, _) => true
    case Disconnecting => true
    case Checking(now) => CheckTimeouts(p, s, now).1 != Answered(false)
    case Beating(_, _) => !Step(p, s, e).1
    case Ordering(_, _, _) => !Step(p, s, e).1
    case _ => false
  }

  lemma EndedIsCleared(p: Policy, s: State, e: Event)
    requires Ends(p, s, e)
    ensures Step(p, s, e).0.mode != Commanding && Step(p, s, e).0.Cleared()
  {
    hide Acceptable, Normalized, Complete;
    if e.Beating? || e.Ordering? { RaisingFailsClosed(p, s, e); }
  }

  /** Nothing else ends a lease. */
  lemma OnlyTheseEnd(p: Policy, s: State, e: Event)
    requires s.mode == Commanding && !Ends(p, s, e)
    ensures Step(p, s, e).0.mode == Commanding && Step(p, s, e).0.lease == s.lease
  {
    hide Acceptable, Normalized, Complete;
  }

  lemma IdleStays(p: Policy, s: State, tenures: seq<Tenure>, e: Event)
    requires s.mode != Commanding && !(e.Acquiring? && Step(p, s, e).1)
    ensures Step(p, s, e).0.mode != Commanding && Recorded(tenures, e, Step(p, s, e).1) == tenures
    ensures e.Beating? || e.Ordering? ==> !Step(p, s, e).1
  {
    hide Acceptable, Acquirable, Normalized, Complete;
  }

  /** Once a lease has ended, no heartbeat and no command is accepted, under this or any other lease, and
      no tenure is used any more, until an acquisition is granted. */
  lemma {:induction false} EndedUntilGranted(p: Policy, events: seq<Event>, more: seq<Event>)
    requires Run(p, events).0.mode != Commanding
    requires forall k :: |events| <= k < |events + more| ==> !Granted(p, events + more, k)
    ensures Run(p, events + more).0.mode != Commanding && Run(p, events + more).1 == Run(p, events).1
    ensures forall k :: |events| <= k < |events + more| ==> NotUsed(p, events + more, k)
    decreases |more|
  {
    hide Step, Recorded;
    if more == [] {
      assert events + more == events;
    } else {
      var n := |more| - 1;
      var all, front := events + more, events + more[..n];
      assert all[..|front|] == front && all[|front|] == more[n] && |all| == |front| + 1;
      forall k | |events| <= k < |front| ensures !Granted(p, front, k) {
        assert !Granted(p, all, k);
        assert all[..k] == front[..k] && all[k] == front[k];
      }
      EndedUntilGranted(p, events, more[..n]);
      assert !Granted(p, all, |front|);
      IdleStays(p, Run(p, front).0, Run(p, front).1, more[n]);
      forall k | |events| <= k < |all| ensures NotUsed(p, all, k) {
        if k < |front| {
          assert NotUsed(p, front, k);
          assert all[..k] == front[..k] && all[k] == front[k];
        }
      }
    }
  }

  /** Over all runs: after an event that ends the lease, nothing is left of it and nothing is accepted
      until the next granted acquisition. */
  lemma LeaseEndsForGood(p: Policy, events: seq<Event>, e: Event, more: seq<Event>)
    requires Ends(p, Run(p, events).0, e)
    requires forall k :: |events| < k < |events + [e] + more| ==> !Granted(p, events + [e] + more, k)
    ensures Run(p, events + [e]).0.Cleared()
    ensures Run(p, events + [e] + more).0.mode != Commanding && Run(p, events + [e] + more).1 == Run(p, events + [e]).1
    ensures forall k :: |events| < k < |events + [e] + more| ==> NotUsed(p, events + [e] + more, k)
  {
    hide Step, Ends;
    assert (events + [e])[..|events|] == events;
    EndedIsCleared(p, Run(p, events).0, e);
    hide Run, Granted, State.Cleared;
    EndedUntilGranted(p, events + [e], more);
  }

  // ----- what the first command holds

  lemma NamedHolds(p: Policy, names: seq<string>, action: Values, measured: Values)
    requires forall k :: 0 <= k < |names| ==> names[k] in action && names[k] in measured
    ensures forall f :: f in names ==> f in action && f in measured
    ensures HoldsOn(p, names, action, measured, |names|)
       <==> forall f :: f in names ==> measured[f] - p.toleranceDeg <= action[f] <= measured[f] + p.toleranceDeg
  {
    if HoldsOn(p, names, action, measured, |names|) {
      forall f | f in names ensures measured[f] - p.toleranceDeg <= action[f] <= measured[f] + p.toleranceDeg {
        var k :| 0 <= k < |names| && names[k] == f;
        assert Abs(action[names[k]] - measured[names[k]]) <= p.toleranceDeg;
      }
    }
    if forall f :: f in names ==> measured[f] - p.toleranceDeg <= action[f] <= measured[f] + p.toleranceDeg {
      forall k | 0 <= k < |names| ensures Abs(action[names[k]] - measured[names[k]]) <= p.toleranceDeg {
        var f := names[k];
        assert f in names;
        assert measured[f] - p.toleranceDeg <= action[f] <= measured[f] + p.toleranceDeg;
      }
      assert HoldsOn(p, names, action, measured, |names|);
    }
  }

  /** The first command of a lease, if it comes, is on every feature within the tolerance of a pose that
      was measured after the lease was acquired and no later than the command was made. */
  lemma FirstCommandHoldsPose(p: Policy, t: Tenure)
    requires Orderly(p, t) && Orders(t.entries) != []
    ensures var c, m := Orders(t.entries)[0].command, Orders(t.entries)[0].feedback;
      && Complete(c.action) && Complete(m.values) && t.grant.acquiredNs < m.stampNs <= c.stampNs
      && forall f :: f in FEATURE_NAMES ==> m.values[f] - p.toleranceDeg <= c.action[f] <= m.values[f] + p.toleranceDeg
  {
    hide Orderly, Orders, Normalized, Contiguously, Paced;
    CommandsAreContiguous(p, t);
    var c, m := Orders(t.entries)[0].command, Orders(t.entries)[0].feedback;
    CompleteNames(c.action);
    CompleteNames(m.values);
    hide Complete;
    NamedHolds(p, FEATURE_NAMES, c.action, m.values);
  }

  lemma CompleteNames(v: Values)
    requires Complete(v)
    ensures forall k :: 0 <= k < |FEATURE_NAMES| ==> FEATURE_NAMES[k] in v
    ensures forall f :: f in FEATURE_NAMES ==> f in v
  {
    assert forall k :: 0 <= k < |FEATURE_NAMES| ==> FEATURE_NAMES[k] in FEATURE_NAMES;
  }

  // ----- the same in plain terms

  /** The white space among the ASCII characters, by its codes. */
  lemma BlankExactly(c: char)
    ensures Blank(c) <==> c as int in {9, 10, 11, 12, 13, 28, 29, 30, 31, 32}
  {}

  /** Exactly the features are named. */
  ghost predicate NamesFeatures(v: Values) { forall f :: f in FEATURE_NAMES <==> f in v }

  /** What a held lease demands of a command and its feedback at this moment. */
  ghost predicate Fitting(p: Policy, t: Tenure, c: Command, f: Sample, now: int) {
    var orders := Orders(t.entries);
    && c.lease == t.grant.lease && c.sequence == |orders| && NamesFeatures(c.action) && NamesFeatures(f.values)
    && 0 <= c.stampNs <= now && now - c.stampNs <= p.inactivityNs
    && 0 <= f.stampNs <= now && now - f.stampNs <= p.inactivityNs && f.sequence >= 0
    && (if orders == [] then
          && f.sequence > t.grant.measured.sequence && f.stampNs > t.grant.measured.stampNs
          && t.grant.acquiredNs < f.stampNs <= c.stampNs
          && forall n :: n in FEATURE_NAMES ==> f.values[n] - p.toleranceDeg <= c.action[n] <= f.values[n] + p.toleranceDeg
        else
          var last := orders[|orders| - 1];
          && f.sequence > last.feedback.sequence && f.stampNs > last.feedback.stampNs && c.stampNs > last.command.stampNs)
  }

  /** Under a lease that is properly named, a command is accepted exactly if the time has not run back, both
      timeouts are kept, and command and feedback are fitting; otherwise the lease is lost. */
  lemma CommandAcceptedExactly(p: Policy, t: Tenure, command: Option<Command>, now: int, feedback: Option<Sample>)
    requires Normalized(t.grant.lease)
    ensures var (s, ok) := Accept(p, StateOf(t), command, now, feedback);
      && (ok <==> command.Some? && feedback.Some? && now >= 0
                  && 0 <= now - LastBeat(t) <= p.livenessNs && 0 <= now - LastAccepted(t) <= p.inactivityNs
                  && Fitting(p, t, command.value, feedback.value, now))
      && (!ok ==> s.mode == ReadOnly && s.Cleared())
  {
    hide Accept, Orders, LastBeat, LastAccepted, Normalized, StateOf, Fitting, OrderFollows;
    AcceptIsExact(p, t, command, now, feedback);
    if command.Some? && feedback.Some? { FittingExactly(p, t, command.value, feedback.value, now); }
  }

  lemma FittingExactly(p: Policy, t: Tenure, c: Command, f: Sample, now: int)
    requires Normalized(t.grant.lease)
    ensures OrderFollows(p, t.grant, Orders(t.entries), Order(c, f, now)) <==> Fitting(p, t, c, f, now)
  {
    hide Orders, Normalized, Complete, NamesFeatures, Holds;
    CompleteExactly(c.action);
    CompleteExactly(f.values);
    if Complete(c.action) && Complete(f.values) {
      HoldsPlainly(p, c.action, f.values);
    }
  }

  lemma CompleteExactly(v: Values)
    ensures Complete(v) <==> NamesFeatures(v)
    ensures Complete(v) ==> forall n :: n in FEATURE_NAMES ==> n in v
  {}

  lemma HoldsPlainly(p: Policy, action: Values, measured: Values)
    requires Complete(action) && Complete(measured)
    ensures forall n :: n in FEATURE_NAMES ==> n in action && n in measured
    ensures Holds(p, action, measured, |FEATURE_NAMES|)
       <==> forall n :: n in FEATURE_NAMES ==> measured[n] - p.toleranceDeg <= action[n] <= measured[n] + p.toleranceDeg
  {
    hide Complete, HoldsOn;
    CompleteNames(action);
    CompleteNames(measured);
    NamedHolds(p, FEATURE_NAMES, action, measured);
  }

  /** A heartbeat under the held lease is accepted exactly if the time has not run back and both timeouts
      are kept. */
  lemma HeartbeatAcceptedExactly(p: Policy, t: Tenure, lease: string, now: int)
    ensures var (s, ok) := Heartbeat(p, StateOf(t), lease, now);
      && (ok <==> lease == t.grant.lease && now >= 0
                  && 0 <= now - LastBeat(t) <= p.livenessNs && 0 <= now - LastAccepted(t) <= p.inactivityNs)
      && (!ok ==> s.mode == ReadOnly && s.Cleared())
  {
    hide Heartbeat, Orders, LastBeat, LastAccepted, StateOf;
    HeartbeatIsExact(p, t, lease, now);
  }
}
