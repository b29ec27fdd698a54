/** The receiving end of the telemetry: a session that accepts packets in order and in time, or
    latches a fault for good. */
module FeedbackSession {
  import opened Common
  import opened Bytes
  import MotorFeedback
  import opened Wire
  import opened Measurement

  datatype Policy = Policy(
    side: nat, session: seq<byte>, digest: seq<byte>,
    responseIds: seq<nat>, slaveIds: seq<nat>, allowedStatuses: seq<set<nat>>,
    startedNs: nat, maxAgeNs: nat, maxSkewNs: nat, startupNs: nat, silenceNs: nat)
  {
    predicate Valid() {
      && side <= 1 && Identity(session, 16) && Identity(digest, 32)
      && Positive(startedNs) && Positive(maxAgeNs) && Positive(maxSkewNs) && Positive(startupNs) && Positive(silenceNs)
      && maxSkewNs <= maxAgeNs && DistinctIds(responseIds, 0, 0x7FF) && DistinctIds(slaveIds, 1, 15)
      && |allowedStatuses| == 8
      && forall i :: 0 <= i < 8 ==> allowedStatuses[i] != {} && forall v :: v in allowedStatuses[i] ==> v <= 15
    }

    /** Eight of everything that is listed per motor. */
    predicate Sized() { |responseIds| == 8 && |slaveIds| == 8 && |allowedStatuses| == 8 }
  }

  predicate Positive(value: int) { 0 < value <= MAX_UINT64 }

  predicate DistinctIds(ids: seq<nat>, lower: nat, upper: nat) {
    && |ids| == 8 && (forall i :: 0 <= i < 8 ==> lower <= ids[i] <= upper)
    && forall i, j :: 0 <= i < j < 8 ==> ids[i] != ids[j]
  }

  datatype State = State(lastNow: int, lastReceived: Option<int>, last: Option<Packet>, faulted: bool)

  function Initial(p: Policy): State { State(p.startedNs, None, None, false) }

  function Invalidated(s: State): State { s.(last := None, faulted := true) }

  /** A stored packet has its eight motors. */
  predicate Kept(last: Option<Packet>) { last.Some? ==> |last.value.motors| == 8 }

  // ----- the deadline

  predicate Clocked(s: State, now: int) { Positive(now) && now >= s.lastNow }

  predicate Heard(p: Policy, s: State, now: int) {
    match s.lastReceived
    case None => now - p.startedNs <= p.startupNs
    case Some(received) => now - received <= p.silenceNs
  }

  /** No motor of the last packet is too old. */
  predicate Young(p: Policy, last: Option<Packet>, now: int)
    requires Kept(last)
  {
    last.Some? ==> forall i :: 0 <= i < 8 ==> now - last.value.motors[i].stampNs <= p.maxAgeNs
  }

  function CheckDeadline(p: Policy, s: State, now: int): (State, bool)
    requires Kept(s.last)
  {
    if s.faulted then (s, false)
    else if !Clocked(s, now) then (Invalidated(s), false)
    else
      var t := s.(lastNow := now);
      if Heard(p, s, now) && Young(p, s.last, now) then (t, true) else (Invalidated(t), false)
  }

  // ----- accepting a packet

  predicate Ours(p: Policy, q: Packet) { q.side == p.side && q.session == p.session && q.digest == p.digest }

  /** Sequence and assembly time moved on since the last packet. */
  predicate Advanced(last: Option<Packet>, q: Packet) {
    last.Some? ==> q.sequence > last.value.sequence && q.assembledNs > last.value.assembledNs
  }

  /** The same for the receive time of one motor. */
  predicate Moved(last: Option<Packet>, q: Packet, i: nat)
    requires Kept(last) && |q.motors| == 8 && i < 8
  {
    last.Some? ==> q.motors[i].stampNs > last.value.motors[i].stampNs
  }

  predicate MotorOk(p: Policy, m: WireMotor, i: nat, now: int)
    requires p.Sized() && i < 8 && |m.payload| == 8
  {
    && m.responseId == p.responseIds[i] && (m.payload[0] as nat) % 16 == p.slaveIds[i]
    && (m.payload[0] as nat) / 16 in p.allowedStatuses[i] && !m.endpoint
    && p.startedNs <= m.stampNs && now - m.stampNs <= p.maxAgeNs
  }

  predicate MotorsOk(p: Policy, last: Option<Packet>, q: Packet, now: int, n: nat)
    requires p.Sized() && Kept(last) && q.Valid() && n <= 8
  {
    forall i :: 0 <= i < n ==> MotorOk(p, q.motors[i], i, now) && Moved(last, q, i)
  }

  function StampsIn(q: Packet): MotorFeedback.Stamps
    requires |q.motors| == 8
  {
    seq(8, i requires 0 <= i < 8 => q.motors[i].stampNs)
  }

  predicate Acceptable(p: Policy, last: Option<Packet>, q: Packet, now: int)
    requires p.Sized() && Kept(last) && q.Valid()
  {
    && Ours(p, q) && p.startedNs <= q.assembledNs <= now && Advanced(last, q)
    && MotorsOk(p, last, q, now, 8) && !MotorFeedback.Skewed(StampsIn(q), p.maxSkewNs)
  }

  lemma DecodedIsValid(payload: seq<byte>)
    ensures Decode(payload).Some? ==> Decode(payload).value.Valid()
  {}

  function Accept(p: Policy, s: State, payload: seq<byte>, now: int): (State, Option<Packet>)
    requires p.Sized() && Kept(s.last)
  {
    var (t, ok) := CheckDeadline(p, s, now);
    if !ok then (t, None)
    else
      var q := Decode(payload);
      if q.Some? && Acceptable(p, t.last, q.value, now)
      then (t.(last := q, lastReceived := Some(now)), q)
      else (Invalidated(t), None)
  }

  // ----- the session object

  class Session {
    const policy: Policy
    var lastNow: int
    var lastReceived: Option<int>
    var last: Option<Packet>
    var faulted: bool

    constructor (policy: Policy)
      requires policy.Valid()
      ensures this.policy == policy && View() == Initial(policy)
    {
      this.policy := policy;
      lastNow, lastReceived, last, faulted := policy.startedNs, None, None, false;
    }

    function View(): State
      reads this
    {
      State(lastNow, lastReceived, last, faulted)
    }

    method Invalidate()
      modifies `faulted, `last
      ensures View() == Invalidated(old(View()))
    {
      faulted := true;
      last := None;
    }

    method CheckDeadlineNow(now: int) returns (ok: bool)
      requires Kept(last)
      modifies this
      ensures (View(), ok) == CheckDeadline(policy, old(View()), now) && Kept(last)
    {
      if faulted { return false; }
      if !Positive(now) || now < lastNow {
        Invalidate();
        return false;
      }
      lastNow := now;
      if lastReceived == None {
        ok := now - policy.startedNs <= policy.startupNs;
      } else {
        ok := now - lastReceived.value <= policy.silenceNs;
      }
      if ok && last.Some? {
        for i := 0 to 8
          invariant ok && forall j :: 0 <= j < i ==> now - last.value.motors[j].stampNs <= policy.maxAgeNs
        {
          if now - last.value.motors[i].stampNs > policy.maxAgeNs {
            ok := false;
            break;
          }
        }
      }
      if !ok { Invalidate(); }
    }

    /** The per-motor checks, keeping the extreme receive times. */
    method CheckMotors(q: Packet, now: int) returns (ok: bool)
      requires policy.Sized() && Kept(last) && q.Valid()
      ensures ok == (MotorsOk(policy, last, q, now, 8) && !MotorFeedback.Skewed(StampsIn(q), policy.maxSkewNs))
    {
      var newest, oldest := 0, 0;
      for i := 0 to 8
        invariant MotorsOk(policy, last, q, now, i)
        invariant i > 0 ==> newest < i && oldest < i
        invariant forall j :: 0 <= j < i ==> q.motors[oldest].stampNs <= q.motors[j].stampNs <= q.motors[newest].stampNs
      {
        var m := q.motors[i];
        if !MotorOk(policy, m, i, now) { return false; }
        if last.Some? && m.stampNs <= last.value.motors[i].stampNs { return false; }
        newest := if i == 0 || m.stampNs > q.motors[newest].stampNs then i else newest;
        oldest := if i == 0 || m.stampNs < q.motors[oldest].stampNs then i else oldest;
      }
      MotorFeedback.SkewFromExtremes(StampsIn(q), oldest, newest, policy.maxSkewNs);
      return q.motors[newest].stampNs - q.motors[oldest].stampNs <= policy.maxSkewNs;
    }

    method AcceptPacket(payload: seq<byte>, now: int) returns (r: Option<Packet>)
      requires policy.Sized() && Kept(last)
      modifies this
      ensures (View(), r) == Accept(policy, old(View()), payload, now) && Kept(last)
    {
      var inTime := CheckDeadlineNow(now);
      if !inTime { return None; }
      var decoded := Decode(payload);
      DecodedIsValid(payload);
      if decoded == None { Invalidate(); return None; }
      var q := decoded.value;
      if !Ours(policy, q) || !(policy.startedNs <= q.assembledNs <= now) || !Advanced(last, q) {
        Invalidate();
        return None;
      }
      var ok := CheckMotors(q, now);
      if !ok { Invalidate(); return None; }
      last := decoded;
      lastReceived := Some(now);
      return decoded;
    }
  }

  // ----- whole sessions, under any delivery

  /** What can happen to a session: a poll of its deadline, a payload from the network (lost,
      repeated, reordered or corrupted as it may be), or a fault its owner reports. */
  datatype Event = Poll(now: int) | Deliver(payload: seq<byte>, now: int) | Fault

  /** An accepted packet, when it was accepted, and by which event. */
  datatype Reception = Reception(packet: Packet, now: int, at: nat)

  function Step(p: Policy, s: State, e: Event): (r: (State, Option<Packet>))
    requires p.Sized() && Kept(s.last)
    ensures Kept(r.0.last)
  {
    match e
    case Poll(now) => (CheckDeadline(p, s, now).0, None)
    case Deliver(payload, now) => Accept(p, s, payload, now)
    case Fault => (Invalidated(s), None)
  }

  function Run(p: Policy, events: seq<Event>): (r: (State, seq<Reception>))
    requires p.Sized()
    ensures Kept(r.0.last)
    decreases |events|
  {
    if events == [] then (Initial(p), [])
    else
      var n := |events| - 1;
      var (s, log) := Run(p, events[..n]);
      var (t, accepted) := Step(p, s, events[n]);
      (t, if accepted.Some? && events[n].Deliver? then log + [Reception(accepted.value, events[n].now, n)] else log)
  }

  /** Everything about q is newer than about p. */
  predicate Fresher(p: Packet, q: Packet) {
    && |p.motors| == |q.motors| == 8 && p.sequence < q.sequence && p.assembledNs < q.assembledNs
    && forall i :: 0 <= i < 8 ==> p.motors[i].stampNs < q.motors[i].stampNs
  }

  /** A packet the policy admits, in time. */
  predicate Admitted(p: Policy, r: Reception)
    requires p.Sized()
  {
    && r.packet.Valid() && Ours(p, r.packet) && p.startedNs <= r.packet.assembledNs <= r.now
    && (forall i :: 0 <= i < 8 ==> MotorOk(p, r.packet.motors[i], i, r.now))
    && !MotorFeedback.Skewed(StampsIn(r.packet), p.maxSkewNs)
  }

  /** Nothing was ever silent, or known only from an old packet, for longer than the policy allows. */
  predicate Punctual(p: Policy, log: seq<Reception>, now: int) {
    if log == [] then now - p.startedNs <= p.startupNs
    else
      var previous := log[|log| - 1];
      && 0 <= now - previous.now <= p.silenceNs && |previous.packet.motors| == 8
      && forall i :: 0 <= i < 8 ==> now - previous.packet.motors[i].stampNs <= p.maxAgeNs
  }

  /** What is known of a log of receptions. */
  predicate Sound(p: Policy, events: seq<Event>, log: seq<Reception>)
    requires p.Sized()
  {
    forall k :: 0 <= k < |log| ==>
      && Admitted(p, log[k]) && log[k].at < |events| && Punctual(p, log[..k], log[k].now)
      && events[log[k].at] == Deliver(Serialize(log[k].packet), log[k].now)
  }

  predicate Ordered(log: seq<Reception>) {
    forall j, k :: 0 <= j < k < |log| ==> Fresher(log[j].packet, log[k].packet) && log[j].at < log[k].at
  }

  /** An unfaulted session remembers its last reception. */
  predicate Tracks(s: State, log: seq<Reception>) {
    if log == [] then s.last == None && s.lastReceived == None
    else
      var r := log[|log| - 1];
      s.last == Some(r.packet) && s.lastReceived == Some(r.now) && r.now <= s.lastNow
  }

  lemma SoundGrows(p: Policy, events: seq<Event>, e: Event, log: seq<Reception>, r: Reception)
    requires p.Sized() && Sound(p, events, log)
    requires Admitted(p, r) && r.at == |events| && Punctual(p, log, r.now) && e == Deliver(Serialize(r.packet), r.now)
    ensures Sound(p, events + [e], log + [r])
  {
    hide Admitted, Punctual, Serialize;
    var longer := log + [r];
    forall k | 0 <= k < |longer|
      ensures Admitted(p, longer[k]) && longer[k].at < |events + [e]| && Punctual(p, longer[..k], longer[k].now)
      ensures (events + [e])[longer[k].at] == Deliver(Serialize(longer[k].packet), longer[k].now)
    {
      assert longer[..k] == log[..k];
      assert log[..|log|] == log;
    }
  }

  lemma OrderedGrows(log: seq<Reception>, r: Reception)
    requires Ordered(log) && forall k :: 0 <= k < |log| ==> log[k].at < r.at
    requires log != [] ==> Fresher(log[|log| - 1].packet, r.packet)
    ensures Ordered(log + [r])
  {
    forall j | 0 <= j < |log| ensures Fresher(log[j].packet, r.packet) {
      var last := |log| - 1;
      assert j < last ==> Fresher(log[j].packet, log[last].packet);
    }
    hide Fresher;
  }

  /** An accepted packet is admitted, punctual, and newer than the one before. */
  lemma AcceptanceIsSound(p: Policy, s: State, payload: seq<byte>, now: int, log: seq<Reception>, at: nat)
    requires p.Sized() && Kept(s.last) && (!s.faulted ==> Tracks(s, log))
    requires Accept(p, s, payload, now).1.Some?
    ensures var q := Accept(p, s, payload, now).1.value;
      && Admitted(p, Reception(q, now, at)) && Punctual(p, log, now) && payload == Serialize(q)
      && (log != [] ==> Fresher(log[|log| - 1].packet, q))
      && Tracks(Accept(p, s, payload, now).0, log + [Reception(q, now, at)]) && !s.faulted
  {
    SerializeOfDecode(payload);
    hide Decode, Serialize, MotorOk, MotorFeedback.Skewed, Ours;
    var q := Decode(payload).value;
    var t := s.(lastNow := now);
    assert CheckDeadline(p, s, now) == (t, true);
    assert Acceptable(p, s.last, q, now) && q.Valid();
    assert MotorsOk(p, s.last, q, now, 8);
  }

  /** Under any delivery whatever, each accepted packet was delivered as it was serialized, is
      admitted by the policy in time, and is newer in every respect than all accepted before it. */
  lemma {:induction false} ReceptionsAreSound(p: Policy, events: seq<Event>)
    requires p.Sized()
    ensures Sound(p, events, Run(p, events).1) && Ordered(Run(p, events).1)
    ensures !Run(p, events).0.faulted ==> Tracks(Run(p, events).0, Run(p, events).1)
    decreases |events|
  {
    if events != [] {
      var n := |events| - 1;
      ReceptionsAreSound(p, events[..n]);
      var (s, log) := Run(p, events[..n]);
      var e := events[n];
      assert events == events[..n] + [e];
      var (t, accepted) := Step(p, s, e);
      if accepted.Some? {
        var r := Reception(accepted.value, e.now, n);
        AcceptanceIsSound(p, s, e.payload, e.now, log, n);
        hide Sound, Ordered, Admitted, Punctual, Serialize, Fresher, Accept;
        assert log != [] ==> Fresher(log[|log| - 1].packet, r.packet);
        EarlierEvents(p, events[..n], log);
        SoundGrows(p, events[..n], e, log, r);
        OrderedGrows(log, r);
      } else {
        NothingAccepted(p, s, e, log);
        hide Step, Admitted, Punctual, Serialize;
        assert Sound(p, events, log);
      }
    }
  }

  lemma EarlierEvents(p: Policy, events: seq<Event>, log: seq<Reception>)
    requires p.Sized() && Sound(p, events, log)
    ensures forall k :: 0 <= k < |log| ==> log[k].at < |events|
  {}

  lemma NothingAccepted(p: Policy, s: State, e: Event, log: seq<Reception>)
    requires p.Sized() && Kept(s.last) && (!s.faulted ==> Tracks(s, log)) && Step(p, s, e).1 == None
    ensures !Step(p, s, e).0.faulted ==> !s.faulted && Tracks(Step(p, s, e).0, log)
  {
    hide Decode, Acceptable, Heard, Young;
  }

  /** After the first fault nothing is accepted, and the session stays faulted. */
  lemma {:induction false} FaultIsFinal(p: Policy, events: seq<Event>, more: seq<Event>)
    requires p.Sized() && Run(p, events).0.faulted
    ensures Run(p, events + more).0.faulted && Run(p, events + more).1 == Run(p, events).1
    decreases |more|
  {
    if more == [] {
      assert events + more == events;
    } else {
      var n := |more| - 1;
      FaultIsFinal(p, events, more[..n]);
      assert (events + more)[..|events + more| - 1] == events + more[..n];
      hide Heard, Young, Decode, Acceptable;
    }
  }

  // ----- exactly when a session goes on

  /** The clock has not run back and the policy's deadlines are met. */
  predicate OnTime(p: Policy, s: State, log: seq<Reception>, now: int) {
    Positive(now) && now >= s.lastNow && Punctual(p, log, now)
  }

  lemma DeadlineIsExact(p: Policy, s: State, log: seq<Reception>, now: int)
    requires Kept(s.last) && !s.faulted && Tracks(s, log)
    ensures CheckDeadline(p, s, now).1 == !CheckDeadline(p, s, now).0.faulted == OnTime(p, s, log, now)
    ensures OnTime(p, s, log, now) ==> CheckDeadline(p, s, now).0 == s.(lastNow := now)
  {}

  /** A poll of a healthy session passes exactly when it is on time. */
  lemma PollIsExact(p: Policy, events: seq<Event>, now: int)
    requires p.Sized() && !Run(p, events).0.faulted
    ensures var (s, log) := Run(p, events);
      var (t, after) := Run(p, events + [Poll(now)]);
      after == log && (!t.faulted <==> OnTime(p, s, log, now))
  {
    ReceptionsAreSound(p, events);
    var (s, log) := Run(p, events);
    DeadlineIsExact(p, s, log, now);
    hide CheckDeadline, OnTime, Sound, Ordered, Tracks;
    assert (events + [Poll(now)])[..|events|] == events;
  }

  /** A packet is accepted by a healthy session exactly when the delivery is on time, the policy
      admits the packet, and it is newer than the last; otherwise the session faults. */
  lemma DeliveryIsExact(p: Policy, events: seq<Event>, q: Packet, now: int)
    requires p.Sized() && !Run(p, events).0.faulted && q.Valid()
    ensures var (s, log) := Run(p, events);
      var r := Reception(q, now, |events|);
      var (t, after) := Run(p, events + [Deliver(Serialize(q), now)]);
      if OnTime(p, s, log, now) && Admitted(p, r) && (log != [] ==> Fresher(log[|log| - 1].packet, q))
      then !t.faulted && after == log + [r] && t.lastNow == now
      else t.faulted && after == log
  {
    hide CheckDeadline, OnTime, Sound, Ordered, Tracks, Decode, Serialize, Acceptable, Admitted, Fresher, Packet.Valid;
    ReceptionsAreSound(p, events);
    DecodeOfSerialize(q);
    var (s, log) := Run(p, events);
    DeadlineIsExact(p, s, log, now);
    AcceptableIsExact(p, s, log, q, now, |events|);
    assert (events + [Deliver(Serialize(q), now)])[..|events|] == events;
  }

  lemma AcceptableIsExact(p: Policy, s: State, log: seq<Reception>, q: Packet, now: int, at: nat)
    requires p.Sized() && Kept(s.last) && Tracks(s, log) && q.Valid()
    ensures Acceptable(p, s.last, q, now)
       <==> Admitted(p, Reception(q, now, at)) && (log != [] ==> Fresher(log[|log| - 1].packet, q))
  {
    assert forall i :: 0 <= i < 8 ==> |q.motors[i].payload| == 8;
    hide MotorOk, MotorFeedback.Skewed, Ours, WireMotor.Valid;
    assert MotorsOk(p, s.last, q, now, 8)
      <==> (forall i :: 0 <= i < 8 ==> MotorOk(p, q.motors[i], i, now)) && (forall i :: 0 <= i < 8 ==> Moved(s.last, q, i));
  }

  // ----- what an accepted packet is

  /** Motor i of a packet, in plain terms: the listed identifier and slave, a listed status in the high
      half of the first byte, no saturated field, and a receive time since the start and not too old. */
  predicate Trustworthy(p: Policy, m: WireMotor, i: nat, now: int)
    requires p.Sized() && i < 8 && |m.payload| == 8
  {
    && m.responseId == p.responseIds[i] && m.payload[0] % 0x10 == p.slaveIds[i]
    && (m.payload[0] as nat) / 0x10 in p.allowedStatuses[i] && !Saturated(m.payload)
    && p.startedNs <= m.stampNs && now - m.stampNs <= p.maxAgeNs
  }

  /** No two receive times of the packet differ by more than the skew. */
  predicate Together(q: Packet, skew: nat)
    requires |q.motors| == 8
  {
    forall i, j :: 0 <= i < 8 && 0 <= j < 8 ==> q.motors[i].stampNs - q.motors[j].stampNs <= skew
  }

  /** The policy admits a valid packet exactly when it comes from this side, session and configuration,
      was assembled since the start and not in the future, every motor is trustworthy, and the receive
      times lie together. */
  lemma AdmittedExactly(p: Policy, q: Packet, now: int, at: nat)
    requires p.Sized() && q.Valid()
    ensures Admitted(p, Reception(q, now, at)) <==>
      && q.side == p.side && q.session == p.session && q.digest == p.digest
      && p.startedNs <= q.assembledNs <= now
      && (forall i :: 0 <= i < 8 ==> |q.motors[i].payload| == 8 && Trustworthy(p, q.motors[i], i, now))
      && Together(q, p.maxSkewNs)
  {
    forall i | 0 <= i < 8 ensures |q.motors[i].payload| == 8 && (MotorOk(p, q.motors[i], i, now) <==> Trustworthy(p, q.motors[i], i, now)) {
      MotorOkExactly(p, q.motors[i], i, now);
    }
    hide MotorOk, Trustworthy, WireMotor.Valid;
    TogetherExactly(q, p.maxSkewNs);
    hide Together, MotorFeedback.Skewed;
  }

  lemma MotorOkExactly(p: Policy, m: WireMotor, i: nat, now: int)
    requires p.Sized() && i < 8 && m.Valid()
    ensures MotorOk(p, m, i, now) <==> Trustworthy(p, m, i, now)
  {
    EndpointIsSaturated(m.payload);
    hide Saturated, MotorFeedback.AtEndpoint;
  }

  lemma TogetherExactly(q: Packet, skew: nat)
    requires |q.motors| == 8
    ensures Together(q, skew) <==> !MotorFeedback.Skewed(StampsIn(q), skew)
  {
    var s := StampsIn(q);
    if MotorFeedback.Skewed(s, skew) {
      var i, j :| 0 <= i < 8 && 0 <= j < 8 && s[i] > s[j] + skew;
      assert q.motors[i].stampNs - q.motors[j].stampNs > skew;
    }
    if !Together(q, skew) {
      var i, j :| 0 <= i < 8 && 0 <= j < 8 && q.motors[i].stampNs - q.motors[j].stampNs > skew;
      assert s[i] > s[j] + skew;
    }
  }

  /** Whatever is delivered, every packet a session ever accepts is such a packet. */
  lemma AcceptedAreTrustworthy(p: Policy, events: seq<Event>, k: nat)
    requires p.Sized() && k < |Run(p, events).1|
    ensures var r := Run(p, events).1[k];
      && |r.packet.motors| == 8 && r.packet.side == p.side && r.packet.session == p.session && r.packet.digest == p.digest
      && p.startedNs <= r.packet.assembledNs <= r.now
      && (forall i :: 0 <= i < 8 ==> |r.packet.motors[i].payload| == 8 && Trustworthy(p, r.packet.motors[i], i, r.now))
      && Together(r.packet, p.maxSkewNs)
  {
    hide Run, Trustworthy, Together, Packet.Valid, Ordered, Tracks, Punctual;
    ReceptionsAreSound(p, events);
    var r := Run(p, events).1[k];
    assert Admitted(p, r);
    AdmittedExactly(p, r.packet, r.now, r.at);
    EightMotors(r.packet);
  }

  lemma EightMotors(q: Packet)
    requires q.Valid()
    ensures |q.motors| == 8
  {}

  /** A poll of a healthy session passes exactly if its clock is a positive 64-bit number that has not run
      back, something was heard within the startup or the silence limit, and no motor of the last packet
      is older than the age limit. */
  lemma PollPassesExactly(p: Policy, events: seq<Event>, now: int)
    requires p.Sized() && !Run(p, events).0.faulted
    ensures var (s, log) := Run(p, events);
      !Run(p, events + [Poll(now)]).0.faulted <==>
        && 0 < now < 0x1_0000_0000_0000_0000 && now >= s.lastNow
        && if log == [] then now - p.startedNs <= p.startupNs
           else
             var r := log[|log| - 1];
             0 <= now - r.now <= p.silenceNs && |r.packet.motors| == 8
             && forall i :: 0 <= i < 8 ==> now - r.packet.motors[i].stampNs <= p.maxAgeNs
  {
    hide Run;
    PollIsExact(p, events, now);
  }

  /** Under a valid policy the motors of an accepted packet have eight different slaves. */
  lemma SlavesDiffer(p: Policy, events: seq<Event>, k: nat, i: nat, j: nat)
    requires p.Valid() && k < |Run(p, events).1| && i < j < 8
    ensures var q := Run(p, events).1[k].packet;
      && |q.motors| == 8 && |q.motors[i].payload| == |q.motors[j].payload| == 8
      && 0 < q.motors[i].payload[0] % 0x10 != q.motors[j].payload[0] % 0x10 && q.motors[i].responseId != q.motors[j].responseId
  {
    hide Run, Saturated, Together;
    AcceptedAreTrustworthy(p, events, k);
  }
}
