/** The passive feedback log: bounded storage that either fills up or keeps the latest
    records in a ring, a per-motor watchdog, and one latched fault. The unbounded history
    of accepted records is its specification. */
module LogBuffer {
  import opened Common

  datatype Record = Record(
    receiveMonotonicNs: nat, receiveRealtimeNs: nat, kernelRealtimeNs: nat,
    canId: nat, canFd: bool, payload: seq<nat>, overflowCount: nat)

  datatype Fault = BadStart | NotStarted | UnexpectedId | Dropped | KernelStamp | Regressed | RealtimeRegressed
                 | Discontinuity | CapacityExhausted | EvictionExhausted | BadWatchdogTime | StaleMotor(index: nat)

  // ----- rings as sequences

  /** A ring read from its oldest slot on. */
  function Rotation<T>(ring: seq<T>, oldest: nat): seq<T>
    requires oldest <= |ring|
  {
    ring[oldest..] + ring[..oldest]
  }

  lemma WrapIndex(oldest: nat, k: nat, n: nat)
    requires oldest < n && k < n
    ensures (oldest + k) % n == if oldest + k < n then oldest + k else oldest + k - n
  {
    if oldest + k >= n { assert (oldest + k - n) + n == oldest + k; ModuloPastEnd(oldest + k - n, n); }
  }

  lemma ModuloPastEnd(r: nat, n: nat)
    requires r < n
    ensures (r + n) % n == r
  {}

  /** Modular indexing from the oldest slot reads the rotation in order. */
  lemma RotationAt<T>(ring: seq<T>, oldest: nat, k: nat)
    requires oldest < |ring| && k < |ring|
    ensures ring[(oldest + k) % |ring|] == Rotation(ring, oldest)[k]
  {
    WrapIndex(oldest, k, |ring|);
  }

  /** Overwriting the oldest slot and stepping past it drops the first element of the
      rotation and appends the new one. */
  lemma OverwriteOldest<T>(ring: seq<T>, oldest: nat, r: T)
    requires oldest < |ring|
    ensures (oldest + 1) % |ring| < |ring|
    ensures Rotation(ring[oldest := r], (oldest + 1) % |ring|) == Rotation(ring, oldest)[1..] + [r]
  {
    var n := |ring|;
    if n == 1 {
      assert (oldest + 1) % 1 == 0;
    } else {
      WrapIndex(oldest, 1, n);
    }
  }

  // ----- histories

  /** The last min(n, capacity) of n records. */
  function Retained(history: seq<Record>, capacity: nat): seq<Record> {
    if |history| <= capacity then history else history[|history| - capacity..]
  }

  lemma RetainedGrows(history: seq<Record>, capacity: nat, r: Record)
    requires capacity > 0
    ensures Retained(history + [r], capacity) ==
      if |history| < capacity then history + [r] else Retained(history, capacity)[1..] + [r]
  {}

  lemma RetainedSize(history: seq<Record>, capacity: nat, records: seq<Record>, oldest: nat)
    requires capacity > 0 && oldest <= |records| && Rotation(records, oldest) == Retained(history, capacity)
    ensures |records| == (if |history| <= capacity then |history| else capacity)
  {
    assert |Rotation(records, oldest)| == |records|;
  }

  /** The one store step of the log, on the ring and on the history at once. */
  lemma RetainedStep(history: seq<Record>, capacity: nat, records: seq<Record>, oldest: nat, r: Record)
    requires capacity > 0 && |records| <= capacity && oldest < capacity && (|records| < capacity ==> oldest == 0)
    requires Rotation(records, if records == [] then 0 else oldest) == Retained(history, capacity)
    ensures |records| < capacity ==> Rotation(records + [r], 0) == Retained(history + [r], capacity)
    ensures |records| == capacity ==>
      (oldest + 1) % capacity < capacity
      && Rotation(records[oldest := r], (oldest + 1) % capacity) == Retained(history + [r], capacity)
  {
    RetainedSize(history, capacity, records, if records == [] then 0 else oldest);
    RetainedGrows(history, capacity, r);
    if |records| < capacity {
      assert Rotation(records, 0) == records;
    } else {
      OverwriteOldest(records, oldest, r);
    }
  }

  /** When motor `id` was last heard, or zero. */
  function LastHeard(history: seq<Record>, id: nat): nat {
    if history == [] then 0
    else if history[|history| - 1].canId == id then history[|history| - 1].receiveMonotonicNs
    else LastHeard(history[..|history| - 1], id)
  }

  function Difference(a: nat, b: nat): nat { if a > b then a - b else b - a }

  /** Record b may directly follow record a. */
  predicate Follows(a: Record, b: Record, timeoutNs: nat) {
    && a.receiveMonotonicNs < b.receiveMonotonicNs
    && a.kernelRealtimeNs <= b.kernelRealtimeNs && a.receiveRealtimeNs <= b.receiveRealtimeNs
    && Difference(b.receiveRealtimeNs - a.receiveRealtimeNs, b.receiveMonotonicNs - a.receiveMonotonicNs) <= timeoutNs
  }

  predicate StampsOk(r: Record, timeoutNs: nat) {
    0 < r.kernelRealtimeNs <= r.receiveRealtimeNs && r.receiveRealtimeNs - r.kernelRealtimeNs <= timeoutNs
  }

  /** What a record must be on its own. */
  predicate Fits(r: Record, ids: seq<nat>, timeoutNs: nat, startedNs: nat) {
    r.canId in ids && r.overflowCount == 0 && StampsOk(r, timeoutNs) && r.receiveMonotonicNs >= startedNs
  }

  /** Every record is from a listed motor, well stamped, and follows the one before. */
  ghost predicate Consistent(history: seq<Record>, ids: seq<nat>, timeoutNs: nat, startedNs: nat) {
    && (forall k :: 0 <= k < |history| ==> Fits(history[k], ids, timeoutNs, startedNs))
    && (forall k :: 0 < k < |history| ==> Follows(history[k - 1], history[k], timeoutNs))
  }

  /** Monotonic times of a consistent history strictly increase throughout. */
  lemma {:induction false} ConsistentIncreases(history: seq<Record>, ids: seq<nat>, timeoutNs: nat, startedNs: nat, i: nat, j: nat)
    requires Consistent(history, ids, timeoutNs, startedNs) && i < j < |history|
    ensures history[i].receiveMonotonicNs < history[j].receiveMonotonicNs
  {
    if i < j - 1 { ConsistentIncreases(history, ids, timeoutNs, startedNs, i, j - 1); }
    assert Follows(history[j - 1], history[j], timeoutNs);
  }

  lemma {:induction false} LastHeardBounds(history: seq<Record>, ids: seq<nat>, timeoutNs: nat, startedNs: nat, id: nat)
    requires Consistent(history, ids, timeoutNs, startedNs)
    ensures LastHeard(history, id) == 0 || (history != [] && startedNs <= LastHeard(history, id) <= history[|history| - 1].receiveMonotonicNs)
  {
    if history != [] && history[|history| - 1].canId != id {
      LastHeardBounds(history[..|history| - 1], ids, timeoutNs, startedNs, id);
      if |history| >= 2 { ConsistentIncreases(history, ids, timeoutNs, startedNs, |history| - 2, |history| - 1); }
    }
  }

  ghost predicate Heard(last: seq<nat>, history: seq<Record>, ids: seq<nat>) {
    |last| == |ids| && forall i :: 0 <= i < |ids| ==> last[i] == LastHeard(history, ids[i])
  }

  lemma HistoryGrows(history: seq<Record>, ids: seq<nat>, timeoutNs: nat, startedNs: nat, last: seq<nat>, found: nat, r: Record)
    requires Consistent(history, ids, timeoutNs, startedNs) && Heard(last, history, ids) && Distinct(ids)
    requires found < |ids| && ids[found] == r.canId && Fits(r, ids, timeoutNs, startedNs)
    requires history != [] ==> Follows(history[|history| - 1], r, timeoutNs)
    ensures Consistent(history + [r], ids, timeoutNs, startedNs)
    ensures Heard(last[found := r.receiveMonotonicNs], history + [r], ids)
  {
    hide Fits, Follows;
    assert (history + [r])[..|history|] == history;
  }

  class FeedbackLogBuffer {
    const ids: seq<nat>
    const capacity: nat
    const timeoutNs: nat
    const retainLatest: bool
    var last: seq<nat>
    var records: seq<Record>
    var startedNs: nat
    var lastCheckNs: nat
    var fault: Option<Fault>
    var oldest: nat
    var evicted: nat
    /** Every record ever accepted. */
    ghost var history: seq<Record>

    ghost predicate Valid()
      reads this
    {
      && |ids| == 8 && |last| == 8 && Distinct(ids) && 8 <= capacity && timeoutNs > 0
      && |records| <= capacity && oldest < capacity && (|records| < capacity ==> oldest == 0)
      && Rotation(records, if records == [] then 0 else oldest) == Retained(history, capacity)
      && evicted == |history| - |records| && evicted <= MAX_UINT64 && (!retainLatest ==> evicted == 0)
      && (history != [] ==> startedNs > 0) && startedNs <= lastCheckNs
      && Consistent(history, ids, timeoutNs, startedNs)
      && (fault == None ==> Heard(last, history, ids))
    }

    constructor (ids: seq<nat>, capacity: nat, timeoutNs: nat, retainLatest: bool)
      requires |ids| == 8 && Distinct(ids) && (forall i :: 0 <= i < 8 ==> 0 < ids[i] <= 0x7FF)
      requires 8 <= capacity <= 2_000_000 && timeoutNs > 0
      ensures Valid() && history == [] && fault == None && startedNs == 0
      ensures this.ids == ids && this.capacity == capacity && this.timeoutNs == timeoutNs && this.retainLatest == retainLatest
    {
      this.ids, this.capacity, this.timeoutNs, this.retainLatest := ids, capacity, timeoutNs, retainLatest;
      last, records, history := [0, 0, 0, 0, 0, 0, 0, 0], [], [];
      startedNs, lastCheckNs, fault, oldest, evicted := 0, 0, None, 0, 0;
    }

    /** The record at position `index` in order of arrival, among those retained. */
    method Chronological(index: nat) returns (r: Option<Record>)
      requires Valid()
      ensures r == if index < |Retained(history, capacity)| then Some(Retained(history, capacity)[index]) else None
    {
      if index >= |records| { return None; }
      RotationAt(records, oldest, index);
      return Some(records[(oldest + index) % |records|]);
    }

    method Latest() returns (r: Record)
      requires Valid() && records != []
      ensures history != [] && r == history[|history| - 1]
    {
      var found := Chronological(|records| - 1);
      return found.value;
    }

    method Start(nowNs: nat) returns (ok: bool)
      requires Valid() && fault == None
      modifies this
      ensures Valid() && history == old(history) && records == old(records)
      ensures ok <==> old(startedNs) == 0 && nowNs > 0
      ensures if ok then startedNs == lastCheckNs == nowNs && fault == None else fault == Some(BadStart) && startedNs == old(startedNs)
    {
      if startedNs != 0 || nowNs == 0 { fault := Some(BadStart); return false; }
      startedNs, lastCheckNs := nowNs, nowNs;
      return true;
    }

    /** The next record is from a listed motor, well stamped, and follows the last one. */
    ghost predicate Welcome(r: Record)
      reads this
    {
      startedNs > 0 && Fits(r, ids, timeoutNs, startedNs) && (history != [] ==> Follows(history[|history| - 1], r, timeoutNs))
    }

    /** What a healthy buffer demands of the next record. */
    ghost predicate Acceptable(r: Record)
      reads this
    {
      Welcome(r) && (|history| >= capacity ==> retainLatest && evicted < MAX_UINT64)
    }

    /** Accepts the record into the history, or latches a fault and keeps what it had. */
    method Ingest(r: Record) returns (ok: bool)
      requires Valid() && fault == None
      modifies this
      ensures Valid() && startedNs == old(startedNs) && lastCheckNs == old(lastCheckNs)
      ensures ok <==> old(Acceptable(r))
      ensures ok ==> fault == None && history == old(history) + [r]
      ensures !ok ==> fault.Some? && history == old(history) && records == old(records)
    {
      hide Consistent, Heard, Fits, Follows, Distinct, Retained, Rotation, LastHeard;
      var refusal, found := Refusal(r);
      if refusal.Some? { fault := refusal; return false; }
      RetainedSize(history, capacity, records, if records == [] then 0 else oldest);
      if |records| >= capacity && !retainLatest { fault := Some(CapacityExhausted); return false; }
      HistoryGrows(history, ids, timeoutNs, startedNs, last, found, r);
      RetainedStep(history, capacity, records, oldest, r);
      last := last[found := r.receiveMonotonicNs];
      if |records| < capacity {
        records := records + [r];
      } else {
        if evicted == MAX_UINT64 { fault := Some(EvictionExhausted); return false; }
        records := records[oldest := r];
        oldest := (oldest + 1) % capacity;
        evicted := evicted + 1;
      }
      history := history + [r];
      return true;
    }

    /** The first reason to refuse the record, if any, and the motor it comes from. */
    method Refusal(r: Record) returns (refusal: Option<Fault>, found: nat)
      requires Valid() && fault == None
      ensures refusal == None <==> Welcome(r)
      ensures refusal == None ==> found < 8 && ids[found] == r.canId
    {
      hide Consistent, Heard, Distinct, Retained, Rotation, LastHeard;
      found := 8;
      if startedNs == 0 { return Some(NotStarted), found; }
      found := FindId(r.canId);
      if found == 8 { return Some(UnexpectedId), found; }
      if r.overflowCount != 0 { return Some(Dropped), found; }
      if r.kernelRealtimeNs == 0 || r.kernelRealtimeNs > r.receiveRealtimeNs || r.receiveRealtimeNs - r.kernelRealtimeNs > timeoutNs {
        return Some(KernelStamp), found;
      }
      if r.receiveMonotonicNs < startedNs { return Some(Regressed), found; }
      RetainedSize(history, capacity, records, if records == [] then 0 else oldest);
      if records != [] {
        var prior := Latest();
        if r.receiveMonotonicNs <= prior.receiveMonotonicNs { return Some(Regressed), found; }
        if r.kernelRealtimeNs < prior.kernelRealtimeNs || r.receiveRealtimeNs < prior.receiveRealtimeNs {
          return Some(RealtimeRegressed), found;
        }
        // Unsigned subtractions: both are checked not to wrap.
        var realDelta: nat := r.receiveRealtimeNs - prior.receiveRealtimeNs;
        var monoDelta: nat := r.receiveMonotonicNs - prior.receiveMonotonicNs;
        if (if realDelta > monoDelta then realDelta - monoDelta else monoDelta - realDelta) > timeoutNs {
          return Some(Discontinuity), found;
        }
      }
      return None, found;
    }

    method FindId(id: nat) returns (found: nat)
      requires |ids| == 8
      ensures found <= 8 && (found == 8 <==> id !in ids) && (found < 8 ==> ids[found] == id)
    {
      found := 0;
      while found < 8
        invariant found <= 8 && forall i :: 0 <= i < found ==> ids[i] != id
      {
        if ids[found] == id { return; }
        found := found + 1;
      }
    }

    /** Some motor has been silent for longer than the timeout. */
    ghost predicate Silent(i: nat, nowNs: nat)
      requires i < |ids|
      reads this
    {
      var heard := LastHeard(history, ids[i]);
      nowNs > (if heard == 0 then startedNs else heard) + timeoutNs
    }

    method Check(nowNs: nat) returns (ok: bool)
      requires Valid() && fault == None
      modifies `fault, `lastCheckNs
      ensures Valid() && lastCheckNs >= old(lastCheckNs)
      ensures ok <==> startedNs > 0 && nowNs >= old(lastCheckNs)
                      && (history != [] ==> nowNs >= history[|history| - 1].receiveMonotonicNs)
                      && forall i :: 0 <= i < 8 ==> !Silent(i, nowNs)
      ensures if ok then fault == None && lastCheckNs == nowNs else fault.Some?
    {
      hide Consistent, Distinct, Retained, Rotation, LastHeard;
      RetainedSize(history, capacity, records, if records == [] then 0 else oldest);
      if startedNs == 0 || nowNs < lastCheckNs { fault := Some(BadWatchdogTime); return false; }
      if records != [] {
        var prior := Latest();
        if nowNs < prior.receiveMonotonicNs { fault := Some(BadWatchdogTime); return false; }
      }
      lastCheckNs := nowNs;
      for i := 0 to 8
        invariant Valid() && fault == None && lastCheckNs == nowNs
        invariant forall j :: 0 <= j < i ==> !Silent(j, nowNs)
      {
        LastHeardBounds(history, ids, timeoutNs, startedNs, ids[i]);
        assert last[i] == LastHeard(history, ids[i]);
        var heard := if last[i] == 0 then startedNs else last[i];
        var silence: nat := nowNs - heard;
        assert Silent(i, nowNs) <==> silence > timeoutNs;
        if silence > timeoutNs {
          fault := Some(StaleMotor(i));
          assert Silent(i, nowNs);
          return false;
        }
      }
      return true;
    }
  }

  ghost predicate Distinct(ids: seq<nat>) {
    forall i, j :: 0 <= i < j < |ids| ==> ids[i] != ids[j]
  }

  /** A history that only ever grew by acceptable records is consistent: what the ring
      shows is the strictly increasing tail of it. */
  lemma RetainedIncreases(history: seq<Record>, capacity: nat, ids: seq<nat>, timeoutNs: nat, startedNs: nat)
    requires Consistent(history, ids, timeoutNs, startedNs)
    ensures var t := Retained(history, capacity);
      && |t| == (if |history| <= capacity then |history| else capacity)
      && forall i, j :: 0 <= i < j < |t| ==> t[i].receiveMonotonicNs < t[j].receiveMonotonicNs
  {
    var t, skip := Retained(history, capacity), |history| - |Retained(history, capacity)|;
    forall i, j | 0 <= i < j < |t| ensures t[i].receiveMonotonicNs < t[j].receiveMonotonicNs {
      ConsistentIncreases(history, ids, timeoutNs, startedNs, i + skip, j + skip);
    }
  }

  /** What a capture holds, in plain terms: every record from a listed motor, nothing dropped before it, its
      kernel stamp at most the timeout before its reception; and from each record to the next the monotonic
      time advances, neither other clock runs back, and real and monotonic time advance alike within the timeout. */
  lemma ConsistentExactly(history: seq<Record>, ids: seq<nat>, timeoutNs: nat, startedNs: nat)
    ensures Consistent(history, ids, timeoutNs, startedNs) <==>
      && (forall k :: 0 <= k < |history| ==>
            && history[k].canId in ids && history[k].overflowCount == 0 && history[k].kernelRealtimeNs > 0
            && 0 <= history[k].receiveRealtimeNs - history[k].kernelRealtimeNs <= timeoutNs
            && startedNs <= history[k].receiveMonotonicNs)
      && (forall k :: 0 < k < |history| ==>
            && history[k - 1].receiveMonotonicNs < history[k].receiveMonotonicNs
            && history[k - 1].kernelRealtimeNs <= history[k].kernelRealtimeNs
            && history[k - 1].receiveRealtimeNs <= history[k].receiveRealtimeNs
            && Lead(history[k]) - Lead(history[k - 1]) <= timeoutNs && Lead(history[k - 1]) - Lead(history[k]) <= timeoutNs)
  {}

  /** How far the real clock is ahead of the monotonic one. */
  function Lead(r: Record): int { r.receiveRealtimeNs - r.receiveMonotonicNs }

  /** A capture that has started takes a further record exactly if that keeps it consistent. */
  lemma WelcomeExactly(b: FeedbackLogBuffer, r: Record)
    requires b.Valid() && b.startedNs > 0
    ensures b.Welcome(r) <==> Consistent(b.history + [r], b.ids, b.timeoutNs, b.startedNs)
  {
    hide Fits, Follows, Rotation, Retained, Heard;
    var h, n := b.history, |b.history|;
    var grown := h + [r];
    assert grown[n] == r && (n > 0 ==> grown[n - 1] == h[n - 1]);
    assert forall k :: 0 <= k < n ==> grown[k] == h[k];
  }
}
