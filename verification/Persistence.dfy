/** Persistence timers: a fault is raised when a condition has held without interruption
    for long enough. The online timer remembers one start time; the declarative statement
    speaks about blocks of the whole trace. */
module Persistence {
  import opened Common

  /** One observation: when, and whether the condition is violated. */
  datatype Reading = Reading(now: nat, bad: bool)

  /** The timer after one more observation. */
  function Tick(since: Option<nat>, r: Reading): Option<nat> {
    if !r.bad then None else if since.Some? then since else Some(r.now)
  }

  predicate Expired(since: Option<nat>, now: nat, timeout: nat) {
    since.Some? && now >= since.value + timeout
  }

  function Timer(trace: seq<Reading>): Option<nat> {
    if trace == [] then None else Tick(Timer(trace[..|trace| - 1]), trace[|trace| - 1])
  }

  ghost predicate Increasing(trace: seq<Reading>) {
    forall i, j :: 0 <= i < j < |trace| ==> trace[i].now < trace[j].now
  }

  /** Observations j to k are all violations. */
  ghost predicate Block(trace: seq<Reading>, j: nat, k: nat) {
    j <= k < |trace| && forall m :: j <= m <= k ==> trace[m].bad
  }

  /** At observation k some unbroken block of violations spans at least the timeout. */
  ghost predicate Persisted(trace: seq<Reading>, k: nat, timeout: nat) {
    exists j: nat :: Block(trace, j, k) && trace[k].now >= trace[j].now + timeout
  }

  /** The timer holds the start of the longest block that ends now. */
  lemma {:induction false} TimerIsBlockStart(trace: seq<Reading>) returns (j: nat)
    requires Increasing(trace)
    ensures Timer(trace).Some? <==> trace != [] && trace[|trace| - 1].bad
    ensures Timer(trace).Some? ==>
      Block(trace, j, |trace| - 1) && Timer(trace).value == trace[j].now && (j == 0 || !trace[j - 1].bad)
  {
    j := 0;
    if trace != [] {
      var n := |trace| - 1;
      j := TimerIsBlockStart(trace[..n]);
      if trace[n].bad && Timer(trace[..n]).None? { j := n; }
    }
  }

  /** The timer expires at an observation exactly when a block that long ends there. */
  lemma ExpiredIffPersisted(trace: seq<Reading>, k: nat, timeout: nat)
    requires Increasing(trace) && k < |trace|
    ensures Expired(Timer(trace[..k + 1]), trace[k].now, timeout) <==> Persisted(trace, k, timeout)
  {
    var front := trace[..k + 1];
    var j := TimerIsBlockStart(front);
    if Expired(Timer(front), trace[k].now, timeout) {
      assert Block(trace, j, k);
    }
    if Persisted(trace, k, timeout) {
      var i: nat :| Block(trace, i, k) && trace[k].now >= trace[i].now + timeout;
      assert front[k].bad;
      assert j == 0 || front[j - 1] == trace[j - 1];
      assert i >= j;
    }
  }

  /** A longer trace does not change what happened before. */
  lemma PersistedPrefix(a: seq<Reading>, b: seq<Reading>, k: nat, timeout: nat)
    requires k < |b| <= |a| && a[..|b|] == b
    ensures Persisted(a, k, timeout) <==> Persisted(b, k, timeout)
  {
    assert forall m :: 0 <= m < |b| ==> a[m] == b[m];
    if Persisted(a, k, timeout) {
      var j: nat :| Block(a, j, k) && a[k].now >= a[j].now + timeout;
      assert Block(b, j, k);
    }
    if Persisted(b, k, timeout) {
      var j: nat :| Block(b, j, k) && b[k].now >= b[j].now + timeout;
      assert Block(a, j, k);
    }
  }
}
