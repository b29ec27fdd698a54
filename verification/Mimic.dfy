/** Mimic joints: resolving chains of dependent coordinates with memoisation. */
module Mimic {
  import opened Common

  datatype Kind = Fixed | Revolute | Prismatic

  /** The coordinate follows that of another joint: scale * source + offset. */
  datatype Follow = Follow(target: string, scale: real, offset: real)

  datatype Joint = Joint(kind: Kind, mimic: Option<Follow>)

  type Joints = map<string, Joint>

  /** The joints whose positions are given. */
  predicate Independent(t: Joints, x: string) { x in t && !t[x].kind.Fixed? && t[x].mimic == None }

  // ----- chains

  /** The joint follows a joint of the same kind in the table. */
  predicate Linked(t: Joints, x: string) {
    x in t && t[x].mimic.Some? && t[x].mimic.value.target in t && t[t[x].mimic.value.target].kind == t[x].kind
  }

  function Target(t: Joints, x: string): string
    requires Linked(t, x)
  {
    t[x].mimic.value.target
  }

  /** The joint follows a joint that is missing or of another kind. */
  predicate Dangling(t: Joints, x: string) { x in t && t[x].mimic.Some? && !Linked(t, x) }

  /** y is reached from x in k steps. */
  predicate Reaches(t: Joints, x: string, y: string, k: nat)
    decreases k
  {
    if k == 0 then x in t && x == y else Linked(t, x) && Reaches(t, Target(t, x), y, k - 1)
  }

  /** The chain of x ends after n steps at a joint that follows none. */
  predicate Ends(t: Joints, x: string, n: nat)
    decreases n
  {
    x in t && if t[x].mimic == None then n == 0 else n > 0 && Linked(t, x) && Ends(t, Target(t, x), n - 1)
  }

  ghost predicate Resolvable(t: Joints, x: string) { exists n: nat :: Ends(t, x, n) }

  lemma {:induction false} EndsOnce(t: Joints, x: string, m: nat, n: nat)
    requires Ends(t, x, m) && Ends(t, x, n)
    ensures m == n
    decreases m
  {
    if m > 0 { EndsOnce(t, Target(t, x), m - 1, n - 1); }
  }

  lemma {:induction false} ReachedEnds(t: Joints, x: string, y: string, k: nat, n: nat)
    requires Reaches(t, x, y, k) && Ends(t, x, n)
    ensures k <= n && Ends(t, y, n - k)
    decreases k
  {
    if k > 0 { ReachedEnds(t, Target(t, x), y, k - 1, n - 1); }
  }

  lemma {:induction false} ReachesOn(t: Joints, x: string, y: string, z: string, k: nat, m: nat)
    requires Reaches(t, x, y, k) && Reaches(t, y, z, m)
    ensures Reaches(t, x, z, k + m)
    decreases k
  {
    if k > 0 { ReachesOn(t, Target(t, x), y, z, k - 1, m); }
  }

  /** A joint on a cycle has no end. */
  lemma CycleNeverEnds(t: Joints, x: string, k: nat)
    requires k > 0 && Reaches(t, x, x, k)
    ensures !Resolvable(t, x)
  {
    if n: nat :| Ends(t, x, n) {
      ReachedEnds(t, x, x, k, n);
      EndsOnce(t, x, n, n - k);
    }
  }

  lemma ResolvableStep(t: Joints, x: string)
    requires x in t
    ensures t[x].mimic == None ==> Resolvable(t, x)
    ensures t[x].mimic.Some? ==> (Resolvable(t, x) <==> Linked(t, x) && Resolvable(t, Target(t, x)))
  {
    if t[x].mimic == None {
      assert Ends(t, x, 0);
    } else {
      if n: nat :| Ends(t, x, n) { assert Ends(t, Target(t, x), n - 1); }
      if Linked(t, x) {
        if m: nat :| Ends(t, Target(t, x), m) { assert Ends(t, x, m + 1); }
      }
    }
  }

  // ----- which chains are refused

  ghost predicate MeetsDangling(t: Joints, x: string) { exists k: nat, y :: Reaches(t, x, y, k) && Dangling(t, y) }

  ghost predicate MeetsCycle(t: Joints, x: string) {
    exists k: nat, y, m: nat :: m > 0 && Reaches(t, x, y, k) && Reaches(t, y, y, m)
  }

  /** The first n + 1 joints of a chain that neither ends nor dangles before. */
  ghost function Chain(t: Joints, x: string, n: nat): seq<string>
    decreases n
  {
    if n == 0 || !Linked(t, x) then [x] else [x] + Chain(t, Target(t, x), n - 1)
  }

  /** Without an end or a dangling link the chain goes on. */
  lemma {:induction false} ChainGoesOn(t: Joints, x: string, n: nat)
    requires x in t && !Resolvable(t, x) && !MeetsDangling(t, x)
    ensures |Chain(t, x, n)| == n + 1 && forall y :: y in Chain(t, x, n) ==> y in t
    decreases n
  {
    if n > 0 {
      ResolvableStep(t, x);
      assert Reaches(t, x, x, 0);
      assert !Dangling(t, x);
      var y := Target(t, x);
      forall k: nat, z | Reaches(t, y, z, k) ensures !Dangling(t, z) {
        assert Reaches(t, x, z, k + 1);
      }
      ChainGoesOn(t, y, n - 1);
    }
  }

  lemma {:induction false} ChainReaches(t: Joints, x: string, n: nat, i: nat, j: nat)
    requires x in t && i <= j < |Chain(t, x, n)|
    ensures Reaches(t, Chain(t, x, n)[i], Chain(t, x, n)[j], j - i) && Reaches(t, x, Chain(t, x, n)[j], j)
    decreases n
  {
    if n > 0 && Linked(t, x) {
      if j > 0 {
        var rest := Chain(t, Target(t, x), n - 1);
        ChainReaches(t, Target(t, x), n - 1, if i > 0 then i - 1 else 0, j - 1);
        assert Chain(t, x, n)[j] == rest[j - 1] && (i > 0 ==> Chain(t, x, n)[i] == rest[i - 1]);
      }
    }
  }

  /** More names than the table has: one comes twice. */
  lemma {:induction false} Pigeonhole(s: seq<string>, names: set<string>) returns (i: nat, j: nat)
    requires |s| > |names| && forall x :: x in s ==> x in names
    ensures i < j < |s| && s[i] == s[j]
    decreases |s|
  {
    var last := |s| - 1;
    if s[last] in s[..last] {
      i :| 0 <= i < last && s[i] == s[last];
      j := last;
    } else {
      i, j := Pigeonhole(s[..last], names - {s[last]});
    }
  }

  /** A chain has no end exactly when it dangles or runs into a cycle. */
  lemma UnresolvableChains(t: Joints, x: string)
    requires x in t
    ensures !Resolvable(t, x) <==> MeetsDangling(t, x) || MeetsCycle(t, x)
  {
    if !Resolvable(t, x) && !MeetsDangling(t, x) {
      var n := |t.Keys|;
      ChainGoesOn(t, x, n);
      var i, j := Pigeonhole(Chain(t, x, n), t.Keys);
      ChainReaches(t, x, n, i, j);
      ChainReaches(t, x, n, i, i);
      assert MeetsCycle(t, x);
    }
    if n: nat :| Ends(t, x, n) {
      forall k: nat, y | Reaches(t, x, y, k) ensures !Dangling(t, y) {
        ReachedEnds(t, x, y, k, n);
      }
      forall k: nat, y, m: nat | m > 0 && Reaches(t, x, y, k) ensures !Reaches(t, y, y, m) {
        ReachedEnds(t, x, y, k, n);
        if Reaches(t, y, y, m) { CycleNeverEnds(t, y, m); }
      }
    }
  }

  // ----- values

  /** A coordinate as a function of the independent ones: rate * base + offset, or a constant. */
  datatype Law = Law(base: Option<string>, rate: real, offset: real)

  function LawOf(t: Joints, x: string, n: nat): Law
    requires Ends(t, x, n)
    decreases n
  {
    if t[x].mimic == None then
      if t[x].kind.Fixed? then Law(None, 0.0, 0.0) else Law(Some(x), 1.0, 0.0)
    else
      var m := t[x].mimic.value;
      var l := LawOf(t, m.target, n - 1);
      Law(l.base, m.scale * l.rate, m.scale * l.offset + m.offset)
  }

  type Positions = map<string, real>

  /** Exactly the independent joints have positions. */
  predicate Given(t: Joints, p: Positions) {
    (forall x :: x in p.Keys ==> Independent(t, x)) && forall x :: x in t.Keys && Independent(t, x) ==> x in p
  }

  predicate Usable(l: Law, p: Positions) { l.base.Some? ==> l.base.value in p }

  function Apply(l: Law, p: Positions): real
    requires Usable(l, p)
  {
    if l.base == None then l.offset else l.rate * p[l.base.value] + l.offset
  }

  /** What is stored for a joint: its value and its derivative by independent joint. */
  datatype Entry = Entry(value: real, rates: map<string, real>)

  function EntryOf(l: Law, p: Positions): Entry
    requires Usable(l, p)
  {
    Entry(Apply(l, p), if l.base == None then map[] else map[l.base.value := l.rate])
  }

  ghost predicate Means(t: Joints, p: Positions, x: string, e: Entry) {
    exists n: nat :: Ends(t, x, n) && Usable(LawOf(t, x, n), p) && e == EntryOf(LawOf(t, x, n), p)
  }

  /** The change of a coordinate between two positions, as its derivative predicts it. */
  function Predicted(rates: map<string, real>, p: Positions, q: Positions, base: Option<string>): real
    requires base.Some? ==> base.value in p && base.value in q && base.value in rates
  {
    if base == None then 0.0 else rates[base.value] * (q[base.value] - p[base.value])
  }

  /** Each coordinate is affine in at most one independent position, and the returned derivative is
      its exact slope: it predicts the change between any two positions. */
  lemma DerivativeIsExact(t: Joints, p: Positions, q: Positions, x: string, d: Entry, e: Entry)
    requires Given(t, p) && Given(t, q) && Means(t, p, x, d) && Means(t, q, x, e)
    ensures exists base: Option<string> ::
      && d.rates == e.rates && (base == None <==> d.rates == map[]) && (base.Some? ==> d.rates.Keys == {base.value})
      && (base.Some? ==> Independent(t, base.value))
      && e.value - d.value == Predicted(d.rates, p, q, base)
  {
    hide LawOf, Ends;
    var m: nat :| Ends(t, x, m) && Usable(LawOf(t, x, m), p) && d == EntryOf(LawOf(t, x, m), p);
    var n: nat :| Ends(t, x, n) && Usable(LawOf(t, x, n), q) && e == EntryOf(LawOf(t, x, n), q);
    EndsOnce(t, x, m, n);
    var l := LawOf(t, x, n);
    if l.base.Some? {
      assert l.base.value in d.rates;
      Slope(l.rate, p[l.base.value], q[l.base.value], l.offset);
    }
  }

  lemma Slope(r: real, x: real, y: real, o: real)
    ensures (r * y + o) - (r * x + o) == r * (y - x)
  {}

  // ----- the resolver

  /** Every joint being visited leads to x. */
  ghost predicate AllLead(t: Joints, visiting: set<string>, x: string) {
    forall v :: v in visiting ==> exists k: nat :: k > 0 && Reaches(t, v, x, k)
  }

  /** Everything stored is right. */
  ghost predicate Right(t: Joints, p: Positions, resolved: map<string, Entry>) {
    forall x :: x in resolved ==> Means(t, p, x, resolved[x])
  }

  lemma VisitedNeverEnds(t: Joints, visiting: set<string>, x: string)
    requires AllLead(t, visiting, x) && x in visiting
    ensures !Resolvable(t, x)
  {
    var k: nat :| k > 0 && Reaches(t, x, x, k);
    CycleNeverEnds(t, x, k);
  }

  lemma TargetIsLedTo(t: Joints, visiting: set<string>, x: string)
    requires AllLead(t, visiting, x) && Linked(t, x)
    ensures AllLead(t, visiting + {x}, Target(t, x))
  {
    assert Reaches(t, Target(t, x), Target(t, x), 0);
    assert Reaches(t, x, Target(t, x), 1);
    forall v | v in visiting ensures exists k: nat :: k > 0 && Reaches(t, v, Target(t, x), k) {
      var k: nat :| k > 0 && Reaches(t, v, x, k);
      ReachesOn(t, v, x, Target(t, x), k, 1);
    }
  }

  lemma StoredIsResolvable(t: Joints, p: Positions, x: string, e: Entry)
    requires Means(t, p, x, e)
    ensures Resolvable(t, x)
  {}

  /** The entry of a joint that follows none. */
  function Leaf(t: Joints, p: Positions, x: string): Entry
    requires x in t && (Independent(t, x) ==> x in p)
  {
    if t[x].kind.Fixed? || !Independent(t, x) then Entry(0.0, map[]) else Entry(p[x], map[x := 1.0])
  }

  lemma LeafIsRight(t: Joints, p: Positions, x: string)
    requires Given(t, p) && x in t && t[x].mimic == None
    ensures Means(t, p, x, Leaf(t, p, x))
  {
    assert Ends(t, x, 0);
    var l := LawOf(t, x, 0);
    assert Leaf(t, p, x) == EntryOf(l, p);
  }

  /** The entry of a follower. */
  function Followed(m: Follow, source: Entry): Entry {
    Entry(m.scale * source.value + m.offset, map k | k in source.rates :: m.scale * source.rates[k])
  }

  lemma FollowedIsRight(t: Joints, p: Positions, x: string, source: Entry)
    requires Linked(t, x) && Means(t, p, Target(t, x), source)
    ensures Means(t, p, x, Followed(t[x].mimic.value, source))
  {
    var m := t[x].mimic.value;
    var n: nat :| Ends(t, m.target, n) && Usable(LawOf(t, m.target, n), p) && source == EntryOf(LawOf(t, m.target, n), p);
    assert Ends(t, x, n + 1);
    var l, k := LawOf(t, m.target, n), LawOf(t, x, n + 1);
    assert k == Law(l.base, m.scale * l.rate, m.scale * l.offset + m.offset);
    hide LawOf, Ends;
    ScaledEntry(m, l, p);
    assert Followed(m, source) == EntryOf(k, p);
  }

  lemma ScaledEntry(m: Follow, l: Law, p: Positions)
    requires Usable(l, p)
    ensures Followed(m, EntryOf(l, p)) == EntryOf(Law(l.base, m.scale * l.rate, m.scale * l.offset + m.offset), p)
  {
    var k := Law(l.base, m.scale * l.rate, m.scale * l.offset + m.offset);
    if l.base.Some? {
      var b := l.base.value;
      Distribute(m.scale, l.rate, p[b], l.offset);
      var rates := Followed(m, EntryOf(l, p)).rates;
      assert rates.Keys == {b} && rates[b] == m.scale * l.rate;
      assert rates == map[b := k.rate];
    }
  }

  lemma Distribute(s: real, r: real, x: real, o: real)
    ensures s * (r * x + o) == (s * r) * x + s * o
  {}

  class Resolver {
    const t: Joints
    const p: Positions
    var resolved: map<string, Entry>
    var visiting: set<string>

    constructor (t: Joints, p: Positions)
      ensures this.t == t && this.p == p && resolved == map[] && visiting == {}
    {
      this.t, this.p := t, p;
      resolved, visiting := map[], {};
    }

    /** Resolve one joint, or refuse: exactly when its chain has no end. */
    method Resolve(x: string) returns (r: Option<Entry>)
      requires Given(t, p) && Right(t, p, resolved) && AllLead(t, visiting, x) && visiting <= t.Keys
      modifies this
      ensures r.Some? <==> Resolvable(t, x)
      ensures r.Some? ==> Means(t, p, x, r.value) && Right(t, p, resolved) && visiting == old(visiting)
      ensures r.Some? ==> resolved.Keys >= old(resolved.Keys) + {x}
      decreases |t.Keys - visiting|
    {
      if x in resolved {
        StoredIsResolvable(t, p, x, resolved[x]);
        return Some(resolved[x]);
      }
      if x in visiting || x !in t {
        if x in visiting { VisitedNeverEnds(t, visiting, x); }
        return None;
      }
      ResolvableStep(t, x);
      ghost var before := visiting;
      visiting := visiting + {x};
      var joint := t[x];
      var entry;
      if joint.mimic == None {
        LeafIsRight(t, p, x);
        entry := Leaf(t, p, x);
      } else {
        var m := joint.mimic.value;
        if m.target !in t || t[m.target].kind != joint.kind { return None; }
        TargetIsLedTo(t, before, x);
        assert t.Keys - before == (t.Keys - visiting) + {x};
        hide AllLead, Right, Means, Resolvable, Reaches;
        var source := Resolve(m.target);
        if source == None { return None; }
        FollowedIsRight(t, p, x, source.value);
        entry := Followed(m, source.value);
      }
      visiting := visiting - {x};
      assert visiting == before;
      StoredIsResolvable(t, p, x, entry);
      RightGrows(t, p, resolved, x, entry);
      resolved := resolved[x := entry];
      return Some(entry);
    }
  }

  lemma RightGrows(t: Joints, p: Positions, resolved: map<string, Entry>, x: string, e: Entry)
    requires Right(t, p, resolved) && Means(t, p, x, e)
    ensures Right(t, p, resolved[x := e])
  {
    hide Means;
  }

  /** Resolve all joints in the order of the table: refused exactly when the positions are not those
      of the independent joints, or the chain of some joint has no end. */
  method Coordinates(t: Joints, p: Positions, order: seq<string>) returns (r: Option<map<string, Entry>>)
    requires forall x :: x in order <==> x in t
    ensures r.Some? <==> Given(t, p) && forall x :: x in t.Keys ==> Resolvable(t, x)
    ensures r.Some? ==> r.value.Keys >= t.Keys && Right(t, p, r.value)
  {
    if !Given(t, p) { return None; }
    var resolver := new Resolver(t, p);
    hide Resolvable, Right, Means, Given;
    NothingStored(t, p);
    for i := 0 to |order|
      invariant fresh(resolver) && resolver.t == t && resolver.p == p && resolver.visiting == {}
      invariant Right(t, p, resolver.resolved)
      invariant forall j :: 0 <= j < i ==> Resolvable(t, order[j]) && order[j] in resolver.resolved
    {
      var e := resolver.Resolve(order[i]);
      if e == None { return None; }
    }
    forall x | x in t.Keys ensures Resolvable(t, x) && x in resolver.resolved {
      var i :| 0 <= i < |order| && order[i] == x;
    }
    return Some(resolver.resolved);
  }

  lemma NothingStored(t: Joints, p: Positions)
    ensures Right(t, p, map[])
  {}

  // ----- the result in plain terms

  /** The positions belong exactly to the moving joints that follow none. */
  lemma GivenExactly(t: Joints, p: Positions)
    ensures Given(t, p) <==> p.Keys == set x | x in t && !t[x].kind.Fixed? && t[x].mimic == None
  {}

  /** A path of joints, each following the next one of its own kind, up to one that follows none. */
  ghost predicate Leads(t: Joints, path: seq<string>) {
    && path != [] && (forall k :: 0 <= k < |path| ==> path[k] in t)
    && t[path[|path| - 1]].mimic == None
    && forall k :: 0 <= k < |path| - 1 ==>
         && t[path[k]].mimic.Some? && t[path[k]].mimic.value.target == path[k + 1]
         && t[path[k]].kind == t[path[k + 1]].kind
  }

  lemma {:induction false} EndLeads(t: Joints, x: string, n: nat) returns (path: seq<string>)
    requires Ends(t, x, n)
    ensures Leads(t, path) && path[0] == x
    decreases n
  {
    if n == 0 {
      path := [x];
    } else {
      var rest := EndLeads(t, Target(t, x), n - 1);
      path := [x] + rest;
    }
  }

  lemma {:induction false} LeadsEnds(t: Joints, path: seq<string>)
    requires Leads(t, path)
    ensures Ends(t, path[0], |path| - 1)
    decreases |path|
  {
    if |path| > 1 {
      var rest := path[1..];
      assert forall k :: 0 <= k < |rest| ==> rest[k] == path[k + 1];
      LeadsEnds(t, rest);
    }
  }

  /** A chain has an end exactly if there is such a path. */
  lemma ResolvableExactly(t: Joints, x: string)
    ensures Resolvable(t, x) <==> exists path :: Leads(t, path) && path[0] == x
  {
    if n: nat :| Ends(t, x, n) { var path := EndLeads(t, x, n); }
    if path :| Leads(t, path) && path[0] == x { LeadsEnds(t, path); }
  }

  lemma MeansOnce(t: Joints, p: Positions, x: string, d: Entry, e: Entry)
    requires Means(t, p, x, d) && Means(t, p, x, e)
    ensures d == e
  {
    var m: nat :| Ends(t, x, m) && Usable(LawOf(t, x, m), p) && d == EntryOf(LawOf(t, x, m), p);
    var n: nat :| Ends(t, x, n) && Usable(LawOf(t, x, n), p) && e == EntryOf(LawOf(t, x, n), p);
    EndsOnce(t, x, m, n);
  }

  /** The stored entries solve the equations of the description: a fixed joint is at zero, an independent
      one at its given position, and a follower at scale times its target plus offset, and so its rates. */
  lemma EntriesSolveTheEquations(t: Joints, p: Positions, r: map<string, Entry>, x: string)
    requires Given(t, p) && Right(t, p, r) && x in r
    ensures x in t
    ensures t[x].mimic == None && t[x].kind.Fixed? ==> r[x] == Entry(0.0, map[])
    ensures t[x].mimic == None && !t[x].kind.Fixed? ==> x in p && r[x] == Entry(p[x], map[x := 1.0])
    ensures t[x].mimic.Some? && t[x].mimic.value.target in r ==>
      var m := t[x].mimic.value;
      var source := r[m.target];
      && r[x].value == m.scale * source.value + m.offset
      && r[x].rates.Keys == source.rates.Keys && forall k :: k in source.rates ==> r[x].rates[k] == m.scale * source.rates[k]
  {
    hide LawOf;
    var n: nat :| Ends(t, x, n) && Usable(LawOf(t, x, n), p) && r[x] == EntryOf(LawOf(t, x, n), p);
    if t[x].mimic == None {
      LeafIsRight(t, p, x);
      MeansOnce(t, p, x, r[x], Leaf(t, p, x));
    } else if t[x].mimic.value.target in r {
      var source := r[Target(t, x)];
      FollowedIsRight(t, p, x, source);
      MeansOnce(t, p, x, r[x], Followed(t[x].mimic.value, source));
    }
  }
}
