/** The selected subtree of a robot description: the joint table, the depth-first visit, and the
    order in which transforms are computed. */
module Subtree {
  import opened Common

  type Link = string

  /** A joint element of the description, in document order. */
  datatype Joint = Joint(name: string, parent: Link, child: Link)

  // ----- the joint table

  /** The parent of every child, and the children of every parent in document order. */
  datatype Table = Table(parents: map<Link, Link>, children: map<Link, seq<Link>>)

  function Children(t: Table, link: Link): seq<Link> { if link in t.children then t.children[link] else [] }

  predicate Distinct<T(==)>(s: seq<T>) { forall i, j :: 0 <= i < j < |s| ==> s[i] != s[j] }

  /** The two maps describe the same edges. */
  predicate Consistent(t: Table) {
    && (forall p :: p in t.children.Keys ==> Distinct(t.children[p]))
    && (forall p :: p in t.children.Keys ==> forall c :: c in t.children[p] ==> c in t.parents && t.parents[c] == p)
    && (forall c :: c in t.parents.Keys ==> c in Children(t, t.parents[c]))
  }

  /** The table lists exactly these elements. */
  ghost predicate Lists(t: Table, joints: seq<Joint>) {
    && (forall j :: j in joints ==> j.child in t.parents && t.parents[j.child] == j.parent)
    && (forall c :: c in t.parents ==> exists j :: j in joints && j.child == c)
  }

  /** A named joint between known links whose name and child link are new. */
  predicate Fits(links: set<Link>, rows: seq<Joint>, joint: Joint) {
    && joint.name != "" && joint.parent in links && joint.child in links
    && forall j :: j in rows ==> j.name != joint.name && j.child != joint.child
  }

  /** What a description must satisfy. */
  predicate WellFormed(links: set<Link>, joints: seq<Joint>)
    decreases |joints|
  {
    joints != [] ==>
      WellFormed(links, joints[..|joints| - 1]) && Fits(links, joints[..|joints| - 1], joints[|joints| - 1])
  }

  lemma {:induction false} MalformedStays(links: set<Link>, rows: seq<Joint>, later: seq<Joint>)
    requires !WellFormed(links, rows)
    ensures !WellFormed(links, rows + later)
    decreases |later|
  {
    if later == [] {
      assert rows + later == rows;
    } else {
      MalformedStays(links, rows, later[..|later| - 1]);
      assert (rows + later)[..|rows + later| - 1] == rows + later[..|later| - 1];
      hide Fits;
    }
  }

  function Added(t: Table, joint: Joint): Table {
    Table(t.parents[joint.child := joint.parent], t.children[joint.parent := Children(t, joint.parent) + [joint.child]])
  }

  lemma AddKeepsConsistent(t: Table, joint: Joint)
    requires Consistent(t) && joint.child !in t.parents
    ensures Consistent(Added(t, joint))
  {
    var grown := Children(t, joint.parent) + [joint.child];
    var after := Added(t, joint);
    assert joint.child !in Children(t, joint.parent);
    assert Distinct(grown);
    forall c | c in after.parents.Keys ensures c in Children(after, after.parents[c]) {
      if c == joint.child {
        assert grown[|grown| - 1] == c;
      } else {
        assert c in Children(t, t.parents[c]);
      }
    }
  }

  /** The table, the names and the rows read so far belong together. */
  ghost predicate Read(t: Table, names: set<string>, links: set<Link>, rows: seq<Joint>) {
    Consistent(t) && Lists(t, rows) && t.parents.Keys <= links && WellFormed(links, rows) && NamesOf(names, rows)
  }

  ghost predicate NamesOf(names: set<string>, rows: seq<Joint>) {
    && (forall j :: j in rows ==> j.name in names)
    && forall n :: n in names ==> exists j :: j in rows && j.name == n
  }

  predicate Acceptable(t: Table, names: set<string>, links: set<Link>, joint: Joint) {
    && joint.name != "" && joint.name !in names && joint.child !in t.parents
    && joint.parent in links && joint.child in links
  }

  lemma RowListed(t: Table, rows: seq<Joint>, joint: Joint)
    requires Lists(t, rows) && joint.child !in t.parents
    ensures Lists(Added(t, joint), rows + [joint])
  {
    var after, longer := Added(t, joint), rows + [joint];
    assert joint in longer;
    forall c | c in after.parents ensures exists j :: j in longer && j.child == c {
      if c != joint.child {
        var j :| j in rows && j.child == c;
        assert j in longer;
      }
    }
  }

  /** The checks on the sets are the checks on the rows. */
  lemma AcceptableMeansFits(t: Table, names: set<string>, links: set<Link>, rows: seq<Joint>, joint: Joint)
    requires Read(t, names, links, rows)
    ensures Acceptable(t, names, links, joint) <==> Fits(links, rows, joint)
  {
    hide Consistent, WellFormed;
    if joint.name in names {
      var j :| j in rows && j.name == joint.name;
    }
    if joint.child in t.parents {
      var j :| j in rows && j.child == joint.child;
    }
  }

  lemma NamesGrow(names: set<string>, rows: seq<Joint>, joint: Joint)
    requires NamesOf(names, rows)
    ensures NamesOf(names + {joint.name}, rows + [joint])
  {
    var longer, more := rows + [joint], names + {joint.name};
    assert joint in longer;
    forall n | n in more ensures exists j :: j in longer && j.name == n {
      if n in names {
        var j :| j in rows && j.name == n;
        assert j in longer;
      }
    }
  }

  lemma RowAdded(t: Table, names: set<string>, links: set<Link>, rows: seq<Joint>, joint: Joint)
    requires Read(t, names, links, rows) && Acceptable(t, names, links, joint)
    ensures Read(Added(t, joint), names + {joint.name}, links, rows + [joint])
  {
    hide Consistent, Lists, Fits, NamesOf, WellFormed, Added;
    AddKeepsConsistent(t, joint);
    RowListed(t, rows, joint);
    NamesGrow(names, rows, joint);
    AcceptableMeansFits(t, names, links, rows, joint);
    WellFormedGrows(links, rows, joint);
    AddedKeys(t, joint);
  }

  lemma AddedKeys(t: Table, joint: Joint)
    ensures Added(t, joint).parents.Keys == t.parents.Keys + {joint.child}
  {}

  lemma WellFormedGrows(links: set<Link>, rows: seq<Joint>, joint: Joint)
    requires WellFormed(links, rows) && Fits(links, rows, joint)
    ensures WellFormed(links, rows + [joint])
  {
    hide Fits;
    assert (rows + [joint])[..|rows|] == rows;
  }

  lemma NothingRead(links: set<Link>)
    ensures Read(Table(map[], map[]), {}, links, [])
  {}

  lemma RowRefused(t: Table, names: set<string>, links: set<Link>, rows: seq<Joint>, joint: Joint, later: seq<Joint>)
    requires Read(t, names, links, rows) && !Acceptable(t, names, links, joint)
    ensures !WellFormed(links, rows + [joint] + later)
  {
    AcceptableMeansFits(t, names, links, rows, joint);
    hide Read, Acceptable, Fits;
    assert (rows + [joint])[..|rows|] == rows;
    MalformedStays(links, rows + [joint], later);
  }

  lemma ReadIsSound(t: Table, names: set<string>, links: set<Link>, rows: seq<Joint>)
    requires Read(t, names, links, rows)
    ensures WellFormed(links, rows) && Consistent(t) && Lists(t, rows) && t.parents.Keys <= links
  {}

  /** Build the table, refusing a malformed description. */
  method ReadJoints(links: set<Link>, joints: seq<Joint>) returns (r: Option<Table>)
    ensures r.Some? <==> WellFormed(links, joints)
    ensures r.Some? ==> Consistent(r.value) && Lists(r.value, joints) && r.value.parents.Keys <= links
  {
    var t := Table(map[], map[]);
    var names: set<string> := {};
    NothingRead(links);
    hide Read, Consistent, Lists, WellFormed, Acceptable, Added;
    assert joints[..0] == [];
    for i := 0 to |joints|
      invariant Read(t, names, links, joints[..i])
    {
      var joint := joints[i];
      assert joints == joints[..i] + [joint] + joints[i + 1..];
      if !Acceptable(t, names, links, joint) {
        RowRefused(t, names, links, joints[..i], joint, joints[i + 1..]);
        return None;
      }
      RowAdded(t, names, links, joints[..i], joint);
      assert joints[..i] + [joint] == joints[..i + 1];
      t, names := Added(t, joint), names + {joint.name};
    }
    assert joints[..|joints|] == joints;
    ReadIsSound(t, names, links, joints);
    return Some(t);
  }

  // ----- ancestry

  /** The n-th ancestor. */
  function Up(t: Table, x: Link, n: nat): Option<Link> {
    if n == 0 then Some(x)
    else
      match Up(t, x, n - 1)
      case None => None
      case Some(y) => if y in t.parents then Some(t.parents[y]) else None
  }

  ghost predicate Descends(t: Table, x: Link, from: Link) { exists n: nat :: Up(t, x, n) == Some(from) }

  lemma {:induction false} UpAdds(t: Table, x: Link, m: nat, n: nat)
    ensures Up(t, x, m + n) == match Up(t, x, m) case None => None case Some(y) => Up(t, y, n)
  {
    if n > 0 { UpAdds(t, x, m, n - 1); }
  }

  lemma DescendsTransitive(t: Table, x: Link, y: Link, z: Link)
    requires Descends(t, x, y) && Descends(t, y, z)
    ensures Descends(t, x, z)
  {
    var m: nat :| Up(t, x, m) == Some(y);
    var n: nat :| Up(t, y, n) == Some(z);
    UpAdds(t, x, m, n);
  }

  lemma SelfAndChild(t: Table, x: Link)
    ensures Descends(t, x, x)
    ensures x in t.parents ==> Descends(t, x, t.parents[x])
  {
    assert Up(t, x, 0) == Some(x);
    assert x in t.parents ==> Up(t, x, 1) == Some(t.parents[x]);
  }

  /** The root is a parent of the branch and is not below it. */
  ghost predicate Selectable(t: Table, root: Link, branch: Link) {
    branch in t.parents && t.parents[branch] == root && !Descends(t, root, branch)
  }

  /** A cycle below the branch leads through the root. */
  lemma CycleMeetsRoot(t: Table, root: Link, branch: Link, x: Link, c: Link)
    requires branch in t.parents && t.parents[branch] == root
    requires Descends(t, x, branch) && c in t.parents && t.parents[c] == x && Descends(t, x, c)
    ensures Descends(t, root, branch)
  {
    var m: nat :| Up(t, x, m) == Some(c);
    var d: nat :| Up(t, x, d) == Some(branch);
    assert Up(t, x, m + 1) == Some(x);
    UpAdds(t, x, m + 1, d);
    UpAdds(t, x, d, m + 1);
    assert Up(t, branch, m + 1) == Some(branch);
    UpAdds(t, branch, 1, m);
    assert Up(t, branch, 0) == Some(branch) && Up(t, branch, 1) == Some(root);
    assert Up(t, root, m) == Some(branch);
  }

  lemma NoCycle(t: Table, root: Link, branch: Link, x: Link, c: Link)
    requires Selectable(t, root, branch) && Descends(t, x, branch) && c in t.parents && t.parents[c] == x
    ensures !Descends(t, x, c)
  {
    if Descends(t, x, c) { CycleMeetsRoot(t, root, branch, x, c); }
  }

  /** The subtrees of two children are disjoint. */
  lemma SiblingsApart(t: Table, root: Link, branch: Link, x: Link, a: Link, b: Link, y: Link)
    requires Selectable(t, root, branch) && Descends(t, x, branch)
    requires a in t.parents && t.parents[a] == x && b in t.parents && t.parents[b] == x
    requires Descends(t, y, a) && Descends(t, y, b)
    ensures a == b
  {
    var m: nat :| Up(t, y, m) == Some(a);
    var n: nat :| Up(t, y, n) == Some(b);
    if m != n {
      if m < n { LowerSibling(t, x, a, b, y, m, n); } else { LowerSibling(t, x, b, a, y, n, m); }
      NoCycle(t, root, branch, x, a);
      NoCycle(t, root, branch, x, b);
    }
  }

  /** Two children of x on one line of ancestors put x on a cycle. */
  lemma LowerSibling(t: Table, x: Link, a: Link, b: Link, y: Link, m: nat, n: nat)
    requires a in t.parents && t.parents[a] == x && m < n && Up(t, y, m) == Some(a) && Up(t, y, n) == Some(b)
    ensures Descends(t, x, b)
  {
    assert Up(t, y, m + 1) == Some(x);
    UpAdds(t, y, m + 1, n - m - 1);
    assert Up(t, x, n - m - 1) == Some(b);
  }

  // ----- what a visit lists

  function Elements(s: seq<Link>): set<Link> { set x | x in s }

  /** Every link but the first comes after its parent. */
  predicate ParentsFirst(t: Table, s: seq<Link>) {
    forall i :: 0 < i < |s| ==> s[i] in t.parents && t.parents[s[i]] in s[..i]
  }

  /** The links are new, distinct, after their parents, and closed under children except that only
      the first n children of the first link are listed yet. */
  predicate Partial(t: Table, from: Link, n: nat, s: seq<Link>, before: set<Link>)
    requires n <= |Children(t, from)|
  {
    && s != [] && s[0] == from && Distinct(s) && (forall x :: x in s ==> x !in before) && ParentsFirst(t, s)
    && (forall x :: x in s && x != from ==> forall c :: c in Children(t, x) ==> c in s)
    && forall k :: 0 <= k < n ==> Children(t, from)[k] in s
  }

  predicate Listing(t: Table, from: Link, s: seq<Link>, before: set<Link>) {
    Partial(t, from, |Children(t, from)|, s, before)
  }

  lemma AppendDistinct(s: seq<Link>, more: seq<Link>)
    requires Distinct(s) && Distinct(more) && forall x :: x in more ==> x !in Elements(s)
    ensures Distinct(s + more)
  {
    forall i, j | 0 <= i < j < |s + more| ensures (s + more)[i] != (s + more)[j] {
      if i < |s| <= j {
        assert s[i] in Elements(s) && more[j - |s|] in more;
      }
    }
  }

  lemma AppendParentsFirst(t: Table, s: seq<Link>, more: seq<Link>)
    requires ParentsFirst(t, s) && ParentsFirst(t, more) && s != []
    requires more != [] && more[0] in t.parents && t.parents[more[0]] in s
    ensures ParentsFirst(t, s + more)
  {
    var all := s + more;
    forall i | 0 < i < |all| ensures all[i] in t.parents && t.parents[all[i]] in all[..i] {
      if i < |s| {
        assert all[..i] == s[..i];
      } else {
        assert all[..i] == s + more[..i - |s|];
      }
    }
  }

  lemma PartialGrows(t: Table, from: Link, n: nat, s: seq<Link>, more: seq<Link>, before: set<Link>)
    requires Consistent(t) && n < |Children(t, from)| && Partial(t, from, n, s, before)
    requires Listing(t, Children(t, from)[n], more, before + Elements(s))
    ensures Partial(t, from, n + 1, s + more, before)
  {
    hide Distinct, ParentsFirst, Consistent;
    NextChild(t, from, n);
    AppendDistinct(s, more);
    AppendParentsFirst(t, s, more);
    AppendClosed(t, from, Children(t, from)[n], s, more, before, before + Elements(s), n);
  }

  lemma NextChild(t: Table, from: Link, n: nat)
    requires Consistent(t) && n < |Children(t, from)|
    ensures var c := Children(t, from)[n]; c in t.parents && t.parents[c] == from
  {
    assert Children(t, from)[n] in Children(t, from);
  }

  lemma AppendClosed(t: Table, from: Link, c: Link, s: seq<Link>, more: seq<Link>, before: set<Link>, later: set<Link>, n: nat)
    requires n <= |Children(t, from)| && Partial(t, from, n, s, before) && Listing(t, c, more, later)
    ensures forall x, d :: x in s + more && x != from && d in Children(t, x) ==> d in s + more
  {
    hide Distinct, ParentsFirst;
    forall x, d | x in s + more && x != from && d in Children(t, x) ensures d in s + more {
      if x in more { ClosedListing(t, c, more, later, x, d); }
    }
  }

  lemma ClosedListing(t: Table, from: Link, s: seq<Link>, before: set<Link>, x: Link, c: Link)
    requires Listing(t, from, s, before) && x in s && c in Children(t, x)
    ensures c in s
  {}

  lemma {:induction false} ListedDescend(t: Table, from: Link, n: nat, s: seq<Link>, before: set<Link>, i: nat)
    requires n <= |Children(t, from)| && Partial(t, from, n, s, before) && i < |s|
    ensures Descends(t, s[i], from)
    decreases i
  {
    SelfAndChild(t, s[i]);
    if i > 0 {
      var p := t.parents[s[i]];
      var j :| 0 <= j < i && s[j] == p;
      ListedDescend(t, from, n, s, before, j);
      DescendsTransitive(t, s[i], p, from);
    }
  }

  /** A listing has every descendant. */
  lemma {:induction false} DescendantsListed(t: Table, from: Link, s: seq<Link>, before: set<Link>, x: Link, n: nat)
    requires Consistent(t) && Listing(t, from, s, before) && Up(t, x, n) == Some(from)
    ensures x in s
    decreases n
  {
    hide Listing, Consistent, Children, Up;
    FirstIsListed(t, from, s, before);
    FirstStep(t, x, n);
    if n > 0 {
      var p := t.parents[x];
      DescendantsListed(t, from, s, before, p, n - 1);
      IsChild(t, x);
      ClosedListing(t, from, s, before, p, x);
    }
  }

  lemma FirstStep(t: Table, x: Link, n: nat)
    requires Up(t, x, n).Some?
    ensures if n == 0 then Up(t, x, n) == Some(x) else x in t.parents && Up(t, x, n) == Up(t, t.parents[x], n - 1)
  {
    if n > 0 {
      UpAdds(t, x, 1, n - 1);
      assert Up(t, x, 0) == Some(x);
    }
  }

  lemma FirstIsListed(t: Table, from: Link, s: seq<Link>, before: set<Link>)
    requires Listing(t, from, s, before)
    ensures from in s
  {
    assert s[0] in s;
    hide Distinct, ParentsFirst;
  }

  lemma IsChild(t: Table, x: Link)
    requires Consistent(t) && x in t.parents
    ensures x in Children(t, t.parents[x])
  {}

  /** Nothing seen lies below the link. */
  ghost predicate Apart(t: Table, seen: set<Link>, link: Link) { forall y :: y in seen ==> !Descends(t, y, link) }

  /** What was listed besides the link lies below one of its first n children. */
  ghost predicate Under(t: Table, link: Link, n: nat, s: seq<Link>)
    requires n <= |Children(t, link)|
  {
    forall x :: x in s && x != link ==> exists k :: 0 <= k < n && Descends(t, x, Children(t, link)[k])
  }

  lemma UnderGrows(t: Table, link: Link, n: nat, s: seq<Link>, more: seq<Link>, before: set<Link>)
    requires n < |Children(t, link)| && Under(t, link, n, s) && Listing(t, Children(t, link)[n], more, before)
    ensures Under(t, link, n + 1, s + more)
  {
    var c := Children(t, link)[n];
    forall x | x in s + more && x != link
      ensures exists k :: 0 <= k < n + 1 && Descends(t, x, Children(t, link)[k])
    {
      if x in s {
        var k :| 0 <= k < n && Descends(t, x, Children(t, link)[k]);
      } else {
        var i :| 0 <= i < |more| && more[i] == x;
        ListedDescend(t, c, |Children(t, c)|, more, before, i);
        assert Descends(t, x, Children(t, link)[n]);
      }
    }
  }

  /** Below a selectable branch the next child has not been seen. */
  lemma NextIsApart(t: Table, root: Link, branch: Link, link: Link, n: nat, s: seq<Link>, seen: set<Link>)
    requires Consistent(t) && Selectable(t, root, branch) && Descends(t, link, branch) && Apart(t, seen, link)
    requires n < |Children(t, link)| && Under(t, link, n, s)
    ensures Apart(t, seen + Elements(s), Children(t, link)[n]) && Descends(t, Children(t, link)[n], branch)
  {
    var c := Children(t, link)[n];
    assert c in Children(t, link) && t.parents[c] == link;
    SelfAndChild(t, c);
    DescendsTransitive(t, c, link, branch);
    forall y | y in seen + Elements(s) ensures !Descends(t, y, c) {
      if y in seen {
        if Descends(t, y, c) { DescendsTransitive(t, y, c, link); }
      } else if y == link {
        NoCycle(t, root, branch, link, c);
      } else {
        var k :| 0 <= k < n && Descends(t, y, Children(t, link)[k]);
        OtherSibling(t, root, branch, link, k, n, y);
      }
    }
  }

  lemma OtherSibling(t: Table, root: Link, branch: Link, link: Link, k: nat, n: nat, y: Link)
    requires Consistent(t) && Selectable(t, root, branch) && Descends(t, link, branch)
    requires k < n < |Children(t, link)| && Descends(t, y, Children(t, link)[k])
    ensures !Descends(t, y, Children(t, link)[n])
  {
    var a, c := Children(t, link)[k], Children(t, link)[n];
    assert a in Children(t, link) && c in Children(t, link) && a != c;
    if Descends(t, y, c) { SiblingsApart(t, root, branch, link, a, c, y); }
  }

  // ----- the visit

  class Walker {
    const t: Table
    const links: set<Link>
    ghost const root: Link
    ghost const branch: Link
    var ordered: seq<Link>
    var seen: set<Link>

    constructor (t: Table, links: set<Link>, root: Link, ghost branch: Link)
      ensures this.t == t && this.links == links && this.root == root && this.branch == branch
      ensures ordered == [] && seen == {root}
    {
      this.t, this.links, this.root, this.branch := t, links, root, branch;
      ordered, seen := [], {root};
    }

    /** Visit a link and then its children in document order; false if a link is refused. Below
        a selectable branch it never does. */
    method Visit(link: Link) returns (ok: bool, ghost news: seq<Link>)
      requires Consistent(t) && t.parents.Keys <= links && link in links
      modifies `ordered, `seen
      ensures seen >= old(seen)
      ensures ok ==> ordered == old(ordered) + news && seen == old(seen) + Elements(news)
      ensures ok ==> Listing(t, link, news, old(seen))
      ensures Selectable(t, root, branch) && Descends(t, link, branch) && Apart(t, old(seen), link) ==> ok
      decreases |links - seen|, 0
    {
      ghost var before := seen;
      ghost var good := Selectable(t, root, branch) && Descends(t, link, branch) && Apart(t, before, link);
      SelfAndChild(t, link);
      if link in seen { return false, []; }
      hide Selectable, Descends, Apart, Consistent, Partial, Under, Elements, Children;
      seen := seen + {link};
      ordered := ordered + [link];
      news := [link];
      FirstListed(t, link, before);
      for n := 0 to |Children(t, link)|
        invariant ordered == old(ordered) + news && seen == before + Elements(news)
        invariant Partial(t, link, n, news, before) && link in seen && (good ==> Under(t, link, n, news))
      {
        Fewer(links, before, seen, link);
        ok, news := VisitChild(link, n, news, before, old(ordered), good);
        if !ok { return; }
      }
      return true, news;
    }

    /** One round of the loop over the children. */
    method VisitChild(link: Link, n: nat, ghost news: seq<Link>, ghost before: set<Link>, ghost listed: seq<Link>, ghost good: bool)
      returns (ok: bool, ghost after: seq<Link>)
      requires Consistent(t) && t.parents.Keys <= links && n < |Children(t, link)|
      requires ordered == listed + news && seen == before + Elements(news) && Partial(t, link, n, news, before)
      requires good ==> Selectable(t, root, branch) && Descends(t, link, branch) && Apart(t, before, link) && Under(t, link, n, news)
      modifies `ordered, `seen
      ensures seen >= old(seen) && (good ==> ok)
      ensures ok ==> ordered == listed + after && seen == before + Elements(after)
      ensures ok ==> Partial(t, link, n + 1, after, before) && (good ==> Under(t, link, n + 1, after))
      decreases |links - seen|, 1
    {
      hide Selectable, Descends, Apart, Consistent, Partial, Under, Elements, Children;
      ChildIsKnown(t, link, n, links);
      if good { NextIsApart(t, root, branch, link, n, news, before); }
      ghost var more;
      ok, more := Visit(Children(t, link)[n]);
      if !ok { return false, []; }
      PartialGrows(t, link, n, news, more, before);
      if good { UnderGrows(t, link, n, news, more, before + Elements(news)); }
      Appended(listed, news, more, before);
      return true, news + more;
    }
  }

  lemma Appended(ordered: seq<Link>, s: seq<Link>, more: seq<Link>, seen: set<Link>)
    ensures ordered + s + more == ordered + (s + more)
    ensures seen + Elements(s) + Elements(more) == seen + Elements(s + more)
  {}

  lemma Smaller(links: set<Link>, seen: set<Link>, link: Link)
    requires link in links && link !in seen
    ensures |links - (seen + {link})| < |links - seen|
  {
    assert links - seen == (links - (seen + {link})) + {link};
  }

  lemma Fewer(links: set<Link>, before: set<Link>, seen: set<Link>, link: Link)
    requires link in links && link !in before && link in seen && before <= seen
    ensures |links - seen| < |links - before|
  {
    Smaller(links, before, link);
    var less, more := links - seen, links - (before + {link});
    assert more == less + (more - less);
  }

  lemma FirstListed(t: Table, link: Link, before: set<Link>)
    requires link !in before
    ensures Partial(t, link, 0, [link], before) && Under(t, link, 0, [link]) && Elements([link]) == {link}
  {}

  lemma ChildIsKnown(t: Table, link: Link, n: nat, links: set<Link>)
    requires Consistent(t) && t.parents.Keys <= links && n < |Children(t, link)|
    ensures Children(t, link)[n] in links
  {
    assert Children(t, link)[n] in Children(t, link);
  }

  /** Select the subtree of a branch: refused exactly when the branch is no child of the root or the
      root lies below it; otherwise every descendant is listed once, after its parent. */
  method SelectSubtree(t: Table, links: set<Link>, root: Link, branch: Link) returns (r: Option<seq<Link>>)
    requires Consistent(t) && t.parents.Keys <= links
    ensures r.Some? <==> root in links && branch in links && Selectable(t, root, branch)
    ensures r.Some? ==> r.value != [] && r.value[0] == branch && Distinct(r.value) && ParentsFirst(t, r.value)
    ensures r.Some? ==> forall x :: x in r.value <==> Descends(t, x, branch)
  {
    SelfAndChild(t, root);
    if root !in links || branch !in links || root == branch { return None; }
    if branch !in t.parents || t.parents[branch] != root { return None; }
    var w := new Walker(t, links, root, branch);
    assert Selectable(t, root, branch) ==> Apart(t, {root}, branch);
    SelfAndChild(t, branch);
    var ok, news := w.Visit(branch);
    if !ok { return None; }
    assert w.ordered == news;
    ListingIsExact(t, branch, news, {root});
    return Some(w.ordered);
  }

  lemma ListingIsExact(t: Table, from: Link, s: seq<Link>, before: set<Link>)
    requires Consistent(t) && Listing(t, from, s, before)
    ensures forall x :: x in s <==> Descends(t, x, from)
    ensures forall x :: x in before ==> !Descends(t, x, from)
  {
    forall x | Descends(t, x, from) ensures x in s {
      var n: nat :| Up(t, x, n) == Some(from);
      DescendantsListed(t, from, s, before, x, n);
    }
    forall x | x in s ensures Descends(t, x, from) {
      var i :| 0 <= i < |s| && s[i] == x;
      ListedDescend(t, from, |Children(t, from)|, s, before, i);
    }
  }

  // ----- the order in which transforms are computed

  lemma DescendsStep(t: Table, x: Link, y: Link)
    requires x in t.parents
    ensures Descends(t, x, y) <==> x == y || Descends(t, t.parents[x], y)
  {
    SelfAndChild(t, x);
    if Descends(t, x, y) && x != y {
      var n: nat :| Up(t, x, n) == Some(y);
      FirstStep(t, x, n);
      assert Up(t, t.parents[x], n - 1) == Some(y);
    }
    if Descends(t, t.parents[x], y) { DescendsTransitive(t, x, t.parents[x], y); }
  }

  /** The moving joints (named by their child links) that a link's transform depends on are exactly
      those on its way up to the root. */
  ghost predicate OnTheWay(t: Table, listed: seq<Link>, moving: set<Link>, x: Link, ancestors: seq<Link>) {
    forall y :: y in ancestors <==> y in listed && y in moving && Descends(t, x, y)
  }

  /** What the selection of a subtree promises. */
  ghost predicate Selected(t: Table, root: Link, branch: Link, s: seq<Link>) {
    && Selectable(t, root, branch) && s != [] && s[0] == branch && Distinct(s) && ParentsFirst(t, s)
    && forall x :: x in s <==> Descends(t, x, branch)
  }

  lemma RootHasNoAncestors(t: Table, root: Link, branch: Link, s: seq<Link>, moving: set<Link>)
    requires Selected(t, root, branch, s)
    ensures OnTheWay(t, s, moving, root, []) && root !in s
  {
    forall y | y in s ensures !Descends(t, root, y) {
      if Descends(t, root, y) { DescendsTransitive(t, root, y, branch); }
    }
  }

  lemma NextOnTheWay(t: Table, s: seq<Link>, moving: set<Link>, x: Link, ancestors: seq<Link>)
    requires x in t.parents && x in s && OnTheWay(t, s, moving, t.parents[x], ancestors)
    ensures OnTheWay(t, s, moving, x, if x in moving then ancestors + [x] else ancestors)
  {
    forall y ensures Descends(t, x, y) <==> x == y || Descends(t, t.parents[x], y) {
      DescendsStep(t, x, y);
    }
    hide Descends;
  }

  /** Every parent is there when it is looked up. */
  lemma ParentIsKnown(t: Table, root: Link, branch: Link, s: seq<Link>, i: nat)
    requires Selected(t, root, branch, s) && i < |s|
    ensures s[i] in t.parents && (t.parents[s[i]] == root || t.parents[s[i]] in s[..i]) && s[i] !in s[..i]
  {
    assert i > 0 ==> t.parents[s[i]] in s[..i];
  }

  /** The transforms of the root and of the first n listed links are there, with their ancestors. */
  ghost predicate Computed(t: Table, root: Link, s: seq<Link>, moving: set<Link>, n: nat, transforms: map<Link, seq<Link>>)
    requires n <= |s|
  {
    && transforms.Keys == Elements(s[..n]) + {root}
    && forall x :: x in transforms ==> OnTheWay(t, s, moving, x, transforms[x])
  }

  lemma ComputedGrows(
    t: Table, root: Link, branch: Link, s: seq<Link>, moving: set<Link>, n: nat, transforms: map<Link, seq<Link>>)
    requires Selected(t, root, branch, s) && n < |s| && Computed(t, root, s, moving, n, transforms)
    ensures s[n] in t.parents && t.parents[s[n]] in transforms
    ensures var x, ancestors := s[n], transforms[t.parents[s[n]]];
      Computed(t, root, s, moving, n + 1, transforms[x := if x in moving then ancestors + [x] else ancestors])
  {
    hide Selected, OnTheWay, Elements;
    ParentIsKnown(t, root, branch, s, n);
    OneMore(s, n);
    KnownSoFar(s, n, t.parents[s[n]]);
    NextOnTheWay(t, s, moving, s[n], transforms[t.parents[s[n]]]);
  }

  /** The traversal of the joints in listed order: the lookup of the parent's transform never fails. */
  method Traverse(t: Table, root: Link, branch: Link, s: seq<Link>, moving: set<Link>)
    returns (transforms: map<Link, seq<Link>>)
    requires Selected(t, root, branch, s)
    ensures transforms.Keys == Elements(s) + {root}
    ensures forall x :: x in transforms ==> OnTheWay(t, s, moving, x, transforms[x])
  {
    transforms := map[root := []];
    RootHasNoAncestors(t, root, branch, s, moving);
    assert Elements(s[..0]) == {};
    for i := 0 to |s|
      invariant Computed(t, root, s, moving, i, transforms)
    {
      hide Computed, Selected;
      ComputedGrows(t, root, branch, s, moving, i, transforms);
      var x := s[i];
      var ancestors := transforms[t.parents[x]];
      transforms := transforms[x := if x in moving then ancestors + [x] else ancestors];
    }
    assert s[..|s|] == s;
  }

  lemma KnownSoFar(s: seq<Link>, i: nat, x: Link)
    requires i <= |s|
    ensures x in s[..i] <==> x in Elements(s[..i])
  {}

  lemma OneMore(s: seq<Link>, i: nat)
    requires i < |s|
    ensures Elements(s[..i + 1]) == Elements(s[..i]) + {s[i]}
  {
    assert s[..i + 1] == s[..i] + [s[i]];
  }
}
