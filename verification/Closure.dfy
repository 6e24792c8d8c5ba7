/** Sorting by height and loading everything above or below a set of revisions. */
module Closure {
  import opened RevisionGraph
  import Ordered

  // ---------- toposort ----------

  /** The members of `revisions`, each once, in strictly ascending height. */
  ghost predicate SortedByHeight(g: Graph, sorted: seq<Id>, revisions: set<Id>) {
    && (forall x :: x in sorted <==> x in revisions)
    && (forall x :: x in sorted ==> x in g.height)
    && forall i, j :: 0 <= i < j < |sorted| ==> g.height[sorted[i]] < g.height[sorted[j]]
  }

  method Toposort(g: Graph, revisions: set<Id>) returns (sorted: seq<Id>)
    requires g.UniqueHeights() && revisions <= g.height.Keys
    ensures SortedByHeight(g, sorted, revisions)
    ensures |sorted| == |revisions|
  {
    var work: map<nat, Id> := map[];
    var rest := revisions;
    while rest != {}
      invariant rest <= revisions
      invariant forall h :: h in work ==> work[h] in revisions - rest && h == g.height[work[h]]
      invariant forall x :: x in revisions - rest ==> g.height[x] in work && work[g.height[x]] == x
      decreases rest
    {
      var x :| x in rest;
      if g.height[x] !in work {
        work := work[g.height[x] := x];
      }
      rest := rest - {x};
    }
    sorted := [];
    var keys := work.Keys;
    while keys != {}
      invariant keys <= work.Keys
      invariant forall x :: x in sorted <==> x in revisions && g.height[x] !in keys
      invariant forall i, j :: 0 <= i < j < |sorted| ==> g.height[sorted[i]] < g.height[sorted[j]]
      invariant forall i, h :: 0 <= i < |sorted| && h in keys ==> g.height[sorted[i]] < h
      decreases keys
    {
      var least := Ordered.LeastNat(keys);
      ghost var before := sorted;
      sorted := sorted + [work[least]];
      forall x ensures x in sorted <==> x in before || x == work[least] {
      }
      keys := keys - {least};
    }
    SortedSize(g, sorted, revisions);
  }

  lemma {:induction false} SortedSize(g: Graph, sorted: seq<Id>, revisions: set<Id>)
    requires SortedByHeight(g, sorted, revisions)
    ensures |sorted| == |revisions|
    decreases |sorted|
  {
    if sorted != [] {
      var x := sorted[|sorted| - 1];
      var init := sorted[..|sorted| - 1];
      forall y ensures y in init <==> y in revisions - {x} {
        if y in revisions - {x} {
          var i :| 0 <= i < |sorted| && sorted[i] == y;
          assert y == init[i];
        }
      }
      SortedSize(g, init, revisions - {x});
    }
  }

  /** An ancestor always comes before its descendants. */
  lemma AncestorsComeFirst(g: Graph, sorted: seq<Id>, revisions: set<Id>, i: nat, j: nat)
    requires g.Valid() && SortedByHeight(g, sorted, revisions)
    requires i < |sorted| && j < |sorted| && g.Anc(sorted[i], sorted[j])
    ensures i < j
  {
    AncIsLower(g, sorted[i], sorted[j]);
  }

  // ---------- load_revs ----------

  datatype Direction = Ancestors | Descendants

  function Relatives(g: Graph, children: map<Id, seq<Id>>, d: Direction, x: Id): seq<Id> {
    if d == Ancestors then g.ParentsOf(x) else ChildrenOf(children, x)
  }

  /** `y` lies strictly beyond `x` in the given direction. */
  ghost predicate Beyond(g: Graph, d: Direction, y: Id, x: Id) {
    if d == Ancestors then g.Anc(y, x) else g.Anc(x, y)
  }

  /** Every relative but the null id of a member outside `pending` is a member. */
  ghost predicate ClosedExcept(g: Graph, children: map<Id, seq<Id>>, d: Direction, s: set<Id>, pending: seq<Id>) {
    forall x, y :: x in s && x !in pending && y in Relatives(g, children, d, x) && y != NullId ==> y in s
  }

  ghost predicate LoadOk(g: Graph, children: map<Id, seq<Id>>, d: Direction, revs0: set<Id>, revs: set<Id>) {
    && revs0 <= revs
    && forall y :: y in revs && y !in revs0 ==>
         y in g.parents && y != NullId && exists x :: x in revs0 && Beyond(g, d, y, x)
  }

  /** Breadth-first closure: what it adds is everything beyond the given revisions, the null
      id left out. The null revision has no parents to ask for. */
  method LoadRevs(g: Graph, children: map<Id, seq<Id>>, d: Direction, revs0: set<Id>) returns (ok: bool, revs: set<Id>)
    requires g.Valid() && g.Rooted() && ForwardOf(g, children)
    ensures ok == !(d == Ancestors && NullId in revs0)
    ensures ok ==> forall y :: y in revs <==> y in revs0 || (y != NullId && exists x :: x in revs0 && Beyond(g, d, y, x))
  {
    revs := revs0;
    var next := SetToSeq(revs0);
    while next != []
      invariant LoadOk(g, children, d, revs0, revs)
      invariant forall x :: x in next ==> x in revs
      invariant ClosedExcept(g, children, d, revs, next)
      invariant d == Ancestors && NullId in revs0 ==> NullId in next
      decreases g.parents.Keys - revs, |next|
    {
      var rid := next[0];
      if d == Ancestors && rid == NullId {
        return false, revs;
      }
      revs, next := AddRelatives(g, children, d, revs0, revs, next, rid);
      assert next == [rid] + next[1..];
      next := next[1..];
    }
    ok := true;
    forall y | y != NullId && exists x :: x in revs0 && Beyond(g, d, y, x) ensures y in revs {
      var x :| x in revs0 && Beyond(g, d, y, x);
      ClosedHolds(g, children, d, revs, x, y);
    }
  }

  /** The inner loop: insert the relatives of one revision, queueing the ones not seen before. */
  method AddRelatives(g: Graph, children: map<Id, seq<Id>>, d: Direction, ghost revs0: set<Id>,
                      revs1: set<Id>, next1: seq<Id>, rid: Id)
    returns (revs: set<Id>, next: seq<Id>)
    requires g.Valid() && ForwardOf(g, children) && LoadOk(g, children, d, revs0, revs1) && rid in revs1
    ensures LoadOk(g, children, d, revs0, revs) && revs1 <= revs && next1 <= next
    ensures forall x :: x in next ==> x in next1 || x in revs
    ensures forall x :: x in revs ==> x in revs1 || x in next
    ensures forall y :: y in Relatives(g, children, d, rid) && y != NullId ==> y in revs
    ensures next == next1 || g.parents.Keys - revs < g.parents.Keys - revs1
    ensures g.parents.Keys - revs <= g.parents.Keys - revs1
  {
    revs, next := revs1, next1;
    var relatives := Relatives(g, children, d, rid);
    for i := 0 to |relatives|
      invariant LoadOk(g, children, d, revs0, revs)
      invariant next1 <= next && revs1 <= revs
      invariant forall x :: x in next ==> x in next1 || x in revs
      invariant forall x :: x in revs ==> x in revs1 || x in next
      invariant forall k :: 0 <= k < i && relatives[k] != NullId ==> relatives[k] in revs
      invariant next == next1 || g.parents.Keys - revs < g.parents.Keys - revs1
      invariant g.parents.Keys - revs <= g.parents.Keys - revs1
    {
      var r := relatives[i];
      if r != NullId && r !in revs {
        RelativeBeyond(g, children, d, revs0, revs, rid, r);
        revs := revs + {r};
        next := next + [r];
      }
    }
  }

  method SetToSeq(s: set<Id>) returns (q: seq<Id>)
    ensures forall x :: x in q <==> x in s
  {
    q := [];
    var rest := s;
    while rest != {}
      invariant rest <= s
      invariant forall x :: x in q <==> x in s - rest
      decreases rest
    {
      var x :| x in rest;
      q, rest := q + [x], rest - {x};
    }
  }

  lemma RelativeBeyond(g: Graph, children: map<Id, seq<Id>>, d: Direction, revs0: set<Id>, revs: set<Id>, x: Id, r: Id)
    requires g.Valid() && ForwardOf(g, children) && LoadOk(g, children, d, revs0, revs)
    requires x in revs && r in Relatives(g, children, d, x) && r != NullId
    ensures LoadOk(g, children, d, revs0, revs + {r}) && r in g.parents
  {
    assert if d == Ancestors then g.Edge(r, x) else g.Edge(x, r);
    if d == Ancestors { EdgeIsAnc(g, r, x); } else { EdgeIsAnc(g, x, r); }
    if x in revs0 {
      assert Beyond(g, d, r, x);
    } else {
      var x0 :| x0 in revs0 && Beyond(g, d, x, x0);
      if d == Ancestors { AncTransitive(g, r, x, x0); } else { AncTransitive(g, x0, x, r); }
      assert Beyond(g, d, r, x0);
    }
  }

  /** A set closed in one direction holds everything but the root beyond its members. */
  lemma {:induction false} ClosedHolds(g: Graph, children: map<Id, seq<Id>>, d: Direction, s: set<Id>, x: Id, y: Id)
    requires g.Valid() && g.Rooted() && ForwardOf(g, children) && ClosedExcept(g, children, d, s, [])
    requires x in s && Beyond(g, d, y, x) && y != NullId
    ensures y in s
    decreases if x in g.height && y in g.height then
                (if g.height[x] < g.height[y] then g.height[y] - g.height[x] else g.height[x] - g.height[y]) else 0
  {
    if d == Ancestors {
      var p := AncLastStep(g, y, x);
      AncIsLower(g, y, x);
      if p == NullId { RootHasNoAncestor(g, y); }
      assert p in Relatives(g, children, d, x);
      if p != y {
        AncIsLower(g, y, p);
        ClosedHolds(g, children, d, s, p, y);
      }
    } else {
      var c := AncFirstStep(g, x, y);
      AncIsLower(g, x, y);
      if c == NullId { RootHasNoAncestor(g, x); EdgeIsAnc(g, x, c); }
      assert c in Relatives(g, children, d, x);
      if c != y {
        AncIsLower(g, c, y);
        ClosedHolds(g, children, d, s, c, y);
      }
    }
  }
}
