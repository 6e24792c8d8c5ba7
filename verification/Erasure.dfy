/** Erasing the candidates that fail a predicate and those related to a surviving one, with
    the graph walk pruned by height and interleaved with the predicate. */
module Erasure {
  import opened RevisionGraph
  import opened Closure

  // ---------- the pruned walk ----------

  /** On the near side of the pruning height: not below it when walking to ancestors, not
      above it when walking to descendants. */
  predicate InBound(g: Graph, d: Direction, bound: nat, x: Id) {
    x in g.height && if d == Ancestors then g.height[x] >= bound else g.height[x] <= bound
  }

  ghost function BeyondWithin(g: Graph, d: Direction, bound: nat, start: Id): set<Id> {
    set y | y in g.parents && InBound(g, d, bound, y) && Beyond(g, d, y, start)
  }

  /** Every relative within the bound of a member is a member, unless the member is still
      in the frontier. */
  ghost predicate ClosedWithin(g: Graph, children: map<Id, seq<Id>>, d: Direction, bound: nat,
                               members: set<Id>, s: set<Id>, frontier: seq<Id>) {
    forall x, y :: x in members && x !in frontier && y in Relatives(g, children, d, x) && InBound(g, d, bound, y)
              ==> y in s
  }

  /** Depth-first walk over `accumulate_strict_ancestors` and its dual: with `s0` closed, what
      is added is everything beyond `start` within the bound. */
  method Accumulate(g: Graph, children: map<Id, seq<Id>>, d: Direction, start: Id, s0: set<Id>, bound: nat)
    returns (s: set<Id>)
    requires g.Valid() && ForwardOf(g, children) && ClosedWithin(g, children, d, bound, s0, s0, [])
    ensures s == s0 + BeyondWithin(g, d, bound, start)
    ensures ClosedWithin(g, children, d, bound, s, s, [])
  {
    s := s0;
    var frontier := [start];
    ghost var target := BeyondWithin(g, d, bound, start);
    while frontier != []
      invariant s0 <= s <= s0 + target
      invariant forall x :: x in frontier ==> x == start || x in target
      invariant ClosedWithin(g, children, d, bound, s + {start}, s, frontier)
      decreases g.parents.Keys - s, |frontier|
    {
      var rid := frontier[|frontier| - 1];
      var rest := frontier[..|frontier| - 1];
      RelativesInTarget(g, children, d, start, rid, bound);
      ghost var s1 := s;
      s, rest := Visit(g, children, d, rid, s, rest, bound, target);
      VisitKeepsClosed(g, children, d, bound, start, s1, frontier, s, rest);
      frontier := rest;
    }
    forall y | y in target ensures y in s {
      ClosedWithinHolds(g, children, d, bound, s + {start}, s, start, y);
    }
  }

  /** The inner loop of the walk over the relatives of one revision. */
  method Visit(g: Graph, children: map<Id, seq<Id>>, d: Direction, rid: Id,
               s1: set<Id>, frontier1: seq<Id>, bound: nat, ghost target: set<Id>)
    returns (s: set<Id>, frontier: seq<Id>)
    requires target <= g.parents.Keys
    requires forall y :: y in Relatives(g, children, d, rid) && InBound(g, d, bound, y) ==> y in target
    ensures s1 <= s <= s1 + target && frontier1 <= frontier
    ensures forall x :: x in frontier ==> x in frontier1 || x in target
    ensures forall x :: x in s ==> x in s1 || x in frontier
    ensures forall y :: y in Relatives(g, children, d, rid) && InBound(g, d, bound, y) ==> y in s
    ensures frontier == frontier1 || g.parents.Keys - s < g.parents.Keys - s1
  {
    s, frontier := s1, frontier1;
    var relatives := Relatives(g, children, d, rid);
    for i := 0 to |relatives|
      invariant s1 <= s <= s1 + target && frontier1 <= frontier
      invariant forall x :: x in frontier ==> x in frontier1 || x in target
      invariant forall x :: x in s ==> x in s1 || x in frontier
      invariant forall k :: 0 <= k < i && InBound(g, d, bound, relatives[k]) ==> relatives[k] in s
      invariant frontier == frontier1 || g.parents.Keys - s < g.parents.Keys - s1
    {
      var r := relatives[i];
      if r !in s && InBound(g, d, bound, r) {
        assert r in target;
        s, frontier := s + {r}, frontier + [r];
      }
    }
  }

  lemma VisitKeepsClosed(g: Graph, children: map<Id, seq<Id>>, d: Direction, bound: nat, start: Id,
                         s1: set<Id>, frontier1: seq<Id>, s: set<Id>, frontier: seq<Id>)
    requires frontier1 != [] && ClosedWithin(g, children, d, bound, s1 + {start}, s1, frontier1)
    requires s1 <= s && frontier1[..|frontier1| - 1] <= frontier
    requires forall x :: x in s ==> x in s1 || x in frontier
    requires forall y :: y in Relatives(g, children, d, frontier1[|frontier1| - 1]) && InBound(g, d, bound, y) ==> y in s
    ensures ClosedWithin(g, children, d, bound, s + {start}, s, frontier)
  {
    assert frontier1 == frontier1[..|frontier1| - 1] + [frontier1[|frontier1| - 1]];
    forall x, y | x in s + {start} && x !in frontier && y in Relatives(g, children, d, x) && InBound(g, d, bound, y)
      ensures y in s
    {
      assert x in s1 + {start};
      if x in frontier1 {
        assert x == frontier1[|frontier1| - 1];
      }
    }
  }

  lemma RelativesInTarget(g: Graph, children: map<Id, seq<Id>>, d: Direction, start: Id, x: Id, bound: nat)
    requires g.Valid() && ForwardOf(g, children) && (x == start || x in BeyondWithin(g, d, bound, start))
    ensures forall y :: y in Relatives(g, children, d, x) && InBound(g, d, bound, y)
                   ==> y in BeyondWithin(g, d, bound, start)
  {
    forall y | y in Relatives(g, children, d, x) ensures Beyond(g, d, y, start) && y in g.parents {
      StepBeyond(g, children, d, start, x, y);
    }
  }

  lemma StepBeyond(g: Graph, children: map<Id, seq<Id>>, d: Direction, start: Id, x: Id, r: Id)
    requires g.Valid() && ForwardOf(g, children) && (x == start || Beyond(g, d, x, start))
    requires r in Relatives(g, children, d, x)
    ensures Beyond(g, d, r, start) && r in g.parents
  {
    assert if d == Ancestors then g.Edge(r, x) else g.Edge(x, r);
    if d == Ancestors {
      EdgeIsAnc(g, r, x);
      AncOrSelfTransitive(g, r, x, start);
    } else {
      EdgeIsAnc(g, x, r);
      AncOrSelfTransitive(g, start, x, r);
    }
  }

  /** Pruning loses nothing: the way to a revision within the bound stays within it. */
  lemma {:induction false} ClosedWithinHolds(g: Graph, children: map<Id, seq<Id>>, d: Direction, bound: nat,
                                             members: set<Id>, s: set<Id>, x: Id, y: Id)
    requires g.Valid() && ForwardOf(g, children)
    requires ClosedWithin(g, children, d, bound, members, s, []) && s <= members
    requires x in members && Beyond(g, d, y, x) && InBound(g, d, bound, y)
    ensures y in s
    decreases if x in g.height && y in g.height then
                (if g.height[x] < g.height[y] then g.height[y] - g.height[x] else g.height[x] - g.height[y]) else 0
  {
    var r;
    if d == Ancestors {
      r := AncLastStep(g, y, x);
      AncIsLower(g, y, x);
      if r != y { AncIsLower(g, y, r); }
    } else {
      r := AncFirstStep(g, x, y);
      AncIsLower(g, x, y);
      if r != y { AncIsLower(g, r, y); }
    }
    assert r in Relatives(g, children, d, x) && InBound(g, d, bound, r);
    if r != y {
      ClosedWithinHolds(g, children, d, bound, members, s, r, y);
    }
  }

  // ---------- the interleaved erasure ----------

  /** The candidates that pass and lie beyond no other passing candidate. */
  ghost predicate Survives(g: Graph, d: Direction, candidates: set<Id>, p: Id -> bool, c: Id) {
    c in candidates && !p(c) && forall e :: e in candidates && !p(e) ==> !Beyond(g, d, c, e)
  }

  method PruningHeight(g: Graph, d: Direction, candidates: set<Id>) returns (bound: nat)
    requires candidates != {} && candidates <= g.height.Keys
    ensures forall c :: c in candidates ==> InBound(g, d, bound, c)
    ensures exists c :: c in candidates && g.height[c] == bound
  {
    var c :| c in candidates;
    bound := g.height[c];
    var rest := candidates;
    while rest != {}
      invariant rest <= candidates
      invariant forall c :: c in candidates && c !in rest ==> InBound(g, d, bound, c)
      invariant exists c :: c in candidates && g.height[c] == bound
      decreases rest
    {
      var c :| c in rest;
      var h := g.height[c];
      if (if d == Ancestors then h < bound else h > bound) {
        bound := h;
      }
      rest := rest - {c};
    }
  }

  /** `all` is everything within the bound beyond a kept candidate, and every candidate taken
      off the list was kept, lies in `all`, or failed and was erased. */
  ghost predicate EraseOk(g: Graph, d: Direction, bound: nat, candidates: set<Id>, p: Id -> bool,
                          todo: seq<Id>, kept: set<Id>, left: set<Id>, all: set<Id>) {
    && left <= candidates
    && (forall k :: k in kept ==> k in candidates && !p(k))
    && (forall c :: c in candidates && c !in left ==> p(c))
    && (forall c :: c in candidates && c !in todo ==> c in kept || c in all || c !in left)
    && (forall a :: a in all ==> exists k :: k in kept && Beyond(g, d, a, k))
    && (forall a, k :: k in kept && Beyond(g, d, a, k) && InBound(g, d, bound, a) ==> a in all)
  }

  method EraseAndFail(g: Graph, children: map<Id, seq<Id>>, d: Direction, candidates0: set<Id>, p: Id -> bool,
                      shuffled: seq<Id>)
    returns (candidates: set<Id>)
    requires g.Valid() && ForwardOf(g, children) && candidates0 <= g.parents.Keys
    requires forall c :: c in shuffled <==> c in candidates0
    ensures forall c :: c in candidates <==> Survives(g, d, candidates0, p, c)
  {
    candidates := candidates0;
    if candidates == {} {
      return;
    }
    var all: set<Id> := {};
    var bound := PruningHeight(g, d, candidates);
    var todo := shuffled;
    ghost var kept: set<Id> := {};
    while todo != []
      invariant EraseOk(g, d, bound, candidates0, p, todo, kept, candidates, all)
      invariant forall c :: c in todo ==> c in candidates0
      invariant ClosedWithin(g, children, d, bound, all, all, [])
      decreases |todo|
    {
      var rid := todo[|todo| - 1];
      assert todo == todo[..|todo| - 1] + [rid];
      todo := todo[..|todo| - 1];
      if rid in all {
      } else if p(rid) {
        candidates := candidates - {rid};
      } else {
        ghost var all0 := all;
        all := Accumulate(g, children, d, rid, all, bound);
        KeepOne(g, d, bound, candidates0, p, todo, kept, candidates, all0, rid);
        kept := kept + {rid};
      }
    }
    EraseIsExact(g, d, bound, candidates0, p, kept, candidates, all);
    candidates := candidates - all;
  }

  lemma KeepOne(g: Graph, d: Direction, bound: nat, candidates: set<Id>, p: Id -> bool,
                todo: seq<Id>, kept: set<Id>, left: set<Id>, all: set<Id>, rid: Id)
    requires g.Valid() && EraseOk(g, d, bound, candidates, p, todo + [rid], kept, left, all)
    requires rid in candidates && !p(rid)
    ensures EraseOk(g, d, bound, candidates, p, todo, kept + {rid}, left, all + BeyondWithin(g, d, bound, rid))
  {
    var all' := all + BeyondWithin(g, d, bound, rid);
    forall a, k | k in kept + {rid} && Beyond(g, d, a, k) && InBound(g, d, bound, a) ensures a in all' {
    }
    forall a | a in all' ensures exists k :: k in kept + {rid} && Beyond(g, d, a, k) {
      if a in all {
        var k :| k in kept && Beyond(g, d, a, k);
        assert k in kept + {rid};
      } else {
        assert rid in kept + {rid} && Beyond(g, d, a, rid);
      }
    }
  }

  lemma EraseIsExact(g: Graph, d: Direction, bound: nat, candidates: set<Id>, p: Id -> bool,
                     kept: set<Id>, left: set<Id>, all: set<Id>)
    requires g.Valid() && EraseOk(g, d, bound, candidates, p, [], kept, left, all)
    requires forall c :: c in candidates ==> InBound(g, d, bound, c)
    ensures forall c :: c in left - all <==> Survives(g, d, candidates, p, c)
  {
    forall c | c in left - all ensures Survives(g, d, candidates, p, c) {
      forall e | e in candidates && !p(e) ensures !Beyond(g, d, c, e) {
        if Beyond(g, d, c, e) && e !in kept {
          var k :| k in kept && Beyond(g, d, e, k);
          if d == Ancestors { AncTransitive(g, c, e, k); } else { AncTransitive(g, k, e, c); }
          assert Beyond(g, d, c, k);
        }
      }
    }
    forall c | Survives(g, d, candidates, p, c) ensures c in left - all {
      assert c !in all;
    }
  }

  /** Keeps exactly the candidates that pass `p` and are a strict ancestor of no other passing
      candidate, whatever order the shuffle put them in. */
  method EraseAncestorsAndFailures(g: Graph, children: map<Id, seq<Id>>, candidates0: set<Id>, p: Id -> bool,
                                   shuffled: seq<Id>)
    returns (candidates: set<Id>)
    requires g.Valid() && ForwardOf(g, children) && candidates0 <= g.parents.Keys
    requires forall c :: c in shuffled <==> c in candidates0
    ensures forall c :: c in candidates <==>
              c in candidates0 && !p(c) && forall e :: e in candidates0 && !p(e) ==> !g.Anc(c, e)
  {
    candidates := EraseAndFail(g, children, Ancestors, candidates0, p, shuffled);
    assert forall c :: c in candidates <==> Survives(g, Ancestors, candidates0, p, c);
  }

  /** The dual: a survivor descends from no other passing candidate. */
  method EraseDescendantsAndFailures(g: Graph, children: map<Id, seq<Id>>, candidates0: set<Id>, p: Id -> bool,
                                     shuffled: seq<Id>)
    returns (candidates: set<Id>)
    requires g.Valid() && ForwardOf(g, children) && candidates0 <= g.parents.Keys
    requires forall c :: c in shuffled <==> c in candidates0
    ensures forall c :: c in candidates <==>
              c in candidates0 && !p(c) && forall e :: e in candidates0 && !p(e) ==> !g.Anc(e, c)
  {
    candidates := EraseAndFail(g, children, Descendants, candidates0, p, shuffled);
    assert forall c :: c in candidates <==> Survives(g, Descendants, candidates0, p, c);
  }
}
