/** The frontier walk of `log`, unrestricted: backwards over parents or forwards over
    children, taken from a priority queue ordered by height. */
module LogWalk {
  import opened RevisionGraph
  import opened Closure

  /** `x` is printed before `y`: greater height first backwards, smaller height first forwards. */
  predicate Before(g: Graph, d: Direction, x: Id, y: Id) {
    x in g.height && y in g.height && if d == Ancestors then g.height[x] > g.height[y] else g.height[x] < g.height[y]
  }

  /** The revisions `--to` stops at: the given ones and everything beyond them. */
  ghost predicate Ends(g: Graph, d: Direction, to: set<Id>, x: Id) {
    x in to || (x != NullId && exists t :: t in to && Beyond(g, d, x, t))
  }

  /** What the log is to show: the starting revisions, and everything beyond one of them that
      is not beyond an end; never the null id. */
  ghost predicate Shown(g: Graph, d: Direction, starting: set<Id>, to: set<Id>, x: Id) {
    && x != NullId
    && (x in starting || (!Ends(g, d, to, x) && exists s :: s in starting && s != NullId && Beyond(g, d, x, s)))
  }

  /** Position of the top of the queue: no other entry comes before it. */
  method Top(g: Graph, d: Direction, frontier: seq<Id>) returns (k: nat)
    requires frontier != [] && forall x :: x in frontier ==> x in g.height
    ensures k < |frontier| && forall x :: x in frontier ==> !Before(g, d, x, frontier[k])
  {
    k := 0;
    for i := 1 to |frontier|
      invariant k < |frontier|
      invariant forall j :: 0 <= j < i ==> !Before(g, d, frontier[j], frontier[k])
    {
      if Before(g, d, frontier[i], frontier[k]) {
        k := i;
      }
    }
  }

  /** `f` is an entry still to be visited from which `v` can be reached. */
  ghost predicate Leads(g: Graph, d: Direction, frontier: seq<Id>, seen: set<Id>, f: Id, v: Id) {
    f in frontier && f != NullId && f !in seen && (v == f || Beyond(g, d, v, f))
  }

  ghost predicate Pending(g: Graph, d: Direction, frontier: seq<Id>, seen: set<Id>, v: Id) {
    exists f :: Leads(g, d, frontier, seen, f, v)
  }

  ghost predicate Covered(g: Graph, d: Direction, shown: set<Id>, frontier: seq<Id>, seen: set<Id>) {
    forall v {:trigger Pending(g, d, frontier, seen, v)} :: v in shown && v !in seen ==> Pending(g, d, frontier, seen, v)
  }

  ghost predicate FrontierOk(g: Graph, d: Direction, starting: set<Id>, shown: set<Id>, frontier: seq<Id>, seen: set<Id>) {
    && (forall x :: x in frontier ==> x in g.parents && (x == NullId || x in shown))
    && seen <= shown <= g.parents.Keys
    && (forall x, y :: x in seen && y in frontier ==> !Before(g, d, y, x))
    && (forall s :: s in starting && s != NullId ==> s in seen || s in frontier)
  }

  ghost predicate Printed(g: Graph, d: Direction, visited: seq<Id>, seen: set<Id>) {
    && (forall x :: x in visited <==> x in seen)
    && forall i, j :: 0 <= i < j < |visited| ==> Before(g, d, visited[i], visited[j])
  }

  ghost function ShownSet(g: Graph, d: Direction, starting: set<Id>, to: set<Id>): set<Id> {
    set x | x in g.parents && Shown(g, d, starting, to, x)
  }

  /** Prints the shown revisions each once in the order of their heights; a limit cuts that
      order short, and only a limit does. */
  method Walk(g: Graph, children: map<Id, seq<Id>>, d: Direction, starting: set<Id>, to: set<Id>, limit: int)
    returns (visited: seq<Id>)
    requires g.Valid() && g.Rooted() && g.UniqueHeights() && ForwardOf(g, children)
    requires starting <= g.parents.Keys && to <= g.parents.Keys && NullId !in to
    ensures forall x :: x in visited ==> Shown(g, d, starting, to, x)
    ensures forall i, j :: 0 <= i < j < |visited| ==> Before(g, d, visited[i], visited[j])
    ensures forall x, v :: x in visited && Shown(g, d, starting, to, v) && v !in visited ==> Before(g, d, x, v)
    ensures limit >= 0 ==> |visited| <= limit
    ensures limit < 0 || |visited| < limit ==> forall v :: Shown(g, d, starting, to, v) ==> v in visited
    ensures limit < 0 && d == Ancestors ==> forall x :: x in visited <==>
      x != NullId && (x in starting || ((exists s :: s in starting && g.Anc(x, s)) && forall t :: t in to ==> !g.AncOrSelf(x, t)))
    ensures limit < 0 && d == Descendants ==> forall x :: x in visited <==>
      x != NullId && (x in starting || ((exists s :: s in starting && s != NullId && g.Anc(s, x)) && forall t :: t in to ==> !g.AncOrSelf(t, x)))
  {
    ghost var shown := ShownSet(g, d, starting, to);
    ShownInGraph(g, d, starting, to);
    var rest;
    visited, rest := WalkTo(g, children, d, starting, to, limit, shown);
    assert forall v :: Shown(g, d, starting, to, v) <==> v in shown;
    ShownIs(g, d, starting, to);
  }

  /** What is shown, in terms of ancestors. */
  lemma ShownIs(g: Graph, d: Direction, starting: set<Id>, to: set<Id>)
    requires g.Rooted()
    ensures d == Ancestors ==> forall x :: Shown(g, d, starting, to, x) <==>
      x != NullId && (x in starting || ((exists s :: s in starting && g.Anc(x, s)) && forall t :: t in to ==> !g.AncOrSelf(x, t)))
    ensures d == Descendants ==> forall x :: Shown(g, d, starting, to, x) <==>
      x != NullId && (x in starting || ((exists s :: s in starting && s != NullId && g.Anc(s, x)) && forall t :: t in to ==> !g.AncOrSelf(t, x)))
  {
    if d == Ancestors {
      forall x ensures Shown(g, d, starting, to, x) <==>
        x != NullId && (x in starting || ((exists s :: s in starting && g.Anc(x, s)) && forall t :: t in to ==> !g.AncOrSelf(x, t)))
      {
        RootHasNoAncestor(g, x);
        assert forall s :: Beyond(g, d, x, s) <==> g.Anc(x, s);
      }
    } else {
      forall x ensures Shown(g, d, starting, to, x) <==>
        x != NullId && (x in starting || ((exists s :: s in starting && s != NullId && g.Anc(s, x)) && forall t :: t in to ==> !g.AncOrSelf(t, x)))
      {
        assert forall s :: Beyond(g, d, x, s) <==> g.Anc(s, x);
      }
    }
  }

  lemma ShownInGraph(g: Graph, d: Direction, starting: set<Id>, to: set<Id>)
    requires g.Valid() && starting <= g.parents.Keys
    ensures forall x :: Shown(g, d, starting, to, x) <==> x in ShownSet(g, d, starting, to)
  {
    forall x | Shown(g, d, starting, to, x) ensures x in g.parents {
      if x !in starting {
        var s :| s in starting && s != NullId && Beyond(g, d, x, s);
        BeyondIsAfter(g, d, x, s);
      }
    }
  }

  method WalkTo(g: Graph, children: map<Id, seq<Id>>, d: Direction, starting: set<Id>, to: set<Id>, limit: int,
                ghost shown: set<Id>)
    returns (visited: seq<Id>, seen: set<Id>)
    requires g.Valid() && g.Rooted() && g.UniqueHeights() && ForwardOf(g, children)
    requires starting <= g.parents.Keys && to <= g.parents.Keys && NullId !in to
    requires shown == ShownSet(g, d, starting, to)
    ensures Printed(g, d, visited, seen) && seen <= shown
    ensures forall x, v :: x in seen && v in shown && v !in seen ==> Before(g, d, x, v)
    ensures limit >= 0 ==> |visited| <= limit
    ensures limit < 0 || |visited| < limit ==> seen == shown
  {
    var ending := {};
    if to != {} {
      var ok;
      ok, ending := LoadRevs(g, children, d, to);
    }
    assert forall x :: x in ending <==> Ends(g, d, to, x);
    var frontier := SetToSeq(starting);
    var left := limit;
    visited, seen := [], {};
    StartOk(g, d, starting, to, frontier);
    while frontier != [] && left != 0
      invariant FrontierOk(g, d, starting, shown, frontier, seen)
      invariant Covered(g, d, shown, frontier, seen)
      invariant Printed(g, d, visited, seen)
      invariant if limit < 0 then left == limit else left == limit - |visited| >= 0
      decreases g.parents.Keys - seen, |frontier|
    {
      var k := Top(g, d, frontier);
      var rid := frontier[k];
      var rest := frontier[..k] + frontier[k + 1..];
      WithoutOne(frontier, k);
      if rid == NullId || rid in seen {
        SkipCovers(g, d, shown, frontier, rest, seen, rid);
        frontier := rest;
      } else {
        var next := Push(rest, Relatives(g, children, d, rid), ending);
        NewIsLast(g, d, frontier, seen, visited, rid);
        VisitCovers(g, children, d, starting, to, shown, frontier, next, seen, rid);
        VisitFrontier(g, children, d, starting, to, shown, frontier, next, seen, rid);
        frontier, seen, visited := next, seen + {rid}, visited + [rid];
        left := if left > 0 then left - 1 else left;
      }
    }
    LeftOver(g, d, starting, shown, frontier, seen);
  }

  /** Queue the interesting revisions outside the ending set. */
  method Push(rest: seq<Id>, interesting: seq<Id>, ending: set<Id>) returns (next: seq<Id>)
    ensures forall x :: x in next <==> x in rest || (x in interesting && x !in ending)
  {
    next := rest;
    for i := 0 to |interesting|
      invariant forall x :: x in next <==> x in rest || (x in interesting[..i] && x !in ending)
    {
      assert interesting[..i + 1] == interesting[..i] + [interesting[i]];
      if interesting[i] !in ending {
        next := next + [interesting[i]];
      }
    }
    assert interesting[..|interesting|] == interesting;
  }

  lemma StartOk(g: Graph, d: Direction, starting: set<Id>, to: set<Id>, frontier: seq<Id>)
    requires g.Valid() && starting <= g.parents.Keys && forall x :: x in frontier <==> x in starting
    ensures FrontierOk(g, d, starting, ShownSet(g, d, starting, to), frontier, {})
    ensures Covered(g, d, ShownSet(g, d, starting, to), frontier, {})
  {
    forall v | v in ShownSet(g, d, starting, to) ensures Pending(g, d, frontier, {}, v) {
      if v in starting {
        assert Leads(g, d, frontier, {}, v, v);
      } else {
        var s :| s in starting && s != NullId && Beyond(g, d, v, s);
        assert Leads(g, d, frontier, {}, s, v);
      }
    }
  }

  lemma WithoutOne(q: seq<Id>, k: nat)
    requires k < |q|
    ensures forall x :: x in q <==> x == q[k] || x in q[..k] + q[k + 1..]
  {
    assert q == q[..k] + [q[k]] + q[k + 1..];
  }

  lemma SkipCovers(g: Graph, d: Direction, shown: set<Id>, frontier: seq<Id>, rest: seq<Id>, seen: set<Id>, rid: Id)
    requires Covered(g, d, shown, frontier, seen)
    requires forall x :: x in frontier <==> x == rid || x in rest
    requires rid == NullId || rid in seen
    ensures Covered(g, d, shown, rest, seen)
  {
    forall v | v in shown && v !in seen ensures Pending(g, d, rest, seen, v) {
      assert Pending(g, d, frontier, seen, v);
      var f :| Leads(g, d, frontier, seen, f, v);
      assert Leads(g, d, rest, seen, f, v);
    }
  }

  /** What comes off the top comes after everything printed. */
  lemma NewIsLast(g: Graph, d: Direction, frontier: seq<Id>, seen: set<Id>, visited: seq<Id>, rid: Id)
    requires g.Valid() && g.UniqueHeights() && Printed(g, d, visited, seen) && seen <= g.parents.Keys
    requires rid in frontier && rid in g.parents && rid !in seen
    requires forall x, y :: x in seen && y in frontier ==> !Before(g, d, y, x)
    ensures Printed(g, d, visited + [rid], seen + {rid})
  {
    forall i | 0 <= i < |visited| ensures Before(g, d, visited[i], rid) {
      assert visited[i] in visited;
    }
  }

  lemma StepTowards(g: Graph, children: map<Id, seq<Id>>, d: Direction, v: Id, f: Id) returns (r: Id)
    requires g.Valid() && ForwardOf(g, children) && Beyond(g, d, v, f)
    ensures r in Relatives(g, children, d, f) && (v == r || Beyond(g, d, v, r)) && Before(g, d, f, r)
  {
    if d == Ancestors {
      r := AncLastStep(g, v, f);
      EdgeIsAnc(g, r, f);
      AncIsLower(g, r, f);
    } else {
      r := AncFirstStep(g, f, v);
      EdgeIsAnc(g, f, r);
      AncIsLower(g, f, r);
    }
  }

  /** What lies beyond an end, other than the root, ends the walk too. */
  lemma EndsBeyond(g: Graph, d: Direction, to: set<Id>, r: Id, v: Id)
    requires g.Rooted() && Ends(g, d, to, r) && Beyond(g, d, v, r) && v != NullId
    ensures Ends(g, d, to, v)
  {
    if r !in to {
      var t :| t in to && Beyond(g, d, r, t);
      if d == Ancestors { AncTransitive(g, v, r, t); } else { AncTransitive(g, t, r, v); }
      assert Beyond(g, d, v, t);
    }
  }

  lemma VisitCovers(g: Graph, children: map<Id, seq<Id>>, d: Direction, starting: set<Id>, to: set<Id>, shown: set<Id>,
                    frontier: seq<Id>, next: seq<Id>, seen: set<Id>, rid: Id)
    requires g.Valid() && g.Rooted() && ForwardOf(g, children)
    requires shown == ShownSet(g, d, starting, to)
    requires FrontierOk(g, d, starting, shown, frontier, seen) && Covered(g, d, shown, frontier, seen)
    requires rid in frontier && rid != NullId && rid !in seen
    requires forall x :: x in frontier && x != rid ==> x in next
    requires forall x :: x in Relatives(g, children, d, rid) && !Ends(g, d, to, x) ==> x in next
    ensures Covered(g, d, shown, next, seen + {rid})
  {
    forall v | v in shown && v !in seen + {rid} ensures Pending(g, d, next, seen + {rid}, v) {
      assert Pending(g, d, frontier, seen, v);
      var f :| Leads(g, d, frontier, seen, f, v);
      if v in starting {
        assert Leads(g, d, next, seen + {rid}, v, v);
      } else if f != rid {
        assert Leads(g, d, next, seen + {rid}, f, v);
      } else {
        var r := StepTowards(g, children, d, v, rid);
        StepIsOpen(g, d, to, v, r);
        assert r !in seen + {rid};
        assert Leads(g, d, next, seen + {rid}, r, v);
      }
    }
  }

  lemma StepIsOpen(g: Graph, d: Direction, to: set<Id>, v: Id, r: Id)
    requires g.Rooted() && v != NullId && !Ends(g, d, to, v) && (v == r || Beyond(g, d, v, r))
    requires d == Descendants ==> exists p :: g.Edge(p, r)
    ensures !Ends(g, d, to, r) && r != NullId
  {
    if v != r {
      if Ends(g, d, to, r) {
        EndsBeyond(g, d, to, r, v);
      }
      if d == Ancestors {
        RootHasNoAncestor(g, v);
      }
    }
  }

  lemma VisitFrontier(g: Graph, children: map<Id, seq<Id>>, d: Direction, starting: set<Id>, to: set<Id>, shown: set<Id>,
                      frontier: seq<Id>, next: seq<Id>, seen: set<Id>, rid: Id)
    requires g.Valid() && ForwardOf(g, children)
    requires shown == ShownSet(g, d, starting, to)
    requires FrontierOk(g, d, starting, shown, frontier, seen)
    requires rid in frontier && rid != NullId && rid !in seen
    requires forall x :: x in frontier ==> !Before(g, d, x, rid)
    requires forall x :: x in frontier && x != rid ==> x in next
    requires forall x :: x in next ==> x in frontier || (x in Relatives(g, children, d, rid) && !Ends(g, d, to, x))
    ensures FrontierOk(g, d, starting, shown, next, seen + {rid})
  {
    forall x | x in next && x !in frontier
      ensures x in g.parents && (x == NullId || x in shown) && Before(g, d, rid, x)
    {
      RelativeIsBeyond(g, children, d, x, rid);
      RelativeIsShown(g, d, starting, to, rid, x);
    }
  }

  lemma RelativeIsBeyond(g: Graph, children: map<Id, seq<Id>>, d: Direction, x: Id, rid: Id)
    requires g.Valid() && ForwardOf(g, children) && x in Relatives(g, children, d, rid)
    ensures Beyond(g, d, x, rid) && Before(g, d, rid, x)
  {
    assert if d == Ancestors then g.Edge(x, rid) else g.Edge(rid, x);
    if d == Ancestors { EdgeIsAnc(g, x, rid); } else { EdgeIsAnc(g, rid, x); }
    BeyondIsAfter(g, d, x, rid);
  }

  lemma RelativeIsShown(g: Graph, d: Direction, starting: set<Id>, to: set<Id>, rid: Id, x: Id)
    requires Shown(g, d, starting, to, rid) && Beyond(g, d, x, rid) && !Ends(g, d, to, x)
    ensures x == NullId || Shown(g, d, starting, to, x)
  {
    if rid !in starting {
      var s :| s in starting && s != NullId && Beyond(g, d, rid, s);
      if d == Ancestors { AncTransitive(g, x, rid, s); } else { AncTransitive(g, s, rid, x); }
      assert Beyond(g, d, x, s);
    }
  }

  lemma LeftOver(g: Graph, d: Direction, starting: set<Id>, shown: set<Id>, frontier: seq<Id>, seen: set<Id>)
    requires g.Valid() && g.UniqueHeights()
    requires FrontierOk(g, d, starting, shown, frontier, seen) && Covered(g, d, shown, frontier, seen)
    ensures forall x, v :: x in seen && v in shown && v !in seen ==> Before(g, d, x, v)
    ensures frontier == [] ==> seen == shown
  {
    forall x, v | x in seen && v in shown && v !in seen ensures Before(g, d, x, v) {
      assert Pending(g, d, frontier, seen, v);
      var f :| Leads(g, d, frontier, seen, f, v);
      assert !Before(g, d, f, x);
      assert Before(g, d, x, f);
      if v != f {
        BeyondIsAfter(g, d, v, f);
      }
    }
    if frontier == [] {
      forall v | v in shown ensures v in seen {
        assert !Pending(g, d, frontier, seen, v);
      }
    }
  }

  lemma BeyondIsAfter(g: Graph, d: Direction, v: Id, f: Id)
    requires g.Valid() && Beyond(g, d, v, f)
    ensures Before(g, d, f, v)
  {
    if d == Ancestors { AncIsLower(g, v, f); } else { AncIsLower(g, f, v); }
  }
}
