/** Incremental cycle detection over a growing set of edges. */
module CycleDetector {
  import Ordered

  type Vertex = nat
  type Edges = seq<seq<Vertex>>

  // ---------- paths ----------

  predicate HasEdge(e: Edges, u: Vertex, v: Vertex) {
    u < |e| && v in e[u]
  }

  ghost predicate IsPath(e: Edges, p: seq<Vertex>) {
    p != [] && forall i, j :: 0 <= i < |p| - 1 && j == i + 1 ==> HasEdge(e, p[i], p[j])
  }

  ghost predicate PathBetween(e: Edges, p: seq<Vertex>, u: Vertex, v: Vertex) {
    IsPath(e, p) && p[0] == u && p[|p| - 1] == v
  }

  /** A path leads from `u` to `v`, possibly the empty one. */
  ghost predicate Reaches(e: Edges, u: Vertex, v: Vertex) {
    exists p :: PathBetween(e, p, u, v)
  }

  /** A path of at least one edge leads from `u` to `v`. */
  ghost predicate Leads(e: Edges, u: Vertex, v: Vertex) {
    exists p :: PathBetween(e, p, u, v) && |p| > 1
  }

  ghost predicate Acyclic(e: Edges) {
    forall v :: !Leads(e, v, v)
  }

  lemma ReachesSelf(e: Edges, u: Vertex)
    ensures Reaches(e, u, u)
  {
    assert PathBetween(e, [u], u, u);
  }

  lemma ReachesMore(e: Edges, u: Vertex, v: Vertex, w: Vertex)
    requires Reaches(e, u, v) && HasEdge(e, v, w)
    ensures Leads(e, u, w) && Reaches(e, u, w)
  {
    var p :| PathBetween(e, p, u, v);
    assert PathBetween(e, p + [w], u, w);
  }

  lemma {:induction false} ReachesBoth(e: Edges, u: Vertex, v: Vertex, w: Vertex, q: seq<Vertex>)
    requires Reaches(e, u, v) && PathBetween(e, q, v, w)
    ensures Reaches(e, u, w)
    decreases |q|
  {
    if |q| > 1 {
      var q' := q[..|q| - 1];
      assert PathBetween(e, q', v, q'[|q'| - 1]);
      ReachesBoth(e, u, v, q'[|q'| - 1], q');
      ReachesMore(e, u, q'[|q'| - 1], w);
    }
  }

  // ---------- inserting an edge ----------

  ghost predicate Inserted(e: Edges, e': Edges, s: Vertex, d: Vertex) {
    forall u, v {:trigger HasEdge(e', u, v)} :: HasEdge(e', u, v) <==> HasEdge(e, u, v) || (u == s && v == d)
  }

  /** A path over the old edges and the new one avoids the new one or passes through it. */
  lemma {:induction false} PathSplits(e: Edges, e': Edges, s: Vertex, d: Vertex, p: seq<Vertex>)
    requires Inserted(e, e', s, d) && IsPath(e', p) && |p| > 1
    ensures Leads(e, p[0], p[|p| - 1]) || (Reaches(e, p[0], s) && Reaches(e, d, p[|p| - 1]))
    decreases |p|
  {
    var u, x, v := p[0], p[|p| - 2], p[|p| - 1];
    assert HasEdge(e', x, v);
    ReachesSelf(e, u);
    ReachesSelf(e, d);
    var q := p[..|p| - 1];
    if |q| > 1 {
      assert IsPath(e', q) && q[|q| - 1] == x;
      PathSplits(e, e', s, d, q);
      if Leads(e, u, x) {
        LeadsReaches(e, u, x);
      }
    }
    if HasEdge(e, x, v) {
      if Reaches(e, u, x) {
        ReachesMore(e, u, x, v);
      } else {
        ReachesMore(e, d, x, v);
      }
    }
  }

  lemma LeadsReaches(e: Edges, u: Vertex, v: Vertex)
    requires Leads(e, u, v)
    ensures Reaches(e, u, v)
  {
    var p :| PathBetween(e, p, u, v) && |p| > 1;
  }

  lemma {:induction false} SamePath(e: Edges, e': Edges, s: Vertex, d: Vertex, u: Vertex, v: Vertex)
    requires Inserted(e, e', s, d) && Reaches(e, u, v)
    ensures Reaches(e', u, v)
  {
    var p :| PathBetween(e, p, u, v);
    assert PathBetween(e', p, u, v);
  }

  /** An acyclic graph stays acyclic exactly when no path leads from the head of the new edge back
      to its tail. */
  lemma InsertKeepsAcyclic(e: Edges, e': Edges, s: Vertex, d: Vertex)
    requires Acyclic(e) && Inserted(e, e', s, d)
    ensures Acyclic(e') <==> !Reaches(e, d, s)
  {
    if Reaches(e, d, s) {
      SamePath(e, e', s, d, d, s);
      ReachesMore(e', d, s, d);
    } else {
      forall v ensures !Leads(e', v, v) {
        if Leads(e', v, v) {
          var p :| PathBetween(e', p, v, v) && |p| > 1;
          PathSplits(e, e', s, d, p);
          var q :| PathBetween(e, q, v, s);
          ReachesBoth(e, d, v, s, q);
        }
      }
    }
  }

  // ---------- the search ----------

  /** The edge to `t` leads nowhere new. */
  predicate Handled(e: Edges, src: Vertex, visited: set<Vertex>, t: Vertex) {
    t != src && (t >= |e| || e[t] == [] || t in visited)
  }

  datatype Frame = Frame(vertex: Vertex, pos: nat)

  ghost predicate OnStack(stk: seq<Frame>, v: Vertex, k: nat) {
    exists f :: f in stk && f.vertex == v && f.pos <= k
  }

  /** Every edge out of a vertex seen so far is handled or still ahead of a frame. */
  ghost predicate Searching(e: Edges, src: Vertex, dst: Vertex, visited: set<Vertex>, stk: seq<Frame>) {
    && (forall f :: f in stk ==> (f.vertex in visited || f.vertex == dst) && f.vertex < |e| && f.pos <= |e[f.vertex]|)
    && (forall v :: v in visited ==> v < |e| && Reaches(e, dst, v))
    && (forall v: Vertex, k: nat {:trigger OnStack(stk, v, k)} :: (v in visited || v == dst) && v < |e| && k < |e[v]| ==>
          OnStack(stk, v, k) || Handled(e, src, visited, e[v][k]))
  }

  /** When nothing is left to search, no path leads to the source. */
  lemma {:induction false} NothingFound(e: Edges, src: Vertex, dst: Vertex, visited: set<Vertex>, p: seq<Vertex>)
    requires Searching(e, src, dst, visited, []) && src != dst && IsPath(e, p) && p[0] == dst
    ensures p[|p| - 1] != src
    ensures p[|p| - 1] in visited || p[|p| - 1] == dst || p[|p| - 1] >= |e| || e[p[|p| - 1]] == []
    decreases |p|
  {
    if |p| > 1 {
      var q := p[..|p| - 1];
      NothingFound(e, src, dst, visited, q);
      var x, v := p[|p| - 2], p[|p| - 1];
      assert HasEdge(e, x, v);
      var k :| 0 <= k < |e[x]| && e[x][k] == v;
      assert !OnStack([], x, k);
    }
  }

  /** The edge under the top frame is handled: the frame moves on. */
  lemma MoveOn(e: Edges, src: Vertex, dst: Vertex, visited: set<Vertex>, base: seq<Frame>, f: Frame)
    requires Searching(e, src, dst, visited, base + [f]) && f.vertex < |e| && f.pos < |e[f.vertex]|
    requires Handled(e, src, visited, e[f.vertex][f.pos])
    ensures Searching(e, src, dst, visited, base + [f.(pos := f.pos + 1)])
  {
    var stk, stk' := base + [f], base + [f.(pos := f.pos + 1)];
    forall g | g in stk' ensures (g.vertex in visited || g.vertex == dst) && g.vertex < |e| && g.pos <= |e[g.vertex]| {
      assert f in stk;
      assert g in base ==> g in stk;
    }
    forall v: Vertex, k: nat | (v in visited || v == dst) && v < |e| && k < |e[v]|
      ensures OnStack(stk', v, k) || Handled(e, src, visited, e[v][k])
    {
      if OnStack(stk, v, k) && !Handled(e, src, visited, e[v][k]) {
        var g :| g in stk && g.vertex == v && g.pos <= k;
        assert g in base || g == f;
        var g' := if g in base then g else f.(pos := f.pos + 1);
        assert g' in stk';
      }
    }
  }

  /** A new vertex is entered. */
  lemma Enter(e: Edges, src: Vertex, dst: Vertex, visited: set<Vertex>, base: seq<Frame>, f: Frame)
    requires Searching(e, src, dst, visited, base + [f]) && f.vertex < |e| && f.pos < |e[f.vertex]|
    requires e[f.vertex][f.pos] != src && e[f.vertex][f.pos] < |e|
    ensures var t := e[f.vertex][f.pos];
      Searching(e, src, dst, visited + {t}, base + [f.(pos := f.pos + 1)] + [Frame(t, 0)])
  {
    var t := e[f.vertex][f.pos];
    var visited', stk' := visited + {t}, base + [f] + [Frame(t, 0)];
    assert f in base + [f] && HasEdge(e, f.vertex, t);
    ReachesSelf(e, dst);
    ReachesMore(e, dst, f.vertex, t);
    forall v: Vertex, k: nat | (v in visited' || v == dst) && v < |e| && k < |e[v]|
      ensures OnStack(stk', v, k) || Handled(e, src, visited', e[v][k])
    {
      if v == t {
        assert Frame(t, 0) in stk';
      } else if OnStack(base + [f], v, k) {
        var g :| g in base + [f] && g.vertex == v && g.pos <= k;
        assert g in stk';
      }
    }
    assert Searching(e, src, dst, visited', stk');
    Swap(e, src, dst, visited', base, f, Frame(t, 0));
  }

  /** The same with the frame below moved on first. */
  lemma Swap(e: Edges, src: Vertex, dst: Vertex, visited: set<Vertex>, base: seq<Frame>, f: Frame, top: Frame)
    requires Searching(e, src, dst, visited, base + [f] + [top]) && f.vertex < |e| && f.pos < |e[f.vertex]|
    requires Handled(e, src, visited, e[f.vertex][f.pos])
    ensures Searching(e, src, dst, visited, base + [f.(pos := f.pos + 1)] + [top])
  {
    var f' := f.(pos := f.pos + 1);
    Reorder(e, src, dst, visited, base + [f] + [top], base + [top] + [f]);
    MoveOn(e, src, dst, visited, base + [top], f);
    Reorder(e, src, dst, visited, base + [top] + [f'], base + [f'] + [top]);
  }

  lemma Reorder(e: Edges, src: Vertex, dst: Vertex, visited: set<Vertex>, a: seq<Frame>, b: seq<Frame>)
    requires Searching(e, src, dst, visited, a) && forall f :: f in a <==> f in b
    ensures Searching(e, src, dst, visited, b)
  {
    forall v: Vertex, k: nat | OnStack(a, v, k) ensures OnStack(b, v, k) {
      var f :| f in a && f.vertex == v && f.pos <= k;
      assert f in b;
    }
  }

  /** A finished frame is popped. */
  lemma Leave(e: Edges, src: Vertex, dst: Vertex, visited: set<Vertex>, base: seq<Frame>, f: Frame)
    requires Searching(e, src, dst, visited, base + [f]) && f.vertex < |e| && f.pos == |e[f.vertex]|
    ensures Searching(e, src, dst, visited, base)
  {
    forall g | g in base ensures g in base + [f] {
    }
    forall v: Vertex, k: nat | (v in visited || v == dst) && v < |e| && k < |e[v]|
      ensures OnStack(base, v, k) || Handled(e, src, visited, e[v][k])
    {
      if OnStack(base + [f], v, k) {
        var g :| g in base + [f] && g.vertex == v && g.pos <= k;
        assert g in base;
      }
    }
  }

  class Detector {
    var edges: Edges
    var inEdges: set<Vertex>
    var stk: seq<Frame>

    constructor ()
      ensures Valid() && Acyclic(edges)
    {
      edges, inEdges, stk := [], {}, [];
      new;
      forall v ensures !Leads(edges, v, v) {
        forall p | PathBetween(edges, p, v, v) ensures |p| <= 1 {
          assert |p| > 1 ==> HasEdge(edges, p[0], p[1]);
        }
      }
    }

    /** `global_in_edges` holds the heads of all edges. */
    ghost predicate Valid()
      reads this
    {
      forall u, v {:trigger HasEdge(edges, u, v)} :: HasEdge(edges, u, v) ==> v in inEdges
    }

    /** `put_edge`. */
    method PutEdge(src: Vertex, dst: Vertex)
      requires Valid()
      modifies this`edges, this`inEdges
      ensures Valid() && Inserted(old(edges), edges, src, dst)
    {
      if src >= |edges| {
        edges := edges + seq(src + 1 - |edges|, _ => []);
      }
      assert forall u, v {:trigger HasEdge(edges, u, v)} :: HasEdge(edges, u, v) <==> HasEdge(old(edges), u, v);
      var srcEdges := edges[src];
      for i := 0 to |srcEdges|
        invariant dst !in srcEdges[..i]
      {
        if srcEdges[i] == dst {
          return;
        }
      }
      ghost var before := edges;
      edges := edges[src := srcEdges + [dst]];
      inEdges := inEdges + {dst};
      assert forall u, v {:trigger HasEdge(edges, u, v)} :: HasEdge(edges, u, v) <==> HasEdge(before, u, v) || (u == src && v == dst);
    }

    /** One run over the edges under the top frame, until a vertex is entered. */
    method Scan(src: Vertex, ghost dst: Vertex, visited: set<Vertex>) returns (found: bool, pushed: bool, visited': set<Vertex>)
      requires Searching(edges, src, dst, visited, stk) && stk != []
      modifies this`stk
      ensures found ==> Reaches(edges, dst, src)
      ensures !found ==> Searching(edges, src, dst, visited', stk)
      ensures !found && pushed ==> |visited'| == |visited| + 1
      ensures !found && !pushed ==> visited' == visited && |stk| == |old(stk)|
      ensures !found && !pushed ==> var f := stk[|stk| - 1]; f.vertex < |edges| && f.pos == |edges[f.vertex]|
    {
      visited', pushed := visited, false;
      var base, f := stk[..|stk| - 1], stk[|stk| - 1];
      assert stk == base + [f] && f in stk;
      while f.pos != |edges[f.vertex]| && !pushed
        invariant f.vertex < |edges| && f.pos <= |edges[f.vertex]|
        invariant !pushed ==> visited' == visited && stk == base + [f] && Searching(edges, src, dst, visited, stk)
        invariant pushed ==> |visited'| == |visited| + 1 && Searching(edges, src, dst, visited', stk)
        decreases |edges[f.vertex]| - f.pos
      {
        var val := edges[f.vertex][f.pos];
        if val == src {
          ReachesSelf(edges, dst);
          assert f in stk && HasEdge(edges, f.vertex, val);
          ReachesMore(edges, dst, f.vertex, val);
          return true, pushed, visited';
        }
        if val < |edges| && edges[val] != [] && val !in visited {
          Enter(edges, src, dst, visited, base, f);
          visited' := visited + {val};
          stk := base + [f.(pos := f.pos + 1)] + [Frame(val, 0)];
          pushed := true;
        } else {
          MoveOn(edges, src, dst, visited, base, f);
          stk := base + [f.(pos := f.pos + 1)];
        }
        f := f.(pos := f.pos + 1);
      }
      found := false;
    }

    /** `edge_makes_cycle`: true exactly when a path leads from `dst` to `src`. */
    method EdgeMakesCycle(src: Vertex, dst: Vertex) returns (cycle: bool)
      requires Valid()
      modifies this`stk
      ensures cycle == Reaches(edges, dst, src)
    {
      if src == dst {
        ReachesSelf(edges, src);
        return true;
      }
      if dst >= |edges| || edges[dst] == [] {
        NoWayOut(edges, dst, src);
        return false;
      }
      if src !in inEdges {
        NoWayIn(dst, src);
        return false;
      }
      stk := [Frame(dst, 0)];
      var visited: set<Vertex> := {};
      assert Frame(dst, 0) in stk;
      while stk != []
        invariant Searching(edges, src, dst, visited, stk)
        decreases |edges| - |visited|, |stk|
      {
        var found, pushed;
        Ordered.BoundedSize(visited, |edges|);
        found, pushed, visited := Scan(src, dst, visited);
        if found {
          return true;
        }
        Ordered.BoundedSize(visited, |edges|);
        if !pushed {
          assert stk == stk[..|stk| - 1] + [stk[|stk| - 1]];
          Leave(edges, src, dst, visited, stk[..|stk| - 1], stk[|stk| - 1]);
          stk := stk[..|stk| - 1];
        }
      }
      forall p ensures !PathBetween(edges, p, dst, src) {
        if IsPath(edges, p) && p[0] == dst {
          NothingFound(edges, src, dst, visited, p);
        }
      }
      return false;
    }

    lemma NoWayIn(dst: Vertex, src: Vertex)
      requires Valid() && src !in inEdges && src != dst
      ensures !Reaches(edges, dst, src)
    {
      forall p ensures !PathBetween(edges, p, dst, src) {
        if IsPath(edges, p) && |p| > 1 {
          assert HasEdge(edges, p[|p| - 2], p[|p| - 1]);
        }
      }
    }

    /** Inserting only edges that make no cycle keeps the graph acyclic for ever, and refuses no
        edge that could be inserted. */
    method Add(src: Vertex, dst: Vertex) returns (added: bool)
      requires Valid() && Acyclic(edges)
      modifies this
      ensures Valid() && Acyclic(edges)
      ensures added ==> Inserted(old(edges), edges, src, dst)
      ensures !added ==> edges == old(edges) && forall e :: Inserted(edges, e, src, dst) ==> !Acyclic(e)
    {
      var cycle := EdgeMakesCycle(src, dst);
      if cycle {
        forall e | Inserted(edges, e, src, dst) ensures !Acyclic(e) {
          InsertKeepsAcyclic(edges, e, src, dst);
        }
        return false;
      }
      ghost var before := edges;
      PutEdge(src, dst);
      InsertKeepsAcyclic(before, edges, src, dst);
      return true;
    }
  }

  lemma NoWayOut(e: Edges, dst: Vertex, src: Vertex)
    requires (dst >= |e| || e[dst] == []) && src != dst
    ensures !Reaches(e, dst, src)
  {
    forall p ensures !PathBetween(e, p, dst, src) {
      if IsPath(e, p) && |p| > 1 {
        assert HasEdge(e, p[0], p[1]);
      }
    }
  }
}
