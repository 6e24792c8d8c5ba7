/** The revision graph as the database serves it: every revision's parents and its height.
    All the graph algorithms of the project work on this value. */
module RevisionGraph {

  type Id = nat

  /** The imaginary root: the single revision without parents. */
  const NullId: Id := 0

  /** `parents` is the reverse ancestry multimap, from a child to its parents in the order
      in which the multimap lists them. */
  datatype Graph = Graph(parents: map<Id, seq<Id>>, height: map<Id, nat>) {

    /** `equal_range` on the reverse multimap: nothing for an id it does not hold. */
    function ParentsOf(x: Id): seq<Id> {
      if x in parents then parents[x] else []
    }

    function HeightOf(x: Id): nat {
      if x in height then height[x] else 0
    }

    predicate Edge(p: Id, c: Id) {
      p in ParentsOf(c)
    }

    /** What `db check` demands of an edge: both ends have a height, the child's strictly
        greater. */
    ghost predicate Valid() {
      && parents.Keys == height.Keys
      && forall p, c :: Edge(p, c) ==> p in parents && c in parents && height[p] < height[c]
    }

    /** The null id is the one revision without parents. */
    ghost predicate Rooted() {
      NullId in parents && forall x :: x in parents ==> (x == NullId <==> parents[x] == [])
    }

    ghost predicate UniqueHeights() {
      forall x, y :: x in height && y in height && height[x] == height[y] ==> x == y
    }

    /** Every element is a parent of the next one. */
    ghost predicate Chain(s: seq<Id>) {
      forall i, j :: 0 <= i < j < |s| && j == i + 1 ==> Edge(s[i], s[j])
    }

    ghost predicate IsPath(s: seq<Id>, a: Id, x: Id) {
      |s| >= 2 && s[0] == a && s[|s| - 1] == x && Chain(s)
    }

    /** `a` is a strict ancestor of `x`. */
    ghost predicate Anc(a: Id, x: Id) {
      exists s :: IsPath(s, a, x)
    }

    ghost predicate AncOrSelf(a: Id, x: Id) {
      a == x || Anc(a, x)
    }

    ghost function Ancestors(x: Id): set<Id> {
      set a | a in parents && Anc(a, x)
    }
  }

  /** `children` is the forward ancestry multimap of the same graph. */
  ghost predicate ForwardOf(g: Graph, children: map<Id, seq<Id>>) {
    && (forall p, c :: p in children && c in children[p] ==> g.Edge(p, c))
    && (forall p, c :: g.Edge(p, c) ==> p in children && c in children[p])
  }

  function ChildrenOf(children: map<Id, seq<Id>>, x: Id): seq<Id> {
    if x in children then children[x] else []
  }

  lemma EdgeIsAnc(g: Graph, p: Id, c: Id)
    requires g.Edge(p, c)
    ensures g.Anc(p, c)
  {
    assert g.IsPath([p, c], p, c);
  }

  lemma AncTransitive(g: Graph, a: Id, b: Id, c: Id)
    requires g.Anc(a, b) && g.Anc(b, c)
    ensures g.Anc(a, c)
  {
    var s :| g.IsPath(s, a, b);
    var t :| g.IsPath(t, b, c);
    var u := s + t[1..];
    forall i, j | 0 <= i < j < |u| && j == i + 1 ensures g.Edge(u[i], u[j]) {
      if i >= |s| - 1 {
        assert u[i] == t[i - (|s| - 1)] && u[j] == t[j - (|s| - 1)];
      }
    }
    assert g.IsPath(u, a, c);
  }

  lemma AncOrSelfTransitive(g: Graph, a: Id, b: Id, c: Id)
    requires g.AncOrSelf(a, b) && g.AncOrSelf(b, c)
    ensures g.AncOrSelf(a, c)
    ensures g.Anc(a, b) || g.Anc(b, c) ==> g.Anc(a, c)
  {
    if g.Anc(a, b) && g.Anc(b, c) {
      AncTransitive(g, a, b, c);
    }
  }

  lemma AncLastStep(g: Graph, a: Id, x: Id) returns (p: Id)
    requires g.Anc(a, x)
    ensures g.Edge(p, x) && g.AncOrSelf(a, p)
  {
    var s :| g.IsPath(s, a, x);
    p := s[|s| - 2];
    if |s| > 2 {
      assert g.IsPath(s[..|s| - 1], a, p);
    }
  }

  lemma AncFirstStep(g: Graph, a: Id, x: Id) returns (c: Id)
    requires g.Anc(a, x)
    ensures g.Edge(a, c) && g.AncOrSelf(c, x)
  {
    var s :| g.IsPath(s, a, x);
    c := s[1];
    if |s| > 2 {
      assert g.IsPath(s[1..], c, x);
    }
  }

  lemma {:induction false} PathIsLower(g: Graph, s: seq<Id>, a: Id, x: Id)
    requires g.Valid() && g.IsPath(s, a, x)
    ensures a in g.parents && x in g.parents && g.height[a] < g.height[x]
    decreases |s|
  {
    var p := s[|s| - 2];
    assert g.Edge(p, x);
    if |s| > 2 {
      PathIsLower(g, s[..|s| - 1], a, p);
    }
  }

  lemma AncIsLower(g: Graph, a: Id, x: Id)
    requires g.Valid() && g.Anc(a, x)
    ensures a in g.parents && x in g.parents && g.height[a] < g.height[x]
  {
    var s :| g.IsPath(s, a, x);
    PathIsLower(g, s, a, x);
  }

  lemma MemberOfAncestors(g: Graph, a: Id, x: Id)
    requires g.Valid()
    ensures a in g.Ancestors(x) <==> g.Anc(a, x)
  {
    if g.Anc(a, x) {
      AncIsLower(g, a, x);
    }
  }

  /** Everything but the root itself descends from the root. */
  lemma {:induction false} RootIsAncestor(g: Graph, x: Id)
    requires g.Valid() && g.Rooted() && x in g.parents && x != NullId
    ensures g.Anc(NullId, x)
    decreases g.height[x]
  {
    var p := g.parents[x][0];
    assert g.Edge(p, x);
    EdgeIsAnc(g, p, x);
    if p != NullId {
      RootIsAncestor(g, p);
      AncTransitive(g, NullId, p, x);
    }
  }

  lemma RootHasNoAncestor(g: Graph, a: Id)
    requires g.Rooted()
    ensures !g.Anc(a, NullId)
  {
    if g.Anc(a, NullId) {
      var p := AncLastStep(g, a, NullId);
    }
  }
}
