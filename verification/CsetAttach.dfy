/** Attaching the waiting nodes top-down, and when that is accepted. */
module CsetAttach {
  import opened Paths
  import opened Ordered
  import opened Rosters
  import opened Csets
  import opened CsetApply

  function Nodes(m: map<FilePath, NodeId>, done: set<FilePath>): set<NodeId> {
    set p | p in done && p in m :: m[p]
  }

  ghost predicate Attaching(t0: Tree, t: Tree, attaches: map<FilePath, NodeId>, done: set<FilePath>, drops: set<NodeId>) {
    && Ok(t) && done <= attaches.Keys && OnlyMoved(t0, t, Nodes(attaches, done))
    && (forall p {:trigger At(t, p)} :: p in done ==> At(t, p) == attaches[p] != NullNode)
    && Waiting(t, attaches - done, drops) && (t0.root != NullNode || [] !in done ==> t.root == t0.root)
  }

  lemma AttachWaiting(t: Tree, t': Tree, waiting: map<FilePath, NodeId>, drops: set<NodeId>, p: FilePath)
    requires Ok(t) && Waiting(t, waiting, drops) && p in waiting && OnlyMoved(t, t', {waiting[p]})
    requires t'.root == t.root || t'.root == waiting[p]
    ensures Waiting(t', waiting - {p}, drops)
  {
    forall m | Loose(t, m) && m != waiting[p] ensures Loose(t', m) {
      StillLoose(t, t', waiting[p], m);
    }
  }

  lemma AttachedMore(t0: Tree, t: Tree, t': Tree, attaches: map<FilePath, NodeId>, done: set<FilePath>, drops: set<NodeId>, p: FilePath)
    requires Attaching(t0, t, attaches, done, drops) && p in attaches && p !in done && attaches[p] != NullNode
    requires Ok(t') && OnlyMoved(t, t', {attaches[p]})
    requires t'.root == t.root || (t.root == NullNode && t'.root == attaches[p] && p == [])
    requires At(t', p) == attaches[p]
    requires forall q {:trigger At(t', q)} :: At(t, q) != NullNode ==> At(t', q) == At(t, q)
    ensures Attaching(t0, t', attaches, done + {p}, drops)
  {
    OneMoreDone(attaches, done, p);
    MovedTwice(t0, t, t', Nodes(attaches, done), {attaches[p]});
    AttachWaiting(t, t', attaches - done, drops, p);
  }

  lemma AttachOne(t0: Tree, t: Tree, attaches: map<FilePath, NodeId>, done: set<FilePath>, drops: set<NodeId>, p: FilePath)
    requires Attaching(t0, t, attaches, done, drops) && p in attaches && p !in done && Normal(p)
    requires CanAttach(t, attaches[p], ParentAt(t, p), BaseName(p))
    ensures Attaching(t0, Attached(t, attaches[p], ParentAt(t, p), BaseName(p)), attaches, done + {p}, drops)
  {
    assert p in attaches - done && NodeOk(t, attaches[p]);
    AttachAtOk(t, attaches[p], p);
    AttachedMore(t0, t, Attached(t, attaches[p], ParentAt(t, p), BaseName(p)), attaches, done, drops, p);
  }

  lemma OneMoreDone(m: map<FilePath, NodeId>, done: set<FilePath>, p: FilePath)
    requires p in m && p !in done
    ensures Nodes(m, done + {p}) == Nodes(m, done) + {m[p]}
    ensures m - (done + {p}) == (m - done) - {p}
  {
  }

  // ---------- what paths name ----------

  predicate NamedIn(s: set<FilePath>, a: seq<Name>) {
    Join(a) in s && Components(Join(a)) == a
  }

  lemma NamedComponents(s: set<FilePath>, p: FilePath)
    ensures NamedIn(s, Components(p)) <==> p in s
    ensures Join(Components(p)) == p
  {
    JoinSplit(p);
  }

  /** The node a path names when all waiting nodes are put at their paths at once. */
  function After(t: Tree, attaches: map<FilePath, NodeId>, a: seq<Name>): NodeId
    decreases |a|
  {
    if NamedIn(attaches.Keys, a) then attaches[Join(a)]
    else if a == [] then t.root
    else Step(t, After(t, attaches, a[..|a| - 1]), a[|a| - 1])
  }

  function Restrict(m: map<FilePath, NodeId>, s: set<FilePath>): map<FilePath, NodeId> {
    map p | p in m && p in s :: m[p]
  }

  /** Only the directories above a path matter. */
  lemma {:induction false} AfterSame(t: Tree, attaches: map<FilePath, NodeId>, done: set<FilePath>, a: seq<Name>)
    requires forall p :: p in attaches && Components(p) <= a ==> p in done
    ensures After(t, Restrict(attaches, done), a) == After(t, attaches, a)
    decreases |a|
  {
    if NamedIn(attaches.Keys, a) {
      assert Join(a) in attaches && Components(Join(a)) <= a;
    } else if a != [] {
      var a' := a[..|a| - 1];
      forall p | p in attaches && Components(p) <= a' ensures p in done {
        assert Components(p) <= a;
      }
      AfterSame(t, attaches, done, a');
    }
  }

  lemma StepStays(t0: Tree, t: Tree, moved: set<NodeId>, d: NodeId, x: Name)
    requires Ok(t0) && Ok(t) && OnlyMoved(t0, t, moved) && Step(t0, d, x) !in moved
    ensures Step(t0, d, x) != NullNode ==> Step(t, d, x) == Step(t0, d, x)
  {
    var n := Step(t0, d, x);
    assert ChildOk(t0, d, x) && NodeOk(t0, d) && NodeOk(t, n);
    if n != NullNode {
      assert SamePlace(t0.nodes[n], t.nodes[n]);
    }
  }

  /** A child that was not moved is the one that was there before. */
  lemma StepKept(t0: Tree, t: Tree, moved: set<NodeId>, d: NodeId, x: Name)
    requires Ok(t0) && Ok(t) && OnlyMoved(t0, t, moved)
    requires forall n :: n in moved ==> Loose(t0, n)
    requires Step(t, d, x) !in moved
    ensures Step(t, d, x) == Step(t0, d, x)
  {
    assert ChildOk(t0, d, x) && NodeOk(t0, d) && NodeOk(t0, Step(t0, d, x));
    StepStays(t0, t, moved, d, x);
    assert ChildOk(t, d, x) && NodeOk(t, d);
    if Step(t, d, x) != NullNode {
      assert NodeOk(t0, Step(t, d, x)) && SamePlace(t0.nodes[Step(t, d, x)], t.nodes[Step(t, d, x)]);
    }
  }

  /** While attaching, paths name what they should with the nodes attached so far. */
  lemma {:induction false} AttachingPaths(t0: Tree, t: Tree, attaches: map<FilePath, NodeId>, done: set<FilePath>,
                                          drops: set<NodeId>, a: seq<Name>)
    requires Ok(t0) && Waiting(t0, attaches, drops) && Attaching(t0, t, attaches, done, drops)
    ensures Find(t, t.root, a) == After(t0, Restrict(attaches, done), a)
    decreases |a|
  {
    var m := Restrict(attaches, done);
    if NamedIn(m.Keys, a) {
      assert At(t, Join(a)) == attaches[Join(a)];
    } else if a == [] {
      assert [] !in done by {
        NamedComponents(m.Keys, []);
      }
    } else {
      var a', x := a[..|a| - 1], a[|a| - 1];
      assert a == a' + [x];
      AttachingPaths(t0, t, attaches, done, drops, a');
      FindAppend(t, t.root, a', x);
      NotAttachedHere(t, attaches, done, a);
      StepKept(t0, t, Nodes(attaches, done), Find(t, t.root, a'), x);
    }
  }

  lemma NotAttachedHere(t: Tree, attaches: map<FilePath, NodeId>, done: set<FilePath>, a: seq<Name>)
    requires Ok(t) && done <= attaches.Keys
    requires forall p {:trigger At(t, p)} :: p in done ==> At(t, p) == attaches[p] != NullNode
    requires !NamedIn(Restrict(attaches, done).Keys, a)
    ensures Find(t, t.root, a) !in Nodes(attaches, done)
  {
    forall p | p in done ensures attaches[p] != Find(t, t.root, a) {
      if At(t, p) == Find(t, t.root, a) {
        FindInjective(t, Components(p), a);
        NamedComponents(Restrict(attaches, done).Keys, p);
      }
    }
  }

  // ---------- acceptance ----------

  function TargetDir(t: Tree, attaches: map<FilePath, NodeId>, p: FilePath): NodeId {
    var a := Components(p);
    if p == [] then NullNode else After(t, attaches, a[..|a| - 1])
  }

  /** A waiting node can go to its path: the directory is there, the name is free, and it is not
      the place the node was taken from. */
  predicate Fits(t: Tree, attaches: map<FilePath, NodeId>, p: FilePath)
    requires p in attaches
  {
    var n, d, x := attaches[p], TargetDir(t, attaches, p), BaseName(p);
    && (n in t.places ==> t.places[n] != Place(d, x))
    && if p == [] then t.root == NullNode && IsDir(t, n) else IsDir(t, d) && Step(t, d, x) == NullNode
  }

  ghost predicate AttachesOk(t: Tree, attaches: map<FilePath, NodeId>) {
    forall p :: p in attaches ==> Fits(t, attaches, p)
  }

  lemma FirstDone(attaches: map<FilePath, NodeId>, done: set<FilePath>, p: FilePath, a: seq<Name>)
    requires p in attaches && a < Components(p)
    requires forall q :: q in attaches && q !in done && q != p ==> Less(p, q)
    ensures forall q :: q in attaches && Components(q) <= a ==> q in done
  {
    forall q | q in attaches && Components(q) <= a ensures q in done {
      DirectoryFirst(q, p);
      LessTrichotomy(p, q);
    }
  }

  /** The parent of the next path is the one it has when all is attached. */
  lemma NextParent(t0: Tree, t: Tree, attaches: map<FilePath, NodeId>, done: set<FilePath>, drops: set<NodeId>, p: FilePath)
    requires Ok(t0) && Waiting(t0, attaches, drops) && Attaching(t0, t, attaches, done, drops) && p in attaches && p != []
    requires forall q :: q in attaches && q !in done && q != p ==> Less(p, q)
    ensures ParentAt(t, p) == TargetDir(t0, attaches, p)
  {
    var a := Components(p);
    FirstDone(attaches, done, p, a[..|a| - 1]);
    AttachingPaths(t0, t, attaches, done, drops, a[..|a| - 1]);
    AfterSame(t0, attaches, done, a[..|a| - 1]);
  }

  lemma NextStep(t0: Tree, t: Tree, attaches: map<FilePath, NodeId>, done: set<FilePath>, drops: set<NodeId>, p: FilePath)
    requires Ok(t0) && Waiting(t0, attaches, drops) && Attaching(t0, t, attaches, done, drops) && p !in done && p != []
    ensures Step(t, ParentAt(t, p), BaseName(p)) == Step(t0, ParentAt(t, p), BaseName(p))
  {
    var a := Components(p);
    var a' := a[..|a| - 1];
    assert a == a' + [BaseName(p)];
    FindAppend(t, t.root, a', BaseName(p));
    NamedComponents(Restrict(attaches, done).Keys, p);
    NotAttachedHere(t, attaches, done, a);
    StepKept(t0, t, Nodes(attaches, done), ParentAt(t, p), BaseName(p));
  }

  lemma NextFits(t0: Tree, t: Tree, attaches: map<FilePath, NodeId>, done: set<FilePath>, drops: set<NodeId>, p: FilePath)
    requires Ok(t0) && Waiting(t0, attaches, drops) && Attaching(t0, t, attaches, done, drops)
    requires p in attaches && p !in done && Normal(p)
    requires t.places == t0.places - Nodes(attaches, done)
    requires forall q :: q in attaches && q !in done && q != p ==> Less(p, q)
    ensures CanAttach(t, attaches[p], ParentAt(t, p), BaseName(p)) <==> Fits(t0, attaches, p)
  {
    var n, d, x := attaches[p], ParentAt(t, p), BaseName(p);
    assert p in attaches - done && Loose(t, n) && NodeOk(t, n);
    assert n !in Nodes(attaches, done);
    assert SameBody(t0.nodes[n], t.nodes[n]);
    if p != [] {
      NextParent(t0, t, attaches, done, drops, p);
      NextStep(t0, t, attaches, done, drops, p);
      assert x in Components(p);
      assert ChildOk(t, d, x) && NodeOk(t, Step(t, d, x)) && NodeOk(t, d);
      assert d in t.nodes ==> SameBody(t0.nodes[d], t.nodes[d]);
    }
  }

  method AttachMore(r: Roster, p: FilePath, attaches: map<FilePath, NodeId>, ghost t0: Tree, ghost done: set<FilePath>,
                    ghost drops: set<NodeId>)
      returns (ok: bool)
    requires Ok(t0) && Waiting(t0, attaches, drops) && Attaching(t0, r.Snap(), attaches, done, drops)
    requires r.places == t0.places - Nodes(attaches, done)
    requires p in attaches && p !in done && Normal(p)
    requires forall q :: q in attaches && q !in done && q != p ==> Less(p, q)
    modifies r
    ensures ok == Fits(t0, attaches, p)
    ensures ok ==> Attaching(t0, r.Snap(), attaches, done + {p}, drops)
    ensures ok ==> r.places == t0.places - Nodes(attaches, done + {p})
  {
    ghost var t := r.Snap();
    NextFits(t0, t, attaches, done, drops, p);
    ok := r.AttachNode(attaches[p], p);
    if ok {
      AttachOne(t0, t, attaches, done, drops, p);
      OneMoreDone(attaches, done, p);
    }
  }

  method AttachAll(r: Roster, attaches: map<FilePath, NodeId>, ghost drops: set<NodeId>) returns (ok: bool)
    requires Ok(r.Snap()) && Waiting(r.Snap(), attaches, drops) && forall p :: p in attaches ==> Normal(p)
    modifies r
    ensures ok == AttachesOk(old(r.Snap()), attaches)
    ensures ok ==> Attaching(old(r.Snap()), r.Snap(), attaches, attaches.Keys, drops)
    ensures ok ==> r.places == old(r.places) - Nodes(attaches, attaches.Keys)
  {
    ghost var t0 := r.Snap();
    var todo := attaches.Keys;
    ghost var done := {};
    assert attaches - {} == attaches;
    assert Nodes(attaches, {}) == {};
    while todo != {}
      invariant Split2(attaches.Keys, done, todo)
      invariant Attaching(t0, r.Snap(), attaches, done, drops)
      invariant r.places == t0.places - Nodes(attaches, done)
      invariant forall p :: p in done ==> Fits(t0, attaches, p)
      decreases |todo|
    {
      var p := FirstPath(todo);
      MoveOne(attaches.Keys, done, todo, p);
      ok := AttachMore(r, p, attaches, t0, done, drops);
      if !ok {
        return;
      }
      done, todo := done + {p}, todo - {p};
    }
    ok := true;
    assert done == attaches.Keys;
  }
}
