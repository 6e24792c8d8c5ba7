/** When a change set can be applied, told from the change set and the tree alone. */
module CsetAccept {
  import opened Paths
  import opened Rosters
  import opened Csets
  import opened CsetApply
  import opened CsetAttach
  import opened CsetEdits
  import opened ApplyTo

  // ---------- the tree a change set describes ----------

  /** What a path names once everything has moved at once: nothing, a node of the original tree, or
      the node added there. */
  datatype Ref = Nowhere | Old(id: NodeId) | New(path: FilePath)

  function Added(cs: Cset): set<FilePath> {
    cs.dirs + cs.files.Keys
  }

  /** The node is taken from its place. */
  ghost predicate Leaves(cs: Cset, t: Tree, n: NodeId) {
    exists p :: (p in cs.deleted || p in cs.renamed) && At(t, p) == n
  }

  ghost function Stays(cs: Cset, t: Tree, n: NodeId): Ref {
    if n == NullNode || Leaves(cs, t, n) then Nowhere else Old(n)
  }

  ghost function ChildOf(cs: Cset, t: Tree, r: Ref, x: Name): Ref {
    if r.Old? then Stays(cs, t, Step(t, r.id, x)) else Nowhere
  }

  /** The path renamed to `q`. */
  ghost function Origin(cs: Cset, q: FilePath): (p: FilePath)
    requires q in cs.renamed.Values
    ensures p in cs.renamed && cs.renamed[p] == q
  {
    var p :| p in cs.renamed && cs.renamed[p] == q; p
  }

  ghost function Settles(cs: Cset, t: Tree, a: seq<Name>): Ref
    decreases |a|
  {
    if NamedIn(cs.renamed.Values, a) then Old(At(t, Origin(cs, Join(a))))
    else if NamedIn(Added(cs), a) then New(Join(a))
    else if a == [] then Stays(cs, t, t.root)
    else ChildOf(cs, t, Settles(cs, t, a[..|a| - 1]), a[|a| - 1])
  }

  ghost function SettlesAt(cs: Cset, t: Tree, p: FilePath): Ref {
    Settles(cs, t, Components(p))
  }

  ghost function SettlesDir(cs: Cset, t: Tree, p: FilePath): Ref
    requires p != []
  {
    Settles(cs, t, Components(p)[..|Components(p)| - 1])
  }

  // ---------- acceptance ----------

  /** What is deleted or renamed is there, no path is added or detached twice, and no two nodes are
      to arrive at one path. */
  ghost predicate PathsOk(cs: Cset, t: Tree) {
    && cs.dirs !! cs.files.Keys && cs.deleted !! cs.renamed.Keys
    && (forall p :: p in cs.deleted || p in cs.renamed ==> At(t, p) != NullNode)
    && (forall p :: p in cs.renamed ==> cs.renamed[p] !in Added(cs))
    && (forall p, q :: p in cs.renamed && q in cs.renamed && p != q ==> cs.renamed[p] != cs.renamed[q])
  }

  predicate DirRef(cs: Cset, t: Tree, r: Ref) {
    match r
    case Nowhere => false
    case Old(n) => IsDir(t, n)
    case New(p) => p in cs.dirs
  }

  /** The directory of `q` will be there, and nothing that stays has the name. */
  ghost predicate RoomAt(cs: Cset, t: Tree, q: FilePath) {
    if q == [] then Stays(cs, t, t.root) == Nowhere
    else DirRef(cs, t, SettlesDir(cs, t, q)) && ChildOf(cs, t, SettlesDir(cs, t, q), BaseName(q)) == Nowhere
  }

  /** The node at `p` would be put back where it was. */
  ghost predicate PutBack(cs: Cset, t: Tree, p: FilePath)
    requires p in cs.renamed && At(t, p) in t.nodes
  {
    var q, v := cs.renamed[p], t.nodes[At(t, p)];
    if q == [] then p == [] else SettlesDir(cs, t, q) == Old(v.parent) && BaseName(q) == v.name
  }

  ghost predicate RenameOk(cs: Cset, t: Tree, p: FilePath)
    requires p in cs.renamed
  {
    && At(t, p) in t.nodes && RoomAt(cs, t, cs.renamed[p]) && !PutBack(cs, t, p)
    && (cs.renamed[p] == [] ==> IsDir(t, At(t, p)))
  }

  ghost predicate MovesOk(cs: Cset, t: Tree) {
    && (forall q :: q in Added(cs) ==> RoomAt(cs, t, q) && (q == [] ==> q in cs.dirs))
    && (forall p :: p in cs.renamed ==> RenameOk(cs, t, p))
  }

  /** Nothing beneath a deleted node stays. */
  ghost predicate DeletesOk(cs: Cset, t: Tree) {
    forall p, x :: p in cs.deleted ==> Stays(cs, t, Step(t, At(t, p), x)) == Nowhere
  }

  ghost predicate PatchOk(cs: Cset, t: Tree, p: FilePath, d: (FileId, FileId)) {
    var r := SettlesAt(cs, t, p);
    r.Old? && CanPatch(t, r.id, d.0, d.1)
  }

  /** A node that is new has no attributes, which counts as all of them being cleared. */
  ghost predicate AttrOk(cs: Cset, t: Tree, a: AttrName, v: Attr) {
    match SettlesAt(cs, t, a.0)
    case Nowhere => false
    case Old(n) => AttrOf(t, n, a.1) != v
    case New(_) => v != (false, [])
  }

  ghost predicate ChangesOk(cs: Cset, t: Tree) {
    && (forall p :: p in cs.deltas ==> PatchOk(cs, t, p, cs.deltas[p]))
    && (forall a :: a in cs.cleared ==> AttrOk(cs, t, a, (false, [])))
    && (forall a :: a in cs.attrs ==> AttrOk(cs, t, a, (true, cs.attrs[a])))
  }

  /** The change set can be applied to the tree. */
  ghost predicate Applicable(cs: Cset, t: Tree) {
    Normalized(cs) && PathsOk(cs, t) && MovesOk(cs, t) && DeletesOk(cs, t) && ChangesOk(cs, t)
  }

  // ---------- the detaches ----------

  lemma SamePaths(t0: Tree, t: Tree, p: FilePath)
    requires SameSteps(t0, t)
    ensures At(t, p) == At(t0, p)
  {
    SameFind(t0, t, t0.root, Components(p));
  }

  lemma DetachesAre(cs: Cset, start: Tree, created: Tree, added: map<FilePath, NodeId>, detaches: map<FilePath, Target>)
    requires start.places == map[] && Creating(start, created, cs.dirs, cs.files, added)
    requires FilesLeft(cs.dirs, cs.files.Keys, added.Keys, {}) && DetachesOf(cs, detaches)
    ensures DetachesOk(created, detaches, added) <==> PathsOk(cs, start)
  {
    forall p ensures CanDetach(created, p) <==> At(start, p) != NullNode {
      SamePaths(start, created, p);
    }
    if DetachesOk(created, detaches, added) {
      forall p | p in cs.deleted || p in cs.renamed ensures At(start, p) != NullNode {
        assert p in detaches && CanDetach(created, p);
      }
      forall p | p in cs.renamed ensures cs.renamed[p] !in Added(cs) {
        assert detaches[p] == Reattach(cs.renamed[p]);
      }
      forall p, q | p in cs.renamed && q in cs.renamed && p != q ensures cs.renamed[p] != cs.renamed[q] {
        assert detaches[p] == Reattach(cs.renamed[p]) && detaches[q] == Reattach(cs.renamed[q]);
      }
    }
    if PathsOk(cs, start) {
      forall p | p in detaches && detaches[p].Reattach? ensures detaches[p].path !in added {
        assert p in cs.renamed;
      }
      forall p, q | p in detaches && q in detaches && p != q && detaches[p].Reattach? ensures detaches[q] != detaches[p] {
        assert p in cs.renamed;
        assert q in cs.deleted || q in cs.renamed;
      }
    }
  }

  // ---------- the nodes behind the references ----------

  function NodeOf(added: map<FilePath, NodeId>, r: Ref): NodeId {
    match r
    case Nowhere => NullNode
    case Old(n) => n
    case New(p) => if p in added then added[p] else NullNode
  }

  /** A run that has taken all nodes off, from a tree in which nothing was off before. */
  ghost predicate Clean(cs: Cset, r: Run) {
    Taken(cs, r) && r.start.places == map[] && PathsOk(cs, r.start)
  }

  lemma LeavesFound(cs: Cset, r: Run, n: NodeId)
    requires Clean(cs, r)
    ensures Leaves(cs, r.start, n) <==> n in r.found.Values
  {
    if Leaves(cs, r.start, n) {
      var p :| (p in cs.deleted || p in cs.renamed) && At(r.start, p) == n;
      assert p in r.found;
      RanFound(cs, r, p);
    }
    if n in r.found.Values {
      var p :| p in r.found && r.found[p] == n;
      RanFound(cs, r, p);
      assert p in cs.deleted || p in cs.renamed;
    }
  }

  lemma DetachedStep(cs: Cset, r: Run, d: NodeId, x: Name)
    requires Clean(cs, r)
    ensures Step(r.detached, d, x) == NodeOf(r.added, Stays(cs, r.start, Step(r.start, d, x)))
  {
    LeavesFound(cs, r, Step(r.start, d, x));
    TakenStep(cs, r, d, x);
  }

  lemma {:induction false} FoundAreLoose(cs: Cset, r: Run, n: NodeId)
    requires Taken(cs, r) && n in r.found.Values
    ensures Loose(r.detached, n)
  {
    var p :| p in r.found && r.found[p] == n;
    if r.detaches[p].Reattach? {
      assert r.attaches[r.detaches[p].path] == n;
    }
  }

  lemma TakenStep(cs: Cset, r: Run, d: NodeId, x: Name)
    requires Taken(cs, r)
    ensures Step(r.detached, d, x) == if Step(r.start, d, x) in r.found.Values then NullNode else Step(r.start, d, x)
  {
    var t0, t := r.created, r.detached;
    assert Step(t0, d, x) == Step(r.start, d, x);
    assert ChildOk(t, d, x) && ChildOk(t0, d, x) && NodeOk(t, d);
    var m, m0 := Step(t, d, x), Step(t0, d, x);
    if m != NullNode {
      if m in r.found.Values {
        FoundAreLoose(cs, r, m);
      }
      assert m !in r.found.Values;
      assert SamePlace(t0.nodes[m], t.nodes[m]) && NodeOk(t0, m);
    }
    if m0 !in r.found.Values {
      StepStays(t0, t, r.found.Values, d, x);
    }
  }

  lemma RootLeaves(cs: Cset, t: Tree)
    requires Ok(t) && t.root != NullNode
    ensures Leaves(cs, t, t.root) <==> [] in cs.deleted || [] in cs.renamed
  {
    assert At(t, []) == t.root;
    if Leaves(cs, t, t.root) {
      var p :| (p in cs.deleted || p in cs.renamed) && At(t, p) == t.root;
      AtInjective(t, p, []);
    }
  }

  lemma RootStays(cs: Cset, r: Run)
    requires Clean(cs, r)
    ensures r.detached.root == NodeOf(r.added, Stays(cs, r.start, r.start.root))
  {
    assert [] in r.found <==> [] in cs.deleted || [] in cs.renamed;
    if r.start.root != NullNode {
      RootLeaves(cs, r.start);
    }
  }

  lemma SettlesChild(cs: Cset, r: Run, ref: Ref, x: Name)
    requires Clean(cs, r) && (ref.New? ==> ref.path in r.added)
    ensures Step(r.detached, NodeOf(r.added, ref), x) == NodeOf(r.added, ChildOf(cs, r.start, ref, x))
  {
    var d := NodeOf(r.added, ref);
    DetachedStep(cs, r, d, x);
    if !ref.Old? {
      assert NodeOk(r.start, NullNode);
      assert d !in r.start.nodes;
    }
  }

  /** What is attached is what the change set adds and renames. */
  ghost predicate TargetsMatch(cs: Cset, t0: Tree, added: map<FilePath, NodeId>, attaches: map<FilePath, NodeId>) {
    && attaches.Keys == Added(cs) + cs.renamed.Values && added.Keys == Added(cs) && Added(cs) !! cs.renamed.Values
    && (forall q {:trigger attaches[q]} :: q in added ==> attaches[q] == added[q])
    && (forall q {:trigger attaches[q]} :: q in cs.renamed.Values ==> attaches[q] == At(t0, Origin(cs, q)))
  }

  lemma RenamedAttached(cs: Cset, t0: Tree, detaches: map<FilePath, Target>, found: map<FilePath, NodeId>,
                        added: map<FilePath, NodeId>, attaches: map<FilePath, NodeId>, drops: set<NodeId>)
    requires Scheduled(found, detaches, added, attaches, drops) && DetachesOf(cs, detaches) && found.Keys == detaches.Keys
    requires forall p {:trigger found[p]} :: p in found ==> found[p] == At(t0, p)
    ensures forall q :: q in cs.renamed.Values ==> q in attaches && attaches[q] == At(t0, Origin(cs, q))
    ensures forall q :: q in attaches && q !in added ==> q in cs.renamed.Values
  {
    forall q | q in cs.renamed.Values ensures q in attaches && attaches[q] == At(t0, Origin(cs, q)) {
      var p := Origin(cs, q);
      assert p in found && detaches[p] == Reattach(q) && found[p] == At(t0, p);
    }
    forall q | q in attaches && q !in added ensures q in cs.renamed.Values {
      var p :| p in found && detaches[p] == Reattach(q);
      assert p in cs.renamed && cs.renamed[p] == q;
    }
  }

  lemma TargetsAre(cs: Cset, t0: Tree, added: map<FilePath, NodeId>, attaches: map<FilePath, NodeId>)
    requires added.Keys == Added(cs) && PathsOk(cs, t0)
    requires forall q :: q in added ==> q in attaches && attaches[q] == added[q]
    requires forall q :: q in cs.renamed.Values ==> q in attaches && attaches[q] == At(t0, Origin(cs, q))
    requires forall q :: q in attaches && q !in added ==> q in cs.renamed.Values
    ensures TargetsMatch(cs, t0, added, attaches)
  {
  }

  lemma CleanTargets(cs: Cset, r: Run)
    requires Clean(cs, r)
    ensures TargetsMatch(cs, r.start, r.added, r.attaches)
  {
    forall p | p in r.found ensures r.found[p] == At(r.start, p) {
      RanFound(cs, r, p);
    }
    RenamedAttached(cs, r.start, r.detaches, r.found, r.added, r.attaches, r.drops);
    TargetsAre(cs, r.start, r.added, r.attaches);
  }

  /** What stays in a directory is what the change set leaves there. */
  ghost predicate StepsMatch(cs: Cset, t0: Tree, t: Tree, added: map<FilePath, NodeId>) {
    && t.root == NodeOf(added, Stays(cs, t0, t0.root))
    && forall ref: Ref, x {:trigger ChildOf(cs, t0, ref, x)} :: (ref.New? ==> ref.path in added) ==>
         Step(t, NodeOf(added, ref), x) == NodeOf(added, ChildOf(cs, t0, ref, x))
  }

  lemma CleanSteps(cs: Cset, r: Run)
    requires Clean(cs, r)
    ensures StepsMatch(cs, r.start, r.detached, r.added)
  {
    RootStays(cs, r);
    forall ref: Ref, x | ref.New? ==> ref.path in r.added
      ensures Step(r.detached, NodeOf(r.added, ref), x) == NodeOf(r.added, ChildOf(cs, r.start, ref, x))
    {
      SettlesChild(cs, r, ref, x);
    }
  }

  /** After all moves a path names the node the change set describes. */
  lemma {:induction false} SettlesAfter(cs: Cset, t0: Tree, t: Tree, added: map<FilePath, NodeId>,
                                        attaches: map<FilePath, NodeId>, a: seq<Name>)
    requires TargetsMatch(cs, t0, added, attaches) && StepsMatch(cs, t0, t, added)
    ensures After(t, attaches, a) == NodeOf(added, Settles(cs, t0, a))
    ensures Settles(cs, t0, a).New? ==> Settles(cs, t0, a).path in added
    decreases |a|
  {
    if a != [] {
      SettlesAfter(cs, t0, t, added, attaches, a[..|a| - 1]);
    }
  }

  // ---------- the attaches ----------

  lemma {:induction false} OldInside(cs: Cset, t: Tree, a: seq<Name>)
    requires Ok(t) && PathsOk(cs, t)
    ensures var ref := Settles(cs, t, a); ref.Old? ==> ref.id in t.nodes
    decreases |a|
  {
    if NamedIn(cs.renamed.Values, a) {
      AtInside(t, Origin(cs, Join(a)));
    } else if a != [] {
      OldInside(cs, t, a[..|a| - 1]);
      var ref := Settles(cs, t, a[..|a| - 1]);
      assert ref.Old? ==> ChildOk(t, ref.id, a[|a| - 1]);
    }
  }

  /** Nodes are directories where the change set says so. */
  ghost predicate BodiesMatch(cs: Cset, t0: Tree, t: Tree, added: map<FilePath, NodeId>) {
    && t0.nodes.Keys <= t.nodes.Keys
    && (forall n {:trigger t.nodes[n]} :: n in t0.nodes ==> t.nodes[n].kind.Dir? == t0.nodes[n].kind.Dir?)
    && (forall p {:trigger added[p]} :: p in added ==> added[p] !in t0.nodes && added[p] != NullNode && added[p] in t.nodes)
    && (forall p {:trigger added[p]} :: p in added && added[p] in t.nodes ==> (t.nodes[added[p]].kind.Dir? <==> p in cs.dirs))
  }

  /** The places nodes were taken from. */
  ghost predicate PlacesMatch(cs: Cset, t0: Tree, t: Tree, added: map<FilePath, NodeId>) {
    && (forall p {:trigger added[p]} :: p in added ==> added[p] !in t.places)
    && (forall p {:trigger At(t0, p)} :: p in cs.renamed ==> TakenFrom(t0, t, At(t0, p)))
  }

  predicate TakenFrom(t0: Tree, t: Tree, n: NodeId) {
    n in t0.nodes && n in t.places && t.places[n] == Place(t0.nodes[n].parent, t0.nodes[n].name)
  }

  ghost predicate Match(cs: Cset, t0: Tree, t: Tree, added: map<FilePath, NodeId>, attaches: map<FilePath, NodeId>) {
    && Ok(t0) && PathsOk(cs, t0) && TargetsMatch(cs, t0, added, attaches) && StepsMatch(cs, t0, t, added)
    && BodiesMatch(cs, t0, t, added) && PlacesMatch(cs, t0, t, added)
  }

  lemma DirMatches(cs: Cset, t0: Tree, t: Tree, added: map<FilePath, NodeId>, ref: Ref)
    requires BodiesMatch(cs, t0, t, added) && NullNode !in t.nodes
    requires (ref.Old? ==> ref.id in t0.nodes) && (ref.New? ==> ref.path in added)
    ensures IsDir(t, NodeOf(added, ref)) <==> DirRef(cs, t0, ref)
  {
    match ref {
      case Nowhere =>
      case Old(n) => assert n in t.nodes && t.nodes[n].kind.Dir? == t0.nodes[n].kind.Dir?;
      case New(p) => assert added[p] in t.nodes;
    }
  }

  lemma RoomMatches(cs: Cset, t0: Tree, t: Tree, added: map<FilePath, NodeId>, attaches: map<FilePath, NodeId>, q: FilePath)
    requires Match(cs, t0, t, added, attaches) && NullNode !in t.nodes
    ensures q == [] ==> (RoomAt(cs, t0, q) <==> t.root == NullNode)
    ensures q != [] ==> TargetDir(t, attaches, q) == NodeOf(added, SettlesDir(cs, t0, q))
    ensures q != [] ==> var d := TargetDir(t, attaches, q);
      (RoomAt(cs, t0, q) <==> IsDir(t, d) && Step(t, d, BaseName(q)) == NullNode)
  {
    if q != [] {
      var a := Components(q)[..|Components(q)| - 1];
      SettlesAfter(cs, t0, t, added, attaches, a);
      OldInside(cs, t0, a);
      DirMatches(cs, t0, t, added, Settles(cs, t0, a));
      assert ChildOf(cs, t0, Settles(cs, t0, a), BaseName(q)) == ChildOf(cs, t0, SettlesDir(cs, t0, q), BaseName(q));
    }
  }

  lemma AddFits(cs: Cset, t0: Tree, t: Tree, added: map<FilePath, NodeId>, attaches: map<FilePath, NodeId>, q: FilePath)
    requires Match(cs, t0, t, added, attaches) && NullNode !in t.nodes && q in Added(cs)
    ensures Fits(t, attaches, q) <==> RoomAt(cs, t0, q) && (q == [] ==> q in cs.dirs)
  {
    RoomMatches(cs, t0, t, added, attaches, q);
    assert attaches[q] == added[q];
  }

  lemma BackMatches(cs: Cset, t0: Tree, t: Tree, added: map<FilePath, NodeId>, attaches: map<FilePath, NodeId>, p: FilePath)
    requires Match(cs, t0, t, added, attaches) && NullNode !in t.nodes && p in cs.renamed && Normal(cs.renamed[p])
    requires At(t0, p) in t0.nodes
    ensures PutBack(cs, t0, p) <==>
      t.places[At(t0, p)] == Place(TargetDir(t, attaches, cs.renamed[p]), BaseName(cs.renamed[p]))
  {
    var q, n := cs.renamed[p], At(t0, p);
    var v := t0.nodes[n];
    assert NodeOk(t0, n);
    if q == [] {
      AtInside(t0, p);
      if v.parent == NullNode {
        AtInjective(t0, p, []);
      }
    } else {
      assert BaseName(q) in Components(q);
      RoomMatches(cs, t0, t, added, attaches, q);
      var ref := SettlesDir(cs, t0, q);
      SettlesAfter(cs, t0, t, added, attaches, Components(q)[..|Components(q)| - 1]);
      assert ref.New? ==> added[ref.path] !in t0.nodes;
      assert v.parent != NullNode ==> v.parent in t0.nodes;
    }
  }

  lemma RenameFits(cs: Cset, t0: Tree, t: Tree, added: map<FilePath, NodeId>, attaches: map<FilePath, NodeId>, p: FilePath)
    requires Match(cs, t0, t, added, attaches) && NullNode !in t.nodes && p in cs.renamed && Normal(cs.renamed[p])
    ensures cs.renamed[p] in attaches && (Fits(t, attaches, cs.renamed[p]) <==> RenameOk(cs, t0, p))
  {
    var q := cs.renamed[p];
    assert TakenFrom(t0, t, At(t0, p));
    assert q in cs.renamed.Values && Origin(cs, q) == p && attaches[q] == At(t0, p);
    RoomMatches(cs, t0, t, added, attaches, q);
    BackMatches(cs, t0, t, added, attaches, p);
    DirMatches(cs, t0, t, added, Old(At(t0, p)));
  }

  /** All waiting nodes can be attached exactly when the change set leaves room for them. */
  lemma MovesFit(cs: Cset, t0: Tree, t: Tree, added: map<FilePath, NodeId>, attaches: map<FilePath, NodeId>)
    requires Match(cs, t0, t, added, attaches) && NullNode !in t.nodes && PathsNormal(cs)
    ensures AttachesOk(t, attaches) <==> MovesOk(cs, t0)
  {
    forall q | q in Added(cs) ensures Fits(t, attaches, q) <==> RoomAt(cs, t0, q) && (q == [] ==> q in cs.dirs) {
      AddFits(cs, t0, t, added, attaches, q);
    }
    forall p | p in cs.renamed ensures cs.renamed[p] in attaches && (Fits(t, attaches, cs.renamed[p]) <==> RenameOk(cs, t0, p)) {
      RenameFits(cs, t0, t, added, attaches, p);
    }
    if MovesOk(cs, t0) {
      forall q | q in attaches ensures Fits(t, attaches, q) {
        if q in cs.renamed.Values {
          assert RenameOk(cs, t0, Origin(cs, q));
        }
      }
    }
  }

  lemma CleanBodies(cs: Cset, r: Run)
    requires Clean(cs, r)
    ensures BodiesMatch(cs, r.start, r.detached, r.added)
  {
    assert r.start.nodes.Keys <= r.created.nodes.Keys;
    forall n | n in r.start.nodes ensures r.detached.nodes[n].kind.Dir? == r.start.nodes[n].kind.Dir? {
      assert SameBody(r.created.nodes[n], r.detached.nodes[n]);
    }
    forall p | p in r.added
      ensures r.added[p] !in r.start.nodes && r.added[p] != NullNode && r.added[p] in r.detached.nodes
      ensures r.detached.nodes[r.added[p]].kind.Dir? <==> p in cs.dirs
    {
      assert Loose(r.created, r.added[p]) && NodeOk(r.created, r.added[p]);
      assert SameBody(r.created.nodes[r.added[p]], r.detached.nodes[r.added[p]]);
    }
  }

  lemma CleanPlaces(cs: Cset, r: Run)
    requires Clean(cs, r)
    ensures PlacesMatch(cs, r.start, r.detached, r.added)
  {
    assert r.detached.places == PlacesOf(r.created, r.found.Values);
    forall p | p in r.added ensures r.added[p] !in r.detached.places {
      if r.added[p] in r.found.Values {
        var q :| q in r.found && r.found[q] == r.added[p];
        RanFound(cs, r, q);
      }
    }
    forall p | p in cs.renamed ensures TakenFrom(r.start, r.detached, At(r.start, p)) {
      assert p in r.found && r.found[p] in r.found.Values;
      RanFound(cs, r, p);
    }
  }

  lemma CleanMatch(cs: Cset, r: Run)
    requires Clean(cs, r)
    ensures Match(cs, r.start, r.detached, r.added, r.attaches) && NullNode !in r.detached.nodes
  {
    CleanTargets(cs, r);
    CleanSteps(cs, r);
    CleanBodies(cs, r);
    CleanPlaces(cs, r);
    assert NodeOk(r.detached, NullNode);
  }

  // ---------- the drops ----------

  ghost predicate NoChildren(t: Tree, n: NodeId) {
    forall x :: Step(t, n, x) == NullNode
  }

  lemma DropNeeds(t: Tree, n: NodeId)
    requires Ok(t) && Loose(t, n)
    ensures CanDrop(t, n) <==> NoChildren(t, n)
  {
    assert NodeOk(t, n);
    if t.nodes[n].kind.Dir? {
      var children := t.nodes[n].kind.children;
      if NoChildren(t, n) {
        forall x ensures x !in children {
          assert ChildOk(t, n, x) && NodeOk(t, Step(t, n, x));
        }
        assert children == map[];
      }
    }
  }

  /** Nothing is attached beneath a loose node. */
  lemma NoneBeneath(t: Tree, n: NodeId, p: FilePath, x: Name)
    requires Ok(t) && Loose(t, n) && At(t, p) != NullNode
    ensures Step(t, n, x) != At(t, p)
  {
    assert ChildOk(t, n, x) && NodeOk(t, n);
    AtInside(t, p);
    if p != [] {
      var a := Components(p);
      assert a == a[..|a| - 1] + [a[|a| - 1]];
      FoundLinks(t, a[..|a| - 1], a[|a| - 1]);
      var dir := a[..|a| - 1];
      if dir != [] {
        FoundAbove(t, dir);
      }
    }
  }

  lemma FoundAbove(t: Tree, a: seq<Name>)
    requires Ok(t) && a != [] && Find(t, t.root, a) != NullNode
    ensures !Loose(t, Find(t, t.root, a))
  {
    assert a == a[..|a| - 1] + [a[|a| - 1]];
    FoundLinks(t, a[..|a| - 1], a[|a| - 1]);
  }

  lemma LooseStep(t0: Tree, t: Tree, attaches: map<FilePath, NodeId>, drops: set<NodeId>, n: NodeId, x: Name)
    requires Ok(t0) && Waiting(t0, attaches, drops) && Attaching(t0, t, attaches, attaches.Keys, drops) && n in drops
    ensures Loose(t, n) && Step(t, n, x) == Step(t0, n, x)
  {
    forall p | p in attaches.Keys ensures attaches[p] != Step(t, n, x) {
      assert At(t, p) == attaches[p];
      NoneBeneath(t, n, p, x);
    }
    StepKept(t0, t, Nodes(attaches, attaches.Keys), n, x);
  }

  lemma SameChildless(t0: Tree, t: Tree, attaches: map<FilePath, NodeId>, drops: set<NodeId>, n: NodeId)
    requires Ok(t0) && Waiting(t0, attaches, drops) && Attaching(t0, t, attaches, attaches.Keys, drops) && n in drops
    ensures CanDrop(t, n) <==> NoChildren(t0, n)
  {
    assert Loose(t, n);
    DropNeeds(t, n);
    forall x ensures Step(t, n, x) == Step(t0, n, x) {
      LooseStep(t0, t, attaches, drops, n, x);
    }
  }

  lemma NoneStays(cs: Cset, r: Run, n: NodeId)
    requires Clean(cs, r)
    ensures NoChildren(r.detached, n) <==> forall x :: Stays(cs, r.start, Step(r.start, n, x)) == Nowhere
  {
    forall x ensures Step(r.detached, n, x) == NullNode <==> Stays(cs, r.start, Step(r.start, n, x)) == Nowhere {
      DetachedStep(cs, r, n, x);
    }
  }

  lemma DropsAre(cs: Cset, r: Run)
    requires Clean(cs, r)
    ensures forall p :: p in cs.deleted ==> At(r.start, p) in r.drops
    ensures forall n :: n in r.drops ==> exists p :: p in cs.deleted && At(r.start, p) == n
  {
    forall p | p in cs.deleted ensures At(r.start, p) in r.drops {
      assert p in r.found && r.detaches[p].Drop?;
      RanFound(cs, r, p);
    }
    forall n | n in r.drops ensures exists p :: p in cs.deleted && At(r.start, p) == n {
      var p :| p in r.found && r.detaches[p].Drop? && r.found[p] == n;
      RanFound(cs, r, p);
      assert p in cs.deleted;
    }
  }

  /** All nodes taken off for good can be dropped exactly when nothing stays beneath them. */
  lemma DeletesFit(cs: Cset, r: Run)
    requires Clean(cs, r) && Attaching(r.detached, r.attached, r.attaches, r.attaches.Keys, r.drops)
    ensures DropsOk(r.attached, r.drops) <==> DeletesOk(cs, r.start)
  {
    DropsAre(cs, r);
    forall n | n in r.drops
      ensures CanDrop(r.attached, n) <==> forall x :: Stays(cs, r.start, Step(r.start, n, x)) == Nowhere
    {
      SameChildless(r.detached, r.attached, r.attaches, r.drops, n);
      NoneStays(cs, r, n);
    }
  }

  // ---------- the edits ----------

  lemma PathSettles(cs: Cset, t0: Tree, t: Tree, t': Tree, added: map<FilePath, NodeId>, attaches: map<FilePath, NodeId>,
                    drops: set<NodeId>, p: FilePath)
    requires TargetsMatch(cs, t0, added, attaches) && StepsMatch(cs, t0, t, added)
    requires Ok(t) && Waiting(t, attaches, drops) && Attaching(t, t', attaches, attaches.Keys, drops)
    ensures At(t', p) == NodeOf(added, SettlesAt(cs, t0, p))
  {
    AttachingPaths(t, t', attaches, attaches.Keys, drops, Components(p));
    assert Restrict(attaches, attaches.Keys) == attaches;
    SettlesAfter(cs, t0, t, added, attaches, Components(p));
  }

  /** Over a whole run a path comes to name the node the change set describes. */
  lemma RunSettles(cs: Cset, r: Run, p: FilePath)
    requires Clean(cs, r) && Ran(cs, r)
    ensures At(r.dropped, p) == NodeOf(r.added, SettlesAt(cs, r.start, p))
  {
    RanEndPaths(cs, r, p);
    CleanMatch(cs, r);
    PathSettles(cs, r.start, r.detached, r.attached, r.added, r.attaches, r.drops, p);
  }

  lemma {:induction false} NewIsHere(cs: Cset, t: Tree, p: FilePath)
    ensures var ref := SettlesAt(cs, t, p); ref.New? ==> ref.path == p && p in Added(cs)
  {
    NamedComponents(Added(cs), p);
  }

  lemma PatchFits(cs: Cset, r: Run, p: FilePath)
    requires Clean(cs, r) && Ran(cs, r) && Normalized(cs) && p in cs.deltas
    ensures CanPatch(r.dropped, At(r.dropped, p), cs.deltas[p].0, cs.deltas[p].1) <==> PatchOk(cs, r.start, p, cs.deltas[p])
  {
    RunSettles(cs, r, p);
    NewIsHere(cs, r.start, p);
    OldInside(cs, r.start, Components(p));
    AtInside(r.dropped, p);
    assert NodeOk(r.dropped, NullNode);
    match SettlesAt(cs, r.start, p) {
      case Nowhere =>
      case Old(n) =>
        assert NodeOk(r.start, n);
        RanBody(cs, r, n);
      case New(_) =>
        RanKind(cs, r, p);
    }
  }

  lemma AttrFits(cs: Cset, r: Run, a: AttrName, v: Attr)
    requires Clean(cs, r) && Ran(cs, r)
    ensures CanSet(r.dropped, a, v) <==> AttrOk(cs, r.start, a, v)
  {
    var p := a.0;
    RunSettles(cs, r, p);
    NewIsHere(cs, r.start, p);
    OldInside(cs, r.start, Components(p));
    AtInside(r.dropped, p);
    assert NodeOk(r.dropped, NullNode);
    match SettlesAt(cs, r.start, p) {
      case Nowhere =>
      case Old(n) =>
        assert NodeOk(r.start, n);
        RanAttrs(cs, r, n, a.1);
      case New(_) =>
        RanKind(cs, r, p);
        RanBody(cs, r, At(r.dropped, p));
    }
  }

  ghost predicate EditsOk(cs: Cset, t: Tree) {
    PatchesOk(t, cs.deltas) && SetsOk(t, Clears(cs)) && SetsOk(t, Sets(cs))
  }

  /** All edits are accepted exactly when the nodes the change set describes have what it expects. */
  lemma ChangesFit(cs: Cset, r: Run)
    requires Clean(cs, r) && Ran(cs, r) && Normalized(cs)
    ensures EditsOk(cs, r.dropped) <==> ChangesOk(cs, r.start)
  {
    forall p | p in cs.deltas
      ensures CanPatch(r.dropped, At(r.dropped, p), cs.deltas[p].0, cs.deltas[p].1) <==> PatchOk(cs, r.start, p, cs.deltas[p])
    {
      PatchFits(cs, r, p);
    }
    forall a: AttrName, v ensures CanSet(r.dropped, a, v) <==> AttrOk(cs, r.start, a, v) {
      AttrFits(cs, r, a, v);
    }
    AttrsFit(cs, r.dropped, r.start);
  }

  lemma AttrsFit(cs: Cset, t: Tree, t0: Tree)
    requires forall a: AttrName, v {:trigger CanSet(t, a, v)} {:trigger AttrOk(cs, t0, a, v)} :: CanSet(t, a, v) <==> AttrOk(cs, t0, a, v)
    ensures SetsOk(t, Clears(cs)) <==> forall a :: a in cs.cleared ==> AttrOk(cs, t0, a, (false, []))
    ensures SetsOk(t, Sets(cs)) <==> forall a :: a in cs.attrs ==> AttrOk(cs, t0, a, (true, cs.attrs[a]))
  {
    assert forall a :: a in cs.cleared ==> a in Clears(cs) && Clears(cs)[a] == (false, []);
    assert forall a :: a in cs.attrs ==> a in Sets(cs) && Sets(cs)[a] == (true, cs.attrs[a]);
  }

  // ---------- the tree described is the tree made ----------

  ghost predicate SettledAt(cs: Cset, t0: Tree, t: Tree, p: FilePath) {
    match SettlesAt(cs, t0, p)
    case Nowhere => At(t, p) == NullNode
    case Old(n) => At(t, p) == n
    case New(q) => q == p && At(t, p) in t.nodes && At(t, p) !in t0.nodes
  }

  /** Every path names what the change set describes. */
  ghost predicate Settled(cs: Cset, t0: Tree, t: Tree) {
    forall p :: SettledAt(cs, t0, t, p)
  }

  lemma RunSettled(cs: Cset, r: Run, t1: Tree, t2: Tree, last: Tree)
    requires Clean(cs, r) && Ran(cs, r) && Edited(cs, r.dropped, t1, t2, last)
    ensures Settled(cs, r.start, last)
  {
    forall p ensures SettledAt(cs, r.start, last, p) {
      EditedPaths(cs, r.dropped, t1, t2, last, p);
      RunSettles(cs, r, p);
      NewIsHere(cs, r.start, p);
      if p in Added(cs) {
        RanAdded(cs, r, p);
      }
    }
  }

  // ---------- an instance: two nodes change places ----------

  function Swap(p: FilePath, q: FilePath): Cset {
    Cset({}, {}, map[], map[p := q, q := p], map[], {}, map[])
  }

  /** No path of the change set is at or above this one. */
  ghost predicate Clear(cs: Cset, a: seq<Name>) {
    && (forall o :: o in cs.deleted || o in cs.renamed ==> !(Components(o) <= a))
    && (forall o :: o in cs.renamed.Values || o in Added(cs) ==> !(Components(o) <= a))
  }

  lemma NotLeaving(cs: Cset, t: Tree, a: seq<Name>)
    requires Ok(t) && Clear(cs, a) && Find(t, t.root, a) != NullNode
    ensures Stays(cs, t, Find(t, t.root, a)) == Old(Find(t, t.root, a))
  {
    if Leaves(cs, t, Find(t, t.root, a)) {
      var o :| (o in cs.deleted || o in cs.renamed) && At(t, o) == Find(t, t.root, a);
      FindInjective(t, Components(o), a);
    }
  }

  /** Such a path goes on naming its node. */
  lemma {:induction false} ClearSettles(cs: Cset, t: Tree, a: seq<Name>)
    requires Ok(t) && Clear(cs, a) && Find(t, t.root, a) != NullNode
    ensures Settles(cs, t, a) == Old(Find(t, t.root, a))
    decreases |a|
  {
    NotLeaving(cs, t, a);
    assert !NamedIn(cs.renamed.Values, a) && !NamedIn(Added(cs), a);
    if a != [] {
      var a', x := a[..|a| - 1], a[|a| - 1];
      assert a == a' + [x];
      FoundLinks(t, a', x);
      FindAppend(t, t.root, a', x);
      ClearSettles(cs, t, a');
    }
  }

  lemma SwapOne(t: Tree, p: FilePath, q: FilePath)
    requires Ok(t) && At(t, p) != NullNode && At(t, q) != NullNode
    requires !(Components(p) <= Components(q)) && !(Components(q) <= Components(p))
    ensures RenameOk(Swap(p, q), t, p)
  {
    var cs, a := Swap(p, q), Components(q);
    AtInside(t, p);
    var a', x := a[..|a| - 1], a[|a| - 1];
    assert a == a' + [x];
    FoundLinks(t, a', x);
    FindAppend(t, t.root, a', x);
    assert cs.renamed.Values <= {p, q};
    ClearSettles(cs, t, a');
    assert q in cs.renamed && At(t, q) == Step(t, Find(t, t.root, a'), x);
    assert NodeOk(t, At(t, p)) && ChildOk(t, Find(t, t.root, a'), x) && NodeOk(t, Find(t, t.root, a'));
    if PutBack(cs, t, p) {
      AtInjective(t, p, q);
    }
  }

  lemma SwapPaths(t: Tree, p: FilePath, q: FilePath)
    requires At(t, p) != NullNode && At(t, q) != NullNode && p != q
    ensures Swap(q, p) == Swap(p, q) && PathsOk(Swap(p, q), t)
  {
    assert map[q := p, p := q] == map[p := q, q := p];
  }

  /** Two nodes, neither above the other, can always change places, whatever is beneath them. */
  lemma SwapApplicable(t: Tree, p: FilePath, q: FilePath)
    requires Ok(t) && At(t, p) != NullNode && At(t, q) != NullNode
    requires !(Components(p) <= Components(q)) && !(Components(q) <= Components(p))
    ensures Applicable(Swap(p, q), t)
  {
    SwapOne(t, p, q);
    SwapOne(t, q, p);
    SwapPaths(t, p, q);
  }
}
