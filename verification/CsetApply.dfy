/** Applying a change set to a tree: create, detach bottom-up, attach top-down, drop, edit. */
module CsetApply {
  import opened Paths
  import opened Ordered
  import opened Rosters
  import opened Csets

  datatype Target = Drop | Reattach(path: FilePath)

  /** Detaches are sorted bottom-up. */
  predicate DetachLess(a: FilePath, b: FilePath) {
    Less(b, a)
  }

  lemma DetachesOrdered()
    ensures TotalOrder(DetachLess)
  {
    PathsOrdered();
  }

  // ---------- pending nodes ----------

  /** Nodes waiting to be attached or dropped are loose and all different. */
  ghost predicate Waiting(t: Tree, attaches: map<FilePath, NodeId>, drops: set<NodeId>) {
    && (forall p :: p in attaches ==> Loose(t, attaches[p]) && attaches[p] !in drops)
    && (forall p, q :: p in attaches && q in attaches && p != q ==> attaches[p] != attaches[q])
    && (forall n :: n in drops ==> Loose(t, n))
  }

  lemma StillLoose(t: Tree, t': Tree, n: NodeId, m: NodeId)
    requires Ok(t) && OnlyMoved(t, t', {n}) && Loose(t, m) && m != n
    requires t'.root == t.root || t'.root == NullNode || t'.root == n
    ensures Loose(t', m)
  {
    assert NodeOk(t, m);
    assert SamePlace(t.nodes[m], t'.nodes[m]);
  }

  lemma MovedTwice(t: Tree, t1: Tree, t2: Tree, a: set<NodeId>, b: set<NodeId>)
    requires OnlyMoved(t, t1, a) && OnlyMoved(t1, t2, b)
    ensures OnlyMoved(t, t2, a + b)
  {
    forall n | n in t.nodes ensures SameBody(t.nodes[n], t2.nodes[n]) {
      assert SameBody(t.nodes[n], t1.nodes[n]) && SameBody(t1.nodes[n], t2.nodes[n]);
    }
    forall n | n in t.nodes && n !in a + b ensures SamePlace(t.nodes[n], t2.nodes[n]) {
      assert SamePlace(t.nodes[n], t1.nodes[n]) && SamePlace(t1.nodes[n], t2.nodes[n]);
    }
  }

  lemma ValuesInsert(m: map<FilePath, NodeId>, p: FilePath, n: NodeId)
    requires p !in m
    ensures m[p := n].Values == m.Values + {n}
  {
    var m' := m[p := n];
    forall v | v in m.Values ensures v in m'.Values {
      var q :| q in m && m[q] == v;
      assert q in m' && m'[q] == v;
    }
    assert p in m' && m'[p] == n;
  }

  lemma KeysInsert(m: map<FilePath, NodeId>, p: FilePath, n: NodeId)
    ensures m[p := n].Keys == m.Keys + {p}
  {
  }

  // ---------- detaching ----------

  /** What became of the detached nodes: `found` gives the node of each path done so far. */
  ghost predicate Scheduled(found: map<FilePath, NodeId>, detaches: map<FilePath, Target>,
                            before: map<FilePath, NodeId>, attaches: map<FilePath, NodeId>, drops: set<NodeId>) {
    && found.Keys <= detaches.Keys
    && (forall p :: p in before ==> p in attaches && attaches[p] == before[p])
    && (forall p :: p in found && detaches[p].Drop? ==> found[p] in drops)
    && (forall p :: p in found && detaches[p].Reattach? ==>
          detaches[p].path in attaches && attaches[detaches[p].path] == found[p])
    && (forall n :: n in drops ==> exists p :: p in found && detaches[p].Drop? && found[p] == n)
    && (forall q :: q in attaches && q !in before ==> exists p :: p in found && detaches[p] == Reattach(q))
  }

  lemma ScheduleAttach(found: map<FilePath, NodeId>, detaches: map<FilePath, Target>, before: map<FilePath, NodeId>,
                       attaches: map<FilePath, NodeId>, drops: set<NodeId>, p: FilePath, n: NodeId)
    requires Scheduled(found, detaches, before, attaches, drops)
    requires p in detaches && p !in found && detaches[p].Reattach? && detaches[p].path !in attaches
    ensures Scheduled(found[p := n], detaches, before, attaches[detaches[p].path := n], drops)
  {
    var found', attaches' := found[p := n], attaches[detaches[p].path := n];
    forall m | m in drops ensures exists q :: q in found' && detaches[q].Drop? && found'[q] == m {
      var q :| q in found && detaches[q].Drop? && found[q] == m;
      assert q in found' && found'[q] == m;
    }
    forall q | q in attaches' && q !in before ensures exists o :: o in found' && detaches[o] == Reattach(q) {
      if q == detaches[p].path {
        assert p in found';
      } else {
        var o :| o in found && detaches[o] == Reattach(q);
        assert o in found';
      }
    }
  }

  lemma ScheduleDrop(found: map<FilePath, NodeId>, detaches: map<FilePath, Target>, before: map<FilePath, NodeId>,
                     attaches: map<FilePath, NodeId>, drops: set<NodeId>, p: FilePath, n: NodeId)
    requires Scheduled(found, detaches, before, attaches, drops)
    requires p in detaches && p !in found && detaches[p].Drop?
    ensures Scheduled(found[p := n], detaches, before, attaches, drops + {n})
  {
    var found' := found[p := n];
    forall m | m in drops + {n} ensures exists q :: q in found' && detaches[q].Drop? && found'[q] == m {
      if m == n {
        assert p in found' && found'[p] == m;
      } else {
        var q :| q in found && detaches[q].Drop? && found[q] == m;
        assert q in found' && found'[q] == m;
      }
    }
    forall q | q in attaches && q !in before ensures exists o :: o in found' && detaches[o] == Reattach(q) {
      var o :| o in found && detaches[o] == Reattach(q);
      assert o in found';
    }
  }

  /** Where the given nodes are. */
  function PlacesOf(t: Tree, s: set<NodeId>): map<NodeId, Place> {
    map n | n in s && n in t.nodes :: Place(t.nodes[n].parent, t.nodes[n].name)
  }

  /** The places the detached nodes were taken from are remembered. */
  ghost predicate Remembered(t0: Tree, t: Tree, nodes: set<NodeId>) {
    t.places == t0.places + PlacesOf(t0, nodes) && t0.places.Keys !! nodes
  }

  /** After the paths in `found`: each gave its original node, and every other detach path still
      names its own. */
  ghost predicate Detaching(t0: Tree, t: Tree, detaches: map<FilePath, Target>, found: map<FilePath, NodeId>) {
    && Ok(t) && OnlyMoved(t0, t, found.Values) && t.root == (if [] in found then NullNode else t0.root)
    && (forall p {:trigger At(t0, p)} :: p in found ==> found[p] == At(t0, p) != NullNode)
    && (forall q {:trigger At(t, q)} :: q in detaches && q !in found ==> At(t, q) == At(t0, q))
  }

  lemma PlaceInsert(m: map<NodeId, Place>, a: map<NodeId, Place>, n: NodeId, v: Place)
    ensures (m + a)[n := v] == m + a[n := v]
  {
  }

  lemma PlacesInsert(t: Tree, s: set<NodeId>, n: NodeId)
    requires n in t.nodes
    ensures PlacesOf(t, s + {n}) == PlacesOf(t, s)[n := Place(t.nodes[n].parent, t.nodes[n].name)]
  {
  }

  lemma DetachRemembers(t0: Tree, t: Tree, s: set<NodeId>, n: NodeId)
    requires n in t0.nodes && n in t.nodes && SamePlace(t0.nodes[n], t.nodes[n]) && Remembered(t0, t, s) && n !in t.places
    ensures Remembered(t0, Detached(t, n), s + {n})
  {
    PlacesInsert(t0, s, n);
    PlaceInsert(t0.places, PlacesOf(t0, s), n, Place(t.nodes[n].parent, t.nodes[n].name));
  }

  lemma NotFoundYet(t0: Tree, t: Tree, detaches: map<FilePath, Target>, found: map<FilePath, NodeId>, p: FilePath)
    requires Ok(t0) && Detaching(t0, t, detaches, found) && p in detaches && p !in found && At(t, p) != NullNode
    ensures At(t, p) == At(t0, p) && At(t, p) !in found.Values
    ensures Remembered(t0, t, found.Values) ==> (CanDetach(t, p) <==> CanDetach(t0, p))
  {
    forall q | q in found ensures found[q] != At(t, p) {
      if found[q] == At(t0, p) {
        AtInjective(t0, p, q);
      }
    }
  }

  lemma NotBeneath(p: FilePath, q: FilePath)
    requires Less(q, p)
    ensures !(Components(p) <= Components(q))
  {
    LessTrichotomy(p, q);
    if Components(p) == Components(q) {
      ComponentsInjective(p, q);
    } else if Components(p) < Components(q) {
      DirectoryFirst(p, q);
    }
  }

  /** The path detached next is not above any that remain, so their nodes stay put. */
  lemma DetachOne(t0: Tree, t: Tree, detaches: map<FilePath, Target>, found: map<FilePath, NodeId>, p: FilePath)
    requires Detaching(t0, t, detaches, found) && p in detaches && p !in found && At(t, p) != NullNode
    requires forall q :: q in detaches && q !in found && q != p ==> Less(q, p)
    ensures At(t, p) in t.nodes && Detaching(t0, Detached(t, At(t, p)), detaches, found[p := At(t, p)])
  {
    var n := At(t, p);
    AtInside(t, p);
    DetachOk(t, p);
    var t' := Detached(t, n);
    MovedTwice(t0, t, t', found.Values, {n});
    ValuesInsert(found, p, n);
    forall q | q in detaches && q !in found[p := n] ensures At(t', q) == At(t0, q) {
      NotBeneath(p, q);
    }
  }

  lemma DetachFrees(t: Tree, p: FilePath)
    requires Ok(t) && At(t, p) != NullNode
    ensures At(t, p) in t.nodes && Loose(Detached(t, At(t, p)), At(t, p))
    ensures forall m :: Loose(t, m) ==> Loose(Detached(t, At(t, p)), m) && m != At(t, p)
  {
    AtInside(t, p);
    DetachOk(t, p);
    forall m | Loose(t, m) ensures Loose(Detached(t, At(t, p)), m) && m != At(t, p) {
      StillLoose(t, Detached(t, At(t, p)), At(t, p), m);
    }
  }

  /** One detach, and what is scheduled for the node. */
  method DetachNext(r: Roster, p: FilePath, target: Target, attaches: map<FilePath, NodeId>, drops: set<NodeId>)
      returns (ok: bool, n: NodeId, attaches': map<FilePath, NodeId>, drops': set<NodeId>)
    requires Ok(r.Snap()) && Waiting(r.Snap(), attaches, drops) && Normal(p)
    modifies r
    ensures ok == (CanDetach(old(r.Snap()), p) && (target.Reattach? ==> target.path !in attaches))
    ensures ok ==> n == At(old(r.Snap()), p) != NullNode && n in old(r.nodes) && r.Snap() == Detached(old(r.Snap()), n)
    ensures ok ==> Waiting(r.Snap(), attaches', drops')
    ensures ok && target.Drop? ==> attaches' == attaches && drops' == drops + {n}
    ensures ok && target.Reattach? ==> target.path !in attaches && attaches' == attaches[target.path := n] && drops' == drops
  {
    ghost var t := r.Snap();
    attaches', drops' := attaches, drops;
    ok, n := r.DetachNode(p);
    if !ok {
      return;
    }
    DetachFrees(t, p);
    match target {
      case Reattach(q) =>
        ok := q !in attaches;
        attaches' := attaches[q := n];
      case Drop =>
        drops' := drops + {n};
    }
  }

  ghost predicate DetachState(t0: Tree, t: Tree, detaches: map<FilePath, Target>, found: map<FilePath, NodeId>,
                              before: map<FilePath, NodeId>, attaches: map<FilePath, NodeId>, drops: set<NodeId>) {
    && Detaching(t0, t, detaches, found) && Remembered(t0, t, found.Values)
    && Waiting(t, attaches, drops)
    && Scheduled(found, detaches, before, attaches, drops)
  }

  lemma DetachedNext(t0: Tree, t: Tree, detaches: map<FilePath, Target>, found: map<FilePath, NodeId>,
                     before: map<FilePath, NodeId>, attaches: map<FilePath, NodeId>, drops: set<NodeId>, p: FilePath,
                     n: NodeId, attaches': map<FilePath, NodeId>, drops': set<NodeId>)
    requires Ok(t0) && DetachState(t0, t, detaches, found, before, attaches, drops)
    requires p in detaches && p !in found && CanDetach(t, p) && n == At(t, p) && n in t.nodes
    requires forall q :: q in detaches && q !in found && q != p ==> Less(q, p)
    requires Waiting(Detached(t, n), attaches', drops')
    requires detaches[p].Drop? ==> attaches' == attaches && drops' == drops + {n}
    requires detaches[p].Reattach? ==>
        detaches[p].path !in attaches && attaches' == attaches[detaches[p].path := n] && drops' == drops
    ensures DetachState(t0, Detached(t, n), detaches, found[p := n], before, attaches', drops')
  {
    NotFoundYet(t0, t, detaches, found, p);
    assert SamePlace(t0.nodes[n], t.nodes[n]);
    DetachRemembers(t0, t, found.Values, n);
    ValuesInsert(found, p, n);
    DetachOne(t0, t, detaches, found, p);
    if detaches[p].Drop? {
      ScheduleDrop(found, detaches, before, attaches, drops, p, n);
    } else {
      ScheduleAttach(found, detaches, before, attaches, drops, p, n);
    }
  }

  /** When all detaches are accepted: every path names a node that is not detached already, and no
      two nodes are to be attached at one path. */
  ghost predicate DetachesOk(t0: Tree, detaches: map<FilePath, Target>, before: map<FilePath, NodeId>) {
    && (forall p :: p in detaches ==> CanDetach(t0, p))
    && (forall p :: p in detaches && detaches[p].Reattach? ==> detaches[p].path !in before)
    && (forall p, q :: p in detaches && q in detaches && p != q && detaches[p].Reattach? ==> detaches[q] != detaches[p])
  }

  lemma DetachRefused(t0: Tree, t: Tree, detaches: map<FilePath, Target>, found: map<FilePath, NodeId>,
                      before: map<FilePath, NodeId>, attaches: map<FilePath, NodeId>, drops: set<NodeId>, p: FilePath)
    requires Ok(t0) && DetachState(t0, t, detaches, found, before, attaches, drops)
    requires p in detaches && p !in found
    requires !CanDetach(t, p) || (detaches[p].Reattach? && detaches[p].path in attaches)
    ensures !DetachesOk(t0, detaches, before)
  {
    if !CanDetach(t, p) {
      if At(t, p) != NullNode {
        NotFoundYet(t0, t, detaches, found, p);
      }
      assert !CanDetach(t0, p);
    } else if detaches[p].path !in before {
      var o :| o in found && detaches[o] == Reattach(detaches[p].path);
      assert o in detaches && detaches[o] == detaches[p];
    }
  }

  lemma DetachAccepted(t0: Tree, t: Tree, detaches: map<FilePath, Target>, found: map<FilePath, NodeId>,
                       before: map<FilePath, NodeId>, attaches: map<FilePath, NodeId>, drops: set<NodeId>)
    requires Ok(t0) && Waiting(t0, before, {}) && found.Keys == detaches.Keys
    requires DetachState(t0, t, detaches, found, before, attaches, drops)
    ensures DetachesOk(t0, detaches, before)
  {
    forall p | p in detaches ensures CanDetach(t0, p) {
      assert p in found && found[p] == At(t0, p);
    }
    forall p | p in detaches && detaches[p].Reattach? ensures detaches[p].path !in before {
      assert p in found && found[p] == At(t0, p);
      AtInside(t0, p);
    }
    forall p, q | p in detaches && q in detaches && p != q && detaches[p].Reattach? ensures detaches[q] != detaches[p] {
      assert p in found && q in found && found[p] == At(t0, p) && found[q] == At(t0, q);
      if At(t0, p) == At(t0, q) {
        AtInjective(t0, p, q);
      }
    }
  }

  method DetachMore(r: Roster, p: FilePath, detaches: map<FilePath, Target>, ghost t0: Tree, ghost found: map<FilePath, NodeId>,
                    ghost before: map<FilePath, NodeId>, attaches: map<FilePath, NodeId>, drops: set<NodeId>)
      returns (ok: bool, attaches': map<FilePath, NodeId>, drops': set<NodeId>, ghost found': map<FilePath, NodeId>)
    requires Ok(t0) && DetachState(t0, r.Snap(), detaches, found, before, attaches, drops)
    requires p in detaches && p !in found && Normal(p)
    requires forall q :: q in detaches && q !in found && q != p ==> Less(q, p)
    modifies r
    ensures !ok ==> !DetachesOk(t0, detaches, before)
    ensures ok ==> DetachState(t0, r.Snap(), detaches, found', before, attaches', drops') && found'.Keys == found.Keys + {p}
  {
    ghost var t := r.Snap();
    var n;
    ok, n, attaches', drops' := DetachNext(r, p, detaches[p], attaches, drops);
    found' := found[p := n];
    KeysInsert(found, p, n);
    if ok {
      DetachedNext(t0, t, detaches, found, before, attaches, drops, p, n, attaches', drops');
    } else {
      DetachRefused(t0, t, detaches, found, before, attaches, drops, p);
    }
  }

  lemma DetachStart(t: Tree, detaches: map<FilePath, Target>, before: map<FilePath, NodeId>)
    requires Ok(t) && Waiting(t, before, {})
    ensures DetachState(t, t, detaches, map[], before, before, {})
  {
    assert PlacesOf(t, {}) == map[];
  }

  /** The next path in the order of detaches. */
  method LastPath(todo: set<FilePath>) returns (p: FilePath)
    requires todo != {}
    ensures p in todo && forall q :: q in todo && q != p ==> Less(q, p)
  {
    DetachesOrdered();
    p := Least(todo, DetachLess);
  }

  method DetachAll(r: Roster, detaches: map<FilePath, Target>, before: map<FilePath, NodeId>)
      returns (ok: bool, attaches: map<FilePath, NodeId>, drops: set<NodeId>, ghost found: map<FilePath, NodeId>)
    requires Ok(r.Snap()) && Waiting(r.Snap(), before, {})
    requires forall p :: p in detaches ==> Normal(p)
    modifies r
    ensures ok == DetachesOk(old(r.Snap()), detaches, before)
    ensures ok ==> found.Keys == detaches.Keys
    ensures ok ==> DetachState(old(r.Snap()), r.Snap(), detaches, found, before, attaches, drops)
  {
    ghost var t0 := r.Snap();
    attaches, drops, found := before, {}, map[];
    DetachStart(t0, detaches, before);
    var todo := detaches.Keys;
    while todo != {}
      invariant Split2(detaches.Keys, found.Keys, todo)
      invariant DetachState(t0, r.Snap(), detaches, found, before, attaches, drops)
      decreases |todo|
    {
      var p := LastPath(todo);
      MoveOne(detaches.Keys, found.Keys, todo, p);
      ok, attaches, drops, found := DetachMore(r, p, detaches, t0, found, before, attaches, drops);
      if !ok {
        return;
      }
      todo := todo - {p};
    }
    ok := true;
    assert found.Keys == detaches.Keys;
    DetachAccepted(t0, r.Snap(), detaches, found, before, attaches, drops);
  }

  // ---------- dropping ----------

  ghost predicate Dropping(t0: Tree, t: Tree, drops: set<NodeId>, done: set<NodeId>) {
    && Ok(t) && SameSteps(t0, t) && done <= drops && t.nodes == t0.nodes - done && t.places == t0.places - done
    && forall n :: n in drops - done ==> Loose(t, n)
  }

  lemma DropOne(t0: Tree, t: Tree, drops: set<NodeId>, done: set<NodeId>, n: NodeId)
    requires Dropping(t0, t, drops, done) && n in drops - done && CanDrop(t, n)
    ensures Dropping(t0, Dropped(t, n), drops, done + {n})
  {
    DropOk(t, n);
    forall m | m in drops - (done + {n}) ensures Loose(Dropped(t, n), m) {
      assert m in drops - done;
    }
  }

  ghost predicate DropsOk(t: Tree, drops: set<NodeId>) {
    forall n :: n in drops ==> CanDrop(t, n)
  }

  method DropAll(r: Roster, drops: set<NodeId>) returns (ok: bool)
    requires Ok(r.Snap()) && forall n :: n in drops ==> Loose(r.Snap(), n)
    modifies r
    ensures ok == DropsOk(old(r.Snap()), drops)
    ensures ok ==> Dropping(old(r.Snap()), r.Snap(), drops, drops)
  {
    ghost var t0 := r.Snap();
    var todo := drops;
    ghost var done := {};
    while todo != {}
      invariant Split2(drops, done, todo)
      invariant Dropping(t0, r.Snap(), drops, done)
      invariant forall n :: n in done ==> CanDrop(t0, n)
      decreases |todo|
    {
      var n := LeastNat(todo);
      ghost var t := r.Snap();
      ok := r.DropDetachedNode(n);
      if !ok {
        return;
      }
      DropOne(t0, t, drops, done, n);
      MoveOne(drops, done, todo, n);
      done, todo := done + {n}, todo - {n};
    }
    ok := true;
    assert done == drops;
  }

  // ---------- creating ----------

  function NewKind(dirs: set<FilePath>, files: map<FilePath, FileId>, p: FilePath): Kind {
    if p in files && p !in dirs then File(files[p]) else Dir(map[])
  }

  ghost predicate Creating(t0: Tree, t: Tree, dirs: set<FilePath>, files: map<FilePath, FileId>, attaches: map<FilePath, NodeId>) {
    && Ok(t) && SameSteps(t0, t) && Waiting(t, attaches, {}) && t.next >= t0.next && t.places == t0.places
    && (forall n :: n in t0.nodes ==> n in t.nodes && t.nodes[n] == t0.nodes[n])
    && (forall n :: n in t.nodes && n !in t0.nodes ==> n in attaches.Values)
    && (forall p :: p in attaches ==> attaches[p] !in t0.nodes)
    && (forall p :: p in attaches ==> t.nodes[attaches[p]] == Node(NullNode, [], map[], NewKind(dirs, files, p)))
  }

  lemma CreateOne(t0: Tree, t: Tree, dirs: set<FilePath>, files: map<FilePath, FileId>, attaches: map<FilePath, NodeId>,
                  p: FilePath)
    requires Creating(t0, t, dirs, files, attaches) && p !in attaches
    ensures Creating(t0, Created(t, NewKind(dirs, files, p)), dirs, files, attaches[p := t.next])
  {
    var kind := NewKind(dirs, files, p);
    CreateOk(t, kind);
    var t' := Created(t, kind);
    var attaches' := attaches[p := t.next];
    assert NodeOk(t, t.next);
    ValuesInsert(attaches, p, t.next);
    assert t.next !in t0.nodes;
    forall q | q in attaches ensures attaches[q] != t.next && Loose(t', attaches[q]) {
      assert Loose(t, attaches[q]);
    }
  }

  method CreateDirs(r: Roster, dirs: set<FilePath>, files: map<FilePath, FileId>) returns (attaches: map<FilePath, NodeId>)
    requires Ok(r.Snap())
    modifies r
    ensures Creating(old(r.Snap()), r.Snap(), dirs, files, attaches) && attaches.Keys == dirs
  {
    ghost var t0 := r.Snap();
    attaches := map[];
    var todo := dirs;
    while todo != {}
      invariant todo <= dirs && attaches.Keys == dirs - todo
      invariant Creating(t0, r.Snap(), dirs, files, attaches)
      decreases |todo|
    {
      var p := FirstPath(todo);
      CreateOne(t0, r.Snap(), dirs, files, attaches, p);
      var n := r.CreateDirNode();
      attaches := attaches[p := n];
      todo := todo - {p};
    }
  }

  method CreateFile(r: Roster, p: FilePath, dirs: set<FilePath>, files: map<FilePath, FileId>, before: map<FilePath, NodeId>,
                    ghost t0: Tree)
      returns (ok: bool, attaches: map<FilePath, NodeId>)
    requires Creating(t0, r.Snap(), dirs, files, before) && dirs <= before.Keys && p in files
    modifies r
    ensures ok == (p !in before)
    ensures ok ==> Creating(t0, r.Snap(), dirs, files, attaches) && attaches.Keys == before.Keys + {p}
  {
    if p in before {
      return false, before;
    }
    CreateOne(t0, r.Snap(), dirs, files, before, p);
    var n := r.CreateFileNode(files[p]);
    return true, before[p := n];
  }

  /** `keys` are the directories and the files done so far, which are no directories. */
  ghost predicate FilesLeft(dirs: set<FilePath>, files: set<FilePath>, keys: set<FilePath>, todo: set<FilePath>) {
    todo <= files && keys == dirs + (files - todo) && dirs !! (files - todo)
  }

  lemma OneFileLess(dirs: set<FilePath>, files: set<FilePath>, keys: set<FilePath>, todo: set<FilePath>, p: FilePath)
    requires FilesLeft(dirs, files, keys, todo) && p in todo && p !in keys
    ensures FilesLeft(dirs, files, keys + {p}, todo - {p})
  {
  }

  method CreateFiles(r: Roster, dirs: set<FilePath>, files: map<FilePath, FileId>, before: map<FilePath, NodeId>, ghost t0: Tree)
      returns (ok: bool, attaches: map<FilePath, NodeId>)
    requires Creating(t0, r.Snap(), dirs, files, before) && before.Keys == dirs
    modifies r
    ensures ok == (dirs !! files.Keys)
    ensures ok ==> Creating(t0, r.Snap(), dirs, files, attaches) && FilesLeft(dirs, files.Keys, attaches.Keys, {})
  {
    attaches := before;
    var todo := files.Keys;
    while todo != {}
      invariant FilesLeft(dirs, files.Keys, attaches.Keys, todo)
      invariant Creating(t0, r.Snap(), dirs, files, attaches)
      decreases |todo|
    {
      var p := FirstPath(todo);
      ghost var keys := attaches.Keys;
      ok, attaches := CreateFile(r, p, dirs, files, attaches, t0);
      if !ok {
        return;
      }
      OneFileLess(dirs, files.Keys, keys, todo, p);
      todo := todo - {p};
    }
    ok := true;
  }
}
