/** A whole run of a change set against a tree. */
module ApplyTo {
  import opened Paths
  import opened Ordered
  import opened Rosters
  import opened Csets
  import opened CsetApply
  import opened CsetAttach
  import opened CsetEdits

  // ---------- what an accepted run achieves ----------

  /** The type invariant of paths. */
  ghost predicate PathsNormal(cs: Cset) {
    && (forall p :: p in cs.deleted || p in cs.dirs || p in cs.files || p in cs.renamed ==> Normal(p))
    && (forall p :: p in cs.renamed ==> Normal(cs.renamed[p]))
  }

  /** Deleted paths named nodes that are gone, and nothing else is gone. */
  ghost predicate Deletes(cs: Cset, t0: Tree, t: Tree) {
    && (forall p :: p in cs.deleted ==> At(t0, p) in t0.nodes && At(t0, p) !in t.nodes)
    && (forall n :: n in t0.nodes && n !in t.nodes ==> exists p :: p in cs.deleted && At(t0, p) == n)
  }

  /** Every renamed node ends at its destination, and nothing else moves. */
  ghost predicate Renames(cs: Cset, t0: Tree, t: Tree) {
    && (forall p :: p in cs.renamed ==> At(t0, p) in t0.nodes && At(t0, p) in t.nodes && At(t, cs.renamed[p]) == At(t0, p))
    && (forall n :: n in t0.nodes && n in t.nodes && !SamePlace(t0.nodes[n], t.nodes[n]) ==>
          exists p :: p in cs.renamed && At(t0, p) == n)
  }

  /** Added paths hold fresh nodes, and nothing else is fresh. */
  ghost predicate Adds(cs: Cset, t0: Tree, t: Tree) {
    && (forall p :: p in cs.dirs || p in cs.files ==> At(t, p) !in t0.nodes && At(t, p) in t.nodes)
    && (forall n :: n in t.nodes && n !in t0.nodes ==> exists p :: (p in cs.dirs || p in cs.files) && At(t, p) == n)
  }

  /** New files have their contents, patched files went from the old to the new, and all other
      files are as they were. */
  ghost predicate Patches(cs: Cset, t0: Tree, t: Tree) {
    && (forall p :: p in cs.dirs ==> IsDir(t, At(t, p)))
    && (forall p :: p in cs.files ==> At(t, p) in t.nodes && t.nodes[At(t, p)].kind == File(cs.files[p]))
    && (forall p :: p in cs.deltas ==> PatchDone(t0, t, At(t, p), cs.deltas[p]))
    && (forall n :: n in t0.nodes && n in t.nodes ==> t.nodes[n].kind.Dir? == t0.nodes[n].kind.Dir?)
    && (forall n :: n in t0.nodes && n in t.nodes && t0.nodes[n].kind.File? && t.nodes[n].kind != t0.nodes[n].kind ==>
          exists p :: p in cs.deltas && At(t, p) == n)
  }

  ghost predicate AttrGoes(t0: Tree, t: Tree, a: AttrName, v: Attr) {
    At(t, a.0) in t.nodes && AttrOf(t0, At(t, a.0), a.1) != v && AttrOf(t, At(t, a.0), a.1) == v
  }

  /** The listed attributes changed as listed, all others not at all. */
  ghost predicate Attributes(cs: Cset, t0: Tree, t: Tree) {
    && (forall a :: a in cs.cleared ==> AttrGoes(t0, t, a, (false, [])))
    && (forall a :: a in cs.attrs ==> AttrGoes(t0, t, a, (true, cs.attrs[a])))
    && (forall n, k {:trigger AttrOf(t, n, k)} :: n in t.nodes && AttrOf(t, n, k) != AttrOf(t0, n, k) ==>
          exists a :: (a in cs.cleared || a in cs.attrs) && At(t, a.0) == n && a.1 == k)
  }

  ghost predicate RootKept(cs: Cset, t0: Tree, t: Tree) {
    [] !in cs.deleted && [] !in cs.renamed && t0.root != NullNode ==> t.root == t0.root
  }

  /** The whole effect of a change set. */
  ghost predicate Applied(cs: Cset, t0: Tree, t: Tree) {
    && Ok(t) && RootKept(cs, t0, t) && Deletes(cs, t0, t) && Renames(cs, t0, t) && Adds(cs, t0, t)
    && Patches(cs, t0, t) && Attributes(cs, t0, t)
  }

  // ---------- the phases of a run that move nodes ----------

  ghost predicate DetachesOf(cs: Cset, detaches: map<FilePath, Target>) {
    && detaches.Keys == cs.deleted + cs.renamed.Keys && cs.deleted !! cs.renamed.Keys
    && (forall p :: p in cs.deleted ==> detaches[p] == Drop)
    && (forall p :: p in cs.renamed ==> detaches[p] == Reattach(cs.renamed[p]))
  }

  /** The trees after each phase, and what was scheduled on the way. */
  datatype Run = Run(start: Tree, created: Tree, detached: Tree, attached: Tree, dropped: Tree,
                     added: map<FilePath, NodeId>, detaches: map<FilePath, Target>, found: map<FilePath, NodeId>,
                     attaches: map<FilePath, NodeId>, drops: set<NodeId>)

  ghost predicate Taken(cs: Cset, r: Run) {
    && Ok(r.start)
    && Creating(r.start, r.created, cs.dirs, cs.files, r.added) && FilesLeft(cs.dirs, cs.files.Keys, r.added.Keys, {})
    && DetachesOf(cs, r.detaches) && r.found.Keys == r.detaches.Keys
    && DetachState(r.created, r.detached, r.detaches, r.found, r.added, r.attaches, r.drops)
  }

  ghost predicate Ran(cs: Cset, r: Run) {
    && Taken(cs, r)
    && Attaching(r.detached, r.attached, r.attaches, r.attaches.Keys, r.drops)
    && Dropping(r.attached, r.dropped, r.drops, r.drops)
  }

  lemma RanStartPaths(cs: Cset, r: Run, p: FilePath)
    requires Taken(cs, r)
    ensures At(r.created, p) == At(r.start, p)
  {
    SameFind(r.start, r.created, r.start.root, Components(p));
  }

  lemma RanEndPaths(cs: Cset, r: Run, p: FilePath)
    requires Ran(cs, r)
    ensures At(r.dropped, p) == At(r.attached, p)
  {
    SameFind(r.attached, r.dropped, r.attached.root, Components(p));
  }

  /** Each detach returned the node its path named in the original tree. */
  lemma RanFound(cs: Cset, r: Run, p: FilePath)
    requires Taken(cs, r) && p in r.found
    ensures r.found[p] == At(r.start, p) && At(r.start, p) in r.start.nodes
  {
    RanStartPaths(cs, r, p);
    AtInside(r.start, p);
    assert r.found[p] == At(r.created, p) != NullNode;
  }

  lemma RanMoved(cs: Cset, r: Run, n: NodeId)
    requires Ran(cs, r) && n in r.created.nodes
    ensures n in r.attached.nodes && SameBody(r.created.nodes[n], r.attached.nodes[n])
    ensures n !in r.found.Values && n !in r.attaches.Values ==> SamePlace(r.created.nodes[n], r.attached.nodes[n])
    ensures n in r.dropped.nodes <==> n !in r.drops
    ensures n in r.dropped.nodes ==> r.dropped.nodes[n] == r.attached.nodes[n]
  {
    MovedTwice(r.created, r.detached, r.attached, r.found.Values, Nodes(r.attaches, r.attaches.Keys));
    assert r.dropped.nodes == r.attached.nodes - r.drops;
    var t := r.attached;
    assert SameBody(r.created.nodes[n], t.nodes[n]);
  }

  /** What is attached is fresh or was detached. */
  lemma RanAttaches(cs: Cset, r: Run, n: NodeId)
    requires Ran(cs, r) && n in r.attaches.Values && n in r.start.nodes
    ensures n in r.found.Values
  {
    var q :| q in r.attaches && r.attaches[q] == n;
    assert q !in r.added;
    var p :| p in r.found && r.detaches[p] == Reattach(q);
    assert r.attaches[q] == r.found[p];
  }

  lemma RanDeletes(cs: Cset, r: Run)
    requires Ran(cs, r)
    ensures Deletes(cs, r.start, r.dropped)
  {
    forall p | p in cs.deleted ensures At(r.start, p) in r.start.nodes && At(r.start, p) !in r.dropped.nodes {
      RanFound(cs, r, p);
      assert r.detaches[p].Drop?;
      RanMoved(cs, r, r.found[p]);
    }
    forall n | n in r.start.nodes && n !in r.dropped.nodes ensures exists p :: p in cs.deleted && At(r.start, p) == n {
      RanMoved(cs, r, n);
      var p :| p in r.found && r.detaches[p].Drop? && r.found[p] == n;
      RanFound(cs, r, p);
      assert p in cs.deleted;
    }
  }

  lemma RanRenames(cs: Cset, r: Run)
    requires Ran(cs, r)
    ensures Renames(cs, r.start, r.dropped)
  {
    forall p | p in cs.renamed
      ensures At(r.start, p) in r.start.nodes && At(r.start, p) in r.dropped.nodes && At(r.dropped, cs.renamed[p]) == At(r.start, p)
    {
      RanRenamed(cs, r, p);
    }
    forall n | n in r.start.nodes && n in r.dropped.nodes && !SamePlace(r.start.nodes[n], r.dropped.nodes[n])
      ensures exists p :: p in cs.renamed && At(r.start, p) == n
    {
      RanMoved(cs, r, n);
      if n in r.attaches.Values {
        RanAttaches(cs, r, n);
      }
      var p :| p in r.found && r.found[p] == n;
      RanFound(cs, r, p);
      assert p in cs.renamed;
    }
  }

  lemma RanRenamed(cs: Cset, r: Run, p: FilePath)
    requires Ran(cs, r) && p in cs.renamed
    ensures At(r.start, p) in r.start.nodes && At(r.start, p) in r.dropped.nodes
    ensures At(r.dropped, cs.renamed[p]) == At(r.start, p)
  {
    RanFound(cs, r, p);
    var q := cs.renamed[p];
    assert r.detaches[p] == Reattach(q) && r.attaches[q] == r.found[p];
    RanMoved(cs, r, r.found[p]);
    assert q in r.attaches.Keys && At(r.attached, q) == r.attaches[q];
    RanEndPaths(cs, r, q);
    assert r.attaches[q] !in r.drops;
  }

  lemma RanAdded(cs: Cset, r: Run, p: FilePath)
    requires Ran(cs, r) && (p in cs.dirs || p in cs.files)
    ensures p in r.added && At(r.dropped, p) == r.added[p] && r.added[p] !in r.start.nodes && r.added[p] in r.dropped.nodes
  {
    assert p in r.added && r.attaches[p] == r.added[p];
    assert Loose(r.created, r.added[p]);
    RanMoved(cs, r, r.added[p]);
    assert At(r.attached, p) == r.attaches[p];
    RanEndPaths(cs, r, p);
  }

  lemma RanAdds(cs: Cset, r: Run)
    requires Ran(cs, r)
    ensures Adds(cs, r.start, r.dropped)
  {
    forall p | p in cs.dirs || p in cs.files ensures At(r.dropped, p) !in r.start.nodes && At(r.dropped, p) in r.dropped.nodes {
      RanAdded(cs, r, p);
    }
    forall n | n in r.dropped.nodes && n !in r.start.nodes
      ensures exists p :: (p in cs.dirs || p in cs.files) && At(r.dropped, p) == n
    {
      assert n in r.attached.nodes && n in r.detached.nodes && n in r.created.nodes;
      var p :| p in r.added && r.added[p] == n;
      assert p in cs.dirs || p in cs.files;
      RanAdded(cs, r, p);
    }
  }

  lemma RanRoot(cs: Cset, r: Run)
    requires Ran(cs, r)
    ensures RootKept(cs, r.start, r.dropped)
  {
  }

  /** Moving keeps bodies: a surviving node's is the original one, a fresh node's the created one. */
  lemma RanBody(cs: Cset, r: Run, n: NodeId)
    requires Ran(cs, r) && n in r.dropped.nodes
    ensures n in r.start.nodes ==> SameBody(r.start.nodes[n], r.dropped.nodes[n])
    ensures n !in r.start.nodes ==> r.dropped.nodes[n].attrs == map[]
  {
    assert n in r.attached.nodes && n in r.detached.nodes && n in r.created.nodes;
    RanMoved(cs, r, n);
    if n !in r.start.nodes {
      var p :| p in r.added && r.added[p] == n;
      assert r.created.nodes[n].attrs == map[];
    }
  }

  lemma RanCreated(cs: Cset, r: Run, p: FilePath)
    requires Ran(cs, r) && p in r.added
    ensures r.added[p] in r.created.nodes && r.created.nodes[r.added[p]].kind == NewKind(cs.dirs, cs.files, p)
    ensures p in cs.files ==> p !in cs.dirs
  {
    assert Loose(r.created, r.added[p]);
  }

  lemma RanKind(cs: Cset, r: Run, p: FilePath)
    requires Ran(cs, r) && (p in cs.dirs || p in cs.files)
    ensures At(r.dropped, p) in r.dropped.nodes && At(r.dropped, p) !in r.start.nodes
    ensures p in cs.dirs ==> r.dropped.nodes[At(r.dropped, p)].kind.Dir?
    ensures p in cs.files ==> r.dropped.nodes[At(r.dropped, p)].kind == File(cs.files[p])
  {
    RanAdded(cs, r, p);
    RanCreated(cs, r, p);
    RanMoved(cs, r, r.added[p]);
  }

  lemma RanAttrs(cs: Cset, r: Run, n: NodeId, k: AttrKey)
    requires Ran(cs, r) && n in r.dropped.nodes
    ensures AttrOf(r.dropped, n, k) == AttrOf(r.start, n, k)
  {
    RanBody(cs, r, n);
  }

  // ---------- the edits ----------

  function Clears(cs: Cset): map<AttrName, Attr> {
    map a | a in cs.cleared :: (false, [])
  }

  function Sets(cs: Cset): map<AttrName, Attr> {
    map a | a in cs.attrs :: (true, cs.attrs[a])
  }

  ghost predicate Edited(cs: Cset, t: Tree, patched: Tree, cleared: Tree, last: Tree) {
    && Ok(t) && Normalized(cs)
    && Patching(t, patched, cs.deltas, cs.deltas.Keys)
    && Setting(patched, cleared, Clears(cs), Clears(cs).Keys)
    && Setting(cleared, last, Sets(cs), Sets(cs).Keys)
  }

  lemma EditedPaths(cs: Cset, t: Tree, t1: Tree, t2: Tree, last: Tree, p: FilePath)
    requires Edited(cs, t, t1, t2, last)
    ensures At(t1, p) == At(t, p) && At(t2, p) == At(t, p) && At(last, p) == At(t, p)
  {
    InPlaceAt(t, t1, p);
    InPlaceAt(t1, t2, p);
    InPlaceAt(t2, last, p);
  }

  lemma EditedKind(cs: Cset, t: Tree, t1: Tree, t2: Tree, last: Tree, n: NodeId)
    requires Edited(cs, t, t1, t2, last) && n in t.nodes
    ensures n in t1.nodes && n in last.nodes && last.nodes[n].kind == t1.nodes[n].kind
    ensures SamePlace(t.nodes[n], last.nodes[n]) && SameChildren(t.nodes[n], last.nodes[n])
    ensures last.nodes[n].kind != t.nodes[n].kind ==> exists p :: p in cs.deltas && At(last, p) == n
  {
    assert n in t1.nodes && n in t2.nodes && n in last.nodes;
    assert last.nodes[n].kind == t2.nodes[n].kind == t1.nodes[n].kind;
    assert SamePlace(t.nodes[n], t1.nodes[n]) && SamePlace(t1.nodes[n], t2.nodes[n]);
    if last.nodes[n].kind != t.nodes[n].kind {
      var p :| p in cs.deltas && At(t, p) == n;
      EditedPaths(cs, t, t1, t2, last, p);
    }
  }

  lemma SettingTouches(t0: Tree, t: Tree, changes: map<AttrName, Attr>, n: NodeId, k: AttrKey) returns (a: AttrName)
    requires Setting(t0, t, changes, changes.Keys) && n in t0.nodes && AttrOf(t, n, k) != AttrOf(t0, n, k)
    ensures a in changes && At(t0, a.0) == n && a.1 == k
  {
    assert n in t.nodes;
    assert Touched(t0, changes.Keys, n, k);
    a :| a in changes.Keys && At(t0, a.0) == n && a.1 == k;
  }

  lemma EditedUntouched(cs: Cset, t: Tree, t1: Tree, t2: Tree, last: Tree, n: NodeId, k: AttrKey)
    requires Edited(cs, t, t1, t2, last) && n in t.nodes && AttrOf(last, n, k) != AttrOf(t, n, k)
    ensures exists a :: (a in cs.cleared || a in cs.attrs) && At(last, a.0) == n && a.1 == k
  {
    assert n in t1.nodes && n in t2.nodes;
    assert AttrOf(t1, n, k) == AttrOf(t, n, k);
    var a;
    if AttrOf(t2, n, k) != AttrOf(t1, n, k) {
      a := SettingTouches(t1, t2, Clears(cs), n, k);
    } else {
      a := SettingTouches(t2, last, Sets(cs), n, k);
    }
    EditedPaths(cs, t, t1, t2, last, a.0);
  }

  lemma EditedCleared(cs: Cset, t: Tree, t1: Tree, t2: Tree, last: Tree, a: AttrName)
    requires Edited(cs, t, t1, t2, last) && a in cs.cleared
    ensures AttrGoes(t, last, a, (false, []))
  {
    EditedPaths(cs, t, t1, t2, last, a.0);
    var n := At(last, a.0);
    assert a in Clears(cs).Keys && AttrDone(t1, t2, a, (false, []));
    assert NodeOk(t2, n);
    NotTouched(t2, Sets(cs).Keys, a);
    assert SameAttr(t2.nodes[n], last.nodes[n], a.1);
    assert t1.nodes[n].attrs == t.nodes[n].attrs;
  }

  lemma EditedSet(cs: Cset, t: Tree, t1: Tree, t2: Tree, last: Tree, a: AttrName)
    requires Edited(cs, t, t1, t2, last) && a in cs.attrs
    ensures AttrGoes(t, last, a, (true, cs.attrs[a]))
  {
    EditedPaths(cs, t, t1, t2, last, a.0);
    var n := At(last, a.0);
    assert a in Sets(cs).Keys && AttrDone(t2, last, a, (true, cs.attrs[a]));
    assert n in t1.nodes && NodeOk(t1, n);
    NotTouched(t1, Clears(cs).Keys, a);
    assert SameAttr(t1.nodes[n], t2.nodes[n], a.1);
    assert t1.nodes[n].attrs == t.nodes[n].attrs;
  }

  // ---------- putting the two together ----------

  lemma AllAttributes(cs: Cset, r: Run, t1: Tree, t2: Tree, last: Tree)
    requires Ran(cs, r) && Edited(cs, r.dropped, t1, t2, last)
    ensures Attributes(cs, r.start, last)
  {
    forall a | a in cs.cleared ensures AttrGoes(r.start, last, a, (false, [])) {
      EditedCleared(cs, r.dropped, t1, t2, last, a);
      RanAttrs(cs, r, At(last, a.0), a.1);
    }
    forall a | a in cs.attrs ensures AttrGoes(r.start, last, a, (true, cs.attrs[a])) {
      EditedSet(cs, r.dropped, t1, t2, last, a);
      RanAttrs(cs, r, At(last, a.0), a.1);
    }
    forall n, k | n in last.nodes && AttrOf(last, n, k) != AttrOf(r.start, n, k)
      ensures exists a :: (a in cs.cleared || a in cs.attrs) && At(last, a.0) == n && a.1 == k
    {
      RanAttrs(cs, r, n, k);
      EditedUntouched(cs, r.dropped, t1, t2, last, n, k);
    }
  }

  lemma PatchedOne(cs: Cset, r: Run, t1: Tree, t2: Tree, last: Tree, p: FilePath)
    requires Ran(cs, r) && Edited(cs, r.dropped, t1, t2, last) && p in cs.deltas
    ensures PatchDone(r.start, last, At(last, p), cs.deltas[p])
  {
    EditedPaths(cs, r.dropped, t1, t2, last, p);
    var n := At(r.dropped, p);
    assert PatchDone(r.dropped, t1, n, cs.deltas[p]);
    EditedKind(cs, r.dropped, t1, t2, last, n);
    if n !in r.start.nodes {
      RanAdds(cs, r);
      var q :| (q in cs.dirs || q in cs.files) && At(r.dropped, q) == n;
      assert NodeOk(r.dropped, n);
      AtInjective(r.dropped, p, q);
      RanKind(cs, r, p);
    }
    RanBody(cs, r, n);
  }

  lemma AllPatches(cs: Cset, r: Run, t1: Tree, t2: Tree, last: Tree)
    requires Ran(cs, r) && Edited(cs, r.dropped, t1, t2, last)
    ensures Patches(cs, r.start, last)
  {
    forall p | p in cs.dirs || p in cs.files
      ensures At(last, p) in last.nodes && (p in cs.dirs ==> last.nodes[At(last, p)].kind.Dir?)
      ensures p in cs.files ==> last.nodes[At(last, p)].kind == File(cs.files[p])
    {
      EditedPaths(cs, r.dropped, t1, t2, last, p);
      RanKind(cs, r, p);
      EditedKind(cs, r.dropped, t1, t2, last, At(last, p));
      NewFileKept(cs, r, t1, t2, last, p);
    }
    forall p | p in cs.deltas ensures PatchDone(r.start, last, At(last, p), cs.deltas[p]) {
      PatchedOne(cs, r, t1, t2, last, p);
    }
    forall n | n in r.start.nodes && n in last.nodes
      ensures last.nodes[n].kind.Dir? == r.start.nodes[n].kind.Dir?
      ensures r.start.nodes[n].kind.File? && last.nodes[n].kind != r.start.nodes[n].kind ==>
          exists p :: p in cs.deltas && At(last, p) == n
    {
      RanBody(cs, r, n);
      EditedKind(cs, r.dropped, t1, t2, last, n);
    }
  }

  lemma NewFileKept(cs: Cset, r: Run, t1: Tree, t2: Tree, last: Tree, p: FilePath)
    requires Ran(cs, r) && Edited(cs, r.dropped, t1, t2, last) && (p in cs.dirs || p in cs.files)
    ensures At(last, p) in last.nodes && At(last, p) in r.dropped.nodes
    ensures p in cs.files ==> last.nodes[At(last, p)].kind == r.dropped.nodes[At(last, p)].kind
  {
    EditedPaths(cs, r.dropped, t1, t2, last, p);
    RanKind(cs, r, p);
    var n := At(last, p);
    EditedKind(cs, r.dropped, t1, t2, last, n);
    if p in cs.files && last.nodes[n].kind != r.dropped.nodes[n].kind {
      var q :| q in cs.deltas && At(last, q) == n;
      assert NodeOk(last, n);
      AtInjective(last, p, q);
    }
  }

  lemma SameDeletes(cs: Cset, t0: Tree, t: Tree, last: Tree)
    requires Deletes(cs, t0, t) && last.nodes.Keys == t.nodes.Keys
    ensures Deletes(cs, t0, last)
  {
    assert forall n :: n in last.nodes <==> n in t.nodes;
  }

  lemma SameRenames(cs: Cset, t0: Tree, t: Tree, last: Tree)
    requires Renames(cs, t0, t) && last.nodes.Keys == t.nodes.Keys
    requires forall p {:trigger At(last, p)} :: At(last, p) == At(t, p)
    requires forall n {:trigger last.nodes[n]} :: n in t.nodes ==> SamePlace(t.nodes[n], last.nodes[n])
    ensures Renames(cs, t0, last)
  {
    assert forall n :: n in last.nodes <==> n in t.nodes;
  }

  lemma SameAdds(cs: Cset, t0: Tree, t: Tree, last: Tree)
    requires Adds(cs, t0, t) && last.nodes.Keys == t.nodes.Keys
    requires forall p {:trigger At(last, p)} :: At(last, p) == At(t, p)
    ensures Adds(cs, t0, last)
  {
    forall n | n in last.nodes && n !in t0.nodes ensures exists p :: (p in cs.dirs || p in cs.files) && At(last, p) == n {
      assert n in t.nodes;
      var p :| (p in cs.dirs || p in cs.files) && At(t, p) == n;
      assert At(last, p) == n;
    }
    forall p | p in cs.dirs || p in cs.files ensures At(last, p) !in t0.nodes && At(last, p) in last.nodes {
      assert At(t, p) in t.nodes;
    }
  }

  lemma AllMoves(cs: Cset, r: Run, t1: Tree, t2: Tree, last: Tree)
    requires Ran(cs, r) && Edited(cs, r.dropped, t1, t2, last)
    ensures Deletes(cs, r.start, last) && Renames(cs, r.start, last) && Adds(cs, r.start, last)
  {
    RanDeletes(cs, r);
    RanRenames(cs, r);
    RanAdds(cs, r);
    assert last.nodes.Keys == r.dropped.nodes.Keys;
    forall p ensures At(last, p) == At(r.dropped, p) {
      EditedPaths(cs, r.dropped, t1, t2, last, p);
    }
    forall n | n in r.dropped.nodes ensures SamePlace(r.dropped.nodes[n], last.nodes[n]) {
      EditedKind(cs, r.dropped, t1, t2, last, n);
    }
    SameDeletes(cs, r.start, r.dropped, last);
    SameRenames(cs, r.start, r.dropped, last);
    SameAdds(cs, r.start, r.dropped, last);
  }

  lemma RunApplies(cs: Cset, r: Run, t1: Tree, t2: Tree, last: Tree)
    requires Ran(cs, r) && Edited(cs, r.dropped, t1, t2, last)
    ensures Applied(cs, r.start, last)
  {
    AllMoves(cs, r, t1, t2, last);
    AllPatches(cs, r, t1, t2, last);
    AllAttributes(cs, r, t1, t2, last);
    RanRoot(cs, r);
    EditedPaths(cs, r.dropped, t1, t2, last, []);
  }

  // ---------- consequences for paths ----------

  ghost predicate Detaches(cs: Cset, names: seq<Name>) {
    exists p :: (p in cs.deleted || p in cs.renamed) && Components(p) == names
  }

  lemma ChildFollows(cs: Cset, t0: Tree, t: Tree, a: seq<Name>, b: seq<Name>, x: Name)
    requires Ok(t0) && Applied(cs, t0, t) && !Detaches(cs, a + [x])
    requires Find(t0, t0.root, a) == Find(t, t.root, b) && Find(t0, t0.root, a + [x]) != NullNode
    ensures Find(t, t.root, b + [x]) == Find(t0, t0.root, a + [x])
  {
    var n := Find(t0, t0.root, a + [x]);
    FoundLinks(t0, a, x);
    forall p | p in cs.deleted || p in cs.renamed ensures At(t0, p) != n {
      if At(t0, p) == n {
        FindInjective(t0, Components(p), a + [x]);
      }
    }
    assert n in t.nodes && SamePlace(t0.nodes[n], t.nodes[n]);
    assert NodeOk(t, n);
    FindAppend(t, t.root, b, x);
  }

  /** Whatever lies beneath a node and is not itself detached goes where that node goes: the
      subtree of a renamed directory ends beneath the destination, that of an untouched one stays. */
  lemma {:induction false} SubtreeFollows(cs: Cset, t0: Tree, t: Tree, a: seq<Name>, b: seq<Name>, s: seq<Name>)
    requires Ok(t0) && Applied(cs, t0, t)
    requires Find(t0, t0.root, a) == Find(t, t.root, b) && Find(t0, t0.root, a + s) != NullNode
    requires forall i :: 0 < i <= |s| ==> !Detaches(cs, a + s[..i])
    ensures Find(t, t.root, b + s) == Find(t0, t0.root, a + s)
    decreases |s|
  {
    if s == [] {
      assert a + s == a && b + s == b;
    } else {
      var s', x := s[..|s| - 1], s[|s| - 1];
      assert a + s == (a + s') + [x] && b + s == (b + s') + [x] && a + s[..|s|] == a + s;
      FoundLinks(t0, a + s', x);
      forall i | 0 < i <= |s'| ensures !Detaches(cs, a + s'[..i]) {
        assert s'[..i] == s[..i];
      }
      SubtreeFollows(cs, t0, t, a, b, s');
      ChildFollows(cs, t0, t, a + s', b + s', x);
    }
  }

  /** A path with no deleted or renamed path at or above it names the same node afterwards. */
  lemma UntouchedPath(cs: Cset, t0: Tree, t: Tree, q: FilePath)
    requires Ok(t0) && Applied(cs, t0, t) && At(t0, q) != NullNode
    requires forall p :: p in cs.deleted || p in cs.renamed ==> !(Components(p) <= Components(q))
    ensures At(t, q) == At(t0, q)
  {
    var s := Components(q);
    if t0.root == NullNode {
      assert NodeOk(t0, NullNode);
      NothingBelowNull(t0, s);
    }
    assert Components([]) <= s && [] + s == s;
    forall i | 0 < i <= |s| ensures !Detaches(cs, [] + s[..i]) {
      assert [] + s[..i] <= s;
    }
    SubtreeFollows(cs, t0, t, [], [], s);
  }

  /** The subtree of a renamed directory ends beneath its destination. */
  lemma RenamedSubtree(cs: Cset, t0: Tree, t: Tree, p: FilePath, s: seq<Name>)
    requires Ok(t0) && Applied(cs, t0, t) && p in cs.renamed
    requires Find(t0, t0.root, Components(p) + s) != NullNode
    requires forall i :: 0 < i <= |s| ==> !Detaches(cs, Components(p) + s[..i])
    ensures Find(t, t.root, Components(cs.renamed[p]) + s) == Find(t0, t0.root, Components(p) + s)
  {
    assert At(t, cs.renamed[p]) == At(t0, p);
    SubtreeFollows(cs, t0, t, Components(p), Components(cs.renamed[p]), s);
  }
}
