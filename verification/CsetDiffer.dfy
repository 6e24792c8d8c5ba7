/** The change set between two trees: applied to the first it gives the second. */
module CsetDiffer {
  import opened Paths
  import opened Rosters
  import opened Csets
  import opened CsetAttach
  import opened CsetEdits
  import opened ApplyTo
  import opened CsetAccept

  // ---------- trees at rest ----------

  /** Some path names the node. */
  ghost predicate Named(t: Tree, n: NodeId) {
    exists p :: At(t, p) == n
  }

  /** What `check_sane` demands: nothing is detached, every node has a path, and cleared attributes have
      no value. */
  ghost predicate Whole(t: Tree) {
    && Ok(t) && t.places == map[]
    && (forall n {:trigger Named(t, n)} :: n in t.nodes ==> Named(t, n))
    && (forall n, k {:trigger AttrOf(t, n, k)} :: !AttrOf(t, n, k).0 ==> AttrOf(t, n, k).1 == [])
  }

  /** No node of both is a file in one and a directory in the other. */
  ghost predicate SameTypes(a: Tree, b: Tree) {
    forall n :: n in a.nodes && n in b.nodes ==> a.nodes[n].kind.Dir? == b.nodes[n].kind.Dir?
  }

  ghost predicate Shared(a: Tree, b: Tree, n: NodeId) {
    n in a.nodes && n in b.nodes
  }

  ghost predicate Moved(a: Tree, b: Tree, n: NodeId) {
    Shared(a, b, n) && !SamePlace(a.nodes[n], b.nodes[n])
  }

  ghost predicate Rewritten(a: Tree, b: Tree, n: NodeId) {
    Shared(a, b, n) && a.nodes[n].kind.File? && b.nodes[n].kind.File? && a.nodes[n].kind != b.nodes[n].kind
  }

  // ---------- the difference ----------

  /** What the change set between two trees is: nodes only in the first are deleted, nodes only in the
      second added, nodes of both renamed where their place differs and edited, under their new path,
      where content or attributes do. */
  ghost predicate Differs(a: Tree, b: Tree, cs: Cset) {
    && (forall p :: p in cs.deleted <==> At(a, p) in a.nodes && At(a, p) !in b.nodes)
    && (forall p :: p in cs.dirs <==> IsDir(b, At(b, p)) && At(b, p) !in a.nodes)
    && (forall p :: p in cs.files <==> At(b, p) in b.nodes && At(b, p) !in a.nodes && b.nodes[At(b, p)].kind.File?)
    && (forall p :: p in cs.files ==> b.nodes[At(b, p)].kind == File(cs.files[p]))
    && (forall p :: p in cs.renamed <==> Moved(a, b, At(a, p)))
    && (forall p :: p in cs.renamed ==> At(b, cs.renamed[p]) == At(a, p))
    && (forall p :: p in cs.deltas <==> Rewritten(a, b, At(b, p)))
    && (forall p :: p in cs.deltas ==>
          a.nodes[At(b, p)].kind == File(cs.deltas[p].0) && b.nodes[At(b, p)].kind == File(cs.deltas[p].1))
    && (forall p, k :: (p, k) in cs.cleared <==> AttrGone(a, b, At(b, p), k))
    && (forall p, k :: (p, k) in cs.attrs <==> AttrNew(a, b, At(b, p), k))
    && (forall p, k :: (p, k) in cs.attrs ==> cs.attrs[(p, k)] == AttrOf(b, At(b, p), k).1)
  }

  ghost predicate AttrGone(a: Tree, b: Tree, n: NodeId, k: AttrKey) {
    Shared(a, b, n) && AttrOf(a, n, k).0 && !AttrOf(b, n, k).0
  }

  ghost predicate AttrNew(a: Tree, b: Tree, n: NodeId, k: AttrKey) {
    n in b.nodes && AttrOf(b, n, k).0 && AttrOf(a, n, k) != AttrOf(b, n, k)
  }

  // ---------- what moves ----------

  lemma NodePath(t: Tree, n: NodeId) returns (p: FilePath)
    requires Whole(t) && n in t.nodes
    ensures At(t, p) == n
  {
    assert Named(t, n);
    p :| At(t, p) == n;
  }

  lemma NullIsNone(t: Tree)
    requires Ok(t)
    ensures NullNode !in t.nodes
  {
    assert NodeOk(t, NullNode);
  }

  /** The names on the way to a node are those of its path. */
  lemma NamesArePath(t: Tree, names: seq<Name>)
    requires Whole(t) && Find(t, t.root, names) in t.nodes
    ensures Components(Join(names)) == names && At(t, Join(names)) == Find(t, t.root, names)
  {
    NullIsNone(t);
    var p := NodePath(t, Find(t, t.root, names));
    FindInjective(t, names, Components(p));
    NamedComponents({}, p);
  }

  lemma LeavesIs(a: Tree, b: Tree, cs: Cset, n: NodeId)
    requires Whole(a) && Differs(a, b, cs) && n in a.nodes
    ensures Leaves(cs, a, n) <==> n !in b.nodes || Moved(a, b, n)
  {
    var p := NodePath(a, n);
    if n !in b.nodes || Moved(a, b, n) {
      assert (p in cs.deleted || p in cs.renamed) && At(a, p) == n;
    }
  }

  lemma NamedRenamed(a: Tree, b: Tree, cs: Cset, names: seq<Name>)
    requires Whole(a) && Whole(b) && Differs(a, b, cs)
    ensures NamedIn(cs.renamed.Values, names) <==> Moved(a, b, Find(b, b.root, names))
    ensures NamedIn(cs.renamed.Values, names) ==> At(a, Origin(cs, Join(names))) == Find(b, b.root, names)
  {
    var n := Find(b, b.root, names);
    if NamedIn(cs.renamed.Values, names) {
      var p := Origin(cs, Join(names));
      assert At(b, Join(names)) == n;
      assert Moved(a, b, At(a, p));
    }
    if Moved(a, b, n) {
      NamesArePath(b, names);
      var p := NodePath(a, n);
      assert p in cs.renamed && At(b, cs.renamed[p]) == n;
      NullIsNone(b);
      AtInjective(b, cs.renamed[p], Join(names));
      assert cs.renamed[p] in cs.renamed.Values;
    }
  }

  lemma NamedAdded(a: Tree, b: Tree, cs: Cset, names: seq<Name>)
    requires Whole(b) && Differs(a, b, cs)
    ensures NamedIn(Added(cs), names) <==> Find(b, b.root, names) in b.nodes && Find(b, b.root, names) !in a.nodes
  {
    var n := Find(b, b.root, names);
    if NamedIn(Added(cs), names) {
      assert At(b, Join(names)) == n;
    }
    if n in b.nodes && n !in a.nodes {
      NamesArePath(b, names);
      assert Join(names) in cs.dirs || Join(names) in cs.files;
    }
  }

  // ---------- the tree described is the second one ----------

  /** The node of the second tree, told by what it is in the first. */
  ghost function Target(a: Tree, b: Tree, names: seq<Name>): Ref {
    var n := Find(b, b.root, names);
    if n == NullNode then Nowhere else if n in a.nodes then Old(n) else New(Join(names))
  }

  lemma RootStays(a: Tree, b: Tree, cs: Cset)
    requires Whole(a) && Whole(b) && Differs(a, b, cs)
    requires !Moved(a, b, b.root) && !(b.root in b.nodes && b.root !in a.nodes)
    ensures Stays(cs, a, a.root) == Target(a, b, [])
  {
    NullIsNone(a);
    NullIsNone(b);
    assert NodeOk(a, a.root);
    if b.root != NullNode {
      RootOf(a, b);
      LeavesIs(a, b, cs, b.root);
    } else if a.root != NullNode {
      LeavesIs(a, b, cs, a.root);
      NothingBelow(b, a.root);
    }
  }

  /** A node without a parent is the root. */
  lemma RootOf(a: Tree, b: Tree)
    requires Whole(a) && Whole(b) && b.root in a.nodes && b.root in b.nodes && SamePlace(a.nodes[b.root], b.nodes[b.root])
    ensures a.root == b.root
  {
    var p := NodePath(a, b.root);
    NullIsNone(a);
    if p != [] {
      var c := Components(p);
      assert c == c[..|c| - 1] + [c[|c| - 1]];
      FoundLinks(a, c[..|c| - 1], c[|c| - 1]);
    }
  }

  lemma {:induction false} NoRootNoPath(t: Tree, names: seq<Name>)
    requires Ok(t)
    ensures Find(t, NullNode, names) == NullNode
    decreases |names|
  {
    NullIsNone(t);
    if names != [] {
      NoRootNoPath(t, names[1..]);
    }
  }

  lemma NothingBelow(b: Tree, n: NodeId)
    requires Whole(b) && b.root == NullNode
    ensures n !in b.nodes
  {
    NullIsNone(b);
    if n in b.nodes {
      var p := NodePath(b, n);
      NoRootNoPath(b, Components(p));
    }
  }

  /** A child in the second tree, and in the first. */
  lemma ChildStays(a: Tree, b: Tree, cs: Cset, d: NodeId, x: Name)
    requires Whole(a) && Whole(b) && Differs(a, b, cs) && d in a.nodes && d in b.nodes
    ensures var n := Step(b, d, x);
      (n == NullNode || (n in a.nodes && n in b.nodes && !Moved(a, b, n))) ==>
        Stays(cs, a, Step(a, d, x)) == if n == NullNode then Nowhere else Old(n)
  {
    var n, m := Step(b, d, x), Step(a, d, x);
    NullIsNone(a);
    NullIsNone(b);
    assert ChildOk(a, d, x) && ChildOk(b, d, x);
    if n == NullNode {
      if m != NullNode {
        LeavesIs(a, b, cs, m);
        assert NodeOk(b, m);
      }
    } else if n in a.nodes && n in b.nodes && !Moved(a, b, n) {
      assert NodeOk(a, n);
      LeavesIs(a, b, cs, n);
    }
  }

  lemma {:induction false} SettlesTarget(a: Tree, b: Tree, cs: Cset, names: seq<Name>)
    requires Whole(a) && Whole(b) && Differs(a, b, cs)
    ensures Settles(cs, a, names) == Target(a, b, names)
    decreases |names|
  {
    NamedRenamed(a, b, cs, names);
    NamedAdded(a, b, cs, names);
    NullIsNone(b);
    var n := Find(b, b.root, names);
    if Moved(a, b, n) || (n in b.nodes && n !in a.nodes) {
    } else if names == [] {
      RootStays(a, b, cs);
    } else {
      SettlesChild(a, b, cs, names);
    }
  }

  lemma SettlesChild(a: Tree, b: Tree, cs: Cset, names: seq<Name>)
    requires Whole(a) && Whole(b) && Differs(a, b, cs) && names != []
    requires var n := Find(b, b.root, names); !Moved(a, b, n) && !(n in b.nodes && n !in a.nodes)
    requires !NamedIn(cs.renamed.Values, names) && !NamedIn(Added(cs), names)
    ensures Settles(cs, a, names) == Target(a, b, names)
    decreases |names|, 0
  {
    var up, x := names[..|names| - 1], names[|names| - 1];
    SettlesTarget(a, b, cs, up);
    assert names == up + [x];
    FindAppend(b, b.root, up, x);
    var d, n := Find(b, b.root, up), Find(b, b.root, names);
    NullIsNone(b);
    NullIsNone(a);
    RootIn(b);
    FindInside(b, b.root, up);
    FindInside(b, b.root, names);
    if d == NullNode {
      assert n == NullNode;
    } else if d in a.nodes {
      ChildStays(a, b, cs, d, x);
    } else if n != NullNode {
      assert NodeOk(a, n) && ChildOk(b, d, x) && ChildOk(a, a.nodes[n].parent, a.nodes[n].name);
      ParentIn(a, n);
    }
  }

  lemma RootIn(t: Tree)
    requires Ok(t)
    ensures t.root == NullNode || t.root in t.nodes
  {
  }

  lemma ParentIn(t: Tree, n: NodeId)
    requires Ok(t) && n in t.nodes
    ensures t.nodes[n].parent == NullNode || t.nodes[n].parent in t.nodes
  {
    NullIsNone(t);
    assert NodeOk(t, n);
  }

  // ---------- it can be applied ----------

  lemma DifferNormal(a: Tree, b: Tree, cs: Cset)
    requires Whole(a) && Whole(b) && Differs(a, b, cs)
    ensures PathsNormal(cs) && Normalized(cs)
  {
    NullIsNone(a);
    NullIsNone(b);
    forall p | p in cs.deleted || p in cs.renamed ensures Normal(p) {
      NodeNormal(a, p);
    }
    forall p | p in cs.dirs || p in cs.files ensures Normal(p) {
      NodeNormal(b, p);
    }
    forall p | p in cs.renamed ensures Normal(cs.renamed[p]) {
      NodeNormal(b, cs.renamed[p]);
    }
    forall c | c in cs.cleared ensures c !in cs.attrs {
      assert c == (c.0, c.1);
    }
  }

  lemma {:induction false} FoundNames(t: Tree, names: seq<Name>, x: Name)
    requires Ok(t) && Find(t, t.root, names) in t.nodes && x in names
    ensures x != []
    decreases |names|
  {
    NullIsNone(t);
    var up, y := names[..|names| - 1], names[|names| - 1];
    assert names == up + [y];
    FindAppend(t, t.root, up, y);
    assert ChildOk(t, Find(t, t.root, up), y);
    if x != y {
      FoundNames(t, up, x);
    }
  }

  lemma NodeNormal(t: Tree, p: FilePath)
    requires Ok(t) && At(t, p) in t.nodes
    ensures Normal(p)
  {
    forall x | x in Components(p) ensures x != [] {
      FoundNames(t, Components(p), x);
    }
  }

  lemma DifferPaths(a: Tree, b: Tree, cs: Cset)
    requires Whole(a) && Whole(b) && Differs(a, b, cs)
    ensures PathsOk(cs, a)
  {
    NullIsNone(a);
    forall p, q | p in cs.renamed && q in cs.renamed && p != q ensures cs.renamed[p] != cs.renamed[q] {
      if At(a, p) == At(a, q) {
        AtInjective(a, p, q);
      }
    }
  }

  /** Where a node of the second tree is to arrive there is room. */
  lemma DifferRoom(a: Tree, b: Tree, cs: Cset, q: FilePath)
    requires Whole(a) && Whole(b) && SameTypes(a, b) && Differs(a, b, cs) && At(b, q) in b.nodes
    requires At(b, q) !in a.nodes || Moved(a, b, At(b, q))
    ensures RoomAt(cs, a, q)
  {
    if q == [] {
      RootLeaves(a, b, cs);
    } else {
      var c := Components(q);
      assert c == c[..|c| - 1] + [c[|c| - 1]];
      RoomBelow(a, b, cs, c[..|c| - 1], c[|c| - 1]);
    }
  }

  lemma RoomBelow(a: Tree, b: Tree, cs: Cset, up: seq<Name>, x: Name)
    requires Whole(a) && Whole(b) && SameTypes(a, b) && Differs(a, b, cs) && Find(b, b.root, up + [x]) in b.nodes
    requires Find(b, b.root, up + [x]) !in a.nodes || Moved(a, b, Find(b, b.root, up + [x]))
    ensures DirRef(cs, a, Settles(cs, a, up)) && ChildOf(cs, a, Settles(cs, a, up), x) == Nowhere
  {
    NullIsNone(b);
    FoundLinks(b, up, x);
    FindAppend(b, b.root, up, x);
    SettlesTarget(a, b, cs, up);
    var d := Find(b, b.root, up);
    FindInside(b, b.root, up);
    DifferRoomIn(a, b, cs, d, x);
    if d !in a.nodes {
      NamesArePath(b, up);
      assert Join(up) in cs.dirs;
    }
  }

  lemma RootLeaves(a: Tree, b: Tree, cs: Cset)
    requires Whole(a) && Whole(b) && Differs(a, b, cs) && b.root in b.nodes && (b.root !in a.nodes || Moved(a, b, b.root))
    ensures Stays(cs, a, a.root) == Nowhere
  {
    NullIsNone(a);
    if a.root != NullNode {
      LeavesIs(a, b, cs, a.root);
      if a.root in b.nodes && !Moved(a, b, a.root) {
        RootOf(b, a);
      }
    }
  }

  lemma DifferRoomIn(a: Tree, b: Tree, cs: Cset, d: NodeId, x: Name)
    requires Whole(a) && Whole(b) && SameTypes(a, b) && Differs(a, b, cs) && d in b.nodes && Step(b, d, x) in b.nodes
    requires Step(b, d, x) !in a.nodes || Moved(a, b, Step(b, d, x))
    ensures IsDir(b, d) && (d in a.nodes ==> IsDir(a, d) && Stays(cs, a, Step(a, d, x)) == Nowhere)
  {
    NullIsNone(a);
    NullIsNone(b);
    if d in a.nodes {
      var m := Step(a, d, x);
      assert ChildOk(a, d, x) && ChildOk(b, d, x);
      if m != NullNode {
        LeavesIs(a, b, cs, m);
        assert NodeOk(b, m);
      }
    }
  }

  lemma DifferMoves(a: Tree, b: Tree, cs: Cset)
    requires Whole(a) && Whole(b) && SameTypes(a, b) && Differs(a, b, cs)
    ensures MovesOk(cs, a)
  {
    NullIsNone(b);
    forall q | q in Added(cs) ensures RoomAt(cs, a, q) && (q == [] ==> q in cs.dirs) {
      DifferRoom(a, b, cs, q);
      assert q == [] ==> At(b, q) == b.root;
    }
    forall p | p in cs.renamed ensures RenameOk(cs, a, p) {
      DifferRename(a, b, cs, p);
    }
  }

  lemma DifferRename(a: Tree, b: Tree, cs: Cset, p: FilePath)
    requires Whole(a) && Whole(b) && SameTypes(a, b) && Differs(a, b, cs) && p in cs.renamed
    ensures RenameOk(cs, a, p)
  {
    NullIsNone(b);
    DifferRoom(a, b, cs, cs.renamed[p]);
    NotPutBack(a, b, cs, p);
    assert cs.renamed[p] == [] ==> At(b, cs.renamed[p]) == b.root;
  }

  /** A node that moves is not put back where it was. */
  lemma NotPutBack(a: Tree, b: Tree, cs: Cset, p: FilePath)
    requires Whole(a) && Whole(b) && Differs(a, b, cs) && p in cs.renamed
    ensures At(a, p) in a.nodes && !PutBack(cs, a, p)
  {
    var q, n := cs.renamed[p], At(a, p);
    NullIsNone(b);
    NullIsNone(a);
    assert Moved(a, b, n);
    if q == [] {
      assert NodeOk(b, n) && NodeOk(a, n);
      assert p == [] ==> n == a.root == b.root;
    } else {
      var c := Components(q);
      var up, x := c[..|c| - 1], c[|c| - 1];
      assert c == up + [x];
      FoundLinks(b, up, x);
      SettlesTarget(a, b, cs, up);
    }
  }

  lemma DifferDeletes(a: Tree, b: Tree, cs: Cset)
    requires Whole(a) && Whole(b) && Differs(a, b, cs)
    ensures DeletesOk(cs, a)
  {
    NullIsNone(a);
    NullIsNone(b);
    forall p, x | p in cs.deleted ensures Stays(cs, a, Step(a, At(a, p), x)) == Nowhere {
      var m := Step(a, At(a, p), x);
      assert ChildOk(a, At(a, p), x);
      if m != NullNode {
        LeavesIs(a, b, cs, m);
        if m in b.nodes {
          ParentIn(b, m);
        }
      }
    }
  }

  lemma DifferChanges(a: Tree, b: Tree, cs: Cset)
    requires Whole(a) && Whole(b) && Differs(a, b, cs)
    ensures ChangesOk(cs, a)
  {
    NullIsNone(a);
    NullIsNone(b);
    forall p | p in cs.deltas ensures PatchOk(cs, a, p, cs.deltas[p]) {
      SettlesTarget(a, b, cs, Components(p));
    }
    forall c | c in cs.cleared ensures AttrOk(cs, a, c, (false, [])) {
      assert c == (c.0, c.1);
      SettlesTarget(a, b, cs, Components(c.0));
    }
    forall c | c in cs.attrs ensures AttrOk(cs, a, c, (true, cs.attrs[c])) {
      assert c == (c.0, c.1) && AttrNew(a, b, At(b, c.0), c.1);
      SettlesTarget(a, b, cs, Components(c.0));
    }
  }

  /** The change set between two trees at rest can always be applied to the first. */
  lemma DifferApplies(a: Tree, b: Tree, cs: Cset)
    requires Whole(a) && Whole(b) && SameTypes(a, b) && Differs(a, b, cs)
    ensures PathsNormal(cs) && Applicable(cs, a)
  {
    DifferNormal(a, b, cs);
    DifferPaths(a, b, cs);
    DifferMoves(a, b, cs);
    DifferDeletes(a, b, cs);
    DifferChanges(a, b, cs);
  }

  // ---------- and gives the second tree ----------

  ghost predicate SameNode(t: Tree, n: NodeId, b: Tree, m: NodeId) {
    && n in t.nodes && m in b.nodes && t.nodes[n].kind.Dir? == b.nodes[m].kind.Dir?
    && (t.nodes[n].kind.File? ==> t.nodes[n].kind == b.nodes[m].kind)
    && (forall k {:trigger AttrOf(t, n, k)} :: AttrOf(t, n, k) == AttrOf(b, m, k))
  }

  /** `t` is `b` up to the numbers of the nodes `a` does not have: the same paths name nodes, with the same
      contents and attributes, and nodes of `a` are themselves. */
  ghost predicate SameTree(a: Tree, b: Tree, t: Tree) {
    forall p {:trigger At(t, p)} {:trigger At(b, p)} ::
      if At(b, p) == NullNode then At(t, p) == NullNode
      else SameNode(t, At(t, p), b, At(b, p)) && if At(b, p) in a.nodes then At(t, p) == At(b, p) else At(t, p) !in a.nodes
  }

  lemma GivesPath(a: Tree, b: Tree, cs: Cset, t: Tree, p: FilePath)
    requires Whole(a) && Whole(b) && Differs(a, b, cs) && Settled(cs, a, t) && Ok(t) && Deletes(cs, a, t)
    ensures if At(b, p) == NullNode then At(t, p) == NullNode
            else At(t, p) in t.nodes && if At(b, p) in a.nodes then At(t, p) == At(b, p) else At(t, p) !in a.nodes
  {
    SettlesTarget(a, b, cs, Components(p));
    assert SettledAt(cs, a, t, p);
    NullIsNone(a);
    NullIsNone(b);
    AtInside(t, p);
  }

  lemma GivesKind(a: Tree, b: Tree, cs: Cset, t: Tree, p: FilePath)
    requires Whole(a) && Whole(b) && SameTypes(a, b) && Differs(a, b, cs) && Patches(cs, a, t) && At(b, p) in b.nodes
    requires forall q :: At(t, q) == NullNode <==> At(b, q) == NullNode
    requires forall q {:trigger At(b, q)} :: At(b, q) in a.nodes ==> At(t, q) == At(b, q)
    requires Ok(t) && At(t, p) in t.nodes
    ensures var v, w := t.nodes[At(t, p)], b.nodes[At(b, p)]; v.kind.Dir? == w.kind.Dir? && (v.kind.File? ==> v.kind == w.kind)
  {
    NullIsNone(t);
    forall q | At(t, q) == At(t, p) ensures q == p {
      AtInjective(t, p, q);
    }
    if At(b, p) !in a.nodes {
      assert p in cs.dirs || p in cs.files;
    } else if p in cs.deltas {
      assert PatchDone(a, t, At(t, p), cs.deltas[p]);
    }
  }

  lemma GivesAttr(a: Tree, b: Tree, cs: Cset, t: Tree, p: FilePath, k: AttrKey)
    requires Whole(a) && Whole(b) && Differs(a, b, cs) && Attributes(cs, a, t) && At(b, p) in b.nodes
    requires Ok(t) && At(t, p) in t.nodes && if At(b, p) in a.nodes then At(t, p) == At(b, p) else At(t, p) !in a.nodes
    ensures AttrOf(t, At(t, p), k) == AttrOf(b, At(b, p), k)
  {
    assert AttrOf(a, At(t, p), k) == AttrOf(a, At(b, p), k);
    DifferAttr(a, b, cs, p, k);
    if (p, k) in cs.cleared {
      assert AttrGoes(a, t, (p, k), (false, []));
    } else if (p, k) in cs.attrs {
      assert AttrGoes(a, t, (p, k), (true, cs.attrs[(p, k)]));
    } else {
      AttrKept(a, cs, t, p, k);
    }
  }

  /** An attribute the change set does not name stays. */
  lemma AttrKept(a: Tree, cs: Cset, t: Tree, p: FilePath, k: AttrKey)
    requires Attributes(cs, a, t) && Ok(t) && At(t, p) in t.nodes && (p, k) !in cs.cleared && (p, k) !in cs.attrs
    ensures AttrOf(t, At(t, p), k) == AttrOf(a, At(t, p), k)
  {
    NullIsNone(t);
    forall c | (c in cs.cleared || c in cs.attrs) && At(t, c.0) == At(t, p) ensures c.1 != k {
      AtInjective(t, p, c.0);
      assert c == (p, c.1);
    }
  }

  /** The attributes of the second tree, told by the change set and the first. */
  lemma DifferAttr(a: Tree, b: Tree, cs: Cset, p: FilePath, k: AttrKey)
    requires Whole(a) && Whole(b) && Differs(a, b, cs) && At(b, p) in b.nodes
    ensures (p, k) in cs.cleared ==> AttrOf(b, At(b, p), k) == (false, [])
    ensures (p, k) in cs.attrs ==> AttrOf(b, At(b, p), k) == (true, cs.attrs[(p, k)])
    ensures (p, k) !in cs.cleared && (p, k) !in cs.attrs ==> AttrOf(b, At(b, p), k) == AttrOf(a, At(b, p), k)
  {
  }

  /** What applying the change set between two trees to the first one makes of it. */
  lemma DifferGives(a: Tree, b: Tree, cs: Cset, t: Tree)
    requires Whole(a) && Whole(b) && SameTypes(a, b) && Differs(a, b, cs) && Applied(cs, a, t) && Settled(cs, a, t)
    ensures SameTree(a, b, t)
  {
    forall p
      ensures if At(b, p) == NullNode then At(t, p) == NullNode
              else At(t, p) in t.nodes && if At(b, p) in a.nodes then At(t, p) == At(b, p) else At(t, p) !in a.nodes
    {
      GivesPath(a, b, cs, t, p);
    }
    NullIsNone(t);
    forall p | At(b, p) != NullNode ensures SameNode(t, At(t, p), b, At(b, p)) {
      GivesNode(a, b, cs, t, p);
    }
  }

  lemma GivesNode(a: Tree, b: Tree, cs: Cset, t: Tree, p: FilePath)
    requires Whole(a) && Whole(b) && SameTypes(a, b) && Differs(a, b, cs) && Applied(cs, a, t) && At(b, p) != NullNode
    requires forall q {:trigger At(t, q)} {:trigger At(b, q)} ::
      if At(b, q) == NullNode then At(t, q) == NullNode
      else At(t, q) in t.nodes && if At(b, q) in a.nodes then At(t, q) == At(b, q) else At(t, q) !in a.nodes
    ensures SameNode(t, At(t, p), b, At(b, p))
  {
    NullIsNone(t);
    AtInside(b, p);
    GivesKind(a, b, cs, t, p);
    forall k ensures AttrOf(t, At(t, p), k) == AttrOf(b, At(b, p), k) {
      GivesAttr(a, b, cs, t, p, k);
    }
  }

  /** And it is at rest again. */
  lemma GivesWhole(a: Tree, b: Tree, cs: Cset, t: Tree)
    requires Whole(a) && Whole(b) && Differs(a, b, cs) && Applied(cs, a, t) && SameTree(a, b, t) && t.places == map[]
    ensures Whole(t)
  {
    NullIsNone(b);
    forall n | n in t.nodes ensures Named(t, n) {
      if n in a.nodes {
        var q := NodePath(a, n);
        assert n in b.nodes;
        var p := NodePath(b, n);
        assert At(t, p) == n;
      }
    }
    forall n, k ensures !AttrOf(t, n, k).0 ==> AttrOf(t, n, k).1 == [] {
      if n in t.nodes {
        assert Named(t, n);
        var p :| At(t, p) == n;
        NamedSame(a, b, t, p, k);
      }
    }
  }

  lemma NamedSame(a: Tree, b: Tree, t: Tree, p: FilePath, k: AttrKey)
    requires Whole(b) && Ok(t) && SameTree(a, b, t) && At(t, p) in t.nodes
    ensures AttrOf(t, At(t, p), k) == AttrOf(b, At(b, p), k)
  {
    NullIsNone(t);
    assert At(b, p) != NullNode;
  }
}
