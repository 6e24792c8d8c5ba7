/** The in-place edits of a change set: file contents and attributes. */
module CsetEdits {
  import opened Paths
  import opened Ordered
  import opened Rosters
  import opened Csets

  type AttrName = (FilePath, AttrKey)

  predicate SameAttr(v: Node, w: Node, k: AttrKey) {
    (k in v.attrs <==> k in w.attrs) && (k in v.attrs ==> w.attrs[k] == v.attrs[k])
  }

  /** Nothing moves, appears or vanishes. */
  ghost predicate InPlace(t0: Tree, t: Tree) {
    && Ok(t) && SameSteps(t0, t) && t.nodes.Keys == t0.nodes.Keys && t.places == t0.places
    && (forall n {:trigger t.nodes[n]} :: n in t0.nodes ==> SamePlace(t0.nodes[n], t.nodes[n]))
    && (forall n {:trigger t.nodes[n]} :: n in t0.nodes ==> SameChildren(t0.nodes[n], t.nodes[n]))
  }

  lemma InPlaceAt(t0: Tree, t: Tree, p: FilePath)
    requires InPlace(t0, t)
    ensures At(t, p) == At(t0, p)
  {
    SameFind(t0, t, t.root, Components(p));
  }

  lemma InPlaceMore(t0: Tree, t: Tree, n: NodeId, v: Node)
    requires InPlace(t0, t) && n in t.nodes && SamePlace(t.nodes[n], v) && SameChildren(t.nodes[n], v)
    ensures InPlace(t0, WithNode(t, n, v))
  {
    EditOk(t, n, v);
  }

  // ---------- contents ----------

  predicate PatchDone(t0: Tree, t: Tree, n: NodeId, d: (FileId, FileId)) {
    && n in t0.nodes && n in t.nodes && d.0 != d.1
    && t0.nodes[n].kind == File(d.0) && t.nodes[n].kind == File(d.1)
  }

  ghost predicate Patching(t0: Tree, t: Tree, deltas: map<FilePath, (FileId, FileId)>, done: set<FilePath>) {
    && InPlace(t0, t)
    && (forall p {:trigger At(t0, p)} :: p in done && p in deltas ==> PatchDone(t0, t, At(t0, p), deltas[p]))
    && (forall n {:trigger t.nodes[n]} :: n in t0.nodes ==> t.nodes[n].attrs == t0.nodes[n].attrs)
    && (forall n {:trigger t.nodes[n]} :: n in t0.nodes && (forall p :: p in done ==> At(t0, p) != n) ==>
          t.nodes[n].kind == t0.nodes[n].kind)
  }

  lemma PatchOne(t0: Tree, t: Tree, deltas: map<FilePath, (FileId, FileId)>, done: set<FilePath>, p: FilePath)
    requires Ok(t0) && Patching(t0, t, deltas, done) && p in deltas && p !in done
    requires CanPatch(t, At(t, p), deltas[p].0, deltas[p].1)
    ensures Patching(t0, Patched(t, At(t, p), deltas[p].1), deltas, done + {p})
  {
    InPlaceAt(t0, t, p);
    var n := At(t0, p);
    assert NodeOk(t, n);
    forall q | q in done ensures At(t0, q) != n {
      if At(t0, q) == n {
        AtInjective(t0, p, q);
      }
    }
    InPlaceMore(t0, t, n, t.nodes[n].(kind := File(deltas[p].1)));
  }

  ghost predicate PatchesOk(t: Tree, deltas: map<FilePath, (FileId, FileId)>) {
    forall p :: p in deltas ==> CanPatch(t, At(t, p), deltas[p].0, deltas[p].1)
  }

  /** A patch yet to come finds what it would have found first. */
  lemma PatchPending(t0: Tree, t: Tree, deltas: map<FilePath, (FileId, FileId)>, done: set<FilePath>, p: FilePath)
    requires Ok(t0) && Patching(t0, t, deltas, done) && p in deltas && p !in done
    ensures CanPatch(t, At(t, p), deltas[p].0, deltas[p].1) <==> CanPatch(t0, At(t0, p), deltas[p].0, deltas[p].1)
  {
    InPlaceAt(t0, t, p);
    var n := At(t0, p);
    assert NodeOk(t0, n);
    forall q | q in done && n in t0.nodes ensures At(t0, q) != n {
      if At(t0, q) == n {
        AtInjective(t0, p, q);
      }
    }
    if n in t0.nodes {
      assert t.nodes[n].kind == t0.nodes[n].kind;
    }
  }

  method PatchAll(r: Roster, deltas: map<FilePath, (FileId, FileId)>) returns (ok: bool)
    requires Ok(r.Snap())
    modifies r
    ensures ok == PatchesOk(old(r.Snap()), deltas)
    ensures ok ==> Patching(old(r.Snap()), r.Snap(), deltas, deltas.Keys)
  {
    ghost var t0 := r.Snap();
    var todo := deltas.Keys;
    ghost var done := {};
    while todo != {}
      invariant Split2(deltas.Keys, done, todo)
      invariant Patching(t0, r.Snap(), deltas, done)
      invariant forall p :: p in done ==> CanPatch(t0, At(t0, p), deltas[p].0, deltas[p].1)
      decreases |todo|
    {
      var p := FirstPath(todo);
      ghost var t := r.Snap();
      PatchPending(t0, t, deltas, done, p);
      ok := r.ApplyDelta(p, deltas[p].0, deltas[p].1);
      if !ok {
        return;
      }
      PatchOne(t0, t, deltas, done, p);
      MoveOne(deltas.Keys, done, todo, p);
      done, todo := done + {p}, todo - {p};
    }
    ok := true;
    assert done == deltas.Keys;
  }

  // ---------- attributes ----------

  ghost predicate AttrDone(t0: Tree, t: Tree, a: AttrName, v: Attr) {
    var n := At(t0, a.0);
    && n in t0.nodes && n in t.nodes && AttrOf(t0, n, a.1) != v
    && a.1 in t.nodes[n].attrs && t.nodes[n].attrs[a.1] == v
  }

  ghost predicate Touched(t0: Tree, done: set<AttrName>, n: NodeId, k: AttrKey) {
    exists a :: a in done && At(t0, a.0) == n && a.1 == k
  }

  ghost predicate Setting(t0: Tree, t: Tree, changes: map<AttrName, Attr>, done: set<AttrName>) {
    && InPlace(t0, t)
    && (forall a {:trigger a in done} :: a in done && a in changes ==> AttrDone(t0, t, a, changes[a]))
    && (forall n {:trigger t.nodes[n]} :: n in t0.nodes ==> t.nodes[n].kind == t0.nodes[n].kind)
    && (forall n, k {:trigger Touched(t0, done, n, k)} :: n in t0.nodes && !Touched(t0, done, n, k) ==>
          SameAttr(t0.nodes[n], t.nodes[n], k))
  }

  lemma NotTouched(t0: Tree, done: set<AttrName>, a: AttrName)
    requires Ok(t0) && a !in done && At(t0, a.0) != NullNode
    ensures !Touched(t0, done, At(t0, a.0), a.1)
  {
    forall b | b in done && b.1 == a.1 ensures At(t0, b.0) != At(t0, a.0) {
      if At(t0, b.0) == At(t0, a.0) {
        AtInjective(t0, a.0, b.0);
      }
    }
  }

  lemma SetOne(t0: Tree, t: Tree, changes: map<AttrName, Attr>, done: set<AttrName>, a: AttrName)
    requires Ok(t0) && Setting(t0, t, changes, done) && a in changes && a !in done
    requires At(t, a.0) in t.nodes && AttrOf(t, At(t, a.0), a.1) != changes[a]
    ensures Setting(t0, AttrSet(t, At(t, a.0), a.1, changes[a]), changes, done + {a})
  {
    InPlaceAt(t0, t, a.0);
    var n := At(t0, a.0);
    assert NodeOk(t, n);
    NotTouched(t0, done, a);
    assert SameAttr(t0.nodes[n], t.nodes[n], a.1);
    var v := t.nodes[n].(attrs := t.nodes[n].attrs[a.1 := changes[a]]);
    InPlaceMore(t0, t, n, v);
    var t' := WithNode(t, n, v);
    forall b | b in done + {a} && b in changes ensures AttrDone(t0, t', b, changes[b]) {
      if b != a {
        assert b in done;
        assert At(t0, b.0) == n ==> b.1 != a.1;
      }
    }
    forall m, k | m in t0.nodes && !Touched(t0, done + {a}, m, k) ensures SameAttr(t0.nodes[m], t'.nodes[m], k) {
      assert a in done + {a};
      assert !Touched(t0, done, m, k) by {
        forall b | b in done ensures !(At(t0, b.0) == m && b.1 == k) {
          assert b in done + {a};
        }
      }
      assert SameAttr(t0.nodes[m], t.nodes[m], k);
    }
  }

  predicate CanSet(t: Tree, a: AttrName, v: Attr) {
    At(t, a.0) in t.nodes && AttrOf(t, At(t, a.0), a.1) != v
  }

  ghost predicate SetsOk(t: Tree, changes: map<AttrName, Attr>) {
    forall a :: a in changes ==> CanSet(t, a, changes[a])
  }

  /** A change yet to come finds what it would have found first. */
  lemma SetPending(t0: Tree, t: Tree, changes: map<AttrName, Attr>, done: set<AttrName>, a: AttrName)
    requires Ok(t0) && Setting(t0, t, changes, done) && a in changes && a !in done
    ensures CanSet(t, a, changes[a]) <==> CanSet(t0, a, changes[a])
  {
    InPlaceAt(t0, t, a.0);
    var n := At(t0, a.0);
    assert NodeOk(t0, n);
    if n in t0.nodes {
      NotTouched(t0, done, a);
      assert SameAttr(t0.nodes[n], t.nodes[n], a.1);
    }
  }

  method SetAll(r: Roster, changes: map<AttrName, Attr>) returns (ok: bool)
    requires Ok(r.Snap()) && forall a :: a in changes ==> changes[a].0 || changes[a].1 == []
    modifies r
    ensures ok == SetsOk(old(r.Snap()), changes)
    ensures ok ==> Setting(old(r.Snap()), r.Snap(), changes, changes.Keys)
  {
    ghost var t0 := r.Snap();
    var todo := changes.Keys;
    ghost var done := {};
    while todo != {}
      invariant Split2(changes.Keys, done, todo)
      invariant Setting(t0, r.Snap(), changes, done)
      invariant forall a :: a in done ==> CanSet(t0, a, changes[a])
      decreases |todo|
    {
      var a := FirstPair(todo);
      ghost var t := r.Snap();
      SetPending(t0, t, changes, done, a);
      ok := r.SetAttr(a.0, a.1, changes[a]);
      if !ok {
        return;
      }
      SetOne(t0, t, changes, done, a);
      MoveOne(changes.Keys, done, todo, a);
      done, todo := done + {a}, todo - {a};
    }
    ok := true;
    assert done == changes.Keys;
  }
}
