/** The run of a change set: the phases in their order, and what they come to. */
module CsetRun {
  import opened Paths
  import opened Ordered
  import opened Rosters
  import opened Csets
  import opened CsetApply
  import opened CsetAttach
  import opened CsetEdits
  import opened ApplyTo
  import opened CsetAccept

  method ScheduleDeletes(deleted: set<FilePath>) returns (detaches: map<FilePath, Target>)
    ensures detaches == map p | p in deleted :: Drop
  {
    detaches := map[];
    var todo := deleted;
    while todo != {}
      invariant todo <= deleted && detaches == map p | p in deleted - todo :: Drop
      decreases |todo|
    {
      var p := FirstPath(todo);
      detaches := detaches[p := Drop];
      todo := todo - {p};
    }
  }

  method ScheduleRenames(renamed: map<FilePath, FilePath>, deletes: map<FilePath, Target>)
      returns (ok: bool, detaches: map<FilePath, Target>)
    ensures ok == (deletes.Keys !! renamed.Keys)
    ensures ok ==> detaches == deletes + map p | p in renamed :: Reattach(renamed[p])
  {
    detaches := deletes;
    var todo := renamed.Keys;
    while todo != {}
      invariant todo <= renamed.Keys && deletes.Keys !! (renamed.Keys - todo)
      invariant detaches == deletes + map p | p in renamed.Keys - todo :: Reattach(renamed[p])
      decreases |todo|
    {
      var p := FirstPath(todo);
      if p in detaches {
        assert p in deletes.Keys && p in renamed.Keys;
        return false, detaches;
      }
      detaches := detaches[p := Reattach(renamed[p])];
      todo := todo - {p};
    }
    ok := true;
    assert renamed.Keys - todo == renamed.Keys;
  }

  method Create(cs: Cset, t: Roster) returns (ok: bool, added: map<FilePath, NodeId>)
    requires Ok(t.Snap())
    modifies t
    ensures ok == (cs.dirs !! cs.files.Keys)
    ensures ok ==> Creating(old(t.Snap()), t.Snap(), cs.dirs, cs.files, added) && FilesLeft(cs.dirs, cs.files.Keys, added.Keys, {})
  {
    ghost var start := t.Snap();
    added := CreateDirs(t, cs.dirs, cs.files);
    ok, added := CreateFiles(t, cs.dirs, cs.files, added, start);
  }

  method Schedule(cs: Cset) returns (ok: bool, detaches: map<FilePath, Target>)
    ensures ok == (cs.deleted !! cs.renamed.Keys)
    ensures ok ==> DetachesOf(cs, detaches)
  {
    var deletes := ScheduleDeletes(cs.deleted);
    ok, detaches := ScheduleRenames(cs.renamed, deletes);
  }

  /** The first half: create the new nodes and detach the old ones. */
  method Take(cs: Cset, t: Roster)
      returns (ok: bool, attaches: map<FilePath, NodeId>, drops: set<NodeId>, ghost r: Run)
    requires Ok(t.Snap()) && PathsNormal(cs)
    modifies t
    ensures ok ==> r.start == old(t.Snap()) && r.detached == t.Snap() && r.attaches == attaches && r.drops == drops
    ensures ok ==> Taken(cs, r)
    ensures old(t.places) == map[] ==> ok == PathsOk(cs, old(t.Snap()))
  {
    ghost var start := t.Snap();
    attaches, drops, r := map[], {}, Run(start, start, start, start, start, map[], map[], map[], map[], {});
    var added, detaches;
    ok, added := Create(cs, t);
    if !ok {
      return;
    }
    ghost var created := t.Snap();
    ok, detaches := Schedule(cs);
    if !ok {
      return;
    }
    if start.places == map[] {
      DetachesAre(cs, start, created, added, detaches);
    }
    ghost var found;
    ok, attaches, drops, found := DetachAll(t, detaches, added);
    r := Run(start, created, t.Snap(), t.Snap(), t.Snap(), added, detaches, found, attaches, drops);
  }

  /** The second half: attach and drop. */
  method Put(t: Roster, attaches: map<FilePath, NodeId>, drops: set<NodeId>) returns (ok: bool, ghost attached: Tree)
    requires Ok(t.Snap()) && Waiting(t.Snap(), attaches, drops) && forall p :: p in attaches ==> Normal(p)
    modifies t
    ensures AttachesOk(old(t.Snap()), attaches) ==> Attaching(old(t.Snap()), attached, attaches, attaches.Keys, drops)
    ensures ok == (AttachesOk(old(t.Snap()), attaches) && DropsOk(attached, drops))
    ensures ok ==> Dropping(attached, t.Snap(), drops, drops)
    ensures ok ==> t.places == old(t.places) - Nodes(attaches, attaches.Keys) - drops
  {
    attached := t.Snap();
    ok := AttachAll(t, attaches, drops);
    if ok {
      attached := t.Snap();
      ok := DropAll(t, drops);
    }
  }

  ghost predicate Movable(cs: Cset, t: Tree) {
    PathsOk(cs, t) && MovesOk(cs, t) && DeletesOk(cs, t)
  }

  lemma PutMeans(cs: Cset, r: Run, ok: bool)
    requires Clean(cs, r) && PathsNormal(cs)
    requires AttachesOk(r.detached, r.attaches) ==> Attaching(r.detached, r.attached, r.attaches, r.attaches.Keys, r.drops)
    requires ok == (AttachesOk(r.detached, r.attaches) && DropsOk(r.attached, r.drops))
    ensures ok == Movable(cs, r.start)
    ensures r.detached.places - Nodes(r.attaches, r.attaches.Keys) - r.drops == map[]
  {
    CleanMatch(cs, r);
    MovesFit(cs, r.start, r.detached, r.added, r.attaches);
    if AttachesOk(r.detached, r.attaches) {
      DeletesFit(cs, r);
    }
    AllReturned(cs, r);
  }

  /** Every node taken off is put back or dropped. */
  lemma AllReturned(cs: Cset, r: Run)
    requires Clean(cs, r)
    ensures r.detached.places - Nodes(r.attaches, r.attaches.Keys) - r.drops == map[]
  {
    forall n | n in r.detached.places ensures n in Nodes(r.attaches, r.attaches.Keys) || n in r.drops {
      var p :| p in r.found && r.found[p] == n;
      if r.detaches[p].Reattach? {
        assert r.detaches[p].path in r.attaches.Keys;
      }
    }
  }

  method MoveNodes(cs: Cset, t: Roster) returns (ok: bool, ghost r: Run)
    requires Ok(t.Snap()) && PathsNormal(cs)
    modifies t
    ensures ok ==> Ran(cs, r) && r.start == old(t.Snap()) && r.dropped == t.Snap()
    ensures old(t.places) == map[] ==> ok == Movable(cs, old(t.Snap()))
    ensures old(t.places) == map[] && ok ==> Clean(cs, r) && t.places == map[]
  {
    var attaches, drops;
    ok, attaches, drops, r := Take(cs, t);
    if !ok {
      return;
    }
    AttachesNormal(cs, r);
    ghost var attached;
    ok, attached := Put(t, attaches, drops);
    r := r.(attached := attached, dropped := t.Snap());
    if r.start.places == map[] {
      PutMeans(cs, r, ok);
    }
  }

  lemma AttachesNormal(cs: Cset, r: Run)
    requires PathsNormal(cs) && Taken(cs, r)
    ensures forall p :: p in r.attaches ==> Normal(p)
  {
    forall q | q in r.attaches ensures Normal(q) {
      if q !in r.added {
        var p :| p in r.found && r.detaches[p] == Reattach(q);
        assert p in cs.renamed;
      }
    }
  }

  /** Patches change no attribute. */
  lemma PatchedAttrs(t0: Tree, t: Tree, deltas: map<FilePath, (FileId, FileId)>, changes: map<AttrName, Attr>)
    requires Patching(t0, t, deltas, deltas.Keys)
    ensures SetsOk(t, changes) <==> SetsOk(t0, changes)
  {
    forall a: AttrName, v ensures CanSet(t, a, v) <==> CanSet(t0, a, v) {
      InPlaceAt(t0, t, a.0);
    }
  }

  /** Changing some attributes changes no other. */
  lemma OtherAttrs(t0: Tree, t: Tree, before: map<AttrName, Attr>, changes: map<AttrName, Attr>)
    requires Ok(t0) && Setting(t0, t, before, before.Keys) && before.Keys !! changes.Keys
    ensures SetsOk(t, changes) <==> SetsOk(t0, changes)
  {
    forall a | a in changes ensures CanSet(t, a, changes[a]) <==> CanSet(t0, a, changes[a]) {
      InPlaceAt(t0, t, a.0);
      var n := At(t0, a.0);
      assert NodeOk(t0, n);
      if n in t0.nodes {
        NotTouched(t0, before.Keys, a);
        assert SameAttr(t0.nodes[n], t.nodes[n], a.1);
      }
    }
  }

  method EditNodes(cs: Cset, t: Roster) returns (ok: bool, ghost patched: Tree, ghost cleared: Tree)
    requires Ok(t.Snap()) && Normalized(cs)
    modifies t
    ensures ok == EditsOk(cs, old(t.Snap()))
    ensures ok ==> Edited(cs, old(t.Snap()), patched, cleared, t.Snap()) && t.places == old(t.places)
  {
    ghost var start := t.Snap();
    patched, cleared := start, start;
    ok := PatchAll(t, cs.deltas);
    if !ok {
      return;
    }
    patched := t.Snap();
    PatchedAttrs(start, patched, cs.deltas, Clears(cs));
    PatchedAttrs(start, patched, cs.deltas, Sets(cs));
    ok := SetAll(t, Clears(cs));
    if !ok {
      return;
    }
    cleared := t.Snap();
    OtherAttrs(patched, cleared, Clears(cs), Sets(cs));
    ok := SetAll(t, Sets(cs));
  }

  /** `cset::apply_to`: an accepted run has the whole effect of the change set, and it is accepted
      exactly when the change set is applicable. Nothing is left detached. */
  method Apply(cs: Cset, t: Roster) returns (ok: bool)
    requires Ok(t.Snap()) && PathsNormal(cs)
    modifies t
    ensures ok ==> Applied(cs, old(t.Snap()), t.Snap())
    ensures ok ==> cs.files.Keys !! cs.deltas.Keys && cs.cleared !! cs.attrs.Keys
    ensures old(t.places) == map[] ==> ok == Applicable(cs, old(t.Snap()))
    ensures old(t.places) == map[] && ok ==> t.places == map[] && Settled(cs, old(t.Snap()), t.Snap())
  {
    ghost var start := t.Snap();
    ok := CheckNormalized(cs);
    if !ok {
      return;
    }
    ghost var r;
    ok, r := MoveNodes(cs, t);
    if !ok {
      return;
    }
    if start.places == map[] {
      ChangesFit(cs, r);
    }
    ghost var patched, cleared;
    ok, patched, cleared := EditNodes(cs, t);
    if ok {
      RunApplies(cs, r, patched, cleared, t.Snap());
      if start.places == map[] {
        RunSettled(cs, r, patched, cleared, t.Snap());
      }
    }
  }
}
