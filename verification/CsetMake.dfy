/** Computing the change set between two trees, node by node. */
module CsetMake {
  import opened Paths
  import Ordered
  import opened Rosters
  import opened Csets
  import CsetAttach
  import opened CsetAccept
  import opened CsetDiffer
  import ApplyTo
  import CsetRun

  // ---------- the path of a node ----------

  /** `get_name`: up to the root, collecting names on the way. */
  method GetName(t: Tree, n: NodeId) returns (p: FilePath)
    requires Whole(t) && n in t.nodes
    ensures At(t, p) == n && forall q :: At(t, q) == n <==> q == p
  {
    NullIsNone(t);
    ghost var path := NodePath(t, n);
    ghost var up := Components(path);
    var names: seq<Name> := [];
    var at := n;
    while at != t.root
      invariant Components(path) == up + names && at in t.nodes && Find(t, t.root, up) == at
      decreases |up|
    {
      assert up == up[..|up| - 1] + [up[|up| - 1]];
      FoundLinks(t, up[..|up| - 1], up[|up| - 1]);
      FindInside(t, t.root, up[..|up| - 1]);
      names := [t.nodes[at].name] + names;
      at := t.nodes[at].parent;
      up := up[..|up| - 1];
    }
    FindInjective(t, up, []);
    assert [] + names == names;
    p := Join(names);
    CsetAttach.NamedComponents({}, path);
    OnePath(t, path);
  }

  lemma OnePath(t: Tree, p: FilePath)
    requires Ok(t) && At(t, p) in t.nodes
    ensures forall q :: At(t, q) == At(t, p) <==> q == p
  {
    NullIsNone(t);
    forall q | At(t, q) == At(t, p) ensures q == p {
      AtInjective(t, p, q);
    }
  }

  // ---------- the difference so far ----------

  ghost predicate DeletedOn(a: Tree, b: Tree, done: set<NodeId>, s: set<FilePath>) {
    forall p :: p in s <==> At(a, p) in done && At(a, p) in a.nodes && At(a, p) !in b.nodes
  }

  ghost predicate DirsOn(a: Tree, b: Tree, done: set<NodeId>, s: set<FilePath>) {
    forall p :: p in s <==> At(b, p) in done && IsDir(b, At(b, p)) && At(b, p) !in a.nodes
  }

  ghost predicate FilesOn(a: Tree, b: Tree, done: set<NodeId>, m: map<FilePath, FileId>) {
    && (forall p :: p in m <==> At(b, p) in done && At(b, p) in b.nodes && At(b, p) !in a.nodes && b.nodes[At(b, p)].kind.File?)
    && (forall p :: p in m ==> b.nodes[At(b, p)].kind == File(m[p]))
  }

  ghost predicate RenamedOn(a: Tree, b: Tree, done: set<NodeId>, m: map<FilePath, FilePath>) {
    && (forall p :: p in m <==> At(a, p) in done && Moved(a, b, At(a, p)))
    && (forall p :: p in m ==> At(b, m[p]) == At(a, p))
  }

  ghost predicate DeltasOn(a: Tree, b: Tree, done: set<NodeId>, m: map<FilePath, (FileId, FileId)>) {
    && (forall p :: p in m <==> At(b, p) in done && Rewritten(a, b, At(b, p)))
    && (forall p :: p in m ==> a.nodes[At(b, p)].kind == File(m[p].0) && b.nodes[At(b, p)].kind == File(m[p].1))
  }

  ghost predicate ClearedOn(a: Tree, b: Tree, done: set<NodeId>, s: set<(FilePath, AttrKey)>) {
    forall p, k :: (p, k) in s <==> At(b, p) in done && AttrGone(a, b, At(b, p), k)
  }

  ghost predicate AttrsOn(a: Tree, b: Tree, done: set<NodeId>, m: map<(FilePath, AttrKey), AttrValue>) {
    && (forall p, k :: (p, k) in m <==> At(b, p) in done && AttrNew(a, b, At(b, p), k))
    && (forall p, k :: (p, k) in m ==> m[(p, k)] == AttrOf(b, At(b, p), k).1)
  }

  ghost predicate DiffersOn(a: Tree, b: Tree, done: set<NodeId>, cs: Cset) {
    && DeletedOn(a, b, done, cs.deleted) && DirsOn(a, b, done, cs.dirs) && FilesOn(a, b, done, cs.files)
    && RenamedOn(a, b, done, cs.renamed) && DeltasOn(a, b, done, cs.deltas)
    && ClearedOn(a, b, done, cs.cleared) && AttrsOn(a, b, done, cs.attrs)
  }

  lemma DiffersAll(a: Tree, b: Tree, cs: Cset)
    requires DiffersOn(a, b, a.nodes.Keys + b.nodes.Keys, cs)
    ensures Differs(a, b, cs)
  {
    NodesAll(a, b, cs);
    EditsAll(a, b, cs);
  }

  lemma NodesAll(a: Tree, b: Tree, cs: Cset)
    requires var all := a.nodes.Keys + b.nodes.Keys;
      && DeletedOn(a, b, all, cs.deleted) && DirsOn(a, b, all, cs.dirs) && FilesOn(a, b, all, cs.files) && RenamedOn(a, b, all, cs.renamed)
    ensures forall p :: p in cs.deleted <==> At(a, p) in a.nodes && At(a, p) !in b.nodes
    ensures forall p :: p in cs.dirs <==> IsDir(b, At(b, p)) && At(b, p) !in a.nodes
    ensures forall p :: p in cs.files <==> At(b, p) in b.nodes && At(b, p) !in a.nodes && b.nodes[At(b, p)].kind.File?
    ensures forall p :: p in cs.renamed <==> Moved(a, b, At(a, p))
  {
  }

  lemma EditsAll(a: Tree, b: Tree, cs: Cset)
    requires var all := a.nodes.Keys + b.nodes.Keys;
      DeltasOn(a, b, all, cs.deltas) && ClearedOn(a, b, all, cs.cleared) && AttrsOn(a, b, all, cs.attrs)
    ensures forall p :: p in cs.deltas <==> Rewritten(a, b, At(b, p))
    ensures forall p, k :: (p, k) in cs.cleared <==> AttrGone(a, b, At(b, p), k)
    ensures forall p, k :: (p, k) in cs.attrs <==> AttrNew(a, b, At(b, p), k)
  {
  }

  // ---------- one node ----------

  /** The attributes of one node: those it lost and those it has or has otherwise. */
  method NodeAttrs(a: Tree, b: Tree, n: NodeId) returns (gone: set<AttrKey>, news: map<AttrKey, AttrValue>)
    requires Whole(a) && Whole(b) && n in b.nodes
    ensures forall k :: k in gone <==> AttrGone(a, b, n, k)
    ensures forall k :: k in news <==> AttrNew(a, b, n, k)
    ensures forall k :: k in news ==> news[k] == AttrOf(b, n, k).1
  {
    gone, news := {}, map[];
    var from := if n in a.nodes then a.nodes[n].attrs else map[];
    var to := b.nodes[n].attrs;
    var todo := from.Keys + to.Keys;
    while todo != {}
      invariant todo <= from.Keys + to.Keys
      invariant forall k :: k in gone <==> k !in todo && AttrGone(a, b, n, k)
      invariant forall k :: k in news <==> k !in todo && AttrNew(a, b, n, k)
      invariant forall k :: k in news ==> news[k] == AttrOf(b, n, k).1
      decreases todo
    {
      var k :| k in todo;
      assert !AttrOf(a, n, k).0 ==> AttrOf(a, n, k).1 == [];
      if (k !in to || !to[k].0) && k in from && from[k].0 {
        gone := gone + {k};
      } else if (k !in from || !from[k].0) && k in to && to[k].0 {
        news := news[k := to[k].1];
      } else if k in from && k in to && to[k].0 && from[k].0 && to[k].1 != from[k].1 {
        news := news[k := to[k].1];
      }
      todo := todo - {k};
    }
  }

  function Keyed(p: FilePath, news: map<AttrKey, AttrValue>): map<(FilePath, AttrKey), AttrValue> {
    map k | k in news :: (p, k) := news[k]
  }

  lemma KeyedHas(p: FilePath, news: map<AttrKey, AttrValue>, q: FilePath, k: AttrKey)
    ensures (q, k) in Keyed(p, news) <==> q == p && k in news
    ensures (q, k) in Keyed(p, news) ==> Keyed(p, news)[(q, k)] == news[k]
  {
    if q == p && k in news {
      assert (p, k) in Keyed(p, news);
    }
  }

  lemma AttrsMore(a: Tree, b: Tree, done: set<NodeId>, m: map<(FilePath, AttrKey), AttrValue>, n: NodeId, p: FilePath,
                  news: map<AttrKey, AttrValue>)
    requires AttrsOn(a, b, done, m) && n !in done && forall q :: At(b, q) == n <==> q == p
    requires forall k :: k in news <==> AttrNew(a, b, n, k)
    requires forall k :: k in news ==> news[k] == AttrOf(b, n, k).1
    ensures AttrsOn(a, b, done + {n}, m + Keyed(p, news))
  {
    var m' := m + Keyed(p, news);
    forall q, k
      ensures (q, k) in m' <==> At(b, q) in done + {n} && AttrNew(a, b, At(b, q), k)
      ensures (q, k) in m' ==> m'[(q, k)] == AttrOf(b, At(b, q), k).1
    {
      KeyedHas(p, news, q, k);
    }
  }

  lemma ClearedMore(a: Tree, b: Tree, done: set<NodeId>, s: set<(FilePath, AttrKey)>, n: NodeId, p: FilePath, gone: set<AttrKey>)
    requires ClearedOn(a, b, done, s) && n !in done && forall q :: At(b, q) == n <==> q == p
    requires forall k :: k in gone <==> AttrGone(a, b, n, k)
    ensures ClearedOn(a, b, done + {n}, s + set k | k in gone :: (p, k))
  {
  }

  lemma DeletedMore(a: Tree, b: Tree, done: set<NodeId>, s: set<FilePath>, n: NodeId, p: FilePath)
    requires DeletedOn(a, b, done, s) && n !in done
    ensures n in a.nodes && n !in b.nodes && (forall q :: At(a, q) == n <==> q == p) ==>
      p !in s && DeletedOn(a, b, done + {n}, s + {p})
    ensures !(n in a.nodes && n !in b.nodes) ==> DeletedOn(a, b, done + {n}, s)
  {
  }

  lemma DirsMore(a: Tree, b: Tree, done: set<NodeId>, s: set<FilePath>, n: NodeId, p: FilePath)
    requires DirsOn(a, b, done, s) && n !in done
    ensures IsDir(b, n) && n !in a.nodes && (forall q :: At(b, q) == n <==> q == p) ==>
      p !in s && DirsOn(a, b, done + {n}, s + {p})
    ensures !(IsDir(b, n) && n !in a.nodes) ==> DirsOn(a, b, done + {n}, s)
  {
  }

  lemma FilesMore(a: Tree, b: Tree, done: set<NodeId>, m: map<FilePath, FileId>, n: NodeId, p: FilePath, id: FileId)
    requires FilesOn(a, b, done, m) && n !in done
    ensures n in b.nodes && b.nodes[n].kind == File(id) && n !in a.nodes && (forall q :: At(b, q) == n <==> q == p) ==>
      p !in m && FilesOn(a, b, done + {n}, m[p := id])
    ensures !(n in b.nodes && b.nodes[n].kind.File? && n !in a.nodes) ==> FilesOn(a, b, done + {n}, m)
  {
  }

  lemma RenamedMore(a: Tree, b: Tree, done: set<NodeId>, m: map<FilePath, FilePath>, n: NodeId, p: FilePath, q: FilePath)
    requires RenamedOn(a, b, done, m) && n !in done
    ensures Moved(a, b, n) && At(b, q) == n && (forall r :: At(a, r) == n <==> r == p) ==>
      p !in m && RenamedOn(a, b, done + {n}, m[p := q])
    ensures !Moved(a, b, n) ==> RenamedOn(a, b, done + {n}, m)
  {
  }

  lemma DeltasMore(a: Tree, b: Tree, done: set<NodeId>, m: map<FilePath, (FileId, FileId)>, n: NodeId, p: FilePath)
    requires DeltasOn(a, b, done, m) && n !in done
    ensures Rewritten(a, b, n) && (forall q :: At(b, q) == n <==> q == p) ==>
      p !in m && DeltasOn(a, b, done + {n}, m[p := (a.nodes[n].kind.content, b.nodes[n].kind.content)])
    ensures !Rewritten(a, b, n) ==> DeltasOn(a, b, done + {n}, m)
  {
  }

  lemma NoAttrs(a: Tree, b: Tree, done: set<NodeId>, cs: Cset, n: NodeId)
    requires ClearedOn(a, b, done, cs.cleared) && AttrsOn(a, b, done, cs.attrs)
    ensures (forall k :: !AttrGone(a, b, n, k)) ==> ClearedOn(a, b, done + {n}, cs.cleared)
    ensures (forall k :: !AttrNew(a, b, n, k)) ==> AttrsOn(a, b, done + {n}, cs.attrs)
  {
  }

  /** `delta_only_in_from`. */
  method OnlyInFrom(a: Tree, b: Tree, ghost done: set<NodeId>, n: NodeId, cs: Cset) returns (cs': Cset)
    requires Whole(a) && Whole(b) && DiffersOn(a, b, done, cs) && n !in done && n in a.nodes && n !in b.nodes
    ensures DiffersOn(a, b, done + {n}, cs')
  {
    var p := GetName(a, n);
    DeletedMore(a, b, done, cs.deleted, n, p);
    DirsMore(a, b, done, cs.dirs, n, p);
    FilesMore(a, b, done, cs.files, n, p, []);
    RenamedMore(a, b, done, cs.renamed, n, p, p);
    DeltasMore(a, b, done, cs.deltas, n, p);
    NoAttrs(a, b, done, cs, n);
    cs' := cs.(deleted := cs.deleted + {p});
  }

  /** `delta_only_in_to`. */
  method OnlyInTo(a: Tree, b: Tree, ghost done: set<NodeId>, n: NodeId, cs: Cset) returns (cs': Cset)
    requires Whole(a) && Whole(b) && DiffersOn(a, b, done, cs) && n !in done && n in b.nodes && n !in a.nodes
    ensures DiffersOn(a, b, done + {n}, cs')
  {
    var p := GetName(b, n);
    DeletedMore(a, b, done, cs.deleted, n, p);
    DirsMore(a, b, done, cs.dirs, n, p);
    FilesMore(a, b, done, cs.files, n, p, if b.nodes[n].kind.File? then b.nodes[n].kind.content else []);
    RenamedMore(a, b, done, cs.renamed, n, p, p);
    DeltasMore(a, b, done, cs.deltas, n, p);
    NoAttrs(a, b, done, cs, n);
    var gone, news := NodeAttrs(a, b, n);
    AttrsMore(a, b, done, cs.attrs, n, p, news);
    match b.nodes[n].kind
    case File(content) => cs' := cs.(files := cs.files[p := content], attrs := cs.attrs + Keyed(p, news));
    case Dir(_) => cs' := cs.(dirs := cs.dirs + {p}, attrs := cs.attrs + Keyed(p, news));
  }

  /** `shallow_equal`: all but the children. */
  predicate ShallowEqual(v: Node, w: Node) {
    SamePlace(v, w) && v.attrs == w.attrs && v.kind.Dir? == w.kind.Dir? && (v.kind.File? ==> v.kind == w.kind)
  }

  /** `delta_in_both`. */
  method InBoth(a: Tree, b: Tree, ghost done: set<NodeId>, n: NodeId, cs: Cset) returns (cs': Cset)
    requires Whole(a) && Whole(b) && DiffersOn(a, b, done, cs) && n !in done && n in a.nodes && n in b.nodes
    requires a.nodes[n].kind.Dir? == b.nodes[n].kind.Dir?
    ensures DiffersOn(a, b, done + {n}, cs')
  {
    var v, w := a.nodes[n], b.nodes[n];
    DeletedMore(a, b, done, cs.deleted, n, []);
    DirsMore(a, b, done, cs.dirs, n, []);
    FilesMore(a, b, done, cs.files, n, [], []);
    if ShallowEqual(v, w) {
      Untouched(a, b, done, n, cs);
      return cs;
    }
    var from := GetName(a, n);
    var to := GetName(b, n);
    RenamedMore(a, b, done, cs.renamed, n, from, to);
    DeltasMore(a, b, done, cs.deltas, n, to);
    var renamed := if v.name != w.name || v.parent != w.parent then cs.renamed[from := to] else cs.renamed;
    var deltas := if v.kind.File? && v.kind.content != w.kind.content then cs.deltas[to := (v.kind.content, w.kind.content)] else cs.deltas;
    var gone, news := NodeAttrs(a, b, n);
    ClearedMore(a, b, done, cs.cleared, n, to, gone);
    AttrsMore(a, b, done, cs.attrs, n, to, news);
    cs' := cs.(renamed := renamed, deltas := deltas, cleared := cs.cleared + (set k | k in gone :: (to, k)), attrs := cs.attrs + Keyed(to, news));
  }

  lemma Untouched(a: Tree, b: Tree, done: set<NodeId>, n: NodeId, cs: Cset)
    requires DiffersOn(a, b, done, cs) && n !in done && n in a.nodes && n in b.nodes && ShallowEqual(a.nodes[n], b.nodes[n])
    ensures RenamedOn(a, b, done + {n}, cs.renamed) && DeltasOn(a, b, done + {n}, cs.deltas)
    ensures ClearedOn(a, b, done + {n}, cs.cleared) && AttrsOn(a, b, done + {n}, cs.attrs)
  {
    RenamedMore(a, b, done, cs.renamed, n, [], []);
    DeltasMore(a, b, done, cs.deltas, n, []);
    NoAttrs(a, b, done, cs, n);
  }

  // ---------- all nodes ----------

  /** `cset::cset`: the nodes of both trees in ascending order of their ids. Refused where a node changes its type. */
  method Difference(a: Tree, b: Tree) returns (ok: bool, cs: Cset)
    requires Whole(a) && Whole(b)
    ensures ok <==> SameTypes(a, b)
    ensures ok ==> Differs(a, b, cs)
  {
    cs := Cset({}, {}, map[], map[], map[], {}, map[]);
    var todo := a.nodes.Keys + b.nodes.Keys;
    ghost var done: set<NodeId> := {};
    while todo != {}
      invariant done + todo == a.nodes.Keys + b.nodes.Keys && done !! todo
      invariant DiffersOn(a, b, done, cs)
      invariant forall n :: n in done && n in a.nodes && n in b.nodes ==> a.nodes[n].kind.Dir? == b.nodes[n].kind.Dir?
      decreases todo
    {
      var n := Ordered.LeastNat(todo);
      if n !in b.nodes {
        cs := OnlyInFrom(a, b, done, n, cs);
      } else if n !in a.nodes {
        cs := OnlyInTo(a, b, done, n, cs);
      } else {
        if a.nodes[n].kind.Dir? != b.nodes[n].kind.Dir? {
          return false, cs;
        }
        cs := InBoth(a, b, done, n, cs);
      }
      done, todo := done + {n}, todo - {n};
    }
    assert done == a.nodes.Keys + b.nodes.Keys;
    DiffersAll(a, b, cs);
    ok := true;
  }

  /** The difference between a tree and another one, applied to it, makes it the other one, up to the numbers
      of the nodes that are new. */
  method Advance(t: Roster, b: Tree) returns (ok: bool)
    requires Whole(t.Snap()) && Whole(b)
    modifies t
    ensures ok <==> SameTypes(old(t.Snap()), b)
    ensures ok ==> SameTree(old(t.Snap()), b, t.Snap()) && Whole(t.Snap())
  {
    ghost var a := t.Snap();
    var cs;
    ok, cs := Difference(t.Snap(), b);
    if ok {
      DifferApplies(a, b, cs);
      ok := CsetRun.Apply(cs, t);
      DifferGives(a, b, cs, t.Snap());
      GivesWhole(a, b, cs, t.Snap());
    }
  }
}
