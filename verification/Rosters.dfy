/** A tree of files whose nodes have identities, and the editing operations a change set drives. */
module Rosters {
  import opened Paths

  type NodeId = nat
  type FileId = string
  type AttrKey = string
  type AttrValue = string
  type Attr = (bool, AttrValue)

  /** "No node": the parent of the root and of a detached node. */
  const NullNode: NodeId := 0

  datatype Kind = Dir(children: map<Name, NodeId>) | File(content: FileId)
  datatype Node = Node(parent: NodeId, name: Name, attrs: map<AttrKey, Attr>, kind: Kind)
  datatype Place = Place(parent: NodeId, name: Name)

  /** `places` remembers where a node was detached from, `next` is the next fresh identity. */
  datatype Tree = Tree(nodes: map<NodeId, Node>, root: NodeId, places: map<NodeId, Place>, next: NodeId)

  // ---------- reading a tree ----------

  predicate Has(t: Tree, d: NodeId, name: Name) {
    IsDir(t, d) && name in t.nodes[d].kind.children
  }

  function Step(t: Tree, d: NodeId, name: Name): NodeId {
    if Has(t, d, name) then t.nodes[d].kind.children[name] else NullNode
  }

  function Find(t: Tree, d: NodeId, names: seq<Name>): NodeId
    decreases |names|
  {
    if names == [] then d else Find(t, Step(t, d, names[0]), names[1..])
  }

  /** The node a path names, or `NullNode`. */
  function At(t: Tree, p: FilePath): NodeId {
    Find(t, t.root, Components(p))
  }

  predicate ChildOk(t: Tree, d: NodeId, name: Name) {
    Has(t, d, name) ==>
      var c := Step(t, d, name);
      name != [] && c in t.nodes && t.nodes[c].parent == d && t.nodes[c].name == name
  }

  predicate NodeOk(t: Tree, n: NodeId) {
    n in t.nodes ==>
      && NullNode < n < t.next
      && (t.nodes[n].parent == NullNode <==> t.nodes[n].name == [])
      && (t.nodes[n].parent != NullNode ==> Step(t, t.nodes[n].parent, t.nodes[n].name) == n)
  }

  predicate IsDir(t: Tree, n: NodeId) {
    n in t.nodes && t.nodes[n].kind.Dir?
  }

  /** Parents and children agree, and the root is a directory without a parent. */
  ghost predicate Ok(t: Tree) {
    && (forall n {:trigger NodeOk(t, n)} :: NodeOk(t, n))
    && (forall d, name {:trigger ChildOk(t, d, name)} :: ChildOk(t, d, name))
    && (t.root != NullNode ==> IsDir(t, t.root) && t.nodes[t.root].parent == NullNode)
    && 0 < t.next
  }

  /** Neither attached below a directory nor the root. */
  predicate Loose(t: Tree, n: NodeId) {
    n in t.nodes && t.nodes[n].parent == NullNode && n != t.root
  }

  // ---------- paths and nodes ----------

  lemma {:induction false} FindAppend(t: Tree, d: NodeId, a: seq<Name>, name: Name)
    ensures Find(t, d, a + [name]) == Step(t, Find(t, d, a), name)
    decreases |a|
  {
    if a == [] {
      assert (a + [name])[1..] == [];
    } else {
      assert (a + [name])[1..] == a[1..] + [name];
      FindAppend(t, Step(t, d, a[0]), a[1..], name);
    }
  }

  lemma {:induction false} FindInside(t: Tree, d: NodeId, a: seq<Name>)
    requires Ok(t) && (d == NullNode || d in t.nodes)
    ensures Find(t, d, a) == NullNode || Find(t, d, a) in t.nodes
    decreases |a|
  {
    if a != [] {
      assert ChildOk(t, d, a[0]);
      FindInside(t, Step(t, d, a[0]), a[1..]);
    }
  }

  /** A node found at a path knows its parent and its name. */
  lemma FoundLinks(t: Tree, a: seq<Name>, name: Name)
    requires Ok(t) && Find(t, t.root, a + [name]) != NullNode
    ensures var n := Find(t, t.root, a + [name]);
      && n in t.nodes && t.nodes[n].name == name
      && t.nodes[n].parent == Find(t, t.root, a) != NullNode && n != t.root
  {
    FindAppend(t, t.root, a, name);
    FindInside(t, t.root, a);
    var d := Find(t, t.root, a);
    assert ChildOk(t, d, name);
    assert NodeOk(t, d);
    assert NodeOk(t, t.root);
  }

  /** Two paths never name the same node. */
  lemma {:induction false} FindInjective(t: Tree, a: seq<Name>, b: seq<Name>)
    requires Ok(t) && Find(t, t.root, a) == Find(t, t.root, b) != NullNode
    ensures a == b
    decreases |a| + |b|
  {
    if a != [] && b != [] {
      var a', b' := a[..|a| - 1], b[..|b| - 1];
      var x, y := a[|a| - 1], b[|b| - 1];
      assert a == a' + [x] && b == b' + [y];
      FoundLinks(t, a', x);
      FoundLinks(t, b', y);
      FindInjective(t, a', b');
    } else if a != [] {
      assert a == a[..|a| - 1] + [a[|a| - 1]];
      FoundLinks(t, a[..|a| - 1], a[|a| - 1]);
    } else if b != [] {
      assert b == b[..|b| - 1] + [b[|b| - 1]];
      FoundLinks(t, b[..|b| - 1], b[|b| - 1]);
    }
  }

  lemma AtInjective(t: Tree, p: FilePath, q: FilePath)
    requires Ok(t) && At(t, p) == At(t, q) != NullNode
    ensures p == q
  {
    FindInjective(t, Components(p), Components(q));
    ComponentsInjective(p, q);
  }

  lemma AtInside(t: Tree, p: FilePath)
    requires Ok(t)
    ensures At(t, p) == NullNode || At(t, p) in t.nodes
    ensures At(t, p) != NullNode ==> !Loose(t, At(t, p))
  {
    FindInside(t, t.root, Components(p));
    if At(t, p) != NullNode && p != [] {
      var a := Components(p);
      assert a == a[..|a| - 1] + [a[|a| - 1]];
      FoundLinks(t, a[..|a| - 1], a[|a| - 1]);
    }
  }

  // ---------- what a change of steps does to paths ----------

  ghost predicate SameSteps(t: Tree, t': Tree) {
    t'.root == t.root && forall d, name {:trigger Step(t', d, name)} :: Step(t', d, name) == Step(t, d, name)
  }

  lemma {:induction false} SameFind(t: Tree, t': Tree, d: NodeId, a: seq<Name>)
    requires SameSteps(t, t')
    ensures Find(t', d, a) == Find(t, d, a)
    decreases |a|
  {
    if a != [] {
      SameFind(t, t', Step(t', d, a[0]), a[1..]);
    }
  }

  /** Steps are only added. */
  ghost predicate MoreSteps(t: Tree, t': Tree) {
    && t'.root == t.root
    && forall d, name {:trigger Step(t', d, name)} :: Step(t, d, name) != NullNode ==> Step(t', d, name) == Step(t, d, name)
  }

  lemma {:induction false} MoreFind(t: Tree, t': Tree, d: NodeId, a: seq<Name>)
    requires MoreSteps(t, t') && NullNode !in t.nodes && Find(t, d, a) != NullNode
    ensures Find(t', d, a) == Find(t, d, a)
    decreases |a|
  {
    if a != [] {
      if Step(t, d, a[0]) == NullNode {
        NothingBelowNull(t, a[1..]);
      }
      assert Step(t', d, a[0]) == Step(t, d, a[0]);
      MoreFind(t, t', Step(t', d, a[0]), a[1..]);
    }
  }

  lemma {:induction false} NothingBelowNull(t: Tree, a: seq<Name>)
    requires NullNode !in t.nodes
    ensures Find(t, NullNode, a) == NullNode
    decreases |a|
  {
    if a != [] {
      NothingBelowNull(t, a[1..]);
    }
  }

  /** One step is removed. */
  ghost predicate LessStep(t: Tree, t': Tree, d: NodeId, name: Name) {
    && t'.root == t.root
    && forall e, x {:trigger Step(t', e, x)} :: Step(t', e, x) == if e == d && x == name then NullNode else Step(t, e, x)
  }

  /** Paths that do not lead through the removed step name the same nodes as before. */
  lemma {:induction false} LessFind(t: Tree, t': Tree, a: seq<Name>, name: Name, q: seq<Name>)
    requires Ok(t) && LessStep(t, t', Find(t, t.root, a), name) && Find(t, t.root, a) != NullNode
    requires !(a + [name] <= q)
    ensures Find(t', t.root, q) == Find(t, t.root, q)
    decreases |q|
  {
    if q != [] {
      var q', x := q[..|q| - 1], q[|q| - 1];
      assert q == q' + [x];
      LessFind(t, t', a, name, q');
      FindAppend(t, t.root, q', x);
      FindAppend(t', t.root, q', x);
      if Find(t, t.root, q') == Find(t, t.root, a) {
        FindInjective(t, a, q');
      }
    }
  }

  // ---------- the operations on values ----------

  predicate CanDetach(t: Tree, p: FilePath) {
    At(t, p) != NullNode && At(t, p) !in t.places
  }

  function Detached(t: Tree, n: NodeId): Tree
    requires n in t.nodes
  {
    var v := t.nodes[n];
    var t1 := t.(places := t.places[n := Place(v.parent, v.name)]);
    if n == t.root || !IsDir(t, v.parent) then t1.(root := NullNode)
    else
      var d := t.nodes[v.parent];
      var d' := d.(kind := Dir(d.kind.children - {v.name}));
      t1.(nodes := t.nodes[v.parent := d'][n := v.(parent := NullNode, name := [])])
  }

  /** Everything about a node but its place in the tree and its list of children. */
  predicate SameBody(v: Node, w: Node) {
    v.attrs == w.attrs && v.kind.Dir? == w.kind.Dir? && (v.kind.File? ==> w.kind == v.kind)
  }

  predicate SamePlace(v: Node, w: Node) {
    v.parent == w.parent && v.name == w.name
  }

  /** All nodes keep their bodies, and all but those in `moved` their places. */
  ghost predicate OnlyMoved(t: Tree, t': Tree, moved: set<NodeId>) {
    && t'.nodes.Keys == t.nodes.Keys
    && t'.next == t.next
    && (forall n {:trigger t'.nodes[n]} :: n in t.nodes ==> SameBody(t.nodes[n], t'.nodes[n]))
    && (forall n {:trigger t'.nodes[n]} :: n in t.nodes && n !in moved ==> SamePlace(t.nodes[n], t'.nodes[n]))
  }

  lemma LessOk(t: Tree, t': Tree, d: NodeId, x: Name, n: NodeId)
    requires Ok(t) && LessStep(t, t', d, x) && Step(t, d, x) == n && n != NullNode
    requires OnlyMoved(t, t', {n}) && n in t'.nodes && t'.nodes[n].parent == NullNode && t'.nodes[n].name == []
    requires forall e, y {:trigger Has(t', e, y)} :: Has(t', e, y) ==> Has(t, e, y) && !(e == d && y == x)
    ensures Ok(t')
  {
    assert ChildOk(t, d, x);
    assert NodeOk(t, n);
    forall m ensures NodeOk(t', m) {
      assert NodeOk(t, m);
      if m in t.nodes && m != n {
        assert SamePlace(t.nodes[m], t'.nodes[m]);
        assert Step(t', t.nodes[m].parent, t.nodes[m].name)
            == if t.nodes[m].parent == d && t.nodes[m].name == x then NullNode else Step(t, t.nodes[m].parent, t.nodes[m].name);
      }
    }
    forall e, y ensures ChildOk(t', e, y) {
      assert ChildOk(t, e, y);
      assert Step(t', e, y) == if e == d && y == x then NullNode else Step(t, e, y);
    }
  }

  lemma DetachStep(t: Tree, a: seq<Name>, x: Name)
    requires Ok(t) && Find(t, t.root, a + [x]) in t.nodes && Find(t, t.root, a + [x]) != NullNode
    ensures var n := Find(t, t.root, a + [x]); var t' := Detached(t, n);
      && Ok(t') && OnlyMoved(t, t', {n}) && Loose(t', n)
      && LessStep(t, t', Find(t, t.root, a), x) && Find(t, t.root, a) != NullNode
  {
    FoundLinks(t, a, x);
    FindAppend(t, t.root, a, x);
    var n, d := Find(t, t.root, a + [x]), Find(t, t.root, a);
    if d == n {
      FindInjective(t, a, a + [x]);
    }
    LessOk(t, Detached(t, n), d, x, n);
  }

  lemma DetachRootOk(t: Tree)
    requires Ok(t) && t.root != NullNode
    ensures var t' := Detached(t, t.root);
      Ok(t') && Loose(t', t.root) && OnlyMoved(t, t', {t.root})
  {
    var t' := Detached(t, t.root);
    assert NodeOk(t, t.root);
    forall m ensures NodeOk(t', m) {
      assert NodeOk(t, m);
    }
    forall d, x ensures ChildOk(t', d, x) {
      assert ChildOk(t, d, x);
    }
  }

  /** Detaching the node at `p` frees that node, moves no other, and leaves every path alone
      that is not `p` or beneath it. */
  lemma DetachOk(t: Tree, p: FilePath)
    requires Ok(t) && At(t, p) != NullNode && At(t, p) in t.nodes
    ensures var n := At(t, p); var t' := Detached(t, n);
      Ok(t') && Loose(t', n) && OnlyMoved(t, t', {n})
    ensures forall q :: !(Components(p) <= Components(q)) ==> At(Detached(t, At(t, p)), q) == At(t, q)
    ensures p != [] ==> Detached(t, At(t, p)).root == t.root
  {
    if p == [] {
      DetachRootOk(t);
    } else {
      var a, x := Components(p)[..|Components(p)| - 1], Components(p)[|Components(p)| - 1];
      assert Components(p) == a + [x];
      DetachStep(t, a, x);
      forall q | !(Components(p) <= Components(q))
        ensures At(Detached(t, At(t, p)), q) == At(t, q)
      {
        LessFind(t, Detached(t, At(t, p)), a, x, Components(q));
      }
    }
  }

  predicate CanAttach(t: Tree, n: NodeId, d: NodeId, name: Name) {
    && n in t.nodes && t.nodes[n].parent == NullNode && t.nodes[n].name == []
    && (n in t.places ==> t.places[n] != Place(d, name))
    && if d == NullNode then name == [] && t.root == NullNode && IsDir(t, n)
       else name != [] && IsDir(t, d) && name !in t.nodes[d].kind.children
  }

  function Attached(t: Tree, n: NodeId, d: NodeId, name: Name): Tree
    requires CanAttach(t, n, d, name)
  {
    var t1 := t.(places := t.places - {n});
    if d == NullNode then t1.(root := n)
    else
      var p := t.nodes[d];
      var nodes1 := t.nodes[d := p.(kind := Dir(p.kind.children[name := n]))];
      t1.(nodes := nodes1[n := nodes1[n].(parent := d, name := name)])
  }

  lemma AttachRootOk(t: Tree, n: NodeId)
    requires Ok(t) && CanAttach(t, n, NullNode, [])
    ensures var t' := Attached(t, n, NullNode, []);
      Ok(t') && OnlyMoved(t, t', {n}) && At(t', []) == n && forall q :: At(t, q) == NullNode
  {
    var t' := Attached(t, n, NullNode, []);
    forall m ensures NodeOk(t', m) {
      assert NodeOk(t, m);
    }
    forall d, x ensures ChildOk(t', d, x) {
      assert ChildOk(t, d, x);
    }
    assert NodeOk(t, NullNode);
    forall q ensures At(t, q) == NullNode {
      NothingBelowNull(t, Components(q));
    }
  }

  lemma MoreOk(t: Tree, t': Tree, d: NodeId, x: Name, n: NodeId)
    requires Ok(t) && Loose(t, n) && n != d && d in t.nodes && x != [] && Step(t, d, x) == NullNode
    requires OnlyMoved(t, t', {n}) && t'.root == t.root
    requires n in t'.nodes && t'.nodes[n].parent == d && t'.nodes[n].name == x
    requires forall e, y {:trigger Step(t', e, y)} :: Step(t', e, y) == if e == d && y == x then n else Step(t, e, y)
    requires forall e, y {:trigger Has(t', e, y)} :: Has(t', e, y) ==> Has(t, e, y) || (e == d && y == x)
    ensures Ok(t')
  {
    forall m ensures NodeOk(t', m) {
      assert NodeOk(t, m);
      assert NodeOk(t, d);
      if m in t.nodes && m != n {
        assert SamePlace(t.nodes[m], t'.nodes[m]);
        assert Step(t', t.nodes[m].parent, t.nodes[m].name)
            == if t.nodes[m].parent == d && t.nodes[m].name == x then n else Step(t, t.nodes[m].parent, t.nodes[m].name);
      }
    }
    forall e, y ensures ChildOk(t', e, y) {
      assert ChildOk(t, e, y) && NodeOk(t, e);
      assert Step(t', e, y) == if e == d && y == x then n else Step(t, e, y);
    }
  }

  lemma AttachStep(t: Tree, n: NodeId, d: NodeId, x: Name)
    requires Ok(t) && Loose(t, n) && CanAttach(t, n, d, x) && d != NullNode && n != d
    ensures var t' := Attached(t, n, d, x);
      Ok(t') && OnlyMoved(t, t', {n}) && MoreSteps(t, t') && Step(t', d, x) == n
  {
    var t' := Attached(t, n, d, x);
    assert NodeOk(t, n);
    assert forall e, y {:trigger Step(t', e, y)} :: Step(t', e, y) == if e == d && y == x then n else Step(t, e, y);
    MoreOk(t, t', d, x, n);
  }

  /** Attaching a loose node puts it at its path, moves no other node, and every path that
      named a node still names it. */
  lemma AttachOk(t: Tree, n: NodeId, a: seq<Name>, x: Name)
    requires Ok(t) && Loose(t, n) && CanAttach(t, n, Find(t, t.root, a), x) && Find(t, t.root, a) != NullNode
    ensures var t' := Attached(t, n, Find(t, t.root, a), x);
      && Ok(t') && OnlyMoved(t, t', {n}) && Find(t', t'.root, a + [x]) == n && t'.root == t.root
    ensures var t' := Attached(t, n, Find(t, t.root, a), x);
      forall q :: At(t, q) != NullNode ==> At(t', q) == At(t, q)
  {
    var d := Find(t, t.root, a);
    var t' := Attached(t, n, d, x);
    if d != t.root {
      assert a == a[..|a| - 1] + [a[|a| - 1]];
      FoundLinks(t, a[..|a| - 1], a[|a| - 1]);
    }
    AttachStep(t, n, d, x);
    assert NodeOk(t, NullNode);
    MoreFind(t, t', t.root, a);
    FindAppend(t', t.root, a, x);
    forall q | At(t, q) != NullNode ensures At(t', q) == At(t, q) {
      MoreFind(t, t', t.root, Components(q));
    }
  }

  function ParentAt(t: Tree, p: FilePath): NodeId {
    var a := Components(p);
    if p == [] then NullNode else Find(t, t.root, a[..|a| - 1])
  }

  function BaseName(p: FilePath): Name {
    var a := Components(p);
    if p == [] then [] else a[|a| - 1]
  }

  lemma AttachAtOk(t: Tree, n: NodeId, p: FilePath)
    requires Normal(p) && Ok(t) && Loose(t, n) && CanAttach(t, n, ParentAt(t, p), BaseName(p))
    ensures var t' := Attached(t, n, ParentAt(t, p), BaseName(p));
      && Ok(t') && OnlyMoved(t, t', {n}) && At(t', p) == n
      && (t'.root == t.root || (t.root == NullNode && t'.root == n && p == []))
    ensures var t' := Attached(t, n, ParentAt(t, p), BaseName(p));
      forall q :: At(t, q) != NullNode ==> At(t', q) == At(t, q)
  {
    if p == [] {
      AttachRootOk(t, n);
    } else {
      var a := Components(p);
      assert a == a[..|a| - 1] + [BaseName(p)];
      assert BaseName(p) in a;
      AttachOk(t, n, a[..|a| - 1], BaseName(p));
    }
  }

  // ---------- creating, dropping and editing ----------

  function Created(t: Tree, kind: Kind): Tree {
    t.(nodes := t.nodes[t.next := Node(NullNode, [], map[], kind)], next := t.next + 1)
  }

  /** A new node has a fresh identity, is loose, and changes no path. */
  lemma CreateOk(t: Tree, kind: Kind)
    requires Ok(t) && (kind.Dir? ==> kind.children == map[])
    ensures var t' := Created(t, kind);
      && Ok(t') && SameSteps(t, t') && Loose(t', t.next) && t.next !in t.nodes
  {
    var t' := Created(t, kind);
    assert NodeOk(t, t.next) && NodeOk(t, t.root);
    forall m ensures NodeOk(t', m) {
      assert NodeOk(t, m);
      if m in t.nodes && t.nodes[m].parent != NullNode {
        assert NodeOk(t, t.nodes[m].parent);
      }
    }
    forall d, x ensures ChildOk(t', d, x) {
      assert ChildOk(t, d, x) && NodeOk(t, Step(t, d, x));
    }
  }

  predicate CanDrop(t: Tree, n: NodeId) {
    && n in t.nodes && t.nodes[n].parent == NullNode && t.nodes[n].name == []
    && (t.nodes[n].kind.Dir? ==> t.nodes[n].kind.children == map[])
  }

  function Dropped(t: Tree, n: NodeId): Tree {
    t.(nodes := t.nodes - {n}, places := t.places - {n})
  }

  /** Dropping an empty loose node changes no path. */
  lemma DropOk(t: Tree, n: NodeId)
    requires Ok(t) && Loose(t, n) && CanDrop(t, n)
    ensures Ok(Dropped(t, n)) && SameSteps(t, Dropped(t, n))
  {
    var t' := Dropped(t, n);
    assert SameSteps(t, t');
    forall m ensures NodeOk(t', m) {
      assert NodeOk(t, m);
    }
    forall d, x ensures ChildOk(t', d, x) {
      assert ChildOk(t, d, x) && NodeOk(t, d);
    }
  }

  function WithNode(t: Tree, n: NodeId, v: Node): Tree {
    t.(nodes := t.nodes[n := v])
  }

  predicate SameChildren(v: Node, w: Node) {
    v.kind.Dir? == w.kind.Dir? && (v.kind.Dir? ==> w.kind == v.kind)
  }

  /** Editing a node in place changes no path. */
  lemma EditOk(t: Tree, n: NodeId, v: Node)
    requires Ok(t) && n in t.nodes && SamePlace(t.nodes[n], v) && SameChildren(t.nodes[n], v)
    ensures Ok(WithNode(t, n, v)) && SameSteps(t, WithNode(t, n, v))
  {
    var t' := WithNode(t, n, v);
    assert SameSteps(t, t');
    forall m ensures NodeOk(t', m) {
      assert NodeOk(t, m);
    }
    forall d, x ensures ChildOk(t', d, x) {
      assert ChildOk(t, d, x);
    }
  }

  predicate CanPatch(t: Tree, n: NodeId, before: FileId, after: FileId) {
    n in t.nodes && t.nodes[n].kind == File(before) && before != after
  }

  function Patched(t: Tree, n: NodeId, after: FileId): Tree
    requires n in t.nodes
  {
    WithNode(t, n, t.nodes[n].(kind := File(after)))
  }

  /** An attribute that was never set counts as cleared. */
  function AttrOf(t: Tree, n: NodeId, k: AttrKey): Attr {
    if n in t.nodes && k in t.nodes[n].attrs then t.nodes[n].attrs[k] else (false, [])
  }

  function AttrSet(t: Tree, n: NodeId, k: AttrKey, v: Attr): Tree
    requires n in t.nodes
  {
    WithNode(t, n, t.nodes[n].(attrs := t.nodes[n].attrs[k := v]))
  }

  // ---------- the operations in place ----------

  class Roster {
    var nodes: map<NodeId, Node>
    var root: NodeId
    var places: map<NodeId, Place>
    var next: NodeId

    function Snap(): Tree
      reads this
    {
      Tree(nodes, root, places, next)
    }

    /** Walks down from the root; `NullNode` stands for the failed lookup. */
    method GetNode(p: FilePath) returns (n: NodeId)
      requires Ok(Snap())
      ensures n == At(Snap(), p)
    {
      assert NodeOk(Snap(), NullNode);
      if root == NullNode {
        NothingBelowNull(Snap(), Components(p));
        return NullNode;
      }
      if p == [] {
        return root;
      }
      var start, nd := 0, root;
      assert p[0..] == p;
      while true
        invariant 0 <= start <= |p| && Find(Snap(), nd, Split(p[start..])) == At(Snap(), p)
        decreases |p| - start
      {
        var stop := NextSep(p, start);
        var name := p[start..stop];
        ghost var rest := Split(p[start..]);
        assert Find(Snap(), nd, rest) == Find(Snap(), Step(Snap(), nd, name), rest[1..]);
        if !(nd in nodes && nodes[nd].kind.Dir? && name in nodes[nd].kind.children) {
          NothingBelowNull(Snap(), rest[1..]);
          return NullNode;
        }
        var child := nodes[nd].kind.children[name];
        if stop == |p| {
          return child;
        }
        start := stop + 1;
        nd := child;
      }
    }

    method DetachNode(p: FilePath) returns (ok: bool, n: NodeId)
      requires Ok(Snap()) && Normal(p)
      modifies this
      ensures ok == CanDetach(old(Snap()), p)
      ensures ok ==> n == At(old(Snap()), p) && n in old(nodes) && Snap() == Detached(old(Snap()), n)
    {
      ghost var t := Snap();
      AtInside(t, p);
      n := NullNode;
      var dir, base := DirnameBasename(p);
      if root == NullNode {
        assert NodeOk(t, NullNode);
        NothingBelowNull(t, Components(p));
        return false, n;
      }
      if base == [] {
        n := root;
        if n in places {
          return false, n;
        }
        places := places[n := Place(nodes[n].parent, nodes[n].name)];
        root := NullNode;
        return true, n;
      }
      var d := GetNode(dir);
      FindAppend(t, root, Components(dir), base);
      if !(d in nodes && nodes[d].kind.Dir? && base in nodes[d].kind.children) {
        return false, n;
      }
      n := nodes[d].kind.children[base];
      assert ChildOk(t, d, base) && NodeOk(t, n);
      FoundLinks(t, Components(dir), base);
      if n in places {
        return false, n;
      }
      var c := nodes[n];
      nodes := nodes[d := nodes[d].(kind := Dir(nodes[d].kind.children - {base}))];
      nodes := nodes[n := c.(parent := NullNode, name := [])];
      places := places[n := Place(d, base)];
      return true, n;
    }

    method AttachNode(n: NodeId, p: FilePath) returns (ok: bool)
      requires Ok(Snap()) && Normal(p)
      modifies this
      ensures ok == CanAttach(old(Snap()), n, ParentAt(old(Snap()), p), BaseName(p))
      ensures ok ==> Snap() == Attached(old(Snap()), n, ParentAt(old(Snap()), p), BaseName(p))
    {
      var d, base := NullNode, [];
      if p != [] {
        var dir;
        dir, base := DirnameBasename(p);
        d := GetNode(dir);
        assert Components(p)[..|Components(p)| - 1] == Components(dir);
        if d == NullNode {
          return false;
        }
      }
      if !(n in nodes && nodes[n].parent == NullNode && nodes[n].name == []) {
        return false;
      }
      if n in places && places[n] == Place(d, base) {
        return false;
      }
      if d == NullNode {
        if root != NullNode || !nodes[n].kind.Dir? {
          return false;
        }
        root := n;
      } else {
        if !(d in nodes && nodes[d].kind.Dir? && base !in nodes[d].kind.children) {
          return false;
        }
        nodes := nodes[d := nodes[d].(kind := Dir(nodes[d].kind.children[base := n]))];
        nodes := nodes[n := nodes[n].(parent := d, name := base)];
      }
      places := places - {n};
      return true;
    }

    method DropDetachedNode(n: NodeId) returns (ok: bool)
      modifies this
      ensures ok == CanDrop(old(Snap()), n)
      ensures ok ==> Snap() == Dropped(old(Snap()), n)
    {
      if !(n in nodes && nodes[n].parent == NullNode && nodes[n].name == []) {
        return false;
      }
      if nodes[n].kind.Dir? && nodes[n].kind.children != map[] {
        return false;
      }
      nodes := nodes - {n};
      places := places - {n};
      return true;
    }

    method CreateDirNode() returns (n: NodeId)
      modifies this
      ensures n == old(next) && Snap() == Created(old(Snap()), Dir(map[]))
    {
      n := next;
      next := next + 1;
      nodes := nodes[n := Node(NullNode, [], map[], Dir(map[]))];
    }

    method CreateFileNode(content: FileId) returns (n: NodeId)
      modifies this
      ensures n == old(next) && Snap() == Created(old(Snap()), File(content))
    {
      n := next;
      next := next + 1;
      nodes := nodes[n := Node(NullNode, [], map[], File(content))];
    }

    method ApplyDelta(p: FilePath, before: FileId, after: FileId) returns (ok: bool)
      requires Ok(Snap())
      modifies this
      ensures ok == CanPatch(old(Snap()), At(old(Snap()), p), before, after)
      ensures ok ==> Snap() == Patched(old(Snap()), At(old(Snap()), p), after)
    {
      assert NodeOk(Snap(), NullNode);
      var n := GetNode(p);
      if n !in nodes || nodes[n].kind.Dir? || nodes[n].kind.content != before || nodes[n].kind.content == after {
        return false;
      }
      nodes := nodes[n := nodes[n].(kind := File(after))];
      return true;
    }

    /** `set_attr` and `clear_attr`: the new value must differ, an unset attribute being a cleared one. */
    method SetAttr(p: FilePath, k: AttrKey, v: Attr) returns (ok: bool)
      requires Ok(Snap()) && (v.0 || v.1 == [])
      modifies this
      ensures ok == (At(old(Snap()), p) in old(nodes) && AttrOf(old(Snap()), At(old(Snap()), p), k) != v)
      ensures ok ==> Snap() == AttrSet(old(Snap()), At(old(Snap()), p), k, v)
    {
      var n := GetNode(p);
      if n !in nodes {
        return false;
      }
      var attrs := nodes[n].attrs;
      if k !in attrs {
        attrs := attrs[k := (false, [])];
      }
      if attrs[k] == v {
        return false;
      }
      attrs := attrs[k := v];
      nodes := nodes[n := nodes[n].(attrs := attrs)];
      assert attrs == old(nodes)[n].attrs[k := v];
      return true;
    }
  }
}
