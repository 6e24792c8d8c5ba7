/** The shared memory under the copy-on-write tries: reference-counted nodes, and the places
    that hold a pointer to a node.  Pointer 0 is the empty shared pointer. */
module TrieMemory {

  type Ref = nat
  type Value = nat

  /** The value that stands for "no entry". */
  const Empty: Value := 0

  type Positive = n: nat | n >= 1 witness 1

  /** Slots per node (1 << _Bits) and number of levels: any instance of the template. */
  const W: Positive
  const L: Positive

  /** Level 0 is a leaf with W values, any other level a middle node with W pointers. */
  datatype Node = Node(level: nat, kids: seq<Ref>, vals: seq<Value>)

  /** A place holding a pointer: a trie's root, a frame of an iterator's stack, or a slot of
      a middle node. */
  datatype Loc = Trie(t: nat) | Frame(it: nat, k: nat) | Slot(r: Ref, i: nat)

  /** `ext` holds the pointers of the tries and iterators. */
  datatype State = State(node: map<Ref, Node>, count: map<Ref, nat>, ext: map<Loc, Ref>)

  ghost predicate NodeOk(node: map<Ref, Node>, r: Ref)
    requires r in node
  {
    var nd := node[r];
    if nd.level == 0 then
      nd.kids == [] && |nd.vals| == W
    else
      && |nd.kids| == W && nd.vals == []
      && forall i :: 0 <= i < W ==> IsPtr(node, nd.kids[i], nd.level - 1)
  }

  ghost predicate IsPtr(node: map<Ref, Node>, p: Ref, level: nat) {
    p == 0 || (p in node && node[p].level == level)
  }

  ghost predicate LocOk(s: State, l: Loc)
    requires l in s.ext
  {
    match l
    case Trie(_) => IsPtr(s.node, s.ext[l], L - 1)
    case Frame(_, k) => k < L && s.ext[l] != 0 && IsPtr(s.node, s.ext[l], L - 1 - k)
    case Slot(_, _) => false
  }

  ghost predicate NodesOk(node: map<Ref, Node>) {
    0 !in node && forall r {:trigger NodeOk(node, r)} :: r in node ==> NodeOk(node, r)
  }

  ghost predicate WellFormed(s: State) {
    && NodesOk(s.node) && s.node.Keys == s.count.Keys
    && forall l {:trigger LocOk(s, l)} :: l in s.ext ==> LocOk(s, l)
  }

  // ---------- pointers and counts ----------

  ghost predicate ValidLoc(s: State, l: Loc) {
    if l.Slot? then l.r in s.node && l.i < |s.node[l.r].kids| else l in s.ext
  }

  ghost function Load(s: State, l: Loc): Ref
    requires ValidLoc(s, l)
  {
    if l.Slot? then s.node[l.r].kids[l.i] else s.ext[l]
  }

  ghost function Locs(s: State): set<Loc> {
    (set l | l in s.ext && !l.Slot?) + (set r, i | r in s.node && 0 <= i < |s.node[r].kids| :: Slot(r, i))
  }

  ghost function PtrsTo(s: State, r: Ref): set<Loc> {
    set l | l in Locs(s) && ValidLoc(s, l) && Load(s, l) == r
  }

  lemma InPtrsTo(s: State, r: Ref, l: Loc)
    ensures l in PtrsTo(s, r) <==> ValidLoc(s, l) && Load(s, l) == r
  {
  }

  /** Every count is the number of pointers to the node, plus the references a running
      operation has taken out of their places and still has to give up. */
  ghost predicate CountsOk(s: State, debt: multiset<Ref>)
    requires s.node.Keys == s.count.Keys
  {
    forall r {:trigger PtrsTo(s, r)} :: r in s.node ==> s.count[r] == |PtrsTo(s, r)| + debt[r]
  }

  ghost function Store(s: State, l: Loc, x: Ref): State
    requires ValidLoc(s, l)
  {
    if l.Slot? then
      s.(node := s.node[l.r := s.node[l.r].(kids := s.node[l.r].kids[l.i := x])])
    else
      s.(ext := s.ext[l := x])
  }

  lemma StorePtrs(s: State, l: Loc, x: Ref, r: Ref)
    requires ValidLoc(s, l)
    ensures PtrsTo(Store(s, l, x), r) == PtrsTo(s, r) - {l} + if x == r then {l} else {}
    ensures l in PtrsTo(s, r) <==> Load(s, l) == r
  {
    var s' := Store(s, l, x);
    forall m ensures m in PtrsTo(s', r) <==> (m != l && m in PtrsTo(s, r)) || (m == l && x == r) {
      InPtrsTo(s, r, m);
      InPtrsTo(s', r, m);
    }
    InPtrsTo(s, r, l);
  }

  ghost function SlotsOf(n: Ref, kids: seq<Ref>, r: Ref): set<Loc> {
    set i | 0 <= i < |kids| && kids[i] == r :: Slot(n, i)
  }

  lemma {:induction false} SlotsSize(n: Ref, kids: seq<Ref>, r: Ref)
    ensures |SlotsOf(n, kids, r)| == multiset(kids)[r]
    decreases |kids|
  {
    if kids != [] {
      var k := |kids| - 1;
      SlotsSize(n, kids[..k], r);
      assert kids == kids[..k] + [kids[k]];
      assert SlotsOf(n, kids, r) == SlotsOf(n, kids[..k], r) + if kids[k] == r then {Slot(n, k)} else {};
    }
  }

  /** A new node adds its own slots to the pointers; nothing points to it yet. */
  lemma AddPtrs(s: State, s': State, n: Ref, nd: Node, r: Ref)
    requires n !in s.node && s'.node == s.node[n := nd] && s'.ext == s.ext
    ensures PtrsTo(s', r) == PtrsTo(s, r) + SlotsOf(n, nd.kids, r)
    ensures |PtrsTo(s', r)| == |PtrsTo(s, r)| + multiset(nd.kids)[r]
  {
    forall m ensures m in PtrsTo(s', r) <==> m in PtrsTo(s, r) || m in SlotsOf(n, nd.kids, r) {
      InPtrsTo(s, r, m);
      InPtrsTo(s', r, m);
    }
    assert PtrsTo(s, r) !! SlotsOf(n, nd.kids, r) by {
      forall m | m in SlotsOf(n, nd.kids, r) ensures m !in PtrsTo(s, r) {
        InPtrsTo(s, r, m);
      }
    }
    SlotsSize(n, nd.kids, r);
  }

  ghost function ExtLevel(l: Loc): nat {
    if l.Frame? && l.k < L then L - 1 - l.k else L - 1
  }

  /** The level of the nodes a place may point to. */
  ghost function LocLevel(s: State, l: Loc): nat
    requires ValidLoc(s, l)
  {
    if l.Slot? then (if s.node[l.r].level > 0 then s.node[l.r].level - 1 else 0) else ExtLevel(l)
  }

  /** What a place points to exists and has the level of the place. */
  lemma LoadOk(s: State, l: Loc)
    requires WellFormed(s) && ValidLoc(s, l)
    ensures IsPtr(s.node, Load(s, l), LocLevel(s, l))
    ensures l.Slot? ==> |s.node[l.r].kids| == W && s.node[l.r].level == LocLevel(s, l) + 1
  {
    if l.Slot? {
      assert NodeOk(s.node, l.r);
    } else {
      assert LocOk(s, l);
    }
  }

  lemma NoPtrsToFresh(s: State, n: Ref)
    requires WellFormed(s) && n !in s.node && n != 0
    ensures PtrsTo(s, n) == {}
  {
    forall m ensures m !in PtrsTo(s, n) {
      InPtrsTo(s, n, m);
      if ValidLoc(s, m) {
        LoadOk(s, m);
      }
    }
  }

  /** `l` is the only place pointing to `r`. */
  ghost predicate Sole(s: State, r: Ref, l: Loc) {
    PtrsTo(s, r) == {l}
  }

  lemma UniqueIsSole(s: State, r: Ref, l: Loc)
    requires s.node.Keys == s.count.Keys && CountsOk(s, multiset{})
    requires r in s.node && s.count[r] == 1 && ValidLoc(s, l) && Load(s, l) == r
    ensures Sole(s, r, l)
  {
    InPtrsTo(s, r, l);
    assert |PtrsTo(s, r)| == 1;
    assert |PtrsTo(s, r) - {l}| == 0;
  }
}
