/** What the operations on one trie do to everybody else who shares nodes with it, and the
    release of nodes nobody points to any more. */
module TrieIsolation {
  import opened TrieMemory
  import opened TrieView
  import opened TrieWalk

  /** The pointer at `m` is the same, the node it points to is the same, and every lookup
      through it gives the same value. */
  ghost predicate SameAt(s: State, s': State, m: Loc)
    requires m in s.ext
  {
    && m in s'.ext && s'.ext[m] == s.ext[m]
    && (s.ext[m] in s.node ==> s.ext[m] in s'.node && s'.node[s.ext[m]] == s.node[s.ext[m]])
    && forall e {:trigger Lookup(s'.node, s.ext[m], e)} ::
         |e| == ExtLevel(m) + 1 ==> Lookup(s'.node, s.ext[m], e) == Lookup(s.node, s.ext[m], e)
  }

  /** Everything outside the tries and iterators in `mine` sees no change. */
  ghost predicate OthersSame(s: State, s': State, mine: set<Loc>) {
    forall m {:trigger SameAt(s, s', m)} :: m in s.ext && m !in mine ==> m in s'.ext && SameAt(s, s', m)
  }

  lemma OthersTransitive(s: State, s1: State, s2: State, mine: set<Loc>)
    requires OthersSame(s, s1, mine) && OthersSame(s1, s2, mine)
    ensures OthersSame(s, s2, mine)
  {
    forall m | m in s.ext && m !in mine ensures m in s2.ext && SameAt(s, s2, m) {
      assert SameAt(s, s1, m);
      assert SameAt(s1, s2, m);
      forall e | |e| == ExtLevel(m) + 1 ensures Lookup(s2.node, s.ext[m], e) == Lookup(s.node, s.ext[m], e) {
        assert Lookup(s1.node, s.ext[m], e) == Lookup(s.node, s.ext[m], e);
      }
    }
  }

  /** A state that differs from `s` only on a path owned in `s'` looks the same from
      anywhere else. */
  lemma PathIsPrivate(s: State, s': State, l: Loc, d: Digits, m: Loc)
    requires WellFormed(s) && WellFormed(s') && PathOwned(s', l, d) && !l.Slot?
    requires s.node.Keys <= s'.node.Keys
    requires forall q {:trigger s'.node[q]} :: q in s.node && q !in OnPath(s', l, d) ==> s'.node[q] == s.node[q]
    requires m in s.ext && m in s'.ext && m != l && s'.ext[m] == s.ext[m]
    ensures SameAt(s, s', m)
  {
    var p := s.ext[m];
    assert LocOk(s, m) && LocOk(s', m);
    if p in OnPath(s', l, d) {
      PathIsClosed(s', l, d, p, m);
    }
    forall e | |e| == ExtLevel(m) + 1 ensures Lookup(s'.node, p, e) == Lookup(s.node, p, e) {
      Isolated(s', s.node, l, d, p, e);
    }
  }

  lemma WalkIsPrivate(s: State, s': State, l: Loc, d: Digits)
    requires WellFormed(s) && Walked(s, s', l, d) && !l.Slot? && LocLevel(s, l) == L - 1 == |d| - 1
    ensures OthersSame(s, s', {l})
  {
    forall q | q in s.node && q !in OnPath(s', l, d) ensures s'.node[q] == s.node[q] {
      if s.node[q].level >= |d| {
        assert s'.node[q] == Store(s, l, Load(s', l)).node[q];
      }
    }
    forall m | m in s.ext && m !in {l} ensures SameAt(s, s', m) {
      PathIsPrivate(s, s', l, d, m);
    }
  }

  // ---------- writing the leaf ----------

  ghost function Written(s: State, l: Loc, d: Digits, v: Value): State
    requires PathOwned(s, l, d) && d[|d| - 1] < |s.node[PathEnd(s, l, d)].vals|
  {
    var leaf := PathEnd(s, l, d);
    s.(node := s.node[leaf := s.node[leaf].(vals := s.node[leaf].vals[d[|d| - 1] := v])])
  }

  lemma LeafWidth(s: State, l: Loc, d: Digits)
    requires WellFormed(s) && PathOwned(s, l, d)
    ensures |s.node[PathEnd(s, l, d)].vals| == W
  {
    assert NodeOk(s.node, PathEnd(s, l, d));
  }

  lemma WrittenOk(s: State, l: Loc, d: Digits, v: Value)
    requires WellFormed(s) && CountsOk(s, multiset{}) && PathOwned(s, l, d) && !l.Slot?
    requires d[|d| - 1] < |s.node[PathEnd(s, l, d)].vals|
    ensures var s' := Written(s, l, d, v);
            && WellFormed(s') && CountsOk(s', multiset{}) && s'.ext == s.ext
            && OthersSame(s, s', {l})
            && (forall e {:trigger Lookup(s'.node, s'.ext[l], e)} :: |e| == |d| ==>
                  Lookup(s'.node, s'.ext[l], e) == if e == d then v else Lookup(s.node, s.ext[l], e))
  {
    var s' := Written(s, l, d, v);
    var leaf := PathEnd(s, l, d);
    WrittenShape(s, s', leaf);
    WrittenPrivate(s, s', l, d, leaf);
    LeafWidth(s, l, d);
    forall e | |e| == |d| ensures Lookup(s'.node, s'.ext[l], e) == if e == d then v else Lookup(s.node, s.ext[l], e) {
      WriteEffect(s, s'.node, l, d, v, e);
    }
  }

  lemma WrittenShape(s: State, s': State, leaf: Ref)
    requires WellFormed(s) && CountsOk(s, multiset{}) && leaf in s.node && s.node[leaf].level == 0
    requires s'.node.Keys == s.node.Keys && s'.count == s.count && s'.ext == s.ext
    requires forall q {:trigger s'.node[q]} :: q in s.node && q != leaf ==> s'.node[q] == s.node[q]
    requires s'.node[leaf] == s.node[leaf].(vals := s'.node[leaf].vals) && |s'.node[leaf].vals| == |s.node[leaf].vals|
    ensures WellFormed(s') && CountsOk(s', multiset{})
    ensures forall r {:trigger PtrsTo(s', r)} :: PtrsTo(s', r) == PtrsTo(s, r)
  {
    forall r | r in s'.node ensures NodeOk(s'.node, r) {
      assert NodeOk(s.node, r);
      forall i | 0 <= i < |s'.node[r].kids| ensures IsPtr(s'.node, s'.node[r].kids[i], s'.node[r].level - 1) {
        assert IsPtr(s.node, s.node[r].kids[i], s.node[r].level - 1);
      }
    }
    forall m | m in s'.ext ensures LocOk(s', m) {
      assert LocOk(s, m);
    }
    forall r ensures PtrsTo(s', r) == PtrsTo(s, r) {
      forall m ensures m in PtrsTo(s', r) <==> m in PtrsTo(s, r) {
        InPtrsTo(s, r, m);
        InPtrsTo(s', r, m);
      }
    }
    forall r | r in s'.node ensures s'.count[r] == |PtrsTo(s', r)| {
      assert s.count[r] == |PtrsTo(s, r)|;
    }
  }

  lemma WrittenPrivate(s: State, s': State, l: Loc, d: Digits, leaf: Ref)
    requires WellFormed(s) && WellFormed(s') && PathOwned(s, l, d) && !l.Slot? && leaf == PathEnd(s, l, d)
    requires s'.node.Keys == s.node.Keys && s'.ext == s.ext
    requires forall q {:trigger s'.node[q]} :: q in s.node && q != leaf ==> s'.node[q] == s.node[q]
    ensures OthersSame(s, s', {l})
  {
    PathEndOk(s, l, d);
    forall m | m in s.ext && m !in {l} ensures SameAt(s, s', m) {
      PathIsPrivate(s', s, l, d, m);
      assert SameAt(s', s, m);
      assert LocOk(s, m);
      forall e | |e| == ExtLevel(m) + 1 ensures Lookup(s'.node, s.ext[m], e) == Lookup(s.node, s.ext[m], e) {
        assert Lookup(s.node, s'.ext[m], e) == Lookup(s'.node, s'.ext[m], e);
      }
    }
  }

  // ---------- releasing ----------

  lemma {:induction false} SubLookup(node: map<Ref, Node>, node': map<Ref, Node>, r: Ref, d: Digits)
    requires NodesOk(node') && 0 !in node && |d| > 0 && IsPtr(node', r, |d| - 1)
    requires forall q {:trigger node'[q]} :: q in node' ==> q in node && node[q] == node'[q]
    ensures Lookup(node', r, d) == Lookup(node, r, d)
    decreases |d|
  {
    if r != 0 {
      assert NodeOk(node', r);
      if |d| > 1 && d[0] < W {
        assert IsPtr(node', node'[r].kids[d[0]], |d| - 2);
        SubLookup(node, node', node'[r].kids[d[0]], d[1..]);
      }
    }
  }

  /** `s'` is `s` with some nodes freed. */
  ghost predicate Freed(s: State, s': State) {
    && s'.ext == s.ext
    && forall q {:trigger s'.node[q]} :: q in s'.node ==> q in s.node && s'.node[q] == s.node[q]
  }

  lemma FreedSame(s: State, s': State)
    requires WellFormed(s) && WellFormed(s') && Freed(s, s')
    ensures OthersSame(s, s', {})
  {
    forall m | m in s.ext ensures SameAt(s, s', m) {
      assert LocOk(s', m) && LocOk(s, m);
      forall e | |e| == ExtLevel(m) + 1 ensures Lookup(s'.node, s.ext[m], e) == Lookup(s.node, s.ext[m], e) {
        SubLookup(s.node, s'.node, s.ext[m], e);
      }
    }
  }

  ghost function Removed(s: State, r: Ref): State {
    State(s.node - {r}, s.count - {r}, s.ext)
  }

  /** The last reference to `r` is given up: its node goes, its own pointers become debt. */
  lemma RemovedOk(s: State, r: Ref, debt: multiset<Ref>)
    requires WellFormed(s) && r in s.node && CountsOk(s, debt + multiset{r}) && s.count[r] == 1
    ensures WellFormed(Removed(s, r)) && CountsOk(Removed(s, r), debt + multiset(s.node[r].kids))
    ensures debt[r] == 0 && r !in s.node[r].kids && Freed(s, Removed(s, r))
  {
    var s' := Removed(s, r);
    assert s.count[r] == |PtrsTo(s, r)| + (debt + multiset{r})[r];
    assert PtrsTo(s, r) == {};
    RemovedWellFormed(s, r);
    forall x | x in s'.node ensures s'.count[x] == |PtrsTo(s', x)| + (debt + multiset(s.node[r].kids))[x] {
      assert s.count[x] == |PtrsTo(s, x)| + (debt + multiset{r})[x];
      assert s.node == s'.node[r := s.node[r]];
      AddPtrs(s', s, r, s.node[r], x);
    }
    KidIsLower(s, r, r);
  }

  lemma RemovedWellFormed(s: State, r: Ref)
    requires WellFormed(s) && r in s.node && PtrsTo(s, r) == {}
    ensures WellFormed(Removed(s, r))
  {
    var s' := Removed(s, r);
    forall q | q in s'.node ensures NodeOk(s'.node, q) {
      assert NodeOk(s.node, q);
      forall i | 0 <= i < |s.node[q].kids| ensures IsPtr(s'.node, s.node[q].kids[i], s.node[q].level - 1) {
        assert IsPtr(s.node, s.node[q].kids[i], s.node[q].level - 1);
        InPtrsTo(s, r, Slot(q, i));
      }
    }
    forall m | m in s'.ext ensures LocOk(s', m) {
      assert LocOk(s, m);
      InPtrsTo(s, r, m);
    }
  }

  /** Giving up one of several references. */
  lemma DecrementOk(s: State, r: Ref, debt: multiset<Ref>)
    requires WellFormed(s) && r in s.node && CountsOk(s, debt + multiset{r}) && s.count[r] > 1
    ensures var s' := s.(count := s.count[r := s.count[r] - 1]);
            WellFormed(s') && CountsOk(s', debt) && Freed(s, s')
  {
    var s' := s.(count := s.count[r := s.count[r] - 1]);
    CountOnly(s, s');
    forall x | x in s'.node ensures s'.count[x] == |PtrsTo(s', x)| + debt[x] {
      assert s.count[x] == |PtrsTo(s, x)| + (debt + multiset{r})[x];
    }
  }

  lemma CountOnly(s: State, s': State)
    requires s'.node == s.node && s'.ext == s.ext && s'.count.Keys == s.count.Keys
    ensures WellFormed(s) ==> WellFormed(s')
    ensures forall r {:trigger PtrsTo(s', r)} :: PtrsTo(s', r) == PtrsTo(s, r)
  {
    if WellFormed(s) {
      forall m | m in s'.ext ensures LocOk(s', m) {
        assert LocOk(s, m);
      }
    }
    forall r ensures PtrsTo(s', r) == PtrsTo(s, r) {
      forall m ensures m in PtrsTo(s', r) <==> m in PtrsTo(s, r) {
        InPtrsTo(s, r, m);
        InPtrsTo(s', r, m);
      }
    }
  }

  // ---------- pointers of tries and iterators ----------

  /** A new place pointing to `r`. */
  ghost function Shared(s: State, l: Loc, r: Ref): State {
    State(s.node, if r in s.count then s.count[r := s.count[r] + 1] else s.count, s.ext[l := r])
  }

  lemma SharedOk(s: State, l: Loc, r: Ref)
    requires WellFormed(s) && CountsOk(s, multiset{}) && l !in s.ext
    requires !l.Slot? && IsPtr(s.node, r, ExtLevel(l)) && (l.Frame? ==> l.k < L && r != 0)
    ensures WellFormed(Shared(s, l, r)) && CountsOk(Shared(s, l, r), multiset{})
    ensures OthersSame(s, Shared(s, l, r), {})
  {
    var s' := Shared(s, l, r);
    forall m | m in s'.ext ensures LocOk(s', m) {
      if m != l {
        assert LocOk(s, m);
      }
    }
    forall x | x in s'.node ensures s'.count[x] == |PtrsTo(s', x)| {
      assert s.count[x] == |PtrsTo(s, x)|;
      ExtAdded(s, s', l, x);
    }
    forall m | m in s.ext ensures SameAt(s, s', m) {
    }
  }

  lemma ExtAdded(s: State, s': State, l: Loc, x: Ref)
    requires l !in s.ext && !l.Slot? && l in s'.ext && s'.node == s.node && s'.ext == s.ext[l := s'.ext[l]]
    ensures PtrsTo(s', x) == PtrsTo(s, x) + (if s'.ext[l] == x then {l} else {})
    ensures l !in PtrsTo(s, x)
  {
    forall m ensures m in PtrsTo(s', x) <==> m in PtrsTo(s, x) || (m == l && s'.ext[l] == x) {
      InPtrsTo(s, x, m);
      InPtrsTo(s', x, m);
    }
    InPtrsTo(s, x, l);
  }

  /** A place is taken away; its reference is still to be given up. */
  ghost function Unplaced(s: State, l: Loc): State {
    s.(ext := s.ext - {l})
  }

  lemma UnplacedOk(s: State, l: Loc)
    requires WellFormed(s) && CountsOk(s, multiset{}) && l in s.ext
    ensures WellFormed(Unplaced(s, l)) && CountsOk(Unplaced(s, l), multiset{s.ext[l]})
    ensures OthersSame(s, Unplaced(s, l), {l})
  {
    var s' := Unplaced(s, l);
    assert LocOk(s, l);
    forall m | m in s'.ext ensures LocOk(s', m) {
      assert LocOk(s, m);
    }
    assert s.ext == s'.ext[l := s.ext[l]];
    forall x | x in s'.node ensures s'.count[x] == |PtrsTo(s', x)| + multiset{s.ext[l]}[x] {
      assert s.count[x] == |PtrsTo(s, x)|;
      ExtAdded(s', s, l, x);
    }
    forall m | m in s.ext && m !in {l} ensures m in s'.ext && SameAt(s, s', m) {
    }
  }

  /** A trie is made empty; the reference to its root is still to be given up. */
  lemma ClearedOk(s: State, l: Loc)
    requires WellFormed(s) && CountsOk(s, multiset{}) && l in s.ext && l.Trie?
    ensures WellFormed(Store(s, l, 0)) && CountsOk(Store(s, l, 0), multiset{s.ext[l]})
    ensures OthersSame(s, Store(s, l, 0), {l})
  {
    var s' := Store(s, l, 0);
    forall m | m in s'.ext ensures LocOk(s', m) {
      assert LocOk(s, m);
    }
    forall x | x in s'.node ensures s'.count[x] == |PtrsTo(s', x)| + multiset{s.ext[l]}[x] {
      assert s.count[x] == |PtrsTo(s, x)|;
      StorePtrs(s, l, 0, x);
    }
    forall m | m in s.ext && m !in {l} ensures m in s'.ext && SameAt(s, s', m) {
    }
  }

  lemma ChangesCompose(s: State, s1: State, s2: State, mine1: set<Loc>, mine2: set<Loc>)
    requires OthersSame(s, s1, mine1) && OthersSame(s1, s2, mine2)
    ensures OthersSame(s, s2, mine1 + mine2)
  {
    var mine := mine1 + mine2;
    OthersWeaken(s, s1, mine1, mine);
    OthersWeaken(s1, s2, mine2, mine);
    OthersTransitive(s, s1, s2, mine);
  }

  lemma OthersWeaken(s: State, s': State, mine: set<Loc>, more: set<Loc>)
    requires OthersSame(s, s', mine) && mine <= more
    ensures OthersSame(s, s', more)
  {
  }
}
