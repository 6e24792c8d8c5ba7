/** The two repairs the non-const `walk` makes at each level: fill an empty place with a blank
    node, replace a shared node by a private copy. */
module TrieWalk {
  import opened TrieMemory
  import opened TrieView

  function Blank(level: nat): Node {
    if level == 0 then Node(0, [], seq(W, _ => Empty)) else Node(level, seq(W, _ => 0), [])
  }

  /** One more reference for every non-empty pointer in `kids`. */
  function Bump(count: map<Ref, nat>, kids: seq<Ref>): map<Ref, nat> {
    map r | r in count :: count[r] + multiset(kids)[r]
  }

  ghost function Filled(s: State, l: Loc, n: Ref, level: nat): State
    requires ValidLoc(s, l) && n !in s.node
  {
    Store(State(s.node[n := Blank(level)], s.count[n := 1], s.ext), l, n)
  }

  ghost function Copied(s: State, l: Loc, n: Ref): State
    requires ValidLoc(s, l) && n !in s.node && Load(s, l) in s.node && s.node.Keys == s.count.Keys
    requires s.count[Load(s, l)] > 0
  {
    var r := Load(s, l);
    Store(State(s.node[n := s.node[r]], Bump(s.count, s.node[r].kids)[r := s.count[r] - 1][n := 1], s.ext), l, n)
  }

  /** `s'` is `s` with the place `l` pointing to the solely owned node `n`, everything below
      `l` looking the same and everything else untouched. */
  ghost predicate Repaired(s: State, s': State, l: Loc, n: Ref)
    requires ValidLoc(s, l)
  {
    && WellFormed(s') && CountsOk(s', multiset{})
    && ValidLoc(s', l) && Load(s', l) == n && n in s'.node && Sole(s', n, l)
    && s.node.Keys <= s'.node.Keys
    && s'.ext == Store(s, l, n).ext
    && (forall q {:trigger s'.node[q]} :: q in s.node ==> s'.node[q] == Store(s, l, n).node[q])
  }

  lemma AddWellFormed(s: State, n: Ref, nd: Node, count: map<Ref, nat>)
    requires WellFormed(s) && n !in s.node && n != 0 && count.Keys == s.node.Keys + {n}
    requires if nd.level == 0 then nd.kids == [] && |nd.vals| == W
             else |nd.kids| == W && nd.vals == [] && forall i :: 0 <= i < W ==> IsPtr(s.node, nd.kids[i], nd.level - 1)
    ensures WellFormed(State(s.node[n := nd], count, s.ext))
  {
    var s' := State(s.node[n := nd], count, s.ext);
    forall r | r in s'.node ensures NodeOk(s'.node, r) {
      if r != n {
        assert NodeOk(s.node, r);
        forall i | 0 <= i < |s.node[r].kids| ensures IsPtr(s'.node, s.node[r].kids[i], s.node[r].level - 1) {
          assert IsPtr(s.node, s.node[r].kids[i], s.node[r].level - 1);
        }
      }
    }
    forall l | l in s'.ext ensures LocOk(s', l) {
      assert LocOk(s, l);
    }
  }

  lemma StoreWellFormed(s: State, l: Loc, x: Ref)
    requires WellFormed(s) && ValidLoc(s, l) && x in s.node && s.node[x].level == LocLevel(s, l)
    ensures WellFormed(Store(s, l, x)) && ValidLoc(Store(s, l, x), l) && Load(Store(s, l, x), l) == x
  {
    var s' := Store(s, l, x);
    forall r | r in s'.node ensures NodeOk(s'.node, r) {
      assert NodeOk(s.node, r);
      forall i | 0 <= i < |s'.node[r].kids| ensures IsPtr(s'.node, s'.node[r].kids[i], s'.node[r].level - 1) {
        assert IsPtr(s.node, s.node[r].kids[i], s.node[r].level - 1);
      }
    }
    forall m | m in s'.ext ensures LocOk(s', m) {
      assert LocOk(s, m);
    }
  }

  /** Adding `n` and then storing it at `l` makes `l` the one place that points to it. */
  lemma NewIsSole(s: State, l: Loc, n: Ref, nd: Node, count: map<Ref, nat>)
    requires WellFormed(s) && ValidLoc(s, l) && n !in s.node && n != 0 && n !in nd.kids
    ensures PtrsTo(Store(State(s.node[n := nd], count, s.ext), l, n), n) == {l}
  {
    var s1 := State(s.node[n := nd], count, s.ext);
    AddPtrs(s, s1, n, nd, n);
    StorePtrs(s1, l, n, n);
    NoPtrsToFresh(s, n);
    assert SlotsOf(n, nd.kids, n) == {};
  }

  /** ... and takes one pointer from the node `l` pointed to. */
  lemma OthersCount(s: State, l: Loc, n: Ref, nd: Node, count: map<Ref, nat>, r: Ref)
    requires ValidLoc(s, l) && n !in s.node && r in s.node
    ensures var s' := Store(State(s.node[n := nd], count, s.ext), l, n);
            && |PtrsTo(s', r)| == |PtrsTo(s, r)| + multiset(nd.kids)[r] - (if Load(s, l) == r then 1 else 0)
            && (r != Load(s, l) && r !in nd.kids ==> PtrsTo(s', r) == PtrsTo(s, r))
  {
    var s1 := State(s.node[n := nd], count, s.ext);
    AddPtrs(s, s1, n, nd, r);
    StorePtrs(s1, l, n, r);
    if r !in nd.kids {
      assert SlotsOf(n, nd.kids, r) == {};
    }
  }

  lemma AddStoreWellFormed(s: State, l: Loc, n: Ref, nd: Node, count: map<Ref, nat>)
    requires WellFormed(s) && ValidLoc(s, l) && n !in s.node && n != 0 && count.Keys == s.node.Keys + {n}
    requires nd.level == LocLevel(s, l)
    requires if nd.level == 0 then nd.kids == [] && |nd.vals| == W
             else |nd.kids| == W && nd.vals == [] && forall i :: 0 <= i < W ==> IsPtr(s.node, nd.kids[i], nd.level - 1)
    ensures var s' := Store(State(s.node[n := nd], count, s.ext), l, n);
            && WellFormed(s') && ValidLoc(s', l) && Load(s', l) == n && n in s'.node && s'.node[n] == nd
            && s'.count == count && s'.ext == Store(s, l, n).ext && s.node.Keys <= s'.node.Keys
            && (forall q {:trigger s'.node[q]} :: q in s.node ==> s'.node[q] == Store(s, l, n).node[q])
            && n !in nd.kids
  {
    AddWellFormed(s, n, nd, count);
    StoreWellFormed(State(s.node[n := nd], count, s.ext), l, n);
    forall i | 0 <= i < |nd.kids| ensures nd.kids[i] != n {
      assert IsPtr(s.node, nd.kids[i], nd.level - 1);
    }
  }

  lemma FilledOk(s: State, l: Loc, n: Ref, level: nat)
    requires WellFormed(s) && CountsOk(s, multiset{}) && ValidLoc(s, l)
    requires Load(s, l) == 0 && n !in s.node && n != 0 && level == LocLevel(s, l)
    ensures var s' := Filled(s, l, n, level);
            && Repaired(s, s', l, n) && s'.node[n] == Blank(level)
            && (forall r {:trigger PtrsTo(s', r)} :: r in s.node ==> PtrsTo(s', r) == PtrsTo(s, r))
  {
    var nd := Blank(level);
    AddStoreWellFormed(s, l, n, nd, s.count[n := 1]);
    NewIsSole(s, l, n, nd, s.count[n := 1]);
    FilledCounts(s, l, n, level);
  }

  lemma FilledCounts(s: State, l: Loc, n: Ref, level: nat)
    requires WellFormed(s) && CountsOk(s, multiset{}) && ValidLoc(s, l)
    requires Load(s, l) == 0 && n !in s.node && n != 0
    ensures var s' := Filled(s, l, n, level);
            forall r {:trigger PtrsTo(s', r)} :: r in s.node ==> s'.count[r] == |PtrsTo(s', r)| && PtrsTo(s', r) == PtrsTo(s, r)
  {
    var s' := Filled(s, l, n, level);
    forall r | r in s.node ensures s'.count[r] == |PtrsTo(s', r)| && PtrsTo(s', r) == PtrsTo(s, r) {
      OthersCount(s, l, n, Blank(level), s.count[n := 1], r);
      assert s.count[r] == |PtrsTo(s, r)|;
    }
  }

  lemma BlankIsEmpty(node: map<Ref, Node>, n: Ref, d: Digits)
    requires |d| > 0 && n in node && node[n] == Blank(|d| - 1) && 0 !in node
    ensures Lookup(node, n, d) == Empty
  {
  }

  lemma CopiedOk(s: State, l: Loc, n: Ref)
    requires WellFormed(s) && CountsOk(s, multiset{}) && ValidLoc(s, l)
    requires Load(s, l) in s.node && s.count[Load(s, l)] > 1 && n !in s.node && n != 0
    ensures var s' := Copied(s, l, n);
            && Repaired(s, s', l, n) && s'.node[n] == s.node[Load(s, l)]
            && (forall r {:trigger PtrsTo(s', r)} ::
                  r in s.node && s.node[r].level > LocLevel(s, l) ==> PtrsTo(s', r) == PtrsTo(s, r))
  {
    var r0 := Load(s, l);
    var nd := s.node[r0];
    assert NodeOk(s.node, r0);
    LoadOk(s, l);
    var count' := Bump(s.count, nd.kids)[r0 := s.count[r0] - 1][n := 1];
    AddStoreWellFormed(s, l, n, nd, count');
    NewIsSole(s, l, n, nd, count');
    CopiedCounts(s, l, n);
  }

  lemma CopiedCounts(s: State, l: Loc, n: Ref)
    requires WellFormed(s) && CountsOk(s, multiset{}) && ValidLoc(s, l)
    requires Load(s, l) in s.node && s.count[Load(s, l)] > 1 && n !in s.node && n != 0
    ensures var s' := Copied(s, l, n);
            forall r {:trigger PtrsTo(s', r)} :: r in s.node ==>
              && s'.count[r] == |PtrsTo(s', r)|
              && (s.node[r].level > LocLevel(s, l) ==> PtrsTo(s', r) == PtrsTo(s, r))
  {
    var s' := Copied(s, l, n);
    var r0 := Load(s, l);
    var nd := s.node[r0];
    LoadOk(s, l);
    forall r | r in s.node
      ensures s'.count[r] == |PtrsTo(s', r)|
      ensures s.node[r].level > LocLevel(s, l) ==> PtrsTo(s', r) == PtrsTo(s, r)
    {
      OthersCount(s, l, n, nd, Bump(s.count, nd.kids)[r0 := s.count[r0] - 1][n := 1], r);
      KidIsLower(s, r0, r);
      assert s.count[r] == |PtrsTo(s, r)|;
    }
  }

  lemma KidIsLower(s: State, r: Ref, c: Ref)
    requires WellFormed(s) && r in s.node && c in s.node
    ensures c in s.node[r].kids ==> s.node[c].level < s.node[r].level
  {
    assert NodeOk(s.node, r);
    if c in s.node[r].kids {
      var i :| 0 <= i < |s.node[r].kids| && s.node[r].kids[i] == c;
      assert IsPtr(s.node, s.node[r].kids[i], s.node[r].level - 1);
    }
  }

  // ---------- the whole walk ----------

  ghost predicate SameView(s: State, p: Ref, s': State, p': Ref, n: nat) {
    forall e {:trigger Lookup(s'.node, p', e)} :: |e| == n ==> Lookup(s'.node, p', e) == Lookup(s.node, p, e)
  }

  ghost predicate SamePtrs(s: State, s': State, n: nat) {
    forall r {:trigger PtrsTo(s', r)} :: r in s.node && s.node[r].level >= n ==> PtrsTo(s', r) == PtrsTo(s, r)
  }

  /** Nodes above the walk keep their contents, apart from the slot walked through. */
  ghost predicate HighKept(s: State, s': State, l: Loc, n: nat)
    requires ValidLoc(s, l) && ValidLoc(s', l)
  {
    && s.node.Keys <= s'.node.Keys && s'.ext == Store(s, l, Load(s', l)).ext
    && forall q {:trigger s'.node[q]} :: q in s.node && s.node[q].level >= n ==> s'.node[q] == Store(s, l, Load(s', l)).node[q]
  }

  /** Nodes within the reach of the walk keep theirs, unless they end up on the path. */
  ghost predicate LowKept(s: State, s': State, path: set<Ref>, n: nat)
    requires s.node.Keys <= s'.node.Keys
  {
    forall q {:trigger s'.node[q]} :: q in s.node && s.node[q].level < n && q !in path ==> s'.node[q] == s.node[q]
  }

  /** One level of the walk is done: `l` points to a node of its own. */
  ghost predicate Opened(s: State, s1: State, l: Loc, n: nat) {
    && ValidLoc(s, l) && LocLevel(s, l) == n - 1
    && WellFormed(s1) && CountsOk(s1, multiset{})
    && ValidLoc(s1, l) && Load(s1, l) in s1.node && s1.node[Load(s1, l)].level == n - 1 && Sole(s1, Load(s1, l), l)
    && SamePtrs(s, s1, n) && SameView(s, Load(s, l), s1, Load(s1, l), n)
    && HighKept(s, s1, l, n) && LowKept(s, s1, {Load(s1, l)}, n)
  }

  /** The walk along `d` from `l` is done: the whole path is solely owned, nothing looks
      different through `l`, and nothing off the path has changed. */
  ghost predicate Walked(s: State, s': State, l: Loc, d: Digits) {
    && ValidLoc(s, l) && WellFormed(s') && CountsOk(s', multiset{}) && PathOwned(s', l, d)
    && SamePtrs(s, s', |d|) && SameView(s, Load(s, l), s', Load(s', l), |d|)
    && HighKept(s, s', l, |d|) && LowKept(s, s', OnPath(s', l, d), |d|)
  }

  lemma FilledOpens(s: State, l: Loc, n: Ref, level: nat)
    requires WellFormed(s) && CountsOk(s, multiset{}) && ValidLoc(s, l)
    requires Load(s, l) == 0 && n !in s.node && n != 0 && level == LocLevel(s, l)
    ensures Opened(s, Filled(s, l, n, level), l, level + 1)
  {
    var s1 := Filled(s, l, n, level);
    LoadOk(s, l);
    FilledOk(s, l, n, level);
    forall e | |e| == level + 1 ensures Lookup(s1.node, n, e) == Lookup(s.node, 0, e) {
      BlankIsEmpty(s1.node, n, e);
    }
  }

  lemma CopiedOpens(s: State, l: Loc, n: Ref)
    requires WellFormed(s) && CountsOk(s, multiset{}) && ValidLoc(s, l)
    requires Load(s, l) in s.node && s.count[Load(s, l)] > 1 && n !in s.node && n != 0
    ensures Opened(s, Copied(s, l, n), l, LocLevel(s, l) + 1)
  {
    var s1 := Copied(s, l, n);
    CopiedOk(s, l, n);
    LoadOk(s, l);
    CopiedView(s, s1, l, n);
  }

  lemma CopiedView(s: State, s1: State, l: Loc, n: Ref)
    requires WellFormed(s) && ValidLoc(s, l) && WellFormed(s1) && n in s1.node
    requires Load(s, l) in s.node && s1.node[n] == s.node[Load(s, l)]
    requires s.node.Keys <= s1.node.Keys
    requires forall q {:trigger s1.node[q]} :: q in s.node ==> s1.node[q] == Store(s, l, n).node[q]
    ensures SameView(s, Load(s, l), s1, n, LocLevel(s, l) + 1)
  {
    var r := Load(s, l);
    LoadOk(s, l);
    assert NodeOk(s.node, r);
    forall e | |e| == LocLevel(s, l) + 1 ensures Lookup(s1.node, n, e) == Lookup(s.node, r, e) {
      if |e| > 1 && e[0] < W {
        assert IsPtr(s.node, s.node[r].kids[e[0]], |e| - 2);
        LookupAgree(s.node, s1.node, s.node[r].kids[e[0]], e[1..]);
      }
    }
  }

  lemma UniqueOpens(s: State, l: Loc)
    requires WellFormed(s) && CountsOk(s, multiset{}) && ValidLoc(s, l)
    requires Load(s, l) in s.node && s.count[Load(s, l)] == 1
    ensures Opened(s, s, l, LocLevel(s, l) + 1)
  {
    LoadOk(s, l);
    UniqueIsSole(s, Load(s, l), l);
  }

  lemma WalkBase(s: State, s1: State, l: Loc, d: Digits)
    requires |d| == 1 && Opened(s, s1, l, 1)
    ensures Walked(s, s1, l, d)
  {
  }

  lemma WalkStep(s: State, s1: State, s2: State, l: Loc, d: Digits)
    requires |d| > 1 && d[0] < W && Opened(s, s1, l, |d|)
    requires Walked(s1, s2, Slot(Load(s1, l), d[0]), d[1..])
    ensures Walked(s, s2, l, d)
    ensures PathEnd(s2, l, d) == PathEnd(s2, Slot(Load(s1, l), d[0]), d[1..])
  {
    var n := Load(s1, l);
    var l1 := Slot(n, d[0]);
    assert NodeOk(s1.node, n);
    assert s2.node[n] == Store(s1, l1, Load(s2, l1)).node[n];
    if l.Slot? {
      assert s2.node[l.r] == Store(s1, l1, Load(s2, l1)).node[l.r];
    }
    assert Load(s2, l) == n;
    assert PtrsTo(s2, n) == PtrsTo(s1, n);
    assert PathOwned(s2, l, d);
    WalkStepView(s1, s2, l, n, d);
    WalkStepKept(s, s1, s2, l, d);
  }

  lemma WalkStepView(s1: State, s2: State, l: Loc, n: Ref, d: Digits)
    requires |d| > 1 && d[0] < W && WellFormed(s1) && n in s1.node && s1.node[n].level == |d| - 1
    requires Walked(s1, s2, Slot(n, d[0]), d[1..])
    ensures SameView(s1, n, s2, n, |d|)
  {
    var l1, d1 := Slot(n, d[0]), d[1..];
    assert NodeOk(s1.node, n);
    assert s2.node[n] == Store(s1, l1, Load(s2, l1)).node[n];
    forall e | |e| == |d| ensures Lookup(s2.node, n, e) == Lookup(s1.node, n, e) {
      if e[0] == d[0] {
        assert Lookup(s2.node, Load(s2, l1), e[1..]) == Lookup(s1.node, Load(s1, l1), e[1..]);
      } else if e[0] < W {
        var c := s1.node[n].kids[e[0]];
        assert s2.node[n].kids[e[0]] == c;
        OffPath(s1, s2, n, d, e);
      }
    }
  }

  lemma OffPath(s1: State, s2: State, n: Ref, d: Digits, e: Digits)
    requires |d| > 1 && d[0] < W && WellFormed(s1) && n in s1.node && s1.node[n].level == |d| - 1
    requires Walked(s1, s2, Slot(n, d[0]), d[1..])
    requires |e| == |d| && e[0] < W && e[0] != d[0] && |s1.node[n].kids| == |s2.node[n].kids| == W
    requires s2.node[n].kids[e[0]] == s1.node[n].kids[e[0]]
    ensures Lookup(s2.node, s1.node[n].kids[e[0]], e[1..]) == Lookup(s1.node, s1.node[n].kids[e[0]], e[1..])
  {
    var l1, d1 := Slot(n, d[0]), d[1..];
    var c := s1.node[n].kids[e[0]];
    assert NodeOk(s1.node, n) && NodeOk(s2.node, n);
    assert IsPtr(s1.node, c, |e| - 2) && IsPtr(s2.node, c, s2.node[n].level - 1);
    assert s2.node[n] == Store(s1, l1, Load(s2, l1)).node[n];
    if c in OnPath(s2, l1, d1) {
      PathIsClosed(s2, l1, d1, c, Slot(n, e[0]));
      OnPathLevel(s2, l1, d1, n);
    }
    forall q | q in s1.node && q in s2.node && q !in OnPath(s2, l1, d1) && q != n ensures s1.node[q] == s2.node[q] {
      if s1.node[q].level >= |d1| {
        assert s2.node[q] == Store(s1, l1, Load(s2, l1)).node[q];
      }
    }
    Isolated(s2, s1.node, l1, d1, c, e[1..]);
  }

  lemma WalkStepKept(s: State, s1: State, s2: State, l: Loc, d: Digits)
    requires |d| > 1 && d[0] < W && Opened(s, s1, l, |d|)
    requires Walked(s1, s2, Slot(Load(s1, l), d[0]), d[1..]) && PathOwned(s2, l, d) && Load(s2, l) == Load(s1, l)
    ensures SamePtrs(s, s2, |d|) && HighKept(s, s2, l, |d|) && LowKept(s, s2, OnPath(s2, l, d), |d|)
  {
    var n := Load(s1, l);
    var l1, d1 := Slot(n, d[0]), d[1..];
    forall q | q in s.node && s.node[q].level >= |d| ensures s2.node[q] == Store(s, l, n).node[q] && PtrsTo(s2, q) == PtrsTo(s, q) {
      assert s1.node[q] == Store(s, l, n).node[q];
      assert s2.node[q] == Store(s1, l1, Load(s2, l1)).node[q];
      assert PtrsTo(s2, q) == PtrsTo(s1, q) && PtrsTo(s1, q) == PtrsTo(s, q);
    }
    forall q | q in s.node && s.node[q].level < |d| && q !in OnPath(s2, l, d) ensures s2.node[q] == s.node[q] {
      assert q != n && s1.node[q] == s.node[q];
      if s.node[q].level >= |d1| {
        assert s2.node[q] == Store(s1, l1, Load(s2, l1)).node[q];
      }
    }
  }
}
