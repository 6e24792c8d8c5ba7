/** The memoised ancestor search and its two clients: the merge point of two revisions and
    the difference of ancestries.  A bitmap over interned ids is the set of those ids. */
module Ancestry {
  import opened RevisionGraph

  // ---------- the memoised depth-first search ----------

  ghost predicate MemoExact(g: Graph, memo: map<Id, set<Id>>) {
    forall x :: x in memo ==> memo[x] == g.Ancestors(x)
  }

  /** The explicit stack: the starting revision, then one parent of the revision below,
      each of them still without a memo entry. */
  ghost predicate StackOk(g: Graph, init: Id, stk: seq<Id>, memo: map<Id, set<Id>>) {
    && (|stk| > 0 ==> stk[0] == init)
    && (forall i :: 0 < i < |stk| ==> stk[i] !in memo && g.Anc(stk[i], init))
    && (forall i, j :: 0 <= i < j < |stk| ==> g.HeightOf(stk[j]) < g.HeightOf(stk[i]))
  }

  /** What the loop of the search keeps. */
  ghost predicate SearchOk(g: Graph, init: Id, memo0: map<Id, set<Id>>, union0: set<Id>,
                           stk: seq<Id>, memo: map<Id, set<Id>>, total: set<Id>) {
    && MemoExact(g, memo)
    && memo0.Keys <= memo.Keys <= memo0.Keys + {init} + g.Ancestors(init)
    && StackOk(g, init, stk, memo)
    && union0 <= total <= union0 + g.Ancestors(init)
    && (stk == [] ==> init in memo && g.Ancestors(init) <= total)
  }

  /** Stores the strict ancestors of every revision it finishes, using and extending whatever
      was memoised before, and adds those of `init` to the accumulated union. */
  method CalculateAncestors(g: Graph, init: Id, memo0: map<Id, set<Id>>, union0: set<Id>)
    returns (memo: map<Id, set<Id>>, total: set<Id>)
    requires g.Valid() && MemoExact(g, memo0)
    ensures MemoExact(g, memo)
    ensures init in memo && memo0.Keys <= memo.Keys <= memo0.Keys + {init} + g.Ancestors(init)
    ensures total == union0 + g.Ancestors(init)
  {
    var stk := [init];
    memo, total := memo0, union0;
    while stk != []
      invariant SearchOk(g, init, memo0, union0, stk, memo, total)
      decreases Undone(g, init, memo), if stk == [] then 0 else 1 + g.HeightOf(stk[|stk| - 1])
    {
      var us := stk[|stk| - 1];
      var parents := g.ParentsOf(us);
      var i := FirstUndone(parents, memo);
      if i < |parents| {
        PushKeeps(g, init, stk, memo, parents[i]);
        stk := stk + [parents[i]];
      } else {
        var b := UnionOfParents(g, us, memo);
        PopKeeps(g, init, memo0, union0, stk, memo, total, b);
        total := total + b;
        memo := if us in memo then memo else memo[us := b];
        stk := stk[..|stk| - 1];
      }
    }
  }

  ghost function Undone(g: Graph, init: Id, memo: map<Id, set<Id>>): set<Id> {
    g.parents.Keys + {init} - memo.Keys
  }

  method FirstUndone(parents: seq<Id>, memo: map<Id, set<Id>>) returns (i: nat)
    ensures i <= |parents|
    ensures forall k :: 0 <= k < i ==> parents[k] in memo
    ensures i < |parents| ==> parents[i] !in memo
  {
    i := 0;
    while i < |parents| && parents[i] in memo
      invariant 0 <= i <= |parents|
      invariant forall k :: 0 <= k < i ==> parents[k] in memo
    {
      i := i + 1;
    }
  }

  lemma PopKeeps(g: Graph, init: Id, memo0: map<Id, set<Id>>, union0: set<Id>,
                 stk: seq<Id>, memo: map<Id, set<Id>>, total: set<Id>, b: set<Id>)
    requires g.Valid() && |stk| > 0 && SearchOk(g, init, memo0, union0, stk, memo, total)
    requires b == g.Ancestors(stk[|stk| - 1])
    ensures var us := stk[|stk| - 1];
            var memo' := if us in memo then memo else memo[us := b];
            && SearchOk(g, init, memo0, union0, stk[..|stk| - 1], memo', total + b)
            && (us in memo ==> |stk| == 1)
            && (us !in memo ==> Undone(g, init, memo') < Undone(g, init, memo))
  {
    var us := stk[|stk| - 1];
    AncestorsInside(g, us, init);
    if us != init {
      AncIsLower(g, us, init);
    }
  }

  lemma PushKeeps(g: Graph, init: Id, stk: seq<Id>, memo: map<Id, set<Id>>, p: Id)
    requires g.Valid() && StackOk(g, init, stk, memo) && |stk| > 0
    requires p in g.ParentsOf(stk[|stk| - 1]) && p !in memo
    ensures StackOk(g, init, stk + [p], memo)
    ensures g.HeightOf(p) < g.HeightOf(stk[|stk| - 1])
  {
    ParentBelow(g, init, stk[|stk| - 1], p);
  }

  lemma ParentBelow(g: Graph, init: Id, us: Id, p: Id)
    requires g.Valid() && g.AncOrSelf(us, init) && p in g.ParentsOf(us)
    ensures g.Anc(p, init) && g.HeightOf(p) < g.HeightOf(us)
  {
    assert g.Edge(p, us);
    EdgeIsAnc(g, p, us);
    AncOrSelfTransitive(g, p, us, init);
  }

  lemma AncestorsInside(g: Graph, us: Id, init: Id)
    requires g.Valid() && g.AncOrSelf(us, init)
    ensures g.Ancestors(us) <= g.Ancestors(init)
  {
    forall a | a in g.Ancestors(us) ensures a in g.Ancestors(init) {
      AncOrSelfTransitive(g, a, us, init);
    }
  }

  /** The inner union: every parent and everything memoised for it. */
  method UnionOfParents(g: Graph, us: Id, memo: map<Id, set<Id>>) returns (b: set<Id>)
    requires g.Valid() && MemoExact(g, memo)
    requires forall p :: p in g.ParentsOf(us) ==> p in memo
    ensures b == g.Ancestors(us)
  {
    var parents := g.ParentsOf(us);
    b := {};
    for i := 0 to |parents|
      invariant forall a :: a in b <==> exists k :: 0 <= k < i && g.AncOrSelf(a, parents[k])
    {
      ghost var b0 := b;
      b := b + {parents[i]} + memo[parents[i]];
      forall a ensures a in b <==> exists k :: 0 <= k < i + 1 && g.AncOrSelf(a, parents[k]) {
        MemberOfAncestors(g, a, parents[i]);
        if a in b && a !in b0 {
          assert g.AncOrSelf(a, parents[i]);
        }
      }
    }
    forall a ensures a in b <==> a in g.Ancestors(us) {
      if g.Anc(a, us) {
        AncIsLower(g, a, us);
        var p := AncLastStep(g, a, us);
        var k :| 0 <= k < |parents| && parents[k] == p;
        assert g.AncOrSelf(a, parents[k]);
      }
      if a in b {
        var k :| 0 <= k < |parents| && g.AncOrSelf(a, parents[k]);
        ParentBelow(g, us, us, parents[k]);
        AncOrSelfTransitive(g, a, parents[k], us);
        MemberOfAncestors(g, a, us);
      }
    }
  }

  // ---------- ancestry difference ----------

  /** The revisions in `a`'s ancestry, itself included, outside the ancestry of every `b`. */
  ghost predicate IsNew(g: Graph, a: Id, bs: set<Id>, x: Id)
    requires g.Valid()
  {
    x != NullId && g.AncOrSelf(x, a) && forall b :: b in bs ==> !g.AncOrSelf(x, b)
  }

  method AncestryDifference(g: Graph, a: Id, bs: set<Id>) returns (newStuff: set<Id>)
    requires g.Valid()
    ensures forall x :: x in newStuff <==> IsNew(g, a, bs, x)
    ensures newStuff != {} && a != NullId ==> a in newStuff
  {
    var memo: map<Id, set<Id>> := map[];
    var u := {};
    var rest := bs;
    while rest != {}
      invariant rest <= bs && MemoExact(g, memo)
      invariant forall x :: x in u <==> exists b :: b in bs - rest && g.AncOrSelf(x, b)
      decreases rest
    {
      var b :| b in rest;
      ghost var u0 := u;
      memo, u := CalculateAncestors(g, b, memo, u);
      u := u + {b};
      forall x ensures x in u <==> exists b' :: b' in bs - (rest - {b}) && g.AncOrSelf(x, b') {
        MemberOfAncestors(g, x, b);
        if x in u && x !in u0 {
          assert b in bs - (rest - {b}) && g.AncOrSelf(x, b);
        }
        if x in u0 {
          var b' :| b' in bs - rest && g.AncOrSelf(x, b');
          assert b' in bs - (rest - {b});
        }
      }
      rest := rest - {b};
    }
    var au;
    memo, au := CalculateAncestors(g, a, memo, {});
    au := au + {a};
    newStuff := (au - u) - {NullId};
    forall x ensures x in newStuff <==> IsNew(g, a, bs, x) {
      MemberOfAncestors(g, x, a);
      assert x in au <==> g.AncOrSelf(x, a);
      assert bs - rest == bs;
    }
    DifferenceHoldsA(g, a, bs);
  }

  /** If anything of `a`'s ancestry is new then `a` itself is. */
  lemma DifferenceHoldsA(g: Graph, a: Id, bs: set<Id>)
    requires g.Valid()
    ensures a != NullId && (exists x :: IsNew(g, a, bs, x)) ==> IsNew(g, a, bs, a)
  {
    if a != NullId && exists x :: IsNew(g, a, bs, x) {
      var x :| IsNew(g, a, bs, x);
      forall b | b in bs ensures !g.AncOrSelf(a, b) {
        if g.AncOrSelf(a, b) && x != a && a != b {
          AncTransitive(g, x, a, b);
        }
      }
    }
  }

  // ---------- the merge point ----------

  /** The strict ancestors all leaves have in common; none for no leaves at all. */
  ghost function CommonAncestors(g: Graph, leaves: set<Id>): set<Id>
    requires g.Valid()
  {
    set a | a in g.parents && leaves != {} && forall l :: l in leaves ==> g.Anc(a, l)
  }

  /** The members that are a strict ancestor of no other member. */
  ghost function Maximal(g: Graph, s: set<Id>): set<Id>
    requires g.Valid()
  {
    set a | a in s && forall b :: b in s ==> !g.Anc(a, b)
  }

  ghost function NextLeaves(g: Graph, leaves: set<Id>): set<Id>
    requires g.Valid()
  {
    Maximal(g, CommonAncestors(g, leaves))
  }

  /** Leaves from which the search comes to an end: the root only on its own. */
  ghost predicate Mergeable(g: Graph, leaves: set<Id>) {
    leaves != {} && leaves <= g.parents.Keys && (NullId in leaves ==> |leaves| == 1)
  }

  lemma {:induction false} HighestMember(g: Graph, s: set<Id>) returns (m: Id)
    requires g.Valid() && s != {} && s <= g.parents.Keys
    ensures m in s && forall x :: x in s ==> g.height[x] <= g.height[m]
    decreases s
  {
    m :| m in s;
    if s != {m} {
      var n := HighestMember(g, s - {m});
      if g.height[m] < g.height[n] {
        m := n;
      }
    }
  }

  lemma SingletonIs(s: set<Id>, x: Id)
    requires x in s && |s| == 1
    ensures s == {x}
  {
    assert |s - {x}| == 0;
  }

  /** One round of the search: the common ancestors strictly shrink and never run out. */
  lemma RoundShrinks(g: Graph, leaves: set<Id>)
    requires g.Valid() && g.Rooted() && Mergeable(g, leaves) && |leaves| != 1
    ensures Mergeable(g, NextLeaves(g, leaves))
    ensures NextLeaves(g, leaves) <= CommonAncestors(g, leaves)
    ensures CommonAncestors(g, NextLeaves(g, leaves)) < CommonAncestors(g, leaves)
  {
    var isect := CommonAncestors(g, leaves);
    var next := NextLeaves(g, leaves);
    RootIsCommon(g, leaves);
    var m := HighestMember(g, isect);
    HighestIsMaximal(g, isect, m);
    if NullId in next {
      RootAlone(g, isect);
    }
    forall a | a in CommonAncestors(g, next) ensures a in isect {
      forall l | l in leaves ensures g.Anc(a, l) {
        AncTransitive(g, a, m, l);
      }
    }
    if g.Anc(m, m) {
      AncIsLower(g, m, m);
    }
  }

  lemma RootIsCommon(g: Graph, leaves: set<Id>)
    requires g.Valid() && g.Rooted() && Mergeable(g, leaves) && |leaves| != 1
    ensures NullId in CommonAncestors(g, leaves)
  {
    forall l | l in leaves ensures g.Anc(NullId, l) {
      RootIsAncestor(g, l);
    }
  }

  lemma HighestIsMaximal(g: Graph, s: set<Id>, m: Id)
    requires g.Valid() && s <= g.parents.Keys && m in s
    requires forall x :: x in s ==> g.height[x] <= g.height[m]
    ensures m in Maximal(g, s)
  {
    forall b | b in s ensures !g.Anc(m, b) {
      if g.Anc(m, b) {
        AncIsLower(g, m, b);
      }
    }
  }

  /** The root is maximal only in the set of itself. */
  lemma RootAlone(g: Graph, s: set<Id>)
    requires g.Valid() && g.Rooted() && s <= g.parents.Keys && NullId in Maximal(g, s)
    ensures Maximal(g, s) == {NullId}
  {
    forall x | x in s ensures x == NullId {
      if x != NullId {
        RootIsAncestor(g, x);
      }
    }
  }

  /** The revision the search ends on. */
  ghost function MergePoint(g: Graph, leaves: set<Id>): Id
    requires g.Valid() && g.Rooted() && Mergeable(g, leaves)
    decreases CommonAncestors(g, leaves)
  {
    if |leaves| == 1 then
      var x :| x in leaves; x
    else
      RoundShrinks(g, leaves);
      MergePoint(g, NextLeaves(g, leaves))
  }

  /** The merge point of two or more leaves is a strict ancestor of them all. */
  lemma {:induction false} MergePointIsCommon(g: Graph, leaves: set<Id>)
    requires g.Valid() && g.Rooted() && Mergeable(g, leaves) && |leaves| != 1
    ensures MergePoint(g, leaves) in CommonAncestors(g, leaves)
    decreases CommonAncestors(g, leaves)
  {
    RoundShrinks(g, leaves);
    if |NextLeaves(g, leaves)| != 1 {
      MergePointIsCommon(g, NextLeaves(g, leaves));
    }
  }

  /** Where a least common ancestor exists, one that descends from every other common
      ancestor, the search returns it. */
  lemma MergePointIsLca(g: Graph, leaves: set<Id>, lca: Id)
    requires g.Valid() && g.Rooted() && Mergeable(g, leaves) && |leaves| != 1
    requires lca in CommonAncestors(g, leaves)
    requires forall a :: a in CommonAncestors(g, leaves) ==> g.AncOrSelf(a, lca)
    ensures MergePoint(g, leaves) == lca
  {
    var isect := CommonAncestors(g, leaves);
    forall b | b in isect ensures !g.Anc(lca, b) {
      if g.Anc(lca, b) {
        AncIsLower(g, lca, b);
        if b != lca {
          AncIsLower(g, b, lca);
        }
      }
    }
    assert NextLeaves(g, leaves) == {lca};
    RoundShrinks(g, leaves);
  }

  /** What is above or below every common ancestor is never passed on the way up: it is the
      merge point or above it. */
  lemma {:induction false} MergePointIsBelow(g: Graph, leaves: set<Id>, d: Id)
    requires g.Valid() && g.Rooted() && Mergeable(g, leaves) && |leaves| != 1
    requires d in CommonAncestors(g, leaves)
    requires forall a :: a in CommonAncestors(g, leaves) ==> g.AncOrSelf(a, d) || g.AncOrSelf(d, a)
    ensures g.AncOrSelf(d, MergePoint(g, leaves))
    decreases CommonAncestors(g, leaves)
  {
    RoundShrinks(g, leaves);
    var next := NextLeaves(g, leaves);
    BelowMaximal(g, CommonAncestors(g, leaves), d);
    if next != {d} && |next| != 1 {
      StillBelow(g, leaves, next, d);
      MergePointIsBelow(g, next, d);
    }
  }

  lemma BelowMaximal(g: Graph, s: set<Id>, d: Id)
    requires g.Valid() && s <= g.parents.Keys && d in s
    requires forall a :: a in s ==> g.AncOrSelf(a, d) || g.AncOrSelf(d, a)
    ensures Maximal(g, s) == {d} || forall a :: a in Maximal(g, s) ==> g.Anc(d, a)
  {
    if d in Maximal(g, s) {
      forall a | a in Maximal(g, s) ensures a == d {
        assert g.AncOrSelf(a, d) || g.AncOrSelf(d, a);
      }
    }
  }

  lemma StillBelow(g: Graph, leaves: set<Id>, next: set<Id>, d: Id)
    requires g.Valid() && d in CommonAncestors(g, leaves) && next != {} && forall a :: a in next ==> g.Anc(d, a)
    requires forall a :: a in CommonAncestors(g, leaves) ==> g.AncOrSelf(a, d) || g.AncOrSelf(d, a)
    requires CommonAncestors(g, next) <= CommonAncestors(g, leaves)
    ensures d in CommonAncestors(g, next)
    ensures forall a :: a in CommonAncestors(g, next) ==> g.AncOrSelf(a, d) || g.AncOrSelf(d, a)
  {
  }

  lemma CommonIsAbove(g: Graph, leaves: set<Id>, m: Id, a: Id)
    requires g.Valid() && m in CommonAncestors(g, leaves) && a in leaves
    ensures g.Anc(m, a)
  {
  }

  /** No common ancestor that is above no other one is passed. */
  lemma MergePointIsAbove(g: Graph, leaves: set<Id>, a: Id)
    requires g.Valid() && g.Rooted() && Mergeable(g, leaves) && |leaves| != 1
    requires a in CommonAncestors(g, leaves) && forall b :: b in CommonAncestors(g, leaves) ==> !g.Anc(a, b)
    ensures g.AncOrSelf(MergePoint(g, leaves), a)
  {
    RoundShrinks(g, leaves);
    var next := NextLeaves(g, leaves);
    assert a in next;
    RoundIsAbove(g, next, a);
  }

  lemma RoundIsAbove(g: Graph, leaves: set<Id>, a: Id)
    requires g.Valid() && g.Rooted() && Mergeable(g, leaves) && a in leaves
    ensures g.AncOrSelf(MergePoint(g, leaves), a)
  {
    if |leaves| == 1 {
      SingletonIs(leaves, a);
    } else {
      MergePointIsCommon(g, leaves);
      CommonIsAbove(g, leaves, MergePoint(g, leaves), a);
    }
  }

  /** From one set of leaves to the next: the strict ancestors all of them have in common, but for those
      that are a strict ancestor of another one. */
  ghost predicate RoundOf(g: Graph, leaves: set<Id>, next: set<Id>) {
    forall x :: x in next <==> AboveAll(g, leaves, x) && forall y :: AboveAll(g, leaves, y) ==> !g.Anc(x, y)
  }

  ghost predicate Goes(g: Graph, leaves: set<Id>, next: set<Id>) {
    |leaves| > 1 && RoundOf(g, leaves, next)
  }

  ghost predicate AboveAll(g: Graph, leaves: set<Id>, x: Id) {
    forall l :: l in leaves ==> g.Anc(x, l)
  }

  /** The rounds of a search, each from more than one leaf. */
  ghost predicate Rounds(g: Graph, rounds: seq<set<Id>>, start: set<Id>, end: set<Id>) {
    && |rounds| > 0 && rounds[0] == start && rounds[|rounds| - 1] == end
    && forall i, j :: 0 <= i < j < |rounds| && j == i + 1 ==> Goes(g, rounds[i], rounds[j])
  }

  lemma NextIsRound(g: Graph, leaves: set<Id>)
    requires g.Valid() && leaves != {}
    ensures RoundOf(g, leaves, NextLeaves(g, leaves))
  {
    forall x ensures x in CommonAncestors(g, leaves) <==> AboveAll(g, leaves, x) {
      CommonIs(g, leaves, x);
    }
    MaximalIs(g, leaves, CommonAncestors(g, leaves));
  }

  lemma CommonIs(g: Graph, leaves: set<Id>, x: Id)
    requires g.Valid() && leaves != {}
    ensures x in CommonAncestors(g, leaves) <==> AboveAll(g, leaves, x)
  {
    var l :| l in leaves;
    if g.Anc(x, l) {
      AncIsLower(g, x, l);
    }
  }

  lemma MaximalIs(g: Graph, leaves: set<Id>, s: set<Id>)
    requires g.Valid() && forall x :: x in s <==> AboveAll(g, leaves, x)
    ensures RoundOf(g, leaves, Maximal(g, s))
  {
  }

  lemma RoundsOn(g: Graph, rounds: seq<set<Id>>, start: set<Id>, leaves: set<Id>, next: set<Id>)
    requires g.Valid() && Rounds(g, rounds, start, leaves) && |leaves| > 1 && next == NextLeaves(g, leaves)
    ensures Rounds(g, rounds + [next], start, next)
  {
    NextIsRound(g, leaves);
    var more := rounds + [next];
    assert Goes(g, leaves, next);
    forall i, j | 0 <= i < j < |more| && j == i + 1 ensures Goes(g, more[i], more[j]) {
      assert more[i] == rounds[i];
      if j < |rounds| {
        assert more[j] == rounds[j];
      }
    }
  }

  /** The search ends between two kinds of common ancestors. Those that every other common ancestor is
      above or below are never passed: the result is one of them or descends from them all. Those
      that are above no other one are where the search begins: the result is one of them or above
      them all. A common ancestor that descends from every other one is both, and the result. */
  method FindCommonAncestorForMerge(g: Graph, left: Id, right: Id) returns (anc: Id, ghost rounds: seq<set<Id>>)
    requires g.Valid() && g.Rooted() && left in g.parents && right in g.parents
    requires left == right || (left != NullId && right != NullId)
    ensures anc == MergePoint(g, {left, right}) && Rounds(g, rounds, {left, right}, {anc})
    ensures left == right ==> anc == left
    ensures left != right ==> g.Anc(anc, left) && g.Anc(anc, right)
    ensures forall d :: left != right && g.Anc(d, left) && g.Anc(d, right)
              && (forall a :: g.Anc(a, left) && g.Anc(a, right) ==> g.AncOrSelf(a, d) || g.AncOrSelf(d, a))
              ==> g.AncOrSelf(d, anc)
    ensures forall a :: left != right && g.Anc(a, left) && g.Anc(a, right)
              && (forall b :: g.Anc(b, left) && g.Anc(b, right) ==> !g.Anc(a, b))
              ==> g.AncOrSelf(anc, a)
    ensures forall lca :: left != right && g.Anc(lca, left) && g.Anc(lca, right)
              && (forall a :: g.Anc(a, left) && g.Anc(a, right) ==> g.AncOrSelf(a, lca))
              ==> anc == lca
  {
    anc, rounds := Search(g, {left, right});
    if left != right {
      assert |{left, right}| == 2;
      MergePointIsCommon(g, {left, right});
      MergePointIsTheLca(g, left, right);
      MergePointIsBetween(g, left, right);
    }
  }

  /** The loop: rounds until one leaf is left. */
  method Search(g: Graph, start: set<Id>) returns (anc: Id, ghost rounds: seq<set<Id>>)
    requires g.Valid() && g.Rooted() && Mergeable(g, start)
    ensures anc == MergePoint(g, start) && Rounds(g, rounds, start, {anc})
  {
    var leaves := start;
    var memo: map<Id, set<Id>> := map[];
    rounds := [leaves];
    while |leaves| != 1
      invariant Mergeable(g, leaves) && MemoExact(g, memo)
      invariant MergePoint(g, leaves) == MergePoint(g, start) && Rounds(g, rounds, start, leaves)
      decreases CommonAncestors(g, leaves)
    {
      RoundShrinks(g, leaves);
      ghost var before := leaves;
      memo, leaves := Round(g, leaves, memo);
      RoundsOn(g, rounds, start, before, leaves);
      rounds := rounds + [leaves];
    }
    anc :| anc in leaves;
    SingletonIs(leaves, anc);
  }

  lemma MergePointIsTheLca(g: Graph, left: Id, right: Id)
    requires g.Valid() && g.Rooted() && Mergeable(g, {left, right}) && left != right
    ensures forall lca :: g.Anc(lca, left) && g.Anc(lca, right)
              && (forall a :: g.Anc(a, left) && g.Anc(a, right) ==> g.AncOrSelf(a, lca))
              ==> MergePoint(g, {left, right}) == lca
  {
    forall lca | g.Anc(lca, left) && g.Anc(lca, right)
                 && forall a :: g.Anc(a, left) && g.Anc(a, right) ==> g.AncOrSelf(a, lca)
      ensures MergePoint(g, {left, right}) == lca
    {
      AncIsLower(g, lca, left);
      MergePointIsLca(g, {left, right}, lca);
    }
  }

  lemma MergePointIsBetween(g: Graph, left: Id, right: Id)
    requires g.Valid() && g.Rooted() && Mergeable(g, {left, right}) && left != right
    ensures forall d :: g.Anc(d, left) && g.Anc(d, right)
              && (forall a :: g.Anc(a, left) && g.Anc(a, right) ==> g.AncOrSelf(a, d) || g.AncOrSelf(d, a))
              ==> g.AncOrSelf(d, MergePoint(g, {left, right}))
    ensures forall a :: g.Anc(a, left) && g.Anc(a, right)
              && (forall b :: g.Anc(b, left) && g.Anc(b, right) ==> !g.Anc(a, b))
              ==> g.AncOrSelf(MergePoint(g, {left, right}), a)
  {
    forall d | g.Anc(d, left) && g.Anc(d, right)
               && forall a :: g.Anc(a, left) && g.Anc(a, right) ==> g.AncOrSelf(a, d) || g.AncOrSelf(d, a)
      ensures g.AncOrSelf(d, MergePoint(g, {left, right}))
    {
      AncIsLower(g, d, left);
      MergePointIsBelow(g, {left, right}, d);
    }
    forall a | g.Anc(a, left) && g.Anc(a, right) && forall b :: g.Anc(b, left) && g.Anc(b, right) ==> !g.Anc(a, b)
      ensures g.AncOrSelf(MergePoint(g, {left, right}), a)
    {
      AncIsLower(g, a, left);
      MergePointIsAbove(g, {left, right}, a);
    }
  }

  /** One round: the common ancestors of the leaves, less whatever is an ancestor of one. */
  method Round(g: Graph, leaves: set<Id>, memo0: map<Id, set<Id>>)
    returns (memo: map<Id, set<Id>>, next: set<Id>)
    requires g.Valid() && MemoExact(g, memo0)
    ensures MemoExact(g, memo) && next == NextLeaves(g, leaves) && (leaves != {} ==> RoundOf(g, leaves, next))
  {
    if leaves != {} {
      NextIsRound(g, leaves);
    }
    var isect, isectAncs;
    memo, isect := IntersectAncestors(g, leaves, memo0);
    memo, isectAncs := AncestorsOfAll(g, isect, memo);
    next := isect - isectAncs;
  }

  /** First loop of a round: intersect the ancestors of all current leaves. */
  method IntersectAncestors(g: Graph, leaves: set<Id>, memo0: map<Id, set<Id>>)
    returns (memo: map<Id, set<Id>>, isect: set<Id>)
    requires g.Valid() && MemoExact(g, memo0)
    ensures MemoExact(g, memo)
    ensures isect == CommonAncestors(g, leaves)
  {
    memo, isect := memo0, {};
    var rest := leaves;
    while rest != {}
      invariant rest <= leaves && MemoExact(g, memo)
      invariant isect == CommonAncestors(g, leaves - rest)
      decreases rest
    {
      var leaf :| leaf in rest;
      var ancs;
      if leaf in memo {
        ancs := memo[leaf];
      } else {
        memo, ancs := CalculateAncestors(g, leaf, memo, {});
      }
      assert leaves - (rest - {leaf}) == (leaves - rest) + {leaf};
      isect := if rest == leaves then ancs else isect * ancs;
      rest := rest - {leaf};
    }
    assert leaves - rest == leaves;
  }

  /** Second loop of a round: the ancestors of every member. */
  method AncestorsOfAll(g: Graph, s: set<Id>, memo0: map<Id, set<Id>>)
    returns (memo: map<Id, set<Id>>, total: set<Id>)
    requires g.Valid() && MemoExact(g, memo0)
    ensures MemoExact(g, memo)
    ensures forall a :: a in total <==> exists b :: b in s && g.Anc(a, b)
  {
    memo, total := memo0, {};
    var rest := s;
    while rest != {}
      invariant rest <= s && MemoExact(g, memo)
      invariant forall a :: a in total <==> exists b :: b in s - rest && g.Anc(a, b)
      decreases rest
    {
      var x :| x in rest;
      ghost var t0 := total;
      memo, total := CalculateAncestors(g, x, memo, total);
      forall a ensures a in total <==> exists b :: b in s - (rest - {x}) && g.Anc(a, b) {
        MemberOfAncestors(g, a, x);
        if a in total && a !in t0 {
          assert x in s - (rest - {x}) && g.Anc(a, x);
        }
        if a in t0 {
          var b :| b in s - rest && g.Anc(a, b);
          assert b in s - (rest - {x});
        }
      }
      rest := rest - {x};
    }
    assert s - rest == s;
  }

  /** Called on the root and another revision the search would never end: the first round
      leaves no leaf, and no leaf is what every later round leaves again. */
  lemma RootNeverMerges(g: Graph, x: Id)
    requires g.Valid() && g.Rooted() && x in g.parents && x != NullId
    ensures NextLeaves(g, {NullId, x}) == {} && NextLeaves(g, {}) == {}
  {
    forall a ensures a !in CommonAncestors(g, {NullId, x}) {
      RootHasNoAncestor(g, a);
    }
  }
}
