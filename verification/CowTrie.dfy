/** The copy-on-write tries themselves: all tries and iterators that may share nodes, with the
    shared memory they live in. */
module CowTrie {
  import opened TrieMemory
  import opened TrieView
  import opened TrieWalk
  import opened TrieKeys
  import opened TrieIsolation
  import opened TrieIterator

  /** `_count` is an unsigned 32-bit number. */
  const U32 := 0x1_0000_0000

  /** An iterator: the slot numbers of its stack frames (whose pointers are in the memory) and
      the entry it stands on, the key kept as the bit groups that are written one by one. */
  datatype Iter = Iter(idx: seq<int>, key: Digits, val: Value)

  ghost function Support(node: map<Ref, Node>, root: Ref): set<nat> {
    set k | 0 <= k < Keys(L) && Lookup(node, root, DigitsOf(k, L)) != Empty
  }

  ghost predicate SizeOk(s: State, t: nat, n: nat) {
    Trie(t) in s.ext && n == |Support(s.node, s.ext[Trie(t)])| % U32
  }

  /** Every trie has its root pointer and counts its non-empty keys. */
  ghost predicate TriesOk(s: State, size: map<nat, nat>) {
    && (forall t :: Trie(t) in s.ext <==> t in size)
    && forall t {:trigger SizeOk(s, t, size[t])} :: t in size ==> SizeOk(s, t, size[t])
  }

  ghost function Ptrs(s: State, it: nat, m: nat): seq<Ref>
    requires forall k: nat :: k < m ==> Frame(it, k) in s.ext
  {
    seq(m, k requires 0 <= k < m => s.ext[Frame(it, k)])
  }

  /** At rest an iterator is at the end, or stands on an entry of the trie it started from. */
  ghost predicate IterOk(s: State, it: nat, i: Iter)
    requires forall k: nat :: k < |i.idx| ==> Frame(it, k) in s.ext
  {
    && |i.key| == L
    && (i.idx == [] ||
        (&& |i.idx| == L && i.idx == i.key && Linked(s.node, Ptrs(s, it, L), i.idx) && ValidDigits(i.key, L)
         && Lookup(s.node, s.ext[Frame(it, 0)], i.key) == i.val != Empty))
  }

  ghost predicate FramesOk(s: State, iters: map<nat, Iter>) {
    forall it, k: nat :: Frame(it, k) in s.ext <==> it in iters && k < |iters[it].idx|
  }

  ghost predicate ItersOk(s: State, iters: map<nat, Iter>) {
    FramesOk(s, iters) && forall it {:trigger IterOk(s, it, iters[it])} :: it in iters ==> IterOk(s, it, iters[it])
  }

  // ---------- what a change to one trie or iterator leaves alone ----------

  /** What is seen through a trie's root or an iterator's first frame. */
  ghost function ValueAt(s: State, l: Loc, d: Digits): Value {
    if l in s.ext then Lookup(s.node, s.ext[l], d) else Empty
  }

  lemma IterKept(s: State, s': State, mine: set<Loc>, it: nat, i: Iter)
    requires WellFormed(s) && WellFormed(s') && OthersSame(s, s', mine)
    requires forall k: nat :: k < |i.idx| ==> Frame(it, k) in s.ext && Frame(it, k) in s'.ext && Frame(it, k) !in mine
    requires IterOk(s, it, i)
    ensures IterOk(s', it, i)
  {
    if i.idx != [] {
      var ptrs, ptrs' := Ptrs(s, it, L), Ptrs(s', it, L);
      forall k: nat | k < L ensures ptrs'[k] == ptrs[k] && ptrs[k] in s'.node && s'.node[ptrs[k]] == s.node[ptrs[k]] {
        assert SameAt(s, s', Frame(it, k));
      }
      assert ptrs' == ptrs;
      forall k: nat | k < L ensures FrameAt(s'.node, ptrs, i.idx, k) {
        assert FrameAt(s.node, ptrs, i.idx, k);
      }
      assert SameAt(s, s', Frame(it, 0));
      assert Lookup(s'.node, s.ext[Frame(it, 0)], i.key) == Lookup(s.node, s.ext[Frame(it, 0)], i.key);
    }
  }

  lemma ItersKept(s: State, s': State, mine: set<Loc>, iters: map<nat, Iter>)
    requires WellFormed(s) && WellFormed(s') && OthersSame(s, s', mine) && ItersOk(s, iters) && FramesOk(s', iters)
    requires forall m :: m in mine ==> m.Trie?
    ensures ItersOk(s', iters)
  {
    forall it | it in iters ensures IterOk(s', it, iters[it]) {
      assert IterOk(s, it, iters[it]);
      IterKept(s, s', mine, it, iters[it]);
    }
  }

  lemma SizeKept(s: State, s': State, mine: set<Loc>, t: nat, n: nat)
    requires OthersSame(s, s', mine) && Trie(t) !in mine && SizeOk(s, t, n)
    ensures SizeOk(s', t, n)
  {
    assert SameAt(s, s', Trie(t));
    assert Support(s'.node, s'.ext[Trie(t)]) == Support(s.node, s.ext[Trie(t)]) by {
      forall k: nat | k < Keys(L)
        ensures Lookup(s'.node, s'.ext[Trie(t)], DigitsOf(k, L)) == Lookup(s.node, s.ext[Trie(t)], DigitsOf(k, L))
      {
      }
    }
  }

  lemma TriesKept(s: State, s': State, mine: set<Loc>, size: map<nat, nat>)
    requires OthersSame(s, s', mine) && TriesOk(s, size)
    requires forall m :: m in mine ==> m.Frame?
    requires forall t :: Trie(t) in s'.ext <==> Trie(t) in s.ext
    ensures TriesOk(s', size)
  {
    forall t | t in size ensures SizeOk(s', t, size[t]) {
      assert SizeOk(s, t, size[t]);
      SizeKept(s, s', mine, t, size[t]);
    }
  }

  lemma OneKeyChanged(a: set<nat>, b: set<nat>, key: nat)
    requires forall k :: k != key ==> (k in a <==> k in b)
    ensures |b| == |a| + (if key in b then 1 else 0) - if key in a then 1 else 0
  {
    assert b - {key} == a - {key};
    if key in a { assert a == (a - {key}) + {key}; } else { assert a == a - {key}; }
    if key in b { assert b == (b - {key}) + {key}; } else { assert b == b - {key}; }
  }

  lemma {:induction false} DigitsTail(key: nat, n: nat)
    requires n > 0
    ensures DigitsOf(key, n)[1..] == DigitsOf(key, n - 1)
    decreases n
  {
    if n > 1 {
      DigitsTail(key / W, n - 1);
    }
  }

  lemma KidsExist(s: State, r: Ref)
    requires WellFormed(s) && r in s.node
    ensures forall c :: c in s.node[r].kids ==> c == 0 || c in s.node
    ensures 0 !in s.node && s.node.Keys == s.count.Keys && r !in s.node[r].kids
  {
    assert NodeOk(s.node, r);
    KidIsLower(s, r, r);
    forall k | 0 <= k < |s.node[r].kids| ensures s.node[r].kids[k] == 0 || s.node[r].kids[k] in s.node {
      assert IsPtr(s.node, s.node[r].kids[k], s.node[r].level - 1);
    }
  }

  lemma CountPositive(s: State, l: Loc)
    requires WellFormed(s) && CountsOk(s, multiset{}) && ValidLoc(s, l) && Load(s, l) in s.node
    ensures s.count[Load(s, l)] > 0
  {
    InPtrsTo(s, Load(s, l), l);
    assert s.count[Load(s, l)] == |PtrsTo(s, Load(s, l))|;
  }

  /** Nothing is seen to change, through any trie or iterator. */
  ghost predicate NothingSeen(s: State, s1: State, t: nat) {
    && WellFormed(s1) && CountsOk(s1, multiset{}) && s1.ext.Keys == s.ext.Keys && OthersSame(s, s1, {Trie(t)})
    && forall e {:trigger ValueAt(s1, Trie(t), e)} :: |e| == L ==> ValueAt(s1, Trie(t), e) == ValueAt(s, Trie(t), e)
  }

  /** The walk changes nothing anybody sees, and hands out the place of the current value. */
  lemma WalkUnseen(s: State, s1: State, t: nat, d: Digits)
    requires WellFormed(s) && Trie(t) in s.ext && |d| == L && Walked(s, s1, Trie(t), d) && d[L - 1] < W
    ensures NothingSeen(s, s1, t)
    ensures var leaf := PathEnd(s1, Trie(t), d);
            |s1.node[leaf].vals| == W && s1.node[leaf].vals[d[L - 1]] == ValueAt(s, Trie(t), d)
  {
    var l := Trie(t);
    WalkIsPrivate(s, s1, l, d);
    LeafWidth(s1, l, d);
    PathEndOk(s1, l, d);
    forall e | |e| == L ensures ValueAt(s1, l, e) == ValueAt(s, l, e) {
      assert Lookup(s1.node, Load(s1, l), e) == Lookup(s.node, Load(s, l), e);
    }
  }

  /** One key of trie `t` has become `v`; no other key, trie or iterator is seen to change. */
  ghost predicate OneKeySeen(s: State, s2: State, t: nat, d: Digits, v: Value) {
    && WellFormed(s2) && CountsOk(s2, multiset{}) && s2.ext.Keys == s.ext.Keys && OthersSame(s, s2, {Trie(t)})
    && forall e {:trigger ValueAt(s2, Trie(t), e)} :: |e| == L ==>
         ValueAt(s2, Trie(t), e) == if e == d then v else ValueAt(s, Trie(t), e)
  }

  lemma WriteSeen(s: State, s1: State, t: nat, d: Digits, v: Value)
    requires NothingSeen(s, s1, t) && Trie(t) in s1.ext && |d| == L && PathOwned(s1, Trie(t), d)
    requires d[L - 1] < |s1.node[PathEnd(s1, Trie(t), d)].vals|
    ensures OneKeySeen(s, Written(s1, Trie(t), d, v), t, d, v)
  {
    var l := Trie(t);
    var s2 := Written(s1, l, d, v);
    WrittenOk(s1, l, d, v);
    OthersTransitive(s, s1, s2, {l});
    forall e | |e| == L ensures ValueAt(s2, l, e) == if e == d then v else ValueAt(s, l, e) {
      assert ValueAt(s1, l, e) == ValueAt(s, l, e);
    }
  }

  /** `_count` after an entry was there (or not) before and is there (or not) after. */
  function NewSize(n: nat, before: bool, after: bool): nat {
    if before && !after then (n + U32 - 1) % U32 else if after && !before then (n + 1) % U32 else n
  }

  lemma CountStep(n: nat, a: int, before: bool, after: bool)
    requires n == a % U32 && a >= 0 && (before ==> a > 0)
    ensures NewSize(n, before, after) == (a + (if after then 1 else 0) - if before then 1 else 0) % U32
  {
  }

  lemma SizeAfterSet(s: State, s2: State, t: nat, key: nat, v: Value, n: nat)
    requires SizeOk(s, t, n) && key < Keys(L) && OneKeySeen(s, s2, t, DigitsOf(key, L), v)
    ensures SizeOk(s2, t, NewSize(n, ValueAt(s, Trie(t), DigitsOf(key, L)) != Empty, v != Empty))
  {
    var before := ValueAt(s, Trie(t), DigitsOf(key, L)) != Empty;
    var sup, sup2 := Support(s.node, s.ext[Trie(t)]), Support(s2.node, s2.ext[Trie(t)]);
    forall k: nat | k < Keys(L) && k != key ensures k in sup <==> k in sup2 {
      KeyInverse(k, L);
      KeyInverse(key, L);
      assert ValueAt(s2, Trie(t), DigitsOf(k, L)) == ValueAt(s, Trie(t), DigitsOf(k, L));
    }
    assert ValueAt(s2, Trie(t), DigitsOf(key, L)) == v;
    OneKeyChanged(sup, sup2, key);
    CountStep(n, |sup|, before, v != Empty);
  }

  /** The bookkeeping of all tries and iterators after one key of trie `t` was given `v`. */
  lemma SetKeeps(s: State, s2: State, t: nat, key: nat, d: Digits, v: Value, size: map<nat, nat>, size': map<nat, nat>,
                 iters: map<nat, Iter>)
    requires WellFormed(s) && TriesOk(s, size) && ItersOk(s, iters) && t in size && key < Keys(L) && d == DigitsOf(key, L)
    requires OneKeySeen(s, s2, t, d, v)
    requires size' == size[t := NewSize(size[t], ValueAt(s, Trie(t), d) != Empty, v != Empty)]
    ensures TriesOk(s2, size') && ItersOk(s2, iters)
  {
    forall u | u in size' ensures SizeOk(s2, u, size'[u]) {
      assert SizeOk(s, u, size[u]);
      if u == t {
        SizeAfterSet(s, s2, t, key, v, size[t]);
      } else {
        SizeKept(s, s2, {Trie(t)}, u, size[u]);
      }
    }
    ItersKept(s, s2, {Trie(t)}, iters);
  }

  lemma UnseenKeeps(s: State, s1: State, t: nat, size: map<nat, nat>, iters: map<nat, Iter>)
    requires WellFormed(s) && TriesOk(s, size) && ItersOk(s, iters) && t in size && NothingSeen(s, s1, t)
    ensures TriesOk(s1, size) && ItersOk(s1, iters)
  {
    forall u | u in size ensures SizeOk(s1, u, size[u]) {
      assert SizeOk(s, u, size[u]);
      if u == t {
        assert Support(s1.node, s1.ext[Trie(t)]) == Support(s.node, s.ext[Trie(t)]) by {
          forall k: nat | k < Keys(L) ensures ValueAt(s1, Trie(t), DigitsOf(k, L)) == ValueAt(s, Trie(t), DigitsOf(k, L)) {
          }
        }
      } else {
        SizeKept(s, s1, {Trie(t)}, u, size[u]);
      }
    }
    ItersKept(s, s1, {Trie(t)}, iters);
  }

  lemma CountOfDebt(s: State, r: Ref, debt: multiset<Ref>)
    requires WellFormed(s) && r in s.node && CountsOk(s, debt + multiset{r})
    ensures s.count[r] > 0
  {
    assert s.count[r] == |PtrsTo(s, r)| + (debt + multiset{r})[r];
  }

  lemma NullDebt(s: State, debt: multiset<Ref>)
    requires WellFormed(s) && CountsOk(s, debt + multiset{0})
    ensures CountsOk(s, debt)
  {
    forall r | r in s.node ensures s.count[r] == |PtrsTo(s, r)| + debt[r] {
      assert s.count[r] == |PtrsTo(s, r)| + (debt + multiset{0})[r];
    }
  }

  lemma KidsAreLower(s: State, r: Ref)
    requires WellFormed(s) && r in s.node
    ensures forall x :: x in s.node[r].kids && x in s.node ==> s.node[x].level < s.node[r].level
    ensures forall x :: x in s.node[r].kids ==> x == 0 || (x in s.node && x != r)
  {
    KidsExist(s, r);
    forall x | x in s.node[r].kids && x in s.node ensures s.node[x].level < s.node[r].level {
      KidIsLower(s, r, x);
    }
  }

  // ---------- moving an iterator ----------

  ghost function FramesOf(it: nat): set<Loc> {
    set k | 0 <= k < L :: Frame(it, k)
  }

  /** Nodes may have been freed since `s0` but none has changed, and no pointer but those of
      iterator `it`, which are now `ptrs`. */
  ghost predicate OnlyFrames(s0: State, s: State, it: nat, ptrs: seq<Ref>) {
    && WellFormed(s) && CountsOk(s, multiset{}) && |ptrs| <= L
    && (forall q {:trigger s.node[q]} :: q in s.node ==> q in s0.node && s.node[q] == s0.node[q])
    && (forall l: Loc {:trigger l in s.ext} :: !(l.Frame? && l.it == it) ==> (l in s.ext <==> l in s0.ext))
    && (forall l: Loc {:trigger s.ext[l]} :: !(l.Frame? && l.it == it) && l in s.ext ==> s.ext[l] == s0.ext[l])
    && (forall k: nat {:trigger Frame(it, k)} :: Frame(it, k) in s.ext <==> k < |ptrs|)
    && (forall k: nat {:trigger ptrs[k]} :: k < |ptrs| ==> s.ext[Frame(it, k)] == ptrs[k])
  }

  lemma OnlyFramesSame(s0: State, s: State, it: nat, ptrs: seq<Ref>)
    requires WellFormed(s0) && OnlyFrames(s0, s, it, ptrs)
    ensures OthersSame(s0, s, FramesOf(it))
  {
    forall m | m in s0.ext && m !in FramesOf(it) ensures m in s.ext && SameAt(s0, s, m) {
      assert LocOk(s0, m);
      assert !(m.Frame? && m.it == it);
      assert LocOk(s, m);
      forall e | |e| == ExtLevel(m) + 1 ensures Lookup(s.node, s0.ext[m], e) == Lookup(s0.node, s0.ext[m], e) {
        SubLookup(s0.node, s.node, s0.ext[m], e);
      }
    }
  }

  lemma PushPlace(s0: State, s: State, it: nat, ptrs: seq<Ref>, kid: Ref)
    requires WellFormed(s0) && OnlyFrames(s0, s, it, ptrs) && |ptrs| < L && kid in s.node && s.node[kid].level == L - 1 - |ptrs|
    ensures OnlyFrames(s0, Shared(s, Frame(it, |ptrs|), kid), it, ptrs + [kid])
  {
    SharedOk(s, Frame(it, |ptrs|), kid);
  }

  /** Where the search stands: the stack, and the part of the key written so far. */
  ghost predicate Searching(node0: map<Ref, Node>, root: Ref, from: Digits, ptrs: seq<Ref>, idx: seq<int>, key: Digits) {
    && Linked(node0, ptrs, idx) && Position(node0, root, from, idx) && (ptrs != [] ==> ptrs[0] == root)
    && |key| == L && (forall k :: 0 <= k < |idx| - 1 ==> key[k] == idx[k])
  }

  /** The node of the top frame is what it was when the search began. */
  lemma TopNode(s0: State, s: State, it: nat, ptrs: seq<Ref>)
    requires OnlyFrames(s0, s, it, ptrs) && |ptrs| > 0
    ensures Frame(it, |ptrs| - 1) in s.ext && s.ext[Frame(it, |ptrs| - 1)] == ptrs[|ptrs| - 1] != 0
    ensures ptrs[|ptrs| - 1] in s.node && ptrs[|ptrs| - 1] in s0.node && s.node[ptrs[|ptrs| - 1]] == s0.node[ptrs[|ptrs| - 1]]
  {
    assert Frame(it, |ptrs| - 1) in s.ext;
    assert LocOk(s, Frame(it, |ptrs| - 1));
  }

  lemma SearchDown(node0: map<Ref, Node>, root: Ref, from: Digits, ptrs: seq<Ref>, idx: seq<int>, key: Digits, t: nat)
    requires Searching(node0, root, from, ptrs, idx, key) && 0 < |idx| < L && idx[|idx| - 1] < t < W
    requires Hit(node0[ptrs[|idx| - 1]], t) && Position(node0, root, from, idx[..|idx| - 1] + [t - 1])
    ensures node0[ptrs[|idx| - 1]].level == L - |idx| && t < |node0[ptrs[|idx| - 1]].kids|
    ensures node0[ptrs[|idx| - 1]].kids[t] != 0
    ensures var idx' := idx[..|idx| - 1] + [t, -1];
            && Searching(node0, root, from, ptrs + [node0[ptrs[|idx| - 1]].kids[t]], idx', key[|idx| - 1 := t])
            && Work(idx') < Work(idx)
  {
    PushFrame(node0, ptrs, from, idx, t - 1);
    PushWork(idx, t);
  }

  lemma NothingPending(node0: map<Ref, Node>, root: Ref, from: Digits)
    requires Position(node0, root, from, [])
    ensures forall e: Digits :: !Pending(node0, root, from, e)
  {
    forall e: Digits ensures !Pending(node0, root, from, e) {
      assert !LexLess([], e[..0]);
    }
  }

  lemma KidPlace(s: State, p: Ref, t: nat)
    requires WellFormed(s) && p in s.node && s.node[p].level > 0 && t < |s.node[p].kids| && s.node[p].kids[t] != 0
    ensures s.node[p].kids[t] in s.node && s.node[s.node[p].kids[t]].level == s.node[p].level - 1
  {
    assert NodeOk(s.node, p);
    assert IsPtr(s.node, s.node[p].kids[t], s.node[p].level - 1);
  }

  lemma PopPlace(s0: State, s: State, s2: State, it: nat, ptrs: seq<Ref>)
    requires OnlyFrames(s0, s, it, ptrs) && |ptrs| > 0
    requires WellFormed(s2) && CountsOk(s2, multiset{}) && Freed(Unplaced(s, Frame(it, |ptrs| - 1)), s2)
    ensures OnlyFrames(s0, s2, it, ptrs[..|ptrs| - 1])
  {
  }

  /** An iterator at rest after its move; the other iterators and the tries are as before. */
  lemma MoveKeeps(s0: State, s: State, it: nat, i: Iter, ptrs: seq<Ref>, size: map<nat, nat>, iters: map<nat, Iter>)
    requires WellFormed(s0) && OnlyFrames(s0, s, it, ptrs) && Linked(s0.node, ptrs, i.idx) && |i.key| == L
    requires TriesOk(s0, size) && ItersApart(s0, iters, it)
    requires i.idx != [] ==> |i.idx| == L && i.idx == i.key && ValidDigits(i.key, L)
    requires i.idx != [] ==> Lookup(s0.node, ptrs[0], i.key) == i.val != Empty
    ensures TriesOk(s, size) && ItersOk(s, iters[it := i])
  {
    OnlyFramesSame(s0, s, it, ptrs);
    TriesKept(s0, s, FramesOf(it), size);
    var iters' := iters[it := i];
    forall j | j in iters' ensures IterOk(s, j, iters'[j]) {
      if j != it {
        assert IterOk(s0, j, iters[j]);
        IterKept(s0, s, FramesOf(it), j, iters[j]);
      } else if i.idx != [] {
        MovedOk(s0, s, it, i, ptrs);
      }
    }
  }

  lemma MovedOk(s0: State, s: State, it: nat, i: Iter, ptrs: seq<Ref>)
    requires WellFormed(s0) && OnlyFrames(s0, s, it, ptrs) && Linked(s0.node, ptrs, i.idx)
    requires |i.idx| == L && i.idx == i.key && ValidDigits(i.key, L) && Lookup(s0.node, ptrs[0], i.key) == i.val != Empty
    ensures IterOk(s, it, i)
  {
    assert Ptrs(s, it, L) == ptrs;
    forall k: nat | k < L ensures ptrs[k] in s.node && s.node[ptrs[k]] == s0.node[ptrs[k]] {
      assert Frame(it, k) in s.ext;
      assert LocOk(s, Frame(it, k));
    }
    forall k: nat | k < L ensures FrameAt(s.node, ptrs, i.idx, k) {
      assert FrameAt(s0.node, ptrs, i.idx, k);
    }
    SubLookup(s0.node, s.node, ptrs[0], i.key);
  }

  /** All iterators but `it` are at rest and the frames of the others are theirs. */
  ghost predicate ItersApart(s: State, iters: map<nat, Iter>, it: nat) {
    && (forall j, k: nat :: j != it ==> (Frame(j, k) in s.ext <==> j in iters && k < |iters[j].idx|))
    && forall j {:trigger IterOk(s, j, iters[j])} :: j in iters && j != it ==> IterOk(s, j, iters[j])
  }

  /** The one frame a new iterator starts with. */
  lemma FirstFrame(s: State, it: nat, t: nat, size: map<nat, nat>, iters: map<nat, Iter>)
    requires WellFormed(s) && CountsOk(s, multiset{}) && TriesOk(s, size) && ItersOk(s, iters)
    requires Trie(t) in s.ext && s.ext[Trie(t)] != 0 && it !in iters
    requires WellFormed(Shared(s, Frame(it, 0), s.ext[Trie(t)])) && CountsOk(Shared(s, Frame(it, 0), s.ext[Trie(t)]), multiset{})
    requires OthersSame(s, Shared(s, Frame(it, 0), s.ext[Trie(t)]), {})
    ensures var root := s.ext[Trie(t)];
            var s0 := Shared(s, Frame(it, 0), root);
            && OnlyFrames(s0, s0, it, [root]) && TriesOk(s0, size) && ItersApart(s0, iters, it)
            && Searching(s0.node, root, [], [root], [-1], seq(L, _ => 0))
  {
    var root := s.ext[Trie(t)];
    var s0 := Shared(s, Frame(it, 0), root);
    assert LocOk(s, Trie(t));
    StartPosition(s0.node, root, [], [-1]);
    assert FrameAt(s0.node, [root], [-1], 0);
    TriesKept(s, s0, {}, size);
    forall j | j in iters && j != it ensures IterOk(s0, j, iters[j]) {
      assert IterOk(s, j, iters[j]);
      IterKept(s, s0, {}, j, iters[j]);
    }
  }

  // ---------- whole iterations ----------

  /** `q` lists the entries with the keys `seen`, in ascending order. */
  ghost predicate Listed(node0: map<Ref, Node>, root: Ref, seen: seq<Digits>, q: seq<(nat, Value)>) {
    && |q| == |seen|
    && (forall i :: 0 <= i < |q| ==> ValidDigits(seen[i], L) && q[i] == (KeyOf(seen[i]), Lookup(node0, root, seen[i])))
    && (forall i :: 0 <= i < |q| ==> q[i].1 != Empty)
    && forall i, j :: 0 <= i < j < |q| ==> LexLess(seen[i], seen[j])
  }

  /** The entries not yet seen start at the iterator's position. */
  ghost predicate Upto(node0: map<Ref, Node>, root: Ref, seen: seq<Digits>, i: Iter) {
    && (i.idx != [] ==> Pending(node0, root, [], i.key) && i.val == Lookup(node0, root, i.key))
    && (i.idx != [] ==> forall k :: 0 <= k < |seen| ==> LexLess(seen[k], i.key))
    && (forall e: Digits {:trigger Pending(node0, root, [], e)} ::
          Pending(node0, root, [], e) ==> e in seen || (i.idx != [] && (e == i.key || LexLess(i.key, e))))
  }

  /** The trie iterated over still shows what it showed at the beginning, and the iterator is
      on that trie's nodes. */
  ghost predicate Iterating(s: State, t: nat, it: nat, i: Iter, node0: map<Ref, Node>, root: Ref) {
    && Trie(t) in s.ext && s.ext[Trie(t)] == root
    && (forall e {:trigger Lookup(s.node, root, e)} :: |e| == L ==> Lookup(s.node, root, e) == Lookup(node0, root, e))
    && (i.idx != [] ==> Frame(it, 0) in s.ext && s.ext[Frame(it, 0)] == root && ValidDigits(i.key, L) && KeyOf(i.key) < Keys(L))
  }

  lemma IteratingNext(s1: State, s2: State, t: nat, it: nat, i: Iter, i2: Iter, node0: map<Ref, Node>, root: Ref)
    requires Iterating(s1, t, it, i, node0, root) && OthersSame(s1, s2, FramesOf(it))
    requires i2.idx != [] ==> Frame(it, 0) in s2.ext && s2.ext[Frame(it, 0)] == root && ValidDigits(i2.key, L)
    requires i2.idx != [] ==> KeyOf(i2.key) < Keys(L)
    ensures Iterating(s2, t, it, i2, node0, root)
  {
    assert SameAt(s1, s2, Trie(t));
  }

  lemma Started(s0: State, s: State, t: nat, it: nat, i: Iter)
    requires Trie(t) in s0.ext && OthersSame(s0, s, FramesOf(it))
    requires i.idx == [] ==> forall e: Digits :: !Pending(s0.node, s0.ext[Trie(t)], [], e)
    requires i.idx != [] ==> Frame(it, 0) in s.ext && s.ext[Frame(it, 0)] == s0.ext[Trie(t)]
    requires i.idx != [] ==> IsNext(s0.node, s0.ext[Trie(t)], [], i.key) && i.val == Lookup(s0.node, s0.ext[Trie(t)], i.key)
    ensures Iterating(s, t, it, i, s0.node, s0.ext[Trie(t)])
    ensures Listed(s0.node, s0.ext[Trie(t)], [], []) && Upto(s0.node, s0.ext[Trie(t)], [], i)
  {
    assert SameAt(s0, s, Trie(t));
    if i.idx != [] {
      DigitsInverse(i.key, L);
    }
  }

  lemma ListedAdd(node0: map<Ref, Node>, root: Ref, seen: seq<Digits>, q: seq<(nat, Value)>, i: Iter)
    requires Listed(node0, root, seen, q) && Upto(node0, root, seen, i) && i.idx != []
    ensures Listed(node0, root, seen + [i.key], q + [(KeyOf(i.key), i.val)])
  {
  }

  lemma UptoNext(node0: map<Ref, Node>, node1: map<Ref, Node>, root: Ref, seen: seq<Digits>, i: Iter, i': Iter)
    requires Upto(node0, root, seen, i) && i.idx != [] && |i.key| == L
    requires forall e {:trigger Lookup(node1, root, e)} :: |e| == L ==> Lookup(node1, root, e) == Lookup(node0, root, e)
    requires i'.idx == [] ==> forall e: Digits :: !Pending(node1, root, i.key, e)
    requires i'.idx != [] ==> IsNext(node1, root, i.key, i'.key) && i'.val == Lookup(node1, root, i'.key)
    ensures Upto(node0, root, seen + [i.key], i')
    ensures i'.idx != [] ==> KeyOf(i.key) < KeyOf(i'.key) < Keys(L) && ValidDigits(i'.key, L)
  {
    if i'.idx != [] {
      assert Lookup(node1, root, i'.key) == Lookup(node0, root, i'.key);
      OrderOfKeys(i.key, i'.key, L);
      DigitsInverse(i'.key, L);
      forall k | 0 <= k < |seen + [i.key]| ensures LexLess((seen + [i.key])[k], i'.key) {
        if k < |seen| {
          LessTransitive(seen[k], i.key, i'.key);
        }
      }
    }
    forall e: Digits | Pending(node0, root, [], e)
      ensures e in seen + [i.key] || (i'.idx != [] && (e == i'.key || LexLess(i'.key, e)))
    {
      if e !in seen && e != i.key {
        assert Lookup(node1, root, e) == Lookup(node0, root, e);
        assert Pending(node1, root, i.key, e);
      }
    }
  }

  lemma ListedIsAll(s0: State, t: nat, node0: map<Ref, Node>, root: Ref, seen: seq<Digits>, q: seq<(nat, Value)>)
    requires Trie(t) in s0.ext && node0 == s0.node && root == s0.ext[Trie(t)] && Listed(node0, root, seen, q)
    requires forall e: Digits {:trigger Pending(node0, root, [], e)} :: Pending(node0, root, [], e) ==> e in seen
    ensures forall i, j :: 0 <= i < j < |q| ==> q[i].0 < q[j].0
    ensures forall k: nat, v :: (k, v) in q <==> k < Keys(L) && v != Empty && ValueAt(s0, Trie(t), DigitsOf(k, L)) == v
  {
    forall i, j | 0 <= i < j < |q| ensures q[i].0 < q[j].0 {
      OrderOfKeys(seen[i], seen[j], L);
    }
    forall k: nat, v ensures (k, v) in q <==> k < Keys(L) && v != Empty && ValueAt(s0, Trie(t), DigitsOf(k, L)) == v {
      if (k, v) in q {
        var i :| 0 <= i < |q| && q[i] == (k, v);
        DigitsInverse(seen[i], L);
      }
      if k < Keys(L) && v != Empty && ValueAt(s0, Trie(t), DigitsOf(k, L)) == v {
        KeyInverse(k, L);
        assert Pending(node0, root, [], DigitsOf(k, L));
        var i :| 0 <= i < |seen| && seen[i] == DigitsOf(k, L);
        assert q[i] == (k, v);
      }
    }
  }

  // ---------- making and emptying tries ----------

  lemma EmptyTrieSize(s: State, t: nat)
    requires WellFormed(s) && Trie(t) in s.ext && s.ext[Trie(t)] == 0
    ensures SizeOk(s, t, 0) && forall k: nat :: ValueAt(s, Trie(t), DigitsOf(k, L)) == Empty
  {
    assert Support(s.node, 0) == {};
  }

  lemma TrieAdded(s: State, s': State, t: nat, size: map<nat, nat>, n: nat, iters: map<nat, Iter>)
    requires WellFormed(s) && WellFormed(s') && TriesOk(s, size) && ItersOk(s, iters) && t !in size
    requires OthersSame(s, s', {}) && Trie(t) in s'.ext && s'.node == s.node && s'.ext == s.ext[Trie(t) := s'.ext[Trie(t)]]
    requires n == |Support(s.node, s'.ext[Trie(t)])| % U32 || (s'.ext[Trie(t)] == 0 && n == 0)
    ensures TriesOk(s', size[t := n]) && ItersOk(s', iters)
    ensures s'.ext[Trie(t)] == 0 ==> forall k: nat :: ValueAt(s', Trie(t), DigitsOf(k, L)) == Empty
  {
    if s'.ext[Trie(t)] == 0 {
      EmptyTrieSize(s', t);
    }
    var size' := size[t := n];
    forall u | u in size' ensures SizeOk(s', u, size'[u]) {
      if u != t {
        assert SizeOk(s, u, size[u]);
        SizeKept(s, s', {}, u, size[u]);
      }
    }
    ItersKept(s, s', {}, iters);
  }

  lemma TrieCleared(s: State, s1: State, s2: State, t: nat, size: map<nat, nat>, iters: map<nat, Iter>)
    requires WellFormed(s) && WellFormed(s1) && WellFormed(s2) && TriesOk(s, size) && ItersOk(s, iters) && t in size
    requires s1 == Store(s, Trie(t), 0) && OthersSame(s, s1, {Trie(t)}) && Freed(s1, s2)
    ensures TriesOk(s2, size[t := 0]) && ItersOk(s2, iters) && OthersSame(s, s2, {Trie(t)})
    ensures forall k: nat :: ValueAt(s2, Trie(t), DigitsOf(k, L)) == Empty
  {
    FreedSame(s1, s2);
    ChangesCompose(s, s1, s2, {Trie(t)}, {});
    assert {Trie(t)} + {} == {Trie(t)};
    EmptyTrieSize(s2, t);
    var size' := size[t := 0];
    forall u | u in size' ensures SizeOk(s2, u, size'[u]) {
      if u != t {
        assert SizeOk(s, u, size[u]);
        SizeKept(s, s2, {Trie(t)}, u, size[u]);
      }
    }
    ItersKept(s, s2, {Trie(t)}, iters);
  }

  lemma TrieGone(s: State, s1: State, s2: State, t: nat, size: map<nat, nat>, iters: map<nat, Iter>)
    requires WellFormed(s) && WellFormed(s1) && WellFormed(s2) && TriesOk(s, size) && ItersOk(s, iters) && t in size
    requires s1 == Unplaced(s, Trie(t)) && OthersSame(s, s1, {Trie(t)}) && Freed(s1, s2)
    ensures TriesOk(s2, size - {t}) && ItersOk(s2, iters) && OthersSame(s, s2, {Trie(t)})
  {
    FreedSame(s1, s2);
    ChangesCompose(s, s1, s2, {Trie(t)}, {});
    assert {Trie(t)} + {} == {Trie(t)};
    var size' := size - {t};
    forall u | u in size' ensures SizeOk(s2, u, size'[u]) {
      assert SizeOk(s, u, size[u]);
      SizeKept(s, s2, {Trie(t)}, u, size[u]);
    }
    ItersKept(s, s2, {Trie(t)}, iters);
  }

  lemma IterGone(s: State, it: nat, i: Iter, iters: map<nat, Iter>)
    requires ItersOk(s, iters[it := i]) && i.idx == []
    ensures ItersOk(s, iters - {it})
  {
    var iters', rest := iters[it := i], iters - {it};
    forall j | j in rest ensures IterOk(s, j, rest[j]) {
      assert IterOk(s, j, iters'[j]);
    }
  }

  /** The frames of an iterator that is not there are nobody's. */
  lemma NobodySees(s: State, s': State, it: nat, iters: map<nat, Iter>)
    requires FramesOk(s, iters) && it !in iters && OthersSame(s, s', FramesOf(it))
    ensures OthersSame(s, s', {})
  {
    forall m | m in s.ext ensures m in s'.ext && SameAt(s, s', m) {
      assert m !in FramesOf(it);
      assert m in s'.ext && SameAt(s, s', m);
    }
  }

  lemma FreedOnce(s: State, r: Ref, s': State)
    requires Freed(Removed(s, r), s')
    ensures Freed(s, s')
  {
  }

  lemma BumpOne(count: map<Ref, nat>, kids: seq<Ref>, c: Ref)
    ensures c in count ==> Bump(count, kids + [c]) == Bump(count, kids)[c := Bump(count, kids)[c] + 1]
    ensures c !in count ==> Bump(count, kids + [c]) == Bump(count, kids)
  {
    assert multiset(kids + [c]) == multiset(kids) + multiset{c};
  }

  class Tries {
    var node: map<Ref, Node>
    var count: map<Ref, nat>
    var ext: map<Loc, Ref>
    var next: Ref
    var size: map<nat, nat>
    var iters: map<nat, Iter>

    ghost function St(): State
      reads this
    {
      State(node, count, ext)
    }

    ghost predicate MemOk()
      reads this
    {
      && WellFormed(St()) && CountsOk(St(), multiset{})
      && next > 0 && forall r :: r in node ==> r < next
    }

    ghost predicate Valid()
      reads this
    {
      MemOk() && TriesOk(St(), size) && ItersOk(St(), iters)
    }

    /** The value trie `t` holds under `key`. */
    ghost function Get(t: nat, key: nat): Value
      reads this
    {
      ValueAt(St(), Trie(t), DigitsOf(key, L))
    }

    constructor ()
      ensures Valid() && size == map[] && iters == map[]
    {
      node, count, ext, next, size, iters := map[], map[], map[], 1, map[], map[];
    }

    // ---------- the walk ----------

    function Read(l: Loc): Ref
      reads this
      requires ValidLoc(St(), l)
    {
      if l.Slot? then node[l.r].kids[l.i] else ext[l]
    }

    method Write(l: Loc, x: Ref)
      requires ValidLoc(St(), l)
      modifies this`node, this`ext
      ensures St() == Store(old(St()), l, x)
    {
      if l.Slot? {
        node := node[l.r := node[l.r].(kids := node[l.r].kids[l.i := x])];
      } else {
        ext := ext[l := x];
      }
    }

    /** Copying a node's pointers adds a reference to each of their targets. */
    method AddReferences(kids: seq<Ref>)
      requires node.Keys == count.Keys && 0 !in node && forall c :: c in kids ==> c == 0 || c in node
      modifies this`count
      ensures count == Bump(old(count), kids)
    {
      for i := 0 to |kids|
        invariant count == Bump(old(count), kids[..i])
      {
        assert kids[..i + 1] == kids[..i] + [kids[i]];
        BumpOne(old(count), kids[..i], kids[i]);
        if kids[i] != 0 {
          count := count[kids[i] := count[kids[i]] + 1];
        }
      }
      assert kids[..|kids|] == kids;
    }

    method Fill(l: Loc, level: nat)
      requires ValidLoc(St(), l) && (forall r :: r in node ==> r < next)
      modifies this`node, this`count, this`ext, this`next
      ensures next == old(next) + 1 && (forall r :: r in node ==> r < next)
      ensures St() == Filled(old(St()), l, old(next), level)
    {
      var n := next;
      node, count, next := node[n := Blank(level)], count[n := 1], next + 1;
      Write(l, n);
    }

    method Copy(l: Loc)
      requires WellFormed(St()) && ValidLoc(St(), l) && Load(St(), l) in node && count[Load(St(), l)] > 1
      requires forall r :: r in node ==> r < next
      modifies this`node, this`count, this`ext, this`next
      ensures next == old(next) + 1 && (forall r :: r in node ==> r < next)
      ensures St() == Copied(old(St()), l, old(next))
    {
      var r, n := Read(l), next;
      KidsExist(St(), r);
      AddReferences(node[r].kids);
      node, next := node[n := node[r]], next + 1;
      count := count[r := count[r] - 1][n := 1];
      Write(l, n);
    }

    /** The head of `walk`: a missing node is created, a shared one copied. */
    method Open(l: Loc, level: nat)
      requires MemOk() && ValidLoc(St(), l) && LocLevel(St(), l) == level
      modifies this`node, this`count, this`ext, this`next
      ensures MemOk() && Opened(old(St()), St(), l, level + 1)
    {
      ghost var s := St();
      LoadOk(s, l);
      if Read(l) == 0 {
        FilledOpens(s, l, next, level);
        Fill(l, level);
        return;
      }
      CountPositive(s, l);
      if count[Read(l)] != 1 {
        CopiedOpens(s, l, next);
        Copy(l);
      } else {
        UniqueOpens(s, l);
      }
    }

    /** The non-const `walk`: makes the path of `key` private and returns the place of the value. */
    method Walk(l: Loc, key: nat, level: nat) returns (leaf: Ref, i: nat)
      requires MemOk() && ValidLoc(St(), l) && LocLevel(St(), l) == level
      modifies this`node, this`count, this`ext, this`next
      ensures MemOk() && Walked(old(St()), St(), l, DigitsOf(key, level + 1))
      ensures leaf == PathEnd(St(), l, DigitsOf(key, level + 1)) && i == key % W
      decreases level
    {
      ghost var s, d := St(), DigitsOf(key, level + 1);
      Open(l, level);
      ghost var s1 := St();
      var idx := Digit(key, level);
      DigitAt(key, level + 1, level);
      if level > 0 {
        DigitsTail(key, level + 1);
        assert NodeOk(node, Read(l));
        leaf, i := Walk(Slot(Read(l), idx), key, level - 1);
        WalkStep(s, s1, St(), l, d);
      } else {
        leaf, i := Read(l), idx;
        WalkBase(s, s1, l, d);
      }
    }

    /** The const `walk`: reads without touching anything. */
    method Peek(r: Ref, key: nat, level: nat) returns (v: Value)
      requires WellFormed(St()) && IsPtr(node, r, level)
      ensures v == Lookup(node, r, DigitsOf(key, level + 1))
      decreases level
    {
      if r == 0 {
        return Empty;
      }
      var idx := Digit(key, level);
      DigitAt(key, level + 1, level);
      assert NodeOk(node, r);
      if level > 0 {
        DigitsTail(key, level + 1);
        assert IsPtr(node, node[r].kids[idx], level - 1);
        v := Peek(node[r].kids[idx], key, level - 1);
      } else {
        v := node[r].vals[idx];
      }
    }

    method GetIfPresent(t: nat, key: nat) returns (v: Value)
      requires Valid() && t in size
      ensures v == Get(t, key)
    {
      assert LocOk(St(), Trie(t));
      v := Peek(ext[Trie(t)], key, L - 1);
    }

    /** Walks to the place of `key` in trie `t`; nobody sees a change. */
    method Locate(t: nat, key: nat, ghost d: Digits) returns (leaf: Ref, i: nat)
      requires MemOk() && Trie(t) in ext && d == DigitsOf(key, L)
      modifies this`node, this`count, this`ext, this`next
      ensures MemOk() && NothingSeen(old(St()), St(), t) && Trie(t) in ext
      ensures PathOwned(St(), Trie(t), d) && leaf == PathEnd(St(), Trie(t), d) && i == d[L - 1] < W
      ensures |node[leaf].vals| == W && node[leaf].vals[i] == old(ValueAt(St(), Trie(t), d))
    {
      ghost var s := St();
      leaf, i := Walk(Trie(t), key, L - 1);
      WalkUnseen(s, St(), t, d);
    }

    /** Writes through the place a walk has handed out. */
    method Put(t: nat, ghost d: Digits, leaf: Ref, i: nat, value: Value, ghost s: State)
      requires MemOk() && NothingSeen(s, St(), t) && Trie(t) in ext
      requires |d| == L && PathOwned(St(), Trie(t), d) && leaf == PathEnd(St(), Trie(t), d) && i == d[L - 1] < W
      requires |node[leaf].vals| == W
      modifies this`node
      ensures MemOk() && OneKeySeen(s, St(), t, d, value)
    {
      WriteSeen(s, St(), t, d, value);
      node := node[leaf := node[leaf].(vals := node[leaf].vals[i := value])];
    }

    /** One key of one trie gets a value; no other key, trie or iterator notices. */
    method Set(t: nat, key: nat, value: Value)
      requires Valid() && t in size && key < Keys(L)
      modifies this
      ensures Valid() && size.Keys == old(size).Keys && iters == old(iters)
      ensures OneKeySeen(old(St()), St(), t, DigitsOf(key, L), value)
    {
      ghost var s, d := St(), DigitsOf(key, L);
      var leaf, i := Locate(t, key, d);
      var b := node[leaf].vals[i] != Empty;
      var a := value != Empty;
      size := size[t := NewSize(size[t], b, a)];
      Put(t, d, leaf, i, value, s);
      SetKeeps(s, St(), t, key, d, value, old(size), size, iters);
    }

    method Unset(t: nat, key: nat)
      requires Valid() && t in size && key < Keys(L)
      modifies this
      ensures Valid() && size.Keys == old(size).Keys && iters == old(iters)
      ensures OneKeySeen(old(St()), St(), t, DigitsOf(key, L), Empty)
    {
      Set(t, key, Empty);
    }

    /** As `Set`, but only where there is no entry yet; says whether there was none. */
    method SetIfMissing(t: nat, key: nat, value: Value) returns (missing: bool)
      requires Valid() && t in size && key < Keys(L)
      modifies this
      ensures Valid() && size.Keys == old(size).Keys && iters == old(iters)
      ensures missing <==> old(Get(t, key)) == Empty
      ensures missing && value != Empty ==> OneKeySeen(old(St()), St(), t, DigitsOf(key, L), value)
      ensures !missing || value == Empty ==> NothingSeen(old(St()), St(), t) && size == old(size)
    {
      ghost var s, d := St(), DigitsOf(key, L);
      var leaf, i := Locate(t, key, d);
      missing := node[leaf].vals[i] == Empty;
      if !missing || value == Empty {
        UnseenKeeps(s, St(), t, size, iters);
        return;
      }
      size := size[t := (size[t] + 1) % U32];
      Put(t, d, leaf, i, value, s);
      SetKeeps(s, St(), t, key, d, value, old(size), size, iters);
    }

    /** The lookup that goes through the non-const walk: it may copy, but nobody notices. */
    method GetUnsharedIfPresent(t: nat, key: nat) returns (v: Value)
      requires Valid() && t in size
      modifies this`node, this`count, this`ext, this`next
      ensures Valid() && v == old(Get(t, key)) && NothingSeen(old(St()), St(), t)
    {
      ghost var s, d := St(), DigitsOf(key, L);
      var leaf, i := Locate(t, key, d);
      v := node[leaf].vals[i];
      UnseenKeeps(s, St(), t, size, iters);
    }

    // ---------- references ----------

    /** Gives up one reference; a node losing its last one is destroyed and gives up those it
        holds itself. */
    method Release(r: Ref, ghost debt: multiset<Ref>)
      requires WellFormed(St()) && r in node && CountsOk(St(), debt + multiset{r})
      requires forall x :: x in debt ==> x == 0 || x in node
      modifies this`node, this`count
      ensures WellFormed(St()) && CountsOk(St(), debt) && Freed(old(St()), St())
      ensures forall x :: x in debt ==> x == 0 || x in node
      decreases node[r].level, 1
    {
      ghost var s := St();
      if count[r] > 1 {
        DecrementOk(s, r, debt);
        count := count[r := count[r] - 1];
        return;
      }
      CountOfDebt(s, r, debt);
      RemovedOk(s, r, debt);
      var kids := node[r].kids;
      ghost var level := node[r].level;
      node, count := node - {r}, count - {r};
      KidsAreLower(s, r);
      ReleaseKids(kids, debt, level);
      FreedOnce(s, r, St());
    }

    /** The pointers of a node that is gone, one after the other. */
    method ReleaseKids(kids: seq<Ref>, ghost debt: multiset<Ref>, ghost level: nat)
      requires WellFormed(St()) && CountsOk(St(), debt + multiset(kids))
      requires forall x :: x in debt + multiset(kids) ==> x == 0 || x in node
      requires forall x :: x in kids && x in node ==> node[x].level < level
      modifies this`node, this`count
      ensures WellFormed(St()) && CountsOk(St(), debt) && Freed(old(St()), St())
      ensures forall x :: x in debt ==> x == 0 || x in node
      decreases level, 0
    {
      assert kids[0..] == kids;
      for i := 0 to |kids|
        invariant WellFormed(St()) && CountsOk(St(), debt + multiset(kids[i..])) && Freed(old(St()), St())
        invariant forall x :: x in debt + multiset(kids[i..]) ==> x == 0 || x in node
        invariant forall x :: x in kids && x in node ==> node[x].level < level
      {
        assert kids[i..] == [kids[i]] + kids[i + 1..];
        ghost var rest := debt + multiset(kids[i + 1..]);
        assert debt + multiset(kids[i..]) == rest + multiset{kids[i]};
        if kids[i] != 0 {
          Release(kids[i], rest);
        } else {
          NullDebt(St(), rest);
        }
      }
      assert kids[|kids|..] == [];
      assert debt + multiset(kids[|kids|..]) == debt;
    }

    /** A pointer of a trie or an iterator is dropped. */
    method Drop(l: Loc)
      requires MemOk() && l in ext && ext[l] != 0
      modifies this`node, this`count, this`ext
      ensures MemOk() && Freed(Unplaced(old(St()), l), St())
    {
      ghost var s := St();
      assert LocOk(s, l);
      UnplacedOk(s, l);
      var r := ext[l];
      ext := ext - {l};
      assert multiset{} + multiset{r} == multiset{r};
      Release(r, multiset{});
    }

    /** The inner loop: the next slot of a node that leads anywhere. */
    method Scan(nd: Node, i: int, ghost node0: map<Ref, Node>, ghost ptrs: seq<Ref>, ghost from: Digits, ghost idx: seq<int>)
      returns (t: nat)
      requires |idx| > 0 && Linked(node0, ptrs, idx) && idx[|idx| - 1] == i && nd == node0[ptrs[|idx| - 1]]
      requires Position(node0, ptrs[0], from, idx)
      ensures i < t <= W && (t < W ==> Hit(nd, t))
      ensures Position(node0, ptrs[0], from, idx[..|idx| - 1] + [t - 1])
    {
      assert FrameAt(node0, ptrs, idx, |idx| - 1);
      assert idx == idx[..|idx| - 1] + [i];
      t := i + 1;
      while t < W && !Hit(nd, t)
        invariant i < t <= W
        invariant Position(node0, ptrs[0], from, idx[..|idx| - 1] + [t - 1])
      {
        SkipSlot(node0, ptrs, from, idx, t - 1);
        t := t + 1;
      }
    }

    /** A new pointer to `r`. */
    method Share(l: Loc, r: Ref)
      modifies this`count, this`ext
      ensures St() == Shared(old(St()), l, r)
    {
      ext := ext[l := r];
      if r in count {
        count := count[r := count[r] + 1];
      }
    }

    /** Push a frame for the node in slot `t` of the top frame. */
    method Descend(it: nat, idx1: seq<int>, key1: Digits, t: nat, ghost s0: State, ghost root: Ref, ghost from: Digits,
                   ghost ptrs1: seq<Ref>)
      returns (idx: seq<int>, key: Digits, ghost ptrs: seq<Ref>)
      requires MemOk() && WellFormed(s0) && OnlyFrames(s0, St(), it, ptrs1) && Searching(s0.node, root, from, ptrs1, idx1, key1)
      requires 0 < |idx1| < L && idx1[|idx1| - 1] < t < W && Hit(s0.node[ptrs1[|idx1| - 1]], t)
      requires Position(s0.node, root, from, idx1[..|idx1| - 1] + [t - 1])
      modifies this`count, this`ext
      ensures MemOk() && OnlyFrames(s0, St(), it, ptrs) && Searching(s0.node, root, from, ptrs, idx, key) && Work(idx) < Work(idx1)
    {
      var m := |idx1|;
      TopNode(s0, St(), it, ptrs1);
      SearchDown(s0.node, root, from, ptrs1, idx1, key1, t);
      var p := ext[Frame(it, m - 1)];
      var kid := node[p].kids[t];
      key := key1[m - 1 := t];
      idx := idx1[..m - 1] + [t, -1];
      ptrs := ptrs1 + [kid];
      KidPlace(St(), p, t);
      PushPlace(s0, St(), it, ptrs1, kid);
      Share(Frame(it, m), kid);
    }

    /** Pop the exhausted top frame. */
    method Leave(it: nat, idx1: seq<int>, ghost key: Digits, ghost s0: State, ghost root: Ref, ghost from: Digits, ghost ptrs1: seq<Ref>)
      returns (idx: seq<int>, ghost ptrs: seq<Ref>)
      requires MemOk() && OnlyFrames(s0, St(), it, ptrs1) && Searching(s0.node, root, from, ptrs1, idx1, key)
      requires |idx1| > 0 && Position(s0.node, root, from, idx1[..|idx1| - 1] + [W - 1])
      modifies this`node, this`count, this`ext
      ensures MemOk() && OnlyFrames(s0, St(), it, ptrs) && Searching(s0.node, root, from, ptrs, idx, key) && Work(idx) < Work(idx1)
    {
      var m := |idx1|;
      ghost var s := St();
      TopNode(s0, s, it, ptrs1);
      assert FrameAt(s0.node, ptrs1, idx1, m - 1);
      PopFrame(s0.node, ptrs1, from, idx1);
      PopWork(idx1);
      Drop(Frame(it, m - 1));
      PopPlace(s0, s, St(), it, ptrs1);
      idx, ptrs := idx1[..m - 1], ptrs1[..m - 1];
    }

    /** The entry in slot `t` of a leaf is the next one. */
    method Found(nd: Node, idx1: seq<int>, key1: Digits, t: nat, ghost node0: map<Ref, Node>, ghost root: Ref,
                 ghost from: Digits, ghost ptrs: seq<Ref>)
      returns (idx: seq<int>, key: Digits, val: Value)
      requires Searching(node0, root, from, ptrs, idx1, key1) && |idx1| == L && idx1[L - 1] < t < W
      requires nd == node0[ptrs[L - 1]] && Hit(nd, t) && Position(node0, root, from, idx1[..L - 1] + [t - 1])
      ensures |idx| == L && idx == key && Linked(node0, ptrs, idx)
      ensures IsNext(node0, root, from, key) && val == Lookup(node0, root, key)
    {
      assert FrameAt(node0, ptrs, idx1, L - 1);
      ghost var found := FoundFirst(node0, ptrs, from, idx1, t - 1);
      val := nd.vals[t];
      key := key1[L - 1 := t];
      idx := idx1[..L - 1] + [t];
      assert key == idx;
    }

    /** The loop of the iterator's increment: descends into nodes and leaves exhausted ones
        until it finds an entry or runs out. */
    method Advance(it: nat, idx0: seq<int>, key0: Digits, ghost root: Ref, ghost from: Digits, ghost ptrs0: seq<Ref>)
      returns (idx: seq<int>, key: Digits, val: Value, ghost ptrs: seq<Ref>)
      requires MemOk() && OnlyFrames(St(), St(), it, ptrs0) && Searching(node, root, from, ptrs0, idx0, key0)
      modifies this`node, this`count, this`ext
      ensures MemOk() && OnlyFrames(old(St()), St(), it, ptrs) && Linked(old(node), ptrs, idx) && |key| == L
      ensures idx == [] ==> forall e: Digits :: !Pending(old(node), root, from, e)
      ensures idx != [] ==> idx == key && IsNext(old(node), root, from, key) && ptrs[0] == root
      ensures idx != [] ==> val == Lookup(old(node), root, key)
    {
      idx, key, val, ptrs := idx0, key0, Empty, ptrs0;
      ghost var s0 := St();
      while idx != []
        invariant MemOk() && OnlyFrames(s0, St(), it, ptrs) && Searching(s0.node, root, from, ptrs, idx, key)
        decreases Work(idx)
      {
        var m := |idx|;
        TopNode(s0, St(), it, ptrs);
        var nd := node[ext[Frame(it, m - 1)]];
        var t := Scan(nd, idx[m - 1], s0.node, ptrs, from, idx);
        if t < W && m == L {
          idx, key, val := Found(nd, idx, key, t, s0.node, root, from, ptrs);
          return;
        }
        if t < W {
          idx, key, ptrs := Descend(it, idx, key, t, s0, root, from, ptrs);
        } else {
          idx, ptrs := Leave(it, idx, key, s0, root, from, ptrs);
        }
      }
      NothingPending(s0.node, root, from);
    }

    /** `operator++`: on to the first entry after the current one, of the trie as it was when
        the iterator was made. At the end it stays there. */
    method Next(it: nat)
      requires Valid() && it in iters
      modifies this`node, this`count, this`ext, this`iters
      ensures Valid() && OthersSame(old(St()), St(), FramesOf(it)) && it in iters && iters == old(iters)[it := iters[it]]
      ensures old(iters[it].idx) == [] ==> St() == old(St()) && iters == old(iters)
      ensures old(iters[it].idx) != [] && iters[it].idx == [] ==> forall e: Digits :: !Pending(old(node), old(ext[Frame(it, 0)]), old(iters[it].key), e)
      ensures iters[it].idx != [] ==> ext[Frame(it, 0)] == old(ext[Frame(it, 0)])
      ensures iters[it].idx != [] ==> IsNext(old(node), old(ext[Frame(it, 0)]), old(iters[it].key), iters[it].key)
      ensures iters[it].idx != [] ==> iters[it].val == Lookup(old(node), old(ext[Frame(it, 0)]), iters[it].key)
    {
      ghost var s0 := St();
      var i := iters[it];
      if i.idx == [] {
        FreedSame(s0, s0);
        OthersWeaken(s0, s0, {}, FramesOf(it));
        return;
      }
      assert IterOk(s0, it, i);
      ghost var ptrs := Ptrs(s0, it, L);
      StartPosition(node, ptrs[0], i.key, i.idx);
      var idx, key, val;
      idx, key, val, ptrs := Advance(it, i.idx, i.key, ptrs[0], i.key, ptrs);
      MoveKeeps(s0, St(), it, Iter(idx, key, val), ptrs, size, iters);
      OnlyFramesSame(s0, St(), it, ptrs);
      iters := iters[it := Iter(idx, key, val)];
    }

    /** `begin()`: on the first entry of the trie. */
    method Begin(t: nat, it: nat)
      requires Valid() && t in size && it !in iters
      modifies this`node, this`count, this`ext, this`iters
      ensures Valid() && OthersSame(old(St()), St(), FramesOf(it)) && it in iters && iters == old(iters)[it := iters[it]]
      ensures iters[it].idx == [] ==> forall e: Digits :: !Pending(old(node), old(ext[Trie(t)]), [], e)
      ensures iters[it].idx != [] ==> ext[Frame(it, 0)] == old(ext[Trie(t)])
      ensures iters[it].idx != [] ==> IsNext(old(node), old(ext[Trie(t)]), [], iters[it].key)
      ensures iters[it].idx != [] ==> iters[it].val == Lookup(old(node), old(ext[Trie(t)]), iters[it].key)
    {
      ghost var s := St();
      assert LocOk(s, Trie(t));
      var root := ext[Trie(t)];
      var idx: seq<int>, key: Digits, val := [], seq(L, _ => 0), Empty;
      ghost var ptrs: seq<Ref> := [];
      if root == 0 {
        assert forall e: Digits :: !Pending(node, root, [], e);
        MoveKeeps(s, s, it, Iter(idx, key, val), ptrs, size, iters);
        FreedSame(s, s);
      } else {
        SharedOk(s, Frame(it, 0), root);
        FirstFrame(s, it, t, size, iters);
        Share(Frame(it, 0), root);
        ghost var s0 := St();
        idx, key, val, ptrs := Advance(it, [-1], key, root, [], [root]);
        MoveKeeps(s0, St(), it, Iter(idx, key, val), ptrs, size, iters);
        OnlyFramesSame(s0, St(), it, ptrs);
        ChangesCompose(s, s0, St(), {}, FramesOf(it));
        assert {} + FramesOf(it) == FramesOf(it);
      }
      iters := iters[it := Iter(idx, key, val)];
    }

    /** An iterator goes: its frames give up their pointers. */
    method EndIterator(it: nat)
      requires Valid() && it in iters
      modifies this`node, this`count, this`ext, this`iters
      ensures Valid() && iters == old(iters) - {it} && OthersSame(old(St()), St(), FramesOf(it))
    {
      ghost var s0 := St();
      var i := iters[it];
      assert IterOk(s0, it, i);
      var n := |i.idx|;
      ghost var ptrs := Ptrs(s0, it, n);
      while n > 0
        invariant MemOk() && OnlyFrames(s0, St(), it, ptrs) && |ptrs| == n && iters == old(iters)
      {
        ghost var s := St();
        TopNode(s0, s, it, ptrs);
        Drop(Frame(it, n - 1));
        PopPlace(s0, s, St(), it, ptrs);
        n, ptrs := n - 1, ptrs[..n - 1];
      }
      MoveKeeps(s0, St(), it, Iter([], i.key, Empty), [], size, iters);
      IterGone(St(), it, Iter([], i.key, Empty), iters);
      OnlyFramesSame(s0, St(), it, []);
      iters := iters - {it};
    }

    /** A whole iteration, from a new iterator to its end: every entry of the trie once, in ascending
        key order, and nobody sees a change. */
    method Contents(t: nat, it: nat) returns (q: seq<(nat, Value)>)
      requires Valid() && t in size && it !in iters
      modifies this`node, this`count, this`ext, this`iters
      ensures Valid() && iters == old(iters) && OthersSame(old(St()), St(), {})
      ensures forall i, j :: 0 <= i < j < |q| ==> q[i].0 < q[j].0
      ensures forall k: nat, v :: (k, v) in q <==> k < Keys(L) && v != Empty && old(Get(t, k)) == v
    {
      ghost var s0 := St();
      q := ListFrom(t, it);
      ghost var s1 := St();
      EndIterator(it);
      OthersTransitive(s0, s1, St(), FramesOf(it));
      NobodySees(s0, St(), it, old(iters));
    }

    method ListFrom(t: nat, it: nat) returns (q: seq<(nat, Value)>)
      requires Valid() && t in size && it !in iters
      modifies this`node, this`count, this`ext, this`iters
      ensures Valid() && it in iters && iters == old(iters)[it := iters[it]] && OthersSame(old(St()), St(), FramesOf(it))
      ensures forall i, j :: 0 <= i < j < |q| ==> q[i].0 < q[j].0
      ensures forall k: nat, v :: (k, v) in q <==> k < Keys(L) && v != Empty && old(Get(t, k)) == v
    {
      q := [];
      ghost var s0, root := St(), ext[Trie(t)];
      ghost var seen: seq<Digits> := [];
      Begin(t, it);
      Started(s0, St(), t, it, iters[it]);
      while iters[it].idx != []
        invariant Valid() && it in iters && iters == old(iters)[it := iters[it]] && OthersSame(s0, St(), FramesOf(it))
        invariant Iterating(St(), t, it, iters[it], s0.node, root)
        invariant Listed(s0.node, root, seen, q) && Upto(s0.node, root, seen, iters[it])
        decreases if iters[it].idx == [] then 0 else Keys(L) - KeyOf(iters[it].key)
      {
        ghost var s1 := St();
        q, seen := ListOne(t, it, q, s0.node, root, seen);
        OthersTransitive(s0, s1, St(), FramesOf(it));
      }
      ListedIsAll(s0, t, s0.node, root, seen, q);
    }

    method ListOne(t: nat, it: nat, q: seq<(nat, Value)>, ghost node0: map<Ref, Node>, ghost root: Ref, ghost seen: seq<Digits>)
      returns (q': seq<(nat, Value)>, ghost seen': seq<Digits>)
      requires Valid() && it in iters && iters[it].idx != [] && Iterating(St(), t, it, iters[it], node0, root)
      requires Listed(node0, root, seen, q) && Upto(node0, root, seen, iters[it])
      modifies this`node, this`count, this`ext, this`iters
      ensures Valid() && it in iters && iters == old(iters)[it := iters[it]] && OthersSame(old(St()), St(), FramesOf(it))
      ensures Iterating(St(), t, it, iters[it], node0, root)
      ensures Listed(node0, root, seen', q') && Upto(node0, root, seen', iters[it])
      ensures iters[it].idx != [] ==> KeyOf(old(iters[it].key)) < KeyOf(iters[it].key)
    {
      ghost var s1, i := St(), iters[it];
      q' := q + [(KeyOf(iters[it].key), iters[it].val)];
      ListedAdd(node0, root, seen, q, i);
      Next(it);
      UptoNext(node0, s1.node, root, seen, i, iters[it]);
      IteratingNext(s1, St(), t, it, i, iters[it], node0, root);
      seen' := seen + [i.key];
    }

    // ---------- making and emptying tries ----------

    method NewTrie(t: nat)
      requires Valid() && t !in size
      modifies this`count, this`ext, this`size
      ensures Valid() && size == old(size)[t := 0] && OthersSame(old(St()), St(), {})
      ensures forall k: nat :: Get(t, k) == Empty
    {
      ghost var s := St();
      SharedOk(s, Trie(t), 0);
      Share(Trie(t), 0);
      TrieAdded(s, St(), t, size, 0, iters);
      size := size[t := 0];
    }

    /** Copying a trie shares all its nodes. */
    method CopyTrie(src: nat, dst: nat)
      requires Valid() && src in size && dst !in size
      modifies this`count, this`ext, this`size
      ensures Valid() && size == old(size)[dst := old(size)[src]] && OthersSame(old(St()), St(), {})
      ensures forall k: nat :: Get(dst, k) == old(Get(src, k))
    {
      ghost var s := St();
      assert LocOk(s, Trie(src));
      assert SizeOk(s, src, size[src]);
      SharedOk(s, Trie(dst), ext[Trie(src)]);
      Share(Trie(dst), ext[Trie(src)]);
      TrieAdded(s, St(), dst, size, size[src], iters);
      size := size[dst := size[src]];
    }

    method Clear(t: nat)
      requires Valid() && t in size
      modifies this`node, this`count, this`ext, this`size
      ensures Valid() && size == old(size)[t := 0] && OthersSame(old(St()), St(), {Trie(t)})
      ensures forall k: nat :: Get(t, k) == Empty
    {
      ghost var s := St();
      assert LocOk(s, Trie(t));
      ClearedOk(s, Trie(t));
      var r := ext[Trie(t)];
      ext := ext[Trie(t) := 0];
      ghost var s1 := St();
      assert multiset{} + multiset{r} == multiset{r};
      if r != 0 {
        Release(r, multiset{});
      } else {
        NullDebt(s1, multiset{});
      }
      TrieCleared(s, s1, St(), t, size, iters);
      size := size[t := 0];
    }

    /** A trie goes: its root pointer is given up. */
    method EndTrie(t: nat)
      requires Valid() && t in size
      modifies this`node, this`count, this`ext, this`size
      ensures Valid() && size == old(size) - {t} && OthersSame(old(St()), St(), {Trie(t)})
    {
      ghost var s := St();
      assert LocOk(s, Trie(t));
      UnplacedOk(s, Trie(t));
      if ext[Trie(t)] != 0 {
        Drop(Trie(t));
      } else {
        ext := ext - {Trie(t)};
        assert multiset{} + multiset{0} == multiset{0};
        NullDebt(St(), multiset{});
      }
      TrieGone(s, Unplaced(s, Trie(t)), St(), t, size, iters);
      size := size - {t};
    }
  }
}
