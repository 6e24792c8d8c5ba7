/** The search an iterator makes with its explicit stack: which entry it finds, why it skips
    none, and why it stops. */
module TrieIterator {
  import opened TrieMemory
  import opened TrieView
  import opened TrieKeys

  // ---------- digit order ----------

  lemma LessExtends(a: seq<int>, b: seq<int>, u: seq<int>, v: seq<int>)
    requires LexLess(a, b)
    ensures LexLess(a + u, b + v)
  {
    var i: nat :| LessAt(a, b, i);
    assert (a + u)[..i] == a[..i] && (b + v)[..i] == b[..i];
    assert LessAt(a + u, b + v, i);
  }

  /** Nothing lies between a sequence and the one with its last digit increased. */
  lemma NextDigit(p: seq<int>, t: int, x: seq<int>)
    requires |x| == |p| + 1 && LexLess(p + [t], x)
    ensures x == p + [t + 1] || LexLess(p + [t + 1], x)
  {
    var i: nat :| LessAt(p + [t], x, i);
    if i < |p| {
      assert (p + [t + 1])[..i] == (p + [t])[..i];
      assert LessAt(p + [t + 1], x, i);
    } else {
      assert x[..i] == p && x == p + [x[i]] by {
        assert (p + [t])[..i] == p;
      }
      if x[i] != t + 1 {
        assert (p + [t + 1])[..i] == p;
        assert LessAt(p + [t + 1], x, i);
      }
    }
  }

  /** With the last digit exhausted the difference lies further up. */
  lemma LastExhausted(p: seq<int>, t: int, x: seq<int>)
    requires |x| == |p| + 1 && x[|p|] <= t && LexLess(p + [t], x)
    ensures LexLess(p, x[..|p|])
  {
    var i: nat :| LessAt(p + [t], x, i);
    assert (p + [t])[..i] == p[..i] && x[..|p|][..i] == x[..i];
    assert LessAt(p, x[..|p|], i);
  }

  lemma LastLess(p: seq<int>, t: int, u: int)
    requires t < u
    ensures LexLess(p + [t], p + [u])
  {
    assert (p + [t])[..|p|] == p && (p + [u])[..|p|] == p;
    assert LessAt(p + [t], p + [u], |p|);
  }

  lemma LessTransitive(a: seq<int>, b: seq<int>, c: seq<int>)
    requires LexLess(a, b) && LexLess(b, c)
    ensures LexLess(a, c)
  {
    var i: nat :| LessAt(a, b, i);
    var j: nat :| LessAt(b, c, j);
    var k := if i < j then i else j;
    assert a[..k] == a[..i][..k] && b[..k] == b[..i][..k] && b[..k] == b[..j][..k] && c[..k] == c[..j][..k];
    if i < j {
      assert b[..j][i] == b[i] && c[..j][i] == c[i];
    } else if j < i {
      assert a[..i][j] == a[j] && b[..i][j] == b[j];
    }
    assert LessAt(a, c, k);
  }

  // ---------- the stack ----------

  ghost predicate FrameAt(node: map<Ref, Node>, ptrs: seq<Ref>, idx: seq<int>, k: nat)
    requires k < |ptrs| == |idx|
  {
    && -1 <= idx[k] < W
    && (k > 0 ==>
          && ptrs[k - 1] in node && 0 <= idx[k - 1] < |node[ptrs[k - 1]].kids|
          && ptrs[k] == node[ptrs[k - 1]].kids[idx[k - 1]])
  }

  /** Each frame points to the node its parent's current slot holds. */
  ghost predicate Linked(node: map<Ref, Node>, ptrs: seq<Ref>, idx: seq<int>) {
    && |ptrs| == |idx| <= L && NodesOk(node)
    && (forall k: nat {:trigger ptrs[k]} :: k < |ptrs| ==> ptrs[k] in node && node[ptrs[k]].level == L - 1 - k)
    && forall k: nat {:trigger FrameAt(node, ptrs, idx, k)} :: k < |ptrs| ==> FrameAt(node, ptrs, idx, k)
  }

  lemma {:induction false} LookupThrough(node: map<Ref, Node>, ptrs: seq<Ref>, idx: seq<int>, m: nat, e: Digits)
    requires Linked(node, ptrs, idx) && m < |ptrs| && |e| == L && e[..m] == idx[..m]
    ensures Lookup(node, ptrs[0], e) == Lookup(node, ptrs[m], e[m..])
    decreases m
  {
    if m == 0 {
      assert e[0..] == e;
    } else {
      assert e[..m - 1] == e[..m][..m - 1] && idx[..m - 1] == idx[..m][..m - 1];
      LookupThrough(node, ptrs, idx, m - 1, e);
      assert FrameAt(node, ptrs, idx, m) && FrameAt(node, ptrs, idx, m - 1);
      assert e[m - 1] == e[..m][m - 1] == idx[m - 1];
      assert e[m - 1..][1..] == e[m..];
    }
  }

  /** Slot `t` of the top frame leads to something: an entry in a leaf, a node in a middle. */
  predicate Hit(nd: Node, t: nat) {
    if nd.level == 0 then t < |nd.vals| && nd.vals[t] != Empty else t < |nd.kids| && nd.kids[t] != 0
  }

  // ---------- what is still to come ----------

  /** An entry of the trie under `root` that comes after `from`; `[]` is before them all. */
  ghost predicate Pending(node: map<Ref, Node>, root: Ref, from: Digits, e: Digits) {
    ValidDigits(e, L) && Lookup(node, root, e) != Empty && (from == [] || LexLess(from, e))
  }

  /** Everything still to come lies after the position `idx`, and `idx` is not before `from`. */
  ghost predicate Position(node: map<Ref, Node>, root: Ref, from: Digits, idx: seq<int>) {
    && |idx| <= L && (from == [] || |from| == L)
    && (forall e: Digits {:trigger Pending(node, root, from, e)} :: Pending(node, root, from, e) ==> LexLess(idx, e[..|idx|]))
    && (from == [] || from[..|idx|] == idx || LexLess(from[..|idx|], idx))
  }

  /** The first of the entries still to come. */
  ghost predicate IsNext(node: map<Ref, Node>, root: Ref, from: Digits, key: Digits) {
    && Pending(node, root, from, key)
    && forall e: Digits {:trigger Pending(node, root, from, e)} :: Pending(node, root, from, e) ==> e == key || LexLess(key, e)
  }

  lemma StartPosition(node: map<Ref, Node>, root: Ref, from: Digits, idx: seq<int>)
    requires if from == [] then idx == [-1] else |from| == L && idx == from
    ensures Position(node, root, from, idx)
  {
    forall e: Digits | Pending(node, root, from, e) ensures LexLess(idx, e[..|idx|]) {
      if from == [] {
        assert LessAt([-1], e[..1], 0);
      } else {
        assert e[..L] == e;
      }
    }
    if from != [] {
      assert from[..L] == from;
    }
  }

  /** Passing over an empty slot of the top frame. */
  lemma SkipSlot(node: map<Ref, Node>, ptrs: seq<Ref>, from: Digits, idx: seq<int>, t: int)
    requires |idx| > 0 && Linked(node, ptrs, idx) && -1 <= t < W - 1
    requires Position(node, ptrs[0], from, idx[..|idx| - 1] + [t])
    requires !Hit(node[ptrs[|idx| - 1]], t + 1)
    ensures Position(node, ptrs[0], from, idx[..|idx| - 1] + [t + 1])
  {
    var m := |idx| - 1;
    var p := idx[..m];
    forall e: Digits | Pending(node, ptrs[0], from, e) ensures LexLess(p + [t + 1], e[..m + 1]) {
      NextDigit(p, t, e[..m + 1]);
      if e[..m + 1] == p + [t + 1] {
        EmptySlot(node, ptrs, idx, t + 1, e);
      }
    }
    LastLess(p, t, t + 1);
    if from != [] && from[..m + 1] != p + [t] {
      LessTransitive(from[..m + 1], p + [t], p + [t + 1]);
    }
  }

  lemma EmptySlot(node: map<Ref, Node>, ptrs: seq<Ref>, idx: seq<int>, t: nat, e: Digits)
    requires |idx| > 0 && Linked(node, ptrs, idx) && t < W && |e| == L
    requires !Hit(node[ptrs[|idx| - 1]], t) && e[..|idx|] == idx[..|idx| - 1] + [t]
    ensures Lookup(node, ptrs[0], e) == Empty
  {
    var m := |idx| - 1;
    assert e[..m] == e[..m + 1][..m] == idx[..m];
    assert e[m] == e[..m + 1][m] == t;
    LookupThrough(node, ptrs, idx, m, e);
    assert FrameAt(node, ptrs, idx, m);
    assert NodeOk(node, ptrs[m]);
    assert e[m..][0] == t;
  }

  /** Descending into a node. */
  lemma PushFrame(node: map<Ref, Node>, ptrs: seq<Ref>, from: Digits, idx: seq<int>, t: int)
    requires 0 < |idx| < L && Linked(node, ptrs, idx) && -1 <= t < W - 1
    requires Position(node, ptrs[0], from, idx[..|idx| - 1] + [t])
    requires Hit(node[ptrs[|idx| - 1]], t + 1)
    ensures var idx' := idx[..|idx| - 1] + [t + 1, -1];
            var kid := node[ptrs[|idx| - 1]].kids[t + 1];
            Linked(node, ptrs + [kid], idx') && Position(node, ptrs[0], from, idx')
  {
    var m := |idx| - 1;
    var p := idx[..m];
    var idx' := p + [t + 1, -1];
    forall e: Digits | Pending(node, ptrs[0], from, e) ensures LexLess(idx', e[..m + 2]) {
      NextDigit(p, t, e[..m + 1]);
      assert e[..m + 2] == e[..m + 1] + [e[m + 1]] && idx' == p + [t + 1] + [-1];
      if e[..m + 1] == p + [t + 1] {
        LastLess(p + [t + 1], -1, e[m + 1]);
      } else {
        LessExtends(p + [t + 1], e[..m + 1], [-1], [e[m + 1]]);
      }
    }
    LastLess(p, t, t + 1);
    if from != [] {
      if from[..m + 1] != p + [t] {
        LessTransitive(from[..m + 1], p + [t], p + [t + 1]);
      }
      assert from[..m + 2] == from[..m + 1] + [from[m + 1]] && idx' == p + [t + 1] + [-1];
      LessExtends(from[..m + 1], p + [t + 1], [from[m + 1]], [-1]);
    }
    PushLinked(node, ptrs, idx, t + 1);
  }

  lemma PushLinked(node: map<Ref, Node>, ptrs: seq<Ref>, idx: seq<int>, t: nat)
    requires 0 < |idx| < L && Linked(node, ptrs, idx) && t < W && Hit(node[ptrs[|idx| - 1]], t)
    ensures Linked(node, ptrs + [node[ptrs[|idx| - 1]].kids[t]], idx[..|idx| - 1] + [t, -1])
  {
    var m := |idx| - 1;
    var kid := node[ptrs[m]].kids[t];
    assert FrameAt(node, ptrs, idx, m);
    assert NodeOk(node, ptrs[m]);
    assert IsPtr(node, kid, node[ptrs[m]].level - 1);
    var ptrs', idx' := ptrs + [kid], idx[..m] + [t, -1];
    forall k: nat | k < |ptrs'| ensures FrameAt(node, ptrs', idx', k) {
      if k <= m {
        assert FrameAt(node, ptrs, idx, k);
      }
    }
  }

  /** Leaving a node whose slots are used up. */
  lemma PopFrame(node: map<Ref, Node>, ptrs: seq<Ref>, from: Digits, idx: seq<int>)
    requires |idx| > 0 && Linked(node, ptrs, idx)
    requires Position(node, ptrs[0], from, idx[..|idx| - 1] + [W - 1])
    ensures var m := |idx| - 1;
            Linked(node, ptrs[..m], idx[..m]) && Position(node, ptrs[0], from, idx[..m])
  {
    var m := |idx| - 1;
    var p := idx[..m];
    forall e: Digits | Pending(node, ptrs[0], from, e) ensures LexLess(p, e[..m]) {
      LastExhausted(p, W - 1, e[..m + 1]);
      assert e[..m + 1][..m] == e[..m];
    }
    if from != [] {
      assert from[..m + 1][..m] == from[..m];
      if from[..m + 1] != p + [W - 1] {
        var i: nat :| LessAt(from[..m + 1], p + [W - 1], i);
        assert from[..m][..i] == from[..m + 1][..i] && p[..(if i < m then i else m)] == (p + [W - 1])[..(if i < m then i else m)];
        if i < m {
          assert LessAt(from[..m], p, i);
        } else {
          assert from[..m] == p;
        }
      } else {
        assert (p + [W - 1])[..m] == p;
      }
    }
    forall k: nat | k < m ensures FrameAt(node, ptrs[..m], idx[..m], k) {
      assert FrameAt(node, ptrs, idx, k);
    }
  }

  /** An entry found: it is the first one still to come. */
  lemma FoundFirst(node: map<Ref, Node>, ptrs: seq<Ref>, from: Digits, idx: seq<int>, t: int) returns (key: Digits)
    requires |idx| == L && Linked(node, ptrs, idx) && -1 <= t < W - 1
    requires Position(node, ptrs[0], from, idx[..L - 1] + [t])
    requires Hit(node[ptrs[L - 1]], t + 1)
    ensures key == idx[..L - 1] + [t + 1] && Linked(node, ptrs, key)
    ensures Lookup(node, ptrs[0], key) == node[ptrs[L - 1]].vals[t + 1] && IsNext(node, ptrs[0], from, key)
  {
    var p := idx[..L - 1];
    key := FoundKey(node, ptrs, idx, t + 1);
    forall e: Digits | Pending(node, ptrs[0], from, e) ensures e == key || LexLess(key, e) {
      assert e[..L] == e;
      NextDigit(p, t, e);
    }
    LastLess(p, t, t + 1);
    if from != [] {
      assert from[..L] == from;
      if from != p + [t] {
        LessTransitive(from, p + [t], p + [t + 1]);
      }
    }
  }

  lemma FoundKey(node: map<Ref, Node>, ptrs: seq<Ref>, idx: seq<int>, t: nat) returns (idx': Digits)
    requires |idx| == L && Linked(node, ptrs, idx) && t < W && Hit(node[ptrs[L - 1]], t)
    ensures idx' == idx[..L - 1] + [t] && ValidDigits(idx', L) && Linked(node, ptrs, idx')
    ensures Lookup(node, ptrs[0], idx') == node[ptrs[L - 1]].vals[t] != Empty
  {
    assert forall k: nat :: k < L - 1 ==> 0 <= idx[k] < W by {
      forall k: nat | k < L - 1 ensures 0 <= idx[k] < W {
        assert FrameAt(node, ptrs, idx, k) && FrameAt(node, ptrs, idx, k + 1);
      }
    }
    idx' := seq(L, k requires 0 <= k < L => if k < L - 1 then idx[k] else t);
    assert idx' == idx[..L - 1] + [t];
    forall k: nat | k < L ensures FrameAt(node, ptrs, idx', k) {
      assert FrameAt(node, ptrs, idx, k);
    }
    LookupThrough(node, ptrs, idx', L - 1, idx');
    assert FrameAt(node, ptrs, idx, L - 1);
    assert idx'[L - 1..] == [t];
  }

  // ---------- termination ----------

  ghost function Times(a: int, c: nat): nat
    decreases if a > 0 then a else 0
  {
    if a <= 0 then 0 else c + Times(a - 1, c)
  }

  /** Work one slot at depth `n` below the leaves can cause. */
  ghost function Cost(n: nat): nat {
    if n == 0 then 1 else Times(W + 2, Cost(n - 1))
  }

  ghost function Work(idx: seq<int>): nat {
    if idx == [] then 0 else Work(idx[..|idx| - 1]) + SlotsLeft(idx[|idx| - 1], |idx|)
  }

  ghost function SlotsLeft(i: int, depth: nat): nat {
    Times(W - i, Cost(if depth <= L then L - depth else 0))
  }

  lemma {:induction false} TimesMore(a: int, b: int, c: nat)
    requires a < b && 0 < b
    ensures Times(a, c) + c <= Times(b, c)
    decreases b
  {
    if a < b - 1 && 0 < b - 1 {
      TimesMore(a, b - 1, c);
    }
  }

  lemma {:induction false} CostPositive(n: nat)
    ensures Cost(n) >= 1
  {
    if n > 0 {
      CostPositive(n - 1);
      TimesMore(0, W + 2, Cost(n - 1));
    }
  }

  lemma PopWork(idx: seq<int>)
    requires |idx| > 0 && idx[|idx| - 1] < W
    ensures Work(idx[..|idx| - 1]) < Work(idx)
  {
    var n := if |idx| <= L then L - |idx| else 0;
    CostPositive(n);
    TimesMore(0, W - idx[|idx| - 1], Cost(n));
  }

  lemma PushSlots(i: int, t: int, depth: nat)
    requires i < t < W && 0 < depth < L
    ensures SlotsLeft(t, depth) + SlotsLeft(-1, depth + 1) < SlotsLeft(i, depth)
  {
    var c := Cost(L - depth - 1);
    CostPositive(L - depth - 1);
    TimesMore(W + 1, W + 2, c);
    TimesMore(W - t, W - i, Times(W + 2, c));
  }

  lemma WorkLast(idx: seq<int>, i: int)
    ensures Work(idx + [i]) == Work(idx) + SlotsLeft(i, |idx| + 1)
  {
    assert (idx + [i])[..|idx|] == idx;
  }

  lemma PushWork(idx: seq<int>, t: int)
    requires 0 < |idx| < L && idx[|idx| - 1] < t < W
    ensures Work(idx[..|idx| - 1] + [t, -1]) < Work(idx)
  {
    var a, i := idx[..|idx| - 1], idx[|idx| - 1];
    assert a + [t, -1] == (a + [t]) + [-1];
    WorkLast(a + [t], -1);
    WorkLast(a, t);
    PushSlots(i, t, |idx|);
  }
}
