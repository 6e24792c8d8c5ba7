/** Leftmost embeddings of one sequence of lines in another, which matching from the left finds. */
module Embeddings {
  import opened Lineages

  /** No embedding of `a` in `b` has any element further left. */
  ghost predicate Leftmost(f: seq<nat>, a: seq<Line>, b: seq<Line>) {
    Embeds(f, a, b) && forall g, k :: Embeds(g, a, b) && 0 <= k < |a| ==> f[k] <= g[k]
  }

  /** Line `i` of `b` is matched when `a` is embedded as far left as possible. */
  ghost predicate InLeftmost(a: seq<Line>, b: seq<Line>, i: int) {
    exists f :: Leftmost(f, a, b) && i in f
  }

  function Shift(f: seq<nat>): seq<nat> {
    seq(|f|, k requires 0 <= k < |f| => f[k] + 1)
  }

  /** Where matching from the left finds the elements of `a`. */
  function Spots(a: seq<Line>, b: seq<Line>): seq<nat>
    decreases |b|
  {
    if a == [] || b == [] then []
    else if a[0] == b[0] then [0] + Shift(Spots(a[1..], b[1..]))
    else Shift(Spots(a, b[1..]))
  }

  lemma ShiftEmbeds(f: seq<nat>, a: seq<Line>, b: seq<Line>)
    requires b != [] && Embeds(f, a, b[1..])
    ensures Embeds(Shift(f), a, b)
  {
  }

  lemma ConsEmbeds(f: seq<nat>, a: seq<Line>, b: seq<Line>)
    requires a != [] && b != [] && a[0] == b[0] && Embeds(f, a[1..], b[1..])
    ensures Embeds([0] + Shift(f), a, b)
  {
    var g := [0] + Shift(f);
    forall k | 0 <= k < |g| ensures g[k] < |b| && a[k] == b[g[k]] {
      if k > 0 {
        assert a[1..][k - 1] == b[1..][f[k - 1]];
      }
    }
  }

  lemma {:induction false} SpotsEmbed(a: seq<Line>, b: seq<Line>)
    requires Subsequence(a, b)
    ensures Embeds(Spots(a, b), a, b)
    decreases |b|
  {
    if a != [] {
      GreedyStep(a, b);
      if a[0] == b[0] {
        SpotsEmbed(a[1..], b[1..]);
        ConsEmbeds(Spots(a[1..], b[1..]), a, b);
      } else {
        SpotsEmbed(a, b[1..]);
        ShiftEmbeds(Spots(a, b[1..]), a, b);
      }
    }
  }

  /** An embedding of what is left, when it does not use the first element of `b` or does. */
  lemma Dropped(g: seq<nat>, a: seq<Line>, b: seq<Line>) returns (t: seq<nat>)
    requires Embeds(g, a, b) && a != [] && b != []
    ensures a[0] != b[0] ==> Embeds(t, a, b[1..]) && |t| == |g| && forall k :: 0 <= k < |g| ==> g[k] == t[k] + 1
    ensures a[0] == b[0] ==> Embeds(t, a[1..], b[1..]) && |t| == |g| - 1 && forall k :: 0 < k < |g| ==> g[k] == t[k - 1] + 1
  {
    assert g[0] < |b| && a[0] == b[g[0]];
    forall k | 0 < k < |g| ensures g[k] > 0 {
      assert g[0] < g[k];
    }
    if a[0] == b[0] {
      t := seq(|g| - 1, k requires 0 <= k < |g| - 1 => g[k + 1] - 1);
      forall k | 0 <= k < |t| ensures t[k] < |b[1..]| && a[1..][k] == b[1..][t[k]] {
        assert a[k + 1] == b[g[k + 1]];
      }
    } else {
      t := seq(|g|, k requires 0 <= k < |g| => g[k] - 1);
    }
  }

  lemma {:induction false} SpotsLeast(a: seq<Line>, b: seq<Line>, g: seq<nat>, k: nat)
    requires Embeds(g, a, b) && k < |a|
    ensures |Spots(a, b)| == |a| && Spots(a, b)[k] <= g[k]
    decreases |b|
  {
    SpotsEmbed(a, b);
    assert g[0] < |b|;
    var t := Dropped(g, a, b);
    if a[0] == b[0] {
      if k > 0 {
        SpotsLeast(a[1..], b[1..], t, k - 1);
      }
    } else {
      SpotsLeast(a, b[1..], t, k);
    }
  }

  /** The greedy matching is the leftmost embedding, and the only one. */
  lemma SpotsLeftmost(a: seq<Line>, b: seq<Line>)
    requires Subsequence(a, b)
    ensures Leftmost(Spots(a, b), a, b) && forall f :: Leftmost(f, a, b) ==> f == Spots(a, b)
  {
    SpotsEmbed(a, b);
    forall g, k | Embeds(g, a, b) && 0 <= k < |a| ensures Spots(a, b)[k] <= g[k] {
      SpotsLeast(a, b, g, k);
    }
    forall f | Leftmost(f, a, b) ensures f == Spots(a, b) {
      forall k | 0 <= k < |a| ensures f[k] == Spots(a, b)[k] {
      }
    }
  }

  lemma TakenIs(a: seq<Line>, b: seq<Line>, i: int)
    requires Subsequence(a, b)
    ensures InLeftmost(a, b, i) <==> i in Spots(a, b)
  {
    SpotsLeftmost(a, b);
  }

  lemma ShiftHas(f: seq<nat>, i: int)
    ensures i in Shift(f) <==> i - 1 in f
  {
    if i - 1 in f {
      var k :| 0 <= k < |f| && f[k] == i - 1;
      assert Shift(f)[k] == i;
    }
    if i in Shift(f) {
      var k :| 0 <= k < |f| && Shift(f)[k] == i;
      assert f[k] == i - 1;
    }
  }

  lemma SpotsStep(a: seq<Line>, b: seq<Line>, i: int)
    requires a != [] && b != []
    ensures a[0] == b[0] ==> (i in Spots(a, b) <==> i == 0 || i - 1 in Spots(a[1..], b[1..]))
    ensures a[0] != b[0] ==> (i in Spots(a, b) <==> i - 1 in Spots(a, b[1..]))
  {
    ShiftHas(Spots(a[1..], b[1..]), i);
    ShiftHas(Spots(a, b[1..]), i);
  }
}
