/** What becomes of a line that is found equivalent to another: a chain of equivalents that ends
    at a credited line, and a final pass that follows it only in part. */
module EquivalentLines {
  import opened Lineages

  // ---------- equivalents found by the unit in progress ----------

  /** Of the equivalents only those of `replaced` are new, and their targets are followed. */
  ghost predicate Redirected(before: map<int, int>, store: map<nat, Lineage>, queue: map<Rev, Unit>,
                             equivalent: map<int, int>, replaced: set<int>) {
    && (forall m {:trigger m in replaced} :: m in replaced ==> m in equivalent && Live(store, queue, equivalent[m]))
    && (forall m {:trigger m in equivalent} :: m !in replaced ==> (m in equivalent <==> m in before))
    && (forall m {:trigger equivalent[m]} :: m in before && m in equivalent && m !in replaced ==> equivalent[m] == before[m])
  }

  lemma RedirectedGrows(before: map<int, int>, s: map<nat, Lineage>, q: map<Rev, Unit>, s': map<nat, Lineage>,
                        q': map<Rev, Unit>, equivalent: map<int, int>, replaced: set<int>)
    requires Redirected(before, s, q, equivalent, replaced) && Extended(s, q, s', q')
    ensures Redirected(before, s', q', equivalent, replaced)
  {
    forall m | m in replaced ensures m in equivalent && Live(s', q', equivalent[m]) {
      LiveGrows(s, q, s', q', equivalent[m]);
    }
  }

  lemma RedirectedMore(before: map<int, int>, s: map<nat, Lineage>, q: map<Rev, Unit>, e: map<int, int>, replaced: set<int>,
                       e': map<int, int>, more: set<int>)
    requires Redirected(before, s, q, e, replaced) && Redirected(e, s, q, e', more)
    ensures Redirected(before, s, q, e', replaced + more)
  {
    forall m | m in replaced + more ensures m in e' && Live(s, q, e'[m]) {
      if m !in more {
        assert m in replaced && m in e;
        assert e'[m] == e[m];
      }
    }
  }

  // ---------- the law of the loop ----------

  /** Where the equivalent `e` of a line given up in turn `t` has got to: credited, still followed,
      or given up later. */
  ghost predicate Onward(a: seq<Rev>, store: map<nat, Lineage>, queue: map<Rev, Unit>, since: map<int, nat>, e: int, t: nat) {
    0 <= e < |a| && (a[e] != NullRev || Live(store, queue, e) || (e in since && since[e] > t))
  }

  ghost predicate FollowedLine(a: seq<Rev>, store: map<nat, Lineage>, queue: map<Rev, Unit>, equivalent: map<int, int>,
                               since: map<int, nat>, m: int) {
    Live(store, queue, m) || (m in equivalent && m in since && Onward(a, store, queue, since, equivalent[m], since[m]))
  }

  /** Every line not credited is followed, or was given up for one that is, was credited, or was
      given up in a later turn. `since` is the turn in which a line was last found equivalent. */
  ghost predicate Followed(file: seq<Line>, a: seq<Rev>, store: map<nat, Lineage>, queue: map<Rev, Unit>,
                           equivalent: map<int, int>, since: map<int, nat>, turn: nat) {
    && |a| == |file| && (forall m {:trigger since[m]} :: m in since ==> since[m] < turn)
    && forall m {:trigger FollowedLine(a, store, queue, equivalent, since, m)} ::
         0 <= m < |file| && a[m] == NullRev ==> FollowedLine(a, store, queue, equivalent, since, m)
  }

  /** A line the unit in progress or another followed, and not credited now, is carried after. */
  lemma StillCarried(s0: map<nat, Lineage>, q0: map<Rev, Unit>, s: map<nat, Lineage>, q: map<Rev, Unit>, replaced: set<int>,
                     u: Unit, copied: set<int>, touched: set<int>, m: int)
    requires Extended(s0, q0, s, q) && u.lineage in s0
    requires Live(s0, q0[u.revision := u], m) && m !in touched - copied
    requires forall i :: Mapped(s0[u.lineage], i) ==> i in copied || i in touched
    requires forall i :: i in copied ==> Carried(s, q, replaced, i)
    ensures Carried(s, q, replaced, m)
  {
    if Mapped(s0[u.lineage], m) {
      assert m in copied;
    } else {
      var r :| CarriedBy(s0, q0[u.revision := u], r, m);
      assert r != u.revision;
      assert CarriedBy(s0, q0, r, m);
      LiveGrows(s0, q0, s, q, m);
    }
  }

  function Stamped(since: map<int, nat>, replaced: set<int>, turn: nat): map<int, nat> {
    since + map m | m in replaced :: turn
  }

  /** What one turn does to the line `e` another one was given up for. */
  lemma OnwardNext(a: seq<Rev>, s: map<nat, Lineage>, q: map<Rev, Unit>, since: map<int, nat>, turn: nat, e: int, t: nat,
                   a': seq<Rev>, s': map<nat, Lineage>, q': map<Rev, Unit>, replaced: set<int>)
    requires Onward(a, s, q, since, e, t) && t < turn && |a'| == |a|
    requires forall m :: m in since ==> since[m] < turn
    requires a[e] != NullRev ==> a'[e] != NullRev
    requires Live(s, q, e) && a'[e] == NullRev ==> Carried(s', q', replaced, e)
    ensures Onward(a', s', q', Stamped(since, replaced, turn), e, t)
  {
  }

  /** One turn keeps the law. */
  lemma FollowedNext(file: seq<Line>, a: seq<Rev>, s: map<nat, Lineage>, q: map<Rev, Unit>, e: map<int, int>,
                     since: map<int, nat>, turn: nat,
                     a': seq<Rev>, s': map<nat, Lineage>, q': map<Rev, Unit>, e': map<int, int>, replaced: set<int>)
    requires Followed(file, a, s, q, e, since, turn) && Redirected(e, s', q', e', replaced) && EquivalentOk(file, e')
    requires |a'| == |a| && forall m :: 0 <= m < |a| && a[m] != NullRev ==> a'[m] != NullRev
    requires forall m :: 0 <= m < |a| && Live(s, q, m) && a'[m] == NullRev ==> Carried(s', q', replaced, m)
    ensures Followed(file, a', s', q', e', Stamped(since, replaced, turn), turn + 1)
  {
    var since' := Stamped(since, replaced, turn);
    forall m | 0 <= m < |file| && a'[m] == NullRev ensures FollowedLine(a', s', q', e', since', m) {
      assert FollowedLine(a, s, q, e, since, m);
      if m in replaced {
        assert since'[m] == turn && Live(s', q', e'[m]);
      } else if !Live(s, q, m) {
        assert m in e' && e'[m] == e[m] && since'[m] == since[m];
        OnwardNext(a, s, q, since, turn, e[m], since[m], a', s', q', replaced);
      }
    }
  }

  // ---------- when the queue is empty ----------

  /** Following equivalents from `m` reaches a credited line in exactly `n` steps. */
  ghost predicate Reaches(a: seq<Rev>, equivalent: map<int, int>, m: int, n: nat)
    decreases n
  {
    0 <= m < |a| && if a[m] != NullRev then n == 0 else n > 0 && m in equivalent && Reaches(a, equivalent, equivalent[m], n - 1)
  }

  ghost predicate EndsCredited(a: seq<Rev>, equivalent: map<int, int>, m: int) {
    exists n: nat :: Reaches(a, equivalent, m, n)
  }

  lemma {:induction false} FollowedEnds(file: seq<Line>, a: seq<Rev>, equivalent: map<int, int>, store: map<nat, Lineage>,
                                        since: map<int, nat>, turn: nat, m: int)
    requires Followed(file, a, store, map[], equivalent, since, turn) && 0 <= m < |a|
    ensures EndsCredited(a, equivalent, m)
    decreases a[m] == NullRev, turn - if m in since then since[m] else 0
  {
    if a[m] != NullRev {
      assert Reaches(a, equivalent, m, 0);
    } else {
      assert FollowedLine(a, store, map[], equivalent, since, m);
      var e := equivalent[m];
      assert a[e] != NullRev || since[e] > since[m];
      FollowedEnds(file, a, equivalent, store, since, turn, e);
      var n: nat :| Reaches(a, equivalent, e, n);
      assert Reaches(a, equivalent, m, n + 1);
    }
  }

  /** There is one number of steps, so there is no cycle. */
  lemma {:induction false} ReachesOnce(a: seq<Rev>, equivalent: map<int, int>, m: int, n: nat, k: nat)
    requires Reaches(a, equivalent, m, n) && Reaches(a, equivalent, m, k)
    ensures n == k
    decreases n
  {
    if a[m] == NullRev {
      ReachesOnce(a, equivalent, equivalent[m], n - 1, k - 1);
    }
  }

  // ---------- the final pass ----------

  /** What the single pass over the equivalent lines makes of line `i`: a target below has been
      through the pass already, a target above has not. */
  ghost function Resolved(a: seq<Rev>, equivalent: map<int, int>, i: nat): Rev
    requires i < |a| && forall m :: m in equivalent ==> 0 <= equivalent[m] < |a|
    decreases i
  {
    if a[i] != NullRev || i !in equivalent then a[i]
    else if equivalent[i] < i then Resolved(a, equivalent, equivalent[i])
    else a[equivalent[i]]
  }

  ghost predicate AllResolved(a: seq<Rev>, equivalent: map<int, int>)
    requires forall m :: m in equivalent ==> 0 <= equivalent[m] < |a|
  {
    forall i: nat {:trigger Resolved(a, equivalent, i)} :: i < |a| ==> Resolved(a, equivalent, i) != NullRev
  }

  ghost predicate TargetsCredited(a: seq<Rev>, equivalent: map<int, int>)
    requires forall m :: m in equivalent ==> 0 <= equivalent[m] < |a|
  {
    forall i {:trigger equivalent[i]} :: 0 <= i < |a| && a[i] == NullRev && i in equivalent && equivalent[i] >= i ==>
      a[equivalent[i]] != NullRev
  }

  /** The pass leaves no line uncredited if and only if every uncredited line whose target is
      not before it has a credited target. */
  lemma ResolvedAll(a: seq<Rev>, equivalent: map<int, int>)
    requires forall m :: m in equivalent ==> 0 <= equivalent[m] < |a|
    requires forall i :: 0 <= i < |a| && a[i] == NullRev ==> i in equivalent
    ensures AllResolved(a, equivalent) <==> TargetsCredited(a, equivalent)
  {
    if TargetsCredited(a, equivalent) {
      forall i: nat | i < |a| ensures Resolved(a, equivalent, i) != NullRev {
        ResolvedOne(a, equivalent, i);
      }
    }
    if AllResolved(a, equivalent) {
      forall i | 0 <= i < |a| && a[i] == NullRev && i in equivalent && equivalent[i] >= i ensures a[equivalent[i]] != NullRev {
        assert Resolved(a, equivalent, i) != NullRev;
      }
    }
  }

  lemma {:induction false} ResolvedOne(a: seq<Rev>, equivalent: map<int, int>, i: nat)
    requires i < |a| && forall m :: m in equivalent ==> 0 <= equivalent[m] < |a|
    requires forall i :: 0 <= i < |a| && a[i] == NullRev ==> i in equivalent
    requires TargetsCredited(a, equivalent)
    ensures Resolved(a, equivalent, i) != NullRev
    decreases i
  {
    if a[i] == NullRev && equivalent[i] < i {
      ResolvedOne(a, equivalent, equivalent[i]);
    }
  }

  lemma {:induction false} ResolvedOccurs(h: History, file: seq<Line>, a: seq<Rev>, equivalent: map<int, int>, i: nat)
    requires CreditsOk(h, file, a) && EquivalentOk(file, equivalent) && i < |file|
    ensures Resolved(a, equivalent, i) != NullRev ==> Occurs(h, Resolved(a, equivalent, i), file[i])
    decreases i
  {
    if a[i] == NullRev && i in equivalent && equivalent[i] < i {
      ResolvedOccurs(h, file, a, equivalent, equivalent[i]);
    }
  }

  /** No text stands in three lines. */
  predicate NoTextThrice(file: seq<Line>) {
    forall i, j, k :: 0 <= i < |file| && 0 <= j < |file| && 0 <= k < |file| && i != j && j != k && i != k ==>
      !(file[i] == file[j] && file[j] == file[k])
  }

  /** A chain of two uncredited lines passes three lines of the same text. */
  lemma ThreeLines(file: seq<Line>, a: seq<Rev>, equivalent: map<int, int>, m: int) returns (e: int, e': int)
    requires |a| == |file| && EquivalentOk(file, equivalent) && 0 <= m < |a| && EndsCredited(a, equivalent, m)
    requires a[m] == NullRev && m in equivalent && a[equivalent[m]] == NullRev
    ensures 0 <= e < |file| && 0 <= e' < |file| && m != e && e != e' && m != e'
    ensures file[m] == file[e] && file[e] == file[e']
  {
    var n: nat :| Reaches(a, equivalent, m, n);
    e := equivalent[m];
    assert Reaches(a, equivalent, e, n - 1);
    e' := equivalent[e];
    assert Reaches(a, equivalent, e', n - 2);
    if m == e {
      ReachesOnce(a, equivalent, m, n, n - 1);
    }
    if e == e' {
      ReachesOnce(a, equivalent, e, n - 1, n - 2);
    }
    if m == e' {
      ReachesOnce(a, equivalent, m, n, n - 2);
    }
  }

  /** Where no text stands three times the final pass credits every line. */
  lemma TwiceIsFine(file: seq<Line>, a: seq<Rev>, equivalent: map<int, int>)
    requires |a| == |file| && EquivalentOk(file, equivalent) && NoTextThrice(file)
    requires forall m :: 0 <= m < |a| ==> EndsCredited(a, equivalent, m)
    ensures TargetsCredited(a, equivalent)
  {
    forall m | 0 <= m < |a| && a[m] == NullRev && m in equivalent ensures a[equivalent[m]] != NullRev {
      if a[equivalent[m]] == NullRev {
        var e, e' := ThreeLines(file, a, equivalent, m);
      }
    }
  }
}
