/** A history of seven revisions in which the final pass leaves a line without a revision. */
module AnnotateMiss {
  import Ordered
  import opened Lineages
  import opened AnnotateSteps
  import opened EquivalentLines
  import opened Annotate

  // ---------- the history ----------

  const X: Line := 1
  const Y: Line := 2
  const Z: Line := 3

  const FileF: seq<Line> := [X, Y, X, Z, X]
  const FileM: seq<Line> := [X, Y, X]
  const FileC: seq<Line> := [Z, X]
  const FileA: seq<Line> := [Y, X]
  const FileB: seq<Line> := [X, Y]
  const FileV: seq<Line> := [X]

  /** Revision 7 merges 5 and 6, revision 5 merges 3 and 4, which both come from 2. Revision 2 leaves
      the file as it is in 1, from which 6 comes too. */
  const Past: History := History(
    map[1 := {0}, 2 := {1}, 3 := {2}, 4 := {2}, 5 := {3, 4}, 6 := {1}, 7 := {5, 6}],
    map[1 := {1}, 2 := {1}, 3 := {3}, 4 := {4}, 5 := {5}, 6 := {6}, 7 := {7}],
    map[0 := NoFile, 1 := 1, 2 := 1, 3 := 2, 4 := 3, 5 := 4, 6 := 5, 7 := 6],
    map[1 := FileV, 2 := FileB, 3 := FileA, 4 := FileM, 5 := FileC, 6 := FileF],
    map[1 := 1, 2 := 2, 3 := 3, 4 := 4, 5 := 5, 6 := 6, 7 := 7])

  lemma PastLow()
    ensures Past.Known(1) && Past.Known(2) && Past.Known(3)
  {
  }

  lemma PastMiddle()
    ensures Past.Known(4) && Past.Known(5)
  {
  }

  lemma PastHigh()
    ensures Past.Known(6) && Past.Known(7)
  {
  }

  lemma PastRevisions(r: Rev)
    requires Past.Live(r)
    ensures 1 <= r <= 7
  {
  }

  lemma PastHeights(r: Rev)
    requires r in Past.height
    ensures Past.height[r] == r
  {
  }

  lemma PastValid()
    ensures Past.Valid()
  {
    forall r | Past.Live(r) ensures Past.Known(r) {
      PastRevisions(r);
      PastLow();
      PastMiddle();
      PastHigh();
    }
    forall r, q | r in Past.height && q in Past.height && Past.height[r] == Past.height[q] ensures r == q {
      PastHeights(r);
      PastHeights(q);
    }
  }

  // ---------- longest common subsequences ----------

  /** The function gives a common subsequence than which none is longer. */
  ghost predicate Longest(lcs: (seq<Line>, seq<Line>) -> seq<Line>) {
    CommonSubsequences(lcs) && forall a, b, c {:trigger lcs(a, b), Subsequence(c, a)} ::
      Subsequence(c, a) && Subsequence(c, b) ==> |c| <= |lcs(a, b)|
  }

  lemma {:induction false} Spread(f: seq<nat>, a: seq<Line>, b: seq<Line>, k: nat)
    requires Embeds(f, a, b) && k < |f|
    ensures f[k] >= k
    decreases k
  {
    if k > 0 {
      Spread(f, a, b, k - 1);
      assert f[k - 1] < f[k];
    }
  }

  ghost predicate IsCommon(c: seq<Line>, a: seq<Line>, b: seq<Line>) {
    Subsequence(c, a) && Subsequence(c, b)
  }

  lemma {:induction false} LongestUpTo(a: seq<Line>, b: seq<Line>, n: nat) returns (c: seq<Line>)
    ensures IsCommon(c, a, b) && forall d :: IsCommon(d, a, b) && |d| <= n ==> |d| <= |c|
    decreases n
  {
    if n == 0 {
      c := [];
      assert Embeds([], c, a) && Embeds([], c, b);
    } else {
      c := LongestUpTo(a, b, n - 1);
      if d :| IsCommon(d, a, b) && |d| == n && |d| > |c| {
        c := d;
      }
    }
  }

  lemma SomeLongest(a: seq<Line>, b: seq<Line>)
    ensures exists c :: IsCommon(c, a, b) && forall d :: IsCommon(d, a, b) ==> |d| <= |c|
  {
    var c := LongestUpTo(a, b, |a|);
    forall d | IsCommon(d, a, b) ensures |d| <= |c| {
      var f :| Embeds(f, d, a);
      if d != [] {
        Spread(f, d, a, |d| - 1);
      }
    }
  }

  ghost function LongestOf(a: seq<Line>, b: seq<Line>): (c: seq<Line>)
    ensures IsCommon(c, a, b) && forall d :: IsCommon(d, a, b) ==> |d| <= |c|
  {
    SomeLongest(a, b);
    var c :| IsCommon(c, a, b) && forall d :: IsCommon(d, a, b) ==> |d| <= |c|; c
  }

  /** There is such a function. */
  lemma LongestExists()
    ensures Longest(LongestOf)
  {
    forall a, b, c | Subsequence(c, a) && Subsequence(c, b) ensures |c| <= |LongestOf(a, b)| {
      assert IsCommon(c, a, b);
    }
    forall a, b ensures Subsequence(LongestOf(a, b), a) && Subsequence(LongestOf(a, b), b) {
      assert IsCommon(LongestOf(a, b), a, b);
    }
  }

  lemma {:induction false} NoRoom(f: seq<nat>, a: seq<Line>, b: seq<Line>, k: nat)
    requires Embeds(f, a, b) && |a| == |b| && k < |f|
    ensures f[k] <= k
    decreases |f| - k
  {
    if k < |f| - 1 {
      NoRoom(f, a, b, k + 1);
      assert f[k] < f[k + 1];
    }
  }

  /** Where one text is a subsequence of the other it is the longest common one. */
  lemma WholeIsLongest(lcs: (seq<Line>, seq<Line>) -> seq<Line>, a: seq<Line>, b: seq<Line>)
    requires Longest(lcs) && Subsequence(b, a)
    ensures lcs(a, b) == b
  {
    var c := lcs(a, b);
    var f :| Embeds(f, c, b);
    assert Embeds(seq(|b|, i => i), b, b);
    assert |b| <= |c|;
    if |c| > |b| {
      Spread(f, c, b, |b|);
    }
    forall k | 0 <= k < |b| ensures c[k] == b[k] {
      Spread(f, c, b, k);
      NoRoom(f, c, b, k);
    }
  }

  // ---------- the edges ----------

  /** What one edge copies, touches and hands on, when the ancestor's text is a subsequence. */
  ghost predicate EdgeGives(lines: seq<Line>, mapping: seq<int>, other: seq<Line>, picked: seq<int>, passed: seq<int>)
    requires |lines| == |mapping|
  {
    && Picked(lines, mapping, other) == picked && Passed(lines, mapping, other) == passed
  }

  lemma NoneLeft(lines: seq<Line>, mapping: seq<int>)
    requires |lines| == |mapping|
    ensures EdgeGives(lines, mapping, [], [], mapping)
  {
    PassedAll(lines, mapping);
  }

  lemma Hit(x: Line, lines: seq<Line>, v: int, mapping: seq<int>, other: seq<Line>, picked: seq<int>, passed: seq<int>)
    requires |lines| == |mapping| && EdgeGives(lines, mapping, other, picked, passed)
    ensures EdgeGives([x] + lines, [v] + mapping, [x] + other, [v] + picked, passed)
  {
    assert ([x] + lines)[1..] == lines && ([v] + mapping)[1..] == mapping && ([x] + other)[1..] == other;
  }

  lemma Skip(x: Line, lines: seq<Line>, v: int, mapping: seq<int>, other: seq<Line>, picked: seq<int>, passed: seq<int>)
    requires |lines| == |mapping| && EdgeGives(lines, mapping, other, picked, passed) && other != [] && other[0] != x
    ensures EdgeGives([x] + lines, [v] + mapping, other, picked, [v] + passed)
  {
    assert ([x] + lines)[1..] == lines && ([v] + mapping)[1..] == mapping;
  }

  lemma {:induction false} PlacedWhole(lines: seq<Line>, src: seq<int>)
    requires |lines| == |src|
    ensures Placed(lines, lines, src) == src
    decreases |lines|
  {
    if lines != [] {
      PlacedWhole(lines[1..], src[1..]);
      assert src == [src[0]] + src[1..];
    }
  }

  lemma EdgeFM()
    ensures Subsequence(FileM, FileF) && EdgeGives(FileF, [0, 1, 2, 3, 4], FileM, [0, 1, 2], [3, 4])
  {
    assert Embeds([0, 1, 2], FileM, FileF);
    NoneLeft([Z, X], [3, 4]);
    Hit(X, [Z, X], 2, [3, 4], [], [], [3, 4]);
    Hit(Y, [X, Z, X], 1, [2, 3, 4], [X], [2], [3, 4]);
    Hit(X, [Y, X, Z, X], 0, [1, 2, 3, 4], [Y, X], [1, 2], [3, 4]);
  }

  lemma EdgeFC()
    ensures Subsequence(FileC, FileF) && EdgeGives(FileF, [0, 1, 2, 3, 4], FileC, [3, 4], [0, 1, 2])
  {
    assert Embeds([3, 4], FileC, FileF);
    NoneLeft([], []);
    Hit(X, [], 4, [], [], [], []);
    Hit(Z, [X], 3, [4], [X], [4], []);
    Skip(X, [Z, X], 2, [3, 4], [Z, X], [3, 4], []);
    Skip(Y, [X, Z, X], 1, [2, 3, 4], [Z, X], [3, 4], [2]);
    Skip(X, [Y, X, Z, X], 0, [1, 2, 3, 4], [Z, X], [3, 4], [1, 2]);
  }

  lemma EdgeCV()
    ensures Subsequence(FileV, FileC) && EdgeGives(FileC, [3, 4], FileV, [4], [3])
  {
    assert Embeds([1], FileV, FileC);
    NoneLeft([], []);
    Hit(X, [], 4, [], [], [], []);
    Skip(Z, [X], 3, [4], [X], [4], []);
  }

  lemma EdgeMB()
    ensures Subsequence(FileB, FileM) && EdgeGives(FileM, [0, 1, 2], FileB, [0, 1], [2])
  {
    assert Embeds([0, 1], FileB, FileM);
    NoneLeft([X], [2]);
    Hit(Y, [X], 1, [2], [], [], [2]);
    Hit(X, [Y, X], 0, [1, 2], [Y], [1], [2]);
  }

  lemma EdgeMA()
    ensures Subsequence(FileA, FileM) && EdgeGives(FileM, [0, 1, 2], FileA, [1, 2], [0])
  {
    assert Embeds([1, 2], FileA, FileM);
    NoneLeft([], []);
    Hit(X, [], 2, [], [], [], []);
    Hit(Y, [X], 1, [2], [X], [2], []);
    Skip(X, [Y, X], 0, [1, 2], [Y, X], [1, 2], []);
  }

  lemma EdgeAU()
    ensures Subsequence(FileV, FileA) && EdgeGives(FileA, [1, 2], FileV, [2], [1])
  {
    assert Embeds([1], FileV, FileA);
    NoneLeft([], []);
    Hit(X, [], 2, [], [], [], []);
    Skip(Y, [X], 1, [2], [X], [2], []);
  }

  lemma EdgeBU()
    ensures Subsequence(FileV, FileB) && EdgeGives(FileB, [0, 1], FileV, [0], [1])
  {
    assert Embeds([0], FileV, FileB);
    NoneLeft([Y], [1]);
    Hit(X, [Y], 0, [1], [], [], [1]);
  }

  // ---------- what edges do to a state ----------

  lemma EdgeHands(h: History, lcs: (seq<Line>, seq<Line>) -> seq<Line>, u: Unit, content: FileId, st: State, l: Lineage,
                  lines: seq<Line>, picked: seq<int>, passed: seq<int>)
    requires content != u.content && content in h.lines && lines == h.lines[content]
    requires u.lineage in st.lineages && l == st.lineages[u.lineage] && |l.lines| == |l.mapping|
    requires lcs(l.lines, lines) == lines && EdgeGives(l.lines, l.mapping, lines, picked, passed) && |picked| == |lines|
    ensures HandedOn(h, lcs, u, content, st) ==
      (st.(copied := st.copied + Indices(picked), touched := st.touched + Indices(passed),
           lineages := st.lineages[st.next := Lineage(lines, picked)], next := st.next + 1),
       st.next)
  {
    PlacedWhole(lines, picked);
  }

  lemma JoinsOne(st: State, into: nat, id: nat, lines: seq<Line>, v: int, w: int)
    requires into in st.lineages && id in st.lineages && v >= 0 && w >= 0 && v != w
    requires st.lineages[into] == Lineage(lines, [v]) && st.lineages[id].mapping == [w]
    ensures Joined(st, into, id) == st.(equivalent := st.equivalent[w := v])
  {
    assert Filled([v], [w]) == [v];
    assert [v][..0] == [] && [w][..0] == [];
    assert Matched(st.equivalent, [v], [w]) == st.equivalent[w := v];
    assert st.lineages[into := st.lineages[into]] == st.lineages;
  }

  /** An edge to an ancestor that is not queued yet. */
  lemma QueuesNew(h: History, lcs: (seq<Line>, seq<Line>) -> seq<Line>, u: Unit, p: Rev, st: State, l: Lineage,
                  lines: seq<Line>, picked: seq<int>, passed: seq<int>, v: Unit)
    requires h.Live(p) && h.content[p] != u.content && h.content[p] in h.lines && lines == h.lines[h.content[p]]
    requires u.lineage in st.lineages && l == st.lineages[u.lineage] && |l.lines| == |l.mapping|
    requires lcs(l.lines, lines) == lines && EdgeGives(l.lines, l.mapping, lines, picked, passed) && |picked| == |lines|
    requires p !in st.queue && v == UnitFor(h, p, st.next)
    ensures OneEdge(h, lcs, u, p, st) ==
      State(st.annotations, st.equivalent, st.copied + Indices(picked), st.touched + Indices(passed),
            st.lineages[st.next := Lineage(lines, picked)], st.next + 1, st.queue[p := v])
  {
    EdgeHands(h, lcs, u, h.content[p], st, l, lines, picked, passed);
  }

  /** An edge to a queued ancestor whose one line is known as another. */
  lemma JoinsQueued(h: History, lcs: (seq<Line>, seq<Line>) -> seq<Line>, u: Unit, p: Rev, st: State, l: Lineage,
                    lines: seq<Line>, w: int, passed: seq<int>, into: nat, v: int)
    requires h.Live(p) && h.content[p] != u.content && h.content[p] in h.lines && lines == h.lines[h.content[p]]
    requires u.lineage in st.lineages && l == st.lineages[u.lineage] && |l.lines| == |l.mapping|
    requires lcs(l.lines, lines) == lines && EdgeGives(l.lines, l.mapping, lines, [w], passed) && |lines| == 1
    requires p in st.queue && into == st.queue[p].lineage && into in st.lineages && into != st.next
    requires st.lineages[into] == Lineage(lines, [v]) && v >= 0 && w >= 0 && v != w
    ensures OneEdge(h, lcs, u, p, st) ==
      State(st.annotations, st.equivalent[w := v], st.copied + Indices([w]), st.touched + Indices(passed),
            st.lineages[st.next := Lineage(lines, [w])], st.next + 1, st.queue)
  {
    EdgeHands(h, lcs, u, h.content[p], st, l, lines, [w], passed);
    var st1 := HandedOn(h, lcs, u, h.content[p], st).0;
    JoinsOne(st1, into, st.next, lines, v, w);
  }

  /** The same where the text is unchanged and the lineage is shared. */
  lemma SharesQueued(h: History, lcs: (seq<Line>, seq<Line>) -> seq<Line>, u: Unit, p: Rev, st: State, lines: seq<Line>,
                     w: int, into: nat, v: int)
    requires h.Live(p) && h.content[p] == u.content && u.lineage in st.lineages && st.lineages[u.lineage].mapping == [w]
    requires p in st.queue && into == st.queue[p].lineage && into in st.lineages
    requires st.lineages[into] == Lineage(lines, [v]) && v >= 0 && w >= 0 && v != w
    ensures OneEdge(h, lcs, u, p, st) == st.(equivalent := st.equivalent[w := v], copied := st.copied + Indices([w]))
  {
    JoinsOne(st.(copied := st.copied + Indices([w])), into, u.lineage, lines, v, w);
  }

  lemma OneInOrder(ps: seq<Rev>, p: Rev)
    requires InOrder(ps, {p})
    ensures ps == [p]
  {
    Ordered.OneOrder(ps, [p]);
  }

  lemma TwoInOrder(ps: seq<Rev>, p: Rev, q: Rev)
    requires InOrder(ps, {p, q}) && p < q
    ensures ps == [p, q]
  {
    Ordered.OneOrder(ps, [p, q]);
  }

  lemma OneEdgeOnly(h: History, lcs: (seq<Line>, seq<Line>) -> seq<Line>, u: Unit, p: Rev, st: State)
    ensures AllEdges(h, lcs, u, [p], st) == OneEdge(h, lcs, u, p, st)
  {
    assert [p][..0] == [];
  }

  lemma TwoEdges(h: History, lcs: (seq<Line>, seq<Line>) -> seq<Line>, u: Unit, p: Rev, q: Rev, st: State)
    ensures AllEdges(h, lcs, u, [p, q], st) == OneEdge(h, lcs, u, q, OneEdge(h, lcs, u, p, st))
  {
    assert [p, q][..1] == [p];
    OneEdgeOnly(h, lcs, u, p, st);
  }

  // ---------- turns ----------

  lemma TheHighest(queue: map<Rev, Unit>, r: Rev, q: Rev)
    requires Highest(queue, r) && Highest(queue, q)
    ensures r == q
  {
    assert queue[r].height == queue[r].height && queue[q].height == queue[q].height;
  }

  /** The unit `u` is the highest, and `rest` is what is queued beside it. */
  ghost predicate OnTop(queue: map<Rev, Unit>, u: Unit, rest: map<Rev, Unit>) {
    Highest(queue, u.revision) && queue[u.revision] == u && queue - {u.revision} == rest
  }

  lemma TurnOne(h: History, lcs: (seq<Line>, seq<Line>) -> seq<Line>, st: State, st': State, u: Unit, rest: map<Rev, Unit>, p: Rev)
    requires Turn(h, lcs, st, st') && OnTop(st.queue, u, rest) && u.interesting == {p}
    ensures st' == Evaluated(u.revision, AllTouched(h, u, OneEdge(h, lcs, u, p, st.(queue := rest))))
  {
    var q, ps :| TurnBy(h, lcs, st, st', q, ps);
    TheHighest(st.queue, u.revision, q);
    OneInOrder(ps, p);
    OneEdgeOnly(h, lcs, u, p, st.(queue := rest));
  }

  lemma TurnTwo(h: History, lcs: (seq<Line>, seq<Line>) -> seq<Line>, st: State, st': State, u: Unit, rest: map<Rev, Unit>,
                p: Rev, p': Rev)
    requires Turn(h, lcs, st, st') && OnTop(st.queue, u, rest) && u.interesting == {p, p'} && p < p'
    ensures st' == Evaluated(u.revision, AllTouched(h, u, OneEdge(h, lcs, u, p', OneEdge(h, lcs, u, p, st.(queue := rest)))))
  {
    var q, ps :| TurnBy(h, lcs, st, st', q, ps);
    TheHighest(st.queue, u.revision, q);
    TwoInOrder(ps, p, p');
    TwoEdges(h, lcs, u, p, p', st.(queue := rest));
  }

  lemma NotAdded(h: History, u: Unit, p: Rev, st: State)
    requires p in u.interesting && h.Live(p)
    ensures AllTouched(h, u, st) == st
  {
  }

  lemma CreditNone(rev: Rev, st: State)
    requires forall m :: 0 <= m < |st.annotations| && m in st.touched && st.annotations[m] == NullRev ==> m in st.copied
    ensures Evaluated(rev, st) == st.(copied := {}, touched := {})
  {
    var a := Evaluated(rev, st).annotations;
    assert |a| == |st.annotations| && forall m :: 0 <= m < |a| ==> a[m] == st.annotations[m];
    assert a == st.annotations;
  }

  lemma CreditLine(rev: Rev, st: State, i: nat)
    requires i < |st.annotations| && i in st.touched && i !in st.copied && st.annotations[i] == NullRev
    requires forall m :: 0 <= m < |st.annotations| && m in st.touched && m != i && st.annotations[m] == NullRev ==> m in st.copied
    ensures Evaluated(rev, st) == st.(annotations := st.annotations[i := rev], copied := {}, touched := {})
  {
    var a := Evaluated(rev, st).annotations;
    assert |a| == |st.annotations| && forall m :: 0 <= m < |a| ==> a[m] == st.annotations[i := rev][m];
    assert a == st.annotations[i := rev];
  }

  // ---------- the run ----------

  const U1 := Unit(3, 1, 1, {0}, 1, true)
  const U2 := Unit(6, 2, 2, {1}, 1, false)
  const U3 := Unit(4, 3, 3, {2}, 2, true)
  const U4 := Unit(5, 4, 4, {2}, 3, true)
  const U5 := Unit(1, 5, 5, {3, 4}, 4, true)
  const U6 := Unit(2, 6, 6, {1}, 5, true)
  const U7 := Unit(0, 7, 7, {5, 6}, 6, true)

  const Store0: map<nat, Lineage> := map[0 := Lineage(FileF, [0, 1, 2, 3, 4])]
  const Store1 := Store0[1 := Lineage(FileM, [0, 1, 2])][2 := Lineage(FileC, [3, 4])]
  const Store2 := Store1[3 := Lineage(FileV, [4])]
  const Store3 := Store2[4 := Lineage(FileB, [0, 1])][5 := Lineage(FileA, [1, 2])]
  const Store4 := Store3[6 := Lineage(FileV, [2])]
  const Store5 := Store4[7 := Lineage(FileV, [0])]

  /** A state at the head of the loop. */
  function Head(a: seq<Rev>, equivalent: map<int, int>, store: map<nat, Lineage>, next: nat, queue: map<Rev, Unit>): State {
    State(a, equivalent, {}, {}, store, next, queue)
  }

  const S0 := Head([0, 0, 0, 0, 0], map[], Store0, 1, map[7 := U7])
  const S1 := Head([0, 0, 0, 0, 0], map[], Store1, 3, map[5 := U5, 6 := U6])
  const S2 := Head([0, 0, 0, 6, 0], map[], Store2, 4, map[5 := U5, 1 := U1])
  const S3 := Head([0, 0, 0, 6, 0], map[], Store3, 6, map[1 := U1, 3 := U3, 4 := U4])
  const S4 := Head([0, 4, 0, 6, 0], map[], Store4, 7, map[1 := U1, 3 := U3, 2 := U2])
  const S5 := Head([0, 4, 0, 6, 0], map[0 := 2], Store5, 8, map[1 := U1, 2 := U2])
  const S6 := Head([0, 4, 0, 6, 0], map[0 := 2, 2 := 4], Store5, 8, map[1 := U1])
  const S7 := Head([0, 4, 0, 6, 1], map[0 := 2, 2 := 4], Store5, 8, map[])

  lemma Begins()
    ensures First(Past, 7) == S0
  {
    assert seq(5, i => i) == [0, 1, 2, 3, 4];
    assert seq(5, _ => NullRev) == [0, 0, 0, 0, 0];
  }

  /** What the history says of a revision. */
  ghost predicate Says(h: History, r: Rev, content: FileId, lines: seq<Line>) {
    h.Live(r) && h.content[r] == content && content in h.lines && h.lines[content] == lines
  }

  ghost predicate Texts(h: History) {
    && !h.Live(0) && Says(h, 1, 1, FileV) && Says(h, 2, 1, FileV) && Says(h, 3, 2, FileB) && Says(h, 4, 3, FileA)
    && Says(h, 5, 4, FileM) && Says(h, 6, 5, FileC) && Says(h, 7, 6, FileF)
  }

  ghost predicate Units(h: History) {
    && UnitFor(h, 1, 3) == U1 && UnitFor(h, 2, 6) == U2 && UnitFor(h, 3, 4) == U3 && UnitFor(h, 4, 5) == U4
    && UnitFor(h, 5, 1) == U5 && UnitFor(h, 6, 2) == U6 && UnitFor(h, 7, 0) == U7
  }

  lemma PastTexts()
    ensures Texts(Past)
  {
  }

  lemma PastUnits1to3()
    ensures UnitFor(Past, 1, 3) == U1 && UnitFor(Past, 2, 6) == U2 && UnitFor(Past, 3, 4) == U3
  {
  }

  lemma PastUnits4to5()
    ensures UnitFor(Past, 4, 5) == U4 && UnitFor(Past, 5, 1) == U5
  {
  }

  lemma PastUnits6to7()
    ensures UnitFor(Past, 6, 2) == U6 && UnitFor(Past, 7, 0) == U7
  {
  }

  lemma PastUnits()
    ensures Units(Past)
  {
    PastUnits1to3();
    PastUnits4to5();
    PastUnits6to7();
  }

  /** The common subsequences of the run. */
  ghost predicate Common(lcs: (seq<Line>, seq<Line>) -> seq<Line>) {
    && lcs(FileF, FileM) == FileM && lcs(FileF, FileC) == FileC && lcs(FileC, FileV) == FileV && lcs(FileM, FileB) == FileB
    && lcs(FileM, FileA) == FileA && lcs(FileA, FileV) == FileV && lcs(FileB, FileV) == FileV
  }

  lemma AllCommon(lcs: (seq<Line>, seq<Line>) -> seq<Line>)
    requires Longest(lcs)
    ensures Common(lcs)
  {
    EdgeFM();
    WholeIsLongest(lcs, FileF, FileM);
    EdgeFC();
    WholeIsLongest(lcs, FileF, FileC);
    EdgeCV();
    WholeIsLongest(lcs, FileC, FileV);
    EdgeMB();
    WholeIsLongest(lcs, FileM, FileB);
    EdgeMA();
    WholeIsLongest(lcs, FileM, FileA);
    EdgeAU();
    WholeIsLongest(lcs, FileA, FileV);
    EdgeBU();
    WholeIsLongest(lcs, FileB, FileV);
  }

  lemma Top1()
    ensures OnTop(map[7 := U7], U7, map[])
  {
  }

  lemma Turn1(h: History, lcs: (seq<Line>, seq<Line>) -> seq<Line>, st: State)
    requires Texts(h) && Units(h) && Common(lcs) && Turn(h, lcs, S0, st)
    ensures st == S1
  {
    Top1();
    TurnTwo(h, lcs, S0, st, U7, map[], 5, 6);
    Turn1Edges(h, lcs, S0.(queue := map[]));
  }

  lemma Turn1Edges(h: History, lcs: (seq<Line>, seq<Line>) -> seq<Line>, s0: State)
    requires Texts(h) && Units(h) && Common(lcs) && s0 == Head([0, 0, 0, 0, 0], map[], Store0, 1, map[])
    ensures Evaluated(7, AllTouched(h, U7, OneEdge(h, lcs, U7, 6, OneEdge(h, lcs, U7, 5, s0)))) == S1
  {
    var l := Lineage(FileF, [0, 1, 2, 3, 4]);
    EdgeFM();
    QueuesNew(h, lcs, U7, 5, s0, l, FileM, [0, 1, 2], [3, 4], U5);
    var s1 := OneEdge(h, lcs, U7, 5, s0);
    EdgeFC();
    QueuesNew(h, lcs, U7, 6, s1, l, FileC, [3, 4], [0, 1, 2], U6);
    var s2 := OneEdge(h, lcs, U7, 6, s1);
    NotAdded(h, U7, 5, s2);
    CreditNone(7, s2);
  }

  lemma Top2()
    ensures OnTop(map[5 := U5, 6 := U6], U6, map[5 := U5])
  {
  }

  lemma Turn2(h: History, lcs: (seq<Line>, seq<Line>) -> seq<Line>, st: State)
    requires Texts(h) && Units(h) && Common(lcs) && Turn(h, lcs, S1, st)
    ensures st == S2
  {
    Top2();
    TurnOne(h, lcs, S1, st, U6, map[5 := U5], 1);
    Turn2Edges(h, lcs, S1.(queue := map[5 := U5]));
  }

  lemma Turn2Edges(h: History, lcs: (seq<Line>, seq<Line>) -> seq<Line>, s0: State)
    requires Texts(h) && Units(h) && Common(lcs) && s0 == Head([0, 0, 0, 0, 0], map[], Store1, 3, map[5 := U5])
    ensures Evaluated(6, AllTouched(h, U6, OneEdge(h, lcs, U6, 1, s0))) == S2
  {
    Turn2Edge(h, lcs, s0);
    Turn2Credit(h);
  }

  lemma Turn2Edge(h: History, lcs: (seq<Line>, seq<Line>) -> seq<Line>, s0: State)
    requires Says(h, 1, 1, FileV) && UnitFor(h, 1, 3) == U1 && lcs(FileC, FileV) == FileV
    requires s0 == Head([0, 0, 0, 0, 0], map[], Store1, 3, map[5 := U5])
    ensures OneEdge(h, lcs, U6, 1, s0) == State([0, 0, 0, 0, 0], map[], {4}, {3}, Store2, 4, map[5 := U5, 1 := U1])
  {
    EdgeCV();
    QueuesNew(h, lcs, U6, 1, s0, Lineage(FileC, [3, 4]), FileV, [4], [3], U1);
    assert Indices([4]) == {4} && Indices([3]) == {3};
  }

  lemma Turn2Credit(h: History)
    requires h.Live(1)
    ensures Evaluated(6, AllTouched(h, U6, State([0, 0, 0, 0, 0], map[], {4}, {3}, Store2, 4, map[5 := U5, 1 := U1]))) == S2
  {
    var s1 := State([0, 0, 0, 0, 0], map[], {4}, {3}, Store2, 4, map[5 := U5, 1 := U1]);
    NotAdded(h, U6, 1, s1);
    CreditLine(6, s1, 3);
  }

  lemma Top3()
    ensures OnTop(map[5 := U5, 1 := U1], U5, map[1 := U1])
  {
  }

  lemma Turn3(h: History, lcs: (seq<Line>, seq<Line>) -> seq<Line>, st: State)
    requires Texts(h) && Units(h) && Common(lcs) && Turn(h, lcs, S2, st)
    ensures st == S3
  {
    Top3();
    TurnTwo(h, lcs, S2, st, U5, map[1 := U1], 3, 4);
    Turn3Edges(h, lcs, S2.(queue := map[1 := U1]));
  }

  lemma Turn3Edges(h: History, lcs: (seq<Line>, seq<Line>) -> seq<Line>, s0: State)
    requires Texts(h) && Units(h) && Common(lcs) && s0 == Head([0, 0, 0, 6, 0], map[], Store2, 4, map[1 := U1])
    ensures Evaluated(5, AllTouched(h, U5, OneEdge(h, lcs, U5, 4, OneEdge(h, lcs, U5, 3, s0)))) == S3
  {
    Turn3EdgeB(h, lcs, s0);
    Turn3EdgeA(h, lcs, OneEdge(h, lcs, U5, 3, s0));
    var s2 := State([0, 0, 0, 6, 0], map[], {0, 1} + {1, 2}, {2} + {0}, Store3, 6, map[1 := U1, 3 := U3, 4 := U4]);
    NotAdded(h, U5, 3, s2);
    CreditNone(5, s2);
  }

  lemma Turn3EdgeB(h: History, lcs: (seq<Line>, seq<Line>) -> seq<Line>, s0: State)
    requires Says(h, 3, 2, FileB) && UnitFor(h, 3, 4) == U3 && lcs(FileM, FileB) == FileB && s0 == Head([0, 0, 0, 6, 0], map[], Store2, 4, map[1 := U1])
    ensures OneEdge(h, lcs, U5, 3, s0) ==
      State([0, 0, 0, 6, 0], map[], {0, 1}, {2}, Store2[4 := Lineage(FileB, [0, 1])], 5, map[1 := U1, 3 := U3])
  {
    EdgeMB();
    QueuesNew(h, lcs, U5, 3, s0, Lineage(FileM, [0, 1, 2]), FileB, [0, 1], [2], U3);
    assert Indices([0, 1]) == {0, 1} && Indices([2]) == {2};
  }

  lemma Turn3EdgeA(h: History, lcs: (seq<Line>, seq<Line>) -> seq<Line>, s1: State)
    requires Says(h, 4, 3, FileA) && UnitFor(h, 4, 5) == U4 && lcs(FileM, FileA) == FileA
    requires s1 == State([0, 0, 0, 6, 0], map[], {0, 1}, {2}, Store2[4 := Lineage(FileB, [0, 1])], 5, map[1 := U1, 3 := U3])
    ensures OneEdge(h, lcs, U5, 4, s1) ==
      State([0, 0, 0, 6, 0], map[], {0, 1} + {1, 2}, {2} + {0}, Store3, 6, map[1 := U1, 3 := U3, 4 := U4])
  {
    EdgeMA();
    QueuesNew(h, lcs, U5, 4, s1, Lineage(FileM, [0, 1, 2]), FileA, [1, 2], [0], U4);
    assert Indices([1, 2]) == {1, 2} && Indices([0]) == {0};
  }

  lemma Top4()
    ensures OnTop(map[1 := U1, 3 := U3, 4 := U4], U4, map[1 := U1, 3 := U3])
  {
  }

  lemma Turn4(h: History, lcs: (seq<Line>, seq<Line>) -> seq<Line>, st: State)
    requires Texts(h) && Units(h) && Common(lcs) && Turn(h, lcs, S3, st)
    ensures st == S4
  {
    Top4();
    TurnOne(h, lcs, S3, st, U4, map[1 := U1, 3 := U3], 2);
    Turn4Edges(h, lcs, S3.(queue := map[1 := U1, 3 := U3]));
  }

  lemma Turn4Edges(h: History, lcs: (seq<Line>, seq<Line>) -> seq<Line>, s0: State)
    requires Texts(h) && Units(h) && Common(lcs) && s0 == Head([0, 0, 0, 6, 0], map[], Store3, 6, map[1 := U1, 3 := U3])
    ensures Evaluated(4, AllTouched(h, U4, OneEdge(h, lcs, U4, 2, s0))) == S4
  {
    Turn4Edge(h, lcs, s0);
    Turn4Credit(h);
  }

  lemma Turn4Credit(h: History)
    requires h.Live(2)
    ensures Evaluated(4, AllTouched(h, U4,
      State([0, 0, 0, 6, 0], map[], {2}, {1}, Store4, 7, map[1 := U1, 3 := U3, 2 := U2]))) == S4
  {
    var s1 := State([0, 0, 0, 6, 0], map[], {2}, {1}, Store4, 7, map[1 := U1, 3 := U3, 2 := U2]);
    NotAdded(h, U4, 2, s1);
    CreditLine(4, s1, 1);
  }

  lemma Turn4Edge(h: History, lcs: (seq<Line>, seq<Line>) -> seq<Line>, s0: State)
    requires Says(h, 2, 1, FileV) && UnitFor(h, 2, 6) == U2 && lcs(FileA, FileV) == FileV
    requires s0 == Head([0, 0, 0, 6, 0], map[], Store3, 6, map[1 := U1, 3 := U3])
    ensures OneEdge(h, lcs, U4, 2, s0) ==
      State([0, 0, 0, 6, 0], map[], {2}, {1}, Store4, 7, map[1 := U1, 3 := U3, 2 := U2])
  {
    EdgeAU();
    QueuesNew(h, lcs, U4, 2, s0, Lineage(FileA, [1, 2]), FileV, [2], [1], U2);
    assert Indices([2]) == {2} && Indices([1]) == {1};
  }

  lemma Top5()
    ensures OnTop(map[1 := U1, 3 := U3, 2 := U2], U3, map[1 := U1, 2 := U2])
  {
  }

  lemma Turn5(h: History, lcs: (seq<Line>, seq<Line>) -> seq<Line>, st: State)
    requires Texts(h) && Units(h) && Common(lcs) && Turn(h, lcs, S4, st)
    ensures st == S5
  {
    Top5();
    TurnOne(h, lcs, S4, st, U3, map[1 := U1, 2 := U2], 2);
    Turn5Edges(h, lcs, S4.(queue := map[1 := U1, 2 := U2]));
  }

  lemma Turn5Edges(h: History, lcs: (seq<Line>, seq<Line>) -> seq<Line>, s0: State)
    requires Texts(h) && Units(h) && Common(lcs) && s0 == Head([0, 4, 0, 6, 0], map[], Store4, 7, map[1 := U1, 2 := U2])
    ensures Evaluated(3, AllTouched(h, U3, OneEdge(h, lcs, U3, 2, s0))) == S5
  {
    EdgeBU();
    JoinsQueued(h, lcs, U3, 2, s0, Lineage(FileB, [0, 1]), FileV, 0, [1], 6, 2);
    var s1 := OneEdge(h, lcs, U3, 2, s0);
    NotAdded(h, U3, 2, s1);
    CreditNone(3, s1);
  }

  lemma Top6()
    ensures OnTop(map[1 := U1, 2 := U2], U2, map[1 := U1])
  {
  }

  lemma Turn6(h: History, lcs: (seq<Line>, seq<Line>) -> seq<Line>, st: State)
    requires Texts(h) && Units(h) && Common(lcs) && Turn(h, lcs, S5, st)
    ensures st == S6
  {
    Top6();
    TurnOne(h, lcs, S5, st, U2, map[1 := U1], 1);
    Turn6Edges(h, lcs, S5.(queue := map[1 := U1]));
  }

  lemma Turn6Edges(h: History, lcs: (seq<Line>, seq<Line>) -> seq<Line>, s0: State)
    requires Texts(h) && Units(h) && Common(lcs) && s0 == Head([0, 4, 0, 6, 0], map[0 := 2], Store5, 8, map[1 := U1])
    ensures Evaluated(2, AllTouched(h, U2, OneEdge(h, lcs, U2, 1, s0))) == S6
  {
    SharesQueued(h, lcs, U2, 1, s0, FileV, 2, 3, 4);
    var s1 := OneEdge(h, lcs, U2, 1, s0);
    NotAdded(h, U2, 1, s1);
    CreditNone(2, s1);
  }

  lemma Top7()
    ensures OnTop(map[1 := U1], U1, map[])
  {
  }

  lemma Turn7(h: History, lcs: (seq<Line>, seq<Line>) -> seq<Line>, st: State)
    requires Texts(h) && Units(h) && Common(lcs) && Turn(h, lcs, S6, st)
    ensures st == S7
  {
    Top7();
    TurnOne(h, lcs, S6, st, U1, map[], 0);
    Turn7Edges(h, lcs, S6.(queue := map[]));
  }

  lemma Turn7Edges(h: History, lcs: (seq<Line>, seq<Line>) -> seq<Line>, s0: State)
    requires Texts(h) && Units(h) && Common(lcs) && s0 == Head([0, 4, 0, 6, 0], map[0 := 2, 2 := 4], Store5, 8, map[])
    ensures Evaluated(1, AllTouched(h, U1, OneEdge(h, lcs, U1, 0, s0))) == S7
  {
    assert AllTouched(h, U1, s0) == s0.(touched := Indices([4]));
    CreditLine(1, s0.(touched := Indices([4])), 4);
  }

  ghost predicate Steps(h: History, lcs: (seq<Line>, seq<Line>) -> seq<Line>, run: seq<State>) {
    && |run| > 0 && Finished(run[|run| - 1])
    && forall i {:trigger run[i]} :: 0 <= i < |run| - 1 ==> !Finished(run[i]) && Turn(h, lcs, run[i], run[i + 1])
  }

  /** While something is queued and a line is open the run goes on. */
  lemma GoesOn(h: History, lcs: (seq<Line>, seq<Line>) -> seq<Line>, run: seq<State>, i: nat, r: Rev)
    requires Steps(h, lcs, run) && i < |run| && |run[i].annotations| > 0 && run[i].annotations[0] == NullRev && r in run[i].queue
    ensures i + 1 < |run| && Turn(h, lcs, run[i], run[i + 1])
  {
  }

  lemma RunToA(h: History, lcs: (seq<Line>, seq<Line>) -> seq<Line>, run: seq<State>)
    requires Texts(h) && Units(h) && Common(lcs) && Steps(h, lcs, run) && run[0] == S0
    ensures 4 < |run| && run[4] == S4
  {
    GoesOn(h, lcs, run, 0, 7);
    Turn1(h, lcs, run[1]);
    GoesOn(h, lcs, run, 1, 6);
    Turn2(h, lcs, run[2]);
    GoesOn(h, lcs, run, 2, 5);
    Turn3(h, lcs, run[3]);
    GoesOn(h, lcs, run, 3, 4);
    Turn4(h, lcs, run[4]);
  }

  lemma RunToV(h: History, lcs: (seq<Line>, seq<Line>) -> seq<Line>, run: seq<State>)
    requires Texts(h) && Units(h) && Common(lcs) && Steps(h, lcs, run) && 4 < |run| && run[4] == S4
    ensures 7 < |run| && run[7] == S7
  {
    GoesOn(h, lcs, run, 4, 3);
    Turn5(h, lcs, run[5]);
    GoesOn(h, lcs, run, 5, 2);
    Turn6(h, lcs, run[6]);
    GoesOn(h, lcs, run, 6, 1);
    Turn7(h, lcs, run[7]);
  }

  /** Every run of the annotation of revision 7 ends in the same state. */
  lemma RunGoes(lcs: (seq<Line>, seq<Line>) -> seq<Line>, run: seq<State>)
    requires Longest(lcs) && IsRun(Past, lcs, 7, run)
    ensures run[|run| - 1] == S7
  {
    AllCommon(lcs);
    Begins();
    PastTexts();
    PastUnits();
    RunToA(Past, lcs, run);
    RunToV(Past, lcs, run);
    assert Finished(run[7]);
  }

  lemma Passed7(annotations: seq<Rev>)
    requires Passing(FileF, S7, annotations)
    ensures annotations == [NullRev, 4, 1, 6, 1]
  {
    var a, e := S7.annotations, S7.equivalent;
    assert annotations[0] == Resolved(a, e, 0) && annotations[2] == Resolved(a, e, 2);
  }

  /** The annotation of revision 7, with whatever longest common subsequences, leaves its first line
      without a revision: it was given up for the third, which was given up for the fifth. */
  method FirstLineMissed(lcs: (seq<Line>, seq<Line>) -> seq<Line>) returns (annotations: seq<Rev>)
    requires Longest(lcs)
    ensures annotations == [NullRev, 4, 1, 6, 1]
  {
    PastValid();
    PastTexts();
    ghost var heights, run;
    annotations, heights, run := DoAnnotate(Past, lcs, 7);
    RunGoes(lcs, run);
    Passed7(annotations);
  }
}
