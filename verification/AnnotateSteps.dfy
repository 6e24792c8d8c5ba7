/** The annotation as a step function on values: what one work unit does to the state. */
module AnnotateSteps {
  import opened Lineages

  datatype State = State(annotations: seq<Rev>, equivalent: map<int, int>, copied: set<int>, touched: set<int>,
                         lineages: map<nat, Lineage>, next: nat, queue: map<Rev, Unit>)

  // ---------- the lines of a child and of a parent ----------

  /** The entries of the child's lines that the common subsequence picks, from the left. */
  function Picked(lines: seq<Line>, mapping: seq<int>, lcs: seq<Line>): seq<int>
    requires |lines| == |mapping|
  {
    if lines == [] || lcs == [] then []
    else if lines[0] == lcs[0] then [mapping[0]] + Picked(lines[1..], mapping[1..], lcs[1..])
    else Picked(lines[1..], mapping[1..], lcs)
  }

  /** The entries of the lines it passes over. */
  function Passed(lines: seq<Line>, mapping: seq<int>, lcs: seq<Line>): seq<int>
    requires |lines| == |mapping|
  {
    if lines == [] then []
    else if lcs != [] && lines[0] == lcs[0] then Passed(lines[1..], mapping[1..], lcs[1..])
    else [mapping[0]] + Passed(lines[1..], mapping[1..], lcs)
  }

  /** The entries of the parent's lines: what was picked for the lines of the subsequence. */
  function Placed(lines: seq<Line>, lcs: seq<Line>, src: seq<int>): seq<int> {
    if lines == [] then []
    else if lcs != [] && src != [] && lines[0] == lcs[0] then [src[0]] + Placed(lines[1..], lcs[1..], src[1..])
    else [-1] + Placed(lines[1..], lcs, src)
  }

  function Indices(s: seq<int>): set<int> {
    set m | m in s && m >= 0
  }

  lemma {:induction false} PickedOk(file: seq<Line>, lines: seq<Line>, mapping: seq<int>, lcs: seq<Line>)
    requires LineageOk(file, Lineage(lines, mapping))
    ensures SourceOk(file, lcs, Picked(lines, mapping, lcs))
    decreases |lines|
  {
    if lines != [] && lcs != [] {
      TailOk(file, lines, mapping);
      if lines[0] == lcs[0] {
        PickedOk(file, lines[1..], mapping[1..], lcs[1..]);
      } else {
        PickedOk(file, lines[1..], mapping[1..], lcs);
      }
    }
  }

  lemma TailOk(file: seq<Line>, lines: seq<Line>, mapping: seq<int>)
    requires LineageOk(file, Lineage(lines, mapping)) && lines != []
    ensures LineageOk(file, Lineage(lines[1..], mapping[1..]))
  {
    assert forall i :: 0 <= i < |mapping| - 1 ==> mapping[1..][i] == mapping[i + 1];
  }

  /** Every entry is picked or passed over, and nothing else is. */
  lemma {:induction false} PickedOrPassed(lines: seq<Line>, mapping: seq<int>, lcs: seq<Line>, m: int)
    requires |lines| == |mapping|
    ensures m in mapping <==> m in Picked(lines, mapping, lcs) || m in Passed(lines, mapping, lcs)
    decreases |lines|
  {
    if lines != [] {
      assert mapping == [mapping[0]] + mapping[1..];
      if lcs == [] {
        PickedOrPassed(lines[1..], mapping[1..], lcs, m);
      } else if lines[0] == lcs[0] {
        PickedOrPassed(lines[1..], mapping[1..], lcs[1..], m);
      } else {
        PickedOrPassed(lines[1..], mapping[1..], lcs, m);
      }
    }
  }

  lemma {:induction false} PassedAll(lines: seq<Line>, mapping: seq<int>)
    requires |lines| == |mapping|
    ensures Passed(lines, mapping, []) == mapping
    decreases |lines|
  {
    if lines != [] {
      PassedAll(lines[1..], mapping[1..]);
      assert mapping == [mapping[0]] + mapping[1..];
    }
  }

  /** The child's lines before `i` and the subsequence before `j` have been gone through. */
  ghost predicate MatchedTo(l: Lineage, lcs: seq<Line>, i: nat, j: nat, src: seq<int>, passed: seq<int>)
    requires |l.lines| == |l.mapping|
  {
    && i <= |l.lines| && j <= |lcs| && |src| == j
    && src + Picked(l.lines[i..], l.mapping[i..], lcs[j..]) == Picked(l.lines, l.mapping, lcs)
    && passed + Passed(l.lines[i..], l.mapping[i..], lcs[j..]) == Passed(l.lines, l.mapping, lcs)
  }

  lemma MatchStart(l: Lineage, lcs: seq<Line>)
    requires |l.lines| == |l.mapping|
    ensures MatchedTo(l, lcs, 0, 0, [], [])
  {
    assert lcs[0..] == lcs && l.lines[0..] == l.lines && l.mapping[0..] == l.mapping;
  }

  lemma MatchStep(l: Lineage, lcs: seq<Line>, i: nat, j: nat, src: seq<int>, passed: seq<int>)
    requires |l.lines| == |l.mapping| && MatchedTo(l, lcs, i, j, src, passed) && i < |l.lines| && j < |lcs|
    ensures l.lines[i] == lcs[j] ==> MatchedTo(l, lcs, i + 1, j + 1, src + [l.mapping[i]], passed)
    ensures l.lines[i] != lcs[j] ==> MatchedTo(l, lcs, i + 1, j, src, passed + [l.mapping[i]])
  {
    assert l.lines[i..][1..] == l.lines[i + 1..] && l.mapping[i..][1..] == l.mapping[i + 1..] && lcs[j..][1..] == lcs[j + 1..];
    if l.lines[i] == lcs[j] {
      Regroup(src, l.mapping[i], Picked(l.lines[i + 1..], l.mapping[i + 1..], lcs[j + 1..]));
    } else {
      Regroup(passed, l.mapping[i], Passed(l.lines[i + 1..], l.mapping[i + 1..], lcs[j..]));
    }
  }

  lemma Regroup(a: seq<int>, x: int, b: seq<int>)
    ensures a + ([x] + b) == (a + [x]) + b
  {
  }

  lemma MatchEnd(l: Lineage, lcs: seq<Line>, i: nat, src: seq<int>, passed: seq<int>)
    requires |l.lines| == |l.mapping| && MatchedTo(l, lcs, i, |lcs|, src, passed)
    ensures src == Picked(l.lines, l.mapping, lcs) && Passed(l.lines, l.mapping, lcs) == passed + l.mapping[i..]
  {
    PassedAll(l.lines[i..], l.mapping[i..]);
  }

  /** The parent's lines before `i` and the subsequence before `j` have been gone through. */
  ghost predicate PlacedTo(lines: seq<Line>, lcs: seq<Line>, src: seq<int>, i: nat, j: nat, mapping: seq<int>) {
    i <= |lines| && j <= |lcs| == |src| && mapping + Placed(lines[i..], lcs[j..], src[j..]) == Placed(lines, lcs, src)
  }

  lemma PlaceStart(lines: seq<Line>, lcs: seq<Line>, src: seq<int>)
    requires |lcs| == |src|
    ensures PlacedTo(lines, lcs, src, 0, 0, [])
  {
    assert lcs[0..] == lcs && lines[0..] == lines && src[0..] == src;
  }

  lemma PlaceStep(lines: seq<Line>, lcs: seq<Line>, src: seq<int>, i: nat, j: nat, mapping: seq<int>)
    requires PlacedTo(lines, lcs, src, i, j, mapping) && i < |lines|
    ensures j < |lcs| && lines[i] == lcs[j] ==> PlacedTo(lines, lcs, src, i + 1, j + 1, mapping + [src[j]])
    ensures j == |lcs| || lines[i] != lcs[j] ==> PlacedTo(lines, lcs, src, i + 1, j, mapping + [-1])
  {
    assert lines[i..][1..] == lines[i + 1..];
    if j < |lcs| && lines[i] == lcs[j] {
      assert lcs[j..][1..] == lcs[j + 1..] && src[j..][1..] == src[j + 1..];
      Regroup(mapping, src[j], Placed(lines[i + 1..], lcs[j + 1..], src[j + 1..]));
    } else {
      Regroup(mapping, -1, Placed(lines[i + 1..], lcs[j..], src[j..]));
    }
  }

  lemma {:induction false} PlacedOk(file: seq<Line>, lines: seq<Line>, lcs: seq<Line>, src: seq<int>)
    requires SourceOk(file, lcs, src)
    ensures LineageOk(file, Lineage(lines, Placed(lines, lcs, src)))
    decreases |lines|
  {
    if lines != [] {
      if lcs != [] && src != [] && lines[0] == lcs[0] {
        assert forall k :: 0 <= k < |src| - 1 ==> src[1..][k] == src[k + 1];
        PlacedOk(file, lines[1..], lcs[1..], src[1..]);
      } else {
        PlacedOk(file, lines[1..], lcs, src);
      }
    }
  }

  /** Everything picked finds its place. */
  lemma {:induction false} PlacedAll(lines: seq<Line>, lcs: seq<Line>, src: seq<int>, m: int)
    requires |src| == |lcs| && Subsequence(lcs, lines) && m in src
    ensures m in Placed(lines, lcs, src)
    decreases |lines|
  {
    GreedyStep(lcs, lines);
    assert src == [src[0]] + src[1..];
    if lines[0] == lcs[0] {
      if m != src[0] {
        PlacedAll(lines[1..], lcs[1..], src[1..], m);
      }
    } else {
      PlacedAll(lines[1..], lcs, src, m);
    }
  }

  lemma IndicesAdd(a: seq<int>, b: seq<int>)
    ensures Indices(a + b) == Indices(a) + Indices(b)
  {
  }

  lemma MatchMarks(l: Lineage, lcs: seq<Line>, copied: set<int>, touched: set<int>)
    requires |l.lines| == |l.mapping|
    ensures Marked(l, copied, touched, copied + Indices(Picked(l.lines, l.mapping, lcs)),
                   touched + Indices(Passed(l.lines, l.mapping, lcs)), |l.mapping|)
  {
    forall m ensures m in l.mapping <==> m in Picked(l.lines, l.mapping, lcs) || m in Passed(l.lines, l.mapping, lcs) {
      PickedOrPassed(l.lines, l.mapping, lcs, m);
    }
  }

  // ---------- the lineage of an ancestor ----------

  function LineageAt(store: map<nat, Lineage>, id: nat): Lineage {
    if id in store then store[id] else Lineage([], [])
  }

  function LinesOf(h: History, content: FileId): seq<Line> {
    if content in h.lines then h.lines[content] else []
  }

  function Derived(l: Lineage, lines: seq<Line>, lcs: seq<Line>): Lineage
    requires |l.lines| == |l.mapping|
  {
    Lineage(lines, Placed(lines, lcs, Picked(l.lines, l.mapping, lcs)))
  }

  /** The lineage handed to an ancestor, and the lines copied and touched on the way. */
  function HandedOn(h: History, lcs: (seq<Line>, seq<Line>) -> seq<Line>, u: Unit, content: FileId, st: State): (State, nat) {
    var l := LineageAt(st.lineages, u.lineage);
    var lines := LinesOf(h, content);
    if content == u.content then (st.(copied := st.copied + Indices(l.mapping)), u.lineage)
    else if |l.lines| != |l.mapping| then (st, u.lineage)
    else
      var common := lcs(l.lines, lines);
      (st.(copied := st.copied + Indices(Picked(l.lines, l.mapping, common)),
           touched := st.touched + Indices(Passed(l.lines, l.mapping, common)),
           lineages := st.lineages[st.next := Derived(l, lines, common)],
           next := st.next + 1),
       st.next)
  }

  // ---------- the ancestor's unit ----------

  /** The unit of a revision: what is asked next are its parents if its content changed in it, else
      the revisions in which it last changed. */
  function UnitFor(h: History, r: Rev, lineage: nat): Unit {
    var marks := if r in h.marks then h.marks[r] else {};
    var parents := if r in h.parents then h.parents[r] else {};
    Unit(lineage, r, if r in h.height then h.height[r] else 0, if marks == {r} then parents else marks,
         if r in h.content then h.content[r] else NoFile, marks == {r})
  }

  /** Gaps are filled. */
  function Filled(mapping: seq<int>, other: seq<int>): seq<int>
    requires |mapping| == |other|
  {
    seq(|mapping|, i requires 0 <= i < |mapping| => if mapping[i] == -1 && other[i] >= 0 then other[i] else mapping[i])
  }

  /** Where the filled mapping and the other one disagree, the other's line is equivalent. */
  function Matched(equivalent: map<int, int>, mapping: seq<int>, other: seq<int>): map<int, int>
    requires |mapping| == |other|
  {
    if mapping == [] then equivalent
    else
      var n := |mapping| - 1;
      var e := Matched(equivalent, mapping[..n], other[..n]);
      if mapping[n] >= 0 && other[n] >= 0 && mapping[n] != other[n] then e[other[n] := mapping[n]] else e
  }

  /** The lines that became equivalent to another. */
  function Differing(mapping: seq<int>, other: seq<int>): set<int>
    requires |mapping| == |other|
  {
    set i | 0 <= i < |mapping| && mapping[i] >= 0 && other[i] >= 0 && mapping[i] != other[i] :: other[i]
  }

  lemma FilledOk(file: seq<Line>, l: Lineage, other: Lineage)
    requires LineageOk(file, l) && LineageOk(file, other) && l.lines == other.lines
    ensures LineageOk(file, Lineage(l.lines, Filled(l.mapping, other.mapping)))
    ensures Refined(l, Lineage(l.lines, Filled(l.mapping, other.mapping)))
  {
    var f := Filled(l.mapping, other.mapping);
    forall i | 0 <= i < |f| ensures f[i] == -1 || (0 <= f[i] < |file| && file[f[i]] == l.lines[i]) {
      assert f[i] == l.mapping[i] || f[i] == other.mapping[i];
    }
  }

  /** A line of the other mapping is in the filled one or has become equivalent. */
  lemma FilledHas(l: seq<int>, other: seq<int>, m: int)
    requires |l| == |other| && m in other && m >= 0 && forall i :: 0 <= i < |l| ==> l[i] >= -1
    ensures m in Filled(l, other) || m in Differing(Filled(l, other), other)
  {
    var i :| 0 <= i < |other| && other[i] == m;
    var f := Filled(l, other);
    assert f[i] in f;
    if f[i] != m {
      assert m in Differing(f, other);
    }
  }

  /** Only those lines have new equivalents, which are lines of the mapping. */
  lemma {:induction false} MatchedMeans(e: map<int, int>, mapping: seq<int>, other: seq<int>, m: int)
    requires |mapping| == |other|
    ensures m in Differing(mapping, other) ==> m in Matched(e, mapping, other) && Matched(e, mapping, other)[m] >= 0
    ensures m in Differing(mapping, other) ==> Matched(e, mapping, other)[m] in mapping
    ensures m !in Differing(mapping, other) ==> (m in Matched(e, mapping, other) <==> m in e)
    ensures m !in Differing(mapping, other) && m in e ==> Matched(e, mapping, other)[m] == e[m]
    decreases |mapping|
  {
    if mapping != [] {
      var n := |mapping| - 1;
      MatchedMeans(e, mapping[..n], other[..n], m);
      assert mapping == mapping[..n] + [mapping[n]];
      if m in Differing(mapping, other) && m != other[n] {
        var i :| 0 <= i < |mapping| && mapping[i] >= 0 && other[i] == m && mapping[i] != other[i];
        assert mapping[..n][i] == mapping[i] && other[..n][i] == m;
        assert m in Differing(mapping[..n], other[..n]);
      }
    }
  }

  lemma {:induction false} MatchedOk(file: seq<Line>, e: map<int, int>, lines: seq<Line>, mapping: seq<int>, other: seq<int>)
    requires LineageOk(file, Lineage(lines, mapping)) && LineageOk(file, Lineage(lines, other)) && EquivalentOk(file, e)
    ensures EquivalentOk(file, Matched(e, mapping, other))
    decreases |mapping|
  {
    if mapping != [] {
      var n := |mapping| - 1;
      MatchedOk(file, e, lines[..n], mapping[..n], other[..n]);
    }
  }

  function Joined(st: State, into: nat, id: nat): State {
    var l, other := LineageAt(st.lineages, into), LineageAt(st.lineages, id);
    if |l.mapping| != |other.mapping| then st
    else
      var mapping := Filled(l.mapping, other.mapping);
      st.(lineages := st.lineages[into := Lineage(l.lines, mapping)], equivalent := Matched(st.equivalent, mapping, other.mapping))
  }

  // ---------- one unit ----------

  /** One edge: nothing for an ancestor without the file, else its unit is queued or joined. */
  function OneEdge(h: History, lcs: (seq<Line>, seq<Line>) -> seq<Line>, u: Unit, p: Rev, st: State): State {
    if !h.Live(p) then st
    else
      var (st1, id) := HandedOn(h, lcs, u, h.content[p], st);
      if p in st1.queue then Joined(st1, st1.queue[p].lineage, id)
      else st1.(queue := st1.queue[p := UnitFor(h, p, id)])
  }

  function AllEdges(h: History, lcs: (seq<Line>, seq<Line>) -> seq<Line>, u: Unit, ps: seq<Rev>, st: State): State
    decreases |ps|
  {
    if ps == [] then st else OneEdge(h, lcs, u, ps[|ps| - 1], AllEdges(h, lcs, u, ps[..|ps| - 1], st))
  }

  /** A file no interesting ancestor has was added here. */
  function AllTouched(h: History, u: Unit, st: State): State {
    if exists p :: p in u.interesting && h.Live(p) then st
    else st.(touched := st.touched + Indices(LineageAt(st.lineages, u.lineage).mapping))
  }

  /** Lines touched and not copied are credited. */
  function Evaluated(rev: Rev, st: State): State {
    st.(annotations := seq(|st.annotations|, m requires 0 <= m < |st.annotations| =>
          if m in st.touched - st.copied && st.annotations[m] == NullRev then rev else st.annotations[m]),
        copied := {}, touched := {})
  }

  function OneUnit(h: History, lcs: (seq<Line>, seq<Line>) -> seq<Line>, u: Unit, ps: seq<Rev>, st: State): State {
    Evaluated(u.revision, AllTouched(h, u, AllEdges(h, lcs, u, ps, st)))
  }

  // ---------- the run ----------

  /** The elements of the set in ascending order, as the source's sets are iterated. */
  ghost predicate InOrder(ps: seq<Rev>, s: set<Rev>) {
    (forall p :: p in ps <==> p in s) && forall i, j :: 0 <= i < j < |ps| ==> ps[i] < ps[j]
  }

  ghost predicate Highest(queue: map<Rev, Unit>, r: Rev) {
    r in queue && forall q {:trigger queue[q]} :: q in queue && q != r ==> queue[q].height < queue[r].height
  }

  /** One turn of the loop. */
  ghost predicate Turn(h: History, lcs: (seq<Line>, seq<Line>) -> seq<Line>, st: State, st': State) {
    exists r, ps :: TurnBy(h, lcs, st, st', r, ps)
  }

  ghost predicate TurnBy(h: History, lcs: (seq<Line>, seq<Line>) -> seq<Line>, st: State, st': State, r: Rev, ps: seq<Rev>) {
    && Highest(st.queue, r) && InOrder(ps, st.queue[r].interesting)
    && st' == OneUnit(h, lcs, st.queue[r], ps, st.(queue := st.queue - {r}))
  }

  function First(h: History, rid: Rev): State {
    var lines := LinesOf(h, if rid in h.content then h.content[rid] else NoFile);
    State(seq(|lines|, _ => NullRev), map[], {}, {}, map[0 := Lineage(lines, seq(|lines|, i => i))], 1,
          map[rid := UnitFor(h, rid, 0)])
  }

  predicate Finished(st: State) {
    st.queue == map[] || forall m :: 0 <= m < |st.annotations| ==> st.annotations[m] != NullRev
  }

  /** The states at the head of the loop, from the first to the one in which it ends. */
  ghost predicate IsRun(h: History, lcs: (seq<Line>, seq<Line>) -> seq<Line>, rid: Rev, run: seq<State>) {
    && |run| > 0 && run[0] == First(h, rid) && Finished(run[|run| - 1])
    && forall i {:trigger run[i]} :: 0 <= i < |run| - 1 ==> !Finished(run[i]) && Turn(h, lcs, run[i], run[i + 1])
  }
}
