/** Line blame: a queue of work units, ordered by height, pushes the lines of a file back
    through its history until each is credited to a revision. */
module Annotate {
  import Ordered
  import opened Lineages
  import opened AnnotateSteps
  import opened AnnotateHanded
  import opened AnnotateOwn
  import opened EquivalentLines

  lemma GreedyFrom(a: seq<Line>, b: seq<Line>, j: nat, i: nat)
    requires j < |a| && i <= |b| && Subsequence(a[j..], b[i..])
    ensures i < |b| && if b[i] == a[j] then Subsequence(a[j + 1..], b[i + 1..]) else Subsequence(a[j..], b[i + 1..])
  {
    GreedyStep(a[j..], b[i..]);
    assert a[j..][1..] == a[j + 1..] && b[i..][1..] == b[i + 1..];
  }

  lemma NoneInNone(a: seq<Line>, b: seq<Line>)
    requires Subsequence(a, b)
    ensures b == [] ==> a == []
  {
    var f :| Embeds(f, a, b);
    assert a != [] ==> f[0] < |b|;
  }

  /** What is left of the child's lines and of the subsequence still matches. */
  ghost predicate MatchingTo(l: Lineage, lcs: seq<Line>, i: nat, j: nat, src: seq<int>, passed: seq<int>)
    requires |l.lines| == |l.mapping|
  {
    MatchedTo(l, lcs, i, j, src, passed) && Subsequence(lcs[j..], l.lines[i..])
  }

  lemma MatchingStep(l: Lineage, lcs: seq<Line>, i: nat, j: nat, src: seq<int>, passed: seq<int>)
    requires |l.lines| == |l.mapping| && MatchingTo(l, lcs, i, j, src, passed) && i < |l.lines| && j < |lcs|
    ensures l.lines[i] == lcs[j] ==> MatchingTo(l, lcs, i + 1, j + 1, src + [l.mapping[i]], passed)
    ensures l.lines[i] != lcs[j] ==> MatchingTo(l, lcs, i + 1, j, src, passed + [l.mapping[i]])
  {
    MatchStep(l, lcs, i, j, src, passed);
    GreedyFrom(lcs, l.lines, j, i);
  }

  lemma MatchingEnds(l: Lineage, lcs: seq<Line>, i: nat, j: nat, src: seq<int>, passed: seq<int>)
    requires |l.lines| == |l.mapping| && MatchingTo(l, lcs, i, j, src, passed) && (i == |l.lines| || j == |lcs|)
    ensures j == |lcs|
    ensures src == Picked(l.lines, l.mapping, lcs) && Passed(l.lines, l.mapping, lcs) == passed + l.mapping[i..]
  {
    NoneInNone(lcs[j..], l.lines[i..]);
    MatchEnd(l, lcs, i, src, passed);
  }

  /** What is left of the parent's lines and of the subsequence still matches. */
  ghost predicate PlacingTo(lines: seq<Line>, lcs: seq<Line>, src: seq<int>, i: nat, j: nat, mapping: seq<int>) {
    PlacedTo(lines, lcs, src, i, j, mapping) && Subsequence(lcs[j..], lines[i..])
  }

  lemma PlacingStep(lines: seq<Line>, lcs: seq<Line>, src: seq<int>, i: nat, j: nat, mapping: seq<int>)
    requires PlacingTo(lines, lcs, src, i, j, mapping) && i < |lines|
    ensures j < |lcs| && lines[i] == lcs[j] ==> PlacingTo(lines, lcs, src, i + 1, j + 1, mapping + [src[j]])
    ensures j < |lcs| && lines[i] != lcs[j] ==> PlacingTo(lines, lcs, src, i + 1, j, mapping + [-1])
    ensures j == |lcs| ==> PlacedTo(lines, lcs, src, i + 1, j, mapping + [-1])
  {
    PlaceStep(lines, lcs, src, i, j, mapping);
    if j < |lcs| {
      GreedyFrom(lcs, lines, j, i);
    }
  }

  lemma PlacingEnds(lines: seq<Line>, lcs: seq<Line>, src: seq<int>, i: nat, j: nat, mapping: seq<int>)
    requires PlacingTo(lines, lcs, src, i, j, mapping) && (i == |lines| || j == |lcs|)
    ensures j == |lcs|
  {
    NoneInNone(lcs[j..], lines[i..]);
  }

  /** The mapping of the parent's lines: where a line is matched it inherits, elsewhere -1. */
  method MatchParent(parentLines: seq<Line>, lcs: seq<Line>, src: seq<int>) returns (mapping: seq<int>)
    requires |src| == |lcs| && Subsequence(lcs, parentLines)
    ensures mapping == Placed(parentLines, lcs, src)
  {
    mapping := [];
    var i, j := 0, 0;
    PlaceStart(parentLines, lcs, src);
    assert lcs[0..] == lcs && parentLines[0..] == parentLines;
    while i < |parentLines| && j < |lcs|
      invariant PlacingTo(parentLines, lcs, src, i, j, mapping)
    {
      PlacingStep(parentLines, lcs, src, i, j, mapping);
      if parentLines[i] == lcs[j] {
        mapping, j := mapping + [src[j]], j + 1;
      } else {
        mapping := mapping + [-1];
      }
      i := i + 1;
    }
    PlacingEnds(parentLines, lcs, src, i, j, mapping);
    assert j == |lcs|;
    mapping := PlaceRest(parentLines, lcs, src, i, mapping);
  }

  /** The lines after the last match get -1. */
  method PlaceRest(parentLines: seq<Line>, lcs: seq<Line>, src: seq<int>, n: nat, sofar: seq<int>) returns (mapping: seq<int>)
    requires PlacedTo(parentLines, lcs, src, n, |lcs|, sofar)
    ensures mapping == Placed(parentLines, lcs, src)
  {
    mapping := sofar;
    for i := n to |parentLines|
      invariant PlacedTo(parentLines, lcs, src, i, |lcs|, mapping)
    {
      PlaceStep(parentLines, lcs, src, i, |lcs|, mapping);
      mapping := mapping + [-1];
    }
  }

  // ---------- what the edges of a unit have done so far ----------

  /** Nothing is lost, what was found equivalent has targets that are followed, and whatever was
      copied is carried on. */
  ghost predicate Moved(st0: State, st: State, replaced: set<int>, id: nat) {
    && Extended(st0.lineages, st0.queue, st.lineages, st.queue)
    && Redirected(st0.equivalent, st.lineages, st.queue, st.equivalent, replaced)
    && (forall m :: m in st.copied || m in st.touched ==> Mapped(LineageAt(st.lineages, id), m))
    && (forall m :: m in st.copied ==> Carried(st.lineages, st.queue, replaced, m))
  }

  /** Every line the unit maps was copied or touched. */
  ghost predicate Covered(st0: State, st: State, id: nat) {
    forall m :: Mapped(LineageAt(st0.lineages, id), m) ==> m in st.copied || m in st.touched
  }

  /** What one edge did. */
  ghost predicate EdgeDone(st: State, st': State, id: nat, live: bool, replaced: set<int>) {
    && Extended(st.lineages, st.queue, st'.lineages, st'.queue)
    && Redirected(st.equivalent, st'.lineages, st'.queue, st'.equivalent, replaced)
    && (!live ==> st'.copied == st.copied && st'.touched == st.touched)
    && (live ==> Marked(LineageAt(st.lineages, id), st.copied, st.touched, st'.copied, st'.touched,
                        |LineageAt(st.lineages, id).mapping|))
    && (live ==> forall m :: m in st'.copied && m !in st.copied ==> Carried(st'.lineages, st'.queue, replaced, m))
  }

  lemma MappedGrows(st: State, st': State, id: nat, m: int)
    requires Extended(st.lineages, st.queue, st'.lineages, st'.queue) && Mapped(LineageAt(st.lineages, id), m)
    ensures Mapped(LineageAt(st'.lineages, id), m)
  {
    assert id in st'.lineages;
    RefinedKeepsMapped(st.lineages[id], st'.lineages[id], m);
  }

  lemma MovedOn(st0: State, st: State, st': State, replaced: set<int>, more: set<int>, id: nat, live: bool)
    requires Moved(st0, st, replaced, id) && EdgeDone(st, st', id, live, more)
    ensures Moved(st0, st', replaced + more, id)
  {
    ExtendedTransitive(st0.lineages, st0.queue, st.lineages, st.queue, st'.lineages, st'.queue);
    RedirectedGrows(st0.equivalent, st.lineages, st.queue, st'.lineages, st'.queue, st.equivalent, replaced);
    RedirectedMore(st0.equivalent, st'.lineages, st'.queue, st.equivalent, replaced, st'.equivalent, more);
    forall m | m in st'.copied || m in st'.touched ensures Mapped(LineageAt(st'.lineages, id), m) {
      assert Mapped(LineageAt(st.lineages, id), m);
      MappedGrows(st, st', id, m);
    }
    forall m | m in st'.copied ensures Carried(st'.lineages, st'.queue, replaced + more, m) {
      if m in st.copied && m !in replaced {
        LiveGrows(st.lineages, st.queue, st'.lineages, st'.queue, m);
      }
    }
  }

  lemma CoveredOn(st0: State, st: State, st': State, id: nat, live: bool, more: set<int>)
    requires Extended(st0.lineages, st0.queue, st.lineages, st.queue) && EdgeDone(st, st', id, live, more)
    requires live || Covered(st0, st, id)
    ensures Covered(st0, st', id)
  {
    forall m | Mapped(LineageAt(st0.lineages, id), m) ensures m in st'.copied || m in st'.touched {
      if live {
        MappedGrows(st0, st, id, m);
        var l := LineageAt(st.lineages, id);
        var i :| 0 <= i < |l.mapping| && l.mapping[i] == m;
      }
    }
  }

  /** A lineage with the ancestor's lines was handed on, which maps whatever was copied. */
  ghost predicate LineageHanded(file: seq<Line>, lines: seq<Line>, st: State, st': State, uid: nat, id: nat) {
    && Extended(st.lineages, st.queue, st'.lineages, st'.queue) && st'.equivalent == st.equivalent && st'.queue == st.queue
    && id in st'.lineages && LineageOk(file, st'.lineages[id]) && st'.lineages[id].lines == lines
    && Marked(LineageAt(st.lineages, uid), st.copied, st.touched, st'.copied, st'.touched, |LineageAt(st.lineages, uid).mapping|)
    && forall m :: m in st'.copied && m !in st.copied ==> Mapped(st'.lineages[id], m)
  }

  /** The ancestor's unit takes over what that lineage maps. */
  ghost predicate TakenOver(st: State, st': State, id: nat, replaced: set<int>) {
    && Extended(st.lineages, st.queue, st'.lineages, st'.queue) && st'.copied == st.copied && st'.touched == st.touched
    && Redirected(st.equivalent, st'.lineages, st'.queue, st'.equivalent, replaced)
    && forall m :: Mapped(LineageAt(st.lineages, id), m) ==> Carried(st'.lineages, st'.queue, replaced, m)
  }

  lemma EdgeMade(file: seq<Line>, lines: seq<Line>, st: State, st1: State, st2: State, uid: nat, id: nat, replaced: set<int>)
    requires LineageHanded(file, lines, st, st1, uid, id) && TakenOver(st1, st2, id, replaced)
    ensures EdgeDone(st, st2, uid, true, replaced)
  {
    ExtendedTransitive(st.lineages, st.queue, st1.lineages, st1.queue, st2.lineages, st2.queue);
  }

  /** What joining a lineage into the one of the queued unit `p` does. */
  lemma JoinedMeans(e: map<int, int>, l: Lineage, other: Lineage, store: map<nat, Lineage>, queue: map<Rev, Unit>, p: Rev)
    requires |l.mapping| == |other.mapping| && forall i :: 0 <= i < |l.mapping| ==> l.mapping[i] >= -1
    requires p in queue && queue[p].lineage in store && store[queue[p].lineage].mapping == Filled(l.mapping, other.mapping)
    ensures var f := Filled(l.mapping, other.mapping);
      Redirected(e, store, queue, Matched(e, f, other.mapping), Differing(f, other.mapping))
    ensures var replaced := Differing(Filled(l.mapping, other.mapping), other.mapping);
      forall m :: Mapped(other, m) ==> Carried(store, queue, replaced, m)
  {
    var f := Filled(l.mapping, other.mapping);
    forall m | m in f && m >= 0 ensures Live(store, queue, m) {
      assert CarriedBy(store, queue, p, m);
    }
    forall m
      ensures m in Differing(f, other.mapping) ==> m in Matched(e, f, other.mapping) && Live(store, queue, Matched(e, f, other.mapping)[m])
      ensures m !in Differing(f, other.mapping) ==> (m in Matched(e, f, other.mapping) <==> m in e)
      ensures m !in Differing(f, other.mapping) && m in e ==> Matched(e, f, other.mapping)[m] == e[m]
    {
      MatchedMeans(e, f, other.mapping, m);
    }
    forall m | Mapped(other, m) ensures Carried(store, queue, Differing(f, other.mapping), m) {
      FilledHas(l.mapping, other.mapping, m);
    }
  }

  ghost predicate AnyLive(h: History, ps: seq<Rev>) {
    exists p :: p in ps && h.Live(p)
  }

  /** The ancestors done, in order, are the ones before those left. */
  ghost predicate NextUp(all: set<Rev>, rest: set<Rev>, ps: seq<Rev>) {
    rest <= all && InOrder(ps, all - rest) && forall o, q :: o in ps && q in rest ==> o < q
  }

  lemma OneMore(h: History, all: set<Rev>, rest: set<Rev>, ps: seq<Rev>, p: Rev)
    requires NextUp(all, rest, ps) && p in rest && forall q :: q in rest ==> p <= q
    ensures NextUp(all, rest - {p}, ps + [p])
    ensures AnyLive(h, ps + [p]) <==> AnyLive(h, ps) || h.Live(p)
  {
    assert p in ps + [p];
    assert forall o :: o in ps ==> o in ps + [p];
    forall i, j | 0 <= i < j < |ps| + 1 ensures (ps + [p])[i] < (ps + [p])[j] {
      if j == |ps| {
        assert ps[i] in ps;
      }
    }
  }

  lemma AllDone(h: History, all: set<Rev>, ps: seq<Rev>)
    requires NextUp(all, {}, ps)
    ensures InOrder(ps, all) && (AnyLive(h, ps) <==> exists p :: p in all && h.Live(p))
  {
    assert all - {} == all;
  }

  /** All of it, after the ancestors `ps`. */
  ghost predicate EdgesDone(h: History, lcs: (seq<Line>, seq<Line>) -> seq<Line>, u: Unit, ps: seq<Rev>, st0: State, st: State,
                            replaced: set<int>) {
    && st == AllEdges(h, lcs, u, ps, st0) && Moved(st0, st, replaced, u.lineage)
    && (AnyLive(h, ps) ==> Covered(st0, st, u.lineage))
  }

  lemma EdgesDoneMore(h: History, lcs: (seq<Line>, seq<Line>) -> seq<Line>, u: Unit, ps: seq<Rev>, st0: State, st: State,
                      st': State, replaced: set<int>, p: Rev, more: set<int>)
    requires EdgesDone(h, lcs, u, ps, st0, st, replaced) && st' == OneEdge(h, lcs, u, p, st)
    requires EdgeDone(st, st', u.lineage, h.Live(p), more)
    requires AnyLive(h, ps + [p]) <==> AnyLive(h, ps) || h.Live(p)
    ensures EdgesDone(h, lcs, u, ps + [p], st0, st', replaced + more)
  {
    assert (ps + [p])[..|ps|] == ps;
    MovedOn(st0, st, st', replaced, more, u.lineage, h.Live(p));
    if AnyLive(h, ps + [p]) {
      CoveredOn(st0, st, st', u.lineage, h.Live(p), more);
    }
  }

  // ---------- what a unit has done ----------

  lemma LinesInside(h: History, file: seq<Line>, st: State, u: Unit)
    requires UnitOk(h, file, st.lineages, u)
    requires forall m :: m in st.copied || m in st.touched ==> Mapped(LineageAt(st.lineages, u.lineage), m)
    ensures forall m :: m in st.copied || m in st.touched ==> 0 <= m < |file|
  {
    forall m | m in st.copied || m in st.touched ensures 0 <= m < |file| {
      MappedOccurs(h, file, st.lineages, u, m);
    }
  }

  lemma CreditsKept(h: History, file: seq<Line>, st: State, u: Unit)
    requires UnitOk(h, file, st.lineages, u) && CreditsOk(h, file, st.annotations)
    requires forall m :: m in st.touched ==> Mapped(LineageAt(st.lineages, u.lineage), m)
    ensures CreditsOk(h, file, Evaluated(u.revision, st).annotations)
  {
    var a := Evaluated(u.revision, st).annotations;
    forall m | 0 <= m < |file| && a[m] != NullRev ensures Occurs(h, a[m], file[m]) {
      if st.annotations[m] == NullRev {
        MappedOccurs(h, file, st.lineages, u, m);
      }
    }
  }

  lemma UnitKeeps(file: seq<Line>, st0: State, st1: State, u: Unit, replaced: set<int>, since: map<int, nat>, turn: nat)
    requires Followed(file, st0.annotations, st0.lineages, st0.queue[u.revision := u], st0.equivalent, since, turn)
    requires Moved(st0, st1, replaced, u.lineage) && Covered(st0, st1, u.lineage) && u.lineage in st0.lineages
    requires st1.annotations == st0.annotations && EquivalentOk(file, st1.equivalent) && u.revision != NullRev
    ensures Followed(file, Evaluated(u.revision, st1).annotations, st1.lineages, st1.queue, st1.equivalent,
                     Stamped(since, replaced, turn), turn + 1)
  {
    var a := Evaluated(u.revision, st1).annotations;
    forall m | 0 <= m < |file| && Live(st0.lineages, st0.queue[u.revision := u], m) && a[m] == NullRev
      ensures Carried(st1.lineages, st1.queue, replaced, m)
    {
      StillCarried(st0.lineages, st0.queue, st1.lineages, st1.queue, replaced, u, st1.copied, st1.touched, m);
    }
    FollowedNext(file, st0.annotations, st0.lineages, st0.queue[u.revision := u], st0.equivalent, since, turn,
                 a, st1.lineages, st1.queue, st1.equivalent, replaced);
  }

  class Annotation {
    const file: seq<Line>
    var annotations: seq<Rev>
    var completed: nat
    var equivalent: map<int, int>
    var copied: set<int>
    var touched: set<int>
    var lineages: map<nat, Lineage>
    var next: nat
    var queue: map<Rev, Unit>

    /** The turn in which each line was last found equivalent to another, and the turns done. */
    ghost var since: map<int, nat>
    ghost var turn: nat

    function Snap(): State
      reads this
    {
      State(annotations, equivalent, copied, touched, lineages, next, queue)
    }

    method SetCopied(index: int)
      requires -1 <= index < |file|
      modifies this`copied
      ensures copied == old(copied) + Indices([index])
    {
      if index == -1 {
        return;
      }
      copied := copied + {index};
    }

    method SetTouched(index: int)
      requires -1 <= index < |file|
      modifies this`touched
      ensures touched == old(touched) + Indices([index])
    {
      if index == -1 {
        return;
      }
      touched := touched + {index};
    }

    /** Lines of the child found in the common subsequence are copied, all others touched. */
    method MatchChild(l: Lineage, lcs: seq<Line>) returns (src: seq<int>)
      requires LineageOk(file, l) && Subsequence(lcs, l.lines)
      modifies this`copied, this`touched
      ensures src == Picked(l.lines, l.mapping, lcs) && |src| == |lcs|
      ensures copied == old(copied) + Indices(src)
      ensures touched == old(touched) + Indices(Passed(l.lines, l.mapping, lcs))
    {
      src := [];
      ghost var passed := [];
      var i, j := 0, 0;
      MatchStart(l, lcs);
      assert lcs[0..] == lcs && l.lines[0..] == l.lines;
      while i < |l.lines| && j < |lcs|
        invariant MatchingTo(l, lcs, i, j, src, passed)
        invariant copied == old(copied) + Indices(src) && touched == old(touched) + Indices(passed)
      {
        MatchingStep(l, lcs, i, j, src, passed);
        if l.lines[i] == lcs[j] {
          SetCopied(l.mapping[i]);
          IndicesAdd(src, [l.mapping[i]]);
          src, j := src + [l.mapping[i]], j + 1;
        } else {
          SetTouched(l.mapping[i]);
          IndicesAdd(passed, [l.mapping[i]]);
          passed := passed + [l.mapping[i]];
        }
        i := i + 1;
      }
      MatchingEnds(l, lcs, i, j, src, passed);
      assert j == |lcs|;
      IndicesAdd(passed, l.mapping[i..]);
      TouchRest(l, i);
    }

    /** The lines after the last match are touched. */
    method TouchRest(l: Lineage, n: nat)
      requires LineageOk(file, l) && n <= |l.lines|
      modifies this`touched
      ensures touched == old(touched) + Indices(l.mapping[n..])
    {
      assert l.mapping[n..n] == [];
      for i := n to |l.lines|
        invariant touched == old(touched) + Indices(l.mapping[n..i])
      {
        SetTouched(l.mapping[i]);
        assert l.mapping[n..i + 1] == l.mapping[n..i] + [l.mapping[i]];
        IndicesAdd(l.mapping[n..i], [l.mapping[i]]);
      }
      assert l.mapping[n..|l.lines|] == l.mapping[n..];
    }

    /** The whole parent lineage over a common subsequence of both versions. */
    method BuildParentLineage(l: Lineage, parentLines: seq<Line>, lcs: seq<Line>) returns (p: Lineage)
      requires LineageOk(file, l) && Subsequence(lcs, l.lines) && Subsequence(lcs, parentLines)
      modifies this`copied, this`touched
      ensures p == Derived(l, parentLines, lcs) && LineageOk(file, p)
      ensures copied == old(copied) + Indices(Picked(l.lines, l.mapping, lcs))
      ensures touched == old(touched) + Indices(Passed(l.lines, l.mapping, lcs))
      ensures Marked(l, old(copied), old(touched), copied, touched, |l.mapping|)
      ensures forall m :: m in copied && m !in old(copied) ==> Mapped(p, m)
    {
      var src := MatchChild(l, lcs);
      PickedOk(file, l.lines, l.mapping, lcs);
      MatchMarks(l, lcs, old(copied), old(touched));
      var mapping := MatchParent(parentLines, lcs, src);
      PlacedOk(file, parentLines, lcs, src);
      p := Lineage(parentLines, mapping);
      forall m | m in copied && m !in old(copied) ensures Mapped(p, m) {
        PlacedAll(parentLines, lcs, src, m);
      }
    }

    method SetCopiedAllMapped(l: Lineage)
      requires LineageOk(file, l)
      modifies this`copied
      ensures copied == old(copied) + Indices(l.mapping)
      ensures Marked(l, old(copied), touched, copied, touched, |l.mapping|)
    {
      assert l.mapping[..0] == [];
      for i := 0 to |l.mapping|
        invariant copied == old(copied) + Indices(l.mapping[..i])
      {
        SetCopied(l.mapping[i]);
        assert l.mapping[..i + 1] == l.mapping[..i] + [l.mapping[i]];
        IndicesAdd(l.mapping[..i], [l.mapping[i]]);
      }
      assert l.mapping[..|l.mapping|] == l.mapping;
    }

    method CreditMappedLines(l: Lineage)
      requires LineageOk(file, l)
      modifies this`touched
      ensures touched == old(touched) + Indices(l.mapping)
      ensures Marked(l, copied, old(touched), copied, touched, |l.mapping|)
    {
      TouchRest(l, 0);
      assert l.mapping[0..] == l.mapping;
    }

    /** Gaps of the pending lineage are filled from the other one; where both know a line but
        disagree, the other's line is recorded as equivalent. */
    method Merge(id: nat, other: Lineage)
      requires id in lineages && LineageOk(file, lineages[id]) && LineageOk(file, other) && lineages[id].lines == other.lines
      modifies this`lineages, this`equivalent
      ensures lineages == old(lineages)[id := Lineage(other.lines, Filled(old(lineages)[id].mapping, other.mapping))]
      ensures equivalent == Matched(old(equivalent), Filled(old(lineages)[id].mapping, other.mapping), other.mapping)
    {
      var l := lineages[id];
      var mapping := l.mapping;
      ghost var f := Filled(l.mapping, other.mapping);
      for i := 0 to |mapping|
        invariant |mapping| == |l.mapping| && lineages == old(lineages)
        invariant forall k :: 0 <= k < |mapping| ==> mapping[k] == if k < i then f[k] else l.mapping[k]
        invariant equivalent == Matched(old(equivalent), f[..i], other.mapping[..i])
      {
        if mapping[i] == -1 && other.mapping[i] >= 0 {
          mapping := mapping[i := other.mapping[i]];
        }
        assert f[..i + 1][..i] == f[..i] && other.mapping[..i + 1][..i] == other.mapping[..i];
        if mapping[i] >= 0 && other.mapping[i] >= 0 && mapping[i] != other.mapping[i] {
          equivalent := equivalent[other.mapping[i] := mapping[i]];
        }
      }
      assert mapping == f && f[..|f|] == f && other.mapping[..|f|] == other.mapping;
      lineages := lineages[id := Lineage(l.lines, mapping)];
    }

    /** One edge of the unit in progress: lines go over to the ancestor's unit, queued before
        or newly made. `replaced` are the lines found equivalent to others. */
    method ProcessParent(h: History, lcs: (seq<Line>, seq<Line>) -> seq<Line>, u: Unit, p: Rev)
      returns (live: bool, ghost replaced: set<int>)
      requires h.Valid() && CommonSubsequences(lcs) && p in u.interesting
      requires AtWork(h, file, lineages, next, queue, equivalent, u)
      modifies this`copied, this`touched, this`lineages, this`next, this`queue, this`equivalent
      ensures AtWork(h, file, lineages, next, queue, equivalent, u)
      ensures live == h.Live(p) && Snap() == OneEdge(h, lcs, u, p, old(Snap()))
      ensures EdgeDone(old(Snap()), Snap(), u.lineage, live, replaced)
    {
      AncestorFacts(h, u, p);
      var fileInParent := if p in queue then queue[p].content else if u.marked then h.content[p] else u.content;
      assert p in queue ==> UnitOk(h, file, lineages, queue[p]);
      if fileInParent == NoFile {
        return false, {};
      }
      assert h.Live(p) && fileInParent == h.content[p];
      live := true;
      var id := ParentLineage(h, lcs, u, fileInParent);
      ghost var st1 := Snap();
      if p !in queue {
        Enqueue(h, u, p, id, fileInParent);
        replaced := {};
      } else {
        replaced := MergeInto(h, u, p, id);
      }
      EdgeMade(file, h.lines[fileInParent], old(Snap()), st1, Snap(), u.lineage, id, replaced);
    }

    /** The lineage to hand to an ancestor: the unit's own, shared, where the content is the
        same, else a new one. */
    method ParentLineage(h: History, lcs: (seq<Line>, seq<Line>) -> seq<Line>, u: Unit, content: FileId) returns (id: nat)
      requires CommonSubsequences(lcs) && AtWork(h, file, lineages, next, queue, equivalent, u) && content in h.lines
      modifies this`copied, this`touched, this`lineages, this`next
      ensures AtWork(h, file, lineages, next, queue, equivalent, u)
      ensures (Snap(), id) == HandedOn(h, lcs, u, content, old(Snap()))
      ensures Traces(h, lcs, u, old(lineages)[u.lineage], content, lineages[id].mapping)
      ensures LineageHanded(file, h.lines[content], old(Snap()), Snap(), u.lineage, id)
    {
      var l := lineages[u.lineage];
      if content == u.content {
        id := u.lineage;
        SetCopiedAllMapped(l);
      } else {
        var parentLines := h.lines[content];
        id := NewLineage(l, parentLines, lcs(l.lines, parentLines), h, u);
      }
      HandedTraces(h, lcs, u, content, old(Snap()));
    }

    method NewLineage(l: Lineage, lines: seq<Line>, lcs: seq<Line>, ghost h: History, ghost u: Unit) returns (id: nat)
      requires AtWork(h, file, lineages, next, queue, equivalent, u) && l == lineages[u.lineage]
      requires Subsequence(lcs, l.lines) && Subsequence(lcs, lines)
      modifies this`copied, this`touched, this`lineages, this`next
      ensures AtWork(h, file, lineages, next, queue, equivalent, u)
      ensures id == old(next) && next == id + 1 && lineages == old(lineages)[id := Derived(l, lines, lcs)]
      ensures copied == old(copied) + Indices(Picked(l.lines, l.mapping, lcs))
      ensures touched == old(touched) + Indices(Passed(l.lines, l.mapping, lcs))
      ensures LineageHanded(file, lines, old(Snap()), Snap(), u.lineage, id)
    {
      var p := BuildParentLineage(l, lines, lcs);
      StoreAdded(h, file, lineages, next, queue, equivalent, u, p);
      id := next;
      lineages, next := lineages[next := p], next + 1;
    }

    /** A work unit for an ancestor not queued yet. */
    method Enqueue(h: History, u: Unit, p: Rev, id: nat, content: FileId)
      requires h.Valid() && AtWork(h, file, lineages, next, queue, equivalent, u) && p in u.interesting && p !in queue
      requires h.Live(p) && content == h.content[p] && content in h.lines
      requires id in lineages && LineageOk(file, lineages[id]) && lineages[id].lines == h.lines[content]
      modifies this`queue
      ensures AtWork(h, file, lineages, next, queue, equivalent, u)
      ensures queue == old(queue)[p := UnitFor(h, p, id)]
      ensures TakenOver(old(Snap()), Snap(), id, {})
    {
      AncestorFacts(h, u, p);
      var interesting, marked := {}, true;
      if u.marked {
        interesting := h.marks[p];
        marked := interesting == {p};
      }
      if marked {
        interesting := h.parents[p];
      }
      var v := Unit(id, p, h.height[p], interesting, content, marked);
      UnitAdded(h, file, lineages, next, queue, equivalent, u, v);
      // both orders of the container accept the unit: neither its revision nor its height is there
      assert forall r :: r in queue ==> queue[r].height != v.height by {
        forall r | r in queue ensures queue[r].height != v.height {
          assert UnitOk(h, file, lineages, queue[r]);
        }
      }
      queue := queue[p := v];
      forall m | Mapped(lineages[id], m) ensures Live(lineages, queue, m) {
        assert CarriedBy(lineages, queue, p, m);
      }
    }

    /** The ancestor is pending already: its lineage takes in this one. */
    method MergeInto(h: History, u: Unit, p: Rev, id: nat) returns (ghost replaced: set<int>)
      requires AtWork(h, file, lineages, next, queue, equivalent, u) && p in queue
      requires id in lineages && LineageOk(file, lineages[id]) && lineages[id].lines == h.lines[queue[p].content]
      modifies this`lineages, this`equivalent
      ensures AtWork(h, file, lineages, next, queue, equivalent, u)
      ensures Snap() == Joined(old(Snap()), queue[p].lineage, id)
      ensures TakenOver(old(Snap()), Snap(), id, replaced)
    {
      assert UnitOk(h, file, lineages, queue[p]);
      ghost var s0, e0 := lineages, equivalent;
      var into, other := queue[p].lineage, lineages[id];
      Merge(into, other);
      ghost var l, f := s0[into], Filled(s0[into].mapping, other.mapping);
      FilledOk(file, l, other);
      MatchedOk(file, e0, l.lines, f, other.mapping);
      Merged(h, file, s0, next, queue, e0, u, into, lineages[into], equivalent);
      replaced := Differing(f, other.mapping);
      JoinedMeans(e0, l, other, lineages, queue, p);
    }

    /** Credits to `rev` the lines touched that no ancestor copied. */
    method Evaluate(rev: Rev)
      requires rev != NullRev && |annotations| == |file| && completed == Credited(annotations)
      requires forall m :: m in copied || m in touched ==> 0 <= m < |file|
      modifies this`annotations, this`completed, this`copied, this`touched
      ensures |annotations| == |file| && completed == Credited(annotations)
      ensures Snap() == Evaluated(rev, old(Snap()))
    {
      Ordered.BoundedSize(copied, |annotations|);
      Ordered.BoundedSize(touched, |annotations|);
      assert |copied| <= |annotations| && |touched| <= |annotations|;
      var credit := touched - copied;
      while credit != {}
        invariant touched == old(touched) && copied == old(copied)
        invariant credit <= touched - copied && |annotations| == |file| && completed == Credited(annotations)
        invariant forall m :: 0 <= m < |file| ==>
                    annotations[m] == if m in touched - copied && m !in credit && old(annotations)[m] == NullRev
                                      then rev else old(annotations)[m]
        decreases credit
      {
        var i :| i in credit;
        if annotations[i] == NullRev {
          CreditOne(annotations, i, rev);
          annotations := annotations[i := rev];
          completed := completed + 1;
        }
        credit := credit - {i};
      }
      copied, touched := {}, {};
    }

    /** All the ancestors of one unit: whatever the unit carried is afterwards either carried on
        or credited to it. */
    method DoAnnotateNode(h: History, lcs: (seq<Line>, seq<Line>) -> seq<Line>, u: Unit) returns (ghost ps: seq<Rev>)
      requires h.Valid() && CommonSubsequences(lcs) && u.revision !in queue
      requires AtWork(h, file, lineages, next, queue, equivalent, u)
      requires copied == touched == {} && CreditsOk(h, file, annotations) && completed == Credited(annotations)
      requires Followed(file, annotations, lineages, queue[u.revision := u], equivalent, since, turn)
      modifies this
      ensures AtWork(h, file, lineages, next, queue, equivalent, u)
      ensures copied == touched == {} && CreditsOk(h, file, annotations) && completed == Credited(annotations)
      ensures Followed(file, annotations, lineages, queue, equivalent, since, turn)
      ensures InOrder(ps, u.interesting) && Snap() == OneUnit(h, lcs, u, ps, old(Snap()))
    {
      ghost var st0 := Snap();
      ghost var replaced;
      ps, replaced := EdgesOf(h, lcs, u);
      CreditUnit(h, u, st0, replaced);
    }

    method CreditUnit(ghost h: History, u: Unit, ghost st0: State, ghost replaced: set<int>)
      requires h.Valid() && UnitOk(h, file, lineages, u) && EquivalentOk(file, equivalent)
      requires CreditsOk(h, file, annotations) && completed == Credited(annotations) && annotations == st0.annotations
      requires Followed(file, annotations, st0.lineages, st0.queue[u.revision := u], st0.equivalent, since, turn)
      requires Moved(st0, Snap(), replaced, u.lineage) && Covered(st0, Snap(), u.lineage) && u.lineage in st0.lineages
      modifies this`annotations, this`completed, this`copied, this`touched, this`since, this`turn
      ensures CreditsOk(h, file, annotations) && completed == Credited(annotations)
      ensures Followed(file, annotations, lineages, queue, equivalent, since, turn)
      ensures Snap() == Evaluated(u.revision, old(Snap()))
    {
      ghost var st := Snap();
      LinesInside(h, file, st, u);
      assert h.Known(u.revision);
      CreditsKept(h, file, st, u);
      UnitKeeps(file, st0, st, u, replaced, since, turn);
      Evaluate(u.revision);
      since, turn := Stamped(since, replaced, turn), turn + 1;
    }

    /** The loop over the interesting ancestors, and the case of a file added in this revision. */
    method EdgesOf(h: History, lcs: (seq<Line>, seq<Line>) -> seq<Line>, u: Unit)
      returns (ghost ps: seq<Rev>, ghost replaced: set<int>)
      requires h.Valid() && CommonSubsequences(lcs)
      requires AtWork(h, file, lineages, next, queue, equivalent, u) && copied == touched == {}
      modifies this`copied, this`touched, this`lineages, this`next, this`queue, this`equivalent
      ensures AtWork(h, file, lineages, next, queue, equivalent, u)
      ensures InOrder(ps, u.interesting) && Snap() == AllTouched(h, u, AllEdges(h, lcs, u, ps, old(Snap())))
      ensures Moved(old(Snap()), Snap(), replaced, u.lineage) && Covered(old(Snap()), Snap(), u.lineage)
    {
      ghost var st0 := Snap();
      var added;
      added, ps, replaced := EdgeLoop(h, lcs, u);
      AllDone(h, u.interesting, ps);
      if added == |u.interesting| {
        AddedHere(h, u, st0, replaced);
      }
    }

    method EdgeLoop(h: History, lcs: (seq<Line>, seq<Line>) -> seq<Line>, u: Unit)
      returns (added: nat, ghost ps: seq<Rev>, ghost replaced: set<int>)
      requires h.Valid() && CommonSubsequences(lcs)
      requires AtWork(h, file, lineages, next, queue, equivalent, u) && copied == touched == {}
      modifies this`copied, this`touched, this`lineages, this`next, this`queue, this`equivalent
      ensures AtWork(h, file, lineages, next, queue, equivalent, u)
      ensures NextUp(u.interesting, {}, ps) && EdgesDone(h, lcs, u, ps, old(Snap()), Snap(), replaced)
      ensures added <= |u.interesting| && (added < |u.interesting| <==> AnyLive(h, ps))
    {
      added := 0;
      var rest := u.interesting;
      ghost var st0 := Snap();
      ps, replaced := [], {};
      while rest != {}
        invariant NextUp(u.interesting, rest, ps) && added <= |u.interesting| - |rest|
        invariant AtWork(h, file, lineages, next, queue, equivalent, u)
        invariant EdgesDone(h, lcs, u, ps, st0, Snap(), replaced)
        invariant added < |u.interesting| - |rest| <==> AnyLive(h, ps)
        decreases rest
      {
        var p := Ordered.LeastNat(rest);
        var live;
        live, ps, replaced := Edge(h, lcs, u, p, st0, rest, ps, replaced);
        if !live {
          added := added + 1;
        }
        rest := rest - {p};
      }
    }

    /** No interesting ancestor has the file: all its lines are touched. */
    method AddedHere(ghost h: History, u: Unit, ghost st0: State, ghost replaced: set<int>)
      requires u.lineage in lineages && LineageOk(file, lineages[u.lineage]) && Moved(st0, Snap(), replaced, u.lineage)
      requires !exists p :: p in u.interesting && h.Live(p)
      modifies this`touched
      ensures Snap() == AllTouched(h, u, old(Snap()))
      ensures Moved(st0, Snap(), replaced, u.lineage) && Covered(st0, Snap(), u.lineage)
    {
      CreditMappedLines(lineages[u.lineage]);
      forall m | Mapped(LineageAt(st0.lineages, u.lineage), m) ensures m in copied || m in touched {
        MappedGrows(st0, Snap(), u.lineage, m);
      }
    }

    method Edge(h: History, lcs: (seq<Line>, seq<Line>) -> seq<Line>, u: Unit, p: Rev, ghost st0: State, ghost rest: set<Rev>,
                ghost ps: seq<Rev>, ghost replaced: set<int>)
      returns (live: bool, ghost ps': seq<Rev>, ghost replaced': set<int>)
      requires h.Valid() && CommonSubsequences(lcs) && AtWork(h, file, lineages, next, queue, equivalent, u)
      requires NextUp(u.interesting, rest, ps) && p in rest && forall q :: q in rest ==> p <= q
      requires EdgesDone(h, lcs, u, ps, st0, Snap(), replaced)
      modifies this`copied, this`touched, this`lineages, this`next, this`queue, this`equivalent
      ensures AtWork(h, file, lineages, next, queue, equivalent, u)
      ensures NextUp(u.interesting, rest - {p}, ps') && (AnyLive(h, ps') <==> AnyLive(h, ps) || live)
      ensures EdgesDone(h, lcs, u, ps', st0, Snap(), replaced')
    {
      ghost var st := Snap();
      ghost var more;
      live, more := ProcessParent(h, lcs, u, p);
      OneMore(h, u.interesting, rest, ps, p);
      EdgesDoneMore(h, lcs, u, ps, st0, st, Snap(), replaced, p, more);
      ps', replaced' := ps + [p], replaced + more;
    }

    predicate IsComplete()
      reads this
    {
      completed == |annotations|
    }

    /** Lines not credited take over what their equivalent has at that moment. */
    method AnnotateEquivalentLines()
      requires |annotations| == |file| && completed == Credited(annotations) && EquivalentOk(file, equivalent)
      requires forall m :: 0 <= m < |file| && annotations[m] == NullRev ==> m in equivalent
      modifies this`annotations, this`completed
      ensures |annotations| == |file| && IsComplete()
      ensures forall m :: 0 <= m < |file| ==> annotations[m] == Resolved(old(annotations), equivalent, m)
    {
      ghost var a0 := annotations;
      for i := 0 to |annotations|
        invariant |annotations| == |file| == |a0|
        invariant forall m :: 0 <= m < i ==> annotations[m] == Resolved(a0, equivalent, m)
        invariant forall m :: i <= m < |file| ==> annotations[m] == a0[m]
        invariant completed == Credited(a0) + (i - Credited(a0[..i]))
      {
        assert a0[..i + 1][..i] == a0[..i];
        if annotations[i] == NullRev {
          annotations := annotations[i := annotations[equivalent[i]]];
          completed := completed + 1;
        }
      }
      assert a0[..|file|] == a0;
    }

    /** At the head of the loop: nothing in progress, every line credited or followed. */
    ghost predicate AtHead(h: History)
      reads this
    {
      && QueueOk(h, file, lineages, queue) && EquivalentOk(file, equivalent) && (forall id :: id in lineages ==> id < next)
      && copied == touched == {} && CreditsOk(h, file, annotations) && completed == Credited(annotations)
      && Followed(file, annotations, lineages, queue, equivalent, since, turn)
    }

    constructor Start(h: History, rid: Rev)
      requires h.Valid() && h.Live(rid) && h.content[rid] in h.lines
      ensures AtHead(h) && file == h.lines[h.content[rid]] && Snap() == First(h, rid)
    {
      var lines := h.lines[h.content[rid]];
      file := lines;
      annotations := seq(|lines|, _ => NullRev);
      completed, equivalent, copied, touched := 0, map[], {}, {};
      lineages, next := map[0 := Lineage(lines, seq(|lines|, i => i))], 1;
      assert h.Known(rid);
      var marked := h.marks[rid] == {rid};
      var interesting := if marked then h.parents[rid] else h.marks[rid];
      queue := map[rid := Unit(0, rid, h.height[rid], interesting, h.content[rid], marked)];
      since, turn := map[], 0;
      new;
      NoneCredited(annotations);
      forall m | 0 <= m < |file| ensures FollowedLine(annotations, lineages, queue, equivalent, since, m) {
        assert lineages[0].mapping[m] == m;
        assert CarriedBy(lineages, queue, rid, m);
      }
    }

    /** Takes the unit of greatest height off the queue. */
    method Dequeue(h: History) returns (u: Unit)
      requires h.Valid() && AtHead(h) && queue != map[]
      modifies this`queue
      ensures Highest(old(queue), u.revision) && u == old(queue)[u.revision] && queue == old(queue) - {u.revision}
      ensures AtWork(h, file, lineages, next, queue, equivalent, u)
    {
      var r :| r in queue;
      var rest := queue.Keys - {r};
      while rest != {}
        invariant r in queue && rest <= queue.Keys && queue == old(queue)
        invariant forall q :: q in queue && q !in rest ==> queue[q].height <= queue[r].height
        decreases rest
      {
        var q :| q in rest;
        if queue[q].height > queue[r].height {
          r := q;
        }
        rest := rest - {q};
      }
      u := queue[r];
      forall q | q in queue && q != r ensures queue[q].height < u.height {
        assert UnitOk(h, file, lineages, queue[q]) && UnitOk(h, file, lineages, queue[r]);
      }
      queue := queue - {r};
    }

    /** One turn of the loop; returns the height it took off. */
    method Step(h: History, lcs: (seq<Line>, seq<Line>) -> seq<Line>, ghost bound: nat) returns (height: nat)
      requires h.Valid() && CommonSubsequences(lcs) && AtHead(h) && queue != map[]
      requires forall r :: r in queue ==> queue[r].height < bound
      modifies this
      ensures AtHead(h) && height < bound && forall r :: r in queue ==> queue[r].height < height
      ensures Turn(h, lcs, old(Snap()), Snap())
    {
      ghost var q0 := queue;
      var u := Dequeue(h);
      assert queue[u.revision := u] == q0;
      ghost var ps := DoAnnotateNode(h, lcs, u);
      height := u.height;
      assert TurnBy(h, lcs, old(Snap()), Snap(), u.revision, ps);
    }
  }

  lemma {:induction false} NoneCredited(a: seq<Rev>)
    requires forall i :: 0 <= i < |a| ==> a[i] == NullRev
    ensures Credited(a) == 0
    decreases |a|
  {
    if a != [] {
      NoneCredited(a[..|a| - 1]);
    }
  }

  ghost predicate Descending(heights: seq<nat>) {
    forall i, j :: 0 <= i < j < |heights| ==> heights[i] > heights[j]
  }

  /** The run so far, not yet known to be over. */
  ghost predicate Running(h: History, lcs: (seq<Line>, seq<Line>) -> seq<Line>, rid: Rev, run: seq<State>, st: State) {
    && |run| > 0 && run[0] == First(h, rid) && run[|run| - 1] == st
    && forall i {:trigger run[i]} :: 0 <= i < |run| - 1 ==> !Finished(run[i]) && Turn(h, lcs, run[i], run[i + 1])
  }

  lemma RunningOn(h: History, lcs: (seq<Line>, seq<Line>) -> seq<Line>, rid: Rev, run: seq<State>, st: State, st': State)
    requires Running(h, lcs, rid, run, st) && !Finished(st) && Turn(h, lcs, st, st')
    ensures Running(h, lcs, rid, run + [st'], st')
  {
  }

  /** The loop: it makes the turns of the one run there is, with heights that strictly decrease, and
      when it ends every line not credited leads by its equivalents to one that is. */
  method Loop(h: History, lcs: (seq<Line>, seq<Line>) -> seq<Line>, rid: Rev)
    returns (a: Annotation, ghost heights: seq<nat>, ghost run: seq<State>)
    requires h.Valid() && CommonSubsequences(lcs) && h.Live(rid) && h.content[rid] in h.lines
    ensures fresh(a) && a.AtHead(h) && a.file == h.lines[h.content[rid]]
    ensures Descending(heights) && IsRun(h, lcs, rid, run) && run[|run| - 1] == a.Snap()
    ensures forall m :: 0 <= m < |a.file| ==> EndsCredited(a.annotations, a.equivalent, m)
  {
    a := new Annotation.Start(h, rid);
    heights, run := [], [a.Snap()];
    assert h.Known(rid);
    var bound := h.height[rid] + 1;
    while a.queue != map[] && !a.IsComplete()
      invariant fresh(a) && InLoop(h, lcs, rid, a, bound, heights, run)
      decreases bound
    {
      bound, heights, run := OneTurn(h, lcs, rid, a, bound, heights, run);
    }
    WhenFinished(h, a);
    Drained(h, a);
  }

  /** At the head of the loop. */
  ghost predicate InLoop(h: History, lcs: (seq<Line>, seq<Line>) -> seq<Line>, rid: Rev, a: Annotation, bound: nat,
                         heights: seq<nat>, run: seq<State>)
    reads a
  {
    && a.AtHead(h) && a.file == LinesOf(h, if rid in h.content then h.content[rid] else NoFile)
    && (forall r {:trigger a.queue[r]} :: r in a.queue ==> a.queue[r].height < bound)
    && DownTo(heights, bound) && Running(h, lcs, rid, run, a.Snap())
  }

  ghost predicate DownTo(heights: seq<nat>, bound: nat) {
    Descending(heights) && forall i :: 0 <= i < |heights| ==> heights[i] >= bound
  }

  lemma DownFurther(heights: seq<nat>, bound: nat, bound': nat)
    requires DownTo(heights, bound) && bound' < bound
    ensures DownTo(heights + [bound'], bound')
  {
  }

  method OneTurn(h: History, lcs: (seq<Line>, seq<Line>) -> seq<Line>, rid: Rev, a: Annotation, bound: nat,
                 ghost heights: seq<nat>, ghost run: seq<State>)
    returns (bound': nat, ghost heights': seq<nat>, ghost run': seq<State>)
    requires h.Valid() && CommonSubsequences(lcs) && a.queue != map[] && !a.IsComplete()
    requires InLoop(h, lcs, rid, a, bound, heights, run)
    modifies a
    ensures bound' < bound && InLoop(h, lcs, rid, a, bound', heights', run')
  {
    ghost var st := a.Snap();
    WhenFinished(h, a);
    bound' := a.Step(h, lcs, bound);
    RunningOn(h, lcs, rid, run, st, a.Snap());
    DownFurther(heights, bound, bound');
    heights', run' := heights + [bound'], run + [a.Snap()];
  }

  lemma WhenFinished(h: History, a: Annotation)
    requires a.AtHead(h)
    ensures Finished(a.Snap()) <==> a.queue == map[] || a.IsComplete()
  {
    CreditedBound(a.annotations);
  }

  /** When the loop ends, the lookup of the final pass cannot fail, and there is no cycle. */
  lemma Drained(h: History, a: Annotation)
    requires a.AtHead(h) && (a.queue == map[] || a.IsComplete())
    ensures forall m :: 0 <= m < |a.file| ==> EndsCredited(a.annotations, a.equivalent, m)
  {
    CreditedBound(a.annotations);
    forall m | 0 <= m < |a.file| ensures EndsCredited(a.annotations, a.equivalent, m) {
      if a.annotations[m] != NullRev {
        assert Reaches(a.annotations, a.equivalent, m, 0);
      } else {
        FollowedEnds(a.file, a.annotations, a.equivalent, a.lineages, a.since, a.turn, m);
      }
    }
  }

  /** The whole annotation. The final pass gives every line what its equivalents lead to in one sweep
      (`Resolved`), from the state the run ends in. It credits every line exactly when no uncredited
      line has an uncredited equivalent that is not before it, so in particular when no text stands
      in three lines. Every revision credited has the line in its version of the file. Each turn credits
      exactly the lines no ancestor asked has in common, and those of `rid` itself are credited to it in
      the end and no others. */
  method DoAnnotate(h: History, lcs: (seq<Line>, seq<Line>) -> seq<Line>, rid: Rev)
    returns (annotations: seq<Rev>, ghost heights: seq<nat>, ghost run: seq<State>)
    requires h.Valid() && CommonSubsequences(lcs) && h.Live(rid) && h.content[rid] in h.lines
    ensures |annotations| == |h.lines[h.content[rid]]| && Descending(heights)
    ensures IsRun(h, lcs, rid, run) && Passing(h.lines[h.content[rid]], run[|run| - 1], annotations)
    ensures forall m :: 0 <= m < |annotations| && annotations[m] != NullRev ==>
      Occurs(h, annotations[m], h.lines[h.content[rid]][m])
    ensures NoTextThrice(h.lines[h.content[rid]]) ==> forall m :: 0 <= m < |annotations| ==> annotations[m] != NullRev
    ensures forall i, j :: 0 <= i < j < |run| && j == i + 1 ==> TurnIs(h, lcs, run[i], run[j])
    ensures OwnCredited(h, lcs, rid, annotations)
  {
    var a;
    a, heights, run := Loop(h, lcs, rid);
    ghost var pass := a.annotations;
    LeadsOn(a.file, pass, a.equivalent);
    a.AnnotateEquivalentLines();
    annotations := a.annotations;
    forall m | 0 <= m < |a.file| && annotations[m] != NullRev ensures Occurs(h, annotations[m], a.file[m]) {
      ResolvedOccurs(h, a.file, pass, a.equivalent, m);
    }
    ResolvedAll(pass, a.equivalent);
    if NoTextThrice(a.file) {
      TwiceIsFine(a.file, pass, a.equivalent);
    }
    RunCredits(h, lcs, rid, run, annotations);
  }

  lemma RunCredits(h: History, lcs: (seq<Line>, seq<Line>) -> seq<Line>, rid: Rev, run: seq<State>, annotations: seq<Rev>)
    requires h.Valid() && CommonSubsequences(lcs) && h.Live(rid) && IsRun(h, lcs, rid, run)
    requires Passing(LinesOf(h, h.content[rid]), run[|run| - 1], annotations)
    ensures forall i, j :: 0 <= i < j < |run| && j == i + 1 ==> TurnIs(h, lcs, run[i], run[j])
    ensures OwnCredited(h, lcs, rid, annotations)
  {
    RunSteps(h, lcs, rid, run);
    RunTurns(h, lcs, rid, run);
    EndOwn(h, lcs, rid, run, annotations);
  }

  lemma LeadsOn(file: seq<Line>, a: seq<Rev>, equivalent: map<int, int>)
    requires |a| == |file| && forall m :: 0 <= m < |file| ==> EndsCredited(a, equivalent, m)
    ensures forall m :: 0 <= m < |file| && a[m] == NullRev ==> m in equivalent
  {
    forall m | 0 <= m < |file| && a[m] == NullRev ensures m in equivalent {
      assert EndsCredited(a, equivalent, m);
    }
  }

  /** What the final pass makes of the last state of the run. */
  ghost predicate Passing(file: seq<Line>, st: State, annotations: seq<Rev>) {
    && |st.annotations| == |file| == |annotations| && EquivalentOk(file, st.equivalent)
    && (forall m :: 0 <= m < |file| ==> EndsCredited(st.annotations, st.equivalent, m))
    && (forall m :: 0 <= m < |file| ==> annotations[m] == Resolved(st.annotations, st.equivalent, m))
    && ((forall m :: 0 <= m < |file| ==> annotations[m] != NullRev) <==> TargetsCredited(st.annotations, st.equivalent))
  }
}
