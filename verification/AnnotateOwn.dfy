/** Runs of the annotation: what every turn does, and the lines of the revision asked about. */
module AnnotateOwn {
  import opened Lineages
  import opened Embeddings
  import opened EquivalentLines
  import opened AnnotateSteps
  import opened AnnotateCredits
  import opened AnnotateHanded

  // ---------- every turn of a run ----------

  /** The unit of greatest height is worked off: exactly its own lines are credited to its revision, and
      the others are handed on to the ancestors along leftmost embeddings of what is common. */
  ghost predicate TurnIs(h: History, lcs: (seq<Line>, seq<Line>) -> seq<Line>, st: State, st': State) {
    exists r :: Highest(st.queue, r) && Asks(h, st.queue[r], r) && Credits(h, lcs, st, st', r) && HandsOn(h, lcs, st, st', r)
  }

  /** The parents of a revision in which the file changed, else the revisions in which it last did. */
  function Asked(h: History, r: Rev): set<Rev> {
    if r !in h.marks then {} else if h.marks[r] != {r} then h.marks[r] else if r in h.parents then h.parents[r] else {}
  }

  ghost predicate Asks(h: History, u: Unit, r: Rev) {
    h.Live(r) && u.revision == r && u.content == h.content[r] && u.interesting == Asked(h, r)
  }

  /** Interesting ancestors with the file are lower, so none is the revision itself. */
  lemma Lower(h: History, r: Rev, id: nat)
    requires h.Valid() && h.Live(r)
    ensures r !in UnitFor(h, r, id).interesting
    ensures forall p :: p in UnitFor(h, r, id).interesting && h.Live(p) ==> h.Below(p, r)
  {
    assert h.Known(r);
  }

  lemma FirstHead(h: History, rid: Rev)
    requires h.Live(rid)
    ensures AtHead(h, First(h, rid))
  {
    var st := First(h, rid);
    assert HasLines(h, st, st.queue[rid]);
  }

  lemma OneTurn(h: History, lcs: (seq<Line>, seq<Line>) -> seq<Line>, st: State, st': State)
    requires h.Valid() && CommonSubsequences(lcs) && AtHead(h, st) && Turn(h, lcs, st, st')
    ensures AtHead(h, st') && TurnIs(h, lcs, st, st')
  {
    var r, ps :| TurnBy(h, lcs, st, st', r, ps);
    assert st.queue[r] == UnitFor(h, r, st.queue[r].lineage);
    Lower(h, r, st.queue[r].lineage);
    TurnCredits(h, lcs, st, st', r, ps);
    TurnHands(h, lcs, st, st', r, ps);
    assert Asks(h, st.queue[r], r);
  }

  /** Every state is one turn on from the one before. */
  ghost predicate Steps(h: History, lcs: (seq<Line>, seq<Line>) -> seq<Line>, rid: Rev, run: seq<State>) {
    |run| > 0 && run[0] == First(h, rid) && forall i, j :: 0 <= i < j < |run| && j == i + 1 ==> Turn(h, lcs, run[i], run[j])
  }

  lemma RunSteps(h: History, lcs: (seq<Line>, seq<Line>) -> seq<Line>, rid: Rev, run: seq<State>)
    requires IsRun(h, lcs, rid, run)
    ensures Steps(h, lcs, rid, run)
  {
  }

  lemma {:induction false} RunHead(h: History, lcs: (seq<Line>, seq<Line>) -> seq<Line>, rid: Rev, run: seq<State>, i: nat)
    requires h.Valid() && CommonSubsequences(lcs) && h.Live(rid) && Steps(h, lcs, rid, run) && i < |run|
    ensures AtHead(h, run[i])
    decreases i
  {
    if i == 0 {
      FirstHead(h, rid);
    } else {
      RunHead(h, lcs, rid, run, i - 1);
      OneTurn(h, lcs, run[i - 1], run[i]);
    }
  }

  lemma RunTurns(h: History, lcs: (seq<Line>, seq<Line>) -> seq<Line>, rid: Rev, run: seq<State>)
    requires h.Valid() && CommonSubsequences(lcs) && h.Live(rid) && Steps(h, lcs, rid, run)
    ensures forall i, j :: 0 <= i < j < |run| && j == i + 1 ==> TurnIs(h, lcs, run[i], run[j])
  {
    forall i, j | 0 <= i < j < |run| && j == i + 1 ensures TurnIs(h, lcs, run[i], run[j]) {
      RunHead(h, lcs, rid, run, i);
      OneTurn(h, lcs, run[i], run[j]);
    }
  }

  // ---------- the lines of the revision asked about ----------

  /** Line `m` came in with `rid`: none of the revisions asked has the same content, and in none of
      their versions is the line part of what is common. */
  ghost predicate OwnLine(h: History, lcs: (seq<Line>, seq<Line>) -> seq<Line>, rid: Rev, m: int)
    requires h.Live(rid)
  {
    var file := LinesOf(h, h.content[rid]);
    forall p :: p in Asked(h, rid) && h.Live(p) ==>
      h.content[p] != h.content[rid] && !InLeftmost(lcs(file, LinesOf(h, h.content[p])), file, m)
  }

  lemma OwnFirst(h: History, lcs: (seq<Line>, seq<Line>) -> seq<Line>, rid: Rev, m: int)
    requires h.Live(rid) && 0 <= m < |LinesOf(h, h.content[rid])|
    ensures Own(h, lcs, UnitFor(h, rid, 0), First(h, rid).lineages[0], m) <==> OwnLine(h, lcs, rid, m)
  {
    var l := First(h, rid).lineages[0];
    assert l.mapping[m] == m;
    forall i ensures At(l.mapping, i, m) <==> i == m {
    }
    assert At(l.mapping, m, m);
  }

  /** The queue follows lines of `s` only, and only they are equivalents. */
  ghost predicate Within(s: set<int>, st: State) {
    && (forall q, m {:trigger m in MapOf(st, q)} :: q in st.queue && m in MapOf(st, q) && m >= 0 ==> m in s)
    && (forall m {:trigger st.equivalent[m]} :: m in st.equivalent ==> st.equivalent[m] in s)
  }

  /** Whatever is still followed or an equivalent is in `s`, and no line of `rid` is. */
  ghost predicate Past(h: History, rid: Rev, s: set<int>, st: State) {
    && AtHead(h, st) && Within(s, st)
    && (forall q {:trigger st.queue[q]} :: q in st.queue ==> h.Below(q, rid))
    && (forall m :: 0 <= m < |st.annotations| && st.annotations[m] == rid ==> m !in s)
  }

  lemma {:induction false} PlacedFrom(lines: seq<Line>, lcs: seq<Line>, src: seq<int>, m: int)
    requires m in Placed(lines, lcs, src) && m >= 0
    ensures m in src
    decreases |lines|
  {
    if lines != [] {
      if lcs != [] && src != [] && lines[0] == lcs[0] {
        if m != src[0] {
          PlacedFrom(lines[1..], lcs[1..], src[1..], m);
        }
      } else {
        PlacedFrom(lines[1..], lcs, src, m);
      }
    }
  }

  /** An ancestor's lines stand for lines the edge copies. */
  lemma ViaFrom(h: History, lcs: (seq<Line>, seq<Line>) -> seq<Line>, u: Unit, l: Lineage, p: Rev, m: int)
    requires |l.lines| == |l.mapping| && h.Live(p) && m in Via(h, lcs, u, l, h.content[p]) && m >= 0
    ensures CopiedBy(h, lcs, u, l, p, m) && Mapped(l, m)
  {
    if h.content[p] != u.content {
      var lines := LinesOf(h, h.content[p]);
      var a := lcs(l.lines, lines);
      PlacedFrom(lines, a, Picked(l.lines, l.mapping, a), m);
    }
    MarkedMapped(h, lcs, u, l, p, m);
  }

  lemma FillFrom(mapping: seq<int>, via: seq<int>, m: int)
    requires m in Fill(mapping, via)
    ensures m in mapping || m in via
  {
    if |mapping| == |via| {
      var i :| 0 <= i < |mapping| && Filled(mapping, via)[i] == m;
    }
  }

  /** Whatever the queue follows after the edges to `ps` it followed before, or one of them copied it. */
  lemma HandedFrom(h: History, lcs: (seq<Line>, seq<Line>) -> seq<Line>, u: Unit, l: Lineage, ps: seq<Rev>, st0: State, st: State,
                   s: set<int>, q: Rev, m: int)
    requires SoundWith(h, u, l, st0) && SoundWith(h, u, l, st) && Handed(h, lcs, u, l, ps, st0, st) && q in st.queue
    requires m in MapOf(st, q) && m >= 0
    requires forall p, n :: p in st0.queue && n in MapOf(st0, p) && n >= 0 ==> n in s
    requires forall p, n :: p in ps && CopiedBy(h, lcs, u, l, p, n) ==> n in s
    requires st0.queue == map[] || forall n :: Mapped(l, n) ==> n in s
    ensures m in s
  {
    assert h.Live(q) && HasLines(h, st, st.queue[q]);
    var via := Via(h, lcs, u, l, h.content[q]);
    if q in st0.queue {
      assert OldOrFilled(h, lcs, u, l, st0, st, q);
      if m !in MapOf(st0, q) {
        FillFrom(MapOf(st0, q), via, m);
        ViaFrom(h, lcs, u, l, q, m);
      }
    } else {
      ViaFrom(h, lcs, u, l, q, m);
    }
  }

  lemma EdgesWithin(h: History, lcs: (seq<Line>, seq<Line>) -> seq<Line>, u: Unit, l: Lineage, ps: seq<Rev>, st0: State, st: State, s: set<int>)
    requires SoundWith(h, u, l, st0) && SoundWith(h, u, l, st) && Handed(h, lcs, u, l, ps, st0, st) && Equates(h, lcs, u, l, ps, st0, st)
    requires Within(s, st0) && forall p, n :: p in ps && CopiedBy(h, lcs, u, l, p, n) ==> n in s
    requires st0.queue == map[] || forall n :: Mapped(l, n) ==> n in s
    ensures Within(s, st)
  {
    forall q, m | q in st.queue && m in MapOf(st, q) && m >= 0 ensures m in s {
      HandedFrom(h, lcs, u, l, ps, st0, st, s, q, m);
    }
    forall m | m in st.equivalent ensures st.equivalent[m] in s {
      if !Kept(st0.equivalent, st.equivalent, m) {
        var p, j :| p in ps && Clash(h, lcs, u, l, st0, p, j, m, st.equivalent[m]);
        ClashWithin(h, lcs, u, l, ps, st0, s, p, j, m, st.equivalent[m]);
      }
    }
  }

  lemma ClashWithin(h: History, lcs: (seq<Line>, seq<Line>) -> seq<Line>, u: Unit, l: Lineage, ps: seq<Rev>, st0: State, s: set<int>,
                    p: Rev, j: int, m: int, v: int)
    requires |l.lines| == |l.mapping| && p in ps && Clash(h, lcs, u, l, st0, p, j, m, v)
    requires Within(s, st0) && forall p, n :: p in ps && CopiedBy(h, lcs, u, l, p, n) ==> n in s
    ensures v in s
  {
    var via := Via(h, lcs, u, l, h.content[p]);
    assert v in AfterEdge(h, lcs, u, l, st0, p);
    FillFrom(MapOf(st0, p), via, v);
    if v in via {
      ViaFrom(h, lcs, u, l, p, v);
    }
  }

  /** After the first turn exactly its own lines are credited to the revision, and nothing that is
      still followed is among them. */
  lemma FirstTurn(h: History, lcs: (seq<Line>, seq<Line>) -> seq<Line>, rid: Rev, st': State) returns (s: set<int>)
    requires h.Valid() && CommonSubsequences(lcs) && h.Live(rid) && Turn(h, lcs, First(h, rid), st')
    ensures Past(h, rid, s, st') && OwnCredited(h, lcs, rid, st'.annotations)
  {
    var st := First(h, rid);
    var r, ps :| TurnBy(h, lcs, st, st', r, ps);
    assert r == rid && h.Known(rid);
    FirstHead(h, rid);
    TurnCredits(h, lcs, st, st', r, ps);
    forall m | 0 <= m < |st'.annotations| ensures st'.annotations[m] == rid <==> OwnLine(h, lcs, rid, m) {
      OwnFirst(h, lcs, rid, m);
    }
    s := AlonePast(h, lcs, rid, st, st', ps);
  }

  /** The turn of the only unit queued. */
  lemma AlonePast(h: History, lcs: (seq<Line>, seq<Line>) -> seq<Line>, rid: Rev, st: State, st': State, ps: seq<Rev>) returns (s: set<int>)
    requires h.Valid() && CommonSubsequences(lcs) && AtHead(h, st) && st.queue.Keys == {rid} && st.equivalent == map[]
    requires forall m :: 0 <= m < |st.annotations| ==> st.annotations[m] == NullRev
    requires TurnBy(h, lcs, st, st', rid, ps) && AtHead(h, st') && Credits(h, lcs, st, st', rid)
    ensures Past(h, rid, s, st')
  {
    var u := st.queue[rid];
    assert HasLines(h, st, u) && h.Live(rid) && h.Known(rid);
    var l, st1 := st.lineages[u.lineage], st.(queue := st.queue - {rid});
    assert st1.queue == map[];
    Taken(h, st, rid);
    EdgesMark(h, lcs, u, l, ps, st1);
    var st2 := AllEdges(h, lcs, u, ps, st1);
    s := st2.copied;
    assert Within(s, st1);
    TurnWithin(h, lcs, rid, st, st', rid, ps, s);
    forall m | 0 <= m < |st'.annotations| && st'.annotations[m] == rid ensures m !in s {
      OwnIs(h, lcs, u, l, ps, st2, m);
    }
  }

  lemma TurnWithin(h: History, lcs: (seq<Line>, seq<Line>) -> seq<Line>, rid: Rev, st: State, st': State, r: Rev, ps: seq<Rev>, s: set<int>)
    requires h.Valid() && Sound(h, st) && TurnBy(h, lcs, st, st', r, ps) && HasLines(h, st, st.queue[r])
    requires Within(s, st.(queue := st.queue - {r}))
    requires var u := st.queue[r]; var l := st.lineages[u.lineage];
      && (forall p, n :: p in ps && CopiedBy(h, lcs, u, l, p, n) ==> n in s)
      && (st.queue - {r} == map[] || forall n :: Mapped(l, n) ==> n in s)
    requires forall q {:trigger st.queue[q]} :: q in st.queue ==> q == rid == r || h.Below(q, rid)
    ensures Within(s, st') && forall q {:trigger st'.queue[q]} :: q in st'.queue ==> h.Below(q, rid)
  {
    var u := st.queue[r];
    assert u == UnitFor(h, r, u.lineage) && h.Live(r);
    var l, st1 := st.lineages[u.lineage], st.(queue := st.queue - {r});
    Taken(h, st, r);
    EdgesHand(h, lcs, u, l, ps, st1);
    var st2 := AllEdges(h, lcs, u, ps, st1);
    EdgesWithin(h, lcs, u, l, ps, st1, st2, s);
    SameWithin(s, st2, st');
    Lower(h, r, u.lineage);
    StillLower(h, rid, r, st, st1);
    Lowered(h, lcs, rid, r, u, l, ps, st1, st2);
  }

  lemma StillLower(h: History, rid: Rev, r: Rev, st: State, st1: State)
    requires st1 == st.(queue := st.queue - {r}) && r in st.queue
    requires forall q {:trigger st.queue[q]} :: q in st.queue ==> q == rid == r || h.Below(q, rid)
    ensures (forall q {:trigger st1.queue[q]} :: q in st1.queue ==> h.Below(q, rid)) && (r == rid || h.Below(r, rid))
  {
    assert st.queue[r] == st.queue[r];
    forall q | q in st1.queue ensures h.Below(q, rid) {
      assert st1.queue[q] == st.queue[q];
    }
  }

  lemma SameWithin(s: set<int>, st: State, st': State)
    requires Within(s, st) && st'.queue == st.queue && st'.lineages == st.lineages && st'.equivalent == st.equivalent
    ensures Within(s, st')
  {
    forall q, m | q in st'.queue && m in MapOf(st', q) && m >= 0 ensures m in s {
      assert MapOf(st', q) == MapOf(st, q);
    }
  }

  /** What is queued after the edges of `r` is lower than `rid` if what was queued before is, and `r` is no higher. */
  lemma Lowered(h: History, lcs: (seq<Line>, seq<Line>) -> seq<Line>, rid: Rev, r: Rev, u: Unit, l: Lineage, ps: seq<Rev>, st0: State, st: State)
    requires SoundWith(h, u, l, st) && Handed(h, lcs, u, l, ps, st0, st) && (forall p :: p in ps <==> p in u.interesting)
    requires (forall q {:trigger st0.queue[q]} :: q in st0.queue ==> h.Below(q, rid)) && (r == rid || h.Below(r, rid))
    requires forall p :: p in u.interesting && h.Live(p) ==> h.Below(p, r)
    ensures forall q {:trigger st.queue[q]} :: q in st.queue ==> h.Below(q, rid)
  {
    forall q | q in st.queue ensures h.Below(q, rid) {
      assert st.queue[q] == UnitFor(h, q, st.queue[q].lineage) && h.Live(q);
      if q in st0.queue {
        assert st0.queue[q] == st.queue[q];
      }
    }
  }

  /** Later turns credit nothing to the revision and take nothing away from it. */
  lemma LaterTurn(h: History, lcs: (seq<Line>, seq<Line>) -> seq<Line>, rid: Rev, s: set<int>, st: State, st': State)
    requires h.Valid() && CommonSubsequences(lcs) && h.Live(rid) && Past(h, rid, s, st) && Turn(h, lcs, st, st')
    ensures Past(h, rid, s, st') && |st'.annotations| == |st.annotations|
    ensures forall m :: 0 <= m < |st.annotations| ==> (st'.annotations[m] == rid <==> st.annotations[m] == rid)
  {
    var r, ps :| TurnBy(h, lcs, st, st', r, ps);
    assert st.queue[r] == UnitFor(h, r, st.queue[r].lineage) && h.Below(r, rid) && r != rid && h.Known(rid);
    TurnCredits(h, lcs, st, st', r, ps);
    LaterPast(h, lcs, rid, s, st, st', r, ps);
  }

  lemma LaterPast(h: History, lcs: (seq<Line>, seq<Line>) -> seq<Line>, rid: Rev, s: set<int>, st: State, st': State, r: Rev, ps: seq<Rev>)
    requires h.Valid() && CommonSubsequences(lcs) && h.Live(rid) && Past(h, rid, s, st) && TurnBy(h, lcs, st, st', r, ps)
    requires AtHead(h, st') && |st'.annotations| == |st.annotations|
    requires forall m :: 0 <= m < |st.annotations| ==> (st'.annotations[m] == rid <==> st.annotations[m] == rid)
    ensures Past(h, rid, s, st')
  {
    var u := st.queue[r];
    assert HasLines(h, st, u);
    var l, st1 := st.lineages[u.lineage], st.(queue := st.queue - {r});
    assert l.mapping == MapOf(st, r);
    assert Within(s, st1) by {
      forall q, m | q in st1.queue && m in MapOf(st1, q) && m >= 0 ensures m in s {
        assert st1.queue[q] == st.queue[q] && MapOf(st1, q) == MapOf(st, q);
      }
    }
    forall p, n | p in ps && CopiedBy(h, lcs, u, l, p, n) ensures n in s {
      MarkedMapped(h, lcs, u, l, p, n);
    }
    TurnWithin(h, lcs, rid, st, st', r, ps, s);
  }

  /** Over the whole run. */
  lemma {:induction false} RunOwn(h: History, lcs: (seq<Line>, seq<Line>) -> seq<Line>, rid: Rev, run: seq<State>, i: nat) returns (s: set<int>)
    requires h.Valid() && CommonSubsequences(lcs) && h.Live(rid) && Steps(h, lcs, rid, run) && 0 < i < |run|
    ensures Past(h, rid, s, run[i]) && OwnCredited(h, lcs, rid, run[i].annotations)
    decreases i
  {
    if i == 1 {
      s := FirstTurn(h, lcs, rid, run[1]);
    } else {
      s := RunOwn(h, lcs, rid, run, i - 1);
      LaterTurn(h, lcs, rid, s, run[i - 1], run[i]);
    }
  }

  /** Exactly its own lines are credited to the revision. */
  ghost predicate OwnCredited(h: History, lcs: (seq<Line>, seq<Line>) -> seq<Line>, rid: Rev, annotations: seq<Rev>) {
    && h.Live(rid) && |annotations| == |LinesOf(h, h.content[rid])|
    && forall m :: 0 <= m < |annotations| ==> (annotations[m] == rid <==> OwnLine(h, lcs, rid, m))
  }

  /** The final pass gives none of the revision's lines away and adds none. */
  lemma {:induction false} PassOwn(a: seq<Rev>, equivalent: map<int, int>, rid: Rev, s: set<int>, m: nat)
    requires m < |a| && rid != NullRev && (forall n :: n in equivalent ==> 0 <= equivalent[n] < |a|)
    requires forall n {:trigger equivalent[n]} :: n in equivalent ==> equivalent[n] in s
    requires forall n :: 0 <= n < |a| && a[n] == rid ==> n !in s
    ensures Resolved(a, equivalent, m) == rid <==> a[m] == rid
    decreases m
  {
    if a[m] == NullRev && m in equivalent {
      assert equivalent[m] in s && a[equivalent[m]] != rid;
      if equivalent[m] < m {
        PassOwn(a, equivalent, rid, s, equivalent[m]);
      }
    }
  }

  lemma NotYet(h: History, rid: Rev)
    requires h.Live(rid) && LinesOf(h, h.content[rid]) != []
    ensures !Finished(First(h, rid))
  {
    assert rid in First(h, rid).queue && First(h, rid).annotations[0] == NullRev;
  }

  /** In the end the lines credited to the revision asked about are exactly its own. */
  lemma EndOwn(h: History, lcs: (seq<Line>, seq<Line>) -> seq<Line>, rid: Rev, run: seq<State>, annotations: seq<Rev>)
    requires h.Valid() && CommonSubsequences(lcs) && h.Live(rid) && IsRun(h, lcs, rid, run)
    requires var st := run[|run| - 1];
      && |annotations| == |st.annotations| == |LinesOf(h, h.content[rid])|
      && (forall n :: n in st.equivalent ==> 0 <= st.equivalent[n] < |st.annotations|)
      && forall m :: 0 <= m < |annotations| ==> annotations[m] == Resolved(st.annotations, st.equivalent, m)
    ensures OwnCredited(h, lcs, rid, annotations)
  {
    if annotations != [] {
      var n := |run| - 1;
      NotYet(h, rid);
      RunSteps(h, lcs, rid, run);
      var s := RunOwn(h, lcs, rid, run, n);
      assert h.Known(rid);
      forall m | 0 <= m < |annotations| ensures annotations[m] == rid <==> OwnLine(h, lcs, rid, m) {
        PassOwn(run[n].annotations, run[n].equivalent, rid, s, m);
      }
    }
  }
}
