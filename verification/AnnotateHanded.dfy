/** What a turn hands on: the lineages of the ancestors queued, and the lines found equivalent. */
module AnnotateHanded {
  import opened Lineages
  import opened Embeddings
  import opened AnnotateSteps
  import opened AnnotateCredits

  lemma {:induction false} PickedSpots(lines: seq<Line>, mapping: seq<int>, a: seq<Line>, k: nat)
    requires |lines| == |mapping| && Subsequence(a, lines) && k < |a|
    ensures |Spots(a, lines)| == |a| == |Picked(lines, mapping, a)| && Spots(a, lines)[k] < |lines|
    ensures Picked(lines, mapping, a)[k] == mapping[Spots(a, lines)[k]]
    decreases |lines|
  {
    SpotsEmbed(a, lines);
    GreedyStep(a, lines);
    if lines[0] == a[0] {
      PickedLength(lines[1..], mapping[1..], a[1..]);
      if k > 0 {
        PickedSpots(lines[1..], mapping[1..], a[1..], k - 1);
      }
    } else {
      PickedSpots(lines[1..], mapping[1..], a, k);
    }
  }

  lemma {:induction false} PickedLength(lines: seq<Line>, mapping: seq<int>, a: seq<Line>)
    requires |lines| == |mapping| && Subsequence(a, lines)
    ensures |Picked(lines, mapping, a)| == |a|
    decreases |lines|
  {
    if a != [] {
      GreedyStep(a, lines);
      PickedLength(lines[1..], mapping[1..], if lines[0] == a[0] then a[1..] else a);
    }
  }

  lemma {:induction false} PlacedSpots(lines: seq<Line>, a: seq<Line>, src: seq<int>, j: nat)
    requires |src| == |a| && Subsequence(a, lines) && j < |lines|
    ensures |Placed(lines, a, src)| == |lines| && |Spots(a, lines)| == |a|
    ensures j !in Spots(a, lines) ==> Placed(lines, a, src)[j] == -1
    ensures forall k :: 0 <= k < |a| && Spots(a, lines)[k] == j ==> Placed(lines, a, src)[j] == src[k]
    decreases |lines|
  {
    SpotsEmbed(a, lines);
    PlacedLength(lines, a, src);
    if a == [] {
      if j > 0 {
        SubsequenceNil(lines[1..]);
        PlacedSpots(lines[1..], a, src, j - 1);
      }
    } else {
      GreedyStep(a, lines);
      SpotsStep(a, lines, j);
      if j > 0 {
        if lines[0] == a[0] {
          PlacedSpots(lines[1..], a[1..], src[1..], j - 1);
        } else {
          PlacedSpots(lines[1..], a, src, j - 1);
        }
      }
    }
  }

  lemma SubsequenceNil(b: seq<Line>)
    ensures Subsequence([], b)
  {
    assert Embeds([], [], b);
  }

  /** A line of the ancestor's version stands for what the line it is paired with stands for; the pairs
      are those of the leftmost embeddings of what is common. Other lines stand for nothing. */
  ghost predicate Traces(h: History, lcs: (seq<Line>, seq<Line>) -> seq<Line>, u: Unit, l: Lineage, content: FileId, via: seq<int>) {
    if content == u.content then via == l.mapping
    else
      var lines := LinesOf(h, content);
      |via| == |lines| && forall f, g ::
        Leftmost(f, lcs(l.lines, lines), l.lines) && Leftmost(g, lcs(l.lines, lines), lines) ==> Paired(l.mapping, via, f, g)
  }

  ghost predicate Paired(mapping: seq<int>, via: seq<int>, f: seq<nat>, g: seq<nat>) {
    && |f| == |g|
    && (forall k :: 0 <= k < |f| ==> f[k] < |mapping| && g[k] < |via| && via[g[k]] == mapping[f[k]])
    && (forall j :: 0 <= j < |via| && j !in g ==> via[j] == -1)
  }

  lemma ViaTraces(h: History, lcs: (seq<Line>, seq<Line>) -> seq<Line>, u: Unit, l: Lineage, content: FileId)
    requires |l.lines| == |l.mapping| && CommonSubsequences(lcs)
    ensures Traces(h, lcs, u, l, content, Via(h, lcs, u, l, content))
  {
    if content != u.content {
      var lines := LinesOf(h, content);
      var a := lcs(l.lines, lines);
      SpotsLeftmost(a, l.lines);
      SpotsLeftmost(a, lines);
      var src := Picked(l.lines, l.mapping, a);
      PlacedLength(lines, a, src);
      PickedLength(l.lines, l.mapping, a);
      ViaPaired(l, lines, a, src);
    }
  }

  lemma ViaPaired(l: Lineage, lines: seq<Line>, a: seq<Line>, src: seq<int>)
    requires |l.lines| == |l.mapping| && Subsequence(a, l.lines) && Subsequence(a, lines)
    requires src == Picked(l.lines, l.mapping, a) && |src| == |a|
    ensures Paired(l.mapping, Placed(lines, a, src), Spots(a, l.lines), Spots(a, lines))
  {
    var via, f, g := Placed(lines, a, src), Spots(a, l.lines), Spots(a, lines);
    PlacedLength(lines, a, src);
    SpotsEmbed(a, l.lines);
    SpotsEmbed(a, lines);
    forall k | 0 <= k < |f| ensures f[k] < |l.mapping| && g[k] < |via| && via[g[k]] == l.mapping[f[k]] {
      PickedSpots(l.lines, l.mapping, a, k);
      PlacedSpots(lines, a, src, g[k]);
    }
    forall j | 0 <= j < |via| && j !in g ensures via[j] == -1 {
      PlacedSpots(lines, a, src, j);
    }
  }

  lemma HandedTraces(h: History, lcs: (seq<Line>, seq<Line>) -> seq<Line>, u: Unit, content: FileId, st: State)
    requires CommonSubsequences(lcs) && HasLines(h, st, u)
    requires forall id {:trigger st.lineages[id]} :: id in st.lineages ==> id < st.next
    ensures var (st1, id) := HandedOn(h, lcs, u, content, st);
      id in st1.lineages && Traces(h, lcs, u, st.lineages[u.lineage], content, st1.lineages[id].mapping)
  {
    HandedIs(h, lcs, u, st.lineages[u.lineage], content, st);
    ViaTraces(h, lcs, u, st.lineages[u.lineage], content);
  }

  function MapOf(st: State, q: Rev): seq<int> {
    if q in st.queue && st.queue[q].lineage in st.lineages then st.lineages[st.queue[q].lineage].mapping else []
  }

  /** Gaps are filled, if there is anything to fill them with. */
  function Fill(mapping: seq<int>, via: seq<int>): seq<int> {
    if |mapping| == |via| then Filled(mapping, via) else mapping
  }

  /** After the edges to `ps`: their units, and what the lineages of the units queued before became. */
  ghost predicate Handed(h: History, lcs: (seq<Line>, seq<Line>) -> seq<Line>, u: Unit, l: Lineage, ps: seq<Rev>, st0: State, st: State)
    requires |l.lines| == |l.mapping|
  {
    && st.next >= st0.next
    && (forall q {:trigger q in st.queue} :: q in st0.queue ==> q in st.queue && st.queue[q] == st0.queue[q])
    && (forall q {:trigger q in st.queue} :: q in st.queue ==> q in st0.queue || q in ps)
    && (forall q {:trigger OldOrFilled(h, lcs, u, l, st0, st, q)} :: q in st0.queue ==> OldOrFilled(h, lcs, u, l, st0, st, q))
    && (forall q :: q in ps && h.Live(q) ==> q in st.queue && MapOf(st, q) == AfterEdge(h, lcs, u, l, st0, q))
    && (forall q :: q in ps && h.Live(q) && q !in st0.queue ==> st.queue[q].lineage == u.lineage || st.queue[q].lineage >= st0.next)
  }

  ghost predicate OldOrFilled(h: History, lcs: (seq<Line>, seq<Line>) -> seq<Line>, u: Unit, l: Lineage, st0: State, st: State, q: Rev)
    requires |l.lines| == |l.mapping|
  {
    MapOf(st, q) == MapOf(st0, q) || (h.Live(q) && MapOf(st, q) == Fill(MapOf(st0, q), Via(h, lcs, u, l, h.content[q])))
  }

  ghost function AfterEdge(h: History, lcs: (seq<Line>, seq<Line>) -> seq<Line>, u: Unit, l: Lineage, st0: State, q: Rev): seq<int>
    requires |l.lines| == |l.mapping| && h.Live(q)
  {
    var via := Via(h, lcs, u, l, h.content[q]);
    if q in st0.queue then Fill(MapOf(st0, q), via) else via
  }

  lemma FillTwice(mapping: seq<int>, via: seq<int>)
    ensures Fill(Fill(mapping, via), via) == Fill(mapping, via)
  {
    if |mapping| == |via| {
      var f := Filled(mapping, via);
      forall i | 0 <= i < |f| ensures Filled(f, via)[i] == f[i] {
      }
      assert Filled(f, via) == f;
    }
  }

  /** One edge to a queued ancestor, on the lineage of any queued unit. */
  lemma JoinMaps(h: History, lcs: (seq<Line>, seq<Line>) -> seq<Line>, u: Unit, l: Lineage, p: Rev, st: State, st': State, q: Rev)
    requires SoundWith(h, u, l, st) && h.Live(p) && EdgeJoins(st, st', p, Via(h, lcs, u, l, h.content[p])) && q in st.queue
    ensures h.Live(q) && (MapOf(st', q) == MapOf(st, q) || MapOf(st', q) == Fill(MapOf(st, q), Via(h, lcs, u, l, h.content[q])))
    ensures q == p ==> MapOf(st', q) == Fill(MapOf(st, q), Via(h, lcs, u, l, h.content[q]))
    ensures st.queue[q].lineage == u.lineage ==> MapOf(st', q) == MapOf(st, q)
    ensures st.queue[q].lineage != st.queue[p].lineage ==> MapOf(st', q) == MapOf(st, q)
  {
    assert HasLines(h, st, st.queue[q]) && HasLines(h, st, st.queue[p]);
    if st.queue[q].lineage == st.queue[p].lineage {
      assert st.queue[q].content == st.queue[p].content && h.content[q] == h.content[p];
      if st.queue[p].lineage == u.lineage {
        SameVia(h, lcs, u, l, p, st);
      }
    }
  }

  lemma JoinHands(h: History, lcs: (seq<Line>, seq<Line>) -> seq<Line>, u: Unit, l: Lineage, ps: seq<Rev>, p: Rev,
                  st0: State, st: State, st': State)
    requires Sound(h, st0) && SoundWith(h, u, l, st) && h.Live(p) && EdgeJoins(st, st', p, Via(h, lcs, u, l, h.content[p]))
    requires Handed(h, lcs, u, l, ps, st0, st) && p !in ps
    ensures Handed(h, lcs, u, l, ps + [p], st0, st')
  {
    assert p in st0.queue;
    forall q | q in st0.queue ensures OldOrFilled(h, lcs, u, l, st0, st', q) {
      assert q in st.queue && OldOrFilled(h, lcs, u, l, st0, st, q);
      JoinMaps(h, lcs, u, l, p, st, st', q);
      FillTwice(MapOf(st0, q), Via(h, lcs, u, l, h.content[q]));
    }
    forall q | q in ps + [p] && h.Live(q) ensures q in st'.queue && MapOf(st', q) == AfterEdge(h, lcs, u, l, st0, q) {
      if q in st0.queue {
        assert OldOrFilled(h, lcs, u, l, st0, st, q);
        JoinMaps(h, lcs, u, l, p, st, st', q);
        FillTwice(MapOf(st0, q), Via(h, lcs, u, l, h.content[q]));
      } else {
        assert q in ps && HasLines(h, st0, st0.queue[p]);
        JoinMaps(h, lcs, u, l, p, st, st', q);
      }
    }
  }

  lemma QueueMaps(h: History, lcs: (seq<Line>, seq<Line>) -> seq<Line>, u: Unit, l: Lineage, p: Rev, st: State, st': State)
    requires SoundWith(h, u, l, st) && h.Live(p) && EdgeQueues(h, st, st', u, p, Via(h, lcs, u, l, h.content[p]))
    ensures forall q {:trigger q in st'.queue} {:trigger MapOf(st', q)} :: q in st.queue ==>
      q in st'.queue && st'.queue[q] == st.queue[q] && MapOf(st', q) == MapOf(st, q)
    ensures p in st'.queue && MapOf(st', p) == Via(h, lcs, u, l, h.content[p])
    ensures st'.queue[p].lineage == u.lineage || st'.queue[p].lineage == st.next
    ensures st'.queue.Keys == st.queue.Keys + {p} && st'.next >= st.next
  {
    forall q | q in st.queue ensures q in st'.queue && st'.queue[q] == st.queue[q] && MapOf(st', q) == MapOf(st, q) {
      assert HasLines(h, st, st.queue[q]);
    }
  }

  lemma QueueHands(h: History, lcs: (seq<Line>, seq<Line>) -> seq<Line>, u: Unit, l: Lineage, ps: seq<Rev>, p: Rev,
                   st0: State, st: State, st': State)
    requires Sound(h, st0) && SoundWith(h, u, l, st) && h.Live(p) && EdgeQueues(h, st, st', u, p, Via(h, lcs, u, l, h.content[p]))
    requires Handed(h, lcs, u, l, ps, st0, st) && p !in ps
    ensures Handed(h, lcs, u, l, ps + [p], st0, st')
  {
    assert p !in st0.queue;
    QueueMaps(h, lcs, u, l, p, st, st');
    forall q | q in st0.queue ensures OldOrFilled(h, lcs, u, l, st0, st', q) {
      assert q in st.queue && OldOrFilled(h, lcs, u, l, st0, st, q);
    }
    forall q | q in ps + [p] && h.Live(q) ensures q in st'.queue && MapOf(st', q) == AfterEdge(h, lcs, u, l, st0, q) {
      if q != p {
        assert q in ps && q in st.queue;
      }
    }
  }

  lemma DeadHands(h: History, lcs: (seq<Line>, seq<Line>) -> seq<Line>, u: Unit, l: Lineage, ps: seq<Rev>, p: Rev, st0: State, st: State)
    requires |l.lines| == |l.mapping| && Handed(h, lcs, u, l, ps, st0, st) && !h.Live(p)
    ensures Handed(h, lcs, u, l, ps + [p], st0, st)
  {
  }

  // ---------- the lines found equivalent ----------

  /** At position `j` of the version of a queued ancestor the unit has line `m`, but line `v` is there. */
  ghost predicate Clash(h: History, lcs: (seq<Line>, seq<Line>) -> seq<Line>, u: Unit, l: Lineage, st0: State, p: Rev, j: int,
                        m: int, v: int)
    requires |l.lines| == |l.mapping|
  {
    p in st0.queue && h.Live(p) && ClashIn(AfterEdge(h, lcs, u, l, st0, p), Via(h, lcs, u, l, h.content[p]), j, m, v)
  }

  ghost predicate ClashIn(mapping: seq<int>, other: seq<int>, j: int, m: int, v: int) {
    0 <= j < |mapping| && j < |other| && mapping[j] == v && other[j] == m && v >= 0 && m >= 0 && m != v
  }

  ghost predicate Clashes(mapping: seq<int>, other: seq<int>, m: int, v: int) {
    exists j :: ClashIn(mapping, other, j, m, v)
  }

  /** An equivalent it had before. */
  predicate Kept(e: map<int, int>, e': map<int, int>, m: int) {
    m in e && m in e' && e'[m] == e[m]
  }

  lemma ClashLonger(mapping: seq<int>, other: seq<int>, m: int, v: int)
    requires |mapping| == |other| > 0
    ensures var n := |mapping| - 1; Clashes(mapping, other, m, v) <==>
      Clashes(mapping[..n], other[..n], m, v) || (mapping[n] == v && other[n] == m && v >= 0 && m >= 0 && m != v)
  {
    var n := |mapping| - 1;
    if Clashes(mapping[..n], other[..n], m, v) {
      var j :| ClashIn(mapping[..n], other[..n], j, m, v);
      assert ClashIn(mapping, other, j, m, v);
    }
    if j :| ClashIn(mapping, other, j, m, v) {
      if j < n {
        assert ClashIn(mapping[..n], other[..n], j, m, v);
      }
    }
    if mapping[n] == v && other[n] == m && v >= 0 && m >= 0 && m != v {
      assert ClashIn(mapping, other, n, m, v);
    }
  }

  lemma {:induction false} MatchedWhere(e: map<int, int>, mapping: seq<int>, other: seq<int>, m: int)
    requires |mapping| == |other|
    ensures var e' := Matched(e, mapping, other); m in e' ==> Kept(e, e', m) || Clashes(mapping, other, m, e'[m])
    ensures m in e ==> m in Matched(e, mapping, other)
    ensures forall v :: Clashes(mapping, other, m, v) ==> m in Matched(e, mapping, other)
    decreases |mapping|
  {
    if mapping != [] {
      var n := |mapping| - 1;
      MatchedWhere(e, mapping[..n], other[..n], m);
      forall v ensures Clashes(mapping, other, m, v) <==>
        Clashes(mapping[..n], other[..n], m, v) || (mapping[n] == v && other[n] == m && v >= 0 && m >= 0 && m != v)
      {
        ClashLonger(mapping, other, m, v);
      }
    }
  }

  /** Lines got an equivalent exactly where there is a clash, and then that of a clash. */
  ghost predicate Equates(h: History, lcs: (seq<Line>, seq<Line>) -> seq<Line>, u: Unit, l: Lineage, ps: seq<Rev>, st0: State, st: State)
    requires |l.lines| == |l.mapping|
  {
    && (forall m {:trigger st.equivalent[m]} :: m in st.equivalent ==>
          Kept(st0.equivalent, st.equivalent, m) || ClashesWith(h, lcs, u, l, ps, st0, m, st.equivalent[m]))
    && (forall m :: m in st0.equivalent ==> m in st.equivalent)
    && (forall p, j, m, v :: p in ps && Clash(h, lcs, u, l, st0, p, j, m, v) ==> m in st.equivalent)
  }

  ghost predicate ClashesWith(h: History, lcs: (seq<Line>, seq<Line>) -> seq<Line>, u: Unit, l: Lineage, ps: seq<Rev>, st0: State,
                              m: int, v: int)
    requires |l.lines| == |l.mapping|
  {
    exists p, j :: p in ps && Clash(h, lcs, u, l, st0, p, j, m, v)
  }

  lemma JoinEquates(h: History, lcs: (seq<Line>, seq<Line>) -> seq<Line>, u: Unit, l: Lineage, ps: seq<Rev>, p: Rev,
                    st0: State, st: State, st': State)
    requires Sound(h, st0) && SoundWith(h, u, l, st) && h.Live(p) && EdgeJoins(st, st', p, Via(h, lcs, u, l, h.content[p]))
    requires Handed(h, lcs, u, l, ps, st0, st) && p !in ps && Equates(h, lcs, u, l, ps, st0, st)
    ensures Equates(h, lcs, u, l, ps + [p], st0, st')
  {
    var via := Via(h, lcs, u, l, h.content[p]);
    var f := Filled(MapOf(st, p), via);
    assert p in st0.queue && OldOrFilled(h, lcs, u, l, st0, st, p) && HasLines(h, st0, st0.queue[p]);
    FillTwice(MapOf(st0, p), via);
    assert f == AfterEdge(h, lcs, u, l, st0, p);
    EquatesMore(h, lcs, u, l, ps, p, st0, st, st', f, via);
  }

  lemma EquatesMore(h: History, lcs: (seq<Line>, seq<Line>) -> seq<Line>, u: Unit, l: Lineage, ps: seq<Rev>, p: Rev,
                    st0: State, st: State, st': State, f: seq<int>, via: seq<int>)
    requires |l.lines| == |l.mapping| && Equates(h, lcs, u, l, ps, st0, st) && p in st0.queue && h.Live(p)
    requires via == Via(h, lcs, u, l, h.content[p]) && f == AfterEdge(h, lcs, u, l, st0, p) && |f| == |via|
    requires st'.equivalent == Matched(st.equivalent, f, via)
    ensures Equates(h, lcs, u, l, ps + [p], st0, st')
  {
    forall m | m in st'.equivalent
      ensures Kept(st0.equivalent, st'.equivalent, m) || ClashesWith(h, lcs, u, l, ps + [p], st0, m, st'.equivalent[m])
    {
      MatchedWhere(st.equivalent, f, via, m);
      if Kept(st.equivalent, st'.equivalent, m) {
        if ClashesWith(h, lcs, u, l, ps, st0, m, st.equivalent[m]) {
          var q, j :| q in ps && Clash(h, lcs, u, l, st0, q, j, m, st.equivalent[m]);
          assert q in ps + [p];
        }
      } else {
        var j :| ClashIn(f, via, j, m, st'.equivalent[m]);
        assert p in ps + [p] && Clash(h, lcs, u, l, st0, p, j, m, st'.equivalent[m]);
      }
    }
    forall m | m in st0.equivalent ensures m in st'.equivalent {
      MatchedWhere(st.equivalent, f, via, m);
    }
    forall q, j, m, v | q in ps + [p] && Clash(h, lcs, u, l, st0, q, j, m, v) ensures m in st'.equivalent {
      MatchedWhere(st.equivalent, f, via, m);
      if q != p {
        assert q in ps;
      } else {
        assert ClashIn(f, via, j, m, v) && Clashes(f, via, m, v);
      }
    }
  }

  lemma SameEquates(h: History, lcs: (seq<Line>, seq<Line>) -> seq<Line>, u: Unit, l: Lineage, ps: seq<Rev>, p: Rev,
                    st0: State, st: State, st': State)
    requires |l.lines| == |l.mapping| && Equates(h, lcs, u, l, ps, st0, st) && p !in st0.queue && st'.equivalent == st.equivalent
    ensures Equates(h, lcs, u, l, ps + [p], st0, st')
  {
    forall m | m in st'.equivalent && ClashesWith(h, lcs, u, l, ps, st0, m, st'.equivalent[m])
      ensures ClashesWith(h, lcs, u, l, ps + [p], st0, m, st'.equivalent[m])
    {
      var q, j :| q in ps && Clash(h, lcs, u, l, st0, q, j, m, st.equivalent[m]);
      assert q in ps + [p];
    }
  }

  /** After the edges to `ps` the lineages of all queued units are as stated, and so are the equivalents. */
  lemma {:induction false} EdgesHand(h: History, lcs: (seq<Line>, seq<Line>) -> seq<Line>, u: Unit, l: Lineage, ps: seq<Rev>, st0: State)
    requires SoundWith(h, u, l, st0) && forall i, j :: 0 <= i < j < |ps| ==> ps[i] < ps[j]
    ensures var st := AllEdges(h, lcs, u, ps, st0);
      SoundWith(h, u, l, st) && Handed(h, lcs, u, l, ps, st0, st) && Equates(h, lcs, u, l, ps, st0, st)
    decreases |ps|
  {
    if ps == [] {
      forall q | q in st0.queue ensures OldOrFilled(h, lcs, u, l, st0, st0, q) {
      }
    } else {
      var n := |ps| - 1;
      EdgesHand(h, lcs, u, l, ps[..n], st0);
      var st, p := AllEdges(h, lcs, u, ps[..n], st0), ps[n];
      assert ps == ps[..n] + [p];
      EdgeSound(h, lcs, u, l, p, st);
      HandMore(h, lcs, u, l, ps[..n], p, st0, st);
    }
  }

  lemma HandMore(h: History, lcs: (seq<Line>, seq<Line>) -> seq<Line>, u: Unit, l: Lineage, ps: seq<Rev>, p: Rev, st0: State, st: State)
    requires Sound(h, st0) && SoundWith(h, u, l, st) && p !in ps
    requires Handed(h, lcs, u, l, ps, st0, st) && Equates(h, lcs, u, l, ps, st0, st)
    ensures var st' := OneEdge(h, lcs, u, p, st);
      Handed(h, lcs, u, l, ps + [p], st0, st') && Equates(h, lcs, u, l, ps + [p], st0, st')
  {
    if h.Live(p) {
      EdgeDoes(h, lcs, u, l, p, st);
      var st' := OneEdge(h, lcs, u, p, st);
      if p in st.queue {
        JoinHands(h, lcs, u, l, ps, p, st0, st, st');
        JoinEquates(h, lcs, u, l, ps, p, st0, st, st');
      } else {
        QueueHands(h, lcs, u, l, ps, p, st0, st, st');
        SameEquates(h, lcs, u, l, ps, p, st0, st, st');
      }
    } else {
      DeadHands(h, lcs, u, l, ps, p, st0, st);
      SameEquates(h, lcs, u, l, ps, p, st0, st, st);
    }
  }

  // ---------- one turn ----------

  /** What one turn hands on: every interesting ancestor with the file is queued afterwards, and its
      lines stand for what they stood for before or, where that was nothing, for what the unit's do.
      Where both stand for something and disagree, the unit's line has an equivalent, and lines get
      new equivalents nowhere else. */
  ghost predicate HandsOn(h: History, lcs: (seq<Line>, seq<Line>) -> seq<Line>, st: State, st': State, r: Rev) {
    && r in st.queue && st.queue[r].lineage in st.lineages
    && exists vias: map<Rev, seq<int>> :: HandsVia(h, lcs, st, st', st.queue[r], st.lineages[st.queue[r].lineage], vias)
  }

  ghost predicate HandsVia(h: History, lcs: (seq<Line>, seq<Line>) -> seq<Line>, st: State, st': State, u: Unit, l: Lineage,
                           vias: map<Rev, seq<int>>) {
    && (forall p :: p in vias <==> p in u.interesting && h.Live(p)) && st'.queue.Keys == st.queue.Keys - {u.revision} + vias.Keys
    && (forall p {:trigger vias[p]} :: p in vias ==>
          p in st'.queue && Traces(h, lcs, u, l, h.content[p], vias[p]) && HandsTo(st, st', p, vias[p]))
    && (forall m {:trigger st'.equivalent[m]} :: m in st'.equivalent ==>
          Kept(st.equivalent, st'.equivalent, m) || Differ(st, st', vias, m, st'.equivalent[m]))
    && (forall m :: m in st.equivalent ==> m in st'.equivalent)
    && (forall m, v :: Differ(st, st', vias, m, v) ==> m in st'.equivalent)
  }

  ghost predicate HandsTo(st: State, st': State, p: Rev, via: seq<int>) {
    && |MapOf(st', p)| == |via| && (p in st.queue ==> |MapOf(st, p)| == |via|)
    && forall j :: 0 <= j < |via| ==>
         MapOf(st', p)[j] == if p in st.queue && (MapOf(st, p)[j] != -1 || via[j] < 0) then MapOf(st, p)[j] else via[j]
  }

  /** Line `m` of the unit stands where line `v` of an ancestor queued before stands. */
  ghost predicate Differ(st: State, st': State, vias: map<Rev, seq<int>>, m: int, v: int) {
    exists p, j :: p in vias && p in st.queue && ClashIn(MapOf(st', p), vias[p], j, m, v)
  }

  lemma TurnHands(h: History, lcs: (seq<Line>, seq<Line>) -> seq<Line>, st: State, st': State, r: Rev, ps: seq<Rev>)
    requires CommonSubsequences(lcs) && Sound(h, st) && TurnBy(h, lcs, st, st', r, ps) && r !in st.queue[r].interesting
    ensures HandsOn(h, lcs, st, st', r)
  {
    var u := st.queue[r];
    assert HasLines(h, st, u);
    var l, st1 := st.lineages[u.lineage], st.(queue := st.queue - {r});
    Taken(h, st, r);
    EdgesHand(h, lcs, u, l, ps, st1);
    var st2 := AllEdges(h, lcs, u, ps, st1);
    var vias := map p | p in u.interesting && h.Live(p) :: Via(h, lcs, u, l, h.content[p]);
    TurnVias(h, lcs, st, st1, st2, st', u, l, r, ps, vias);
    assert HandsVia(h, lcs, st, st', u, l, vias);
  }

  lemma TurnVias(h: History, lcs: (seq<Line>, seq<Line>) -> seq<Line>, st: State, st1: State, st2: State, st': State,
                 u: Unit, l: Lineage, r: Rev, ps: seq<Rev>, vias: map<Rev, seq<int>>)
    requires CommonSubsequences(lcs) && SoundWith(h, u, l, st1) && SoundWith(h, u, l, st2) && r !in u.interesting && r == u.revision
    requires st1 == st.(queue := st.queue - {r}) && (forall p :: p in ps <==> p in u.interesting)
    requires Handed(h, lcs, u, l, ps, st1, st2) && Equates(h, lcs, u, l, ps, st1, st2)
    requires st'.queue == st2.queue && st'.lineages == st2.lineages && st'.equivalent == st2.equivalent
    requires vias == map p | p in u.interesting && h.Live(p) :: Via(h, lcs, u, l, h.content[p])
    ensures HandsVia(h, lcs, st, st', u, l, vias)
  {
    forall p | p in vias
      ensures p in st'.queue && Traces(h, lcs, u, l, h.content[p], vias[p]) && HandsTo(st, st', p, vias[p])
      ensures MapOf(st', p) == AfterEdge(h, lcs, u, l, st1, p)
    {
      TurnVia(h, lcs, st, st1, st2, st', u, l, r, ps, p);
    }
    forall m, v ensures ClashesWith(h, lcs, u, l, ps, st1, m, v) <==> Differ(st, st', vias, m, v) {
      TurnDiffers(h, lcs, st, st1, st', u, l, r, ps, vias, m, v);
    }
    QueuedKeys(h, lcs, st, st1, st2, u, l, r, ps, vias);
    forall m, v | Differ(st, st', vias, m, v) ensures m in st'.equivalent {
      assert ClashesWith(h, lcs, u, l, ps, st1, m, v);
    }
  }

  lemma QueuedKeys(h: History, lcs: (seq<Line>, seq<Line>) -> seq<Line>, st: State, st1: State, st2: State, u: Unit, l: Lineage,
                   r: Rev, ps: seq<Rev>, vias: map<Rev, seq<int>>)
    requires Sound(h, st2) && |l.lines| == |l.mapping| && Handed(h, lcs, u, l, ps, st1, st2) && st1 == st.(queue := st.queue - {r})
    requires forall p :: p in vias <==> p in ps && h.Live(p)
    ensures st2.queue.Keys == st.queue.Keys - {r} + vias.Keys
  {
    forall q ensures q in st2.queue <==> (q in st.queue && q != r) || q in vias {
      if q in st2.queue {
        assert st2.queue[q] == UnitFor(h, q, st2.queue[q].lineage) && h.Live(q);
      }
    }
  }

  lemma TurnVia(h: History, lcs: (seq<Line>, seq<Line>) -> seq<Line>, st: State, st1: State, st2: State, st': State,
                u: Unit, l: Lineage, r: Rev, ps: seq<Rev>, p: Rev)
    requires CommonSubsequences(lcs) && SoundWith(h, u, l, st1) && st1 == st.(queue := st.queue - {r})
    requires Handed(h, lcs, u, l, ps, st1, st2) && st'.queue == st2.queue && st'.lineages == st2.lineages
    requires p in ps && p != r && h.Live(p)
    ensures var via := Via(h, lcs, u, l, h.content[p]);
      p in st'.queue && Traces(h, lcs, u, l, h.content[p], via) && HandsTo(st, st', p, via)
    ensures MapOf(st', p) == AfterEdge(h, lcs, u, l, st1, p)
  {
    ViaTraces(h, lcs, u, l, h.content[p]);
    ViaLength(h, lcs, u, l, h.content[p]);
    assert MapOf(st', p) == MapOf(st2, p);
    if p in st.queue {
      assert st1.queue[p] == st.queue[p] && HasLines(h, st1, st1.queue[p]) && MapOf(st1, p) == MapOf(st, p);
    }
  }

  lemma TurnDiffers(h: History, lcs: (seq<Line>, seq<Line>) -> seq<Line>, st: State, st1: State, st': State,
                    u: Unit, l: Lineage, r: Rev, ps: seq<Rev>, vias: map<Rev, seq<int>>, m: int, v: int)
    requires |l.lines| == |l.mapping| && st1 == st.(queue := st.queue - {r}) && r !in vias
    requires forall p :: p in vias <==> p in ps && h.Live(p)
    requires forall p {:trigger vias[p]} :: p in vias ==>
      h.Live(p) && vias[p] == Via(h, lcs, u, l, h.content[p]) && MapOf(st', p) == AfterEdge(h, lcs, u, l, st1, p)
    ensures ClashesWith(h, lcs, u, l, ps, st1, m, v) <==> Differ(st, st', vias, m, v)
  {
    if ClashesWith(h, lcs, u, l, ps, st1, m, v) {
      var p, j :| p in ps && Clash(h, lcs, u, l, st1, p, j, m, v);
      assert p in vias && p in st.queue && ClashIn(MapOf(st', p), vias[p], j, m, v);
    }
    if Differ(st, st', vias, m, v) {
      var p, j :| p in vias && p in st.queue && ClashIn(MapOf(st', p), vias[p], j, m, v);
      assert p != r && p in st1.queue && p in ps && Clash(h, lcs, u, l, st1, p, j, m, v);
    }
  }
}
