/** Which lines a turn credits to its revision, in terms of common subsequences alone. */
module AnnotateCredits {
  import opened Lineages
  import opened Embeddings
  import opened AnnotateSteps

  // ---------- the lines picked and passed over ----------

  ghost predicate At(mapping: seq<int>, i: int, m: int) {
    0 <= i < |mapping| && mapping[i] == m
  }

  lemma AtTail(mapping: seq<int>, i: int, m: int)
    requires mapping != []
    ensures At(mapping, i, m) <==> (i == 0 && mapping[0] == m) || At(mapping[1..], i - 1, m)
  {
  }

  ghost predicate PickedAt(lines: seq<Line>, mapping: seq<int>, a: seq<Line>, m: int) {
    exists i :: At(mapping, i, m) && i in Spots(a, lines)
  }

  lemma {:induction false} PickedWhere(lines: seq<Line>, mapping: seq<int>, a: seq<Line>, m: int)
    requires |lines| == |mapping|
    ensures m in Picked(lines, mapping, a) <==> PickedAt(lines, mapping, a, m)
    decreases |lines|
  {
    if lines != [] && a != [] {
      var rest := if lines[0] == a[0] then a[1..] else a;
      PickedWhere(lines[1..], mapping[1..], rest, m);
      forall i ensures At(mapping, i, m) && i in Spots(a, lines) <==>
        (i == 0 && mapping[0] == m && lines[0] == a[0]) || (At(mapping[1..], i - 1, m) && i - 1 in Spots(rest, lines[1..]))
      {
        SpotsStep(a, lines, i);
        AtTail(mapping, i, m);
      }
      Tails(lines, mapping, a, rest, m);
    }
  }

  lemma Tails(lines: seq<Line>, mapping: seq<int>, a: seq<Line>, rest: seq<Line>, m: int)
    requires lines != [] && |lines| == |mapping| && a != []
    requires forall i :: At(mapping, i, m) && i in Spots(a, lines) <==>
        (i == 0 && mapping[0] == m && lines[0] == a[0]) || (At(mapping[1..], i - 1, m) && i - 1 in Spots(rest, lines[1..]))
    ensures PickedAt(lines, mapping, a, m) <==>
      (mapping[0] == m && lines[0] == a[0]) || PickedAt(lines[1..], mapping[1..], rest, m)
  {
    if PickedAt(lines[1..], mapping[1..], rest, m) {
      var i :| At(mapping[1..], i, m) && i in Spots(rest, lines[1..]);
      assert At(mapping[1..], i + 1 - 1, m) && i + 1 - 1 in Spots(rest, lines[1..]);
      assert At(mapping, i + 1, m) && i + 1 in Spots(a, lines);
    }
    if mapping[0] == m && lines[0] == a[0] {
      assert At(mapping, 0, m) && 0 in Spots(a, lines);
    }
  }

  /** A mapped line is picked if and only if one of its positions is in the leftmost embedding. */
  lemma PickedLeftmost(l: Lineage, a: seq<Line>, m: int)
    requires |l.lines| == |l.mapping| && Subsequence(a, l.lines)
    ensures m in Picked(l.lines, l.mapping, a) <==> exists i :: At(l.mapping, i, m) && InLeftmost(a, l.lines, i)
  {
    PickedWhere(l.lines, l.mapping, a, m);
    forall i ensures InLeftmost(a, l.lines, i) <==> i in Spots(a, l.lines) {
      TakenIs(a, l.lines, i);
    }
    if PickedAt(l.lines, l.mapping, a, m) {
      var i :| At(l.mapping, i, m) && i in Spots(a, l.lines);
      assert At(l.mapping, i, m) && InLeftmost(a, l.lines, i);
    }
  }

  // ---------- states at the head of the loop ----------

  /** Every unit is the one of its revision, with a lineage of its lines; ids are used up in order;
      a lineage is shared only by units of the same content. */
  ghost predicate Sound(h: History, st: State) {
    && (forall r {:trigger st.queue[r]} :: r in st.queue ==>
          h.Live(r) && st.queue[r] == UnitFor(h, r, st.queue[r].lineage) && HasLines(h, st, st.queue[r]))
    && (forall id {:trigger st.lineages[id]} :: id in st.lineages ==> id < st.next)
    && (forall r, q :: r in st.queue && q in st.queue && st.queue[r].lineage == st.queue[q].lineage ==>
          st.queue[r].content == st.queue[q].content)
  }

  ghost predicate HasLines(h: History, st: State, u: Unit) {
    && u.lineage in st.lineages && st.lineages[u.lineage].lines == LinesOf(h, u.content)
    && |st.lineages[u.lineage].lines| == |st.lineages[u.lineage].mapping|
  }

  /** So it is with the unit in progress. */
  ghost predicate SoundWith(h: History, u: Unit, l: Lineage, st: State) {
    && Sound(h, st) && HasLines(h, st, u) && st.lineages[u.lineage] == l
    && forall r {:trigger st.queue[r]} :: r in st.queue && st.queue[r].lineage == u.lineage ==> st.queue[r].content == u.content
  }

  /** What the lineage `l` of a unit becomes in an ancestor's version of the file. */
  function Via(h: History, lcs: (seq<Line>, seq<Line>) -> seq<Line>, u: Unit, l: Lineage, content: FileId): seq<int>
    requires |l.lines| == |l.mapping|
  {
    if content == u.content then l.mapping
    else
      var lines := LinesOf(h, content);
      Placed(lines, lcs(l.lines, lines), Picked(l.lines, l.mapping, lcs(l.lines, lines)))
  }

  lemma {:induction false} PlacedLength(lines: seq<Line>, lcs: seq<Line>, src: seq<int>)
    ensures |Placed(lines, lcs, src)| == |lines|
    decreases |lines|
  {
    if lines != [] {
      if lcs != [] && src != [] && lines[0] == lcs[0] {
        PlacedLength(lines[1..], lcs[1..], src[1..]);
      } else {
        PlacedLength(lines[1..], lcs, src);
      }
    }
  }

  lemma ViaLength(h: History, lcs: (seq<Line>, seq<Line>) -> seq<Line>, u: Unit, l: Lineage, content: FileId)
    requires |l.lines| == |l.mapping| && l.lines == LinesOf(h, u.content)
    ensures |Via(h, lcs, u, l, content)| == |LinesOf(h, content)|
  {
    var lines := LinesOf(h, content);
    PlacedLength(lines, lcs(l.lines, lines), Picked(l.lines, l.mapping, lcs(l.lines, lines)));
  }

  lemma HandedIs(h: History, lcs: (seq<Line>, seq<Line>) -> seq<Line>, u: Unit, l: Lineage, content: FileId, st: State)
    requires HasLines(h, st, u) && st.lineages[u.lineage] == l
    requires forall id {:trigger st.lineages[id]} :: id in st.lineages ==> id < st.next
    ensures var (st1, id) := HandedOn(h, lcs, u, content, st);
      && id == (if content == u.content then u.lineage else st.next) && id in st1.lineages
      && st1.lineages[id] == Lineage(LinesOf(h, content), Via(h, lcs, u, l, content))
      && (forall x {:trigger st1.lineages[x]} :: x in st.lineages ==> x in st1.lineages && st1.lineages[x] == st.lineages[x])
      && st1.queue == st.queue && st1.equivalent == st.equivalent && st1.annotations == st.annotations
  {
  }

  ghost predicate Later(st: State, st': State) {
    st'.next >= st.next && forall id {:trigger st'.lineages[id]} :: id in st'.lineages ==> id < st'.next
  }

  /** An edge to an ancestor with a unit: its lineage takes in this one. */
  ghost predicate EdgeJoins(st: State, st': State, p: Rev, via: seq<int>) {
    && p in st.queue && st.queue[p].lineage in st.lineages && st'.queue == st.queue
    && st'.lineages.Keys >= st.lineages.Keys && Later(st, st')
    && |st.lineages[st.queue[p].lineage].mapping| == |via|
    && (forall x {:trigger st'.lineages[x]} :: x in st.lineages && x != st.queue[p].lineage ==> st'.lineages[x] == st.lineages[x])
    && st'.equivalent == Matched(st.equivalent, Filled(st.lineages[st.queue[p].lineage].mapping, via), via)
    && st'.lineages[st.queue[p].lineage] ==
         Lineage(st.lineages[st.queue[p].lineage].lines, Filled(st.lineages[st.queue[p].lineage].mapping, via))
  }

  /** An edge to an ancestor without a unit: it gets one. */
  ghost predicate EdgeQueues(h: History, st: State, st': State, u: Unit, p: Rev, via: seq<int>) {
    && p !in st.queue && h.Live(p) && p in st'.queue && st'.queue == st.queue[p := UnitFor(h, p, st'.queue[p].lineage)]
    && st'.queue[p].lineage == (if h.content[p] == u.content then u.lineage else st.next)
    && st'.queue[p].lineage in st'.lineages && st'.lineages.Keys >= st.lineages.Keys && Later(st, st')
    && (forall x {:trigger st'.lineages[x]} :: x in st.lineages ==> st'.lineages[x] == st.lineages[x])
    && st'.lineages[st'.queue[p].lineage] == Lineage(LinesOf(h, h.content[p]), via) && st'.equivalent == st.equivalent
  }

  lemma EdgeDoes(h: History, lcs: (seq<Line>, seq<Line>) -> seq<Line>, u: Unit, l: Lineage, p: Rev, st: State)
    requires SoundWith(h, u, l, st) && h.Live(p)
    ensures var st', via := OneEdge(h, lcs, u, p, st), Via(h, lcs, u, l, h.content[p]);
      if p in st.queue then EdgeJoins(st, st', p, via) else EdgeQueues(h, st, st', u, p, via)
  {
    HandedIs(h, lcs, u, l, h.content[p], st);
    ViaLength(h, lcs, u, l, h.content[p]);
  }

  lemma SameVia(h: History, lcs: (seq<Line>, seq<Line>) -> seq<Line>, u: Unit, l: Lineage, p: Rev, st: State)
    requires SoundWith(h, u, l, st) && p in st.queue && st.queue[p].lineage == u.lineage
    ensures Via(h, lcs, u, l, h.content[p]) == l.mapping && Filled(l.mapping, l.mapping) == l.mapping
  {
  }

  /** One edge keeps the state sound and the lineage of the unit in progress as it is. */
  lemma JoinSound(h: History, lcs: (seq<Line>, seq<Line>) -> seq<Line>, u: Unit, l: Lineage, p: Rev, st: State, st': State)
    requires SoundWith(h, u, l, st) && h.Live(p) && EdgeJoins(st, st', p, Via(h, lcs, u, l, h.content[p]))
    ensures SoundWith(h, u, l, st')
  {
    if st.queue[p].lineage == u.lineage {
      SameVia(h, lcs, u, l, p, st);
    }
    assert HasLines(h, st, st.queue[p]);
    forall r | r in st'.queue ensures h.Live(r) && st'.queue[r] == UnitFor(h, r, st'.queue[r].lineage) && HasLines(h, st', st'.queue[r]) {
      assert HasLines(h, st, st.queue[r]);
    }
  }

  lemma QueueSound(h: History, lcs: (seq<Line>, seq<Line>) -> seq<Line>, u: Unit, l: Lineage, p: Rev, st: State, st': State)
    requires SoundWith(h, u, l, st) && h.Live(p) && EdgeQueues(h, st, st', u, p, Via(h, lcs, u, l, h.content[p]))
    ensures SoundWith(h, u, l, st')
  {
    ViaLength(h, lcs, u, l, h.content[p]);
    forall r | r in st'.queue ensures h.Live(r) && st'.queue[r] == UnitFor(h, r, st'.queue[r].lineage) && HasLines(h, st', st'.queue[r]) {
      if r != p {
        assert st'.queue[r] == st.queue[r] && HasLines(h, st, st.queue[r]);
      }
    }
    forall r, q | r in st'.queue && q in st'.queue && st'.queue[r].lineage == st'.queue[q].lineage
      ensures st'.queue[r].content == st'.queue[q].content
    {
      if r != p { assert st'.queue[r] == st.queue[r] && HasLines(h, st, st.queue[r]); }
      if q != p { assert st'.queue[q] == st.queue[q] && HasLines(h, st, st.queue[q]); }
    }
    forall r | r in st'.queue && st'.queue[r].lineage == u.lineage ensures st'.queue[r].content == u.content {
      if r != p { assert st'.queue[r] == st.queue[r] && HasLines(h, st, st.queue[r]); }
    }
  }

  // ---------- the lines copied and touched ----------

  ghost predicate CopiedBy(h: History, lcs: (seq<Line>, seq<Line>) -> seq<Line>, u: Unit, l: Lineage, p: Rev, m: int)
    requires |l.lines| == |l.mapping|
  {
    h.Live(p) && m >= 0 &&
    if h.content[p] == u.content then m in l.mapping
    else m in Picked(l.lines, l.mapping, lcs(l.lines, LinesOf(h, h.content[p])))
  }

  ghost predicate TouchedBy(h: History, lcs: (seq<Line>, seq<Line>) -> seq<Line>, u: Unit, l: Lineage, p: Rev, m: int)
    requires |l.lines| == |l.mapping|
  {
    h.Live(p) && m >= 0 && h.content[p] != u.content &&
    m in Passed(l.lines, l.mapping, lcs(l.lines, LinesOf(h, h.content[p])))
  }

  ghost predicate Marks(h: History, lcs: (seq<Line>, seq<Line>) -> seq<Line>, u: Unit, l: Lineage, ps: seq<Rev>, st: State)
    requires |l.lines| == |l.mapping|
  {
    && (forall m :: m in st.copied <==> exists p :: p in ps && CopiedBy(h, lcs, u, l, p, m))
    && (forall m :: m in st.touched <==> exists p :: p in ps && TouchedBy(h, lcs, u, l, p, m))
  }

  lemma EdgeMarks(h: History, lcs: (seq<Line>, seq<Line>) -> seq<Line>, u: Unit, l: Lineage, p: Rev, st: State)
    requires HasLines(h, st, u) && st.lineages[u.lineage] == l
    ensures var st' := OneEdge(h, lcs, u, p, st);
      && (forall m :: m in st'.copied <==> m in st.copied || CopiedBy(h, lcs, u, l, p, m))
      && (forall m :: m in st'.touched <==> m in st.touched || TouchedBy(h, lcs, u, l, p, m))
      && st'.annotations == st.annotations
  {
  }

  lemma MarksMore(h: History, lcs: (seq<Line>, seq<Line>) -> seq<Line>, u: Unit, l: Lineage, ps: seq<Rev>, p: Rev, st: State, st': State)
    requires |l.lines| == |l.mapping| && Marks(h, lcs, u, l, ps, st)
    requires forall m :: m in st'.copied <==> m in st.copied || CopiedBy(h, lcs, u, l, p, m)
    requires forall m :: m in st'.touched <==> m in st.touched || TouchedBy(h, lcs, u, l, p, m)
    ensures Marks(h, lcs, u, l, ps + [p], st')
  {
    assert forall q :: q in ps + [p] <==> q in ps || q == p;
  }

  /** After the edges to `ps` exactly the lines some of them copies, or touches, are marked. */
  lemma {:induction false} EdgesMark(h: History, lcs: (seq<Line>, seq<Line>) -> seq<Line>, u: Unit, l: Lineage, ps: seq<Rev>, st0: State)
    requires SoundWith(h, u, l, st0) && st0.copied == st0.touched == {}
    ensures var st := AllEdges(h, lcs, u, ps, st0);
      SoundWith(h, u, l, st) && Marks(h, lcs, u, l, ps, st) && st.annotations == st0.annotations
    decreases |ps|
  {
    if ps != [] {
      var n := |ps| - 1;
      EdgesMark(h, lcs, u, l, ps[..n], st0);
      var st, p := AllEdges(h, lcs, u, ps[..n], st0), ps[n];
      EdgeMarks(h, lcs, u, l, p, st);
      MarksMore(h, lcs, u, l, ps[..n], p, st, OneEdge(h, lcs, u, p, st));
      assert ps[..n] + [p] == ps;
      EdgeSound(h, lcs, u, l, p, st);
    }
  }

  lemma EdgeSound(h: History, lcs: (seq<Line>, seq<Line>) -> seq<Line>, u: Unit, l: Lineage, p: Rev, st: State)
    requires SoundWith(h, u, l, st)
    ensures SoundWith(h, u, l, OneEdge(h, lcs, u, p, st))
  {
    if h.Live(p) {
      EdgeDoes(h, lcs, u, l, p, st);
      var st' := OneEdge(h, lcs, u, p, st);
      if p in st.queue { JoinSound(h, lcs, u, l, p, st, st'); } else { QueueSound(h, lcs, u, l, p, st, st'); }
    }
  }

  // ---------- the lines credited ----------

  /** The unit's revision is where line `m` came in: no interesting ancestor with the file has the same
      content, and in none of the others is a position of the line part of what is common. */
  ghost predicate Own(h: History, lcs: (seq<Line>, seq<Line>) -> seq<Line>, u: Unit, l: Lineage, m: int) {
    Mapped(l, m) && forall p :: p in u.interesting && h.Live(p) ==>
      && h.content[p] != u.content
      && forall i :: At(l.mapping, i, m) ==> !InLeftmost(lcs(l.lines, LinesOf(h, h.content[p])), l.lines, i)
  }

  lemma CopiedIs(h: History, lcs: (seq<Line>, seq<Line>) -> seq<Line>, u: Unit, l: Lineage, p: Rev, m: int)
    requires |l.lines| == |l.mapping| && CommonSubsequences(lcs) && h.Live(p) && Mapped(l, m)
    ensures CopiedBy(h, lcs, u, l, p, m) <==>
      !(h.content[p] != u.content && forall i :: At(l.mapping, i, m) ==> !InLeftmost(lcs(l.lines, LinesOf(h, h.content[p])), l.lines, i))
    ensures CopiedBy(h, lcs, u, l, p, m) || TouchedBy(h, lcs, u, l, p, m)
  {
    var lines := LinesOf(h, h.content[p]);
    PickedLeftmost(l, lcs(l.lines, lines), m);
    PickedOrPassed(l.lines, l.mapping, lcs(l.lines, lines), m);
  }

  lemma MarkedMapped(h: History, lcs: (seq<Line>, seq<Line>) -> seq<Line>, u: Unit, l: Lineage, p: Rev, m: int)
    requires |l.lines| == |l.mapping| && (CopiedBy(h, lcs, u, l, p, m) || TouchedBy(h, lcs, u, l, p, m))
    ensures Mapped(l, m)
  {
    PickedOrPassed(l.lines, l.mapping, lcs(l.lines, LinesOf(h, h.content[p])), m);
  }

  /** Touched and not copied: the line is the unit's own. */
  lemma OwnIs(h: History, lcs: (seq<Line>, seq<Line>) -> seq<Line>, u: Unit, l: Lineage, ps: seq<Rev>, st: State, m: int)
    requires |l.lines| == |l.mapping| && CommonSubsequences(lcs) && (forall p :: p in ps <==> p in u.interesting)
    requires Marks(h, lcs, u, l, ps, st) && LineageAt(st.lineages, u.lineage) == l
    ensures m in AllTouched(h, u, st).touched - AllTouched(h, u, st).copied <==> Own(h, lcs, u, l, m)
  {
    var touched := AllTouched(h, u, st).touched;
    if m in touched - st.copied {
      if m in st.touched {
        var p :| p in ps && TouchedBy(h, lcs, u, l, p, m);
        MarkedMapped(h, lcs, u, l, p, m);
      }
      forall p | p in u.interesting && h.Live(p)
        ensures h.content[p] != u.content
        ensures forall i :: At(l.mapping, i, m) ==> !InLeftmost(lcs(l.lines, LinesOf(h, h.content[p])), l.lines, i)
      {
        CopiedIs(h, lcs, u, l, p, m);
        assert p in ps && !CopiedBy(h, lcs, u, l, p, m);
      }
    }
    if Own(h, lcs, u, l, m) {
      forall p | p in ps ensures !CopiedBy(h, lcs, u, l, p, m) {
        if h.Live(p) {
          CopiedIs(h, lcs, u, l, p, m);
        }
      }
      if exists p :: p in u.interesting && h.Live(p) {
        var p :| p in u.interesting && h.Live(p);
        CopiedIs(h, lcs, u, l, p, m);
        assert p in ps && TouchedBy(h, lcs, u, l, p, m);
      }
    }
  }

  /** What one turn credits: exactly the lines that are the unit's own and were not credited before. */
  ghost predicate Credits(h: History, lcs: (seq<Line>, seq<Line>) -> seq<Line>, st: State, st': State, r: Rev) {
    && r in st.queue && st.queue[r].lineage in st.lineages && |st'.annotations| == |st.annotations|
    && forall m {:trigger st'.annotations[m]} :: 0 <= m < |st.annotations| ==>
         var own := Own(h, lcs, st.queue[r], st.lineages[st.queue[r].lineage], m);
         st'.annotations[m] == if st.annotations[m] == NullRev && own then r else st.annotations[m]
  }

  ghost predicate AtHead(h: History, st: State) {
    Sound(h, st) && st.copied == st.touched == {}
  }

  lemma Taken(h: History, st: State, r: Rev)
    requires Sound(h, st) && r in st.queue
    ensures SoundWith(h, st.queue[r], st.lineages[st.queue[r].lineage], st.(queue := st.queue - {r}))
  {
    assert HasLines(h, st, st.queue[r]);
    var st1 := st.(queue := st.queue - {r});
    forall q | q in st1.queue ensures h.Live(q) && st1.queue[q] == UnitFor(h, q, st1.queue[q].lineage) && HasLines(h, st1, st1.queue[q]) {
      assert st1.queue[q] == st.queue[q] && HasLines(h, st, st.queue[q]);
    }
    assert HasLines(h, st1, st.queue[r]);
  }

  lemma TurnCredits(h: History, lcs: (seq<Line>, seq<Line>) -> seq<Line>, st: State, st': State, r: Rev, ps: seq<Rev>)
    requires CommonSubsequences(lcs) && AtHead(h, st) && TurnBy(h, lcs, st, st', r, ps)
    ensures AtHead(h, st') && Credits(h, lcs, st, st', r)
  {
    var u := st.queue[r];
    assert HasLines(h, st, u);
    var l, st1 := st.lineages[u.lineage], st.(queue := st.queue - {r});
    Taken(h, st, r);
    EdgesMark(h, lcs, u, l, ps, st1);
    var st2 := AllEdges(h, lcs, u, ps, st1);
    forall m ensures m in AllTouched(h, u, st2).touched - AllTouched(h, u, st2).copied <==> Own(h, lcs, u, l, m) {
      OwnIs(h, lcs, u, l, ps, st2, m);
    }
    SameSound(h, st2, st');
  }

  lemma SameSound(h: History, st: State, st': State)
    requires Sound(h, st) && st'.queue == st.queue && st'.lineages == st.lineages && st'.next == st.next
    ensures Sound(h, st')
  {
    forall r | r in st'.queue ensures HasLines(h, st', st'.queue[r]) {
      assert HasLines(h, st, st.queue[r]);
    }
  }
}
