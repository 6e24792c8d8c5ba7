/** The row-by-row drawing of the ASCII revision graph. */
module Asciik {
  import opened Ordered
  import opened GraphRows
  import opened GraphRoom
  import opened GraphDrawing
  import opened GraphReading

  // ---------- trying a layout ----------

  /** `links_cross`. */
  method LinksCross(links: set<Link>) returns (crosses: set<nat>)
    ensures forall x :: x in crosses <==> Crosses(links, x)
  {
    crosses := {};
    var todo := links;
    while todo != {}
      invariant todo <= links && forall x :: x in crosses <==> Crosses(links - todo, x)
      decreases |todo|
    {
      var l :| l in todo;
      ghost var done := links - todo;
      var more := PassedBy(l);
      crosses := crosses + more;
      CrossMore(done, l);
      todo := todo - {l};
      assert links - todo == done + {l};
    }
    assert links - todo == links;
  }

  method PassedBy(l: Link) returns (passed: set<nat>)
    ensures forall x :: x in passed <==> Passes(l, x)
  {
    passed := {};
    if l.0 != l.1 {
      var low, high := if l.0 < l.1 then l.0 else l.1, Max(l.0, l.1);
      for x := 2 * low + 1 to 2 * high
        invariant forall y: nat :: y in passed <==> 2 * low + 1 <= y < x
      {
        passed := passed + {x};
      }
    }
  }

  lemma CrossMore(links: set<Link>, l: Link)
    ensures forall x :: Crosses(links + {l}, x) <==> Crosses(links, x) || Passes(l, x)
  {
    forall x ensures Crosses(links + {l}, x) <==> Crosses(links, x) || Passes(l, x) {
      if Crosses(links, x) {
        var a :| a in links && Passes(a, x);
        assert a in links + {l};
      }
      if Passes(l, x) {
        assert l in links + {l};
      }
    }
  }

  ghost predicate Preserved(links: set<Link>, cur: seq<Rev>, next: seq<Rev>, n: nat) {
    forall l: Link :: l in links <==> l.0 < n && Preserves(cur, next, l.0, l.1)
  }

  /** The lines that go on; refused when one would move by more than a column. */
  method PreservationLinks(cur: seq<Rev>, next: seq<Rev>) returns (ok: bool, links: set<Link>, shift: bool)
    ensures ok == !FarShift(cur, next)
    ensures ok ==> Preserved(links, cur, next, |cur|) && shift == Shifts(cur, next)
  {
    links, shift := {}, false;
    for n := 0 to |cur|
      invariant Preserved(links, cur, next, n)
      invariant forall l: Link :: l in links ==> Distance(l.0, l.1) <= 1
      invariant shift == exists l: Link :: l in links && l.0 != l.1
    {
      var j := Find(next, cur[n]);
      if cur[n] != Ghost && j != |next| {
        assert Preserves(cur, next, n, j);
        var d := if n > j then n - j else j - n;
        if d > 1 {
          return false, links, shift;
        }
        if d != 0 {
          shift := true;
        }
        links := links + {(n, j)};
        assert (n, j) in links;
      }
    }
    ok := true;
    NoFarShift(cur, next, links);
  }

  lemma NoFarShift(cur: seq<Rev>, next: seq<Rev>, links: set<Link>)
    requires Preserved(links, cur, next, |cur|) && forall l: Link :: l in links ==> Distance(l.0, l.1) <= 1
    ensures !FarShift(cur, next)
    ensures Shifts(cur, next) <==> exists l: Link :: l in links && l.0 != l.1
  {
    forall i: nat, j: nat | Preserves(cur, next, i, j) ensures Distance(i, j) <= 1 {
      assert (i, j) in links;
    }
    if Shifts(cur, next) {
      var i: nat, j: nat :| Preserves(cur, next, i, j) && i != j;
      assert (i, j) in links;
    }
  }

  ghost predicate Descended(links: set<Link>, next: seq<Rev>, c: nat, parents: set<Rev>) {
    forall l: Link :: l in links <==> Descends(next, c, parents, l.0, l.1)
  }

  /** The links to the parents; refused when one is long and lines shift. */
  method ParentLinks(next: seq<Rev>, c: nat, parents: set<Rev>, shift: bool) returns (ok: bool, links: set<Link>)
    requires forall p :: p in parents && p != Ghost ==> p in next
    ensures ok == !(shift && FarParent(next, c, parents))
    ensures ok ==> Descended(links, next, c, parents)
  {
    links := {};
    var todo := parents;
    ghost var done := {};
    while todo != {}
      invariant done + todo == parents
      invariant Descended(links, next, c, done)
      invariant shift ==> forall l: Link :: l in links ==> Distance(l.0, l.1) <= 1
      decreases |todo|
    {
      var p :| p in todo;
      if p != Ghost {
        var j := Find(next, p);
        var d := if c > j then c - j else j - c;
        if d > 1 && shift {
          assert Descends(next, c, parents, c, j);
          return false, links;
        }
        links := links + {(c, j)};
      }
      DescendsMore(next, c, done, p);
      done, todo := done + {p}, todo - {p};
    }
    assert done == parents;
    ok := true;
    if shift {
      forall i: nat, j: nat | Descends(next, c, parents, i, j) ensures Distance(i, j) <= 1 {
        assert (i, j) in links;
      }
    }
  }

  lemma DescendsMore(next: seq<Rev>, c: nat, parents: set<Rev>, p: Rev)
    requires p != Ghost ==> p in next
    ensures forall i, j {:trigger Descends(next, c, parents + {p}, i, j)} ::
      Descends(next, c, parents + {p}, i, j) <==> Descends(next, c, parents, i, j) || (p != Ghost && i == c && j == Find(next, p))
  {
  }

  lemma CrossingSeen(cur: seq<Rev>, next: seq<Rev>, c: nat, parents: set<Rev>, kept: set<Link>, down: set<Link>)
    requires Preserved(kept, cur, next, |cur|) && Descended(down, next, c, parents)
    ensures Crossing(cur, next, c, parents) <==> exists x :: Crosses(kept, x) && Crosses(down, x)
  {
    if Crossing(cur, next, c, parents) {
      var a: Link, b: Link, x: nat :| Preserves(cur, next, a.0, a.1) && Descends(next, c, parents, b.0, b.1) && Passes(a, x) && Passes(b, x);
      assert a in kept && b in down;
      assert Crosses(kept, x) && Crosses(down, x);
    }
    if x :| Crosses(kept, x) && Crosses(down, x) {
      var a :| a in kept && Passes(a, x);
      var b :| b in down && Passes(b, x);
      assert Preserves(cur, next, a.0, a.1) && Descends(next, c, parents, b.0, b.1);
    }
  }

  /** In an accepted layout every link shows. */
  lemma FitsNoClash(cur: seq<Rev>, next: seq<Rev>, c: nat, parents: set<Rev>, kept: set<Link>, down: set<Link>)
    requires Fits(cur, next, c, parents) && OrderKept(cur, next)
    requires Preserved(kept, cur, next, |cur|) && Descended(down, next, c, parents)
    ensures NoClash(kept + down)
  {
    forall a, b | a in kept + down && b in kept + down && GlyphAt(a) == GlyphAt(b) ensures Glyph(a) == Glyph(b) {
      SameCell(a, b);
      if a.1 < a.0 && b.0 < b.1 {
        ClashCrosses(cur, next, c, parents, kept, down, a, b);
      } else if b.1 < b.0 && a.0 < a.1 {
        ClashCrosses(cur, next, c, parents, kept, down, b, a);
      }
    }
  }

  /** Links with one cell have one glyph, unless they slant opposite ways. */
  lemma SameCell(a: Link, b: Link)
    requires GlyphAt(a) == GlyphAt(b)
    ensures Glyph(a) == Glyph(b) || (a.1 < a.0 && b.0 < b.1) || (b.1 < b.0 && a.0 < a.1)
  {
  }

  lemma ClashCrosses(cur: seq<Rev>, next: seq<Rev>, c: nat, parents: set<Rev>, kept: set<Link>, down: set<Link>, a: Link, b: Link)
    requires Fits(cur, next, c, parents) && OrderKept(cur, next)
    requires Preserved(kept, cur, next, |cur|) && Descended(down, next, c, parents)
    requires a in kept + down && b in kept + down && a.1 < a.0 && b.0 < b.1
    ensures GlyphAt(a) != GlyphAt(b)
  {
    if a in kept && b in kept {
      assert Preserves(cur, next, a.0, a.1) && Preserves(cur, next, b.0, b.1);
    } else {
      assert Passes(a, GlyphAt(a)) && Passes(b, GlyphAt(b));
    }
  }

  lemma FitsTidy(cur: seq<Rev>, next: seq<Rev>, c: nat, parents: set<Rev>, links: set<Link>)
    requires Fits(cur, next, c, parents)
    requires forall l: Link :: l in links <==> Preserves(cur, next, l.0, l.1) || Descends(next, c, parents, l.0, l.1)
    ensures Tidy(links, c)
  {
    forall a: Link | a in links && Distance(a.0, a.1) > 1 ensures Descends(next, c, parents, a.0, a.1) {
    }
    forall a: Link, b: Link | a in links && b in links && Distance(a.0, a.1) > 1 && b.0 != b.1 ensures b.0 == c {
      assert Descends(next, c, parents, a.0, a.1);
    }
  }

  method LinksMeet(kept: set<Link>, down: set<Link>) returns (meet: bool)
    ensures meet == exists x :: Crosses(kept, x) && Crosses(down, x)
  {
    var keptCrosses := LinksCross(kept);
    var downCrosses := LinksCross(down);
    var common := keptCrosses * downCrosses;
    meet := common != {};
    if meet {
      var x :| x in common;
      assert Crosses(kept, x) && Crosses(down, x);
    } else {
      forall x ensures !(Crosses(kept, x) && Crosses(down, x)) {
        assert x !in common;
      }
    }
  }

  /** The links of a layout, if it fits. */
  method Layout(cur: seq<Rev>, next: seq<Rev>, loc: nat, parents: set<Rev>) returns (ok: bool, links: set<Link>)
    requires OrderKept(cur, next) && forall p :: p in parents && p != Ghost ==> p in next
    ensures ok == Fits(cur, next, loc, parents)
    ensures ok ==> NoClash(links)
    ensures ok ==> forall l: Link :: l in links <==> Preserves(cur, next, l.0, l.1) || Descends(next, loc, parents, l.0, l.1)
  {
    links := {};
    var kept, down, shift;
    ok, kept, shift := PreservationLinks(cur, next);
    if !ok {
      return;
    }
    ok, down := ParentLinks(next, loc, parents, shift);
    if !ok {
      return;
    }
    CrossingSeen(cur, next, loc, parents, kept, down);
    var meet := LinksMeet(kept, down);
    if meet {
      return false, links;
    }
    FitsNoClash(cur, next, loc, parents, kept, down);
    return true, kept + down;
  }

  class Asciik {
    const width: nat
    var row: seq<Rev>
    var output: seq<Drawing>

    constructor (width: nat)
      ensures this.width == width && row == [] && output == []
    {
      this.width := width;
      row, output := [], [];
    }

    /** `try_draw`: draws and accepts exactly the layouts that fit. */
    method TryDraw(next: seq<Rev>, loc: nat, parents: set<Rev>) returns (ok: bool)
      requires loc < |row| && OrderKept(row, next) && forall p :: p in parents && p != Ghost ==> p in next
      modifies this`output
      ensures ok == Fits(row, next, loc, parents)
      ensures !ok ==> output == old(output)
      ensures ok ==> |output| == |old(output)| + 1 && output[..|old(output)|] == old(output)
      ensures ok ==> Shows(output[|old(output)|], row, next, loc, parents)
    {
      var ghosts := Ghosts(row);
      var links;
      ok, links := Layout(row, next, loc, parents);
      if ok {
        var d := Draw(width, |row|, |next|, loc, links, ghosts);
        output := output + [d];
        FitsTidy(row, next, loc, parents, links);
        ChartShows(d, links, row, loc, next, parents);
      }
    }

    /** The layouts in turn: without a ghost, as it is, and for a line that ends with one more ghost. */
    method PrintAt(loc: nat, news: seq<Rev>, parents: set<Rev>) returns (drawn: bool)
      requires Distinct(row) && loc < |row| && row[loc] != Ghost && row[loc] !in parents
      requires News(row, news) && (Ghost in news ==> news[0] == Ghost) && forall x :: x in news <==> x in parents && x !in row
      modifies this
      ensures drawn == (news == [] || Drawable(old(row), loc, news, parents))
      ensures row == Chosen(old(row), loc, news, parents) && Distinct(row)
      ensures drawn ==> Closes(old(row), loc, news, parents, row)
      ensures !drawn ==> row == old(row) && output == old(output)
      ensures drawn ==> Lines(row) == Lines(old(row)) - {old(row[loc])} + (parents - {Ghost})
      ensures drawn ==> |output| == |old(output)| + 1 && output[..|old(output)|] == old(output)
      ensures drawn ==> Shows(output[|old(output)|], old(row), row, loc, parents)
    {
      var next, noGhost, extra := Candidates(row, loc, news, parents);
      if news == [] || Drawable(row, loc, news, parents) {
        ChosenCloses(row, loc, news, parents);
      }
      drawn := TryDraw(noGhost, loc, parents);
      if drawn {
        row := noGhost;
        return;
      }
      drawn := TryDraw(next, loc, parents);
      if drawn {
        row := next;
        return;
      }
      if news == [] {
        if loc == |row| - 1 {
          FitsLast(row, loc, parents);
        }
        assert loc < |next|;
        FitsOne(row, loc, Ghost, parents);
        drawn := TryDraw(extra, loc, parents);
        assert drawn;
        row := extra;
      }
    }

    /** A revision that has no line yet gets one on the right. */
    method Open(rev: Rev)
      requires Distinct(row) && rev != Ghost
      modifies this`row
      ensures row == Opened(old(row), rev) && Distinct(row) && rev in row && Lines(row) == Lines(old(row)) + {rev}
    {
      if rev !in row {
        row := row + [rev];
      }
    }

    /** `print`: a layout is drawn exactly when there is room, and then the row has exactly the open
        lines; otherwise nothing is drawn and the row keeps the revision. */
    method Print(rev: Rev, parents: set<Rev>) returns (drawn: bool, ghost news: seq<Rev>)
      requires Distinct(row) && rev != Ghost && rev !in parents
      modifies this
      ensures Distinct(row) && Stepped(old(row), rev, parents, news, row, drawn) && (|parents| <= 2 ==> drawn)
      ensures drawn ==> Lines(row) == Lines(old(row)) - {rev} + (parents - {Ghost})
      ensures drawn ==> |output| == |old(output)| + 1 && output[..|old(output)|] == old(output)
      ensures drawn ==> var cur := Opened(old(row), rev); Shows(output[|old(output)|], cur, row, Find(cur, rev), parents)
      ensures !drawn ==> row == Opened(old(row), rev) && Lines(row) == Lines(old(row)) + {rev} && output == old(output)
    {
      Open(rev);
      var loc := Find(row, rev);
      var newRevs := NewParents(row, parents);
      drawn := PrintAt(loc, newRevs, parents);
      SteppedBy(old(row), rev, parents, newRevs, row, drawn);
      news := newRevs;
    }

    method PrintOne(rev: Rev, parents: set<Rev>) returns (drawn: bool, ghost chunk: Chunk)
      requires Distinct(row) && rev != Ghost && rev !in parents
      modifies this
      ensures Distinct(row) && chunk.Good() && Fitted(chunk, (rev, parents), drawn, row) && chunk.row == old(row)
      ensures output == old(output) + chunk.drawing && |chunk.drawing| == (if drawn then 1 else 0)
      ensures Lines(row) == if drawn then Lines(old(row)) - {rev} + (parents - {Ghost}) else Lines(old(row)) + {rev}
    {
      ghost var news;
      drawn, news := Print(rev, parents);
      ghost var drawing := output[|old(output)|..];
      Grown(old(output), output);
      chunk := Chunk(old(row), rev, parents, news, row, drawn, drawing);
      GoodChunk(chunk);
    }

    /** Any run of the graph: one chunk for each revision drawn. */
    method PrintAll(revs: seq<(Rev, set<Rev>)>) returns (drawn: seq<bool>, ghost chunks: seq<Chunk>)
      requires Distinct(row)
      requires forall i :: 0 <= i < |revs| ==> revs[i].0 != Ghost && revs[i].0 !in revs[i].1
      modifies this
      ensures Distinct(row) && GraphRun(revs, drawn, chunks, old(row), row)
      ensures output == old(output) + Drawings(chunks) && |output| == |old(output)| + Drawn(drawn)
      ensures Lines(row) == OpenLines(Lines(old(row)), revs, drawn)
    {
      drawn, chunks := [], [];
      for i := 0 to |revs|
        invariant Distinct(row) && RunSoFar(revs[..i], drawn, chunks, old(row), row, old(output), output)
        invariant forall k :: 0 <= k < |chunks| ==> chunks[k].Good()
      {
        var d;
        ghost var last, output0 := *, output;
        d, last := PrintOne(revs[i].0, revs[i].1);
        RunStep(revs, i, drawn, chunks, old(row), old(output), output0, last);
        drawn, chunks := drawn + [d], chunks + [last];
      }
      assert revs[..|revs|] == revs;
    }
  }

  /** What `print` does to the row: the first layout that fits, tried in the source's order. */
  ghost function Chosen(cur: seq<Rev>, c: nat, news: seq<Rev>, parents: set<Rev>): seq<Rev>
    requires c < |cur|
  {
    var next := Replaced(cur, c, news);
    if Fits(cur, WithoutGhost(next), c, parents) then WithoutGhost(next)
    else if Fits(cur, next, c, parents) then next
    else if news == [] then Replaced(cur, c, [Ghost])
    else cur
  }

  /** Once drawn, a row in which a gap could be closed is exactly the row without it: the first ghost goes
      whenever what is left can follow, and only then. Else the row stands as it is if it can follow, and
      if not, a new gap takes the place of the revision. */
  ghost predicate Closes(cur: seq<Rev>, c: nat, news: seq<Rev>, parents: set<Rev>, row': seq<Rev>)
    requires c < |cur|
  {
    var next := cur[..c] + news + cur[c + 1..];
    && (forall a, b :: next == a + [Ghost] + b && Ghost !in a ==> (row' == a + b <==> Fits(cur, a + b, c, parents)))
    && (|row'| == |next| - 1 || (row' == next <==> Fits(cur, next, c, parents)))
    && (|row'| == |next| - 1 || row' == next || (news == [] && row' == cur[..c] + [Ghost] + cur[c + 1..]))
    && (|row'| == |next| - 1 ==> Ghost in next)
  }

  lemma ChosenCloses(cur: seq<Rev>, c: nat, news: seq<Rev>, parents: set<Rev>)
    requires c < |cur| && cur[c] != Ghost && (news == [] || Drawable(cur, c, news, parents))
    ensures Closes(cur, c, news, parents, Chosen(cur, c, news, parents))
  {
    var next := Replaced(cur, c, news);
    forall a, b | next == a + [Ghost] + b && Ghost !in a ensures WithoutGhost(next) == a + b && |a + b| == |next| - 1 {
      FirstGap(next, a, b);
    }
  }

  lemma FirstGap(next: seq<Rev>, a: seq<Rev>, b: seq<Rev>)
    requires next == a + [Ghost] + b && Ghost !in a
    ensures WithoutGhost(next) == a + b && Find(next, Ghost) == |a|
  {
    var g := Find(next, Ghost);
    assert next[|a|] == Ghost && forall i :: 0 <= i < |a| ==> next[i] == a[i];
    assert next[..g] == a && next[g + 1..] == b;
  }

  /** What `print` does: `news` are the parents without a line. */
  ghost predicate Stepped(row: seq<Rev>, rev: Rev, parents: set<Rev>, news: seq<Rev>, row': seq<Rev>, drawn: bool) {
    var cur := Opened(row, rev);
    NewsOf(cur, parents, news) && StepBy(cur, Find(cur, rev), parents, news, row', drawn)
  }

  ghost predicate StepBy(cur: seq<Rev>, c: nat, parents: set<Rev>, news: seq<Rev>, row': seq<Rev>, drawn: bool) {
    && c < |cur| && drawn == Room(cur, c, news, parents) && row' == Chosen(cur, c, news, parents)
    && (drawn ==> Closes(cur, c, news, parents, row'))
  }

  lemma SteppedBy(row: seq<Rev>, rev: Rev, parents: set<Rev>, news: seq<Rev>, row': seq<Rev>, drawn: bool)
    requires var cur := Opened(row, rev); var c := Find(cur, rev);
      && c < |cur| && NewsOf(cur, parents, news) && row' == Chosen(cur, c, news, parents)
      && Distinct(cur) && News(cur, news) && (Ghost in news ==> news[0] == Ghost) && rev != Ghost && rev !in parents
      && drawn == (news == [] || Drawable(cur, c, news, parents)) && (drawn ==> Closes(cur, c, news, parents, row'))
    ensures Stepped(row, rev, parents, news, row', drawn) && (|parents| <= 2 ==> drawn)
  {
    var cur := Opened(row, rev);
    if news != [] {
      RoomIsExact(cur, Find(cur, rev), news, parents);
      if |parents| <= 2 {
        TwoParentsHaveRoom(cur, Find(cur, rev), news, parents);
      }
    }
    assert drawn == Room(cur, Find(cur, rev), news, parents);
    assert StepBy(cur, Find(cur, rev), parents, news, row', drawn);
  }

  /** One `print`: the row before and after it, the revision, whether it was drawn, and the drawing. */
  datatype Chunk = Chunk(row: seq<Rev>, rev: Rev, parents: set<Rev>, news: seq<Rev>, after: seq<Rev>, drawn: bool, drawing: seq<Drawing>) {
    ghost predicate Good() {
      && Stepped(row, rev, parents, news, after, drawn) && |drawing| == (if drawn then 1 else 0)
      && (drawn ==> Shows(drawing[0], Opened(row, rev), after, Find(Opened(row, rev), rev), parents))
    }
  }

  lemma Grown(before: seq<Drawing>, after: seq<Drawing>)
    requires |before| <= |after| && after[..|before|] == before
    ensures after == before + after[|before|..]
  {
  }

  lemma GoodChunk(c: Chunk)
    requires Stepped(c.row, c.rev, c.parents, c.news, c.after, c.drawn) && |c.drawing| == if c.drawn then 1 else 0
    requires c.drawn ==> Shows(c.drawing[0], Opened(c.row, c.rev), c.after, Find(Opened(c.row, c.rev), c.rev), c.parents)
    ensures c.Good()
  {
  }

  function Drawings(chunks: seq<Chunk>): seq<Drawing> {
    if chunks == [] then [] else Drawings(chunks[..|chunks| - 1]) + chunks[|chunks| - 1].drawing
  }

  ghost predicate Fitted(chunk: Chunk, rev: (Rev, set<Rev>), drawn: bool, row': seq<Rev>) {
    chunk.rev == rev.0 && chunk.parents == rev.1 && chunk.drawn == drawn && chunk.after == row'
  }

  /** A chunk for every revision, each going on from the row the one before left. */
  ghost predicate Linked(revs: seq<(Rev, set<Rev>)>, drawn: seq<bool>, chunks: seq<Chunk>, row: seq<Rev>, row': seq<Rev>) {
    |drawn| == |chunks| == |revs| &&
    if chunks == [] then row' == row
    else
      var n := |chunks| - 1;
      Fitted(chunks[n], revs[n], drawn[n], row') && Linked(revs[..n], drawn[..n], chunks[..n], row, chunks[n].row)
  }

  /** A run from one row to another. */
  ghost predicate GraphRun(revs: seq<(Rev, set<Rev>)>, drawn: seq<bool>, chunks: seq<Chunk>, row: seq<Rev>, row': seq<Rev>) {
    Linked(revs, drawn, chunks, row, row') && forall i :: 0 <= i < |chunks| ==> chunks[i].Good()
  }

  lemma RunOn(revs: seq<(Rev, set<Rev>)>, n: nat, drawn: seq<bool>, chunks: seq<Chunk>, row: seq<Rev>, last: Chunk)
    requires n < |revs| && Linked(revs[..n], drawn, chunks, row, last.row) && Fitted(last, revs[n], last.drawn, last.after)
    ensures Linked(revs[..n + 1], drawn + [last.drawn], chunks + [last], row, last.after)
  {
    assert revs[..n + 1][..n] == revs[..n] && (drawn + [last.drawn])[..n] == drawn && (chunks + [last])[..n] == chunks;
  }

  lemma OutputOn(before: seq<Drawing>, chunks: seq<Chunk>, last: Chunk, output: seq<Drawing>)
    requires output == before + Drawings(chunks)
    ensures output + last.drawing == before + Drawings(chunks + [last])
  {
    assert (chunks + [last])[..|chunks|] == chunks;
    assert before + (Drawings(chunks) + last.drawing) == (before + Drawings(chunks)) + last.drawing;
  }

  /** A run, with its drawings and the lines open after it. */
  ghost predicate RunSoFar(revs: seq<(Rev, set<Rev>)>, drawn: seq<bool>, chunks: seq<Chunk>, row: seq<Rev>, row': seq<Rev>,
                           output: seq<Drawing>, output': seq<Drawing>) {
    && Linked(revs, drawn, chunks, row, row')
    && output' == output + Drawings(chunks) && |output'| == |output| + Drawn(drawn)
    && Lines(row') == OpenLines(Lines(row), revs, drawn)
  }

  lemma RunStep(revs: seq<(Rev, set<Rev>)>, n: nat, drawn: seq<bool>, chunks: seq<Chunk>, row: seq<Rev>,
                output: seq<Drawing>, output': seq<Drawing>, last: Chunk)
    requires n < |revs| && RunSoFar(revs[..n], drawn, chunks, row, last.row, output, output')
    requires Fitted(last, revs[n], last.drawn, last.after) && |last.drawing| == if last.drawn then 1 else 0
    requires Lines(last.after) == if last.drawn then Lines(last.row) - {revs[n].0} + (revs[n].1 - {Ghost}) else Lines(last.row) + {revs[n].0}
    ensures RunSoFar(revs[..n + 1], drawn + [last.drawn], chunks + [last], row, last.after, output, output' + last.drawing)
  {
    OutputOn(output, chunks, last, output');
    RunOn(revs, n, drawn, chunks, row, last);
    LinesOn(Lines(row), revs, n, drawn, last.drawn);
  }

  lemma LinesOn(start: set<Rev>, revs: seq<(Rev, set<Rev>)>, n: nat, drawn: seq<bool>, d: bool)
    requires n < |revs| && |drawn| == n
    ensures var before := OpenLines(start, revs[..n], drawn);
      OpenLines(start, revs[..n + 1], drawn + [d]) == if d then before - {revs[n].0} + (revs[n].1 - {Ghost}) else before + {revs[n].0}
    ensures Drawn(drawn + [d]) == Drawn(drawn) + if d then 1 else 0
  {
    assert revs[..n + 1][..n] == revs[..n] && (drawn + [d])[..n] == drawn;
  }

  function Drawn(drawn: seq<bool>): nat {
    if drawn == [] then 0 else Drawn(drawn[..|drawn| - 1]) + if drawn[|drawn| - 1] then 1 else 0
  }

  ghost predicate Usable(cur: seq<Rev>, loc: nat, parents: set<Rev>, next: seq<Rev>) {
    Candidate(cur, loc, parents, next) && forall p :: p in parents && p != Ghost ==> p in next
  }

  method Candidates(cur: seq<Rev>, loc: nat, news: seq<Rev>, ghost parents: set<Rev>)
      returns (next: seq<Rev>, noGhost: seq<Rev>, extra: seq<Rev>)
    requires Distinct(cur) && loc < |cur| && cur[loc] != Ghost && cur[loc] !in parents
    requires News(cur, news) && forall x :: x in news <==> x in parents && x !in cur
    ensures next == Replaced(cur, loc, news) && Usable(cur, loc, parents, next)
    ensures noGhost == WithoutGhost(next) && Usable(cur, loc, parents, noGhost)
    ensures news == [] ==> extra == Replaced(cur, loc, [Ghost]) && Usable(cur, loc, parents, extra)
  {
    next := Replaced(cur, loc, news);
    forall i | 0 <= i < |news| ensures news[i] in parents {
      assert news[i] in news;
    }
    ReplacedCandidate(cur, loc, news, parents);
    CandidateParents(cur, loc, parents, next);
    noGhost := next;
    var g := Find(next, Ghost);
    if g != |next| {
      noGhost := RemoveAt(next, g);
      RemovedCandidate(cur, loc, parents, next, g);
      CandidateParents(cur, loc, parents, noGhost);
    }
    extra := next[..loc] + [Ghost] + next[loc..];
    if news == [] {
      assert extra == Replaced(cur, loc, [Ghost]);
      ReplacedCandidate(cur, loc, [Ghost], parents);
      CandidateParents(cur, loc, parents, extra);
    }
  }

  function Opened(row: seq<Rev>, rev: Rev): seq<Rev> {
    if rev in row then row else row + [rev]
  }

  /** The lines open after a run: a revision drawn closes its own and opens those of its parents, one
      that is not leaves its line open. */
  function OpenLines(start: set<Rev>, revs: seq<(Rev, set<Rev>)>, drawn: seq<bool>): set<Rev>
    requires |drawn| == |revs|
  {
    if revs == [] then start
    else
      var n := |revs| - 1;
      var before := OpenLines(start, revs[..n], drawn[..n]);
      if drawn[n] then before - {revs[n].0} + (revs[n].1 - {Ghost}) else before + {revs[n].0}
  }

  /** The parents that are not in the row yet, in order. */
  ghost predicate NewsOf(row: seq<Rev>, parents: set<Rev>, news: seq<Rev>) {
    Ascending(news, NatLess) && forall x :: x in news <==> x in parents && x !in row
  }

  method NewParents(row: seq<Rev>, parents: set<Rev>) returns (news: seq<Rev>)
    ensures News(row, news) && NewsOf(row, parents, news) && (Ghost in news ==> news[0] == Ghost)
  {
    var missing := set p | p in parents && p !in row;
    news := InOrder(missing, NatLess);
    forall i | 0 <= i < |news| ensures news[i] !in row {
      assert news[i] in news;
    }
  }

  lemma CandidateParents(cur: seq<Rev>, c: nat, parents: set<Rev>, next: seq<Rev>)
    requires Candidate(cur, c, parents, next)
    ensures forall p :: p in parents && p != Ghost ==> p in next
  {
    forall p | p in parents && p != Ghost ensures p in next {
      assert p in Lines(next);
    }
  }

  // ---------- a revision that is not drawn ----------

  lemma NoRoomForThree()
    ensures !Room([5, 6], 0, [7, 8, 9], {7, 8, 9})
  {
    assert [5, 6][1] == 6;
    assert LineBetween([5, 6], 0, 2);
    assert Find([5, 6], Ghost) == 2;
  }

  lemma OnlyOrder(news: seq<Rev>)
    requires NewsOf([5, 6], {7, 8, 9}, news)
    ensures news == [7, 8, 9]
  {
    OneOrder(news, [7, 8, 9]);
  }

  /** Revision 5, beside the line of 6, with three new revisions to lead to, as a forward log passes
      the children of a fork: nothing is drawn, and the row stays as it was. */
  method ForkNotDrawn(graph: Asciik) returns (drawn: bool)
    requires graph.row == [5, 6]
    modifies graph
    ensures !drawn && graph.row == [5, 6] && graph.output == old(graph.output)
  {
    ghost var news;
    drawn, news := graph.Print(5, {7, 8, 9});
    NoRoomForThree();
    OnlyOrder(news);
  }
}
