/** Reading a chunk of the ASCII revision graph: the pen strokes that lead from a column of the line
    to a column of the next one. */
module GraphReading {
  import opened GraphRows
  import opened GraphDrawing

  /** In the line the pen gets from the column in cell `x` to cell `y`: it stays where it is, or goes from
      the revision along dashes and dots to a dot. */
  ghost predicate Along(line: string, x: int, y: int) {
    && 0 <= x < |line| && 0 <= y < |line|
    && (x == y ==> line[x] == '|' || line[x] == 'o')
    && (x != y ==> line[x] == 'o' && line[y] == '.')
    && forall z :: (x < z < y || y < z < x) ==> line[z] == '-' || line[z] == '.'
  }

  /** The stroke in cell `x` below the line leads from column `i` to column `j`: a bar straight down, a slash
      from the cell on its upper right to the one on its lower left, a backslash the other way. */
  ghost predicate Stroke(d: Drawing, x: int, i: int, j: int) {
    && 0 <= x < |d.interline|
    && (d.interline[x] == '|' || d.interline[x] == '/' || d.interline[x] == '\\')
    && (d.interline[x] == '|' ==> x == 2 * i == 2 * j)
    && (d.interline[x] == '/' ==> Along(d.line, 2 * i, x + 1) && 2 * j == x - 1)
    && (d.interline[x] == '\\' ==> Along(d.line, 2 * i, x - 1) && 2 * j == x + 1)
  }

  /** Some stroke leads from column `i` to column `j` of the next row. */
  ghost predicate Leads(d: Drawing, i: int, j: int) {
    exists x :: Stroke(d, x, i, j)
  }

  /** The links of a layout that fits: lines that go on, by one column at most, and links to parents, which
      are long only where nothing else is slanted. */
  ghost predicate Tidy(links: set<Link>, loc: nat) {
    && (forall l: Link :: l in links && Distance(l.0, l.1) > 1 ==> l.0 == loc)
    && (forall a: Link, b: Link :: a in links && b in links && Distance(a.0, a.1) > 1 && b.0 != b.1 ==> b.0 == loc)
  }

  function Ghosts(row: seq<Rev>): set<nat> {
    set i | 0 <= i < |row| && row[i] == Ghost
  }

  /** The drawing of links between two rows of the given lengths. */
  ghost predicate Chart(d: Drawing, links: set<Link>, items: nat, nextItems: nat, ghosts: set<nat>, loc: nat) {
    && |d.line| == |d.interline| && 2 * items <= |d.line| && 2 * nextItems <= |d.line| && loc < items
    && InRange(links, items, nextItems) && Tidy(links, loc)
    && LineOk(d.line, links, items, ghosts, loc) && Interline(d.interline, links)
    && (forall l: Link :: l in links && l.0 != loc ==> l.0 !in ghosts)
  }

  lemma FarOnly(links: set<Link>, loc: nat, x: nat)
    requires Tidy(links, loc) && (DotAt(links, x) || DashAt(links, x))
    ensures exists l: Link :: l in links && l.0 == loc && Distance(l.0, l.1) > 1
    ensures forall l: Link :: l in links && l.0 != l.1 ==> l.0 == loc
  {
    var l: Link :| l in links && Long(l);
    if l.1 < l.0 {
      assert l.0 > l.1 + 1;
    } else {
      assert l.1 > l.0 + 1;
    }
  }

  lemma OneCell(d: Drawing, links: set<Link>, items: nat, nextItems: nat, ghosts: set<nat>, loc: nat, x: nat)
    requires Chart(d, links, items, nextItems, ghosts, loc) && x < |d.line|
    ensures x == 2 * loc ==> d.line[x] == 'o'
    ensures x != 2 * loc ==> d.line[x] != 'o' && (d.line[x] == '.' <==> DotAt(links, x))
    ensures x != 2 * loc ==> (d.line[x] == '-' <==> !DotAt(links, x) && DashAt(links, x))
    ensures x != 2 * loc && d.line[x] == '|' ==> !DotAt(links, x) && !DashAt(links, x)
    ensures x % 2 == 0 && x / 2 < items && x / 2 !in ghosts && x != 2 * loc && !DotAt(links, x) && !DashAt(links, x) ==> d.line[x] == '|'
    ensures d.line[x] == '|' ==> x % 2 == 0 && x / 2 < items && x / 2 !in ghosts
    ensures d.line[x] == ' ' ==> !(x % 2 == 0 && x / 2 < items && x / 2 !in ghosts)
  {
    assert d.line[x] == d.line[x];
  }

  /** Where a link leaves the line. */
  function Leaves(l: Link): int {
    if l.1 < l.0 then 2 * l.1 + 2 else 2 * l.1 - 2
  }

  lemma LinkAlong(d: Drawing, links: set<Link>, items: nat, nextItems: nat, ghosts: set<nat>, loc: nat, l: Link)
    requires Chart(d, links, items, nextItems, ghosts, loc) && l in links && l.0 != l.1
    ensures Along(d.line, 2 * l.0, Leaves(l))
  {
    var x, y := 2 * l.0, Leaves(l);
    OneCell(d, links, items, nextItems, ghosts, loc, x);
    if x == y {
      if l.0 != loc {
        if DotAt(links, x) || DashAt(links, x) {
          FarOnly(links, loc, x);
        }
      }
    } else {
      assert Distance(l.0, l.1) > 1 && l.0 == loc;
      assert Long(l) && Dot(l) == y;
      OneCell(d, links, items, nextItems, ghosts, loc, y);
      forall z | x < z < y || y < z < x ensures d.line[z] == '-' || d.line[z] == '.' {
        assert Dashed(l, z);
        OneCell(d, links, items, nextItems, ghosts, loc, z);
      }
    }
  }

  /** Every link is a stroke. */
  lemma LinkLeads(d: Drawing, links: set<Link>, items: nat, nextItems: nat, ghosts: set<nat>, loc: nat, l: Link)
    requires Chart(d, links, items, nextItems, ghosts, loc) && l in links
    ensures Stroke(d, GlyphAt(l), l.0, l.1)
  {
    assert d.interline[GlyphAt(l)] == Glyph(l);
    if l.0 != l.1 {
      LinkAlong(d, links, items, nextItems, ghosts, loc, l);
    }
  }

  /** From two columns the pen does not get to the same cell. */
  lemma AlongOnce(d: Drawing, links: set<Link>, items: nat, nextItems: nat, ghosts: set<nat>, loc: nat, x: int, l: Link)
    requires Chart(d, links, items, nextItems, ghosts, loc) && l in links && l.0 != l.1 && Along(d.line, x, Leaves(l))
    ensures x == 2 * l.0
  {
    var y := Leaves(l);
    LinkAlong(d, links, items, nextItems, ghosts, loc, l);
    OneCell(d, links, items, nextItems, ghosts, loc, x);
    OneCell(d, links, items, nextItems, ghosts, loc, y);
    OneCell(d, links, items, nextItems, ghosts, loc, 2 * l.0);
  }

  /** Every stroke is a link. */
  lemma StrokeIsLink(d: Drawing, links: set<Link>, items: nat, nextItems: nat, ghosts: set<nat>, loc: nat, x: int, i: nat, j: nat)
    requires Chart(d, links, items, nextItems, ghosts, loc) && Stroke(d, x, i, j)
    ensures (i, j) in links
  {
    var l :| l in links && GlyphAt(l) == x;
    assert d.interline[x] == Glyph(l);
    if l.0 != l.1 {
      assert Leaves(l) == if l.1 < l.0 then x + 1 else x - 1;
      AlongOnce(d, links, items, nextItems, ghosts, loc, 2 * i, l);
    }
    assert l == (i, j);
  }

  lemma ChartLeads(d: Drawing, links: set<Link>, items: nat, nextItems: nat, ghosts: set<nat>, loc: nat, i: nat, j: nat)
    requires Chart(d, links, items, nextItems, ghosts, loc)
    ensures Leads(d, i, j) <==> (i, j) in links
  {
    if Leads(d, i, j) {
      var x :| Stroke(d, x, i, j);
      StrokeIsLink(d, links, items, nextItems, ghosts, loc, x, i, j);
    }
    if (i, j) in links {
      LinkLeads(d, links, items, nextItems, ghosts, loc, (i, j));
    }
  }

  /** The links of a layout that fits can be read back from its drawing. */
  ghost predicate Readable(d: Drawing, links: set<Link>, ghosts: set<nat>, loc: nat) {
    Tidy(links, loc) && (forall l: Link :: l in links && l.0 != loc ==> l.0 !in ghosts) ==>
      forall i: nat, j: nat :: Leads(d, i, j) <==> (i, j) in links
  }

  lemma ChartReadable(d: Drawing, links: set<Link>, items: nat, nextItems: nat, ghosts: set<nat>, loc: nat)
    requires |d.line| == |d.interline| && 2 * items <= |d.line| && 2 * nextItems <= |d.line| && loc < items
    requires InRange(links, items, nextItems) && LineOk(d.line, links, items, ghosts, loc) && Interline(d.interline, links)
    ensures Readable(d, links, ghosts, loc)
  {
    if Tidy(links, loc) && forall l: Link :: l in links && l.0 != loc ==> l.0 !in ghosts {
      forall i: nat, j: nat ensures Leads(d, i, j) <==> (i, j) in links {
        ChartLeads(d, links, items, nextItems, ghosts, loc, i, j);
      }
    }
  }

  /** `draw`: every index it uses is inside the three strings, and the links can be read back. */
  method Draw(width: nat, curItems: nat, nextItems: nat, loc: nat, links: set<Link>, ghosts: set<nat>) returns (d: Drawing)
    requires InRange(links, curItems, nextItems) && NoClash(links) && loc < curItems && forall g :: g in ghosts ==> g < curItems
    ensures |d.line| == |d.interline| == |d.stretch| == Max(width, 2 * Max(curItems, nextItems))
    ensures LineOk(d.line, links, curItems, ghosts, loc)
    ensures Readable(d, links, ghosts, loc)
    ensures Interline(d.interline, links) && Continuation(d.stretch, links)
  {
    var len := Max(width, 2 * Max(curItems, nextItems));
    var bars := Bars(len, curItems, ghosts);
    var line, interline, stretch := DrawLinks(bars, links, curItems, nextItems);
    line := DrawDots(line, links);
    line := line[loc * 2 := 'o'];
    d := Drawing(line, interline, stretch);
    ChartReadable(d, links, curItems, nextItems, ghosts, loc);
  }

  /** What the drawing shows: one revision, bars in the columns with a line unless something runs over
      them, and the strokes are exactly the lines that go on and the links
      to parents, nothing being drawn below the line beside them. Dashes and dots lead to a parent. In the
      stretched lines there are bars in the columns that are reached, and nothing else. */
  ghost predicate Shows(d: Drawing, cur: seq<Rev>, next: seq<Rev>, loc: nat, parents: set<Rev>) {
    && |d.line| == |d.interline| == |d.stretch|
    && (forall x :: 0 <= x < |d.line| ==> (d.line[x] == 'o' <==> x == 2 * loc))
    && (forall x {:trigger d.line[x]} :: 0 <= x < |d.line| && d.line[x] == '|' ==> LineAt(cur, x))
    && (forall x {:trigger d.line[x]} :: 0 <= x < |d.line| && LineAt(cur, x) ==> d.line[x] != ' ')
    && (forall i: nat, j: nat :: Leads(d, i, j) <==> Preserves(cur, next, i, j) || Descends(next, loc, parents, i, j))
    && (forall x {:trigger d.interline[x]} :: 0 <= x < |d.interline| && d.interline[x] != ' ' ==> exists i: nat, j: nat :: Stroke(d, x, i, j))
    && (forall x {:trigger d.line[x]} :: 0 <= x < |d.line| && d.line[x] in {'-', '.'} ==> exists j: nat :: Leads(d, loc, j) && Beside(x, loc, j))
    && (forall x {:trigger d.stretch[x]} :: 0 <= x < |d.stretch| ==> d.stretch[x] in {' ', '|'})
    && (forall x {:trigger d.stretch[x]} :: 0 <= x < |d.stretch| ==>
          (d.stretch[x] == '|' <==> exists i: nat, j: nat :: Leads(d, i, j) && x == 2 * j))
  }

  /** Cell `x` is a column with a line. */
  predicate LineAt(cur: seq<Rev>, x: int) {
    0 <= x && x % 2 == 0 && x / 2 < |cur| && cur[x / 2] != Ghost
  }

  /** Between the two columns. */
  predicate Beside(x: int, i: nat, j: nat) {
    2 * i < x < 2 * j || 2 * j < x < 2 * i
  }

  lemma ChartShows(d: Drawing, links: set<Link>, cur: seq<Rev>, loc: nat, next: seq<Rev>, parents: set<Rev>)
    requires Chart(d, links, |cur|, |next|, Ghosts(cur), loc) && |d.stretch| == |d.line| && Continuation(d.stretch, links)
    requires forall l: Link :: l in links <==> Preserves(cur, next, l.0, l.1) || Descends(next, loc, parents, l.0, l.1)
    ensures Shows(d, cur, next, loc, parents)
  {
    forall i: nat, j: nat ensures Leads(d, i, j) <==> (i, j) in links {
      ChartLeads(d, links, |cur|, |next|, Ghosts(cur), loc, i, j);
    }
    forall x {:trigger d.line[x]} | 0 <= x < |d.line|
      ensures (d.line[x] == 'o' <==> x == 2 * loc) && (d.line[x] == '|' ==> LineAt(cur, x)) && (LineAt(cur, x) ==> d.line[x] != ' ')
    {
      OneCell(d, links, |cur|, |next|, Ghosts(cur), loc, x);
    }
    forall x {:trigger d.interline[x]} | 0 <= x < |d.interline| && d.interline[x] != ' ' ensures exists i: nat, j: nat :: Stroke(d, x, i, j) {
      var l :| l in links && GlyphAt(l) == x;
      LinkLeads(d, links, |cur|, |next|, Ghosts(cur), loc, l);
    }
    forall x {:trigger d.line[x]} | 0 <= x < |d.line| && d.line[x] in {'-', '.'}
      ensures exists j: nat :: Leads(d, loc, j) && Beside(x, loc, j)
    {
      OneCell(d, links, |cur|, |next|, Ghosts(cur), loc, x);
      var l := FarLink(links, loc, x);
      assert Leads(d, l.0, l.1);
    }
    StretchShows(d, links);
  }

  lemma FarLink(links: set<Link>, loc: nat, x: nat) returns (l: Link)
    requires Tidy(links, loc) && (DotAt(links, x) || DashAt(links, x)) && x != 2 * loc
    ensures l in links && l.0 == loc && Beside(x, loc, l.1)
  {
    if DotAt(links, x) {
      l :| l in links && Long(l) && Dot(l) == x;
    } else {
      l :| l in links && Dashed(l, x);
    }
    FarOnly(links, loc, x);
  }

  lemma StretchShows(d: Drawing, links: set<Link>)
    requires Continuation(d.stretch, links) && forall i: nat, j: nat :: Leads(d, i, j) <==> (i, j) in links
    ensures forall x {:trigger d.stretch[x]} :: 0 <= x < |d.stretch| ==> d.stretch[x] in {' ', '|'}
    ensures forall x {:trigger d.stretch[x]} :: 0 <= x < |d.stretch| ==>
      (d.stretch[x] == '|' <==> exists i: nat, j: nat :: Leads(d, i, j) && x == 2 * j)
  {
    forall x {:trigger d.stretch[x]} | 0 <= x < |d.stretch|
      ensures d.stretch[x] in {' ', '|'} && (d.stretch[x] == '|' <==> exists i: nat, j: nat :: Leads(d, i, j) && x == 2 * j)
    {
      if d.stretch[x] != ' ' {
        var l: Link :| l in links && 2 * l.1 == x;
        assert Leads(d, l.0, l.1);
      }
      if i: nat, j: nat :| Leads(d, i, j) && x == 2 * j {
        assert (i, j) in links;
      }
    }
  }
}
