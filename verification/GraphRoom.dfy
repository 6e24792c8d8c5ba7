/** When a revision can be drawn, told from the row, the new parents and the places of the others. */
module GraphRoom {
  import opened Ordered
  import opened GraphRows

  // ---------- where entries land ----------

  /** Column of the entry `i` after `k` entries took the place of the one in column `c`. */
  function Base(c: nat, k: nat, i: nat): int {
    if i < c then i else i + k - 1
  }

  /** The same after the entry `g` was taken out. */
  function Out(g: nat, b: int): int {
    if b > g then b - 1 else b
  }

  function Lands(c: nat, k: nat, g: nat, i: nat): int {
    Out(g, Base(c, k, i))
  }

  /** The row without its entry `g`, or as it is if it has none. */
  function Taken(row: seq<Rev>, g: nat): seq<Rev> {
    if g < |row| then RemoveAt(row, g) else row
  }

  /** A revision in column `c` of a row, and its new parents in order. */
  ghost predicate Setting(cur: seq<Rev>, c: nat, news: seq<Rev>) {
    Distinct(cur) && c < |cur| && cur[c] != Ghost && cur[c] !in news && News(cur, news)
  }

  ghost predicate Gap(cur: seq<Rev>, c: nat, news: seq<Rev>, g: nat)
    requires c < |cur|
  {
    g >= |Replaced(cur, c, news)| || Replaced(cur, c, news)[g] == Ghost
  }

  predicate Line(cur: seq<Rev>, c: nat, i: nat) {
    i < |cur| && i != c && cur[i] != Ghost
  }

  lemma BaseAt(cur: seq<Rev>, c: nat, news: seq<Rev>, i: nat)
    requires Setting(cur, c, news) && Line(cur, c, i)
    ensures Find(Replaced(cur, c, news), cur[i]) == Base(c, |news|, i) < |Replaced(cur, c, news)|
  {
    var next, b := Replaced(cur, c, news), Base(c, |news|, i);
    assert next[b] == cur[i];
    ReplacedPositions(cur, c, news, i, Find(next, cur[i]));
  }

  lemma TakenAt(next: seq<Rev>, g: nat, x: Rev)
    requires x != Ghost && x in next && (g >= |next| || next[g] == Ghost)
    ensures x in Taken(next, g) && Find(Taken(next, g), x) == Out(g, Find(next, x))
  {
    if g < |next| {
      RemovedPositions(next, g, x);
    }
  }

  lemma KeptLands(cur: seq<Rev>, c: nat, news: seq<Rev>, g: nat, i: nat, j: nat)
    requires Setting(cur, c, news) && Gap(cur, c, news, g)
    ensures Preserves(cur, Taken(Replaced(cur, c, news), g), i, j) <==> Line(cur, c, i) && j == Lands(c, |news|, g, i)
  {
    var next := Replaced(cur, c, news);
    if Line(cur, c, i) {
      BaseAt(cur, c, news, i);
      TakenAt(next, g, cur[i]);
    } else if i == c {
      GoneAt(cur, c, news, g);
    }
  }

  lemma GoneAt(cur: seq<Rev>, c: nat, news: seq<Rev>, g: nat)
    requires Setting(cur, c, news) && Gap(cur, c, news, g)
    ensures cur[c] !in Taken(Replaced(cur, c, news), g)
  {
    var next := Replaced(cur, c, news);
    assert cur[c] !in next by {
      assert forall i :: 0 <= i < c ==> cur[i] != cur[c];
      assert forall i :: c < i < |cur| ==> cur[c] != cur[i];
    }
  }

  /** A parent lands in column `j`. */
  ghost predicate LandsAt(cur: seq<Rev>, c: nat, news: seq<Rev>, parents: set<Rev>, g: nat, p: Rev, j: int) {
    && p in parents && p != Ghost
    && if p in cur then j == Lands(c, |news|, g, Find(cur, p)) else p in news && j == Out(g, c + Find(news, p))
  }

  lemma NewAt(cur: seq<Rev>, c: nat, news: seq<Rev>, p: Rev)
    requires Setting(cur, c, news) && p in news
    ensures p in Replaced(cur, c, news) && Find(Replaced(cur, c, news), p) == c + Find(news, p)
  {
    var next, t := Replaced(cur, c, news), Find(news, p);
    assert next[c + t] == p;
    forall i | 0 <= i < c + t ensures next[i] != p {
      if i >= c {
        assert next[i] == news[i - c];
      } else {
        assert next[i] == cur[i] && news[t] !in cur;
      }
    }
  }

  lemma ParentLands(cur: seq<Rev>, c: nat, news: seq<Rev>, parents: set<Rev>, g: nat, j: nat)
    requires Setting(cur, c, news) && Gap(cur, c, news, g) && cur[c] !in parents
    requires forall p :: p in parents && p != Ghost ==> p in cur || p in news
    ensures Descends(Taken(Replaced(cur, c, news), g), c, parents, c, j) <==> exists p :: LandsAt(cur, c, news, parents, g, p, j)
  {
    var next := Replaced(cur, c, news);
    var row := Taken(next, g);
    if Descends(row, c, parents, c, j) {
      ParentFound(cur, c, news, parents, g, row[j]);
      assert LandsAt(cur, c, news, parents, g, row[j], j);
    }
    if p :| LandsAt(cur, c, news, parents, g, p, j) {
      ParentFound(cur, c, news, parents, g, p);
    }
  }

  lemma ParentFound(cur: seq<Rev>, c: nat, news: seq<Rev>, parents: set<Rev>, g: nat, p: Rev)
    requires Setting(cur, c, news) && Gap(cur, c, news, g) && cur[c] !in parents && p in parents && p != Ghost
    requires p in cur || p in news
    ensures var row := Taken(Replaced(cur, c, news), g); p in row && LandsAt(cur, c, news, parents, g, p, Find(row, p))
  {
    if p in cur {
      BaseAt(cur, c, news, Find(cur, p));
    } else {
      NewAt(cur, c, news, p);
    }
    TakenAt(Replaced(cur, c, news), g, p);
  }

  // ---------- fitting, in terms of columns ----------

  function Low(l: Link): nat {
    if l.0 < l.1 then l.0 else l.1
  }

  function High(l: Link): nat {
    if l.0 < l.1 then l.1 else l.0
  }

  /** Two slanted links share a column, so they pass a common half-column. */
  predicate Overlap(a: Link, b: Link) {
    Low(a) < High(b) && Low(b) < High(a) && Low(a) < High(a) && Low(b) < High(b)
  }

  lemma OverlapMeans(a: Link, b: Link)
    ensures Overlap(a, b) <==> exists x: nat {:trigger Passes(a, x), Passes(b, x)} :: Passes(a, x) && Passes(b, x)
  {
    if Overlap(a, b) {
      var x := 2 * (if Low(a) < Low(b) then Low(b) else Low(a)) + 1;
      assert Passes(a, x) && Passes(b, x);
    }
  }

  /** Everything about a layout, in columns. */
  ghost predicate Steady(cur: seq<Rev>, c: nat, k: nat, g: nat) {
    forall i: nat {:trigger Line(cur, c, i)} :: Line(cur, c, i) ==> i - 1 <= Lands(c, k, g, i) <= i + 1
  }

  ghost predicate Moving(cur: seq<Rev>, c: nat, k: nat, g: nat) {
    exists i: nat {:trigger Line(cur, c, i)} :: Line(cur, c, i) && Lands(c, k, g, i) != i
  }

  ghost predicate Near(cur: seq<Rev>, c: nat, news: seq<Rev>, parents: set<Rev>, g: nat) {
    forall p, j {:trigger LandsAt(cur, c, news, parents, g, p, j)} :: LandsAt(cur, c, news, parents, g, p, j) ==> c - 1 <= j <= c + 1
  }

  ghost predicate Apart(cur: seq<Rev>, c: nat, news: seq<Rev>, parents: set<Rev>, g: nat) {
    forall i: nat, p, j {:trigger Line(cur, c, i), LandsAt(cur, c, news, parents, g, p, j)} ::
      Line(cur, c, i) && LandsAt(cur, c, news, parents, g, p, j) && j >= 0 && Lands(c, |news|, g, i) >= 0 ==>
        !Overlap((i, Lands(c, |news|, g, i)), (c, j))
  }

  ghost predicate Columns(cur: seq<Rev>, c: nat, news: seq<Rev>, parents: set<Rev>, g: nat) {
    && Steady(cur, c, |news|, g) && Apart(cur, c, news, parents, g)
    && (Moving(cur, c, |news|, g) ==> Near(cur, c, news, parents, g))
  }

  /** A layout fits exactly when it does in columns. */
  lemma FitsMeans(cur: seq<Rev>, c: nat, news: seq<Rev>, parents: set<Rev>, g: nat)
    requires Setting(cur, c, news) && Gap(cur, c, news, g) && cur[c] !in parents
    requires forall p :: p in parents && p != Ghost ==> p in cur || p in news
    ensures Fits(cur, Taken(Replaced(cur, c, news), g), c, parents) <==> Columns(cur, c, news, parents, g)
  {
    var row := Taken(Replaced(cur, c, news), g);
    forall i: nat, j: nat ensures Preserves(cur, row, i, j) <==> Line(cur, c, i) && j == Lands(c, |news|, g, i) {
      KeptLands(cur, c, news, g, i, j);
    }
    forall j: nat ensures Descends(row, c, parents, c, j) <==> exists p :: LandsAt(cur, c, news, parents, g, p, j) {
      ParentLands(cur, c, news, parents, g, j);
    }
    ShiftsMean(cur, c, |news|, g, row);
    ParentsMean(cur, c, news, parents, g, row);
    CrossingMeans(cur, c, news, parents, g, row);
  }

  lemma ShiftsMean(cur: seq<Rev>, c: nat, k: nat, g: nat, row: seq<Rev>)
    requires forall i: nat, j: nat {:trigger Preserves(cur, row, i, j)} :: Preserves(cur, row, i, j) <==> Line(cur, c, i) && j == Lands(c, k, g, i)
    ensures FarShift(cur, row) <==> !Steady(cur, c, k, g)
    ensures Shifts(cur, row) <==> Moving(cur, c, k, g)
  {
    forall i: nat | Line(cur, c, i) ensures Lands(c, k, g, i) >= 0 && Preserves(cur, row, i, Lands(c, k, g, i)) {
      var j: nat := Lands(c, k, g, i);
      assert Preserves(cur, row, i, j) <==> Line(cur, c, i) && j == Lands(c, k, g, i);
    }
  }

  lemma ParentsMean(cur: seq<Rev>, c: nat, news: seq<Rev>, parents: set<Rev>, g: nat, row: seq<Rev>)
    requires forall j: nat {:trigger Descends(row, c, parents, c, j)} ::
      Descends(row, c, parents, c, j) <==> exists p :: LandsAt(cur, c, news, parents, g, p, j)
    ensures FarParent(row, c, parents) <==> !Near(cur, c, news, parents, g)
  {
    if FarParent(row, c, parents) {
      var i: nat, j: nat :| Descends(row, c, parents, i, j) && Distance(i, j) > 1;
      var p :| LandsAt(cur, c, news, parents, g, p, j);
    }
    if !Near(cur, c, news, parents, g) {
      var p, j :| LandsAt(cur, c, news, parents, g, p, j) && !(c - 1 <= j <= c + 1);
      var j': nat := j;
      assert Descends(row, c, parents, c, j');
    }
  }

  lemma CrossingMeans(cur: seq<Rev>, c: nat, news: seq<Rev>, parents: set<Rev>, g: nat, row: seq<Rev>)
    requires forall i: nat, j: nat {:trigger Preserves(cur, row, i, j)} ::
      Preserves(cur, row, i, j) <==> Line(cur, c, i) && j == Lands(c, |news|, g, i)
    requires forall j: nat {:trigger Descends(row, c, parents, c, j)} ::
      Descends(row, c, parents, c, j) <==> exists p :: LandsAt(cur, c, news, parents, g, p, j)
    ensures Crossing(cur, row, c, parents) <==> !Apart(cur, c, news, parents, g)
  {
    if Crossing(cur, row, c, parents) {
      var a: Link, b: Link, x: nat :|
        Preserves(cur, row, a.0, a.1) && Descends(row, c, parents, b.0, b.1) && Passes(a, x) && Passes(b, x);
      OverlapMeans(a, b);
      var p :| LandsAt(cur, c, news, parents, g, p, b.1);
      assert Line(cur, c, a.0);
    }
    if !Apart(cur, c, news, parents, g) {
      var i: nat, p, j :| Line(cur, c, i) && LandsAt(cur, c, news, parents, g, p, j) && j >= 0
        && Lands(c, |news|, g, i) >= 0 && Overlap((i, Lands(c, |news|, g, i)), (c, j));
      var a: Link, b: Link := (i, Lands(c, |news|, g, i)), (c, j);
      OverlapMeans(a, b);
      assert Preserves(cur, row, a.0, a.1) && Descends(row, c, parents, b.0, b.1);
    }
  }

  // ---------- the condition ----------

  /** Some line stands between two columns. */
  ghost predicate LineBetween(cur: seq<Rev>, a: int, b: int) {
    exists i: nat :: a < i < b && i < |cur| && cur[i] != Ghost
  }

  /** Every parent that has a line already has it in column `x`. */
  ghost predicate OldAt(cur: seq<Rev>, parents: set<Rev>, x: int) {
    forall p :: p in parents && p != Ghost && p in cur ==> Find(cur, p) == x
  }

  ghost predicate NoneOld(cur: seq<Rev>, parents: set<Rev>) {
    forall p :: p in parents && p != Ghost ==> p !in cur
  }

  /** When the revision in column `c` can be drawn. One new parent or none always can, and so can any
      number with no line on the right. Otherwise two new parents need a ghost that makes room without
      moving a line, or the other parents next to the revision, on the side that stays; and three need
      a ghost on the left and no other parent. The null revision among the new ones counts as a ghost. */
  ghost predicate Room(cur: seq<Rev>, c: nat, news: seq<Rev>, parents: set<Rev>) {
    var k, g := |news|, Find(cur, Ghost);
    k <= 1 || !LineBetween(cur, c, |cur|) ||
    if g < c then
      (k == 2 && (!LineBetween(cur, g, c) || OldAt(cur, parents, c - 1) || OldAt(cur, parents, c + 1)))
        || (k == 3 && NoneOld(cur, parents))
    else if Ghost in news then k == 2 || (k == 3 && OldAt(cur, parents, c - 1))
    else k == 2 && (!LineBetween(cur, c, g) || OldAt(cur, parents, c - 1))
  }

  ghost predicate Ready(cur: seq<Rev>, c: nat, news: seq<Rev>, parents: set<Rev>) {
    && Setting(cur, c, news) && cur[c] !in parents && news != [] && (Ghost in news ==> news[0] == Ghost)
    && (forall p :: p in news <==> p in parents && p !in cur)
  }

  /** The first ghost of the row with the new parents. */
  lemma GapWhere(cur: seq<Rev>, c: nat, news: seq<Rev>)
    requires Setting(cur, c, news) && (Ghost in news ==> news[0] == Ghost)
    ensures var g := Find(cur, Ghost);
      Find(Replaced(cur, c, news), Ghost) == if g < c then g else if Ghost in news then c else g + |news| - 1
    ensures Ghost in news ==> Find(cur, Ghost) == |cur|
  {
    var g := Find(cur, Ghost);
    assert Ghost in news ==> news[0] !in cur;
    if g < c || Ghost in news {
      var h := if g < c then g else c;
      forall i | 0 <= i < h ensures Replaced(cur, c, news)[i] != Ghost {
        NextAt(cur, c, news, i);
      }
      NextAt(cur, c, news, h);
    } else {
      GapRight(cur, c, news);
    }
  }

  lemma GapRight(cur: seq<Rev>, c: nat, news: seq<Rev>)
    requires c < |cur| && cur[c] != Ghost && Ghost !in news && Find(cur, Ghost) >= c
    ensures Find(Replaced(cur, c, news), Ghost) == Find(cur, Ghost) + |news| - 1
  {
    var next, h := Replaced(cur, c, news), Find(cur, Ghost) + |news| - 1;
    forall i | 0 <= i < h && i < |next| ensures next[i] != Ghost {
      NextAt(cur, c, news, i);
      assert c <= i < c + |news| ==> news[i - c] in news;
    }
    if h < |next| {
      NextAt(cur, c, news, h);
    } else {
      assert Ghost !in next;
    }
  }

  lemma NextAt(cur: seq<Rev>, c: nat, news: seq<Rev>, i: nat)
    requires c < |cur| && i < |Replaced(cur, c, news)|
    ensures Replaced(cur, c, news)[i] == if i < c then cur[i] else if i < c + |news| then news[i - c] else cur[i - |news| + 1]
  {
  }

  // ---------- when it suffices ----------

  /** Where nothing moves anything goes. */
  lemma StraightFits(cur: seq<Rev>, c: nat, news: seq<Rev>, parents: set<Rev>, g: nat)
    requires forall i: nat {:trigger Line(cur, c, i)} :: Line(cur, c, i) ==> Lands(c, |news|, g, i) == i
    ensures Columns(cur, c, news, parents, g)
  {
  }

  /** One line further left or right each, and every parent within a column, on the near side of them. */
  lemma NearFits(cur: seq<Rev>, c: nat, news: seq<Rev>, parents: set<Rev>, g: nat)
    requires forall i: nat {:trigger Line(cur, c, i)} :: Line(cur, c, i) && i < c ==> i - 1 <= Lands(c, |news|, g, i) <= i
    requires forall i: nat {:trigger Line(cur, c, i)} :: Line(cur, c, i) && i > c ==> i <= Lands(c, |news|, g, i) <= i + 1
    requires Near(cur, c, news, parents, g)
    ensures Columns(cur, c, news, parents, g)
  {
  }

  lemma OldNear(cur: seq<Rev>, c: nat, news: seq<Rev>, parents: set<Rev>, g: nat, x: int)
    requires Ready(cur, c, news, parents) && OldAt(cur, parents, x)
    requires x >= 0 ==> c - 1 <= Lands(c, |news|, g, x) <= c + 1
    requires forall t {:trigger news[t]} :: 0 <= t < |news| && news[t] != Ghost ==> c - 1 <= Out(g, c + t) <= c + 1
    ensures Near(cur, c, news, parents, g)
  {
  }

  lemma TwoSuffice(cur: seq<Rev>, c: nat, news: seq<Rev>, parents: set<Rev>)
    requires Ready(cur, c, news, parents) && |news| == 2 && OldAt(cur, parents, c - 1)
    ensures Columns(cur, c, news, parents, |Replaced(cur, c, news)|)
  {
    OldNear(cur, c, news, parents, |Replaced(cur, c, news)|, c - 1);
    NearFits(cur, c, news, parents, |Replaced(cur, c, news)|);
  }

  lemma LeftGhostSuffices(cur: seq<Rev>, c: nat, news: seq<Rev>, parents: set<Rev>)
    requires Ready(cur, c, news, parents) && Find(cur, Ghost) < c
    requires (|news| == 2 && (!LineBetween(cur, Find(cur, Ghost), c) || OldAt(cur, parents, c + 1)))
          || (|news| == 3 && NoneOld(cur, parents))
    ensures Columns(cur, c, news, parents, Find(cur, Ghost))
  {
    var g := Find(cur, Ghost);
    assert cur[g] == Ghost;
    if |news| == 2 && !LineBetween(cur, g, c) {
      StraightFits(cur, c, news, parents, g);
    } else if |news| == 2 {
      OldNear(cur, c, news, parents, g, c + 1);
      NearFits(cur, c, news, parents, g);
    } else {
      OldNear(cur, c, news, parents, g, -1);
      NearFits(cur, c, news, parents, g);
    }
  }

  lemma NullSuffices(cur: seq<Rev>, c: nat, news: seq<Rev>, parents: set<Rev>)
    requires Ready(cur, c, news, parents) && Ghost in news && (|news| == 2 || (|news| == 3 && OldAt(cur, parents, c - 1)))
    ensures Columns(cur, c, news, parents, c)
  {
    if |news| == 2 {
      StraightFits(cur, c, news, parents, c);
    } else {
      OldNear(cur, c, news, parents, c, c - 1);
      NearFits(cur, c, news, parents, c);
    }
  }

  lemma RightGhostSuffices(cur: seq<Rev>, c: nat, news: seq<Rev>, parents: set<Rev>)
    requires Ready(cur, c, news, parents) && |news| == 2 && Find(cur, Ghost) > c && !LineBetween(cur, c, Find(cur, Ghost))
    ensures Columns(cur, c, news, parents, Find(cur, Ghost) + 1)
  {
    var g := Find(cur, Ghost);
    forall i: nat | Line(cur, c, i) ensures Lands(c, 2, g + 1, i) == i {
      assert i != g;
    }
    StraightFits(cur, c, news, parents, g + 1);
  }

  // ---------- when it is needed ----------

  /** A line that moves and a parent out of reach. */
  lemma FarFails(cur: seq<Rev>, c: nat, news: seq<Rev>, parents: set<Rev>, g: nat, i: nat, p: Rev, j: int)
    requires Line(cur, c, i) && Lands(c, |news|, g, i) != i && LandsAt(cur, c, news, parents, g, p, j) && !(c - 1 <= j <= c + 1)
    ensures !Columns(cur, c, news, parents, g)
  {
  }

  lemma JumpFails(cur: seq<Rev>, c: nat, news: seq<Rev>, parents: set<Rev>, g: nat, i: nat)
    requires Line(cur, c, i) && !(i - 1 <= Lands(c, |news|, g, i) <= i + 1)
    ensures !Columns(cur, c, news, parents, g)
  {
  }

  lemma OldElsewhere(cur: seq<Rev>, parents: set<Rev>, x: int) returns (p: Rev, m: nat)
    requires !OldAt(cur, parents, x)
    ensures p in parents && p != Ghost && p in cur && m == Find(cur, p) && m != x && cur[m] == p
  {
    p :| p in parents && p != Ghost && p in cur && Find(cur, p) != x;
    m := Find(cur, p);
  }

  /** The row as it is. */
  lemma PlainFails(cur: seq<Rev>, c: nat, news: seq<Rev>, parents: set<Rev>, i: nat)
    requires Ready(cur, c, news, parents) && c < i && Line(cur, c, i) && |news| >= 2
    requires |news| == 2 ==> !OldAt(cur, parents, c - 1)
    ensures !Columns(cur, c, news, parents, |Replaced(cur, c, news)|)
  {
    var g := |Replaced(cur, c, news)|;
    if |news| >= 3 {
      JumpFails(cur, c, news, parents, g, i);
    } else {
      var p, m := OldElsewhere(cur, parents, c - 1);
      FarFails(cur, c, news, parents, g, i, p, Lands(c, 2, g, m));
    }
  }

  lemma LeftGhostFails(cur: seq<Rev>, c: nat, news: seq<Rev>, parents: set<Rev>, i: nat)
    requires Ready(cur, c, news, parents) && Find(cur, Ghost) < c < i && Line(cur, c, i) && |news| >= 2
    requires |news| == 2 ==> LineBetween(cur, Find(cur, Ghost), c) && !OldAt(cur, parents, c + 1)
    requires |news| == 3 ==> !NoneOld(cur, parents)
    ensures !Columns(cur, c, news, parents, Find(cur, Ghost))
  {
    var g := Find(cur, Ghost);
    if |news| >= 4 {
      JumpFails(cur, c, news, parents, g, i);
    } else if |news| == 3 {
      var p :| p in parents && p != Ghost && p in cur;
      LeftFar(cur, c, news, parents, i, p);
    } else {
      var i': nat :| g < i' < c && cur[i'] != Ghost;
      var p, m := OldElsewhere(cur, parents, c + 1);
      assert Line(cur, c, i');
      LeftFar(cur, c, news, parents, i', p);
    }
  }

  /** With a ghost on the left a parent that has a line is out of reach, but for one on the right. */
  lemma LeftFar(cur: seq<Rev>, c: nat, news: seq<Rev>, parents: set<Rev>, i: nat, p: Rev)
    requires Ready(cur, c, news, parents) && Find(cur, Ghost) < c && p in parents && p != Ghost && p in cur
    requires Line(cur, c, i) && Lands(c, |news|, Find(cur, Ghost), i) != i
    requires |news| == 3 || (|news| == 2 && Find(cur, p) != c + 1)
    ensures !Columns(cur, c, news, parents, Find(cur, Ghost))
  {
    var g, m := Find(cur, Ghost), Find(cur, p);
    assert cur[g] == Ghost && cur[m] == p && m != g && m != c;
    FarFails(cur, c, news, parents, g, i, p, Lands(c, |news|, g, m));
  }

  lemma NullFails(cur: seq<Rev>, c: nat, news: seq<Rev>, parents: set<Rev>, i: nat)
    requires Ready(cur, c, news, parents) && Ghost in news && c < i && Line(cur, c, i) && |news| >= 3
    requires |news| == 3 ==> !OldAt(cur, parents, c - 1)
    ensures !Columns(cur, c, news, parents, c)
  {
    if |news| >= 4 {
      JumpFails(cur, c, news, parents, c, i);
    } else {
      var p, m := OldElsewhere(cur, parents, c - 1);
      FarFails(cur, c, news, parents, c, i, p, Lands(c, 3, c, m));
    }
  }

  lemma RightGhostFails(cur: seq<Rev>, c: nat, news: seq<Rev>, parents: set<Rev>, i: nat)
    requires Ready(cur, c, news, parents) && Ghost !in news && Find(cur, Ghost) > c && c < i && Line(cur, c, i) && |news| >= 2
    requires |news| == 2 ==> LineBetween(cur, c, Find(cur, Ghost)) && !OldAt(cur, parents, c - 1)
    ensures !Columns(cur, c, news, parents, Find(cur, Ghost) + |news| - 1)
  {
    var g := Find(cur, Ghost) + |news| - 1;
    assert i != Find(cur, Ghost);
    if |news| >= 4 || (|news| == 3 && i < Find(cur, Ghost)) {
      JumpFails(cur, c, news, parents, g, i);
    } else if |news| == 3 {
      ThirdFails(cur, c, news, parents, i);
    } else {
      SecondFails(cur, c, news, parents);
    }
  }

  lemma SecondFails(cur: seq<Rev>, c: nat, news: seq<Rev>, parents: set<Rev>)
    requires Ready(cur, c, news, parents) && Find(cur, Ghost) > c && |news| == 2
    requires LineBetween(cur, c, Find(cur, Ghost)) && !OldAt(cur, parents, c - 1)
    ensures !Columns(cur, c, news, parents, Find(cur, Ghost) + 1)
  {
    var g := Find(cur, Ghost);
    var i: nat :| c < i < g && i < |cur| && cur[i] != Ghost;
    var p, m := OldElsewhere(cur, parents, c - 1);
    assert m != c && m != g;
    RightFar(c, g, i, m);
    SecondFar(cur, c, news, parents, g + 1, i, p);
  }

  lemma RightFar(c: nat, g: nat, i: nat, m: nat)
    requires c < i < g && m != c - 1 && m != c && m != g
    ensures Lands(c, 2, g + 1, i) != i && !(c - 1 <= Lands(c, 2, g + 1, m) <= c + 1)
  {
  }

  lemma SecondFar(cur: seq<Rev>, c: nat, news: seq<Rev>, parents: set<Rev>, g: nat, i: nat, p: Rev)
    requires Line(cur, c, i) && |news| == 2 && p in parents && p != Ghost && p in cur
    requires Lands(c, 2, g, i) != i && !(c - 1 <= Lands(c, 2, g, Find(cur, p)) <= c + 1)
    ensures !Columns(cur, c, news, parents, g)
  {
    FarFails(cur, c, news, parents, g, i, p, Lands(c, 2, g, Find(cur, p)));
  }

  lemma ThirdFails(cur: seq<Rev>, c: nat, news: seq<Rev>, parents: set<Rev>, i: nat)
    requires Ready(cur, c, news, parents) && Ghost !in news && |news| == 3 && c < Find(cur, Ghost) < i && Line(cur, c, i)
    ensures !Columns(cur, c, news, parents, Find(cur, Ghost) + 2)
  {
    assert news[2] in news;
    ThirdAt(news);
    FarFails(cur, c, news, parents, Find(cur, Ghost) + 2, i, news[2], c + 2);
  }

  lemma ThirdAt(news: seq<Rev>)
    requires |news| == 3 && forall i, j :: 0 <= i < j < |news| ==> news[i] != news[j]
    ensures Find(news, news[2]) == 2
  {
  }

  // ---------- the condition is exact ----------

  lemma TakenIsRow(next: seq<Rev>)
    ensures Taken(next, |next|) == next && Taken(next, Find(next, Ghost)) == WithoutGhost(next)
  {
  }

  lemma PlainMeans(cur: seq<Rev>, c: nat, news: seq<Rev>, parents: set<Rev>)
    requires Ready(cur, c, news, parents)
    ensures Fits(cur, Replaced(cur, c, news), c, parents) <==> Columns(cur, c, news, parents, |Replaced(cur, c, news)|)
  {
    TakenIsRow(Replaced(cur, c, news));
    FitsMeans(cur, c, news, parents, |Replaced(cur, c, news)|);
  }

  lemma ClosedMeans(cur: seq<Rev>, c: nat, news: seq<Rev>, parents: set<Rev>)
    requires Ready(cur, c, news, parents)
    ensures var next := Replaced(cur, c, news);
      Fits(cur, WithoutGhost(next), c, parents) <==> Columns(cur, c, news, parents, Find(next, Ghost))
  {
    TakenIsRow(Replaced(cur, c, news));
    FitsMeans(cur, c, news, parents, Find(Replaced(cur, c, news), Ghost));
  }

  ghost predicate Drawable(cur: seq<Rev>, c: nat, news: seq<Rev>, parents: set<Rev>)
    requires c < |cur|
  {
    Fits(cur, WithoutGhost(Replaced(cur, c, news)), c, parents) || Fits(cur, Replaced(cur, c, news), c, parents)
  }

  lemma RoomSuffices(cur: seq<Rev>, c: nat, news: seq<Rev>, parents: set<Rev>)
    requires Ready(cur, c, news, parents) && Room(cur, c, news, parents)
    ensures var next := Replaced(cur, c, news);
      Columns(cur, c, news, parents, |next|) || Columns(cur, c, news, parents, Find(next, Ghost))
  {
    if |news| == 1 || !LineBetween(cur, c, |cur|) {
      NothingMoves(cur, c, news, parents);
    } else if |news| == 2 && OldAt(cur, parents, c - 1) {
      TwoSuffice(cur, c, news, parents);
    } else {
      GapSuffices(cur, c, news, parents);
    }
  }

  lemma GapSuffices(cur: seq<Rev>, c: nat, news: seq<Rev>, parents: set<Rev>)
    requires Ready(cur, c, news, parents) && Room(cur, c, news, parents)
    requires |news| != 1 && LineBetween(cur, c, |cur|) && !(|news| == 2 && OldAt(cur, parents, c - 1))
    ensures Columns(cur, c, news, parents, Find(Replaced(cur, c, news), Ghost))
  {
    GapWhere(cur, c, news);
    var g := Find(cur, Ghost);
    assert g != c;
    if g < c {
      LeftGhostSuffices(cur, c, news, parents);
    } else if Ghost in news {
      NullSuffices(cur, c, news, parents);
    } else {
      RightGhostSuffices(cur, c, news, parents);
    }
  }

  lemma NothingMoves(cur: seq<Rev>, c: nat, news: seq<Rev>, parents: set<Rev>)
    requires Ready(cur, c, news, parents) && (|news| == 1 || !LineBetween(cur, c, |cur|))
    ensures Columns(cur, c, news, parents, |Replaced(cur, c, news)|)
  {
    var g := |Replaced(cur, c, news)|;
    forall i: nat | Line(cur, c, i) ensures Lands(c, |news|, g, i) == i {
      assert |news| == 1 || i < c;
    }
    StraightFits(cur, c, news, parents, g);
  }

  lemma RoomNeeded(cur: seq<Rev>, c: nat, news: seq<Rev>, parents: set<Rev>)
    requires Ready(cur, c, news, parents) && !Room(cur, c, news, parents)
    ensures var next := Replaced(cur, c, news);
      !Columns(cur, c, news, parents, |next|) && !Columns(cur, c, news, parents, Find(next, Ghost))
  {
    GapWhere(cur, c, news);
    var g := Find(cur, Ghost);
    var i: nat :| c < i < |cur| && cur[i] != Ghost;
    assert Line(cur, c, i) && g != c;
    PlainFails(cur, c, news, parents, i);
    if g < c {
      LeftGhostFails(cur, c, news, parents, i);
    } else if Ghost in news {
      NullFails(cur, c, news, parents, i);
    } else {
      RightGhostFails(cur, c, news, parents, i);
    }
  }

  /** With new parents some layout of the two tried is accepted if and only if there is room. */
  lemma RoomIsExact(cur: seq<Rev>, c: nat, news: seq<Rev>, parents: set<Rev>)
    requires Ready(cur, c, news, parents)
    ensures Drawable(cur, c, news, parents) <==> Room(cur, c, news, parents)
  {
    PlainMeans(cur, c, news, parents);
    ClosedMeans(cur, c, news, parents);
    if Room(cur, c, news, parents) {
      RoomSuffices(cur, c, news, parents);
    } else {
      RoomNeeded(cur, c, news, parents);
    }
  }

  /** With two parents or fewer there always is. */
  lemma TwoParentsHaveRoom(cur: seq<Rev>, c: nat, news: seq<Rev>, parents: set<Rev>)
    requires Ready(cur, c, news, parents) && |parents| <= 2
    ensures Room(cur, c, news, parents)
  {
    FewNews(news, parents);
    if |news| == 2 {
      TwoOfTwo(news, parents);
    }
  }

  lemma FewNews(news: seq<Rev>, parents: set<Rev>)
    requires (forall i, j :: 0 <= i < j < |news| ==> news[i] != news[j]) && (forall x :: x in news ==> x in parents)
    requires |parents| <= 2
    ensures |news| <= 2
  {
    if |news| > 2 {
      var s := {news[0], news[1], news[2]};
      assert s <= parents && |s| == 3;
      SubsetSize(s, parents);
    }
  }

  lemma TwoOfTwo(news: seq<Rev>, parents: set<Rev>)
    requires |news| == 2 && news[0] != news[1] && (forall x :: x in news ==> x in parents) && |parents| <= 2
    ensures forall p :: p in parents ==> p in news
  {
    forall p | p in parents ensures p in news {
      if p !in news {
        var s := {news[0], news[1], p};
        assert s <= parents && |s| == 3;
        SubsetSize(s, parents);
      }
    }
  }

  /** Four or more beside a line on the right never have any, and three only with a ghost. */
  lemma ManyHaveNone(cur: seq<Rev>, c: nat, news: seq<Rev>, parents: set<Rev>)
    requires Ready(cur, c, news, parents) && LineBetween(cur, c, |cur|)
    requires |news| >= 4 || (|news| == 3 && Ghost !in news && c <= Find(cur, Ghost))
    ensures !Drawable(cur, c, news, parents)
  {
    RoomIsExact(cur, c, news, parents);
  }
}
