/** The rows of the ASCII revision graph, and when one can follow another. */
module GraphRows {
  import opened Ordered

  type Rev = nat

  /** The blank left by a line that has ended. */
  const Ghost: Rev := 0

  type Link = (nat, nat)

  predicate FirstAt(row: seq<Rev>, x: Rev, k: nat) {
    k < |row| && row[k] == x && x !in row[..k]
  }

  lemma {:induction false} FirstExists(row: seq<Rev>, x: Rev)
    requires x in row
    ensures exists k: nat :: FirstAt(row, x, k)
    decreases |row|
  {
    var n := |row| - 1;
    if x in row[..n] {
      FirstExists(row[..n], x);
      var k: nat :| FirstAt(row[..n], x, k);
      assert row[..n][..k] == row[..k];
      assert FirstAt(row, x, k);
    } else {
      assert FirstAt(row, x, n);
    }
  }

  /** Column of the first entry `x`, or the length of the row. */
  function Find(row: seq<Rev>, x: Rev): (k: nat)
    ensures k <= |row| && (k < |row| ==> row[k] == x) && (k == |row| <==> x !in row)
    ensures forall i :: 0 <= i < k ==> row[i] != x
  {
    if x !in row then |row|
    else
      FirstExists(row, x);
      var k: nat :| 0 <= k < |row| && FirstAt(row, x, k);
      k
  }

  function Distance(i: nat, j: nat): nat {
    if i > j then i - j else j - i
  }

  // ---------- when a next row can be drawn ----------

  /** A line that goes on from column `i` to column `j`. */
  ghost predicate Preserves(cur: seq<Rev>, next: seq<Rev>, i: nat, j: nat) {
    i < |cur| && cur[i] != Ghost && j == Find(next, cur[i]) && j < |next|
  }

  /** A line from the revision in column `c` to a parent in column `j`. */
  ghost predicate Descends(next: seq<Rev>, c: nat, parents: set<Rev>, i: nat, j: nat) {
    i == c && j < |next| && next[j] in parents && next[j] != Ghost && j == Find(next, next[j])
  }

  /** The half-columns a slanted link passes. */
  predicate Passes(l: Link, x: nat) {
    l.0 != l.1 && (if l.0 < l.1 then 2 * l.0 + 1 <= x < 2 * l.1 else 2 * l.1 + 1 <= x < 2 * l.0)
  }

  predicate Crosses(links: set<Link>, x: nat) {
    exists l :: l in links && Passes(l, x)
  }

  ghost predicate Shifts(cur: seq<Rev>, next: seq<Rev>) {
    exists i, j {:trigger Preserves(cur, next, i, j)} :: Preserves(cur, next, i, j) && i != j
  }

  ghost predicate FarShift(cur: seq<Rev>, next: seq<Rev>) {
    exists i, j {:trigger Preserves(cur, next, i, j)} :: Preserves(cur, next, i, j) && Distance(i, j) > 1
  }

  ghost predicate FarParent(next: seq<Rev>, c: nat, parents: set<Rev>) {
    exists i, j {:trigger Descends(next, c, parents, i, j)} :: Descends(next, c, parents, i, j) && Distance(i, j) > 1
  }

  /** A link to a parent and a line that goes on pass the same half-column. */
  ghost predicate Crossing(cur: seq<Rev>, next: seq<Rev>, c: nat, parents: set<Rev>) {
    exists a: Link, b: Link, x: nat {:trigger Passes(a, x), Passes(b, x)} ::
      Preserves(cur, next, a.0, a.1) && Descends(next, c, parents, b.0, b.1) && Passes(a, x) && Passes(b, x)
  }

  /** Lines that go on move by one column at most, long links need everything else straight, and
      no link to a parent crosses a line that goes on. */
  ghost predicate Fits(cur: seq<Rev>, next: seq<Rev>, c: nat, parents: set<Rev>) {
    !FarShift(cur, next) && !(Shifts(cur, next) && FarParent(next, c, parents)) && !Crossing(cur, next, c, parents)
  }

  // ---------- rows ----------

  ghost predicate Distinct(row: seq<Rev>) {
    forall i, j :: 0 <= i < j < |row| && row[i] != Ghost ==> row[i] != row[j]
  }

  function Lines(row: seq<Rev>): set<Rev> {
    set x | x in row && x != Ghost
  }

  /** Lines that go on keep their order. */
  ghost predicate OrderKept(cur: seq<Rev>, next: seq<Rev>) {
    forall i, j, k, l {:trigger Preserves(cur, next, i, j), Preserves(cur, next, k, l)} ::
      Preserves(cur, next, i, j) && Preserves(cur, next, k, l) && i < k ==> j < l
  }

  /** The row without the revision in column `c`, its new parents in its place. */
  function Replaced(cur: seq<Rev>, c: nat, news: seq<Rev>): seq<Rev>
    requires c < |cur|
  {
    cur[..c] + news + cur[c + 1..]
  }

  ghost predicate News(cur: seq<Rev>, news: seq<Rev>) {
    && (forall i :: 0 <= i < |news| ==> news[i] !in cur)
    && (forall i, j :: 0 <= i < j < |news| ==> news[i] != news[j])
  }

  /** Where the lines of a row go when one entry is replaced. */
  lemma ReplacedPositions(cur: seq<Rev>, c: nat, news: seq<Rev>, i: nat, j: nat)
    requires Distinct(cur) && c < |cur| && cur[c] != Ghost && cur[c] !in news && Preserves(cur, Replaced(cur, c, news), i, j)
    requires forall k :: 0 <= k < |news| ==> news[k] == Ghost || news[k] !in cur
    ensures i != c && j == if i < c then i else i + |news| - 1
  {
    var next := Replaced(cur, c, news);
    assert next[j] == cur[i];
    if i < c {
      assert next[i] == cur[i];
    } else if i > c {
      assert next[i + |news| - 1] == cur[i];
    }
  }

  // ---------- layouts that are accepted ----------

  lemma FitsOne(cur: seq<Rev>, c: nat, x: Rev, parents: set<Rev>)
    requires Distinct(cur) && c < |cur| && cur[c] != Ghost && cur[c] != x && (x == Ghost || x !in cur)
    ensures Fits(cur, Replaced(cur, c, [x]), c, parents)
  {
    var next := Replaced(cur, c, [x]);
    forall i: nat, j: nat | Preserves(cur, next, i, j) ensures i == j {
      ReplacedPositions(cur, c, [x], i, j);
    }
  }

  /** The last line can end without leaving a gap. */
  lemma FitsLast(cur: seq<Rev>, c: nat, parents: set<Rev>)
    requires Distinct(cur) && c == |cur| - 1 && cur[c] != Ghost
    ensures Fits(cur, Replaced(cur, c, []), c, parents)
  {
    var next := Replaced(cur, c, []);
    forall i: nat, j: nat | Preserves(cur, next, i, j) ensures i == j {
      ReplacedPositions(cur, c, [], i, j);
    }
  }

  // ---------- what every candidate row keeps ----------

  ghost predicate Candidate(cur: seq<Rev>, c: nat, parents: set<Rev>, next: seq<Rev>) {
    && Distinct(next) && OrderKept(cur, next)
    && c < |cur| && Lines(next) == Lines(cur) - {cur[c]} + (parents - {Ghost})
  }

  lemma ReplacedCandidate(cur: seq<Rev>, c: nat, news: seq<Rev>, parents: set<Rev>)
    requires Distinct(cur) && c < |cur| && cur[c] != Ghost && cur[c] !in parents && cur[c] !in news
    requires forall i, j :: 0 <= i < j < |news| ==> news[i] != news[j]
    requires forall i :: 0 <= i < |news| ==> news[i] == Ghost || (news[i] !in cur && news[i] in parents)
    requires forall p :: p in parents && p != Ghost ==> p in cur || p in news
    ensures Candidate(cur, c, parents, Replaced(cur, c, news))
  {
    var next := Replaced(cur, c, news);
    forall i: nat, j: nat, k: nat, l: nat | Preserves(cur, next, i, j) && Preserves(cur, next, k, l) && i < k ensures j < l {
      ReplacedPositions(cur, c, news, i, j);
      ReplacedPositions(cur, c, news, k, l);
    }
    ReplacedDistinct(cur, c, news);
    ReplacedLines(cur, c, news, parents);
  }

  lemma ReplacedDistinct(cur: seq<Rev>, c: nat, news: seq<Rev>)
    requires Distinct(cur) && c < |cur|
    requires forall i, j :: 0 <= i < j < |news| ==> news[i] != news[j]
    requires forall i :: 0 <= i < |news| ==> news[i] == Ghost || news[i] !in cur
    ensures Distinct(Replaced(cur, c, news))
  {
    var next := Replaced(cur, c, news);
    forall i, j | 0 <= i < j < |next| && next[i] != Ghost ensures next[i] != next[j] {
      var m := |news|;
      assert i < c ==> next[i] == cur[i];
      assert c <= i < c + m ==> next[i] == news[i - c];
      assert c + m <= i ==> next[i] == cur[i - m + 1];
      assert j < c ==> next[j] == cur[j];
      assert c <= j < c + m ==> next[j] == news[j - c];
      assert c + m <= j ==> next[j] == cur[j - m + 1];
    }
  }

  lemma ReplacedLines(cur: seq<Rev>, c: nat, news: seq<Rev>, parents: set<Rev>)
    requires Distinct(cur) && c < |cur| && cur[c] != Ghost && cur[c] !in parents && cur[c] !in news
    requires forall i :: 0 <= i < |news| ==> news[i] == Ghost || news[i] in parents
    requires forall p :: p in parents && p != Ghost ==> p in cur || p in news
    ensures Lines(Replaced(cur, c, news)) == Lines(cur) - {cur[c]} + (parents - {Ghost})
  {
    var next := Replaced(cur, c, news);
    forall x | x != Ghost ensures x in next <==> (x in cur && x != cur[c]) || x in parents {
      if x in cur && x != cur[c] {
        var i := Find(cur, x);
        assert next[if i < c then i else i + |news| - 1] == x;
      } else if x in news {
        var i := Find(news, x);
        assert next[c + i] == x;
      }
      if x in next {
        var j := Find(next, x);
        assert j < c ==> x == cur[j];
        assert c <= j < c + |news| ==> x == news[j - c];
        assert c + |news| <= j ==> x == cur[j - |news| + 1];
      }
    }
  }

  function RemoveAt(row: seq<Rev>, g: nat): seq<Rev>
    requires g < |row|
  {
    row[..g] + row[g + 1..]
  }

  /** The row without its first ghost, if it has one. */
  function WithoutGhost(row: seq<Rev>): seq<Rev> {
    var g := Find(row, Ghost);
    if g == |row| then row else RemoveAt(row, g)
  }

  /** Closing the gap of a ghost moves what is right of it. */
  lemma RemovedPositions(row: seq<Rev>, g: nat, x: Rev)
    requires g < |row| && row[g] == Ghost && x != Ghost
    ensures x in RemoveAt(row, g) <==> x in row
    ensures x in row ==> Find(RemoveAt(row, g), x) == if Find(row, x) > g then Find(row, x) - 1 else Find(row, x)
  {
    var row' := RemoveAt(row, g);
    assert forall i :: 0 <= i < g ==> row'[i] == row[i];
    assert forall i :: g < i < |row| ==> row'[i - 1] == row[i];
    if x in row {
      var k := Find(row, x);
      assert row'[if k > g then k - 1 else k] == x;
    }
  }

  lemma RemovedCandidate(cur: seq<Rev>, c: nat, parents: set<Rev>, next: seq<Rev>, g: nat)
    requires Candidate(cur, c, parents, next) && g < |next| && next[g] == Ghost
    ensures Candidate(cur, c, parents, RemoveAt(next, g))
  {
    var next' := RemoveAt(next, g);
    forall x | x != Ghost ensures x in next' <==> x in next {
      RemovedPositions(next, g, x);
    }
    assert forall i :: 0 <= i < g ==> next'[i] == next[i];
    assert forall i :: g <= i < |next'| ==> next'[i] == next[i + 1];
    forall i: nat, j: nat, k: nat, l: nat | Preserves(cur, next', i, j) && Preserves(cur, next', k, l) && i < k ensures j < l {
      RemovedPositions(next, g, cur[i]);
      RemovedPositions(next, g, cur[k]);
      assert Preserves(cur, next, i, Find(next, cur[i])) && Preserves(cur, next, k, Find(next, cur[k]));
    }
  }
}
