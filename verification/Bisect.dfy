/** Bisection: marking revisions and selecting the next one to test. */
module Bisect {
  import opened RevisionGraph
  import opened Closure
  import Ordered

  datatype Mark = Start | Good | Bad | Skipped
  datatype Entry = Entry(mark: Mark, id: Id)

  // ---------- marking ----------

  ghost function Marked(info: seq<Entry>, m: Mark): set<Id> {
    set e | e in info && e.mark == m :: e.id
  }

  /** No revision carries two marks, nor the same mark twice. */
  ghost predicate Consistent(info: seq<Entry>) {
    forall i, j :: 0 <= i < j < |info| && info[i].mark != Start && info[j].mark != Start ==> info[i].id != info[j].id
  }

  ghost predicate Conflicts(info: seq<Entry>, m: Mark, ids: set<Id>) {
    exists e :: e in info && e.mark != Start && e.mark != m && e.id in ids
  }

  datatype MarkResult = Conflict | Marks(info: seq<Entry>)

  /** The marking half of `bisect_update`: redundant marks are dropped, conflicting ones
      rejected as a whole, and the rest appended in ascending order of their ids. */
  method AddMarks(info0: seq<Entry>, current: Id, m: Mark, ids: set<Id>) returns (r: MarkResult)
    requires m != Start && Consistent(info0)
    ensures r == Conflict <==> Conflicts(info0, m, ids)
    ensures r.Marks? ==> Consistent(r.info)
    ensures r.Marks? ==> Marked(r.info, m) == Marked(info0, m) + ids
    ensures r.Marks? ==> forall k :: k != Start && k != m ==> Marked(r.info, k) == Marked(info0, k)
    ensures r.Marks? ==> Marked(r.info, Start) == if info0 == [] then {current} else Marked(info0, Start)
    ensures r.Marks? && info0 != [] ==> exists q :: r.info == info0 + Entries(m, q) && Ascending(q, ids - Marked(info0, m))
  {
    var info := if info0 == [] then [Entry(Start, current)] else info0;
    var ok, marked := Unmarked(info, m, ids);
    if !ok {
      return Conflict;
    }
    ghost var q;
    assert marked == ids - Marked(info0, m) by {
      forall x ensures x in Marked(info0, m) <==> Entry(m, x) in info {
      }
    }
    ghost var base := info;
    info, q := Append(info, m, marked);
    AppendKeeps(base, m, q, marked);
    assert info0 == [] ==> Marked(base, Start) == {current} && Marked(info0, Start) == {};
    r := Marks(info);
  }

  /** First loop: drop the ids already marked the same way, stop at one marked otherwise. */
  method Unmarked(info: seq<Entry>, m: Mark, ids: set<Id>) returns (ok: bool, marked: set<Id>)
    requires m != Start && Consistent(info)
    ensures ok <==> !Conflicts(info, m, ids)
    ensures ok ==> forall x :: x in marked <==> x in ids && Entry(m, x) !in info
  {
    marked := ids;
    for i := 0 to |info|
      invariant forall k :: 0 <= k < i && info[k].mark != Start && info[k].id in ids ==> info[k].mark == m
      invariant forall x :: x in marked <==> x in ids && Entry(m, x) !in info[..i]
    {
      assert info[..i + 1] == info[..i] + [info[i]];
      if info[i].mark != Start && info[i].id in marked {
        if info[i].mark == m {
          marked := marked - {info[i].id};
        } else {
          return false, marked;
        }
      }
    }
    assert info[..|info|] == info;
    ok := true;
  }

  function Entries(m: Mark, q: seq<Id>): seq<Entry> {
    seq(|q|, i requires 0 <= i < |q| => Entry(m, q[i]))
  }

  ghost predicate Ascending(q: seq<Id>, ids: set<Id>) {
    (forall x :: x in q <==> x in ids) && forall i, j :: 0 <= i < j < |q| ==> q[i] < q[j]
  }

  /** Second loop: push the remaining ids, in ascending order. */
  method Append(base: seq<Entry>, m: Mark, ids: set<Id>) returns (info: seq<Entry>, ghost q: seq<Id>)
    ensures info == base + Entries(m, q) && Ascending(q, ids)
    ensures base <= info
  {
    info, q := base, [];
    var rest := ids;
    while rest != {}
      invariant rest <= ids && info == base + Entries(m, q) && Ascending(q, ids - rest)
      invariant forall k, x :: 0 <= k < |q| && x in rest ==> q[k] < x
      decreases rest
    {
      var x := Ordered.LeastNat(rest);
      info, q := info + [Entry(m, x)], q + [x];
      rest := rest - {x};
    }
    assert ids - rest == ids;
  }

  lemma AppendKeeps(base: seq<Entry>, m: Mark, q: seq<Id>, ids: set<Id>)
    requires m != Start && Consistent(base) && Ascending(q, ids)
    requires forall e :: e in base && e.mark != Start ==> e.id !in ids
    ensures Consistent(base + Entries(m, q))
    ensures forall k :: Marked(base + Entries(m, q), k) == Marked(base, k) + if k == m then ids else {}
  {
    var info := base + Entries(m, q);
    forall i, j | 0 <= i < j < |info| && info[i].mark != Start && info[j].mark != Start ensures info[i].id != info[j].id {
      if i < |base| <= j {
        assert base[i] in base && q[j - |base|] in q;
      } else if |base| <= i {
        assert q[i - |base|] < q[j - |base|];
      }
    }
    forall k ensures Marked(info, k) == Marked(base, k) + if k == m then ids else {} {
      forall y ensures y in Marked(info, k) <==> y in Marked(base, k) || (k == m && y in ids) {
        if y in Marked(info, k) && Entry(k, y) !in base {
          assert Entry(k, y) in Entries(m, q);
          assert y in q;
        }
        if y in Marked(base, k) {
          assert Entry(k, y) in base && Entry(k, y) in info;
        }
        if k == m && y in ids {
          var i :| 0 <= i < |q| && q[i] == y;
          assert info[|base| + i] == Entry(m, y);
        }
      }
    }
  }

  // ---------- selecting ----------

  /** The given revisions and everything but the root above them. */
  ghost function Above(g: Graph, s: set<Id>): set<Id> {
    set x | x in g.parents && x != NullId && exists r :: r in s && g.AncOrSelf(x, r)
  }

  ghost function Below(g: Graph, s: set<Id>): set<Id> {
    set x | x in g.parents && x != NullId && exists r :: r in s && g.AncOrSelf(r, x)
  }

  /** The revisions between the good and the bad ones. */
  ghost function Search(g: Graph, info: seq<Entry>): set<Id> {
    Below(g, Marked(info, Good)) * Above(g, Marked(info, Bad))
  }

  /** The search set less what is skipped, known good or known bad. */
  ghost function Remaining(g: Graph, info: seq<Entry>): set<Id> {
    Search(g, info) - Marked(info, Skipped) - Above(g, Marked(info, Good)) - Below(g, Marked(info, Bad))
  }

  ghost predicate IsMidpoint(g: Graph, s: set<Id>, x: Id) {
    exists sorted :: SortedByHeight(g, sorted, s) && |sorted| == |s| > 0 && x == sorted[|s| / 2]
  }

  ghost predicate IsLowest(g: Graph, s: set<Id>, x: Id) {
    x in s && forall b :: b in s ==> g.HeightOf(x) <= g.HeightOf(b)
  }

  /** Still to be tested: it descends from a revision marked good, or is one, and a revision marked bad
      from it; it was not skipped; and neither is it an ancestor of a good one nor descends from a bad one. */
  ghost predicate Undecided(g: Graph, info: seq<Entry>, x: Id) {
    && x != NullId && Entry(Skipped, x) !in info
    && (exists e :: e in info && e.mark == Good && g.AncOrSelf(e.id, x))
    && (exists e :: e in info && e.mark == Bad && g.AncOrSelf(x, e.id))
    && (forall e :: e in info && e.mark == Good ==> !g.AncOrSelf(x, e.id))
    && (forall e :: e in info && e.mark == Bad ==> !g.AncOrSelf(e.id, x))
  }

  lemma RemainingIs(g: Graph, info: seq<Entry>, x: Id)
    requires g.Valid() && InfoIn(g, info)
    ensures x in Remaining(g, info) <==> Undecided(g, info, x)
  {
    forall e | e in info ensures e.id in Marked(info, e.mark) {
    }
    if Undecided(g, info, x) {
      var e :| e in info && e.mark == Good && g.AncOrSelf(e.id, x);
      if e.id != x {
        AncIsLower(g, e.id, x);
      }
      assert x in Below(g, Marked(info, Good));
      var b :| b in info && b.mark == Bad && g.AncOrSelf(x, b.id);
      assert x in Above(g, Marked(info, Bad));
    }
    if x in Remaining(g, info) {
      var r :| r in Marked(info, Good) && g.AncOrSelf(r, x);
      assert Entry(Good, r) in info;
      var b :| b in Marked(info, Bad) && g.AncOrSelf(x, b);
      assert Entry(Bad, b) in info;
    }
  }

  datatype Selection = Failed | Waiting | Finished(firstBad: Id, selected: Id) | Next(selected: Id)

  ghost predicate InfoIn(g: Graph, info: seq<Entry>) {
    forall e :: e in info ==> e.id in g.parents && e.id != NullId
  }

  /** The loop that sorts the recorded entries into the three sets. */
  method Collect(info: seq<Entry>) returns (good: set<Id>, bad: set<Id>, skipped: set<Id>)
    ensures good == Marked(info, Good) && bad == Marked(info, Bad) && skipped == Marked(info, Skipped)
  {
    good, bad, skipped := {}, {}, {};
    for i := 0 to |info|
      invariant good == Marked(info[..i], Good)
      invariant bad == Marked(info[..i], Bad)
      invariant skipped == Marked(info[..i], Skipped)
    {
      MarkedAppend(info[..i], info[i].mark, info[i].id);
      assert info[..i + 1] == info[..i] + [Entry(info[i].mark, info[i].id)];
      match info[i].mark
      case Start =>
      case Good => good := good + {info[i].id};
      case Bad => bad := bad + {info[i].id};
      case Skipped => skipped := skipped + {info[i].id};
    }
    assert info[..|info|] == info;
  }

  lemma MarkedAppend(info: seq<Entry>, m: Mark, x: Id)
    ensures forall k :: Marked(info + [Entry(m, x)], k) == Marked(info, k) + if k == m then {x} else {}
  {
    var info' := info + [Entry(m, x)];
    forall k ensures Marked(info', k) == Marked(info, k) + if k == m then {x} else {} {
      forall y ensures y in Marked(info', k) <==> y in Marked(info, k) || (k == m && y == x) {
        if y in Marked(info, k) || (k == m && y == x) {
          assert Entry(k, y) in info';
        }
      }
    }
  }

  method LoadAbove(g: Graph, children: map<Id, seq<Id>>, s: set<Id>) returns (r: set<Id>)
    requires g.Valid() && g.Rooted() && ForwardOf(g, children) && s <= g.parents.Keys && NullId !in s
    ensures r == Above(g, s)
  {
    var ok;
    ok, r := LoadRevs(g, children, Ancestors, s);
    forall y ensures y in r <==> y in Above(g, s) {
      if y in r && y !in s {
        var x :| x in s && Beyond(g, Ancestors, y, x);
        AncIsLower(g, y, x);
        assert g.AncOrSelf(y, x);
      }
      if y in Above(g, s) && y !in s {
        var x :| x in s && g.AncOrSelf(y, x);
        assert Beyond(g, Ancestors, y, x);
      }
    }
  }

  method LoadBelow(g: Graph, children: map<Id, seq<Id>>, s: set<Id>) returns (r: set<Id>)
    requires g.Valid() && g.Rooted() && ForwardOf(g, children) && s <= g.parents.Keys && NullId !in s
    ensures r == Below(g, s)
  {
    var ok;
    ok, r := LoadRevs(g, children, Descendants, s);
    forall y ensures y in r <==> y in Below(g, s) {
      if y in r && y !in s {
        var x :| x in s && Beyond(g, Descendants, y, x);
        AncIsLower(g, x, y);
        assert g.AncOrSelf(x, y);
      }
      if y in Below(g, s) && y !in s {
        var x :| x in s && g.AncOrSelf(x, y);
        assert Beyond(g, Descendants, y, x);
      }
    }
  }

  method BisectSelect(g: Graph, children: map<Id, seq<Id>>, info: seq<Entry>, current: Id) returns (r: Selection)
    requires g.Valid() && g.Rooted() && g.UniqueHeights() && ForwardOf(g, children)
    requires InfoIn(g, info)
    ensures r.Failed? <==> Marked(info, Good) == {} && Marked(info, Bad) == {}
    ensures r.Waiting? <==> (Marked(info, Good) == {}) != (Marked(info, Bad) == {})
    ensures r.Next? ==> IsMidpoint(g, Remaining(g, info) - {current}, r.selected)
    ensures r.Next? || r.Finished? ==> (r.Finished? <==> Remaining(g, info) <= {current})
    ensures r.Next? ==> Undecided(g, info, r.selected) && r.selected != current
    ensures r.Next? || r.Finished? ==> (r.Finished? <==> forall x :: Undecided(g, info, x) ==> x == current)
    ensures r.Finished? ==> IsLowest(g, Marked(info, Bad), r.firstBad)
    ensures r.Finished? ==> r.selected == if r.firstBad == current then NullId else r.firstBad
  {
    var good, bad, skipped := Collect(info);
    if info == [] || (good == {} && bad == {}) {
      return Failed;
    }
    if good == {} || bad == {} {
      return Waiting;
    }
    var goodDescendants := LoadBelow(g, children, good);
    var badAncestors := LoadAbove(g, children, bad);
    var search := goodDescendants * badAncestors;
    var searchable := search - skipped;
    var goodAncestors := LoadAbove(g, children, good);
    var badDescendants := LoadBelow(g, children, bad);
    var knownGood := searchable * goodAncestors;
    var knownBad := searchable * badDescendants;
    var remaining := searchable - (knownGood + knownBad);
    assert remaining == Remaining(g, info);
    r := Choose(g, bad, remaining - {current}, current);
    SelectionIs(g, info, current, r);
  }

  lemma SelectionIs(g: Graph, info: seq<Entry>, current: Id, r: Selection)
    requires g.Valid() && InfoIn(g, info)
    requires if Remaining(g, info) - {current} == {} then r.Finished? else r.Next?
    requires r.Next? ==> IsMidpoint(g, Remaining(g, info) - {current}, r.selected)
    ensures r.Next? ==> Undecided(g, info, r.selected) && r.selected != current
    ensures r.Finished? <==> forall x :: Undecided(g, info, x) ==> x == current
  {
    forall x ensures x in Remaining(g, info) <==> Undecided(g, info, x) {
      RemainingIs(g, info, x);
    }
    if r.Next? {
      MidpointIsMember(g, Remaining(g, info) - {current}, r.selected);
    } else {
      forall x | Undecided(g, info, x) ensures x == current {
        assert x !in Remaining(g, info) - {current};
      }
    }
  }

  /** The end of the selection: report the lowest bad revision, or take the midpoint. */
  method Choose(g: Graph, bad: set<Id>, remaining: set<Id>, current: Id) returns (r: Selection)
    requires g.UniqueHeights() && remaining <= g.height.Keys && bad <= g.height.Keys && bad != {}
    ensures if remaining == {} then r.Finished? else r.Next?
    ensures r.Next? ==> IsMidpoint(g, remaining, r.selected)
    ensures r.Finished? ==> IsLowest(g, bad, r.firstBad)
    ensures r.Finished? ==> r.selected == if r.firstBad == current then NullId else r.firstBad
  {
    if remaining == {} {
      var badSorted := Toposort(g, bad);
      var firstBad := badSorted[0];
      assert firstBad in badSorted;
      return Finished(firstBad, if current != firstBad then firstBad else NullId);
    }
    var candidates := Toposort(g, remaining);
    r := Next(candidates[|candidates| / 2]);
  }

  // ---------- whole bisections ----------

  /** A round about to be tested: what is marked so far and the revision under test. */
  datatype Round = Round(info: seq<Entry>, current: Id)

  /** The user marks the revision under test and the selection goes on to another one. */
  ghost predicate Step(g: Graph, a: Round, b: Round) {
    && (exists m :: m != Start && b.info == a.info + [Entry(m, a.current)])
    && IsMidpoint(g, Remaining(g, b.info) - {a.current}, b.current)
  }

  ghost predicate Run(g: Graph, rounds: seq<Round>) {
    && |rounds| > 0
    && rounds[0].current in Remaining(g, rounds[0].info)
    && forall i, j :: 0 <= i < j < |rounds| && j == i + 1 ==> Step(g, rounds[i], rounds[j])
  }

  lemma BelowGrows(g: Graph, s: set<Id>, r: Id)
    requires r in Below(g, s)
    ensures Below(g, s + {r}) == Below(g, s)
  {
    forall x | x in Below(g, s + {r}) ensures x in Below(g, s) {
      var q :| q in s + {r} && g.AncOrSelf(q, x);
      if q == r {
        var t :| t in s && g.AncOrSelf(t, r);
        AncOrSelfTransitive(g, t, r, x);
        assert g.AncOrSelf(t, x);
      }
    }
    BelowMonotone(g, s, s + {r});
  }

  lemma AboveGrows(g: Graph, s: set<Id>, r: Id)
    requires r in Above(g, s)
    ensures Above(g, s + {r}) == Above(g, s)
  {
    forall x | x in Above(g, s + {r}) ensures x in Above(g, s) {
      var q :| q in s + {r} && g.AncOrSelf(x, q);
      if q == r {
        var t :| t in s && g.AncOrSelf(r, t);
        AncOrSelfTransitive(g, x, r, t);
        assert g.AncOrSelf(x, t);
      }
    }
    AboveMonotone(g, s, s + {r});
  }

  lemma BelowMonotone(g: Graph, s: set<Id>, t: set<Id>)
    requires s <= t
    ensures Below(g, s) <= Below(g, t)
  {
    forall x | x in Below(g, s) ensures x in Below(g, t) {
      var r :| r in s && g.AncOrSelf(r, x);
      assert r in t;
    }
  }

  lemma AboveMonotone(g: Graph, s: set<Id>, t: set<Id>)
    requires s <= t
    ensures Above(g, s) <= Above(g, t)
  {
    forall x | x in Above(g, s) ensures x in Above(g, t) {
      var r :| r in s && g.AncOrSelf(x, r);
      assert r in t;
    }
  }

  /** Marking a revision that remained to be tested, whichever way: the search set stays and
      the remaining set loses at least that revision. */
  lemma MarkShrinks(g: Graph, info: seq<Entry>, r: Id, m: Mark)
    requires m != Start && r in Remaining(g, info)
    ensures Search(g, info + [Entry(m, r)]) == Search(g, info)
    ensures Remaining(g, info + [Entry(m, r)]) <= Remaining(g, info) - {r}
  {
    MarkedAppend(info, m, r);
    var good, bad := Marked(info, Good), Marked(info, Bad);
    assert good + {} == good && bad + {} == bad;
    BelowGrows(g, good, r);
    AboveGrows(g, bad, r);
    AboveMonotone(g, good, good + {r});
    BelowMonotone(g, bad, bad + {r});
    assert g.AncOrSelf(r, r);
    assert r in Above(g, {r} + good) && r in Below(g, {r} + bad);
    assert {r} + good == good + {r} && {r} + bad == bad + {r};
  }

  lemma StepShrinks(g: Graph, a: Round, b: Round)
    requires a.current in Remaining(g, a.info) && Step(g, a, b)
    ensures Search(g, b.info) == Search(g, a.info)
    ensures Remaining(g, b.info) < Remaining(g, a.info)
    ensures |Remaining(g, b.info)| < |Remaining(g, a.info)|
    ensures b.current in Remaining(g, b.info)
  {
    var m :| m != Start && b.info == a.info + [Entry(m, a.current)];
    MarkShrinks(g, a.info, a.current, m);
    MidpointIsMember(g, Remaining(g, b.info) - {a.current}, b.current);
    LosesOne(Remaining(g, b.info), Remaining(g, a.info), a.current);
  }

  lemma LosesOne(s: set<Id>, t: set<Id>, x: Id)
    requires s <= t - {x} && x in t
    ensures s < t && |s| < |t| && s - {x} == s
  {
    Ordered.SubsetSize(s, t - {x});
  }

  lemma MidpointIsMember(g: Graph, s: set<Id>, x: Id)
    requires IsMidpoint(g, s, x)
    ensures x in s
  {
    var sorted :| SortedByHeight(g, sorted, s) && |sorted| == |s| > 0 && x == sorted[|s| / 2];
    assert x in sorted;
  }

  /** Over a whole run the search set is fixed, each round tests a remaining revision, and
      the rounds played are paid for by revisions that no longer remain. */
  lemma {:induction false} RunShrinks(g: Graph, rounds: seq<Round>)
    requires Run(g, rounds)
    ensures var last := rounds[|rounds| - 1];
            && Search(g, last.info) == Search(g, rounds[0].info)
            && last.current in Remaining(g, last.info)
            && |Remaining(g, last.info)| + |rounds| - 1 <= |Remaining(g, rounds[0].info)|
    decreases |rounds|
  {
    if |rounds| > 1 {
      var before := rounds[..|rounds| - 1];
      RunShrinks(g, before);
      StepShrinks(g, before[|before| - 1], rounds[|rounds| - 1]);
    }
  }

  /** A run that ends reports a bad revision all of whose ancestors at or below a good mark are at
      or above one or were skipped: the change came in with it or with one that was skipped. */
  lemma FinishFindsTransition(g: Graph, rounds: seq<Round>, m: Mark, firstBad: Id, a: Id)
    requires g.Valid() && Run(g, rounds) && m != Start
    requires var last := rounds[|rounds| - 1];
             var info := last.info + [Entry(m, last.current)];
             && Remaining(g, info) <= {last.current}
             && IsLowest(g, Marked(info, Bad), firstBad)
             && a in Below(g, Marked(info, Good))
    requires g.Anc(a, firstBad)
    ensures var last := rounds[|rounds| - 1];
            var info := last.info + [Entry(m, last.current)];
            a in Above(g, Marked(info, Good)) || a in Marked(info, Skipped)
  {
    var last := rounds[|rounds| - 1];
    RunShrinks(g, rounds);
    MarkShrinks(g, last.info, last.current, m);
    var info := last.info + [Entry(m, last.current)];
    LosesOne(Remaining(g, info), Remaining(g, last.info), last.current);
    NotKnownBad(g, Marked(info, Bad), firstBad, a);
    NothingElseRemains(Below(g, Marked(info, Good)), Above(g, Marked(info, Bad)), Marked(info, Skipped),
                       Above(g, Marked(info, Good)), Below(g, Marked(info, Bad)), a);
  }

  lemma NothingElseRemains(goodBelow: set<Id>, badAbove: set<Id>, skipped: set<Id>, goodAbove: set<Id>,
                           badBelow: set<Id>, a: Id)
    requires goodBelow * badAbove - skipped - goodAbove - badBelow == {}
    requires a in goodBelow && a in badAbove && a !in badBelow
    ensures a in goodAbove || a in skipped
  {
    assert a !in goodBelow * badAbove - skipped - goodAbove - badBelow;
  }

  /** An ancestor of the lowest bad revision lies above a bad one but not below any. */
  lemma NotKnownBad(g: Graph, bad: set<Id>, firstBad: Id, a: Id)
    requires g.Valid() && IsLowest(g, bad, firstBad) && g.Anc(a, firstBad) && a != NullId
    ensures a in Above(g, bad) && a !in Below(g, bad)
  {
    AncIsLower(g, a, firstBad);
    assert g.AncOrSelf(a, firstBad);
    forall b | b in bad ensures !g.AncOrSelf(b, a) {
      if g.AncOrSelf(b, a) && b != a {
        AncIsLower(g, b, a);
      }
    }
  }

  /** On a linear stretch of history a tested midpoint marked good or bad leaves at most
      half of the revisions. */
  lemma LinearHalves(g: Graph, info: seq<Entry>, x: Id, m: Mark)
    requires g.Valid() && m in {Good, Bad} && IsMidpoint(g, Remaining(g, info), x)
    requires forall a, b :: a in Remaining(g, info) && b in Remaining(g, info) ==> g.AncOrSelf(a, b) || g.Anc(b, a)
    ensures |Remaining(g, info + [Entry(m, x)])| <= |Remaining(g, info)| / 2
  {
    var s := Remaining(g, info);
    var s' := Remaining(g, info + [Entry(m, x)]);
    var sorted :| SortedByHeight(g, sorted, s) && |sorted| == |s| > 0 && x == sorted[|s| / 2];
    MidpointIsMember(g, s, x);
    MarkShrinks(g, info, x, m);
    forall i | 0 <= i < |sorted| && (if m == Good then i <= |s| / 2 else i >= |s| / 2) ensures sorted[i] !in s' {
      if m == Good { AtOrAbove(g, sorted, s, i, |s| / 2); } else { AtOrAbove(g, sorted, s, |s| / 2, i); }
      KnownGone(g, info, x, m, sorted[i]);
    }
    HalfIsGone(g, sorted, s, s', m == Good);
  }

  /** Marking takes with it everything above a good and below a bad revision. */
  lemma KnownGone(g: Graph, info: seq<Entry>, x: Id, m: Mark, y: Id)
    requires m in {Good, Bad} && if m == Good then g.AncOrSelf(y, x) else g.AncOrSelf(x, y)
    ensures y !in Remaining(g, info + [Entry(m, x)])
  {
    MarkedAppend(info, m, x);
    assert x in Marked(info + [Entry(m, x)], m);
  }

  lemma HalfIsGone(g: Graph, sorted: seq<Id>, s: set<Id>, s': set<Id>, firstHalf: bool)
    requires SortedByHeight(g, sorted, s) && |sorted| == |s| > 0 && s' <= s
    requires forall i :: 0 <= i < |sorted| && (if firstHalf then i <= |s| / 2 else i >= |s| / 2) ==> sorted[i] !in s'
    ensures |s'| <= |s| / 2
  {
    var k := |s| / 2;
    var kept := if firstHalf then sorted[k + 1..] else sorted[..k];
    var keptSet := set y | y in kept;
    forall y | y in s' ensures y in keptSet {
      assert y in s && y in sorted;
      var i :| 0 <= i < |sorted| && sorted[i] == y;
      if firstHalf { assert y == kept[i - k - 1]; } else { assert y == kept[i]; }
    }
    SetOfSeqSize(kept, keptSet);
    Ordered.SubsetSize(s', keptSet);
  }

  lemma AtOrAbove(g: Graph, sorted: seq<Id>, s: set<Id>, i: nat, j: nat)
    requires g.Valid() && SortedByHeight(g, sorted, s) && i <= j < |sorted|
    requires forall a, b :: a in s && b in s ==> g.AncOrSelf(a, b) || g.Anc(b, a)
    ensures g.AncOrSelf(sorted[i], sorted[j])
  {
    assert sorted[i] in sorted && sorted[j] in sorted;
    if g.Anc(sorted[j], sorted[i]) {
      AncIsLower(g, sorted[j], sorted[i]);
    }
  }

  lemma {:induction false} SetOfSeqSize(q: seq<Id>, s: set<Id>)
    requires s == set y | y in q
    ensures |s| <= |q|
  {
    if q != [] {
      var t := set y | y in q[1..];
      SetOfSeqSize(q[1..], t);
      assert q == [q[0]] + q[1..];
      assert s == t + {q[0]};
    }
  }

  // ---------- the commands in turn ----------

  lemma RemainingUnmarked(g: Graph, info: seq<Entry>, x: Id, m: Mark)
    requires x in Remaining(g, info) && m != Start
    ensures x !in Marked(info, Good) && x !in Marked(info, Bad) && x !in Marked(info, Skipped)
    ensures !Conflicts(info, m, {x}) && Marked(info, Good) != {} && Marked(info, Bad) != {}
  {
    assert g.AncOrSelf(x, x);
    forall e | e in info && e.mark != Start ensures e.id != x {
      assert e.id in Marked(info, e.mark);
    }
  }

  lemma OneEntry(info: seq<Entry>, info': seq<Entry>, m: Mark, q: seq<Id>, x: Id)
    requires x !in Marked(info, m) && info' == info + Entries(m, q) && Ascending(q, {x} - Marked(info, m))
    ensures info' == info + [Entry(m, x)]
  {
    Ordered.OneOrder(q, [x]);
    assert Entries(m, q) == [Entry(m, x)];
  }

  method MarkCurrent(g: Graph, info: seq<Entry>, current: Id, m: Mark) returns (info': seq<Entry>)
    requires Consistent(info) && InfoIn(g, info) && current in Remaining(g, info) && m != Start
    ensures info' == info + [Entry(m, current)] && Consistent(info') && InfoIn(g, info')
  {
    RemainingUnmarked(g, info, current, m);
    var marks := AddMarks(info, current, m, {current});
    info' := marks.info;
    ghost var q :| info' == info + Entries(m, q) && Ascending(q, {current} - Marked(info, m));
    OneEntry(info, info', m, q, current);
  }

  lemma StillBoth(g: Graph, info: seq<Entry>, x: Id, m: Mark)
    requires x in Remaining(g, info) && m != Start
    ensures Marked(info + [Entry(m, x)], Good) != {} && Marked(info + [Entry(m, x)], Bad) != {}
  {
    RemainingUnmarked(g, info, x, m);
    MarkedAppend(info, m, x);
  }

  /** One `bisect` command on the revision under test: the mark is recorded and the next one selected. */
  method MarkAndSelect(g: Graph, children: map<Id, seq<Id>>, info: seq<Entry>, current: Id, m: Mark)
    returns (info': seq<Entry>, r: Selection)
    requires g.Valid() && g.Rooted() && g.UniqueHeights() && ForwardOf(g, children) && m != Start
    requires Consistent(info) && InfoIn(g, info) && current in Remaining(g, info)
    ensures info' == info + [Entry(m, current)] && Consistent(info') && InfoIn(g, info')
    ensures r.Finished? || r.Next?
    ensures r.Finished? ==> Remaining(g, info') <= {current} && IsLowest(g, Marked(info', Bad), r.firstBad)
    ensures r.Next? ==> Step(g, Round(info, current), Round(info', r.selected))
  {
    info' := MarkCurrent(g, info, current, m);
    StillBoth(g, info, current, m);
    r := BisectSelect(g, children, info', current);
  }

  lemma RunMore(g: Graph, rounds: seq<Round>, b: Round)
    requires Run(g, rounds) && Step(g, rounds[|rounds| - 1], b)
    ensures Run(g, rounds + [b])
  {
    var more := rounds + [b];
    assert more[0] == rounds[0];
    forall i, j | 0 <= i < j < |more| && j == i + 1 ensures Step(g, more[i], more[j]) {
      assert more[i] == rounds[i];
      if j < |rounds| {
        assert more[j] == rounds[j];
      }
    }
  }

  /** A whole bisection: the revision under test is marked as the answers say until the commands report
      the end or there are no more answers. The rounds are a run, of at most as many as there are
      revisions to test, every answer is recorded for the revision its round tested, and an end that
      is reported is a transition, but for what was skipped. */
  method Bisection(g: Graph, children: map<Id, seq<Id>>, info0: seq<Entry>, current0: Id, answers: seq<Mark>)
    returns (r: Selection, info: seq<Entry>, ghost rounds: seq<Round>)
    requires g.Valid() && g.Rooted() && g.UniqueHeights() && ForwardOf(g, children)
    requires Consistent(info0) && InfoIn(g, info0) && current0 in Remaining(g, info0) && Start !in answers
    ensures Run(g, rounds) && rounds[0] == Round(info0, current0) && |rounds| <= |Remaining(g, info0)|
    ensures r.Finished? || (r.Next? && |rounds| == |answers| + 1 && rounds[|rounds| - 1] == Round(info, r.selected))
    ensures |answers| >= |Remaining(g, info0)| ==> r.Finished?
    ensures Answered(info0, info, rounds, answers)
    ensures r.Next? ==> Undecided(g, info, r.selected)
    ensures r.Finished? ==> |info| == |info0| + |rounds| && Ended(g, info, r.firstBad)
  {
    info, r, rounds := info0, Next(current0), [Round(info0, current0)];
    for i := 0 to |answers|
      invariant r.Next? && |rounds| == i + 1 && Run(g, rounds) && rounds[0] == Round(info0, current0)
      invariant rounds[i] == Round(info, r.selected) && Consistent(info) && InfoIn(g, info)
      invariant |info| == |info0| + i && Answered(info0, info, rounds, answers)
    {
      Bounded(g, rounds);
      info, r := MarkAndSelect(g, children, info, r.selected, answers[i]);
      if r.Finished? {
        Transition(g, rounds, answers[i], r.firstBad);
        AnsweredMore(info0, rounds[i].info, rounds, answers, info);
        return;
      }
      RunMore(g, rounds, Round(info, r.selected));
      AnsweredMore(info0, rounds[i].info, rounds, answers, info);
      rounds := rounds + [Round(info, r.selected)];
    }
    Bounded(g, rounds);
    RemainingIs(g, info, r.selected);
  }

  /** Every entry made is the answer to its round, for the revision that round tested. */
  ghost predicate Answered(info0: seq<Entry>, info: seq<Entry>, rounds: seq<Round>, answers: seq<Mark>) {
    && info0 <= info && |info| - |info0| <= |rounds| && |info| - |info0| <= |answers|
    && forall i :: 0 <= i < |info| - |info0| ==> info[|info0| + i] == Entry(answers[i], rounds[i].current)
  }

  lemma AnsweredMore(info0: seq<Entry>, info: seq<Entry>, rounds: seq<Round>, answers: seq<Mark>, info': seq<Entry>)
    requires Answered(info0, info, rounds, answers) && |info| == |info0| + |rounds| - 1 && |rounds| <= |answers|
    requires info' == info + [Entry(answers[|rounds| - 1], rounds[|rounds| - 1].current)]
    ensures Answered(info0, info', rounds, answers) && forall b :: Answered(info0, info', rounds + [b], answers)
  {
  }

  lemma NothingLeft(g: Graph, info: seq<Entry>, x: Id, m: Mark)
    requires g.Valid() && InfoIn(g, info) && m != Start && x in Remaining(g, info)
    requires Remaining(g, info + [Entry(m, x)]) <= {x}
    ensures forall y :: !Undecided(g, info + [Entry(m, x)], y)
  {
    MarkShrinks(g, info, x, m);
    var info' := info + [Entry(m, x)];
    assert InfoIn(g, info');
    forall y ensures !Undecided(g, info', y) {
      RemainingIs(g, info', y);
      assert y in Remaining(g, info') ==> y in {x};
    }
  }

  lemma Bounded(g: Graph, rounds: seq<Round>)
    requires Run(g, rounds)
    ensures |rounds| <= |Remaining(g, rounds[0].info)|
    ensures rounds[|rounds| - 1].current in Remaining(g, rounds[|rounds| - 1].info)
  {
    RunShrinks(g, rounds);
    var last := rounds[|rounds| - 1];
    NotEmpty(Remaining(g, last.info), last.current);
  }

  /** Nothing is left to test, and the revision reported is the lowest bad one and a transition: whatever the
      good marks reach above it is known good or was skipped. */
  ghost predicate Ended(g: Graph, info: seq<Entry>, firstBad: Id) {
    && (forall x :: !Undecided(g, info, x)) && IsLowest(g, Marked(info, Bad), firstBad)
    && (forall a :: a in Below(g, Marked(info, Good)) && g.Anc(a, firstBad) ==>
          a in Above(g, Marked(info, Good)) || a in Marked(info, Skipped))
  }

  lemma NotEmpty(s: set<Id>, x: Id)
    requires x in s
    ensures |s| > 0
  {
  }

  lemma Transition(g: Graph, rounds: seq<Round>, m: Mark, firstBad: Id)
    requires g.Valid() && Run(g, rounds) && m != Start && InfoIn(g, rounds[|rounds| - 1].info)
    requires var last := rounds[|rounds| - 1]; var info := last.info + [Entry(m, last.current)];
      Remaining(g, info) <= {last.current} && IsLowest(g, Marked(info, Bad), firstBad)
    ensures var last := rounds[|rounds| - 1]; Ended(g, last.info + [Entry(m, last.current)], firstBad)
  {
    var last := rounds[|rounds| - 1];
    var info := last.info + [Entry(m, last.current)];
    forall a | a in Below(g, Marked(info, Good)) && g.Anc(a, firstBad)
      ensures a in Above(g, Marked(info, Good)) || a in Marked(info, Skipped)
    {
      FinishFindsTransition(g, rounds, m, firstBad, a);
    }
    RunShrinks(g, rounds);
    NothingLeft(g, last.info, last.current, m);
  }
}
