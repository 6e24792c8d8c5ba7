/** The history of a file, the lineages of its lines, and what one step of the annotation does. */
module Lineages {

  type Rev = nat
  type FileId = nat

  /** A line, by the number the interner gives its text. */
  type Line = nat

  const NullRev: Rev := 0
  const NoFile: FileId := 0

  // ---------- the history of one file ----------

  /** What the database says about the file: for each revision its parents, the revisions its
      content was last changed in, its content (`NoFile` where the file is absent) and its
      height; for each content its lines. */
  datatype History = History(parents: map<Rev, set<Rev>>, marks: map<Rev, set<Rev>>, content: map<Rev, FileId>,
                             lines: map<FileId, seq<Line>>, height: map<Rev, nat>)
  {
    predicate Live(r: Rev) {
      r in content && content[r] != NoFile
    }

    /** The file is known for a revision: everything the annotation asks for exists. */
    ghost predicate Known(r: Rev) {
      && r in content && r != NullRev && r in parents && r in marks && r in height && content[r] in lines
      && (forall p :: p in parents[r] ==> p in content && p != r && (Live(p) ==> Below(p, r)))
      && marks[r] != {} && (r in marks[r] ==> marks[r] == {r})
      && (forall m :: m in marks[r] && m != r ==> Live(m) && Below(m, r) && content[m] == content[r] && m in marks && marks[m] == {m})
    }

    ghost predicate Below(p: Rev, r: Rev) {
      p in height && r in height && height[p] < height[r]
    }

    ghost predicate Valid() {
      && (forall r {:trigger Known(r)} :: Live(r) ==> Known(r))
      && forall r, q :: r in height && q in height && height[r] == height[q] ==> r == q
    }
  }

  // ---------- common subsequences ----------

  ghost predicate Embeds(f: seq<nat>, a: seq<Line>, b: seq<Line>) {
    && |f| == |a|
    && (forall k :: 0 <= k < |f| ==> f[k] < |b| && a[k] == b[f[k]])
    && forall k, l :: 0 <= k < l < |f| ==> f[k] < f[l]
  }

  ghost predicate Subsequence(a: seq<Line>, b: seq<Line>) {
    exists f :: Embeds(f, a, b)
  }

  /** Matching greedily from the left never loses a subsequence. */
  lemma GreedyStep(a: seq<Line>, b: seq<Line>)
    requires a != [] && Subsequence(a, b)
    ensures b != []
    ensures a[0] == b[0] ==> Subsequence(a[1..], b[1..])
    ensures a[0] != b[0] ==> Subsequence(a, b[1..])
  {
    var f :| Embeds(f, a, b);
    assert f[0] < |b|;
    if a[0] == b[0] {
      var g := seq(|f| - 1, k requires 0 <= k < |f| - 1 => assert f[0] < f[k + 1]; f[k + 1] - 1);
      forall k | 0 <= k < |g| ensures g[k] < |b[1..]| && a[1..][k] == b[1..][g[k]] {
        assert a[k + 1] == b[f[k + 1]];
      }
      assert Embeds(g, a[1..], b[1..]);
    } else {
      assert a[0] == b[f[0]];
      assert forall k :: 0 <= k < |f| ==> f[k] > 0 by {
        forall k | 0 <= k < |f| ensures f[k] > 0 {
          if k > 0 { assert f[0] < f[k]; }
        }
      }
      var g := seq(|f|, k requires 0 <= k < |f| => f[k] - 1);
      assert Embeds(g, a, b[1..]);
    }
  }

  // ---------- lineages, units and the queue ----------

  /** For each line of some version of the file, the line of the final file it became, or -1. */
  datatype Lineage = Lineage(lines: seq<Line>, mapping: seq<int>)

  /** A shared lineage is known by its identity in the store. */
  datatype Unit = Unit(lineage: nat, revision: Rev, height: nat, interesting: set<Rev>, content: FileId, marked: bool)

  predicate Mapped(l: Lineage, m: int) {
    m >= 0 && m in l.mapping
  }

  /** Every mapped line has the text of the final line it points to. */
  ghost predicate LineageOk(file: seq<Line>, l: Lineage) {
    && |l.lines| == |l.mapping|
    && forall i {:trigger l.mapping[i]} :: 0 <= i < |l.mapping| ==>
         l.mapping[i] == -1 || (0 <= l.mapping[i] < |file| && file[l.mapping[i]] == l.lines[i])
  }

  ghost predicate InterestingOk(h: History, u: Unit) {
    && u.revision in h.marks && u.revision in h.parents
    && u.marked == (h.marks[u.revision] == {u.revision})
    && u.interesting == if u.marked then h.parents[u.revision] else h.marks[u.revision]
  }

  ghost predicate UnitOk(h: History, file: seq<Line>, store: map<nat, Lineage>, u: Unit) {
    && h.Live(u.revision) && u.content == h.content[u.revision] && u.content in h.lines
    && u.revision in h.height && u.height == h.height[u.revision] && InterestingOk(h, u)
    && u.lineage in store && LineageOk(file, store[u.lineage]) && store[u.lineage].lines == h.lines[u.content]
  }

  ghost predicate QueueOk(h: History, file: seq<Line>, store: map<nat, Lineage>, queue: map<Rev, Unit>) {
    forall r {:trigger queue[r]} :: r in queue ==> queue[r].revision == r && UnitOk(h, file, store, queue[r])
  }

  /** Final line `m` is followed by a queued unit. */
  ghost predicate Live(store: map<nat, Lineage>, queue: map<Rev, Unit>, m: int) {
    exists r :: CarriedBy(store, queue, r, m)
  }

  /** It is, or the unit in progress has just found it equivalent to another line. */
  ghost predicate Carried(store: map<nat, Lineage>, queue: map<Rev, Unit>, replaced: set<int>, m: int) {
    m in replaced || Live(store, queue, m)
  }

  ghost predicate CarriedBy(store: map<nat, Lineage>, queue: map<Rev, Unit>, r: Rev, m: int) {
    r in queue && queue[r].lineage in store && Mapped(store[queue[r].lineage], m)
  }

  ghost predicate EquivalentOk(file: seq<Line>, equivalent: map<int, int>) {
    forall m {:trigger equivalent[m]} :: m in equivalent ==>
      0 <= m < |file| && 0 <= equivalent[m] < |file| && file[m] == file[equivalent[m]]
  }

  /** Lineages only ever fill gaps: the lines stay and so does every mapped entry. */
  ghost predicate Grown(store: map<nat, Lineage>, store': map<nat, Lineage>) {
    forall id {:trigger store'[id]} {:trigger id in store'} :: id in store ==> id in store' && Refined(store[id], store'[id])
  }

  ghost predicate Refined(l: Lineage, l': Lineage) {
    && l'.lines == l.lines && |l'.mapping| == |l.mapping|
    && forall i {:trigger l'.mapping[i]} :: 0 <= i < |l.mapping| && l.mapping[i] >= 0 ==> l'.mapping[i] == l.mapping[i]
  }

  lemma RefinedKeepsMapped(l: Lineage, l': Lineage, m: int)
    requires Refined(l, l') && Mapped(l, m)
    ensures Mapped(l', m)
  {
    var i :| 0 <= i < |l.mapping| && l.mapping[i] == m;
    assert l'.mapping[i] == m;
  }

  /** Growth of the lineages and the queue loses no line. */
  lemma LiveGrows(store: map<nat, Lineage>, queue: map<Rev, Unit>, store': map<nat, Lineage>, queue': map<Rev, Unit>, m: int)
    requires Extended(store, queue, store', queue') && Live(store, queue, m)
    ensures Live(store', queue', m)
  {
    var r :| CarriedBy(store, queue, r, m);
    assert r in queue';
    RefinedKeepsMapped(store[queue[r].lineage], store'[queue[r].lineage], m);
    assert CarriedBy(store', queue', r, m);
  }

  /** What the first half of a parent's lineage knows: for each element of the common
      subsequence, the final line it stands for. */
  ghost predicate SourceOk(file: seq<Line>, lcs: seq<Line>, src: seq<int>) {
    && |src| <= |lcs|
    && forall k {:trigger src[k]} :: 0 <= k < |src| ==> src[k] == -1 || (0 <= src[k] < |file| && file[src[k]] == lcs[k])
  }

  /** The first `n` lines of the lineage have been copied or touched, and nothing else has. */
  ghost predicate Marked(l: Lineage, copied0: set<int>, touched0: set<int>, copied: set<int>, touched: set<int>, n: nat) {
    && copied0 <= copied && touched0 <= touched
    && (forall i {:trigger l.mapping[i]} :: 0 <= i < n && i < |l.mapping| && l.mapping[i] >= 0 ==>
          l.mapping[i] in copied || l.mapping[i] in touched)
    && (forall m :: m in copied && m !in copied0 ==> Mapped(l, m))
    && (forall m :: m in touched && m !in touched0 ==> Mapped(l, m))
  }

  ghost predicate CommonSubsequences(lcs: (seq<Line>, seq<Line>) -> seq<Line>) {
    forall a, b {:trigger lcs(a, b)} :: Subsequence(lcs(a, b), a) && Subsequence(lcs(a, b), b)
  }

  /** The queue and the unit in progress are well-formed and the unit is the highest of all. */
  ghost predicate AtWork(h: History, file: seq<Line>, store: map<nat, Lineage>, next: nat, queue: map<Rev, Unit>,
                         equivalent: map<int, int>, u: Unit) {
    && QueueOk(h, file, store, queue) && UnitOk(h, file, store, u) && EquivalentOk(file, equivalent)
    && (forall id :: id in store ==> id < next)
    && (forall r {:trigger queue[r]} :: r in queue ==> queue[r].height < u.height)
  }

  /** Nothing that was queued or stored is lost. */
  ghost predicate Extended(store: map<nat, Lineage>, queue: map<Rev, Unit>, store': map<nat, Lineage>, queue': map<Rev, Unit>) {
    && Grown(store, store')
    && forall r {:trigger queue'[r]} {:trigger r in queue'} :: r in queue ==> r in queue' && queue'[r] == queue[r]
  }

  /** An interesting ancestor in which the file exists is lower and well described. */
  lemma AncestorFacts(h: History, u: Unit, p: Rev)
    requires h.Valid() && h.Live(u.revision) && InterestingOk(h, u) && p in u.interesting
    ensures p != u.revision && p in h.content
    ensures h.Live(p) ==> h.Known(p) && h.Below(p, u.revision)
    ensures !u.marked ==> h.Live(p) && h.content[p] == h.content[u.revision] && h.marks[p] == {p}
  {
    assert h.Known(u.revision);
    if h.Live(p) {
      assert h.Known(p);
    }
  }

  lemma StoreAdded(h: History, file: seq<Line>, store: map<nat, Lineage>, next: nat, queue: map<Rev, Unit>,
                   equivalent: map<int, int>, u: Unit, l: Lineage)
    requires AtWork(h, file, store, next, queue, equivalent, u)
    ensures AtWork(h, file, store[next := l], next + 1, queue, equivalent, u)
    ensures Extended(store, queue, store[next := l], queue)
  {
  }

  lemma UnitAdded(h: History, file: seq<Line>, store: map<nat, Lineage>, next: nat, queue: map<Rev, Unit>,
                  equivalent: map<int, int>, u: Unit, v: Unit)
    requires AtWork(h, file, store, next, queue, equivalent, u) && v.revision !in queue
    requires UnitOk(h, file, store, v) && v.height < u.height
    ensures AtWork(h, file, store, next, queue[v.revision := v], equivalent, u)
    ensures Extended(store, queue, store, queue[v.revision := v])
  {
  }

  lemma Merged(h: History, file: seq<Line>, store: map<nat, Lineage>, next: nat, queue: map<Rev, Unit>,
               equivalent: map<int, int>, u: Unit, id: nat, l: Lineage, equivalent': map<int, int>)
    requires AtWork(h, file, store, next, queue, equivalent, u)
    requires id in store && LineageOk(file, l) && Refined(store[id], l)
    requires EquivalentOk(file, equivalent')
    ensures AtWork(h, file, store[id := l], next, queue, equivalent', u)
    ensures Extended(store, queue, store[id := l], queue)
  {
  }

  lemma ExtendedTransitive(s0: map<nat, Lineage>, q0: map<Rev, Unit>, s1: map<nat, Lineage>, q1: map<Rev, Unit>,
                           s2: map<nat, Lineage>, q2: map<Rev, Unit>)
    requires Extended(s0, q0, s1, q1) && Extended(s1, q1, s2, q2)
    ensures Extended(s0, q0, s2, q2)
  {
    forall id | id in s0 ensures id in s2 && Refined(s0[id], s2[id]) {
      assert id in s1 && Refined(s0[id], s1[id]);
      assert id in s2 && Refined(s1[id], s2[id]);
      forall i | 0 <= i < |s0[id].mapping| && s0[id].mapping[i] >= 0 ensures s2[id].mapping[i] == s0[id].mapping[i] {
        assert s1[id].mapping[i] == s0[id].mapping[i];
      }
    }
    forall r | r in q0 ensures r in q2 && q2[r] == q0[r] {
      assert r in q1 && q1[r] == q0[r];
    }
  }

  // ---------- crediting ----------

  function Credited(annotations: seq<Rev>): nat {
    if annotations == [] then 0
    else Credited(annotations[..|annotations| - 1]) + if annotations[|annotations| - 1] == NullRev then 0 else 1
  }

  lemma {:induction false} CreditedBound(a: seq<Rev>)
    ensures Credited(a) <= |a|
    ensures Credited(a) == |a| <==> forall i :: 0 <= i < |a| ==> a[i] != NullRev
    decreases |a|
  {
    if a != [] {
      CreditedBound(a[..|a| - 1]);
    }
  }

  lemma {:induction false} CreditOne(a: seq<Rev>, i: nat, r: Rev)
    requires i < |a| && a[i] == NullRev
    ensures Credited(a[i := r]) == Credited(a) + if r == NullRev then 0 else 1
    decreases |a|
  {
    var n := |a| - 1;
    if i < n {
      CreditOne(a[..n], i, r);
      assert a[i := r][..n] == a[..n][i := r];
    } else {
      assert a[i := r][..n] == a[..n];
    }
  }

  /** Every credited line occurs in the version of the file of the revision credited. */
  ghost predicate CreditsOk(h: History, file: seq<Line>, annotations: seq<Rev>) {
    && |annotations| == |file|
    && forall m {:trigger annotations[m]} :: 0 <= m < |file| && annotations[m] != NullRev ==> Occurs(h, annotations[m], file[m])
  }

  ghost predicate Occurs(h: History, r: Rev, line: Line) {
    h.Live(r) && h.content[r] in h.lines && line in h.lines[h.content[r]]
  }

  lemma MappedOccurs(h: History, file: seq<Line>, store: map<nat, Lineage>, u: Unit, m: int)
    requires UnitOk(h, file, store, u) && Mapped(store[u.lineage], m)
    ensures 0 <= m < |file| && Occurs(h, u.revision, file[m])
  {
    var l := store[u.lineage];
    var i :| 0 <= i < |l.mapping| && l.mapping[i] == m;
    assert file[m] == l.lines[i];
  }
}
