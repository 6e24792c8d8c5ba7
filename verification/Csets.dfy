/** Change sets. */
module Csets {
  import opened Paths
  import opened Rosters
  import opened Ordered

  datatype Cset = Cset(
    deleted: set<FilePath>,
    dirs: set<FilePath>,
    files: map<FilePath, FileId>,
    renamed: map<FilePath, FilePath>,
    deltas: map<FilePath, (FileId, FileId)>,
    cleared: set<(FilePath, AttrKey)>,
    attrs: map<(FilePath, AttrKey), AttrValue>)

  /** The order of (path, attribute) pairs. */
  predicate PairLess(a: (FilePath, AttrKey), b: (FilePath, AttrKey)) {
    Less(a.0, b.0) || (a.0 == b.0 && BytesLess(a.1, b.1))
  }

  lemma PathsOrdered()
    ensures TotalOrder(Less)
  {
    forall a: FilePath, b: FilePath ensures (a == b || Less(a, b) || Less(b, a)) && !Less(a, a) {
      LessTrichotomy(a, b);
    }
    forall a: FilePath, b: FilePath, c: FilePath | Less(a, b) && Less(b, c) ensures Less(a, c) {
      LessTransitive(a, b, c);
    }
  }

  lemma PairTrichotomy(a: (FilePath, AttrKey), b: (FilePath, AttrKey))
    ensures a == b || PairLess(a, b) || PairLess(b, a)
    ensures !(PairLess(a, b) && PairLess(b, a)) && !PairLess(a, a)
  {
    LessTrichotomy(a.0, b.0);
    LessTrichotomy(a.0, a.0);
    BytesTrichotomy(a.1, b.1);
    BytesTrichotomy(a.1, a.1);
  }

  lemma PairTransitive(a: (FilePath, AttrKey), b: (FilePath, AttrKey), c: (FilePath, AttrKey))
    requires PairLess(a, b) && PairLess(b, c)
    ensures PairLess(a, c)
  {
    if Less(a.0, b.0) && Less(b.0, c.0) {
      LessTransitive(a.0, b.0, c.0);
    } else if a.0 == b.0 == c.0 {
      LessTrichotomy(a.0, a.0);
      BytesTransitive(a.1, b.1, c.1);
    }
  }

  lemma PairsOrdered()
    ensures TotalOrder(PairLess)
  {
    forall a, b ensures (a == b || PairLess(a, b) || PairLess(b, a)) && !PairLess(a, a) {
      PairTrichotomy(a, b);
    }
    forall a, b, c | PairLess(a, b) && PairLess(b, c) ensures PairLess(a, c) {
      PairTransitive(a, b, c);
    }
  }

  /** The next path in the order of sets and maps of paths. */
  method FirstPath(todo: set<FilePath>) returns (p: FilePath)
    requires todo != {}
    ensures p in todo && forall q :: q in todo && q != p ==> Less(p, q)
  {
    PathsOrdered();
    p := Least(todo, Less);
  }

  /** The next pair in the order of sets and maps of attributes. */
  method FirstPair(todo: set<(FilePath, AttrKey)>) returns (a: (FilePath, AttrKey))
    requires todo != {}
    ensures a in todo && forall b :: b in todo && b != a ==> PairLess(a, b)
  {
    PairsOrdered();
    a := Least(todo, PairLess);
  }

  /** No file is both added and patched, no attribute both cleared and set. */
  predicate Normalized(cs: Cset) {
    cs.files.Keys !! cs.deltas.Keys && cs.cleared !! cs.attrs.Keys
  }

  method CheckNormalized(cs: Cset) returns (ok: bool)
    ensures ok == Normalized(cs) == (cs.files.Keys !! cs.deltas.Keys && cs.cleared !! cs.attrs.Keys)
  {
    PathsOrdered();
    PairsOrdered();
    var a := InOrder(cs.files.Keys, Less);
    var d := InOrder(cs.deltas.Keys, Less);
    ok := NoneShared(a, d, Less);
    if ok {
      assert cs.files.Keys !! cs.deltas.Keys by {
        forall x | x in cs.files.Keys ensures x !in cs.deltas.Keys {
          assert x in a;
        }
      }
      var c := InOrder(cs.cleared, PairLess);
      var s := InOrder(cs.attrs.Keys, PairLess);
      ok := NoneShared(c, s, PairLess);
      if ok {
        forall x | x in cs.cleared ensures x !in cs.attrs.Keys {
          assert x in c;
        }
      }
    }
  }
}
