/** File paths: the internal string, its components, and the order in which sets and maps of
    paths are iterated. */
module Paths {

  type FilePath = string
  type Name = string

  const Sep: char := '/'

  // ---------- components ----------

  function Split(s: string): (cs: seq<Name>)
    ensures |cs| > 0
  {
    if s == [] then [[]]
    else
      var rest := Split(s[1..]);
      if s[0] == Sep then [[]] + rest else [[s[0]] + rest[0]] + rest[1..]
  }

  function Join(cs: seq<Name>): string {
    if cs == [] then [] else if |cs| == 1 then cs[0] else cs[0] + [Sep] + Join(cs[1..])
  }

  /** The empty path is the root directory and has no components. */
  function Components(p: FilePath): seq<Name> {
    if p == [] then [] else Split(p)
  }

  lemma {:induction false} JoinSplit(s: string)
    ensures Join(Split(s)) == s
    decreases |s|
  {
    if s != [] {
      var rest := Split(s[1..]);
      JoinSplit(s[1..]);
      assert s == [s[0]] + s[1..];
      if s[0] == Sep {
        assert ([[]] + rest)[1..] == rest;
      } else {
        var cs := [[s[0]] + rest[0]] + rest[1..];
        if |rest| > 1 {
          assert cs[1..] == rest[1..];
        }
      }
    }
  }

  /** A path is known by its components. */
  lemma ComponentsInjective(p: FilePath, q: FilePath)
    requires Components(p) == Components(q)
    ensures p == q
  {
    JoinSplit(p);
    JoinSplit(q);
  }

  lemma {:induction false} NoSepInside(s: string)
    ensures forall c :: c in Split(s) ==> Sep !in c
    decreases |s|
  {
    if s != [] {
      NoSepInside(s[1..]);
    }
  }

  lemma {:induction false} SplitAppend(a: string, c: Name)
    requires Sep !in c
    ensures Split(a + [Sep] + c) == Split(a) + [c]
    decreases |a|
  {
    var s := a + [Sep] + c;
    if a == [] {
      assert s[1..] == c;
      SplitWhole(c);
    } else {
      assert s[1..] == a[1..] + [Sep] + c;
      SplitAppend(a[1..], c);
    }
  }

  lemma {:induction false} SplitWhole(c: Name)
    requires Sep !in c
    ensures Split(c) == [c]
  {
    if c != [] {
      SplitWhole(c[1..]);
      assert c == [c[0]] + c[1..];
    }
  }

  lemma {:induction false} SplitFirst(s: string, k: nat)
    requires k < |s| && s[k] == Sep && Sep !in s[..k]
    ensures Split(s) == [s[..k]] + Split(s[k + 1..])
    decreases k
  {
    if k > 0 {
      assert s[1..][..k - 1] == s[..k][1..];
      SplitFirst(s[1..], k - 1);
      assert s[..k] == [s[0]] + s[1..][..k - 1];
      assert s[0] in s[..k];
    } else {
      assert s[..0] == [];
    }
  }

  method FindSep(p: FilePath, start: nat) returns (stop: nat)
    requires start <= |p|
    ensures start <= stop <= |p| && Sep !in p[start..stop] && (stop < |p| ==> p[stop] == Sep)
  {
    stop := start;
    while stop < |p| && p[stop] != Sep
      invariant start <= stop <= |p| && Sep !in p[start..stop]
    {
      assert p[start..stop + 1] == p[start..stop] + [p[stop]];
      stop := stop + 1;
    }
  }

  /** The end of the component that starts at `start`. */
  method NextSep(p: FilePath, start: nat) returns (stop: nat)
    requires start <= |p|
    ensures start <= stop <= |p| && Split(p[start..])[0] == p[start..stop]
    ensures stop == |p| ==> |Split(p[start..])| == 1
    ensures stop < |p| ==> Split(p[start..])[1..] == Split(p[stop + 1..])
  {
    stop := FindSep(p, start);
    ghost var s, k := p[start..], stop - start;
    assert s[..k] == p[start..stop];
    if stop == |p| {
      assert s[..k] == s;
      SplitWhole(s);
    } else {
      assert s[k + 1..] == p[stop + 1..] && s[k] == Sep;
      SplitFirst(s, k);
    }
  }

  /** No component is empty, as in every normalized path. */
  predicate Normal(p: FilePath) {
    forall c :: c in Components(p) ==> c != []
  }

  /** `dirname_basename`: cut at the last separator. */
  method DirnameBasename(p: FilePath) returns (dir: FilePath, base: Name)
    requires Normal(p)
    ensures p == [] ==> dir == [] && base == []
    ensures p != [] ==> Components(dir) + [base] == Components(p) && base != [] && Normal(dir)
  {
    var i := |p|;
    while i > 0 && p[i - 1] != Sep
      invariant 0 <= i <= |p| && Sep !in p[i..]
    {
      assert p[i - 1..] == [p[i - 1]] + p[i..];
      i := i - 1;
    }
    if i == 0 {
      dir, base := [], p;
      assert p[0..] == p;
      SplitWhole(p);
      assert base in Components(p) || p == [];
    } else {
      dir, base := p[..i - 1], p[i..];
      assert p == dir + [Sep] + base;
      SplitAppend(dir, base);
      var cs := Split(dir) + [base];
      assert base in cs;
      assert forall c :: c in Split(dir) ==> c in cs;
      assert dir == [] ==> [] in Split(dir);
    }
  }

  // ---------- order ----------

  /** `operator<` on paths: the end of a path comes first, then the separator, then the other
      bytes by their unsigned value. */
  predicate Less(p: FilePath, q: FilePath) {
    if q == [] then false
    else if p == [] then true
    else if p[0] == q[0] then Less(p[1..], q[1..])
    else if p[0] == Sep then true
    else if q[0] == Sep then false
    else p[0] < q[0]
  }

  /** The loop of `operator<`. */
  method LessThan(p: FilePath, q: FilePath) returns (less: bool)
    ensures less == Less(p, q)
  {
    var i := 0;
    assert p[0..] == p && q[0..] == q;
    while i < |p| && i < |q| && p[i] == q[i]
      invariant 0 <= i <= |p| && i <= |q| && Less(p[i..], q[i..]) == Less(p, q)
    {
      assert p[i..][1..] == p[i + 1..] && q[i..][1..] == q[i + 1..];
      i := i + 1;
    }
    if i == |p| && i == |q| {
      return false;
    }
    if i == |p| {
      return true;
    }
    if i == |q| {
      return false;
    }
    if p[i] == Sep {
      return true;
    }
    if q[i] == Sep {
      return false;
    }
    return p[i] < q[i];
  }

  lemma {:induction false} LessTrichotomy(p: FilePath, q: FilePath)
    ensures p == q || Less(p, q) || Less(q, p)
    ensures !(Less(p, q) && Less(q, p)) && !Less(p, p)
    decreases |p|
  {
    if p != [] {
      LessTrichotomy(p[1..], if q == [] then [] else q[1..]);
      if q != [] && p[0] == q[0] && p[1..] == q[1..] {
        assert p == [p[0]] + p[1..] && q == [q[0]] + q[1..];
      }
    }
  }

  lemma {:induction false} LessTransitive(p: FilePath, q: FilePath, r: FilePath)
    requires Less(p, q) && Less(q, r)
    ensures Less(p, r)
    decreases |p|
  {
    if p != [] && p[0] == q[0] == r[0] {
      LessTransitive(p[1..], q[1..], r[1..]);
    }
  }

  /** Plain byte order, as for components and attribute names. */
  predicate BytesLess(a: string, b: string) {
    if b == [] then false
    else if a == [] then true
    else if a[0] == b[0] then BytesLess(a[1..], b[1..])
    else a[0] < b[0]
  }

  lemma {:induction false} BytesTrichotomy(a: string, b: string)
    ensures a == b || BytesLess(a, b) || BytesLess(b, a)
    ensures !(BytesLess(a, b) && BytesLess(b, a)) && !BytesLess(a, a)
    decreases |a|
  {
    if a != [] {
      BytesTrichotomy(a[1..], if b == [] then [] else b[1..]);
      if b != [] && a[0] == b[0] && a[1..] == b[1..] {
        assert a == [a[0]] + a[1..] && b == [b[0]] + b[1..];
      }
    }
  }

  lemma {:induction false} BytesTransitive(a: string, b: string, c: string)
    requires BytesLess(a, b) && BytesLess(b, c)
    ensures BytesLess(a, c)
    decreases |a|
  {
    if a != [] && a[0] == b[0] == c[0] {
      BytesTransitive(a[1..], b[1..], c[1..]);
    }
  }

  /** Component by component, a directory before everything beneath it. */
  predicate ComponentsLess(a: seq<Name>, b: seq<Name>) {
    if b == [] then false
    else if a == [] then true
    else if a[0] == b[0] then ComponentsLess(a[1..], b[1..])
    else BytesLess(a[0], b[0])
  }

  /** The byte-wise order of the strings is the component-wise order of the paths. */
  lemma LessIsComponentwise(p: FilePath, q: FilePath)
    ensures Less(p, q) <==> ComponentsLess(Components(p), Components(q))
  {
    if p != [] && q != [] {
      SplitLess(p, q);
    }
  }

  lemma {:induction false} SplitLess(p: string, q: string)
    ensures Less(p, q) <==> ComponentsLess(Split(p), Split(q))
    decreases |p|
  {
    if p != [] && q != [] {
      SplitLess(p[1..], q[1..]);
      var a, b := Split(p[1..]), Split(q[1..]);
      if p[0] == q[0] {
        if p[0] == Sep {
          assert Split(p) == [[]] + a && Split(q) == [[]] + b;
          assert Split(p)[0] == Split(q)[0] == [] && Split(p)[1..] == a && Split(q)[1..] == b;
        } else {
          var a', b' := [p[0]] + a[0], [q[0]] + b[0];
          assert a'[1..] == a[0] && b'[1..] == b[0];
          assert ([a'] + a[1..])[1..] == a[1..] && ([b'] + b[1..])[1..] == b[1..];
        }
      }
    }
  }

  /** A directory comes before everything beneath it. */
  lemma {:induction false} PrefixLess(a: seq<Name>, b: seq<Name>)
    requires a < b
    ensures ComponentsLess(a, b)
    decreases |a|
  {
    if a != [] {
      PrefixLess(a[1..], b[1..]);
    }
  }

  lemma DirectoryFirst(p: FilePath, q: FilePath)
    requires Components(p) < Components(q)
    ensures Less(p, q)
  {
    PrefixLess(Components(p), Components(q));
    LessIsComponentwise(p, q);
  }
}
