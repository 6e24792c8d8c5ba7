/** Which strings are internal paths. */
module PathRules {
  import opened Paths
  import Utf8

  predicate BadComponent(c: Name) {
    c == [] || c == "." || c == ".."
  }

  predicate BadChar(c: char) {
    c as int <= 0x1f || c as int == 0x5c || c as int == 0x7f
  }

  predicate FullyNormalized(p: FilePath) {
    p == [] ||
    (&& !(|p| > 1 && p[1] == ':')
     && (forall i :: 0 <= i < |p| ==> !BadChar(p[i]))
     && (forall i :: 0 <= i < |Split(p)| ==> !BadComponent(Split(p)[i])))
  }

  predicate InBookkeepingDir(p: FilePath) {
    && |p| >= 4 && p[0] == '_' && (p[1] == 'M' || p[1] == 'm') && (p[2] == 'T' || p[2] == 't')
    && (p[3] == 'N' || p[3] == 'n') && (|p| == 4 || p[4] == Sep)
  }

  predicate IsByte(c: char) {
    c as int < 0x100
  }

  function ToBytes(p: string): seq<Utf8.Byte> {
    seq(|p|, i requires 0 <= i < |p| => p[i] as int % 0x100)
  }

  /** `file_path_internal` accepts valid UTF-8 that is normalized and outside the bookkeeping directory. */
  predicate ValidPath(p: FilePath) {
    && (forall i :: 0 <= i < |p| ==> IsByte(p[i]))
    && Utf8.Accepts(ToBytes(p)) && FullyNormalized(p) && !InBookkeepingDir(p)
  }

  lemma ValidIsNormal(p: FilePath)
    requires ValidPath(p)
    ensures Normal(p)
  {
    forall c | c in Components(p) ensures c != [] {
      var i :| 0 <= i < |Split(p)| && Split(p)[i] == c;
      assert !BadComponent(Split(p)[i]);
    }
  }
}
