/** A change set that comes as text is applied to a tree. */
module CsetDelivery {
  import opened Paths
  import PathRules
  import opened BasicIo
  import Stanzas
  import CsetText
  import CsetStanzas
  import CsetReader
  import CsetWriter
  import CsetRewrite
  import opened Rosters
  import opened Csets
  import opened ApplyTo
  import opened CsetAccept
  import opened CsetRun
  import opened CsetDiffer
  import CsetMake

  lemma ValidIsNormalized(cs: Cset)
    requires CsetText.ValidCset(cs)
    ensures PathsNormal(cs)
  {
    forall p | p in cs.deleted || p in cs.dirs || p in cs.files || p in cs.renamed ensures Normal(p) {
      PathRules.ValidIsNormal(p);
    }
    forall p | p in cs.renamed ensures Normal(cs.renamed[p]) {
      assert CsetText.PairsOk(Stanzas.PathValue, cs.renamed);
      PathRules.ValidIsNormal(cs.renamed[p]);
    }
  }

  /** The change set a text stands for. */
  function Read(text: string): Cset
    requires CsetReader.Accepted(text)
  {
    CsetText.ParseCset(Tokens(text)).value
  }

  lemma ReadIsNormal(text: string)
    requires CsetReader.Accepted(text)
    ensures CsetText.ValidCset(Read(text)) && PathsNormal(Read(text))
  {
    CsetRewrite.TokensLexable(text);
    CsetText.ParsedIsValid(Tokens(text));
    ValidIsNormalized(Read(text));
  }

  /** Any text against any tree: it is accepted exactly if it reads as a change set that is applicable
      to the tree, and then the tree is the one it describes. */
  method ApplyText(text: string, t: Roster) returns (read: bool, ok: bool)
    requires Ok(t.Snap()) && t.places == map[]
    modifies t
    ensures read == CsetReader.Accepted(text)
    ensures read ==> CsetStanzas.Says(Tokens(text), Read(text))
    ensures ok == (read && Applicable(Read(text), old(t.Snap())))
    ensures ok ==> Applied(Read(text), old(t.Snap()), t.Snap()) && Settled(Read(text), old(t.Snap()), t.Snap())
    ensures ok ==> t.places == map[]
    ensures !read ==> t.Snap() == old(t.Snap())
  {
    var cs;
    read, cs := CsetReader.ReadCset(text);
    if !read {
      return false, false;
    }
    ReadIsNormal(text);
    ok := Apply(cs, t);
  }

  /** A change set written as text, read and applied has the effect it has itself. */
  method Deliver(cs: Cset, t: Roster) returns (ok: bool)
    requires CsetText.ValidCset(cs) && Ok(t.Snap()) && t.places == map[]
    modifies t
    ensures ok == Applicable(cs, old(t.Snap()))
    ensures ok ==> Applied(cs, old(t.Snap()), t.Snap()) && Settled(cs, old(t.Snap()), t.Snap()) && t.places == map[]
  {
    var read, cs' := CsetWriter.RoundTrip(cs);
    ValidIsNormalized(cs');
    ok := Apply(cs', t);
  }

  // ---------- the change between two trees ----------

  /** Paths and contents of the tree can be written: valid paths, identifiers of 20 bytes or none. */
  ghost predicate Writable(t: Tree) {
    && (forall p :: At(t, p) != NullNode ==> PathRules.ValidPath(p))
    && (forall n {:trigger t.nodes[n]} :: n in t.nodes && t.nodes[n].kind.File? ==> Stanzas.ValueOk(Stanzas.HexValue, t.nodes[n].kind.content))
  }

  lemma DifferValid(a: Tree, b: Tree, cs: Cset)
    requires Whole(a) && Whole(b) && Writable(a) && Writable(b) && Differs(a, b, cs)
    ensures CsetText.ValidCset(cs)
  {
    NullIsNone(a);
    NullIsNone(b);
    forall p | p in cs.files ensures Stanzas.ValueOk(Stanzas.HexValue, cs.files[p]) {
      assert b.nodes[At(b, p)].kind == File(cs.files[p]);
    }
    forall p | p in cs.deltas ensures Stanzas.ValueOk(Stanzas.HexValue, cs.deltas[p].0) && Stanzas.ValueOk(Stanzas.HexValue, cs.deltas[p].1) {
      assert a.nodes[At(b, p)].kind == File(cs.deltas[p].0) && b.nodes[At(b, p)].kind == File(cs.deltas[p].1);
    }
    forall c | c in cs.cleared || c in cs.attrs ensures PathRules.ValidPath(c.0) {
      assert c == (c.0, c.1);
    }
  }

  /** The change from one tree to another, written as text, read and applied to the first one, gives the
      second, up to the numbers of the nodes that are new. */
  method Transmit(t: Roster, b: Tree) returns (ok: bool)
    requires Whole(t.Snap()) && Whole(b) && Writable(t.Snap()) && Writable(b)
    modifies t
    ensures ok <==> SameTypes(old(t.Snap()), b)
    ensures ok ==> SameTree(old(t.Snap()), b, t.Snap()) && Whole(t.Snap())
  {
    ghost var a := t.Snap();
    var cs;
    ok, cs := CsetMake.Difference(t.Snap(), b);
    if ok {
      DifferValid(a, b, cs);
      DifferApplies(a, b, cs);
      ok := Deliver(cs, t);
      DifferGives(a, b, cs, t.Snap());
      GivesWhole(a, b, cs, t.Snap());
    }
  }
}
