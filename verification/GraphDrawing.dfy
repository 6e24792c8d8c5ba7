/** The characters of one chunk of the ASCII revision graph: a line with the revision, the glyphs of
    the links below it, and the bars with which they can be stretched. */
module GraphDrawing {
  import opened Ordered
  import opened GraphRows

  /** The cell between the lines in which a link shows. */
  function GlyphAt(l: Link): nat {
    if l.0 == l.1 then 2 * l.0 else if l.1 < l.0 then 2 * l.1 + 1 else 2 * l.1 - 1
  }

  function Glyph(l: Link): char {
    if l.0 == l.1 then '|' else if l.1 < l.0 then '/' else '\\'
  }

  /** No two links want different glyphs in the same cell. */
  ghost predicate NoClash(links: set<Link>) {
    forall a, b :: a in links && b in links && GlyphAt(a) == GlyphAt(b) ==> Glyph(a) == Glyph(b)
  }

  /** The dashes of a long link. */
  function Start(l: Link): nat {
    if l.1 < l.0 then 2 * l.1 + 3 else 2 * l.0 + 1
  }

  function End(l: Link): int {
    if l.1 < l.0 then 2 * l.0 else 2 * l.1 - 2
  }

  predicate Dashed(l: Link, x: nat) {
    l.0 != l.1 && Start(l) <= x < End(l)
  }

  predicate Long(l: Link) {
    l.0 != l.1 && Start(l) < End(l)
  }

  function Dot(l: Link): int {
    if l.1 < l.0 then Start(l) - 1 else End(l)
  }

  /** Nothing but spaces and the glyphs of the links. */
  ghost predicate Interline(s: string, links: set<Link>) {
    && (forall l :: l in links ==> GlyphAt(l) < |s| && s[GlyphAt(l)] == Glyph(l))
    && (forall x {:trigger s[x]} :: 0 <= x < |s| && s[x] != ' ' ==> exists l :: l in links && GlyphAt(l) == x)
  }

  /** The bars that go on in a stretched chunk. */
  ghost predicate Continuation(s: string, links: set<Link>) {
    && (forall l: Link :: l in links ==> 2 * l.1 < |s| && s[2 * l.1] == '|')
    && (forall x {:trigger s[x]} :: 0 <= x < |s| && s[x] != ' ' ==> exists l: Link :: l in links && 2 * l.1 == x)
  }

  ghost predicate InRange(links: set<Link>, curItems: nat, nextItems: nat) {
    forall l :: l in links ==> l.0 < curItems && l.1 < nextItems
  }

  method Blank(n: nat) returns (s: string)
    ensures |s| == n && forall x :: 0 <= x < n ==> s[x] == ' '
  {
    s := seq(n, _ => ' ');
  }

  function Max(a: nat, b: nat): nat {
    if a > b then a else b
  }

  /** The bars of all columns but the ghosts. */
  method Bars(len: nat, items: nat, ghosts: set<nat>) returns (line: string)
    requires 2 * items <= len && forall g :: g in ghosts ==> g < items
    ensures |line| == len
    ensures forall x {:trigger line[x]} :: 0 <= x < len ==>
      line[x] == if x % 2 == 0 && x / 2 < items && x / 2 !in ghosts then '|' else ' '
  {
    line := Blank(len);
    for i := 0 to items
      invariant |line| == len && forall x {:trigger line[x]} :: 0 <= x < len ==>
        line[x] == if x % 2 == 0 && x / 2 < i then '|' else ' '
    {
      line := line[i * 2 := '|'];
    }
    var todo := ghosts;
    while todo != {}
      invariant todo <= ghosts && |line| == len
      invariant forall x {:trigger line[x]} :: 0 <= x < len ==>
        line[x] == if x % 2 == 0 && x / 2 < items && (x / 2 !in ghosts || x / 2 in todo) then '|' else ' '
      decreases |todo|
    {
      var g :| g in todo;
      line := line[g * 2 := ' '];
      todo := todo - {g};
    }
  }

  predicate DashAt(links: set<Link>, x: nat) {
    exists l :: l in links && Dashed(l, x)
  }

  predicate DotAt(links: set<Link>, x: nat) {
    exists l :: l in links && Long(l) && Dot(l) == x
  }

  /** The dashes of one link. */
  method DrawDashes(line: string, l: Link) returns (line': string)
    requires l.0 != l.1 && Start(l) < End(l) <= |line|
    ensures |line'| == |line|
    ensures forall x {:trigger line'[x]} :: 0 <= x < |line| ==> line'[x] == if Dashed(l, x) then '-' else line[x]
  {
    line' := line;
    for k := Start(l) to End(l)
      invariant |line'| == |line|
      invariant forall x {:trigger line'[x]} :: 0 <= x < |line| ==> line'[x] == if Start(l) <= x < k then '-' else line[x]
    {
      line' := line'[k := '-'];
    }
  }

  /** The glyph between the lines; every index is inside the row. */
  method DrawGlyph(interline: string, ghost links: set<Link>, l: Link) returns (interline': string)
    requires Interline(interline, links) && NoClash(links + {l}) && GlyphAt(l) < |interline|
    ensures |interline'| == |interline| && Interline(interline', links + {l})
  {
    if l.0 == l.1 {
      interline' := interline[2 * l.0 := '|'];
    } else if l.1 < l.0 {
      var dot := 2 * l.1 + 2;
      interline' := interline[dot - 1 := '/'];
    } else {
      var dot := 2 * l.1 - 2;
      interline' := interline[dot + 1 := '\\'];
    }
    assert interline' == interline[GlyphAt(l) := Glyph(l)];
    forall a | a in links + {l} ensures interline'[GlyphAt(a)] == Glyph(a) {
      assert l in links + {l};
    }
    forall x {:trigger interline'[x]} | 0 <= x < |interline'| && interline'[x] != ' '
      ensures exists a :: a in links + {l} && GlyphAt(a) == x
    {
      if x == GlyphAt(l) {
        assert l in links + {l};
      } else {
        assert interline[x] != ' ';
        var a :| a in links && GlyphAt(a) == x;
        assert a in links + {l};
      }
    }
  }

  method DrawContinuation(s: string, ghost links: set<Link>, l: Link) returns (s': string)
    requires Continuation(s, links) && 2 * l.1 < |s|
    ensures |s'| == |s| && Continuation(s', links + {l})
  {
    s' := s[l.1 * 2 := '|'];
    forall x {:trigger s'[x]} | 0 <= x < |s'| && s'[x] != ' ' ensures exists a: Link :: a in links + {l} && 2 * a.1 == x {
      if x == 2 * l.1 {
        assert l in links + {l};
      } else {
        assert s[x] != ' ';
        var a: Link :| a in links && 2 * a.1 == x;
        assert a in links + {l};
      }
    }
  }

  /** The line of the revision: `o` for it, dots and dashes for long links, bars otherwise. */
  ghost predicate LineOk(line: string, links: set<Link>, items: nat, ghosts: set<nat>, loc: nat) {
    forall x {:trigger line[x]} :: 0 <= x < |line| ==>
      line[x] == if x == 2 * loc then 'o' else if DotAt(links, x) then '.' else if DashAt(links, x) then '-'
                 else if x % 2 == 0 && x / 2 < items && x / 2 !in ghosts then '|' else ' '
  }

  datatype Drawing = Drawing(line: string, interline: string, stretch: string)

  ghost predicate DashesOn(line: string, bars: string, links: set<Link>) {
    |line| == |bars| && forall x {:trigger line[x]} :: 0 <= x < |line| ==> line[x] == if DashAt(links, x) then '-' else bars[x]
  }

  method DashLink(line: string, ghost bars: string, ghost links: set<Link>, l: Link) returns (line': string)
    requires DashesOn(line, bars, links) && End(l) <= |line|
    ensures DashesOn(line', bars, links + {l})
  {
    DashMore(links, l);
    line' := line;
    if l.0 != l.1 && End(l) > Start(l) {
      line' := DrawDashes(line, l);
    }
  }

  lemma DashMore(links: set<Link>, l: Link)
    ensures forall x :: DashAt(links + {l}, x) <==> DashAt(links, x) || Dashed(l, x)
  {
    forall x ensures DashAt(links + {l}, x) <==> DashAt(links, x) || Dashed(l, x) {
      if DashAt(links, x) {
        var a :| a in links && Dashed(a, x);
        assert a in links + {l};
      }
      if Dashed(l, x) {
        assert l in links + {l};
      }
    }
  }

  lemma FewerClash(links: set<Link>, some: set<Link>, l: Link)
    requires NoClash(links) && some <= links && l in links
    ensures NoClash(some + {l})
  {
  }

  /** All links of a chunk; the dots are left for a second pass. */
  method DrawLinks(bars: string, links: set<Link>, ghost curItems: nat, ghost nextItems: nat)
      returns (line: string, interline: string, stretch: string)
    requires InRange(links, curItems, nextItems) && NoClash(links) && 2 * Max(curItems, nextItems) <= |bars|
    ensures DashesOn(line, bars, links)
    ensures |interline| == |bars| && Interline(interline, links)
    ensures |stretch| == |bars| && Continuation(stretch, links)
  {
    line := bars;
    interline := Blank(|bars|);
    stretch := Blank(|bars|);
    var todo := links;
    ghost var done := {};
    while todo != {}
      invariant Split2(links, done, todo)
      invariant DashesOn(line, bars, done)
      invariant |interline| == |bars| && Interline(interline, done)
      invariant |stretch| == |bars| && Continuation(stretch, done)
      decreases |todo|
    {
      var l :| l in todo;
      assert l in links;
      FewerClash(links, done, l);
      line := DashLink(line, bars, done, l);
      interline := DrawGlyph(interline, done, l);
      stretch := DrawContinuation(stretch, done, l);
      MoveOne(links, done, todo, l);
      done, todo := done + {l}, todo - {l};
    }
    assert done == links;
  }

  /** The dots, after all dashes. */
  method DrawDots(line: string, links: set<Link>) returns (line': string)
    requires forall l :: l in links && Long(l) ==> 0 <= Dot(l) < |line|
    ensures |line'| == |line|
    ensures forall x {:trigger line'[x]} :: 0 <= x < |line| ==> line'[x] == if DotAt(links, x) then '.' else line[x]
  {
    line' := line;
    var todo := links;
    while todo != {}
      invariant todo <= links && |line'| == |line|
      invariant forall x {:trigger line'[x]} :: 0 <= x < |line| ==> line'[x] == if DotAt(links - todo, x) then '.' else line[x]
      decreases |todo|
    {
      var l :| l in todo;
      ghost var done := links - todo;
      if l.0 != l.1 && End(l) > Start(l) {
        line' := line'[Dot(l) := '.'];
      }
      DotMore(done, l);
      todo := todo - {l};
      assert links - todo == done + {l};
    }
    assert links - todo == links;
  }

  lemma DotMore(links: set<Link>, l: Link)
    ensures forall x :: DotAt(links + {l}, x) <==> DotAt(links, x) || (Long(l) && Dot(l) == x)
  {
    forall x ensures DotAt(links + {l}, x) <==> DotAt(links, x) || (Long(l) && Dot(l) == x) {
      if DotAt(links, x) {
        var a :| a in links && Long(a) && Dot(a) == x;
        assert a in links + {l};
      }
      if Long(l) && Dot(l) == x {
        assert l in links + {l};
      }
    }
  }
}
