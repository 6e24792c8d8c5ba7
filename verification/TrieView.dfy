/** What a trie looks like from outside: a lookup by the digits of a key, and the two facts
    on which copy-on-write rests: a path of solely owned nodes can be written without anyone
    else noticing, and writing its leaf changes one key. */
module TrieView {
  import opened TrieMemory

  /** The digits of a key, most significant first: the bit groups `walk` extracts. */
  type Digits = seq<nat>

  ghost function Lookup(node: map<Ref, Node>, r: Ref, d: Digits): Value
    decreases |d|
  {
    if d == [] || r !in node then Empty
    else if |d| == 1 then (if d[0] < |node[r].vals| then node[r].vals[d[0]] else Empty)
    else if d[0] < |node[r].kids| then Lookup(node, node[r].kids[d[0]], d[1..]) else Empty
  }

  /** Lookups only read nodes of the level of the start and below. */
  lemma {:induction false} LookupAgree(node: map<Ref, Node>, node': map<Ref, Node>, r: Ref, d: Digits)
    requires NodesOk(node) && |d| > 0 && 0 !in node' && IsPtr(node, r, |d| - 1)
    requires forall q {:trigger node'[q]} {:trigger q in node'} :: q in node && node[q].level < |d| ==> q in node' && node'[q] == node[q]
    ensures Lookup(node', r, d) == Lookup(node, r, d)
    decreases |d|
  {
    if r != 0 && |d| > 1 {
      assert NodeOk(node, r);
      if d[0] < W {
        assert IsPtr(node, node[r].kids[d[0]], |d| - 2);
        LookupAgree(node, node', node[r].kids[d[0]], d[1..]);
      }
    }
  }

  // ---------- solely owned paths ----------

  /** Following `d` from `l`, every node has the place it was reached through as its only
      pointer. */
  ghost predicate PathOwned(s: State, l: Loc, d: Digits)
    decreases |d|
  {
    && |d| > 0 && ValidLoc(s, l)
    && var r := Load(s, l);
       && r in s.node && s.node[r].level == |d| - 1 && Sole(s, r, l)
       && (|d| > 1 ==> PathOwned(s, Slot(r, d[0]), d[1..]))
  }

  ghost function OnPath(s: State, l: Loc, d: Digits): set<Ref>
    requires PathOwned(s, l, d)
    decreases |d|
  {
    {Load(s, l)} + if |d| > 1 then OnPath(s, Slot(Load(s, l), d[0]), d[1..]) else {}
  }

  ghost function PathEnd(s: State, l: Loc, d: Digits): (r: Ref)
    requires PathOwned(s, l, d)
    ensures r in s.node && s.node[r].level == 0
    decreases |d|
  {
    if |d| > 1 then PathEnd(s, Slot(Load(s, l), d[0]), d[1..]) else Load(s, l)
  }

  lemma {:induction false} PathEndOk(s: State, l: Loc, d: Digits)
    requires PathOwned(s, l, d)
    ensures PathEnd(s, l, d) in OnPath(s, l, d)
    ensures Lookup(s.node, Load(s, l), d) == Lookup(s.node, PathEnd(s, l, d), [d[|d| - 1]])
    decreases |d|
  {
    if |d| > 1 {
      PathEndOk(s, Slot(Load(s, l), d[0]), d[1..]);
    }
  }

  lemma {:induction false} OnPathLevel(s: State, l: Loc, d: Digits, r: Ref)
    requires PathOwned(s, l, d) && r in OnPath(s, l, d)
    ensures r in s.node && s.node[r].level < |d|
    decreases |d|
  {
    if |d| > 1 && r != Load(s, l) {
      OnPathLevel(s, Slot(Load(s, l), d[0]), d[1..], r);
    }
  }

  /** A pointer into the path is the entry or a slot of the path. */
  lemma {:induction false} PathIsClosed(s: State, l: Loc, d: Digits, r: Ref, m: Loc)
    requires PathOwned(s, l, d) && r in OnPath(s, l, d)
    requires ValidLoc(s, m) && Load(s, m) == r
    ensures m == l || (m.Slot? && m.r in OnPath(s, l, d))
    decreases |d|
  {
    InPtrsTo(s, r, m);
    if |d| > 1 && r != Load(s, l) {
      PathIsClosed(s, Slot(Load(s, l), d[0]), d[1..], r, m);
    }
  }

  /** Isolation: seen from a node outside the path, a change confined to the path is
      invisible. */
  lemma {:induction false} Isolated(s: State, node: map<Ref, Node>, l: Loc, d: Digits, r: Ref, e: Digits)
    requires WellFormed(s) && PathOwned(s, l, d) && NodesOk(node)
    requires |e| > 0 && (l.Slot? ==> |e| <= |d|)
    requires IsPtr(node, r, |e| - 1) && IsPtr(s.node, r, |e| - 1) && (r == 0 || r !in OnPath(s, l, d))
    requires forall q {:trigger s.node[q]} ::
               q in node && q in s.node && q !in OnPath(s, l, d) && (l.Slot? ==> q != l.r) ==> node[q] == s.node[q]
    ensures Lookup(node, r, e) == Lookup(s.node, r, e)
    decreases |e|
  {
    if r != 0 {
      assert l.Slot? ==> r != l.r by {
        if l.Slot? { LoadOk(s, l); }
      }
      assert node[r] == s.node[r];
      if |e| > 1 {
        assert NodeOk(s.node, r) && NodeOk(node, r);
        if e[0] < W {
          var c := s.node[r].kids[e[0]];
          assert IsPtr(s.node, c, |e| - 2) && IsPtr(node, c, |e| - 2);
          if c in OnPath(s, l, d) {
            PathIsClosed(s, l, d, c, Slot(r, e[0]));
          }
          Isolated(s, node, l, d, c, e[1..]);
        }
      }
    }
  }

  /** The one effect of writing the leaf at the end of a path. */
  lemma {:induction false} WriteEffect(s: State, node: map<Ref, Node>, l: Loc, d: Digits, v: Value, e: Digits)
    requires WellFormed(s) && PathOwned(s, l, d) && d[|d| - 1] < W && |e| == |d|
    requires var leaf := PathEnd(s, l, d);
             && |s.node[leaf].vals| == W
             && node == s.node[leaf := s.node[leaf].(vals := s.node[leaf].vals[d[|d| - 1] := v])]
    requires NodesOk(node)
    ensures Lookup(node, Load(s, l), e) == if e == d then v else Lookup(s.node, Load(s, l), e)
    decreases |d|
  {
    var r := Load(s, l);
    PathEndOk(s, l, d);
    if |d| == 1 {
      assert e == [e[0]] && d == [d[0]];
    } else {
      var l1 := Slot(r, d[0]);
      assert e == [e[0]] + e[1..] && d == [d[0]] + d[1..];
      PathEndOk(s, l1, d[1..]);
      assert NodeOk(s.node, r);
      if e[0] == d[0] {
        WriteEffect(s, node, l1, d[1..], v, e[1..]);
      } else if e[0] < W {
        var c := s.node[r].kids[e[0]];
        assert IsPtr(s.node, c, |e| - 2);
        if c in OnPath(s, l1, d[1..]) {
          PathIsClosed(s, l1, d[1..], c, Slot(r, e[0]));
          OnPathLevel(s, l1, d[1..], r);
        }
        Isolated(s, node, l1, d[1..], c, e[1..]);
      }
    }
  }
}
