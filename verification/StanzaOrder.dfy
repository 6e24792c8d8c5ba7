/** The order of the stanzas in a text that is accepted. */
module StanzaOrder {
  import opened Paths
  import opened BasicIo
  import opened Stanzas
  import opened Sections
  import opened SectionList
  import opened Csets
  import opened CsetText
  import opened CsetStanzas

  function KeyAt(shape: Shape, ts: seq<Token>, i: int): Key
    requires shape != [] && 0 <= i <= |ts| && ParseRow(shape, ts[i..]).Parsed?
  {
    KeyOf(shape, ParseRow(shape, ts[i..]).value)
  }

  /** A stanza that was read, behind the key `prev`. */
  ghost predicate Follows(shape: Shape, ts: seq<Token>, n: int, prev: Key, i: int)
    requires shape != []
  {
    0 <= i < n <= |ts| && Leads(shape, ts, i) ==> ParseRow(shape, ts[i..]).Parsed? && PairLess(prev, KeyAt(shape, ts, i))
  }

  lemma NotRoot(prev: Key, k: Key)
    requires prev.0 != [] && PairLess(prev, k)
    ensures k.0 != []
  {
  }

  /** Behind a key that is not on the root path everything in its section is greater. */
  lemma {:induction false} SectionFollows(shape: Shape, ts: seq<Token>, prev: Key, acc: Table, n: int, i: int)
    requires LeadsOnce(shape) && ParseSection(shape, ts, prev, acc).Parsed? && prev.0 != []
    requires n == |ts| - |ParseSection(shape, ts, prev, acc).rest|
    ensures Follows(shape, ts, n, prev, i)
    decreases |ts|
  {
    if 0 <= i < n <= |ts| && Leads(shape, ts, i) && Leads(shape, ts, 0) {
      var m := 2 * |shape|;
      var k, row := SectionMore(shape, ts, prev, acc);
      assert ts[0..] == ts;
      NotRoot(prev, k);
      if i > 0 {
        FollowsLater(shape, ts, prev, acc, n, i, m, k, row);
      }
    }
  }

  lemma FollowsLater(shape: Shape, ts: seq<Token>, prev: Key, acc: Table, n: int, i: int, m: nat, k: Key, row: Row)
    requires LeadsOnce(shape) && ParseRow(shape, ts).Parsed? && m == 2 * |shape| <= |ts| && 0 < i < n <= |ts| && Leads(shape, ts, i)
    requires PairLess(prev, k) && k.0 != [] && ParseSection(shape, ts[m..], k, acc[k := row]).Parsed?
    requires n == |ts| - |ParseSection(shape, ts[m..], k, acc[k := row]).rest|
    ensures Follows(shape, ts, n, prev, i)
    decreases |ts|, 0
  {
    if i < m {
      RowLeads(shape, ts, i);
    } else {
      SectionFollows(shape, ts[m..], k, acc[k := row], n - m, i - m);
      Later(shape, ts, m, n, map[], i);
      PairTransitive(prev, k, KeyAt(shape, ts, i));
    }
  }

  /** Of two stanzas, with what follows them, the first is the lesser, unless it is on the root path. */
  ghost predicate Before(shape: Shape, us: seq<Token>, vs: seq<Token>)
    requires shape != []
  {
    && ParseRow(shape, us).Parsed? && ParseRow(shape, vs).Parsed?
    && (KeyOf(shape, ParseRow(shape, us).value).0 != [] ==>
          PairLess(KeyOf(shape, ParseRow(shape, us).value), KeyOf(shape, ParseRow(shape, vs).value)))
  }

  lemma NextLead(shape: Shape, ts: seq<Token>, i: int)
    requires LeadsOnce(shape) && ParseRow(shape, ts).Parsed? && 0 < i && Leads(shape, ts, i)
    ensures i >= 2 * |shape|
  {
    if i < 2 * |shape| {
      RowLeads(shape, ts, i);
    }
  }

  lemma {:induction false} SectionAscends(shape: Shape, ts: seq<Token>, prev: Key, acc: Table, table: Table, rest: seq<Token>, i: int, j: int)
    requires LeadsOnce(shape) && ParseSection(shape, ts, prev, acc) == Parsed(table, rest)
    requires 0 <= i < j < |ts| - |rest| && Leads(shape, ts, i) && Leads(shape, ts, j)
    ensures Before(shape, ts[i..], ts[j..])
    decreases |ts|
  {
    assert Leads(shape, ts, 0);
    var m := 2 * |shape|;
    var k, row := SectionMore(shape, ts, prev, acc);
    NextLead(shape, ts, j);
    if i == 0 {
      FirstBefore(shape, ts, acc, |ts| - |rest|, j, k, row);
      assert ts[0..] == ts;
    } else {
      NextLead(shape, ts, i);
      var tail, x, y := ts[m..], i - m, j - m;
      SectionAscends(shape, tail, k, acc[k := row], table, rest, x, y);
      assert tail[x..] == ts[i..] && tail[y..] == ts[j..];
    }
  }

  lemma FirstBefore(shape: Shape, ts: seq<Token>, acc: Table, n: int, j: int, k: Key, row: Row)
    requires LeadsOnce(shape) && ParseRow(shape, ts).Parsed? && row == ParseRow(shape, ts).value && |row| == |shape| && k == KeyOf(shape, row)
    requires 2 * |shape| <= j < n <= |ts| && Leads(shape, ts, j)
    requires ParseSection(shape, ts[2 * |shape|..], k, acc[k := row]).Parsed?
    requires n == |ts| - |ParseSection(shape, ts[2 * |shape|..], k, acc[k := row]).rest|
    ensures Before(shape, ts, ts[j..])
  {
    var m := 2 * |shape|;
    var tail, x := ts[m..], j - m;
    assert tail[x..] == ts[j..];
    LeadParses(shape, tail, k, acc[k := row], x);
    if k.0 != [] {
      SectionFollows(shape, tail, k, acc[k := row], n - m, x);
    }
  }

  lemma LeadParses(shape: Shape, ts: seq<Token>, prev: Key, acc: Table, i: int)
    requires LeadsOnce(shape) && ParseSection(shape, ts, prev, acc).Parsed?
    requires 0 <= i < |ts| - |ParseSection(shape, ts, prev, acc).rest| && Leads(shape, ts, i)
    ensures ParseRow(shape, ts[i..]).Parsed?
  {
    var r := ParseSection(shape, ts, prev, acc);
    SectionEnters(shape, ts, prev, acc, r.value, r.rest);
  }

  /** Of two stanzas of one shape, wherever they stand in the text. */
  lemma {:induction false} ListAscends(shapes: seq<Shape>, ts: seq<Token>, n: nat, s: nat, i: int, j: int)
    requires Apart(shapes) && (forall x :: 0 <= x < |shapes| ==> shapes[x] != []) && s < |shapes|
    requires ParseSections(shapes, ts).Parsed? && n + |ParseSections(shapes, ts).rest| == |ts|
    requires 0 <= i < j < n && Leads(shapes[s], ts, i) && Leads(shapes[s], ts, j)
    ensures Before(shapes[s], ts[i..], ts[j..])
    decreases |shapes|
  {
    var m := ListMore(shapes, ts);
    ListRest(shapes[1..], ts[m..]);
    if s == 0 {
      FirstAscends(shapes, ts, m, n, i, j);
    } else {
      NotInFirst(shapes, ts, m, n, s, i);
      NotInFirst(shapes, ts, m, n, s, j);
      var tail, x, y := ts[m..], i - m, j - m;
      TailAscends(shapes, tail, n - m, s, x, y);
      assert tail[x..] == ts[i..] && tail[y..] == ts[j..];
    }
  }

  lemma TailAscends(shapes: seq<Shape>, ts: seq<Token>, n: nat, s: nat, i: int, j: int)
    requires Apart(shapes) && (forall x :: 0 <= x < |shapes| ==> shapes[x] != []) && 0 < s < |shapes|
    requires ParseSections(shapes[1..], ts).Parsed? && n + |ParseSections(shapes[1..], ts).rest| == |ts|
    requires 0 <= i < j < n && Leads(shapes[1..][s - 1], ts, i) && Leads(shapes[1..][s - 1], ts, j)
    ensures Before(shapes[s], ts[i..], ts[j..])
    decreases |shapes|, 0
  {
    ApartTail(shapes);
    ListAscends(shapes[1..], ts, n, s - 1, i, j);
  }

  lemma FirstAscends(shapes: seq<Shape>, ts: seq<Token>, m: nat, n: nat, i: int, j: int)
    requires Apart(shapes) && shapes != [] && (forall x :: 0 <= x < |shapes| ==> shapes[x] != []) && m <= n <= |ts|
    requires ParseSection(shapes[0], ts, NoKey, map[]).Parsed? && |ts| - |ParseSection(shapes[0], ts, NoKey, map[]).rest| == m
    requires ParseSections(shapes[1..], ts[m..]).Parsed? && n + |ParseSections(shapes[1..], ts[m..]).rest| == |ts|
    requires 0 <= i < j < n && Leads(shapes[0], ts, i) && Leads(shapes[0], ts, j)
    ensures Before(shapes[0], ts[i..], ts[j..])
  {
    ApartTail(shapes);
    ListSymbols(shapes[1..], ts[m..], shapes[0][0].symbol);
    FirstOnly(shapes[0], ts, m, n, i, j);
    var r := ParseSection(shapes[0], ts, NoKey, map[]);
    SectionAscends(shapes[0], ts, NoKey, map[], r.value, r.rest, i, j);
  }

  lemma NotInFirst(shapes: seq<Shape>, ts: seq<Token>, m: nat, n: nat, s: nat, i: int)
    requires Apart(shapes) && 0 < s < |shapes| && (forall x :: 0 <= x < |shapes| ==> shapes[x] != []) && m <= n <= |ts|
    requires ParseSection(shapes[0], ts, NoKey, map[]).Parsed? && |ts| - |ParseSection(shapes[0], ts, NoKey, map[]).rest| == m
    requires 0 <= i < n && Leads(shapes[s], ts, i)
    ensures m <= i && Leads(shapes[1..][s - 1], ts[m..], i - m)
  {
    SectionSymbols(shapes[0], ts, NoKey, map[], shapes[s][0].symbol);
  }

  lemma FirstOnly(shape: Shape, ts: seq<Token>, m: nat, n: nat, i: int, j: int)
    requires shape != [] && m <= n <= |ts| && forall x :: 0 <= x < n - m ==> ts[m..][x] != Sym(shape[0].symbol)
    requires 0 <= i < j < n && Leads(shape, ts, i) && Leads(shape, ts, j)
    ensures j < m
  {
    forall x | m <= x < n ensures ts[x] != Sym(shape[0].symbol) {
      assert ts[x] == ts[m..][x - m];
    }
  }

  // ---------- spelled out ----------

  /** Stanzas of one kind come in ascending order of their paths, those for attributes of paths and names,
      except behind one on the root path. */
  ghost predicate InOrder(ts: seq<Token>) {
    && (forall sym, i, j, p, q {:trigger PathAt(ts, i, sym, p), PathAt(ts, j, sym, q)} ::
          sym in {"delete", "rename", "add_dir", "add_file", "patch"} && i < j && PathAt(ts, i, sym, p) && PathAt(ts, j, sym, q) ==>
            p == [] || Less(p, q))
    && (forall sym, i, j, p, k, q, l {:trigger AttrAt(ts, i, sym, p, k), AttrAt(ts, j, sym, q, l)} ::
          sym in {"clear", "set"} && i < j && AttrAt(ts, i, sym, p, k) && AttrAt(ts, j, sym, q, l) ==>
            p == [] || Less(p, q) || (p == q && BytesLess(k, l)))
  }

  ghost predicate PathAt(ts: seq<Token>, i: int, sym: string, p: FilePath) {
    Spells(ts, i, [Sym(sym), Str(p)])
  }

  ghost predicate AttrAt(ts: seq<Token>, i: int, sym: string, p: FilePath, k: string) {
    Spells(ts, i, [Sym(sym), Str(p), Sym("attr"), Str(k)])
  }

  /** The key of a stanza is what its tokens spell. */
  lemma {:induction false} PathKey(shape: Shape, ts: seq<Token>, i: int, p: FilePath)
    requires shape != [] && shape[0].kind == PathValue && (|shape| == 1 || shape[1].kind != StringValue)
    requires PathAt(ts, i, shape[0].symbol, p) && ParseRow(shape, ts[i..]).Parsed?
    ensures KeyAt(shape, ts, i) == (p, "")
  {
    Spelled2(ts, i, Sym(shape[0].symbol), Str(p));
    RowWords(shape, ts, i, ParseRow(shape, ts[i..]).value, 0);
  }

  lemma {:induction false} AttrKeyAt(shape: Shape, ts: seq<Token>, i: int, p: FilePath, k: string)
    requires |shape| > 1 && shape[0].kind == PathValue && shape[1] == Field("attr", StringValue)
    requires AttrAt(ts, i, shape[0].symbol, p, k) && ParseRow(shape, ts[i..]).Parsed?
    ensures KeyAt(shape, ts, i) == (p, k)
  {
    Spelled4(ts, i, Sym(shape[0].symbol), Str(p), Sym("attr"), Str(k));
    Spelled2(ts, i, Sym(shape[0].symbol), Str(p));
    Spelled2(ts, i + 2, Sym("attr"), Str(k));
    RowWords(shape, ts, i, ParseRow(shape, ts[i..]).value, 0);
    RowWords(shape, ts, i, ParseRow(shape, ts[i..]).value, 1);
  }

  lemma PathsInOrder(ts: seq<Token>, s: nat, i: int, j: int, p: FilePath, q: FilePath)
    requires ParseCset(ts).Parsed? && |ParseCset(ts).rest| <= 1 && s < 5 && i < j && p != []
    requires |Shapes| == 7 && PathAt(ts, i, Shapes[s][0].symbol, p) && PathAt(ts, j, Shapes[s][0].symbol, q)
    ensures Less(p, q)
  {
    ShapesApart();
    ListRest(Shapes, ts);
    Spelled2(ts, i, Sym(Shapes[s][0].symbol), Str(p));
    Spelled2(ts, j, Sym(Shapes[s][0].symbol), Str(q));
    ListAscends(Shapes, ts, |ts| - |ParseSections(Shapes, ts).rest|, s, i, j);
    PathKey(Shapes[s], ts, i, p);
    PathKey(Shapes[s], ts, j, q);
  }

  lemma AttrsInOrder(ts: seq<Token>, s: nat, i: int, j: int, p: FilePath, k: string, q: FilePath, l: string)
    requires ParseCset(ts).Parsed? && |ParseCset(ts).rest| <= 1 && s in {5, 6} && i < j && p != []
    requires |Shapes| == 7 && AttrAt(ts, i, Shapes[s][0].symbol, p, k) && AttrAt(ts, j, Shapes[s][0].symbol, q, l)
    ensures Less(p, q) || (p == q && BytesLess(k, l))
  {
    ShapesApart();
    ListRest(Shapes, ts);
    Spelled4(ts, i, Sym(Shapes[s][0].symbol), Str(p), Sym("attr"), Str(k));
    Spelled4(ts, j, Sym(Shapes[s][0].symbol), Str(q), Sym("attr"), Str(l));
    Spelled2(ts, i, Sym(Shapes[s][0].symbol), Str(p));
    Spelled2(ts, j, Sym(Shapes[s][0].symbol), Str(q));
    ListAscends(Shapes, ts, |ts| - |ParseSections(Shapes, ts).rest|, s, i, j);
    AttrKeyAt(Shapes[s], ts, i, p, k);
    AttrKeyAt(Shapes[s], ts, j, q, l);
  }

  lemma ParsedInOrder(ts: seq<Token>)
    requires ParseCset(ts).Parsed? && |ParseCset(ts).rest| <= 1
    ensures InOrder(ts)
  {
    assert |Shapes| == 7;
    forall sym, i, j, p, q | sym in {"delete", "rename", "add_dir", "add_file", "patch"} && i < j && PathAt(ts, i, sym, p)
                             && PathAt(ts, j, sym, q)
      ensures p == [] || Less(p, q)
    {
      var s := if sym == "delete" then 0 else if sym == "rename" then 1 else if sym == "add_dir" then 2 else if sym == "add_file" then 3 else 4;
      assert Shapes[s][0].symbol == sym;
      if p != [] {
        PathsInOrder(ts, s, i, j, p, q);
      }
    }
    forall sym, i, j, p, k, q, l | sym in {"clear", "set"} && i < j && AttrAt(ts, i, sym, p, k) && AttrAt(ts, j, sym, q, l)
      ensures p == [] || Less(p, q) || (p == q && BytesLess(k, l))
    {
      var s := if sym == "clear" then 5 else 6;
      assert Shapes[s][0].symbol == sym;
      if p != [] {
        AttrsInOrder(ts, s, i, j, p, k, q, l);
      }
    }
  }
}
