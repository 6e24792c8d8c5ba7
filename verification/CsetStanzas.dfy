/** What a text says: which stanza fills which field of the change set, on the tokens alone. */
module CsetStanzas {
  import opened Paths
  import opened BasicIo
  import opened HexCodec
  import opened Stanzas
  import opened Sections
  import opened SectionList
  import opened RootOrder
  import opened Csets
  import opened CsetText

  // ---------- the stanzas of one shape ----------

  predicate Leads(shape: Shape, ts: seq<Token>, i: int)
    requires shape != []
  {
    0 <= i < |ts| && ts[i] == Sym(shape[0].symbol)
  }

  /** The stanza at `i` ends by `n` and is the row of its key. */
  predicate Entered(shape: Shape, ts: seq<Token>, n: nat, i: int, table: Table)
    requires shape != [] && 0 <= i < |ts|
  {
    var r := ParseRow(shape, ts[i..]);
    r.Parsed? && i + 2 * |shape| <= n && KeyOf(shape, r.value) in table && table[KeyOf(shape, r.value)] == r.value
  }

  ghost predicate ReadFrom(shape: Shape, ts: seq<Token>, n: nat, table: Table, k: Key)
    requires shape != [] && n <= |ts|
  {
    exists i :: 0 <= i < n && Leads(shape, ts, i) && Entered(shape, ts, n, i, table)
      && KeyOf(shape, ParseRow(shape, ts[i..]).value) == k
  }

  /** Every stanza that begins in the first `n` tokens was entered. */
  ghost predicate Enters(shape: Shape, ts: seq<Token>, n: nat, table: Table) {
    shape != [] && n <= |ts| && forall i :: 0 <= i < n && Leads(shape, ts, i) ==> Entered(shape, ts, n, i, table)
  }

  /** Every entry but those of `acc` is that of a stanza that begins in the first `n` tokens. */
  ghost predicate Comes(shape: Shape, ts: seq<Token>, n: nat, acc: Table, table: Table) {
    shape != [] && n <= |ts| && forall k :: k in table && k !in acc ==> ReadFrom(shape, ts, n, table, k)
  }

  /** The table has the stanzas that begin in the first `n` tokens, and no other. */
  ghost predicate Holds(shape: Shape, ts: seq<Token>, n: nat, table: Table) {
    Enters(shape, ts, n, table) && Comes(shape, ts, n, map[], table)
  }

  /** The first symbol of the shape stands in no other place of it. */
  predicate LeadsOnce(shape: Shape) {
    shape != [] && forall j :: 0 < j < |shape| ==> shape[j].symbol != shape[0].symbol
  }

  lemma {:induction false} RowRest(shape: Shape, ts: seq<Token>)
    requires ParseRow(shape, ts).Parsed?
    ensures ParseRow(shape, ts).rest == ts[2 * |shape|..]
    decreases |shape|
  {
    if shape != [] {
      RowRest(shape[1..], ts[2..]);
      assert ts[2..][2 * |shape[1..]|..] == ts[2 * |shape|..];
    }
  }

  /** Inside a stanza no other one of the shape begins. */
  lemma RowLeads(shape: Shape, ts: seq<Token>, i: int)
    requires LeadsOnce(shape) && ParseRow(shape, ts).Parsed? && 0 < i < 2 * |shape|
    ensures !Leads(shape, ts, i)
  {
    assert !Mentions(shape[1..], shape[0].symbol) by {
      forall j | 0 <= j < |shape[1..]| ensures shape[1..][j].symbol != shape[0].symbol {
        assert shape[1..][j] == shape[j + 1];
      }
    }
    RowSymbols(shape[1..], ts[2..], shape[0].symbol);
    if i >= 2 {
      assert ts[i] == ts[2..][..2 * |shape[1..]|][i - 2];
    }
  }

  /** What holds of the tokens behind the first `m` holds of all, if none of the first `m` but that at 0 begins a stanza. */
  lemma Later(shape: Shape, ts: seq<Token>, m: nat, n: nat, table: Table, i: int)
    requires shape != [] && m <= i < n <= |ts|
    ensures Leads(shape, ts, i) <==> Leads(shape, ts[m..], i - m)
    ensures Entered(shape, ts, n, i, table) <==> Entered(shape, ts[m..], n - m, i - m, table)
    ensures ParseRow(shape, ts[i..]) == ParseRow(shape, ts[m..][i - m..])
  {
    assert ts[m..][i - m..] == ts[i..];
  }

  lemma Shifted(shape: Shape, ts: seq<Token>, m: nat, n: nat, table: Table)
    requires shape != [] && m <= n <= |ts| && Holds(shape, ts[m..], n - m, table)
    requires forall i :: 0 <= i < m ==> !Leads(shape, ts, i)
    ensures Holds(shape, ts, n, table)
  {
    forall i | 0 <= i < n && Leads(shape, ts, i) ensures Entered(shape, ts, n, i, table) {
      Later(shape, ts, m, n, table, i);
    }
    forall k | k in table ensures ReadFrom(shape, ts, n, table, k) {
      ReadLater(shape, ts, m, n, table, k);
    }
  }

  lemma ReadLater(shape: Shape, ts: seq<Token>, m: nat, n: nat, table: Table, k: Key)
    requires shape != [] && m <= n <= |ts| && ReadFrom(shape, ts[m..], n - m, table, k)
    ensures ReadFrom(shape, ts, n, table, k)
  {
    var i :| 0 <= i < n - m && Leads(shape, ts[m..], i) && Entered(shape, ts[m..], n - m, i, table)
      && KeyOf(shape, ParseRow(shape, ts[m..][i..]).value) == k;
    Later(shape, ts, m, n, table, m + i);
  }

  /** One stanza read: the section goes on behind it. */
  lemma SectionMore(shape: Shape, ts: seq<Token>, prev: Key, acc: Table) returns (k: Key, row: Row)
    requires shape != [] && ParseSection(shape, ts, prev, acc).Parsed? && Leads(shape, ts, 0)
    ensures ParseRow(shape, ts).Parsed? && row == ParseRow(shape, ts).value && |row| == |shape| && 2 * |shape| <= |ts|
    ensures k == KeyOf(shape, row) && k !in acc
    ensures ParseSection(shape, ts[2 * |shape|..], k, acc[k := row]) == ParseSection(shape, ts, prev, acc)
  {
    row := ParseRow(shape, ts).value;
    k := KeyOf(shape, row);
    RowRest(shape, ts);
  }

  lemma {:induction false} SectionRest(shape: Shape, ts: seq<Token>, prev: Key, acc: Table)
    requires shape != [] && ParseSection(shape, ts, prev, acc).Parsed?
    ensures var r := ParseSection(shape, ts, prev, acc); |r.rest| <= |ts| && r.rest == ts[|ts| - |r.rest|..]
    decreases |ts|
  {
    if Leads(shape, ts, 0) {
      var k, row := SectionMore(shape, ts, prev, acc);
      SectionRest(shape, ts[2 * |shape|..], k, acc[k := row]);
    }
  }

  /** The loop over one section enters every stanza it passes ... */
  lemma {:induction false} SectionEnters(shape: Shape, ts: seq<Token>, prev: Key, acc: Table, table: Table, rest: seq<Token>)
    requires LeadsOnce(shape) && ParseSection(shape, ts, prev, acc) == Parsed(table, rest)
    ensures |rest| <= |ts| && Enters(shape, ts, |ts| - |rest|, table)
    decreases |ts|
  {
    if Leads(shape, ts, 0) {
      var k, row := SectionMore(shape, ts, prev, acc);
      SectionEnters(shape, ts[2 * |shape|..], k, acc[k := row], table, rest);
      SectionKeeps(shape, ts[2 * |shape|..], k, acc[k := row], k);
      FirstEnters(shape, ts, |ts| - |rest|, k, row, table);
    }
  }

  lemma {:induction false} SectionKeeps(shape: Shape, ts: seq<Token>, prev: Key, acc: Table, k: Key)
    requires shape != [] && ParseSection(shape, ts, prev, acc).Parsed? && k in acc
    ensures k in ParseSection(shape, ts, prev, acc).value && ParseSection(shape, ts, prev, acc).value[k] == acc[k]
    decreases |ts|
  {
    if Leads(shape, ts, 0) {
      var l, row := SectionMore(shape, ts, prev, acc);
      SectionKeeps(shape, ts[2 * |shape|..], l, acc[l := row], k);
    }
  }

  lemma FirstEnters(shape: Shape, ts: seq<Token>, n: nat, k: Key, row: Row, table: Table)
    requires LeadsOnce(shape) && Leads(shape, ts, 0) && ParseRow(shape, ts).Parsed? && ParseRow(shape, ts).value == row
    requires KeyOf(shape, row) == k && k in table && table[k] == row && 2 * |shape| <= n <= |ts|
    requires Enters(shape, ts[2 * |shape|..], n - 2 * |shape|, table)
    ensures Enters(shape, ts, n, table)
  {
    var m := 2 * |shape|;
    assert ts[0..] == ts;
    forall i | 0 <= i < n && Leads(shape, ts, i) ensures Entered(shape, ts, n, i, table) {
      if 0 < i < m {
        RowLeads(shape, ts, i);
      } else if m <= i {
        Later(shape, ts, m, n, table, i);
      }
    }
  }

  /** ... and nothing else. */
  lemma {:induction false} SectionComes(shape: Shape, ts: seq<Token>, prev: Key, acc: Table, table: Table, rest: seq<Token>)
    requires LeadsOnce(shape) && ParseSection(shape, ts, prev, acc) == Parsed(table, rest)
    ensures |rest| <= |ts| && Comes(shape, ts, |ts| - |rest|, acc, table)
    decreases |ts|
  {
    if Leads(shape, ts, 0) {
      var k, row := SectionMore(shape, ts, prev, acc);
      SectionComes(shape, ts[2 * |shape|..], k, acc[k := row], table, rest);
      SectionEnters(shape, ts, prev, acc, table, rest);
      FirstComes(shape, ts, |ts| - |rest|, acc, k, row, table);
    }
  }

  lemma FirstComes(shape: Shape, ts: seq<Token>, n: nat, acc: Table, k: Key, row: Row, table: Table)
    requires LeadsOnce(shape) && Leads(shape, ts, 0) && ParseRow(shape, ts).Parsed? && ParseRow(shape, ts).value == row
    requires KeyOf(shape, row) == k && 2 * |shape| <= n <= |ts| && Enters(shape, ts, n, table)
    requires Comes(shape, ts[2 * |shape|..], n - 2 * |shape|, acc[k := row], table)
    ensures Comes(shape, ts, n, acc, table)
  {
    assert ts[0..] == ts;
    forall q | q in table && q !in acc ensures ReadFrom(shape, ts, n, table, q) {
      if q != k {
        ReadLater(shape, ts, 2 * |shape|, n, table, q);
      }
    }
  }

  lemma SectionHolds(shape: Shape, ts: seq<Token>, prev: Key, table: Table, rest: seq<Token>)
    requires LeadsOnce(shape) && ParseSection(shape, ts, prev, map[]) == Parsed(table, rest)
    ensures |rest| <= |ts| && Holds(shape, ts, |ts| - |rest|, table)
  {
    SectionEnters(shape, ts, prev, map[], table, rest);
    SectionComes(shape, ts, prev, map[], table, rest);
  }

  /** A section has none of the symbols its shape does not mention. */
  lemma {:induction false} SectionSymbols(shape: Shape, ts: seq<Token>, prev: Key, acc: Table, sym: string)
    requires shape != [] && ParseSection(shape, ts, prev, acc).Parsed? && !Mentions(shape, sym)
    ensures var n := |ts| - |ParseSection(shape, ts, prev, acc).rest|; forall i :: 0 <= i < n ==> ts[i] != Sym(sym)
    decreases |ts|
  {
    if Leads(shape, ts, 0) {
      var m := 2 * |shape|;
      var k, row := SectionMore(shape, ts, prev, acc);
      RowSymbols(shape, ts, sym);
      SectionSymbols(shape, ts[m..], k, acc[k := row], sym);
      var n := |ts| - |ParseSection(shape, ts, prev, acc).rest|;
      forall i | 0 <= i < n ensures ts[i] != Sym(sym) {
        if i < m { assert ts[i] == ts[..m][i]; } else { assert ts[i] == ts[m..][i - m]; }
      }
    }
  }

  // ---------- all sections ----------

  /** The first symbol of a shape stands in no other place of any shape. */
  ghost predicate Apart(shapes: seq<Shape>) {
    && (forall i :: 0 <= i < |shapes| ==> LeadsOnce(shapes[i]))
    && (forall i, j :: 0 <= i < |shapes| && 0 <= j < |shapes| && i != j ==> !Mentions(shapes[j], shapes[i][0].symbol))
  }

  lemma ApartTail(shapes: seq<Shape>)
    requires Apart(shapes) && shapes != []
    ensures Apart(shapes[1..])
    ensures forall j :: 0 <= j < |shapes[1..]| ==> !Mentions(shapes[1..][j], shapes[0][0].symbol)
    ensures forall j :: 0 <= j < |shapes[1..]| ==> !Mentions(shapes[0], shapes[1..][j][0].symbol)
  {
    var tail: seq<Shape> := shapes[1..];
    forall i, j | 0 <= i < |tail| && 0 <= j < |tail| && i != j ensures !Mentions(tail[j], tail[i][0].symbol) {
      assert tail[i] == shapes[i + 1] && tail[j] == shapes[j + 1];
    }
    forall j | 0 <= j < |tail| ensures !Mentions(tail[j], shapes[0][0].symbol) && !Mentions(shapes[0], tail[j][0].symbol) {
      assert tail[j] == shapes[j + 1];
    }
  }

  /** Sections read one after the other: the first and the others behind it. */
  lemma ListMore(shapes: seq<Shape>, ts: seq<Token>) returns (m: nat)
    requires shapes != [] && (forall i :: 0 <= i < |shapes| ==> shapes[i] != []) && ParseSections(shapes, ts).Parsed?
    ensures m <= |ts| && ParseSection(shapes[0], ts, NoKey, map[]) == Parsed(ParseSections(shapes, ts).value[0], ts[m..])
    ensures ParseSections(shapes[1..], ts[m..]) == Parsed(ParseSections(shapes, ts).value[1..], ParseSections(shapes, ts).rest)
  {
    SectionRest(shapes[0], ts, NoKey, map[]);
    m := |ts| - |ParseSection(shapes[0], ts, NoKey, map[]).rest|;
  }

  lemma {:induction false} ListSymbols(shapes: seq<Shape>, ts: seq<Token>, sym: string)
    requires (forall i :: 0 <= i < |shapes| ==> shapes[i] != []) && ParseSections(shapes, ts).Parsed?
    requires forall i :: 0 <= i < |shapes| ==> !Mentions(shapes[i], sym)
    ensures |ParseSections(shapes, ts).rest| <= |ts|
    ensures var n := |ts| - |ParseSections(shapes, ts).rest|; forall i :: 0 <= i < n ==> ts[i] != Sym(sym)
    decreases |shapes|
  {
    if shapes != [] {
      var m := ListMore(shapes, ts);
      SectionSymbols(shapes[0], ts, NoKey, map[], sym);
      ListSymbols(shapes[1..], ts[m..], sym);
      SymbolsBoth(ts, m, |ts| - |ParseSections(shapes, ts).rest|, sym);
    }
  }

  lemma SymbolsBoth(ts: seq<Token>, m: nat, n: nat, sym: string)
    requires m <= n <= |ts| && (forall i :: 0 <= i < m ==> ts[i] != Sym(sym))
    requires forall i :: 0 <= i < n - m ==> ts[m..][i] != Sym(sym)
    ensures forall i :: 0 <= i < n ==> ts[i] != Sym(sym)
  {
    forall i | m <= i < n ensures ts[i] != Sym(sym) {
      assert ts[i] == ts[m..][i - m];
    }
  }

  lemma Longer(shape: Shape, ts: seq<Token>, m: nat, n: nat, table: Table)
    requires Holds(shape, ts, m, table) && m <= n <= |ts|
    requires forall i :: m <= i < n ==> !Leads(shape, ts, i)
    ensures Holds(shape, ts, n, table)
  {
    forall k | k in table ensures ReadFrom(shape, ts, n, table, k) {
      var i :| 0 <= i < m && Leads(shape, ts, i) && Entered(shape, ts, m, i, table)
        && KeyOf(shape, ParseRow(shape, ts[i..]).value) == k;
      assert Entered(shape, ts, n, i, table);
    }
  }

  lemma FirstHolds(shapes: seq<Shape>, ts: seq<Token>, m: nat, n: nat, table: Table)
    requires Apart(shapes) && shapes != [] && (forall i :: 0 <= i < |shapes| ==> shapes[i] != []) && m <= |ts|
    requires ParseSection(shapes[0], ts, NoKey, map[]) == Parsed(table, ts[m..])
    requires ParseSections(shapes[1..], ts[m..]).Parsed? && |ParseSections(shapes[1..], ts[m..]).rest| + n == |ts|
    ensures Holds(shapes[0], ts, n, table)
  {
    ApartTail(shapes);
    SectionHolds(shapes[0], ts, NoKey, table, ts[m..]);
    assert |ts| - |ts[m..]| == m;
    ListSymbols(shapes[1..], ts[m..], shapes[0][0].symbol);
    forall i | m <= i < n ensures !Leads(shapes[0], ts, i) {
      assert ts[i] == ts[m..][i - m];
    }
    Longer(shapes[0], ts, m, n, table);
  }

  lemma LaterHolds(shapes: seq<Shape>, ts: seq<Token>, m: nat, n: nat, s: nat, table: Table)
    requires Apart(shapes) && (forall i :: 0 <= i < |shapes| ==> shapes[i] != []) && 0 < s < |shapes|
    requires ParseSection(shapes[0], ts, NoKey, map[]).Parsed? && m == |ts| - |ParseSection(shapes[0], ts, NoKey, map[]).rest|
    requires m <= n <= |ts| && Holds(shapes[s], ts[m..], n - m, table)
    ensures Holds(shapes[s], ts, n, table)
  {
    SectionSymbols(shapes[0], ts, NoKey, map[], shapes[s][0].symbol);
    Shifted(shapes[s], ts, m, n, table);
  }

  lemma {:induction false} ListRest(shapes: seq<Shape>, ts: seq<Token>)
    requires (forall i :: 0 <= i < |shapes| ==> shapes[i] != []) && ParseSections(shapes, ts).Parsed?
    ensures |ParseSections(shapes, ts).rest| <= |ts|
    decreases |shapes|
  {
    if shapes != [] {
      var m := ListMore(shapes, ts);
      ListRest(shapes[1..], ts[m..]);
    }
  }

  /** Each table has exactly the stanzas of its shape, wherever in the text they begin. */
  lemma {:induction false} ListHolds(shapes: seq<Shape>, ts: seq<Token>, n: nat, s: nat, table: Table)
    requires Apart(shapes) && (forall i :: 0 <= i < |shapes| ==> shapes[i] != []) && s < |shapes|
    requires ParseSections(shapes, ts).Parsed? && n + |ParseSections(shapes, ts).rest| == |ts|
    requires table == ParseSections(shapes, ts).value[s]
    ensures Holds(shapes[s], ts, n, table)
    decreases |shapes|
  {
    var m := ListMore(shapes, ts);
    ListRest(shapes[1..], ts[m..]);
    if s == 0 {
      FirstHolds(shapes, ts, m, n, table);
    } else {
      TailHolds(shapes, ts[m..], n - m, s, table);
      LaterHolds(shapes, ts, m, n, s, table);
    }
  }

  lemma TailHolds(shapes: seq<Shape>, ts: seq<Token>, n: nat, s: nat, table: Table)
    requires Apart(shapes) && (forall i :: 0 <= i < |shapes| ==> shapes[i] != []) && 0 < s < |shapes|
    requires ParseSections(shapes[1..], ts).Parsed? && n + |ParseSections(shapes[1..], ts).rest| == |ts|
    requires table == ParseSections(shapes[1..], ts).value[s - 1]
    ensures Holds(shapes[s], ts, n, table)
    decreases |shapes|, 0
  {
    ApartTail(shapes);
    ListHolds(shapes[1..], ts, n, s - 1, table);
  }

  // ---------- the stanzas spelled out ----------

  ghost predicate Spells(ts: seq<Token>, i: int, words: seq<Token>) {
    0 <= i && i + |words| <= |ts| && ts[i..i + |words|] == words
  }

  ghost predicate Deletes(ts: seq<Token>, p: FilePath) {
    exists i :: Spells(ts, i, [Sym("delete"), Str(p)])
  }

  ghost predicate Renames(ts: seq<Token>, p: FilePath, q: FilePath) {
    exists i :: Spells(ts, i, [Sym("rename"), Str(p), Sym("to"), Str(q)])
  }

  ghost predicate AddsDir(ts: seq<Token>, p: FilePath) {
    exists i :: Spells(ts, i, [Sym("add_dir"), Str(p)])
  }

  ghost predicate AddsFile(ts: seq<Token>, p: FilePath, id: string) {
    exists i, h :: Spells(ts, i, [Sym("add_file"), Str(p), Sym("content"), Hex(h)]) && Decoded(h) == Some(id)
  }

  ghost predicate Patches(ts: seq<Token>, p: FilePath, oldId: string, newId: string) {
    exists i, h, k :: Spells(ts, i, [Sym("patch"), Str(p), Sym("from"), Hex(h), Sym("to"), Hex(k)])
      && Decoded(h) == Some(oldId) && Decoded(k) == Some(newId)
  }

  ghost predicate Clears(ts: seq<Token>, p: FilePath, name: string) {
    exists i :: Spells(ts, i, [Sym("clear"), Str(p), Sym("attr"), Str(name)])
  }

  ghost predicate Sets(ts: seq<Token>, p: FilePath, name: string, v: string) {
    exists i :: Spells(ts, i, [Sym("set"), Str(p), Sym("attr"), Str(name), Sym("value"), Str(v)])
  }

  /** The change set is what the stanzas say, each of them in its own field. */
  ghost predicate Says(ts: seq<Token>, cs: Cset) {
    && (forall p :: p in cs.deleted <==> Deletes(ts, p))
    && (forall p, q :: p in cs.renamed && cs.renamed[p] == q <==> Renames(ts, p, q))
    && (forall p :: p in cs.dirs <==> AddsDir(ts, p))
    && (forall p, id :: p in cs.files && cs.files[p] == id <==> AddsFile(ts, p, id))
    && (forall p, a, b :: p in cs.deltas && cs.deltas[p] == (a, b) <==> Patches(ts, p, a, b))
    && (forall p, name :: (p, name) in cs.cleared <==> Clears(ts, p, name))
    && (forall p, name, v :: (p, name) in cs.attrs && cs.attrs[(p, name)] == v <==> Sets(ts, p, name, v))
  }

  lemma OneField(f: Field, ts: seq<Token>)
    requires ParseRow([f], ts).Parsed?
    ensures |ts| >= 2 && ts[0] == Sym(f.symbol)
    ensures ReadValue(f.kind, ts[1]) == Some(ParseRow([f], ts).value[0])
  {
    assert [f][1..] == [];
  }

  lemma MoreFields(shape: Shape, ts: seq<Token>)
    requires |shape| > 1 && ParseRow(shape, ts).Parsed?
    ensures |ts| >= 2 && ts[0] == Sym(shape[0].symbol)
    ensures ReadValue(shape[0].kind, ts[1]) == Some(ParseRow(shape, ts).value[0])
    ensures ParseRow(shape[1..], ts[2..]).Parsed?
    ensures ParseRow(shape, ts).value[1..] == ParseRow(shape[1..], ts[2..]).value
  {
  }

  ghost predicate Word(shape: Shape, ts: seq<Token>, i: int, row: Row, j: int) {
    0 <= j < |shape| && j < |row| && 0 <= i && i + 2 * j + 1 < |ts|
    && ts[i + 2 * j] == Sym(shape[j].symbol) && ReadValue(shape[j].kind, ts[i + 2 * j + 1]) == Some(row[j])
  }

  /** The tokens of a stanza that was read. */
  lemma {:induction false} RowWords(shape: Shape, ts: seq<Token>, i: int, row: Row, j: int)
    requires 0 <= i <= |ts| && ParseRow(shape, ts[i..]).Parsed? && ParseRow(shape, ts[i..]).value == row && 0 <= j < |shape|
    ensures Word(shape, ts, i, row, j)
    decreases j
  {
    if |shape| == 1 {
      assert shape == [shape[0]];
      OneField(shape[0], ts[i..]);
    } else {
      MoreFields(shape, ts[i..]);
      if j > 0 {
        assert ts[i..][2..] == ts[i + 2..];
        RowWords(shape[1..], ts, i + 2, row[1..], j - 1);
        assert i + 2 + 2 * (j - 1) == i + 2 * j;
      }
    }
  }

  lemma WordAt(ts: seq<Token>, i: int, words: seq<Token>, j: int)
    requires Spells(ts, i, words) && 0 <= j < |words|
    ensures ts[i + j] == words[j]
  {
    assert ts[i..i + |words|][j] == words[j];
  }

  /** All but the last of the tokens have been read, or all. */
  ghost predicate ReadAll(shape: Shape, ts: seq<Token>, n: nat, table: Table) {
    0 < |shape| <= 3 && shape[0].kind == PathValue && |ts| <= n + 1 && Holds(shape, ts, n, table)
  }

  /** A stanza whose first symbol is at `i` was entered, with the values of its tokens. */
  lemma WordsEntered(shape: Shape, ts: seq<Token>, n: nat, table: Table, i: int) returns (row: Row)
    requires ReadAll(shape, ts, n, table) && 0 <= i && i + 2 <= |ts| && ts[i] == Sym(shape[0].symbol)
    ensures |row| == |shape| && KeyOf(shape, row) in table && table[KeyOf(shape, row)] == row
    ensures forall j :: 0 <= j < |shape| ==> Word(shape, ts, i, row, j)
  {
    assert Leads(shape, ts, i) && i < n;
    row := ParseRow(shape, ts[i..]).value;
    forall j | 0 <= j < |shape| ensures Word(shape, ts, i, row, j) {
      RowWords(shape, ts, i, row, j);
    }
  }

  /** An entry comes from a stanza. */
  lemma EntrySpelled(shape: Shape, ts: seq<Token>, n: nat, table: Table, k: Key) returns (i: int)
    requires ReadAll(shape, ts, n, table) && k in table
    ensures |table[k]| == |shape| && KeyOf(shape, table[k]) == k
    ensures forall j :: 0 <= j < |shape| ==> Word(shape, ts, i, table[k], j)
  {
    assert ReadFrom(shape, ts, n, table, k);
    i :| 0 <= i < n && Leads(shape, ts, i) && Entered(shape, ts, n, i, table)
      && KeyOf(shape, ParseRow(shape, ts[i..]).value) == k;
    forall j | 0 <= j < |shape| ensures Word(shape, ts, i, table[k], j) {
      RowWords(shape, ts, i, table[k], j);
    }
  }

  lemma StrWord(shape: Shape, ts: seq<Token>, i: int, row: Row, j: int)
    requires Word(shape, ts, i, row, j)
    ensures shape[j].kind != HexValue ==> ts[i + 2 * j + 1] == Str(row[j])
    ensures shape[j].kind == HexValue ==> ts[i + 2 * j + 1].Hex? && Decoded(ts[i + 2 * j + 1].text) == Some(row[j])
  {
  }

  lemma Spelled2(ts: seq<Token>, i: int, a: Token, b: Token)
    ensures Spells(ts, i, [a, b]) <==> 0 <= i && i + 2 <= |ts| && ts[i] == a && ts[i + 1] == b
  {
    if Spells(ts, i, [a, b]) {
      WordAt(ts, i, [a, b], 0);
      WordAt(ts, i, [a, b], 1);
    }
  }

  lemma Spelled4(ts: seq<Token>, i: int, a: Token, b: Token, c: Token, d: Token)
    ensures Spells(ts, i, [a, b, c, d]) <==> Spells(ts, i, [a, b]) && Spells(ts, i + 2, [c, d])
  {
    var words := [a, b, c, d];
    if 0 <= i && i + 4 <= |ts| {
      assert ts[i..i + 4] == ts[i..i + 2] + ts[i + 2..i + 4] && words == [a, b] + [c, d];
      if Spells(ts, i, words) {
        assert words[..2] == [a, b] && words[2..] == [c, d];
      }
    }
  }

  lemma Spelled6(ts: seq<Token>, i: int, a: Token, b: Token, c: Token, d: Token, e: Token, f: Token)
    ensures Spells(ts, i, [a, b, c, d, e, f]) <==> Spells(ts, i, [a, b, c, d]) && Spells(ts, i + 4, [e, f])
  {
    var words := [a, b, c, d, e, f];
    if 0 <= i && i + 6 <= |ts| {
      assert ts[i..i + 6] == ts[i..i + 4] + ts[i + 4..i + 6] && words == [a, b, c, d] + [e, f];
      if Spells(ts, i, words) {
        assert words[..4] == [a, b, c, d] && words[4..] == [e, f];
      }
    }
  }

  lemma PathSpelled(shape: Shape, ts: seq<Token>, n: nat, table: Table, p: FilePath)
    requires |shape| == 1 && ReadAll(shape, ts, n, table)
    ensures p in PathsIn(table) <==> exists i :: Spells(ts, i, [Sym(shape[0].symbol), Str(p)])
  {
    if p in PathsIn(table) {
      PathOut(shape, ts, n, table, p);
    }
    if i :| Spells(ts, i, [Sym(shape[0].symbol), Str(p)]) {
      PathEntered(shape, ts, n, table, p, i);
    }
  }

  lemma PathOut(shape: Shape, ts: seq<Token>, n: nat, table: Table, p: FilePath)
    requires |shape| == 1 && ReadAll(shape, ts, n, table) && p in PathsIn(table)
    ensures exists i :: Spells(ts, i, [Sym(shape[0].symbol), Str(p)])
  {
    var k :| k in table && k.0 == p;
    var i := EntrySpelled(shape, ts, n, table, k);
    StrWord(shape, ts, i, table[k], 0);
    Spelled2(ts, i, Sym(shape[0].symbol), Str(p));
  }

  lemma PathEntered(shape: Shape, ts: seq<Token>, n: nat, table: Table, p: FilePath, i: int)
    requires |shape| == 1 && ReadAll(shape, ts, n, table) && Spells(ts, i, [Sym(shape[0].symbol), Str(p)])
    ensures p in PathsIn(table)
  {
    Spelled2(ts, i, Sym(shape[0].symbol), Str(p));
    var row := WordsEntered(shape, ts, n, table, i);
    StrWord(shape, ts, i, row, 0);
    assert KeyOf(shape, row).0 == p;
  }

  /** The entry of a stanza of two fields, and its stanza. */
  lemma PairEntry(shape: Shape, ts: seq<Token>, n: nat, table: Table, k: Key) returns (i: int, t: Token)
    requires |shape| == 2 && ReadAll(shape, ts, n, table) && k in table
    ensures PairFor(shape, ts, table, k, i, t)
  {
    i := EntrySpelled(shape, ts, n, table, k);
    t := PairWords(shape, ts, i, table[k]);
  }

  lemma PairWords(shape: Shape, ts: seq<Token>, i: int, row: Row) returns (t: Token)
    requires |shape| == 2 && shape[0].kind == PathValue && Word(shape, ts, i, row, 0) && Word(shape, ts, i, row, 1)
    ensures Spells(ts, i, [Sym(shape[0].symbol), Str(row[0]), Sym(shape[1].symbol), t])
    ensures ReadValue(shape[1].kind, t) == Some(row[1])
  {
    t := ts[i + 3];
    StrWord(shape, ts, i, row, 0);
    Spelled2(ts, i, Sym(shape[0].symbol), Str(row[0]));
    Spelled2(ts, i + 2, Sym(shape[1].symbol), t);
    Spelled4(ts, i, Sym(shape[0].symbol), Str(row[0]), Sym(shape[1].symbol), t);
  }

  lemma PairEntered(shape: Shape, ts: seq<Token>, n: nat, table: Table, i: int, p: FilePath, t: Token) returns (v: string)
    requires |shape| == 2 && ReadAll(shape, ts, n, table)
    requires Spells(ts, i, [Sym(shape[0].symbol), Str(p), Sym(shape[1].symbol), t])
    ensures ReadValue(shape[1].kind, t) == Some(v)
    ensures KeyOf(shape, [p, v]) in table && table[KeyOf(shape, [p, v])] == [p, v]
  {
    Spelled4(ts, i, Sym(shape[0].symbol), Str(p), Sym(shape[1].symbol), t);
    Spelled2(ts, i, Sym(shape[0].symbol), Str(p));
    Spelled2(ts, i + 2, Sym(shape[1].symbol), t);
    var row := WordsEntered(shape, ts, n, table, i);
    StrWord(shape, ts, i, row, 0);
    assert Word(shape, ts, i, row, 1);
    v := row[1];
    assert row == [p, v];
  }

  lemma TripleEntry(shape: Shape, ts: seq<Token>, n: nat, table: Table, k: Key) returns (i: int, t: Token, u: Token)
    requires |shape| == 3 && ReadAll(shape, ts, n, table) && k in table
    ensures TripleFor(shape, ts, table, k, i, t, u)
  {
    i := EntrySpelled(shape, ts, n, table, k);
    t, u := TripleWords(shape, ts, i, table[k]);
  }

  lemma TripleWords(shape: Shape, ts: seq<Token>, i: int, row: Row) returns (t: Token, u: Token)
    requires |shape| == 3 && shape[0].kind == PathValue
    requires Word(shape, ts, i, row, 0) && Word(shape, ts, i, row, 1) && Word(shape, ts, i, row, 2)
    ensures Spells(ts, i, [Sym(shape[0].symbol), Str(row[0]), Sym(shape[1].symbol), t, Sym(shape[2].symbol), u])
    ensures ReadValue(shape[1].kind, t) == Some(row[1]) && ReadValue(shape[2].kind, u) == Some(row[2])
  {
    t, u := ts[i + 3], ts[i + 5];
    StrWord(shape, ts, i, row, 0);
    Spelled2(ts, i, Sym(shape[0].symbol), Str(row[0]));
    Spelled2(ts, i + 2, Sym(shape[1].symbol), t);
    Spelled2(ts, i + 4, Sym(shape[2].symbol), u);
    Spelled4(ts, i, Sym(shape[0].symbol), Str(row[0]), Sym(shape[1].symbol), t);
    Spelled6(ts, i, Sym(shape[0].symbol), Str(row[0]), Sym(shape[1].symbol), t, Sym(shape[2].symbol), u);
  }

  lemma TripleEntered(shape: Shape, ts: seq<Token>, n: nat, table: Table, i: int, p: FilePath, t: Token, u: Token)
    returns (v: string, w: string)
    requires |shape| == 3 && ReadAll(shape, ts, n, table)
    requires Spells(ts, i, [Sym(shape[0].symbol), Str(p), Sym(shape[1].symbol), t, Sym(shape[2].symbol), u])
    ensures ReadValue(shape[1].kind, t) == Some(v) && ReadValue(shape[2].kind, u) == Some(w)
    ensures KeyOf(shape, [p, v, w]) in table && table[KeyOf(shape, [p, v, w])] == [p, v, w]
  {
    Spelled6(ts, i, Sym(shape[0].symbol), Str(p), Sym(shape[1].symbol), t, Sym(shape[2].symbol), u);
    Spelled4(ts, i, Sym(shape[0].symbol), Str(p), Sym(shape[1].symbol), t);
    Spelled2(ts, i, Sym(shape[0].symbol), Str(p));
    Spelled2(ts, i + 2, Sym(shape[1].symbol), t);
    Spelled2(ts, i + 4, Sym(shape[2].symbol), u);
    var row := WordsEntered(shape, ts, n, table, i);
    StrWord(shape, ts, i, row, 0);
    assert Word(shape, ts, i, row, 1) && Word(shape, ts, i, row, 2);
    v, w := row[1], row[2];
    assert row == [p, v, w];
  }

  // ---------- field by field ----------

  lemma PairIn(table: Table, p: FilePath, v: string)
    requires (p, "") in table && table[(p, "")] == [p, v]
    ensures p in PairsIn(table) && PairsIn(table)[p] == v
  {
    assert (p, "").0 == p;
  }

  lemma DeltaIn(table: Table, p: FilePath, v: string, w: string)
    requires (p, "") in table && table[(p, "")] == [p, v, w]
    ensures p in DeltasIn(table) && DeltasIn(table)[p] == (v, w)
  {
    assert (p, "").0 == p;
  }

  /** The stanza of an entry of the right shape, as the reader of the text sees it. */
  ghost predicate PairFor(shape: Shape, ts: seq<Token>, table: Table, k: Key, i: int, t: Token)
    requires |shape| == 2
  {
    && k in table && |table[k]| == 2 && table[k][0] == k.0 && KeyOf(shape, table[k]) == k
    && Spells(ts, i, [Sym(shape[0].symbol), Str(k.0), Sym(shape[1].symbol), t]) && ReadValue(shape[1].kind, t) == Some(table[k][1])
  }

  ghost predicate TripleFor(shape: Shape, ts: seq<Token>, table: Table, k: Key, i: int, t: Token, u: Token)
    requires |shape| == 3
  {
    && k in table && |table[k]| == 3 && table[k][0] == k.0 && KeyOf(shape, table[k]) == k
    && Spells(ts, i, [Sym(shape[0].symbol), Str(k.0), Sym(shape[1].symbol), t, Sym(shape[2].symbol), u])
    && ReadValue(shape[1].kind, t) == Some(table[k][1]) && ReadValue(shape[2].kind, u) == Some(table[k][2])
  }

  lemma RenamesSpelled(ts: seq<Token>, n: nat, table: Table, p: FilePath, q: FilePath)
    requires ReadAll(RenameShape, ts, n, table)
    ensures p in PairsIn(table) && PairsIn(table)[p] == q <==> Renames(ts, p, q)
  {
    if p in PairsIn(table) && PairsIn(table)[p] == q {
      var i, t := PairEntry(RenameShape, ts, n, table, (p, ""));
      RenameOut(ts, table, p, i, t);
    }
    if Renames(ts, p, q) {
      var i :| Spells(ts, i, [Sym("rename"), Str(p), Sym("to"), Str(q)]);
      var v := PairEntered(RenameShape, ts, n, table, i, p, Str(q));
      PairIn(table, p, v);
    }
  }

  lemma RenameOut(ts: seq<Token>, table: Table, p: FilePath, i: int, t: Token)
    requires PairFor(RenameShape, ts, table, (p, ""), i, t)
    ensures Renames(ts, p, table[(p, "")][1])
  {
    assert t == Str(table[(p, "")][1]);
  }

  lemma FilesSpelled(ts: seq<Token>, n: nat, table: Table, p: FilePath, id: string)
    requires ReadAll(AddFileShape, ts, n, table)
    ensures p in PairsIn(table) && PairsIn(table)[p] == id <==> AddsFile(ts, p, id)
  {
    if p in PairsIn(table) && PairsIn(table)[p] == id {
      var i, t := PairEntry(AddFileShape, ts, n, table, (p, ""));
      FileOut(ts, table, p, i, t);
    }
    if AddsFile(ts, p, id) {
      FileEntered(ts, n, table, p, id);
    }
  }

  lemma FileEntered(ts: seq<Token>, n: nat, table: Table, p: FilePath, id: string)
    requires ReadAll(AddFileShape, ts, n, table) && AddsFile(ts, p, id)
    ensures p in PairsIn(table) && PairsIn(table)[p] == id
  {
    var i, h :| Spells(ts, i, [Sym("add_file"), Str(p), Sym("content"), Hex(h)]) && Decoded(h) == Some(id);
    var v := PairEntered(AddFileShape, ts, n, table, i, p, Hex(h));
    PairIn(table, p, v);
  }

  lemma FileOut(ts: seq<Token>, table: Table, p: FilePath, i: int, t: Token)
    requires PairFor(AddFileShape, ts, table, (p, ""), i, t)
    ensures AddsFile(ts, p, table[(p, "")][1])
  {
    assert t == Hex(t.text);
  }

  lemma ClearsSpelled(ts: seq<Token>, n: nat, table: Table, p: FilePath, name: string)
    requires ReadAll(ClearShape, ts, n, table)
    ensures (p, name) in table.Keys <==> Clears(ts, p, name)
  {
    if (p, name) in table.Keys {
      var i, t := PairEntry(ClearShape, ts, n, table, (p, name));
      ClearOut(ts, table, p, name, i, t);
    }
    if Clears(ts, p, name) {
      var i :| Spells(ts, i, [Sym("clear"), Str(p), Sym("attr"), Str(name)]);
      var v := PairEntered(ClearShape, ts, n, table, i, p, Str(name));
    }
  }

  lemma ClearOut(ts: seq<Token>, table: Table, p: FilePath, name: string, i: int, t: Token)
    requires PairFor(ClearShape, ts, table, (p, name), i, t)
    ensures Clears(ts, p, name)
  {
    assert t == Str(name);
  }

  lemma PatchesSpelled(ts: seq<Token>, n: nat, table: Table, p: FilePath, a: string, b: string)
    requires ReadAll(PatchShape, ts, n, table)
    ensures p in DeltasIn(table) && DeltasIn(table)[p] == (a, b) <==> Patches(ts, p, a, b)
  {
    if p in DeltasIn(table) && DeltasIn(table)[p] == (a, b) {
      var i, t, u := TripleEntry(PatchShape, ts, n, table, (p, ""));
      PatchOut(ts, table, p, i, t, u);
    }
    if Patches(ts, p, a, b) {
      PatchEntered(ts, n, table, p, a, b);
    }
  }

  lemma PatchEntered(ts: seq<Token>, n: nat, table: Table, p: FilePath, a: string, b: string)
    requires ReadAll(PatchShape, ts, n, table) && Patches(ts, p, a, b)
    ensures p in DeltasIn(table) && DeltasIn(table)[p] == (a, b)
  {
    var i, h, k :| Spells(ts, i, [Sym("patch"), Str(p), Sym("from"), Hex(h), Sym("to"), Hex(k)])
      && Decoded(h) == Some(a) && Decoded(k) == Some(b);
    var v, w := TripleEntered(PatchShape, ts, n, table, i, p, Hex(h), Hex(k));
    DeltaIn(table, p, v, w);
  }

  lemma PatchOut(ts: seq<Token>, table: Table, p: FilePath, i: int, t: Token, u: Token)
    requires TripleFor(PatchShape, ts, table, (p, ""), i, t, u)
    ensures Patches(ts, p, table[(p, "")][1], table[(p, "")][2])
  {
    assert t == Hex(t.text) && u == Hex(u.text);
  }

  lemma SetsSpelled(ts: seq<Token>, n: nat, table: Table, p: FilePath, name: string, v: string)
    requires ReadAll(SetShape, ts, n, table)
    ensures (p, name) in AttrsIn(table) && AttrsIn(table)[(p, name)] == v <==> Sets(ts, p, name, v)
  {
    if (p, name) in AttrsIn(table) && AttrsIn(table)[(p, name)] == v {
      var i, t, u := TripleEntry(SetShape, ts, n, table, (p, name));
      SetOut(ts, table, p, name, i, t, u);
    }
    if Sets(ts, p, name, v) {
      SetEntered(ts, n, table, p, name, v);
    }
  }

  lemma SetEntered(ts: seq<Token>, n: nat, table: Table, p: FilePath, name: string, v: string)
    requires ReadAll(SetShape, ts, n, table) && Sets(ts, p, name, v)
    ensures (p, name) in AttrsIn(table) && AttrsIn(table)[(p, name)] == v
  {
    var i :| Spells(ts, i, [Sym("set"), Str(p), Sym("attr"), Str(name), Sym("value"), Str(v)]);
    var x, w := TripleEntered(SetShape, ts, n, table, i, p, Str(name), Str(v));
    AttrIn(table, p, name, v, x, w);
  }

  lemma SetOut(ts: seq<Token>, table: Table, p: FilePath, name: string, i: int, t: Token, u: Token)
    requires TripleFor(SetShape, ts, table, (p, name), i, t, u)
    ensures Sets(ts, p, name, table[(p, name)][2])
  {
    assert t == Str(name) && u == Str(table[(p, name)][2]);
  }

  lemma AttrIn(table: Table, p: FilePath, name: string, v: string, x: string, w: string)
    requires ReadValue(StringValue, Str(name)) == Some(x) && ReadValue(StringValue, Str(v)) == Some(w)
    requires (p, x) in table && table[(p, x)] == [p, x, w]
    ensures (p, name) in AttrsIn(table) && AttrsIn(table)[(p, name)] == v
  {
  }

  lemma ShapesApart()
    ensures Apart(Shapes) && ShapesOk(Shapes)
  {
    SymbolsDiffer();
    assert "attr"[0] == 'a' && "value"[0] == 'v' && "to"[0] == 't' && "content"[1] == 'o' && "from"[0] == 'f' && "add_dir"[1] == 'd';
    forall i | 0 <= i < 7 ensures LeadsOnce(Shapes[i]) {
    }
    forall i, j | 0 <= i < 7 && 0 <= j < 7 && i != j ensures !Mentions(Shapes[j], Shapes[i][0].symbol) {
      assert Shapes[i][0].symbol != Shapes[j][0].symbol;
    }
  }

  /** What is parsed, up to a last token at most, is what the stanzas say. */
  lemma ParsedSays(ts: seq<Token>)
    requires ParseCset(ts).Parsed? && |ParseCset(ts).rest| <= 1
    ensures Says(ts, ParseCset(ts).value)
  {
    ShapesApart();
    ListRest(Shapes, ts);
    var r := ParseSections(Shapes, ts);
    var n := |ts| - |r.rest|;
    forall s | 0 <= s < 7 ensures ReadAll(Shapes[s], ts, n, r.value[s]) {
      ListHolds(Shapes, ts, n, s, r.value[s]);
    }
    assert ReadAll(Shapes[0], ts, n, r.value[0]) && ReadAll(Shapes[1], ts, n, r.value[1]) && ReadAll(Shapes[2], ts, n, r.value[2]);
    assert ReadAll(Shapes[3], ts, n, r.value[3]) && ReadAll(Shapes[4], ts, n, r.value[4]);
    assert ReadAll(Shapes[5], ts, n, r.value[5]) && ReadAll(Shapes[6], ts, n, r.value[6]);
    TablesSay(ts, n, r.value);
  }

  lemma TablesSay(ts: seq<Token>, n: nat, tables: seq<Table>)
    requires |tables| == 7
    requires ReadAll(DeleteShape, ts, n, tables[0]) && ReadAll(RenameShape, ts, n, tables[1])
    requires ReadAll(AddDirShape, ts, n, tables[2]) && ReadAll(AddFileShape, ts, n, tables[3])
    requires ReadAll(PatchShape, ts, n, tables[4]) && ReadAll(ClearShape, ts, n, tables[5]) && ReadAll(SetShape, ts, n, tables[6])
    ensures Says(ts, CsetOf(tables))
  {
    forall p ensures p in PathsIn(tables[0]) <==> Deletes(ts, p) {
      PathSpelled(DeleteShape, ts, n, tables[0], p);
    }
    forall p, q ensures p in PairsIn(tables[1]) && PairsIn(tables[1])[p] == q <==> Renames(ts, p, q) {
      RenamesSpelled(ts, n, tables[1], p, q);
    }
    forall p ensures p in PathsIn(tables[2]) <==> AddsDir(ts, p) {
      PathSpelled(AddDirShape, ts, n, tables[2], p);
    }
    forall p, id ensures p in PairsIn(tables[3]) && PairsIn(tables[3])[p] == id <==> AddsFile(ts, p, id) {
      FilesSpelled(ts, n, tables[3], p, id);
    }
    forall p, a, b ensures p in DeltasIn(tables[4]) && DeltasIn(tables[4])[p] == (a, b) <==> Patches(ts, p, a, b) {
      PatchesSpelled(ts, n, tables[4], p, a, b);
    }
    forall p, name ensures (p, name) in tables[5].Keys <==> Clears(ts, p, name) {
      ClearsSpelled(ts, n, tables[5], p, name);
    }
    forall p, name, v ensures (p, name) in AttrsIn(tables[6]) && AttrsIn(tables[6])[(p, name)] == v <==> Sets(ts, p, name, v) {
      SetsSpelled(ts, n, tables[6], p, name, v);
    }
  }
}
