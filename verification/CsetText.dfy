/** The text form of a change set. */
module CsetText {
  import opened Ordered
  import opened Paths
  import opened PathRules
  import opened BasicIo
  import opened HexCodec
  import opened Stanzas
  import opened Sections
  import opened SectionList
  import opened RootOrder
  import opened Csets

  const DeleteShape: Shape := [Field("delete", PathValue)]
  const RenameShape: Shape := [Field("rename", PathValue), Field("to", PathValue)]
  const AddDirShape: Shape := [Field("add_dir", PathValue)]
  const AddFileShape: Shape := [Field("add_file", PathValue), Field("content", HexValue)]
  const PatchShape: Shape := [Field("patch", PathValue), Field("from", HexValue), Field("to", HexValue)]
  const ClearShape: Shape := [Field("clear", PathValue), Field("attr", StringValue)]
  const SetShape: Shape := [Field("set", PathValue), Field("attr", StringValue), Field("value", StringValue)]

  const Shapes: seq<Shape> := [DeleteShape, RenameShape, AddDirShape, AddFileShape, PatchShape, ClearShape, SetShape]

  lemma SymbolsDiffer()
    ensures |Shapes| == 7
    ensures forall i, j :: 0 <= i < j < 7 ==> Shapes[i][0].symbol != Shapes[j][0].symbol
  {
    assert "delete"[0] == 'd' && "rename"[0] == 'r' && "add_dir"[4] == 'd' && "add_file"[4] == 'f' && "patch"[0] == 'p'
      && "clear"[0] == 'c' && "set"[0] == 's' && "add_dir"[0] == 'a' && "add_file"[0] == 'a';
  }

  lemma ShapesSeparate()
    ensures Separate(Shapes)
  {
    SymbolsDiffer();
    assert "attr"[0] == 'a' && "value"[0] == 'v' && "to"[0] == 't' && "content"[1] == 'o' && "clear"[1] == 'l' && "from"[0] == 'f';
    assert AttrShape(ClearShape) && AttrShape(SetShape);
    forall i, j | 0 <= i < |Shapes| && 0 <= j < |Shapes| && i != j && AttrShape(Shapes[i])
      ensures !Mentions(Shapes[j], Shapes[i][0].symbol)
    {
      assert i == 5 || i == 6;
    }
  }

  // ---------- a change set as tables ----------

  function PathTable(s: set<FilePath>): Table {
    map p | p in s :: (p, "") := [p]
  }

  function PairTable(m: map<FilePath, string>): Table {
    map p | p in m :: (p, "") := [p, m[p]]
  }

  function DeltaTable(m: map<FilePath, (string, string)>): Table {
    map p | p in m :: (p, "") := [p, m[p].0, m[p].1]
  }

  function ClearTable(s: set<Key>): Table {
    map a | a in s :: a := [a.0, a.1]
  }

  function AttrTable(m: map<Key, string>): Table {
    map a | a in m :: a := [a.0, a.1, m[a]]
  }

  function TablesOf(cs: Cset): seq<Table> {
    [PathTable(cs.deleted), PairTable(cs.renamed), PathTable(cs.dirs), PairTable(cs.files), DeltaTable(cs.deltas),
     ClearTable(cs.cleared), AttrTable(cs.attrs)]
  }

  function PathsIn(t: Table): set<FilePath> {
    set k | k in t :: k.0
  }

  function PairsIn(t: Table): map<FilePath, string> {
    map p | p in PathsIn(t) && (p, "") in t && |t[(p, "")]| > 1 :: t[(p, "")][1]
  }

  function DeltasIn(t: Table): map<FilePath, (string, string)> {
    map p | p in PathsIn(t) && (p, "") in t && |t[(p, "")]| > 2 :: (t[(p, "")][1], t[(p, "")][2])
  }

  function AttrsIn(t: Table): map<Key, string> {
    map a | a in t && |t[a]| > 2 :: t[a][2]
  }

  function CsetOf(tables: seq<Table>): Cset
    requires |tables| == 7
  {
    Cset(PathsIn(tables[0]), PathsIn(tables[2]), PairsIn(tables[3]), PairsIn(tables[1]), DeltasIn(tables[4]),
         tables[5].Keys, AttrsIn(tables[6]))
  }

  ghost predicate PathsOk(s: set<FilePath>) {
    forall p :: p in s ==> ValidPath(p)
  }

  ghost predicate PairsOk(kind: Kind, m: map<FilePath, string>) {
    forall p :: p in m ==> ValidPath(p) && ValueOk(kind, m[p])
  }

  ghost predicate DeltasOk(m: map<FilePath, (string, string)>) {
    forall p :: p in m ==> ValidPath(p) && ValueOk(HexValue, m[p].0) && ValueOk(HexValue, m[p].1)
  }

  ghost predicate KeysOk(s: set<Key>) {
    forall a :: a in s ==> ValidPath(a.0)
  }

  /** The values a change set may hold: valid paths, identifiers of 20 bytes or none. */
  ghost predicate ValidCset(cs: Cset) {
    && PathsOk(cs.deleted) && PairsOk(PathValue, cs.renamed) && PathsOk(cs.dirs) && PairsOk(HexValue, cs.files)
    && DeltasOk(cs.deltas) && KeysOk(cs.cleared) && KeysOk(cs.attrs.Keys)
  }

  lemma PathsBack(s: set<FilePath>)
    ensures PathsIn(PathTable(s)) == s
  {
    forall p | p in s ensures p in PathsIn(PathTable(s)) {
      assert (p, "") in PathTable(s);
    }
  }

  lemma PairsBack(m: map<FilePath, string>)
    ensures PairsIn(PairTable(m)) == m
  {
    forall p | p in m ensures p in PairsIn(PairTable(m)) {
      assert (p, "") in PairTable(m);
    }
  }

  lemma DeltasBack(m: map<FilePath, (string, string)>)
    ensures DeltasIn(DeltaTable(m)) == m
  {
    assert DeltasIn(DeltaTable(m)).Keys == m.Keys by {
      forall p | p in m ensures p in DeltasIn(DeltaTable(m)) {
        assert (p, "") in DeltaTable(m) && (p, "").0 == p;
      }
    }
  }

  lemma AttrsBack(m: map<Key, string>)
    ensures AttrsIn(AttrTable(m)) == m
  {
  }

  lemma CsetOfTables(cs: Cset)
    ensures CsetOf(TablesOf(cs)) == cs
  {
    PathsBack(cs.deleted);
    PathsBack(cs.dirs);
    PairsBack(cs.files);
    PairsBack(cs.renamed);
    DeltasBack(cs.deltas);
    AttrsBack(cs.attrs);
    assert ClearTable(cs.cleared).Keys == cs.cleared;
  }

  // ---------- tables of the right shape come from change sets ----------

  ghost predicate PathRows(t: Table, n: nat) {
    forall k :: k in t ==> k == (k.0, "") && |t[k]| == n && n >= 1 && t[k][..1] == [k.0]
  }

  ghost predicate AttrRows(t: Table, n: nat) {
    forall k :: k in t ==> |t[k]| == n && n >= 2 && t[k][..2] == [k.0, k.1]
  }

  lemma RowsAreShaped(shape: Shape, t: Table)
    requires shape != [] && TableOk(shape, t)
    ensures |shape| == 1 || shape[1].kind != StringValue ==> PathRows(t, |shape|)
    ensures |shape| > 1 && shape[1].kind == StringValue ==> AttrRows(t, |shape|)
  {
    forall k | k in t ensures RowOk(shape, t[k]) && KeyOf(shape, t[k]) == k {
      assert EntryOk(shape, t, k);
    }
  }

  lemma PathTableBack(t: Table)
    requires PathRows(t, 1)
    ensures PathTable(PathsIn(t)) == t
  {
    forall k | k in t ensures t[k] == [k.0] {
      assert t[k] == t[k][..1];
    }
  }

  lemma PairTableBack(t: Table)
    requires PathRows(t, 2)
    ensures PairTable(PairsIn(t)) == t
  {
    forall k | k in t ensures k == (k.0, "") && t[k] == [k.0, t[k][1]] {
      assert t[k][0] == t[k][..1][0];
    }
  }

  lemma DeltaTableBack(t: Table)
    requires PathRows(t, 3)
    ensures DeltaTable(DeltasIn(t)) == t
  {
    var m := DeltasIn(t);
    forall k | k in t ensures k == (k.0, "") && t[k] == [k.0, t[k][1], t[k][2]] {
      assert t[k][0] == t[k][..1][0];
    }
    forall k | k in t ensures k.0 in m && m[k.0] == (t[k][1], t[k][2]) {
      assert k.0 in PathsIn(t) && (k.0, "") == k;
    }
    assert DeltaTable(m).Keys == t.Keys;
  }

  lemma ClearTableBack(t: Table)
    requires AttrRows(t, 2)
    ensures ClearTable(t.Keys) == t
  {
    forall k | k in t ensures t[k] == [k.0, k.1] {
      assert t[k] == t[k][..2];
    }
  }

  lemma AttrTableBack(t: Table)
    requires AttrRows(t, 3)
    ensures AttrTable(AttrsIn(t)) == t
  {
    forall k | k in t ensures t[k] == [k.0, k.1, t[k][2]] {
      assert t[k][0] == t[k][..2][0] && t[k][1] == t[k][..2][1];
    }
  }

  lemma TablesBack(t0: Table, t1: Table, t2: Table, t3: Table, t4: Table, t5: Table, t6: Table)
    requires PathRows(t0, 1) && PathRows(t1, 2) && PathRows(t2, 1) && PathRows(t3, 2) && PathRows(t4, 3)
    requires AttrRows(t5, 2) && AttrRows(t6, 3)
    ensures TablesOf(CsetOf([t0, t1, t2, t3, t4, t5, t6])) == [t0, t1, t2, t3, t4, t5, t6]
  {
    PathTableBack(t0);
    PairTableBack(t1);
    PathTableBack(t2);
    PairTableBack(t3);
    DeltaTableBack(t4);
    ClearTableBack(t5);
    AttrTableBack(t6);
  }

  lemma TablesOfCset(tables: seq<Table>)
    requires ShapesOk(Shapes) && TablesOk(Shapes, tables)
    ensures TablesOf(CsetOf(tables)) == tables
  {
    assert tables == [tables[0], tables[1], tables[2], tables[3], tables[4], tables[5], tables[6]];
    forall i | 0 <= i < 7
      ensures |Shapes[i]| == 1 || Shapes[i][1].kind != StringValue ==> PathRows(tables[i], |Shapes[i]|)
      ensures |Shapes[i]| > 1 && Shapes[i][1].kind == StringValue ==> AttrRows(tables[i], |Shapes[i]|)
    {
      RowsAreShaped(Shapes[i], tables[i]);
    }
    assert PathRows(tables[0], |Shapes[0]|) && PathRows(tables[1], |Shapes[1]|) && PathRows(tables[2], |Shapes[2]|);
    assert PathRows(tables[3], |Shapes[3]|) && PathRows(tables[4], |Shapes[4]|);
    assert AttrRows(tables[5], |Shapes[5]|) && AttrRows(tables[6], |Shapes[6]|);
    TablesBack(tables[0], tables[1], tables[2], tables[3], tables[4], tables[5], tables[6]);
  }

  // ---------- valid change sets and well-formed tables ----------

  lemma PathTableOk(shape: Shape, s: set<FilePath>)
    requires |shape| == 1 && shape[0].kind == PathValue
    ensures TableOk(shape, PathTable(s)) <==> PathsOk(s)
  {
    var t := PathTable(s);
    forall p | p in s ensures EntryOk(shape, t, (p, "")) <==> ValidPath(p) {
      assert (p, "") in t && t[(p, "")] == [p];
    }
    if PathsOk(s) {
      forall k ensures EntryOk(shape, t, k) {
      }
    }
  }

  lemma PairTableOk(shape: Shape, m: map<FilePath, string>)
    requires |shape| == 2 && shape[0].kind == PathValue && shape[1].kind != StringValue
    ensures TableOk(shape, PairTable(m)) <==> PairsOk(shape[1].kind, m)
  {
    var t := PairTable(m);
    forall p | p in m ensures EntryOk(shape, t, (p, "")) <==> ValidPath(p) && ValueOk(shape[1].kind, m[p]) {
      assert (p, "") in t && t[(p, "")] == [p, m[p]];
    }
    if PairsOk(shape[1].kind, m) {
      forall k ensures EntryOk(shape, t, k) {
      }
    }
  }

  lemma PatchRow(p: FilePath, a: string, b: string)
    ensures RowOk(PatchShape, [p, a, b]) <==> ValidPath(p) && ValueOk(HexValue, a) && ValueOk(HexValue, b)
  {
    var row := [p, a, b];
    if RowOk(PatchShape, row) {
      assert ValueOk(PatchShape[0].kind, row[0]) && ValueOk(PatchShape[1].kind, row[1]) && ValueOk(PatchShape[2].kind, row[2]);
    }
  }

  lemma DeltaTableOk(m: map<FilePath, (string, string)>)
    ensures TableOk(PatchShape, DeltaTable(m)) <==> DeltasOk(m)
  {
    var t := DeltaTable(m);
    forall p | p in m
      ensures EntryOk(PatchShape, t, (p, "")) <==> ValidPath(p) && ValueOk(HexValue, m[p].0) && ValueOk(HexValue, m[p].1)
    {
      assert (p, "") in t && t[(p, "")] == [p, m[p].0, m[p].1];
      PatchRow(p, m[p].0, m[p].1);
    }
    if DeltasOk(m) {
      forall k ensures EntryOk(PatchShape, t, k) {
      }
    }
  }

  lemma ClearTableOk(s: set<Key>)
    ensures TableOk(ClearShape, ClearTable(s)) <==> KeysOk(s)
  {
    var t := ClearTable(s);
    forall a | a in s ensures EntryOk(ClearShape, t, a) <==> ValidPath(a.0) {
      assert t[a] == [a.0, a.1];
    }
    if KeysOk(s) {
      forall k ensures EntryOk(ClearShape, t, k) {
      }
    }
  }

  lemma AttrTableOk(m: map<Key, string>)
    ensures TableOk(SetShape, AttrTable(m)) <==> KeysOk(m.Keys)
  {
    var t := AttrTable(m);
    forall a | a in m ensures EntryOk(SetShape, t, a) <==> ValidPath(a.0) {
      assert t[a] == [a.0, a.1, m[a]];
    }
    if KeysOk(m.Keys) {
      forall k ensures EntryOk(SetShape, t, k) {
      }
    }
  }

  lemma ValidTables(cs: Cset)
    ensures ShapesOk(Shapes)
    ensures ValidCset(cs) <==> TablesOk(Shapes, TablesOf(cs))
  {
    SymbolsDiffer();
    PathTableOk(DeleteShape, cs.deleted);
    PairTableOk(RenameShape, cs.renamed);
    PathTableOk(AddDirShape, cs.dirs);
    PairTableOk(AddFileShape, cs.files);
    DeltaTableOk(cs.deltas);
    ClearTableOk(cs.cleared);
    AttrTableOk(cs.attrs);
    SevenTables(PathTable(cs.deleted), PairTable(cs.renamed), PathTable(cs.dirs), PairTable(cs.files), DeltaTable(cs.deltas),
                ClearTable(cs.cleared), AttrTable(cs.attrs));
  }

  lemma SevenTables(t0: Table, t1: Table, t2: Table, t3: Table, t4: Table, t5: Table, t6: Table)
    requires ShapesOk(Shapes)
    ensures TablesOk(Shapes, [t0, t1, t2, t3, t4, t5, t6]) <==>
      (&& TableOk(DeleteShape, t0) && TableOk(RenameShape, t1) && TableOk(AddDirShape, t2) && TableOk(AddFileShape, t3)
       && TableOk(PatchShape, t4) && TableOk(ClearShape, t5) && TableOk(SetShape, t6))
  {
    var ts := [t0, t1, t2, t3, t4, t5, t6];
    if TablesOk(Shapes, ts) {
      assert TableOk(Shapes[0], ts[0]) && TableOk(Shapes[1], ts[1]) && TableOk(Shapes[2], ts[2]) && TableOk(Shapes[3], ts[3]);
      assert TableOk(Shapes[4], ts[4]) && TableOk(Shapes[5], ts[5]) && TableOk(Shapes[6], ts[6]);
    }
  }

  // ---------- the two directions on tokens ----------

  /** The tokens `print_cset` writes. */
  ghost function CsetTokens(cs: Cset): seq<Token>
    requires ValidCset(cs)
  {
    ValidTables(cs);
    Printed(Shapes, TablesOf(cs))
  }

  /** `parse_cset` on tokens. */
  function ParseCset(ts: seq<Token>): Parsed<Cset> {
    match ParseSections(Shapes, ts)
    case Failed => Failed
    case Parsed(tables, rest) => Parsed(CsetOf(tables), rest)
  }

  /** Parsing what is printed for any change set gives that change set. */
  lemma ParseOfPrint(cs: Cset)
    requires ValidCset(cs)
    ensures ParseCset(CsetTokens(cs)) == Parsed(cs, [])
  {
    ValidTables(cs);
    ParsePrinted(Shapes, TablesOf(cs));
    CsetOfTables(cs);
  }

  /** No stanza on the root path is out of order. */
  ghost predicate RootInOrder(ts: seq<Token>) {
    NamesAscend(RootScan("clear", ts)) && NamesAscend(RootScan("set", ts))
  }

  lemma ScansAreTwo(ts: seq<Token>)
    ensures ScansOrdered(Shapes, ts) <==> RootInOrder(ts)
  {
    assert AttrShape(Shapes[5]) && AttrShape(Shapes[6]) by {
      ShapesSeparate();
      assert "clear"[0] == 'c' && "set"[0] == 's' && "attr"[0] == 'a' && "value"[0] == 'v';
    }
    assert Shapes[5][0].symbol == "clear" && Shapes[6][0].symbol == "set";
    forall i | 0 <= i < 7 && AttrShape(Shapes[i]) ensures i == 5 || i == 6 {
    }
  }

  /** Printing what was parsed gives the same tokens exactly when every hex token has an even
      number of digits and the root stanzas are in order. */
  lemma PrintOfParse(ts: seq<Token>, cs: Cset)
    requires AllLexable(ts) && ParseCset(ts) == Parsed(cs, [])
    ensures ValidCset(cs)
    ensures CsetTokens(cs) == ts <==> AllEven(ts) && RootInOrder(ts)
  {
    ShapesSeparate();
    var tables := ParseSections(Shapes, ts).value;
    PrintParsed(Shapes, ts, tables);
    TablesOfCset(tables);
    ValidTables(cs);
    RootsSeen(Shapes, ts);
    ScansAreTwo(ts);
  }

  /** Whatever is read is a change set of valid paths and identifiers. */
  lemma ParsedIsValid(ts: seq<Token>)
    requires AllLexable(ts) && ParseCset(ts).Parsed?
    ensures ValidCset(ParseCset(ts).value)
  {
    ShapesSeparate();
    var tables := ParseSections(Shapes, ts).value;
    ParsedTablesOk(Shapes, ts);
    TablesOfCset(tables);
    ValidTables(CsetOf(tables));
  }
}
