/** A text of several sections, one after the other. */
module SectionList {
  import opened Ordered
  import opened Paths
  import opened BasicIo
  import opened Stanzas
  import opened Sections

  /** Sections are told apart by their first symbols. */
  ghost predicate ShapesOk(shapes: seq<Shape>) {
    && (forall i :: 0 <= i < |shapes| ==> shapes[i] != [])
    && (forall i, j :: 0 <= i < j < |shapes| ==> shapes[i][0].symbol != shapes[j][0].symbol)
  }

  ghost predicate TablesOk(shapes: seq<Shape>, tables: seq<Table>)
    requires ShapesOk(shapes)
  {
    |tables| == |shapes| && forall i :: 0 <= i < |shapes| ==> TableOk(shapes[i], tables[i])
  }

  ghost function Printed(shapes: seq<Shape>, tables: seq<Table>): seq<Token>
    requires ShapesOk(shapes) && TablesOk(shapes, tables)
    decreases |shapes|
  {
    if shapes == [] then [] else SectionTokens(shapes[0], tables[0]) + Printed(shapes[1..], tables[1..])
  }

  function ParseSections(shapes: seq<Shape>, ts: seq<Token>): (r: Parsed<seq<Table>>)
    requires forall i :: 0 <= i < |shapes| ==> shapes[i] != []
    ensures r.Parsed? ==> |r.value| == |shapes|
    decreases |shapes|
  {
    if shapes == [] then Parsed([], ts)
    else
      match ParseSection(shapes[0], ts, NoKey, map[])
      case Failed => Failed
      case Parsed(table, rest) =>
        match ParseSections(shapes[1..], rest)
        case Failed => Failed
        case Parsed(tables, end) => Parsed([table] + tables, end)
  }

  // ---------- reading what was printed ----------

  lemma SectionStart(shape: Shape, table: Table)
    requires shape != [] && TableOk(shape, table) && SectionTokens(shape, table) != []
    ensures SectionTokens(shape, table)[0] == Sym(shape[0].symbol)
  {
    var keys := SortedKeys(table.Keys);
    SortedRows(shape, table);
    RowStart(shape, table[keys[0]]);
  }

  lemma {:induction false} PrintedStart(shapes: seq<Shape>, tables: seq<Table>)
    requires ShapesOk(shapes) && TablesOk(shapes, tables) && Printed(shapes, tables) != []
    ensures exists i :: 0 <= i < |shapes| && Printed(shapes, tables)[0] == Sym(shapes[i][0].symbol)
    decreases |shapes|
  {
    if SectionTokens(shapes[0], tables[0]) != [] {
      SectionStart(shapes[0], tables[0]);
    } else {
      PrintedStart(shapes[1..], tables[1..]);
      var i :| 0 <= i < |shapes[1..]| && Printed(shapes[1..], tables[1..])[0] == Sym(shapes[1..][i][0].symbol);
      assert shapes[i + 1] == shapes[1..][i];
    }
  }

  /** Reading a printed text gives all its tables back. */
  lemma {:induction false} ParsePrinted(shapes: seq<Shape>, tables: seq<Table>)
    requires ShapesOk(shapes) && TablesOk(shapes, tables)
    ensures ParseSections(shapes, Printed(shapes, tables)) == Parsed(tables, [])
    decreases |shapes|
  {
    if shapes != [] {
      var rest := Printed(shapes[1..], tables[1..]);
      assert StopsAt(shapes[0], rest) by {
        if rest != [] {
          PrintedStart(shapes[1..], tables[1..]);
          var i :| 0 <= i < |shapes[1..]| && rest[0] == Sym(shapes[1..][i][0].symbol);
          assert shapes[1..][i] == shapes[i + 1];
        }
      }
      SectionRoundTrip(shapes[0], tables[0], rest);
      ParsePrinted(shapes[1..], tables[1..]);
      HeadTail(tables);
    }
  }

  // ---------- printing what was read ----------

  /** The root names of every section, read in turn, are in order. */
  ghost predicate RootsOrdered(shapes: seq<Shape>, ts: seq<Token>)
    requires ShapesOk(shapes)
    decreases |shapes|
  {
    shapes == [] || (NamesAscend(RootNames(ReadKeys(shapes[0], ts))) && RootsOrdered(shapes[1..], ReadRest(shapes[0], ts)))
  }

  lemma LexableBoth(a: seq<Token>, b: seq<Token>)
    requires AllLexable(a + b)
    ensures AllLexable(a) && AllLexable(b)
  {
    forall i | 0 <= i < |a| ensures Lexable(a[i]) {
      assert (a + b)[i] == a[i];
    }
    forall i | 0 <= i < |b| ensures Lexable(b[i]) {
      assert (a + b)[|a| + i] == b[i];
    }
  }

  lemma {:induction false} PrintParsed(shapes: seq<Shape>, ts: seq<Token>, tables: seq<Table>)
    requires ShapesOk(shapes) && AllLexable(ts) && ParseSections(shapes, ts) == Parsed(tables, [])
    ensures TablesOk(shapes, tables) && |Printed(shapes, tables)| == |ts|
    ensures Printed(shapes, tables) == ts <==> AllEven(ts) && RootsOrdered(shapes, ts)
    decreases |shapes|
  {
    if shapes != [] {
      var shape, table := shapes[0], tables[0];
      var rest := ParseSection(shape, ts, NoKey, map[]).rest;
      assert SectionRead(shape, ts, table, rest);
      assert tables == [table] + ParseSections(shapes[1..], rest).value && tables[1..] == ParseSections(shapes[1..], rest).value;
      SectionFacts(shape, ts, table, rest);
      ReadHolds(shape, ts, NoKey, map[]);
      var head := ReadHead(shape, ts);
      LexableBoth(head, rest);
      PrintParsed(shapes[1..], rest, tables[1..]);
      SectionLength(shape, ts, table, rest);
      SectionPrinted(shape, head, rest, table);
      EvenBoth(head, rest);
      SameBoth(SectionTokens(shape, table), Printed(shapes[1..], tables[1..]), head, rest);
    }
  }

  /** Whatever follows, what was read has the shape of the sections. */
  lemma {:induction false} ParsedTablesOk(shapes: seq<Shape>, ts: seq<Token>)
    requires ShapesOk(shapes) && AllLexable(ts) && ParseSections(shapes, ts).Parsed?
    ensures TablesOk(shapes, ParseSections(shapes, ts).value)
    decreases |shapes|
  {
    if shapes != [] {
      var shape, section := shapes[0], ParseSection(shapes[0], ts, NoKey, map[]);
      SectionFacts(shape, ts, section.value, section.rest);
      LexableBoth(ReadHead(shape, ts), section.rest);
      ParsedTablesOk(shapes[1..], section.rest);
    }
  }
}
