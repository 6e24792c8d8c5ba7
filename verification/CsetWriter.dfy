/** Writing a change set as text, and reading it back. */
module CsetWriter {
  import opened Ordered
  import opened Paths
  import opened BasicIo
  import opened HexCodec
  import opened Stanzas
  import opened Sections
  import opened SectionList
  import opened Csets
  import opened CsetText
  import CsetStanzas
  import StanzaOrder
  import opened CsetReader

  // ---------- texts and their tokens ----------

  ghost predicate PrintsBefore(text: string, ts: seq<Token>, rest: string) {
    Tokens(text + rest) == ts + Tokens(rest) && EndOf(text + rest) == EndOf(rest)
  }

  /** Whatever follows, the text reads as these tokens. */
  ghost predicate Prints(text: string, ts: seq<Token>) {
    forall rest {:trigger PrintsBefore(text, ts, rest)} :: PrintsBefore(text, ts, rest)
  }

  lemma PrintsBoth(a: string, ts: seq<Token>, b: string, us: seq<Token>)
    requires Prints(a, ts) && Prints(b, us)
    ensures Prints(a + b, ts + us)
  {
    forall rest ensures PrintsBefore(a + b, ts + us, rest) {
      assert PrintsBefore(b, us, rest) && PrintsBefore(a, ts, b + rest);
      Associates(a, b, rest);
      Associates(ts, us, Tokens(rest));
    }
  }

  lemma PrintsNothing(sp: string)
    requires forall i :: 0 <= i < |sp| ==> IsSpace(sp[i])
    ensures Prints(sp, [])
  {
    forall rest ensures PrintsBefore(sp, [], rest) {
      SpacesFirst(sp, rest);
    }
  }

  lemma PrintsWhole(text: string, ts: seq<Token>)
    requires Prints(text, ts)
    ensures Tokens(text) == ts && EndOf(text) == AtEof
  {
    assert PrintsBefore(text, ts, []) && text + [] == text;
    assert Tokens([]) == [] && EndOf([]) == AtEof;
  }

  function ValueText(kind: Kind, v: string): string {
    if kind == HexValue then ['['] + Encoded(v) + [']'] else [Quote] + Escaped(v) + [Quote]
  }

  lemma {:induction false} EncodedDigits(v: string)
    ensures forall i :: 0 <= i < |Encoded(v)| ==> IsXDigit(Encoded(v)[i])
  {
    if v != [] {
      EncodedDigits(v[1..]);
    }
  }

  lemma ValuePrints(kind: Kind, v: string)
    ensures Prints(ValueText(kind, v), [WriteValue(kind, v)])
  {
    var text := ValueText(kind, v);
    forall rest ensures PrintsBefore(text, [WriteValue(kind, v)], rest) {
      if kind == HexValue {
        EncodedDigits(v);
        HexFirst(Encoded(v), rest);
      } else {
        StringFirst(v, rest);
      }
    }
  }

  function Spaces(n: nat): string {
    seq(n, _ => ' ')
  }

  /** One line of a stanza: the symbol right-aligned, then the value. */
  function Line(indent: nat, k: string, v: string): string {
    Spaces(if indent > |k| then indent - |k| else 0) + k + [' '] + v + ['\n']
  }

  lemma SymbolPrints(k: string)
    requires IsSymbol(k)
    ensures Prints(k + [' '], [Sym(k)])
  {
    forall rest ensures PrintsBefore(k + [' '], [Sym(k)], rest) {
      assert k + [' '] + rest == k + ([' '] + rest);
      SymbolFirst(k, [' '] + rest);
      SpacesFirst([' '], rest);
    }
  }

  lemma LinePrints(indent: nat, k: string, kind: Kind, v: string)
    requires IsSymbol(k)
    ensures Prints(Line(indent, k, ValueText(kind, v)), [Sym(k), WriteValue(kind, v)])
  {
    var sp := Spaces(if indent > |k| then indent - |k| else 0);
    var vt := ValueText(kind, v);
    PrintsNothing(sp);
    SymbolPrints(k);
    ValuePrints(kind, v);
    PrintsNothing(['\n']);
    PrintsBoth(sp, [], k + [' '], [Sym(k)]);
    PrintsBoth(sp + (k + [' ']), [] + [Sym(k)], vt, [WriteValue(kind, v)]);
    PrintsBoth(sp + (k + [' ']) + vt, [] + [Sym(k)] + [WriteValue(kind, v)], ['\n'], []);
    assert sp + (k + [' ']) + vt + ['\n'] == Line(indent, k, vt);
    assert [] + [Sym(k)] + [WriteValue(kind, v)] + [] == [Sym(k), WriteValue(kind, v)];
  }

  // ---------- stanzas ----------

  function Lines(indent: nat, entries: seq<(string, string)>): string {
    if entries == [] then [] else Line(indent, entries[0].0, entries[0].1) + Lines(indent, entries[1..])
  }

  function Entries(shape: Shape, row: Row): seq<(string, string)>
    requires |row| == |shape|
  {
    if shape == [] then []
    else [(shape[0].symbol, ValueText(shape[0].kind, row[0]))] + Entries(shape[1..], row[1..])
  }

  ghost predicate SymbolsOk(shape: Shape) {
    forall i :: 0 <= i < |shape| ==> IsSymbol(shape[i].symbol)
  }

  lemma {:induction false} LinesPrint(indent: nat, shape: Shape, row: Row)
    requires |row| == |shape| && SymbolsOk(shape)
    ensures Prints(Lines(indent, Entries(shape, row)), RowTokens(shape, row))
    decreases |shape|
  {
    if shape == [] {
      PrintsNothing([]);
    } else {
      LinesPrint(indent, shape[1..], row[1..]);
      LinePrints(indent, shape[0].symbol, shape[0].kind, row[0]);
      var es := Entries(shape, row);
      assert es[1..] == Entries(shape[1..], row[1..]);
      PrintsBoth(Line(indent, es[0].0, es[0].1), [Sym(shape[0].symbol), WriteValue(shape[0].kind, row[0])],
                 Lines(indent, es[1..]), RowTokens(shape[1..], row[1..]));
    }
  }

  class Stanza {
    var indent: nat
    var entries: seq<(string, string)>

    constructor ()
      ensures indent == 0 && entries == []
    {
      indent, entries := 0, [];
    }

    /** `push_file_pair`, `push_str_pair` and `push_binary_pair`. */
    method Push(k: string, kind: Kind, v: string)
      modifies this
      ensures entries == old(entries) + [(k, ValueText(kind, v))]
      ensures indent == if |k| > old(indent) then |k| else old(indent)
    {
      var s;
      if kind == HexValue {
        s := Encode(v);
        s := ['['] + s + [']'];
      } else {
        s := Escape(v);
      }
      entries := entries + [(k, s)];
      if |k| > indent {
        indent := |k|;
      }
    }
  }

  class Printer {
    var buf: string

    constructor ()
      ensures buf == []
    {
      buf := [];
    }

    /** One line: the padding, the symbol, the value. */
    method PrintLine(indent: nat, k: string, v: string)
      modifies this
      ensures buf == old(buf) + Line(indent, k, v)
    {
      var pad := "";
      for i := |k| to if indent > |k| then indent else |k|
        invariant pad == Spaces(i - |k|)
      {
        pad := pad + [' '];
      }
      buf := buf + pad;
      buf := buf + k;
      buf := buf + [' '];
      buf := buf + v;
      buf := buf + ['\n'];
    }

    /** A blank line between stanzas, symbols right-aligned. */
    method PrintStanza(indent: nat, entries: seq<(string, string)>)
      modifies this
      ensures buf == old(buf) + (if old(buf) == [] then [] else ['\n']) + Lines(indent, entries)
    {
      if buf != [] {
        buf := buf + ['\n'];
      }
      ghost var whole := buf + Lines(indent, entries);
      assert entries[0..] == entries;
      for i := 0 to |entries|
        invariant buf + Lines(indent, entries[i..]) == whole
      {
        assert entries[i..][1..] == entries[i + 1..];
        Associates(buf, Line(indent, entries[i].0, entries[i].1), Lines(indent, entries[i + 1..]));
        PrintLine(indent, entries[i].0, entries[i].1);
      }
      assert buf + [] == buf;
    }
  }

  // ---------- the printer's loops ----------

  lemma {:induction false} EntriesAppend(shape: Shape, row: Row, i: nat)
    requires |row| == |shape| && i < |shape|
    ensures Entries(shape[..i + 1], row[..i + 1]) == Entries(shape[..i], row[..i]) + [(shape[i].symbol, ValueText(shape[i].kind, row[i]))]
    decreases i
  {
    if i > 0 {
      assert shape[..i + 1][1..] == shape[1..][..i] && row[..i + 1][1..] == row[1..][..i];
      assert shape[..i][1..] == shape[1..][..i - 1] && row[..i][1..] == row[1..][..i - 1];
      EntriesAppend(shape[1..], row[1..], i - 1);
    }
  }

  lemma StanzaPrints(buf: string, ts: seq<Token>, indent: nat, shape: Shape, row: Row)
    requires Prints(buf, ts) && |row| == |shape| && SymbolsOk(shape)
    ensures Prints(buf + (if buf == [] then [] else ['\n']) + Lines(indent, Entries(shape, row)), ts + RowTokens(shape, row))
  {
    var sep := if buf == [] then [] else ['\n'];
    PrintsNothing(sep);
    PrintsBoth(buf, ts, sep, []);
    LinesPrint(indent, shape, row);
    PrintsBoth(buf + sep, ts + [], Lines(indent, Entries(shape, row)), RowTokens(shape, row));
    assert ts + [] == ts;
  }

  /** One stanza: push the fields, print the stanza. */
  method PrintRow(pr: Printer, shape: Shape, row: Row, ghost ts: seq<Token>)
    requires Prints(pr.buf, ts) && |row| == |shape| && SymbolsOk(shape)
    modifies pr
    ensures Prints(pr.buf, ts + RowTokens(shape, row))
  {
    var st := new Stanza();
    for i := 0 to |shape|
      invariant st.entries == Entries(shape[..i], row[..i]) && pr.buf == old(pr.buf)
    {
      EntriesAppend(shape, row, i);
      st.Push(shape[i].symbol, shape[i].kind, row[i]);
    }
    assert shape[..|shape|] == shape && row[..|row|] == row;
    StanzaPrints(pr.buf, ts, st.indent, shape, row);
    pr.PrintStanza(st.indent, st.entries);
  }

  lemma {:induction false} RowsAppend(shape: Shape, keys: seq<Key>, table: Table, i: nat)
    requires Rows(shape, keys, table) && i < |keys|
    ensures RowsTokens(shape, keys[..i + 1], table) == RowsTokens(shape, keys[..i], table) + RowTokens(shape, table[keys[i]])
    decreases i
  {
    if i == 0 {
      assert keys[..1] == [keys[0]] && keys[..1][1..] == [];
    } else {
      assert keys[..i + 1][1..] == keys[1..][..i] && keys[..i][1..] == keys[1..][..i - 1];
      RowsAppend(shape, keys[1..], table, i - 1);
      Associates(RowTokens(shape, table[keys[0]]), RowsTokens(shape, keys[1..][..i - 1], table), RowTokens(shape, table[keys[i]]));
    }
  }

  /** One of the seven loops of `print_cset`. */
  method PrintSection(pr: Printer, shape: Shape, table: Table, ghost ts: seq<Token>)
    requires Prints(pr.buf, ts) && shape != [] && SymbolsOk(shape) && TableOk(shape, table)
    modifies pr
    ensures Prints(pr.buf, ts + SectionTokens(shape, table))
  {
    PairsOrdered();
    SortedRows(shape, table);
    var order := InOrder(table.Keys, PairLess);
    assert KeysAscend(order);
    SortedUnique(order);
    assert (set k | k in order) == table.Keys;
    assert ts + [] == ts && order[..0] == [];
    for i := 0 to |order|
      invariant Prints(pr.buf, ts + RowsTokens(shape, order[..i], table))
    {
      RowsAppend(shape, order, table, i);
      Associates(ts, RowsTokens(shape, order[..i], table), RowTokens(shape, table[order[i]]));
      PrintRow(pr, shape, table[order[i]], ts + RowsTokens(shape, order[..i], table));
    }
    assert order[..|order|] == order;
  }

  method PrintSections(pr: Printer, shapes: seq<Shape>, tables: seq<Table>, ghost ts: seq<Token>)
    requires Prints(pr.buf, ts) && ShapesOk(shapes) && TablesOk(shapes, tables)
    requires forall i :: 0 <= i < |shapes| ==> SymbolsOk(shapes[i])
    modifies pr
    ensures Prints(pr.buf, ts + Printed(shapes, tables))
    decreases |shapes|
  {
    if shapes == [] {
      assert ts + [] == ts;
      return;
    }
    PrintSection(pr, shapes[0], tables[0], ts);
    PrintSections(pr, shapes[1..], tables[1..], ts + SectionTokens(shapes[0], tables[0]));
    Associates(ts, SectionTokens(shapes[0], tables[0]), Printed(shapes[1..], tables[1..]));
  }

  lemma ShapeSymbols()
    ensures forall i :: 0 <= i < |Shapes| ==> SymbolsOk(Shapes[i])
  {
  }

  /** `write_cset`. */
  method WriteCset(cs: Cset) returns (text: string)
    requires ValidCset(cs)
    ensures Tokens(text) == CsetTokens(cs) && EndOf(text) == AtEof && CsetStanzas.Says(Tokens(text), cs) && StanzaOrder.InOrder(Tokens(text))
  {
    ValidTables(cs);
    ShapeSymbols();
    var pr := new Printer();
    PrintsNothing([]);
    PrintSections(pr, Shapes, TablesOf(cs), []);
    assert [] + CsetTokens(cs) == CsetTokens(cs);
    PrintsWhole(pr.buf, CsetTokens(cs));
    text := pr.buf;
    ParseOfPrint(cs);
    CsetStanzas.ParsedSays(Tokens(text));
    StanzaOrder.ParsedInOrder(Tokens(text));
  }

  /** Reading what is written for any change set gives that change set. */
  method RoundTrip(cs: Cset) returns (ok: bool, cs': Cset)
    requires ValidCset(cs)
    ensures ok && cs' == cs
  {
    var text := WriteCset(cs);
    ParseOfPrint(cs);
    ok, cs' := ReadCset(text);
  }
}
