/** Reading a change set from its text. */
module CsetReader {
  import opened Paths
  import opened PathRules
  import opened BasicIo
  import opened HexCodec
  import opened Stanzas
  import opened Sections
  import opened SectionList
  import opened Csets
  import opened CsetText
  import opened CsetStanzas
  import StanzaOrder

  /** A parse on tokens succeeds on the text unless the input is malformed right behind it: the
      parser always holds one token more than it has consumed. */
  predicate Reads<T>(r: Parsed<T>, end: End) {
    r.Parsed? && !(r.rest == [] && end == AtError)
  }

  /** What the parser has ahead of it. */
  ghost predicate At(p: Parser, left: seq<Token>, end: End, flush: bool)
    reads p
  {
    p.Valid() && p.Left() == left && p.Ending() == end && (left != [] ==> p.Flush() == flush)
  }

  /** `str`, `sym` and `hex`: the current token must be of the given type. */
  method Take(p: Parser, want: TokenType, ghost left: seq<Token>, ghost end: End, ghost flush: bool) returns (ok: bool, v: string)
    requires At(p, left, end, flush) && want != TokNone
    modifies p
    ensures ok == (left != [] && TypeOf(left[0]) == want && !(|left| == 1 && end == AtError))
    ensures ok ==> v == left[0].text && At(p, left[1..], end, flush)
  {
    v := p.token;
    if p.ttype != want {
      return false, v;
    }
    ok := p.Advance();
  }

  /** One value, checked as its kind demands. */
  method ReadOne(p: Parser, kind: Kind, ghost left: seq<Token>, ghost end: End, ghost flush: bool) returns (ok: bool, v: string)
    requires At(p, left, end, flush)
    modifies p
    ensures ok == (left != [] && ReadValue(kind, left[0]).Some? && !(|left| == 1 && end == AtError))
    ensures ok ==> v == ReadValue(kind, left[0]).value && At(p, left[1..], end, flush)
  {
    match kind {
      case PathValue =>
        ok, v := Take(p, TokString, left, end, flush);
        ok := ok && ValidPath(v);
      case StringValue =>
        ok, v := Take(p, TokString, left, end, flush);
      case HexValue =>
        ok, v := Take(p, TokHex, left, end, flush);
        if ok {
          ok, v := Decode(v);
          ok := ok && IsId(v);
        }
    }
  }

  /** The fields of one stanza, each behind its symbol. */
  method ReadRow(p: Parser, shape: Shape, ghost left: seq<Token>, ghost end: End, ghost flush: bool) returns (ok: bool, row: Row)
    requires At(p, left, end, flush)
    modifies p
    ensures ok == Reads(ParseRow(shape, left), end)
    ensures ok ==> row == ParseRow(shape, left).value && At(p, ParseRow(shape, left).rest, end, flush)
    decreases |shape|
  {
    row := [];
    if shape == [] {
      return true, row;
    }
    if !(p.ttype == TokSymbol && p.token == shape[0].symbol) {
      return false, row;
    }
    var v;
    ok, v := Take(p, TokSymbol, left, end, flush);
    if !ok {
      return;
    }
    ok, v := ReadOne(p, shape[0].kind, left[1..], end, flush);
    if !ok {
      return;
    }
    assert left[1..][1..] == left[2..];
    ok, row := ReadRow(p, shape[1..], left[2..], end, flush);
    row := [v] + row;
  }

  /** One of the seven loops of `parse_cset`. */
  method ReadSection(p: Parser, shape: Shape, ghost left: seq<Token>, ghost end: End, ghost flush: bool)
      returns (ok: bool, table: Table)
    requires At(p, left, end, flush) && shape != []
    modifies p
    ensures ok == Reads(ParseSection(shape, left, NoKey, map[]), end)
    ensures ok ==> table == ParseSection(shape, left, NoKey, map[]).value
    ensures ok ==> At(p, ParseSection(shape, left, NoKey, map[]).rest, end, flush)
  {
    table := map[];
    var prev := NoKey;
    ghost var now := left;
    ghost var whole := ParseSection(shape, left, NoKey, map[]);
    while p.ttype == TokSymbol && p.token == shape[0].symbol
      invariant At(p, now, end, flush) && whole == ParseSection(shape, now, prev, table)
      decreases |now|
    {
      var row;
      ok, row := ReadRow(p, shape, now, end, flush);
      if !ok {
        StuckRow(shape, now, prev, table, end);
        return;
      }
      now := ParseRow(shape, now).rest;
      var key := KeyOf(shape, row);
      if prev.0 != [] && !PairLess(prev, key) {
        return false, table;
      }
      if key in table {
        return false, table;
      }
      prev, table := key, table[key := row];
    }
    ok := true;
  }

  lemma StuckRow(shape: Shape, ts: seq<Token>, prev: Key, acc: Table, end: End)
    requires shape != [] && ts != [] && ts[0] == Sym(shape[0].symbol) && !Reads(ParseRow(shape, ts), end)
    ensures !Reads(ParseSection(shape, ts, prev, acc), end)
  {
  }

  method ReadSections(p: Parser, shapes: seq<Shape>, ghost left: seq<Token>, ghost end: End, ghost flush: bool)
      returns (ok: bool, tables: seq<Table>)
    requires At(p, left, end, flush) && forall i :: 0 <= i < |shapes| ==> shapes[i] != []
    modifies p
    ensures ok == Reads(ParseSections(shapes, left), end)
    ensures ok ==> tables == ParseSections(shapes, left).value && At(p, ParseSections(shapes, left).rest, end, flush)
    decreases |shapes|
  {
    tables := [];
    if shapes == [] {
      return true, tables;
    }
    var table;
    ok, table := ReadSection(p, shapes[0], left, end, flush);
    if !ok {
      StuckSection(shapes, left, end);
      return;
    }
    ok, tables := ReadSections(p, shapes[1..], ParseSection(shapes[0], left, NoKey, map[]).rest, end, flush);
    tables := [table] + tables;
  }

  lemma {:induction false} NothingLeft(shapes: seq<Shape>)
    requires forall i :: 0 <= i < |shapes| ==> shapes[i] != []
    ensures ParseSections(shapes, []).Parsed? && ParseSections(shapes, []).rest == []
    decreases |shapes|
  {
    if shapes != [] {
      NothingLeft(shapes[1..]);
    }
  }

  lemma StuckSection(shapes: seq<Shape>, ts: seq<Token>, end: End)
    requires shapes != [] && (forall i :: 0 <= i < |shapes| ==> shapes[i] != [])
    requires !Reads(ParseSection(shapes[0], ts, NoKey, map[]), end)
    ensures !Reads(ParseSections(shapes, ts), end)
  {
    NothingLeft(shapes[1..]);
  }

  /** What `read_cset` accepts: sections up to the end of the text, or sections followed by a single
      further token that ends the text. */
  predicate AcceptedBy(shapes: seq<Shape>, text: string)
    requires forall i :: 0 <= i < |shapes| ==> shapes[i] != []
  {
    var r := ParseSections(shapes, Tokens(text));
    r.Parsed? && if r.rest == [] then EndOf(text) == AtEof else |r.rest| == 1 && EndsAtToken(text)
  }

  lemma EofSeen(p: Parser, left: seq<Token>, end: End, flush: bool)
    requires At(p, left, end, flush)
    ensures p.lookahead == Eof <==> if left == [] then end == AtEof else |left| == 1 && flush
  {
    assert p.lookahead == Eof <==> p.Rest() == [];
    TokensLeft(p.Rest());
  }

  lemma TokensLeft(s: string)
    ensures s == [] ==> Tokens(s) == []
    ensures EndsAtToken(s) ==> Tokens(s) != []
  {
  }

  method ReadText(text: string, shapes: seq<Shape>) returns (ok: bool, tables: seq<Table>)
    requires forall i :: 0 <= i < |shapes| ==> shapes[i] != []
    ensures ok == AcceptedBy(shapes, text)
    ensures ok ==> tables == ParseSections(shapes, Tokens(text)).value
  {
    tables := [];
    var p := new Parser(text);
    assert p.Rest() == text;
    ok := p.Advance();
    if !ok {
      NothingLeft(shapes);
      return;
    }
    ok, tables := ReadSections(p, shapes, Tokens(text), EndOf(text), EndsAtToken(text));
    if ok {
      EofSeen(p, ParseSections(shapes, Tokens(text)).rest, EndOf(text), EndsAtToken(text));
      ok := p.lookahead == Eof;
    }
  }

  ghost predicate Accepted(text: string) {
    AcceptedBy(Shapes, text)
  }

  /** `read_cset`: every stanza of the text goes to its own field, and nothing else does. */
  method ReadCset(text: string) returns (ok: bool, cs: Cset)
    ensures ok == Accepted(text)
    ensures ok ==> cs == ParseCset(Tokens(text)).value && Says(Tokens(text), cs) && StanzaOrder.InOrder(Tokens(text))
  {
    cs := Cset({}, {}, map[], map[], map[], {}, map[]);
    var tables;
    ok, tables := ReadText(text, Shapes);
    if ok {
      cs := CsetOf(tables);
      ParsedSays(Tokens(text));
      StanzaOrder.ParsedInOrder(Tokens(text));
    }
  }
}
