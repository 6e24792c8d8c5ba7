/** Which texts escape the order check: stanzas on the root path. */
module RootOrder {
  import opened Paths
  import opened BasicIo
  import opened Stanzas
  import opened Sections
  import opened SectionList

  /** The attribute names of the stanzas `sym ""`, found by looking at the tokens alone. */
  function RootScan(sym: string, ts: seq<Token>): seq<string> {
    if |ts| < 4 then []
    else (if ts[0] == Sym(sym) && ts[1] == Str([]) && ts[3].Str? then [ts[3].text] else []) + RootScan(sym, ts[1..])
  }

  lemma {:induction false} ScanSkips(sym: string, a: seq<Token>, rest: seq<Token>)
    requires Sym(sym) !in a
    ensures RootScan(sym, a + rest) == RootScan(sym, rest)
    decreases |a|
  {
    if a == [] {
      assert a + rest == rest;
    } else {
      assert (a + rest)[1..] == a[1..] + rest && (a + rest)[0] == a[0];
      ScanSkips(sym, a[1..], rest);
    }
  }

  predicate Mentions(shape: Shape, sym: string) {
    exists i :: 0 <= i < |shape| && shape[i].symbol == sym
  }

  lemma {:induction false} RowSymbols(shape: Shape, ts: seq<Token>, sym: string)
    requires ParseRow(shape, ts).Parsed? && !Mentions(shape, sym)
    ensures Sym(sym) !in ts[..2 * |shape|]
    decreases |shape|
  {
    if shape != [] {
      assert shape[0].symbol != sym;
      assert !Mentions(shape[1..], sym) by {
        forall i | 0 <= i < |shape[1..]| ensures shape[1..][i].symbol != sym {
          assert shape[1..][i] == shape[i + 1];
        }
      }
      RowSymbols(shape[1..], ts[2..], sym);
      assert ts[..2 * |shape|] == [ts[0], ts[1]] + ts[2..][..2 * |shape[1..]|];
    }
  }

  /** A section that does not mention the symbol is passed over. */
  lemma {:induction false} SkipSection(shape: Shape, ts: seq<Token>, sym: string)
    requires shape != [] && AllLexable(ts) && !Mentions(shape, sym)
    ensures RootScan(sym, ts) == RootScan(sym, ReadRest(shape, ts))
    decreases |ts|
  {
    if RowAhead(shape, ts) {
      var rest := ParseRow(shape, ts).rest;
      ParsedRowOk(shape, ts);
      RowSymbols(shape, ts, sym);
      assert ts == ts[..2 * |shape|] + rest;
      ScanSkips(sym, ts[..2 * |shape|], rest);
      SkipSection(shape, rest, sym);
    }
  }

  /** Stanzas with an attribute name in second place. */
  predicate AttrShape(shape: Shape) {
    |shape| > 1 && shape[1].kind == StringValue && shape[0].kind == PathValue && !Mentions(shape[1..], shape[0].symbol)
  }

  /** The first two values of a row, where they stand in the tokens. */
  lemma RowValues(shape: Shape, ts: seq<Token>)
    requires AttrShape(shape) && ParseRow(shape, ts).Parsed?
    ensures |ts| >= 4 && ts[0] == Sym(shape[0].symbol)
    ensures ts[1] == Str(ParseRow(shape, ts).value[0]) && ts[3] == Str(ParseRow(shape, ts).value[1])
    ensures ParseRow(shape[1..], ts[2..]).Parsed?
  {
    var s := ParseRow(shape[1..], ts[2..]);
    var u := ParseRow(shape[1..][1..], ts[2..][2..]);
    assert s.value == [ReadValue(shape[1].kind, ts[3]).value] + u.value;
  }

  lemma ScanRow(shape: Shape, ts: seq<Token>)
    requires AttrShape(shape) && AllLexable(ts) && ParseRow(shape, ts).Parsed?
    ensures var r := ParseRow(shape, ts);
      RootScan(shape[0].symbol, ts) == (if r.value[0] == [] then [r.value[1]] else []) + RootScan(shape[0].symbol, r.rest)
  {
    var sym, r := shape[0].symbol, ParseRow(shape, ts);
    RowValues(shape, ts);
    RowSymbols(shape[1..], ts[2..], sym);
    ParsedRowOk(shape, ts);
    RestOfRow(ts, 2 * |shape|, r.rest);
    ScanSkips(sym, [ts[1]] + ts[2..][..2 * |shape| - 2], r.rest);
  }

  lemma RestOfRow(ts: seq<Token>, n: nat, rest: seq<Token>)
    requires 2 <= n <= |ts| && ts[n..] == rest
    ensures ts[1..] == [ts[1]] + ts[2..][..n - 2] + rest
  {
  }

  lemma {:induction false} ScanSection(shape: Shape, ts: seq<Token>)
    requires AttrShape(shape) && AllLexable(ts)
    ensures RootScan(shape[0].symbol, ts) == RootNames(ReadKeys(shape, ts)) + RootScan(shape[0].symbol, ReadRest(shape, ts))
    decreases |ts|
  {
    if RowAhead(shape, ts) {
      var rest := ParseRow(shape, ts).rest;
      ParsedRowOk(shape, ts);
      ScanRow(shape, ts);
      ScanSection(shape, rest);
      assert ReadKeys(shape, ts)[1..] == ReadKeys(shape, rest);
    }
  }

  // ---------- all sections ----------

  /** Stanzas whose key is the path alone. */
  predicate PathShape(shape: Shape) {
    shape != [] && (|shape| == 1 || shape[1].kind != StringValue)
  }

  lemma {:induction false} PathKeys(shape: Shape, ts: seq<Token>)
    requires PathShape(shape)
    ensures forall k :: k in ReadKeys(shape, ts) ==> k.1 == []
    decreases |ts|
  {
    if RowAhead(shape, ts) {
      PathKeys(shape, ParseRow(shape, ts).rest);
    }
  }

  ghost predicate Separate(shapes: seq<Shape>) {
    && ShapesOk(shapes)
    && (forall i :: 0 <= i < |shapes| ==> PathShape(shapes[i]) || AttrShape(shapes[i]))
    && (forall i, j :: 0 <= i < |shapes| && 0 <= j < |shapes| && i != j && AttrShape(shapes[i]) ==>
          !Mentions(shapes[j], shapes[i][0].symbol))
  }

  lemma {:induction false} SkipAll(shapes: seq<Shape>, ts: seq<Token>, sym: string)
    requires ShapesOk(shapes) && AllLexable(ts)
    requires ParseSections(shapes, ts).Parsed? && ParseSections(shapes, ts).rest == []
    requires forall i :: 0 <= i < |shapes| ==> !Mentions(shapes[i], sym)
    ensures RootScan(sym, ts) == []
    decreases |shapes|
  {
    if shapes != [] {
      var shape := shapes[0];
      var r := ParseSection(shape, ts, NoKey, map[]);
      SectionFacts(shape, ts, r.value, r.rest);
      ReadHolds(shape, ts, NoKey, map[]);
      LexableBoth(ReadHead(shape, ts), r.rest);
      SkipSection(shape, ts, sym);
      SkipAll(shapes[1..], r.rest, sym);
    }
  }

  ghost predicate ScansOrdered(shapes: seq<Shape>, ts: seq<Token>) {
    forall i :: 0 <= i < |shapes| && AttrShape(shapes[i]) ==> NamesAscend(RootScan(shapes[i][0].symbol, ts))
  }

  /** The order of the root stanzas can be seen in the tokens alone. */
  lemma {:induction false} RootsSeen(shapes: seq<Shape>, ts: seq<Token>)
    requires Separate(shapes) && AllLexable(ts)
    requires ParseSections(shapes, ts).Parsed? && ParseSections(shapes, ts).rest == []
    ensures RootsOrdered(shapes, ts) <==> ScansOrdered(shapes, ts)
    decreases |shapes|
  {
    if shapes != [] {
      var shape, more := shapes[0], shapes[1..];
      var r := ParseSection(shape, ts, NoKey, map[]);
      SectionFacts(shape, ts, r.value, r.rest);
      ReadHolds(shape, ts, NoKey, map[]);
      LexableBoth(ReadHead(shape, ts), r.rest);
      assert Separate(more) by {
        assert forall i :: 0 <= i < |more| ==> more[i] == shapes[i + 1];
      }
      RootsSeen(more, r.rest);
      FirstSeen(shapes, ts, r.rest);
      forall i | 0 <= i < |more| && AttrShape(more[i])
        ensures RootScan(more[i][0].symbol, ts) == RootScan(more[i][0].symbol, r.rest)
      {
        assert more[i] == shapes[i + 1] && !Mentions(shapes[0], shapes[i + 1][0].symbol);
        SkipSection(shape, ts, more[i][0].symbol);
      }
      ScansSplit(shapes, ts, r.rest);
    }
  }

  lemma ScansSplit(shapes: seq<Shape>, ts: seq<Token>, rest: seq<Token>)
    requires shapes != []
    requires forall i :: 0 <= i < |shapes[1..]| && AttrShape(shapes[1..][i]) ==>
      RootScan(shapes[1..][i][0].symbol, ts) == RootScan(shapes[1..][i][0].symbol, rest)
    ensures ScansOrdered(shapes, ts) <==>
      (AttrShape(shapes[0]) ==> NamesAscend(RootScan(shapes[0][0].symbol, ts))) && ScansOrdered(shapes[1..], rest)
  {
    var more := shapes[1..];
    assert forall i :: 0 <= i < |more| ==> more[i] == shapes[i + 1];
    if ScansOrdered(shapes, ts) {
      forall i | 0 <= i < |more| && AttrShape(more[i]) ensures NamesAscend(RootScan(more[i][0].symbol, rest)) {
        assert NamesAscend(RootScan(shapes[i + 1][0].symbol, ts));
      }
    }
    if (AttrShape(shapes[0]) ==> NamesAscend(RootScan(shapes[0][0].symbol, ts))) && ScansOrdered(more, rest) {
      forall i | 0 <= i < |shapes| && AttrShape(shapes[i]) ensures NamesAscend(RootScan(shapes[i][0].symbol, ts)) {
        if i > 0 {
          assert shapes[i] == more[i - 1];
        }
      }
    }
  }

  lemma FirstSeen(shapes: seq<Shape>, ts: seq<Token>, rest: seq<Token>)
    requires Separate(shapes) && shapes != [] && AllLexable(ts) && AllLexable(rest)
    requires ParseSection(shapes[0], ts, NoKey, map[]).Parsed? && ParseSection(shapes[0], ts, NoKey, map[]).rest == rest
    requires ParseSections(shapes[1..], rest).Parsed? && ParseSections(shapes[1..], rest).rest == []
    ensures NamesAscend(RootNames(ReadKeys(shapes[0], ts)))
        <==> (AttrShape(shapes[0]) ==> NamesAscend(RootScan(shapes[0][0].symbol, ts)))
  {
    var shape := shapes[0];
    SectionFacts(shape, ts, ParseSection(shape, ts, NoKey, map[]).value, rest);
    ReadHolds(shape, ts, NoKey, map[]);
    if AttrShape(shape) {
      ScanSection(shape, ts);
      forall i | 0 <= i < |shapes[1..]| ensures !Mentions(shapes[1..][i], shape[0].symbol) {
        assert shapes[1..][i] == shapes[i + 1];
      }
      SkipAll(shapes[1..], rest, shape[0].symbol);
      assert RootNames(ReadKeys(shape, ts)) + [] == RootNames(ReadKeys(shape, ts));
    } else {
      PathKeys(shape, ts);
      PathKeysOrdered(ReadKeys(shape, ts));
    }
  }
}
