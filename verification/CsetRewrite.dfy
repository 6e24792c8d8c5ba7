/** Which texts are written back as they were read. */
module CsetRewrite {
  import opened Paths
  import opened PathRules
  import opened BasicIo
  import opened HexCodec
  import opened Stanzas
  import opened Sections
  import opened SectionList
  import opened RootOrder
  import opened Csets
  import opened CsetText
  import opened CsetReader

  lemma {:induction false} HexEndDigits(s: string)
    requires HexEnd(s).Some?
    ensures forall i :: 0 <= i < HexEnd(s).value ==> IsXDigit(s[i])
  {
    if s[0] != ']' {
      HexEndDigits(s[1..]);
    }
  }

  lemma {:induction false} TokensLexable(s: string)
    ensures AllLexable(Tokens(s))
    decreases |s|
  {
    match Lex(s) {
      case Found(t, rest) =>
        var u := SkipSpace(s);
        if !IsAlpha(u[0]) && u[0] == '[' {
          HexEndDigits(u[1..]);
        }
        TokensLexable(rest);
      case _ =>
    }
  }

  /** For every text read to its end: writing the result gives the same tokens exactly when the hex
      tokens are even and the root stanzas are in order. */
  lemma RewriteOfRead(text: string)
    requires Accepted(text) && ParseCset(Tokens(text)).rest == []
    ensures ValidCset(ParseCset(Tokens(text)).value)
    ensures CsetTokens(ParseCset(Tokens(text)).value) == Tokens(text) <==> AllEven(Tokens(text)) && RootInOrder(Tokens(text))
  {
    TokensLexable(text);
    PrintOfParse(Tokens(text), ParseCset(Tokens(text)).value);
  }

  lemma {:induction false} OnlySection(shapes: seq<Shape>, i: nat, ts: seq<Token>)
    requires ShapesOk(shapes) && i < |shapes| && ts != [] && ts[0] == Sym(shapes[i][0].symbol)
    requires ParseSection(shapes[i], ts, NoKey, map[]).Parsed? && ParseSection(shapes[i], ts, NoKey, map[]).rest == []
    ensures ParseSections(shapes, ts).Parsed? && ParseSections(shapes, ts).rest == []
    decreases |shapes|
  {
    if i == 0 {
      NothingLeft(shapes[1..]);
    } else {
      assert shapes[0][0].symbol != shapes[i][0].symbol;
      OnlySection(shapes[1..], i - 1, ts);
    }
  }

  lemma RootIsValid()
    ensures ValidPath("")
  {
    assert ToBytes("") == [];
  }

  lemma TwoFields(f: Field, g: Field, t: Token, u: Token, rest: seq<Token>)
    requires ReadValue(f.kind, t).Some? && ReadValue(g.kind, u).Some?
    ensures ParseRow([f, g], [Sym(f.symbol), t, Sym(g.symbol), u] + rest)
        == Parsed([ReadValue(f.kind, t).value, ReadValue(g.kind, u).value], rest)
  {
    var ts := [Sym(f.symbol), t, Sym(g.symbol), u] + rest;
    assert ts[2..] == [Sym(g.symbol), u] + rest && ts[2..][2..] == rest;
    assert [f, g][1..] == [g] && [g][1..] == [];
    var v, w := ReadValue(f.kind, t).value, ReadValue(g.kind, u).value;
    assert ParseRow([g], ts[2..]) == Parsed([w] + [], rest);
    assert [w] + [] == [w] && [v] + [w] == [v, w];
  }

  /** A hex token of one digit is accepted as the empty identifier and written back as no digits. */
  lemma OddHexLost(ts: seq<Token>)
    requires ts == [Sym("add_file"), Str(""), Sym("content"), Hex("0")]
    ensures ParseCset(ts).Parsed? && ParseCset(ts).rest == []
    ensures ValidCset(ParseCset(ts).value) && CsetTokens(ParseCset(ts).value) != ts
  {
    RootIsValid();
    EncodeDecoded("0");
    TwoFields(AddFileShape[0], AddFileShape[1], ts[1], ts[3], []);
    assert ts + [] == ts;
    ShapesSeparate();
    OnlySection(Shapes, 3, ts);
    assert !EvenHex(ts[3]);
    PrintOfParse(ts, ParseCset(ts).value);
  }

  /** Two root stanzas are accepted in the wrong order and written back in the right one. */
  lemma RootOrderLost(ts: seq<Token>)
    requires ts == [Sym("clear"), Str(""), Sym("attr"), Str("b"), Sym("clear"), Str(""), Sym("attr"), Str("a")]
    ensures ParseCset(ts).Parsed? && ParseCset(ts).rest == []
    ensures ValidCset(ParseCset(ts).value) && CsetTokens(ParseCset(ts).value) != ts
  {
    assert ParseCset(ts).Parsed? && ParseCset(ts).rest == [] by {
      TwoRoots(ts);
      ShapesSeparate();
      OnlySection(Shapes, 5, ts);
    }
    RootsBackwards(ts);
    PrintOfParse(ts, ParseCset(ts).value);
  }

  lemma TwoRoots(ts: seq<Token>)
    requires ts == [Sym("clear"), Str(""), Sym("attr"), Str("b"), Sym("clear"), Str(""), Sym("attr"), Str("a")]
    ensures var r := ParseSection(ClearShape, ts, NoKey, map[]); r.Parsed? && r.rest == []
  {
    var second := [Sym("clear"), Str(""), Sym("attr"), Str("a")];
    RootIsValid();
    TwoFields(ClearShape[0], ClearShape[1], Str(""), Str("b"), second);
    TwoFields(ClearShape[0], ClearShape[1], Str(""), Str("a"), []);
    assert ts == [Sym("clear"), Str(""), Sym("attr"), Str("b")] + second;
    assert second + [] == second && "a"[0] == 'a' && "b"[0] == 'b';
  }

  lemma RootsBackwards(ts: seq<Token>)
    requires ts == [Sym("clear"), Str(""), Sym("attr"), Str("b"), Sym("clear"), Str(""), Sym("attr"), Str("a")]
    ensures !NamesAscend(RootScan("clear", ts))
  {
    assert "attr"[0] == 'a' && "clear"[0] == 'c';
    var second := ts[4..];
    ScanSkips("clear", ts[1..4], second);
    assert ts[1..] == ts[1..4] + second;
    var names := RootScan("clear", ts);
    assert names == ["b"] + RootScan("clear", second);
    assert RootScan("clear", second) == ["a"] + RootScan("clear", second[1..]);
    assert names[0] == "b" && names[1] == "a";
    assert !BytesLess(names[0], names[1]);
  }

  lemma {:induction false} NoSection(shapes: seq<Shape>, ts: seq<Token>)
    requires ShapesOk(shapes) && ts != [] && forall i :: 0 <= i < |shapes| ==> ts[0] != Sym(shapes[i][0].symbol)
    ensures ParseSections(shapes, ts).Parsed? && ParseSections(shapes, ts).rest == ts
    ensures forall i :: 0 <= i < |shapes| ==> ParseSections(shapes, ts).value[i] == map[]
    decreases |shapes|
  {
    if shapes != [] {
      NoSection(shapes[1..], ts);
    }
  }

  /** A text that is one unknown symbol is accepted as the empty change set. */
  lemma TrailingTokenAccepted(k: string)
    requires IsSymbol(k) && forall i :: 0 <= i < |Shapes| ==> k != Shapes[i][0].symbol
    ensures Accepted(k) && ParseCset(Tokens(k)).value == Cset({}, {}, map[], map[], map[], {}, map[])
  {
    assert k + [] == k;
    SymbolFirst(k, []);
    assert Tokens(k) == [Sym(k)] + Tokens([]) && Tokens([]) == [];
    ShapesSeparate();
    NoSection(Shapes, Tokens(k));
  }
}
