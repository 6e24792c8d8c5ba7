/** Stanzas of a fixed shape: a row of values under a row of symbols, as tokens and as text. */
module Stanzas {
  import opened BasicIo
  import opened HexCodec
  import opened Paths
  import opened PathRules

  datatype Kind = PathValue | HexValue | StringValue
  datatype Field = Field(symbol: string, kind: Kind)
  type Shape = seq<Field>
  type Row = seq<string>

  const IdBytes := 20

  // ---------- single values ----------

  predicate IsId(v: string) {
    v == [] || |v| == IdBytes
  }

  ghost predicate ValueOk(kind: Kind, v: string) {
    match kind
    case PathValue => ValidPath(v)
    case HexValue => IsBytes(v) && IsId(v)
    case StringValue => true
  }

  function WriteValue(kind: Kind, v: string): Token {
    if kind == HexValue then Hex(Encoded(v)) else Str(v)
  }

  function ReadValue(kind: Kind, t: Token): Option<string> {
    match kind
    case PathValue => if t.Str? && ValidPath(t.text) then Some(t.text) else None
    case HexValue =>
      if t.Hex? && Decoded(t.text).Some? && IsId(Decoded(t.text).value) then Decoded(t.text) else None
    case StringValue => if t.Str? then Some(t.text) else None
  }

  /** The digits of a hex token are lower-case digits. */
  predicate Lexable(t: Token) {
    t.Hex? ==> forall i :: 0 <= i < |t.text| ==> IsXDigit(t.text[i])
  }

  predicate EvenHex(t: Token) {
    t.Hex? ==> |t.text| % 2 == 0
  }

  lemma ReadWrittenHex(h: string, v: string)
    requires Decoded(h) == Some(v) && IsId(v)
    ensures ReadValue(HexValue, Hex(h)) == Some(v)
  {
  }

  lemma ReadWritten(kind: Kind, v: string)
    requires ValueOk(kind, v)
    ensures ReadValue(kind, WriteValue(kind, v)) == Some(v) && EvenHex(WriteValue(kind, v))
  {
    if kind == HexValue {
      DecodeEncoded(v);
      ReadWrittenHex(Encoded(v), v);
    }
  }

  /** A value read is written back as the same token, unless an odd hex digit was dropped. */
  lemma WriteRead(kind: Kind, t: Token)
    requires Lexable(t) && ReadValue(kind, t).Some?
    ensures ValueOk(kind, ReadValue(kind, t).value)
    ensures WriteValue(kind, ReadValue(kind, t).value) == t <==> EvenHex(t)
  {
    if kind == HexValue {
      EncodeDecoded(t.text);
      DecodeEncoded(Decoded(t.text).value);
      if |t.text| % 2 == 0 {
        assert 2 * (|t.text| / 2) == |t.text| && t.text[..|t.text|] == t.text;
      }
    }
  }

  // ---------- rows as tokens ----------

  ghost predicate RowOk(shape: Shape, row: Row) {
    |row| == |shape| && forall i :: 0 <= i < |shape| ==> ValueOk(shape[i].kind, row[i])
  }

  function RowTokens(shape: Shape, row: Row): seq<Token>
    requires |row| == |shape|
  {
    if shape == [] then []
    else [Sym(shape[0].symbol), WriteValue(shape[0].kind, row[0])] + RowTokens(shape[1..], row[1..])
  }

  datatype Parsed<T> = Parsed(value: T, rest: seq<Token>) | Failed

  function ParseRow(shape: Shape, ts: seq<Token>): (r: Parsed<Row>)
    ensures r.Parsed? ==> |r.value| == |shape| && |ts| == 2 * |shape| + |r.rest|
    decreases |shape|
  {
    if shape == [] then Parsed([], ts)
    else if |ts| < 2 || ts[0] != Sym(shape[0].symbol) then Failed
    else
      var v := ReadValue(shape[0].kind, ts[1]);
      var r := ParseRow(shape[1..], ts[2..]);
      if v.None? || r.Failed? then Failed else Parsed([v.value] + r.value, r.rest)
  }

  /** Reading a written row gives it back. */
  lemma {:induction false} ParseWrittenRow(shape: Shape, row: Row, rest: seq<Token>)
    requires RowOk(shape, row)
    ensures ParseRow(shape, RowTokens(shape, row) + rest) == Parsed(row, rest)
    decreases |shape|
  {
    var ts := RowTokens(shape, row) + rest;
    if shape == [] {
      assert ts == rest && row == [];
    } else {
      ParseWrittenRow(shape[1..], row[1..], rest);
      ReadWritten(shape[0].kind, row[0]);
      assert ts[2..] == RowTokens(shape[1..], row[1..]) + rest;
      assert row == [row[0]] + row[1..];
    }
  }

  ghost predicate AllLexable(ts: seq<Token>) {
    forall i :: 0 <= i < |ts| ==> Lexable(ts[i])
  }

  ghost predicate AllEven(ts: seq<Token>) {
    forall i :: 0 <= i < |ts| ==> EvenHex(ts[i])
  }

  lemma {:induction false} ParsedRowOk(shape: Shape, ts: seq<Token>)
    requires AllLexable(ts) && ParseRow(shape, ts).Parsed?
    ensures RowOk(shape, ParseRow(shape, ts).value)
    ensures ts[2 * |shape|..] == ParseRow(shape, ts).rest
    decreases |shape|
  {
    if shape != [] {
      ParsedRowOk(shape[1..], ts[2..]);
      WriteRead(shape[0].kind, ts[1]);
      assert ts[2..][2 * |shape[1..]|..] == ts[2 * |shape|..];
    }
  }

  /** A row read is written back as the same tokens exactly when all its hex tokens are even. */
  lemma {:induction false} WriteParsedRow(shape: Shape, ts: seq<Token>)
    requires AllLexable(ts) && ParseRow(shape, ts).Parsed?
    ensures ts[..2 * |shape|] == RowTokens(shape, ParseRow(shape, ts).value) <==> AllEven(ts[..2 * |shape|])
    decreases |shape|
  {
    if shape != [] {
      var row := ParseRow(shape[1..], ts[2..]).value;
      var v := ReadValue(shape[0].kind, ts[1]).value;
      var tail, us := ts[2..][..2 * |shape[1..]|], RowTokens(shape[1..], row);
      WriteParsedRow(shape[1..], ts[2..]);
      WriteRead(shape[0].kind, ts[1]);
      assert ts[..2 * |shape|] == [ts[0], ts[1]] + tail;
      assert ([v] + row)[1..] == row;
      assert RowTokens(shape, [v] + row) == [ts[0], WriteValue(shape[0].kind, v)] + us;
      EvenCons(ts[0], ts[1], tail);
      SameCons(ts[0], ts[1], WriteValue(shape[0].kind, v), tail, us);
    }
  }

  lemma SameCons(a: Token, b: Token, c: Token, ts: seq<Token>, us: seq<Token>)
    ensures [a, b] + ts == [a, c] + us <==> b == c && ts == us
  {
    var x, y := [a, b] + ts, [a, c] + us;
    assert x[1] == b && y[1] == c && x[2..] == ts && y[2..] == us;
  }

  lemma EvenCons(a: Token, b: Token, ts: seq<Token>)
    ensures AllEven([a, b] + ts) <==> EvenHex(a) && EvenHex(b) && AllEven(ts)
  {
    var all := [a, b] + ts;
    assert all[0] == a && all[1] == b;
    if AllEven(all) {
      forall i | 0 <= i < |ts| ensures EvenHex(ts[i]) {
        assert all[i + 2] == ts[i];
      }
    }
  }
}
