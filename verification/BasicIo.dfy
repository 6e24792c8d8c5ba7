/** The token format of the repository's text files: reading tokens, escaping strings, hex
    identifiers and stanzas. */
module BasicIo {

  datatype Token = Sym(text: string) | Str(text: string) | Hex(text: string)

  // ---------- characters ----------

  predicate IsDigit(c: char) { '0' <= c <= '9' }
  predicate IsXDigit(c: char) { '0' <= c <= '9' || 'a' <= c <= 'f' }
  predicate IsAlpha(c: char) { 'a' <= c <= 'z' || 'A' <= c <= 'Z' }
  predicate IsSymbolChar(c: char) { IsDigit(c) || IsAlpha(c) || c == '_' }
  predicate IsSpace(c: char) { c == ' ' || c == '\n' || c == '\t' || c == '\r' || c as int == 11 || c as int == 12 }

  const Quote: char := '\"'
  const Backslash: char := '\\'

  // ---------- what the tokens of a text are ----------

  datatype Lexed = Found(token: Token, rest: string) | NoToken(rest: string) | Malformed
  datatype Option<T> = None | Some(value: T)

  function SkipSpace(s: string): (r: string)
    ensures |r| <= |s| && (r != [] ==> !IsSpace(r[0]))
  {
    if s != [] && IsSpace(s[0]) then SkipSpace(s[1..]) else s
  }

  function SymbolEnd(s: string): (n: nat)
    ensures n <= |s|
  {
    if s != [] && IsSymbolChar(s[0]) then 1 + SymbolEnd(s[1..]) else 0
  }

  /** The digits up to the closing bracket. */
  function HexEnd(s: string): (n: Option<nat>)
    ensures n.Some? ==> n.value < |s|
  {
    if s == [] then None
    else if s[0] == ']' then Some(0)
    else if !IsXDigit(s[0]) then None
    else
      var n := HexEnd(s[1..]);
      if n.None? then None else Some(1 + n.value)
  }

  /** The string up to the closing quote, escapes undone, and what follows the quote. */
  function Unescape(s: string): (r: Option<(string, string)>)
    ensures r.Some? ==> |r.value.1| < |s|
  {
    if s == [] then None
    else if s[0] == Quote then Some(([], s[1..]))
    else if s[0] == Backslash then
      if |s| == 1 || (s[1] != Quote && s[1] != Backslash) then None
      else
        var r := Unescape(s[2..]);
        if r.None? then None else Some(([s[1]] + r.value.0, r.value.1))
    else
      var r := Unescape(s[1..]);
      if r.None? then None else Some(([s[0]] + r.value.0, r.value.1))
  }

  function Prefixed(a: string, r: Option<(string, string)>): Option<(string, string)> {
    if r.None? then None else Some((a + r.value.0, r.value.1))
  }

  /** One character, or one escape, at the front of an unread string. */
  lemma UnescapeStep(a: string, s: string, n: nat)
    requires s != [] && s[0] != Quote
    requires if s[0] == Backslash then |s| > 1 && (s[1] == Quote || s[1] == Backslash) && n == 2 else n == 1
    ensures n <= |s| && Prefixed(a, Unescape(s)) == Prefixed(a + [s[n - 1]], Unescape(s[n..]))
  {
    var r := Unescape(s[n..]);
    if r.Some? {
      assert a + ([s[n - 1]] + r.value.0) == (a + [s[n - 1]]) + r.value.0;
    }
  }

  lemma UnescapeEnd(a: string, s: string)
    requires s != [] && s[0] == Quote
    ensures Prefixed(a, Unescape(s)) == Some((a, s[1..]))
  {
    assert a + [] == a;
  }

  lemma PrefixedNothing(r: Option<(string, string)>)
    ensures Prefixed([], r) == r
  {
    if r.Some? {
      assert [] + r.value.0 == r.value.0;
    }
  }

  function Lex(text: string): (r: Lexed)
    ensures r.Found? ==> |r.rest| < |text|
  {
    LexHere(SkipSpace(text))
  }

  function LexHere(s: string): (r: Lexed)
    ensures r.Found? ==> |r.rest| < |s|
    ensures r.NoToken? ==> r.rest == s
  {
    if s == [] then NoToken(s)
    else if IsAlpha(s[0]) then
      var n := SymbolEnd(s);
      Found(Sym(s[..n]), s[n..])
    else if s[0] == '[' then
      var n := HexEnd(s[1..]);
      if n.None? then Malformed else Found(Hex(s[1..][..n.value]), s[1..][n.value + 1..])
    else if s[0] == Quote then
      var r := Unescape(s[1..]);
      if r.None? then Malformed else Found(Str(r.value.0), r.value.1)
    else NoToken(s)
  }

  /** How a text goes on after its last token. */
  datatype End = AtEof | AtJunk | AtError

  function Tokens(s: string): seq<Token>
    decreases |s|
  {
    match Lex(s)
    case Found(t, rest) => [t] + Tokens(rest)
    case _ => []
  }

  function EndOf(s: string): End
    decreases |s|
  {
    match Lex(s)
    case Found(t, rest) => EndOf(rest)
    case NoToken(rest) => if rest == [] then AtEof else AtJunk
    case Malformed => AtError
  }

  /** Does the text end right behind its last token? */
  predicate EndsAtToken(s: string)
    decreases |s|
  {
    match Lex(s)
    case Found(t, rest) => rest == [] || EndsAtToken(rest)
    case _ => false
  }

  // ---------- the reader ----------

  const Eof: int := -1

  datatype TokenType = TokSymbol | TokString | TokHex | TokNone

  function TypeOf(t: Token): TokenType {
    match t
    case Sym(_) => TokSymbol
    case Str(_) => TokString
    case Hex(_) => TokHex
  }

  /** Input source, tokenizer and parser over one text. */
  class Parser {
    const text: string
    var curr: nat
    var lookahead: int
    var c: char
    var begin: nat
    var end: nat
    var token: string
    var ttype: TokenType

    predicate Inside()
      reads this
    {
      curr <= |text| && lookahead == if curr < |text| then text[curr] as int else Eof
    }

    function Rest(): string
      reads this
      requires curr <= |text|
    {
      text[curr..]
    }

    method Peek()
      requires curr <= |text|
      modifies this`lookahead
      ensures Inside()
    {
      lookahead := if curr != |text| then text[curr] as int else Eof;
    }

    /** `input_source::advance`: at the end of the text it stays there. */
    method Step()
      requires Inside()
      modifies this`curr, this`c, this`lookahead
      ensures Inside()
      ensures old(curr) < |text| ==> curr == old(curr) + 1 && c == text[old(curr)]
      ensures old(curr) == |text| ==> curr == old(curr) && c == old(c)
    {
      if curr != |text| {
        c := text[curr];
        curr := curr + 1;
      }
      Peek();
    }

    method SkipSpaces()
      requires curr <= |text|
      modifies this`curr, this`c, this`lookahead
      ensures Inside() && Rest() == SkipSpace(old(Rest()))
    {
      Peek();
      while lookahead != Eof && IsSpace(text[curr])
        invariant Inside() && SkipSpace(Rest()) == SkipSpace(old(Rest()))
        decreases |text| - curr
      {
        assert Rest()[1..] == text[curr + 1..];
        Step();
      }
    }

    method SymbolToken()
      requires Inside()
      modifies this
      ensures Inside() && old(Rest()) == token + Rest() && |token| == SymbolEnd(old(Rest()))
    {
      begin, end := curr, curr;
      while lookahead != Eof && IsSymbolChar(text[curr])
        invariant Inside() && begin == old(curr) <= curr == end
        invariant SymbolEnd(old(Rest())) == (curr - begin) + SymbolEnd(Rest())
        decreases |text| - curr
      {
        assert Rest()[1..] == text[curr + 1..];
        Step();
        end := curr;
      }
      token := text[begin..end];
    }

    method HexToken() returns (ok: bool)
      requires Inside()
      modifies this
      ensures Inside() && ok == HexEnd(old(Rest())).Some?
      ensures ok ==> var n := HexEnd(old(Rest())).value;
        token == old(Rest())[..n] && Rest() == old(Rest())[n + 1..]
    {
      begin, end := curr, curr;
      while lookahead != ']' as int
        invariant Inside() && begin == old(curr) <= curr == end
        invariant HexEnd(old(Rest())).Some? == HexEnd(Rest()).Some?
        invariant HexEnd(Rest()).Some? ==> HexEnd(old(Rest())).value == (curr - begin) + HexEnd(Rest()).value
        decreases |text| - curr
      {
        if lookahead == Eof {
          return false;
        }
        if !IsXDigit(text[curr]) {
          return false;
        }
        assert Rest()[1..] == text[curr + 1..];
        Step();
        end := curr;
      }
      token := text[begin..end];
      Step();
      return true;
    }

    /** The loop that copies character by character once an escape has been met. */
    method SlowString(sofar: string) returns (ok: bool)
      requires Inside()
      modifies this
      ensures Inside() && ok == Unescape(old(Rest())).Some?
      ensures ok ==> Some((token, Rest())) == Prefixed(sofar, Unescape(old(Rest())))
    {
      ghost var whole := Prefixed(sofar, Unescape(Rest()));
      token := sofar;
      while lookahead != Quote as int
        invariant Inside() && whole == Prefixed(token, Unescape(Rest()))
        decreases |text| - curr
      {
        ghost var s := Rest();
        if lookahead == Eof {
          return false;
        }
        if lookahead == Backslash as int {
          Step();
          if lookahead != Quote as int && lookahead != Backslash as int {
            return false;
          }
        }
        UnescapeStep(token, s, if s[0] == Backslash then 2 else 1);
        Step();
        assert Rest() == s[if s[0] == Backslash then 2 else 1..];
        token := token + [c];
      }
      ghost var s := Rest();
      UnescapeEnd(token, s);
      Step();
      assert Rest() == s[1..];
      return true;
    }

    /** The first escape: everything after it is read by the slow loop. */
    method EscapedString(sofar: string) returns (ok: bool)
      requires Inside() && lookahead == Backslash as int
      modifies this
      ensures Inside() && ok == Unescape(old(Rest())).Some?
      ensures ok ==> Some((token, Rest())) == Prefixed(sofar, Unescape(old(Rest())))
    {
      ghost var s := Rest();
      token := sofar;
      Step();
      if lookahead != Quote as int && lookahead != Backslash as int {
        return false;
      }
      UnescapeStep(token, s, 2);
      Step();
      assert Rest() == s[2..];
      ok := SlowString(token + [c]);
    }

    method StringToken() returns (ok: bool)
      requires Inside()
      modifies this
      ensures Inside() && ok == Unescape(old(Rest())).Some?
      ensures ok ==> Some((token, Rest())) == Unescape(old(Rest()))
    {
      ghost var whole := Unescape(Rest());
      begin, end := curr, curr;
      assert text[begin..end] == [];
      PrefixedNothing(whole);
      while lookahead != Quote as int
        invariant Inside() && begin <= curr == end && whole == Prefixed(text[begin..end], Unescape(Rest()))
        decreases |text| - curr
      {
        ghost var s := Rest();
        if lookahead == Eof {
          return false;
        }
        if lookahead == Backslash as int {
          ok := EscapedString(text[begin..end]);
          return;
        }
        UnescapeStep(text[begin..end], s, 1);
        Step();
        assert Rest() == s[1..] && text[begin..curr] == text[begin..end] + [s[0]];
        end := curr;
      }
      token := text[begin..end];
      ghost var s := Rest();
      UnescapeEnd(token, s);
      Step();
      assert Rest() == s[1..];
      return true;
    }

    method Bracketed() returns (ok: bool)
      requires Inside() && lookahead == '[' as int
      modifies this
      ensures Inside() && ok == !LexHere(old(Rest())).Malformed?
      ensures ok ==> Current(LexHere(old(Rest())))
    {
      ghost var s := Rest();
      Step();
      assert Rest() == s[1..];
      ok := HexToken();
      ttype := TokHex;
    }

    method Quoted() returns (ok: bool)
      requires Inside() && lookahead == Quote as int
      modifies this
      ensures Inside() && ok == !LexHere(old(Rest())).Malformed?
      ensures ok ==> Current(LexHere(old(Rest())))
    {
      ghost var s := Rest();
      Step();
      assert Rest() == s[1..];
      ok := StringToken();
      ttype := TokString;
    }

    /** `get_token`; `ok` is false when the input is malformed. */
    method GetToken() returns (ok: bool)
      requires curr <= |text|
      modifies this
      ensures Inside() && ok == !Lex(old(Rest())).Malformed?
      ensures ok ==> Current(Lex(old(Rest())))
    {
      SkipSpaces();
      ghost var s := Rest();
      if lookahead == Eof {
        ttype := TokNone;
      } else if IsAlpha(text[curr]) {
        SymbolToken();
        ttype := TokSymbol;
        assert token == s[..SymbolEnd(s)] && Rest() == s[SymbolEnd(s)..];
      } else if lookahead == '[' as int {
        ok := Bracketed();
        return;
      } else if lookahead == Quote as int {
        ok := Quoted();
        return;
      } else {
        ttype := TokNone;
      }
      ok := true;
    }

    /** The current token and the unread text are those of `l`. */
    predicate Current(l: Lexed)
      reads this
    {
      curr <= |text| &&
      match l
      case Found(t, rest) => ttype == TypeOf(t) && token == t.text && Rest() == rest
      case NoToken(rest) => ttype == TokNone && Rest() == rest
      case Malformed => false
    }

    // ---------- tokens still to come ----------

    predicate Valid()
      reads this
    {
      Inside() && (ttype == TokNone ==> Lex(Rest()) == NoToken(Rest()))
    }

    /** The current token and all that follow. */
    function Left(): seq<Token>
      reads this
      requires Inside()
    {
      match ttype
      case TokNone => []
      case TokSymbol => [Sym(token)] + Tokens(Rest())
      case TokString => [Str(token)] + Tokens(Rest())
      case TokHex => [Hex(token)] + Tokens(Rest())
    }

    function Ending(): End
      reads this
      requires Inside()
    {
      EndOf(Rest())
    }

    /** Does the text end right behind the last token, the current one included? */
    predicate Flush()
      reads this
      requires Inside()
    {
      ttype != TokNone && (Rest() == [] || EndsAtToken(Rest()))
    }

    /** `parser::advance`. */
    method Advance() returns (ok: bool)
      requires curr <= |text|
      modifies this
      ensures Inside() && ok == !(Tokens(old(Rest())) == [] && EndOf(old(Rest())) == AtError)
      ensures ok ==> Valid() && Left() == Tokens(old(Rest())) && Ending() == EndOf(old(Rest()))
      ensures ok ==> Flush() == EndsAtToken(old(Rest()))
    {
      ghost var s := Rest();
      ok := GetToken();
      if ok && Lex(s).NoToken? {
        LexAgain(s);
      }
    }

    constructor (text: string)
      ensures this.text == text && curr == 0 && fresh(this)
    {
      this.text := text;
      curr, lookahead, c, begin, end, token, ttype := 0, 0, 0 as char, 0, 0, [], TokNone;
    }
  }

  lemma LexAgain(s: string)
    requires Lex(s).NoToken?
    ensures Lex(Lex(s).rest) == Lex(s)
  {
  }

  // ---------- writing ----------

  function Escaped(s: string): string {
    if s == [] then []
    else if s[0] == Backslash || s[0] == Quote then [Backslash, s[0]] + Escaped(s[1..])
    else [s[0]] + Escaped(s[1..])
  }

  method Escape(s: string) returns (r: string)
    ensures r == [Quote] + Escaped(s) + [Quote]
  {
    r := [Quote];
    assert s[0..] == s;
    for i := 0 to |s|
      invariant r + Escaped(s[i..]) == [Quote] + Escaped(s)
    {
      assert s[i..][1..] == s[i + 1..];
      if s[i] == Backslash || s[i] == Quote {
        r := r + [Backslash];
      }
      r := r + [s[i]];
    }
    r := r + [Quote];
  }

  /** Reading what was escaped gives the string back, whatever bytes it holds. */
  lemma {:induction false} UnescapeEscaped(v: string, rest: string)
    ensures Unescape(Escaped(v) + [Quote] + rest) == Some((v, rest))
    decreases |v|
  {
    var s := Escaped(v) + [Quote] + rest;
    if v == [] {
      assert s == [Quote] + rest;
    } else {
      UnescapeEscaped(v[1..], rest);
      var t := Escaped(v[1..]) + [Quote] + rest;
      if v[0] == Backslash || v[0] == Quote {
        assert s == [Backslash, v[0]] + t;
      } else {
        assert s == [v[0]] + t;
      }
      assert v == [v[0]] + v[1..];
    }
  }

  lemma {:induction false} SkipSpaces(sp: string, s: string)
    requires forall i :: 0 <= i < |sp| ==> IsSpace(sp[i])
    ensures SkipSpace(sp + s) == SkipSpace(s)
  {
    if sp == [] {
      assert sp + s == s;
    } else {
      assert (sp + s)[1..] == sp[1..] + s;
      SkipSpaces(sp[1..], s);
    }
  }

  lemma SpacesFirst(sp: string, s: string)
    requires forall i :: 0 <= i < |sp| ==> IsSpace(sp[i])
    ensures Lex(sp + s) == Lex(s) && Tokens(sp + s) == Tokens(s) && EndOf(sp + s) == EndOf(s)
  {
    SkipSpaces(sp, s);
  }

  predicate IsSymbol(k: string) {
    k != [] && IsAlpha(k[0]) && forall i :: 0 <= i < |k| ==> IsSymbolChar(k[i])
  }

  lemma {:induction false} SymbolEnds(k: string, s: string)
    requires forall i :: 0 <= i < |k| ==> IsSymbolChar(k[i])
    requires s == [] || !IsSymbolChar(s[0])
    ensures SymbolEnd(k + s) == |k|
  {
    if k == [] {
      assert k + s == s;
    } else {
      assert (k + s)[1..] == k[1..] + s;
      SymbolEnds(k[1..], s);
    }
  }

  lemma SymbolFirst(k: string, s: string)
    requires IsSymbol(k) && (s == [] || !IsSymbolChar(s[0]))
    ensures Lex(k + s) == Found(Sym(k), s)
  {
    SymbolEnds(k, s);
    assert (k + s)[..|k|] == k && (k + s)[|k|..] == s;
  }

  lemma StringFirst(v: string, s: string)
    ensures Lex([Quote] + Escaped(v) + [Quote] + s) == Found(Str(v), s)
  {
    var t := [Quote] + Escaped(v) + [Quote] + s;
    assert t[1..] == Escaped(v) + [Quote] + s;
    UnescapeEscaped(v, s);
  }

  lemma {:induction false} HexEnds(h: string, s: string)
    requires forall i :: 0 <= i < |h| ==> IsXDigit(h[i])
    ensures HexEnd(h + [']'] + s) == Some(|h|)
  {
    var t := h + [']'] + s;
    if h == [] {
      assert t[0] == ']';
    } else {
      assert t[1..] == h[1..] + [']'] + s;
      HexEnds(h[1..], s);
    }
  }

  lemma HexFirst(h: string, s: string)
    requires forall i :: 0 <= i < |h| ==> IsXDigit(h[i])
    ensures Lex(['['] + h + [']'] + s) == Found(Hex(h), s)
  {
    var t := ['['] + h + [']'] + s;
    var u := h + [']'] + s;
    assert t[1..] == u;
    HexEnds(h, s);
    assert u[..|h|] == h && u[|h| + 1..] == s;
  }
}
