/** Validation of UTF-8 text and counting of its characters. Bytes are numbers; a mask is written as
    the division or remainder it amounts to. */
module Utf8 {
  import opened Ordered

  type Byte = n: int | 0 <= n < 0x100

  // ---------- the encoding ----------

  /** Characters the validator admits: no surrogates, none of the named noncharacters. */
  predicate IsValidChar(c: nat) {
    c < 0x110000 && !(0xd800 <= c < 0xe000) && !(0xfdd0 <= c <= 0xfdef) && c % 0x10000 < 0xfffe
  }

  /** The shortest encoding, as tabulated in section 3 of RFC 3629. */
  function Encode(c: nat): seq<Byte>
    requires c < 0x110000
  {
    if c < 0x80 then [c]
    else if c < 0x800 then [0xc0 + c / 64, 0x80 + c % 64]
    else if c < 0x10000 then [0xe0 + c / 64 / 64, 0x80 + c / 64 % 64, 0x80 + c % 64]
    else [0xf0 + c / 64 / 64 / 64, 0x80 + c / 64 / 64 % 64, 0x80 + c / 64 % 64, 0x80 + c % 64]
  }

  ghost predicate ValidChars(cs: seq<nat>) {
    forall i :: 0 <= i < |cs| ==> IsValidChar(cs[i])
  }

  ghost function EncodeAll(cs: seq<nat>): seq<Byte>
    requires ValidChars(cs)
  {
    if cs == [] then [] else Encode(cs[0]) + EncodeAll(cs[1..])
  }

  /** Text that is a concatenation of shortest encodings of valid characters. */
  ghost predicate WellFormed(s: seq<Byte>) {
    exists cs: seq<nat> :: ValidChars(cs) && EncodeAll(cs) == s
  }

  // ---------- the first character of a text ----------

  predicate IsTail(b: Byte) {
    0x80 <= b <= 0xbf
  }

  /** The syntax of section 4 of RFC 3629. */
  predicate Syntax2(a: Byte, b: Byte) {
    0xc2 <= a <= 0xdf && IsTail(b)
  }

  predicate Syntax3(a: Byte, b: Byte, c: Byte) {
    && IsTail(c)
    && ((a == 0xe0 && 0xa0 <= b <= 0xbf) || (0xe1 <= a <= 0xec && IsTail(b))
        || (a == 0xed && 0x80 <= b <= 0x9f) || (0xee <= a <= 0xef && IsTail(b)))
  }

  predicate Syntax4(a: Byte, b: Byte, c: Byte, d: Byte) {
    && IsTail(c) && IsTail(d)
    && ((a == 0xf0 && 0x90 <= b <= 0xbf) || (0xf1 <= a <= 0xf3 && IsTail(b)) || (a == 0xf4 && 0x80 <= b <= 0x8f))
  }

  function Value2(a: Byte, b: Byte): nat {
    64 * (a % 32) + b % 64
  }

  function Value3(a: Byte, b: Byte, c: Byte): nat {
    64 * (64 * (a % 16) + b % 64) + c % 64
  }

  function Value4(a: Byte, b: Byte, c: Byte, d: Byte): nat {
    64 * (64 * (64 * (a % 8) + b % 64) + c % 64) + d % 64
  }

  lemma Shift(x: nat, y: nat)
    requires y < 64
    ensures (64 * x + y) / 64 == x && (64 * x + y) % 64 == y
  {
  }

  lemma LeadBits(a: Byte)
    ensures 0xc0 <= a < 0xe0 ==> a % 32 == a - 0xc0
    ensures 0xe0 <= a < 0xf0 ==> a % 16 == a - 0xe0
    ensures 0xf0 <= a < 0xf8 ==> a % 8 == a - 0xf0
    ensures IsTail(a) ==> a % 64 == a - 0x80
  {
  }

  lemma Encode2(a: Byte, b: Byte)
    requires Syntax2(a, b)
    ensures IsValidChar(Value2(a, b)) && Encode(Value2(a, b)) == [a, b]
  {
    LeadBits(a);
    LeadBits(b);
    Shift(a - 0xc0, b - 0x80);
  }

  lemma Encode3(a: Byte, b: Byte, c: Byte)
    requires Syntax3(a, b, c)
    ensures Value3(a, b, c) < 0x10000 && Encode(Value3(a, b, c)) == [a, b, c]
  {
    LeadBits(a);
    LeadBits(b);
    LeadBits(c);
    var x: nat := a - 0xe0;
    var y: nat := 64 * x + (b - 0x80);
    Shift(x, b - 0x80);
    Shift(y, c - 0x80);
    assert Value3(a, b, c) == 64 * y + (c - 0x80);
  }

  lemma Digits4(x: nat, y: nat, z: nat, w: nat)
    requires y < 64 && z < 64 && w < 64
    ensures var v := 64 * (64 * (64 * x + y) + z) + w;
      v % 64 == w && v / 64 % 64 == z && v / 64 / 64 % 64 == y && v / 64 / 64 / 64 == x
  {
    var p: nat := 64 * x + y;
    var q: nat := 64 * p + z;
    Shift(x, y);
    Shift(p, z);
    Shift(q, w);
  }

  lemma Range4(x: nat, y: nat, z: nat, w: nat)
    requires (x == 0 && 16 <= y < 64) || (1 <= x <= 3 && y < 64) || (x == 4 && y < 16)
    requires z < 64 && w < 64
    ensures 0x10000 <= 64 * (64 * (64 * x + y) + z) + w < 0x110000
  {
  }

  lemma Encode4Digits(v: nat, x: nat, y: nat, z: nat, w: nat)
    requires 0x10000 <= v < 0x110000
    requires v % 64 == w && v / 64 % 64 == z && v / 64 / 64 % 64 == y && v / 64 / 64 / 64 == x && x < 8
    ensures Encode(v) == [0xf0 + x, 0x80 + y, 0x80 + z, 0x80 + w]
  {
  }

  lemma Encode4(a: Byte, b: Byte, c: Byte, d: Byte)
    requires Syntax4(a, b, c, d)
    ensures Value4(a, b, c, d) < 0x110000 && Encode(Value4(a, b, c, d)) == [a, b, c, d]
  {
    LeadBits(a);
    LeadBits(b);
    LeadBits(c);
    LeadBits(d);
    Range4(a % 8, b % 64, c % 64, d % 64);
    Digits4(a % 8, b % 64, c % 64, d % 64);
    Encode4Digits(Value4(a, b, c, d), a % 8, b % 64, c % 64, d % 64);
  }

  lemma Split(c: nat)
    ensures c == 64 * (c / 64) + c % 64
  {
  }

  /** An encoding has the syntax of section 4, and gives its character back. */
  lemma EncodeSyntax(c: nat)
    requires IsValidChar(c)
    ensures c < 0x80 ==> Encode(c) == [c]
    ensures 0x80 <= c < 0x800 ==> var e := Encode(c); |e| == 2 && Syntax2(e[0], e[1])
    ensures 0x800 <= c < 0x10000 ==> var e := Encode(c);
      |e| == 3 && Syntax3(e[0], e[1], e[2]) && Value3(e[0], e[1], e[2]) == c
    ensures 0x10000 <= c ==> var e := Encode(c);
      |e| == 4 && Syntax4(e[0], e[1], e[2], e[3]) && Value4(e[0], e[1], e[2], e[3]) == c
  {
    var e := Encode(c);
    Split(c);
    if 0x800 <= c < 0x10000 {
      Syntax3Holds(c);
    } else if 0x10000 <= c {
      Syntax4Holds(c);
    }
  }

  lemma Syntax3Holds(c: nat)
    requires IsValidChar(c) && 0x800 <= c < 0x10000
    ensures var e := Encode(c); |e| == 3 && Syntax3(e[0], e[1], e[2]) && Value3(e[0], e[1], e[2]) == c
  {
    Split(c);
    Split(c / 64);
    var e := Encode(c);
    LeadBits(e[0]);
    LeadBits(e[1]);
    LeadBits(e[2]);
  }

  lemma Syntax4Holds(c: nat)
    requires IsValidChar(c) && 0x10000 <= c
    ensures var e := Encode(c);
      |e| == 4 && Syntax4(e[0], e[1], e[2], e[3]) && Value4(e[0], e[1], e[2], e[3]) == c
  {
    Split(c);
    Split(c / 64);
    Split(c / 64 / 64);
    var e := Encode(c);
    LeadBits(e[0]);
    LeadBits(e[1]);
    LeadBits(e[2]);
    LeadBits(e[3]);
  }

  /** The length of the first character, 0 if there is none. */
  function CharLength(s: seq<Byte>): (n: nat)
    ensures n <= |s|
  {
    if |s| >= 1 && s[0] < 0x80 then 1
    else if |s| >= 2 && Syntax2(s[0], s[1]) then 2
    else if |s| >= 3 && Syntax3(s[0], s[1], s[2]) && IsValidChar(Value3(s[0], s[1], s[2])) then 3
    else if |s| >= 4 && Syntax4(s[0], s[1], s[2], s[3]) && IsValidChar(Value4(s[0], s[1], s[2], s[3])) then 4
    else 0
  }

  predicate Accepts(s: seq<Byte>) {
    s == [] || (CharLength(s) > 0 && Accepts(s[CharLength(s)..]))
  }

  lemma FirstChar(s: seq<Byte>) returns (c: nat)
    requires CharLength(s) > 0
    ensures IsValidChar(c) && Encode(c) == s[..CharLength(s)]
  {
    if s[0] < 0x80 {
      c := s[0];
    } else if Syntax2(s[0], s[1]) {
      Encode2(s[0], s[1]);
      c := Value2(s[0], s[1]);
    } else if Syntax3(s[0], s[1], s[2]) {
      Encode3(s[0], s[1], s[2]);
      c := Value3(s[0], s[1], s[2]);
    } else {
      Encode4(s[0], s[1], s[2], s[3]);
      c := Value4(s[0], s[1], s[2], s[3]);
    }
  }

  lemma EncodedLength(c: nat, rest: seq<Byte>)
    requires IsValidChar(c)
    ensures CharLength(Encode(c) + rest) == |Encode(c)|
  {
    EncodeSyntax(c);
  }

  lemma EncodeCons(c: nat, cs: seq<nat>)
    requires IsValidChar(c) && ValidChars(cs)
    ensures ValidChars([c] + cs) && EncodeAll([c] + cs) == Encode(c) + EncodeAll(cs)
  {
    assert ([c] + cs)[1..] == cs;
  }

  /** The syntax walk accepts exactly the well-formed texts. */
  lemma {:induction false} AcceptsWellFormed(s: seq<Byte>)
    ensures Accepts(s) ==> WellFormed(s)
    decreases |s|
  {
    if s == [] {
      assert EncodeAll([]) == s;
    } else if Accepts(s) {
      var c := FirstChar(s);
      var n := CharLength(s);
      AcceptsWellFormed(s[n..]);
      var cs: seq<nat> :| ValidChars(cs) && EncodeAll(cs) == s[n..];
      EncodeCons(c, cs);
      TakeDrop(s, n);
    }
  }

  lemma {:induction false} WellFormedAccepts(cs: seq<nat>)
    requires ValidChars(cs)
    ensures Accepts(EncodeAll(cs))
    decreases |cs|
  {
    if cs != [] {
      var e, rest := Encode(cs[0]), EncodeAll(cs[1..]);
      EncodedLength(cs[0], rest);
      WellFormedAccepts(cs[1..]);
      assert (e + rest)[|e|..] == rest;
    }
  }

  lemma AcceptsExactly(s: seq<Byte>)
    ensures Accepts(s) <==> WellFormed(s)
  {
    AcceptsWellFormed(s);
    if WellFormed(s) {
      var cs: seq<nat> :| ValidChars(cs) && EncodeAll(cs) == s;
      WellFormedAccepts(cs);
    }
  }

  // ---------- the validator ----------

  lemma Masks(c: Byte)
    ensures c / 64 == 2 <==> IsTail(c)
    ensures c / 32 == 6 <==> 0xc0 <= c < 0xe0
    ensures c / 16 == 14 <==> 0xe0 <= c < 0xf0
    ensures c / 8 == 30 <==> 0xf0 <= c < 0xf8
    ensures c / 32 == 6 ==> (c % 32 / 2 == 0 <==> c < 0xc2)
  {
  }

  lemma Lead3(a: Byte, b: Byte, c: Byte)
    requires 0xe0 <= a < 0xf0
    ensures IsTail(b) && IsTail(c) && Value3(a, b, c) >= 0x800 && IsValidChar(Value3(a, b, c))
        <==> Syntax3(a, b, c) && IsValidChar(Value3(a, b, c))
  {
    LeadBits(a);
    LeadBits(b);
    LeadBits(c);
  }

  lemma Lead4(a: Byte, b: Byte, c: Byte, d: Byte)
    requires 0xf0 <= a < 0xf8
    ensures IsTail(b) && IsTail(c) && IsTail(d) && Value4(a, b, c, d) >= 0x10000 && IsValidChar(Value4(a, b, c, d))
        <==> Syntax4(a, b, c, d) && IsValidChar(Value4(a, b, c, d))
  {
    LeadBits(a);
    LeadBits(b);
    LeadBits(c);
    LeadBits(d);
  }

  /** `utf8_consume_continuation_char`. */
  method ConsumeContinuation(c: Byte, val: nat) returns (ok: bool, val': nat)
    ensures ok == IsTail(c)
    ensures ok ==> val' == 64 * val + c % 64
  {
    Masks(c);
    if c / 64 != 2 {
      return false, val;
    }
    return true, val * 64 + c % 64;
  }

  /** One turn of the validator's loop: the length of the character at `i`, 0 if it is refused. */
  method ValidateChar(s: seq<Byte>, i: nat) returns (n: nat)
    requires i < |s|
    ensures n == CharLength(s[i..])
  {
    ghost var t := s[i..];
    var left, c := |s| - i, s[i];
    Masks(c);
    if c < 128 {
      return 1;
    }
    if c / 32 == 6 {
      if left < 2 {
        return 0;
      }
      if c % 32 / 2 == 0 {
        return 0;
      }
      Masks(s[i + 1]);
      if s[i + 1] / 64 != 2 {
        return 0;
      }
      return 2;
    }
    n := ValidateLong(s, i);
  }

  method ValidateLong(s: seq<Byte>, i: nat) returns (n: nat)
    requires i < |s| && 128 <= s[i] && !(0xc0 <= s[i] < 0xe0)
    ensures n == CharLength(s[i..])
  {
    ghost var t := s[i..];
    var left, c := |s| - i, s[i];
    var min, val, j, ok := 0, 0, i, false;
    Masks(c);
    if c / 16 == 14 {
      if left < 3 {
        return 0;
      }
      min, val := 0x800, c % 16;
      Lead3(t[0], t[1], t[2]);
    } else if c / 8 == 30 {
      if left < 4 {
        return 0;
      }
      min, val := 0x10000, c % 8;
      Lead4(t[0], t[1], t[2], t[3]);
      j := j + 1;
      ok, val := ConsumeContinuation(s[j], val);
      if !ok {
        return 0;
      }
    } else {
      return 0;
    }
    j := j + 1;
    ok, val := ConsumeContinuation(s[j], val);
    if !ok {
      return 0;
    }
    j := j + 1;
    ok, val := ConsumeContinuation(s[j], val);
    if !ok || val < min || !IsValidChar(val) {
      return 0;
    }
    return j + 1 - i;
  }

  lemma AcceptsStep(rest: seq<Byte>)
    requires rest != []
    ensures Accepts(rest) == (CharLength(rest) > 0 && Accepts(rest[CharLength(rest)..]))
  {
  }

  /** The validator's loop, one character a turn. */
  method ValidateAll(s: seq<Byte>) returns (ok: bool)
    ensures ok == Accepts(s)
  {
    var i := 0;
    ghost var rest := s;
    while i < |s|
      invariant 0 <= i <= |s| && rest == s[i..] && Accepts(s) == Accepts(rest)
    {
      var n := ValidateChar(s, i);
      AcceptsStep(rest);
      if n == 0 {
        return false;
      }
      rest := rest[n..];
      i := i + n;
    }
    return true;
  }

  /** `utf8_validate`. */
  method Validate(s: seq<Byte>) returns (ok: bool)
    ensures ok == WellFormed(s)
  {
    AcceptsExactly(s);
    ok := ValidateAll(s);
  }

  // ---------- counting characters ----------

  function SkipTails(s: seq<Byte>): (r: seq<Byte>)
    ensures |r| <= |s|
  {
    if s != [] && IsTail(s[0]) then SkipTails(s[1..]) else s
  }

  function Width(s: seq<Byte>): nat
    decreases |s|
  {
    if s == [] then 0 else if s[0] >= 0x80 then 1 + Width(SkipTails(s[1..])) else 1 + Width(s[1..])
  }

  lemma HighBits(c: Byte)
    ensures c / 128 % 2 == 1 <==> c >= 0x80
    ensures c / 128 % 2 == 1 && c / 64 % 2 == 0 <==> IsTail(c)
  {
  }

  method SkipEscape(u: seq<Byte>, start: nat) returns (i: nat)
    requires start <= |u|
    ensures start <= i <= |u| && u[i..] == SkipTails(u[start..])
  {
    i := start;
    while i != |u| && u[i] / 128 % 2 == 1 && u[i] / 64 % 2 == 0
      invariant start <= i <= |u| && SkipTails(u[start..]) == SkipTails(u[i..])
      decreases |u| - i
    {
      HighBits(u[i]);
      assert u[i..][1..] == u[i + 1..];
      i := i + 1;
    }
    if i != |u| {
      HighBits(u[i]);
    }
  }

  /** `display_width`. */
  method DisplayWidth(u: seq<Byte>) returns (sz: nat)
    ensures sz == Width(u)
    ensures forall cs: seq<nat> :: ValidChars(cs) && EncodeAll(cs) == u ==> sz == |cs|
  {
    forall cs: seq<nat> | ValidChars(cs) && EncodeAll(cs) == u ensures Width(u) == |cs| {
      WidthCounts(cs);
    }
    sz := 0;
    var i := 0;
    assert u[0..] == u;
    while i != |u|
      invariant 0 <= i <= |u| && Width(u) == sz + Width(u[i..])
      decreases |u| - i
    {
      HighBits(u[i]);
      assert u[i..][1..] == u[i + 1..];
      if u[i] / 128 % 2 == 1 {
        i := SkipEscape(u, i + 1);
        sz := sz + 1;
      } else {
        i := i + 1;
        sz := sz + 1;
      }
    }
  }

  lemma {:induction false} TailsOnly(e: seq<Byte>, rest: seq<Byte>)
    requires forall i :: 0 <= i < |e| ==> IsTail(e[i])
    requires rest == [] || !IsTail(rest[0])
    ensures SkipTails(e + rest) == rest
  {
    if e == [] {
      assert e + rest == rest;
    } else {
      assert (e + rest)[1..] == e[1..] + rest;
      TailsOnly(e[1..], rest);
    }
  }

  lemma LeadFirst(c: nat)
    requires IsValidChar(c)
    ensures Encode(c) != [] && !IsTail(Encode(c)[0]) && (Encode(c)[0] < 0x80 ==> |Encode(c)| == 1)
    ensures forall i :: 0 < i < |Encode(c)| ==> IsTail(Encode(c)[i])
  {
    EncodeSyntax(c);
  }

  /** The width of a well-formed text is the number of its characters. */
  lemma {:induction false} WidthCounts(cs: seq<nat>)
    requires ValidChars(cs)
    ensures Width(EncodeAll(cs)) == |cs|
    decreases |cs|
  {
    if cs != [] {
      var e, rest := Encode(cs[0]), EncodeAll(cs[1..]);
      WidthCounts(cs[1..]);
      LeadFirst(cs[0]);
      if |cs| > 1 {
        LeadFirst(cs[1]);
      }
      assert (e + rest)[1..] == e[1..] + rest;
      if e[0] >= 0x80 {
        TailsOnly(e[1..], rest);
      } else {
        assert e[1..] + rest == rest;
      }
    }
  }
}
