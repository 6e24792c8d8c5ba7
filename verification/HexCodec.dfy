/** Hexadecimal encoding of identifiers. */
module HexCodec {
  import opened BasicIo

  type Digit = n: nat | n < 16

  ghost predicate IsBytes(s: string) {
    forall i :: 0 <= i < |s| ==> s[i] as int < 256
  }

  function DigitChar(d: Digit): (c: char)
    ensures IsXDigit(c)
  {
    if d < 10 then (d + '0' as int) as char else (d - 10 + 'a' as int) as char
  }

  function High(c: char): Digit {
    c as int / 16 % 16
  }

  function Low(c: char): Digit {
    c as int % 16
  }

  function Encoded(b: string): string {
    if b == [] then [] else [DigitChar(High(b[0])), DigitChar(Low(b[0]))] + Encoded(b[1..])
  }

  /** Two digits for each byte, the sixteens first. */
  ghost predicate Spelt(b: string, out: string) {
    |out| == 2 * |b| && forall i {:trigger b[i]} :: 0 <= i < |b| && b[i] as int < 256 ==>
      out[2 * i] == "0123456789abcdef"[b[i] as int / 16] && out[2 * i + 1] == "0123456789abcdef"[b[i] as int % 16]
  }

  lemma DigitSpelt(d: Digit)
    ensures DigitChar(d) == "0123456789abcdef"[d]
  {
  }

  lemma {:induction false} EncodedSpelt(b: string)
    ensures Spelt(b, Encoded(b))
  {
    if b != [] {
      EncodedSpelt(b[1..]);
      DigitSpelt(High(b[0]));
      DigitSpelt(Low(b[0]));
      var out, more := Encoded(b), Encoded(b[1..]);
      forall i | 0 < i < |b| ensures b[i] == b[1..][i - 1] && out[2 * i] == more[2 * (i - 1)] && out[2 * i + 1] == more[2 * (i - 1) + 1] {
      }
    }
  }

  method Encode(b: string) returns (out: string)
    ensures out == Encoded(b) && Spelt(b, out)
  {
    EncodedSpelt(b);
    out := [];
    assert b[0..] == b;
    for i := 0 to |b|
      invariant out + Encoded(b[i..]) == Encoded(b)
    {
      assert b[i..][1..] == b[i + 1..];
      out := out + [DigitChar(High(b[i]))];
      out := out + [DigitChar(Low(b[i]))];
    }
  }

  /** The value of a hex digit in either case. */
  function DigitOf(c: char): Option<Digit> {
    if '0' <= c <= '9' then Some(c as int - '0' as int)
    else if 'a' <= c <= 'f' then Some(c as int - 'a' as int + 10)
    else if 'A' <= c <= 'F' then Some(c as int - 'A' as int + 10)
    else None
  }

  predicate IsBlank(c: char) {
    c == ' ' || c == '\t' || c == '\r' || c == '\n'
  }

  function Digits(s: string): Option<seq<Digit>> {
    if s == [] then Some([])
    else if IsBlank(s[0]) then Digits(s[1..])
    else
      var d, r := DigitOf(s[0]), Digits(s[1..]);
      if d.None? || r.None? then None else Some([d.value] + r.value)
  }

  function Shifted(h: int): int {
    16 * h
  }

  function ByteOf(h: Digit, l: Digit): char {
    (Shifted(h) + l) as char
  }

  lemma ByteParts(c: char, h: Digit, l: Digit)
    ensures c as int < 256 ==> ByteOf(High(c), Low(c)) == c
    ensures High(ByteOf(h, l)) == h && Low(ByteOf(h, l)) == l && ByteOf(h, l) as int < 256
  {
  }

  /** Two digits to a byte; a last single digit is dropped. */
  function Packed(ds: seq<Digit>): string {
    if |ds| < 2 then [] else [ByteOf(ds[0], ds[1])] + Packed(ds[2..])
  }

  function Decoded(s: string): Option<string> {
    var ds := Digits(s);
    if ds.None? then None else Some(Packed(ds.value))
  }

  lemma {:induction false} PackedAppend(ds: seq<Digit>, d: Digit)
    ensures |ds| % 2 == 0 ==> Packed(ds + [d]) == Packed(ds)
    ensures |ds| % 2 == 1 ==> Packed(ds + [d]) == Packed(ds) + [ByteOf(ds[|ds| - 1], d)]
    decreases |ds|
  {
    if |ds| >= 2 {
      assert (ds + [d])[2..] == ds[2..] + [d];
      PackedAppend(ds[2..], d);
    }
  }

  lemma {:induction false} DigitsAppend(s: string, c: char)
    ensures Digits(s).None? ==> Digits(s + [c]).None?
    ensures Digits(s).Some? && IsBlank(c) ==> Digits(s + [c]) == Digits(s)
    ensures Digits(s).Some? && !IsBlank(c) && DigitOf(c).None? ==> Digits(s + [c]).None?
    ensures Digits(s).Some? && !IsBlank(c) && DigitOf(c).Some? ==> Digits(s + [c]) == Some(Digits(s).value + [DigitOf(c).value])
    decreases |s|
  {
    if s == [] {
      assert (s + [c])[1..] == [];
      if DigitOf(c).Some? {
        assert [DigitOf(c).value] + [] == [] + [DigitOf(c).value];
      }
    } else {
      assert (s + [c])[1..] == s[1..] + [c];
      DigitsAppend(s[1..], c);
      if Digits(s).Some? && !IsBlank(s[0]) && !IsBlank(c) && DigitOf(c).Some? {
        var d, r, e := DigitOf(s[0]).value, Digits(s[1..]).value, DigitOf(c).value;
        assert [d] + (r + [e]) == ([d] + r) + [e];
      }
    }
  }

  lemma {:induction false} DigitsPrefix(s: string, i: nat)
    requires i <= |s| && Digits(s[..i]).None?
    ensures Digits(s).None?
    decreases |s| - i
  {
    if i == |s| {
      assert s[..i] == s;
    } else {
      DigitsAppend(s[..i], s[i]);
      assert s[..i + 1] == s[..i] + [s[i]];
      DigitsPrefix(s, i + 1);
    }
  }

  /** `o` holds the pending high digit, shifted. */
  method Decode(s: string) returns (ok: bool, out: string)
    ensures ok == Decoded(s).Some?
    ensures ok ==> out == Decoded(s).value
  {
    out := [];
    var high, o := true, 0;
    ghost var ds: seq<Digit> := [];
    for i := 0 to |s|
      invariant Digits(s[..i]) == Some(ds) && out == Packed(ds)
      invariant high == (|ds| % 2 == 0) && o == if high then 0 else Shifted(ds[|ds| - 1])
    {
      assert s[..i + 1] == s[..i] + [s[i]];
      DigitsAppend(s[..i], s[i]);
      var c := s[i];
      if '0' <= c <= '9' {
        o := o + (c as int - '0' as int);
      } else if 'a' <= c <= 'f' {
        o := o + (c as int - 'a' as int + 10);
      } else if 'A' <= c <= 'F' {
        o := o + (c as int - 'A' as int + 10);
      } else if IsBlank(c) {
        continue;
      } else {
        DigitsPrefix(s, i + 1);
        return false, out;
      }
      PackedAppend(ds, DigitOf(c).value);
      ds := ds + [DigitOf(c).value];
      if high {
        o := o * 16;
      } else {
        out := out + [o as char];
        o := 0;
      }
      high := !high;
    }
    assert s[..|s|] == s;
    ok := true;
  }

  lemma TwoDigits(a: char, b: char, s: string)
    requires DigitOf(a).Some? && DigitOf(b).Some? && Digits(s).Some?
    ensures Digits([a, b] + s) == Some([DigitOf(a).value, DigitOf(b).value] + Digits(s).value)
    ensures Packed(Digits([a, b] + s).value) == [ByteOf(DigitOf(a).value, DigitOf(b).value)] + Packed(Digits(s).value)
  {
    var t := [a, b] + s;
    var ds := Digits(s).value;
    assert t[1..] == [b] + s && t[1..][1..] == s;
    assert [DigitOf(a).value] + ([DigitOf(b).value] + ds) == [DigitOf(a).value, DigitOf(b).value] + ds;
    assert ([DigitOf(a).value, DigitOf(b).value] + ds)[2..] == ds;
  }

  /** Decoding an encoded identifier gives it back. */
  lemma {:induction false} DecodeEncoded(b: string)
    requires IsBytes(b)
    ensures Decoded(Encoded(b)) == Some(b)
    ensures |Encoded(b)| == 2 * |b|
  {
    if b != [] {
      DecodeEncoded(b[1..]);
      TwoDigits(DigitChar(High(b[0])), DigitChar(Low(b[0])), Encoded(b[1..]));
      ByteParts(b[0], 0, 0);
      assert b == [b[0]] + b[1..];
    }
  }

  lemma EncodeByte(a: Digit, b: Digit, out: string)
    ensures Encoded([ByteOf(a, b)] + out) == [DigitChar(a), DigitChar(b)] + Encoded(out)
  {
    ByteParts(' ', a, b);
    assert ([ByteOf(a, b)] + out)[1..] == out;
  }

  lemma DigitForth(c: char)
    requires IsXDigit(c)
    ensures DigitOf(c).Some? && DigitChar(DigitOf(c).value) == c && !IsBlank(c)
  {
  }

  lemma TakeTwo(h: string, n: nat)
    requires 2 <= n <= |h|
    ensures h[..n] == [h[0], h[1]] + h[2..][..n - 2]
  {
  }

  /** What a token of lower-case digits decodes to: an odd last digit is lost. */
  lemma {:induction false} EncodeDecoded(h: string)
    requires forall i :: 0 <= i < |h| ==> IsXDigit(h[i])
    ensures Digits(h).Some? && Decoded(h).Some? && |Decoded(h).value| == |h| / 2 && IsBytes(Decoded(h).value)
    ensures Encoded(Decoded(h).value) == h[..2 * (|h| / 2)]
    decreases |h|
  {
    if |h| == 1 {
      assert h[1..] == [];
    } else if |h| >= 2 {
      EncodeDecoded(h[2..]);
      DigitForth(h[0]);
      DigitForth(h[1]);
      TwoDigits(h[0], h[1], h[2..]);
      assert h == [h[0], h[1]] + h[2..];
      var a, b := DigitOf(h[0]).value, DigitOf(h[1]).value;
      var out := Packed(Digits(h[2..]).value);
      EncodeByte(a, b, out);
      ByteParts(' ', a, b);
      TakeTwo(h, 2 * (|h| / 2));
    }
  }
}
