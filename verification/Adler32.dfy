/** The rolling checksum: two 16-bit sums kept in 32-bit words, with modulus 2^16. */
module Adler32 {

  type Byte = n: int | 0 <= n < 256
  type Word = n: int | 0 <= n < 0x1_0000_0000

  const W32: int := 0x1_0000_0000
  const W16: int := 0x1_0000

  // ---------- 32-bit arithmetic ----------

  function Wrap(n: int): Word {
    n % W32
  }

  function Mask(n: Word): Word {
    n % W16
  }

  /** Masking forgets the wrap-around. */
  lemma MaskWrap(n: int)
    ensures Mask(Wrap(n)) == n % W16
  {
    var q := n / W32;
    assert n == q * W32 + n % W32;
    ModShift(n % W32, q * W16);
  }

  lemma ModShift(a: int, k: int)
    ensures (a + k * W16) % W16 == a % W16
  {
    var q, r := a / W16, a % W16;
    assert a + k * W16 == (q + k) * W16 + r;
  }

  // ---------- the sums of a window ----------

  function Total(w: seq<Byte>): nat {
    if w == [] then 1 else Total(w[..|w| - 1]) + w[|w| - 1]
  }

  function Totals(w: seq<Byte>): nat {
    if w == [] then 0 else Totals(w[..|w| - 1]) + Total(w)
  }

  lemma Appended(w: seq<Byte>, c: Byte)
    ensures Total(w + [c]) == Total(w) + c && Totals(w + [c]) == Totals(w) + Total(w) + c
  {
    assert (w + [c])[..|w|] == w;
  }

  /** What the oldest byte contributes. */
  lemma {:induction false} Prepended(c: Byte, w: seq<Byte>)
    ensures Total([c] + w) == Total(w) + c && Totals([c] + w) == Totals(w) + (|w| + 1) * c + 1
    decreases |w|
  {
    if w == [] {
      assert [c] + w == [] + [c];
      Appended([], c);
    } else {
      var v, d := w[..|w| - 1], w[|w| - 1];
      assert w == v + [d] && [c] + w == ([c] + v) + [d];
      Prepended(c, v);
      Appended(v, d);
      Appended([c] + v, d);
      assert (|w| + 1) * c == (|v| + 1) * c + c;
    }
  }

  lemma {:induction false} Bounds(w: seq<Byte>)
    ensures Total(w) <= 1 + 255 * |w| && Totals(w) <= (1 + 255 * |w|) * |w|
    decreases |w|
  {
    if w != [] {
      var v := w[..|w| - 1];
      Bounds(v);
      var n := |v|;
      assert (1 + 255 * n) * n + (1 + 255 * (n + 1)) <= (1 + 255 * (n + 1)) * (n + 1);
    }
  }

  /** The sums of a window: what the checksum of it has to be. */
  predicate SumsOf(s1: Word, s2: Word, len: Word, w: seq<Byte>) {
    s1 == Total(w) % W16 && s2 == Totals(w) % W16 && len == Wrap(|w|)
  }

  lemma ModAdd(a: int, b: int, c: int)
    requires a == b % W16
    ensures (a + c) % W16 == (b + c) % W16 && (a - c) % W16 == (b - c) % W16
  {
    var q := b / W16;
    assert b == a + q * W16;
    ModShift(a + c, q);
    ModShift(a - c, q);
  }

  /** The product with the wrapped length is the product with the length, modulo 2^16. */
  lemma ModProduct(n: nat, c: Byte, x: int)
    ensures (x - (Wrap(n) * c + 1)) % W16 == (x - (n * c + 1)) % W16
  {
    var q, l := n / W32, n % W32;
    assert n == q * W32 + l;
    assert n * c == l * c + (q * c * W16) * W16;
    ModShift(x - (n * c + 1), q * c * W16);
  }

  function SubProduct(s2: Word, len: Word, c: Byte): Word {
    Wrap(s2 - Wrap(Wrap(len * c) + 1))
  }

  lemma WrapStep(n: nat)
    ensures Wrap(Wrap(n) + 1) == Wrap(n + 1) && Wrap(Wrap(n + 1) - 1) == Wrap(n)
  {
  }

  lemma WrapMultiple(n: int)
    ensures exists k :: Wrap(n) == n + k * W32
  {
    assert Wrap(n) == n + (-(n / W32)) * W32;
  }

  lemma MaskSubProduct(s2: Word, len: Word, c: Byte)
    ensures Mask(SubProduct(s2, len, c)) == (s2 - (len * c + 1)) % W16
  {
    var a := Wrap(len * c) + 1;
    WrapMultiple(len * c);
    var k :| Wrap(len * c) == len * c + k * W32;
    WrapMultiple(a);
    var l :| Wrap(a) == a + l * W32;
    MaskWrap(s2 - Wrap(a));
    assert s2 - Wrap(a) == (s2 - (len * c + 1)) + ((-k - l) * W16) * W16;
    ModShift(s2 - (len * c + 1), (-k - l) * W16);
  }

  lemma InStep(s1: Word, s2: Word, len: Word, w: seq<Byte>, c: Byte)
    requires SumsOf(s1, s2, len, w)
    ensures var s1' := Mask(Wrap(s1 + c)); SumsOf(s1', Mask(Wrap(s2 + s1')), Wrap(len + 1), w + [c])
  {
    Appended(w, c);
    MaskWrap(s1 + c);
    ModAdd(s1, Total(w), c);
    var s1' := Mask(Wrap(s1 + c));
    MaskWrap(s2 + s1');
    ModAdd(s2, Totals(w), s1');
    ModAdd(s1', Total(w) + c, Totals(w));
    WrapStep(|w|);
  }

  lemma OutStep(s1: Word, s2: Word, len: Word, w: seq<Byte>, c: Byte)
    requires SumsOf(s1, s2, len, [c] + w)
    ensures SumsOf(Mask(Wrap(s1 - c)), Mask(SubProduct(s2, len, c)), Wrap(len - 1), w)
  {
    Prepended(c, w);
    MaskWrap(s1 - c);
    ModAdd(s1, Total([c] + w), c);
    MaskSubProduct(s2, len, c);
    ModProduct(|w| + 1, c, s2);
    ModAdd(s2, Totals([c] + w), (|w| + 1) * c + 1);
    WrapStep(|w|);
  }

  class Adler {
    var s1: Word
    var s2: Word
    var len: Word

    /** The fields are the sums of the window, whatever its length. */
    predicate Sums(w: seq<Byte>)
      reads this
    {
      SumsOf(s1, s2, len, w)
    }

    constructor ()
      ensures Sums([])
    {
      s1, s2, len := 1, 0, 0;
    }

    method In(c: Byte, ghost w: seq<Byte>)
      requires Sums(w)
      modifies this
      ensures Sums(w + [c])
    {
      InStep(s1, s2, len, w, c);
      s1 := Wrap(s1 + c);
      s1 := Mask(s1);
      s2 := Wrap(s2 + s1);
      s2 := Mask(s2);
      len := Wrap(len + 1);
    }

    method Out(c: Byte, ghost w: seq<Byte>)
      requires Sums([c] + w)
      modifies this
      ensures Sums(w)
    {
      OutStep(s1, s2, len, w, c);
      s1 := Wrap(s1 - c);
      s1 := Mask(s1);
      s2 := SubProduct(s2, len, c);
      s2 := Mask(s2);
      len := Wrap(len - 1);
    }

    /** The unmasked loop: no addition wraps for windows shorter than 255 bytes. */
    method ReplaceWith(w: seq<Byte>)
      requires |w| < 255
      modifies this
      ensures Sums(w)
    {
      s1, s2, len := 1, 0, |w|;
      for i := 0 to |w|
        invariant s1 == Total(w[..i]) && s2 == Totals(w[..i]) && len == |w|
      {
        assert w[..i + 1] == w[..i] + [w[i]];
        Appended(w[..i], w[i]);
        NoOverflow(w[..i + 1]);
        s1 := s1 + w[i];
        s2 := s2 + s1;
      }
      assert w[..|w|] == w;
      s1 := Mask(s1);
      s2 := Mask(s2);
    }

    /** Sliding the window over the data one byte at a time. */
    method Roll(data: seq<Byte>, size: nat, slides: nat)
      requires size + slides <= |data| && Sums(data[..size]) && size > 0
      modifies this
      ensures Sums(data[slides..slides + size])
    {
      for i := 0 to slides
        invariant Sums(data[i..i + size])
      {
        ghost var inner := data[i + 1..i + size];
        assert data[i..i + size] == [data[i]] + inner;
        Out(data[i], inner);
        In(data[i + size], inner);
        assert inner + [data[i + size]] == data[i + 1..i + 1 + size];
      }
    }
  }

  lemma NoOverflow(w: seq<Byte>)
    requires |w| < 255
    ensures Total(w) < W32 && Totals(w) < W32
  {
    Bounds(w);
    var n := |w|;
    assert (1 + 255 * n) * n <= (1 + 255 * 254) * 254;
  }

  /** Rolling and starting afresh agree: the fields are a function of the window. */
  method RollIsReplace(data: seq<Byte>, size: nat, slides: nat) returns (rolled: Adler, afresh: Adler)
    requires 0 < size < 255 && size + slides <= |data|
    ensures rolled.s1 == afresh.s1 && rolled.s2 == afresh.s2 && rolled.len == afresh.len
  {
    rolled := new Adler();
    rolled.ReplaceWith(data[..size]);
    rolled.Roll(data, size, slides);
    afresh := new Adler();
    afresh.ReplaceWith(data[slides..slides + size]);
  }
}
