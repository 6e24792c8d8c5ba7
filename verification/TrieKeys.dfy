/** Keys and their digits: the bit groups a key is cut into, one per level. */
module TrieKeys {
  import opened TrieMemory
  import opened TrieView

  /** `key >> (_Bits * level)`, one group at a time. */
  function Shifted(key: nat, level: nat): nat {
    if level == 0 then key else Shifted(key / W, level - 1)
  }

  /** `(key >> (_Bits * level)) & mask`. */
  function Digit(key: nat, level: nat): nat {
    Shifted(key, level) % W
  }

  /** Number of different keys of `n` groups. */
  function Keys(n: nat): nat {
    if n == 0 then 1 else W * Keys(n - 1)
  }

  function DigitsOf(key: nat, n: nat): (d: Digits)
    ensures |d| == n && forall i :: 0 <= i < n ==> d[i] < W
  {
    if n == 0 then [] else DigitsOf(key / W, n - 1) + [key % W]
  }

  function KeyOf(d: Digits): nat {
    if d == [] then 0 else KeyOf(d[..|d| - 1]) * W + d[|d| - 1]
  }

  ghost predicate ValidDigits(d: Digits, n: nat) {
    |d| == n && forall i :: 0 <= i < n ==> d[i] < W
  }

  lemma {:induction false} DigitAt(key: nat, n: nat, level: nat)
    requires level < n
    ensures DigitsOf(key, n)[n - 1 - level] == Digit(key, level)
    decreases n
  {
    if level > 0 {
      DigitAt(key / W, n - 1, level - 1);
    }
  }

  lemma DivBound(a: nat, b: nat)
    ensures a < W * b <==> a / W < b
  {
    assert a == (a / W) * W + a % W;
    if a / W < b {
      assert (a / W + 1) * W <= b * W;
    } else {
      assert (a / W) * W >= b * W;
    }
  }

  lemma {:induction false} DigitsInverse(d: Digits, n: nat)
    requires ValidDigits(d, n)
    ensures KeyOf(d) < Keys(n) && DigitsOf(KeyOf(d), n) == d
    decreases n
  {
    if n > 0 {
      var q := d[..n - 1];
      DigitsInverse(q, n - 1);
      var k := KeyOf(d);
      DivOf(KeyOf(q), d[n - 1]);
      DivBound(k, Keys(n - 1));
    }
  }

  lemma AtLeastOne(t: int)
    ensures (t >= 1 ==> t * W >= W) && (t <= -1 ==> t * W + W <= 0)
  {
  }

  lemma DivOf(a: nat, b: nat)
    requires b < W
    ensures (a * W + b) / W == a && (a * W + b) % W == b
  {
    var x := a * W + b;
    assert x == (x / W) * W + x % W;
    AtLeastOne(a - x / W);
    assert (a - x / W) * W == x % W - b;
  }

  /** A smaller prefix outweighs any last digit. */
  lemma PrefixOutweighs(x: nat, y: nat, u: nat, v: nat)
    requires x < y && u < W
    ensures x * W + u < y * W + v
  {
    AtLeastOne(y - x);
    assert (y - x) * W == y * W - x * W;
  }

  lemma {:induction false} KeyInverse(k: nat, n: nat)
    requires k < Keys(n)
    ensures KeyOf(DigitsOf(k, n)) == k
    decreases n
  {
    if n > 0 {
      DivBound(k, Keys(n - 1));
      KeyInverse(k / W, n - 1);
      assert DigitsOf(k, n)[..n - 1] == DigitsOf(k / W, n - 1);
    }
  }

  /** Comparing digit by digit from the most significant one. */
  ghost predicate LexLess(a: seq<int>, b: seq<int>) {
    exists i: nat :: LessAt(a, b, i)
  }

  ghost predicate LessAt(a: seq<int>, b: seq<int>, i: nat) {
    i < |a| && i < |b| && a[..i] == b[..i] && a[i] < b[i]
  }

  /** The order of the digits is the order of the keys. */
  lemma {:induction false} OrderOfKeys(a: Digits, b: Digits, n: nat)
    requires ValidDigits(a, n) && ValidDigits(b, n) && LexLess(a, b)
    ensures KeyOf(a) < KeyOf(b)
    decreases n
  {
    var i: nat :| LessAt(a, b, i);
    var a', b' := a[..n - 1], b[..n - 1];
    if i == n - 1 {
      assert a' == b';
    } else {
      assert LessAt(a', b', i) by {
        assert a'[..i] == a[..i] && b'[..i] == b[..i];
      }
      OrderOfKeys(a', b', n - 1);
      PrefixOutweighs(KeyOf(a'), KeyOf(b'), a[n - 1], b[n - 1]);
    }
  }
}
