/**
 * The decimal text of an integer, as JavaScript's `n + ""` writes it for
 * integers below 10^21, and the negative-index `String.prototype.slice`
 * that the time scale's formatters apply to it.
 */
module Decimal {

  function Pow10(k: nat): (r: nat)
    ensures r >= 1
  {
    if k == 0 then 1 else 10 * Pow10(k - 1)
  }

  function Abs(n: int): nat {
    if n < 0 then -n else n
  }

  function DigitChar(d: int): (c: char)
    requires 0 <= d < 10
    ensures '0' <= c <= '9'
  {
    ('0' as int + d) as char
  }

  /** The decimal digits of `n`, most significant first, without leading zeros. */
  function Digits(n: nat): (s: string)
    ensures |s| >= 1
    decreases n
  {
    if n < 10 then [DigitChar(n)] else Digits(n / 10) + [DigitChar(n % 10)]
  }

  /** `n + ""` for an integer: a minus sign before the digits of a negative one. */
  function DecimalString(n: int): (s: string)
    ensures |s| >= 1
  {
    if n < 0 then "-" + Digits(-n) else Digits(n)
  }

  /** The last `k` digits of `m`, zero-padded to exactly `k` characters. */
  function Padded(m: nat, k: nat): (s: string)
    ensures |s| == k
  {
    if k == 0 then [] else Padded(m / 10, k - 1) + [DigitChar(m % 10)]
  }

  /** `s.slice(-k)`: the last `k` characters, or all of `s` when it is shorter. */
  function SliceLast(s: string, k: nat): (r: string)
    ensures |r| == if |s| < k then |s| else k
    ensures r == s[|s| - |r|..]
  {
    if |s| < k then s else s[|s| - k..]
  }

  /**
   * `s.slice(-k, -m)` for `k >= m`: from `k` before the end to `m` before the
   * end, both clamped at the start of the string; empty when they meet.
   */
  function SliceBetween(s: string, k: nat, m: nat): (r: string)
    requires m <= k
    ensures |s| >= k ==> r == s[|s| - k..|s| - m]
  {
    var lo := if |s| < k then 0 else |s| - k;
    var hi := if |s| < m then 0 else |s| - m;
    s[lo..hi]
  }

  lemma DivModUnique(n: int, d: int, q: int, r: int)
    requires d > 0 && n == d * q + r && 0 <= r < d
    ensures n / d == q && n % d == r
  {
    var q', r' := n / d, n % d;
    assert d * q' + r' == d * q + r;
    if q' > q {
      assert d * (q' - q) == d * q' - d * q;
      MulAtLeast(d, q' - q);
    } else if q' < q {
      assert d * (q - q') == d * q - d * q';
      MulAtLeast(d, q - q');
    }
  }

  lemma MulAtLeast(d: int, x: int)
    requires d > 0 && x >= 1
    ensures d * x >= d
  {
  }

  /** Taking one digit off and then `k - 1` more is taking `k` digits off. */
  lemma DivModTen(n: nat, p: nat)
    requires p >= 1
    ensures (n / 10) / p == n / (10 * p)
    ensures (n / 10) % p == (n % (10 * p)) / 10
    ensures (n % (10 * p)) % 10 == n % 10
  {
    var q, r := n / (10 * p), n % (10 * p);
    var r1, r0 := r / 10, r % 10;
    assert n == 10 * (p * q + r1) + r0;
    DivModUnique(n, 10, p * q + r1, r0);
    assert r1 < p;
    DivModUnique(n / 10, p, q, r1);
  }

  /** The decimal digits of `n` are those of `n / 10^k` followed by its last `k`, zero-padded. */
  lemma {:induction false} DigitsSplit(n: nat, k: nat)
    requires n >= Pow10(k)
    ensures Digits(n) == Digits(n / Pow10(k)) + Padded(n % Pow10(k), k)
  {
    if k > 0 {
      var p := Pow10(k - 1);
      assert Pow10(k) == 10 * p;
      DivModTen(n, p);
      DigitsSplit(n / 10, k - 1);
    }
  }

  /** A zero-padded group reads all zeros exactly when its value is zero. */
  lemma {:induction false} PaddedZero(m: nat, k: nat)
    requires m < Pow10(k)
    ensures Padded(m, k) == Padded(0, k) <==> m == 0
  {
    if k > 0 && Padded(m, k) == Padded(0, k) {
      var s, z := Padded(m, k), Padded(0, k);
      assert s[k - 1] == z[k - 1];
      assert Padded(m / 10, k - 1) == s[..k - 1] == z[..k - 1] == Padded(0, k - 1);
      PaddedZero(m / 10, k - 1);
    }
  }
}
