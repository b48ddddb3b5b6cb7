/** Powers of two, as the source writes them with `2 ** e` and `Math.pow(2, e)`. */
module Powers {

  function Pow2(n: nat): (r: nat)
    ensures r >= 1
  {
    if n == 0 then 1 else 2 * Pow2(n - 1)
  }

  /** `2 ** e` for any integer exponent, negative ones giving fractions. */
  function Pow2R(e: int): (r: real)
    ensures r > 0.0
    decreases if e >= 0 then e else -e
  {
    if e == 0 then 1.0 else if e > 0 then 2.0 * Pow2R(e - 1) else Pow2R(e + 1) / 2.0
  }

  lemma Pow2RSucc(e: int)
    ensures Pow2R(e + 1) == 2.0 * Pow2R(e)
  {
    if e < 0 {
      assert Pow2R(e) == Pow2R(e + 1) / 2.0;
    }
  }

  /** Raising the exponent by six multiplies by 64, also across zero. */
  lemma Pow2RSix(e: int)
    ensures Pow2R(e + 6) == 64.0 * Pow2R(e)
  {
    Pow2RSucc(e);
    Pow2RSucc(e + 1);
    Pow2RSucc(e + 2);
    Pow2RSucc(e + 3);
    Pow2RSucc(e + 4);
    Pow2RSucc(e + 5);
  }

  lemma {:induction false} Pow2Add(a: nat, b: nat)
    ensures Pow2(a + b) == Pow2(a) * Pow2(b)
  {
    if a > 0 {
      Pow2Add(a - 1, b);
      assert Pow2(a + b) == 2 * Pow2(a - 1 + b);
    }
  }

  /** Six more doublings multiply by 64; `m` names `n + 6` so that callers can match it. */
  lemma Pow2Six(n: nat, m: nat)
    requires m == n + 6
    ensures Pow2(m) == 64 * Pow2(n)
  {
    Pow2Add(6, n);
    assert Pow2(6) == 64;
  }

  lemma {:induction false} Pow2Monotone(a: nat, b: nat)
    requires a <= b
    ensures Pow2(a) <= Pow2(b)
  {
    if a < b {
      Pow2Monotone(a, b - 1);
    }
  }

  /** The powers of two the tree's root domain is written with. */
  lemma Pow2Ten()
    ensures Pow2(10) == 1024
  {
  }

  lemma Pow2Sixty()
    ensures Pow2(20) == 1048576
    ensures Pow2(40) == 1099511627776
    ensures Pow2(60) == 1152921504606846976
  {
    Pow2Ten();
    Pow2Add(10, 10);
    Pow2Add(20, 20);
    Pow2Add(40, 20);
  }
}
