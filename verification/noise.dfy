/**
 * The raw, not yet fitted, statistic of a tree coordinate (`getNoise`), and
 * the scalar noise coordinate of a path (`getNoiseXFromPath`). The simplex
 * noise library is not modelled: each level's mean field and shadow field
 * are given as functions of (level, x, t).
 */
module Noise {
  import opened Powers
  import opened Stats

  /** `levelNoiseKnobs` has one row per level, so levels 0 .. 9 exist. */
  const NoiseLevels := 10
  /** Fixed second coordinates at which the fields are sampled. */
  const MeanNoiseTime := 0.0
  const MinNoiseTime := 50.0
  const MaxNoiseTime := 80.0
  /** The first path entry is weighted by `2 ** 40`, each later one by 64 times less. */
  const StartExp := 40
  const ExpStep := 6

  /**
   * The per-level noise generators: `mean(level, x, t)` stands for
   * `meanNoise[level].scaled([x, t])`, `shadow` for `shadowNoise[level]`.
   */
  datatype NoiseField = NoiseField(mean: (nat, real, real) -> real, shadow: (nat, real, real) -> real)

  /** Both shadow generators are built with `min: 0`, so their samples are never negative. */
  ghost predicate ShadowNonNegative(f: NoiseField) {
    forall level, x, t :: f.shadow(level, x, t) >= 0.0
  }

  /**
   * No shadow sample is exactly zero, so no raw statistic is flat. A flat
   * set of siblings makes `fitChildren` divide zero by zero.
   */
  ghost predicate ShadowPositive(f: NoiseField) {
    forall level, x, t :: f.shadow(level, x, t) > 0.0
  }

  lemma ShadowPositiveIsNonNegative(f: NoiseField)
    requires ShadowPositive(f)
    ensures ShadowNonNegative(f)
  {
  }

  /**
   * What entry `d` at position `i` adds to the noise coordinate: `d` times
   * `2 ** 40` for the first entry, 64 times less for each later one.
   */
  function Term(d: int, i: nat): real
  {
    if i == 0 then (d as real) * Pow2R(StartExp) else Term(d, i - 1) / 64.0
  }

  /** Entry `d` at position `i` is weighted by `2 ** (40 - 6 i)`. */
  lemma {:induction false} TermIsPower(d: int, i: nat, exp: int)
    requires exp == StartExp - ExpStep * i
    ensures Term(d, i) == (d as real) * Pow2R(exp)
  {
    if i > 0 {
      TermIsPower(d, i - 1, exp + 6);
      Pow2RSix(exp);
      ScaleDown(d as real, Pow2R(exp + 6), Pow2R(exp));
    }
  }

  lemma ScaleDown(d: real, p6: real, p: real)
    requires p6 == 64.0 * p
    ensures d * p6 / 64.0 == d * p
  {
  }

  /** Terms at one position add up like their entries. */
  lemma {:induction false} TermAdd(a: int, b: int, i: nat)
    ensures Term(a, i) + Term(b, i) == Term(a + b, i)
  {
    if i > 0 {
      TermAdd(a, b, i - 1);
    }
  }

  /** An entry one position up counts 64 times as much. */
  lemma {:induction false} TermShift(a: int, i: nat)
    requires i > 0
    ensures Term(a, i - 1) == Term(64 * a, i)
  {
    if i > 1 {
      TermShift(a, i - 1);
    }
  }

  /** Different entries at one position add different amounts. */
  lemma {:induction false} TermInjective(a: int, b: int, i: nat)
    requires Term(a, i) == Term(b, i)
    ensures a == b
  {
    if i > 0 {
      TermInjective(a, b, i - 1);
    }
  }

  /** The path read as a base-64 numeral, first entry most significant. */
  function Base64(path: seq<int>): int
  {
    if path == [] then 0 else 64 * Base64(path[..|path| - 1]) + path[|path| - 1]
  }

  /** The noise coordinate: the sum over the path of each entry's term. */
  function NoiseX(path: seq<int>): real
  {
    if path == [] then 0.0 else NoiseX(path[..|path| - 1]) + Term(path[|path| - 1], |path| - 1)
  }

  /** `getNoiseXFromPath`: the accumulating loop over the path. */
  method GetNoiseXFromPath(path: seq<int>) returns (x: real)
    ensures x == NoiseX(path)
  {
    var exp := StartExp;
    x := 0.0;
    for k := 0 to |path|
      invariant exp == StartExp - ExpStep * k
      invariant x == NoiseX(path[..k])
    {
      NoiseXStep(path, k, x, exp);
      assert x + (path[k] as real) * Pow2R(exp) == NoiseX(path[..k + 1]);
      x := x + (path[k] as real) * Pow2R(exp);
      exp := exp - ExpStep;
    }
    assert path[..|path|] == path;
  }

  /** Each loop step adds the next entry times `2 ** exp`. */
  lemma NoiseXStep(path: seq<int>, k: nat, x: real, exp: int)
    requires k < |path| && x == NoiseX(path[..k]) && exp == StartExp - ExpStep * k
    ensures x + (path[k] as real) * Pow2R(exp) == NoiseX(path[..k + 1])
  {
    var prefix := path[..k + 1];
    assert |prefix| - 1 == k && prefix[..k] == path[..k] && prefix[k] == path[k];
    TermIsPower(path[k], k, exp);
  }

  /**
   * The noise coordinate is the term of the whole path read as a base-64
   * numeral, at the position of its deepest entry.
   */
  lemma {:induction false} NoiseXPositional(path: seq<int>)
    requires path != []
    ensures NoiseX(path) == Term(Base64(path), |path| - 1)
  {
    var n := |path| - 1;
    if n > 0 {
      var prefix := path[..n];
      NoiseXPositional(prefix);
      TermShift(Base64(prefix), n);
      TermAdd(64 * Base64(prefix), path[n], n);
    }
  }

  /** Distinct paths of one depth are distinct base-64 numerals. */
  lemma {:induction false} Base64Injective(p: seq<int>, q: seq<int>)
    requires |p| == |q| && ValidPath(p) && ValidPath(q)
    requires Base64(p) == Base64(q)
    ensures p == q
  {
    if p != [] {
      var n := |p| - 1;
      assert ValidPath(p[..n]) && ValidPath(q[..n]);
      DigitSplit(Base64(p[..n]), Base64(q[..n]), p[n], q[n]);
      Base64Injective(p[..n], q[..n]);
      assert p == p[..n] + [p[n]] && q == q[..n] + [q[n]];
    }
  }

  /** A base-64 numeral determines its last digit and the numeral before it. */
  lemma DigitSplit(a: int, b: int, d: int, e: int)
    requires 0 <= d < 64 && 0 <= e < 64 && 64 * a + d == 64 * b + e
    ensures a == b && d == e
  {
  }

  /** Distinct paths of the same depth get distinct noise coordinates. */
  lemma NoiseXInjective(p: seq<int>, q: seq<int>)
    requires |p| == |q| && ValidPath(p) && ValidPath(q)
    requires NoiseX(p) == NoiseX(q)
    ensures p == q
  {
    if p != [] {
      SameBase64(p, q);
      Base64Injective(p, q);
    }
  }

  /** Equal noise coordinates at one depth mean equal base-64 numerals. */
  lemma SameBase64(p: seq<int>, q: seq<int>)
    requires |p| == |q| && p != [] && NoiseX(p) == NoiseX(q)
    ensures Base64(p) == Base64(q)
  {
    NoiseXPositional(p);
    NoiseXPositional(q);
    TermInjective(Base64(p), Base64(q), |p| - 1);
  }

  /**
   * `getNoise`: the raw statistic at a path, sampled from the fields of level
   * `|path| - 1` at the path's noise coordinate; min and max are the mean
   * minus and plus two samples of the shadow field.
   */
  function GetNoise(f: NoiseField, path: seq<int>): (r: Stat)
    requires 1 <= |path| <= NoiseLevels
    ensures r.mean == f.mean(|path| - 1, NoiseX(path), MeanNoiseTime)
    ensures ShadowNonNegative(f) ==> Ordered(r)
    ensures ShadowPositive(f) ==> r.min < r.mean < r.max
    ensures r.mean - r.min == f.shadow(|path| - 1, NoiseX(path), MinNoiseTime)
    ensures r.max - r.mean == f.shadow(|path| - 1, NoiseX(path), MaxNoiseTime)
  {
    var level := |path| - 1;
    var x := NoiseX(path);
    var mean := f.mean(level, x, MeanNoiseTime);
    Stat(mean - f.shadow(level, x, MinNoiseTime), mean, mean + f.shadow(level, x, MaxNoiseTime))
  }
}
