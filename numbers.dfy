/** JavaScript number operations on exact reals: `Math.round`, `Math.floor`,
    clamping, and `NaN` where the sources rely on it being falsy. */
module Numbers {

  /** A JavaScript number as far as the sources care: NaN, or a finite value. */
  datatype Number = NaN | Num(value: real)

  /** `Math.round`: the nearest integer, halves rounded up (towards +infinity). */
  function Round(x: real): (n: int)
    ensures x - 0.5 < n as real <= x + 0.5
  {
    (x + 0.5).Floor
  }

  lemma RoundMonotone(x: real, y: real)
    requires x <= y
    ensures Round(x) <= Round(y)
  {
  }

  lemma RoundOfInt(n: int)
    ensures Round(n as real) == n
  {
  }

  function Max(a: int, b: int): int { if a < b then b else a }

  function Min(a: int, b: int): int { if a < b then a else b }

  /** `Math.max(lo, Math.min(hi, n))`. */
  function Clamp(n: int, lo: int, hi: int): (r: int)
    requires lo <= hi
    ensures lo <= r <= hi
    ensures lo <= n <= hi ==> r == n
  {
    Max(lo, Min(hi, n))
  }

  lemma ClampMonotone(m: int, n: int, lo: int, hi: int)
    requires lo <= hi && m <= n
    ensures Clamp(m, lo, hi) <= Clamp(n, lo, hi)
  {
  }

  function MinReal(a: real, b: real): real { if a < b then a else b }

  function MaxReal(a: real, b: real): real { if a < b then b else a }
}
