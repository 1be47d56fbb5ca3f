/**
 * The few Python built-ins whose exact semantics the scripts depend on:
 * the open-ended slice `s[start:]`, integer exponentiation `x ** n` and
 * `range(lo, hi)`.
 */
module Python {

  function Min(a: int, b: int): int { if a <= b then a else b }

  function Max(a: int, b: int): int { if a <= b then b else a }

  /**
   * `s[start:]`. A negative start counts from the end; a start that runs past
   * either end is clamped, so the result is always a suffix of `s`.
   */
  function SliceFrom<T>(s: seq<T>, start: int): (r: seq<T>)
    ensures |r| <= |s| && r == s[|s| - |r|..]
    ensures start < 0 ==> |r| == Min(-start, |s|)
    ensures 0 <= start ==> |r| == Max(|s| - start, 0)
  {
    var k := if start < 0 then Max(|s| + start, 0) else Min(start, |s|);
    s[k..]
  }

  /** `x ** n` on Python integers, for a natural exponent. */
  function Pow(x: int, n: nat): int
  {
    if n == 0 then 1 else x * Pow(x, n - 1)
  }

  /** `x ** 2` is x times x, and never negative. */
  lemma PowTwo(x: int)
    ensures Pow(x, 2) == x * x >= 0
  {
    assert Pow(x, 1) == x * Pow(x, 0);
  }

  /** `list(range(lo, hi))`: the integers from lo up to, not including, hi. */
  function Range(lo: int, hi: int): (r: seq<int>)
    decreases hi - lo
    ensures |r| == Max(hi - lo, 0)
    ensures forall i :: 0 <= i < |r| ==> r[i] == lo + i
  {
    if hi <= lo then [] else [lo] + Range(lo + 1, hi)
  }
}
