/**
 * Padding of the view geometry to the base codec's minimum coding-unit
 * size before a level's access unit is decoded.
 */
module CuPadding {

  const MinCuSize := 8

  /** C++ integer division, truncating toward zero. */
  function CDiv(a: int, b: int): int
    requires b > 0
  {
    if a >= 0 then a / b else -((-a) / b)
  }

  /** C++ remainder, taking the sign of the dividend. */
  function CMod(a: int, b: int): int
    requires b > 0
  {
    a - b * CDiv(a, b)
  }

  /**
   * VERP (for the row count) and HORP (for the column count): the samples
   * added to reach the next multiple of the coding-unit size.
   */
  function Padding(n: int): (p: int)
    ensures (n + p) % MinCuSize == 0
    ensures n >= 0 ==> 0 <= p < MinCuSize
    ensures n >= 0 ==> (p == 0 <==> n % MinCuSize == 0)
  {
    MinCuSize * (if CMod(n, MinCuSize) != 0 then CDiv(n, MinCuSize) + 1 else CDiv(n, MinCuSize)) - n
  }

  /** `nr1` / `nc1`: the padded row or column count. */
  function PaddedSize(n: int): (p: int)
    ensures p % MinCuSize == 0
    ensures n >= 0 ==> n <= p < n + MinCuSize
  {
    n + Padding(n)
  }

  /** The padded size is the least multiple of the coding-unit size not below the size. */
  lemma PaddedSizeIsLeastMultiple(n: int, m: int)
    requires n >= 0
    ensures m >= n && m % MinCuSize == 0 ==> PaddedSize(n) <= m
  {
  }
}
