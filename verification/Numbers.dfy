/** Arithmetic that several components share. */
module Numbers {

  /** `Math.max(1, n)`. */
  function AtLeastOne(n: int): (r: int)
    ensures r >= 1 && r >= n && (r == 1 || r == n)
  {
    if n < 1 then 1 else n
  }
}
