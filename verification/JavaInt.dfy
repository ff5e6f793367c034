/** Java's 32-bit integers. */
module JavaInt {
  const INT_MIN := -0x8000_0000
  const INT_MAX := 0x7fff_ffff

  predicate IsInt(v: int) { INT_MIN <= v <= INT_MAX }

  /** Addition of two 32-bit integers, which wraps. */
  function Add(a: int, b: int): (r: int)
    requires IsInt(a) && IsInt(b)
    ensures IsInt(r) && (r == a + b <==> IsInt(a + b))
  {
    if a + b > INT_MAX then a + b - 0x1_0000_0000 else if a + b < INT_MIN then a + b + 0x1_0000_0000 else a + b
  }
}
