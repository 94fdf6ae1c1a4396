/** Smaller, larger and absolute values. */
module Numbers {

  function Abs(r: real): real {
    if r < 0.0 then -r else r
  }

  function Min(a: real, b: real): real {
    if a <= b then a else b
  }

  function Max(a: real, b: real): real {
    if a >= b then a else b
  }

  function Clamp(v: real, lo: real, hi: real): real {
    Max(lo, Min(v, hi))
  }

  function MinInt(a: int, b: int): int {
    if a <= b then a else b
  }
}
