/** Java `int` arithmetic: 32-bit two's-complement wrap-around and division truncating toward zero. */
module JavaInt {

  const IntMin: int := -0x8000_0000
  const IntMax: int := 0x7fff_ffff
  const Modulus: int := 0x1_0000_0000

  predicate IsInt(x: int) {
    IntMin <= x <= IntMax
  }

  /** The `int` a Java expression evaluates to when its mathematical value is `x`. */
  function Wrap(x: int): (r: int)
    ensures IsInt(r)
    ensures (x - r) % Modulus == 0
    ensures IsInt(x) ==> r == x
  {
    (x - IntMin) % Modulus + IntMin
  }

  /** Java's `a / b` for a positive divisor: the quotient is rounded toward zero. */
  function Div(a: int, b: int): (q: int)
    requires b > 0
    ensures a >= 0 ==> 0 <= a - q * b < b
    ensures a < 0 ==> -b < a - q * b <= 0
  {
    if a >= 0 then a / b else -((-a) / b)
  }

  function Min(a: int, b: int): (r: int)
    ensures r <= a && r <= b && (r == a || r == b)
  {
    if a <= b then a else b
  }

  function Max(a: int, b: int): (r: int)
    ensures r >= a && r >= b && (r == a || r == b)
  {
    if a >= b then a else b
  }
}
