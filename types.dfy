/**
  The slice of Kotlin's value semantics the Pomodoro engine depends on:
  nullable values, 32-bit `Int` and 64-bit `Long`, the wrap-around of `Int`
  multiplication, and integer division and remainder that truncate toward zero.
 */
module Types {

  /** A Kotlin nullable value `T?`; `GetOr` is the elvis operator `?:`. */
  datatype Option<+T> = None | Some(value: T) {
    function GetOr(default: T): (r: T)
      ensures Some? ==> r == value
      ensures None? ==> r == default
    {
      match this
      case Some(v) => v
      case None => default
    }
  }

  const Int32Min: int := -0x8000_0000
  const Int32Max: int := 0x7fff_ffff

  predicate IsInt32(x: int) {
    -0x8000_0000 <= x <= 0x7fff_ffff
  }

  /** Kotlin `Int`. */
  type i32 = x: int | -0x8000_0000 <= x <= 0x7fff_ffff

  /** Kotlin `Long`. */
  type i64 = x: int | -0x8000_0000_0000_0000 <= x <= 0x7fff_ffff_ffff_ffff

  /** Two's-complement wrap-around of a mathematical integer into `Int`, as an `Int` multiplication does on overflow. */
  function Wrap32(x: int): (r: i32)
    ensures IsInt32(x) ==> r == x
    ensures (x - r) % 0x1_0000_0000 == 0
  {
    (x - Int32Min) % 0x1_0000_0000 + Int32Min
  }

  /** Dafny's own division of a non-negative number: `(n / b) * b` is the largest multiple of `b` up to `n`. */
  lemma FloorDivBounds(n: int, b: int)
    requires n >= 0 && b > 0
    ensures 0 <= (n / b) * b <= n < (n / b) * b + b
  {
    assert n == (n / b) * b + n % b;
  }

  /** Kotlin's `a / b` on integers: the quotient truncated toward zero, so `q * b` is the multiple
      of `b` nearest to `a` on the side of 0. */
  function TDiv(a: int, b: int): (q: int)
    requires b > 0
    ensures a >= 0 ==> 0 <= q * b <= a < q * b + b
    ensures a < 0 ==> q * b - b < a <= q * b <= 0
  {
    if a >= 0 then
      FloorDivBounds(a, b);
      a / b
    else
      FloorDivBounds(-a, b);
      assert (-((-a) / b)) * b == -(((-a) / b) * b);
      -((-a) / b)
  }

  /** Kotlin's `a % b` on integers: the remainder that goes with `TDiv`, carrying the sign of `a`. */
  function TRem(a: int, b: int): (r: int)
    requires b > 0
    ensures TDiv(a, b) * b + r == a
    ensures a >= 0 ==> 0 <= r < b
    ensures a < 0 ==> -b < r <= 0
  {
    a - TDiv(a, b) * b
  }
}
