/** Machine integers of the daemon, written out over unbounded `int`, and its optional values. */
module Numbers {

  datatype Option<+T> = None | Some(value: T)

  type u8 = x: int | 0 <= x < 0x100
  type u16 = x: int | 0 <= x < 0x1_0000
  type u32 = x: int | 0 <= x < 0x1_0000_0000
  type i32 = x: int | -0x8000_0000 <= x < 0x8000_0000

  const I32_MAX := 0x7FFF_FFFF
  const U32_MAX := 0xFFFF_FFFF

  /** Two's-complement wrap-around of an i32 computation. */
  function WrapI32(x: int): i32 {
    (x + 0x8000_0000) % 0x1_0000_0000 - 0x8000_0000
  }

  /** Wrapping is a congruence modulo 2^32, so intermediate wraps can be postponed to the end. */
  lemma WrapI32Add(a: int, b: int)
    ensures WrapI32(WrapI32(a) + WrapI32(b)) == WrapI32(a + b)
  {
  }

  lemma WrapI32Small(x: nat)
    requires x <= I32_MAX
    ensures WrapI32(x) == x
  {
  }

  /** Rust's `%`: the remainder takes the sign of the dividend. */
  function RemTrunc(a: int, m: nat): int
    requires m > 0
  {
    if a >= 0 then a % m else -((-a) % m)
  }

  /** `u32::saturating_add`. */
  function SaturatingAdd(a: int, b: int): int {
    if a + b > U32_MAX then U32_MAX else a + b
  }

  function Pow2(k: nat): (p: nat)
    ensures p > 0
  {
    if k == 0 then 1 else 2 * Pow2(k - 1)
  }

  lemma MulStep(n: nat, w: int)
    requires n > 0
    ensures n * w == (n - 1) * w + w
  {
  }

  lemma {:induction false} MulPositive(a: nat, b: nat)
    requires b > 0
    ensures a * b >= a
  {
    if b > 1 {
      MulPositive(a, b - 1);
      assert a * b == a * (b - 1) + a;
    }
  }

  lemma SameQuotient(x: nat, y: nat, m: nat)
    requires m > 0
    ensures x - x % m == y - y % m <==> x / m == y / m
  {
    var qx, qy := x / m, y / m;
    assert x - x % m == m * qx && y - y % m == m * qy;
    SameMultiple(m, qx, qy);
  }

  lemma SameMultiple(m: nat, x: nat, y: nat)
    requires m > 0
    ensures m * x == m * y <==> x == y
  {
    if x < y {
      MulPositive(m, y - x);
      assert m * y == m * x + m * (y - x);
    } else if y < x {
      MulPositive(m, x - y);
      assert m * x == m * y + m * (x - y);
    }
  }
}
