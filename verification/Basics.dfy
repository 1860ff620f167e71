// What several models share: optional values, 32-bit numbers, and order under multiplication.
module Basics {

  datatype Option<+T> = None | Some(value: T)

  const TWO_32 := 0x1_0000_0000

  // `n >>> 0`
  function Uint32(n: int): nat { n % TWO_32 }

  function Min(a: int, b: int): int { if a <= b then a else b }

  function Max(a: int, b: int): int { if a >= b then a else b }

  lemma Monotone(a: nat, b: nat, c: nat)
    requires a <= b
    ensures a * c <= b * c
  {
  }

  lemma StrictlyMonotone(a: nat, b: nat, c: nat)
    requires a < b
    ensures a * c + c <= b * c
  {
    Monotone(a + 1, b, c);
    assert (a + 1) * c == a * c + c;
  }
}
