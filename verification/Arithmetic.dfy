/** Arithmetic on 32-bit numbers as the host computes it, and on natural numbers. */
module Arithmetic {
  import opened Bytes

  const TWO_32: int := 0x1_0000_0000

  function Add(a: u32, b: u32): u32 { (a as int + b) % 0x1_0000_0000 }

  function Sub(a: u32, b: u32): u32 { (a as int - b) % 0x1_0000_0000 }

  function Neg(a: u32): u32 { (0x1_0000_0000 - a as int) % 0x1_0000_0000 }

  lemma AddIs(x: u32, y: u32)
    ensures Add(x, y) == if x as int + y < TWO_32 then x as int + y else x as int + y - TWO_32
  {
  }

  lemma SubIs(x: u32, y: u32)
    ensures Sub(x, y) == if x >= y then x as int - y else x as int - y + TWO_32
  {
  }

  lemma NegIs(a: u32)
    ensures Neg(a) == if a == 0 then 0 else TWO_32 - a as int
  {
  }

  lemma AddZero(x: u32)
    ensures Add(x, 0) == x
  {
  }

  lemma AddNeg(x: u32, a: u32)
    ensures Add(Add(x, a), Neg(a)) == x && Add(Add(x, Neg(a)), a) == x
  {
    hide Add, Sub, Neg;
    AddIs(x, a);
    AddIs(x, Neg(a));
    AddIs(Add(x, a), Neg(a));
    AddIs(Add(x, Neg(a)), a);
    NegIs(a);
  }

  lemma AddDifference(a: u32, b: u32)
    ensures Add(a, Add(b, Neg(a))) == b
  {
    hide Add, Sub, Neg;
    AddIs(b, Neg(a));
    AddIs(a, Add(b, Neg(a)));
    NegIs(a);
  }

  /** Adding a difference and then its opposite. */
  lemma AddBack(x: u32, a: u32, b: u32)
    ensures Add(Add(x, Sub(a, b)), Sub(b, a)) == x
  {
    hide Add, Sub, Neg;
    SubIs(a, b);
    SubIs(b, a);
    AddIs(x, Sub(a, b));
    AddIs(Add(x, Sub(a, b)), Sub(b, a));
  }

  /** Adding the difference from b to a turns the distance from b into the distance from a. */
  lemma DistanceOfSum(x: u32, a: u32, b: u32)
    ensures Sub(Add(x, Sub(a, b)), a) == Sub(x, b)
  {
    hide Add, Sub, Neg;
    SubIs(a, b);
    SubIs(x, b);
    AddIs(x, Sub(a, b));
    SubIs(Add(x, Sub(a, b)), a);
  }

  function Max(a: nat, b: nat): nat { if a >= b then a else b }

  function Pow2(e: nat): (r: nat)
    ensures r > 0
  {
    if e == 0 then 1 else 2 * Pow2(e - 1)
  }

  lemma {:induction false} Pow2Monotone(d: nat, e: nat)
    requires d < e
    ensures 2 * Pow2(d) <= Pow2(e)
    decreases e
  {
    if d + 1 < e { Pow2Monotone(d, e - 1); }
  }
}
