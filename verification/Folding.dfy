/** Iterating a step, and folding a step over a sequence of inputs. */
module Folding {

  function Iter<T>(f: T -> T, x: T, n: nat): T
    decreases n
  {
    if n == 0 then x else Iter(f, f(x), n - 1)
  }

  function Fold<T, B>(g: (T, B) -> T, r: T, inputs: seq<B>): T
    decreases |inputs|
  {
    if inputs == [] then r else Fold(g, g(r, inputs[0]), inputs[1..])
  }

  lemma {:induction false} FoldConcat<T, B>(g: (T, B) -> T, r: T, x: seq<B>, y: seq<B>)
    ensures Fold(g, r, x + y) == Fold(g, Fold(g, r, x), y)
    decreases |x|
  {
    if x == [] {
      assert x + y == y;
    } else {
      assert (x + y)[1..] == x[1..] + y;
      FoldConcat(g, g(r, x[0]), x[1..], y);
    }
  }

  lemma {:induction false} IterInjective<T(!new)>(f: T -> T, x: T, y: T, n: nat)
    requires forall a, b :: f(a) == f(b) ==> a == b
    requires Iter(f, x, n) == Iter(f, y, n)
    ensures x == y
    decreases n
  {
    if n > 0 { IterInjective(f, f(x), f(y), n - 1); }
  }

  /** If every input acts injectively on the state, so does a sequence of inputs. */
  lemma {:induction false} FoldInjective<T(!new), B(!new)>(g: (T, B) -> T, x: T, y: T, inputs: seq<B>)
    requires forall a, b, c :: g(a, c) == g(b, c) ==> a == b
    requires Fold(g, x, inputs) == Fold(g, y, inputs)
    ensures x == y
    decreases |inputs|
  {
    if inputs != [] { FoldInjective(g, g(x, inputs[0]), g(y, inputs[0]), inputs[1..]); }
  }

  predicate AllEven<T>(even: T -> bool, half: T -> T, z: T, n: nat)
    decreases n
  {
    n == 0 || (even(z) && AllEven(even, half, half(z), n - 1))
  }

  /** If mixing an even value in before a step is mixing its half in after the step, then
      mixing z in before n steps is mixing its n-fold half in after them. */
  lemma {:induction false} IterMoves<T(!new)>(
    f: T -> T, xor: (T, T) -> T, even: T -> bool, half: T -> T, x: T, z: T, n: nat)
    requires forall a, c :: even(c) ==> f(xor(a, c)) == xor(f(a), half(c))
    requires AllEven(even, half, z, n)
    ensures Iter(f, xor(x, z), n) == xor(Iter(f, x, n), Iter(half, z, n))
    decreases n
  {
    if n > 0 { IterMoves(f, xor, even, half, f(x), half(z), n - 1); }
  }

  /** Folding g over bits is iterating f with the word of those bits mixed in, provided
      that one step of f takes the first bit out of the word the way g does. */
  lemma {:induction false} FoldAbsorbs<T(!new)>(
    f: T -> T, g: (T, bool) -> T, xor: (T, T) -> T, word: seq<bool> -> T, r: T, bits: seq<bool>)
    requires forall r, bs: seq<bool> :: 0 < |bs| <= 32 ==> f(xor(r, word(bs))) == xor(g(r, bs[0]), word(bs[1..]))
    requires |bits| <= 32
    ensures Iter(f, xor(r, word(bits)), |bits|) == xor(Fold(g, r, bits), word([]))
    decreases |bits|
  {
    if bits != [] {
      FoldAbsorbs(f, g, xor, word, g(r, bits[0]), bits[1..]);
    }
  }
}
