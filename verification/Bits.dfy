/** A 64-bit unsigned word, given by the positions of its one bits.  Every word operation the
    schedules use acts bit by bit, so this loses nothing. */
module Bits {
  const WIDTH: nat := 64

  type Word = w: set<nat> | forall i :: i in w ==> i < WIDTH

  const ZERO: Word := {}
  /** `math.MaxUint64`. */
  const ALL_ONES: Word := set i: nat | i < WIDTH

  /** `x << k`: bits that leave the word are lost. */
  function ShiftLeft(x: Word, k: nat): Word {
    set i | i in x && i + k < WIDTH :: i + k
  }

  /** `1 << k`. */
  function One(k: nat): Word { ShiftLeft({0}, k) }

  /** `^x`. */
  function Complement(x: Word): Word { ALL_ONES - x }

  /** `1 << k & x` is not zero. */
  predicate Bit(x: Word, k: nat) { One(k) * x != ZERO }

  lemma BitIff(x: Word, k: nat)
    ensures Bit(x, k) <==> k in x
  {
    if k in x { assert k in One(k) * x; }
  }

  lemma OneIs(k: nat)
    requires k < WIDTH
    ensures One(k) == {k}
  {
    assert 0 in {0} && 0 + k == k;
  }

  lemma ShiftedOnes(k: nat, i: nat)
    ensures i in ShiftLeft(ALL_ONES, k) <==> k <= i < WIDTH
  {
    if k <= i < WIDTH {
      assert i - k in ALL_ONES && (i - k) + k == i;
    }
  }
}
