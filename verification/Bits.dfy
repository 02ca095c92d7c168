/**
 * The 32-bit bitmap words of the allocator and of the ready queues.  A `uint32_t` used as a
 * bitmap is kept as its 32 bits, bit `i` at index `i`; each operation below is one C
 * expression on such a word.
 */
module Bits {

  const WIDTH: nat := 32

  type Word = w: seq<bool> | |w| == WIDTH witness seq(WIDTH, _ => false)

  /** The word 0. */
  const ZERO: Word := seq(WIDTH, _ => false)

  /** `w != 0`. */
  predicate NonZero(w: Word) {
    exists i: nat :: i < WIDTH && w[i]
  }

  /** `w & (~0U << i)`; shifting by the full width is undefined in C, hence `i < WIDTH`. */
  function KeepFrom(w: Word, i: nat): Word
    requires i < WIDTH
  {
    seq(WIDTH, j requires 0 <= j < WIDTH => i <= j && w[j])
  }

  lemma KeepFromZero(w: Word, i: nat)
    requires i < WIDTH && !NonZero(KeepFrom(w, i))
    ensures forall j: nat | i <= j < WIDTH :: !w[j]
  {
    forall j: nat | i <= j < WIDTH
      ensures !w[j]
    {
      assert !KeepFrom(w, i)[j];
    }
  }

  /** `w & m`. */
  function And(w: Word, m: Word): Word {
    seq(WIDTH, j requires 0 <= j < WIDTH => w[j] && m[j])
  }

  /** `__builtin_ctz(w)`: the number of the lowest set bit. */
  function LowestSet(w: Word): (i: nat)
    requires NonZero(w)
    ensures i < WIDTH && w[i]
    ensures forall j: nat | j < i :: !w[j]
  {
    LowestFrom(w, 0)
  }

  function LowestFrom(w: Word, k: nat): (i: nat)
    requires exists j: nat :: k <= j < WIDTH && w[j]
    ensures k <= i < WIDTH && w[i]
    ensures forall j: nat | k <= j < i :: !w[j]
    decreases WIDTH - k
  {
    if k < WIDTH && w[k] then k else LowestFrom(w, k + 1)
  }

  /** `31 - __builtin_clz(w)`: the number of the highest set bit. */
  function HighestSet(w: Word): (i: nat)
    requires NonZero(w)
    ensures i < WIDTH && w[i]
    ensures forall j: nat | i < j < WIDTH :: !w[j]
  {
    HighestUpTo(w, WIDTH - 1)
  }

  function HighestUpTo(w: Word, k: nat): (i: nat)
    requires k < WIDTH
    requires exists j: nat :: j <= k && w[j]
    ensures i <= k && w[i]
    ensures forall j: nat | i < j <= k :: !w[j]
  {
    if w[k] then k else HighestUpTo(w, k - 1)
  }
}
