/** Places in the rings of kernel/ipc.c and kernel/stream_buffer.c. */
module RingIndex {
  /** The place behind `i`. */
  function Behind(i: nat, size: nat): nat {
    if i + 1 == size then 0 else i + 1
  }

  /** The place `n` behind `i`, for `n` up to the size of the ring. */
  function Ahead(i: nat, n: nat, size: nat): nat {
    if i + n < size then i + n else i + n - size
  }

  /** `(i + 1) % size`, as the code has it. */
  lemma NextPlace(i: nat, size: nat)
    requires i < size
    ensures (i + 1) % size == Behind(i, size)
  {
    if i + 1 < size { assert (i + 1) % size == i + 1; } else { assert size % size == 0; }
  }
}
