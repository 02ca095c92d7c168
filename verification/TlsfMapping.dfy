/**
 * kernel/mem.c, `tlsf_mapping`: the bin of a block size.  Sizes below 256 go to row 0, one
 * bin for each multiple of 8; above, the row is the power of two and the column the next
 * five bits.
 */
module TlsfMapping {

  const ALIGN: nat := 8
  const MIN_BLOCK: nat := 32
  const FL_COUNT: nat := 32
  const SL_COUNT: nat := 32
  const SL_BITS: nat := 5
  const FL_SHIFT: nat := 8
  const SMALL: nat := 256
  const BINS: nat := 1024

  /** The values of `uint32_t`. */
  type uint32 = n: nat | n < 0x1_0000_0000

  function Pow2(k: nat): (p: nat)
    ensures p > 0
  {
    if k == 0 then 1 else 2 * Pow2(k - 1)
  }

  /** `31U - __builtin_clz(n)`: the number of the highest set bit of `n`. */
  function Fls(n: nat): (k: nat)
    requires n > 0
    ensures Pow2(k) <= n < Pow2(k + 1)
  {
    if n == 1 then 0 else 1 + Fls(n / 2)
  }

  /** `n >> k`. */
  function Shr(n: nat, k: nat): nat {
    if k == 0 then n else Shr(n / 2, k - 1)
  }

  /** `n ^ 32`. */
  function Xor32(n: nat): nat {
    if n / 32 % 2 == 1 then n - 32 else n + 32
  }

  /** The index clamps of the mapping. */
  function Clamp(n: nat, count: nat): nat
    requires count > 0
  {
    if n >= count then count - 1 else n
  }

  /** A request below the smallest block is raised to it. */
  function AtLeastMin(size: nat): nat {
    if size < MIN_BLOCK then MIN_BLOCK else size
  }

  /** `tlsf_mapping`: row and column of the bin for `size`, clamps included. */
  function Mapping(size: uint32): (m: (nat, nat))
    ensures m.0 < FL_COUNT && m.1 < SL_COUNT
  {
    var s := AtLeastMin(size);
    if s < SMALL then
      (0, Clamp(s / ALIGN, SL_COUNT))
    else
      LargeShape(s);
      (Clamp(Fls(s) - (FL_SHIFT - 1), FL_COUNT), Clamp(Xor32(Shr(s, Fls(s) - SL_BITS)), SL_COUNT))
  }

  /** The position of a bin when the 32 x 32 table is read row by row. */
  function Bin(size: uint32): (b: nat)
    ensures b < BINS
  {
    Mapping(size).0 * SL_COUNT + Mapping(size).1
  }

  lemma {:induction false} FlsBound(n: nat, k: nat)
    requires 0 < n
    ensures n < Pow2(k) <==> Fls(n) < k
  {
    if n > 1 && k > 0 { FlsBound(n / 2, k - 1); }
  }

  /** The exclusive-or drops the top bit of a six-bit number. */
  lemma XorDropsTop(n: nat)
    requires 32 <= n < 64
    ensures Xor32(n) == n - 32
  {
    assert n / 32 == 1;
  }

  /** What the shift leaves is a six-bit number: its top bit is the leading bit of `s`. */
  lemma {:induction false} SixBits(s: nat, k: nat)
    requires Pow2(k + 5) <= s < Pow2(k + 6)
    ensures 32 <= Shr(s, k) < 64
  {
    if k == 0 {
      assert Pow2(5) == 32 && Pow2(6) == 64;
    } else {
      SixBits(s / 2, k - 1);
    }
  }

  lemma {:induction false} Powers()
    ensures Pow2(8) == SMALL && Pow2(32) == 0x1_0000_0000
  {
    assert Pow2(8) == 256;
    assert Pow2(16) == 65536;
    assert Pow2(24) == 16777216;
  }

  lemma {:induction false} FlsRange(s: uint32)
    requires s >= SMALL
    ensures 8 <= Fls(s) < 32
  {
    Powers();
    FlsBound(s, 8);
    FlsBound(s, 32);
  }

  lemma {:induction false} LargeShape(s: uint32)
    requires s >= SMALL
    ensures 8 <= Fls(s) < 32
    ensures 32 <= Shr(s, Fls(s) - SL_BITS) < 64
  {
    FlsRange(s);
    SixBits(s, Fls(s) - SL_BITS);
  }

  /** None of the three clamps changes anything, for any 32-bit size. */
  lemma {:induction false} ClampsUnreached(size: uint32)
    ensures var s := AtLeastMin(size);
            Mapping(size) ==
              if s < SMALL then (0, s / ALIGN)
              else (Fls(s) - 7, Shr(s, Fls(s) - SL_BITS) - 32)
  {
    var s := AtLeastMin(size);
    if s >= SMALL {
      LargeShape(s);
      Unclamped(Fls(s), Shr(s, Fls(s) - SL_BITS));
    }
  }

  lemma Unclamped(k: nat, c: nat)
    requires 8 <= k < 32 && 32 <= c < 64
    ensures Clamp(k - (FL_SHIFT - 1), FL_COUNT) == k - 7 && Clamp(Xor32(c), SL_COUNT) == c - 32
  {
    XorDropsTop(c);
  }

  /** The two shapes of a bin number: one of the first 32 for a small block, 32 a row for a large one. */
  lemma {:induction false} BinShape(size: uint32)
    ensures var s := AtLeastMin(size);
            if s < SMALL then Bin(size) == s / ALIGN < 32
            else 8 <= Fls(s) < 32 && 32 <= Shr(s, Fls(s) - SL_BITS) < 64 && Bin(size) == (Fls(s) - 7) * 32 + Shr(s, Fls(s) - SL_BITS) - 32
  {
    ClampsUnreached(size);
    if AtLeastMin(size) >= SMALL { LargeShape(AtLeastMin(size)); }
  }

  /** A shift to the right rounds down to a multiple of the power of two. */
  lemma {:induction false} ShrRounds(n: nat, k: nat)
    ensures Shr(n, k) * Pow2(k) <= n < (Shr(n, k) + 1) * Pow2(k)
  {
    if k > 0 {
      ShrRounds(n / 2, k - 1);
      Doubled(Shr(n / 2, k - 1), Pow2(k - 1), n);
    }
  }

  lemma Doubled(q: nat, p: nat, n: nat)
    requires q * p <= n / 2 < (q + 1) * p
    ensures q * (2 * p) <= n < (q + 1) * (2 * p)
  {
    assert q * (2 * p) == 2 * (q * p) && (q + 1) * (2 * p) == 2 * ((q + 1) * p);
  }

  /** The sizes of a bin: one multiple of 8 in row 0, above it the thirty-second part of a power of two. */
  lemma {:induction false} BinRange(size: uint32)
    ensures var s, m := AtLeastMin(size), Mapping(size);
            if s < SMALL then m.0 == 0 && m.1 * 8 <= s < m.1 * 8 + 8
            else m.0 > 0 && (32 + m.1) * Pow2(m.0 + 2) <= s < (32 + m.1 + 1) * Pow2(m.0 + 2)
  {
    var s := AtLeastMin(size);
    ClampsUnreached(size);
    if s >= SMALL {
      LargeShape(s);
      ShrRounds(s, Fls(s) - SL_BITS);
    }
  }

  lemma {:induction false} FlsMonotone(a: nat, b: nat)
    requires 0 < a <= b
    ensures Fls(a) <= Fls(b)
  {
    if a > 1 { FlsMonotone(a / 2, b / 2); }
  }

  lemma {:induction false} ShrMonotone(a: nat, b: nat, k: nat)
    requires a <= b
    ensures Shr(a, k) <= Shr(b, k)
  {
    if k > 0 { ShrMonotone(a / 2, b / 2, k - 1); }
  }

  /** A larger size never goes to an earlier bin. */
  lemma {:induction false} MappingMonotone(a: uint32, b: uint32)
    requires a <= b
    ensures Bin(a) <= Bin(b)
  {
    if AtLeastMin(a) >= SMALL {
      LargeBins(a, b);
    } else {
      BinShape(a);
      BinShape(b);
      if AtLeastMin(b) < SMALL { SmallOrdered(AtLeastMin(a), AtLeastMin(b)); }
    }
  }

  lemma {:induction false} LargeBins(a: uint32, b: uint32)
    requires a <= b && AtLeastMin(a) >= SMALL
    ensures Bin(a) <= Bin(b)
  {
    var i, c := LargeBin(a);
    var j, d := LargeBin(b);
    LargeMonotone(a, b, i, j);
    RowsOrdered(Bin(a), Bin(b), i, j, c, d);
  }

  /** The row and the column of a large block, as numbers. */
  lemma {:induction false} LargeBin(s: uint32) returns (i: nat, c: nat)
    requires s >= SMALL
    ensures i == Fls(s) && 8 <= i < 32 && c == Shr(s, i - SL_BITS) && 32 <= c < 64 && Bin(s) == (i - 7) * 32 + c - 32
  {
    BinShape(s);
    i, c := Fls(s), Shr(s, Fls(s) - SL_BITS);
  }

  lemma SmallOrdered(s: nat, t: nat)
    requires s <= t
    ensures s / ALIGN <= t / ALIGN
  {
  }

  /** Bins are ordered by row, then by column. */
  lemma RowsOrdered(x: nat, y: nat, i: nat, j: nat, c: nat, d: nat)
    requires x == (i - 7) * 32 + c - 32 && y == (j - 7) * 32 + d - 32
    requires 32 <= c < 64 && 32 <= d < 64 && (i < j || (i == j && c <= d))
    ensures x <= y
  {
  }

  lemma {:induction false} LargeMonotone(s: uint32, t: uint32, i: nat, j: nat)
    requires SMALL <= s <= t && i == Fls(s) >= SL_BITS && j == Fls(t) >= SL_BITS
    requires 32 <= Shr(s, i - SL_BITS) < 64 && 32 <= Shr(t, j - SL_BITS) < 64
    ensures i < j || (i == j && Shr(s, i - SL_BITS) <= Shr(t, j - SL_BITS))
  {
    FlsMonotone(s, t);
    ShrMonotone(s, t, i - SL_BITS);
  }

  /** Any block in a strictly later bin is larger than the request. */
  lemma LaterBinFits(request: uint32, size: uint32)
    requires Bin(size) > Bin(request)
    ensures size > request
  {
    if size <= request { MappingMonotone(size, request); }
  }
}
