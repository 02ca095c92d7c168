/**
 * The effect of one split, one merge or one change of ownership on the whole heap state of
 * TlsfState, and on the maps of used and free blocks.
 */
module TlsfSteps {
  import opened Bits
  import opened TlsfMapping
  import opened TlsfState

  /** A block as a caller sees it: header offset and payload size. */
  datatype Block = Block(off: int, size: nat)

  /** The used blocks. */
  ghost function LiveOf(mem: Memory, blocks: set<int>): set<Block>
    requires forall o | o in blocks :: o in mem
  {
    set o | o in blocks && !mem[o].free :: Block(o, mem[o].size)
  }

  /** The free blocks. */
  ghost function FreeOf(mem: Memory, blocks: set<int>): set<Block>
    requires forall o | o in blocks :: o in mem
  {
    set o | o in blocks && mem[o].free :: Block(o, mem[o].size)
  }

  /** The free blocks after `size` bytes have been cut from free block `b`. */
  ghost function CutFree(free: set<Block>, b: Block, size: nat): set<Block> {
    if b.size < size + HDR + MIN_BLOCK then free - {b}
    else free - {b} + {Block(b.off + HDR + size, b.size - size - HDR)}
  }

  ghost predicate Touches(l: Block, r: Block) {
    l.off + HDR + l.size == r.off
  }

  /** One block in place of two that touch. */
  function Fused(l: Block, r: Block): Block {
    Block(l.off, l.size + HDR + r.size)
  }

  /** Block `b` fused with the free block on its right, if there is one, and the other free blocks. */
  ghost function JoinRight(free: set<Block>, b: Block): (Block, set<Block>) {
    if r :| r in free && Touches(b, r) then (Fused(b, r), free - {r}) else (b, free)
  }

  ghost function JoinLeft(free: set<Block>, b: Block): (Block, set<Block>) {
    if l :| l in free && Touches(l, b) then (Fused(l, b), free - {l}) else (b, free)
  }

  /** The free blocks after block `b` has joined them, merged with the free blocks it touches. */
  ghost function JoinFree(free: set<Block>, b: Block): set<Block> {
    var (g, rest) := JoinRight(free, b);
    var (h, rest') := JoinLeft(rest, g);
    rest' + {h}
  }

  lemma JoinRightIs(mem: Memory, blocks: set<int>, n: nat, b: int)
    requires Tiled(mem, blocks, n) && b in blocks && mem[b].free
    ensures var e := End(mem, b);
            var free, blk := FreeOf(mem, blocks) - {Block(b, mem[b].size)}, Block(b, mem[b].size);
            JoinRight(free, blk) ==
              if e in blocks && mem[e].free then (Fused(blk, Block(e, mem[e].size)), FreeOf(mem, blocks) - {blk, Block(e, mem[e].size)})
              else (blk, free)
  {
    var e := End(mem, b);
    var free, blk := FreeOf(mem, blocks) - {Block(b, mem[b].size)}, Block(b, mem[b].size);
    if e in blocks && mem[e].free {
      assert Block(e, mem[e].size) in free && Touches(blk, Block(e, mem[e].size));
      assert free - {Block(e, mem[e].size)} == FreeOf(mem, blocks) - {blk, Block(e, mem[e].size)};
    }
  }

  lemma JoinLeftIs(mem: Memory, blocks: set<int>, n: nat, b: int)
    requires Tiled(mem, blocks, n) && b in blocks && mem[b].free
    ensures var p := mem[b].prevPhys;
            var free, blk := FreeOf(mem, blocks) - {Block(b, mem[b].size)}, Block(b, mem[b].size);
            JoinLeft(free, blk) ==
              if b != 0 && p in mem && mem[p].free then (Fused(Block(p, mem[p].size), blk), FreeOf(mem, blocks) - {Block(p, mem[p].size), blk})
              else (blk, free)
  {
    assert BlockOk(mem, blocks, n, b);
    var p := mem[b].prevPhys;
    var free, blk := FreeOf(mem, blocks) - {Block(b, mem[b].size)}, Block(b, mem[b].size);
    if b != 0 && mem[p].free {
      assert Block(p, mem[p].size) in free && Touches(Block(p, mem[p].size), blk);
      assert free - {Block(p, mem[p].size)} == FreeOf(mem, blocks) - {Block(p, mem[p].size), blk};
    }
    forall l | l in free && Touches(l, blk)
      ensures b != 0 && l == Block(p, mem[p].size)
    {
      PrevUnique(mem, blocks, n, l.off, b);
    }
  }

  // ---- the value side of the update steps ----

  /** The block after `z`, if any, is in use. */
  ghost predicate RightUsed(mem: Memory, n: nat, z: int) {
    z in mem && (End(mem, z) == n || (End(mem, z) in mem && !mem[End(mem, z)].free))
  }

  ghost predicate LeftUsed(mem: Memory, z: int) {
    z in mem && (z == 0 || (mem[z].prevPhys in mem && !mem[mem[z].prevPhys].free))
  }

  lemma PrevUnique(mem: Memory, blocks: set<int>, n: nat, p: int, o: int)
    requires Tiled(mem, blocks, n) && p in blocks && o in blocks && End(mem, p) == o
    ensures o != 0 && mem[o].prevPhys == p
  {
    assert BlockOk(mem, blocks, n, o) && BlockOk(mem, blocks, n, p);
  }

  /** Once both neighbours of the block in transit are in use, no two free blocks touch. */
  lemma CoalescedAtLast(mem: Memory, blocks: set<int>, n: nat, z: int)
    requires Tiled(mem, blocks, n) && z in blocks && Coalesced(mem, blocks, {z})
    requires RightUsed(mem, n, z) && LeftUsed(mem, z)
    ensures Coalesced(mem, blocks, {})
  {
    forall o, p | o in blocks && p in blocks && o in mem && p in mem && o !in {} && p !in {} && End(mem, o) == p
      ensures !(mem[o].free && mem[p].free)
    {
      PrevUnique(mem, blocks, n, o, p);
      assert BlockOk(mem, blocks, n, o) && BlockOk(mem, blocks, n, p);
    }
  }

  /** Splitting free block `x` at `r`: everything but the list entry of `r`. */
  lemma SplitState(mem: Memory, mem': Memory, blocks: set<int>, n: nat, heads: seq<int>, bins: seq<seq<int>>, x: int, r: int)
    requires Tiled(mem, blocks, n) && x in blocks && mem[x].free && SplitAt(mem, mem', blocks, x, r)
    requires AllLinked(mem, heads, bins) && Filed(mem, blocks, bins, {x}) && StaleFree(mem, blocks)
    requires forall o | o in mem' && o !in blocks && o != r :: o in mem && mem'[o] == mem[o]
    ensures Tiled(mem', blocks + {r}, n)
    ensures AllLinked(mem', heads, bins) && Filed(mem', blocks + {r}, bins, {x, r}) && StaleFree(mem', blocks + {r})
  {
    SplitTiled(mem, mem', blocks, n, x, r);
    ListsKept(mem, mem', blocks, blocks + {r}, heads, bins, {x}, {x, r});
  }

  lemma SplitViews(mem: Memory, mem': Memory, blocks: set<int>, n: nat, x: int, r: int)
    requires Tiled(mem, blocks, n) && x in blocks && mem[x].free && SplitAt(mem, mem', blocks, x, r)
    requires Tiled(mem', blocks + {r}, n)
    ensures UsedFrom(mem', blocks + {r}, n, 0) == UsedFrom(mem, blocks, n, 0)
    ensures LiveOf(mem', blocks + {r}) == LiveOf(mem, blocks)
    ensures FreeOf(mem', blocks + {r}) == FreeOf(mem, blocks) - {Block(x, mem[x].size)} + {Block(x, r - x - HDR), Block(r, End(mem, x) - r - HDR)}
  {
    UsedSplit(mem, mem', blocks, n, x, r, 0);
  }

  lemma SplitCoalesced(mem: Memory, mem': Memory, blocks: set<int>, n: nat, x: int, r: int)
    requires Tiled(mem, blocks, n) && x in blocks && mem[x].free && SplitAt(mem, mem', blocks, x, r)
    requires Tiled(mem', blocks + {r}, n) && Coalesced(mem, blocks, {})
    ensures Coalesced(mem', blocks + {r}, {x})
  {
    forall o, p | o in blocks + {r} && p in blocks + {r} && o in mem' && p in mem' && o !in {x} && p !in {x} && End(mem', o) == p
      ensures !(mem'[o].free && mem'[p].free)
    {
      if p == r {
        PrevUnique(mem', blocks + {r}, n, o, r);
      } else if o == r {
        assert End(mem, x) == p;
      } else {
        assert End(mem, o) == p;
      }
    }
  }

  /** All that one split of `x` at `r` does. */
  lemma SplitAll(mem: Memory, mem': Memory, blocks: set<int>, n: nat, heads: seq<int>, bins: seq<seq<int>>, x: int, r: int)
    requires Tiled(mem, blocks, n) && x in blocks && mem[x].free && SplitAt(mem, mem', blocks, x, r)
    requires AllLinked(mem, heads, bins) && Filed(mem, blocks, bins, {x}) && StaleFree(mem, blocks)
    requires Coalesced(mem, blocks, {})
    requires forall o | o in mem' && o !in blocks && o != r :: o in mem && mem'[o] == mem[o]
    ensures Tiled(mem', blocks + {r}, n)
    ensures AllLinked(mem', heads, bins) && Filed(mem', blocks + {r}, bins, {x, r}) && StaleFree(mem', blocks + {r})
    ensures Coalesced(mem', blocks + {r}, {x})
    ensures UsedFrom(mem', blocks + {r}, n, 0) == UsedFrom(mem, blocks, n, 0)
    ensures LiveOf(mem', blocks + {r}) == LiveOf(mem, blocks)
    ensures var size := r - x - HDR;
            FreeOf(mem', blocks + {r}) - {Block(x, size)} == CutFree(FreeOf(mem, blocks), Block(x, mem[x].size), size)
  {
    SplitState(mem, mem', blocks, n, heads, bins, x, r);
    SplitViews(mem, mem', blocks, n, x, r);
    SplitCoalesced(mem, mem', blocks, n, x, r);
  }

  /** Absorbing `hi` into `lo`, both in transit. */
  lemma MergeState(mem: Memory, mem': Memory, blocks: set<int>, n: nat, heads: seq<int>, bins: seq<seq<int>>, transit: set<int>, lo: int, hi: int)
    requires Tiled(mem, blocks, n) && lo in blocks && hi in blocks && MergedAt(mem, mem', blocks, lo, hi)
    requires lo in transit && hi in transit && mem[lo].free && mem[hi].free
    requires AllLinked(mem, heads, bins) && Filed(mem, blocks, bins, transit) && StaleFree(mem, blocks)
    requires mem'.Keys == mem.Keys && forall o | o in mem && o !in blocks :: mem'[o] == mem[o]
    ensures Tiled(mem', blocks - {hi}, n)
    ensures AllLinked(mem', heads, bins) && Filed(mem', blocks - {hi}, bins, transit - {hi}) && StaleFree(mem', blocks - {hi})
  {
    MergedTiled(mem, mem', blocks, n, lo, hi);
    ListsKept(mem, mem', blocks, blocks - {hi}, heads, bins, transit, transit - {hi});
    assert BlockOk(mem, blocks, n, lo) && BlockOk(mem, blocks, n, hi);
  }

  lemma MergeViews(mem: Memory, mem': Memory, blocks: set<int>, n: nat, lo: int, hi: int)
    requires Tiled(mem, blocks, n) && lo in blocks && hi in blocks && MergedAt(mem, mem', blocks, lo, hi)
    requires mem[lo].free && mem[hi].free && Tiled(mem', blocks - {hi}, n)
    ensures UsedFrom(mem', blocks - {hi}, n, 0) == UsedFrom(mem, blocks, n, 0)
    ensures LiveOf(mem', blocks - {hi}) == LiveOf(mem, blocks)
    ensures var l, h := Block(lo, mem[lo].size), Block(hi, mem[hi].size);
            && FreeOf(mem', blocks - {hi}) - {Fused(l, h)} == FreeOf(mem, blocks) - {l, h}
            && mem'[lo].size == Fused(l, h).size
  {
    assert BlockOk(mem, blocks, n, lo) && BlockOk(mem, blocks, n, hi);
    assert blocks - {hi} + {hi} == blocks;
    UsedSplit(mem', mem, blocks - {hi}, n, lo, hi, 0);
  }

  lemma MergeCoalesced(mem: Memory, mem': Memory, blocks: set<int>, n: nat, lo: int, hi: int, z: int)
    requires Tiled(mem, blocks, n) && lo in blocks && hi in blocks && MergedAt(mem, mem', blocks, lo, hi)
    requires z == lo || z == hi
    requires Coalesced(mem, blocks, {z})
    ensures Coalesced(mem', blocks - {hi}, {lo})
  {
    forall o, p | o in blocks - {hi} && p in blocks - {hi} && o in mem' && p in mem' && o !in {lo} && p !in {lo} && End(mem', o) == p
      ensures !(mem'[o].free && mem'[p].free)
    {
      assert End(mem, o) == p;
    }
  }

  // ---- ownership ----

  /** The header of `x` with the FREE flag cleared, and whatever was known about the payload forgotten: it is the caller's now. */
  function HandedOut(mem: Memory, x: int): Memory
    requires x in mem
  {
    (mem - set o | o in mem && x < o < End(mem, x))[x := mem[x].(free := false, magic := MAGIC)]
  }

  lemma HandOut(mem: Memory, blocks: set<int>, n: nat, heads: seq<int>, bins: seq<seq<int>>, x: int)
    requires Tiled(mem, blocks, n) && x in blocks && mem[x].free && NULL !in mem
    requires AllLinked(mem, heads, bins) && Filed(mem, blocks, bins, {x}) && StaleFree(mem, blocks)
    ensures var mem' := HandedOut(mem, x);
            && NULL !in mem' && Tiled(mem', blocks, n)
            && AllLinked(mem', heads, bins) && Filed(mem', blocks, bins, {}) && StaleFree(mem', blocks)
            && UsedFrom(mem', blocks, n, 0) == UsedFrom(mem, blocks, n, 0) + HDR + mem[x].size
            && LiveOf(mem', blocks) == LiveOf(mem, blocks) + {Block(x, mem[x].size)}
            && FreeOf(mem', blocks) == FreeOf(mem, blocks) - {Block(x, mem[x].size)}
  {
    var mem' := HandedOut(mem, x);
    OthersKept(mem, blocks, n, x);
    FlagTiled(mem, mem', blocks, n, x);
    ListsKept(mem, mem', blocks, blocks, heads, bins, {x}, {});
    assert BlockOk(mem, blocks, n, x);
    UsedMark(mem, mem', blocks, n, x, 0);
  }

  lemma OthersKept(mem: Memory, blocks: set<int>, n: nat, x: int)
    requires Tiled(mem, blocks, n) && x in blocks
    ensures var mem' := HandedOut(mem, x);
            forall o | o in blocks && o != x :: o in mem' && mem'[o] == mem[o]
  {
    forall o | o in blocks && o > x
      ensures End(mem, x) <= o
    {
    }
  }

  lemma HandOutCoalesced(mem: Memory, blocks: set<int>, n: nat, x: int)
    requires Tiled(mem, blocks, n) && x in blocks && Coalesced(mem, blocks, {x})
    ensures Coalesced(HandedOut(mem, x), blocks, {})
  {
    var mem' := HandedOut(mem, x);
    forall o, p | o in blocks && p in blocks && o in mem' && p in mem' && o !in {} && p !in {} && End(mem', o) == p
      ensures !(mem'[o].free && mem'[p].free)
    {
      assert End(mem, o) == p;
    }
  }

  /** Flipping the flag of one block keeps the tiling. */
  lemma FlagTiled(mem: Memory, mem': Memory, blocks: set<int>, n: nat, x: int)
    requires Tiled(mem, blocks, n) && x in blocks
    requires x in mem' && mem'[x] == mem[x].(free := mem'[x].free, magic := MAGIC, prevFree := mem'[x].prevFree)
    requires forall o | o in blocks && o != x :: o in mem' && mem'[o] == mem[o]
    ensures Tiled(mem', blocks, n)
  {
    forall o | o in blocks
      ensures BlockOk(mem', blocks, n, o)
    {
      assert BlockOk(mem, blocks, n, o);
    }
    forall o, p | o in blocks && p in blocks && o < p
      ensures End(mem', o) <= p
    {
      assert End(mem', o) == End(mem, o);
    }
  }

  /** Setting the FREE flag of used block `x`, which is then in transit to a free list. */
  lemma TakeBack(mem: Memory, mem': Memory, blocks: set<int>, n: nat, heads: seq<int>, bins: seq<seq<int>>, x: int)
    requires Tiled(mem, blocks, n) && x in blocks && !mem[x].free
    requires AllLinked(mem, heads, bins) && Filed(mem, blocks, bins, {}) && StaleFree(mem, blocks)
    requires mem' == mem[x := mem[x].(free := true, prevFree := NULL)]
    ensures Tiled(mem', blocks, n)
    ensures AllLinked(mem', heads, bins) && Filed(mem', blocks, bins, {x}) && StaleFree(mem', blocks)
    ensures UsedFrom(mem, blocks, n, 0) == UsedFrom(mem', blocks, n, 0) + HDR + mem[x].size
    ensures LiveOf(mem', blocks) == LiveOf(mem, blocks) - {Block(x, mem[x].size)}
    ensures FreeOf(mem', blocks) - {Block(x, mem[x].size)} == FreeOf(mem, blocks)
  {
    assert BlockOk(mem, blocks, n, x);
    FlagTiled(mem, mem', blocks, n, x);
    ListsKept(mem, mem', blocks, blocks, heads, bins, {}, {x});
    UsedMark(mem', mem, blocks, n, x, 0);
  }

  lemma TakeBackCoalesced(mem: Memory, mem': Memory, blocks: set<int>, x: int)
    requires x in mem && Coalesced(mem, blocks, {})
    requires mem' == mem[x := mem[x].(free := true, prevFree := NULL)]
    ensures Coalesced(mem', blocks, {x})
  {
    forall o, p | o in blocks && p in blocks && o in mem' && p in mem' && o !in {x} && p !in {x} && End(mem', o) == p
      ensures !(mem'[o].free && mem'[p].free)
    {
      assert End(mem, o) == p;
    }
  }

  /** The pool right after initialisation: one free block, on no list yet. */
  lemma FreshPool(n: nat, sl: seq<Word>, heads: seq<int>, bins: seq<seq<int>>)
    requires 64 <= n <= 0x8000_0000 && n % ALIGN == 0
    requires |heads| == |bins| == BINS
    requires forall b | 0 <= b < BINS :: heads[b] == NULL && bins[b] == []
    requires |sl| == FL_COUNT && forall i | 0 <= i < FL_COUNT :: sl[i] == ZERO
    ensures Mapped(ZERO, sl, heads)
    ensures var mem := map[0 := Header(n - HDR, true, MAGIC, NULL, NULL, NULL)];
            && Tiled(mem, {0}, n) && Coalesced(mem, {0}, {}) && StaleFree(mem, {0})
            && AllLinked(mem, heads, bins) && Filed(mem, {0}, bins, {0})
            && UsedFrom(mem, {0}, n, 0) == 0
            && LiveOf(mem, {0}) == {} && FreeOf(mem, {0}) == {Block(0, n - HDR)}
  {
    var mem := map[0 := Header(n - HDR, true, MAGIC, NULL, NULL, NULL)];
    assert BlockOk(mem, {0}, n, 0);
    assert End(mem, 0) == n;
    forall b: nat | b < BINS
      ensures OfBin(mem, {0}, {0}, b, bins[b]) && Linked(mem, heads[b], bins[b])
    {
      assert bins[b] == [];
    }
  }
}
