/**
 * kernel/mem.c: the two-level segregated-fit heap, updated in place.  `Live` and
 * `FreeBlocks` are what a caller can observe of it.
 */
module TlsfHeap {
  import opened Bits
  import opened TlsfMapping
  import opened TlsfState
  import opened TlsfSteps

  /** Bytes the allocator really looks for: `size` truncated to 32 bits, rounded up to 8 with wrap-around, at least 32. */
  function Request(size: nat): (r: uint32)
    ensures r % ALIGN == 0 && r >= MIN_BLOCK
  {
    AtLeastMin((size % 0x1_0000_0000 + 7) % 0x1_0000_0000 / 8 * 8)
  }

  /** Every one of these blocks is smaller than `size`. */
  ghost predicate NoneFits(free: set<Block>, size: nat) {
    forall f | f in free :: f.size < size
  }

  /** The allocator looks for no more than it has to, unless the request wraps. */
  lemma RequestExact(size: nat)
    requires 0 < size < 0x1_0000_0000 - 7
    ensures Request(size) == if size <= 32 then 32 else (size + 7) / 8 * 8
    ensures size <= Request(size) && (size > 32 ==> Request(size) < size + 8)
  {
  }

  /** Among multiples of 8 from 32 on, those that can hold what the allocator looks for are those that can hold the request. */
  lemma SameFit(free: set<Block>, size: nat)
    requires 0 < size < 0x1_0000_0000 - 7 && forall f | f in free :: f.size % ALIGN == 0 && f.size >= MIN_BLOCK
    ensures NoneFits(free, Request(size)) <==> forall f | f in free :: f.size < size
  {
    RequestExact(size);
    forall f | f in free
      ensures f.size < Request(size) <==> f.size < size
    {
      MultipleFits(f.size / 8, size, Request(size) / 8);
    }
  }

  /** What is looked for, and what is then granted, in terms of the request. */
  lemma AsAsked(free: set<Block>, size: nat, payload: nat)
    requires Request(size) <= payload < Request(size) + HDR + MIN_BLOCK
    requires forall f | f in free :: f.size % ALIGN == 0 && f.size >= MIN_BLOCK
    ensures 0 < size < 0x1_0000_0000 - 7 ==>
      && (NoneFits(free, Request(size)) <==> forall f | f in free :: f.size < size)
      && size <= payload < (if size <= 32 then 32 else (size + 7) / 8 * 8) + HDR + MIN_BLOCK
  {
    if 0 < size < 0x1_0000_0000 - 7 {
      RequestExact(size);
      SameFit(free, size);
    }
  }

  lemma MultipleFits(q: nat, size: nat, r: nat)
    requires q >= 4 && size <= 8 * r && (8 * r < size + 8 || r == 4)
    ensures 8 * q < 8 * r <==> 8 * q < size
  {
  }

  /** Nothing on this list can serve a request of `size`. */
  ghost predicate NoFit(mem: Memory, list: seq<int>, size: nat) {
    forall o | o in list && o in mem :: mem[o].size < size
  }

  /** Block `r` is the first of this list that can serve `size`. */
  ghost predicate FirstIn(mem: Memory, list: seq<int>, size: nat, r: int) {
    exists k: nat :: k < |list| && list[k] == r && r in mem && mem[r].size >= size && NoFit(mem, list[..k], size)
  }

  /** Block `r` is the first that fits when the bins are read in order from bin `from`. */
  ghost predicate FirstFit(mem: Memory, bins: seq<seq<int>>, from: nat, size: nat, r: int) {
    exists b: nat ::
      && from <= b < |bins|
      && (forall c | from <= c < b :: NoFit(mem, bins[c], size))
      && FirstIn(mem, bins[b], size, r)
  }

  class Heap {
    const n: nat
    var mem: Memory
    var flBitmap: Word
    const slBitmap: array<Word>
    const blockList: array<int>
    var used: nat
    var minFree: nat
    var initialised: bool
    ghost var blocks: set<int>
    ghost var bins: seq<seq<int>>

    /** Everything but the byte counters, with the blocks of `transit` on no free list. */
    ghost predicate Core(transit: set<int>)
      reads this, slBitmap, blockList
    {
      && 64 <= n <= 0x8000_0000 && n % ALIGN == 0
      && slBitmap.Length == FL_COUNT && blockList.Length == BINS
      && NULL !in mem
      && Tiled(mem, blocks, n)
      && AllLinked(mem, blockList[..], bins)
      && Filed(mem, blocks, bins, transit)
      && Mapped(flBitmap, slBitmap[..], blockList[..])
      && StaleFree(mem, blocks)
    }

    ghost predicate Valid()
      reads this, slBitmap, blockList
    {
      && 64 <= n <= 0x8000_0000 && n % ALIGN == 0
      && slBitmap.Length == FL_COUNT && blockList.Length == BINS
      && (!initialised ==> used == 0)
      && (initialised ==>
          && Core({})
          && Coalesced(mem, blocks, {})
          && used == UsedFrom(mem, blocks, n, 0)
          && minFree <= n - used <= n)
    }

    ghost function Live(): set<Block>
      requires Valid()
      reads this, slBitmap, blockList
    {
      if initialised then LiveOf(mem, blocks) else {}
    }

    ghost function FreeBlocks(): set<Block>
      requires Valid()
      reads this, slBitmap, blockList
    {
      if initialised then FreeOf(mem, blocks) else {Block(0, n - HDR)}
    }

    method ListRemove(block: int, fl: nat, sl: nat, ghost transit: set<int>)
      requires Core(transit) && block in blocks && mem[block].free && block !in transit
      requires (fl, sl) == Mapping(mem[block].size)
      modifies this`mem, this`flBitmap, this`bins, slBitmap, blockList
      ensures Core(transit + {block})
      ensures SameBlocks(old(mem), mem)
    {
      ghost var b := fl * SL_COUNT + sl;
      ghost var heads, slMaps, flMap, k := blockList[..], slBitmap[..], flBitmap, IndexIn(bins[b], block);
      var h := mem[block];
      RemoveProof(transit, b, k);
      if h.prevFree != NULL {
        mem := mem[h.prevFree := mem[h.prevFree].(nextFree := h.nextFree)];
      } else {
        blockList[fl * SL_COUNT + sl] := h.nextFree;
        if blockList[fl * SL_COUNT + sl] == NULL {
          slBitmap[fl] := slBitmap[fl][sl := false];
          if !NonZero(slBitmap[fl]) {
            flBitmap := flBitmap[fl := false];
          }
          BitsWithoutHead(flMap, slMaps, heads, fl, sl);
          assert slBitmap[..] == slMaps[fl := slMaps[fl][sl := false]];
        } else {
          BitsSameHead(flMap, slMaps, heads, fl, sl, h.nextFree);
          assert slBitmap[..] == slMaps;
        }
        assert blockList[..] == heads[b := h.nextFree];
      }
      if h.nextFree != NULL {
        mem := mem[h.nextFree := mem[h.nextFree].(prevFree := h.prevFree)];
      }
      mem := mem[block := mem[block].(nextFree := NULL, prevFree := NULL)];
      bins := bins[b := bins[b][..k] + bins[b][k + 1..]];
    }

    /** The list surgery of ListRemove, on values. */
    lemma RemoveProof(transit: set<int>, b: nat, k: nat)
      requires Core(transit) && b < BINS && k < |bins[b]|
      ensures bins[b][k] in mem
      ensures var h := mem[bins[b][k]];
              && (h.prevFree != NULL ==> h.prevFree in mem)
              && (h.nextFree != NULL ==> h.nextFree in mem)
              && (h.prevFree == NULL <==> k == 0)
      ensures var x := bins[b][k];
              var mem' := Unlinked(mem, x);
              && SameBlocks(mem, mem')
              && Tiled(mem', blocks, n)
              && AllLinked(mem', if k == 0 then blockList[..][b := mem[x].nextFree] else blockList[..],
                           bins[b := bins[b][..k] + bins[b][k + 1..]])
              && Filed(mem', blocks, bins[b := bins[b][..k] + bins[b][k + 1..]], transit + {x})
    {
      Neighbours(mem, blockList[b], bins[b], k);
      RemovedFromTable(mem, Unlinked(mem, bins[b][k]), blocks, blockList[..], bins, transit, b, k);
      AgreeKeeps(mem, Unlinked(mem, bins[b][k]), blocks, n);
    }

    ghost function IndexIn(list: seq<int>, o: int): (k: nat)
      requires o in list
      ensures k < |list| && list[k] == o
    {
      var k :| 0 <= k < |list| && list[k] == o; k
    }

    method ListInsert(block: int, fl: nat, sl: nat, ghost transit: set<int>)
      requires Core(transit) && block in transit && block in blocks && mem[block].free
      requires (fl, sl) == Mapping(mem[block].size)
      modifies this`mem, this`flBitmap, this`bins, slBitmap, blockList
      ensures Core(transit - {block})
      ensures SameBlocks(old(mem), mem)
    {
      ghost var b := fl * SL_COUNT + sl;
      ghost var heads, slMaps := blockList[..], slBitmap[..];
      InsertProof(transit, block);
      BitsWithHead(flBitmap, slMaps, heads, fl, sl, block);
      var head := blockList[fl * SL_COUNT + sl];
      mem := mem[block := mem[block].(nextFree := head, prevFree := NULL)];
      if head != NULL {
        mem := mem[head := mem[head].(prevFree := block)];
      }
      blockList[fl * SL_COUNT + sl] := block;
      slBitmap[fl] := slBitmap[fl][sl := true];
      flBitmap := flBitmap[fl := true];
      bins := bins[b := [block] + bins[b]];
      assert blockList[..] == heads[b := block];
      assert slBitmap[..] == slMaps[fl := slMaps[fl][sl := true]];
    }

    /** The list surgery of ListInsert, on values. */
    lemma InsertProof(transit: set<int>, x: int)
      requires Core(transit) && x in transit && x in blocks && mem[x].free
      ensures var h := blockList[Bin(mem[x].size)]; h != NULL ==> h in mem
      ensures var b := Bin(mem[x].size);
              var mem' := Pushed(mem, blockList[b], x);
              && SameBlocks(mem, mem')
              && Tiled(mem', blocks, n)
              && AllLinked(mem', blockList[..][b := x], bins[b := [x] + bins[b]])
              && Filed(mem', blocks, bins[b := [x] + bins[b]], transit - {x})
    {
      var b := Bin(mem[x].size);
      assert Linked(mem, blockList[..][b], bins[b]);
      if blockList[b] != NULL { Neighbours(mem, blockList[b], bins[b], 0); }
      InsertedInTable(mem, Pushed(mem, blockList[b], x), blocks, blockList[..], bins, transit, x);
      AgreeKeeps(mem, Pushed(mem, blockList[b], x), blocks, n);
    }

    /** What the search relies on: linked lists, and bits that are set wherever there is something to find. */
    ghost predicate Searchable()
      reads this, slBitmap, blockList
    {
      && slBitmap.Length == FL_COUNT && blockList.Length == BINS
      && NULL !in mem
      && AllLinked(mem, blockList[..], bins)
      && (forall i: nat, j: nat | i < FL_COUNT && j < SL_COUNT && !slBitmap[i][j] :: bins[i * SL_COUNT + j] == [])
      && (forall i: nat | i < FL_COUNT :: flBitmap[i] <==> NonZero(slBitmap[i]))
    }

    lemma CoreSearchable()
      requires Core({})
      ensures Searchable()
    {
      forall i: nat, j: nat | i < FL_COUNT && j < SL_COUNT && !slBitmap[i][j]
        ensures bins[i * SL_COUNT + j] == []
      {
        var b := i * SL_COUNT + j;
        assert !slBitmap[..][i][j];
        assert Linked(mem, blockList[..][b], bins[b]);
        EmptyIffNull(mem, blockList[b], bins[b]);
      }
      forall i: nat | i < FL_COUNT
        ensures flBitmap[i] <==> NonZero(slBitmap[i])
      {
        assert slBitmap[..][i] == slBitmap[i];
      }
    }

    /** One bin: the first block of its list that is large enough. */
    method ScanList(b: nat, size: uint32) returns (r: int)
      requires Searchable() && b < BINS
      ensures r == NULL ==> NoFit(mem, bins[b], size)
      ensures r != NULL ==> FirstIn(mem, bins[b], size, r)
    {
      ghost var list, k := bins[b], 0;
      assert Linked(mem, blockList[..][b], list);
      r := blockList[b];
      while r != NULL
        invariant 0 <= k <= |list|
        invariant r == if k < |list| then list[k] else NULL
        invariant NoFit(mem, list[..k], size)
        decreases |list| - k
      {
        Neighbours(mem, blockList[b], list, k);
        if mem[r].size >= size {
          return;
        }
        assert list[..k + 1] == list[..k] + [list[k]];
        r := mem[r].nextFree;
        k := k + 1;
      }
      if k < |list| { Neighbours(mem, blockList[b], list, k); }
      assert list[..k] == list;
    }

    /** No bin from `from` up to, not including, `to` has a fitting block. */
    ghost predicate Passed(from: nat, to: nat, size: uint32)
      reads this
    {
      forall b | from <= b < to && b < |bins| :: NoFit(mem, bins[b], size)
    }

    /** Bins of row `i` between two columns are empty if their bits are clear. */
    lemma PassColumns(from: nat, i: nat, lo: nat, hi: nat, size: uint32)
      requires Searchable() && i < FL_COUNT && lo <= hi <= SL_COUNT
      requires forall j: nat | lo <= j < hi :: !slBitmap[i][j]
      requires Passed(from, i * SL_COUNT + lo, size)
      ensures Passed(from, i * SL_COUNT + hi, size)
    {
      forall b | from <= b < i * SL_COUNT + hi && b < |bins|
        ensures NoFit(mem, bins[b], size)
      {
        if b >= i * SL_COUNT + lo { var j := b - i * SL_COUNT; assert !slBitmap[i][j]; assert bins[i * SL_COUNT + j] == []; }
      }
    }

    /** Rows whose first-level bit is clear are empty. */
    lemma PassRows(from: nat, i: nat, k: nat, size: uint32)
      requires Searchable() && i <= k <= FL_COUNT
      requires forall r: nat | i <= r < k :: !flBitmap[r]
      requires Passed(from, i * SL_COUNT, size)
      ensures Passed(from, k * SL_COUNT, size)
    {
      forall b | from <= b < k * SL_COUNT && b < |bins|
        ensures NoFit(mem, bins[b], size)
      {
        if b >= i * SL_COUNT {
          var r, c := b / SL_COUNT, b % SL_COUNT;
          assert !NonZero(slBitmap[r]);
          assert !slBitmap[r][c];
          assert bins[r * SL_COUNT + c] == [];
        }
      }
    }

    /** The next row with a free block after row `fl`, from the first-level bitmap; FL_COUNT if none. */
    method NextRow(fl: nat, ghost from: nat, ghost size: uint32) returns (next: nat)
      requires Searchable() && fl < FL_COUNT && Passed(from, (fl + 1) * SL_COUNT, size)
      ensures fl < next <= FL_COUNT
      ensures Passed(from, next * SL_COUNT, size)
      ensures next < FL_COUNT ==> NonZero(slBitmap[next])
    {
      var flMap := if fl >= 31 then ZERO else KeepFrom(flBitmap, fl + 1);
      if !NonZero(flMap) {
        next := FL_COUNT;
        if fl < 31 { KeepFromZero(flBitmap, fl + 1); }
      } else {
        next := LowestSet(flMap);
        assert flBitmap[next];
        assert forall r: nat | fl + 1 <= r < next :: !flBitmap[r] by {
          assert forall r: nat | r < next :: !flMap[r];
        }
      }
      PassRows(from, fl + 1, next, size);
    }

    lemma FoundFirst(from: nat, b: nat, size: uint32, r: int)
      requires Searchable() && from <= b < BINS && Passed(from, b, size)
      requires FirstIn(mem, bins[b], size, r)
      ensures FirstFit(mem, bins, from, size, r)
    {
    }

    /** The first row and column mask to look at for `size`; row FL_COUNT if every bin from there on is empty. */
    method FirstColumns(size: uint32) returns (fl: nat, slMap: Word, ghost lo: nat)
      requires Searchable()
      ensures fl <= FL_COUNT
      ensures fl == FL_COUNT ==> Passed(Bin(size), BINS, size)
      ensures fl < FL_COUNT ==>
        && NonZero(slMap) && Reached(Bin(size), fl, slMap, lo, size)
    {
      ghost var from := Bin(size);
      var m := Mapping(size);
      fl := m.0;
      lo := m.1;
      slMap := KeepFrom(slBitmap[fl], m.1);
      if !NonZero(slMap) {
        KeepFromZero(slBitmap[fl], lo);
        PassColumns(from, fl, lo, SL_COUNT, size);
        fl := NextRow(fl, from, size);
        lo := 0;
        if fl < FL_COUNT { slMap := slBitmap[fl]; }
      }
    }

    /** The search for `size` has passed every bin before column `lo` of row `fl`, and `slMap` holds the rest of that row. */
    ghost predicate Reached(from: nat, fl: nat, slMap: Word, lo: nat, size: uint32)
      requires slBitmap.Length == FL_COUNT
      reads this, slBitmap
    {
      && fl < FL_COUNT && lo <= SL_COUNT
      && from <= fl * SL_COUNT + lo
      && Passed(from, fl * SL_COUNT + lo, size)
      && forall j: nat | j < SL_COUNT :: slMap[j] <==> lo <= j && slBitmap[fl][j]
    }

    /**
     * `tlsf_find_suitable`.  The two-level search stops at exactly the block a plain scan of
     * all bins would stop at.
     */
    method FindSuitable(size: uint32) returns (r: int)
      requires Searchable()
      ensures r == NULL ==> Passed(Bin(size), BINS, size)
      ensures r != NULL ==> FirstFit(mem, bins, Bin(size), size, r)
    {
      ghost var from := Bin(size);
      var fl, slMap;
      ghost var lo;
      fl, slMap, lo := FirstColumns(size);
      if fl == FL_COUNT { return NULL; }
      var sl;
      sl, r := ScanLowest(from, fl, slMap, lo, size);
      if r != NULL { return; }
      var rest := WithoutColumns(slMap, sl);
      lo := ReachedNext(from, fl, slMap, rest, lo, size);
      r := SearchHigher(from, fl, rest, lo, size);
    }

    /**
     * `sl_map &= ~((1U << (sl + 1U)) - 1U)`.  For sl == 31 the shift is undefined, so any word
     * at all may be masked with: column 31 may stay.
     */
    static method WithoutColumns(slMap: Word, sl: nat) returns (rest: Word)
      requires sl < WIDTH && forall j: nat | j < sl :: !slMap[j]
      ensures forall j: nat | j < WIDTH :: rest[j] ==> slMap[j] && j >= sl && (j == sl ==> sl == 31)
      ensures forall j: nat | sl < j < WIDTH :: rest[j] == slMap[j]
    {
      if sl + 1 < WIDTH {
        rest := KeepFrom(slMap, sl + 1);
      } else {
        var anything: Word := *;
        rest := And(slMap, anything);
      }
    }

    /** After an unsuccessful scan of the lowest column of `slMap`, the search stands at the rest of the row. */
    lemma ReachedNext(from: nat, fl: nat, slMap: Word, rest: Word, lo: nat, size: uint32) returns (lo': nat)
      requires Searchable() && Reached(from, fl, slMap, lo, size) && NonZero(slMap)
      requires var sl := LowestSet(slMap);
               && NoFit(mem, bins[fl * SL_COUNT + sl], size)
               && (forall j: nat | j < WIDTH :: rest[j] ==> slMap[j] && j >= sl)
               && (forall j: nat | sl < j < WIDTH :: rest[j] == slMap[j])
      ensures Reached(from, fl, rest, lo', size)
      ensures lo' >= LowestSet(slMap) && (rest[LowestSet(slMap)] || lo' > LowestSet(slMap))
    {
      var sl := LowestSet(slMap);
      PassColumns(from, fl, lo, sl, size);
      lo' := if rest[sl] then sl else sl + 1;
      PassOne(from, fl * SL_COUNT + sl, size);
    }

    lemma PassOne(from: nat, b: nat, size: uint32)
      requires Passed(from, b, size) && b < |bins| && NoFit(mem, bins[b], size)
      ensures Passed(from, b + 1, size)
    {
    }

    /** The bin of the lowest column left in `slMap`. */
    method ScanLowest(ghost from: nat, fl: nat, slMap: Word, ghost lo: nat, size: uint32) returns (sl: nat, r: int)
      requires Searchable() && Reached(from, fl, slMap, lo, size) && NonZero(slMap)
      ensures sl == LowestSet(slMap)
      ensures r == NULL ==> NoFit(mem, bins[fl * SL_COUNT + sl], size)
      ensures r != NULL ==> FirstFit(mem, bins, from, size, r)
    {
      sl := LowestSet(slMap);
      r := ScanList(fl * SL_COUNT + sl, size);
      if r != NULL {
        PassColumns(from, fl, lo, sl, size);
        FoundFirst(from, fl * SL_COUNT + sl, size, r);
      }
    }

    /** Row `fl` is exhausted: on to the next row that has a free block, if any. */
    method NextColumns(ghost from: nat, fl: nat, slMap: Word, ghost lo: nat, ghost size: uint32) returns (next: nat, columns: Word)
      requires Searchable() && Reached(from, fl, slMap, lo, size) && !NonZero(slMap)
      ensures fl < next <= FL_COUNT
      ensures next == FL_COUNT ==> Passed(from, BINS, size)
      ensures next < FL_COUNT ==> NonZero(columns) && Reached(from, next, columns, 0, size)
    {
      PassColumns(from, fl, lo, SL_COUNT, size);
      next := NextRow(fl, from, size);
      columns := if next < FL_COUNT then slBitmap[next] else ZERO;
    }

    /** The lowest column left is read and struck out. */
    method ScanColumn(ghost from: nat, fl: nat, slMap: Word, ghost lo: nat, size: uint32) returns (r: int, rest: Word, ghost next: nat)
      requires Searchable() && Reached(from, fl, slMap, lo, size) && NonZero(slMap)
      ensures r != NULL ==> FirstFit(mem, bins, from, size, r)
      ensures r == NULL ==> lo < next <= SL_COUNT && Reached(from, fl, rest, next, size)
    {
      var sl;
      sl, r := ScanLowest(from, fl, slMap, lo, size);
      rest, next := slMap[sl := false], lo;
      if r == NULL {
        next := ReachedNext(from, fl, slMap, rest, lo, size);
      }
    }

    /** The loop of `tlsf_find_suitable`: the columns of `slMap` in row `fl`, then the later rows. */
    method SearchHigher(ghost from: nat, fl0: nat, slMap0: Word, ghost lo0: nat, size: uint32) returns (r: int)
      requires Searchable() && Reached(from, fl0, slMap0, lo0, size)
      ensures r == NULL ==> Passed(from, BINS, size)
      ensures r != NULL ==> FirstFit(mem, bins, from, size, r)
    {
      var fl, slMap := fl0, slMap0;
      ghost var lo := lo0;
      while true
        invariant 0 <= lo && Reached(from, fl, slMap, lo, size)
        decreases FL_COUNT - fl, SL_COUNT - lo
      {
        if !NonZero(slMap) {
          fl, slMap := NextColumns(from, fl, slMap, lo, size);
          if fl == FL_COUNT { return NULL; }
          lo := 0;
        }
        r, slMap, lo := ScanColumn(from, fl, slMap, lo, size);
        if r != NULL { return; }
      }
    }

    /** `tlsf_split_block`, on a block already off its free list. */
    method SplitBlock(block: int, size: nat)
      requires Core({block}) && Coalesced(mem, blocks, {})
      requires block in blocks && mem[block].free
      requires MIN_BLOCK <= size <= mem[block].size && size % ALIGN == 0
      modifies this`mem, this`flBitmap, this`bins, this`blocks, slBitmap, blockList
      ensures Core({block}) && Coalesced(mem, blocks, {block})
      ensures block in blocks && mem[block].free && size <= mem[block].size < size + HDR + MIN_BLOCK
      ensures UsedFrom(mem, blocks, n, 0) == old(UsedFrom(mem, blocks, n, 0))
      ensures LiveOf(mem, blocks) == old(LiveOf(mem, blocks))
      ensures FreeOf(mem, blocks) - {Block(block, mem[block].size)} == CutFree(old(FreeOf(mem, blocks)), old(Block(block, mem[block].size)), size)
      ensures mem[block].size == if old(mem[block].size) < size + HDR + MIN_BLOCK then old(mem[block].size) else size
    {
      var total := mem[block].size;
      if total < size + HDR + MIN_BLOCK {
        return;
      }
      var remain := block + HDR + size;
      Carve(block, size, remain);
      ghost var mem1 := mem;
      ListInsert(remain, Mapping(mem[remain].size).0, Mapping(mem[remain].size).1, {block, remain});
      assert {block, remain} - {remain} == {block};
      LinksOnly(mem1, mem, blocks, n, {block});
    }

    /** The header writes of a split; the new block is still on no list. */
    method Carve(block: int, size: nat, remain: int)
      requires Core({block}) && Coalesced(mem, blocks, {})
      requires block in blocks && mem[block].free && remain == block + HDR + size
      requires MIN_BLOCK <= size && size % ALIGN == 0 && size + HDR + MIN_BLOCK <= mem[block].size
      modifies this`mem, this`blocks
      ensures Core({block, remain}) && Coalesced(mem, blocks, {block})
      ensures remain in blocks && mem[remain].free
      ensures block in blocks && mem[block].free && mem[block].size == size
      ensures UsedFrom(mem, blocks, n, 0) == old(UsedFrom(mem, blocks, n, 0))
      ensures LiveOf(mem, blocks) == old(LiveOf(mem, blocks))
      ensures FreeOf(mem, blocks) - {Block(block, mem[block].size)} == CutFree(old(FreeOf(mem, blocks)), old(Block(block, mem[block].size)), size)
    {
      ghost var mem0 := mem;
      WriteRemain(block, size, remain);
      SplitAll(mem0, mem, blocks, n, blockList[..], bins, block, remain);
      blocks := blocks + {remain};
    }

    /** The header writes of `tlsf_split_block`. */
    method WriteRemain(block: int, size: nat, remain: int)
      requires Tiled(mem, blocks, n) && block in blocks && remain == block + HDR + size
      requires MIN_BLOCK <= size && size % ALIGN == 0 && size + HDR + MIN_BLOCK <= mem[block].size
      modifies this`mem
      ensures SplitAt(old(mem), mem, blocks, block, remain)
      ensures NULL !in old(mem) ==> NULL !in mem
      ensures forall o | o in mem && o !in blocks && o != remain :: o in old(mem) && mem[o] == old(mem)[o]
    {
      SplitHeaders(mem, blocks, n, block, size);
      ghost var mem0 := mem;
      var total := mem[block].size;
      mem := Written(mem, remain, Header(total - size - HDR, true, MAGIC, block, NULL, NULL));
      mem := mem[block := mem[block].(size := size, free := true)];
      var next := End(mem, remain);
      if next < n {
        assert mem[next] == mem0[next];
        mem := mem[next := mem[next].(prevPhys := remain)];
      }
      assert mem == Split(mem0, n, block, size);
    }

    /** Inserting or removing list links changes none of the views. */
    static lemma LinksOnly(mem: Memory, mem': Memory, blocks: set<int>, n: nat, transit: set<int>)
      requires SameBlocks(mem, mem') && Tiled(mem, blocks, n) && Tiled(mem', blocks, n) && Coalesced(mem, blocks, transit)
      ensures Coalesced(mem', blocks, transit)
      ensures UsedFrom(mem', blocks, n, 0) == UsedFrom(mem, blocks, n, 0)
      ensures LiveOf(mem', blocks) == LiveOf(mem, blocks)
      ensures FreeOf(mem', blocks) == FreeOf(mem, blocks)
    {
      AgreeCoalesced(mem, mem', blocks, transit);
      UsedSame(mem, mem', blocks, n, 0);
    }

    /** One absorption of `tlsf_merge_block`: `hi` becomes the tail of its predecessor `lo`; both are off the free lists. */
    method Absorb(lo: int, hi: int, ghost z: int)
      requires Core({lo, hi}) && lo in blocks && hi in blocks && End(mem, lo) == hi
      requires mem[lo].free && mem[hi].free
      requires (z == lo || z == hi) && Coalesced(mem, blocks, {z})
      modifies this`mem, this`blocks
      ensures blocks == old(blocks) - {hi} && Core({lo}) && Coalesced(mem, blocks, {lo})
      ensures lo in blocks && mem[lo] == old(mem[lo]).(size := mem[lo].size) && End(mem, lo) == old(End(mem, hi))
      ensures UsedFrom(mem, blocks, n, 0) == old(UsedFrom(mem, blocks, n, 0))
      ensures LiveOf(mem, blocks) == old(LiveOf(mem, blocks))
      ensures var l, h := old(Block(lo, mem[lo].size)), old(Block(hi, mem[hi].size));
              && FreeOf(mem, blocks) - {Fused(l, h)} == old(FreeOf(mem, blocks)) - {l, h}
              && mem[lo].size == Fused(l, h).size
      ensures forall o | o in old(mem) :: o in mem && mem[o].free == old(mem)[o].free
    {
      ghost var mem0 := mem;
      MergedHeaders(mem, blocks, n, lo, hi);
      mem := mem[lo := mem[lo].(size := mem[lo].size + HDR + mem[hi].size, free := true)];
      var after := End(mem, lo);
      if after < n {
        mem := mem[after := mem[after].(prevPhys := lo)];
      }
      assert mem == Merged(mem0, n, lo, hi);
      MergeState(mem0, mem, blocks, n, blockList[..], bins, {lo, hi}, lo, hi);
      MergeViews(mem0, mem, blocks, n, lo, hi);
      MergeCoalesced(mem0, mem, blocks, n, lo, hi, z);
      blocks := blocks - {hi};
      assert {lo, hi} - {hi} == {lo};
    }

    /** First half of `tlsf_merge_block`: a free physical successor is absorbed. */
    method MergeRight(block: int)
      requires Core({block}) && Coalesced(mem, blocks, {block}) && block in blocks && mem[block].free
      modifies this`mem, this`flBitmap, this`bins, this`blocks, slBitmap, blockList
      ensures Core({block}) && Coalesced(mem, blocks, {block}) && block in blocks && mem[block].free
      ensures RightUsed(mem, n, block)
      ensures UsedFrom(mem, blocks, n, 0) == old(UsedFrom(mem, blocks, n, 0))
      ensures LiveOf(mem, blocks) == old(LiveOf(mem, blocks))
      ensures var blk := Block(block, mem[block].size);
              (blk, FreeOf(mem, blocks) - {blk}) ==
                old(JoinRight(FreeOf(mem, blocks) - {Block(block, mem[block].size)}, Block(block, mem[block].size)))
    {
      var next := End(mem, block);
      JoinRightIs(mem, blocks, n, block);
      assert BlockOk(mem, blocks, n, block);
      assert next in blocks ==> BlockOk(mem, blocks, n, next);
      if next < n && mem[next].free {
        RightOfRight(mem, blocks, n, block);
        Fuse(block, next, next, block);
      }
    }

    /** `other`, still on its free list, is taken off it and fused with its neighbour `block`, already in transit. */
    method Fuse(lo: int, hi: int, other: int, ghost block: int)
      requires (lo, hi) == (block, other) || (lo, hi) == (other, block)
      requires Core({block}) && block in blocks && other in blocks && End(mem, lo) == hi && block != other
      requires mem[block].free && mem[other].free && Coalesced(mem, blocks, {block})
      modifies this`mem, this`flBitmap, this`bins, this`blocks, slBitmap, blockList
      ensures blocks == old(blocks) - {hi} && Core({lo}) && Coalesced(mem, blocks, {lo})
      ensures lo in blocks && mem[lo].free && End(mem, lo) == old(End(mem, hi)) && mem[lo].prevPhys == old(mem[lo].prevPhys)
      ensures UsedFrom(mem, blocks, n, 0) == old(UsedFrom(mem, blocks, n, 0))
      ensures LiveOf(mem, blocks) == old(LiveOf(mem, blocks))
      ensures var l, h := old(Block(lo, mem[lo].size)), old(Block(hi, mem[hi].size));
              && FreeOf(mem, blocks) - {Fused(l, h)} == old(FreeOf(mem, blocks)) - {l, h}
              && mem[lo].size == Fused(l, h).size
      ensures forall o | o in old(mem) :: o in mem && mem[o].free == old(mem)[o].free
    {
      ghost var mem0 := mem;
      var m := Mapping(mem[other].size);
      ListRemove(other, m.0, m.1, {block});
      LinksOnly(mem0, mem, blocks, n, {block});
      assert {block} + {other} == {lo, hi};
      Absorb(lo, hi, block);
    }

    /** Behind a free successor of the block in transit comes a used block or the end. */
    static lemma RightOfRight(mem: Memory, blocks: set<int>, n: nat, b: int)
      requires Tiled(mem, blocks, n) && Coalesced(mem, blocks, {b}) && b in blocks
      requires End(mem, b) in blocks && mem[End(mem, b)].free
      ensures RightUsed(mem, n, End(mem, b))
    {
      var next := End(mem, b);
      assert BlockOk(mem, blocks, n, next);
    }

    static lemma LeftOfLeft(mem: Memory, blocks: set<int>, n: nat, b: int)
      requires Tiled(mem, blocks, n) && Coalesced(mem, blocks, {b}) && b in blocks && b != 0
      requires mem[b].prevPhys in blocks && mem[mem[b].prevPhys].free
      ensures LeftUsed(mem, mem[b].prevPhys)
    {
      var prev := mem[b].prevPhys;
      assert BlockOk(mem, blocks, n, prev) && BlockOk(mem, blocks, n, b);
      if prev != 0 {
        assert BlockOk(mem, blocks, n, mem[prev].prevPhys);
      }
    }

    /** Second half: a free physical predecessor absorbs the block. */
    method MergeLeft(block: int) returns (z: int)
      requires Core({block}) && Coalesced(mem, blocks, {block}) && block in blocks && mem[block].free
      requires RightUsed(mem, n, block)
      modifies this`mem, this`flBitmap, this`bins, this`blocks, slBitmap, blockList
      ensures Core({z}) && z in blocks && mem[z].free && Coalesced(mem, blocks, {z})
      ensures RightUsed(mem, n, z) && LeftUsed(mem, z)
      ensures UsedFrom(mem, blocks, n, 0) == old(UsedFrom(mem, blocks, n, 0))
      ensures LiveOf(mem, blocks) == old(LiveOf(mem, blocks))
      ensures var blk := Block(z, mem[z].size);
              (blk, FreeOf(mem, blocks) - {blk}) ==
                old(JoinLeft(FreeOf(mem, blocks) - {Block(block, mem[block].size)}, Block(block, mem[block].size)))
    {
      var prev := mem[block].prevPhys;
      JoinLeftIs(mem, blocks, n, block);
      assert BlockOk(mem, blocks, n, block);
      z := block;
      if prev != NULL && mem[prev].free {
        LeftOfLeft(mem, blocks, n, block);
        Fuse(prev, block, prev, block);
        z := prev;
      }
    }

    /** `tlsf_merge_block`: the block joins the free blocks it touches and the result is filed by its size. */
    method MergeBlock(block: int)
      requires Core({block}) && Coalesced(mem, blocks, {block}) && block in blocks && mem[block].free
      modifies this`mem, this`flBitmap, this`bins, this`blocks, slBitmap, blockList
      ensures Core({}) && Coalesced(mem, blocks, {})
      ensures UsedFrom(mem, blocks, n, 0) == old(UsedFrom(mem, blocks, n, 0))
      ensures LiveOf(mem, blocks) == old(LiveOf(mem, blocks))
      ensures FreeOf(mem, blocks) == old(JoinFree(FreeOf(mem, blocks) - {Block(block, mem[block].size)}, Block(block, mem[block].size)))
    {
      MergeRight(block);
      var z := MergeLeft(block);
      CoalescedAtLast(mem, blocks, n, z);
      ghost var mem0 := mem;
      var m := Mapping(mem[z].size);
      ListInsert(z, m.0, m.1, {z});
      assert {z} - {z} == {};
      LinksOnly(mem0, mem, blocks, n, {});
    }

    constructor (n: nat)
      requires 64 <= n <= 0x8000_0000 && n % ALIGN == 0
      ensures Valid() && this.n == n && fresh(slBitmap) && fresh(blockList)
      ensures Live() == {} && FreeBlocks() == {Block(0, n - HDR)}
    {
      this.n := n;
      mem, blocks, bins := map[], {}, [];
      flBitmap := ZERO;
      slBitmap := new Word[FL_COUNT](_ => ZERO);
      blockList := new int[BINS](_ => NULL);
      used, minFree, initialised := 0, 0, false;
    }

    /** Zeroed bitmaps and list heads, and one free block over the whole arena that is still on no list. */
    method ClearPool()
      requires Valid()
      modifies this, slBitmap, blockList
      ensures Core({0}) && blocks == {0} && mem[0].free && mem[0].size == n - HDR
      ensures Coalesced(mem, blocks, {}) && UsedFrom(mem, blocks, n, 0) == 0
      ensures LiveOf(mem, blocks) == {} && FreeOf(mem, blocks) == {Block(0, n - HDR)}
    {
      flBitmap := ZERO;
      forall i | 0 <= i < FL_COUNT { slBitmap[i] := ZERO; }
      forall b | 0 <= b < BINS { blockList[b] := NULL; }
      mem := map[0 := Header(n - HDR, true, MAGIC, NULL, NULL, NULL)];
      blocks, bins := {0}, seq(BINS, _ => []);
      FreshPool(n, slBitmap[..], blockList[..], bins);
    }

    /** `tlsf_init_pool`: one free block over the whole arena. */
    method InitPool()
      requires Valid()
      modifies this, slBitmap, blockList
      ensures Valid() && initialised && used == 0 && minFree == n
      ensures Live() == {} && FreeBlocks() == {Block(0, n - HDR)}
    {
      ClearPool();
      ghost var mem0 := mem;
      var m := Mapping(n - HDR);
      ListInsert(0, m.0, m.1, {0});
      assert {0} - {0} == {};
      LinksOnly(mem0, mem, blocks, n, {});
      used := 0;
      minFree := n;
      initialised := true;
    }

    /** `heap_update_min_free`. */
    method UpdateMinFree()
      requires used <= n
      modifies this`minFree
      ensures minFree == if n - used < old(minFree) then n - used else old(minFree)
    {
      if n - used < minFree {
        minFree := n - used;
      }
    }

    /** The bins below the one of `size` hold only smaller blocks: a search that fails has missed nothing. */
    lemma NothingMissed(size: uint32)
      requires Core({}) && Passed(Bin(size), BINS, size)
      ensures forall f | f in FreeOf(mem, blocks) :: f.size < size
    {
      forall f | f in FreeOf(mem, blocks)
        ensures f.size < size
      {
        var b := Bin(mem[f.off].size);
        assert f.off in bins[b];
        if b < Bin(size) {
          LaterBinFits(mem[f.off].size, size);
        } else {
          assert NoFit(mem, bins[b], size);
        }
      }
    }

    /** What the search finds is a free block. */
    lemma FoundFree(size: uint32, r: int)
      requires Core({}) && FirstFit(mem, bins, Bin(size), size, r)
      ensures r in blocks && mem[r].free && Block(r, mem[r].size) in FreeOf(mem, blocks)
    {
      var b :| Bin(size) <= b < |bins| && FirstIn(mem, bins[b], size, r);
      assert OfBin(mem, blocks, {}, b, bins[b]);
    }

    /** The search, as a question about the free blocks. */
    method Search(req: uint32) returns (block: int)
      requires Valid() && initialised
      ensures block == NULL <==> NoneFits(FreeBlocks(), req)
      ensures block != NULL ==>
        && block in blocks && mem[block].free && mem[block].size >= req && Block(block, mem[block].size) in FreeBlocks()
        && FirstFit(mem, bins, Bin(req), req, block)
    {
      CoreSearchable();
      block := FindSuitable(req);
      if block == NULL {
        NothingMissed(req);
      } else {
        FoundFree(req, block);
      }
    }

    /** Payloads of free blocks are multiples of 8, and 32 at least. */
    lemma FreeSizes()
      requires Valid()
      ensures forall f | f in FreeBlocks() :: f.size % ALIGN == 0 && f.size >= MIN_BLOCK
    {
      if initialised {
        forall f | f in FreeOf(mem, blocks)
          ensures f.size % ALIGN == 0 && f.size >= MIN_BLOCK
        {
          assert BlockOk(mem, blocks, n, f.off);
        }
      }
    }

    /** `cgrtos_malloc`. */
    method Malloc(size: nat) returns (ptr: int)
      requires Valid()
      modifies this, slBitmap, blockList
      ensures Valid()
      ensures ptr == NULL <==> size == 0 || NoneFits(old(FreeBlocks()), Request(size))
      ensures ptr == NULL ==> Live() == old(Live()) && FreeBlocks() == old(FreeBlocks()) && used == old(used)
      ensures ptr != NULL ==> Granted(old(Live()), old(FreeBlocks()), Live(), FreeBlocks(), Request(size), ptr - HDR)
      ensures ptr != NULL && old(initialised) ==> FirstFit(old(mem), old(bins), Bin(Request(size)), Request(size), ptr - HDR)
      ensures ptr != NULL ==> ptr - HDR in mem && used == old(used) + HDR + mem[ptr - HDR].size
      ensures 0 < size < 0x1_0000_0000 - 7 ==> (ptr == NULL <==> forall f | f in old(FreeBlocks()) :: f.size < size)
      ensures ptr != NULL && 0 < size < 0x1_0000_0000 - 7 ==>
        size <= mem[ptr - HDR].size < (if size <= 32 then 32 else (size + 7) / 8 * 8) + HDR + MIN_BLOCK
      ensures initialised && minFree == var m := if old(initialised) then old(minFree) else n; if n - used < m then n - used else m
    {
      FreeSizes();
      ghost var free := FreeBlocks();
      var req := Request(size);
      ptr := Serve(size == 0, req);
      AsAsked(free, size, if ptr == NULL then req else mem[ptr - HDR].size);
    }

    /** `cgrtos_malloc`, with the bytes to look for given; an empty request still sets up the pool. */
    method Serve(nothing: bool, req: uint32) returns (ptr: int)
      requires Valid() && req % ALIGN == 0 && req >= MIN_BLOCK
      modifies this, slBitmap, blockList
      ensures Valid()
      ensures ptr == NULL <==> nothing || NoneFits(old(FreeBlocks()), req)
      ensures ptr == NULL ==> Live() == old(Live()) && FreeBlocks() == old(FreeBlocks()) && used == old(used)
      ensures ptr != NULL ==> Granted(old(Live()), old(FreeBlocks()), Live(), FreeBlocks(), req, ptr - HDR)
      ensures ptr != NULL && old(initialised) ==> FirstFit(old(mem), old(bins), Bin(req), req, ptr - HDR)
      ensures ptr != NULL ==> ptr - HDR in mem && used == old(used) + HDR + mem[ptr - HDR].size
      ensures ptr != NULL ==> req <= mem[ptr - HDR].size < req + HDR + MIN_BLOCK
      ensures initialised && minFree == var m := if old(initialised) then old(minFree) else n; if n - used < m then n - used else m
    {
      Prepare();
      if nothing {
        return NULL;
      }
      ptr := Allocate(req);
    }

    /** The first call sets up the pool. */
    method Prepare()
      requires Valid()
      modifies this, slBitmap, blockList
      ensures Valid() && initialised && used == old(used)
      ensures Live() == old(Live()) && FreeBlocks() == old(FreeBlocks())
      ensures minFree == if old(initialised) then old(minFree) else n
      ensures old(initialised) ==> mem == old(mem) && bins == old(bins)
    {
      if !initialised {
        InitPool();
      }
    }

    /** The rest of `cgrtos_malloc`, for `req` bytes. */
    method Allocate(req: uint32) returns (ptr: int)
      requires Valid() && initialised && req % ALIGN == 0 && req >= MIN_BLOCK
      modifies this, slBitmap, blockList
      ensures Valid() && initialised
      ensures ptr == NULL <==> NoneFits(old(FreeBlocks()), req)
      ensures ptr == NULL ==> Live() == old(Live()) && FreeBlocks() == old(FreeBlocks()) && used == old(used) && minFree == old(minFree)
      ensures ptr != NULL ==> Granted(old(Live()), old(FreeBlocks()), Live(), FreeBlocks(), req, ptr - HDR)
      ensures ptr != NULL ==> FirstFit(old(mem), old(bins), Bin(req), req, ptr - HDR)
      ensures ptr != NULL ==> ptr - HDR in mem && used == old(used) + HDR + mem[ptr - HDR].size
      ensures ptr != NULL ==> req <= mem[ptr - HDR].size < req + HDR + MIN_BLOCK
      ensures ptr != NULL ==> minFree == if n - used < old(minFree) then n - used else old(minFree)
    {
      var block := Search(req);
      if block == NULL {
        return NULL;
      }
      Grant(block, req);
      ptr := block + HDR;
    }

    /** Taking a free block, as the caller sees it. */
    method Grant(block: int, req: uint32)
      requires Valid() && initialised && block in blocks && mem[block].free && Block(block, mem[block].size) in FreeBlocks()
      requires MIN_BLOCK <= req <= mem[block].size && req % ALIGN == 0
      modifies this, slBitmap, blockList
      ensures Valid() && initialised && block >= 0
      ensures Granted(old(Live()), old(FreeBlocks()), Live(), FreeBlocks(), req, block)
      ensures block in mem && used == old(used) + HDR + mem[block].size && req <= mem[block].size < req + HDR + MIN_BLOCK
      ensures minFree == if n - used < old(minFree) then n - used else old(minFree)
    {
      ghost var b, live, free := Block(block, mem[block].size), Live(), FreeBlocks();
      assert BlockOk(mem, blocks, n, block);
      Take(block, req);
      GrantedBy(live, free, Live(), FreeBlocks(), req, b);
    }

    /** Free block `block` is cut to `req` bytes and handed to the caller. */
    method Take(block: int, req: uint32)
      requires Valid() && initialised && block in blocks && mem[block].free
      requires MIN_BLOCK <= req <= mem[block].size && req % ALIGN == 0
      modifies this, slBitmap, blockList
      ensures Valid() && initialised && block in mem
      ensures var b := old(Block(block, mem[block].size));
              && Live() == old(Live()) + {Block(block, if b.size < req + HDR + MIN_BLOCK then b.size else req)}
              && FreeBlocks() == CutFree(old(FreeBlocks()), b, req)
      ensures used == old(used) + HDR + mem[block].size && req <= mem[block].size < req + HDR + MIN_BLOCK
      ensures minFree == if n - used < old(minFree) then n - used else old(minFree)
    {
      Detach(block);
      SplitBlock(block, req);
      HandOver(block);
    }

    /** A free block leaves its list. */
    method Detach(block: int)
      requires Core({}) && Coalesced(mem, blocks, {}) && block in blocks && mem[block].free
      modifies this`mem, this`flBitmap, this`bins, slBitmap, blockList
      ensures Core({block}) && Coalesced(mem, blocks, {})
      ensures block in mem && mem[block].free && mem[block].size == old(mem[block].size)
      ensures UsedFrom(mem, blocks, n, 0) == old(UsedFrom(mem, blocks, n, 0))
      ensures LiveOf(mem, blocks) == old(LiveOf(mem, blocks)) && FreeOf(mem, blocks) == old(FreeOf(mem, blocks))
    {
      ghost var mem0 := mem;
      var m := Mapping(mem[block].size);
      ListRemove(block, m.0, m.1, {});
      LinksOnly(mem0, mem, blocks, n, {});
      assert {} + {block} == {block};
    }

    /** The detached block is marked used and counted. */
    method HandOver(block: int)
      requires initialised && Core({block}) && Coalesced(mem, blocks, {block}) && block in blocks && mem[block].free
      requires used == UsedFrom(mem, blocks, n, 0) && minFree <= n - used <= n
      modifies this`mem, this`used, this`minFree
      ensures Valid() && block in mem && mem[block].size == old(mem[block].size)
      ensures Live() == old(LiveOf(mem, blocks) + {Block(block, mem[block].size)})
      ensures FreeBlocks() == old(FreeOf(mem, blocks) - {Block(block, mem[block].size)})
      ensures used == old(used) + HDR + mem[block].size
      ensures minFree == if n - used < old(minFree) then n - used else old(minFree)
    {
      HandOut(mem, blocks, n, blockList[..], bins, block);
      HandOutCoalesced(mem, blocks, n, block);
      UsedAtMost(mem, blocks, n, 0);
      mem := HandedOut(mem, block);
      UsedAtMost(mem, blocks, n, 0);
      used := used + HDR + mem[block].size;
      UpdateMinFree();
    }

    /** What a caller may pass to Free: NULL, or a pointer behind a header that is still intact. */
    ghost predicate Freeable(ptr: int)
      reads this
    {
      ptr == NULL || !initialised || ptr - HDR in mem
    }

    /** `cgrtos_free`.  Freeing twice, or freeing NULL, changes nothing. */
    method Free(ptr: int)
      requires Valid() && Freeable(ptr)
      modifies this, slBitmap, blockList
      ensures Valid() && initialised == old(initialised) && minFree == old(minFree)
      ensures forall b | b in old(Live()) && b.off == ptr - HDR ::
                && Live() == old(Live()) - {b}
                && FreeBlocks() == JoinFree(old(FreeBlocks()), b)
                && used == old(used) - (HDR + b.size)
      ensures (forall b | b in old(Live()) :: b.off != ptr - HDR) ==>
                unchanged(this) && unchanged(slBitmap) && unchanged(blockList)
    {
      assert initialised && ptr - HDR in blocks ==> BlockOk(mem, blocks, n, ptr - HDR);
      if ptr == NULL || !initialised {
        return;
      }
      var block := ptr - HDR;
      if mem[block].magic != MAGIC || mem[block].free {
        return;
      }
      GiveBack(block);
    }

    /** The used block `block` becomes free and joins its free neighbours. */
    method GiveBack(block: int)
      requires Valid() && initialised && block in mem && !mem[block].free
      modifies this, slBitmap, blockList
      ensures Valid() && initialised && minFree == old(minFree)
      ensures var b := old(Block(block, mem[block].size));
              && b in old(Live())
              && Live() == old(Live()) - {b}
              && FreeBlocks() == JoinFree(old(FreeBlocks()), b)
              && used == old(used) - (HDR + b.size)
    {
      ghost var b, live, free := Block(block, mem[block].size), Live(), FreeBlocks();
      MarkFree(block);
      assert LiveOf(mem, blocks) == live - {b} && FreeOf(mem, blocks) - {b} == free;
      Settle(block);
    }

    /** A block marked free joins its neighbours and is filed. */
    method Settle(block: int)
      requires initialised && Core({block}) && Coalesced(mem, blocks, {block}) && block in blocks && mem[block].free
      requires used == UsedFrom(mem, blocks, n, 0) && minFree <= n - used <= n
      modifies this`mem, this`flBitmap, this`bins, this`blocks, this`minFree, slBitmap, blockList
      ensures Valid() && minFree == old(minFree)
      ensures var b := old(Block(block, mem[block].size));
              && Live() == old(LiveOf(mem, blocks))
              && FreeBlocks() == JoinFree(old(FreeOf(mem, blocks)) - {b}, b)
    {
      MergeBlock(block);
      UpdateMinFree();
    }

    /** The block's header says free, and its bytes no longer count as used; it is on no list yet. */
    method MarkFree(block: int)
      requires Valid() && initialised && block in mem && !mem[block].free
      modifies this`mem, this`used
      ensures Core({block}) && Coalesced(mem, blocks, {block}) && block in blocks && mem[block].free
      ensures mem[block].size == old(mem[block].size) && used == UsedFrom(mem, blocks, n, 0)
      ensures var b := old(Block(block, mem[block].size));
              && b in old(Live())
              && LiveOf(mem, blocks) == old(Live()) - {b}
              && FreeOf(mem, blocks) - {b} == old(FreeBlocks())
              && used == old(used) - (HDR + b.size)
    {
      var mem1 := mem[block := mem[block].(free := true, prevFree := NULL)];
      TakeBack(mem, mem1, blocks, n, blockList[..], bins, block);
      TakeBackCoalesced(mem, mem1, blocks, block);
      used := used - (HDR + mem[block].size);
      mem := mem1;
    }
  }

  // ---- what a valid heap guarantees ----

  /** All live blocks together account for the used bytes, so freeing them all gives every byte back. */
  lemma {:induction false} NothingLive(mem: Memory, blocks: set<int>, n: nat, o: int)
    requires Tiled(mem, blocks, n) && (o == n || o in blocks)
    ensures UsedFrom(mem, blocks, n, o) == 0 <==> forall p | p in blocks && p >= o :: mem[p].free
    decreases n - o
  {
    if o == n {
      forall p | p in blocks
        ensures p < n
      {
        assert BlockOk(mem, blocks, n, p);
      }
    } else {
      assert BlockOk(mem, blocks, n, o);
      NothingLive(mem, blocks, n, End(mem, o));
    }
  }

  lemma LiveMember(mem: Memory, blocks: set<int>, o: int)
    requires (forall p | p in blocks :: p in mem) && o in blocks
    ensures mem[o].free || Block(o, mem[o].size) in LiveOf(mem, blocks)
  {
  }

  /** With no live block left, the heap is back to the single free block it started as. */
  lemma AllFreedIsInitial(h: Heap)
    requires h.Valid() && h.Live() == {}
    ensures h.FreeBlocks() == {Block(0, h.n - HDR)} && h.used == 0
  {
    if h.initialised {
      forall o | o in h.blocks
        ensures h.mem[o].free
      {
        LiveMember(h.mem, h.blocks, o);
      }
      NothingLive(h.mem, h.blocks, h.n, 0);
      assert BlockOk(h.mem, h.blocks, h.n, 0);
      forall o | o in h.blocks
        ensures o == 0
      {
        assert BlockOk(h.mem, h.blocks, h.n, o);
      }
    }
  }

  /** Two live allocations never overlap, and each lies inside the arena on an 8-byte boundary. */
  lemma LiveDisjoint(h: Heap, a: Block, b: Block)
    requires h.Valid() && a in h.Live() && b in h.Live() && a != b
    ensures 0 <= a.off && (a.off + HDR) % ALIGN == 0 && a.off + HDR + a.size <= h.n
    ensures a.off + HDR + a.size <= b.off || b.off + HDR + b.size <= a.off
  {
    assert BlockOk(h.mem, h.blocks, h.n, a.off);
  }

  /** Every byte of the arena belongs to exactly one block, used or free. */
  lemma {:induction false} EveryByteOwned(mem: Memory, blocks: set<int>, n: nat, o: int, at: int) returns (b: int)
    requires Tiled(mem, blocks, n) && o in blocks && o <= at < n
    ensures b in blocks && b <= at < End(mem, b)
    ensures forall c | c in blocks && c <= at < End(mem, c) :: c == b
    decreases n - o
  {
    assert BlockOk(mem, blocks, n, o);
    if at < End(mem, o) {
      b := o;
    } else {
      b := EveryByteOwned(mem, blocks, n, End(mem, o), at);
    }
  }

  lemma FreeApart(mem: Memory, blocks: set<int>, n: nat, b: Block, f: Block)
    requires Tiled(mem, blocks, n) && Coalesced(mem, blocks, {}) && b in FreeOf(mem, blocks) && f in FreeOf(mem, blocks)
    ensures !Touches(b, f)
    ensures f.off <= b.off || b.off + HDR + b.size <= f.off
  {
    assert End(mem, b.off) == b.off + HDR + b.size;
  }

  /** Freeing what was just allocated restores the free blocks exactly, whether or not the block was cut. */
  lemma FreeUndoesCut(mem: Memory, blocks: set<int>, n: nat, b: Block, req: nat)
    requires Tiled(mem, blocks, n) && Coalesced(mem, blocks, {}) && b in FreeOf(mem, blocks)
    requires MIN_BLOCK <= req <= b.size
    ensures var free := FreeOf(mem, blocks);
            var taken := Block(b.off, if b.size < req + HDR + MIN_BLOCK then b.size else req);
            JoinFree(CutFree(free, b, req), taken) == free
  {
    var free := FreeOf(mem, blocks);
    var taken := Block(b.off, if b.size < req + HDR + MIN_BLOCK then b.size else req);
    var cut := CutFree(free, b, req);
    assert BlockOk(mem, blocks, n, b.off);
    forall f | f in free
      ensures !Touches(f, b) && !Touches(b, f)
      ensures f.off <= b.off || b.off + HDR + b.size <= f.off
    {
      FreeApart(mem, blocks, n, b, f);
      FreeApart(mem, blocks, n, f, b);
    }
    var (g, rest) := JoinRight(cut, taken);
    if taken != b {
      var r := Block(b.off + HDR + req, b.size - req - HDR);
      assert r in cut && Touches(taken, r);
      assert forall f | f in cut && Touches(taken, f) :: f == r;
    }
    assert g == b;
    assert rest == free - {b};
    assert JoinLeft(rest, g) == (b, free - {b});
  }

  /** The payload asked for is delivered exactly for requests below 2^32 - 7: beyond, the 32-bit rounding wraps. */
  lemma RequestCovers(size: nat, payload: nat)
    requires Request(size) <= payload < 0x8000_0000
    ensures payload >= size <==> size < 0x1_0000_0000 - 7
  {
  }

  /** A request of 2^32 - 1 bytes is served with a 32-byte block. */
  lemma WrappedRequest()
    ensures Request(0xFFFF_FFFF) == 32
  {
  }

  /** Block `off` has gone from the free blocks to the live ones, cut to `req` bytes if it was much larger. */
  ghost predicate Granted(live: set<Block>, free: set<Block>, live': set<Block>, free': set<Block>, req: nat, off: int) {
    exists b: Block :: b.off == off && CutFrom(live, free, live', free', req, b)
  }

  ghost predicate CutFrom(live: set<Block>, free: set<Block>, live': set<Block>, free': set<Block>, req: nat, b: Block) {
    && b in free && b.size >= req
    && live' == live + {Block(b.off, if b.size < req + HDR + MIN_BLOCK then b.size else req)}
    && free' == CutFree(free, b, req)
  }

  lemma GrantedBy(live: set<Block>, free: set<Block>, live': set<Block>, free': set<Block>, req: nat, b: Block)
    requires b in free && b.size >= req
    requires live' == live + {Block(b.off, if b.size < req + HDR + MIN_BLOCK then b.size else req)}
    requires free' == CutFree(free, b, req)
    ensures Granted(live, free, live', free', req, b.off)
  {
    assert CutFrom(live, free, live', free', req, b);
  }
}
