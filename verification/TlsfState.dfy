/**
 * The heap of kernel/mem.c as a value: block headers in an arena, the segregated free
 * lists threaded through them, and the two bitmap levels.  `blocks` is the ghost set of
 * header offsets that currently tile the arena, `bins` the ghost content of the free lists.
 */
module TlsfState {
  import opened Bits
  import opened TlsfMapping

  /** `sizeof(tlsf_block_t)` with 64-bit pointers. */
  const HDR: nat := 32
  const MAGIC: uint32 := 0xC0DECAFE
  const NULL: int := -1

  /** `tlsf_block_t`, with the FREE flag of the `size` word kept beside the payload size. */
  datatype Header = Header(size: uint32, free: bool, magic: uint32, prevPhys: int, nextFree: int, prevFree: int)

  /** The headers known to be in the arena, by offset. */
  type Memory = map<int, Header>

  /** Offset just past the block whose header is at `o`. */
  function End(mem: Memory, o: int): int
    requires o in mem
  {
    o + HDR + mem[o].size
  }

  /** The blocks cover the arena from 0 to n, one after the other, each knowing its predecessor. */
  ghost predicate Tiled(mem: Memory, blocks: set<int>, n: nat) {
    && 0 in blocks
    && (forall o | o in blocks :: o in mem)
    && (forall o {:trigger BlockOk(mem, blocks, n, o)} | o in blocks :: BlockOk(mem, blocks, n, o))
    && (forall o, p | o in blocks && p in blocks && o < p :: End(mem, o) <= p)
  }

  ghost predicate BlockOk(mem: Memory, blocks: set<int>, n: nat, o: int)
    requires o in mem
  {
    && 0 <= o && o % ALIGN == 0
    && mem[o].size >= MIN_BLOCK && mem[o].size % ALIGN == 0
    && mem[o].magic == MAGIC
    && (End(mem, o) == n || (End(mem, o) < n && End(mem, o) in blocks))
    && (if o == 0 then mem[o].prevPhys == NULL
        else mem[o].prevPhys in blocks && mem[o].prevPhys in mem && End(mem, mem[o].prevPhys) == o)
  }

  ghost predicate NoDup(list: seq<int>) {
    forall i, j | 0 <= i < j < |list| :: list[i] != list[j]
  }

  /** The header at position `k` of a free list points at its list neighbours. */
  ghost predicate LinkAt(mem: Memory, list: seq<int>, k: nat)
    requires k < |list|
  {
    && list[k] in mem
    && mem[list[k]].nextFree == (if k + 1 < |list| then list[k + 1] else NULL)
    && mem[list[k]].prevFree == (if k > 0 then list[k - 1] else NULL)
  }

  /** `list` is the doubly linked free list that starts at `head`. */
  ghost predicate Linked(mem: Memory, head: int, list: seq<int>) {
    && head == (if list == [] then NULL else list[0])
    && NoDup(list)
    && forall k: nat | k < |list| :: LinkAt(mem, list, k)
  }

  ghost predicate AllLinked(mem: Memory, heads: seq<int>, bins: seq<seq<int>>) {
    && |heads| == |bins| == BINS
    && forall b | 0 <= b < BINS :: Linked(mem, heads[b], bins[b])
  }

  /** A block is on a free list iff it is free, on the list of its size, and only there; blocks in `transit` are on none. */
  ghost predicate Filed(mem: Memory, blocks: set<int>, bins: seq<seq<int>>, transit: set<int>) {
    && |bins| == BINS
    && (forall o | o in blocks :: o in mem)
    && (forall b: nat | b < BINS :: OfBin(mem, blocks, transit, b, bins[b]))
    && (forall o | o in blocks && mem[o].free && o !in transit :: o in bins[Bin(mem[o].size)])
  }

  /** Everything on the list of bin `b` is a free block whose size belongs there. */
  ghost predicate OfBin(mem: Memory, blocks: set<int>, transit: set<int>, b: nat, list: seq<int>) {
    forall o | o in list :: o in blocks && o in mem && mem[o].free && o !in transit && Bin(mem[o].size) == b
  }

  /** Each second-level bit is set iff its list is non-empty, each first-level bit iff its row has one. */
  ghost predicate Mapped(fl: Word, sl: seq<Word>, heads: seq<int>) {
    && |sl| == FL_COUNT && |heads| == BINS
    && (forall i, j | 0 <= i < FL_COUNT && 0 <= j < SL_COUNT :: sl[i][j] <==> heads[i * SL_COUNT + j] != NULL)
    && (forall i | 0 <= i < FL_COUNT :: fl[i] <==> NonZero(sl[i]))
  }

  /** No two free blocks touch, unless one of them is in `transit`. */
  ghost predicate Coalesced(mem: Memory, blocks: set<int>, transit: set<int>) {
    forall o, p | o in blocks && p in blocks && o in mem && p in mem && o !in transit && p !in transit && End(mem, o) == p ::
      !(mem[o].free && mem[p].free)
  }

  /** Headers left behind by merged blocks are still marked free, so a second free of them is caught. */
  ghost predicate StaleFree(mem: Memory, blocks: set<int>) {
    forall o | o in mem && o !in blocks :: mem[o].free
  }

  /** Sum of header and payload over the used blocks from offset `o` on. */
  ghost function UsedFrom(mem: Memory, blocks: set<int>, n: nat, o: int): nat
    requires Tiled(mem, blocks, n)
    requires o == n || o in blocks
    decreases n - o
  {
    if o == n then 0
    else assert BlockOk(mem, blocks, n, o); (if mem[o].free then 0 else HDR + mem[o].size) + UsedFrom(mem, blocks, n, End(mem, o))
  }

  /** Unlinking a block: the pointer writes of `tlsf_list_remove`. */
  function Unlinked(mem: Memory, x: int): Memory
    requires x in mem
    requires mem[x].prevFree != NULL ==> mem[x].prevFree in mem
    requires mem[x].nextFree != NULL ==> mem[x].nextFree in mem
  {
    var h := mem[x];
    var m1 := if h.prevFree != NULL then mem[h.prevFree := mem[h.prevFree].(nextFree := h.nextFree)] else mem;
    var m2 := if h.nextFree != NULL then m1[h.nextFree := m1[h.nextFree].(prevFree := h.prevFree)] else m1;
    m2[x := m2[x].(nextFree := NULL, prevFree := NULL)]
  }

  /** Pushing a block on a list: the pointer writes of `tlsf_list_insert`. */
  function Pushed(mem: Memory, head: int, x: int): Memory
    requires x in mem
    requires head != NULL ==> head in mem
  {
    var m1 := mem[x := mem[x].(nextFree := head, prevFree := NULL)];
    if head != NULL then m1[head := m1[head].(prevFree := x)] else m1
  }

  /** The two memories differ in free-list links only. */
  ghost predicate SameBlocks(mem: Memory, mem': Memory) {
    && mem.Keys == mem'.Keys
    && forall o | o in mem :: o in mem' && mem'[o] == mem[o].(nextFree := mem'[o].nextFree, prevFree := mem'[o].prevFree)
  }

  /** The links of the block at position `k` are its list neighbours. */
  lemma Neighbours(mem: Memory, head: int, list: seq<int>, k: nat)
    requires Linked(mem, head, list) && k < |list| && NULL !in mem
    ensures LinkAt(mem, list, k)
    ensures mem[list[k]].prevFree != NULL ==> mem[list[k]].prevFree in mem
    ensures mem[list[k]].nextFree != NULL ==> mem[list[k]].nextFree in mem
    ensures k == 0 <==> head == list[k]
    ensures k == 0 <==> mem[list[k]].prevFree == NULL
  {
    assert LinkAt(mem, list, k);
    if k > 0 { assert LinkAt(mem, list, k - 1); }
    if k + 1 < |list| { assert LinkAt(mem, list, k + 1); }
  }

  lemma EmptyIffNull(mem: Memory, head: int, list: seq<int>)
    requires Linked(mem, head, list) && NULL !in mem
    ensures head == NULL <==> list == []
  {
    if list != [] { assert LinkAt(mem, list, 0); }
  }

  lemma UnlinkedLinks(mem: Memory, head: int, list: seq<int>, k: nat)
    requires Linked(mem, head, list) && k < |list| && NULL !in mem && list[k] in mem
    requires mem[list[k]].prevFree != NULL ==> mem[list[k]].prevFree in mem
    requires mem[list[k]].nextFree != NULL ==> mem[list[k]].nextFree in mem
    ensures var x := list[k];
            var list' := list[..k] + list[k + 1..];
            var mem' := Unlinked(mem, x);
            && SameBlocks(mem, mem')
            && Linked(mem', if k == 0 then mem[x].nextFree else head, list')
            && (forall o | o in mem && o !in list :: mem'[o] == mem[o])
  {
    var x := list[k];
    var list' := list[..k] + list[k + 1..];
    var mem' := Unlinked(mem, x);
    Neighbours(mem, head, list, k);
    forall i: nat | i < |list'|
      ensures LinkAt(mem', list', i)
    {
      var j := if i < k then i else i + 1;
      assert list'[i] == list[j];
      assert LinkAt(mem, list, j);
      assert i + 1 < |list'| ==> list'[i + 1] == list[if i + 1 < k then i + 1 else i + 2];
      assert i > 0 ==> list'[i - 1] == list[if i - 1 < k then i - 1 else i];
    }
    assert k > 0 ==> list'[0] == list[0];
  }

  lemma PushedLinks(mem: Memory, head: int, list: seq<int>, x: int)
    requires Linked(mem, head, list) && x in mem && x !in list && NULL !in mem
    requires head != NULL ==> head in mem
    ensures var mem' := Pushed(mem, head, x);
            && SameBlocks(mem, mem')
            && Linked(mem', x, [x] + list)
            && (forall o | o in mem && o !in list && o != x :: mem'[o] == mem[o])
  {
    var list' := [x] + list;
    var mem' := Pushed(mem, head, x);
    forall i: nat | i < |list'|
      ensures LinkAt(mem', list', i)
    {
      if i > 0 {
        assert list'[i] == list[i - 1];
        assert LinkAt(mem, list, i - 1);
        assert i + 1 < |list'| ==> list'[i + 1] == list[i];
      }
    }
  }

  // ---- the whole table of free lists ----

  /** The two memories give the blocks the same sizes, flags and predecessors. */
  ghost predicate Agree(mem: Memory, mem': Memory, blocks: set<int>) {
    forall o | o in blocks :: o in mem && o in mem' &&
      mem'[o] == mem[o].(nextFree := mem'[o].nextFree, prevFree := mem'[o].prevFree)
  }

  /** Free-list links do not matter to the tiling, nor to which free blocks touch. */
  lemma AgreeKeeps(mem: Memory, mem': Memory, blocks: set<int>, n: nat)
    requires Agree(mem, mem', blocks) && Tiled(mem, blocks, n)
    ensures Tiled(mem', blocks, n)
  {
    forall o | o in blocks
      ensures o in mem' && BlockOk(mem', blocks, n, o)
    {
      assert BlockOk(mem, blocks, n, o);
      assert End(mem', o) == End(mem, o);
    }
    forall o, p | o in blocks && p in blocks && o < p
      ensures End(mem', o) <= p
    {
      assert End(mem', o) == End(mem, o);
    }
  }

  lemma AgreeCoalesced(mem: Memory, mem': Memory, blocks: set<int>, transit: set<int>)
    requires Agree(mem, mem', blocks) && Coalesced(mem, blocks, transit)
    ensures Coalesced(mem', blocks, transit)
  {
    forall o, p | o in blocks && p in blocks && o in mem' && p in mem' && o !in transit && p !in transit && End(mem', o) == p
      ensures !(mem'[o].free && mem'[p].free)
    {
      assert End(mem, o) == p;
    }
  }

  /** Free lists are pairwise disjoint. */
  lemma BinsDisjoint(mem: Memory, blocks: set<int>, bins: seq<seq<int>>, transit: set<int>, b: nat, c: nat, o: int)
    requires Filed(mem, blocks, bins, transit) && b < BINS && c < BINS && o in bins[b] && o in bins[c]
    ensures b == c
  {
    assert OfBin(mem, blocks, transit, b, bins[b]) && OfBin(mem, blocks, transit, c, bins[c]);
  }

  /** What `tlsf_list_remove` leaves behind, over all lists: block `bins[b][k]` is now in transit. */
  lemma RemovedFromTable(mem: Memory, mem': Memory, blocks: set<int>, heads: seq<int>, bins: seq<seq<int>>, transit: set<int>, b: nat, k: nat)
    requires AllLinked(mem, heads, bins) && Filed(mem, blocks, bins, transit) && NULL !in mem
    requires b < BINS && k < |bins[b]| && bins[b][k] in mem
    requires mem[bins[b][k]].prevFree != NULL ==> mem[bins[b][k]].prevFree in mem
    requires mem[bins[b][k]].nextFree != NULL ==> mem[bins[b][k]].nextFree in mem
    requires mem' == Unlinked(mem, bins[b][k])
    ensures var x := bins[b][k];
            var heads' := if k == 0 then heads[b := mem[x].nextFree] else heads;
            var bins' := bins[b := bins[b][..k] + bins[b][k + 1..]];
            && SameBlocks(mem, mem')
            && AllLinked(mem', heads', bins')
            && Filed(mem', blocks, bins', transit + {x})
  {
    var x := bins[b][k];
    var list' := bins[b][..k] + bins[b][k + 1..];
    var heads' := if k == 0 then heads[b := mem[x].nextFree] else heads;
    var bins' := bins[b := list'];
    UnlinkedLinks(mem, heads[b], bins[b], k);
    forall c | 0 <= c < BINS
      ensures Linked(mem', heads'[c], bins'[c])
    {
      if c != b { OtherListKept(mem, mem', blocks, heads, bins, transit, b, c); }
    }
    forall o | o in bins[b] && o != x
      ensures o in list'
    {
      var j :| 0 <= j < |bins[b]| && bins[b][j] == o;
      assert o == list'[if j < k then j else j - 1];
    }
    assert forall o | o in list' :: o in bins[b] && o != x;
    forall c: nat | c < BINS
      ensures OfBin(mem', blocks, transit + {x}, c, bins'[c])
    {
      assert OfBin(mem, blocks, transit, c, bins[c]);
      if c != b && x in bins[c] { BinsDisjoint(mem, blocks, bins, transit, b, c, x); }
    }
  }

  /** Relinking inside list `b` leaves every other list linked. */
  lemma OtherListKept(mem: Memory, mem': Memory, blocks: set<int>, heads: seq<int>, bins: seq<seq<int>>, transit: set<int>, b: nat, c: nat)
    requires AllLinked(mem, heads, bins) && Filed(mem, blocks, bins, transit)
    requires b < BINS && c < BINS && b != c
    requires forall o | o in mem && o !in bins[b] :: o in mem' && mem'[o] == mem[o]
    ensures Linked(mem', heads[c], bins[c])
  {
    forall i: nat | i < |bins[c]|
      ensures LinkAt(mem', bins[c], i)
    {
      assert LinkAt(mem, bins[c], i);
      assert bins[c][i] in bins[c] && OfBin(mem, blocks, transit, c, bins[c]);
      if bins[c][i] in bins[b] { BinsDisjoint(mem, blocks, bins, transit, b, c, bins[c][i]); }
    }
  }

  /** What `tlsf_list_insert` leaves behind, over all lists: block `x` is no longer in transit. */
  lemma InsertedInTable(mem: Memory, mem': Memory, blocks: set<int>, heads: seq<int>, bins: seq<seq<int>>, transit: set<int>, x: int)
    requires AllLinked(mem, heads, bins) && Filed(mem, blocks, bins, transit) && NULL !in mem
    requires x in transit && x in blocks && mem[x].free
    requires var h := heads[Bin(mem[x].size)]; h != NULL ==> h in mem
    requires mem' == Pushed(mem, heads[Bin(mem[x].size)], x)
    ensures var b := Bin(mem[x].size);
            && SameBlocks(mem, mem')
            && AllLinked(mem', heads[b := x], bins[b := [x] + bins[b]])
            && Filed(mem', blocks, bins[b := [x] + bins[b]], transit - {x})
  {
    var b := Bin(mem[x].size);
    var bins' := bins[b := [x] + bins[b]];
    assert OfBin(mem, blocks, transit, b, bins[b]);
    PushedLinks(mem, heads[b], bins[b], x);
    forall c | 0 <= c < BINS
      ensures Linked(mem', heads[b := x][c], bins'[c])
    {
      if c != b { OtherListKeptPush(mem, mem', blocks, heads, bins, transit, b, c, x); }
    }
    forall c: nat | c < BINS
      ensures OfBin(mem', blocks, transit - {x}, c, bins'[c])
    {
      assert OfBin(mem, blocks, transit, c, bins[c]);
    }
  }

  lemma OtherListKeptPush(mem: Memory, mem': Memory, blocks: set<int>, heads: seq<int>, bins: seq<seq<int>>, transit: set<int>, b: nat, c: nat, x: int)
    requires AllLinked(mem, heads, bins) && Filed(mem, blocks, bins, transit)
    requires b < BINS && c < BINS && b != c && x in transit
    requires forall o | o in mem && o !in bins[b] && o != x :: o in mem' && mem'[o] == mem[o]
    ensures Linked(mem', heads[c], bins[c])
  {
    forall i: nat | i < |bins[c]|
      ensures LinkAt(mem', bins[c], i)
    {
      assert LinkAt(mem, bins[c], i);
      assert bins[c][i] in bins[c] && OfBin(mem, blocks, transit, c, bins[c]);
      if bins[c][i] in bins[b] { BinsDisjoint(mem, blocks, bins, transit, b, c, bins[c][i]); }
    }
  }

  /** Changes that touch no listed block's size, flag or links keep every list. */
  lemma ListsKept(mem: Memory, mem': Memory, blocks: set<int>, blocks': set<int>, heads: seq<int>, bins: seq<seq<int>>,
                  transit: set<int>, transit': set<int>)
    requires AllLinked(mem, heads, bins) && Filed(mem, blocks, bins, transit)
    requires forall o | o in blocks' :: o in mem'
    requires forall o | o in blocks && o !in transit && mem[o].free ::
      o in blocks' && o !in transit' && o in mem' && mem'[o].size == mem[o].size && mem'[o].free &&
      mem'[o].nextFree == mem[o].nextFree && mem'[o].prevFree == mem[o].prevFree
    requires forall o | o in blocks' && o !in transit' && mem'[o].free :: o in blocks && o !in transit && mem[o].free
    ensures AllLinked(mem', heads, bins) && Filed(mem', blocks', bins, transit')
  {
    forall c: nat | c < BINS
      ensures OfBin(mem', blocks', transit', c, bins[c]) && Linked(mem', heads[c], bins[c])
    {
      assert OfBin(mem, blocks, transit, c, bins[c]) && Linked(mem, heads[c], bins[c]);
      forall i: nat | i < |bins[c]|
        ensures LinkAt(mem', bins[c], i)
      {
        assert LinkAt(mem, bins[c], i) && bins[c][i] in bins[c];
      }
    }
  }

  // ---- the bitmaps ----

  lemma BitsWithoutHead(fl: Word, sl: seq<Word>, heads: seq<int>, i: nat, j: nat)
    requires Mapped(fl, sl, heads) && i < FL_COUNT && j < SL_COUNT
    ensures var row: Word := sl[i][j := false];
            Mapped(if NonZero(row) then fl else fl[i := false], sl[i := row], heads[i * SL_COUNT + j := NULL])
  {
  }

  lemma BitsWithHead(fl: Word, sl: seq<Word>, heads: seq<int>, i: nat, j: nat, x: int)
    requires Mapped(fl, sl, heads) && i < FL_COUNT && j < SL_COUNT && x != NULL
    ensures Mapped(fl[i := true], sl[i := sl[i][j := true]], heads[i * SL_COUNT + j := x])
  {
    var row: Word := sl[i][j := true];
    assert row[j];
    assert NonZero(row);
  }

  lemma BitsSameHead(fl: Word, sl: seq<Word>, heads: seq<int>, i: nat, j: nat, x: int)
    requires Mapped(fl, sl, heads) && i < FL_COUNT && j < SL_COUNT && x != NULL && heads[i * SL_COUNT + j] != NULL
    ensures Mapped(fl, sl, heads[i * SL_COUNT + j := x])
  {
  }

  // ---- splitting and merging ----

  /** Writing a new header at `r` destroys any stale header it overlaps. */
  function Written(mem: Memory, r: int, h: Header): Memory {
    (mem - set o | o in mem && r - HDR < o < r + HDR)[r := h]
  }

  /** The writes of `tlsf_split_block`: block `x` keeps `size` bytes, the rest becomes a free block. */
  function Split(mem: Memory, n: nat, x: int, size: nat): Memory
    requires x in mem && size + HDR + MIN_BLOCK <= mem[x].size
    requires End(mem, x) < n ==> End(mem, x) in mem
  {
    var r := x + HDR + size;
    var next := End(mem, x);
    var m1 := Written(mem, r, Header(mem[x].size - size - HDR, true, MAGIC, x, NULL, NULL));
    var m2 := m1[x := mem[x].(size := size, free := true)];
    if next < n then m2[next := mem[next].(prevPhys := r)] else m2
  }

  /** Absorbing block `hi` into its predecessor `lo`: the writes of one half of `tlsf_merge_block`. */
  function Merged(mem: Memory, n: nat, lo: int, hi: int): Memory
    requires lo in mem && hi in mem && mem[lo].size + HDR + mem[hi].size < 0x1_0000_0000
    requires var e := lo + HDR + (mem[lo].size + HDR + mem[hi].size); e < n ==> e in mem
  {
    var size := mem[lo].size + HDR + mem[hi].size;
    var m1 := mem[lo := mem[lo].(size := size, free := true)];
    var after := lo + HDR + size;
    if after < n then m1[after := m1[after].(prevPhys := lo)] else m1
  }

  /** What a split at `r` leaves in the header of each block. */
  ghost predicate SplitAt(mem: Memory, mem': Memory, blocks: set<int>, x: int, r: int)
    requires x in mem
  {
    && r !in blocks && r in mem'
    && x + HDR + MIN_BLOCK <= r && r + HDR + MIN_BLOCK <= End(mem, x) && (r - x) % ALIGN == 0
    && mem'[r].size == End(mem, x) - r - HDR && mem'[r].free && mem'[r].magic == MAGIC && mem'[r].prevPhys == x
    && forall o | o in blocks :: (o <= x || End(mem, x) <= o) && o in mem && o in mem' &&
         mem'[o] == if o == x then mem[x].(size := r - x - HDR, free := true)
                    else if o == End(mem, x) then mem[o].(prevPhys := r) else mem[o]
  }

  lemma SplitHeaders(mem: Memory, blocks: set<int>, n: nat, x: int, size: nat)
    requires Tiled(mem, blocks, n) && x in blocks
    requires MIN_BLOCK <= size && size % ALIGN == 0 && size + HDR + MIN_BLOCK <= mem[x].size
    ensures End(mem, x) < n ==> End(mem, x) in mem
    ensures var r := x + HDR + size;
            var mem' := Split(mem, n, x, size);
            && SplitAt(mem, mem', blocks, x, r)
            && (NULL !in mem ==> NULL !in mem')
            && (forall o | o in mem' && o !in blocks && o != r :: o in mem && mem'[o] == mem[o])
  {
    assert BlockOk(mem, blocks, n, x);
    forall o | o in blocks
      ensures o <= x || End(mem, x) <= o
      ensures o < n
    {
      assert BlockOk(mem, blocks, n, o);
    }
  }

  lemma SplitTiled(mem: Memory, mem': Memory, blocks: set<int>, n: nat, x: int, r: int)
    requires Tiled(mem, blocks, n) && x in blocks && SplitAt(mem, mem', blocks, x, r)
    ensures Tiled(mem', blocks + {r}, n)
  {
    assert BlockOk(mem, blocks, n, x);
    forall o | o in blocks + {r}
      ensures BlockOk(mem', blocks + {r}, n, o)
    {
      if o == r { SplitRemainOk(mem, mem', blocks, n, x, r); } else { SplitBlockOk(mem, mem', blocks, n, x, r, o); }
    }
    forall o, p | o in blocks + {r} && p in blocks + {r} && o < p
      ensures End(mem', o) <= p
    {
      if o in blocks && o != x { assert End(mem', o) == End(mem, o); }
    }
  }

  lemma SplitRemainOk(mem: Memory, mem': Memory, blocks: set<int>, n: nat, x: int, r: int)
    requires Tiled(mem, blocks, n) && x in blocks && SplitAt(mem, mem', blocks, x, r)
    ensures BlockOk(mem', blocks + {r}, n, r)
  {
    assert BlockOk(mem, blocks, n, x);
  }

  lemma SplitBlockOk(mem: Memory, mem': Memory, blocks: set<int>, n: nat, x: int, r: int, o: int)
    requires Tiled(mem, blocks, n) && x in blocks && o in blocks
    requires SplitAt(mem, mem', blocks, x, r)
    ensures BlockOk(mem', blocks + {r}, n, o)
  {
    assert BlockOk(mem, blocks, n, o) && BlockOk(mem, blocks, n, x);
    if o != 0 {
      var p := mem[o].prevPhys;
      assert p == x <==> o == End(mem, x);
    }
  }

  /** What absorbing `hi` into `lo` leaves in the header of each block. */
  ghost predicate MergedAt(mem: Memory, mem': Memory, blocks: set<int>, lo: int, hi: int)
    requires lo in mem && hi in mem
  {
    && End(mem, lo) == hi && mem[lo].size + HDR + mem[hi].size < 0x1_0000_0000
    && forall o | o in blocks :: o in mem && o in mem' &&
         mem'[o] == if o == lo then mem[lo].(size := mem[lo].size + HDR + mem[hi].size, free := true)
                    else if o == End(mem, hi) then mem[o].(prevPhys := lo) else mem[o]
  }

  lemma MergedHeaders(mem: Memory, blocks: set<int>, n: nat, lo: int, hi: int)
    requires Tiled(mem, blocks, n) && lo in blocks && hi in blocks && End(mem, lo) == hi
    requires n <= 0x8000_0000
    ensures mem[lo].size + HDR + mem[hi].size < 0x1_0000_0000
    ensures End(mem, hi) == lo + HDR + (mem[lo].size + HDR + mem[hi].size)
    ensures End(mem, hi) < n ==> End(mem, hi) in mem
    ensures var mem' := Merged(mem, n, lo, hi);
            && MergedAt(mem, mem', blocks, lo, hi)
            && mem'.Keys == mem.Keys
            && (forall o | o in mem && o !in blocks :: mem'[o] == mem[o])
            && (forall o | o in mem :: mem'[o].free == (if o == lo then true else mem[o].free))
  {
    assert BlockOk(mem, blocks, n, lo) && BlockOk(mem, blocks, n, hi);
    forall o | o in blocks
      ensures o < n
    {
      assert BlockOk(mem, blocks, n, o);
    }
  }

  lemma MergedTiled(mem: Memory, mem': Memory, blocks: set<int>, n: nat, lo: int, hi: int)
    requires Tiled(mem, blocks, n) && lo in blocks && hi in blocks && MergedAt(mem, mem', blocks, lo, hi)
    ensures Tiled(mem', blocks - {hi}, n)
  {
    forall o | o in blocks - {hi}
      ensures BlockOk(mem', blocks - {hi}, n, o)
    {
      MergedBlockOk(mem, mem', blocks, n, lo, hi, o);
    }
    forall o, p | o in blocks - {hi} && p in blocks - {hi} && o < p
      ensures End(mem', o) <= p
    {
      MergedOrder(mem, mem', blocks, n, lo, hi, o, p);
    }
    assert BlockOk(mem, blocks, n, lo);
  }

  lemma MergedOrder(mem: Memory, mem': Memory, blocks: set<int>, n: nat, lo: int, hi: int, o: int, p: int)
    requires Tiled(mem, blocks, n) && lo in blocks && hi in blocks && MergedAt(mem, mem', blocks, lo, hi)
    requires o in blocks && p in blocks && o != hi && p != hi && o < p
    ensures End(mem', o) <= p
  {
    assert o in mem' && hi in blocks;
    if o == lo {
      assert End(mem, lo) <= p && End(mem, hi) <= p;
    }
  }

  lemma MergedBlockOk(mem: Memory, mem': Memory, blocks: set<int>, n: nat, lo: int, hi: int, o: int)
    requires Tiled(mem, blocks, n) && lo in blocks && hi in blocks && o in blocks && o != hi
    requires MergedAt(mem, mem', blocks, lo, hi)
    ensures BlockOk(mem', blocks - {hi}, n, o)
  {
    MergedEnds(mem, mem', blocks, n, lo, hi, o);
    MergedPrev(mem, mem', blocks, n, lo, hi, o);
    assert BlockOk(mem, blocks, n, o) && BlockOk(mem, blocks, n, hi) && BlockOk(mem, blocks, n, lo);
    StaysAligned(mem[lo].size, mem[hi].size);
  }

  lemma StaysAligned(a: int, b: int)
    requires a % ALIGN == 0 && b % ALIGN == 0
    ensures (a + HDR + b) % ALIGN == 0
  {
  }

  lemma MergedEnds(mem: Memory, mem': Memory, blocks: set<int>, n: nat, lo: int, hi: int, o: int)
    requires Tiled(mem, blocks, n) && lo in blocks && hi in blocks && o in blocks && o != hi
    requires MergedAt(mem, mem', blocks, lo, hi)
    ensures End(mem', o) == if o == lo then End(mem, hi) else End(mem, o)
    ensures End(mem', o) == n || (End(mem', o) < n && End(mem', o) in blocks - {hi})
  {
    assert BlockOk(mem, blocks, n, o) && BlockOk(mem, blocks, n, hi);
    assert BlockOk(mem, blocks, n, lo);
  }

  lemma MergedPrev(mem: Memory, mem': Memory, blocks: set<int>, n: nat, lo: int, hi: int, o: int)
    requires Tiled(mem, blocks, n) && lo in blocks && hi in blocks && o in blocks && o != hi
    requires MergedAt(mem, mem', blocks, lo, hi)
    ensures if o == 0 then mem'[o].prevPhys == NULL
            else var p := mem'[o].prevPhys; p in blocks - {hi} && p in mem' && End(mem', p) == o
  {
    assert BlockOk(mem, blocks, n, o) && BlockOk(mem, blocks, n, hi) && BlockOk(mem, blocks, n, lo);
    if o != 0 && o != End(mem, hi) {
      var p := mem[o].prevPhys;
      assert p != hi && p != lo;
    }
  }

  lemma {:induction false} UsedAtMost(mem: Memory, blocks: set<int>, n: nat, o: int)
    requires Tiled(mem, blocks, n) && (o == n || o in blocks)
    ensures UsedFrom(mem, blocks, n, o) <= n - o
    decreases n - o
  {
    if o != n {
      assert BlockOk(mem, blocks, n, o);
      UsedAtMost(mem, blocks, n, End(mem, o));
    }
  }

  /** Used bytes depend on sizes and flags only. */
  lemma {:induction false} UsedSame(mem: Memory, mem': Memory, blocks: set<int>, n: nat, o: int)
    requires Tiled(mem, blocks, n) && Tiled(mem', blocks, n) && (o == n || o in blocks)
    requires forall p | p in blocks :: mem'[p].size == mem[p].size && mem'[p].free == mem[p].free
    ensures UsedFrom(mem', blocks, n, o) == UsedFrom(mem, blocks, n, o)
    decreases n - o
  {
    if o != n {
      assert BlockOk(mem, blocks, n, o);
      UsedSame(mem, mem', blocks, n, End(mem, o));
    }
  }

  /** Marking one free block used adds its header and payload. */
  lemma {:induction false} UsedMark(mem: Memory, mem': Memory, blocks: set<int>, n: nat, x: int, o: int)
    requires Tiled(mem, blocks, n) && Tiled(mem', blocks, n) && (o == n || o in blocks)
    requires x in blocks && mem[x].free && !mem'[x].free && mem'[x].size == mem[x].size
    requires forall p | p in blocks && p != x :: mem'[p].size == mem[p].size && mem'[p].free == mem[p].free
    ensures UsedFrom(mem', blocks, n, o) == UsedFrom(mem, blocks, n, o) + if o <= x then HDR + mem[x].size else 0
    decreases n - o
  {
    if o == n {
      assert BlockOk(mem, blocks, n, x);
    } else {
      assert BlockOk(mem, blocks, n, o);
      UsedMark(mem, mem', blocks, n, x, End(mem, o));
    }
  }

  /** Splitting a free block, or merging two, changes no used byte: `fine` has `lo` and `hi` where `coarse` has one block. */
  lemma {:induction false} UsedSplit(coarse: Memory, fine: Memory, blocks: set<int>, n: nat, lo: int, hi: int, o: int)
    requires lo in blocks && hi !in blocks && (o == n || o in blocks)
    requires Tiled(coarse, blocks, n) && Tiled(fine, blocks + {hi}, n)
    requires coarse[lo].free && fine[lo].free && fine[hi].free
    requires End(fine, lo) == hi && End(fine, hi) == End(coarse, lo)
    requires forall p | p in blocks && p != lo :: fine[p].size == coarse[p].size && fine[p].free == coarse[p].free
    ensures UsedFrom(fine, blocks + {hi}, n, o) == UsedFrom(coarse, blocks, n, o)
    decreases n - o
  {
    if o != n {
      assert BlockOk(coarse, blocks, n, o);
      UsedSplit(coarse, fine, blocks, n, lo, hi, End(coarse, o));
      if o == lo {
        assert BlockOk(fine, blocks + {hi}, n, hi);
        assert UsedFrom(fine, blocks + {hi}, n, lo) == UsedFrom(fine, blocks + {hi}, n, hi);
      }
    }
  }
}
