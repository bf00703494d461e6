/** umalloc.c: malloc, free and morecore on the circular free list. Addresses count Header units;
    a block starts with its header, and the caller gets the address behind it. */
module Umalloc {
  import opened FreeList
  import opened Options

  /** Memory together with what a client knows: which blocks are free, which are live and how
      large, and the units obtained from sbrk so far. */
  datatype Heap = Heap(mem: Mem, free: set<nat>, live: map<nat, nat>, arena: set<nat>)

  ghost function Blocks(h: Heap, base: nat): set<nat> { h.free - {base} + h.live.Keys }

  ghost predicate Inv(h: Heap, base: nat) {
    && Circular(h.mem, h.free, base) && h.mem[base].size == 0
    && h.free - {base} !! h.live.Keys
    && Tiles(h.mem, Blocks(h, base), h.arena)
    && Coalesced(h.mem, h.free, base)
    && (forall a <- h.live :: a in h.mem && h.mem[a].size == h.live[a])
    && (forall u <- h.arena :: base < u)
  }

  lemma BlockAbove(h: Heap, base: nat, a: nat)
    requires Inv(h, base) && a in Blocks(h, base)
    ensures base < a && a in h.arena
  {
    assert Within(h.mem, a, a);
  }

  // ---------------------------------------------------------------- free, in three moves

  /** Like Inv, except that the block at `bp` may touch its neighbours. */
  ghost predicate InvBut(h: Heap, base: nat, p: nat, bp: nat) {
    && Circular(h.mem, h.free, base) && h.mem[base].size == 0
    && h.free - {base} !! h.live.Keys
    && Tiles(h.mem, Blocks(h, base), h.arena)
    && (forall a | a in h.free && a != base && a != p && a != bp :: a + h.mem[a].size != h.mem[a].ptr)
    && (forall a <- h.live :: a in h.mem && h.mem[a].size == h.live[a])
    && (forall u <- h.arena :: base < u)
    && p in h.free && bp in h.free && p < bp && h.mem[p].ptr == bp
  }

  /** The block put on the list between `p` and its successor. */
  function Inserted(h: Heap, p: nat, bp: nat): Heap
    requires p in h.mem
  {
    h.(mem := WithPtr(WithPtr(h.mem, bp, h.mem[p].ptr), p, bp), free := h.free + {bp}, live := h.live - {bp})
  }

  /** `b`, which follows `a` and touches it, absorbed into `a`. */
  function Merged(h: Heap, a: nat, b: nat): Heap
    requires a in h.mem && b in h.mem
  {
    h.(mem := WithPtr(WithSize(h.mem, a, h.mem[a].size + h.mem[b].size), a, h.mem[b].ptr), free := h.free - {b})
  }

  lemma {:induction false} TilesPtr(mem: Mem, blocks: set<nat>, arena: set<nat>, a: nat, p: nat)
    requires Tiles(mem, blocks, arena) && a in mem
    ensures Tiles(WithPtr(mem, a, p), blocks, arena)
  {
  }

  lemma InsertedInv(h: Heap, base: nat, p: nat, bp: nat)
    requires Inv(h, base) && bp in h.live && Place(h.mem, h.free, base, p, bp)
    ensures InvBut(Inserted(h, p, bp), base, p, bp)
    ensures Blocks(Inserted(h, p, bp), base) == Blocks(h, base)
  {
    hide Circular, Tiles, Place, IsSucc;
    Basics(h, base);
    BlockAbove(h, base, bp);
    PlaceBasics(h.mem, h.free, base, p, bp);
    InsertCircular(h.mem, h.free, base, p, bp);
    assert Blocks(Inserted(h, p, bp), base) == Blocks(h, base);
    TilesPtr(h.mem, Blocks(h, base), h.arena, bp, h.mem[p].ptr);
    TilesPtr(WithPtr(h.mem, bp, h.mem[p].ptr), Blocks(h, base), h.arena, p, bp);
  }

  lemma Basics(h: Heap, base: nat)
    requires Circular(h.mem, h.free, base) && Tiles(h.mem, Blocks(h, base), h.arena)
    ensures base in h.mem && base in h.free && h.free <= h.mem.Keys && h.live.Keys <= h.mem.Keys
  {
  }

  lemma PlaceBasics(mem: Mem, f: set<nat>, base: nat, p: nat, bp: nat)
    requires Place(mem, f, base, p, bp)
    ensures p in mem && p in f && p < bp
  {
  }

  lemma MergedTiles(h: Heap, base: nat, a: nat, b: nat)
    requires Circular(h.mem, h.free, base) && Tiles(h.mem, Blocks(h, base), h.arena) && h.free - {base} !! h.live.Keys
    requires a in h.free && b in h.free && a != base && b != base && a != b && a + h.mem[a].size == b && h.mem[a].ptr == b
    ensures Circular(Merged(h, a, b).mem, h.free - {b}, base)
    ensures Tiles(Merged(h, a, b).mem, Blocks(Merged(h, a, b), base), h.arena)
  {
    hide Circular, Tiles, IsSucc;
    Basics(h, base);
    var mem1 := WithPtr(h.mem, a, h.mem[b].ptr);
    RemoveCircular(h.mem, h.free, base, a, b);
    TilesPtr(h.mem, Blocks(h, base), h.arena, a, h.mem[b].ptr);
    MergeTiles(mem1, Blocks(h, base), h.arena, a, b);
    CircularSize(mem1, h.free - {b}, base, a, h.mem[a].size + h.mem[b].size);
    assert Merged(h, a, b).mem == WithSize(mem1, a, mem1[a].size + mem1[b].size);
    assert Blocks(Merged(h, a, b), base) == Blocks(h, base) - {b};
  }

  lemma CircularSize(mem: Mem, f: set<nat>, base: nat, a: nat, n: nat)
    requires Circular(mem, f, base) && a in f
    ensures Circular(WithSize(mem, a, n), f, base)
  {
  }

  /** Coalescing with the upper neighbour, when they touch. */
  lemma UpperInv(h: Heap, base: nat, p: nat, bp: nat)
    requires InvBut(h, base, p, bp) && bp + h.mem[bp].size == h.mem[bp].ptr
    ensures h.mem[bp].ptr in h.mem
    ensures var h' := Merged(h, bp, h.mem[bp].ptr);
            InvBut(h', base, p, bp) && bp + h'.mem[bp].size != h'.mem[bp].ptr
  {
    hide Circular, Tiles, IsSucc;
    Basics(h, base);
    NextFacts(h, base, p, bp);
    MergedTiles(h, base, bp, h.mem[bp].ptr);
  }

  lemma NextFacts(h: Heap, base: nat, p: nat, bp: nat)
    requires InvBut(h, base, p, bp)
    ensures base < bp && base <= p && h.mem[bp].ptr in h.free && h.mem[bp].ptr != bp && h.mem[bp].size >= 1
    ensures h.mem[bp].ptr > bp ==> h.mem[bp].ptr != base && h.mem[bp].ptr != p
  {
    assert IsSucc(h.free, base, bp, h.mem[bp].ptr);
    assert bp in Blocks(h, base);
  }

  /** Coalescing with the lower neighbour, when they touch; otherwise there is nothing left to do. */
  lemma LowerInv(h: Heap, base: nat, p: nat, bp: nat)
    requires InvBut(h, base, p, bp) && bp + h.mem[bp].size != h.mem[bp].ptr
    ensures p + h.mem[p].size == bp ==> Inv(Merged(h, p, bp), base)
    ensures p + h.mem[p].size != bp ==> Inv(h, base)
  {
    hide Circular, Tiles, IsSucc;
    Basics(h, base);
    NextFacts(h, base, p, bp);
    if p + h.mem[p].size == bp {
      MergedTiles(h, base, p, bp);
    }
  }

  /** The heap after free(), given the place `p` the search found: as the code computes it. */
  function Freed(h: Heap, p: nat, bp: nat): Heap
    requires p in h.mem && bp in h.mem && h.mem[p].ptr in h.mem
  {
    var h1 := Inserted(h, p, bp);
    var h2 := if bp + h1.mem[bp].size == h1.mem[bp].ptr then Merged(h1, bp, h1.mem[bp].ptr) else h1;
    if p + h2.mem[p].size == bp then Merged(h2, p, bp) else h2
  }

  lemma PlaceFacts(h: Heap, base: nat, p: nat, bp: nat)
    requires Inv(h, base) && bp in h.live && Place(h.mem, h.free, base, p, bp)
    ensures p in h.free && p < bp && p in h.mem && bp in h.mem && h.mem[p].ptr in h.mem && h.mem[p].ptr != bp
  {
    assert IsSucc(h.free, base, p, h.mem[p].ptr);
    assert bp in Blocks(h, base);
  }

  lemma FreedInv(h: Heap, base: nat, p: nat, bp: nat)
    requires Inv(h, base) && bp in h.live && Place(h.mem, h.free, base, p, bp)
    ensures p in h.mem && bp in h.mem && h.mem[p].ptr in h.mem && h.mem[p].ptr != bp
    ensures Inv(Freed(h, p, bp), base)
    ensures Freed(h, p, bp).live == h.live - {bp} && Freed(h, p, bp).arena == h.arena && p in Freed(h, p, bp).free
  {
    hide Inv, InvBut, Place;
    PlaceFacts(h, base, p, bp);
    InsertedInv(h, base, p, bp);
    var h1 := Inserted(h, p, bp);
    if bp + h1.mem[bp].size == h1.mem[bp].ptr {
      UpperInv(h1, base, p, bp);
      LowerInv(Merged(h1, bp, h1.mem[bp].ptr), base, p, bp);
    } else {
      LowerInv(h1, base, p, bp);
    }
  }

  // ---------------------------------------------------------------- malloc's two ways to take a block

  /** A block of exactly the size asked for leaves the list. */
  function TakenWhole(h: Heap, prevp: nat, p: nat): Heap
    requires prevp in h.mem && p in h.mem
  {
    h.(mem := WithPtr(h.mem, prevp, h.mem[p].ptr), free := h.free - {p}, live := h.live[p := h.mem[p].size])
  }

  /** A larger block stays and gives up its tail. */
  function TakenTail(h: Heap, p: nat, n: nat): Heap
    requires p in h.mem && n <= h.mem[p].size
  {
    var q := p + h.mem[p].size - n;
    h.(mem := WithSize(WithSize(h.mem, p, h.mem[p].size - n), q, n), live := h.live[q := n])
  }

  lemma WholeNext(h: Heap, base: nat, prevp: nat, p: nat)
    requires Inv(h, base) && prevp in h.free && p in h.free && p != base && h.mem[prevp].ptr == p
    ensures prevp != p && h.mem[p].ptr != p
    ensures prevp != base ==> prevp + h.mem[prevp].size != h.mem[p].ptr
  {
    assert IsSucc(h.free, base, prevp, p) && IsSucc(h.free, base, p, h.mem[p].ptr);
    assert prevp != base && prevp != p ==> Apart(h.mem, prevp, p);
  }

  lemma TakenWholeInv(h: Heap, base: nat, prevp: nat, p: nat)
    requires Inv(h, base) && prevp in h.free && p in h.free && p != base && h.mem[prevp].ptr == p
    ensures prevp in h.mem && p in h.mem && Inv(TakenWhole(h, prevp, p), base)
  {
    hide Circular, Tiles, IsSucc;
    Basics(h, base);
    WholeNext(h, base, prevp, p);
    RemoveCircular(h.mem, h.free, base, prevp, p);
    TilesPtr(h.mem, Blocks(h, base), h.arena, prevp, h.mem[p].ptr);
    assert Blocks(TakenWhole(h, prevp, p), base) == Blocks(h, base);
  }

  lemma TailNext(h: Heap, base: nat, p: nat, n: nat)
    requires Inv(h, base) && p in h.free && p != base && 1 <= n < h.mem[p].size
    ensures h.mem[p].ptr != p + h.mem[p].size - n
  {
    var next := h.mem[p].ptr;
    assert IsSucc(h.free, base, p, next);
    assert next != base && next != p ==> Apart(h.mem, p, next);
  }

  lemma TakenTailInv(h: Heap, base: nat, p: nat, n: nat)
    requires Inv(h, base) && p in h.free && p != base && 1 <= n < h.mem[p].size
    ensures p in h.mem && Inv(TakenTail(h, p, n), base) && p + h.mem[p].size - n !in h.live
  {
    hide Circular, Tiles, IsSucc;
    Basics(h, base);
    BlockAbove(h, base, p);
    TailNext(h, base, p, n);
    var q := p + h.mem[p].size - n;
    SplitTiles(h.mem, Blocks(h, base), h.arena, p, n);
    CircularSize(h.mem, h.free, base, p, h.mem[p].size - n);
    CircularElsewhere(WithSize(h.mem, p, h.mem[p].size - n), h.free, base, q, n);
    assert Blocks(TakenTail(h, p, n), base) == Blocks(h, base) + {q};
  }

  lemma CircularElsewhere(mem: Mem, f: set<nat>, base: nat, a: nat, n: nat)
    requires Circular(mem, f, base) && a !in f
    ensures Circular(WithSize(mem, a, n), f, base)
  {
  }

  /** Units from sbrk, made a block that morecore will free. */
  ghost function Grown(h: Heap, hp: nat, n: nat): Heap {
    h.(mem := WithSize(h.mem, hp, n), live := h.live[hp := n], arena := h.arena + Units(hp, n))
  }

  lemma GrownInv(h: Heap, base: nat, hp: nat, n: nat)
    requires Inv(h, base) && n >= 1 && Units(hp, n) !! h.arena && base < hp
    ensures Inv(Grown(h, hp, n), base)
  {
    hide Circular, Tiles, IsSucc;
    Basics(h, base);
    GrowTiles(h.mem, Blocks(h, base), h.arena, hp, n);
    CircularElsewhere(h.mem, h.free, base, hp, n);
    assert Blocks(Grown(h, hp, n), base) == Blocks(h, base) + {hp};
  }

  // ---------------------------------------------------------------- what live blocks hold

  ghost predicate Same(mem: Mem, mem': Mem, u: nat) {
    if u in mem then u in mem' && mem'[u] == mem[u] else u !in mem'
  }

  /** No unit of a block that stays live was written. */
  ghost predicate Keeps(h: Heap, h': Heap)
    requires h.live.Keys <= h.mem.Keys
  {
    forall a, u: nat | a in h.live && a in h'.live && Within(h.mem, a, u) :: Same(h.mem, h'.mem, u)
  }

  /** The list's own writes go to the base or to units of free blocks. */
  lemma FreeUnit(h: Heap, base: nat, c: nat, u: nat, a: nat)
    requires Inv(h, base) && c in h.free && a in h.live && (u == c || Within(h.mem, c, u))
    ensures a in h.mem && !Within(h.mem, a, u)
  {
  }

  lemma LiveKeys(h: Heap, base: nat)
    requires Inv(h, base)
    ensures h.live.Keys <= h.mem.Keys
  {
  }

  lemma FreedKeeps(h: Heap, base: nat, p: nat, bp: nat)
    requires Inv(h, base) && bp in h.live && Place(h.mem, h.free, base, p, bp)
    requires p in h.mem && bp in h.mem && h.mem[p].ptr in h.mem
    ensures h.live.Keys <= h.mem.Keys && Keeps(h, Freed(h, p, bp))
  {
    hide Circular, Coalesced;
    var h' := Freed(h, p, bp);
    forall a, u: nat | a in h.live && a in h'.live && Within(h.mem, a, u)
      ensures Same(h.mem, h'.mem, u)
    {
      FreeUnit(h, base, p, p, a);
      assert Apart(h.mem, a, bp);
    }
  }

  lemma WholeKeeps(h: Heap, base: nat, prevp: nat, p: nat)
    requires Inv(h, base) && prevp in h.free && prevp in h.mem && p in h.mem
    ensures h.live.Keys <= h.mem.Keys && Keeps(h, TakenWhole(h, prevp, p))
  {
  }

  lemma TailKeeps(h: Heap, base: nat, p: nat, n: nat)
    requires Inv(h, base) && p in h.free && p in h.mem && 1 <= n < h.mem[p].size
    ensures h.live.Keys <= h.mem.Keys && Keeps(h, TakenTail(h, p, n))
  {
    hide Circular, Tiles, Coalesced;
    LiveKeys(h, base);
    var q := p + h.mem[p].size - n;
    forall a, u: nat | a in h.live && a in TakenTail(h, p, n).live && Within(h.mem, a, u)
      ensures Same(h.mem, TakenTail(h, p, n).mem, u)
    {
      FreeUnit(h, base, p, p, a);
      FreeUnit(h, base, p, q, a);
    }
  }

  lemma GrownKeeps(h: Heap, base: nat, hp: nat, n: nat)
    requires Inv(h, base) && n >= 1 && Units(hp, n) !! h.arena
    ensures h.live.Keys <= h.mem.Keys && Keeps(h, Grown(h, hp, n)) && hp !in h.live
  {
    hide Circular, Coalesced;
    assert hp in Units(hp, n);
    forall a, u: nat | a in h.live && Within(h.mem, a, u)
      ensures u != hp
    {
      assert a in Blocks(h, base);
    }
    if hp in h.live { BlockAbove(h, base, hp); }
  }

  /** A client may store anything behind the header of its block. */
  lemma StoreInv(h: Heap, base: nat, a: nat, u: nat, word: Header)
    requires Inv(h, base) && a in h.live && a < u < a + h.live[a]
    ensures Inv(h.(mem := h.mem[u := word]), base)
  {
    hide Circular, Tiles, IsSucc;
    Basics(h, base);
    Inside(h, base, a, u);
    assert u !in h.live;
    TilesStore(h.mem, Blocks(h, base), h.arena, u, word);
    CircularStore(h.mem, h.free, base, u, word);
    assert Blocks(h.(mem := h.mem[u := word]), base) == Blocks(h, base);
  }

  lemma Inside(h: Heap, base: nat, a: nat, u: nat)
    requires Inv(h, base) && a in h.live && a < u < a + h.live[a]
    ensures u !in Blocks(h, base) && u !in h.free && u !in h.live
  {
    BlockAbove(h, base, a);
    assert u in Blocks(h, base) ==> Apart(h.mem, a, u);
  }

  lemma CircularStore(mem: Mem, f: set<nat>, base: nat, u: nat, word: Header)
    requires Circular(mem, f, base) && u !in f
    ensures Circular(mem[u := word], f, base)
  {
  }

  lemma TilesStore(mem: Mem, blocks: set<nat>, arena: set<nat>, u: nat, word: Header)
    requires Tiles(mem, blocks, arena) && u !in blocks
    ensures Tiles(mem[u := word], blocks, arena)
  {
  }

  /** The words stored from unit `u` on. */
  function Stored(mem: Mem, u: nat, words: seq<Header>): Mem {
    if words == [] then mem else Stored(mem, u, words[..|words| - 1])[u + |words| - 1 := words[|words| - 1]]
  }

  /** No unit of another live block was written, nor the header of this one. */
  ghost predicate KeepsOthers(h: Heap, mem': Mem, a: nat)
    requires h.live.Keys <= h.mem.Keys
  {
    && Same(h.mem, mem', a)
    && forall b, u: nat | b in h.live && b != a && Within(h.mem, b, u) :: Same(h.mem, mem', u)
  }

  /** Filling a block up to its last unit damages neither the list nor any other block. */
  lemma {:induction false} StoredInv(h: Heap, base: nat, a: nat, words: seq<Header>)
    requires Inv(h, base) && a in h.live && |words| < h.live[a]
    ensures Inv(h.(mem := Stored(h.mem, a + 1, words)), base)
    ensures h.live.Keys <= h.mem.Keys && KeepsOthers(h, Stored(h.mem, a + 1, words), a)
    decreases |words|
  {
    hide Inv;
    LiveKeys(h, base);
    if words != [] {
      var init, u := words[..|words| - 1], a + |words|;
      StoredInv(h, base, a, init);
      StoreInv(h.(mem := Stored(h.mem, a + 1, init)), base, a, u, words[|words| - 1]);
      forall b | b in h.live && b != a
        ensures !Within(h.mem, b, u)
      {
        OtherBlock(h, base, a, b, u);
      }
    }
  }

  lemma OtherBlock(h: Heap, base: nat, a: nat, b: nat, u: nat)
    requires Inv(h, base) && a in h.live && b in h.live && a != b && a < u < a + h.live[a]
    ensures b in h.mem && !Within(h.mem, b, u)
  {
    BlockAbove(h, base, a);
    BlockAbove(h, base, b);
    assert Apart(h.mem, a, b);
  }

  /** A client may store as many bytes as it asked for from the address malloc returned, if the block
      is as large as `Allocator.Malloc` says. */
  lemma BytesInv(h: Heap, base: nat, r: nat, nbytes: nat, words: seq<Header>)
    requires Inv(h, base) && r >= 1 && r - 1 in h.live && nbytes <= 8 * (h.live[r - 1] - 1)
    requires |words| == (nbytes + 7) / 8
    ensures Inv(h.(mem := Stored(h.mem, r, words)), base)
    ensures h.live.Keys <= h.mem.Keys && KeepsOthers(h, Stored(h.mem, r, words), r - 1)
  {
    hide Inv;
    StoredInv(h, base, r - 1, words);
  }

  // ---------------------------------------------------------------- the code

  const UINT: nat := 0x1_0000_0000

  /** The units a request of `nbytes` takes, header included; a Header is 8 bytes. The sum is a 32-bit
      one, so it is too small for the last seven values of `nbytes`. */
  function UnitsFor(nbytes: nat): (u: nat)
    requires nbytes < UINT
    ensures u >= 1 && 8 * (u - 1) < nbytes + 8
    ensures nbytes <= 8 * (u - 1) <==> nbytes <= 0xFFFF_FFF8
  {
    (nbytes + 8 - 1) % UINT / 8 + 1
  }

  /** What morecore asks sbrk for. */
  function CoreUnits(nu: nat): (n: nat)
    ensures n >= nu && n >= 4096 && (n == nu || n == 4096)
  {
    if nu < 4096 then 4096 else nu
  }

  /** The argument sbrk receives for `n` units: a 32-bit product, passed as an int. */
  function SbrkArg(n: nat): (k: int)
    ensures k == 8 * n <==> n < 0x1000_0000
  {
    var b := n * 8 % UINT;
    if b < UINT / 2 then b else b - UINT
  }

  lemma FitsCircular(h: Heap, base: nat, a: nat)
    requires Inv(h, base) && a in h.free
    ensures a in h.mem && h.mem[a].ptr in h.free && IsSucc(h.free, base, a, h.mem[a].ptr) && base in h.free
    ensures (forall c <- h.free :: base <= c) && h.mem[base].size == 0
    ensures a != base ==> a in Blocks(h, base)
  {
    assert IsSucc(h.free, base, a, h.mem[a].ptr);
  }

  lemma UnitsMore(a: nat, n: nat, m: nat)
    requires n <= m
    ensures Units(a, n) <= Units(a, m)
  {
  }

  class Allocator {
    const base: nat
    var mem: Mem
    var freep: nat               // 0 until the first malloc
    ghost var free: set<nat>
    ghost var live: map<nat, nat>
    ghost var arena: set<nat>

    ghost function H(): Heap
      reads this
    {
      Heap(mem, free, live, arena)
    }

    ghost predicate Valid()
      reads this
    {
      && 0 < base
      && if freep == 0 then base in mem && mem[base].size == 0 && free == {base} && live == map[] && arena == {}
         else freep in free && Inv(H(), base)
    }

    constructor (base: nat)
      requires 0 < base
      ensures Valid() && live == map[] && arena == {}
    {
      this.base := base;
      mem := map[base := Header(0, 0)];
      freep := 0;
      free, live, arena := {base}, map[], {};
    }

    /** free's search: the list member after which `bp` belongs. It ends because going round the
        list from anywhere comes to the largest member below `bp`. */
    method FindPlace(bp: nat) returns (p: nat)
      requires freep in free && Inv(H(), base) && bp in live
      ensures Place(mem, free, base, p, bp)
    {
      hide Circular, Tiles, Coalesced;
      ghost var h := H();
      Basics(h, base);
      BlockAbove(h, base, bp);
      ghost var stop := PredOf(free, base, bp);
      p := freep;
      FitsCircular(h, base, p);
      while !(bp > p && bp < mem[p].ptr)
        invariant p in free && p in mem
        decreases |Ahead(free, p, stop)|
      {
        FitsCircular(h, base, p);
        if p >= mem[p].ptr && (bp > p || bp < mem[p].ptr) {
          break;
        }
        assert p != stop;
        AheadStep(free, base, p, mem[p].ptr, stop);
        p := mem[p].ptr;
      }
      FitsCircular(h, base, p);
    }

    /** free's updates: coalesce with the upper neighbour or link to it, then the same below. */
    method LinkAt(p: nat, bp: nat)
      requires Inv(H(), base) && bp in live && Place(mem, free, base, p, bp)
      modifies this`mem, this`free, this`live
      ensures p in old(mem) && bp in old(mem) && old(mem)[p].ptr in old(mem)
      ensures H() == Freed(old(H()), p, bp)
    {
      hide Circular, Tiles, Coalesced, Inv, Place;
      ghost var h := H();
      PlaceFacts(h, base, p, bp);
      ghost var h1 := Inserted(h, p, bp);
      ghost var next := mem[p].ptr;
      if bp + mem[bp].size == mem[p].ptr {
        mem := WithSize(mem, bp, mem[bp].size + mem[mem[p].ptr].size);
        mem := WithPtr(mem, bp, mem[mem[p].ptr].ptr);
        h1 := Merged(h1, bp, next);
      } else {
        mem := WithPtr(mem, bp, mem[p].ptr);
      }
      assert WithPtr(mem, p, bp) == h1.mem;
      if p + mem[p].size == bp {
        mem := WithSize(mem, p, mem[p].size + mem[bp].size);
        mem := WithPtr(mem, p, mem[bp].ptr);
        h1 := Merged(h1, p, bp);
      } else {
        mem := WithPtr(mem, p, bp);
      }
      assert mem == h1.mem && h1 == Freed(h, p, bp);
      free, live := h1.free, live - {bp};
      assert H() == h1;
    }

    /** umalloc.c free, for a block that malloc returned. */
    method Free(ap: nat)
      requires Valid() && ap >= 1 && ap - 1 in live
      modifies this
      ensures Valid() && freep != 0 && live == old(live) - {ap - 1} && arena == old(arena)
      ensures old(live).Keys <= old(mem).Keys && Keeps(old(H()), H())
      ensures HasFit(H(), old(live[ap - 1]))
    {
      hide Inv, Place, Freed;
      var bp := ap - 1;
      ghost var h := H();
      var p := FindPlace(bp);
      FreedInv(h, base, p, bp);
      FreedKeeps(h, base, p, bp);
      FreedFit(h, base, p, bp);
      LinkAt(p, bp);
      BaseLeast(H(), base, p);
      freep := p;
    }

    /** umalloc.c morecore: `sbrk` is what the system call answers, None for -1. */
    method MoreCore(nu: nat, sbrk: Option<nat>) returns (r: nat)
      requires Valid() && freep != 0 && nu >= 1
      requires sbrk.Some? ==> base < sbrk.value && Units(sbrk.value, CoreUnits(nu)) !! arena
      modifies this
      ensures sbrk.None? ==> r == 0 && freep == old(freep) && H() == old(H())
      ensures sbrk.Some? ==> r == freep != 0 && HasFit(H(), nu) && arena == old(arena) + Units(sbrk.value, CoreUnits(nu))
      ensures sbrk.Some? ==> Units(sbrk.value, nu) <= arena && Units(sbrk.value, 4096) <= arena
      ensures Valid() && live == old(live)
      ensures old(live).Keys <= old(mem).Keys && Keeps(old(H()), H())
    {
      hide Inv, Units;
      ghost var h := H();
      LiveKeys(h, base);
      var n := CoreUnits(nu);
      if sbrk == None {
        return 0;
      }
      var hp := sbrk.value;
      GrownInv(h, base, hp, n);
      GrownKeeps(h, base, hp, n);
      mem := WithSize(mem, hp, n);
      live, arena := live[hp := n], arena + Units(hp, n);
      ghost var h1 := H();
      assert h1 == Grown(h, hp, n);
      Free(hp + 1);
      KeepsTrans(h, h1, H());
      UnitsMore(hp, nu, n);
      UnitsMore(hp, 4096, n);
      return freep;
    }

    /** malloc's exit: take all of `p` off the list, or cut the tail off it. */
    method Take(prevp: nat, p: nat, n: nat) returns (r: nat)
      requires Inv(H(), base) && prevp in free && p in free && prevp in mem && p in mem && mem[prevp].ptr == p
      requires 1 <= n <= mem[p].size
      modifies this
      ensures freep == prevp && Inv(H(), base) && prevp in free && arena == old(arena)
      ensures r >= 1 && r - 1 !in old(live) && live == old(live)[r - 1 := n]
      ensures old(live).Keys <= old(mem).Keys && Keeps(old(H()), H())
    {
      hide Inv;
      ghost var h := H();
      var q := p;
      FitsCircular(h, base, p);
      FreeNotLive(h, base, p);
      if mem[p].size == n {
        TakenWholeInv(h, base, prevp, p);
        WholeKeeps(h, base, prevp, p);
        WholeNext(h, base, prevp, p);
        mem := WithPtr(mem, prevp, mem[p].ptr);
        free, live := free - {p}, live[p := n];
        assert H() == TakenWhole(h, prevp, p);
      } else {
        TakenTailInv(h, base, p, n);
        TailKeeps(h, base, p, n);
        mem := WithSize(mem, p, mem[p].size - n);
        q := q + mem[p].size;
        mem := WithSize(mem, q, n);
        live := live[q := n];
        assert H() == TakenTail(h, p, n);
      }
      freep := prevp;
      return q + 1;
    }

    /** umalloc.c malloc; `sbrk` answers the one call it can come to. */
    method Malloc(nbytes: nat, sbrk: Option<nat>) returns (r: nat)
      requires Valid() && nbytes < UINT
      requires sbrk.Some? ==> base < sbrk.value && Units(sbrk.value, CoreUnits(UnitsFor(nbytes))) !! arena
      modifies this
      ensures Valid()
      ensures r == 0 ==> sbrk.None? && live == old(live)
      ensures r != 0 ==> r - 1 !in old(live) && live == old(live)[r - 1 := UnitsFor(nbytes)]
      ensures r != 0 ==> 8 * (live[r - 1] - 1) < nbytes + 8 && (nbytes <= 8 * (live[r - 1] - 1) <==> nbytes <= 0xFFFF_FFF8)
      ensures old(HasFit(H(), UnitsFor(nbytes))) ==> r != 0 && arena == old(arena)
      ensures arena == old(arena) || (sbrk.Some? && arena == old(arena) + Units(sbrk.value, CoreUnits(UnitsFor(nbytes))))
      ensures old(live).Keys <= old(mem).Keys && Keeps(old(H()), H())
    {
      hide Inv, Units, Ahead, NoneBehind, FitAhead, HasFit, Keeps;
      var n := UnitsFor(nbytes);
      var prevp := freep;
      if prevp == 0 {
        mem := WithPtr(mem, base, base);
        freep, prevp := base, base;
        mem := WithSize(mem, base, 0);
        FreshInv(old(H()), H(), base, n);
      } else {
        KeepsAll(H(), base);
      }
      ghost var h0 := H();
      StartRound(h0, base, freep, n);
      var p := mem[prevp].ptr;
      ghost var grown := false;
      while true
        invariant freep in free && 0 < freep && Inv(H(), base)
        invariant prevp in free && p in free && prevp in mem && p in mem && mem[prevp].ptr == p
        invariant live == old(live) && old(live).Keys <= old(mem).Keys && Keeps(old(H()), H())
        invariant !grown ==> H() == h0 && NoneBehind(h0, freep, p, n)
        invariant grown ==> FitAhead(H(), freep, p, n) && !HasFit(h0, n)
        invariant grown ==> sbrk.Some? && arena == h0.arena + Units(sbrk.value, CoreUnits(n))
        decreases !grown, |Ahead(free, p, freep)|
      {
        ghost var h1 := H();
        LiveKeys(h1, base);
        if mem[p].size >= n {
          r := Take(prevp, p, n);
          KeepsTrans(old(H()), h1, H());
          BaseLeast(H(), base, prevp);
          return;
        }
        if p == freep {
          EndRound(h1, base, freep, n);
          p := MoreCore(n, sbrk);
          KeepsTrans(old(H()), h1, H());
          if p == 0 {
            return 0;
          }
          StartRound(H(), base, freep, n);
          grown := true;
        } else {
          StepOn(h1, base, freep, p, n);
        }
        prevp, p := p, mem[p].ptr;
      }
    }
  }

  /** Every member met since `freep` is too small. */
  ghost predicate NoneBehind(h: Heap, freep: nat, p: nat, n: nat) {
    forall c | c in h.free && c in h.mem && c != p && c !in Ahead(h.free, p, freep) :: h.mem[c].size < n
  }

  /** From `p` on there is a member large enough. */
  ghost predicate FitAhead(h: Heap, freep: nat, p: nat, n: nat) {
    exists c :: c in Ahead(h.free, p, freep) + {p} && c in h.mem && h.mem[c].size >= n
  }

  lemma StartRound(h: Heap, base: nat, freep: nat, n: nat)
    requires Inv(h, base) && freep in h.free
    ensures freep in h.mem && h.mem[freep].ptr in h.free && h.mem[freep].ptr in h.mem
    ensures NoneBehind(h, freep, h.mem[freep].ptr, n)
    ensures HasFit(h, n) ==> FitAhead(h, freep, h.mem[freep].ptr, n)
  {
    hide Ahead, Tiles, Coalesced, IsSucc;
    AheadAll(h.free, base, freep, h.mem[freep].ptr);
  }

  lemma StepOn(h: Heap, base: nat, freep: nat, p: nat, n: nat)
    requires Inv(h, base) && freep in h.free && p in h.free && p in h.mem && p != freep && h.mem[p].size < n
    ensures h.mem[p].ptr in h.free && h.mem[p].ptr in h.mem
    ensures |Ahead(h.free, h.mem[p].ptr, freep)| < |Ahead(h.free, p, freep)|
    ensures NoneBehind(h, freep, p, n) ==> NoneBehind(h, freep, h.mem[p].ptr, n)
    ensures FitAhead(h, freep, p, n) ==> FitAhead(h, freep, h.mem[p].ptr, n)
  {
    hide Ahead, Tiles, Coalesced;
    AheadStep(h.free, base, p, h.mem[p].ptr, freep);
  }

  lemma EndRound(h: Heap, base: nat, freep: nat, n: nat)
    requires Inv(h, base) && freep in h.free && freep in h.mem && h.mem[freep].size < n
    ensures NoneBehind(h, freep, freep, n) ==> !HasFit(h, n)
    ensures !FitAhead(h, freep, freep, n)
  {
    hide Tiles, Coalesced, IsSucc;
    assert Ahead(h.free, freep, freep) == {};
  }

  lemma KeepsAll(h: Heap, base: nat)
    requires Inv(h, base)
    ensures h.live.Keys <= h.mem.Keys && Keeps(h, h)
  {
  }

  lemma FreeNotLive(h: Heap, base: nat, p: nat)
    requires Inv(h, base) && p in h.free && p != base
    ensures p !in h.live
  {
  }

  /** What the first malloc sets up. */
  lemma FreshInv(h: Heap, h': Heap, base: nat, n: nat)
    requires base in h.mem && h.mem[base].size == 0 && h.free == {base} && h.live == map[] && h.arena == {}
    requires h' == h.(mem := h.mem[base := Header(base, 0)])
    ensures Inv(h', base) && Keeps(h, h') && HasFit(h', n) == HasFit(h, n)
  {
    assert HasFit(h, n) ==> n == 0;
    assert n == 0 ==> h.mem[base].size >= n && h'.mem[base].size >= n;
  }

  ghost predicate HasFit(h: Heap, n: nat) {
    exists c :: c in h.free && c in h.mem && h.mem[c].size >= n
  }

  lemma FreedFit(h: Heap, base: nat, p: nat, bp: nat)
    requires Inv(h, base) && bp in h.live && Place(h.mem, h.free, base, p, bp)
    requires p in h.mem && bp in h.mem && h.mem[p].ptr in h.mem
    ensures HasFit(Freed(h, p, bp), h.live[bp])
  {
    hide Circular, Tiles, Coalesced;
    PlaceFacts(h, base, p, bp);
    var h' := Freed(h, p, bp);
    assert (p in h'.free && h'.mem[p].size >= h.live[bp]) || (bp in h'.free && h'.mem[bp].size >= h.live[bp]);
  }

  lemma KeepsTrans(h: Heap, h1: Heap, h2: Heap)
    requires h.live.Keys <= h.mem.Keys && h1.live.Keys <= h1.mem.Keys
    requires Keeps(h, h1) && Keeps(h1, h2) && h.live.Keys <= h1.live.Keys
    ensures Keeps(h, h2)
  {
    forall a, u: nat | a in h.live && a in h2.live && Within(h.mem, a, u)
      ensures Same(h.mem, h2.mem, u)
    {
      assert Within(h.mem, a, a);
      assert Same(h.mem, h1.mem, a) && Within(h1.mem, a, u);
    }
  }

  lemma BaseLeast(h: Heap, base: nat, p: nat)
    requires Inv(h, base) && p in h.free
    ensures base <= p
  {
  }
}
