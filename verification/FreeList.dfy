/** The free list of umalloc.c as a set of header addresses, counted in Header units: a circular
    list in address order, with the static `base` as its smallest member. */
module FreeList {

  datatype Header = Header(ptr: nat, size: nat)

  type Mem = map<nat, Header>

  // ---------------------------------------------------------------- circular order

  /** `b` follows `a` in the circular address order of `f`. */
  ghost predicate IsSucc(f: set<nat>, base: nat, a: nat, b: nat) {
    && b in f
    && if a < b then forall c | a < c < b :: c !in f
       else b == base && forall c <- f :: c <= a
  }

  /** Every member's pointer leads to the next member. */
  ghost predicate Circular(mem: Mem, f: set<nat>, base: nat) {
    && base in f && f <= mem.Keys && (forall c <- f :: base <= c)
    && forall a {:trigger IsSucc(f, base, a, mem[a].ptr)} | a in f :: IsSucc(f, base, a, mem[a].ptr)
  }

  /** The members met after `x`, up to and including `stop`, going round. */
  ghost function Ahead(f: set<nat>, x: nat, stop: nat): set<nat> {
    if x <= stop then set c | c in f && x < c <= stop
    else set c | c in f && (x < c || c <= stop)
  }

  /** One step along the list uses up one member ahead. */
  lemma AheadStep(f: set<nat>, base: nat, x: nat, y: nat, stop: nat)
    requires base in f && (forall c <- f :: base <= c) && x in f && stop in f && x != stop && IsSucc(f, base, x, y)
    ensures y in Ahead(f, x, stop) && Ahead(f, y, stop) == Ahead(f, x, stop) - {y}
  {
  }

  /** Right after `stop`, everything is ahead. */
  lemma AheadAll(f: set<nat>, base: nat, stop: nat, y: nat)
    requires base in f && (forall c <- f :: base <= c) && stop in f && IsSucc(f, base, stop, y)
    ensures Ahead(f, y, stop) + {y} == f
  {
  }

  // ---------------------------------------------------------------- blocks and units

  ghost predicate Within(mem: Mem, a: nat, u: nat)
    requires a in mem
  {
    a <= u < a + mem[a].size
  }

  ghost predicate Apart(mem: Mem, a: nat, b: nat)
    requires a in mem && b in mem
  {
    a + mem[a].size <= b || b + mem[b].size <= a
  }

  /** The blocks are non-empty, disjoint, and cover exactly the arena. */
  ghost predicate Tiles(mem: Mem, blocks: set<nat>, arena: set<nat>) {
    && blocks <= mem.Keys
    && (forall a <- blocks :: mem[a].size >= 1)
    && (forall a, b | a in blocks && b in blocks && a != b :: Apart(mem, a, b))
    && (forall a, u: nat | a in blocks && Within(mem, a, u) :: u in arena)
    && (forall u <- arena :: exists a :: a in blocks && Within(mem, a, u))
  }

  /** No free block touches the next one. */
  ghost predicate Coalesced(mem: Mem, f: set<nat>, base: nat)
    requires f <= mem.Keys
  {
    forall a | a in f && a != base :: a + mem[a].size != mem[a].ptr
  }

  /** Only the next one could touch it: then no two free blocks touch at all. */
  lemma CoalescedAll(mem: Mem, f: set<nat>, base: nat, blocks: set<nat>, arena: set<nat>, a: nat, b: nat)
    requires Circular(mem, f, base) && Tiles(mem, blocks, arena) && f - {base} <= blocks && Coalesced(mem, f, base)
    requires a in f && b in f && a != base
    ensures a + mem[a].size != b
  {
    hide IsSucc;
    var next := mem[a].ptr;
    if a < b {
      NextAtMost(f, base, a, next, b);
      assert Apart(mem, a, next);
    }
  }

  lemma NextAtMost(f: set<nat>, base: nat, a: nat, next: nat, b: nat)
    requires IsSucc(f, base, a, next) && b in f && a < b
    ensures a < next <= b && next in f
  {
  }

  function WithSize(mem: Mem, a: nat, n: nat): Mem {
    mem[a := Header(if a in mem then mem[a].ptr else 0, n)]
  }

  function WithPtr(mem: Mem, a: nat, p: nat): Mem {
    mem[a := Header(p, if a in mem then mem[a].size else 0)]
  }

  /** Two blocks that touch become one. */
  lemma MergeTiles(mem: Mem, blocks: set<nat>, arena: set<nat>, a: nat, b: nat)
    requires Tiles(mem, blocks, arena) && a in blocks && b in blocks && a != b && a + mem[a].size == b
    ensures Tiles(WithSize(mem, a, mem[a].size + mem[b].size), blocks - {b}, arena)
  {
    var mem' := WithSize(mem, a, mem[a].size + mem[b].size);
    forall u | u in arena
      ensures exists c :: c in blocks - {b} && Within(mem', c, u)
    {
      var c :| c in blocks && Within(mem, c, u);
      assert Within(mem', if c == b then a else c, u);
    }
    forall c, u: nat | c in blocks - {b} && Within(mem', c, u)
      ensures u in arena
    {
      assert Within(mem, c, u) || Within(mem, b, u);
    }
    forall c, d | c in blocks - {b} && d in blocks - {b} && c != d
      ensures Apart(mem', c, d)
    {
      assert Apart(mem, c, d);
      if c == a { assert Apart(mem, b, d); }
      if d == a { assert Apart(mem, b, c); }
    }
  }

  /** A block gives up its last `n` units as a block of their own. */
  lemma SplitTiles(mem: Mem, blocks: set<nat>, arena: set<nat>, a: nat, n: nat)
    requires Tiles(mem, blocks, arena) && a in blocks && 1 <= n < mem[a].size
    ensures var q := a + mem[a].size - n;
            q !in blocks && Tiles(WithSize(WithSize(mem, a, mem[a].size - n), q, n), blocks + {q}, arena)
  {
    var q := a + mem[a].size - n;
    var mem' := WithSize(WithSize(mem, a, mem[a].size - n), q, n);
    assert q in blocks ==> Apart(mem, a, q);
    forall u | u in arena
      ensures exists c :: c in blocks + {q} && Within(mem', c, u)
    {
      var c :| c in blocks && Within(mem, c, u);
      assert Within(mem', if c == a && u >= q then q else c, u);
    }
    forall c, u: nat | c in blocks + {q} && Within(mem', c, u)
      ensures u in arena
    {
      assert Within(mem, if c == q then a else c, u);
    }
    forall c, d | c in blocks + {q} && d in blocks + {q} && c != d
      ensures Apart(mem', c, d)
    {
      assert c != q && d != q ==> Apart(mem, c, d);
      assert c == q && d != a ==> Apart(mem, a, d);
      assert d == q && c != a ==> Apart(mem, a, c);
    }
  }

  predicate InRange(hp: nat, n: nat, u: nat) { hp <= u < hp + n }

  ghost function Units(hp: nat, n: nat): set<nat> { set u: nat | u < hp + n && InRange(hp, n, u) }

  /** Units from sbrk join the arena as one block. */
  lemma GrowTiles(mem: Mem, blocks: set<nat>, arena: set<nat>, hp: nat, n: nat)
    requires Tiles(mem, blocks, arena) && n >= 1 && Units(hp, n) !! arena
    ensures hp !in blocks && Tiles(WithSize(mem, hp, n), blocks + {hp}, arena + Units(hp, n))
  {
    var mem' := WithSize(mem, hp, n);
    assert hp in Units(hp, n);
    assert hp in blocks ==> Within(mem, hp, hp);
    forall c | c in blocks
      ensures Apart(mem', c, hp)
    {
      assert Within(mem, c, c);
      assert !Within(mem, c, hp);
    }
    forall c, d | c in blocks + {hp} && d in blocks + {hp} && c != d
      ensures Apart(mem', c, d)
    {
      assert c != hp && d != hp ==> Apart(mem, c, d);
    }
    forall u | u in arena + Units(hp, n)
      ensures exists c :: c in blocks + {hp} && Within(mem', c, u)
    {
      if u in arena {
        var c :| c in blocks && Within(mem, c, u);
        assert Within(mem', c, u);
      } else {
        assert Within(mem', hp, u);
      }
    }
    forall c, u: nat | c in blocks + {hp} && Within(mem', c, u)
      ensures u in arena + Units(hp, n)
    {
      assert c != hp ==> Within(mem, c, u);
    }
  }

  // ---------------------------------------------------------------- linking and unlinking

  /** `p` is the member after which `bp` belongs. */
  ghost predicate Place(mem: Mem, f: set<nat>, base: nat, p: nat, bp: nat) {
    && p in f && p in mem && p < bp
    && (bp < mem[p].ptr || (mem[p].ptr == base && forall c <- f :: c <= p))
  }

  /** A new member between `p` and its successor comes between no other two. */
  lemma InsertOther(f: set<nat>, base: nat, p: nat, bp: nat, a: nat, b: nat)
    requires p in f && p < bp && (forall c <- f :: c <= p || c > bp) && a in f && a != p && IsSucc(f, base, a, b)
    ensures IsSucc(f + {bp}, base, a, b)
  {
  }

  lemma InsertCircular(mem: Mem, f: set<nat>, base: nat, p: nat, bp: nat)
    requires Circular(mem, f, base) && Place(mem, f, base, p, bp)
    ensures bp !in f && Circular(WithPtr(WithPtr(mem, bp, mem[p].ptr), p, bp), f + {bp}, base)
  {
    hide IsSucc;
    var next := mem[p].ptr;
    InsertNew(f, base, p, bp, next);
    var mem' := WithPtr(WithPtr(mem, bp, next), p, bp);
    forall a | a in f + {bp}
      ensures IsSucc(f + {bp}, base, a, mem'[a].ptr)
    {
      if a != bp && a != p {
        InsertOther(f, base, p, bp, a, mem[a].ptr);
      }
    }
  }

  lemma InsertNew(f: set<nat>, base: nat, p: nat, bp: nat, next: nat)
    requires base in f && p in f && p < bp && IsSucc(f, base, p, next)
    requires bp < next || (next == base && forall c <- f :: c <= p)
    ensures bp !in f && (forall c <- f :: c <= p || c > bp)
    ensures IsSucc(f + {bp}, base, p, bp) && (base < bp ==> IsSucc(f + {bp}, base, bp, next))
  {
  }

  /** Leaving out `b`, which follows `a`, changes nobody else's successor. */
  lemma RemoveOther(f: set<nat>, base: nat, a: nat, b: nat, c: nat, d: nat)
    requires a in f && b in f && b != base && base in f && (forall x <- f :: base <= x)
    requires IsSucc(f, base, a, b) && IsSucc(f, base, c, d) && c in f && c != a && c != b
    ensures IsSucc(f - {b}, base, c, d)
  {
  }

  lemma RemoveNext(f: set<nat>, base: nat, a: nat, b: nat, d: nat)
    requires a in f && b in f && b != base && base in f && (forall x <- f :: base <= x)
    requires IsSucc(f, base, a, b) && IsSucc(f, base, b, d)
    ensures IsSucc(f - {b}, base, a, d)
  {
  }

  lemma RemoveCircular(mem: Mem, f: set<nat>, base: nat, a: nat, b: nat)
    requires Circular(mem, f, base) && a in f && b in f && mem[a].ptr == b && b != base
    ensures Circular(WithPtr(mem, a, mem[b].ptr), f - {b}, base)
  {
    hide IsSucc;
    var mem' := WithPtr(mem, a, mem[b].ptr);
    RemoveNext(f, base, a, b, mem[b].ptr);
    forall c | c in f - {b}
      ensures IsSucc(f - {b}, base, c, mem'[c].ptr)
    {
      if c != a {
        RemoveOther(f, base, a, b, c, mem[c].ptr);
      }
    }
    assert a != b by { NotOwnNext(mem, f, base, b); }
  }

  lemma NotOwnNext(mem: Mem, f: set<nat>, base: nat, b: nat)
    requires Circular(mem, f, base) && b in f && b != base
    ensures mem[b].ptr != b
  {
    assert IsSucc(f, base, b, mem[b].ptr);
  }

  /** The largest member below `bp`: where a search for its place must stop. */
  lemma {:induction false} PredOf(f: set<nat>, base: nat, bp: nat) returns (s: nat)
    requires base in f && base < bp
    ensures s in f && s < bp && forall c | c in f && c < bp :: c <= s
    decreases |f|
  {
    if c :| c in f && c != base {
      var s0 := PredOf(f - {c}, base, bp);
      s := if s0 < c < bp then c else s0;
      forall x | x in f && x < bp
        ensures x <= s
      {
        assert x == c || x in f - {c};
      }
    } else {
      s := base;
      assert forall c | c in f :: c == base;
    }
  }
}
