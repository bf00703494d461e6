/** kalloc.c and the page table code of vm.c. The free list and the pages an address space owns are
    accounted for together: every operation moves pages between the two and writes no other page. */
module PageTables {
  import opened PageMemory

  const PGSIZE := 4096
  const NPAGES := 0x10_0000            // virtual pages
  const KERNBASE := 0x8000_0000
  const KERNPAGE := 0x8_0000           // KERNBASE / PGSIZE
  const EXTMEM := 0x10_0000
  const PHYSTOP := 0xE00_0000
  const DEVSPACE := 0xFE00_0000
  const TOP := 0x1_0000_0000

  const PTE_W := 2
  const PTE_U := 4

  function Pdx(v: nat): nat { v / NENT }

  function Ptx(v: nat): nat { v % NENT }

  /** The entry for virtual page `v`. */
  ghost function AtPage(mem: Mem, d: nat, v: nat): Pte
    requires Formed(mem, d) && v < NPAGES
  {
    At(mem, d, Pdx(v), Ptx(v))
  }

  /** Nothing is mapped differently outside pages `lo` to `hi`. */
  ghost predicate SamePages(mem: Mem, mem': Mem, d: nat, lo: nat, hi: nat) {
    && Formed(mem, d) && Formed(mem', d)
    && forall v: nat | v < NPAGES && !(lo <= v < hi) :: AtPage(mem', d, v) == AtPage(mem, d, v)
  }

  function RoundUp(sz: nat): nat { (sz + PGSIZE - 1) / PGSIZE }

  /** The pages that were owned before are owned in the same place, and only tables were added. */
  ghost predicate MoreTables(owner: Owner, owner': Owner) {
    && (forall f <- owner :: f in owner' && owner'[f] == owner[f])
    && (forall f <- owner' :: f in owner || owner'[f].TableSlot?)
  }

  /** User pages keep their contents. */
  ghost predicate DataKept(mem: Mem, mem': Mem, owner: Owner) {
    forall f <- owner :: owner[f].PageSlot? ==> f in mem && f in mem' && mem'[f] == mem[f]
  }

  /** An address space and the free list after some page tables were added: no page lost, none but
      theirs written, no user page changed. */
  ghost predicate Grew(mem: Mem, free: seq<nat>, owner: Owner, mem': Mem, free': seq<nat>, owner': Owner) {
    && Pages(free') + owner'.Keys == Pages(free) + owner.Keys
    && Outside(mem, mem', Pages(free) + owner.Keys)
    && DataKept(mem, mem', owner) && MoreTables(owner, owner')
  }

  lemma GrewTrans(mem: Mem, free: seq<nat>, owner: Owner,
                  mem1: Mem, free1: seq<nat>, owner1: Owner,
                  mem2: Mem, free2: seq<nat>, owner2: Owner)
    requires Grew(mem, free, owner, mem1, free1, owner1) && Grew(mem1, free1, owner1, mem2, free2, owner2)
    ensures Grew(mem, free, owner, mem2, free2, owner2)
  {
  }

  lemma GrewNone(mem: Mem, free: seq<nat>, d: nat, owner: Owner)
    requires Space(mem, d, owner)
    ensures Formed(mem, d) && Grew(mem, free, owner, mem, free, owner)
  {
  }

  lemma SpaceMore(mem: Mem, d: nat, owner: Owner)
    requires Space(mem, d, owner)
    ensures Formed(mem, d) && MoreTables(owner, owner) && DataKept(mem, mem, owner)
  {
  }

  class Vm {
    var mem: Mem
    var freelist: nat
    ghost var free: seq<nat>

    ghost predicate Valid()
      reads this
    {
      FreeList(mem, free) && freelist == Head(free)
    }

    ghost predicate Live(d: nat, owner: Owner)
      reads this
    {
      Valid() && Space(mem, d, owner) && owner.Keys !! Pages(free)
    }

    method Kalloc() returns (r: nat)
      requires Valid()
      modifies this`freelist, this`free
      ensures Valid()
      ensures r == 0 ==> old(free) == [] && free == old(free)
      ensures r != 0 ==> r in mem && r !in Pages(free) && Pages(old(free)) == Pages(free) + {r} && |old(free)| == |free| + 1
    {
      hide FreeList, Pages;
      r := freelist;
      if r != 0 {
        PopFree(mem, free);
        freelist := mem[r].next;
        free := free[1..];
      } else {
        NoneFree(mem, free);
      }
    }

    /** kfree, for a page of the pool that is not free. */
    method Kfree(v: nat)
      requires Valid() && v in mem && v != 0 && v !in Pages(free)
      modifies this`mem, this`freelist, this`free
      ensures Valid() && mem == old(mem)[v := Run(old(freelist))] && free == [v] + old(free)
      ensures Pages(free) == Pages(old(free)) + {v}
    {
      hide FreeList, Pages;
      PushFree(mem, free, v);
      mem := mem[v := Run(freelist)];
      freelist := v;
      free := [v] + free;
    }

    /** freerange over physical addresses: the whole pages between the two ends. */
    method Freerange(vstart: nat, vend: nat)
      requires Valid() && forall f | RoundUp(vstart) <= f < vend / PGSIZE :: f in mem && f != 0 && f !in Pages(free)
      modifies this
      ensures Valid() && forall f :: f in Pages(free) <==> f in Pages(old(free)) || RoundUp(vstart) <= f < vend / PGSIZE
    {
      hide FreeList, Pages;
      var p := RoundUp(vstart) * PGSIZE;
      ghost var f0 := RoundUp(vstart);
      while p + PGSIZE <= vend
        invariant Valid() && mem.Keys == old(mem).Keys && p % PGSIZE == 0 && f0 * PGSIZE <= p && (p == f0 * PGSIZE || p <= vend)
        invariant forall f :: f in Pages(free) <==> f in Pages(old(free)) || f0 <= f < p / PGSIZE
        decreases vend - p
      {
        Kfree(p / PGSIZE);
        p := p + PGSIZE;
      }
    }

    /** walkpgdir: the frame of the table for page `v`, 0 for none. */
    method Walk(d: nat, v: nat, alloc: bool, ghost owner: Owner) returns (t: nat, ghost owner': Owner)
      requires Live(d, owner) && v < NPAGES
      modifies this
      ensures Live(d, owner') && t == mem[d].entries[Pdx(v)]
      ensures SameMap(old(mem), mem, d) && MoreTables(owner, owner') && DataKept(old(mem), mem, owner)
      ensures Pages(free) + owner'.Keys == Pages(old(free)) + owner.Keys
      ensures Outside(old(mem), mem, Pages(old(free)) + owner.Keys)
      ensures t == 0 ==> !alloc || old(free) == []
      ensures Ents(mem, d) == Ents(old(mem), d)[Pdx(v) := t] && |old(free)| == |free| + if Ents(old(mem), d)[Pdx(v)] != t then 1 else 0
      ensures t == 0 || !alloc || old(mem)[d].entries[Pdx(v)] != 0 ==> mem == old(mem) && free == old(free) && owner' == owner
    {
      hide FreeList, Pages, Space, Refers;
      owner' := owner;
      SpaceMore(mem, d, owner);
      t := mem[d].entries[Pdx(v)];
      if t == 0 && alloc {
        t := Kalloc();
        if t != 0 {
          TableSpace(mem, d, owner, Pdx(v), t);
          TableMap(mem, d, owner, Pdx(v), t);
          owner' := owner[t := TableSlot(Pdx(v))];
          DirOwned(mem, d, owner);
          mem := mem[t := Table(seq(NENT, _ => ABSENT))];
          mem := mem[d := Dir(mem[d].entries[Pdx(v) := t])];
          FreeListOutside(old(mem), mem, free, {t, d});
        }
      }
    }

    /** `*pte = pa | perm | PTE_P` for a page that has a table and is not mapped. */
    method SetPte(d: nat, t: nat, v: nat, pte: Pte, ghost owner: Owner) returns (ghost owner': Owner)
      requires Live(d, owner) && v < NPAGES && t == mem[d].entries[Pdx(v)] != 0 && pte.present && !AtPage(mem, d, v).present
      requires v < KERNPAGE ==> OwnPage(pte.frame, owner)
      modifies this`mem
      ensures Live(d, owner') && AtPage(mem, d, v) == pte && SameMapBut(old(mem), mem, d, Pdx(v), Ptx(v))
      ensures owner' == if v < KERNPAGE then owner[pte.frame := PageSlot(Pdx(v), Ptx(v))] else owner
      ensures Outside(old(mem), mem, owner.Keys) && DataKept(old(mem), mem, owner) && Ents(mem, d) == Ents(old(mem), d)
      ensures (pte.frame in mem && pte.frame !in owner ==> mem[pte.frame] == old(mem)[pte.frame])
    {
      hide FreeList, Pages, Space, Refers;
      assert v < KERNPAGE <==> Pdx(v) < NUSER;
      PteMap(mem, d, owner, Pdx(v), Ptx(v), pte);
      TableOwned(mem, d, owner, Pdx(v));
      SpaceMore(mem, d, owner);
      if v < KERNPAGE {
        UserSpace(mem, d, owner, Pdx(v), Ptx(v), pte);
        owner' := owner[pte.frame := PageSlot(Pdx(v), Ptx(v))];
      } else {
        KernelSpace(mem, d, owner, Pdx(v), Ptx(v), pte);
        owner' := owner;
      }
      mem := mem[t := Table(mem[t].ptes[Ptx(v) := pte])];
      FreeListOutside(old(mem), mem, free, owner.Keys);
    }

    /** The body of mappages' loop; a user page must come with a page nobody owns yet. */
    method MapOne(d: nat, v: nat, frame: nat, perm: nat, ghost owner: Owner)
      returns (ok: bool, panic: bool, ghost owner': Owner)
      requires Live(d, owner) && v < NPAGES
      requires v < KERNPAGE ==> OwnPage(frame, owner)
      modifies this
      ensures panic <==> AtPage(old(mem), d, v).present
      ensures panic ==> !ok
      ensures ok ==> TablesFor(Ents(old(mem), d), Ents(mem, d), v, v + 1) && |old(free)| == |free| + Missing(Ents(old(mem), d), v, v + 1)
      ensures !ok && !panic ==> Ents(old(mem), d)[Pdx(v)] == 0
      ensures !ok ==> mem == old(mem) && free == old(free) && owner' == owner && (!panic ==> free == [])
      ensures Live(d, owner') && SamePages(old(mem), mem, d, v, if ok then v + 1 else v)
      ensures ok ==> AtPage(mem, d, v) == Pte(true, frame, perm)
      ensures v >= KERNPAGE || !ok ==> Grew(old(mem), old(free), owner, mem, free, owner')
      ensures v < KERNPAGE && ok ==> frame in owner' && owner'[frame] == PageSlot(Pdx(v), Ptx(v)) && mem[frame] == old(mem)[frame]
      ensures v < KERNPAGE && ok ==> Grew(old(mem), old(free), owner, mem, free, owner' - {frame})
    {
      hide FreeList, Pages, Space, At, Refers, Missing, TablesFor;
      PresentHasTable(mem, d, owner, v);
      GrewNone(mem, free, d, owner);
      var t;
      t, owner' := Walk(d, v, true, owner);
      OneTableMore(Ents(old(mem), d), Pdx(v), t, v);
      if t == 0 {
        return false, false, owner;
      }
      PteIs(mem, d, v);
      ghost var mem1, owner1 := mem, owner';
      MapsSame(old(mem), mem1, d);
      if mem[t].ptes[Ptx(v)].present {
        return false, true, owner;
      }
      owner' := SetPte(d, t, v, Pte(true, frame, perm), owner1);
      MapsBut(mem1, mem, d, v);
      assert DataKept(old(mem), mem, owner) && Outside(old(mem), mem, Pages(old(free)) + owner.Keys) by {
        ChainKept(old(mem), mem1, mem, owner, owner1, Pages(old(free)) + owner.Keys);
      }
      assert v < KERNPAGE ==> owner' - {frame} == owner1;
      return true, false, owner';
    }

    /** mappages: one entry per page from `va` on, up to the page of the last byte or the page `n`
        where it stops: because that one is mapped already, or for want of a table. */
    method Mappages(d: nat, va: nat, size: nat, pa: nat, perm: nat, ghost owner: Owner)
      returns (ok: bool, panic: bool, ghost n: nat, ghost owner': Owner)
      requires Live(d, owner) && size >= 1 && va + size <= TOP && pa % PGSIZE == 0
      requires forall f | pa / PGSIZE <= f < pa / PGSIZE + UserPages(va / PGSIZE, (va + size - 1) / PGSIZE + 1) :: OwnPage(f, owner)
      modifies this
      ensures Live(d, owner') && va / PGSIZE <= n <= (va + size - 1) / PGSIZE + 1 && (ok <==> n == (va + size - 1) / PGSIZE + 1)
      ensures panic ==> !ok && AtPage(old(mem), d, n).present
      ensures !ok && !panic ==> free == [] && !AtPage(old(mem), d, n).present && Ents(mem, d)[Pdx(n)] == 0
      ensures TablesFor(Ents(old(mem), d), Ents(mem, d), va / PGSIZE, n)
      ensures |old(free)| == |free| + Missing(Ents(old(mem), d), va / PGSIZE, n)
      ensures SamePages(old(mem), mem, d, va / PGSIZE, n)
      ensures forall v: nat | va / PGSIZE <= v < n ::
                !AtPage(old(mem), d, v).present && AtPage(mem, d, v) == Pte(true, pa / PGSIZE + v - va / PGSIZE, perm)
      ensures Handed(owner', va / PGSIZE, n, pa / PGSIZE)
      ensures Grew(old(mem), old(free), owner, mem, free, owner' - Given(va / PGSIZE, n, pa / PGSIZE))
    {
      hide FreeList, Pages, Space, At, Grew, UserPages, Given, Handed, InHand, Missing, TablesFor;
      GrewNone(mem, free, d, owner);
      ghost var e0 := Ents(mem, d);
      NoTablesFor(e0, va / PGSIZE);
      var a, last, p := va / PGSIZE, (va + size - 1) / PGSIZE, pa / PGSIZE;
      ghost var lo, p0 := a, p;
      owner' := owner;
      GivenNone(owner, lo, p0);
      while true
        invariant lo <= a <= last && p == p0 + a - lo && Live(d, owner')
        invariant Grew(old(mem), old(free), owner, mem, free, owner' - Given(lo, a, p0)) && Handed(owner', lo, a, p0)
        invariant SamePages(old(mem), mem, d, lo, a)
        invariant TablesFor(e0, Ents(mem, d), lo, a) && |old(free)| == |free| + Missing(e0, lo, a)
        invariant forall f | p0 + UserPages(lo, a) <= f < p0 + UserPages(lo, last + 1) :: OwnPage(f, owner')
        invariant forall v: nat | lo <= v < a ::
                    !AtPage(old(mem), d, v).present && AtPage(mem, d, v) == Pte(true, p0 + v - lo, perm)
        decreases last - a
      {
        ghost var mem1, free1, owner1 := mem, free, owner';
        OneMore(lo, a, last + 1, p0);
        forall f | p0 + UserPages(lo, a) <= f < p0 + UserPages(lo, last + 1)
          ensures InHand(mem1, free1, owner1, f) && f !in owner1
        {
          assert OwnPage(f, owner');
          NotOwned(mem1, free1, owner1, f);
        }
        assert a < KERNPAGE ==> OwnPage(p, owner');
        ok, panic, owner' := MapOne(d, a, p, perm, owner');
        if !ok {
          n := a;
          return;
        }
        MissingMore(e0, Ents(mem1, d), Ents(mem, d), lo, a);
        GivenMore(old(mem), old(free), owner, mem1, free1, owner1, mem, free, owner', lo, a, p0);
        ghost var x := if a < KERNPAGE then {p} else {};
        assert a >= KERNPAGE ==> owner' - x == owner';
        forall f | p0 + UserPages(lo, a + 1) <= f < p0 + UserPages(lo, last + 1)
          ensures OwnPage(f, owner')
        {
          StillInHand(mem1, free1, owner1, mem, free, owner', x, f);
        }
        n := a + 1;
        if a == last {
          return;
        }
        a := a + 1;
        p := p + 1;
      }
    }

    /** deallocuvm's inner step: free the page, then forget it. */
    method ClearOne(d: nat, t: nat, v: nat, ghost owner: Owner) returns (ghost owner': Owner)
      requires Live(d, owner) && v < KERNPAGE && t == mem[d].entries[Pdx(v)] != 0 && AtPage(mem, d, v).present
      modifies this
      ensures Live(d, owner') && SamePages(old(mem), mem, d, v, v + 1) && AtPage(mem, d, v) == ABSENT
      ensures owner' == owner - {AtPage(old(mem), d, v).frame}
      ensures Shrank(old(mem), old(free), owner, mem, free, owner')
    {
      hide FreeList, Pages, Space, At, Refers;
      ghost var w := Pages(free) + owner.Keys;
      SpaceMore(mem, d, owner);
      TableOwned(mem, d, owner, Pdx(v));
      PteIs(mem, d, v);
      PageOwned(mem, d, owner, v);
      var pa := mem[t].ptes[Ptx(v)].frame;
      ClearSpace(mem, d, owner, Pdx(v), Ptx(v));
      PteMap(mem, d, owner, Pdx(v), Ptx(v), ABSENT);
      ghost var mem1 := WithPte(mem, t, Ptx(v), ABSENT);
      MapsBut(mem, mem1, d, v);
      owner' := owner - {pa};
      Kfree(pa);
      FreeListOutside(mem, mem[t := Table(mem[t].ptes[Ptx(v) := ABSENT])], free, {t});
      mem := mem[t := Table(mem[t].ptes[Ptx(v) := ABSENT])];
      assert Outside(mem1, mem, {pa});
      SpaceOutside(mem1, mem, {pa}, d, owner');
      assert Outside(old(mem), mem, w);
      assert Pages(free) + owner'.Keys == w;
    }

    /** deallocuvm: unmaps and frees exactly the user pages from the new size up to the old one. */
    method Deallocuvm(d: nat, oldsz: nat, newsz: nat, ghost owner: Owner) returns (r: nat, ghost owner': Owner)
      requires Live(d, owner) && oldsz <= KERNBASE
      modifies this
      ensures Live(d, owner') && Shrank(old(mem), old(free), owner, mem, free, owner')
      ensures newsz >= oldsz ==> r == oldsz && mem == old(mem) && owner' == owner
      ensures newsz < oldsz ==> r == newsz && owner' == Without(owner, RoundUp(newsz), RoundUp(oldsz))
      ensures newsz < oldsz ==> SamePages(old(mem), mem, d, RoundUp(newsz), RoundUp(oldsz))
      ensures newsz < oldsz ==> AllAbsent(mem, d, RoundUp(newsz), RoundUp(oldsz))
    {
      hide FreeList, Pages, Space, At, Shrank, Without;
      ShrankNone(mem, free, d, owner);
      if newsz >= oldsz {
        return oldsz, owner;
      }
      ghost var lo, hi := RoundUp(newsz), RoundUp(oldsz);
      owner' := owner;
      WithoutNone(owner, lo);
      var a := RoundUp(newsz);
      while a * PGSIZE < oldsz
        invariant lo <= a && Live(d, owner') && owner' == Without(owner, lo, if a < hi then a else hi)
        invariant Shrank(old(mem), old(free), owner, mem, free, owner')
        invariant SamePages(old(mem), mem, d, lo, if a < hi then a else hi) && AllAbsent(mem, d, lo, if a < hi then a else hi)
        decreases hi - a
      {
        var t;
        t, owner' := Walk(d, a, false, owner');
        if t == 0 {
          var a1 := (Pdx(a) + 1) * NENT - 1;
          NoTable(mem, d, owner', owner, lo, a, if a1 + 1 < hi then a1 + 1 else hi);
          a := a1;
        } else if mem[t].ptes[Ptx(a)].present {
          PteIs(mem, d, a);
          ghost var mem1, free1, owner1 := mem, free, owner';
          OneLess(mem, d, owner', owner, lo, a);
          owner' := ClearOne(d, t, a, owner');
          ShrankTrans(old(mem), old(free), owner, mem1, free1, owner1, mem, free, owner');
        } else {
          PteIs(mem, d, a);
          NotMapped(mem, d, owner', owner, lo, a, a + 1);
        }
        a := a + 1;
      }
      return newsz, owner';
    }

    /** freevm returns exactly what the directory owns. */
    method Freevm(d: nat, ghost owner: Owner)
      requires Live(d, owner)
      modifies this
      ensures Valid() && Pages(free) == Pages(old(free)) + owner.Keys
      ensures Outside(old(mem), mem, Pages(old(free)) + owner.Keys)
    {
      hide FreeList, Pages, Space, At, Shrank, Without, AllAbsent, SamePages, Tables;
      ghost var w := Pages(free) + owner.Keys;
      ghost var o1;
      var sz;
      sz, o1 := Deallocuvm(d, KERNBASE, 0, owner);
      ShrankFacts(old(mem), old(free), owner, mem, free, o1);
      NoPagesLeft(mem, d, o1, owner);
      ghost var mem1, free1 := mem, free;
      NoTablesYet(o1);
      SpaceMore(mem, d, o1);
      for i := 0 to NENT
        invariant Valid() && d in mem && mem[d] == mem1[d] && Pages(free) == Pages(free1) + Tables(o1, i)
        invariant Outside(mem1, mem, o1.Keys)
      {
        OneTable(mem1, d, o1, i);
        if mem[d].entries[i] != 0 {
          Kfree(mem[d].entries[i]);
        }
      }
      DirAndTables(mem1, d, o1);
      Kfree(d);
    }

    /** One round of setupkvm's loop. It never finds a page mapped already. */
    method MapRow(d: nat, k: nat, data: nat, ghost owner: Owner) returns (ok: bool, ghost owner': Owner)
      requires Live(d, owner) && DataOk(data) && k < 4
      requires forall v: nat | v < NPAGES :: AtPage(mem, d, v) == KernelPte(v, data, k)
      modifies this
      ensures Live(d, owner') && Grew(old(mem), old(free), owner, mem, free, owner') && Formed(mem, d)
      ensures !ok ==> free == [] && |old(free)| < Missing(Ents(old(mem), d), RowStart(k, data / PGSIZE), RowEnd(k, data / PGSIZE))
      ensures ok ==>
                && TablesFor(Ents(old(mem), d), Ents(mem, d), RowStart(k, data / PGSIZE), RowEnd(k, data / PGSIZE))
                && |old(free)| == |free| + Missing(Ents(old(mem), d), RowStart(k, data / PGSIZE), RowEnd(k, data / PGSIZE))
      ensures ok ==> forall v: nat | v < NPAGES :: AtPage(mem, d, v) == KernelPte(v, data, k + 1)
    {
      hide FreeList, Pages, Space, At, Grew, KernelPte, KmapEntry, UserPages, Given, Handed, DataOk, Missing, TablesFor, RowStart, RowEnd;
      var e := KmapEntry(k, data);
      var size := (e.physEnd + TOP - e.physStart) % TOP;
      KmapFacts(data, k);
      RowSize(data, k);
      PagesOf(RowStart(k, data / PGSIZE), RowEnd(k, data / PGSIZE));
      KernelGiven(owner, e.virt / PGSIZE, (e.virt + size - 1) / PGSIZE + 1, e.physStart / PGSIZE);
      var panic;
      ghost var n;
      ok, panic, n, owner' := Mappages(d, e.virt, size, e.physStart, e.perm, owner);
      KernelGiven(owner', e.virt / PGSIZE, n, e.physStart / PGSIZE);
      assert !panic;
      if ok {
        KernelPteMore(old(mem), mem, d, data, k);
      } else {
        MissingLess(Ents(old(mem), d), Ents(mem, d), e.virt / PGSIZE, n, RowEnd(k, data / PGSIZE));
      }
    }

    /** setupkvm's loop over the rows of the kernel's map. */
    method MapKernel(d: nat, data: nat, ghost owner: Owner) returns (ok: bool, ghost owner': Owner)
      requires Live(d, owner) && DataOk(data) && KernelTables(Ents(mem, d), 0, data / PGSIZE)
      requires forall v: nat | v < NPAGES :: AtPage(mem, d, v) == KernelPte(v, data, 0)
      modifies this
      ensures Live(d, owner') && Grew(old(mem), old(free), owner, mem, free, owner') && Formed(mem, d)
      ensures ok <==> |old(free)| >= KERNELPAGES - 1
      ensures ok ==> |old(free)| == |free| + KERNELPAGES - 1 && KernelTables(Ents(mem, d), 4, data / PGSIZE)
      ensures ok ==> forall v: nat | v < NPAGES :: AtPage(mem, d, v) == KernelPte(v, data, 4)
    {
      DataPage(data);
      KernelUseEnds(data / PGSIZE);
      hide FreeList, Pages, Space, At, Grew, KernelPte, DataOk, KernelTables, KernelUse, TablesFor, Missing, RowStart, RowEnd;
      owner' := owner;
      GrewNone(mem, free, d, owner);
      var k := 0;
      while k < 4
        invariant k <= 4 && Live(d, owner') && Grew(old(mem), old(free), owner, mem, free, owner')
        invariant KernelTables(Ents(mem, d), k, data / PGSIZE) && |old(free)| == |free| + KernelUse(k, data / PGSIZE)
        invariant Formed(mem, d) && forall v: nat | v < NPAGES :: AtPage(mem, d, v) == KernelPte(v, data, k)
      {
        ghost var mem1, free1, owner1 := mem, free, owner';
        ok, owner' := MapRow(d, k, data, owner');
        RowTables(Ents(mem1, d), Ents(mem, d), k, data / PGSIZE);
        GrewTrans(old(mem), old(free), owner, mem1, free1, owner1, mem, free, owner');
        if !ok {
          return;
        }
        k := k + 1;
      }
      ok := true;
    }

    /** setupkvm: a directory with the kernel's mappings only, or every page back on the list. */
    method Setupkvm(data: nat) returns (r: nat, ghost owner: Owner)
      requires Valid() && DataOk(data)
      modifies this
      ensures Valid() && Outside(old(mem), mem, Pages(old(free)))
      ensures r == 0 ==> Pages(free) == Pages(old(free))
      ensures r == 0 <==> |old(free)| < KERNELPAGES
      ensures r != 0 ==> |old(free)| == |free| + KERNELPAGES && KernelTables(Ents(mem, r), 4, data / PGSIZE)
      ensures r != 0 ==> Live(r, owner) && Pages(free) + owner.Keys == Pages(old(free))
      ensures r != 0 ==> Formed(mem, r) && forall v: nat | v < NPAGES :: AtPage(mem, r, v) == KernelPte(v, data, 4)
    {
      hide FreeList, Pages, Space, At, Grew, KernelPte, DataOk, KernelTables;
      owner := map[];
      var d := Kalloc();
      if d == 0 {
        return 0, owner;
      }
      mem := mem[d := Dir(seq(NENT, _ => 0))];
      EmptySpace(mem, d);
      FreeListOutside(old(mem), mem, free, {d});
      owner := map[d := DirSlot];
      ghost var mem1, free1, owner1 := mem, free, owner;
      KernelPteNone(data);
      NoKernelTables(Ents(mem, d), data / PGSIZE);
      var ok;
      ok, owner := MapKernel(d, data, owner);
      GrewFacts(mem1, free1, owner1, mem, free, owner);
      if !ok {
        Freevm(d, owner);
        return 0, owner;
      }
      r := d;
    }

    /** A page just allocated is given contents. */
    method Initialize(m: nat, page: Page, ghost d: nat, ghost owner: Owner)
      requires Live(d, owner) && m in mem && m !in owner && m !in Pages(free)
      modifies this`mem
      ensures mem == old(mem)[m := page] && Live(d, owner) && SamePages(old(mem), mem, d, 0, 0)
      ensures DataKept(old(mem), mem, owner)
    {
      hide FreeList, Pages, Space, At;
      SpaceMore(mem, d, owner);
      mem := mem[m := page];
      SpaceOutside(old(mem), mem, {m}, d, owner);
      SpaceMore(mem, d, owner);
      FreeListOutside(old(mem), mem, free, {m});
    }

    /** mappages for one user page, as all its other callers use it. */
    method MapPage(d: nat, v: nat, frame: nat, flags: nat, ghost owner: Owner) returns (ok: bool, ghost owner': Owner)
      requires Live(d, owner) && v < KERNPAGE && !AtPage(mem, d, v).present && OwnPage(frame, owner)
      modifies this
      ensures Live(d, owner') && SamePages(old(mem), mem, d, v, if ok then v + 1 else v)
      ensures ok ==> AtPage(mem, d, v) == Pte(true, frame, flags)
      ensures ok ==> frame in owner' && owner'[frame] == PageSlot(Pdx(v), Ptx(v)) && mem[frame] == old(mem)[frame]
      ensures Grew(old(mem), old(free), owner, mem, free, if ok then owner' - {frame} else owner')
      ensures ok ==> TablesFor(Ents(old(mem), d), Ents(mem, d), v, v + 1) && |old(free)| == |free| + Missing(Ents(old(mem), d), v, v + 1)
      ensures !ok ==> |old(free)| < Missing(Ents(old(mem), d), v, v + 1)
    {
      hide FreeList, Pages, Space, At, Grew, UserPages, Given, Missing, TablesFor;
      OnePage(v, frame);
      var panic;
      ghost var n;
      ok, panic, n, owner' := Mappages(d, v * PGSIZE, PGSIZE, frame * PGSIZE, flags, owner);
      GrewFacts(old(mem), old(free), owner, mem, free, owner' - Given(v, n, frame));
      assert owner' - {} == owner';
      if !ok {
        MissingLess(Ents(old(mem), d), Ents(mem, d), v, v, v + 1);
      }
    }

    /** kalloc, fill the page and map it: what the loops of allocuvm and copyuvm share. When the
        mapping fails the page in hand is `spare`, for the caller to free. */
    method MapNew(d: nat, v: nat, content: Content, flags: nat, ghost owner: Owner)
      returns (ok: bool, spare: nat, ghost owner': Owner)
      requires Live(d, owner) && v < KERNPAGE && !AtPage(mem, d, v).present
      modifies this
      ensures Live(d, owner') && SamePages(old(mem), mem, d, v, if ok then v + 1 else v)
      ensures Outside(old(mem), mem, Pages(old(free)) + owner.Keys) && DataKept(old(mem), mem, owner)
      ensures ok ==> AtPage(mem, d, v).present && AtPage(mem, d, v).flags == flags && Holds(mem, AtPage(mem, d, v).frame, content)
      ensures ok ==> AtPage(mem, d, v).frame in Pages(old(free))
      ensures ok ==> Pages(free) + owner'.Keys == Pages(old(free)) + owner.Keys && AddedPage(owner, owner', v)
      ensures !ok ==> MoreTables(owner, owner')
      ensures !ok ==> Pages(free) + owner'.Keys + Spare(spare) == Pages(old(free)) + owner.Keys
      ensures !ok && spare != 0 ==> spare in mem && spare !in owner' && spare !in Pages(free)
      ensures ok ==> TablesFor(Ents(old(mem), d), Ents(mem, d), v, v + 1) && |old(free)| == |free| + 1 + Missing(Ents(old(mem), d), v, v + 1)
      ensures !ok ==> |old(free)| < 1 + Missing(Ents(old(mem), d), v, v + 1)
    {
      hide FreeList, Pages, Space, At, Grew, Refers, Missing, TablesFor;
      ghost var w := Pages(free) + owner.Keys;
      SpaceMore(mem, d, owner);
      DirOwned(mem, d, owner);
      spare := Kalloc();
      if spare == 0 {
        return false, 0, owner;
      }
      Initialize(spare, Data(content), d, owner);
      ghost var mem1, free1 := mem, free;
      ok, owner' := MapPage(d, v, spare, flags, owner);
      GrewFacts(mem1, free1, owner, mem, free, if ok then owner' - {spare} else owner');
      SpaceMore(mem, d, owner');
      assert ok ==> AddedPage(owner, owner', v) by {
        if ok { assert AddedAt(owner, owner', v, spare); }
      }
      OutsideJoin(old(mem), mem1, mem, w, Pages(free1) + owner.Keys, spare);
      KeptJoin(old(mem), mem1, mem, owner, owner);
      assert ok ==> Pages(free) + owner'.Keys == w;
    }

    /** deallocuvm as allocuvm calls it when it fails, then kfree of the page in hand if there is one. */
    method Undo(d: nat, newsz: nat, oldsz: nat, spare: nat, ghost owner: Owner) returns (ghost owner': Owner)
      requires Live(d, owner) && oldsz < newsz <= KERNBASE
      requires (spare != 0 ==> spare in mem && spare !in owner && spare !in Pages(free))
      modifies this
      ensures Live(d, owner') && owner' == Without(owner, RoundUp(oldsz), RoundUp(newsz))
      ensures SamePages(old(mem), mem, d, RoundUp(oldsz), RoundUp(newsz))
      ensures AllAbsent(mem, d, RoundUp(oldsz), RoundUp(newsz))
      ensures var w := Pages(old(free)) + owner.Keys + Spare(spare); Pages(free) + owner'.Keys == w && Outside(old(mem), mem, w)
      ensures DataKept(old(mem), mem, owner')
    {
      hide FreeList, Pages, Space, At, Shrank, Without, Refers;
      var r;
      r, owner' := Deallocuvm(d, newsz, oldsz, owner);
      ShrankFacts(old(mem), old(free), owner, mem, free, owner');
      if spare != 0 {
        ghost var mem1 := mem;
        assert spare !in owner' && spare !in Pages(free);
        Kfree(spare);
        SpaceOutside(mem1, mem, {spare}, d, owner');
        SpaceMore(mem, d, owner');
        PagesTrans(old(mem), mem1, mem, d, RoundUp(oldsz), RoundUp(newsz));
      }
    }

    /** allocuvm. When it fails every mapping is as before; no page is lost, at most some page tables
        stay behind. `ok` says which, since a size of 0 reads like a failure. */
    method Allocuvm(d: nat, oldsz: nat, newsz: nat, ghost owner: Owner) returns (r: nat, ghost ok: bool, ghost owner': Owner)
      requires Live(d, owner)
      requires forall v: nat | RoundUp(oldsz) <= v < RoundUp(newsz) && newsz < KERNBASE :: !AtPage(mem, d, v).present
      modifies this
      ensures Live(d, owner')
      ensures newsz >= KERNBASE ==> r == 0 && !ok
      ensures newsz < oldsz && newsz < KERNBASE ==> r == oldsz && ok && mem == old(mem) && owner' == owner
      ensures oldsz <= newsz < KERNBASE ==> r == if ok then newsz else 0
      ensures !ok ==> SamePages(old(mem), mem, d, 0, 0) && Grew(old(mem), old(free), owner, mem, free, owner')
      ensures ok && oldsz <= newsz ==> Enlarged(old(mem), old(free), owner, mem, free, owner', d, RoundUp(oldsz), RoundUp(newsz))
      ensures oldsz <= newsz < KERNBASE ==>
                (ok <==> |old(free)| >= RoundUp(newsz) - RoundUp(oldsz) + Missing(Ents(old(mem), d), RoundUp(oldsz), RoundUp(newsz)))
    {
      hide FreeList, Pages, Space, At, Shrank, Without, Refers, Grew, DataKept, MoreTables, AddedPage, Holds, AllAbsent, Outside, Missing, TablesFor;
      GrewNone(mem, free, d, owner);
      owner' := owner;
      ok := false;
      if newsz >= KERNBASE {
        return 0, false, owner;
      }
      if newsz < oldsz {
        return oldsz, true, owner;
      }
      ghost var lo, hi := RoundUp(oldsz), RoundUp(newsz);
      EnlargedNone(mem, free, owner, d, lo, hi);
      ghost var e0 := Ents(mem, d);
      NoTablesFor(e0, lo);
      var a := RoundUp(oldsz);
      while a * PGSIZE < newsz
        invariant lo <= a <= hi && Live(d, owner')
        invariant Enlarging(old(mem), old(free), owner, mem, free, owner', d, lo, a, hi)
        invariant TablesFor(e0, Ents(mem, d), lo, a) && |old(free)| == |free| + a - lo + Missing(e0, lo, a)
        decreases hi - a
      {
        ghost var mem1, free1, owner1 := mem, free, owner';
        var mapped, spare;
        EnlargingAbsent(old(mem), old(free), owner, mem, free, owner', d, lo, a, hi);
        mapped, spare, owner' := MapNew(d, a, seq(PGSIZE, _ => 0), PTE_W + PTE_U, owner');
        MissingAt(e0, Ents(mem1, d), lo, a, hi);
        if !mapped {
          ghost var mem2, free2, owner2 := mem, free, owner';
          owner' := Undo(d, newsz, oldsz, spare, owner');
          Undone(old(mem), old(free), owner, mem1, free1, owner1, mem2, free2, owner2, spare, mem, free, owner', d, lo, a, hi);
          return 0, false, owner';
        }
        MissingMore(e0, Ents(mem1, d), Ents(mem, d), lo, a);
        EnlargingStep(old(mem), old(free), owner, mem1, free1, owner1, mem, free, owner', d, lo, a, hi);
        a := a + 1;
      }
      EnlargingDone(old(mem), old(free), owner, mem, free, owner', d, lo, a, hi);
      return newsz, true, owner';
    }

    /** copyuvm's read of the parent's entry; `found` is false where the code panics. */
    method ParentPage(d0: nat, v: nat, ghost owner0: Owner) returns (found: bool, content: Content, flags: nat)
      requires Live(d0, owner0) && v < KERNPAGE
      modifies this
      ensures mem == old(mem) && free == old(free) && freelist == old(freelist)
      ensures found == AtPage(mem, d0, v).present
      ensures found ==> flags == AtPage(mem, d0, v).flags
      ensures found ==> Holds(mem, AtPage(mem, d0, v).frame, content) && AtPage(mem, d0, v).frame in owner0
    {
      hide FreeList, Pages, Space, At, Refers;
      SpaceMore(mem, d0, owner0);
      NoTableAbsent(mem, d0, v);
      ghost var o0;
      var t;
      t, o0 := Walk(d0, v, false, owner0);
      if t == 0 {
        return false, [], 0;
      }
      PteIs(mem, d0, v);
      if !mem[t].ptes[Ptx(v)].present {
        return false, [], 0;
      }
      PageOwned(mem, d0, owner0, v);
      return true, mem[mem[t].ptes[Ptx(v)].frame].content, mem[t].ptes[Ptx(v)].flags;
    }

    /** The body of copyuvm's loop: page `v` of the parent copied into the child. */
    method CopyOne(d0: nat, d: nat, v: nat, ghost owner0: Owner, ghost owner: Owner)
      returns (ok: bool, panic: bool, ghost owner': Owner)
      requires Live(d0, owner0) && Live(d, owner) && v < KERNPAGE && !AtPage(mem, d, v).present
      modifies this
      ensures Live(d, owner') && Pages(free) + owner'.Keys == Pages(old(free)) + owner.Keys
      ensures Outside(old(mem), mem, Pages(old(free)) + owner.Keys) && DataKept(old(mem), mem, owner)
      ensures panic <==> !AtPage(old(mem), d0, v).present
      ensures ok ==> !panic && SamePages(old(mem), mem, d, v, v + 1) && Copied(old(mem), d0, mem, d, v)
      ensures ok ==> TablesFor(Ents(old(mem), d), Ents(mem, d), v, v + 1) && |old(free)| == |free| + 1 + Missing(Ents(old(mem), d), v, v + 1)
      ensures !ok && !panic ==> |old(free)| < 1 + Missing(Ents(old(mem), d), v, v + 1)
    {
      hide FreeList, Pages, Space, At, AddedPage, MoreTables, DataKept, Missing, TablesFor;
      SpaceMore(mem, d0, owner0);
      SpaceMore(mem, d, owner);
      var found, content, flags := ParentPage(d0, v, owner0);
      if !found {
        return false, true, owner;
      }
      var spare;
      ok, spare, owner' := MapNew(d, v, content, flags, owner);
      panic := false;
      if !ok && spare != 0 {
        ghost var mem2 := mem;
        Kfree(spare);
        SpaceOutside(mem2, mem, {spare}, d, owner');
        SpareKept(old(mem), mem2, mem, owner, owner', spare);
      }
    }

    /** copyuvm: the child gets a copy of every page below `sz` and the kernel's mappings; on failure
        every page taken is back on the free list. The parent is not touched. It panics only over a
        page below `sz` that the parent does not have, and returns a child only if there is none. */
    method Copyuvm(d0: nat, sz: nat, data: nat, ghost owner0: Owner) returns (r: nat, panic: bool, ghost owner: Owner)
      requires Live(d0, owner0) && DataOk(data) && sz <= KERNBASE
      modifies this
      ensures Live(d0, owner0) && SamePages(old(mem), mem, d0, 0, 0) && Outside(old(mem), mem, Pages(old(free)))
      ensures panic ==> r == 0 && exists v: nat :: v < RoundUp(sz) && !AtPage(old(mem), d0, v).present
      ensures r == 0 && !panic ==> Pages(free) == Pages(old(free))
      ensures !panic ==> (r != 0 <==> |old(free)| >= KERNELPAGES + RoundUp(sz) + (RoundUp(sz) + NENT - 1) / NENT)
      ensures r != 0 ==> Live(r, owner) && Pages(free) + owner.Keys == Pages(old(free))
      ensures r != 0 ==> forall v: nat | v < RoundUp(sz) :: Copied(old(mem), d0, mem, r, v)
      ensures r != 0 ==> forall v: nat | RoundUp(sz) <= v < NPAGES :: Formed(mem, r) && AtPage(mem, r, v) == KernelPte(v, data, 4)
    {
      hide FreeList, Pages, Space, At, Refers, Copied, KernelPte, AddedPage, DataKept, Missing, TablesFor, KernelTables;
      ghost var w := Pages(free);
      SpaceMore(mem, d0, owner0);
      panic := false;
      var d;
      d, owner := Setupkvm(data);
      ParentKept(old(mem), mem, w, d0, owner0);
      if d == 0 {
        return 0, false, owner;
      }
      KernelBelow(data);
      SpaceMore(mem, d, owner);
      ghost var e0, pages := Ents(mem, d), RoundUp(sz);
      UserTables(e0, data / PGSIZE, pages);
      NoTablesFor(e0, 0);
      var i := 0;
      while i * PGSIZE < sz
        invariant i <= RoundUp(sz) && Live(d, owner) && Pages(free) + owner.Keys == w && Outside(old(mem), mem, w)
        invariant Live(d0, owner0) && SamePages(old(mem), mem, d0, 0, 0)
        invariant TablesFor(e0, Ents(mem, d), 0, i) && |old(free)| == |free| + KERNELPAGES + i + Missing(e0, 0, i)
        invariant forall v: nat | v < i :: Copied(old(mem), d0, mem, d, v)
        invariant Formed(mem, d) && forall v: nat | i <= v < NPAGES :: AtPage(mem, d, v) == KernelPte(v, data, 4)
        decreases RoundUp(sz) - i
      {
        ghost var mem1, owner1 := mem, owner;
        var ok;
        ok, panic, owner := CopyOne(d0, d, i, owner0, owner);
        MissingAt(e0, Ents(mem1, d), 0, i, pages);
        OutsideTrans(old(mem), mem1, mem, w);
        ParentKept(old(mem), mem, w, d0, owner0);
        if panic {
          assert !AtPage(old(mem), d0, i).present;
          return 0, true, owner;
        }
        if !ok {
          ghost var mem2 := mem;
          Freevm(d, owner);
          OutsideTrans(old(mem), mem2, mem, w);
          ParentKept(old(mem), mem, w, d0, owner0);
          return 0, false, owner;
        }
        MissingMore(e0, Ents(mem1, d), Ents(mem, d), 0, i);
        FrameKept(old(mem), mem1, w, d0, owner0, i);
        CopiesKept(old(mem), d0, mem1, mem, d, owner1, i);
        SameCopy(old(mem), mem1, mem, d0, d, i);
        i := i + 1;
      }
      return d, false, owner;
    }

    /** The page a user mapping is given belongs to nobody yet. */
    ghost predicate OwnPage(f: nat, owner: Owner)
      reads this
    {
      InHand(mem, free, owner, f)
    }
  }

  /** How many of the pages `lo` to `hi` are user pages. */
  function UserPages(lo: nat, hi: nat): nat {
    if lo < hi && lo < KERNPAGE then (if hi < KERNPAGE then hi else KERNPAGE) - lo else 0
  }

  /** The frames given to the user pages among `lo` to `hi`, from frame `p` on. */
  ghost function Given(lo: nat, hi: nat, p: nat): (s: set<nat>)
    ensures forall f: nat :: f in s <==> IsGiven(lo, hi, p, f)
  {
    set f: nat | p <= f < p + UserPages(lo, hi) && IsGiven(lo, hi, p, f)
  }

  predicate IsGiven(lo: nat, hi: nat, p: nat, f: nat) { p <= f < p + UserPages(lo, hi) }

  ghost predicate Handed(owner: Owner, lo: nat, hi: nat, p: nat) {
    forall f: nat | p <= f < p + UserPages(lo, hi) ::
      f in owner && owner[f] == PageSlot(Pdx(lo + f - p), Ptx(lo + f - p))
  }

  lemma GivenNone(owner: Owner, lo: nat, p: nat)
    ensures UserPages(lo, lo) == 0 && owner - Given(lo, lo, p) == owner && Handed(owner, lo, lo, p)
  {
    assert forall f: nat :: !IsGiven(lo, lo, p, f);
    assert Given(lo, lo, p) == {};
  }

  lemma KernelGiven(owner: Owner, lo: nat, hi: nat, p: nat)
    requires lo >= KERNPAGE
    ensures owner - Given(lo, hi, p) == owner && UserPages(lo, hi) == 0
  {
    assert forall f: nat :: !IsGiven(lo, hi, p, f);
    assert Given(lo, hi, p) == {};
  }

  lemma OnePage(v: nat, p: nat)
    requires v < KERNPAGE
    ensures UserPages(v, v + 1) == 1 && Given(v, v + 1, p) == {p} && UserPages(v, v) == 0 && Given(v, v, p) == {}
  {
  }

  lemma OneMore(lo: nat, a: nat, hi: nat, p: nat)
    requires lo <= a < hi
    ensures UserPages(lo, a + 1) == UserPages(lo, a) + (if a < KERNPAGE then 1 else 0) <= UserPages(lo, hi)
    ensures a < KERNPAGE ==> UserPages(lo, a) == a - lo
    ensures Given(lo, a + 1, p) == Given(lo, a, p) + if a < KERNPAGE then {p + a - lo} else {}
  {
  }

  /** One more page mapped after those of `lo` to `a`. */
  lemma GivenMore(mem: Mem, free: seq<nat>, owner: Owner, mem1: Mem, free1: seq<nat>, owner1: Owner,
                  mem2: Mem, free2: seq<nat>, owner2: Owner, lo: nat, a: nat, p: nat)
    requires lo <= a && Grew(mem, free, owner, mem1, free1, owner1 - Given(lo, a, p)) && Handed(owner1, lo, a, p)
    requires a >= KERNPAGE ==> Grew(mem1, free1, owner1, mem2, free2, owner2)
    requires a < KERNPAGE ==>
               var f := p + a - lo;
               && Grew(mem1, free1, owner1, mem2, free2, owner2 - {f})
               && f !in owner1 && f in owner2 && owner2[f] == PageSlot(Pdx(a), Ptx(a))
    requires owner1.Keys !! Pages(free1) && owner2.Keys !! Pages(free2)
    ensures Grew(mem, free, owner, mem2, free2, owner2 - Given(lo, a + 1, p)) && Handed(owner2, lo, a + 1, p)
  {
    hide Pages, Pdx, Ptx;
    OneMore(lo, a, a + 1, p);
    if a < KERNPAGE {
      GrewBoth(mem, free, owner, mem1, free1, owner1, mem2, free2, owner2, Given(lo, a, p), {p + a - lo});
    } else {
      assert owner2 - {} == owner2;
      GrewBoth(mem, free, owner, mem1, free1, owner1, mem2, free2, owner2, Given(lo, a, p), {});
    }
  }

  ghost predicate InHand(mem: Mem, free: seq<nat>, owner: Owner, f: nat) {
    f != 0 && f !in owner && f !in Pages(free) && f in mem && mem[f].Data?
  }

  lemma NotOwned(mem: Mem, free: seq<nat>, owner: Owner, f: nat)
    requires InHand(mem, free, owner, f)
    ensures f !in owner
  {
  }

  lemma StillInHand(mem: Mem, free: seq<nat>, owner: Owner, mem': Mem, free': seq<nat>, owner': Owner, x: set<nat>, f: nat)
    requires InHand(mem, free, owner, f) && Grew(mem, free, owner, mem', free', owner' - x) && f !in x
    ensures InHand(mem', free', owner', f)
  {
    hide Pages;
    assert f !in Pages(free') + (owner' - x).Keys;
  }

  lemma GrewBoth(mem: Mem, free: seq<nat>, owner: Owner, mem1: Mem, free1: seq<nat>, owner1: Owner,
                 mem2: Mem, free2: seq<nat>, owner2: Owner, s: set<nat>, x: set<nat>)
    requires Grew(mem, free, owner, mem1, free1, owner1 - s) && Grew(mem1, free1, owner1, mem2, free2, owner2 - x)
    requires s <= owner1.Keys && x <= owner2.Keys && x !! owner1.Keys && forall f <- s :: owner1[f].PageSlot?
    requires owner1.Keys !! Pages(free1) && owner2.Keys !! Pages(free2)
    ensures Grew(mem, free, owner, mem2, free2, owner2 - (s + x))
  {
    hide Pages;
  }

  // ---------------------------------------------------------------- how many tables are needed

  function Ents(mem: Mem, d: nat): (e: seq<nat>)
    ensures IsDir(mem, d) ==> |e| == NENT
  {
    if d in mem && mem[d].Dir? then mem[d].entries else []
  }

  /** The directory entries from `a` up to `b` that have no table. */
  function Zeros(e: seq<nat>, a: nat, b: nat): nat
    requires b <= |e|
  {
    if a >= b then 0 else Zeros(e, a, b - 1) + if e[b - 1] == 0 then 1 else 0
  }

  /** How many tables the pages `lo` to `hi` need that are not there. */
  function Missing(e: seq<nat>, lo: nat, hi: nat): nat
    requires |e| == NENT && hi <= NPAGES
  {
    if lo < hi then Zeros(e, Pdx(lo), Pdx(hi - 1) + 1) else 0
  }

  /** Exactly the tables for pages `lo` to `hi` were added. */
  ghost predicate TablesFor(e: seq<nat>, e': seq<nat>, lo: nat, hi: nat) {
    && |e'| == |e|
    && forall i | 0 <= i < |e| :: e'[i] == 0 <==> e[i] == 0 && !(lo < hi && Pdx(lo) <= i <= Pdx(hi - 1))
  }

  lemma NoTablesFor(e: seq<nat>, lo: nat)
    requires |e| == NENT && lo <= NPAGES
    ensures TablesFor(e, e, lo, lo) && Missing(e, lo, lo) == 0
  {
  }

  lemma OneTableMore(e: seq<nat>, i: nat, t: nat, v: nat)
    requires |e| == NENT && v < NPAGES && i == Pdx(v) && (e[i] != 0 ==> t == e[i])
    ensures t != 0 ==> TablesFor(e, e[i := t], v, v + 1)
    ensures Missing(e, v, v + 1) == if e[i] == 0 then 1 else 0
  {
    assert Zeros(e, i, i) == 0;
  }

  /** One more page needs a table if the directory has none for it yet. */
  lemma MissingMore(e: seq<nat>, e1: seq<nat>, e2: seq<nat>, lo: nat, a: nat)
    requires |e| == NENT && lo <= a < NPAGES && TablesFor(e, e1, lo, a) && TablesFor(e1, e2, a, a + 1)
    ensures TablesFor(e, e2, lo, a + 1) && Missing(e, lo, a + 1) == Missing(e, lo, a) + Missing(e1, a, a + 1)
  {
    var i := Pdx(a);
    OneTableMore(e1, i, e1[i], a);
    assert Zeros(e, i, i) == 0;
    if a > lo {
      assert Pdx(a - 1) == i || Pdx(a - 1) + 1 == i;
    }
  }

  lemma {:induction false} ZerosMore(e: seq<nat>, a: nat, b: nat, c: nat)
    requires b <= c <= |e|
    ensures Zeros(e, a, b) <= Zeros(e, a, c)
    decreases c
  {
    if b < c {
      ZerosMore(e, a, b, c - 1);
    }
  }

  lemma MissingGrows(e: seq<nat>, lo: nat, a: nat, hi: nat)
    requires |e| == NENT && lo <= a <= hi <= NPAGES
    ensures Missing(e, lo, a) <= Missing(e, lo, hi)
  {
    if lo < a {
      ZerosMore(e, Pdx(lo), Pdx(a - 1) + 1, Pdx(hi - 1) + 1);
    }
  }

  /** What page `a` needs is part of what the whole range needs. */
  lemma MissingAt(e: seq<nat>, e1: seq<nat>, lo: nat, a: nat, hi: nat)
    requires |e| == NENT && lo <= a < hi <= NPAGES && TablesFor(e, e1, lo, a)
    ensures |e1| == NENT && Missing(e, lo, a) + Missing(e1, a, a + 1) <= Missing(e, lo, hi)
  {
    var e2 := e1[Pdx(a) := if e1[Pdx(a)] == 0 then 1 else e1[Pdx(a)]];
    OneTableMore(e1, Pdx(a), e2[Pdx(a)], a);
    MissingMore(e, e1, e2, lo, a);
    MissingGrows(e, lo, a + 1, hi);
  }

  lemma MissingLess(e: seq<nat>, e1: seq<nat>, lo: nat, a: nat, hi: nat)
    requires |e| == NENT && lo <= a < hi <= NPAGES && TablesFor(e, e1, lo, a) && e1[Pdx(a)] == 0
    ensures Missing(e, lo, a) < Missing(e, lo, hi)
  {
    MissingAt(e, e1, lo, a, hi);
    OneTableMore(e1, Pdx(a), 1, a);
  }

  lemma TableOwned(mem: Mem, d: nat, owner: Owner, i: nat)
    requires Space(mem, d, owner) && i < NENT && mem[d].entries[i] != 0
    ensures IsTable(mem, mem[d].entries[i]) && mem[d].entries[i] in owner && owner[mem[d].entries[i]] == TableSlot(i)
  {
  }

  lemma MapsSame(mem: Mem, mem': Mem, d: nat)
    requires SameMap(mem, mem', d)
    ensures forall v: nat | v < NPAGES :: AtPage(mem', d, v) == AtPage(mem, d, v)
  {
  }

  lemma MapsBut(mem: Mem, mem': Mem, d: nat, a: nat)
    requires a < NPAGES && SameMapBut(mem, mem', d, Pdx(a), Ptx(a))
    ensures forall v: nat | v < NPAGES && v != a :: AtPage(mem', d, v) == AtPage(mem, d, v)
  {
  }

  lemma ChainKept(mem: Mem, mem1: Mem, mem2: Mem, owner: Owner, owner1: Owner, w: set<nat>)
    requires Outside(mem, mem1, w) && Outside(mem1, mem2, owner1.Keys) && owner1.Keys <= w
    requires MoreTables(owner, owner1) && DataKept(mem, mem1, owner) && DataKept(mem1, mem2, owner1)
    ensures Outside(mem, mem2, w) && DataKept(mem, mem2, owner)
  {
  }

  lemma PresentHasTable(mem: Mem, d: nat, owner: Owner, v: nat)
    requires Space(mem, d, owner) && v < NPAGES
    ensures AtPage(mem, d, v).present ==> mem[d].entries[Pdx(v)] != 0
  {
  }

  lemma PteIs(mem: Mem, d: nat, v: nat)
    requires Formed(mem, d) && v < NPAGES && mem[d].entries[Pdx(v)] != 0
    ensures IsTable(mem, mem[d].entries[Pdx(v)])
    ensures var pte := mem[mem[d].entries[Pdx(v)]].ptes[Ptx(v)]; AtPage(mem, d, v) == if pte.present then pte else ABSENT
  {
  }

  lemma PageOwned(mem: Mem, d: nat, owner: Owner, v: nat)
    requires Space(mem, d, owner) && v < KERNPAGE && AtPage(mem, d, v).present
    ensures var f := AtPage(mem, d, v).frame;
            f in owner && owner[f] == PageSlot(Pdx(v), Ptx(v)) && f != 0 && f in mem && mem[f].Data?
  {
  }

  /** The pages still owned after pages `lo` to `hi` were given up. */
  ghost predicate InPages(s: Slot, lo: nat, hi: nat) { s.PageSlot? && lo <= s.i * NENT + s.j < hi }

  ghost function Without(owner: Owner, lo: nat, hi: nat): Owner {
    map f | f in owner && !InPages(owner[f], lo, hi) :: owner[f]
  }

  ghost predicate AllAbsent(mem: Mem, d: nat, lo: nat, hi: nat) {
    hi <= NPAGES && Formed(mem, d) && forall v: nat | lo <= v < hi :: AtPage(mem, d, v) == ABSENT
  }

  /** An address space after some pages went to the free list. */
  ghost predicate Shrank(mem: Mem, free: seq<nat>, owner: Owner, mem': Mem, free': seq<nat>, owner': Owner) {
    && Pages(free') + owner'.Keys == Pages(free) + owner.Keys
    && Outside(mem, mem', Pages(free) + owner.Keys)
    && (forall f <- owner' :: f in owner && owner'[f] == owner[f])
    && DataKept(mem, mem', owner')
  }

  lemma ShrankNone(mem: Mem, free: seq<nat>, d: nat, owner: Owner)
    requires Space(mem, d, owner)
    ensures Formed(mem, d) && Shrank(mem, free, owner, mem, free, owner)
  {
  }

  lemma ShrankTrans(mem: Mem, free: seq<nat>, owner: Owner,
                    mem1: Mem, free1: seq<nat>, owner1: Owner,
                    mem2: Mem, free2: seq<nat>, owner2: Owner)
    requires Shrank(mem, free, owner, mem1, free1, owner1) && Shrank(mem1, free1, owner1, mem2, free2, owner2)
    ensures Shrank(mem, free, owner, mem2, free2, owner2)
  {
  }

  lemma WithoutNone(owner: Owner, lo: nat)
    ensures Without(owner, lo, lo) == owner
  {
  }

  /** Pages that are not mapped are owned by nobody. */
  lemma NotMapped(mem: Mem, d: nat, owner1: Owner, owner: Owner, lo: nat, a: nat, b: nat)
    requires Space(mem, d, owner1) && owner1 == Without(owner, lo, a) && lo <= a <= b <= NPAGES
    requires forall v: nat | a <= v < b :: !AtPage(mem, d, v).present
    requires AllAbsent(mem, d, lo, a)
    ensures owner1 == Without(owner, lo, b) && AllAbsent(mem, d, lo, b)
  {
    forall f | f in owner1
      ensures !InPages(owner1[f], a, b)
    {
      assert Refers(mem, d, owner1[f], f);
      if owner1[f].PageSlot? {
        SplitPage(owner1[f].i, owner1[f].j);
        assert AtPage(mem, d, owner1[f].i * NENT + owner1[f].j).present;
      }
    }
    assert owner1 == Without(owner, lo, b);
  }

  lemma SplitPage(i: nat, j: nat)
    requires j < NENT
    ensures Pdx(i * NENT + j) == i && Ptx(i * NENT + j) == j
  {
  }

  lemma NoTable(mem: Mem, d: nat, owner1: Owner, owner: Owner, lo: nat, a: nat, b: nat)
    requires Space(mem, d, owner1) && owner1 == Without(owner, lo, a) && lo <= a <= b <= (Pdx(a) + 1) * NENT <= NPAGES
    requires mem[d].entries[Pdx(a)] == 0 && AllAbsent(mem, d, lo, a)
    ensures owner1 == Without(owner, lo, b) && AllAbsent(mem, d, lo, b)
  {
    forall v: nat | a <= v < b
      ensures !AtPage(mem, d, v).present
    {
      assert Pdx(v) == Pdx(a);
    }
    NotMapped(mem, d, owner1, owner, lo, a, b);
  }

  /** Giving up the page mapped at `a`. */
  lemma OneLess(mem: Mem, d: nat, owner1: Owner, owner: Owner, lo: nat, a: nat)
    requires Space(mem, d, owner1) && owner1 == Without(owner, lo, a) && lo <= a < KERNPAGE && AtPage(mem, d, a).present
    ensures owner1 - {AtPage(mem, d, a).frame} == Without(owner, lo, a + 1)
  {
  }

  lemma ShrankFacts(mem: Mem, free: seq<nat>, owner: Owner, mem': Mem, free': seq<nat>, owner': Owner)
    requires Shrank(mem, free, owner, mem', free', owner')
    ensures Pages(free') + owner'.Keys == Pages(free) + owner.Keys && Outside(mem, mem', Pages(free) + owner.Keys)
    ensures (forall f <- owner' :: f in owner && owner'[f] == owner[f]) && DataKept(mem, mem', owner')
  {
  }

  lemma GrewFacts(mem: Mem, free: seq<nat>, owner: Owner, mem': Mem, free': seq<nat>, owner': Owner)
    requires Grew(mem, free, owner, mem', free', owner')
    ensures Pages(free') + owner'.Keys == Pages(free) + owner.Keys && Outside(mem, mem', Pages(free) + owner.Keys)
    ensures DataKept(mem, mem', owner) && MoreTables(owner, owner')
  {
  }

  /** The tables of the first `n` directory entries. */
  ghost function Tables(owner: Owner, n: nat): set<nat> {
    set f | f in owner && owner[f].TableSlot? && owner[f].i < n
  }

  lemma NoTablesYet(owner: Owner)
    ensures Tables(owner, 0) == {}
  {
  }

  lemma NoPagesLeft(mem: Mem, d: nat, owner': Owner, owner: Owner)
    requires Space(mem, d, owner') && owner' == Without(owner, 0, KERNPAGE)
    ensures forall f <- owner' :: !owner'[f].PageSlot?
  {
  }

  lemma OneTable(mem: Mem, d: nat, owner: Owner, i: nat)
    requires Space(mem, d, owner) && i < NENT
    ensures var f := mem[d].entries[i];
            if f == 0 then Tables(owner, i + 1) == Tables(owner, i)
            else f in owner && f in mem && f != d && f !in Tables(owner, i) && Tables(owner, i + 1) == Tables(owner, i) + {f}
  {
  }

  lemma DirAndTables(mem: Mem, d: nat, owner: Owner)
    requires Space(mem, d, owner) && forall f <- owner :: !owner[f].PageSlot?
    ensures owner.Keys == Tables(owner, NENT) + {d} && d !in Tables(owner, NENT) && d != 0
  {
  }

  // ---------------------------------------------------------------- the kernel's mappings

  datatype Kmap = Kmap(virt: nat, physStart: nat, physEnd: nat, perm: nat)

  /** Where the linker puts the kernel's data: page-aligned, behind the text. */
  predicate DataOk(data: nat) { KERNBASE + EXTMEM < data < KERNBASE + PHYSTOP && data % PGSIZE == 0 }

  /** The table at the top of vm.c; physEnd 0 stands for the top of the address space. */
  function KmapEntry(k: nat, data: nat): Kmap
    requires k < 4 && DataOk(data)
  {
    match k
    case 0 => Kmap(KERNBASE, 0, EXTMEM, PTE_W)
    case 1 => Kmap(KERNBASE + EXTMEM, EXTMEM, data - KERNBASE, 0)
    case 2 => Kmap(data, data - KERNBASE, PHYSTOP, PTE_W)
    case 3 => Kmap(DEVSPACE, DEVSPACE, 0, PTE_W)
  }

  predicate InKmap(k: nat, data: nat, v: nat)
    requires k < 4 && DataOk(data)
  {
    var e := KmapEntry(k, data);
    e.virt / PGSIZE <= v <= (e.virt + (e.physEnd + TOP - e.physStart) % TOP - 1) / PGSIZE
  }

  /** The entry the first `n` rows of the table ask for. */
  function KernelPte(v: nat, data: nat, n: nat): Pte
    requires n <= 4 && DataOk(data)
  {
    if n == 0 then ABSENT
    else if InKmap(n - 1, data, v) then
      var e := KmapEntry(n - 1, data);
      Pte(true, e.physStart / PGSIZE + v - e.virt / PGSIZE, e.perm)
    else KernelPte(v, data, n - 1)
  }

  /** A directory, 56 tables for physical memory and 8 for the devices. */
  const KERNELPAGES := 65

  /** Tables the first `k` rows need when data begins at page `q`. */
  function KernelUse(k: nat, q: nat): nat {
    if k == 0 then 0 else if k == 1 then 1 else if k == 2 then (if q > KERNPAGE then Pdx(q - 1) - 511 else 0)
    else if k == 3 then 56 else 64
  }

  predicate KernelTables(e: seq<nat>, k: nat, q: nat) {
    && |e| == NENT
    && forall i | 0 <= i < NENT ::
        e[i] != 0 <==> 512 <= i < 512 + KernelUse(if k < 3 then k else 3, q) || (k == 4 && i >= 1016)
  }

  lemma DataPage(data: nat)
    requires DataOk(data)
    ensures KERNPAGE + 256 < data / PGSIZE < KERNPAGE + 57344
  {
  }

  lemma KernelUseEnds(q: nat)
    ensures KernelUse(0, q) == 0 && KernelUse(4, q) == 64
  {
  }

  /** A directory with the kernel's tables only has none for user pages. */
  lemma UserTables(e: seq<nat>, q: nat, n: nat)
    requires KernelTables(e, 4, q) && n <= KERNPAGE
    ensures |e| == NENT && Missing(e, 0, n) == (n + NENT - 1) / NENT
  {
    if n > 0 {
      ZerosAre(e, 0, 0, Pdx(n - 1) + 1);
    }
  }

  lemma NoKernelTables(e: seq<nat>, q: nat)
    requires e == seq(NENT, _ => 0)
    ensures KernelTables(e, 0, q)
  {
  }

  lemma {:induction false} ZerosAre(e: seq<nat>, a: nat, m: nat, b: nat)
    requires a <= m <= b <= |e|
    requires (forall i | a <= i < m :: e[i] != 0) && (forall i | m <= i < b :: e[i] == 0)
    ensures Zeros(e, a, b) == b - m
    decreases b
  {
    if a < b {
      if m < b {
        ZerosAre(e, a, m, b - 1);
      } else {
        ZerosAre(e, a, m - 1, b - 1);
      }
    }
  }

  lemma RowTables(e: seq<nat>, e': seq<nat>, k: nat, q: nat)
    requires KernelTables(e, k, q) && k < 4 && KERNPAGE + 256 < q < KERNPAGE + 57344
    ensures Missing(e, RowStart(k, q), RowEnd(k, q)) == KernelUse(k + 1, q) - KernelUse(k, q) <= 64 - KernelUse(k, q)
    ensures TablesFor(e, e', RowStart(k, q), RowEnd(k, q)) ==> KernelTables(e', k + 1, q)
  {
    assert 512 <= Pdx(q - 1) <= 567 && (Pdx(q) == Pdx(q - 1) || Pdx(q) == Pdx(q - 1) + 1);
    match k
    case 0 => ZerosAre(e, 512, 512, 513);
    case 1 => ZerosAre(e, 512, 513, Pdx(q - 1) + 1);
    case 2 => ZerosAre(e, Pdx(q), Pdx(q - 1) + 1, 568);
    case 3 => ZerosAre(e, 1016, 1016, 1024);
  }

  lemma KernelPteNone(data: nat)
    requires DataOk(data)
    ensures forall v: nat :: KernelPte(v, data, 0) == ABSENT
  {
  }

  /** The first page of row `k`, whose data begins at page `q`; the row ends where the next begins
      except for the gap before the devices. */
  function RowStart(k: nat, q: nat): nat {
    if k == 0 then KERNPAGE else if k == 1 then KERNPAGE + EXTMEM / PGSIZE else if k == 2 then q else DEVSPACE / PGSIZE
  }

  function RowEnd(k: nat, q: nat): nat {
    if k == 2 then KERNPAGE + PHYSTOP / PGSIZE else if k == 3 then NPAGES else RowStart(k + 1, q)
  }

  lemma RowSize(data: nat, k: nat)
    requires DataOk(data) && k < 4
    ensures var e := KmapEntry(k, data); var size := (e.physEnd + TOP - e.physStart) % TOP;
            && e.virt >= KERNBASE && size >= 1 && e.virt + size <= TOP && e.physStart % PGSIZE == 0
            && e.virt == RowStart(k, data / PGSIZE) * PGSIZE && e.virt + size == RowEnd(k, data / PGSIZE) * PGSIZE
  {
  }

  lemma InRow(data: nat, k: nat, v: nat)
    requires DataOk(data) && k < 4
    ensures InKmap(k, data, v) <==> RowStart(k, data / PGSIZE) <= v < RowEnd(k, data / PGSIZE)
  {
    hide DataOk, KmapEntry, RowStart, RowEnd;
    RowSize(data, k);
    PagesOf(RowStart(k, data / PGSIZE), RowEnd(k, data / PGSIZE));
  }

  lemma PagesOf(a: nat, b: nat)
    requires b >= 1
    ensures a * PGSIZE / PGSIZE == a && (b * PGSIZE - 1) / PGSIZE == b - 1
  {
  }

  /** The rows do not overlap and stay above KERNBASE. */
  lemma KmapFacts(data: nat, k: nat)
    requires DataOk(data) && k < 4
    ensures var e := KmapEntry(k, data); var size := (e.physEnd + TOP - e.physStart) % TOP;
            e.virt >= KERNBASE && size >= 1 && e.virt + size <= TOP && e.physStart % PGSIZE == 0
    ensures forall v: nat | InKmap(k, data, v) :: KernelPte(v, data, k) == ABSENT
  {
    hide KmapEntry, InKmap, KernelPte;
    RowSize(data, k);
    forall v: nat | InKmap(k, data, v)
      ensures KernelPte(v, data, k) == ABSENT
    {
      InRow(data, k, v);
      forall l: nat | l < k
        ensures !InKmap(l, data, v)
      {
        InRow(data, l, v);
      }
      RowsBelow(v, data, k);
    }
  }

  lemma {:induction false} RowsBelow(v: nat, data: nat, k: nat)
    requires k <= 4 && DataOk(data) && forall l: nat | l < k :: !InKmap(l, data, v)
    ensures KernelPte(v, data, k) == ABSENT
  {
    if k > 0 {
      RowsBelow(v, data, k - 1);
    }
  }

  lemma KernelPteMore(mem: Mem, mem': Mem, d: nat, data: nat, k: nat)
    requires DataOk(data) && k < 4 && Formed(mem, d) && Formed(mem', d)
    requires var e := KmapEntry(k, data); var size := (e.physEnd + TOP - e.physStart) % TOP;
             && size >= 1 && SamePages(mem, mem', d, e.virt / PGSIZE, (e.virt + size - 1) / PGSIZE + 1)
             && e.virt + size <= TOP
             && forall v: nat | e.virt / PGSIZE <= v <= (e.virt + size - 1) / PGSIZE ::
                 AtPage(mem', d, v) == Pte(true, e.physStart / PGSIZE + v - e.virt / PGSIZE, e.perm)
    requires forall v: nat | v < NPAGES :: AtPage(mem, d, v) == KernelPte(v, data, k)
    ensures forall v: nat | v < NPAGES :: AtPage(mem', d, v) == KernelPte(v, data, k + 1)
  {
  }

  /** The kernel finds every byte of physical memory at KERNBASE plus its address and the devices at
      theirs, and nothing else is mapped. No page is for the user, and exactly the kernel's text and
      read-only data cannot be written. */
  lemma KernelWindow(v: nat, data: nat)
    requires DataOk(data) && v < NPAGES
    ensures v < KERNPAGE ==> KernelPte(v, data, 4) == ABSENT
    ensures KERNPAGE <= v < KERNPAGE + PHYSTOP / PGSIZE ==>
              KernelPte(v, data, 4).present && KernelPte(v, data, 4).frame == v - KERNPAGE
    ensures DEVSPACE / PGSIZE <= v ==> KernelPte(v, data, 4).present && KernelPte(v, data, 4).frame == v
    ensures KERNPAGE + PHYSTOP / PGSIZE <= v < DEVSPACE / PGSIZE ==> KernelPte(v, data, 4) == ABSENT
    ensures KernelPte(v, data, 4).present ==>
              KernelPte(v, data, 4).flags == if (KERNBASE + EXTMEM) / PGSIZE <= v < data / PGSIZE then 0 else PTE_W
  {
    InRow(data, 0, v);
    InRow(data, 1, v);
    InRow(data, 2, v);
    InRow(data, 3, v);
    hide InKmap;
    assert KernelPte(v, data, 1) == if InKmap(0, data, v) then Pte(true, v - KERNPAGE, PTE_W) else ABSENT;
    assert KernelPte(v, data, 2) == if InKmap(1, data, v) then Pte(true, v - KERNPAGE, 0) else KernelPte(v, data, 1);
    assert KernelPte(v, data, 3) == if InKmap(2, data, v) then Pte(true, v - KERNPAGE, PTE_W) else KernelPte(v, data, 2);
  }

  // ---------------------------------------------------------------- growing a process

  ghost predicate Holds(mem: Mem, f: nat, content: Content) { f in mem && mem[f] == Data(content) }

  ghost function Spare(spare: nat): set<nat> { if spare == 0 then {} else {spare} }

  ghost predicate AddedAt(owner: Owner, owner': Owner, a: nat, f: nat) {
    f !in owner && f in owner' && owner'[f] == PageSlot(Pdx(a), Ptx(a)) && MoreTables(owner, owner' - {f})
  }

  /** One user page, mapped at `a`, and perhaps a table. */
  ghost predicate AddedPage(owner: Owner, owner': Owner, a: nat) {
    exists f :: AddedAt(owner, owner', a, f)
  }

  /** allocuvm's loop at page `a`: the pages below it in the range are mapped to new zeroed pages. */
  ghost predicate Enlarging(mem: Mem, free: seq<nat>, owner: Owner, mem': Mem, free': seq<nat>, owner': Owner,
                            d: nat, lo: nat, a: nat, hi: nat) {
    && Pages(free') + owner'.Keys == Pages(free) + owner.Keys
    && Outside(mem, mem', Pages(free) + owner.Keys) && DataKept(mem, mem', owner)
    && MoreTables(owner, Without(owner', lo, hi))
    && lo <= a && hi <= KERNPAGE && SamePages(mem, mem', d, lo, a)
    && (forall v: nat | lo <= v < hi :: !AtPage(mem, d, v).present)
    && forall v: nat | lo <= v < a && v < hi :: NewPage(mem', owner', d, v)
  }

  ghost predicate NewPage(mem: Mem, owner: Owner, d: nat, v: nat)
    requires Formed(mem, d) && v < NPAGES
  {
    var pte := AtPage(mem, d, v);
    && pte.present && pte.flags == PTE_W + PTE_U && Holds(mem, pte.frame, seq(PGSIZE, _ => 0))
    && pte.frame in owner && owner[pte.frame] == PageSlot(Pdx(v), Ptx(v))
  }

  /** What allocuvm promises: the new range is mapped to zeroed pages that were free, nothing else
      is mapped differently, and nothing else is owned but page tables. */
  ghost predicate Enlarged(mem: Mem, free: seq<nat>, owner: Owner, mem': Mem, free': seq<nat>, owner': Owner,
                           d: nat, lo: nat, hi: nat) {
    && Pages(free') + owner'.Keys == Pages(free) + owner.Keys
    && Outside(mem, mem', Pages(free) + owner.Keys) && DataKept(mem, mem', owner)
    && MoreTables(owner, Without(owner', lo, hi))
    && hi <= KERNPAGE && SamePages(mem, mem', d, lo, hi)
    && forall v: nat | lo <= v < hi :: NewPage(mem', owner', d, v)
  }

  lemma NoneInRange(mem: Mem, owner: Owner, d: nat, lo: nat, hi: nat)
    requires Space(mem, d, owner) && hi <= KERNPAGE && forall v: nat | lo <= v < hi :: !AtPage(mem, d, v).present
    ensures Without(owner, lo, hi) == owner
  {
    forall f | f in owner
      ensures !InPages(owner[f], lo, hi)
    {
      assert Refers(mem, d, owner[f], f);
      if owner[f].PageSlot? {
        SplitPage(owner[f].i, owner[f].j);
        assert AtPage(mem, d, owner[f].i * NENT + owner[f].j).present;
      }
    }
  }

  lemma EnlargedNone(mem: Mem, free: seq<nat>, owner: Owner, d: nat, lo: nat, hi: nat)
    requires Space(mem, d, owner) && hi <= KERNPAGE && forall v: nat | lo <= v < hi :: !AtPage(mem, d, v).present
    ensures Enlarging(mem, free, owner, mem, free, owner, d, lo, lo, hi)
  {
    NoneInRange(mem, owner, d, lo, hi);
    SpaceMore(mem, d, owner);
  }

  lemma EnlargingAbsent(mem: Mem, free: seq<nat>, owner: Owner, mem': Mem, free': seq<nat>, owner': Owner,
                        d: nat, lo: nat, a: nat, hi: nat)
    requires Enlarging(mem, free, owner, mem', free', owner', d, lo, a, hi) && a < hi
    ensures Formed(mem', d) && a < NPAGES && !AtPage(mem', d, a).present
  {
  }

  lemma EnlargingDone(mem: Mem, free: seq<nat>, owner: Owner, mem': Mem, free': seq<nat>, owner': Owner,
                      d: nat, lo: nat, a: nat, hi: nat)
    requires Enlarging(mem, free, owner, mem', free', owner', d, lo, a, hi) && a == hi
    ensures Enlarged(mem, free, owner, mem', free', owner', d, lo, hi)
  {
  }

  lemma OutsideJoin(mem: Mem, mem1: Mem, mem2: Mem, w: set<nat>, w1: set<nat>, m: nat)
    requires m in mem && m in mem1 && mem1 == mem[m := mem1[m]] && m in w && w1 <= w && Outside(mem1, mem2, w1)
    ensures Outside(mem, mem2, w)
  {
  }

  /** Every owned page is owned in the same place. */
  ghost predicate Still(owner: Owner, owner': Owner) {
    forall f <- owner :: f in owner' && owner'[f] == owner[f]
  }

  lemma KeptJoin(mem: Mem, mem1: Mem, mem2: Mem, owner: Owner, owner1: Owner)
    requires DataKept(mem, mem1, owner) && DataKept(mem1, mem2, owner1) && Still(owner, owner1)
    ensures DataKept(mem, mem2, owner)
  {
  }

  lemma PagesTrans(mem: Mem, mem1: Mem, mem2: Mem, d: nat, lo: nat, hi: nat)
    requires SamePages(mem, mem1, d, lo, hi) && AllAbsent(mem1, d, lo, hi) && Formed(mem2, d)
    requires forall i, j | 0 <= i < NENT && 0 <= j < NENT :: At(mem2, d, i, j) == At(mem1, d, i, j)
    ensures SamePages(mem, mem2, d, lo, hi) && AllAbsent(mem2, d, lo, hi)
  {
    hide At;
    assert forall v: nat | v < NPAGES :: AtPage(mem2, d, v) == AtPage(mem1, d, v);
  }

  /** A page mapped inside the range does not count outside it. */
  lemma AddedOutside(owner: Owner, owner1: Owner, owner2: Owner, lo: nat, a: nat, hi: nat)
    requires MoreTables(owner, Without(owner1, lo, hi)) && AddedPage(owner1, owner2, a) && lo <= a < hi
    ensures MoreTables(owner, Without(owner2, lo, hi)) && Still(owner, owner1) && Still(owner1, owner2)
  {
  }

  lemma OldPageKept(mem1: Mem, owner1: Owner, mem2: Mem, owner2: Owner, d: nat, v: nat)
    requires Formed(mem1, d) && Formed(mem2, d) && v < NPAGES && AtPage(mem2, d, v) == AtPage(mem1, d, v)
    requires NewPage(mem1, owner1, d, v) && DataKept(mem1, mem2, owner1) && Still(owner1, owner2)
    ensures NewPage(mem2, owner2, d, v)
  {
  }

  lemma EnlargingStep(mem: Mem, free: seq<nat>, owner: Owner, mem1: Mem, free1: seq<nat>, owner1: Owner,
                      mem2: Mem, free2: seq<nat>, owner2: Owner, d: nat, lo: nat, a: nat, hi: nat)
    requires Enlarging(mem, free, owner, mem1, free1, owner1, d, lo, a, hi) && a < hi && Space(mem2, d, owner2)
    requires SamePages(mem1, mem2, d, a, a + 1) && Outside(mem1, mem2, Pages(free1) + owner1.Keys)
    requires DataKept(mem1, mem2, owner1)
    requires AtPage(mem2, d, a).present && AtPage(mem2, d, a).flags == PTE_W + PTE_U
    requires Holds(mem2, AtPage(mem2, d, a).frame, seq(PGSIZE, _ => 0))
    requires Pages(free2) + owner2.Keys == Pages(free1) + owner1.Keys && AddedPage(owner1, owner2, a)
    ensures Enlarging(mem, free, owner, mem2, free2, owner2, d, lo, a + 1, hi)
  {
    hide At, Space, DataKept, MoreTables, Without, AddedPage, Holds, Pages;
    AddedOutside(owner, owner1, owner2, lo, a, hi);
    KeptJoin(mem, mem1, mem2, owner, owner1);
    PageOwned(mem2, d, owner2, a);
    hide Still;
    forall v: nat | lo <= v < a + 1 && v < hi
      ensures NewPage(mem2, owner2, d, v)
    {
      if v < a {
        OldPageKept(mem1, owner1, mem2, owner2, d, v);
      }
    }
  }

  lemma TablesOutside(owner: Owner, owner1: Owner, owner2: Owner, lo: nat, hi: nat)
    requires MoreTables(owner, Without(owner1, lo, hi)) && MoreTables(owner1, owner2)
    ensures MoreTables(owner, Without(owner2, lo, hi)) && Still(owner, owner1) && Still(owner, Without(owner2, lo, hi))
    ensures Still(Without(owner2, lo, hi), owner2)
  {
  }

  lemma AbsentAgain(mem: Mem, mem1: Mem, mem2: Mem, mem3: Mem, d: nat, lo: nat, a: nat, hi: nat)
    requires SamePages(mem, mem1, d, lo, a) && SamePages(mem1, mem2, d, a, a) && SamePages(mem2, mem3, d, lo, hi)
    requires AllAbsent(mem3, d, lo, hi)
    requires lo <= a <= hi <= KERNPAGE && forall v: nat | lo <= v < hi :: !AtPage(mem, d, v).present
    ensures SamePages(mem, mem3, d, 0, 0)
  {
  }

  /** After a failure everything is as it was, up to page tables. */
  lemma Undone(mem: Mem, free: seq<nat>, owner: Owner, mem1: Mem, free1: seq<nat>, owner1: Owner,
               mem2: Mem, free2: seq<nat>, owner2: Owner, spare: nat,
               mem3: Mem, free3: seq<nat>, owner3: Owner, d: nat, lo: nat, a: nat, hi: nat)
    requires Enlarging(mem, free, owner, mem1, free1, owner1, d, lo, a, hi) && a < hi
    requires SamePages(mem1, mem2, d, a, a) && Outside(mem1, mem2, Pages(free1) + owner1.Keys)
    requires DataKept(mem1, mem2, owner1) && MoreTables(owner1, owner2)
    requires Pages(free2) + owner2.Keys + Spare(spare) == Pages(free1) + owner1.Keys
    requires owner3 == Without(owner2, lo, hi) && SamePages(mem2, mem3, d, lo, hi) && AllAbsent(mem3, d, lo, hi)
    requires var w := Pages(free2) + owner2.Keys + Spare(spare); Pages(free3) + owner3.Keys == w && Outside(mem2, mem3, w)
    requires DataKept(mem2, mem3, owner3)
    ensures SamePages(mem, mem3, d, 0, 0) && Grew(mem, free, owner, mem3, free3, owner3)
  {
    hide At, AtPage, DataKept, MoreTables, Without, Pages, Still, NewPage, AllAbsent;
    TablesOutside(owner, owner1, owner2, lo, hi);
    AbsentAgain(mem, mem1, mem2, mem3, d, lo, a, hi);
    KeptJoin(mem, mem1, mem2, owner, owner1);
    KeptJoin(mem, mem2, mem3, owner, owner3);
  }

  // ---------------------------------------------------------------- copying a process

  /** Page `v` of the child holds what the parent's page held, with the same flags, in another page. */
  ghost predicate Copied(mem0: Mem, d0: nat, mem: Mem, d: nat, v: nat) {
    && Formed(mem0, d0) && Formed(mem, d) && v < NPAGES
    && var p, c := AtPage(mem0, d0, v), AtPage(mem, d, v);
       && p.present && c.present && c.flags == p.flags && c.frame != p.frame
       && p.frame in mem0 && c.frame in mem && mem0[p.frame].Data? && mem[c.frame] == mem0[p.frame]
  }

  lemma NoTableAbsent(mem: Mem, d: nat, v: nat)
    requires Formed(mem, d) && v < NPAGES
    ensures mem[d].entries[Pdx(v)] == 0 ==> !AtPage(mem, d, v).present
  {
  }

  lemma ParentKept(mem: Mem, mem': Mem, w: set<nat>, d0: nat, owner0: Owner)
    requires Space(mem, d0, owner0) && Outside(mem, mem', w) && w !! owner0.Keys
    ensures Space(mem', d0, owner0) && SamePages(mem, mem', d0, 0, 0)
  {
    SpaceOutside(mem, mem', w, d0, owner0);
  }

  lemma KernelBelow(data: nat)
    requires DataOk(data)
    ensures forall v: nat | v < KERNPAGE :: !KernelPte(v, data, 4).present
  {
    forall v: nat | v < KERNPAGE
      ensures !KernelPte(v, data, 4).present
    {
      KernelWindow(v, data);
    }
  }

  /** The copies made so far survive the next one. */
  lemma CopiesKept(mem0: Mem, d0: nat, mem1: Mem, mem2: Mem, d: nat, owner1: Owner, i: nat)
    requires Space(mem1, d, owner1) && DataKept(mem1, mem2, owner1) && SamePages(mem1, mem2, d, i, i + 1) && i < KERNPAGE
    requires forall v: nat | v < i :: Copied(mem0, d0, mem1, d, v)
    ensures forall v: nat | v < i :: Copied(mem0, d0, mem2, d, v)
  {
    hide At, Space;
    forall v: nat | v < i
      ensures Copied(mem0, d0, mem2, d, v)
    {
      assert Copied(mem0, d0, mem1, d, v);
      PageOwned(mem1, d, owner1, v);
    }
  }

  lemma FrameKept(mem: Mem, mem': Mem, w: set<nat>, d0: nat, owner0: Owner, v: nat)
    requires Space(mem, d0, owner0) && Outside(mem, mem', w) && w !! owner0.Keys && v < KERNPAGE && AtPage(mem, d0, v).present
    ensures var f := AtPage(mem, d0, v).frame; f in mem && f in mem' && mem'[f] == mem[f]
  {
    PageOwned(mem, d0, owner0, v);
  }

  /** Copying from the parent as it is now is copying from the parent as it was. */
  lemma SameCopy(mem0: Mem, mem1: Mem, mem2: Mem, d0: nat, d: nat, i: nat)
    requires SamePages(mem0, mem1, d0, 0, 0) && Copied(mem1, d0, mem2, d, i)
    requires i < NPAGES && AtPage(mem0, d0, i).frame in mem0
    requires mem1[AtPage(mem0, d0, i).frame] == mem0[AtPage(mem0, d0, i).frame]
    ensures Copied(mem0, d0, mem2, d, i)
  {
  }

  lemma SpareKept(mem: Mem, mem1: Mem, mem2: Mem, owner: Owner, owner': Owner, spare: nat)
    requires DataKept(mem, mem1, owner) && MoreTables(owner, owner') && spare in mem1 && spare !in owner'
    requires spare in mem2 && mem2 == mem1[spare := mem2[spare]]
    ensures DataKept(mem, mem2, owner)
  {
  }

  lemma NoneFree(mem: Mem, free: seq<nat>)
    requires FreeList(mem, free) && Head(free) == 0
    ensures free == []
  {
  }

  lemma DirOwned(mem: Mem, d: nat, owner: Owner)
    requires Space(mem, d, owner)
    ensures d in owner && owner[d] == DirSlot && d in mem
  {
  }
}
