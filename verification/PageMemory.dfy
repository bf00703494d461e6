/** Physical pages as vm.c and kalloc.c use them. A page is a directory, a page table, user data or
    a member of the free list; a page table lookup goes through two of them. */
module PageMemory {

  const NENT := 1024          // entries per directory and per table
  const NUSER := 512          // directory entries below KERNBASE

  type Content = seq<bv8>

  datatype Pte = Pte(present: bool, frame: nat, flags: nat)

  const ABSENT := Pte(false, 0, 0)

  datatype Page =
    | Run(next: nat)
    | Dir(entries: seq<nat>)        // page table frames, 0 for not present
    | Table(ptes: seq<Pte>)
    | Data(content: Content)

  type Mem = map<nat, Page>

  predicate IsDir(mem: Mem, d: nat) { d in mem && mem[d].Dir? && |mem[d].entries| == NENT }

  predicate IsTable(mem: Mem, t: nat) { t in mem && mem[t].Table? && |mem[t].ptes| == NENT }

  ghost predicate Formed(mem: Mem, d: nat) {
    IsDir(mem, d) && forall i | 0 <= i < NENT :: mem[d].entries[i] == 0 || IsTable(mem, mem[d].entries[i])
  }

  /** What the hardware finds for entry `j` of table `i`. */
  ghost function At(mem: Mem, d: nat, i: nat, j: nat): Pte
    requires Formed(mem, d) && i < NENT && j < NENT
  {
    var t := mem[d].entries[i];
    if t == 0 || !mem[t].ptes[j].present then ABSENT else mem[t].ptes[j]
  }

  // ---------------------------------------------------------------- who owns a page

  /** The one place in an address space that refers to a page. */
  datatype Slot = DirSlot | TableSlot(i: nat) | PageSlot(i: nat, j: nat)

  type Owner = map<nat, Slot>

  ghost predicate Refers(mem: Mem, d: nat, s: Slot, f: nat)
    requires Formed(mem, d)
  {
    match s
    case DirSlot => f == d
    case TableSlot(i) => i < NENT && mem[d].entries[i] == f
    case PageSlot(i, j) => i < NUSER && j < NENT && At(mem, d, i, j).present && At(mem, d, i, j).frame == f && f in mem && mem[f].Data?
  }

  /** `owner` lists exactly the pages that directory `d` leads to below KERNBASE and the tables of
      the whole directory, each referred to from one place. */
  ghost predicate Space(mem: Mem, d: nat, owner: Owner) {
    && Formed(mem, d) && d in owner && owner[d] == DirSlot
    && (forall f <- owner :: f != 0 && Refers(mem, d, owner[f], f))
    && (forall i | 0 <= i < NENT :: mem[d].entries[i] != 0 ==> mem[d].entries[i] in owner && owner[mem[d].entries[i]] == TableSlot(i))
    && (forall i, j | 0 <= i < NUSER && 0 <= j < NENT :: At(mem, d, i, j).present ==>
        At(mem, d, i, j).frame in owner && owner[At(mem, d, i, j).frame] == PageSlot(i, j))
  }

  /** Only pages of `w` were written. */
  ghost predicate Outside(mem: Mem, mem': Mem, w: set<nat>) {
    mem'.Keys == mem.Keys && forall f | f in mem && f !in w :: mem'[f] == mem[f]
  }

  lemma OutsideTrans(mem: Mem, mem1: Mem, mem2: Mem, w: set<nat>)
    requires Outside(mem, mem1, w) && Outside(mem1, mem2, w)
    ensures Outside(mem, mem2, w)
  {
  }

  /** A space all of whose pages kept their contents is the same space. */
  lemma SpaceOutside(mem: Mem, mem': Mem, w: set<nat>, d: nat, owner: Owner)
    requires Space(mem, d, owner) && Outside(mem, mem', w) && w !! owner.Keys
    ensures Space(mem', d, owner)
    ensures forall i, j | 0 <= i < NENT && 0 <= j < NENT :: At(mem', d, i, j) == At(mem, d, i, j)
  {
    assert mem'[d] == mem[d];
    forall i | 0 <= i < NENT
      ensures mem[d].entries[i] == 0 || mem'[mem[d].entries[i]] == mem[mem[d].entries[i]]
    {
    }
    assert Formed(mem', d);
    assert forall i, j | 0 <= i < NENT && 0 <= j < NENT :: At(mem', d, i, j) == At(mem, d, i, j);
    forall f | f in owner
      ensures Refers(mem', d, owner[f], f)
    {
      assert Refers(mem, d, owner[f], f);
    }
  }

  // ---------------------------------------------------------------- the three changes to a space

  /** walkpgdir's new table. */
  function WithTable(mem: Mem, d: nat, i: nat, t: nat): Mem
    requires IsDir(mem, d) && i < NENT
  {
    mem[t := Table(seq(NENT, _ => ABSENT))][d := Dir(mem[d].entries[i := t])]
  }

  function WithPte(mem: Mem, t: nat, j: nat, pte: Pte): Mem
    requires IsTable(mem, t) && j < NENT
  {
    mem[t := Table(mem[t].ptes[j := pte])]
  }

  /** Nothing is mapped differently. */
  ghost predicate SameMap(mem: Mem, mem': Mem, d: nat) {
    && Formed(mem, d) && Formed(mem', d)
    && forall i, j | 0 <= i < NENT && 0 <= j < NENT :: At(mem', d, i, j) == At(mem, d, i, j)
  }

  /** Only one page is mapped differently. */
  ghost predicate SameMapBut(mem: Mem, mem': Mem, d: nat, i0: nat, j0: nat) {
    && Formed(mem, d) && Formed(mem', d)
    && forall i, j | 0 <= i < NENT && 0 <= j < NENT && (i != i0 || j != j0) :: At(mem', d, i, j) == At(mem, d, i, j)
  }

  lemma TableMap(mem: Mem, d: nat, owner: Owner, i: nat, t: nat)
    requires Space(mem, d, owner) && i < NENT && mem[d].entries[i] == 0 && t in mem && t != 0 && t !in owner
    ensures SameMap(mem, WithTable(mem, d, i, t), d)
  {
  }

  lemma TableSpace(mem: Mem, d: nat, owner: Owner, i: nat, t: nat)
    requires Space(mem, d, owner) && i < NENT && mem[d].entries[i] == 0 && t in mem && t != 0 && t !in owner
    ensures Space(WithTable(mem, d, i, t), d, owner[t := TableSlot(i)])
  {
    hide At;
    TableMap(mem, d, owner, i, t);
    var mem', owner' := WithTable(mem, d, i, t), owner[t := TableSlot(i)];
    forall f | f in owner'
      ensures f != 0 && Refers(mem', d, owner'[f], f)
    {
      assert f != t ==> Refers(mem, d, owner[f], f);
    }
  }

  lemma PteMap(mem: Mem, d: nat, owner: Owner, i: nat, j: nat, pte: Pte)
    requires Space(mem, d, owner) && i < NENT && j < NENT && mem[d].entries[i] != 0 && (pte.present || pte == ABSENT)
    ensures IsTable(mem, mem[d].entries[i]) && SameMapBut(mem, WithPte(mem, mem[d].entries[i], j, pte), d, i, j)
    ensures At(WithPte(mem, mem[d].entries[i], j, pte), d, i, j) == pte
  {
  }

  /** Mapping a user page makes it owned. */
  lemma UserSpace(mem: Mem, d: nat, owner: Owner, i: nat, j: nat, pte: Pte)
    requires Space(mem, d, owner) && i < NUSER && j < NENT && mem[d].entries[i] != 0
    requires !At(mem, d, i, j).present && pte.present && pte.frame != 0 && pte.frame !in owner && pte.frame in mem && mem[pte.frame].Data?
    ensures IsTable(mem, mem[d].entries[i])
    ensures Space(WithPte(mem, mem[d].entries[i], j, pte), d, owner[pte.frame := PageSlot(i, j)])
  {
    hide At;
    PteMap(mem, d, owner, i, j, pte);
    var mem', owner' := WithPte(mem, mem[d].entries[i], j, pte), owner[pte.frame := PageSlot(i, j)];
    forall f | f in owner'
      ensures f != 0 && Refers(mem', d, owner'[f], f)
    {
      assert f != pte.frame ==> Refers(mem, d, owner[f], f);
    }
  }

  /** Kernel pages belong to nobody. */
  lemma KernelSpace(mem: Mem, d: nat, owner: Owner, i: nat, j: nat, pte: Pte)
    requires Space(mem, d, owner) && NUSER <= i < NENT && j < NENT && mem[d].entries[i] != 0 && pte.present
    ensures IsTable(mem, mem[d].entries[i])
    ensures Space(WithPte(mem, mem[d].entries[i], j, pte), d, owner)
  {
    hide At;
    PteMap(mem, d, owner, i, j, pte);
    var mem' := WithPte(mem, mem[d].entries[i], j, pte);
    forall f | f in owner
      ensures f != 0 && Refers(mem', d, owner[f], f)
    {
      assert Refers(mem, d, owner[f], f);
    }
  }

  /** Unmapping a user page gives it up. */
  lemma ClearSpace(mem: Mem, d: nat, owner: Owner, i: nat, j: nat)
    requires Space(mem, d, owner) && i < NUSER && j < NENT && At(mem, d, i, j).present
    ensures mem[d].entries[i] != 0 && At(mem, d, i, j).frame in owner
    ensures Space(WithPte(mem, mem[d].entries[i], j, ABSENT), d, owner - {At(mem, d, i, j).frame})
  {
    assert mem[d].entries[i] != 0;
    hide At;
    PteMap(mem, d, owner, i, j, ABSENT);
    var g := At(mem, d, i, j).frame;
    var mem', owner' := WithPte(mem, mem[d].entries[i], j, ABSENT), owner - {g};
    assert owner[g] == PageSlot(i, j);
    forall f | f in owner'
      ensures f != 0 && Refers(mem', d, owner'[f], f)
    {
      assert Refers(mem, d, owner[f], f);
    }
  }

  /** A directory whose entries are all zero. */
  lemma EmptySpace(mem: Mem, d: nat)
    requires d in mem && d != 0 && mem[d] == Dir(seq(NENT, _ => 0))
    ensures Space(mem, d, map[d := DirSlot])
    ensures forall i, j | 0 <= i < NENT && 0 <= j < NENT :: At(mem, d, i, j) == ABSENT
  {
  }

  // ---------------------------------------------------------------- the free list

  ghost function Pages(free: seq<nat>): set<nat> { set f | f in free }

  function Head(free: seq<nat>): nat { if free == [] then 0 else free[0] }

  /** kalloc.c's list: each free page holds the address of the next. */
  ghost predicate FreeList(mem: Mem, free: seq<nat>) {
    && (forall k | 0 <= k < |free| :: free[k] != 0 && free[k] in mem && mem[free[k]] == Run(Head(free[k + 1..])))
    && forall k, l | 0 <= k < l < |free| :: free[k] != free[l]
  }

  lemma FreeListOutside(mem: Mem, mem': Mem, free: seq<nat>, w: set<nat>)
    requires FreeList(mem, free) && Outside(mem, mem', w) && w !! Pages(free)
    ensures FreeList(mem', free)
  {
  }

  lemma PopFree(mem: Mem, free: seq<nat>)
    requires FreeList(mem, free) && free != []
    ensures FreeList(mem, free[1..]) && Pages(free) == Pages(free[1..]) + {free[0]} && free[0] !in Pages(free[1..])
    ensures free[0] != 0 && free[0] in mem && mem[free[0]] == Run(Head(free[1..]))
  {
  }

  lemma PushFree(mem: Mem, free: seq<nat>, v: nat)
    requires FreeList(mem, free) && v in mem && v != 0 && v !in Pages(free)
    ensures FreeList(mem[v := Run(Head(free))], [v] + free) && Pages([v] + free) == Pages(free) + {v}
  {
  }
}
