/** fs.c over the block tree: the allocator's loops, bmap, itrunc. The buffer cache and the log
    below it are seen through bread and log_write as one array of current block contents. */
module InodeCode {
  import opened Bitmap
  import opened BlockTree
  import opened Truncate
  import opened Options

  /** `fs'` is `fs` with blocks added, at empty places on the way along `p` in inode `ino` only;
      no mapping that existed has changed, nor the contents of any data block. */
  ghost predicate Extends(fs: Fs, fs': Fs, ino: nat, p: seq<nat>) {
    && |fs'.disk| == |fs.disk| && |fs'.inodes| == |fs.inodes|
    && (forall i | 0 <= i < |fs.inodes| :: fs'.inodes[i].size == fs.inodes[i].size)
    && (forall i | 0 <= i < |fs.inodes| && i != ino :: fs'.inodes[i] == fs.inodes[i])
    && (forall m | IsLoc(fs, m) :: KeepsPtr(fs, fs', ino, p, m))
  }

  ghost predicate KeepsPtr(fs: Fs, fs': Fs, ino: nat, p: seq<nat>, m: Loc) {
    && (Ptr(fs, m) != 0 ==> Ptr(fs', m) == Ptr(fs, m))
    && (Ptr(fs', m) != Ptr(fs, m) ==> m.ino == ino && m.path <= p)
    && (Ptr(fs', m) < |fs'.disk| == |fs.disk| && IsLeaf(m.path) && Ptr(fs', m) != 0 ==>
          fs'.disk[Ptr(fs', m)] == if Ptr(fs, m) != 0 then fs.disk[Ptr(fs', m)] else Zero)
  }

  lemma ExtendsSelf(fs: Fs, ino: nat, p: seq<nat>)
    ensures Extends(fs, fs, ino, p)
  {
  }

  lemma ExtendsTrans(a: Fs, b: Fs, c: Fs, ino: nat, p: seq<nat>, used: set<nat>, used': set<nat>, nmeta: nat)
    requires Extends(a, b, ino, p) && Extends(b, c, ino, p)
    requires Owns(b, used, nmeta) && Owns(c, used', nmeta) && |b.disk| > 0
    ensures Extends(a, c, ino, p)
  {
    hide Ptr, IsPath, IsLeaf, Unshared;
    forall m | IsLoc(a, m)
      ensures KeepsPtr(a, c, ino, p, m)
    {
      assert Proper(b, used, nmeta, m) && Proper(c, used', nmeta, m);
      assert IsLoc(b, m) && KeepsPtr(a, b, ino, p, m) && KeepsPtr(b, c, ino, p, m);
    }
  }

  lemma LinkExtends(fs: Fs, used: set<nat>, nmeta: nat, l: Loc, b: nat, p: seq<nat>)
    requires Owns(fs, used, nmeta) && CanLink(fs, l) && b !in used && nmeta <= b < |fs.disk|
    requires Holder(fs, l) < |fs.disk| && (|l.path| >= 2 ==> !fs.disk[Holder(fs, l)].Data?)
    requires l.path <= p
    ensures Owns(Link(fs, l, b), used + {b}, nmeta)
    ensures Extends(fs, Link(fs, l, b), l.ino, p) && Ptr(Link(fs, l, b), l) == b
  {
    LinkOwns(fs, used, nmeta, l, b);
    LinkWellFormed(fs, l, b);
    var fs' := Link(fs, l, b);
    assert |fs'.inodes| == |fs.inodes|;
    assert forall i | 0 <= i < |fs.inodes| :: fs'.inodes[i].size == fs.inodes[i].size;
    hide Link, Ptr, IsPath, IsLeaf;
    forall m | IsLoc(fs, m)
      ensures KeepsPtr(fs, fs', l.ino, p, m)
    {
      assert Proper(fs, used, nmeta, m);
    }
  }

  lemma Coordinates(b: nat, bi: nat)
    requires b % BPB == 0 && bi < BPB
    ensures BlockIx(b + bi) == b / BPB && ByteIx(b + bi) == bi / 8 && BitIx(b + bi) == bi % 8
  {
  }

  class FileSystem {
    const nmeta: nat          // boot block, superblock, log, inode and bitmap blocks
    var bits: Bits            // the bitmap blocks
    var disk: seq<Block>
    var inodes: seq<Inode>    // in-memory inodes
    var dinodes: seq<Inode>   // the inodes on disk

    ghost function State(): Fs
      reads this
    {
      Fs(disk, inodes)
    }

    /** The file system as it would be read back after the in-memory inodes are gone. */
    ghost function OnDisk(): Fs
      reads this
    {
      Fs(disk, dinodes)
    }

    ghost function Used(): set<nat>
      reads this
    {
      UsedSet(bits, |disk|)
    }

    ghost predicate Valid()
      reads this
    {
      && Covers(bits, |disk|)
      && Owns(State(), Used(), nmeta)
    }

    /** fs.c balloc: the first free block, marked and zeroed; None is "out of blocks". */
    method Balloc() returns (r: Option<nat>)
      requires Covers(bits, |disk|)
      modifies this`bits, this`disk
      ensures Covers(bits, |disk|) && |disk| == old(|disk|)
      ensures r.None? ==> disk == old(disk) && bits == old(bits) && forall c: nat | c < |disk| :: c in Used()
      ensures r.Some? ==>
                && r.value < |disk| && r.value !in old(Used()) && (forall c: nat | c < r.value :: c in old(Used()))
                && Used() == old(Used()) + {r.value} && disk == old(disk)[r.value := Zero]
    {
      hide BlockIx, ByteIx, BitIx, Has, With;
      var b := 0;
      while b < |disk|
        invariant b % BPB == 0 && disk == old(disk) && bits == old(bits)
        invariant forall c: nat | c < b && c < |disk| :: c in old(Used())
      {
        var bi := 0;
        while bi < BPB && b + bi < |disk|
          invariant bi <= BPB && disk == old(disk) && bits == old(bits)
          invariant forall c: nat | c < b + bi && c < |disk| :: c in old(Used())
        {
          Coordinates(b, bi);
          if !Has(bits[b / BPB][bi / 8], bi % 8) {
            SetBit(bits, b + bi, |disk|);
            bits := bits[b / BPB := bits[b / BPB][bi / 8 := With(bits[b / BPB][bi / 8], bi % 8)]];
            disk := disk[b + bi := Zero];
            return Some(b + bi);
          }
          bi := bi + 1;
        }
        b := b + BPB;
      }
      r := None;
    }

    /** fs.c bfree; `panic` is "freeing free block". */
    method Bfree(b: nat) returns (panic: bool)
      requires Covers(bits, |disk|) && b < |disk|
      modifies this`bits
      ensures Covers(bits, |disk|)
      ensures panic <==> b !in old(Used())
      ensures Used() == old(Used()) - {b}
    {
      hide BlockIx, ByteIx, BitIx, Has, Without;
      Coordinates(b / BPB * BPB, b % BPB);
      var bi := b % BPB;
      if !Has(bits[b / BPB][bi / 8], bi % 8) {
        assert Used() - {b} == Used();
        return true;
      }
      ClearBit(bits, b, |disk|);
      bits := bits[b / BPB := bits[b / BPB][bi / 8 := Without(bits[b / BPB][bi / 8], bi % 8)]];
      panic := false;
    }

    /** "if((addr = *slot) == 0) *slot = addr = balloc(dev)" for a slot in the inode. */
    method LoadRoot(ino: nat, r: nat, ghost p: seq<nat>) returns (addr: Option<nat>)
      requires Valid() && IsLoc(State(), Loc(ino, [r])) && [r] <= p
      modifies this`bits, this`disk, this`inodes
      ensures Valid() && Extends(old(State()), State(), ino, p) && old(Used()) <= Used()
      ensures |disk| == old(|disk|) && |inodes| == old(|inodes|)
      ensures Ptr(old(State()), Loc(ino, [r])) != 0 ==> addr.Some? && State() == old(State()) && bits == old(bits)
      ensures addr.Some? ==> addr.value == Ptr(State(), Loc(ino, [r])) != 0
      ensures addr.None? ==> forall c: nat | c < |disk| :: c in Used()
    {
      ghost var l := Loc(ino, [r]);
      ghost var fs0, used0 := State(), Used();
      ExtendsSelf(fs0, ino, p);
      var ip := inodes[ino];
      if ip.addrs[r] != 0 {
        return Some(ip.addrs[r]);
      }
      addr := Balloc();
      if addr.Some? {
        FreshIsData(used0, nmeta, addr.value);
        CanLinkHolder(fs0, used0, nmeta, l);
        inodes := inodes[ino := ip.(addrs := ip.addrs[r := addr.value])];
        assert State() == Link(fs0, l, addr.value);
        LinkExtends(fs0, used0, nmeta, l, addr.value, p);
      }
    }

    /** The same for slot `j` of the index block `q`, which is the pointer at `l`'s parent. */
    method LoadEntry(q: nat, j: nat, ghost l: Loc, ghost p: seq<nat>) returns (addr: Option<nat>)
      requires Valid() && IsLoc(State(), l) && |l.path| >= 2 && l.path <= p
      requires q == Ptr(State(), Parent(l)) != 0 && j == Last(l)
      modifies this`bits, this`disk, this`inodes
      ensures Valid() && Extends(old(State()), State(), l.ino, p) && old(Used()) <= Used()
      ensures |disk| == old(|disk|) && |inodes| == old(|inodes|)
      ensures Ptr(old(State()), l) != 0 ==> addr.Some? && State() == old(State()) && bits == old(bits)
      ensures addr.Some? ==> addr.value == Ptr(State(), l) != 0
      ensures addr.None? ==> forall c: nat | c < |disk| :: c in Used()
    {
      ghost var fs0, used0 := State(), Used();
      ExtendsSelf(fs0, l.ino, p);
      ParentIsLoc(fs0, l);
      assert Proper(fs0, used0, nmeta, Parent(l));
      var a := Pointers(disk[q]);
      if a[j] != 0 {
        return Some(a[j]);
      }
      addr := Balloc();
      if addr.Some? {
        FreshIsData(used0, nmeta, addr.value);
        disk := disk[q := Index(a[j := addr.value])];
        assert State() == Link(fs0, l, addr.value);
        LinkExtends(fs0, used0, nmeta, l, addr.value, p);
      }
    }

    /** One more level of bmap: from the pointer at `l`'s parent to the one at `l`. */
    method Descend(q: nat, j: nat, ghost l: Loc, ghost p: seq<nat>, ghost fs0: Fs) returns (addr: Option<nat>)
      requires Valid() && IsLoc(State(), l) && |l.path| >= 2 && l.path <= p && |disk| > 0
      requires q == Ptr(State(), Parent(l)) != 0 && j == Last(l)
      requires Extends(fs0, State(), l.ino, p)
      modifies this`bits, this`disk, this`inodes
      ensures Valid() && Extends(fs0, State(), l.ino, p) && old(Used()) <= Used()
      ensures |disk| == old(|disk|) && |inodes| == old(|inodes|)
      ensures Ptr(old(State()), l) != 0 ==> addr.Some? && State() == old(State()) && bits == old(bits)
      ensures addr.Some? ==> addr.value == Ptr(State(), l) != 0
      ensures addr.None? ==> forall c: nat | c < |disk| :: c in Used()
    {
      hide Extends, Owns, Ptr, IsPath, Covers, UsedSet;
      ghost var fs1, used1 := State(), Used();
      addr := LoadEntry(q, j, l, p);
      ExtendsTrans(fs0, fs1, State(), l.ino, p, used1, Used(), nmeta);
    }

    /** fs.c bmap: the disk block of block `bn` of the file, allocated with the index blocks on
        the way if need be. None is a panic: out of range, or out of blocks. */
    method Bmap(ino: nat, bn: nat) returns (addr: Option<nat>)
      requires Valid() && ino < |inodes| && |disk| > 0
      modifies this`bits, this`disk, this`inodes
      ensures Valid() && old(Used()) <= Used() && |disk| == old(|disk|) && |inodes| == old(|inodes|)
      ensures bn < MAXFILE ==> Extends(old(State()), State(), ino, PathOf(bn))
      ensures addr.Some? ==> bn < MAXFILE && addr.value == Ptr(State(), Loc(ino, PathOf(bn))) != 0
      ensures addr.None? ==> bn >= MAXFILE || forall c: nat | c < |disk| :: c in Used()
      ensures bn < MAXFILE && Ptr(old(State()), Loc(ino, PathOf(bn))) != 0 ==>
                addr.Some? && State() == old(State()) && bits == old(bits)
    {
      hide Extends, Owns, Ptr, Covers, UsedSet;
      if bn >= MAXFILE {
        return None;
      }
      ghost var p := PathOf(bn);
      ghost var fs0 := State();
      PresentAbove(fs0, ino, p);
      Prefixes(ino, p);
      if bn < NDIRECT {
        addr := LoadRoot(ino, bn, p);
        return;
      }
      var b := bn - NDIRECT;
      if b < NINDIRECT {
        addr := LoadRoot(ino, NDIRECT, p);
        if addr.None? { return; }
        addr := Descend(addr.value, b, Loc(ino, p), p, fs0);
        return;
      }
      b := b - NINDIRECT;
      if b < N2INDIRECT {
        addr := LoadRoot(ino, NDIRECT + 1, p);
        if addr.None? { return; }
        addr := Descend(addr.value, b / NINDIRECT, Loc(ino, p[..2]), p, fs0);
        if addr.None? { return; }
        addr := Descend(addr.value, b % NINDIRECT, Loc(ino, p), p, fs0);
        return;
      }
      b := b - N2INDIRECT;
      addr := LoadRoot(ino, NDIRECT + 2, p);
      if addr.None? { return; }
      addr := Descend(addr.value, b / N2INDIRECT, Loc(ino, p[..2]), p, fs0);
      if addr.None? { return; }
      addr := Descend(addr.value, (b % N2INDIRECT) / NINDIRECT, Loc(ino, p[..3]), p, fs0);
      if addr.None? { return; }
      addr := Descend(addr.value, (b % N2INDIRECT) % NINDIRECT, Loc(ino, p), p, fs0);
    }

    /** itrunc's innermost loop: the data blocks of index block `q`, then `q`. */
    method FreeSingle(q: nat, ghost fs0: Fs, ghost used0: set<nat>, ghost ino: nat, ghost p: seq<nat>) returns (panic: bool)
      requires Covers(bits, |disk|) && fs0.disk == disk && Owns(fs0, used0, nmeta) && ino < |fs0.inodes|
      requires IsPath(p) && |p| == Depth(p[0]) && q == Ptr(fs0, Loc(ino, p)) != 0
      requires BlocksUnder(fs0, ino, p) <= Used()
      modifies this`bits
      ensures !panic && Covers(bits, |disk|) && Used() == old(Used()) - BlocksUnder(fs0, ino, p)
    {
      hide Ptr, Covers, BlocksUnder, Owns;
      AtSlot(fs0, used0, nmeta, ino, p, 0);
      var a := Pointers(disk[q]);
      var j := 0;
      while j < NINDIRECT
        invariant j <= NINDIRECT && Covers(bits, |disk|)
        invariant Used() == old(Used()) - BlocksBefore(fs0, ino, p, j)
      {
        AtSlot(fs0, used0, nmeta, ino, p, j);
        if a[j] != 0 {
          panic := Bfree(a[j]);
          if panic { return; }
        }
        j := j + 1;
      }
      AtIndex(fs0, used0, nmeta, ino, p);
      panic := Bfree(q);
    }

    /** The same one level up: each index block of `q` with its data blocks, then `q`. */
    method FreeDouble(q: nat, ghost fs0: Fs, ghost used0: set<nat>, ghost ino: nat, ghost p: seq<nat>) returns (panic: bool)
      requires Covers(bits, |disk|) && fs0.disk == disk && Owns(fs0, used0, nmeta) && ino < |fs0.inodes|
      requires IsPath(p) && |p| == Depth(p[0]) - 1 && q == Ptr(fs0, Loc(ino, p)) != 0
      requires BlocksUnder(fs0, ino, p) <= Used()
      modifies this`bits
      ensures !panic && Covers(bits, |disk|) && Used() == old(Used()) - BlocksUnder(fs0, ino, p)
    {
      hide Ptr, Covers, BlocksUnder, Owns;
      AtSlot(fs0, used0, nmeta, ino, p, 0);
      var a := Pointers(disk[q]);
      var i := 0;
      while i < NINDIRECT
        invariant i <= NINDIRECT && Covers(bits, |disk|)
        invariant Used() == old(Used()) - BlocksBefore(fs0, ino, p, i)
      {
        AtSlot(fs0, used0, nmeta, ino, p, i);
        if a[i] != 0 {
          panic := FreeSingle(a[i], fs0, used0, ino, p + [i]);
          if panic { return; }
        }
        i := i + 1;
      }
      AtIndex(fs0, used0, nmeta, ino, p);
      panic := Bfree(q);
    }

    /** And one more level up. */
    method FreeTriple(q: nat, ghost fs0: Fs, ghost used0: set<nat>, ghost ino: nat, ghost p: seq<nat>) returns (panic: bool)
      requires Covers(bits, |disk|) && fs0.disk == disk && Owns(fs0, used0, nmeta) && ino < |fs0.inodes|
      requires IsPath(p) && |p| == Depth(p[0]) - 2 && q == Ptr(fs0, Loc(ino, p)) != 0
      requires BlocksUnder(fs0, ino, p) <= Used()
      modifies this`bits
      ensures !panic && Covers(bits, |disk|) && Used() == old(Used()) - BlocksUnder(fs0, ino, p)
    {
      hide Ptr, Covers, BlocksUnder, Owns;
      AtSlot(fs0, used0, nmeta, ino, p, 0);
      var a := Pointers(disk[q]);
      var i := 0;
      while i < NINDIRECT
        invariant i <= NINDIRECT && Covers(bits, |disk|)
        invariant Used() == old(Used()) - BlocksBefore(fs0, ino, p, i)
      {
        AtSlot(fs0, used0, nmeta, ino, p, i);
        if a[i] != 0 {
          panic := FreeDouble(a[i], fs0, used0, ino, p + [i]);
          if panic { return; }
        }
        i := i + 1;
      }
      AtIndex(fs0, used0, nmeta, ino, p);
      panic := Bfree(q);
    }

    /** ip->addrs[r] = 0: what hangs below the slot is out of reach, every other block of every
        file stays in reach where it was. */
    method ClearSlot(ino: nat, r: nat)
      requires ino < |inodes| && r < |inodes[ino].addrs|
      modifies this`inodes
      ensures State() == SlotCleared(old(State()), ino, r)
      ensures forall m ::
                Ptr(State(), m) == if m.ino == ino && m.path != [] && m.path[0] == r then 0 else Ptr(old(State()), m)
    {
      forall m
        ensures Ptr(SlotCleared(State(), ino, r), m) ==
                if m.ino == ino && m.path != [] && m.path[0] == r then 0 else Ptr(State(), m)
      {
        SlotClearedPtr(State(), ino, r, m);
      }
      inodes := inodes[ino := inodes[ino].(addrs := inodes[ino].addrs[r := 0])];
    }

    /** In the middle of itrunc: root slots below `n` of inode `ino` are cleared and the blocks
        under them freed. */
    ghost predicate Truncating(fs0: Fs, used0: set<nat>, ino: nat, n: nat)
      reads this
    {
      && Covers(bits, |disk|) && disk == fs0.disk && |inodes| == |fs0.inodes| && ino < |inodes|
      && (forall i | 0 <= i < |inodes| && i != ino :: inodes[i] == fs0.inodes[i])
      && |inodes[ino].addrs| == NADDRS == |fs0.inodes[ino].addrs|
      && (forall k | 0 <= k < NADDRS :: inodes[ino].addrs[k] == if k < n then 0 else fs0.inodes[ino].addrs[k])
      && Used() == used0 - BlocksBefore(fs0, ino, [], n)
    }

    /** fs.c iupdate: if this was the only inode changed since, reading all inodes back gives the
        file system as it is in memory. */
    method Iupdate(ino: nat)
      requires ino < |inodes| && ino < |dinodes|
      modifies this`dinodes
      ensures dinodes == old(dinodes)[ino := inodes[ino]]
      ensures |dinodes| == |inodes| && (forall i | 0 <= i < |inodes| && i != ino :: old(dinodes[i]) == inodes[i]) ==>
                OnDisk() == State()
    {
      dinodes := dinodes[ino := inodes[ino]];
    }

    /** itrunc's loop over the direct blocks. */
    method FreeDirect(ino: nat, ghost fs0: Fs, ghost used0: set<nat>) returns (panic: bool)
      requires Owns(fs0, used0, nmeta) && Truncating(fs0, used0, ino, 0)
      modifies this`bits, this`inodes
      ensures !panic && Truncating(fs0, used0, ino, NDIRECT)
    {
      hide Ptr, Covers, BlocksUnder, BlocksBefore, Owns, UsedSet;
      var i := 0;
      while i < NDIRECT
        invariant i <= NDIRECT && Truncating(fs0, used0, ino, i)
      {
        RootSlot(fs0, used0, nmeta, ino, i);
        if inodes[ino].addrs[i] != 0 {
          panic := Bfree(inodes[ino].addrs[i]);
          if panic { return; }
          ClearSlot(ino, i);
        }
        i := i + 1;
      }
      panic := false;
    }

    /** itrunc's three parts for the indirect blocks. */
    method FreeIndirect(ino: nat, r: nat, ghost fs0: Fs, ghost used0: set<nat>) returns (panic: bool)
      requires Owns(fs0, used0, nmeta) && NDIRECT <= r < NADDRS && Truncating(fs0, used0, ino, r)
      modifies this`bits, this`inodes
      ensures !panic && Truncating(fs0, used0, ino, r + 1)
    {
      hide Ptr, Covers, BlocksUnder, BlocksBefore, Owns, UsedSet;
      RootSlot(fs0, used0, nmeta, ino, r);
      var addr := inodes[ino].addrs[r];
      if addr != 0 {
        if r == NDIRECT {
          panic := FreeSingle(addr, fs0, used0, ino, [r]);
        } else if r == NDIRECT + 1 {
          panic := FreeDouble(addr, fs0, used0, ino, [r]);
        } else {
          panic := FreeTriple(addr, fs0, used0, ino, [r]);
        }
        if panic { return; }
        ClearSlot(ino, r);
      }
      panic := false;
    }

    /** fs.c itrunc: frees every block of the tree, each once, and nothing else; "freeing free
        block" cannot happen. */
    method Itrunc(ino: nat) returns (panic: bool)
      requires Valid() && ino < |inodes| && ino < |dinodes|
      modifies this`bits, this`inodes, this`dinodes
      ensures !panic && Valid()
      ensures Used() == old(Used()) - BlocksUnder(old(State()), ino, [])
      ensures State() == Cleared(old(State()), ino)
      ensures dinodes == old(dinodes)[ino := inodes[ino]]
      ensures old(OnDisk() == State()) ==> OnDisk() == State()
    {
      hide Ptr, Covers, BlocksUnder, BlocksBefore, Owns, UsedSet;
      ghost var fs0, used0 := State(), Used();
      RootSlot(fs0, used0, nmeta, ino, 0);
      panic := FreeDirect(ino, fs0, used0);
      if panic { return; }
      panic := FreeIndirect(ino, NDIRECT, fs0, used0);
      if panic { return; }
      panic := FreeIndirect(ino, NDIRECT + 1, fs0, used0);
      if panic { return; }
      panic := FreeIndirect(ino, NDIRECT + 2, fs0, used0);
      if panic { return; }
      assert inodes[ino].addrs == seq(NADDRS, _ => 0);
      inodes := inodes[ino := inodes[ino].(size := 0)];
      assert inodes == Cleared(fs0, ino).inodes;
      UnderRoots(fs0, ino);
      ClearedOwns(fs0, used0, nmeta, ino);
      Iupdate(ino);
    }
  }

  /** What itrunc relies on at root slot `i`. */
  lemma RootSlot(fs: Fs, used: set<nat>, nmeta: nat, ino: nat, i: nat)
    requires Owns(fs, used, nmeta) && ino < |fs.inodes| && i < NADDRS
    ensures |fs.inodes[ino].addrs| == NADDRS
    ensures Ptr(fs, Loc(ino, [i])) == fs.inodes[ino].addrs[i]
    ensures BlocksBefore(fs, ino, [], i) !! BlocksUnder(fs, ino, [i])
    ensures BlocksBefore(fs, ino, [], i + 1) == BlocksBefore(fs, ino, [], i) + BlocksUnder(fs, ino, [i])
    ensures BlocksUnder(fs, ino, [i]) <= used
    ensures fs.inodes[ino].addrs[i] == 0 ==> BlocksUnder(fs, ino, [i]) == {}
    ensures i < NDIRECT && fs.inodes[ino].addrs[i] != 0 ==> BlocksUnder(fs, ino, [i]) == {fs.inodes[ino].addrs[i]}
    ensures i == 0 ==> BlocksBefore(fs, ino, [], i) == {}
    ensures fs.inodes[ino].addrs[i] != 0 ==> fs.inodes[ino].addrs[i] < |fs.disk|
  {
    AtSlot(fs, used, nmeta, ino, [], i);
    assert [] + [i] == [i];
    assert Proper(fs, used, nmeta, Loc(ino, [i]));
    forall b | b in BlocksUnder(fs, ino, [i])
      ensures b in used
    {
      var m :| IsLoc(fs, m) && m.ino == ino && [i] <= m.path && b == Ptr(fs, m) != 0;
      assert Proper(fs, used, nmeta, m);
    }
  }

  lemma Prefixes(ino: nat, p: seq<nat>)
    requires IsPath(p)
    ensures p[..1] == [p[0]] && p[..|p|] == p
    ensures forall k | 2 <= k <= |p| :: IsPath(p[..k]) && Parent(Loc(ino, p[..k])) == Loc(ino, p[..k - 1])
    ensures |p| >= 2 ==> Parent(Loc(ino, p)) == Loc(ino, p[..|p| - 1])
  {
  }

  /** A block is reachable only if the index blocks above it are there. */
  lemma PresentAbove(fs: Fs, ino: nat, p: seq<nat>)
    requires IsPath(p) && |p| <= 4
    ensures forall k | 1 <= k <= |p| :: Ptr(fs, Loc(ino, p)) != 0 ==> Ptr(fs, Loc(ino, p[..k])) != 0
  {
    if |p| >= 2 {
      PresentAbove(fs, ino, p[..|p| - 1]);
      forall k | 1 <= k < |p| && Ptr(fs, Loc(ino, p)) != 0
        ensures Ptr(fs, Loc(ino, p[..k])) != 0
      {
        assert p[..|p| - 1][..k] == p[..k];
      }
    }
    assert p[..|p|] == p;
  }

  lemma FreshIsData(used: set<nat>, nmeta: nat, b: nat)
    requires (forall c | 0 <= c < nmeta :: c in used) && b !in used
    ensures nmeta <= b
  {
  }
}
