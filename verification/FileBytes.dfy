/** A file as the flat sequence of bytes its block tree stands for. */
module FileBytes {
  import opened BlockTree
  import opened InodeCode

  const MAXBYTES: nat := 1082201088    // MAXFILE * BSIZE
  const UINT: nat := 0x1_0000_0000

  /** Byte `i` of the file, read through the tree. */
  function ByteAt(fs: Fs, ino: nat, i: nat): int {
    if i >= MAXBYTES then 0
    else
      var q := Ptr(fs, Loc(ino, PathOf(i / BSIZE)));
      if q == 0 || q >= |fs.disk| || !WellSized(fs.disk[q]) || fs.disk[q].Index? then 0
      else Bytes(fs.disk[q])[i % BSIZE]
  }

  function Content(fs: Fs, ino: nat): (c: seq<int>)
    requires ino < |fs.inodes|
    ensures |c| == fs.inodes[ino].size
  {
    seq(fs.inodes[ino].size, i requires 0 <= i => ByteAt(fs, ino, i))
  }

  /** Every block that contains a byte below `n` is present. */
  ghost predicate Mapped(fs: Fs, ino: nat, n: nat) {
    forall bn: nat | bn < MAXFILE && bn * BSIZE < n :: Ptr(fs, Loc(ino, PathOf(bn))) != 0
  }

  ghost predicate FileOk(fs: Fs, ino: nat) {
    && ino < |fs.inodes|
    && fs.inodes[ino].size <= MAXBYTES
    && Mapped(fs, ino, fs.inodes[ino].size)
  }

  /** The bytes of `src` written over `c` from position `off` on. */
  function Splice(c: seq<int>, off: nat, src: seq<int>): (r: seq<int>)
    requires off <= |c|
    ensures |r| == if off + |src| > |c| then off + |src| else |c|
  {
    c[..off] + src + if off + |src| < |c| then c[off + |src|..] else []
  }

  /** Two writes in a row are one write of both. */
  lemma SpliceSplice(c: seq<int>, off: nat, a: seq<int>, b: seq<int>)
    requires off <= |c|
    ensures Splice(Splice(c, off, a), off + |a|, b) == Splice(c, off, a + b)
  {
  }

  // ---------------------------------------------------------------- writing into one block

  /** Block `q` with `src` written at offset `o`. */
  function Poke(fs: Fs, q: nat, o: nat, src: seq<int>): Fs
    requires q < |fs.disk| && WellSized(fs.disk[q]) && !fs.disk[q].Index? && o + |src| <= BSIZE
  {
    fs.(disk := fs.disk[q := Data(Bytes(fs.disk[q])[..o] + src + Bytes(fs.disk[q])[o + |src|..])])
  }

  /** One level of the walk. */
  lemma PtrStep(fs: Fs, m: Loc)
    ensures |m.path| >= 2 && m.ino < |fs.inodes| ==>
              Ptr(fs, m) == if Ptr(fs, Parent(m)) == 0 then 0 else Entry(fs, Ptr(fs, Parent(m)), Last(m))
    ensures forall fs': Fs | fs'.inodes == fs.inodes && |m.path| < 2 :: Ptr(fs', m) == Ptr(fs, m)
  {
  }

  lemma PokeEntry(fs: Fs, q: nat, o: nat, src: seq<int>, b: nat, j: nat)
    requires q < |fs.disk| && WellSized(fs.disk[q]) && !fs.disk[q].Index? && o + |src| <= BSIZE && b != q
    ensures Entry(Poke(fs, q, o, src), b, j) == Entry(fs, b, j) && Poke(fs, q, o, src).inodes == fs.inodes
  {
    hide Bytes;
  }

  /** A data block is not an index block. */
  lemma LeafApart(fs: Fs, used: set<nat>, nmeta: nat, l: Loc, m: Loc)
    requires Owns(fs, used, nmeta) && IsLoc(fs, l) && IsLeaf(l.path) && IsLoc(fs, m) && !IsLeaf(m.path) && Ptr(fs, l) != 0
    ensures Ptr(fs, m) != Ptr(fs, l)
  {
    hide Ptr, Proper, IsPath, IsLeaf, WellFormed;
    assert m != l;
  }

  lemma {:induction false} PokePtr(fs: Fs, used: set<nat>, nmeta: nat, l: Loc, o: nat, src: seq<int>, m: Loc)
    requires Owns(fs, used, nmeta) && IsLoc(fs, l) && IsLeaf(l.path) && IsLoc(fs, m)
    requires 0 < Ptr(fs, l) < |fs.disk| && !fs.disk[Ptr(fs, l)].Index? && o + |src| <= BSIZE
    ensures Ptr(Poke(fs, Ptr(fs, l), o, src), m) == Ptr(fs, m)
    decreases |m.path|
  {
    assert WellSized(fs.disk[Ptr(fs, l)]);
    hide Poke, Ptr, IsPath, IsLeaf, Owns, Entry, WellSized;
    var fs' := Poke(fs, Ptr(fs, l), o, src);
    PokeEntry(fs, Ptr(fs, l), o, src, 0, 0);
    PtrStep(fs, m);
    PtrStep(fs', m);
    if |m.path| >= 2 {
      ParentIsLoc(fs, m);
      PokePtr(fs, used, nmeta, l, o, src, Parent(m));
      LeafApart(fs, used, nmeta, l, Parent(m));
      PokeEntry(fs, Ptr(fs, l), o, src, Ptr(fs, Parent(m)), Last(m));
    }
  }

  lemma PokeOwns(fs: Fs, used: set<nat>, nmeta: nat, l: Loc, o: nat, src: seq<int>)
    requires Owns(fs, used, nmeta) && IsLoc(fs, l) && IsLeaf(l.path)
    requires 0 < Ptr(fs, l) < |fs.disk| && !fs.disk[Ptr(fs, l)].Index? && o + |src| <= BSIZE
    ensures Owns(Poke(fs, Ptr(fs, l), o, src), used, nmeta)
    ensures forall m | IsLoc(fs, m) :: Ptr(Poke(fs, Ptr(fs, l), o, src), m) == Ptr(fs, m)
  {
    hide Ptr, IsPath, IsLeaf;
    var fs' := Poke(fs, Ptr(fs, l), o, src);
    forall m | IsLoc(fs, m)
      ensures Ptr(fs', m) == Ptr(fs, m) && Proper(fs', used, nmeta, m)
    {
      PokePtr(fs, used, nmeta, l, o, src, m);
      assert Proper(fs, used, nmeta, m);
    }
  }

  lemma PokeBlock(fs: Fs, q: nat, o: nat, src: seq<int>, x: nat)
    requires q < |fs.disk| && WellSized(fs.disk[q]) && !fs.disk[q].Index? && o + |src| <= BSIZE && x < BSIZE
    ensures var b := Poke(fs, q, o, src).disk[q];
            WellSized(b) && !b.Index? && Bytes(b)[x] == if o <= x < o + |src| then src[x - o] else Bytes(fs.disk[q])[x]
  {
  }

  /** Writing into block `bn` of inode `ino` changes just those bytes of just that file. */
  lemma PokeByte(fs: Fs, used: set<nat>, nmeta: nat, ino: nat, bn: nat, o: nat, src: seq<int>, i: nat, k: nat)
    requires Owns(fs, used, nmeta) && ino < |fs.inodes| && i < |fs.inodes| && bn < MAXFILE
    requires var q := Ptr(fs, Loc(ino, PathOf(bn)));
             0 < q < |fs.disk| && !fs.disk[q].Index? && o + |src| <= BSIZE
    ensures ByteAt(Poke(fs, Ptr(fs, Loc(ino, PathOf(bn))), o, src), i, k) ==
            if i == ino && bn * BSIZE + o <= k < bn * BSIZE + o + |src| then src[k - bn * BSIZE - o]
            else ByteAt(fs, i, k)
  {
    hide Ptr, IsPath, PathOf, Bytes, Unshared;
    var q := Ptr(fs, Loc(ino, PathOf(bn)));
    PokePtrs(fs, used, nmeta, ino, bn, o, src, i, k);
    if k < MAXBYTES {
      PokeBlock(fs, q, o, src, k % BSIZE);
      if Ptr(fs, Loc(i, PathOf(k / BSIZE))) == q {
        BlocksDistinct(fs, used, nmeta, i, k / BSIZE, ino, bn);
        assert k == bn * BSIZE + k % BSIZE;
      }
      assert bn == k / BSIZE ==> k == bn * BSIZE + k % BSIZE;
    }
  }

  lemma PokePtrs(fs: Fs, used: set<nat>, nmeta: nat, ino: nat, bn: nat, o: nat, src: seq<int>, i: nat, k: nat)
    requires Owns(fs, used, nmeta) && ino < |fs.inodes| && i < |fs.inodes| && bn < MAXFILE
    requires var q := Ptr(fs, Loc(ino, PathOf(bn)));
             0 < q < |fs.disk| && !fs.disk[q].Index? && o + |src| <= BSIZE
    ensures k < MAXBYTES ==>
              Ptr(Poke(fs, Ptr(fs, Loc(ino, PathOf(bn))), o, src), Loc(i, PathOf(k / BSIZE))) ==
              Ptr(fs, Loc(i, PathOf(k / BSIZE)))
  {
    hide Ptr, Poke;
    assert IsLoc(fs, Loc(ino, PathOf(bn)));
    PokeOwns(fs, used, nmeta, Loc(ino, PathOf(bn)), o, src);
    if k < MAXBYTES {
      assert IsLoc(fs, Loc(i, PathOf(k / BSIZE)));
    }
  }

  // ---------------------------------------------------------------- a write in progress

  /** `fs` is `fs0` with `data` written at `off` of inode `ino`, and perhaps blocks added there.
      Sizes are still as they were. */
  ghost predicate Written(fs0: Fs, fs: Fs, ino: nat, off: nat, data: seq<int>) {
    && |fs.inodes| == |fs0.inodes|
    && (forall i | 0 <= i < |fs.inodes| :: fs.inodes[i].size == fs0.inodes[i].size)
    && (forall i | 0 <= i < |fs.inodes| && i != ino :: fs.inodes[i] == fs0.inodes[i])
    && (forall i: nat, n: nat | i < |fs.inodes| && Mapped(fs0, i, n) :: Mapped(fs, i, n))
    && (forall i: nat, k: nat | i < |fs.inodes| :: ByteAt(fs, i, k) ==
          if i == ino && off <= k < off + |data| then data[k - off] else ByteAt(fs0, i, k))
  }

  /** Adding blocks to a tree changes no byte of any file. */
  lemma ExtendsByte(fs: Fs, fs': Fs, used: set<nat>, nmeta: nat, ino: nat, p: seq<nat>, i: nat, k: nat)
    requires Extends(fs, fs', ino, p) && Owns(fs', used, nmeta) && |fs'.disk| > 0 && i < |fs.inodes|
    requires WellFormed(fs)
    ensures ByteAt(fs', i, k) == ByteAt(fs, i, k)
  {
    hide Ptr, IsPath, PathOf, Unshared;
    if k < MAXBYTES {
      LeafLoc(fs, i, k / BSIZE);
      var m := Loc(i, PathOf(k / BSIZE));
      assert KeepsPtr(fs, fs', ino, p, m);
      assert IsLoc(fs', m) && Proper(fs', used, nmeta, m);
    }
  }

  lemma LeafLoc(fs: Fs, i: nat, bn: nat)
    requires i < |fs.inodes| && bn < MAXFILE
    ensures IsLoc(fs, Loc(i, PathOf(bn))) && IsLeaf(PathOf(bn))
  {
  }

  lemma ExtendsMapped(fs: Fs, fs': Fs, ino: nat, p: seq<nat>)
    requires Extends(fs, fs', ino, p)
    ensures forall i: nat, n: nat | i < |fs.inodes| && Mapped(fs, i, n) :: Mapped(fs', i, n)
  {
    hide Ptr, IsPath, PathOf;
    forall i: nat, n: nat, bn: nat | i < |fs.inodes| && Mapped(fs, i, n) && bn < MAXFILE && bn * BSIZE < n
      ensures Ptr(fs', Loc(i, PathOf(bn))) != 0
    {
      LeafLoc(fs, i, bn);
      assert KeepsPtr(fs, fs', ino, p, Loc(i, PathOf(bn)));
    }
  }

  lemma ExtendsWritten(fs0: Fs, fs: Fs, fs': Fs, used: set<nat>, nmeta: nat, ino: nat, off: nat, data: seq<int>, p: seq<nat>)
    requires Written(fs0, fs, ino, off, data) && Extends(fs, fs', ino, p)
    requires Owns(fs', used, nmeta) && WellFormed(fs) && |fs'.disk| > 0
    ensures Written(fs0, fs', ino, off, data)
  {
    hide Ptr, IsPath, PathOf, Unshared, ByteAt, WellFormed;
    forall i: nat, k: nat | i < |fs.inodes|
      ensures ByteAt(fs', i, k) == ByteAt(fs, i, k)
    {
      ExtendsByte(fs, fs', used, nmeta, ino, p, i, k);
    }
    ExtendsMapped(fs, fs', ino, p);
  }

  lemma PokeWritten(fs0: Fs, fs: Fs, used: set<nat>, nmeta: nat, ino: nat, off: nat, data: seq<int>, bn: nat, o: nat, src: seq<int>)
    requires Written(fs0, fs, ino, off, data) && Owns(fs, used, nmeta) && ino < |fs.inodes| && bn < MAXFILE
    requires var q := Ptr(fs, Loc(ino, PathOf(bn)));
             0 < q < |fs.disk| && !fs.disk[q].Index? && o + |src| <= BSIZE
    requires bn * BSIZE + o == off + |data|
    ensures Written(fs0, Poke(fs, Ptr(fs, Loc(ino, PathOf(bn))), o, src), ino, off, data + src)
  {
    hide Ptr, IsPath, PathOf, Unshared, ByteAt, Bytes;
    var fs' := Poke(fs, Ptr(fs, Loc(ino, PathOf(bn))), o, src);
    assert fs'.inodes == fs.inodes;
    forall i: nat, k: nat | i < |fs.inodes|
      ensures ByteAt(fs', i, k) == if i == ino && off <= k < off + |data + src| then (data + src)[k - off] else ByteAt(fs0, i, k)
    {
      PokeByte(fs, used, nmeta, ino, bn, o, src, i, k);
    }
    LeafLoc(fs, ino, bn);
    PokeMapped(fs, used, nmeta, Loc(ino, PathOf(bn)), o, src);
  }

  lemma PokeMapped(fs: Fs, used: set<nat>, nmeta: nat, l: Loc, o: nat, src: seq<int>)
    requires Owns(fs, used, nmeta) && IsLoc(fs, l) && IsLeaf(l.path)
    requires 0 < Ptr(fs, l) < |fs.disk| && !fs.disk[Ptr(fs, l)].Index? && o + |src| <= BSIZE
    ensures forall i: nat, n: nat | i < |fs.inodes| && Mapped(fs, i, n) :: Mapped(Poke(fs, Ptr(fs, l), o, src), i, n)
  {
    hide Ptr, IsPath, PathOf, IsLeaf, Unshared;
    PokeOwns(fs, used, nmeta, l, o, src);
    forall i: nat, n: nat, bn: nat | i < |fs.inodes| && Mapped(fs, i, n) && bn < MAXFILE && bn * BSIZE < n
      ensures Ptr(Poke(fs, Ptr(fs, l), o, src), Loc(i, PathOf(bn))) != 0
    {
      LeafLoc(fs, i, bn);
    }
  }
}
