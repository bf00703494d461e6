/** readi and writei of fs.c and the file operations of file.c on top of them. */
module FileCode {
  import opened BlockTree
  import opened InodeCode
  import opened FileBytes
  import opened Truncate

  function Min(a: nat, b: nat): nat { if a < b then a else b }
  function Max(a: nat, b: nat): nat { if a > b then a else b }

  /** fs.c readi for a regular file: the bytes asked for, clipped to the file's size. */
  method Readi(f: FileSystem, ino: nat, off0: nat, n0: nat) returns (r: int, dst: seq<int>, panic: bool)
    requires f.Valid() && FileOk(f.State(), ino) && off0 < UINT && n0 < UINT
    modifies f`bits, f`disk, f`inodes
    ensures !panic && f.State() == old(f.State()) && f.bits == old(f.bits)
    ensures r == -1 <==> off0 > f.inodes[ino].size || off0 + n0 >= UINT
    ensures r >= 0 ==> r == |dst| && dst == Content(f.State(), ino)[off0..Min(off0 + n0, f.inodes[ino].size)]
    ensures r == -1 || r >= 0
    ensures r == -1 ==> dst == []
  {
    hide Ptr, PathOf, Owns, Extends, Content, Bitmap.Covers, Bitmap.UsedSet;
    ghost var c := Content(f.State(), ino);
    panic, dst := false, [];
    var size := f.inodes[ino].size;
    if off0 > size || (off0 + n0) % UINT < off0 {
      return -1, [], false;
    }
    var n := n0;
    if off0 + n > size {
      n := size - off0;
    }
    var tot, off := 0, off0;
    while tot < n
      invariant tot <= n && off == off0 + tot && !panic
      invariant f.State() == old(f.State()) && f.bits == old(f.bits)
      invariant dst == c[off0..off]
    {
      Present(f, ino, off / BSIZE);
      var q := f.Bmap(ino, off / BSIZE);
      if q.None? {
        panic := true;
        return 0, dst, panic;
      }
      var m := Min(n - tot, BSIZE - off % BSIZE);
      ReadBlock(f, ino, q.value, off, m);
      dst := dst + Bytes(f.disk[q.value])[off % BSIZE..off % BSIZE + m];
      assert c[off0..off] + c[off..off + m] == c[off0..off + m];
      tot, off := tot + m, off + m;
    }
    r := n;
  }

  lemma Present(f: FileSystem, ino: nat, bn: nat)
    requires f.Valid() && FileOk(f.State(), ino) && bn * BSIZE < f.inodes[ino].size
    ensures bn < MAXFILE && Ptr(f.State(), Loc(ino, PathOf(bn))) != 0 && |f.disk| > 0
  {
    assert Mapped(f.State(), ino, f.inodes[ino].size);
    assert 0 in f.Used();
  }

  lemma ReadBlock(f: FileSystem, ino: nat, q: nat, off: nat, m: nat)
    requires f.Valid() && ino < |f.inodes| && f.inodes[ino].size <= MAXBYTES
    requires off % BSIZE + m <= BSIZE && off + m <= f.inodes[ino].size && 0 < m
    requires q == Ptr(f.State(), Loc(ino, PathOf(off / BSIZE))) != 0
    ensures q < |f.disk| && WellSized(f.disk[q]) && !f.disk[q].Index?
    ensures Bytes(f.disk[q])[off % BSIZE..off % BSIZE + m] == Content(f.State(), ino)[off..off + m]
  {
    hide Ptr, PathOf, Unshared, Bytes, IsPath;
    LeafLoc(f.State(), ino, off / BSIZE);
    assert Proper(f.State(), f.Used(), f.nmeta, Loc(ino, PathOf(off / BSIZE)));
    var a := Bytes(f.disk[q])[off % BSIZE..off % BSIZE + m];
    forall x | 0 <= x < m
      ensures a[x] == ByteAt(f.State(), ino, off + x)
    {
      assert (off + x) / BSIZE == off / BSIZE && (off + x) % BSIZE == off % BSIZE + x;
    }
  }

  // ---------------------------------------------------------------- writing

  /** When writei accepts a write. */
  predicate Fits(size: nat, off: nat, n: nat) {
    off <= size && off + n < UINT && off + n <= MAXBYTES
  }

  /** No other inode, and no byte of another file, has changed. */
  ghost predicate OthersKept(fs: Fs, fs': Fs, ino: nat) {
    && |fs'.inodes| == |fs.inodes|
    && forall i: nat | i < |fs.inodes| && i != ino ::
         && fs'.inodes[i] == fs.inodes[i]
         && (FileOk(fs, i) ==> FileOk(fs', i) && Content(fs', i) == Content(fs, i))
  }

  /** In writei's loop: `done` has been written at `off0`; the inode has changed only if the
      write already reaches beyond the old end, so that the final iupdate will record it. */
  ghost predicate Writing(f: FileSystem, fs0: Fs, ino: nat, off0: nat, done: seq<int>)
    reads f
  {
    && f.Valid() && FileOk(fs0, ino) && off0 <= fs0.inodes[ino].size
    && |f.inodes| == |fs0.inodes| && f.inodes[ino].size == fs0.inodes[ino].size
    && Written(fs0, f.State(), ino, off0, done)
    && Mapped(f.State(), ino, off0 + |done|)
    && (f.inodes[ino] == fs0.inodes[ino] || off0 + |done| > fs0.inodes[ino].size)
  }

  lemma StartWrite(f: FileSystem, ino: nat, off0: nat)
    requires f.Valid() && FileOk(f.State(), ino) && off0 <= f.inodes[ino].size
    ensures Writing(f, f.State(), ino, off0, [])
  {
  }

  /** bmap, then the chunk copied into the block. */
  method WriteBlock(f: FileSystem, ino: nat, off: nat, chunk: seq<int>, ghost fs0: Fs, ghost off0: nat, ghost done: seq<int>)
    returns (panic: bool)
    requires Writing(f, fs0, ino, off0, done) && off == off0 + |done|
    requires 0 < |chunk| && off % BSIZE + |chunk| <= BSIZE && off + |chunk| <= MAXBYTES
    modifies f`bits, f`disk, f`inodes
    ensures f.Valid() && |f.inodes| == old(|f.inodes|)
    ensures panic ==> off >= fs0.inodes[ino].size && forall c: nat | c < |f.disk| :: c in f.Used()
    ensures !panic ==> Writing(f, fs0, ino, off0, done + chunk)
  {
    hide Ptr, PathOf, Extends, Written, Mapped, ByteAt, Bytes, Unshared, Bitmap.Covers, Bitmap.UsedSet;
    ghost var fs1 := f.State();
    NonEmptyDisk(f);
    var bn := off / BSIZE;
    var q := f.Bmap(ino, bn);
    if q.None? {
      StillMapped(fs0, fs1, ino, off0, done, off);
      return true;
    }
    ghost var fs2 := f.State();
    Grown(fs0, fs1, fs2, f.Used(), f.nmeta, ino, off0, done, bn, |chunk|);
    var o := off % BSIZE;
    f.disk := f.disk[q.value := Data(Bytes(f.disk[q.value])[..o] + chunk + Bytes(f.disk[q.value])[o + |chunk|..])];
    assert f.State() == Poke(fs2, q.value, o, chunk);
    PokeWritten(fs0, fs2, f.Used(), f.nmeta, ino, off0, done, bn, o, chunk);
    LeafLoc(fs2, ino, bn);
    PokeOwns(fs2, f.Used(), f.nmeta, Loc(ino, PathOf(bn)), o, chunk);
    PokeMapped(fs2, f.Used(), f.nmeta, Loc(ino, PathOf(bn)), o, chunk);
    panic := false;
  }

  /** A block below the file's size is there already. */
  lemma StillMapped(fs0: Fs, fs1: Fs, ino: nat, off0: nat, done: seq<int>, off: nat)
    requires FileOk(fs0, ino) && Written(fs0, fs1, ino, off0, done) && off < MAXBYTES
    ensures off < fs0.inodes[ino].size ==> Ptr(fs1, Loc(ino, PathOf(off / BSIZE))) != 0
  {
    hide Ptr, PathOf, ByteAt;
    assert Mapped(fs1, ino, fs0.inodes[ino].size);
    assert off / BSIZE * BSIZE <= off;
  }

  /** After bmap of the block to be written. */
  lemma Grown(fs0: Fs, fs1: Fs, fs2: Fs, used: set<nat>, nmeta: nat, ino: nat, off0: nat, done: seq<int>, bn: nat, m: nat)
    requires FileOk(fs0, ino) && Written(fs0, fs1, ino, off0, done) && Mapped(fs1, ino, off0 + |done|)
    requires WellFormed(fs1) && Owns(fs2, used, nmeta) && |fs2.disk| > 0
    requires bn == (off0 + |done|) / BSIZE < MAXFILE && (off0 + |done|) % BSIZE + m <= BSIZE && m > 0
    requires Extends(fs1, fs2, ino, PathOf(bn)) && Ptr(fs2, Loc(ino, PathOf(bn))) != 0
    requires Ptr(fs1, Loc(ino, PathOf(bn))) != 0 ==> fs2 == fs1
    ensures Written(fs0, fs2, ino, off0, done) && Mapped(fs2, ino, off0 + |done| + m)
    ensures fs2 == fs1 || off0 + |done| + m > fs0.inodes[ino].size
    ensures |fs2.inodes| == |fs0.inodes| && fs2.inodes[ino].size == fs0.inodes[ino].size
    ensures var q := Ptr(fs2, Loc(ino, PathOf(bn))); q < |fs2.disk| && WellSized(fs2.disk[q]) && !fs2.disk[q].Index?
  {
    hide Ptr, PathOf, ByteAt, Unshared, IsPath;
    ExtendsWritten(fs0, fs1, fs2, used, nmeta, ino, off0, done, PathOf(bn));
    ExtendsMapped(fs1, fs2, ino, PathOf(bn));
    LeafLoc(fs2, ino, bn);
    assert Proper(fs2, used, nmeta, Loc(ino, PathOf(bn)));
    assert Mapped(fs1, ino, fs0.inodes[ino].size);
    forall b: nat | b < MAXFILE && b * BSIZE < off0 + |done| + m
      ensures Ptr(fs2, Loc(ino, PathOf(b))) != 0
    {
      assert b * BSIZE < off0 + |done| || b == bn;
    }
  }

  lemma NonEmptyDisk(f: FileSystem)
    requires f.Valid()
    ensures 0 in f.Used() && |f.disk| > 0
  {
  }

  function Resized(fs: Fs, ino: nat, size: nat): Fs
    requires ino < |fs.inodes|
  {
    fs.(inodes := fs.inodes[ino := fs.inodes[ino].(size := size)])
  }

  lemma {:induction false} ResizedPtr(fs: Fs, ino: nat, size: nat, m: Loc)
    requires ino < |fs.inodes|
    ensures Ptr(Resized(fs, ino, size), m) == Ptr(fs, m)
    decreases |m.path|
  {
    if |m.path| >= 2 {
      ResizedPtr(fs, ino, size, Parent(m));
    }
  }

  lemma ResizedSame(fs: Fs, used: set<nat>, nmeta: nat, ino: nat, size: nat)
    requires Owns(fs, used, nmeta) && ino < |fs.inodes|
    ensures Owns(Resized(fs, ino, size), used, nmeta)
    ensures forall i: nat, k: nat :: ByteAt(Resized(fs, ino, size), i, k) == ByteAt(fs, i, k)
    ensures forall i: nat, n: nat :: Mapped(Resized(fs, ino, size), i, n) == Mapped(fs, i, n)
  {
    var fs' := Resized(fs, ino, size);
    forall m
      ensures Ptr(fs', m) == Ptr(fs, m)
    {
      ResizedPtr(fs, ino, size, m);
    }
    hide Ptr, IsPath, IsLeaf, PathOf;
    forall m | IsLoc(fs, m)
      ensures Proper(fs', used, nmeta, m)
    {
      assert Proper(fs, used, nmeta, m);
    }
  }

  /** The write is over and the size set: the file's bytes are the old ones with `src` spliced in. */
  lemma EndWrite(fs0: Fs, fs: Fs, used: set<nat>, nmeta: nat, ino: nat, off: nat, src: seq<int>)
    requires FileOk(fs0, ino) && off <= fs0.inodes[ino].size && off + |src| <= MAXBYTES
    requires Owns(fs, used, nmeta) && Written(fs0, fs, ino, off, src) && Mapped(fs, ino, off + |src|)
    ensures var fs' := Resized(fs, ino, Max(fs0.inodes[ino].size, off + |src|));
            && Owns(fs', used, nmeta) && FileOk(fs', ino) && OthersKept(fs0, fs', ino)
            && Content(fs', ino) == Splice(Content(fs0, ino), off, src)
  {
    hide Ptr, PathOf, ByteAt, Owns, Mapped;
    var fs' := Resized(fs, ino, Max(fs0.inodes[ino].size, off + |src|));
    ResizedSame(fs, used, nmeta, ino, Max(fs0.inodes[ino].size, off + |src|));
    assert Mapped(fs, ino, fs0.inodes[ino].size);
    assert Content(fs', ino) == Splice(Content(fs0, ino), off, src);
    forall i: nat | i < |fs0.inodes| && i != ino && FileOk(fs0, i)
      ensures FileOk(fs', i) && Content(fs', i) == Content(fs0, i)
    {
      assert Mapped(fs, i, fs0.inodes[i].size);
    }
  }

  /** fs.c writei for a regular file: all of `src` over the file's bytes from `off0` on, or
      nothing when the offset lies beyond the end or the file would grow too large. */
  method Writei(f: FileSystem, ino: nat, src: seq<int>, off0: nat) returns (r: int, panic: bool)
    requires f.Valid() && FileOk(f.State(), ino) && off0 < UINT && |src| < UINT
    requires |f.dinodes| == |f.inodes| && f.dinodes[ino] == f.inodes[ino]
    modifies f`bits, f`disk, f`inodes, f`dinodes
    ensures f.Valid() && |f.dinodes| == |f.inodes| == old(|f.inodes|)
    ensures !panic ==> r == -1 || r == |src|
    ensures panic ==> forall c: nat | c < |f.disk| :: c in f.Used()
    ensures panic ==> Fits(old(f.inodes[ino].size), off0, |src|) && off0 + |src| > old(f.inodes[ino].size)
    ensures !panic ==> (r == -1 <==> !Fits(old(f.inodes[ino].size), off0, |src|))
    ensures !panic && r == -1 ==> f.State() == old(f.State()) && f.bits == old(f.bits)
    ensures !panic && r >= 0 ==> Content(f.State(), ino) == Splice(old(Content(f.State(), ino)), off0, src)
    ensures !panic ==> FileOk(f.State(), ino) && f.dinodes[ino] == f.inodes[ino]
    ensures !panic ==> OthersKept(old(f.State()), f.State(), ino)
    ensures !panic && old(f.dinodes == f.inodes) ==> f.OnDisk() == f.State()
  {
    hide Ptr, PathOf, Owns, Extends, Content, Written, Mapped, ByteAt, Bitmap.Covers, Bitmap.UsedSet;
    ghost var fs0 := f.State();
    panic := false;
    var n := |src|;
    var size := f.inodes[ino].size;
    if off0 > size || (off0 + n) % UINT < off0 {
      return -1, false;
    }
    if off0 + n > MAXBYTES {
      return -1, false;
    }
    StartWrite(f, ino, off0);
    var tot, off := 0, off0;
    while tot < n
      invariant tot <= n && off == off0 + tot && !panic
      invariant Writing(f, fs0, ino, off0, src[..tot])
      invariant f.dinodes == old(f.dinodes)
    {
      var m := Min(n - tot, BSIZE - off % BSIZE);
      panic := WriteBlock(f, ino, off, src[tot..tot + m], fs0, off0, src[..tot]);
      if panic {
        return 0, true;
      }
      assert src[..tot] + src[tot..tot + m] == src[..tot + m];
      tot, off := tot + m, off + m;
    }
    assert src[..n] == src;
    ghost var fs1 := f.State();
    if n > 0 && off > size {
      f.inodes := f.inodes[ino := f.inodes[ino].(size := off)];
      f.Iupdate(ino);
    }
    EndWrite(fs0, fs1, f.Used(), f.nmeta, ino, off0, src);
    assert f.State() == Resized(fs1, ino, Max(size, off));
    r := n;
  }

  // ---------------------------------------------------------------- file.c

  /** An open file on an inode. */
  class File {
    const readable: bool
    const writable: bool
    const ino: nat
    var off: nat
    constructor (readable: bool, writable: bool, ino: nat)
      ensures this.readable == readable && this.writable == writable && this.ino == ino && off == 0
    {
      this.readable, this.writable, this.ino, off := readable, writable, ino, 0;
    }
  }

  /** The most bytes one transaction may write: ((MAXOPBLOCKS-1-1-2) / 2) * 512. */
  const CHUNK: nat := 1536

  /** How much of an `n`-byte write is carried out: all of it, or the whole chunks that still fit
      below the largest file size, or nothing when it starts beyond the end. */
  function Accepted(size: nat, off: nat, n: nat): (k: nat)
    ensures k <= n && (k == n || k % CHUNK == 0)
    ensures k > 0 ==> off <= size && off + k <= MAXBYTES
    ensures k < n ==> off > size || off + k + Min(n - k, CHUNK) > MAXBYTES
  {
    if off > size then 0
    else if off + n <= MAXBYTES then n
    else if off <= MAXBYTES then (MAXBYTES - off) / CHUNK * CHUNK
    else 0
  }

  /** The files a caller of the write operations may rely on. */
  ghost predicate Ready(f: FileSystem, ino: nat)
    reads f
  {
    && f.Valid() && FileOk(f.State(), ino)
    && |f.dinodes| == |f.inodes| && f.dinodes[ino] == f.inodes[ino]
  }

  /** The first `k` bytes of `addr` have been written at `off` of inode `ino`. */
  ghost predicate WroteTo(fs0: Fs, fs: Fs, ino: nat, off: nat, addr: seq<int>, k: nat)
    requires k <= |addr|
  {
    && OthersKept(fs0, fs, ino) && ino < |fs0.inodes|
    && if off <= fs0.inodes[ino].size then Content(fs, ino) == Splice(Content(fs0, ino), off, addr[..k])
       else k == 0 && fs == fs0
  }

  lemma OthersTrans(a: Fs, b: Fs, c: Fs, ino: nat)
    requires OthersKept(a, b, ino) && OthersKept(b, c, ino)
    ensures OthersKept(a, c, ino)
  {
  }

  /** One accepted chunk more. */
  lemma WroteMore(fs0: Fs, fs1: Fs, fs2: Fs, ino: nat, off: nat, addr: seq<int>, i: nat, m: nat)
    requires i + m <= |addr| && WroteTo(fs0, fs1, ino, off, addr, i) && OthersKept(fs1, fs2, ino)
    requires off + i <= fs1.inodes[ino].size
    requires Content(fs2, ino) == Splice(Content(fs1, ino), off + i, addr[i..i + m])
    ensures WroteTo(fs0, fs2, ino, off, addr, i + m)
  {
    hide OthersKept, FileOk, ByteAt;
    OthersTrans(fs0, fs1, fs2, ino);
    if off <= fs0.inodes[ino].size {
      SpliceSplice(Content(fs0, ino), off, addr[..i], addr[i..i + m]);
      assert addr[..i] + addr[i..i + m] == addr[..i + m];
    }
  }

  /** The chunk starting at `i` is refused exactly where the accepted bytes end. */
  lemma ChunkFits(size0: nat, off: nat, n: nat, i: nat, size: nat)
    requires i < n && (i == 0 ==> size == size0) && (i > 0 ==> off <= size0 && off + i <= size)
    requires i % CHUNK == 0 && i <= Accepted(size0, off, n)
    ensures var n1 := Min(n - i, CHUNK);
            && (Fits(size, off + i, n1) ==> i + n1 <= Accepted(size0, off, n) && (i + n1 == n || (i + n1) % CHUNK == 0))
            && (!Fits(size, off + i, n1) ==> i == Accepted(size0, off, n))
  {
  }

  /** file.c fileread: reads at the file's offset and moves it past what was read. */
  method Fileread(fl: File, f: FileSystem, n: nat) returns (r: int, dst: seq<int>, panic: bool)
    requires Ready(f, fl.ino) && fl.off < UINT && n < UINT
    modifies fl`off, f`bits, f`disk, f`inodes
    ensures !panic && f.State() == old(f.State()) && f.bits == old(f.bits) && Ready(f, fl.ino)
    ensures r == -1 <==> !fl.readable || old(fl.off) > f.inodes[fl.ino].size || old(fl.off) + n >= UINT
    ensures r == -1 ==> fl.off == old(fl.off) && dst == []
    ensures r != -1 ==>
              && dst == Content(f.State(), fl.ino)[old(fl.off)..Min(old(fl.off) + n, f.inodes[fl.ino].size)]
              && r == |dst| && fl.off == old(fl.off) + r
  {
    if !fl.readable {
      return -1, [], false;
    }
    r, dst, panic := Readi(f, fl.ino, fl.off, n);
    if r > 0 {
      fl.off := fl.off + r;
    }
  }

  /** Two reads in a row: together the bytes, and the offset, of one read of both lengths. */
  method ReadTwice(fl: File, f: FileSystem, n1: nat, n2: nat) returns (a: seq<int>, b: seq<int>, panic: bool)
    requires Ready(f, fl.ino) && fl.off < UINT && n1 + n2 < UINT
    modifies fl`off, f`bits, f`disk, f`inodes
    ensures !panic && f.State() == old(f.State())
    ensures fl.readable && old(fl.off) <= f.inodes[fl.ino].size && old(fl.off) + n1 + n2 < UINT ==>
              && a + b == Content(f.State(), fl.ino)[old(fl.off)..Min(old(fl.off) + n1 + n2, f.inodes[fl.ino].size)]
              && fl.off == old(fl.off) + |a + b| && |a| == Min(n1, |a + b|)
    ensures !fl.readable || old(fl.off) > f.inodes[fl.ino].size ==> a == [] && b == [] && fl.off == old(fl.off)
  {
    hide Mapped, Content, BlockTree.Owns, Bitmap.Covers, Bitmap.UsedSet;
    ghost var c, off0 := Content(f.State(), fl.ino), fl.off;
    var r;
    r, a, panic := Fileread(fl, f, n1);
    r, b, panic := Fileread(fl, f, n2);
  }

  /** file.c pread: reads at `off`; the file's own offset stays. */
  method Pread(fl: File, f: FileSystem, n: nat, off: nat) returns (r: int, dst: seq<int>, panic: bool)
    requires Ready(f, fl.ino) && off < UINT && n < UINT
    modifies f`bits, f`disk, f`inodes
    ensures !panic && f.State() == old(f.State()) && f.bits == old(f.bits)
    ensures r == -1 <==> !fl.readable || off > f.inodes[fl.ino].size || off + n >= UINT
    ensures r != -1 ==> r == |dst| && dst == Content(f.State(), fl.ino)[off..Min(off + n, f.inodes[fl.ino].size)]
  {
    if !fl.readable {
      return -1, [], false;
    }
    r, dst, panic := Readi(f, fl.ino, off, n);
  }

  /** file.c filewrite: the chunked loop amounts to one splice at the file's offset. */
  method Filewrite(fl: File, f: FileSystem, addr: seq<int>) returns (r: int, panic: bool)
    requires Ready(f, fl.ino) && fl.off < UINT && |addr| < UINT
    modifies fl`off, f`bits, f`disk, f`inodes, f`dinodes
    ensures f.Valid()
    ensures panic ==> forall c: nat | c < |f.disk| :: c in f.Used()
    ensures panic ==> old(fl.off) + |addr| > old(f.inodes[fl.ino].size)
    ensures !fl.writable ==> r == -1 && !panic && f.State() == old(f.State()) && fl.off == old(fl.off)
    ensures !panic && fl.writable ==>
              var k := Accepted(old(f.inodes[fl.ino].size), old(fl.off), |addr|);
              && Ready(f, fl.ino) && WroteTo(old(f.State()), f.State(), fl.ino, old(fl.off), addr, k)
              && fl.off == old(fl.off) + k
              && r == if k == |addr| then |addr| else -1
  {
    hide Mapped, Content, OthersKept, Splice, BlockTree.Owns, Bitmap.Covers, Bitmap.UsedSet;
    if !fl.writable {
      return -1, false;
    }
    ghost var fs0, off0 := f.State(), fl.off;
    var n := |addr|;
    StartWrote(fs0, fl.ino, off0, addr);
    panic := false;
    var i := 0;
    while i < n
      invariant i <= n && !panic && Ready(f, fl.ino) && fl.off == off0 + i < UINT
      invariant WroteTo(fs0, f.State(), fl.ino, off0, addr, i)
      invariant i == n || i % CHUNK == 0
      invariant i <= Accepted(fs0.inodes[fl.ino].size, off0, n)
      invariant fs0.inodes[fl.ino].size <= f.inodes[fl.ino].size && (i == 0 ==> f.inodes[fl.ino].size == fs0.inodes[fl.ino].size)
      invariant i > 0 ==> off0 <= fs0.inodes[fl.ino].size && off0 + i <= f.inodes[fl.ino].size
    {
      var n1 := n - i;
      if n1 > CHUNK {
        n1 := CHUNK;
      }
      ChunkFits(fs0.inodes[fl.ino].size, off0, n, i, f.inodes[fl.ino].size);
      ghost var fs1 := f.State();
      r, panic := Writei(f, fl.ino, addr[i..i + n1], fl.off);
      if panic { return; }
      if r > 0 {
        fl.off := fl.off + r;
      }
      if r < 0 { break; }
      WroteMore(fs0, fs1, f.State(), fl.ino, off0, addr, i, n1);
      assert f.inodes[fl.ino].size >= off0 + i + n1;
      i := i + r;
    }
    r := if i == n then n else -1;
  }

  /** file.c pwrite: one splice at `off0`; the file's own offset stays. */
  method Pwrite(fl: File, f: FileSystem, addr: seq<int>, off0: nat) returns (r: int, panic: bool)
    requires Ready(f, fl.ino) && off0 < UINT && |addr| < UINT
    modifies f`bits, f`disk, f`inodes, f`dinodes
    ensures f.Valid()
    ensures panic ==> forall c: nat | c < |f.disk| :: c in f.Used()
    ensures panic ==> off0 + |addr| > old(f.inodes[fl.ino].size)
    ensures !fl.writable ==> r == -1 && !panic && f.State() == old(f.State())
    ensures !panic && fl.writable ==>
              var k := Accepted(old(f.inodes[fl.ino].size), off0, |addr|);
              && Ready(f, fl.ino) && WroteTo(old(f.State()), f.State(), fl.ino, off0, addr, k)
              && r == if k == |addr| then |addr| else -1
  {
    hide Mapped, Content, OthersKept, Splice, BlockTree.Owns, Bitmap.Covers, Bitmap.UsedSet;
    if !fl.writable {
      return -1, false;
    }
    ghost var fs0 := f.State();
    var off := off0;
    var n := |addr|;
    StartWrote(fs0, fl.ino, off0, addr);
    panic := false;
    var i := 0;
    while i < n
      invariant i <= n && !panic && Ready(f, fl.ino) && off == off0 + i < UINT
      invariant WroteTo(fs0, f.State(), fl.ino, off0, addr, i)
      invariant i == n || i % CHUNK == 0
      invariant i <= Accepted(fs0.inodes[fl.ino].size, off0, n)
      invariant fs0.inodes[fl.ino].size <= f.inodes[fl.ino].size && (i == 0 ==> f.inodes[fl.ino].size == fs0.inodes[fl.ino].size)
      invariant i > 0 ==> off0 <= fs0.inodes[fl.ino].size && off0 + i <= f.inodes[fl.ino].size
    {
      var n1 := n - i;
      if n1 > CHUNK {
        n1 := CHUNK;
      }
      ChunkFits(fs0.inodes[fl.ino].size, off0, n, i, f.inodes[fl.ino].size);
      ghost var fs1 := f.State();
      r, panic := Writei(f, fl.ino, addr[i..i + n1], off);
      if panic { return; }
      if r > 0 {
        off := off + r;
      }
      if r < 0 { break; }
      WroteMore(fs0, fs1, f.State(), fl.ino, off0, addr, i, n1);
      assert f.inodes[fl.ino].size >= off0 + i + n1;
      i := i + r;
    }
    r := if i == n then n else -1;
  }

  lemma StartWrote(fs: Fs, ino: nat, off: nat, addr: seq<int>)
    requires ino < |fs.inodes|
    ensures WroteTo(fs, fs, ino, off, addr, 0)
  {
  }

  lemma ReadsBack(c: seq<int>, off: nat, src: seq<int>)
    requires off <= |c|
    ensures Splice(c, off, src)[off..off + |src|] == src
  {
  }

  /** A read after a write, of any range: it returns the spliced bytes clipped to the size, so what
      was written when it asks for just that range. */
  method WriteThenRead(f: FileSystem, ino: nat, src: seq<int>, off: nat, off1: nat, n1: nat)
    returns (w: int, r: int, dst: seq<int>, panic: bool)
    requires Ready(f, ino) && off < UINT && |src| < UINT && off1 < UINT && n1 < UINT
    modifies f`bits, f`disk, f`inodes, f`dinodes
    ensures panic ==> forall c: nat | c < |f.disk| :: c in f.Used()
    ensures !panic ==> (w == -1 <==> !Fits(old(f.inodes[ino].size), off, |src|))
    ensures !panic && w >= 0 ==>
              var c := Splice(old(Content(f.State(), ino)), off, src);
              && (r == -1 <==> off1 > |c| || off1 + n1 >= UINT)
              && (r >= 0 ==> dst == c[off1..Min(off1 + n1, |c|)])
              && (off1 == off && n1 == |src| ==> r == |src| && dst == src)
  {
    hide Ptr, PathOf, Owns, ByteAt, Mapped;
    ghost var c := Content(f.State(), ino);
    r, dst := -1, [];
    w, panic := Writei(f, ino, src, off);
    if panic || w < 0 {
      return;
    }
    ReadsBack(c, off, src);
    r, dst, panic := Readi(f, ino, off1, n1);
  }

  /** Truncation empties one file and changes no byte of any other. */
  lemma TruncateKeepsOthers(fs: Fs, used: set<nat>, nmeta: nat, ino: nat)
    requires Owns(fs, used, nmeta) && ino < |fs.inodes|
    ensures OthersKept(fs, Cleared(fs, ino), ino)
    ensures FileOk(Cleared(fs, ino), ino) && Content(Cleared(fs, ino), ino) == []
  {
    hide Owns, Ptr;
    var fs' := Cleared(fs, ino);
    ClearedOwns(fs, used, nmeta, ino);
    forall i: nat, bn: nat | i < |fs.inodes| && i != ino && bn < MAXFILE
      ensures Ptr(fs', Loc(i, PathOf(bn))) == Ptr(fs, Loc(i, PathOf(bn)))
    {
      LeafLoc(fs, i, bn);
    }
    hide PathOf;
    forall i: nat, k: nat | i < |fs.inodes| && i != ino
      ensures ByteAt(fs', i, k) == ByteAt(fs, i, k)
    {
    }
  }
}
