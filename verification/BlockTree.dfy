/** The block tree of an inode: ten direct pointers, then a single, a double and a triple
    indirect block. A pointer is named by the inode and the path of slots that leads to it. */
module BlockTree {

  const BSIZE: nat := 512
  const NDIRECT: nat := 10
  const NINDIRECT: nat := 128
  const N2INDIRECT: nat := 16384
  const N3INDIRECT: nat := 2097152
  const MAXFILE: nat := 2113674    // NDIRECT + NINDIRECT + N2INDIRECT + N3INDIRECT
  const NADDRS: nat := 13

  /** A disk block is used as an array of pointers or as bytes of a file; a zeroed block is
      both. Reading one kind as the other is excluded by the types of the accessors below. */
  datatype Block = Zero | Index(ptrs: seq<nat>) | Data(bytes: seq<int>)

  predicate WellSized(b: Block) {
    match b
    case Zero => true
    case Index(ptrs) => |ptrs| == NINDIRECT
    case Data(bytes) => |bytes| == BSIZE
  }

  function Pointers(b: Block): (a: seq<nat>)
    requires WellSized(b) && !b.Data?
    ensures |a| == NINDIRECT
  {
    if b.Index? then b.ptrs else seq(NINDIRECT, _ => 0)
  }

  function Bytes(b: Block): (a: seq<int>)
    requires WellSized(b) && !b.Index?
    ensures |a| == BSIZE
  {
    if b.Data? then b.bytes else seq(BSIZE, _ => 0)
  }

  datatype Inode = Inode(addrs: seq<nat>, size: nat)

  datatype Fs = Fs(disk: seq<Block>, inodes: seq<Inode>)

  /** The place where a pointer is stored: root slot `path[0]` of inode `ino`, then a slot of the
      index block reached so far, and so on. */
  datatype Loc = Loc(ino: nat, path: seq<nat>)

  // ---------------------------------------------------------------- paths

  /** How many index blocks lie between a root slot and the file's data. */
  function Depth(root: nat): nat {
    if root < NDIRECT then 0 else root - NDIRECT + 1
  }

  predicate IsPath(p: seq<nat>) {
    && |p| >= 1 && p[0] < NADDRS && |p| <= 1 + Depth(p[0])
    && forall i | 1 <= i < |p| :: p[i] < NINDIRECT
  }

  predicate IsLeaf(p: seq<nat>) { IsPath(p) && |p| == 1 + Depth(p[0]) }

  /** Where the pointer to block `bn` of a file is kept. */
  function PathOf(bn: nat): (p: seq<nat>)
    requires bn < MAXFILE
    ensures IsLeaf(p)
  {
    if bn < NDIRECT then [bn]
    else if bn - NDIRECT < NINDIRECT then [NDIRECT, bn - NDIRECT]
    else if bn - NDIRECT - NINDIRECT < N2INDIRECT then
      var b := bn - NDIRECT - NINDIRECT;
      [NDIRECT + 1, b / NINDIRECT, b % NINDIRECT]
    else
      var b := bn - NDIRECT - NINDIRECT - N2INDIRECT;
      [NDIRECT + 2, b / N2INDIRECT, (b % N2INDIRECT) / NINDIRECT, (b % N2INDIRECT) % NINDIRECT]
  }

  /** The block number a leaf stands for. */
  function BlockOf(p: seq<nat>): (bn: nat)
    requires IsLeaf(p)
  {
    if p[0] < NDIRECT then p[0]
    else if p[0] == NDIRECT then NDIRECT + p[1]
    else if p[0] == NDIRECT + 1 then NDIRECT + NINDIRECT + p[1] * NINDIRECT + p[2]
    else NDIRECT + NINDIRECT + N2INDIRECT + p[1] * N2INDIRECT + p[2] * NINDIRECT + p[3]
  }

  /** Block numbers below MAXFILE and leaves of the tree correspond one to one. */
  lemma PathOfInverts(bn: nat)
    requires bn < MAXFILE
    ensures BlockOf(PathOf(bn)) == bn
  {
  }

  lemma BlockOfInverts(p: seq<nat>)
    requires IsLeaf(p)
    ensures BlockOf(p) < MAXFILE && PathOf(BlockOf(p)) == p
  {
    if p[0] == NDIRECT + 2 {
      assert p[1] * N2INDIRECT + p[2] * NINDIRECT + p[3] < N3INDIRECT;
    }
  }

  // ---------------------------------------------------------------- pointers and ownership

  function Entry(fs: Fs, q: nat, j: nat): nat {
    if q < |fs.disk| && WellSized(fs.disk[q]) && !fs.disk[q].Data? && j < NINDIRECT
    then Pointers(fs.disk[q])[j] else 0
  }

  function Parent(m: Loc): Loc
    requires |m.path| >= 2
  {
    Loc(m.ino, m.path[..|m.path| - 1])
  }

  function Last(m: Loc): nat
    requires |m.path| >= 1
  {
    m.path[|m.path| - 1]
  }

  /** The block number stored at a place; 0 means there is none. */
  function Ptr(fs: Fs, m: Loc): nat
    decreases |m.path|
  {
    if m.ino >= |fs.inodes| || m.path == [] then 0
    else if |m.path| == 1 then
      var addrs := fs.inodes[m.ino].addrs;
      if m.path[0] < |addrs| then addrs[m.path[0]] else 0
    else
      var q := Ptr(fs, Parent(m));
      if q == 0 then 0 else Entry(fs, q, Last(m))
  }

  predicate IsLoc(fs: Fs, m: Loc) { m.ino < |fs.inodes| && IsPath(m.path) }

  ghost predicate WellFormed(fs: Fs) {
    && (forall i | 0 <= i < |fs.inodes| :: |fs.inodes[i].addrs| == NADDRS)
    && (forall b | 0 <= b < |fs.disk| :: WellSized(fs.disk[b]))
  }

  /** The place holds a proper block: in the data area, marked used, and of the kind its depth
      in the tree calls for. */
  ghost predicate Proper(fs: Fs, used: set<nat>, nmeta: nat, m: Loc) {
    var b := Ptr(fs, m);
    b != 0 ==>
      && nmeta <= b < |fs.disk| && b in used
      && if IsLeaf(m.path) then !fs.disk[b].Index? else !fs.disk[b].Data?
  }

  /** Two places never hold the same block. */
  ghost predicate Unshared(fs: Fs) {
    forall m, m' | IsLoc(fs, m) && IsLoc(fs, m') && Ptr(fs, m) == Ptr(fs, m') != 0 :: m == m'
  }

  ghost predicate Owns(fs: Fs, used: set<nat>, nmeta: nat) {
    && WellFormed(fs)
    && 1 <= nmeta && (forall b | 0 <= b < nmeta :: b in used)
    && (forall m | IsLoc(fs, m) :: Proper(fs, used, nmeta, m))
    && Unshared(fs)
  }

  /** Block numbers below MAXFILE that are mapped at all are mapped to different disk blocks. */
  lemma BlocksDistinct(fs: Fs, used: set<nat>, nmeta: nat, ino: nat, bn: nat, ino': nat, bn': nat)
    requires Owns(fs, used, nmeta) && ino < |fs.inodes| && ino' < |fs.inodes| && bn < MAXFILE && bn' < MAXFILE
    requires Ptr(fs, Loc(ino, PathOf(bn))) == Ptr(fs, Loc(ino', PathOf(bn'))) != 0
    ensures ino == ino' && bn == bn'
  {
    PathOfInverts(bn);
    PathOfInverts(bn');
  }

  // ---------------------------------------------------------------- adding one block

  /** A place that can receive a block: empty, with the index block that contains it present. */
  ghost predicate CanLink(fs: Fs, l: Loc) {
    && IsLoc(fs, l) && Ptr(fs, l) == 0
    && (|l.path| >= 2 ==> Ptr(fs, Parent(l)) != 0)
  }

  /** The block holding the slot `l`, when it is not a root slot. */
  function Holder(fs: Fs, l: Loc): nat {
    if |l.path| >= 2 then Ptr(fs, Parent(l)) else 0
  }

  /** Block `b` zeroed and stored at `l`. */
  function Link(fs: Fs, l: Loc, b: nat): (fs': Fs)
    requires WellFormed(fs) && IsLoc(fs, l) && b < |fs.disk|
    requires Holder(fs, l) < |fs.disk| && (|l.path| >= 2 ==> !fs.disk[Holder(fs, l)].Data?)
  {
    if |l.path| == 1 then
      var ip := fs.inodes[l.ino];
      Fs(fs.disk[b := Zero], fs.inodes[l.ino := ip.(addrs := ip.addrs[l.path[0] := b])])
    else
      var q := Holder(fs, l);
      Fs(fs.disk[b := Zero][q := Index(Pointers(fs.disk[q])[Last(l) := b])], fs.inodes)
  }

  lemma ParentIsLoc(fs: Fs, m: Loc)
    requires IsLoc(fs, m) && |m.path| >= 2
    ensures IsLoc(fs, Parent(m)) && !IsLeaf(Parent(m).path)
    ensures m == Loc(m.ino, Parent(m).path + [Last(m)])
  {
  }

  lemma CanLinkHolder(fs: Fs, used: set<nat>, nmeta: nat, l: Loc)
    requires Owns(fs, used, nmeta) && CanLink(fs, l) && |fs.disk| > 0
    ensures Holder(fs, l) < |fs.disk| && (|l.path| >= 2 ==> Holder(fs, l) in used && !fs.disk[Holder(fs, l)].Data?)
  {
    if |l.path| >= 2 {
      ParentIsLoc(fs, l);
      assert Proper(fs, used, nmeta, Parent(l));
    }
  }

  lemma LinkEntry(fs: Fs, l: Loc, b: nat, q: nat, j: nat)
    requires WellFormed(fs) && IsLoc(fs, l) && b < |fs.disk|
    requires Holder(fs, l) < |fs.disk| && (|l.path| >= 2 ==> !fs.disk[Holder(fs, l)].Data?)
    requires q < |fs.disk| && !fs.disk[q].Data? && q != b
    ensures Entry(Link(fs, l, b), q, j) ==
            if |l.path| >= 2 && q == Holder(fs, l) && j == Last(l) then b else Entry(fs, q, j)
  {
  }

  lemma LinkRoot(fs: Fs, l: Loc, b: nat, m: Loc)
    requires WellFormed(fs) && IsLoc(fs, l) && b < |fs.disk| && IsLoc(fs, m)
    requires Holder(fs, l) < |fs.disk| && (|l.path| >= 2 ==> !fs.disk[Holder(fs, l)].Data?)
    ensures |m.path| == 1 ==> Ptr(Link(fs, l, b), m) == if m == l then b else Ptr(fs, m)
    ensures |Link(fs, l, b).inodes| == |fs.inodes|
    ensures |l.path| == 1 || Holder(fs, l) != b ==> Link(fs, l, b).disk[b] == Zero
  {
  }

  /** Storing a fresh block at one place changes what is stored nowhere else. */
  lemma {:induction false} LinkPtr(fs: Fs, used: set<nat>, nmeta: nat, l: Loc, b: nat, m: Loc)
    requires Owns(fs, used, nmeta) && CanLink(fs, l) && b !in used && nmeta <= b < |fs.disk|
    requires Holder(fs, l) < |fs.disk| && (|l.path| >= 2 ==> !fs.disk[Holder(fs, l)].Data?)
    requires IsLoc(fs, m)
    ensures Ptr(Link(fs, l, b), m) == if m == l then b else Ptr(fs, m)
    decreases |m.path|
  {
    hide Link;
    LinkRoot(fs, l, b, m);
    if |m.path| >= 2 {
      ParentIsLoc(fs, m);
      var q := Ptr(fs, Parent(m));
      LinkPtr(fs, used, nmeta, l, b, Parent(m));
      CanLinkHolder(fs, used, nmeta, l);
      if q != 0 {
        assert Proper(fs, used, nmeta, Parent(m));
        LinkEntry(fs, l, b, q, Last(m));
        if |l.path| >= 2 {
          ParentIsLoc(fs, l);
        }
      }
    }
  }

  /** Adding a fresh block keeps ownership, and leaves every block that already holds file data
      as it was. */
  lemma LinkOwns(fs: Fs, used: set<nat>, nmeta: nat, l: Loc, b: nat)
    requires Owns(fs, used, nmeta) && CanLink(fs, l) && b !in used && nmeta <= b < |fs.disk|
    requires Holder(fs, l) < |fs.disk| && (|l.path| >= 2 ==> !fs.disk[Holder(fs, l)].Data?)
    ensures Owns(Link(fs, l, b), used + {b}, nmeta)
    ensures forall m | IsLoc(fs, m) :: Ptr(Link(fs, l, b), m) == if m == l then b else Ptr(fs, m)
    ensures forall m | IsLoc(fs, m) && IsLeaf(m.path) && Ptr(fs, m) != 0 ::
              Ptr(fs, m) < |fs.disk| && Link(fs, l, b).disk[Ptr(fs, m)] == fs.disk[Ptr(fs, m)]
    ensures Link(fs, l, b).disk[b] == Zero
  {
    hide Link, Ptr, IsPath, IsLeaf;
    var fs' := Link(fs, l, b);
    CanLinkHolder(fs, used, nmeta, l);
    LinkRoot(fs, l, b, l);
    LinkWellFormed(fs, l, b);
    forall m | IsLoc(fs, m)
      ensures Ptr(fs', m) == if m == l then b else Ptr(fs, m)
      ensures IsLoc(fs', m) && Proper(fs', used + {b}, nmeta, m)
      ensures IsLeaf(m.path) && Ptr(fs, m) != 0 ==>
                Ptr(fs, m) < |fs.disk| && fs'.disk[Ptr(fs, m)] == fs.disk[Ptr(fs, m)]
    {
      LinkPtr(fs, used, nmeta, l, b, m);
      assert Proper(fs, used, nmeta, m);
      if Ptr(fs, m) != 0 {
        LinkKeepsKind(fs, used, nmeta, l, b, m);
      }
    }
    forall m, m' | IsLoc(fs', m) && IsLoc(fs', m') && Ptr(fs', m) == Ptr(fs', m') != 0
      ensures m == m'
    {
      assert Proper(fs, used, nmeta, m) && Proper(fs, used, nmeta, m');
    }
  }

  lemma LinkWellFormed(fs: Fs, l: Loc, b: nat)
    requires WellFormed(fs) && IsLoc(fs, l) && b < |fs.disk|
    requires Holder(fs, l) < |fs.disk| && (|l.path| >= 2 ==> !fs.disk[Holder(fs, l)].Data?)
    ensures WellFormed(Link(fs, l, b))
    ensures |Link(fs, l, b).disk| == |fs.disk|
  {
  }

  lemma LinkKeepsKind(fs: Fs, used: set<nat>, nmeta: nat, l: Loc, b: nat, m: Loc)
    requires Owns(fs, used, nmeta) && CanLink(fs, l) && b !in used && nmeta <= b < |fs.disk|
    requires Holder(fs, l) < |fs.disk| && (|l.path| >= 2 ==> !fs.disk[Holder(fs, l)].Data?)
    requires IsLoc(fs, m) && Ptr(fs, m) != 0
    ensures Ptr(fs, m) < |fs.disk| && Ptr(fs, m) in used
    ensures IsLeaf(m.path) ==> Link(fs, l, b).disk[Ptr(fs, m)] == fs.disk[Ptr(fs, m)]
    ensures !IsLeaf(m.path) ==> !Link(fs, l, b).disk[Ptr(fs, m)].Data?
  {
  }
}
