/** The blocks of a subtree, and what is left of the file system when an inode's tree is gone. */
module Truncate {
  import opened BlockTree

  /** Block `b` is held at some place at or below path `p` of inode `ino`. */
  ghost predicate HeldUnder(fs: Fs, ino: nat, p: seq<nat>, b: nat) {
    exists m :: IsLoc(fs, m) && m.ino == ino && p <= m.path && b == Ptr(fs, m) != 0
  }

  ghost function BlocksUnder(fs: Fs, ino: nat, p: seq<nat>): set<nat> {
    set b: nat | b < |fs.disk| && HeldUnder(fs, ino, p, b)
  }

  /** The blocks under the first `n` slots of the index block at `p`; of the inode itself, when
      `p` is empty. */
  ghost function BlocksBefore(fs: Fs, ino: nat, p: seq<nat>, n: nat): set<nat>
    decreases n
  {
    if n == 0 then {} else BlocksBefore(fs, ino, p, n - 1) + BlocksUnder(fs, ino, p + [n - 1])
  }

  lemma {:induction false} BeforeMember(fs: Fs, ino: nat, p: seq<nat>, n: nat, b: nat)
    ensures b in BlocksBefore(fs, ino, p, n) <==> exists i: nat :: i < n && b in BlocksUnder(fs, ino, p + [i])
    decreases n
  {
    hide BlocksUnder;
    if n > 0 {
      BeforeMember(fs, ino, p, n - 1, b);
    }
  }

  lemma {:induction false} AboveNonzero(fs: Fs, ino: nat, p: seq<nat>, q: seq<nat>)
    requires p <= q && 1 <= |p| && Ptr(fs, Loc(ino, q)) != 0
    ensures Ptr(fs, Loc(ino, p)) != 0
    decreases |q|
  {
    if |p| < |q| {
      AboveNonzero(fs, ino, p, q[..|q| - 1]);
    } else {
      assert p == q;
    }
  }

  lemma UnderEmpty(fs: Fs, ino: nat, p: seq<nat>)
    requires 1 <= |p| && Ptr(fs, Loc(ino, p)) == 0
    ensures BlocksUnder(fs, ino, p) == {}
  {
    forall m | IsLoc(fs, m) && m.ino == ino && p <= m.path
      ensures Ptr(fs, m) == 0
    {
      if Ptr(fs, m) != 0 {
        AboveNonzero(fs, ino, p, m.path);
      }
    }
  }

  lemma UnderLeaf(fs: Fs, ino: nat, p: seq<nat>)
    requires ino < |fs.inodes| && IsLeaf(p) && 0 < Ptr(fs, Loc(ino, p)) < |fs.disk|
    ensures BlocksUnder(fs, ino, p) == {Ptr(fs, Loc(ino, p))}
  {
    assert IsLoc(fs, Loc(ino, p));
    forall m | IsLoc(fs, m) && m.ino == ino && p <= m.path
      ensures m == Loc(ino, p)
    {
    }
  }

  /** How many slots there are right below `p`. */
  function Slots(p: seq<nat>): nat { if p == [] then NADDRS else NINDIRECT }

  /** What is held below `p`, other than at `p` itself, is held below one of its slots. */
  lemma SplitHeld(fs: Fs, ino: nat, p: seq<nat>, b: nat) returns (i: nat)
    requires HeldUnder(fs, ino, p, b) && (p != [] ==> b != Ptr(fs, Loc(ino, p)))
    ensures i < Slots(p) && HeldUnder(fs, ino, p + [i], b)
  {
    hide Ptr;
    var m :| IsLoc(fs, m) && m.ino == ino && p <= m.path && b == Ptr(fs, m) != 0;
    assert m.path != p;
    i := m.path[|p|];
    assert p + [i] <= m.path;
  }

  lemma JoinHeld(fs: Fs, ino: nat, p: seq<nat>, i: nat, b: nat)
    requires HeldUnder(fs, ino, p + [i], b)
    ensures HeldUnder(fs, ino, p, b)
  {
  }

  lemma UnderSlots(fs: Fs, ino: nat, p: seq<nat>, b: nat)
    requires b < |fs.disk| && (p != [] ==> b != Ptr(fs, Loc(ino, p)))
    ensures HeldUnder(fs, ino, p, b) <==> b in BlocksBefore(fs, ino, p, Slots(p))
  {
    hide Ptr, HeldUnder, BlocksBefore;
    BeforeMember(fs, ino, p, Slots(p), b);
    if HeldUnder(fs, ino, p, b) {
      var i := SplitHeld(fs, ino, p, b);
      assert b in BlocksUnder(fs, ino, p + [i]);
    } else if b in BlocksBefore(fs, ino, p, Slots(p)) {
      var i: nat :| i < Slots(p) && b in BlocksUnder(fs, ino, p + [i]);
      JoinHeld(fs, ino, p, i, b);
    }
  }

  /** An index block's subtree is the block itself and the subtrees of its slots. */
  lemma UnderIndex(fs: Fs, ino: nat, p: seq<nat>)
    requires ino < |fs.inodes| && IsPath(p) && 0 < Ptr(fs, Loc(ino, p)) < |fs.disk|
    ensures BlocksUnder(fs, ino, p) == {Ptr(fs, Loc(ino, p))} + BlocksBefore(fs, ino, p, NINDIRECT)
  {
    hide BlocksBefore;
    assert HeldUnder(fs, ino, p, Ptr(fs, Loc(ino, p))) by { assert IsLoc(fs, Loc(ino, p)); }
    hide Ptr, HeldUnder, IsPath;
    BeforeBounded(fs, ino, p, NINDIRECT);
    forall b: nat | b < |fs.disk| && b != Ptr(fs, Loc(ino, p))
      ensures HeldUnder(fs, ino, p, b) <==> b in BlocksBefore(fs, ino, p, NINDIRECT)
    {
      UnderSlots(fs, ino, p, b);
    }
  }

  /** The whole tree is the subtrees of the thirteen root slots. */
  lemma UnderRoots(fs: Fs, ino: nat)
    ensures BlocksUnder(fs, ino, []) == BlocksBefore(fs, ino, [], NADDRS)
  {
    hide BlocksBefore, HeldUnder;
    BeforeBounded(fs, ino, [], NADDRS);
    forall b: nat | b < |fs.disk|
      ensures HeldUnder(fs, ino, [], b) <==> b in BlocksBefore(fs, ino, [], NADDRS)
    {
      UnderSlots(fs, ino, [], b);
    }
  }

  lemma {:induction false} BeforeBounded(fs: Fs, ino: nat, p: seq<nat>, n: nat)
    ensures forall b <- BlocksBefore(fs, ino, p, n) :: b < |fs.disk|
    decreases n
  {
    if n > 0 {
      BeforeBounded(fs, ino, p, n - 1);
    }
  }

  /** Different slots have disjoint subtrees, and none contains the index block above them. */
  lemma UnderDisjoint(fs: Fs, ino: nat, p: seq<nat>, n: nat)
    requires Unshared(fs)
    ensures BlocksBefore(fs, ino, p, n) !! BlocksUnder(fs, ino, p + [n])
    ensures |p| >= 1 && IsLoc(fs, Loc(ino, p)) ==> Ptr(fs, Loc(ino, p)) !in BlocksBefore(fs, ino, p, n)
  {
    forall b | b in BlocksBefore(fs, ino, p, n)
      ensures b !in BlocksUnder(fs, ino, p + [n])
      ensures |p| >= 1 && IsLoc(fs, Loc(ino, p)) ==> Ptr(fs, Loc(ino, p)) != b
    {
      BeforeMember(fs, ino, p, n, b);
      var i: nat :| i < n && b in BlocksUnder(fs, ino, p + [i]);
      var m :| IsLoc(fs, m) && m.ino == ino && p + [i] <= m.path && b == Ptr(fs, m) != 0;
      assert m.path[|p|] == i;
    }
  }

  /** What freeing the slots of the index block at `p` in turn relies on at slot `j`. */
  lemma AtSlot(fs: Fs, used: set<nat>, nmeta: nat, ino: nat, p: seq<nat>, j: nat)
    requires Owns(fs, used, nmeta) && ino < |fs.inodes| && j < Slots(p)
    requires p != [] ==> IsPath(p) && !IsLeaf(p) && Ptr(fs, Loc(ino, p)) != 0
    ensures BlocksUnder(fs, ino, p + [j]) <= BlocksUnder(fs, ino, p)
    ensures BlocksBefore(fs, ino, p, j) !! BlocksUnder(fs, ino, p + [j])
    ensures IsLoc(fs, Loc(ino, p + [j]))
    ensures p != [] ==>
              var q := Ptr(fs, Loc(ino, p));
              && q < |fs.disk| && !fs.disk[q].Data? && WellSized(fs.disk[q])
              && Ptr(fs, Loc(ino, p + [j])) == Pointers(fs.disk[q])[j]
    ensures Ptr(fs, Loc(ino, p + [j])) == 0 ==> BlocksUnder(fs, ino, p + [j]) == {}
    ensures IsLeaf(p + [j]) && Ptr(fs, Loc(ino, p + [j])) != 0 ==>
              BlocksUnder(fs, ino, p + [j]) == {Ptr(fs, Loc(ino, p + [j]))}
  {
    hide BlocksBefore, HeldUnder;
    var child := Loc(ino, p + [j]);
    UnderDisjoint(fs, ino, p, j);
    forall b | b in BlocksUnder(fs, ino, p + [j])
      ensures b in BlocksUnder(fs, ino, p)
    {
      JoinHeld(fs, ino, p, j, b);
    }
    if p != [] {
      assert Parent(child) == Loc(ino, p);
      assert IsLoc(fs, Loc(ino, p)) && Proper(fs, used, nmeta, Loc(ino, p));
    }
    assert IsLoc(fs, child) && Proper(fs, used, nmeta, child);
    if Ptr(fs, child) == 0 {
      UnderEmpty(fs, ino, p + [j]);
    } else if IsLeaf(p + [j]) {
      UnderLeaf(fs, ino, p + [j]);
    }
  }

  /** The index block itself comes last: by then only it is left of its subtree. */
  lemma AtIndex(fs: Fs, used: set<nat>, nmeta: nat, ino: nat, p: seq<nat>)
    requires Owns(fs, used, nmeta) && ino < |fs.inodes| && IsPath(p) && Ptr(fs, Loc(ino, p)) != 0
    ensures Ptr(fs, Loc(ino, p)) < |fs.disk|
    ensures BlocksUnder(fs, ino, p) == {Ptr(fs, Loc(ino, p))} + BlocksBefore(fs, ino, p, NINDIRECT)
    ensures Ptr(fs, Loc(ino, p)) !in BlocksBefore(fs, ino, p, NINDIRECT)
  {
    assert IsLoc(fs, Loc(ino, p)) && Proper(fs, used, nmeta, Loc(ino, p));
    UnderIndex(fs, ino, p);
    UnderDisjoint(fs, ino, p, NINDIRECT);
  }

  // ---------------------------------------------------------------- after the tree is gone

  function Cleared(fs: Fs, ino: nat): Fs
    requires ino < |fs.inodes|
  {
    fs.(inodes := fs.inodes[ino := Inode(seq(NADDRS, _ => 0), 0)])
  }

  lemma {:induction false} ClearedPtr(fs: Fs, ino: nat, m: Loc)
    requires ino < |fs.inodes|
    ensures Ptr(Cleared(fs, ino), m) == if m.ino == ino then 0 else Ptr(fs, m)
    decreases |m.path|
  {
    if |m.path| >= 2 {
      ClearedPtr(fs, ino, Parent(m));
    }
  }

  /** One root slot emptied. */
  function SlotCleared(fs: Fs, ino: nat, r: nat): Fs
    requires ino < |fs.inodes| && r < |fs.inodes[ino].addrs|
  {
    fs.(inodes := fs.inodes[ino := fs.inodes[ino].(addrs := fs.inodes[ino].addrs[r := 0])])
  }

  /** Nothing below the slot is reachable any more, and everything else is where it was. */
  lemma {:induction false} SlotClearedPtr(fs: Fs, ino: nat, r: nat, m: Loc)
    requires ino < |fs.inodes| && r < |fs.inodes[ino].addrs|
    ensures Ptr(SlotCleared(fs, ino, r), m) == if m.ino == ino && m.path != [] && m.path[0] == r then 0 else Ptr(fs, m)
    decreases |m.path|
  {
    if |m.path| >= 2 {
      SlotClearedPtr(fs, ino, r, Parent(m));
    }
  }

  /** Dropping a whole tree and exactly its blocks from the used set keeps ownership: every
      block of every other inode stays allocated. */
  lemma ClearedOwns(fs: Fs, used: set<nat>, nmeta: nat, ino: nat)
    requires Owns(fs, used, nmeta) && ino < |fs.inodes|
    ensures Owns(Cleared(fs, ino), used - BlocksUnder(fs, ino, []), nmeta)
    ensures forall m | IsLoc(fs, m) && m.ino != ino :: Ptr(Cleared(fs, ino), m) == Ptr(fs, m)
    ensures forall m | IsLoc(fs, m) && m.ino == ino :: Ptr(Cleared(fs, ino), m) == 0
  {
    hide Ptr, IsPath, IsLeaf;
    var fs', used' := Cleared(fs, ino), used - BlocksUnder(fs, ino, []);
    forall m | IsLoc(fs, m)
      ensures Ptr(fs', m) == if m.ino == ino then 0 else Ptr(fs, m)
      ensures Proper(fs', used', nmeta, m)
    {
      ClearedPtr(fs, ino, m);
      assert Proper(fs, used, nmeta, m);
    }
  }
}
