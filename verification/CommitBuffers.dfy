/** commit() of log.c on the buffer cache of bio.c. The cache has as many buffers as the log may have
    entries, and every entry pins one; commit needs one more for the log block it writes. */
module CommitBuffers {
  import opened Options
  import opened LruRing
  import opened BufferCache
  import RedoLog
  import CrashSafety
  import LogReservation

  // ---------------------------------------------------------------- pinned blocks

  ghost predicate Different(lh: seq<nat>) { forall i, j | 0 <= i < j < |lh| :: lh[i] != lh[j] }

  ghost predicate Pins(bufs: seq<Buf>, b: nat, n: nat) { b < |bufs| && bufs[b].dirty && Key(bufs, b, 1, n) }

  /** The dirty buffers are those of the blocks in the log header. */
  ghost predicate Pinned(bufs: seq<Buf>, lh: seq<nat>) {
    && (forall b: nat | b < |bufs| && bufs[b].dirty :: bufs[b].blockno in lh)
    && (forall n <- lh :: exists b: nat :: Pins(bufs, b, n))
  }

  ghost predicate AllDirty(bufs: seq<Buf>) { forall b: nat | b < |bufs| :: bufs[b].dirty }

  /** Nobody is using a buffer. */
  ghost predicate Quiet(k: Book) { k.claims == map[] && k.edited == {} }

  // ---------------------------------------------------------------- how many there are

  ghost function Range(n: nat): set<nat> { if n == 0 then {} else Range(n - 1) + {n - 1} }

  lemma {:induction false} RangeIs(n: nat)
    ensures |Range(n)| == n && forall b: nat :: b in Range(n) <==> b < n
  {
    if n > 0 {
      RangeIs(n - 1);
      assert n - 1 !in Range(n - 1);
    }
  }

  lemma {:induction false} Subset(a: set<nat>, b: set<nat>)
    requires a <= b
    ensures |a| <= |b| && (|a| == |b| ==> a == b)
  {
    assert b == a + (b - a);
    assert |b| == |a| + |b - a|;
  }

  /** A dirty buffer is the one of its block. */
  lemma PinsOnce(bufs: seq<Buf>, disk: seq<Data>, k: Book, b: nat, n: nat, x: nat)
    requires Agree(bufs, disk, k) && b < |bufs| && bufs[b].dirty && bufs[b].blockno == n && Pins(bufs, x, n)
    ensures b == x
  {
    Alone(bufs, x, b);
  }

  /** One buffer for each of the first `n` entries. */
  lemma {:induction false} Indices(bufs: seq<Buf>, disk: seq<Data>, k: Book, lh: seq<nat>, n: nat) returns (s: set<nat>)
    requires |bufs| == NBUF && Agree(bufs, disk, k) && Pinned(bufs, lh) && Different(lh) && n <= |lh|
    ensures |s| == n
    ensures forall b: nat :: b in s <==> b < NBUF && bufs[b].dirty && bufs[b].blockno in lh[..n]
    decreases n
  {
    hide Agree;
    if n == 0 {
      s := {};
    } else {
      var s0 := Indices(bufs, disk, k, lh, n - 1);
      assert lh[n - 1] in lh;
      var x: nat :| Pins(bufs, x, lh[n - 1]);
      s := s0 + {x};
      forall b: nat | b < NBUF && bufs[b].dirty && bufs[b].blockno == lh[n - 1]
        ensures b == x
      {
        PinsOnce(bufs, disk, k, b, lh[n - 1], x);
      }
      hide Pinned;
      OneIndexMore(bufs, lh, n, s0, x);
    }
  }

  lemma OneIndexMore(bufs: seq<Buf>, lh: seq<nat>, n: nat, s0: set<nat>, x: nat)
    requires |bufs| == NBUF && 1 <= n <= |lh| && Different(lh) && Pins(bufs, x, lh[n - 1])
    requires forall b: nat | b < NBUF && bufs[b].dirty && bufs[b].blockno == lh[n - 1] :: b == x
    requires forall b: nat :: b in s0 <==> b < NBUF && bufs[b].dirty && bufs[b].blockno in lh[..n - 1]
    ensures x !in s0
    ensures forall b: nat :: b in s0 + {x} <==> b < NBUF && bufs[b].dirty && bufs[b].blockno in lh[..n]
  {
    assert lh[..n] == lh[..n - 1] + [lh[n - 1]];
    assert lh[n - 1] !in lh[..n - 1];
  }

  /** Every entry of the header pins one buffer, so all are pinned exactly when there are NBUF. */
  lemma AllDirtyIff(bufs: seq<Buf>, disk: seq<Data>, k: Book, lh: seq<nat>)
    requires |bufs| == NBUF && Agree(bufs, disk, k) && Pinned(bufs, lh) && Different(lh)
    ensures |lh| <= NBUF && (AllDirty(bufs) <==> |lh| == NBUF)
  {
    hide Agree, Range;
    var s := Indices(bufs, disk, k, lh, |lh|);
    assert lh[..|lh|] == lh;
    RangeIs(NBUF);
    assert s <= Range(NBUF);
    Subset(s, Range(NBUF));
    assert AllDirty(bufs) ==> Range(NBUF) <= s && s == Range(NBUF);
    if |lh| == NBUF {
      forall b: nat | b < |bufs|
        ensures bufs[b].dirty
      {
        assert b in Range(NBUF);
      }
    }
  }

  // ---------------------------------------------------------------- what the breads of commit find

  lemma QuietBuffers(bufs: seq<Buf>, disk: seq<Data>, k: Book)
    requires Agree(bufs, disk, k) && Quiet(k)
    ensures |bufs| == NBUF && forall b: nat | b < NBUF :: bufs[b].refcnt == 0 && !bufs[b].locked
  {
    hide Unique, Current;
    forall b: nat | b < NBUF
      ensures bufs[b].refcnt == 0 && !bufs[b].locked
    {
      assert forall t: nat :: t in k.users[b] ==> t in k.claims;
      assert forall t: nat :: t !in k.users[b];
      assert k.users[b] == {};
    }
  }

  /** A block that is not pinned can be read in if and only if some buffer is clean. */
  lemma ReadableIff(bufs: seq<Buf>, disk: seq<Data>, k: Book, lh: seq<nat>, n: nat)
    requires Agree(bufs, disk, k) && Quiet(k) && Pinned(bufs, lh) && n !in lh
    ensures (!Cached(bufs, 1, n) && forall x <- bufs :: !Recyclable(x)) <==> AllDirty(bufs)
  {
    QuietBuffers(bufs, disk, k);
    assert AllDirty(bufs) ==> forall b: nat | b < |bufs| :: bufs[b].blockno in lh;
    if !AllDirty(bufs) {
      var b: nat :| b < |bufs| && !bufs[b].dirty;
      assert Recyclable(bufs[b]) && bufs[b] in bufs;
    }
  }

  /** Reading a buffer in or taking it up again pins and unpins nothing. */
  lemma PinnedKept(bufs: seq<Buf>, bufs': seq<Buf>, a: nat, lh: seq<nat>)
    requires Pinned(bufs, lh) && a < |bufs| == |bufs'| && bufs'[a].dirty == bufs[a].dirty
    requires bufs[a].dirty ==> bufs'[a].dev == bufs[a].dev && bufs'[a].blockno == bufs[a].blockno
    requires forall c | 0 <= c < |bufs| && c != a :: bufs'[c] == bufs[c]
    ensures Pinned(bufs', lh)
  {
    forall n | n in lh
      ensures exists b: nat :: Pins(bufs', b, n)
    {
      var b: nat :| Pins(bufs, b, n);
      assert Pins(bufs', b, n);
    }
  }

  /** The buffer of block `home` is written out, so only the other entries pin theirs. */
  lemma PinnedLess(bufs: seq<Buf>, disk: seq<Data>, k: Book, bufs': seq<Buf>, a: nat, lh: seq<nat>)
    requires Agree(bufs, disk, k) && Pinned(bufs, lh) && Different(lh) && lh != []
    requires a < |bufs| == |bufs'| && Key(bufs, a, 1, lh[0]) && !bufs'[a].dirty
    requires forall c | 0 <= c < |bufs| && c != a :: bufs'[c].dirty == bufs[c].dirty && bufs'[c].dev == bufs[c].dev && bufs'[c].blockno == bufs[c].blockno
    ensures Pinned(bufs', lh[1..])
  {
    hide Agree;
    assert forall n <- lh[1..] :: n in lh && n != lh[0];
    forall n | n in lh[1..]
      ensures exists b: nat :: Pins(bufs', b, n)
    {
      var b: nat :| Pins(bufs, b, n);
      assert b != a;
      assert Pins(bufs', b, n);
    }
    assert lh[0] in lh;
    var x: nat :| Pins(bufs, x, lh[0]);
    forall b: nat | b < |bufs'| && bufs'[b].dirty
      ensures bufs'[b].blockno in lh[1..]
    {
      if bufs[b].blockno == lh[0] {
        PinsOnce(bufs, disk, k, b, lh[0], x);
        SameKeyOne(bufs, disk, k, a, x, lh[0]);
      }
      assert lh == [lh[0]] + lh[1..];
    }
  }

  lemma SameKeyOne(bufs: seq<Buf>, disk: seq<Data>, k: Book, a: nat, x: nat, n: nat)
    requires Agree(bufs, disk, k) && a < |bufs| && x < |bufs| && Key(bufs, a, 1, n) && Key(bufs, x, 1, n)
    ensures a == x
  {
    Alone(bufs, a, x);
  }

  lemma OneHolder(bufs: seq<Buf>, disk: seq<Data>, k: Book, a: nat, log: nat, n: nat)
    requires Agree(bufs, disk, k) && k.claims == map[0 := Claim(a, 1, log, Holding)] && n != log
    ensures forall x <- bufs :: x.dev == 1 && x.blockno == n ==> !x.locked
  {
    forall b: nat | b < |bufs| && bufs[b].locked
      ensures bufs[b].blockno == log
    {
      assert b in k.holder && k.holder[b] == 0;
      assert ClaimOk(bufs, k, 0);
    }
    forall x | x in bufs && x.dev == 1 && x.blockno == n
      ensures !x.locked
    {
      var b :| 0 <= b < |bufs| && bufs[b] == x;
    }
  }

  lemma PinnedIsCached(bufs: seq<Buf>, lh: seq<nat>, n: nat)
    requires Pinned(bufs, lh) && n in lh
    ensures Cached(bufs, 1, n)
  {
    var b: nat :| Pins(bufs, b, n);
    assert b < |bufs| && Key(bufs, b, 1, n);
  }

  // ---------------------------------------------------------------- the code

  /** bread of a log block or of the header, when nobody uses a buffer. None is the panic
      "bget: no buffers". */
  method LogBuffer(c: Cache, log: nat, ghost lh: seq<nat>) returns (r: Option<nat>)
    requires c.Valid() && Quiet(c.book) && Pinned(c.bufs, lh) && log !in lh && log < |c.disk|
    modifies c
    ensures c.Valid() && c.disk == old(c.disk) && c.book.latest == old(c.book.latest) && |c.book.latest| == |c.disk|
    ensures r.None? <==> AllDirty(old(c.bufs))
    ensures r.None? ==> c.bufs == old(c.bufs) && c.book == old(c.book)
    ensures r.Some? ==> var a := r.value;
              && a < |c.bufs| && Pinned(c.bufs, lh) && c.book.edited == {}
              && c.book.claims == map[0 := Claim(a, 1, log, Holding)]
              && c.bufs[a].valid && c.bufs[a].data == c.book.latest[log]
  {
    hide Agree, Ring, Complete, Pinned, AllDirty, Cached, Recyclable;
    QuietBuffers(c.bufs, c.disk, c.book);
    ReadableIff(c.bufs, c.disk, c.book, lh, log);
    ghost var bufs0 := c.bufs;
    r := c.Bread(1, log, 0);
    if r.Some? {
      UserFacts(c.bufs, c.disk, c.book, 0);
      PinnedKept(bufs0, c.bufs, r.value, lh);
    }
  }

  /** The two breads of write_log and install_trans: a log block, then the home block pinned for it. */
  method TwoBuffers(c: Cache, log: nat, home: nat, ghost lh: seq<nat>) returns (r: Option<(nat, nat)>)
    requires c.Valid() && Quiet(c.book) && Pinned(c.bufs, lh) && log !in lh && home in lh && log < |c.disk| && home < |c.disk|
    modifies c
    ensures c.Valid() && c.disk == old(c.disk) && c.book.latest == old(c.book.latest) && |c.book.latest| == |c.disk|
    ensures r.None? <==> AllDirty(old(c.bufs))
    ensures r.None? ==> c.bufs == old(c.bufs) && c.book == old(c.book)
    ensures r.Some? ==> var (a, b) := r.value;
              && a < |c.bufs| && b < |c.bufs| && a != b && Pinned(c.bufs, lh) && c.book.edited == {}
              && c.book.claims == map[0 := Claim(a, 1, log, Holding), 1 := Claim(b, 1, home, Holding)]
              && c.bufs[a].valid && c.bufs[a].data == c.book.latest[log]
              && c.bufs[b].valid && c.bufs[b].data == c.book.latest[home]
  {
    hide Agree, Ring, Complete, Pinned, AllDirty, Cached, Recyclable;
    var first := LogBuffer(c, log, lh);
    if first == None {
      return None;
    }
    var a := first.value;
    OneHolder(c.bufs, c.disk, c.book, a, log, home);
    PinnedIsCached(c.bufs, lh, home);
    UserFacts(c.bufs, c.disk, c.book, 0);
    ghost var bufs1 := c.bufs;
    var second := c.Bread(1, home, 1);
    var b := second.value;
    UserFacts(c.bufs, c.disk, c.book, 0);
    UserFacts(c.bufs, c.disk, c.book, 1);
    PinnedKept(bufs1, c.bufs, b, lh);
    return Some((a, b));
  }

  /** The same blocks in the same buffers, pinned and not. */
  ghost predicate SamePins(bufs: seq<Buf>, bufs': seq<Buf>) {
    && |bufs'| == |bufs|
    && forall x | 0 <= x < |bufs| :: bufs'[x].dirty == bufs[x].dirty && bufs'[x].dev == bufs[x].dev && bufs'[x].blockno == bufs[x].blockno
  }

  /** The two brelses at the end of a round. */
  method ReleaseBoth(c: Cache, a: nat, b: nat, ghost ta: nat, ghost tb: nat)
    requires c.Valid() && a != b && a < |c.bufs| && b < |c.bufs| && c.book.edited == {} && ta != tb
    requires c.book.claims.Keys == {ta, tb} && c.book.claims[ta].b == a && c.book.claims[tb].b == b
    requires c.book.claims[ta].stage == Holding && c.book.claims[tb].stage == Holding
    modifies c
    ensures c.Valid() && Quiet(c.book) && c.disk == old(c.disk) && c.book.latest == old(c.book.latest)
    ensures SamePins(old(c.bufs), c.bufs)
  {
    hide Agree, Ring, Complete;
    c.Brelse(a, ta);
    c.Brelse(b, tb);
  }

  /** One round of write_log: the pinned contents of `home` go to the log block. */
  method ToLog(c: Cache, log: nat, home: nat, ghost lh: seq<nat>) returns (panic: bool)
    requires c.Valid() && Quiet(c.book) && Pinned(c.bufs, lh) && log !in lh && home in lh && log < |c.disk| && home < |c.disk|
    modifies c
    ensures c.Valid() && Quiet(c.book) && Pinned(c.bufs, lh) && |old(c.book).latest| == |old(c.disk)|
    ensures panic <==> AllDirty(old(c.bufs))
    ensures panic ==> c.disk == old(c.disk) && c.book.latest == old(c.book.latest)
    ensures !panic ==> c.disk == old(c.disk)[log := old(c.book).latest[home]]
    ensures !panic ==> c.book.latest == old(c.book.latest)[log := old(c.book).latest[home]]
  {
    hide Agree, Ring, Complete, Pinned, AllDirty;
    var r := TwoBuffers(c, log, home, lh);
    if r == None {
      return true;
    }
    var (a, b) := r.value;
    UserFacts(c.bufs, c.disk, c.book, 0);
    UserFacts(c.bufs, c.disk, c.book, 1);
    ghost var bufs0, latest0 := c.bufs, c.book.latest;
    NotPinned(c.bufs, lh, a, log);
    c.Store(a, c.bufs[b].data, 0);
    c.Bwrite(a, 0);
    ReleaseBoth(c, b, a, 1, 0);
    Unchanged(bufs0, c.bufs, lh);
    panic := false;
  }

  /** One round of install_trans: the log block goes home, and the pin is gone. */
  method ToHome(c: Cache, log: nat, ghost lh: seq<nat>, home: nat) returns (panic: bool)
    requires c.Valid() && Quiet(c.book) && Pinned(c.bufs, lh) && Different(lh) && lh != [] && home == lh[0] && log !in lh
    requires log < |c.disk| && home < |c.disk|
    modifies c
    ensures c.Valid() && Quiet(c.book) && |old(c.book).latest| == |old(c.disk)|
    ensures panic <==> AllDirty(old(c.bufs))
    ensures !panic ==> Pinned(c.bufs, lh[1..]) && c.disk == old(c.disk)[home := old(c.book).latest[log]]
    ensures !panic ==> c.book.latest == old(c.book.latest)[home := old(c.book).latest[log]]
  {
    hide Agree, Ring, Complete, Pinned, AllDirty;
    assert home in lh;
    var r := TwoBuffers(c, log, home, lh);
    if r == None {
      return true;
    }
    var (a, b) := r.value;
    UserFacts(c.bufs, c.disk, c.book, 0);
    UserFacts(c.bufs, c.disk, c.book, 1);
    ghost var bufs0, disk0, book0 := c.bufs, c.disk, c.book;
    c.Store(b, c.bufs[a].data, 1);
    c.Bwrite(b, 1);
    ReleaseBoth(c, a, b, 0, 1);
    PinnedLess(bufs0, disk0, book0, c.bufs, b, lh);
    panic := false;
  }

  lemma NotPinned(bufs: seq<Buf>, lh: seq<nat>, a: nat, n: nat)
    requires Pinned(bufs, lh) && a < |bufs| && Key(bufs, a, 1, n) && n !in lh
    ensures !bufs[a].dirty
  {
  }

  lemma Unchanged(bufs: seq<Buf>, bufs': seq<Buf>, lh: seq<nat>)
    requires Pinned(bufs, lh) && SamePins(bufs, bufs')
    ensures Pinned(bufs', lh)
  {
    forall n | n in lh
      ensures exists b: nat :: Pins(bufs', b, n)
    {
      var b: nat :| Pins(bufs, b, n);
      assert Pins(bufs', b, n);
    }
  }

  /** The header's blocks are on the disk and outside the part of the log that commit uses. */
  predicate Placed(start: nat, lh: seq<nat>, ndisk: nat) {
    start + |lh| < ndisk && forall i | 0 <= i < |lh| :: lh[i] < ndisk && !(start <= lh[i] <= start + |lh|)
  }

  /** No block but those of the log area has new contents. */
  ghost predicate SameHomes(start: nat, n: nat, latest: seq<Data>, latest': seq<Data>) {
    |latest'| == |latest| && forall k | 0 <= k < |latest| && !(start <= k <= start + n) :: latest'[k] == latest[k]
  }

  /** The log blocks hold the newest contents of the blocks in the header. */
  ghost predicate Copied(start: nat, lh: seq<nat>, latest: seq<Data>)
    requires Placed(start, lh, |latest|)
  {
    forall i | 0 <= i < |lh| :: latest[start + 1 + i] == latest[lh[i]]
  }

  /** The log blocks on the disk hold the newest contents, and nothing else on it has changed. */
  ghost predicate OnlyLog(start: nat, lh: seq<nat>, disk: seq<Data>, disk': seq<Data>, latest: seq<Data>) {
    && |disk'| == |disk| == |latest| && Placed(start, lh, |disk|)
    && (forall i | 0 <= i < |lh| :: disk'[start + 1 + i] == latest[lh[i]])
    && (forall k | 0 <= k < |disk| && !(start < k <= start + |lh|) :: disk'[k] == disk[k])
  }

  lemma HeadElsewhere(start: nat, lh: seq<nat>, l0: seq<Data>, l1: seq<Data>, head: Data)
    requires start < |l1| && SameHomes(start, |lh|, l0, l1)
    ensures SameHomes(start, |lh|, l0, l1[start := head])
    ensures Placed(start, lh, |l1|) && Copied(start, lh, l1) ==> Copied(start, lh, l1[start := head])
  {
  }

  /** write_head: one block, for which one clean buffer is needed. */
  method WriteHead(c: Cache, start: nat, head: Data, ghost lh: seq<nat>) returns (panic: bool)
    requires c.Valid() && Quiet(c.book) && Pinned(c.bufs, lh) && start !in lh && start < |c.disk|
    modifies c
    ensures c.Valid() && Quiet(c.book) && Pinned(c.bufs, lh) && |old(c.book).latest| == |old(c.disk)|
    ensures panic <==> AllDirty(old(c.bufs))
    ensures !panic ==> c.disk == old(c.disk)[start := head] && c.book.latest == old(c.book.latest)[start := head]
  {
    hide Agree, Ring, Complete, Pinned, AllDirty;
    var r := LogBuffer(c, start, lh);
    if r == None {
      return true;
    }
    var a := r.value;
    UserFacts(c.bufs, c.disk, c.book, 0);
    ghost var bufs0 := c.bufs;
    NotPinned(c.bufs, lh, a, start);
    c.Store(a, head, 0);
    c.Bwrite(a, 0);
    c.Brelse(a, 0);
    Unchanged(bufs0, c.bufs, lh);
    panic := false;
  }

  /** write_log: panics at its first block or not at all. */
  method WriteLog(c: Cache, start: nat, lh: seq<nat>) returns (panic: bool)
    requires c.Valid() && Quiet(c.book) && Pinned(c.bufs, lh) && Different(lh) && Placed(start, lh, |c.disk|)
    modifies c
    ensures c.Valid() && Quiet(c.book) && Pinned(c.bufs, lh) && |c.disk| == |old(c.disk)|
    ensures panic <==> |lh| == NBUF
    ensures !panic ==> |c.book.latest| == |c.disk| && Copied(start, lh, c.book.latest)
    ensures !panic ==> SameHomes(start, |lh|, old(c.book.latest), c.book.latest)
    ensures !panic ==> OnlyLog(start, lh, old(c.disk), c.disk, c.book.latest)
  {
    hide Agree, Ring, Complete, Pinned, AllDirty, Different;
    BufsSize(c.bufs, c.disk, c.book);
    AllDirtyIff(c.bufs, c.disk, c.book, lh);
    var tail := 0;
    while tail < |lh|
      invariant tail <= |lh| && c.Valid() && Quiet(c.book) && Pinned(c.bufs, lh) && (tail > 0 ==> |lh| != NBUF)
      invariant |c.disk| == |old(c.disk)| == |c.book.latest| && SameHomes(start, |lh|, old(c.book.latest), c.book.latest)
      invariant forall i | 0 <= i < tail :: c.book.latest[start + 1 + i] == c.book.latest[lh[i]]
      invariant forall i | 0 <= i < tail :: c.disk[start + 1 + i] == c.book.latest[lh[i]]
      invariant forall k | 0 <= k < |c.disk| && !(start < k <= start + |lh|) :: c.disk[k] == old(c.disk)[k]
    {
      BufsSize(c.bufs, c.disk, c.book);
      AllDirtyIff(c.bufs, c.disk, c.book, lh);
      assert lh[tail] in lh && start + 1 + tail !in lh;
      panic := ToLog(c, start + 1 + tail, lh[tail], lh);
      if panic {
        return;
      }
      BufsSize(c.bufs, c.disk, c.book);
      assert forall i | 0 <= i < |lh| :: lh[i] in lh;
      tail := tail + 1;
    }
    panic := false;
  }

  /** install_trans in commit: unpins entry by entry, so it cannot run out of buffers. */
  method InstallTrans(c: Cache, start: nat, lh: seq<nat>) returns (panic: bool)
    requires c.Valid() && Quiet(c.book) && Pinned(c.bufs, lh) && Different(lh) && Placed(start, lh, |c.disk|) && |lh| < NBUF
    requires |c.book.latest| == |c.disk| && Copied(start, lh, c.book.latest)
    modifies c
    ensures c.Valid() && Quiet(c.book) && Pinned(c.bufs, []) && !panic && |c.disk| == |old(c.disk)|
    ensures c.book.latest == old(c.book.latest)
  {
    hide Agree, Ring, Complete, Pinned, AllDirty, Different;
    assert lh[0..] == lh;
    var tail := 0;
    while tail < |lh|
      invariant tail <= |lh| && c.Valid() && Quiet(c.book) && Pinned(c.bufs, lh[tail..])
      invariant |c.disk| == |old(c.disk)| && c.book.latest == old(c.book.latest)
    {
      Rest(lh, tail);
      BufsSize(c.bufs, c.disk, c.book);
      AllDirtyIff(c.bufs, c.disk, c.book, lh[tail..]);
      assert lh[tail] in lh && start + 1 + tail !in lh;
      panic := ToHome(c, start + 1 + tail, lh[tail..], lh[tail]);
      assert c.book.latest == old(c.book.latest);
      tail := tail + 1;
    }
    assert lh[|lh|..] == [];
    panic := false;
  }

  lemma Rest(lh: seq<nat>, tail: nat)
    requires Different(lh) && tail < |lh|
    ensures Different(lh[tail..]) && lh[tail..][1..] == lh[tail + 1..] && forall n <- lh[tail..] :: n in lh
  {
  }

  lemma Settled(bufs: seq<Buf>, disk: seq<Data>, k: Book)
    requires Agree(bufs, disk, k) && Quiet(k) && Pinned(bufs, [])
    ensures disk == k.latest
  {
    forall n | 0 <= n < |disk|
      ensures disk[n] == k.latest[n]
    {
      assert forall b: nat :: !Newer(bufs, k, b, n);
    }
  }

  lemma SameSelf(start: nat, latest: seq<Data>)
    ensures SameHomes(start, 0, latest, latest)
  {
  }

  lemma PlacedStart(start: nat, lh: seq<nat>, ndisk: nat)
    requires Placed(start, lh, ndisk)
    ensures start < ndisk && start !in lh
  {
  }

  /** The disk at the moment the transaction commits: the header and the log blocks are written, every
      home block is as before. */
  ghost predicate CommitPoint(start: nat, lh: seq<nat>, head: Data, disk: seq<Data>, mid: seq<Data>, latest: seq<Data>) {
    && |mid| == |disk| == |latest| && Placed(start, lh, |disk|) && mid[start] == head
    && (forall i | 0 <= i < |lh| :: mid[start + 1 + i] == latest[lh[i]])
    && (forall k | 0 <= k < |disk| && !(start <= k <= start + |lh|) :: mid[k] == disk[k])
  }

  lemma HeadCommits(start: nat, lh: seq<nat>, head: Data, disk: seq<Data>, disk': seq<Data>, l0: seq<Data>, l1: seq<Data>)
    requires OnlyLog(start, lh, disk, disk', l1) && SameHomes(start, |lh|, l0, l1)
    ensures start < |disk'| && CommitPoint(start, lh, head, disk, disk'[start := head], l0)
  {
  }

  /** commit: runs out of buffers if and only if the header has as many entries as there are buffers.
      Otherwise the disk holds the newest contents of every block and no buffer is pinned. */
  method Commit(c: Cache, start: nat, lh: seq<nat>, head: Data, empty: Data) returns (panic: bool, ghost mid: seq<Data>)
    requires c.Valid() && Quiet(c.book) && Pinned(c.bufs, lh) && Different(lh) && Placed(start, lh, |c.disk|)
    modifies c
    ensures c.Valid() && Quiet(c.book) && (panic <==> |lh| == NBUF)
    ensures !panic ==> Pinned(c.bufs, []) && c.disk == c.book.latest
    ensures !panic ==> SameHomes(start, |lh|, old(c.book.latest), c.book.latest)
    ensures !panic && lh != [] ==> Placed(start, lh, |c.disk|) && c.disk[start] == empty && Copied(start, lh, c.book.latest)
    ensures !panic && lh != [] ==> CommitPoint(start, lh, head, old(c.disk), mid, old(c.book.latest))
    ensures lh == [] ==> c.disk == old(c.disk) && c.bufs == old(c.bufs) && c.book == old(c.book)
  {
    assert Different([]);
    ghost var latest0 := c.book.latest;
    hide Agree, Ring, Complete, Pinned, AllDirty, Different, SameHomes, Copied, Placed, OnlyLog, CommitPoint;
    panic, mid := false, c.disk;
    if |lh| > 0 {
      PlacedStart(start, lh, |c.disk|);
      panic := WriteLog(c, start, lh);
      if panic {
        return;
      }
      BufsSize(c.bufs, c.disk, c.book);
      AllDirtyIff(c.bufs, c.disk, c.book, lh);
      HeadElsewhere(start, lh, latest0, c.book.latest, head);
      HeadCommits(start, lh, head, old(c.disk), c.disk, latest0, c.book.latest);
      panic := WriteHead(c, start, head, lh);
      mid := c.disk;
      panic := InstallTrans(c, start, lh);
      BufsSize(c.bufs, c.disk, c.book);
      AllDirtyIff(c.bufs, c.disk, c.book, []);
      HeadElsewhere(start, lh, latest0, c.book.latest, empty);
      panic := WriteHead(c, start, empty, []);
    } else {
      assert lh == [];
      SameSelf(start, latest0);
    }
    Settled(c.bufs, c.disk, c.book);
  }

  /** Whatever the size of the log area, operations that keep their budget can make the kernel
      panic: in log_write, or by having commit() begin with every buffer pinned. Never both. */
  lemma OnePanicOrTheOther(w: RedoLog.World)
    requires CrashSafety.Initial(w) && w.geo.ndisk >= w.geo.size + RedoLog.LOGSIZE
    ensures RedoLog.LOGSIZE == NBUF
    ensures LogReservation.CanPanic(w, true) <==> !LogReservation.CanCommitFull(w, true)
  {
    LogReservation.PanicIffSmallLog(w);
    LogReservation.FullIffBigLog(w);
  }
}
