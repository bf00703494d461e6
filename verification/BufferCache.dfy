/** bio.c. Each method below is what the code does in one go: under bcache.lock, or while holding
    the buffer's sleep lock. Any interleaving of processes is therefore some sequence of calls, and
    Valid() is what all of them keep. */
module BufferCache {
  import opened LruRing
  import opened Options

  type Data = seq<bv8>

  datatype Buf = Buf(dev: nat, blockno: nat, refcnt: nat, valid: bool, dirty: bool, data: Data, locked: bool)

  /** Where one use of a buffer stands between bget and the end of brelse. */
  datatype Stage = Waiting | Holding | Leaving

  datatype Claim = Claim(b: nat, dev: nat, blockno: nat, stage: Stage)

  /** What the proof remembers: the uses in progress, the buffers changed but not yet passed to
      log_write or bwrite, and the newest contents of every block of the disk. */
  datatype Book = Book(claims: map<nat, Claim>, users: seq<set<nat>>, holder: map<nat, nat>,
                       edited: set<nat>, latest: seq<Data>)

  // ---------------------------------------------------------------- invariants

  ghost predicate Key(bufs: seq<Buf>, b: nat, dev: nat, blockno: nat)
    requires b < |bufs|
  {
    bufs[b].dev == dev && bufs[b].blockno == blockno
  }

  /** A block of a real device has at most one buffer. */
  ghost predicate Unique(bufs: seq<Buf>) {
    && |bufs| == NBUF
    && forall b: nat, c: nat | b < NBUF && c < NBUF && b != c && bufs[b].dev != 0 ::
        !Key(bufs, c, bufs[b].dev, bufs[b].blockno)
  }

  ghost predicate ClaimOk(bufs: seq<Buf>, k: Book, t: nat)
    requires |bufs| == NBUF && |k.users| == NBUF && t in k.claims
  {
    var c := k.claims[t];
    c.b < NBUF && c.dev != 0 && Key(bufs, c.b, c.dev, c.blockno) && t in k.users[c.b]
  }

  /** refcnt counts the uses in progress, and a buffer in use keeps its key. */
  ghost predicate Counted(bufs: seq<Buf>, k: Book) {
    && |bufs| == NBUF && |k.users| == NBUF
    && (forall t <- k.claims :: ClaimOk(bufs, k, t))
    && (forall b: nat, t: nat | b < NBUF && t in k.users[b] :: t in k.claims && k.claims[t].b == b)
    && (forall b: nat | b < NBUF :: bufs[b].refcnt == |k.users[b]|)
  }

  /** A locked buffer has exactly one holder; only the holder changes it. */
  ghost predicate Locks(bufs: seq<Buf>, k: Book) {
    && |bufs| == NBUF
    && (forall b: nat | b < NBUF :: bufs[b].locked <==> b in k.holder)
    && (forall b <- k.holder ::
        b < NBUF && k.holder[b] in k.claims && k.claims[k.holder[b]].b == b && k.claims[k.holder[b]].stage == Holding)
    && (forall t <- k.claims :: k.claims[t].stage == Holding ==> k.claims[t].b in k.holder && k.holder[k.claims[t].b] == t)
    && k.edited <= k.holder.Keys
  }

  /** Buffer `b` holds newer contents of block `n` than the disk may. */
  ghost predicate Newer(bufs: seq<Buf>, k: Book, b: nat, n: nat) {
    b < |bufs| && bufs[b].valid && Key(bufs, b, 1, n) && (bufs[b].dirty || b in k.edited)
  }

  /** A valid buffer holds the newest contents of its block, and the disk holds them too unless
      the buffer is dirty or being changed. */
  ghost predicate Current(bufs: seq<Buf>, disk: seq<Data>, k: Book) {
    && |bufs| == NBUF && |k.latest| == |disk|
    && (forall b: nat | b < NBUF :: bufs[b].dirty || b in k.edited ==> bufs[b].valid)
    && (forall b: nat | b < NBUF && bufs[b].valid ::
        bufs[b].dev == 1 && bufs[b].blockno < |disk| && bufs[b].data == k.latest[bufs[b].blockno])
    && (forall n: nat | n < |disk| && disk[n] != k.latest[n] :: exists b: nat :: Newer(bufs, k, b, n))
  }

  ghost predicate Agree(bufs: seq<Buf>, disk: seq<Data>, k: Book) {
    Unique(bufs) && Counted(bufs, k) && Locks(bufs, k) && Current(bufs, disk, k)
  }

  /** The redo log's view of the cache: the newest contents are those of the dirty buffer if there
      is one, and of the disk otherwise. */
  lemma DirtyOrDisk(bufs: seq<Buf>, disk: seq<Data>, k: Book, n: nat)
    requires Agree(bufs, disk, k) && k.edited == {} && n < |disk|
    ensures forall b: nat | b < NBUF && bufs[b].dirty && Key(bufs, b, 1, n) :: k.latest[n] == bufs[b].data
    ensures (forall b: nat | b < NBUF && bufs[b].dirty :: !Key(bufs, b, 1, n)) ==> k.latest[n] == disk[n]
  {
    if disk[n] != k.latest[n] {
      var b: nat :| Newer(bufs, k, b, n);
      assert bufs[b].dirty;
    }
  }

  // ---------------------------------------------------------------- what steps leave alone

  ghost predicate SameKeys(bufs: seq<Buf>, bufs': seq<Buf>) {
    && |bufs'| == |bufs|
    && forall b: nat | b < |bufs| :: bufs'[b].dev == bufs[b].dev && bufs'[b].blockno == bufs[b].blockno
  }

  ghost predicate SameCounts(bufs: seq<Buf>, bufs': seq<Buf>) {
    |bufs'| == |bufs| && forall b: nat | b < |bufs| :: bufs'[b].refcnt == bufs[b].refcnt
  }

  ghost predicate SameLocks(bufs: seq<Buf>, bufs': seq<Buf>) {
    |bufs'| == |bufs| && forall b: nat | b < |bufs| :: bufs'[b].locked == bufs[b].locked
  }

  ghost predicate SameContents(bufs: seq<Buf>, bufs': seq<Buf>) {
    && SameKeys(bufs, bufs')
    && forall b: nat | b < |bufs| ::
        bufs'[b].valid == bufs[b].valid && bufs'[b].dirty == bufs[b].dirty && bufs'[b].data == bufs[b].data
  }

  lemma UniqueSame(bufs: seq<Buf>, bufs': seq<Buf>)
    requires Unique(bufs) && SameKeys(bufs, bufs')
    ensures Unique(bufs')
  {
    forall b: nat, c: nat | b < NBUF && c < NBUF && b != c && bufs'[b].dev != 0
      ensures !Key(bufs', c, bufs'[b].dev, bufs'[b].blockno)
    {
      assert !Key(bufs, c, bufs[b].dev, bufs[b].blockno);
    }
  }

  /** The same uses, possibly at other stages. */
  lemma CountedSame(bufs: seq<Buf>, k: Book, bufs': seq<Buf>, k': Book)
    requires Counted(bufs, k) && SameKeys(bufs, bufs') && SameCounts(bufs, bufs')
    requires k'.users == k.users && k'.claims.Keys == k.claims.Keys
    requires forall t <- k.claims :: k'.claims[t] == k.claims[t].(stage := k'.claims[t].stage)
    ensures Counted(bufs', k')
  {
  }

  lemma CurrentSame(bufs: seq<Buf>, disk: seq<Data>, k: Book, bufs': seq<Buf>, k': Book)
    requires Current(bufs, disk, k) && SameContents(bufs, bufs') && k'.latest == k.latest && k'.edited == k.edited
    ensures Current(bufs', disk, k')
  {
    forall n: nat | n < |disk| && disk[n] != k'.latest[n]
      ensures exists b: nat :: Newer(bufs', k', b, n)
    {
      var b: nat :| Newer(bufs, k, b, n);
      assert Newer(bufs', k', b, n);
    }
  }

  // ---------------------------------------------------------------- starting a use

  function Join(k: Book, t: nat, b: nat, dev: nat, blockno: nat): Book
    requires b < |k.users|
  {
    k.(claims := k.claims[t := Claim(b, dev, blockno, Waiting)], users := k.users[b := k.users[b] + {t}])
  }

  /** A use of `b` begins, under the key `b` has from then on; nobody else uses it under another. */
  lemma CountedJoin(bufs: seq<Buf>, k: Book, t: nat, b: nat, x: Buf)
    requires Counted(bufs, k) && t !in k.claims && b < NBUF && x.dev != 0 && x.refcnt == bufs[b].refcnt + 1
    requires bufs[b].refcnt == 0 || Key(bufs, b, x.dev, x.blockno)
    ensures Counted(bufs[b := x], Join(k, t, b, x.dev, x.blockno))
  {
  }

  lemma LocksJoin(bufs: seq<Buf>, k: Book, bufs': seq<Buf>, t: nat, b: nat, dev: nat, blockno: nat)
    requires Locks(bufs, k) && SameLocks(bufs, bufs') && t !in k.claims && b < |k.users|
    ensures Locks(bufs', Join(k, t, b, dev, blockno))
  {
  }

  lemma HitKeeps(bufs: seq<Buf>, disk: seq<Data>, k: Book, t: nat, b: nat)
    requires Agree(bufs, disk, k) && t !in k.claims && b < NBUF && bufs[b].dev != 0
    ensures Agree(bufs[b := bufs[b].(refcnt := bufs[b].refcnt + 1)], disk, Join(k, t, b, bufs[b].dev, bufs[b].blockno))
  {
    hide Unique, Locks, Current;
    var x := bufs[b].(refcnt := bufs[b].refcnt + 1);
    UniqueSame(bufs, bufs[b := x]);
    CountedJoin(bufs, k, t, b, x);
    LocksJoin(bufs, k, bufs[b := x], t, b, x.dev, x.blockno);
    CurrentSame(bufs, disk, k, bufs[b := x], Join(k, t, b, x.dev, x.blockno));
  }

  /** The buffer bget recycles for a block that has none. */
  function Recycled(x: Buf, dev: nat, blockno: nat): Buf {
    x.(dev := dev, blockno := blockno, valid := false, dirty := false, refcnt := 1)
  }

  lemma UniqueRecycle(bufs: seq<Buf>, b: nat, dev: nat, blockno: nat)
    requires Unique(bufs) && b < NBUF && forall c: nat | c < NBUF :: !Key(bufs, c, dev, blockno)
    ensures Unique(bufs[b := Recycled(bufs[b], dev, blockno)])
  {
    var bufs' := bufs[b := Recycled(bufs[b], dev, blockno)];
    forall c: nat, d: nat | c < NBUF && d < NBUF && c != d && bufs'[c].dev != 0
      ensures !Key(bufs', d, bufs'[c].dev, bufs'[c].blockno)
    {
      assert c != b && d != b ==> !Key(bufs, d, bufs[c].dev, bufs[c].blockno);
      assert !Key(bufs, c, dev, blockno) && !Key(bufs, d, dev, blockno);
    }
  }

  lemma CurrentRecycle(bufs: seq<Buf>, disk: seq<Data>, k: Book, k': Book, b: nat, dev: nat, blockno: nat)
    requires Current(bufs, disk, k) && b < NBUF && !bufs[b].dirty && b !in k.edited
    requires k'.latest == k.latest && k'.edited == k.edited
    ensures Current(bufs[b := Recycled(bufs[b], dev, blockno)], disk, k')
  {
    var bufs' := bufs[b := Recycled(bufs[b], dev, blockno)];
    forall n: nat | n < |disk| && disk[n] != k'.latest[n]
      ensures exists c: nat :: Newer(bufs', k', c, n)
    {
      var c: nat :| Newer(bufs, k, c, n);
      assert Newer(bufs', k', c, n);
    }
  }

  lemma UnusedFree(bufs: seq<Buf>, k: Book, b: nat)
    requires Counted(bufs, k) && Locks(bufs, k) && b < NBUF && bufs[b].refcnt == 0
    ensures b !in k.edited && !bufs[b].locked
  {
  }

  /** A buffer with no user that is not dirty can be given another block. */
  lemma RecycleKeeps(bufs: seq<Buf>, disk: seq<Data>, k: Book, t: nat, b: nat, dev: nat, blockno: nat)
    requires Agree(bufs, disk, k) && t !in k.claims && b < NBUF && dev != 0 && bufs[b].refcnt == 0 && !bufs[b].dirty
    requires forall c: nat | c < NBUF :: !Key(bufs, c, dev, blockno)
    ensures Agree(bufs[b := Recycled(bufs[b], dev, blockno)], disk, Join(k, t, b, dev, blockno))
  {
    hide Unique, Locks, Current;
    var x := Recycled(bufs[b], dev, blockno);
    UnusedFree(bufs, k, b);
    UniqueRecycle(bufs, b, dev, blockno);
    CountedJoin(bufs, k, t, b, x);
    LocksJoin(bufs, k, bufs[b := x], t, b, dev, blockno);
    CurrentRecycle(bufs, disk, k, Join(k, t, b, dev, blockno), b, dev, blockno);
  }

  // ---------------------------------------------------------------- the sleep lock

  function Advance(k: Book, t: nat, stage: Stage): Book
    requires t in k.claims
  {
    var b := k.claims[t].b;
    k.(claims := k.claims[t := k.claims[t].(stage := stage)],
       holder := if stage == Holding then k.holder[b := t] else k.holder - {b})
  }

  lemma LocksAdvance(bufs: seq<Buf>, k: Book, t: nat, stage: Stage)
    requires Locks(bufs, k) && t in k.claims && k.claims[t].b < NBUF
    requires (k.claims[t].stage == Waiting && stage == Holding && !bufs[k.claims[t].b].locked) ||
             (k.claims[t].stage == Holding && stage == Leaving && k.claims[t].b !in k.edited)
    ensures var b := k.claims[t].b; Locks(bufs[b := bufs[b].(locked := stage == Holding)], Advance(k, t, stage))
  {
  }

  /** Taking the lock when it is free, and letting go of it when nothing is left unsaved. */
  lemma AdvanceKeeps(bufs: seq<Buf>, disk: seq<Data>, k: Book, t: nat, stage: Stage)
    requires Agree(bufs, disk, k) && t in k.claims && k.claims[t].b < NBUF
    requires (k.claims[t].stage == Waiting && stage == Holding && !bufs[k.claims[t].b].locked) ||
             (k.claims[t].stage == Holding && stage == Leaving && k.claims[t].b !in k.edited)
    ensures var b := k.claims[t].b; Agree(bufs[b := bufs[b].(locked := stage == Holding)], disk, Advance(k, t, stage))
  {
    hide Unique, Locks, Current, Counted;
    var b := k.claims[t].b;
    assert |bufs| == NBUF by { Sizes(bufs, k); }
    var bufs' := bufs[b := bufs[b].(locked := stage == Holding)];
    UniqueSame(bufs, bufs');
    CountedSame(bufs, k, bufs', Advance(k, t, stage));
    LocksAdvance(bufs, k, t, stage);
    CurrentSame(bufs, disk, k, bufs', Advance(k, t, stage));
  }

  lemma Sizes(bufs: seq<Buf>, k: Book)
    requires Counted(bufs, k)
    ensures |bufs| == NBUF && |k.users| == NBUF
  {
  }

  // ---------------------------------------------------------------- reading, changing, writing

  /** No other buffer has the key of this one. */
  lemma Alone(bufs: seq<Buf>, b: nat, c: nat)
    requires Unique(bufs) && b < NBUF && c < NBUF && bufs[b].dev == 1 && Key(bufs, c, 1, bufs[b].blockno)
    ensures b == c
  {
  }

  /** A block without a valid buffer is up to date on disk. */
  lemma FillKeeps(bufs: seq<Buf>, disk: seq<Data>, k: Book, b: nat)
    requires Unique(bufs) && Current(bufs, disk, k) && b < NBUF && bufs[b].dev == 1 && bufs[b].blockno < |disk| && !bufs[b].valid
    ensures disk[bufs[b].blockno] == k.latest[bufs[b].blockno]
    ensures Current(bufs[b := bufs[b].(valid := true, data := disk[bufs[b].blockno])], disk, k)
  {
    var n := bufs[b].blockno;
    var bufs' := bufs[b := bufs[b].(valid := true, data := disk[n])];
    if disk[n] != k.latest[n] {
      var c: nat :| Newer(bufs, k, c, n);
      Alone(bufs, b, c);
      assert false;
    }
    forall m: nat | m < |disk| && disk[m] != k.latest[m]
      ensures exists c: nat :: Newer(bufs', k, c, m)
    {
      var c: nat :| Newer(bufs, k, c, m);
      assert Newer(bufs', k, c, m);
    }
  }

  lemma EditKeeps(bufs: seq<Buf>, disk: seq<Data>, k: Book, b: nat, data: Data)
    requires Unique(bufs) && Current(bufs, disk, k) && b < NBUF && bufs[b].valid
    ensures bufs[b].blockno < |k.latest|
    ensures Current(bufs[b := bufs[b].(data := data)], disk,
              k.(edited := k.edited + {b}, latest := k.latest[bufs[b].blockno := data]))
  {
    var n := bufs[b].blockno;
    var bufs', k' := bufs[b := bufs[b].(data := data)], k.(edited := k.edited + {b}, latest := k.latest[n := data]);
    forall m: nat | m < |disk| && disk[m] != k'.latest[m]
      ensures exists c: nat :: Newer(bufs', k', c, m)
    {
      if m == n {
        assert Newer(bufs', k', b, m);
      } else {
        var c: nat :| Newer(bufs, k, c, m);
        assert Newer(bufs', k', c, m);
      }
    }
    forall c: nat | c < NBUF && bufs'[c].valid
      ensures bufs'[c].data == k'.latest[bufs'[c].blockno]
    {
      if bufs[c].blockno == n {
        Alone(bufs, b, c);
      }
    }
  }

  /** log_write pins what was changed. */
  lemma PinKeeps(bufs: seq<Buf>, disk: seq<Data>, k: Book, b: nat)
    requires Current(bufs, disk, k) && b < NBUF && bufs[b].valid
    ensures Current(bufs[b := bufs[b].(dirty := true)], disk, k.(edited := k.edited - {b}))
  {
    var bufs', k' := bufs[b := bufs[b].(dirty := true)], k.(edited := k.edited - {b});
    forall m: nat | m < |disk| && disk[m] != k'.latest[m]
      ensures exists c: nat :: Newer(bufs', k', c, m)
    {
      var c: nat :| Newer(bufs, k, c, m);
      assert Newer(bufs', k', c, m);
    }
  }

  /** bwrite makes the disk current for this block. */
  lemma FlushKeeps(bufs: seq<Buf>, disk: seq<Data>, k: Book, b: nat)
    requires Unique(bufs) && Current(bufs, disk, k) && b < NBUF && bufs[b].dev == 1 && bufs[b].blockno < |disk|
    ensures Current(bufs[b := bufs[b].(valid := true, dirty := false)], disk[bufs[b].blockno := bufs[b].data],
              k.(edited := k.edited - {b}, latest := k.latest[bufs[b].blockno := bufs[b].data]))
  {
    var n := bufs[b].blockno;
    var bufs', disk' := bufs[b := bufs[b].(valid := true, dirty := false)], disk[n := bufs[b].data];
    var k' := k.(edited := k.edited - {b}, latest := k.latest[n := bufs[b].data]);
    forall m: nat | m < |disk'| && disk'[m] != k'.latest[m]
      ensures exists c: nat :: Newer(bufs', k', c, m)
    {
      var c: nat :| Newer(bufs, k, c, m);
      assert Newer(bufs', k', c, m);
    }
    forall c: nat | c < NBUF && bufs'[c].valid
      ensures bufs'[c].dev == 1 && bufs'[c].blockno < |disk'| && bufs'[c].data == k'.latest[bufs'[c].blockno]
    {
      if c != b && bufs[c].blockno == n {
        Alone(bufs, b, c);
      }
    }
  }

  lemma LocksSame(bufs: seq<Buf>, k: Book, bufs': seq<Buf>, k': Book)
    requires Locks(bufs, k) && SameLocks(bufs, bufs') && k'.claims == k.claims && k'.holder == k.holder && k'.edited <= k.holder.Keys
    ensures Locks(bufs', k')
  {
  }

  // ---------------------------------------------------------------- ending a use

  function Left(k: Book, t: nat): Book
    requires t in k.claims && k.claims[t].b < |k.users|
  {
    var b := k.claims[t].b;
    k.(claims := k.claims - {t}, users := k.users[b := k.users[b] - {t}])
  }

  lemma CountedLeave(bufs: seq<Buf>, k: Book, t: nat)
    requires Counted(bufs, k) && t in k.claims && k.claims[t].b < NBUF && bufs[k.claims[t].b].refcnt >= 1
    ensures var b := k.claims[t].b; Counted(bufs[b := bufs[b].(refcnt := bufs[b].refcnt - 1)], Left(k, t))
  {
    var b := k.claims[t].b;
    var bufs', k' := bufs[b := bufs[b].(refcnt := bufs[b].refcnt - 1)], Left(k, t);
    assert ClaimOk(bufs, k, t);
    forall u | u in k'.claims
      ensures ClaimOk(bufs', k', u)
    {
      assert ClaimOk(bufs, k, u);
    }
  }

  lemma LocksLeave(bufs: seq<Buf>, k: Book, bufs': seq<Buf>, t: nat)
    requires Locks(bufs, k) && SameLocks(bufs, bufs') && t in k.claims && k.claims[t].stage == Leaving && k.claims[t].b < |k.users|
    ensures Locks(bufs', Left(k, t))
  {
  }

  lemma LeaveKeeps(bufs: seq<Buf>, disk: seq<Data>, k: Book, t: nat)
    requires Agree(bufs, disk, k) && t in k.claims && k.claims[t].stage == Leaving
    requires k.claims[t].b < NBUF && bufs[k.claims[t].b].refcnt >= 1
    ensures |k.users| == NBUF
    ensures var b := k.claims[t].b; Agree(bufs[b := bufs[b].(refcnt := bufs[b].refcnt - 1)], disk, Left(k, t))
  {
    hide Unique, Locks, Current, Counted;
    Sizes(bufs, k);
    var b := k.claims[t].b;
    var bufs' := bufs[b := bufs[b].(refcnt := bufs[b].refcnt - 1)];
    UniqueSame(bufs, bufs');
    CountedLeave(bufs, k, t);
    LocksLeave(bufs, k, bufs', t);
    CurrentSame(bufs, disk, k, bufs', Left(k, t));
  }

  // ---------------------------------------------------------------- the code

  ghost predicate Cached(bufs: seq<Buf>, dev: nat, blockno: nat) {
    exists b: nat :: b < |bufs| && Key(bufs, b, dev, blockno)
  }

  /** bget may recycle it. */
  predicate Recyclable(x: Buf) { x.refcnt == 0 && !x.dirty }

  class Cache {
    var links: Links
    var bufs: seq<Buf>
    var disk: seq<Data>
    ghost var order: seq<nat>
    ghost var book: Book

    ghost predicate Valid()
      reads this
    {
      Ring(links, order) && Complete(order) && Agree(bufs, disk, book)
    }

    /** binit, on the zeroed memory the kernel starts with. */
    constructor (disk: seq<Data>, zero: Data)
      ensures Valid() && this.disk == disk && book.latest == disk && book.claims == map[] && book.edited == {}
    {
      var r := Links(seq(NBUF + 1, _ => 0), seq(NBUF + 1, _ => 0));
      r := Links(r.next[HEAD := HEAD], r.prev[HEAD := HEAD]);
      ghost var o: seq<nat> := [];
      var b := 0;
      while b < NBUF
        invariant b <= NBUF && Ring(r, o) && |o| == b
        invariant forall i | 0 <= i < b :: o[i] == b - 1 - i
      {
        PushRing(r, o, b);
        r := PushFront(r, b);
        o := [b] + o;
        b := b + 1;
      }
      forall c: nat | c < NBUF
        ensures c in o
      {
        assert o[NBUF - 1 - c] == c;
      }
      links := r;
      bufs := seq(NBUF, _ => Buf(0, 0, 0, false, false, zero, false));
      this.disk := disk;
      order := o;
      book := Book(map[], seq(NBUF, _ => {}), map[], {}, disk);
    }

    /** bget's first loop: most recently used first. */
    method FindCached(dev: nat, blockno: nat) returns (r: Option<nat>)
      requires Valid()
      ensures r.None? ==> !Cached(bufs, dev, blockno)
      ensures r.Some? ==> r.value < NBUF && |bufs| == NBUF && Key(bufs, r.value, dev, blockno)
    {
      hide Agree, Ring, Complete;
      BufsSize(bufs, disk, book);
      ghost var i := 1;
      FirstLink(links, order);
      var b := links.next[HEAD];
      while b != HEAD
        invariant 1 <= i <= |order| + 1 && b == At(order, i) && Sized(links) && b <= NBUF
        invariant forall j | 1 <= j < i :: At(order, j) < NBUF && !Key(bufs, At(order, j), dev, blockno)
        decreases |order| + 1 - i
      {
        if bufs[b].dev == dev && bufs[b].blockno == blockno {
          return Some(b);
        }
        NextLink(links, order, i);
        b := links.next[b];
        i := i + 1;
      }
      EndOfList(links, order, i);
      forall c: nat | c < NBUF
        ensures !Key(bufs, c, dev, blockno)
      {
        var k := Listed(order, c);
        assert At(order, k + 1) == c;
      }
      return None;
    }

    /** bget's second loop: least recently used first. */
    method FindRecyclable() returns (r: Option<nat>)
      requires Valid()
      ensures |bufs| == NBUF
      ensures r.None? ==> forall b: nat | b < NBUF :: !Recyclable(bufs[b])
      ensures r.Some? ==> IsLeastRecent(bufs, order, r.value)
    {
      hide Agree, Ring, Complete;
      BufsSize(bufs, disk, book);
      FirstLink(links, order);
      ghost var i := |order|;
      var b := links.prev[HEAD];
      while b != HEAD
        invariant 0 <= i <= |order| && b == At(order, i) && Sized(links) && b <= NBUF
        invariant forall j | i < j <= |order| :: At(order, j) < NBUF && !Recyclable(bufs[At(order, j)])
        decreases i
      {
        PrevLink(links, order, i);
        if bufs[b].refcnt == 0 && !bufs[b].dirty {
          LeastRecentAt(links, bufs, order, i);
          return Some(b);
        }
        b := links.prev[b];
        i := i - 1;
      }
      StartOfList(links, order, i);
      forall c: nat | c < NBUF
        ensures !Recyclable(bufs[c])
      {
        var k := Listed(order, c);
        assert At(order, k + 1) == c;
      }
      return None;
    }

    /** bget up to the release of bcache.lock; `t` names this use. None is the "no buffers" panic. */
    method Bget(dev: nat, blockno: nat, ghost t: nat) returns (r: Option<nat>)
      requires Valid() && dev != 0 && t !in book.claims
      modifies this`bufs, this`book
      ensures Valid()
      ensures r.None? <==> !Cached(old(bufs), dev, blockno) && forall x <- old(bufs) :: !Recyclable(x)
      ensures r.None? ==> bufs == old(bufs) && book == old(book)
      ensures r.Some? ==> |old(bufs)| == NBUF && r.value < NBUF == |old(book).users|
      ensures r.Some? ==> book == Join(old(book), t, r.value, dev, blockno)
      ensures r.Some? && Cached(old(bufs), dev, blockno) ==>
                && Key(old(bufs), r.value, dev, blockno)
                && bufs == old(bufs)[r.value := old(bufs[r.value].(refcnt := bufs[r.value].refcnt + 1))]
      ensures r.Some? && !Cached(old(bufs), dev, blockno) ==>
                && bufs == old(bufs)[r.value := Recycled(old(bufs)[r.value], dev, blockno)]
                && IsLeastRecent(old(bufs), order, r.value)
    {
      hide Agree, Ring, Complete, IsLeastRecent;
      BufsSize(bufs, disk, book);
      r := FindCached(dev, blockno);
      if r.Some? {
        var b := r.value;
        assert Key(bufs, b, dev, blockno);
        HitKeeps(bufs, disk, book, t, b);
        bufs := bufs[b := bufs[b].(refcnt := bufs[b].refcnt + 1)];
        book := Join(book, t, b, dev, blockno);
        return;
      }
      r := FindRecyclable();
      if r.Some? {
        var b := r.value;
        LeastRecentFacts(bufs, order, b);
        RecycleKeeps(bufs, disk, book, t, b, dev, blockno);
        bufs := bufs[b := bufs[b].(dev := dev, blockno := blockno)];
        bufs := bufs[b := bufs[b].(valid := false, dirty := false)];
        bufs := bufs[b := bufs[b].(refcnt := 1)];
        book := Join(book, t, b, dev, blockno);
        assert bufs == old(bufs)[b := Recycled(old(bufs)[b], dev, blockno)];
        assert Recyclable(old(bufs)[b]) && old(bufs)[b] in old(bufs);
      } else {
        assert forall x <- bufs :: !Recyclable(x);
      }
    }

    /** acquiresleep, at the moment the lock is free. */
    method AcquireSleep(b: nat, ghost t: nat)
      requires Valid() && b < |bufs| && !bufs[b].locked
      requires t in book.claims && book.claims[t].b == b && book.claims[t].stage == Waiting
      modifies this`bufs, this`book
      ensures Valid()
      ensures bufs == old(bufs)[b := old(bufs[b]).(locked := true)] && book == Advance(old(book), t, Holding)
    {
      hide Agree, Ring, Complete;
      BufsSize(bufs, disk, book);
      AdvanceKeeps(bufs, disk, book, t, Holding);
      bufs := bufs[b := bufs[b].(locked := true)];
      book := Advance(book, t, Holding);
    }

    /** iderw on the memory disk, its panics excluded. */
    method Iderw(b: nat)
      requires b < |bufs| && bufs[b].locked && (bufs[b].valid ==> bufs[b].dirty)
      requires bufs[b].dev == 1 && bufs[b].blockno < |disk|
      modifies this`bufs, this`disk
      ensures old(bufs[b].dirty) ==>
                && disk == old(disk)[old(bufs[b].blockno) := old(bufs[b].data)]
                && bufs == old(bufs)[b := old(bufs[b].(dirty := false, valid := true))]
      ensures !old(bufs[b].dirty) ==>
                && disk == old(disk)
                && bufs == old(bufs)[b := old(bufs[b].(data := disk[bufs[b].blockno], valid := true))]
    {
      if bufs[b].dirty {
        bufs := bufs[b := bufs[b].(dirty := false)];
        disk := disk[bufs[b].blockno := bufs[b].data];
      } else {
        bufs := bufs[b := bufs[b].(data := disk[bufs[b].blockno])];
      }
      bufs := bufs[b := bufs[b].(valid := true)];
    }

    /** The holder of `b` knows its key, and nobody recycles it meanwhile. */
    ghost predicate Holds(t: nat, b: nat, dev: nat, blockno: nat)
      reads this
    {
      t in book.claims && book.claims[t] == Claim(b, dev, blockno, Holding)
    }

    /** bread from the moment bget has returned the locked buffer: the caller sees the newest
        contents of its block, whatever was evicted and reloaded in between. */
    method Fill(b: nat, dev: nat, blockno: nat, ghost t: nat)
      requires Valid() && Holds(t, b, dev, blockno) && dev == 1 && blockno < |disk|
      modifies this`bufs, this`disk
      ensures Valid() && b < |old(bufs)| && blockno < |book.latest| && disk == old(disk)
      ensures bufs == old(bufs)[b := old(bufs)[b].(valid := true, data := book.latest[blockno])]
    {
      hide Ring, Complete, Unique, Counted, Locks, Current;
      BufsSize(bufs, disk, book);
      HolderFacts(bufs, disk, book, t);
      if !bufs[b].valid {
        ghost var bufs0 := bufs;
        FillKeeps(bufs, disk, book, b);
        Iderw(b);
        FillAgrees(bufs0, disk, book, b);
      }
    }

    /** bread when nobody else holds the buffer: bget, the lock and the disk in one call. */
    method Bread(dev: nat, blockno: nat, ghost t: nat) returns (r: Option<nat>)
      requires Valid() && dev == 1 && blockno < |disk| && t !in book.claims
      requires forall x <- bufs :: x.dev == dev && x.blockno == blockno ==> !x.locked
      modifies this
      ensures Valid() && disk == old(disk) && book.latest == old(book.latest) && |book.latest| == |disk|
      ensures r.None? <==> !Cached(old(bufs), dev, blockno) && forall x <- old(bufs) :: !Recyclable(x)
      ensures r.Some? ==> Holds(t, r.value, dev, blockno) && r.value < |old(book).users|
      ensures r.Some? ==> book == Advance(Join(old(book), t, r.value, dev, blockno), t, Holding)
      ensures r.None? ==> bufs == old(bufs) && book == old(book) && links == old(links) && order == old(order)
      ensures r.Some? ==> r.value < |old(bufs)| && r.value < |bufs| && bufs[r.value].dirty == old(bufs)[r.value].dirty
      ensures r.Some? && old(bufs)[r.value].dirty ==> Key(old(bufs), r.value, dev, blockno)
      ensures r.Some? ==> r.value < |bufs| && bufs[r.value].valid && bufs[r.value].data == book.latest[blockno]
      ensures r.Some? ==> |bufs| == |old(bufs)| && forall c | 0 <= c < |bufs| && c != r.value :: bufs[c] == old(bufs)[c]
    {
      hide Agree, Ring, Complete, Cached, Recyclable, IsLeastRecent;
      BufsSize(bufs, disk, book);
      ghost var bufs0, book0 := bufs, book;
      r := Bget(dev, blockno, t);
      if r.Some? {
        var b := r.value;
        if !Cached(bufs0, dev, blockno) {
          LeastRecentFacts(bufs0, order, b);
        }
        GotUnlocked(bufs0, disk, book0, b, dev, blockno, bufs);
        AcquireSleep(b, t);
        Fill(b, dev, blockno, t);
      }
      BufsSize(bufs, disk, book);
    }

    /** The holder changes the contents; from now on these are the newest. */
    method Store(b: nat, data: Data, ghost t: nat)
      requires Valid() && t in book.claims && book.claims[t].b == b && book.claims[t].stage == Holding
      requires b < |bufs| && bufs[b].valid
      modifies this`bufs, this`book
      ensures Valid() && old(bufs[b].blockno) < |old(book).latest|
      ensures bufs == old(bufs)[b := old(bufs[b]).(data := data)]
      ensures book == old(book).(edited := old(book).edited + {b}, latest := old(book).latest[old(bufs[b].blockno) := data])
    {
      hide Ring, Complete, Unique, Counted, Locks, Current;
      HolderFacts(bufs, disk, book, t);
      EditKeeps(bufs, disk, book, b, data);
      ghost var bufs0, book0 := bufs, book;
      book := book.(edited := book.edited + {b}, latest := book.latest[bufs[b].blockno := data]);
      bufs := bufs[b := bufs[b].(data := data)];
      ContentsAgree(bufs0, disk, book0, bufs, disk, book);
    }

    /** log_write's part in the cache: pin the buffer. */
    method LogWrite(b: nat, ghost t: nat)
      requires Valid() && t in book.claims && book.claims[t].b == b && book.claims[t].stage == Holding
      requires b < |bufs| && bufs[b].valid
      modifies this`bufs, this`book
      ensures Valid()
      ensures bufs == old(bufs)[b := old(bufs[b]).(dirty := true)] && book == old(book).(edited := old(book).edited - {b})
    {
      hide Ring, Complete, Unique, Counted, Locks, Current;
      HolderFacts(bufs, disk, book, t);
      PinKeeps(bufs, disk, book, b);
      ghost var bufs0, book0 := bufs, book;
      book := book.(edited := book.edited - {b});
      bufs := bufs[b := bufs[b].(dirty := true)];
      ContentsAgree(bufs0, disk, book0, bufs, disk, book);
    }

    /** bwrite: the disk gets the buffer's contents, and the pin is gone. */
    method Bwrite(b: nat, ghost t: nat)
      requires Valid() && t in book.claims && book.claims[t].b == b && book.claims[t].stage == Holding
      requires b < |bufs| && bufs[b].dev == 1 && bufs[b].blockno < |disk|
      modifies this`bufs, this`disk, this`book
      ensures Valid() && |old(book).latest| == |old(disk)|
      ensures disk == old(disk)[old(bufs[b].blockno) := old(bufs[b].data)]
      ensures bufs == old(bufs)[b := old(bufs[b]).(valid := true, dirty := false)]
      ensures book == old(book).(edited := old(book).edited - {b}, latest := old(book).latest[old(bufs[b].blockno) := old(bufs[b].data)])
    {
      hide Ring, Complete, Unique, Counted, Locks, Current;
      BufsSize(bufs, disk, book);
      HolderFacts(bufs, disk, book, t);
      FlushKeeps(bufs, disk, book, b);
      ghost var bufs0, disk0, book0 := bufs, disk, book;
      book := book.(edited := book.edited - {b}, latest := book.latest[bufs[b].blockno := bufs[b].data]);
      bufs := bufs[b := bufs[b].(dirty := true)];
      Iderw(b);
      assert bufs == bufs0[b := bufs0[b].(valid := true, dirty := false)];
      ContentsAgree(bufs0, disk0, book0, bufs, disk, book);
    }

    /** brelse's releasesleep; what was changed must have been passed to log_write or bwrite. */
    method ReleaseSleep(b: nat, ghost t: nat)
      requires Valid() && t in book.claims && book.claims[t].b == b && book.claims[t].stage == Holding
      requires b < |bufs| && b !in book.edited
      modifies this`bufs, this`book
      ensures Valid()
      ensures bufs == old(bufs)[b := old(bufs[b]).(locked := false)] && book == Advance(old(book), t, Leaving)
    {
      hide Agree, Ring, Complete;
      BufsSize(bufs, disk, book);
      AdvanceKeeps(bufs, disk, book, t, Leaving);
      bufs := bufs[b := bufs[b].(locked := false)];
      book := Advance(book, t, Leaving);
    }

    /** brelse under bcache.lock: the last user moves the buffer to the front. */
    method Unref(b: nat, ghost t: nat)
      requires Valid() && t in book.claims && book.claims[t].b == b && book.claims[t].stage == Leaving
      modifies this`bufs, this`book, this`links, this`order
      ensures Valid() && b < |old(bufs)| == |old(book).users| && old(bufs)[b].refcnt >= 1
      ensures bufs == old(bufs)[b := old(bufs)[b].(refcnt := old(bufs)[b].refcnt - 1)] && book == Left(old(book), t)
      ensures old(bufs)[b].refcnt > 1 ==> links == old(links) && order == old(order)
      ensures old(bufs)[b].refcnt == 1 ==>
                exists i: nat :: i < |old(order)| && old(order)[i] == b && order == [b] + Without(old(order), i)
    {
      hide Agree, Ring, Complete;
      BufsSize(bufs, disk, book);
      UserFacts(bufs, disk, book, t);
      LeaveKeeps(bufs, disk, book, t);
      book := Left(book, t);
      bufs := bufs[b := bufs[b].(refcnt := bufs[b].refcnt - 1)];
      if bufs[b].refcnt == 0 {
        ghost var i := Listed(order, b);
        UnlinkRing(links, order, i);
        ghost var rest := Without(order, i);
        SizedRing(links, order);
        links := links.(prev := links.prev[links.next[b] := links.prev[b]]);
        links := links.(next := links.next[links.prev[b] := links.next[b]]);
        assert links == Unlink(old(links), b);
        PushRing(links, rest, b);
        SizedRing(links, rest);
        ghost var first := links.next[HEAD];
        ghost var links1 := links;
        links := links.(next := links.next[b := links.next[HEAD]]);
        links := links.(prev := links.prev[b := HEAD]);
        links := links.(prev := links.prev[links.next[HEAD] := b]);
        links := links.(next := links.next[HEAD := b]);
        assert links == PushFront(links1, b);
        FrontComplete(order, i);
        order := [b] + rest;
      }
    }

    /** brelse: both halves in one call. */
    method Brelse(b: nat, ghost t: nat)
      requires Valid() && t in book.claims && book.claims[t].b == b && book.claims[t].stage == Holding
      requires b < |bufs| && b !in book.edited
      modifies this`bufs, this`book, this`links, this`order
      ensures Valid() && old(bufs)[b].refcnt >= 1 && |old(bufs)| == |old(book).users|
      ensures bufs == old(bufs)[b := old(bufs)[b].(locked := false, refcnt := old(bufs)[b].refcnt - 1)]
      ensures book == Left(Advance(old(book), t, Leaving), t)
    {
      hide Agree, Ring, Complete;
      ReleaseSleep(b, t);
      Unref(b, t);
    }
  }

  lemma SizedRing(r: Links, order: seq<nat>)
    requires Ring(r, order)
    ensures Sized(r)
  {
  }

  lemma LeastRecentFacts(bufs: seq<Buf>, order: seq<nat>, b: nat)
    requires IsLeastRecent(bufs, order, b)
    ensures |bufs| == NBUF && b < NBUF && Recyclable(bufs[b])
  {
  }

  lemma UserFacts(bufs: seq<Buf>, disk: seq<Data>, k: Book, t: nat)
    requires Agree(bufs, disk, k) && t in k.claims
    ensures var c := k.claims[t]; |bufs| == NBUF && c.b < NBUF && Key(bufs, c.b, c.dev, c.blockno) && bufs[c.b].refcnt >= 1
  {
  }

  lemma HolderFacts(bufs: seq<Buf>, disk: seq<Data>, k: Book, t: nat)
    requires Agree(bufs, disk, k) && t in k.claims && k.claims[t].stage == Holding
    ensures var c := k.claims[t]; |bufs| == NBUF && c.b < NBUF && Key(bufs, c.b, c.dev, c.blockno) && bufs[c.b].locked
    ensures var c := k.claims[t]; c.b in k.holder && k.edited <= k.holder.Keys
    ensures var c := k.claims[t]; bufs[c.b].valid ==>
              c.dev == 1 && c.blockno < |disk| == |k.latest| && bufs[c.b].data == k.latest[c.blockno]
    ensures var c := k.claims[t]; bufs[c.b].dirty ==> bufs[c.b].valid
  {
  }

  lemma FillAgrees(bufs: seq<Buf>, disk: seq<Data>, k: Book, b: nat)
    requires Agree(bufs, disk, k) && b < |bufs| && bufs[b].dev == 1 && bufs[b].blockno < |disk| && !bufs[b].valid
    ensures var bufs' := bufs[b := bufs[b].(data := disk[bufs[b].blockno], valid := true)];
            Agree(bufs', disk, k) && SameKeys(bufs, bufs')
  {
    var bufs' := bufs[b := bufs[b].(data := disk[bufs[b].blockno], valid := true)];
    FillKeeps(bufs, disk, k, b);
    ContentsAgree(bufs, disk, k, bufs', disk, k);
  }

  /** Steps of a holder: only contents and flags change. */
  lemma ContentsAgree(bufs: seq<Buf>, disk: seq<Data>, k: Book, bufs': seq<Buf>, disk': seq<Data>, k': Book)
    requires Agree(bufs, disk, k) && SameKeys(bufs, bufs') && SameCounts(bufs, bufs') && SameLocks(bufs, bufs')
    requires k'.claims == k.claims && k'.users == k.users && k'.holder == k.holder && k'.edited <= k.holder.Keys
    requires Current(bufs', disk', k')
    ensures Agree(bufs', disk', k')
  {
    hide Unique, Counted, Locks, Current;
    UniqueSame(bufs, bufs');
    CountedSame(bufs, k, bufs', k');
    LocksSame(bufs, k, bufs', k');
  }

  /** The buffer bget returns is unlocked if a cached one would be. */
  lemma GotUnlocked(bufs: seq<Buf>, disk: seq<Data>, k: Book, b: nat, dev: nat, blockno: nat, bufs': seq<Buf>)
    requires Agree(bufs, disk, k) && |bufs| == NBUF && b < NBUF
    requires forall x <- bufs :: x.dev == dev && x.blockno == blockno ==> !x.locked
    requires (Key(bufs, b, dev, blockno) && bufs' == bufs[b := bufs[b].(refcnt := bufs[b].refcnt + 1)]) ||
             (Recyclable(bufs[b]) && bufs' == bufs[b := Recycled(bufs[b], dev, blockno)])
    ensures !bufs'[b].locked
  {
  }

  /** `order[i]` is the recyclable buffer furthest from the front. */
  ghost predicate LeastRecent(bufs: seq<Buf>, order: seq<nat>, i: nat) {
    && |bufs| == NBUF && i < |order| && order[i] < NBUF && Recyclable(bufs[order[i]])
    && forall j | i < j < |order| :: order[j] < NBUF && !Recyclable(bufs[order[j]])
  }

  ghost predicate IsLeastRecent(bufs: seq<Buf>, order: seq<nat>, b: nat) {
    exists i: nat :: LeastRecent(bufs, order, i) && order[i] == b
  }

  lemma LeastRecentAt(r: Links, bufs: seq<Buf>, order: seq<nat>, i: nat)
    requires Ring(r, order) && |bufs| == NBUF && 1 <= i <= |order| && At(order, i) < NBUF && Recyclable(bufs[At(order, i)])
    requires forall j | i < j <= |order| :: At(order, j) < NBUF && !Recyclable(bufs[At(order, j)])
    ensures LeastRecent(bufs, order, i - 1) && order[i - 1] == At(order, i)
  {
    forall j | i - 1 < j < |order|
      ensures order[j] < NBUF && !Recyclable(bufs[order[j]])
    {
      assert At(order, j + 1) == order[j];
    }
  }

  lemma BufsSize(bufs: seq<Buf>, disk: seq<Data>, k: Book)
    requires Agree(bufs, disk, k)
    ensures |bufs| == NBUF && |k.users| == NBUF && |k.latest| == |disk|
  {
  }

  lemma FirstLink(r: Links, order: seq<nat>)
    requires Ring(r, order)
    ensures Sized(r) && r.next[HEAD] == At(order, 1) <= NBUF && r.prev[HEAD] == At(order, |order|) <= NBUF
  {
    assert At(order, 0) == HEAD && At(order, |order| + 1) == HEAD;
  }

  lemma NextLink(r: Links, order: seq<nat>, i: nat)
    requires Ring(r, order) && 1 <= i <= |order| + 1 && At(order, i) != HEAD
    ensures i <= |order| && At(order, i) < NBUF && r.next[At(order, i)] == At(order, i + 1) <= NBUF
  {
  }

  lemma PrevLink(r: Links, order: seq<nat>, i: nat)
    requires Ring(r, order) && i <= |order| && At(order, i) != HEAD
    ensures 1 <= i && At(order, i) < NBUF && r.prev[At(order, i)] == At(order, i - 1) <= NBUF
  {
  }

  lemma EndOfList(r: Links, order: seq<nat>, i: nat)
    requires Ring(r, order) && 1 <= i <= |order| + 1 && At(order, i) == HEAD
    ensures i == |order| + 1
  {
  }

  lemma StartOfList(r: Links, order: seq<nat>, i: nat)
    requires Ring(r, order) && i <= |order| && At(order, i) == HEAD
    ensures i == 0
  {
  }
}
