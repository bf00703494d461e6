/** log.c itself: the fields it updates and the loops over blocks. Every block write it makes is
    one step of the protocol in RedoLog, so each disk state a crash can expose is a state of a
    legal run, and CrashSafety speaks about it. */
module LogCode {
  import opened RedoLog
  import opened CrashSafety

  ghost predicate DiskSteps(w: World, es: seq<Event>, w': World) {
    (forall i | 0 <= i < |es| :: es[i] == Progress) && Legal(w, es) && Exec(w, es) == w'
  }

  /** `k` disk steps of commit or recovery lead from `w` to `w'`. */
  ghost predicate Steps(w: World, k: nat, w': World) {
    exists es: seq<Event> :: |es| == k && DiskSteps(w, es, w')
  }

  lemma NoSteps(w: World)
    ensures Steps(w, 0, w)
  {
  }

  lemma {:induction false} StepsAdd(w: World, j: nat, w1: World, k: nat, w2: World)
    requires Steps(w, j, w1) && Steps(w1, k, w2)
    ensures Steps(w, j + k, w2)
  {
    var es1: seq<Event> :| |es1| == j && DiskSteps(w, es1, w1);
    var es2: seq<Event> :| |es2| == k && DiskSteps(w1, es2, w2);
    ExecConcat(w, es1, es2);
    assert DiskSteps(w, es1 + es2, w2);
  }

  lemma {:induction false} ExecConcat(w: World, es1: seq<Event>, es2: seq<Event>)
    requires Legal(w, es1) && Legal(Exec(w, es1), es2)
    ensures Legal(w, es1 + es2) && Exec(w, es1 + es2) == Exec(Exec(w, es1), es2)
    decreases |es1|
  {
    if es1 == [] {
      assert [] + es2 == es2;
    } else {
      ExecConcat(Next(w, es1[0]), es1[1..], es2);
      assert (es1 + es2)[1..] == es1[1..] + es2;
    }
  }

  lemma OneStep(w: World)
    requires Reachable(w) && Enabled(w, Progress)
    ensures Reachable(DoProgress(w)) && Steps(w, 1, DoProgress(w))
  {
    ReachableStep(w, Progress);
    assert Exec(w, [Progress]) == Next(w, Progress) by { assert [Progress][1..] == []; }
    assert DiskSteps(w, [Progress], DoProgress(w));
  }

  // ---------------------------------------------------------------- what each disk step does

  /** The pinned buffers once block `b` has been written to disk. */
  function Unpin(cache: map<int, Block>, b: int): map<int, Block> {
    if b in cache then cache - {b} else cache
  }

  ghost predicate SameMemory(w: World, w': World) {
    && w'.geo == w.geo && w'.lh == w.lh && w'.outstanding == w.outstanding && w'.committing == w.committing
    && w'.history == w.history && w'.base == w.base
  }

  lemma CommitLogStep(w: World, tail: nat) returns (w': World)
    requires Reachable(w) && w.phase == CommitLog(tail) && tail < |w.lh|
    ensures 0 <= w.lh[tail] < |w.disk| && w.geo.start + 1 + tail < |w.disk| && w.geo.start + 1 + tail !in w.cache
    ensures Reachable(w') && Steps(w, 1, w') && SameMemory(w, w') && w'.phase == CommitLog(tail + 1)
    ensures w'.cache == w.cache && w'.disk == w.disk[w.geo.start + 1 + tail := View(w, w.lh[tail])]
  {
    hide RunTo, DiskSteps;
    ReachableInv(w);
    OneStep(w);
    w' := DoProgress(w);
    assert w.geo.Home(w.lh[tail]);
    assert w.geo.start + 1 + tail !in w.cache.Keys;
  }

  lemma InstallBounds(w: World, tail: nat)
    requires Reachable(w) && (w.phase == Install(tail) || w.phase == Replay(tail)) && tail < |w.lh|
    ensures CanProgress(w) && 0 <= w.lh[tail] < |w.disk|
    ensures |w.lh| < w.geo.size && w.geo.start + 1 + tail !in w.cache
  {
    hide RunTo, HomeHolds, LogHolds, Apply, WholeOps;
    ReachableInv(w);
    assert w.geo.Home(w.lh[tail]);
    assert forall b <- w.cache.Keys :: w.geo.Home(b);
  }

  lemma InstallStep(w: World, tail: nat) returns (w': World)
    requires Reachable(w) && (w.phase == Install(tail) || w.phase == Replay(tail)) && tail < |w.lh|
    ensures 0 <= w.lh[tail] < |w.disk| && w.geo.start + 1 + tail < |w.disk| && w.geo.start + 1 + tail !in w.cache
    ensures Reachable(w') && Steps(w, 1, w') && SameMemory(w, w')
    ensures w'.phase == if w.phase.Install? then Install(tail + 1) else Replay(tail + 1)
    ensures w'.cache == Unpin(w.cache, w.lh[tail])
    ensures w'.disk == w.disk[w.lh[tail] := w.disk[w.geo.start + 1 + tail]]
  {
    hide RunTo, DiskSteps, GoodList;
    InstallBounds(w, tail);
    OneStep(w);
    w' := DoProgress(w);
    assert w' == CopyHome(w, tail).(phase := w'.phase);
  }

  /** The header write that commits. */
  lemma HeadStep(w: World) returns (w': World)
    requires Reachable(w) && w.phase == CommitLog(|w.lh|)
    ensures w.geo.Valid() && |w.disk| == w.geo.ndisk && |w.lh| <= LOGSIZE && w.geo.start !in w.cache && |w.disk[w.geo.start]| == BWORDS
    ensures Reachable(w') && Steps(w, 1, w') && SameMemory(w, w') && w'.phase == Install(0)
    ensures w'.cache == w.cache
    ensures w'.disk == w.disk[w.geo.start := WriteHead(w.disk[w.geo.start], w.lh)]
  {
    hide RunTo, DiskSteps;
    ReachableInv(w);
    OneStep(w);
    w' := DoProgress(w);
    assert w.geo.start !in w.cache.Keys;
  }

  /** The header write that empties the log, after commit or after recovery. */
  lemma ClearStep(w: World) returns (w': World)
    requires Reachable(w) && (w.phase == Install(|w.lh|) || w.phase == Replay(|w.lh|))
    ensures w.geo.Valid() && |w.disk| == w.geo.ndisk && w.cache == map[] && |w.disk[w.geo.start]| == BWORDS
    ensures Reachable(w') && Steps(w, 1, w') && w'.lh == [] && SameMemory(w.(lh := []), w')
    ensures w'.phase == if w.phase.Install? then Finishing else Running
    ensures w'.cache == w.cache
    ensures w'.disk == w.disk[w.geo.start := WriteHead(w.disk[w.geo.start], [])]
  {
    hide RunTo, DiskSteps;
    ReachableInv(w);
    OneStep(w);
    w' := DoProgress(w);
    assert w.phase.Install? ==> forall b :: b !in w.cache.Keys;
  }

  lemma BootStep(w: World) returns (w': World)
    requires Reachable(w) && w.phase == Boot
    ensures w.geo.Valid() && |w.disk| == w.geo.ndisk && HeadOk(w.disk[w.geo.start]) && w.cache == map[]
    ensures Reachable(w') && Steps(w, 1, w') && w'.phase == Replay(0)
    ensures w'.lh == ReadHead(w.disk[w.geo.start]) && SameMemory(w.(lh := w'.lh), w')
    ensures w'.cache == w.cache && w'.disk == w.disk
    ensures HomeEq(w.geo, Recovered(w.geo, w.disk), Image(w))
  {
    hide RunTo, DiskSteps;
    ReachableInv(w);
    OneStep(w);
    w' := DoProgress(w);
    RecoverableRecovers(w.geo, w.disk, Image(w));
  }

  lemma FinishStep(w: World) returns (w': World)
    requires Reachable(w) && w.phase == Finishing
    ensures w.lh == []
    ensures Reachable(w') && Steps(w, 1, w') && SameMemory(w.(committing := false), w') && w'.phase == Running
    ensures w'.cache == w.cache && w'.disk == w.disk
  {
    hide RunTo, DiskSteps;
    ReachableInv(w);
    OneStep(w);
    w' := DoProgress(w);
  }

  /** After a completed commit or recovery the home blocks hold every update. */
  lemma SettledHome(w: World)
    requires Reachable(w) && w.phase.Running? && w.lh == []
    ensures HomeEq(w.geo, w.disk, Image(w)) && w.durable == |w.history|
  {
    ReachableInv(w);
    assert w.history[..w.durable] == w.history;
  }

  lemma EndStep(w: World, op: nat)
    requires Reachable(w) && Enabled(w, EndOp(op))
    ensures !w.committing && w.phase.Running? && w.outstanding >= 1
    ensures Reachable(DoEnd(w, op))
  {
    ReachableInv(w);
    EndKeepsPhase(w, op);
    ReachableStep(w, EndOp(op));
  }

  class Log {
    const geo: Geo               // log.start, log.size
    var disk: Disk
    var dirty: map<int, Block>   // buffers marked B_DIRTY
    var n: nat                   // log.lh.n
    const block: array<int>      // log.lh.block
    var outstanding: int
    var committing: bool
    ghost var w: World           // the protocol state this is

    ghost predicate Tied()
      reads this, block
    {
      && block.Length == LOGSIZE && n <= LOGSIZE
      && w.geo == geo && w.disk == disk && w.cache == dirty && w.lh == block[..n]
      && w.outstanding == outstanding && w.committing == committing
    }

    ghost predicate Valid()
      reads this, block
    {
      Tied() && Reachable(w)
    }

    /** Power on with the given disk: memory is zero. */
    constructor (geo: Geo, disk: Disk, ghost base: Disk, ghost nextOp: nat)
      requires Recoverable(geo, disk, base)
      ensures Valid() && fresh(block) && Initial(w)
      ensures w.disk == disk && w.base == base && w.geo == geo
    {
      this.geo := geo;
      this.disk := disk;
      dirty := map[];
      n := 0;
      block := new int[LOGSIZE](_ => 0);
      outstanding := 0;
      committing := false;
      w := World(geo, disk, map[], [], 0, false, Boot, base, [], 0, {0}, map[], nextOp);
      new;
      assert RunTo(w, [], w);
    }

    /** What a read of block `b` returns. */
    ghost function Reads(b: int): Block
      requires 0 <= b < |disk|
      reads this
    {
      if b in dirty then dirty[b] else disk[b]
    }

    /** bread. While the kernel runs a home block reads as its newest contents, committed or not. */
    method Bread(b: int) returns (data: Block)
      requires 0 <= b < |disk|
      ensures data == Reads(b)
      ensures Valid() && Up(w) && geo.Home(b) ==> b < |Image(w)| && data == Image(w)[b]
    {
      hide Reachable;
      if Valid() && Up(w) && geo.Home(b) {
        ReadsAreNewest(w, b);
      }
      data := if b in dirty then dirty[b] else disk[b];
    }

    /** bwrite. The block reads as `data` from then on, also after memory is lost; every other block
        reads as before. */
    method Bwrite(b: int, data: Block)
      requires 0 <= b < |disk|
      modifies this`disk, this`dirty
      ensures disk == old(disk)[b := data] && dirty == Unpin(old(dirty), b)
      ensures b !in dirty && forall c | 0 <= c < |disk| :: Reads(c) == if c == b then data else old(Reads(c))
    {
      disk := disk[b := data];
      dirty := Unpin(dirty, b);
    }

    /** log.c read_head. */
    method ReadHeader()
      requires geo.Valid() && |disk| == geo.ndisk && HeadOk(disk[geo.start])
      requires block.Length == LOGSIZE && geo.start !in dirty
      modifies this`n, block
      ensures n == disk[geo.start][0] && block[..n] == ReadHead(disk[geo.start])
    {
      var hb := Bread(geo.start);
      n := hb[0];
      var i := 0;
      while i < n
        invariant i <= n == hb[0]
        invariant forall k | 0 <= k < i :: block[k] == hb[1 + k]
      {
        block[i] := hb[1 + i];
        i := i + 1;
      }
    }

    /** log.c write_head: the single block write that commits or clears. */
    method WriteHeader()
      requires geo.Valid() && |disk| == geo.ndisk && |disk[geo.start]| == BWORDS
      requires block.Length == LOGSIZE && n <= LOGSIZE && geo.start !in dirty
      modifies this`disk, this`dirty
      ensures disk == old(disk)[geo.start := WriteHead(old(disk)[geo.start], block[..n])]
      ensures dirty == old(dirty)
    {
      var hb := Bread(geo.start);
      ghost var hb0 := hb;
      hb := hb[0 := n];
      var i := 0;
      while i < n
        invariant i <= n && |hb| == BWORDS && hb[0] == n
        invariant forall k | 0 <= k < i :: hb[1 + k] == block[k]
        invariant forall k | 1 + i <= k < BWORDS :: hb[k] == hb0[k]
      {
        hb := hb[1 + i := block[i]];
        i := i + 1;
      }
      assert hb == WriteHead(hb0, block[..n]);
      Bwrite(geo.start, hb);
      assert dirty == old(dirty);
    }

    /** log.c write_log: copies pinned buffers to the log area, one disk write each. */
    method WriteLog()
      requires Valid() && w.phase == CommitLog(0)
      modifies this`disk, this`dirty, this`w
      ensures Valid() && Steps(old(w), n, w) && w.phase == CommitLog(n) && w.history == old(w).history
    {
      hide Reachable, Steps;
      NoSteps(w);
      var tail := 0;
      while tail < n
        invariant tail <= n && Valid() && w.phase == CommitLog(tail) && w.history == old(w).history
        invariant Steps(old(w), tail, w)
      {
        ghost var w' := CommitLogStep(w, tail);
        var from := Bread(block[tail]);
        assert geo.start + 1 + tail !in dirty;
        Bwrite(geo.start + 1 + tail, from);
        assert dirty == w.cache;
        StepsAdd(old(w), tail, w, 1, w');
        w := w';
        tail := tail + 1;
      }
    }

    /** log.c install_trans, in commit and in recovery. */
    method InstallTrans()
      requires Valid() && (w.phase == Install(0) || w.phase == Replay(0))
      modifies this`disk, this`dirty, this`w
      ensures Valid() && Steps(old(w), n, w) && SameMemory(old(w), w)
      ensures w.phase == if old(w).phase.Install? then Install(n) else Replay(n)
    {
      hide Reachable, Steps;
      NoSteps(w);
      var tail := 0;
      while tail < n
        invariant tail <= n && Valid() && Steps(old(w), tail, w) && SameMemory(old(w), w)
        invariant w.phase == if old(w).phase.Install? then Install(tail) else Replay(tail)
      {
        ghost var w' := InstallStep(w, tail);
        var lbuf := Bread(geo.start + 1 + tail);
        Bwrite(block[tail], lbuf);
        StepsAdd(old(w), tail, w, 1, w');
        w := w';
        tail := tail + 1;
      }
    }

    /** log.c commit: write_log, header, install_trans, header again. */
    method Commit()
      requires Valid() && w.phase == if n > 0 then CommitLog(0) else Finishing
      modifies this`disk, this`dirty, this`n, this`w
      ensures Valid() && w.phase == Finishing && w.history == old(w).history
      ensures Steps(old(w), if old(n) > 0 then 2 * old(n) + 2 else 0, w)
    {
      hide Reachable, Steps, WriteHead;
      ghost var w0, n0 := w, n;
      NoSteps(w);
      if n > 0 {
        WriteLog();
        ghost var w' := HeadStep(w);
        WriteHeader();
        StepsAdd(w0, n0, w, 1, w');
        w := w';
        InstallTrans();
        StepsAdd(w0, n0 + 1, w', n0, w);
        w' := ClearStep(w);
        n := 0;
        WriteHeader();
        assert block[..0] == [];
        StepsAdd(w0, 2 * n0 + 1, w, 1, w');
        w := w';
      }
    }

    /** log.c recover_from_log. */
    method RecoverFromLog()
      requires Valid() && w.phase == Boot
      modifies this`disk, this`dirty, this`n, this`w, block
      ensures Valid() && w.phase == Running && n == 0
      ensures geo.Valid() && |old(disk)| == geo.ndisk
      ensures HomeEq(geo, disk, Recovered(geo, old(disk)))
      ensures Steps(old(w), |ReadHead(old(disk)[geo.start])| + 2, w)
    {
      hide Reachable, Steps, WriteHead, ReadHead, Recovered;
      ghost var w0 := w;
      ghost var w' := BootStep(w);
      ReadHeader();
      w := w';
      ghost var n0 := n;
      InstallTrans();
      StepsAdd(w0, 1, w', n0, w);
      w' := ClearStep(w);
      n := 0;
      WriteHeader();
      assert block[..0] == [];
      StepsAdd(w0, n0 + 1, w, 1, w');
      w := w';
      SettledHome(w);
    }

    /** One pass of begin_op's loop; `false` means the caller sleeps and tries again. */
    method BeginOp() returns (ok: bool)
      requires Valid() && Up(w)
      modifies this`outstanding, this`w
      ensures Valid()
      ensures ok <==> !old(committing) && old(n) + MAXOPBLOCKS * (|old(w).active| + 1) <= LOGSIZE
      ensures ok == Enabled(old(w), RedoLog.BeginOp)
      ensures w == if ok then DoBegin(old(w)) else old(w)
    {
      hide Reachable;
      CountsOps(w);
      if committing {
        ok := false;
      } else if n + (outstanding + 1) * MAXOPBLOCKS > LOGSIZE {
        ok := false;
      } else {
        ReachableStep(w, RedoLog.BeginOp);
        outstanding := outstanding + 1;
        w := DoBegin(w);
        ok := true;
      }
    }

    /** log.c log_write, for the buffer of block `bno` now holding `data`. */
    method LogWrite(bno: int, data: Block, ghost op: nat) returns (panic: bool)
      requires Valid() && Enabled(w, RedoLog.LogWrite(op, bno, data))
      modifies this`n, this`dirty, this`w, block
      ensures Valid() && panic == w.phase.Panicked?
      ensures w == DoLogWrite(old(w), op, bno, data)
    {
      hide Reachable;
      ReachableStep(w, RedoLog.LogWrite(op, bno, data));
      if n >= LOGSIZE || n >= geo.size - 1 || outstanding < 1 {
        w := DoLogWrite(w, op, bno, data);
        return true;
      }
      var i := 0;
      while i < n && block[i] != bno
        invariant i <= n && bno !in block[..i]
      {
        i := i + 1;
      }
      assert i == n ==> bno !in w.lh;
      assert i < n ==> w.lh[i] == bno;
      block[i] := bno;
      if i == n {
        n := n + 1;
        assert block[..n] == w.lh + [bno];
      } else {
        assert block[..n] == w.lh;
      }
      dirty := dirty[bno := data];
      w := DoLogWrite(w, op, bno, data);
      panic := false;
    }

    /** log.c end_op: the last operation out commits for everyone. */
    method EndOp(ghost op: nat) returns (panic: bool)
      requires Valid() && Enabled(w, RedoLog.EndOp(op))
      modifies this`disk, this`dirty, this`n, this`outstanding, this`committing, this`w
      ensures Valid() && !panic && w.phase == Running
      ensures old(outstanding) > 1 ==> w == DoEnd(old(w), op)
      ensures old(outstanding) == 1 ==>
                && Steps(DoEnd(old(w), op), if old(n) > 0 then 2 * old(n) + 3 else 1, w)
                && w.history == old(w).history && w.durable == |w.history|
                && n == 0 && HomeEq(geo, disk, Image(w))
    {
      hide Reachable, Steps, HomeEq;
      EndStep(w, op);
      var doCommit := false;
      outstanding := outstanding - 1;
      if committing {
        return true;
      }
      if outstanding == 0 {
        doCommit := true;
        committing := true;
      }
      w := DoEnd(w, op);
      if doCommit {
        ghost var w1, n1 := w, n;
        Commit();
        ghost var w' := FinishStep(w);
        StepsAdd(w1, if n1 > 0 then 2 * n1 + 2 else 0, w, 1, w');
        committing := false;
        w := w';
        SettledHome(w);
      }
      panic := false;
    }
  }
}
