/** What every run of the redo log keeps: after a crash at any point, recovery rebuilds the
    effect of a whole number of commits, each made of whole operations. */
module CrashSafety {
  import opened RedoLog

  // ---------------------------------------------------------------- the invariant

  ghost predicate Static(w: World) {
    && w.geo.Valid()
    && |w.disk| == |w.base| == w.geo.ndisk
    && w.durable <= |w.history|
  }

  /** No operation has updates on both sides of any commit, past or coming. */
  ghost predicate WholeOps(w: World) {
    && w.durable in w.commits
    && (forall c <- w.commits :: c <= w.durable <= |w.history|)
    && (forall c, i, j | c in w.commits && 0 <= i < c <= j < |w.history| :: w.history[i].op != w.history[j].op)
    && (forall i | 0 <= i < |w.history| :: w.history[i].op < w.nextOp)
    && (forall op <- w.active :: op < w.nextOp)
    && (forall op, i | op in w.active && 0 <= i < w.durable :: w.history[i].op != op)
  }

  ghost predicate EmptyHead(w: World)
    requires Static(w)
  {
    |w.disk[w.geo.start]| == BWORDS && w.disk[w.geo.start][0] == 0
  }

  ghost function Listed(lh: seq<int>): set<int> { set b | b in lh }

  /** bread of a home block returns its contents after all updates so far. */
  ghost predicate ReadsNewest(w: World)
    requires Static(w)
  {
    forall b | 0 <= b < |w.disk| && w.geo.Home(b) :: View(w, b) == Image(w)[b]
  }

  /** Every block in the in-memory header is pinned, and reading through the cache gives the
      contents after all updates so far. */
  ghost predicate Pinned(w: World)
    requires Static(w)
  {
    && GoodList(w.geo, w.lh)
    && w.cache.Keys == Listed(w.lh)
    && ReadsNewest(w)
    && (w.lh == [] ==> w.durable == |w.history|)
  }

  ghost predicate Idle(w: World) {
    w.outstanding == 0 && w.active == map[]
  }

  ghost predicate PhaseInv(w: World)
    requires Static(w)
  {
    match w.phase
    case Running =>
      && !w.committing && w.outstanding == |w.active|
      && EmptyHead(w) && HomeEq(w.geo, w.disk, DurableImage(w)) && Pinned(w)
    case CommitLog(tail) =>
      && w.committing && Idle(w)
      && EmptyHead(w) && HomeEq(w.geo, w.disk, DurableImage(w)) && Pinned(w)
      && tail <= |w.lh|
      && LogHolds(w.geo, w.disk, w.lh, tail, Image(w))
    case Install(tail) =>
      && w.committing && Idle(w) && w.durable == |w.history|
      && GoodList(w.geo, w.lh) && tail <= |w.lh|
      && w.cache.Keys == Listed(w.lh[tail..]) && ReadsNewest(w)
      && HeadOk(w.disk[w.geo.start]) && ReadHead(w.disk[w.geo.start]) == w.lh
      && LogHolds(w.geo, w.disk, w.lh, |w.lh|, Image(w))
      && HomeHolds(w.geo, w.disk, w.lh, tail, Image(w))
    case Finishing =>
      && w.committing && Idle(w) && w.durable == |w.history|
      && w.lh == [] && w.cache == map[]
      && EmptyHead(w) && HomeEq(w.geo, w.disk, Image(w))
    case Boot =>
      && !w.committing && Idle(w) && w.durable == |w.history|
      && w.lh == [] && w.cache == map[]
      && Recoverable(w.geo, w.disk, Image(w))
    case Replay(tail) =>
      && !w.committing && Idle(w) && w.durable == |w.history| && w.cache == map[]
      && GoodList(w.geo, w.lh) && tail <= |w.lh|
      && HeadOk(w.disk[w.geo.start]) && ReadHead(w.disk[w.geo.start]) == w.lh
      && LogHolds(w.geo, w.disk, w.lh, |w.lh|, Image(w))
      && HomeHolds(w.geo, w.disk, w.lh, tail, Image(w))
    case Panicked =>
      Recoverable(w.geo, w.disk, DurableImage(w))
  }

  ghost predicate Inv(w: World) {
    Static(w) && WholeOps(w) && PhaseInv(w)
  }

  // ---------------------------------------------------------------- every state can crash safely

  lemma InvRecoverable(w: World)
    requires Static(w) && PhaseInv(w)
    ensures Recoverable(w.geo, w.disk, DurableImage(w))
  {
    assert w.durable == |w.history| ==> w.history[..w.durable] == w.history;
    if w.phase.Running? || w.phase.CommitLog? || w.phase.Finishing? {
      assert ReadHead(w.disk[w.geo.start]) == [];
    }
  }

  // ---------------------------------------------------------------- operations stay whole

  lemma LogWriteKeepsWhole(w: World, op: nat, bno: int, data: Block)
    requires Static(w) && WholeOps(w) && op in w.active
    ensures WholeOps(DoLogWrite(w, op, bno, data))
  {
  }

  lemma CrashKeepsWhole(w: World)
    requires Static(w) && WholeOps(w)
    ensures WholeOps(DoCrash(w))
  {
  }

  lemma ProgressKeepsWhole(w: World)
    requires Static(w) && WholeOps(w) && CanProgress(w)
    requires w.phase.CommitLog? ==> w.active == map[]
    ensures WholeOps(DoProgress(w))
  {
    var w' := DoProgress(w);
    assert w'.history == w.history && w'.active == w.active && w'.nextOp == w.nextOp;
    assert forall c <- w'.commits :: c in w.commits || c == |w.history|;
  }

  lemma StepKeepsWhole(w: World, e: Event)
    requires Static(w) && WholeOps(w) && Enabled(w, e)
    requires w.phase.CommitLog? ==> w.active == map[]
    ensures WholeOps(Next(w, e))
  {
    match e
    case LogWrite(op, bno, data) => LogWriteKeepsWhole(w, op, bno, data);
    case Crash => CrashKeepsWhole(w);
    case Progress => ProgressKeepsWhole(w);
    case _ =>
  }

  // ---------------------------------------------------------------- each step keeps the phase's invariant

  lemma BeginKeepsPhase(w: World)
    requires Static(w) && PhaseInv(w) && Enabled(w, BeginOp) && w.nextOp !in w.active
    ensures Static(DoBegin(w)) && PhaseInv(DoBegin(w))
  {
  }

  lemma ApplySnoc(base: Disk, h: seq<Write>, x: Write)
    ensures Apply(base, h + [x]) == if 0 <= x.bno < |base| then Apply(base, h)[x.bno := x.data] else Apply(base, h)
  {
  }

  lemma LogWriteKeepsPinned(w: World, op: nat, bno: int, data: Block)
    requires Static(w) && Pinned(w) && op in w.active && w.geo.Home(bno)
    requires !TooBig(w) && w.outstanding >= 1
    ensures Static(DoLogWrite(w, op, bno, data)) && Pinned(DoLogWrite(w, op, bno, data))
  {
    hide Apply;
    hide WholeOps;
    var w' := DoLogWrite(w, op, bno, data);
    assert Listed(w'.lh) == Listed(w.lh) + {bno};
    ApplySnoc(w.base, w.history, Write(op, bno, data));
  }

  lemma LogWriteKeepsPhase(w: World, op: nat, bno: int, data: Block)
    requires Static(w) && PhaseInv(w) && Enabled(w, LogWrite(op, bno, data))
    ensures Static(DoLogWrite(w, op, bno, data)) && PhaseInv(DoLogWrite(w, op, bno, data))
  {
    assert w.phase.Running? by { assert op in w.active; }
    var w' := DoLogWrite(w, op, bno, data);
    if w'.phase.Panicked? {
      InvRecoverable(w);
    } else {
      LogWriteKeepsPinned(w, op, bno, data);
      assert w'.history[..w'.durable] == w.history[..w.durable];
      assert |w'.active| == |w.active| by { assert w'.active.Keys == w.active.Keys; }
    }
  }

  lemma EndKeepsPhase(w: World, op: nat)
    requires Static(w) && PhaseInv(w) && Enabled(w, EndOp(op))
    ensures Static(DoEnd(w, op)) && PhaseInv(DoEnd(w, op))
    ensures !w.committing && !DoEnd(w, op).phase.Panicked?
  {
    assert w.phase.Running? by { assert op in w.active; }
    var w' := DoEnd(w, op);
    assert (w.active - {op}).Keys == w.active.Keys - {op};
    assert |w.active - {op}| == |w.active| - 1;
    if w.outstanding == 1 {
      assert w'.active == map[];
      if w.lh == [] {
        assert w.history[..w.durable] == w.history;
        assert w.cache == map[] by { assert forall b :: b !in w.cache.Keys; }
      }
    }
  }

  lemma CommitLogKeepsPhase(w: World)
    requires Static(w) && PhaseInv(w) && w.phase.CommitLog? && w.phase.tail < |w.lh|
    ensures Enabled(w, Progress)
    ensures Static(DoProgress(w)) && PhaseInv(DoProgress(w))
  {
    hide Apply;
    assert w.geo.Home(w.lh[w.phase.tail]);
    LogAreaReads(w, w.geo.start + 1 + w.phase.tail, View(w, w.lh[w.phase.tail]));
  }

  /** A write into the log area changes no home block, on disk or as read. */
  lemma LogAreaReads(w: World, k: nat, data: Block)
    requires Static(w) && w.geo.start <= k < w.geo.start + w.geo.size
    ensures k < |w.disk| && ReadsNewest(w) ==> ReadsNewest(w.(disk := w.disk[k := data]))
    ensures forall m: Disk | HomeEq(w.geo, w.disk, m) :: HomeEq(w.geo, w.disk[k := data], m)
  {
    hide Apply;
    var w' := w.(disk := w.disk[k := data]);
    assert ReadsNewest(w) ==> forall b | 0 <= b < |w.disk| && w.geo.Home(b) :: View(w', b) == View(w, b);
  }

  /** The single block write that commits. */
  lemma CommitHeadKeepsPhase(w: World)
    requires Static(w) && PhaseInv(w) && w.phase == CommitLog(|w.lh|)
    ensures Enabled(w, Progress)
    ensures Static(DoProgress(w)) && PhaseInv(DoProgress(w))
  {
    hide Apply, WriteHead, ReadHead, HeadOk;
    HeadRoundTrip(w.disk[w.geo.start], w.lh);
    LogAreaReads(w, w.geo.start, WriteHead(w.disk[w.geo.start], w.lh));
  }

  lemma CopyKeepsHome(w: World, tail: nat, m: Disk)
    requires w.geo.Valid() && |w.disk| == |m| == w.geo.ndisk && GoodList(w.geo, w.lh) && tail < |w.lh|
    requires LogHolds(w.geo, w.disk, w.lh, |w.lh|, m) && HomeHolds(w.geo, w.disk, w.lh, tail, m)
    ensures 0 <= w.lh[tail] < |w.disk|
    ensures var d := CopyHome(w, tail).disk;
            && |d| == |w.disk| && d[w.geo.start] == w.disk[w.geo.start]
            && LogHolds(w.geo, d, w.lh, |w.lh|, m) && HomeHolds(w.geo, d, w.lh, tail + 1, m)
  {
    assert w.geo.Home(w.lh[tail]);
    var d := CopyHome(w, tail).disk;
    forall i | 0 <= i < tail + 1
      ensures d[w.lh[i]] == m[w.lh[i]]
    {
      assert w.geo.Home(w.lh[i]);
    }
  }

  lemma ClearKeepsHome(w: World, m: Disk)
    requires w.geo.Valid() && |w.disk| == |m| == w.geo.ndisk && GoodList(w.geo, w.lh)
    requires HomeHolds(w.geo, w.disk, w.lh, |w.lh|, m) && |w.disk[w.geo.start]| == BWORDS
    ensures var d := Clear(w).disk;
            |d| == |w.disk| && |d[w.geo.start]| == BWORDS && d[w.geo.start][0] == 0 && HomeEq(w.geo, d, m)
  {
  }

  lemma UnpinOne(w: World, tail: nat)
    requires Distinct(w.lh) && tail < |w.lh|
    requires w.cache.Keys == Listed(w.lh[tail..])
    ensures (w.cache - {w.lh[tail]}).Keys == Listed(w.lh[tail + 1..])
  {
  }

  /** The log holds the newest contents, so a block reads the same once it is copied home. */
  lemma CopyReads(w: World, tail: nat)
    requires Static(w) && GoodList(w.geo, w.lh) && tail < |w.lh| && ReadsNewest(w)
    requires w.disk[w.geo.start + 1 + tail] == Image(w)[w.lh[tail]]
    ensures 0 <= w.lh[tail] < |w.disk| && ReadsNewest(CopyHome(w, tail))
  {
    hide Apply;
    assert w.geo.Home(w.lh[tail]);
    forall b | 0 <= b < |w.disk| && w.geo.Home(b)
      ensures View(CopyHome(w, tail), b) == Image(w)[b]
    {
      assert View(w, b) == Image(w)[b];
    }
  }

  lemma InstallCopyKeepsPhase(w: World)
    requires Static(w) && PhaseInv(w) && w.phase.Install? && w.phase.tail < |w.lh|
    ensures Enabled(w, Progress)
    ensures Static(DoProgress(w)) && PhaseInv(DoProgress(w))
  {
    hide Apply, ReadsNewest, HomeHolds, LogHolds, Listed, GoodList, Distinct;
    var tail := w.phase.tail;
    LogHoldsAt(w, tail);
    CopyReads(w, tail);
    CopyKeepsHome(w, tail, Image(w));
    UnpinOne(w, tail);
    SamePhaseReads(CopyHome(w, tail), Install(tail + 1));
    assert DoProgress(w) == CopyHome(w, tail).(phase := Install(tail + 1));
  }

  lemma LogHoldsAt(w: World, tail: nat)
    requires Static(w) && GoodList(w.geo, w.lh) && tail < |w.lh| && LogHolds(w.geo, w.disk, w.lh, |w.lh|, Image(w))
    ensures |w.lh| < w.geo.size && Distinct(w.lh) && 0 <= w.lh[tail] < |w.disk| && |Image(w)| == |w.disk|
    ensures w.disk[w.geo.start + 1 + tail] == Image(w)[w.lh[tail]]
  {
    assert w.geo.Home(w.lh[tail]);
  }

  lemma SamePhaseReads(w: World, phase: Phase)
    requires Static(w) && ReadsNewest(w)
    ensures ReadsNewest(w.(phase := phase))
  {
    hide Apply;
    forall b | 0 <= b < |w.disk| && w.geo.Home(b)
      ensures View(w.(phase := phase), b) == Image(w)[b]
    {
      assert View(w, b) == Image(w)[b];
    }
  }

  lemma InstallKeepsPhase(w: World)
    requires Static(w) && PhaseInv(w) && w.phase.Install?
    ensures Enabled(w, Progress)
    ensures Static(DoProgress(w)) && PhaseInv(DoProgress(w))
  {
    hide Apply;
    if w.phase.tail < |w.lh| {
      InstallCopyKeepsPhase(w);
    } else {
      ClearKeepsHome(w, Image(w));
      assert w.cache == map[] by { assert forall b :: b !in w.cache.Keys; }
    }
  }

  lemma ReplayKeepsPhase(w: World)
    requires Static(w) && PhaseInv(w) && w.phase.Replay?
    ensures Enabled(w, Progress)
    ensures Static(DoProgress(w)) && PhaseInv(DoProgress(w))
  {
    assert w.history[..w.durable] == w.history;
    if w.phase.tail < |w.lh| {
      CopyKeepsHome(w, w.phase.tail, Image(w));
      assert w.cache - {w.lh[w.phase.tail]} == map[];
    } else {
      ClearKeepsHome(w, Image(w));
    }
  }

  lemma ProgressKeepsPhase(w: World)
    requires Static(w) && PhaseInv(w) && Enabled(w, Progress)
    ensures Static(DoProgress(w)) && PhaseInv(DoProgress(w))
  {
    match w.phase
    case CommitLog(tail) => if tail < |w.lh| { CommitLogKeepsPhase(w); } else { CommitHeadKeepsPhase(w); }
    case Install(_) => InstallKeepsPhase(w);
    case Replay(_) => ReplayKeepsPhase(w);
    case Finishing => assert w.history[..w.durable] == w.history;
    case Boot => assert w.history[..w.durable] == w.history;
  }

  lemma CrashKeepsPhase(w: World)
    requires Static(w) && PhaseInv(w)
    ensures Static(DoCrash(w)) && PhaseInv(DoCrash(w))
  {
    InvRecoverable(w);
    assert w.history[..w.durable][..w.durable] == w.history[..w.durable];
  }

  lemma StepKeepsInv(w: World, e: Event)
    requires Inv(w) && Enabled(w, e)
    ensures Inv(Next(w, e))
  {
    StepKeepsWhole(w, e);
    match e
    case BeginOp => BeginKeepsPhase(w);
    case LogWrite(op, bno, data) => LogWriteKeepsPhase(w, op, bno, data);
    case EndOp(op) => EndKeepsPhase(w, op);
    case Progress => ProgressKeepsPhase(w);
    case Crash => CrashKeepsPhase(w);
  }

  // ---------------------------------------------------------------- whole runs

  /** Boot from any disk that recovers to `base`; a fresh image has an empty log header. */
  ghost predicate Initial(w: World) {
    && w.geo.Valid() && |w.disk| == |w.base| == w.geo.ndisk
    && Recoverable(w.geo, w.disk, w.base)
    && w.phase == Boot && w.cache == map[] && w.lh == [] && w.outstanding == 0 && !w.committing
    && w.history == [] && w.durable == 0 && w.commits == {0} && w.active == map[]
  }

  ghost predicate Legal(w: World, es: seq<Event>)
    decreases |es|
  {
    es == [] || (Enabled(w, es[0]) && Legal(Next(w, es[0]), es[1..]))
  }

  ghost function Exec(w: World, es: seq<Event>): World
    requires Legal(w, es)
    decreases |es|
  {
    if es == [] then w else Exec(Next(w, es[0]), es[1..])
  }

  lemma {:induction false} RunKeepsInv(w: World, es: seq<Event>)
    requires Inv(w) && Legal(w, es)
    ensures Inv(Exec(w, es))
    decreases |es|
  {
    if es != [] {
      StepKeepsInv(w, es[0]);
      RunKeepsInv(Next(w, es[0]), es[1..]);
    }
  }

  lemma {:induction false} ExecSnoc(w: World, es: seq<Event>, e: Event)
    requires Legal(w, es) && Enabled(Exec(w, es), e)
    ensures Legal(w, es + [e]) && Exec(w, es + [e]) == Next(Exec(w, es), e)
    decreases |es|
  {
    if es == [] {
      assert ([] + [e])[1..] == [];
    } else {
      ExecSnoc(Next(w, es[0]), es[1..], e);
      assert (es + [e])[1..] == es[1..] + [e];
    }
  }

  ghost predicate RunTo(w0: World, es: seq<Event>, w: World) {
    Initial(w0) && Legal(w0, es) && Exec(w0, es) == w
  }

  ghost predicate Reachable(w: World) {
    exists w0, es :: RunTo(w0, es, w)
  }

  lemma ReachableInv(w: World)
    requires Reachable(w)
    ensures Inv(w)
  {
    var w0, es :| RunTo(w0, es, w);
    RunKeepsInv(w0, es);
  }

  lemma ReachableStep(w: World, e: Event)
    requires Reachable(w) && Enabled(w, e)
    ensures Reachable(Next(w, e))
  {
    var w0, es :| RunTo(w0, es, w);
    ExecSnoc(w0, es, e);
    assert RunTo(w0, es + [e], Next(w, e));
  }

  /** Crash safety over every interleaving, with crashes anywhere, including during recovery:
      recovering the disk of any reachable state gives the updates up to a commit point, and no
      operation has updates on both sides of that or of any earlier commit point. */
  lemma CrashSafe(w: World)
    requires Reachable(w)
    ensures w.geo.Valid() && |w.disk| == w.geo.ndisk
    ensures w.durable in w.commits && w.durable <= |w.history|
    ensures HomeEq(w.geo, Recovered(w.geo, w.disk), Apply(w.base, w.history[..w.durable]))
    ensures forall c, i, j | c in w.commits && 0 <= i < c <= j < |w.history| ::
              w.history[i].op != w.history[j].op
  {
    ReachableInv(w);
    InvRecoverable(w);
    RecoverableRecovers(w.geo, w.disk, DurableImage(w));
  }

  /** A crash can come in every state; it takes the memory and leaves the disk. */
  lemma CrashAnywhere(w: World)
    requires Reachable(w)
    ensures Enabled(w, Crash) && Next(w, Crash).disk == w.disk && Next(w, Crash).phase == Boot && Reachable(Next(w, Crash))
  {
    ReachableInv(w);
    ReachableStep(w, Crash);
  }

  /** While the kernel runs, before, during and after a commit, a read through the cache returns the
      newest contents of its block. */
  lemma ReadsAreNewest(w: World, b: nat)
    requires Reachable(w) && Up(w) && b < |w.disk| && w.geo.Home(b)
    ensures b < |Image(w)| && View(w, b) == Image(w)[b]
  {
    ReachableInv(w);
  }

  /** outstanding counts the operations in progress. */
  lemma CountsOps(w: World)
    requires Reachable(w) && Up(w)
    ensures w.outstanding == |w.active|
  {
    ReachableInv(w);
  }

  /** committing excludes operations in progress, so end_op's panic cannot happen; the only
      panic left is log_write's "too big a transaction". */
  lemma CommittingExcludesOps(w: World, e: Event)
    requires Reachable(w) && Enabled(w, e)
    ensures Up(w) && w.committing ==> w.outstanding == 0 && w.active == map[]
    ensures Up(w) ==> w.outstanding == |w.active|
    ensures Next(w, e).phase.Panicked? && !w.phase.Panicked? ==> e.LogWrite? && TooBig(w)
  {
    ReachableInv(w);
    if e.EndOp? {
      EndKeepsPhase(w, e.op);
    }
  }

  // ---------------------------------------------------------------- a commit is all or nothing

  ghost predicate DiskOrCrash(es: seq<Event>) {
    forall i | 0 <= i < |es| :: es[i].Progress? || es[i].Crash?
  }

  /** The durable prefix moves only at the header write that ends write_log. */
  lemma OnlyHeadCommits(w: World, e: Event)
    requires Inv(w) && Enabled(w, e) && Next(w, e).durable != w.durable
    ensures e == Progress && w.phase == CommitLog(|w.lh|) && w.active == map[]
    ensures Next(w, e).durable == |w.history|
  {
  }

  /** Where a run of disk steps and crashes can be, once a commit from `pre` to `post` began. */
  ghost predicate PreOrPost(w: World, pre: Disk, post: Disk) {
    && Static(w) && PhaseInv(w)
    && (DurableImage(w) == pre || DurableImage(w) == post)
    && !w.phase.Panicked?
    && if w.phase.CommitLog? then Image(w) == post else w.durable == |w.history|
  }

  lemma PreOrPostStep(w: World, e: Event, pre: Disk, post: Disk)
    requires PreOrPost(w, pre, post) && Enabled(w, e) && (e.Progress? || e.Crash?)
    ensures PreOrPost(Next(w, e), pre, post)
  {
    hide Apply, Recoverable;
    assert w.history[..|w.history|] == w.history;
    if e.Progress? {
      ProgressKeepsPhase(w);
    } else {
      CrashKeepsPhase(w);
      assert w.history[..w.durable][..w.durable] == w.history[..w.durable];
    }
  }

  /** From the start of a commit, through any number of crashes there and in recovery: recovery
      would always bring entirely the state before the transaction or entirely the state after
      it, and whenever the system is running again the home blocks themselves hold one of the two. */
  lemma {:induction false} CommitIsAtomic(w: World, es: seq<Event>, pre: Disk, post: Disk)
    requires PreOrPost(w, pre, post)
    requires DiskOrCrash(es) && Legal(w, es)
    ensures var w' := Exec(w, es);
            && w'.geo.Valid() && |w'.disk| == w'.geo.ndisk
            && (HomeEq(w'.geo, Recovered(w'.geo, w'.disk), pre) || HomeEq(w'.geo, Recovered(w'.geo, w'.disk), post))
            && (w'.phase.Running? ==> HomeEq(w'.geo, w'.disk, pre) || HomeEq(w'.geo, w'.disk, post))
    decreases |es|
  {
    if es == [] {
      InvRecoverable(w);
      RecoverableRecovers(w.geo, w.disk, DurableImage(w));
    } else {
      PreOrPostStep(w, es[0], pre, post);
      CommitIsAtomic(Next(w, es[0]), es[1..], pre, post);
    }
  }

  /** Every transaction: from the moment the last end_op starts write_log, any block writes of commit
      and any crashes leave a disk that recovers to the state before it or to the state after it. */
  lemma TransactionIsAtomic(w: World, es: seq<Event>)
    requires Reachable(w) && w.phase == CommitLog(0) && DiskOrCrash(es) && Legal(w, es)
    ensures w.durable <= |w.history|
    ensures var pre, post, w' := DurableImage(w), Image(w), Exec(w, es);
            && w'.geo.Valid() && |w'.disk| == w'.geo.ndisk
            && (HomeEq(w'.geo, Recovered(w'.geo, w'.disk), pre) || HomeEq(w'.geo, Recovered(w'.geo, w'.disk), post))
            && (w'.phase.Running? ==> HomeEq(w'.geo, w'.disk, pre) || HomeEq(w'.geo, w'.disk, post))
  {
    ReachableInv(w);
    CommitIsAtomic(w, es, DurableImage(w), Image(w));
  }
}
