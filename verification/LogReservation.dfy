/** Log space. begin_op's admission test keeps the header within LOGSIZE distinct entries when
    each operation adds at most MAXOPBLOCKS of them. Whether log_write can still panic is a
    finer question: its test runs before absorption is tried and compares with log.size - 1. */
module LogReservation {
  import opened Sums
  import opened RedoLog
  import opened CrashSafety

  /** How a client may use its reservation: an operation that has added MAXOPBLOCKS entries adds
      no more. A `strict` client then makes no log_write call at all, not even for a block
      already in the log. */
  ghost predicate Budgeted(w: World, e: Event, strict: bool) {
    e.LogWrite? && e.op in w.active && (strict || e.bno !in w.lh) ==> w.active[e.op] > 0
  }

  ghost predicate BudgetedRun(w: World, es: seq<Event>, strict: bool)
    requires Legal(w, es)
    decreases |es|
  {
    es == [] || (Budgeted(w, es[0], strict) && BudgetedRun(Next(w, es[0]), es[1..], strict))
  }

  // ---------------------------------------------------------------- the reservation invariant

  /** The entries made and the space still reserved fit in the log together. */
  ghost predicate Reserved(w: World) {
    && (forall op <- w.active :: w.active[op] <= MAXOPBLOCKS)
    && |w.lh| + Sum(w.active) <= LOGSIZE
  }

  lemma BeginKeepsReserved(w: World)
    requires Reserved(w) && MayBegin(w) && w.outstanding == |w.active| && w.nextOp !in w.active
    ensures Reserved(DoBegin(w))
  {
    SumBound(w.active, MAXOPBLOCKS);
    SumUpdate(w.active, w.nextOp, MAXOPBLOCKS);
    assert w.active - {w.nextOp} == w.active;
  }

  lemma LogWriteKeepsReserved(w: World, op: nat, bno: int, data: Block)
    requires Reserved(w) && op in w.active && (bno !in w.lh ==> w.active[op] > 0)
    ensures Reserved(DoLogWrite(w, op, bno, data))
  {
    SumRemove(w.active, op);
    SumUpdate(w.active, op, w.active[op]);
    if w.active[op] > 0 {
      SumUpdate(w.active, op, w.active[op] - 1);
    }
  }

  lemma StepKeepsReserved(w: World, e: Event, strict: bool)
    requires Inv(w) && Reserved(w) && Enabled(w, e) && Budgeted(w, e, strict)
    ensures Reserved(Next(w, e))
  {
    hide Inv, Sum, Reserved;
    match e
    case BeginOp => OpsCounted(w); BeginKeepsReserved(w);
    case LogWrite(op, bno, data) => LogWriteKeepsReserved(w, op, bno, data);
    case EndOp(op) => EndKeepsReserved(w, op);
    case Progress => ProgressKeepsReserved(w);
    case Crash => EmptyReserved(Next(w, e));
  }

  lemma OpsCounted(w: World)
    requires Inv(w)
    ensures w.nextOp !in w.active && (Up(w) ==> w.outstanding == |w.active|)
  {
  }

  lemma EndKeepsReserved(w: World, op: nat)
    requires Reserved(w) && op in w.active
    ensures Reserved(DoEnd(w, op))
  {
    SumRemove(w.active, op);
  }

  lemma EmptyReserved(w: World)
    requires |w.lh| <= LOGSIZE && w.active == map[]
    ensures Reserved(w)
  {
  }

  lemma ProgressKeepsReserved(w: World)
    requires Inv(w) && Reserved(w) && CanProgress(w)
    ensures Reserved(DoProgress(w))
  {
    EmptyReserved(w.(lh := [], active := map[]));
  }

  lemma {:induction false} RunKeepsReserved(w: World, es: seq<Event>, strict: bool)
    requires Inv(w) && Reserved(w) && Legal(w, es) && BudgetedRun(w, es, strict)
    ensures Inv(Exec(w, es)) && Reserved(Exec(w, es))
    decreases |es|
  {
    if es != [] {
      StepKeepsInv(w, es[0]);
      StepKeepsReserved(w, es[0], strict);
      RunKeepsReserved(Next(w, es[0]), es[1..], strict);
    }
  }

  /** In every state of every budgeted run of a running kernel the header lists distinct home
      blocks, at most LOGSIZE with what is still reserved, and few enough that write_log stays
      inside the log area. */
  lemma LogSpaceSuffices(w: World, es: seq<Event>)
    requires Initial(w) && Legal(w, es) && BudgetedRun(w, es, false)
    ensures var w' := Exec(w, es);
            && |w'.lh| + Sum(w'.active) <= LOGSIZE
            && (Up(w') ==> Distinct(w'.lh) && |w'.lh| <= w'.geo.size - 1)
            && (Up(w') ==> forall i | 0 <= i < |w'.lh| :: w'.geo.Home(w'.lh[i]))
  {
    RunKeepsReserved(w, es, false);
  }

  // ---------------------------------------------------------------- when can log_write panic?

  ghost predicate Reaches(w: World, w': World, strict: bool) {
    exists es :: Legal(w, es) && BudgetedRun(w, es, strict) && Exec(w, es) == w'
  }

  ghost predicate CanPanic(w: World, strict: bool) {
    exists w' :: Reaches(w, w', strict) && w'.phase.Panicked?
  }

  lemma {:induction false} RunSnoc(w: World, es: seq<Event>, e: Event, strict: bool)
    requires Legal(w, es) && BudgetedRun(w, es, strict)
    requires Enabled(Exec(w, es), e) && Budgeted(Exec(w, es), e, strict)
    ensures Legal(w, es + [e]) && BudgetedRun(w, es + [e], strict)
    ensures Exec(w, es + [e]) == Next(Exec(w, es), e)
    decreases |es|
  {
    if es == [] {
      assert ([] + [e])[1..] == [];
    } else {
      RunSnoc(Next(w, es[0]), es[1..], e, strict);
      assert (es + [e])[1..] == es[1..] + [e];
    }
  }

  lemma ReachesStep(w: World, w': World, e: Event, strict: bool)
    requires Reaches(w, w', strict) && Enabled(w', e) && Budgeted(w', e, strict)
    ensures Reaches(w, Next(w', e), strict)
  {
    var es :| Legal(w, es) && BudgetedRun(w, es, strict) && Exec(w, es) == w';
    RunSnoc(w, es, e, strict);
  }

  lemma ReachesSelf(w: World, strict: bool)
    ensures Reaches(w, w, strict)
  {
    assert Legal(w, []) && BudgetedRun(w, [], strict) && Exec(w, []) == w;
  }

  /** Recovery ends: from the reading of the header, |lh| + 2 disk steps later the kernel runs. */
  lemma {:induction false} RecoveryEnds(w0: World, w: World, strict: bool) returns (r: World)
    requires Inv(w) && (w.phase.Boot? || w.phase.Replay?) && Reaches(w0, w, strict)
    ensures Reaches(w0, r, strict) && Inv(r) && r.geo == w.geo
    ensures r.phase.Running? && r.lh == [] && r.active == map[] && r.outstanding == 0
    decreases if w.phase.Boot? then LOGSIZE + 1 else |w.lh| - w.phase.tail
  {
    var w' := Next(w, Progress);
    ProgressKeepsPhase(w);
    StepKeepsInv(w, Progress);
    ReachesStep(w0, w, Progress, strict);
    if w'.phase.Running? {
      r := w';
    } else {
      r := RecoveryEnds(w0, w', strict);
    }
  }

  /** A commit ends: the disk steps that are left lead to a running kernel with an empty log, in which
      begin_op admits callers again. */
  lemma {:induction false} CommitEnds(w0: World, w: World, strict: bool) returns (r: World)
    requires Inv(w) && (w.phase.CommitLog? || w.phase.Install? || w.phase.Finishing?) && Reaches(w0, w, strict)
    ensures Reaches(w0, r, strict) && Inv(r) && r.geo == w.geo && r.history == w.history && r.durable == |r.history|
    ensures r.phase.Running? && r.lh == [] && r.active == map[] && MayBegin(r)
    decreases if w.phase.CommitLog? then 2 * LOGSIZE + 3 - w.phase.tail else if w.phase.Install? then LOGSIZE + 1 - w.phase.tail else 0
  {
    hide Reaches;
    var w' := Next(w, Progress);
    ProgressKeepsPhase(w);
    StepKeepsInv(w, Progress);
    ReachesStep(w0, w, Progress, strict);
    if w'.phase.Running? {
      r := w';
    } else {
      r := CommitEnds(w0, w', strict);
    }
  }

  /** The i-th home block. */
  function HomeAt(g: Geo, i: nat): int {
    if i < g.start then i else i + g.size
  }

  function Homes(g: Geo, n: nat): (s: seq<int>) { seq(n, i requires 0 <= i => HomeAt(g, i)) }

  const ZERO: Block := seq(BWORDS, _ => 0)

  /** What operation `j` of three has left after `i` entries made by filling them in turn. */
  function Left(i: nat, j: nat): (r: nat) {
    if i <= MAXOPBLOCKS * j then MAXOPBLOCKS
    else if i >= MAXOPBLOCKS * (j + 1) then 0
    else MAXOPBLOCKS * (j + 1) - i
  }

  /** Three operations are under way and have logged the first `i` home blocks. */
  ghost predicate Filled(w: World, k: nat, i: nat) {
    && w.phase.Running? && w.outstanding == 3
    && w.lh == Homes(w.geo, i)
    && w.active.Keys == {k, k + 1, k + 2}
    && w.active[k] == Left(i, 0) && w.active[k + 1] == Left(i, 1) && w.active[k + 2] == Left(i, 2)
  }

  lemma FillOne(w: World, k: nat, i: nat)
    requires Filled(w, k, i) && w.geo.Valid() && i < LOGSIZE && i < w.geo.size - 1
    requires w.geo.ndisk >= w.geo.size + LOGSIZE
    ensures var e := LogWrite(k + i / MAXOPBLOCKS, HomeAt(w.geo, i), ZERO);
            Enabled(w, e) && Budgeted(w, e, true) && Filled(Next(w, e), k, i + 1) && Next(w, e).geo == w.geo
  {
    var e := LogWrite(k + i / MAXOPBLOCKS, HomeAt(w.geo, i), ZERO);
    assert i / MAXOPBLOCKS == 0 || i / MAXOPBLOCKS == 1 || i / MAXOPBLOCKS == 2;
    assert HomeAt(w.geo, i) !in w.lh;
    assert Homes(w.geo, i) + [HomeAt(w.geo, i)] == Homes(w.geo, i + 1);
  }

  lemma {:induction false} Fill(w0: World, w: World, k: nat, i: nat, n: nat) returns (r: World)
    requires Reaches(w0, w, true) && Filled(w, k, i) && w.geo.Valid()
    requires i <= n <= LOGSIZE && n <= w.geo.size - 1 && w.geo.ndisk >= w.geo.size + LOGSIZE
    ensures Reaches(w0, r, true) && Filled(r, k, n) && r.geo == w.geo
    decreases n - i
  {
    r := w;
    if i < n {
      var e := LogWrite(k + i / MAXOPBLOCKS, HomeAt(w.geo, i), ZERO);
      FillOne(w, k, i);
      ReachesStep(w0, w, e, true);
      r := Fill(w0, Next(w, e), k, i + 1, n);
    }
  }

  /** `m` operations with numbers from `k` on have begun and logged nothing. */
  ghost predicate Begun(w: World, k: nat, m: nat) {
    && w.phase.Running? && !w.committing && w.lh == [] && w.outstanding == m && w.nextOp == k + m
    && (forall op :: op in w.active <==> k <= op < k + m)
    && (forall op <- w.active :: w.active[op] == MAXOPBLOCKS)
  }

  lemma BeginMore(w0: World, w: World, k: nat, m: nat)
    requires Reaches(w0, w, true) && Begun(w, k, m) && m < 3
    ensures Reaches(w0, DoBegin(w), true) && Begun(DoBegin(w), k, m + 1)
  {
    hide Reaches;
    ReachesStep(w0, w, BeginOp, true);
  }

  /** Recovery and three begin_ops. */
  lemma StartThree(w0: World) returns (r: World, k: nat)
    requires Initial(w0)
    ensures Reaches(w0, r, true) && Filled(r, k, 0) && r.geo == w0.geo
  {
    ReachesSelf(w0, true);
    hide Reaches, Begun, Initial, Inv;
    r := Recovers(w0);
    k := r.nextOp;
    BeginMore(w0, r, k, 0);
    r := DoBegin(r);
    BeginMore(w0, r, k, 1);
    r := DoBegin(r);
    BeginMore(w0, r, k, 2);
    r := DoBegin(r);
    ThreeBegun(r, k);
  }

  lemma Recovers(w0: World) returns (r: World)
    requires Initial(w0) && Reaches(w0, w0, true)
    ensures Reaches(w0, r, true) && Begun(r, r.nextOp, 0) && r.geo == w0.geo
  {
    hide Reaches;
    r := RecoveryEnds(w0, w0, true);
  }

  lemma ThreeBegun(w: World, k: nat)
    requires Begun(w, k, 3)
    ensures Filled(w, k, 0)
  {
    assert w.lh == Homes(w.geo, 0);
    assert w.active.Keys == {k, k + 1, k + 2};
  }

  lemma FullPanics(w: World, k: nat, i: nat) returns (e: Event)
    requires Filled(w, k, i) && w.geo.Valid() && i == w.geo.size - 1 < LOGSIZE
    requires w.geo.ndisk >= w.geo.size + LOGSIZE
    ensures Enabled(w, e) && Budgeted(w, e, true) && Next(w, e).phase.Panicked?
  {
    e := LogWrite(k + i / MAXOPBLOCKS, HomeAt(w.geo, i), ZERO);
    assert i / MAXOPBLOCKS == 0 || i / MAXOPBLOCKS == 1 || i / MAXOPBLOCKS == 2;
  }

  lemma SmallLogPanics(w: World)
    requires Initial(w) && w.geo.ndisk >= w.geo.size + LOGSIZE && w.geo.size <= LOGSIZE
    ensures CanPanic(w, true)
  {
    assert w.geo.Valid();
    hide Reaches, Filled, Budgeted, Enabled, Next, Initial;
    var r, k := StartThree(w);
    r := Fill(w, r, k, 0, w.geo.size - 1);
    var e := FullPanics(r, k, w.geo.size - 1);
    ReachesStep(w, r, e, true);
  }

  lemma StrictStepNoPanic(w: World, e: Event)
    requires Inv(w) && Reserved(w) && w.geo.size > LOGSIZE && !w.phase.Panicked?
    requires Enabled(w, e) && Budgeted(w, e, true)
    ensures !Next(w, e).phase.Panicked? && Next(w, e).geo == w.geo
  {
    if e.LogWrite? {
      SumRemove(w.active, e.op);
      assert |w.active| > 0;
    }
  }

  lemma {:induction false} StrictRunNoPanic(w: World, es: seq<Event>)
    requires Inv(w) && Reserved(w) && w.geo.size > LOGSIZE && !w.phase.Panicked?
    requires Legal(w, es) && BudgetedRun(w, es, true)
    ensures !Exec(w, es).phase.Panicked?
    decreases |es|
  {
    if es != [] {
      StepKeepsInv(w, es[0]);
      StepKeepsReserved(w, es[0], true);
      StrictStepNoPanic(w, es[0]);
      StrictRunNoPanic(Next(w, es[0]), es[1..]);
    }
  }

  /** Operations that stop calling log_write after MAXOPBLOCKS new entries can make it panic
      exactly when the log area has at most LOGSIZE blocks, the size mkfs gives it. */
  lemma PanicIffSmallLog(w: World)
    requires Initial(w) && w.geo.ndisk >= w.geo.size + LOGSIZE
    ensures CanPanic(w, true) <==> w.geo.size <= LOGSIZE
  {
    if w.geo.size <= LOGSIZE {
      SmallLogPanics(w);
    } else {
      NoPanicFrom(w);
    }
  }

  lemma {:induction false} StrictIsBudgeted(w: World, es: seq<Event>)
    requires Legal(w, es) && BudgetedRun(w, es, true)
    ensures BudgetedRun(w, es, false)
    decreases |es|
  {
    if es != [] {
      StrictIsBudgeted(Next(w, es[0]), es[1..]);
    }
  }

  /** Counting new entries alone is not enough for any log size: with the log full of reserved
      entries, rewriting a block that is already in it panics, because absorption is tried only
      after the size test. */
  lemma AbsorptionPanics(w: World)
    requires Initial(w) && w.geo.ndisk >= w.geo.size + LOGSIZE
    ensures CanPanic(w, false)
  {
    if w.geo.size <= LOGSIZE {
      SmallLogPanics(w);
      var w' :| Reaches(w, w', true) && w'.phase.Panicked?;
      var es :| Legal(w, es) && BudgetedRun(w, es, true) && Exec(w, es) == w';
      StrictIsBudgeted(w, es);
    } else {
      var r, k := StartThree(w);
      r := Fill(w, r, k, 0, LOGSIZE);
      var es :| Legal(w, es) && BudgetedRun(w, es, true) && Exec(w, es) == r;
      StrictIsBudgeted(w, es);
      assert r.lh[0] == HomeAt(r.geo, 0);
      ReachesStep(w, r, LogWrite(k, HomeAt(r.geo, 0), ZERO), false);
    }
  }

  // ---------------------------------------------------------------- how much commit may have to write

  /** commit() can begin with the log header full: LOGSIZE entries. */
  ghost predicate CanCommitFull(w: World, strict: bool) {
    exists w' :: Reaches(w, w', strict) && w'.phase == CommitLog(0) && |w'.lh| == LOGSIZE
  }

  lemma EndOne(w0: World, w: World, op: nat, strict: bool)
    requires Reaches(w0, w, strict) && w.phase.Running? && !w.committing && op in w.active
    ensures Reaches(w0, DoEnd(w, op), strict)
  {
    hide Reaches;
    ReachesStep(w0, w, EndOp(op), strict);
  }

  lemma ReachesInv(w: World, w': World, strict: bool)
    requires Initial(w) && Reaches(w, w', strict)
    ensures Inv(w') && w'.geo == w.geo
  {
    var es :| Legal(w, es) && BudgetedRun(w, es, strict) && Exec(w, es) == w';
    RunKeepsInv(w, es);
    ExecGeo(w, es);
  }

  lemma {:induction false} ExecGeo(w: World, es: seq<Event>)
    requires Legal(w, es)
    ensures Exec(w, es).geo == w.geo
    decreases |es|
  {
    if es != [] {
      ExecGeo(Next(w, es[0]), es[1..]);
    }
  }

  lemma EndThree(w0: World, w: World, k: nat)
    requires Reaches(w0, w, true) && Filled(w, k, LOGSIZE) && !w.committing
    ensures CanCommitFull(w0, true)
  {
    hide Reaches;
    EndOne(w0, w, k, true);
    var w1 := DoEnd(w, k);
    EndOne(w0, w1, k + 1, true);
    var w2 := DoEnd(w1, k + 1);
    EndOne(w0, w2, k + 2, true);
    assert DoEnd(w2, k + 2).phase == CommitLog(0);
  }

  /** The sizes that keep log_write from panicking are those that let commit() begin full. */
  lemma FullIffBigLog(w: World)
    requires Initial(w) && w.geo.ndisk >= w.geo.size + LOGSIZE
    ensures CanCommitFull(w, true) <==> w.geo.size > LOGSIZE
  {
    assert w.geo.Valid();
    if w.geo.size > LOGSIZE {
      var r, k := StartThree(w);
      r := Fill(w, r, k, 0, LOGSIZE);
      ReachesInv(w, r, true);
      EndThree(w, r, k);
    } else {
      forall w' | Reaches(w, w', true) && w'.phase == CommitLog(0)
        ensures |w'.lh| < LOGSIZE
      {
        ReachesInv(w, w', true);
      }
    }
  }

  // ---------------------------------------------------------------- whom begin_op must admit

  ghost function FirstHomes(g: Geo, n: nat): set<int> {
    if n == 0 then {} else FirstHomes(g, n - 1) + {HomeAt(g, n - 1)}
  }

  lemma {:induction false} FirstHomesSize(g: Geo, n: nat)
    ensures |FirstHomes(g, n)| == n && forall b <- FirstHomes(g, n) :: b < HomeAt(g, n)
    decreases n
  {
    if n > 0 {
      FirstHomesSize(g, n - 1);
    }
  }

  lemma {:induction false} HomeOf(g: Geo, n: nat, b: int) returns (i: nat)
    requires b in FirstHomes(g, n)
    ensures i < n && b == HomeAt(g, i)
    decreases n
  {
    if b == HomeAt(g, n - 1) {
      i := n - 1;
    } else {
      i := HomeOf(g, n - 1, b);
    }
  }

  lemma {:induction false} ListedSize(lh: seq<int>)
    ensures |Listed(lh)| <= |lh|
    decreases |lh|
  {
    if lh != [] {
      var k := |lh| - 1;
      ListedSize(lh[..k]);
      assert Listed(lh) == Listed(lh[..k]) + {lh[k]};
    }
  }

  lemma SmallerSet(a: set<int>, b: set<int>)
    requires a <= b
    ensures |a| <= |b|
  {
    assert b == a + (b - a);
  }

  /** A disk with more home blocks than the list has entries has one that is not in it. */
  lemma FreshHome(g: Geo, lh: seq<int>) returns (b: int)
    requires g.Valid() && |lh| < g.ndisk - g.size
    ensures g.Home(b) && b !in lh
  {
    var s := FirstHomes(g, |lh| + 1);
    FirstHomesSize(g, |lh| + 1);
    ListedSize(lh);
    if forall x <- s :: x in Listed(lh) {
      SmallerSet(s, Listed(lh));
      assert false;
    }
    b :| b in s && b !in Listed(lh);
    var i := HomeOf(g, |lh| + 1, b);
  }

  lemma {:induction false} ReachesFirst(w: World, e: Event, w': World, strict: bool)
    requires Enabled(w, e) && Budgeted(w, e, strict) && Reaches(Next(w, e), w', strict)
    ensures Reaches(w, w', strict)
  {
    var es :| Legal(Next(w, e), es) && BudgetedRun(Next(w, e), es, strict) && Exec(Next(w, e), es) == w';
    var all := [e] + es;
    assert all[1..] == es;
    assert Legal(w, all) && BudgetedRun(w, all, strict) && Exec(w, all) == w';
  }

  /** Operations that may still add more entries than the header has room for can fill it and panic. */
  lemma {:induction false} Overfill(w: World)
    requires w.phase.Running? && w.outstanding >= 1 && w.geo.Valid() && w.geo.size > LOGSIZE
    requires |w.lh| <= LOGSIZE < |w.lh| + Sum(w.active) && w.geo.ndisk - w.geo.size > LOGSIZE
    ensures CanPanic(w, true)
    decreases LOGSIZE - |w.lh|
  {
    var op := SumSome(w.active);
    var b := FreshHome(w.geo, w.lh);
    var e := LogWrite(op, b, ZERO);
    var w' := Next(w, e);
    if |w.lh| == LOGSIZE {
      ReachesSelf(w', true);
      ReachesFirst(w, e, w', true);
    } else {
      SumRemove(w.active, op);
      SumUpdate(w.active, op, w.active[op] - 1);
      Overfill(w');
      var v :| Reaches(w', v, true) && v.phase.Panicked?;
      ReachesFirst(w, e, v, true);
    }
  }

  /** One more operation is safe if and only if the entries made, what the open operations may still
      add and what it may add fit in the header together. */
  lemma BeginSafeIff(w: World)
    requires Inv(w) && w.phase.Running? && w.geo.size > LOGSIZE && w.geo.ndisk - w.geo.size > LOGSIZE
    requires forall op <- w.active :: w.active[op] <= MAXOPBLOCKS
    ensures CanPanic(DoBegin(w), true) <==> |w.lh| + Sum(w.active) + MAXOPBLOCKS > LOGSIZE
  {
    hide Inv, Sum, CanPanic;
    RunningFacts(w);
    SumUpdate(w.active, w.nextOp, MAXOPBLOCKS);
    assert w.active - {w.nextOp} == w.active;
    if |w.lh| + Sum(w.active) + MAXOPBLOCKS > LOGSIZE {
      Overfill(DoBegin(w));
    } else {
      DoBeginInv(w);
      NoPanicFrom(DoBegin(w));
    }
  }

  lemma NoPanicFrom(w: World)
    requires Inv(w) && Reserved(w) && w.geo.size > LOGSIZE && !w.phase.Panicked?
    ensures !CanPanic(w, true)
  {
    hide Inv, Reserved;
    forall es | Legal(w, es) && BudgetedRun(w, es, true)
      ensures !Exec(w, es).phase.Panicked?
    {
      StrictRunNoPanic(w, es);
    }
  }

  lemma RunningFacts(w: World)
    requires Inv(w) && w.phase.Running?
    ensures w.geo.Valid() && |w.lh| <= LOGSIZE && w.outstanding == |w.active| && w.nextOp !in w.active && !w.committing
  {
  }

  lemma DoBeginInv(w: World)
    requires Inv(w) && w.phase.Running?
    ensures Inv(DoBegin(w))
  {
    assert |w.active[w.nextOp := MAXOPBLOCKS]| == |w.active| + 1;
  }

  /** begin_op refuses nobody it could admit: among operations that have not used any of their
      reservation, letting in one that it puts to sleep would make the log overflow possible. */
  lemma AdmissionIsExact(w: World)
    requires Inv(w) && w.phase.Running? && w.geo.size > LOGSIZE && w.geo.ndisk - w.geo.size > LOGSIZE
    requires forall op <- w.active :: w.active[op] == MAXOPBLOCKS
    ensures MayBegin(w) <==> !CanPanic(DoBegin(w), true)
  {
    hide Inv, CanPanic;
    RunningFacts(w);
    BeginSafeIff(w);
    SumAll(w.active, MAXOPBLOCKS);
  }
}
