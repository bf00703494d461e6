/** The readers-writer lock of rwlock.c, running on the semaphores of Semaphore step by step,
    with any number of threads that acquire and release in matching pairs. */
module RwLock {
  import opened Counting
  import S = Semaphore

  const LOCK: nat := 0     // rwlock->lock
  const WRITE: nat := 1    // rwlock->writelock

  /** Where a thread is in the lock's operations, once the semaphore call it is in, if any, has
      returned. */
  datatype Place =
    | Idle
    | RIn      // acquire_readlock: has lock, will count itself in
    | RTest    // counted; will take writelock if it is the only reader
    | RLast    // will release lock
    | RGot     // reading; will call release_readlock, which takes lock
    | QIn      // release_readlock: has lock, will count itself out
    | QTest    // will release writelock if it was the last reader
    | QLast    // will release lock
    | WIn      // writing; will call release_writelock

  datatype Thread = Thread(at: Place, pc: S.Pc)

  /** `group`: the readers as a group hold writelock. */
  datatype State = State(sems: seq<S.Sem>, th: map<nat, Thread>, readers: int, group: bool)

  datatype Event =
    | StartRead(t: nat)
    | StartWrite(t: nat)
    | Act(t: nat)                // the next action of rwlock.c, outside the semaphores
    | SemStep(t: nat, w: nat)    // the next step inside a semaphore call

  ghost function Pcs(th: map<nat, Thread>): map<nat, S.Pc> { map t | t in th :: th[t].pc }

  ghost function Sem(st: State): S.State { S.State(st.sems, Pcs(st.th)) }

  // ---------------------------------------------------------------- the steps

  ghost predicate Enabled(st: State, e: Event) {
    match e
    case StartRead(t) => t in st.th && st.th[t] == Thread(Idle, S.Out)
    case StartWrite(t) => t in st.th && st.th[t] == Thread(Idle, S.Out)
    case Act(t) => t in st.th && st.th[t].pc.Out? && !st.th[t].at.Idle?
    case SemStep(t, w) => t in st.th && S.Enabled(Sem(st), S.Step(t, w))
  }

  function AfterAct(x: Thread, readers: int): Thread {
    match x.at
    case RIn => Thread(RTest, S.Out)
    case RTest => Thread(RLast, if readers == 1 then S.At(WRITE, S.WaitLock) else S.Out)
    case RLast => Thread(RGot, S.At(LOCK, S.PostLock))
    case RGot => Thread(QIn, S.At(LOCK, S.WaitLock))
    case QIn => Thread(QTest, S.Out)
    case QTest => Thread(QLast, if readers == 0 then S.At(WRITE, S.PostLock) else S.Out)
    case QLast => Thread(Idle, S.At(LOCK, S.PostLock))
    case WIn => Thread(Idle, S.At(WRITE, S.PostLock))
    case Idle => x
  }

  function ReadersAfter(x: Thread, readers: int): int {
    match x.at
    case RIn => readers + 1
    case QIn => readers - 1
    case _ => readers
  }

  /** A permit is taken, or given back, by the step at this point. */
  predicate Takes(m: S.Sem, pt: S.Point) { (pt.WaitTest? || pt.Retest?) && m.value > 0 }
  predicate Gives(pt: S.Point) { pt.PostAdd? }

  function GroupAfter(x: Thread, m: S.Sem, group: bool): bool {
    if x.pc.At? && x.pc.s == WRITE && x.at.RLast? && Takes(m, x.pc.pt) then true
    else if x.pc.At? && x.pc.s == WRITE && x.at.QLast? && Gives(x.pc.pt) then false
    else group
  }

  ghost function Next(st: State, e: Event): State
    requires Enabled(st, e)
  {
    match e
    case StartRead(t) => st.(th := st.th[t := Thread(RIn, S.At(LOCK, S.WaitLock))])
    case StartWrite(t) => st.(th := st.th[t := Thread(WIn, S.At(WRITE, S.WaitLock))])
    case Act(t) =>
      st.(th := st.th[t := AfterAct(st.th[t], st.readers)], readers := ReadersAfter(st.th[t], st.readers))
    case SemStep(t, w) =>
      var sem := S.Next(Sem(st), S.Step(t, w));
      st.(sems := sem.sems,
          th := map u | u in st.th :: Thread(st.th[u].at, sem.pcs[u]),
          group := GroupAfter(st.th[t], st.sems[st.th[t].pc.s], st.group))
  }

  // ---------------------------------------------------------------- who holds what

  predicate WaitPoint(pt: S.Point) {
    match pt
    case WaitLock => true
    case WaitTest => true
    case CondLock => true
    case CondCount => true
    case CondUnlock => true
    case CondSleep => true
    case Asleep => true
    case Woken => true
    case Retest => true
    case Taken => true
    case _ => false
  }

  predicate Waiting(pc: S.Pc, s: nat) { pc.At? && pc.s == s && WaitPoint(pc.pt) }
  predicate Posting(pc: S.Pc, s: nat) { pc.At? && pc.s == s && !WaitPoint(pc.pt) }

  /** The wait has its permit; the unlock has not yet given it back. */
  predicate Got(pc: S.Pc) { pc.Out? || pc.pt.Taken? }
  predicate Keeps(pc: S.Pc) { pc.At? && (pc.pt.PostLock? || pc.pt.PostAdd?) }

  predicate Shaped(x: Thread) {
    match x.at
    case Idle => x.pc.Out? || Posting(x.pc, LOCK) || Posting(x.pc, WRITE)
    case RIn => x.pc.Out? || Waiting(x.pc, LOCK)
    case RTest => x.pc.Out?
    case RLast => x.pc.Out? || Waiting(x.pc, WRITE)
    case RGot => x.pc.Out? || Posting(x.pc, LOCK)
    case QIn => x.pc.Out? || Waiting(x.pc, LOCK)
    case QTest => x.pc.Out?
    case QLast => x.pc.Out? || Posting(x.pc, WRITE)
    case WIn => x.pc.Out? || Waiting(x.pc, WRITE)
  }

  predicate HasLock(x: Thread) {
    match x.at
    case RIn => Got(x.pc)
    case QIn => Got(x.pc)
    case RTest => true
    case RLast => true
    case QTest => true
    case QLast => true
    case RGot => Keeps(x.pc)
    case Idle => Keeps(x.pc) && x.pc.s == LOCK
    case WIn => false
  }

  /** The writer's permit of writelock. */
  predicate HasWrite(x: Thread) {
    match x.at
    case WIn => Got(x.pc)
    case Idle => Keeps(x.pc) && x.pc.s == WRITE
    case _ => false
  }

  /** Counted in rwlock->readers. */
  predicate Counted(x: Thread) { x.at.RTest? || x.at.RLast? || x.at.RGot? || x.at.QIn? }

  function Lockers(): Thread -> bool { (x: Thread) => HasLock(x) }
  function Writers(): Thread -> bool { (x: Thread) => HasWrite(x) }
  function Readers(): Thread -> bool { (x: Thread) => Counted(x) }

  /** What the thread holding rwlock->lock knows about the group. */
  predicate GroupOk(x: Thread, readers: int, group: bool) {
    match x.at
    case RTest => group == (readers > 1)
    case RLast => if Got(x.pc) then group else readers == 1 && !group
    case QTest => group
    case QLast => if Keeps(x.pc) then readers == 0 && group else group == (readers > 0)
    case _ => group == (readers > 0)
  }

  ghost predicate Holding(st: State) {
    && |st.sems| == 2 && st.sems[LOCK].init == 1 && st.sems[WRITE].init == 1
    && st.sems[LOCK].out == Count(st.th, Lockers())
    && st.sems[WRITE].out == Count(st.th, Writers()) + S.Bit(st.group)
    && st.readers == Count(st.th, Readers())
  }

  ghost predicate GroupInv(th: map<nat, Thread>, readers: int, group: bool) {
    && (Count(th, Lockers()) == 0 ==> group == (readers > 0))
    && forall t <- th :: HasLock(th[t]) ==> GroupOk(th[t], readers, group)
  }

  ghost predicate Inv(st: State) {
    && S.Inv(Sem(st))
    && (forall t <- st.th :: Shaped(st.th[t]))
    && Holding(st)
    && GroupInv(st.th, st.readers, st.group)
  }

  // ---------------------------------------------------------------- one thread's part of a step

  lemma ActShape(x: Thread, readers: int, group: bool)
    requires Shaped(x) && x.pc.Out? && !x.at.Idle? && (Counted(x) ==> readers >= 1) && readers >= 0
    requires HasLock(x) ==> GroupOk(x, readers, group)
    ensures var y, r := AfterAct(x, readers), ReadersAfter(x, readers);
            && Shaped(y) && HasLock(y) == HasLock(x) && HasWrite(y) == HasWrite(x)
            && r == readers - S.Bit(Counted(x)) + S.Bit(Counted(y))
            && (HasLock(y) ==> GroupOk(y, r, group))
            && (!HasLock(x) ==> r == readers)
  {
  }

  /** The step of a semaphore call: a permit moves exactly when the semaphore's count does. */
  lemma SemShape(x: Thread, m: S.Sem, readers: int, group: bool)
    requires Shaped(x) && x.pc.At? && x.pc.pt != S.Asleep
    ensures var s, pt := x.pc.s, x.pc.pt;
            var y, g := Thread(x.at, S.PcAfter(m, s, pt)), GroupAfter(x, m, group);
            && Shaped(y) && s < 2
            && (s == LOCK ==> S.SemAfter(m, pt).out - m.out == S.Bit(HasLock(y)) - S.Bit(HasLock(x)))
            && (s == LOCK ==> HasWrite(y) == HasWrite(x) && g == group)
            && (s == WRITE ==> HasLock(y) == HasLock(x))
  {
  }

  /** For writelock: what the writers and the group hold, when the lock's holder is consistent. */
  lemma WriteShape(x: Thread, m: S.Sem, readers: int, group: bool)
    requires Shaped(x) && x.pc.At? && x.pc.pt != S.Asleep && x.pc.s == WRITE
    requires HasLock(x) ==> GroupOk(x, readers, group)
    ensures var y, g := Thread(x.at, S.PcAfter(m, WRITE, x.pc.pt)), GroupAfter(x, m, group);
            && S.SemAfter(m, x.pc.pt).out - m.out ==
               S.Bit(HasWrite(y)) - S.Bit(HasWrite(x)) + S.Bit(g) - S.Bit(group)
            && (HasLock(y) ==> GroupOk(y, readers, g))
            && (!HasLock(x) ==> g == group)
  {
  }

  /** For rwlock->lock: who takes it or gives it back knows that the group is as it should be. */
  lemma LockShape(x: Thread, m: S.Sem, readers: int, group: bool)
    requires Shaped(x) && x.pc.At? && x.pc.pt != S.Asleep && x.pc.s == LOCK
    requires HasLock(x) ==> GroupOk(x, readers, group)
    ensures var y := Thread(x.at, S.PcAfter(m, LOCK, x.pc.pt));
            && (HasLock(x) && HasLock(y) ==> GroupOk(y, readers, group))
            && (HasLock(x) && !HasLock(y) ==> group == (readers > 0))
            && (HasLock(y) && !HasLock(x) ==> m.value > 0 && (group == (readers > 0) ==> GroupOk(y, readers, group)))
  {
  }

  // ---------------------------------------------------------------- each step keeps the invariant

  lemma PcsUpdate(th: map<nat, Thread>, t: nat, x: Thread)
    requires t in th
    ensures Pcs(th[t := x]) == Pcs(th)[t := x.pc]
  {
  }

  /** One permit of each semaphore: a holder of lock is alone, and a writer excludes the group. */
  lemma Permits(st: State)
    requires S.Inv(Sem(st)) && Holding(st)
    ensures Count(st.th, Lockers()) <= 1 && Count(st.th, Writers()) + S.Bit(st.group) <= 1
    ensures st.sems[LOCK].value == 1 - Count(st.th, Lockers())
    ensures st.sems[WRITE].value == 1 - Count(st.th, Writers()) - S.Bit(st.group)
  {
    hide S.TallyOf, Count;
    assert S.SemInv(st.sems[LOCK], S.TallyOf(Pcs(st.th), LOCK));
    assert S.SemInv(st.sems[WRITE], S.TallyOf(Pcs(st.th), WRITE));
  }

  lemma AloneWithLock(th: map<nat, Thread>, t: nat, u: nat)
    requires Count(th, Lockers()) <= 1 && t in th && u in th && HasLock(th[t]) && HasLock(th[u])
    ensures t == u
  {
    if t != u {
      CountTwo(th, Lockers(), t, u);
    }
  }

  lemma StartKeepsInv(st: State, t: nat, at: Place, s: nat)
    requires Inv(st) && t in st.th && st.th[t] == Thread(Idle, S.Out)
    requires (at == RIn && s == LOCK) || (at == WIn && s == WRITE)
    ensures Inv(st.(th := st.th[t := Thread(at, S.At(s, S.WaitLock))]))
  {
    hide S.Inv, Count;
    var x := Thread(at, S.At(s, S.WaitLock));
    PcsUpdate(st.th, t, x);
    S.CallKeepsInv(Sem(st), t, s, S.WaitLock);
    CountUpdate(st.th, t, x, Lockers());
    CountUpdate(st.th, t, x, Writers());
    CountUpdate(st.th, t, x, Readers());
  }

  lemma ReadersBound(st: State, t: nat)
    requires Holding(st) && t in st.th
    ensures st.readers >= 0 && (Counted(st.th[t]) ==> st.readers >= 1)
  {
    hide Count;
    if Counted(st.th[t]) {
      CountPositive(st.th, Readers(), t);
    }
  }

  lemma ActKeepsSem(st: State, t: nat)
    requires Inv(st) && Enabled(st, Act(t))
    ensures S.Inv(Sem(Next(st, Act(t))))
  {
    hide S.Inv, Count;
    var y := AfterAct(st.th[t], st.readers);
    PcsUpdate(st.th, t, y);
    if y.pc.At? {
      S.CallKeepsInv(Sem(st), t, y.pc.s, y.pc.pt);
    } else {
      assert Pcs(st.th)[t := y.pc] == Pcs(st.th);
    }
  }

  /** Replacing one thread keeps the holder of lock consistent with the group. */
  lemma ReplaceThread(th: map<nat, Thread>, t: nat, y: Thread, readers: int, group: bool, readers': int, group': bool)
    requires GroupInv(th, readers, group) && t in th && Count(th, Lockers()) <= 1
    requires HasLock(th[t]) && HasLock(y) ==> GroupOk(y, readers', group')
    requires HasLock(th[t]) && !HasLock(y) ==> group' == (readers' > 0)
    requires !HasLock(th[t]) ==> readers' == readers && group' == group
    requires !HasLock(th[t]) && HasLock(y) ==>
               Count(th, Lockers()) == 0 && (group == (readers > 0) ==> GroupOk(y, readers, group))
    ensures GroupInv(th[t := y], readers', group')
  {
    hide HasLock, GroupOk, Count;
    var th' := th[t := y];
    CountUpdate(th, t, y, Lockers());
    if HasLock(y) {
      CountPositive(th', Lockers(), t);
    } else if HasLock(th[t]) {
      CountPositive(th, Lockers(), t);
    }
    forall u | u in th' && HasLock(th'[u])
      ensures GroupOk(th'[u], readers', group')
    {
      if u != t {
        CountPositive(th, Lockers(), u);
        if HasLock(th[t]) {
          AloneWithLock(th, t, u);
        }
      }
    }
  }

  lemma ActKeepsHolding(st: State, t: nat)
    requires Inv(st) && Enabled(st, Act(t))
    ensures Holding(Next(st, Act(t))) && Shaped(Next(st, Act(t)).th[t])
  {
    hide S.Inv, Count, AfterAct, ReadersAfter, GroupOk;
    var y := AfterAct(st.th[t], st.readers);
    ReadersBound(st, t);
    ActShape(st.th[t], st.readers, st.group);
    hide HasLock, HasWrite, Counted, Shaped;
    CountUpdate(st.th, t, y, Lockers());
    CountUpdate(st.th, t, y, Writers());
    CountUpdate(st.th, t, y, Readers());
  }

  lemma ActKeepsGroup(st: State, t: nat)
    requires Inv(st) && Enabled(st, Act(t))
    ensures var st' := Next(st, Act(t)); GroupInv(st'.th, st'.readers, st'.group)
  {
    hide S.Inv, Count, AfterAct, ReadersAfter, GroupOk;
    Permits(st);
    ReadersBound(st, t);
    ActShape(st.th[t], st.readers, st.group);
    hide HasLock, HasWrite, Counted, Shaped;
    ReplaceThread(st.th, t, AfterAct(st.th[t], st.readers), st.readers, st.group,
                  ReadersAfter(st.th[t], st.readers), st.group);
  }

  lemma ActKeepsInv(st: State, t: nat)
    requires Inv(st) && Enabled(st, Act(t))
    ensures Inv(Next(st, Act(t)))
  {
    hide S.Inv, Holding, GroupInv, AfterAct, ReadersAfter, Shaped;
    ActKeepsSem(st, t);
    ActKeepsHolding(st, t);
    ActKeepsGroup(st, t);
  }

  /** Being woken up changes nothing about what a thread holds. */
  lemma WokenShape(x: Thread, s: nat)
    requires Shaped(x) && x.pc == S.At(s, S.Asleep)
    ensures var y := Thread(x.at, S.At(s, S.Woken));
            && Shaped(y) && HasLock(y) == HasLock(x) && HasWrite(y) == HasWrite(x) && Counted(y) == Counted(x)
            && forall r, g :: GroupOk(y, r, g) == GroupOk(x, r, g)
  {
  }

  /** Moving one thread by one semaphore step. */
  lemma MoveKeepsHolding(st: State, t: nat)
    requires Holding(st) && t in st.th && Shaped(st.th[t]) && st.th[t].pc.At? && st.th[t].pc.pt != S.Asleep
    requires HasLock(st.th[t]) ==> GroupOk(st.th[t], st.readers, st.group)
    ensures st.th[t].pc.s < 2
    ensures var s, pt := st.th[t].pc.s, st.th[t].pc.pt;
            var y := Thread(st.th[t].at, S.PcAfter(st.sems[s], s, pt));
            var st' := State(st.sems[s := S.SemAfter(st.sems[s], pt)], st.th[t := y], st.readers, GroupAfter(st.th[t], st.sems[s], st.group));
            Shaped(y) && Holding(st')
  {
    hide Count, S.PcAfter, GroupAfter, GroupOk;
    var x, s, pt := st.th[t], st.th[t].pc.s, st.th[t].pc.pt;
    SemShape(x, st.sems[s], st.readers, st.group);
    var y := Thread(x.at, S.PcAfter(st.sems[s], s, pt));
    if s == WRITE {
      WriteShape(x, st.sems[s], st.readers, st.group);
    }
    assert S.SemAfter(st.sems[s], pt).init == 1;
    hide S.SemAfter, HasLock, HasWrite, Shaped;
    CountUpdate(st.th, t, y, Lockers());
    CountUpdate(st.th, t, y, Writers());
    CountUpdate(st.th, t, y, Readers());
  }

  lemma MoveKeepsGroup(st: State, t: nat)
    requires Holding(st) && GroupInv(st.th, st.readers, st.group)
    requires 0 <= st.sems[LOCK].value == 1 - Count(st.th, Lockers())
    requires t in st.th && Shaped(st.th[t]) && st.th[t].pc.At? && st.th[t].pc.pt != S.Asleep && st.th[t].pc.s < 2
    ensures var s, pt := st.th[t].pc.s, st.th[t].pc.pt;
            var y := Thread(st.th[t].at, S.PcAfter(st.sems[s], s, pt));
            GroupInv(st.th[t := y], st.readers, GroupAfter(st.th[t], st.sems[s], st.group))
  {
    hide Count, S.PcAfter, GroupAfter, S.SemAfter, GroupOk;
    var x, s := st.th[t], st.th[t].pc.s;
    SemShape(x, st.sems[s], st.readers, st.group);
    if s == WRITE {
      WriteShape(x, st.sems[s], st.readers, st.group);
    } else {
      LockShape(x, st.sems[s], st.readers, st.group);
    }
    hide HasLock, HasWrite, Shaped;
    ReplaceThread(st.th, t, Thread(x.at, S.PcAfter(st.sems[s], s, x.pc.pt)), st.readers, st.group,
                  st.readers, GroupAfter(x, st.sems[s], st.group));
  }

  lemma WakeKeeps(st: State, w: nat, s: nat)
    requires Holding(st) && GroupInv(st.th, st.readers, st.group)
    requires 0 <= st.sems[LOCK].value == 1 - Count(st.th, Lockers())
    requires w in st.th && Shaped(st.th[w]) && st.th[w].pc == S.At(s, S.Asleep)
    ensures var y := Thread(st.th[w].at, S.At(s, S.Woken));
            var st' := st.(th := st.th[w := y]);
            Shaped(y) && Holding(st') && GroupInv(st'.th, st'.readers, st'.group) && Count(st'.th, Lockers()) == Count(st.th, Lockers())
  {
    hide Count;
    var y := Thread(st.th[w].at, S.At(s, S.Woken));
    WokenShape(st.th[w], s);
    hide HasLock, HasWrite, Shaped, GroupOk, Counted;
    CountUpdate(st.th, w, y, Lockers());
    CountUpdate(st.th, w, y, Writers());
    CountUpdate(st.th, w, y, Readers());
    assert HasLock(st.th[w]) ==> GroupOk(st.th[w], st.readers, st.group);
    ReplaceThread(st.th, w, y, st.readers, st.group, st.readers, st.group);
  }

  function Moved(st: State, t: nat): State
    requires t in st.th && st.th[t].pc.At? && st.th[t].pc.s < |st.sems|
  {
    var s, pt := st.th[t].pc.s, st.th[t].pc.pt;
    State(st.sems[s := S.SemAfter(st.sems[s], pt)],
          st.th[t := Thread(st.th[t].at, S.PcAfter(st.sems[s], s, pt))],
          st.readers, GroupAfter(st.th[t], st.sems[s], st.group))
  }

  lemma MoveKeeps(st: State, t: nat)
    requires Holding(st) && GroupInv(st.th, st.readers, st.group) && forall u <- st.th :: Shaped(st.th[u])
    requires 0 <= st.sems[LOCK].value == 1 - Count(st.th, Lockers())
    requires t in st.th && st.th[t].pc.At? && st.th[t].pc.pt != S.Asleep && st.th[t].pc.s < 2
    ensures var st' := Moved(st, t);
            Holding(st') && GroupInv(st'.th, st'.readers, st'.group) && forall u <- st'.th :: Shaped(st'.th[u])
  {
    MoveKeepsHolding(st, t);
    MoveKeepsGroup(st, t);
  }

  function Roused(st: State, w: nat, s: nat): State
    requires w in st.th
  {
    st.(th := st.th[w := Thread(st.th[w].at, S.At(s, S.Woken))])
  }

  /** A semaphore step, as updates of the table: the stepping thread, and the one it wakes. */
  lemma SemStepIs(st: State, t: nat, w: nat)
    requires Enabled(st, SemStep(t, w)) && S.Inv(Sem(st))
    ensures var s, pt := st.th[t].pc.s, st.th[t].pc.pt;
            && s < |st.sems| && pt != S.Asleep
            && (pt.SigWake? ==>
                  && w in st.th && w != t && st.th[w].pc == S.At(s, S.Asleep)
                  && Next(st, SemStep(t, w)) == Moved(Roused(st, w, s), t))
            && (!pt.SigWake? ==> Next(st, SemStep(t, w)) == Moved(st, t))
  {
    hide S.PcAfter, S.SemAfter, S.Inv, GroupAfter;
    var s := st.th[t].pc.s;
    if st.th[t].pc.pt.SigWake? {
      S.WakeFinds(Sem(st), t);
      assert S.IsAsleep(Sem(st), w, s);
      assert Next(st, SemStep(t, w)).th == Moved(Roused(st, w, s), t).th;
    } else {
      assert Next(st, SemStep(t, w)).th == Moved(st, t).th;
    }
  }

  lemma SemStepKeepsSem(st: State, t: nat, w: nat)
    requires Enabled(st, SemStep(t, w)) && S.Inv(Sem(st))
    ensures S.Inv(Sem(Next(st, SemStep(t, w))))
  {
    hide S.PcAfter, S.SemAfter, S.Inv, GroupAfter;
    S.StepKeepsInv(Sem(st), S.Step(t, w));
    var sem := S.Next(Sem(st), S.Step(t, w));
    assert Pcs(Next(st, SemStep(t, w)).th) == sem.pcs;
  }

  lemma SemStepKeepsInv(st: State, t: nat, w: nat)
    requires Inv(st) && Enabled(st, SemStep(t, w))
    ensures Inv(Next(st, SemStep(t, w)))
  {
    assert |st.sems| == 2;
    hide S.Inv, Next, Moved, Count, Holding, GroupInv, Shaped, Enabled;
    Permits(st);
    SemStepIs(st, t, w);
    SemStepKeepsSem(st, t, w);
    var s := st.th[t].pc.s;
    if st.th[t].pc.pt.SigWake? {
      WakeKeeps(st, w, s);
      MoveKeeps(Roused(st, w, s), t);
    } else {
      MoveKeeps(st, t);
    }
  }

  lemma StepKeepsInv(st: State, e: Event)
    requires Inv(st) && Enabled(st, e)
    ensures Inv(Next(st, e))
  {
    match e
    case StartRead(t) => StartKeepsInv(st, t, RIn, LOCK);
    case StartWrite(t) => StartKeepsInv(st, t, WIn, WRITE);
    case Act(t) => ActKeepsInv(st, t);
    case SemStep(t, w) => SemStepKeepsInv(st, t, w);
  }

  // ---------------------------------------------------------------- whole runs

  ghost predicate Legal(st: State, es: seq<Event>)
    decreases |es|
  {
    es == [] || (Enabled(st, es[0]) && Legal(Next(st, es[0]), es[1..]))
  }

  ghost function Exec(st: State, es: seq<Event>): State
    requires Legal(st, es)
    decreases |es|
  {
    if es == [] then st else Exec(Next(st, es[0]), es[1..])
  }

  /** After rwlock_init, with no thread in an operation. */
  ghost predicate Initial(st: State) {
    && st.sems == [S.Init(1), S.Init(1)] && st.readers == 0 && !st.group
    && forall t <- st.th :: st.th[t] == Thread(Idle, S.Out)
  }

  lemma InitialInv(st: State)
    requires Initial(st)
    ensures Inv(st)
  {
    hide S.Inv;
    S.InitialInv(Sem(st));
    assert Those(st.th, Lockers()) == {} && Those(st.th, Writers()) == {} && Those(st.th, Readers()) == {};
  }

  lemma {:induction false} RunKeepsInv(st: State, es: seq<Event>)
    requires Inv(st) && Legal(st, es)
    ensures Inv(Exec(st, es))
    decreases |es|
  {
    hide Inv;
    if es != [] {
      StepKeepsInv(st, es[0]);
      RunKeepsInv(Next(st, es[0]), es[1..]);
    }
  }

  // ---------------------------------------------------------------- mutual exclusion

  /** The write lock has been acquired and its release has not begun. */
  predicate Writing(x: Thread) { x.at.WIn? && Got(x.pc) }

  /** The read lock has been acquired and the reader has not yet counted itself out. */
  predicate Reading(x: Thread) { x.at.RGot? || x.at.QIn? }

  lemma ReadersHoldWritelock(st: State, u: nat)
    requires Inv(st) && u in st.th && Reading(st.th[u])
    ensures st.group
  {
    hide S.Inv, Count;
    CountPositive(st.th, Readers(), u);
    if Count(st.th, Lockers()) > 0 {
      var h := CountSome(st.th, Lockers());
      if h != u && Counted(st.th[h]) {
        CountTwo(st.th, Readers(), h, u);
      }
    }
  }

  /** In every reachable state a writer overlaps neither another writer nor a reader. */
  lemma Exclusion(st: State, es: seq<Event>, t: nat, u: nat)
    requires Initial(st) && Legal(st, es)
    requires t in Exec(st, es).th && u in Exec(st, es).th && t != u && Writing(Exec(st, es).th[t])
    ensures !Writing(Exec(st, es).th[u]) && !Reading(Exec(st, es).th[u])
  {
    hide Count, S.Inv;
    InitialInv(st);
    RunKeepsInv(st, es);
    var st' := Exec(st, es);
    Permits(st');
    CountPositive(st'.th, Writers(), t);
    if Writing(st'.th[u]) {
      CountTwo(st'.th, Writers(), t, u);
    } else if Reading(st'.th[u]) {
      ReadersHoldWritelock(st', u);
    }
  }

  // ---------------------------------------------------------------- no deadlock

  ghost predicate CanMove(st: State, u: nat) {
    u in st.th && ((st.th[u].pc.Out? && !st.th[u].at.Idle?) || S.CanStep(Sem(st), u))
  }

  /** A thread in an operation can move, or sleeps on a semaphore without a permit. */
  lemma MovesOrSleeps(st: State, t: nat) returns (u: nat)
    requires Inv(st) && t in st.th && st.th[t] != Thread(Idle, S.Out)
    ensures CanMove(st, u) || (st.th[t].pc.At? && st.th[t].pc.pt.Asleep? && st.th[t].pc.s < 2 && st.sems[st.th[t].pc.s].value == 0)
  {
    hide Count, S.Inv;
    u := t;
    if st.th[t].pc.At? {
      u := S.Progress(Sem(st), t);
    }
  }

  /** A writer that holds writelock can move. */
  lemma WriterMoves(st: State) returns (u: nat)
    requires Inv(st) && Count(st.th, Writers()) > 0
    ensures CanMove(st, u)
  {
    hide Count, S.Inv;
    var w := CountSome(st.th, Writers());
    u := MovesOrSleeps(st, w);
  }

  /** The holder of lock can move, unless it is the first reader, asleep on writelock. */
  lemma LockerMoves(st: State) returns (u: nat)
    requires Inv(st) && Count(st.th, Lockers()) > 0
    ensures CanMove(st, u) || (!st.group && st.sems[WRITE].value == 0)
  {
    hide Count, S.Inv;
    var h := CountSome(st.th, Lockers());
    u := MovesOrSleeps(st, h);
  }

  /** When the readers hold writelock, one of them or the holder of lock can move. */
  lemma GroupMoves(st: State) returns (u: nat)
    requires Inv(st) && st.group
    ensures CanMove(st, u)
  {
    hide Count, S.Inv;
    Permits(st);
    if Count(st.th, Lockers()) > 0 {
      u := LockerMoves(st);
    } else {
      var r := CountSome(st.th, Readers());
      u := MovesOrSleeps(st, r);
      assert Shaped(st.th[r]);
    }
  }

  /** Whenever some thread is in an operation of the lock, some thread can take a step: the wait
      for writelock while holding lock cannot deadlock. */
  lemma NoDeadlock(st: State, es: seq<Event>, t: nat) returns (u: nat)
    requires Initial(st) && Legal(st, es)
    requires t in Exec(st, es).th && Exec(st, es).th[t] != Thread(Idle, S.Out)
    ensures CanMove(Exec(st, es), u)
  {
    hide Count, S.Inv;
    InitialInv(st);
    RunKeepsInv(st, es);
    var st' := Exec(st, es);
    Permits(st');
    u := MovesOrSleeps(st', t);
    if !CanMove(st', u) && st'.th[t].pc.s == LOCK {
      u := LockerMoves(st');
    }
    if !CanMove(st', u) {
      if st'.group {
        u := GroupMoves(st');
      } else {
        u := WriterMoves(st');
      }
    }
  }
}
