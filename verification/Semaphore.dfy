/** The semaphores of semaphore.c as a step system over any number of threads. Each step is one
    access to shared memory: a TestAndSet, a store, or a test under a held mutex. The section of
    Cond_wait that releases the mutex and puts the thread to sleep is one step, as is
    Cond_signal's scan, which ptable.lock and the single CPU make atomic to each other. */
module Semaphore {
  import opened Counting

  datatype Sem = Sem(
    value: int,
    flag: bool,        // semaphore->lock
    condFlag: bool,    // semaphore->cond.lock
    waiting: int,      // semaphore->cond.waiting_threads
    out: int,          // completed waits minus completed unlocks
    init: int)

  /** Where a thread is in xem_wait or xem_unlock; the comment is what it does next. */
  datatype Point =
    | WaitLock        // Mutex_lock(&semaphore->lock)
    | WaitTest        // first test of value
    | CondLock        // Cond_wait: Mutex_lock(&cond->lock)
    | CondCount       // waiting_threads++
    | CondUnlock      // Mutex_unlock(&cond->lock)
    | CondSleep       // Mutex_unlock(lock) and sleep
    | Asleep          // SLEEPING with chan == cond
    | Woken           // RUNNABLE again: Mutex_lock(lock)
    | Retest          // test of value after waking up
    | Taken           // value-- is done: Mutex_unlock
    | PostLock        // xem_unlock: Mutex_lock(&semaphore->lock)
    | PostAdd         // value++
    | SigLock         // Cond_signal: Mutex_lock(&cond->lock)
    | SigTest         // waiting_threads == 0?
    | SigNone         // nobody waits: Mutex_unlock(&cond->lock)
    | SigUnlock       // waiting_threads-- is done: Mutex_unlock(&cond->lock)
    | SigWake         // scan for a sleeping thread and wake it
    | PostUnlock      // Mutex_unlock(&semaphore->lock)

  datatype Pc = Out | At(s: nat, pt: Point)

  datatype State = State(sems: seq<Sem>, pcs: map<nat, Pc>)

  datatype Event =
    | Wait(t: nat, s: nat)      // thread t calls xem_wait
    | Post(t: nat, s: nat)      // thread t calls xem_unlock
    | Step(t: nat, w: nat)      // t's next step; w is the thread a wakeup finds

  /** xem_init, for a semaphore that starts with `value` permits. */
  function Init(value: int): Sem { Sem(value, false, false, 0, 0, value) }

  // ---------------------------------------------------------------- the steps

  ghost predicate Enabled(st: State, e: Event) {
    match e
    case Wait(t, s) => t in st.pcs && st.pcs[t].Out? && s < |st.sems|
    case Post(t, s) => t in st.pcs && st.pcs[t].Out? && s < |st.sems|
    case Step(t, w) => CanStep(st, t) && (st.pcs[t].pt.SigWake? && Sleepers(st, st.pcs[t].s) ==> IsAsleep(st, w, st.pcs[t].s))
  }

  ghost predicate IsAsleep(st: State, w: nat, s: nat) { w in st.pcs && st.pcs[w] == At(s, Asleep) }

  ghost predicate Sleepers(st: State, s: nat) { exists w :: IsAsleep(st, w, s) }

  /** The thread is in a semaphore call and would not spin or stay asleep. */
  ghost predicate CanStep(st: State, t: nat) {
    && t in st.pcs && st.pcs[t].At? && st.pcs[t].s < |st.sems|
    && var m := st.sems[st.pcs[t].s];
       match st.pcs[t].pt
       case Asleep => false
       case WaitLock => !m.flag
       case Woken => !m.flag
       case PostLock => !m.flag
       case CondLock => !m.condFlag
       case SigLock => !m.condFlag
       case _ => true
  }

  /** The semaphore's fields after thread at point `pt` takes its step. */
  function SemAfter(m: Sem, pt: Point): Sem {
    match pt
    case WaitLock => m.(flag := true)
    case Woken => m.(flag := true)
    case PostLock => m.(flag := true)
    case WaitTest => if m.value <= 0 then m else m.(value := m.value - 1, out := m.out + 1)
    case Retest => if m.value <= 0 then m else m.(value := m.value - 1, out := m.out + 1)
    case CondLock => m.(condFlag := true)
    case CondCount => m.(waiting := m.waiting + 1)
    case CondUnlock => m.(condFlag := false)
    case CondSleep => m.(flag := false)
    case Taken => m.(flag := false)
    case PostAdd => m.(value := m.value + 1, out := m.out - 1)
    case SigLock => m.(condFlag := true)
    case SigTest => if m.waiting == 0 then m else m.(waiting := m.waiting - 1)
    case SigNone => m.(condFlag := false)
    case SigUnlock => m.(condFlag := false)
    case SigWake => m
    case PostUnlock => m.(flag := false)
    case Asleep => m
  }

  /** Where the thread is then. */
  function PcAfter(m: Sem, s: nat, pt: Point): Pc {
    match pt
    case WaitLock => At(s, WaitTest)
    case WaitTest => At(s, if m.value <= 0 then CondLock else Taken)
    case CondLock => At(s, CondCount)
    case CondCount => At(s, CondUnlock)
    case CondUnlock => At(s, CondSleep)
    case CondSleep => At(s, Asleep)
    case Asleep => At(s, Asleep)
    case Woken => At(s, Retest)
    case Retest => At(s, if m.value <= 0 then CondLock else Taken)
    case Taken => Out
    case PostLock => At(s, PostAdd)
    case PostAdd => At(s, SigLock)
    case SigLock => At(s, SigTest)
    case SigTest => At(s, if m.waiting == 0 then SigNone else SigUnlock)
    case SigNone => At(s, PostUnlock)
    case SigUnlock => At(s, SigWake)
    case SigWake => At(s, PostUnlock)
    case PostUnlock => Out
  }

  ghost function Next(st: State, e: Event): State
    requires Enabled(st, e)
  {
    match e
    case Wait(t, s) => st.(pcs := st.pcs[t := At(s, WaitLock)])
    case Post(t, s) => st.(pcs := st.pcs[t := At(s, PostLock)])
    case Step(t, w) =>
      var s, pt := st.pcs[t].s, st.pcs[t].pt;
      var m := st.sems[s];
      var pcs := if pt.SigWake? && Sleepers(st, s) then st.pcs[w := At(s, Woken)] else st.pcs;
      State(st.sems[s := SemAfter(m, pt)], pcs[t := PcAfter(m, s, pt)])
  }

  // ---------------------------------------------------------------- kinds of points

  predicate HoldsMutex(pt: Point) {
    match pt
    case WaitLock => false
    case Asleep => false
    case Woken => false
    case PostLock => false
    case _ => true
  }

  predicate HoldsCond(pt: Point) { pt.CondCount? || pt.CondUnlock? || pt.SigTest? || pt.SigNone? || pt.SigUnlock? }

  /** In Cond_wait, having found no permit. */
  predicate GoingToSleep(pt: Point) { pt.CondLock? || pt.CondCount? || pt.CondUnlock? || pt.CondSleep? }

  /** Counted in waiting_threads but not yet asleep. */
  predicate CountedIn(pt: Point) { pt.CondUnlock? || pt.CondSleep? }

  /** Taken off waiting_threads for a wakeup still to come. */
  predicate CountedOff(pt: Point) { pt.SigUnlock? || pt.SigWake? }

  /** Woken up and not yet rechecked the value. */
  predicate Rechecking(pt: Point) { pt.Woken? || pt.Retest? }

  /** The value has gone up and the wakeup for it is on its way. */
  predicate Signalling(pt: Point) { pt.SigLock? || pt.SigTest? || pt.SigUnlock? || pt.SigWake? }

  // Named conditions for counting threads at semaphore `s`.
  function AtMutex(s: nat): Pc -> bool { (pc: Pc) => pc.At? && pc.s == s && HoldsMutex(pc.pt) }
  function AtCond(s: nat): Pc -> bool { (pc: Pc) => pc.At? && pc.s == s && HoldsCond(pc.pt) }
  function AtGoing(s: nat): Pc -> bool { (pc: Pc) => pc.At? && pc.s == s && GoingToSleep(pc.pt) }
  function AtCountedIn(s: nat): Pc -> bool { (pc: Pc) => pc.At? && pc.s == s && CountedIn(pc.pt) }
  function AtCountedOff(s: nat): Pc -> bool { (pc: Pc) => pc.At? && pc.s == s && CountedOff(pc.pt) }
  function AtRecheck(s: nat): Pc -> bool { (pc: Pc) => pc.At? && pc.s == s && Rechecking(pc.pt) }
  function AtSignal(s: nat): Pc -> bool { (pc: Pc) => pc.At? && pc.s == s && Signalling(pc.pt) }
  function AtSleep(s: nat): Pc -> bool { (pc: Pc) => pc.At? && pc.s == s && pc.pt.Asleep? }

  // ---------------------------------------------------------------- the invariant

  function Bit(b: bool): nat { if b then 1 else 0 }

  /** How many threads are at each kind of point of one semaphore. */
  datatype Tally = Tally(mutex: int, cond: int, going: int, countedIn: int, countedOff: int,
                         recheck: int, signal: int, sleep: int)

  ghost function TallyOf(pcs: map<nat, Pc>, s: nat): Tally {
    Tally(Count(pcs, AtMutex(s)), Count(pcs, AtCond(s)), Count(pcs, AtGoing(s)), Count(pcs, AtCountedIn(s)),
          Count(pcs, AtCountedOff(s)), Count(pcs, AtRecheck(s)), Count(pcs, AtSignal(s)), Count(pcs, AtSleep(s)))
  }

  /** What one thread contributes to the tally of semaphore `s`. */
  function Share(pc: Pc, s: nat): Tally {
    if pc.At? && pc.s == s then
      Tally(Bit(HoldsMutex(pc.pt)), Bit(HoldsCond(pc.pt)), Bit(GoingToSleep(pc.pt)), Bit(CountedIn(pc.pt)),
            Bit(CountedOff(pc.pt)), Bit(Rechecking(pc.pt)), Bit(Signalling(pc.pt)), Bit(pc.pt.Asleep?))
    else Tally(0, 0, 0, 0, 0, 0, 0, 0)
  }

  function Move(c: Tally, x: Tally, y: Tally): Tally {
    Tally(c.mutex - x.mutex + y.mutex, c.cond - x.cond + y.cond, c.going - x.going + y.going,
          c.countedIn - x.countedIn + y.countedIn, c.countedOff - x.countedOff + y.countedOff,
          c.recheck - x.recheck + y.recheck, c.signal - x.signal + y.signal, c.sleep - x.sleep + y.sleep)
  }

  lemma MoveTally(pcs: map<nat, Pc>, t: nat, pc: Pc, s: nat)
    requires t in pcs
    ensures TallyOf(pcs[t := pc], s) == Move(TallyOf(pcs, s), Share(pcs[t], s), Share(pc, s))
  {
    hide Count;
    CountUpdate(pcs, t, pc, AtMutex(s));
    CountUpdate(pcs, t, pc, AtCond(s));
    CountUpdate(pcs, t, pc, AtGoing(s));
    CountUpdate(pcs, t, pc, AtCountedIn(s));
    CountUpdate(pcs, t, pc, AtCountedOff(s));
    CountUpdate(pcs, t, pc, AtRecheck(s));
    CountUpdate(pcs, t, pc, AtSignal(s));
    CountUpdate(pcs, t, pc, AtSleep(s));
  }

  /** The kinds of points that lie inside the mutex. */
  ghost predicate Inside(c: Tally, x: Tally) {
    c.cond == x.cond && c.going == x.going && c.countedIn == x.countedIn && c.countedOff == x.countedOff && c.signal == x.signal
  }

  /** The thread holding the mutex is alone inside it. */
  lemma HolderAlone(pcs: map<nat, Pc>, s: nat, t: nat)
    requires t in pcs && pcs[t].At? && pcs[t].s == s && HoldsMutex(pcs[t].pt) && TallyOf(pcs, s).mutex <= 1
    ensures Inside(TallyOf(pcs, s), Share(pcs[t], s)) && TallyOf(pcs, s).mutex == 1
  {
    hide Count;
    CountPositive(pcs, AtMutex(s), t);
    CountOnly(pcs, t, AtMutex(s), AtCond(s));
    CountOnly(pcs, t, AtMutex(s), AtGoing(s));
    CountOnly(pcs, t, AtMutex(s), AtCountedIn(s));
    CountOnly(pcs, t, AtMutex(s), AtCountedOff(s));
    CountOnly(pcs, t, AtMutex(s), AtSignal(s));
  }

  lemma NobodyInside(pcs: map<nat, Pc>, s: nat)
    requires TallyOf(pcs, s).mutex == 0
    ensures Inside(TallyOf(pcs, s), Tally(0, 0, 0, 0, 0, 0, 0, 0))
  {
    hide Count;
    CountSubset(pcs, AtMutex(s), AtCond(s));
    CountSubset(pcs, AtMutex(s), AtGoing(s));
    CountSubset(pcs, AtMutex(s), AtCountedIn(s));
    CountSubset(pcs, AtMutex(s), AtCountedOff(s));
    CountSubset(pcs, AtMutex(s), AtSignal(s));
  }

  /** Permits are conserved; each mutex has at most one holder; waiting_threads counts the
      sleepers; and no wakeup is lost: while a thread sleeps, the value is covered by threads that
      have been woken and not yet rechecked and by wakeups under way. */
  ghost predicate SemInv(m: Sem, c: Tally) {
    && m.value >= 0 && m.value + m.out == m.init
    && c.mutex == Bit(m.flag) && c.cond == Bit(m.condFlag)
    && m.waiting >= 0 && m.waiting + c.countedOff == c.sleep + c.countedIn
    && (c.going > 0 ==> m.value == 0)
    && (c.sleep > 0 ==> m.value <= c.recheck + c.signal)
    && c.sleep >= 0 && c.recheck >= 0
  }

  ghost predicate Inv(st: State) {
    && (forall t <- st.pcs :: st.pcs[t].At? ==> st.pcs[t].s < |st.sems|)
    && forall s: nat {:trigger TallyOf(st.pcs, s)} | s < |st.sems| :: SemInv(st.sems[s], TallyOf(st.pcs, s))
  }

  // ---------------------------------------------------------------- each step keeps it

  /** The step of a thread inside the mutex, counted. */
  lemma InsideStep(m: Sem, c: Tally, s: nat, pt: Point)
    requires SemInv(m, c) && HoldsMutex(pt) && !pt.SigWake?
    requires Inside(c, Share(At(s, pt), s)) && c.mutex == 1 && (pt.CondLock? || pt.SigLock? ==> !m.condFlag)
    requires pt.Retest? ==> c.recheck >= 1
    ensures SemInv(SemAfter(m, pt), Move(c, Share(At(s, pt), s), Share(PcAfter(m, s, pt), s)))
  {
  }

  /** The step of a thread that finds the mutex free. */
  lemma EnterStep(m: Sem, c: Tally, s: nat, pt: Point)
    requires SemInv(m, c) && (pt.WaitLock? || pt.Woken? || pt.PostLock?) && !m.flag
    requires Inside(c, Tally(0, 0, 0, 0, 0, 0, 0, 0)) && (pt.Woken? ==> c.recheck >= 1)
    ensures SemInv(SemAfter(m, pt), Move(c, Share(At(s, pt), s), Share(PcAfter(m, s, pt), s)))
  {
  }

  /** Cond_signal's scan: it finds a sleeper, since one was counted off for it. */
  lemma WakeStep(m: Sem, c: Tally, s: nat)
    requires SemInv(m, c) && Inside(c, Share(At(s, SigWake), s)) && c.mutex == 1
    ensures c.sleep >= 1
    ensures var c1 := Move(c, Share(At(s, Asleep), s), Share(At(s, Woken), s));
            SemInv(m, Move(c1, Share(At(s, SigWake), s), Share(At(s, PostUnlock), s)))
  {
  }

  /** What happens at one semaphore does not concern another. */
  lemma Elsewhere(pcs: map<nat, Pc>, t: nat, pc: Pc, s: nat)
    requires t in pcs && (pcs[t].At? ==> pcs[t].s != s) && (pc.At? ==> pc.s != s)
    ensures TallyOf(pcs[t := pc], s) == TallyOf(pcs, s)
  {
    hide TallyOf;
    MoveTally(pcs, t, pc, s);
  }

  lemma CallKeepsInv(st: State, t: nat, s: nat, pt: Point)
    requires Inv(st) && t in st.pcs && st.pcs[t].Out? && s < |st.sems| && (pt.WaitLock? || pt.PostLock?)
    ensures Inv(st.(pcs := st.pcs[t := At(s, pt)]))
  {
    hide TallyOf;
    forall k: nat | k < |st.sems|
      ensures SemInv(st.sems[k], TallyOf(st.pcs[t := At(s, pt)], k))
    {
      MoveTally(st.pcs, t, At(s, pt), k);
    }
  }

  lemma RecheckCounted(pcs: map<nat, Pc>, t: nat, s: nat)
    requires t in pcs && pcs[t].At? && pcs[t].s == s
    ensures Rechecking(pcs[t].pt) ==> TallyOf(pcs, s).recheck >= 1
    ensures pcs[t].pt.Asleep? ==> TallyOf(pcs, s).sleep >= 1
    ensures HoldsMutex(pcs[t].pt) ==> TallyOf(pcs, s).mutex >= 1
    ensures HoldsCond(pcs[t].pt) ==> TallyOf(pcs, s).cond >= 1
    ensures Signalling(pcs[t].pt) ==> TallyOf(pcs, s).signal >= 1
  {
    hide Count;
    if Rechecking(pcs[t].pt) { CountPositive(pcs, AtRecheck(s), t); }
    if pcs[t].pt.Asleep? { CountPositive(pcs, AtSleep(s), t); }
    if HoldsMutex(pcs[t].pt) { CountPositive(pcs, AtMutex(s), t); }
    if HoldsCond(pcs[t].pt) { CountPositive(pcs, AtCond(s), t); }
    if Signalling(pcs[t].pt) { CountPositive(pcs, AtSignal(s), t); }
  }

  lemma PlainStepKeepsInv(st: State, t: nat)
    requires Inv(st) && CanStep(st, t) && !st.pcs[t].pt.SigWake?
    ensures var s, pt := st.pcs[t].s, st.pcs[t].pt;
            Inv(State(st.sems[s := SemAfter(st.sems[s], pt)], st.pcs[t := PcAfter(st.sems[s], s, pt)]))
  {
    hide TallyOf, SemInv, SemAfter;
    var s, pt := st.pcs[t].s, st.pcs[t].pt;
    var m := st.sems[s];
    var pc := PcAfter(m, s, pt);
    forall k: nat | k < |st.sems|
      ensures SemInv(if k == s then SemAfter(m, pt) else st.sems[k], TallyOf(st.pcs[t := pc], k))
    {
      if k == s {
        OwnStep(st, t);
      } else {
        Elsewhere(st.pcs, t, pc, k);
      }
    }
  }

  lemma OwnStep(st: State, t: nat)
    requires Inv(st) && CanStep(st, t) && !st.pcs[t].pt.SigWake?
    ensures var s, pt := st.pcs[t].s, st.pcs[t].pt;
            SemInv(SemAfter(st.sems[s], pt), TallyOf(st.pcs[t := PcAfter(st.sems[s], s, pt)], s))
  {
    hide TallyOf, Move, Share;
    var s, pt := st.pcs[t].s, st.pcs[t].pt;
    var m, c := st.sems[s], TallyOf(st.pcs, s);
    MoveTally(st.pcs, t, PcAfter(m, s, pt), s);
    RecheckCounted(st.pcs, t, s);
    if HoldsMutex(pt) {
      HolderAlone(st.pcs, s, t);
      InsideStep(m, c, s, pt);
    } else {
      NobodyInside(st.pcs, s);
      EnterStep(m, c, s, pt);
    }
  }

  lemma WakeKeepsInv(st: State, t: nat, w: nat)
    requires Inv(st) && CanStep(st, t) && st.pcs[t].pt.SigWake? && IsAsleep(st, w, st.pcs[t].s)
    ensures var s := st.pcs[t].s;
            Inv(State(st.sems, st.pcs[w := At(s, Woken)][t := At(s, PostUnlock)]))
  {
    hide TallyOf, Share, Move;
    var s := st.pcs[t].s;
    var pcs1 := st.pcs[w := At(s, Woken)];
    forall k: nat | k < |st.sems|
      ensures SemInv(st.sems[k], TallyOf(pcs1[t := At(s, PostUnlock)], k))
    {
      if k == s {
        RecheckCounted(st.pcs, t, s);
        HolderAlone(st.pcs, s, t);
        WakeStep(st.sems[s], TallyOf(st.pcs, s), s);
        MoveTally(st.pcs, w, At(s, Woken), s);
        MoveTally(pcs1, t, At(s, PostUnlock), s);
      } else {
        Elsewhere(st.pcs, w, At(s, Woken), k);
        Elsewhere(pcs1, t, At(s, PostUnlock), k);
      }
    }
  }

  /** A wakeup that was counted off always finds a thread asleep. */
  lemma WakeFinds(st: State, t: nat)
    requires Inv(st) && CanStep(st, t) && st.pcs[t].pt.SigWake?
    ensures Sleepers(st, st.pcs[t].s)
  {
    hide Count;
    var s := st.pcs[t].s;
    RecheckCounted(st.pcs, t, s);
    HolderAlone(st.pcs, s, t);
    WakeStep(st.sems[s], TallyOf(st.pcs, s), s);
    var w := CountSome(st.pcs, AtSleep(s));
    assert IsAsleep(st, w, s);
  }

  lemma StepKeepsInv(st: State, e: Event)
    requires Inv(st) && Enabled(st, e)
    ensures Inv(Next(st, e))
  {
    hide Inv;
    match e
    case Wait(t, s) => CallKeepsInv(st, t, s, WaitLock);
    case Post(t, s) => CallKeepsInv(st, t, s, PostLock);
    case Step(t, w) =>
      if st.pcs[t].pt.SigWake? {
        WakeFinds(st, t);
        WakeKeepsInv(st, t, w);
        var s := st.pcs[t].s;
        assert st.sems[s := st.sems[s]] == st.sems;
      } else {
        PlainStepKeepsInv(st, t);
      }
  }

  // ---------------------------------------------------------------- whole runs

  ghost predicate Legal(st: State, es: seq<Event>)
    decreases |es|
  {
    es == [] || (Enabled(st, es[0]) && Legal(Next(st, es[0]), es[1..]))
  }

  ghost function Exec(st: State, es: seq<Event>): State
    requires Legal(st, es)
    decreases |es|
  {
    if es == [] then st else Exec(Next(st, es[0]), es[1..])
  }

  ghost predicate Initial(st: State) {
    && (forall t <- st.pcs :: st.pcs[t] == Out)
    && forall s | 0 <= s < |st.sems| :: st.sems[s].init >= 0 && st.sems[s] == Init(st.sems[s].init)
  }

  lemma InitialInv(st: State)
    requires Initial(st)
    ensures Inv(st)
  {
  }

  lemma {:induction false} RunKeepsInv(st: State, es: seq<Event>)
    requires Inv(st) && Legal(st, es)
    ensures Inv(Exec(st, es))
    decreases |es|
  {
    hide Inv;
    if es != [] {
      StepKeepsInv(st, es[0]);
      RunKeepsInv(Next(st, es[0]), es[1..]);
    }
  }

  /** In every reachable state: permits are conserved, the value is not negative, and while some
      thread sleeps on the semaphore the value is at most the number of threads woken and not yet
      rechecked, plus one if a thread is on its way to wake one. Once the mutex is free, only the
      woken threads count. */
  lemma NoLostWakeup(st: State, es: seq<Event>, s: nat)
    requires Initial(st) && Legal(st, es) && s < |Exec(st, es).sems|
    ensures var st' := Exec(st, es);
            var m := st'.sems[s];
            && m.value >= 0 && m.value + m.out == m.init
            && (Sleepers(st', s) ==> m.value <= Count(st'.pcs, AtRecheck(s)) + Count(st'.pcs, AtSignal(s)))
            && Count(st'.pcs, AtSignal(s)) <= Bit(m.flag)
  {
    hide Count;
    InitialInv(st);
    RunKeepsInv(st, es);
    var st' := Exec(st, es);
    CountSubset(st'.pcs, AtMutex(s), AtSignal(s));
    assert SemInv(st'.sems[s], TallyOf(st'.pcs, s));
    if Sleepers(st', s) {
      var w :| IsAsleep(st', w, s);
      RecheckCounted(st'.pcs, w, s);
    }
  }

  /** Progress: while a thread is in a call, some thread can step, unless that thread is asleep
      on a semaphore that has no permits left. */
  lemma Progress(st: State, t: nat) returns (u: nat)
    requires Inv(st) && t in st.pcs && st.pcs[t].At?
    ensures CanStep(st, u) || (st.pcs[t].pt.Asleep? && st.sems[st.pcs[t].s].value == 0)
  {
    hide Count;
    var s := st.pcs[t].s;
    var c := TallyOf(st.pcs, s);
    u := t;
    if c.cond > 0 {
      u := CountSome(st.pcs, AtCond(s));
    } else if c.mutex > 0 {
      u := CountSome(st.pcs, AtMutex(s));
    } else if c.recheck > 0 {
      u := CountSome(st.pcs, AtRecheck(s));
    } else {
      RecheckCounted(st.pcs, t, s);
      NobodyInside(st.pcs, s);
    }
  }

  /** A wait that returns has taken a permit: no step but one that lowers a positive value by one brings a
      thread to the end of its wait. */
  lemma WaitTakes(st: State, e: Event, t: nat)
    requires Enabled(st, e) && t in st.pcs && t in Next(st, e).pcs
    requires Next(st, e).pcs[t].At? && Next(st, e).pcs[t].pt.Taken? && st.pcs[t] != Next(st, e).pcs[t]
    ensures var s := Next(st, e).pcs[t].s;
            && e.Step? && e.t == t && s < |st.sems| && st.sems[s].value > 0
            && Next(st, e).sems == st.sems[s := st.sems[s].(value := st.sems[s].value - 1, out := st.sems[s].out + 1)]
  {
  }

  // ---------------------------------------------------------------- a wakeup under way

  lemma {:induction false} ExecSnoc(st: State, es: seq<Event>, e: Event)
    requires Legal(st, es) && Enabled(Exec(st, es), e)
    ensures Legal(st, es + [e]) && Exec(st, es + [e]) == Next(Exec(st, es), e)
    decreases |es|
  {
    if es == [] {
      assert (es + [e])[1..] == [];
    } else {
      ExecSnoc(Next(st, es[0]), es[1..], e);
      assert (es + [e])[1..] == es[1..] + [e];
    }
  }

  /** One semaphore and two threads. */
  function Two(m: Sem, a: Pc, b: Pc): State { State([m], map[0 := a, 1 := b]) }

  ghost predicate Leads(st: State, es: seq<Event>, st': State) { Legal(st, es) && Exec(st, es) == st' }

  lemma LeadsOn(st: State, es: seq<Event>, st': State, e: Event)
    requires Leads(st, es, st') && Enabled(st', e)
    ensures Leads(st, es + [e], Next(st', e))
  {
    ExecSnoc(st, es, e);
  }

  /** The first thread takes its next step, which is not a wakeup. */
  lemma FirstOfTwo(st: State, es: seq<Event>, m: Sem, pt: Point, b: Pc) returns (es': seq<Event>)
    requires Leads(st, es, Two(m, At(0, pt), b)) && CanStep(Two(m, At(0, pt), b), 0) && !pt.SigWake?
    ensures Leads(st, es', Two(SemAfter(m, pt), PcAfter(m, 0, pt), b))
  {
    hide Leads;
    LeadsOn(st, es, Two(m, At(0, pt), b), Step(0, 0));
    es' := es + [Step(0, 0)];
    assert Next(Two(m, At(0, pt), b), Step(0, 0)) == Two(SemAfter(m, pt), PcAfter(m, 0, pt), b);
  }

  lemma SecondOfTwo(st: State, es: seq<Event>, m: Sem, a: Pc, pt: Point) returns (es': seq<Event>)
    requires Leads(st, es, Two(m, a, At(0, pt))) && CanStep(Two(m, a, At(0, pt)), 1) && !pt.SigWake?
    ensures Leads(st, es', Two(SemAfter(m, pt), a, PcAfter(m, 0, pt)))
  {
    hide Leads;
    LeadsOn(st, es, Two(m, a, At(0, pt)), Step(1, 0));
    es' := es + [Step(1, 0)];
    assert Next(Two(m, a, At(0, pt)), Step(1, 0)) == Two(SemAfter(m, pt), a, PcAfter(m, 0, pt));
  }

  lemma FirstTakes(st: State) returns (es: seq<Event>)
    requires st == Two(Init(1), Out, Out)
    ensures Leads(st, es, Two(Sem(0, false, false, 0, 1, 1), Out, Out))
  {
    assert Leads(st, [], st);
    hide Leads;
    LeadsOn(st, [], st, Wait(0, 0));
    assert Next(st, Wait(0, 0)) == Two(Init(1), At(0, WaitLock), Out);
    es := FirstOfTwo(st, [] + [Wait(0, 0)], Init(1), WaitLock, Out);
    es := FirstOfTwo(st, es, Sem(1, true, false, 0, 0, 1), WaitTest, Out);
    es := FirstOfTwo(st, es, Sem(0, true, false, 0, 1, 1), Taken, Out);
  }

  lemma SecondSleeps(st: State, es0: seq<Event>) returns (es: seq<Event>)
    requires Leads(st, es0, Two(Sem(0, false, false, 0, 1, 1), Out, Out))
    ensures Leads(st, es, Two(Sem(0, false, false, 1, 1, 1), Out, At(0, Asleep)))
  {
    hide Leads;
    LeadsOn(st, es0, Two(Sem(0, false, false, 0, 1, 1), Out, Out), Wait(1, 0));
    assert Next(Two(Sem(0, false, false, 0, 1, 1), Out, Out), Wait(1, 0)) == Two(Sem(0, false, false, 0, 1, 1), Out, At(0, WaitLock));
    es := SecondOfTwo(st, es0 + [Wait(1, 0)], Sem(0, false, false, 0, 1, 1), Out, WaitLock);
    es := SecondOfTwo(st, es, Sem(0, true, false, 0, 1, 1), Out, WaitTest);
    es := SecondOfTwo(st, es, Sem(0, true, false, 0, 1, 1), Out, CondLock);
    es := SecondOfTwo(st, es, Sem(0, true, true, 0, 1, 1), Out, CondCount);
    es := SecondOfTwo(st, es, Sem(0, true, true, 1, 1, 1), Out, CondUnlock);
    es := SecondOfTwo(st, es, Sem(0, true, false, 1, 1, 1), Out, CondSleep);
  }

  /** While a poster is between value++ and the end of its scan, a thread can sleep although the
      value is positive and nobody has been woken. */
  lemma SignalGap() returns (st: State, es: seq<Event>)
    ensures Initial(st) && Legal(st, es) && |Exec(st, es).sems| == 1
    ensures var st' := Exec(st, es); Sleepers(st', 0) && st'.sems[0].value == 1 && Count(st'.pcs, AtRecheck(0)) == 0
  {
    st := Two(Init(1), Out, Out);
    es := FirstTakes(st);
    es := SecondSleeps(st, es);
    LeadsOn(st, es, Two(Sem(0, false, false, 1, 1, 1), Out, At(0, Asleep)), Post(0, 0));
    assert Next(Two(Sem(0, false, false, 1, 1, 1), Out, At(0, Asleep)), Post(0, 0)) == Two(Sem(0, false, false, 1, 1, 1), At(0, PostLock), At(0, Asleep));
    es := FirstOfTwo(st, es + [Post(0, 0)], Sem(0, false, false, 1, 1, 1), PostLock, At(0, Asleep));
    es := FirstOfTwo(st, es, Sem(0, true, false, 1, 1, 1), PostAdd, At(0, Asleep));
    hide Legal, Exec;
    var st' := Two(Sem(1, true, false, 1, 0, 1), At(0, SigLock), At(0, Asleep));
    assert IsAsleep(st', 1, 0) && Those(st'.pcs, AtRecheck(0)) == {};
  }
}
