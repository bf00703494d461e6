/** The clock behind the accounting of one process and its light-weight processes: timer interrupts
    on several CPUs, the boost at every 200th tick of CPU 0, and the ticks of light-weight processes,
    which are charged to the process only when the light-weight process runs on after its yield. */
module BoostClock {
  import M = Mlfq

  const PERIOD: nat := 200

  /** Whom a timer interrupt finds running. */
  datatype Who = Own(stride: bool) | Lwp | Elsewhere

  datatype Machine = Machine(
    ncpu: nat,            // CPUs; the timers of all run at one rate
    nlwp: nat,            // light-weight processes of this process
    acct: M.Account,
    clock: nat,           // the kernel's ticks
    others: nat,          // timer interrupts on CPUs other than 0 since the last tick
    parked: nat,          // light-weight processes inside the yield of their timer interrupt
    charged: nat)         // ticks of theirs charged since the last boost

  datatype Event =
    | Tick(who: Who)      // timer interrupt on CPU 0
    | Timer(who: Who)     // timer interrupt on another CPU
    | Resume              // the process runs on after its own timer interrupt
    | Charge              // a light-weight process runs on after its yield
    | Yield               // the process calls yield()

  // ---------------------------------------------------------------- the steps

  predicate Finds(m: Machine, who: Who) {
    match who
    case Own(_) => !m.acct.midTick
    case Lwp => m.parked < m.nlwp
    case Elsewhere => true
  }

  predicate Enabled(m: Machine, e: Event) {
    match e
    case Tick(who) => Finds(m, who)
    case Timer(who) => m.others + 1 < m.ncpu && Finds(m, who)
    case Resume => m.acct.midTick
    case Charge => m.parked > 0
    case Yield => !m.acct.midTick
  }

  /** The part of the timer interrupt that depends on who was running. */
  function Interrupt(m: Machine, who: Who): Machine {
    match who
    case Own(stride) => m.(acct := M.Next(m.acct, M.TickCheck(stride)))
    case Lwp => m.(parked := m.parked + 1)
    case Elsewhere => m
  }

  /** ticks++ and the boost it may bring. */
  function Advance(m: Machine): Machine {
    var m' := m.(clock := m.clock + 1, others := 0);
    if m'.clock % PERIOD == 0 then m'.(acct := M.Next(m.acct, M.Boost), charged := 0) else m'
  }

  function Next(m: Machine, e: Event): Machine
    requires Enabled(m, e)
  {
    match e
    case Tick(who) => Interrupt(Advance(m), who)
    case Timer(who) => Interrupt(m.(others := m.others + 1), who)
    case Resume => m.(acct := M.Next(m.acct, M.TickCount))
    case Charge => m.(acct := M.Next(m.acct, M.LwpCharge), parked := m.parked - 1, charged := m.charged + 1)
    case Yield => m.(acct := M.Next(m.acct, M.SysYield))
  }

  function Start(ncpu: nat, nlwp: nat): Machine { Machine(ncpu, nlwp, M.FRESH, 0, 0, 0, 0) }

  ghost predicate Legal(m: Machine, es: seq<Event>)
    decreases |es|
  {
    es == [] || (Enabled(m, es[0]) && Legal(Next(m, es[0]), es[1..]))
  }

  ghost function Exec(m: Machine, es: seq<Event>): Machine
    requires Legal(m, es)
    decreases |es|
  {
    if es == [] then m else Exec(Next(m, es[0]), es[1..])
  }

  // ---------------------------------------------------------------- what every run keeps

  /** How many charges the timer interrupts since the boost allow. */
  function Room(m: Machine): nat { m.nlwp + (m.clock % PERIOD) * m.ncpu + 1 + m.others }

  /** Each charge needs a timer interrupt since the boost, or a light-weight process parked then. */
  ghost predicate Inv(m: Machine) {
    && M.Inv(m.acct, m.charged) && m.others < m.ncpu && m.parked <= m.nlwp
    && m.charged + m.parked <= Room(m)
    && (m.nlwp == 0 ==> m.charged == 0)
  }

  lemma AdvanceKeepsInv(m: Machine)
    requires Inv(m)
    ensures var m' := Advance(m);
            && M.Inv(m'.acct, m'.charged) && m'.others == 0 && m'.parked == m.parked && m'.ncpu == m.ncpu && m'.nlwp == m.nlwp
            && m'.charged + m'.parked + 1 <= Room(m')
            && (m.nlwp == 0 ==> m'.charged == 0) && m'.acct.midTick == m.acct.midTick
  {
    RoomGrows(m);
    hide Room;
    M.StepKeepsInv(m.acct, M.Boost, m.charged);
  }

  /** A tick makes room for one more charge, unless it boosts; then only the parked ones count. */
  lemma RoomGrows(m: Machine)
    requires m.others < m.ncpu
    ensures (m.clock + 1) % PERIOD != 0 ==> Room(m) + 1 <= Room(Advance(m))
    ensures m.nlwp + 1 <= Room(Advance(m))
  {
    var t := m.clock % PERIOD;
    if (m.clock + 1) % PERIOD != 0 {
      assert (m.clock + 1) % PERIOD == t + 1;
      assert (t + 1) * m.ncpu == t * m.ncpu + m.ncpu;
    }
  }

  lemma RoomBound(m: Machine)
    requires m.others < m.ncpu
    ensures Room(m) <= m.nlwp + PERIOD * m.ncpu
  {
    var t := m.clock % PERIOD;
    AtMostPeriod(t, m.ncpu);
  }

  lemma AtMostPeriod(t: nat, ncpu: nat)
    requires t < PERIOD
    ensures t * ncpu <= (PERIOD - 1) * ncpu
  {
  }

  lemma StepKeepsInv(m: Machine, e: Event)
    requires Inv(m) && Enabled(m, e)
    ensures Inv(Next(m, e)) && Next(m, e).ncpu == m.ncpu && Next(m, e).nlwp == m.nlwp
  {
    if e.Tick? {
      AdvanceKeepsInv(m);
      hide Advance, Room;
    }
  }

  lemma {:induction false} RunKeepsInv(m: Machine, es: seq<Event>)
    requires Inv(m) && Legal(m, es)
    ensures Inv(Exec(m, es)) && Exec(m, es).ncpu == m.ncpu && Exec(m, es).nlwp == m.nlwp
    decreases |es|
  {
    if es != [] {
      StepKeepsInv(m, es[0]);
      RunKeepsInv(Next(m, es[0]), es[1..]);
    }
  }

  /** The runtime is below allotment plus quantum while there is a lower level to go to. */
  predicate Within(a: M.Account) {
    a.level < 2 ==> a.runtime < M.Allotment(a.level) + M.Quantum(a.level)
  }

  /** With light-weight processes the runtime still has a bound, which the boost brings: what one
      period of timer interrupts on all CPUs, and those parked when it began, can charge. */
  lemma LwpBound(ncpu: nat, nlwp: nat, es: seq<Event>)
    requires ncpu >= 1 && Legal(Start(ncpu, nlwp), es)
    ensures var a := Exec(Start(ncpu, nlwp), es).acct;
            && a.level <= 2
            && (a.level < 2 ==> a.runtime < M.Allotment(a.level) + M.Quantum(a.level) + nlwp + PERIOD * ncpu)
            && (nlwp == 0 ==> Within(a))
  {
    RunKeepsInv(Start(ncpu, nlwp), es);
    RoomBound(Exec(Start(ncpu, nlwp), es));
  }

  // ---------------------------------------------------------------- within one period

  /** One light-weight process alone on CPU 0: interrupted at every tick, and run on again. */
  function Alone(n: nat): seq<Event> { if n == 0 then [] else [Tick(Lwp), Charge] + Alone(n - 1) }

  lemma {:induction false} AloneRun(m: Machine, n: nat)
    requires m.parked == 0 < m.nlwp && m.clock + n < PERIOD
    ensures Legal(m, Alone(n))
    ensures Exec(m, Alone(n)).acct == m.acct.(ticks := m.acct.ticks + n, runtime := m.acct.runtime + n)
    decreases n
  {
    if n > 0 {
      var m1 := Next(m, Tick(Lwp));
      var m2 := Next(m1, Charge);
      AloneRun(m2, n - 1);
      assert Alone(n)[1..] == [Charge] + Alone(n - 1) && Alone(n)[1..][1..] == Alone(n - 1);
      assert Legal(m1, Alone(n)[1..]);
    }
  }

  /** Every run keeps the runtime below allotment plus quantum if and only if the process has no
      light-weight processes. */
  lemma WithinIffNoLwps(ncpu: nat, nlwp: nat)
    requires ncpu >= 1
    ensures (forall es | Legal(Start(ncpu, nlwp), es) :: Within(Exec(Start(ncpu, nlwp), es).acct)) <==> nlwp == 0
  {
    if nlwp == 0 {
      forall es | Legal(Start(ncpu, nlwp), es)
        ensures Within(Exec(Start(ncpu, nlwp), es).acct)
      {
        LwpBound(ncpu, nlwp, es);
      }
    } else {
      AloneRun(Start(ncpu, nlwp), 25);
      assert !Within(Exec(Start(ncpu, nlwp), Alone(25)).acct);
    }
  }

  // ---------------------------------------------------------------- the machine and the accounting

  /** What an event of the machine does to the account of the process. */
  function Accounting(m: Machine, e: Event): seq<M.Event> {
    match e
    case Tick(who) =>
      (if (m.clock + 1) % 200 == 0 then [M.Boost] else []) + if who.Own? then [M.TickCheck(who.stride)] else []
    case Timer(who) => if who.Own? then [M.TickCheck(who.stride)] else []
    case Resume => [M.TickCount]
    case Charge => [M.LwpCharge]
    case Yield => [M.SysYield]
  }

  /** Every event of the machine is a legal run of the accounting. */
  lemma StepIsAccounting(m: Machine, e: Event)
    requires Enabled(m, e)
    ensures M.Legal(m.acct, Accounting(m, e)) && M.Exec(m.acct, Accounting(m, e)) == Next(m, e).acct
  {
    var es := Accounting(m, e);
    if |es| == 1 {
      OneEvent(m.acct, es[0]);
      assert es == [es[0]];
    } else if |es| == 2 {
      TwoEvents(m.acct, es[0], es[1]);
      assert es == [es[0], es[1]];
    }
  }

  lemma OneEvent(a: M.Account, e: M.Event)
    ensures M.Enabled(a, e) ==> M.Legal(a, [e]) && M.Exec(a, [e]) == M.Next(a, e)
  {
    assert [e][1..] == [];
  }

  lemma TwoEvents(a: M.Account, e: M.Event, f: M.Event)
    ensures M.Enabled(a, e) && M.Enabled(M.Next(a, e), f) ==>
              M.Legal(a, [e, f]) && M.Exec(a, [e, f]) == M.Next(M.Next(a, e), f)
  {
    OneEvent(M.Next(a, e), f);
    assert [e, f][1..] == [f];
  }

  /** The process alone on CPU 0: interrupted at every tick, and run on. */
  function Busy(n: nat): seq<Event> { if n == 0 then [] else [Tick(Own(false)), Resume] + Busy(n - 1) }

  /** Its account `n` ticks after the kernel started: that of a process that only computes, started anew
      at every 200th tick. */
  function BusyAccount(n: nat): M.Account { if n < 200 then M.Alone(n) else M.Alone(n % 200 + 1) }

  lemma BusyStep(m: Machine)
    requires m.acct == BusyAccount(m.clock)
    ensures var m1 := Next(m, Tick(Own(false)));
            && Enabled(m, Tick(Own(false))) && Enabled(m1, Resume)
            && Next(m1, Resume) == m.(clock := m.clock + 1, others := 0, acct := BusyAccount(m.clock + 1), charged := Next(m1, Resume).charged)
  {
    hide M.Alone, M.Next, M.Into;
    var k := if m.clock < 200 then m.clock else m.clock % 200 + 1;
    var a := M.Alone(k);
    M.AloneStep(k);
    M.AloneStep(0);
    M.MidTick(a);
    M.MidTick(M.FRESH);
    BoostFresh(a);
    ClockStep(m.clock);
  }

  lemma BoostFresh(a: M.Account)
    requires !a.midTick
    ensures M.Next(a, M.Boost) == M.FRESH == M.Alone(0)
  {
  }

  lemma ClockStep(n: nat)
    ensures (n + 1) % 200 == if n % 200 == 199 then 0 else n % 200 + 1
  {
  }

  /** Every 200 ticks a process that only computes is back at level 0, and goes down again. */
  lemma {:induction false} BusyRun(m: Machine, n: nat)
    requires m.acct == BusyAccount(m.clock)
    ensures Legal(m, Busy(n)) && Exec(m, Busy(n)).acct == BusyAccount(m.clock + n)
    decreases n
  {
    hide BusyAccount, Enabled, Next;
    if n > 0 {
      var m1 := NextOf(m, Tick(Own(false)));
      BusyStep(m);
      var m2 := NextOf(m1, Resume);
      BusyRun(m2, n - 1);
      assert Busy(n)[1..] == [Resume] + Busy(n - 1) && Busy(n)[1..][1..] == Busy(n - 1);
      assert Legal(m1, Busy(n)[1..]);
    }
  }

  function NextOf(m: Machine, e: Event): Machine { if Enabled(m, e) then Next(m, e) else m }

  // ---------------------------------------------------------------- the bound is nearly reached

  /** One round of timer interrupts on CPUs 1 to `c`, each finding a light-weight process. */
  function Round(c: nat): seq<Event> { if c == 0 then [] else [Timer(Lwp), Charge] + Round(c - 1) }

  lemma {:induction false} RoundRun(m: Machine, c: nat)
    requires m.parked == 0 < m.nlwp && m.others + c < m.ncpu
    ensures Legal(m, Round(c))
    ensures Exec(m, Round(c)) == m.(others := m.others + c, charged := m.charged + c,
                                    acct := m.acct.(ticks := m.acct.ticks + c, runtime := m.acct.runtime + c))
    decreases c
  {
    if c > 0 {
      var m1 := Next(m, Timer(Lwp));
      var m2 := Next(m1, Charge);
      RoundRun(m2, c - 1);
      assert Round(c)[1..] == [Charge] + Round(c - 1) && Round(c)[1..][1..] == Round(c - 1);
      assert Legal(m1, Round(c)[1..]);
    }
  }

  /** `n` ticks with a light-weight process running on every CPU. */
  function Loaded(ncpu: nat, n: nat): seq<Event>
    requires ncpu >= 1
  {
    if n == 0 then [] else [Tick(Lwp), Charge] + Round(ncpu - 1) + Loaded(ncpu, n - 1)
  }

  lemma {:induction false} ExecAdd(m: Machine, a: seq<Event>, b: seq<Event>)
    requires Legal(m, a) && Legal(Exec(m, a), b)
    ensures Legal(m, a + b) && Exec(m, a + b) == Exec(Exec(m, a), b)
    decreases |a|
  {
    if a == [] {
      assert a + b == b;
    } else {
      ExecAdd(Next(m, a[0]), a[1..], b);
      assert (a + b)[1..] == a[1..] + b;
    }
  }

  lemma FirstOf(m: Machine)
    requires m.parked == 0 < m.nlwp && (m.clock + 1) % PERIOD != 0
    ensures Legal(m, [Tick(Lwp), Charge])
    ensures Exec(m, [Tick(Lwp), Charge]) == m.(clock := m.clock + 1, others := 0, charged := m.charged + 1,
                                               acct := m.acct.(ticks := m.acct.ticks + 1, runtime := m.acct.runtime + 1))
  {
    var es := [Tick(Lwp), Charge];
    assert es[1..] == [Charge] && es[1..][1..] == [];
    assert Legal(Next(m, es[0]), es[1..]);
  }

  /** Within a boost period every tick of every CPU can be charged to one process, so the bound of
      `LwpBound` is off by no more than the allotment, the quantum, the parked ones and one round. */
  lemma {:induction false} LoadedRun(m: Machine, n: nat)
    requires m.parked == 0 < m.nlwp && m.ncpu >= 1 && m.clock + n < PERIOD
    ensures Legal(m, Loaded(m.ncpu, n))
    ensures Exec(m, Loaded(m.ncpu, n)).acct.runtime == m.acct.runtime + n * m.ncpu
    decreases n
  {
    hide Next, Enabled;
    if n > 0 {
      FirstOf(m);
      var m1 := Exec(m, [Tick(Lwp), Charge]);
      RoundRun(m1, m.ncpu - 1);
      ExecAdd(m, [Tick(Lwp), Charge], Round(m.ncpu - 1));
      var m2 := Exec(m1, Round(m.ncpu - 1));
      LoadedRun(m2, n - 1);
      ExecAdd(m, [Tick(Lwp), Charge] + Round(m.ncpu - 1), Loaded(m.ncpu, n - 1));
      assert n * m.ncpu == (n - 1) * m.ncpu + m.ncpu;
    }
  }
}
