/** Time accounting of one process under the multi-level feedback queue: its level, the ticks of
    its current quantum and its runtime at the level. */
module Mlfq {

  /** `midTick`: the timer interrupt has decided about yielding, and will count the tick when the
      process runs on. */
  datatype Account = Account(level: nat, ticks: nat, runtime: nat, midTick: bool)

  datatype Event =
    | TickCheck(stride: bool)   // timer interrupt, up to and including yield()
    | TickCount                 // the rest of it
    | SysYield                  // yield() called by the program
    | Boost                     // every 200 ticks
    | LwpCharge                 // a tick of one of the process's light-weight processes

  function Quantum(level: nat): nat { if level == 0 then 5 else if level == 1 then 10 else 20 }
  function Allotment(level: nat): nat { if level == 0 then 20 else 40 }

  const FRESH: Account := Account(0, 0, 0, false)

  predicate Enabled(a: Account, e: Event) {
    match e
    case TickCheck(_) => !a.midTick
    case TickCount => a.midTick
    case SysYield => !a.midTick
    case Boost => true
    case LwpCharge => true
  }

  /** The allotment is used up and there is a lower level to go to. */
  predicate Spent(a: Account) { a.level < 2 && a.runtime >= Allotment(a.level) }

  function Next(a: Account, e: Event): Account {
    match e
    case TickCheck(stride) =>
      var b :=
        if stride then (if a.ticks >= 5 then a.(ticks := 0, runtime := 0) else a)
        else if a.ticks >= Quantum(a.level) then
          (if Spent(a) then a.(level := a.level + 1, ticks := 0, runtime := 0) else a.(ticks := 0))
        else a;
      b.(midTick := true)
    case TickCount => a.(ticks := a.ticks + 1, runtime := a.runtime + 1, midTick := false)
    case SysYield =>
      var b := a.(ticks := a.ticks + 1, runtime := a.runtime + 1);
      if Spent(b) then b.(level := b.level + 1, ticks := 0, runtime := 0) else b
    case Boost => a.(level := 0, ticks := 0, runtime := 0)
    case LwpCharge => a.(ticks := a.ticks + 1, runtime := a.runtime + 1)
  }

  ghost predicate Legal(a: Account, es: seq<Event>)
    decreases |es|
  {
    es == [] || (Enabled(a, es[0]) && Legal(Next(a, es[0]), es[1..]))
  }

  ghost function Exec(a: Account, es: seq<Event>): Account
    requires Legal(a, es)
    decreases |es|
  {
    if es == [] then a else Exec(Next(a, es[0]), es[1..])
  }

  /** Ticks of light-weight processes charged since the last boost, `c` of them before the run. */
  function Charges(es: seq<Event>, c: nat): nat
    decreases |es|
  {
    if es == [] then c else Charges(es[1..], ChargesAfter(es[0], c))
  }

  function ChargesAfter(e: Event, c: nat): nat {
    if e.Boost? then 0 else if e.LwpCharge? then c + 1 else c
  }

  /** What holds between events when `c` ticks of light-weight processes were charged since the last
      boost: the runtime beyond the allotment comes from them and from less than a quantum of the
      process's own. */
  ghost predicate Inv(a: Account, c: nat) {
    && a.level <= 2
    && (a.level < 2 && a.runtime >= Allotment(a.level) ==>
          && a.runtime < Allotment(a.level) + a.ticks + c
          && a.runtime < Allotment(a.level) + Quantum(a.level) + c - (if a.midTick then 1 else 0))
  }

  lemma StepKeepsInv(a: Account, e: Event, c: nat)
    requires Inv(a, c) && Enabled(a, e)
    ensures Inv(Next(a, e), ChargesAfter(e, c))
  {
  }

  /** Over every run the level is 0, 1 or 2, and below level 2 the runtime stays below the allotment
      plus one quantum plus the ticks of light-weight processes charged since the last boost; so
      below allotment plus quantum for a process that has none. */
  lemma {:induction false} RuntimeBound(a: Account, es: seq<Event>, c: nat)
    requires Inv(a, c) && Legal(a, es)
    ensures var b, k := Exec(a, es), Charges(es, c);
            Inv(b, k) && b.level <= 2 && (b.level < 2 ==> b.runtime < Allotment(b.level) + Quantum(b.level) + k)
    decreases |es|
  {
    if es != [] {
      StepKeepsInv(a, es[0], c);
      RuntimeBound(Next(a, es[0]), es[1..], ChargesAfter(es[0], c));
    }
  }

  /** The level moves down the queue one step at a time, only when the allotment of the level is
      used up, and comes back up only by a boost; also with light-weight processes. */
  lemma {:induction false} LevelMoves(a: Account, es: seq<Event>, k: nat)
    requires a.level <= 2 && Legal(a, es) && k < |es|
    ensures PrefixLegal(a, es, k) && PrefixLegal(a, es, k + 1)
    ensures var b, c := Exec(a, es[..k]), Exec(a, es[..k + 1]);
            && b.level <= 2 && c == Next(b, es[k])
            && (c.level > b.level ==> c.level == b.level + 1 && c.runtime == 0)
            && (c.level > b.level ==> b.runtime + (if es[k].SysYield? then 1 else 0) >= Allotment(b.level))
            && (c.level < b.level ==> es[k].Boost? && c.level == 0)
    decreases |es|
  {
    if k > 0 {
      LevelMoves(Next(a, es[0]), es[1..], k - 1);
      assert es[..k][1..] == es[1..][..k - 1];
      assert es[..k + 1][1..] == es[1..][..k];
    } else {
      assert es[..1][1..] == [];
    }
  }

  ghost predicate PrefixLegal(a: Account, es: seq<Event>, k: nat) {
    k <= |es| && Legal(a, es[..k])
  }

  // ---------------------------------------------------------------- nothing is lost in between

  /** The events that cost the process a tick. */
  predicate Costs(e: Event) { e.TickCount? || e.SysYield? || e.LwpCharge? }

  function Counted(es: seq<Event>): nat {
    if es == [] then 0 else (if Costs(es[0]) then 1 else 0) + Counted(es[1..])
  }

  /** The process's own among them. */
  function Own(es: seq<Event>): nat {
    if es == [] then 0 else (if es[0].TickCount? || es[0].SysYield? then 1 else 0) + Own(es[1..])
  }

  function TickCounts(es: seq<Event>): nat {
    if es == [] then 0 else (if es[0].TickCount? then 1 else 0) + TickCounts(es[1..])
  }

  /** The timer interrupt makes the process give up the CPU. */
  predicate MustYield(a: Account, stride: bool) { a.ticks >= if stride then 5 else Quantum(a.level) }

  /** The runtime starts again from nothing: a boost, a demotion, or the end of a stride slice. */
  predicate Restarts(a: Account, e: Event) {
    match e
    case TickCheck(stride) => MustYield(a, stride) && (stride || Spent(a))
    case TickCount => false
    case SysYield => Spent(a.(runtime := a.runtime + 1))
    case Boost => true
    case LwpCharge => false
  }

  /** No event of the run restarts the runtime. */
  ghost predicate Unbroken(a: Account, es: seq<Event>)
    requires Legal(a, es)
    decreases |es|
  {
    es == [] || (!Restarts(a, es[0]) && Unbroken(Next(a, es[0]), es[1..]))
  }

  /** Nor does any end a quantum. */
  ghost predicate NoYield(a: Account, es: seq<Event>)
    requires Legal(a, es)
    decreases |es|
  {
    es == [] || (!(es[0].TickCheck? && MustYield(a, es[0].stride)) && NoYield(Next(a, es[0]), es[1..]))
  }

  /** Where the runtime restarts, it restarts from zero. */
  lemma RestartsAtZero(a: Account, e: Event)
    requires Restarts(a, e)
    ensures Next(a, e).runtime == 0 && Next(a, e).ticks == 0 && (e.Boost? ==> Next(a, e).level == 0)
  {
  }

  /** Between two restarts the runtime is the number of ticks the process and its light-weight
      processes were charged, and the level stays. */
  lemma {:induction false} RuntimeCounts(a: Account, es: seq<Event>)
    requires Legal(a, es) && Unbroken(a, es)
    ensures Exec(a, es).runtime == a.runtime + Counted(es) && Exec(a, es).level == a.level
    ensures NoYield(a, es) ==> Exec(a, es).ticks == a.ticks + Counted(es)
    decreases |es|
  {
    if es != [] {
      RuntimeCounts(Next(a, es[0]), es[1..]);
    }
  }

  /** Every event is under MLFQ, and none is a boost. */
  ghost predicate Plain(es: seq<Event>) { forall e <- es :: !e.Boost? && !(e.TickCheck? && e.stride) }

  /** Without a boost the level never goes back, and while it stays the runtime is not restarted. */
  lemma {:induction false} LevelStays(a: Account, es: seq<Event>)
    requires Legal(a, es) && Plain(es)
    ensures Exec(a, es).level >= a.level
    ensures Exec(a, es).level == a.level ==> Unbroken(a, es)
    decreases |es|
  {
    if es != [] {
      assert es[0] in es && forall e <- es[1..] :: e in es;
      LevelStays(Next(a, es[0]), es[1..]);
    }
  }

  lemma {:induction false} OwnAndCharges(es: seq<Event>, c: nat)
    requires Plain(es)
    ensures Counted(es) + c == Own(es) + Charges(es, c)
    decreases |es|
  {
    if es != [] {
      assert es[0] in es && forall e <- es[1..] :: e in es;
      OwnAndCharges(es[1..], ChargesAfter(es[0], c));
    }
  }

  /** A process cannot stay: without a boost it is at a lower level after at most allotment plus
      quantum ticks of its own, whatever its light-weight processes do. */
  lemma DemotedInTime(a: Account, es: seq<Event>)
    requires Inv(a, 0) && a.level < 2 && Legal(a, es) && Plain(es)
    requires Own(es) >= Allotment(a.level) + Quantum(a.level)
    ensures Exec(a, es).level > a.level
  {
    LevelStays(a, es);
    if Exec(a, es).level == a.level {
      RuntimeCounts(a, es);
      RuntimeBound(a, es, 0);
      OwnAndCharges(es, 0);
      assert false;
    }
  }

  /** All timer checks of the run are under stride scheduling, or all under MLFQ. */
  ghost predicate Uniform(es: seq<Event>, stride: bool) { forall e <- es :: e.TickCheck? ==> e.stride == stride }

  function Slice(a: Account, stride: bool): nat { if stride then 5 else Quantum(a.level) }

  /** Between two yields that the timer forces there are at most a quantum of timer ticks, or 5 under
      stride scheduling. */
  lemma {:induction false} YieldsInTime(a: Account, es: seq<Event>, stride: bool)
    requires Legal(a, es) && Uniform(es, stride) && NoYield(a, es) && Unbroken(a, es)
    ensures TickCounts(es) > 0 ==>
              a.ticks + TickCounts(es) <= Slice(a, stride) || (a.midTick && TickCounts(es) == 1)
    decreases |es|
  {
    if es != [] {
      assert es[0] in es && forall e <- es[1..] :: e in es;
      YieldsInTime(Next(a, es[0]), es[1..], stride);
    }
  }

  // ---------------------------------------------------------------- a process that only computes

  /** `n` timer interrupts, each followed by the process running on. */
  function Timers(n: nat): seq<Event> { if n == 0 then [] else [TickCheck(false), TickCount] + Timers(n - 1) }

  /** Ticks into the quantum after `m` ticks at a level of quantum `q`. */
  function Into(m: nat, q: nat): nat {
    if m == 0 then 0 else if Into(m - 1, q) == q then 1 else Into(m - 1, q) + 1
  }

  /** The account after `n` ticks and nothing else: 20 of them at level 0, 40 at level 1. */
  function Alone(n: nat): Account {
    if n <= 20 then Account(0, Into(n, 5), n, false)
    else if n <= 60 then Account(1, Into(n - 20, 10), n - 20, false)
    else Account(2, Into(n - 60, 20), n - 60, false)
  }

  lemma {:induction false} IntoNext(m: nat, q: nat)
    requires q > 0
    ensures Into(m + 1, q) == if Into(m, q) >= q then 1 else Into(m, q) + 1
    ensures Into(m, q) <= q
    decreases m
  {
    if m > 0 {
      IntoNext(m - 1, q);
    }
  }

  lemma AloneStep(k: nat)
    ensures Next(Next(Alone(k), TickCheck(false)), TickCount) == Alone(k + 1) && !Alone(k).midTick
  {
    hide Into;
    if k <= 20 {
      IntoNext(k, 5);
    } else if k <= 60 {
      IntoNext(k - 20, 10);
    } else {
      IntoNext(k - 60, 20);
    }
    IntoOne();
  }

  /** A quantum after the end of one it ends again. */
  lemma {:induction false} IntoRound(m: nat, q: nat, j: nat)
    requires (m == 0 || Into(m, q) == q) && 0 < j <= q
    ensures Into(m + j, q) == j
    decreases j
  {
    if j > 1 {
      IntoRound(m, q, j - 1);
    }
  }

  lemma IntoOne()
    ensures Into(1, 5) == 1 && Into(1, 10) == 1 && Into(1, 20) == 1 && Into(20, 5) == 5 && Into(40, 10) == 10
  {
    hide Into;
    IntoRound(0, 5, 1);
    IntoRound(0, 10, 1);
    IntoRound(0, 20, 1);
    IntoRound(0, 5, 5);
    IntoRound(5, 5, 5);
    IntoRound(10, 5, 5);
    IntoRound(15, 5, 5);
    IntoRound(0, 10, 10);
    IntoRound(10, 10, 10);
    IntoRound(20, 10, 10);
    IntoRound(30, 10, 10);
  }

  /** A process that is only interrupted by the timer runs exactly 20 ticks at level 0, 40 at level 1,
      and the rest at level 2. */
  lemma {:induction false} TimerRun(k: nat, n: nat)
    ensures Legal(Alone(k), Timers(n)) && Exec(Alone(k), Timers(n)) == Alone(k + n)
    decreases n
  {
    hide Alone, Next;
    if n > 0 {
      var a, a1 := Alone(k), Next(Alone(k), TickCheck(false));
      AloneStep(k);
      MidTick(a);
      TimerRun(k + 1, n - 1);
      assert Timers(n)[1..] == [TickCount] + Timers(n - 1) && Timers(n)[1..][1..] == Timers(n - 1);
      assert Legal(a1, Timers(n)[1..]);
    }
  }

  lemma MidTick(a: Account)
    ensures Next(a, TickCheck(false)).midTick
  {
  }
}
