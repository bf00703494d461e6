/** The scheduler's own code: set_cpu_share, the body of the scheduling loop, the timer branch of
    trap, sys_yield and priority_boost, over the process table and the heap of passes. */
module Scheduler {
  import opened StrideHeap
  import Stride
  import Wheel
  import Mlfq
  import BoostClock

  const NPROC: nat := 64

  datatype ProcState = UNUSED | EMBRYO | SLEEPING | RUNNABLE | RUNNING | ZOMBIE

  /** The fields of struct proc the scheduler uses. `inTimer` is where the process is: between
      the yield and the counting of a timer interrupt. */
  datatype Proc = Proc(
    state: ProcState,
    pass: int, stride: int, portion: int,
    tid: nat, manager: nat,
    level: nat, ticks: nat, runtime: nat, inTimer: bool)

  function AccountOf(p: Proc): Mlfq.Account { Mlfq.Account(p.level, p.ticks, p.runtime, p.inTimer) }

  /** The process whose pass value counts for `i`: its manager if it is a light-weight process. */
  function Manager(procs: seq<Proc>, i: nat): nat
    requires i < |procs|
  {
    if procs[i].tid > 0 then procs[i].manager else i
  }

  function Shares(procs: seq<Proc>, charged: seq<nat>): seq<Stride.Share>
    requires |charged| == |procs|
  {
    seq(|procs|, i requires 0 <= i < |procs| => Stride.Share(procs[i].pass, procs[i].stride, procs[i].portion, charged[i]))
  }

  /** A runnable process under MLFQ. */
  predicate Waiting(p: Proc) { p.state == RUNNABLE && p.pass == -1 }

  /** The slot of the wheel that comes after `count`. */
  function SlotAfter(count: int): int { if count + 1 > 100 then 1 else count + 1 }

  /** Process `i` has to be run in the slot: in a stride slot if the pass of its manager is a least one
      of the heap, in an MLFQ slot if it is under MLFQ and nobody of a smaller level number waits. */
  ghost predicate Eligible(procs: seq<Proc>, s: Stride.State, slot: int, i: nat)
    requires i < |procs| && Manager(procs, i) < |procs|
  {
    if slot <= s.tickets then Stride.IsMin(procs[Manager(procs, i)].pass, s.heap)
    else Waiting(procs[i]) && forall q | 0 <= q < |procs| && Waiting(procs[q]) :: procs[i].level <= procs[q].level
  }

  ghost predicate SomeEligible(procs: seq<Proc>, s: Stride.State, slot: int)
    requires forall i | 0 <= i < |procs| :: procs[i].manager < |procs|
  {
    exists i: nat | i < |procs| :: procs[i].state == RUNNABLE && Eligible(procs, s, slot, i)
  }

  /** How many of the first `n` processes are runnable. */
  function Runnables(procs: seq<Proc>, n: nat): nat
    requires n <= |procs|
  {
    if n == 0 then 0 else Runnables(procs, n - 1) + if procs[n - 1].state == RUNNABLE then 1 else 0
  }

  class Scheduler {
    var proc: seq<Proc>
    const heap: Heap
    var strideTickets: int
    var count: int
    var schedTicks: int
    var ticks: nat                 // the kernel's clock
    ghost var charged: seq<nat>    // dispatches charged to each process since its admission

    ghost predicate Shaped()
      reads this, heap, heap.heap
    {
      && |proc| == NPROC == |charged| && heap.heap.Length == NPROC + 1 && heap.Valid()
      && forall i | 0 <= i < NPROC :: proc[i].manager < NPROC
    }

    /** The state of stride scheduling. */
    ghost function S(): Stride.State
      reads this, heap, heap.heap
      requires Shaped()
    {
      Stride.State(Shares(proc, charged), heap.Contents(), strideTickets)
    }

    ghost function W(): Wheel.State
      reads this
    {
      Wheel.State(count, schedTicks)
    }

    ghost predicate Valid()
      reads this, heap, heap.heap
    {
      Shaped() && Stride.Inv(S())
    }

    constructor ()
      ensures Valid() && Stride.Initial(S()) && Wheel.InRange(W()) && fresh(heap) && fresh(heap.heap)
    {
      var p := Proc(UNUSED, -1, 0, 0, 0, 0, 0, 0, 0, false);
      proc := seq(NPROC, _ => p);
      heap := new Heap(NPROC);
      strideTickets, count, schedTicks, ticks := 0, 0, 0, 0;
      charged := seq(NPROC, _ => 0);
      new;
      Stride.NoneBag(S().shares);
    }

    /** proc.c set_cpu_share, by process `i`. A second call by the same process is carried out too, if
        the heap array has room, and leaves its old pass in the heap. */
    method SetCpuShare(i: nat, percent: int) returns (r: int)
      requires Valid() && i < NPROC && (proc[i].pass == -1 || heap.count < NPROC)
      modifies this`proc, this`strideTickets, this`charged, heap, heap.heap
      ensures Shaped() && r == if percent > 0 && percent + old(strideTickets) <= 80 then 0 else -1
      ensures r == -1 ==> S() == old(S()) && proc == old(proc)
      ensures r == 0 ==> Stride.Admitted(old(S()), S(), i, percent)
      ensures r == 0 && old(proc)[i].pass == -1 ==> Stride.Next(old(S()), Stride.Admit(i, percent), S())
      ensures Valid() <==> r == -1 || old(proc)[i].pass == -1
      ensures forall k | 0 <= k < NPROC :: AccountOf(proc[k]) == AccountOf(old(proc)[k]) && proc[k].state == old(proc)[k].state
    {
      hide Stride.Inv, Stride.Next, Stride.Admitted, Bag, Ordered, Shares;
      if percent <= 0 {
        return -1;
      }
      if percent + strideTickets > 80 {
        return -1;
      }
      ghost var s0 := S();
      SharesAt(proc, charged, i);
      if proc[i].pass == -1 {
        HeapHasRoom(heap, s0, i);
      }
      strideTickets := strideTickets + percent;
      PushLeast();
      var v := heap.heap[1];
      AdmitStep(s0, S().heap, proc, charged, i, percent, v);
      proc := proc[i := proc[i].(pass := v, stride := 1000 / percent, portion := percent)];
      charged := charged[i := 0];
      r := 0;
    }

    /** "if(heap_count == 0) push(0); else push(heap[1]);" */
    method PushLeast()
      requires heap.Valid() && heap.count + 1 < heap.heap.Length
      modifies heap, heap.heap
      ensures heap.Valid() && heap.count >= 1
      ensures heap.Contents() == old(heap.Contents()) + multiset{heap.heap[1]}
      ensures if old(heap.Contents()) == multiset{} then heap.heap[1] == 0
              else Stride.IsMin(heap.heap[1], old(heap.Contents()))
    {
      if heap.count == 0 {
        EmptyBag(heap);
        heap.Push(0);
      } else {
        RootIsMin(heap.heap[..], heap.count);
        heap.Push(heap.heap[1]);
      }
      RootIsMin(heap.heap[..], heap.count);
    }

    /** pop(), then push(pass). */
    method Advance(pass: int)
      requires heap.Valid() && heap.count > 0
      modifies heap, heap.heap
      ensures heap.Valid() && Stride.IsMin(old(heap.heap[1]), old(heap.Contents()))
      ensures heap.Contents() == old(heap.Contents()) - multiset{old(heap.heap[1])} + multiset{pass}
    {
      hide Bag, Ordered;
      var _ := heap.Pop();
      heap.Push(pass);
    }

    /** Charges the process whose pass heads the heap: pop, advance, push. */
    method ChargeLeast(m: nat)
      requires Valid() && m < NPROC && heap.count > 0 && proc[m].pass == heap.heap[1]
      modifies this`proc, this`charged, heap, heap.heap
      ensures Valid() && Stride.Next(old(S()), Stride.Charge(m), S())
      ensures forall k | 0 <= k < NPROC :: AccountOf(proc[k]) == AccountOf(old(proc)[k]) && proc[k].state == old(proc)[k].state
    {
      hide Stride.Inv, Stride.Next, Bag, Ordered, Shares, Stride.IsMin;
      ghost var s0 := S();
      proc := proc[m := proc[m].(pass := proc[m].pass + proc[m].stride)];
      Advance(proc[m].pass);
      ChargeStep(s0, S().heap, old(proc), old(charged), m, proc[m]);
      charged := charged[m := charged[m] + 1];
    }

    /** "for(q = ...) if(q is runnable, under MLFQ, of a higher priority) found = 1" */
    method HigherWaiting(level: nat) returns (found: bool)
      requires |proc| == NPROC
      ensures found <==> exists q | 0 <= q < NPROC :: Waiting(proc[q]) && proc[q].level < level
    {
      found := false;
      var q := 0;
      while q < NPROC
        invariant q <= NPROC && !found
        invariant forall k | 0 <= k < q :: !(Waiting(proc[k]) && proc[k].level < level)
      {
        if proc[q].state == RUNNABLE && proc[q].pass == -1 && proc[q].level < level {
          return true;
        }
        q := q + 1;
      }
    }

    method Dispatch(i: nat)
      requires Valid() && i < NPROC
      modifies this`proc
      ensures Valid() && S() == old(S()) && proc == old(proc)[i := old(proc)[i].(state := RUNNING)]
    {
      ghost var s0 := S();
      proc := proc[i := proc[i].(state := RUNNING)];
      assert S().shares == s0.shares;
    }

    /** Process `i` is running; no other process's state and nobody's accounting has changed. */
    twostate predicate Switched(i: nat)
      reads this
    {
      && |proc| == |old(proc)| && i < |proc| && proc[i].state == RUNNING
      && forall k | 0 <= k < |proc| :: AccountOf(proc[k]) == AccountOf(old(proc)[k]) && (k != i ==> proc[k].state == old(proc)[k].state)
    }

    /** A slot of stride scheduling: taken if the manager of `i` has the least pass. */
    method TryStride(i: nat) returns (ok: bool)
      requires Valid() && i < NPROC
      modifies this`proc, this`charged, heap, heap.heap
      ensures Valid() && ok == old(heap.count > 0 && proc[Manager(proc, i)].pass == heap.heap[1])
      ensures ok <==> Stride.IsMin(old(proc)[Manager(old(proc), i)].pass, old(S()).heap)
      ensures ok ==> Stride.Next(old(S()), Stride.Charge(Manager(old(proc), i)), S()) && Switched(i)
      ensures !ok ==> S() == old(S()) && proc == old(proc)
    {
      hide Stride.Inv, Bag, Ordered, Stride.Next, Shares;
      RootOnly(heap, proc[Manager(proc, i)].pass);
      var mgr := if proc[i].tid > 0 then proc[i].manager else i;
      ok := heap.count > 0 && proc[mgr].pass == heap.heap[1];
      if ok {
        ChargeLeast(mgr);
        Dispatch(i);
      }
    }

    /** A slot of MLFQ: taken by a process under MLFQ when none of a smaller level number waits. */
    method TryMlfq(i: nat) returns (ok: bool)
      requires Valid() && i < NPROC && proc[i].state == RUNNABLE
      modifies this`proc
      ensures Valid() && S() == old(S())
      ensures ok <==> Waiting(old(proc)[i]) && forall q | 0 <= q < NPROC && Waiting(old(proc)[q]) :: old(proc)[i].level <= old(proc)[q].level
      ensures ok ==> Switched(i)
      ensures !ok ==> proc == old(proc)
    {
      hide Stride.Inv, Bag, Ordered, Stride.Next, Shares;
      if proc[i].pass != -1 {
        return false;
      }
      if proc[i].level > 0 {
        var found := HigherWaiting(proc[i].level);
        if found {
          return false;
        }
      }
      Dispatch(i);
      ok := true;
    }

    /** The body of scheduler()'s loop for a runnable process `i`, up to the switch to it. */
    method Consider(i: nat) returns (o: Wheel.Outcome)
      requires Valid() && i < NPROC && proc[i].state == RUNNABLE
      modifies this`proc, this`count, this`schedTicks, this`charged, heap, heap.heap
      ensures Valid() && Wheel.Next(old(W()), strideTickets, o, W())
      ensures o == Wheel.ByStride ==> Stride.Next(old(S()), Stride.Charge(Manager(old(proc), i)), S())
      ensures o != Wheel.ByStride ==> S() == old(S())
      ensures o == Wheel.ByMlfq ==>
                && Waiting(old(proc)[i])
                && forall q | 0 <= q < NPROC && Waiting(old(proc)[q]) :: old(proc)[i].level <= old(proc)[q].level
      ensures if o == Wheel.Skip then proc == old(proc) else Switched(i)
      ensures o == Wheel.Skip <==> old(schedTicks) < 1000 && !Eligible(old(proc), old(S()), SlotAfter(old(count)), i)
      ensures o == Wheel.Skip ==> SlotAfter(count) == SlotAfter(old(count)) && schedTicks == old(schedTicks) + 1
      ensures o == Wheel.Forced <==> old(schedTicks) >= 1000
      ensures old(Wheel.InRange(W())) ==> Wheel.InRange(W())
    {
      hide Stride.Inv, Bag, Ordered, Stride.Next, Shares, Stride.IsMin;
      schedTicks := schedTicks + 1;
      if schedTicks > 1000 {
        schedTicks := 1;
        Dispatch(i);
        return Wheel.Forced;
      }
      count := count + 1;
      if count > 100 {
        count := 1;
      }
      var ok;
      if count <= strideTickets {
        ok := TryStride(i);
        o := Wheel.ByStride;
      } else {
        ok := TryMlfq(i);
        o := Wheel.ByMlfq;
      }
      if !ok {
        count := count - 1;
        o := Wheel.Skip;
      }
    }

    /** The scheduler's walk over the process table up to the first process it runs, or to the end. It
        runs one if and only if some runnable process has to be run in this slot of the wheel or the
        counter of runnable processes passed over comes to 1000 on the way; it passes over nobody who
        has to be run. */
    method Scan() returns (k: nat, o: Wheel.Outcome)
      requires Valid() && Wheel.InRange(W())
      modifies this`proc, this`count, this`schedTicks, this`charged, heap, heap.heap
      ensures Valid() && Wheel.InRange(W()) && k <= NPROC && (k == NPROC <==> o == Wheel.Skip)
      ensures k < NPROC <==>
                || SomeEligible(old(proc), old(S()), SlotAfter(old(count)))
                || old(schedTicks) + Runnables(old(proc), NPROC) > 1000
      ensures k < NPROC && o != Wheel.Forced ==> Eligible(old(proc), old(S()), SlotAfter(old(count)), k)
      ensures k < NPROC ==> old(proc)[k].state == RUNNABLE && Switched(k)
      ensures forall j: nat | j < k && old(proc)[j].state == RUNNABLE :: !Eligible(old(proc), old(S()), SlotAfter(old(count)), j)
      ensures k == NPROC ==> S() == old(S()) && proc == old(proc) && SlotAfter(count) == SlotAfter(old(count))
      ensures SlotAfter(old(count)) > old(strideTickets) && (exists q | 0 <= q < NPROC :: Waiting(old(proc)[q])) ==> k < NPROC
    {
      hide Stride.Inv, Bag, Ordered, Stride.Next, Shares, Eligible, SomeEligible, Wheel.Next, SlotAfter, Runnables, Waiting, Stride.IsMin;
      ghost var s0, slot := S(), SlotAfter(count);
      if slot > strideTickets && exists q | 0 <= q < NPROC :: Waiting(proc[q]) {
        LeastWaiting(proc, s0, slot);
      }
      NoRunnables(proc);
      k, o := 0, Wheel.Skip;
      while k < NPROC
        invariant k <= NPROC && Valid() && o == Wheel.Skip && proc == old(proc) && S() == s0
        invariant strideTickets == old(strideTickets) && SlotAfter(count) == slot
        invariant Wheel.InRange(W()) && schedTicks == old(schedTicks) + Runnables(proc, k)
        invariant forall j: nat | j < k && proc[j].state == RUNNABLE :: !Eligible(proc, s0, slot, j)
      {
        OneRunnable(proc, k);
        if proc[k].state == RUNNABLE {
          RunnablesGrow(proc, k + 1, NPROC);
          o := Consider(k);
          if o != Wheel.Skip {
            EligibleSome(old(proc), s0, slot, k);
            return;
          }
        }
        k := k + 1;
      }
      EligibleSome(proc, s0, slot, 0);
    }

    /** Only the accounting fields of one process change. */
    twostate predicate OnlyAccount(i: nat, a: Mlfq.Account)
      reads this
    {
      i < |old(proc)| && proc == old(proc)[i := old(proc)[i].(level := a.level, ticks := a.ticks, runtime := a.runtime, inTimer := a.midTick)]
    }

    /** trap.c, timer branch, for the running process `i` with tid 0: the decision to yield. */
    method TimerCheck(i: nat) returns (mustYield: bool)
      requires i < |proc| && proc[i].tid == 0 && !proc[i].inTimer && proc[i].level <= 2
      modifies this`proc
      ensures OnlyAccount(i, Mlfq.Next(AccountOf(old(proc)[i]), Mlfq.TickCheck(old(proc)[i].pass != -1)))
      ensures mustYield <==> old(proc)[i].ticks >= if old(proc)[i].pass != -1 then 5 else Mlfq.Quantum(old(proc)[i].level)
    {
      var p := proc[i];
      mustYield := false;
      if p.pass != -1 {
        if p.ticks >= 5 {
          p := p.(ticks := 0, runtime := 0);
          mustYield := true;
        }
      } else if p.ticks >= Mlfq.Quantum(p.level) {
        p := p.(ticks := 0);
        if p.level < 2 && p.runtime >= Mlfq.Allotment(p.level) {
          p := p.(level := p.level + 1, runtime := 0);
        }
        mustYield := true;
      }
      proc := proc[i := p.(inTimer := true)];
    }

    /** trap.c, timer branch: the tick is counted once the process runs on. */
    method TimerCount(i: nat)
      requires i < |proc| && proc[i].inTimer
      modifies this`proc
      ensures OnlyAccount(i, Mlfq.Next(AccountOf(old(proc)[i]), Mlfq.TickCount))
      ensures proc[i].ticks == old(proc)[i].ticks + 1 && proc[i].runtime == old(proc)[i].runtime + 1
    {
      proc := proc[i := proc[i].(ticks := proc[i].ticks + 1, runtime := proc[i].runtime + 1, inTimer := false)];
    }

    /** trap.c, timer branch, for a light-weight process of manager `m`, after its yield. */
    method LwpTimer(m: nat)
      requires m < |proc|
      modifies this`proc
      ensures OnlyAccount(m, Mlfq.Next(AccountOf(old(proc)[m]), Mlfq.LwpCharge))
    {
      proc := proc[m := proc[m].(ticks := proc[m].ticks + 1, runtime := proc[m].runtime + 1)];
    }

    /** sysproc.c sys_yield, up to the yield. */
    method SysYield(i: nat)
      requires i < |proc| && !proc[i].inTimer
      modifies this`proc
      ensures OnlyAccount(i, Mlfq.Next(AccountOf(old(proc)[i]), Mlfq.SysYield))
    {
      var p := proc[i].(ticks := proc[i].ticks + 1, runtime := proc[i].runtime + 1);
      if p.level < 2 && p.runtime >= Mlfq.Allotment(p.level) {
        p := p.(level := p.level + 1, runtime := 0, ticks := 0);
      }
      proc := proc[i := p];
    }

    /** proc.c priority_boost. */
    method PriorityBoost()
      modifies this`proc
      ensures |proc| == old(|proc|)
      ensures forall k | 0 <= k < |proc| :: proc[k] == old(proc)[k].(level := 0, ticks := 0, runtime := 0)
      ensures forall k | 0 <= k < |proc| :: AccountOf(proc[k]) == Mlfq.Next(AccountOf(old(proc)[k]), Mlfq.Boost)
    {
      var i := 0;
      while i < |proc|
        invariant i <= |proc| == old(|proc|)
        invariant forall k | 0 <= k < |proc| ::
                    proc[k] == if k < i then old(proc)[k].(level := 0, ticks := 0, runtime := 0) else old(proc)[k]
      {
        proc := proc[i := proc[i].(level := 0, ticks := 0, runtime := 0)];
        i := i + 1;
      }
    }

    /** trap.c, timer branch on CPU 0: the clock, and the boost it brings at every 200th tick. */
    method ClockTick()
      modifies this`ticks, this`proc
      ensures |proc| == old(|proc|)
      ensures forall k, m: BoostClock.Machine | 0 <= k < |proc| && m.clock == old(ticks) && m.acct == AccountOf(old(proc)[k]) ::
                BoostClock.Advance(m).clock == ticks && BoostClock.Advance(m).acct == AccountOf(proc[k])
      ensures ticks == old(ticks) + 1 && (ticks % 200 != 0 ==> proc == old(proc))
      ensures ticks % 200 == 0 ==> forall k | 0 <= k < |proc| :: proc[k] == old(proc)[k].(level := 0, ticks := 0, runtime := 0)
    {
      ticks := ticks + 1;
      if ticks % 200 == 0 {
        PriorityBoost();
      }
    }
  }

  lemma NoRunnables(procs: seq<Proc>)
    ensures Runnables(procs, 0) == 0
  {
  }

  lemma OneRunnable(procs: seq<Proc>, k: nat)
    requires k < |procs|
    ensures Runnables(procs, k + 1) == Runnables(procs, k) + if procs[k].state == RUNNABLE then 1 else 0
  {
  }

  lemma {:induction false} RunnablesGrow(procs: seq<Proc>, k: nat, n: nat)
    requires k <= n <= |procs|
    ensures Runnables(procs, k) <= Runnables(procs, n)
    decreases n
  {
    if k < n {
      RunnablesGrow(procs, k, n - 1);
    }
  }

  /** Among waiting processes some have the least level number. */
  lemma {:induction false} LeastLevel(procs: seq<Proc>, n: nat) returns (m: nat)
    requires n <= |procs| && exists q | 0 <= q < n :: Waiting(procs[q])
    ensures m < n && Waiting(procs[m]) && forall q | 0 <= q < n && Waiting(procs[q]) :: procs[m].level <= procs[q].level
    decreases n
  {
    if exists q | 0 <= q < n - 1 :: Waiting(procs[q]) {
      m := LeastLevel(procs, n - 1);
      if Waiting(procs[n - 1]) && procs[n - 1].level < procs[m].level {
        m := n - 1;
      }
    } else {
      m := n - 1;
    }
  }

  lemma EligibleSome(procs: seq<Proc>, s: Stride.State, slot: int, k: nat)
    requires k < |procs| && forall i | 0 <= i < |procs| :: procs[i].manager < |procs|
    ensures procs[k].state == RUNNABLE && Eligible(procs, s, slot, k) ==> SomeEligible(procs, s, slot)
    ensures (forall j: nat | j < |procs| && procs[j].state == RUNNABLE :: !Eligible(procs, s, slot, j)) ==> !SomeEligible(procs, s, slot)
  {
    hide Eligible;
  }

  lemma LeastWaiting(procs: seq<Proc>, s: Stride.State, slot: int)
    requires slot > s.tickets && exists q | 0 <= q < |procs| :: Waiting(procs[q])
    requires forall i | 0 <= i < |procs| :: procs[i].manager < |procs|
    ensures SomeEligible(procs, s, slot)
  {
    var m := LeastLevel(procs, |procs|);
    assert Eligible(procs, s, slot, m);
  }

  /** The head of the heap is its only least value. */
  lemma RootOnly(h: Heap, v: int)
    requires h.Valid()
    ensures h.count > 0 && v == h.heap[1] <==> Stride.IsMin(v, h.Contents())
  {
    if h.count == 0 {
      EmptyBag(h);
    } else {
      RootIsMin(h.heap[..], h.count);
    }
  }

  /** The pass at the head of the heap belongs to a process under stride scheduling. */
  lemma LeastInStride(s: Stride.State, m: nat)
    requires Stride.Inv(s) && m < |s.shares| && s.shares[m].pass in s.heap
    ensures Stride.InStride(s.shares[m])
  {
    Stride.BagMember(s.shares, s.shares[m].pass);
  }

  lemma SharesAt(procs: seq<Proc>, charged: seq<nat>, i: nat)
    requires |charged| == |procs| && i < |procs|
    ensures |Shares(procs, charged)| == |procs|
    ensures Shares(procs, charged)[i] == Stride.Share(procs[i].pass, procs[i].stride, procs[i].portion, charged[i])
  {
  }

  lemma SharesUpdate(procs: seq<Proc>, charged: seq<nat>, i: nat, p: Proc, c: nat)
    requires |charged| == |procs| && i < |procs|
    ensures |Shares(procs, charged)| == |procs|
    ensures Shares(procs[i := p], charged[i := c]) == Shares(procs, charged)[i := Stride.Share(p.pass, p.stride, p.portion, c)]
  {
  }

  /** pop, advance and push are one charge. */
  lemma ChargeStep(s: Stride.State, heap': multiset<int>, procs: seq<Proc>, charged: seq<nat>, m: nat, p: Proc)
    requires |charged| == |procs| && m < |procs| && s.shares == Shares(procs, charged) && Stride.Inv(s)
    requires Stride.IsMin(procs[m].pass, s.heap) && p == procs[m].(pass := procs[m].pass + procs[m].stride)
    requires heap' == s.heap - multiset{procs[m].pass} + multiset{p.pass}
    ensures var s' := Stride.State(Shares(procs[m := p], charged[m := charged[m] + 1]), heap', s.tickets);
            Stride.Next(s, Stride.Charge(m), s') && Stride.Inv(s')
  {
    hide Stride.Inv, Shares;
    var s' := Stride.State(Shares(procs[m := p], charged[m := charged[m] + 1]), heap', s.tickets);
    SharesAt(procs, charged, m);
    SharesUpdate(procs, charged, m, p, charged[m] + 1);
    LeastInStride(s, m);
    Stride.ChargeKeepsInv(s, m, s');
  }

  /** The push and the assignments to the process are one admission. */
  lemma AdmitStep(s: Stride.State, heap': multiset<int>, procs: seq<Proc>, charged: seq<nat>, i: nat, percent: int, v: int)
    requires |charged| == |procs| && i < |procs| && s.shares == Shares(procs, charged) && Stride.Inv(s)
    requires percent > 0 && percent + s.tickets <= 80
    requires if s.heap == multiset{} then v == 0 else Stride.IsMin(v, s.heap)
    requires heap' == s.heap + multiset{v}
    ensures var p := procs[i].(pass := v, stride := 1000 / percent, portion := percent);
            var s' := Stride.State(Shares(procs[i := p], charged[i := 0]), heap', s.tickets + percent);
            && Stride.Admitted(s, s', i, percent) && (Stride.Inv(s') <==> procs[i].pass == -1)
            && (procs[i].pass == -1 ==> Stride.Next(s, Stride.Admit(i, percent), s'))
  {
    hide Shares;
    var p := procs[i].(pass := v, stride := 1000 / percent, portion := percent);
    var s' := Stride.State(Shares(procs[i := p], charged[i := 0]), heap', s.tickets + percent);
    SharesAt(procs, charged, i);
    SharesUpdate(procs, charged, i, p, 0);
    Stride.AdmitAgrees(s, s', i, percent);
    if procs[i].pass == -1 {
      Stride.AdmitKeepsInv(s, i, percent, s');
    }
  }

  lemma EmptyBag(h: Heap)
    requires h.Valid() && h.count == 0
    ensures h.Contents() == multiset{}
  {
  }

  lemma {:induction false} BagSize(shares: seq<Stride.Share>)
    ensures |Stride.Bag(shares)| <= |shares|
    ensures (exists i | 0 <= i < |shares| :: !Stride.InStride(shares[i])) ==> |Stride.Bag(shares)| < |shares|
    decreases |shares|
  {
    if shares != [] {
      BagSize(shares[..|shares| - 1]);
    }
  }

  /** At most one entry per process: the heap has room for a process that has none. */
  lemma HeapHasRoom(h: Heap, s: Stride.State, i: nat)
    requires h.Valid() && Stride.Inv(s) && h.Contents() == s.heap && i < |s.shares| && !Stride.InStride(s.shares[i])
    ensures h.count < |s.shares|
  {
    BagSize(s.shares);
    assert |h.Contents()| == h.count;
  }
}
