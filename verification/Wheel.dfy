/** The 100-slot wheel that divides dispatches between stride scheduling and MLFQ, and the
    counter that forces a dispatch. */
module Wheel {

  const SLOTS: int := 100
  const FORCE: int := 1000

  /** What the scheduler does with a runnable process it comes to. */
  datatype Outcome = Forced | ByStride | ByMlfq | Skip

  datatype State = State(count: int, ticks: int)

  /** The scheduler's two counters over one runnable process: sched_ticks first, then count, which
      a process that is passed over gives back. */
  predicate Next(w: State, tickets: int, o: Outcome, w': State) {
    if w.ticks + 1 > FORCE then o == Forced && w' == State(w.count, 1)
    else
      var c := if w.count + 1 > SLOTS then 1 else w.count + 1;
      && w'.ticks == w.ticks + 1
      && match o
         case Forced => false
         case ByStride => c <= tickets && w'.count == c
         case ByMlfq => c > tickets && w'.count == c
         case Skip => w'.count == c - 1
  }

  ghost predicate Run(ws: seq<State>, os: seq<Outcome>, tickets: int) {
    && |ws| == |os| + 1 && 0 <= tickets <= SLOTS
    && InRange(ws[0])
    && forall k | 0 <= k < |os| :: Next(ws[k], tickets, os[k], ws[k + 1])
  }

  /** The dispatches that were not forced, in order. */
  function Dispatches(os: seq<Outcome>): (ds: seq<Outcome>) {
    if os == [] then []
    else
      var o := os[|os| - 1];
      Dispatches(os[..|os| - 1]) + if IsDispatch(o) then [o] else []
  }

  /** The slot of the wheel, 0 to 99, that the n-th dispatch of a run fills. */
  function Slot(count: int, n: int): int { (count + n) % SLOTS }

  ghost predicate InRange(w: State) { 0 <= w.count <= SLOTS && 0 <= w.ticks <= FORCE }

  predicate IsDispatch(o: Outcome) { o == ByStride || o == ByMlfq }

  /** One process: the slot it would fill decides its kind, and only a dispatch uses it up. */
  lemma StepSlot(w: State, tickets: int, o: Outcome, w': State, count0: int, n: int)
    requires Next(w, tickets, o, w') && InRange(w) && 0 <= tickets <= SLOTS && w.count % SLOTS == Slot(count0, n)
    ensures InRange(w')
    ensures w'.count % SLOTS == Slot(count0, if IsDispatch(o) then n + 1 else n)
    ensures IsDispatch(o) ==> o == if Slot(count0, n) < tickets then ByStride else ByMlfq
  {
  }

  ghost predicate Can(w: State, tickets: int, o: Outcome) { exists w' :: Next(w, tickets, o, w') }

  /** Every slot is open to exactly one kind of dispatch, unless a dispatch is forced. */
  lemma SlotOpen(w: State, tickets: int)
    requires InRange(w) && 0 <= tickets <= SLOTS
    ensures Can(w, tickets, Forced) <==> w.ticks == 1000
    ensures w.ticks < 1000 ==> (Can(w, tickets, ByStride) <==> !Can(w, tickets, ByMlfq)) && Can(w, tickets, Skip)
  {
    var c := if w.count + 1 > SLOTS then 1 else w.count + 1;
    assert Next(w, tickets, Forced, State(w.count, 1)) <==> w.ticks == 1000;
    assert w.ticks < 1000 && c <= tickets ==> Next(w, tickets, ByStride, State(c, w.ticks + 1));
    assert w.ticks < 1000 && c > tickets ==> Next(w, tickets, ByMlfq, State(c, w.ticks + 1));
    assert w.ticks < 1000 ==> Next(w, tickets, Skip, State(c - 1, w.ticks + 1));
  }

  lemma {:induction false} CountTracks(ws: seq<State>, os: seq<Outcome>, tickets: int)
    requires Run(ws, os, tickets)
    ensures InRange(ws[|os|])
    ensures ws[|os|].count % SLOTS == Slot(ws[0].count, |Dispatches(os)|)
    ensures forall n | 0 <= n < |Dispatches(os)| ::
              Dispatches(os)[n] == if Slot(ws[0].count, n) < tickets then ByStride else ByMlfq
    decreases |os|
  {
    hide Next, Slot;
    if os != [] {
      var k := |os| - 1;
      CountTracks(ws[..k + 1], os[..k], tickets);
      StepSlot(ws[k], tickets, os[k], ws[k + 1], ws[0].count, |Dispatches(os[..k])|);
    } else {
      SlotZero(ws[0].count);
    }
  }

  lemma SlotZero(count: int)
    ensures Slot(count, 0) == count % SLOTS
  {
  }

  function Count(ds: seq<Outcome>): nat {
    if ds == [] then 0 else Count(ds[..|ds| - 1]) + if ds[|ds| - 1] == ByStride then 1 else 0
  }

  /** How many of the slots a, a+1, .., a+n-1 round the wheel are below `tickets`. */
  function Below(a: int, n: nat, tickets: int): nat {
    if n == 0 then 0 else Below(a, n - 1, tickets) + if (a + n - 1) % SLOTS < tickets then 1 else 0
  }

  lemma {:induction false} BelowFront(a: int, n: nat, tickets: int)
    requires n >= 1
    ensures Below(a, n, tickets) == (if a % SLOTS < tickets then 1 else 0) + Below(a + 1, n - 1, tickets)
    decreases n
  {
    if n > 1 {
      BelowFront(a, n - 1, tickets);
    }
  }

  lemma {:induction false} BelowStart(n: nat, tickets: int)
    requires n <= SLOTS && 0 <= tickets <= SLOTS
    ensures Below(0, n, tickets) == if n < tickets then n else tickets
    decreases n
  {
    if n > 0 {
      BelowStart(n - 1, tickets);
    }
  }

  /** A full turn meets every slot once, wherever it starts. */
  lemma {:induction false} FullTurn(a: int, tickets: int)
    requires 0 <= a && 0 <= tickets <= SLOTS
    ensures Below(a, SLOTS, tickets) == tickets
    decreases a
  {
    hide Below;
    if a == 0 {
      BelowStart(SLOTS, tickets);
    } else {
      FullTurn(a - 1, tickets);
      BelowFront(a - 1, SLOTS, tickets);
      SameSlot(a - 1);
      BelowLast(a, SLOTS, tickets);
    }
  }

  lemma BelowLast(a: int, n: nat, tickets: int)
    requires n >= 1
    ensures Below(a, n, tickets) == Below(a, n - 1, tickets) + if (a + n - 1) % SLOTS < tickets then 1 else 0
  {
  }

  lemma SameSlot(a: int)
    ensures (a + SLOTS) % SLOTS == a % SLOTS
  {
  }

  lemma {:induction false} CountIsBelow(ds: seq<Outcome>, a: int, tickets: int)
    requires forall n | 0 <= n < |ds| :: ds[n] == if (a + n) % SLOTS < tickets then ByStride else ByMlfq
    ensures Count(ds) == Below(a, |ds|, tickets)
    decreases |ds|
  {
    if ds != [] {
      CountIsBelow(ds[..|ds| - 1], a, tickets);
    }
  }

  /** Any 100 consecutive dispatches that are not forced contain exactly `tickets` stride
      dispatches, the others being MLFQ, however often processes were passed over. */
  lemma WheelShare(ws: seq<State>, os: seq<Outcome>, tickets: int, n: nat)
    requires Run(ws, os, tickets) && n + 100 <= |Dispatches(os)|
    ensures Count(Dispatches(os)[n..n + 100]) == tickets
    ensures forall k | n <= k < n + 100 :: Dispatches(os)[k] == ByStride || Dispatches(os)[k] == ByMlfq
  {
    CountTracks(ws, os, tickets);
    CountIsBelow(Dispatches(os)[n..n + SLOTS], ws[0].count + n, tickets);
    FullTurn(ws[0].count + n, tickets);
  }

  lemma {:induction false} TicksRise(ws: seq<State>, os: seq<Outcome>, tickets: int, k: nat)
    requires Run(ws, os, tickets) && k <= |os| && Forced !in os[..k]
    ensures ws[k].ticks == ws[0].ticks + k
    decreases k
  {
    if k > 0 {
      assert os[..k - 1] == os[..k][..k - 1];
      TicksRise(ws, os, tickets, k - 1);
      assert Next(ws[k - 1], tickets, os[k - 1], ws[k]);
      assert os[k - 1] == os[..k][k - 1];
    }
  }

  /** Among any 1001 runnable processes the scheduler comes to, one is dispatched by force: it
      cannot pass over processes forever. */
  lemma ForcedEventually(ws: seq<State>, os: seq<Outcome>, tickets: int)
    requires Run(ws, os, tickets) && |os| > FORCE
    ensures Forced in os
  {
    if Forced !in os {
      CountTracks(ws, os, tickets);
      assert os[..|os|] == os;
      TicksRise(ws, os, tickets, |os|);
      assert false;
    }
  }

  /** Between two forced dispatches the scheduler comes to exactly 999 runnable processes. */
  lemma ForcedEvery1000(ws: seq<State>, os: seq<Outcome>, tickets: int)
    requires Run(ws, os, tickets) && |os| > 1000 && os[0] == Forced
    ensures os[1000] == Forced && forall k | 0 < k < 1000 :: os[k] != Forced
  {
    assert Next(ws[0], tickets, os[0], ws[1]);
    var ws1, os1 := ws[1..], os[1..];
    assert InRange(ws1[0]);
    assert forall k | 0 <= k < |os1| :: Next(ws1[k], tickets, os1[k], ws1[k + 1]) by {
      forall k | 0 <= k < |os1|
        ensures Next(ws1[k], tickets, os1[k], ws1[k + 1])
      {
        assert Next(ws[k + 1], tickets, os[k + 1], ws[k + 2]);
      }
    }
    NotForced(ws1, os1, tickets, 999);
    TicksRise(ws1, os1, tickets, 999);
    assert Next(ws1[999], tickets, os1[999], ws1[1000]);
    forall k | 0 < k < 1000
      ensures os[k] != Forced
    {
      assert os[k] == os1[..999][k - 1];
    }
  }

  lemma {:induction false} NotForced(ws: seq<State>, os: seq<Outcome>, tickets: int, k: nat)
    requires Run(ws, os, tickets) && ws[0].ticks == 1 && k <= |os| && k <= 999
    ensures Forced !in os[..k]
    decreases k
  {
    if k > 0 {
      NotForced(ws, os, tickets, k - 1);
      TicksRise(ws, os, tickets, k - 1);
      assert Next(ws[k - 1], tickets, os[k - 1], ws[k]);
      assert os[..k] == os[..k - 1] + [os[k - 1]];
    }
  }
}
