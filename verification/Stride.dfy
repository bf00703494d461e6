/** Stride scheduling: the shares of the processes under it, over any run of admissions and
    charged dispatches. */
module Stride {

  const MAXTICKETS: int := 80

  /** What set_cpu_share and the scheduler keep of a process; `pass` is -1 under MLFQ. `charged`
      counts the dispatches charged to it since it was admitted. */
  datatype Share = Share(pass: int, stride: int, portion: int, charged: nat)

  const MLFQ: Share := Share(-1, 0, 0, 0)

  datatype State = State(shares: seq<Share>, heap: multiset<int>, tickets: int)

  datatype Event = Admit(i: nat, percent: int) | Charge(i: nat)

  predicate InStride(x: Share) { x.pass != -1 }

  function Bag(shares: seq<Share>): multiset<int> {
    if shares == [] then multiset{}
    else
      var x := shares[|shares| - 1];
      Bag(shares[..|shares| - 1]) + One(x)
  }

  function Portions(shares: seq<Share>): int {
    if shares == [] then 0 else Portions(shares[..|shares| - 1]) + shares[|shares| - 1].portion
  }

  function One(x: Share): multiset<int> { if InStride(x) then multiset{x.pass} else multiset{} }

  lemma Aside(bag: multiset<int>, out: multiset<int>, into: multiset<int>, last: multiset<int>)
    requires out <= bag
    ensures out <= bag + last && bag - out + into + last == bag + last - out + into
  {
  }

  lemma BagLast(shares: seq<Share>)
    requires shares != []
    ensures var n := |shares| - 1;
            Bag(shares) == Bag(shares[..n]) + One(shares[n]) && Portions(shares) == Portions(shares[..n]) + shares[n].portion
  {
  }

  lemma {:induction false} BagUpdate(shares: seq<Share>, i: nat, x: Share)
    requires i < |shares|
    ensures One(shares[i]) <= Bag(shares)
    ensures Bag(shares[i := x]) == Bag(shares) - One(shares[i]) + One(x)
    ensures Portions(shares[i := x]) == Portions(shares) - shares[i].portion + x.portion
    decreases |shares|
  {
    hide Bag, Portions, One;
    var n := |shares| - 1;
    BagLast(shares);
    BagLast(shares[i := x]);
    if i < n {
      BagUpdate(shares[..n], i, x);
      assert shares[i := x][..n] == shares[..n][i := x];
      Aside(Bag(shares[..n]), One(shares[i]), One(x), One(shares[n]));
    } else {
      assert shares[i := x][..n] == shares[..n];
    }
  }

  lemma {:induction false} BagMember(shares: seq<Share>, v: int)
    ensures v in Bag(shares) <==> exists j | 0 <= j < |shares| :: InStride(shares[j]) && shares[j].pass == v
    decreases |shares|
  {
    var n := |shares| - 1;
    if n >= 0 {
      hide Bag;
      BagLast(shares);
      BagMember(shares[..n], v);
      assert v in One(shares[n]) <==> InStride(shares[n]) && shares[n].pass == v;
      assert forall j | 0 <= j < n :: shares[..n][j] == shares[j];
    }
  }

  ghost predicate IsMin(v: int, bag: multiset<int>) {
    v in bag && forall x <- bag :: v <= x
  }

  // ---------------------------------------------------------------- the two steps

  /** set_cpu_share: the process enters at the smallest pass in the heap, 0 when it is empty. */
  ghost predicate Admitted(s: State, s': State, i: nat, percent: int) {
    && i < |s.shares| && percent > 0 && percent + s.tickets <= MAXTICKETS
    && exists v :: (if s.heap == multiset{} then v == 0 else IsMin(v, s.heap))
         && s' == State(s.shares[i := Share(v, 1000 / percent, percent, 0)], s.heap + multiset{v}, s.tickets + percent)
  }

  /** The scheduler charges the process whose pass is the smallest. */
  ghost predicate Charged(s: State, s': State, i: nat) {
    && i < |s.shares| && IsMin(s.shares[i].pass, s.heap)
    && var x := s.shares[i];
       var y := x.(pass := x.pass + x.stride, charged := x.charged + 1);
       s' == s.(shares := s.shares[i := y], heap := s.heap - multiset{x.pass} + multiset{y.pass})
  }

  ghost predicate Next(s: State, e: Event, s': State) {
    match e
    case Admit(i, percent) => i < |s.shares| && !InStride(s.shares[i]) && Admitted(s, s', i, percent)
    case Charge(i) => i < |s.shares| && InStride(s.shares[i]) && Charged(s, s', i)
  }

  // ---------------------------------------------------------------- what every run keeps

  ghost predicate Close(x: Share, y: Share) {
    InStride(x) && InStride(y) ==> x.pass <= y.pass + x.stride
  }

  /** The heap holds exactly the passes of the processes under stride scheduling; no process is
      further ahead of another than its own stride; the tickets handed out are at most 80. */
  ghost predicate Inv(s: State) {
    && s.heap == Bag(s.shares)
    && s.tickets == Portions(s.shares) <= MAXTICKETS
    && (forall i | 0 <= i < |s.shares| :: WellFormed(s.shares[i]))
    && (forall i, j | 0 <= i < |s.shares| && 0 <= j < |s.shares| :: Close(s.shares[i], s.shares[j]))
  }

  ghost predicate WellFormed(x: Share) {
    if InStride(x) then x.pass >= 0 && 1 <= x.portion <= MAXTICKETS && x.stride == 1000 / x.portion
    else x == MLFQ
  }

  ghost predicate Initial(s: State) {
    s.heap == multiset{} && s.tickets == 0 && forall i | 0 <= i < |s.shares| :: s.shares[i] == MLFQ
  }

  lemma {:induction false} NoneBag(shares: seq<Share>)
    requires forall i | 0 <= i < |shares| :: shares[i] == MLFQ
    ensures Bag(shares) == multiset{} && Portions(shares) == 0
    decreases |shares|
  {
    if shares != [] {
      NoneBag(shares[..|shares| - 1]);
    }
  }

  lemma {:induction false} PortionsBound(shares: seq<Share>, i: nat)
    requires i < |shares| && forall j | 0 <= j < |shares| :: WellFormed(shares[j])
    ensures 0 <= shares[i].portion <= Portions(shares)
    decreases |shares|
  {
    var n := |shares| - 1;
    if n > 0 {
      PortionsBound(shares[..n], if i < n then i else 0);
    }
  }

  lemma AdmitKeepsInv(s: State, i: nat, percent: int, s': State)
    requires Inv(s) && Next(s, Admit(i, percent), s')
    ensures Inv(s')
  {
    hide Bag, Portions;
    BagUpdate(s.shares, i, s'.shares[i]);
    forall j | 0 <= j < |s.shares| && InStride(s.shares[j])
      ensures s.shares[j].pass in s.heap
    {
      BagMember(s.shares, s.shares[j].pass);
    }
    PortionsBound(s.shares, i);
    var v := s'.shares[i].pass;
    BagMember(s.shares, v);
    forall j, k | 0 <= j < |s.shares| && 0 <= k < |s.shares|
      ensures Close(s'.shares[j], s'.shares[k])
    {
      assert Close(s.shares[j], s.shares[k]);
      if j != i && k == i && InStride(s.shares[j]) {
        var l :| 0 <= l < |s.shares| && InStride(s.shares[l]) && s.shares[l].pass == v;
        assert Close(s.shares[j], s.shares[l]);
      }
    }
    assert 1000 / percent >= 0;
  }

  lemma ChargeKeepsInv(s: State, i: nat, s': State)
    requires Inv(s) && Next(s, Charge(i), s')
    ensures Inv(s')
  {
    hide Bag, Portions;
    BagUpdate(s.shares, i, s'.shares[i]);
    assert WellFormed(s.shares[i]);
    forall j | 0 <= j < |s.shares| && InStride(s.shares[j])
      ensures s.shares[i].pass <= s.shares[j].pass
    {
      BagMember(s.shares, s.shares[j].pass);
    }
    forall j, k | 0 <= j < |s.shares| && 0 <= k < |s.shares|
      ensures Close(s'.shares[j], s'.shares[k])
    {
      assert Close(s.shares[j], s.shares[k]);
    }
  }

  ghost predicate Run(ss: seq<State>, es: seq<Event>) {
    |ss| == |es| + 1 && forall k | 0 <= k < |es| :: Next(ss[k], es[k], ss[k + 1])
  }

  lemma {:induction false} RunKeepsInv(ss: seq<State>, es: seq<Event>, k: nat)
    requires Run(ss, es) && Inv(ss[0]) && k < |ss|
    ensures Inv(ss[k])
  {
    hide Inv, Next;
    if k > 0 {
      RunKeepsInv(ss, es, k - 1);
      assert Next(ss[k - 1], es[k - 1], ss[k]);
      match es[k - 1]
      case Admit(i, percent) => AdmitKeepsInv(ss[k - 1], i, percent, ss[k]);
      case Charge(i) => ChargeKeepsInv(ss[k - 1], i, ss[k]);
    }
  }

  /** Agreement and closeness in every state of every run. */
  lemma StrideAgreement(ss: seq<State>, es: seq<Event>, k: nat, i: nat, j: nat)
    requires Run(ss, es) && Initial(ss[0]) && k < |ss| && i < |ss[k].shares| && j < |ss[k].shares|
    ensures ss[k].heap == Bag(ss[k].shares) && ss[k].tickets <= MAXTICKETS
    ensures InStride(ss[k].shares[i]) && InStride(ss[k].shares[j]) ==>
              ss[k].shares[i].pass - ss[k].shares[j].pass <= ss[k].shares[i].stride <= 1000
  {
    NoneBag(ss[0].shares);
    RunKeepsInv(ss, es, k);
    assert Close(ss[k].shares[i], ss[k].shares[j]) && WellFormed(ss[k].shares[i]);
  }

  // ---------------------------------------------------------------- fairness

  lemma StepCounts(s: State, e: Event, s': State, i: nat)
    requires Next(s, e, s') && i < |s.shares| && InStride(s.shares[i]) && WellFormed(s.shares[i])
    ensures |s'.shares| == |s.shares| && InStride(s'.shares[i]) && s'.shares[i].stride == s.shares[i].stride
    ensures s'.shares[i] == s.shares[i]
            || (s'.shares[i].charged == s.shares[i].charged + 1
                && s'.shares[i].pass == s.shares[i].pass + s.shares[i].stride)
  {
  }

  /** The runs charged to a process between `x` and `y`, weighted by its stride. */
  function Work(x: Share, y: Share): int { (y.charged - x.charged) * x.stride }

  lemma WorkStep(x: Share, y: Share, z: Share)
    requires y == z || z.charged == y.charged + 1
    ensures Work(x, z) == Work(x, y) + if y == z then 0 else x.stride
    ensures Work(x, x) == 0
  {
  }

  /** While a process stays under stride scheduling its pass moves by its stride per charge. */
  lemma {:induction false} PassCounts(ss: seq<State>, es: seq<Event>, a: nat, b: nat, i: nat)
    requires Run(ss, es) && a <= b < |ss| && i < |ss[a].shares| && InStride(ss[a].shares[i])
    requires Inv(ss[0])
    ensures |ss[b].shares| == |ss[a].shares|
    ensures InStride(ss[b].shares[i]) && ss[b].shares[i].stride == ss[a].shares[i].stride
    ensures ss[b].shares[i].pass - ss[a].shares[i].pass == Work(ss[a].shares[i], ss[b].shares[i])
    decreases b
  {
    hide Inv, Next, WellFormed, Work;
    if a < b {
      PassCounts(ss, es, a, b - 1, i);
      WellFormedAt(ss, es, b - 1, i);
      StepCounts(ss[b - 1], es[b - 1], ss[b], i);
      WorkStep(ss[a].shares[i], ss[b - 1].shares[i], ss[b].shares[i]);
    } else {
      WorkStep(ss[a].shares[i], ss[a].shares[i], ss[a].shares[i]);
    }
  }

  lemma WellFormedAt(ss: seq<State>, es: seq<Event>, k: nat, i: nat)
    requires Run(ss, es) && Inv(ss[0]) && k < |ss| && i < |ss[k].shares|
    ensures WellFormed(ss[k].shares[i])
  {
    RunKeepsInv(ss, es, k);
  }

  /** Fairness: over any interval in which both are under stride scheduling, the work charged to
      two processes, weighted by stride, differs by at most the sum of their strides. */
  lemma Fairness(ss: seq<State>, es: seq<Event>, a: nat, b: nat, i: nat, j: nat)
    requires Run(ss, es) && Initial(ss[0]) && a <= b < |ss|
    requires i < |ss[a].shares| && j < |ss[a].shares| && InStride(ss[a].shares[i]) && InStride(ss[a].shares[j])
    ensures i < |ss[b].shares| && j < |ss[b].shares|
    ensures var wi, wj := Work(ss[a].shares[i], ss[b].shares[i]), Work(ss[a].shares[j], ss[b].shares[j]);
            -(ss[a].shares[i].stride + ss[a].shares[j].stride) <= wi - wj <= ss[a].shares[i].stride + ss[a].shares[j].stride
  {
    NoneBag(ss[0].shares);
    PassCounts(ss, es, a, b, i);
    PassCounts(ss, es, a, b, j);
    StrideAgreement(ss, es, a, i, j);
    StrideAgreement(ss, es, a, j, i);
    StrideAgreement(ss, es, b, i, j);
    StrideAgreement(ss, es, b, j, i);
  }

  /** The stride is the inverse of the percentage, up to the rounding of the division. */
  lemma StrideInverse(percent: int)
    requires 1 <= percent <= MAXTICKETS
    ensures 1001 - percent <= (1000 / percent) * percent <= 1000
  {
    var q, r := 1000 / percent, 1000 % percent;
    assert 1000 == q * percent + r;
  }

  lemma ScaleUp(ri: int, si: int, rj: int, sj: int, pi: int, pj: int)
    requires ri >= 0 && rj >= 0 && pi >= 1 && pj >= 1 && ri * si <= rj * sj + si + sj
    requires 1001 - pi <= si * pi <= 1000 && sj * pj <= 1000
    ensures ri * pj * (1001 - pi) <= 1000 * (rj * pi + pi + pj)
  {
    var a, b := ri * pj, rj * pi;
    Monotone(a, 1001 - pi, si * pi);
    Monotone(b, sj * pj, 1000);
    Monotone(pj, si * pi, 1000);
    Monotone(pi, sj * pj, 1000);
    Monotone(pi * pj, ri * si, rj * sj + si + sj);
    Swapped(ri, pj, si, pi);
    Spread(pi, pj, rj, sj, si);
  }

  lemma Swapped(r: int, q: int, s: int, p: int)
    ensures (r * q) * (s * p) == (p * q) * (r * s)
  {
    assert (r * q) * (s * p) == r * s * p * q;
    assert (p * q) * (r * s) == r * s * p * q;
  }

  lemma Spread(p: int, q: int, r: int, t: int, s: int)
    ensures (p * q) * (r * t + s + t) == (r * p) * (t * q) + q * (s * p) + p * (t * q)
  {
    Swapped(r, p, t, q);
    assert (p * q) * (r * t + s + t) == (p * q) * (r * t) + (p * q) * s + (p * q) * t;
    assert (q * p) * (r * t) == (p * q) * (r * t);
    assert (p * q) * s == q * (s * p);
    assert (p * q) * t == p * (t * q);
  }

  lemma Monotone(k: int, x: int, y: int)
    requires k >= 0 && x <= y
    ensures k * x <= k * y
  {
  }

  /** Dispatches in proportion to the percentages: over any interval the dispatches charged to two
      processes are in the ratio of their percentages, up to the rounding of the strides and one
      dispatch each. */
  lemma Proportional(ss: seq<State>, es: seq<Event>, a: nat, b: nat, i: nat, j: nat)
    requires Run(ss, es) && Initial(ss[0]) && a <= b < |ss|
    requires i < |ss[a].shares| && j < |ss[a].shares| && InStride(ss[a].shares[i]) && InStride(ss[a].shares[j])
    ensures i < |ss[b].shares| && j < |ss[b].shares|
    ensures var ri, rj := ss[b].shares[i].charged - ss[a].shares[i].charged, ss[b].shares[j].charged - ss[a].shares[j].charged;
            var pi, pj := ss[a].shares[i].portion, ss[a].shares[j].portion;
            1 <= pi && 1 <= pj && 0 <= ri && 0 <= rj && ri * pj * (1001 - pi) <= 1000 * (rj * pi + pi + pj)
  {
    hide Next, Inv, Work;
    NoneBag(ss[0].shares);
    InitialInv(ss[0]);
    Fairness(ss, es, a, b, i, j);
    WellFormedAt(ss, es, a, i);
    WellFormedAt(ss, es, a, j);
    ChargesRise(ss, es, a, b, i);
    ChargesRise(ss, es, a, b, j);
    var x, y := ss[a].shares[i], ss[a].shares[j];
    StrideInverse(x.portion);
    StrideInverse(y.portion);
    WorkIs(x, ss[b].shares[i]);
    WorkIs(y, ss[b].shares[j]);
    ScaleUp(ss[b].shares[i].charged - x.charged, x.stride, ss[b].shares[j].charged - y.charged, y.stride, x.portion, y.portion);
  }

  lemma WorkIs(x: Share, y: Share)
    ensures Work(x, y) == (y.charged - x.charged) * x.stride
  {
  }

  lemma InitialInv(s: State)
    requires Initial(s)
    ensures Inv(s)
  {
    NoneBag(s.shares);
  }

  lemma {:induction false} ChargesRise(ss: seq<State>, es: seq<Event>, a: nat, b: nat, i: nat)
    requires Run(ss, es) && a <= b < |ss| && i < |ss[a].shares| && InStride(ss[a].shares[i]) && Inv(ss[0])
    ensures i < |ss[b].shares| && InStride(ss[b].shares[i]) && ss[b].shares[i].charged >= ss[a].shares[i].charged
    decreases b
  {
    hide Inv, Next, WellFormed;
    if a < b {
      ChargesRise(ss, es, a, b - 1, i);
      WellFormedAt(ss, es, b - 1, i);
      StepCounts(ss[b - 1], es[b - 1], ss[b], i);
    }
  }

  // ---------------------------------------------------------------- where agreement ends

  /** set_cpu_share keeps heap and passes in agreement exactly for a process not yet under
      stride scheduling: a second call leaves the old pass behind in the heap. */
  lemma AdmitAgrees(s: State, s': State, i: nat, percent: int)
    requires s.heap == Bag(s.shares) && Admitted(s, s', i, percent)
    ensures s'.heap == Bag(s'.shares) <==> !InStride(s.shares[i])
  {
    BagUpdate(s.shares, i, s'.shares[i]);
    var v := s'.shares[i].pass;
    assert InStride(s'.shares[i]) || v == -1;
    if v == -1 {
      BagMember(s.shares, v);
      assert false;
    }
    if InStride(s.shares[i]) {
      assert |s'.heap| == |s.heap| + 1 && |Bag(s'.shares)| == |s.heap|;
    }
  }

  /** exit pops the smallest pass, whoever's it is: agreement survives exactly when it is the
      exiting process's own. */
  lemma ExitAgrees(s: State, i: nat, min: int)
    requires s.heap == Bag(s.shares) && i < |s.shares| && InStride(s.shares[i]) && IsMin(min, s.heap)
    ensures s.heap - multiset{min} == Bag(s.shares[i := MLFQ]) <==> s.shares[i].pass == min
  {
    BagUpdate(s.shares, i, MLFQ);
    if s.shares[i].pass != min {
      assert (s.heap - multiset{min})[min] == s.heap[min] - 1;
      assert Bag(s.shares[i := MLFQ])[min] == s.heap[min];
    }
  }

  // Both failures happen: runs that lead to them from the initial state of two processes.
  const S0: State := State([MLFQ, MLFQ], multiset{}, 0)
  const S1: State := State([Share(0, 100, 10, 0), MLFQ], multiset{0}, 10)
  const S2: State := State([Share(0, 100, 10, 0), Share(0, 100, 10, 0)], multiset{0, 0}, 20)
  const S3: State := State([Share(100, 100, 10, 1), Share(0, 100, 10, 0)], multiset{0, 100}, 20)

  lemma FirstAdmission()
    ensures Initial(S0) && Next(S0, Admit(0, 10), S1)
  {
    assert S0.shares[0 := Share(0, 100, 10, 0)] == S1.shares;
  }

  lemma SecondAdmission()
    ensures Next(S1, Admit(1, 10), S2)
  {
    assert S1.shares[1 := Share(0, 100, 10, 0)] == S2.shares;
    assert IsMin(0, S1.heap) && S1.heap + multiset{0} == S2.heap;
  }

  lemma FirstCharge()
    ensures Next(S2, Charge(0), S3)
  {
    assert S2.shares[0 := Share(100, 100, 10, 1)] == S3.shares;
    assert IsMin(0, S2.heap) && S2.heap - multiset{0} + multiset{100} == S3.heap;
  }

  /** A run of two admissions and one dispatch after which the exit of the process that ran takes the
      other process's pass out of the heap. */
  lemma ExitBreaks() returns (ss: seq<State>, es: seq<Event>)
    ensures Run(ss, es) && Initial(ss[0])
    ensures var s := ss[|es|];
            && |s.shares| == 2 && InStride(s.shares[0]) && s.heap == Bag(s.shares) && IsMin(0, s.heap)
            && s.heap - multiset{0} != Bag(s.shares[0 := MLFQ])
  {
    ss, es := [S0, S1, S2, S3], [Admit(0, 10), Admit(1, 10), Charge(0)];
    FirstAdmission();
    SecondAdmission();
    FirstCharge();
    hide Next, Initial;
    assert Run(ss, es);
    StrideAgreement(ss, es, 3, 0, 0);
    assert IsMin(0, S3.heap);
    ExitAgrees(S3, 0, 0);
  }

  /** A run of one admission after which the same process's second set_cpu_share breaks agreement. */
  lemma SecondShareBreaks() returns (ss: seq<State>, es: seq<Event>, s': State)
    ensures Run(ss, es) && Initial(ss[0])
    ensures Admitted(ss[|es|], s', 0, 10) && s'.heap != Bag(s'.shares)
  {
    ss, es := [S0, S1], [Admit(0, 10)];
    FirstAdmission();
    s' := State([Share(0, 100, 10, 0), MLFQ], multiset{0, 0}, 20);
    assert S1.shares[0 := Share(0, 100, 10, 0)] == s'.shares && S1.heap + multiset{0} == s'.heap && IsMin(0, S1.heap);
    assert Admitted(S1, s', 0, 10);
    assert Run(ss, es);
    StrideAgreement(ss, es, 1, 0, 0);
    AdmitAgrees(S1, s', 0, 10);
  }
}
