/** That the lock lets threads in: a writer when nobody holds it, and any number of readers together. */
module RwShare {
  import opened RwLock
  import S = Semaphore

  ghost predicate Leads(st: State, st': State) { exists es :: Legal(st, es) && Exec(st, es) == st' }

  lemma LeadsSelf(st: State)
    ensures Leads(st, st)
  {
    assert Legal(st, []) && Exec(st, []) == st;
  }

  lemma LeadsFirst(st: State, e: Event, st': State)
    requires Enabled(st, e) && Leads(Next(st, e), st')
    ensures Leads(st, st')
  {
    hide Next, Enabled;
    var es :| Legal(Next(st, e), es) && Exec(Next(st, e), es) == st';
    var all := [e] + es;
    assert all[1..] == es;
    assert Legal(st, all) && Exec(st, all) == st';
  }

  lemma {:induction false} ExecAdd(st: State, a: seq<Event>, b: seq<Event>)
    requires Legal(st, a) && Legal(Exec(st, a), b)
    ensures Legal(st, a + b) && Exec(st, a + b) == Exec(Exec(st, a), b)
    decreases |a|
  {
    hide Next, Enabled;
    if a == [] {
      assert a + b == b;
    } else {
      ExecAdd(Next(st, a[0]), a[1..], b);
      assert (a + b)[1..] == a[1..] + b;
    }
  }

  lemma LeadsOn(st: State, st1: State, st2: State)
    requires Leads(st, st1) && Leads(st1, st2)
    ensures Leads(st, st2)
  {
    var a :| Legal(st, a) && Exec(st, a) == st1;
    var b :| Legal(st1, b) && Exec(st1, b) == st2;
    ExecAdd(st, a, b);
  }

  // ---------------------------------------------------------------- semaphore calls without contention

  /** Nobody is in a call on the semaphore. */
  predicate Calm(m: S.Sem) { !m.flag && !m.condFlag && m.waiting == 0 }

  /** The state with thread `t` at `pc` and semaphore `s` as given. */
  function Put(st: State, t: nat, s: nat, m: S.Sem, pc: S.Pc, group: bool): State
    requires s < |st.sems| && t in st.th
  {
    State(st.sems[s := m], st.th[t := Thread(st.th[t].at, pc)], st.readers, group)
  }

  lemma PutSelf(st: State, t: nat, s: nat)
    requires s < |st.sems| && t in st.th
    ensures Put(st, t, s, st.sems[s], st.th[t].pc, st.group) == st
  {
    assert st.sems[s := st.sems[s]] == st.sems && st.th[t := st.th[t]] == st.th;
  }

  /** The thread would not spin on a mutex at this point. */
  predicate Free(m: S.Sem, pt: S.Point) {
    match pt
    case Asleep => false
    case SigWake => false
    case WaitLock => !m.flag
    case Woken => !m.flag
    case PostLock => !m.flag
    case CondLock => !m.condFlag
    case SigLock => !m.condFlag
    case _ => true
  }

  /** One step inside a semaphore call that wakes nobody. */
  lemma Move(st: State, t: nat, s: nat, m: S.Sem, pt: S.Point, group: bool)
    requires s < |st.sems| && t in st.th && Free(m, pt)
    ensures Leads(Put(st, t, s, m, S.At(s, pt), group),
                  Put(st, t, s, S.SemAfter(m, pt), S.PcAfter(m, s, pt), GroupAfter(Thread(st.th[t].at, S.At(s, pt)), m, group)))
  {
    hide S.PcAfter, S.SemAfter, GroupAfter;
    var a := Put(st, t, s, m, S.At(s, pt), group);
    var b := Put(st, t, s, S.SemAfter(m, pt), S.PcAfter(m, s, pt), GroupAfter(Thread(st.th[t].at, S.At(s, pt)), m, group));
    var e := SemStep(t, t);
    assert Next(a, e).th == b.th && Next(a, e).sems == b.sems;
    assert Next(a, e) == b;
    LeadsSelf(b);
    LeadsFirst(a, e, b);
  }

  /** The state after an uncontended xem_wait. */
  function Waited(st: State, t: nat, s: nat): State
    requires s < |st.sems| && t in st.th
  {
    Put(st, t, s, st.sems[s].(value := st.sems[s].value - 1, out := st.sems[s].out + 1), S.Out,
        st.group || (s == WRITE && st.th[t].at.RLast?))
  }

  lemma WaitsIn(st: State, t: nat, s: nat)
    requires s < |st.sems| && t in st.th && st.th[t].pc == S.At(s, S.WaitLock) && Calm(st.sems[s]) && st.sems[s].value > 0
    ensures Leads(st, Waited(st, t, s))
  {
    hide Put, Leads;
    var m, g := st.sems[s], st.group;
    var m1 := m.(flag := true);
    var m2 := m1.(value := m.value - 1, out := m.out + 1);
    var g' := g || (s == WRITE && st.th[t].at.RLast?);
    PutSelf(st, t, s);
    Move(st, t, s, m, S.WaitLock, g);
    Move(st, t, s, m1, S.WaitTest, g);
    Move(st, t, s, m2, S.Taken, g');
    LeadsOn(st, Put(st, t, s, m1, S.At(s, S.WaitTest), g), Put(st, t, s, m2, S.At(s, S.Taken), g'));
    LeadsOn(st, Put(st, t, s, m2, S.At(s, S.Taken), g'), Waited(st, t, s));
  }

  /** The state after an uncontended xem_unlock. */
  function Posted(st: State, t: nat, s: nat): State
    requires s < |st.sems| && t in st.th
  {
    Put(st, t, s, st.sems[s].(value := st.sems[s].value + 1, out := st.sems[s].out - 1), S.Out,
        st.group && !(s == WRITE && st.th[t].at.QLast?))
  }

  lemma PostsOut(st: State, t: nat, s: nat)
    requires s < |st.sems| && t in st.th && st.th[t].pc == S.At(s, S.PostLock) && Calm(st.sems[s])
    ensures Leads(st, Posted(st, t, s))
  {
    hide Put, Leads;
    var m, g' := st.sems[s], st.group && !(s == WRITE && st.th[t].at.QLast?);
    var m2 := m.(flag := true, value := m.value + 1, out := m.out - 1);
    RaisesValue(st, t, s);
    SignalsNobody(st, t, s, m2, g');
    LeadsOn(st, Put(st, t, s, m2, S.At(s, S.SigLock), g'), Posted(st, t, s));
  }

  lemma RaisesValue(st: State, t: nat, s: nat)
    requires s < |st.sems| && t in st.th && st.th[t].pc == S.At(s, S.PostLock) && Calm(st.sems[s])
    ensures Leads(st, Put(st, t, s, st.sems[s].(flag := true, value := st.sems[s].value + 1, out := st.sems[s].out - 1),
                          S.At(s, S.SigLock), st.group && !(s == WRITE && st.th[t].at.QLast?)))
  {
    hide Put, Leads;
    var m, g := st.sems[s], st.group;
    var m1 := m.(flag := true);
    var m2 := m1.(value := m.value + 1, out := m.out - 1);
    PutSelf(st, t, s);
    Move(st, t, s, m, S.PostLock, g);
    Move(st, t, s, m1, S.PostAdd, g);
    LeadsOn(st, Put(st, t, s, m1, S.At(s, S.PostAdd), g),
            Put(st, t, s, m2, S.At(s, S.SigLock), g && !(s == WRITE && st.th[t].at.QLast?)));
  }

  /** Cond_signal with no thread waiting, and the release of the mutex. */
  lemma SignalsNobody(st: State, t: nat, s: nat, m: S.Sem, g: bool)
    requires s < |st.sems| && t in st.th && m.flag && !m.condFlag && m.waiting == 0
    ensures Leads(Put(st, t, s, m, S.At(s, S.SigLock), g), Put(st, t, s, m.(flag := false), S.Out, g))
  {
    hide Put, Leads;
    var m1 := m.(condFlag := true);
    var a := Put(st, t, s, m, S.At(s, S.SigLock), g);
    Move(st, t, s, m, S.SigLock, g);
    Move(st, t, s, m1, S.SigTest, g);
    Move(st, t, s, m1, S.SigNone, g);
    Move(st, t, s, m, S.PostUnlock, g);
    LeadsOn(a, Put(st, t, s, m1, S.At(s, S.SigTest), g), Put(st, t, s, m1, S.At(s, S.SigNone), g));
    LeadsOn(a, Put(st, t, s, m1, S.At(s, S.SigNone), g), Put(st, t, s, m, S.At(s, S.PostUnlock), g));
    LeadsOn(a, Put(st, t, s, m, S.At(s, S.PostUnlock), g), Put(st, t, s, m.(flag := false), S.Out, g));
  }

  function Acted(st: State, t: nat): State
    requires t in st.th
  {
    st.(th := st.th[t := AfterAct(st.th[t], st.readers)], readers := ReadersAfter(st.th[t], st.readers))
  }

  lemma Acts(st: State, t: nat)
    requires t in st.th && st.th[t].pc.Out? && !st.th[t].at.Idle?
    ensures Leads(st, Acted(st, t))
  {
    LeadsSelf(Acted(st, t));
    LeadsFirst(st, Act(t), Acted(st, t));
  }

  // ---------------------------------------------------------------- letting in

  /** Nobody is inside a semaphore call; the first reader to come finds writelock free. */
  ghost predicate Open(st: State) {
    && |st.sems| == 2 && Calm(st.sems[LOCK]) && Calm(st.sems[WRITE]) && st.sems[LOCK].value > 0
    && st.readers >= 0 && (st.readers == 0 ==> st.sems[WRITE].value > 0)
  }

  /** Past rwlock->lock and counted in. */
  lemma ReaderCounts(st: State, t: nat) returns (st': State)
    requires Open(st) && t in st.th && st.th[t] == Thread(Idle, S.Out)
    ensures Leads(st, st') && st'.th == st.th[t := Thread(RTest, S.Out)] && st'.readers == st.readers + 1
    ensures st'.sems == [st.sems[LOCK].(value := st.sems[LOCK].value - 1, out := st.sems[LOCK].out + 1), st.sems[WRITE]]
  {
    var st1 := st.(th := st.th[t := Thread(RIn, S.At(LOCK, S.WaitLock))]);
    var st2 := Waited(st1, t, LOCK);
    WaitsIn(st1, t, LOCK);
    Acts(st2, t);
    st' := Acted(st2, t);
    LeadsOn(st1, st2, st');
    LeadsFirst(st, StartRead(t), st');
  }

  /** The first reader takes writelock, the others find it taken for them. */
  lemma ReaderTakes(st: State, t: nat) returns (st': State)
    requires |st.sems| == 2 && t in st.th && st.th[t] == Thread(RTest, S.Out) && Calm(st.sems[WRITE])
    requires st.readers >= 1 && (st.readers == 1 ==> st.sems[WRITE].value > 0)
    ensures Leads(st, st') && st'.th == st.th[t := Thread(RLast, S.Out)] && st'.readers == st.readers
    ensures |st'.sems| == 2 && st'.sems[LOCK] == st.sems[LOCK] && Calm(st'.sems[WRITE])
  {
    var st1 := Acted(st, t);
    Acts(st, t);
    st' := st1;
    if st.readers == 1 {
      st' := Waited(st1, t, WRITE);
      WaitsIn(st1, t, WRITE);
      LeadsOn(st, st1, st');
    }
  }

  lemma ReaderLeaves(st: State, t: nat) returns (st': State)
    requires |st.sems| == 2 && t in st.th && st.th[t] == Thread(RLast, S.Out) && Calm(st.sems[LOCK]) && st.sems[LOCK].value >= 0
    requires Calm(st.sems[WRITE]) && st.readers >= 1
    ensures Leads(st, st') && Open(st') && st'.th == st.th[t := Thread(RGot, S.Out)]
  {
    var st1 := Acted(st, t);
    Acts(st, t);
    st' := Posted(st1, t, LOCK);
    PostsOut(st1, t, LOCK);
    LeadsOn(st, st1, st');
  }

  /** One more reader gets in. */
  lemma ReaderIn(st: State, t: nat) returns (st': State)
    requires Open(st) && t in st.th && st.th[t] == Thread(Idle, S.Out)
    ensures Leads(st, st') && Open(st') && st'.th == st.th[t := Thread(RGot, S.Out)]
  {
    hide Leads;
    var st1 := ReaderCounts(st, t);
    var st2 := ReaderTakes(st1, t);
    var st3 := ReaderLeaves(st2, t);
    LeadsOn(st, st1, st2);
    LeadsOn(st, st2, st3);
    st' := st3;
    assert st'.th == st.th[t := Thread(RGot, S.Out)];
  }

  /** Readers share: any number of threads can hold the read lock at the same time. */
  lemma {:induction false} ReadersShare(st: State, ts: seq<nat>) returns (st': State)
    requires Open(st) && (forall i, j | 0 <= i < j < |ts| :: ts[i] != ts[j])
    requires forall t <- ts :: t in st.th && st.th[t] == Thread(Idle, S.Out)
    ensures Leads(st, st') && Open(st') && st'.th.Keys == st.th.Keys && forall t <- ts :: Reading(st'.th[t])
    ensures forall t <- st.th :: t !in ts ==> st'.th[t] == st.th[t]
    decreases |ts|
  {
    if ts == [] {
      LeadsSelf(st);
      st' := st;
    } else {
      hide Leads, Open;
      var k := |ts| - 1;
      var st1 := ReadersShare(st, ts[..k]);
      assert ts[k] in ts && ts[k] !in ts[..k];
      st' := ReaderIn(st1, ts[k]);
      LeadsOn(st, st1, st');
      forall t | t in ts
        ensures Reading(st'.th[t])
      {
        assert t == ts[k] || t in ts[..k];
      }
    }
  }

  /** A new lock lets all its threads read together, or one of them write. */
  lemma NewLockLetsIn(st: State, ts: seq<nat>, w: nat) returns (st1: State, st2: State)
    requires Initial(st) && w in st.th && (forall t <- ts :: t in st.th) && (forall i, j | 0 <= i < j < |ts| :: ts[i] != ts[j])
    ensures Leads(st, st1) && st1.th.Keys == st.th.Keys && forall t <- ts :: Reading(st1.th[t])
    ensures Leads(st, st2) && w in st2.th && Writing(st2.th[w])
  {
    st1 := ReadersShare(st, ts);
    var st0 := st.(th := st.th[w := Thread(WIn, S.At(WRITE, S.WaitLock))]);
    st2 := Waited(st0, w, WRITE);
    WaitsIn(st0, w, WRITE);
    LeadsFirst(st, StartWrite(w), st2);
  }
}
