/** pipe.c with the sleep and wakeup of proc.c, as a step system over any number of threads. A step
    runs from one lock operation or buffer access to the next. p->lock and ptable.lock are explicit,
    because what keeps a wakeup from being lost is the order in which sleep takes them. */
module Pipe {
  import opened PipeRing
  import opened Options

  datatype Job = Write(src: seq<Byte>, i: nat) | Read(n: nat)

  datatype Chan = OnRead | OnWrite      // &p->nread, &p->nwrite

  datatype Role = Writer | Reader | Closer(writable: bool)

  /** What a thread does next. */
  datatype Pc =
    | Idle
    | Enter(job: Job)                       // acquire(&p->lock)
    | Body(job: Job)                        // the tests at the top of the loops, and one byte written
    | Wake(job: Job)                        // pipewrite: wakeup(&p->nread) before sleeping
    | Sleep1(job: Job)                      // sleep: acquire(&ptable.lock)
    | Sleep2(job: Job)                      // sleep: release(lk)
    | Sleep3(job: Job)                      // sleep: state = SLEEPING; sched gives up ptable.lock
    | Asleep(job: Job)
    | Woken(job: Job)                       // RUNNABLE again: acquire(lk)
    | Copy(n: nat, got: seq<Byte>)          // piperead's copying loop
    | Finish(role: Role)                    // the wakeup before returning
    | Leave(role: Role)                     // release(&p->lock)
    | Closing(writable: bool)               // pipeclose: acquire(&p->lock)

  datatype State = State(
    ring: Ring, readopen: bool, writeopen: bool, freed: bool,
    lk: Option<nat>,               // holder of p->lock
    pt: Option<nat>,               // holder of ptable.lock
    pcs: map<nat, Pc>,
    written: seq<Byte>, read: seq<Byte>)   // everything ever written and read

  datatype Event =
    | Begin(t: nat, job: Job)             // thread t calls pipewrite or piperead
    | Close(t: nat, writable: bool)       // thread t drops the last reference to one end
    | Step(t: nat)

  // ---------------------------------------------------------------- kinds of points

  function ChanOf(job: Job): Chan { if job.Read? then OnRead else OnWrite }

  /** The channel woken before returning. */
  function Wakes(role: Role): Chan {
    match role
    case Writer => OnRead
    case Reader => OnWrite
    case Closer(writable) => if writable then OnRead else OnWrite
  }

  predicate HoldsLk(pc: Pc) {
    pc.Body? || pc.Wake? || pc.Sleep1? || pc.Sleep2? || pc.Copy? || pc.Finish? || pc.Leave?
  }

  predicate HoldsPt(pc: Pc) { pc.Sleep2? || pc.Sleep3? }

  predicate HasJob(pc: Pc) {
    pc.Enter? || pc.Body? || pc.Wake? || pc.Sleep1? || pc.Sleep2? || pc.Sleep3? || pc.Asleep? || pc.Woken?
  }

  predicate Reading(pc: Pc) { (HasJob(pc) && pc.job.Read?) || pc.Copy? || pc == Finish(Reader) || pc == Leave(Reader) }

  predicate Writing(pc: Pc) { (HasJob(pc) && pc.job.Write?) || pc == Finish(Writer) || pc == Leave(Writer) }

  /** It decided to sleep and nobody has woken it. */
  predicate Dozing(pc: Pc) { pc.Wake? || pc.Sleep1? || pc.Sleep2? || pc.Sleep3? || pc.Asleep? }

  /** It holds the lock and will wake `c` before letting go, or nobody needs waking. */
  predicate Owes(pc: Pc, c: Chan) {
    match c
    case OnRead => ((pc.Body? || pc.Wake?) && pc.job.Write?) || (pc.Finish? && Wakes(pc.role) == OnRead)
    case OnWrite => pc.Copy? || (pc.Finish? && Wakes(pc.role) == OnWrite)
  }

  // ---------------------------------------------------------------- the steps

  /** File reference counting: an end is used while it is open, and closed once, by nobody inside. */
  ghost predicate Enabled(st: State, e: Event) {
    match e
    case Begin(t, job) =>
      && t in st.pcs && st.pcs[t].Idle? && (job.Write? ==> job.i == 0)
      && (if job.Read? then st.readopen else st.writeopen)
      && forall u <- st.pcs :: st.pcs[u] != Closing(job.Write?)
    case Close(t, writable) =>
      && t in st.pcs && st.pcs[t].Idle?
      && (if writable then st.writeopen else st.readopen)
      && forall u <- st.pcs :: st.pcs[u] != Closing(writable) && !(if writable then Writing(st.pcs[u]) else Reading(st.pcs[u]))
    case Step(t) => CanStep(st, t)
  }

  predicate CanStep(st: State, t: nat) {
    && t in st.pcs
    && var pc := st.pcs[t];
       if pc.Idle? || pc.Asleep? then false
       else if pc.Enter? || pc.Woken? || pc.Closing? then st.lk.None?
       else if pc.Wake? || pc.Sleep1? || pc.Finish? then st.pt.None?
       else true
  }

  /** wakeup1: everybody asleep on the channel becomes runnable. */
  function WakeAll(pcs: map<nat, Pc>, c: Chan): map<nat, Pc> {
    map t | t in pcs :: if pcs[t].Asleep? && ChanOf(pcs[t].job) == c then Woken(pcs[t].job) else pcs[t]
  }

  /** pipewrite stores its next byte now. */
  predicate Puts(st: State, pc: Pc) {
    pc.Body? && pc.job.Write? && pc.job.i < |pc.job.src| && !Full(st.ring)
  }

  /** piperead takes a byte now. */
  predicate Gets(st: State, pc: Pc) { pc.Copy? && |pc.got| < pc.n && !Empty(st.ring) }

  /** The tests at the top of the two loops. */
  function BodyAfter(st: State, job: Job): Pc {
    match job
    case Read(n) => if Empty(st.ring) && st.writeopen then Sleep1(job) else Copy(n, [])
    case Write(src, i) =>
      if i >= |src| then Finish(Writer)
      else if Full(st.ring) then if !st.readopen then Leave(Writer) else Wake(job)
      else Body(Write(src, i + 1))
  }

  function PcAfter(st: State, pc: Pc): Pc
    requires |st.ring.data| == PIPESIZE
  {
    match pc
    case Idle => Idle
    case Enter(job) => Body(job)
    case Body(job) => BodyAfter(st, job)
    case Wake(job) => Sleep1(job)
    case Sleep1(job) => Sleep2(job)
    case Sleep2(job) => Sleep3(job)
    case Sleep3(job) => Asleep(job)
    case Asleep(job) => pc
    case Woken(job) => Body(job)
    case Copy(n, got) => if Gets(st, pc) then Copy(n, got + [Get(st.ring).0]) else Finish(Reader)
    case Finish(role) => Leave(role)
    case Leave(role) => Idle
    case Closing(writable) => Finish(Closer(writable))
  }

  /** It runs wakeup(c). */
  predicate WakesNow(pc: Pc, c: Chan) { (pc.Wake? && c == OnRead) || (pc.Finish? && Wakes(pc.role) == c) }

  function PcsAfter(pcs: map<nat, Pc>, pc: Pc): map<nat, Pc> {
    if WakesNow(pc, OnRead) then WakeAll(pcs, OnRead)
    else if WakesNow(pc, OnWrite) then WakeAll(pcs, OnWrite)
    else pcs
  }

  function LkAfter(lk: Option<nat>, t: nat, pc: Pc): Option<nat> {
    if pc.Enter? || pc.Woken? || pc.Closing? then Some(t)
    else if pc.Sleep2? || pc.Leave? then None
    else lk
  }

  function PtAfter(pt: Option<nat>, t: nat, pc: Pc): Option<nat> {
    if pc.Sleep1? then Some(t) else if pc.Sleep3? then None else pt
  }

  function StepOf(st: State, t: nat): State
    requires t in st.pcs && |st.ring.data| == PIPESIZE
  {
    var pc := st.pcs[t];
    State(
      if Puts(st, pc) then Put(st.ring, pc.job.src[pc.job.i]) else if Gets(st, pc) then Get(st.ring).1 else st.ring,
      st.readopen && pc != Closing(false),
      st.writeopen && pc != Closing(true),
      st.freed || (pc.Leave? && pc.role.Closer? && !st.readopen && !st.writeopen),
      LkAfter(st.lk, t, pc),
      PtAfter(st.pt, t, pc),
      PcsAfter(st.pcs, pc)[t := PcAfter(st, pc)],
      if Puts(st, pc) then st.written + [pc.job.src[pc.job.i]] else st.written,
      if Gets(st, pc) then st.read + [Get(st.ring).0] else st.read)
  }

  function To(st: State, t: nat, pc: Pc): State { st.(pcs := st.pcs[t := pc]) }

  function Next(st: State, e: Event): State
    requires e.Step? ==> CanStep(st, e.t) && |st.ring.data| == PIPESIZE
  {
    match e
    case Begin(t, job) => To(st, t, Enter(job))
    case Close(t, writable) => To(st, t, Closing(writable))
    case Step(t) => StepOf(st, t)
  }

  // ---------------------------------------------------------------- the invariant

  ghost predicate Fifo(st: State) { Holds(st.ring, st.written, st.read) }

  /** The locks are held exactly where the code says. */
  ghost predicate LocksOk(st: State) {
    && (forall t <- st.pcs :: HoldsLk(st.pcs[t]) <==> st.lk == Some(t))
    && (forall t <- st.pcs :: HoldsPt(st.pcs[t]) <==> st.pt == Some(t))
    && (st.lk.Some? ==> st.lk.value in st.pcs)
    && (st.pt.Some? ==> st.pt.value in st.pcs)
  }

  /** Nobody is inside a closed end, and memory is freed only when both are closed. */
  ghost predicate EndsOk(st: State) {
    && (forall t <- st.pcs :: Reading(st.pcs[t]) || st.pcs[t] == Closing(false) ==> st.readopen)
    && (forall t <- st.pcs :: Writing(st.pcs[t]) || st.pcs[t] == Closing(true) ==> st.writeopen)
    && (forall t, u | t in st.pcs && u in st.pcs && st.pcs[t].Closing? ::
        (st.pcs[u] == st.pcs[t] ==> u == t) && !(if st.pcs[t].writable then Writing(st.pcs[u]) else Reading(st.pcs[u])))
    && (st.freed ==> !st.readopen && !st.writeopen && forall t <- st.pcs :: st.pcs[t].Idle?)
  }

  /** What a sleeper waits for has not happened. */
  ghost predicate Blocked(st: State, c: Chan) {
    match c
    case OnRead => Empty(st.ring) && st.writeopen
    case OnWrite => Full(st.ring) && st.readopen
  }

  ghost predicate Excused(st: State, c: Chan) {
    Blocked(st, c) || (st.lk.Some? && st.lk.value in st.pcs && Owes(st.pcs[st.lk.value], c))
  }

  ghost predicate NoLost(st: State) {
    forall t <- st.pcs :: Dozing(st.pcs[t]) ==> Excused(st, ChanOf(st.pcs[t].job))
  }

  /** A reader under way has the newest bytes read, in order; only writers wake before sleeping. */
  ghost predicate PointOk(st: State, pc: Pc) {
    && (pc.Copy? ==> |pc.got| <= |st.read| && |pc.got| <= pc.n && pc.got == st.read[|st.read| - |pc.got|..])
    && (pc.Wake? ==> pc.job.Write?)
  }

  ghost predicate PointsOk(st: State) { forall t <- st.pcs :: PointOk(st, st.pcs[t]) }

  ghost predicate Inv(st: State) {
    Fifo(st) && LocksOk(st) && EndsOk(st) && NoLost(st) && PointsOk(st)
  }

  // ---------------------------------------------------------------- each part is kept

  lemma FifoStep(st: State, t: nat)
    requires Fifo(st) && CanStep(st, t)
    ensures Fifo(StepOf(st, t))
  {
    hide Holds;
    assert |st.ring.data| == PIPESIZE by { RingSize(st); }
    var pc := st.pcs[t];
    if pc.Body? && pc.job.Write? && pc.job.i < |pc.job.src| && !Full(st.ring) {
      PutHolds(st.ring, st.written, st.read, pc.job.src[pc.job.i]);
    } else if pc.Copy? && |pc.got| < pc.n && !Empty(st.ring) {
      GetHolds(st.ring, st.written, st.read);
    }
  }

  lemma RingSize(st: State)
    requires Fifo(st)
    ensures |st.ring.data| == PIPESIZE
  {
  }

  /** A step moves one thread; to the others it does no more than wake them. */
  lemma OtherAfter(st: State, t: nat, u: nat)
    requires t in st.pcs && u in st.pcs && u != t && |st.ring.data| == PIPESIZE
    ensures StepOf(st, t).pcs.Keys == st.pcs.Keys
    ensures var pc' := StepOf(st, t).pcs[u]; pc' == st.pcs[u] || (st.pcs[u].Asleep? && pc' == Woken(st.pcs[u].job))
  {
  }

  lemma LocksStep(st: State, t: nat)
    requires LocksOk(st) && CanStep(st, t) && |st.ring.data| == PIPESIZE
    ensures LocksOk(StepOf(st, t))
  {
    hide PcsAfter, Puts, Gets, Full, Empty, Put, Get;
    var st' := StepOf(st, t);
    forall u | u in st.pcs && u != t
      ensures u in st'.pcs && HoldsLk(st'.pcs[u]) == HoldsLk(st.pcs[u]) && HoldsPt(st'.pcs[u]) == HoldsPt(st.pcs[u])
    {
      OtherAfter(st, t, u);
    }
    KeysAfter(st, t);
  }

  lemma KeysAfter(st: State, t: nat)
    requires t in st.pcs && |st.ring.data| == PIPESIZE
    ensures StepOf(st, t).pcs.Keys == st.pcs.Keys
  {
  }

  /** Nobody gets inside an end by a step. */
  lemma InsideAfter(st: State, t: nat, u: nat)
    requires t in st.pcs && u in st.pcs && |st.ring.data| == PIPESIZE
    ensures StepOf(st, t).pcs.Keys == st.pcs.Keys
    ensures var pc' := StepOf(st, t).pcs[u];
            && (Reading(pc') ==> Reading(st.pcs[u])) && (Writing(pc') ==> Writing(st.pcs[u]))
            && (pc'.Closing? ==> u != t && pc' == st.pcs[u]) && (st.pcs[u].Idle? ==> pc'.Idle?)
  {
    hide PcsAfter, Puts, Gets, Full, Empty, Put, Get;
    KeysAfter(st, t);
    if u != t {
      OtherAfter(st, t, u);
    }
  }

  lemma EndsStep(st: State, t: nat)
    requires LocksOk(st) && EndsOk(st) && CanStep(st, t) && |st.ring.data| == PIPESIZE
    ensures EndsOk(StepOf(st, t))
  {
    hide PcsAfter, PcAfter, Puts, Gets, Full, Empty, Put, Get, Reading, Writing;
    var st' := StepOf(st, t);
    forall u | u in st.pcs
      ensures u in st'.pcs && (Reading(st'.pcs[u]) ==> Reading(st.pcs[u])) && (Writing(st'.pcs[u]) ==> Writing(st.pcs[u]))
      ensures st'.pcs[u].Closing? ==> u != t && st'.pcs[u] == st.pcs[u]
      ensures st.pcs[u].Idle? ==> st'.pcs[u].Idle?
    {
      InsideAfter(st, t, u);
    }
    KeysAfter(st, t);
    if st'.freed && !st.freed {
      FreedIdle(st, t);
      LeaveIdle(st, t);
    }
  }

  lemma LeaveIdle(st: State, t: nat)
    requires t in st.pcs && st.pcs[t].Leave? && |st.ring.data| == PIPESIZE
    ensures StepOf(st, t).pcs[t].Idle?
  {
  }

  /** When the last closer leaves, nobody is left in the pipe. */
  lemma FreedIdle(st: State, t: nat)
    requires LocksOk(st) && EndsOk(st) && t in st.pcs && st.pcs[t].Leave? && !st.readopen && !st.writeopen
    ensures forall u | u in st.pcs && u != t :: st.pcs[u].Idle?
  {
  }

  /** The excuse of the sleepers on `c` survives every step that is not their wakeup. */
  lemma ExcuseStep(st: State, t: nat, c: Chan)
    requires LocksOk(st) && CanStep(st, t) && |st.ring.data| == PIPESIZE && Excused(st, c)
    requires !WakesNow(st.pcs[t], c) && !(st.pcs[t].Body? && c == OnRead && !st.readopen)
    ensures Excused(StepOf(st, t), c)
  {
  }

  /** wakeup(c) finds every sleeper on `c`: one on its way to sleep would hold a lock. */
  lemma WakesAll(st: State, t: nat, u: nat, c: Chan)
    requires LocksOk(st) && CanStep(st, t) && |st.ring.data| == PIPESIZE && WakesNow(st.pcs[t], c)
    requires u in st.pcs && u != t && Dozing(st.pcs[u]) && ChanOf(st.pcs[u].job) == c
    ensures u in StepOf(st, t).pcs && !Dozing(StepOf(st, t).pcs[u])
  {
  }

  lemma NoLostOther(st: State, t: nat, u: nat)
    requires LocksOk(st) && EndsOk(st) && NoLost(st) && CanStep(st, t) && |st.ring.data| == PIPESIZE && u in st.pcs && u != t
    ensures var st' := StepOf(st, t); u in st'.pcs && (Dozing(st'.pcs[u]) ==> Excused(st', ChanOf(st'.pcs[u].job)))
  {
    hide StepOf, Excused, LocksOk;
    KeysAfter(st, t);
    OtherAfter(st, t, u);
    var st' := StepOf(st, t);
    if Dozing(st'.pcs[u]) {
      var c := ChanOf(st.pcs[u].job);
      if WakesNow(st.pcs[t], c) {
        WakesAll(st, t, u, c);
      } else {
        ExcuseStep(st, t, c);
      }
    }
  }

  lemma NoLostSelf(st: State, t: nat)
    requires LocksOk(st) && NoLost(st) && PointsOk(st) && CanStep(st, t) && |st.ring.data| == PIPESIZE
    ensures var st' := StepOf(st, t); t in st'.pcs && (Dozing(st'.pcs[t]) ==> Excused(st', ChanOf(st'.pcs[t].job)))
  {
  }

  lemma NoLostStep(st: State, t: nat)
    requires LocksOk(st) && EndsOk(st) && NoLost(st) && PointsOk(st) && CanStep(st, t) && |st.ring.data| == PIPESIZE
    ensures NoLost(StepOf(st, t))
  {
    hide StepOf, Excused, LocksOk;
    KeysAfter(st, t);
    forall u | u in StepOf(st, t).pcs && Dozing(StepOf(st, t).pcs[u])
      ensures Excused(StepOf(st, t), ChanOf(StepOf(st, t).pcs[u].job))
    {
      if u == t {
        NoLostSelf(st, t);
      } else {
        NoLostOther(st, t, u);
      }
    }
  }

  lemma PointSelf(st: State, t: nat)
    requires t in st.pcs && PointOk(st, st.pcs[t]) && |st.ring.data| == PIPESIZE
    ensures t in StepOf(st, t).pcs && PointOk(StepOf(st, t), StepOf(st, t).pcs[t])
  {
    hide PcsAfter, Full, Empty, Put, Get;
  }

  /** Only the lock holder reads, so nobody else's bytes stop being the newest. */
  lemma PointOther(st: State, t: nat, u: nat)
    requires LocksOk(st) && CanStep(st, t) && |st.ring.data| == PIPESIZE && u in st.pcs && u != t && PointOk(st, st.pcs[u])
    ensures u in StepOf(st, t).pcs && PointOk(StepOf(st, t), StepOf(st, t).pcs[u])
  {
    hide PcsAfter, Full, Empty, Put, Get;
    KeysAfter(st, t);
    OtherAfter(st, t, u);
    assert HoldsLk(st.pcs[u]) ==> !HoldsLk(st.pcs[t]);
  }

  lemma PointsStep(st: State, t: nat)
    requires LocksOk(st) && PointsOk(st) && CanStep(st, t) && |st.ring.data| == PIPESIZE
    ensures PointsOk(StepOf(st, t))
  {
    hide StepOf, PointOk, LocksOk;
    KeysAfter(st, t);
    forall u | u in StepOf(st, t).pcs
      ensures PointOk(StepOf(st, t), StepOf(st, t).pcs[u])
    {
      if u == t {
        PointSelf(st, t);
      } else {
        PointOther(st, t, u);
      }
    }
  }

  lemma StepKeeps(st: State, t: nat)
    requires Inv(st) && CanStep(st, t)
    ensures |st.ring.data| == PIPESIZE && Inv(StepOf(st, t))
  {
    hide StepOf, CanStep, LocksOk, EndsOk, NoLost, PointsOk, Fifo;
    RingSize(st);
    FifoStep(st, t);
    LocksStep(st, t);
    EndsStep(st, t);
    NoLostStep(st, t);
    PointsStep(st, t);
  }

  lemma CallEnds(st: State, e: Event)
    requires EndsOk(st) && !e.Step? && Enabled(st, e)
    ensures EndsOk(Next(st, e))
  {
    hide Full, Empty;
    var st' := Next(st, e);
    if e.Begin? {
      assert st' == To(st, e.t, Enter(e.job));
      BeginEnds(st, e.t, e.job);
    } else {
      assert st' == To(st, e.t, Closing(e.writable));
      CloseEnds(st, e.t, e.writable);
    }
  }

  lemma BeginEnds(st: State, t: nat, job: Job)
    requires EndsOk(st) && Enabled(st, Begin(t, job))
    ensures EndsOk(To(st, t, Enter(job)))
  {
    assert Reading(Enter(job)) == job.Read? && Writing(Enter(job)) == job.Write?;
    hide Reading, Writing;
    var st' := To(st, t, Enter(job));
    assert forall u | u in st.pcs && u != t :: st'.pcs[u] == st.pcs[u];
  }

  lemma CloseEnds(st: State, t: nat, writable: bool)
    requires EndsOk(st) && Enabled(st, Close(t, writable))
    ensures EndsOk(To(st, t, Closing(writable)))
  {
    assert !Reading(Closing(writable)) && !Writing(Closing(writable));
    hide Reading, Writing;
    var st' := To(st, t, Closing(writable));
    assert forall u | u in st.pcs && u != t :: st'.pcs[u] == st.pcs[u];
  }

  lemma CallNoLost(st: State, e: Event)
    requires LocksOk(st) && NoLost(st) && !e.Step? && Enabled(st, e)
    ensures NoLost(Next(st, e))
  {
  }

  /** An idle thread that starts a call waits for the lock. */
  lemma ToKeeps(st: State, t: nat, pc: Pc)
    requires LocksOk(st) && PointsOk(st) && t in st.pcs && st.pcs[t].Idle? && (pc.Enter? || pc.Closing?)
    ensures LocksOk(To(st, t, pc)) && PointsOk(To(st, t, pc))
  {
  }

  lemma CallKeeps(st: State, e: Event)
    requires Inv(st) && !e.Step? && Enabled(st, e)
    ensures Inv(Next(st, e))
  {
    CallEnds(st, e);
    CallNoLost(st, e);
    hide Holds, EndsOk, NoLost, LocksOk, PointsOk;
    ToKeeps(st, e.t, if e.Begin? then Enter(e.job) else Closing(e.writable));
  }

  // ---------------------------------------------------------------- every run

  /** A new pipe, and threads that are not using it. */
  ghost predicate Initial(st: State) {
    && |st.ring.data| == PIPESIZE && st.ring.nread == 0 && st.ring.nwrite == 0 && st.written == [] && st.read == []
    && st.readopen && st.writeopen && !st.freed && st.lk.None? && st.pt.None?
    && forall t <- st.pcs :: st.pcs[t].Idle?
  }

  ghost predicate Run(st: State, es: seq<Event>, st': State)
    decreases |es|
  {
    if es == [] then st' == st
    else Enabled(st, es[0]) && |st.ring.data| == PIPESIZE && Run(Next(st, es[0]), es[1..], st')
  }

  lemma {:induction false} RunKeeps(st: State, es: seq<Event>, st': State)
    requires Inv(st) && Run(st, es, st')
    ensures Inv(st')
    decreases |es|
  {
    hide Inv, StepOf;
    if es != [] {
      NextKeeps(st, es[0]);
      RunKeeps(Next(st, es[0]), es[1..], st');
    }
  }

  lemma NextKeeps(st: State, e: Event)
    requires Inv(st) && Enabled(st, e)
    ensures |st.ring.data| == PIPESIZE && Inv(Next(st, e))
  {
    hide Inv, StepOf;
    if e.Step? {
      StepKeeps(st, e.t);
    } else {
      CallKeeps(st, e);
      assert |st.ring.data| == PIPESIZE by { InvRing(st); }
    }
  }

  lemma InvRing(st: State)
    requires Inv(st)
    ensures |st.ring.data| == PIPESIZE
  {
  }

  lemma InitialInv(st: State)
    requires Initial(st)
    ensures Inv(st)
  {
  }

  /** Bytes come out in the order they went in, none lost or invented, whatever the interleaving and
      however often the counters have wrapped. */
  lemma PipeFifo(st: State, es: seq<Event>, st': State)
    requires Initial(st) && Run(st, es, st')
    ensures st'.read <= st'.written && |st'.written| - |st'.read| <= PIPESIZE
    ensures st'.ring.nread == |st'.read| % WRAP && st'.ring.nwrite == |st'.written| % WRAP
  {
    InitialInv(st);
    RunKeeps(st, es, st');
  }

  /** A thread sleeps only while it has to. */
  lemma NoLostWakeup(st: State, es: seq<Event>, st': State, t: nat)
    requires Initial(st) && Run(st, es, st') && st'.lk.None? && t in st'.pcs && st'.pcs[t].Asleep?
    ensures st'.pcs[t].job.Read? ==> |st'.written| == |st'.read| && st'.writeopen
    ensures st'.pcs[t].job.Write? ==> |st'.written| == |st'.read| + PIPESIZE && st'.readopen
  {
    hide Run, Holds, Initial;
    InitialInv(st);
    RunKeeps(st, es, st');
    TestsExact(st'.ring, st'.written, st'.read);
  }

  /** The page is freed only when nobody will touch the pipe again. */
  lemma FreedUnused(st: State, es: seq<Event>, st': State, t: nat)
    requires Initial(st) && Run(st, es, st') && st'.freed && t in st'.pcs
    ensures st'.pcs[t].Idle? && !st'.readopen && !st'.writeopen
  {
    hide Run, Initial, Holds;
    InitialInv(st);
    RunKeeps(st, es, st');
  }

  /** The locks cannot deadlock: unless every thread is idle or asleep, one can take its next step. */
  lemma CanGoOn(st: State, es: seq<Event>, st': State, t: nat) returns (u: nat)
    requires Initial(st) && Run(st, es, st') && t in st'.pcs && !st'.pcs[t].Idle? && !st'.pcs[t].Asleep?
    ensures CanStep(st', u)
  {
    hide Run, Initial, Holds;
    InitialInv(st);
    RunKeeps(st, es, st');
    if st'.pt.Some? {
      u := st'.pt.value;
      assert HoldsPt(st'.pcs[u]);
    } else if st'.lk.Some? {
      u := st'.lk.value;
      assert HoldsLk(st'.pcs[u]);
    } else {
      u := t;
    }
  }

  // ---------------------------------------------------------------- closing under a reader

  ghost predicate Leads(st: State, st': State) { exists es: seq<Event> :: Run(st, es, st') }

  lemma LeadsSelf(st: State)
    ensures Leads(st, st)
  {
    assert Run(st, [], st);
  }

  lemma LeadsFirst(st: State, e: Event, st': State)
    requires Enabled(st, e) && |st.ring.data| == PIPESIZE && Leads(Next(st, e), st')
    ensures Leads(st, st')
  {
    hide Next;
    var es: seq<Event> :| Run(Next(st, e), es, st');
    assert ([e] + es)[1..] == es;
    assert Run(st, [e] + es, st');
  }

  /** What matters about a state in which a reader is stranded. */
  ghost predicate Stranded(st: State, t: nat) {
    && st.lk.None? && t in st.pcs && st.pcs[t].Asleep? && st.pcs[t].job.Read?
    && |st.written| == |st.read| + PIPESIZE
  }

  /** A writer that finds the read end closed fills the buffer and returns -1 without a wakeup. */
  lemma {:induction false} FillUp(st: State, u: nat, t: nat) returns (st': State)
    requires Holds(st.ring, st.written, st.read) && !st.readopen && st.lk == Some(u) && t != u && t in st.pcs && u in st.pcs
    requires st.pcs[t].Asleep? && st.pcs[t].job.Read? && st.pcs[u].Body? && st.pcs[u].job.Write?
    requires var job := st.pcs[u].job; PIPESIZE - (|st.written| - |st.read|) + job.i < |job.src|
    ensures Leads(st, st') && Stranded(st', t)
    decreases PIPESIZE - (|st.written| - |st.read|)
  {
    hide Holds, Leads, Full;
    Occupied(st);
    TestsExact(st.ring, st.written, st.read);
    var st1 := StepOf(st, u);
    if Full(st.ring) {
      assert st1.pcs[u] == Leave(Writer);
      st' := StepOf(st1, u);
      LeadsSelf(st');
      LeadsFirst(st1, Step(u), st');
    } else {
      PutHolds(st.ring, st.written, st.read, st.pcs[u].job.src[st.pcs[u].job.i]);
      st' := FillUp(st1, u, t);
    }
    LeadsFirst(st, Step(u), st');
  }

  /** pipeclose(p, 0), from the call to its return. */
  lemma CloseRead(st: State, u: nat, t: nat) returns (st': State)
    requires |st.ring.data| == PIPESIZE && st.lk.None? && st.pt.None? && st.writeopen && t != u && t in st.pcs && u in st.pcs
    requires st.pcs[u] == Closing(false) && st.pcs[t].Asleep? && st.pcs[t].job.Read?
    ensures st' == st.(pcs := st'.pcs, readopen := false) && u in st'.pcs && st'.pcs[u].Idle? && t in st'.pcs && st'.pcs[t] == st.pcs[t]
    ensures forall v <- st'.pcs :: v in st.pcs && (st'.pcs[v].Closing? ==> v != u && st'.pcs[v] == st.pcs[v])
    ensures forall st2 :: Leads(st', st2) ==> Leads(st, st2)
  {
    hide Leads, Full, Empty;
    var st1 := StepOf(st, u);
    var st2 := StepOf(st1, u);
    st' := StepOf(st2, u);
    forall st3 | Leads(st', st3)
      ensures Leads(st, st3)
    {
      LeadsFirst(st2, Step(u), st3);
      LeadsFirst(st1, Step(u), st3);
      LeadsFirst(st, Step(u), st3);
    }
  }

  /** Why that part of file reference counting is needed: if the read end were closed while a reader
      is asleep, the reader could be left asleep in front of a full pipe. Since every light-weight
      process has its own reference, the code does not get there. */
  lemma ClosingStrands(st: State, u: nat, t: nat) returns (st': State)
    requires Inv(st) && st.lk.None? && st.pt.None? && u in st.pcs && st.pcs[u].Idle?
    requires t in st.pcs && st.pcs[t].Asleep? && st.pcs[t].job.Read?
    requires forall v <- st.pcs :: !st.pcs[v].Closing?
    ensures Leads(Next(st, Close(u, false)), st') && Stranded(st', t)
  {
    hide Leads, Holds, Full, Empty;
    var st0 := Next(st, Close(u, false));
    assert Excused(st, OnRead);
    assert |st.ring.data| == PIPESIZE by { InvRing(st); }
    var st1 := CloseRead(st0, u, t);
    var src := seq(PIPESIZE + 1, _ => 0);
    var st2 := Next(st1, Begin(u, Write(src, 0)));
    var st3 := StepOf(st2, u);
    assert |st.read| <= |st.written| by { assert Fifo(st); Occupied(st); }
    st' := FillUp(st3, u, t);
    LeadsFirst(st2, Step(u), st');
    LeadsFirst(st1, Begin(u, Write(src, 0)), st');
  }

  lemma Occupied(st: State)
    requires Fifo(st)
    ensures |st.ring.data| == PIPESIZE && |st.read| <= |st.written| <= |st.read| + PIPESIZE
  {
  }
}
