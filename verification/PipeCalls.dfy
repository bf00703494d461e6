/** What one call of piperead or pipewrite achieves, whatever the other threads do meanwhile. */
module PipeCalls {
  import opened Options
  import opened Pipe
  import opened PipeRing

  function Min(a: int, b: int): int { if a < b then a else b }

  /** While a thread holds the pipe's lock nobody else touches the buffer or moves the thread. */
  lemma LockAlone(st: State, e: Event, t: nat)
    requires Inv(st) && Enabled(st, e) && t in st.pcs && HoldsLk(st.pcs[t]) && e.t != t
    ensures |st.ring.data| == PIPESIZE
    ensures var st' := Next(st, e);
            && st'.ring == st.ring && st'.written == st.written && st'.read == st.read
            && t in st'.pcs && st'.pcs[t] == st.pcs[t]
  {
    hide NoLost, EndsOk, PointsOk, Full, Empty, Put, Get;
    InvRing(st);
    if e.Step? {
      assert !HoldsLk(st.pcs[e.t]);
      OtherAfter(st, e.t, t);
    }
  }

  // ---------------------------------------------------------------- piperead

  /** Before every event of the run `t` is in its copying loop. */
  ghost predicate Copying(st: State, es: seq<Event>, st': State, t: nat)
    requires Run(st, es, st')
    decreases |es|
  {
    es == [] || (t in st.pcs && st.pcs[t].Copy? && Copying(Next(st, es[0]), es[1..], st', t))
  }

  /** One step of the loop takes the oldest byte, or ends it because enough was read or nothing is left. */
  lemma CopyStep(st: State, t: nat)
    requires Inv(st) && t in st.pcs && st.pcs[t].Copy?
    ensures |st.ring.data| == PIPESIZE && |st.read| <= |st.written|
    ensures var pc, st' := st.pcs[t], StepOf(st, t);
            && st'.written == st.written && t in st'.pcs
            && if |pc.got| < pc.n && |st.read| < |st.written|
               then st'.read == st.read + [st.written[|st.read|]] && st'.pcs[t] == Copy(pc.n, pc.got + [st.written[|st.read|]])
               else st'.read == st.read && st'.pcs[t] == Finish(Reader)
  {
    TestsExact(st.ring, st.written, st.read);
    if !Empty(st.ring) {
      GetHolds(st.ring, st.written, st.read);
    }
    hide NoLost, EndsOk, LocksOk, Get, Empty, Full, Put, Holds;
  }

  /** Past its wait, piperead takes the oldest bytes that nobody has read, as many as it asked for or
      as there are. */
  lemma {:induction false} ReadRun(st: State, es: seq<Event>, st': State, t: nat)
    requires Inv(st) && Run(st, es, st') && t in st.pcs && st.pcs[t].Copy? && Copying(st, es, st', t)
    ensures t in st'.pcs && |st.read| <= |st'.read| <= |st.written|
    ensures st'.written == st.written && st'.read == st.read + st.written[|st.read|..|st'.read|]
    ensures st'.pcs[t].Copy? || st'.pcs[t] == Finish(Reader)
    ensures st'.pcs[t] == Finish(Reader) ==>
              |st'.read| - |st.read| == Min(st.pcs[t].n - |st.pcs[t].got|, |st.written| - |st.read|)
    decreases |es|
  {
    hide Inv, StepOf, CanStep, Reading, Writing;
    CopyFacts(st, t);
    if es != [] {
      var st1 := Next(st, es[0]);
      NextKeeps(st, es[0]);
      if es[0].t != t {
        HoldsWhileCopying(st, t);
        LockAlone(st, es[0], t);
      } else {
        OwnEvent(st, es[0], t);
        CopyStep(st, t);
      }
      if st1.pcs[t].Copy? {
        ReadRun(st1, es[1..], st', t);
      } else {
        assert es[1..] == [];
      }
    }
  }

  lemma CopyFacts(st: State, t: nat)
    requires Inv(st) && t in st.pcs && st.pcs[t].Copy?
    ensures |st.read| <= |st.written| && |st.pcs[t].got| <= st.pcs[t].n
  {
    assert PointOk(st, st.pcs[t]);
  }

  lemma HoldsWhileCopying(st: State, t: nat)
    requires t in st.pcs && st.pcs[t].Copy?
    ensures HoldsLk(st.pcs[t])
  {
  }

  /** A thread inside a call takes steps only. */
  lemma OwnEvent(st: State, e: Event, t: nat)
    requires Enabled(st, e) && e.t == t && t in st.pcs && !st.pcs[t].Idle?
    ensures e == Step(t)
  {
  }

  /** piperead from its test on: it goes to sleep if and only if the pipe is empty with the write end
      open; otherwise it returns the oldest unread bytes, as many as min(n, available), so none only
      if it asked for none or the writers are gone. */
  lemma ReadDelivers(st: State, es: seq<Event>, st': State, t: nat, n: nat)
    requires Inv(st) && t in st.pcs && st.pcs[t] == Body(Read(n)) && |st.ring.data| == PIPESIZE
    requires var st1 := StepOf(st, t); Run(st1, es, st') && (t in st1.pcs && st1.pcs[t].Copy? ==> Copying(st1, es, st', t))
    ensures |st.read| <= |st.written|
    ensures StepOf(st, t).pcs[t] == Sleep1(Read(n)) <==> |st.read| == |st.written| && st.writeopen
    ensures StepOf(st, t).pcs[t] != Sleep1(Read(n)) && t in st'.pcs && st'.pcs[t] == Finish(Reader) ==>
              var k := Min(n, |st.written| - |st.read|);
              && st'.read == st.read + st.written[|st.read|..|st.read| + k] && st'.written == st.written
              && (k == 0 ==> n == 0 || !st.writeopen)
  {
    TestsExact(st.ring, st.written, st.read);
    BodyStep(st, t, n);
    StepKeeps(st, t);
    if StepOf(st, t).pcs[t].Copy? {
      hide Inv, StepOf, CanStep;
      ReadRun(StepOf(st, t), es, st', t);
    }
  }

  lemma BodyStep(st: State, t: nat, n: nat)
    requires t in st.pcs && st.pcs[t] == Body(Read(n)) && |st.ring.data| == PIPESIZE
    ensures var st1 := StepOf(st, t);
            && t in st1.pcs && st1.written == st.written && st1.read == st.read
            && st1.pcs[t] == if Empty(st.ring) && st.writeopen then Sleep1(Read(n)) else Copy(n, [])
  {
  }

  // ---------------------------------------------------------------- pipewrite

  /** Before every event of the run `t` is in its call of pipewrite. */
  ghost predicate Calling(st: State, es: seq<Event>, st': State, t: nat)
    requires Run(st, es, st')
    decreases |es|
  {
    es == [] || (t in st.pcs && HasJob(st.pcs[t]) && st.pcs[t].job.Write? && Calling(Next(st, es[0]), es[1..], st', t))
  }

  /** Before every event it is in the loop, with the lock. */
  ghost predicate Looping(st: State, es: seq<Event>, st': State, t: nat)
    requires Run(st, es, st')
    decreases |es|
  {
    es == [] || (t in st.pcs && st.pcs[t].Body? && Looping(Next(st, es[0]), es[1..], st', t))
  }

  /** The bytes an event adds to the pipe, if it is one of `t`. */
  ghost function Added(st: State, e: Event, t: nat): seq<Byte>
    requires e.Step? ==> CanStep(st, e.t) && |st.ring.data| == PIPESIZE
  {
    if e.t == t && |st.written| <= |Next(st, e).written| then Next(st, e).written[|st.written|..] else []
  }

  /** The bytes that steps of `t` add to the pipe. */
  ghost function PutBy(st: State, es: seq<Event>, st': State, t: nat): seq<Byte>
    requires Run(st, es, st')
    decreases |es|
  {
    if es == [] then [] else Added(st, es[0], t) + PutBy(Next(st, es[0]), es[1..], st', t)
  }

  /** One event of the run, seen from a thread in pipewrite: it stays in its call having put nothing, puts
      its next byte, or leaves the loop, which it does with everything put or because the read end is
      closed. */
  lemma WriteStep(st: State, e: Event, t: nat)
    requires Inv(st) && Enabled(st, e) && t in st.pcs && HasJob(st.pcs[t]) && st.pcs[t].job.Write?
    requires st.pcs[t].job.i <= |st.pcs[t].job.src|
    ensures |st.ring.data| == PIPESIZE && t in Next(st, e).pcs
    ensures var job, st1 := st.pcs[t].job, Next(st, e);
            var put, pc1 := Added(st, e, t), st1.pcs[t];
            || (HasJob(pc1) && pc1.job == job && put == [])
            || (HasJob(pc1) && job.i < |job.src| && pc1.job == Write(job.src, job.i + 1) && put == [job.src[job.i]])
            || (pc1 == Finish(Writer) && job.i == |job.src| && put == [])
            || (pc1 == Leave(Writer) && !st.readopen && put == [])
  {
    hide NoLost, EndsOk, PointsOk, LocksOk, Full, Empty, Put, Get;
    InvRing(st);
    if e.t == t {
      OwnEvent(st, e, t);
      KeysAfter(st, t);
    } else if e.Step? {
      KeysAfter(st, e.t);
      OtherAfter(st, e.t, t);
    }
  }

  lemma OneByte(src: seq<Byte>, i: nat, put: seq<Byte>)
    requires i <= |src|
    ensures [] + put == put
    ensures i < |src| && put <= src[i + 1..] ==> [src[i]] + put <= src[i..]
    ensures i < |src| && put == src[i + 1..] ==> [src[i]] + put == src[i..]
  {
    if i < |src| {
      assert src[i..] == [src[i]] + src[i + 1..];
    }
  }

  /** pipewrite puts its bytes in order, each once, also when it sleeps in between: those it has put
      are the first `i` of its source, and all of them when it finishes. */
  lemma {:induction false} WriteRun(st: State, es: seq<Event>, st': State, t: nat)
    requires Inv(st) && Run(st, es, st') && t in st.pcs && HasJob(st.pcs[t]) && st.pcs[t].job.Write?
    requires st.pcs[t].job.i <= |st.pcs[t].job.src| && Calling(st, es, st', t)
    ensures t in st'.pcs
    ensures HasPut(st.pcs[t].job.src, st.pcs[t].job.i, PutBy(st, es, st', t), st'.pcs[t])
    decreases |es|
  {
    hide Inv, Next, StepOf, CanStep, Reading, Writing, Added, HasPut;
    var src, i := st.pcs[t].job.src, st.pcs[t].job.i;
    if es == [] {
      PutNothing(src, i, st.pcs[t]);
    } else {
      var st1, add := Next(st, es[0]), Added(st, es[0], t);
      NextKeeps(st, es[0]);
      WriteStep(st, es[0], t);
      if HasJob(st1.pcs[t]) {
        WriteRun(st1, es[1..], st', t);
      } else {
        assert es[1..] == [];
        PutNothing(src, i, st1.pcs[t]);
      }
      PutMore(src, i, add, PutBy(st1, es[1..], st', t), st'.pcs[t]);
    }
  }

  /** A call with the first `i` bytes of `src` behind it has put `put` since and is now at `pc`. */
  ghost predicate HasPut(src: seq<Byte>, i: nat, put: seq<Byte>, pc: Pc) {
    && i <= |src| && put <= src[i..]
    && (HasJob(pc) || pc == Finish(Writer) || pc == Leave(Writer))
    && (HasJob(pc) ==> pc.job == Write(src, i + |put|))
    && (pc == Finish(Writer) ==> put == src[i..])
  }

  lemma PutNothing(src: seq<Byte>, i: nat, pc: Pc)
    requires i <= |src|
    ensures (HasJob(pc) && pc.job == Write(src, i)) || (pc == Finish(Writer) && i == |src|) || pc == Leave(Writer) ==> HasPut(src, i, [], pc)
  {
  }

  lemma PutMore(src: seq<Byte>, i: nat, add: seq<Byte>, put: seq<Byte>, pc: Pc)
    requires i <= |src|
    ensures add == [] && HasPut(src, i, put, pc) ==> HasPut(src, i, add + put, pc)
    ensures i < |src| && add == [src[i]] && HasPut(src, i + 1, put, pc) ==> HasPut(src, i, add + put, pc)
  {
    OneByte(src, i, put);
  }

  /** While it does not sleep nobody else's bytes come between. */
  lemma {:induction false} WriteContiguous(st: State, es: seq<Event>, st': State, t: nat)
    requires Inv(st) && Run(st, es, st') && Looping(st, es, st', t)
    ensures st'.written == st.written + PutBy(st, es, st', t)
    decreases |es|
  {
    hide Inv, StepOf, CanStep, Reading, Writing;
    if es != [] {
      var st1 := Next(st, es[0]);
      NextKeeps(st, es[0]);
      if es[0].t != t {
        LockAlone(st, es[0], t);
      } else {
        OwnEvent(st, es[0], t);
        WritesMore(st, t);
      }
      hide Next;
      WriteContiguous(st1, es[1..], st', t);
    }
  }

  lemma WritesMore(st: State, t: nat)
    requires t in st.pcs && |st.ring.data| == PIPESIZE
    ensures var st1 := StepOf(st, t); |st.written| <= |st1.written| && st1.written == st.written + st1.written[|st.written|..]
  {
  }

  /** A whole call: from pipewrite's entry to its last wakeup exactly its source was put. */
  lemma WriteDelivers(st: State, es: seq<Event>, st': State, t: nat, src: seq<Byte>)
    requires Inv(st) && t in st.pcs && st.pcs[t] == Enter(Write(src, 0)) && Run(st, es, st') && Calling(st, es, st', t)
    ensures t in st'.pcs && (st'.pcs[t] == Finish(Writer) ==> PutBy(st, es, st', t) == src)
  {
    WriteRun(st, es, st', t);
    assert src[0..] == src;
  }

  // ---------------------------------------------------------------- pipeclose

  predicate Reaping(pc: Pc) { (pc.Finish? || pc.Leave?) && pc.role.Closer? }

  /** With both ends closed the page is freed, or the thread that closed the second one still holds the
      lock and will free it. */
  ghost predicate Reaped(st: State) {
    !st.readopen && !st.writeopen ==> st.freed || (st.lk.Some? && st.lk.value in st.pcs && Reaping(st.pcs[st.lk.value]))
  }

  lemma ReapedNext(st: State, e: Event)
    requires Inv(st) && Reaped(st) && Enabled(st, e)
    ensures |st.ring.data| == PIPESIZE && Reaped(Next(st, e))
  {
    InvRing(st);
    hide NoLost, PointsOk, Full, Empty, Put, Get, Puts, Gets, Fifo;
    if e.Step? {
      KeysAfter(st, e.t);
      if st.lk.Some? && st.lk.value in st.pcs && st.lk.value != e.t {
        OtherAfter(st, e.t, st.lk.value);
      }
    }
  }

  /** The page of a pipe is never leaked: in every state of every run with both ends closed and the lock
      free it has been freed. */
  lemma {:induction false} NeverLeaked(st: State, es: seq<Event>, st': State)
    requires Inv(st) && Reaped(st) && Run(st, es, st')
    ensures Reaped(st') && (st'.lk.None? && !st'.readopen && !st'.writeopen ==> st'.freed)
    decreases |es|
  {
    hide Inv, StepOf, CanStep, Reading, Writing;
    if es != [] {
      NextKeeps(st, es[0]);
      ReapedNext(st, es[0]);
      NeverLeaked(Next(st, es[0]), es[1..], st');
    }
  }

  ghost predicate OthersIdle(st: State, t: nat) {
    t in st.pcs && st.pt.None? && |st.ring.data| == PIPESIZE && forall u | u in st.pcs && u != t :: st.pcs[u].Idle?
  }

  /** One step of a thread that closes an end, alone with the pipe. */
  lemma CloserStep(st: State, t: nat)
    requires OthersIdle(st, t) && ((st.pcs[t].Closing? && st.lk.None?) || Reaping(st.pcs[t]))
    ensures CanStep(st, t) && OthersIdle(StepOf(st, t), t)
    ensures var pc, st' := st.pcs[t], StepOf(st, t);
            && st'.writeopen == (st.writeopen && pc != Closing(true)) && st'.readopen == (st.readopen && pc != Closing(false))
            && st'.freed == (st.freed || (pc.Leave? && !st.readopen && !st.writeopen))
            && st'.pcs[t] == (if pc.Closing? then Finish(Closer(pc.writable)) else if pc.Finish? then Leave(pc.role) else Idle)
            && (pc.Leave? ==> st'.lk.None?)
  {
    hide Full, Empty, Put, Get;
    KeysAfter(st, t);
    forall u | u in st.pcs && u != t
      ensures StepOf(st, t).pcs[u].Idle?
    {
      OtherAfter(st, t, u);
    }
  }

  lemma Walk(st: State, t: nat, st': State)
    requires Inv(st) && CanStep(st, t) && |st.ring.data| == PIPESIZE && Leads(StepOf(st, t), st')
    ensures Leads(st, st')
  {
    hide Inv, StepOf, CanStep;
    LeadsFirst(st, Step(t), st');
  }

  /** Closing one end takes three steps of a thread alone with the pipe. */
  lemma CloseEnd(st: State, t: nat, writable: bool) returns (st': State)
    requires Inv(st) && OthersIdle(st, t) && st.pcs[t].Idle? && st.lk.None? && (if writable then st.writeopen else st.readopen)
    ensures Leads(st, st') && Inv(st') && OthersIdle(st', t) && st'.pcs[t].Idle? && st'.lk.None?
    ensures st'.writeopen == (st.writeopen && !writable) && st'.readopen == (st.readopen && writable)
    ensures !st'.writeopen && !st'.readopen ==> st'.freed
  {
    hide Inv, StepOf, CanStep;
    var e := Close(t, writable);
    NextKeeps(st, e);
    var st1 := Next(st, e);
    CloserStep(st1, t);
    var st2 := StepOf(st1, t);
    StepKeeps(st1, t);
    CloserStep(st2, t);
    var st3 := StepOf(st2, t);
    StepKeeps(st2, t);
    CloserStep(st3, t);
    st' := StepOf(st3, t);
    StepKeeps(st3, t);
    hide OthersIdle, Leads;
    LeadsSelf(st');
    Walk(st3, t, st');
    Walk(st2, t, st');
    Walk(st1, t, st');
    LeadsFirst(st, e, st');
  }

  /** From a new pipe a thread can close both ends and have the page freed. */
  lemma CanBeFreed(st: State, t: nat) returns (st1: State, st2: State)
    requires Initial(st) && t in st.pcs
    ensures Leads(st, st1) && Leads(st1, st2) && st2.freed
  {
    InitialInv(st);
    assert OthersIdle(st, t);
    hide Inv, OthersIdle;
    st1 := CloseEnd(st, t, false);
    st2 := CloseEnd(st1, t, true);
  }
}
