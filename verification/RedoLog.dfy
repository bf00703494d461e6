/** The redo log as a step system: any interleaving of begin_op, log_write and end_op by any
    number of operations, every single block write of commit and of recovery, and a crash
    between any two of them. */
module RedoLog {

  const MAXOPBLOCKS: nat := 10
  const LOGSIZE: nat := 30
  const BWORDS: nat := 128

  /** A disk block, read as 32-bit words: the log header lives in one of these. */
  type Block = seq<int>
  type Disk = seq<Block>

  /** Where the log lies: the header at `start`, its data blocks at start+1 .. start+size-1. */
  datatype Geo = Geo(start: nat, size: nat, ndisk: nat) {
    ghost predicate Valid() { 1 <= size && start + size <= ndisk }
    predicate Home(b: int) { 0 <= b < ndisk && !(start <= b < start + size) }
  }

  /** One logged block update, tagged by the operation that made it. */
  datatype Write = Write(op: nat, bno: int, data: Block)

  datatype Phase =
    | Running                 // no commit in progress
    | CommitLog(tail: nat)    // write_log has copied `tail` blocks; the header write follows the last
    | Install(tail: nat)      // install_trans has copied `tail` blocks home
    | Finishing               // commit() returned; log.committing not yet cleared
    | Boot                    // memory lost; read_head comes next
    | Replay(tail: nat)       // install_trans called by recover_from_log
    | Panicked

  datatype World = World(
    geo: Geo,
    disk: Disk,
    cache: map<int, Block>,     // buffers pinned by B_DIRTY
    lh: seq<int>,               // in-memory log header: block[0..n]
    outstanding: int,
    committing: bool,
    phase: Phase,
    // what a client can say about the run so far
    base: Disk,                 // the disk when the system first came up
    history: seq<Write>,        // every log_write not lost in a crash
    durable: nat,               // how many of them survive a crash now
    commits: set<int>,          // every value `durable` has had
    active: map<nat, nat>,      // operations in progress, with the log space each may still take
    nextOp: nat)

  datatype Event =
    | BeginOp
    | LogWrite(op: nat, bno: int, data: Block)
    | EndOp(op: nat)
    | Progress
    | Crash

  // ---------------------------------------------------------------- the header block

  predicate HeadOk(b: Block) { |b| == BWORDS && 0 <= b[0] <= LOGSIZE }

  function ReadHead(b: Block): (lh: seq<int>) {
    if HeadOk(b) then b[1..1 + b[0]] else []
  }

  function WriteHead(b: Block, lh: seq<int>): (b': Block) {
    [|lh|] + lh + if |b| > 1 + |lh| then b[1 + |lh|..] else []
  }

  lemma HeadRoundTrip(b: Block, lh: seq<int>)
    requires |lh| <= LOGSIZE && |b| == BWORDS
    ensures HeadOk(WriteHead(b, lh)) && ReadHead(WriteHead(b, lh)) == lh
  {
  }

  // ---------------------------------------------------------------- what a disk means

  /** The contents after the logged updates `h`, starting from `base`. */
  function Apply(base: Disk, h: seq<Write>): (d: Disk)
    ensures |d| == |base|
  {
    if h == [] then base
    else
      var d := Apply(base, h[..|h| - 1]);
      var x := h[|h| - 1];
      if 0 <= x.bno < |d| then d[x.bno := x.data] else d
  }

  /** install_trans without interruption: the first `k` log blocks copied home. */
  function Installed(g: Geo, d: Disk, lh: seq<int>, k: nat): (d': Disk)
    requires g.Valid() && |d| == g.ndisk && k <= |lh| < g.size
    ensures |d'| == |d|
  {
    if k == 0 then d
    else
      var d' := Installed(g, d, lh, k - 1);
      if 0 <= lh[k - 1] < |d'| then d'[lh[k - 1] := d[g.start + k]] else d'
  }

  /** The disk an uninterrupted recover_from_log would leave in the home area. */
  function Recovered(g: Geo, d: Disk): (d': Disk)
    requires g.Valid() && |d| == g.ndisk
  {
    var lh := ReadHead(d[g.start]);
    if |lh| < g.size then Installed(g, d, lh, |lh|) else d
  }

  ghost predicate HomeEq(g: Geo, d: Disk, m: Disk) {
    && |d| == |m| == g.ndisk
    && forall b | 0 <= b < |d| && g.Home(b) :: d[b] == m[b]
  }

  ghost predicate Distinct(lh: seq<int>) {
    forall i, j | 0 <= i < j < |lh| :: lh[i] != lh[j]
  }

  ghost predicate GoodList(g: Geo, lh: seq<int>) {
    && |lh| <= LOGSIZE && |lh| < g.size
    && Distinct(lh)
    && forall i | 0 <= i < |lh| :: g.Home(lh[i])
  }

  /** The first `k` log blocks hold `m`'s contents of the listed home blocks. */
  ghost predicate LogHolds(g: Geo, d: Disk, lh: seq<int>, k: nat, m: Disk)
    requires g.Valid() && |d| == |m| == g.ndisk && GoodList(g, lh) && k <= |lh|
  {
    forall i | 0 <= i < k :: d[g.start + 1 + i] == m[lh[i]]
  }

  ghost predicate HomeHolds(g: Geo, d: Disk, lh: seq<int>, k: nat, m: Disk)
    requires g.Valid() && |d| == |m| == g.ndisk && GoodList(g, lh) && k <= |lh|
  {
    && (forall b | 0 <= b < |d| && g.Home(b) && b !in lh :: d[b] == m[b])
    && (forall i | 0 <= i < k :: d[lh[i]] == m[lh[i]])
  }

  /** Crash consistency: what recovery needs in order to rebuild `m`. */
  ghost predicate Recoverable(g: Geo, d: Disk, m: Disk) {
    && g.Valid() && |d| == |m| == g.ndisk
    && HeadOk(d[g.start])
    && var lh := ReadHead(d[g.start]);
    && GoodList(g, lh)
    && LogHolds(g, d, lh, |lh|, m)
    && HomeHolds(g, d, lh, 0, m)
  }

  lemma {:induction false} InstalledAt(g: Geo, d: Disk, lh: seq<int>, k: nat, b: nat)
    requires g.Valid() && |d| == g.ndisk && GoodList(g, lh) && k <= |lh| && b < |d|
    ensures b !in lh[..k] ==> Installed(g, d, lh, k)[b] == d[b]
    ensures forall i | 0 <= i < k :: lh[i] == b ==> Installed(g, d, lh, k)[b] == d[g.start + 1 + i]
  {
    if k > 0 {
      InstalledAt(g, d, lh, k - 1, b);
      assert lh[..k] == lh[..k - 1] + [lh[k - 1]];
    }
  }

  /** A crash-consistent disk recovers to exactly the image it stands for. */
  lemma RecoverableRecovers(g: Geo, d: Disk, m: Disk)
    requires Recoverable(g, d, m)
    ensures HomeEq(g, Recovered(g, d), m)
  {
    var lh := ReadHead(d[g.start]);
    forall b | 0 <= b < |d| && g.Home(b)
      ensures Recovered(g, d)[b] == m[b]
    {
      InstalledAt(g, d, lh, |lh|, b);
      assert lh[..|lh|] == lh;
    }
  }

  // ---------------------------------------------------------------- the steps

  function Image(w: World): Disk { Apply(w.base, w.history) }

  function DurableImage(w: World): Disk
    requires w.durable <= |w.history|
  {
    Apply(w.base, w.history[..w.durable])
  }

  /** bread: the pinned buffer if there is one, the disk otherwise. */
  function View(w: World, b: int): Block
    requires 0 <= b < |w.disk|
  {
    if b in w.cache then w.cache[b] else w.disk[b]
  }

  /** The kernel is running: recovery is over and nothing has panicked. */
  predicate Up(w: World) {
    w.phase.Running? || w.phase.CommitLog? || w.phase.Install? || w.phase.Finishing?
  }

  /** begin_op's guard; while it is false the caller sleeps on the log. */
  predicate MayBegin(w: World) {
    && !w.committing
    && |w.lh| + (w.outstanding + 1) * MAXOPBLOCKS <= LOGSIZE
  }

  function DoBegin(w: World): World {
    w.(outstanding := w.outstanding + 1, active := w.active[w.nextOp := MAXOPBLOCKS], nextOp := w.nextOp + 1)
  }

  predicate TooBig(w: World) { |w.lh| >= LOGSIZE || |w.lh| >= w.geo.size - 1 }

  function DoLogWrite(w: World, op: nat, bno: int, data: Block): World
    requires op in w.active
  {
    if TooBig(w) || w.outstanding < 1 then w.(phase := Panicked)
    else
      var isNew := bno !in w.lh;
      w.(lh := if isNew then w.lh + [bno] else w.lh,
         cache := w.cache[bno := data],
         history := w.history + [Write(op, bno, data)],
         active := w.active[op := if isNew && w.active[op] > 0 then w.active[op] - 1 else w.active[op]])
  }

  function DoEnd(w: World, op: nat): World {
    if w.committing then w.(outstanding := w.outstanding - 1, phase := Panicked)
    else if w.outstanding == 1 then
      w.(outstanding := 0, committing := true, active := w.active - {op},
         phase := if |w.lh| > 0 then CommitLog(0) else Finishing)
    else w.(outstanding := w.outstanding - 1, active := w.active - {op})
  }

  function Clear(w: World): World
    requires w.geo.Valid() && |w.disk| == w.geo.ndisk
  {
    w.(lh := [], disk := w.disk[w.geo.start := WriteHead(w.disk[w.geo.start], [])])
  }

  /** One copy of a log block to its home; bwrite clears the buffer's B_DIRTY. */
  function CopyHome(w: World, tail: nat): World
    requires w.geo.Valid() && |w.disk| == w.geo.ndisk && tail < |w.lh| < w.geo.size && 0 <= w.lh[tail] < |w.disk|
  {
    w.(disk := w.disk[w.lh[tail] := w.disk[w.geo.start + 1 + tail]], cache := w.cache - {w.lh[tail]})
  }

  /** The next disk access of commit or of recovery, or the end of one of them. */
  function DoProgress(w: World): World
    requires CanProgress(w)
  {
    var start := w.geo.start;
    match w.phase
    case CommitLog(tail) =>
      if tail < |w.lh| then
        w.(disk := w.disk[start + 1 + tail := View(w, w.lh[tail])], phase := CommitLog(tail + 1))
      else
        w.(disk := w.disk[start := WriteHead(w.disk[start], w.lh)], phase := Install(0),
           durable := |w.history|, commits := w.commits + {|w.history|})
    case Install(tail) =>
      if tail < |w.lh| then CopyHome(w, tail).(phase := Install(tail + 1))
      else Clear(w).(phase := Finishing)
    case Finishing =>
      w.(committing := false, phase := Running)
    case Boot =>
      w.(lh := ReadHead(w.disk[start]), phase := Replay(0))
    case Replay(tail) =>
      if tail < |w.lh| then CopyHome(w, tail).(phase := Replay(tail + 1))
      else Clear(w).(phase := Running)
    case _ => w
  }

  ghost predicate CanProgress(w: World) {
    && w.geo.Valid() && |w.disk| == w.geo.ndisk
    && !w.phase.Running? && !w.phase.Panicked?
    && (!w.phase.Boot? ==> GoodList(w.geo, w.lh))
  }

  /** Memory is gone; what the log had not committed is gone with it. */
  function DoCrash(w: World): World
    requires w.durable <= |w.history|
  {
    w.(cache := map[], lh := [], outstanding := 0, committing := false, phase := Boot,
       history := w.history[..w.durable], active := map[])
  }

  ghost predicate Enabled(w: World, e: Event) {
    match e
    case BeginOp => Up(w) && MayBegin(w)
    case LogWrite(op, bno, _) => Up(w) && op in w.active && w.geo.Home(bno)
    case EndOp(op) => Up(w) && op in w.active
    case Progress => CanProgress(w)
    case Crash => w.durable <= |w.history|
  }

  ghost function Next(w: World, e: Event): World
    requires Enabled(w, e)
  {
    match e
    case BeginOp => DoBegin(w)
    case LogWrite(op, bno, data) => DoLogWrite(w, op, bno, data)
    case EndOp(op) => DoEnd(w, op)
    case Progress => DoProgress(w)
    case Crash => DoCrash(w)
  }
}
