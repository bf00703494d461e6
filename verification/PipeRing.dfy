/** The pipe's buffer: 512 bytes addressed by two 32-bit counters that only ever grow and wrap. */
module PipeRing {

  const PIPESIZE := 512
  const WRAP := 0x1_0000_0000

  type Byte = bv8

  datatype Ring = Ring(nread: nat, nwrite: nat, data: seq<Byte>)

  predicate Empty(r: Ring) { r.nread == r.nwrite }

  predicate Full(r: Ring) { r.nwrite == (r.nread + PIPESIZE) % WRAP }

  /** `p->data[p->nwrite++ % PIPESIZE] = c`. */
  function Put(r: Ring, c: Byte): Ring
    requires |r.data| == PIPESIZE
  {
    Ring(r.nread, (r.nwrite + 1) % WRAP, r.data[r.nwrite % PIPESIZE := c])
  }

  /** `p->data[p->nread++ % PIPESIZE]`. */
  function Get(r: Ring): (Byte, Ring)
    requires |r.data| == PIPESIZE
  {
    (r.data[r.nread % PIPESIZE], Ring((r.nread + 1) % WRAP, r.nwrite, r.data))
  }

  /** The counters and the buffer represent everything written so far and how much of it was read. */
  ghost predicate Holds(r: Ring, written: seq<Byte>, read: seq<Byte>) {
    && |r.data| == PIPESIZE
    && r.nread == |read| % WRAP && r.nwrite == |written| % WRAP
    && |read| <= |written| <= |read| + PIPESIZE
    && read == written[..|read|]
    && forall k | |read| <= k < |written| :: r.data[k % PIPESIZE] == written[k]
  }

  lemma Slot(n: nat)
    ensures (n % WRAP) % PIPESIZE == n % PIPESIZE && (n % WRAP + 1) % WRAP == (n + 1) % WRAP
  {
  }

  /** The comparisons the code makes are right although the counters wrap. */
  lemma TestsExact(r: Ring, written: seq<Byte>, read: seq<Byte>)
    requires Holds(r, written, read)
    ensures Empty(r) <==> |written| == |read|
    ensures Full(r) <==> |written| == |read| + PIPESIZE
  {
  }

  /** Different positions less than a buffer apart use different slots. */
  lemma SlotsDiffer(j: nat, k: nat)
    requires j < k < j + PIPESIZE
    ensures j % PIPESIZE != k % PIPESIZE
  {
  }

  lemma PutHolds(r: Ring, written: seq<Byte>, read: seq<Byte>, c: Byte)
    requires Holds(r, written, read) && !Full(r)
    ensures Holds(Put(r, c), written + [c], read)
  {
    TestsExact(r, written, read);
    Slot(|written|);
    var r', written' := Put(r, c), written + [c];
    forall k | |read| <= k < |written'|
      ensures r'.data[k % PIPESIZE] == written'[k]
    {
      if k < |written| {
        SlotsDiffer(k, |written|);
      }
    }
  }

  /** Reading yields the oldest byte not yet read. */
  lemma GetHolds(r: Ring, written: seq<Byte>, read: seq<Byte>)
    requires Holds(r, written, read) && !Empty(r)
    ensures |read| < |written| && Get(r).0 == written[|read|]
    ensures Holds(Get(r).1, written, read + [Get(r).0])
  {
    TestsExact(r, written, read);
    Slot(|read|);
  }
}
