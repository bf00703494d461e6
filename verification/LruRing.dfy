/** The list bio.c threads through its buffers with prev and next, closed into a ring by a head
    that is no buffer. Buffers are numbered from 0; the head comes last. */
module LruRing {

  const NBUF: nat := 30
  const HEAD: nat := NBUF

  datatype Links = Links(next: seq<nat>, prev: seq<nat>)

  ghost predicate Sized(r: Links) { |r.next| == NBUF + 1 && |r.prev| == NBUF + 1 }

  /** Position `i` on the way round: the head, the listed buffers in order, the head again. */
  ghost function At(order: seq<nat>, i: nat): nat {
    if 1 <= i <= |order| then order[i - 1] else HEAD
  }

  ghost predicate Distinct(order: seq<nat>) {
    && (forall i | 0 <= i < |order| :: order[i] < NBUF)
    && forall i, j | 0 <= i < j < |order| :: order[i] != order[j]
  }

  /** The links lead through exactly `order`, forwards and backwards. */
  ghost predicate Ring(r: Links, order: seq<nat>) {
    && Sized(r) && Distinct(order)
    && forall i | 0 <= i <= |order| ::
        r.next[At(order, i)] == At(order, i + 1) && r.prev[At(order, i + 1)] == At(order, i)
  }

  /** Every buffer is on the list. */
  ghost predicate Complete(order: seq<nat>) {
    forall b: nat | b < NBUF :: b in order
  }

  /** bio.c's relinking of `b` behind the head. */
  function PushFront(r: Links, b: nat): Links
    requires |r.next| == NBUF + 1 && |r.prev| == NBUF + 1 && b < NBUF && r.next[HEAD] <= NBUF
  {
    var first := r.next[HEAD];
    Links(r.next[b := first][HEAD := b], r.prev[b := HEAD][first := b])
  }

  /** bio.c's bypassing of `b`. */
  function Unlink(r: Links, b: nat): Links
    requires |r.next| == NBUF + 1 && |r.prev| == NBUF + 1 && b < NBUF && r.next[b] <= NBUF && r.prev[b] <= NBUF
  {
    Links(r.next[r.prev[b] := r.next[b]], r.prev[r.next[b] := r.prev[b]])
  }

  lemma AtDistinct(order: seq<nat>, i: nat, j: nat)
    requires Distinct(order) && i <= |order| && j <= |order| && i != j
    ensures At(order, i) != At(order, j) && At(order, i) <= NBUF
    ensures At(order, i + 1) != At(order, j + 1) && At(order, i + 1) <= NBUF
  {
  }

  lemma PushRing(r: Links, order: seq<nat>, b: nat)
    requires Ring(r, order) && b < NBUF && b !in order
    ensures r.next[HEAD] <= NBUF && Ring(PushFront(r, b), [b] + order)
  {
    assert At(order, 0) == HEAD;
    var first := r.next[HEAD];
    assert first == At(order, 1);
    var r' := PushFront(r, b);
    var order' := [b] + order;
    forall i | 0 <= i <= |order'|
      ensures r'.next[At(order', i)] == At(order', i + 1) && r'.prev[At(order', i + 1)] == At(order', i)
    {
      if i >= 2 {
        assert At(order', i) == At(order, i - 1) && At(order', i + 1) == At(order, i);
        AtDistinct(order, i - 1, 0);
      }
    }
  }

  function Without(order: seq<nat>, k: nat): seq<nat>
    requires k < |order|
  {
    order[..k] + order[k + 1..]
  }

  lemma UnlinkRing(r: Links, order: seq<nat>, k: nat)
    requires Ring(r, order) && k < |order|
    ensures r.next[order[k]] <= NBUF && r.prev[order[k]] <= NBUF && r.next[order[k]] != order[k]
    ensures Ring(Unlink(r, order[k]), Without(order, k)) && order[k] !in Without(order, k)
  {
    var b := order[k];
    assert At(order, k + 1) == b;
    assert r.next[b] == At(order, k + 2) && r.prev[b] == At(order, k);
    var r' := Unlink(r, b);
    var order' := Without(order, k);
    forall i | 0 <= i <= |order'|
      ensures r'.next[At(order', i)] == At(order', i + 1) && r'.prev[At(order', i + 1)] == At(order', i)
    {
      UnlinkStep(r, order, k, i);
    }
  }

  lemma UnlinkStep(r: Links, order: seq<nat>, k: nat, i: nat)
    requires Ring(r, order) && k < |order| && i < |order|
    requires r.next[order[k]] == At(order, k + 2) && r.prev[order[k]] == At(order, k)
    requires At(order, k + 2) <= NBUF && At(order, k) <= NBUF
    ensures var r' := Unlink(r, order[k]);
            var order' := Without(order, k);
            At(order', i) <= NBUF && At(order', i + 1) <= NBUF &&
            r'.next[At(order', i)] == At(order', i + 1) && r'.prev[At(order', i + 1)] == At(order', i)
  {
    var order' := Without(order, k);
    assert At(order', i) == if i <= k then At(order, i) else At(order, i + 1);
    assert At(order', i + 1) == if i + 1 <= k then At(order, i + 1) else At(order, i + 2);
    if i < k {
      AtDistinct(order, i, k);
      AtDistinct(order, i, k + 1);
    } else if i > k {
      AtDistinct(order, i + 1, k);
      AtDistinct(order, i + 1, k + 1);
    }
  }

  /** Moving a buffer to the front loses none. */
  lemma FrontComplete(order: seq<nat>, k: nat)
    requires Complete(order) && k < |order|
    ensures Complete([order[k]] + Without(order, k))
  {
    forall b: nat | b < NBUF
      ensures b in [order[k]] + Without(order, k)
    {
      var i := Listed(order, b);
      assert i < k ==> Without(order, k)[i] == b;
      assert i > k ==> Without(order, k)[i - 1] == b;
    }
  }

  lemma Listed(order: seq<nat>, b: nat) returns (k: nat)
    requires Complete(order) && b < NBUF
    ensures k < |order| && order[k] == b
  {
    assert b in order;
    k :| 0 <= k < |order| && order[k] == b;
  }
}
