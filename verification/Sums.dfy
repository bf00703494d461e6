/** Sums over finite maps: the log space still reserved by all operations in progress. */
module Sums {

  ghost function Sum(m: map<nat, nat>): (s: nat)
    decreases |m.Keys|
  {
    if m.Keys == {} then 0
    else
      var k :| k in m;
      assert (m - {k}).Keys == m.Keys - {k};
      m[k] + Sum(m - {k})
  }

  lemma {:induction false} SumRemove(m: map<nat, nat>, k: nat)
    requires k in m
    ensures Sum(m) == m[k] + Sum(m - {k})
    decreases |m.Keys|
  {
    var j :| j in m && Sum(m) == m[j] + Sum(m - {j});
    if j != k {
      assert (m - {j}).Keys == m.Keys - {j};
      assert (m - {k}).Keys == m.Keys - {k};
      SumRemove(m - {j}, k);
      SumRemove(m - {k}, j);
      assert (m - {j}) - {k} == (m - {k}) - {j};
    }
  }

  lemma SumUpdate(m: map<nat, nat>, k: nat, v: nat)
    ensures Sum(m[k := v]) == v + Sum(m - {k})
  {
    SumRemove(m[k := v], k);
    assert m[k := v] - {k} == m - {k};
  }

  lemma {:induction false} SumBound(m: map<nat, nat>, bound: nat)
    requires forall k <- m :: m[k] <= bound
    ensures Sum(m) <= bound * |m|
    decreases |m.Keys|
  {
    if m.Keys != {} {
      var k :| k in m;
      SumRemove(m, k);
      assert (m - {k}).Keys == m.Keys - {k};
      SumBound(m - {k}, bound);
      assert bound * (|m| - 1) == bound * |m| - bound;
    }
  }

  lemma {:induction false} SumSome(m: map<nat, nat>) returns (k: nat)
    requires Sum(m) > 0
    ensures k in m && m[k] > 0
    decreases |m.Keys|
  {
    k :| k in m && Sum(m) == m[k] + Sum(m - {k});
    if m[k] == 0 {
      assert (m - {k}).Keys == m.Keys - {k};
      k := SumSome(m - {k});
    }
  }

  lemma {:induction false} SumAll(m: map<nat, nat>, v: nat)
    requires forall k <- m :: m[k] == v
    ensures Sum(m) == v * |m|
    decreases |m.Keys|
  {
    if m.Keys != {} {
      var k :| k in m;
      SumRemove(m, k);
      assert (m - {k}).Keys == m.Keys - {k};
      SumAll(m - {k}, v);
      assert v * (|m| - 1) == v * |m| - v;
    }
  }
}
