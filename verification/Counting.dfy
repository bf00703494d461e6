/** How many threads satisfy a condition. */
module Counting {

  ghost function Those<T>(m: map<nat, T>, p: T -> bool): set<nat> {
    set t | t in m && p(m[t])
  }

  ghost function Count<T>(m: map<nat, T>, p: T -> bool): nat { |Those(m, p)| }

  /** Changing one thread changes the count by what that thread contributes. */
  lemma CountUpdate<T>(m: map<nat, T>, t: nat, x: T, p: T -> bool)
    requires t in m
    ensures Count(m[t := x], p) == Count(m, p) - (if p(m[t]) then 1 else 0) + (if p(x) then 1 else 0)
  {
    var rest := Those(m, p) - {t};
    assert Those(m, p) == if p(m[t]) then rest + {t} else rest;
    assert Those(m[t := x], p) == if p(x) then rest + {t} else rest;
  }

  lemma CountSome<T>(m: map<nat, T>, p: T -> bool) returns (t: nat)
    requires Count(m, p) > 0
    ensures t in m && p(m[t])
  {
    t :| t in Those(m, p);
  }

  lemma CountPositive<T>(m: map<nat, T>, p: T -> bool, t: nat)
    requires t in m && p(m[t])
    ensures Count(m, p) > 0
  {
    assert t in Those(m, p);
  }

  /** If `t` is the only one satisfying `p`, and what satisfies `q` satisfies `p`, the count of
      `q` is decided by `t`. */
  lemma CountOnly<T(!new)>(m: map<nat, T>, t: nat, p: T -> bool, q: T -> bool)
    requires t in m && p(m[t]) && Count(m, p) == 1
    requires forall x :: q(x) ==> p(x)
    ensures Count(m, q) == if q(m[t]) then 1 else 0
  {
    var u :| Those(m, p) == {u} by { Singleton(Those(m, p)); }
    assert t in Those(m, p);
    assert forall x :: x in Those(m, q) ==> x in Those(m, p);
    assert Those(m, q) <= {t};
    if q(m[t]) {
      assert Those(m, q) == {t};
    } else {
      assert Those(m, q) == {};
    }
  }

  lemma Singleton(s: set<nat>)
    requires |s| == 1
    ensures exists u :: s == {u}
  {
    var u :| u in s;
    assert |s - {u}| == 0;
    assert s == {u};
  }

  lemma CountSubset<T(!new)>(m: map<nat, T>, p: T -> bool, q: T -> bool)
    requires forall x :: q(x) ==> p(x)
    ensures Count(m, q) <= Count(m, p)
  {
    assert Those(m, q) <= Those(m, p);
    Smaller(Those(m, q), Those(m, p));
  }

  lemma {:induction false} Smaller(a: set<nat>, b: set<nat>)
    requires a <= b
    ensures |a| <= |b|
  {
    assert b == a + (b - a);
    assert |b| == |a| + |b - a|;
  }

  lemma CountTwo<T>(m: map<nat, T>, p: T -> bool, t: nat, u: nat)
    requires t in m && u in m && t != u && p(m[t]) && p(m[u])
    ensures Count(m, p) >= 2
  {
    assert {t, u} <= Those(m, p);
    Smaller({t, u}, Those(m, p));
  }
}
