/** Counting the calls of a system that are in a given phase. */
module Counting {

  function Matching<T>(calls: map<nat, T>, p: T -> bool): set<nat> {
    set t | t in calls && p(calls[t])
  }

  function Count<T>(calls: map<nat, T>, p: T -> bool): nat {
    |Matching(calls, p)|
  }

  function One(b: bool): nat { if b then 1 else 0 }

  lemma CountUpdate<T>(calls: map<nat, T>, t: nat, v: T, p: T -> bool)
    ensures Count(calls[t := v], p) == Count(calls, p) - One(t in calls && p(calls[t])) + One(p(v))
  {
    var before, after := Matching(calls, p), Matching(calls[t := v], p);
    Without(before, t);
    Without(after, t);
    Elsewhere(calls, t, v, p);
  }

  lemma Elsewhere<T>(calls: map<nat, T>, t: nat, v: T, p: T -> bool)
    ensures Matching(calls[t := v], p) - {t} == Matching(calls, p) - {t}
  {
    forall u
      ensures u in Matching(calls[t := v], p) - {t} <==> u in Matching(calls, p) - {t}
    {
      if u != t && u in calls {
        assert calls[t := v][u] == calls[u];
      }
    }
  }

  lemma Without(s: set<nat>, t: nat)
    ensures |s| == |s - {t}| + One(t in s)
  {
    assert s == if t in s then (s - {t}) + {t} else s - {t};
  }

  lemma CountSame<T>(calls: map<nat, T>, calls': map<nat, T>, p: T -> bool)
    requires calls.Keys == calls'.Keys
    requires forall t :: t in calls ==> p(calls[t]) == p(calls'[t])
    ensures Count(calls, p) == Count(calls', p)
  {
    assert Matching(calls, p) == Matching(calls', p);
  }

  lemma CountIsPositive<T>(calls: map<nat, T>, p: T -> bool, t: nat)
    requires t in calls && p(calls[t])
    ensures Count(calls, p) > 0
  {
    assert t in Matching(calls, p);
  }

  lemma CountWitness<T>(calls: map<nat, T>, p: T -> bool) returns (t: nat)
    requires Count(calls, p) > 0
    ensures t in calls && p(calls[t])
  {
    t :| t in Matching(calls, p);
  }

  /** When one call matches, it is the only one. */
  lemma CountOnlyOne<T>(calls: map<nat, T>, p: T -> bool, t: nat, u: nat)
    requires Count(calls, p) <= 1
    requires t in calls && p(calls[t]) && u in calls && p(calls[u])
    ensures t == u
  {
    var m := Matching(calls, p);
    assert m == {t, u} + (m - {t, u});
    assert |{t, u}| == if t == u then 1 else 2;
  }
}
