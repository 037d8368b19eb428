/**
 Sums of natural numbers over finite sets. The summands come from a map; as in a
 Go map read, a key that is absent contributes zero.
 */
module Sums {

  function Get<K>(m: map<K, nat>, k: K): nat {
    if k in m then m[k] else 0
  }

  ghost function Sum<K>(s: set<K>, m: map<K, nat>): nat
    decreases |s|
  {
    if s == {} then 0
    else
      var x :| x in s;
      Get(m, x) + Sum(s - {x}, m)
  }

  /** The order in which elements are taken out does not matter. */
  lemma {:induction false} SumRemove<K>(s: set<K>, m: map<K, nat>, x: K)
    requires x in s
    ensures Sum(s, m) == Get(m, x) + Sum(s - {x}, m)
    decreases |s|
  {
    var y :| y in s && Sum(s, m) == Get(m, y) + Sum(s - {y}, m);
    if y != x {
      SumRemove(s - {y}, m, x);
      SumRemove(s - {x}, m, y);
      assert s - {y} - {x} == s - {x} - {y};
    }
  }

  lemma {:induction false} SumUnion<K>(s: set<K>, t: set<K>, m: map<K, nat>)
    requires s !! t
    ensures Sum(s + t, m) == Sum(s, m) + Sum(t, m)
    decreases |s|
  {
    if s == {} {
      assert s + t == t;
    } else {
      var x :| x in s;
      SumRemove(s, m, x);
      SumRemove(s + t, m, x);
      assert s + t - {x} == (s - {x}) + t;
      SumUnion(s - {x}, t, m);
    }
  }

  lemma SumSubset<K>(s: set<K>, t: set<K>, m: map<K, nat>)
    requires s <= t
    ensures Sum(s, m) <= Sum(t, m)
    ensures Sum(t, m) == Sum(s, m) + Sum(t - s, m)
  {
    SumUnion(s, t - s, m);
    assert s + (t - s) == t;
  }

  /** Only the summands of members matter. */
  lemma {:induction false} SumCongruent<K>(s: set<K>, m: map<K, nat>, n: map<K, nat>)
    requires forall x :: x in s ==> Get(m, x) == Get(n, x)
    ensures Sum(s, m) == Sum(s, n)
    decreases |s|
  {
    if s != {} {
      var x :| x in s;
      SumRemove(s, m, x);
      SumRemove(s, n, x);
      SumCongruent(s - {x}, m, n);
    }
  }

  lemma {:induction false} SumZero<K>(s: set<K>, m: map<K, nat>)
    requires forall x :: x in s ==> Get(m, x) == 0
    ensures Sum(s, m) == 0
    decreases |s|
  {
    if s != {} {
      var x :| x in s;
      SumRemove(s, m, x);
      SumZero(s - {x}, m);
    }
  }

  /** Inclusion-exclusion for two sets inside a common universe. */
  lemma SumOverlap<K>(s: set<K>, t: set<K>, u: set<K>, m: map<K, nat>)
    requires s <= u && t <= u
    ensures Sum(s, m) + Sum(t, m) <= Sum(u, m) + Sum(s * t, m)
  {
    SumSubset(s * t, s, m);
    assert s - s * t == s - t;
    SumUnion(s - t, t, m);
    SumSubset((s - t) + t, u, m);
  }

  ghost predicate Apart<K, L>(labels: set<L>, groups: map<L, set<K>>)
    requires labels <= groups.Keys
  {
    forall b, c :: b in labels && c in labels && b != c ==> groups[b] !! groups[c]
  }

  ghost function Covered<K, L>(labels: set<L>, groups: map<L, set<K>>): set<K>
    requires labels <= groups.Keys
  {
    set b, x | b in labels && x in groups[b] :: x
  }

  lemma CoveredBy<K, L>(labels: set<L>, groups: map<L, set<K>>, x: K) returns (b: L)
    requires labels <= groups.Keys && x in Covered(labels, groups)
    ensures b in labels && x in groups[b]
  {
    b :| b in labels && x in groups[b];
  }

  lemma CoveredRest<K, L>(labels: set<L>, groups: map<L, set<K>>, b: L)
    requires b in labels && labels <= groups.Keys && Apart(labels, groups)
    ensures Covered(labels, groups) == groups[b] + Covered(labels - {b}, groups)
    ensures groups[b] !! Covered(labels - {b}, groups)
  {
    forall x ensures x in Covered(labels, groups) <==> x in groups[b] || x in Covered(labels - {b}, groups) {
      if x in Covered(labels, groups) && x !in groups[b] {
        var c :| c in labels && x in groups[c];
        assert c in labels - {b};
      }
    }
  }

  ghost predicate Totals<K, L>(labels: set<L>, groups: map<L, set<K>>, m: map<K, nat>, g: map<L, nat>)
    requires labels <= groups.Keys
  {
    labels <= g.Keys && forall b :: b in labels ==> g[b] == Sum(groups[b], m)
  }

  /** Weights grouped by a label add up to the weight of all labelled members. */
  lemma {:induction false} SumGroups<K, L>(labels: set<L>, groups: map<L, set<K>>, m: map<K, nat>, g: map<L, nat>)
    requires labels <= groups.Keys && Apart(labels, groups) && Totals(labels, groups, m, g)
    ensures Sum(labels, g) == Sum(Covered(labels, groups), m)
    decreases |labels|
  {
    if labels == {} {
      assert Covered(labels, groups) == {};
    } else {
      var b := Member(labels);
      SumRemove(labels, g, b);
      CoveredRest(labels, groups, b);
      SumGroups(labels - {b}, groups, m, g);
      SumUnion(groups[b], Covered(labels - {b}, groups), m);
    }
  }

  lemma Member<T>(s: set<T>) returns (x: T)
    requires s != {}
    ensures x in s
  {
    x :| x in s;
  }
}
