/**
 Work packages of the slot manager: queued packages move to the refined list once they
 appear in recent history, and to the accumulated list once they appear in accumulation
 history.
 */
module WorkPackages {
  import opened Sums

  type Hash = int

  function Elems(s: seq<Hash>): set<Hash> {
    set x | x in s
  }

  /** The list without the given packages, in order. */
  function Without(s: seq<Hash>, gone: set<Hash>): seq<Hash> {
    if s == [] then []
    else Without(s[..|s| - 1], gone) + if s[|s| - 1] in gone then [] else [s[|s| - 1]]
  }

  predicate Distinct(s: seq<Hash>) {
    forall i, j :: 0 <= i < j < |s| ==> s[i] != s[j]
  }

  lemma {:induction false} WithoutElems(s: seq<Hash>, gone: set<Hash>)
    ensures |Without(s, gone)| <= |s|
    ensures Elems(Without(s, gone)) == Elems(s) - gone
    ensures Distinct(s) ==> Distinct(Without(s, gone))
  {
    if s != [] {
      var init, last := s[..|s| - 1], s[|s| - 1];
      WithoutElems(init, gone);
      ElemsSnoc(init, last);
      ElemsSnoc(Without(init, gone), last);
      assert s == init + [last];
      assert last in gone ==> Without(s, gone) == Without(init, gone);
      if Distinct(s) && last !in gone {
        DistinctSnoc(init, Without(init, gone), last);
      }
    }
  }

  lemma ElemsSnoc(s: seq<Hash>, x: Hash)
    ensures Elems(s + [x]) == Elems(s) + {x}
  {
  }

  lemma DistinctSnoc(s: seq<Hash>, t: seq<Hash>, x: Hash)
    requires Distinct(s + [x]) && Distinct(t) && Elems(t) <= Elems(s)
    ensures Distinct(t + [x])
  {
    forall i | 0 <= i < |t| ensures t[i] != x {
      assert t[i] in Elems(t);
      var j :| 0 <= j < |s| && s[j] == t[i];
      assert (s + [x])[j] == t[i] && (s + [x])[|s|] == x;
    }
  }

  lemma {:induction false} WithoutAppend(s: seq<Hash>, t: seq<Hash>, gone: set<Hash>)
    ensures Without(s + t, gone) == Without(s, gone) + Without(t, gone)
    decreases |t|
  {
    if t == [] {
      assert s + t == s;
    } else {
      var init, last := t[..|t| - 1], t[|t| - 1];
      assert (s + t)[..|s + t| - 1] == s + init && (s + t)[|s + t| - 1] == last;
      WithoutAppend(s, init, gone);
    }
  }

  lemma WithoutOne(x: Hash, gone: set<Hash>)
    ensures Without([x], gone) == if x in gone then [] else [x]
  {
    assert [x][..0] == [];
  }

  lemma {:induction false} WithoutTwice(s: seq<Hash>, a: set<Hash>, b: set<Hash>)
    ensures Without(Without(s, a), b) == Without(s, a + b)
  {
    if s != [] {
      var init, last := s[..|s| - 1], s[|s| - 1];
      WithoutTwice(init, a, b);
      WithoutAppend(Without(init, a), if last in a then [] else [last], b);
      WithoutOne(last, b);
    }
  }

  /** Only removals of packages in the list matter. */
  lemma {:induction false} WithoutCongruent(s: seq<Hash>, a: set<Hash>, b: set<Hash>)
    requires forall x :: x in s ==> (x in a <==> x in b)
    ensures Without(s, a) == Without(s, b)
  {
    if s != [] {
      var last := s[|s| - 1];
      assert last in s && (last in a <==> last in b);
      WithoutCongruent(s[..|s| - 1], a, b);
    }
  }

  lemma WithoutSnoc(s: seq<Hash>, i: nat, gone: set<Hash>)
    requires i < |s|
    ensures Without(s[..i + 1], gone) == Without(s[..i], gone) + if s[i] in gone then [] else [s[i]]
  {
    assert s[..i + 1][..i] == s[..i];
  }

  /** Compacts a buffer in place, keeping the packages that stay, and truncates it. */
  method Compact(a: array<Hash>, gone: set<Hash>) returns (kept: nat)
    modifies a
    ensures kept <= a.Length && a[..kept] == Without(old(a[..]), gone)
  {
    kept := 0;
    ghost var before := a[..];
    for i := 0 to a.Length
      invariant kept <= i
      invariant a[..kept] == Without(before[..i], gone)
      invariant forall j :: i <= j < a.Length ==> a[j] == before[j]
    {
      var wp := a[i];
      WithoutSnoc(before, i, gone);
      if wp !in gone {
        ghost var prefix := a[..kept];
        a[kept] := wp;
        kept := kept + 1;
        assert a[..kept] == prefix + [wp];
      }
    }
    assert before[..a.Length] == before;
  }

  method RemoveWPsFromSlice(slice: seq<Hash>, gone: set<Hash>) returns (kept: seq<Hash>)
    ensures kept == Without(slice, gone)
  {
    if gone == {} {
      WithoutNone(slice);
      return slice;
    }
    var a := new Hash[|slice|](i requires 0 <= i < |slice| => slice[i]);
    assert a[..] == slice;
    var n := Compact(a, gone);
    kept := a[..n];
  }

  lemma {:induction false} WithoutNone(s: seq<Hash>)
    ensures Without(s, {}) == s
  {
    if s != [] {
      WithoutNone(s[..|s| - 1]);
    }
  }

  /** The packages of a history, any block. */
  function Reported(history: seq<seq<Hash>>): set<Hash> {
    set b, x | b in history && x in b :: x
  }

  lemma ReportedCons(history: seq<seq<Hash>>, i: nat)
    requires i < |history|
    ensures Reported(history[i..]) == Elems(history[i]) + Reported(history[i + 1..])
  {
    assert history[i..] == [history[i]] + history[i + 1..];
    forall x ensures x in Reported(history[i..]) <==> x in Elems(history[i]) || x in Reported(history[i + 1..]) {
      if x in Elems(history[i]) {
        assert history[i] in history[i..];
      }
      if x in Reported(history[i + 1..]) {
        var b :| b in history[i + 1..] && x in b;
        assert b in history[i..];
      }
    }
  }

  /** Scans a history from the newest block, collecting the wanted packages. */
  method FindInHistory(history: seq<seq<Hash>>, wanted: set<Hash>) returns (found: set<Hash>)
    ensures found == Reported(history) * wanted
  {
    found := {};
    var i := |history|;
    while i > 0
      invariant 0 <= i <= |history|
      invariant found == Reported(history[i..]) * wanted
    {
      i := i - 1;
      var block := history[i];
      ghost var later := found;
      for j := 0 to |block|
        invariant found == later + Elems(block[..j]) * wanted
      {
        assert block[..j + 1] == block[..j] + [block[j]];
        ElemsAppend(block[..j], [block[j]]);
        if block[j] in wanted {
          found := found + {block[j]};
        }
      }
      assert block[..|block|] == block;
      ReportedCons(history, i);
    }
    assert history[0..] == history;
  }

  /** Lists a set, in some order. */
  method Listing(s: set<Hash>) returns (l: seq<Hash>)
    ensures Elems(l) == s && Distinct(l)
  {
    l := [];
    var rest := s;
    while rest != {}
      invariant rest <= s && Elems(l) == s - rest && Distinct(l)
      decreases |rest|
    {
      ghost var some := Member(rest);
      var x :| x in rest;
      assert forall i :: 0 <= i < |l| ==> l[i] in Elems(l);
      ElemsAppend(l, [x]);
      l := l + [x];
      rest := rest - {x};
    }
  }

  // ---------- the three lists ----------

  datatype Queues = Queues(queued: seq<Hash>, refined: seq<Hash>, accumulated: seq<Hash>)

  function Known(q: Queues): set<Hash> {
    Elems(q.queued) + Elems(q.refined) + Elems(q.accumulated)
  }

  /** `t` extends `s` by each of the given packages once, in some order. */
  predicate Extends(s: seq<Hash>, more: set<Hash>, t: seq<Hash>) {
    |s| <= |t| && t[..|s|] == s && Elems(t[|s|..]) == more && Distinct(t[|s|..])
  }

  /** What a pass over the histories leaves in each list. */
  predicate Settled(q: Queues, recent: set<Hash>, done: set<Hash>, r: Queues) {
    && r.queued == Without(q.queued, recent + done)
    && Extends(Without(q.refined, done), Elems(q.queued) * recent - done, r.refined)
    && Extends(q.accumulated, (Elems(q.queued) + Elems(q.refined)) * done, r.accumulated)
  }

  /** Moves packages forward: first queued to refined, then either to accumulated. */
  method Settle(q: Queues, recent: seq<seq<Hash>>, history: seq<seq<Hash>>) returns (r: Queues)
    ensures Settled(q, Reported(recent), Reported(history), r)
  {
    var queued, refined, accumulated := q.queued, q.refined, q.accumulated;
    var found := FindInHistory(recent, Elems(q.queued));
    var listed := Listing(found);
    refined := refined + listed;
    queued := RemoveWPsFromSlice(queued, found);
    var done := FindInHistory(history, Elems(queued) + Elems(refined));
    var finished := Listing(done);
    accumulated := accumulated + finished;
    queued := RemoveWPsFromSlice(queued, done);
    refined := RemoveWPsFromSlice(refined, done);
    r := Queues(queued, refined, accumulated);
    SettledQueue(q.queued, found, done, Reported(recent), Reported(history), Elems(q.refined));
    SettledRefined(q.refined, listed, done, Reported(history));
    ElemsAppend(q.refined, listed);
  }

  lemma ElemsAppend(s: seq<Hash>, t: seq<Hash>)
    ensures Elems(s + t) == Elems(s) + Elems(t)
  {
  }

  lemma SettledQueue(
    queued: seq<Hash>, found: set<Hash>, done: set<Hash>, recent: set<Hash>, history: set<Hash>, refined: set<Hash>)
    requires found == recent * Elems(queued)
    requires done == history * (Elems(Without(queued, found)) + refined + found)
    ensures Without(Without(queued, found), done) == Without(queued, recent + history)
    ensures done == (Elems(queued) + refined) * history
  {
    WithoutElems(queued, found);
    WithoutTwice(queued, found, done);
    WithoutCongruent(queued, found + done, recent + history);
  }

  lemma SettledRefined(refined: seq<Hash>, listed: seq<Hash>, done: set<Hash>, history: set<Hash>)
    requires Distinct(listed) && done <= history && (Elems(refined) + Elems(listed)) * history <= done
    ensures Extends(Without(refined, history), Elems(listed) - history, Without(refined + listed, done))
  {
    WithoutAppend(refined, listed, done);
    WithoutElems(listed, done);
    WithoutCongruent(refined, done, history);
    var kept := Without(refined + listed, done);
    assert kept[|Without(refined, done)|..] == Without(listed, done);
    assert Elems(listed) - done == Elems(listed) - history;
  }

  /**
   A pass loses and invents no package, moves packages only forward, and leaves no queued
   package in either history and no refined package in the accumulation history.
   */
  lemma SettledConserves(q: Queues, recent: set<Hash>, done: set<Hash>, r: Queues)
    requires Settled(q, recent, done, r)
    ensures Known(r) == Known(q)
    ensures Elems(r.queued) <= Elems(q.queued) && Elems(q.accumulated) <= Elems(r.accumulated)
    ensures Elems(r.queued) !! recent + done
    ensures Elems(r.refined) !! done
  {
    WithoutElems(q.queued, recent + done);
    WithoutElems(q.refined, done);
    ExtendsElems(Without(q.refined, done), Elems(q.queued) * recent - done, r.refined);
    ExtendsElems(q.accumulated, (Elems(q.queued) + Elems(q.refined)) * done, r.accumulated);
  }

  lemma ExtendsElems(s: seq<Hash>, more: set<Hash>, t: seq<Hash>)
    requires Extends(s, more, t)
    ensures Elems(t) == Elems(s) + more
  {
    assert t == s + t[|s|..];
    ElemsAppend(s, t[|s|..]);
  }


  /** Where a pass puts a package: finished ones at the end, reported ones in the middle, the others stay. */
  lemma SettledPlaces(q: Queues, recent: set<Hash>, done: set<Hash>, r: Queues, p: Hash)
    requires Settled(q, recent, done, r)
    ensures p in r.queued <==> p in q.queued && p !in recent && p !in done
    ensures p in r.refined <==> (p in q.refined || (p in q.queued && p in recent)) && p !in done
    ensures p in r.accumulated <==> p in q.accumulated || ((p in q.queued || p in q.refined) && p in done)
  {
    WithoutElems(q.queued, recent + done);
    WithoutElems(q.refined, done);
    ExtendsElems(Without(q.refined, done), Elems(q.queued) * recent - done, r.refined);
    ExtendsElems(q.accumulated, (Elems(q.queued) + Elems(q.refined)) * done, r.accumulated);
    assert p in r.queued <==> p in Elems(r.queued);
    assert p in r.refined <==> p in Elems(r.refined);
    assert p in r.accumulated <==> p in Elems(r.accumulated);
    assert p in q.queued <==> p in Elems(q.queued);
    assert p in q.refined <==> p in Elems(q.refined);
    assert p in q.accumulated <==> p in Elems(q.accumulated);
  }
}
