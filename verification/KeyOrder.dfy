/**
 Keys in byte order, and sorting key-value pairs by key.
 */
module KeyOrder {
  import opened GpTree

  /** Byte-wise lexicographic comparison. */
  predicate Less(a: Bytes, b: Bytes) {
    if a == [] || b == [] then |a| < |b| else a[0] < b[0] || (a[0] == b[0] && Less(a[1..], b[1..]))
  }

  lemma {:induction false} LessTrichotomy(a: Bytes, b: Bytes)
    ensures Less(a, b) || Less(b, a) || a == b
    ensures !(Less(a, b) && Less(b, a)) && (a == b ==> !Less(a, b))
    decreases |a|
  {
    if a != [] && b != [] {
      LessTrichotomy(a[1..], b[1..]);
      assert a == [a[0]] + a[1..] && b == [b[0]] + b[1..];
    }
  }

  lemma {:induction false} LessTransitive(a: Bytes, b: Bytes, c: Bytes)
    requires Less(a, b) && Less(b, c)
    ensures Less(a, c)
    decreases |a|
  {
    if a != [] && b != [] && c != [] && a[0] == b[0] && b[0] == c[0] {
      LessTransitive(a[1..], b[1..], c[1..]);
    }
  }

  /** Comparison by the first bytes, then by the last one. */
  lemma {:induction false} LessSnoc(a: Bytes, x: Byte, b: Bytes, y: Byte)
    requires |a| == |b|
    ensures Less(a + [x], b + [y]) <==> Less(a, b) || (a == b && x < y)
    decreases |a|
  {
    if a == [] {
      assert [x][1..] == [] && [y][1..] == [];
      assert a + [x] == [x] && b + [y] == [y];
    } else {
      assert (a + [x])[1..] == a[1..] + [x] && (b + [y])[1..] == b[1..] + [y];
      LessSnoc(a[1..], x, b[1..], y);
      assert a == [a[0]] + a[1..] && b == [b[0]] + b[1..];
      LessTrichotomy(a, b);
    }
  }

  lemma {:induction false} LessAt(a: Bytes, b: Bytes, j: nat)
    requires j < |a| && j < |b| && a[..j] == b[..j] && a[j] < b[j]
    ensures Less(a, b)
    decreases j
  {
    if j > 0 {
      assert a[0] == a[..j][0] && b[0] == b[..j][0];
      assert a[1..][..j - 1] == a[..j][1..] && b[1..][..j - 1] == b[..j][1..];
      LessAt(a[1..], b[1..], j - 1);
    }
  }

  /** Strictly increasing keys. */
  predicate SortedByKey(kvs: seq<KV>) {
    forall i, j :: 0 <= i < j < |kvs| ==> Less(kvs[i].key, kvs[j].key)
  }

  lemma SortedIsDistinct(kvs: seq<KV>)
    requires SortedByKey(kvs)
    ensures DistinctKeys(kvs)
  {
    forall i, j | 0 <= i < j < |kvs| ensures kvs[i].key != kvs[j].key {
      LessTrichotomy(kvs[i].key, kvs[j].key);
    }
  }

  lemma FirstIsLeast(kvs: seq<KV>, x: KV)
    requires SortedByKey(kvs) && x in kvs
    ensures x == kvs[0] || Less(kvs[0].key, x.key)
  {
  }

  /** A set of pairs has only one sorted list. */
  lemma {:induction false} SortedUnique(a: seq<KV>, b: seq<KV>)
    requires SortedByKey(a) && SortedByKey(b) && Contents(a) == Contents(b)
    ensures a == b
    decreases |a|
  {
    forall x ensures x in a <==> x in b {
      assert x in Contents(a) <==> x in Contents(b);
    }
    if a == [] {
      EmptyContents(b);
    } else {
      assert a[0] in b;
      assert b[0] in a;
      FirstIsLeast(b, a[0]);
      FirstIsLeast(a, b[0]);
      LessTrichotomy(a[0].key, b[0].key);
      assert a[0] == b[0];
      TailContents(a);
      TailContents(b);
      SortedUnique(a[1..], b[1..]);
      assert a == [a[0]] + a[1..] && b == [b[0]] + b[1..];
    }
  }

  lemma EmptyContents(b: seq<KV>)
    ensures Contents(b) == {} <==> b == []
  {
    if b != [] {
      assert b[0] in Contents(b);
    }
  }

  lemma TailContents(a: seq<KV>)
    requires SortedByKey(a) && a != []
    ensures SortedByKey(a[1..]) && Contents(a[1..]) == Contents(a) - {a[0]}
  {
    SortedIsDistinct(a);
    assert a == [a[0]] + a[1..];
    forall x | x in a[1..] ensures x != a[0] {
      var i :| 0 <= i < |a[1..]| && a[1..][i] == x;
      assert a[i + 1] == x;
    }
  }

  // ---------- exchange sort ----------

  /** Position i is settled: in order before it, and nothing after it is smaller. */
  ghost predicate SettledTo(s: seq<KV>, i: nat) {
    && i <= |s|
    && (forall p, q :: 0 <= p < i && p < q < |s| ==> Less(s[p].key, s[q].key))
  }

  /** Position i holds the least of the entries from i up to j. */
  ghost predicate LeastTo(s: seq<KV>, i: nat, j: nat) {
    i < |s| && j <= |s| && forall q :: i < q < j ==> Less(s[i].key, s[q].key)
  }

  function Swap(s: seq<KV>, i: nat, j: nat): seq<KV>
    requires i < |s| && j < |s|
  {
    s[i := s[j]][j := s[i]]
  }

  lemma SwapKeeps(s: seq<KV>, i: nat, j: nat)
    requires i < j < |s| && DistinctKeys(s)
    ensures Contents(Swap(s, i, j)) == Contents(s) && DistinctKeys(Swap(s, i, j)) && |Swap(s, i, j)| == |s|
  {
    var t := Swap(s, i, j);
    forall x ensures x in t <==> x in s {
      if x in s {
        var k :| 0 <= k < |s| && s[k] == x;
        assert t[if k == i then j else if k == j then i else k] == x;
      }
      if x in t {
        var k :| 0 <= k < |t| && t[k] == x;
        assert s[if k == i then j else if k == j then i else k] == x;
      }
    }
  }

  lemma SwapSettles(s: seq<KV>, i: nat, j: nat)
    requires i < j < |s| && SettledTo(s, i) && LeastTo(s, i, j) && Less(s[j].key, s[i].key)
    ensures SettledTo(Swap(s, i, j), i) && LeastTo(Swap(s, i, j), i, j + 1)
  {
    var t := Swap(s, i, j);
    forall q | i < q < j + 1 ensures Less(t[i].key, t[q].key) {
      if q < j {
        LessTransitive(s[j].key, s[i].key, s[q].key);
      }
    }
  }

  /** Sorts pairs with distinct keys in place. */
  method ExchangeSort(a: array<KV>)
    requires DistinctKeys(a[..])
    modifies a
    ensures SortedByKey(a[..]) && Contents(a[..]) == Contents(old(a[..]))
  {
    ghost var before := a[..];
    var i := 0;
    while i < a.Length - 1
      invariant 0 <= i <= a.Length
      invariant DistinctKeys(a[..]) && Contents(a[..]) == Contents(before) && SettledTo(a[..], i)
    {
      var j := i + 1;
      while j < a.Length
        invariant i + 1 <= j <= a.Length
        invariant DistinctKeys(a[..]) && Contents(a[..]) == Contents(before) && SettledTo(a[..], i)
        invariant LeastTo(a[..], i, j)
      {
        ghost var s := a[..];
        if Less(a[j].key, a[i].key) {
          a[i], a[j] := a[j], a[i];
          assert a[..] == Swap(s, i, j);
          SwapKeeps(s, i, j);
          SwapSettles(s, i, j);
        } else {
          LessTrichotomy(s[i].key, s[j].key);
          assert s[i].key != s[j].key;
        }
        j := j + 1;
      }
      i := i + 1;
    }
  }
}
