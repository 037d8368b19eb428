/**
 The 31-byte keys of the state: their order, their successor, and the 256 ranges by first
 byte that a snapshot is fetched in.
 */
module StateKeys {
  import opened Options
  import opened GpTree
  import opened KeyOrder

  type StateKey = k: Bytes | |k| == 31 witness seq(31, _ => 0)

  /** A key read as a big-endian number. */
  function Value(k: Bytes): nat {
    if k == [] then 0 else 256 * Value(k[..|k| - 1]) + k[|k| - 1]
  }

  /** Byte order is numeric order, and the number determines the key. */
  lemma {:induction false} LessIsValue(a: Bytes, b: Bytes)
    requires |a| == |b|
    ensures Less(a, b) <==> Value(a) < Value(b)
    ensures a == b <==> Value(a) == Value(b)
    decreases |a|
  {
    if a != [] {
      var n := |a| - 1;
      LessIsValue(a[..n], b[..n]);
      LessSnoc(a[..n], a[n], b[..n], b[n]);
      assert a == a[..n] + [a[n]] && b == b[..n] + [b[n]];
    }
  }

  /** The next key in order; none after the last. */
  function Increment(k: Bytes): Option<Bytes> {
    if k == [] then None
    else
      var init, last := k[..|k| - 1], k[|k| - 1];
      if last < 255 then Some(init + [last + 1])
      else
        var carried := Increment(init);
        if carried.None? then None else Some(carried.value + [0])
  }

  lemma {:induction false} IncrementIsSuccessor(k: Bytes)
    ensures Increment(k).Some? ==> |Increment(k).value| == |k| && Value(Increment(k).value) == Value(k) + 1
    ensures Increment(k).None? <==> forall i :: 0 <= i < |k| ==> k[i] == 255
  {
    if k != [] {
      var init, last := k[..|k| - 1], k[|k| - 1];
      IncrementIsSuccessor(init);
      if last < 255 {
        assert (init + [last + 1])[..|k| - 1] == init;
      } else if Increment(init).Some? {
        var c := Increment(init).value;
        assert (c + [0])[..|c|] == c;
      }
      assert forall i :: 0 <= i < |init| ==> init[i] == k[i];
    }
  }

  /** No key is above the last one. */
  lemma {:induction false} MaxValue(k: Bytes, other: Bytes)
    requires |k| == |other| && forall i :: 0 <= i < |k| ==> k[i] == 255
    ensures Value(other) <= Value(k)
    decreases |k|
  {
    if k != [] {
      MaxValue(k[..|k| - 1], other[..|k| - 1]);
    }
  }

  /** A carry past n trailing bytes leaves them zero. */
  function Carried(p: Option<Bytes>, n: nat): Option<Bytes> {
    if p.None? then None else Some(p.value + Zeros(n))
  }

  lemma CarryPastNone(p: Option<Bytes>)
    ensures Carried(p, 0) == p
  {
    if p.Some? {
      assert p.value + Zeros(0) == p.value;
    }
  }

  lemma CarryStep(key: StateKey, i: nat)
    requires i < 31
    ensures key[i] == 255 ==> Carried(Increment(key[..i + 1]), 30 - i) == Carried(Increment(key[..i]), 31 - i)
    ensures key[i] < 255 ==> Carried(Increment(key[..i + 1]), 30 - i) == Some(key[..i] + [key[i] + 1] + Zeros(30 - i))
  {
    var prefix := key[..i + 1];
    assert prefix[..i] == key[..i] && prefix[i] == key[i];
    if key[i] == 255 && Increment(key[..i]).Some? {
      ZerosCons(30 - i);
      var p := Increment(key[..i]).value;
      assert (p + [0]) + Zeros(30 - i) == p + ([0] + Zeros(30 - i));
    }
  }

  /** Adds one with carry, from the last byte towards the first. */
  method IncrementKey(key: StateKey) returns (next: StateKey, ok: bool)
    ensures ok ==> Value(next) == Value(key) + 1
    ensures ok <==> exists i :: 0 <= i < 31 && key[i] != 255
  {
    var result: Bytes := key;
    var i := 30;
    IncrementIsSuccessor(key);
    assert key[..31] == key;
    CarryPastNone(Increment(key));
    while i >= 0
      invariant -1 <= i <= 30 && |result| == 31
      invariant forall j :: 0 <= j < 31 ==> result[j] == if j <= i then key[j] else 0
      invariant Increment(key) == Carried(Increment(key[..i + 1]), 30 - i)
    {
      CarryStep(key, i);
      if result[i] < 255 {
        result := result[i := result[i] + 1];
        assert result == key[..i] + [key[i] + 1] + Zeros(30 - i);
        return result, true;
      }
      result := result[i := 0];
      i := i - 1;
    }
    return result, false;
  }

  lemma {:induction false} ZerosCons(n: nat)
    ensures [0] + Zeros(n) == Zeros(n + 1)
  {
    assert forall i :: 0 <= i < n + 1 ==> ([0] + Zeros(n))[i] == Zeros(n + 1)[i];
  }

  // ---------- ranges ----------

  predicate Within(k: StateKey, start: StateKey, end: StateKey) {
    !Less(k, start) && !Less(end, k)
  }

  function MakeKey(first: Byte): StateKey {
    [first] + Zeros(30)
  }

  function MakeKeyMax(): StateKey {
    seq(31, _ => 255)
  }

  function RangeEnd(i: Byte): StateKey {
    if i < 255 then MakeKey(i + 1) else MakeKeyMax()
  }

  predicate InRange(k: StateKey, i: Byte) {
    Within(k, MakeKey(i), RangeEnd(i))
  }

  lemma {:induction false} NotBelowZeros(k: Bytes)
    ensures !Less(k, Zeros(|k|))
    ensures !Less(Zeros(|k|), k) <==> k == Zeros(|k|)
  {
    if k != [] {
      ZerosCons(|k| - 1);
      assert Zeros(|k|)[1..] == Zeros(|k| - 1);
      NotBelowZeros(k[1..]);
      assert k == [k[0]] + k[1..];
    }
  }

  /** A range holds the keys with its first byte and the first key of the next range. */
  lemma RangeKeys(k: StateKey, i: Byte)
    ensures InRange(k, i) <==> k[0] == i || (i < 255 && k == MakeKey(i + 1))
  {
    NotBelowZeros(k[1..]);
    assert MakeKey(i)[1..] == Zeros(30);
    assert k == [k[0]] + k[1..];
    if i < 255 {
      assert MakeKey(i + 1)[1..] == Zeros(30);
    } else {
      LessIsValue(MakeKeyMax(), k);
      MaxValue(MakeKeyMax(), k);
    }
  }

  /** The ranges cover every key, and two of them meet only at a shared boundary key. */
  lemma RangesCover(k: StateKey, i: Byte, j: Byte)
    ensures InRange(k, k[0])
    ensures i < j && InRange(k, i) && InRange(k, j) ==> j == i + 1 && k == MakeKey(j)
  {
    RangeKeys(k, k[0]);
    RangeKeys(k, i);
    RangeKeys(k, j);
  }
}
