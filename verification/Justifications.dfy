/**
 The tagged encoding of a justification path: each entry is a hash, a pair of hashes or a
 segment shard, and its marker byte tells which.
 */
module Justifications {
  import opened Options
  import opened GpTree

  /** Path entries the encoder takes: 32 or 64 bytes, or two bytes per erasure-coded piece. */
  predicate Fits(length: nat, pieces: nat) {
    length == 32 || length == 64 || length == 2 * pieces
  }

  predicate Accepts(path: seq<Bytes>, pieces: nat) {
    forall i :: 0 <= i < |path| ==> Fits(|path[i]|, pieces)
  }

  /** The first kind that fits the length wins. */
  function Marker(h: Bytes): Byte {
    if |h| == 32 then 0 else if |h| == 64 then 1 else 2
  }

  function Encoded(path: seq<Bytes>): Bytes {
    if path == [] then [] else [Marker(path[0])] + path[0] + Encoded(path[1..])
  }

  /** Bytes that follow a marker; none for an unknown one. */
  function Size(marker: Byte, pieces: nat): Option<nat> {
    if marker == 0 then Some(32) else if marker == 1 then Some(64) else if marker == 2 then Some(2 * pieces) else None
  }

  /** The first entry is complete. */
  predicate Whole(compact: Bytes, pieces: nat) {
    compact != [] && var size := Size(compact[0], pieces); size.Some? && 1 + size.value <= |compact|
  }

  function Prepend(path: seq<Bytes>, rest: Option<seq<Bytes>>): Option<seq<Bytes>> {
    if rest.None? then None else Some(path + rest.value)
  }

  function Decoded(compact: Bytes, pieces: nat): Option<seq<Bytes>>
    decreases |compact|
  {
    if compact == [] then Some([])
    else if !Whole(compact, pieces) then None
    else
      var end := 1 + Size(compact[0], pieces).value;
      Prepend([compact[1..end]], Decoded(compact[end..], pieces))
  }

  /** Some entry is tagged as a shard. */
  predicate HasShard(compact: Bytes, pieces: nat)
    decreases |compact|
  {
    Whole(compact, pieces) && (compact[0] == 2 || HasShard(compact[1 + Size(compact[0], pieces).value..], pieces))
  }

  /** Decoding an encoded path gives it back, for every shard size. */
  lemma {:induction false} DecodeEncode(path: seq<Bytes>, pieces: nat)
    requires Accepts(path, pieces)
    ensures Decoded(Encoded(path), pieces) == Some(path)
    decreases |path|
  {
    if path != [] {
      var h := path[0];
      var compact := Encoded(path);
      var end := 1 + |h|;
      assert compact[0] == Marker(h) && Size(Marker(h), pieces) == Some(|h|);
      assert compact[1..end] == h && compact[end..] == Encoded(path[1..]);
      DecodeEncode(path[1..], pieces);
      assert path == [h] + path[1..];
    }
  }

  lemma EncodedCons(h: Bytes, rest: seq<Bytes>)
    ensures Encoded([h] + rest) == [Marker(h)] + h + Encoded(rest)
  {
    assert ([h] + rest)[1..] == rest;
  }

  /** On the wire: 0 starts a hash, 1 a pair of hashes, 2 a shard of another length. */
  lemma MarkersOnWire(h: Bytes, rest: seq<Bytes>)
    ensures var compact := Encoded([h] + rest);
      && compact != [] && compact[1..1 + |h|] == h
      && (|h| == 32 <==> compact[0] == 0) && (|h| == 64 <==> compact[0] == 1)
      && (|h| != 32 && |h| != 64 <==> compact[0] == 2)
  {
    EncodedCons(h, rest);
  }

  /** A marker agrees with its entry unless a shard has the length of a hash or of two. */
  lemma MarkerOfEntry(compact: Bytes, pieces: nat)
    requires Whole(compact, pieces)
    ensures Marker(compact[1..1 + Size(compact[0], pieces).value]) == compact[0] <==> compact[0] != 2 || pieces !in {16, 32}
  {
  }

  /**
   Re-encoding what was decoded gives the same bytes exactly when no entry is tagged as a
   shard while shards have the length of a hash or of two.
   */
  lemma {:induction false} EncodeDecode(compact: Bytes, pieces: nat)
    requires Decoded(compact, pieces).Some?
    ensures var path := Decoded(compact, pieces).value;
      && Accepts(path, pieces)
      && |Encoded(path)| == |compact|
      && (Encoded(path) == compact <==> !HasShard(compact, pieces) || pieces !in {16, 32})
    decreases |compact|
  {
    if compact != [] {
      var end := 1 + Size(compact[0], pieces).value;
      var h, tail := compact[1..end], compact[end..];
      EncodeDecode(tail, pieces);
      var rest := Decoded(tail, pieces).value;
      EncodedCons(h, rest);
      assert compact == [compact[0]] + h + tail;
      SameTail(Marker(h), compact[0], h, Encoded(rest), tail);
      MarkerOfEntry(compact, pieces);
    }
  }

  lemma SameTail(a: Byte, b: Byte, h: Bytes, s: Bytes, t: Bytes)
    requires |s| == |t|
    ensures [a] + h + s == [b] + h + t <==> a == b && s == t
  {
    assert ([a] + h + s)[0] == a && ([b] + h + t)[0] == b;
    assert ([a] + h + s)[1 + |h|..] == s && ([b] + h + t)[1 + |h|..] == t;
  }

  lemma EncodeStep(combined: Bytes, path: seq<Bytes>, i: nat)
    requires i < |path|
    ensures combined + Encoded(path[i..]) == (combined + [Marker(path[i])] + path[i]) + Encoded(path[i + 1..])
  {
    assert path[i..] == [path[i]] + path[i + 1..];
    EncodedCons(path[i], path[i + 1..]);
  }

  /** Encodes entry by entry; any entry of another length is an error. */
  method EncodeJustification(path: seq<Bytes>, pieces: nat) returns (compact: Option<Bytes>)
    ensures compact == if Accepts(path, pieces) then Some(Encoded(path)) else None
  {
    var combined: Bytes := [];
    assert path[0..] == path;
    for i := 0 to |path|
      invariant forall j :: 0 <= j < i ==> Fits(|path[j]|, pieces)
      invariant Encoded(path) == combined + Encoded(path[i..])
    {
      var h := path[i];
      if |h| != 32 && |h| != 64 && |h| != 2 * pieces {
        return None;
      }
      EncodeStep(combined, path, i);
      combined := combined + [Marker(h)] + h;
    }
    assert combined + [] == combined;
    return Some(combined);
  }

  lemma PrependNothing(path: Option<seq<Bytes>>)
    ensures Prepend([], path) == path
  {
    if path.Some? {
      assert [] + path.value == path.value;
    }
  }

  lemma PrependMore(path: seq<Bytes>, h: Bytes, rest: Option<seq<Bytes>>)
    ensures Prepend(path, Prepend([h], rest)) == Prepend(path + [h], rest)
  {
    if rest.Some? {
      assert path + ([h] + rest.value) == path + [h] + rest.value;
    }
  }

  lemma DecodeStep(compact: Bytes, pieces: nat, i: nat)
    requires i < |compact|
    ensures var size := Size(compact[i], pieces);
      if size.None? || i + 1 + size.value > |compact| then Decoded(compact[i..], pieces) == None
      else
        var end := i + 1 + size.value;
        Decoded(compact[i..], pieces) == Prepend([compact[i + 1..end]], Decoded(compact[end..], pieces))
  {
    var size := Size(compact[i], pieces);
    if size.Some? && i + 1 + size.value <= |compact| {
      var end := i + 1 + size.value;
      assert compact[i..][1..1 + size.value] == compact[i + 1..end];
      assert compact[i..][1 + size.value..] == compact[end..];
    }
  }

  lemma DecodeEnd(compact: Bytes, pieces: nat, entries: seq<Bytes>)
    ensures Prepend(entries, Decoded(compact[|compact|..], pieces)) == Some(entries) && Prepend(entries, None) == None
  {
    assert entries + [] == entries;
  }

  /** Decodes from left to right; a cut entry or an unknown marker is an error. */
  method DecodeJustification(compact: Bytes, pieces: nat) returns (path: Option<seq<Bytes>>)
    ensures path == Decoded(compact, pieces)
  {
    hide Decoded, Prepend;
    var entries: seq<Bytes> := [];
    var i := 0;
    assert compact[0..] == compact;
    PrependNothing(Decoded(compact, pieces));
    while i < |compact|
      invariant 0 <= i <= |compact|
      invariant Decoded(compact, pieces) == Prepend(entries, Decoded(compact[i..], pieces))
    {
      var size := Size(compact[i], pieces);
      DecodeStep(compact, pieces, i);
      DecodeEnd(compact, pieces, entries);
      if size.None? || i + 1 + size.value > |compact| {
        return None;
      }
      var end := i + 1 + size.value;
      PrependMore(entries, compact[i + 1..end], Decoded(compact[end..], pieces));
      entries := entries + [compact[i + 1..end]];
      i := end;
    }
    DecodeEnd(compact, pieces, entries);
    return Some(entries);
  }
}
