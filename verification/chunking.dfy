/** Cutting a firmware image into consecutive bounded slices, as both host-side
    drivers do with `data[offset:offset + CHUNK_SIZE]` and `offset += len(chunk)`. */
module Chunking {

  /** Chunk size used by both host drivers, in bytes. */
  const CHUNK_SIZE: nat := 8192

  function Min(a: int, b: int): int
  {
    if a <= b then a else b
  }

  /** Python's slice `s[lo:hi]` for non-negative bounds: both ends are clamped to
      the length, and a reversed range is empty. */
  function Slice<T>(s: seq<T>, lo: nat, hi: nat): (r: seq<T>)
    ensures |r| == if lo <= hi && lo <= |s| then Min(hi, |s|) - lo else 0
    ensures forall i :: 0 <= i < |r| ==> r[i] == s[lo + i]
  {
    var a := Min(lo, |s|);
    var b := Min(hi, |s|);
    if a <= b then s[a..b] else []
  }

  /** A slice taken before the end of `data` is non-empty and stays within `data`. */
  lemma SliceAdvances<T>(data: seq<T>, offset: nat)
    requires offset < |data|
    ensures 0 < |Slice(data, offset, offset + CHUNK_SIZE)| <= CHUNK_SIZE
    ensures offset + |Slice(data, offset, offset + CHUNK_SIZE)| <= |data|
  {
  }

  /** The slices the driver loop emits when it starts at `offset`. */
  function ChunksFrom<T>(data: seq<T>, offset: nat): (r: seq<seq<T>>)
    ensures forall i :: 0 <= i < |r| ==> 0 < |r[i]| <= CHUNK_SIZE
    decreases |data| - offset
  {
    if offset >= |data| then []
    else
      var chunk := Slice(data, offset, offset + CHUNK_SIZE);
      [chunk] + ChunksFrom(data, offset + |chunk|)
  }

  /** All slices of `data`, from offset 0. */
  function Chunks<T>(data: seq<T>): seq<seq<T>>
  {
    ChunksFrom(data, 0)
  }

  /** Concatenation of a sequence of slices. */
  function Flatten<T>(ss: seq<seq<T>>): seq<T>
  {
    if ss == [] then [] else ss[0] + Flatten(ss[1..])
  }

  /** Number of chunks needed to cover `n` bytes: `ceil(n / CHUNK_SIZE)`. */
  function CeilDiv(n: nat): nat
  {
    (n + CHUNK_SIZE - 1) / CHUNK_SIZE
  }

  lemma {:induction false} FlattenAppend<T>(a: seq<seq<T>>, b: seq<seq<T>>)
    ensures Flatten(a + b) == Flatten(a) + Flatten(b)
    decreases |a|
  {
    if a == [] {
      assert a + b == b;
    } else {
      assert (a + b)[1..] == a[1..] + b;
      FlattenAppend(a[1..], b);
    }
  }

  /** The slices, concatenated in order, give back the data from `offset` on:
      no byte is lost, repeated or reordered. */
  lemma {:induction false} ChunksFromFlatten<T>(data: seq<T>, offset: nat)
    requires offset <= |data|
    ensures Flatten(ChunksFrom(data, offset)) == data[offset..]
    decreases |data| - offset
  {
    if offset < |data| {
      var chunk := Slice(data, offset, offset + CHUNK_SIZE);
      var next := offset + |chunk|;
      var rest := ChunksFrom(data, next);
      assert ChunksFrom(data, offset) == [chunk] + rest;
      assert ([chunk] + rest)[1..] == rest;
      assert Flatten([chunk] + rest) == chunk + Flatten(rest);
      ChunksFromFlatten(data, next);
      assert chunk == data[offset..next];
      assert data[offset..] == data[offset..next] + data[next..];
    }
  }

  /** The loop publishes `ceil((|data| - offset) / CHUNK_SIZE)` slices. */
  lemma {:induction false} ChunksFromCount<T>(data: seq<T>, offset: nat)
    requires offset <= |data|
    ensures |ChunksFrom(data, offset)| == CeilDiv(|data| - offset)
    decreases |data| - offset
  {
    if offset < |data| {
      var chunk := Slice(data, offset, offset + CHUNK_SIZE);
      if |data| - offset <= CHUNK_SIZE {
        assert ChunksFrom(data, offset + |chunk|) == [];
      } else {
        ChunksFromCount(data, offset + CHUNK_SIZE);
      }
    }
  }

  /** Slice `i` starts at `offset + i * CHUNK_SIZE` and is `CHUNK_SIZE` long except
      possibly the last, which ends exactly at the end of the data. */
  lemma {:induction false} ChunksFromAt<T>(data: seq<T>, offset: nat, i: nat)
    requires offset <= |data|
    requires i < |ChunksFrom(data, offset)|
    ensures offset + i * CHUNK_SIZE < |data|
    ensures ChunksFrom(data, offset)[i] ==
      data[offset + i * CHUNK_SIZE..Min(offset + i * CHUNK_SIZE + CHUNK_SIZE, |data|)]
    decreases i
  {
    var chunk := Slice(data, offset, offset + CHUNK_SIZE);
    var rest := ChunksFrom(data, offset + |chunk|);
    assert ChunksFrom(data, offset) == [chunk] + rest;
    if i == 0 {
      assert chunk == data[offset..Min(offset + CHUNK_SIZE, |data|)];
    } else {
      assert |rest| > 0;
      assert offset + |chunk| < |data|;
      assert |chunk| == CHUNK_SIZE;
      ChunksFromAt(data, offset + CHUNK_SIZE, i - 1);
      assert offset + CHUNK_SIZE + (i - 1) * CHUNK_SIZE == offset + i * CHUNK_SIZE;
    }
  }

  /** The chunking both drivers perform: `ceil(S / 8192)` slices at offsets
      `0, 8192, 16384, ...`, each `min(8192, S - offset)` long, concatenating to the data. */
  lemma ChunksShape<T>(data: seq<T>)
    ensures |Chunks(data)| == CeilDiv(|data|)
    ensures Flatten(Chunks(data)) == data
    ensures forall i :: 0 <= i < |Chunks(data)| ==>
      i * CHUNK_SIZE < |data| &&
      Chunks(data)[i] == data[i * CHUNK_SIZE..Min(i * CHUNK_SIZE + CHUNK_SIZE, |data|)]
  {
    ChunksFromCount(data, 0);
    ChunksFromFlatten(data, 0);
    forall i | 0 <= i < |Chunks(data)|
      ensures i * CHUNK_SIZE < |data|
      ensures Chunks(data)[i] == data[i * CHUNK_SIZE..Min(i * CHUNK_SIZE + CHUNK_SIZE, |data|)]
    {
      ChunksFromAt(data, 0, i);
    }
  }

  /** A 20000-byte image goes out as slices of 8192, 8192 and 3616 bytes. */
  lemma TwentyThousandBytes<T>(data: seq<T>)
    requires |data| == 20000
    ensures |Chunks(data)| == 3
    ensures |Chunks(data)[0]| == 8192
    ensures |Chunks(data)[1]| == 8192
    ensures |Chunks(data)[2]| == 3616
  {
    ChunksShape(data);
  }
}
