/** Splitting a blob into upload parts (splitFileByPartSize in pkg/backend/oss.go). */
module Multipart {
  import opened Base

  datatype Chunk = Chunk(number: int, offset: int, size: int)

  const MAX_PARTS := 10000

  /** Numbered from one, non-empty, and laid end to end from 0 to `end`. */
  ghost predicate Tiles(chunks: seq<Chunk>, end: int) {
    && (forall i :: 0 <= i < |chunks| ==> chunks[i].number == i + 1 && chunks[i].size > 0)
    && (forall i :: 0 < i < |chunks| ==> chunks[i].offset == chunks[i - 1].offset + chunks[i - 1].size)
    && (if chunks == [] then end == 0
        else chunks[0].offset == 0 && chunks[|chunks| - 1].offset + chunks[|chunks| - 1].size == end)
  }

  method SplitFileByPartSize(blobSize: nat, chunkSize: int) returns (r: Option<seq<Chunk>>)
    ensures r.Some? <==> chunkSize > 0 && blobSize / chunkSize < MAX_PARTS
    ensures r.Some? ==> Tiles(r.value, blobSize) && |r.value| <= MAX_PARTS
    ensures r.Some? ==> forall i :: 0 <= i < |r.value| - 1 ==> r.value[i].size == chunkSize
    ensures r.Some? ==> forall i :: 0 <= i < |r.value| ==> r.value[i].size <= chunkSize
  {
    if chunkSize <= 0 { return None; }
    var chunkN, left := blobSize / chunkSize, blobSize % chunkSize;
    Division(blobSize, chunkSize);
    if chunkN >= MAX_PARTS { return None; }
    var chunks := FullParts(chunkN, chunkSize);
    if left > 0 {
      Lay(chunks, Times(chunkSize, chunkN), left);
      chunks := chunks + [Chunk(|chunks| + 1, Times(chunkSize, |chunks|), left)];
    }
    r := Some(chunks);
  }

  lemma Division(a: nat, b: nat)
    requires b > 0
    ensures a == Times(b, a / b) + a % b
  {
    TimesIsProduct(b, a / b);
  }

  lemma Lay(chunks: seq<Chunk>, end: int, size: int)
    requires Tiles(chunks, end) && size > 0
    ensures Tiles(chunks + [Chunk(|chunks| + 1, end, size)], end + size)
  {
  }

  method FullParts(chunkN: nat, chunkSize: int) returns (chunks: seq<Chunk>)
    requires chunkSize > 0
    ensures |chunks| == chunkN && Tiles(chunks, Times(chunkSize, chunkN))
    ensures forall k :: 0 <= k < |chunks| ==> chunks[k].size == chunkSize
  {
    chunks := [];
    for i := 0 to chunkN
      invariant |chunks| == i && Tiles(chunks, Times(chunkSize, i))
      invariant forall k :: 0 <= k < |chunks| ==> chunks[k].size == chunkSize
    {
      Lay(chunks, Times(chunkSize, i), chunkSize);
      chunks := chunks + [Chunk(i + 1, Times(chunkSize, i), chunkSize)];
    }
  }

  /** Every byte of the blob belongs to exactly one part. */
  lemma {:induction false} EachByteOnce(chunks: seq<Chunk>, end: int, at: int) returns (i: nat)
    requires Tiles(chunks, end) && 0 <= at < end
    ensures i < |chunks| && chunks[i].offset <= at < chunks[i].offset + chunks[i].size
    ensures forall k :: 0 <= k < |chunks| && chunks[k].offset <= at < chunks[k].offset + chunks[k].size ==> k == i
  {
    var n := |chunks| - 1;
    var start := chunks[n].offset;
    forall k | 0 <= k < n ensures chunks[k].offset + chunks[k].size <= start {
      EndsBefore(chunks, end, k);
    }
    if at >= start {
      i := n;
    } else {
      var front := chunks[..n];
      assert n > 0 && front[n - 1] == chunks[n - 1];
      i := EachByteOnce(front, start, at);
      forall k | 0 <= k < |chunks| && chunks[k].offset <= at < chunks[k].offset + chunks[k].size ensures k == i {
        assert k < n ==> front[k] == chunks[k];
      }
    }
  }

  lemma {:induction false} EndsBefore(chunks: seq<Chunk>, end: int, k: nat)
    requires Tiles(chunks, end) && k < |chunks| - 1
    ensures chunks[k].offset + chunks[k].size <= chunks[|chunks| - 1].offset
    decreases |chunks| - k
  {
    if k + 1 < |chunks| - 1 {
      EndsBefore(chunks, end, k + 1);
    }
  }
}
