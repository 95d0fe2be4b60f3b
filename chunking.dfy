/**
 * `chunk_text(text, size)`: the text cut into consecutive, non-overlapping
 * slices of `size` characters, `[text[i:i+size] for i in range(0, len(text), size)]`.
 */
module Chunking {
  import opened Strings

  function Min(a: int, b: int): int
  {
    if a <= b then a else b
  }

  /** The slices taken at 0, size, 2*size, ... while the start is inside the text; the last may be short. */
  function Chunks(text: string, size: nat): (r: seq<string>)
    requires size > 0
    ensures forall i :: 0 <= i < |r| ==> 1 <= |r[i]| <= size
    decreases |text|
  {
    if text == [] then []
    else
      var cut := Min(size, |text|);
      [text[..cut]] + Chunks(text[cut..], size)
  }

  /** The number of starting positions in `range(0, n, size)`. */
  function CeilDiv(n: nat, size: nat): nat
    requires size > 0
  {
    (n + size - 1) / size
  }

  /** The chunks, concatenated in order, give back the text: nothing dropped, nothing repeated. */
  lemma {:induction false} ChunksConcat(text: string, size: nat)
    requires size > 0
    ensures Concat(Chunks(text, size)) == text
    decreases |text|
  {
    if text != [] {
      var cut := Min(size, |text|);
      ChunksConcat(text[cut..], size);
      assert ([text[..cut]] + Chunks(text[cut..], size))[1..] == Chunks(text[cut..], size);
      assert text[..cut] + text[cut..] == text;
    }
  }

  lemma MulSucc(k: int, d: int)
    ensures (k + 1) * d == k * d + d
  {
  }

  lemma {:induction false} MulMonotone(a: nat, b: nat, d: nat)
    requires a <= b
    ensures a * d <= b * d
    decreases b - a
  {
    if a < b {
      MulMonotone(a, b - 1, d);
      MulSucc(b - 1, d);
    }
  }

  lemma DivIsUnique(a: nat, d: nat, q: nat)
    requires d > 0
    requires q * d <= a < q * d + d
    ensures a / d == q
  {
    var r := a / d;
    assert a == r * d + a % d;
    if r < q {
      MulMonotone(r + 1, q, d);
      MulSucc(r, d);
    } else if r > q {
      MulMonotone(q + 1, r, d);
      MulSucc(q, d);
    }
  }

  /** Each chunk but the last is full, so the chunk count n has (n - 1) * size < |text| <= n * size. */
  lemma {:induction false} ChunkBounds(text: string, size: nat)
    requires size > 0
    ensures |Chunks(text, size)| == 0 <==> text == []
    ensures text != [] ==>
      (|Chunks(text, size)| - 1) * size < |text| <= |Chunks(text, size)| * size
    decreases |text|
  {
    if text != [] {
      var cut := Min(size, |text|);
      var rest := text[cut..];
      ChunkBounds(rest, size);
      var m := |Chunks(rest, size)|;
      assert |Chunks(text, size)| == m + 1;
      if m > 0 {
        assert cut == size && |rest| == |text| - size;
        MulSucc(m - 1, size);
        MulSucc(m, size);
      }
    }
  }

  /** There are ceil(|text| / size) chunks, so none for the empty text. */
  lemma ChunkCount(text: string, size: nat)
    requires size > 0
    ensures |Chunks(text, size)| == CeilDiv(|text|, size)
    ensures |Chunks(text, size)| == 0 <==> text == []
  {
    var n := |Chunks(text, size)|;
    ChunkBounds(text, size);
    if text != [] {
      MulSucc(n - 1, size);
      DivIsUnique(|text| + size - 1, size, n);
    }
  }

  /** A text no longer than one chunk is a single chunk equal to the text. */
  lemma SingleChunk(text: string, size: nat)
    requires 0 < |text| <= size
    ensures Chunks(text, size) == [text]
  {
    assert text[..|text|] == text;
    assert text[|text|..] == [];
  }

  /** Chunk k is the slice `text[k*size : (k+1)*size]`, clamped to the end of the text. */
  lemma {:induction false} ChunkAt(text: string, size: nat, k: nat)
    requires size > 0
    requires k < |Chunks(text, size)|
    ensures k * size < |text|
    ensures Chunks(text, size)[k] == text[k * size .. Min((k + 1) * size, |text|)]
    decreases k
  {
    var cut := Min(size, |text|);
    var rest := text[cut..];
    var tail := Chunks(rest, size);
    assert Chunks(text, size) == [text[..cut]] + tail;
    if k > 0 {
      ChunkAt(rest, size, k - 1);
      assert cut == size;
      MulSucc(k - 1, size);
      MulSucc(k, size);
      SliceOfRest(text, size, (k - 1) * size, Min(k * size, |rest|));
    }
  }

  lemma SliceOfRest(text: string, size: nat, lo: nat, end: nat)
    requires size <= |text| && lo <= end <= |text| - size
    ensures text[size..][lo..end] == text[lo + size .. end + size]
  {
  }

  /** Every chunk but the last is exactly `size` long; the last is between 1 and `size` long. */
  lemma ChunkLengths(text: string, size: nat, k: nat)
    requires size > 0
    requires k < |Chunks(text, size)|
    ensures k < |Chunks(text, size)| - 1 ==> |Chunks(text, size)[k]| == size
    ensures k == |Chunks(text, size)| - 1 ==> 1 <= |Chunks(text, size)[k]| <= size
  {
    var n := |Chunks(text, size)|;
    ChunkAt(text, size, k);
    ChunkBounds(text, size);
    MulSucc(k, size);
    if k < n - 1 {
      MulMonotone(k + 1, n - 1, size);
    } else {
      MulSucc(n - 1, size);
    }
  }

  /**
   * The chunking is the only cut of the text into full `size` pieces followed by
   * one non-empty piece of at most `size` characters.
   */
  lemma {:induction false} ChunksUnique(text: string, size: nat, parts: seq<string>)
    requires size > 0
    requires Concat(parts) == text
    requires forall i :: 0 <= i < |parts| - 1 ==> |parts[i]| == size
    requires parts != [] ==> 1 <= |parts[|parts| - 1]| <= size
    ensures parts == Chunks(text, size)
    decreases |parts|
  {
    if parts != [] {
      var rest := parts[1..];
      assert text == parts[0] + Concat(rest);
      var cut := Min(size, |text|);
      if |parts| == 1 {
        assert Concat(rest) == "";
        SingleChunk(text, size);
      } else {
        ChunkBounds(Concat(rest), size);
        ChunksUnique(Concat(rest), size, rest);
        assert |Concat(rest)| > 0;
        assert cut == size;
        assert text[..cut] == parts[0];
        assert text[cut..] == Concat(rest);
      }
    }
  }
}
