/** The round-robin split of the file list among `W` workers:
    `[midi_files[i::W] for i in range(W)]`. */
module RoundRobin {

  /** Python's extended slice `s[start::step]` for a positive step. */
  function Slice<T>(s: seq<T>, start: nat, step: nat): seq<T>
    requires step >= 1
    decreases |s| - start
  {
    if start >= |s| then [] else [s[start]] + Slice(s, start + step, step)
  }

  /** `[files[i::w] for i in range(w)]`; with no workers there is no chunk. */
  function Partition<T>(files: seq<T>, numWorkers: nat): (chunks: seq<seq<T>>)
    ensures |chunks| == numWorkers
  {
    seq(numWorkers, i requires 0 <= i < numWorkers => Slice(files, i, numWorkers))
  }

  /** The input index held at position `k` of chunk `i`. */
  function Position(i: nat, k: nat, numWorkers: nat): nat
  {
    i + k * numWorkers
  }

  /** `n` is `⌈(len - i) / w⌉` (zero when `i >= len`): the least count with
      `i + n*w >= len`. */
  predicate IsCeiling(n: nat, len: nat, i: nat, w: nat)
  {
    && i + n * w >= len
    && (n == 0 || i + (n - 1) * w < len)
  }

  lemma {:induction false} MulAtLeast(d: nat, w: nat)
    requires d >= 1
    ensures d * w >= w
  {
    if d > 1 {
      MulAtLeast(d - 1, w);
      assert d * w == (d - 1) * w + w;
    }
  }

  /** Multiplication by a natural number keeps the order. */
  lemma ProductOrder(a: nat, b: nat, w: nat)
    ensures a >= b ==> a * w >= b * w
  {
    if a > b {
      assert a * w == b * w + (a - b) * w;
      MulAtLeast(a - b, w);
    }
  }

  /** A later position of any chunk is a later input index. */
  lemma PositionOrder(w: nat, i: nat, k: nat, i': nat, k': nat)
    requires i < w && k < k'
    ensures Position(i, k, w) < Position(i', k', w)
  {
    ProductOrder(k', k + 1, w);
    assert (k + 1) * w == k * w + w;
  }

  /** Different chunk positions refer to different input indices. */
  lemma PositionInjective(w: nat, i: nat, k: nat, i': nat, k': nat)
    requires i < w && i' < w
    ensures Position(i, k, w) == Position(i', k', w) ==> i == i' && k == k'
  {
    if k < k' {
      PositionOrder(w, i, k, i', k');
    } else if k' < k {
      PositionOrder(w, i', k', i, k);
    }
  }

  lemma {:induction false} SliceShift<T>(s: seq<T>, start: nat, step: nat)
    requires step >= 1 && |s| >= step
    ensures Slice(s, start + step, step) == Slice(s[step..], start, step)
    decreases |s| - start
  {
    if start + step < |s| {
      SliceShift(s, start + step, step);
    }
  }

  /** `s[i::W]` has `⌈(L - i)/W⌉` elements. */
  lemma {:induction false} SliceSize<T>(s: seq<T>, start: nat, step: nat)
    requires step >= 1
    ensures IsCeiling(|Slice(s, start, step)|, |s|, start, step)
    decreases |s| - start
  {
    if start < |s| {
      SliceSize(s, start + step, step);
      var m := |Slice(s, start + step, step)|;
      assert (m + 1) * step == m * step + step;
    }
  }

  /** Element `k` of `s[i::W]` is `s[i + k*W]`. */
  lemma {:induction false} SliceAt<T>(s: seq<T>, start: nat, step: nat, k: nat)
    requires step >= 1 && k < |Slice(s, start, step)|
    ensures Position(start, k, step) < |s|
    ensures Slice(s, start, step)[k] == s[Position(start, k, step)]
    decreases k
  {
    if k > 0 {
      SliceAt(s, start + step, step, k - 1);
      assert (k - 1) * step + step == k * step;
    }
  }

  /** Chunk `i` has `⌈(L - i)/W⌉` elements and position `k` of it holds the
      input element at index `i + k*W`: a chunk keeps the input order. */
  lemma PartitionChunks<T>(files: seq<T>, numWorkers: nat, i: nat)
    requires numWorkers >= 1 && i < numWorkers
    ensures IsCeiling(|Partition(files, numWorkers)[i]|, |files|, i, numWorkers)
    ensures forall k :: 0 <= k < |Partition(files, numWorkers)[i]|
              ==> Position(i, k, numWorkers) < |files|
                  && Partition(files, numWorkers)[i][k] == files[Position(i, k, numWorkers)]
  {
    SliceSize(files, i, numWorkers);
    forall k | 0 <= k < |Partition(files, numWorkers)[i]|
      ensures Position(i, k, numWorkers) < |files|
      ensures Partition(files, numWorkers)[i][k] == files[Position(i, k, numWorkers)]
    {
      SliceAt(files, i, numWorkers, k);
    }
  }

  /** The ceiling characterisation agrees with integer division:
      `⌈(L - i)/W⌉ == (L - i + W - 1) / W` for every chunk index `i < W`,
      including the empty chunks `L <= i`. */
  lemma CeilingByDivision(n: nat, len: nat, i: nat, w: nat)
    requires w >= 1 && i < len + w && IsCeiling(n, len, i, w)
    ensures n == (len - i + w - 1) / w
  {
    if len <= i {
      assert n == 0;
    } else {
      assert n != 0 by {
        assert 0 * w == 0;
      }
      var m: nat := n - 1;
      var x: nat := len - i + w - 1;
      assert n * w == m * w + w;
      var r: nat := x - n * w;
      QuotientUnique(x, w, n, r);
    }
  }

  lemma QuotientUnique(x: nat, w: nat, q: nat, r: nat)
    requires w >= 1 && r < w && x == Position(r, q, w)
    ensures x / w == q
  {
    assert x == Position(x % w, x / w, w);
    PositionInjective(w, r, q, x % w, x / w);
  }

  /** Every input index `j` lands in chunk `j % W` at position `j / W`, and
      in no other chunk position. */
  lemma PartitionCover<T>(files: seq<T>, numWorkers: nat, j: nat)
    requires numWorkers >= 1 && j < |files|
    ensures j / numWorkers < |Partition(files, numWorkers)[j % numWorkers]|
    ensures Partition(files, numWorkers)[j % numWorkers][j / numWorkers] == files[j]
    ensures forall i, k :: 0 <= i < numWorkers && Position(i, k, numWorkers) == j
              ==> i == j % numWorkers && k == j / numWorkers
  {
    var w := numWorkers;
    var i0, k0 := j % w, j / w;
    assert j == Position(i0, k0, w);
    PartitionChunks(files, w, i0);
    var n := |Partition(files, w)[i0]|;
    ProductOrder(k0, n, w);
    forall i, k | 0 <= i < w && Position(i, k, w) == j
      ensures i == i0 && k == k0
    {
      PositionInjective(w, i, k, i0, k0);
    }
  }

  /** The sum of the sizes of chunks `0..n-1`. */
  function SizeSum<T>(chunks: seq<seq<T>>, n: nat): nat
    requires n <= |chunks|
  {
    if n == 0 then 0 else SizeSum(chunks, n - 1) + |chunks[n - 1]|
  }

  lemma ShortSliceSize<T>(s: seq<T>, i: nat, w: nat)
    requires w >= 1 && |s| <= w
    ensures |Slice(s, i, w)| == if i < |s| then 1 else 0
  {
    if i < |s| {
      assert Slice(s, i + w, w) == [];
    }
  }

  lemma LongSliceSize<T>(s: seq<T>, i: nat, w: nat)
    requires 1 <= w <= |s| && i < w
    ensures |Slice(s, i, w)| == |Slice(s[w..], i, w)| + 1
  {
    SliceShift(s, i, w);
  }

  lemma {:induction false} SizeSumShift<T>(files: seq<T>, w: nat, n: nat)
    requires 1 <= w <= |files| && n <= w
    ensures SizeSum(Partition(files, w), n) == SizeSum(Partition(files[w..], w), n) + n
  {
    if n > 0 {
      SizeSumShift(files, w, n - 1);
      LongSliceSize(files, n - 1, w);
    }
  }

  lemma {:induction false} SizeSumShort<T>(files: seq<T>, w: nat, n: nat)
    requires w >= 1 && |files| < w && n <= w
    ensures SizeSum(Partition(files, w), n) == if n <= |files| then n else |files|
  {
    if n > 0 {
      SizeSumShort(files, w, n - 1);
      ShortSliceSize(files, n - 1, w);
    }
  }

  /** The chunk sizes add up to the length of the input. */
  lemma {:induction false} PartitionSizesSum<T>(files: seq<T>, numWorkers: nat)
    requires numWorkers >= 1
    ensures SizeSum(Partition(files, numWorkers), numWorkers) == |files|
    decreases |files|
  {
    if |files| < numWorkers {
      SizeSumShort(files, numWorkers, numWorkers);
    } else {
      SizeSumShift(files, numWorkers, numWorkers);
      PartitionSizesSum(files[numWorkers..], numWorkers);
    }
  }

  /** A chunk with a larger index is never longer, and at most one shorter:
      any two chunk sizes differ by at most one. */
  lemma {:induction false} PartitionBalanced<T>(files: seq<T>, numWorkers: nat, i: nat, j: nat)
    requires numWorkers >= 1 && i <= j < numWorkers
    ensures |Partition(files, numWorkers)[j]| <= |Partition(files, numWorkers)[i]|
    ensures |Partition(files, numWorkers)[i]| <= |Partition(files, numWorkers)[j]| + 1
    decreases |files|
  {
    if |files| < numWorkers {
      ShortSliceSize(files, i, numWorkers);
      ShortSliceSize(files, j, numWorkers);
    } else {
      LongSliceSize(files, i, numWorkers);
      LongSliceSize(files, j, numWorkers);
      PartitionBalanced(files[numWorkers..], numWorkers, i, j);
    }
  }
}
