/** The round-robin splitters `chunks` of the old and threads variants and
    `chunkify`: list `i` of `n` takes the elements at positions `i`,
    `i + n`, `i + 2n`, ... of the input, as the slice `lst[i::n]` does. */
module RoundRobin {

  /** `lst[i::n]` for a positive step. */
  function Stride<T>(lst: seq<T>, i: nat, n: nat): (r: seq<T>)
    requires n >= 1
    decreases |lst| - i
  {
    if i >= |lst| then [] else [lst[i]] + Stride(lst, i + n, n)
  }

  /** `[lst[i::n] for i in range(n)]`: nothing when `n` is not positive. */
  function Chunks<T>(lst: seq<T>, n: int): (r: seq<seq<T>>)
    ensures |r| == if n <= 0 then 0 else n
  {
    if n <= 0 then [] else seq(n, i requires 0 <= i < n => Stride(lst, i, n))
  }

  /** The number of positions `i`, `i + n`, ... below `len`. */
  function StrideLength(len: nat, i: nat, n: nat): nat
    requires n >= 1
    decreases len - i
  {
    if i >= len then 0 else 1 + StrideLength(len, i + n, n)
  }

  /** `lst[i::n]` has as many elements as there are positions `i + j * n`
      inside the list. */
  lemma {:induction false} StrideSize<T>(lst: seq<T>, i: nat, n: nat)
    requires n >= 1
    ensures |Stride(lst, i, n)| == StrideLength(|lst|, i, n)
    decreases |lst| - i
  {
    if i < |lst| {
      StrideSize(lst, i + n, n);
    }
  }

  /** Element `j` of `lst[i::n]` is `lst[i + j * n]`. */
  lemma {:induction false} StrideAt<T>(lst: seq<T>, i: nat, n: nat, j: nat)
    requires n >= 1 && j < |Stride(lst, i, n)|
    ensures i + j * n < |lst| && Stride(lst, i, n)[j] == lst[i + j * n]
    decreases j
  {
    if j > 0 {
      StrideAt(lst, i + n, n, j - 1);
      NextPosition(i, j, n);
    }
  }

  /** Position `j` from `i` is position `j - 1` from `i + n`. */
  lemma NextPosition(i: nat, j: nat, n: nat)
    requires j >= 1
    ensures i + n + (j - 1) * n == i + j * n
  {
  }

  /** A position `i + j * n` inside the list is counted by
      `StrideLength`. */
  lemma {:induction false} StrideReaches(len: nat, i: nat, n: nat, j: nat)
    requires n >= 1 && i + j * n < len
    ensures j < StrideLength(len, i, n)
    decreases j
  {
    if j > 0 {
      NextPosition(i, j, n);
      StrideReaches(len, i + n, n, j - 1);
    }
  }

  /** The result has `n` lists, list `i` holds `lst[i], lst[i + n], ...` in
      their original order, and nothing else. */
  lemma ChunksHold<T>(lst: seq<T>, n: int, i: nat, j: nat)
    requires n >= 1 && i < n
    ensures |Chunks(lst, n)[i]| == StrideLength(|lst|, i, n)
    ensures j < |Chunks(lst, n)[i]| <==> i + j * n < |lst|
    ensures j < |Chunks(lst, n)[i]| ==> Chunks(lst, n)[i][j] == lst[i + j * n]
  {
    StrideSize(lst, i, n);
    if i + j * n < |lst| {
      StrideReaches(|lst|, i, n, j);
    }
    if j < |Chunks(lst, n)[i]| {
      StrideAt(lst, i, n, j);
    }
  }

  /** Every element lands in list `k % n`, at position `k / n`. */
  lemma EveryElementPlaced<T>(lst: seq<T>, n: int, k: nat)
    requires n >= 1 && k < |lst|
    ensures k / n < |Chunks(lst, n)[k % n]|
    ensures Chunks(lst, n)[k % n][k / n] == lst[k]
  {
    assert k % n + (k / n) * n == k;
    ChunksHold(lst, n, k % n, k / n);
  }

  // ---------------------------------------------------------------------
  // Sizes

  /** Starting later never gives a longer list. */
  lemma {:induction false} StrideLengthMonotone(len: nat, i: nat, j: nat, n: nat)
    requires n >= 1 && i <= j
    ensures StrideLength(len, j, n) <= StrideLength(len, i, n)
    decreases len - i
  {
    if i < j && j < len {
      StrideLengthMonotone(len, i + n, j + n, n);
    }
  }

  /** The lists' sizes differ by at most one, the earlier ones being the
      longer. */
  lemma Balanced<T>(lst: seq<T>, n: int, i: nat, j: nat)
    requires n >= 1 && i <= j < n
    ensures |Chunks(lst, n)[j]| <= |Chunks(lst, n)[i]| <= |Chunks(lst, n)[j]| + 1
  {
    ChunksHold(lst, n, i, 0);
    ChunksHold(lst, n, j, 0);
    StrideLengthMonotone(|lst|, i, j, n);
    StrideLengthMonotone(|lst|, j, i + n, n);
  }

  /** The total size of lists `0` to `k - 1`. */
  function SizeBelow(len: nat, n: nat, k: nat): nat
    requires n >= 1
  {
    if k == 0 then 0 else SizeBelow(len, n, k - 1) + StrideLength(len, k - 1, n)
  }

  /** Moving the start and the end by `n` keeps the count. */
  lemma {:induction false} StrideLengthShift(len: nat, i: nat, n: nat)
    requires n >= 1 && n <= len
    ensures StrideLength(len, i + n, n) == StrideLength(len - n, i, n)
    decreases len - i
  {
    if i + n < len {
      StrideLengthShift(len, i + n, n);
    }
  }

  /** Below `n` elements, each of the first `len` lists has one element. */
  lemma {:induction false} ShortSizes(len: nat, n: nat, k: nat)
    requires n >= 1 && len < n && k <= n
    ensures SizeBelow(len, n, k) == if k <= len then k else len
  {
    if k > 0 {
      ShortSizes(len, n, k - 1);
      if k - 1 < len {
        assert StrideLength(len, k - 1, n) == 1 + StrideLength(len, k - 1 + n, n);
      }
    }
  }

  /** With at least `n` elements, each list holds one more than for
      `len - n` elements. */
  lemma {:induction false} LongSizes(len: nat, n: nat, k: nat)
    requires n >= 1 && n <= len && k <= n
    ensures SizeBelow(len, n, k) == k + SizeBelow(len - n, n, k)
  {
    if k > 0 {
      LongSizes(len, n, k - 1);
      StrideLengthShift(len, k - 1, n);
      assert StrideLength(len, k - 1, n) == 1 + StrideLength(len, k - 1 + n, n);
    }
  }

  /** All the lists together hold as many elements as the input. */
  lemma {:induction false} TotalSize(len: nat, n: nat)
    requires n >= 1
    ensures SizeBelow(len, n, n) == len
    decreases len
  {
    if len < n {
      ShortSizes(len, n, n);
    } else {
      LongSizes(len, n, n);
      TotalSize(len - n, n);
    }
  }

  /** Every element is placed, and the lists hold exactly as many elements
      as the input, so each element is in exactly one list. */
  lemma Partition<T>(lst: seq<T>, n: int)
    requires n >= 1
    ensures SizeBelow(|lst|, n, n) == |lst|
    ensures forall i :: 0 <= i < n ==> |Chunks(lst, n)[i]| == StrideLength(|lst|, i, n)
  {
    TotalSize(|lst|, n);
    forall i | 0 <= i < n
      ensures |Chunks(lst, n)[i]| == StrideLength(|lst|, i, n)
    {
      ChunksHold(lst, n, i, 0);
    }
  }

  /** Nine files among seven children: the first two children get two
      files each (`a, h` and `b, i`) and the other five get one. */
  lemma NineFilesSevenChildren()
    ensures Chunks(["a", "b", "c", "d", "e", "f", "g", "h", "i"], 7) ==
            [["a", "h"], ["b", "i"], ["c"], ["d"], ["e"], ["f"], ["g"]]
  {
    var files := ["a", "b", "c", "d", "e", "f", "g", "h", "i"];
    var c := Chunks(files, 7);
    assert c[0] == Stride(files, 0, 7) == ["a", "h"];
    assert c[1] == Stride(files, 1, 7) == ["b", "i"];
    assert c[2] == Stride(files, 2, 7) == ["c"];
    assert c[3] == Stride(files, 3, 7) == ["d"];
    assert c[4] == Stride(files, 4, 7) == ["e"];
    assert c[5] == Stride(files, 5, 7) == ["f"];
    assert c[6] == Stride(files, 6, 7) == ["g"];
  }
}
