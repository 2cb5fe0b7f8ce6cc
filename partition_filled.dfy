/** The partitioner of metodos.py with each step taking `min(room left in
    the partition, lines left in the file)` lines instead of `min(linesEach,
    lines left in the file)`: the rule that fills each worker with
    `ceil(total / n)` lines, which the `# TODO == ?` at metodos.py:63
    leaves open.  With
    that rule no partition holds more than `linesEach` lines; as written
    (`Chunking.Chunks`) a partition can, which `OversizedPartition` shows. */
module PartitionFilled {
  import opened Partition
  import opened Coverage

  /** No partition is empty. */
  ghost predicate NonEmpty(parts: seq<seq<Span>>) {
    && |parts| >= 1
    && forall p :: 0 <= p < |parts| ==> |parts[p]| >= 1
  }

  /** Every partition before the last holds exactly `linesEach` lines. */
  ghost predicate FullBefore(linesEach: int, parts: seq<seq<Span>>) {
    forall p :: 0 <= p < |parts| - 1 ==> Lines(parts[p]) == linesEach
  }

  /** Inside a partition, every span but the last one ends its file. */
  ghost predicate EndsBefore(files: seq<FileIndex>, parts: seq<seq<Span>>) {
    forall p, q :: 0 <= p < |parts| && 0 <= q < |parts[p]| - 1 ==>
      parts[p][q].file < |files| && parts[p][q].hi == files[parts[p][q].file].lineCount
  }

  /** The answer of the filling rule, in lines. */
  ghost predicate Filled(files: seq<FileIndex>, linesEach: int, parts: seq<seq<Span>>) {
    && NonEmpty(parts)
    && FullBefore(linesEach, parts)
    && EndsBefore(files, parts)
    && Lines(Last(parts)) <= linesEach
    && Tiles(files, Flatten(parts))
  }

  /** The loop state of `ChunksFilled` between steps; as `Progress` for
      `Chunks`, with the filling rule's grouping. */
  ghost predicate FillProgress(files: seq<FileIndex>, linesEach: int, res: seq<seq<Range>>,
                               parts: seq<seq<Span>>, fileIdx: int, fileLines: int, current: int)
  {
    && 0 <= fileIdx <= |files|
    && Rendered(files, parts, res)
    && NonEmpty(parts) && FullBefore(linesEach, parts) && EndsBefore(files, parts)
    && Chained(files, Flatten(parts))
    && (fileIdx < |files| ==>
          && 0 <= fileLines < files[fileIdx].lineCount
          && Last(Flatten(parts)) == Span(fileIdx, fileLines, files[fileIdx].lineCount)
          && Lines(Last(parts)[..|Last(parts)| - 1]) == current
          && 0 <= current < linesEach)
    && (fileIdx == |files| ==>
          Tiles(files, Flatten(parts)) && Lines(Last(parts)) <= linesEach)
  }

  /** The state right after a step closed the open span at line `to` of
      file `fileIdx`. */
  ghost predicate FillClosed(files: seq<FileIndex>, linesEach: int, res: seq<seq<Range>>,
                             parts: seq<seq<Span>>, fileIdx: int, to: int, current: int)
  {
    && 0 <= fileIdx < |files|
    && 0 < to <= files[fileIdx].lineCount
    && Rendered(files, parts, res)
    && NonEmpty(parts) && FullBefore(linesEach, parts) && EndsBefore(files, parts)
    && Chained(files, Flatten(parts))
    && Last(Flatten(parts)).file == fileIdx && Last(Flatten(parts)).hi == to
    && Lines(Last(parts)) == current && 0 < current <= linesEach
    && (to < files[fileIdx].lineCount ==> current == linesEach)
  }

  /** The partitioner with the filling rule. */
  method ChunksFilled(files: seq<FileIndex>, totalLines: int, n: int)
    returns (res: seq<seq<Range>>, ghost parts: seq<seq<Span>>)
    requires AllWellIndexed(files) && n >= 1 && totalLines >= 1
    ensures Rendered(files, parts, res)
    ensures Filled(files, CeilDiv(totalLines, n), parts)
    ensures |res| >= 1
    ensures totalLines == TotalLines(files, |files|) ==> |res| <= n
  {
    var fileIdx := 0;
    var fileLines := 0;
    var linesEach := CeilDiv(totalLines, n);
    var currentLines := 0;

    res := [[Range(files[fileIdx].path, 0, ToEof)]];
    parts := [[Span(0, 0, files[0].lineCount)]];
    FillStarted(files, linesEach, res, parts);

    while fileIdx < |files| && fileLines < files[fileIdx].lineCount
      invariant FillProgress(files, linesEach, res, parts, fileIdx, fileLines, currentLines)
      decreases |files| - fileIdx, if fileIdx < |files| then files[fileIdx].lineCount - fileLines else 0
    {
      var eof, nextProcess;
      res, parts, fileLines, currentLines, eof, nextProcess :=
        FillTakeLines(files, linesEach, res, parts, fileIdx, fileLines, currentLines);
      res, parts, fileIdx, fileLines, currentLines :=
        FillMoveOn(files, linesEach, res, parts, fileIdx, fileLines, currentLines, eof, nextProcess);
    }
    if totalLines == TotalLines(files, |files|) {
      FilledBalance(files, n, parts);
    }
  }

  /** One step's first half: the open range takes as many lines as the
      partition has room for, or the rest of the file if that is fewer. */
  method FillTakeLines(files: seq<FileIndex>, linesEach: int, res: seq<seq<Range>>, ghost parts: seq<seq<Span>>,
                       fileIdx: int, fileLines: int, currentLines: int)
    returns (res': seq<seq<Range>>, ghost parts': seq<seq<Span>>, fileLines': int, currentLines': int,
             eof: bool, nextProcess: bool)
    requires AllWellIndexed(files) && linesEach >= 1
    requires FillProgress(files, linesEach, res, parts, fileIdx, fileLines, currentLines)
    requires fileIdx < |files|
    ensures FillClosed(files, linesEach, res', parts', fileIdx, fileLines', currentLines')
    ensures fileLines < fileLines'
    ensures eof <==> fileLines' == files[fileIdx].lineCount
    ensures nextProcess <==> currentLines' >= linesEach
  {
    var toAdd := Min(linesEach - currentLines, files[fileIdx].lineCount - fileLines);
    fileLines' := fileLines + toAdd;
    currentLines' := currentLines + toAdd;
    eof := fileLines' >= files[fileIdx].lineCount;
    res' := res;
    if !eof {
      res' := SetLast(res, Last(Last(res)).(end := files[fileIdx].offsets[fileLines']));
    }
    parts' := SetLast(parts, Span(fileIdx, fileLines, fileLines'));
    FillCloseStep(files, linesEach, res, parts, fileIdx, fileLines, fileLines', currentLines, res');
    nextProcess := currentLines' >= linesEach;
  }

  /** One step's second half, as `MoveOn` for `Chunks`. */
  method FillMoveOn(files: seq<FileIndex>, linesEach: int, res: seq<seq<Range>>, ghost parts: seq<seq<Span>>,
                    fileIdx: int, fileLines: int, currentLines: int, eof: bool, nextProcess: bool)
    returns (res': seq<seq<Range>>, ghost parts': seq<seq<Span>>, fileIdx': int, fileLines': int, currentLines': int)
    requires AllWellIndexed(files) && linesEach >= 1
    requires FillClosed(files, linesEach, res, parts, fileIdx, fileLines, currentLines)
    requires eof <==> fileLines == files[fileIdx].lineCount
    requires nextProcess <==> currentLines >= linesEach
    ensures FillProgress(files, linesEach, res', parts', fileIdx', fileLines', currentLines')
    ensures fileIdx' > fileIdx || (fileIdx' == fileIdx && fileLines' == fileLines)
  {
    res', parts', fileIdx', fileLines', currentLines' := res, parts, fileIdx, fileLines, currentLines;
    if eof {
      fileLines' := 0;
      fileIdx' := fileIdx' + 1;
      if !nextProcess && fileIdx' < |files| {
        FillNextFileStep(files, linesEach, res', parts', fileIdx', currentLines');
        res' := PushLast(res', Range(files[fileIdx'].path, 0, ToEof));
        parts' := PushLast(parts', Span(fileIdx', 0, files[fileIdx'].lineCount));
      } else if fileIdx' == |files| {
        FillFinishStep(files, linesEach, res', parts', fileIdx, currentLines');
      }
    }

    if nextProcess && fileIdx' < |files| {
      FillNextPartitionStep(files, linesEach, res', parts', fileIdx, fileLines, fileIdx', fileLines', currentLines');
      currentLines' := 0;
      res' := res' + [[Range(files[fileIdx'].path, files[fileIdx'].offsets[fileLines'], ToEof)]];
      parts' := parts' + [[Span(fileIdx', fileLines', files[fileIdx'].lineCount)]];
    }
  }

  // ---------------------------------------------------------------------
  // The steps

  lemma {:induction false} FillStarted(files: seq<FileIndex>, linesEach: int, res: seq<seq<Range>>, parts: seq<seq<Span>>)
    requires AllWellIndexed(files) && linesEach >= 1
    requires res == [[Range(files[0].path, 0, ToEof)]]
    requires parts == [[Span(0, 0, files[0].lineCount)]]
    ensures FillProgress(files, linesEach, res, parts, 0, 0, 0)
  {
    var none: seq<seq<Span>> := [];
    FlattenPush(none, Span(0, 0, files[0].lineCount));
    assert none + [[Span(0, 0, files[0].lineCount)]] == parts;
    assert Last(parts)[..0] == [];
  }

  lemma {:induction false} FillCloseStep(files: seq<FileIndex>, linesEach: int, res: seq<seq<Range>>, parts: seq<seq<Span>>,
                      fileIdx: int, from: int, to: int, current: int, res': seq<seq<Range>>)
    requires AllWellIndexed(files) && linesEach >= 1
    requires FillProgress(files, linesEach, res, parts, fileIdx, from, current)
    requires fileIdx < |files|
    requires to == from + Min(linesEach - current, files[fileIdx].lineCount - from)
    requires res' == if to < files[fileIdx].lineCount
                     then SetLast(res, Last(Last(res)).(end := files[fileIdx].offsets[to]))
                     else res
    ensures FillClosed(files, linesEach, res', SetLast(parts, Span(fileIdx, from, to)),
                       fileIdx, to, current + (to - from))
  {
    var y := Span(fileIdx, from, to);
    LastOfFlatten(parts);
    CloseRendered(files, parts, res, y, res');
    var F := Flatten(parts);
    FlattenSetLast(parts, y);
    ChainedReplaceLast(files, F, y);
    FilledSetLast(files, linesEach, parts, y);
  }

  lemma {:induction false} FillNextFileStep(files: seq<FileIndex>, linesEach: int, res: seq<seq<Range>>, parts: seq<seq<Span>>,
                         next: int, current: int)
    requires AllWellIndexed(files) && 0 < next < |files|
    requires FillClosed(files, linesEach, res, parts, next - 1, files[next - 1].lineCount, current)
    requires current < linesEach
    ensures FillProgress(files, linesEach,
                         PushLast(res, Range(files[next].path, 0, ToEof)),
                         PushLast(parts, Span(next, 0, files[next].lineCount)),
                         next, 0, current)
  {
    var x := Span(next, 0, files[next].lineCount);
    LastOfFlatten(parts);
    RenderedPushLast(files, parts, res, x);
    FlattenPushLast(parts, x);
    ChainedAppend(files, Flatten(parts), x);
    FilledPushLast(files, linesEach, parts, x);
    var F := Flatten(PushLast(parts, x));
    assert F[..|F| - 1] == Flatten(parts);
  }

  lemma {:induction false} FillFinishStep(files: seq<FileIndex>, linesEach: int, res: seq<seq<Range>>, parts: seq<seq<Span>>,
                       fileIdx: int, current: int)
    requires AllWellIndexed(files) && 0 <= fileIdx < |files|
    requires FillClosed(files, linesEach, res, parts, fileIdx, files[fileIdx].lineCount, current)
    requires fileIdx + 1 == |files|
    ensures FillProgress(files, linesEach, res, parts, fileIdx + 1, 0, current)
  {
  }

  lemma {:induction false} FillNextPartitionStep(files: seq<FileIndex>, linesEach: int, res: seq<seq<Range>>, parts: seq<seq<Span>>,
                              fileIdx: int, to: int, f: int, l: int, current: int)
    requires AllWellIndexed(files)
    requires FillClosed(files, linesEach, res, parts, fileIdx, to, current)
    requires current >= linesEach
    requires || (to < files[fileIdx].lineCount && f == fileIdx && l == to)
             || (to == files[fileIdx].lineCount && f == fileIdx + 1 < |files| && l == 0)
    ensures FillProgress(files, linesEach,
                         res + [[Range(files[f].path, files[f].offsets[l], ToEof)]],
                         parts + [[Span(f, l, files[f].lineCount)]],
                         f, l, 0)
  {
    var x := Span(f, l, files[f].lineCount);
    RenderedPush(files, parts, res, x);
    FlattenPush(parts, x);
    ChainedAppend(files, Flatten(parts), x);
    FilledPush(files, linesEach, parts, x);
    var P := parts + [[x]];
    assert Last(P)[..0] == [];
    var F := Flatten(P);
    assert F[..|F| - 1] == Flatten(parts);
  }

  // ---------------------------------------------------------------------
  // The grouping under the three updates

  /** Closing the open span keeps the grouping and adds its lines. */
  lemma {:induction false} FilledSetLast(files: seq<FileIndex>, linesEach: int, parts: seq<seq<Span>>, y: Span)
    requires NonEmpty(parts) && FullBefore(linesEach, parts) && EndsBefore(files, parts)
    ensures var r := SetLast(parts, y);
            && NonEmpty(r) && FullBefore(linesEach, r) && EndsBefore(files, r)
            && Lines(Last(r)) == Lines(Last(parts)[..|Last(parts)| - 1]) + y.hi - y.lo
  {
    var r := SetLast(parts, y);
    var k := |parts| - 1;
    var m := |parts[k]| - 1;
    assert Last(r)[..m] == Last(parts)[..m];
    assert forall p :: 0 <= p < k ==> r[p] == r[..k][p] == parts[..k][p] == parts[p];
    forall p, q | 0 <= p < |r| && 0 <= q < |r[p]| - 1
      ensures r[p][q].file < |files| && r[p][q].hi == files[r[p][q].file].lineCount
    {
      if p == k {
        assert r[p][q] == Last(r)[..m][q] == parts[p][q];
      }
    }
  }

  /** Opening the next file in the partition the last file ended. */
  lemma {:induction false} FilledPushLast(files: seq<FileIndex>, linesEach: int, parts: seq<seq<Span>>, x: Span)
    requires NonEmpty(parts) && FullBefore(linesEach, parts) && EndsBefore(files, parts)
    requires Last(Last(parts)).file < |files|
    requires Last(Last(parts)).hi == files[Last(Last(parts)).file].lineCount
    ensures var r := PushLast(parts, x);
            && NonEmpty(r) && FullBefore(linesEach, r) && EndsBefore(files, r)
            && Last(r)[..|Last(r)| - 1] == Last(parts)
  {
    var r := PushLast(parts, x);
    var k := |parts| - 1;
    assert Last(r)[..|Last(r)| - 1] == Last(parts);
    assert forall p :: 0 <= p < k ==> r[p] == r[..k][p] == parts[..k][p] == parts[p];
    forall p, q | 0 <= p < |r| && 0 <= q < |r[p]| - 1
      ensures r[p][q].file < |files| && r[p][q].hi == files[r[p][q].file].lineCount
    {
      if p == k {
        assert r[p][q] == parts[p][q];
      }
    }
  }

  /** Opening a new partition after a full one. */
  lemma {:induction false} FilledPush(files: seq<FileIndex>, linesEach: int, parts: seq<seq<Span>>, x: Span)
    requires NonEmpty(parts) && FullBefore(linesEach, parts) && EndsBefore(files, parts)
    requires Lines(Last(parts)) == linesEach
    ensures var r := parts + [[x]];
            NonEmpty(r) && FullBefore(linesEach, r) && EndsBefore(files, r)
  {
    var r := parts + [[x]];
    assert forall p :: 0 <= p < |parts| ==> r[p] == parts[p];
  }

  // ---------------------------------------------------------------------
  // What the filling rule guarantees

  /** With the filling rule every partition holds between one and
      `linesEach` lines, all but the last exactly `linesEach`, so there are
      `ceil(total / linesEach)` of them; every line is covered once. */
  lemma {:induction false} FilledBound(files: seq<FileIndex>, linesEach: int, parts: seq<seq<Span>>)
    requires AllWellIndexed(files) && linesEach >= 1 && Filled(files, linesEach, parts)
    ensures forall p :: 0 <= p < |parts| ==> 1 <= Lines(parts[p]) <= linesEach
    ensures (|parts| - 1) * linesEach < TotalLines(files, |files|) <= |parts| * linesEach
    ensures ExpandAll(files, Flatten(parts)) == AllLines(files)
  {
    CoversEveryLine(files, parts);
    forall p | 0 <= p < |parts|
      ensures 1 <= Lines(parts[p])
    {
      SpansNonEmpty(files, parts, p);
      LinesPrefix(parts[p], 0);
    }
    SumLinesFlatten(parts);
    var k := |parts| - 1;
    SumLinesExact(linesEach, parts, k);
    assert parts[..k] == parts[..|parts| - 1];
    assert |parts| * linesEach == k * linesEach + linesEach;
  }

  /** Spans of a tiling are non-empty intervals. */
  lemma {:induction false} SpansNonEmpty(files: seq<FileIndex>, parts: seq<seq<Span>>, p: int)
    requires Chained(files, Flatten(parts)) && 0 <= p < |parts|
    ensures forall q :: 0 <= q < |parts[p]| ==> parts[p][q].lo < parts[p][q].hi
  {
    forall q | 0 <= q < |parts[p]|
      ensures parts[p][q].lo < parts[p][q].hi
    {
      InFlatten(parts, p, q);
    }
  }

  /** `k` partitions of exactly `linesEach` lines hold `k * linesEach`. */
  lemma {:induction false} SumLinesExact(linesEach: int, parts: seq<seq<Span>>, k: int)
    requires 0 <= k <= |parts|
    requires forall p :: 0 <= p < k ==> Lines(parts[p]) == linesEach
    ensures SumLines(parts[..k]) == k * linesEach
  {
    if k > 0 {
      assert parts[..k][..k - 1] == parts[..k - 1];
      assert Last(parts[..k]) == parts[k - 1];
      SumLinesExact(linesEach, parts, k - 1);
      assert k * linesEach == (k - 1) * linesEach + linesEach;
    }
  }

  /** With `linesEach = ceil(total / n)` the filling rule returns at most
      `n` partitions, none over `linesEach` lines. */
  lemma {:induction false} FilledBalance(files: seq<FileIndex>, n: int, parts: seq<seq<Span>>)
    requires AllWellIndexed(files) && n >= 1 && TotalLines(files, |files|) >= 1
    requires Filled(files, CeilDiv(TotalLines(files, |files|), n), parts)
    ensures 1 <= |parts| <= n
    ensures forall p :: 0 <= p < |parts| ==> Lines(parts[p]) <= CeilDiv(TotalLines(files, |files|), n)
  {
    var L := CeilDiv(TotalLines(files, |files|), n);
    FilledBound(files, L, parts);
    if |parts| > n {
      MulMonotone(|parts| - 1, n, L);
      assert false;
    }
  }

  // ---------------------------------------------------------------------
  // The rule as written

  /** Two files, of one line and of two lines. */
  function OneAndTwo(): seq<FileIndex> {
    [FileIndex("a", 1, [0]), FileIndex("b", 2, [0, 4])]
  }

  /** As written, `Chunks` on files of one and two lines with `n = 2`
      (`linesEach = ceil(3 / 2) = 2`) returns a single partition of three
      lines: the first file leaves the partition one line short, and the
      second file then goes in whole, since each step takes
      `min(linesEach, lines left in the file)`.  The second worker gets
      nothing and the first gets more than `linesEach` lines. */
  lemma {:induction false} OversizedPartition(parts: seq<seq<Span>>)
    requires Carved(OneAndTwo(), CeilDiv(3, 2), parts)
    ensures CeilDiv(3, 2) == 2
    ensures |parts| == 1 && Lines(parts[0]) == 3
  {
    var flat := Flatten(parts);
    OneAndTwoSpans(flat);
    FlattenCount(parts);
    FirstOfTwo(parts);
    assert parts[..0] == [];
    assert |parts| == 1 ==> flat == parts[0];
    assert flat[..1] == [Span(0, 0, 1)] && flat[..1][..0] == [];
    assert Lines(flat[..1]) == 1;
    assert Lines(flat) == Lines(flat[..1]) + 2;
  }

  /** Split in two, those spans leave the first partition one line. */
  lemma {:induction false} FirstOfTwo(parts: seq<seq<Span>>)
    requires Flatten(parts) == [Span(0, 0, 1), Span(1, 0, 2)]
    requires forall p :: 0 <= p < |parts| ==> |parts[p]| >= 1
    ensures |parts| == 2 ==> Lines(parts[0]) == 1
  {
    if |parts| == 2 {
      FlattenTwo(parts);
      var a, b := parts[0], parts[1];
      assert |a| == 1;
      assert a[0] == (a + b)[0];
      assert a == [Span(0, 0, 1)];
      assert a[..0] == [];
    }
  }

  lemma FlattenTwo<T>(parts: seq<seq<T>>)
    requires |parts| == 2
    ensures Flatten(parts) == parts[0] + parts[1]
  {
    var a := parts[..1];
    assert a[..0] == [];
    assert Flatten(a) == Flatten(a[..0]) + parts[0];
    assert parts[..|parts| - 1] == a;
  }

  /** The only spans that tile the two files under the as-written sizing
      rule: the one line of the first file, then both lines of the second. */
  lemma {:induction false} OneAndTwoSpans(flat: seq<Span>)
    requires Tiles(OneAndTwo(), flat) && Sized(OneAndTwo(), 2, flat)
    ensures flat == [Span(0, 0, 1), Span(1, 0, 2)]
  {
    var files := OneAndTwo();
    assert flat[0] == Span(0, 0, 1);
    assert Last(flat) == flat[|flat| - 1];
    assert |flat| >= 2;
    assert Follows(files, flat[0], flat[1]);
    assert flat[1] == Span(1, 0, 2);
    EndOfTiling(files, flat, 1);
  }

  /** Nothing follows the span that ends the last file. */
  lemma {:induction false} EndOfTiling(files: seq<FileIndex>, flat: seq<Span>, j: int)
    requires Chained(files, flat) && 0 <= j < |flat|
    requires flat[j].file == |files| - 1 && flat[j].hi == files[|files| - 1].lineCount
    ensures j == |flat| - 1
  {
    if j < |flat| - 1 {
      ChainStep(files, flat, j);
      assert false;
    }
  }

  lemma ChainStep(files: seq<FileIndex>, flat: seq<Span>, j: int)
    requires Chained(files, flat) && 0 <= j < |flat| - 1
    ensures flat[j].file < |files| && Follows(files, flat[j], flat[j + 1]) && ValidSpan(files, flat[j + 1])
  {
  }

  /** There are at least as many spans as non-empty partitions. */
  lemma {:induction false} FlattenCount(parts: seq<seq<Span>>)
    requires forall p :: 0 <= p < |parts| ==> |parts[p]| >= 1
    ensures |Flatten(parts)| >= |parts|
  {
    if parts != [] {
      FlattenCount(parts[..|parts| - 1]);
    }
  }
}
