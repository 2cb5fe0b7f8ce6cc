/** `chunks` of metodos.py: the partitioner's loop, with what its ranges
    promise stated on the ranges themselves. */
module Chunking {
  import opened Partition
  import opened Coverage

  /** The partitioner.  `res[p]` is what worker `p` reads; `parts` gives the
      line interval behind each range.  `linesEach` is `ceil(totalLines / n)`
      and each step takes `min(linesEach, lines left in the file)`, not the
      room left in the current partition.  On the ranges: no partition is
      empty, the last range reads to the end of its file, a range cut inside
      a file closes its partition and the next partition resumes at the
      cut, every range starts at a line start, and with the true total at
      most `n` partitions come back. */
  method Chunks(files: seq<FileIndex>, totalLines: int, n: int)
    returns (res: seq<seq<Range>>, ghost parts: seq<seq<Span>>)
    requires AllWellIndexed(files) && n >= 1 && totalLines >= 1
    ensures Rendered(files, parts, res)
    ensures Carved(files, CeilDiv(totalLines, n), parts)
    ensures |res| >= 1 && forall p :: 0 <= p < |res| ==> |res[p]| >= 1
    ensures Last(Last(res)).end == ToEof
    ensures forall p, q :: 0 <= p < |res| && 0 <= q < |res[p]| && res[p][q].end != ToEof ==>
              && q == |res[p]| - 1 && p + 1 < |res|
              && res[p + 1][0].path == res[p][q].path
              && res[p + 1][0].start == res[p][q].end
    ensures forall p, q :: 0 <= p < |res| && 0 <= q < |res[p]| ==>
              exists f, k :: 0 <= f < |files| && 0 <= k < files[f].lineCount &&
                res[p][q].path == files[f].path && res[p][q].start == files[f].offsets[k]
    ensures totalLines == TotalLines(files, |files|) ==> |res| <= n
  {
    res, parts := Carve(files, totalLines, n);
    RangesHold(files, totalLines, n, parts, res);
    AtMostN(files, totalLines, n, parts, res);
  }

  /** What a carved result promises about its ranges alone. */
  lemma RangesHold(files: seq<FileIndex>, totalLines: int, n: int, parts: seq<seq<Span>>, res: seq<seq<Range>>)
    requires AllWellIndexed(files) && n >= 1 && totalLines >= 1
    requires Rendered(files, parts, res) && Carved(files, CeilDiv(totalLines, n), parts)
    ensures |res| >= 1 && forall p :: 0 <= p < |res| ==> |res[p]| >= 1
    ensures Last(Last(res)).end == ToEof
    ensures forall p, q :: 0 <= p < |res| && 0 <= q < |res[p]| && res[p][q].end != ToEof ==>
              && q == |res[p]| - 1 && p + 1 < |res|
              && res[p + 1][0].path == res[p][q].path
              && res[p + 1][0].start == res[p][q].end
    ensures forall p, q :: 0 <= p < |res| && 0 <= q < |res[p]| ==>
              exists f, k :: 0 <= f < |files| && 0 <= k < files[f].lineCount &&
                res[p][q].path == files[f].path && res[p][q].start == files[f].offsets[k]
  {
    Cuts(files, CeilDiv(totalLines, n), parts, res);
  }

  /** Given the true total, at most `n` partitions come back. */
  lemma AtMostN(files: seq<FileIndex>, totalLines: int, n: int, parts: seq<seq<Span>>, res: seq<seq<Range>>)
    requires AllWellIndexed(files) && n >= 1 && totalLines >= 1
    requires Rendered(files, parts, res) && Carved(files, CeilDiv(totalLines, n), parts)
    ensures totalLines == TotalLines(files, |files|) ==> |res| <= n
  {
    if totalLines == TotalLines(files, |files|) {
      Balance(files, n, parts);
    }
  }
}
