/** What the ranges of `chunks` in metodos.py add up to: every line of
    every file exactly once and in order, at most `n` partitions, each of
    fewer than `2 * linesEach` lines, and cuts inside a file that hand over
    to the next partition at the same offset. */
module Coverage {
  import opened Partition

  /** A line, named by its file number and its line number in that file. */
  type Line = (int, int)

  /** The lines `0 .. h - 1` of file `f`. */
  function FileLines(f: int, h: int): (r: seq<Line>)
    requires h >= 0
    ensures |r| == h && forall k :: 0 <= k < h ==> r[k] == (f, k)
  {
    seq(h, k => (f, k))
  }

  /** Every line of the first `m` files, file after file. */
  function FilesLines(files: seq<FileIndex>, m: int): seq<Line>
    requires AllWellIndexed(files) && 0 <= m <= |files|
  {
    if m == 0 then [] else FilesLines(files, m - 1) + FileLines(m - 1, files[m - 1].lineCount)
  }

  /** Every line of every file, in input order. */
  function AllLines(files: seq<FileIndex>): seq<Line>
    requires AllWellIndexed(files)
  {
    FilesLines(files, |files|)
  }

  /** The number of lines of the first `m` files. */
  function TotalLines(files: seq<FileIndex>, m: int): int
    requires 0 <= m <= |files|
  {
    if m == 0 then 0 else TotalLines(files, m - 1) + files[m - 1].lineCount
  }

  /** The lines a span stands for. */
  function Expand(s: Span): (r: seq<Line>)
    requires s.lo <= s.hi
    ensures |r| == s.hi - s.lo
  {
    FileLines(s.file, s.hi)[s.lo..]
  }

  /** The lines a list of spans stands for, in order. */
  function ExpandAll(files: seq<FileIndex>, flat: seq<Span>): seq<Line>
    requires forall j :: 0 <= j < |flat| ==> ValidSpan(files, flat[j])
  {
    if flat == [] then []
    else
      var last := flat[|flat| - 1];
      assert ValidSpan(files, last);
      ExpandAll(files, flat[..|flat| - 1]) + Expand(last)
  }

  /** `a` comes before `b` in file-then-line order. */
  predicate Before(a: Line, b: Line) {
    a.0 < b.0 || (a.0 == b.0 && a.1 < b.1)
  }

  // ---------------------------------------------------------------------
  // The lines of the files

  /** The lines of the first `m` files are exactly the pairs naming one of
      their lines, and they are listed in increasing order, so each one
      appears once. */
  lemma {:induction false} FilesLinesOrdered(files: seq<FileIndex>, m: int)
    requires AllWellIndexed(files) && 0 <= m <= |files|
    ensures |FilesLines(files, m)| == TotalLines(files, m)
    ensures forall x :: x in FilesLines(files, m) <==>
              0 <= x.0 < m && 0 <= x.1 < files[x.0].lineCount
    ensures forall j, k :: 0 <= j < k < |FilesLines(files, m)| ==>
              Before(FilesLines(files, m)[j], FilesLines(files, m)[k])
  {
    if m > 0 {
      FilesLinesOrdered(files, m - 1);
      var a, b := FilesLines(files, m - 1), FileLines(m - 1, files[m - 1].lineCount);
      assert FilesLines(files, m) == a + b;
      forall x: Line
        ensures x in a + b <==> 0 <= x.0 < m && 0 <= x.1 < files[x.0].lineCount
      {
        if x.0 == m - 1 && 0 <= x.1 < files[x.0].lineCount {
          assert b[x.1] == x;
        }
      }
      forall j, k | 0 <= j < k < |a + b|
        ensures Before((a + b)[j], (a + b)[k])
      {
        if j < |a| && k >= |a| {
          assert a[j] in a;
        }
      }
    }
  }

  /** Each line of each file appears in `AllLines` exactly once. */
  lemma {:induction false} EveryLineOnce(files: seq<FileIndex>, f: int, i: int)
    requires AllWellIndexed(files) && 0 <= f < |files| && 0 <= i < files[f].lineCount
    ensures exists j :: 0 <= j < |AllLines(files)| && AllLines(files)[j] == (f, i)
    ensures forall j, k :: 0 <= j < k < |AllLines(files)| ==> AllLines(files)[j] != AllLines(files)[k]
  {
    FilesLinesOrdered(files, |files|);
    assert (f, i) in AllLines(files);
  }

  // ---------------------------------------------------------------------
  // What the spans stand for

  /** Lines `a .. b - 1` of file `f` continue lines `0 .. a - 1`. */
  lemma {:induction false} FileLinesExtend(f: nat, a: nat, b: nat)
    requires 0 <= a <= b
    ensures FileLines(f, a) + Expand(Span(f, a, b)) == FileLines(f, b)
  {
    assert FileLines(f, a) == FileLines(f, b)[..a];
  }

  /** A chain of spans covers every line up to where its last span stops. */
  lemma {:induction false} ChainedExpands(files: seq<FileIndex>, flat: seq<Span>)
    requires AllWellIndexed(files) && Chained(files, flat)
    ensures ExpandAll(files, flat) ==
            FilesLines(files, Last(flat).file) + FileLines(Last(flat).file, Last(flat).hi)
  {
    var x := Last(flat);
    var init := flat[..|flat| - 1];
    if |flat| == 1 {
      assert init == [];
      FileLinesExtend(x.file, 0, x.hi);
    } else {
      assert Chained(files, init) by {
        assert forall j :: 0 <= j < |init| ==> init[j] == flat[j];
      }
      ChainedExpands(files, init);
      var y := Last(init);
      assert Follows(files, y, x) by {
        assert y == flat[|flat| - 2];
      }
      if x.file == y.file && x.lo == y.hi {
        FileLinesExtend(x.file, x.lo, x.hi);
      } else {
        FileLinesExtend(x.file, 0, x.hi);
      }
    }
  }

  /** The lines `Lines` counts are the lines `ExpandAll` lists. */
  lemma {:induction false} LinesCount(files: seq<FileIndex>, flat: seq<Span>)
    requires forall j :: 0 <= j < |flat| ==> ValidSpan(files, flat[j])
    ensures |ExpandAll(files, flat)| == Lines(flat)
  {
    if flat != [] {
      LinesCount(files, flat[..|flat| - 1]);
    }
  }

  /** Coverage: read in order, the ranges of `Chunks` give every line of
      every file exactly once, files in input order. */
  lemma {:induction false} CoversEveryLine(files: seq<FileIndex>, parts: seq<seq<Span>>)
    requires AllWellIndexed(files) && Tiles(files, Flatten(parts))
    ensures ExpandAll(files, Flatten(parts)) == AllLines(files)
    ensures Lines(Flatten(parts)) == TotalLines(files, |files|)
  {
    var flat := Flatten(parts);
    ChainedExpands(files, flat);
    var m := |files|;
    assert FilesLines(files, m) == FilesLines(files, m - 1) + FileLines(m - 1, files[m - 1].lineCount);
    LinesCount(files, flat);
    FilesLinesOrdered(files, m);
  }

  // ---------------------------------------------------------------------
  // Balance

  /** `Lines` adds up over a concatenation. */
  lemma {:induction false} LinesAppend(a: seq<Span>, b: seq<Span>)
    ensures Lines(a + b) == Lines(a) + Lines(b)
  {
    if b != [] {
      var c := a + b;
      assert c[..|c| - 1] == a + b[..|b| - 1];
      assert Last(c) == Last(b);
      assert Lines(c) == Lines(a + b[..|b| - 1]) + Last(b).hi - Last(b).lo;
      LinesAppend(a, b[..|b| - 1]);
    } else {
      assert a + b == a;
    }
  }

  /** A list of non-empty spans has at least as many lines as spans, and
      at least as many as any one prefix of it. */
  lemma {:induction false} LinesPrefix(part: seq<Span>, q: int)
    requires forall j :: 0 <= j < |part| ==> part[j].lo < part[j].hi
    requires 0 <= q <= |part|
    ensures 0 <= Lines(part[..q]) <= Lines(part)
    ensures Lines(part) >= |part|
  {
    if part != [] {
      var init := part[..|part| - 1];
      if q == |part| {
        assert part[..q] == part;
        LinesPrefix(init, 0);
      } else {
        assert part[..q] == init[..q];
        LinesPrefix(init, q);
      }
    } else {
      assert part[..q] == [];
    }
  }

  /** The sum of the lines of the partitions. */
  function SumLines(parts: seq<seq<Span>>): int {
    if parts == [] then 0 else SumLines(parts[..|parts| - 1]) + Lines(Last(parts))
  }

  lemma {:induction false} SumLinesFlatten(parts: seq<seq<Span>>)
    ensures SumLines(parts) == Lines(Flatten(parts))
  {
    if parts != [] {
      SumLinesFlatten(parts[..|parts| - 1]);
      LinesAppend(Flatten(parts[..|parts| - 1]), Last(parts));
    }
  }

  /** Every span of every partition occurs in the flattened list. */
  lemma {:induction false} InFlatten<T>(parts: seq<seq<T>>, p: int, q: int)
    requires 0 <= p < |parts| && 0 <= q < |parts[p]|
    ensures parts[p][q] in Flatten(parts)
  {
    var init := parts[..|parts| - 1];
    if p < |parts| - 1 {
      assert parts[p] == init[p];
      InFlatten(init, p, q);
    }
  }

  /** Every span of a carved result is a non-empty interval of lines. */
  lemma {:induction false} SpansValid(files: seq<FileIndex>, linesEach: int, parts: seq<seq<Span>>, p: int)
    requires Carved(files, linesEach, parts) && 0 <= p < |parts|
    ensures forall q :: 0 <= q < |parts[p]| ==>
              ValidSpan(files, parts[p][q]) &&
              parts[p][q].hi - parts[p][q].lo == Min(linesEach, files[parts[p][q].file].lineCount - parts[p][q].lo)
  {
    forall q | 0 <= q < |parts[p]|
      ensures ValidSpan(files, parts[p][q])
      ensures ValidSpan(files, parts[p][q]) && parts[p][q].hi - parts[p][q].lo == Min(linesEach, files[parts[p][q].file].lineCount - parts[p][q].lo)
    {
      InFlatten(parts, p, q);
      var flat := Flatten(parts);
      var j :| 0 <= j < |flat| && flat[j] == parts[p][q];
    }
  }

  /** Every partition holds fewer than `2 * linesEach` lines: before its
      last span it is still short of `linesEach`, and no span is longer
      than `linesEach`. */
  lemma {:induction false} UnderTwice(files: seq<FileIndex>, linesEach: int, parts: seq<seq<Span>>, p: int)
    requires Carved(files, linesEach, parts) && linesEach >= 1 && 0 <= p < |parts|
    ensures 1 <= Lines(parts[p]) < 2 * linesEach
    ensures p < |parts| - 1 ==> Lines(parts[p]) >= linesEach
  {
    SpansValid(files, linesEach, parts, p);
    var part := parts[p];
    var m := |part| - 1;
    LinesPrefix(part, m);
    assert part[..m] == part[..|part| - 1];
  }

  /** When each of the first `k` partitions holds at least `linesEach`
      lines, together they hold at least `k * linesEach`. */
  lemma {:induction false} SumLinesLower(linesEach: int, parts: seq<seq<Span>>, k: int)
    requires 0 <= k <= |parts|
    requires forall p :: 0 <= p < k ==> Lines(parts[p]) >= linesEach
    ensures SumLines(parts[..k]) >= k * linesEach
  {
    if k > 0 {
      assert parts[..k][..k - 1] == parts[..k - 1];
      assert Last(parts[..k]) == parts[k - 1];
      SumLinesLower(linesEach, parts, k - 1);
      assert k * linesEach == (k - 1) * linesEach + linesEach;
    }
  }

  /** Balance: with `linesEach = ceil(total / n)` at most `n` partitions
      come back, all but the last hold at least `linesEach` lines and each
      holds fewer than `2 * linesEach`. */
  lemma {:induction false} Balance(files: seq<FileIndex>, n: int, parts: seq<seq<Span>>)
    requires AllWellIndexed(files) && n >= 1 && TotalLines(files, |files|) >= 1
    requires Carved(files, CeilDiv(TotalLines(files, |files|), n), parts)
    ensures 1 <= |parts| <= n
    ensures forall p :: 0 <= p < |parts| ==>
              Lines(parts[p]) < 2 * CeilDiv(TotalLines(files, |files|), n)
    ensures forall p :: 0 <= p < |parts| - 1 ==>
              Lines(parts[p]) >= CeilDiv(TotalLines(files, |files|), n)
  {
    var total := TotalLines(files, |files|);
    var L := CeilDiv(total, n);
    forall p | 0 <= p < |parts|
      ensures Lines(parts[p]) < 2 * L
      ensures p < |parts| - 1 ==> Lines(parts[p]) >= L
    {
      UnderTwice(files, L, parts, p);
    }
    CoversEveryLine(files, parts);
    SumLinesFlatten(parts);
    UnderTwice(files, L, parts, |parts| - 1);
    CountBound(L, n, total, parts);
  }

  /** Partitions of at least `linesEach` lines, all but a non-empty last
      one, cannot number more than `n` when `n * linesEach` lines cover the
      total. */
  lemma {:induction false} CountBound(linesEach: int, n: int, total: int, parts: seq<seq<Span>>)
    requires |parts| >= 1 && linesEach >= 1 && n >= 1 && n * linesEach >= total
    requires SumLines(parts) == total
    requires forall p :: 0 <= p < |parts| - 1 ==> Lines(parts[p]) >= linesEach
    requires Lines(Last(parts)) >= 1
    ensures |parts| <= n
  {
    var k := |parts| - 1;
    SumLinesLower(linesEach, parts, k);
    assert parts[..k] == parts[..|parts| - 1];
    if |parts| > n {
      MulMonotone(k, n, linesEach);
      assert false;
    }
  }

  lemma MulMonotone(a: int, b: int, c: int)
    requires a >= b && c >= 0
    ensures a * c >= b * c
  {
  }

  // ---------------------------------------------------------------------
  // Boundaries

  /** Consecutive spans in a partition, and the last span of a partition
      and the first of the next, follow each other. */
  lemma {:induction false} ChainedParts(files: seq<FileIndex>, parts: seq<seq<Span>>)
    requires Chained(files, Flatten(parts))
    requires forall p :: 0 <= p < |parts| ==> |parts[p]| >= 1
    ensures forall p, q :: 0 <= p < |parts| && 0 <= q < |parts[p]| - 1 ==>
              parts[p][q].file < |files| && Follows(files, parts[p][q], parts[p][q + 1])
    ensures forall p :: 0 <= p < |parts| - 1 ==>
              Last(parts[p]).file < |files| && Follows(files, Last(parts[p]), parts[p + 1][0])
  {
    var k := |parts| - 1;
    var init := parts[..k];
    var a, b := Flatten(init), parts[k];
    assert Flatten(parts) == a + b;
    ChainedInside(files, a, b);
    if k > 0 {
      ChainedPrefix(files, a, b);
      ChainedParts(files, init);
      LastOfFlatten(init);
      ChainedJoin(files, a, b);
      assert forall p :: 0 <= p < k ==> init[p] == parts[p];
    }
  }

  /** A chain's spans after a prefix follow each other. */
  lemma ChainedInside(files: seq<FileIndex>, a: seq<Span>, b: seq<Span>)
    requires Chained(files, a + b)
    ensures forall q :: 0 <= q < |b| - 1 ==> b[q].file < |files| && Follows(files, b[q], b[q + 1])
  {
    forall q | 0 <= q < |b| - 1
      ensures b[q].file < |files| && Follows(files, b[q], b[q + 1])
    {
      assert b[q] == (a + b)[|a| + q] && b[q + 1] == (a + b)[|a| + q + 1];
    }
  }

  /** A non-empty prefix of a chain is a chain. */
  lemma ChainedPrefix(files: seq<FileIndex>, a: seq<Span>, b: seq<Span>)
    requires Chained(files, a + b) && |a| >= 1
    ensures Chained(files, a)
  {
    assert forall j :: 0 <= j < |a| ==> a[j] == (a + b)[j];
  }

  /** Where two pieces of a chain meet, the second follows the first. */
  lemma ChainedJoin(files: seq<FileIndex>, a: seq<Span>, b: seq<Span>)
    requires Chained(files, a + b) && |a| >= 1 && |b| >= 1
    ensures Last(a).file < |files| && Follows(files, Last(a), b[0])
  {
    assert Last(a) == (a + b)[|a| - 1] && b[0] == (a + b)[|a|];
  }

  /** A span that stops before the end of its file ends its partition,
      and that partition is not the last. */
  lemma {:induction false} CutSpan(files: seq<FileIndex>, linesEach: int, parts: seq<seq<Span>>, p: int, q: int)
    requires AllWellIndexed(files) && linesEach >= 1
    requires Carved(files, linesEach, parts)
    requires 0 <= p < |parts| && 0 <= q < |parts[p]|
    requires parts[p][q].file < |files| && parts[p][q].hi < files[parts[p][q].file].lineCount
    ensures q == |parts[p]| - 1 && p + 1 < |parts|
  {
    SpansValid(files, linesEach, parts, p);
    var s := parts[p][q];
    assert s.hi - s.lo == linesEach;
    if q < |parts[p]| - 1 {
      var pre := parts[p][..q + 1];
      assert pre[..q] == parts[p][..q];
      assert Last(pre) == s;
      LinesPrefix(pre, q);
      assert false;
    }
    if p == |parts| - 1 {
      LastOfFlatten(parts);
      assert false;
    }
  }

  /** A range that stops before the end of its file (`end` is an offset,
      not `ToEof`) is the last range of its partition, and the next
      partition starts in the same file at that very offset. */
  lemma {:induction false} Cut(files: seq<FileIndex>, linesEach: int, parts: seq<seq<Span>>, res: seq<seq<Range>>, p: int, q: int)
    requires AllWellIndexed(files) && linesEach >= 1
    requires Carved(files, linesEach, parts) && Rendered(files, parts, res)
    requires 0 <= p < |res| && 0 <= q < |res[p]| && res[p][q].end != ToEof
    ensures q == |res[p]| - 1 && p + 1 < |res|
    ensures res[p + 1][0].path == res[p][q].path && res[p + 1][0].start == res[p][q].end
  {
    var s := parts[p][q];
    assert ValidSpan(files, s) && res[p][q] == Render(files, s);
    CutSpan(files, linesEach, parts, p, q);
    ChainedParts(files, parts);
    assert Follows(files, s, parts[p + 1][0]);
    SpansValid(files, linesEach, parts, p + 1);
  }

  /** The cut rule for every range, with the boundaries: every range starts
      at a line start of its file, and the last range of all reads to the
      end of its file. */
  lemma {:induction false} Cuts(files: seq<FileIndex>, linesEach: int, parts: seq<seq<Span>>, res: seq<seq<Range>>)
    requires AllWellIndexed(files) && linesEach >= 1
    requires Carved(files, linesEach, parts) && Rendered(files, parts, res)
    ensures forall p, q :: 0 <= p < |res| && 0 <= q < |res[p]| && res[p][q].end != ToEof ==>
              && q == |res[p]| - 1 && p + 1 < |res|
              && res[p + 1][0].path == res[p][q].path
              && res[p + 1][0].start == res[p][q].end
    ensures forall p, q :: 0 <= p < |res| && 0 <= q < |res[p]| ==>
              exists f, k :: 0 <= f < |files| && 0 <= k < files[f].lineCount &&
                res[p][q].path == files[f].path && res[p][q].start == files[f].offsets[k]
    ensures |res| >= 1 && |Last(res)| >= 1 && Last(Last(res)).end == ToEof
  {
    forall p, q | 0 <= p < |res| && 0 <= q < |res[p]| && res[p][q].end != ToEof
      ensures && q == |res[p]| - 1 && p + 1 < |res|
              && res[p + 1][0].path == res[p][q].path
              && res[p + 1][0].start == res[p][q].end
    {
      Cut(files, linesEach, parts, res, p, q);
    }
    forall p, q | 0 <= p < |res| && 0 <= q < |res[p]|
      ensures exists f, k :: 0 <= f < |files| && 0 <= k < files[f].lineCount &&
                res[p][q].path == files[f].path && res[p][q].start == files[f].offsets[k]
    {
      var s := parts[p][q];
      assert res[p][q].start == files[s.file].offsets[s.lo];
    }
    LastOfFlatten(parts);
  }
}
