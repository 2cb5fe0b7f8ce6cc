/** The line-aligned range partitioner: `chunks` in metodos.py.

    The partitioner walks the indexed files in order and carves them into
    ranges of whole lines, grouped into one partition per worker.  Ranges are
    written with byte offsets (`Range`); the proof works with the line
    interval each range stands for (`Span`), carried alongside as a ghost
    value of the same shape as the result. */
module Partition {

  /** What the indexer produced for one file: its path, its number of lines
      and the offset at which each line starts. */
  datatype FileIndex = FileIndex(path: string, lineCount: int, offsets: seq<int>)

  /** A range of one file given to a worker; `end == ToEof` reads to the end
      of the file, any other `end` stops before the line starting there. */
  datatype Range = Range(path: string, start: int, end: int)

  /** The line interval [lo, hi) of file number `file`. */
  datatype Span = Span(file: nat, lo: nat, hi: nat)

  /** The "read to the end of the file" marker used for `end`. */
  const ToEof: int := -1

  function Min(a: int, b: int): int { if a <= b then a else b }

  function Last<T>(s: seq<T>): T
    requires |s| >= 1
  {
    s[|s| - 1]
  }

  /** `ceil(a / n)` for a positive `n`. */
  function CeilDiv(a: int, n: int): (q: int)
    requires n >= 1
    ensures q * n >= a && (q - 1) * n < a
  {
    (a + n - 1) / n
  }

  /** The shape the partitioner relies on: at least one line, one start
      offset per line, the first line at offset 0 and offsets increasing. */
  predicate WellIndexed(f: FileIndex) {
    && f.lineCount >= 1
    && |f.offsets| == f.lineCount
    && f.offsets[0] == 0
    && forall i, j :: 0 <= i < j < |f.offsets| ==> f.offsets[i] < f.offsets[j]
  }

  predicate AllWellIndexed(files: seq<FileIndex>) {
    && |files| >= 1
    && forall k :: 0 <= k < |files| ==> WellIndexed(files[k])
  }

  /** A non-empty line interval inside an existing file. */
  predicate ValidSpan(files: seq<FileIndex>, s: Span) {
    && s.file < |files|
    && s.lo < s.hi <= files[s.file].lineCount
    && |files[s.file].offsets| == files[s.file].lineCount
  }

  /** The range a worker is given for the line interval `s`: it starts at the
      offset of line `lo` and ends at the offset of line `hi`, or at the end
      of the file when `hi` is the last line. */
  function Render(files: seq<FileIndex>, s: Span): Range
    requires ValidSpan(files, s)
  {
    var f := files[s.file];
    Range(f.path, f.offsets[s.lo], if s.hi == f.lineCount then ToEof else f.offsets[s.hi])
  }

  /** The partitions concatenated in order. */
  function Flatten<T>(parts: seq<seq<T>>): seq<T> {
    if parts == [] then [] else Flatten(parts[..|parts| - 1]) + Last(parts)
  }

  /** The number of lines in a list of spans. */
  function Lines(part: seq<Span>): int {
    if part == [] then 0 else Lines(part[..|part| - 1]) + Last(part).hi - Last(part).lo
  }

  /** `b` comes right after `a`: it goes on in the same file where `a`
      stopped, or `a` finished its file and `b` opens the next one. */
  predicate Follows(files: seq<FileIndex>, a: Span, b: Span)
    requires a.file < |files|
  {
    || (b.file == a.file && b.lo == a.hi)
    || (a.hi == files[a.file].lineCount && b.file == a.file + 1 && b.lo == 0)
  }

  /** The spans start at the first line of the first file, every span is a
      non-empty interval of a file, and each one follows its predecessor. */
  predicate Chained(files: seq<FileIndex>, flat: seq<Span>) {
    && |flat| >= 1
    && flat[0].file == 0 && flat[0].lo == 0
    && (forall j :: 0 <= j < |flat| ==> ValidSpan(files, flat[j]))
    && (forall j :: 0 <= j < |flat| - 1 ==> Follows(files, flat[j], flat[j + 1]))
  }

  /** The spans tile the files: chained, and the last one ends the last file. */
  predicate Tiles(files: seq<FileIndex>, flat: seq<Span>) {
    && Chained(files, flat)
    && Last(flat).file == |files| - 1
    && Last(flat).hi == files[|files| - 1].lineCount
  }

  /** Every span takes `min(linesEach, lines left in its file)` lines. */
  predicate Sized(files: seq<FileIndex>, linesEach: int, flat: seq<Span>) {
    forall j :: 0 <= j < |flat| ==>
      && flat[j].file < |files|
      && flat[j].hi - flat[j].lo == Min(linesEach, files[flat[j].file].lineCount - flat[j].lo)
  }

  /** How spans are grouped into partitions: no partition is empty, a
      partition is closed only once it holds at least `linesEach` lines, and
      none is closed later than that (each proper prefix is below it). */
  predicate Grouped(linesEach: int, parts: seq<seq<Span>>) {
    && |parts| >= 1
    && (forall p :: 0 <= p < |parts| ==> |parts[p]| >= 1)
    && (forall p :: 0 <= p < |parts| - 1 ==> Lines(parts[p]) >= linesEach)
    && (forall p, q :: 0 <= p < |parts| && 0 < q < |parts[p]| ==> Lines(parts[p][..q]) < linesEach)
  }

  /** The complete description of the partitioner's answer, in lines. */
  predicate Carved(files: seq<FileIndex>, linesEach: int, parts: seq<seq<Span>>) {
    && Grouped(linesEach, parts)
    && Tiles(files, Flatten(parts))
    && Sized(files, linesEach, Flatten(parts))
  }

  /** The ranges are the spans written with offsets. */
  predicate Rendered(files: seq<FileIndex>, parts: seq<seq<Span>>, res: seq<seq<Range>>) {
    && |res| == |parts|
    && (forall p :: 0 <= p < |parts| ==> |res[p]| == |parts[p]|)
    && (forall p, q :: 0 <= p < |parts| && 0 <= q < |parts[p]| ==>
          ValidSpan(files, parts[p][q]) && res[p][q] == Render(files, parts[p][q]))
  }

  /** `s` with the last element of its last list replaced by `x`. */
  function SetLast<T>(s: seq<seq<T>>, x: T): (r: seq<seq<T>>)
    requires |s| >= 1 && |Last(s)| >= 1
    ensures |r| == |s| && r[..|s| - 1] == s[..|s| - 1]
    ensures Last(r) == Last(s)[..|Last(s)| - 1] + [x]
  {
    s[..|s| - 1] + [Last(s)[..|Last(s)| - 1] + [x]]
  }

  /** `s` with `x` appended to its last list. */
  function PushLast<T>(s: seq<seq<T>>, x: T): (r: seq<seq<T>>)
    requires |s| >= 1
    ensures |r| == |s| && r[..|s| - 1] == s[..|s| - 1]
    ensures Last(r) == Last(s) + [x]
  {
    s[..|s| - 1] + [Last(s) + [x]]
  }

  lemma FlattenSetLast<T>(s: seq<seq<T>>, x: T)
    requires |s| >= 1 && |Last(s)| >= 1
    ensures |Flatten(s)| >= 1
    ensures Flatten(SetLast(s, x)) == Flatten(s)[..|Flatten(s)| - 1] + [x]
  {
    var r := SetLast(s, x);
    assert r[..|r| - 1] == s[..|s| - 1];
    var front := Flatten(s[..|s| - 1]);
    assert Flatten(s) == front + Last(s);
    assert Flatten(s)[..|Flatten(s)| - 1] == front + Last(s)[..|Last(s)| - 1];
  }

  lemma FlattenPushLast<T>(s: seq<seq<T>>, x: T)
    requires |s| >= 1
    ensures Flatten(PushLast(s, x)) == Flatten(s) + [x]
  {
    var r := PushLast(s, x);
    assert r[..|r| - 1] == s[..|s| - 1];
    assert Flatten(r) == Flatten(s[..|s| - 1]) + (Last(s) + [x]);
  }

  lemma FlattenPush<T>(s: seq<seq<T>>, x: T)
    ensures Flatten(s + [[x]]) == Flatten(s) + [x]
  {
    assert (s + [[x]])[..|s|] == s;
  }

  lemma LastOfFlatten<T>(s: seq<seq<T>>)
    requires |s| >= 1 && |Last(s)| >= 1
    ensures |Flatten(s)| >= 1 && Last(Flatten(s)) == Last(Last(s))
  {
  }

  /** The loop state of `Chunks` between steps.  While files remain, the
      last span is the open one, read from line `fileLines` of file
      `fileIdx` to the end of that file; `current` counts the lines already
      closed in the last partition. */
  ghost predicate Progress(files: seq<FileIndex>, linesEach: int, res: seq<seq<Range>>,
                           parts: seq<seq<Span>>, fileIdx: int, fileLines: int, current: int)
  {
    && 0 <= fileIdx <= |files|
    && Rendered(files, parts, res)
    && Grouped(linesEach, parts)
    && Chained(files, Flatten(parts))
    && (fileIdx < |files| ==>
          && 0 <= fileLines < files[fileIdx].lineCount
          && Last(Flatten(parts)) == Span(fileIdx, fileLines, files[fileIdx].lineCount)
          && Lines(Last(parts)[..|Last(parts)| - 1]) == current
          && 0 <= current < linesEach
          && Sized(files, linesEach, Flatten(parts)[..|Flatten(parts)| - 1]))
    && (fileIdx == |files| ==>
          Tiles(files, Flatten(parts)) && Sized(files, linesEach, Flatten(parts)))
  }

  /** The state right after a step closed the open span at line `to` of
      file `fileIdx`. */
  ghost predicate Closed(files: seq<FileIndex>, linesEach: int, res: seq<seq<Range>>,
                         parts: seq<seq<Span>>, fileIdx: int, to: int, current: int)
  {
    && 0 <= fileIdx < |files|
    && 0 < to <= files[fileIdx].lineCount
    && Rendered(files, parts, res)
    && Grouped(linesEach, parts)
    && Chained(files, Flatten(parts))
    && Sized(files, linesEach, Flatten(parts))
    && Last(Flatten(parts)).file == fileIdx && Last(Flatten(parts)).hi == to
    && Lines(Last(parts)) == current && current >= 0
    && (to < files[fileIdx].lineCount ==> current >= linesEach)
  }

  /** The loop of `chunks`: starting with one range over the first file,
      take lines step by step until every file is assigned.  The result is
      the carved intervals written with offsets. */
  method Carve(files: seq<FileIndex>, totalLines: int, n: int)
    returns (res: seq<seq<Range>>, ghost parts: seq<seq<Span>>)
    requires AllWellIndexed(files) && n >= 1 && totalLines >= 1
    ensures Rendered(files, parts, res)
    ensures Carved(files, CeilDiv(totalLines, n), parts)
  {
    var fileIdx := 0;
    var fileLines := 0;
    var linesEach := CeilDiv(totalLines, n);
    var currentLines := 0;

    res := [[Range(files[fileIdx].path, 0, ToEof)]];
    parts := [[Span(0, 0, files[0].lineCount)]];
    Started(files, linesEach, res, parts);

    while fileIdx < |files| && fileLines < files[fileIdx].lineCount
      invariant Progress(files, linesEach, res, parts, fileIdx, fileLines, currentLines)
      decreases |files| - fileIdx, if fileIdx < |files| then files[fileIdx].lineCount - fileLines else 0
    {
      var eof, nextProcess;
      res, parts, fileLines, currentLines, eof, nextProcess :=
        TakeLines(files, linesEach, res, parts, fileIdx, fileLines, currentLines);
      res, parts, fileIdx, fileLines, currentLines :=
        MoveOn(files, linesEach, res, parts, fileIdx, fileLines, currentLines, eof, nextProcess);
    }
  }

  /** One step's first half: the open range takes `min(linesEach, lines left
      in the file)` lines and, unless that reaches the end of the file, its
      end is set to the offset of the next line. */
  method TakeLines(files: seq<FileIndex>, linesEach: int, res: seq<seq<Range>>, ghost parts: seq<seq<Span>>,
                   fileIdx: int, fileLines: int, currentLines: int)
    returns (res': seq<seq<Range>>, ghost parts': seq<seq<Span>>, fileLines': int, currentLines': int,
             eof: bool, nextProcess: bool)
    requires AllWellIndexed(files) && linesEach >= 1
    requires Progress(files, linesEach, res, parts, fileIdx, fileLines, currentLines)
    requires fileIdx < |files|
    ensures Closed(files, linesEach, res', parts', fileIdx, fileLines', currentLines')
    ensures fileLines < fileLines'
    ensures eof <==> fileLines' == files[fileIdx].lineCount
    ensures nextProcess <==> currentLines' >= linesEach
  {
    var toAdd := Min(linesEach, files[fileIdx].lineCount - fileLines);
    fileLines' := fileLines + toAdd;
    currentLines' := currentLines + toAdd;
    eof := fileLines' >= files[fileIdx].lineCount;
    res' := res;
    if !eof {
      res' := SetLast(res, Last(Last(res)).(end := files[fileIdx].offsets[fileLines']));
    }
    parts' := SetLast(parts, Span(fileIdx, fileLines, fileLines'));
    CloseStep(files, linesEach, res, parts, fileIdx, fileLines, fileLines', currentLines, res');
    nextProcess := currentLines' >= linesEach;
  }

  /** One step's second half: past the end of a file the next file is
      opened in the same partition while it has room; once the partition
      holds `linesEach` lines a new partition opens at the next unassigned
      line. */
  method MoveOn(files: seq<FileIndex>, linesEach: int, res: seq<seq<Range>>, ghost parts: seq<seq<Span>>,
                fileIdx: int, fileLines: int, currentLines: int, eof: bool, nextProcess: bool)
    returns (res': seq<seq<Range>>, ghost parts': seq<seq<Span>>, fileIdx': int, fileLines': int, currentLines': int)
    requires AllWellIndexed(files) && linesEach >= 1
    requires Closed(files, linesEach, res, parts, fileIdx, fileLines, currentLines)
    requires eof <==> fileLines == files[fileIdx].lineCount
    requires nextProcess <==> currentLines >= linesEach
    ensures Progress(files, linesEach, res', parts', fileIdx', fileLines', currentLines')
    ensures fileIdx' > fileIdx || (fileIdx' == fileIdx && fileLines' == fileLines)
  {
    res', parts', fileIdx', fileLines', currentLines' := res, parts, fileIdx, fileLines, currentLines;
    if eof {
      fileLines' := 0;
      fileIdx' := fileIdx' + 1;
      if !nextProcess && fileIdx' < |files| {
        NextFileStep(files, linesEach, res', parts', fileIdx', currentLines');
        res' := PushLast(res', Range(files[fileIdx'].path, 0, ToEof));
        parts' := PushLast(parts', Span(fileIdx', 0, files[fileIdx'].lineCount));
      } else if fileIdx' == |files| {
        FinishStep(files, linesEach, res', parts', fileIdx, currentLines');
      }
    }

    if nextProcess && fileIdx' < |files| {
      NextPartitionStep(files, linesEach, res', parts', fileIdx, fileLines, fileIdx', fileLines', currentLines');
      currentLines' := 0;
      res' := res' + [[Range(files[fileIdx'].path, files[fileIdx'].offsets[fileLines'], ToEof)]];
      parts' := parts' + [[Span(fileIdx', fileLines', files[fileIdx'].lineCount)]];
    }
  }

  lemma Started(files: seq<FileIndex>, linesEach: int, res: seq<seq<Range>>, parts: seq<seq<Span>>)
    requires AllWellIndexed(files) && linesEach >= 1
    requires res == [[Range(files[0].path, 0, ToEof)]]
    requires parts == [[Span(0, 0, files[0].lineCount)]]
    ensures Progress(files, linesEach, res, parts, 0, 0, 0)
  {
    var none: seq<seq<Span>> := [];
    FlattenPush(none, Span(0, 0, files[0].lineCount));
    assert none + [[Span(0, 0, files[0].lineCount)]] == parts;
    assert Last(parts)[..0] == [];
    assert Rendered(files, parts, res);
    assert Grouped(linesEach, parts);
    assert Chained(files, Flatten(parts));
    assert Last(Flatten(parts)) == Span(0, 0, files[0].lineCount);
    assert Lines(Last(parts)[..|Last(parts)| - 1]) == 0 < linesEach;
    assert Sized(files, linesEach, Flatten(parts)[..|Flatten(parts)| - 1]);
  }

  /** Closing the open span as `[from, to)`; its end offset is set unless
      it reached the end of the file. */
  lemma CloseStep(files: seq<FileIndex>, linesEach: int, res: seq<seq<Range>>, parts: seq<seq<Span>>,
                  fileIdx: int, from: int, to: int, current: int, res': seq<seq<Range>>)
    requires AllWellIndexed(files) && linesEach >= 1
    requires Progress(files, linesEach, res, parts, fileIdx, from, current)
    requires fileIdx < |files|
    requires to == from + Min(linesEach, files[fileIdx].lineCount - from)
    requires res' == if to < files[fileIdx].lineCount
                     then SetLast(res, Last(Last(res)).(end := files[fileIdx].offsets[to]))
                     else res
    ensures Closed(files, linesEach, res', SetLast(parts, Span(fileIdx, from, to)),
                   fileIdx, to, current + (to - from))
  {
    var y := Span(fileIdx, from, to);
    LastOfFlatten(parts);
    CloseRendered(files, parts, res, y, res');
    CloseFlat(files, linesEach, parts, y);
    GroupedSetLast(linesEach, parts, y);
  }

  lemma CloseRendered(files: seq<FileIndex>, parts: seq<seq<Span>>, res: seq<seq<Range>>, y: Span,
                      res': seq<seq<Range>>)
    requires Rendered(files, parts, res) && |parts| >= 1 && |Last(parts)| >= 1
    requires AllWellIndexed(files) && ValidSpan(files, y)
    requires Last(Last(parts)) == Span(y.file, y.lo, files[y.file].lineCount)
    requires res' == if y.hi < files[y.file].lineCount
                     then SetLast(res, Last(Last(res)).(end := files[y.file].offsets[y.hi]))
                     else res
    ensures Rendered(files, SetLast(parts, y), res')
  {
    RenderedSetLast(files, parts, res, y);
    var k := |parts| - 1;
    assert Last(Last(res)) == res[k][|parts[k]| - 1];
    if y.hi == files[y.file].lineCount {
      SetLastOfLast(res);
    }
  }

  lemma CloseFlat(files: seq<FileIndex>, linesEach: int, parts: seq<seq<Span>>, y: Span)
    requires |parts| >= 1 && |Last(parts)| >= 1
    requires Chained(files, Flatten(parts))
    requires Sized(files, linesEach, Flatten(parts)[..|Flatten(parts)| - 1])
    requires ValidSpan(files, y)
    requires y.file == Last(Flatten(parts)).file && y.lo == Last(Flatten(parts)).lo
    requires y.hi - y.lo == Min(linesEach, files[y.file].lineCount - y.lo)
    ensures Chained(files, Flatten(SetLast(parts, y)))
    ensures Sized(files, linesEach, Flatten(SetLast(parts, y)))
    ensures Last(Flatten(SetLast(parts, y))) == y
  {
    var F := Flatten(parts);
    FlattenSetLast(parts, y);
    ChainedReplaceLast(files, F, y);
    SizedAppend(files, linesEach, F[..|F| - 1], y);
  }

  /** The closed span ended its file and the partition has room left: the
      next file is opened in the same partition. */
  lemma NextFileStep(files: seq<FileIndex>, linesEach: int, res: seq<seq<Range>>, parts: seq<seq<Span>>,
                     next: int, current: int)
    requires AllWellIndexed(files) && 0 < next < |files|
    requires Closed(files, linesEach, res, parts, next - 1, files[next - 1].lineCount, current)
    requires current < linesEach
    ensures Progress(files, linesEach,
                     PushLast(res, Range(files[next].path, 0, ToEof)),
                     PushLast(parts, Span(next, 0, files[next].lineCount)),
                     next, 0, current)
  {
    var x := Span(next, 0, files[next].lineCount);
    RenderedPushLast(files, parts, res, x);
    FlattenPushLast(parts, x);
    ChainedAppend(files, Flatten(parts), x);
    GroupedPushLast(linesEach, parts, x);
    var F := Flatten(PushLast(parts, x));
    assert F[..|F| - 1] == Flatten(parts);
  }

  /** The closed span ended the last file: nothing is left to assign. */
  lemma FinishStep(files: seq<FileIndex>, linesEach: int, res: seq<seq<Range>>, parts: seq<seq<Span>>,
                   fileIdx: int, current: int)
    requires AllWellIndexed(files) && 0 <= fileIdx < |files|
    requires Closed(files, linesEach, res, parts, fileIdx, files[fileIdx].lineCount, current)
    requires fileIdx + 1 == |files|
    ensures Progress(files, linesEach, res, parts, fileIdx + 1, 0, current)
  {
  }

  /** The partition reached `linesEach` lines: a new partition opens at the
      next unassigned line, line `to` of file `fileIdx` or the first line of
      the next file. */
  lemma NextPartitionStep(files: seq<FileIndex>, linesEach: int, res: seq<seq<Range>>, parts: seq<seq<Span>>,
                          fileIdx: int, to: int, f: int, l: int, current: int)
    requires AllWellIndexed(files)
    requires Closed(files, linesEach, res, parts, fileIdx, to, current)
    requires current >= linesEach
    requires || (to < files[fileIdx].lineCount && f == fileIdx && l == to)
             || (to == files[fileIdx].lineCount && f == fileIdx + 1 < |files| && l == 0)
    ensures Progress(files, linesEach,
                     res + [[Range(files[f].path, files[f].offsets[l], ToEof)]],
                     parts + [[Span(f, l, files[f].lineCount)]],
                     f, l, 0)
  {
    var x := Span(f, l, files[f].lineCount);
    RenderedPush(files, parts, res, x);
    FlattenPush(parts, x);
    ChainedAppend(files, Flatten(parts), x);
    GroupedPush(linesEach, parts, x);
    var P := parts + [[x]];
    assert Last(P)[..0] == [];
    var F := Flatten(P);
    assert F[..|F| - 1] == Flatten(parts);
  }

  lemma SetLastOfLast<T>(s: seq<seq<T>>)
    requires |s| >= 1 && |Last(s)| >= 1
    ensures SetLast(s, Last(Last(s))) == s
  {
    var r := SetLast(s, Last(Last(s)));
    assert Last(r) == Last(s);
    assert r == r[..|s| - 1] + [Last(r)];
    assert s == s[..|s| - 1] + [Last(s)];
  }

  lemma RenderedSetLast(files: seq<FileIndex>, parts: seq<seq<Span>>, res: seq<seq<Range>>, y: Span)
    requires Rendered(files, parts, res) && |parts| >= 1 && |Last(parts)| >= 1
    requires ValidSpan(files, y)
    ensures |Last(res)| >= 1
    ensures Rendered(files, SetLast(parts, y), SetLast(res, Render(files, y)))
  {
    var k := |parts| - 1;
    assert |res[k]| == |parts[k]|;
    var P, R := SetLast(parts, y), SetLast(res, Render(files, y));
    forall p, q | 0 <= p < |P| && 0 <= q < |P[p]|
      ensures ValidSpan(files, P[p][q]) && R[p][q] == Render(files, P[p][q])
    {
      if p < k {
        assert P[p] == P[..k][p] == parts[..k][p];
        assert R[p] == R[..k][p] == res[..k][p];
      } else if q < |P[p]| - 1 {
        assert P[p][q] == parts[p][q] && R[p][q] == res[p][q];
      }
    }
  }

  lemma RenderedPushLast(files: seq<FileIndex>, parts: seq<seq<Span>>, res: seq<seq<Range>>, y: Span)
    requires Rendered(files, parts, res) && |parts| >= 1
    requires ValidSpan(files, y)
    ensures Rendered(files, PushLast(parts, y), PushLast(res, Render(files, y)))
  {
    var k := |parts| - 1;
    assert |res[k]| == |parts[k]|;
    var P, R := PushLast(parts, y), PushLast(res, Render(files, y));
    forall p, q | 0 <= p < |P| && 0 <= q < |P[p]|
      ensures ValidSpan(files, P[p][q]) && R[p][q] == Render(files, P[p][q])
    {
      if p < k {
        assert P[p] == P[..k][p] == parts[..k][p];
        assert R[p] == R[..k][p] == res[..k][p];
      } else if q < |P[p]| - 1 {
        assert P[p][q] == parts[p][q] && R[p][q] == res[p][q];
      }
    }
  }

  lemma RenderedPush(files: seq<FileIndex>, parts: seq<seq<Span>>, res: seq<seq<Range>>, y: Span)
    requires Rendered(files, parts, res)
    requires ValidSpan(files, y)
    ensures Rendered(files, parts + [[y]], res + [[Render(files, y)]])
  {
  }

  lemma ChainedReplaceLast(files: seq<FileIndex>, flat: seq<Span>, y: Span)
    requires Chained(files, flat) && ValidSpan(files, y)
    requires y.file == Last(flat).file && y.lo == Last(flat).lo
    ensures Chained(files, flat[..|flat| - 1] + [y])
  {
    var g := flat[..|flat| - 1] + [y];
    assert forall j :: 0 <= j < |flat| - 1 ==> g[j] == flat[j];
    if |flat| >= 2 {
      assert Follows(files, flat[|flat| - 2], flat[|flat| - 1]);
    }
  }

  lemma ChainedAppend(files: seq<FileIndex>, flat: seq<Span>, x: Span)
    requires Chained(files, flat) && ValidSpan(files, x)
    requires Follows(files, Last(flat), x)
    ensures Chained(files, flat + [x])
  {
    var g := flat + [x];
    assert forall j :: 0 <= j < |flat| ==> g[j] == flat[j];
  }

  lemma SizedAppend(files: seq<FileIndex>, linesEach: int, flat: seq<Span>, x: Span)
    requires Sized(files, linesEach, flat)
    requires x.file < |files| && x.hi - x.lo == Min(linesEach, files[x.file].lineCount - x.lo)
    ensures Sized(files, linesEach, flat + [x])
  {
    var g := flat + [x];
    assert forall j :: 0 <= j < |flat| ==> g[j] == flat[j];
  }

  /** Closing the open span leaves the grouping intact. */
  lemma GroupedSetLast(linesEach: int, parts: seq<seq<Span>>, y: Span)
    requires Grouped(linesEach, parts)
    ensures Grouped(linesEach, SetLast(parts, y))
    ensures var m := |Last(parts)| - 1;
            Last(SetLast(parts, y))[..m] == Last(parts)[..m] &&
            Lines(Last(SetLast(parts, y))) == Lines(Last(parts)[..m]) + y.hi - y.lo
  {
    var r := SetLast(parts, y);
    var k := |parts| - 1;
    var m := |parts[k]| - 1;
    assert Last(r)[..m] == Last(parts)[..m];
    assert forall p :: 0 <= p < k ==> r[p] == r[..k][p] == parts[..k][p] == parts[p];
    forall p, q | 0 <= p < |r| && 0 < q < |r[p]|
      ensures Lines(r[p][..q]) < linesEach
    {
      if p == k {
        assert r[p][..q] == parts[p][..q];
      }
    }
  }

  /** A file opened in the current partition, which is still short of
      `linesEach` lines. */
  lemma GroupedPushLast(linesEach: int, parts: seq<seq<Span>>, x: Span)
    requires Grouped(linesEach, parts) && Lines(Last(parts)) < linesEach
    ensures Grouped(linesEach, PushLast(parts, x))
    ensures Last(PushLast(parts, x))[..|Last(PushLast(parts, x))| - 1] == Last(parts)
  {
    var r := PushLast(parts, x);
    var k := |parts| - 1;
    assert Last(r)[..|Last(r)| - 1] == Last(parts);
    assert forall p :: 0 <= p < k ==> r[p] == r[..k][p] == parts[..k][p] == parts[p];
    forall p, q | 0 <= p < |r| && 0 < q < |r[p]|
      ensures Lines(r[p][..q]) < linesEach
    {
      if p == k {
        if q < |r[p]| - 1 {
          assert r[p][..q] == parts[p][..q];
        } else {
          assert r[p][..q] == parts[p];
        }
      }
    }
  }

  /** A new partition opened after the current one reached `linesEach`. */
  lemma GroupedPush(linesEach: int, parts: seq<seq<Span>>, x: Span)
    requires Grouped(linesEach, parts) && Lines(Last(parts)) >= linesEach
    ensures Grouped(linesEach, parts + [[x]])
  {
    var r := parts + [[x]];
    assert forall p :: 0 <= p < |parts| ==> r[p] == parts[p];
  }
}
