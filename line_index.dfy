/** The indexer and the range reader of metodos.py: `file_lines_pos`
    records where each line of a file starts, and `read_file` reads the
    lines of one range by seeking to its start and calling `readline` until
    the next line would start at or past the range's end.

    A file is its text, a string; a line is what `readline` returns, the
    characters up to and including the next newline, or up to the end of
    the text for an unterminated last line.  Offsets count characters. */
module LineIndex {
  import opened Partition

  /** What `readline` returns after `seek(o)`: the characters from `o` up
      to and including the next newline, or up to the end of the text;
      nothing at or past the end. */
  function ReadLine(text: string, o: int): (r: string)
    requires 0 <= o
    ensures o >= |text| ==> r == []
    ensures o < |text| ==> 1 <= |r| <= |text| - o
    decreases |text| - o
  {
    if o >= |text| then []
    else if text[o] == '\n' then [text[o]]
    else [text[o]] + ReadLine(text, o + 1)
  }

  /** The lines of a text, as `for line in f` yields them. */
  function SplitLines(text: string): seq<string>
    decreases |text|
  {
    if text == [] then [] else [ReadLine(text, 0)] + SplitLines(text[|ReadLine(text, 0)|..])
  }

  /** The lines joined back together. */
  function Concat(lines: seq<string>): string {
    if lines == [] then [] else lines[0] + Concat(lines[1..])
  }

  /** Where line `i` starts: the sum of the lengths of the lines before it. */
  function Offset(lines: seq<string>, i: int): (r: int)
    requires 0 <= i <= |lines|
    ensures r >= 0
  {
    if i == 0 then 0 else Offset(lines, i - 1) + |lines[i - 1]|
  }

  /** Where `read_file` stops: the first line from `i` on that starts at or
      past `end`, or the end of the file when there is none or `end` is
      `ToEof`. */
  function StopLine(lines: seq<string>, i: int, end: int): (j: int)
    requires 0 <= i <= |lines|
    ensures i <= j <= |lines|
    ensures j == |lines| || (end != ToEof && Offset(lines, j) >= end)
    decreases |lines| - i
  {
    if i == |lines| || (end != ToEof && Offset(lines, i) >= end) then i else StopLine(lines, i + 1, end)
  }

  /** Every line `read_file` reads before stopping starts before `end`. */
  lemma {:induction false} StopLineBefore(lines: seq<string>, i: int, end: int, k: int)
    requires 0 <= i <= k <= |lines| && k < StopLine(lines, i, end)
    ensures end == ToEof || Offset(lines, k) < end
    decreases k - i
  {
    if i < k {
      StopLineBefore(lines, i + 1, end, k);
    }
  }

  // ---------------------------------------------------------------------
  // The lines of a text

  /** A line read at `o` is the text from `o` on, ending with a newline or
      at the end of the text, and holding no other newline. */
  lemma {:induction false} ReadLineIsBreak(text: string, o: int)
    requires 0 <= o < |text|
    ensures ReadLine(text, o) == text[o..o + |ReadLine(text, o)|]
    ensures o + |ReadLine(text, o)| == |text| || ReadLine(text, o)[|ReadLine(text, o)| - 1] == '\n'
    ensures forall k :: 0 <= k < |ReadLine(text, o)| - 1 ==> ReadLine(text, o)[k] != '\n'
    decreases |text| - o
  {
    var r := ReadLine(text, o);
    if text[o] == '\n' || o + 1 == |text| {
      assert r == [text[o]];
    } else {
      ReadLineIsBreak(text, o + 1);
      var rest := ReadLine(text, o + 1);
      assert r == [text[o]] + rest;
      assert text[o..o + |r|] == [text[o]] + text[o + 1..o + 1 + |rest|];
      forall k | 0 <= k < |r| - 1
        ensures r[k] != '\n'
      {
        if k > 0 {
          assert r[k] == rest[k - 1];
        }
      }
      assert r[|r| - 1] == rest[|rest| - 1];
    }
  }

  /** Splitting and joining give the text back, and every line is what it
      should be: non-empty, with a newline only as its last character, and
      every line but the last ends with one. */
  lemma {:induction false} SplitJoin(text: string)
    ensures Concat(SplitLines(text)) == text
    ensures forall i :: 0 <= i < |SplitLines(text)| ==> SplitLines(text)[i] != []
    ensures forall i, k :: 0 <= i < |SplitLines(text)| && 0 <= k < |SplitLines(text)[i]| - 1 ==>
              SplitLines(text)[i][k] != '\n'
    ensures forall i :: 0 <= i < |SplitLines(text)| - 1 ==>
              SplitLines(text)[i][|SplitLines(text)[i]| - 1] == '\n'
    decreases |text|
  {
    if text != [] {
      var line := ReadLine(text, 0);
      var rest := text[|line|..];
      SplitJoin(rest);
      ReadLineIsBreak(text, 0);
      var lines := SplitLines(text);
      assert lines[1..] == SplitLines(rest);
      assert text == line + rest;
      forall i | 0 <= i < |lines|
        ensures lines[i] != []
        ensures forall k :: 0 <= k < |lines[i]| - 1 ==> lines[i][k] != '\n'
        ensures i < |lines| - 1 ==> lines[i][|lines[i]| - 1] == '\n'
      {
        if i > 0 {
          assert lines[i] == SplitLines(rest)[i - 1];
        } else if |lines| > 1 {
          assert rest != [];
        }
      }
    }
  }

  /** Reading a line at a later position of the text is reading it in the
      rest of the text. */
  lemma {:induction false} ReadLineShift(text: string, e: int, o: int, p: int)
    requires 0 <= e <= |text| && 0 <= o && p == e + o
    ensures ReadLine(text, p) == ReadLine(text[e..], o)
    decreases |text| - p
  {
    if p < |text| && text[p] != '\n' {
      ReadLineShift(text, e, o + 1, p + 1);
    }
  }

  /** The offsets of the lines after the first one, counted in the rest of
      the text. */
  lemma {:induction false} OffsetCons(x: string, rest: seq<string>, i: int)
    requires 1 <= i <= |rest| + 1
    ensures Offset([x] + rest, i) == |x| + Offset(rest, i - 1)
  {
    if i > 1 {
      OffsetCons(x, rest, i - 1);
      assert ([x] + rest)[i - 1] == rest[i - 2];
    }
  }

  /** Line starts lie inside the text, and the position past the last line
      is the end of the text. */
  lemma {:induction false} LineStartBounds(text: string, i: int)
    requires 0 <= i <= |SplitLines(text)|
    ensures i < |SplitLines(text)| ==> Offset(SplitLines(text), i) < |text|
    ensures i == |SplitLines(text)| ==> Offset(SplitLines(text), i) == |text|
    decreases |text|
  {
    if text != [] && i > 0 {
      var line := ReadLine(text, 0);
      var rest := text[|line|..];
      assert SplitLines(text) == [line] + SplitLines(rest);
      LineStartBounds(rest, i - 1);
      OffsetCons(line, SplitLines(rest), i);
    }
  }

  /** Seeking to where line `i` starts and calling `readline` gives line
      `i`. */
  lemma {:induction false} ReadLineAtOffset(text: string, i: int)
    requires 0 <= i < |SplitLines(text)|
    ensures ReadLine(text, Offset(SplitLines(text), i)) == SplitLines(text)[i]
    decreases |text|
  {
    if i > 0 {
      var line := ReadLine(text, 0);
      var rest := text[|line|..];
      var more := SplitLines(rest);
      var lines := SplitLines(text);
      ReadLineAtOffset(rest, i - 1);
      assert lines == [line] + more;
      assert lines[i] == more[i - 1];
      OffsetCons(line, more, i);
      ReadLineShift(text, |line|, Offset(more, i - 1), Offset(lines, i));
    }
  }

  /** The lines of a text as the indexer and the reader see them: none is
      empty, each starts where the lines before it end, reading a line there
      gives it back, and the lines end where the text ends. */
  ghost predicate LinesOf(text: string, lines: seq<string>) {
    && (forall i :: 0 <= i < |lines| ==> lines[i] != [])
    && (forall i {:trigger ReadLine(text, Offset(lines, i))} :: 0 <= i < |lines| ==>
          Offset(lines, i) < |text| && ReadLine(text, Offset(lines, i)) == lines[i])
    && Offset(lines, |lines|) == |text|
  }

  /** What `for line in f` yields are the lines of the file. */
  lemma SplitLinesOf(text: string)
    ensures LinesOf(text, SplitLines(text))
  {
    var lines := SplitLines(text);
    SplitJoin(text);
    forall i | 0 <= i < |lines|
      ensures Offset(lines, i) < |text| && ReadLine(text, Offset(lines, i)) == lines[i]
    {
      LineStartBounds(text, i);
      ReadLineAtOffset(text, i);
    }
    LineStartBounds(text, |lines|);
  }

  /** Lines are never empty, so line starts strictly increase. */
  lemma {:induction false} OffsetIncreasing(lines: seq<string>, i: int, j: int)
    requires 0 <= i < j <= |lines|
    requires forall k :: 0 <= k < |lines| ==> lines[k] != []
    ensures Offset(lines, i) < Offset(lines, j)
    decreases j
  {
    if i < j - 1 {
      OffsetIncreasing(lines, i, j - 1);
    }
  }

  // ---------------------------------------------------------------------
  // file_lines_pos

  /** `file_lines_pos`: one pass over the lines, recording the running
      offset before adding each line's length.  Each recorded offset is a
      line start: seeking there and reading a line gives that line back. */
  method IndexLines(text: string) returns (count: int, offsets: seq<int>)
    ensures count == |offsets| == |SplitLines(text)|
    ensures count >= 1 ==> offsets[0] == 0
    ensures forall i :: 0 <= i < count - 1 ==> offsets[i + 1] == offsets[i] + |SplitLines(text)[i]|
    ensures forall i, j :: 0 <= i < j < count ==> offsets[i] < offsets[j]
    ensures forall i :: 0 <= i < count ==> 0 <= offsets[i] && ReadLine(text, offsets[i]) == SplitLines(text)[i]
    ensures count >= 1 ==> offsets[count - 1] + |SplitLines(text)[count - 1]| == |text|
    ensures forall k {:trigger offsets[k]} :: 0 <= k < count ==> offsets[k] == Offset(SplitLines(text), k)
  {
    var lines := SplitLines(text);
    offsets := RunningOffsets(lines);
    count := |offsets|;
    SplitLinesOf(text);
    LineStarts(text, lines, offsets);
  }

  /** The loop of `IndexLines`: the offset of each line is the sum of the
      lengths of the lines before it. */
  method RunningOffsets(lines: seq<string>) returns (offsets: seq<int>)
    ensures |offsets| == |lines|
    ensures forall k {:trigger offsets[k]} :: 0 <= k < |lines| ==> offsets[k] == Offset(lines, k)
  {
    offsets := [];
    var offset := 0;
    for i := 0 to |lines|
      invariant |offsets| == i
      invariant offset == Offset(lines, i)
      invariant forall k {:trigger offsets[k]} :: 0 <= k < i ==> offsets[k] == Offset(lines, k)
    {
      offsets := offsets + [offset];
      offset := offset + |lines[i]|;
    }
  }

  /** The running offsets of `IndexLines` are line starts: they start at 0,
      grow by each line's length, increase strictly, end at the end of the
      text, and `readline` at each gives that line. */
  lemma LineStarts(text: string, lines: seq<string>, offsets: seq<int>)
    requires LinesOf(text, lines)
    requires |offsets| == |lines|
    requires forall k {:trigger offsets[k]} :: 0 <= k < |offsets| ==> offsets[k] == Offset(lines, k)
    ensures |offsets| >= 1 ==> offsets[0] == 0
    ensures forall i :: 0 <= i < |offsets| - 1 ==> offsets[i + 1] == offsets[i] + |lines[i]|
    ensures forall i, j :: 0 <= i < j < |offsets| ==> offsets[i] < offsets[j]
    ensures forall i :: 0 <= i < |offsets| ==> 0 <= offsets[i] && ReadLine(text, offsets[i]) == lines[i]
    ensures |offsets| >= 1 ==> offsets[|offsets| - 1] + |lines[|offsets| - 1]| == |text|
  {
    OffsetsGrow(lines, offsets);
    OffsetsIncrease(text, lines, offsets);
    OffsetsRead(text, lines, offsets);
    if |offsets| >= 1 {
      var last := |offsets| - 1;
      assert offsets[last] == Offset(lines, last);
      assert Offset(lines, last + 1) == Offset(lines, last) + |lines[last]|;
    }
  }

  lemma OffsetsGrow(lines: seq<string>, offsets: seq<int>)
    requires |offsets| == |lines|
    requires forall k {:trigger offsets[k]} :: 0 <= k < |offsets| ==> offsets[k] == Offset(lines, k)
    ensures forall i :: 0 <= i < |offsets| - 1 ==> offsets[i + 1] == offsets[i] + |lines[i]|
  {
    forall i | 0 <= i < |offsets| - 1
      ensures offsets[i + 1] == offsets[i] + |lines[i]|
    {
      assert offsets[i + 1] == Offset(lines, i + 1);
    }
  }

  lemma OffsetsIncrease(text: string, lines: seq<string>, offsets: seq<int>)
    requires LinesOf(text, lines)
    requires |offsets| == |lines|
    requires forall k {:trigger offsets[k]} :: 0 <= k < |offsets| ==> offsets[k] == Offset(lines, k)
    ensures forall i, j :: 0 <= i < j < |offsets| ==> offsets[i] < offsets[j]
  {
    forall i, j | 0 <= i < j < |offsets|
      ensures offsets[i] < offsets[j]
    {
      OffsetIncreasing(lines, i, j);
    }
  }

  lemma OffsetsRead(text: string, lines: seq<string>, offsets: seq<int>)
    requires LinesOf(text, lines)
    requires |offsets| == |lines|
    requires forall k {:trigger offsets[k]} :: 0 <= k < |offsets| ==> offsets[k] == Offset(lines, k)
    ensures forall i :: 0 <= i < |offsets| ==> 0 <= offsets[i] && ReadLine(text, offsets[i]) == lines[i]
  {
    forall i | 0 <= i < |offsets|
      ensures 0 <= offsets[i] && ReadLine(text, offsets[i]) == lines[i]
    {
      assert ReadLine(text, Offset(lines, i)) == lines[i];
    }
  }

  // ---------------------------------------------------------------------
  // read_file

  /** `read_file`: from `start`, read lines until the next one would start
      at or past `end` (unless `end` is `ToEof`) or the text runs out.
      Started at a line start, it reads exactly the lines from there up to
      `StopLine`. */
  method ReadRange(text: string, start: int, end: int) returns (out: seq<string>)
    requires 0 <= start
    ensures start >= |text| ==> out == []
    ensures forall i :: 0 <= i <= |SplitLines(text)| && start == Offset(SplitLines(text), i) ==>
              out == SplitLines(text)[i..StopLine(SplitLines(text), i, end)]
  {
    ghost var lines := SplitLines(text);
    SplitLinesOf(text);
    ghost var first := LineAt(lines, start, 0);
    ghost var k := first;
    out := [];
    var offset := start;
    while true
      invariant start <= offset
      invariant start >= |text| ==> out == [] && offset == start
      invariant ReadSoFar(lines, first, end, k, offset, out)
      decreases if offset < |text| then |text| - offset else 0
    {
      if end != ToEof && offset >= end {
        StopAtEnd(lines, first, end, k, offset, out);
        break;
      }
      var line := ReadLine(text, offset);
      if line != [] {
        ReadNext(text, lines, first, end, k, offset, out);
        offset := offset + |line|;
        out := out + [line];
        k := k + 1;
      } else {
        StopAtEof(text, lines, first, end, k, offset, out);
        break;
      }
    }
    ReadAll(lines, start, first, end, k, offset, out);
  }

  /** The loop invariant of `ReadRange` when it starts at line `first`: it
      has read the lines from `first` up to line `k`, which starts at
      `offset`, and has not passed `StopLine`. */
  ghost predicate ReadSoFar(lines: seq<string>, first: int, end: int, k: int, offset: int, out: seq<string>) {
    0 <= first ==>
      && first <= k <= |lines|
      && k <= StopLine(lines, first, end)
      && offset == Offset(lines, k)
      && out == lines[first..k]
  }

  /** Stopping because the next line starts at or past `end` is stopping at
      `StopLine`. */
  lemma StopAtEnd(lines: seq<string>, first: int, end: int, k: int, offset: int, out: seq<string>)
    requires ReadSoFar(lines, first, end, k, offset, out)
    requires end != ToEof && offset >= end
    ensures 0 <= first ==> k == StopLine(lines, first, end)
  {
    if 0 <= first && k < StopLine(lines, first, end) {
      StopLineBefore(lines, first, end, k);
      assert false;
    }
  }

  /** Stopping because `readline` gave nothing is stopping at the end of
      the lines, which is `StopLine`. */
  lemma StopAtEof(text: string, lines: seq<string>, first: int, end: int, k: int, offset: int,
                  out: seq<string>)
    requires LinesOf(text, lines)
    requires ReadSoFar(lines, first, end, k, offset, out)
    requires 0 <= offset && ReadLine(text, offset) == []
    ensures 0 <= first ==> k == StopLine(lines, first, end)
  {
    if 0 <= first && k < |lines| {
      assert false;
    }
  }

  /** Reading one more line before the stop reads line `k`. */
  lemma ReadNext(text: string, lines: seq<string>, first: int, end: int, k: int, offset: int,
                 out: seq<string>)
    requires LinesOf(text, lines)
    requires ReadSoFar(lines, first, end, k, offset, out)
    requires !(end != ToEof && offset >= end) && 0 <= offset
    requires ReadLine(text, offset) != []
    ensures ReadSoFar(lines, first, end, k + 1, offset + |ReadLine(text, offset)|,
                      out + [ReadLine(text, offset)])
  {
    if 0 <= first {
      if k == |lines| {
        assert false;
      }
      assert ReadLine(text, Offset(lines, k)) == lines[k];
      assert lines[first..k + 1] == lines[first..k] + [lines[k]];
    }
  }

  /** When `ReadRange` started at a line start, that line is `first`, and
      what it read runs from there to `StopLine`. */
  lemma ReadAll(lines: seq<string>, start: int, first: int, end: int, k: int, offset: int,
                out: seq<string>)
    requires forall j :: 0 <= j < |lines| ==> lines[j] != []
    requires first == LineAt(lines, start, 0)
    requires ReadSoFar(lines, first, end, k, offset, out)
    requires 0 <= first ==> k == StopLine(lines, first, end)
    ensures forall i :: 0 <= i <= |lines| && start == Offset(lines, i) ==>
              out == lines[i..StopLine(lines, i, end)]
  {
    forall i | 0 <= i <= |lines| && start == Offset(lines, i)
      ensures out == lines[i..StopLine(lines, i, end)]
    {
      LineAtFinds(lines, start, 0, i);
    }
  }

  /** The number of the line starting at `o`, searching from line `from`
      on, or -1 when no line starts there. */
  function LineAt(lines: seq<string>, o: int, from: nat): (i: int)
    requires from <= |lines|
    ensures i == -1 || (from <= i <= |lines| && Offset(lines, i) == o)
    decreases |lines| - from
  {
    if Offset(lines, from) == o then from
    else if from == |lines| then -1
    else LineAt(lines, o, from + 1)
  }

  /** Line starts are distinct, so `LineAt` finds the one line starting at
      `o` whenever there is one. */
  lemma {:induction false} LineAtFinds(lines: seq<string>, o: int, from: nat, i: int)
    requires forall k :: 0 <= k < |lines| ==> lines[k] != []
    requires from <= i <= |lines| && Offset(lines, i) == o
    ensures LineAt(lines, o, from) == i
    decreases i - from
  {
    if Offset(lines, from) == o {
      if from < i {
        OffsetIncreasing(lines, from, i);
      }
    } else {
      LineAtFinds(lines, o, from + 1, i);
    }
  }

  // ---------------------------------------------------------------------
  // The ranges of the partitioner

  /** A range written for the line interval `[lo, hi)` of an indexed file,
      starting at line `lo` and ending at the start of line `hi` or at
      `ToEof` when `hi` is the last line, makes `read_file` stop exactly at
      line `hi`: the worker reads the lines of the interval and no others. */
  lemma {:induction false} RangeReadsSpan(lines: seq<string>, lo: int, hi: int)
    requires forall k :: 0 <= k < |lines| ==> lines[k] != []
    requires 0 <= lo < hi <= |lines|
    ensures StopLine(lines, lo, if hi == |lines| then ToEof else Offset(lines, hi)) == hi
  {
    var end := if hi == |lines| then ToEof else Offset(lines, hi);
    var j := StopLine(lines, lo, end);
    if j < hi {
      OffsetIncreasing(lines, j, hi);
      assert false;
    } else if j > hi {
      StopLineBefore(lines, lo, end, hi);
      assert false;
    }
  }

  /** The index of a file is the one `IndexLines` makes from its text. */
  ghost predicate IndexOf(text: string, f: FileIndex) {
    && f.lineCount == |SplitLines(text)|
    && |f.offsets| == f.lineCount
    && forall k {:trigger f.offsets[k]} :: 0 <= k < f.lineCount ==> f.offsets[k] == Offset(SplitLines(text), k)
  }

  /** The range the partitioner gives a worker for a span of an indexed
      file starts at the span's first line, and `read_file` over it stops at
      the span's end: the worker reads the lines of the span, and no
      others. */
  lemma SpanReads(files: seq<FileIndex>, s: Span, text: string)
    requires ValidSpan(files, s) && IndexOf(text, files[s.file])
    ensures 0 <= Render(files, s).start
    ensures Render(files, s).start == Offset(SplitLines(text), s.lo)
    ensures StopLine(SplitLines(text), s.lo, Render(files, s).end) == s.hi
  {
    SplitLinesOf(text);
    RangeReadsSpan(SplitLines(text), s.lo, s.hi);
  }
}
