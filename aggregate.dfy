/** `commit_results` and the `process_files` loop: reduce a file's
    occurrence map to one number per word (or one number in all) and add
    those numbers into the three-slot global `total`.

    The occurrence map is a sequence of maps, one per searched word in the
    order the words were given, each from a line index to the word's count
    in that line. */
module Aggregate {
  import opened Search

  // ---------------------------------------------------------------------
  // Sums and unions over maps

  /** `sum(m[k] for k in m)`. */
  ghost function SumOf(m: map<int, int>): int
    decreases |m|
  {
    if exists k :: k in m then
      var k :| k in m;
      assert m.Keys - {k} == (m - {k}).Keys;
      m[k] + SumOf(m - {k})
    else 0
  }

  /** The sum does not depend on which key is taken first. */
  lemma {:induction false} SumOfRemove(m: map<int, int>, k: int)
    requires k in m
    ensures SumOf(m) == m[k] + SumOf(m - {k})
    decreases |m|
  {
    var j :| j in m && SumOf(m) == m[j] + SumOf(m - {j});
    if j != k {
      assert m.Keys - {j} == (m - {j}).Keys;
      assert m.Keys - {k} == (m - {k}).Keys;
      SumOfRemove(m - {j}, k);
      SumOfRemove(m - {k}, j);
      assert m - {j} - {k} == m - {k} - {j};
    }
  }

  /** A sum of non-negative values is non-negative. */
  lemma {:induction false} SumOfNonNegative(m: map<int, int>)
    requires forall k :: k in m ==> m[k] >= 0
    ensures SumOf(m) >= 0
    decreases |m|
  {
    if exists k :: k in m {
      var k :| k in m && SumOf(m) == m[k] + SumOf(m - {k});
      assert m.Keys - {k} == (m - {k}).Keys;
      SumOfNonNegative(m - {k});
    }
  }

  /** The sum of a map's values, one key at a time. */
  method SumValues(m: map<int, int>) returns (s: int)
    ensures s == SumOf(m)
  {
    s := 0;
    var rest := m;
    while exists k :: k in rest
      invariant s + SumOf(rest) == SumOf(m)
      decreases |rest|
    {
      var k :| k in rest;
      SumOfRemove(rest, k);
      assert rest.Keys - {k} == (rest - {k}).Keys;
      s := s + rest[k];
      rest := rest - {k};
    }
  }

  /** The line indices that occur under any of the first `n` words. */
  ghost function UnionKeys(occ: seq<map<int, int>>, n: nat): set<int>
    requires n <= |occ|
  {
    set w, key | 0 <= w < n && key in occ[w] :: key
  }

  /** `len(set(key for word in occ for key in occ[word]))`, one word at a
      time. */
  method CountDistinctLines(occ: seq<map<int, int>>) returns (count: int)
    ensures count == |UnionKeys(occ, |occ|)|
  {
    var keys: set<int> := {};
    for w := 0 to |occ|
      invariant keys == UnionKeys(occ, w)
    {
      keys := keys + occ[w].Keys;
      assert keys == UnionKeys(occ, w + 1) by {
        forall key | key in UnionKeys(occ, w + 1)
          ensures key in keys
        {
          var v :| 0 <= v < w + 1 && key in occ[v];
          if v < w {
            assert key in UnionKeys(occ, w);
          }
        }
        forall key | key in keys
          ensures key in UnionKeys(occ, w + 1)
        {
          if key in occ[w] {
          } else {
            var v :| 0 <= v < w && key in occ[v];
          }
        }
      }
    }
    count := |keys|;
  }

  // ---------------------------------------------------------------------
  // What commit_results computes

  /** The values `commit_results` returns: with `-c` each word's total
      count; with `-l` and `-a` the number of distinct lines recorded under
      any word; with `-l` alone each word's number of lines. */
  ghost function Committed(occ: seq<map<int, int>>, allWords: bool, count: bool): (ret: seq<int>)
    ensures |ret| == if !count && allWords then 1 else |occ|
  {
    if count then seq(|occ|, w requires 0 <= w < |occ| => SumOf(occ[w]))
    else if allWords then [|UnionKeys(occ, |occ|)|]
    else seq(|occ|, w requires 0 <= w < |occ| => |occ[w]|)
  }

  /** What `commit_results` adds to slot `i` of `total`: the `i`-th
      returned value, or nothing when fewer values are returned. */
  function Added(ret: seq<int>, i: nat): int {
    if i < |ret| then ret[i] else 0
  }

  /** The global `total`: three counters, one per searched word, shared by
      every worker. */
  class Totals {
    var total: array<int>

    ghost predicate Valid()
      reads this
    {
      total.Length == 3
    }

    /** `Array("i", 3)`: three counters at zero. */
    constructor ()
      ensures Valid() && fresh(total)
      ensures total[..] == [0, 0, 0]
    {
      total := new int[3](_ => 0);
    }

    /** `commit_results`: compute the values for one file and add them into
        `total`.  Slot `i` grows by exactly the `i`-th value, and a slot with
        no value is left alone. */
    method Commit(occ: seq<map<int, int>>, allWords: bool, count: bool) returns (ret: seq<int>)
      requires Valid() && |occ| <= 3
      modifies total
      ensures Valid()
      ensures ret == Committed(occ, allWords, count)
      ensures forall i :: 0 <= i < 3 ==> total[i] == old(total[i]) + Added(ret, i)
    {
      ret := [];
      if count {
        for w := 0 to |occ|
          invariant ret == Committed(occ, allWords, count)[..w]
          invariant forall i :: 0 <= i < 3 ==> total[i] == old(total[i]) + Added(ret, i)
        {
          var val := SumValues(occ[w]);
          ret := ret + [val];
          total[w] := total[w] + val;
        }
      } else if allWords {
        var val := CountDistinctLines(occ);
        ret := ret + [val];
        total[0] := total[0] + val;
      } else {
        for w := 0 to |occ|
          invariant ret == Committed(occ, allWords, count)[..w]
          invariant forall i :: 0 <= i < 3 ==> total[i] == old(total[i]) + Added(ret, i)
        {
          var val := |occ[w]|;
          ret := ret + [val];
          total[w] := total[w] + val;
        }
      }
    }

    /** The `process_files` loop: search each file of a worker's list and
        commit its results.  Each file is given by the word counts of its
        lines; slot `i` grows by the sum over the files of their `i`-th
        values. */
    method ProcessFiles(files: seq<seq<seq<int>>>, words: nat, allWords: bool, count: bool)
        returns (vals: seq<seq<int>>)
      requires Valid() && words <= 3
      requires forall f :: 0 <= f < |files| ==> WellShaped(files[f], words)
      modifies total
      ensures Valid()
      ensures |vals| == |files|
      ensures forall f :: 0 <= f < |files| ==> vals[f] == Committed(Occurrences(files[f], words, allWords), allWords, count)
      ensures forall i :: 0 <= i < 3 ==> total[i] == old(total[i]) + AddedAll(vals, i)
    {
      vals := [];
      for f := 0 to |files|
        invariant |vals| == f
        invariant forall g :: 0 <= g < f ==> vals[g] == Committed(Occurrences(files[g], words, allWords), allWords, count)
        invariant forall i :: 0 <= i < 3 ==> total[i] == old(total[i]) + AddedAll(vals, i)
      {
        var occ := SearchLines(files[f], words, allWords);
        assert occ == Occurrences(files[f], words, allWords);
        var ret := Commit(occ, allWords, count);
        AddedAllSnoc(vals, ret);
        vals := vals + [ret];
      }
    }
  }

  /** The occurrence map `search_file` builds for one file. */
  ghost function Occurrences(counts: seq<seq<int>>, words: nat, allWords: bool): (occ: seq<map<int, int>>)
    requires WellShaped(counts, words)
    ensures |occ| == words
  {
    seq(words, j requires 0 <= j < words => Recorded(counts, words, allWords, j, |counts|))
  }

  /** What a run of commits adds to slot `i`. */
  function AddedAll(vals: seq<seq<int>>, i: nat): int {
    if vals == [] then 0 else AddedAll(vals[..|vals| - 1], i) + Added(vals[|vals| - 1], i)
  }

  lemma AddedAllSnoc(vals: seq<seq<int>>, ret: seq<int>)
    ensures forall i :: AddedAll(vals + [ret], i) == AddedAll(vals, i) + Added(ret, i)
  {
    assert (vals + [ret])[..|vals|] == vals;
  }

  // ---------------------------------------------------------------------
  // What the committed values mean for the lines of a file

  /** The sum of word `j`'s counts over the first `n` lines, taking only
      the lines that count. */
  function Column(counts: seq<seq<int>>, words: nat, allWords: bool, j: nat, n: nat): int
    requires WellShaped(counts, words) && j < words && n <= |counts|
  {
    if n == 0 then 0
    else Column(counts, words, allWords, j, n - 1)
         + (if Classify(counts[n - 1], allWords) then counts[n - 1][j] else 0)
  }

  /** The number of lines among the first `n` that count and hold word
      `j`. */
  function LinesWith(counts: seq<seq<int>>, words: nat, allWords: bool, j: nat, n: nat): nat
    requires WellShaped(counts, words) && j < words && n <= |counts|
  {
    if n == 0 then 0
    else LinesWith(counts, words, allWords, j, n - 1)
         + (if Classify(counts[n - 1], allWords) && counts[n - 1][j] != 0 then 1 else 0)
  }

  /** The number of lines among the first `n` that count. */
  function ValidLines(counts: seq<seq<int>>, allWords: bool, n: nat): nat
    requires n <= |counts|
  {
    if n == 0 then 0
    else ValidLines(counts, allWords, n - 1) + (if Classify(counts[n - 1], allWords) then 1 else 0)
  }

  /** With `-c`, the value committed for word `j` is the sum of its counts
      over the lines that count. */
  lemma {:induction false} CountIsColumnSum(counts: seq<seq<int>>, words: nat, allWords: bool, j: nat, n: nat)
    requires WellShaped(counts, words) && j < words && n <= |counts|
    ensures SumOf(Recorded(counts, words, allWords, j, n)) == Column(counts, words, allWords, j, n)
  {
    if n > 0 {
      CountIsColumnSum(counts, words, allWords, j, n - 1);
      var small := Recorded(counts, words, allWords, j, n - 1);
      var big := Recorded(counts, words, allWords, j, n);
      if Classify(counts[n - 1], allWords) && counts[n - 1][j] != 0 {
        RecordedLines(counts, words, allWords, j, n - 1);
        SumOfRemove(big, n - 1);
        assert big - {n - 1} == small;
      }
    }
  }

  /** With `-l` alone, the value committed for word `j` is the number of
      lines that count and hold it. */
  lemma {:induction false} LinesIsLineCount(counts: seq<seq<int>>, words: nat, allWords: bool, j: nat, n: nat)
    requires WellShaped(counts, words) && j < words && n <= |counts|
    ensures |Recorded(counts, words, allWords, j, n)| == LinesWith(counts, words, allWords, j, n)
  {
    if n > 0 {
      LinesIsLineCount(counts, words, allWords, j, n - 1);
      RecordedLines(counts, words, allWords, j, n - 1);
    }
  }

  /** A line where some word counts has a nonzero entry. */
  lemma {:induction false} SomeNonzero(c: seq<int>) returns (j: nat)
    requires Nonzero(c) >= 1
    ensures j < |c| && c[j] != 0
  {
    if c[0] != 0 {
      j := 0;
    } else {
      j := SomeNonzero(c[1..]);
      j := j + 1;
    }
  }

  /** The lines among the first `n` that count. */
  ghost function ValidSet(counts: seq<seq<int>>, allWords: bool, n: nat): set<int>
    requires n <= |counts|
  {
    if n == 0 then {}
    else ValidSet(counts, allWords, n - 1) + (if Classify(counts[n - 1], allWords) then {n - 1} else {})
  }

  /** The set holds exactly the lines among the first `n` that count. */
  lemma {:induction false} ValidSetMembers(counts: seq<seq<int>>, allWords: bool, n: nat)
    requires n <= |counts|
    ensures forall i :: i in ValidSet(counts, allWords, n) <==> 0 <= i < n && Classify(counts[i], allWords)
  {
    if n > 0 {
      ValidSetMembers(counts, allWords, n - 1);
    }
  }

  /** With `-l -a` and at least one word, the lines recorded under some
      word are exactly the lines that count. */
  lemma UnionIsValidLines(counts: seq<seq<int>>, words: nat)
    requires WellShaped(counts, words) && 1 <= words
    ensures UnionKeys(Occurrences(counts, words, true), words) == ValidSet(counts, true, |counts|)
  {
    var occ := Occurrences(counts, words, true);
    forall j | 0 <= j < words {
      RecordedLines(counts, words, true, j, |counts|);
    }
    ValidSetMembers(counts, true, |counts|);
    forall i | i in ValidSet(counts, true, |counts|)
      ensures i in UnionKeys(occ, words)
    {
      ClassifyMeaning(counts[i], true);
      var j := SomeNonzero(counts[i]);
      assert i in occ[j];
    }
  }

  /** The set holds only lines among the first `n`. */
  lemma {:induction false} ValidSetBelow(counts: seq<seq<int>>, allWords: bool, n: nat)
    requires n <= |counts|
    ensures forall i :: i in ValidSet(counts, allWords, n) ==> 0 <= i < n
  {
    if n > 0 {
      ValidSetBelow(counts, allWords, n - 1);
    }
  }

  /** The number of lines that count, as a set size. */
  lemma {:induction false} ValidLinesSize(counts: seq<seq<int>>, allWords: bool, n: nat)
    requires n <= |counts|
    ensures |ValidSet(counts, allWords, n)| == ValidLines(counts, allWords, n)
  {
    if n > 0 {
      ValidLinesSize(counts, allWords, n - 1);
      ValidSetBelow(counts, allWords, n - 1);
    }
  }

  /** What each mode of `commit_results` reports for a file: with `-c` the
      counts of each word over the lines that count; with `-l` alone the
      number of lines that count and hold each word; with `-l -a` the
      number of lines that count. */
  lemma CommittedMeaning(counts: seq<seq<int>>, words: nat, allWords: bool)
    requires WellShaped(counts, words)
    ensures forall j :: 0 <= j < words ==>
              Committed(Occurrences(counts, words, allWords), allWords, true)[j] ==
              Column(counts, words, allWords, j, |counts|)
    ensures !allWords ==> forall j :: 0 <= j < words ==>
              Committed(Occurrences(counts, words, allWords), allWords, false)[j] ==
              LinesWith(counts, words, allWords, j, |counts|)
    ensures allWords && words >= 1 ==>
              Committed(Occurrences(counts, words, allWords), allWords, false) ==
              [ValidLines(counts, true, |counts|)]
  {
    forall j | 0 <= j < words
      ensures SumOf(Recorded(counts, words, allWords, j, |counts|)) == Column(counts, words, allWords, j, |counts|)
      ensures |Recorded(counts, words, allWords, j, |counts|)| == LinesWith(counts, words, allWords, j, |counts|)
    {
      CountIsColumnSum(counts, words, allWords, j, |counts|);
      LinesIsLineCount(counts, words, allWords, j, |counts|);
    }
    if allWords && words >= 1 {
      UnionIsValidLines(counts, words);
      ValidLinesSize(counts, true, |counts|);
    }
  }

  /** When every count is non-negative, no slot of `total` decreases. */
  lemma CommittedNonNegative(occ: seq<map<int, int>>, allWords: bool, count: bool)
    requires forall w, k :: 0 <= w < |occ| && k in occ[w] ==> occ[w][k] >= 0
    ensures forall i :: 0 <= i < 3 ==> Added(Committed(occ, allWords, count), i) >= 0
  {
    forall w | 0 <= w < |occ|
      ensures SumOf(occ[w]) >= 0
    {
      SumOfNonNegative(occ[w]);
    }
  }
}
