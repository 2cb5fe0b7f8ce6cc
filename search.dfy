/** The per-line loop of `search_file`: given how often each searched word
    occurs in each line of a range, decide which lines count and record the
    nonzero counts of those lines.

    The counts come from a regular-expression search that is not part of
    this model; they arrive as `counts[i][j]`, the number of matches of word
    `j` in line `i` of the range, and `i` is the line's index within the
    range, as `enumerate` numbers it. */
module Search {

  /** The number of nonzero entries. */
  function Nonzero(counts: seq<int>): (r: nat)
    ensures r <= |counts|
  {
    if counts == [] then 0 else (if counts[0] != 0 then 1 else 0) + Nonzero(counts[1..])
  }

  /** Each word's count is either zero or not. */
  function Flags(counts: seq<int>): (r: seq<bool>)
    ensures |r| == |counts|
    ensures forall j :: 0 <= j < |r| ==> (r[j] <==> counts[j] != 0)
  {
    seq(|counts|, j requires 0 <= j < |counts| => counts[j] != 0)
  }

  /** `any(it)` on an iterator over `flags` positioned at `from`: whether a
      `True` is met, and where the iterator stands afterwards (just past that
      `True`, or at the end). */
  function AnyFrom(flags: seq<bool>, from: nat): (r: (bool, nat))
    requires from <= |flags|
    ensures from <= r.1 <= |flags|
    decreases |flags| - from
  {
    if from == |flags| then (false, from)
    else if flags[from] then (true, from + 1)
    else AnyFrom(flags, from + 1)
  }

  /** `any(it) and not any(it)` on one iterator over `flags`. */
  function OnlyOne(flags: seq<bool>): bool {
    var (first, rest) := AnyFrom(flags, 0);
    first && !AnyFrom(flags, rest).0
  }

  /** `all(diff_zero)`. */
  predicate All(flags: seq<bool>) {
    forall j :: 0 <= j < |flags| ==> flags[j]
  }

  /** Whether line counts: `is_valid` after the `all_words` rewrite. */
  function Classify(counts: seq<int>, allWords: bool): bool {
    var flags := Flags(counts);
    var isValid := OnlyOne(flags);
    if allWords && !isValid then All(flags) else isValid
  }

  // ---------------------------------------------------------------------
  // What the classifier means

  /** The number of `True`s in `flags[from..]`. */
  function Trues(flags: seq<bool>, from: nat): nat
    requires from <= |flags|
    decreases |flags| - from
  {
    if from == |flags| then 0 else (if flags[from] then 1 else 0) + Trues(flags, from + 1)
  }

  /** `any` from `from` finds a `True` exactly when there is one, and stops
      just past the first. */
  lemma {:induction false} AnyFromFinds(flags: seq<bool>, from: nat)
    requires from <= |flags|
    ensures AnyFrom(flags, from).0 <==> Trues(flags, from) > 0
    ensures AnyFrom(flags, from).0 ==>
              Trues(flags, from) == 1 + Trues(flags, AnyFrom(flags, from).1)
    decreases |flags| - from
  {
    if from < |flags| && !flags[from] {
      AnyFromFinds(flags, from + 1);
    }
  }

  /** The iterator idiom holds exactly when one flag is set. */
  lemma OnlyOneIsExactlyOne(flags: seq<bool>)
    ensures OnlyOne(flags) <==> Trues(flags, 0) == 1
  {
    AnyFromFinds(flags, 0);
    var rest := AnyFrom(flags, 0).1;
    AnyFromFinds(flags, rest);
  }

  /** Counting the set flags is counting the nonzero counts. */
  lemma {:induction false} TruesAreNonzero(counts: seq<int>, from: nat)
    requires from <= |counts|
    ensures Trues(Flags(counts), from) == Nonzero(counts[from..])
    decreases |counts| - from
  {
    if from < |counts| {
      TruesAreNonzero(counts, from + 1);
      assert counts[from..][1..] == counts[from + 1..];
    }
  }

  /** All flags are set exactly when every count is nonzero. */
  lemma {:induction false} AllIsEveryNonzero(counts: seq<int>)
    ensures All(Flags(counts)) <==> Nonzero(counts) == |counts|
  {
    if counts != [] {
      AllIsEveryNonzero(counts[1..]);
      if All(Flags(counts)) {
        assert All(Flags(counts[1..]));
      } else if Nonzero(counts) == |counts| {
        assert Nonzero(counts[1..]) <= |counts| - 1;
        forall j | 0 <= j < |counts|
          ensures counts[j] != 0
        {
          if j > 0 {
            assert counts[1..][j - 1] == counts[j];
          }
        }
        assert false;
      }
    }
  }

  /** A line counts exactly when one word occurs in it, or when `-a` is
      given and every word occurs in it. */
  lemma ClassifyMeaning(counts: seq<int>, allWords: bool)
    ensures Classify(counts, allWords) <==>
              Nonzero(counts) == 1 || (allWords && Nonzero(counts) == |counts|)
  {
    OnlyOneIsExactlyOne(Flags(counts));
    TruesAreNonzero(counts, 0);
    assert counts[0..] == counts;
    AllIsEveryNonzero(counts);
  }

  /** The examples with the words aa, bb and cc: with `-a` a line holding
      all three counts, one holding two does not, one holding one counts;
      without `-a` only the line holding one counts. */
  lemma ThreeWordExamples()
    ensures Classify([1, 1, 1], true) && !Classify([1, 1, 0], true) && Classify([1, 0, 0], true)
    ensures !Classify([1, 1, 1], false) && !Classify([1, 1, 0], false) && Classify([1, 0, 0], false)
  {
    ClassifyMeaning([1, 1, 1], true);
    ClassifyMeaning([1, 1, 0], true);
    ClassifyMeaning([1, 0, 0], true);
    ClassifyMeaning([1, 1, 1], false);
    ClassifyMeaning([1, 1, 0], false);
    ClassifyMeaning([1, 0, 0], false);
  }

  // ---------------------------------------------------------------------
  // The occurrence map

  /** Every line has one count per word, and counts are match counts. */
  predicate WellShaped(counts: seq<seq<int>>, words: nat) {
    forall i :: 0 <= i < |counts| ==> |counts[i]| == words && forall j :: 0 <= j < words ==> counts[i][j] >= 0
  }

  /** Word `j`'s entry of the occurrence map after the first `n` lines:
      line `n - 1` is added, with the word's count there, when it counts and
      holds the word. */
  ghost function Recorded(counts: seq<seq<int>>, words: nat, allWords: bool, j: nat, n: nat): map<int, int>
    requires WellShaped(counts, words) && j < words && n <= |counts|
  {
    if n == 0 then map[]
    else
      var before := Recorded(counts, words, allWords, j, n - 1);
      if Classify(counts[n - 1], allWords) && counts[n - 1][j] != 0
      then before[n - 1 := counts[n - 1][j]]
      else before
  }

  /** `search_file`'s loop: for each line, classify it and, when it counts,
      store each nonzero count under the line's index. */
  method SearchLines(counts: seq<seq<int>>, words: nat, allWords: bool) returns (occ: seq<map<int, int>>)
    requires WellShaped(counts, words)
    ensures |occ| == words
    ensures forall j :: 0 <= j < words ==> occ[j] == Recorded(counts, words, allWords, j, |counts|)
  {
    occ := seq(words, _ => map[]);
    for i := 0 to |counts|
      invariant |occ| == words
      invariant forall j :: 0 <= j < words ==> occ[j] == Recorded(counts, words, allWords, j, i)
    {
      var isValid := Classify(counts[i], allWords);
      if isValid {
        for j := 0 to words
          invariant |occ| == words
          invariant forall w :: 0 <= w < j ==> occ[w] == Recorded(counts, words, allWords, w, i + 1)
          invariant forall w :: j <= w < words ==> occ[w] == Recorded(counts, words, allWords, w, i)
        {
          if counts[i][j] != 0 {
            occ := occ[j := occ[j][i := counts[i][j]]];
          }
        }
      }
    }
  }

  /** Word `j`'s map holds exactly the lines that count and hold the word,
      each with the word's (positive) count there. */
  lemma {:induction false} RecordedLines(counts: seq<seq<int>>, words: nat, allWords: bool, j: nat, n: nat)
    requires WellShaped(counts, words) && j < words && n <= |counts|
    ensures forall i :: i in Recorded(counts, words, allWords, j, n) <==>
              0 <= i < n && Classify(counts[i], allWords) && counts[i][j] != 0
    ensures forall i :: i in Recorded(counts, words, allWords, j, n) ==>
              Recorded(counts, words, allWords, j, n)[i] == counts[i][j] > 0
  {
    if n > 0 {
      RecordedLines(counts, words, allWords, j, n - 1);
    }
  }
}
