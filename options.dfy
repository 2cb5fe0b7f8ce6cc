/** `validate_args`: rewrite the searched words (normalised, duplicates
    dropped) and the files (duplicates dropped) in place, and reject too
    many words and a degree of parallelism out of range, in that order.

    The file list is taken as given: asking for it on standard input when
    it is missing is not part of this model. */
module Options {
  import opened Normalize

  /** The elements of a sequence, as a set. */
  ghost function Elements(s: seq<string>): set<string> {
    set x | x in s
  }

  predicate NoDuplicates(s: seq<string>) {
    forall i, j :: 0 <= i < j < |s| ==> s[i] != s[j]
  }

  /** `tuple(set(s))`: the distinct elements of `s`.  The order Python's
      set gives them in is not specified; this keeps each element's first
      occurrence. */
  function Dedup(s: seq<string>): (r: seq<string>)
    ensures forall x :: x in r <==> x in s
    ensures NoDuplicates(r)
    ensures |r| <= |s|
  {
    if s == [] then []
    else
      var front := Dedup(s[..|s| - 1]);
      if s[|s| - 1] in s[..|s| - 1] then front else front + [s[|s| - 1]]
  }

  /** A sequence without duplicates has as many elements as its set. */
  lemma {:induction false} DistinctCount(s: seq<string>)
    requires NoDuplicates(s)
    ensures |Elements(s)| == |s|
  {
    if s != [] {
      var front := s[..|s| - 1];
      DistinctCount(front);
      assert Elements(s) == Elements(front) + {s[|s| - 1]};
      assert s[|s| - 1] !in Elements(front);
    } else {
      assert Elements(s) == {};
    }
  }

  /** `len(tuple(set(s)))` is the number of distinct elements of `s`. */
  lemma DedupCount(s: seq<string>)
    ensures |Dedup(s)| == |Elements(s)|
  {
    DistinctCount(Dedup(s));
    assert Elements(Dedup(s)) == Elements(s);
  }

  /** Each word as the variant normalises it. */
  function NormalizeAll(v: Variant, ws: seq<string>): (r: seq<string>)
    ensures |r| == |ws|
  {
    if ws == [] then [] else [NormalizeWord(v, ws[0])] + NormalizeAll(v, ws[1..])
  }

  /** The `i`-th normalised word is the `i`-th word normalised. */
  lemma {:induction false} NormalizeAllAt(v: Variant, ws: seq<string>, i: nat)
    requires i < |ws|
    ensures NormalizeAll(v, ws)[i] == NormalizeWord(v, ws[i])
  {
    if i > 0 {
      NormalizeAllAt(v, ws[1..], i - 1);
    }
  }

  /** How validation ends: accepted, or the warning it raises. */
  datatype Outcome = Ok | TooManyWords | NegativeParallelism | ParallelismAboveFiles

  /** The parsed arguments `validate_args` works on. */
  class Args {
    var palavras: seq<string>
    var files: seq<string>
    var parallelization: int

    constructor (palavras: seq<string>, files: seq<string>, parallelization: int)
      ensures this.palavras == palavras && this.files == files
      ensures this.parallelization == parallelization
    {
      this.palavras := palavras;
      this.files := files;
      this.parallelization := parallelization;
    }

    /** `validate_args` of variant `v`.  The words are rewritten before any
        check; the files are rewritten only once the first two checks pass.
        When it accepts, words and files are free of duplicates, there are at
        most three words, and the degree of parallelism lies between 0 and
        the number of files. */
    method Validate(v: Variant) returns (outcome: Outcome)
      modifies this
      ensures palavras == Dedup(NormalizeAll(v, old(palavras)))
      ensures parallelization == old(parallelization)
      ensures outcome ==
                if |Elements(NormalizeAll(v, old(palavras)))| > 3 then TooManyWords
                else if old(parallelization) < 0 then NegativeParallelism
                else if old(parallelization) > |Elements(old(files))| then ParallelismAboveFiles
                else Ok
      ensures files == if outcome == TooManyWords || outcome == NegativeParallelism
                       then old(files) else Dedup(old(files))
      ensures outcome == Ok ==> NoDuplicates(palavras) && NoDuplicates(files)
                                && |palavras| <= 3 && 0 <= parallelization <= |files|
    {
      var words := NormalizeAll(v, palavras);
      DedupCount(words);
      DedupCount(files);
      palavras := Dedup(words);
      if |palavras| > 3 {
        outcome := TooManyWords;
      } else if parallelization < 0 {
        outcome := NegativeParallelism;
      } else {
        files := Dedup(files);
        outcome := if parallelization > |files| then ParallelismAboveFiles else Ok;
      }
    }
  }

  /** The threads variant lower-cases words, so "Rio" and "rio" become
      one word there and stay two in the others. */
  lemma CaseCollapsesOnlyInThreads()
    ensures |Dedup(NormalizeAll(Threads, ["Rio", "rio"]))| == 1
    ensures |Dedup(NormalizeAll(Metodos, ["Rio", "rio"]))| == 2
  {
    var upper, lower := "Rio", "rio";
    assert StripAccents(upper[2..]) == upper[2..];
    assert StripAccents(upper[1..]) == upper[1..];
    assert StripAccents(upper) == upper;
    assert StripAccents(lower[2..]) == lower[2..];
    assert StripAccents(lower[1..]) == lower[1..];
    assert StripAccents(lower) == lower;
    assert Lower(upper) == lower;
    assert Lower(lower) == lower;
    var threads := NormalizeAll(Threads, [upper, lower]);
    var metodos := NormalizeAll(Metodos, [upper, lower]);
    NormalizeAllAt(Threads, [upper, lower], 0);
    NormalizeAllAt(Threads, [upper, lower], 1);
    NormalizeAllAt(Metodos, [upper, lower], 0);
    NormalizeAllAt(Metodos, [upper, lower], 1);
    assert threads == [lower, lower];
    assert metodos == [upper, lower];
    assert threads[..1] == [lower];
    assert metodos[..1] == [upper];
    assert upper[0] != lower[0];
  }

  /** Two words that are distinct only up to accents are one word to
      every variant, so they pass the word check. */
  lemma AccentsCollapse(v: Variant)
    ensures |Elements(NormalizeAll(v, ["e", "e\U{0301}"]))| == 1
  {
    var plain, accented := "e", "e\U{0301}";
    assert StripAccents(plain) == plain;
    assert StripAccents(accented[1..]) == [];
    assert StripAccents(accented) == plain;
    assert NormalizeAll(v, [plain, accented]) == [NormalizeWord(v, plain), NormalizeWord(v, plain)];
    assert Elements(NormalizeAll(v, [plain, accented])) == {NormalizeWord(v, plain)};
  }
}
