/** How the variants of the tool normalise the searched words and the lines
    of text before matching: accent stripping (dropping combining marks) in
    all of them, and lower-casing of lines and words in some.

    Characters are taken as already decomposed: a combining mark is a
    character of the Combining Diacritical Marks block, U+0300 to U+036F. */
module Normalize {

  /** A combining diacritical mark. */
  predicate IsMark(c: char) {
    '\U{0300}' <= c <= '\U{036F}'
  }

  /** `strip_accents`: the string without its combining marks. */
  function StripAccents(s: string): (r: string)
    ensures |r| <= |s|
    ensures forall k :: 0 <= k < |r| ==> !IsMark(r[k])
  {
    if s == [] then []
    else if IsMark(s[0]) then StripAccents(s[1..])
    else [s[0]] + StripAccents(s[1..])
  }

  predicate IsUpper(c: char) {
    'A' <= c <= 'Z'
  }

  /** `str.lower` on one character, for the ASCII letters. */
  function LowerChar(c: char): (r: char)
    ensures !IsUpper(r)
    ensures IsMark(r) <==> IsMark(c)
  {
    if IsUpper(c) then (c as int + 32) as char else c
  }

  /** `str.lower`. */
  function Lower(s: string): (r: string)
    ensures |r| == |s|
    ensures forall k :: 0 <= k < |r| ==> r[k] == LowerChar(s[k])
  {
    if s == [] then [] else [LowerChar(s[0])] + Lower(s[1..])
  }

  /** The variants of the tool, by the file that holds each. */
  datatype Variant = Metodos | Old | Threads | Lucas

  /** What `validate_args` keeps of a searched word: accents stripped
      everywhere, lower-cased only in the threads variant. */
  function NormalizeWord(v: Variant, w: string): string {
    if v == Threads then Lower(StripAccents(w)) else StripAccents(w)
  }

  /** What `search_file` matches the words against: the line with accents
      stripped, lower-cased in the old and threads variants. */
  function NormalizeLine(v: Variant, line: string): string {
    if v == Old || v == Threads then Lower(StripAccents(line)) else StripAccents(line)
  }

  /** `w` occurs in `line` starting at position `i`. */
  predicate OccursAt(w: string, line: string, i: int) {
    0 <= i <= |line| - |w| && line[i..i + |w|] == w
  }

  /** `w` occurs in `line` as a run of consecutive characters. */
  ghost predicate Occurs(w: string, line: string) {
    exists i :: OccursAt(w, line, i)
  }

  ghost predicate HasUpper(s: string) {
    exists k :: 0 <= k < |s| && IsUpper(s[k])
  }

  // ---------------------------------------------------------------------
  // Properties of the normalisations

  /** Stripping accents twice is stripping them once. */
  lemma {:induction false} StripIdempotent(s: string)
    ensures StripAccents(StripAccents(s)) == StripAccents(s)
  {
    if s != [] {
      StripIdempotent(s[1..]);
      if !IsMark(s[0]) {
        assert ([s[0]] + StripAccents(s[1..]))[1..] == StripAccents(s[1..]);
      }
    }
  }

  /** Stripping accents keeps a string that has none. */
  lemma {:induction false} StripKeepsPlain(s: string)
    requires forall k :: 0 <= k < |s| ==> !IsMark(s[k])
    ensures StripAccents(s) == s
  {
    if s != [] {
      StripKeepsPlain(s[1..]);
    }
  }

  /** Stripping accents works piece by piece. */
  lemma {:induction false} StripConcat(a: string, b: string)
    ensures StripAccents(a + b) == StripAccents(a) + StripAccents(b)
  {
    if a != [] {
      assert (a + b)[1..] == a[1..] + b;
      StripConcat(a[1..], b);
    } else {
      assert a + b == b;
    }
  }

  /** Lower-casing twice is lower-casing once. */
  lemma {:induction false} LowerIdempotent(s: string)
    ensures Lower(Lower(s)) == Lower(s)
  {
    if s != [] {
      LowerIdempotent(s[1..]);
    }
  }

  /** Lower-casing works piece by piece. */
  lemma {:induction false} LowerConcat(a: string, b: string)
    ensures Lower(a + b) == Lower(a) + Lower(b)
  {
    if a != [] {
      assert (a + b)[1..] == a[1..] + b;
      LowerConcat(a[1..], b);
    } else {
      assert a + b == b;
    }
  }

  /** Normalising twice is normalising once, for words and for lines, in
      every variant. */
  lemma NormalizeIdempotent(v: Variant, s: string)
    ensures NormalizeWord(v, NormalizeWord(v, s)) == NormalizeWord(v, s)
    ensures NormalizeLine(v, NormalizeLine(v, s)) == NormalizeLine(v, s)
  {
    StripIdempotent(s);
    StripKeepsPlain(Lower(StripAccents(s)));
    LowerIdempotent(StripAccents(s));
  }

  /** A normalisation that works piece by piece keeps occurrences: a word
      that occurs in a line still occurs in it once both are normalised the
      same way. */
  lemma NormalizeKeepsOccurrence(v: Variant, w: string, line: string)
    requires v == Threads || v == Metodos || v == Lucas
    requires Occurs(w, line)
    ensures Occurs(NormalizeWord(v, w), NormalizeLine(v, line))
  {
    var i :| OccursAt(w, line, i);
    var a, c := line[..i], line[i + |w|..];
    assert line == a + w + c;
    StripConcat(a + w, c);
    StripConcat(a, w);
    var sa, sw, sc := StripAccents(a), StripAccents(w), StripAccents(c);
    var n := if v == Threads then Lower(sa) + Lower(sw) + Lower(sc) else sa + sw + sc;
    if v == Threads {
      LowerConcat(sa + sw, sc);
      LowerConcat(sa, sw);
    }
    var nw := NormalizeWord(v, w);
    var na := if v == Threads then Lower(sa) else sa;
    assert NormalizeLine(v, line) == n;
    assert n[|na|..|na| + |nw|] == nw;
    assert OccursAt(nw, n, |na|);
  }

  // ---------------------------------------------------------------------
  // The old variant lower-cases lines but not words

  /** In the old variant a searched word that keeps an upper-case letter
      after accent stripping never occurs in a normalised line, whatever
      the line says. */
  lemma OldMissesCapitalised(w: string, line: string)
    requires HasUpper(NormalizeWord(Old, w))
    ensures !Occurs(NormalizeWord(Old, w), NormalizeLine(Old, line))
  {
    var nw := NormalizeWord(Old, w);
    var nl := NormalizeLine(Old, line);
    var k :| 0 <= k < |nw| && IsUpper(nw[k]);
    forall i | 0 <= i <= |nl| - |nw|
      ensures !OccursAt(nw, nl, i)
    {
      assert nl[i..i + |nw|][k] == nl[i + k];
      assert !IsUpper(nl[i + k]);
    }
  }

  /** The word "Porto" in the line "Porto\n": the line holds the word, the
      threads variant finds it, and the old variant does not. */
  lemma OldMissesPorto()
    ensures Occurs("Porto", "Porto\n")
    ensures Occurs(NormalizeWord(Threads, "Porto"), NormalizeLine(Threads, "Porto\n"))
    ensures !Occurs(NormalizeWord(Old, "Porto"), NormalizeLine(Old, "Porto\n"))
  {
    var w, line := "Porto", "Porto\n";
    assert line[0..5] == w;
    assert OccursAt(w, line, 0);
    NormalizeKeepsOccurrence(Threads, w, line);
    assert !IsMark(w[0]);
    assert NormalizeWord(Old, w)[0] == 'P';
    OldMissesCapitalised(w, line);
  }
}
