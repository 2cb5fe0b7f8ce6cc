# pgrepwc: a verified model of the word-search core

pgrepwc searches text files for up to three words. It counts, per file, either the matches of each
word (`-c`) or the lines that hold the words (`-l`). A line counts when exactly one of the words
occurs in it. With `-a`, a line that holds every word also counts. The work is split among several
processes or threads, which add their results into a shared three-slot counter `total`.

The repository has several near-identical variants. This model covers their shared core.

- **metodos.py**
  - `chunks` is the line-aligned partitioner. It cuts the indexed files into ranges of whole lines
    written as byte offsets, one partition per worker (modules `Partition`, `Chunking` and `Coverage`).
  - `file_lines_pos` is the line indexer and `read_file` is the range reader (module `LineIndex`).
  - The per-line classifier and occurrence map of `search_file` are in module `Search`.
  - `commit_results` and the `process_files` loop are in module `Aggregate`.
  - `validate_args` is in module `Options`, and `strip_accents` in module `Normalize`.
- **old_pgrepwc.py, pgrepwc_threads.py and pgrepwc-lucas.py**
  - They repeat `validate_args`, the classifier loop of `search_file` and `commit_results`.
  - `commit_results` is the same in all four files.
  - The variants differ only in case handling, which `Normalize.Variant` records:
    - old_pgrepwc.py lower-cases the lines but not the words;
    - pgrepwc_threads.py lower-cases both;
    - the other two lower-case neither.
- **old_pgrepwc.py, pgrepwc_threads.py and tmp.py** split a list round-robin with `lst[i::n]`
  (module `RoundRobin`).

The model follows the code:

- State that the code updates in place is a Dafny `class`:
  - the counters (`Aggregate.Totals`, with `total: array<int>`);
  - the validated arguments (`Options.Args`).
- Loops are methods with invariants, each proved against a specification function:
  - the partitioner `Chunking.Chunks`, whose loop is `Partition.Carve`;
  - the indexer `LineIndex.IndexLines`;
  - the reader `LineIndex.ReadRange`;
  - the classifier loop `Search.SearchLines`;
  - the commits `Aggregate.Totals.Commit` and `Aggregate.Totals.ProcessFiles`.
- Pure code stays as functions:
  - the accent stripping;
  - the `lst[i::n]` splitter.
- `Chunking.Chunks` also returns a ghost result with the same shape as its answer. It gives the
  interval of lines behind each range (`Span`), and the coverage, boundary and balance properties
  are stated over it.

## Model

| member | source | states |
|---|---|---|
| Chunking.Chunks | metodos.py:16-86 | the ranges are the line intervals written with offsets. The intervals tile every file in input order, each taking min(lines_each, lines left in its file) lines, with lines_each = ceil(total/n). A partition closes only once it holds lines_each lines, and never later. On the ranges themselves: no partition is empty, and the last range ends at -1. A range whose end is an offset closes its partition, and the next partition starts in the same file at that offset. Every start is a line start. Given the true total, at most n partitions come back |
| Partition.Carve | metodos.py:27-84 | the loop: the ranges it returns are the carved intervals written with offsets. The intervals tile the files, each takes min(lines_each, rest of the file) lines, and partitions close at lines_each |
| Chunking.RangesHold | metodos.py:33-84 | for a carved result: no partition is empty, and the last range ends at -1. A range ending at an offset closes its partition, and the next partition resumes there. Every start is a line start |
| Chunking.AtMostN | metodos.py:30-84 | for a carved result over the true total, at most n partitions |
| Partition.TakeLines | metodos.py:54-64 | a step takes min(lines_each, rest of the file) lines. It sets the open range's end to the next line's offset unless the file is finished. eof and next_process are exactly "file done" and "partition full" |
| Partition.MoveOn | metodos.py:66-84 | after a finished file, the next file opens in the same partition while that partition has room. A full partition opens a new one at the next unassigned line. The loop invariant is kept and the loop makes progress |
| Partition.CeilDiv | metodos.py:30 | lines_each is the least q with q * n >= total |
| Coverage.CoversEveryLine | metodos.py:52-84 | read in order, the ranges' lines are exactly every line of every file, files in input order, and their number is the total line count |
| Coverage.EveryLineOnce | metodos.py:52-84 | every line of every file appears in that listing, and none appears twice |
| Coverage.FilesLinesOrdered | metodos.py:52-84 | the listing of the first m files holds exactly their lines, sorted by file and then line |
| Coverage.Balance | metodos.py:30-84 | 1 to n partitions come back. Every partition holds fewer than 2 * lines_each lines, and all but the last hold at least lines_each |
| Coverage.Cut | metodos.py:59-61 | a range whose end is an offset is the last of its partition. The next partition starts in the same file at that offset |
| Coverage.Cuts | metodos.py:33-84 | the cut rule for every range. Every start and every non-final end is the offset of some line of the file. The very last range ends at -1 |
| Coverage.CutSpan | metodos.py:59-76 | an interval stopping before the end of its file closes its partition, and another partition follows |
| PartitionFilled.OversizedPartition | metodos.py:54 | as written, files of one and two lines with n = 2 give lines_each = 2 but a single partition of 3 lines |
| PartitionFilled.ChunksFilled | metodos.py:16-86 | with the step taking min(room left, rest of the file) lines, the ranges tile the files and every partition is filled before the next opens. At least one partition comes back, and given the true total, at most n |
| PartitionFilled.FilledBound | metodos.py:52-84 | with the filling rule each partition holds 1 to lines_each lines, the count of partitions is ceil(total/lines_each), and the ranges cover every line in order |
| PartitionFilled.FilledBalance | metodos.py:30 | with the filling rule 1 to n partitions come back, none above ceil(total/n) lines |
| LineIndex.IndexLines | metodos.py:106-115 | count == len(offsets) == number of lines. offsets[0] == 0, each next offset adds the line's length, and offsets increase strictly. The last line ends the text, and readline after seeking to offsets[i] gives line i |
| LineIndex.RunningOffsets | metodos.py:107-113 | the running offset recorded for line k is the sum of the lengths of the lines before it |
| LineIndex.LineStarts | metodos.py:107-115 | the running offsets are line starts: from 0, growing by each line's length, up to the end of the text, and readline at each gives that line |
| LineIndex.SplitJoin | metodos.py:110-111 | the lines `for line in f` yields are non-empty, every one but the last ends in a newline, and joined they give back the text |
| LineIndex.ReadLine | metodos.py:140-141 | readline gives nothing at or past the end, and otherwise at least one character and no more than remain |
| LineIndex.ReadLineIsBreak | metodos.py:140-141 | a line read at an offset is the text from there up to and including the next newline, or up to the end of the text, with no other newline |
| LineIndex.ReadLineAtOffset | metodos.py:140-141 | seeking to the start of line i and reading a line gives line i |
| LineIndex.StopLine | metodos.py:137-138 | the reader stops at the first line starting at or past end, or at the end of the file |
| LineIndex.ReadRange | metodos.py:127-146 | started at the offset of line i, read_file yields exactly lines i up to StopLine, in order. Started past the end it yields nothing |
| LineIndex.RangeReadsSpan | metodos.py:59-61 | a range ending at the start of line hi, or at -1 when hi is the last line, makes the reader stop exactly at line hi |
| LineIndex.SpanReads | metodos.py:127-146 | the range the partitioner writes for an interval of an indexed file makes the worker read exactly that interval's lines |
| Normalize.StripAccents | metodos.py:117-125 | the result keeps no combining mark and is no longer than the input |
| Normalize.StripIdempotent | metodos.py:117-125 | stripping accents twice is stripping them once |
| Normalize.StripConcat | metodos.py:117-125 | stripping accents works piece by piece over a concatenation |
| Normalize.StripKeepsPlain | metodos.py:117-125 | a string without marks is left unchanged |
| Normalize.Lower | pgrepwc_threads.py:82 | lower-casing keeps the length and maps each character to its lower case |
| Normalize.LowerIdempotent | pgrepwc_threads.py:119 | lower-casing twice is lower-casing once |
| Normalize.LowerConcat | pgrepwc_threads.py:119 | lower-casing works piece by piece over a concatenation |
| Normalize.NormalizeIdempotent | pgrepwc_threads.py:82 | each variant's word and line normalisations are idempotent |
| Normalize.NormalizeKeepsOccurrence | pgrepwc_threads.py:82 | in the threads, metodos and lucas variants, a word occurring in a line still occurs once both are normalised |
| Normalize.OldMissesCapitalised | old_pgrepwc.py:181 | in the old variant a stored word that keeps an upper-case letter occurs in no normalised line |
| Normalize.OldMissesPorto | old_pgrepwc.py:130 | "Porto" occurs in the line "Porto\n". The threads variant finds it after normalising, and the old variant does not |
| Search.AnyFromFinds | metodos.py:271-273 | any() on the iterator is true iff a True remains, and then it consumes exactly up to the first one |
| Search.OnlyOneIsExactlyOne | metodos.py:268-273 | `any(it) and not any(it)` holds iff exactly one flag is set |
| Search.AllIsEveryNonzero | metodos.py:277-279 | all(diff_zero) holds iff every word's count is nonzero |
| Search.ClassifyMeaning | metodos.py:268-279 | a line counts iff exactly one word occurs in it, or -a is given and every word occurs in it (the same rule at old_pgrepwc.py:195-206, pgrepwc_threads.py:133-144 and pgrepwc-lucas.py:217-228) |
| Search.ThreeWordExamples | pgrepwc_threads.py:252-260 | the aa/bb/cc examples: with -a, all three or one alone count and two do not. Without -a only one alone counts |
| Search.SearchLines | metodos.py:252-288 | the occurrence map of word j is the one built line by line: a line's count is recorded under its index in the range when the line counts and the count is nonzero (the same recording at old_pgrepwc.py:209-215, pgrepwc_threads.py:147-153 and pgrepwc-lucas.py:231-237) |
| Search.RecordedLines | metodos.py:282-288 | word j's map holds exactly the lines that count and hold j, each with j's positive count there |
| Aggregate.SumValues | metodos.py:333 | the loop's sum is the sum of the map's values |
| Aggregate.SumOfRemove | metodos.py:333 | that sum does not depend on the order of the keys |
| Aggregate.CountDistinctLines | metodos.py:342 | the result is the number of distinct line keys over all words |
| Aggregate.Totals.constructor | metodos.py:12 | the counter starts as three zeros |
| Aggregate.Totals.Commit | metodos.py:318-355 | ret holds, per mode, the sums (-c), the size of the union of line keys (-l -a), or the per-word line counts (-l). Slot i of total grows by exactly ret[i], and a slot with no value is unchanged (the same function at old_pgrepwc.py:244-280, pgrepwc_threads.py:173-201 and pgrepwc-lucas.py:267-304) |
| Aggregate.Totals.ProcessFiles | metodos.py:357-380 | for each file, search it and commit it. vals[f] is the committed value list of file f, and each total[i] grows by the sum of the files' i-th values (the same accumulation at pgrepwc_threads.py:203-208) |
| Aggregate.CommittedMeaning | metodos.py:328-355 | for a file the value of word j is, with -c, the sum of j's counts over the lines that count. With -l alone it is the number of lines that count and hold j. With -l -a it is the number of lines that count |
| Aggregate.CountIsColumnSum | metodos.py:330-337 | with -c the value of word j is the sum of j's counts over the lines that count |
| Aggregate.LinesIsLineCount | metodos.py:348-353 | with -l alone the value of word j is the number of lines that count and hold j |
| Aggregate.UnionIsValidLines | metodos.py:340-345 | with -l -a and at least one word, the union of the line keys is exactly the set of lines that count |
| Aggregate.ValidLinesSize | metodos.py:340-345 | the set of lines that count has as many elements as there are such lines |
| Aggregate.CommittedNonNegative | metodos.py:328-355 | with non-negative counts, no slot of total decreases |
| Options.Args.constructor | metodos.py:194 | the arguments hold the given words, files and degree of parallelism |
| Options.Args.Validate | metodos.py:194-219 | words are accent-stripped and deduplicated. The checks are: more than 3 distinct words, then p < 0, then p above the number of distinct files, in that order. Files are deduplicated once the first two checks pass. On acceptance, words and files are duplicate-free, there are at most 3 words, and 0 <= p <= number of files (the same checks at old_pgrepwc.py:124-148 and pgrepwc-lucas.py:143-168, and at pgrepwc_threads.py:80-100 with the words also lower-cased) |
| Options.Dedup | metodos.py:215 | `tuple(set(s))` has the same elements as s, no duplicates, and no more entries |
| Options.DedupCount | metodos.py:204 | the length of `tuple(set(s))` is the number of distinct elements of s |
| Options.DistinctCount | metodos.py:204 | a duplicate-free sequence has as many elements as its set |
| Options.NormalizeAllAt | metodos.py:201 | the i-th stored word is the i-th given word normalised |
| Options.CaseCollapsesOnlyInThreads | pgrepwc_threads.py:82 | "Rio" and "rio" become one word in the threads variant and stay two in metodos.py |
| Options.AccentsCollapse | metodos.py:201 | words that differ only by a combining accent become one word in every variant |
| RoundRobin.Chunks | old_pgrepwc.py:49-50 | n lists for a positive n, none otherwise |
| RoundRobin.ChunksHold | old_pgrepwc.py:49-50 | list i holds lst[i], lst[i+n], ... in order: position j exists iff i + j*n < len(lst), and holds lst[i + j*n] (the same slicing at pgrepwc_threads.py:25-27 and tmp.py:7-8) |
| RoundRobin.StrideAt | tmp.py:7-8 | element j of lst[i::n] is lst[i + j*n] |
| RoundRobin.StrideSize | tmp.py:7-8 | lst[i::n] has one element per position i + j*n inside the list |
| RoundRobin.EveryElementPlaced | tmp.py:8 | element k lands in list k % n at position k / n |
| RoundRobin.Partition | tmp.py:8 | the lists' sizes add up to the input's length, so with EveryElementPlaced each element is in exactly one list |
| RoundRobin.TotalSize | old_pgrepwc.py:49-50 | the sizes of lists 0 to n-1 add up to the length of the input |
| RoundRobin.Balanced | tmp.py:8 | list sizes differ by at most one, with the earlier lists the longer |
| RoundRobin.StrideLengthMonotone | pgrepwc_threads.py:26-27 | a list starting later is never longer |
| RoundRobin.NineFilesSevenChildren | tmp.py:4-10 | nine files among seven children give [a,h], [b,i], [c], [d], [e], [f], [g] |

## Left out

- The regular-expression search (`compile_words_regex`, `findall`, Unicode `\b`) is not modelled. `search_file` receives, for each line, the number of matches of each word as input.
- Normalize.StripAccents: NFD decomposition and the full Unicode category `Mn` are not modelled. Text is taken as already decomposed, and a mark is a character of U+0300 to U+036F.
- Normalize.Lower: only the ASCII letters A to Z are lower-cased, not the full Unicode case mapping.
- LineIndex.IndexLines: offsets count characters, as `len(line)` does in text mode. Text mode also translates "\r\n" and a lone "\r" into "\n", so on a file with "\r\n" line ends `len(line)` falls one short per line, and the offsets are not the positions `seek` uses. On "a\r\nb\r\n" the offsets are [0, 2], and a worker seeking to 2 reads a stray "\n" first. The model takes text as already "\n"-terminated ASCII, where character offsets and seek positions agree. The byte positions that `seek` uses on a non-ASCII file are not modelled either. A file is its text in memory, not an open file.
- Processes, threads, the mutex and signal handling are not modelled. The workers' commits are taken one after another.
- Aggregate.Totals.Commit: `total` holds unbounded integers. The 32-bit wrap-around of `Array("i", 3)` is not modelled.
- Argument parsing, reading the file list from standard input (`read_list`), output (`print_results`, colours) and timing are not modelled. Options.Args.Validate takes the file list as given.
- Options.Dedup: `tuple(set(s))` has an unspecified order. The model keeps each element's first occurrence, and the contracts state only the elements, their distinctness and the count.
- Chunking.Chunks requires a non-empty file list, n >= 1, a total of at least one line, and every file to have at least one line with offsets from 0, strictly increasing. As written, a file of zero lines ends the loop early, and in a new partition it indexes an empty offset list. A total of zero lines never ends the loop.
- Aggregate.UnionIsValidLines requires at least one word. With no words and -a every line counts, but nothing is recorded.
- pgrepwc-lucas.py `chunks`, `read_file` and `wc` are not modelled: they are subprocess calls and unfinished code.
- old_pgrepwc.py `process_files`, `main` and `output` are not modelled: they do not run as written.
- pgrepwc.py (argument parsing only) and hpgrepwc.py (reading saved results and formatting times) are not modelled.

## Findings

| source | as written | input that shows it | evidently intended | confidence | as-written member | corrected member |
|---|---|---|---|---|---|---|
| metodos.py:54 | each step takes min(lines_each, lines left in the file), ignoring the lines the current partition already holds | two files of 1 and 2 lines, n = 2: lines_each = 2, and a single partition of 3 lines comes back | each step takes min(room left in the partition, lines left in the file), so every partition holds at most ceil(total/n) lines | not executed | PartitionFilled.OversizedPartition | PartitionFilled.FilledBalance |
| old_pgrepwc.py:130 | words are accent-stripped but not lower-cased, while lines are lower-cased (old_pgrepwc.py:181) | the word "Porto" and the line "Porto\n": the line holds the word, but the search never finds it | words normalised like the lines, as pgrepwc_threads.py:82 does, so that an occurrence survives normalisation | not executed | Normalize.OldMissesPorto | Normalize.NormalizeKeepsOccurrence |
