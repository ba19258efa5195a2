# merge_wordlists in Dafny

`merge_wordlists.py` merges many English word-list files into one list.
Its function `merge_files` reads every input file line by line and
normalises each line. It lowercases the line, deletes everything outside
`a`-`z`, and keeps the result only if at least two letters remain. Every
kept word goes into a set of unique words. The function counts processed
files and accepted words, writes the sorted unique words to the output
file one per line, and prints a report. The report holds a word-length
distribution, a first-letter distribution, and the first and last twenty
words.

This project models that pipeline as pure functions over strings,
sequences and sets, and proves what each stage promises:

- `Normalize`: the line normaliser and acceptor, with a one-pass reference
  definition (`Letters`) that it is proved equal to.
- `LexOrder`: a hand-written lexicographic order on strings, proved to be a
  strict total order equal to the textbook definition. Python's `sorted`
  uses this code-point order. Dafny's `<` on sequences is the proper-prefix
  order, which is why the order is written by hand.
- `Merge`: the loop over the input files. A file is `Option<seq<string>>`,
  with `None` for a file that does not exist.
- `Sorting`: `sorted(unique_words)` as insertion into a strictly sorted
  sequence, with a proof that a strictly sorted sequence is determined by
  its elements.
- `Output`: the written content (`word + "\n"` per word), its split/parse
  inverse and its length.
- `Histogram`: the length and first-letter distributions and their bars.
- `Report`: `merge_files` end to end, and the sample-word listings.
- `Scenarios`: a few concrete cases.

## Model

| member | source | states |
|---|---|---|
| Normalize.Accept | merge_wordlists.py:27-33 | A line is accepted exactly when its lowered letters number at least two. The accepted word is those letters, in their original order, and it is a word of `a`-`z` letters of length at least 2. |
| Normalize.LowerChar | merge_wordlists.py:27 | Lowering gives a lower-case letter exactly when the character was an ASCII letter. Upper-case letters move to the matching lower-case letter and every other character is unchanged. |
| Normalize.StripLeading | merge_wordlists.py:27 | Leading `strip()` removes only whitespace characters, and what remains is a suffix of the line that does not start with whitespace. |
| Normalize.StripTrailing | merge_wordlists.py:27 | Trailing `strip()` removes only whitespace characters, and what remains is a prefix of the line that does not end with whitespace. |
| Normalize.KeepLetters | merge_wordlists.py:30 | The regex deletion never lengthens the text and leaves only `a`-`z`. A text made only of `a`-`z` is left unchanged. |
| Normalize.KeepLettersAppend | merge_wordlists.py:30 | The letter filter distributes over concatenation: filtering a text piecewise gives the same result as filtering it whole. |
| Normalize.KeepLettersLowerIsLetters | merge_wordlists.py:27-30 | Lowering then filtering equals the one-pass reference that keeps each ASCII letter, lowered, in its original order, and drops every other character. |
| Normalize.SpacesAreFiltered | merge_wordlists.py:27-30 | Whitespace before or after a text changes nothing that lowering and the letter filter keep. |
| Normalize.StripIsRedundant | merge_wordlists.py:27-30 | `strip()` changes nothing that the filter keeps: the cleaned line is the same with or without it. |
| Normalize.CleanIsLetters | merge_wordlists.py:27-30 | The cleaned line of lines 27-30 equals the reference `Letters`. |
| Normalize.AcceptNeedsOnlyLength | merge_wordlists.py:27-33 | Acceptance is decided by the length test alone. The `isalpha()` test of line 33 never rejects a line. |
| Normalize.LettersOfWord | merge_wordlists.py:27-33 | A text made only of `a`-`z` is its own normalisation. |
| Normalize.AcceptIdempotent | merge_wordlists.py:27-33 | Normalising an accepted word, or any valid word, gives the same word back, and it is accepted again. |
| LexOrder.LessIrreflexive | merge_wordlists.py:57 | No string sorts before itself. |
| LexOrder.LessTransitive | merge_wordlists.py:57 | The sort order is transitive. |
| LexOrder.LessTotal | merge_wordlists.py:57 | Any two distinct strings are ordered one way or the other. |
| LexOrder.LessAsymmetric | merge_wordlists.py:57 | Two strings are never each before the other. |
| LexOrder.LessIsLexicographic | merge_wordlists.py:57 | The recursive order holds exactly when one string is a proper prefix of the other, or they first differ at a position where the first has the smaller code point. |
| LexOrder.SortedIsUnique | merge_wordlists.py:57 | Two strictly sorted sequences with the same elements are equal, so the sorted output is determined by the set alone. |
| Sorting.Insert | merge_wordlists.py:57 | Inserting a new word into a strictly sorted sequence keeps it strictly sorted. The result holds exactly the old words plus the new one and is one longer. |
| Sorting.SortWords | merge_wordlists.py:57 | The result is strictly ascending, holds exactly the set's words, and is as long as the set is large, so it has no duplicates. |
| Merge.AcceptedWords | merge_wordlists.py:25-33 | A file yields no more words than it has lines, and every word it yields is valid. |
| Merge.YieldsSplit | merge_wordlists.py:25-33 | Some line is accepted as a word exactly when some line before the last is, or the last line is. |
| Merge.InAcceptedWords | merge_wordlists.py:25-34 | A word is among a file's accepted words exactly when some line of the file is accepted as that word. |
| Merge.InAllAccepted | merge_wordlists.py:14-34 | A word is collected exactly when some line of some existing file is accepted as it. Missing files contribute nothing. |
| Merge.SumOfWordCounts | merge_wordlists.py:20-36 | `total_words_processed` is the sum of the per-file `words_in_file` counts, and there is one count per existing file. |
| Merge.SetOfSize | merge_wordlists.py:50-52 | There are never more unique words than words processed, so the printed "duplicates removed" is never negative. |
| Merge.MergeLines | merge_wordlists.py:25-36 | One file's loop adds exactly that file's accepted words to the unique set. Its count is the number of accepted lines, repeats included. |
| Merge.MergeFiles | merge_wordlists.py:14-44 | After the loop, the unique set is exactly the words contributed by existing files, each valid. `files_processed` counts the existing files. `total_words_processed` counts every accepted line and equals the sum of the per-file counts. It is at least the number of unique words. |
| Output.Serialize | merge_wordlists.py:62-64 | The content is empty exactly when there are no words. Otherwise it ends with a newline. |
| Output.SplitLines | merge_wordlists.py:62-64 | `split('\n')` gives one more piece than there are newlines, and no piece contains a newline. |
| Output.JoinSplit | merge_wordlists.py:62-64 | Joining the pieces with newlines gives the content back. |
| Output.ParseSerialize | merge_wordlists.py:62-64 | Splitting the written content on newlines and dropping the final empty piece gives back exactly the words written, in order. |
| Output.SerializedSize | merge_wordlists.py:63-67 | The content length is the sum of the word lengths plus one newline per word. For ASCII words, on a platform whose line separator is `\n`, this is the byte size read at line 67. |
| Histogram.Tally | merge_wordlists.py:82-85 | The counting dictionary has a key exactly for each value that occurs, and maps it to the number of its occurrences. |
| Histogram.Bar | merge_wordlists.py:88-90 | The bar length never exceeds 50. Below 50 it is the floor of count·scale/n, and at 50 the scaled share is at least 50. |
| Histogram.AscendingIn | merge_wordlists.py:87 | The keys in a range, listed in strictly ascending order, each once. |
| Histogram.AscendingChars | merge_wordlists.py:101 | The letters, listed in strictly ascending code-point order, each once. |
| Histogram.RowsCoverAll | merge_wordlists.py:82-91 | When the rows have distinct keys covering every value, and each row counts its key's occurrences, the counts sum to the number of values. |
| Histogram.Distribution | merge_wordlists.py:82-105 | For distinct keys covering the values, each row counts its key's occurrences, no row is empty, each bar is `Bar` of its count, and the counts sum to the number of values. |
| Histogram.LengthKeys | merge_wordlists.py:87 | The keys of the length table are exactly the word lengths that occur, strictly ascending, and any key implies at least one word. |
| Histogram.LetterKeys | merge_wordlists.py:101 | The keys of the first-letter table are exactly the first letters that occur, in strictly ascending code-point order, and any key implies at least one word. |
| Histogram.LengthDistribution | merge_wordlists.py:82-91 | The rows cover exactly the word lengths that occur, in ascending order. Each row counts the words of that length and has a bar from `Bar` with scale 200. The counts sum to the number of words. |
| Histogram.ShownLengthRows | merge_wordlists.py:87 | At most 20 rows are shown. They are the first rows of the full distribution, and fewer than 20 appear only when that is all there are. |
| Histogram.ShownAreShortest | merge_wordlists.py:87 | A length is left out only when 20 rows are shown, all for shorter lengths. |
| Histogram.LetterDistribution | merge_wordlists.py:96-105 | The rows cover exactly the first letters that occur, in ascending order. Each row counts the words starting with that letter and has a bar from `Bar` with scale 100. The counts sum to the number of words. |
| Histogram.LengthKeysAtLeastTwo | merge_wordlists.py:82-87 | For valid words every length key is at least 2. |
| Histogram.LetterKeysAreLower | merge_wordlists.py:96-101 | Valid words are non-empty, so `word[0]` is defined. Every first-letter key is in `a`-`z`. |
| Report.FirstSample | merge_wordlists.py:110-112 | The first listing shows the first min(20, n) words, each numbered with its own 1-based position. |
| Report.LastSampleAsWritten | merge_wordlists.py:115-117 | As written, the last listing shows the last min(20, n) words, and the k-th of them carries the number n − 19 + k whatever n is. |
| Report.LastSample | merge_wordlists.py:115-117 | The corrected last listing shows the same words, each numbered with its own 1-based position. |
| Report.SuffixNumberedCorrectly | merge_wordlists.py:116 | Numbering a tail of the list from its own start gives every word its true position. |
| Report.LastSampleAsWrittenNumbering | merge_wordlists.py:116 | The as-written numbering is correct exactly when there are no words or at least 20. In exactly those cases it coincides with the corrected listing. |
| Report.LastSampleThreeWords | merge_wordlists.py:116 | With three words, the as-written listing numbers them −16, −15, −14 where 1, 2, 3 are meant. |
| Report.LastSampleOfTwentyFive | merge_wordlists.py:110-117 | With 25 words, both listings have 20 lines. The first shows words 1 to 20 numbered 1 to 20, and the last shows words 6 to 25 numbered 6 to 25. |
| Report.Present | merge_wordlists.py:59-117 | From the sorted words, the content is `word + "\n"` for each word, parses back to the words, and its size is its length: the letters plus one newline per word. The length rows are the first rows of the length distribution, at most 20, each keyed ≥ 2 with a bar ≤ 50. The letter rows are the first-letter distribution, total the word count, and are keyed by `a`-`z`. The first listing is numbered by position. The last listing is the one line 116 prints: its numbering is correct exactly when there are no words or at least 20, and then it equals the corrected listing. |
| Report.MergeWordLists | merge_wordlists.py:4-125 | One run gives the summary counters of lines 49-52, with duplicates removed ≥ 0. The output is the strictly sorted list of exactly the collected words, each valid. The content, its size, the length rows, the letter rows and the first listing are as for `Report.Present` on the sorted words. The last listing is the as-written one of line 116, `Report.LastSampleAsWritten`, so with fewer than 20 words its numbers start at n − 19. |
| Scenarios.AcceptExamples | merge_wordlists.py:27-33 | `"A"` is rejected and `"Cat"` is accepted as `"cat"`. |
| Scenarios.SortedCatDog | merge_wordlists.py:57-64 | The words `cat` and `dog` sort and serialise to `"cat\ndog\n"`. |

## Left out

- File existence, `open`, line iteration, the `errors='replace'` decoding and writing the output are I/O. A file is given as `None` when it is missing, or as the lines it delivers. The lines may still carry their newline, because `strip()` and the letter filter remove it.
- The `except` branch of lines 42-44 is modelled as a file that delivers only the prefix of lines read before the failure. Those words stay counted, as in the source. The failing file still counts as processed.
- A failing write (lines 124-125) is not modelled. `Report.MergeWordLists` assumes the write succeeds, and the statistics printed after it are computed unconditionally.
- `os.path.getsize` and the MB conversion (lines 67-68) are a filesystem call and floating point. `Output.SerializedSize` gives the character count of the content, which equals the byte count for the ASCII words written when the line separator is `\n`.
- Output.SerializedSize: the newline translation of text mode is not modelled. Line 62 opens the output in text mode, which writes every `'\n'` as the platform's line separator. On Windows that is `\r\n`, so the size read at line 67 is the letters plus two bytes per word there, not one.
- Histogram.Bar: the float `int(percentage * 2)` and `int(percentage)` of lines 89-90 and 103-104 are idealised as exact integer floors of count·200/n and count·100/n. At exact boundaries, Python's float rounding can differ by one.
- All `print` formatting is left out: separators, padding, thousands separators, `upper()` on the display letter, and the per-file console lines.
- Normalize.LowerChar: lowering is ASCII-only. Python's `lower()` also maps some non-ASCII characters to ASCII letters, for example the Kelvin sign U+212A to `k` and `İ` to `i` plus a combining dot. The model under-approximates the accepted words for such input.
- Normalize.IsAlpha: `isalpha()` is modelled on ASCII letters only. It is applied only to text already reduced to `a`-`z`, where the two agree.
- The hard-coded file list and output name of the `__main__` block (lines 127-153) are configuration, not logic.
- The sort is modelled by its result (a strictly ascending sequence of the set's words) computed by insertion. Python's Timsort is not modelled.

## Findings

| source | as written | input that shows it | evidently intended | confidence | as-written member | corrected member |
|---|---|---|---|---|---|---|
| merge_wordlists.py:116 | The last listing is numbered from `len(sorted_words) - 19`, whatever the number of words shown. | Three sorted words `ant`, `bee`, `cat` are listed as −16, −15, −14. | Each word carries its 1-based position: numbering starts at `max(1, len - 19)`, giving 1, 2, 3. | high, not executed | Report.LastSampleAsWritten (shown by Report.LastSampleThreeWords and Report.LastSampleAsWrittenNumbering; it is the last listing of Report.MergeWordLists, as the program prints it) | Report.LastSample |
