/** `merge_files` end to end (merge_wordlists.py:4-125): merge the files,
    sort the unique words, write them, and compute the figures of the
    console report, including the sample-word listing of lines 110-117. */
module Report {
  import opened Normalize
  import opened LexOrder
  import opened Merge
  import opened Sorting
  import opened Output
  import opened Histogram

  /** How many words each sample listing shows (lines 111 and 116). */
  const SampleSize := 20

  /** The summary block of lines 49-52. */
  datatype Summary = Summary(
    filesProcessed: nat,
    totalWords: nat,
    uniqueWords: nat,
    duplicatesRemoved: int)

  /** One line of a sample listing: the number printed and the word. */
  datatype Numbered = Numbered(index: int, word: string)

  /** Everything one run produces: the counters, the sorted words, the
      file content and its size, and the rows of the two distributions. */
  datatype Outcome = Outcome(
    summary: Summary,
    sorted: seq<string>,
    content: string,
    size: nat,
    lengthRows: seq<Row<int>>,
    letterRows: seq<Row<char>>,
    firstSample: seq<Numbered>,
    lastSample: seq<Numbered>)

  /** Every line of a listing carries the 1-based position of its word. */
  predicate NumberedCorrectly(sample: seq<Numbered>, words: seq<string>) {
    forall k :: 0 <= k < |sample| ==>
      1 <= sample[k].index <= |words| && words[sample[k].index - 1] == sample[k].word
  }

  function Enumerate(words: seq<string>, start: int): (r: seq<Numbered>)
    ensures |r| == |words|
    ensures forall k :: 0 <= k < |r| ==> r[k] == Numbered(start + k, words[k])
  {
    seq(|words|, k requires 0 <= k < |words| => Numbered(start + k, words[k]))
  }

  /** `enumerate(sorted_words[:20], 1)`: the first twenty words, numbered
      from 1. */
  function FirstSample(words: seq<string>): (r: seq<Numbered>)
    ensures |r| == if |words| < SampleSize then |words| else SampleSize
    ensures NumberedCorrectly(r, words)
    ensures forall k :: 0 <= k < |r| ==> r[k].word == words[k]
  {
    Enumerate(if |words| < SampleSize then words else words[..SampleSize], 1)
  }

  /** `enumerate(sorted_words[-20:], len(sorted_words) - 19)` as written:
      the last twenty words (all of them when there are fewer), numbered
      from `len - 19` whatever their count. */
  function LastSampleAsWritten(words: seq<string>): (r: seq<Numbered>)
    ensures |r| == if |words| < SampleSize then |words| else SampleSize
    ensures forall k :: 0 <= k < |r| ==> r[k].word == words[|words| - |r| + k]
    ensures forall k :: 0 <= k < |r| ==> r[k].index == |words| - (SampleSize - 1) + k
  {
    var from := if |words| < SampleSize then 0 else |words| - SampleSize;
    Enumerate(words[from..], |words| - (SampleSize - 1))
  }

  /** The listing with the numbering evidently intended: each word carries
      its own position, so the numbers start at `max(1, len - 19)`. */
  function LastSample(words: seq<string>): (r: seq<Numbered>)
    ensures |r| == if |words| < SampleSize then |words| else SampleSize
    ensures forall k :: 0 <= k < |r| ==> r[k].word == words[|words| - |r| + k]
    ensures NumberedCorrectly(r, words)
  {
    var from := if |words| < SampleSize then 0 else |words| - SampleSize;
    seq(|words| - from, k requires 0 <= k < |words| - from => Numbered(from + 1 + k, words[from + k]))
  }

  /** Numbering a suffix from its own starting position gives every word
      its place in the whole sequence. */
  lemma SuffixNumberedCorrectly(words: seq<string>, from: nat, r: seq<Numbered>)
    requires from <= |words|
    requires r == Enumerate(words[from..], from + 1)
    ensures |r| == |words| - from
    ensures forall k :: 0 <= k < |r| ==> r[k].word == words[from + k]
    ensures NumberedCorrectly(r, words)
  {
    forall k | 0 <= k < |r|
      ensures r[k].word == words[from + k]
      ensures 1 <= r[k].index <= |words| && words[r[k].index - 1] == r[k].word
    {
      assert r[k] == Numbered(from + 1 + k, words[from..][k]);
    }
  }

  /** The as-written numbering is right exactly when there are at least
      twenty words; it agrees with the intended listing then. */
  lemma LastSampleAsWrittenNumbering(words: seq<string>)
    ensures |words| == 0 || |words| >= SampleSize ==> LastSampleAsWritten(words) == LastSample(words)
    ensures NumberedCorrectly(LastSampleAsWritten(words), words) <==> |words| == 0 || |words| >= SampleSize
  {
    var r := LastSampleAsWritten(words);
    if 0 < |words| < SampleSize {
      assert r[0].index == |words| - (SampleSize - 1) < 1;
    }
  }

  /** With three words the as-written listing numbers them -16, -15, -14
      instead of 1, 2, 3. */
  lemma LastSampleThreeWords(a: string, b: string, c: string)
    ensures LastSampleAsWritten([a, b, c]) ==
      [Numbered(-16, a), Numbered(-15, b), Numbered(-14, c)]
    ensures LastSample([a, b, c]) ==
      [Numbered(1, a), Numbered(2, b), Numbered(3, c)]
  {
    assert [a, b, c][0..] == [a, b, c];
  }

  /** With 25 words the first listing shows positions 1 to 20 and the last
      listing positions 6 to 25, fifteen of them in both. */
  lemma LastSampleOfTwentyFive(words: seq<string>)
    requires |words| == 25
    ensures |FirstSample(words)| == SampleSize && |LastSampleAsWritten(words)| == SampleSize
    ensures forall k :: 0 <= k < SampleSize ==> FirstSample(words)[k] == Numbered(k + 1, words[k])
    ensures forall k :: 0 <= k < SampleSize ==> LastSampleAsWritten(words)[k] == Numbered(k + 6, words[k + 5])
  {
  }

  /** Normalised words hold no newline, so each is one line of the file. */
  lemma WordsHaveNoNewline(words: seq<string>)
    requires forall i :: 0 <= i < |words| ==> IsWord(words[i])
    ensures forall i :: 0 <= i < |words| ==> '\n' !in words[i]
  {
  }

  /** Everything lines 59-117 compute once the unique words are sorted:
      the file content and its size, the two distributions and the two
      listings, next to the given summary counters. */
  method Present(summary: Summary, sorted: seq<string>) returns (out: Outcome)
    requires forall i :: 0 <= i < |sorted| ==> IsWord(sorted[i])
    ensures out.summary == summary && out.sorted == sorted
    ensures out.content == Serialize(sorted)
    ensures Parse(out.content) == sorted
    ensures out.size == |out.content|
    ensures out.size == TotalLength(sorted) + |sorted|
    ensures out.lengthRows == ShownLengthRows(sorted)
    ensures |out.lengthRows| <= MaxLengthRows
    ensures forall i :: 0 <= i < |out.lengthRows| ==> out.lengthRows[i].key >= MinWordLength
    ensures forall i :: 0 <= i < |out.lengthRows| ==> out.lengthRows[i].bar <= MaxBar
    ensures Total(LengthDistribution(sorted)) == |sorted|
    ensures forall i :: 0 <= i < |sorted| ==> |sorted[i]| > 0
    ensures out.letterRows == LetterDistribution(sorted)
    ensures Total(out.letterRows) == |sorted|
    ensures forall c :: c in Keys(out.letterRows) ==> IsLower(c)
    ensures out.firstSample == FirstSample(sorted)
    ensures out.lastSample == LastSampleAsWritten(sorted)
    ensures NumberedCorrectly(out.firstSample, sorted)
    ensures NumberedCorrectly(out.lastSample, sorted) <==> |sorted| == 0 || |sorted| >= SampleSize
    ensures |sorted| == 0 || |sorted| >= SampleSize ==> out.lastSample == LastSample(sorted)
  {
    WordsHaveNoNewline(sorted);
    var content := Serialize(sorted);
    ParseSerialize(sorted);
    SerializedSize(sorted);
    LengthKeysAtLeastTwo(sorted);
    LetterKeysAreLower(sorted);
    LastSampleAsWrittenNumbering(sorted);
    out := Outcome(summary, sorted, content, |content|, ShownLengthRows(sorted),
                   LetterDistribution(sorted), FirstSample(sorted),
                   LastSampleAsWritten(sorted));
  }

  /** One run of `merge_files` over the given files, the write assumed to
      succeed: the merge of lines 14-44, then the report of the sorted
      unique words. */
  method MergeWordLists(files: seq<InputFile>) returns (out: Outcome)
    ensures out.summary.filesProcessed == PresentCount(files)
    ensures out.summary.totalWords == |AllAccepted(files)|
    ensures out.summary.uniqueWords == |out.sorted|
    ensures out.summary.duplicatesRemoved == out.summary.totalWords - out.summary.uniqueWords
    ensures out.summary.duplicatesRemoved >= 0
    ensures StrictlySorted(out.sorted)
    ensures forall w :: w in out.sorted <==> w in AllAccepted(files)
    ensures forall i :: 0 <= i < |out.sorted| ==> IsWord(out.sorted[i])
    ensures out.content == Serialize(out.sorted)
    ensures Parse(out.content) == out.sorted
    ensures out.size == |out.content|
    ensures out.size == TotalLength(out.sorted) + |out.sorted|
    ensures out.lengthRows == ShownLengthRows(out.sorted)
    ensures |out.lengthRows| <= MaxLengthRows
    ensures forall i :: 0 <= i < |out.lengthRows| ==> out.lengthRows[i].key >= MinWordLength
    ensures forall i :: 0 <= i < |out.lengthRows| ==> out.lengthRows[i].bar <= MaxBar
    ensures Total(LengthDistribution(out.sorted)) == |out.sorted|
    ensures forall i :: 0 <= i < |out.sorted| ==> |out.sorted[i]| > 0
    ensures out.letterRows == LetterDistribution(out.sorted)
    ensures Total(out.letterRows) == |out.sorted|
    ensures forall c :: c in Keys(out.letterRows) ==> IsLower(c)
    ensures out.firstSample == FirstSample(out.sorted)
    ensures out.lastSample == LastSampleAsWritten(out.sorted)
    ensures NumberedCorrectly(out.firstSample, out.sorted)
  {
    var merged := MergeFiles(files);
    var sorted := SortWords(merged.unique);
    assert forall i :: 0 <= i < |sorted| ==> IsWord(sorted[i]) by {
      assert forall i :: 0 <= i < |sorted| ==> sorted[i] in sorted;
    }
    var summary := Summary(merged.filesProcessed, merged.totalWords, |sorted|,
                           merged.totalWords - |sorted|);
    out := Present(summary, sorted);
  }
}
