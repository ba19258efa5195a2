/** The loop of `merge_files` (merge_wordlists.py:14-44): every input file
    in order, every line of it normalised, accepted words added to the
    unique-word set, and the counters `files_processed`, `words_in_file`
    and `total_words_processed` kept. */
module Merge {
  import opened Wrappers
  import opened Normalize

  /** An input file as the loop sees it: `None` when the path does not
      exist, otherwise the lines it delivered. A file whose read fails part
      way through is the prefix of lines delivered before the failure. */
  type InputFile = Option<seq<string>>

  /** The state the loop leaves behind. `wordsPerFile` holds one
      `words_in_file` count per processed file, in order. */
  datatype MergeResult = MergeResult(
    unique: set<string>,
    filesProcessed: nat,
    totalWords: nat,
    wordsPerFile: seq<nat>)

  /** The accepted words of some lines, in order and with repeats. */
  function AcceptedWords(lines: seq<string>): (ws: seq<string>)
    ensures |ws| <= |lines|
    ensures forall w :: w in ws ==> IsWord(w)
  {
    if |lines| == 0 then []
    else
      var ws := AcceptedWords(lines[..|lines| - 1]);
      match Accept(lines[|lines| - 1])
      case Some(w) => ws + [w]
      case None => ws
  }

  /** The accepted words of every existing file, in reading order. */
  function AllAccepted(files: seq<InputFile>): seq<string> {
    if |files| == 0 then []
    else
      AllAccepted(files[..|files| - 1]) +
      match files[|files| - 1]
      case Some(lines) => AcceptedWords(lines)
      case None => []
  }

  /** How many of the files exist. */
  function PresentCount(files: seq<InputFile>): nat {
    if |files| == 0 then 0
    else PresentCount(files[..|files| - 1]) + (if files[|files| - 1].Some? then 1 else 0)
  }

  /** The accepted-word count of every existing file, in order. */
  function WordCounts(files: seq<InputFile>): seq<nat> {
    if |files| == 0 then []
    else
      WordCounts(files[..|files| - 1]) +
      match files[|files| - 1]
      case Some(lines) => [|AcceptedWords(lines)|]
      case None => []
  }

  function Sum(s: seq<nat>): nat {
    if |s| == 0 then 0 else Sum(s[..|s| - 1]) + s[|s| - 1]
  }

  function SetOf(s: seq<string>): set<string> {
    set w | w in s
  }

  /** Some line of some existing file is accepted as `w`. */
  ghost predicate Contributes(files: seq<InputFile>, w: string) {
    exists i, j :: 0 <= i < |files| && files[i].Some? && 0 <= j < |files[i].value|
                   && Accept(files[i].value[j]) == Some(w)
  }

  /** Some line is accepted as `w` exactly when some line before the last
      is, or the last one is. */
  lemma YieldsSplit(lines: seq<string>, init: seq<string>, w: string)
    requires |lines| > 0 && init == lines[..|lines| - 1]
    ensures (exists j :: 0 <= j < |lines| && Accept(lines[j]) == Some(w)) <==>
            (exists j :: 0 <= j < |init| && Accept(init[j]) == Some(w))
            || Accept(lines[|lines| - 1]) == Some(w)
  {
    if exists j :: 0 <= j < |lines| && Accept(lines[j]) == Some(w) {
      var j :| 0 <= j < |lines| && Accept(lines[j]) == Some(w);
      if j < |lines| - 1 {
        assert init[j] == lines[j];
      }
    }
    if exists j :: 0 <= j < |init| && Accept(init[j]) == Some(w) {
      var j :| 0 <= j < |init| && Accept(init[j]) == Some(w);
      assert lines[j] == init[j];
    }
  }

  lemma {:induction false} InAcceptedWords(lines: seq<string>, w: string)
    ensures w in AcceptedWords(lines) <==> exists j :: 0 <= j < |lines| && Accept(lines[j]) == Some(w)
  {
    if |lines| > 0 {
      InAcceptedWords(lines[..|lines| - 1], w);
      YieldsSplit(lines, lines[..|lines| - 1], w);
    }
  }

  /** The words the loop collects are exactly the words some line of some
      existing file is accepted as. */
  lemma {:induction false} InAllAccepted(files: seq<InputFile>, w: string)
    ensures w in AllAccepted(files) <==> Contributes(files, w)
  {
    if |files| > 0 {
      var init := files[..|files| - 1];
      var last := files[|files| - 1];
      InAllAccepted(init, w);
      if last.Some? {
        InAcceptedWords(last.value, w);
      }
      if Contributes(files, w) {
        var i, j :| 0 <= i < |files| && files[i].Some? && 0 <= j < |files[i].value|
                    && Accept(files[i].value[j]) == Some(w);
        if i < |files| - 1 {
          assert init[i] == files[i];
        }
      }
      if Contributes(init, w) {
        var i, j :| 0 <= i < |init| && init[i].Some? && 0 <= j < |init[i].value|
                    && Accept(init[i].value[j]) == Some(w);
        assert files[i] == init[i];
      }
    }
  }

  /** The total is the sum of the per-file counts. */
  lemma {:induction false} SumOfWordCounts(files: seq<InputFile>)
    ensures Sum(WordCounts(files)) == |AllAccepted(files)|
    ensures |WordCounts(files)| == PresentCount(files)
  {
    if |files| > 0 {
      var init := files[..|files| - 1];
      SumOfWordCounts(init);
      var counts := WordCounts(files);
      if files[|files| - 1].Some? {
        assert counts[..|counts| - 1] == WordCounts(init);
      } else {
        assert counts == WordCounts(init);
      }
    }
  }

  /** A sequence has no more distinct elements than it has elements. */
  lemma {:induction false} SetOfSize(s: seq<string>)
    ensures |SetOf(s)| <= |s|
  {
    if |s| > 0 {
      var init := s[..|s| - 1];
      SetOfSize(init);
      assert SetOf(s) == SetOf(init) + {s[|s| - 1]};
    }
  }

  lemma SetOfAppend(a: seq<string>, b: seq<string>)
    ensures SetOf(a + b) == SetOf(a) + SetOf(b)
  {
  }

  lemma SetOfSnoc(a: seq<string>, w: string)
    ensures SetOf(a + [w]) == SetOf(a) + {w}
  {
  }

  lemma AcceptedWordsStep(lines: seq<string>, j: nat)
    requires j < |lines|
    ensures AcceptedWords(lines[..j + 1]) ==
      AcceptedWords(lines[..j]) + (if Accept(lines[j]).Some? then [Accept(lines[j]).value] else [])
  {
    assert lines[..j + 1][..j] == lines[..j];
  }

  /** The inner loop of lines 25-36 over one file's lines: the accepted
      words join `unique` and are counted as `words_in_file`. */
  method MergeLines(unique: set<string>, lines: seq<string>) returns (unique': set<string>, inFile: nat)
    ensures unique' == unique + SetOf(AcceptedWords(lines))
    ensures inFile == |AcceptedWords(lines)|
  {
    unique' := unique;
    inFile := 0;
    var j := 0;
    assert SetOf(AcceptedWords(lines[..0])) == {};
    while j < |lines|
      invariant 0 <= j <= |lines|
      invariant unique' == unique + SetOf(AcceptedWords(lines[..j]))
      invariant inFile == |AcceptedWords(lines[..j])|
    {
      ghost var before := AcceptedWords(lines[..j]);
      var accepted := Accept(lines[j]);
      AcceptedWordsStep(lines, j);
      if accepted.Some? {
        SetOfSnoc(before, accepted.value);
        unique' := unique' + {accepted.value};
        inFile := inFile + 1;
      }
      j := j + 1;
    }
    assert lines[..j] == lines;
  }

  /** The loop of lines 14-44. */
  method MergeFiles(files: seq<InputFile>) returns (r: MergeResult)
    ensures r.unique == SetOf(AllAccepted(files))
    ensures forall w :: w in r.unique <==> Contributes(files, w)
    ensures forall w :: w in r.unique ==> IsWord(w)
    ensures r.totalWords == |AllAccepted(files)|
    ensures r.filesProcessed == PresentCount(files)
    ensures r.wordsPerFile == WordCounts(files)
    ensures |r.wordsPerFile| == r.filesProcessed
    ensures Sum(r.wordsPerFile) == r.totalWords
    ensures |r.unique| <= r.totalWords
  {
    var unique: set<string> := {};
    var total: nat := 0;
    var processed: nat := 0;
    var perFile: seq<nat> := [];
    var i := 0;
    while i < |files|
      invariant 0 <= i <= |files|
      invariant unique == SetOf(AllAccepted(files[..i]))
      invariant total == |AllAccepted(files[..i])|
      invariant processed == PresentCount(files[..i])
      invariant perFile == WordCounts(files[..i])
    {
      assert files[..i + 1][..i] == files[..i];
      match files[i] {
        case None =>
          // the warning of line 16: the file is skipped
        case Some(lines) =>
          processed := processed + 1;
          var inFile;
          unique, inFile := MergeLines(unique, lines);
          SetOfAppend(AllAccepted(files[..i]), AcceptedWords(lines));
          total := total + inFile;
          perFile := perFile + [inFile];
      }
      i := i + 1;
    }
    assert files[..i] == files;
    forall w
      ensures w in unique <==> Contributes(files, w)
    {
      InAllAccepted(files, w);
    }
    SumOfWordCounts(files);
    SetOfSize(AllAccepted(files));
    r := MergeResult(unique, processed, total, perFile);
  }
}
