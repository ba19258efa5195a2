/** The output file (merge_wordlists.py:62-64, 67): one word per line,
    each followed by a newline, and its size in bytes. */
module Output {

  /** The file content lines 63-64 write: `word + '\n'` for every word. */
  function Serialize(words: seq<string>): (content: string)
    ensures |words| == 0 <==> content == ""
    ensures |words| > 0 ==> content[|content| - 1] == '\n'
  {
    if |words| == 0 then "" else words[0] + "\n" + Serialize(words[1..])
  }

  /** `content.split('\n')`: the pieces between newlines, never fewer
      than one. */
  function SplitLines(content: string): (pieces: seq<string>)
    ensures |pieces| == multiset(content)['\n'] + 1
    ensures forall i :: 0 <= i < |pieces| ==> '\n' !in pieces[i]
  {
    if |content| == 0 then
      [""]
    else
      var rest := SplitLines(content[1..]);
      assert content == [content[0]] + content[1..];
      if content[0] == '\n' then
        [""] + rest
      else
        [[content[0]] + rest[0]] + rest[1..]
  }

  /** Reading the file back: split on newlines and drop the empty piece
      after the final newline. */
  function Parse(content: string): seq<string> {
    var pieces := SplitLines(content);
    if pieces[|pieces| - 1] == "" then pieces[..|pieces| - 1] else pieces
  }

  /** The pieces joined back with newlines between them. */
  function JoinLines(pieces: seq<string>): string
    requires |pieces| > 0
  {
    if |pieces| == 1 then pieces[0] else pieces[0] + "\n" + JoinLines(pieces[1..])
  }

  /** The summed lengths of some words. */
  function TotalLength(words: seq<string>): nat {
    if |words| == 0 then 0 else |words[0]| + TotalLength(words[1..])
  }

  /** Splitting undoes joining, and joining undoes splitting. */
  lemma {:induction false} JoinSplit(content: string)
    ensures JoinLines(SplitLines(content)) == content
  {
    if |content| > 0 {
      JoinSplit(content[1..]);
      var rest := SplitLines(content[1..]);
      if content[0] == '\n' {
        assert SplitLines(content)[1..] == rest;
      } else {
        var pieces := SplitLines(content);
        assert pieces[1..] == rest[1..];
        if |rest| > 1 {
          assert JoinLines(rest) == rest[0] + "\n" + JoinLines(rest[1..]);
        }
      }
    }
  }

  /** A line without a newline, a newline, and whatever follows split into
      that line and the pieces of what follows. */
  lemma {:induction false} SplitAfterLine(w: string, rest: string)
    requires '\n' !in w
    ensures SplitLines(w + "\n" + rest) == [w] + SplitLines(rest)
  {
    if |w| == 0 {
      assert w + "\n" + rest == "\n" + rest;
      assert ("\n" + rest)[1..] == rest;
    } else {
      assert (w + "\n" + rest)[1..] == w[1..] + "\n" + rest;
      SplitAfterLine(w[1..], rest);
      assert [w[0]] + w[1..] == w;
    }
  }

  lemma {:induction false} SplitSerialized(words: seq<string>)
    requires forall i :: 0 <= i < |words| ==> '\n' !in words[i]
    ensures SplitLines(Serialize(words)) == words + [""]
  {
    if |words| > 0 {
      SplitSerialized(words[1..]);
      SplitAfterLine(words[0], Serialize(words[1..]));
    }
  }

  /** Reading the written file back gives the words that were written. */
  lemma ParseSerialize(words: seq<string>)
    requires forall i :: 0 <= i < |words| ==> '\n' !in words[i]
    ensures Parse(Serialize(words)) == words
  {
    SplitSerialized(words);
    assert (words + [""])[..|words|] == words;
  }

  /** The file holds every word's letters plus one newline per word; with
      ASCII-only words each character is one byte of the size read at
      line 67. */
  lemma {:induction false} SerializedSize(words: seq<string>)
    ensures |Serialize(words)| == TotalLength(words) + |words|
  {
    if |words| > 0 {
      SerializedSize(words[1..]);
    }
  }
}
