/** `sorted(unique_words)` (merge_wordlists.py:57): the unique-word set
    turned into a sequence in ascending lexicographic order. */
module Sorting {
  import opened LexOrder

  /** Puts `w` into its place in a strictly sorted sequence that does not
      yet hold it. */
  function Insert(s: seq<string>, w: string): (r: seq<string>)
    requires StrictlySorted(s)
    requires w !in s
    ensures StrictlySorted(r)
    ensures |r| == |s| + 1
    ensures forall x :: x in r <==> x in s || x == w
    ensures |r| > 0 && (r[0] == w || (|s| > 0 && r[0] == s[0]))
  {
    if |s| == 0 then
      [w]
    else if Less(w, s[0]) then
      PrependSorted(w, s);
      [w] + s
    else
      LessTotal(w, s[0]);
      var rest := Insert(s[1..], w);
      PrependSorted(s[0], s[1..]);
      PrependSorted(s[0], rest);
      [s[0]] + rest
  }

  /** The set's words, each once, in strictly ascending order. */
  method SortWords(words: set<string>) returns (r: seq<string>)
    ensures StrictlySorted(r)
    ensures forall w :: w in r <==> w in words
    ensures |r| == |words|
  {
    r := [];
    var rest := words;
    while rest != {}
      invariant rest <= words
      invariant StrictlySorted(r)
      invariant forall w :: w in r <==> w in words && w !in rest
      invariant |r| + |rest| == |words|
      decreases rest
    {
      var w :| w in rest;
      r := Insert(r, w);
      rest := rest - {w};
    }
  }
}
