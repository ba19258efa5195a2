/** Small worked cases of the normalisation and of the sorted output. */
module Scenarios {
  import opened Wrappers
  import opened Normalize
  import opened LexOrder
  import opened Output

  /** A one-letter line is rejected even though it is a letter; a
      capitalised word is lowered and kept. */
  lemma AcceptExamples()
    ensures Accept("A") == None
    ensures Accept("Cat") == Some("cat")
  {
    assert Letters("A") == "a";
    assert Letters("Cat") == "cat";
  }

  /** Whatever order the set of words comes out in, sorting `cat` and
      `dog` writes the file `cat\ndog\n`. */
  lemma SortedCatDog(sorted: seq<string>)
    requires StrictlySorted(sorted)
    requires forall w :: w in sorted <==> w in ["cat", "dog"]
    ensures sorted == ["cat", "dog"]
    ensures Serialize(sorted) == "cat\ndog\n"
  {
    assert Less("cat", "dog");
    SortedIsUnique(sorted, ["cat", "dog"]);
  }
}
