/** Turning one raw line of a word-list file into a candidate word
    (merge_wordlists.py:27-33): strip surrounding whitespace, lowercase,
    delete every character outside `a`-`z`, and accept the result only if
    it has at least two letters and is alphabetic. */
module Normalize {
  import opened Wrappers

  /** The shortest word that is kept. */
  const MinWordLength := 2

  /** The characters Python's `str.strip()` removes (those for which
      `str.isspace()` holds). */
  predicate IsSpace(c: char) {
    || c == ' '
    || '\t' <= c <= '\r'
    || '\U{1C}' <= c <= '\U{1F}'
    || c == '\U{85}'
    || c == '\U{A0}'
    || c == '\U{1680}'
    || '\U{2000}' <= c <= '\U{200A}'
    || c == '\U{2028}'
    || c == '\U{2029}'
    || c == '\U{202F}'
    || c == '\U{205F}'
    || c == '\U{3000}'
  }

  predicate IsLower(c: char) {
    'a' <= c <= 'z'
  }

  predicate IsUpper(c: char) {
    'A' <= c <= 'Z'
  }

  /** A normalised word: only `a`-`z`, at least two of them. */
  predicate IsWord(w: string) {
    |w| >= MinWordLength && forall i :: 0 <= i < |w| ==> IsLower(w[i])
  }

  /** `str.isalpha()`: non-empty and every character a letter. Letters are
      taken to be the ASCII ones; the predicate is only ever applied to text
      that has already been reduced to `a`-`z`. */
  predicate IsAlpha(s: string) {
    |s| > 0 && forall i :: 0 <= i < |s| ==> IsLower(s[i]) || IsUpper(s[i])
  }

  /** `str.lower()` on one character, restricted to ASCII. */
  function LowerChar(c: char): (r: char)
    ensures IsLower(r) <==> IsLower(c) || IsUpper(c)
    ensures IsUpper(c) ==> r as int - 'a' as int == c as int - 'A' as int
    ensures !IsUpper(c) ==> r == c
  {
    if IsUpper(c) then (c as int - 'A' as int + 'a' as int) as char else c
  }

  function LowerAll(s: string): (r: string)
    ensures |r| == |s|
    ensures forall i :: 0 <= i < |s| ==> r[i] == LowerChar(s[i])
  {
    seq(|s|, i requires 0 <= i < |s| => LowerChar(s[i]))
  }

  /** Leading whitespace removed: the result is the suffix of `s` that
      starts at its first non-space character. */
  function StripLeading(s: string): (r: string)
    ensures |r| <= |s| && r == s[|s| - |r|..]
    ensures forall i :: 0 <= i < |s| - |r| ==> IsSpace(s[i])
    ensures |r| > 0 ==> !IsSpace(r[0])
  {
    if |s| > 0 && IsSpace(s[0]) then StripLeading(s[1..]) else s
  }

  /** Trailing whitespace removed: the result is the prefix of `s` that
      ends at its last non-space character. */
  function StripTrailing(s: string): (r: string)
    ensures |r| <= |s| && r == s[..|r|]
    ensures forall i :: |r| <= i < |s| ==> IsSpace(s[i])
    ensures |r| > 0 ==> !IsSpace(r[|r| - 1])
  {
    if |s| > 0 && IsSpace(s[|s| - 1]) then StripTrailing(s[..|s| - 1]) else s
  }

  /** `str.strip()`. */
  function Strip(s: string): string {
    StripTrailing(StripLeading(s))
  }

  /** `re.sub(r'[^a-z]', '', s)`: every character outside `a`-`z` deleted. */
  function KeepLetters(s: string): (r: string)
    ensures |r| <= |s|
    ensures forall i :: 0 <= i < |r| ==> IsLower(r[i])
    ensures (forall i :: 0 <= i < |s| ==> IsLower(s[i])) ==> r == s
  {
    if |s| == 0 then ""
    else (if IsLower(s[0]) then [s[0]] else "") + KeepLetters(s[1..])
  }

  /** The cleaned line exactly as line 27 and line 30 compute it. */
  function Clean(line: string): string {
    KeepLetters(LowerAll(Strip(line)))
  }

  /** Reference reading of the normaliser, one character at a time: an
      ASCII lower-case letter is kept, an ASCII upper-case letter is kept
      lowered, anything else is dropped. */
  function Letters(s: string): string {
    if |s| == 0 then ""
    else
      (if IsLower(s[0]) then [s[0]]
       else if IsUpper(s[0]) then [LowerChar(s[0])]
       else "")
      + Letters(s[1..])
  }

  /** The acceptance test of line 33 applied to the cleaned line. */
  function Accept(line: string): (r: Option<string>)
    ensures r.Some? <==> |Letters(line)| >= MinWordLength
    ensures r.Some? ==> r.value == Letters(line) && IsWord(r.value)
  {
    CleanIsLetters(line);
    var clean := Clean(line);
    if |clean| >= MinWordLength && IsAlpha(clean) then Some(clean) else None
  }

  lemma {:induction false} KeepLettersAppend(a: string, b: string)
    ensures KeepLetters(a + b) == KeepLetters(a) + KeepLetters(b)
  {
    if |a| == 0 {
      assert a + b == b;
    } else {
      assert (a + b)[1..] == a[1..] + b;
      KeepLettersAppend(a[1..], b);
    }
  }

  lemma LowerAllAppend(a: string, b: string)
    ensures LowerAll(a + b) == LowerAll(a) + LowerAll(b)
  {
  }

  /** Whitespace never survives the letter filter. */
  lemma {:induction false} KeepLettersOfSpaces(s: string)
    requires forall i :: 0 <= i < |s| ==> IsSpace(s[i])
    ensures KeepLetters(LowerAll(s)) == ""
  {
    if |s| > 0 {
      assert LowerAll(s)[1..] == LowerAll(s[1..]);
      KeepLettersOfSpaces(s[1..]);
    }
  }

  /** Lowering then filtering is the one-pass reference reading. */
  lemma {:induction false} KeepLettersLowerIsLetters(s: string)
    ensures KeepLetters(LowerAll(s)) == Letters(s)
  {
    if |s| > 0 {
      assert LowerAll(s)[1..] == LowerAll(s[1..]);
      KeepLettersLowerIsLetters(s[1..]);
    }
  }

  /** Whitespace next to a text changes nothing the filter keeps. */
  lemma SpacesAreFiltered(sp: string, t: string)
    requires forall i :: 0 <= i < |sp| ==> IsSpace(sp[i])
    ensures KeepLetters(LowerAll(sp + t)) == KeepLetters(LowerAll(t))
    ensures KeepLetters(LowerAll(t + sp)) == KeepLetters(LowerAll(t))
  {
    KeepLettersOfSpaces(sp);
    LowerAllAppend(sp, t);
    KeepLettersAppend(LowerAll(sp), LowerAll(t));
    LowerAllAppend(t, sp);
    KeepLettersAppend(LowerAll(t), LowerAll(sp));
  }

  lemma StripLeadingIsRedundant(s: string)
    ensures KeepLetters(LowerAll(StripLeading(s))) == KeepLetters(LowerAll(s))
  {
    var lead := StripLeading(s);
    var sp := s[..|s| - |lead|];
    assert s == sp + lead;
    SpacesAreFiltered(sp, lead);
  }

  lemma StripTrailingIsRedundant(s: string)
    ensures KeepLetters(LowerAll(StripTrailing(s))) == KeepLetters(LowerAll(s))
  {
    var trail := StripTrailing(s);
    var sp := s[|trail|..];
    assert s == trail + sp;
    SpacesAreFiltered(sp, trail);
  }

  /** The `strip()` of line 27 changes nothing the letter filter keeps. */
  lemma StripIsRedundant(line: string)
    ensures Clean(line) == KeepLetters(LowerAll(line))
  {
    StripTrailingIsRedundant(StripLeading(line));
    StripLeadingIsRedundant(line);
  }

  /** The three steps of lines 27 and 30 compute the reference reading. */
  lemma CleanIsLetters(line: string)
    ensures Clean(line) == Letters(line)
  {
    StripIsRedundant(line);
    KeepLettersLowerIsLetters(line);
  }

  /** The `isalpha()` test of line 33 never rejects a line the length test
      accepts, and neither does `strip()` change the outcome: acceptance is
      the length test on the filtered, lowered line alone. */
  lemma AcceptNeedsOnlyLength(line: string)
    ensures Accept(line) ==
      (var c := KeepLetters(LowerAll(line)); if |c| >= MinWordLength then Some(c) else None)
  {
    StripIsRedundant(line);
  }

  /** A normalised word is left as it is by the normaliser. */
  lemma {:induction false} LettersOfWord(w: string)
    requires forall i :: 0 <= i < |w| ==> IsLower(w[i])
    ensures Letters(w) == w
  {
    if |w| > 0 {
      LettersOfWord(w[1..]);
      assert w == [w[0]] + w[1..];
    }
  }

  /** Normalisation is idempotent: an accepted word is accepted again,
      unchanged, and every normalised word is accepted as itself. */
  lemma AcceptIdempotent(line: string, w: string)
    requires Accept(line) == Some(w) || IsWord(w)
    ensures Accept(w) == Some(w)
  {
    LettersOfWord(w);
  }
}
