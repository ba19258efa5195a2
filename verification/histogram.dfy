/** The word-length and first-letter distributions printed after a
    successful write (merge_wordlists.py:82-105): a count per key, the
    keys in ascending order, and a bar whose length is the percentage of
    all unique words, scaled, truncated and capped at 50. */
module Histogram {
  import opened Normalize

  /** The longest bar printed. */
  const MaxBar := 50
  /** Only the first 20 lengths are printed (line 87). */
  const MaxLengthRows := 20
  /** A length bar is twice the percentage (line 90), a letter bar the
      percentage itself (line 104). */
  const LengthScale := 200
  const LetterScale := 100
  /** The largest code point a `char` can hold. */
  const MaxCodePoint := 0x10FFFF

  /** One printed line: the key, its count and the bar length. */
  datatype Row<K> = Row(key: K, count: nat, bar: nat)

  /** The dictionary lines 83-85 and 97-99 build: `d[k] = d.get(k, 0) + 1`
      for every key in order. Each key present maps to how often it
      occurs. */
  function Tally<K(!new)>(xs: seq<K>): (m: map<K, nat>)
    ensures forall k :: k in m <==> k in xs
    ensures forall k :: k in m ==> m[k] == multiset(xs)[k]
  {
    if |xs| == 0 then map[]
    else
      var m := Tally(xs[..|xs| - 1]);
      var k := xs[|xs| - 1];
      assert xs == xs[..|xs| - 1] + [k];
      m[k := (if k in m then m[k] else 0) + 1]
  }

  /** `min(50, int(count / n * 100 * scale / 100))` in exact arithmetic:
      the largest whole number of `#` not above the scaled share, capped. */
  function Bar(count: nat, n: nat, scale: nat): (b: nat)
    requires n > 0
    ensures b <= MaxBar
    ensures b < MaxBar ==> b * n <= count * scale < (b + 1) * n
    ensures b == MaxBar ==> MaxBar * n <= count * scale
  {
    var q := count * scale / n;
    if q < MaxBar then q else MaxBar
  }

  /** The members of `ks` in `[lo, hi)`, smallest first. */
  function AscendingIn(ks: set<int>, lo: int, hi: int): (r: seq<int>)
    ensures forall i, j :: 0 <= i < j < |r| ==> r[i] < r[j]
    ensures forall k :: k in r <==> k in ks && lo <= k < hi
    decreases hi - lo
  {
    if lo >= hi then []
    else
      var rest := AscendingIn(ks, lo + 1, hi);
      assert forall j :: 0 <= j < |rest| ==> rest[j] in rest;
      (if lo in ks then [lo] else []) + rest
  }

  function MakeRows<K>(m: map<K, nat>, keys: seq<K>, n: nat, scale: nat): (rows: seq<Row<K>>)
    requires forall i :: 0 <= i < |keys| ==> keys[i] in m
    requires |keys| == 0 || n > 0
    ensures |rows| == |keys|
    ensures forall i :: 0 <= i < |rows| ==>
      rows[i].key == keys[i] && rows[i].count == m[keys[i]] && rows[i].bar == Bar(m[keys[i]], n, scale)
  {
    seq(|keys|, i requires 0 <= i < |keys| => Row(keys[i], m[keys[i]], Bar(m[keys[i]], n, scale)))
  }

  function Keys<K>(rows: seq<Row<K>>): (ks: seq<K>)
    ensures |ks| == |rows|
    ensures forall i :: 0 <= i < |rows| ==> ks[i] == rows[i].key
  {
    seq(|rows|, i requires 0 <= i < |rows| => rows[i].key)
  }

  /** The sum of the counts of some rows. */
  function Total<K>(rows: seq<Row<K>>): nat {
    if |rows| == 0 then 0 else rows[0].count + Total(rows[1..])
  }

  /** The summed multiplicities in `ms` of the keys `ks`. */
  function SumCounts<K>(ms: multiset<K>, ks: seq<K>): nat {
    if |ks| == 0 then 0 else ms[ks[0]] + SumCounts(ms, ks[1..])
  }

  function Lengths(words: seq<string>): (ls: seq<int>)
    ensures |ls| == |words|
    ensures forall i :: 0 <= i < |words| ==> ls[i] == |words[i]|
  {
    seq(|words|, i requires 0 <= i < |words| => |words[i]|)
  }

  function FirstLetters(words: seq<string>): (cs: seq<char>)
    requires forall i :: 0 <= i < |words| ==> |words[i]| > 0
    ensures |cs| == |words|
    ensures forall i :: 0 <= i < |words| ==> cs[i] == words[i][0]
  {
    seq(|words|, i requires 0 <= i < |words| => words[i][0])
  }

  function MaxLength(words: seq<string>): (r: nat)
    ensures forall i :: 0 <= i < |words| ==> |words[i]| <= r
  {
    if |words| == 0 then 0
    else
      var rest := MaxLength(words[1..]);
      if |words[0]| > rest then |words[0]| else rest
  }

  lemma {:induction false} SumCountsAdd<K>(a: multiset<K>, b: multiset<K>, ks: seq<K>)
    ensures SumCounts(a + b, ks) == SumCounts(a, ks) + SumCounts(b, ks)
  {
    if |ks| > 0 {
      SumCountsAdd(a, b, ks[1..]);
    }
  }

  lemma {:induction false} SumCountsOfNothing<K>(ks: seq<K>)
    ensures SumCounts(multiset{}, ks) == 0
  {
    if |ks| > 0 {
      SumCountsOfNothing(ks[1..]);
    }
  }

  /** One occurrence of a key that appears once in `ks` adds one. */
  lemma {:induction false} SumCountsSingle<K>(x: K, ks: seq<K>)
    requires forall i, j :: 0 <= i < j < |ks| ==> ks[i] != ks[j]
    ensures SumCounts(multiset{x}, ks) == if x in ks then 1 else 0
  {
    if |ks| > 0 {
      SumCountsSingle(x, ks[1..]);
      if x == ks[0] {
        assert x !in ks[1..];
      }
    }
  }

  /** Every occurrence is counted once when the keys are distinct and
      cover all of `xs`. */
  lemma {:induction false} SumCountsCovers<K>(xs: seq<K>, ks: seq<K>)
    requires forall i, j :: 0 <= i < j < |ks| ==> ks[i] != ks[j]
    requires forall x :: x in xs ==> x in ks
    ensures SumCounts(multiset(xs), ks) == |xs|
  {
    if |xs| == 0 {
      SumCountsOfNothing(ks);
    } else {
      var init := xs[..|xs| - 1];
      var x := xs[|xs| - 1];
      assert xs == init + [x];
      assert multiset(xs) == multiset(init) + multiset{x};
      assert x in ks;
      SumCountsCovers(init, ks);
      SumCountsAdd(multiset(init), multiset{x}, ks);
      SumCountsSingle(x, ks);
      assert SumCounts(multiset(init), ks) == |init|;
      assert SumCounts(multiset{x}, ks) == 1;
      assert SumCounts(multiset(xs), ks) == |init| + 1;
    }
  }

  lemma {:induction false} TotalIsSumCounts<K>(rows: seq<Row<K>>, ms: multiset<K>)
    requires forall i :: 0 <= i < |rows| ==> rows[i].count == ms[rows[i].key]
    ensures Total(rows) == SumCounts(ms, Keys(rows))
  {
    if |rows| > 0 {
      TotalIsSumCounts(rows[1..], ms);
      assert Keys(rows)[1..] == Keys(rows[1..]);
    }
  }

  /** Rows for every key of `xs`, in the order `keys` gives, sum to the
      number of entries of `xs`. */
  lemma RowsCoverAll<K>(rows: seq<Row<K>>, xs: seq<K>)
    requires forall i, j :: 0 <= i < j < |rows| ==> rows[i].key != rows[j].key
    requires forall x :: x in xs ==> x in Keys(rows)
    requires forall i :: 0 <= i < |rows| ==> rows[i].count == multiset(xs)[rows[i].key]
    ensures Total(rows) == |xs|
  {
    TotalIsSumCounts(rows, multiset(xs));
    SumCountsCovers(xs, Keys(rows));
  }

  /** The rows of a distribution of `xs` for distinct keys covering `xs`,
      in the order `keys` gives: each counts its key's occurrences, none is
      empty, each bar is `Bar` of its count against `n`, and the counts add
      up to the number of entries. */
  function Distribution<K(==,!new)>(xs: seq<K>, keys: seq<K>, n: nat, scale: nat): (rows: seq<Row<K>>)
    requires forall x :: x in keys <==> x in xs
    requires forall i, j :: 0 <= i < j < |keys| ==> keys[i] != keys[j]
    requires |keys| == 0 || n > 0
    ensures Keys(rows) == keys
    ensures forall i :: 0 <= i < |rows| ==> rows[i].count == multiset(xs)[rows[i].key] && rows[i].count > 0
    ensures forall i :: 0 <= i < |rows| ==> rows[i].bar == Bar(rows[i].count, n, scale) && rows[i].bar <= MaxBar
    ensures Total(rows) == |xs|
  {
    assert forall i :: 0 <= i < |keys| ==> keys[i] in keys;
    var rows := MakeRows(Tally(xs), keys, n, scale);
    assert Keys(rows) == keys;
    RowsCoverAll(rows, xs);
    rows
  }

  /** The distinct word lengths, shortest first, as line 87 sorts them. */
  function LengthKeys(words: seq<string>): (keys: seq<int>)
    ensures forall i, j :: 0 <= i < j < |keys| ==> keys[i] < keys[j]
    ensures forall k :: k in keys <==> k in Lengths(words)
    ensures |keys| == 0 || |words| > 0
  {
    var lengths := Lengths(words);
    var keys := AscendingIn(Tally(lengths).Keys, 0, MaxLength(words) + 1);
    assert |keys| > 0 ==> keys[0] in keys;
    keys
  }

  /** The distinct first letters, smallest code point first, as line 101
      sorts them. */
  function LetterKeys(words: seq<string>): (keys: seq<char>)
    requires forall i :: 0 <= i < |words| ==> |words[i]| > 0
    ensures forall i, j :: 0 <= i < j < |keys| ==> keys[i] < keys[j]
    ensures forall c :: c in keys <==> c in FirstLetters(words)
    ensures |keys| == 0 || |words| > 0
  {
    var keys := AscendingChars(Tally(FirstLetters(words)).Keys);
    assert |keys| > 0 ==> keys[0] in keys;
    keys
  }

  /** The length distribution of lines 82-85 with its rows in the order of
      line 87 (before the cut to 20): one row per distinct length,
      ascending, counting the words of that length; the counts add up to
      the number of words. */
  function LengthDistribution(words: seq<string>): (rows: seq<Row<int>>)
    ensures forall i, j :: 0 <= i < j < |rows| ==> rows[i].key < rows[j].key
    ensures forall k :: k in Keys(rows) <==> k in Lengths(words)
    ensures forall i :: 0 <= i < |rows| ==> rows[i].count == multiset(Lengths(words))[rows[i].key]
    ensures forall i :: 0 <= i < |rows| ==> rows[i].count > 0
    ensures forall i :: 0 <= i < |rows| ==> rows[i].bar == Bar(rows[i].count, |words|, LengthScale)
    ensures forall i :: 0 <= i < |rows| ==> rows[i].bar <= MaxBar
    ensures Total(rows) == |words|
  {
    Distribution(Lengths(words), LengthKeys(words), |words|, LengthScale)
  }

  /** The rows line 87 prints: the first 20 rows of the length
      distribution, or all of them when there are fewer. */
  function ShownLengthRows(words: seq<string>): (shown: seq<Row<int>>)
    ensures |shown| <= MaxLengthRows
    ensures |shown| <= |LengthDistribution(words)|
    ensures |shown| == MaxLengthRows || |shown| == |LengthDistribution(words)|
    ensures forall i :: 0 <= i < |shown| ==> shown[i] == LengthDistribution(words)[i]
  {
    var rows := LengthDistribution(words);
    if |rows| <= MaxLengthRows then rows else rows[..MaxLengthRows]
  }

  /** The rows shown are the shortest lengths: every length of some word
      that has no row shown is longer than every length that has one, and
      nothing is left out unless all 20 rows are taken. */
  lemma ShownAreShortest(words: seq<string>, k: int)
    requires k in Lengths(words) && k !in Keys(ShownLengthRows(words))
    ensures |ShownLengthRows(words)| == MaxLengthRows
    ensures forall i :: 0 <= i < MaxLengthRows ==> ShownLengthRows(words)[i].key < k
  {
    var rows := LengthDistribution(words);
    var shown := ShownLengthRows(words);
    assert k in Keys(rows);
    assert forall i :: 0 <= i < |shown| ==> shown[i].key in Keys(shown);
    var j :| 0 <= j < |rows| && rows[j].key == k;
  }

  /** The integers a `char` can hold. */
  predicate IsCodePoint(k: int) {
    0 <= k < 0xD800 || 0xE000 <= k <= MaxCodePoint
  }

  lemma CodesOfChars(cs: set<char>, codes: seq<int>)
    requires forall k :: k in codes <==> k in (set c | c in cs :: c as int)
    ensures forall i :: 0 <= i < |codes| ==> IsCodePoint(codes[i]) && codes[i] as char in cs
    ensures forall c :: c in cs ==> c as int in codes
  {
    forall i | 0 <= i < |codes|
      ensures IsCodePoint(codes[i]) && codes[i] as char in cs
    {
      assert codes[i] in codes;
      var c :| c in cs && c as int == codes[i];
    }
    forall c | c in cs
      ensures c as int in codes
    {
      assert c as int in (set c | c in cs :: c as int);
    }
  }

  lemma CharsOfCodes(cs: set<char>, codes: seq<int>, r: seq<char>)
    requires forall c :: c in cs ==> c as int in codes
    requires |r| == |codes|
    requires forall i :: 0 <= i < |codes| ==> r[i] as int == codes[i]
    ensures forall c :: c in cs ==> c in r
  {
    forall c | c in cs
      ensures c in r
    {
      var i :| 0 <= i < |codes| && codes[i] == c as int;
      assert r[i] == c;
    }
  }

  /** The members of a set of characters, smallest code point first. */
  function AscendingChars(cs: set<char>): (r: seq<char>)
    ensures forall i, j :: 0 <= i < j < |r| ==> r[i] < r[j]
    ensures forall c :: c in r <==> c in cs
  {
    var codes := AscendingIn(set c | c in cs :: c as int, 0, MaxCodePoint + 1);
    CodesOfChars(cs, codes);
    var r := seq(|codes|, i requires 0 <= i < |codes| => codes[i] as char);
    CharsOfCodes(cs, codes, r);
    r
  }

  /** The first-letter distribution of lines 96-101: one row per distinct
      first character, in ascending code-point order, counting the words
      that start with it; the counts add up to the number of words. */
  function LetterDistribution(words: seq<string>): (rows: seq<Row<char>>)
    requires forall i :: 0 <= i < |words| ==> |words[i]| > 0
    ensures forall i, j :: 0 <= i < j < |rows| ==> rows[i].key < rows[j].key
    ensures forall c :: c in Keys(rows) <==> c in FirstLetters(words)
    ensures forall i :: 0 <= i < |rows| ==> rows[i].count == multiset(FirstLetters(words))[rows[i].key]
    ensures forall i :: 0 <= i < |rows| ==> rows[i].count > 0
    ensures forall i :: 0 <= i < |rows| ==> rows[i].bar == Bar(rows[i].count, |words|, LetterScale)
    ensures forall i :: 0 <= i < |rows| ==> rows[i].bar <= MaxBar
    ensures Total(rows) == |words|
  {
    Distribution(FirstLetters(words), LetterKeys(words), |words|, LetterScale)
  }

  /** For normalised words every length row is at least 2. */
  lemma LengthKeysAtLeastTwo(words: seq<string>)
    requires forall i :: 0 <= i < |words| ==> IsWord(words[i])
    ensures forall i :: 0 <= i < |LengthDistribution(words)| ==> LengthDistribution(words)[i].key >= MinWordLength
    ensures forall i :: 0 <= i < |ShownLengthRows(words)| ==> ShownLengthRows(words)[i].key >= MinWordLength
  {
    var rows := LengthDistribution(words);
    forall i | 0 <= i < |rows|
      ensures rows[i].key >= MinWordLength
    {
      assert rows[i].key in Keys(rows);
    }
  }

  /** For normalised words every first letter is one of `a`-`z`. */
  lemma LetterKeysAreLower(words: seq<string>)
    requires forall i :: 0 <= i < |words| ==> IsWord(words[i])
    ensures forall i :: 0 <= i < |words| ==> |words[i]| > 0
    ensures forall c :: c in Keys(LetterDistribution(words)) ==> IsLower(c)
  {
    forall c | c in Keys(LetterDistribution(words))
      ensures IsLower(c)
    {
      assert c in FirstLetters(words);
    }
  }
}
