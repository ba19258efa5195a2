/** The order Python's `sorted` puts strings in (merge_wordlists.py:57):
    lexicographic comparison of code points. Dafny's own `<` on sequences
    is the proper-prefix relation, so the order is written out here. */
module LexOrder {

  /** `a` sorts strictly before `b`. */
  predicate Less(a: string, b: string) {
    if |a| == 0 then |b| > 0
    else |b| > 0 && (a[0] < b[0] || (a[0] == b[0] && Less(a[1..], b[1..])))
  }

  /** Every element strictly before every later one: ascending, and
      therefore without repeats. */
  predicate StrictlySorted(s: seq<string>) {
    forall i, j :: 0 <= i < j < |s| ==> Less(s[i], s[j])
  }

  /** The textbook definition: `a` is a proper prefix of `b`, or the two
      agree up to some position where `a` has the smaller character. */
  ghost predicate Lexicographic(a: string, b: string) {
    || (|a| < |b| && a == b[..|a|])
    || exists k :: 0 <= k < |a| && k < |b| && a[..k] == b[..k] && a[k] < b[k]
  }

  lemma {:induction false} LessIrreflexive(a: string)
    ensures !Less(a, a)
  {
    if |a| > 0 {
      LessIrreflexive(a[1..]);
    }
  }

  lemma {:induction false} LessTransitive(a: string, b: string, c: string)
    requires Less(a, b) && Less(b, c)
    ensures Less(a, c)
  {
    if |a| > 0 && a[0] == b[0] && b[0] == c[0] {
      LessTransitive(a[1..], b[1..], c[1..]);
    }
  }

  /** Any two different strings are ordered one way or the other. */
  lemma {:induction false} LessTotal(a: string, b: string)
    ensures a == b || Less(a, b) || Less(b, a)
  {
    if |a| > 0 && |b| > 0 && a[0] == b[0] {
      LessTotal(a[1..], b[1..]);
      if a[1..] == b[1..] {
        assert a == [a[0]] + a[1..] && b == [b[0]] + b[1..];
      }
    }
  }

  lemma {:induction false} LessAsymmetric(a: string, b: string)
    ensures !(Less(a, b) && Less(b, a))
  {
    if Less(a, b) && Less(b, a) {
      LessTransitive(a, b, a);
      LessIrreflexive(a);
    }
  }

  /** Two strings with different first characters are ordered by them. */
  lemma LexicographicHead(a: string, b: string)
    requires |a| > 0 && |b| > 0 && a[0] != b[0]
    ensures Lexicographic(a, b) <==> a[0] < b[0]
  {
    if a[0] < b[0] {
      assert a[..0] == b[..0];
    }
  }

  /** Two strings with the same first character are ordered by their tails. */
  lemma LexicographicTail(a: string, b: string)
    requires |a| > 0 && |b| > 0 && a[0] == b[0]
    ensures Lexicographic(a, b) <==> Lexicographic(a[1..], b[1..])
  {
    var a', b' := a[1..], b[1..];
    if |a| < |b| && a == b[..|a|] {
      assert a' == b[..|a|][1..] == b'[..|a'|];
    }
    if |a'| < |b'| && a' == b'[..|a'|] {
      assert a == [a[0]] + a' && b[..|a|] == [b[0]] + b'[..|a'|];
    }
    forall k | 0 <= k < |a| && k < |b| && a[..k] == b[..k] && a[k] < b[k]
      ensures 0 <= k - 1 < |a'| && k - 1 < |b'| && a'[..k - 1] == b'[..k - 1] && a'[k - 1] < b'[k - 1]
    {
      assert a'[..k - 1] == a[..k][1..] && b'[..k - 1] == b[..k][1..];
    }
    forall k | 0 <= k < |a'| && k < |b'| && a'[..k] == b'[..k] && a'[k] < b'[k]
      ensures a[..k + 1] == b[..k + 1] && a[k + 1] < b[k + 1]
    {
      assert a[..k + 1] == [a[0]] + a'[..k] && b[..k + 1] == [b[0]] + b'[..k];
    }
  }

  /** `Less` is exactly lexicographic order, in both directions. */
  lemma {:induction false} LessIsLexicographic(a: string, b: string)
    ensures Less(a, b) <==> Lexicographic(a, b)
  {
    if |a| == 0 {
      if |b| > 0 {
        assert a == b[..0];
      }
    } else if |b| > 0 {
      if a[0] == b[0] {
        LessIsLexicographic(a[1..], b[1..]);
        LexicographicTail(a, b);
      } else {
        LexicographicHead(a, b);
      }
    }
  }

  /** A strictly sorted sequence stays strictly sorted when an element
      smaller than its head is put in front. */
  lemma PrependSorted(w: string, s: seq<string>)
    requires StrictlySorted(s)
    requires |s| == 0 || Less(w, s[0])
    ensures StrictlySorted([w] + s)
    ensures forall x :: x in s ==> Less(w, x)
  {
    forall j | 0 <= j < |s|
      ensures Less(w, s[j])
    {
      if j > 0 {
        LessTransitive(w, s[0], s[j]);
      }
    }
  }

  /** In a strictly sorted sequence the head does not occur again. */
  lemma NotInTail(s: seq<string>, x: string)
    requires StrictlySorted(s) && |s| > 0
    ensures x in s[1..] <==> x in s && x != s[0]
  {
    if x in s[1..] {
      var i :| 1 <= i < |s| && s[i] == x;
      LessIrreflexive(x);
    }
    if x in s && x != s[0] {
      var i :| 0 <= i < |s| && s[i] == x;
      assert s[1..][i - 1] == x;
    }
  }

  /** A set has at most one strictly sorted arrangement: the sequence the
      model builds is the one `sorted` returns. */
  lemma {:induction false} SortedIsUnique(a: seq<string>, b: seq<string>)
    requires StrictlySorted(a) && StrictlySorted(b)
    requires forall x :: x in a <==> x in b
    ensures a == b
  {
    assert |b| > 0 ==> b[0] in b;
    if |a| > 0 {
      assert a[0] in b;
      if a[0] != b[0] {
        assert a[0] in b && b[0] in a;
        var i :| 0 <= i < |a| && a[i] == b[0];
        var j :| 0 <= j < |b| && b[j] == a[0];
        LessAsymmetric(a[0], b[0]);
        assert false;
      }
      forall x
        ensures x in a[1..] <==> x in b[1..]
      {
        NotInTail(a, x);
        NotInTail(b, x);
      }
      SortedIsUnique(a[1..], b[1..]);
      assert a == [a[0]] + a[1..] && b == [b[0]] + b[1..];
    }
  }
}
