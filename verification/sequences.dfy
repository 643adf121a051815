/** Duplicate removal and order-preserving selection on sequences. */
module Sequences {

  predicate NoDups<T(==)>(s: seq<T>) {
    forall i, j :: 0 <= i < j < |s| ==> s[i] != s[j]
  }

  /** `a` is `b` with some elements removed, the rest in their original order. */
  ghost predicate IsSubsequence<T>(a: seq<T>, b: seq<T>)
    decreases |b|
  {
    a == [] || (b != [] && ((a[0] == b[0] && IsSubsequence(a[1..], b[1..])) || IsSubsequence(a, b[1..])))
  }

  lemma {:induction false} SubsequenceElements<T>(a: seq<T>, b: seq<T>)
    requires IsSubsequence(a, b)
    ensures forall x :: x in a ==> x in b
    decreases |b|
  {
    if a != [] {
      if a[0] == b[0] && IsSubsequence(a[1..], b[1..]) {
        SubsequenceElements(a[1..], b[1..]);
        assert forall x :: x in a ==> x == a[0] || x in a[1..];
      } else {
        SubsequenceElements(a, b[1..]);
      }
    }
  }

  /**
   * The first occurrence of every element, in order of first occurrence: the loop
   * `for (const x of s) if (!unique.includes(x)) unique.push(x)`, or the iteration
   * order of a JavaScript `Set` built from `s`.
   */
  function Dedup<T(==,!new)>(s: seq<T>): (r: seq<T>)
    ensures NoDups(r)
    ensures forall x :: x in r <==> x in s
    ensures |r| <= |s|
  {
    if s == [] then []
    else
      var d := Dedup(s[..|s| - 1]);
      assert s == s[..|s| - 1] + [s[|s| - 1]];
      if s[|s| - 1] in d then d else d + [s[|s| - 1]]
  }

  /** One more element: `Dedup` keeps it only when it is new. */
  lemma DedupSnoc<T(!new)>(s: seq<T>, x: T)
    ensures Dedup(s + [x]) == if x in Dedup(s) then Dedup(s) else Dedup(s) + [x]
  {
    assert (s + [x])[..|s|] == s;
  }

  /** The position of the first occurrence of `x` in `s`. */
  function FirstIndex<T(==)>(s: seq<T>, x: T): (i: nat)
    requires x in s
    ensures i < |s| && s[i] == x
    ensures forall k :: 0 <= k < i ==> s[k] != x
  {
    if s[0] == x then 0 else 1 + FirstIndex(s[1..], x)
  }

  /** An element already present keeps its first position when another is appended. */
  /** An element new to `s` first occurs at the end of `s + [x]`. */
  lemma FirstIndexOfNew<T>(s: seq<T>, x: T)
    requires x !in s
    ensures x in s + [x] && FirstIndex(s + [x], x) == |s|
  {
    assert (s + [x])[|s|] == x;
    assert forall k :: 0 <= k < |s| ==> (s + [x])[k] == s[k] != x;
  }

  lemma FirstIndexSnoc<T>(s: seq<T>, x: T, y: T)
    requires y in s
    ensures y in s + [x] && FirstIndex(s + [x], y) == FirstIndex(s, y)
  {
    var i := FirstIndex(s, y);
    assert (s + [x])[i] == y;
    var j := FirstIndex(s + [x], y);
    assert j < |s| ==> s[j] == y;
  }

  /**
   * `Dedup` lists the elements in the order of their first occurrences: of two elements of
   * the result, the earlier one first occurs earlier in the input.
   */
  lemma {:induction false} DedupFirstOccurrences<T(!new)>(s: seq<T>)
    ensures var r := Dedup(s);
      forall i, j :: 0 <= i < j < |r| ==> FirstIndex(s, r[i]) < FirstIndex(s, r[j])
  {
    if s != [] {
      var init := s[..|s| - 1];
      var x := s[|s| - 1];
      assert s == init + [x];
      DedupFirstOccurrences(init);
      DedupSnoc(init, x);
      if x in Dedup(init) {
        SnocKeepsOrder(init, x, Dedup(init));
      } else {
        SnocAppendsNew(init, x, Dedup(init));
      }
    }
  }

  /** Appending to `s` moves no first occurrence of an element of `s`. */
  lemma SnocKeepsIndices<T>(s: seq<T>, x: T, d: seq<T>)
    requires forall y :: y in d ==> y in s
    ensures forall k :: 0 <= k < |d| ==> d[k] in s + [x] && FirstIndex(s + [x], d[k]) == FirstIndex(s, d[k]) < |s|
  {
    forall k | 0 <= k < |d| ensures d[k] in s + [x] && FirstIndex(s + [x], d[k]) == FirstIndex(s, d[k]) < |s| {
      FirstIndexSnoc(s, x, d[k]);
    }
  }

  /** Appending to `s` keeps a listing ordered by first occurrence. */
  lemma SnocKeepsOrder<T>(s: seq<T>, x: T, d: seq<T>)
    requires forall y :: y in d ==> y in s
    requires forall i, j :: 0 <= i < j < |d| ==> FirstIndex(s, d[i]) < FirstIndex(s, d[j])
    ensures forall i, j :: 0 <= i < j < |d| ==> FirstIndex(s + [x], d[i]) < FirstIndex(s + [x], d[j])
  {
    SnocKeepsIndices(s, x, d);
  }

  /** An element new to `s`, appended to `s`, can be listed after all the others. */
  lemma SnocAppendsNew<T>(s: seq<T>, x: T, d: seq<T>)
    requires x !in s && forall y :: y in d ==> y in s
    requires forall i, j :: 0 <= i < j < |d| ==> FirstIndex(s, d[i]) < FirstIndex(s, d[j])
    ensures forall i, j :: 0 <= i < j < |d + [x]| ==> FirstIndex(s + [x], (d + [x])[i]) < FirstIndex(s + [x], (d + [x])[j])
  {
    SnocKeepsIndices(s, x, d);
    FirstIndexOfNew(s, x);
    var r := d + [x];
    forall i, j | 0 <= i < j < |r| ensures FirstIndex(s + [x], r[i]) < FirstIndex(s + [x], r[j]) {
      assert r[i] == d[i];
      if j < |d| {
        assert r[j] == d[j];
      }
    }
  }

  /** Every prefix of `Dedup(s)` is in the order of first occurrences too. */
  lemma DedupPrefixOrdered<T(!new)>(s: seq<T>, n: nat)
    requires n <= |Dedup(s)|
    ensures InFirstOccurrenceOrder(Dedup(s)[..n], s)
  {
    var r := Dedup(s);
    DedupFirstOccurrences(s);
    assert forall i :: 0 <= i < n ==> r[..n][i] == r[i];
  }

  /**
   * An element outside a prefix of `Dedup(s)` first occurs after every element of that
   * prefix: the prefix holds the earliest distinct elements of `s`.
   */
  lemma DedupPrefixEarliest<T(!new)>(s: seq<T>, n: nat, x: T)
    requires n <= |Dedup(s)| && x in s && x !in Dedup(s)[..n]
    ensures n < |Dedup(s)|
    ensures forall y :: y in Dedup(s)[..n] ==> FirstIndex(s, y) < FirstIndex(s, x)
  {
    var r := Dedup(s);
    DedupFirstOccurrences(s);
    var m :| 0 <= m < |r| && r[m] == x;
    assert m >= n;
    forall y | y in r[..n] ensures FirstIndex(s, y) < FirstIndex(s, x) {
      var k :| 0 <= k < n && r[..n][k] == y;
      assert r[k] == y;
    }
  }

  /** `r` lists distinct elements of `s` in the order of their first occurrences in `s`. */
  predicate InFirstOccurrenceOrder<T(==)>(r: seq<T>, s: seq<T>) {
    (forall x :: x in r ==> x in s) &&
    forall i, j :: 0 <= i < j < |r| ==> FirstIndex(s, r[i]) < FirstIndex(s, r[j])
  }

  /** Such a listing without its head is one too, and holds exactly the other elements. */
  lemma OrderedTail<T>(a: seq<T>, s: seq<T>)
    requires InFirstOccurrenceOrder(a, s) && a != []
    ensures InFirstOccurrenceOrder(a[1..], s)
    ensures forall x :: x in a[1..] <==> x in a && x != a[0]
  {
    forall x | x in a[1..] ensures x in a && x != a[0] {
      var i :| 0 <= i < |a[1..]| && a[1..][i] == x;
      assert a[i + 1] == x;
    }
    forall x | x in a && x != a[0] ensures x in a[1..] {
      var i :| 0 <= i < |a| && a[i] == x;
      assert a[1..][i - 1] == x;
    }
  }

  /** Two such listings of the same elements start with the same element. */
  lemma SameHead<T>(a: seq<T>, b: seq<T>, s: seq<T>)
    requires InFirstOccurrenceOrder(a, s) && InFirstOccurrenceOrder(b, s)
    requires forall x :: x in a <==> x in b
    requires a != []
    ensures b != [] && a[0] == b[0]
  {
    assert a[0] in b;
    assert b[0] in a;
    var k :| 0 <= k < |a| && a[k] == b[0];
    var m :| 0 <= m < |b| && b[m] == a[0];
    assert k == 0 || m == 0;
  }

  /** Two such listings of the same elements are equal. */
  lemma {:induction false} FirstOccurrenceListingUnique<T>(a: seq<T>, b: seq<T>, s: seq<T>)
    requires InFirstOccurrenceOrder(a, s) && InFirstOccurrenceOrder(b, s)
    requires forall x :: x in a <==> x in b
    ensures a == b
    decreases |a|
  {
    if a == [] {
      assert forall i :: 0 <= i < |b| ==> b[i] in a;
    } else {
      SameHead(a, b, s);
      OrderedTail(a, s);
      OrderedTail(b, s);
      FirstOccurrenceListingUnique(a[1..], b[1..], s);
      assert a == [a[0]] + a[1..] && b == [b[0]] + b[1..];
    }
  }

  /**
   * `Dedup(s)` is the one listing of the distinct elements of `s` in the order of their
   * first occurrences.
   */
  lemma DedupCharacterised<T(!new)>(s: seq<T>, r: seq<T>)
    ensures r == Dedup(s) <==> InFirstOccurrenceOrder(r, s) && forall x :: x in s ==> x in r
  {
    DedupFirstOccurrences(s);
    if InFirstOccurrenceOrder(r, s) && forall x :: x in s ==> x in r {
      FirstOccurrenceListingUnique(r, Dedup(s), s);
    }
  }

  /** Removing duplicates from a duplicate-free sequence changes nothing. */
  lemma {:induction false} DedupOfNoDups<T(!new)>(s: seq<T>)
    requires NoDups(s)
    ensures Dedup(s) == s
  {
    if s != [] {
      DedupOfNoDups(s[..|s| - 1]);
    }
  }

  /** Dedup keeps the order of first occurrences: it is a subsequence of its input. */
  lemma {:induction false} DedupIsSubsequence<T(!new)>(s: seq<T>)
    ensures IsSubsequence(Dedup(s), s)
  {
    if s != [] {
      var init := s[..|s| - 1];
      DedupIsSubsequence(init);
      SubsequenceSnoc(Dedup(init), init, s[|s| - 1]);
      assert s == init + [s[|s| - 1]];
    }
  }

  /** Appending the same element to both sides, or only to the longer one, keeps a subsequence. */
  lemma {:induction false} SubsequenceSnoc<T>(a: seq<T>, b: seq<T>, x: T)
    requires IsSubsequence(a, b)
    ensures IsSubsequence(a + [x], b + [x])
    ensures IsSubsequence(a, b + [x])
    decreases |b|
  {
    if a == [] {
      SubsequenceOfSingleton(x, b);
      assert a + [x] == [x];
    } else if a[0] == b[0] && IsSubsequence(a[1..], b[1..]) {
      SubsequenceSnoc(a[1..], b[1..], x);
      assert (a + [x])[1..] == a[1..] + [x];
      assert (b + [x])[1..] == b[1..] + [x];
    } else {
      SubsequenceSnoc(a, b[1..], x);
      assert (b + [x])[1..] == b[1..] + [x];
    }
  }

  lemma {:induction false} SubsequenceOfSingleton<T>(x: T, b: seq<T>)
    ensures IsSubsequence([x], b + [x])
    decreases |b|
  {
    if b != [] {
      SubsequenceOfSingleton(x, b[1..]);
      assert (b + [x])[1..] == b[1..] + [x];
    }
  }
}
