/**
 * The order of `Array.prototype.sort()` without a comparator on strings: lexicographic,
 * character by character, a proper prefix first.
 */
module Ordering {
  import opened Sequences

  predicate LessEq(a: string, b: string)
    decreases |a|
  {
    a == [] || (b != [] && (a[0] < b[0] || (a[0] == b[0] && LessEq(a[1..], b[1..]))))
  }

  lemma {:induction false} LessEqTotal(a: string, b: string)
    ensures LessEq(a, b) || LessEq(b, a)
    decreases |a|
  {
    if a != [] && b != [] && a[0] == b[0] {
      LessEqTotal(a[1..], b[1..]);
    }
  }

  lemma {:induction false} LessEqReflexive(a: string)
    ensures LessEq(a, a)
    decreases |a|
  {
    if a != [] {
      LessEqReflexive(a[1..]);
    }
  }

  lemma {:induction false} LessEqAntisymmetric(a: string, b: string)
    requires LessEq(a, b) && LessEq(b, a)
    ensures a == b
    decreases |a|
  {
    if a != [] {
      LessEqAntisymmetric(a[1..], b[1..]);
      assert a == [a[0]] + a[1..] && b == [b[0]] + b[1..];
    }
  }

  lemma {:induction false} LessEqTransitive(a: string, b: string, c: string)
    requires LessEq(a, b) && LessEq(b, c)
    ensures LessEq(a, c)
    decreases |a|
  {
    if a != [] && a[0] == b[0] && b[0] == c[0] {
      LessEqTransitive(a[1..], b[1..], c[1..]);
    }
  }

  predicate Sorted(s: seq<string>) {
    forall i, j :: 0 <= i < j < |s| ==> LessEq(s[i], s[j])
  }

  /** The last element of a sorted sequence is its greatest. */
  lemma LastIsGreatest(s: seq<string>)
    requires Sorted(s) && s != []
    ensures forall x :: x in s ==> LessEq(x, s[|s| - 1])
  {
    LessEqReflexive(s[|s| - 1]);
  }

  /** An element no greater than any of a sorted sequence can go in front of it. */
  lemma ConsSorted(h: string, t: seq<string>)
    requires Sorted(t) && forall y :: y in t ==> LessEq(h, y)
    ensures Sorted([h] + t)
  {
    forall i, j | 0 <= i < j < |[h] + t| ensures LessEq(([h] + t)[i], ([h] + t)[j]) {
      assert ([h] + t)[j] == t[j - 1];
      if i > 0 {
        assert ([h] + t)[i] == t[i - 1];
      }
    }
  }

  lemma InsertFront(x: string, s: seq<string>)
    requires Sorted(s) && s != [] && LessEq(x, s[0])
    ensures Sorted([x] + s)
  {
    forall y | y in s ensures LessEq(x, y) {
      var j :| 0 <= j < |s| && s[j] == y;
      if j > 0 { LessEqTransitive(x, s[0], s[j]); }
    }
    ConsSorted(x, s);
  }

  lemma InsertBehind(x: string, s: seq<string>, t: seq<string>)
    requires Sorted(s) && s != [] && LessEq(s[0], x)
    requires Sorted(t) && multiset(t) == multiset(s[1..]) + multiset{x}
    ensures Sorted([s[0]] + t)
    ensures multiset([s[0]] + t) == multiset(s) + multiset{x}
  {
    assert s == [s[0]] + s[1..];
    forall y | y in t ensures LessEq(s[0], y) {
      assert y in multiset(t);
      if y != x {
        assert y in s[1..];
        var j :| 0 <= j < |s[1..]| && s[1..][j] == y;
        assert s[j + 1] == y;
      }
    }
    ConsSorted(s[0], t);
  }

  /** Inserts `x` before the first element it does not exceed. */
  function Insert(x: string, s: seq<string>): (r: seq<string>)
    requires Sorted(s)
    ensures Sorted(r)
    ensures multiset(r) == multiset(s) + multiset{x}
  {
    if s == [] then [x]
    else if LessEq(x, s[0]) then
      InsertFront(x, s);
      [x] + s
    else
      LessEqTotal(x, s[0]);
      var t := Insert(x, s[1..]);
      InsertBehind(x, s, t);
      [s[0]] + t
  }

  /** `Array.from(s).sort()`: insertion sort, stable and in ascending order. */
  function Sort(s: seq<string>): (r: seq<string>)
    ensures Sorted(r)
    ensures multiset(r) == multiset(s)
  {
    if s == [] then []
    else
      assert s == [s[0]] + s[1..];
      Insert(s[0], Sort(s[1..]))
  }

  lemma SortElements(s: seq<string>)
    ensures |Sort(s)| == |s|
    ensures forall x :: x in Sort(s) <==> x in s
  {
    assert forall x :: x in Sort(s) <==> x in multiset(Sort(s));
    assert |multiset(Sort(s))| == |multiset(s)|;
  }

  /** Sorting a duplicate-free sequence yields a strictly ascending one. */
  lemma {:induction false} SortNoDups(s: seq<string>)
    requires NoDups(s)
    ensures NoDups(Sort(s))
  {
    if s != [] {
      assert s == [s[0]] + s[1..];
      SortNoDups(s[1..]);
      SortElements(s[1..]);
      InsertNoDups(s[0], Sort(s[1..]));
    }
  }

  lemma {:induction false} InsertNoDups(x: string, s: seq<string>)
    requires Sorted(s) && NoDups(s) && x !in s
    ensures NoDups(Insert(x, s))
  {
    if s != [] && !LessEq(x, s[0]) {
      var rest := s[1..];
      TailNoDups(s);
      InsertNoDups(x, rest);
      var t := Insert(x, rest);
      forall y | y in t ensures y != s[0] {
        assert y in multiset(t);
      }
      ConsNoDups(s[0], t);
    }
  }

  /** The tail of a sorted sequence without repetitions is one too, and misses the head. */
  lemma TailNoDups(s: seq<string>)
    requires Sorted(s) && NoDups(s) && s != []
    ensures Sorted(s[1..]) && NoDups(s[1..])
    ensures forall y :: y in s[1..] ==> y in s && y != s[0]
  {
    forall y | y in s[1..] ensures y in s && y != s[0] {
      var j :| 0 <= j < |s[1..]| && s[1..][j] == y;
      assert s[j + 1] == y;
    }
  }

  lemma ConsNoDups(h: string, t: seq<string>)
    requires NoDups(t) && h !in t
    ensures NoDups([h] + t)
  {
    forall i, j | 0 <= i < j < |[h] + t| ensures ([h] + t)[i] != ([h] + t)[j] {
      assert ([h] + t)[j] == t[j - 1];
      if i > 0 {
        assert ([h] + t)[i] == t[i - 1];
      }
    }
  }

  /** A sorted sequence without repetitions: every element strictly precedes the later ones. */
  lemma StrictlySorted(s: seq<string>, i: int, j: int)
    requires Sorted(s) && NoDups(s) && 0 <= i < j < |s|
    ensures LessEq(s[i], s[j]) && !LessEq(s[j], s[i])
  {
    if LessEq(s[j], s[i]) {
      LessEqAntisymmetric(s[i], s[j]);
    }
  }
}
