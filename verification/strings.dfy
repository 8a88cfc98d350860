/**
 * String helpers the registry relies on: JavaScript's default string order
 * (as used by `Array.prototype.sort` without a comparator), sorting a list of
 * keys by it, and `Array.prototype.join`.
 */
module Strings {

  /** `a` sorts no later than `b`: `a` is a prefix of `b`, or `a` has the
      smaller character at the first position where they differ. */
  predicate LexLe(a: string, b: string)
  {
    |a| == 0 || (|b| > 0 && (a[0] < b[0] || (a[0] == b[0] && LexLe(a[1..], b[1..]))))
  }

  lemma {:induction false} LexLeReflexive(a: string)
    ensures LexLe(a, a)
  {
    if |a| > 0 {
      LexLeReflexive(a[1..]);
    }
  }

  lemma {:induction false} LexLeTotal(a: string, b: string)
    ensures LexLe(a, b) || LexLe(b, a)
  {
    if |a| > 0 && |b| > 0 && a[0] == b[0] {
      LexLeTotal(a[1..], b[1..]);
    }
  }

  lemma {:induction false} LexLeAntisymmetric(a: string, b: string)
    requires LexLe(a, b) && LexLe(b, a)
    ensures a == b
  {
    if |a| > 0 {
      LexLeAntisymmetric(a[1..], b[1..]);
      assert a == [a[0]] + a[1..];
      assert b == [b[0]] + b[1..];
    }
  }

  lemma {:induction false} LexLeTransitive(a: string, b: string, c: string)
    requires LexLe(a, b) && LexLe(b, c)
    ensures LexLe(a, c)
  {
    if |a| > 0 && a[0] == b[0] && b[0] == c[0] {
      LexLeTransitive(a[1..], b[1..], c[1..]);
    }
  }

  ghost predicate Sorted(s: seq<string>)
  {
    forall i, j :: 0 <= i < j < |s| ==> LexLe(s[i], s[j])
  }

  predicate Distinct(s: seq<string>)
  {
    forall i, j :: 0 <= i < j < |s| ==> s[i] != s[j]
  }

  lemma ConsSorted(h: string, t: seq<string>)
    requires Sorted(t)
    requires forall y :: y in t ==> LexLe(h, y)
    ensures Sorted([h] + t)
  {
    var s := [h] + t;
    forall i, j | 0 <= i < j < |s|
      ensures LexLe(s[i], s[j])
    {
      assert s[j] == t[j - 1];
      if i > 0 {
        assert s[i] == t[i - 1];
      }
    }
  }

  lemma HeadNotInTail(s: seq<string>)
    requires s != [] && Distinct(s)
    ensures s[0] !in s[1..] && Distinct(s[1..])
  {
    forall k | 0 <= k < |s| - 1
      ensures s[1..][k] != s[0]
    {
      assert s[1..][k] == s[k + 1];
    }
  }

  lemma DistinctAppend(s: seq<string>, x: string)
    requires Distinct(s) && x !in s
    ensures Distinct(s + [x])
  {
  }

  lemma InsertInFront(x: string, s: seq<string>)
    requires Sorted(s) && s != [] && LexLe(x, s[0])
    ensures Sorted([x] + s)
  {
    forall y | y in s ensures LexLe(x, y) {
      var j :| 0 <= j < |s| && s[j] == y;
      if j > 0 {
        LexLeTransitive(x, s[0], y);
      }
    }
    ConsSorted(x, s);
  }

  lemma InsertBehind(x: string, s: seq<string>, t: seq<string>)
    requires Sorted(s) && s != [] && !LexLe(x, s[0])
    requires Sorted(t) && multiset(t) == multiset(s[1..]) + multiset{x}
    ensures Sorted([s[0]] + t)
  {
    LexLeTotal(x, s[0]);
    forall y | y in t ensures LexLe(s[0], y) {
      assert y in multiset(t);
      if y != x {
        assert y in s[1..];
      }
    }
    ConsSorted(s[0], t);
  }

  lemma InsertBehindDistinct(x: string, s: seq<string>, t: seq<string>)
    requires s != [] && Distinct(s) && x !in s
    requires Distinct(t) && multiset(t) == multiset(s[1..]) + multiset{x}
    ensures Distinct([s[0]] + t)
  {
    HeadNotInTail(s);
    assert s[0] !in multiset(t);
    var r := [s[0]] + t;
    forall i, j | 0 <= i < j < |r| ensures r[i] != r[j] {
      assert r[j] == t[j - 1];
      if i > 0 {
        assert r[i] == t[i - 1];
      }
    }
  }

  /** Inserts `x` into the sorted list `s`, before the first element it does not follow. */
  function Insert(x: string, s: seq<string>): (r: seq<string>)
    requires Sorted(s)
    ensures Sorted(r)
    ensures multiset(r) == multiset(s) + multiset{x}
    ensures Distinct(s) && x !in s ==> Distinct(r)
  {
    if s == [] then
      [x]
    else if LexLe(x, s[0]) then
      InsertInFront(x, s);
      [x] + s
    else
      var t := Insert(x, s[1..]);
      assert s == [s[0]] + s[1..];
      InsertBehind(x, s, t);
      if Distinct(s) && x !in s then
        assert x !in s[1..] && Distinct(s[1..]);
        InsertBehindDistinct(x, s, t);
        [s[0]] + t
      else
        [s[0]] + t
  }

  /** Removing the head of a list removes one occurrence of it from the elements. */
  lemma TailMultiset(s: seq<string>)
    requires s != []
    ensures multiset(s[1..]) == multiset(s) - multiset{s[0]}
  {
    assert s == [s[0]] + s[1..];
  }

  /** The keys in ascending `LexLe` order: what `keys.sort()` returns. */
  function Sort(s: seq<string>): (r: seq<string>)
    ensures Sorted(r)
    ensures multiset(r) == multiset(s)
    ensures Distinct(s) ==> Distinct(r)
  {
    if s == [] then
      []
    else
      var t := Sort(s[1..]);
      TailMultiset(s);
      if Distinct(s) then
        HeadNotInTail(s);
        assert s[0] !in multiset(t);
        Insert(s[0], t)
      else
        Insert(s[0], t)
  }

  /** Two sorted lists holding the same elements start with the same element. */
  lemma SortedSameHead(a: seq<string>, b: seq<string>)
    requires Sorted(a) && Sorted(b) && a != []
    requires multiset(a) == multiset(b)
    ensures b != [] && a[0] == b[0]
  {
    assert a[0] in multiset(b);
    assert b != [];
    assert b[0] in multiset(a);
    var i :| 0 <= i < |b| && b[i] == a[0];
    var j :| 0 <= j < |a| && a[j] == b[0];
    if i == 0 { LexLeReflexive(b[0]); }
    if j == 0 { LexLeReflexive(a[0]); }
    LexLeAntisymmetric(a[0], b[0]);
  }

  /** Two sorted lists holding the same elements are the same list. */
  lemma {:induction false} SortedUnique(a: seq<string>, b: seq<string>)
    requires Sorted(a) && Sorted(b)
    requires multiset(a) == multiset(b)
    ensures a == b
  {
    if a == [] {
      assert |multiset(b)| == 0;
    } else {
      SortedSameHead(a, b);
      TailMultiset(a);
      TailMultiset(b);
      SortedUnique(a[1..], b[1..]);
      assert a == [a[0]] + a[1..];
      assert b == [b[0]] + b[1..];
    }
  }

  /** Sorting forgets the original order: it depends only on which keys there are. */
  lemma SortDependsOnlyOnElements(a: seq<string>, b: seq<string>)
    requires multiset(a) == multiset(b)
    ensures Sort(a) == Sort(b)
  {
    SortedUnique(Sort(a), Sort(b));
  }

  /** In a list without repetitions every element occurs once. */
  lemma {:induction false} DistinctMultiplicity(s: seq<string>, x: string)
    requires Distinct(s)
    ensures multiset(s)[x] == if x in s then 1 else 0
  {
    if s != [] {
      assert s == [s[0]] + s[1..];
      HeadNotInTail(s);
      DistinctMultiplicity(s[1..], x);
    }
  }

  /** Two repetition-free lists with the same elements are permutations of each other. */
  lemma SameElementsSameMultiset(a: seq<string>, b: seq<string>)
    requires Distinct(a) && Distinct(b)
    requires forall x :: x in a <==> x in b
    ensures multiset(a) == multiset(b)
  {
    forall x
      ensures multiset(a)[x] == multiset(b)[x]
    {
      DistinctMultiplicity(a, x);
      DistinctMultiplicity(b, x);
    }
  }

  /** `parts.join(sep)`. */
  function Join(sep: string, parts: seq<string>): string
  {
    if |parts| == 0 then ""
    else if |parts| == 1 then parts[0]
    else Join(sep, parts[..|parts| - 1]) + sep + parts[|parts| - 1]
  }

  /** A join of no parts is empty; otherwise it starts with the first part and ends with
      the last one. */
  lemma {:induction false} JoinEnds(sep: string, parts: seq<string>)
    ensures parts == [] ==> Join(sep, parts) == ""
    ensures parts != [] ==> parts[0] <= Join(sep, parts)
    ensures parts != [] ==> var r, last := Join(sep, parts), parts[|parts| - 1];
                            |last| <= |r| && r[|r| - |last|..] == last
  {
    if |parts| > 1 {
      var init := parts[..|parts| - 1];
      JoinEnds(sep, init);
      var r := Join(sep, init) + sep + parts[|parts| - 1];
      assert init[0] == parts[0];
      assert r[..|Join(sep, init)|] == Join(sep, init);
    }
  }
}
