/** Sorting by a total order, and why the sorted form of a list depends only on its elements. */
module Sorting {

  /** Lexicographic order on sequences of numbers, a proper prefix first. */
  predicate LexLe(a: seq<int>, b: seq<int>) {
    if a == [] then true
    else if b == [] then false
    else if a[0] == b[0] then LexLe(a[1..], b[1..])
    else a[0] < b[0]
  }

  lemma {:induction false} LexTotal(a: seq<int>, b: seq<int>)
    ensures LexLe(a, b) || LexLe(b, a)
    ensures LexLe(a, b) && LexLe(b, a) ==> a == b
  {
    if a != [] && b != [] && a[0] == b[0] {
      LexTotal(a[1..], b[1..]);
      assert a == [a[0]] + a[1..] && b == [b[0]] + b[1..];
    }
  }

  /** `a` comes before `b`: it is smaller where they first differ, or it is what `b` begins with. */
  ghost predicate NotAfter(a: seq<int>, b: seq<int>) {
    a <= b || exists i :: SmallerFirst(a, b, i)
  }

  ghost predicate SmallerFirst(a: seq<int>, b: seq<int>, i: int) {
    0 <= i < |a| && i < |b| && a[..i] == b[..i] && a[i] < b[i]
  }

  lemma HeadOfPrefix(a: seq<int>, b: seq<int>, i: int)
    requires SmallerFirst(a, b, i)
    ensures i > 0 ==> a[0] == b[0]
  {
    if i > 0 { assert a[..i][0] == a[0] && b[..i][0] == b[0]; }
  }

  lemma {:induction false} OrderedByFirstDifference(a: seq<int>, b: seq<int>)
    ensures LexLe(a, b) <==> NotAfter(a, b)
  {
    if a != [] && b != [] {
      if a[0] != b[0] {
        if a[0] < b[0] { assert SmallerFirst(a, b, 0); }
        forall i | SmallerFirst(a, b, i) ensures i == 0 {
          HeadOfPrefix(a, b, i);
        }
      } else {
        OrderedByFirstDifference(a[1..], b[1..]);
        assert a == [a[0]] + a[1..] && b == [b[0]] + b[1..];
        if i :| SmallerFirst(a, b, i) {
          assert a[..i][1..] == a[1..][..i - 1] && b[..i][1..] == b[1..][..i - 1];
          assert SmallerFirst(a[1..], b[1..], i - 1);
        }
        if i :| SmallerFirst(a[1..], b[1..], i) {
          assert a[..i + 1] == [a[0]] + a[1..][..i] && b[..i + 1] == [b[0]] + b[1..][..i];
          assert SmallerFirst(a, b, i + 1);
        }
      }
    }
  }

  lemma {:induction false} LexTransitive(a: seq<int>, b: seq<int>, c: seq<int>)
    requires LexLe(a, b) && LexLe(b, c)
    ensures LexLe(a, c)
  {
    if a != [] && a[0] == b[0] == c[0] {
      LexTransitive(a[1..], b[1..], c[1..]);
    }
  }

  type Key = seq<int>

  function Insert(k: Key, s: seq<Key>): seq<Key> {
    if s == [] then [k]
    else if LexLe(k, s[0]) then [k] + s
    else [s[0]] + Insert(k, s[1..])
  }

  function Sort(s: seq<Key>): seq<Key> {
    if s == [] then [] else Insert(s[0], Sort(s[1..]))
  }

  ghost predicate Below(k: Key, s: seq<Key>) {
    forall x :: x in s ==> LexLe(k, x)
  }

  ghost predicate IsSorted(s: seq<Key>) {
    s == [] || (Below(s[0], s[1..]) && IsSorted(s[1..]))
  }

  /** Every element comes before, or is, each one listed later. */
  ghost predicate InOrder(s: seq<Key>) {
    forall i, j :: 0 <= i < j < |s| ==> NotAfter(s[i], s[j])
  }

  lemma {:induction false} SortedIsInOrder(s: seq<Key>)
    ensures IsSorted(s) <==> InOrder(s)
  {
    if s != [] {
      var rest := s[1..];
      SortedIsInOrder(rest);
      forall x | x in rest ensures LexLe(s[0], x) <==> NotAfter(s[0], x) { OrderedByFirstDifference(s[0], x); }
      if IsSorted(s) {
        forall i, j | 0 <= i < j < |s| ensures NotAfter(s[i], s[j]) {
          assert s[j] == rest[j - 1] && s[j] in rest;
          if i > 0 { assert s[i] == rest[i - 1]; }
        }
      }
      if InOrder(s) {
        forall i, j | 0 <= i < j < |rest| ensures NotAfter(rest[i], rest[j]) {
          assert rest[i] == s[i + 1] && rest[j] == s[j + 1];
        }
        forall x | x in rest ensures LexLe(s[0], x) {
          var j :| 0 <= j < |rest| && rest[j] == x;
          assert NotAfter(s[0], s[j + 1]);
        }
      }
    }
  }

  lemma {:induction false} InsertElements(k: Key, s: seq<Key>)
    ensures multiset(Insert(k, s)) == multiset(s) + multiset{k}
    ensures |Insert(k, s)| == |s| + 1
  {
    if s != [] {
      assert s == [s[0]] + s[1..];
      if !LexLe(k, s[0]) {
        InsertElements(k, s[1..]);
      }
    }
  }

  lemma {:induction false} InsertBelow(m: Key, k: Key, s: seq<Key>)
    requires LexLe(m, k) && Below(m, s)
    ensures Below(m, Insert(k, s))
  {
    if s != [] && !LexLe(k, s[0]) {
      InsertBelow(m, k, s[1..]);
    }
  }

  lemma ConsSorted(k: Key, s: seq<Key>)
    requires IsSorted(s) && Below(k, s)
    ensures IsSorted([k] + s)
  {
    assert ([k] + s)[1..] == s;
  }

  lemma BelowAll(k: Key, s: seq<Key>)
    requires s != [] && IsSorted(s) && LexLe(k, s[0])
    ensures Below(k, s)
  {
    forall x | x in s ensures LexLe(k, x) {
      if x != s[0] {
        assert x in s[1..];
        LexTransitive(k, s[0], x);
      }
    }
  }

  lemma {:induction false} InsertSorts(k: Key, s: seq<Key>)
    requires IsSorted(s)
    ensures IsSorted(Insert(k, s))
  {
    if s == [] {
      ConsSorted(k, []);
    } else if LexLe(k, s[0]) {
      BelowAll(k, s);
      ConsSorted(k, s);
    } else {
      LexTotal(k, s[0]);
      InsertSorts(k, s[1..]);
      InsertBelow(s[0], k, s[1..]);
      ConsSorted(s[0], Insert(k, s[1..]));
    }
  }

  lemma {:induction false} SortSorts(s: seq<Key>)
    ensures IsSorted(Sort(s)) && multiset(Sort(s)) == multiset(s) && |Sort(s)| == |s|
  {
    if s != [] {
      SortSorts(s[1..]);
      InsertSorts(s[0], Sort(s[1..]));
      InsertElements(s[0], Sort(s[1..]));
      assert s == [s[0]] + s[1..];
    }
  }

  lemma LeastIsFirst(a: seq<Key>, b: seq<Key>)
    requires a != [] && b != [] && IsSorted(a) && IsSorted(b)
    requires a[0] in b && b[0] in a
    ensures a[0] == b[0]
  {
    LexTotal(a[0], b[0]);
    assert a == [a[0]] + a[1..] && b == [b[0]] + b[1..];
    LexTotal(a[0], a[0]);
  }

  /** Two sorted lists of the same elements are the same list. */
  lemma {:induction false} SortedIsUnique(a: seq<Key>, b: seq<Key>)
    requires IsSorted(a) && IsSorted(b) && multiset(a) == multiset(b)
    ensures a == b
  {
    SameSize(a, b);
    if a != [] {
      assert a[0] in multiset(b) && b[0] in multiset(a);
      LeastIsFirst(a, b);
      TailElements(a);
      TailElements(b);
      SortedIsUnique(a[1..], b[1..]);
      assert a == [a[0]] + a[1..] && b == [b[0]] + b[1..];
    }
  }

  lemma SameSize(a: seq<Key>, b: seq<Key>)
    requires multiset(a) == multiset(b)
    ensures |a| == |b|
  {
    assert |multiset(a)| == |a| && |multiset(b)| == |b|;
  }

  lemma TailElements(a: seq<Key>)
    requires a != []
    ensures multiset(a[1..]) == multiset(a) - multiset{a[0]}
  {
    assert a == [a[0]] + a[1..];
  }

  /** The sorted form forgets the order and nothing else. */
  lemma SortForgetsOrderOnly(a: seq<Key>, b: seq<Key>)
    ensures Sort(a) == Sort(b) <==> multiset(a) == multiset(b)
  {
    SortSorts(a);
    SortSorts(b);
    if multiset(a) == multiset(b) {
      SortedIsUnique(Sort(a), Sort(b));
    }
  }
}
