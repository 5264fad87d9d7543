/** Ascending integer sequences: what Python's `sorted` returns, with the facts the other modules need. */
module SortedInts {

  predicate Sorted(s: seq<int>) {
    |s| < 2 || (s[0] <= s[1] && Sorted(s[1..]))
  }

  function Insert(s: seq<int>, x: int): (r: seq<int>)
    ensures |r| == |s| + 1
  {
    if s == [] || x <= s[0] then [x] + s else [s[0]] + Insert(s[1..], x)
  }

  function Sort(s: seq<int>): (r: seq<int>)
    ensures |r| == |s|
  {
    if s == [] then [] else Insert(Sort(s[..|s| - 1]), s[|s| - 1])
  }

  function Sum(s: seq<int>): int {
    if s == [] then 0 else s[0] + Sum(s[1..])
  }

  // ---------------------------------------------------------------- order

  lemma {:induction false} HeadIsLeast(s: seq<int>, k: nat)
    requires Sorted(s) && k < |s|
    ensures s[0] <= s[k]
  {
    if k > 0 { HeadIsLeast(s[1..], k - 1); }
  }

  lemma {:induction false} InsertSorted(s: seq<int>, x: int)
    requires Sorted(s)
    ensures Sorted(Insert(s, x))
  {
    if s == [] || x <= s[0] {
      assert ([x] + s)[1..] == s;
    } else {
      InsertSorted(s[1..], x);
      assert Insert(s, x)[1..] == Insert(s[1..], x);
    }
  }

  lemma {:induction false} SortSorted(s: seq<int>)
    ensures Sorted(Sort(s))
  {
    if s != [] {
      SortSorted(s[..|s| - 1]);
      InsertSorted(Sort(s[..|s| - 1]), s[|s| - 1]);
    }
  }

  lemma SortAppend(s: seq<int>, x: int)
    ensures Sort(s + [x]) == Insert(Sort(s), x)
  {
    assert (s + [x])[..|s|] == s;
  }

  lemma {:induction false} SortedSuffix(s: seq<int>, d: nat)
    requires Sorted(s) && d <= |s|
    ensures Sorted(s[d..])
  {
    if d > 0 {
      SortedSuffix(s[1..], d - 1);
      assert s[1..][d - 1..] == s[d..];
    }
  }

  // ---------------------------------------------------------------- contents

  lemma {:induction false} InsertContents(s: seq<int>, x: int)
    ensures multiset(Insert(s, x)) == multiset(s) + multiset{x}
    ensures Sum(Insert(s, x)) == Sum(s) + x
  {
    if s == [] || x <= s[0] {
      assert ([x] + s)[1..] == s;
    } else {
      InsertContents(s[1..], x);
      assert s == [s[0]] + s[1..];
      assert Insert(s, x)[1..] == Insert(s[1..], x);
    }
  }

  lemma {:induction false} SumAppend(s: seq<int>, x: int)
    ensures Sum(s + [x]) == Sum(s) + x
  {
    if s != [] {
      SumAppend(s[1..], x);
      assert (s + [x])[1..] == s[1..] + [x];
    }
  }

  lemma {:induction false} SortContents(s: seq<int>)
    ensures multiset(Sort(s)) == multiset(s)
    ensures Sum(Sort(s)) == Sum(s)
  {
    if s != [] {
      var init, last := s[..|s| - 1], s[|s| - 1];
      assert s == init + [last];
      SortContents(init);
      InsertContents(Sort(init), last);
      SumAppend(init, last);
    }
  }

  lemma {:induction false} HeadIsLeastOf(a: seq<int>, x: int)
    requires Sorted(a) && x in multiset(a)
    ensures a[0] <= x
  {
    var i :| 0 <= i < |a| && a[i] == x;
    HeadIsLeast(a, i);
  }

  lemma {:induction false} TailContents(a: seq<int>)
    requires a != []
    ensures multiset(a[1..]) == multiset(a) - multiset{a[0]}
  {
    assert a == [a[0]] + a[1..];
  }

  lemma {:induction false} SameLeast(a: seq<int>, b: seq<int>)
    requires Sorted(a) && Sorted(b) && multiset(a) == multiset(b) && a != []
    ensures b != [] && a[0] == b[0]
  {
    assert a[0] in multiset(b);
    assert b[0] in multiset(a);
    HeadIsLeastOf(a, b[0]);
    HeadIsLeastOf(b, a[0]);
  }

  /** A sorted sequence is determined by its elements. */
  lemma {:induction false} SortedUnique(a: seq<int>, b: seq<int>)
    requires Sorted(a) && Sorted(b) && multiset(a) == multiset(b)
    ensures a == b
  {
    if a != [] {
      SameLeast(a, b);
      TailContents(a);
      TailContents(b);
      SortedUnique(a[1..], b[1..]);
      assert a == [a[0]] + a[1..];
    } else if b != [] {
      SameLeast(b, a);
    }
  }

  lemma {:induction false} SortOfMultiset(a: seq<int>, b: seq<int>)
    requires multiset(a) == multiset(b)
    ensures Sort(a) == Sort(b) && Sum(a) == Sum(b)
  {
    SortSorted(a);
    SortSorted(b);
    SortContents(a);
    SortContents(b);
    SortedUnique(Sort(a), Sort(b));
  }

  lemma {:induction false} SortOfSorted(s: seq<int>)
    requires Sorted(s)
    ensures Sort(s) == s
  {
    SortSorted(s);
    SortContents(s);
    SortedUnique(Sort(s), s);
  }

  /** Dropping the smallest elements commutes with inserting one more. */
  lemma {:induction false} InsertIntoSuffix(s: seq<int>, d: nat, x: int)
    requires Sorted(s) && d <= |s|
    ensures Insert(s, x)[d + 1..] == Insert(s[d..], x)[1..]
  {
    if d == 0 {
      assert s[0..] == s;
    } else if x <= s[0] {
      if d < |s| { HeadIsLeast(s, d); }
      assert Insert(s, x)[d + 1..] == s[d..];
    } else {
      InsertIntoSuffix(s[1..], d - 1, x);
      assert s[1..][d - 1..] == s[d..];
      assert Insert(s, x)[d + 1..] == Insert(s[1..], x)[d..];
    }
  }
}
