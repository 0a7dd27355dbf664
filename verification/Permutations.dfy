/** Sequences up to order: distinct elements, images, and sorting by a key. */
module Permutations {
  import opened Names

  function Map<T, U>(f: T -> U, s: seq<T>): (image: seq<U>)
    ensures |image| == |s|
    ensures forall i :: 0 <= i < |s| ==> image[i] == f(s[i])
  {
    if s == [] then [] else Map(f, s[..|s| - 1]) + [f(s[|s| - 1])]
  }

  predicate Distinct<T(==)>(s: seq<T>) {
    forall i, j :: 0 <= i < j < |s| ==> s[i] != s[j]
  }

  lemma DistinctAppend<T>(s: seq<T>, x: T)
    ensures Distinct(s + [x]) <==> Distinct(s) && x !in s
  {
    if Distinct(s + [x]) {
      forall i, j | 0 <= i < j < |s|
        ensures s[i] != s[j]
      {
        assert (s + [x])[i] != (s + [x])[j];
      }
      forall i | 0 <= i < |s|
        ensures s[i] != x
      {
        assert (s + [x])[i] != (s + [x])[|s|];
      }
    }
  }

  /** Distinct means that nothing is counted twice. */
  lemma {:induction false} DistinctCounts<T>(s: seq<T>)
    ensures Distinct(s) <==> forall x :: x in s ==> multiset(s)[x] == 1
    decreases |s|
  {
    if s != [] {
      var front, last := s[..|s| - 1], s[|s| - 1];
      assert s == front + [last];
      DistinctCounts(front);
      DistinctAppend(front, last);
      forall x
        ensures multiset(s)[x] == multiset(front)[x] + (if x == last then 1 else 0)
        ensures x in front <==> multiset(front)[x] > 0
      {
      }
    }
  }

  lemma DistinctPermutes<T>(a: seq<T>, b: seq<T>)
    requires multiset(a) == multiset(b)
    ensures Distinct(a) <==> Distinct(b)
  {
    DistinctCounts(a);
    DistinctCounts(b);
    forall x
      ensures x in a <==> x in b
    {
      assert x in a <==> x in multiset(a);
      assert x in b <==> x in multiset(b);
    }
  }

  lemma InPermutes<T>(a: seq<T>, b: seq<T>, x: T)
    requires multiset(a) == multiset(b)
    ensures x in a <==> x in b
  {
    assert x in a <==> x in multiset(a);
    assert x in b <==> x in multiset(b);
  }

  lemma LengthPermutes<T>(a: seq<T>, b: seq<T>)
    requires multiset(a) == multiset(b)
    ensures |a| == |b|
  {
    assert |a| == |multiset(a)| && |b| == |multiset(b)|;
  }

  /** One or two elements are in one of at most two orders. */
  lemma SmallPermutation<T>(a: seq<T>, b: seq<T>)
    requires multiset(a) == multiset(b) && (|a| == 1 || |a| == 2)
    ensures a == b || (|a| == |b| == 2 && a[0] == b[1] && a[1] == b[0])
  {
    LengthPermutes(a, b);
    if |a| == 1 {
      InPermutes(a, b, a[0]);
    } else {
      assert a == [a[0], a[1]] && b == [b[0], b[1]];
      PairPermutes(a[0], a[1], b[0], b[1]);
    }
  }

  lemma PairPermutes<T>(p: T, q: T, r: T, s: T)
    requires multiset([p, q]) == multiset([r, s])
    ensures (p == r && q == s) || (p == s && q == r)
  {
    assert multiset([p, q]) == multiset{p, q} && multiset([r, s]) == multiset{r, s};
    assert p in multiset{r, s} && q in multiset{r, s};
    if p == r {
      SameRest(multiset{q}, multiset{s}, p);
      assert q in multiset{s};
    } else {
      SameRest(multiset{q}, multiset{r}, p);
      assert q in multiset{r};
    }
  }

  lemma SameRest<T>(a: multiset<T>, b: multiset<T>, x: T)
    requires a + multiset{x} == b + multiset{x}
    ensures a == b
  {
    assert a == a + multiset{x} - multiset{x};
    assert b == b + multiset{x} - multiset{x};
  }

  lemma RemoveAt<T>(s: seq<T>, i: nat)
    requires i < |s|
    ensures multiset(s) == multiset(s[..i] + s[i + 1..]) + multiset{s[i]}
  {
    assert s == s[..i] + [s[i]] + s[i + 1..];
  }

  lemma {:induction false} MapRemove<T, U>(f: T -> U, s: seq<T>, i: nat)
    requires i < |s|
    ensures multiset(Map(f, s)) == multiset(Map(f, s[..i] + s[i + 1..])) + multiset{f(s[i])}
  {
    var image, rest := Map(f, s), s[..i] + s[i + 1..];
    assert Map(f, rest) == image[..i] + image[i + 1..];
    RemoveAt(image, i);
  }

  /** The last element of one order, found in another, and what is left of both without it. */
  lemma LastIsFound<T>(a: seq<T>, b: seq<T>) returns (i: nat)
    requires a != [] && multiset(a) == multiset(b)
    ensures i < |b| && b[i] == a[|a| - 1]
    ensures multiset(a[..|a| - 1]) == multiset(b[..i] + b[i + 1..])
  {
    var front, last := a[..|a| - 1], a[|a| - 1];
    assert a == front + [last];
    assert last in multiset(a);
    assert last in b;
    i :| 0 <= i < |b| && b[i] == last;
    RemoveAt(b, i);
    SameRest(multiset(front), multiset(b[..i] + b[i + 1..]), last);
  }

  lemma MapLast<T, U>(f: T -> U, a: seq<T>)
    requires a != []
    ensures multiset(Map(f, a)) == multiset(Map(f, a[..|a| - 1])) + multiset{f(a[|a| - 1])}
  {
  }

  /** An image does not depend on the order but for its own order. */
  lemma {:induction false} MapPermutes<T, U>(f: T -> U, a: seq<T>, b: seq<T>)
    requires multiset(a) == multiset(b)
    ensures multiset(Map(f, a)) == multiset(Map(f, b))
    decreases |a|
  {
    hide Map;
    if a == [] {
      assert |b| == |multiset(b)| == 0;
    } else {
      var i := LastIsFound(a, b);
      MapPermutes(f, a[..|a| - 1], b[..i] + b[i + 1..]);
      MapLast(f, a);
      MapRemove(f, b, i);
    }
  }

  // Sorting

  predicate SortedBy<T>(s: seq<T>, key: T -> string) {
    forall i, j :: 0 <= i < j < |s| ==> !Less(key(s[j]), key(s[i]))
  }

  method SortBy<T>(s: seq<T>, key: T -> string) returns (r: seq<T>)
    ensures multiset(r) == multiset(s) && SortedBy(r, key)
  {
    r := [];
    assert s[..0] == [];
    for k := 0 to |s|
      invariant multiset(r) == multiset(s[..k]) && SortedBy(r, key)
    {
      assert s[..k + 1] == s[..k] + [s[k]];
      r := Insert(r, s[k], key);
    }
    assert s[..|s|] == s;
  }

  /** Puts `x` behind everything that is not greater. */
  method Insert<T>(s: seq<T>, x: T, key: T -> string) returns (r: seq<T>)
    requires SortedBy(s, key)
    ensures multiset(r) == multiset(s) + multiset{x} && SortedBy(r, key)
  {
    var i := |s|;
    while i > 0 && Less(key(x), key(s[i - 1]))
      invariant 0 <= i <= |s|
      invariant forall j :: i <= j < |s| ==> Less(key(x), key(s[j]))
    {
      i := i - 1;
    }
    r := s[..i] + [x] + s[i..];
    assert s == s[..i] + s[i..];
    InsertedIsSorted(s, x, key, i);
  }

  lemma InsertedIsSorted<T>(s: seq<T>, x: T, key: T -> string, i: nat)
    requires SortedBy(s, key) && i <= |s|
    requires forall j :: i <= j < |s| ==> Less(key(x), key(s[j]))
    requires i > 0 ==> !Less(key(x), key(s[i - 1]))
    ensures SortedBy(s[..i] + [x] + s[i..], key)
  {
    var r := s[..i] + [x] + s[i..];
    forall j, k | 0 <= j < k < |r|
      ensures !Less(key(r[k]), key(r[j]))
    {
      var a, b := if j < i then j else j - 1, if k < i then k else k - 1;
      if j == i {
        LessIsTotal(key(x), key(s[k - 1]));
      } else if k == i {
        LessIsTotal(key(x), key(s[i - 1]));
        if j < i - 1 {
          assert !Less(key(s[i - 1]), key(s[j]));
          NotLessIsTransitive(key(s[j]), key(s[i - 1]), key(x));
        }
      } else {
        assert r[j] == s[a] && r[k] == s[b];
      }
    }
  }

  lemma NotLessIsTransitive(a: string, b: string, c: string)
    requires !Less(b, a) && !Less(c, b)
    ensures !Less(c, a)
  {
    LessIsTotal(a, b);
    LessIsTotal(b, c);
    if Less(c, a) {
      if a == b {
      } else if b == c {
      } else {
        LessIsTransitive(a, b, c);
        LessIsTotal(a, c);
      }
    }
  }

  lemma FirstIsLeast<T>(s: seq<T>, x: T, key: T -> string)
    requires s != [] && SortedBy(s, key) && x in s
    ensures !Less(key(x), key(s[0]))
  {
    var i :| 0 <= i < |s| && s[i] == x;
    if i == 0 {
      LessIsTotal(key(x), key(x));
    }
  }

  lemma SameFirst<T>(a: seq<T>, b: seq<T>, key: T -> string)
    requires multiset(a) == multiset(b) && SortedBy(a, key) && SortedBy(b, key) && a != [] && b != []
    requires forall x, y :: x in a && y in a && key(x) == key(y) ==> x == y
    ensures a[0] == b[0]
  {
    InPermutes(a, b, a[0]);
    InPermutes(a, b, b[0]);
    FirstIsLeast(a, b[0], key);
    FirstIsLeast(b, a[0], key);
    LessIsTotal(key(a[0]), key(b[0]));
  }

  /** With distinct keys there is one sorted order. */
  lemma {:induction false} SortedIsUnique<T>(a: seq<T>, b: seq<T>, key: T -> string)
    requires multiset(a) == multiset(b) && SortedBy(a, key) && SortedBy(b, key)
    requires forall x, y :: x in a && y in a && key(x) == key(y) ==> x == y
    ensures a == b
    decreases |a|
  {
    hide SortedBy;
    assert |a| == |multiset(a)| == |multiset(b)| == |b|;
    if a != [] {
      SameFirst(a, b, key);
      assert a == [a[0]] + a[1..] && b == [b[0]] + b[1..];
      assert multiset(a[1..]) == multiset(a) - multiset{a[0]};
      assert multiset(b[1..]) == multiset(b) - multiset{b[0]};
      TailSorted(a, key);
      TailSorted(b, key);
      SortedIsUnique(a[1..], b[1..], key);
    }
  }

  lemma TailSorted<T>(s: seq<T>, key: T -> string)
    requires s != [] && SortedBy(s, key)
    ensures SortedBy(s[1..], key)
  {
    forall i, j | 0 <= i < j < |s[1..]|
      ensures !Less(key(s[1..][j]), key(s[1..][i]))
    {
      assert !Less(key(s[j + 1]), key(s[i + 1]));
    }
  }
}
