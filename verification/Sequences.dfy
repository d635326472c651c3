/** Options, results and sorting by a total order: what the other modules need of Go's `sort` package. */
module Sequences {

  datatype Option<+T> = None | Some(value: T)

  datatype Result<+T, +E> = Ok(value: T) | Err(error: E)

  ghost predicate TotalOrder<T(!new)>(leq: (T, T) -> bool) {
    && (forall x, y :: leq(x, y) || leq(y, x))
    && (forall x, y :: leq(x, y) && leq(y, x) ==> x == y)
    && (forall x, y, z :: leq(x, y) && leq(y, z) ==> leq(x, z))
  }

  ghost predicate SortedBy<T>(leq: (T, T) -> bool, s: seq<T>) {
    forall i, j | 0 <= i < j < |s| :: leq(s[i], s[j])
  }

  ghost predicate NoDuplicates<T>(s: seq<T>) {
    forall i, j | 0 <= i < j < |s| :: s[i] != s[j]
  }

  function InsertBy<T>(leq: (T, T) -> bool, x: T, s: seq<T>): seq<T> {
    if s == [] || leq(x, s[0]) then [x] + s else [s[0]] + InsertBy(leq, x, s[1..])
  }

  function SortBy<T>(leq: (T, T) -> bool, s: seq<T>): seq<T> {
    if s == [] then [] else InsertBy(leq, s[0], SortBy(leq, s[1..]))
  }

  lemma {:induction false} InsertByIn<T>(leq: (T, T) -> bool, x: T, s: seq<T>)
    ensures forall y | y in InsertBy(leq, x, s) :: y == x || y in s
  {
    if s != [] && !leq(x, s[0]) { InsertByIn(leq, x, s[1..]); }
  }

  lemma {:induction false} InsertByKeeps<T>(leq: (T, T) -> bool, x: T, s: seq<T>)
    ensures multiset(InsertBy(leq, x, s)) == multiset{x} + multiset(s)
  {
    if s != [] && !leq(x, s[0]) {
      InsertByKeeps(leq, x, s[1..]);
      assert s == [s[0]] + s[1..];
    }
  }

  lemma {:induction false} InsertBySpec<T(!new)>(leq: (T, T) -> bool, x: T, s: seq<T>)
    requires TotalOrder(leq) && SortedBy(leq, s)
    ensures multiset(InsertBy(leq, x, s)) == multiset{x} + multiset(s)
    ensures SortedBy(leq, InsertBy(leq, x, s))
  {
    InsertByKeeps(leq, x, s);
    if s != [] && !leq(x, s[0]) {
      InsertBySpec(leq, x, s[1..]);
      InsertByIn(leq, x, s[1..]);
      var t := InsertBy(leq, x, s[1..]);
      forall j | 0 <= j < |t| ensures leq(s[0], t[j]) {
        assert t[j] in t;
      }
    }
  }

  /** Sorting yields an ordered rearrangement. */
  lemma {:induction false} SortBySpec<T(!new)>(leq: (T, T) -> bool, s: seq<T>)
    requires TotalOrder(leq)
    ensures multiset(SortBy(leq, s)) == multiset(s)
    ensures SortedBy(leq, SortBy(leq, s))
  {
    if s != [] {
      SortBySpec(leq, s[1..]);
      InsertBySpec(leq, s[0], SortBy(leq, s[1..]));
      assert s == [s[0]] + s[1..];
    }
  }

  lemma SameLeast<T(!new)>(leq: (T, T) -> bool, a: seq<T>, b: seq<T>)
    requires TotalOrder(leq) && SortedBy(leq, a) && SortedBy(leq, b)
    requires a != [] && multiset(a) == multiset(b)
    ensures b != [] && a[0] == b[0]
  {
    var j := FindIn(a[0], a, b);
    var i := FindIn(b[0], b, a);
    assert (i > 0 ==> leq(a[0], a[i])) && (j > 0 ==> leq(b[0], b[j]));
  }

  /** There is only one ordered rearrangement. */
  lemma {:induction false} SortedUnique<T(!new)>(leq: (T, T) -> bool, a: seq<T>, b: seq<T>)
    requires TotalOrder(leq) && SortedBy(leq, a) && SortedBy(leq, b)
    requires multiset(a) == multiset(b)
    ensures a == b
  {
    hide TotalOrder;
    if a == [] {
      assert |multiset(b)| == |b|;
    } else {
      SameLeast(leq, a, b);
      TailsRearranged(a, b);
      SortedUnique(leq, a[1..], b[1..]);
      assert a == [a[0]] + a[1..] && b == [b[0]] + b[1..];
    }
  }

  /** A list without duplicates holds each of its elements once. */
  lemma {:induction false} MultisetOfDistinct<T>(s: seq<T>, x: T)
    requires NoDuplicates(s)
    ensures multiset(s)[x] == if x in s then 1 else 0
  {
    if s != [] {
      assert s == [s[0]] + s[1..];
      MultisetOfDistinct(s[1..], x);
    }
  }

  lemma TwoOccurrences<T>(s: seq<T>, i: nat, j: nat)
    requires i < j < |s|
    ensures s[i] == s[j] ==> multiset(s)[s[i]] >= 2
  {
    var p, q := s[..j], s[j..];
    assert s == p + q && p[i] == s[i] && q[0] == s[j];
    assert multiset(p)[s[i]] >= 1 && multiset(q)[s[j]] >= 1;
  }

  lemma MultisetMiddle<T>(x: seq<T>, y: seq<T>, z: seq<T>)
    ensures multiset(x + (y + z)) == multiset(x + z) + multiset(y)
  {}

  lemma Without<T>(a: seq<T>, j: nat)
    requires j < |a|
    ensures multiset(a) == multiset(a[..j] + a[j + 1..]) + multiset([a[j]])
  {
    assert a == a[..j] + ([a[j]] + a[j + 1..]);
    MultisetMiddle(a[..j], [a[j]], a[j + 1..]);
  }

  lemma Cancel<T>(x: multiset<T>, y: multiset<T>, e: multiset<T>)
    requires x + e == y + e
    ensures x == y
  {
    assert x == (x + e) - e;
  }

  lemma FindIn<T>(x: T, a: seq<T>, b: seq<T>) returns (j: nat)
    requires x in a && multiset(a) == multiset(b)
    ensures j < |b| && b[j] == x
  {
    assert x in multiset(b);
    j :| 0 <= j < |b| && b[j] == x;
  }

  /** Where a rearrangement keeps the first element, and what remains when it is taken out. */
  lemma PermutationStep<T>(a: seq<T>, b: seq<T>) returns (j: nat)
    requires a != [] && multiset(a) == multiset(b)
    ensures j < |b| && b[j] == a[0]
    ensures multiset(a[1..]) == multiset(b[..j] + b[j + 1..])
  {
    j := FindIn(a[0], a, b);
    WithoutFirst(a);
    Without(b, j);
    Cancel(multiset(a[1..]), multiset(b[..j] + b[j + 1..]), multiset([a[0]]));
  }

  lemma WithoutFirst<T>(a: seq<T>)
    requires a != []
    ensures multiset(a) == multiset(a[1..]) + multiset([a[0]])
  {
    assert a == [a[0]] + a[1..];
  }

  lemma TailsRearranged<T>(a: seq<T>, b: seq<T>)
    requires a != [] && b != [] && a[0] == b[0] && multiset(a) == multiset(b)
    ensures multiset(a[1..]) == multiset(b[1..])
  {
    WithoutFirst(a);
    WithoutFirst(b);
    Cancel(multiset(a[1..]), multiset(b[1..]), multiset([a[0]]));
  }

  lemma SameLength<T>(a: seq<T>, b: seq<T>)
    requires multiset(a) == multiset(b)
    ensures |a| == |b|
  {
    assert |multiset(a)| == |a| && |multiset(b)| == |b|;
  }

  /** xs is ys with some elements left out. */
  predicate Subsequence<T(==)>(xs: seq<T>, ys: seq<T>)
    decreases |ys|
  {
    xs == [] || (ys != [] &&
      (Subsequence(xs, ys[..|ys| - 1])
       || (xs[|xs| - 1] == ys[|ys| - 1] && Subsequence(xs[..|xs| - 1], ys[..|ys| - 1]))))
  }

  lemma {:induction false} SubsequenceCounts<T>(xs: seq<T>, ys: seq<T>)
    requires Subsequence(xs, ys)
    ensures multiset(xs) <= multiset(ys)
    decreases |ys|
  {
    if xs != [] {
      var init := ys[..|ys| - 1];
      assert ys == init + [ys[|ys| - 1]];
      if Subsequence(xs, init) {
        SubsequenceCounts(xs, init);
      } else {
        assert xs == xs[..|xs| - 1] + [xs[|xs| - 1]];
        SubsequenceCounts(xs[..|xs| - 1], init);
      }
    }
  }
}
