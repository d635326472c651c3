/** Laws of the exported buckets: order independence, the overflow bucket, and when buckets are cumulative. */
module BucketLaws {
  import opened Sequences
  import opened Machine
  import opened Metrics
  import opened HistogramMerge
  import opened BucketExport

  // ---------- Permuting (bound, count) pairs changes nothing ----------

  function Pairs(bounds: seq<real>, counts: seq<U64>): seq<(real, U64)>
    requires |bounds| <= |counts|
  {
    seq(|bounds|, i requires 0 <= i < |bounds| => (bounds[i], counts[i]))
  }

  function PairSum(ps: seq<(real, U64)>, b: real): U64 {
    if ps == [] then 0 else
      Add64(PairSum(ps[..|ps| - 1], b), if ps[|ps| - 1].0 <= b then ps[|ps| - 1].1 else 0)
  }

  lemma {:induction false} PairSumConcat(ps: seq<(real, U64)>, qs: seq<(real, U64)>, b: real)
    ensures PairSum(ps + qs, b) == Add64(PairSum(ps, b), PairSum(qs, b))
  {
    if qs == [] {
      assert ps + qs == ps;
    } else {
      var q := qs[..|qs| - 1];
      assert (ps + qs)[..|ps + qs| - 1] == ps + q;
      PairSumConcat(ps, q, b);
      var last: U64 := if qs[|qs| - 1].0 <= b then qs[|qs| - 1].1 else 0;
      assert Add64(Add64(PairSum(ps, b), PairSum(q, b)), last) == Add64(PairSum(ps, b), Add64(PairSum(q, b), last));
    }
  }

  lemma PairSumWithout(qs: seq<(real, U64)>, j: nat, b: real)
    requires j < |qs|
    ensures PairSum(qs, b) == Add64(PairSum(qs[..j] + qs[j + 1..], b), if qs[j].0 <= b then qs[j].1 else 0)
  {
    var l, r, one := qs[..j], qs[j + 1..], [qs[j]];
    assert qs == (l + one) + r;
    PairSumConcat(l + one, r, b);
    PairSumConcat(l, one, b);
    PairSumConcat(l, r, b);
    assert PairSum(one, b) == Add64(PairSum(one[..0], b), if qs[j].0 <= b then qs[j].1 else 0);
  }

  lemma {:induction false} PairSumPermutation(ps: seq<(real, U64)>, qs: seq<(real, U64)>, b: real)
    requires multiset(ps) == multiset(qs)
    ensures PairSum(ps, b) == PairSum(qs, b)
  {
    hide Add64, PairSum;
    SameLength(ps, qs);
    if ps != [] {
      var j := PermutationStep(ps, qs);
      PairSumPermutation(ps[1..], qs[..j] + qs[j + 1..], b);
      PairSumWithout(qs, j, b);
      PairSumWithout(ps, 0, b);
      assert ps[..0] + ps[0 + 1..] == ps[1..];
    } else {
      assert qs == [];
    }
  }

  lemma {:induction false} DistinctIsPairSum(bounds: seq<real>, counts: seq<U64>, n: nat, b: real)
    requires NoDuplicates(bounds) && n <= |bounds| <= |counts|
    ensures CumulativeCount(bounds, counts, n, b) == PairSum(Pairs(bounds, counts)[..n], b)
  {
    if n > 0 {
      DistinctIsPairSum(bounds, counts, n - 1, b);
      assert Pairs(bounds, counts)[..n][..n - 1] == Pairs(bounds, counts)[..n - 1];
    }
  }

  /** For distinct bounds the export depends only on which bound carries which count, not on their order. */
  lemma ExportIgnoresOrder(v: Payload, w: Payload, b: real)
    requires v.HistogramValue? && w.HistogramValue? && NoDuplicates(v.bounds) && NoDuplicates(w.bounds)
    requires |v.bounds| <= |v.counts| && |w.bounds| <= |w.counts|
    requires multiset(Pairs(v.bounds, v.counts)) == multiset(Pairs(w.bounds, w.counts))
    ensures ExportedBucket(v, b) == ExportedBucket(w, b)
  {
    var p, q := Pairs(v.bounds, v.counts), Pairs(w.bounds, w.counts);
    DistinctIsPairSum(v.bounds, v.counts, |v.bounds|, b);
    DistinctIsPairSum(w.bounds, w.counts, |w.bounds|, b);
    assert p[..|p|] == p && q[..|q|] == q;
    PairSumPermutation(p, q, b);
  }

  // ---------- What a bucket counts ----------

  ghost predicate Increasing(bounds: seq<real>) {
    forall i, j | 0 <= i < j < |bounds| :: bounds[i] < bounds[j]
  }

  lemma {:induction false} IncreasingCount(bounds: seq<real>, counts: seq<U64>, n: nat, i: nat)
    requires Increasing(bounds) && n <= |bounds| <= |counts| && i < |bounds|
    ensures CumulativeCount(bounds, counts, n, bounds[i]) == Sum64(counts[..if n <= i + 1 then n else i + 1])
  {
    if n > 0 {
      IncreasingCount(bounds, counts, n - 1, i);
      assert counts[..n][..n - 1] == counts[..n - 1];
    }
  }

  /** For increasing bounds a bucket is the sum of the counts up to its own. */
  lemma BucketOfIncreasing(v: Payload, i: nat)
    requires v.HistogramValue? && Increasing(v.bounds) && i < |v.bounds| <= |v.counts|
    ensures ExportedBucket(v, v.bounds[i]) == Sum64(v.counts[..i + 1])
  {
    IncreasingCount(v.bounds, v.counts, |v.bounds|, i);
  }

  function Drop<T>(s: seq<T>, i: nat): seq<T>
    requires i < |s|
  {
    s[..i] + s[i + 1..]
  }

  lemma FirstAfterDrop(bounds: seq<real>, i: nat, n: nat)
    requires i <= n < |bounds| - 1 && bounds[i] in bounds[..i]
    ensures FirstAt(Drop(bounds, i), n) == FirstAt(bounds, n + 1)
  {
    var b, d := bounds[n + 1], Drop(bounds, i);
    var k :| 0 <= k < i && bounds[k] == bounds[i];
    assert d[n] == b && d[k] == bounds[k];
    if j :| 0 <= j < n + 1 && bounds[j] == b {
      var m := if j < i then j else if j == i then k else j - 1;
      assert m < n && d[m] == b;
    }
    if m :| 0 <= m < n && d[m] == b {
      assert bounds[if m < i then m else m + 1] == b;
    }
  }

  lemma {:induction false} DropRepeated(bounds: seq<real>, counts: seq<U64>, i: nat, n: nat, b: real)
    requires i < |bounds| <= |counts| && bounds[i] in bounds[..i] && n < |bounds|
    ensures CumulativeCount(Drop(bounds, i), Drop(counts, i), n, b)
         == CumulativeCount(bounds, counts, if n <= i then n else n + 1, b)
    ensures n == i ==> CumulativeCount(bounds, counts, i + 1, b) == CumulativeCount(bounds, counts, i, b)
  {
    if n > 0 {
      DropRepeated(bounds, counts, i, n - 1, b);
      if n - 1 >= i {
        FirstAfterDrop(bounds, i, n - 1);
      } else {
        assert Drop(bounds, i)[..n - 1] == bounds[..n - 1];
      }
    }
  }

  /** A repeated bound shows the count of its first occurrence: the export is as if the others were not there. */
  lemma RepeatedBoundHidden(v: Payload, i: nat, b: real)
    requires v.HistogramValue? && i < |v.bounds| <= |v.counts| && v.bounds[i] in v.bounds[..i]
    ensures ExportedBucket(v, b) == ExportedBucket(v.(bounds := Drop(v.bounds, i), counts := Drop(v.counts, i)), b)
  {
    DropRepeated(v.bounds, v.counts, i, |v.bounds| - 1, b);
  }

  // ---------- The overflow bucket ----------

  /** The counts that no bucket shows, because their bound occurs before. */
  function RepeatedCount(bounds: seq<real>, counts: seq<U64>, n: nat): U64
    requires n <= |bounds|
  {
    if n == 0 then 0 else
      Add64(RepeatedCount(bounds, counts, n - 1), if FirstAt(bounds, n - 1) then 0 else CountAt(counts, n - 1))
  }

  lemma {:induction false} CumulativeOfAll(bounds: seq<real>, counts: seq<U64>, n: nat, b: real)
    requires n <= |bounds| <= |counts| && forall x | x in bounds :: x <= b
    ensures Sum64(counts[..n]) == Add64(CumulativeCount(bounds, counts, n, b), RepeatedCount(bounds, counts, n))
  {
    if n > 0 {
      CumulativeOfAll(bounds, counts, n - 1, b);
      assert counts[..n][..n - 1] == counts[..n - 1] && bounds[n - 1] in bounds;
    }
  }

  lemma {:induction false} NothingRepeated(bounds: seq<real>, counts: seq<U64>, n: nat)
    requires NoDuplicates(bounds) && n <= |bounds|
    ensures RepeatedCount(bounds, counts, n) == 0
  {
    if n > 0 { NothingRepeated(bounds, counts, n - 1); }
  }

  /** b is the largest bound. */
  predicate Largest(bounds: seq<real>, b: real) {
    b in bounds && forall x | x in bounds :: x <= b
  }

  /** The count is the bucket of the largest bound plus what repeated bounds hide plus the overflow bucket. */
  lemma OverflowBucket(v: Payload, b: real)
    requires v.HistogramValue? && Shaped(v) && Conserved(v) && Largest(v.bounds, b)
    ensures v.count == Add64(Add64(ExportedBucket(v, b), RepeatedCount(v.bounds, v.counts, |v.bounds|)),
                             v.counts[|v.bounds|])
    ensures NoDuplicates(v.bounds) ==> v.count == Add64(ExportedBucket(v, b), v.counts[|v.bounds|])
  {
    CumulativeOfAll(v.bounds, v.counts, |v.bounds|, b);
    if NoDuplicates(v.bounds) { NothingRepeated(v.bounds, v.counts, |v.bounds|); }
  }

  // ---------- When the buckets are cumulative ----------

  /** The cumulative count without wrap-around. */
  function CumulativeNat(bounds: seq<real>, counts: seq<U64>, n: nat, b: real): nat
    requires n <= |bounds|
  {
    if n == 0 then 0 else
      CumulativeNat(bounds, counts, n - 1, b)
      + if FirstAt(bounds, n - 1) && bounds[n - 1] <= b then CountAt(counts, n - 1) else 0
  }

  lemma {:induction false} CumulativeNatStep(bounds: seq<real>, counts: seq<U64>, n: nat,
                                             low: Option<real>, b: real, i: nat)
    requires n <= |bounds| && NextBound(bounds, low, b) && i < |bounds| && bounds[i] == b && FirstAt(bounds, i)
    ensures CumulativeNat(bounds, counts, n, b)
         == (if low.Some? then CumulativeNat(bounds, counts, n, low.value) else 0)
            + if i < n then CountAt(counts, i) else 0
  {
    if n > 0 {
      CumulativeNatStep(bounds, counts, n - 1, low, b, i);
      assert bounds[n - 1] in bounds;
      if n - 1 > i { assert bounds[i] in bounds[..n - 1]; }
      if n - 1 < i { assert bounds[n - 1] in bounds[..i]; }
    }
  }

  lemma {:induction false} CumulativeNatGrows(bounds: seq<real>, counts: seq<U64>, n: nat, b: real, c: real)
    requires n <= |bounds| && b <= c
    ensures CumulativeNat(bounds, counts, n, b) <= CumulativeNat(bounds, counts, n, c)
  {
    if n > 0 { CumulativeNatGrows(bounds, counts, n - 1, b, c); }
  }

  lemma {:induction false} NoWrap(bounds: seq<real>, counts: seq<U64>, n: nat, b: real)
    requires n <= |bounds| && CumulativeNat(bounds, counts, n, b) < TWO64
    ensures CumulativeCount(bounds, counts, n, b) == CumulativeNat(bounds, counts, n, b)
  {
    if n > 0 { NoWrap(bounds, counts, n - 1, b); }
  }

  /** What Prometheus expects of buckets: non-decreasing in the bound and at most the count. */
  ghost predicate CumulativeBuckets(v: Payload)
    requires v.HistogramValue?
  {
    && (forall b, c | b in v.bounds && c in v.bounds && b <= c :: ExportedBucket(v, b) <= ExportedBucket(v, c))
    && (forall b | b in v.bounds :: ExportedBucket(v, b) <= v.count)
  }

  /** The largest bound below b, if any. */
  function Below(bounds: seq<real>, b: real): (low: Option<real>)
    ensures NextBound(bounds, low, b) && (low.Some? ==> low.value in bounds)
  {
    if bounds == [] then None else
      var low, x := Below(bounds[..|bounds| - 1], b), bounds[|bounds| - 1];
      assert bounds == bounds[..|bounds| - 1] + [x];
      if x < b && (low.Some? ==> low.value < x) then Some(x) else low
  }

  lemma {:induction false} FirstOccurrence(bounds: seq<real>, b: real, n: nat) returns (i: nat)
    requires n <= |bounds| && b in bounds[..n]
    ensures i < n && bounds[i] == b && FirstAt(bounds, i)
  {
    i := n - 1;
    if b in bounds[..n - 1] { i := FirstOccurrence(bounds, b, n - 1); }
  }

  function SmallerBounds(bounds: seq<real>, b: real): set<real> {
    set x | x in bounds && x < b
  }

  /** Buckets that never decrease have not wrapped. */
  lemma {:induction false} MonotoneNoWrap(v: Payload, b: real)
    requires v.HistogramValue? && CumulativeBuckets(v) && b in v.bounds
    ensures ExportedBucket(v, b) == CumulativeNat(v.bounds, v.counts, |v.bounds|, b)
    decreases SmallerBounds(v.bounds, b)
  {
    var low, n := Below(v.bounds, b), |v.bounds|;
    assert v.bounds[..n] == v.bounds;
    var i := FirstOccurrence(v.bounds, b, n);
    CumulativeStep(v.bounds, v.counts, n, low, b, i);
    CumulativeNatStep(v.bounds, v.counts, n, low, b, i);
    if low.Some? {
      assert low.value in SmallerBounds(v.bounds, b) && low.value !in SmallerBounds(v.bounds, low.value);
      MonotoneNoWrap(v, low.value);
    }
  }

  /** The exported buckets are cumulative exactly when the true number of observations up to the largest bound neither
      overflows 64 bits nor exceeds the count. */
  lemma CumulativeExactly(v: Payload, b: real)
    requires v.HistogramValue? && Largest(v.bounds, b)
    ensures CumulativeBuckets(v) <==>
      CumulativeNat(v.bounds, v.counts, |v.bounds|, b) < TWO64
      && CumulativeNat(v.bounds, v.counts, |v.bounds|, b) <= v.count
  {
    var n := |v.bounds|;
    if CumulativeBuckets(v) {
      MonotoneNoWrap(v, b);
    } else if CumulativeNat(v.bounds, v.counts, n, b) < TWO64 && CumulativeNat(v.bounds, v.counts, n, b) <= v.count {
      forall c, d | c in v.bounds && d in v.bounds && c <= d
        ensures ExportedBucket(v, c) <= ExportedBucket(v, d) <= v.count
      {
        CumulativeNatGrows(v.bounds, v.counts, n, c, d);
        CumulativeNatGrows(v.bounds, v.counts, n, d, b);
        NoWrap(v.bounds, v.counts, n, c);
        NoWrap(v.bounds, v.counts, n, d);
      }
    }
  }

  lemma {:induction false} DistinctNat(bounds: seq<real>, counts: seq<U64>, n: nat, b: real)
    requires NoDuplicates(bounds) && n <= |bounds| <= |counts| && forall x | x in bounds :: x <= b
    ensures CumulativeNat(bounds, counts, n, b) == SumNat(counts[..n])
  {
    if n > 0 {
      DistinctNat(bounds, counts, n - 1, b);
      assert counts[..n][..n - 1] == counts[..n - 1] && bounds[n - 1] in bounds;
    }
  }

  lemma {:induction false} SumWraps(s: seq<U64>) returns (k: nat)
    ensures SumNat(s) == Sum64(s) + k * TWO64
  {
    k := 0;
    if s != [] {
      k := SumWraps(s[..|s| - 1]);
      if Sum64(s[..|s| - 1]) + s[|s| - 1] >= TWO64 { k := k + 1; }
    }
  }

  /** For distinct bounds that is the case exactly when the true total of the counts fits 64 bits. */
  lemma CumulativeIffNoOverflow(v: Payload)
    requires v.HistogramValue? && Shaped(v) && Conserved(v) && NoDuplicates(v.bounds)
    ensures CumulativeBuckets(v) <==> SumNat(v.counts) < TWO64
  {
    var n := |v.bounds|;
    assert v.counts[..n + 1] == v.counts;
    assert SumNat(v.counts) == SumNat(v.counts[..n]) + v.counts[n];
    var k := SumWraps(v.counts);
    if n == 0 {
      assert SumNat(v.counts[..0]) == 0;
    } else {
      var b := LargestOf(v.bounds);
      CumulativeExactly(v, b);
      DistinctNat(v.bounds, v.counts, n, b);
    }
  }

  lemma {:induction false} LargestOf(bounds: seq<real>) returns (b: real)
    requires bounds != []
    ensures Largest(bounds, b)
  {
    var x, init := bounds[|bounds| - 1], bounds[..|bounds| - 1];
    b := x;
    assert bounds == init + [x];
    if init != [] {
      var c := LargestOf(init);
      if x < c { b := c; }
    }
  }

  /** With a repeated bound the buckets can be cumulative although the total overflows. */
  lemma RepeatedBoundExample()
    ensures var v := HistogramValue(5, 0.0, [1.0, 1.0], [5, 0xFFFF_FFFF_FFFF_FFFF, 1]);
      Shaped(v) && Conserved(v) && CumulativeBuckets(v) && SumNat(v.counts) >= TWO64
  {
    var v := HistogramValue(5, 0.0, [1.0, 1.0], [5, 0xFFFF_FFFF_FFFF_FFFF, 1]);
    var c := v.counts;
    assert c[..2][..1] == c[..1] && c[..1][..0] == [];
    assert SumNat(c) == SumNat(c[..2]) + 1 && SumNat(c[..2]) == SumNat(c[..1]) + c[1] && SumNat(c[..1]) == 5;
    assert Sum64(c) == Add64(Sum64(c[..2]), 1) && Sum64(c[..2]) == Add64(Sum64(c[..1]), c[1]) && Sum64(c[..1]) == 5;
    assert FirstAt(v.bounds, 0) && v.bounds[1] in v.bounds[..1];
    assert CumulativeNat(v.bounds, c, 2, 1.0) == CumulativeNat(v.bounds, c, 1, 1.0) == 5;
    CumulativeExactly(v, 1.0);
  }
}
