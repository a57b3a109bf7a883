/**
 The mergeable log2 histogram of the disk-write observer: 64 buckets, a zero count, a saturating sum,
 a time span and a nearest-rank p99, persisted as a sparse record.
 */
module DiskHistogram {
  import opened Prelude

  const TWO64: nat := 0x1_0000_0000_0000_0000
  const MAX64: nat := 0xFFFF_FFFF_FFFF_FFFF
  const BUCKETS: nat := 64

  function Wrap(x: nat): nat { x % TWO64 }
  function SaturatingAdd(a: nat, b: nat): nat { if a + b > MAX64 then MAX64 else a + b }

  function Pow2(n: nat): (p: nat)
    ensures p >= 1
  {
    if n == 0 then 1 else 2 * Pow2(n - 1)
  }

  /** `bits.Len64(v) - 1`. */
  function Log2(v: nat): nat
    requires v > 0
  {
    if v == 1 then 0 else 1 + Log2(v / 2)
  }

  lemma {:induction false} Log2Brackets(v: nat)
    requires v > 0
    ensures Pow2(Log2(v)) <= v < Pow2(Log2(v) + 1)
  {
    if v > 1 { Log2Brackets(v / 2); }
  }

  lemma {:induction false} Pow2Grows(a: nat, b: nat)
    requires a <= b
    ensures 1 <= Pow2(a) <= Pow2(b)
  {
    if a < b { Pow2Grows(a, b - 1); } else if a > 0 { Pow2Grows(a - 1, b - 1); }
  }

  lemma Pow2Of64()
    ensures Pow2(64) == TWO64
  {
    Pow2Of8();
    hide Pow2;
    Pow2Plus(8, 8);
    Pow2Plus(16, 16);
    Pow2Plus(32, 32);
    assert Pow2(16) == 0x1_0000;
    assert Pow2(32) == 0x1_0000_0000;
  }

  lemma Pow2Of8()
    ensures Pow2(8) == 256
  {
    assert Pow2(4) == 16;
  }

  lemma {:induction false} Pow2Plus(a: nat, b: nat)
    ensures Pow2(a + b) == Pow2(a) * Pow2(b)
  {
    if b > 0 {
      Pow2Plus(a, b - 1);
      assert a + b - 1 == a + (b - 1);
    }
  }

  /** The bucket of a 64-bit value is one of the 64, and it is the one whose range holds the value. */
  lemma BucketHolds(v: nat, i: nat)
    requires 0 < v < TWO64
    ensures Log2(v) < BUCKETS
    ensures Log2(v) == i <==> Pow2(i) <= v < Pow2(i + 1)
  {
    Log2Brackets(v);
    Pow2Of64();
    if Log2(v) >= 64 { Pow2Grows(64, Log2(v)); }
    if Log2(v) < i { Pow2Grows(Log2(v) + 1, i); } else if i < Log2(v) { Pow2Grows(i + 1, Log2(v)); }
  }

  // ----- histograms as values -----

  datatype Histogram = Histogram(zero: nat, buckets: seq<nat>, count: nat, sum: nat, firstAt: Time, lastAt: Time)

  ghost predicate WellFormed(h: Histogram) {
    && |h.buckets| == BUCKETS && (forall i :: 0 <= i < BUCKETS ==> h.buckets[i] < TWO64)
    && h.zero < TWO64 && h.count < TWO64 && h.sum < TWO64 && 0 <= h.firstAt && 0 <= h.lastAt
  }

  datatype Sample = Sample(value: nat, at: Time)
  ghost predicate Real(s: seq<Sample>) {
    forall x :: x in s ==> x.value < TWO64 && x.at > NO_TIME
  }

  /** Sum of `f` over the samples. */
  ghost function Total(f: Sample -> nat, s: seq<Sample>): nat {
    if s == [] then 0 else Total(f, s[..|s| - 1]) + f(s[|s| - 1])
  }

  ghost function Below(b: nat): Sample -> nat { (x: Sample) => if x.value < b then 1 else 0 }
  ghost function InBucket(i: nat): Sample -> nat { (x: Sample) => if x.value > 0 && Log2(x.value) == i then 1 else 0 }
  ghost const VALUE: Sample -> nat := (x: Sample) => x.value
  ghost const ONE: Sample -> nat := (x: Sample) => 1

  ghost function FirstAt(s: seq<Sample>): Time {
    if s == [] then NO_TIME
    else if |s| == 1 then s[0].at
    else Min(FirstAt(s[..|s| - 1]), s[|s| - 1].at)
  }

  ghost function LastAt(s: seq<Sample>): Time {
    if s == [] then NO_TIME else Max(LastAt(s[..|s| - 1]), s[|s| - 1].at)
  }

  /** What a histogram of the samples must hold, with the counters' wrap-around and the sum's saturation. */
  ghost function Index(s: seq<Sample>): Histogram {
    Histogram(Wrap(Total(Below(1), s)), seq(BUCKETS, i requires 0 <= i < BUCKETS => Wrap(Total(InBucket(i), s))),
              Wrap(|s|), Min(Total(VALUE, s), MAX64), FirstAt(s), LastAt(s))
  }

  // ----- totals -----

  lemma {:induction false} TotalConcat(f: Sample -> nat, s: seq<Sample>, t: seq<Sample>)
    ensures Total(f, s + t) == Total(f, s) + Total(f, t)
  {
    if t == [] {
      assert s + t == s;
    } else {
      TotalConcat(f, s, t[..|t| - 1]);
      assert (s + t)[..|s + t| - 1] == s + t[..|t| - 1];
    }
  }

  lemma {:induction false} TotalPermutes(f: Sample -> nat, s: seq<Sample>, t: seq<Sample>)
    requires multiset(s) == multiset(t)
    ensures Total(f, s) == Total(f, t)
  {
    if s == [] {
      assert |t| == |multiset(t)| == 0;
    } else {
      var x, init := s[|s| - 1], s[..|s| - 1];
      assert s == init + [x];
      assert x in multiset(t);
      var i :| 0 <= i < |t| && t[i] == x;
      var rest := t[..i] + t[i + 1..];
      assert t == t[..i] + ([x] + t[i + 1..]);
      assert multiset(t) == multiset(rest) + multiset{x};
      assert multiset(init) == multiset(s) - multiset{x};
      TotalPermutes(f, init, rest);
      TotalConcat(f, t[..i], [x] + t[i + 1..]);
      TotalConcat(f, [x], t[i + 1..]);
      TotalConcat(f, t[..i], t[i + 1..]);
      TotalOne(f, x);
    }
  }

  lemma TotalOne(f: Sample -> nat, x: Sample)
    ensures Total(f, [x]) == f(x)
  {
    assert [x][..0] == [];
  }

  lemma {:induction false} TotalSplits(f: Sample -> nat, g: Sample -> nat, h: Sample -> nat, s: seq<Sample>)
    requires forall x :: x in s ==> f(x) == g(x) + h(x)
    ensures Total(f, s) == Total(g, s) + Total(h, s)
  {
    if s != [] { TotalSplits(f, g, h, s[..|s| - 1]); }
  }

  lemma {:induction false} TotalMonotone(f: Sample -> nat, g: Sample -> nat, s: seq<Sample>)
    requires forall x :: x in s ==> f(x) <= g(x)
    ensures Total(f, s) <= Total(g, s)
  {
    if s != [] { TotalMonotone(f, g, s[..|s| - 1]); }
  }

  lemma {:induction false} TotalOnes(s: seq<Sample>)
    ensures Total(ONE, s) == |s|
  {
    if s != [] { TotalOnes(s[..|s| - 1]); }
  }

  // ----- the time span -----

  lemma {:induction false} SpanBounds(s: seq<Sample>)
    requires Real(s) && s != []
    ensures (exists x :: x in s && x.at == FirstAt(s)) && forall x :: x in s ==> FirstAt(s) <= x.at <= LastAt(s)
    ensures exists x :: x in s && x.at == LastAt(s)
  {
    var init, last := s[..|s| - 1], s[|s| - 1];
    assert s == init + [last];
    if init != [] {
      SpanBounds(init);
    }
    assert last in s;
  }

  lemma SpanPermutes(s: seq<Sample>, t: seq<Sample>)
    requires Real(s) && Real(t) && multiset(s) == multiset(t)
    ensures FirstAt(s) == FirstAt(t) && LastAt(s) == LastAt(t)
  {
    assert |s| == |multiset(s)| == |multiset(t)| == |t|;
    assert forall x :: x in s <==> x in t by {
      assert forall x :: x in s <==> x in multiset(s);
      assert forall x :: x in t <==> x in multiset(t);
    }
    if s != [] {
      SpanBounds(s);
      SpanBounds(t);
    }
  }

  lemma {:induction false} SpanConcat(s: seq<Sample>, t: seq<Sample>)
    requires Real(s) && Real(t)
    ensures FirstAt(s + t)
            == if s == [] then FirstAt(t) else if t == [] then FirstAt(s) else Min(FirstAt(s), FirstAt(t))
    ensures LastAt(s + t) == Max(LastAt(s), LastAt(t))
    ensures s == [] || FirstAt(s) > NO_TIME
  {
    if t == [] {
      assert s + t == s;
      if s != [] { SpanBounds(s); }
    } else {
      SpanConcat(s, t[..|t| - 1]);
      assert (s + t)[..|s + t| - 1] == s + t[..|t| - 1];
      assert (s + t)[|s + t| - 1] == t[|t| - 1];
    }
  }

  // ----- the operations as functions -----

  const EMPTY: Histogram := Histogram(0, Zeros(BUCKETS), 0, 0, NO_TIME, NO_TIME)

  function Zeros(n: nat): (s: seq<nat>)
    ensures |s| == n && forall i :: 0 <= i < n ==> s[i] == 0
  {
    if n == 0 then [] else Zeros(n - 1) + [0]
  }

  function BucketOf(value: nat): (i: nat)
    requires 0 < value < TWO64
    ensures i < BUCKETS && Pow2(i) <= value < Pow2(i + 1)
  {
    BucketHolds(value, Log2(value));
    Log2(value)
  }

  /** One value more in its bucket, or among the zeros. */
  function Tallied(h: Histogram, value: nat): Histogram
    requires |h.buckets| == BUCKETS && value < TWO64
  {
    if value == 0 then h.(zero := Wrap(h.zero + 1))
    else h.(buckets := h.buckets[BucketOf(value) := Wrap(h.buckets[BucketOf(value)] + 1)])
  }

  function Added(h: Histogram, value: nat, at: Time): Histogram
    requires |h.buckets| == BUCKETS && value < TWO64
  {
    Tallied(h, value).(count := Wrap(h.count + 1), sum := SaturatingAdd(h.sum, value),
        firstAt := if h.firstAt == NO_TIME || at < h.firstAt then at else h.firstAt,
        lastAt := if at > h.lastAt then at else h.lastAt)
  }

  datatype Entry = Entry(index: int, count: nat)
  datatype Record = Record(zero: nat, buckets: seq<Entry>, count: nat, sum: nat, firstAt: Time, lastAt: Time)

  /** The non-zero buckets below `n`, in order. */
  function Sparse(buckets: seq<nat>, n: nat): seq<Entry>
    requires n <= |buckets|
  {
    if n == 0 then []
    else Sparse(buckets, n - 1) + if buckets[n - 1] > 0 then [Entry(n - 1, buckets[n - 1])] else []
  }

  function ToRecord(h: Histogram): Record {
    Record(h.zero, Sparse(h.buckets, |h.buckets|), h.count, h.sum, h.firstAt, h.lastAt)
  }

  /** Adds every entry whose index names a bucket. */
  function Filled(buckets: seq<nat>, entries: seq<Entry>): (r: seq<nat>)
    ensures |r| == |buckets|
  {
    if entries == [] then buckets
    else
      var done, e := Filled(buckets, entries[..|entries| - 1]), entries[|entries| - 1];
      if 0 <= e.index < |buckets| then done[e.index := Wrap(done[e.index] + e.count)] else done
  }

  function Merged(h: Histogram, r: Record): Histogram {
    Histogram(Wrap(h.zero + r.zero), Filled(h.buckets, r.buckets), Wrap(h.count + r.count), SaturatingAdd(h.sum, r.sum),
              if h.firstAt == NO_TIME || (r.firstAt != NO_TIME && r.firstAt < h.firstAt) then r.firstAt else h.firstAt,
              if r.lastAt > h.lastAt then r.lastAt else h.lastAt)
  }

  lemma {:induction false} FilledFromSparse(b: seq<nat>, c: seq<nat>, n: nat)
    requires n <= |b| == |c| && forall i :: 0 <= i < |b| ==> b[i] < TWO64
    ensures forall i :: 0 <= i < |b| ==> Filled(b, Sparse(c, n))[i] == if i < n then Wrap(b[i] + c[i]) else b[i]
  {
    if n > 0 {
      FilledFromSparse(b, c, n - 1);
      var prev := Sparse(c, n - 1);
      if c[n - 1] > 0 {
        assert (prev + [Entry(n - 1, c[n - 1])])[..|prev|] == prev;
      } else {
        assert prev + [] == prev;
      }
    }
  }

  /** A histogram survives being written as a sparse record and read back. */
  lemma RecordRoundTrip(h: Histogram)
    requires WellFormed(h)
    ensures Merged(EMPTY, ToRecord(h)) == h
  {
    FilledFromSparse(EMPTY.buckets, h.buckets, BUCKETS);
    assert Filled(EMPTY.buckets, ToRecord(h).buckets) == h.buckets;
  }

  lemma WrapAdds(a: nat, b: nat)
    ensures Wrap(Wrap(a) + Wrap(b)) == Wrap(a + b)
  {
  }

  lemma TotalSnoc(f: Sample -> nat, s: seq<Sample>, x: Sample)
    ensures Total(f, s + [x]) == Total(f, s) + f(x)
  {
    TotalConcat(f, s, [x]);
    TotalOne(f, x);
  }

  lemma {:induction false} AddFillsBucket(s: seq<Sample>, x: Sample, i: nat)
    requires i < BUCKETS && x.value < TWO64
    ensures Added(Index(s), x.value, x.at).buckets[i] == Wrap(Total(InBucket(i), s + [x]))
  {
    TotalSnoc(InBucket(i), s, x);
    WrapAdds(Total(InBucket(i), s), 1);
  }

  /** Adding a sample to the index of some samples gives the index of one more. */
  lemma {:induction false} AddExtendsIndex(s: seq<Sample>, x: Sample)
    requires Real(s + [x])
    ensures Added(Index(s), x.value, x.at) == Index(s + [x])
  {
    hide InBucket, Below, BucketOf, Wrap;
    assert x in s + [x];
    assert Real(s) by { assert forall y :: y in s ==> y in s + [x]; }
    var a, b := Added(Index(s), x.value, x.at), Index(s + [x]);
    forall i | 0 <= i < BUCKETS ensures a.buckets[i] == b.buckets[i] {
      AddFillsBucket(s, x, i);
    }
    assert a.buckets == b.buckets;
    AddCounts(s, x);
    TotalSnoc(VALUE, s, x);
    assert FirstAt([x]) == x.at && LastAt([x]) == x.at;
    SpanConcat(s, [x]);
  }

  lemma {:induction false} AddCounts(s: seq<Sample>, x: Sample)
    ensures Wrap(Wrap(|s|) + 1) == Wrap(|s + [x]|)
    ensures Wrap(Total(Below(1), s + [x]))
            == if x.value == 0 then Wrap(Wrap(Total(Below(1), s)) + 1) else Wrap(Total(Below(1), s))
  {
    TotalSnoc(Below(1), s, x);
    WrapAdds(|s|, 1);
    WrapAdds(Total(Below(1), s), 1);
  }

  /** Merging the record of one index into another gives the index of both sets of samples. */
  lemma MergeJoinsIndexes(s: seq<Sample>, t: seq<Sample>)
    requires Real(s) && Real(t)
    ensures Merged(Index(s), ToRecord(Index(t))) == Index(s + t)
  {
    var a, b := Merged(Index(s), ToRecord(Index(t))), Index(s + t);
    MergeJoinsBuckets(s, t);
    MergeJoinsCounts(s, t);
    MergeJoinsSpans(s, t);
    hide Merged, Index, ToRecord;
    assert a == Histogram(a.zero, a.buckets, a.count, a.sum, a.firstAt, a.lastAt);
    assert b == Histogram(b.zero, b.buckets, b.count, b.sum, b.firstAt, b.lastAt);
  }

  lemma {:induction false} MergeJoinsCounts(s: seq<Sample>, t: seq<Sample>)
    ensures var a, b := Merged(Index(s), ToRecord(Index(t))), Index(s + t);
            a.zero == b.zero && a.count == b.count && a.sum == b.sum
  {
    hide Total, Filled, Sparse, FirstAt, LastAt, Wrap;
    TotalConcat(Below(1), s, t);
    WrapAdds(Total(Below(1), s), Total(Below(1), t));
    WrapAdds(|s|, |t|);
    TotalConcat(VALUE, s, t);
  }

  lemma {:induction false} MergeJoinsSpans(s: seq<Sample>, t: seq<Sample>)
    requires Real(s) && Real(t)
    ensures var a, b := Merged(Index(s), ToRecord(Index(t))), Index(s + t);
            a.firstAt == b.firstAt && a.lastAt == b.lastAt
  {
    assert FirstAt([]) == NO_TIME && LastAt([]) == NO_TIME;
    hide Total, Filled, Sparse, FirstAt, LastAt, Wrap, Real;
    SpanConcat(s, t);
    SpanConcat(t, s);
  }

  lemma IndexBucket(s: seq<Sample>, i: nat)
    requires i < BUCKETS
    ensures |Index(s).buckets| == BUCKETS && Index(s).buckets[i] == Wrap(Total(InBucket(i), s))
  {
  }

  lemma {:induction false} MergeJoinsBuckets(s: seq<Sample>, t: seq<Sample>)
    requires Real(s) && Real(t)
    ensures Merged(Index(s), ToRecord(Index(t))).buckets == Index(s + t).buckets
  {
    hide Total, Filled, Sparse, FirstAt, LastAt, Wrap, Real, Index, InBucket;
    var x, y, b := Index(s).buckets, Index(t).buckets, Index(s + t).buckets;
    IndexBucket(s, 0);
    IndexBucket(t, 0);
    IndexBucket(s + t, 0);
    forall i | 0 <= i < BUCKETS ensures x[i] < TWO64 && b[i] == Wrap(x[i] + y[i]) {
      IndexBucket(s, i);
      IndexBucket(t, i);
      IndexBucket(s + t, i);
      TotalConcat(InBucket(i), s, t);
      WrapAdds(Total(InBucket(i), s), Total(InBucket(i), t));
      WrapBounds(Total(InBucket(i), s));
    }
    FilledFromSparse(x, y, BUCKETS);
  }

  lemma WrapBounds(n: nat)
    ensures Wrap(n) < TWO64
  {
  }

  /** The index does not depend on the order in which samples arrive. */
  lemma IndexIgnoresOrder(s: seq<Sample>, t: seq<Sample>)
    requires Real(s) && multiset(s) == multiset(t)
    ensures Index(s) == Index(t)
  {
    assert |s| == |multiset(s)| == |multiset(t)| == |t|;
    assert Real(t) by {
      assert forall x :: x in t ==> x in multiset(t);
      assert forall x :: x in multiset(s) ==> x in s;
    }
    TotalPermutes(Below(1), s, t);
    TotalPermutes(VALUE, s, t);
    SpanPermutes(s, t);
    forall i | 0 <= i < BUCKETS ensures Index(s).buckets[i] == Index(t).buckets[i] {
      TotalPermutes(InBucket(i), s, t);
    }
    assert Index(s).buckets == Index(t).buckets;
  }

  /** The histogram restored by merging saved records, one per part. */
  ghost function Restored(parts: seq<seq<Sample>>): Histogram {
    if parts == [] then EMPTY
    else Merged(Restored(parts[..|parts| - 1]), ToRecord(Index(parts[|parts| - 1])))
  }

  ghost function Flat(parts: seq<seq<Sample>>): seq<Sample> {
    if parts == [] then [] else Flat(parts[..|parts| - 1]) + parts[|parts| - 1]
  }

  /** However samples were split into saved records, and in whatever order they came, the restored histogram is the
      same. */
  lemma {:induction false} RestoredIsIndex(parts: seq<seq<Sample>>, all: seq<Sample>)
    requires Real(all) && multiset(Flat(parts)) == multiset(all)
    ensures Restored(parts) == Index(all)
  {
    RestoredIsFlatIndex(parts, all);
    assert Real(Flat(parts)) by {
      assert forall x :: x in Flat(parts) ==> x in multiset(Flat(parts));
      assert forall x :: x in multiset(all) ==> x in all;
    }
    IndexIgnoresOrder(Flat(parts), all);
  }

  lemma {:induction false} RestoredIsFlatIndex(parts: seq<seq<Sample>>, all: seq<Sample>)
    requires Real(all) && multiset(Flat(parts)) <= multiset(all)
    ensures Restored(parts) == Index(Flat(parts))
  {
    hide Index, Merged, ToRecord, Real;
    if parts == [] {
      IndexOfNone();
    } else {
      var init, last := parts[..|parts| - 1], parts[|parts| - 1];
      assert multiset(Flat(parts)) == multiset(Flat(init)) + multiset(last);
      RestoredIsFlatIndex(init, all);
      forall x | x in Flat(init) || x in last ensures x in all {
        assert x in multiset(Flat(parts));
      }
      RealAmong(Flat(init), all);
      RealAmong(last, all);
      MergeJoinsIndexes(Flat(init), last);
    }
  }

  lemma RealAmong(s: seq<Sample>, all: seq<Sample>)
    requires Real(all) && forall x :: x in s ==> x in all
    ensures Real(s)
  {
  }

  lemma IndexOfNone()
    ensures Index([]) == EMPTY
  {
    assert Index([]).buckets == EMPTY.buckets;
  }

  // ----- the nearest-rank p99 -----

  /** ceil(0.99 * count), in exact arithmetic. */
  function Rank(count: nat): nat { (99 * count + 99) / 100 }

  /** The upper end (2^64 - 1 for the last) of the first bucket from `i` on at which the running count reaches
      `want`. */
  function Scan(buckets: seq<nat>, i: nat, seen: nat, want: nat): nat
    requires i <= |buckets|
    decreases |buckets| - i
  {
    if i == |buckets| then 0
    else
      var s := Wrap(seen + buckets[i]);
      if s >= want then Pow2(i + 1) - 1 else Scan(buckets, i + 1, s, want)
  }

  function P99(h: Histogram): nat {
    if h.count == 0 || h.zero >= Rank(h.count) then 0 else Scan(h.buckets, 0, h.zero, Rank(h.count))
  }

  /** `v` is the sample at rank ceil(0.99 n): fewer than that many samples lie below it, at least that many do not
      exceed it. */
  ghost predicate IsP99Sample(s: seq<Sample>, v: nat) {
    && (exists x :: x in s && x.value == v)
    && 100 * Total(Below(v), s) < 99 * |s| <= 100 * Total(Below(v + 1), s)
  }

  lemma {:induction false} CountBelowStep(s: seq<Sample>, i: nat)
    requires Real(s)
    ensures Total(Below(Pow2(i + 1)), s) == Total(Below(Pow2(i)), s) + Total(InBucket(i), s)
  {
    forall x | x in s ensures Below(Pow2(i + 1))(x) == Below(Pow2(i))(x) + InBucket(i)(x) {
      Pow2Grows(i, i + 1);
      if x.value > 0 { BucketHolds(x.value, i); }
    }
    TotalSplits(Below(Pow2(i + 1)), Below(Pow2(i)), InBucket(i), s);
  }

  lemma {:induction false} CountBelowMonotone(s: seq<Sample>, a: nat, b: nat)
    requires a <= b
    ensures Total(Below(a), s) <= Total(Below(b), s) <= |s|
  {
    TotalMonotone(Below(a), Below(b), s);
    TotalMonotone(Below(b), ONE, s);
    TotalOnes(s);
  }

  /** The scan stops at the bucket of the p99 sample. */
  lemma {:induction false} ScanFindsBucket(s: seq<Sample>, i: nat, k: nat, want: nat)
    requires Real(s) && |s| < TWO64 && i <= k < BUCKETS
    requires Total(Below(Pow2(k)), s) < want <= Total(Below(Pow2(k + 1)), s)
    ensures Scan(Index(s).buckets, i, Total(Below(Pow2(i)), s), want) == Pow2(k + 1) - 1
    decreases k - i
  {
    hide Below, InBucket, Pow2, Total;
    CountBelowStep(s, i);
    CountBelowMonotone(s, Pow2(i + 1), Pow2(i + 1));
    var seen := Total(Below(Pow2(i)), s);
    assert Wrap(seen + Index(s).buckets[i]) == Total(Below(Pow2(i + 1)), s);
    if i < k {
      Pow2Grows(i + 1, k);
      CountBelowMonotone(s, Pow2(i + 1), Pow2(k));
      ScanFindsBucket(s, i + 1, k, want);
    }
  }

  /** A non-empty set of samples has exactly one p99 sample. */
  lemma {:induction false} P99SampleExists(s: seq<Sample>) returns (v: nat)
    requires Real(s) && s != []
    ensures IsP99Sample(s, v) && forall u: nat :: IsP99Sample(s, u) ==> u == v
  {
    hide Total;
    var want := Rank(|s|);
    assert 0 < want <= |s|;
    TotalMonotone(ONE, Below(TWO64), s);
    TotalOnes(s);
    assert Total(Below(0), s) == 0 by { TotalSplits(Below(0), Below(0), Below(0), s); }
    v := 0;
    while Total(Below(v + 1), s) < want
      invariant v < TWO64 && Total(Below(v), s) < want
      decreases TWO64 - v
    {
      v := v + 1;
    }
    if forall x :: x in s ==> x.value != v {
      TotalMonotone(Below(v + 1), Below(v), s);
    }
    forall u: nat | IsP99Sample(s, u) ensures u == v {
      if u < v { CountBelowMonotone(s, u + 1, v); } else if v < u { CountBelowMonotone(s, v + 1, u); }
    }
  }

  lemma {:induction false} P99Unwrapped(s: seq<Sample>)
    requires |s| < TWO64
    ensures P99(Index(s)) == if |s| == 0 || Total(Below(1), s) >= Rank(|s|) then 0
                             else Scan(Index(s).buckets, 0, Total(Below(1), s), Rank(|s|))
  {
    hide Scan, Total, Below;
    CountBelowMonotone(s, 1, 1);
    assert Index(s).zero == Total(Below(1), s) && Index(s).count == |s|;
  }

  lemma RankIs(n: nat, k: nat)
    ensures k < Rank(n) <==> 100 * k < 99 * n
  {
  }

  /** The reported p99 is zero exactly when the p99 sample is, and otherwise less than twice too large. */
  lemma {:induction false} P99Accuracy(s: seq<Sample>, v: nat)
    requires Real(s) && |s| < TWO64 && IsP99Sample(s, v)
    ensures P99(Index(s)) == 0 <==> v == 0
    ensures v > 0 ==> v <= P99(Index(s)) <= 2 * v - 1
  {
    hide Below, Total, Scan, Index, P99, Rank;
    P99Unwrapped(s);
    RankIs(|s|, Total(Below(v), s));
    RankIs(|s|, Total(Below(v + 1), s));
    if v > 0 {
      var k := BucketOf(v);
      CountBelowMonotone(s, 1, v);
      CountBelowMonotone(s, Pow2(k), v);
      CountBelowMonotone(s, v + 1, Pow2(k + 1));
      assert Pow2(0) == 1;
      ScanFindsBucket(s, 0, k, Rank(|s|));
    }
  }

  // ----- the histogram that is updated in place -----

  class DiskHistogram {
    var zero: nat
    const buckets: array<nat>
    var count: nat
    var sum: nat
    var firstAt: Time
    var lastAt: Time

    ghost predicate Valid()
      reads this, buckets
    {
      buckets.Length == BUCKETS && WellFormed(Histogram(zero, buckets[..], count, sum, firstAt, lastAt))
    }

    ghost function View(): Histogram
      reads this, buckets
    {
      Histogram(zero, buckets[..], count, sum, firstAt, lastAt)
    }

    constructor ()
      ensures Valid() && View() == EMPTY && fresh(buckets)
    {
      buckets := new nat[BUCKETS](i => 0);
      zero, count, sum, firstAt, lastAt := 0, 0, 0, NO_TIME, NO_TIME;
      new;
      assert buckets[..] == Zeros(BUCKETS);
    }

    method Tally(value: nat)
      requires Valid() && value < TWO64
      modifies this`zero, buckets
      ensures Valid() && View() == Tallied(old(View()), value)
    {
      if value == 0 {
        zero := Wrap(zero + 1);
      } else {
        var index := BucketOf(value);
        buckets[index] := Wrap(buckets[index] + 1);
      }
    }

    method Add(value: nat, at: Time)
      requires Valid() && value < TWO64 && at > NO_TIME
      modifies this, buckets
      ensures Valid() && View() == Added(old(View()), value, at)
    {
      hide Tallied, Wrap;
      Tally(value);
      WrapBounds(count + 1);
      count := Wrap(count + 1);
      if sum <= MAX64 - value { sum := sum + value; } else { sum := MAX64; }
      if firstAt == NO_TIME || at < firstAt { firstAt := at; }
      if at > lastAt { lastAt := at; }
    }

    method MergeBuckets(entries: seq<Entry>)
      requires Valid()
      modifies buckets
      ensures Valid() && buckets[..] == Filled(old(buckets[..]), entries)
    {
      for i := 0 to |entries|
        invariant buckets[..] == Filled(old(buckets[..]), entries[..i])
        invariant forall j :: 0 <= j < BUCKETS ==> buckets[j] < TWO64
      {
        var e := entries[i];
        assert entries[..i + 1][..i] == entries[..i];
        if 0 <= e.index < buckets.Length {
          buckets[e.index] := Wrap(buckets[e.index] + e.count);
        }
      }
      assert entries[..|entries|] == entries;
    }

    method Merge(r: Record)
      requires Valid() && r.zero < TWO64 && r.count < TWO64 && r.sum < TWO64 && 0 <= r.firstAt && 0 <= r.lastAt
      modifies this, buckets
      ensures Valid() && View() == Merged(old(View()), r)
    {
      zero := Wrap(zero + r.zero);
      MergeBuckets(r.buckets);
      count := Wrap(count + r.count);
      if sum <= MAX64 - r.sum { sum := sum + r.sum; } else { sum := MAX64; }
      if firstAt == NO_TIME || (r.firstAt != NO_TIME && r.firstAt < firstAt) { firstAt := r.firstAt; }
      if r.lastAt > lastAt { lastAt := r.lastAt; }
    }

    method P99Value() returns (p: nat)
      requires Valid()
      ensures p == P99(View())
    {
      if count == 0 { return 0; }
      var want, seen := Rank(count), zero;
      if seen >= want { return 0; }
      for index := 0 to buckets.Length
        invariant Scan(buckets[..], 0, zero, want) == Scan(buckets[..], index, seen, want)
      {
        seen := Wrap(seen + buckets[index]);
        if seen >= want {
          return Pow2(index + 1) - 1;
        }
      }
      return 0;
    }

    method ToSparseRecord() returns (r: Record)
      requires Valid()
      ensures r == ToRecord(View())
    {
      var entries: seq<Entry> := [];
      for index := 0 to buckets.Length
        invariant entries == Sparse(buckets[..], index)
      {
        if buckets[index] > 0 {
          entries := entries + [Entry(index, buckets[index])];
        }
      }
      r := Record(zero, entries, count, sum, firstAt, lastAt);
    }
  }

  method HistogramFromRecord(r: Record) returns (h: DiskHistogram)
    requires r.zero < TWO64 && r.count < TWO64 && r.sum < TWO64 && 0 <= r.firstAt && 0 <= r.lastAt
    ensures fresh(h) && fresh(h.buckets) && h.Valid() && h.View() == Merged(EMPTY, r)
  {
    h := new DiskHistogram();
    h.Merge(r);
  }
}
