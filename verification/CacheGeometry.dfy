/** The sizes that dt_cache_init derives: everything is a power of two, and the segment bits lie just
    below the top of the bucket bits. */
module CacheGeometry {
  import opened Arithmetic
  import opened CacheModel

  /** nearest_power_of_two: the least power of two that is not below value. */
  method NearestPowerOfTwo(value: nat) returns (rc: nat, ghost k: nat)
    requires value <= 0x8000_0000
    ensures rc == Pow2(k) && value <= rc
    ensures forall j :: value <= Pow2(j) ==> rc <= Pow2(j)
  {
    rc, k := 1, 0;
    while rc < value
      invariant rc == Pow2(k)
      invariant forall j: nat :: j < k ==> Pow2(j) < value
      decreases value - rc
    {
      rc := rc * 2;
      k := k + 1;
    }
    forall j | value <= Pow2(j) ensures rc <= Pow2(j) {
      Pow2Grows(k, j);
    }
  }

  lemma QuotientPositive(x: nat, d: nat)
    requires 0 < d <= x
    ensures x / d != 0
  {}

  lemma ShiftedOut(n: nat, k: nat)
    ensures (Pow2(n) - 1) / Pow2(k) == 0 <==> n <= k
  {
    if n <= k {
      Pow2Grows(n, k);
      DivUnique(Pow2(n) - 1, Pow2(k), 0, Pow2(n) - 1);
    } else {
      Pow2Grows(k, n);
      QuotientPositive(Pow2(n) - 1, Pow2(k));
    }
  }

  /** The loops of dt_cache_init that find segment_shift: segment_mask == 2^a - 1, bucket_mask == 2^c - 1. */
  method SegmentShift(segmentMask: nat, bucketMask: nat, ghost a: nat, ghost c: nat) returns (sh: nat)
    requires segmentMask == Pow2(a) - 1 && bucketMask == Pow2(c) - 1 && a <= c
    ensures sh == c - a && Pow2(sh) * Pow2(a) == Pow2(c)
  {
    var bits := 0;
    ShiftedOut(a, 0);
    while segmentMask / Pow2(bits) != 0
      invariant 0 <= bits <= a
      decreases a - bits
    {
      ShiftedOut(a, bits);
      bits := bits + 1;
    }
    ShiftedOut(a, bits);
    sh := 0;
    while bucketMask / Pow2(sh + bits) != 0
      invariant 0 <= sh <= c - a
      decreases c - a - sh
    {
      ShiftedOut(c, sh + bits);
      sh := sh + 1;
    }
    ShiftedOut(c, sh + bits);
    Pow2Adds(sh, a);
  }

  lemma SomePowers()
    ensures Pow2(14) == 0x4000 && Pow2(15) == 0x8000 && Pow2(29) == 0x2000_0000
  {
    Pow2Adds(15, 14);
  }

  /** The sizes of the table, of a segment, and the number of segments. */
  method Sizes(capacity: nat, numThreads: nat) returns (buckets: nat, segSize: nat, threads: nat)
    requires capacity <= 0x4000_0000 && 2 * numThreads <= 0x4000_0000
    ensures capacity <= buckets && 2 * numThreads <= buckets && numThreads <= threads
    ensures buckets == segSize * threads && segSize > 0 && threads > 0
    ensures exists a, c :: threads == Pow2(a) && buckets == Pow2(c)
    ensures forall j: nat :: numThreads <= Pow2(j) ==> threads <= Pow2(j)
    ensures forall j: nat :: capacity <= Pow2(j) && 2 * threads <= Pow2(j) ==> buckets <= Pow2(j)
    ensures buckets <= MAX_BUCKETS <==> capacity <= MAX_BUCKETS && 2 * numThreads <= MAX_BUCKETS
  {
    hide Pow2;
    ghost var a, c;
    SomePowers();
    threads, a := NearestPowerOfTwo(numThreads);
    assert threads * 2 <= 0x4000_0000;
    var size := if threads * 2 > capacity then threads * 2 else capacity;
    buckets, c := NearestPowerOfTwo(size);
    Pow2Order(a, c);
    var sh := SegmentShift(threads - 1, buckets - 1, a, c);
    segSize := Pow2(sh);
  }

  predicate Reachable(n: nat, h: nat, b: nat) {
    h < n && b < n && h - REACH <= b <= h + REACH
  }

  predicate Linkable(i: nat, j: nat) {
    ToInt16(Delta(i, j)) == Delta(i, j) && ToInt16(Delta(i, j)) != NULL_DELTA
  }

  /** Any two buckets that the search for one home can pick are linked by an exact, non-null int16 delta if and
      only if the table has at most 2^15 buckets. */
  lemma DeltasFitIff(n: nat)
    ensures (forall h, i, j :: Reachable(n, h, i) && Reachable(n, h, j) ==> Linkable(i, j)) <==> n <= MAX_BUCKETS
  {
    if MAX_BUCKETS < n {
      assert Reachable(n, 16384, 0) && Reachable(n, 16384, 32768) && !Linkable(0, 32768);
    }
  }
}
