/** The value-level picture of the concurrent cache (src/common/cache.c): one array of buckets that
    carries the hash chains, the LRU links, the costs and the lock counters, together with the
    atomic effects that every operation of the cache is made of.

    `chains` and `order` are bookkeeping: the buckets of every hash chain and of the LRU list in
    order.  `IndexOk` and `LruOk` say that the delta and link fields spell out exactly these.  */
module CacheModel {
  import opened Arithmetic
  import opened Sequences

  const NULL_DELTA: int := -32768          // DT_CACHE_NULL_DELTA, SHRT_MIN
  const EMPTY: Key := 0xffffffff           // DT_CACHE_EMPTY_HASH and DT_CACHE_EMPTY_KEY as uint32_t
  const MAX_BUCKETS: nat := 32768
  const REACH: nat := 32766                // SHRT_MAX-1
  const MAX_READ: int := 0x7ffe

  type Key = k: int | 0 <= k < 0x1_0000_0000
  type Ptr = nat                           // 0 is NULL

  datatype Bucket = Bucket(firstDelta: int, nextDelta: int, read: int, write: int, lru: int, mru: int,
                           cost: int, hash: Key, key: Key, data: Ptr)

  /** buckets == bucket_mask + 1, segSize == 1 << segment_shift, numSegs == segment_mask + 1. */
  datatype Config = Config(buckets: nat, segSize: nat, numSegs: nat, cacheMask: nat, quota: int) {
    ghost predicate Ok() {
      0 < segSize && 0 < numSegs && 0 < buckets <= MAX_BUCKETS
    }
  }

  datatype Shared = Shared(table: seq<Bucket>, stamps: seq<nat>, lru: int, mru: int, cost: int,
                           chains: seq<seq<nat>>, order: seq<nat>)

  /** C's conversion of an int to int16_t. */
  function ToInt16(x: int): (r: int)
    ensures -32768 <= r < 32768
  {
    (x + 32768) % 65536 - 32768
  }

  /** The pointer difference that leads from one bucket to another. */
  function Delta(from: int, to: int): int {
    to - from
  }

  predicate Occupied(b: Bucket) {
    b.hash != EMPTY
  }

  /** hash & bucket_mask, for a table of n buckets. */
  function Home(hash: Key, n: nat): (h: nat)
    requires 0 < n
    ensures h < n
  {
    hash % n
  }

  /** (hash >> segment_shift) & segment_mask */
  function Segment(cfg: Config, hash: Key): (g: nat)
    requires cfg.Ok()
    ensures g < cfg.numSegs
  {
    hash / cfg.segSize % cfg.numSegs
  }

  lemma SegmentOfHome(cfg: Config, hash: Key)
    requires cfg.Ok() && cfg.buckets == cfg.segSize * cfg.numSegs
    ensures Segment(cfg, hash) == Home(hash, cfg.buckets) / cfg.segSize
  {
    DivOfMod(hash, cfg.segSize, cfg.numSegs);
  }

  ghost function IndexOf(s: seq<int>, x: int): (k: nat)
    requires x in s
    ensures k < |s| && s[k] == x
  {
    var k :| 0 <= k < |s| && s[k] == x; k
  }

  // ---------------------------------------------------------------------------------------------
  // The hash index
  // ---------------------------------------------------------------------------------------------

  /** Bucket b stores key. */
  predicate Holds(t: seq<Bucket>, b: int, key: Key) {
    InUse(t, b) && t[b].key == key
  }

  predicate InUse(t: seq<Bucket>, b: int) {
    0 <= b < |t| && Occupied(t[b])
  }

  /** The deltas starting at home h visit the buckets c, in this order, and stop. */
  ghost predicate ChainOk(t: seq<Bucket>, h: nat, c: seq<nat>)
    requires h < |t|
  {
    && (forall k :: 0 <= k < |c| ==> c[k] < |t| && Occupied(t[c[k]]) && Home(t[c[k]].hash, |t|) == h)
    && t[h].firstDelta == (if c == [] then NULL_DELTA else Delta(h, c[0]))
    && (forall k :: 0 <= k < |c| ==> t[c[k]].nextDelta == DeltaAfter(c, k))
    && Distinct(c)
  }

  /** What leads on from position k of the chain c. */
  function DeltaAfter(c: seq<nat>, k: nat): int
    requires k < |c|
  {
    if k + 1 < |c| then Delta(c[k], c[k+1]) else NULL_DELTA
  }

  /** What the buckets say one by one: an occupied one is on the chain of its home, a free one is
      blank and unlocked. */
  ghost predicate BucketOk(t: seq<Bucket>, chains: seq<seq<nat>>, b: nat)
    requires 0 < |t| == |chains| && b < |t|
  {
    if Occupied(t[b]) then
      t[b].key == t[b].hash && b in chains[Home(t[b].hash, |t|)]
    else
      t[b].key == EMPTY && t[b].nextDelta == NULL_DELTA && t[b].read == 0 && t[b].write == 0
  }

  ghost predicate KeysUnique(t: seq<Bucket>) {
    forall i, j {:trigger InUse(t, i), InUse(t, j)} :: InUse(t, i) && InUse(t, j) && i != j ==> t[i].key != t[j].key
  }

  ghost predicate IndexOk(cfg: Config, s: Shared) {
    && cfg.Ok()
    && |s.table| == |s.chains| == cfg.buckets
    && |s.stamps| == cfg.numSegs
    && (forall h {:trigger ChainOk(s.table, h, s.chains[h])} :: 0 <= h < |s.table| ==> ChainOk(s.table, h, s.chains[h]))
    && (forall b {:trigger BucketOk(s.table, s.chains, b)} :: 0 <= b < |s.table| ==> BucketOk(s.table, s.chains, b))
    && KeysUnique(s.table)
  }

  /** The bucket that stores key, or -1. */
  ghost function BucketOf(t: seq<Bucket>, key: Key): (b: int)
    ensures b == -1 || Holds(t, b, key)
    ensures b == -1 ==> forall i :: !Holds(t, i, key)
  {
    if exists i :: Holds(t, i, key) then var i :| Holds(t, i, key); i else -1
  }

  ghost predicate Stores(t: seq<Bucket>, key: Key) {
    exists b :: Holds(t, b, key)
  }

  /** The two tables agree on everything the index is made of. */
  ghost predicate SameIndex(t: seq<Bucket>, u: seq<Bucket>) {
    |t| == |u| && forall b :: 0 <= b < |t| ==>
      && t[b].firstDelta == u[b].firstDelta && t[b].nextDelta == u[b].nextDelta
      && t[b].hash == u[b].hash && t[b].key == u[b].key
      && (!Occupied(t[b]) ==> t[b].read == u[b].read && t[b].write == u[b].write)
  }

  lemma SameIndexKeepsOk(cfg: Config, s: Shared, s': Shared)
    requires IndexOk(cfg, s) && SameIndex(s.table, s'.table)
    requires s'.chains == s.chains && |s'.stamps| == |s.stamps|
    ensures IndexOk(cfg, s')
    ensures forall b, key :: Holds(s'.table, b, key) <==> Holds(s.table, b, key)
  {
    forall h | 0 <= h < |s.table| ensures ChainOk(s'.table, h, s'.chains[h]) {
      assert ChainOk(s.table, h, s.chains[h]);
    }
    forall b | 0 <= b < |s.table| ensures BucketOk(s'.table, s'.chains, b) {
      assert BucketOk(s.table, s.chains, b);
    }
    SameKeysUnique(s.table, s'.table);
  }

  lemma SameKeysUnique(t: seq<Bucket>, u: seq<Bucket>)
    requires KeysUnique(t) && |t| == |u|
    requires forall b :: 0 <= b < |t| ==> t[b].hash == u[b].hash && t[b].key == u[b].key
    ensures KeysUnique(u)
  {
    forall i, j | InUse(u, i) && InUse(u, j) && i != j ensures u[i].key != u[j].key {
      assert InUse(t, i) && InUse(t, j);
    }
  }

  // ---------------------------------------------------------------------------------------------
  // The LRU list
  // ---------------------------------------------------------------------------------------------

  ghost predicate LruOk(s: Shared) {
    && Distinct(s.order)
    && (forall k :: 0 <= k < |s.order| ==> s.order[k] < |s.table|)
    && s.mru == (if s.order == [] then -1 else s.order[0])
    && s.lru == (if s.order == [] then -1 else s.order[|s.order|-1])
    && (forall k {:trigger LinkOk(s.table, s.order, k)} :: 0 <= k < |s.order| ==> LinkOk(s.table, s.order, k))
    && (forall b :: 0 <= b < |s.table| && b !in s.order ==> s.table[b].mru == -2 && s.table[b].lru == -2)
  }

  predicate LinkOk(t: seq<Bucket>, order: seq<nat>, k: nat)
    requires k < |order| && order[k] < |t|
  {
    && t[order[k]].mru == (if k == 0 then -1 else order[k-1])
    && t[order[k]].lru == (if k + 1 == |order| then -1 else order[k+1])
  }

  /** s without the entry b. */
  function Without(order: seq<nat>, b: nat): (r: seq<nat>)
    ensures b !in r
    ensures forall x :: x in r <==> x in order && x != b
  {
    if order == [] then []
    else if order[0] == b then Without(order[1..], b)
    else [order[0]] + Without(order[1..], b)
  }

  function MoveToFront(order: seq<nat>, b: nat): (r: seq<nat>)
    ensures forall x :: x in r <==> x in order || x == b
  {
    [b] + Without(order, b)
  }

  lemma {:induction false} WithoutIsCut(order: seq<nat>, k: nat)
    requires Distinct(order) && k < |order|
    ensures Without(order, order[k]) == Cut(order, k)
  {
    if k == 0 {
      WithoutAbsent(order[1..], order[0]);
    } else {
      WithoutIsCut(order[1..], k - 1);
      assert order[1..][k-1] == order[k];
      assert Cut(order, k) == [order[0]] + Cut(order[1..], k - 1);
    }
  }

  lemma {:induction false} WithoutAbsent(order: seq<nat>, b: nat)
    requires b !in order
    ensures Without(order, b) == order
  {
    if order != [] {
      WithoutAbsent(order[1..], b);
    }
  }

  lemma {:induction false} WithoutDistinct(order: seq<nat>, b: nat)
    requires Distinct(order)
    ensures Distinct(Without(order, b))
  {
    if b in order {
      WithoutIsCut(order, IndexOf(order, b));
    } else {
      WithoutAbsent(order, b);
    }
  }

  ghost function LruField(order: seq<nat>, b: nat): int {
    if b !in order then -2
    else var k := IndexOf(order, b); if k + 1 == |order| then -1 else order[k+1]
  }

  ghost function MruField(order: seq<nat>, b: nat): int {
    if b !in order then -2
    else var k := IndexOf(order, b); if k == 0 then -1 else order[k-1]
  }

  /** s with all LRU links rewritten to spell out order. */
  ghost function WithOrder(s: Shared, order: seq<nat>): (r: Shared)
    ensures |r.table| == |s.table|
  {
    s.(table := seq(|s.table|, b requires 0 <= b < |s.table| =>
                      s.table[b].(lru := LruField(order, b), mru := MruField(order, b))),
       lru := if order == [] then -1 else order[|order|-1],
       mru := if order == [] then -1 else order[0],
       order := order)
  }

  ghost predicate OrderFits(s: Shared, order: seq<nat>) {
    Distinct(order) && forall b :: b in order ==> b < |s.table|
  }

  /** The links are a function of the list they represent ... */
  lemma LruOkFixesLinks(s: Shared)
    requires LruOk(s)
    ensures OrderFits(s, s.order) && s == WithOrder(s, s.order)
  {
    var r := WithOrder(s, s.order);
    forall b | 0 <= b < |s.table| ensures s.table[b] == r.table[b] {
      if b in s.order {
        assert LinkOk(s.table, s.order, IndexOf(s.order, b));
      }
    }
    assert s.table == r.table;
  }

  lemma LinksAt(order: seq<nat>, k: nat)
    requires Distinct(order) && k < |order|
    ensures LruField(order, order[k]) == (if k + 1 == |order| then -1 else order[k+1])
    ensures MruField(order, order[k]) == (if k == 0 then -1 else order[k-1])
  {
    assert IndexOf(order, order[k]) == k;
  }

  lemma LinksAbsent(order: seq<nat>, b: nat)
    requires b !in order
    ensures LruField(order, b) == -2 && MruField(order, b) == -2
  {}

  /** ... and every duplicate-free list can be represented. */
  lemma WithOrderOk(s: Shared, order: seq<nat>)
    requires OrderFits(s, order)
    ensures LruOk(WithOrder(s, order))
    ensures SameIndex(s.table, WithOrder(s, order).table)
  {
    hide LruField, MruField;
    var r := WithOrder(s, order);
    forall k | 0 <= k < |order| ensures order[k] < |r.table| && LinkOk(r.table, order, k) {
      assert order[k] in order;
      LinksAt(order, k);
    }
    forall b | 0 <= b < |r.table| && b !in order ensures r.table[b].mru == -2 && r.table[b].lru == -2 {
      LinksAbsent(order, b);
    }
  }

  lemma MoveToFrontOk(s: Shared, b: nat)
    requires LruOk(s) && b < |s.table|
    ensures LruOk(WithOrder(s, MoveToFront(s.order, b)))
    ensures SameIndex(s.table, WithOrder(s, MoveToFront(s.order, b)).table)
  {
    WithoutDistinct(s.order, b);
    WithOrderOk(s, MoveToFront(s.order, b));
  }

  lemma DropOk(s: Shared, b: nat)
    requires LruOk(s)
    ensures LruOk(WithOrder(s, Without(s.order, b)))
    ensures SameIndex(s.table, WithOrder(s, Without(s.order, b)).table)
  {
    WithoutDistinct(s.order, b);
    WithOrderOk(s, Without(s.order, b));
  }
}
