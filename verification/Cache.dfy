/** The cache as a program (src/common/cache.c, without locks: every method is one caller running
    alone).  Each building block is proved to perform exactly one effect of CacheEffects; the
    operations are proved against the map and the LRU list that the buckets represent. */
module Cache {
  import opened Arithmetic
  import opened Sequences
  import opened CacheModel
  import opened CacheEffects
  import opened CacheCost
  import opened CacheSequential
  import opened CacheGeometry

  // ---------------------------------------------------------------------------------------------
  // LRU links under pointer surgery
  // ---------------------------------------------------------------------------------------------

  /** s' has the links of s, except that the entry at position k of the list is spliced out. */
  ghost predicate CutAtLinks(s: Shared, s': Shared, k: nat)
    requires k < |s.order| && s.order[k] < |s.table|
  {
    var o, t, u := s.order, s.table, s'.table;
    && |u| == |t|
    && (forall x :: 0 <= x < |t| ==>
          && u[x].mru == (if x == o[k] then -2 else if k + 1 < |o| && x == o[k+1] then t[o[k]].mru else t[x].mru)
          && u[x].lru == (if x == o[k] then -2 else if 0 < k && x == o[k-1] then t[o[k]].lru else t[x].lru))
    && s'.lru == (if k + 1 == |o| then t[o[k]].mru else s.lru)
    && s'.mru == (if k == 0 then t[o[k]].lru else s.mru)
  }

  lemma CutLink(s: Shared, s': Shared, k: nat, i: nat)
    requires LruOk(s) && k < |s.order| && CutAtLinks(s, s', k) && i < |s.order| - 1
    ensures var d := Cut(s.order, k); d[i] < |s'.table| && LinkOk(s'.table, d, i)
  {
    var o, d := s.order, Cut(s.order, k);
    var j := if i < k then i else i + 1;
    assert LinkOk(s.table, o, k) && LinkOk(s.table, o, j);
    assert d[i] == o[j] && o[j] != o[k];
    if k + 1 < |o| && j != k + 1 { assert o[j] != o[k+1]; }
    if 0 < k && j != k - 1 { assert o[j] != o[k-1]; }
  }

  lemma CutLinks(s: Shared, s': Shared, k: nat)
    requires LruOk(s) && k < |s.order| && CutAtLinks(s, s', k) && s'.order == Cut(s.order, k)
    ensures LruOk(s')
  {
    var o := s.order;
    CutDistinct(o, k);
    assert LinkOk(s.table, o, k);
    forall i | 0 <= i < |s'.order| ensures s'.order[i] < |s'.table| && LinkOk(s'.table, s'.order, i) {
      CutLink(s, s', k, i);
    }
    CutMembers(o, k);
    assert k + 1 < |o| ==> o[k+1] in o;
    assert 0 < k ==> o[k-1] in o;
  }

  lemma CutMembers(o: seq<nat>, k: nat)
    requires k < |o|
    ensures forall x :: x in o ==> x == o[k] || x in Cut(o, k)
  {
    forall x | x in o ensures x == o[k] || x in Cut(o, k) {
      var j := IndexOf(o, x);
      assert j != k ==> Cut(o, k)[if j < k then j else j - 1] == x;
    }
  }

  /** Attaching bucket b, which is in no list, at the most recently used end. */
  lemma PushLinks(s: Shared, s': Shared, b: nat)
    requires LruOk(s) && b < |s.table| == |s'.table| && b !in s.order && s'.order == [b] + s.order
    requires forall x :: 0 <= x < |s.table| ==>
      && s'.table[x].mru == (if x == b then -1 else if s.order != [] && x == s.order[0] then b else s.table[x].mru)
      && s'.table[x].lru == (if x == b then s.mru else s.table[x].lru)
    requires s'.mru == b && s'.lru == (if s.lru == -1 then b else s.lru)
    ensures LruOk(s')
  {
    var o := s.order;
    forall i | 0 <= i < |s'.order| ensures s'.order[i] < |s'.table| && LinkOk(s'.table, s'.order, i) {
      if 0 < i {
        assert s'.order[i] == o[i-1];
        assert LinkOk(s.table, o, i - 1);
        if 1 < i { assert o[i-1] != o[0]; }
      }
    }
    forall x | 0 <= x < |s'.table| && x !in s'.order ensures s'.table[x].mru == -2 && s'.table[x].lru == -2 {
      assert s'.order[0] == b && o == s'.order[1..];
      assert o != [] ==> o[0] in o;
    }
  }

  /** The two states differ in LRU links only. */
  ghost predicate SameButLinks(s: Shared, s': Shared) {
    && |s'.table| == |s.table|
    && s'.stamps == s.stamps && s'.cost == s.cost && s'.chains == s.chains
    && forall x :: 0 <= x < |s.table| ==> s'.table[x] == s.table[x].(lru := s'.table[x].lru, mru := s'.table[x].mru)
  }

  lemma LinksAreOrder(s: Shared, s': Shared)
    requires SameButLinks(s, s') && LruOk(s')
    ensures s' == WithOrder(s, s'.order)
  {
    LruOkFixesLinks(s');
    var r := WithOrder(s, s'.order);
    assert WithOrder(s', s'.order).table == r.table;
  }

  /** Where the links of bucket b can lead. */
  lemma LinkBounds(s: Shared, b: nat)
    requires LruOk(s) && b < |s.table|
    ensures var l, m := s.table[b].lru, s.table[b].mru;
            && -2 <= l < |s.table| && -2 <= m < |s.table| && (l == -2 <==> m == -2) && (m == -2 <==> b !in s.order)
            && l != b && m != b && (l >= 0 ==> l != m)
  {
    if b in s.order {
      var k := IndexOf(s.order, b);
      assert LinkOk(s.table, s.order, k);
      assert 0 < k && k + 1 < |s.order| ==> s.order[k-1] != s.order[k+1];
    }
  }

  /** What lru_remove does, in terms of the links it reads. */
  ghost predicate SplicedOut(s: Shared, s': Shared, b: nat)
    requires b < |s.table|
  {
    var l, m := s.table[b].lru, s.table[b].mru;
    && SameButLinks(s, s')
    && s'.lru == (if l == -1 then m else s.lru)
    && s'.mru == (if m == -1 then l else s.mru)
    && forall x :: 0 <= x < |s.table| ==>
         && s'.table[x].mru == (if x == b then -2 else if x == l then m else s.table[x].mru)
         && s'.table[x].lru == (if x == b then -2 else if x == m then l else s.table[x].lru)
  }

  lemma SplicedOutIsDrop(s: Shared, s': Shared, b: nat)
    requires LruOk(s) && b in s.order && b < |s.table| && SplicedOut(s, s', b) && s'.order == Without(s.order, b)
    ensures s' == WithOrder(s, Without(s.order, b))
  {
    var k := IndexOf(s.order, b);
    WithoutIsCut(s.order, k);
    assert LinkOk(s.table, s.order, k);
    assert k + 1 < |s.order| ==> s.order[k+1] != b;
    CutLinks(s, s', k);
    LinksAreOrder(s, s');
  }

  lemma DropAbsent(s: Shared, b: nat)
    requires LruOk(s) && b < |s.table| && b !in s.order
    ensures Without(s.order, b) == s.order && s == WithOrder(s, Without(s.order, b))
  {
    WithoutAbsent(s.order, b);
    LruOkFixesLinks(s);
  }

  lemma MruBounds(s: Shared)
    requires LruOk(s)
    ensures -1 <= s.mru < |s.table| && (s.mru == -1 <==> s.order == []) && (s.order != [] ==> s.mru == s.order[0])
  {}

  lemma PushedIsFront(s: Shared, r: Shared, s': Shared, b: nat)
    requires LruOk(s) && LruOk(r) && b < |s.table| && r == WithOrder(s, Without(s.order, b))
    requires SameButLinks(r, s') && s'.order == [b] + r.order
    requires forall x :: 0 <= x < |r.table| ==>
      && s'.table[x].mru == (if x == b then -1 else if x == r.mru then b else r.table[x].mru)
      && s'.table[x].lru == (if x == b then r.mru else r.table[x].lru)
    requires s'.mru == b && s'.lru == (if r.lru == -1 then b else r.lru)
    ensures s' == WithOrder(s, MoveToFront(s.order, b))
  {
    PushLinks(r, s', b);
    LinksAreOrder(r, s');
    WithOrderTwice(s, Without(s.order, b), s'.order);
  }

  lemma WithOrderTwice(s: Shared, o: seq<nat>, p: seq<nat>)
    ensures WithOrder(WithOrder(s, o), p) == WithOrder(s, p)
  {
    assert WithOrder(WithOrder(s, o), p).table == WithOrder(s, p).table;
  }

  lemma FrontStays(s: Shared, b: nat)
    requires LruOk(s) && s.mru == b
    ensures MoveToFront(s.order, b) == s.order && s == WithOrder(s, s.order)
  {
    WithoutIsCut(s.order, 0);
    LruOkFixesLinks(s);
  }

  // ---------------------------------------------------------------------------------------------
  // Walking a chain, and the search for a free bucket
  // ---------------------------------------------------------------------------------------------

  /** The bucket before position k of chain c; -1 if there is none. */
  function Before(c: seq<nat>, k: nat): int
    requires k <= |c|
  {
    if k == 0 then -1 else c[k-1]
  }

  /** Nothing on the chain c of its home stores key. */
  lemma NotOnChain(cfg: Config, s: Shared, key: Key, c: seq<nat>)
    requires IndexOk(cfg, s) && c == s.chains[Home(key, |s.table|)]
    requires forall i :: 0 <= i < |c| ==> c[i] < |s.table| && s.table[c[i]].key != key
    ensures BucketOf(s.table, key) == -1
  {
    forall b | InUse(s.table, b) ensures s.table[b].key != key {
      assert BucketOk(s.table, s.chains, b);
    }
  }

  lemma FoundOnChain(cfg: Config, s: Shared, key: Key, c: seq<nat>, k: nat)
    requires IndexOk(cfg, s) && c == s.chains[Home(key, |s.table|)] && k < |c|
    requires c[k] < |s.table| && s.table[c[k]].key == key && Occupied(s.table[c[k]])
    ensures BucketOf(s.table, key) == c[k] && IndexOf(c, c[k]) == k
  {
    assert ChainOk(s.table, Home(key, |s.table|), c);
    assert Holds(s.table, c[k], key);
    ContentsAt(s.table, c[k], key);
  }

  lemma ChainFacts(cfg: Config, s: Shared, h: nat)
    requires IndexOk(cfg, s) && h < |s.table|
    ensures var c := s.chains[h];
            && Distinct(c)
            && s.table[h].firstDelta == (if c == [] then NULL_DELTA else Delta(h, c[0]))
            && (c != [] ==> s.table[h].firstDelta != NULL_DELTA)
            && (forall k :: 0 <= k < |c| ==> ChainBucket(s.table, c, k))
  {
    var c := s.chains[h];
    assert ChainOk(s.table, h, c);
    forall k | 0 <= k < |c| ensures ChainBucket(s.table, c, k) {
      ChainBucketAt(cfg, s, h, k);
    }
  }

  lemma ChainBucketAt(cfg: Config, s: Shared, h: nat, k: nat)
    requires IndexOk(cfg, s) && h < |s.table| && k < |s.chains[h]|
    ensures ChainBucket(s.table, s.chains[h], k)
  {
    var c := s.chains[h];
    assert ChainOk(s.table, h, c);
    assert BucketOk(s.table, s.chains, c[k]);
    if k + 1 < |c| {
      assert c[k+1] < |s.table|;
    } else {
      assert s.table[c[k]].nextDelta == NULL_DELTA;
    }
  }

  /** What a walk sees at position k of chain c. */
  predicate ChainBucket(t: seq<Bucket>, c: seq<nat>, k: nat)
    requires k < |c|
  {
    && c[k] < |t| && Occupied(t[c[k]]) && t[c[k]].hash == t[c[k]].key
    && (if k + 1 < |c| then t[c[k]].nextDelta == Delta(c[k], c[k+1]) && t[c[k]].nextDelta != NULL_DELTA
        else t[c[k]].nextDelta == NULL_DELTA)
  }

  ghost predicate InTable(c: seq<nat>, n: nat) {
    forall i :: 0 <= i < |c| ==> c[i] < n
  }

  /** Apply for an unlinking, spelled out for the pointer surgery. */
  lemma UnlinkPlan(cfg: Config, s: Shared, b: nat, h: nat, c: seq<nat>, k: nat)
    requires Sound(cfg, s) && Enabled(cfg, s, Unlink(b)) && h == Home(s.table[b].hash, |s.table|) && c == s.chains[h]
    requires b in c && k == IndexOf(c, b)
    ensures cfg.Ok() && h < |s.table| == |s.chains| && InTable(c, |s.table|) && |s.stamps| == cfg.numSegs
    ensures Before(c, k) != b && (k == 0 <==> Before(c, k) == -1)
    ensures var g := Segment(cfg, s.table[b].key);
            Apply(cfg, s, Unlink(b)) ==
              s.(table := LinkPast(s.table, h, c, k), stamps := s.stamps[g := s.stamps[g] + 1],
                 chains := s.chains[h := Cut(c, k)])
    ensures Sound(cfg, Apply(cfg, s, Unlink(b)))
  {
    EffectKeepsSound(cfg, s, Unlink(b));
    ChainFacts(cfg, s, h);
    forall i | 0 <= i < |c| ensures c[i] < |s.table| {
      assert ChainBucket(s.table, c, i);
    }
    assert 0 < k ==> c[k-1] != c[k];
  }

  lemma InsertPlan(cfg: Config, s: Shared, h: nat, c: seq<nat>, key: Key, b: nat, cost: int, data: Ptr, locked: bool)
    requires Sound(cfg, s) && Enabled(cfg, s, Insert(key, b, cost, data, locked))
    requires h == Home(key, |s.table|) && c == s.chains[h]
    ensures h < |s.table| == |s.chains| && InTable(c, |s.table|)
    ensures Apply(cfg, s, Insert(key, b, cost, data, locked)) ==
              s.(table := LinkLast(s.table[b := Filled(s.table[b], key, cost, data, locked)], h, c, b),
                 cost := s.cost + cost, chains := s.chains[h := c + [b]])
    ensures Sound(cfg, Apply(cfg, s, Insert(key, b, cost, data, locked)))
  {
    EffectKeepsSound(cfg, s, Insert(key, b, cost, data, locked));
    ChainFacts(cfg, s, h);
    forall i | 0 <= i < |c| ensures c[i] < |s.table| {
      assert ChainBucket(s.table, c, i);
    }
  }

  lemma SettledIs(cfg: Config, s: Shared)
    requires Settled(cfg, s)
    ensures Sound(cfg, s) && IndexOk(cfg, s) && LruOk(s) && cfg.Ok()
    ensures 0 < |s.table| == |s.chains| == cfg.buckets
  {}

  /** What the walk's answer says about the stored map. */
  lemma LookupMeans(cfg: Config, s: Shared, key: Key, b: int)
    requires IndexOk(cfg, s) && b == BucketOf(s.table, key)
    ensures -1 <= b < |s.table|
    ensures b == -1 <==> key !in Contents(s.table)
    ensures b != -1 ==> Contents(s.table)[key] == EntryOf(s.table[b]) && InUse(s.table, b)
                        && s.table[b].key == key && s.table[b].hash == key
    ensures b != -1 && s.table[b].read == 0 && s.table[b].write == 0 ==> Enabled(cfg, s, Unlink(b))
  {
    if b != -1 {
      ContentsAt(s.table, b, key);
      assert BucketOk(s.table, s.chains, b);
    }
  }

  lemma DropIs(cfg: Config, s: Shared, b: nat)
    requires Sound(cfg, s) && b < |s.table|
    ensures Then(cfg, s, Drop(b)) == WithOrder(s, Without(s.order, b)) && Sound(cfg, Then(cfg, s, Drop(b)))
  {}

  lemma TouchIs(cfg: Config, s: Shared, b: nat)
    requires Sound(cfg, s) && b < |s.table|
    ensures Then(cfg, s, Touch(b)) == WithOrder(s, MoveToFront(s.order, b)) && Sound(cfg, Then(cfg, s, Touch(b)))
  {}

  lemma AddCostIs(cfg: Config, s: Shared, d: int)
    requires Sound(cfg, s)
    ensures Then(cfg, s, AddCost(d)) == s.(cost := s.cost + d)
  {}

  /** Evict, spelled out for the program. */
  lemma EvictPlan(cfg: Config, s: Shared, b: nat)
    requires Sound(cfg, s) && Enabled(cfg, s, Unlink(b)) && b < |s.table|
    ensures IndexOk(cfg, s)
    ensures var s1 := Apply(cfg, s, Unlink(b));
            && Sound(cfg, s1) && LruOk(s1) && b < |s1.table|
            && var s2 := WithOrder(s1, Without(s1.order, b));
               Evict(cfg, s, b) == s2.(cost := s2.cost - s.table[b].cost)
  {
    hide Apply, Sound, IndexOk, LruOk, Enabled, WithOrder, Then, SameLinks;
    ThenIs(cfg, s, Unlink(b));
    UnlinkKeepsSize(cfg, s, b);
    var s1 := Then(cfg, s, Unlink(b));
    ThenIs(cfg, s1, Skip) by { SkipEnabled(cfg, s1); }
    DropIs(cfg, s1, b);
    AddCostIs(cfg, Then(cfg, s1, Drop(b)), -s.table[b].cost);
  }

  lemma HitPlan(cfg: Config, s: Shared, b: nat)
    requires Settled(cfg, s) && InUse(s.table, b)
    ensures var s1 := s.(table := s.table[b := s.table[b].(read := s.table[b].read + 1)]);
            LruOk(s1) && Hit(cfg, s, b) == WithOrder(s1, MoveToFront(s1.order, b))
  {
    hide WithOrder, IndexOk, LruOk;
    InPlaceKeepsSettled(cfg, s, AddRead(b));
    TouchIs(cfg, Then(cfg, s, AddRead(b)), b);
  }

  lemma StorePlan(cfg: Config, s: Shared, key: Key, b: nat, cost: int, data: Ptr, locked: bool)
    requires Settled(cfg, s) && Enabled(cfg, s, Insert(key, b, cost, data, locked))
    ensures IndexOk(cfg, s)
    ensures var s1 := Apply(cfg, s, Insert(key, b, cost, data, locked));
            && Sound(cfg, s1) && LruOk(s1) && b < |s1.table|
            && Store(cfg, s, key, b, cost, data, locked) == WithOrder(s1, MoveToFront(s1.order, b))
  {
    var e := Insert(key, b, cost, data, locked);
    SettledIs(cfg, s);
    hide WithOrder, IndexOk, LruOk, Apply, Sound;
    ThenIs(cfg, s, e);
    InsertKeepsSize(cfg, s, e);
    ThenIs(cfg, Apply(cfg, s, e), Skip);
    TouchIs(cfg, Apply(cfg, s, e), b);
  }

  lemma InsertKeepsSize(cfg: Config, s: Shared, e: Effect)
    requires IndexOk(cfg, s) && LruOk(s) && Enabled(cfg, s, e) && e.Insert?
    ensures |Apply(cfg, s, e).table| == |s.table| && e.b < |s.table|
  {}

  /** One look of the collector: the entry at position k from the recently used end. */
  lemma VictimStep(cfg: Config, s: Shared, k: nat, budget: nat)
    requires LruOk(s) && 0 < budget && 0 < k <= |s.order|
    ensures s.order[k-1] < |s.table| && s.table[s.order[k-1]].mru == (if k == 1 then -1 else s.order[k-2])
    ensures Victim(s.table, s.order[..k], budget) ==
              if Unlocked(s.table[s.order[k-1]]) then s.order[k-1] else Victim(s.table, s.order[..k-1], budget - 1)
  {
    assert LinkOk(s.table, s.order, k - 1);
    assert s.order[..k][..k-1] == s.order[..k-1];
  }

  lemma GcStart(cfg: Config, s: Shared)
    requires Settled(cfg, s)
    ensures s.lru == (if s.order == [] then -1 else s.order[|s.order|-1]) && s.order[..|s.order|] == s.order
    ensures forall k :: 0 <= k < |s.order| ==> s.order[k] < |s.table| && InUse(s.table, s.order[k])
                                               && s.table[s.order[k]].key != EMPTY
  {
    forall k | 0 <= k < |s.order| ensures InUse(s.table, s.order[k]) && s.table[s.order[k]].key != EMPTY {
      assert s.order[k] in s.order;
      assert BucketOk(s.table, s.chains, s.order[k]);
    }
  }

  /** Where dt_cache_gc stands after i rounds, having started in state s.  Until it has evicted an entry, it
      looks at the entries from the least recently used one on; afterwards its cursor is stale. */
  ghost predicate GcAt(cfg: Config, s: Shared, now: Shared, ratio: real, curr: int, i: nat, evicted: bool)
    requires LruOk(s)
  {
    var n := |s.order|;
    && curr < |s.table| && |now.table| == |s.table|
    && if evicted then
         && TooFull(s.cost, ratio, cfg.quota) && now == Collected(cfg, s, ratio)
         && (curr >= 0 ==> !InUse(now.table, curr) && now.table[curr].mru == -2)
       else
         && now == s && i <= n && i <= cfg.segSize + 1
         && curr == (if i == n then -1 else s.order[n-1-i])
         && Victim(s.table, s.order, cfg.segSize + 1) == Victim(s.table, s.order[..n-i], cfg.segSize + 1 - i)
  }

  lemma GcBegins(cfg: Config, s: Shared, ratio: real)
    requires Settled(cfg, s)
    ensures LruOk(s) && GcAt(cfg, s, s, ratio, s.lru, 0, false) && s.lru < |s.table|
  {
    assert s.order[..|s.order|] == s.order;
    assert s.order != [] ==> s.order[|s.order|-1] < |s.table|;
  }

  /** A round that finds the entry locked, or the bucket empty, moves on. */
  lemma GcMovesOn(cfg: Config, s: Shared, now: Shared, ratio: real, curr: nat, i: nat, evicted: bool)
    requires Settled(cfg, s) && LruOk(s) && GcAt(cfg, s, now, ratio, curr, i, evicted) && i <= cfg.segSize
    requires !InUse(now.table, curr) || !Unlocked(now.table[curr])
    ensures GcAt(cfg, s, now, ratio, now.table[curr].mru, i + 1, evicted) && now.table[curr].mru < |now.table|
  {
    hide Settled, Collected, Victim;
    if !evicted {
      GcStart(cfg, s);
      VictimStep(cfg, s, |s.order| - i, cfg.segSize + 1 - i);
    }
  }

  /** A round that evicts has found the victim. */
  lemma GcEvicts(cfg: Config, s: Shared, now: Shared, ratio: real, curr: nat, i: nat, evicted: bool)
    requires Settled(cfg, s) && LruOk(s) && GcAt(cfg, s, now, ratio, curr, i, evicted) && i <= cfg.segSize
    requires InUse(now.table, curr) && Unlocked(now.table[curr]) && TooFull(now.cost, ratio, cfg.quota)
    ensures GcAt(cfg, s, Evict(cfg, s, curr), ratio, curr, i + 1, true) && now == s
  {
    hide Settled, Evict;
    GcStart(cfg, s);
    VictimStep(cfg, s, |s.order| - i, cfg.segSize + 1 - i);
    VictimIsStored(cfg, s, curr);
    EvictedBucket(cfg, s, curr);
  }

  /** When the collector gives up, there was nothing to evict, or one entry has gone. */
  lemma GcGivesUp(cfg: Config, s: Shared, now: Shared, ratio: real, curr: int, i: nat, evicted: bool)
    requires LruOk(s) && GcAt(cfg, s, now, ratio, curr, i, evicted)
    requires curr < 0 || i > cfg.segSize || !TooFull(now.cost, ratio, cfg.quota)
    ensures now == Collected(cfg, s, ratio)
  {
  }

  lemma EvictedBucket(cfg: Config, s: Shared, b: nat)
    requires Settled(cfg, s) && Enabled(cfg, s, Unlink(b))
    ensures var r := Evict(cfg, s, b); |r.table| == |s.table| && !InUse(r.table, b) && r.table[b].mru == -2
  {
    EvictKeepsSettled(cfg, s, b);
  }

  lemma BucketMeans(cfg: Config, s: Shared, b: nat)
    requires IndexOk(cfg, s) && b < |s.table|
    ensures s.table[b].key != EMPTY <==> InUse(s.table, b)
    ensures InUse(s.table, b) ==> BucketOf(s.table, s.table[b].key) == b
    ensures InUse(s.table, b) ==>
              s.table[b].key in Contents(s.table) && Contents(s.table)[s.table[b].key] == EntryOf(s.table[b])
  {
    assert BucketOk(s.table, s.chains, b);
    if InUse(s.table, b) {
      assert Holds(s.table, b, s.table[b].key);
      ContentsAt(s.table, b, s.table[b].key);
    }
  }

  /** A collection leaves the entries that stay as they were. */
  lemma GcKeepsEntries(cfg: Config, s: Shared, ratio: real, key: Key)
    requires Settled(cfg, s)
    ensures key in Contents(Collected(cfg, s, ratio).table) ==>
              key in Contents(s.table) && Contents(Collected(cfg, s, ratio).table)[key] == Contents(s.table)[key]
  {
    hide Settled, Collected;
    GcEvictsOne(cfg, s, ratio);
  }

  lemma RoomFound(cfg: Config, s: Shared, key: Key, f: nat, cost: int, data: Ptr, locked: bool)
    requires IndexOk(cfg, s) && key != EMPTY && key !in Contents(s.table)
    requires FreeChoice(cfg, s.table, Home(key, |s.table|), f)
    ensures Enabled(cfg, s, Insert(key, f, cost, data, locked)) && f < |s.table|
  {}

  /** What a walk along the list finds at position k. */
  lemma ListStep(cfg: Config, s: Shared, k: nat)
    requires Settled(cfg, s) && k < |s.order|
    ensures var b := s.order[k];
            && b < |s.table| && s.table[b].key == KeyOrder(s)[k] && s.table[b].key != EMPTY
            && s.table[b].key in Contents(s.table) && Contents(s.table)[s.table[b].key].data == s.table[b].data
            && (b == s.lru <==> k + 1 == |s.order|)
            && (k + 1 < |s.order| ==>
                  s.order[k+1] < |s.table| && s.table[b].lru == s.order[k+1] && s.table[s.order[k+1]].mru == b)
  {
    GcStart(cfg, s);
    BucketMeans(cfg, s, s.order[k]);
    assert LinkOk(s.table, s.order, k);
    assert k + 1 < |s.order| ==> LinkOk(s.table, s.order, k + 1) && s.order[k+1] in s.order;
  }

  lemma SkipEnabled(cfg: Config, s: Shared)
    ensures Enabled(cfg, s, Skip)
  {}

  lemma UnlinkKeepsSize(cfg: Config, s: Shared, b: nat)
    requires IndexOk(cfg, s) && Enabled(cfg, s, Unlink(b))
    ensures |Apply(cfg, s, Unlink(b)).table| == |s.table|
  {
    UnlinkKeepsLinks(cfg, s, b);
  }

  /** The buckets that dt_cache_read_get considers for a key with home h. */
  ghost predicate Candidate(cfg: Config, h: nat, f: int) {
    && 0 <= f < cfg.buckets
    && (h + cfg.cacheMask + 1 <= f <= h + REACH || h - REACH <= f <= h - (cfg.cacheMask + 1))
  }

  /** f is the first free candidate, searching forward from home and then backward; -1 if there is none. */
  ghost predicate FreeChoice(cfg: Config, t: seq<Bucket>, h: nat, f: int)
    requires |t| == cfg.buckets
  {
    if f == -1 then
      forall g :: Candidate(cfg, h, g) ==> Occupied(t[g])
    else
      && Candidate(cfg, h, f) && !Occupied(t[f])
      && forall g :: Candidate(cfg, h, g) && (if h < f then h < g < f else h < g || f < g) ==> Occupied(t[g])
  }

  /** Every bucket beyond the cache line distance from home h is taken. */
  ghost predicate FullBeyond(cfg: Config, t: seq<Bucket>, h: nat)
    requires |t| == cfg.buckets
  {
    forall g :: 0 <= g < cfg.buckets && (g - h > cfg.cacheMask || h - g > cfg.cacheMask) ==> Occupied(t[g])
  }

  /** A bucket as dt_cache_init leaves it. */
  function Blank(): Bucket {
    Bucket(NULL_DELTA, NULL_DELTA, 0, 0, -2, -2, 0, EMPTY, EMPTY, 0)
  }

  /** What dt_cache_init leaves. */
  function NewCache(cfg: Config): Shared {
    Shared(seq(cfg.buckets, _ => Blank()), seq(cfg.numSegs, _ => 0), -1, -1, 0, seq(cfg.buckets, _ => []), [])
  }

  lemma NewStoresNothing(cfg: Config)
    ensures Contents(NewCache(cfg).table) == map[]
  {
    forall key ensures key !in Contents(NewCache(cfg).table) {
      assert forall b :: !Holds(NewCache(cfg).table, b, key);
    }
  }

  lemma NewIsSettled(cfg: Config)
    requires cfg.Ok()
    ensures Settled(cfg, NewCache(cfg)) && KeyOrder(NewCache(cfg)) == []
  {
    BlankCost(NewCache(cfg).table, cfg.buckets);
  }

  lemma {:induction false} BlankCost(t: seq<Bucket>, n: nat)
    requires n <= |t| && forall b :: 0 <= b < |t| ==> t[b] == Blank()
    ensures SumCost(t, n) == 0
  {
    if n > 0 { BlankCost(t, n - 1); }
  }

  datatype Option<+T> = None | Some(value: T)

  datatype Answer = Wait | NoRoom | Data(data: Ptr)

  /** What the allocate callback asks for: a write lock, a cost, and the payload pointer. */
  datatype Allocation = Allocation(locked: bool, cost: int, data: Ptr)

  /** cache->allocate; without one, entries cost 1, keep the payload pointer and are not write locked. */
  datatype Allocator = NoCallback | Callback(run: (Key, Ptr) -> Allocation) {
    function Run(key: Key, data: Ptr): Allocation {
      if Callback? then run(key, data) else Allocation(false, 1, data)
    }
  }

  /** What dt_cache_read_get does with the segment locked, together with its move to the front: it answers r and
      turns s into s'.  f is the free bucket that it chooses for a key that is not stored. */
  ghost predicate Looked(cfg: Config, allocate: Allocator, s: Shared, key: Key, f: int, r: Answer, s': Shared) {
    var m := Contents(s.table);
    && |s.table| == cfg.buckets > 0
    && if key in m && m[key].write != 0 then r == Wait && s' == s
       else if key in m then r == Data(m[key].data) && s' == Hit(cfg, s, BucketOf(s.table, key))
       else
         && -1 <= f < |s.table| && FreeChoice(cfg, s.table, Home(key, cfg.buckets), f)
         && if f == -1 then r == NoRoom && s' == s
            else
              var a := allocate.Run(key, s.table[f].data);
              r == Data(a.data) && s' == Store(cfg, s, key, f, a.cost, a.data, a.locked)
  }

  /** One pass of the retry loop of dt_cache_read_get: collect first, then look up or store. */
  ghost predicate Pass(cfg: Config, allocate: Allocator, s: Shared, key: Key, r: Answer, s': Shared) {
    var c := Collected(cfg, s, 0.8);
    if TooFull(c.cost, 0.8, cfg.quota) then r == Wait && s' == c
    else exists f :: Looked(cfg, allocate, c, key, f, r, s')
  }

  datatype WriteAnswer = NoEntry | Busy | Locked(data: Ptr)

  class Cache {
    const cfg: Config
    const allocate: Allocator
    const table: array<Bucket>
    const stamps: array<nat>               // segments[k].timestamp
    var lru: int
    var mru: int
    var cost: int
    ghost var chains: seq<seq<nat>>
    ghost var order: seq<nat>

    /** dt_cache_init, with the number of buckets per cache line already computed.  Beyond 2^30 buckets the int
        counters of its loops overflow; beyond 2^15 buckets the deltas do (see DeltasFitIff). */
    constructor (capacity: nat, numThreads: nat, cacheMask: nat, quota: int, allocate: Allocator)
      requires capacity <= 0x4000_0000 && 2 * numThreads <= 0x4000_0000
      ensures Abs() == NewCache(cfg) && Stored() == map[]
      ensures capacity <= cfg.buckets && 2 * numThreads <= cfg.buckets && numThreads <= cfg.numSegs
      ensures cfg.buckets == cfg.segSize * cfg.numSegs
      ensures exists a, c :: cfg.numSegs == Pow2(a) && cfg.buckets == Pow2(c)
      ensures forall j: nat :: numThreads <= Pow2(j) ==> cfg.numSegs <= Pow2(j)
      ensures forall j: nat :: capacity <= Pow2(j) && 2 * cfg.numSegs <= Pow2(j) ==> cfg.buckets <= Pow2(j)
      ensures cfg.buckets <= MAX_BUCKETS <==> capacity <= MAX_BUCKETS && 2 * numThreads <= MAX_BUCKETS
      ensures cfg.buckets <= MAX_BUCKETS ==> Settled(cfg, Abs()) && KeyOrder(Abs()) == []
      ensures cfg.cacheMask == cacheMask && cfg.quota == quota && this.allocate == allocate
      ensures fresh(table) && fresh(stamps)
    {
      hide Settled, Contents;
      var buckets, segSize, threads := Sizes(capacity, numThreads);
      cfg := Config(buckets, segSize, threads, cacheMask, quota);
      this.allocate := allocate;
      table := new Bucket[buckets](_ => Blank());
      stamps := new nat[threads](_ => 0);
      cost := 0;
      lru, mru := -1, -1;
      order := [];
      chains := seq(buckets, _ => []);
      new;
      assert Abs() == NewCache(cfg);
      NewStoresNothing(cfg);
      if buckets <= MAX_BUCKETS {
        NewIsSettled(cfg);
        SettledIs(cfg, Abs());
      }
    }

    ghost function Abs(): Shared
      reads this, table, stamps
    {
      Shared(table[..], stamps[..], lru, mru, cost, chains, order)
    }

    method LruRemove(b: nat)
      requires LruOk(Abs()) && b < table.Length
      modifies this`lru, this`mru, this`order, table
      ensures LruOk(Abs()) && order == Without(old(order), b) && Abs() == WithOrder(old(Abs()), order)
    {
      hide LruOk, WithOrder;
      ghost var s := Abs();
      LinkBounds(s, b);
      DropOk(s, b);
      if table[b].mru >= -1 && table[b].lru >= -1 {
        var l, m := table[b].lru, table[b].mru;
        if l == -1 {
          lru := m;
        } else {
          table[l] := table[l].(mru := m);
        }
        if m == -1 {
          mru := l;
        } else {
          table[m] := table[m].(lru := l);
        }
        table[b] := table[b].(mru := -2, lru := -2);
        order := Without(order, b);
        SplicedOutIsDrop(s, Abs(), b);
      } else {
        table[b] := table[b].(mru := -2, lru := -2);
        DropAbsent(s, b);
        order := Without(order, b);
        assert table[..] == s.table;
      }
    }

    method LruInsert(b: nat)
      requires LruOk(Abs()) && b < table.Length
      modifies this`lru, this`mru, this`order, table
      ensures LruOk(Abs()) && order == MoveToFront(old(order), b) && Abs() == WithOrder(old(Abs()), order)
    {
      hide LruOk, WithOrder;
      ghost var s := Abs();
      MoveToFrontOk(s, b);
      if mru != b {
        LruRemove(b);
        ghost var r := Abs();
        LinkBounds(r, b);
        MruBounds(r);
        table[b] := table[b].(mru := -1, lru := mru);
        if mru >= 0 {
          table[mru] := table[mru].(mru := b);
        }
        mru := b;
        if lru == -1 {
          lru := b;
        }
        order := [b] + order;
        PushedIsFront(s, r, Abs(), b);
      } else {
        FrontStays(s, b);
        order := MoveToFront(order, b);
      }
    }

    // -------------------------------------------------------------------------------------------
    // The hash index
    // -------------------------------------------------------------------------------------------

    /** The walk that every operation starts with: the bucket that stores key, or -1, and the bucket
        before it on the chain (the last one of the chain if key is not there), or -1. */
    method Find(key: Key) returns (b: int, last: int)
      requires IndexOk(cfg, Abs())
      ensures b == BucketOf(table[..], key)
      ensures var c := chains[Home(key, table.Length)];
              if b == -1 then last == Before(c, |c|)
              else b in c && last == Before(c, IndexOf(c, b))
    {
      var home := Home(key, table.Length);
      ghost var s := Abs();
      ghost var c := chains[home];
      ghost var p := 0;
      var cur := home;
      last := -1;
      var delta := table[home].firstDelta;
      ChainFacts(cfg, s, home);
      hide IndexOk, ChainOk, BucketOf;
      while delta != NULL_DELTA
        invariant 0 <= p <= |c| && last == Before(c, p)
        invariant cur == if p == 0 then home else c[p-1]
        invariant delta == if p < |c| then Delta(cur, c[p]) else NULL_DELTA
        invariant forall i :: 0 <= i < p ==> c[i] < |s.table| && s.table[c[i]].key != key
        decreases |c| - p
      {
        assert ChainBucket(s.table, c, p);
        cur := cur + delta;
        assert cur == c[p] && table[cur] == s.table[c[p]];
        if key == table[cur].hash && key == table[cur].key {
          FoundOnChain(cfg, s, key, c, p);
          return cur, last;
        }
        last := cur;
        delta := table[cur].nextDelta;
        p := p + 1;
      }
      NotOnChain(cfg, s, key, c);
      return -1, last;
    }

    /** Looks for a free bucket forward, then backward, of home (src/common/cache.c:711-748). */
    method FindFree(home: nat) returns (f: int)
      requires table.Length == cfg.buckets && home < cfg.buckets
      ensures FreeChoice(cfg, table[..], home, f) && -1 <= f < table.Length
    {
      var maxBucket := if home + REACH > table.Length - 1 then table.Length - 1 else home + REACH;
      f := home + (cfg.cacheMask + 1);
      while f <= maxBucket
        invariant home < f
        invariant forall g :: Candidate(cfg, home, g) && home < g < f ==> Occupied(table[g])
      {
        if !Occupied(table[f]) {
          return f;
        }
        f := f + 1;
      }
      var minBucket := if home - REACH < 0 then 0 else home - REACH;
      f := home - (cfg.cacheMask + 1);
      while f >= minBucket
        invariant f < home
        invariant forall g :: Candidate(cfg, home, g) && (home < g || f < g) ==> Occupied(table[g])
      {
        if !Occupied(table[f]) {
          return f;
        }
        f := f - 1;
      }
      return -1;
    }

    /** remove_key: blanks bucket b, which is at position k of its chain, and makes the chain skip it. */
    method RemoveKey(home: nat, b: nat, prev: int, ghost k: nat)
      requires cfg.Ok() && stamps.Length == cfg.numSegs
      requires home < table.Length && home < |chains| && k < |chains[home]| && chains[home][k] == b
      requires InTable(chains[home], table.Length) && prev == Before(chains[home], k)
      requires prev != b
      modifies this`chains, table, stamps
      ensures table[..] == LinkPast(old(table[..]), home, old(chains[home]), k)
      ensures stamps[..]
           == old(stamps[..])[Segment(cfg, old(table[b].key)) := old(stamps[Segment(cfg, table[b].key)]) + 1]
      ensures chains == old(chains)[home := Cut(old(chains[home]), k)]
    {
      ghost var t, c := table[..], chains[home];
      var g := Segment(cfg, table[b].key);
      table[b] := table[b].(hash := EMPTY, key := EMPTY);
      var next := table[b].nextDelta;
      if prev == -1 {
        table[home] := table[home].(firstDelta :=
          if next == NULL_DELTA then NULL_DELTA else ToInt16(table[home].firstDelta + next));
      } else {
        table[prev] := table[prev].(nextDelta :=
          if next == NULL_DELTA then NULL_DELTA else ToInt16(table[prev].nextDelta + next));
      }
      stamps[g] := stamps[g] + 1;
      table[b] := table[b].(nextDelta := NULL_DELTA);
      chains := chains[home := Cut(c, k)];
      forall x | 0 <= x < table.Length ensures table[x] == PastBucket(t, home, c, k, x) {
      }
    }

    /** dt_cache_bucket_read_lock of the free bucket b, then add_key_to_end_of_list. */
    method AddKeyToEnd(home: nat, b: nat, key: Key, last: int, cost: int, data: Ptr, locked: bool)
      requires home < table.Length && home < |chains| && b < table.Length
      requires InTable(chains[home], table.Length)
      requires last == Before(chains[home], |chains[home]|)
      modifies this`chains, this`cost, table
      ensures table[..] == LinkLast(old(table[..])[b := Filled(old(table[b]), key, cost, data, locked)],
                                    home, old(chains[home]), b)
      ensures this.cost == old(this.cost) + cost
      ensures chains == old(chains)[home := old(chains[home]) + [b]]
    {
      ghost var t, c := table[..], chains[home];
      table[b] := table[b].(read := table[b].read + 1);
      if locked {
        table[b] := table[b].(write := table[b].write + 1);
      }
      this.cost := this.cost + cost;
      table[b] := table[b].(key := key, hash := key, cost := cost, data := data, nextDelta := NULL_DELTA);
      assert table[..] == t[b := Filled(t[b], key, cost, data, locked)];
      if last == -1 {
        table[home] := table[home].(firstDelta := ToInt16(Delta(home, b)));
      } else {
        table[last] := table[last].(nextDelta := ToInt16(Delta(last, b)));
      }
      chains := chains[home := c + [b]];
    }

    // -------------------------------------------------------------------------------------------
    // The operations
    // -------------------------------------------------------------------------------------------

    /** What the cache stores. */
    ghost function Stored(): map<Key, Entry>
      reads this, table
    {
      Contents(table[..])
    }

    /** The unlinking half of dt_cache_remove, done under the segment lock. */
    method Unchain(home: nat, b: nat, prev: int)
      requires Sound(cfg, Abs()) && Enabled(cfg, Abs(), Unlink(b)) && home == Home(table[b].hash, table.Length)
      requires b in chains[home] && prev == Before(chains[home], IndexOf(chains[home], b))
      modifies this`chains, table, stamps
      ensures Sound(cfg, Abs()) && Abs() == Apply(cfg, old(Abs()), Unlink(b))
    {
      ghost var s := Abs();
      ghost var k := IndexOf(chains[home], b);
      UnlinkPlan(cfg, s, b, home, chains[home], k);
      hide Apply, Sound, IndexOk, LruOk, LinkPast;
      RemoveKey(home, b, prev, k);
    }

    /** The storing half of dt_cache_read_get, done under the segment lock. */
    method Enchain(home: nat, b: nat, key: Key, last: int, cost: int, data: Ptr, locked: bool)
      requires Sound(cfg, Abs()) && Enabled(cfg, Abs(), Insert(key, b, cost, data, locked))
      requires home == Home(key, table.Length) && last == Before(chains[home], |chains[home]|)
      modifies this`chains, this`cost, table
      ensures Sound(cfg, Abs()) && Abs() == Apply(cfg, old(Abs()), Insert(key, b, cost, data, locked))
    {
      ghost var s := Abs();
      InsertPlan(cfg, s, home, chains[home], key, b, cost, data, locked);
      hide Apply, Sound, IndexOk, LruOk, LinkLast;
      AddKeyToEnd(home, b, key, last, cost, data, locked);
    }

    /** The rest of dt_cache_remove, once an unlocked entry was found. */
    method RemoveFound(home: nat, b: nat, last: int)
      requires b < table.Length
      requires Sound(cfg, Abs()) && Enabled(cfg, Abs(), Unlink(b)) && home == Home(table[b].hash, table.Length)
      requires b in chains[home] && last == Before(chains[home], IndexOf(chains[home], b))
      modifies this, table, stamps
      ensures Abs() == Evict(cfg, old(Abs()), b)
    {
      hide Sound, IndexOk, LruOk, Apply, Evict, WithOrder, Enabled;
      ghost var s := Abs();
      EvictPlan(cfg, s, b);
      var c := table[b].cost;
      Unchain(home, b, last);
      LruRemove(b);
      cost := cost - c;
    }

    method Remove(key: Key) returns (r: int)
      requires Settled(cfg, Abs())
      modifies this, table, stamps
      ensures r == 0 || r == 1
      ensures r == 0 <==> key in old(Stored()) && old(Stored())[key].read == 0 && old(Stored())[key].write == 0
      ensures r == 1 ==> Abs() == old(Abs())
      ensures r == 0 ==> Abs() == Evict(cfg, old(Abs()), BucketOf(old(table[..]), key))
      ensures Settled(cfg, Abs()) && Stored() == if r == 0 then old(Stored()) - {key} else old(Stored())
    {
      hide Settled, Sound, IndexOk, LruOk, Contents, Evict, BucketOf, Enabled;
      ghost var s := Abs();
      SettledIs(cfg, s);
      var b, last := Find(key);
      LookupMeans(cfg, s, key, b);
      if b == -1 {
        return 1;
      }
      if table[b].read != 0 || table[b].write != 0 {
        return 1;
      }
      EvictKeepsSettled(cfg, s, b);
      RemoveFound(Home(key, table.Length), b, last);
      return 0;
    }

    /** Moves the read-locked entry to the front: the tail of every successful lookup. */
    method HitFound(b: nat)
      requires Settled(cfg, Abs()) && InUse(table[..], b)
      modifies this`lru, this`mru, this`order, table
      ensures Abs() == Hit(cfg, old(Abs()), b)
    {
      hide Settled, Sound, IndexOk, LruOk, WithOrder, Hit;
      ghost var s := Abs();
      HitPlan(cfg, s, b);
      table[b] := table[b].(read := table[b].read + 1);
      LruInsert(b);
    }

    /** dt_cache_read_testget; busy says that somebody else has the segment lock.  The caller must not exceed the number
        of readers that the bucket lock asserts. */
    method ReadTestget(key: Key, busy: bool) returns (r: Option<Ptr>)
      requires Settled(cfg, Abs())
      requires key in Stored() && Stored()[key].write == 0 ==> Stored()[key].read < MAX_READ
      modifies this`lru, this`mru, this`order, table
      ensures r.Some? <==> !busy && key in old(Stored()) && old(Stored())[key].write == 0
      ensures r.None? ==> Abs() == old(Abs())
      ensures r.Some? ==> r.value == old(Stored())[key].data
                          && Abs() == Hit(cfg, old(Abs()), BucketOf(old(table[..]), key))
                          && Stored() == old(Stored())[key := old(Stored())[key].(read := old(Stored())[key].read + 1)]
      ensures Settled(cfg, Abs())
    {
      hide Settled, Sound, IndexOk, LruOk, Contents, Hit, BucketOf;
      if busy {
        return None;
      }
      ghost var s := Abs();
      SettledIs(cfg, s);
      var b, _ := Find(key);
      LookupMeans(cfg, s, key, b);
      if b == -1 || table[b].write != 0 {
        return None;
      }
      r := Some(table[b].data);
      HitKeepsSettled(cfg, s, b);
      HitFound(b);
    }

    method ReadRelease(key: Key)
      requires Settled(cfg, Abs())
      requires key in Stored() && Stored()[key].read > 0 && Stored()[key].write == 0
      modifies table
      ensures Abs() == Then(cfg, old(Abs()), DropRead(BucketOf(old(table[..]), key)))
      ensures Settled(cfg, Abs())
      ensures Stored() == old(Stored())[key := old(Stored())[key].(read := old(Stored())[key].read - 1)]
    {
      hide Settled, Sound, IndexOk, LruOk, Contents, Then, BucketOf;
      ghost var s := Abs();
      SettledIs(cfg, s);
      var b, _ := Find(key);
      LookupMeans(cfg, s, key, b);
      InPlaceKeepsSettled(cfg, s, DropRead(b));
      table[b] := table[b].(read := table[b].read - 1);
    }

    /** One try of dt_cache_write_get, which upgrades a read lock once the caller is the only reader. */
    method WriteGet(key: Key) returns (r: WriteAnswer)
      requires Settled(cfg, Abs())
      requires key in Stored() ==> Stored()[key].read >= 1 && Stored()[key].write < MAX_READ
      modifies table
      ensures r == (if key !in old(Stored()) then NoEntry
                    else if old(Stored())[key].read > 1 then Busy
                    else Locked(old(Stored())[key].data))
      ensures !r.Locked? ==> Abs() == old(Abs())
      ensures r.Locked? ==> Abs() == Then(cfg, old(Abs()), AddWrite(BucketOf(old(table[..]), key)))
                            && Stored() == old(Stored())[key := old(Stored())[key].(
                                                           write := old(Stored())[key].write + 1)]
      ensures Settled(cfg, Abs())
    {
      hide Settled, Sound, IndexOk, LruOk, Contents, Then, BucketOf;
      ghost var s := Abs();
      SettledIs(cfg, s);
      var b, _ := Find(key);
      LookupMeans(cfg, s, key, b);
      if b == -1 {
        return NoEntry;
      }
      if table[b].read > 1 {
        return Busy;
      }
      InPlaceKeepsSettled(cfg, s, AddWrite(b));
      table[b] := table[b].(write := table[b].write + 1);
      return Locked(table[b].data);
    }

    method WriteRelease(key: Key)
      requires Settled(cfg, Abs())
      requires key in Stored() ==> Stored()[key].read == 1 && Stored()[key].write > 0
      modifies table
      ensures Settled(cfg, Abs())
      ensures Stored() == if key in old(Stored())
                          then old(Stored())[key := old(Stored())[key].(write := old(Stored())[key].write - 1)]
                          else old(Stored())
      ensures order == old(order) && cost == old(cost)
    {
      hide Settled, Sound, IndexOk, LruOk, Contents, Then, BucketOf;
      ghost var s := Abs();
      SettledIs(cfg, s);
      var b, _ := Find(key);
      LookupMeans(cfg, s, key, b);
      if b != -1 {
        InPlaceKeepsSettled(cfg, s, DropWrite(b));
        table[b] := table[b].(write := table[b].write - 1);
      }
    }

    /** dt_cache_realloc: the writer replaces the payload and its cost. */
    method Realloc(key: Key, cost: int, data: Ptr)
      requires Settled(cfg, Abs())
      requires key in Stored() ==> Stored()[key].read == 1 && Stored()[key].write == 1
      modifies this`cost, table
      ensures Settled(cfg, Abs())
      ensures Stored() == if key in old(Stored())
                          then old(Stored())[key := old(Stored())[key].(data := data, cost := cost)]
                          else old(Stored())
      ensures order == old(order)
      ensures this.cost == old(this.cost) + if key in old(Stored()) then cost - old(Stored())[key].cost else 0
    {
      hide Settled, Sound, IndexOk, LruOk, Contents, Then, BucketOf;
      ghost var s := Abs();
      SettledIs(cfg, s);
      var b, _ := Find(key);
      LookupMeans(cfg, s, key, b);
      if b != -1 {
        InPlaceKeepsSettled(cfg, s, Rewrite(b, cost, data));
        var diff := cost - table[b].cost;
        table[b] := table[b].(cost := cost, data := data);
        this.cost := this.cost + diff;
      }
    }

    /** dt_cache_remove_bucket: removes whatever bucket num stores. */
    method RemoveBucket(num: nat) returns (r: int)
      requires Settled(cfg, Abs()) && num < table.Length
      modifies this, table, stamps
      ensures r == (if !InUse(old(table[..]), num) then 2 else if Unlocked(old(table[num])) then 0 else 1)
      ensures Abs() == if r == 0 then Evict(cfg, old(Abs()), num) else old(Abs())
      ensures Settled(cfg, Abs())
    {
      hide Settled, Sound, IndexOk, LruOk, Contents, Evict, BucketOf, InUse;
      ghost var s := Abs();
      SettledIs(cfg, s);
      BucketMeans(cfg, s, num);
      var key := table[num].key;
      if key != EMPTY {
        r := Remove(key);
      } else {
        r := 2;
      }
    }

    /** dt_cache_gc. */
    method Gc(ratio: real) returns (r: int)
      requires Settled(cfg, Abs())
      modifies this, table, stamps
      ensures r == if TooFull(cost, ratio, cfg.quota) then 1 else 0
      ensures Abs() == Collected(cfg, old(Abs()), ratio)
      ensures Settled(cfg, Abs())
    {
      hide Settled, Sound, IndexOk, LruOk, Contents, Evict, BucketOf, InUse, Collected, Victim, GcAt;
      ghost var s := Abs();
      SettledIs(cfg, s);
      GcBegins(cfg, s, ratio);
      ghost var evicted := false;
      var curr := lru;
      var i := 0;
      while TooFull(cost, ratio, cfg.quota)
        invariant Settled(cfg, Abs()) && 0 <= i <= cfg.segSize + 1 && curr < table.Length
        invariant GcAt(cfg, s, Abs(), ratio, curr, i, evicted)
        decreases cfg.segSize + 1 - i
      {
        if curr < 0 || i > cfg.segSize {
          GcGivesUp(cfg, s, Abs(), ratio, curr, i, evicted);
          return 1;
        }
        ghost var now := Abs();
        var err := RemoveBucket(curr);
        if err != 0 {
          GcMovesOn(cfg, s, now, ratio, curr, i, evicted);
          curr := table[curr].mru;
        } else {
          GcEvicts(cfg, s, now, ratio, curr, i, evicted);
          evicted := true;
        }
        i := i + 1;
      }
      GcGivesUp(cfg, s, Abs(), ratio, curr, i, evicted);
      return 0;
    }

    /** What dt_cache_read_get does with the segment locked, and its move to the front: f is the free
        bucket chosen for a key that is not stored. */
    method LookupOrStore(key: Key) returns (r: Answer, ghost f: int)
      requires Settled(cfg, Abs()) && key != EMPTY
      requires key in Stored() && Stored()[key].write == 0 ==> Stored()[key].read < MAX_READ
      modifies this, table, stamps
      ensures Settled(cfg, Abs())
      ensures Looked(cfg, allocate, old(Abs()), key, f, r, Abs())
      ensures r.Data? ==>
                (if key in old(Stored()) then
                   Stored() == old(Stored())[key := old(Stored())[key].(read := old(Stored())[key].read + 1)]
                 else
                   var a := allocate.Run(key, old(table[f]).data);
                   Stored() == old(Stored())[key := Entry(a.data, a.cost, 1, if a.locked then 1 else 0)])
    {
      hide Settled, Sound, IndexOk, LruOk, Contents, Hit, Store, BucketOf, Enabled, FreeChoice, Holds, InUse, Stores;
      ghost var s := Abs();
      f := -1;
      SettledIs(cfg, s);
      var home := Home(key, table.Length);
      var b, last := Find(key);
      LookupMeans(cfg, s, key, b);
      if b != -1 {
        if table[b].write != 0 {
          return Wait, f;
        }
        r := Data(table[b].data);
        HitKeepsSettled(cfg, s, b);
        HitFound(b);
        return r, f;
      }
      var free := FindFree(home);
      f := free;
      if free == -1 {
        return NoRoom, f;
      }
      var a := allocate.Run(key, table[free].data);
      RoomFound(cfg, s, key, free, a.cost, a.data, a.locked);
      StoreKeepsSettled(cfg, s, key, free, a.cost, a.data, a.locked);
      StoreFound(home, free, key, last, a.cost, a.data, a.locked);
      return Data(a.data), f;
    }

    /** One pass of the retry loop of dt_cache_read_get: collect first, then look up or store. */
    method ReadGet(key: Key) returns (r: Answer)
      requires Settled(cfg, Abs()) && key != EMPTY
      requires key in Stored() && Stored()[key].write == 0 ==> Stored()[key].read < MAX_READ
      modifies this, table, stamps
      ensures Settled(cfg, Abs()) && Pass(cfg, allocate, old(Abs()), key, r, Abs())
      ensures var s := Collected(cfg, old(Abs()), 0.8);
              var m := Contents(s.table);
              && (r.Wait? <==> TooFull(s.cost, 0.8, cfg.quota) || (key in m && m[key].write != 0))
              && (!r.Data? ==> Abs() == s)
              && (r.Data? && key in m ==>
                    r.data == m[key].data && Stored() == m[key := m[key].(read := m[key].read + 1)])
              && (r.Data? && key !in m ==>
                    key in Stored() && Stored() == m[key := Stored()[key]] && Stored()[key].read == 1
                    && Stored()[key].data == r.data)
    {
      hide Settled, Sound, IndexOk, LruOk, Contents, Hit, Store, BucketOf, FreeChoice, Collected;
      GcKeepsEntries(cfg, Abs(), 0.8, key);
      var err := Gc(0.8);
      if err != 0 {
        return Wait;
      }
      ghost var f;
      r, f := LookupOrStore(key);
    }

    method StoreFound(home: nat, b: nat, key: Key, last: int, cost: int, data: Ptr, locked: bool)
      requires Settled(cfg, Abs()) && Enabled(cfg, Abs(), Insert(key, b, cost, data, locked))
      requires home == Home(key, table.Length) && home < |chains| && last == Before(chains[home], |chains[home]|)
      modifies this, table
      ensures Abs() == Store(cfg, old(Abs()), key, b, cost, data, locked)
    {
      hide Settled, Sound, IndexOk, LruOk, Apply, Store, Enabled, WithOrder;
      ghost var s := Abs();
      SettledIs(cfg, s);
      StorePlan(cfg, s, key, b, cost, data, locked);
      Enchain(home, b, key, last, cost, data, locked);
      LruInsert(b);
    }

    /** dt_cache_contains, undisturbed; CacheScan has the lock-free story. */
    method Has(key: Key) returns (r: bool)
      requires Sound(cfg, Abs())
      ensures r <==> key in Stored()
    {
      ghost var s := Abs();
      var b, _ := Find(key);
      LookupMeans(cfg, s, key, b);
      return b != -1;
    }

    /** dt_cache_for_all: hands every stored entry to process, from the most to the least recently used, until
        process objects. */
    method ForAll(process: (Key, Ptr) -> int) returns (err: int, visited: seq<Key>)
      requires Settled(cfg, Abs())
      ensures visited <= KeyOrder(Abs())
      ensures forall k :: 0 <= k < |visited| ==> visited[k] in Stored()
      ensures forall k :: 0 <= k < |visited| - 1 ==> process(visited[k], Stored()[visited[k]].data) == 0
      ensures err == 0 ==> visited == KeyOrder(Abs())
      ensures visited == [] ==> err == 0
      ensures visited != [] ==> err == process(visited[|visited|-1], Stored()[visited[|visited|-1]].data)
    {
      hide Settled, Sound, IndexOk, LruOk, Contents, BucketOf, InUse, KeyOrder;
      ghost var s := Abs();
      SettledIs(cfg, s);
      ghost var ks := KeyOrder(s);
      MruBounds(s);
      visited := [];
      var curr := mru;
      while curr >= 0
        invariant |visited| <= |order| == |ks|
        invariant curr == if |visited| < |order| then order[|visited|] else -1
        invariant visited == ks[..|visited|]
        invariant forall k :: 0 <= k < |visited| ==> visited[k] in Contents(s.table)
        invariant forall k :: 0 <= k < |visited| ==> process(visited[k], Contents(s.table)[visited[k]].data) == 0
        decreases |order| - |visited|
      {
        ghost var k := |visited|;
        ListStep(cfg, s, k);
        assert table[curr] == s.table[curr];
        if table[curr].key != EMPTY {
          visited := visited + [table[curr].key];
          err := process(table[curr].key, table[curr].data);
          if err != 0 {
            return;
          }
        }
        if curr == lru {
          break;
        }
        var next := table[curr].lru;
        assert table[next].mru == curr;   // asserted by the source as well
        curr := next;
      }
      return 0, visited;
    }
  }
}
