/** Whole operations, for one caller running alone: the effects they are made of run back to back.
    Between such operations the LRU list holds exactly the stored entries and cache->cost is exactly
    their cost. */
module CacheSequential {
  import opened Sequences
  import opened CacheModel
  import opened CacheEffects
  import opened CacheCost

  ghost predicate Sound(cfg: Config, s: Shared) {
    IndexOk(cfg, s) && LruOk(s)
  }

  ghost predicate ListsStored(s: Shared) {
    forall b :: 0 <= b < |s.table| ==> (b in s.order <==> InUse(s.table, b))
  }

  ghost predicate Settled(cfg: Config, s: Shared) {
    Sound(cfg, s) && ListsStored(s) && s.cost == StoredCost(s.table)
  }

  lemma EffectKeepsSound(cfg: Config, s: Shared, e: Effect)
    requires Sound(cfg, s) && Enabled(cfg, s, e)
    ensures Sound(cfg, Apply(cfg, s, e))
  {
    EffectKeepsIndex(cfg, s, e);
    EffectKeepsLru(cfg, s, e);
  }

  /** Performs e if the code could be at it, so that effects can be chained. */
  ghost function Then(cfg: Config, s: Shared, e: Effect): (r: Shared)
    ensures Sound(cfg, s) ==> Sound(cfg, r)
  {
    if Sound(cfg, s) && Enabled(cfg, s, e) then
      EffectKeepsSound(cfg, s, e);
      Apply(cfg, s, e)
    else s
  }

  lemma ThenIs(cfg: Config, s: Shared, e: Effect)
    requires Sound(cfg, s) && Enabled(cfg, s, e)
    ensures IndexOk(cfg, s) && LruOk(s)
    ensures Then(cfg, s, e) == Apply(cfg, s, e) && Sound(cfg, Then(cfg, s, e))
  {}

  /** dt_cache_remove of the entry in bucket b: unlink, leave the LRU list, give back the cost. */
  ghost function Evict(cfg: Config, s: Shared, b: nat): Shared
    requires b < |s.table|
  {
    Then(cfg, Then(cfg, Then(cfg, s, Unlink(b)), Drop(b)), AddCost(-s.table[b].cost))
  }

  /** dt_cache_read_get and dt_cache_read_testget finding the entry in bucket b. */
  ghost function Hit(cfg: Config, s: Shared, b: nat): Shared {
    Then(cfg, Then(cfg, s, AddRead(b)), Touch(b))
  }

  /** dt_cache_read_get storing a new entry in bucket b. */
  ghost function Store(cfg: Config, s: Shared, key: Key, b: nat, cost: int, data: Ptr, locked: bool): Shared {
    Then(cfg, Then(cfg, s, Insert(key, b, cost, data, locked)), Touch(b))
  }

  /** The second half of a removal: the list and the cost follow the table. */
  lemma AfterUnlink(cfg: Config, s: Shared, b: nat, c: int)
    requires Sound(cfg, s) && b < |s.table|
    ensures var r := Then(cfg, Then(cfg, s, Drop(b)), AddCost(c));
            && r.order == Without(s.order, b) && |r.table| == |s.table|
            && forall x :: 0 <= x < |s.table| ==> (InUse(r.table, x) <==> InUse(s.table, x))
  {}

  lemma QuietOnMap(cfg: Config, s: Shared, e: Effect)
    requires Sound(cfg, s) && Enabled(cfg, s, e) && (e.Touch? || e.Drop? || e.AddCost?)
    ensures Contents(Then(cfg, s, e).table) == Contents(s.table)
  {
    EffectOnMap(cfg, s, e);
  }

  lemma UnlinkedOnMap(cfg: Config, s: Shared, b: nat)
    requires Sound(cfg, s) && Enabled(cfg, s, Unlink(b))
    ensures Contents(Then(cfg, s, Unlink(b)).table) == Contents(s.table) - {s.table[b].key}
    ensures |Then(cfg, s, Unlink(b)).table| == |s.table|
  {
    EffectOnMap(cfg, s, Unlink(b));
  }

  lemma EvictOnMap(cfg: Config, s: Shared, b: nat)
    requires Sound(cfg, s) && Enabled(cfg, s, Unlink(b))
    ensures Contents(Evict(cfg, s, b).table) == Contents(s.table) - {s.table[b].key}
  {
    hide Apply, Contents, IndexOk, LruOk;
    var s1 := Then(cfg, s, Unlink(b));
    UnlinkedOnMap(cfg, s, b);
    QuietOnMap(cfg, s1, Drop(b));
    QuietOnMap(cfg, Then(cfg, s1, Drop(b)), AddCost(-s.table[b].cost));
  }

  lemma EvictOnCost(cfg: Config, s: Shared, b: nat)
    requires Sound(cfg, s) && Enabled(cfg, s, Unlink(b))
    ensures Excess(Evict(cfg, s, b)) == Excess(s)
    ensures Evict(cfg, s, b).cost == s.cost - s.table[b].cost
  {
    var s1 := Then(cfg, s, Unlink(b));
    EffectOnExcess(cfg, s, Unlink(b));
    EffectOnExcess(cfg, s1, Drop(b));
  }

  lemma EvictLists(cfg: Config, s: Shared, b: nat)
    requires Sound(cfg, s) && Enabled(cfg, s, Unlink(b))
    ensures Evict(cfg, s, b).order == Without(s.order, b) && |Evict(cfg, s, b).table| == |s.table|
    ensures forall x :: 0 <= x < |s.table| ==>
              (InUse(Evict(cfg, s, b).table, x) <==> x != b && InUse(s.table, x))
  {
    var s1 := Then(cfg, s, Unlink(b));
    UnlinkLands(cfg, s, b);
    UnlinkKeepsLinks(cfg, s, b);
    AfterUnlink(cfg, s1, b, -s.table[b].cost);
    forall x | 0 <= x < |s.table| ensures InUse(s1.table, x) <==> x != b && InUse(s.table, x) {
      assert x != b ==> SameEntry(s1.table[x], s.table[x]);
    }
  }

  lemma EvictKeepsSettled(cfg: Config, s: Shared, b: nat)
    requires Settled(cfg, s) && Enabled(cfg, s, Unlink(b))
    ensures Settled(cfg, Evict(cfg, s, b))
    ensures Contents(Evict(cfg, s, b).table) == Contents(s.table) - {s.table[b].key}
    ensures Evict(cfg, s, b).order == Without(s.order, b)
    ensures Evict(cfg, s, b).cost == s.cost - s.table[b].cost
  {
    EvictOnMap(cfg, s, b);
    EvictOnCost(cfg, s, b);
    EvictLists(cfg, s, b);
  }

  lemma HitKeepsSettled(cfg: Config, s: Shared, b: nat)
    requires Settled(cfg, s) && InUse(s.table, b)
    ensures Settled(cfg, Hit(cfg, s, b))
    ensures Contents(Hit(cfg, s, b).table)
         == Contents(s.table)[s.table[b].key := EntryOf(s.table[b]).(read := s.table[b].read + 1)]
    ensures Hit(cfg, s, b).order == MoveToFront(s.order, b)
    ensures Hit(cfg, s, b).cost == s.cost
  {
    hide Settled, Contents;
    SettledUses(cfg, s, b);
    InPlaceKeepsSettled(cfg, s, AddRead(b));
    TouchKeepsSettled(cfg, Then(cfg, s, AddRead(b)), b);
  }

  /** The list is one of last use: the entry found is first now, and all others keep their order. */
  lemma HitIsMostRecent(cfg: Config, s: Shared, b: nat)
    requires Settled(cfg, s) && InUse(s.table, b)
    ensures b in s.order && Hit(cfg, s, b).order == [b] + Cut(s.order, IndexOf(s.order, b))
  {
    hide Settled, Contents;
    SettledUses(cfg, s, b);
    HitKeepsSettled(cfg, s, b);
    WithoutIsCut(s.order, IndexOf(s.order, b));
  }

  lemma SettledUses(cfg: Config, s: Shared, b: nat)
    requires Settled(cfg, s) && InUse(s.table, b)
    ensures b in s.order && Distinct(s.order) && b < |s.table|
  {}

  lemma TouchKeepsSettled(cfg: Config, s: Shared, b: nat)
    requires Settled(cfg, s) && InUse(s.table, b)
    ensures Settled(cfg, Then(cfg, s, Touch(b))) && b in s.order
    ensures Contents(Then(cfg, s, Touch(b)).table) == Contents(s.table)
    ensures Then(cfg, s, Touch(b)).order == MoveToFront(s.order, b)
    ensures Then(cfg, s, Touch(b)).cost == s.cost
  {
    EffectOnMap(cfg, s, Touch(b));
    EffectOnExcess(cfg, s, Touch(b));
    var s2 := Then(cfg, s, Touch(b));
    forall x | 0 <= x < |s2.table| ensures x in s2.order <==> InUse(s2.table, x) {
      assert InUse(s.table, x) <==> InUse(s2.table, x);
    }
  }

  lemma StoreKeepsSettled(cfg: Config, s: Shared, key: Key, b: nat, cost: int, data: Ptr, locked: bool)
    requires Settled(cfg, s) && Enabled(cfg, s, Insert(key, b, cost, data, locked))
    ensures Settled(cfg, Store(cfg, s, key, b, cost, data, locked))
    ensures Contents(Store(cfg, s, key, b, cost, data, locked).table)
         == Contents(s.table)[key := Entry(data, cost, 1, if locked then 1 else 0)]
    ensures Store(cfg, s, key, b, cost, data, locked).order == [b] + s.order
    ensures Store(cfg, s, key, b, cost, data, locked).cost == s.cost + cost
  {
    var e := Insert(key, b, cost, data, locked);
    var s1 := Then(cfg, s, e);
    InsertLands(cfg, s, key, b, cost, data, locked);
    EffectOnMap(cfg, s, e);
    EffectOnExcess(cfg, s, e);
    EffectOnMap(cfg, s1, Touch(b));
    EffectOnExcess(cfg, s1, Touch(b));
    assert !InUse(s.table, b);
    WithoutAbsent(s.order, b);
    var s2 := Store(cfg, s, key, b, cost, data, locked);
    forall x | 0 <= x < |s2.table| ensures x in s2.order <==> InUse(s2.table, x) {
      assert x != b ==> SameEntry(s1.table[x], s.table[x]);
      assert InUse(s1.table, x) <==> InUse(s2.table, x);
    }
  }

  /** The lock counters and dt_cache_realloc, on the entry in bucket b. */
  lemma InPlaceKeepsSettled(cfg: Config, s: Shared, e: Effect)
    requires Settled(cfg, s) && IsInPlace(e) && InUse(s.table, e.b)
    ensures Settled(cfg, Then(cfg, s, e))
    ensures Contents(Then(cfg, s, e).table) == Contents(s.table)[s.table[e.b].key := EntryOf(InPlace(s.table[e.b], e))]
    ensures Then(cfg, s, e).order == s.order
    ensures Then(cfg, s, e) == s.(table := s.table[e.b := InPlace(s.table[e.b], e)],
                                  cost := s.cost + (InPlace(s.table[e.b], e).cost - s.table[e.b].cost))
  {
    EffectOnMap(cfg, s, e);
    EffectOnExcess(cfg, s, e);
    var r := Then(cfg, s, e);
    forall x | 0 <= x < |r.table| ensures x in r.order <==> InUse(r.table, x) {
      assert InUse(s.table, x) <==> InUse(r.table, x);
    }
  }

  // ---------------------------------------------------------------------------------------------
  // The keys in the order of their last use
  // ---------------------------------------------------------------------------------------------

  /** The stored keys, most recently used first. */
  ghost function KeyOrder(s: Shared): (r: seq<Key>)
    requires LruOk(s)
    ensures |r| == |s.order|
  {
    seq(|s.order|, k requires 0 <= k < |s.order| => s.table[s.order[k]].key)
  }

  /** The list names every stored key once. */
  lemma KeyOrderIsPermutation(cfg: Config, s: Shared)
    requires Settled(cfg, s)
    ensures Distinct(KeyOrder(s))
    ensures forall key :: key in KeyOrder(s) <==> key in Contents(s.table)
  {
    var ks := KeyOrder(s);
    forall i | 0 <= i < |ks| ensures InUse(s.table, s.order[i]) {
      assert s.order[i] in s.order;
    }
    forall i, j | 0 <= i < j < |ks| ensures ks[i] != ks[j] {
      assert InUse(s.table, s.order[i]) && InUse(s.table, s.order[j]);
    }
    forall key | key in ks ensures key in Contents(s.table) {
      var i := IndexOf(ks, key);
      assert Holds(s.table, s.order[i], key);
    }
    forall key | key in Contents(s.table) ensures key in ks {
      var b :| Holds(s.table, b, key);
      assert b in s.order;
      assert ks[IndexOf(s.order, b)] == key;
    }
  }

  // ---------------------------------------------------------------------------------------------
  // Garbage collection
  // ---------------------------------------------------------------------------------------------

  predicate Unlocked(b: Bucket) {
    b.read == 0 && b.write == 0
  }

  /** The bucket that one garbage collection evicts: the first unlocked one among the `budget` least
      recently used, or -1. */
  function Victim(t: seq<Bucket>, order: seq<nat>, budget: nat): (v: int)
    ensures v == -1 || (v in order && 0 <= v < |t| && Unlocked(t[v]))
    decreases budget
  {
    if order == [] || budget == 0 then -1
    else
      var b := order[|order|-1];
      if b < |t| && Unlocked(t[b]) then b else Victim(t, order[..|order|-1], budget - 1)
  }

  /** Victim by position: everything less recently used than the victim is locked. */
  lemma {:induction false} VictimIsLeastRecent(t: seq<Bucket>, order: seq<nat>, budget: nat)
    requires forall k :: 0 <= k < |order| ==> order[k] < |t|
    ensures var v := Victim(t, order, budget);
            if v == -1 then
              forall k :: 0 <= k < |order| && |order| - budget <= k ==> !Unlocked(t[order[k]])
            else
              exists j :: 0 <= j < |order| && |order| - budget <= j && order[j] == v
                          && forall k :: j < k < |order| ==> !Unlocked(t[order[k]])
  {
    if order != [] && budget != 0 {
      var rest := order[..|order|-1];
      var b := order[|order|-1];
      if Unlocked(t[b]) {
        assert order[|order|-1] == Victim(t, order, budget);
      } else {
        VictimIsLeastRecent(t, rest, budget - 1);
        var v := Victim(t, rest, budget - 1);
        if v != -1 {
          var j :| 0 <= j < |rest| && |rest| - (budget - 1) <= j && rest[j] == v
                   && forall k :: j < k < |rest| ==> !Unlocked(t[rest[k]]);
          assert order[j] == v;
          forall k | j < k < |order| ensures !Unlocked(t[order[k]]) {
            if k < |rest| { assert rest[k] == order[k]; }
          }
        } else {
          forall k | 0 <= k < |order| && |order| - budget <= k ensures !Unlocked(t[order[k]]) {
            if k < |rest| { assert rest[k] == order[k]; }
          }
        }
      }
    }
  }

  predicate TooFull(cost: int, ratio: real, quota: int) {
    cost as real > ratio * quota as real
  }

  /** What is left after dt_cache_gc, run alone. */
  ghost function Collected(cfg: Config, s: Shared, ratio: real): Shared {
    var v := Victim(s.table, s.order, cfg.segSize + 1);
    if !TooFull(s.cost, ratio, cfg.quota) || v == -1 then s else Evict(cfg, s, v)
  }

  /** One call evicts one entry at most, and only an unlocked one. */
  lemma GcEvictsOne(cfg: Config, s: Shared, ratio: real)
    requires Settled(cfg, s)
    ensures Settled(cfg, Collected(cfg, s, ratio))
    ensures var m := Contents(s.table);
            var w := Contents(Collected(cfg, s, ratio).table);
            w == m || exists key :: key in m && m[key].read == 0 && m[key].write == 0 && w == m - {key}
  {
    var v := Victim(s.table, s.order, cfg.segSize + 1);
    if TooFull(s.cost, ratio, cfg.quota) && v != -1 {
      VictimIsStored(cfg, s, v);
      EvictKeepsSettled(cfg, s, v);
      hide Settled, Evict;
      assert Contents(Collected(cfg, s, ratio).table) == Contents(s.table) - {s.table[v].key};
    }
  }

  lemma VictimIsStored(cfg: Config, s: Shared, v: nat)
    requires Settled(cfg, s) && v in s.order && v < |s.table| && Unlocked(s.table[v])
    ensures Enabled(cfg, s, Unlink(v))
    ensures s.table[v].key in Contents(s.table) && Contents(s.table)[s.table[v].key] == EntryOf(s.table[v])
  {
    assert InUse(s.table, v);
    assert Holds(s.table, v, s.table[v].key);
    ContentsAt(s.table, v, s.table[v].key);
  }

  /** cache.h promises that dt_cache_gc removes from the end of the list until the fill ratio is met.
      One call evicts one entry at most: the ratio is met afterwards if and only if it was met before
      or the victim's cost alone makes the difference. */
  lemma GcMeetsRatio(cfg: Config, s: Shared, ratio: real)
    requires Settled(cfg, s)
    ensures var v := Victim(s.table, s.order, cfg.segSize + 1);
            !TooFull(Collected(cfg, s, ratio).cost, ratio, cfg.quota) <==>
              || !TooFull(s.cost, ratio, cfg.quota)
              || (v != -1 && !TooFull(s.cost - s.table[v].cost, ratio, cfg.quota))
  {
    hide Settled, Evict, Sound, IndexOk, LruOk, Contents;
    var v := Victim(s.table, s.order, cfg.segSize + 1);
    if TooFull(s.cost, ratio, cfg.quota) && v != -1 {
      VictimIsStored(cfg, s, v);
      EvictKeepsSettled(cfg, s, v);
    }
  }

  /** Every entry that the walk of dt_cache_gc looks at is locked. */
  ghost predicate AllLocked(cfg: Config, s: Shared) {
    forall k :: 0 <= k < |s.order| && |s.order| - (cfg.segSize + 1) <= k ==>
      s.order[k] < |s.table| && !Unlocked(s.table[s.order[k]])
  }

  /** A collection evicts an entry, or there is nothing to do, or nothing that it could do. */
  lemma GcProgress(cfg: Config, s: Shared, ratio: real)
    requires Settled(cfg, s)
    ensures var t := Collected(cfg, s, ratio);
            Settled(cfg, t)
            && if !TooFull(s.cost, ratio, cfg.quota) || AllLocked(cfg, s) then t == s
               else |t.order| + 1 == |s.order|
  {
    hide Settled, Sound, Evict;
    var v := Victim(s.table, s.order, cfg.segSize + 1);
    SettledOrder(cfg, s);
    VictimIsLeastRecent(s.table, s.order, cfg.segSize + 1);
    if v != -1 {
      VictimIsStored(cfg, s, v);
      EvictKeepsSettled(cfg, s, v);
      WithoutIsCut(s.order, IndexOf(s.order, v));
    }
  }

  lemma SettledOrder(cfg: Config, s: Shared)
    requires Settled(cfg, s)
    ensures Distinct(s.order) && forall k :: 0 <= k < |s.order| ==> s.order[k] < |s.table|
  {}

  /** states[i+1] is what a call of dt_cache_gc leaves of states[i]. */
  ghost predicate GcCalls(cfg: Config, states: seq<Shared>, ratio: real) {
    forall i :: 0 <= i < |states| - 1 ==> CollectedAt(cfg, states, ratio, i)
  }

  ghost predicate CollectedAt(cfg: Config, states: seq<Shared>, ratio: real, i: nat)
    requires i < |states| - 1
  {
    states[i+1] == Collected(cfg, states[i], ratio)
  }

  /** w holds some of the entries of m, and all that are locked. */
  ghost predicate KeepsLocked(m: map<Key, Entry>, w: map<Key, Entry>) {
    && (forall key :: key in w ==> key in m && w[key] == m[key])
    && (forall key :: key in m && (m[key].read != 0 || m[key].write != 0) ==> key in w)
  }

  /** Calling dt_cache_gc again and again ends with the ratio met, or with every entry in reach of its walk locked,
      after as many calls as there are entries; the locked entries are still there, and nothing has changed about
      those that are left. */
  lemma {:induction false} RepeatedGcEnds(cfg: Config, states: seq<Shared>, ratio: real, n: nat)
    requires GcCalls(cfg, states, ratio) && n < |states| && Settled(cfg, states[0])
    ensures Settled(cfg, states[n]) && KeepsLocked(Contents(states[0].table), Contents(states[n].table))
    ensures || !TooFull(states[n].cost, ratio, cfg.quota) || AllLocked(cfg, states[n])
            || |states[n].order| + n <= |states[0].order|
    ensures |states[0].order| <= n ==> !TooFull(states[n].cost, ratio, cfg.quota) || AllLocked(cfg, states[n])
  {
    hide Settled, Collected, Contents;
    if n > 0 {
      var s := states[n-1];
      RepeatedGcEnds(cfg, states, ratio, n - 1);
      assert CollectedAt(cfg, states, ratio, n - 1);
      GcProgress(cfg, s, ratio);
      GcEvictsOne(cfg, s, ratio);
    }
  }
}
