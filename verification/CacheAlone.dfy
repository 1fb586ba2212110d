/** One caller alone, over whole runs of dt_cache_read_get and dt_cache_read_release: how often it can wait, what a
    NULL means, and where dt_cache_gc misses its ratio. */
module CacheAlone {
  import opened CacheModel
  import opened CacheEffects
  import opened CacheSequential
  import opened Cache

  /** A pass of the retry loop of dt_cache_read_get with its answer, or dt_cache_read_release. */
  datatype LoneCall = Get(key: Key, answer: Answer) | Release(key: Key)

  datatype LoneRun = LoneRun(states: seq<Shared>, calls: seq<LoneCall>)

  /** One call, as Cache.ReadGet and Cache.ReadRelease promise it to a caller who meets their requirements. */
  ghost predicate Called(cfg: Config, allocate: Allocator, s: Shared, c: LoneCall, s': Shared) {
    var m := Contents(s.table);
    match c
    case Get(key, answer) =>
      && key != EMPTY && (key in m && m[key].write == 0 ==> m[key].read < MAX_READ)
      && Pass(cfg, allocate, s, key, answer, s')
    case Release(key) =>
      && key in m && m[key].read > 0 && m[key].write == 0
      && s' == Then(cfg, s, DropRead(BucketOf(s.table, key)))
  }

  ghost predicate IsLoneRun(cfg: Config, allocate: Allocator, r: LoneRun) {
    && |r.states| == |r.calls| + 1 && r.states[0] == NewCache(cfg)
    && forall i :: 0 <= i < |r.calls| ==> Called(cfg, allocate, r.states[i], r.calls[i], r.states[i+1])
  }

  /** Where a run stands. */
  function Now(r: LoneRun): Shared
    requires r.states != []
  {
    r.states[|r.states|-1]
  }

  function Extended(r: LoneRun, c: LoneCall, s: Shared): LoneRun {
    LoneRun(r.states + [s], r.calls + [c])
  }

  lemma ExtendedIsRun(cfg: Config, allocate: Allocator, r: LoneRun, c: LoneCall, s: Shared)
    requires IsLoneRun(cfg, allocate, r) && Called(cfg, allocate, Now(r), c, s)
    ensures IsLoneRun(cfg, allocate, Extended(r, c, s)) && Now(Extended(r, c, s)) == s
  {
    hide Called;
    var t := Extended(r, c, s);
    forall i | 0 <= i < |t.calls| ensures Called(cfg, allocate, t.states[i], t.calls[i], t.states[i+1]) {
      if i < |r.calls| { assert t.states[i+1] == r.states[i+1]; }
    }
  }

  // ---------------------------------------------------------------------------------------------
  // A NULL from dt_cache_read_get
  // ---------------------------------------------------------------------------------------------

  /** The state after k stores of keys with home 0, in a table of 2^15 buckets: each has taken the next bucket. */
  ghost predicate FilledTo(cfg: Config, s: Shared, k: nat) {
    && Settled(cfg, s) && |s.table| == cfg.buckets && s.cost == k
    && (forall b :: 0 <= b < cfg.buckets ==> (Occupied(s.table[b]) <==> cfg.cacheMask < b <= cfg.cacheMask + k))
    && (forall key :: key in Contents(s.table) ==> key < k * MAX_BUCKETS)
  }

  lemma NewIsFilled(cfg: Config)
    requires cfg.Ok()
    ensures FilledTo(cfg, NewCache(cfg), 0)
  {
    NewIsSettled(cfg);
    NewStoresNothing(cfg);
  }

  lemma NextIsFree(cfg: Config, s: Shared, k: nat)
    requires FilledTo(cfg, s, k) && cfg.buckets == MAX_BUCKETS && cfg.cacheMask + k < REACH
    ensures FreeChoice(cfg, s.table, 0, cfg.cacheMask + 1 + k)
    ensures k * MAX_BUCKETS < EMPTY && Home(k * MAX_BUCKETS, cfg.buckets) == 0
    ensures k * MAX_BUCKETS !in Contents(s.table)
  {}

  lemma NextIsEnabled(cfg: Config, s: Shared, k: nat, data: Ptr)
    requires FilledTo(cfg, s, k) && cfg.buckets == MAX_BUCKETS && cfg.cacheMask + k < REACH
    ensures k * MAX_BUCKETS < EMPTY
    ensures Enabled(cfg, s, Insert(k * MAX_BUCKETS, cfg.cacheMask + 1 + k, 1, data, false))
  {
    NextIsFree(cfg, s, k);
  }

  /** With a quota of at least 40960, entries of cost 1 do not fill the table beyond 0.8 of it. */
  lemma NotTooFull(cfg: Config, s: Shared, k: nat)
    requires 40960 <= cfg.quota && k <= REACH && s.cost == k
    ensures !TooFull(s.cost, 0.8, cfg.quota) && Collected(cfg, s, 0.8) == s
  {}

  /** A pass that is not too full and finds room. */
  lemma StoringPass(cfg: Config, allocate: Allocator, s: Shared, key: Key, f: nat, r: Answer, s': Shared)
    requires !TooFull(s.cost, 0.8, cfg.quota) && 0 < |s.table| == cfg.buckets && f < cfg.buckets
    requires key != EMPTY && key !in Contents(s.table) && FreeChoice(cfg, s.table, Home(key, cfg.buckets), f)
    requires var a := allocate.Run(key, s.table[f].data);
             r == Data(a.data) && s' == Store(cfg, s, key, f, a.cost, a.data, a.locked)
    ensures Called(cfg, allocate, s, Get(key, r), s')
  {
    hide Contents, FreeChoice, Store;
    assert Looked(cfg, allocate, s, key, f, r, s');
  }

  lemma FillStep(cfg: Config, s: Shared, k: nat) returns (key: Key, r: Answer, s': Shared)
    requires FilledTo(cfg, s, k) && cfg.buckets == MAX_BUCKETS && cfg.cacheMask + k < REACH && 40960 <= cfg.quota
    ensures FilledTo(cfg, s', k + 1)
    ensures Called(cfg, NoCallback, s, Get(key, r), s')
  {
    hide Contents, Settled, FreeChoice, Enabled, Collected, Called, Store;
    NextIsFree(cfg, s, k);
    key := k * MAX_BUCKETS;
    var f := cfg.cacheMask + 1 + k;
    var data := s.table[f].data;
    NextIsEnabled(cfg, s, k, data);
    StoreKeepsSettled(cfg, s, key, f, 1, data, false);
    s' := Store(cfg, s, key, f, 1, data, false);
    r := Data(data);
    NotTooFull(cfg, s, k);
    StoringPass(cfg, NoCallback, s, key, f, r, s');
    SettledOccupies(cfg, s);
    SettledOccupies(cfg, s');
  }

  lemma SettledOccupies(cfg: Config, s: Shared)
    requires Settled(cfg, s)
    ensures |s.table| == cfg.buckets
    ensures forall b :: 0 <= b < |s.table| ==> (Occupied(s.table[b]) <==> b in s.order)
  {
    forall b | 0 <= b < |s.table| ensures Occupied(s.table[b]) <==> b in s.order {
      assert InUse(s.table, b) <==> Occupied(s.table[b]);
    }
  }

  /** A lone caller who reads the keys 0, 2^15, 2 * 2^15, ... */
  lemma {:induction false} FillRun(cfg: Config, k: nat) returns (r: LoneRun)
    requires cfg.Ok() && cfg.buckets == MAX_BUCKETS && cfg.cacheMask + k <= REACH && 40960 <= cfg.quota
    ensures IsLoneRun(cfg, NoCallback, r) && FilledTo(cfg, Now(r), k)
  {
    hide Called, FilledTo;
    if k == 0 {
      r := LoneRun([NewCache(cfg)], []);
      NewIsFilled(cfg);
    } else {
      var q := FillRun(cfg, k - 1);
      var key, a, s := FillStep(cfg, Now(q), k - 1);
      ExtendedIsRun(cfg, NoCallback, q, Get(key, a), s);
      r := Extended(q, Get(key, a), s);
    }
  }

  /** When all candidates are taken, the next key is answered NULL. */
  lemma FilledAnswersNull(cfg: Config, s: Shared, k: nat)
    requires FilledTo(cfg, s, k) && cfg.buckets == MAX_BUCKETS && cfg.cacheMask + k == REACH && 40960 <= cfg.quota
    ensures FreeChoice(cfg, s.table, 0, -1) && !Occupied(s.table[cfg.buckets-1])
    ensures k * MAX_BUCKETS < EMPTY && Called(cfg, NoCallback, s, Get(k * MAX_BUCKETS, NoRoom), s)
  {
    hide Contents, Settled, Collected;
    var key := k * MAX_BUCKETS;
    NotTooFull(cfg, s, k);
    assert Looked(cfg, NoCallback, s, key, -1, NoRoom, s);
  }

  /** In a table of 2^15 buckets a lone caller, without callbacks, can come to be answered NULL although the last
      bucket is free, and farther from home than the cache line. */
  lemma NoRoomInRun(cfg: Config) returns (r: LoneRun, key: Key)
    requires cfg.Ok() && cfg.buckets == MAX_BUCKETS && cfg.cacheMask <= REACH && 40960 <= cfg.quota
    ensures IsLoneRun(cfg, NoCallback, r) && r.calls != [] && r.calls[|r.calls|-1] == Get(key, NoRoom)
    ensures Settled(cfg, Now(r)) && |Now(r).table| == cfg.buckets && Home(key, cfg.buckets) == 0
    ensures !Occupied(Now(r).table[cfg.buckets-1]) && FreeChoice(cfg, Now(r).table, 0, -1)
  {
    hide Called, Settled, FreeChoice;
    var k := REACH - cfg.cacheMask;
    var q := FillRun(cfg, k);
    FilledAnswersNull(cfg, Now(q), k);
    key := k * MAX_BUCKETS;
    ExtendedIsRun(cfg, NoCallback, q, Get(key, NoRoom), Now(q));
    r := Extended(q, Get(key, NoRoom), Now(q));
  }

  /** The search for a key with home h gives up exactly when every bucket beyond the cache line is taken. */
  ghost predicate GivesUpWhenFull(cfg: Config, s: Shared, h: nat) {
    |s.table| == cfg.buckets && (FreeChoice(cfg, s.table, h, -1) <==> FullBeyond(cfg, s.table, h))
  }

  /** A NULL from dt_cache_read_get means that every bucket beyond the cache line distance from home is taken, in
      every cache, exactly when the search can reach all of them: the two ends of the table are no more than
      SHRT_MAX - 1 apart, or within the cache line distance. */
  lemma NoRoomMeansFull(cfg: Config)
    requires cfg.Ok()
    ensures (forall s: Shared, h: nat :: Settled(cfg, s) && h < cfg.buckets ==> GivesUpWhenFull(cfg, s, h))
       <==> (cfg.buckets <= REACH + 1 || cfg.buckets <= cfg.cacheMask + 1)
  {
    hide Settled;
    if cfg.buckets <= REACH + 1 || cfg.buckets <= cfg.cacheMask + 1 {
      forall s: Shared, h: nat | Settled(cfg, s) && h < cfg.buckets ensures GivesUpWhenFull(cfg, s, h) {
        SettledOccupies(cfg, s);
        assert forall g :: Candidate(cfg, h, g) <==>
                 0 <= g < cfg.buckets && (g - h > cfg.cacheMask || h - g > cfg.cacheMask);
      }
    } else {
      var rich := cfg.(quota := 40960);
      var r, _ := NoRoomInRun(rich);
      SettledForAnyQuota(rich, cfg, Now(r));
      FreeChoiceForAnyQuota(rich, cfg, Now(r).table);
      assert !GivesUpWhenFull(cfg, Now(r), 0);
    }
  }

  lemma SettledForAnyQuota(cfg: Config, cfg': Config, s: Shared)
    requires Settled(cfg, s) && cfg' == cfg.(quota := cfg'.quota)
    ensures Settled(cfg', s)
  {}

  lemma FreeChoiceForAnyQuota(cfg: Config, cfg': Config, t: seq<Bucket>)
    requires |t| == cfg.buckets && cfg' == cfg.(quota := cfg'.quota)
    ensures FreeChoice(cfg, t, 0, -1) ==> FreeChoice(cfg', t, 0, -1)
  {
    assert forall g :: Candidate(cfg', 0, g) ==> Candidate(cfg, 0, g);
  }

  // ---------------------------------------------------------------------------------------------
  // Where dt_cache_gc misses its ratio
  // ---------------------------------------------------------------------------------------------

  lemma MayStore(cfg: Config, s: Shared, key: Key, f: nat, a: Allocation)
    requires Settled(cfg, s) && key != EMPTY && key !in Contents(s.table)
    requires |s.table| == cfg.buckets && Home(key, cfg.buckets) < cfg.buckets
    requires FreeChoice(cfg, s.table, Home(key, cfg.buckets), f)
    ensures Enabled(cfg, s, Insert(key, f, a.cost, a.data, a.locked)) && f < |s.table|
  {}

  /** What a store leaves in its bucket. */
  lemma StoredAt(cfg: Config, s: Shared, key: Key, f: nat, a: Allocation)
    requires Settled(cfg, s) && Enabled(cfg, s, Insert(key, f, a.cost, a.data, a.locked)) && f < |s.table|
    ensures var t := Store(cfg, s, key, f, a.cost, a.data, a.locked).table;
            && |t| == |s.table| && InUse(t, f) && t[f].key == key
            && EntryOf(t[f]) == Entry(a.data, a.cost, 1, if a.locked then 1 else 0)
  {
    hide IndexOk, LruOk, Contents, Apply, Store, Settled;
    SettledIs(cfg, s);
    StorePlan(cfg, s, key, f, a.cost, a.data, a.locked);
    InsertLands(cfg, s, key, f, a.cost, a.data, a.locked);
    InsertKeepsSize(cfg, s, Insert(key, f, a.cost, a.data, a.locked));
  }

  /** The handle that a store has returned, given back. */
  lemma ReleaseStored(cfg: Config, allocate: Allocator, s: Shared, f: nat) returns (s': Shared)
    requires Settled(cfg, s) && InUse(s.table, f) && s.table[f].read == 1 && s.table[f].write == 0
    ensures Called(cfg, allocate, s, Release(s.table[f].key), s') && Settled(cfg, s')
    ensures s'.order == s.order && s'.cost == s.cost && InUse(s'.table, f) && s'.table[f].key == s.table[f].key
    ensures Contents(s'.table) == Contents(s.table)[s.table[f].key := EntryOf(s.table[f]).(read := 0)]
  {
    hide Contents, Settled, Apply, BucketOf, IndexOk;
    SettledIs(cfg, s);
    BucketMeans(cfg, s, f);
    InPlaceKeepsSettled(cfg, s, DropRead(f));
    s' := Then(cfg, s, DropRead(f));
  }

  /** A lone caller reads a key that is not stored, and releases it. */
  lemma ReadAndRelease(cfg: Config, allocate: Allocator, r: LoneRun, key: Key, f: nat) returns (r': LoneRun)
    requires IsLoneRun(cfg, allocate, r) && Settled(cfg, Now(r)) && !TooFull(Now(r).cost, 0.8, cfg.quota)
    requires |Now(r).table| == cfg.buckets && f < cfg.buckets && key != EMPTY && key !in Contents(Now(r).table)
    requires FreeChoice(cfg, Now(r).table, Home(key, cfg.buckets), f)
    requires !allocate.Run(key, Now(r).table[f].data).locked
    ensures var a := allocate.Run(key, Now(r).table[f].data);
            && IsLoneRun(cfg, allocate, r') && r'.calls == r.calls + [Get(key, Data(a.data)), Release(key)]
            && Settled(cfg, Now(r')) && Now(r').order == [f] + Now(r).order && Now(r').cost == Now(r).cost + a.cost
            && InUse(Now(r').table, f) && Now(r').table[f].key == key
            && Contents(Now(r').table) == Contents(Now(r).table)[key := Entry(a.data, a.cost, 0, 0)]
  {
    hide Called, Settled, Contents, Enabled, Store, FreeChoice;
    var s := Now(r);
    var a := allocate.Run(key, s.table[f].data);
    MayStore(cfg, s, key, f, a);
    StoredAt(cfg, s, key, f, a);
    StoreKeepsSettled(cfg, s, key, f, a.cost, a.data, a.locked);
    var t := Store(cfg, s, key, f, a.cost, a.data, a.locked);
    StoringPass(cfg, allocate, s, key, f, Data(a.data), t);
    var u := ReleaseStored(cfg, allocate, t, f);
    ExtendedIsRun(cfg, allocate, r, Get(key, Data(a.data)), t);
    ExtendedIsRun(cfg, allocate, Extended(r, Get(key, Data(a.data)), t), Release(key), u);
    r' := Extended(Extended(r, Get(key, Data(a.data)), t), Release(key), u);
  }

  /** Key 0 costs 1, every other key 100. */
  function Uneven(): Allocator {
    Callback((key: Key, data: Ptr) => Allocation(false, if key == 0 then 1 else 100, key + 1))
  }

  /** The promise of cache.h fails: a lone caller with quota 10 reads key 0 and releases it, then key 1 likewise.
      Nobody holds the two entries, and removing both would meet the ratio, but one call of dt_cache_gc leaves the
      cache too full. */
  lemma GcMissesRatio() returns (cfg: Config, r: LoneRun)
    ensures IsLoneRun(cfg, Uneven(), r)
    ensures r.calls == [Get(0, Data(1)), Release(0), Get(1, Data(2)), Release(1)]
    ensures Contents(Now(r).table) == map[0 := Entry(1, 1, 0, 0), 1 := Entry(2, 100, 0, 0)]
    ensures !TooFull(0, 0.8, cfg.quota) && TooFull(Collected(cfg, Now(r), 0.8).cost, 0.8, cfg.quota)
  {
    hide Settled, Contents, IsLoneRun, Victim, Collected, IndexOk, LruOk;
    cfg := Config(4, 4, 1, 0, 10);
    r := UnevenRun(cfg);
    GcMeetsRatio(cfg, Now(r), 0.8);
    OldestIsVictim(cfg, Now(r));
  }

  lemma UnevenRun(cfg: Config) returns (r: LoneRun)
    requires cfg == Config(4, 4, 1, 0, 10)
    ensures IsLoneRun(cfg, Uneven(), r) && r.states != []
    ensures r.calls == [Get(0, Data(1)), Release(0), Get(1, Data(2)), Release(1)]
    ensures Contents(Now(r).table) == map[0 := Entry(1, 1, 0, 0), 1 := Entry(2, 100, 0, 0)]
    ensures Settled(cfg, Now(r)) && Now(r).order == [2, 1] && Now(r).cost == 101
    ensures |Now(r).table| > 2 && Now(r).table[2].key == 1
  {
    hide Settled, Contents, Called, FreeChoice;
    var r0 := StartOfRun(cfg, Uneven());
    SettledOccupies(cfg, Now(r0));
    NextChoice(cfg, Now(r0).table, 0, 1);
    var r1 := ReadAndRelease(cfg, Uneven(), r0, 0, 1);
    SettledOccupies(cfg, Now(r1));
    NextChoice(cfg, Now(r1).table, 1, 2);
    r := ReadAndRelease(cfg, Uneven(), r1, 1, 2);
    SettledOccupies(cfg, Now(r));
  }

  lemma NextChoice(cfg: Config, t: seq<Bucket>, key: Key, f: nat)
    requires cfg == Config(4, 4, 1, 0, 10) && |t| == 4 && key < 3 && f == key + 1 && !Occupied(t[f])
    ensures Home(key, cfg.buckets) == key && FreeChoice(cfg, t, Home(key, cfg.buckets), f)
  {}

  lemma StartOfRun(cfg: Config, allocate: Allocator) returns (r: LoneRun)
    requires cfg.Ok()
    ensures IsLoneRun(cfg, allocate, r) && r == LoneRun([NewCache(cfg)], []) && Settled(cfg, Now(r))
    ensures Contents(Now(r).table) == map[]
  {
    r := LoneRun([NewCache(cfg)], []);
    NewIsSettled(cfg);
    NewStoresNothing(cfg);
  }

  lemma OldestIsVictim(cfg: Config, s: Shared)
    requires Settled(cfg, s) && s.order == [2, 1] && |s.table| > 2 && s.table[2].key == 1
    requires Contents(s.table) == map[0 := Entry(1, 1, 0, 0), 1 := Entry(2, 100, 0, 0)]
    ensures Victim(s.table, s.order, cfg.segSize + 1) == 1 && s.table[1].cost == 1
  {
    assert InUse(s.table, s.order[1]) && InUse(s.table, s.order[0]);
    hide Contents;
    BucketMeans(cfg, s, 1);
  }

  // ---------------------------------------------------------------------------------------------
  // How long dt_cache_read_get waits
  // ---------------------------------------------------------------------------------------------

  /** states[i] and states[i+1] are what a pass of dt_cache_read_get that waits finds and leaves. */
  ghost predicate WaitsAt(cfg: Config, allocate: Allocator, states: seq<Shared>, key: Key, i: nat)
    requires i < |states| - 1
  {
    Pass(cfg, allocate, states[i], key, Wait, states[i+1])
  }

  ghost predicate WriteLocked(s: Shared, key: Key) {
    key in Contents(s.table) && Contents(s.table)[key].write != 0
  }

  /** A pass waits exactly if the collection leaves the cache too full or finds the entry write locked; what it
      leaves is what the collection left. */
  lemma PassWaits(cfg: Config, allocate: Allocator, s: Shared, key: Key, r: Answer, s': Shared)
    requires Settled(cfg, s)
    ensures var c := Collected(cfg, s, 0.8);
            if TooFull(c.cost, 0.8, cfg.quota) || WriteLocked(c, key) then
              Pass(cfg, allocate, s, key, r, s') <==> r == Wait && s' == c
            else Pass(cfg, allocate, s, key, r, s') ==> r != Wait
  {
    hide Settled, Collected, Contents;
    var c := Collected(cfg, s, 0.8);
    GcProgress(cfg, s, 0.8);
    SettledIs(cfg, c);
    assert WriteLocked(c, key) ==> (Looked(cfg, allocate, c, key, -1, r, s') <==> r == Wait && s' == c);
  }

  /** A lone caller does not wait in vain: when dt_cache_read_get has waited more often than there were entries, then
      the key is write locked, as it was from the beginning, or the cache is too full with every entry in reach of
      the collection locked; and then, as long as nobody else acts, it waits forever. */
  lemma WaitingEnds(cfg: Config, allocate: Allocator, states: seq<Shared>, key: Key)
    requires |states| > 0 && Settled(cfg, states[0]) && |states| - 1 > |states[0].order|
    requires forall i :: 0 <= i < |states| - 1 ==> WaitsAt(cfg, allocate, states, key, i)
    ensures var t := states[|states|-1];
            && (WriteLocked(states[0], key) || (TooFull(t.cost, 0.8, cfg.quota) && AllLocked(cfg, t)))
            && forall r, s' :: Pass(cfg, allocate, t, key, r, s') <==> r == Wait && s' == t
  {
    hide Settled, Collected, Contents, Pass, AllLocked;
    WaitsAreGcCalls(cfg, allocate, states, key);
    var n := |states| - 1;
    var s, t := states[n-1], states[n];
    RepeatedGcEnds(cfg, states, 0.8, n - 1);
    RepeatedGcEnds(cfg, states, 0.8, n);
    GcProgress(cfg, s, 0.8);
    assert WaitsAt(cfg, allocate, states, key, n - 1) && CollectedAt(cfg, states, 0.8, n - 1);
    PassWaits(cfg, allocate, s, key, Wait, t);
    forall r, s' ensures Pass(cfg, allocate, t, key, r, s') <==> r == Wait && s' == t {
      PassWaits(cfg, allocate, t, key, r, s');
    }
  }

  lemma {:induction false} WaitsAreGcCalls(cfg: Config, allocate: Allocator, states: seq<Shared>, key: Key)
    requires |states| > 0 && Settled(cfg, states[0])
    requires forall i :: 0 <= i < |states| - 1 ==> WaitsAt(cfg, allocate, states, key, i)
    ensures GcCalls(cfg, states, 0.8) && Settled(cfg, states[|states|-1])
  {
    hide Settled, Collected, Contents, Pass;
    if |states| > 1 {
      var n := |states| - 1;
      var before := states[..n];
      forall i | 0 <= i < |before| - 1 ensures WaitsAt(cfg, allocate, before, key, i) {
        assert WaitsAt(cfg, allocate, states, key, i);
      }
      WaitsAreGcCalls(cfg, allocate, before, key);
      assert WaitsAt(cfg, allocate, states, key, n - 1);
      PassWaits(cfg, allocate, states[n-1], key, Wait, states[n]);
      GcProgress(cfg, states[n-1], 0.8);
      forall i | 0 <= i < |states| - 1 ensures CollectedAt(cfg, states, 0.8, i) {
        if i < n - 1 { assert CollectedAt(cfg, before, 0.8, i); }
      }
    }
  }
}
