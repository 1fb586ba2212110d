/** The segment locks.  dt_cache_read_get searches a free bucket and then fills it, holding only the lock of the segment
    of its key, although the bucket may lie anywhere.  Here the search and the filling are two steps, so that readers
    of different segments can get between them.  If no bucket is in reach of two segments, every interleaving is one of
    CacheProtocol; if one is, two readers can fill the same bucket. */
module CacheSegments {
  import opened Arithmetic
  import opened CacheModel
  import opened CacheEffects
  import opened CacheSequential
  import opened Cache
  import opened CacheProtocol
  import opened CacheSafety
  import opened CacheRuns

  /** What a reader has in hand between search and filling, with its segment locked: the free bucket, and the last
      bucket of the chain of its home, or -1. */
  datatype Found = Nothing | Found(f: nat, last: int)

  /** found[i] belongs to thread i, which is at GetTry if it has found something. */
  datatype Split = Split(sys: Sys, found: seq<Found>)

  // ---------------------------------------------------------------------------------------------
  // The steps
  // ---------------------------------------------------------------------------------------------

  /** The key, or bucket number, whose segment the next step of a thread locks. */
  function Locks(th: Thread, ch: Choice): Option<Key> {
    match th.pc
    case GetTry(key) => Some(key)
    case TestTry(key) => if ch.SegmentBusy? then None else Some(key)
    case WriteTry(key) => Some(key)
    case RemoveTry(key, _) => Some(key)
    case GcPeek(_, curr, _) => if curr < EMPTY then Some(curr) else None
    case Idle =>
      (match ch
       case Release(key) => Some(key)
       case Downgrade(key) => Some(key)
       case Resize(key, _, _) => Some(key)
       case _ => None)
    case _ => None
  }

  /** Thread j has searched, not yet filled, and so holds the lock of the segment of hash. */
  ghost predicate HasLocked(sp: Split, j: nat, hash: Key)
    requires sp.sys.cfg.Ok()
  {
    && j < |sp.found| == |sp.sys.threads| && sp.found[j].Found? && sp.sys.threads[j].pc.GetTry?
    && Segment(sp.sys.cfg, sp.sys.threads[j].pc.key) == Segment(sp.sys.cfg, hash)
  }

  ghost predicate LockFree(sp: Split, tid: nat, hash: Key)
    requires sp.sys.cfg.Ok()
  {
    forall j: nat :: j != tid ==> !HasLocked(sp, j, hash)
  }

  /** The key is not stored, and there is room for it: ch.f is the free bucket that the search ends at. */
  ghost predicate Searches(sys: Sys, th: Thread, ch: Choice)
    requires Sized(sys)
  {
    && th.pc.GetTry? && ch.Pick? && ch.f >= 0 && BucketOf(sys.sh.table, th.pc.key) == -1
    && FreeChoice(sys.cfg, sys.sh.table, Home(th.pc.key, |sys.sh.table|), ch.f)
  }

  function ChainEnd(s: Shared, h: nat): int {
    if h < |s.chains| then Before(s.chains[h], |s.chains[h]|) else -1
  }

  /** read_lock, allocate and add_key_to_end_of_list, for bucket f as it is now, with the end of the chain as it was. */
  function Filling(s: Shared, h: nat, key: Key, f: nat, last: int, a: Allocation): Shared
    requires h < |s.table| == |s.chains| && f < |s.table| && -1 <= last < |s.table|
  {
    var t := s.table[f := Filled(s.table[f], key, a.cost, a.data, a.locked)];
    s.(table := if last == -1 then t[h := t[h].(firstDelta := ToInt16(Delta(h, f)))]
                else t[last := t[last].(nextDelta := ToInt16(Delta(last, f)))],
       cost := s.cost + a.cost, chains := s.chains[h := s.chains[h] + [f]])
  }

  ghost predicate Fills(sp: Split, sp': Split, tid: nat, ch: Choice)
    requires tid < |sp.found| == |sp.sys.threads| && Sized(sp.sys) && sp.found[tid].Found?
  {
    var sys, th, s, f, last := sp.sys, sp.sys.threads[tid], sp.sys.sh, sp.found[tid].f, sp.found[tid].last;
    && th.pc.GetTry? && ch.Pick? && ch.f == f && sp'.found == sp.found[tid := Nothing]
    && f < |s.table| == |s.chains| && -1 <= last < |s.table|
    && var key := th.pc.key;
       sp'.sys == if AssertsHold(s.table, Insert(key, f, ch.a.cost, ch.a.data, ch.a.locked)) then
                    sys.(sh := Filling(s, Home(key, |s.table|), key, f, last, ch.a),
                         threads := sys.threads[tid := HasStored(th, key, f, ch.a)])
                  else sys.(threads := sys.threads[tid := th.(pc := Crashed)])
  }

  ghost predicate SplitSteps(sp: Split, sp': Split, tid: nat, ch: Choice) {
    && tid < |sp.found| == |sp.sys.threads| && Sized(sp.sys)
    && var th := sp.sys.threads[tid];
       if sp.found[tid].Found? then Fills(sp, sp', tid, ch)
       else
         && (Locks(th, ch).Some? ==> LockFree(sp, tid, Locks(th, ch).value))
         && if Searches(sp.sys, th, ch) then
              && sp'.sys == sp.sys
              && sp'.found == sp.found[tid := Found(ch.f, ChainEnd(sp.sys.sh, Home(th.pc.key, |sp.sys.sh.table|)))]
            else Goes(sp.sys, sp'.sys, tid, ch) && sp'.found == sp.found
  }

  ghost predicate SplitGoes(sp: Split, sp': Split, tid: nat, ch: Choice) {
    tid < |sp.sys.threads| && (|sp.found| == |sp.sys.threads| && Sized(sp.sys) ==> SplitSteps(sp, sp', tid, ch))
  }

  /** states[i] is followed by states[i+1] when thread tids[i] takes a step with choices[i]. */
  datatype SplitRun = SplitRun(states: seq<Split>, tids: seq<nat>, choices: seq<Choice>)

  ghost predicate SplitStart(sp: Split) {
    && Start(sp.sys) && |sp.found| == |sp.sys.threads|
    && forall i :: 0 <= i < |sp.found| ==> sp.found[i] == Nothing
  }

  ghost predicate IsSplitRun(r: SplitRun) {
    && r.states != [] && |r.tids| == |r.choices| == |r.states| - 1
    && SplitStart(r.states[0])
    && forall i {:trigger SplitGoesAt(r, i)} :: 0 <= i < |r.tids| ==> SplitGoesAt(r, i)
  }

  ghost predicate SplitGoesAt(r: SplitRun, i: nat)
    requires i < |r.tids| == |r.choices| == |r.states| - 1
  {
    SplitGoes(r.states[i], r.states[i+1], r.tids[i], r.choices[i])
  }

  // ---------------------------------------------------------------------------------------------
  // Buckets in reach of two segments
  // ---------------------------------------------------------------------------------------------

  /** One segment only, or the two ends of the table, without a segment, are within the cache line distance, or the
      search does not look anywhere but SHRT_MAX - 1 away. */
  predicate SegmentsApart(cfg: Config) {
    cfg.numSegs == 1 || cfg.cacheMask + 1 >= cfg.buckets - cfg.segSize || cfg.cacheMask + 1 >= REACH
  }

  /** Homes in different segments are apart. */
  lemma SegmentBounds(m: nat, g: nat, h1: nat, h2: nat)
    requires 0 < m && h1 < m * g && h2 < m * g && h1 / m < h2 / m
    ensures 2 * m <= m * g && h1 < m * g - m && m <= h2
  {
    var a, b := h1 / m, h2 / m;
    Quotient(h2, m, b);
    Remainder(h1, m);
    MulSwaps(m, g);
    SmallQuotient(h2, g, m, b);
    MulMonotone(m, a + 1, b);
    MulMonotone(m, 1, b);
    MulMonotone(m, a + 2, g);
    MulMonotone(m, 2, g);
    MulDistributes(m, a, 1);
    MulDistributes(m, a, 2);
  }

  lemma ApartInOrder(cfg: Config, h1: nat, h2: nat, f: int)
    requires cfg.Ok() && cfg.buckets == cfg.segSize * cfg.numSegs && SegmentsApart(cfg)
    requires h1 < cfg.buckets && h2 < cfg.buckets && Candidate(cfg, h1, f) && Candidate(cfg, h2, f)
    ensures !(h1 / cfg.segSize < h2 / cfg.segSize)
  {
    if h1 / cfg.segSize < h2 / cfg.segSize {
      SegmentBounds(cfg.segSize, cfg.numSegs, h1, h2);
    }
  }

  /** No bucket is in reach of two keys of different segments. */
  lemma Apart(cfg: Config, k1: Key, k2: Key, f: int)
    requires cfg.Ok() && cfg.buckets == cfg.segSize * cfg.numSegs && SegmentsApart(cfg)
    requires Candidate(cfg, Home(k1, cfg.buckets), f) && Candidate(cfg, Home(k2, cfg.buckets), f)
    ensures Segment(cfg, k1) == Segment(cfg, k2)
  {
    hide Candidate, SegmentsApart;
    SegmentOfHome(cfg, k1);
    SegmentOfHome(cfg, k2);
    ApartInOrder(cfg, Home(k1, cfg.buckets), Home(k2, cfg.buckets), f);
    ApartInOrder(cfg, Home(k2, cfg.buckets), Home(k1, cfg.buckets), f);
  }

  // ---------------------------------------------------------------------------------------------
  // The invariant
  // ---------------------------------------------------------------------------------------------

  /** Every entry is in reach of its home. */
  ghost predicate Placed(cfg: Config, t: seq<Bucket>)
    requires |t| == cfg.buckets > 0
  {
    forall b :: InUse(t, b) ==> Candidate(cfg, Home(t[b].key, cfg.buckets), b)
  }

  /** What key's reader has found still stands. */
  ghost predicate StillFound(cfg: Config, s: Shared, key: Key, x: Found)
    requires |s.table| == cfg.buckets > 0
  {
    x.Found? ==>
      && !Stores(s.table, key) && FreeChoice(cfg, s.table, Home(key, cfg.buckets), x.f)
      && x.last == ChainEnd(s, Home(key, cfg.buckets))
  }

  ghost predicate FoundOk(sp: Split, i: nat)
    requires i < |sp.found| == |sp.sys.threads| && |sp.sys.sh.table| == sp.sys.cfg.buckets > 0
  {
    sp.found[i].Found? ==>
      sp.sys.threads[i].pc.GetTry? && StillFound(sp.sys.cfg, sp.sys.sh, sp.sys.threads[i].pc.key, sp.found[i])
  }

  /** No two readers have locked the same segment. */
  ghost predicate LocksExclude(sp: Split)
    requires sp.sys.cfg.Ok()
  {
    forall i: nat, j: nat :: i != j ==> Exclude(sp, i, j)
  }

  ghost predicate Exclude(sp: Split, i: nat, j: nat)
    requires sp.sys.cfg.Ok()
  {
    i < |sp.sys.threads| && sp.sys.threads[i].pc.GetTry? && HasLocked(sp, i, sp.sys.threads[i].pc.key) ==>
      !HasLocked(sp, j, sp.sys.threads[i].pc.key)
  }

  ghost predicate SplitInv(sp: Split) {
    var cfg := sp.sys.cfg;
    && Inv(sp.sys) && cfg.Ok() && cfg.buckets == cfg.segSize * cfg.numSegs && |sp.sys.sh.table| == cfg.buckets
    && |sp.found| == |sp.sys.threads|
    && Placed(cfg, sp.sys.sh.table)
    && (forall i :: 0 <= i < |sp.found| ==> FoundOk(sp, i))
    && LocksExclude(sp)
  }

  lemma StartIsSplitInv(sp: Split)
    requires SplitStart(sp)
    ensures SplitInv(sp)
  {
    StartIsInv(sp.sys);
    hide Inv;
    forall b ensures !InUse(sp.sys.sh.table, b) {
      if InUse(sp.sys.sh.table, b) { EntryAt(sp.sys.cfg, sp.sys.sh, b); }
    }
  }

  // ---------------------------------------------------------------------------------------------
  // What a step means for the readers of other segments
  // ---------------------------------------------------------------------------------------------

  lemma FreeChoiceStays(cfg: Config, t: seq<Bucket>, u: seq<Bucket>, h: nat, f: int)
    requires |t| == |u| == cfg.buckets && FreeChoice(cfg, t, h, f)
    requires forall g :: Candidate(cfg, h, g) ==> Occupied(u[g]) == Occupied(t[g])
    ensures FreeChoice(cfg, u, h, f)
  {}

  /** The effect is not about key: it neither fills nor empties a bucket in reach of key, nor touches its chain. */
  ghost predicate Elsewhere(cfg: Config, s: Shared, e: Effect, key: Key)
    requires |s.table| == cfg.buckets > 0 && Enabled(cfg, s, e)
  {
    var h := Home(key, cfg.buckets);
    && (e.Insert? ==> Home(e.key, cfg.buckets) != h && !Candidate(cfg, h, e.b))
    && (e.Unlink? ==> Home(s.table[e.b].key, cfg.buckets) != h && !Candidate(cfg, h, e.b))
  }

  lemma ChainElsewhereStays(cfg: Config, s: Shared, e: Effect, key: Key)
    requires Sound(cfg, s) && Enabled(cfg, s, e) && cfg.Ok() && |s.table| == cfg.buckets && Elsewhere(cfg, s, e, key)
    ensures IndexOk(cfg, s)
    ensures ChainEnd(Apply(cfg, s, e), Home(key, cfg.buckets)) == ChainEnd(s, Home(key, cfg.buckets))
  {
    if e.Unlink? { assert BucketOk(s.table, s.chains, e.b); }
  }

  lemma NotStoredStays(cfg: Config, s: Shared, e: Effect, key: Key)
    requires Sound(cfg, s) && Enabled(cfg, s, e) && !Stores(s.table, key) && (e.Insert? ==> e.key != key)
    ensures IndexOk(cfg, s) && !Stores(Apply(cfg, s, e).table, key)
  {
    hide Apply;
    SoundIs(cfg, s);
    hide IndexOk, LruOk, Enabled;
    EffectOnMap(cfg, s, e);
    assert key !in Contents(s.table);
    if IsInPlace(e) { InPlaceIsStored(cfg, s, e); }
    assert key !in MapAfter(s.table, e);
  }

  lemma InPlaceIsStored(cfg: Config, s: Shared, e: Effect)
    requires IndexOk(cfg, s) && Enabled(cfg, s, e) && IsInPlace(e)
    ensures e.b < |s.table| && s.table[e.b].key in Contents(s.table)
  {
    EntryAt(cfg, s, e.b);
  }

  lemma SoundIs(cfg: Config, s: Shared)
    requires Sound(cfg, s)
    ensures IndexOk(cfg, s) && LruOk(s) && cfg.Ok() && |s.table| == cfg.buckets
  {}

  lemma FoundStays(cfg: Config, s: Shared, e: Effect, key: Key, x: Found)
    requires Sound(cfg, s) && Enabled(cfg, s, e) && cfg.Ok() && |s.table| == cfg.buckets
    requires Elsewhere(cfg, s, e, key) && StillFound(cfg, s, key, x)
    ensures IndexOk(cfg, s) && |Apply(cfg, s, e).table| == cfg.buckets
    ensures StillFound(cfg, Apply(cfg, s, e), key, x)
  {
    hide IndexOk, LruOk, Enabled, Apply, ChainEnd, FreeChoice, Stores, Candidate;
    SoundIs(cfg, s);
    EffectOnBucket(cfg, s, e, 0);
    if x.Found? {
      var u, h := Apply(cfg, s, e).table, Home(key, cfg.buckets);
      NotStoredStays(cfg, s, e, key);
      ChainElsewhereStays(cfg, s, e, key);
      forall g | Candidate(cfg, h, g) ensures 0 <= g < cfg.buckets && Occupied(u[g]) == Occupied(s.table[g]) {
        CandidateIn(cfg, h, g);
        EffectOnBucket(cfg, s, e, g);
      }
      FreeChoiceStays(cfg, s.table, u, h, x.f);
    }
  }

  lemma CandidateIn(cfg: Config, h: nat, g: int)
    requires Candidate(cfg, h, g)
    ensures 0 <= g < cfg.buckets
  {}

  lemma PlacedStays(cfg: Config, s: Shared, e: Effect)
    requires Sound(cfg, s) && Enabled(cfg, s, e) && cfg.Ok() && |s.table| == cfg.buckets && Placed(cfg, s.table)
    requires e.Insert? ==> Candidate(cfg, Home(e.key, cfg.buckets), e.b)
    ensures IndexOk(cfg, s) && |Apply(cfg, s, e).table| == cfg.buckets && Placed(cfg, Apply(cfg, s, e).table)
  {
    hide IndexOk, LruOk, Enabled, Apply, Candidate;
    SoundIs(cfg, s);
    EffectOnBucket(cfg, s, e, 0);
    var u := Apply(cfg, s, e).table;
    forall b | InUse(u, b) ensures Candidate(cfg, Home(u[b].key, cfg.buckets), b) {
      EffectOnBucket(cfg, s, e, b);
      assert !(e.Insert? && e.b == b) ==> InUse(s.table, b);
    }
  }

  // ---------------------------------------------------------------------------------------------
  // With the segments apart, every step keeps the invariant
  // ---------------------------------------------------------------------------------------------

  /** Where stores and removals come from. */
  lemma StepSources(sys: Sys, th: Thread, ch: Choice)
    requires Sized(sys)
    ensures var m := Step(sys, th, ch);
            m.Move? ==>
              && (m.e.Insert? ==> Searches(sys, th, ch) && m.e.key == th.pc.key && m.e.b == ch.f)
              && (m.e.Unlink? ==> th.pc.RemoveTry? && m.e.b == BucketOf(sys.sh.table, th.pc.key))
  {
    hide AssertsHold, BucketOf, FreeChoice, Holds;
    if InLookup(th.pc) { LookupSources(sys, th, ch); }
    else if th.pc.Idle? { IdleSources(sys, th, ch); }
  }

  lemma LookupSources(sys: Sys, th: Thread, ch: Choice)
    requires Sized(sys) && InLookup(th.pc)
    ensures var m := LookupStep(sys, th, ch);
            m.Move? ==> !m.e.Unlink? && (m.e.Insert? ==> Searches(sys, th, ch) && m.e.key == th.pc.key && m.e.b == ch.f)
  {
    hide AssertsHold, BucketOf, FreeChoice, Holds;
  }

  lemma IdleSources(sys: Sys, th: Thread, ch: Choice)
    requires th.pc.Idle?
    ensures var m := Client(sys, th, ch); m.Move? ==> !m.e.Unlink? && !m.e.Insert?
  {
    hide AssertsHold, BucketOf, Holds;
  }

  /** The filling that was planned is the store as one step. */
  lemma FillingIsInsert(cfg: Config, s: Shared, key: Key, f: nat, last: int, a: Allocation)
    requires Sound(cfg, s) && Enabled(cfg, s, Insert(key, f, a.cost, a.data, a.locked)) && 0 < |s.table|
    requires last == ChainEnd(s, Home(key, |s.table|))
    ensures |s.table| == |s.chains| && f < |s.table| && -1 <= last < |s.table| && IndexOk(cfg, s)
    ensures Filling(s, Home(key, |s.table|), key, f, last, a)
         == Apply(cfg, s, Insert(key, f, a.cost, a.data, a.locked))
  {
    var h := Home(key, |s.table|);
    InsertPlan(cfg, s, h, s.chains[h], key, f, a.cost, a.data, a.locked);
  }

  lemma SplitInvIs(sp: Split, i: nat)
    requires SplitInv(sp) && i < |sp.found|
    ensures var cfg := sp.sys.cfg;
            && Inv(sp.sys) && cfg.Ok() && cfg.buckets == cfg.segSize * cfg.numSegs && |sp.sys.sh.table| == cfg.buckets
            && |sp.found| == |sp.sys.threads| && Sized(sp.sys) && Sound(cfg, sp.sys.sh)
            && Placed(cfg, sp.sys.sh.table) && FoundOk(sp, i) && LocksExclude(sp)
  {
    InvIs(sp.sys, i);
  }

  lemma FillIsStep(sp: Split, sp': Split, tid: nat, ch: Choice)
    requires SplitInv(sp) && SplitSteps(sp, sp', tid, ch) && sp.found[tid].Found?
    ensures Steps(sp.sys, sp'.sys, tid, ch) && sp'.found == sp.found[tid := Nothing]
    ensures var m := Step(sp.sys, sp.sys.threads[tid], ch);
            && m.e.Insert? && sp.sys.threads[tid].pc == GetTry(m.e.key) && |sp.sys.sh.table| == sp.sys.cfg.buckets > 0
            && Candidate(sp.sys.cfg, Home(m.e.key, sp.sys.cfg.buckets), m.e.b)
  {
    hide Inv, Sound, IndexOk, LruOk, Apply, Enabled, Candidate, Filling, ChainEnd, AssertsHold, LocksExclude, Placed;
    SplitInvIs(sp, tid);
    var sys, th := sp.sys, sp.sys.threads[tid];
    NotStoredBucket(sys.sh.table, th.pc.key);
    StepIsFit(sys, tid, ch);
    var m := Step(sys, th, ch);
    FillingIsInsert(sys.cfg, sys.sh, th.pc.key, sp.found[tid].f, sp.found[tid].last, ch.a);
    FoundIsCandidate(sys.cfg, sys.sh.table, Home(th.pc.key, sys.cfg.buckets), sp.found[tid].f);
  }

  lemma NotStoredBucket(t: seq<Bucket>, key: Key)
    ensures !Stores(t, key) <==> BucketOf(t, key) == -1
  {}

  lemma FoundIsCandidate(cfg: Config, t: seq<Bucket>, h: nat, f: nat)
    requires |t| == cfg.buckets && FreeChoice(cfg, t, h, f)
    ensures Candidate(cfg, h, f)
  {}

  lemma OtherIsStep(sp: Split, sp': Split, tid: nat, ch: Choice)
    requires SplitInv(sp) && SplitSteps(sp, sp', tid, ch) && !sp.found[tid].Found?
    requires !Searches(sp.sys, sp.sys.threads[tid], ch)
    ensures Steps(sp.sys, sp'.sys, tid, ch) && sp'.found == sp.found
    ensures var m, th, t := Step(sp.sys, sp.sys.threads[tid], ch), sp.sys.threads[tid], sp.sys.sh.table;
            && !m.e.Insert?
            && (m.e.Unlink? ==>
                  && th.pc.RemoveTry? && Holds(t, m.e.b, th.pc.key) && t[m.e.b].key == th.pc.key
                  && |t| == sp.sys.cfg.buckets > 0 && Candidate(sp.sys.cfg, Home(th.pc.key, |t|), m.e.b)
                  && LockFree(sp, tid, th.pc.key))
  {
    hide Inv, Sound, IndexOk, LruOk, Apply, Candidate, Ready, Step, LockFree, LocksExclude, FoundOk, Searches;
    SplitInvIs(sp, tid);
    InvIsReady(sp.sys, tid);
    StepSources(sp.sys, sp.sys.threads[tid], ch);
    var m := Step(sp.sys, sp.sys.threads[tid], ch);
    if m.e.Unlink? { assert InUse(sp.sys.sh.table, m.e.b); }
  }

  lemma ElsewhereFrom(cfg: Config, s: Shared, e: Effect, key: Key, other: Key)
    requires cfg.Ok() && cfg.buckets == cfg.segSize * cfg.numSegs && SegmentsApart(cfg)
    requires |s.table| == cfg.buckets && Enabled(cfg, s, e) && Segment(cfg, key) != Segment(cfg, other)
    requires e.Insert? ==> e.key == key && Candidate(cfg, Home(key, cfg.buckets), e.b)
    requires e.Unlink? ==> s.table[e.b].key == key && Candidate(cfg, Home(key, cfg.buckets), e.b)
    ensures Elsewhere(cfg, s, e, other)
  {
    hide Candidate, Segment, Home, SegmentsApart;
    SegmentOfHome(cfg, key);
    SegmentOfHome(cfg, other);
    if (e.Insert? || e.Unlink?) && Candidate(cfg, Home(other, cfg.buckets), e.b) { Apart(cfg, key, other, e.b); }
  }

  /** The effect of thread tid's step leaves what reader i has found. */
  lemma StepIsElsewhere(sp: Split, sp': Split, tid: nat, ch: Choice, i: nat)
    requires SplitInv(sp) && SplitSteps(sp, sp', tid, ch) && SegmentsApart(sp.sys.cfg) && i < |sp.found| && i != tid
    requires sp.found[tid].Found? || !Searches(sp.sys, sp.sys.threads[tid], ch)
    requires sp.found[i].Found? && sp.sys.threads[i].pc.GetTry?
    ensures Steps(sp.sys, sp'.sys, tid, ch) && |sp.sys.sh.table| == sp.sys.cfg.buckets > 0
    ensures Elsewhere(sp.sys.cfg, sp.sys.sh, Step(sp.sys, sp.sys.threads[tid], ch).e, sp.sys.threads[i].pc.key)
  {
    hide Inv, Sound, IndexOk, LruOk, Apply, Candidate, Ready, Step, FoundOk, Searches, Enabled, Segment, Home,
      Elsewhere, SegmentsApart, Placed;
    SplitInvIs(sp, i);
    var sys, th, other := sp.sys, sp.sys.threads[tid], sp.sys.threads[i].pc.key;
    if sp.found[tid].Found? {
      FillIsStep(sp, sp', tid, ch);
      assert Exclude(sp, i, tid);
      ElsewhereFrom(sys.cfg, sys.sh, Step(sys, th, ch).e, th.pc.key, other);
    } else {
      OtherIsStep(sp, sp', tid, ch);
      var e := Step(sys, th, ch).e;
      if e.Unlink? {
        assert !HasLocked(sp, i, th.pc.key);
        ElsewhereFrom(sys.cfg, sys.sh, e, th.pc.key, other);
      } else {
        QuietIsElsewhere(sys.cfg, sys.sh, e, other);
      }
    }
  }

  lemma QuietIsElsewhere(cfg: Config, s: Shared, e: Effect, key: Key)
    requires |s.table| == cfg.buckets > 0 && Enabled(cfg, s, e) && !e.Insert? && !e.Unlink?
    ensures Elsewhere(cfg, s, e, key)
  {}

  /** A step of the cache, the filling included. */
  lemma MoveKeepsSplitInv(sp: Split, sp': Split, tid: nat, ch: Choice)
    requires SplitInv(sp) && SplitSteps(sp, sp', tid, ch) && SegmentsApart(sp.sys.cfg)
    requires sp.found[tid].Found? || !Searches(sp.sys, sp.sys.threads[tid], ch)
    ensures SplitInv(sp') && Steps(sp.sys, sp'.sys, tid, ch)
  {
    hide Inv, Sound, IndexOk, LruOk, Apply, Candidate, Ready, Step, Searches, Enabled, Segment, Home, Elsewhere,
      SegmentsApart, Placed, LockFree, StillFound, SplitSteps, LocksExclude;
    StepsSizes(sp, sp', tid, ch);
    SplitInvIs(sp, tid);
    if sp.found[tid].Found? { FillIsStep(sp, sp', tid, ch); } else { OtherIsStep(sp, sp', tid, ch); }
    var sys, e := sp.sys, Step(sp.sys, sp.sys.threads[tid], ch).e;
    StepKeepsInv(sys, sp'.sys, tid, ch);
    ThreadsMove(sys, sp'.sys, tid, ch);
    StepsApply(sys, sp'.sys, tid, ch);
    PlacedStays(sys.cfg, sys.sh, e);
    MoveExcludes(sp, sp', tid);
    forall i | 0 <= i < |sp'.found| ensures FoundOk(sp', i) {
      if i != tid && sp.found[i].Found? {
        SplitInvIs(sp, i);
        StepIsElsewhere(sp, sp', tid, ch, i);
        FoundStays(sys.cfg, sys.sh, e, sys.threads[i].pc.key, sp.found[i]);
      }
    }
  }

  lemma MoveExcludes(sp: Split, sp': Split, tid: nat)
    requires sp.sys.cfg.Ok() && LocksExclude(sp) && sp'.sys.cfg == sp.sys.cfg
    requires tid < |sp.found| == |sp.sys.threads| == |sp'.sys.threads|
    requires forall i :: 0 <= i < |sp.sys.threads| && i != tid ==> sp'.sys.threads[i] == sp.sys.threads[i]
    requires sp'.found == sp.found[tid := Nothing]
    ensures LocksExclude(sp')
  {
    hide Segment;
    forall i: nat, j: nat | i != j ensures Exclude(sp', i, j) {
      assert Exclude(sp, i, j);
    }
  }

  lemma StepsApply(sys: Sys, sys': Sys, tid: nat, ch: Choice)
    requires Steps(sys, sys', tid, ch)
    ensures var m := Step(sys, sys.threads[tid], ch);
            && Enabled(sys.cfg, sys.sh, m.e) && IndexOk(sys.cfg, sys.sh) && sys'.sh == Apply(sys.cfg, sys.sh, m.e)
            && sys'.threads[tid] == m.th
  {}

  lemma SearchKeepsSplitInv(sp: Split, sp': Split, tid: nat, ch: Choice)
    requires SplitInv(sp) && SplitSteps(sp, sp', tid, ch)
    requires !sp.found[tid].Found? && Searches(sp.sys, sp.sys.threads[tid], ch)
    ensures SplitInv(sp') && sp'.sys == sp.sys
  {
    hide Inv, Sound, Candidate, FreeChoice, Segment, Placed, ChainEnd, LocksExclude, LockFree;
    SplitInvIs(sp, tid);
    NotStoredBucket(sp.sys.sh.table, sp.sys.threads[tid].pc.key);
    forall i | 0 <= i < |sp'.found| ensures FoundOk(sp', i) {
      if i != tid { assert FoundOk(sp, i); }
    }
    StillExclude(sp, sp', tid);
  }

  /** A reader that could lock its segment has it to itself. */
  lemma StillExclude(sp: Split, sp': Split, tid: nat)
    requires sp.sys.cfg.Ok() && LocksExclude(sp) && tid < |sp.found| == |sp.sys.threads| && sp'.sys == sp.sys
    requires |sp'.found| == |sp.found| && sp'.found == sp.found[tid := sp'.found[tid]]
    requires sp.sys.threads[tid].pc.GetTry? && LockFree(sp, tid, sp.sys.threads[tid].pc.key)
    ensures LocksExclude(sp')
  {
    hide Segment;
    forall i: nat, j: nat | i != j ensures Exclude(sp', i, j) {
      assert Exclude(sp, i, j);
      if i == tid { assert !HasLocked(sp, j, sp.sys.threads[tid].pc.key); }
      if j == tid { assert !HasLocked(sp, i, sp.sys.threads[tid].pc.key); }
    }
  }

  /** With the segments apart, every step keeps the invariant, and is a step of CacheProtocol or leaves the cache as it
      is. */
  lemma SplitStepKeepsInv(sp: Split, sp': Split, tid: nat, ch: Choice)
    requires SplitInv(sp) && SplitGoes(sp, sp', tid, ch) && SegmentsApart(sp.sys.cfg)
    ensures SplitInv(sp') && SplitSteps(sp, sp', tid, ch) && sp'.sys.cfg == sp.sys.cfg
    ensures if !sp.found[tid].Found? && sp'.found[tid].Found? then sp'.sys == sp.sys
            else Steps(sp.sys, sp'.sys, tid, ch)
  {
    hide SplitInv, Searches, SegmentsApart, Steps, Fills;
    SizesOf(sp, tid);
    if sp.found[tid].Found? || !Searches(sp.sys, sp.sys.threads[tid], ch) {
      MoveKeepsSplitInv(sp, sp', tid, ch);
      ThreadsMove(sp.sys, sp'.sys, tid, ch);
      FoundAfter(sp, sp', tid, ch);
    } else {
      SearchKeepsSplitInv(sp, sp', tid, ch);
    }
  }

  lemma SizesOf(sp: Split, tid: nat)
    requires SplitInv(sp) && tid < |sp.sys.threads|
    ensures |sp.found| == |sp.sys.threads| && Sized(sp.sys)
  {
    InvIs(sp.sys, tid);
  }

  lemma FoundAfter(sp: Split, sp': Split, tid: nat, ch: Choice)
    requires SplitSteps(sp, sp', tid, ch)
    ensures |sp'.found| == |sp.found|
    ensures sp.found[tid].Found? ==> !sp'.found[tid].Found?
    ensures !sp.found[tid].Found? && !Searches(sp.sys, sp.sys.threads[tid], ch) ==> !sp'.found[tid].Found?
  {
    hide Goes, Searches, LockFree;
  }

  // ---------------------------------------------------------------------------------------------
  // Every run is one of CacheProtocol
  // ---------------------------------------------------------------------------------------------

  /** The first n steps of a run, with the searches left out. */
  ghost function Whole(r: SplitRun, n: nat): Run
    requires n <= |r.tids| == |r.choices| == |r.states| - 1
  {
    if n == 0 then Run([r.states[0].sys], [], [])
    else
      var q, tid, was, now := Whole(r, n - 1), r.tids[n-1], r.states[n-1].found, r.states[n].found;
      if tid < |was| && tid < |now| && !was[tid].Found? && now[tid].Found? then q
      else Run(q.states + [r.states[n].sys], q.tids + [tid], q.choices + [r.choices[n-1]])
  }

  ghost predicate SplitRunOn(cfg: Config, r: SplitRun) {
    IsSplitRun(r) && r.states[0].sys.cfg == cfg
  }

  lemma ExtendsRun(q: Run, sys: Sys, tid: nat, ch: Choice)
    requires IsRun(q) && Goes(q.states[|q.states|-1], sys, tid, ch)
    ensures IsRun(Run(q.states + [sys], q.tids + [tid], q.choices + [ch]))
  {
    hide Goes, Start;
    var t := Run(q.states + [sys], q.tids + [tid], q.choices + [ch]);
    forall i | 0 <= i < |t.tids| ensures GoesAt(t, i) {
      if i < |q.tids| { assert GoesAt(q, i); }
    }
  }

  /** If no bucket is in reach of two segments, then a run in which readers of different segments get between search
      and filling is, with the searches left out, a run of CacheProtocol, in which a store is one step; so that all
      that is proved about those runs holds of it as well. */
  lemma {:induction false} SplitRunsAreWhole(cfg: Config, r: SplitRun, n: nat)
    requires SplitRunOn(cfg, r) && n < |r.states| && SegmentsApart(cfg)
    ensures SplitInv(r.states[n]) && r.states[n].sys.cfg == cfg
    ensures var q := Whole(r, n); IsRun(q) && q.states[|q.states|-1] == r.states[n].sys
  {
    hide SplitInv, SplitGoes, Steps, Ready, SegmentsApart, Start;
    if n == 0 {
      StartIsSplitInv(r.states[0]);
    } else {
      SplitRunsAreWhole(cfg, r, n - 1);
      assert SplitGoesAt(r, n - 1);
      var sp, sp', tid, ch := r.states[n-1], r.states[n], r.tids[n-1], r.choices[n-1];
      SplitStepKeepsInv(sp, sp', tid, ch);
      StepsSizes(sp, sp', tid, ch);
      var q := Whole(r, n - 1);
      if !(!sp.found[tid].Found? && sp'.found[tid].Found?) { ExtendsRun(q, sp'.sys, tid, ch); }
    }
  }

  lemma StepsSizes(sp: Split, sp': Split, tid: nat, ch: Choice)
    requires SplitSteps(sp, sp', tid, ch)
    ensures tid < |sp.found| == |sp'.found| && tid < |sp.sys.threads|
  {
    hide Goes, Searches, LockFree;
  }

  // ---------------------------------------------------------------------------------------------
  // A run in which one bucket is filled twice
  // ---------------------------------------------------------------------------------------------

  function Last(r: SplitRun): Split
    requires r.states != []
  {
    r.states[|r.states|-1]
  }

  lemma ExtendsSplit(r: SplitRun, sp: Split, tid: nat, ch: Choice) returns (r': SplitRun)
    requires IsSplitRun(r) && SplitGoes(Last(r), sp, tid, ch)
    ensures IsSplitRun(r') && Last(r') == sp && r'.states[0] == r.states[0]
  {
    hide SplitGoes, SplitStart;
    r' := SplitRun(r.states + [sp], r.tids + [tid], r.choices + [ch]);
    forall i | 0 <= i < |r'.tids| ensures SplitGoesAt(r', i) {
      if i < |r.tids| { assert SplitGoesAt(r, i); }
    }
  }

  function WithThread(sp: Split, tid: nat, th: Thread): Split
    requires tid < |sp.sys.threads|
  {
    sp.(sys := sp.sys.(threads := sp.sys.threads[tid := th]))
  }

  /** A step that changes nothing but the thread, and locks nothing. */
  lemma SkipGoes(sp: Split, tid: nat, ch: Choice, th: Thread)
    requires tid < |sp.found| == |sp.sys.threads| && Sized(sp.sys) && !sp.found[tid].Found?
    requires Step(sp.sys, sp.sys.threads[tid], ch) == Move(Skip, th)
    requires Locks(sp.sys.threads[tid], ch).None? && !sp.sys.threads[tid].pc.GetTry?
    ensures SplitGoes(sp, WithThread(sp, tid, th), tid, ch)
  {
    hide Step, Sound, IndexOk, LruOk;
    if Ready(sp.sys, tid) { SoundIs(sp.sys.cfg, sp.sys.sh); }
  }

  /** A reader that the collection lets through at once. */
  lemma ReadArrives(r: SplitRun, tid: nat, key: Key) returns (r': SplitRun)
    requires IsSplitRun(r) && var sp := Last(r);
             && tid < |sp.found| == |sp.sys.threads| && Sized(sp.sys) && !sp.found[tid].Found?
             && sp.sys.threads[tid].pc == Idle && |sp.sys.threads[tid].held| < sp.sys.maxHeld && key != EMPTY
             && !TooFull(sp.sys.sh.cost, 0.8, sp.sys.cfg.quota)
    ensures IsSplitRun(r') && r'.states[0] == r.states[0]
    ensures Last(r') == WithThread(Last(r), tid, Last(r).sys.threads[tid].(pc := GetTry(key)))
  {
    hide SplitStart, SplitGoes, TooFull;
    var sp := Last(r);
    var th := sp.sys.threads[tid];
    SkipGoes(sp, tid, Read(key), th.(pc := GcStart(ForRead(key))));
    var s1 := WithThread(sp, tid, th.(pc := GcStart(ForRead(key))));
    var r1 := ExtendsSplit(r, s1, tid, Read(key));
    SkipGoes(s1, tid, Go, th.(pc := GcLook(ForRead(key), sp.sys.sh.lru, 0)));
    var s2 := WithThread(s1, tid, th.(pc := GcLook(ForRead(key), sp.sys.sh.lru, 0)));
    var r2 := ExtendsSplit(r1, s2, tid, Go);
    SkipGoes(s2, tid, Go, th.(pc := GetTry(key)));
    r' := ExtendsSplit(r2, WithThread(s2, tid, th.(pc := GetTry(key))), tid, Go);
  }

  lemma SearchArrives(r: SplitRun, tid: nat, ch: Choice) returns (r': SplitRun)
    requires IsSplitRun(r) && var sp := Last(r);
             && tid < |sp.found| == |sp.sys.threads| && Sized(sp.sys) && !sp.found[tid].Found?
             && Searches(sp.sys, sp.sys.threads[tid], ch) && LockFree(sp, tid, sp.sys.threads[tid].pc.key)
    ensures IsSplitRun(r') && r'.states[0] == r.states[0]
    ensures var sp := Last(r);
            Last(r') == sp.(found := sp.found[tid := Found(ch.f,
              ChainEnd(sp.sys.sh, Home(sp.sys.threads[tid].pc.key, |sp.sys.sh.table|)))])
  {
    hide SplitStart, LockFree, FreeChoice;
    var sp := Last(r);
    var x := Found(ch.f, ChainEnd(sp.sys.sh, Home(sp.sys.threads[tid].pc.key, |sp.sys.sh.table|)));
    r' := ExtendsSplit(r, sp.(found := sp.found[tid := x]), tid, ch);
  }

  /** What the allocate callback answers in the run: a new buffer of no cost, not write locked. */
  const PLAIN := Allocation(false, 0, 0)

  lemma FillArrives(r: SplitRun, tid: nat) returns (r': SplitRun)
    requires IsSplitRun(r) && var sp := Last(r);
             && tid < |sp.found| == |sp.sys.threads| && Sized(sp.sys) && sp.found[tid].Found?
             && sp.sys.threads[tid].pc.GetTry? && |sp.sys.sh.chains| == |sp.sys.sh.table|
             && sp.found[tid].f < |sp.sys.sh.table| && -1 <= sp.found[tid].last < |sp.sys.sh.table|
             && sp.sys.sh.table[sp.found[tid].f].read < MAX_READ && sp.sys.sh.table[sp.found[tid].f].write == 0
    ensures IsSplitRun(r') && r'.states[0] == r.states[0]
    ensures var sp := Last(r);
            var th, f := sp.sys.threads[tid], sp.found[tid].f;
            var key := th.pc.key;
            Last(r') == Split(sp.sys.(sh := Filling(sp.sys.sh, Home(key, |sp.sys.sh.table|), key, f,
                                                     sp.found[tid].last, PLAIN),
                                      threads := sp.sys.threads[tid := HasStored(th, key, f, PLAIN)]),
                              sp.found[tid := Nothing])
  {
    hide SplitStart, LockFree, FreeChoice, Filling;
    var sp := Last(r);
    var th, f := sp.sys.threads[tid], sp.found[tid].f;
    var s := Filling(sp.sys.sh, Home(th.pc.key, |sp.sys.sh.table|), th.pc.key, f, sp.found[tid].last, PLAIN);
    var sp' := Split(sp.sys.(sh := s, threads := sp.sys.threads[tid := HasStored(th, th.pc.key, f, PLAIN)]),
                     sp.found[tid := Nothing]);
    assert Fills(sp, sp', tid, Pick(f, PLAIN));
    r' := ExtendsSplit(r, sp', tid, Pick(f, PLAIN));
  }

  /** The table stores exactly the keys of uses, in these buckets, at no cost. */
  ghost predicate Stored(cfg: Config, s: Shared, uses: map<nat, Key>) {
    && |s.table| == |s.chains| == cfg.buckets && |s.stamps| == cfg.numSegs && s.cost == 0
    && (forall b: nat :: b < |s.table| ==> (Occupied(s.table[b]) <==> b in uses))
    && (forall b: nat :: b < |s.table| && b in uses ==> s.table[b].key == uses[b])
    && (forall b: nat :: b < |s.table| && b !in uses ==> s.table[b].read == 0 && s.table[b].write == 0)
  }

  lemma FillingStores(cfg: Config, s: Shared, uses: map<nat, Key>, h: nat, key: Key, f: nat, last: int)
    requires Stored(cfg, s, uses) && h < |s.table| && f < |s.table| && -1 <= last < |s.table| && key != EMPTY
    ensures var t := Filling(s, h, key, f, last, PLAIN);
            && Stored(cfg, t, uses[f := key])
            && t.table[f].read == s.table[f].read + 1 && t.table[f].write == s.table[f].write
            && t.chains == s.chains[h := s.chains[h] + [f]]
  {}

  lemma NotAmongStored(cfg: Config, s: Shared, uses: map<nat, Key>, key: Key)
    requires Stored(cfg, s, uses) && forall b :: b in uses ==> uses[b] != key
    ensures BucketOf(s.table, key) == -1 && key !in Contents(s.table)
  {
    hide BucketOf, Contents;
    forall b ensures !Holds(s.table, b, key) {
    }
    NotHeldAnywhere(s.table, key);
  }

  lemma NotHeldAnywhere(t: seq<Bucket>, key: Key)
    requires forall b :: !Holds(t, b, key)
    ensures BucketOf(t, key) == -1 && key !in Contents(t)
  {}

  /** The next bucket forward, from a home below it. */
  lemma FirstForward(cfg: Config, s: Shared, uses: map<nat, Key>, h: nat, f: nat)
    requires Stored(cfg, s, uses) && f !in uses && f < cfg.buckets && h + cfg.cacheMask + 1 <= f <= h + REACH
    requires forall b :: h + cfg.cacheMask + 1 <= b < f ==> b in uses
    ensures FreeChoice(cfg, s.table, h, f)
  {}

  /** Three keys: two of the last home of the first segment, and one of the first home of the second. */
  lemma Keys(cfg: Config)
    requires cfg.Ok() && cfg.buckets == cfg.segSize * cfg.numSegs && !SegmentsApart(cfg)
    ensures var m, n, c := cfg.segSize, cfg.buckets, cfg.cacheMask + 1;
            && 0 < m && m + c < n && c < REACH && n + m - 1 < EMPTY
            && Home(m - 1, n) == m - 1 && Home(n + m - 1, n) == m - 1 && Home(m, n) == m
            && Segment(cfg, n + m - 1) != Segment(cfg, m)
  {
    hide Home, Segment;
    var m, n := cfg.segSize, cfg.buckets;
    TwoSegments(m, cfg.numSegs);
    OwnHome(m - 1, n);
    OwnHome(m, n);
    NextHome(m - 1, n);
    SegmentOfHome(cfg, n + m - 1);
    SegmentOfHome(cfg, m);
    FirstOfSegment(m);
  }

  lemma TwoSegments(m: nat, g: nat)
    requires 0 < m && 2 <= g
    ensures 2 * m <= m * g
  {
    MulMonotone(m, 2, g);
  }

  lemma OwnHome(h: Key, n: nat)
    requires h < n
    ensures Home(h, n) == h
  {}

  lemma NextHome(h: nat, n: nat)
    requires h < n && n + h < EMPTY
    ensures Home(n + h, n) == h
  {
    DivUnique(n + h, n, 1, h);
  }

  lemma FirstOfSegment(m: nat)
    requires 0 < m
    ensures (m - 1) / m == 0 && m / m == 1
  {}

  /** A new cache and three clients. */
  lemma ThreeClients(cfg: Config) returns (r: SplitRun)
    requires cfg.Ok() && cfg.buckets == cfg.segSize * cfg.numSegs && 0 <= cfg.quota
    ensures SplitRunOn(cfg, r) && var sp := Last(r);
            && sp.sys.cfg == cfg && sp.sys.maxHeld == 1 && Sized(sp.sys) && Stored(cfg, sp.sys.sh, map[])
            && !TooFull(sp.sys.sh.cost, 0.8, cfg.quota)
            && sp.sys.threads == [CLIENT, CLIENT, CLIENT] && sp.found == [Nothing, Nothing, Nothing]
            && forall h :: 0 <= h < |sp.sys.sh.chains| ==> sp.sys.sh.chains[h] == []
  {
    NewIsSettled(cfg);
    NewStoresNothing(cfg);
    r := SplitRun([Split(Sys(cfg, 1, NewCache(cfg), [CLIENT, CLIENT, CLIENT]), [Nothing, Nothing, Nothing])], [], []);
  }

  const CLIENT := Thread(Idle, multiset{}, multiset{}, 0)

  /** Three readers that are through. */
  lemma ThreeReaders(cfg: Config, k0: Key, k1: Key, k2: Key) returns (r: SplitRun)
    requires cfg.Ok() && cfg.buckets == cfg.segSize * cfg.numSegs && 0 <= cfg.quota
    requires k0 != EMPTY && k1 != EMPTY && k2 != EMPTY
    ensures SplitRunOn(cfg, r) && var sp := Last(r);
            && sp.sys.cfg == cfg && Sized(sp.sys) && Stored(cfg, sp.sys.sh, map[])
            && sp.sys.threads == [CLIENT.(pc := GetTry(k0)), CLIENT.(pc := GetTry(k1)), CLIENT.(pc := GetTry(k2))]
            && sp.found == [Nothing, Nothing, Nothing]
            && forall h :: 0 <= h < |sp.sys.sh.chains| ==> sp.sys.sh.chains[h] == []
  {
    hide IsSplitRun, Stored, TooFull;
    var r0 := ThreeClients(cfg);
    var r1 := ReadArrives(r0, 0, k0);
    var r2 := ReadArrives(r1, 1, k1);
    r := ReadArrives(r2, 2, k2);
  }

  /** Where the run stands when the first reader has stored its key, and the others are about to look theirs up. */
  ghost predicate OneStored(sp: Split, k0: Key, k1: Key, k2: Key) {
    var cfg := sp.sys.cfg;
    var m, c := cfg.segSize, cfg.cacheMask + 1;
    && Sized(sp.sys) && cfg.Ok() && 0 < m && m + c < cfg.buckets && sp.found == [Nothing, Nothing, Nothing]
    && |sp.sys.threads| == 3
    && sp.sys.threads[1] == CLIENT.(pc := GetTry(k1)) && sp.sys.threads[2] == CLIENT.(pc := GetTry(k2))
    && Stored(cfg, sp.sys.sh, map[m - 1 + c := k0])
    && sp.sys.sh.chains[m-1] == [m - 1 + c] && sp.sys.sh.chains[m] == []
  }

  lemma FirstStores(cfg: Config, k0: Key, k1: Key, k2: Key) returns (r: SplitRun)
    requires cfg.Ok() && cfg.buckets == cfg.segSize * cfg.numSegs && 0 <= cfg.quota && !SegmentsApart(cfg)
    requires k0 == cfg.segSize - 1 && k1 != EMPTY && k2 != EMPTY
    ensures SplitRunOn(cfg, r) && Last(r).sys.cfg == cfg && OneStored(Last(r), k0, k1, k2)
  {
    hide SplitStart, SplitGoesAt, Stored, FreeChoice, BucketOf, Contents, Filling, SegmentsApart, Home;
    Keys(cfg);
    var h, f := k0, k0 + cfg.cacheMask + 1;
    var r0 := ThreeReaders(cfg, k0, k1, k2);
    var s := Last(r0).sys.sh;
    StoredIs(cfg, s, map[], f);
    FirstForward(cfg, s, map[], h, f);
    NotAmongStored(cfg, s, map[], k0);
    var r1 := SearchArrives(r0, 0, Pick(f, PLAIN));
    FillingStores(cfg, s, map[], h, k0, f, -1);
    r := FillArrives(r1, 0);
    assert map[][f := k0] == map[f := k0];
    StoredIs(cfg, Last(r).sys.sh, map[f := k0], f);
  }

  lemma StoredIs(cfg: Config, s: Shared, uses: map<nat, Key>, f: nat)
    requires Stored(cfg, s, uses)
    ensures |s.table| == |s.chains| == cfg.buckets && |s.stamps| == cfg.numSegs
    ensures f < |s.table| && f !in uses ==> s.table[f].read == 0 && s.table[f].write == 0
  {}

  /** Where the run stands when both of the others have found the same bucket. */
  ghost predicate BothFound(sp: Split, k0: Key, k1: Key, k2: Key, f: nat) {
    var cfg := sp.sys.cfg;
    && Sized(sp.sys) && |sp.sys.threads| == 3 && f < cfg.buckets
    && sp.sys.threads[1] == CLIENT.(pc := GetTry(k1)) && sp.sys.threads[2] == CLIENT.(pc := GetTry(k2))
    && 0 < f && sp.found == [Nothing, Found(f, f - 1), Found(f, -1)]
    && Stored(cfg, sp.sys.sh, map[f - 1 := k0])
  }

  lemma BothFind(cfg: Config, k0: Key, k1: Key, k2: Key) returns (r: SplitRun)
    requires cfg.Ok() && cfg.buckets == cfg.segSize * cfg.numSegs && 0 <= cfg.quota && !SegmentsApart(cfg)
    requires k0 == cfg.segSize - 1 && k1 == cfg.buckets + cfg.segSize - 1 < EMPTY && k2 == cfg.segSize
    ensures SplitRunOn(cfg, r) && Last(r).sys.cfg == cfg
    ensures BothFound(Last(r), k0, k1, k2, cfg.segSize + cfg.cacheMask + 1)
  {
    hide SplitStart, SplitGoesAt, Stored, FreeChoice, BucketOf, Contents, Filling, SegmentsApart, Segment, Home;
    Keys(cfg);
    var h, m, f := k0, cfg.segSize, cfg.segSize + cfg.cacheMask + 1;
    var r0 := FirstStores(cfg, k0, k1, k2);
    var s, uses := Last(r0).sys.sh, map[f - 1 := k0];
    StoredIs(cfg, s, uses, f);
    FirstForward(cfg, s, uses, h, f);
    NotAmongStored(cfg, s, uses, k1);
    var r1 := SearchArrives(r0, 1, Pick(f, PLAIN));
    FirstForward(cfg, s, uses, m, f);
    NotAmongStored(cfg, s, uses, k2);
    assert LockFree(Last(r1), 2, k2);
    r := SearchArrives(r1, 2, Pick(f, PLAIN));
  }

  /** If some bucket is in reach of two segments, then two readers can come to fill the same bucket: both are handed
      their entries, one of which is not stored any more, while the other has two readers. */
  lemma FilledTwice(cfg: Config) returns (r: SplitRun, k1: Key, k2: Key, f: nat)
    requires cfg.Ok() && cfg.buckets == cfg.segSize * cfg.numSegs && 0 <= cfg.quota && !SegmentsApart(cfg)
    ensures SplitRunOn(cfg, r) && |Last(r).sys.threads| == 3
    ensures var sys := Last(r).sys;
            && k1 != k2 && k1 in sys.threads[1].held && k2 in sys.threads[2].held
            && k1 !in Contents(sys.sh.table)
            && f < |sys.sh.table| && sys.sh.table[f].key == k2 && sys.sh.table[f].read == 2
  {
    hide SplitStart, SplitGoesAt, FreeChoice, BucketOf, Contents, Filling, SegmentsApart, Segment, Stored, Home;
    Keys(cfg);
    f := cfg.segSize + cfg.cacheMask + 1;
    var k0: Key := cfg.segSize - 1;
    k1, k2 := cfg.buckets + cfg.segSize - 1, cfg.segSize;
    var r0 := BothFind(cfg, k0, k1, k2);
    var s := Last(r0).sys.sh;
    var uses: map<nat, Key> := map[f - 1 := k0];
    StoredIs(cfg, s, uses, f);
    FillingStores(cfg, s, uses, Home(k1, cfg.buckets), k1, f, f - 1);
    var r1 := FillArrives(r0, 1);
    var t := Last(r1).sys.sh;
    StoredIs(cfg, t, uses[f := k1], f);
    FillingStores(cfg, t, uses[f := k1], Home(k2, cfg.buckets), k2, f, -1);
    r := FillArrives(r1, 2);
    var u := Last(r).sys.sh;
    StoredAtIs(cfg, u, uses[f := k1][f := k2], f);
    NotAmongStored(cfg, u, uses[f := k1][f := k2], k1);
  }

  lemma StoredAtIs(cfg: Config, s: Shared, uses: map<nat, Key>, f: nat)
    requires Stored(cfg, s, uses) && f in uses && f < cfg.buckets
    ensures f < |s.table| && s.table[f].key == uses[f]
  {}

  // ---------------------------------------------------------------------------------------------
  // Exactly when the segment locks protect the cache
  // ---------------------------------------------------------------------------------------------

  /** Every entry that somebody holds is stored. */
  ghost predicate HandlesStored(sys: Sys) {
    forall i, key :: 0 <= i < |sys.threads| && key in sys.threads[i].held ==> key in Contents(sys.sh.table)
  }

  /** What dt_cache_read_get has handed out stays stored, in every run of readers that get between each other's search
      and filling, if and only if no bucket is in reach of two segments. */
  lemma SegmentLocksProtectIff(cfg: Config)
    requires cfg.Ok() && cfg.buckets == cfg.segSize * cfg.numSegs && 0 <= cfg.quota
    ensures (forall r: SplitRun, n: nat :: SplitRunOn(cfg, r) && n < |r.states| ==> HandlesStored(r.states[n].sys))
       <==> SegmentsApart(cfg)
  {
    hide SplitStart, SplitGoesAt, SegmentsApart, HandlesStored, SplitInv;
    if SegmentsApart(cfg) {
      forall r: SplitRun, n: nat | SplitRunOn(cfg, r) && n < |r.states| ensures HandlesStored(r.states[n].sys) {
        SplitRunsAreWhole(cfg, r, n);
        InvStoresHandles(r.states[n]);
      }
    } else {
      var r, k1, k2, f := FilledTwice(cfg);
      LosesHandle(Last(r).sys, k1);
      assert !HandlesStored(r.states[|r.states|-1].sys);
    }
  }

  lemma InvStoresHandles(sp: Split)
    requires SplitInv(sp)
    ensures HandlesStored(sp.sys)
  {
    hide Inv, Contents;
    forall i, key | 0 <= i < |sp.sys.threads| && key in sp.sys.threads[i].held
      ensures key in Contents(sp.sys.sh.table)
    {
      HandleStored(sp.sys, i, key);
    }
  }

  lemma LosesHandle(sys: Sys, key: Key)
    requires |sys.threads| == 3 && key in sys.threads[1].held && key !in Contents(sys.sh.table)
    ensures !HandlesStored(sys)
  {
    hide Contents;
  }
}
