/** What each section of each call does to the map and the LRU list, and what it hands to the calling thread, whatever
    the other threads are doing: the contracts of class Cache, section by section. */
module CacheSections {
  import opened CacheModel
  import opened CacheEffects
  import opened CacheSequential
  import opened Cache
  import opened CacheProtocol
  import opened CacheSafety
  import opened CacheRuns

  /** th has been given a handle on key, with its payload, and is about to move the entry to the front. */
  predicate Handed(th: Thread, th': Thread, key: Key, data: Ptr, locked: bool) {
    && th'.pc.Front? && th'.pc.key == key && th'.ret == data && th'.held == th.held + multiset{key}
    && th'.writes == if locked then th.writes + multiset{key} else th.writes
  }

  predicate IsLocked(e: Entry) {
    e.read != 0 || e.write != 0
  }

  /** What a step of thread tid that performs e makes of the map, the list and the cost. */
  ghost predicate Performs(sys: Sys, sys': Sys, tid: nat, e: Effect, th': Thread) {
    && tid < |sys'.threads| && sys'.threads[tid] == th' && Contents(sys'.sh.table) == MapAfter(sys.sh.table, e)
    && (e.Skip? ==> sys'.sh == sys.sh)
    && sys'.sh.order == match e {
         case Touch(b) => [b] + Without(sys.sh.order, b)
         case Drop(b) => Without(sys.sh.order, b)
         case _ => sys.sh.order }
    && sys'.sh.cost == sys.sh.cost + match e {
         case Insert(_, _, cost, _, _) => cost
         case AddCost(d) => d
         case Rewrite(b, cost, _) => if b < |sys.sh.table| then cost - sys.sh.table[b].cost else 0
         case _ => 0 }
  }

  lemma StepPerforms(sys: Sys, sys': Sys, tid: nat, ch: Choice)
    requires Inv(sys) && Steps(sys, sys', tid, ch)
    ensures tid < |sys.threads| && Sized(sys) && Sound(sys.cfg, sys.sh)
    ensures var m := Step(sys, sys.threads[tid], ch);
            m.Move? && m.th.pc != Crashed && Performs(sys, sys', tid, m.e, m.th)
  {
    hide Inv, IndexOk, LruOk, Contents, Step, MapAfter, AssertsHold;
    var m := Step(sys, sys.threads[tid], ch);
    StepIsFit(sys, tid, ch);
    SoundIndex(sys);
    EffectOnMap(sys.cfg, sys.sh, m.e);
  }

  /** The lock counters and dt_cache_realloc, on the entry of key. */
  lemma InPlaceMoves(sys: Sys, e: Effect, key: Key)
    requires Sound(sys.cfg, sys.sh) && IsInPlace(e) && e.b == BucketOf(sys.sh.table, key)
    ensures var m := Contents(sys.sh.table);
            key in m && MapAfter(sys.sh.table, e) == match e {
              case AddRead(_) => m[key := m[key].(read := m[key].read + 1)]
              case DropRead(_) => m[key := m[key].(read := m[key].read - 1)]
              case AddWrite(_) => m[key := m[key].(write := m[key].write + 1)]
              case DropWrite(_) => m[key := m[key].(write := m[key].write - 1)]
              case Rewrite(_, cost, data) => m[key := m[key].(cost := cost, data := data)] }
  {
    hide IndexOk, LruOk, Contents, BucketOf;
    BucketIs(sys, key);
  }

  /** The bucket that stores key, and its entry. */
  lemma BucketIs(sys: Sys, key: Key)
    requires Sound(sys.cfg, sys.sh)
    ensures var b, m := BucketOf(sys.sh.table, key), Contents(sys.sh.table);
            && (b == -1 <==> key !in m)
            && (b != -1 ==> 0 <= b < |sys.sh.table| && sys.sh.table[b].key == key && m[key] == EntryOf(sys.sh.table[b]))
  {
    LookupMeans(sys.cfg, sys.sh, key, BucketOf(sys.sh.table, key));
  }

  lemma InsertMoves(t: seq<Bucket>, key: Key, b: nat, cost: int, data: Ptr, locked: bool)
    ensures MapAfter(t, Insert(key, b, cost, data, locked))
         == Contents(t)[key := Entry(data, cost, 1, if locked then 1 else 0)]
  {}

  /** dt_cache_read_get, past the collection. */
  lemma GetAnswers(sys: Sys, sys': Sys, tid: nat, ch: Choice)
    requires Inv(sys) && Steps(sys, sys', tid, ch) && sys.threads[tid].pc.GetTry?
    ensures tid < |sys'.threads| && |sys.sh.table| == sys.cfg.buckets > 0
    ensures var th, th', key := sys.threads[tid], sys'.threads[tid], sys.threads[tid].pc.key;
            var m, w := Contents(sys.sh.table), Contents(sys'.sh.table);
            if key in m && m[key].write != 0 then sys'.sh == sys.sh && th' == th.(pc := GcStart(ForRead(key)))
            else if key in m then
              w == m[key := m[key].(read := m[key].read + 1)] && Handed(th, th', key, m[key].data, false)
            else
              && ch.Pick? && FreeChoice(sys.cfg, sys.sh.table, Home(key, sys.cfg.buckets), ch.f)
              && if ch.f == -1 then sys'.sh == sys.sh && th' == th.(pc := Idle, ret := 0)
                 else w == m[key := Entry(ch.a.data, ch.a.cost, 1, if ch.a.locked then 1 else 0)]
                      && Handed(th, th', key, ch.a.data, ch.a.locked)
    ensures sys'.sh.order == sys.sh.order
  {
    hide Inv, Steps, Sound, IndexOk, LruOk, Contents, FreeChoice, BucketOf, MapAfter;
    StepPerforms(sys, sys', tid, ch);
    BucketIs(sys, sys.threads[tid].pc.key);
    var b := BucketOf(sys.sh.table, sys.threads[tid].pc.key);
    if b == -1 {
      if ch.Pick? && ch.f >= 0 {
        InsertMoves(sys.sh.table, sys.threads[tid].pc.key, ch.f, ch.a.cost, ch.a.data, ch.a.locked);
      }
    } else {
      InPlaceMoves(sys, AddRead(b), sys.threads[tid].pc.key);
    }
  }

  /** dt_cache_read_testget: a handle exactly if the segment is free and the entry is stored and not write locked. */
  lemma TestAnswers(sys: Sys, sys': Sys, tid: nat, ch: Choice)
    requires Inv(sys) && Steps(sys, sys', tid, ch) && sys.threads[tid].pc.TestTry?
    ensures tid < |sys'.threads| && sys'.sh.order == sys.sh.order
    ensures var th, th', key := sys.threads[tid], sys'.threads[tid], sys.threads[tid].pc.key;
            var m, w := Contents(sys.sh.table), Contents(sys'.sh.table);
            if !ch.SegmentBusy? && key in m && m[key].write == 0 then
              w == m[key := m[key].(read := m[key].read + 1)] && Handed(th, th', key, m[key].data, false)
            else sys'.sh == sys.sh && th' == th.(pc := Idle, ret := 0)
  {
    hide Inv, Steps, Sound, IndexOk, LruOk, Contents, FreeChoice, BucketOf, MapAfter;
    StepPerforms(sys, sys', tid, ch);
    BucketIs(sys, sys.threads[tid].pc.key);
    var b := BucketOf(sys.sh.table, sys.threads[tid].pc.key);
    if b != -1 { InPlaceMoves(sys, AddRead(b), sys.threads[tid].pc.key); }
  }

  /** dt_cache_write_get: the payload and the write lock once the caller is the only reader. */
  lemma UpgradeAnswers(sys: Sys, sys': Sys, tid: nat, ch: Choice)
    requires Inv(sys) && Steps(sys, sys', tid, ch) && sys.threads[tid].pc.WriteTry?
    ensures tid < |sys'.threads| && sys'.sh.order == sys.sh.order
    ensures var th, th', key := sys.threads[tid], sys'.threads[tid], sys.threads[tid].pc.key;
            var m, w := Contents(sys.sh.table), Contents(sys'.sh.table);
            && key in m
            && if m[key].read > 1 then sys'.sh == sys.sh && th' == th
               else w == m[key := m[key].(write := m[key].write + 1)]
                    && th' == th.(pc := Idle, writes := th.writes + multiset{key}, ret := m[key].data)
  {
    hide Inv, Steps, Sound, IndexOk, LruOk, Contents, FreeChoice, BucketOf, MapAfter;
    StepPerforms(sys, sys', tid, ch);
    InvIs(sys, tid);
    HandleStored(sys, tid, sys.threads[tid].pc.key);
    BucketIs(sys, sys.threads[tid].pc.key);
    InPlaceMoves(sys, AddWrite(BucketOf(sys.sh.table, sys.threads[tid].pc.key)), sys.threads[tid].pc.key);
  }

  /** dt_cache_read_release, dt_cache_write_release and dt_cache_realloc. */
  lemma HolderActs(sys: Sys, sys': Sys, tid: nat, ch: Choice)
    requires Inv(sys) && Steps(sys, sys', tid, ch) && sys.threads[tid].pc.Idle?
    requires ch.Release? || ch.Downgrade? || ch.Resize?
    ensures tid < |sys'.threads| && sys'.sh.order == sys.sh.order
    ensures var th, th', key := sys.threads[tid], sys'.threads[tid], ch.key;
            var m, w := Contents(sys.sh.table), Contents(sys'.sh.table);
            && key in th.held && key in m
            && match ch
               case Release(_) =>
                 w == m[key := m[key].(read := m[key].read - 1)] && th' == th.(held := th.held - multiset{key})
               case Downgrade(_) =>
                 w == m[key := m[key].(write := m[key].write - 1)] && th' == th.(writes := th.writes - multiset{key})
               case Resize(_, cost, data) =>
                 && w == m[key := m[key].(cost := cost, data := data)] && th' == th
                 && sys'.sh.cost == sys.sh.cost + cost - m[key].cost
  {
    hide Inv, Steps, Sound, IndexOk, LruOk, Contents, BucketOf;
    StepPerforms(sys, sys', tid, ch);
    InvIs(sys, tid);
    WriterMeans(sys, tid, ch.key);
    HandleMeans(sys, tid, ch.key);
    BucketIs(sys, ch.key);
    var b := BucketOf(sys.sh.table, ch.key);
    InPlaceMoves(sys, match ch { case Release(_) => DropRead(b) case Downgrade(_) => DropWrite(b)
                                 case Resize(_, cost, data) => Rewrite(b, cost, data) }, ch.key);
  }

  /** The first section of dt_cache_remove takes exactly a stored entry that nobody has locked. */
  lemma RemoveAnswers(sys: Sys, sys': Sys, tid: nat, ch: Choice)
    requires Inv(sys) && Steps(sys, sys', tid, ch) && sys.threads[tid].pc.RemoveTry?
    ensures tid < |sys'.threads| && sys'.sh.order == sys.sh.order && sys'.sh.cost == sys.sh.cost
    ensures var th, th' := sys.threads[tid], sys'.threads[tid];
            var key, ret := th.pc.key, th.pc.ret;
            var m, w := Contents(sys.sh.table), Contents(sys'.sh.table);
            if key in m && !IsLocked(m[key]) then
              w == m - {key} && th' == th.(pc := RemoveLru(BucketOf(sys.sh.table, key), m[key].cost, ret))
            else sys'.sh == sys.sh && th' == th.(pc := Back(ret, true))
  {
    hide Inv, Steps, Sound, IndexOk, LruOk, Contents, BucketOf;
    StepPerforms(sys, sys', tid, ch);
    BucketIs(sys, sys.threads[tid].pc.key);
  }

  /** Its other two sections take the bucket off the list and give back the cost. */
  lemma RemovalGoesOn(sys: Sys, sys': Sys, tid: nat, ch: Choice)
    requires Inv(sys) && Steps(sys, sys', tid, ch)
    requires sys.threads[tid].pc.RemoveLru? || sys.threads[tid].pc.RemoveCost?
    ensures tid < |sys'.threads| && Contents(sys'.sh.table) == Contents(sys.sh.table)
    ensures var th, th' := sys.threads[tid], sys'.threads[tid];
            if th.pc.RemoveLru? then
              && sys'.sh.order == Without(sys.sh.order, th.pc.b) && sys'.sh.cost == sys.sh.cost
              && th' == th.(pc := RemoveCost(th.pc.cost, th.pc.ret))
            else
              && sys'.sh.order == sys.sh.order && sys'.sh.cost == sys.sh.cost - th.pc.cost
              && th' == th.(pc := Back(th.pc.ret, false))
  {
    hide Inv, Steps, Sound, IndexOk, LruOk, Contents, BucketOf;
    StepPerforms(sys, sys', tid, ch);
  }

  /** The move to the front, which ends every lookup that hands out a handle. */
  lemma FrontAnswers(sys: Sys, sys': Sys, tid: nat, ch: Choice)
    requires Inv(sys) && Steps(sys, sys', tid, ch) && sys.threads[tid].pc.Front?
    ensures tid < |sys'.threads| && Contents(sys'.sh.table) == Contents(sys.sh.table)
    ensures var th, th' := sys.threads[tid], sys'.threads[tid];
            && sys'.sh.order == [th.pc.b] + Without(sys.sh.order, th.pc.b) && sys'.sh.cost == sys.sh.cost
            && th' == th.(pc := Idle)
  {
    hide Inv, Steps, Sound, IndexOk, LruOk, Contents, BucketOf;
    StepPerforms(sys, sys', tid, ch);
  }

  /** Only a lookup that hands out a handle leads to the move to the front. */
  lemma ComesToFront(sys: Sys, th: Thread, ch: Choice)
    requires Sized(sys) && Step(sys, th, ch).Move? && Step(sys, th, ch).th.pc.Front?
    ensures th.pc.GetTry? || th.pc.TestTry?
  {
    hide AssertsHold, BucketOf, FreeChoice;
    NoFront(sys, th, ch);
  }

  /** What dt_cache_read_get or dt_cache_read_testget is about to return is the payload stored under the key asked for,
      whatever other threads have done since the handle was taken. */
  lemma {:induction false} ReturnsPayload(r: Run, n: nat, tid: nat)
    requires IsRun(r) && n < |r.states| && tid < |r.states[n].threads| && r.states[n].threads[tid].pc.Front?
    ensures var th, m := r.states[n].threads[tid], Contents(r.states[n].sh.table);
            th.pc.key in th.held && th.pc.key in m && th.ret == m[th.pc.key].data
  {
    hide IsRun, Inv, Step, Contents, Steps, Handed;
    RunSizes(r);
    RunsAreSafe(r, n);
    FrontHasHandle(r.states[n], tid);
    if n == 0 {
      StartsIdle(r, tid);
      assert false;
    } else {
      RunsAreSafe(r, n - 1);
      RunSteps(r, n - 1);
      PcMoves(r, n - 1, tid);
      var sys, sys', ch := r.states[n-1], r.states[n], r.choices[n-1];
      ThreadsMove(sys, sys', r.tids[n-1], ch);
      if r.tids[n-1] == tid {
        ComesToFront(sys, sys.threads[tid], ch);
        HandedPayload(sys, sys', tid, ch);
      } else {
        ReturnsPayload(r, n - 1, tid);
        HeldPayloadStays(sys, sys', r.tids[n-1], ch, tid, sys.threads[tid].pc.key);
      }
    }
  }

  lemma FrontHasHandle(sys: Sys, tid: nat)
    requires Inv(sys) && tid < |sys.threads| && sys.threads[tid].pc.Front?
    ensures sys.threads[tid].pc.key in sys.threads[tid].held
  {
    assert ThreadOk(sys.cfg, sys.maxHeld, sys.threads[tid]);
  }

  lemma HandedPayload(sys: Sys, sys': Sys, tid: nat, ch: Choice)
    requires Inv(sys) && Steps(sys, sys', tid, ch) && (sys.threads[tid].pc.GetTry? || sys.threads[tid].pc.TestTry?)
    ensures tid < |sys'.threads|
    ensures var th', w := sys'.threads[tid], Contents(sys'.sh.table);
            th'.pc.Front? ==> th'.pc.key in w && th'.ret == w[th'.pc.key].data
  {
    hide Inv, Contents, Steps, FreeChoice;
    ThreadsMove(sys, sys', tid, ch);
    if sys.threads[tid].pc.GetTry? { GetAnswers(sys, sys', tid, ch); } else { TestAnswers(sys, sys', tid, ch); }
  }
}
