/** A thread of CacheProtocol that takes all its steps alone does to the cache, call by call, what class Cache promises:
    the steps, put together, are the operations. */
module CacheRefinement {
  import opened CacheModel
  import opened CacheEffects
  import opened CacheSequential
  import opened Cache
  import opened CacheProtocol
  import opened CacheSafety
  import opened CacheRuns
  import opened CacheScan
  import opened CacheSections

  /** A stretch of a run in which one thread takes all the steps. */
  datatype Solo = Solo(states: seq<Sys>, choices: seq<Choice>)

  /** Nobody else is at work, so that every segment lock is free. */
  ghost predicate IsSolo(r: Solo, tid: nat) {
    && |r.states| == |r.choices| + 1
    && forall i {:trigger SoloAt(r, tid, i)} :: 0 <= i < |r.choices| ==> SoloAt(r, tid, i)
  }

  ghost predicate SoloAt(r: Solo, tid: nat, i: nat)
    requires i < |r.choices| == |r.states| - 1
  {
    Steps(r.states[i], r.states[i+1], tid, r.choices[i]) && r.choices[i] != SegmentBusy
  }

  /** The allocate callback that answers a. */
  function Always(a: Allocation): Allocator {
    Callback((key: Key, data: Ptr) => a)
  }

  /** The pass of dt_cache_read_get has given answer, with a from the allocate callback. */
  predicate Returned(th: Thread, th': Thread, key: Key, answer: Answer, locked: bool) {
    match answer
    case Wait => th' == th.(pc := GcStart(ForRead(key)))
    case NoRoom => th' == th.(pc := Idle, ret := 0)
    case Data(data) =>
      th' == th.(pc := Idle, ret := data, held := th.held + multiset{key},
                 writes := if locked then th.writes + multiset{key} else th.writes)
  }

  ghost predicate Passes(cfg: Config, s: Shared, th: Thread, key: Key, s': Shared, th': Thread, a: Allocation,
                         answer: Answer)
  {
    && Pass(cfg, Always(a), s, key, answer, s')
    && Returned(th, th', key, answer, key !in Contents(Collected(cfg, s, 0.8).table) && a.locked)
  }

  /** What class Cache promises of the call ch of thread th in state s: s' afterwards, and th' with the answer. */
  ghost predicate Answered(cfg: Config, s: Shared, th: Thread, ch: Choice, s': Shared, th': Thread) {
    var t, m := s.table, Contents(s.table);
    match ch
    case Collect(ratio) =>
      s' == Collected(cfg, s, ratio) && th' == th.(pc := GcTold(TooFull(s'.cost, ratio, cfg.quota)))
    case Read(key) => exists a, answer :: Passes(cfg, s, th, key, s', th', a, answer)
    case Test(key) =>
      if key in m && m[key].write == 0 then
        s' == Hit(cfg, s, BucketOf(t, key)) && Returned(th, th', key, Data(m[key].data), false)
      else s' == s && th' == th.(pc := Idle, ret := 0)
    case Upgrade(key) =>
      && key in m && m[key].read <= 1
      && s' == Then(cfg, s, AddWrite(BucketOf(t, key)))
      && th' == th.(pc := Idle, writes := th.writes + multiset{key}, ret := m[key].data)
    case Release(key) =>
      && key in m
      && s' == Then(cfg, s, DropRead(BucketOf(t, key))) && th' == th.(held := th.held - multiset{key})
    case Downgrade(key) =>
      && key in m
      && s' == Then(cfg, s, DropWrite(BucketOf(t, key))) && th' == th.(writes := th.writes - multiset{key})
    case Resize(key, cost, data) =>
      && key in m
      && s' == Then(cfg, s, Rewrite(BucketOf(t, key), cost, data)) && th' == th
    case Delete(key) =>
      && th' == th
      && s' == if key in m && m[key].read == 0 && m[key].write == 0 then Evict(cfg, s, BucketOf(t, key)) else s
    case Query(key) => s' == s && th' == th.(pc := Told(key, key in m))
    case _ => false
  }

  /** The call of which step n has been taken has come to its answer; a reader that has to wait calls again. */
  predicate Ended(n: nat, pc: Pc) {
    pc.Idle? || pc.GcTold? || pc.Told? || (pc.GcStart? && n > 1)
  }

  // ---------------------------------------------------------------------------------------------
  // Where a lone thread stands
  // ---------------------------------------------------------------------------------------------

  function CallerOf(ch: Choice): Option<Caller> {
    match ch
    case Read(key) => Some(ForRead(key))
    case Collect(ratio) => Some(Alone(ratio))
    case _ => None
  }

  /** The removal of the entry in bucket b, which was unlocked in s, has come to now. */
  ghost predicate Removing(cfg: Config, s: Shared, b: nat, cost: int, now: Shared, dropped: bool) {
    && Settled(cfg, s) && b < |s.table| && Enabled(cfg, s, Unlink(b)) && cost == s.table[b].cost
    && now == if dropped then Then(cfg, Then(cfg, s, Unlink(b)), Drop(b)) else Then(cfg, s, Unlink(b))
  }

  /** The round of dt_cache_gc that looks at bucket curr. */
  ghost predicate InRound(cfg: Config, s: Shared, now: Shared, caller: Caller, curr: nat, i: nat, evicted: bool)
    requires LruOk(s)
  {
    && Settled(cfg, now) && TooFull(now.cost, caller.Ratio(), cfg.quota) && i <= cfg.segSize
    && GcAt(cfg, s, now, caller.Ratio(), curr, i, evicted)
  }

  /** dt_cache_gc, called in s by caller. */
  ghost predicate CollectorAt(cfg: Config, s: Shared, caller: Caller, now: Shared, pc: Pc)
    requires Settled(cfg, s)
  {
    match pc
    case GcStart(c) => c == caller && now == s
    case GcLook(c, next, i) =>
      c == caller && Settled(cfg, now) && exists evicted :: GcAt(cfg, s, now, caller.Ratio(), next, i, evicted)
    case GcLookAgain(c) => c == caller && now == Collected(cfg, s, caller.Ratio())
    case GcPeek(c, curr, i) => c == caller && exists evicted :: InRound(cfg, s, now, caller, curr, i, evicted)
    case GcNext(c, curr, i) =>
      && c == caller && curr < |now.table| && (!InUse(now.table, curr) || !Unlocked(now.table[curr]))
      && exists evicted :: InRound(cfg, s, now, caller, curr, i, evicted)
    case RemoveTry(key, ToGc(c, curr, i)) =>
      && c == caller && Holds(now.table, curr, key)
      && exists evicted :: InRound(cfg, s, now, caller, curr, i, evicted)
    case RemoveLru(b, cost, ToGc(c, curr, i)) =>
      c == caller && b == curr && InRound(cfg, s, s, caller, curr, i, false) && Removing(cfg, s, b, cost, now, false)
      && InUse(s.table, b) && Unlocked(s.table[b])
    case RemoveCost(cost, ToGc(c, curr, i)) =>
      c == caller && InRound(cfg, s, s, caller, curr, i, false) && Removing(cfg, s, curr, cost, now, true)
      && InUse(s.table, curr) && Unlocked(s.table[curr])
    case _ => false
  }

  /** Inside dt_cache_gc, beyond its first step. */
  predicate CollectorMoved(pc: Pc) {
    Collecting(pc) && !pc.GcStart?
  }

  /** Where dt_cache_gc has ended. */
  ghost predicate CollectorDone(cfg: Config, s: Shared, caller: Caller, now: Shared, pc: Pc) {
    now == Collected(cfg, s, caller.Ratio()) && pc == AfterGc(caller, TooFull(now.cost, caller.Ratio(), cfg.quota))
  }

  /** The steps perform their effects one after the other. */
  lemma StepIsThen(sys: Sys, sys': Sys, tid: nat, ch: Choice)
    requires Steps(sys, sys', tid, ch)
    ensures tid < |sys.threads| == |sys'.threads| && Sized(sys) && Sound(sys.cfg, sys.sh) && sys'.cfg == sys.cfg
    ensures var m := Step(sys, sys.threads[tid], ch);
            && m.Move? && Enabled(sys.cfg, sys.sh, m.e)
            && sys'.sh == Then(sys.cfg, sys.sh, m.e) && sys'.threads[tid] == m.th
            && (m.e.Skip? ==> sys'.sh == sys.sh)
  {}

  lemma GcLooks(sys: Sys, th: Thread, s: Shared, caller: Caller)
    requires Sized(sys) && Settled(sys.cfg, s) && CollectorAt(sys.cfg, s, caller, sys.sh, th.pc)
    requires th.pc.GcStart? || th.pc.GcLook? || th.pc.GcLookAgain?
    ensures var m := GcStep(sys, th);
            && m.Move? && m.e.Skip? && m.th == th.(pc := m.th.pc)
            && if CollectorMoved(m.th.pc) then CollectorAt(sys.cfg, s, caller, sys.sh, m.th.pc)
               else CollectorDone(sys.cfg, s, caller, sys.sh, m.th.pc)
  {
    hide Settled, Collected, TooFull, IndexOk, Victim;
    var cfg, now := sys.cfg, sys.sh;
    SettledIs(cfg, s);
    if th.pc.GcStart? {
      GcBegins(cfg, s, caller.Ratio());
    } else if th.pc.GcLook? {
      var evicted :| GcAt(cfg, s, now, caller.Ratio(), th.pc.next, th.pc.i, evicted);
      if !TooFull(now.cost, caller.Ratio(), cfg.quota) || th.pc.next < 0 || th.pc.i > cfg.segSize {
        GcGivesUp(cfg, s, now, caller.Ratio(), th.pc.next, th.pc.i, evicted);
      } else {
        assert InRound(cfg, s, now, caller, th.pc.next, th.pc.i, evicted);
      }
    }
  }

  lemma GcPeeks(sys: Sys, th: Thread, s: Shared, caller: Caller)
    requires Sized(sys) && Settled(sys.cfg, s) && CollectorAt(sys.cfg, s, caller, sys.sh, th.pc)
    requires th.pc.GcPeek? || th.pc.GcNext?
    ensures var m := GcStep(sys, th);
            m.Move? ==> m.e.Skip? && m.th == th.(pc := m.th.pc) && CollectorMoved(m.th.pc)
                        && CollectorAt(sys.cfg, s, caller, sys.sh, m.th.pc)
  {
    hide Settled, Collected, TooFull, IndexOk, Victim, GcAt, Contents, LruOk;
    var cfg, now, curr, i := sys.cfg, sys.sh, th.pc.curr, th.pc.i;
    SettledIs(cfg, s);
    var evicted :| InRound(cfg, s, now, caller, curr, i, evicted);
    SettledIs(cfg, now);
    if curr < |now.table| {
      BucketMeans(cfg, now, curr);
      if th.pc.GcNext? {
        GcMovesOn(cfg, s, now, caller.Ratio(), curr, i, evicted);
        assert GcAt(cfg, s, now, caller.Ratio(), now.table[curr].mru, i + 1, evicted);
      }
    }
  }

  /** The first section of dt_cache_remove. */
  lemma Unlinks(sys: Sys, th: Thread)
    requires Settled(sys.cfg, sys.sh) && th.pc.RemoveTry?
    ensures var s, m, key := sys.sh, RemoveStep(sys, th), th.pc.key;
            var w, b := Contents(s.table), BucketOf(s.table, key);
            && m.Move?
            && if key in w && w[key].read == 0 && w[key].write == 0 then
                 && 0 <= b < |s.table| && InUse(s.table, b) && Unlocked(s.table[b]) && m.e == Unlink(b)
                 && m.th == th.(pc := RemoveLru(b, s.table[b].cost, th.pc.ret))
                 && Removing(sys.cfg, s, b, s.table[b].cost, Then(sys.cfg, s, m.e), false)
               else m.e.Skip? && m.th == th.(pc := Back(th.pc.ret, true))
    ensures forall b :: Holds(sys.sh.table, b, th.pc.key) ==> b == BucketOf(sys.sh.table, th.pc.key)
    ensures forall b :: Holds(sys.sh.table, b, th.pc.key) && !Unlocked(sys.sh.table[b]) ==>
              RemoveStep(sys, th) == Move(Skip, th.(pc := Back(th.pc.ret, true)))
    ensures forall b :: Holds(sys.sh.table, b, th.pc.key) && Unlocked(sys.sh.table[b]) ==>
              th.pc.key in Contents(sys.sh.table) && Contents(sys.sh.table)[th.pc.key].read == 0
              && Contents(sys.sh.table)[th.pc.key].write == 0
  {
    hide Settled, Contents, IndexOk, LruOk, Then, BucketOf;
    SettledIs(sys.cfg, sys.sh);
    LookupMeans(sys.cfg, sys.sh, th.pc.key, BucketOf(sys.sh.table, th.pc.key));
    forall b | Holds(sys.sh.table, b, th.pc.key) ensures b == BucketOf(sys.sh.table, th.pc.key) {
      ContentsAt(sys.sh.table, b, th.pc.key);
    }
  }

  /** Its other two sections. */
  lemma RemovalEnds(sys: Sys, th: Thread, s: Shared, b: nat, cost: int)
    requires th.pc.RemoveLru? ==> b == th.pc.b && cost == th.pc.cost && Removing(sys.cfg, s, b, cost, sys.sh, false)
    requires th.pc.RemoveCost? ==> cost == th.pc.cost && Removing(sys.cfg, s, b, cost, sys.sh, true)
    requires th.pc.RemoveLru? || th.pc.RemoveCost?
    ensures var m := RemoveStep(sys, th);
            && m.Move?
            && if th.pc.RemoveLru? then
                 && m.th == th.(pc := RemoveCost(cost, th.pc.ret))
                 && Removing(sys.cfg, s, b, cost, Then(sys.cfg, sys.sh, m.e), true)
               else
                 m.th == th.(pc := Back(th.pc.ret, false)) && Then(sys.cfg, sys.sh, m.e) == Evict(sys.cfg, s, b)
  {
    hide Settled, Contents, IndexOk, LruOk, Then;
  }

  lemma GcRemoves(sys: Sys, th: Thread, s: Shared, caller: Caller)
    requires Sized(sys) && Settled(sys.cfg, s) && CollectorAt(sys.cfg, s, caller, sys.sh, th.pc)
    requires InRemove(th.pc)
    ensures var m := RemoveStep(sys, th);
            && m.Move? && m.th == th.(pc := m.th.pc) && CollectorMoved(m.th.pc)
            && CollectorAt(sys.cfg, s, caller, Then(sys.cfg, sys.sh, m.e), m.th.pc)
  {
    hide Settled, Collected, TooFull, IndexOk, LruOk, Victim, GcAt, Contents, Then, RemoveStep, Evict;
    var cfg, now := sys.cfg, sys.sh;
    SettledIs(cfg, s);
    if th.pc.RemoveTry? {
      GcTries(sys, th, s, caller);
    } else if th.pc.RemoveLru? {
      RemovalEnds(sys, th, s, th.pc.b, th.pc.cost);
    } else {
      var curr, i := th.pc.ret.curr, th.pc.ret.i;
      RemovalEnds(sys, th, s, curr, th.pc.cost);
      GcEvicts(cfg, s, s, caller.Ratio(), curr, i, false);
      EvictKeepsSettled(cfg, s, curr);
      assert GcAt(cfg, s, Evict(cfg, s, curr), caller.Ratio(), curr, i + 1, true);
    }
  }

  lemma SkipStays(cfg: Config, s: Shared)
    ensures Then(cfg, s, Skip) == s
  {}

  lemma EvictedMeans(cfg: Config, s: Shared, now: Shared, ratio: real, curr: nat, i: nat, evicted: bool)
    requires LruOk(s) && GcAt(cfg, s, now, ratio, curr, i, evicted) && InUse(now.table, curr)
    ensures !evicted && now == s
  {}

  lemma GcTries(sys: Sys, th: Thread, s: Shared, caller: Caller)
    requires Sized(sys) && Settled(sys.cfg, s) && CollectorAt(sys.cfg, s, caller, sys.sh, th.pc)
    requires th.pc.RemoveTry?
    ensures var m := RemoveStep(sys, th);
            && m.Move? && m.th == th.(pc := m.th.pc) && CollectorMoved(m.th.pc)
            && CollectorAt(sys.cfg, s, caller, Then(sys.cfg, sys.sh, m.e), m.th.pc)
  {
    hide Settled, Collected, TooFull, IndexOk, LruOk, Victim, GcAt, Contents, Then, RemoveStep, Removing;
    var cfg, now := sys.cfg, sys.sh;
    SettledIs(cfg, s);
    var curr, i := th.pc.ret.curr, th.pc.ret.i;
    var evicted :| InRound(cfg, s, now, caller, curr, i, evicted);
    EvictedMeans(cfg, s, now, caller.Ratio(), curr, i, evicted);
    Unlinks(sys, th);
    SkipStays(cfg, now);
  }

  /** One step of a collection that runs alone. */
  lemma GcGoesOnAlone(sys: Sys, sys': Sys, tid: nat, ch: Choice, s: Shared, caller: Caller)
    requires Steps(sys, sys', tid, ch) && Settled(sys.cfg, s)
    requires tid < |sys.threads| && CollectorAt(sys.cfg, s, caller, sys.sh, sys.threads[tid].pc)
    ensures tid < |sys'.threads| && sys'.cfg == sys.cfg
    ensures sys'.threads[tid] == sys.threads[tid].(pc := sys'.threads[tid].pc)
    ensures var pc := sys'.threads[tid].pc;
            if CollectorMoved(pc) then CollectorAt(sys.cfg, s, caller, sys'.sh, pc)
            else CollectorDone(sys.cfg, s, caller, sys'.sh, pc)
  {
    hide Settled, Steps, CollectorAt, CollectorDone, RemoveStep, GcStep, LookupStep, ScanStep, Then;
    StepIsThen(sys, sys', tid, ch);
    var th := sys.threads[tid];
    CollectorPcs(sys, th.pc, s, caller);
    if InRemove(th.pc) {
      GcRemoves(sys, th, s, caller);
    } else if th.pc.GcPeek? || th.pc.GcNext? {
      GcPeeks(sys, th, s, caller);
    } else {
      GcLooks(sys, th, s, caller);
    }
  }

  lemma CollectorPcs(sys: Sys, pc: Pc, s: Shared, caller: Caller)
    requires Settled(sys.cfg, s) && CollectorAt(sys.cfg, s, caller, sys.sh, pc)
    ensures InRemove(pc) || InGc(pc)
  {}

  // ---------------------------------------------------------------------------------------------
  // Every call, from its first step to its answer
  // ---------------------------------------------------------------------------------------------

  /** The lookup of the call ch has taken its handle: moving bucket b to the front completes what is promised. */
  ghost predicate HandedOver(cfg: Config, s: Shared, th: Thread, ch: Choice, now: Shared, b: nat, th': Thread) {
    Answered(cfg, s, th, ch, Then(cfg, now, Touch(b)), th'.(pc := Idle))
  }

  /** Where the lock-free lookup stands in an undisturbed cache. */
  ghost predicate ScannerAt(sys: Sys, key: Key, pc: Pc) {
    && Sized(sys) && |sys.sh.chains| == |sys.sh.table| && Scanning(pc, key) && InTime(sys, pc)
    && ScanOk(sys, pc, Present(sys.sh, key), !Present(sys.sh, key))
  }

  /** About to look the key up. */
  ghost predicate LookingUp(cfg: Config, s: Shared, ch: Choice, now: Shared, pc: Pc) {
    match pc
    case GetTry(key) => ch == Read(key) && now == Collected(cfg, s, 0.8) && !TooFull(now.cost, 0.8, cfg.quota)
    case TestTry(key) => ch == Test(key) && now == s
    case WriteTry(key) => ch == Upgrade(key) && now == s
    case _ => false
  }

  /** Bucket b stores the key to be deleted, which nobody has locked. */
  ghost predicate Deleting(s: Shared, ch: Choice, b: nat) {
    && ch.Delete? && ch.key in Contents(s.table) && b == BucketOf(s.table, ch.key)
    && Contents(s.table)[ch.key].read == 0 && Contents(s.table)[ch.key].write == 0
  }

  ghost predicate RemoverAt(cfg: Config, s: Shared, ch: Choice, now: Shared, pc: Pc) {
    match pc
    case RemoveTry(key, _) => ch == Delete(key) && now == s
    case RemoveLru(b, cost, _) => Deleting(s, ch, b) && Removing(cfg, s, b, cost, now, false)
    case RemoveCost(cost, _) => exists b :: Deleting(s, ch, b) && Removing(cfg, s, b, cost, now, true)
    case _ => false
  }

  /** Where thread tid stands, which was th, at rest in state s, when it called ch. */
  ghost predicate Calling(s: Shared, th: Thread, ch: Choice, sys: Sys, tid: nat)
    requires tid < |sys.threads| && Settled(sys.cfg, s)
  {
    var cfg, now, th', pc := sys.cfg, sys.sh, sys.threads[tid], sys.threads[tid].pc;
    if pc.Front? then HandedOver(cfg, s, th, ch, now, pc.b, th')
    else
      && th' == th.(pc := pc)
      && if Collecting(pc) then CallerOf(ch).Some? && CollectorAt(cfg, s, CallerOf(ch).value, now, pc)
         else if InLookup(pc) then LookingUp(cfg, s, ch, now, pc)
         else if InRemove(pc) then RemoverAt(cfg, s, ch, now, pc)
         else ch.Query? && now == s && ScannerAt(sys, ch.key, pc)
  }

  /** A client that gives up or uses what it holds is done at once. */
  lemma HolderDone(sys: Sys, tid: nat, ch: Choice, m: Move)
    requires Inv(sys) && tid < |sys.threads| && sys.threads[tid].pc.Idle? && Sized(sys) && Sound(sys.cfg, sys.sh)
    requires ch.Release? || ch.Downgrade? || ch.Resize?
    requires m == Client(sys, sys.threads[tid], ch) && m.Move? && m.th.pc != Crashed
    ensures m.th.pc.Idle? && Answered(sys.cfg, sys.sh, sys.threads[tid], ch, Then(sys.cfg, sys.sh, m.e), m.th)
  {
    hide Inv, Sound, Contents, BucketOf, Then, IndexOk, LruOk;
    BucketIs(sys, ch.key);
    HandleMeans(sys, tid, ch.key);
    WriterMeans(sys, tid, ch.key);
  }

  /** The client sets out. */
  lemma CallBegun(sys: Sys, sys': Sys, tid: nat, ch: Choice)
    requires Inv(sys) && Steps(sys, sys', tid, ch) && Settled(sys.cfg, sys.sh)
    requires tid < |sys.threads| && sys.threads[tid].pc.Idle?
    ensures tid < |sys'.threads| && sys'.cfg == sys.cfg
    ensures var th, th' := sys.threads[tid], sys'.threads[tid];
            if th'.pc.Idle? then Answered(sys.cfg, sys.sh, th, ch, sys'.sh, th')
            else Calling(sys.sh, th, ch, sys', tid)
  {
    hide Inv, Steps, Settled, Contents, BucketOf, Then, Answered, Sound;
    StepIsThen(sys, sys', tid, ch);
    StepIsFit(sys, tid, ch);
    InvSizes(sys);
    if ch.Release? || ch.Downgrade? || ch.Resize? {
      HolderDone(sys, tid, ch, Step(sys, sys.threads[tid], ch));
    }
  }

  // One step of each kind of call

  lemma GcCallGoesOn(sys: Sys, sys': Sys, tid: nat, ch': Choice, s: Shared, th: Thread, ch: Choice)
    requires Inv(sys) && Steps(sys, sys', tid, ch') && tid < |sys.threads| && Settled(sys.cfg, s)
    requires Calling(s, th, ch, sys, tid) && Collecting(sys.threads[tid].pc)
    ensures tid < |sys'.threads| && sys'.cfg == sys.cfg
    ensures var th' := sys'.threads[tid];
            if Ended(2, th'.pc) then Answered(sys.cfg, s, th, ch, sys'.sh, th') else Calling(s, th, ch, sys', tid)
  {
    hide Inv, Steps, Settled, Contents, BucketOf, Then, CollectorAt, Collected, TooFull, Looked;
    var caller := CallerOf(ch).value;
    GcGoesOnAlone(sys, sys', tid, ch', s, caller);
    var th' := sys'.threads[tid];
    if th'.pc.GcStart? { assert Passes(sys.cfg, s, th, ch.key, sys'.sh, th', Allocation(false, 0, 0), Wait); }
  }

  /** The contract of dt_cache_read_get holds once the entry is at the front. */
  lemma PassByData(cfg: Config, s: Shared, th: Thread, key: Key, f: int, s': Shared, th': Thread, a: Allocation,
                   answer: Answer)
    requires var c := Collected(cfg, s, 0.8);
             !TooFull(c.cost, 0.8, cfg.quota) && Looked(cfg, Always(a), c, key, f, answer, s')
    requires Returned(th, th', key, answer, key !in Contents(Collected(cfg, s, 0.8).table) && a.locked)
    ensures Answered(cfg, s, th, Read(key), s', th')
  {
    hide Collected, Looked, Returned, Contents;
    assert Passes(cfg, s, th, key, s', th', a, answer);
  }

  /** The key is not stored. */
  lemma GetStores(sys: Sys, m: Move, ch': Choice, s: Shared, th: Thread, key: Key)
    requires Sized(sys) && !TooFull(sys.sh.cost, 0.8, sys.cfg.quota) && sys.sh == Collected(sys.cfg, s, 0.8)
    requires key !in Contents(sys.sh.table) && BucketOf(sys.sh.table, key) == -1
    requires m == LookupStep(sys, th.(pc := GetTry(key)), ch') && m.Move? && m.th.pc != Crashed
    ensures var now' := Then(sys.cfg, sys.sh, m.e);
            if m.th.pc.Idle? then m.e.Skip? && Answered(sys.cfg, s, th, Read(key), sys.sh, m.th)
            else m.th.pc.Front? && HandedOver(sys.cfg, s, th, Read(key), now', m.th.pc.b, m.th)
  {
    hide Contents, BucketOf, Then, Collected, TooFull, FreeChoice, Answered;
    var cfg, now := sys.cfg, sys.sh;
    if ch'.f == -1 {
      PassByData(cfg, s, th, key, -1, now, m.th, ch'.a, NoRoom);
    } else {
      PassByData(cfg, s, th, key, ch'.f, Then(cfg, Then(cfg, now, m.e), Touch(ch'.f)), m.th.(pc := Idle), ch'.a,
                 Data(ch'.a.data));
    }
  }

  /** The key is stored in bucket b. */
  lemma GetFinds(sys: Sys, m: Move, ch': Choice, s: Shared, th: Thread, key: Key, b: nat)
    requires Sized(sys) && !TooFull(sys.sh.cost, 0.8, sys.cfg.quota) && sys.sh == Collected(sys.cfg, s, 0.8)
    requires key in Contents(sys.sh.table) && BucketOf(sys.sh.table, key) == b < |sys.sh.table|
    requires Contents(sys.sh.table)[key] == EntryOf(sys.sh.table[b])
    requires m == LookupStep(sys, th.(pc := GetTry(key)), ch') && m.Move? && m.th.pc != Crashed
    ensures var now' := Then(sys.cfg, sys.sh, m.e);
            if m.th.pc.GcStart? then m.e.Skip? && Answered(sys.cfg, s, th, Read(key), sys.sh, m.th)
            else m.th.pc.Front? && HandedOver(sys.cfg, s, th, Read(key), now', m.th.pc.b, m.th)
  {
    hide Contents, BucketOf, Then, Collected, TooFull, FreeChoice, Answered;
    var cfg, now, a := sys.cfg, sys.sh, Allocation(false, 0, 0);
    if now.table[b].write != 0 {
      PassByData(cfg, s, th, key, -1, now, m.th, a, Wait);
    } else {
      PassByData(cfg, s, th, key, -1, Then(cfg, Then(cfg, now, m.e), Touch(b)), m.th.(pc := Idle), a,
                 Data(now.table[b].data));
    }
  }

  lemma GetGoesOn(sys: Sys, sys': Sys, tid: nat, ch': Choice, s: Shared, th: Thread, ch: Choice)
    requires Inv(sys) && Steps(sys, sys', tid, ch') && tid < |sys.threads| && Settled(sys.cfg, s)
    requires Calling(s, th, ch, sys, tid) && sys.threads[tid].pc.GetTry?
    ensures tid < |sys'.threads| && sys'.cfg == sys.cfg
    ensures var th' := sys'.threads[tid];
            if Ended(2, th'.pc) then Answered(sys.cfg, s, th, ch, sys'.sh, th') else Calling(s, th, ch, sys', tid)
  {
    hide Inv, Steps, Settled, Contents, BucketOf, Then, Collected, TooFull, LookupStep, Answered, HandedOver, Sound,
      IndexOk, LruOk;
    var key := sys.threads[tid].pc.key;
    StepIsThen(sys, sys', tid, ch');
    StepIsFit(sys, tid, ch');
    BucketIs(sys, key);
    var b, m := BucketOf(sys.sh.table, key), Step(sys, sys.threads[tid], ch');
    if b == -1 { GetStores(sys, m, ch', s, th, key); } else { GetFinds(sys, m, ch', s, th, key, b); }
  }

  /** dt_cache_read_testget. */
  lemma TestMoves(sys: Sys, m: Move, ch': Choice, th: Thread, key: Key)
    requires Sized(sys) && Sound(sys.cfg, sys.sh) && ch' != SegmentBusy
    requires m == LookupStep(sys, th.(pc := TestTry(key)), ch') && m.Move? && m.th.pc != Crashed
    ensures var now' := Then(sys.cfg, sys.sh, m.e);
            if m.th.pc.Idle? then m.e.Skip? && Answered(sys.cfg, sys.sh, th, Test(key), sys.sh, m.th)
            else m.th.pc.Front? && HandedOver(sys.cfg, sys.sh, th, Test(key), now', m.th.pc.b, m.th)
  {
    hide Sound, Contents, BucketOf, Then;
    BucketIs(sys, key);
  }

  /** dt_cache_write_get. */
  lemma UpgradeMoves(sys: Sys, m: Move, ch': Choice, th: Thread, key: Key)
    requires Sized(sys) && Sound(sys.cfg, sys.sh) && BucketOf(sys.sh.table, key) != -1
    requires m == LookupStep(sys, th.(pc := WriteTry(key)), ch') && m.Move? && m.th.pc != Crashed
    ensures if m.th.pc.Idle? then Answered(sys.cfg, sys.sh, th, Upgrade(key), Then(sys.cfg, sys.sh, m.e), m.th)
            else m == Move(Skip, th.(pc := WriteTry(key)))
  {
    hide Sound, Contents, BucketOf, Then;
    BucketIs(sys, key);
  }

  lemma TestGoesOn(sys: Sys, sys': Sys, tid: nat, ch': Choice, s: Shared, th: Thread, ch: Choice)
    requires Inv(sys) && Steps(sys, sys', tid, ch') && tid < |sys.threads| && Settled(sys.cfg, s) && ch' != SegmentBusy
    requires Calling(s, th, ch, sys, tid)
    requires sys.threads[tid].pc.TestTry? || sys.threads[tid].pc.WriteTry?
    ensures tid < |sys'.threads| && sys'.cfg == sys.cfg
    ensures var th' := sys'.threads[tid];
            if Ended(2, th'.pc) then Answered(sys.cfg, s, th, ch, sys'.sh, th') else Calling(s, th, ch, sys', tid)
  {
    hide Inv, Steps, Settled, Contents, BucketOf, Then, Sound, LookupStep, Answered, HandedOver;
    StepIsThen(sys, sys', tid, ch');
    StepIsFit(sys, tid, ch');
    var key, m := sys.threads[tid].pc.key, Step(sys, sys.threads[tid], ch');
    if sys.threads[tid].pc.TestTry? {
      TestMoves(sys, m, ch', th, key);
    } else {
      HandleMeans(sys, tid, key);
      InvIs(sys, tid);
      UpgradeMoves(sys, m, ch', th, key);
    }
  }

  /** dt_cache_remove, called by a client. */
  lemma DeleteMoves(cfg: Config, s: Shared, sys: Sys, m: Move, th: Thread, key: Key)
    requires sys.cfg == cfg && sys.sh == s && Settled(cfg, s) && th.pc.Idle?
    requires m == RemoveStep(sys, th.(pc := RemoveTry(key, ToClient)))
    ensures m.Move?
    ensures if m.th.pc.Idle? then m.e.Skip? && Answered(cfg, s, th, Delete(key), s, m.th)
            else m.th == th.(pc := m.th.pc) && m.th.pc.RemoveLru? && m.th.pc.ret.ToClient?
                 && RemoverAt(cfg, s, Delete(key), Then(cfg, s, m.e), m.th.pc)
  {
    hide Settled, Contents, BucketOf, Then, RemoveStep, Removing, Evict;
    Unlinks(sys, th.(pc := RemoveTry(key, ToClient)));
  }

  lemma DeleteEnds(cfg: Config, s: Shared, th: Thread, ch: Choice, b: nat, cost: int, now: Shared)
    requires Deleting(s, ch, b) && Removing(cfg, s, b, cost, now, true)
    ensures b < |s.table| && Answered(cfg, s, th, ch, Evict(cfg, s, b), th)
  {
    hide Evict, Contents, BucketOf, Settled;
  }

  lemma RemoveGoesOnAlone(sys: Sys, sys': Sys, tid: nat, ch': Choice, s: Shared, th: Thread, ch: Choice)
    requires Inv(sys) && Steps(sys, sys', tid, ch') && tid < |sys.threads| && Settled(sys.cfg, s)
    requires Calling(s, th, ch, sys, tid) && th.pc.Idle?
    requires InRemove(sys.threads[tid].pc) && !Collecting(sys.threads[tid].pc)
    ensures tid < |sys'.threads| && sys'.cfg == sys.cfg
    ensures var th' := sys'.threads[tid];
            if Ended(2, th'.pc) then Answered(sys.cfg, s, th, ch, sys'.sh, th') else Calling(s, th, ch, sys', tid)
  {
    hide Inv, Steps, Settled, Contents, BucketOf, Then, RemoveStep, Removing, Evict, Answered, Deleting;
    StepIsThen(sys, sys', tid, ch');
    var th1, m := sys.threads[tid], Step(sys, sys.threads[tid], ch');
    if th1.pc.RemoveTry? {
      DeleteMoves(sys.cfg, s, sys, m, th, th1.pc.key);
    } else if th1.pc.RemoveLru? {
      RemovalEnds(sys, th1, s, th1.pc.b, th1.pc.cost);
    } else {
      var b :| Deleting(s, ch, b) && Removing(sys.cfg, s, b, th1.pc.cost, sys.sh, true);
      RemovalEnds(sys, th1, s, b, th1.pc.cost);
      DeleteEnds(sys.cfg, s, th, ch, b, th1.pc.cost, sys.sh);
    }
  }

  lemma ScanGoesOnAlone(sys: Sys, sys': Sys, tid: nat, ch': Choice, s: Shared, th: Thread, ch: Choice)
    requires Inv(sys) && Steps(sys, sys', tid, ch') && tid < |sys.threads| && Settled(sys.cfg, s)
    requires ch.Query? && sys.sh == s && ScannerAt(sys, ch.key, sys.threads[tid].pc) && !sys.threads[tid].pc.Told?
    requires sys.threads[tid] == th.(pc := sys.threads[tid].pc)
    ensures tid < |sys'.threads| && sys'.cfg == sys.cfg
    ensures sys'.sh == s && sys'.threads[tid] == th.(pc := sys'.threads[tid].pc)
    ensures ScannerAt(sys', ch.key, sys'.threads[tid].pc)
  {
    hide Inv, Sound, Settled, OnTrack, Present, IndexOk, LruOk, Then, Steps, ScanOk;
    StepIsThen(sys, sys', tid, ch');
    InvIs(sys, tid);
    OwnStep(sys, sys.threads[tid], ch.key, Present(s, ch.key), !Present(s, ch.key));
    ScanOkOfShared(sys, sys', sys'.threads[tid].pc, Present(s, ch.key), !Present(s, ch.key));
  }

  // ---------------------------------------------------------------------------------------------
  // Whole calls
  // ---------------------------------------------------------------------------------------------

  lemma CallGoesOn(sys: Sys, sys': Sys, tid: nat, ch': Choice, s: Shared, th: Thread, ch: Choice)
    requires Inv(sys) && Steps(sys, sys', tid, ch') && tid < |sys.threads| && Settled(sys.cfg, s) && ch' != SegmentBusy
    requires Calling(s, th, ch, sys, tid) && th.pc.Idle? && !sys.threads[tid].pc.Told?
    ensures tid < |sys'.threads| && sys'.cfg == sys.cfg
    ensures var th' := sys'.threads[tid];
            if Ended(2, th'.pc) then Answered(sys.cfg, s, th, ch, sys'.sh, th') else Calling(s, th, ch, sys', tid)
  {
    var pc := sys.threads[tid].pc;
    if pc.Front? {
      FrontEnds(sys, sys', tid, ch', s, th, ch);
    } else if Collecting(pc) {
      GcCallGoesOn(sys, sys', tid, ch', s, th, ch);
    } else if pc.GetTry? {
      GetGoesOn(sys, sys', tid, ch', s, th, ch);
    } else if InLookup(pc) {
      TestGoesOn(sys, sys', tid, ch', s, th, ch);
    } else if InRemove(pc) {
      RemoveGoesOnAlone(sys, sys', tid, ch', s, th, ch);
    } else {
      hide Inv, Sound, Settled, Present, Steps, InTime;
      ScanGoesOnAlone(sys, sys', tid, ch', s, th, ch);
      ScanEnds(s, th, ch, sys', tid);
    }
  }

  lemma FrontEnds(sys: Sys, sys': Sys, tid: nat, ch': Choice, s: Shared, th: Thread, ch: Choice)
    requires Steps(sys, sys', tid, ch') && tid < |sys.threads| && Settled(sys.cfg, s)
    requires Calling(s, th, ch, sys, tid) && sys.threads[tid].pc.Front?
    ensures tid < |sys'.threads| && sys'.cfg == sys.cfg && sys'.threads[tid].pc.Idle?
    ensures Answered(sys.cfg, s, th, ch, sys'.sh, sys'.threads[tid])
  {
    hide Steps, Settled, Answered, Then;
    StepIsThen(sys, sys', tid, ch');
  }

  lemma ScanEnds(s: Shared, th: Thread, ch: Choice, sys: Sys, tid: nat)
    requires tid < |sys.threads| && Settled(sys.cfg, s) && ch.Query? && sys.sh == s
    requires sys.threads[tid] == th.(pc := sys.threads[tid].pc) && ScannerAt(sys, ch.key, sys.threads[tid].pc)
    ensures var th' := sys.threads[tid];
            if Ended(2, th'.pc) then Answered(sys.cfg, s, th, ch, s, th') else Calling(s, th, ch, sys, tid)
  {
    hide Settled;
  }

  function PcOf(r: Solo, i: nat, tid: nat): Pc {
    if i < |r.states| && tid < |r.states[i].threads| then r.states[i].threads[tid].pc else Idle
  }

  /** The first n steps are in one call. */
  predicate InCall(r: Solo, tid: nat, n: nat) {
    forall i: nat :: 0 < i < n ==> !Ended(i, PcOf(r, i, tid))
  }

  /** A thread that takes all the steps, from a call in a settled cache to its answer, has done what class Cache
      promises of the operation, to the cache, and is told what class Cache returns. */
  lemma {:induction false} LoneCallsAreOperations(r: Solo, tid: nat, n: nat)
    requires IsSolo(r, tid) && 0 < n < |r.states| && InCall(r, tid, n)
    requires Inv(r.states[0]) && Settled(r.states[0].cfg, r.states[0].sh) && PcOf(r, 0, tid) == Idle
    requires tid < |r.states[0].threads|
    ensures Inv(r.states[n]) && tid < |r.states[n].threads| && r.states[n].cfg == r.states[0].cfg
    ensures var sys, sys' := r.states[0], r.states[n];
            if Ended(n, sys'.threads[tid].pc) then
              Answered(sys.cfg, sys.sh, sys.threads[tid], r.choices[0], sys'.sh, sys'.threads[tid])
            else Calling(sys.sh, sys.threads[tid], r.choices[0], sys', tid)
  {
    hide Inv, Settled, Steps, Answered, Calling;
    assert SoloAt(r, tid, n - 1);
    if n == 1 {
      StepKeepsInv(r.states[0], r.states[1], tid, r.choices[0]);
      CallBegun(r.states[0], r.states[1], tid, r.choices[0]);
      FirstPcs(r.states[0], r.states[1], tid, r.choices[0]);
    } else {
      LoneCallsAreOperations(r, tid, n - 1);
      StepKeepsInv(r.states[n-1], r.states[n], tid, r.choices[n-1]);
      assert !Ended(n - 1, PcOf(r, n - 1, tid));
      var first := r.states[0];
      CallGoesOn(r.states[n-1], r.states[n], tid, r.choices[n-1], first.sh, first.threads[tid], r.choices[0]);
    }
  }

  lemma FirstPcs(sys: Sys, sys': Sys, tid: nat, ch: Choice)
    requires Steps(sys, sys', tid, ch) && tid < |sys.threads| && sys.threads[tid].pc.Idle?
    ensures tid < |sys'.threads| && !sys'.threads[tid].pc.GcTold? && !sys'.threads[tid].pc.Told?
  {
    hide BucketOf, AssertsHold, Enabled, Apply, Sound;
  }

  // ---------------------------------------------------------------------------------------------
  // A lone collection ends
  // ---------------------------------------------------------------------------------------------

  /** From anywhere inside dt_cache_gc, a thread that goes on alone leaves it. */
  lemma {:induction false} CollectorLeaves(sys: Sys, tid: nat) returns (r: Solo)
    requires Inv(sys) && tid < |sys.threads| && Collecting(sys.threads[tid].pc)
    ensures IsSolo(r, tid) && |r.states| > 1 && r.states[0] == sys
    ensures forall i: nat :: 0 < i < |r.states| - 1 ==> CollectorMoved(PcOf(r, i, tid))
    ensures !CollectorMoved(PcOf(r, |r.states| - 1, tid))
    ensures |r.states| <= GcRank(sys.cfg, sys.threads[tid].pc) + 1
    decreases GcRank(sys.cfg, sys.threads[tid].pc)
  {
    hide Inv, Steps, Step, Ready, GcRank;
    InvIsReady(sys, tid);
    GcTerminates(sys, tid, Go);
    var sys' := After(sys, tid, Go);
    AfterSteps(sys, tid, Go);
    StepIsThen(sys, sys', tid, Go);
    r := Solo([sys, sys'], [Go]);
    assert SoloAt(r, tid, 0);
    if CollectorMoved(sys'.threads[tid].pc) {
      StepKeepsInv(sys, sys', tid, Go);
      var rest := CollectorLeaves(sys', tid);
      r := Prepended(sys, Go, rest);
      PrependedIsSolo(sys, Go, rest, tid);
      forall i: nat | 0 < i < |r.states| - 1 ensures CollectorMoved(PcOf(r, i, tid)) {
        assert r.states[i] == rest.states[i-1] && PcOf(r, i, tid) == PcOf(rest, i - 1, tid);
      }
    }
  }

  function Prepended(sys: Sys, ch: Choice, r: Solo): Solo {
    Solo([sys] + r.states, [ch] + r.choices)
  }

  lemma PrependedIsSolo(sys: Sys, ch: Choice, r: Solo, tid: nat)
    requires IsSolo(r, tid) && ch != SegmentBusy && Steps(sys, r.states[0], tid, ch)
    ensures IsSolo(Prepended(sys, ch, r), tid)
  {
    hide Steps;
    var q := Prepended(sys, ch, r);
    forall i | 0 <= i < |q.choices| ensures SoloAt(q, tid, i) {
      if i > 0 { assert SoloAt(r, tid, i - 1); }
    }
  }

  lemma StillCollecting(s: Shared, th: Thread, ratio: real, sys: Sys, tid: nat)
    requires tid < |sys.threads| && Settled(sys.cfg, s) && Calling(s, th, Collect(ratio), sys, tid)
    ensures Collecting(sys.threads[tid].pc)
  {
    hide Settled, CollectorAt, Then;
  }

  lemma ToldAtEnd(r: Solo, tid: nat, ratio: real)
    requires IsSolo(r, tid) && |r.states| > 2 && Inv(r.states[0]) && Settled(r.states[0].cfg, r.states[0].sh)
    requires tid < |r.states[0].threads| && PcOf(r, 0, tid) == Idle && r.choices[0] == Collect(ratio)
    requires PcOf(r, 1, tid).GcStart? && !CollectorMoved(PcOf(r, |r.states| - 1, tid))
    requires forall i: nat :: 1 < i < |r.states| - 1 ==> CollectorMoved(PcOf(r, i, tid))
    ensures var sys, sys' := r.states[0], r.states[|r.states|-1];
            && tid < |sys'.threads| && sys'.sh == Collected(sys.cfg, sys.sh, ratio)
            && sys'.threads[tid] == sys.threads[tid].(pc := GcTold(TooFull(sys'.sh.cost, ratio, sys.cfg.quota)))
  {
    hide Inv, Settled, Calling, Collected, TooFull, IsSolo;
    var n := |r.states| - 1;
    forall i: nat | 0 < i < n ensures !Ended(i, PcOf(r, i, tid)) {
      if i > 1 { assert CollectorMoved(PcOf(r, i, tid)); }
    }
    SoloSizes(r, tid);
    LoneCallsAreOperations(r, tid, n);
    if !Ended(n, PcOf(r, n, tid)) {
      StillCollecting(r.states[0].sh, r.states[0].threads[tid], ratio, r.states[n], tid);
      assert false;
    }
  }

  lemma SoloSizes(r: Solo, tid: nat)
    requires IsSolo(r, tid)
    ensures |r.states| == |r.choices| + 1
  {}

  /** In every settled cache, whatever the others hold, dt_cache_gc run alone takes at most 6 * (segSize + 3) + 1
      steps, evicts what Collected says, and tells the client whether that was enough. */
  lemma CollectsAlone(sys: Sys, tid: nat, ratio: real) returns (r: Solo)
    requires Inv(sys) && Settled(sys.cfg, sys.sh) && tid < |sys.threads| && sys.threads[tid].pc.Idle?
    ensures IsSolo(r, tid) && r.states[0] == sys && 1 < |r.states| <= 6 * (sys.cfg.segSize + 3) + 2
    ensures r.choices[0] == Collect(ratio)
    ensures var sys' := r.states[|r.states|-1];
            && tid < |sys'.threads| && sys'.sh == Collected(sys.cfg, sys.sh, ratio)
            && sys'.threads[tid] == sys.threads[tid].(pc := GcTold(TooFull(sys'.sh.cost, ratio, sys.cfg.quota)))
  {
    hide Inv, Steps, Ready, Settled, Collected, TooFull, CollectorMoved;
    InvIsReady(sys, tid);
    var sys1 := After(sys, tid, Collect(ratio));
    AfterSteps(sys, tid, Collect(ratio));
    StepIsThen(sys, sys1, tid, Collect(ratio));
    StepKeepsInv(sys, sys1, tid, Collect(ratio));
    var rest := CollectorLeaves(sys1, tid);
    r := Prepended(sys, Collect(ratio), rest);
    PrependedIsSolo(sys, Collect(ratio), rest, tid);
    SoloSizes(rest, tid);
    forall i: nat | 0 < i < |r.states| ensures PcOf(r, i, tid) == PcOf(rest, i - 1, tid) {
      assert r.states[i] == rest.states[i-1];
    }
    ToldAtEnd(r, tid, ratio);
  }

  // ---------------------------------------------------------------------------------------------
  // So does a lone lookup without locks
  // ---------------------------------------------------------------------------------------------

  /** The scanner stands after p buckets of the chain of key and has k steps to go, more of them than three a bucket. */
  predicate StandsAt(s: Shared, key: Key, p: nat, curr: int, k: int, more: int)
    requires 0 < |s.table| == |s.chains|
  {
    At(s, key, p, curr) && k == 3 * (|s.chains[Home(key, |s.table|)]| - p) + more
  }

  predicate DeltaLeads(s: Shared, key: Key, p: nat, curr: int, delta: int)
    requires 0 < |s.table| == |s.chains|
  {
    var c := s.chains[Home(key, |s.table|)]; p < |c| && delta == Delta(curr, c[p])
  }

  /** How many steps dt_cache_contains has to go, undisturbed: three for each bucket that is left of the chain. */
  ghost predicate ScanLeft(s: Shared, pc: Pc, k: int)
    requires 0 < |s.table| == |s.chains|
  {
    match pc
    case ScanTime(key) => k == 3 * |s.chains[Home(key, |s.table|)]| + 4
    case ScanFirst(key, _) => k == 3 * |s.chains[Home(key, |s.table|)]| + 3
    case ScanMore(key, _, curr, delta) =>
      if delta == NULL_DELTA then k == 2
      else exists p :: StandsAt(s, key, p, curr, k, 2) && DeltaLeads(s, key, p, curr, delta)
    case ScanKey(key, _, curr) => exists p :: 0 < p && StandsAt(s, key, p, curr, k, 4)
    case ScanNext(key, _, curr) => exists p :: 0 < p && StandsAt(s, key, p, curr, k, 3)
    case ScanCheck(_, _) => k == 1
    case Told(_, _) => k == 0
    case _ => false
  }

  lemma FirstDeltaLeads(cfg: Config, s: Shared, key: Key)
    requires IndexOk(cfg, s)
    ensures var h := Home(key, |s.table|);
            if s.chains[h] == [] then s.table[h].firstDelta == NULL_DELTA
            else DeltaLeads(s, key, 0, h, s.table[h].firstDelta)
  {
    ChainFacts(cfg, s, Home(key, |s.table|));
  }

  lemma NextDeltaLeads(cfg: Config, s: Shared, key: Key, p: nat, curr: nat)
    requires IndexOk(cfg, s) && 0 < p && At(s, key, p, curr) && curr < |s.table|
    ensures if p == |s.chains[Home(key, |s.table|)]| then s.table[curr].nextDelta == NULL_DELTA
            else DeltaLeads(s, key, p, curr, s.table[curr].nextDelta)
  {
    ChainBucketAt(cfg, s, Home(key, |s.table|), p - 1);
  }

  lemma HopLands(cfg: Config, s: Shared, key: Key, p: nat, curr: int, delta: int)
    requires IndexOk(cfg, s) && At(s, key, p, curr) && DeltaLeads(s, key, p, curr, delta)
    ensures 0 <= curr + delta < |s.table| && At(s, key, p + 1, curr + delta)
  {
    ChainBucketAt(cfg, s, Home(key, |s.table|), p);
  }

  lemma FirstNearer(cfg: Config, s: Shared, key: Key, ts: nat) returns (k: int)
    requires IndexOk(cfg, s)
    ensures |s.chains| == |s.table| > 0 && 0 <= k < 3 * |s.chains[Home(key, |s.table|)]| + 3
    ensures var h := Home(key, |s.table|); ScanLeft(s, ScanMore(key, ts, h, s.table[h].firstDelta), k)
  {
    FirstDeltaLeads(cfg, s, key);
    hide IndexOk;
    var h := Home(key, |s.table|);
    ChainFacts(cfg, s, h);
    k := 3 * |s.chains[h]| + 2;
    assert StandsAt(s, key, 0, h, k, 2);
  }

  lemma MoreNearer(cfg: Config, s: Shared, key: Key, ts: nat, curr: nat, delta: int, k: int)
    requires IndexOk(cfg, s) && ScanLeft(s, ScanMore(key, ts, curr, delta), k) && delta != NULL_DELTA
    ensures 4 < k && 0 <= curr + delta < |s.table|
    ensures ScanLeft(s, ScanKey(key, ts, curr + delta), k - 1) && ScanLeft(s, ScanNext(key, ts, curr + delta), k - 2)
  {
    var p: nat :| StandsAt(s, key, p, curr, k, 2) && DeltaLeads(s, key, p, curr, delta);
    HopLands(cfg, s, key, p, curr, delta);
    hide IndexOk;
    assert StandsAt(s, key, p + 1, curr + delta, k - 1, 4) && StandsAt(s, key, p + 1, curr + delta, k - 2, 3);
  }

  lemma KeyNearer(cfg: Config, s: Shared, key: Key, ts: nat, curr: nat, k: int)
    requires IndexOk(cfg, s) && ScanLeft(s, ScanKey(key, ts, curr), k)
    ensures 1 < k && ScanLeft(s, ScanNext(key, ts, curr), k - 1)
  {
    IndexSizes(cfg, s);
    hide IndexOk;
    var p: nat :| 0 < p && StandsAt(s, key, p, curr, k, 4);
    assert StandsAt(s, key, p, curr, k - 1, 3);
  }

  lemma NextNearer(cfg: Config, s: Shared, key: Key, ts: nat, curr: nat, k: int)
    requires IndexOk(cfg, s) && curr < |s.table| && ScanLeft(s, ScanNext(key, ts, curr), k)
    ensures 3 <= k && exists k' :: 0 <= k' < k && ScanLeft(s, ScanMore(key, ts, curr, s.table[curr].nextDelta), k')
  {
    var p: nat :| 0 < p && StandsAt(s, key, p, curr, k, 3);
    NextDeltaLeads(cfg, s, key, p, curr);
    hide IndexOk;
    if s.table[curr].nextDelta == NULL_DELTA {
      assert ScanLeft(s, ScanMore(key, ts, curr, s.table[curr].nextDelta), 2);
    } else {
      assert StandsAt(s, key, p, curr, k - 1, 2);
      assert ScanLeft(s, ScanMore(key, ts, curr, s.table[curr].nextDelta), k - 1);
    }
  }

  lemma IndexSizes(cfg: Config, s: Shared)
    requires IndexOk(cfg, s)
    ensures 0 < |s.table| == |s.chains| == cfg.buckets
  {}

  /** Each step brings the answer nearer. */
  lemma ScanComesNearer(sys: Sys, th: Thread, key: Key, k: int) returns (k': int)
    requires Sized(sys) && IndexOk(sys.cfg, sys.sh) && Scanning(th.pc, key) && !th.pc.Told? && InTime(sys, th.pc)
    requires ScanLeft(sys.sh, th.pc, k) && PcOk(sys.cfg, sys.maxHeld, th)
    ensures 0 < k && 0 <= k' < k && |sys.sh.chains| == |sys.sh.table|
    ensures ScanStep(sys, th).Move? && ScanLeft(sys.sh, ScanStep(sys, th).th.pc, k')
  {
    var s := sys.sh;
    IndexSizes(sys.cfg, s);
    hide IndexOk, ScanLeft;
    match th.pc
    case ScanTime(_) => k' := ScanBegins(sys, key, k);
    case ScanFirst(_, ts) =>
      k' := FirstNearer(sys.cfg, s, key, ts);
      LeftAtFirst(s, key, ts, k);
    case ScanMore(_, ts, curr, delta) =>
      if delta == NULL_DELTA {
        k' := 1;
        LeftAtEnd(s, key, ts, curr, k);
      } else {
        MoreNearer(sys.cfg, s, key, ts, curr, delta, k);
        k' := if s.table[curr+delta].hash == key then k - 1 else k - 2;
      }
    case ScanKey(_, ts, curr) =>
      KeyNearer(sys.cfg, s, key, ts, curr, k);
      k' := if s.table[curr].key == key then 0 else k - 1;
      LeftTold(s, key, true);
    case ScanNext(_, ts, curr) =>
      NextNearer(sys.cfg, s, key, ts, curr, k);
      k' :| 0 <= k' < k && ScanLeft(s, ScanMore(key, ts, curr, s.table[curr].nextDelta), k');
    case ScanCheck(_, ts) =>
      k' := 0;
      LeftTold(s, key, false);
      LeftAtCheck(s, key, ts, k);
  }

  lemma ScanBegins(sys: Sys, key: Key, k: int) returns (k': int)
    requires Sized(sys) && 0 < |sys.sh.table| == |sys.sh.chains| && ScanLeft(sys.sh, ScanTime(key), k)
    ensures 0 <= k' < k && ScanLeft(sys.sh, ScanFirst(key, sys.sh.stamps[Segment(sys.cfg, key)]), k')
  {
    k' := k - 1;
  }

  lemma LeftAtFirst(s: Shared, key: Key, ts: nat, k: int)
    requires 0 < |s.table| == |s.chains| && ScanLeft(s, ScanFirst(key, ts), k)
    ensures k == 3 * |s.chains[Home(key, |s.table|)]| + 3
  {}

  lemma LeftAtEnd(s: Shared, key: Key, ts: nat, curr: nat, k: int)
    requires 0 < |s.table| == |s.chains| && ScanLeft(s, ScanMore(key, ts, curr, NULL_DELTA), k)
    ensures k == 2 && ScanLeft(s, ScanCheck(key, ts), 1)
  {}

  lemma LeftAtCheck(s: Shared, key: Key, ts: nat, k: int)
    requires 0 < |s.table| == |s.chains| && ScanLeft(s, ScanCheck(key, ts), k)
    ensures k == 1
  {}

  lemma LeftTold(s: Shared, key: Key, found: bool)
    requires 0 < |s.table| == |s.chains|
    ensures ScanLeft(s, Told(key, found), 0)
  {}

  /** From anywhere inside dt_cache_contains, a thread that goes on alone comes to the answer. */
  lemma {:induction false} ScannerAnswers(sys: Sys, tid: nat, key: Key, k: int) returns (r: Solo)
    requires Inv(sys) && Settled(sys.cfg, sys.sh) && tid < |sys.threads|
    requires ScannerAt(sys, key, sys.threads[tid].pc) && ScanLeft(sys.sh, sys.threads[tid].pc, k)
    requires !sys.threads[tid].pc.Told?
    ensures IsSolo(r, tid) && r.states[0] == sys && 1 < |r.states| <= k + 1
    ensures var sys' := r.states[|r.states|-1];
            && tid < |sys'.threads| && sys'.sh == sys.sh
            && sys'.threads[tid] == sys.threads[tid].(pc := Told(key, key in Contents(sys.sh.table)))
    decreases k
  {
    hide Inv, Steps, Ready, Settled, ScanLeft, IndexOk, LruOk, Contents, InTime;
    InvIs(sys, tid);
    InvIsReady(sys, tid);
    SoundIndex(sys);
    var th := sys.threads[tid];
    var k' := ScanComesNearer(sys, th, key, k);
    AfterSteps(sys, tid, Go);
    var sys' := After(sys, tid, Go);
    StepIsThen(sys, sys', tid, Go);
    StepKeepsInv(sys, sys', tid, Go);
    ScanGoesOnAlone(sys, sys', tid, Go, sys.sh, th.(pc := Idle), Query(key));
    r := Solo([sys, sys'], [Go]);
    assert SoloAt(r, tid, 0);
    if sys'.threads[tid].pc.Told? {
      ScanEnds(sys.sh, th.(pc := Idle), Query(key), sys', tid);
    } else {
      var rest := ScannerAnswers(sys', tid, key, k');
      r := Prepended(sys, Go, rest);
      PrependedIsSolo(sys, Go, rest, tid);
      SoloSizes(rest, tid);
    }
  }

  /** In every settled cache dt_cache_contains, run alone, ends, after three steps for each bucket of the chain and
      five more at most, and answers whether the key is stored. */
  lemma AsksAlone(sys: Sys, tid: nat, key: Key) returns (r: Solo)
    requires Inv(sys) && Settled(sys.cfg, sys.sh) && tid < |sys.threads| && sys.threads[tid].pc.Idle?
    ensures Sized(sys) && |sys.sh.chains| == |sys.sh.table|
    ensures IsSolo(r, tid) && r.choices != [] && r.states[0] == sys && r.choices[0] == Query(key)
    ensures 1 < |r.states| <= 3 * |sys.sh.chains[Home(key, |sys.sh.table|)]| + 6
    ensures var sys' := r.states[|r.states|-1];
            && tid < |sys'.threads| && sys'.sh == sys.sh
            && sys'.threads[tid] == sys.threads[tid].(pc := Told(key, key in Contents(sys.sh.table)))
  {
    hide Inv, Steps, Ready, Settled, Contents, IndexOk, LruOk;
    InvSizes(sys);
    InvIsReady(sys, tid);
    AfterSteps(sys, tid, Query(key));
    var sys1 := After(sys, tid, Query(key));
    StepIsThen(sys, sys1, tid, Query(key));
    StepKeepsInv(sys, sys1, tid, Query(key));
    assert ScannerAt(sys1, key, ScanTime(key));
    var rest := ScannerAnswers(sys1, tid, key, 3 * |sys.sh.chains[Home(key, |sys.sh.table|)]| + 4);
    r := Prepended(sys, Query(key), rest);
    PrependedIsSolo(sys, Query(key), rest, tid);
    SoloSizes(rest, tid);
  }
}
