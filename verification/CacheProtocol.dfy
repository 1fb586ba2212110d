/** Any number of threads on one cache.  A thread is where it stands in the program of src/common/cache.c
    (Pc), and the handles it holds.  `Step` is that program: one atomic step per segment-locked section, per
    section under the LRU lock, per add_cost, per look at the cost, and per read of the lock-free lookup. */
module CacheProtocol {
  import opened CacheModel
  import opened CacheEffects
  import opened CacheSequential
  import opened Cache

  /** Who called dt_cache_gc, and for which fill ratio. */
  datatype Caller = ForRead(key: Key) | Alone(ratio: real) {
    function Ratio(): real { if ForRead? then 0.8 else ratio }
  }

  /** Where dt_cache_remove returns to. */
  datatype Return = ToClient | ToGc(caller: Caller, curr: nat, i: nat)

  datatype Pc =
    | Idle
    | Crashed                                          // an assert of the source has failed
    // dt_cache_gc and dt_cache_remove_bucket
    | GcStart(caller: Caller)                          // about to read cache->lru
    | GcLook(caller: Caller, next: int, i: nat)        // about to look at the cost
    | GcLookAgain(caller: Caller)                      // out of entries: about to look once more
    | GcPeek(caller: Caller, curr: nat, i: nat)        // about to read the key in bucket curr
    | GcNext(caller: Caller, curr: nat, i: nat)        // about to read the next bucket of the list
    | GcTold(failed: bool)                             // about to return to the client
    // dt_cache_read_get, dt_cache_read_testget, dt_cache_write_get
    | GetTry(key: Key)
    | TestTry(key: Key)
    | Front(key: Key, b: nat)                          // about to move bucket b to the front
    | WriteTry(key: Key)
    // dt_cache_remove
    | RemoveTry(key: Key, ret: Return)
    | RemoveLru(b: nat, cost: int, ret: Return)
    | RemoveCost(cost: int, ret: Return)
    // dt_cache_contains
    | ScanTime(key: Key)                               // about to read the time stamp of the segment
    | ScanFirst(key: Key, ts: nat)                     // about to read first_delta
    | ScanMore(key: Key, ts: nat, curr: nat, delta: int)   // delta in hand
    | ScanKey(key: Key, ts: nat, curr: nat)            // the hash agrees, about to read the key
    | ScanNext(key: Key, ts: nat, curr: nat)           // about to read next_delta
    | ScanCheck(key: Key, ts: nat)                     // about to compare the time stamps
    | Told(key: Key, found: bool)                      // about to return

  /** held: the read handles of the client; writes: those it has upgraded; ret: the payload last returned. */
  datatype Thread = Thread(pc: Pc, held: multiset<Key>, writes: multiset<Key>, ret: Ptr)

  datatype Choice =
    | Go
    | SegmentBusy                                      // dt_cache_testlock fails
    | Pick(f: int, a: Allocation)                      // the free bucket found, and what allocate answers
    | Read(key: Key) | Test(key: Key) | Upgrade(key: Key) | Release(key: Key) | Downgrade(key: Key)
    | Resize(key: Key, cost: int, data: Ptr) | Delete(key: Key) | Collect(ratio: real) | Query(key: Key)

  datatype Move = Blocked | Move(e: Effect, th: Thread)

  datatype Sys = Sys(cfg: Config, maxHeld: nat, sh: Shared, threads: seq<Thread>)

  /** Performs e under the asserts that guard it. */
  function Perform(t: seq<Bucket>, e: Effect, th: Thread): Move {
    if AssertsHold(t, e) then Move(e, th) else Move(Skip, th.(pc := Crashed))
  }

  function Back(ret: Return, err: bool): Pc {
    match ret
    case ToClient => Idle
    case ToGc(caller, curr, i) => if err then GcNext(caller, curr, i) else GcLook(caller, curr, i + 1)
  }

  /** dt_cache_gc has returned 0 or 1. */
  function AfterGc(caller: Caller, err: bool): Pc {
    match caller
    case Alone(_) => GcTold(err)
    case ForRead(key) => if err then GcStart(caller) else GetTry(key)   // 1 means wait, then try again
  }

  /** A client that keeps to the rules: it releases what it holds, upgrades what it holds and has not upgraded,
      and never holds more than maxHeld handles. */
  ghost function Client(sys: Sys, th: Thread, ch: Choice): Move {
    var t := sys.sh.table;
    match ch
    case Read(key) =>
      if key != EMPTY && |th.held| < sys.maxHeld then Move(Skip, th.(pc := GcStart(ForRead(key)))) else Blocked
    case Test(key) => if |th.held| < sys.maxHeld then Move(Skip, th.(pc := TestTry(key))) else Blocked
    case Upgrade(key) =>
      if key in th.held && key !in th.writes then Move(Skip, th.(pc := WriteTry(key))) else Blocked
    case Release(key) =>
      if key in th.held && key !in th.writes then
        var b := BucketOf(t, key);
        if b == -1 then Move(Skip, th.(pc := Crashed))
        else Perform(t, DropRead(b), th.(held := th.held - multiset{key}))
      else Blocked
    case Downgrade(key) =>
      if key in th.writes then
        var b := BucketOf(t, key);
        if b == -1 then Move(Skip, th)
        else Perform(t, DropWrite(b), th.(writes := th.writes - multiset{key}))
      else Blocked
    case Resize(key, cost, data) =>
      if key in th.writes then
        var b := BucketOf(t, key);
        if b == -1 then Move(Skip, th) else Perform(t, Rewrite(b, cost, data), th)
      else Blocked
    case Delete(key) => Move(Skip, th.(pc := RemoveTry(key, ToClient)))
    case Collect(ratio) => Move(Skip, th.(pc := GcStart(Alone(ratio))))
    case Query(key) => Move(Skip, th.(pc := ScanTime(key)))
    case _ => Blocked
  }

  predicate Sized(sys: Sys) {
    sys.cfg.segSize > 0 && sys.cfg.numSegs > 0 && 0 < sys.cfg.buckets <= MAX_BUCKETS
    && |sys.sh.table| == sys.cfg.buckets && |sys.sh.stamps| == sys.cfg.numSegs
  }

  /** dt_cache_gc and dt_cache_remove_bucket, src/common/cache.c:757-771 and 899-972. */
  function GcStep(sys: Sys, th: Thread): Move
    requires Sized(sys)
  {
    var s, t := sys.sh, sys.sh.table;
    match th.pc
    case GcStart(caller) => Move(Skip, th.(pc := GcLook(caller, s.lru, 0)))
    case GcLook(caller, next, i) =>
      if !TooFull(s.cost, caller.Ratio(), sys.cfg.quota) then Move(Skip, th.(pc := AfterGc(caller, false)))
      else if next < 0 || i > sys.cfg.segSize then Move(Skip, th.(pc := GcLookAgain(caller)))
      else Move(Skip, th.(pc := GcPeek(caller, next, i)))
    case GcLookAgain(caller) =>
      Move(Skip, th.(pc := AfterGc(caller, TooFull(s.cost, caller.Ratio(), sys.cfg.quota))))
    case GcPeek(caller, curr, i) =>
      if curr >= |t| then Blocked
      else if t[curr].key == EMPTY then Move(Skip, th.(pc := GcNext(caller, curr, i)))
      else Move(Skip, th.(pc := RemoveTry(t[curr].key, ToGc(caller, curr, i))))
    case GcNext(caller, curr, i) =>
      if curr >= |t| then Blocked else Move(Skip, th.(pc := GcLook(caller, t[curr].mru, i + 1)))
    case _ => Blocked
  }

  /** The segment-locked sections of dt_cache_read_get, dt_cache_read_testget and dt_cache_write_get. */
  ghost function LookupStep(sys: Sys, th: Thread, ch: Choice): Move
    requires Sized(sys)
  {
    var t := sys.sh.table;
    match th.pc
    case GetTry(key) =>
      var b := BucketOf(t, key);
      if b != -1 then
        if t[b].write != 0 then Move(Skip, th.(pc := GcStart(ForRead(key)))) else TakeHandle(t, key, b, th)
      else if ch.Pick? && FreeChoice(sys.cfg, t, Home(key, |t|), ch.f) then
        if ch.f == -1 then Move(Skip, th.(pc := Idle, ret := 0))
        else
          Perform(t, Insert(key, ch.f, ch.a.cost, ch.a.data, ch.a.locked), HasStored(th, key, ch.f, ch.a))
      else Blocked
    case TestTry(key) =>
      var b := BucketOf(t, key);
      if ch.SegmentBusy? || b == -1 || t[b].write != 0 then Move(Skip, th.(pc := Idle, ret := 0))
      else TakeHandle(t, key, b, th)
    case WriteTry(key) =>
      var b := BucketOf(t, key);
      if b == -1 then Move(Skip, th.(pc := Idle, ret := 0))
      else if t[b].read > 1 then Move(Skip, th)
      else Perform(t, AddWrite(b), th.(pc := Idle, writes := th.writes + multiset{key}, ret := t[b].data))
    case _ => Blocked
  }

  /** The key has been stored in bucket f, as the allocate callback has answered. */
  function HasStored(th: Thread, key: Key, f: nat, a: Allocation): Thread {
    th.(pc := Front(key, f), held := th.held + multiset{key}, ret := a.data,
        writes := if a.locked then th.writes + multiset{key} else th.writes)
  }

  /** The key was found in bucket b, which is not write locked. */
  function TakeHandle(t: seq<Bucket>, key: Key, b: nat, th: Thread): Move
    requires b < |t|
  {
    Perform(t, AddRead(b), th.(pc := Front(key, b), held := th.held + multiset{key}, ret := t[b].data))
  }

  /** dt_cache_remove, src/common/cache.c:774-823. */
  ghost function RemoveStep(sys: Sys, th: Thread): Move {
    var t := sys.sh.table;
    match th.pc
    case RemoveTry(key, ret) =>
      var b := BucketOf(t, key);
      if b == -1 || t[b].read != 0 || t[b].write != 0 then Move(Skip, th.(pc := Back(ret, true)))
      else Move(Unlink(b), th.(pc := RemoveLru(b, t[b].cost, ret)))
    case RemoveLru(b, cost, ret) => Move(Drop(b), th.(pc := RemoveCost(cost, ret)))
    case RemoveCost(cost, ret) => Move(AddCost(-cost), th.(pc := Back(ret, false)))
    case _ => Blocked
  }

  /** dt_cache_contains, src/common/cache.c:401-423, one read at a time. */
  function ScanStep(sys: Sys, th: Thread): Move
    requires Sized(sys)
  {
    var s, t := sys.sh, sys.sh.table;
    match th.pc
    case ScanTime(key) => Move(Skip, th.(pc := ScanFirst(key, s.stamps[Segment(sys.cfg, key)])))
    case ScanFirst(key, ts) =>
      var h := Home(key, |t|);
      Move(Skip, th.(pc := ScanMore(key, ts, h, t[h].firstDelta)))
    case ScanMore(key, ts, curr, delta) =>
      if delta == NULL_DELTA then Move(Skip, th.(pc := ScanCheck(key, ts)))
      else if !(0 <= curr + delta < |t|) then Move(Skip, th.(pc := Crashed))   // outside the table
      else if t[curr+delta].hash == key then Move(Skip, th.(pc := ScanKey(key, ts, curr + delta)))
      else Move(Skip, th.(pc := ScanNext(key, ts, curr + delta)))
    case ScanKey(key, ts, curr) =>
      if curr >= |t| then Blocked
      else if t[curr].key == key then Move(Skip, th.(pc := Told(key, true)))
      else Move(Skip, th.(pc := ScanNext(key, ts, curr)))
    case ScanNext(key, ts, curr) =>
      if curr >= |t| then Blocked else Move(Skip, th.(pc := ScanMore(key, ts, curr, t[curr].nextDelta)))
    case ScanCheck(key, ts) =>
      if ts == s.stamps[Segment(sys.cfg, key)] then Move(Skip, th.(pc := Told(key, false)))
      else Move(Skip, th.(pc := ScanTime(key)))
    case Told(key, found) => Move(Skip, th.(pc := Idle))
    case _ => Blocked
  }

  predicate InGc(pc: Pc) { pc.GcStart? || pc.GcLook? || pc.GcLookAgain? || pc.GcPeek? || pc.GcNext? }
  predicate InLookup(pc: Pc) { pc.GetTry? || pc.TestTry? || pc.WriteTry? }
  predicate InRemove(pc: Pc) { pc.RemoveTry? || pc.RemoveLru? || pc.RemoveCost? }

  ghost function Step(sys: Sys, th: Thread, ch: Choice): Move
    requires Sized(sys)
  {
    if th.pc.Crashed? then Blocked
    else if th.pc.Idle? then Client(sys, th, ch)
    else if th.pc.GcTold? then Move(Skip, th.(pc := Idle))
    else if th.pc.Front? then Move(Touch(th.pc.b), th.(pc := Idle))
    else if InGc(th.pc) then GcStep(sys, th)
    else if InLookup(th.pc) then LookupStep(sys, th, ch)
    else if InRemove(th.pc) then RemoveStep(sys, th)
    else ScanStep(sys, th)
  }

  /** One atomic step of thread tid. */
  ghost predicate Steps(sys: Sys, sys': Sys, tid: nat, ch: Choice) {
    && tid < |sys.threads| && Sized(sys) && Sound(sys.cfg, sys.sh)
    && var m := Step(sys, sys.threads[tid], ch);
       && m.Move? && Enabled(sys.cfg, sys.sh, m.e)
       && sys' == sys.(sh := Apply(sys.cfg, sys.sh, m.e), threads := sys.threads[tid := m.th])
  }

  /** The index is sound, and every effect that thread tid can come to is one that it can take. */
  ghost predicate Ready(sys: Sys, tid: nat) {
    && tid < |sys.threads| && Sized(sys) && Sound(sys.cfg, sys.sh)
    && forall ch :: var m := Step(sys, sys.threads[tid], ch); m.Move? ==> Enabled(sys.cfg, sys.sh, m.e)
  }

  /** The same, for any state: where the thread is not ready the code could do anything, so that nothing is said about
      what follows. */
  ghost predicate Goes(sys: Sys, sys': Sys, tid: nat, ch: Choice) {
    tid < |sys.threads| && (Ready(sys, tid) ==> Steps(sys, sys', tid, ch))
  }
}
