/** What every interleaving keeps: the handles and the lock counters agree, no assert of the source fails,
    no effect is attempted that the index could not take, and no cost is lost. */
module CacheSafety {
  import opened CacheModel
  import opened CacheEffects
  import opened CacheCost
  import opened CacheSequential
  import opened Cache
  import opened CacheProtocol
  import opened Sums

  // ---------------------------------------------------------------------------------------------
  // The invariant
  // ---------------------------------------------------------------------------------------------

  function HeldOf(key: Key): Thread -> int { (th: Thread) => th.held[key] }
  function WritesOf(key: Key): Thread -> int { (th: Thread) => th.writes[key] }
  function PendingOf(): Thread -> int { (th: Thread) => Pending(th.pc) }

  /** The cost of a removal that has unlinked its bucket and not yet given the cost back. */
  function Pending(pc: Pc): int {
    match pc
    case RemoveLru(_, cost, _) => cost
    case RemoveCost(cost, _) => cost
    case _ => 0
  }

  function Readers(m: map<Key, Entry>, key: Key): int { if key in m then m[key].read else 0 }
  function Writers(m: map<Key, Entry>, key: Key): int { if key in m then m[key].write else 0 }

  /** The counters of key are the outstanding handles on it, and a write lock has one handle to itself. */
  ghost predicate LockOk(m: map<Key, Entry>, ts: seq<Thread>, key: Key) {
    && Readers(m, key) == Sum(ts, HeldOf(key))
    && Writers(m, key) == Sum(ts, WritesOf(key)) <= 1
    && (Writers(m, key) == 1 ==> Readers(m, key) == 1)
  }

  ghost predicate LocksOk(m: map<Key, Entry>, ts: seq<Thread>) {
    forall key :: LockOk(m, ts, key)
  }

  predicate ReturnOk(cfg: Config, maxHeld: nat, th: Thread, ret: Return) {
    ret.ToGc? ==> CallerOk(maxHeld, th, ret.caller) && ret.curr < cfg.buckets && ret.i <= cfg.segSize
  }

  predicate CallerOk(maxHeld: nat, th: Thread, caller: Caller) {
    caller.ForRead? ==> caller.key != EMPTY && |th.held| < maxHeld
  }

  predicate DeltaStays(cfg: Config, curr: nat, delta: int) {
    curr < cfg.buckets && (delta == NULL_DELTA || 0 <= curr + delta < cfg.buckets)
  }

  /** Where the code of a thread can stand. */
  ghost predicate PcOk(cfg: Config, maxHeld: nat, th: Thread) {
    match th.pc
    case Crashed => false
    case GcStart(caller) => CallerOk(maxHeld, th, caller)
    case GcLook(caller, next, i) => CallerOk(maxHeld, th, caller) && next < cfg.buckets && i <= cfg.segSize + 1
    case GcLookAgain(caller) => CallerOk(maxHeld, th, caller)
    case GcPeek(caller, curr, i) => CallerOk(maxHeld, th, caller) && curr < cfg.buckets && i <= cfg.segSize
    case GcNext(caller, curr, i) => CallerOk(maxHeld, th, caller) && curr < cfg.buckets && i <= cfg.segSize
    case GetTry(key) => key != EMPTY && |th.held| < maxHeld
    case TestTry(key) => |th.held| < maxHeld
    case Front(key, b) => key in th.held && b < cfg.buckets
    case WriteTry(key) => key in th.held && key !in th.writes
    case RemoveTry(key, ret) => ReturnOk(cfg, maxHeld, th, ret)
    case RemoveLru(b, _, ret) => b < cfg.buckets && ReturnOk(cfg, maxHeld, th, ret)
    case RemoveCost(_, ret) => ReturnOk(cfg, maxHeld, th, ret)
    case ScanMore(key, _, curr, delta) => DeltaStays(cfg, curr, delta)
    case ScanKey(_, _, curr) => curr < cfg.buckets
    case ScanNext(_, _, curr) => curr < cfg.buckets
    case _ => true
  }

  ghost predicate ThreadOk(cfg: Config, maxHeld: nat, th: Thread) {
    th.writes <= th.held && |th.held| <= maxHeld && PcOk(cfg, maxHeld, th)
  }

  /** A bucket that is about to be moved to the front still stores the key it was found for. */
  ghost predicate FrontOk(t: seq<Bucket>, th: Thread) {
    th.pc.Front? ==> Holds(t, th.pc.b, th.pc.key)
  }

  ghost predicate Inv(sys: Sys) {
    && Sound(sys.cfg, sys.sh)
    && |sys.threads| * sys.maxHeld <= MAX_READ
    && (forall i :: 0 <= i < |sys.threads| ==> ThreadOk(sys.cfg, sys.maxHeld, sys.threads[i]))
    && (forall i :: 0 <= i < |sys.threads| ==> FrontOk(sys.sh.table, sys.threads[i]))
    && LocksOk(Contents(sys.sh.table), sys.threads)
    && Excess(sys.sh) == Sum(sys.threads, PendingOf())
  }

  // ---------------------------------------------------------------------------------------------
  // A step moves handles, costs and effects together
  // ---------------------------------------------------------------------------------------------

  /** The handles of the stepping thread follow the effect. */
  predicate HandlesFollow(t: seq<Bucket>, e: Effect, th: Thread, th': Thread) {
    match e
    case AddRead(b) => b < |t| && th'.held == th.held + multiset{t[b].key} && th'.writes == th.writes
    case DropRead(b) =>
      b < |t| && t[b].key in th.held && t[b].key !in th.writes
      && th'.held == th.held - multiset{t[b].key} && th'.writes == th.writes
    case AddWrite(b) =>
      b < |t| && t[b].key in th.held && t[b].key !in th.writes
      && th'.held == th.held && th'.writes == th.writes + multiset{t[b].key}
    case DropWrite(b) =>
      b < |t| && t[b].key in th.writes && th'.held == th.held && th'.writes == th.writes - multiset{t[b].key}
    case Insert(key, _, _, _, locked) =>
      th'.held == th.held + multiset{key}
      && th'.writes == if locked then th.writes + multiset{key} else th.writes
    case Rewrite(b, _, _) => b < |t| && t[b].key in th.writes && th'.held == th.held && th'.writes == th.writes
    case _ => th'.held == th.held && th'.writes == th.writes
  }

  function CostMoved(t: seq<Bucket>, e: Effect): int {
    match e
    case Unlink(b) => if b < |t| then t[b].cost else 0
    case AddCost(d) => d
    case _ => 0
  }

  /** What one step of one thread comes to, whatever it is. */
  ghost predicate StepFits(sys: Sys, th: Thread, m: Move) {
    m.Move? ==>
      && Enabled(sys.cfg, sys.sh, m.e) && AssertsHold(sys.sh.table, m.e)
      && HandlesFollow(sys.sh.table, m.e, th, m.th)
      && Pending(m.th.pc) == Pending(th.pc) + CostMoved(sys.sh.table, m.e)
      && m.th.pc != Crashed
  }

  /** A thread that holds a handle on key and has not upgraded it finds key stored, read locked and not
      write locked; one that has upgraded it is alone. */
  lemma HandleMeans(sys: Sys, tid: nat, key: Key)
    requires Inv(sys) && tid < |sys.threads|
    ensures var th := sys.threads[tid]; var b := BucketOf(sys.sh.table, key);
            key in th.held ==>
              && b != -1 && Holds(sys.sh.table, b, key) && sys.sh.table[b].read > 0
              && (key !in th.writes ==> sys.sh.table[b].write == 0)
              && (key in th.writes ==> sys.sh.table[b].write == 1 && sys.sh.table[b].read == 1)
  {
    var ts, th := sys.threads, sys.threads[tid];
    if key in th.held {
      var m := Contents(sys.sh.table);
      assert LockOk(m, ts, key);
      HeldIsCounted(ts, tid, key);
      assert key in m;
      var b := BucketOf(sys.sh.table, key);
      ContentsAt(sys.sh.table, b, key);
      WritesBelowHeld(sys, tid, key);
    }
  }

  lemma HeldIsCounted(ts: seq<Thread>, tid: nat, key: Key)
    requires tid < |ts|
    ensures ts[tid].held[key] <= Sum(ts, HeldOf(key))
    ensures ts[tid].writes[key] <= Sum(ts, WritesOf(key))
  {
    SumAtLeast(ts, HeldOf(key), tid);
    SumAtLeast(ts, WritesOf(key), tid);
  }

  lemma WritesBelowHeld(sys: Sys, tid: nat, key: Key)
    requires Inv(sys) && tid < |sys.threads|
    ensures Sum(sys.threads, WritesOf(key)) + sys.threads[tid].held[key] - sys.threads[tid].writes[key]
            <= Sum(sys.threads, HeldOf(key))
  {
    forall th | th in sys.threads ensures WritesOf(key)(th) <= HeldOf(key)(th) {
      var i :| 0 <= i < |sys.threads| && sys.threads[i] == th;
      assert ThreadOk(sys.cfg, sys.maxHeld, th);
    }
    var th := sys.threads[tid];
    SumBelowBy(sys.threads, WritesOf(key), HeldOf(key), tid, th.held[key] - th.writes[key]);
  }

  /** While some thread may still take a handle, no reader count has reached the limit. */
  lemma RoomForReader(sys: Sys, tid: nat, key: Key)
    requires Inv(sys) && tid < |sys.threads| && |sys.threads[tid].held| < sys.maxHeld
    ensures Sum(sys.threads, HeldOf(key)) < MAX_READ
  {
    var ts := sys.threads;
    forall th | th in ts ensures HeldOf(key)(th) <= sys.maxHeld {
      var i :| 0 <= i < |ts| && ts[i] == th;
      assert ThreadOk(sys.cfg, sys.maxHeld, th);
      CountBelowSize(th.held, key);
    }
    CountBelowSize(ts[tid].held, key);
    var full := ts[tid].(held := multiset{}[key := sys.maxHeld]);
    SumUpdate(ts, HeldOf(key), tid, full);
    SumAtMost(ts[tid := full], HeldOf(key), sys.maxHeld);
  }

  lemma CountBelowSize(m: multiset<Key>, key: Key)
    ensures m[key] <= |m|
  {
    assert multiset{}[key := m[key]] <= m;
    assert |m| == |multiset{}[key := m[key]]| + |m - multiset{}[key := m[key]]| by {
      assert m == multiset{}[key := m[key]] + (m - multiset{}[key := m[key]]);
    }
  }

  /** No delta of the table leads out of it. */
  lemma DeltasStay(cfg: Config, s: Shared, b: nat)
    requires IndexOk(cfg, s) && b < |s.table|
    ensures DeltaStays(cfg, b, s.table[b].firstDelta) && DeltaStays(cfg, b, s.table[b].nextDelta)
  {
    var c := s.chains[b];
    assert ChainOk(s.table, b, c);
    assert c != [] ==> c[0] < |s.table|;
    assert BucketOk(s.table, s.chains, b);
    if Occupied(s.table[b]) {
      var h := Home(s.table[b].hash, |s.table|);
      var k := IndexOf(s.chains[h], b);
      ChainBucketAt(cfg, s, h, k);
      assert ChainOk(s.table, h, s.chains[h]);
      assert k + 1 < |s.chains[h]| ==> s.chains[h][k+1] < |s.table|;
    }
  }

  lemma InvIs(sys: Sys, tid: nat)
    requires Inv(sys) && tid < |sys.threads|
    ensures sys.cfg.Ok() && Sized(sys)
    ensures Sound(sys.cfg, sys.sh)
    ensures ThreadOk(sys.cfg, sys.maxHeld, sys.threads[tid])
  {}

  lemma ReleaseFits(sys: Sys, tid: nat, key: Key)
    requires Inv(sys) && tid < |sys.threads| && sys.threads[tid].pc.Idle?
    ensures StepFits(sys, sys.threads[tid], Client(sys, sys.threads[tid], Release(key)))
  {
    hide Inv, Sound, IndexOk, LruOk, Contents;
    InvIs(sys, tid);
    HandleMeans(sys, tid, key);
  }

  lemma WriterFits(sys: Sys, tid: nat, ch: Choice)
    requires Inv(sys) && tid < |sys.threads| && sys.threads[tid].pc.Idle? && (ch.Downgrade? || ch.Resize?)
    ensures StepFits(sys, sys.threads[tid], Client(sys, sys.threads[tid], ch))
  {
    hide Inv, Sound, IndexOk, LruOk, Contents;
    InvIs(sys, tid);
    WriterMeans(sys, tid, ch.key);
  }

  lemma ClientFits(sys: Sys, tid: nat, ch: Choice)
    requires Inv(sys) && tid < |sys.threads| && sys.threads[tid].pc.Idle?
    ensures StepFits(sys, sys.threads[tid], Client(sys, sys.threads[tid], ch))
  {
    if ch.Release? { ReleaseFits(sys, tid, ch.key); }
    else if ch.Downgrade? || ch.Resize? { WriterFits(sys, tid, ch); }
    else {
      hide Inv, Sound, BucketOf;
      InvIs(sys, tid);
    }
  }

  lemma WriterMeans(sys: Sys, tid: nat, key: Key)
    requires Inv(sys) && tid < |sys.threads|
    ensures var b := BucketOf(sys.sh.table, key);
            key in sys.threads[tid].writes ==>
              b != -1 && Holds(sys.sh.table, b, key) && sys.sh.table[b].write == 1 && sys.sh.table[b].read == 1
  {
    var th := sys.threads[tid];
    assert ThreadOk(sys.cfg, sys.maxHeld, th);
    assert key in th.writes ==> th.writes[key] <= th.held[key];
    HandleMeans(sys, tid, key);
  }

  lemma ReadFits(sys: Sys, tid: nat, key: Key, b: nat)
    requires Inv(sys) && tid < |sys.threads| && |sys.threads[tid].held| < sys.maxHeld
    requires b == BucketOf(sys.sh.table, key) && sys.sh.table[b].write == 0
    requires Pending(sys.threads[tid].pc) == 0
    ensures StepFits(sys, sys.threads[tid], TakeHandle(sys.sh.table, key, b, sys.threads[tid]))
  {
    assert LockOk(Contents(sys.sh.table), sys.threads, key);
    ContentsAt(sys.sh.table, b, key);
    RoomForReader(sys, tid, key);
  }

  lemma StoreFits(sys: Sys, tid: nat, key: Key, f: nat, a: Allocation, th': Thread)
    requires Inv(sys) && tid < |sys.threads| && key != EMPTY && BucketOf(sys.sh.table, key) == -1
    requires |sys.sh.table| == sys.cfg.buckets && 0 < sys.cfg.buckets
    requires FreeChoice(sys.cfg, sys.sh.table, Home(key, |sys.sh.table|), f)
    requires th'.held == sys.threads[tid].held + multiset{key} && th'.pc == Front(key, f)
    requires th'.writes == if a.locked then sys.threads[tid].writes + multiset{key} else sys.threads[tid].writes
    requires Pending(sys.threads[tid].pc) == 0
    ensures StepFits(sys, sys.threads[tid], Perform(sys.sh.table, Insert(key, f, a.cost, a.data, a.locked), th'))
  {
    assert BucketOk(sys.sh.table, sys.sh.chains, f);
    assert !Stores(sys.sh.table, key);
  }

  lemma ChoiceRange(cfg: Config, t: seq<Bucket>, h: nat, f: int)
    requires |t| == cfg.buckets && FreeChoice(cfg, t, h, f)
    ensures -1 <= f < cfg.buckets && (f != -1 ==> !Occupied(t[f]))
  {}

  lemma LookupFits(sys: Sys, tid: nat, ch: Choice)
    requires Inv(sys) && tid < |sys.threads| && InLookup(sys.threads[tid].pc) && Sized(sys)
    ensures StepFits(sys, sys.threads[tid], LookupStep(sys, sys.threads[tid], ch))
  {
    hide Inv, Sound, IndexOk, LruOk, Contents, FreeChoice;
    var th, t, key := sys.threads[tid], sys.sh.table, sys.threads[tid].pc.key;
    InvIs(sys, tid);
    var b := BucketOf(t, key);
    match th.pc
    case GetTry(_) =>
      if b != -1 {
        if t[b].write == 0 { ReadFits(sys, tid, key, b); }
      } else if ch.Pick? && FreeChoice(sys.cfg, t, Home(key, |t|), ch.f) && ch.f != -1 {
        ChoiceRange(sys.cfg, t, Home(key, |t|), ch.f);
        StoreFits(sys, tid, key, ch.f, ch.a,
                  th.(pc := Front(key, ch.f), held := th.held + multiset{key}, ret := ch.a.data,
                      writes := if ch.a.locked then th.writes + multiset{key} else th.writes));
      }
    case TestTry(_) => if b != -1 && t[b].write == 0 { ReadFits(sys, tid, key, b); }
    case WriteTry(_) => HandleMeans(sys, tid, key);
  }

  lemma GcFits(sys: Sys, th: Thread)
    requires Sized(sys) && ThreadOk(sys.cfg, sys.maxHeld, th) && InGc(th.pc)
    ensures StepFits(sys, th, GcStep(sys, th))
  {}

  lemma RemoveFits(sys: Sys, th: Thread)
    requires Sized(sys) && ThreadOk(sys.cfg, sys.maxHeld, th) && InRemove(th.pc)
    ensures StepFits(sys, th, RemoveStep(sys, th))
  {}

  lemma ScanFits(sys: Sys, th: Thread)
    requires Sized(sys) && ThreadOk(sys.cfg, sys.maxHeld, th)
    ensures StepFits(sys, th, ScanStep(sys, th))
  {}

  /** Every step of every thread performs an effect that the index can take and that passes the asserts. */
  lemma StepIsFit(sys: Sys, tid: nat, ch: Choice)
    requires Inv(sys) && tid < |sys.threads|
    ensures Sized(sys) && StepFits(sys, sys.threads[tid], Step(sys, sys.threads[tid], ch))
  {
    hide Inv, Sound, Client, GcStep, LookupStep, RemoveStep, ScanStep;
    var th := sys.threads[tid];
    InvIs(sys, tid);
    if th.pc.Idle? { ClientFits(sys, tid, ch); }
    else if InGc(th.pc) { GcFits(sys, th); }
    else if InLookup(th.pc) { LookupFits(sys, tid, ch); }
    else if InRemove(th.pc) { RemoveFits(sys, th); }
    else { ScanFits(sys, th); }
  }

  lemma InvIsReady(sys: Sys, tid: nat)
    requires Inv(sys) && tid < |sys.threads|
    ensures Ready(sys, tid)
  {
    hide Inv, Sound, Step, AssertsHold, HandlesFollow;
    InvIs(sys, tid);
    forall ch ensures var m := Step(sys, sys.threads[tid], ch); m.Move? ==> Enabled(sys.cfg, sys.sh, m.e) {
      StepIsFit(sys, tid, ch);
    }
  }

  /** The step that thread tid takes. */
  ghost function After(sys: Sys, tid: nat, ch: Choice): Sys
    requires Ready(sys, tid) && Step(sys, sys.threads[tid], ch).Move?
  {
    var m := Step(sys, sys.threads[tid], ch);
    sys.(sh := Apply(sys.cfg, sys.sh, m.e), threads := sys.threads[tid := m.th])
  }

  lemma AfterSteps(sys: Sys, tid: nat, ch: Choice)
    requires Ready(sys, tid) && Step(sys, sys.threads[tid], ch).Move?
    ensures Steps(sys, After(sys, tid, ch), tid, ch)
  {}

  lemma DeltasStayIn(sys: Sys, b: nat)
    requires Inv(sys) && b < |sys.sh.table|
    ensures DeltaStays(sys.cfg, b, sys.sh.table[b].firstDelta) && DeltaStays(sys.cfg, b, sys.sh.table[b].nextDelta)
  {
    DeltasStay(sys.cfg, sys.sh, b);
  }

  lemma LruFieldsIn(sys: Sys)
    requires Inv(sys)
    ensures sys.sh.lru < sys.cfg.buckets
    ensures forall b :: 0 <= b < |sys.sh.table| ==> sys.sh.table[b].mru < sys.cfg.buckets
  {
    var s := sys.sh;
    if s.order != [] { assert s.order[|s.order|-1] < |s.table|; }
    forall b | 0 <= b < |s.table| ensures s.table[b].mru < |s.table| {
      LinkBounds(s, b);
    }
  }

  lemma HandlesStay(t: seq<Bucket>, e: Effect, th: Thread, th': Thread)
    requires HandlesFollow(t, e, th, th') && th.writes <= th.held
    ensures th'.writes <= th'.held
    ensures |th'.held| <= |th.held| + if e.AddRead? || e.Insert? then 1 else 0
  {}

  lemma ClientKeepsSelf(sys: Sys, th: Thread, ch: Choice)
    requires ThreadOk(sys.cfg, sys.maxHeld, th) && th.pc.Idle?
    requires StepFits(sys, th, Client(sys, th, ch))
    ensures var m := Client(sys, th, ch); m.Move? ==> ThreadOk(sys.cfg, sys.maxHeld, m.th)
  {
    hide Sound, IndexOk, LruOk, Enabled, HandlesFollow, AssertsHold, BucketOf;
    var m := Client(sys, th, ch);
    if m.Move? { HandlesStay(sys.sh.table, m.e, th, m.th); }
  }

  lemma LookupKeepsSelf(sys: Sys, th: Thread, ch: Choice)
    requires Sized(sys) && ThreadOk(sys.cfg, sys.maxHeld, th) && InLookup(th.pc)
    requires StepFits(sys, th, LookupStep(sys, th, ch))
    ensures var m := LookupStep(sys, th, ch); m.Move? ==> ThreadOk(sys.cfg, sys.maxHeld, m.th)
  {
    hide Sound, IndexOk, LruOk, Enabled, FreeChoice, HandlesFollow, AssertsHold;
    var t, key, m := sys.sh.table, th.pc.key, LookupStep(sys, th, ch);
    if m.Move? { HandlesStay(t, m.e, th, m.th); }
    if ch.Pick? && FreeChoice(sys.cfg, t, Home(key, |t|), ch.f) {
      ChoiceRange(sys.cfg, t, Home(key, |t|), ch.f);
    }
  }

  lemma GcKeepsSelf(sys: Sys, th: Thread)
    requires Sized(sys) && ThreadOk(sys.cfg, sys.maxHeld, th) && InGc(th.pc) && sys.sh.lru < sys.cfg.buckets
    requires forall b :: 0 <= b < |sys.sh.table| ==> sys.sh.table[b].mru < sys.cfg.buckets
    ensures var m := GcStep(sys, th); m.Move? ==> ThreadOk(sys.cfg, sys.maxHeld, m.th)
  {}

  lemma RemoveKeepsSelf(sys: Sys, th: Thread)
    requires Sized(sys) && ThreadOk(sys.cfg, sys.maxHeld, th) && InRemove(th.pc)
    ensures var m := RemoveStep(sys, th); m.Move? ==> ThreadOk(sys.cfg, sys.maxHeld, m.th)
  {}

  lemma ScanKeepsSelf(sys: Sys, th: Thread)
    requires Sized(sys) && ThreadOk(sys.cfg, sys.maxHeld, th)
    requires forall b :: 0 <= b < |sys.sh.table| ==>
      DeltaStays(sys.cfg, b, sys.sh.table[b].firstDelta) && DeltaStays(sys.cfg, b, sys.sh.table[b].nextDelta)
    ensures var m := ScanStep(sys, th); m.Move? ==> ThreadOk(sys.cfg, sys.maxHeld, m.th)
  {}

  /** The stepping thread stands where its code can stand. */
  lemma StepKeepsSelf(sys: Sys, tid: nat, ch: Choice)
    requires Inv(sys) && tid < |sys.threads|
    ensures Sized(sys)
    ensures var m := Step(sys, sys.threads[tid], ch); m.Move? ==> ThreadOk(sys.cfg, sys.maxHeld, m.th)
  {
    hide Inv, Sound, Client, GcStep, LookupStep, RemoveStep, ScanStep, StepFits;
    var th := sys.threads[tid];
    InvIs(sys, tid);
    StepIsFit(sys, tid, ch);
    LruFieldsIn(sys);
    forall b | 0 <= b < |sys.sh.table|
      ensures DeltaStays(sys.cfg, b, sys.sh.table[b].firstDelta) && DeltaStays(sys.cfg, b, sys.sh.table[b].nextDelta)
    {
      DeltasStayIn(sys, b);
    }
    if th.pc.Idle? { ClientKeepsSelf(sys, th, ch); }
    else if InGc(th.pc) { GcKeepsSelf(sys, th); }
    else if InLookup(th.pc) { LookupKeepsSelf(sys, th, ch); }
    else if InRemove(th.pc) { RemoveKeepsSelf(sys, th); }
    else { ScanKeepsSelf(sys, th); }
  }

  // ---------------------------------------------------------------------------------------------
  // The invariant is kept
  // ---------------------------------------------------------------------------------------------

  lemma EntryAt(cfg: Config, s: Shared, b: nat)
    requires IndexOk(cfg, s) && b < |s.table| && Occupied(s.table[b])
    ensures s.table[b].key in Contents(s.table) && Contents(s.table)[s.table[b].key] == EntryOf(s.table[b])
  {
    assert Holds(s.table, b, s.table[b].key);
    ContentsAt(s.table, b, s.table[b].key);
  }

  lemma InPlaceCounts(cfg: Config, s: Shared, e: Effect, key: Key)
    requires IndexOk(cfg, s) && IsInPlace(e) && Enabled(cfg, s, e)
    ensures var m, w, b := Contents(s.table), MapAfter(s.table, e), s.table[e.b];
            if key == b.key then
              && Readers(m, key) == b.read && Writers(m, key) == b.write
              && Readers(w, key) == b.read + (if e.AddRead? then 1 else if e.DropRead? then -1 else 0)
              && Writers(w, key) == b.write + (if e.AddWrite? then 1 else if e.DropWrite? then -1 else 0)
            else Readers(w, key) == Readers(m, key) && Writers(w, key) == Writers(m, key)
  {
    hide IndexOk, Contents;
    EntryAt(cfg, s, e.b);
  }

  lemma LockKeptInPlace(sys: Sys, tid: nat, e: Effect, th': Thread, key: Key)
    requires Inv(sys) && tid < |sys.threads| && Enabled(sys.cfg, sys.sh, e) && AssertsHold(sys.sh.table, e)
    requires IsInPlace(e) && HandlesFollow(sys.sh.table, e, sys.threads[tid], th')
    ensures LockOk(MapAfter(sys.sh.table, e), sys.threads[tid := th'], key)
  {
    hide Contents, IndexOk, LruOk, MapAfter, Readers, Writers, Sum;
    var ts := sys.threads;
    SoundIndex(sys);
    InPlaceCounts(sys.cfg, sys.sh, e, key);
    assert LockOk(Contents(sys.sh.table), ts, key);
    SumUpdate(ts, HeldOf(key), tid, th');
    SumUpdate(ts, WritesOf(key), tid, th');
    WritesBelowHeld(sys, tid, key);
  }

  lemma SoundIndex(sys: Sys)
    requires Sound(sys.cfg, sys.sh)
    ensures IndexOk(sys.cfg, sys.sh) && LruOk(sys.sh)
  {}

  lemma InsertCounts(cfg: Config, s: Shared, e: Effect, key: Key)
    requires e.Insert? && Enabled(cfg, s, e)
    ensures var m, w := Contents(s.table), MapAfter(s.table, e);
            if key == e.key then
              && Readers(m, key) == 0 && Writers(m, key) == 0
              && Readers(w, key) == 1 && Writers(w, key) == if e.locked then 1 else 0
            else Readers(w, key) == Readers(m, key) && Writers(w, key) == Writers(m, key)
  {
    hide Contents;
  }

  lemma QuietCounts(cfg: Config, s: Shared, e: Effect, key: Key)
    requires IndexOk(cfg, s) && Enabled(cfg, s, e) && !IsInPlace(e) && !e.Insert?
    ensures var m, w := Contents(s.table), MapAfter(s.table, e);
            Readers(w, key) == Readers(m, key) && Writers(w, key) == Writers(m, key)
  {
    hide IndexOk, Contents;
    if e.Unlink? { EntryAt(cfg, s, e.b); }
  }

  lemma LockKept(sys: Sys, tid: nat, e: Effect, th': Thread, key: Key)
    requires Inv(sys) && tid < |sys.threads| && Enabled(sys.cfg, sys.sh, e) && AssertsHold(sys.sh.table, e)
    requires HandlesFollow(sys.sh.table, e, sys.threads[tid], th')
    ensures LockOk(MapAfter(sys.sh.table, e), sys.threads[tid := th'], key)
  {
    if IsInPlace(e) {
      LockKeptInPlace(sys, tid, e, th', key);
    } else {
      hide Contents, IndexOk, LruOk, MapAfter, Readers, Writers, Sum, Enabled;
      var ts := sys.threads;
      SoundIndex(sys);
      if e.Insert? { InsertCounts(sys.cfg, sys.sh, e, key); } else { QuietCounts(sys.cfg, sys.sh, e, key); }
      assert LockOk(Contents(sys.sh.table), ts, key);
      SumUpdate(ts, HeldOf(key), tid, th');
      SumUpdate(ts, WritesOf(key), tid, th');
    }
  }

  lemma EffectKeepsHolds(cfg: Config, s: Shared, e: Effect, b: nat, key: Key)
    requires Sound(cfg, s) && Enabled(cfg, s, e) && Holds(s.table, b, key) && s.table[b].read > 0
    ensures Holds(Apply(cfg, s, e).table, b, key)
  {
    match e
    case Insert(k, f, cost, data, locked) =>
      InsertLands(cfg, s, k, f, cost, data, locked);
      assert SameEntry(Apply(cfg, s, e).table[b], s.table[b]);
    case Unlink(u) =>
      UnlinkLands(cfg, s, u);
      assert SameEntry(Apply(cfg, s, e).table[b], s.table[b]);
    case _ =>
  }

  /** What an effect means for bucket b: filled, emptied, or storing the same key as before, if any. */
  lemma EffectOnBucket(cfg: Config, s: Shared, e: Effect, b: nat)
    requires Sound(cfg, s) && Enabled(cfg, s, e) && b < |s.table|
    ensures var u := Apply(cfg, s, e).table;
            && |u| == |s.table|
            && if e.Insert? && e.b == b then Occupied(u[b]) && u[b].key == e.key
               else if e.Unlink? && e.b == b then !Occupied(u[b])
               else Occupied(u[b]) == Occupied(s.table[b]) && u[b].key == s.table[b].key
  {
    match e
    case Insert(k, f, cost, data, locked) =>
      InsertLands(cfg, s, k, f, cost, data, locked);
      assert b != f ==> SameEntry(Apply(cfg, s, e).table[b], s.table[b]);
    case Unlink(u) =>
      UnlinkLands(cfg, s, u);
      assert b != u ==> SameEntry(Apply(cfg, s, e).table[b], s.table[b]);
    case _ =>
  }

  lemma LookupFront(sys: Sys, th: Thread, ch: Choice)
    requires Sized(sys) && InLookup(th.pc)
    ensures var m := LookupStep(sys, th, ch);
            m.Move? && m.th.pc.Front? ==>
              || (m.e == AddRead(m.th.pc.b) && Holds(sys.sh.table, m.th.pc.b, m.th.pc.key))
              || (m.e.Insert? && m.e.key == m.th.pc.key && m.e.b == m.th.pc.b)
  {
    hide FreeChoice, AssertsHold, Holds;
  }

  lemma NoFront(sys: Sys, th: Thread, ch: Choice)
    requires Sized(sys)
    ensures var m := GcStep(sys, th); m.Move? ==> !m.th.pc.Front?
    ensures var m := RemoveStep(sys, th); m.Move? ==> !m.th.pc.Front?
    ensures var m := ScanStep(sys, th); m.Move? ==> !m.th.pc.Front?
    ensures var m := Client(sys, th, ch); m.Move? && th.pc.Idle? ==> !m.th.pc.Front?
  {
    hide AssertsHold, BucketOf;
  }

  /** A thread at Front has just been given its bucket by a lookup or a store. */
  lemma FrontComes(sys: Sys, th: Thread, ch: Choice)
    requires Sized(sys)
    ensures var m := Step(sys, th, ch);
            m.Move? && m.th.pc.Front? ==>
              || (m.e == AddRead(m.th.pc.b) && Holds(sys.sh.table, m.th.pc.b, m.th.pc.key))
              || (m.e.Insert? && m.e.key == m.th.pc.key && m.e.b == m.th.pc.b)
  {
    hide Client, GcStep, RemoveStep, ScanStep, LookupStep, Holds;
    NoFront(sys, th, ch);
    if InLookup(th.pc) { LookupFront(sys, th, ch); }
  }

  lemma NewFrontHolds(cfg: Config, s: Shared, e: Effect, b: nat, key: Key)
    requires Sound(cfg, s) && Enabled(cfg, s, e)
    requires (e == AddRead(b) && Holds(s.table, b, key)) || (e.Insert? && e.key == key && e.b == b)
    ensures Holds(Apply(cfg, s, e).table, b, key)
  {
    if e.Insert? { InsertLands(cfg, s, key, b, e.cost, e.data, e.locked); }
  }

  lemma FrontsKept(sys: Sys, sys': Sys, tid: nat, ch: Choice, i: nat)
    requires Inv(sys) && Steps(sys, sys', tid, ch) && i < |sys.threads|
    ensures FrontOk(sys'.sh.table, sys'.threads[i])
  {
    hide Inv, Sound, IndexOk, LruOk, Contents, Enabled, Apply, Holds, Step;
    var m := Step(sys, sys.threads[tid], ch);
    InvIs(sys, i);
    FrontIs(sys, i);
    if i == tid {
      FrontComes(sys, sys.threads[tid], ch);
      if m.th.pc.Front? { NewFrontHolds(sys.cfg, sys.sh, m.e, m.th.pc.b, m.th.pc.key); }
    } else if sys.threads[i].pc.Front? {
      HandleMeans(sys, i, sys.threads[i].pc.key);
      HeldBucket(sys, i);
      EffectKeepsHolds(sys.cfg, sys.sh, m.e, sys.threads[i].pc.b, sys.threads[i].pc.key);
    }
  }

  lemma FrontIs(sys: Sys, i: nat)
    requires Inv(sys) && i < |sys.threads|
    ensures FrontOk(sys.sh.table, sys.threads[i])
  {}

  lemma HeldBucket(sys: Sys, i: nat)
    requires Inv(sys) && i < |sys.threads| && sys.threads[i].pc.Front?
    ensures var pc := sys.threads[i].pc; BucketOf(sys.sh.table, pc.key) == pc.b
  {
    assert FrontOk(sys.sh.table, sys.threads[i]);
    ContentsAt(sys.sh.table, sys.threads[i].pc.b, sys.threads[i].pc.key);
  }

  lemma LocksKept(sys: Sys, sys': Sys, tid: nat, ch: Choice)
    requires Inv(sys) && Steps(sys, sys', tid, ch)
    ensures LocksOk(Contents(sys'.sh.table), sys'.threads)
  {
    hide Inv, Sound, IndexOk, LruOk, Contents, Enabled, Apply, Step, MapAfter, LockOk;
    var m := Step(sys, sys.threads[tid], ch);
    StepIsFit(sys, tid, ch);
    SoundIndex(sys);
    EffectOnMap(sys.cfg, sys.sh, m.e);
    forall key ensures LockOk(Contents(sys'.sh.table), sys'.threads, key) {
      LockKept(sys, tid, m.e, m.th, key);
    }
  }

  lemma CostKept(sys: Sys, sys': Sys, tid: nat, ch: Choice)
    requires Inv(sys) && Steps(sys, sys', tid, ch)
    ensures Excess(sys'.sh) == Sum(sys'.threads, PendingOf())
  {
    hide Sound, IndexOk, LruOk, Contents, Enabled, Apply, Step, Excess;
    var m := Step(sys, sys.threads[tid], ch);
    StepIsFit(sys, tid, ch);
    SoundIndex(sys);
    EffectOnExcess(sys.cfg, sys.sh, m.e);
    SumUpdate(sys.threads, PendingOf(), tid, m.th);
    UnlinkInTable(sys.cfg, sys.sh, m.e);
  }

  lemma UnlinkInTable(cfg: Config, s: Shared, e: Effect)
    requires Enabled(cfg, s, e)
    ensures CostMoved(s.table, e) == match e { case Unlink(b) => s.table[b].cost case AddCost(d) => d case _ => 0 }
  {}

  /** Every step of every thread keeps the invariant. */
  lemma StepKeepsInv(sys: Sys, sys': Sys, tid: nat, ch: Choice)
    requires Inv(sys) && Steps(sys, sys', tid, ch)
    ensures Inv(sys')
  {
    hide Sound, IndexOk, LruOk, Contents, Enabled, Apply, Step, Excess, LocksOk, ThreadOk, FrontOk;
    var m := Step(sys, sys.threads[tid], ch);
    SoundStays(sys, m.e);
    StepKeepsSelf(sys, tid, ch);
    LocksKept(sys, sys', tid, ch);
    CostKept(sys, sys', tid, ch);
    forall i | 0 <= i < |sys'.threads| ensures FrontOk(sys'.sh.table, sys'.threads[i]) {
      FrontsKept(sys, sys', tid, ch, i);
    }
  }

  lemma SoundStays(sys: Sys, e: Effect)
    requires Sound(sys.cfg, sys.sh) && Enabled(sys.cfg, sys.sh, e)
    ensures IndexOk(sys.cfg, sys.sh) && Sound(sys.cfg, Apply(sys.cfg, sys.sh, e))
  {
    EffectKeepsSound(sys.cfg, sys.sh, e);
  }
}
