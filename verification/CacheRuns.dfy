/** Whole runs: safety, conservation of cost, the quota bound, and the termination of every collection. */
module CacheRuns {
  import opened CacheModel
  import opened CacheEffects
  import opened CacheCost
  import opened CacheSequential
  import opened Cache
  import opened CacheProtocol
  import opened CacheSafety
  import opened Sums

  /** states[i] is followed by states[i+1] when thread tids[i] takes a step with choices[i]. */
  datatype Run = Run(states: seq<Sys>, tids: seq<nat>, choices: seq<Choice>)

  /** What dt_cache_init leaves (see Cache.constructor), and clients that hold nothing yet. */
  ghost predicate Start(sys: Sys) {
    && Settled(sys.cfg, sys.sh) && Contents(sys.sh.table) == map[] && sys.sh.cost == 0
    && sys.cfg.buckets == sys.cfg.segSize * sys.cfg.numSegs
    && |sys.threads| * sys.maxHeld <= MAX_READ
    && forall i :: 0 <= i < |sys.threads| ==> Fresh(sys.threads[i])
  }

  predicate Fresh(th: Thread) {
    th.pc == Idle && th.held == multiset{} && th.writes == multiset{}
  }

  ghost predicate IsRun(r: Run) {
    && r.states != [] && |r.tids| == |r.choices| == |r.states| - 1
    && Start(r.states[0])
    && forall i {:trigger GoesAt(r, i)} :: 0 <= i < |r.tids| ==> GoesAt(r, i)
  }

  ghost predicate GoesAt(r: Run, i: nat)
    requires i < |r.tids| == |r.choices| == |r.states| - 1
  {
    Goes(r.states[i], r.states[i+1], r.tids[i], r.choices[i])
  }

  lemma StartIsInv(sys: Sys)
    requires Start(sys)
    ensures Inv(sys)
  {
    forall key ensures LockOk(Contents(sys.sh.table), sys.threads, key) {
      SumZero(sys.threads, HeldOf(key));
      SumZero(sys.threads, WritesOf(key));
    }
    SumZero(sys.threads, PendingOf());
    forall i | 0 <= i < |sys.threads| ensures ThreadOk(sys.cfg, sys.maxHeld, sys.threads[i]) {
      assert Fresh(sys.threads[i]);
    }
  }

  /** The invariant holds in every state of every run. */
  lemma {:induction false} RunsAreSafe(r: Run, n: nat)
    requires IsRun(r) && n < |r.states|
    ensures Inv(r.states[n])
  {
    hide Inv, Steps, Start, Ready;
    if n == 0 {
      StartIsInv(r.states[0]);
    } else {
      RunsAreSafe(r, n - 1);
      assert GoesAt(r, n - 1);
      InvIsReady(r.states[n-1], r.tids[n-1]);
      StepKeepsInv(r.states[n-1], r.states[n], r.tids[n-1], r.choices[n-1]);
    }
  }

  lemma RunSteps(r: Run, i: nat)
    requires IsRun(r) && i < |r.tids|
    ensures i + 1 < |r.states| && i < |r.choices| && Steps(r.states[i], r.states[i+1], r.tids[i], r.choices[i])
  {
    hide Inv, Steps, Start, Ready;
    RunsAreSafe(r, i);
    assert GoesAt(r, i);
    InvIsReady(r.states[i], r.tids[i]);
  }

  /** The lock protocol, over whole runs: no assert of the source ever fails; the readers of an entry are
      exactly the outstanding handles; a writer is alone; an entry that anyone holds is stored. */
  lemma LockProtocol(r: Run, n: nat, tid: nat, key: Key)
    requires IsRun(r) && n < |r.states| && tid < |r.states[n].threads|
    ensures var sys := r.states[n];
            var th, m := sys.threads[tid], Contents(sys.sh.table);
            && th.pc != Crashed
            && Readers(m, key) == Sum(sys.threads, HeldOf(key))
            && Writers(m, key) == Sum(sys.threads, WritesOf(key))
            && (key in th.held ==> key in m && m[key].read > 0)
            && (key in th.writes ==> key in m && m[key].write == 1 && m[key].read == 1 && th.held[key] == 1)
  {
    RunsAreSafe(r, n);
    var sys := r.states[n];
    var th, m := sys.threads[tid], Contents(sys.sh.table);
    assert LockOk(m, sys.threads, key);
    assert ThreadOk(sys.cfg, sys.maxHeld, th);
    HeldIsCounted(sys.threads, tid, key);
    assert key in th.writes ==> 0 < th.writes[key] <= th.held[key];
  }

  /** Whatever another thread does, an entry that thread i holds stays stored, with its payload. */
  lemma HeldPayloadStays(sys: Sys, sys': Sys, tid: nat, ch: Choice, i: nat, key: Key)
    requires Inv(sys) && Steps(sys, sys', tid, ch) && i < |sys.threads| && i != tid && key in sys.threads[i].held
    ensures var m, w := Contents(sys.sh.table), Contents(sys'.sh.table);
            key in m && key in w && w[key].data == m[key].data
  {
    hide Inv, Steps, Contents;
    StepKeepsInv(sys, sys', tid, ch);
    ThreadsMove(sys, sys', tid, ch);
    HandleStored(sys, i, key);
    HandleStored(sys', i, key);
    DataMoves(sys, sys', tid, ch, key);
    WriterIsAlone(sys, tid, i, key);
  }

  lemma ThreadsMove(sys: Sys, sys': Sys, tid: nat, ch: Choice)
    requires Steps(sys, sys', tid, ch)
    ensures tid < |sys.threads| == |sys'.threads| && sys'.cfg == sys.cfg && sys'.maxHeld == sys.maxHeld
    ensures forall i :: 0 <= i < |sys.threads| && i != tid ==> sys'.threads[i] == sys.threads[i]
  {}

  lemma HandleStored(sys: Sys, i: nat, key: Key)
    requires Inv(sys) && i < |sys.threads| && key in sys.threads[i].held
    ensures key in Contents(sys.sh.table)
  {
    assert LockOk(Contents(sys.sh.table), sys.threads, key);
    HeldIsCounted(sys.threads, i, key);
  }

  lemma WriterIsAlone(sys: Sys, tid: nat, i: nat, key: Key)
    requires Inv(sys) && tid < |sys.threads| && i < |sys.threads| && i != tid
    ensures key in sys.threads[i].held ==> key !in sys.threads[tid].writes
  {
    var ts := sys.threads;
    if key in ts[i].held && key in ts[tid].writes {
      assert LockOk(Contents(sys.sh.table), ts, key);
      assert ThreadOk(sys.cfg, sys.maxHeld, ts[tid]);
      HeldIsCounted(ts, tid, key);
      var none := ts[i].(held := multiset{});
      SumUpdate(ts, HeldOf(key), i, none);
      HeldIsCounted(ts[i := none], tid, key);
      assert false;
    }
  }

  lemma DataMoves(sys: Sys, sys': Sys, tid: nat, ch: Choice, key: Key)
    requires Inv(sys) && Steps(sys, sys', tid, ch)
    requires key in Contents(sys.sh.table) && key in Contents(sys'.sh.table)
    ensures var m, w := Contents(sys.sh.table), Contents(sys'.sh.table);
            w[key].data == m[key].data || key in sys.threads[tid].writes
  {
    hide Inv, Sound, IndexOk, LruOk, Contents, Enabled, Apply, Step;
    var m := Step(sys, sys.threads[tid], ch);
    StepIsFit(sys, tid, ch);
    SoundIndex(sys);
    EffectOnMap(sys.cfg, sys.sh, m.e);
    EntryMoves(sys.cfg, sys.sh, m.e, key);
  }

  lemma EntryMoves(cfg: Config, s: Shared, e: Effect, key: Key)
    requires IndexOk(cfg, s) && Enabled(cfg, s, e) && key in Contents(s.table) && key in MapAfter(s.table, e)
    ensures var m, w := Contents(s.table), MapAfter(s.table, e);
            w[key].data == m[key].data || (e.Rewrite? && s.table[e.b].key == key)
    ensures Contents(s.table)[key].cost == MapAfter(s.table, e)[key].cost || (e.Rewrite? && s.table[e.b].key == key)
  {
    hide IndexOk, Contents;
    if IsInPlace(e) { EntryAt(cfg, s, e.b); }
  }

  /** cache->cost is the cost of the stored entries plus what removals under way still have to give back. */
  lemma CostIsConserved(r: Run, n: nat)
    requires IsRun(r) && n < |r.states|
    ensures r.states[n].sh.cost == StoredCost(r.states[n].sh.table) + Sum(r.states[n].threads, PendingOf())
  {
    RunsAreSafe(r, n);
  }

  // ---------------------------------------------------------------------------------------------
  // The quota
  // ---------------------------------------------------------------------------------------------

  /** A thread that dt_cache_gc has let through and that has not yet looked its key up. */
  function ArmedOf(): Thread -> int { (th: Thread) => if th.pc.GetTry? then 1 else 0 }

  /** Allocations cost between 0 and cmax; reallocations lower a cost, and not below 0. */
  ghost predicate Frugal(sys: Sys, ch: Choice, cmax: nat) {
    match ch
    case Pick(_, a) => 0 <= a.cost <= cmax
    case Resize(key, cost, _) =>
      key in Contents(sys.sh.table) ==> 0 <= cost <= Contents(sys.sh.table)[key].cost
    case _ => true
  }

  ghost predicate CostsOk(sys: Sys) {
    && (forall key :: key in Contents(sys.sh.table) ==> 0 <= Contents(sys.sh.table)[key].cost)
    && (forall i :: 0 <= i < |sys.threads| ==> 0 <= Pending(sys.threads[i].pc))
  }

  function Bound(sys: Sys, cmax: nat): real {
    0.8 * sys.cfg.quota as real + (|sys.threads| * cmax) as real
  }

  /** Every armed thread may still add cmax. */
  ghost predicate QuotaOk(sys: Sys, cmax: nat) {
    (sys.sh.cost + Sum(sys.threads, ArmedOf()) * cmax) as real <= Bound(sys, cmax)
  }

  /** A reader that is let through has just seen the cost at or below the ratio. */
  lemma ArmedOnlyBelow(sys: Sys, th: Thread, ch: Choice)
    requires Sized(sys) && Step(sys, th, ch).Move? && Step(sys, th, ch).th.pc.GetTry?
    ensures Step(sys, th, ch).e == Skip && !TooFull(sys.sh.cost, 0.8, sys.cfg.quota) && !th.pc.GetTry?
  {
    hide AssertsHold, BucketOf, FreeChoice;
    NotArmed(sys, th, ch);
  }

  lemma NotArmed(sys: Sys, th: Thread, ch: Choice)
    requires Sized(sys)
    ensures var m := LookupStep(sys, th, ch); m.Move? ==> !m.th.pc.GetTry?
    ensures var m := RemoveStep(sys, th); m.Move? ==> !m.th.pc.GetTry?
    ensures var m := Client(sys, th, ch); m.Move? && th.pc.Idle? ==> !m.th.pc.GetTry?
  {
    hide AssertsHold, BucketOf, FreeChoice;
  }

  /** Only a frugal choice, or the end of a removal, moves the cost. */
  lemma CostMoves(sys: Sys, tid: nat, ch: Choice, cmax: nat)
    requires Inv(sys) && tid < |sys.threads| && Frugal(sys, ch, cmax) && CostsOk(sys)
    ensures Sized(sys)
    ensures var m, th := Step(sys, sys.threads[tid], ch), sys.threads[tid];
            m.Move? ==> match m.e
                        case Insert(_, _, cost, _, _) => th.pc.GetTry? && 0 <= cost <= cmax
                        case Rewrite(b, cost, _) =>
                          b < |sys.sh.table| && 0 <= cost <= sys.sh.table[b].cost && !th.pc.GetTry?
                        case AddCost(d) => d <= 0 && !th.pc.GetTry?
                        case _ => true
  {
    hide Inv, Sound, IndexOk, LruOk, Contents, FreeChoice, AssertsHold, CostsOk, Frugal;
    InvIs(sys, tid);
    var th := sys.threads[tid];
    if th.pc.RemoveCost? {
      PendingIn(sys, tid);
    } else if th.pc.Idle? {
      ResizeMoves(sys, tid, ch, cmax);
    } else if th.pc.GetTry? {
      GetMoves(sys, tid, ch, cmax);
    }
  }

  lemma PendingIn(sys: Sys, tid: nat)
    requires tid < |sys.threads| && CostsOk(sys)
    ensures 0 <= Pending(sys.threads[tid].pc)
  {}

  lemma ResizeMoves(sys: Sys, tid: nat, ch: Choice, cmax: nat)
    requires Inv(sys) && tid < |sys.threads| && Frugal(sys, ch, cmax) && sys.threads[tid].pc.Idle?
    ensures var m := Client(sys, sys.threads[tid], ch);
            m.Move? ==> !m.e.Insert? && !m.e.AddCost?
                        && (m.e.Rewrite? ==> m.e.b < |sys.sh.table| && 0 <= m.e.cost <= sys.sh.table[m.e.b].cost)
  {
    hide Inv, Sound, IndexOk, LruOk, Contents, AssertsHold, BucketOf;
    if ch.Resize? {
      WriterMeans(sys, tid, ch.key);
      InvIs(sys, tid);
      ResizeBelow(sys, ch.key);
    }
  }

  lemma ResizeBelow(sys: Sys, key: Key)
    requires Sound(sys.cfg, sys.sh)
    ensures var b := BucketOf(sys.sh.table, key);
            b != -1 ==> 0 <= b < |sys.sh.table| && key in Contents(sys.sh.table)
                        && Contents(sys.sh.table)[key].cost == sys.sh.table[b].cost
  {
    var b := BucketOf(sys.sh.table, key);
    if b != -1 { ContentsAt(sys.sh.table, b, key); }
  }

  lemma GetMoves(sys: Sys, tid: nat, ch: Choice, cmax: nat)
    requires Sized(sys) && tid < |sys.threads| && Frugal(sys, ch, cmax) && sys.threads[tid].pc.GetTry?
    ensures var m := LookupStep(sys, sys.threads[tid], ch);
            m.Move? ==> !m.e.Rewrite? && !m.e.AddCost? && (m.e.Insert? ==> 0 <= m.e.cost <= cmax)
  {
    hide AssertsHold, BucketOf, FreeChoice;
  }

  /** The costs stay non-negative. */
  lemma CostsKept(sys: Sys, sys': Sys, tid: nat, ch: Choice, cmax: nat)
    requires Inv(sys) && Steps(sys, sys', tid, ch) && Frugal(sys, ch, cmax) && CostsOk(sys)
    ensures CostsOk(sys')
  {
    hide Inv, Sound, IndexOk, LruOk, Contents, Enabled, Apply, Step, Frugal;
    var m := Step(sys, sys.threads[tid], ch);
    StepIsFit(sys, tid, ch);
    CostMoves(sys, tid, ch, cmax);
    SoundIndex(sys);
    EffectOnMap(sys.cfg, sys.sh, m.e);
    forall key | key in Contents(sys'.sh.table) ensures 0 <= Contents(sys'.sh.table)[key].cost {
      EntryCostStaysNonNegative(sys.cfg, sys.sh, m.e, key);
    }
    assert 0 <= Pending(m.th.pc) by {
      PendingIn(sys, tid);
      UnlinkedCost(sys.cfg, sys.sh, m.e);
      AddCostEnds(sys, sys.threads[tid], ch);
    }
  }

  lemma EntryCostStaysNonNegative(cfg: Config, s: Shared, e: Effect, key: Key)
    requires IndexOk(cfg, s) && Enabled(cfg, s, e) && key in MapAfter(s.table, e)
    requires key in Contents(s.table) ==> 0 <= Contents(s.table)[key].cost
    requires e.Insert? || e.Rewrite? ==> 0 <= e.cost
    ensures 0 <= MapAfter(s.table, e)[key].cost
  {
    hide IndexOk, Contents;
    if IsInPlace(e) { EntryAt(cfg, s, e.b); }
  }

  lemma AddCostEnds(sys: Sys, th: Thread, ch: Choice)
    requires Sized(sys) && Step(sys, th, ch).Move?
    ensures Step(sys, th, ch).e.AddCost? ==> Pending(Step(sys, th, ch).th.pc) == 0
  {
    hide AssertsHold, BucketOf, FreeChoice;
  }

  lemma UnlinkedCost(cfg: Config, s: Shared, e: Effect)
    requires IndexOk(cfg, s) && Enabled(cfg, s, e)
    ensures e.Unlink? ==> s.table[e.b].key in Contents(s.table)
                          && Contents(s.table)[s.table[e.b].key].cost == s.table[e.b].cost
  {
    hide IndexOk, Contents;
    if e.Unlink? { EntryAt(cfg, s, e.b); }
  }

  lemma {:induction false} ArmedAtMost(ts: seq<Thread>)
    ensures 0 <= Sum(ts, ArmedOf()) <= |ts|
  {
    if ts != [] { ArmedAtMost(ts[1..]); }
  }

  lemma CostAfter(cfg: Config, s: Shared, e: Effect)
    requires IndexOk(cfg, s) && Enabled(cfg, s, e)
    ensures Apply(cfg, s, e).cost == s.cost +
              match e {
                case Insert(_, _, cost, _, _) => cost
                case AddCost(d) => d
                case Rewrite(b, cost, _) => cost - s.table[b].cost
                case _ => 0 }
  {}

  lemma QuotaKept(sys: Sys, sys': Sys, tid: nat, ch: Choice, cmax: nat)
    requires Inv(sys) && Steps(sys, sys', tid, ch) && Frugal(sys, ch, cmax) && CostsOk(sys) && QuotaOk(sys, cmax)
    ensures QuotaOk(sys', cmax)
  {
    hide Inv, Sound, IndexOk, LruOk, Contents, Enabled, Apply, Step, Frugal, CostsOk, Sum;
    var m, ts := Step(sys, sys.threads[tid], ch), sys.threads;
    StepIsFit(sys, tid, ch);
    CostMoves(sys, tid, ch, cmax);
    SoundIndex(sys);
    CostAfter(sys.cfg, sys.sh, m.e);
    SumUpdate(ts, ArmedOf(), tid, m.th);
    ArmedAtMost(sys'.threads);
    if m.th.pc.GetTry? {
      ArmedOnlyBelow(sys, ts[tid], ch);
      ScaleMonotone(Sum(sys'.threads, ArmedOf()), |ts|, cmax);
    } else if ts[tid].pc.GetTry? {
      ScaleLess(Sum(ts, ArmedOf()), cmax);
    }
  }

  lemma ScaleMonotone(a: nat, b: nat, c: nat)
    requires a <= b
    ensures a * c <= b * c
  {}

  lemma ScaleLess(a: int, c: nat)
    ensures (a - 1) * c == a * c - c
  {}

  ghost predicate IsFrugal(r: Run, cmax: nat)
    requires IsRun(r)
  {
    forall i :: 0 <= i < |r.tids| ==> Frugal(r.states[i], r.choices[i], cmax)
  }

  lemma QuotaStarts(sys: Sys, cmax: nat)
    requires Start(sys) && 0 <= sys.cfg.quota
    ensures QuotaOk(sys, cmax) && CostsOk(sys)
  {
    forall th | th in sys.threads ensures ArmedOf()(th) == 0 {
      var i :| 0 <= i < |sys.threads| && sys.threads[i] == th;
      assert Fresh(sys.threads[i]);
    }
    SumZero(sys.threads, ArmedOf());
    ScaleMonotone(0, |sys.threads|, cmax);
  }

  lemma {:induction false} QuotaHolds(r: Run, n: nat, cmax: nat)
    requires IsRun(r) && IsFrugal(r, cmax) && n < |r.states| && 0 <= r.states[0].cfg.quota
    ensures QuotaOk(r.states[n], cmax) && CostsOk(r.states[n])
    ensures r.states[n].cfg == r.states[0].cfg && |r.states[n].threads| == |r.states[0].threads|
  {
    hide Inv, Steps, QuotaOk, CostsOk, Start;
    if n == 0 {
      QuotaStarts(r.states[0], cmax);
    } else {
      QuotaHolds(r, n - 1, cmax);
      RunsAreSafe(r, n - 1);
      RunSteps(r, n - 1);
      CostsKept(r.states[n-1], r.states[n], r.tids[n-1], r.choices[n-1], cmax);
      QuotaKept(r.states[n-1], r.states[n], r.tids[n-1], r.choices[n-1], cmax);
      ThreadsMove(r.states[n-1], r.states[n], r.tids[n-1], r.choices[n-1]);
    }
  }

  /** However T threads interleave, the cost never exceeds 0.8 of the quota by more than T allocations. */
  lemma QuotaBound(r: Run, n: nat, cmax: nat)
    requires IsRun(r) && IsFrugal(r, cmax) && n < |r.states| && 0 <= r.states[0].cfg.quota
    ensures r.states[n].sh.cost as real <= 0.8 * r.states[0].cfg.quota as real + (|r.states[0].threads| * cmax) as real
  {
    QuotaHolds(r, n, cmax);
    ArmedAtMost(r.states[n].threads);
    ScaleMonotone(0, Sum(r.states[n].threads, ArmedOf()), cmax);
  }

  // ---------------------------------------------------------------------------------------------
  // What dt_cache_gc has seen when it answers
  // ---------------------------------------------------------------------------------------------

  /** The thread is inside a call of dt_cache_gc for caller. */
  predicate GcFor(pc: Pc, caller: Caller) {
    match pc
    case GcStart(c) => c == caller
    case GcLook(c, _, _) => c == caller
    case GcLookAgain(c) => c == caller
    case GcPeek(c, _, _) => c == caller
    case GcNext(c, _, _) => c == caller
    case RemoveTry(_, ret) => ret.ToGc? && ret.caller == caller
    case RemoveLru(_, _, ret) => ret.ToGc? && ret.caller == caller
    case RemoveCost(_, ret) => ret.ToGc? && ret.caller == caller
    case _ => false
  }

  /** The same, or, for dt_cache_read_get, in between two passes of its loop. */
  predicate CallFor(pc: Pc, caller: Caller) {
    GcFor(pc, caller) || (caller.ForRead? && pc == GetTry(caller.key))
  }

  predicate BeginsCall(ch: Choice, caller: Caller) {
    if caller.Alone? then ch == Collect(caller.ratio) else ch == Read(caller.key)
  }

  function PcAt(r: Run, i: nat, tid: nat): Pc {
    if i < |r.states| && tid < |r.states[i].threads| then r.states[i].threads[tid].pc else Idle
  }

  lemma GcGoesOn(sys: Sys, th: Thread)
    requires Sized(sys)
    ensures forall caller :: var m := GcStep(sys, th); m.Move? && CallFor(m.th.pc, caller) ==> GcFor(th.pc, caller)
    ensures var m := GcStep(sys, th);
            m.Move? && m.th.pc.GetTry? ==>
              GcFor(th.pc, ForRead(m.th.pc.key)) && !TooFull(sys.sh.cost, 0.8, sys.cfg.quota)
    ensures var m := GcStep(sys, th);
            m.Move? && m.th.pc.GcTold? ==>
              exists ratio ::
                GcFor(th.pc, Alone(ratio)) && (m.th.pc.failed <==> TooFull(sys.sh.cost, ratio, sys.cfg.quota))
  {
    if GcStep(sys, th).Move? && GcStep(sys, th).th.pc.GcTold? { assert GcFor(th.pc, Alone(th.pc.caller.ratio)); }
  }

  // The sections outside of dt_cache_gc

  lemma RemoveGoesOn(sys: Sys, th: Thread)
    ensures var m := RemoveStep(sys, th);
            m.Move? ==> !m.th.pc.GetTry? && !m.th.pc.GcTold?
                        && forall caller :: GcFor(m.th.pc, caller) ==> GcFor(th.pc, caller)
  {
    hide BucketOf;
  }

  lemma LookupGoesOn(sys: Sys, th: Thread, ch: Choice)
    requires Sized(sys)
    ensures var m := LookupStep(sys, th, ch);
            m.Move? ==> !m.th.pc.GetTry? && !m.th.pc.GcTold?
                        && forall caller :: GcFor(m.th.pc, caller) ==> CallFor(th.pc, caller)
  {
    hide AssertsHold, BucketOf, FreeChoice;
  }

  lemma ScanGoesOn(sys: Sys, th: Thread)
    requires Sized(sys)
    ensures var m := ScanStep(sys, th);
            m.Move? ==> !m.th.pc.GetTry? && !m.th.pc.GcTold? && forall caller :: !GcFor(m.th.pc, caller)
  {}

  lemma ClientGoesOn(sys: Sys, th: Thread, ch: Choice)
    requires th.pc.Idle?
    ensures var m := Client(sys, th, ch);
            m.Move? ==> !m.th.pc.GetTry? && !m.th.pc.GcTold?
                        && forall caller :: GcFor(m.th.pc, caller) ==> BeginsCall(ch, caller)
  {
    hide AssertsHold, BucketOf;
  }

  /** Where a thread that is at work for caller, or that is about to answer, comes from. */
  lemma StepGoesOn(sys: Sys, th: Thread, ch: Choice, caller: Caller)
    requires Sized(sys) && Step(sys, th, ch).Move?
    ensures var m := Step(sys, th, ch);
            CallFor(m.th.pc, caller) ==> CallFor(th.pc, caller) || (th.pc.Idle? && BeginsCall(ch, caller))
    ensures var m := Step(sys, th, ch);
            m.th.pc.GetTry? ==> GcFor(th.pc, ForRead(m.th.pc.key)) && !TooFull(sys.sh.cost, 0.8, sys.cfg.quota)
    ensures var m := Step(sys, th, ch);
            m.th.pc.GcTold? ==>
              exists ratio ::
                GcFor(th.pc, Alone(ratio)) && (m.th.pc.failed <==> TooFull(sys.sh.cost, ratio, sys.cfg.quota))
  {
    hide GcStep, RemoveStep, LookupStep, ScanStep, Client, BeginsCall, TooFull;
    GcGoesOn(sys, th);
    RemoveGoesOn(sys, th);
    LookupGoesOn(sys, th, ch);
    ScanGoesOn(sys, th);
    if th.pc.Idle? { ClientGoesOn(sys, th, ch); }
  }

  /** One step of a run, for thread tid. */
  lemma PcMoves(r: Run, i: nat, tid: nat)
    requires IsRun(r) && i < |r.tids| && tid < |r.states[i+1].threads|
    ensures tid < |r.states[i].threads|
    ensures r.tids[i] != tid ==> PcAt(r, i + 1, tid) == PcAt(r, i, tid)
    ensures r.tids[i] == tid ==>
              var sys, th := r.states[i], r.states[i].threads[tid];
              Sized(sys) && Step(sys, th, r.choices[i]).Move?
              && PcAt(r, i + 1, tid) == Step(sys, th, r.choices[i]).th.pc
  {
    hide Step, Start, Sound, Enabled, Apply;
    RunSteps(r, i);
  }

  lemma StartsIdle(r: Run, tid: nat)
    requires IsRun(r) && tid < |r.states[0].threads|
    ensures PcAt(r, 0, tid) == Idle
  {
    assert Fresh(r.states[0].threads[tid]);
  }

  /** A thread that is at work for caller has been since it was called. */
  lemma {:induction false} CallBegins(r: Run, n: nat, tid: nat, caller: Caller) returns (l: nat)
    requires IsRun(r) && n < |r.states| && tid < |r.states[n].threads| && CallFor(PcAt(r, n, tid), caller)
    ensures l < n && r.tids[l] == tid && PcAt(r, l, tid) == Idle && BeginsCall(r.choices[l], caller)
    ensures forall i :: l < i <= n ==> CallFor(PcAt(r, i, tid), caller)
  {
    hide IsRun, CallFor, Step, BeginsCall;
    NoCallIsIdle(caller);
    if n == 0 {
      StartsIdle(r, tid);
      assert false;
    } else {
      RunSizes(r);
      PcMoves(r, n - 1, tid);
      if r.tids[n-1] == tid { StepGoesOn(r.states[n-1], r.states[n-1].threads[tid], r.choices[n-1], caller); }
      if CallFor(PcAt(r, n - 1, tid), caller) {
        l := CallBegins(r, n - 1, tid, caller);
      } else {
        l := n - 1;
      }
    }
  }

  lemma NoCallIsIdle(caller: Caller)
    ensures !CallFor(Idle, caller)
  {}

  lemma RunSizes(r: Run)
    requires IsRun(r)
    ensures r.states != [] && |r.tids| == |r.choices| == |r.states| - 1
  {}

  /** A reader that dt_cache_gc has let through, whatever has happened since, saw the cost at or below 0.8 of the
      quota during this very call of dt_cache_read_get, when it was let through. */
  lemma {:induction false} ReaderSawRoom(r: Run, n: nat, tid: nat) returns (l: nat, m: nat)
    requires IsRun(r) && n < |r.states| && tid < |r.states[n].threads| && PcAt(r, n, tid).GetTry?
    ensures var key := PcAt(r, n, tid).key;
            && l < m < n && r.tids[l] == tid && PcAt(r, l, tid) == Idle && r.choices[l] == Read(key)
            && (forall i :: l < i <= m ==> CallFor(PcAt(r, i, tid), ForRead(key)))
            && GcFor(PcAt(r, m, tid), ForRead(key)) && !TooFull(r.states[m].sh.cost, 0.8, r.states[m].cfg.quota)
            && (forall i :: m < i <= n ==> PcAt(r, i, tid) == GetTry(key))
  {
    hide IsRun, Step, TooFull, GcFor;
    RunSizes(r);
    if n == 0 {
      StartsIdle(r, tid);
      assert false;
    } else {
      PcMoves(r, n - 1, tid);
      if r.tids[n-1] == tid {
        var key := PcAt(r, n, tid).key;
        StepGoesOn(r.states[n-1], r.states[n-1].threads[tid], r.choices[n-1], ForRead(key));
        m := n - 1;
        l := CallBegins(r, m, tid, ForRead(key));
      } else {
        l, m := ReaderSawRoom(r, n - 1, tid);
      }
    }
  }

  /** When dt_cache_gc answers a client, 0 says that it has seen the cost at or below the ratio that it was called
      with, and 1 that it has seen the cost above, with its last look during this call. */
  lemma {:induction false} GcAnswersTruly(r: Run, n: nat, tid: nat) returns (l: nat, m: nat, ratio: real)
    requires IsRun(r) && n < |r.states| && tid < |r.states[n].threads| && PcAt(r, n, tid).GcTold?
    ensures l < m < n && r.tids[l] == tid && PcAt(r, l, tid) == Idle && r.choices[l] == Collect(ratio)
    ensures forall i :: l < i <= m ==> GcFor(PcAt(r, i, tid), Alone(ratio))
    ensures forall i :: m < i <= n ==> PcAt(r, i, tid) == PcAt(r, n, tid)
    ensures PcAt(r, n, tid).failed <==> TooFull(r.states[m].sh.cost, ratio, r.states[m].cfg.quota)
  {
    hide IsRun, Step, TooFull, GcFor;
    RunSizes(r);
    if n == 0 {
      StartsIdle(r, tid);
      assert false;
    } else {
      PcMoves(r, n - 1, tid);
      if r.tids[n-1] == tid {
        m := n - 1;
        var sys, th := r.states[m], r.states[m].threads[tid];
        StepGoesOn(sys, th, r.choices[m], Alone(0.0));
        ratio :| GcFor(th.pc, Alone(ratio))
                 && (PcAt(r, n, tid).failed <==> TooFull(sys.sh.cost, ratio, sys.cfg.quota));
        l := CallBegins(r, m, tid, Alone(ratio));
      } else {
        l, m, ratio := GcAnswersTruly(r, n - 1, tid);
      }
    }
  }

  // ---------------------------------------------------------------------------------------------
  // Every collection ends
  // ---------------------------------------------------------------------------------------------

  predicate Collecting(pc: Pc) {
    InGc(pc) || (pc.RemoveTry? && pc.ret.ToGc?) || (pc.RemoveLru? && pc.ret.ToGc?) || (pc.RemoveCost? && pc.ret.ToGc?)
  }

  /** How many of its own steps a thread can still take inside dt_cache_gc. */
  function GcRank(cfg: Config, pc: Pc): int {
    match pc
    case GcStart(_) => 6 * (cfg.segSize + 3)
    case GcLook(_, _, i) => 6 * (cfg.segSize + 2 - i) + 5
    case GcPeek(_, _, i) => 6 * (cfg.segSize + 2 - i) + 4
    case RemoveTry(_, ret) => if ret.ToGc? then 6 * (cfg.segSize + 2 - ret.i) + 3 else 0
    case RemoveLru(_, _, ret) => if ret.ToGc? then 6 * (cfg.segSize + 2 - ret.i) + 2 else 0
    case RemoveCost(_, ret) => if ret.ToGc? then 6 * (cfg.segSize + 2 - ret.i) + 1 else 0
    case GcNext(_, _, i) => 6 * (cfg.segSize + 2 - i)
    case GcLookAgain(_) => 1
    case _ => 0
  }

  /** Each step inside dt_cache_gc either leaves it or brings its end nearer, whatever the others do. */
  lemma GcTerminates(sys: Sys, tid: nat, ch: Choice)
    requires Inv(sys) && tid < |sys.threads| && Collecting(sys.threads[tid].pc)
    ensures Sized(sys)
    ensures var th, m := sys.threads[tid], Step(sys, sys.threads[tid], ch);
            && m.Move?
            && 0 < GcRank(sys.cfg, th.pc)
            && (Collecting(m.th.pc) && !m.th.pc.GcStart? ==> GcRank(sys.cfg, m.th.pc) < GcRank(sys.cfg, th.pc))
  {
    hide Inv, Sound, BucketOf;
    InvIs(sys, tid);
  }
}
