/** The walk of dt_cache_gc among other threads: what it has met, round by round, when it answers. */
module CacheWalk {
  import opened CacheModel
  import opened CacheEffects
  import opened CacheSequential
  import opened Cache
  import opened CacheProtocol
  import opened CacheSafety
  import opened CacheRuns
  import opened CacheSections

  /** One round of the loop of dt_cache_gc, which looks at bucket curr: the steps of the run at which it looked at the
      cost, read the key of the bucket, tried to remove the key, and read the next bucket; and where it goes on. */
  datatype Round = Round(curr: nat, look: nat, peek: nat, try: nat, move: nat, end: nat, next: int)

  /** Step j is one of thread tid, which stood at pc. */
  predicate Own(r: Run, j: nat, tid: nat, pc: Pc) {
    j < |r.tids| && j + 1 < |r.states| && r.tids[j] == tid && PcAt(r, j, tid) == pc
  }

  ghost function Map(r: Run, j: nat): map<Key, Entry>
    requires j < |r.states|
  {
    Contents(r.states[j].sh.table)
  }

  ghost predicate FullAt(r: Run, j: nat, caller: Caller) {
    j < |r.states| && TooFull(r.states[j].sh.cost, caller.Ratio(), r.states[j].cfg.quota)
  }

  /** In round k, bucket curr is looked at because the cost is too high. */
  ghost predicate Looks(r: Run, tid: nat, caller: Caller, k: nat, d: Round) {
    Own(r, d.look, tid, GcLook(caller, d.curr, k)) && FullAt(r, d.look, caller)
  }

  /** Its key is read. */
  ghost predicate Peeks(r: Run, tid: nat, caller: Caller, k: nat, d: Round) {
    && d.look < d.peek && Own(r, d.peek, tid, GcPeek(caller, d.curr, k)) && d.curr < |r.states[d.peek].sh.table|
  }

  ghost function KeySeen(r: Run, d: Round): Key
    requires d.peek < |r.states| && d.curr < |r.states[d.peek].sh.table|
  {
    r.states[d.peek].sh.table[d.curr].key
  }

  /** The key that was read is looked up. */
  ghost predicate Tries(r: Run, tid: nat, caller: Caller, k: nat, d: Round)
    requires d.peek < |r.states| && d.curr < |r.states[d.peek].sh.table|
  {
    && KeySeen(r, d) != EMPTY
    && d.peek < d.try && Own(r, d.try, tid, RemoveTry(KeySeen(r, d), ToGc(caller, d.curr, k)))
  }

  /** What was looked up is stored, and nobody has it locked: it is removed. */
  ghost predicate Evicts(r: Run, d: Round, key: Key) {
    && d.try + 1 < |r.states| && key in Map(r, d.try) && !IsLocked(Map(r, d.try)[key])
    && Map(r, d.try + 1) == Map(r, d.try) - {key}
  }

  /** It is locked, or not stored any more. */
  ghost predicate CannotEvict(r: Run, d: Round, key: Key) {
    d.try < |r.states| && (key !in Map(r, d.try) || IsLocked(Map(r, d.try)[key]))
  }

  /** The next bucket of the list is read. */
  predicate Moves(r: Run, tid: nat, caller: Caller, k: nat, d: Round) {
    && Own(r, d.move, tid, GcNext(caller, d.curr, k)) && d.curr < |r.states[d.move].sh.table|
    && d.next == r.states[d.move].sh.table[d.curr].mru
  }

  /** A whole round: the bucket was free when its key was read; or the key that it stored was removed, and the round
      ends where it was; or that key was locked or not stored any more when it was looked up. */
  ghost predicate RoundOk(r: Run, tid: nat, caller: Caller, k: nat, d: Round) {
    && Looks(r, tid, caller, k, d) && Peeks(r, tid, caller, k, d)
    && if KeySeen(r, d) == EMPTY then d.peek < d.move == d.end && Moves(r, tid, caller, k, d)
       else
         && Tries(r, tid, caller, k, d)
         && if Evicts(r, d, KeySeen(r, d)) then d.end == d.try && d.next == d.curr
            else CannotEvict(r, d, KeySeen(r, d)) && d.try < d.move == d.end && Moves(r, tid, caller, k, d)
  }

  /** Where the walk that began at step l stands after the rounds ds. */
  function Cursor(r: Run, l: nat, ds: seq<Round>): int
    requires l < |r.states|
  {
    if ds == [] then r.states[l].sh.lru else ds[|ds|-1].next
  }

  /** The step after which the next round can begin. */
  function Since(l: nat, ds: seq<Round>): nat {
    if ds == [] then l else ds[|ds|-1].end
  }

  /** The rounds of one call of dt_cache_gc, which began at step l: one after the other, each at the bucket where the
      one before has left off. */
  ghost predicate Walk(r: Run, tid: nat, caller: Caller, l: nat, ds: seq<Round>) {
    && Own(r, l, tid, GcStart(caller))
    && forall k {:trigger WalkAt(r, tid, caller, l, ds, k)} :: 0 <= k < |ds| ==> WalkAt(r, tid, caller, l, ds, k)
  }

  ghost predicate WalkAt(r: Run, tid: nat, caller: Caller, l: nat, ds: seq<Round>, k: nat)
    requires k < |ds|
  {
    && l < |r.states| && RoundOk(r, tid, caller, k, ds[k])
    && ds[k].curr == Cursor(r, l, ds[..k]) && Since(l, ds[..k]) < ds[k].look
  }

  /** How far the round under way, d, has come at step n, when the thread stands at pc. */
  ghost predicate Midway(r: Run, tid: nat, caller: Caller, l: nat, ds: seq<Round>, d: Round, n: nat, pc: Pc)
    requires l < |r.states|
  {
    match pc
    case GcLook(c, next, i) => c == caller && next == Cursor(r, l, ds) && i == |ds|
    case GcLookAgain(c) => c == caller && d.look < n && LastLook(r, tid, caller, l, ds, d.look)
    case GcPeek(c, curr, i) => Begun(r, tid, caller, l, ds, d, n, c, curr, i)
    case RemoveTry(key, ToGc(c, curr, i)) =>
      && Begun(r, tid, caller, l, ds, d, n, c, curr, i) && d.peek < n && Peeks(r, tid, caller, i, d)
      && key == KeySeen(r, d) != EMPTY
    case GcNext(c, curr, i) =>
      && Begun(r, tid, caller, l, ds, d, n, c, curr, i) && d.peek < n && Peeks(r, tid, caller, i, d)
      && (KeySeen(r, d) != EMPTY ==> d.try < n && Tries(r, tid, caller, i, d) && CannotEvict(r, d, KeySeen(r, d)))
    case RemoveLru(_, _, ToGc(c, curr, i)) => Evicting(r, tid, caller, l, ds, d, n, c, curr, i)
    case RemoveCost(_, ToGc(c, curr, i)) => Evicting(r, tid, caller, l, ds, d, n, c, curr, i)
    case _ => false
  }

  /** At step j the walk found the cost too high and the list at its end, or its limit reached. */
  ghost predicate LastLook(r: Run, tid: nat, caller: Caller, l: nat, ds: seq<Round>, j: nat)
    requires l < |r.states|
  {
    && Since(l, ds) < j && Own(r, j, tid, GcLook(caller, Cursor(r, l, ds), |ds|)) && FullAt(r, j, caller)
    && (Cursor(r, l, ds) < 0 || |ds| > r.states[j].cfg.segSize)
  }

  ghost predicate Begun(r: Run, tid: nat, caller: Caller, l: nat, ds: seq<Round>, d: Round, n: nat, c: Caller,
                        curr: nat, i: nat)
    requires l < |r.states|
  {
    && c == caller && i == |ds| && curr == d.curr == Cursor(r, l, ds)
    && Since(l, ds) < d.look < n && Looks(r, tid, caller, |ds|, d)
  }

  ghost predicate Evicting(r: Run, tid: nat, caller: Caller, l: nat, ds: seq<Round>, d: Round, n: nat, c: Caller,
                           curr: nat, i: nat)
    requires l < |r.states|
  {
    && Begun(r, tid, caller, l, ds, d, n, c, curr, i) && d.peek < d.try < n
    && Peeks(r, tid, caller, i, d) && Tries(r, tid, caller, i, d) && Evicts(r, d, KeySeen(r, d))
  }

  /** The walk so far, at step n. */
  ghost predicate WalkTo(r: Run, tid: nat, caller: Caller, l: nat, ds: seq<Round>, d: Round, n: nat) {
    && l < n < |r.states| && Since(l, ds) < n && Walk(r, tid, caller, l, ds)
    && Midway(r, tid, caller, l, ds, d, n, PcAt(r, n, tid))
  }

  // ---------------------------------------------------------------------------------------------
  // The walk goes on
  // ---------------------------------------------------------------------------------------------

  /** A finished round is added to the walk. */
  lemma Extends(r: Run, tid: nat, caller: Caller, l: nat, ds: seq<Round>, d: Round)
    requires l < |r.states| && Walk(r, tid, caller, l, ds) && RoundOk(r, tid, caller, |ds|, d)
    requires d.curr == Cursor(r, l, ds) && Since(l, ds) < d.look
    ensures Walk(r, tid, caller, l, ds + [d])
    ensures Cursor(r, l, ds + [d]) == d.next && Since(l, ds + [d]) == d.end
  {
    hide RoundOk, Own;
    var es := ds + [d];
    forall k | 0 <= k < |es| ensures WalkAt(r, tid, caller, l, es, k) {
      assert es[..k] == if k < |ds| then ds[..k] else ds;
      if k < |ds| { assert WalkAt(r, tid, caller, l, ds, k); }
    }
  }

  /** Another thread's step leaves the walk where it is. */
  lemma WalkWaits(r: Run, tid: nat, caller: Caller, l: nat, ds: seq<Round>, d: Round, n: nat)
    requires WalkTo(r, tid, caller, l, ds, d, n) && n + 1 < |r.states| && PcAt(r, n + 1, tid) == PcAt(r, n, tid)
    ensures WalkTo(r, tid, caller, l, ds, d, n + 1)
  {
    hide Walk, Own, Peeks, Tries, Evicts, CannotEvict, Looks, FullAt;
  }

  /** What thread tid does in step n of the run. */
  lemma OwnMove(r: Run, n: nat, tid: nat)
    requires IsRun(r) && n < |r.tids| && r.tids[n] == tid
    ensures n + 1 < |r.states| && n < |r.choices| && tid < |r.states[n].threads| && Sized(r.states[n])
    ensures Inv(r.states[n]) && Steps(r.states[n], r.states[n+1], tid, r.choices[n])
    ensures var m := Step(r.states[n], r.states[n].threads[tid], r.choices[n]);
            m.Move? && PcAt(r, n + 1, tid) == m.th.pc && PcAt(r, n, tid) == r.states[n].threads[tid].pc
  {
    hide Inv, Step, Start, Sound, Enabled, Apply;
    RunSteps(r, n);
    RunsAreSafe(r, n);
  }

  lemma WalkBegins(r: Run, n: nat, tid: nat, caller: Caller, d: Round)
    requires IsRun(r) && n < |r.tids| && r.tids[n] == tid && PcAt(r, n, tid) == GcStart(caller)
    ensures WalkTo(r, tid, caller, n, [], d, n + 1)
  {
    hide IsRun, Inv, Steps, LookupStep, ScanStep, RemoveStep, Client;
    OwnMove(r, n, tid);
  }

  lemma WalkLooks(r: Run, n: nat, tid: nat, caller: Caller, l: nat, ds: seq<Round>, d: Round) returns (d': Round)
    requires IsRun(r) && WalkTo(r, tid, caller, l, ds, d, n) && n < |r.tids| && r.tids[n] == tid
    requires PcAt(r, n, tid).GcLook? && GcFor(PcAt(r, n + 1, tid), caller) && !PcAt(r, n + 1, tid).GcStart?
    ensures WalkTo(r, tid, caller, l, ds, d', n + 1)
  {
    hide IsRun, Inv, Steps, LookupStep, ScanStep, RemoveStep, Client, Walk;
    OwnMove(r, n, tid);
    var next := PcAt(r, n, tid).next;
    d' := d.(curr := if next < 0 then 0 else next, look := n);
  }

  lemma WalkPeeks(r: Run, n: nat, tid: nat, caller: Caller, l: nat, ds: seq<Round>, d: Round) returns (d': Round)
    requires IsRun(r) && WalkTo(r, tid, caller, l, ds, d, n) && n < |r.tids| && r.tids[n] == tid
    requires PcAt(r, n, tid).GcPeek?
    ensures WalkTo(r, tid, caller, l, ds, d', n + 1)
  {
    hide IsRun, Inv, Steps, LookupStep, ScanStep, RemoveStep, Client, Walk;
    OwnMove(r, n, tid);
    d' := d.(peek := n);
  }

  lemma WalkTries(r: Run, n: nat, tid: nat, caller: Caller, l: nat, ds: seq<Round>, d: Round) returns (d': Round)
    requires IsRun(r) && WalkTo(r, tid, caller, l, ds, d, n) && n < |r.tids| && r.tids[n] == tid
    requires PcAt(r, n, tid).RemoveTry?
    ensures WalkTo(r, tid, caller, l, ds, d', n + 1)
  {
    hide IsRun, Inv, Steps, Step, Walk, Contents, BucketOf;
    OwnMove(r, n, tid);
    RemoveAnswers(r.states[n], r.states[n+1], tid, r.choices[n]);
    d' := d.(try := n);
  }

  lemma WalkRemoves(r: Run, n: nat, tid: nat, caller: Caller, l: nat, ds: seq<Round>, d: Round)
    requires IsRun(r) && WalkTo(r, tid, caller, l, ds, d, n) && n < |r.tids| && r.tids[n] == tid
    requires PcAt(r, n, tid).RemoveLru?
    ensures WalkTo(r, tid, caller, l, ds, d, n + 1)
  {
    hide IsRun, Inv, Steps, LookupStep, ScanStep, GcStep, Client, Walk, BucketOf, Evicts, Tries, Peeks, Looks;
    OwnMove(r, n, tid);
  }

  lemma WalkEvicted(r: Run, n: nat, tid: nat, caller: Caller, l: nat, ds: seq<Round>, d: Round)
    returns (es: seq<Round>)
    requires IsRun(r) && WalkTo(r, tid, caller, l, ds, d, n) && n < |r.tids| && r.tids[n] == tid
    requires PcAt(r, n, tid).RemoveCost?
    ensures WalkTo(r, tid, caller, l, es, d, n + 1)
  {
    hide IsRun, Inv, Steps, LookupStep, ScanStep, GcStep, Client, Walk, BucketOf, Contents;
    OwnMove(r, n, tid);
    var e := d.(end := d.try, next := d.curr);
    Extends(r, tid, caller, l, ds, e);
    es := ds + [e];
  }

  lemma WalkMoves(r: Run, n: nat, tid: nat, caller: Caller, l: nat, ds: seq<Round>, d: Round)
    returns (es: seq<Round>)
    requires IsRun(r) && WalkTo(r, tid, caller, l, ds, d, n) && n < |r.tids| && r.tids[n] == tid
    requires PcAt(r, n, tid).GcNext?
    ensures WalkTo(r, tid, caller, l, es, d, n + 1)
  {
    hide IsRun, Inv, Steps, LookupStep, ScanStep, RemoveStep, Client, Walk, BucketOf, Contents;
    OwnMove(r, n, tid);
    var e := d.(move := n, end := n, next := PcAt(r, n + 1, tid).next);
    Extends(r, tid, caller, l, ds, e);
    es := ds + [e];
  }

  // ---------------------------------------------------------------------------------------------
  // Every walk
  // ---------------------------------------------------------------------------------------------

  predicate InsideGc(pc: Pc, caller: Caller) {
    GcFor(pc, caller) && !pc.GcStart?
  }

  /** The thread is beyond the first step of one call of dt_cache_gc from step l to step n. */
  predicate Inside(r: Run, tid: nat, caller: Caller, l: nat, n: nat) {
    forall i :: l < i <= n ==> InsideGc(PcAt(r, i, tid), caller)
  }

  lemma OthersStartGc(sys: Sys, th: Thread, ch: Choice, caller: Caller)
    requires Sized(sys)
    ensures var m := LookupStep(sys, th, ch); m.Move? ==> !InsideGc(m.th.pc, caller)
    ensures th.pc.Idle? ==> var m := Client(sys, th, ch); m.Move? ==> !InsideGc(m.th.pc, caller)
  {
    hide AssertsHold, BucketOf, FreeChoice;
  }

  lemma LastLookLeaves(sys: Sys, th: Thread, caller: Caller)
    requires Sized(sys) && th.pc.GcLookAgain?
    ensures var m := GcStep(sys, th); m.Move? ==> !InsideGc(m.th.pc, caller)
  {}

  /** Only dt_cache_gc itself leads further into dt_cache_gc. */
  lemma ComesFromGc(sys: Sys, th: Thread, ch: Choice, caller: Caller)
    requires Sized(sys) && Step(sys, th, ch).Move? && InsideGc(Step(sys, th, ch).th.pc, caller)
    ensures GcFor(th.pc, caller) && !th.pc.GcLookAgain?
  {
    hide GcStep, RemoveStep, LookupStep, ScanStep, Client;
    OthersStartGc(sys, th, ch, caller);
    GcGoesOn(sys, th);
    RemoveGoesOn(sys, th);
    ScanGoesOn(sys, th);
    if th.pc.GcLookAgain? { LastLookLeaves(sys, th, caller); }
  }

  lemma WalkGoesOn(r: Run, n: nat, tid: nat, caller: Caller, l: nat, ds: seq<Round>, d: Round)
    returns (es: seq<Round>, e: Round)
    requires IsRun(r) && WalkTo(r, tid, caller, l, ds, d, n) && n < |r.tids| && r.tids[n] == tid
    requires InsideGc(PcAt(r, n, tid), caller) && InsideGc(PcAt(r, n + 1, tid), caller)
    ensures WalkTo(r, tid, caller, l, es, e, n + 1)
  {
    hide IsRun, WalkTo, Step;
    OwnMove(r, n, tid);
    ComesFromGc(r.states[n], r.states[n].threads[tid], r.choices[n], caller);
    es, e := ds, d;
    match PcAt(r, n, tid)
    case GcLook(_, _, _) => e := WalkLooks(r, n, tid, caller, l, ds, d);
    case GcPeek(_, _, _) => e := WalkPeeks(r, n, tid, caller, l, ds, d);
    case RemoveTry(_, _) => e := WalkTries(r, n, tid, caller, l, ds, d);
    case RemoveLru(_, _, _) => WalkRemoves(r, n, tid, caller, l, ds, d);
    case RemoveCost(_, _) => es := WalkEvicted(r, n, tid, caller, l, ds, d);
    case GcNext(_, _, _) => es := WalkMoves(r, n, tid, caller, l, ds, d);
  }

  /** Wherever a thread stands in dt_cache_gc, it has come there by such a walk, in this call. */
  lemma {:induction false} WalkOf(r: Run, n: nat, tid: nat, caller: Caller)
    returns (l: nat, ds: seq<Round>, d: Round)
    requires IsRun(r) && n < |r.states| && tid < |r.states[n].threads| && InsideGc(PcAt(r, n, tid), caller)
    ensures WalkTo(r, tid, caller, l, ds, d, n) && Inside(r, tid, caller, l, n)
  {
    hide IsRun, WalkTo, InsideGc, Step;
    RunSizes(r);
    if n == 0 {
      StartsIdle(r, tid);
      NotInside(caller);
      assert false;
    } else {
      PcMoves(r, n - 1, tid);
      if r.tids[n-1] != tid {
        l, ds, d := WalkOf(r, n - 1, tid, caller);
        WalkWaits(r, tid, caller, l, ds, d, n - 1);
      } else {
        ComesFromGc(r.states[n-1], r.states[n-1].threads[tid], r.choices[n-1], caller);
        if PcAt(r, n - 1, tid).GcStart? {
          l, ds, d := n - 1, [], Round(0, 0, 0, 0, 0, 0, 0);
          GcForStart(PcAt(r, n - 1, tid), caller);
          WalkBegins(r, n - 1, tid, caller, d);
        } else {
          InsideIs(PcAt(r, n - 1, tid), caller);
          l, ds, d := WalkOf(r, n - 1, tid, caller);
          ds, d := WalkGoesOn(r, n - 1, tid, caller, l, ds, d);
        }
      }
    }
  }

  lemma NotInside(caller: Caller)
    ensures !InsideGc(Idle, caller)
  {}

  lemma GcForStart(pc: Pc, caller: Caller)
    requires GcFor(pc, caller) && pc.GcStart?
    ensures pc == GcStart(caller)
  {}

  lemma InsideIs(pc: Pc, caller: Caller)
    requires GcFor(pc, caller) && !pc.GcStart?
    ensures InsideGc(pc, caller)
  {}

  /** A thread that is about to be told 1 by dt_cache_gc, or about to look a last time, has in this call walked to the
      end of the list, or through segSize + 1 rounds.  In each round it has met a free bucket, or has removed
      the key that it saw in the bucket, or has found that key locked or not stored any more. */
  lemma GcHasWalked(r: Run, n: nat, tid: nat, caller: Caller) returns (l: nat, ds: seq<Round>, f: nat)
    requires IsRun(r) && Own(r, n, tid, GcLookAgain(caller)) && tid < |r.states[n].threads|
    ensures Walk(r, tid, caller, l, ds) && Since(l, ds) < f < n && Inside(r, tid, caller, l, n)
    ensures LastLook(r, tid, caller, l, ds, f)
    ensures PcAt(r, n + 1, tid) == AfterGc(caller, FullAt(r, n, caller))
  {
    hide IsRun, Inv, Steps, LookupStep, ScanStep, RemoveStep, Client, Walk, Inside, LastLook;
    var d;
    l, ds, d := WalkOf(r, n, tid, caller);
    f := d.look;
    SinceBefore(r, tid, caller, l, ds, f);
    OwnMove(r, n, tid);
  }

  lemma SinceBefore(r: Run, tid: nat, caller: Caller, l: nat, ds: seq<Round>, j: nat)
    requires l < |r.states| && LastLook(r, tid, caller, l, ds, j)
    ensures Since(l, ds) < j
  {}

  /** Being told 1 is being told so after a last look, which found the cost too high. */
  lemma {:induction false} ToldOneHasWalked(r: Run, n: nat, tid: nat)
    returns (ratio: real, l: nat, ds: seq<Round>, f: nat, m: nat)
    requires IsRun(r) && n < |r.states| && tid < |r.states[n].threads| && PcAt(r, n, tid) == GcTold(true)
    ensures m < n && Own(r, m, tid, GcLookAgain(Alone(ratio))) && FullAt(r, m, Alone(ratio))
    ensures forall i :: m < i <= n ==> PcAt(r, i, tid) == GcTold(true)
    ensures Walk(r, tid, Alone(ratio), l, ds) && Since(l, ds) < f < m && Inside(r, tid, Alone(ratio), l, m)
    ensures LastLook(r, tid, Alone(ratio), l, ds, f)
  {
    hide IsRun, Step, Walk, LastLook, Inside, TooFull;
    RunSizes(r);
    if n == 0 {
      StartsIdle(r, tid);
      assert false;
    } else {
      PcMoves(r, n - 1, tid);
      if r.tids[n-1] != tid {
        ratio, l, ds, f, m := ToldOneHasWalked(r, n - 1, tid);
      } else {
        m := n - 1;
        ToldByLook(r.states[m], r.states[m].threads[tid], r.choices[m]);
        ratio := PcAt(r, m, tid).caller.ratio;
        l, ds, f := GcHasWalked(r, m, tid, Alone(ratio));
      }
    }
  }

  lemma ToldByLook(sys: Sys, th: Thread, ch: Choice)
    requires Sized(sys) && Step(sys, th, ch).Move? && Step(sys, th, ch).th.pc == GcTold(true)
    ensures th.pc.GcLookAgain? && th.pc.caller.Alone? && TooFull(sys.sh.cost, th.pc.caller.ratio, sys.cfg.quota)
  {
    hide RemoveStep, LookupStep, ScanStep, Client, TooFull;
    RemoveGoesOn(sys, th);
    LookupGoesOn(sys, th, ch);
    ScanGoesOn(sys, th);
    if th.pc.Idle? { ClientGoesOn(sys, th, ch); }
  }
}
