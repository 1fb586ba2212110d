/** The slots of the job scheduler (src/control/control.c): a stack of idle slots, a stack of queued ones, and the
    slots that workers hold while they run a job. */
module JobSlots {
  import opened Sequences

  const MAX_JOBS := 30

  // ---------------------------------------------------------------------------------------------
  // The stacks as values
  // ---------------------------------------------------------------------------------------------

  /** Both stacks with the top at the end, and the jobs in the slots. */
  datatype Pool<J> = Pool(idle: seq<int>, queued: seq<int>, jobs: seq<J>)

  predicate PoolOk<J>(p: Pool<J>) {
    && |p.jobs| == MAX_JOBS && |p.idle| + |p.queued| <= MAX_JOBS
    && (forall i :: 0 <= i < |p.idle| ==> 0 <= p.idle[i] < MAX_JOBS)
    && (forall i :: 0 <= i < |p.queued| ==> 0 <= p.queued[i] < MAX_JOBS)
  }

  predicate AnyMatch<J>(p: Pool<J>, test: J -> bool)
    requires PoolOk(p)
  {
    exists i :: 0 <= i < |p.queued| && test(p.jobs[p.queued[i]])
  }

  /** dt_control_add_job: test says which jobs count as equal to the new one. */
  function Add<J>(p: Pool<J>, test: J -> bool, stored: J): Pool<J>
    requires PoolOk(p)
  {
    if AnyMatch(p, test) || p.idle == [] then p
    else
      var k := |p.idle| - 1;
      Pool(p.idle[..k], p.queued + [p.idle[k]], p.jobs[p.idle[k] := stored])
  }

  /** The first critical section of dt_control_run_job. */
  function Take<J>(p: Pool<J>): Pool<J> {
    if p.queued == [] then p else p.(queued := p.queued[..|p.queued| - 1])
  }

  /** The last critical section of dt_control_run_job. */
  function GiveBack<J>(p: Pool<J>, slot: int): Pool<J> {
    p.(idle := p.idle + [slot])
  }

  /** The element at i moved to the end. */
  function ToTop(q: seq<int>, i: nat): (r: seq<int>)
    requires i < |q|
    ensures |r| == |q|
  {
    Cut(q, i) + [q[i]]
  }

  /** The loop of dt_control_revive_job, from index i on.  What follows a match moves down by one place, so the
      loop does not look at the element right behind it. */
  function ReviveFrom<J>(q: seq<int>, jobs: seq<J>, test: J -> bool, i: nat): (r: seq<int>)
    requires forall k :: 0 <= k < |q| ==> 0 <= q[k] < |jobs|
    ensures |r| == |q| && multiset(r) == multiset(q)
    decreases |q| - i
  {
    if i >= |q| then q
    else if test(jobs[q[i]]) then
      assert q == q[..i] + [q[i]] + q[i+1..];
      ReviveFrom(ToTop(q, i), jobs, test, i + 1)
    else ReviveFrom(q, jobs, test, i + 1)
  }

  function Revive<J>(p: Pool<J>, test: J -> bool): Pool<J>
    requires PoolOk(p)
  {
    p.(queued := ReviveFrom(p.queued, p.jobs, test, 0))
  }

  /** Before index i of the loop: q is what the queue has become, found the last match. */
  ghost predicate Reviving<J>(p: Pool<J>, test: J -> bool, q: seq<int>, i: nat, found: int)
    requires PoolOk(p)
  {
    && |q| == |p.queued| && i <= |q| && (forall k :: 0 <= k < |q| ==> 0 <= q[k] < MAX_JOBS)
    && ReviveFrom(q, p.jobs, test, i) == Revive(p, test).queued
    && if found == -1 then q == p.queued && forall k :: 0 <= k < i ==> !test(p.jobs[p.queued[k]])
       else q != [] && q[|q| - 1] == found && 0 <= found < MAX_JOBS && test(p.jobs[found]) && AnyMatch(p, test)
  }

  lemma RevivingStarts<J>(p: Pool<J>, test: J -> bool)
    requires PoolOk(p)
    ensures Reviving(p, test, p.queued, 0, -1)
  {}

  lemma RevivingIs<J>(p: Pool<J>, test: J -> bool, q: seq<int>, i: nat, found: int)
    requires PoolOk(p) && Reviving(p, test, q, i, found) && i < |q|
    ensures |p.jobs| == MAX_JOBS && 0 <= q[i] < MAX_JOBS
  {}

  lemma ReviveIs<J>(q: seq<int>, jobs: seq<J>, test: J -> bool, i: nat)
    requires i < |q| && forall m :: 0 <= m < |q| ==> 0 <= q[m] < |jobs|
    ensures forall m :: 0 <= m < |q| ==> 0 <= ToTop(q, i)[m] < |jobs|
    ensures ReviveFrom(q, jobs, test, i) == ReviveFrom(if test(jobs[q[i]]) then ToTop(q, i) else q, jobs, test, i + 1)
    ensures ToTop(q, i)[|q| - 1] == q[i]
  {}

  lemma RevivesOne<J>(p: Pool<J>, test: J -> bool, q: seq<int>, i: nat, found: int)
    requires PoolOk(p) && Reviving(p, test, q, i, found) && i < |q|
    ensures 0 <= q[i] < |p.jobs|
    ensures if test(p.jobs[q[i]]) then Reviving(p, test, ToTop(q, i), i + 1, q[i])
            else Reviving(p, test, q, i + 1, found)
  {
    hide ReviveFrom, ToTop;
    ReviveIs(q, p.jobs, test, i);
    if test(p.jobs[q[i]]) {
      assert found == -1 ==> test(p.jobs[p.queued[i]]);
    }
  }

  lemma RevivingEnds<J>(p: Pool<J>, test: J -> bool, q: seq<int>, found: int)
    requires PoolOk(p) && Reviving(p, test, q, |q|, found)
    ensures q == Revive(p, test).queued && PoolOk(Revive(p, test)) && (found == -1 <==> !AnyMatch(p, test))
    ensures found != -1 ==> q != [] && q[|q| - 1] == found && 0 <= found < MAX_JOBS && test(p.jobs[found])
  {}

  /** The queued jobs themselves. */
  function Waiting<J>(p: Pool<J>): seq<J>
    requires PoolOk(p)
  {
    JobsIn(p.queued, p.jobs)
  }

  function JobsIn<J>(q: seq<int>, jobs: seq<J>): (r: seq<J>)
    requires forall k :: 0 <= k < |q| ==> 0 <= q[k] < |jobs|
    ensures |r| == |q|
  {
    seq(|q|, i requires 0 <= i < |q| => jobs[q[i]])
  }

  // ---------------------------------------------------------------------------------------------
  // The code
  // ---------------------------------------------------------------------------------------------

  class Control<J> {
    const idle: array<int>
    const queued: array<int>
    const job: array<J>
    var idleTop: nat
    var queuedTop: nat

    ghost predicate Valid()
      reads this, idle, queued, job
    {
      && idle.Length == queued.Length == job.Length == MAX_JOBS
      && idle != queued && (job as object) != (idle as object) && (job as object) != (queued as object)
      && idleTop <= MAX_JOBS && queuedTop <= MAX_JOBS && PoolOk(State())
    }

    ghost function State(): Pool<J>
      requires idleTop <= idle.Length && queuedTop <= queued.Length
      reads this, idle, queued, job
    {
      Pool(idle[..idleTop], queued[..queuedTop], job[..])
    }

    /** The slot part of dt_control_init. */
    constructor (none: J)
      ensures Valid() && fresh(idle) && fresh(queued) && fresh(job)
      ensures State().queued == [] && |State().idle| == MAX_JOBS
      ensures forall k :: 0 <= k < MAX_JOBS ==> State().idle[k] == k
    {
      idle := new int[MAX_JOBS](_ => 0);
      queued := new int[MAX_JOBS](_ => 0);
      job := new J[MAX_JOBS](_ => none);
      idleTop := MAX_JOBS;
      queuedTop := 0;
      new;
      for k := 0 to MAX_JOBS
        modifies idle
        invariant forall m :: 0 <= m < k ==> idle[m] == m
      {
        idle[k] := k;
      }
    }

    /** dt_control_add_job; -1 if an equal job is queued already, or no slot is idle. */
    method AddJob(test: J -> bool, stored: J) returns (r: int)
      requires Valid()
      modifies this`idleTop, this`queuedTop, queued, job
      ensures Valid() && State() == Add(old(State()), test, stored)
      ensures r == -1 || r == 0
      ensures r == -1 <==> old(AnyMatch(State(), test)) || old(State()).idle == []
      ensures r == -1 ==> State() == old(State())
      ensures r == 0 ==>
                var p, n := old(State()), |old(State()).idle| - 1;
                State() == Pool(p.idle[..n], p.queued + [p.idle[n]], p.jobs[p.idle[n] := stored])
    {
      hide AnyMatch;
      ghost var p := State();
      var found := FindEqual(test);
      if found { return -1; }
      if idleTop != 0 {
        var i := idleTop - 1;
        idleTop := i;
        job[idle[i]] := stored;
        queued[queuedTop] := idle[i];
        queuedTop := queuedTop + 1;
        assert job[..] == p.jobs[p.idle[i] := stored];
        return 0;
      } else {
        return -1;
      }
    }

    /** The search loop of dt_control_add_job. */
    method FindEqual(test: J -> bool) returns (found: bool)
      requires Valid()
      ensures found <==> AnyMatch(State(), test)
    {
      for i := 0 to queuedTop
        invariant forall k :: 0 <= k < i ==> !test(State().jobs[State().queued[k]])
      {
        var j := queued[i];
        if test(job[j]) {
          assert test(State().jobs[State().queued[i]]);
          return true;
        }
      }
      return false;
    }

    /** The first critical section of dt_control_run_job: the slot to run, or -1 if none is queued. */
    method TakeJob() returns (slot: int)
      requires Valid()
      modifies this`queuedTop
      ensures Valid() && State() == Take(old(State()))
      ensures slot == if old(State()).queued == [] then -1 else old(State()).queued[|old(State()).queued| - 1]
      ensures slot == -1 ==> State() == old(State())
      ensures slot != -1 ==> State() == old(State()).(queued := old(State()).queued[..|old(State()).queued| - 1])
    {
      if queuedTop == 0 { return -1; }
      queuedTop := queuedTop - 1;
      slot := queued[queuedTop];
    }

    /** The last critical section of dt_control_run_job.  The precondition is the assert of the source, and that
        the slot is not queued; SlotsAreSafe shows that both hold in every run. */
    method ReturnSlot(slot: int)
      requires Valid() && 0 <= slot < MAX_JOBS && |State().idle| + |State().queued| < MAX_JOBS
      modifies this`idleTop, idle
      ensures Valid() && State() == GiveBack(old(State()), slot)
      ensures State() == old(State()).(idle := old(State()).idle + [slot])
    {
      ghost var p := State();
      idle[idleTop] := slot;
      idleTop := idleTop + 1;
      assert idle[..idleTop] == p.idle + [slot];
    }

    /** dt_control_revive_job: the slot of the job that is on top now, or -1 if no queued job is equal. */
    method ReviveJob(test: J -> bool) returns (foundJ: int)
      requires Valid()
      modifies queued
      ensures Valid() && State() == Revive(old(State()), test)
      ensures foundJ == -1 <==> !old(AnyMatch(State(), test))
      ensures foundJ == -1 ==> State() == old(State())
      ensures State().idle == old(State()).idle && State().jobs == old(State()).jobs
      ensures foundJ != -1 ==>
                var q := State().queued;
                q != [] && q[|q| - 1] == foundJ && 0 <= foundJ < MAX_JOBS && test(State().jobs[foundJ])
    {
      hide ReviveFrom, ToTop, PoolOk, AnyMatch;
      ghost var p := State();
      foundJ := -1;
      RevivingStarts(p, test);
      for i := 0 to queuedTop
        invariant idle[..idleTop] == p.idle && job[..] == p.jobs && |p.queued| == queuedTop
        invariant Reviving(p, test, queued[..queuedTop], i, foundJ)
      {
        hide Reviving;
        ghost var q := queued[..queuedTop];
        RevivingIs(p, test, q, i, foundJ);
        RevivesOne(p, test, q, i, foundJ);
        var j := queued[i];
        if test(job[j]) {
          foundJ := j;
          MoveToTop(i);
        }
      }
      RevivingEnds(p, test, queued[..queuedTop], foundJ);
    }

    /** memmove of what is above position i, and the element itself on top. */
    method MoveToTop(i: nat)
      requires i < queuedTop <= queued.Length
      modifies queued
      ensures queued[..queuedTop] == ToTop(old(queued[..queuedTop]), i)
      ensures queued[queuedTop..] == old(queued[queuedTop..])
    {
      ghost var q := queued[..];
      var j := queued[i];
      for k := i to queuedTop - 1
        invariant forall m :: 0 <= m < i || k <= m < queued.Length ==> queued[m] == q[m]
        invariant forall m :: i <= m < k ==> queued[m] == q[m+1]
      {
        queued[k] := queued[k+1];
      }
      queued[queuedTop-1] := j;
    }
  }

  // ---------------------------------------------------------------------------------------------
  // What the operations mean for the waiting jobs: a stack
  // ---------------------------------------------------------------------------------------------

  /** Adding pushes the job or, if it is refused, does nothing, taking pops the top one, and neither touches a job that
      is not idle. */
  lemma WaitingIsStack<J>(p: Pool<J>, test: J -> bool, stored: J)
    requires PoolOk(p) && forall k :: k in p.idle ==> k !in p.queued
    ensures PoolOk(Add(p, test, stored)) && PoolOk(Take(p))
    ensures Waiting(Add(p, test, stored))
         == if AnyMatch(p, test) || p.idle == [] then Waiting(p) else Waiting(p) + [stored]
    ensures p.queued != [] ==> Waiting(p) == Waiting(Take(p)) + [p.jobs[p.queued[|p.queued| - 1]]]
  {
    if !AnyMatch(p, test) && p.idle != [] {
      var slot := p.idle[|p.idle| - 1];
      assert slot in p.idle;
      forall i | 0 <= i < |p.queued| ensures Waiting(Add(p, test, stored))[i] == Waiting(p)[i] {
        assert p.queued[i] in p.queued;
      }
    }
  }

  lemma ToTopPermutes<J>(q: seq<int>, jobs: seq<J>, i: nat)
    requires i < |q| && forall k :: 0 <= k < |q| ==> 0 <= q[k] < |jobs|
    ensures forall k :: 0 <= k < |q| ==> 0 <= ToTop(q, i)[k] < |jobs|
    ensures multiset(JobsIn(ToTop(q, i), jobs)) == multiset(JobsIn(q, jobs))
  {
    var x, y := JobsIn(q, jobs), JobsIn(ToTop(q, i), jobs);
    assert x == x[..i] + [x[i]] + x[i+1..] && y == x[..i] + x[i+1..] + [x[i]];
  }

  /** Reviving loses no job and makes none up. */
  lemma {:induction false} RevivePermutes<J>(q: seq<int>, jobs: seq<J>, test: J -> bool, i: nat)
    requires forall k :: 0 <= k < |q| ==> 0 <= q[k] < |jobs|
    ensures forall k :: 0 <= k < |q| ==> 0 <= ReviveFrom(q, jobs, test, i)[k] < |jobs|
    ensures multiset(JobsIn(ReviveFrom(q, jobs, test, i), jobs)) == multiset(JobsIn(q, jobs))
    decreases |q| - i
  {
    hide ToTop, JobsIn;
    if i < |q| {
      if test(jobs[q[i]]) {
        ToTopPermutes(q, jobs, i);
        RevivePermutes(ToTop(q, i), jobs, test, i + 1);
      } else {
        RevivePermutes(q, jobs, test, i + 1);
      }
    }
  }

  /** The slots of jobs that do not count as equal, in order. */
  function Others<J>(q: seq<int>, jobs: seq<J>, test: J -> bool): seq<int> {
    if q == [] then []
    else (if 0 <= q[0] < |jobs| && test(jobs[q[0]]) then [] else [q[0]]) + Others(q[1..], jobs, test)
  }

  lemma {:induction false} OthersAdd<J>(x: seq<int>, y: seq<int>, jobs: seq<J>, test: J -> bool)
    ensures Others(x + y, jobs, test) == Others(x, jobs, test) + Others(y, jobs, test)
  {
    if x == [] {
      assert x + y == y;
    } else {
      OthersAdd(x[1..], y, jobs, test);
      assert (x + y)[1..] == x[1..] + y;
    }
  }

  lemma ToTopKeepsOthers<J>(q: seq<int>, jobs: seq<J>, test: J -> bool, i: nat)
    requires i < |q| && 0 <= q[i] < |jobs| && test(jobs[q[i]])
    ensures Others(ToTop(q, i), jobs, test) == Others(q, jobs, test)
  {
    NoOther(jobs, test, q[i]);
    hide Others;
    var x, e, z := q[..i], [q[i]], q[i+1..];
    assert q == x + (e + z) && ToTop(q, i) == x + (z + e);
    OthersAdd(e, z, jobs, test);
    OthersAdd(z, e, jobs, test);
    OthersAdd(x, e + z, jobs, test);
    OthersAdd(x, z + e, jobs, test);
  }

  lemma NoOther<J>(jobs: seq<J>, test: J -> bool, k: int)
    requires 0 <= k < |jobs| && test(jobs[k])
    ensures Others([k], jobs, test) == []
  {}

  /** Whatever counts as equal, reviving keeps the other jobs in their order. */
  lemma {:induction false} ReviveKeepsOthers<J>(q: seq<int>, jobs: seq<J>, test: J -> bool, i: nat)
    requires forall k :: 0 <= k < |q| ==> 0 <= q[k] < |jobs|
    ensures forall k :: 0 <= k < |q| ==> 0 <= ReviveFrom(q, jobs, test, i)[k] < |jobs|
    ensures Others(ReviveFrom(q, jobs, test, i), jobs, test) == Others(q, jobs, test)
    decreases |q| - i
  {
    hide ToTop, Others;
    if i < |q| {
      if test(jobs[q[i]]) {
        ReviveIs(q, jobs, test, i);
        ToTopKeepsOthers(q, jobs, test, i);
        ReviveKeepsOthers(ToTop(q, i), jobs, test, i + 1);
      } else {
        ReviveKeepsOthers(q, jobs, test, i + 1);
      }
    }
  }

  /** The loop goes on after a match and skips the job behind it: of three equal jobs the second ends up last, the
      first in the middle, and the third is revived. */
  lemma ReviveSkips(jobs: seq<bool>)
    requires |jobs| == 3 && forall k :: 0 <= k < 3 ==> jobs[k]
    ensures ReviveFrom([0, 1, 2], jobs, (b: bool) => b, 0) == [1, 0, 2]
  {
    var test := (b: bool) => b;
    ThreeToTop();
    hide ReviveFrom, ToTop;
    ReviveIs([0, 1, 2], jobs, test, 0);
    ReviveIs([1, 2, 0], jobs, test, 1);
    ReviveIs([1, 0, 2], jobs, test, 2);
    ReviveEnds([1, 0, 2], jobs, test);
  }

  lemma ThreeToTop()
    ensures ToTop([0, 1, 2], 0) == [1, 2, 0] && ToTop([1, 2, 0], 1) == [1, 0, 2] && ToTop([1, 0, 2], 2) == [1, 0, 2]
  {}

  lemma ReviveEnds<J>(q: seq<int>, jobs: seq<J>, test: J -> bool)
    requires forall k :: 0 <= k < |q| ==> 0 <= q[k] < |jobs|
    ensures ReviveFrom(q, jobs, test, |q|) == q
  {}

  /** When only one job counts as equal, it ends up on top and the others stay in their order. */
  lemma {:induction false} ReviveOne<J>(q: seq<int>, jobs: seq<J>, test: J -> bool, k: nat, i: nat)
    requires k < |q| && i <= |q| && forall m :: 0 <= m < |q| ==> 0 <= q[m] < |jobs|
    requires forall m :: 0 <= m < |q| ==> (test(jobs[q[m]]) <==> m == k)
    ensures i <= k ==> ReviveFrom(q, jobs, test, i) == ToTop(q, k)
    ensures i > k && k == |q| - 1 ==> ReviveFrom(q, jobs, test, i) == q
    decreases |q| - i
  {
    if i == k {
      ReviveIs(q, jobs, test, i);
      MatchOnTop(q, jobs, test, k);
      hide ReviveFrom, ToTop;
      TopStays(ToTop(q, k), jobs, test, i + 1);
    } else if i < |q| {
      ReviveIs(q, jobs, test, i);
      hide ReviveFrom, ToTop;
      ReviveOne(q, jobs, test, k, i + 1);
    }
  }

  lemma MatchOnTop<J>(q: seq<int>, jobs: seq<J>, test: J -> bool, k: nat)
    requires k < |q| && forall m :: 0 <= m < |q| ==> 0 <= q[m] < |jobs|
    requires forall m :: 0 <= m < |q| ==> (test(jobs[q[m]]) <==> m == k)
    ensures forall m :: 0 <= m < |q| ==> 0 <= ToTop(q, k)[m] < |jobs|
    ensures forall m :: 0 <= m < |q| ==> (test(jobs[ToTop(q, k)[m]]) <==> m == |q| - 1)
  {}

  lemma {:induction false} TopStays<J>(q: seq<int>, jobs: seq<J>, test: J -> bool, i: nat)
    requires q != [] && i <= |q| && forall m :: 0 <= m < |q| ==> 0 <= q[m] < |jobs|
    requires forall m :: 0 <= m < |q| ==> (test(jobs[q[m]]) <==> m == |q| - 1)
    ensures ReviveFrom(q, jobs, test, i) == q
    decreases |q| - i
  {
    if i < |q| {
      if i == |q| - 1 {
        assert ToTop(q, i) == q;
      }
      TopStays(q, jobs, test, i + 1);
    }
  }

  // ---------------------------------------------------------------------------------------------
  // Adders and workers, interleaved: every critical section of queue_mutex is one step
  // ---------------------------------------------------------------------------------------------

  datatype Worker = Free | Running(slot: int)

  datatype System<J> = System(pool: Pool<J>, workers: seq<Worker>)

  datatype Step<!J> =
    | AddStep(test: J -> bool, stored: J)
    | ReviveStep(revived: J -> bool)
    | TakeStep(w: nat)
    | ExecuteStep(w: nat, result: J)   // the worker may change the job in its slot
    | ReturnStep(w: nat)

  datatype Outcome<J> = Next(sys: System<J>) | AssertFails | NotEnabled

  function Do<J>(s: System<J>, step: Step<J>): Outcome<J>
    requires PoolOk(s.pool)
  {
    match step
    case AddStep(test, stored) => Next(s.(pool := Add(s.pool, test, stored)))
    case ReviveStep(test) => Next(s.(pool := Revive(s.pool, test)))
    case TakeStep(w) =>
      if w >= |s.workers| || s.workers[w] != Free then NotEnabled
      else if s.pool.queued == [] then Next(s)
      else Next(System(Take(s.pool), s.workers[w := Running(s.pool.queued[|s.pool.queued| - 1])]))
    case ExecuteStep(w, result) =>
      if w >= |s.workers| || s.workers[w] == Free || !(0 <= s.workers[w].slot < MAX_JOBS) then NotEnabled
      else Next(s.(pool := s.pool.(jobs := s.pool.jobs[s.workers[w].slot := result])))
    case ReturnStep(w) =>
      if w >= |s.workers| || s.workers[w] == Free then NotEnabled
      else if |s.pool.idle| >= MAX_JOBS then AssertFails
      else Next(System(GiveBack(s.pool, s.workers[w].slot), s.workers[w := Free]))
  }

  predicate IsHeld(workers: seq<Worker>, slot: int) {
    exists w :: 0 <= w < |workers| && workers[w] == Running(slot)
  }

  /** Every slot is in exactly one of three places: idle, queued, or held by exactly one worker. */
  ghost predicate Partition<J>(s: System<J>) {
    && PoolOk(s.pool) && Distinct(s.pool.idle) && Distinct(s.pool.queued)
    && (forall v, w :: 0 <= v < w < |s.workers| && s.workers[v].Running? ==> s.workers[v] != s.workers[w])
    && (forall w :: 0 <= w < |s.workers| && s.workers[w].Running? ==> 0 <= s.workers[w].slot < MAX_JOBS)
    && (forall k :: 0 <= k < MAX_JOBS ==> k in s.pool.idle || k in s.pool.queued || IsHeld(s.workers, k))
    && (forall k :: k in s.pool.idle ==> k !in s.pool.queued && !IsHeld(s.workers, k))
    && (forall k :: k in s.pool.queued ==> !IsHeld(s.workers, k))
  }

  lemma {:induction false} DistinctBelow(s: seq<int>, n: nat)
    requires Distinct(s) && forall i :: 0 <= i < |s| ==> 0 <= s[i] < n
    ensures |s| <= n
  {
    if n == 0 {
      assert multiset(s) == multiset{};
    } else if n - 1 in s {
      var k :| 0 <= k < |s| && s[k] == n - 1;
      DistinctBelow(Cut(s, k), n - 1);
    } else {
      DistinctBelow(s, n - 1);
    }
  }

  lemma DistinctJoin(a: seq<int>, b: seq<int>)
    requires Distinct(a) && Distinct(b) && forall k :: k in a ==> k !in b
    ensures Distinct(a + b)
  {
    forall i, j | 0 <= i < j < |a + b| ensures (a + b)[i] != (a + b)[j] {
      if i < |a| <= j { assert a[i] in a && b[j - |a|] in b; }
    }
  }

  /** There is room for every slot that somebody holds. */
  lemma HeldSlotFits<J>(s: System<J>, slot: int)
    requires Partition(s) && IsHeld(s.workers, slot)
    ensures 0 <= slot < MAX_JOBS && slot !in s.pool.idle && slot !in s.pool.queued
    ensures |s.pool.idle| + |s.pool.queued| < MAX_JOBS
  {
    DistinctJoin(s.pool.idle, s.pool.queued);
    DistinctJoin(s.pool.idle + s.pool.queued, [slot]);
    DistinctBelow(s.pool.idle + s.pool.queued + [slot], MAX_JOBS);
  }

  lemma AddKeeps<J>(s: System<J>, test: J -> bool, stored: J)
    requires Partition(s)
    ensures Partition(s.(pool := Add(s.pool, test, stored)))
  {
    hide AnyMatch;
    var p := s.pool;
    if !AnyMatch(p, test) && p.idle != [] {
      var p', top := Add(p, test, stored), p.idle[|p.idle| - 1];
      assert top in p.idle;
      DistinctJoin(p.queued, [top]);
      assert p.idle == p'.idle + [top] && p'.queued == p.queued + [top];
      forall k ensures k in p.idle <==> k in p'.idle || k == top { assert k in p.idle <==> k in p'.idle + [top]; }
      forall k ensures k in p'.queued <==> k in p.queued || k == top {
        assert k in p'.queued <==> k in p.queued + [top];
      }
      assert top !in p'.idle;
    }
  }

  lemma ReviveKeeps<J>(s: System<J>, test: J -> bool)
    requires Partition(s)
    ensures Partition(s.(pool := Revive(s.pool, test)))
  {
    var q, r := s.pool.queued, Revive(s.pool, test).queued;
    hide ReviveFrom;
    SameElements(q, r);
    forall i | 0 <= i < |r| ensures 0 <= r[i] < MAX_JOBS {
      assert r[i] in r && r[i] in q;
    }
  }

  lemma SameElements(q: seq<int>, r: seq<int>)
    requires multiset(q) == multiset(r)
    ensures forall k :: k in q <==> k in r
    ensures Distinct(q) ==> Distinct(r)
  {
    forall k ensures k in q <==> k in r {
      assert k in q <==> k in multiset(q);
      assert k in r <==> k in multiset(r);
    }
    if Distinct(q) {
      forall i, j | 0 <= i < j < |r| ensures r[i] != r[j] {
        if r[i] == r[j] {
          assert r == r[..i] + [r[i]] + r[i+1..j] + [r[j]] + r[j+1..];
          assert multiset(q)[r[i]] >= 2;
          OnceOnly(q, r[i]);
        }
      }
    }
  }

  lemma {:induction false} OnceOnly(q: seq<int>, x: int)
    requires Distinct(q)
    ensures multiset(q)[x] <= 1
  {
    if q != [] {
      var n := |q| - 1;
      assert q == q[..n] + [q[n]];
      OnceOnly(q[..n], x);
      assert q[n] !in q[..n];
    }
  }

  lemma TakeKeeps<J>(s: System<J>, w: nat)
    requires Partition(s) && w < |s.workers| && s.workers[w] == Free && s.pool.queued != []
    ensures Partition(System(Take(s.pool), s.workers[w := Running(s.pool.queued[|s.pool.queued| - 1])]))
  {
    var p, p' := s.pool, Take(s.pool);
    var top := p.queued[|p.queued| - 1];
    var v := s.workers[w := Running(top)];
    assert top in p.queued;
    forall k ensures IsHeld(v, k) <==> IsHeld(s.workers, k) || k == top {
      if IsHeld(s.workers, k) {
        var i :| 0 <= i < |v| && s.workers[i] == Running(k);
        assert v[i] == Running(k);
      }
      assert v[w] == Running(top);
    }
    assert forall k :: k in p.queued <==> k in p'.queued || k == top;
    assert forall k :: k in p'.queued ==> k != top;
  }

  lemma ReturnKeeps<J>(s: System<J>, w: nat)
    requires Partition(s) && w < |s.workers| && s.workers[w].Running?
    ensures |s.pool.idle| < MAX_JOBS
    ensures Partition(System(GiveBack(s.pool, s.workers[w].slot), s.workers[w := Free]))
  {
    var slot := s.workers[w].slot;
    HeldSlotFits(s, slot);
    var v := s.workers[w := Free];
    forall k ensures IsHeld(v, k) <==> IsHeld(s.workers, k) && k != slot {
      if IsHeld(s.workers, k) && k != slot {
        var i :| 0 <= i < |v| && s.workers[i] == Running(k);
        assert v[i] == Running(k);
      }
    }
    assert forall k :: k in GiveBack(s.pool, slot).idle <==> k in s.pool.idle || k == slot;
  }

  /** Every step of every adder and worker keeps the partition, and no assert fails. */
  lemma StepKeepsPartition<J>(s: System<J>, step: Step<J>)
    requires Partition(s)
    ensures !Do(s, step).AssertFails?
    ensures Do(s, step).Next? ==> Partition(Do(s, step).sys)
  {
    hide Add, Revive, Take, GiveBack, IsHeld;
    match step
    case AddStep(test, stored) => AddKeeps(s, test, stored);
    case ReviveStep(test) => ReviveKeeps(s, test);
    case TakeStep(w) => if w < |s.workers| && s.workers[w] == Free && s.pool.queued != [] { TakeKeeps(s, w); }
    case ExecuteStep(w, result) =>
    case ReturnStep(w) => if w < |s.workers| && s.workers[w].Running? { ReturnKeeps(s, w); }
  }

  /** A job that a worker is running is not overwritten: nobody but that worker changes its slot. */
  lemma RunningJobStays<J>(s: System<J>, step: Step<J>, w: nat)
    requires Partition(s) && w < |s.workers| && s.workers[w].Running?
    requires !(step.ExecuteStep? && step.w == w) && !(step.ReturnStep? && step.w == w)
    ensures Do(s, step).Next? ==>
              var s' := Do(s, step).sys;
              |s'.workers| == |s.workers| && s'.workers[w] == s.workers[w]
              && |s'.pool.jobs| == MAX_JOBS && s'.pool.jobs[s.workers[w].slot] == s.pool.jobs[s.workers[w].slot]
  {
    var slot := s.workers[w].slot;
    HeldSlotFits(s, slot);
    if step.AddStep? && s.pool.idle != [] { assert s.pool.idle[|s.pool.idle| - 1] in s.pool.idle; }
  }

  lemma AddLeavesQueued<J>(s: System<J>, test: J -> bool, stored: J, slot: int)
    requires Partition(s) && slot in s.pool.queued
    ensures 0 <= slot < MAX_JOBS == |s.pool.jobs|
    ensures var p := Add(s.pool, test, stored);
            |p.jobs| == MAX_JOBS && p.jobs[slot] == s.pool.jobs[slot] && slot in p.queued
  {
    hide AnyMatch, IsHeld;
    if s.pool.idle != [] { assert s.pool.idle[|s.pool.idle| - 1] in s.pool.idle; }
  }

  lemma TakeLeavesQueued(q: seq<int>, slot: int)
    requires slot in q
    ensures slot in q[..|q| - 1] || slot == q[|q| - 1]
  {
    assert q == q[..|q| - 1] + [q[|q| - 1]];
  }

  /** A job that waits is not overwritten either, and goes on waiting until a worker takes it. */
  lemma QueuedJobStays<J>(s: System<J>, step: Step<J>, slot: int)
    requires Partition(s) && slot in s.pool.queued && Do(s, step).Next?
    ensures 0 <= slot < MAX_JOBS == |s.pool.jobs|
    ensures var s' := Do(s, step).sys;
            && |s'.pool.jobs| == MAX_JOBS && s'.pool.jobs[slot] == s.pool.jobs[slot]
            && (slot in s'.pool.queued
                || (step.TakeStep? && step.w < |s'.workers| && s'.workers[step.w] == Running(slot)))
  {
    hide Add, ReviveFrom, IsHeld, Partition;
    PartitionIs(s);
    QueuedInPool(s, slot);
    match step
    case AddStep(test, stored) => AddLeavesQueued(s, test, stored, slot);
    case ReviveStep(test) => SameElements(s.pool.queued, ReviveFrom(s.pool.queued, s.pool.jobs, test, 0));
    case TakeStep(_) => TakeLeavesQueued(s.pool.queued, slot);
    case ExecuteStep(w, _) => if w < |s.workers| && s.workers[w].Running? { HeldIsNotQueued(s, w, slot); }
    case ReturnStep(_) =>
  }

  lemma HeldIsNotQueued<J>(s: System<J>, w: nat, slot: int)
    requires Partition(s) && w < |s.workers| && s.workers[w].Running? && slot in s.pool.queued
    ensures s.workers[w].slot != slot
  {
    assert IsHeld(s.workers, s.workers[w].slot);
  }

  /** The job that was added last is the next that a worker takes. */
  lemma AddedRunsNext<J>(s: System<J>, test: J -> bool, stored: J, w: nat)
    requires Partition(s) && w < |s.workers| && s.workers[w] == Free
    requires !AnyMatch(s.pool, test) && s.pool.idle != []
    ensures var t := Do(s, AddStep(test, stored)).sys;
            PoolOk(t.pool) && RunsNext(t, w, (j: J) => j == stored)
  {
    hide AnyMatch, IsHeld;
    StepKeepsPartition(s, AddStep(test, stored));
  }

  /** So is the job that was revived last. */
  lemma RevivedRunsNext<J>(s: System<J>, test: J -> bool, w: nat)
    requires Partition(s) && w < |s.workers| && s.workers[w] == Free && AnyMatch(s.pool, test)
    ensures var t := Do(s, ReviveStep(test)).sys;
            PoolOk(t.pool) && RunsNext(t, w, test)
  {
    hide AnyMatch, IsHeld, ReviveFrom;
    StepKeepsPartition(s, ReviveStep(test));
    RevivedOnTop(s.pool, test);
  }

  /** What a worker has run is free for another job. */
  lemma ReturnedIsIdle<J>(s: System<J>, w: nat)
    requires Partition(s) && w < |s.workers| && s.workers[w].Running?
    ensures Do(s, ReturnStep(w)) == Next(System(s.pool.(idle := s.pool.idle + [s.workers[w].slot]),
                                                s.workers[w := Free]))
  {
    hide IsHeld;
    StepKeepsPartition(s, ReturnStep(w));
  }

  /** The next job that worker w takes passes the test. */
  ghost predicate RunsNext<J>(s: System<J>, w: nat, test: J -> bool)
    requires PoolOk(s.pool)
  {
    var next := Do(s, TakeStep(w));
    && next.Next? && w < |next.sys.workers| && next.sys.workers[w].Running?
    && 0 <= next.sys.workers[w].slot < |next.sys.pool.jobs| && test(next.sys.pool.jobs[next.sys.workers[w].slot])
  }

  lemma RevivedOnTop<J>(p: Pool<J>, test: J -> bool)
    requires PoolOk(p) && AnyMatch(p, test)
    ensures var q := Revive(p, test).queued;
            q != [] && 0 <= q[|q| - 1] < MAX_JOBS && test(p.jobs[q[|q| - 1]])
  {
    RevivingStarts(p, test);
    RevivesRest(p, test, p.queued, 0, -1);
  }

  lemma {:induction false} RevivesRest<J>(p: Pool<J>, test: J -> bool, q: seq<int>, i: nat, found: int)
    requires PoolOk(p) && Reviving(p, test, q, i, found) && AnyMatch(p, test) && i <= |q|
    ensures var r := Revive(p, test).queued;
            r != [] && 0 <= r[|r| - 1] < MAX_JOBS && test(p.jobs[r[|r| - 1]])
    decreases |q| - i
  {
    hide Reviving;
    if i < |q| {
      RevivesOne(p, test, q, i, found);
      if test(p.jobs[q[i]]) {
        RevivesRest(p, test, ToTop(q, i), i + 1, q[i]);
      } else {
        RevivesRest(p, test, q, i + 1, found);
      }
    } else {
      RevivingEnds(p, test, q, found);
    }
  }

  datatype JobRun<!J> = JobRun(states: seq<System<J>>, steps: seq<Step<J>>)

  ghost predicate JobStart<J>(s: System<J>) {
    && |s.pool.jobs| == MAX_JOBS && s.pool.queued == []
    && |s.pool.idle| == MAX_JOBS && (forall k :: 0 <= k < MAX_JOBS ==> s.pool.idle[k] == k)
    && forall w :: 0 <= w < |s.workers| ==> s.workers[w] == Free
  }

  /** One step.  Outside of PoolOk the code could do anything, so that nothing is said about what follows. */
  ghost predicate Goes<J>(s: System<J>, step: Step<J>, s': System<J>) {
    PoolOk(s.pool) ==> Do(s, step) == Next(s')
  }

  ghost predicate IsJobRun<J>(r: JobRun<J>) {
    && |r.states| == |r.steps| + 1 && JobStart(r.states[0])
    && forall i :: 0 <= i < |r.steps| ==> Goes(r.states[i], r.steps[i], r.states[i+1])
  }

  /** In every state of every interleaving the slots are partitioned into idle, queued and held ones, no slot is
      held by two workers, and whatever the next step is, the assert before the push does not fail. */
  lemma {:induction false} SlotsAreSafe<J>(r: JobRun<J>, n: nat)
    requires IsJobRun(r) && n < |r.states|
    ensures Partition(r.states[n])
    ensures forall step: Step<J> :: !Do(r.states[n], step).AssertFails?
  {
    hide Do, Partition;
    if n == 0 {
      StartIsPartition(r.states[0]);
    } else {
      SlotsAreSafe(r, n - 1);
      PartitionIs(r.states[n-1]);
      assert Goes(r.states[n-1], r.steps[n-1], r.states[n]);
      StepKeepsPartition(r.states[n-1], r.steps[n-1]);
    }
    PartitionIs(r.states[n]);
    forall step: Step<J> ensures !Do(r.states[n], step).AssertFails? {
      StepKeepsPartition(r.states[n], step);
    }
  }

  /** In every run a job that waits is kept until its slot is taken. */
  lemma {:induction false} QueuedJobIsKept<J>(r: JobRun<J>, m: nat, n: nat, slot: int)
    requires IsJobRun(r) && m <= n < |r.states| && slot in r.states[m].pool.queued
    requires forall i :: m <= i < n ==>
               !(r.steps[i].TakeStep? && r.steps[i].w < |r.states[i+1].workers|
                 && r.states[i+1].workers[r.steps[i].w] == Running(slot))
    ensures slot in r.states[n].pool.queued && 0 <= slot < |r.states[m].pool.jobs| == |r.states[n].pool.jobs|
    ensures r.states[n].pool.jobs[slot] == r.states[m].pool.jobs[slot]
  {
    hide Do, Partition;
    SlotsAreSafe(r, m);
    SlotsAreSafe(r, n);
    QueuedInPool(r.states[m], slot);
    PartitionIs(r.states[n]);
    if m < n {
      QueuedJobIsKept(r, m, n - 1, slot);
      SlotsAreSafe(r, n - 1);
      PartitionIs(r.states[n-1]);
      assert Goes(r.states[n-1], r.steps[n-1], r.states[n]);
      QueuedJobStays(r.states[n-1], r.steps[n-1], slot);
    }
  }

  lemma QueuedInPool<J>(s: System<J>, slot: int)
    requires Partition(s) && slot in s.pool.queued
    ensures 0 <= slot < |s.pool.jobs| == MAX_JOBS
  {}

  lemma PartitionIs<J>(s: System<J>)
    requires Partition(s)
    ensures PoolOk(s.pool)
  {}

  lemma StartIsPartition<J>(s: System<J>)
    requires JobStart(s)
    ensures Partition(s)
  {
    forall k | 0 <= k < MAX_JOBS ensures k in s.pool.idle {
      assert s.pool.idle[k] == k;
    }
  }
}
