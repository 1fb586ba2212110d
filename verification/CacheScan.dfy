/** The lock-free dt_cache_contains is linearizable: whatever it answers was true of the table at some
    instant of the call, although it follows the deltas without any lock while others insert and remove. */
module CacheScan {
  import opened CacheModel
  import opened CacheEffects
  import opened CacheSequential
  import opened Cache
  import opened CacheProtocol
  import opened CacheSafety
  import opened CacheRuns

  /** The key whose lookup is under way. */
  predicate Scanning(pc: Pc, key: Key) {
    (pc.ScanTime? || pc.ScanFirst? || pc.ScanMore? || pc.ScanKey? || pc.ScanNext? || pc.ScanCheck? || pc.Told?)
    && pc.key == key
  }

  /** The scanner stands after the first p buckets of the chain of key. */
  predicate At(s: Shared, key: Key, p: nat, curr: int)
    requires 0 < |s.table| == |s.chains|
  {
    var h := Home(key, |s.table|);
    p <= |s.chains[h]| && curr == if p == 0 then h else s.chains[h][p-1]
  }

  /** None of the first p buckets of the chain of key stores key. */
  predicate Passed(s: Shared, key: Key, p: nat)
    requires 0 < |s.table| == |s.chains|
  {
    var c := s.chains[Home(key, |s.table|)];
    p <= |c| && forall i :: 0 <= i < p ==> c[i] < |s.table| && s.table[c[i]].key != key
  }

  /** What the scanner may rely on while the time stamp has not moved. */
  ghost predicate OnTrack(s: Shared, pc: Pc, absent: bool)
    requires 0 < |s.table| == |s.chains|
  {
    match pc
    case ScanMore(key, _, curr, delta) =>
      if delta == NULL_DELTA then absent
      else exists p :: Leads(s, key, p, curr, delta)
    case ScanKey(key, _, curr) => exists p :: 0 < p && At(s, key, p, curr) && Passed(s, key, p - 1)
    case ScanNext(key, _, curr) => exists p :: 0 < p && At(s, key, p, curr) && Passed(s, key, p)
    case ScanCheck(_, _) => absent
    case _ => true
  }

  predicate Leads(s: Shared, key: Key, p: nat, curr: int, delta: int)
    requires 0 < |s.table| == |s.chains|
  {
    var c := s.chains[Home(key, |s.table|)];
    At(s, key, p, curr) && Passed(s, key, p) && p < |c| && delta == Delta(curr, c[p])
  }

  predicate HasStamp(pc: Pc) {
    pc.ScanFirst? || pc.ScanMore? || pc.ScanKey? || pc.ScanNext? || pc.ScanCheck?
  }

  /** present, absent: whether the key has been seen so at some instant of the call. */
  ghost predicate ScanOk(sys: Sys, pc: Pc, present: bool, absent: bool)
    requires Sized(sys) && |sys.sh.chains| == |sys.sh.table|
  {
    && (HasStamp(pc) ==>
          var now := sys.sh.stamps[Segment(sys.cfg, pc.key)];
          pc.ts <= now && (pc.ts == now ==> OnTrack(sys.sh, pc, absent)))
    && (pc.Told? ==> if pc.found then present else absent)
  }

  // ---------------------------------------------------------------------------------------------
  // Other threads
  // ---------------------------------------------------------------------------------------------

  /** As long as the stamp of its segment stands still, a chain only grows at its end. */
  ghost predicate ChainGrew(s: Shared, s': Shared, h: nat)
    requires h < |s.chains| == |s'.chains| && |s.table| == |s'.table|
  {
    && s.chains[h] <= s'.chains[h]
    && forall i :: 0 <= i < |s.chains[h]| ==>
         s.chains[h][i] < |s.table| && s'.table[s.chains[h][i]].key == s.table[s.chains[h][i]].key
  }

  lemma EffectOnChain(cfg: Config, s: Shared, e: Effect, key: Key)
    requires Sound(cfg, s) && Enabled(cfg, s, e) && cfg.buckets == cfg.segSize * cfg.numSegs
    ensures var s' := Apply(cfg, s, e);
            var g, h := Segment(cfg, key), Home(key, |s.table|);
            && |s'.table| == |s.table| && |s'.chains| == |s.chains| && |s'.stamps| == |s.stamps|
            && s.stamps[g] <= s'.stamps[g]
            && (s'.stamps[g] == s.stamps[g] ==> ChainGrew(s, s', h))
  {
    var h := Home(key, |s.table|);
    var s' := Apply(cfg, s, e);
    var c := s.chains[h];
    assert ChainOk(s.table, h, c);
    match e
    case Insert(k, b, cost, data, locked) =>
      InsertLands(cfg, s, k, b, cost, data, locked);
      forall i | 0 <= i < |c| ensures s'.table[c[i]].key == s.table[c[i]].key {
        assert c[i] != b;
        assert SameEntry(s'.table[c[i]], s.table[c[i]]);
      }
    case Unlink(b) =>
      UnlinkLands(cfg, s, b);
      if Home(s.table[b].key, |s.table|) == h {
        SegmentOfHome(cfg, key);
        SegmentOfHome(cfg, s.table[b].key);
        assert BucketOk(s.table, s.chains, b);
      } else {
        assert BucketOk(s.table, s.chains, b);
        forall i | 0 <= i < |c| ensures s'.table[c[i]].key == s.table[c[i]].key {
          assert c[i] != b;
          assert SameEntry(s'.table[c[i]], s.table[c[i]]);
        }
      }
    case _ =>
  }

  lemma AtStays(s: Shared, s': Shared, key: Key, p: nat, curr: int)
    requires 0 < |s.table| == |s.chains| == |s'.table| == |s'.chains|
    requires ChainGrew(s, s', Home(key, |s.table|)) && At(s, key, p, curr)
    ensures At(s', key, p, curr)
  {}

  lemma PassedStays(s: Shared, s': Shared, key: Key, p: nat)
    requires 0 < |s.table| == |s.chains| == |s'.table| == |s'.chains|
    requires ChainGrew(s, s', Home(key, |s.table|)) && Passed(s, key, p)
    ensures Passed(s', key, p)
  {
    var c, d := s.chains[Home(key, |s.table|)], s'.chains[Home(key, |s.table|)];
    assert forall i :: 0 <= i < p ==> d[i] == c[i];
  }

  lemma OnTrackStays(s: Shared, s': Shared, pc: Pc, absent: bool)
    requires 0 < |s.table| == |s.chains| == |s'.table| == |s'.chains| && HasStamp(pc)
    requires ChainGrew(s, s', Home(pc.key, |s.table|)) && OnTrack(s, pc, absent)
    ensures OnTrack(s', pc, absent)
  {
    match pc
    case ScanMore(key, _, curr, delta) =>
      if delta != NULL_DELTA {
        var p :| Leads(s, key, p, curr, delta);
        AtStays(s, s', key, p, curr);
        PassedStays(s, s', key, p);
        assert Leads(s', key, p, curr, delta);
      }
    case ScanKey(key, _, curr) =>
      var p :| 0 < p && At(s, key, p, curr) && Passed(s, key, p - 1);
      AtStays(s, s', key, p, curr);
      PassedStays(s, s', key, p - 1);
    case ScanNext(key, _, curr) =>
      var p :| 0 < p && At(s, key, p, curr) && Passed(s, key, p);
      AtStays(s, s', key, p, curr);
      PassedStays(s, s', key, p);
    case _ =>
  }

  // ---------------------------------------------------------------------------------------------
  // The scanner's own steps
  // ---------------------------------------------------------------------------------------------

  ghost predicate Present(s: Shared, key: Key) { key in Contents(s.table) }

  /** Whoever has passed the whole chain knows that the key is absent now. */
  lemma WholeChain(cfg: Config, s: Shared, key: Key, p: nat)
    requires IndexOk(cfg, s) && Passed(s, key, p) && p == |s.chains[Home(key, |s.table|)]|
    ensures !Present(s, key)
  {
    NotOnChain(cfg, s, key, s.chains[Home(key, |s.table|)]);
    LookupMeans(cfg, s, key, -1);
  }

  lemma FirstRead(cfg: Config, s: Shared, key: Key, ts: nat)
    requires IndexOk(cfg, s)
    ensures var h := Home(key, |s.table|);
            OnTrack(s, ScanMore(key, ts, h, s.table[h].firstDelta), !Present(s, key))
  {
    var h := Home(key, |s.table|);
    ChainFacts(cfg, s, h);
    if s.chains[h] == [] {
      WholeChain(cfg, s, key, 0);
    } else {
      assert Leads(s, key, 0, h, s.table[h].firstDelta);
    }
  }

  lemma NextRead(cfg: Config, s: Shared, key: Key, ts: nat, curr: nat)
    requires IndexOk(cfg, s) && curr < |s.table| && OnTrack(s, ScanNext(key, ts, curr), true)
    ensures OnTrack(s, ScanMore(key, ts, curr, s.table[curr].nextDelta), !Present(s, key))
  {
    var p :| 0 < p && At(s, key, p, curr) && Passed(s, key, p);
    var h := Home(key, |s.table|);
    ChainBucketAt(cfg, s, h, p - 1);
    if p == |s.chains[h]| {
      WholeChain(cfg, s, key, p);
    } else {
      assert Leads(s, key, p, curr, s.table[curr].nextDelta);
    }
  }

  lemma Hop(cfg: Config, s: Shared, key: Key, ts: nat, curr: nat, delta: int)
    requires IndexOk(cfg, s) && delta != NULL_DELTA && 0 <= curr + delta < |s.table|
    requires OnTrack(s, ScanMore(key, ts, curr, delta), true)
    ensures OnTrack(s, ScanKey(key, ts, curr + delta), true)
    ensures s.table[curr+delta].hash != key ==> OnTrack(s, ScanNext(key, ts, curr + delta), true)
  {
    var p: nat :| Leads(s, key, p, curr, delta);
    var h := Home(key, |s.table|);
    ChainBucketAt(cfg, s, h, p);
    assert At(s, key, p + 1, curr + delta) && Passed(s, key, p + 1 - 1);
    if s.table[curr+delta].hash != key {
      assert Passed(s, key, p + 1);
    }
  }

  lemma KeyRead(cfg: Config, s: Shared, key: Key, ts: nat, curr: nat)
    requires IndexOk(cfg, s) && curr < |s.table|
    ensures s.table[curr].key == key && (key != EMPTY || OnTrack(s, ScanKey(key, ts, curr), true)) ==> Present(s, key)
    ensures s.table[curr].key != key && OnTrack(s, ScanKey(key, ts, curr), true) ==>
              OnTrack(s, ScanNext(key, ts, curr), true)
  {
    BucketMeans(cfg, s, curr);
    if OnTrack(s, ScanKey(key, ts, curr), true) {
      var p :| 0 < p && At(s, key, p, curr) && Passed(s, key, p - 1);
      ChainBucketAt(cfg, s, Home(key, |s.table|), p - 1);
      if s.table[curr].key != key { assert Passed(s, key, p); }
    }
  }

  /** The time stamp of the segment has not moved since it was read. */
  predicate InTime(sys: Sys, pc: Pc)
    requires Sized(sys)
  {
    HasStamp(pc) ==> pc.ts == sys.sh.stamps[Segment(sys.cfg, pc.key)]
  }

  /** The key has been seen present, or absent, up to and including the current instant. */
  ghost predicate SeenNow(s: Shared, key: Key, present: bool, absent: bool) {
    if Present(s, key) then present else absent
  }

  lemma OwnStep(sys: Sys, th: Thread, key: Key, present: bool, absent: bool)
    requires Sized(sys) && Sound(sys.cfg, sys.sh) && |sys.sh.chains| == |sys.sh.table|
    requires key != EMPTY || InTime(sys, th.pc)
    requires Scanning(th.pc, key) && ThreadOk(sys.cfg, sys.maxHeld, th)
    requires ScanOk(sys, th.pc, present, absent) && SeenNow(sys.sh, key, present, absent)
    ensures var m := ScanStep(sys, th);
            m.Move? && m.e == Skip
            && (th.pc.Told? || (Scanning(m.th.pc, key) && ScanOk(sys, m.th.pc, present, absent)))
  {
    hide OnTrack, Present, IndexOk, LruOk;
    if th.pc.ScanMore? {
      OwnMore(sys, th, key, present, absent);
    } else {
      OwnRead(sys, th, key, present, absent);
    }
  }

  lemma OwnMore(sys: Sys, th: Thread, key: Key, present: bool, absent: bool)
    requires Sized(sys) && Sound(sys.cfg, sys.sh) && |sys.sh.chains| == |sys.sh.table|
    requires key != EMPTY || InTime(sys, th.pc)
    requires th.pc.ScanMore? && th.pc.key == key && ThreadOk(sys.cfg, sys.maxHeld, th)
    requires ScanOk(sys, th.pc, present, absent) && SeenNow(sys.sh, key, present, absent)
    ensures var m := ScanStep(sys, th);
            m.Move? && m.e == Skip && Scanning(m.th.pc, key) && ScanOk(sys, m.th.pc, present, absent)
  {
    hide OnTrack, Present, IndexOk, LruOk;
    var s, ts, curr, delta := sys.sh, th.pc.ts, th.pc.curr, th.pc.delta;
    SoundIndex(sys);
    TrackOfCheck(s, th.pc, absent);
    TrackWeakens(s, th.pc, absent, true);
    if delta != NULL_DELTA && ts == s.stamps[Segment(sys.cfg, key)] {
      Hop(sys.cfg, s, key, ts, curr, delta);
      TrackAny(s, ScanKey(key, ts, curr + delta), true, absent);
      TrackAny(s, ScanNext(key, ts, curr + delta), true, absent);
    }
    TrackOfCheck(s, ScanCheck(key, ts), absent);
  }

  lemma OwnRead(sys: Sys, th: Thread, key: Key, present: bool, absent: bool)
    requires Sized(sys) && Sound(sys.cfg, sys.sh) && |sys.sh.chains| == |sys.sh.table|
    requires key != EMPTY || InTime(sys, th.pc)
    requires Scanning(th.pc, key) && !th.pc.ScanMore? && ThreadOk(sys.cfg, sys.maxHeld, th)
    requires ScanOk(sys, th.pc, present, absent) && SeenNow(sys.sh, key, present, absent)
    ensures var m := ScanStep(sys, th);
            m.Move? && m.e == Skip
            && (th.pc.Told? || (Scanning(m.th.pc, key) && ScanOk(sys, m.th.pc, present, absent)))
  {
    hide OnTrack, Present, IndexOk, LruOk;
    var s, t := sys.sh, sys.sh.table;
    SoundIndex(sys);
    TrackOfCheck(s, th.pc, absent);
    match th.pc
    case ScanFirst(_, ts) =>
      var h := Home(key, |t|);
      FirstRead(sys.cfg, s, key, ts);
      TrackWeakens(s, ScanMore(key, ts, h, t[h].firstDelta), !Present(s, key), absent);
    case ScanKey(_, ts, curr) =>
      TrackAny(s, th.pc, absent, true);
      KeyRead(sys.cfg, s, key, ts, curr);
      TrackAny(s, ScanNext(key, ts, curr), true, absent);
    case ScanNext(_, ts, curr) =>
      TrackAny(s, th.pc, absent, true);
      if ts == s.stamps[Segment(sys.cfg, key)] {
        NextRead(sys.cfg, s, key, ts, curr);
        TrackWeakens(s, ScanMore(key, ts, curr, t[curr].nextDelta), !Present(s, key), absent);
      }
    case ScanTime(_) => TrackOfCheck(s, ScanFirst(key, s.stamps[Segment(sys.cfg, key)]), absent);
    case _ =>
  }

  lemma TrackWeakens(s: Shared, pc: Pc, a: bool, b: bool)
    requires 0 < |s.table| == |s.chains| && (a ==> b)
    ensures OnTrack(s, pc, a) ==> OnTrack(s, pc, b)
  {}

  lemma TrackAny(s: Shared, pc: Pc, a: bool, b: bool)
    requires 0 < |s.table| == |s.chains| && (pc.ScanKey? || pc.ScanNext?)
    ensures OnTrack(s, pc, a) <==> OnTrack(s, pc, b)
  {}

  lemma TrackOfCheck(s: Shared, pc: Pc, a: bool)
    requires 0 < |s.table| == |s.chains|
    ensures pc.ScanCheck? ==> (OnTrack(s, pc, a) <==> a)
    ensures pc.ScanFirst? ==> OnTrack(s, pc, a)
    ensures pc.ScanMore? && pc.delta == NULL_DELTA ==> (OnTrack(s, pc, a) <==> a)
  {}

  lemma OthersStep(sys: Sys, sys': Sys, tid: nat, ch: Choice, pc: Pc, present: bool, absent: bool)
    requires Steps(sys, sys', tid, ch) && Sized(sys') && |sys.sh.chains| == |sys.sh.table|
    requires sys.cfg.buckets == sys.cfg.segSize * sys.cfg.numSegs
    requires |sys'.sh.chains| == |sys'.sh.table| && ScanOk(sys, pc, present, absent)
    ensures ScanOk(sys', pc, present, absent)
  {
    hide OnTrack, IndexOk, LruOk, Apply, Enabled, Step;
    if HasStamp(pc) {
      EffectOnChain(sys.cfg, sys.sh, Step(sys, sys.threads[tid], ch).e, pc.key);
      var g := Segment(sys.cfg, pc.key);
      if pc.ts == sys'.sh.stamps[g] {
        OnTrackStays(sys.sh, sys'.sh, pc, absent);
      }
    }
  }

  lemma ScanOkGrows(sys: Sys, pc: Pc, p: bool, a: bool, p': bool, a': bool)
    requires Sized(sys) && |sys.sh.chains| == |sys.sh.table| && (p ==> p') && (a ==> a')
    requires ScanOk(sys, pc, p, a)
    ensures ScanOk(sys, pc, p', a')
  {
    hide OnTrack;
    TrackWeakens(sys.sh, pc, a, a');
  }

  // ---------------------------------------------------------------------------------------------
  // Runs
  // ---------------------------------------------------------------------------------------------

  ghost predicate WasPresent(r: Run, m: nat, n: nat, key: Key) {
    exists i :: m <= i <= n && i < |r.states| && PresentAt(r, i, key)
  }

  ghost predicate WasAbsent(r: Run, m: nat, n: nat, key: Key) {
    exists i :: m <= i <= n && i < |r.states| && !PresentAt(r, i, key)
  }

  ghost predicate PresentAt(r: Run, i: nat, key: Key)
    requires i < |r.states|
  {
    Present(r.states[i].sh, key)
  }

  /** Thread tid is in one call of dt_cache_contains(key) from state m through state n. */
  ghost predicate OneCall(r: Run, m: nat, n: nat, tid: nat, key: Key) {
    && m <= n < |r.states|
    && (forall i :: m <= i <= n ==> tid < |r.states[i].threads| && Scanning(r.states[i].threads[tid].pc, key))
    && r.states[m].threads[tid].pc == ScanTime(key)
    && (forall i :: m <= i < n ==> !r.states[i].threads[tid].pc.Told?)
  }

  lemma InvSizes(sys: Sys)
    requires Inv(sys)
    ensures Sized(sys) && |sys.sh.chains| == |sys.sh.table| && Sound(sys.cfg, sys.sh)
    ensures forall i :: 0 <= i < |sys.threads| ==> ThreadOk(sys.cfg, sys.maxHeld, sys.threads[i])
  {}

  lemma {:induction false} GeometryStays(r: Run, n: nat)
    requires IsRun(r) && n < |r.states|
    ensures r.states[n].cfg == r.states[0].cfg
    ensures r.states[n].cfg.buckets == r.states[n].cfg.segSize * r.states[n].cfg.numSegs
  {
    if n > 0 {
      GeometryStays(r, n - 1);
      RunSteps(r, n - 1);
    }
  }

  lemma CallOf(r: Run, m: nat, n: nat, tid: nat, key: Key)
    requires OneCall(r, m, n, tid, key)
    ensures m <= n < |r.states| && tid < |r.states[n].threads|
    ensures m == n ==> r.states[n].threads[tid].pc == ScanTime(key)
    ensures m < n ==>
              && OneCall(r, m, n - 1, tid, key)
              && Scanning(r.states[n-1].threads[tid].pc, key) && !r.states[n-1].threads[tid].pc.Told?
  {}

  lemma {:induction false} ScanInvariant(r: Run, m: nat, n: nat, tid: nat, key: Key)
    requires IsRun(r) && OneCall(r, m, n, tid, key) && key != EMPTY
    ensures n < |r.states| && tid < |r.states[n].threads|
    ensures Sized(r.states[n]) && |r.states[n].sh.chains| == |r.states[n].sh.table|
    ensures ScanOk(r.states[n], r.states[n].threads[tid].pc, WasPresent(r, m, n, key), WasAbsent(r, m, n, key))
  {
    hide IsRun, Inv, Steps, Sized, OneCall, Scanning, OnTrack, WasPresent, WasAbsent, Present;
    CallOf(r, m, n, tid, key);
    RunsAreSafe(r, n);
    InvSizes(r.states[n]);
    if m < n {
      ScanInvariant(r, m, n - 1, tid, key);
      RunsAreSafe(r, n - 1);
      GeometryStays(r, n - 1);
      RunSizes(r);
      RunSteps(r, n - 1);
      SeenLater(r, m, n - 1, key);
      SeenLater(r, m, n, key);
      ScanAdvances(r.states[n-1], r.states[n], r.tids[n-1], r.choices[n-1], tid, key,
                   WasPresent(r, m, n - 1, key), WasAbsent(r, m, n - 1, key));
      ScanOkGrows(r.states[n], r.states[n].threads[tid].pc, WasPresent(r, m, n - 1, key), WasAbsent(r, m, n - 1, key),
                  WasPresent(r, m, n, key), WasAbsent(r, m, n, key));
    }
  }

  lemma SeenLater(r: Run, m: nat, n: nat, key: Key)
    requires m <= n < |r.states|
    ensures SeenNow(r.states[n].sh, key, WasPresent(r, m, n, key), WasAbsent(r, m, n, key))
    ensures m < n ==> (WasPresent(r, m, n - 1, key) ==> WasPresent(r, m, n, key))
    ensures m < n ==> (WasAbsent(r, m, n - 1, key) ==> WasAbsent(r, m, n, key))
  {
    assert PresentAt(r, n, key) <==> Present(r.states[n].sh, key);
  }

  lemma ScanAdvances(sys: Sys, sys': Sys, stepper: nat, ch: Choice, tid: nat, key: Key, present: bool, absent: bool)
    requires Inv(sys) && Inv(sys') && Steps(sys, sys', stepper, ch) && tid < |sys.threads| && key != EMPTY
    requires Sized(sys) && |sys.sh.chains| == |sys.sh.table| && Sized(sys') && |sys'.sh.chains| == |sys'.sh.table|
    requires sys.cfg.buckets == sys.cfg.segSize * sys.cfg.numSegs
    requires Scanning(sys.threads[tid].pc, key) && !sys.threads[tid].pc.Told?
    requires ScanOk(sys, sys.threads[tid].pc, present, absent) && SeenNow(sys.sh, key, present, absent)
    ensures ScanOk(sys', sys'.threads[tid].pc, present, absent)
  {
    hide Inv, OnTrack, Present, IndexOk, LruOk, ScanOk, SeenNow, Client, GcStep, LookupStep, RemoveStep, ScanStep;
    InvSizes(sys);
    if stepper == tid {
      OwnStep(sys, sys.threads[tid], key, present, absent);
      SkipLeaves(sys, sys', stepper, ch);
      ScanOkOfShared(sys, sys', sys'.threads[tid].pc, present, absent);
    } else {
      OthersStep(sys, sys', stepper, ch, sys.threads[tid].pc, present, absent);
    }
  }

  lemma SkipLeaves(sys: Sys, sys': Sys, tid: nat, ch: Choice)
    requires Steps(sys, sys', tid, ch) && Step(sys, sys.threads[tid], ch).e == Skip
    ensures sys'.sh == sys.sh && sys'.cfg == sys.cfg
  {}

  lemma ScanOkOfShared(sys: Sys, sys': Sys, pc: Pc, present: bool, absent: bool)
    requires Sized(sys) && |sys.sh.chains| == |sys.sh.table| && ScanOk(sys, pc, present, absent)
    requires sys'.sh == sys.sh && sys'.cfg == sys.cfg
    ensures Sized(sys') && ScanOk(sys', pc, present, absent)
  {}

  /** dt_cache_contains answers 1 only if the key was in the table at some instant of the call, and 0 only if it
      was not in the table at some instant of the call. */
  lemma ContainsIsLinearizable(r: Run, m: nat, n: nat, tid: nat, key: Key)
    requires IsRun(r) && OneCall(r, m, n, tid, key) && key != EMPTY
    requires r.states[n].threads[tid].pc.Told?
    ensures exists i :: m <= i <= n && i < |r.states|
                        && (PresentAt(r, i, key) <==> r.states[n].threads[tid].pc.found)
  {
    ScanInvariant(r, m, n, tid, key);
  }
}
