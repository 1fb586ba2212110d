/** The event list of an OpenCL device (src/common/opencl.c): slots that the driver stores event handles in, and
    that are consolidated, that is waited for, read and released, in batches. */
module OpenclEvents {
  const EVENTLISTSIZE := 256
  const EVENTNAMELENGTH := 64
  const CL_SUCCESS := 0
  const CL_COMPLETE := 0

  /** A cl_event; the zero event marks a slot that no command has consumed. */
  type Event = nat

  /** struct dt_opencl_eventtag_t */
  datatype Tag = Tag(name: string, retval: int, timelapsed: int)

  const NO_TAG := Tag("", 0, 0)

  /** What the driver answers about an event: execution status, and the start and end of execution. */
  datatype Info = Info(err: int, status: int, errs: int, erre: int, start: int, end: int)

  /** The event list as a value.  stored, released and waited record the handles that the driver has put into
      slots, those passed to clReleaseEvent, and the lists passed to clWaitForEvents. */
  datatype Events = Events(ready: bool, list: seq<Event>, tags: seq<Tag>, consolidated: nat, lost: nat, summary: int,
                           stored: seq<Event>, released: seq<Event>, waited: seq<seq<Event>>)

  function Max(s: Events): nat {
    |s.tags|
  }

  function Blank(n: nat): (t: seq<Tag>)
    ensures |t| == n && forall i :: 0 <= i < n ==> t[i] == NO_TAG
  {
    seq(n, _ => NO_TAG)
  }

  predicate Unconsumed(list: seq<Event>) {
    list != [] && list[|list| - 1] == 0
  }

  /** 0 <= consolidated <= numevents <= maxevents, and only the last slot may be unconsumed. */
  predicate EventsOk(s: Events) {
    && s.consolidated <= |s.list| <= Max(s)
    && (!s.ready ==> Max(s) == 0)
    && (forall k :: 0 <= k < |s.list| - 1 ==> s.list[k] != 0)
    && (Unconsumed(s.list) ==> s.consolidated < |s.list|)
  }

  /** strncpy into the name of a tag; no name for NULL. */
  function Named(t: Tag, name: string): Tag {
    t.(name := if |name| > EVENTNAMELENGTH then name[..EVENTNAMELENGTH] else name)
  }

  // ---------------------------------------------------------------------------------------------
  // The operations on values
  // ---------------------------------------------------------------------------------------------

  function Allocated(s: Events): Events {
    if s.ready then s else s.(ready := true, tags := Blank(EVENTLISTSIZE))
  }

  function Grown(s: Events): Events {
    if |s.list| == Max(s) then s.(tags := s.tags + Blank(EVENTLISTSIZE)) else s
  }

  /** The last slot again, or a new one. */
  function Reused(s: Events, name: string): Events
    requires EventsOk(s) && s.list != []
  {
    var n := |s.list|;
    s.(lost := s.lost + 1, tags := s.tags[n - 1 := Named(s.tags[n - 1], name)])
  }

  function Appended(s: Events, name: string): Events
    requires |s.list| < Max(s)
  {
    var n := |s.list|;
    s.(list := s.list + [0], tags := s.tags[n := Named(s.tags[n], name)])
  }

  /** dt_opencl_events_get_slot; memory says whether the allocations that are needed succeed. */
  function WithSlot(s: Events, name: string, memory: bool): Events
    requires EventsOk(s)
  {
    if !s.ready && !memory then s else
      var s := Allocated(s);
      if Unconsumed(s.list) then Reused(s, name)
      else if |s.list| == Max(s) && !memory then s
      else Appended(Grown(s), name)
  }

  /** The driver stores the handle of a command in the slot that was handed out last. */
  function WithEvent(s: Events, e: Event): Events
    requires Unconsumed(s.list)
  {
    s.(list := s.list[|s.list| - 1 := e], stored := s.stored + [e])
  }

  /** dt_opencl_events_wait_for */
  function Awaited(s: Events): Events
    requires EventsOk(s)
  {
    if !s.ready || s.list == [] then s else
      var s := Trimmed(s);
      if |s.list| == s.consolidated then s else s.(waited := s.waited + [s.list[s.consolidated..]])
  }

  /** Without a last slot that nobody consumed. */
  function Trimmed(s: Events): (t: Events)
    requires EventsOk(s)
    ensures t.consolidated == s.consolidated <= |t.list|
  {
    if Unconsumed(s.list) then s.(list := s.list[..|s.list| - 1], lost := s.lost + 1) else s
  }

  predicate Timed(info: Info) {
    info.errs == CL_SUCCESS && info.erre == CL_SUCCESS
  }

  /** The tag of an event that has terminated. */
  function WithStatus(t: Tag, info: Info): Tag {
    if info.err == CL_SUCCESS then t.(retval := info.status) else t
  }

  function WithTimes(t: Tag, info: Info): Tag {
    t.(timelapsed := if Timed(info) then info.end - info.start else 0)
  }

  /** One turn of the loop of dt_opencl_events_flush, on the slot after the consolidated ones. */
  function Consolidate(s: Events, info: Info): Events
    requires s.consolidated < |s.list| <= Max(s)
  {
    var k := s.consolidated;
    s.(tags := s.tags[k := WithTimes(WithStatus(s.tags[k], info), info)],
       summary := if info.err == CL_SUCCESS && info.status != CL_COMPLETE then info.status else s.summary,
       lost := if Timed(info) then s.lost else s.lost + 1,
       released := s.released + [s.list[k]],
       consolidated := k + 1)
  }

  function ConsolidateAll(s: Events, driver: Event -> Info): (r: Events)
    requires s.consolidated <= |s.list| <= Max(s)
    ensures r.consolidated == |r.list| && r.list == s.list && Max(r) == Max(s) && r.ready == s.ready
    ensures r.released == s.released + s.list[s.consolidated..] && r.stored == s.stored && r.waited == s.waited
    decreases |s.list| - s.consolidated
  {
    if s.consolidated == |s.list| then s
    else
      var t := Consolidate(s, driver(s.list[s.consolidated]));
      assert s.list[s.consolidated..] == [s.list[s.consolidated]] + s.list[s.consolidated + 1..];
      ConsolidateAll(t, driver)
  }

  /** dt_opencl_events_reset */
  function Emptied(s: Events): Events
    requires EventsOk(s)
  {
    if !s.ready || s.list == [] then s
    else s.(released := s.released + s.list[s.consolidated..], tags := Blank(Max(s)), list := [], consolidated := 0,
            lost := 0, summary := CL_COMPLETE)
  }

  /** dt_opencl_events_flush */
  function Flushed(s: Events, reset: bool, driver: Event -> Info): Events
    requires EventsOk(s)
  {
    if !s.ready || s.list == [] then s else
      AwaitedIs(s);
      StaysOk(Awaited(s), driver);
      var s := ConsolidateAll(Awaited(s), driver);
      if reset then Emptied(s) else s
  }

  /** The status that dt_opencl_events_flush returns. */
  function FlushResult(s: Events, driver: Event -> Info): int
    requires EventsOk(s)
  {
    if !s.ready || s.list == [] then CL_COMPLETE else
      AwaitedIs(s);
      ConsolidateAll(Awaited(s), driver).summary
  }

  // ---------------------------------------------------------------------------------------------
  // What the operations leave, slot by slot
  // ---------------------------------------------------------------------------------------------

  /** Whether dt_opencl_events_get_slot finds a slot: the memory that it needs, or none needed. */
  predicate HasSlot(s: Events, memory: bool) {
    memory || (s.ready && (Unconsumed(s.list) || |s.list| < Max(s)))
  }

  /** From s to t the last slot was handed out under a name, of which the tag keeps what fits; every other tag is what
      it was, or blank if it is new. */
  ghost predicate HandedOut(s: Events, t: Events, name: string) {
    var slot := |t.list| - 1;
    && t.ready && t.list == (if Unconsumed(s.list) then s.list else s.list + [0])
    && t.lost == (if Unconsumed(s.list) then s.lost + 1 else s.lost)
    && Max(t) == (if !s.ready || (!Unconsumed(s.list) && |s.list| == Max(s)) then Max(s) + EVENTLISTSIZE else Max(s))
    && t == s.(ready := t.ready, list := t.list, lost := t.lost, tags := t.tags)
    && Max(s) <= Max(t) && 0 <= slot < Max(t)
    && (forall k :: 0 <= k < Max(t) && k != slot ==> t.tags[k] == if k < Max(s) then s.tags[k] else NO_TAG)
    && t.tags[slot].name <= name
    && |t.tags[slot].name| == (if |name| < EVENTNAMELENGTH then |name| else EVENTNAMELENGTH)
    && t.tags[slot] == (if slot < Max(s) then s.tags[slot] else NO_TAG).(name := t.tags[slot].name)
  }

  /** Asking for a slot hands one out, or changes nothing. */
  lemma SlotMeans(s: Events, name: string, memory: bool)
    requires EventsOk(s)
    ensures if HasSlot(s, memory) then HandedOut(s, WithSlot(s, name, memory), name) else WithSlot(s, name, memory) == s
  {}

  /** How many of the events have no profiling times. */
  function Untimed(list: seq<Event>, driver: Event -> Info): nat {
    if list == [] then 0 else (if Timed(driver(list[0])) then 0 else 1) + Untimed(list[1..], driver)
  }

  /** From s to t the slots from s.consolidated on were consolidated: the tags say what the driver knows about their
      events. */
  ghost predicate Told(s: Events, t: Events, driver: Event -> Info)
    requires s.consolidated <= |s.list|
  {
    && t.list == s.list && t.consolidated == |s.list| <= Max(s) == Max(t)
    && t.lost == s.lost + Untimed(s.list[s.consolidated..], driver)
    && (forall k :: 0 <= k < Max(s) && !(s.consolidated <= k < |s.list|) ==> t.tags[k] == s.tags[k])
    && (forall k :: s.consolidated <= k < |s.list| ==> ToldAt(s.tags[k], t.tags[k], driver(s.list[k])))
  }

  predicate ToldAt(was: Tag, now: Tag, info: Info) {
    && now.name == was.name
    && now.retval == (if info.err == CL_SUCCESS then info.status else was.retval)
    && now.timelapsed == (if info.errs == CL_SUCCESS && info.erre == CL_SUCCESS then info.end - info.start else 0)
  }

  lemma {:induction false} ConsolidateTells(s: Events, driver: Event -> Info)
    requires s.consolidated <= |s.list| <= Max(s)
    ensures Told(s, ConsolidateAll(s, driver), driver)
    decreases |s.list| - s.consolidated
  {
    if s.consolidated < |s.list| {
      var x := s.list[s.consolidated..];
      var t := Consolidate(s, driver(x[0]));
      ConsolidateTells(t, driver);
      assert ConsolidateAll(s, driver) == ConsolidateAll(t, driver);
      assert x[1..] == t.list[t.consolidated..];
    }
  }

  // ---------------------------------------------------------------------------------------------
  // The code
  // ---------------------------------------------------------------------------------------------

  lemma AllocatedIs(s: Events)
    ensures s.ready ==> Allocated(s) == s
    ensures Allocated(s).ready && Allocated(s).list == s.list
    ensures !s.ready ==> Max(Allocated(s)) == EVENTLISTSIZE
  {}

  lemma GrownIs(s: Events)
    ensures |s.list| != Max(s) ==> Grown(s) == s
    ensures Grown(s).list == s.list
  {}

  class EventList {
    var eventlist: array?<Event>
    var eventtags: array?<Tag>
    var numevents: nat
    var maxevents: nat
    var eventsconsolidated: nat
    var lostevents: nat
    var summary: int
    ghost var stored: seq<Event>
    ghost var released: seq<Event>
    ghost var waited: seq<seq<Event>>

    ghost predicate Shaped()
      reads this
    {
      && (eventlist == null <==> eventtags == null)
      && (eventlist != null ==> eventlist.Length == eventtags.Length == maxevents && numevents <= maxevents)
      && (eventlist == null ==> maxevents == numevents == 0)
    }

    ghost predicate Valid()
      reads this, eventlist, eventtags
    {
      Shaped() && EventsOk(State())
    }

    ghost function State(): Events
      requires Shaped()
      reads this, eventlist, eventtags
    {
      Events(eventlist != null, if eventlist == null then [] else eventlist[..numevents],
             if eventtags == null then [] else eventtags[..], eventsconsolidated, lostevents, summary,
             stored, released, waited)
    }

    constructor ()
      ensures Valid() && State() == Events(false, [], [], 0, 0, CL_COMPLETE, [], [], [])
    {
      eventlist, eventtags := null, null;
      numevents, maxevents, eventsconsolidated, lostevents, summary := 0, 0, 0, 0, CL_COMPLETE;
      stored, released, waited := [], [], [];
    }

    /** dt_opencl_events_get_slot: the index of the slot, or -1 for NULL. */
    method GetSlot(name: string, mallocList: bool, mallocTags: bool) returns (slot: int)
      requires Valid()
      modifies this, eventlist, eventtags
      ensures Valid() && State() == WithSlot(old(State()), name, mallocList && mallocTags)
      ensures slot == -1 ==> State() == old(State())
      ensures slot != -1 ==> HandedOut(old(State()), State(), name)
      ensures slot == -1 || (0 <= slot == numevents - 1 && Unconsumed(State().list))
      ensures slot == -1 <==> !(mallocList && mallocTags)
                              && (!old(State()).ready
                                  || (!old(Unconsumed(State().list)) && |old(State()).list| == Max(old(State()))))
      ensures eventlist != old(eventlist) ==> fresh(eventlist)
      ensures eventtags != old(eventtags) ==> fresh(eventtags)
    {
      hide Allocated, Grown, Reused, Appended;
      ghost var s := State();
      AllocatedIs(s);
      SlotMeans(s, name, mallocList && mallocTags);
      if eventlist == null {
        if !mallocList || !mallocTags { return -1; }
        Allocate();
      }
      if numevents > 0 && eventlist[numevents-1] == 0 {
        Reuse(name);
        return numevents - 1;
      }
      GrownIs(State());
      if numevents == maxevents {
        if !mallocList || !mallocTags { return -1; }
        Grow();
      }
      Append(name);
      return numevents - 1;
    }

    /** The first buffers. */
    method Allocate()
      requires Valid() && eventlist == null
      modifies this
      ensures Valid() && State() == Allocated(old(State())) && eventlist != null
      ensures fresh(eventlist) && fresh(eventtags)
    {
      eventlist := new Event[EVENTLISTSIZE];
      eventtags := new Tag[EVENTLISTSIZE](_ => NO_TAG);
      maxevents := EVENTLISTSIZE;
      assert eventtags[..] == Blank(EVENTLISTSIZE);
    }

    /** The last slot was not consumed: it is handed out again. */
    method Reuse(name: string)
      requires Valid() && eventlist != null && Unconsumed(State().list)
      modifies this, eventtags
      ensures Valid() && State() == Reused(old(State()), name) && Unconsumed(State().list)
      ensures eventlist == old(eventlist) && eventtags == old(eventtags)
    {
      lostevents := lostevents + 1;
      eventtags[numevents-1] := Named(eventtags[numevents-1], name);
    }

    /** A new slot, with the zero event in it. */
    method Append(name: string)
      requires Valid() && eventlist != null && numevents < maxevents && !Unconsumed(State().list)
      modifies this, eventlist, eventtags
      ensures Valid() && State() == Appended(old(State()), name) && Unconsumed(State().list)
      ensures eventlist == old(eventlist) && eventtags == old(eventtags) && numevents > 0
    {
      ghost var list := eventlist[..numevents];
      numevents := numevents + 1;
      eventlist[numevents-1] := 0;
      eventtags[numevents-1] := Named(eventtags[numevents-1], name);
      assert eventlist[..numevents] == list + [0];
      assert forall k :: 0 <= k < |list| ==> list[k] != 0;
    }

    /** The larger buffers, with everything copied over. */
    method Grow()
      requires Valid() && eventlist != null && numevents == maxevents
      modifies this
      ensures Valid() && State() == Grown(old(State())) && numevents < maxevents == old(maxevents) + EVENTLISTSIZE
      ensures State().list == old(State()).list
      ensures forall k :: 0 <= k < maxevents ==>
                State().tags[k] == if k < old(maxevents) then old(State()).tags[k] else NO_TAG
      ensures fresh(eventlist) && fresh(eventtags)
    {
      ghost var s := State();
      var newevents := maxevents + EVENTLISTSIZE;
      var neweventlist := new Event[newevents];
      var neweventtags := new Tag[newevents](_ => NO_TAG);
      for k := 0 to maxevents
        modifies neweventlist, neweventtags
        invariant forall m :: 0 <= m < k ==> neweventlist[m] == eventlist[m] && neweventtags[m] == eventtags[m]
        invariant forall m :: k <= m < newevents ==> neweventtags[m] == NO_TAG
      {
        neweventlist[k] := eventlist[k];
        neweventtags[k] := eventtags[k];
      }
      eventlist := neweventlist;
      eventtags := neweventtags;
      maxevents := newevents;
      assert eventtags[..] == s.tags + Blank(EVENTLISTSIZE);
      assert eventlist[..numevents] == s.list;
    }

    /** The command that got the slot is enqueued: the driver stores its handle there. */
    method Enqueue(e: Event)
      requires Valid() && Unconsumed(State().list) && e != 0
      modifies this`stored, eventlist
      ensures Valid() && State() == WithEvent(old(State()), e)
      ensures var s := old(State());
              State() == s.(list := s.list[|s.list| - 1 := e], stored := s.stored + [e])
    {
      ghost var list := eventlist[..numevents];
      eventlist[numevents-1] := e;
      stored := stored + [e];
      assert eventlist[..numevents] == list[|list| - 1 := e];
    }

    /** clWaitForEvents and clReleaseEvent */
    ghost method ClWaitForEvents(events: seq<Event>)
      modifies this`waited
      ensures waited == old(waited) + [events]
    {
      waited := waited + [events];
    }

    ghost method ClReleaseEvent(e: Event)
      modifies this`released
      ensures released == old(released) + [e]
    {
      released := released + [e];
    }

    /** dt_opencl_events_wait_for */
    method WaitFor()
      requires Valid()
      modifies this`numevents, this`lostevents, this`waited
      ensures Valid() && State() == Awaited(old(State()))
      ensures !Unconsumed(old(State()).list) ==> State().(waited := old(State()).waited) == old(State())
      ensures var s := old(State());
              Unconsumed(s.list) ==>
                State() == s.(list := s.list[..|s.list| - 1], lost := s.lost + 1, waited := State().waited)
    {
      hide EventsOk, Trimmed;
      ghost var s := State();
      AwaitedIs(s);
      if eventlist == null || numevents == 0 { return; }
      TrimmedIs(s);
      if eventlist[numevents-1] == 0 {
        numevents := numevents - 1;
        lostevents := lostevents + 1;
        assert eventlist[..numevents] == s.list[..|s.list| - 1];
      }
      assert State() == Trimmed(s);
      if numevents == eventsconsolidated { return; }
      assert numevents > eventsconsolidated;
      assert eventlist[eventsconsolidated..numevents] == Trimmed(s).list[eventsconsolidated..];
      ClWaitForEvents(eventlist[eventsconsolidated..numevents]);
    }

    /** dt_opencl_events_flush.  driver is what the driver says about each event. */
    method Flush(reset: bool, driver: Event -> Info) returns (result: int)
      requires Valid()
      modifies this, eventlist, eventtags
      ensures Valid() && State() == Flushed(old(State()), reset, driver)
      ensures result == FlushResult(old(State()), driver)
      ensures eventlist == old(eventlist) && eventtags == old(eventtags)
    {
      hide ConsolidateAll, Awaited, Emptied, EventsOk;
      if eventlist == null || numevents == 0 { return CL_COMPLETE; }
      ghost var s := State();
      WaitFor();
      AwaitedIs(s);
      StaysOk(State(), driver);
      ConsolidateRest(driver);
      result := summary;
      if reset {
        Reset();
      }
      result := if result == CL_COMPLETE then 0 else result;
    }

    /** The loop of dt_opencl_events_flush. */
    method ConsolidateRest(driver: Event -> Info)
      requires Shaped() && eventlist != null && eventsconsolidated <= numevents
      modifies this, eventtags
      ensures Shaped() && State() == ConsolidateAll(old(State()), driver)
      ensures eventlist == old(eventlist) && eventtags == old(eventtags)
    {
      hide ConsolidateAll;
      ghost var s := State();
      while eventsconsolidated < numevents
        invariant Shaped() && eventlist != null && eventlist == old(eventlist) && eventtags == old(eventtags)
        invariant eventsconsolidated <= |State().list| <= Max(State())
        invariant ConsolidateAll(State(), driver) == ConsolidateAll(s, driver)
      {
        ConsolidatedIs(State(), driver);
        ConsolidateOne(driver(eventlist[eventsconsolidated]));
      }
      ConsolidatedIs(State(), driver);
    }

    /** The body of the loop of dt_opencl_events_flush. */
    method ConsolidateOne(info: Info)
      requires Shaped() && eventlist != null && eventsconsolidated < numevents
      modifies this, eventtags
      ensures Shaped() && State() == Consolidate(old(State()), info)
      ensures eventlist == old(eventlist) && eventtags == old(eventtags)
    {
      hide WithStatus, WithTimes;
      ghost var s := State();
      var k := eventsconsolidated;
      ReadStatus(k, info);
      ReadTimes(k, info);
      assert eventtags[..] == s.tags[k := WithTimes(WithStatus(s.tags[k], info), info)];
      assert eventlist[k] == s.list[k];
      ClReleaseEvent(eventlist[k]);
      eventsconsolidated := eventsconsolidated + 1;
    }

    /** The return status of the event. */
    method ReadStatus(k: nat, info: Info)
      requires eventtags != null && k < eventtags.Length
      modifies this`summary, eventtags
      ensures eventtags[..] == old(eventtags[..])[k := WithStatus(old(eventtags[k]), info)]
      ensures summary == if info.err == CL_SUCCESS && info.status != CL_COMPLETE then info.status else old(summary)
    {
      if info.err == CL_SUCCESS {
        eventtags[k] := eventtags[k].(retval := info.status);
        if info.status != CL_COMPLETE { summary := info.status; }
      }
    }

    /** The profiling information of the event. */
    method ReadTimes(k: nat, info: Info)
      requires eventtags != null && k < eventtags.Length
      modifies this`lostevents, eventtags
      ensures eventtags[..] == old(eventtags[..])[k := WithTimes(old(eventtags[k]), info)]
      ensures lostevents == if Timed(info) then old(lostevents) else old(lostevents) + 1
    {
      if info.errs == CL_SUCCESS && info.erre == CL_SUCCESS {
        eventtags[k] := eventtags[k].(timelapsed := info.end - info.start);
      } else {
        eventtags[k] := eventtags[k].(timelapsed := 0);
        lostevents := lostevents + 1;
      }
    }

    /** dt_opencl_events_reset */
    method Reset()
      requires Valid()
      modifies this, eventtags
      ensures Valid() && State() == Emptied(old(State()))
      ensures old(State()).list == [] ==> State() == old(State())
      ensures old(State()).list != [] ==>
                && State().list == [] && State().consolidated == 0 && State().lost == 0
                && State().summary == CL_COMPLETE
                && Max(State()) == Max(old(State()))
                && forall k :: 0 <= k < Max(State()) ==> State().tags[k] == NO_TAG
      ensures eventlist == old(eventlist) && eventtags == old(eventtags)
    {
      if eventlist == null || numevents == 0 { return; }
      ghost var s := State();
      for k := eventsconsolidated to numevents
        invariant Shaped() && eventlist == old(eventlist) && eventtags == old(eventtags) && eventlist != null
        invariant released == s.released + s.list[s.consolidated..k] && State().(released := s.released) == s
      {
        ClReleaseEvent(eventlist[k]);
      }
      for k := 0 to maxevents
        invariant Shaped() && eventlist == old(eventlist) && eventtags == old(eventtags) && eventlist != null
        invariant State().(tags := s.tags) == s.(released := s.released + s.list[s.consolidated..])
        invariant forall m :: 0 <= m < k ==> eventtags[m] == NO_TAG
      {
        eventtags[k] := NO_TAG;
      }
      assert eventtags[..] == Blank(maxevents);
      numevents := 0;
      eventsconsolidated := 0;
      lostevents := 0;
      summary := CL_COMPLETE;
    }
  }

  lemma TrimmedIs(s: Events)
    requires EventsOk(s)
    ensures Trimmed(s) == if Unconsumed(s.list) then s.(list := s.list[..|s.list| - 1], lost := s.lost + 1) else s
  {}

  lemma AwaitedIs(s: Events)
    requires EventsOk(s)
    ensures EventsOk(Awaited(s)) && !Unconsumed(Awaited(s).list)
    ensures Awaited(s).consolidated <= |Awaited(s).list| <= Max(Awaited(s))
    ensures Awaited(s).ready == s.ready && Awaited(s).released == s.released && Awaited(s).stored == s.stored
  {}

  lemma ConsolidatedIs(s: Events, driver: Event -> Info)
    requires s.consolidated <= |s.list| <= Max(s)
    ensures s.consolidated < |s.list| ==>
              ConsolidateAll(s, driver) == ConsolidateAll(Consolidate(s, driver(s.list[s.consolidated])), driver)
    ensures s.consolidated == |s.list| ==> ConsolidateAll(s, driver) == s
  {}

  lemma StaysOk(s: Events, driver: Event -> Info)
    requires EventsOk(s) && !Unconsumed(s.list)
    ensures EventsOk(ConsolidateAll(s, driver))
  {}

  // ---------------------------------------------------------------------------------------------
  // Runs: any sequence of calls, and of commands that consume the slot that was handed out last
  // ---------------------------------------------------------------------------------------------

  datatype Call =
    | CallGetSlot(name: string, memory: bool)
    | CallEnqueue(e: Event)
    | CallWaitFor
    | CallFlush(reset: bool, driver: Event -> Info)
    | CallReset

  /** An enqueued command needs the last slot, and its handle is not zero. */
  predicate Possible(s: Events, c: Call) {
    c.CallEnqueue? ==> Unconsumed(s.list) && c.e != 0
  }

  function AfterCall(s: Events, c: Call): Events
    requires EventsOk(s) && Possible(s, c)
  {
    match c
    case CallGetSlot(name, memory) => WithSlot(s, name, memory)
    case CallEnqueue(e) => WithEvent(s, e)
    case CallWaitFor => Awaited(s)
    case CallFlush(reset, driver) => Flushed(s, reset, driver)
    case CallReset => Emptied(s)
  }

  /** The handles among a list of slots. */
  function Handles(list: seq<Event>): (h: multiset<Event>)
    ensures 0 !in h
  {
    multiset(list)[0 := 0]
  }

  lemma HandlesAdd(x: seq<Event>, y: seq<Event>)
    ensures Handles(x + y) == Handles(x) + Handles(y)
  {}

  /** Handles in slots that have not been consolidated. */
  function Pending(s: Events): multiset<Event> {
    if s.consolidated <= |s.list| then Handles(s.list[s.consolidated..]) else multiset{}
  }

  /** Every handle that the driver has stored is either pending, or has been released exactly as often as it was
      stored. */
  ghost predicate Conserved(s: Events) {
    Handles(s.stored) == Handles(s.released) + Pending(s)
  }

  /** Everything that was ever waited for is a handle. */
  predicate WaitsForHandles(s: Events) {
    forall i, k :: 0 <= i < |s.waited| && 0 <= k < |s.waited[i]| ==> s.waited[i][k] != 0
  }

  ghost predicate EventsInv(s: Events) {
    EventsOk(s) && Conserved(s) && WaitsForHandles(s)
  }

  /** The driver knows that the command of event e has failed. */
  predicate Failed(driver: Event -> Info, e: Event) {
    driver(e).err == CL_SUCCESS && driver(e).status != CL_COMPLETE
  }

  /** The statuses of those events that are known to have failed, in order. */
  function FailedStatuses(list: seq<Event>, driver: Event -> Info): seq<int> {
    if list == [] then []
    else (if Failed(driver, list[0]) then [driver(list[0]).status] else []) + FailedStatuses(list[1..], driver)
  }

  function LastOf(x: seq<int>, default: int): int {
    if x == [] then default else x[|x| - 1]
  }

  /** The events in slots that have been consumed and not yet consolidated. */
  function Unconsolidated(s: Events): seq<Event>
    requires EventsOk(s)
  {
    if Unconsumed(s.list) then s.list[s.consolidated..|s.list| - 1] else s.list[s.consolidated..]
  }

  /** The summary after a consolidation is the status of the last event that has failed, or the earlier summary. */
  lemma {:induction false} SummaryIsLastFailure(s: Events, driver: Event -> Info)
    requires s.consolidated <= |s.list| <= Max(s)
    ensures ConsolidateAll(s, driver).summary == LastOf(FailedStatuses(s.list[s.consolidated..], driver), s.summary)
    decreases |s.list| - s.consolidated
  {
    if s.consolidated < |s.list| {
      var x := s.list[s.consolidated..];
      var t := Consolidate(s, driver(x[0]));
      SummaryIsLastFailure(t, driver);
      assert ConsolidateAll(s, driver) == ConsolidateAll(t, driver);
      assert x[1..] == t.list[t.consolidated..];
    }
  }

  /** What a call of dt_opencl_events_get_slot does to the slots. */
  lemma SlotIs(s: Events, name: string, memory: bool)
    requires EventsOk(s)
    ensures var t := WithSlot(s, name, memory);
            && EventsOk(t) && (t.list == s.list || t.list == s.list + [0]) && t.consolidated == s.consolidated
            && t.stored == s.stored && t.released == s.released && t.waited == s.waited
  {}

  lemma PendingZero(s: Events, t: Events)
    requires s.consolidated == t.consolidated <= |s.list| && t.list == s.list + [0]
    ensures Pending(t) == Pending(s)
  {
    assert t.list[s.consolidated..] == s.list[s.consolidated..] + [0];
    HandlesAdd(s.list[s.consolidated..], [0]);
    assert Handles([0]) == multiset{};
  }

  lemma GetSlotKeeps(s: Events, name: string, memory: bool)
    requires EventsInv(s)
    ensures EventsInv(WithSlot(s, name, memory))
  {
    hide WithSlot, Pending, Handles;
    SlotIs(s, name, memory);
    var t := WithSlot(s, name, memory);
    if t.list != s.list { PendingZero(s, t); } else { PendingSame(s, t); }
  }

  lemma PendingSame(s: Events, t: Events)
    requires s.consolidated == t.consolidated && t.list == s.list
    ensures Pending(t) == Pending(s)
  {}

  lemma EnqueueKeeps(s: Events, e: Event)
    requires EventsInv(s) && Unconsumed(s.list) && e != 0
    ensures EventsInv(WithEvent(s, e))
  {
    var t, n := WithEvent(s, e), |s.list| - 1;
    assert s.list[s.consolidated..] == s.list[s.consolidated..n] + [0];
    assert t.list[s.consolidated..] == s.list[s.consolidated..n] + [e];
    HandlesAdd(s.list[s.consolidated..n], [0]);
    HandlesAdd(s.list[s.consolidated..n], [e]);
    HandlesAdd(s.stored, [e]);
    assert Handles([0]) == multiset{};
  }

  lemma TrimmedKeeps(s: Events)
    requires EventsOk(s)
    ensures Pending(Trimmed(s)) == Pending(s) && EventsOk(Trimmed(s))
    ensures forall k :: 0 <= k < |Trimmed(s).list| ==> Trimmed(s).list[k] != 0
    ensures var t := Trimmed(s); t.stored == s.stored && t.released == s.released && t.waited == s.waited
  {
    if Unconsumed(s.list) {
      var t := Trimmed(s);
      assert s.list == t.list + [0];
      PendingZero(t, s);
    }
  }

  /** The list that is waited for is that of all unconsolidated consumed slots, and it is not empty. */
  lemma WaitKeeps(s: Events)
    requires EventsInv(s)
    ensures EventsInv(Awaited(s)) && Pending(Awaited(s)) == Pending(s)
    ensures Awaited(s).waited == s.waited
            || (Awaited(s).waited == s.waited + [Awaited(s).list[s.consolidated..]]
                && Awaited(s).list[s.consolidated..] != []
                && Handles(Awaited(s).list[s.consolidated..]) == Pending(s))
  {
    hide Trimmed, Handles;
    TrimmedKeeps(s);
    TrimmedIs(s);
    PendingSame(Trimmed(s), Awaited(s).(list := Trimmed(s).list));
    WaitsMore(s.waited, Trimmed(s).list[s.consolidated..]);
  }

  lemma WaitsMore(waited: seq<seq<Event>>, list: seq<Event>)
    requires forall i, k :: 0 <= i < |waited| && 0 <= k < |waited[i]| ==> waited[i][k] != 0
    requires forall k :: 0 <= k < |list| ==> list[k] != 0
    ensures var w := waited + [list]; forall i, k :: 0 <= i < |w| && 0 <= k < |w[i]| ==> w[i][k] != 0
  {}

  lemma ConsolidateKeeps(s: Events, driver: Event -> Info)
    requires EventsInv(s) && !Unconsumed(s.list)
    ensures EventsInv(ConsolidateAll(s, driver)) && Pending(ConsolidateAll(s, driver)) == multiset{}
  {
    HandlesAdd(s.released, s.list[s.consolidated..]);
  }

  lemma ResetKeeps(s: Events)
    requires EventsInv(s)
    ensures EventsInv(Emptied(s)) && Pending(Emptied(s)) == multiset{}
  {
    if s.ready && s.list != [] {
      HandlesAdd(s.released, s.list[s.consolidated..]);
    }
  }

  lemma FlushKeeps(s: Events, reset: bool, driver: Event -> Info)
    requires EventsInv(s)
    ensures EventsInv(Flushed(s, reset, driver)) && Pending(Flushed(s, reset, driver)) == multiset{}
  {
    hide EventsInv, ConsolidateAll, Emptied, Awaited, Pending;
    InvIs(s);
    if s.ready && s.list != [] {
      WaitKeeps(s);
      AwaitedIs(s);
      ConsolidateKeeps(Awaited(s), driver);
      InvIs(ConsolidateAll(Awaited(s), driver));
      ResetKeeps(ConsolidateAll(Awaited(s), driver));
    } else {
      NothingPending(s);
    }
  }

  lemma InvIs(s: Events)
    requires EventsInv(s)
    ensures EventsOk(s)
  {}

  lemma NothingPending(s: Events)
    requires EventsOk(s) && (!s.ready || s.list == [])
    ensures Pending(s) == multiset{}
  {}

  /** Every call keeps the discipline of the list and the balance of the handles. */
  lemma CallKeepsInv(s: Events, c: Call)
    requires EventsInv(s) && Possible(s, c)
    ensures EventsInv(AfterCall(s, c))
    ensures c.CallFlush? || c.CallReset? ==> Pending(AfterCall(s, c)) == multiset{}
  {
    hide EventsInv, WithSlot, WithEvent, Awaited, Flushed, Emptied, Pending;
    match c
    case CallGetSlot(name, memory) => GetSlotKeeps(s, name, memory);
    case CallEnqueue(e) => EnqueueKeeps(s, e);
    case CallWaitFor => WaitKeeps(s);
    case CallFlush(reset, driver) => FlushKeeps(s, reset, driver);
    case CallReset => ResetKeeps(s);
  }

  datatype EventRun = EventRun(states: seq<Events>, calls: seq<Call>)

  /** Before the first call. */
  function NewEvents(): Events {
    Events(false, [], [], 0, 0, CL_COMPLETE, [], [], [])
  }

  /** One call.  Outside of EventsOk the code could do anything, so that nothing is said about what follows. */
  ghost predicate Follows(s: Events, c: Call, s': Events) {
    Possible(s, c) && (EventsOk(s) ==> s' == AfterCall(s, c))
  }

  ghost predicate IsEventRun(r: EventRun) {
    && |r.states| == |r.calls| + 1 && r.states[0] == NewEvents()
    && forall i :: 0 <= i < |r.calls| ==> Follows(r.states[i], r.calls[i], r.states[i+1])
  }

  /** In every run 0 <= eventsconsolidated <= numevents <= maxevents, only the last slot can be unconsumed, and
      right after a flush or a reset every handle that the driver ever stored has been released exactly once. */
  lemma {:induction false} EventsAreReleasedOnce(r: EventRun, n: nat)
    requires IsEventRun(r) && n < |r.states|
    ensures EventsInv(r.states[n])
    ensures n > 0 && (r.calls[n-1].CallFlush? || r.calls[n-1].CallReset?) ==>
              Handles(r.states[n].released) == Handles(r.states[n].stored)
  {
    hide AfterCall;
    if n > 0 {
      EventsAreReleasedOnce(r, n - 1);
      assert Follows(r.states[n-1], r.calls[n-1], r.states[n]);
      CallKeepsInv(r.states[n-1], r.calls[n-1]);
    }
  }

  lemma ZeroesInFlush(s: Events, reset: bool, driver: Event -> Info)
    requires EventsOk(s)
    ensures multiset(Flushed(s, reset, driver).released)[0] == multiset(s.released)[0]
  {
    hide ConsolidateAll, Trimmed;
    if s.ready && s.list != [] {
      AwaitedIs(s);
      TrimmedKeeps(s);
      StaysOk(Awaited(s), driver);
      var t := Awaited(s);
      NoZero(t.list[t.consolidated..]);
      CountAdds(t.released, t.list[t.consolidated..]);
      var u := ConsolidateAll(t, driver);
      CountAdds(u.released, u.list[u.consolidated..]);
    }
  }

  lemma ZeroesInReset(s: Events)
    requires EventsOk(s)
    ensures multiset(Emptied(s).released)[0]
         == multiset(s.released)[0] + (if s.ready && Unconsumed(s.list) then 1 else 0)
  {
    if s.ready && s.list != [] {
      var x, n := s.list[s.consolidated..], |s.list| - 1;
      CountAdds(s.released, x);
      if Unconsumed(s.list) {
        assert x == s.list[s.consolidated..n] + [0];
        NoZero(s.list[s.consolidated..n]);
        CountAdds(s.list[s.consolidated..n], [0]);
      } else {
        NoZero(x);
      }
    }
  }

  /** A reset that is not part of a flush passes the zero event of an unconsumed last slot to clReleaseEvent; this is
      the only way that a zero event gets there. */
  lemma ZeroIsReleasedByResetOnly(s: Events, c: Call)
    requires EventsInv(s) && Possible(s, c)
    ensures multiset(AfterCall(s, c).released)[0]
         == multiset(s.released)[0] + (if c.CallReset? && s.ready && Unconsumed(s.list) then 1 else 0)
  {
    hide Flushed, Emptied, WithSlot, Awaited, EventsInv, EventsOk;
    InvIs(s);
    match c
    case CallGetSlot(name, memory) => SlotIs(s, name, memory);
    case CallFlush(reset, driver) => ZeroesInFlush(s, reset, driver);
    case CallReset => ZeroesInReset(s);
    case CallWaitFor => AwaitedIs(s);
    case CallEnqueue(_) =>
  }

  lemma CountAdds(x: seq<Event>, y: seq<Event>)
    ensures multiset(x + y)[0] == multiset(x)[0] + multiset(y)[0]
  {}

  lemma NoZero(x: seq<Event>)
    requires forall k :: 0 <= k < |x| ==> x[k] != 0
    ensures multiset(x)[0] == 0
  {
    assert 0 !in x;
  }

  /** The zero event is never released in a run exactly when no reset of its own meets an unconsumed last slot. */
  lemma {:induction false} ZeroIsReleasedIff(r: EventRun, n: nat)
    requires IsEventRun(r) && n < |r.states|
    ensures 0 !in r.states[n].released <==>
              forall i :: 0 <= i < n ==> !(r.calls[i].CallReset? && Unconsumed(r.states[i].list))
  {
    hide AfterCall, EventsInv;
    if n > 0 {
      var s, c := r.states[n-1], r.calls[n-1];
      ZeroIsReleasedIff(r, n - 1);
      EventsAreReleasedOnce(r, n - 1);
      InvIs(s);
      assert Follows(s, c, r.states[n]);
      ZeroIsReleasedByResetOnly(s, c);
      InCount(s.released);
      InCount(r.states[n].released);
    }
  }

  lemma InCount(x: seq<Event>)
    ensures 0 in x <==> multiset(x)[0] > 0
  {
    assert 0 in x <==> 0 in multiset(x);
  }

  /** It happens: a slot is handed out, no command consumes it, and the list is reset. */
  lemma ZeroIsReleasedInRun() returns (r: EventRun)
    ensures IsEventRun(r) && r.calls == [CallGetSlot("", true), CallReset]
    ensures r.states[2].released == [0]
  {
    var s0 := NewEvents();
    var s1 := FirstSlot();
    var s2 := Emptied(s1);
    r := EventRun([s0, s1, s2], [CallGetSlot("", true), CallReset]);
    assert Follows(s0, r.calls[0], s1) && Follows(s1, r.calls[1], s2);
  }

  /** The first slot that is handed out. */
  lemma FirstSlot() returns (s: Events)
    ensures s == WithSlot(NewEvents(), "", true) && EventsOk(s)
    ensures s.ready && s.list == [0] && s.consolidated == 0 && s.lost == 0 && s.released == []
  {
    s := WithSlot(NewEvents(), "", true);
  }

  /** A reset clears the count of lost events exactly when there was nothing to clear or the list is not empty. */
  lemma ResetClearsLost(s: Events)
    requires EventsOk(s)
    ensures Emptied(s).lost == 0 <==> s.lost == 0 || s.list != []
  {}

  /** What the waiting leaves: nothing exactly when the only slot was unconsumed. */
  lemma AwaitedEmpty(s: Events)
    requires EventsOk(s) && s.list != []
    ensures s.ready && (Awaited(s).list == [] <==> s.list == [0])
    ensures s.list == [0] ==> Awaited(s).lost == s.lost + 1
  {
    hide EventsOk, Trimmed;
    AwaitedIs(s);
    TrimmedIs(s);
    OnlySlot(s);
  }

  lemma OnlySlot(s: Events)
    requires EventsOk(s) && s.list != []
    ensures s.ready && 0 < |s.list|
    ensures Unconsumed(s.list) ==> (|s.list| == 1 <==> s.list == [0])
    ensures s.list == [0] ==> Unconsumed(s.list)
  {}

  /** A flush that is to reset the list clears the count of lost events exactly when the list is not one single
      unconsumed slot, and, if it is empty, there is nothing to clear.  If the only slot is taken back, the reset
      finds an empty list and returns early. */
  lemma FlushClearsLost(s: Events, driver: Event -> Info)
    requires EventsOk(s)
    ensures Flushed(s, true, driver).lost == 0 <==> if s.list == [] then s.lost == 0 else s.list != [0]
  {
    hide EventsOk, ConsolidateAll, Trimmed, Emptied, Awaited;
    if s.list != [] {
      AwaitedIs(s);
      AwaitedEmpty(s);
      StaysOk(Awaited(s), driver);
      var t := Awaited(s);
      ResetClearsLost(ConsolidateAll(t, driver));
      ConsolidatedIs(t, driver);
    }
  }

  /** It happens: the flush takes the only slot back, and neither it nor a further reset clears the count. */
  lemma LostCountSurvives(driver: Event -> Info) returns (r: EventRun)
    ensures IsEventRun(r) && r.calls == [CallGetSlot("", true), CallFlush(true, driver), CallReset]
    ensures r.states[2].list == [] && r.states[2].lost == 1 && r.states[3].list == [] && r.states[3].lost == 1
  {
    var s0 := NewEvents();
    var s1 := FirstSlot();
    hide EventsOk, ConsolidateAll, Trimmed, Awaited;
    AwaitedIs(s1);
    AwaitedEmpty(s1);
    StaysOk(Awaited(s1), driver);
    ConsolidatedIs(Awaited(s1), driver);
    var s2 := Flushed(s1, true, driver);
    var s3 := Emptied(s2);
    r := EventRun([s0, s1, s2, s3], [CallGetSlot("", true), CallFlush(true, driver), CallReset]);
    assert Follows(s0, r.calls[0], s1) && Follows(s1, r.calls[1], s2) && Follows(s2, r.calls[2], s3);
  }

  // ---------------------------------------------------------------------------------------------
  // The summary
  // ---------------------------------------------------------------------------------------------

  /** The failures that the flushes among the first n calls of a run have come to know since the list was last reset,
      as the statuses that the driver gave. */
  ghost function Failures(r: EventRun, n: nat): seq<int>
    requires n <= |r.calls| < |r.states|
  {
    if n == 0 then [] else
      match r.calls[n-1]
      case CallReset => []
      case CallFlush(reset, driver) =>
        if reset || !EventsOk(r.states[n-1]) then []
        else Failures(r, n - 1) + FailedStatuses(Unconsolidated(r.states[n-1]), driver)
      case _ => Failures(r, n - 1)
  }

  lemma AwaitedLeaves(s: Events)
    requires EventsOk(s)
    ensures Awaited(s).list[s.consolidated..] == Unconsolidated(s) && Awaited(s).consolidated == s.consolidated
    ensures Awaited(s).summary == s.summary
  {}

  /** What a flush makes of the summary. */
  lemma FlushSummary(s: Events, reset: bool, driver: Event -> Info)
    requires EventsOk(s) && (s.consolidated == 0 ==> s.summary == CL_COMPLETE)
    ensures FlushResult(s, driver) == LastOf(FailedStatuses(Unconsolidated(s), driver), s.summary)
    ensures Flushed(s, reset, driver).summary == if reset then CL_COMPLETE else FlushResult(s, driver)
    ensures Flushed(s, reset, driver).consolidated == 0 ==>
              reset || (Unconsolidated(s) == [] && s.consolidated == 0)
  {
    hide Awaited, Trimmed, ConsolidateAll, EventsOk;
    OkIs(s);
    if s.ready && s.list != [] {
      AwaitedIs(s);
      AwaitedLeaves(s);
      StaysOk(Awaited(s), driver);
      SummaryIsLastFailure(Awaited(s), driver);
      if Awaited(s).list == [] { ConsolidatedIs(Awaited(s), driver); }
    }
  }

  lemma OkIs(s: Events)
    requires EventsOk(s)
    ensures s.consolidated <= |s.list| && (s.list != [] ==> s.ready)
    ensures s.list == [] ==> Unconsolidated(s) == []
  {}

  /** In between the calls the summary is that of the failures known since the last reset. */
  lemma {:induction false} SummaryInRun(r: EventRun, n: nat)
    requires IsEventRun(r) && n < |r.states|
    ensures EventsOk(r.states[n]) && r.states[n].summary == LastOf(Failures(r, n), CL_COMPLETE)
    ensures r.states[n].consolidated == 0 ==> Failures(r, n) == []
  {
    hide AfterCall, EventsInv, EventsOk, Flushed, WithSlot, Awaited, Unconsolidated;
    EventsAreReleasedOnce(r, n);
    InvIs(r.states[n]);
    if n > 0 {
      var s, c := r.states[n-1], r.calls[n-1];
      SummaryInRun(r, n - 1);
      assert Follows(s, c, r.states[n]);
      SummaryStays(s, c);
      if c.CallFlush? { FlushSummary(s, c.reset, c.driver); }
    }
  }

  lemma SummaryStays(s: Events, c: Call)
    requires EventsOk(s) && Possible(s, c) && (s.consolidated == 0 ==> s.summary == CL_COMPLETE)
    ensures var t := AfterCall(s, c);
            if c.CallReset? then t.summary == CL_COMPLETE
            else if c.CallFlush? then t == Flushed(s, c.reset, c.driver)
            else t.summary == s.summary && t.consolidated == s.consolidated
  {
    hide Flushed;
  }

  /** In every run a flush returns the status of the last event since the last reset that is known to have failed, or
      CL_COMPLETE if there is none. */
  lemma FlushReturnsLastFailure(r: EventRun, n: nat)
    requires IsEventRun(r) && n < |r.calls| && r.calls[n].CallFlush?
    ensures EventsOk(r.states[n])
    ensures var known := Failures(r, n) + FailedStatuses(Unconsolidated(r.states[n]), r.calls[n].driver);
            FlushResult(r.states[n], r.calls[n].driver) == LastOf(known, CL_COMPLETE)
  {
    hide EventsOk, FlushResult, Flushed, Unconsolidated, FailedStatuses;
    SummaryInRun(r, n);
    FlushSummary(r.states[n], false, r.calls[n].driver);
  }

  // ---------------------------------------------------------------------------------------------
  // The tags
  // ---------------------------------------------------------------------------------------------

  /** The list without a last slot that nobody consumed. */
  function Consumed(list: seq<Event>): seq<Event> {
    if Unconsumed(list) then list[..|list| - 1] else list
  }

  lemma AwaitedKeepsTags(s: Events)
    requires EventsOk(s)
    ensures var t := Awaited(s);
            && t.tags == s.tags && t.list == Consumed(s.list) && t.consolidated == s.consolidated <= |t.list| <= Max(t)
            && t.lost == (if Unconsumed(s.list) then s.lost + 1 else s.lost)
  {}

  /** What a flush leaves of the slots, unless it is to reset the list: the return value and the duration of every event
      that was consolidated, as the driver gives them. */
  lemma FlushTells(s: Events, driver: Event -> Info)
    requires EventsOk(s)
    ensures var t := Flushed(s, false, driver);
            && s.consolidated <= |Consumed(s.list)|
            && Told(s.(list := Consumed(s.list), lost := if Unconsumed(s.list) then s.lost + 1 else s.lost), t, driver)
  {
    hide ConsolidateAll, Awaited, Emptied;
    AwaitedKeepsTags(s);
    if s.ready && s.list != [] {
      AwaitedIs(s);
      ConsolidateTells(Awaited(s), driver);
    }
  }

  /** The call takes every slot back. */
  predicate Clears(c: Call) {
    c.CallReset? || (c.CallFlush? && c.reset)
  }

  /** The call, made in state s, hands out slot k. */
  predicate HandsOutSlot(s: Events, c: Call, k: nat) {
    c.CallGetSlot? && HasSlot(s, c.memory) && k == if Unconsumed(s.list) then |s.list| - 1 else |s.list|
  }

  lemma NameStays(s: Events, c: Call, k: nat)
    requires EventsOk(s) && Possible(s, c) && k < Max(s) && !Clears(c) && !HandsOutSlot(s, c, k)
    ensures k < Max(AfterCall(s, c)) && AfterCall(s, c).tags[k].name == s.tags[k].name
  {
    hide WithSlot, Awaited, Flushed;
    match c
    case CallGetSlot(name, memory) => SlotMeans(s, name, memory);
    case CallEnqueue(_) =>
    case CallWaitFor => AwaitedKeepsTags(s);
    case CallFlush(_, driver) => FlushTells(s, driver);
  }

  /** In every run the tag of a slot keeps the name that the slot was handed out with, however the list grows, until the
      slot is handed out again or the list is reset. */
  lemma {:induction false} NameIsKept(r: EventRun, m: nat, n: nat, k: nat)
    requires IsEventRun(r) && m < n < |r.states| && HandsOutSlot(r.states[m], r.calls[m], k)
    requires forall i :: m < i < n ==> !Clears(r.calls[i]) && !HandsOutSlot(r.states[i], r.calls[i], k)
    ensures var name := r.calls[m].name;
            && k < Max(r.states[n]) && r.states[n].tags[k].name <= name
            && |r.states[n].tags[k].name| == if |name| < EVENTNAMELENGTH then |name| else EVENTNAMELENGTH
  {
    hide AfterCall, EventsInv, EventsOk, HasSlot;
    var s, c := r.states[n-1], r.calls[n-1];
    EventsAreReleasedOnce(r, n - 1);
    InvIs(s);
    assert Follows(s, c, r.states[n]);
    if m == n - 1 {
      HandedOutAt(s, c, k);
    } else {
      NameIsKept(r, m, n - 1, k);
      NameStays(s, c, k);
    }
  }

  lemma HandedOutAt(s: Events, c: Call, k: nat)
    requires EventsOk(s) && Possible(s, c) && HandsOutSlot(s, c, k)
    ensures HandedOut(s, AfterCall(s, c), c.name) && k == |AfterCall(s, c).list| - 1
  {
    SlotMeans(s, c.name, c.memory);
  }
}
