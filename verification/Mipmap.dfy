/** The mipmap cache on top of the cache (src/common/mipmap_cache.c): the generate flag of a buffer and the
    write lock that the allocate callback requests together make sure that every buffer is generated
    exactly once while it is resident, and that nobody else ever sees it before that. */
module Mipmap {
  import opened Arithmetic
  import opened CacheModel
  import opened CacheEffects
  import opened CacheSequential
  import opened Cache
  import opened CacheProtocol
  import opened CacheSafety
  import opened CacheRuns

  /** get_key, for image ids from 1 to 2^29: the size in the top three bits, the image below. */
  function GetKey(imgid: nat, size: nat): Key
    requires 1 <= imgid <= 0x2000_0000 && size < 8
  {
    size * 0x2000_0000 + (imgid - 1)
  }

  function GetImgid(key: Key): nat {
    key % 0x2000_0000 + 1
  }

  function GetSize(key: Key): nat {
    key / 0x2000_0000
  }

  /** Keys and pairs of image and size correspond one to one, and no key of a size that is in use (at most
      DT_MIPMAP_FULL, 5) is the key that marks an empty bucket. */
  lemma KeyRoundTrip(imgid: nat, size: nat, key: Key)
    ensures 1 <= imgid <= 0x2000_0000 && size < 8 ==>
              GetImgid(GetKey(imgid, size)) == imgid && GetSize(GetKey(imgid, size)) == size
              && (GetKey(imgid, size) == EMPTY <==> size == 7 && imgid == 0x2000_0000)
    ensures 1 <= GetImgid(key) <= 0x2000_0000 && GetSize(key) < 8 && GetKey(GetImgid(key), GetSize(key)) == key
  {
    if 1 <= imgid <= 0x2000_0000 && size < 8 {
      SplitKey(imgid, size);
    }
    KeyIsSplit(key);
  }

  lemma SplitKey(imgid: nat, size: nat)
    requires 1 <= imgid <= 0x2000_0000 && size < 8
    ensures GetImgid(GetKey(imgid, size)) == imgid && GetSize(GetKey(imgid, size)) == size
    ensures GetKey(imgid, size) == EMPTY <==> size == 7 && imgid == 0x2000_0000
  {
    DivUnique(GetKey(imgid, size), 0x2000_0000, size, imgid - 1);
  }

  lemma KeyIsSplit(key: Key)
    ensures 1 <= GetImgid(key) <= 0x2000_0000 && GetSize(key) < 8 && GetKey(GetImgid(key), GetSize(key)) == key
  {}

  /** The keys of one size follow each other like the images, and the sizes follow each other. */
  lemma KeysInOrder(imgid: nat, size: nat)
    ensures GetKey(1, 0) == 0
    ensures 1 <= imgid < 0x2000_0000 && size < 8 ==> GetKey(imgid + 1, size) == GetKey(imgid, size) + 1
    ensures 1 <= imgid <= 0x2000_0000 && size < 7 ==> GetKey(imgid, size + 1) == GetKey(imgid, size) + 0x2000_0000
  {}

  /** struct dt_mipmap_buffer_dsc: the generate flag; `inits` counts the generations since the buffer was last
      handed out by the allocate callback, `live` whether its memory has not been freed. */
  datatype Dsc = Dsc(generate: bool, inits: nat, live: bool)

  /** Where a client stands in dt_mipmap_cache_read_get. */
  datatype MPc =
    | MIdle
    | MBroken                           // has read or written freed memory
    | MTest(key: Key)                   // inside dt_cache_read_testget
    | MRead(key: Key)                   // inside dt_cache_read_get
    | MLook(key: Key, p: Ptr)           // about to test the flag
    | MFill(key: Key, p: Ptr)           // loading the image
    | MSwap(key: Key, p: Ptr, q: Ptr)   // the loader has moved the buffer: about to tell the cache
    | MClear(key: Key, p: Ptr)          // about to clear the flag
    | MUnlock(key: Key, p: Ptr)         // about to drop the write lock
    | MGot(key: Key, p: Ptr)            // about to hand the buffer to the caller

  datatype MSys = MSys(sys: Sys, mem: map<Ptr, Dsc>, pcs: seq<MPc>)

  predicate Live(mem: map<Ptr, Dsc>, p: Ptr) {
    p in mem && mem[p].live
  }

  /** The allocate callbacks: dt_mipmap_cache_allocate keeps the payload of the bucket, .._dynamic makes one if
      there is none (and exits if it cannot).  Both set the flag and request the write lock. */
  predicate AllocOk(ms: MSys, f: int, a: Allocation) {
    var t := ms.sys.sh.table;
    0 <= f < |t| ==>
      && a.locked && a.data != 0
      && if t[f].data != 0 then a.data == t[f].data else !Live(ms.mem, a.data)
  }

  const NEW_DSC := Dsc(true, 0, true)

  /** What the allocate callback leaves: a payload that the bucket has kept gets its flag set where it is. */
  function Prepared(mem: map<Ptr, Dsc>, kept: bool, p: Ptr): map<Ptr, Dsc> {
    if !kept then mem[p := NEW_DSC]
    else if p in mem then mem[p := mem[p].(generate := true, inits := 0)]
    else mem
  }

  predicate Kept(t: seq<Bucket>, e: Effect) {
    e.Insert? && e.b < |t| && t[e.b].data != 0
  }

  /** The allocate callback writes to a payload that has been freed. */
  predicate WritesFreed(ms: MSys, e: Effect) {
    Kept(ms.sys.sh.table, e) && !Live(ms.mem, e.data)
  }

  /** A step inside the cache: the only effect on the buffers is that of the allocate callback. */
  ghost predicate CacheMoves(ms: MSys, ms': MSys, tid: nat, ch: Choice) {
    && Steps(ms.sys, ms'.sys, tid, ch)
    && (ch.Pick? ==> AllocOk(ms, ch.f, ch.a))
    && ms'.mem == var e := Step(ms.sys, ms.sys.threads[tid], ch).e;
                  if e.Insert? then Prepared(ms.mem, Kept(ms.sys.sh.table, e), e.data) else ms.mem
  }

  datatype MChoice = Blocking(key: Key) | TestLock(key: Key) | Cache(ch: Choice) | Loaded | Moved(q: Ptr)

  /** What a client may do with the cache beside the two lookups: release, write_get, write_release, removal. */
  predicate ClientChoice(ch: Choice) {
    !ch.Read? && !ch.Test? && !ch.Resize?
  }

  ghost predicate MSteps(ms: MSys, ms': MSys, tid: nat, c: MChoice) {
    && tid < |ms.pcs| == |ms.sys.threads|
    && |ms'.pcs| == |ms.pcs| && ms'.pcs == ms.pcs[tid := ms'.pcs[tid]]
    && var pc, pc', th := ms.pcs[tid], ms'.pcs[tid], ms.sys.threads[tid];
       match pc
       case MIdle =>
         if c.Blocking? then th.pc.Idle? && CacheMoves(ms, ms', tid, Read(c.key)) && pc' == MRead(c.key)
         else if c.TestLock? then th.pc.Idle? && CacheMoves(ms, ms', tid, Test(c.key)) && pc' == MTest(c.key)
         else c.Cache? && ClientChoice(c.ch) && CacheMoves(ms, ms', tid, c.ch) && pc' == MIdle
       case MBroken => false
       case MTest(key) =>
         if !th.pc.Idle? then c.Cache? && CacheMoves(ms, ms', tid, c.ch) && pc' == pc
         else
           Stays(ms, ms')
           && pc' == if th.ret == 0 then MIdle else if !Live(ms.mem, th.ret) then MBroken else MGot(key, th.ret)
       case MRead(key) =>
         if !th.pc.Idle? then
           && c.Cache? && CacheMoves(ms, ms', tid, c.ch)
           && pc' == if WritesFreed(ms, Step(ms.sys, th, c.ch).e) then MBroken else pc
         else Stays(ms, ms') && pc' == if th.ret == 0 then MIdle else MLook(key, th.ret)
       case MLook(key, p) =>
         Stays(ms, ms')
         && pc' == if !Live(ms.mem, p) then MBroken else if ms.mem[p].generate then MFill(key, p) else MGot(key, p)
       case MFill(key, p) =>
         if !Live(ms.mem, p) then Stays(ms, ms') && pc' == MBroken
         else if c.Moved? && c.q != 0 && (c.q == p || !Live(ms.mem, c.q)) then
           // the loader frees the buffer and allocates a larger one, at any free address, that of the old one included
           && ms'.sys == ms.sys
           && ms'.mem == ms.mem[p := ms.mem[p].(live := false)][c.q := NEW_DSC]
           && pc' == if c.q == p then MClear(key, p) else MSwap(key, p, c.q)
         else Stays(ms, ms') && pc' == MClear(key, p)
       case MSwap(key, p, q) => CacheMoves(ms, ms', tid, Resize(key, 1, q)) && pc' == MClear(key, q)
       case MClear(key, p) =>
         if !Live(ms.mem, p) then Stays(ms, ms') && pc' == MBroken
         else
           && ms'.sys == ms.sys
           && ms'.mem == ms.mem[p := ms.mem[p].(generate := false, inits := ms.mem[p].inits + 1)]
           && pc' == MUnlock(key, p)
       case MUnlock(key, p) => CacheMoves(ms, ms', tid, Downgrade(key)) && pc' == MGot(key, p)
       case MGot(key, p) => Stays(ms, ms') && pc' == MIdle
  }

  /** The same, for any state (see Goes). */
  ghost predicate MGoes(ms: MSys, ms': MSys, tid: nat, c: MChoice) {
    tid < |ms.sys.threads| && (Ready(ms.sys, tid) ==> MSteps(ms, ms', tid, c))
  }

  predicate Stays(ms: MSys, ms': MSys) {
    ms'.sys == ms.sys && ms'.mem == ms.mem
  }

  // ---------------------------------------------------------------------------------------------
  // The invariant
  // ---------------------------------------------------------------------------------------------

  /** Client pc, with the thread th, is the one that has to generate the buffer of key. */
  predicate Works(pc: MPc, th: Thread, key: Key) {
    match pc
    case MRead(k) => k == key && key in th.writes && (th.pc.Front? || th.pc.Idle?)
    case MLook(k, _) => k == key && key in th.writes
    case MFill(k, _) => k == key
    case MSwap(k, _, _) => k == key
    case MClear(k, _) => k == key
    case _ => false
  }

  ghost predicate Working(ms: MSys, key: Key)
    requires |ms.pcs| == |ms.sys.threads|
  {
    exists i :: 0 <= i < |ms.pcs| && Works(ms.pcs[i], ms.sys.threads[i], key)
  }

  /** Client i is the loader of the entry in bucket b: it has freed the buffer that the cache records, and has not yet
      told the cache about the new one. */
  ghost predicate Swaps(ms: MSys, i: nat, b: nat) {
    i < |ms.pcs| && ms.pcs[i].MSwap? && Holds(ms.sys.sh.table, b, ms.pcs[i].key)
  }

  ghost predicate Swapping(ms: MSys, b: nat) {
    exists i: nat :: Swaps(ms, i, b)
  }

  /** p is the memory of bucket b, occupied or free: what the cache records, or else the buffer it is about to be told
      about. */
  ghost predicate Owns(ms: MSys, b: nat, p: Ptr) {
    if Swapping(ms, b) then exists i: nat :: Swaps(ms, i, b) && ms.pcs[i].q == p
    else b < |ms.sys.sh.table| && ms.sys.sh.table[b].data == p
  }

  /** The memory of the buckets has not been freed, and no two buckets share it. */
  ghost predicate MemoryOk(ms: MSys) {
    && (forall b: nat, p: Ptr :: Owns(ms, b, p) && p != 0 ==> Live(ms.mem, p))
    && (forall b: nat, c: nat, p: Ptr {:trigger Owns(ms, b, p), Owns(ms, c, p)} ::
          Owns(ms, b, p) && Owns(ms, c, p) && p != 0 ==> b == c)
  }

  /** The flag of a stored buffer is set exactly while somebody is working on it. */
  ghost predicate FlagOk(ms: MSys, b: nat, p: Ptr)
    requires |ms.pcs| == |ms.sys.threads|
  {
    Owns(ms, b, p) && InUse(ms.sys.sh.table, b) ==>
      && p != 0 && Live(ms.mem, p)
      && (ms.mem[p].generate <==> Working(ms, ms.sys.sh.table[b].key))
      && ms.mem[p].inits == (if ms.mem[p].generate then 0 else 1)
  }

  /** The thread is inside dt_cache_read_get, and has not found or stored its entry yet. */
  predicate InRead(pc: Pc, key: Key) {
    CallFor(pc, ForRead(key))
  }

  /** th holds key, whose payload is p. */
  ghost predicate Holding(sys: Sys, th: Thread, key: Key, p: Ptr) {
    key in th.held && key in Contents(sys.sh.table) && Contents(sys.sh.table)[key].data == p
  }

  ghost predicate PlaceOk(ms: MSys, i: nat)
    requires i < |ms.pcs| == |ms.sys.threads|
  {
    var th, sys := ms.sys.threads[i], ms.sys;
    match ms.pcs[i]
    case MIdle =>
      !th.pc.GetTry? && !th.pc.TestTry? && !th.pc.Front? && forall key :: !InRead(th.pc, key)
    case MBroken => false
    case MTest(key) =>
      th.pc == TestTry(key)
      || (th.pc.Front? && th.pc.key == key && th.ret != 0 && key !in th.writes && Holding(sys, th, key, th.ret))
      || (th.pc.Idle? && (th.ret != 0 ==> key !in th.writes && Holding(sys, th, key, th.ret)))
    case MRead(key) =>
      || InRead(th.pc, key)
      || (th.pc.Front? && th.pc.key == key && th.ret != 0 && Holding(sys, th, key, th.ret))
      || (th.pc.Idle? && (if th.ret != 0 then Holding(sys, th, key, th.ret) else key !in th.writes))
    case MLook(key, p) => th.pc.Idle? && Holding(sys, th, key, p)
    case MFill(key, p) => th.pc.Idle? && key in th.writes && Holding(sys, th, key, p)
    case MSwap(key, p, _) => th.pc.Idle? && key in th.writes && Holding(sys, th, key, p)
    case MClear(key, p) => th.pc.Idle? && key in th.writes && Holding(sys, th, key, p)
    case MUnlock(key, p) => th.pc.Idle? && key in th.writes && Holding(sys, th, key, p)
    case MGot(key, p) => th.pc.Idle? && key !in th.writes && Holding(sys, th, key, p)
  }

  ghost predicate MInv(ms: MSys) {
    && Inv(ms.sys) && |ms.pcs| == |ms.sys.threads| && MemoryOk(ms)
    && (forall i :: 0 <= i < |ms.pcs| ==> PlaceOk(ms, i))
    && (forall b: nat, p: Ptr :: FlagOk(ms, b, p))
  }

  // ---------------------------------------------------------------------------------------------
  // Payload pointers
  // ---------------------------------------------------------------------------------------------

  /** Which payload the buckets hold after an effect. */
  lemma DataAfter(cfg: Config, s: Shared, e: Effect, b: nat)
    requires Sound(cfg, s) && Enabled(cfg, s, e) && b < |s.table|
    ensures |Apply(cfg, s, e).table| == |s.table|
    ensures Apply(cfg, s, e).table[b].data ==
              if (e.Insert? || e.Rewrite?) && e.b == b then e.data else s.table[b].data
  {
    match e
    case Insert(key, f, cost, data, locked) =>
      var h := Home(key, |s.table|);
      assert ChainOk(s.table, h, s.chains[h]);
      InsertedAt(s.table, h, s.chains[h], f, key, cost, data, locked);
    case Unlink(u) =>
      var h := Home(s.table[u].hash, |s.table|);
      assert BucketOk(s.table, s.chains, u);
      assert ChainOk(s.table, h, s.chains[h]);
      LinkPastElsewhere(s.table, h, s.chains[h], IndexOf(s.chains[h], u));
    case _ =>
  }

  lemma EffectKeepsTableSize(cfg: Config, s: Shared, e: Effect)
    requires Sound(cfg, s) && Enabled(cfg, s, e)
    ensures IndexOk(cfg, s) && |Apply(cfg, s, e).table| == |s.table|
  {
    if |s.table| > 0 { DataAfter(cfg, s, e, 0); }
  }

  // ---------------------------------------------------------------------------------------------
  // Consequences of the invariant
  // ---------------------------------------------------------------------------------------------

  lemma MInvIs(ms: MSys, i: nat)
    requires MInv(ms) && i < |ms.pcs|
    ensures Inv(ms.sys) && |ms.pcs| == |ms.sys.threads| && PlaceOk(ms, i) && MemoryOk(ms)
  {}

  lemma FlagIs(ms: MSys, b: nat, p: Ptr)
    requires MInv(ms)
    ensures |ms.pcs| == |ms.sys.threads| && FlagOk(ms, b, p)
    ensures Owns(ms, b, p) && p != 0 ==> Live(ms.mem, p)
  {}

  /** Two buckets do not store the same key. */
  lemma OneBucket(sys: Sys, b: nat, c: nat, key: Key)
    requires Inv(sys)
    ensures Holds(sys.sh.table, b, key) && Holds(sys.sh.table, c, key) ==> b == c
  {}

  /** The bucket of the entry that a thread holds. */
  lemma HoldingIs(sys: Sys, th: Thread, key: Key, p: Ptr) returns (b: nat)
    requires Holding(sys, th, key, p) && Inv(sys)
    ensures b < |sys.sh.table| && Holds(sys.sh.table, b, key) && sys.sh.table[b].key == key && sys.sh.table[b].data == p
    ensures InUse(sys.sh.table, b) && key in th.held
  {
    var c := BucketOf(sys.sh.table, key);
    assert Stores(sys.sh.table, key);
    ContentsAt(sys.sh.table, c, key);
    b := c;
  }

  lemma WorkerWrites(ms: MSys, i: nat, key: Key)
    requires MInv(ms) && i < |ms.pcs| == |ms.sys.threads| && Works(ms.pcs[i], ms.sys.threads[i], key)
    ensures key in ms.sys.threads[i].writes
  {
    hide Inv, FlagOk, Holding, MemoryOk;
    assert PlaceOk(ms, i);
  }

  /** The worker on key, if there is one, is the only thread that holds key at all. */
  lemma OnlyWorker(ms: MSys, i: nat, j: nat, key: Key)
    requires MInv(ms) && i < |ms.pcs| == |ms.sys.threads| && j < |ms.pcs| && i != j
    requires key in ms.sys.threads[i].held
    ensures !Works(ms.pcs[j], ms.sys.threads[j], key)
  {
    hide Inv, MemoryOk, FlagOk;
    MInvIs(ms, i);
    if Works(ms.pcs[j], ms.sys.threads[j], key) {
      WorkerWrites(ms, j, key);
      WriterIsAlone(ms.sys, j, i, key);
    }
  }

  /** Nobody else moves the memory of an entry that a client holds. */
  lemma NotSwapping(ms: MSys, i: nat, key: Key, b: nat)
    requires MInv(ms) && i < |ms.pcs| == |ms.sys.threads| && key in ms.sys.threads[i].held
    requires Holds(ms.sys.sh.table, b, key)
    ensures forall j: nat :: Swaps(ms, j, b) ==> j == i
    ensures !(ms.pcs[i].MSwap? && ms.pcs[i].key == key) ==> !Swapping(ms, b)
  {
    hide Inv, MemoryOk, FlagOk, PlaceOk;
    forall j: nat | Swaps(ms, j, b) ensures j == i {
      if j != i {
        assert ms.pcs[j].key == key;
        OnlyWorker(ms, i, j, key);
      }
    }
  }

  /** A free bucket is not being moved. */
  lemma FreeNotSwapping(ms: MSys, b: nat)
    requires !InUse(ms.sys.sh.table, b)
    ensures !Swapping(ms, b)
  {}

  /** A client that holds an entry, and is not moving its buffer, has the payload that the bucket owns. */
  lemma HolderOwns(ms: MSys, i: nat, key: Key, p: Ptr) returns (b: nat)
    requires MInv(ms) && i < |ms.pcs| == |ms.sys.threads| && Holding(ms.sys, ms.sys.threads[i], key, p)
    requires !(ms.pcs[i].MSwap? && ms.pcs[i].key == key)
    ensures InUse(ms.sys.sh.table, b) && Holds(ms.sys.sh.table, b, key) && ms.sys.sh.table[b].key == key
    ensures !Swapping(ms, b) && ms.sys.sh.table[b].data == p
    ensures Owns(ms, b, p) && p != 0 && Live(ms.mem, p)
    ensures ms.mem[p].generate <==> Working(ms, key)
    ensures ms.mem[p].inits == (if ms.mem[p].generate then 0 else 1)
    ensures forall x: Ptr :: Owns(ms, b, x) ==> x == p
  {
    hide Inv, PlaceOk, Holding, MemoryOk, MInv, Working;
    MInvIs(ms, i);
    b := HoldingIs(ms.sys, ms.sys.threads[i], key, p);
    NotSwapping(ms, i, key, b);
    FlagIs(ms, b, p);
  }

  /** A thread that holds key and has nothing to generate sees a finished buffer. */
  lemma IdleHolderSeesFinished(ms: MSys, i: nat, key: Key, p: Ptr)
    requires MInv(ms) && i < |ms.pcs| == |ms.sys.threads| && Holding(ms.sys, ms.sys.threads[i], key, p)
    requires !Works(ms.pcs[i], ms.sys.threads[i], key)
    ensures !Working(ms, key) && Live(ms.mem, p) && ms.mem[p] == Dsc(false, 1, true)
  {
    hide Inv, MemoryOk, FlagOk, PlaceOk, MInv;
    var b := HolderOwns(ms, i, key, p);
    forall j | 0 <= j < |ms.pcs| ensures !Works(ms.pcs[j], ms.sys.threads[j], key) {
      if j != i { OnlyWorker(ms, i, j, key); }
    }
  }

  // ---------------------------------------------------------------------------------------------
  // Steps outside the cache
  // ---------------------------------------------------------------------------------------------

  /** Apart from the stepping client, nobody's duty changes. */
  lemma WorkingMoves(ms: MSys, ms': MSys, tid: nat, key: Key)
    requires tid < |ms.pcs| == |ms.sys.threads| == |ms'.pcs| == |ms'.sys.threads|
    requires forall i :: 0 <= i < |ms.pcs| && i != tid ==>
               ms'.pcs[i] == ms.pcs[i] && ms'.sys.threads[i] == ms.sys.threads[i]
    requires Works(ms'.pcs[tid], ms'.sys.threads[tid], key) <==> Works(ms.pcs[tid], ms.sys.threads[tid], key)
    ensures Working(ms', key) <==> Working(ms, key)
  {
    if Working(ms, key) {
      var i :| 0 <= i < |ms.pcs| && Works(ms.pcs[i], ms.sys.threads[i], key);
      assert Works(ms'.pcs[i], ms'.sys.threads[i], key);
    }
    if Working(ms', key) {
      var i :| 0 <= i < |ms.pcs| && Works(ms'.pcs[i], ms'.sys.threads[i], key);
      assert Works(ms.pcs[i], ms.sys.threads[i], key);
    }
  }

  /** Nothing happens to the memory of bucket b. */
  lemma OwnsStays(ms: MSys, ms': MSys, b: nat, p: Ptr)
    requires |ms'.sys.sh.table| == |ms.sys.sh.table|
    requires b < |ms.sys.sh.table| ==> ms'.sys.sh.table[b].data == ms.sys.sh.table[b].data
    requires forall i: nat :: Swaps(ms', i, b) <==> Swaps(ms, i, b)
    requires forall i: nat :: Swaps(ms, i, b) ==> i < |ms'.pcs| && ms'.pcs[i] == ms.pcs[i]
    ensures Owns(ms', b, p) <==> Owns(ms, b, p)
  {
    if Swapping(ms, b) {
      var i :| Swaps(ms, i, b);
      assert Swaps(ms', i, b);
    }
  }

  /** The clients go on, but nobody's duty changes, and neither does what the buckets store. */
  ghost predicate SameEntryAt(ms: MSys, ms': MSys, b: nat)
    requires |ms.pcs| == |ms.sys.threads| && |ms'.pcs| == |ms'.sys.threads|
  {
    InUse(ms'.sys.sh.table, b) ==>
      && InUse(ms.sys.sh.table, b) && ms'.sys.sh.table[b].key == ms.sys.sh.table[b].key
      && (Working(ms', ms.sys.sh.table[b].key) <==> Working(ms, ms.sys.sh.table[b].key))
  }

  /** A step that touches no memory keeps all that is said about it. */
  lemma QuietKeepsMemory(ms: MSys, ms': MSys)
    requires MInv(ms) && |ms'.pcs| == |ms'.sys.threads| && |ms.pcs| == |ms.sys.threads|
    requires ms'.mem == ms.mem
    requires forall b: nat, p: Ptr :: Owns(ms', b, p) ==> Owns(ms, b, p)
    requires forall b: nat :: SameEntryAt(ms, ms', b)
    ensures MemoryOk(ms') && forall b: nat, p: Ptr :: FlagOk(ms', b, p)
  {
    hide Inv, PlaceOk, Owns, Working;
    forall b: nat, p: Ptr ensures FlagOk(ms', b, p) {
      assert SameEntryAt(ms, ms', b) && FlagOk(ms, b, p);
    }
  }

  /** A step that touches the memory of bucket b0 alone, which is q afterwards. */
  lemma UpdateKeepsMemory(ms: MSys, ms': MSys, b0: nat, q: Ptr)
    requires MInv(ms) && |ms'.pcs| == |ms'.sys.threads| && |ms.pcs| == |ms.sys.threads|
    requires forall b: nat, p: Ptr :: b != b0 && Owns(ms', b, p) ==> Owns(ms, b, p)
    requires forall p :: Owns(ms', b0, p) ==> p == q
    requires forall b: nat, p: Ptr :: b != b0 && Owns(ms, b, p) && p != 0 ==> p != q && SameMemory(ms, ms', p)
    requires FlagOk(ms', b0, q) && (q != 0 ==> Live(ms'.mem, q))
    requires forall b: nat :: b != b0 ==> SameEntryAt(ms, ms', b)
    ensures MemoryOk(ms') && forall b: nat, p: Ptr :: FlagOk(ms', b, p)
  {
    hide Inv, PlaceOk, Owns, Working;
    forall b: nat, p: Ptr | Owns(ms', b, p) && p != 0 ensures Live(ms'.mem, p) {
      if b != b0 { assert Owns(ms, b, p); }
    }
    forall b: nat, c: nat, p: Ptr | Owns(ms', b, p) && Owns(ms', c, p) && p != 0 ensures b == c {
      if b != b0 { assert Owns(ms, b, p); }
      if c != b0 { assert Owns(ms, c, p); }
    }
    forall b: nat, p: Ptr ensures FlagOk(ms', b, p) {
      if b != b0 { assert SameEntryAt(ms, ms', b) && FlagOk(ms, b, p); }
    }
  }

  predicate SameMemory(ms: MSys, ms': MSys, p: Ptr) {
    p in ms.mem && p in ms'.mem && ms'.mem[p] == ms.mem[p]
  }

  // Steps that change no more than the client

  lemma StayingKeepsPlace(ms: MSys, ms': MSys, tid: nat, c: MChoice)
    requires MInv(ms) && MSteps(ms, ms', tid, c) && Stays(ms, ms') && !CacheStep(ms.pcs[tid], ms.sys.threads[tid])
    ensures PlaceOk(ms', tid) && !ms'.pcs[tid].MSwap? && !ms.pcs[tid].MSwap?
    ensures forall key ::
              Works(ms'.pcs[tid], ms'.sys.threads[tid], key) <==> Works(ms.pcs[tid], ms.sys.threads[tid], key)
  {
    hide Inv, Contents, CacheMoves, FlagOk, Holding, MemoryOk, Working;
    MInvIs(ms, tid);
    HoldingSame(ms, ms');
    var pc, th := ms.pcs[tid], ms.sys.threads[tid];
    match pc
    case MLook(key, p) =>
      FlagTellsDuty(ms, tid);
    case MTest(key) => if th.ret != 0 { IdleHolderSeesFinished(ms, tid, key, th.ret); }
    case MFill(key, p) => var _ := HolderOwns(ms, tid, key, p);
    case MClear(key, p) => var _ := HolderOwns(ms, tid, key, p);
    case _ =>
  }

  /** A client that tests the flag finds it set exactly when generating the buffer is its own duty. */
  lemma FlagTellsDuty(ms: MSys, tid: nat)
    requires MInv(ms) && tid < |ms.pcs| == |ms.sys.threads| && ms.pcs[tid].MLook?
    ensures Live(ms.mem, ms.pcs[tid].p)
    ensures ms.mem[ms.pcs[tid].p].generate <==> ms.pcs[tid].key in ms.sys.threads[tid].writes
  {
    hide Inv, Contents, FlagOk, MemoryOk, Holding;
    var key, p, th := ms.pcs[tid].key, ms.pcs[tid].p, ms.sys.threads[tid];
    MInvIs(ms, tid);
    var _ := HolderOwns(ms, tid, key, p);
    if !Works(ms.pcs[tid], th, key) { IdleHolderSeesFinished(ms, tid, key, p); }
  }

  /** The steps that go through the cache. */
  predicate CacheStep(pc: MPc, th: Thread) {
    pc.MIdle? || pc.MSwap? || pc.MUnlock? || ((pc.MTest? || pc.MRead?) && !th.pc.Idle?)
  }

  lemma HoldingSame(ms: MSys, ms': MSys)
    requires ms'.sys == ms.sys
    ensures forall th, key, p :: Holding(ms'.sys, th, key, p) <==> Holding(ms.sys, th, key, p)
  {}

  /** What the other clients know does not depend on the memory. */
  lemma PlacesStay(ms: MSys, ms': MSys, tid: nat)
    requires MInv(ms) && tid < |ms.pcs| == |ms'.pcs| && ms'.sys == ms.sys && PlaceIsOk(ms', tid)
    requires forall i :: 0 <= i < |ms.pcs| && i != tid ==> ms'.pcs[i] == ms.pcs[i]
    ensures forall i :: 0 <= i < |ms'.pcs| ==> |ms'.pcs| == |ms'.sys.threads| && PlaceOk(ms', i)
  {
    hide Inv, Contents, Holding;
    forall i | 0 <= i < |ms'.pcs| ensures PlaceOk(ms', i) {
      HoldingSame(ms, ms');
      MInvIs(ms, i);
    }
  }

  ghost predicate PlaceIsOk(ms: MSys, i: nat) {
    i < |ms.pcs| == |ms.sys.threads| && PlaceOk(ms, i)
  }

  /** Outside the cache, and apart from the beginning and the end of a move, the buckets own what they did. */
  lemma OwnsStaysOutside(ms: MSys, ms': MSys, tid: nat, b: nat, p: Ptr)
    requires ms'.sys == ms.sys && tid < |ms.pcs| == |ms'.pcs|
    requires forall i :: 0 <= i < |ms.pcs| && i != tid ==> ms'.pcs[i] == ms.pcs[i]
    requires !Swaps(ms, tid, b) && !Swaps(ms', tid, b)
    ensures Owns(ms', b, p) <==> Owns(ms, b, p)
  {
    OwnsStays(ms, ms', b, p);
  }

  lemma StayingKeeps(ms: MSys, ms': MSys, tid: nat, c: MChoice)
    requires MInv(ms) && MSteps(ms, ms', tid, c) && Stays(ms, ms') && !CacheStep(ms.pcs[tid], ms.sys.threads[tid])
    ensures MInv(ms')
  {
    hide Inv, Contents, CacheMoves, Holding, Owns, MemoryOk, FlagOk, Works, PlaceOk;
    MInvIs(ms, tid);
    StayingKeepsPlace(ms, ms', tid, c);
    PlacesStay(ms, ms', tid);
    forall b: nat, p: Ptr ensures Owns(ms', b, p) <==> Owns(ms, b, p) {
      OwnsStaysOutside(ms, ms', tid, b, p);
    }
    forall b: nat ensures SameEntryAt(ms, ms', b) {
      if InUse(ms.sys.sh.table, b) { WorkingMoves(ms, ms', tid, ms.sys.sh.table[b].key); }
    }
    QuietKeepsMemory(ms, ms');
  }

  // The loader moves the buffer, or finishes it

  /** The loader at work: bucket b is its own, and nobody else works on the entry. */
  lemma LoaderIs(ms: MSys, tid: nat) returns (b: nat)
    requires MInv(ms) && tid < |ms.pcs| == |ms.sys.threads| && (ms.pcs[tid].MFill? || ms.pcs[tid].MClear?)
    ensures var key, p := ms.pcs[tid].key, ms.pcs[tid].p;
            && Holds(ms.sys.sh.table, b, key) && ms.sys.sh.table[b].key == key && !Swapping(ms, b)
            && InUse(ms.sys.sh.table, b)
            && Owns(ms, b, p) && p != 0 && Live(ms.mem, p) && ms.mem[p] == Dsc(true, 0, true)
            && (forall x: Ptr :: Owns(ms, b, x) ==> x == p)
            && (forall c: nat, x: Ptr :: c != b && Owns(ms, c, x) && x != 0 ==> x != p && Live(ms.mem, x))
            && (forall c: nat :: c != b ==> !Holds(ms.sys.sh.table, c, key))
            && (forall j :: 0 <= j < |ms.pcs| && j != tid ==> !Works(ms.pcs[j], ms.sys.threads[j], key))
  {
    hide Inv, Contents, FlagOk, Holding, Owns, Swapping;
    var key, p := ms.pcs[tid].key, ms.pcs[tid].p;
    MInvIs(ms, tid);
    b := HolderOwns(ms, tid, key, p);
    assert Works(ms.pcs[tid], ms.sys.threads[tid], key);
    forall c: nat | c != b ensures !Holds(ms.sys.sh.table, c, key) {
      OneBucket(ms.sys, b, c, key);
    }
    HolderHolds(ms.sys, ms.sys.threads[tid], key, p);
    forall j | 0 <= j < |ms.pcs| && j != tid ensures !Works(ms.pcs[j], ms.sys.threads[j], key) {
      OnlyWorker(ms, tid, j, key);
    }
  }

  lemma HolderHolds(sys: Sys, th: Thread, key: Key, p: Ptr)
    requires Holding(sys, th, key, p)
    ensures key in th.held
  {}

  /** What the loader's step does to bucket b, in terms of what is owned. */
  lemma LoaderOwns(ms: MSys, ms': MSys, tid: nat, b: nat)
    requires MInv(ms) && tid < |ms.pcs| == |ms.sys.threads| == |ms'.pcs| && (ms.pcs[tid].MFill? || ms.pcs[tid].MClear?)
    requires ms'.sys == ms.sys && ms'.pcs == ms.pcs[tid := ms'.pcs[tid]]
    requires Holds(ms.sys.sh.table, b, ms.pcs[tid].key) && !Swapping(ms, b)
    requires forall c: nat :: c != b ==> !Holds(ms.sys.sh.table, c, ms.pcs[tid].key)
    requires ms'.pcs[tid].MSwap? ==> ms'.pcs[tid].key == ms.pcs[tid].key
    ensures forall c: nat, x: Ptr :: c != b && Owns(ms', c, x) ==> Owns(ms, c, x)
    ensures forall x: Ptr :: Owns(ms', b, x) ==> if ms'.pcs[tid].MSwap? then x == ms'.pcs[tid].q else Owns(ms, b, x)
  {
    hide MInv, Holds;
    forall c: nat, x: Ptr | c != b && Owns(ms', c, x) ensures Owns(ms, c, x) {
      OwnsStaysOutside(ms, ms', tid, c, x);
    }
    if ms'.pcs[tid].MSwap? {
      assert Swaps(ms', tid, b);
      forall i: nat | Swaps(ms', i, b) ensures i == tid {
        assert i != tid ==> Swaps(ms, i, b);
      }
    } else {
      forall x: Ptr | Owns(ms', b, x) ensures Owns(ms, b, x) {
        OwnsStaysOutside(ms, ms', tid, b, x);
      }
    }
  }

  lemma MovedKeeps(ms: MSys, ms': MSys, tid: nat, c: MChoice)
    requires MInv(ms) && MSteps(ms, ms', tid, c) && ms.pcs[tid].MFill? && !Stays(ms, ms')
    ensures MInv(ms')
  {
    hide Inv, Contents, CacheMoves, Holding, Owns, MemoryOk, MInv, Swapping, Holds;
    MInvIs(ms, tid);
    var key, p, q := ms.pcs[tid].key, ms.pcs[tid].p, c.q;
    var b0 := LoaderIs(ms, tid);
    LoaderOwns(ms, ms', tid, b0);
    LoaderWorks(ms, ms', tid, b0);
    assert PlaceIsOk(ms', tid) by { HoldingSame(ms, ms'); }
    PlacesStay(ms, ms', tid);
    UpdateKeepsMemory(ms, ms', b0, q);
    MInvFrom(ms');
  }

  lemma MInvFrom(ms: MSys)
    requires Inv(ms.sys) && |ms.pcs| == |ms.sys.threads| && MemoryOk(ms)
    requires forall i :: 0 <= i < |ms.pcs| ==> PlaceOk(ms, i)
    requires forall b: nat, p: Ptr :: FlagOk(ms, b, p)
    ensures MInv(ms)
  {}

  /** The loader goes on loading, or has finished. */
  lemma LoaderWorks(ms: MSys, ms': MSys, tid: nat, b: nat)
    requires MInv(ms) && tid < |ms.pcs| == |ms.sys.threads| == |ms'.pcs| && (ms.pcs[tid].MFill? || ms.pcs[tid].MClear?)
    requires ms'.sys == ms.sys && ms'.pcs == ms.pcs[tid := ms'.pcs[tid]]
    requires var pc := ms'.pcs[tid];
             (pc.MSwap? || pc.MClear? || pc.MUnlock?) && pc.key == ms.pcs[tid].key
    requires Holds(ms.sys.sh.table, b, ms.pcs[tid].key)
    requires forall c: nat :: c != b ==> !Holds(ms.sys.sh.table, c, ms.pcs[tid].key)
    requires forall j :: 0 <= j < |ms.pcs| && j != tid ==> !Works(ms.pcs[j], ms.sys.threads[j], ms.pcs[tid].key)
    ensures Working(ms', ms.pcs[tid].key) <==> !ms'.pcs[tid].MUnlock?
    ensures forall c: nat :: c != b ==> SameEntryAt(ms, ms', c)
  {
    hide MInv;
    assert !ms'.pcs[tid].MUnlock? ==> Works(ms'.pcs[tid], ms'.sys.threads[tid], ms.pcs[tid].key);
    forall c: nat | c != b ensures SameEntryAt(ms, ms', c) {
      if InUse(ms.sys.sh.table, c) {
        assert !Holds(ms.sys.sh.table, c, ms.pcs[tid].key);
        WorkingMoves(ms, ms', tid, ms.sys.sh.table[c].key);
      }
    }
  }

  /** The flag is cleared. */
  lemma ClearedKeeps(ms: MSys, ms': MSys, tid: nat, c: MChoice)
    requires MInv(ms) && MSteps(ms, ms', tid, c) && ms.pcs[tid].MClear? && !Stays(ms, ms')
    ensures MInv(ms')
  {
    hide Inv, Contents, CacheMoves, Holding, Owns, MemoryOk, MInv, Swapping, Holds;
    MInvIs(ms, tid);
    var key, p := ms.pcs[tid].key, ms.pcs[tid].p;
    var b0 := LoaderIs(ms, tid);
    LoaderOwns(ms, ms', tid, b0);
    LoaderWorks(ms, ms', tid, b0);
    assert PlaceIsOk(ms', tid) by { HoldingSame(ms, ms'); }
    PlacesStay(ms, ms', tid);
    UpdateKeepsMemory(ms, ms', b0, p);
    MInvFrom(ms');
  }

  // ---------------------------------------------------------------------------------------------
  // Steps inside the cache
  // ---------------------------------------------------------------------------------------------

  /** What a step inside the cache comes to, for the proofs below. */
  ghost predicate Comes(ms: MSys, ms': MSys, tid: nat, m: Move) {
    && tid < |ms.sys.threads| && Sized(ms.sys) && m.Move?
    && Sound(ms.sys.cfg, ms.sys.sh) && Enabled(ms.sys.cfg, ms.sys.sh, m.e)
    && HandlesFollow(ms.sys.sh.table, m.e, ms.sys.threads[tid], m.th)
    && ms'.sys.sh == Then(ms.sys.cfg, ms.sys.sh, m.e)
    && ms'.sys.threads == ms.sys.threads[tid := m.th]
    && ms'.sys.cfg == ms.sys.cfg
    && ms'.mem == (if m.e.Insert? then Prepared(ms.mem, Kept(ms.sys.sh.table, m.e), m.e.data) else ms.mem)
    && Contents(ms'.sys.sh.table) == MapAfter(ms.sys.sh.table, m.e)
    && Inv(ms'.sys)
  }

  lemma CacheComes(ms: MSys, ms': MSys, tid: nat, ch: Choice)
    requires MInv(ms) && CacheMoves(ms, ms', tid, ch)
    ensures Sized(ms.sys) && Comes(ms, ms', tid, Step(ms.sys, ms.sys.threads[tid], ch))
  {
    hide IndexOk, LruOk, Contents, Enabled, Apply, Step, MapAfter, PlaceOk, FlagOk, HandlesFollow, MemoryOk, Prepared;
    var m := Step(ms.sys, ms.sys.threads[tid], ch);
    StepIsFit(ms.sys, tid, ch);
    StepKeepsInv(ms.sys, ms'.sys, tid, ch);
    SoundIndex(ms.sys);
    EffectOnMap(ms.sys.cfg, ms.sys.sh, m.e);
    ThenIs(ms.sys.cfg, ms.sys.sh, m.e);
  }

  /** A store is always one that the lookup of a client asked for; its payload is the bucket's own, or new. */
  lemma InsertComes(ms: MSys, ms': MSys, tid: nat, ch: Choice)
    requires MInv(ms) && CacheMoves(ms, ms', tid, ch) && tid < |ms.pcs|
    ensures Sized(ms.sys)
    ensures var m, t := Step(ms.sys, ms.sys.threads[tid], ch), ms.sys.sh.table;
            m.e.Insert? ==>
              && m.e.data != 0 && m.e.locked && m.e.b < |t|
              && (if Kept(t, m.e) then m.e.data == t[m.e.b].data else !Live(ms.mem, m.e.data))
              && ms.sys.threads[tid].pc == GetTry(m.e.key) && ms.pcs[tid] == MRead(m.e.key)
              && m.th.pc.Front? && m.th.pc.key == m.e.key && m.th.ret == m.e.data
  {
    hide Inv, IndexOk, LruOk, Contents, Enabled, Apply, FlagOk, Holding, AssertsHold, BucketOf, FreeChoice, MemoryOk,
      Prepared;
    MInvIs(ms, tid);
    InvIs(ms.sys, tid);
    var th := ms.sys.threads[tid];
    if !InLookup(th.pc) {
      OnlyGetsInsert(ms.sys, th, ch);
    } else {
      LookupInserts(ms.sys, th, ch);
    }
  }

  lemma OnlyGetsInsert(sys: Sys, th: Thread, ch: Choice)
    requires Sized(sys) && !InLookup(th.pc)
    ensures var m := Step(sys, th, ch); m.Move? ==> !m.e.Insert?
    ensures var m := Step(sys, th, ch); m.Move? && m.e.Rewrite? ==> th.pc.Idle? && ch.Resize? && m.e.data == ch.data
  {
    hide AssertsHold, BucketOf;
  }

  lemma LookupInserts(sys: Sys, th: Thread, ch: Choice)
    requires Sized(sys) && InLookup(th.pc)
    ensures var m := LookupStep(sys, th, ch);
            m.Move? ==> !m.e.Rewrite? && (m.e.Insert? ==>
              && th.pc == GetTry(m.e.key) && ch.Pick? && ch.f == m.e.b && 0 <= ch.f < |sys.sh.table|
              && ch.a.data == m.e.data && ch.a.locked == m.e.locked
              && m.th.pc.Front? && m.th.pc.key == m.e.key && m.th.ret == m.e.data)
  {
    hide AssertsHold, BucketOf;
  }

  lemma CacheKeepsOther(ms: MSys, ms': MSys, tid: nat, ch: Choice, i: nat)
    requires MInv(ms) && CacheMoves(ms, ms', tid, ch) && i < |ms.pcs| == |ms.sys.threads| == |ms'.pcs| && i != tid
    requires ms'.pcs[i] == ms.pcs[i] && |ms'.pcs| == |ms'.sys.threads|
    ensures PlaceOk(ms', i)
  {
    hide Inv, Steps, IndexOk, LruOk, Contents, Enabled, Apply, FlagOk, Step, MapAfter, HandlesFollow, Then, InRead,
      MemoryOk, Prepared;
    MInvIs(ms, i);
    StepsOf(ms, ms', tid, ch);
    CacheComes(ms, ms', tid, ch);
    var th := ms.sys.threads[i];
    forall key, p | Holding(ms.sys, th, key, p) ensures Holding(ms'.sys, th, key, p) {
      HeldPayloadStays(ms.sys, ms'.sys, tid, ch, i, key);
    }
  }

  lemma StepsOf(ms: MSys, ms': MSys, tid: nat, ch: Choice)
    requires CacheMoves(ms, ms', tid, ch)
    ensures Steps(ms.sys, ms'.sys, tid, ch) && tid < |ms.sys.threads|
  {}

  /** Between the two states the duty of the stepping client changes only by storing a new entry. */
  ghost predicate DutyFollows(ms: MSys, ms': MSys, tid: nat, e: Effect, key: Key)
    requires tid < |ms.pcs| == |ms.sys.threads| && |ms'.pcs| == |ms'.sys.threads| && tid < |ms'.pcs|
  {
    if e.Insert? && e.key == key then Works(ms'.pcs[tid], ms'.sys.threads[tid], key)
    else Works(ms'.pcs[tid], ms'.sys.threads[tid], key) <==> Works(ms.pcs[tid], ms.sys.threads[tid], key)
  }

  /** The other loaders keep moving the memory of the same buckets. */
  lemma SwapsStays(ms: MSys, ms': MSys, tid: nat, ch: Choice, i: nat, b: nat)
    requires MInv(ms) && CacheMoves(ms, ms', tid, ch) && i != tid && |ms'.pcs| == |ms.pcs|
    requires i < |ms.pcs| ==> ms'.pcs[i] == ms.pcs[i]
    ensures Swaps(ms', i, b) <==> Swaps(ms, i, b)
  {
    if i < |ms.pcs| && ms.pcs[i].MSwap? {
      hide Inv, Steps, IndexOk, LruOk, Contents, Enabled, Apply, FlagOk, Step, MapAfter, HandlesFollow, Then,
        MemoryOk, Prepared, Holds;
      var key := ms.pcs[i].key;
      MInvIs(ms, i);
      StepsOf(ms, ms', tid, ch);
      CacheComes(ms, ms', tid, ch);
      HolderHolds(ms.sys, ms.sys.threads[i], key, ms.pcs[i].p);
      HandleMeans(ms.sys, i, key);
      var c := BucketOf(ms.sys.sh.table, key);
      var e := Step(ms.sys, ms.sys.threads[tid], ch).e;
      EffectKeepsHolds(ms.sys.cfg, ms.sys.sh, e, c, key);
      ThenIs(ms.sys.cfg, ms.sys.sh, e);
      OneBucket(ms.sys, b, c, key);
      OneBucket(ms'.sys, b, c, key);
    }
  }

  /** A bucket that is in use after an effect, and was not filled by it, stored the same key before. */
  lemma EffectKeepsKey(cfg: Config, s: Shared, e: Effect, b: nat)
    requires Sound(cfg, s) && Enabled(cfg, s, e) && InUse(Apply(cfg, s, e).table, b)
    ensures if e.Insert? && e.b == b then Apply(cfg, s, e).table[b].key == e.key
            else InUse(s.table, b) && Apply(cfg, s, e).table[b].key == s.table[b].key
  {
    hide Sound, Enabled, Apply;
    EffectKeepsTableSize(cfg, s, e);
    EffectOnBucket(cfg, s, e, b);
  }

  /** What a step in the cache that is not the loader's own means for the memory of bucket b. */
  lemma CacheOwns(ms: MSys, ms': MSys, tid: nat, ch: Choice, b: nat, p: Ptr)
    requires MInv(ms) && CacheMoves(ms, ms', tid, ch) && tid < |ms.pcs| == |ms.sys.threads| == |ms'.pcs|
    requires ms'.pcs == ms.pcs[tid := ms'.pcs[tid]] && !ms.pcs[tid].MSwap? && !ms'.pcs[tid].MSwap?
    requires Sized(ms.sys) && !Step(ms.sys, ms.sys.threads[tid], ch).e.Rewrite?
    ensures var e := Step(ms.sys, ms.sys.threads[tid], ch).e;
            if e.Insert? && e.b == b then Owns(ms', b, p) ==> p == e.data
            else Owns(ms', b, p) ==> Owns(ms, b, p)
  {
    hide Inv, Steps, IndexOk, LruOk, Contents, Enabled, Apply, FlagOk, Step, MapAfter, HandlesFollow, Then,
      MemoryOk, Prepared, PlaceOk, CacheMoves, Owns;
    StepsOf(ms, ms', tid, ch);
    CacheComes(ms, ms', tid, ch);
    var e := Step(ms.sys, ms.sys.threads[tid], ch).e;
    ThenIs(ms.sys.cfg, ms.sys.sh, e);
    EffectKeepsTableSize(ms.sys.cfg, ms.sys.sh, e);
    forall i: nat ensures Swaps(ms', i, b) <==> Swaps(ms, i, b) {
      if i != tid { SwapsStays(ms, ms', tid, ch, i, b); }
    }
    if b < |ms.sys.sh.table| { DataAfter(ms.sys.cfg, ms.sys.sh, e, b); }
    if e.Insert? && e.b == b {
      FillsFree(ms.sys.cfg, ms.sys.sh, e);
      FreeNotSwapping(ms, b);
      RecordedOnly(ms', b, p);
    } else {
      OwnsStays(ms, ms', b, p);
    }
  }

  lemma FillsFree(cfg: Config, s: Shared, e: Effect)
    requires e.Insert? && Enabled(cfg, s, e)
    ensures e.b < |s.table| && !InUse(s.table, e.b)
  {}

  lemma RecordedOnly(ms: MSys, b: nat, p: Ptr)
    requires forall i: nat :: !Swaps(ms, i, b)
    ensures Owns(ms, b, p) <==> b < |ms.sys.sh.table| && ms.sys.sh.table[b].data == p
  {}

  /** Entries that a step in the cache does not store are those that were there before. */
  lemma CacheKeepsEntry(ms: MSys, ms': MSys, tid: nat, ch: Choice, b: nat)
    requires MInv(ms) && CacheMoves(ms, ms', tid, ch) && tid < |ms.pcs| == |ms.sys.threads| == |ms'.pcs|
    requires ms'.pcs == ms.pcs[tid := ms'.pcs[tid]] && |ms'.pcs| == |ms'.sys.threads| && Sized(ms.sys)
    requires var e := Step(ms.sys, ms.sys.threads[tid], ch).e; e.Insert? ==> e.b != b
    requires forall k :: DutyFollows(ms, ms', tid, Step(ms.sys, ms.sys.threads[tid], ch).e, k)
    ensures SameEntryAt(ms, ms', b)
  {
    hide Inv, Steps, IndexOk, LruOk, Contents, Enabled, Apply, FlagOk, Step, MapAfter, HandlesFollow, Then,
      MemoryOk, Prepared, PlaceOk, CacheMoves, Works;
    if InUse(ms'.sys.sh.table, b) {
      StepsOf(ms, ms', tid, ch);
      CacheComes(ms, ms', tid, ch);
      var e := Step(ms.sys, ms.sys.threads[tid], ch).e;
      ThenIs(ms.sys.cfg, ms.sys.sh, e);
      EffectKeepsKey(ms.sys.cfg, ms.sys.sh, e, b);
      var key := ms.sys.sh.table[b].key;
      if e.Insert? { NotYetStored(ms.sys.cfg, ms.sys.sh, e, b); }
      assert DutyFollows(ms, ms', tid, e, key);
      WorkingMoves(ms, ms', tid, key);
    }
  }

  lemma NotYetStored(cfg: Config, s: Shared, e: Effect, b: nat)
    requires e.Insert? && Enabled(cfg, s, e) && InUse(s.table, b)
    ensures s.table[b].key != e.key
  {
    assert Holds(s.table, b, s.table[b].key);
  }

  /** The memory of the bucket that is filled. */
  lemma FilledBucket(ms: MSys, ms': MSys, tid: nat, ch: Choice)
    requires MInv(ms) && CacheMoves(ms, ms', tid, ch) && tid < |ms.pcs| == |ms.sys.threads| == |ms'.pcs|
    requires Sized(ms.sys) && Step(ms.sys, ms.sys.threads[tid], ch).e.Insert?
    ensures var e := Step(ms.sys, ms.sys.threads[tid], ch).e;
            && Live(ms'.mem, e.data) && ms'.mem[e.data] == NEW_DSC && e.data != 0 && !WritesFreed(ms, e)
            && forall b: nat, p: Ptr :: b != e.b && Owns(ms, b, p) && p != 0 ==> p != e.data && SameMemory(ms, ms', p)
  {
    hide Inv, Steps, IndexOk, LruOk, Contents, Enabled, Apply, FlagOk, Step, MapAfter, HandlesFollow, Then, PlaceOk,
      CacheMoves, Owns, MInv;
    MInvIs(ms, tid);
    CacheComes(ms, ms', tid, ch);
    InsertComes(ms, ms', tid, ch);
    var e := Step(ms.sys, ms.sys.threads[tid], ch).e;
    FillsFree(ms.sys.cfg, ms.sys.sh, e);
    FreeNotSwapping(ms, e.b);
    if Kept(ms.sys.sh.table, e) { RecordedOnly(ms, e.b, e.data); }
  }

  lemma CacheKeepsMemory(ms: MSys, ms': MSys, tid: nat, ch: Choice)
    requires MInv(ms) && CacheMoves(ms, ms', tid, ch) && tid < |ms.pcs| == |ms.sys.threads| == |ms'.pcs|
    requires ms'.pcs == ms.pcs[tid := ms'.pcs[tid]] && |ms'.pcs| == |ms'.sys.threads|
    requires !ms.pcs[tid].MSwap? && !ms'.pcs[tid].MSwap? && Sized(ms.sys)
    requires forall k :: DutyFollows(ms, ms', tid, Step(ms.sys, ms.sys.threads[tid], ch).e, k)
    requires !Step(ms.sys, ms.sys.threads[tid], ch).e.Rewrite?
    ensures MemoryOk(ms') && forall b: nat, p: Ptr :: FlagOk(ms', b, p)
  {
    hide Inv, Steps, IndexOk, LruOk, Contents, Enabled, Apply, Step, MapAfter, HandlesFollow, Then, PlaceOk,
      CacheMoves, Owns, MInv, MemoryOk, FlagOk, SameEntryAt, Prepared, DutyFollows;
    CacheComes(ms, ms', tid, ch);
    var e := Step(ms.sys, ms.sys.threads[tid], ch).e;
    forall b: nat, p: Ptr ensures if e.Insert? && e.b == b then Owns(ms', b, p) ==> p == e.data
                        else Owns(ms', b, p) ==> Owns(ms, b, p) {
      CacheOwns(ms, ms', tid, ch, b, p);
    }
    forall b: nat | !(e.Insert? && e.b == b) ensures SameEntryAt(ms, ms', b) {
      CacheKeepsEntry(ms, ms', tid, ch, b);
    }
    if e.Insert? {
      FilledBucket(ms, ms', tid, ch);
      FilledFlag(ms, ms', tid, ch);
      UpdateKeepsMemory(ms, ms', e.b, e.data);
    } else {
      QuietKeepsMemory(ms, ms');
    }
  }

  lemma FilledFlag(ms: MSys, ms': MSys, tid: nat, ch: Choice)
    requires MInv(ms) && CacheMoves(ms, ms', tid, ch) && tid < |ms.pcs| == |ms.sys.threads| == |ms'.pcs|
    requires |ms'.pcs| == |ms'.sys.threads| && Sized(ms.sys) && Step(ms.sys, ms.sys.threads[tid], ch).e.Insert?
    requires var e := Step(ms.sys, ms.sys.threads[tid], ch).e;
             DutyFollows(ms, ms', tid, e, e.key) && e.data != 0 && Live(ms'.mem, e.data) && ms'.mem[e.data] == NEW_DSC
    ensures var e := Step(ms.sys, ms.sys.threads[tid], ch).e; FlagOk(ms', e.b, e.data)
  {
    hide Inv, Steps, IndexOk, LruOk, Contents, Enabled, Apply, Step, MapAfter, HandlesFollow, Then, PlaceOk,
      CacheMoves, Owns, MInv, MemoryOk, Prepared;
    CacheComes(ms, ms', tid, ch);
    var e := Step(ms.sys, ms.sys.threads[tid], ch).e;
    ThenIs(ms.sys.cfg, ms.sys.sh, e);
    if InUse(ms'.sys.sh.table, e.b) { EffectKeepsKey(ms.sys.cfg, ms.sys.sh, e, e.b); }
    NowWorking(ms', tid, e.key);
  }

  lemma NowWorking(ms: MSys, tid: nat, key: Key)
    requires tid < |ms.pcs| == |ms.sys.threads| && Works(ms.pcs[tid], ms.sys.threads[tid], key)
    ensures Working(ms, key)
  {}

  /** What a lookup section leaves in the thread. */
  lemma LookupLands(sys: Sys, th: Thread, ch: Choice)
    requires Sized(sys) && (th.pc.GetTry? || th.pc.TestTry?)
    ensures var m, key, b := LookupStep(sys, th, ch), th.pc.key, BucketOf(sys.sh.table, th.pc.key);
            m.Move? && m.th.pc != Crashed ==>
              || (m.e == Skip && th.pc.GetTry? && m.th == th.(pc := GcStart(ForRead(key))))
              || (m.e == Skip && m.th == th.(pc := Idle, ret := 0) && (th.pc.GetTry? ==> b == -1))
              || (b != -1 && m.e == AddRead(b) && sys.sh.table[b].write == 0 && m.th.pc == Front(key, b)
                  && m.th.ret == sys.sh.table[b].data && m.th.writes == th.writes && key in m.th.held)
              || (m.e.Insert? && th.pc.GetTry? && m.e.key == key && m.th.pc == Front(key, m.e.b) && m.th.ret == m.e.data
                  && key in m.th.held && (m.e.locked ==> key in m.th.writes)
                  && forall k :: k in m.th.writes ==> k == key || k in th.writes)
  {
    hide BucketOf, FreeChoice;
  }

  lemma NotStoredNotWritten(ms: MSys, tid: nat, key: Key)
    requires MInv(ms) && tid < |ms.sys.threads|
    ensures BucketOf(ms.sys.sh.table, key) == -1 ==> key !in ms.sys.threads[tid].writes
    ensures var b := BucketOf(ms.sys.sh.table, key);
            b != -1 && ms.sys.sh.table[b].write == 0 ==> key !in ms.sys.threads[tid].writes
  {
    hide Inv;
    WriterMeans(ms.sys, tid, key);
  }

  /** A client inside dt_cache_read_get or dt_cache_read_testget. */
  lemma LookupKeepsPlace(ms: MSys, ms': MSys, tid: nat, ch: Choice, key: Key)
    requires MInv(ms) && CacheMoves(ms, ms', tid, ch) && tid < |ms.pcs| && |ms.pcs| == |ms.sys.threads|
    requires |ms'.pcs| == |ms'.sys.threads| == |ms.pcs| && ms'.pcs[tid] == ms.pcs[tid]
    requires ms.pcs[tid] == (if ms.sys.threads[tid].pc.GetTry? then MRead(key) else MTest(key))
    requires ms.sys.threads[tid].pc == GetTry(key) || ms.sys.threads[tid].pc == TestTry(key)
    ensures PlaceOk(ms', tid) && Sized(ms.sys) && Step(ms.sys, ms.sys.threads[tid], ch).Move?
    ensures forall k :: DutyFollows(ms, ms', tid, Step(ms.sys, ms.sys.threads[tid], ch).e, k)
    ensures !Step(ms.sys, ms.sys.threads[tid], ch).e.Rewrite?
  {
    hide Inv, Steps, IndexOk, LruOk, Contents, Enabled, Apply, FlagOk, MemoryOk, Prepared, HandlesFollow, Then,
      LookupStep, BucketOf;
    StepsOf(ms, ms', tid, ch);
    CacheComes(ms, ms', tid, ch);
    InsertComes(ms, ms', tid, ch);
    StepIsFit(ms.sys, tid, ch);
    var th := ms.sys.threads[tid];
    LookupLands(ms.sys, th, ch);
    NotStoredNotWritten(ms, tid, key);
    var m := LookupStep(ms.sys, th, ch);
    if m.e.AddRead? {
      HitPayload(ms, key);
    }
  }

  lemma HitPayload(ms: MSys, key: Key)
    requires MInv(ms) && |ms.pcs| > 0
    ensures var b := BucketOf(ms.sys.sh.table, key);
            b != -1 ==> key in Contents(ms.sys.sh.table) && b < |ms.sys.sh.table| && ms.sys.sh.table[b].key == key
                        && Contents(ms.sys.sh.table)[key].data == ms.sys.sh.table[b].data
                        && (ms.sys.sh.table[b].write == 0 ==> ms.sys.sh.table[b].data != 0)
  {
    hide Inv, Contents, FlagOk, MemoryOk, PlaceOk;
    MInvIs(ms, 0);
    InvIs(ms.sys, 0);
    InvSound(ms.sys);
    var b := BucketOf(ms.sys.sh.table, key);
    LookupMeans(ms.sys.cfg, ms.sys.sh, key, b);
    if b != -1 && ms.sys.sh.table[b].write == 0 {
      NotWrittenNotSwapping(ms, b);
      FlagIsNotNull(ms, b, ms.sys.sh.table[b].data);
    }
  }

  lemma FlagIsNotNull(ms: MSys, b: nat, p: Ptr)
    requires MInv(ms) && Owns(ms, b, p) && InUse(ms.sys.sh.table, b)
    ensures p != 0
  {
    hide Owns;
    assert FlagOk(ms, b, p);
  }

  lemma NotWrittenNotSwapping(ms: MSys, b: nat)
    requires MInv(ms) && InUse(ms.sys.sh.table, b) && ms.sys.sh.table[b].write == 0
    ensures !Swapping(ms, b)
  {
    hide Inv, FlagOk, MemoryOk;
    forall i: nat ensures !Swaps(ms, i, b) {
      if Swaps(ms, i, b) {
        MInvIs(ms, i);
        var key := ms.pcs[i].key;
        HolderHolds(ms.sys, ms.sys.threads[i], key, ms.pcs[i].p);
        HandleMeans(ms.sys, i, key);
        OneBucket(ms.sys, b, BucketOf(ms.sys.sh.table, key), key);
      }
    }
  }

  /** Inside dt_cache_gc, called from dt_cache_read_get, the reader keeps its handles. */
  lemma ReadGoesOn(sys: Sys, th: Thread, ch: Choice, key: Key)
    requires Sized(sys) && InRead(th.pc, key) && !th.pc.GetTry?
    ensures var m := Step(sys, th, ch);
            m.Move? ==> InRead(m.th.pc, key) && m.th.writes == th.writes
                        && !m.e.Insert? && !m.e.Rewrite? && !IsInPlace(m.e)
  {
    hide BucketOf;
  }

  lemma ReadKeepsPlace(ms: MSys, ms': MSys, tid: nat, ch: Choice, key: Key)
    requires MInv(ms) && CacheMoves(ms, ms', tid, ch) && tid < |ms.pcs| && |ms.pcs| == |ms.sys.threads|
    requires |ms'.pcs| == |ms'.sys.threads| == |ms.pcs| && ms'.pcs[tid] == ms.pcs[tid] == MRead(key)
    requires InRead(ms.sys.threads[tid].pc, key) && !ms.sys.threads[tid].pc.GetTry?
    ensures PlaceOk(ms', tid) && Sized(ms.sys) && Step(ms.sys, ms.sys.threads[tid], ch).Move?
    ensures forall k :: DutyFollows(ms, ms', tid, Step(ms.sys, ms.sys.threads[tid], ch).e, k)
    ensures !Step(ms.sys, ms.sys.threads[tid], ch).e.Rewrite?
  {
    hide Inv, Steps, IndexOk, LruOk, Contents, Enabled, Apply, FlagOk, HandlesFollow, Then, Step, MapAfter;
    StepsOf(ms, ms', tid, ch);
    CacheComes(ms, ms', tid, ch);
    ReadGoesOn(ms.sys, ms.sys.threads[tid], ch, key);
    assert ms'.sys.threads[tid] == Step(ms.sys, ms.sys.threads[tid], ch).th;
  }

  /** Moving the entry to the front ends a lookup. */
  lemma FrontKeepsPlace(ms: MSys, ms': MSys, tid: nat, ch: Choice)
    requires MInv(ms) && CacheMoves(ms, ms', tid, ch) && tid < |ms.pcs| && |ms.pcs| == |ms.sys.threads|
    requires |ms'.pcs| == |ms'.sys.threads| == |ms.pcs| && ms'.pcs[tid] == ms.pcs[tid]
    requires (ms.pcs[tid].MRead? || ms.pcs[tid].MTest?) && ms.sys.threads[tid].pc.Front?
    ensures PlaceOk(ms', tid) && Sized(ms.sys) && Step(ms.sys, ms.sys.threads[tid], ch).Move?
    ensures forall k :: DutyFollows(ms, ms', tid, Step(ms.sys, ms.sys.threads[tid], ch).e, k)
    ensures !Step(ms.sys, ms.sys.threads[tid], ch).e.Rewrite?
  {
    hide Inv, Steps, IndexOk, LruOk, Contents, Enabled, Apply, FlagOk, Then;
    StepsOf(ms, ms', tid, ch);
    CacheComes(ms, ms', tid, ch);
    MInvIs(ms, tid);
  }

  predicate ClientPc(pc: Pc) {
    !pc.GetTry? && !pc.TestTry? && !pc.Front? && forall key :: !InRead(pc, key)
  }

  lemma IdleGoesOn(sys: Sys, th: Thread, ch: Choice)
    requires th.pc.Idle?
    ensures var m := Client(sys, th, ch);
            m.Move? ==>
              && !m.e.Insert?
              && (ch.Read? ==> InRead(m.th.pc, ch.key)) && (ch.Test? ==> m.th.pc == TestTry(ch.key))
              && (ClientChoice(ch) ==> ClientPc(m.th.pc) && !m.e.Rewrite?)
              && (ch.Read? || ch.Test? ==> m.e == Skip)
  {
    hide BucketOf, AssertsHold;
  }

  lemma CollectGoesOn(sys: Sys, th: Thread)
    requires Sized(sys) && ClientPc(th.pc) && (InGc(th.pc) || InRemove(th.pc))
    ensures var m := if InGc(th.pc) then GcStep(sys, th) else RemoveStep(sys, th);
            m.Move? ==> !m.e.Insert? && !m.e.Rewrite? && ClientPc(m.th.pc)
  {
    hide BucketOf;
    NotForRead(th.pc);
  }

  lemma RestGoesOn(sys: Sys, th: Thread, ch: Choice)
    requires Sized(sys) && ClientPc(th.pc)
    ensures var m := ScanStep(sys, th); m.Move? ==> m.e == Skip && ClientPc(m.th.pc)
    ensures var m := LookupStep(sys, th, ch); m.Move? ==> !m.e.Insert? && !m.e.Rewrite? && ClientPc(m.th.pc)
  {
    hide BucketOf, AssertsHold;
  }

  /** A client that is not looking anything up stays so. */
  lemma ClientGoesOn(sys: Sys, th: Thread, ch: Choice)
    requires Sized(sys) && ClientPc(th.pc)
    ensures var m := Step(sys, th, ch);
            m.Move? ==>
              && !m.e.Insert?
              && (th.pc.Idle? && ch.Read? ==> InRead(m.th.pc, ch.key))
              && (th.pc.Idle? && ch.Test? ==> m.th.pc == TestTry(ch.key))
              && (!th.pc.Idle? || ClientChoice(ch) ==> ClientPc(m.th.pc) && !m.e.Rewrite?)
              && (th.pc.Idle? && (ch.Read? || ch.Test?) ==> m.e == Skip)
  {
    hide ClientPc, ClientChoice, Client, GcStep, RemoveStep, ScanStep, LookupStep, InRead;
    ClientPcIs(th.pc);
    if th.pc.Idle? { IdleGoesOn(sys, th, ch); }
    else if th.pc.GcTold? { IdleIsClient(); }
    else if InGc(th.pc) || InRemove(th.pc) { CollectGoesOn(sys, th); }
    else { RestGoesOn(sys, th, ch); }
  }

  lemma IdleIsClient()
    ensures ClientPc(Idle)
  {}

  lemma ClientPcIs(pc: Pc)
    requires ClientPc(pc)
    ensures !pc.GetTry? && !pc.TestTry? && !pc.Front?
  {}

  lemma NotForRead(pc: Pc)
    requires ClientPc(pc)
    ensures (pc.GcStart? || pc.GcLook? || pc.GcLookAgain? || pc.GcPeek? || pc.GcNext?) ==> pc.caller.Alone?
    ensures (pc.RemoveTry? || pc.RemoveLru? || pc.RemoveCost?) && pc.ret.ToGc? ==> pc.ret.caller.Alone?
  {
    if (pc.GcStart? || pc.GcLook? || pc.GcLookAgain? || pc.GcPeek? || pc.GcNext?) && pc.caller.ForRead? {
      assert InRead(pc, pc.caller.key);
    }
    if (pc.RemoveTry? || pc.RemoveLru? || pc.RemoveCost?) && pc.ret.ToGc? && pc.ret.caller.ForRead? {
      assert InRead(pc, pc.ret.caller.key);
    }
  }

  lemma ClientKeepsPlace(ms: MSys, ms': MSys, tid: nat, c: MChoice, ch: Choice)
    requires MInv(ms) && MSteps(ms, ms', tid, c) && ms.pcs[tid].MIdle? && CacheMoves(ms, ms', tid, ch)
    requires ch == match c {
                     case Blocking(key) => Read(key)
                     case TestLock(key) => Test(key)
                     case Cache(h) => h
                     case _ => Go }
    requires c.Blocking? || c.TestLock? || c.Cache?
    ensures |ms.pcs| == |ms.sys.threads| == |ms'.pcs| == |ms'.sys.threads|
    ensures PlaceOk(ms', tid) && Sized(ms.sys) && Step(ms.sys, ms.sys.threads[tid], ch).Move? && !ms'.pcs[tid].MSwap?
    ensures forall k :: DutyFollows(ms, ms', tid, Step(ms.sys, ms.sys.threads[tid], ch).e, k)
    ensures !Step(ms.sys, ms.sys.threads[tid], ch).e.Rewrite?
  {
    hide Inv, Steps, IndexOk, LruOk, Contents, Enabled, Apply, FlagOk, HandlesFollow, Then, Step, MapAfter,
      InRead, CacheMoves;
    StepsOf(ms, ms', tid, ch);
    CacheComes(ms, ms', tid, ch);
    MInvIs(ms, tid);
    ClientGoesOn(ms.sys, ms.sys.threads[tid], ch);
    assert ms'.sys.threads[tid] == Step(ms.sys, ms.sys.threads[tid], ch).th;
    InReadOnly(ms'.sys.threads[tid].pc);
  }

  lemma InReadOnly(pc: Pc)
    ensures forall key :: InRead(pc, key) ==> !pc.Front? && !pc.Idle?
  {}

  /** All of it, for the steps in the cache other than the loader's own. */
  lemma CacheKeeps(ms: MSys, ms': MSys, tid: nat, ch: Choice)
    requires MInv(ms) && CacheMoves(ms, ms', tid, ch) && tid < |ms.pcs| == |ms.sys.threads| == |ms'.pcs|
    requires ms'.pcs == ms.pcs[tid := ms'.pcs[tid]] && |ms'.pcs| == |ms'.sys.threads|
    requires !ms.pcs[tid].MSwap? && !ms'.pcs[tid].MSwap? && PlaceOk(ms', tid) && Sized(ms.sys)
    requires forall k :: DutyFollows(ms, ms', tid, Step(ms.sys, ms.sys.threads[tid], ch).e, k)
    requires !Step(ms.sys, ms.sys.threads[tid], ch).e.Rewrite?
    ensures MInv(ms')
  {
    hide Inv, Steps, IndexOk, LruOk, Contents, Enabled, Apply, FlagOk, HandlesFollow, Step, PlaceOk, CacheMoves,
      DutyFollows, MemoryOk, MapAfter, Prepared, Then, Works;
    CacheComes(ms, ms', tid, ch);
    CacheKeepsMemory(ms, ms', tid, ch);
    forall i | 0 <= i < |ms'.pcs| ensures PlaceOk(ms', i) {
      if i != tid { CacheKeepsOther(ms, ms', tid, ch, i); }
    }
  }

  // ---------------------------------------------------------------------------------------------
  // The loader's own steps in the cache
  // ---------------------------------------------------------------------------------------------

  lemma WriteCountIsOne(sys: Sys, tid: nat, key: Key)
    requires Inv(sys) && tid < |sys.threads|
    ensures sys.threads[tid].writes[key] <= 1
  {
    assert LockOk(Contents(sys.sh.table), sys.threads, key);
    HeldIsCounted(sys.threads, tid, key);
  }

  lemma UnlockKeeps(ms: MSys, ms': MSys, tid: nat, c: MChoice)
    requires MInv(ms) && MSteps(ms, ms', tid, c) && ms.pcs[tid].MUnlock?
    ensures MInv(ms')
  {
    hide Inv, Steps, IndexOk, LruOk, Contents, Enabled, Apply, FlagOk, Then, Step, PlaceOk, MapAfter, CacheMoves;
    var ch := Downgrade(ms.pcs[tid].key);
    StepsOf(ms, ms', tid, ch);
    CacheComes(ms, ms', tid, ch);
    var b := UnlockIs(ms, tid);
    UnlockPlace(ms, ms', tid, c, b);
    CacheKeeps(ms, ms', tid, ch);
  }

  /** The loader's write release finds its bucket, which it has write locked once. */
  lemma UnlockIs(ms: MSys, tid: nat) returns (b: nat)
    requires MInv(ms) && tid < |ms.pcs| == |ms.sys.threads| && ms.pcs[tid].MUnlock?
    ensures Sized(ms.sys) && b < |ms.sys.sh.table|
    ensures var key, th := ms.pcs[tid].key, ms.sys.threads[tid];
            && ms.sys.sh.table[b].key == key && key in Contents(ms.sys.sh.table)
            && Contents(ms.sys.sh.table)[key] == EntryOf(ms.sys.sh.table[b])
            && Step(ms.sys, th, Downgrade(key)) == Move(DropWrite(b), th.(writes := th.writes - multiset{key}))
            && th.writes[key] == 1
  {
    hide Inv, IndexOk, LruOk, Contents, FlagOk, Holding;
    var key := ms.pcs[tid].key;
    MInvIs(ms, tid);
    InvIs(ms.sys, tid);
    InvSound(ms.sys);
    WriterMeans(ms.sys, tid, key);
    WriteCountIsOne(ms.sys, tid, key);
    LookupMeans(ms.sys.cfg, ms.sys.sh, key, BucketOf(ms.sys.sh.table, key));
    b := BucketOf(ms.sys.sh.table, key);
  }

  lemma InvSound(sys: Sys)
    requires Inv(sys)
    ensures IndexOk(sys.cfg, sys.sh)
  {}

  lemma UnlockPlace(ms: MSys, ms': MSys, tid: nat, c: MChoice, b: nat)
    requires MInv(ms) && MSteps(ms, ms', tid, c) && ms.pcs[tid].MUnlock? && tid < |ms.sys.threads|
    requires var key, th := ms.pcs[tid].key, ms.sys.threads[tid];
             && Comes(ms, ms', tid, Move(DropWrite(b), th.(writes := th.writes - multiset{key})))
             && th.writes[key] == 1 && b < |ms.sys.sh.table| && ms.sys.sh.table[b].key == key
             && key in Contents(ms.sys.sh.table)
             && Contents(ms.sys.sh.table)[key] == EntryOf(ms.sys.sh.table[b])
    ensures |ms.pcs| == |ms.sys.threads| == |ms'.pcs| == |ms'.sys.threads| && PlaceOk(ms', tid)
    ensures forall k :: DutyFollows(ms, ms', tid, DropWrite(b), k)
    ensures !ms'.pcs[tid].MSwap?
  {
    hide Inv, Steps, IndexOk, LruOk, Contents, Enabled, Apply, FlagOk, Then, Step, BucketOf, CacheMoves, HandlesFollow;
    MInvIs(ms, tid);
  }

  lemma SwapKeeps(ms: MSys, ms': MSys, tid: nat, c: MChoice)
    requires MInv(ms) && MSteps(ms, ms', tid, c) && ms.pcs[tid].MSwap?
    ensures MInv(ms')
  {
    hide Inv, Steps, IndexOk, LruOk, Contents, Enabled, Apply, FlagOk, Then, HandlesFollow, PlaceOk, MapAfter,
      Client, BucketOf, MInv, MemoryOk, Step, Works, SameEntryAt, Owns;
    var key, q := ms.pcs[tid].key, ms.pcs[tid].q;
    var ch := Resize(key, 1, q);
    MInvIs(ms, tid);
    StepsOf(ms, ms', tid, ch);
    CacheComes(ms, ms', tid, ch);
    SwapIs(ms, tid);
    SwapPlace(ms, ms', tid, c);
    SwapMemory(ms, ms', tid, c);
    forall i | 0 <= i < |ms'.pcs| ensures PlaceOk(ms', i) {
      if i != tid { CacheKeepsOther(ms, ms', tid, ch, i); }
    }
    MInvFrom(ms');
  }

  /** The loader's realloc finds its bucket, write locked by itself. */
  lemma SwapIs(ms: MSys, tid: nat)
    requires MInv(ms) && tid < |ms.pcs| == |ms.sys.threads| && ms.pcs[tid].MSwap?
    ensures Sized(ms.sys)
    ensures var key, q, b := ms.pcs[tid].key, ms.pcs[tid].q, BucketOf(ms.sys.sh.table, ms.pcs[tid].key);
            && 0 <= b < |ms.sys.sh.table| && ms.sys.sh.table[b].key == key && Holds(ms.sys.sh.table, b, key)
            && Step(ms.sys, ms.sys.threads[tid], Resize(key, 1, q)) == Move(Rewrite(b, 1, q), ms.sys.threads[tid])
  {
    hide Inv, IndexOk, LruOk, Contents, FlagOk, Holding, MemoryOk;
    var key := ms.pcs[tid].key;
    MInvIs(ms, tid);
    InvIs(ms.sys, tid);
    WriterMeans(ms.sys, tid, key);
  }

  lemma SwapPlace(ms: MSys, ms': MSys, tid: nat, c: MChoice)
    requires MInv(ms) && MSteps(ms, ms', tid, c) && ms.pcs[tid].MSwap? && tid < |ms.sys.threads| && Sized(ms.sys)
    requires Comes(ms, ms', tid, Step(ms.sys, ms.sys.threads[tid], Resize(ms.pcs[tid].key, 1, ms.pcs[tid].q)))
    ensures |ms'.pcs| == |ms'.sys.threads| && PlaceOk(ms', tid)
  {
    hide Inv, Steps, IndexOk, LruOk, Contents, Enabled, Apply, FlagOk, Then, Step, BucketOf, CacheMoves, MemoryOk;
    MInvIs(ms, tid);
    SwapIs(ms, tid);
  }

  /** What the cache is told is what the bucket has owned since the move. */
  lemma SwapMemory(ms: MSys, ms': MSys, tid: nat, c: MChoice)
    requires MInv(ms) && MSteps(ms, ms', tid, c) && ms.pcs[tid].MSwap?
    requires |ms.pcs| == |ms.sys.threads| == |ms'.pcs| == |ms'.sys.threads|
    ensures MemoryOk(ms') && forall b: nat, p: Ptr :: FlagOk(ms', b, p)
  {
    hide Inv, Steps, IndexOk, LruOk, Contents, Enabled, Apply, FlagOk, Then, HandlesFollow, PlaceOk, MapAfter,
      Client, BucketOf, MInv, MemoryOk, Step, Works, SameEntryAt, Owns, Holds, CacheMoves;
    var key, q := ms.pcs[tid].key, ms.pcs[tid].q;
    var ch := Resize(key, 1, q);
    CacheComes(ms, ms', tid, ch);
    SwapIs(ms, tid);
    var b := BucketOf(ms.sys.sh.table, key);
    SwapperOwns(ms, tid, b);
    SwapDuty(ms, ms', tid, c);
    forall x: nat, p: Ptr ensures Owns(ms', x, p) ==> if x == b then p == q else Owns(ms, x, p) {
      SwapOwns(ms, ms', tid, c, b, x, p);
    }
    forall x: nat | x != b ensures SameEntryAt(ms, ms', x) {
      CacheKeepsEntry(ms, ms', tid, ch, x);
    }
    ThenIs(ms.sys.cfg, ms.sys.sh, Rewrite(b, 1, q));
    if InUse(ms'.sys.sh.table, b) { EffectKeepsKey(ms.sys.cfg, ms.sys.sh, Rewrite(b, 1, q), b); }
    SwapFlag(ms, ms', tid, b);
    SameMemoryIs(ms, ms', b, q);
    UpdateKeepsMemory(ms, ms', b, q);
  }

  /** The loader that moves its buffer owns the new one, and nobody else does. */
  lemma SwapperOwns(ms: MSys, tid: nat, b: nat)
    requires MInv(ms) && tid < |ms.pcs| == |ms.sys.threads| && ms.pcs[tid].MSwap? && b < |ms.sys.sh.table|
    requires Holds(ms.sys.sh.table, b, ms.pcs[tid].key)
    ensures Owns(ms, b, ms.pcs[tid].q)
  {
    hide MInv;
    assert Swaps(ms, tid, b);
  }

  lemma SwapDuty(ms: MSys, ms': MSys, tid: nat, c: MChoice)
    requires MSteps(ms, ms', tid, c) && ms.pcs[tid].MSwap? && Sized(ms.sys)
    requires |ms.pcs| == |ms.sys.threads| == |ms'.pcs| == |ms'.sys.threads|
    requires Step(ms.sys, ms.sys.threads[tid], Resize(ms.pcs[tid].key, 1, ms.pcs[tid].q)).e.Rewrite?
    ensures forall k :: DutyFollows(ms, ms', tid, Step(ms.sys, ms.sys.threads[tid],
                                                        Resize(ms.pcs[tid].key, 1, ms.pcs[tid].q)).e, k)
    ensures Works(ms'.pcs[tid], ms'.sys.threads[tid], ms.pcs[tid].key)
    ensures Works(ms.pcs[tid], ms.sys.threads[tid], ms.pcs[tid].key)
  {
    hide CacheMoves, Step;
  }

  lemma SwapOwns(ms: MSys, ms': MSys, tid: nat, c: MChoice, b: nat, x: nat, p: Ptr)
    requires MInv(ms) && MSteps(ms, ms', tid, c) && ms.pcs[tid].MSwap? && Sized(ms.sys)
    requires |ms.pcs| == |ms.sys.threads| == |ms'.pcs| == |ms'.sys.threads| && b < |ms.sys.sh.table|
    requires Holds(ms.sys.sh.table, b, ms.pcs[tid].key)
    requires Step(ms.sys, ms.sys.threads[tid], Resize(ms.pcs[tid].key, 1, ms.pcs[tid].q)).e
               == Rewrite(b, 1, ms.pcs[tid].q)
    ensures Owns(ms', x, p) ==> if x == b then p == ms.pcs[tid].q else Owns(ms, x, p)
  {
    hide Inv, Steps, IndexOk, LruOk, Contents, Enabled, Apply, FlagOk, Then, HandlesFollow, PlaceOk, MapAfter,
      Client, BucketOf, MInv, MemoryOk, Step, Works, SameEntryAt, Owns, Holds, CacheMoves, Holding;
    var key, q := ms.pcs[tid].key, ms.pcs[tid].q;
    var ch, e := Resize(key, 1, q), Rewrite(b, 1, q);
    MInvIs(ms, tid);
    CacheComes(ms, ms', tid, ch);
    ThenIs(ms.sys.cfg, ms.sys.sh, e);
    EffectKeepsTableSize(ms.sys.cfg, ms.sys.sh, e);
    if x < |ms.sys.sh.table| { DataAfter(ms.sys.cfg, ms.sys.sh, e, x); }
    forall i: nat | i != tid ensures Swaps(ms', i, x) <==> Swaps(ms, i, x) {
      SwapsStays(ms, ms', tid, ch, i, x);
    }
    assert !Swaps(ms', tid, x);
    if x == b {
      SwapperHolds(ms, tid);
      NotSwapping(ms, tid, key, b);
      RecordedOnly(ms', b, p);
    } else {
      OneBucket(ms.sys, b, x, key);
      OwnsStays(ms, ms', x, p);
    }
  }

  lemma SwapperHolds(ms: MSys, tid: nat)
    requires MInv(ms) && tid < |ms.pcs| == |ms.sys.threads| && ms.pcs[tid].MSwap?
    ensures ms.pcs[tid].key in ms.sys.threads[tid].held
  {
    hide Inv, FlagOk, MemoryOk, Contents;
    MInvIs(ms, tid);
  }

  lemma SwapFlag(ms: MSys, ms': MSys, tid: nat, b: nat)
    requires MInv(ms) && tid < |ms.pcs| == |ms.sys.threads| == |ms'.pcs| == |ms'.sys.threads| && ms.pcs[tid].MSwap?
    requires Holds(ms.sys.sh.table, b, ms.pcs[tid].key) && Owns(ms, b, ms.pcs[tid].q) && ms'.mem == ms.mem
    requires Works(ms'.pcs[tid], ms'.sys.threads[tid], ms.pcs[tid].key)
    requires InUse(ms'.sys.sh.table, b) ==> ms'.sys.sh.table[b].key == ms.pcs[tid].key
    ensures FlagOk(ms', b, ms.pcs[tid].q) && ms.pcs[tid].q != 0 && Live(ms'.mem, ms.pcs[tid].q)
  {
    hide MInv, Owns;
    FlagIs(ms, b, ms.pcs[tid].q);
    assert Works(ms.pcs[tid], ms.sys.threads[tid], ms.pcs[tid].key);
    NowWorking(ms, tid, ms.pcs[tid].key);
    NowWorking(ms', tid, ms.pcs[tid].key);
  }

  lemma SameMemoryIs(ms: MSys, ms': MSys, b: nat, q: Ptr)
    requires MInv(ms) && Owns(ms, b, q) && ms'.mem == ms.mem
    ensures forall x: nat, p: Ptr :: x != b && Owns(ms, x, p) && p != 0 ==> p != q && SameMemory(ms, ms', p)
  {
    hide Inv, Owns, PlaceOk, FlagOk;
  }

  // ---------------------------------------------------------------------------------------------
  // Runs
  // ---------------------------------------------------------------------------------------------

  /** Every step of every client keeps the invariant. */
  lemma MStepKeepsMInv(ms: MSys, ms': MSys, tid: nat, c: MChoice)
    requires MInv(ms) && MSteps(ms, ms', tid, c)
    ensures MInv(ms')
  {
    hide Inv, PlaceOk, FlagOk, Step, CacheMoves, DutyFollows, MemoryOk;
    var pc, th := ms.pcs[tid], ms.sys.threads[tid];
    match pc
    case MIdle =>
      var ch := match c {
        case Blocking(key) => Read(key)
        case TestLock(key) => Test(key)
        case Cache(h) => h
        case _ => Go
      };
      ClientKeepsPlace(ms, ms', tid, c, ch);
      CacheKeeps(ms, ms', tid, ch);
    case MSwap(_, _, _) => SwapKeeps(ms, ms', tid, c);
    case MUnlock(_, _) => UnlockKeeps(ms, ms', tid, c);
    case MClear(_, _) => if Stays(ms, ms') { StayingKeeps(ms, ms', tid, c); } else { ClearedKeeps(ms, ms', tid, c); }
    case MFill(_, _) => if Stays(ms, ms') { StayingKeeps(ms, ms', tid, c); } else { MovedKeeps(ms, ms', tid, c); }
    case MTest(key) => if th.pc.Idle? { StayingKeeps(ms, ms', tid, c); } else { LookingKeeps(ms, ms', tid, c); }
    case MRead(key) => if th.pc.Idle? { StayingKeeps(ms, ms', tid, c); } else { LookingKeeps(ms, ms', tid, c); }
    case MBroken =>
    case _ => StayingKeeps(ms, ms', tid, c);
  }

  lemma LookingKeeps(ms: MSys, ms': MSys, tid: nat, c: MChoice)
    requires MInv(ms) && MSteps(ms, ms', tid, c) && (ms.pcs[tid].MTest? || ms.pcs[tid].MRead?)
    requires !ms.sys.threads[tid].pc.Idle?
    ensures MInv(ms')
  {
    hide Inv, FlagOk, Step, CacheMoves, DutyFollows, Holding, MemoryOk, WritesFreed;
    var pc, th := ms.pcs[tid], ms.sys.threads[tid];
    MInvIs(ms, tid);
    SameThreads(ms, ms', tid, c.ch);
    NothingFreed(ms, ms', tid, c.ch);
    if th.pc.Front? {
      FrontKeepsPlace(ms, ms', tid, c.ch);
    } else if th.pc.GetTry? || th.pc.TestTry? {
      LookupKeepsPlace(ms, ms', tid, c.ch, pc.key);
    } else {
      ReadKeepsPlace(ms, ms', tid, c.ch, pc.key);
    }
    CacheKeeps(ms, ms', tid, c.ch);
  }

  /** The allocate callback never writes to freed memory. */
  lemma NothingFreed(ms: MSys, ms': MSys, tid: nat, ch: Choice)
    requires MInv(ms) && CacheMoves(ms, ms', tid, ch) && tid < |ms.pcs| == |ms.sys.threads| == |ms'.pcs|
    ensures Sized(ms.sys) && !WritesFreed(ms, Step(ms.sys, ms.sys.threads[tid], ch).e)
  {
    hide MInv, CacheMoves, Step;
    MInvSized(ms, tid);
    CacheComes(ms, ms', tid, ch);
    if Step(ms.sys, ms.sys.threads[tid], ch).e.Insert? { FilledBucket(ms, ms', tid, ch); }
  }

  lemma MInvSized(ms: MSys, tid: nat)
    requires MInv(ms) && tid < |ms.pcs|
    ensures Sized(ms.sys)
  {
    InvIs(ms.sys, tid);
  }

  lemma SameThreads(ms: MSys, ms': MSys, tid: nat, ch: Choice)
    requires CacheMoves(ms, ms', tid, ch)
    ensures |ms'.sys.threads| == |ms.sys.threads|
  {}

  /** The payloads that the cache records, of occupied and of free buckets, unless they are being replaced: their
      memory has not been freed, and no two buckets share it. */
  ghost predicate PayloadsApart(ms: MSys) {
    var t := ms.sys.sh.table;
    && (forall b: nat :: b < |t| && t[b].data != 0 && !Swapping(ms, b) ==> Live(ms.mem, t[b].data))
    && (forall b: nat, c: nat :: b < c < |t| && t[b].data != 0 && !Swapping(ms, b) && !Swapping(ms, c) ==>
          t[b].data != t[c].data)
  }

  /** At the start the buckets have no payloads, or those of dt_cache_static_allocation. */
  ghost predicate MStart(ms: MSys) {
    && Start(ms.sys) && |ms.pcs| == |ms.sys.threads| && PayloadsApart(ms)
    && forall i :: 0 <= i < |ms.pcs| ==> ms.pcs[i] == MIdle
  }

  datatype MRun = MRun(states: seq<MSys>, tids: seq<nat>, choices: seq<MChoice>)

  ghost predicate IsMRun(r: MRun) {
    && r.states != [] && |r.tids| == |r.choices| == |r.states| - 1
    && MStart(r.states[0])
    && forall i {:trigger MGoesAt(r, i)} :: 0 <= i < |r.tids| ==> MGoesAt(r, i)
  }

  ghost predicate MGoesAt(r: MRun, i: nat)
    requires i < |r.tids| == |r.choices| == |r.states| - 1
  {
    MGoes(r.states[i], r.states[i+1], r.tids[i], r.choices[i])
  }

  lemma MStartIsMInv(ms: MSys)
    requires MStart(ms)
    ensures MInv(ms)
  {
    StartIsInv(ms.sys);
    hide Inv, Contents;
    forall i | 0 <= i < |ms.pcs| ensures PlaceOk(ms, i) {
      assert Fresh(ms.sys.threads[i]);
    }
    forall b: nat ensures !InUse(ms.sys.sh.table, b) && !Swapping(ms, b) {
      if InUse(ms.sys.sh.table, b) { InUseIsStored(ms.sys.sh.table, b); }
    }
  }

  lemma InUseIsStored(t: seq<Bucket>, b: nat)
    requires InUse(t, b)
    ensures t[b].key in Contents(t)
  {
    assert Holds(t, b, t[b].key) && Stores(t, t[b].key);
  }

  lemma MInvIsReady(ms: MSys, tid: nat)
    requires MInv(ms) && tid < |ms.sys.threads|
    ensures Ready(ms.sys, tid)
  {
    InvIsReady(ms.sys, tid);
  }

  lemma {:induction false} MRunsAreSafe(r: MRun, n: nat)
    requires IsMRun(r) && n < |r.states|
    ensures MInv(r.states[n])
  {
    hide MInv, MStart, MSteps, Ready;
    if n == 0 {
      MStartIsMInv(r.states[0]);
    } else {
      MRunsAreSafe(r, n - 1);
      assert MGoesAt(r, n - 1);
      MInvIsReady(r.states[n-1], r.tids[n-1]);
      MStepKeepsMInv(r.states[n-1], r.states[n], r.tids[n-1], r.choices[n-1]);
    }
  }

  /** A client that holds a buffer, and does not have to generate it, has a finished one: its memory has not been
      freed, it has been generated exactly once since it became resident, and its flag is down. */
  lemma HeldBuffersAreFinished(r: MRun, n: nat, i: nat, key: Key)
    requires IsMRun(r) && n < |r.states| && i < |r.states[n].pcs| == |r.states[n].sys.threads|
    requires key in r.states[n].sys.threads[i].held && !Works(r.states[n].pcs[i], r.states[n].sys.threads[i], key)
    ensures var ms, m := r.states[n], Contents(r.states[n].sys.sh.table);
            key in m && m[key].data in ms.mem && ms.mem[m[key].data] == Dsc(false, 1, true)
  {
    hide MInv, Works, Contents;
    MRunsAreSafe(r, n);
    var ms := r.states[n];
    MInvIs(ms, i);
    HandleStored(ms.sys, i, key);
    IdleHolderSeesFinished(ms, i, key, Contents(ms.sys.sh.table)[key].data);
  }

  /** Whoever is handed a buffer, by a TESTLOCK or by a BLOCKING get, is handed a finished one. */
  lemma OnlyFinishedBuffersAreHandedOut(r: MRun, n: nat, i: nat)
    requires IsMRun(r) && n < |r.states| && i < |r.states[n].pcs| && r.states[n].pcs[i].MGot?
    ensures var ms, key, p := r.states[n], r.states[n].pcs[i].key, r.states[n].pcs[i].p;
            && key in Contents(ms.sys.sh.table) && Contents(ms.sys.sh.table)[key].data == p
            && p in ms.mem && ms.mem[p] == Dsc(false, 1, true)
  {
    MRunsAreSafe(r, n);
    MInvIs(r.states[n], i);
    HeldBuffersAreFinished(r, n, i, r.states[n].pcs[i].key);
  }

  /** What the cache records about memory is true, but for the entries whose loaders are about to tell it more. */
  lemma PayloadsAreLive(r: MRun, n: nat)
    requires IsMRun(r) && n < |r.states|
    ensures PayloadsApart(r.states[n])
  {
    hide MInv, Swapping;
    MRunsAreSafe(r, n);
    var ms := r.states[n];
    var t := ms.sys.sh.table;
    forall b: nat | b < |t| && !Swapping(ms, b) ensures Owns(ms, b, t[b].data) {
    }
    MemoryIs(ms);
  }

  lemma MemoryIs(ms: MSys)
    requires MInv(ms)
    ensures MemoryOk(ms)
  {}

  /** A raised flag belongs to an entry that is write locked by the one client that is generating it, and
      no client ever reads or writes freed memory. */
  lemma GenerateFlagMeansWriteLocked(r: MRun, n: nat, key: Key)
    requires IsMRun(r) && n < |r.states| && key in Contents(r.states[n].sys.sh.table)
    ensures var ms, m := r.states[n], Contents(r.states[n].sys.sh.table);
            && |ms.pcs| == |ms.sys.threads|
            && (m[key].data in ms.mem && ms.mem[m[key].data].generate ==>
                  m[key].write == 1 && m[key].read == 1
                  && exists i :: 0 <= i < |ms.pcs| && Works(ms.pcs[i], ms.sys.threads[i], key)
                       && forall j :: 0 <= j < |ms.pcs| && Works(ms.pcs[j], ms.sys.threads[j], key) ==> j == i)
            && (forall i :: 0 <= i < |ms.pcs| ==> ms.pcs[i] != MBroken)
  {
    hide MInv, Inv, Contents;
    MRunsAreSafe(r, n);
    var ms := r.states[n];
    NobodyBroken(ms);
    var b := StoredBucket(ms.sys.sh, key);
    var p := Contents(ms.sys.sh.table)[key].data;
    if p in ms.mem && ms.mem[p].generate {
      var i := FlagHasWorker(ms, b, key, p);
      OneWorker(ms, i, key);
    }
  }

  lemma NobodyBroken(ms: MSys)
    requires MInv(ms)
    ensures |ms.pcs| == |ms.sys.threads| && forall i :: 0 <= i < |ms.pcs| ==> ms.pcs[i] != MBroken
  {
    forall i | 0 <= i < |ms.pcs| ensures ms.pcs[i] != MBroken {
      assert PlaceOk(ms, i);
    }
  }

  lemma StoredBucket(s: Shared, key: Key) returns (b: nat)
    requires key in Contents(s.table)
    ensures Holds(s.table, b, key) && s.table[b].key == key && s.table[b].data == Contents(s.table)[key].data
    ensures InUse(s.table, b)
  {
    assert Stores(s.table, key);
    b := BucketOf(s.table, key);
  }

  lemma FlagHasWorker(ms: MSys, b: nat, key: Key, p: Ptr) returns (i: nat)
    requires MInv(ms) && Holds(ms.sys.sh.table, b, key) && ms.sys.sh.table[b].key == key
    requires ms.sys.sh.table[b].data == p && p in ms.mem && ms.mem[p].generate && |ms.pcs| == |ms.sys.threads|
    ensures i < |ms.pcs| && Works(ms.pcs[i], ms.sys.threads[i], key)
  {
    hide MInv;
    if Swapping(ms, b) {
      i :| Swaps(ms, i, b);
    } else {
      FlagIs(ms, b, p);
      i :| 0 <= i < |ms.pcs| && Works(ms.pcs[i], ms.sys.threads[i], key);
    }
  }

  lemma OneWorker(ms: MSys, i: nat, key: Key)
    requires MInv(ms) && i < |ms.pcs| == |ms.sys.threads| && Works(ms.pcs[i], ms.sys.threads[i], key)
    ensures forall j :: 0 <= j < |ms.pcs| && Works(ms.pcs[j], ms.sys.threads[j], key) ==> j == i
    ensures key in Contents(ms.sys.sh.table) ==>
              Contents(ms.sys.sh.table)[key].write == 1 && Contents(ms.sys.sh.table)[key].read == 1
  {
    hide Inv, FlagOk, PlaceOk, MemoryOk;
    WorkerWrites(ms, i, key);
    MInvIs(ms, i);
    InvIs(ms.sys, i);
    assert ms.sys.threads[i].writes[key] <= ms.sys.threads[i].held[key];
    forall j | 0 <= j < |ms.pcs| && Works(ms.pcs[j], ms.sys.threads[j], key) ensures j == i {
      if j != i { OnlyWorker(ms, i, j, key); }
    }
    WriterMeans(ms.sys, i, key);
    InvSound(ms.sys);
    LookupMeans(ms.sys.cfg, ms.sys.sh, key, BucketOf(ms.sys.sh.table, key));
  }

  // ---------------------------------------------------------------------------------------------
  // From the cache's answer to the buffer
  // ---------------------------------------------------------------------------------------------

  /** The cache has answered the lookup of the client with a payload, which has not been handed out yet. */
  predicate OnTheWay(pc: MPc, th: Thread) {
    match pc
    case MTest(_) => th.pc.Idle? && th.ret != 0
    case MRead(_) => th.pc.Idle? && th.ret != 0
    case MIdle => false
    case MBroken => false
    case MGot(_, _) => false
    case _ => true
  }

  /** How many of its own steps that takes at most. */
  function StepsToGo(pc: MPc): nat {
    match pc
    case MRead(_) => 6
    case MLook(_, _) => 5
    case MFill(_, _) => 4
    case MSwap(_, _, _) => 3
    case MClear(_, _) => 2
    case MUnlock(_, _) => 1
    case MTest(_) => 1
    case _ => 0
  }

  /** Client i is on the way to handing out a buffer of key. */
  predicate Due(ms: MSys, i: nat, key: Key) {
    i < |ms.pcs| == |ms.sys.threads| && OnTheWay(ms.pcs[i], ms.sys.threads[i]) && ms.pcs[i].key == key
  }

  predicate Hands(ms: MSys, i: nat, key: Key) {
    i < |ms.pcs| && ms.pcs[i].MGot? && ms.pcs[i].key == key
  }

  /** Each of its own steps brings the client nearer to the buffer it has asked for. */
  lemma LookupProceeds(ms: MSys, ms': MSys, i: nat, c: MChoice, key: Key)
    requires MInv(ms) && MSteps(ms, ms', i, c) && Due(ms, i, key)
    ensures i < |ms'.pcs| && StepsToGo(ms'.pcs[i]) < StepsToGo(ms.pcs[i])
    ensures Due(ms', i, key) || Hands(ms', i, key)
  {
    hide MInv, CacheMoves;
    MStepKeepsMInv(ms, ms', i, c);
    NobodyBroken(ms');
  }

  /** And it can take that step. */
  lemma LookupCanProceed(ms: MSys, i: nat, key: Key) returns (ms': MSys, c: MChoice)
    requires MInv(ms) && Due(ms, i, key)
    ensures MSteps(ms, ms', i, c)
  {
    hide MInv, CacheMoves;
    var pc := ms.pcs[i];
    if pc.MSwap? || pc.MUnlock? {
      var ch, pc' := if pc.MSwap? then Resize(key, 1, pc.q) else Downgrade(key),
                     if pc.MSwap? then MClear(key, pc.q) else MGot(key, pc.p);
      c := Loaded;
      ms' := WriterProceeds(ms, i, ch, pc');
    } else {
      c := Loaded;
      var alive := pc.MTest? || pc.MRead? || Live(ms.mem, pc.p);
      var pc' := match pc {
        case MTest(_) => if Live(ms.mem, ms.sys.threads[i].ret) then MGot(key, ms.sys.threads[i].ret) else MBroken
        case MRead(_) => MLook(key, ms.sys.threads[i].ret)
        case MLook(_, p) => if !alive then MBroken else if ms.mem[p].generate then MFill(key, p) else MGot(key, p)
        case MFill(_, p) => if !alive then MBroken else MClear(key, p)
        case MClear(_, p) => if !alive then MBroken else MUnlock(key, p)
        case _ => pc
      };
      var mem' := if pc.MClear? && alive then
                    ms.mem[pc.p := ms.mem[pc.p].(generate := false, inits := ms.mem[pc.p].inits + 1)]
                  else ms.mem;
      ms' := MSys(ms.sys, mem', ms.pcs[i := pc']);
    }
  }

  /** A writer can tell the cache about a new payload, and can give up its lock. */
  lemma WriterProceeds(ms: MSys, i: nat, ch: Choice, pc': MPc) returns (ms': MSys)
    requires MInv(ms) && i < |ms.pcs| == |ms.sys.threads| && (ms.pcs[i].MSwap? || ms.pcs[i].MUnlock?)
    requires (ch.Resize? || ch.Downgrade?) && ch.key == ms.pcs[i].key
    ensures CacheMoves(ms, ms', i, ch) && ms'.pcs == ms.pcs[i := pc']
  {
    hide Inv, Ready, Steps, Contents, FlagOk, MemoryOk;
    MInvIs(ms, i);
    InvIsReady(ms.sys, i);
    InvIs(ms.sys, i);
    WriterMeans(ms.sys, i, ch.key);
    AfterSteps(ms.sys, i, ch);
    ms' := MSys(After(ms.sys, i, ch), ms.mem, ms.pcs[i := pc']);
  }

  lemma OthersLeave(ms: MSys, ms': MSys, tid: nat, c: MChoice, i: nat)
    requires MSteps(ms, ms', tid, c) && i < |ms.pcs| == |ms.sys.threads| && i != tid
    ensures |ms'.pcs| == |ms'.sys.threads| == |ms.pcs| && ms'.pcs[i] == ms.pcs[i]
    ensures ms'.sys.threads[i] == ms.sys.threads[i]
  {
    hide Sound, Enabled, Apply, Step;
  }

  /** How many of the steps from n to m are those of client i. */
  function OwnSteps(r: MRun, i: nat, n: nat, m: nat): nat
    requires m <= |r.tids|
  {
    if m <= n then 0 else OwnSteps(r, i, n, m - 1) + if r.tids[m-1] == i then 1 else 0
  }

  /** In every run a client that the cache has answered with a payload hands out the buffer that it was asked for,
      after six more of its own steps at most, whatever the others do. */
  lemma {:induction false} BufferIsHandedOut(r: MRun, n: nat, m: nat, i: nat, key: Key) returns (done: bool, j: nat)
    requires IsMRun(r) && n <= m < |r.states| && Due(r.states[n], i, key)
    ensures done ==> n < j <= m && Hands(r.states[j], i, key)
    ensures !done ==> Due(r.states[m], i, key) && m <= |r.tids|
                      && StepsToGo(r.states[m].pcs[i]) + OwnSteps(r, i, n, m) <= StepsToGo(r.states[n].pcs[i])
    ensures m <= |r.tids| && (OwnSteps(r, i, n, m) >= 6 ==> done)
  {
    hide MInv, MSteps, MStart, Ready;
    done, j := false, m;
    if n < m {
      done, j := BufferIsHandedOut(r, n, m - 1, i, key);
      if !done {
        MRunsAreSafe(r, m - 1);
        assert MGoesAt(r, m - 1);
        MInvIsReady(r.states[m-1], r.tids[m-1]);
        if r.tids[m-1] == i {
          LookupProceeds(r.states[m-1], r.states[m], i, r.choices[m-1], key);
          done, j := Hands(r.states[m], i, key), m;
        } else {
          OthersLeave(r.states[m-1], r.states[m], r.tids[m-1], r.choices[m-1], i);
        }
      }
    }
  }
}
