/** The atomic effects of the cache: every segment-locked section, every section under the LRU lock and
    every add_cost changes the shared state by exactly one of these.  The lemmas say what each
    effect does to the hash index, to the LRU list and to the map that the table represents. */
module CacheEffects {
  import opened Sequences
  import opened CacheModel

  datatype Effect =
    | Skip
    | AddRead(b: nat)                       // dt_cache_bucket_read_lock, .._read_testlock
    | DropRead(b: nat)                      // dt_cache_bucket_read_release
    | AddWrite(b: nat)                      // dt_cache_bucket_write_testlock
    | DropWrite(b: nat)                     // dt_cache_bucket_write_release
    | Insert(key: Key, b: nat, cost: int, data: Ptr, locked: bool)   // add_key_to_end_of_list
    | Unlink(b: nat)                        // remove_key
    | Touch(b: nat)                         // lru_insert
    | Drop(b: nat)                          // lru_remove
    | AddCost(d: int)                       // add_cost
    | Rewrite(b: nat, cost: int, data: Ptr) // dt_cache_realloc

  datatype Entry = Entry(data: Ptr, cost: int, read: int, write: int)

  /** The asserts in the bucket lock helpers and in dt_cache_realloc, src/common/cache.c:156-201 and 1068-1069. */
  predicate AssertsHold(t: seq<Bucket>, e: Effect) {
    match e
    case AddRead(b) => b < |t| && t[b].read < MAX_READ && t[b].write == 0
    case DropRead(b) => b < |t| && t[b].read > 0 && t[b].write == 0
    case AddWrite(b) => b < |t| && t[b].read == 1 && t[b].write < MAX_READ
    case DropWrite(b) => b < |t| && t[b].read == 1 && t[b].write > 0
    case Insert(_, b, _, _, locked) =>
      // read_lock, then write_lock of the bucket that is being filled
      b < |t| && t[b].read < MAX_READ && t[b].write == 0 && (locked ==> t[b].read + 1 == 1)
    case Rewrite(b, _, _) => b < |t| && t[b].write == 1 && t[b].read == 1
    case _ => true
  }

  /** When the code performs the effect, whatever the discipline of its clients. */
  ghost predicate Enabled(cfg: Config, s: Shared, e: Effect) {
    match e
    case Skip => true
    case AddRead(b) => b < |s.table| && Occupied(s.table[b])
    case DropRead(b) => b < |s.table| && Occupied(s.table[b])
    case AddWrite(b) => b < |s.table| && Occupied(s.table[b])
    case DropWrite(b) => b < |s.table| && Occupied(s.table[b])
    case Insert(key, b, _, _, _) =>
      && key != EMPTY && !Stores(s.table, key)
      && b < |s.table| && !Occupied(s.table[b])
    case Unlink(b) =>
      b < |s.table| && Occupied(s.table[b]) && s.table[b].read == 0 && s.table[b].write == 0
    case Touch(b) => b < |s.table|
    case Drop(b) => b < |s.table|
    case AddCost(_) => true
    case Rewrite(b, _, _) => b < |s.table| && Occupied(s.table[b])
  }

  ghost function Apply(cfg: Config, s: Shared, e: Effect): Shared
    requires IndexOk(cfg, s) && Enabled(cfg, s, e)
  {
    var t := s.table;
    match e
    case Skip => s
    case Insert(key, b, cost, data, locked) =>
      var h := Home(key, |t|);
      assert ChainOk(t, h, s.chains[h]);
      var u := t[b := Filled(t[b], key, cost, data, locked)];
      s.(table := LinkLast(u, h, s.chains[h], b), cost := s.cost + cost,
         chains := s.chains[h := s.chains[h] + [b]])
    case Unlink(b) =>
      var h := Home(t[b].hash, |t|);
      var g := Segment(cfg, t[b].key);
      assert BucketOk(t, s.chains, b);
      var c := s.chains[h];
      var k := IndexOf(c, b);
      assert ChainOk(t, h, c);
      s.(table := LinkPast(t, h, c, k), stamps := s.stamps[g := s.stamps[g] + 1],
         chains := s.chains[h := Cut(c, k)])
    case Touch(b) => WithOrder(s, MoveToFront(s.order, b))
    case Drop(b) => WithOrder(s, Without(s.order, b))
    case AddCost(d) => s.(cost := s.cost + d)
    case _ =>
      // the lock counters, and dt_cache_realloc
      var b := e.b;
      s.(table := t[b := InPlace(t[b], e)], cost := s.cost + (InPlace(t[b], e).cost - t[b].cost))
  }

  predicate IsInPlace(e: Effect) {
    e.AddRead? || e.DropRead? || e.AddWrite? || e.DropWrite? || e.Rewrite?
  }

  function InPlace(x: Bucket, e: Effect): Bucket
    requires IsInPlace(e)
  {
    match e
    case AddRead(_) => x.(read := x.read + 1)
    case DropRead(_) => x.(read := x.read - 1)
    case AddWrite(_) => x.(write := x.write + 1)
    case DropWrite(_) => x.(write := x.write - 1)
    case Rewrite(_, cost, data) => x.(cost := cost, data := data)
  }

  function Filled(x: Bucket, key: Key, cost: int, data: Ptr, locked: bool): Bucket {
    x.(key := key, hash := key, cost := cost, data := data, nextDelta := NULL_DELTA,
       read := x.read + 1, write := if locked then x.write + 1 else x.write)
  }

  /** Bucket b is hung after the last bucket of chain c of home h. */
  function LinkLast(u: seq<Bucket>, h: nat, c: seq<nat>, b: nat): (r: seq<Bucket>)
    requires h < |u| && forall k :: 0 <= k < |c| ==> c[k] < |u|
    ensures |r| == |u|
  {
    if c == [] then u[h := u[h].(firstDelta := ToInt16(Delta(h, b)))]
    else var l := c[|c|-1]; u[l := u[l].(nextDelta := ToInt16(Delta(l, b)))]
  }

  /** Bucket c[k] is blanked and the delta that led to it is made to skip it. */
  function LinkPast(t: seq<Bucket>, h: nat, c: seq<nat>, k: nat): (r: seq<Bucket>)
    requires h < |t| && k < |c| && forall i :: 0 <= i < |c| ==> c[i] < |t|
    ensures |r| == |t|
  {
    seq(|t|, x requires 0 <= x < |t| => PastBucket(t, h, c, k, x))
  }

  function PastBucket(t: seq<Bucket>, h: nat, c: seq<nat>, k: nat, x: nat): Bucket
    requires x < |t| && h < |t| && k < |c| && c[k] < |t|
  {
    var next := t[c[k]].nextDelta;
    var y :=
      if x == c[k] then t[x].(hash := EMPTY, key := EMPTY, nextDelta := NULL_DELTA)
      else if 0 < k && x == c[k-1] then t[x].(nextDelta := SkipDelta(t[x].nextDelta, next))
      else t[x];
    if k == 0 && x == h then y.(firstDelta := SkipDelta(t[x].firstDelta, next)) else y
  }

  function SkipDelta(d: int, next: int): int {
    if next == NULL_DELTA then NULL_DELTA else ToInt16(d + next)
  }

  // ---------------------------------------------------------------------------------------------
  // The index is kept by every effect
  // ---------------------------------------------------------------------------------------------

  lemma ToInt16Exact(x: int)
    requires -32768 <= x < 32768
    ensures ToInt16(x) == x
  {}

  lemma InsertChain(t: seq<Bucket>, h: nat, c: seq<nat>, b: nat, key: Key, cost: int, data: Ptr, locked: bool)
    requires 0 < |t| <= MAX_BUCKETS && h < |t| && b < |t| && ChainOk(t, h, c)
    requires !Occupied(t[b]) && key != EMPTY && Home(key, |t|) == h
    ensures ChainOk(LinkLast(t[b := Filled(t[b], key, cost, data, locked)], h, c, b), h, c + [b])
  {
    assert b !in c;
    var u := LinkLast(t[b := Filled(t[b], key, cost, data, locked)], h, c, b);
    var d := c + [b];
    if c != [] {
      ToInt16Exact(Delta(c[|c|-1], b));
      assert d[0] == c[0];
    } else {
      ToInt16Exact(Delta(h, b));
    }
    forall k | 0 <= k < |d|
      ensures Occupied(u[d[k]]) && Home(u[d[k]].hash, |u|) == h
      ensures u[d[k]].nextDelta == if k + 1 < |d| then Delta(d[k], d[k+1]) else NULL_DELTA
    {
      if k < |c| - 1 {
        assert d[k] == c[k] && d[k+1] == c[k+1] && c[k] != c[|c|-1];
      }
    }
  }

  lemma ChainElsewhere(t: seq<Bucket>, u: seq<Bucket>, h: nat, c: seq<nat>)
    requires h < |t| == |u| && ChainOk(t, h, c)
    requires u[h].firstDelta == t[h].firstDelta
    requires forall k :: 0 <= k < |c| ==> u[c[k]].nextDelta == t[c[k]].nextDelta && u[c[k]].hash == t[c[k]].hash
    ensures ChainOk(u, h, c)
  {}

  /** Between t and u only bucket b changed its key; the chain of home h may have changed. */
  ghost predicate ChangedAt(t: seq<Bucket>, u: seq<Bucket>, h: nat, b: nat) {
    && |t| == |u| && h < |t| && b < |t|
    && (forall x :: 0 <= x < |t| && x != b ==>
          u[x] == t[x].(firstDelta := u[x].firstDelta, nextDelta := u[x].nextDelta))
    && (forall x :: 0 <= x < |t| && x != h ==> u[x].firstDelta == t[x].firstDelta)
  }

  lemma OtherChainsKept(cfg: Config, s: Shared, s': Shared, h: nat, b: nat)
    requires IndexOk(cfg, s) && ChangedAt(s.table, s'.table, h, b) && |s'.chains| == |s.chains|
    requires forall x :: 0 <= x < |s.table| && x !in s.chains[h] && x != b ==>
               s'.table[x].nextDelta == s.table[x].nextDelta
    requires !Occupied(s.table[b]) || b in s.chains[h]
    requires forall g :: 0 <= g < |s.chains| && g != h ==> s'.chains[g] == s.chains[g]
    requires ChainOk(s'.table, h, s'.chains[h])
    ensures forall g :: 0 <= g < |s.table| ==> ChainOk(s'.table, g, s'.chains[g])
  {
    forall g | 0 <= g < |s.table| ensures ChainOk(s'.table, g, s'.chains[g]) {
      if g != h {
        assert ChainOk(s.table, g, s.chains[g]);
        ChainsDisjoint(cfg, s, g, h);
        ChainElsewhere(s.table, s'.table, g, s.chains[g]);
      }
    }
  }

  lemma InsertedAt(t: seq<Bucket>, h: nat, c: seq<nat>, b: nat, key: Key, cost: int, data: Ptr, locked: bool)
    requires h < |t| && b < |t| && ChainOk(t, h, c) && !Occupied(t[b])
    ensures var u := LinkLast(t[b := Filled(t[b], key, cost, data, locked)], h, c, b);
            && ChangedAt(t, u, h, b)
            && (forall x :: 0 <= x < |t| && x !in c && x != b ==> u[x].nextDelta == t[x].nextDelta)
            && u[b] == Filled(t[b], key, cost, data, locked).(firstDelta := u[b].firstDelta)
  {}

  lemma UniqueAfterInsert(t: seq<Bucket>, u: seq<Bucket>, h: nat, b: nat)
    requires KeysUnique(t) && ChangedAt(t, u, h, b)
    requires !Stores(t, u[b].key)
    ensures KeysUnique(u)
  {
    forall i, j | InUse(u, i) && InUse(u, j) && i != j ensures u[i].key != u[j].key {
      if i == b {
        assert !Holds(t, j, u[b].key);
      } else if j == b {
        assert !Holds(t, i, u[b].key);
      } else {
        assert InUse(t, i) && InUse(t, j);
      }
    }
  }

  lemma InsertKeepsIndex(cfg: Config, s: Shared, key: Key, b: nat, cost: int, data: Ptr, locked: bool)
    requires IndexOk(cfg, s) && Enabled(cfg, s, Insert(key, b, cost, data, locked))
    ensures IndexOk(cfg, Apply(cfg, s, Insert(key, b, cost, data, locked)))
  {
    var t := s.table;
    var s' := Apply(cfg, s, Insert(key, b, cost, data, locked));
    var h := Home(key, |t|);
    var c := s.chains[h];
    assert ChainOk(t, h, c);
    InsertChain(t, h, c, b, key, cost, data, locked);
    InsertedAt(t, h, c, b, key, cost, data, locked);
    OtherChainsKept(cfg, s, s', h, b);
    UniqueAfterInsert(t, s'.table, h, b);
    forall x | 0 <= x < |t| ensures BucketOk(s'.table, s'.chains, x) {
      InsertBucket(s, s', h, c, b, x);
    }
  }

  lemma InsertBucket(s: Shared, s': Shared, h: nat, c: seq<nat>, b: nat, x: nat)
    requires 0 < |s.table| == |s.chains| && x < |s.table| && BucketOk(s.table, s.chains, x)
    requires ChangedAt(s.table, s'.table, h, b) && c == s.chains[h] && s'.chains == s.chains[h := c + [b]]
    requires !Occupied(s.table[x]) && x != b ==> s'.table[x].nextDelta == s.table[x].nextDelta
    requires Occupied(s'.table[b]) && s'.table[b].key == s'.table[b].hash && Home(s'.table[b].hash, |s.table|) == h
    ensures BucketOk(s'.table, s'.chains, x)
  {
    if x == b {
      assert (c + [b])[|c|] == b;
    } else if Occupied(s.table[x]) && Home(s.table[x].hash, |s.table|) == h {
      assert x in c + [b];
    }
  }

  /** No bucket lies on two chains. */
  lemma ChainsDisjoint(cfg: Config, s: Shared, g: nat, h: nat)
    requires IndexOk(cfg, s) && g < |s.table| && h < |s.table| && g != h
    ensures forall b :: b in s.chains[g] ==> b !in s.chains[h]
  {
    assert ChainOk(s.table, g, s.chains[g]);
    assert ChainOk(s.table, h, s.chains[h]);
    forall b | b in s.chains[g] ensures b !in s.chains[h] {
      assert Home(s.table[b].hash, |s.table|) == g;
    }
  }

  /** A bucket is on the chain of home h exactly when it is occupied and h is its home, and it is there once. */
  lemma EachOnItsChainOnly(cfg: Config, s: Shared, b: nat, h: nat)
    requires IndexOk(cfg, s) && b < |s.table| && h < |s.table|
    ensures b in s.chains[h] <==> Occupied(s.table[b]) && Home(s.table[b].hash, |s.table|) == h
    ensures Distinct(s.chains[h])
  {
    assert ChainOk(s.table, h, s.chains[h]);
    assert BucketOk(s.table, s.chains, b);
  }

  lemma CutDistinct<T(!new)>(c: seq<T>, k: nat)
    requires Distinct(c) && k < |c|
    ensures Distinct(Cut(c, k)) && c[k] !in Cut(c, k)
  {
    var d := Cut(c, k);
    forall i, j | 0 <= i < j < |d| ensures d[i] != d[j] {
      assert d[i] == c[if i < k then i else i + 1] && d[j] == c[if j < k then j else j + 1];
    }
    forall i | 0 <= i < |d| ensures d[i] != c[k] {
      assert d[i] == c[if i < k then i else i + 1];
    }
  }

  lemma SkipExact(from: nat, b: nat, next: nat)
    requires from < MAX_BUCKETS && b < MAX_BUCKETS && next < MAX_BUCKETS
    ensures SkipDelta(Delta(from, b), Delta(b, next)) == Delta(from, next)
  {
    ToInt16Exact(Delta(from, next));
  }

  /** After the unlinking, bucket c[o] of the chain leads to its new successor. */
  lemma UnlinkLink(t: seq<Bucket>, h: nat, c: seq<nat>, k: nat, o: nat)
    requires 0 < |t| <= MAX_BUCKETS && h < |t| && ChainOk(t, h, c) && k < |c| && o < |c| && o != k
    ensures PastBucket(t, h, c, k, c[o]).hash == t[c[o]].hash
    ensures PastBucket(t, h, c, k, c[o]).nextDelta ==
              if o + 1 == k then (if k + 1 < |c| then Delta(c[o], c[k+1]) else NULL_DELTA)
              else if o + 1 < |c| then Delta(c[o], c[o+1]) else NULL_DELTA
  {
    assert c[o] != c[k];
    if o + 1 == k {
      assert t[c[o]].nextDelta == Delta(c[o], c[k]);
      if k + 1 < |c| {
        assert t[c[k]].nextDelta == Delta(c[k], c[k+1]);
        SkipExact(c[o], c[k], c[k+1]);
      }
    } else if 0 < k {
      assert c[o] != c[k-1];
    }
  }

  lemma UnlinkFirst(t: seq<Bucket>, h: nat, c: seq<nat>, k: nat)
    requires 0 < |t| <= MAX_BUCKETS && h < |t| && ChainOk(t, h, c) && k < |c|
    ensures PastBucket(t, h, c, k, h).firstDelta == if Cut(c, k) == [] then NULL_DELTA else Delta(h, Cut(c, k)[0])
  {
    if k == 0 && |c| > 1 {
      assert t[c[0]].nextDelta == Delta(c[0], c[1]);
      SkipExact(h, c[0], c[1]);
      assert Cut(c, k)[0] == c[1];
    } else if k == 0 {
      assert t[c[0]].nextDelta == NULL_DELTA;
    } else {
      assert Cut(c, k)[0] == c[0];
    }
  }

  lemma UnlinkChain(t: seq<Bucket>, h: nat, c: seq<nat>, k: nat)
    requires 0 < |t| <= MAX_BUCKETS && h < |t| && ChainOk(t, h, c) && k < |c|
    ensures ChainOk(LinkPast(t, h, c, k), h, Cut(c, k))
  {
    var u := LinkPast(t, h, c, k);
    var d := Cut(c, k);
    CutDistinct(c, k);
    UnlinkFirst(t, h, c, k);
    forall i | 0 <= i < |d|
      ensures d[i] < |u| && Occupied(u[d[i]]) && Home(u[d[i]].hash, |u|) == h
      ensures u[d[i]].nextDelta == if i + 1 < |d| then Delta(d[i], d[i+1]) else NULL_DELTA
    {
      UnlinkLink(t, h, c, k, if i < k then i else i + 1);
    }
  }

  lemma UnlinkKeepsIndex(cfg: Config, s: Shared, b: nat)
    requires IndexOk(cfg, s) && Enabled(cfg, s, Unlink(b))
    ensures IndexOk(cfg, Apply(cfg, s, Unlink(b)))
  {
    var t := s.table;
    var s' := Apply(cfg, s, Unlink(b));
    var h := Home(t[b].hash, |t|);
    var c := s.chains[h];
    assert BucketOk(t, s.chains, b);
    var k := IndexOf(c, b);
    assert ChainOk(t, h, c);
    UnlinkChain(t, h, c, k);
    LinkPastElsewhere(t, h, c, k);
    OtherChainsKept(cfg, s, s', h, b);
    forall x | 0 <= x < |t| ensures BucketOk(s'.table, s'.chains, x) {
      assert BucketOk(t, s.chains, x);
      UnlinkBucket(s, s', h, c, k, x);
    }
    UniqueAfterUnlink(t, s'.table, h, b);
  }

  lemma UniqueAfterUnlink(t: seq<Bucket>, u: seq<Bucket>, h: nat, b: nat)
    requires KeysUnique(t) && ChangedAt(t, u, h, b) && !Occupied(u[b])
    ensures KeysUnique(u)
  {
    forall i, j | InUse(u, i) && InUse(u, j) && i != j ensures u[i].key != u[j].key {
      assert InUse(t, i) && InUse(t, j);
    }
  }

  lemma UnlinkBucket(s: Shared, s': Shared, h: nat, c: seq<nat>, k: nat, x: nat)
    requires 0 < |s.table| == |s.chains| && x < |s.table| && BucketOk(s.table, s.chains, x) && k < |c|
    requires ChangedAt(s.table, s'.table, h, c[k]) && c == s.chains[h] && s'.chains == s.chains[h := Cut(c, k)]
    requires Distinct(c) && s'.table[c[k]] == s.table[c[k]].(firstDelta := s'.table[c[k]].firstDelta,
                                                nextDelta := NULL_DELTA, hash := EMPTY, key := EMPTY)
    requires s.table[c[k]].read == 0 && s.table[c[k]].write == 0
    requires !Occupied(s.table[x]) ==> s'.table[x].nextDelta == s.table[x].nextDelta
    ensures BucketOk(s'.table, s'.chains, x)
  {
    if x != c[k] && Occupied(s.table[x]) && Home(s.table[x].hash, |s.table|) == h {
      var i := IndexOf(c, x);
      assert Cut(c, k)[if i < k then i else i - 1] == x;
    }
  }

  lemma LinkPastElsewhere(t: seq<Bucket>, h: nat, c: seq<nat>, k: nat)
    requires h < |t| && k < |c| && forall i :: 0 <= i < |c| ==> c[i] < |t|
    ensures var u := LinkPast(t, h, c, k);
            && ChangedAt(t, u, h, c[k])
            && (forall x :: 0 <= x < |t| && x !in c ==> u[x].nextDelta == t[x].nextDelta)
            && u[c[k]] == t[c[k]].(firstDelta := u[c[k]].firstDelta, nextDelta := NULL_DELTA,
                                   hash := EMPTY, key := EMPTY)
  {}

  /** Every effect of the cache keeps the index well-formed. */
  lemma EffectKeepsIndex(cfg: Config, s: Shared, e: Effect)
    requires IndexOk(cfg, s) && LruOk(s) && Enabled(cfg, s, e)
    ensures IndexOk(cfg, Apply(cfg, s, e))
  {
    match e
    case Insert(key, b, cost, data, locked) => InsertKeepsIndex(cfg, s, key, b, cost, data, locked);
    case Unlink(b) => UnlinkKeepsIndex(cfg, s, b);
    case Touch(b) => MoveToFrontOk(s, b); SameIndexKeepsOk(cfg, s, Apply(cfg, s, e));
    case Drop(b) => DropOk(s, b); SameIndexKeepsOk(cfg, s, Apply(cfg, s, e));
    case _ => SameIndexKeepsOk(cfg, s, Apply(cfg, s, e));
  }

  /** The tables differ in no LRU link. */
  ghost predicate SameLinks(s: Shared, s': Shared) {
    && s'.order == s.order && s'.lru == s.lru && s'.mru == s.mru && |s'.table| == |s.table|
    && forall b :: 0 <= b < |s.table| ==> s'.table[b].lru == s.table[b].lru && s'.table[b].mru == s.table[b].mru
  }

  lemma SameLinksKeepsLru(s: Shared, s': Shared)
    requires LruOk(s) && SameLinks(s, s')
    ensures LruOk(s')
  {
    forall k | 0 <= k < |s.order| ensures LinkOk(s'.table, s'.order, k) {
      assert LinkOk(s.table, s.order, k);
    }
  }

  lemma UnlinkKeepsLinks(cfg: Config, s: Shared, b: nat)
    requires IndexOk(cfg, s) && Enabled(cfg, s, Unlink(b))
    ensures SameLinks(s, Apply(cfg, s, Unlink(b)))
  {
    var h := Home(s.table[b].hash, |s.table|);
    assert BucketOk(s.table, s.chains, b);
    assert ChainOk(s.table, h, s.chains[h]);
    LinkPastElsewhere(s.table, h, s.chains[h], IndexOf(s.chains[h], b));
  }

  /** Every effect keeps the LRU links well-formed: no interleaving can break the list. */
  lemma EffectKeepsLru(cfg: Config, s: Shared, e: Effect)
    requires IndexOk(cfg, s) && LruOk(s) && Enabled(cfg, s, e)
    ensures LruOk(Apply(cfg, s, e))
  {
    var s' := Apply(cfg, s, e);
    match e
    case Touch(b) => MoveToFrontOk(s, b);
    case Drop(b) => DropOk(s, b);
    case Unlink(b) => UnlinkKeepsLinks(cfg, s, b); SameLinksKeepsLru(s, s');
    case _ => SameLinksKeepsLru(s, s');
  }

  // ---------------------------------------------------------------------------------------------
  // The map that the table represents
  // ---------------------------------------------------------------------------------------------

  ghost function Keys(t: seq<Bucket>): (r: set<Key>)
    ensures forall key :: key in r <==> Stores(t, key)
  {
    var r := set b | 0 <= b < |t| && Occupied(t[b]) :: t[b].key;
    assert forall key :: Stores(t, key) ==> key in r by {
      forall key | Stores(t, key) ensures key in r {
        var b :| Holds(t, b, key);
        assert t[b].key in r;
      }
    }
    assert forall key :: key in r ==> Stores(t, key) by {
      forall key | key in r ensures Stores(t, key) {
        var b :| 0 <= b < |t| && Occupied(t[b]) && t[b].key == key;
        assert Holds(t, b, key);
      }
    }
    r
  }

  function EntryOf(b: Bucket): Entry {
    Entry(b.data, b.cost, b.read, b.write)
  }

  ghost function Contents(t: seq<Bucket>): (m: map<Key, Entry>)
    ensures m.Keys == Keys(t)
  {
    map key | key in Keys(t) :: EntryOf(t[BucketOf(t, key)])
  }

  lemma ContentsAt(t: seq<Bucket>, b: nat, key: Key)
    requires KeysUnique(t) && Holds(t, b, key)
    ensures BucketOf(t, key) == b && key in Contents(t) && Contents(t)[key] == EntryOf(t[b])
  {
    var c := BucketOf(t, key);
    assert Stores(t, key);
    assert c == b;
  }

  /** What each effect does to the represented map. */
  ghost function MapAfter(t: seq<Bucket>, e: Effect): map<Key, Entry> {
    var m := Contents(t);
    match e
    case Skip => m
    case Insert(key, _, cost, data, locked) => m[key := Entry(data, cost, 1, if locked then 1 else 0)]
    case Unlink(b) => if b < |t| then m - {t[b].key} else m
    case Touch(_) => m
    case Drop(_) => m
    case AddCost(_) => m
    case _ => if e.b < |t| then m[t[e.b].key := EntryOf(InPlace(t[e.b], e))] else m
  }

  predicate SameEntry(x: Bucket, y: Bucket) {
    Occupied(x) == Occupied(y) && x.key == y.key && EntryOf(x) == EntryOf(y)
  }

  ghost predicate SameEntriesBut(t: seq<Bucket>, u: seq<Bucket>, b: int) {
    && KeysUnique(t) && KeysUnique(u) && |t| == |u|
    && forall x :: 0 <= x < |t| && x != b ==> SameEntry(u[x], t[x])
  }

  /** One key at a time: nothing changes for the keys stored outside bucket b. */
  lemma KeyUntouched(t: seq<Bucket>, u: seq<Bucket>, b: int, key: Key)
    requires SameEntriesBut(t, u, b)
    requires !Holds(t, b, key) && !Holds(u, b, key)
    ensures key in Contents(u) <==> key in Contents(t)
    ensures key in Contents(u) ==> Contents(u)[key] == Contents(t)[key]
  {
    var x, y := BucketOf(t, key), BucketOf(u, key);
    if x != -1 { assert SameEntry(u[x], t[x]); assert Holds(u, x, key); ContentsAt(t, x, key); ContentsAt(u, x, key); }
    if y != -1 { assert SameEntry(u[y], t[y]); assert Holds(t, y, key); }
  }

  lemma ContentsUpdated(t: seq<Bucket>, u: seq<Bucket>, b: nat)
    requires SameEntriesBut(t, u, b) && b < |t| && Occupied(u[b])
    requires Occupied(t[b]) ==> u[b].key == t[b].key
    ensures Contents(u) == Contents(t)[u[b].key := EntryOf(u[b])]
  {
    var m, w := Contents(u), Contents(t)[u[b].key := EntryOf(u[b])];
    assert Holds(u, b, u[b].key);
    ContentsAt(u, b, u[b].key);
    forall key: Key ensures key in m <==> key in w
                    ensures key in m ==> m[key] == w[key] {
      if key != u[b].key { KeyUntouched(t, u, b, key); }
    }
  }

  lemma ContentsUnlinked(t: seq<Bucket>, u: seq<Bucket>, b: nat)
    requires SameEntriesBut(t, u, b) && b < |t| && Occupied(t[b]) && !Occupied(u[b])
    ensures Contents(u) == Contents(t) - {t[b].key}
  {
    var m, w := Contents(u), Contents(t) - {t[b].key};
    forall key: Key ensures key in m <==> key in w
                    ensures key in m ==> m[key] == w[key] {
      if key != t[b].key {
        KeyUntouched(t, u, b, key);
      } else {
        KeyGone(t, u, b);
      }
    }
  }

  lemma KeyGone(t: seq<Bucket>, u: seq<Bucket>, b: nat)
    requires SameEntriesBut(t, u, b) && b < |t| && Occupied(t[b]) && !Occupied(u[b])
    ensures t[b].key !in Contents(u)
  {
    forall y | 0 <= y < |u| ensures !Holds(u, y, t[b].key) {
      assert InUse(t, b) && (y != b ==> SameEntry(u[y], t[y]) && (InUse(u, y) ==> InUse(t, y)));
    }
  }

  lemma ContentsSame(t: seq<Bucket>, u: seq<Bucket>)
    requires KeysUnique(t) && |t| == |u|
    requires forall x :: 0 <= x < |t| ==>
               u[x].hash == t[x].hash && u[x].key == t[x].key && EntryOf(u[x]) == EntryOf(t[x])
    ensures Contents(u) == Contents(t)
  {
    SameKeysUnique(t, u);
    forall key: Key ensures key in Contents(u) <==> key in Contents(t)
                    ensures key in Contents(u) ==> Contents(u)[key] == Contents(t)[key] {
      KeyUntouched(t, u, -1, key);
    }
  }

  lemma InsertOnMap(cfg: Config, s: Shared, key: Key, b: nat, cost: int, data: Ptr, locked: bool)
    requires IndexOk(cfg, s) && Enabled(cfg, s, Insert(key, b, cost, data, locked))
    ensures Contents(Apply(cfg, s, Insert(key, b, cost, data, locked)).table)
         == Contents(s.table)[key := Entry(data, cost, 1, if locked then 1 else 0)]
  {
    var u := Apply(cfg, s, Insert(key, b, cost, data, locked)).table;
    InsertLands(cfg, s, key, b, cost, data, locked);
    ContentsUpdated(s.table, u, b);
  }

  lemma InsertLands(cfg: Config, s: Shared, key: Key, b: nat, cost: int, data: Ptr, locked: bool)
    requires IndexOk(cfg, s) && Enabled(cfg, s, Insert(key, b, cost, data, locked))
    ensures var u := Apply(cfg, s, Insert(key, b, cost, data, locked)).table;
            && SameEntriesBut(s.table, u, b) && Occupied(u[b]) && u[b].key == key
            && EntryOf(u[b]) == Entry(data, cost, 1, if locked then 1 else 0)
  {
    var h := Home(key, |s.table|);
    InsertKeepsIndex(cfg, s, key, b, cost, data, locked);
    assert BucketOk(s.table, s.chains, b);
    assert ChainOk(s.table, h, s.chains[h]);
    InsertedAt(s.table, h, s.chains[h], b, key, cost, data, locked);
  }

  lemma UnlinkLands(cfg: Config, s: Shared, b: nat)
    requires IndexOk(cfg, s) && Enabled(cfg, s, Unlink(b))
    ensures var u := Apply(cfg, s, Unlink(b)).table;
            SameEntriesBut(s.table, u, b) && !Occupied(u[b])
  {
    var h := Home(s.table[b].hash, |s.table|);
    UnlinkKeepsIndex(cfg, s, b);
    assert BucketOk(s.table, s.chains, b);
    assert ChainOk(s.table, h, s.chains[h]);
    LinkPastElsewhere(s.table, h, s.chains[h], IndexOf(s.chains[h], b));
  }

  lemma UnlinkOnMap(cfg: Config, s: Shared, b: nat)
    requires IndexOk(cfg, s) && Enabled(cfg, s, Unlink(b))
    ensures Contents(Apply(cfg, s, Unlink(b)).table) == Contents(s.table) - {s.table[b].key}
  {
    UnlinkLands(cfg, s, b);
    ContentsUnlinked(s.table, Apply(cfg, s, Unlink(b)).table, b);
  }

  lemma WriteOnMap(s: Shared, s': Shared, b: nat)
    requires KeysUnique(s.table) && b < |s.table| && Occupied(s.table[b])
    requires |s'.table| == |s.table| && s'.table == s.table[b := s'.table[b]]
    requires s'.table[b].key == s.table[b].key && s'.table[b].hash == s.table[b].hash
    ensures s.table[b].key in Contents(s.table) && Contents(s.table)[s.table[b].key] == EntryOf(s.table[b])
    ensures Contents(s'.table) == Contents(s.table)[s.table[b].key := EntryOf(s'.table[b])]
  {
    assert Holds(s.table, b, s.table[b].key);
    ContentsAt(s.table, b, s.table[b].key);
    SameKeysUnique(s.table, s'.table);
    ContentsUpdated(s.table, s'.table, b);
  }

  /** The table refines a finite map: each effect acts on the represented map as the map operation
      it stands for, wherever the key happens to be stored. */
  lemma EffectOnMap(cfg: Config, s: Shared, e: Effect)
    requires IndexOk(cfg, s) && LruOk(s) && Enabled(cfg, s, e)
    ensures Contents(Apply(cfg, s, e).table) == MapAfter(s.table, e)
  {
    var s' := Apply(cfg, s, e);
    match e
    case Insert(key, b, cost, data, locked) => InsertOnMap(cfg, s, key, b, cost, data, locked);
    case Unlink(b) => UnlinkOnMap(cfg, s, b);
    case Touch(b) => ContentsSame(s.table, s'.table);
    case Drop(b) => ContentsSame(s.table, s'.table);
    case AddCost(_) =>
    case Skip =>
    case _ => InPlaceOnMap(cfg, s, e);
  }

  lemma InPlaceOnMap(cfg: Config, s: Shared, e: Effect)
    requires IndexOk(cfg, s) && Enabled(cfg, s, e)
    requires IsInPlace(e)
    ensures Contents(Apply(cfg, s, e).table) == MapAfter(s.table, e)
  {
    WriteOnMap(s, Apply(cfg, s, e), e.b);
  }
}
