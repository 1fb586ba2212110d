/** Cost accounting: the costs of the stored entries, and how each effect moves cache->cost against them. */
module CacheCost {
  import opened CacheModel
  import opened CacheEffects

  function CostOf(b: Bucket): int {
    if Occupied(b) then b.cost else 0
  }

  /** The costs of the entries in the first n buckets. */
  function SumCost(t: seq<Bucket>, n: nat): int
    requires n <= |t|
  {
    if n == 0 then 0 else SumCost(t, n - 1) + CostOf(t[n-1])
  }

  function StoredCost(t: seq<Bucket>): int {
    SumCost(t, |t|)
  }

  lemma {:induction false} SumCostChanged(t: seq<Bucket>, u: seq<Bucket>, b: nat, n: nat)
    requires |t| == |u| && n <= |t| && b < |t|
    requires forall x :: 0 <= x < |t| && x != b ==> CostOf(u[x]) == CostOf(t[x])
    ensures SumCost(u, n) - SumCost(t, n) == if b < n then CostOf(u[b]) - CostOf(t[b]) else 0
  {
    if n > 0 {
      SumCostChanged(t, u, b, n - 1);
    }
  }

  lemma {:induction false} SumCostSame(t: seq<Bucket>, u: seq<Bucket>, n: nat)
    requires |t| == |u| && n <= |t|
    requires forall x :: 0 <= x < |t| ==> CostOf(u[x]) == CostOf(t[x])
    ensures SumCost(u, n) == SumCost(t, n)
  {
    if n > 0 {
      SumCostSame(t, u, n - 1);
    }
  }

  /** What cache->cost holds beyond the entries that are stored. */
  function Excess(s: Shared): int {
    s.cost - StoredCost(s.table)
  }

  /** Only unlinking a bucket, which leaves the cost for later, and add_cost move the balance. */
  lemma EffectOnExcess(cfg: Config, s: Shared, e: Effect)
    requires IndexOk(cfg, s) && LruOk(s) && Enabled(cfg, s, e)
    ensures Excess(Apply(cfg, s, e)) == Excess(s) +
              match e { case Unlink(b) => s.table[b].cost case AddCost(d) => d case _ => 0 }
  {
    var s' := Apply(cfg, s, e);
    var n := |s.table|;
    match e
    case Skip =>
    case AddCost(_) =>
    case Touch(_) => SumCostSame(s.table, s'.table, n);
    case Drop(_) => SumCostSame(s.table, s'.table, n);
    case Insert(key, b, cost, data, locked) =>
      InsertLands(cfg, s, key, b, cost, data, locked);
      forall x | 0 <= x < n && x != b ensures CostOf(s'.table[x]) == CostOf(s.table[x]) {
        assert SameEntry(s'.table[x], s.table[x]);
      }
      SumCostChanged(s.table, s'.table, b, n);
    case Unlink(b) =>
      UnlinkLands(cfg, s, b);
      forall x | 0 <= x < n && x != b ensures CostOf(s'.table[x]) == CostOf(s.table[x]) {
        assert SameEntry(s'.table[x], s.table[x]);
      }
      SumCostChanged(s.table, s'.table, b, n);
    case _ => SumCostChanged(s.table, s'.table, e.b, n);
  }
}
