/** The value behind the pool market-metrics cache: a map from pool id to that
    pool's volume and fee figures, built from the indexer's pool-fees rows.
    The figures themselves are opaque (`N`); only where they go is modelled. */
module PoolMarket {
  import opened Results
  import opened Collections
  import Epochs

  /** Cache key and time-to-live (milliseconds) of the metrics map. */
  const MetricsCacheKey: string := "pools-metrics-map"
  const MetricsTtlMs: nat := 1000 * 60 * 5

  /** The metrics map lives five minutes, ten times as long as the epoch caches. */
  lemma MetricsCacheConfiguration()
    ensures MetricsTtlMs == 300000
    ensures MetricsTtlMs == 10 * Epochs.EpochsTtlMs
  {
  }

  /** One row of the pool-fees response. */
  datatype FeeRow<N> = FeeRow(poolId: string, volume24h: N, volume7d: N,
                              feesSpent24h: N, feesSpent7d: N)

  /** A figure shown in a fiat currency. */
  datatype Price<N> = Price(currency: string, amount: N)

  /** A percentage change. */
  datatype Rate<N> = Rate(ratio: N)

  /** Every field is optional, as in the `Partial` record of the source. */
  datatype PoolMarketMetrics<N> = PoolMarketMetrics(
    volume7dUsd: Option<Price<N>>,
    volume24hUsd: Option<Price<N>>,
    volume24hChange: Option<Rate<N>>,
    feesSpent24hUsd: Option<Price<N>>,
    feesSpent7dUsd: Option<Price<N>>)

  /** The entry stored for one row, every price in the currency `vs`. */
  function MetricsOf<N>(row: FeeRow<N>, vs: string): (m: PoolMarketMetrics<N>)
    ensures FromRow(m, row, vs)
  {
    PoolMarketMetrics(
      volume7dUsd := Some(Price(vs, row.volume7d)),
      volume24hUsd := Some(Price(vs, row.volume24h)),
      volume24hChange := None,
      feesSpent24hUsd := Some(Price(vs, row.feesSpent24h)),
      feesSpent7dUsd := Some(Price(vs, row.feesSpent7d)))
  }

  /** `m` holds exactly the four figures of `row`, priced in `vs`, and no
      24-hour change. */
  ghost predicate FromRow<N>(m: PoolMarketMetrics<N>, row: FeeRow<N>, vs: string)
  {
    && m.volume24hUsd == Some(Price(vs, row.volume24h))
    && m.volume7dUsd == Some(Price(vs, row.volume7d))
    && m.feesSpent24hUsd == Some(Price(vs, row.feesSpent24h))
    && m.feesSpent7dUsd == Some(Price(vs, row.feesSpent7d))
    && m.volume24hChange.None?
  }

  /** The pool ids of the rows, in order. */
  function PoolIds<N>(rows: seq<FeeRow<N>>): (ids: seq<string>)
    ensures |ids| == |rows|
    ensures forall i :: 0 <= i < |rows| ==> ids[i] == rows[i].poolId
  {
    if |rows| == 0 then []
    else PoolIds(rows[..|rows| - 1]) + [rows[|rows| - 1].poolId]
  }

  /** The map the producer builds: a left fold of `Map.set` over the rows. */
  function BuildMetricsMap<N>(rows: seq<FeeRow<N>>, vs: string): (m: map<string, PoolMarketMetrics<N>>)
    ensures m.Keys == Elements(PoolIds(rows))
    ensures forall id :: id in m ==> m[id].volume24hChange.None?
  {
    if |rows| == 0 then map[]
    else
      var last := rows[|rows| - 1];
      var prior := BuildMetricsMap(rows[..|rows| - 1], vs);
      assert PoolIds(rows) == PoolIds(rows[..|rows| - 1]) + [last.poolId];
      prior[last.poolId := MetricsOf(last, vs)]
  }

  /** Last write wins: a pool's entry comes from the last row carrying its id,
      all four figures from that same row. */
  lemma {:induction false} LastWriteWins<N>(rows: seq<FeeRow<N>>, vs: string, i: nat)
    requires i < |rows|
    requires forall j :: i < j < |rows| ==> rows[j].poolId != rows[i].poolId
    ensures rows[i].poolId in BuildMetricsMap(rows, vs)
    ensures FromRow(BuildMetricsMap(rows, vs)[rows[i].poolId], rows[i], vs)
    decreases |rows|
  {
    var n := |rows| - 1;
    if i < n {
      var init := rows[..n];
      LastWriteWins(init, vs, i);
      assert rows[n].poolId != rows[i].poolId;
    }
  }

  /** Every entry equals the entry of some row carrying its id. */
  lemma EntriesComeFromRows<N>(rows: seq<FeeRow<N>>, vs: string, id: string)
    requires id in BuildMetricsMap(rows, vs)
    ensures exists i :: 0 <= i < |rows| && rows[i].poolId == id
                        && FromRow(BuildMetricsMap(rows, vs)[id], rows[i], vs)
  {
    var i := LastIndexOf(rows, id);
    LastWriteWins(rows, vs, i);
  }

  /** The position of the last row carrying `id`. */
  function LastIndexOf<N>(rows: seq<FeeRow<N>>, id: string): (i: nat)
    requires id in Elements(PoolIds(rows))
    ensures i < |rows| && rows[i].poolId == id
    ensures forall j :: i < j < |rows| ==> rows[j].poolId != id
  {
    var n := |rows| - 1;
    if rows[n].poolId == id then n
    else
      assert PoolIds(rows) == PoolIds(rows[..n]) + [rows[n].poolId];
      LastIndexOf(rows[..n], id)
  }

  /** The map never has more entries than there are rows, and has exactly as
      many when the pool ids are pairwise different. */
  lemma MetricsMapSize<N>(rows: seq<FeeRow<N>>, vs: string)
    ensures |BuildMetricsMap(rows, vs)| <= |rows|
    ensures |BuildMetricsMap(rows, vs)| == |rows| <==> Distinct(PoolIds(rows))
  {
    var m := BuildMetricsMap(rows, vs);
    assert |m| == |m.Keys|;
    ElementsCard(PoolIds(rows));
  }

  /** The producer's `forEach` loop: one `Map.set` per row, in order. */
  method CollectMetrics<N>(rows: seq<FeeRow<N>>, vs: string) returns (m: map<string, PoolMarketMetrics<N>>)
    ensures m == BuildMetricsMap(rows, vs)
  {
    m := map[];
    var i := 0;
    while i < |rows|
      invariant 0 <= i <= |rows|
      invariant m == BuildMetricsMap(rows[..i], vs)
    {
      assert rows[..i + 1][..i] == rows[..i];
      m := m[rows[i].poolId := MetricsOf(rows[i], vs)];
      i := i + 1;
    }
    assert rows[..|rows|] == rows;
  }
}
