# Osmosis frontend: epoch and pool-metrics cache producers

The web backend keeps three read-through caches over chain and indexer
queries: the epoch list, the current epoch provisions, and a map of pool
market metrics. The caching itself is delegated to the `cachified` and
`lru-cache` libraries. This project models the logic that
`packages/web/server/queries/complex/osmosis/epochs.ts` and
`packages/web/server/queries/complex/pools/market.ts` do own:

- the provisions derivation run when the provisions cache misses: absent when
  there is no provisions answer or no mint denomination, "Unknown currency"
  when the asset registry does not know the mint denomination, otherwise the
  provisions text cut at its first `.` and read as an integer amount of the
  mint currency (module `Epochs`);
- `getEpoch`: the first epoch of the cached list with the requested
  identifier, `NotFound` when there is none, and its duration read with
  `parseInt(duration.replace("s", ""))` (modules `Epochs`, `JsString`,
  `Decimal`);
- the metrics-map producer: a left fold of `Map.set` over the pool-fees rows,
  so the last row of a pool wins (module `PoolMarket`);
- the cache keys and time-to-live constants of the three caches.

The chain queries, the indexer query and the asset lookup are inputs: the
query answers are arguments, and `getAsset` is a function parameter
`string -> Option<Asset>`.

In the duration parse, `replace("s", "")` removes the FIRST `s` anywhere in the text, not a
trailing suffix, and `parseInt` then stops at the first non-digit
(`Epochs.OnlyFirstSuffixRemoved`).

## Model

| member | source | states |
|---|---|---|
| JsString.IndexOf | packages/web/server/queries/complex/osmosis/epochs.ts:53 | the result is -1 exactly when the character is absent, otherwise its first position |
| JsString.RemoveFirst | packages/web/server/queries/complex/osmosis/epochs.ts:68 | replacing a string pattern removes exactly one occurrence when there is one and changes nothing otherwise |
| JsString.RemoveFirstSplice | packages/web/server/queries/complex/osmosis/epochs.ts:68 | removing the first `c` from `p + c + q` with `c` not in `p` gives `p + q`, later occurrences kept |
| Decimal.NatToDigitsRoundTrip | packages/web/server/queries/complex/osmosis/epochs.ts:68 | reading back the model's decimal rendering of a number gives the number |
| Decimal.DigitsToNatRoundTrip | packages/web/server/queries/complex/osmosis/epochs.ts:68 | rendering the value of a canonical digit string gives the string back |
| Decimal.ParseInt | packages/web/server/queries/complex/osmosis/epochs.ts:68 | parseInt yields NaN exactly when the text does not start with a digit, and the value of an all-digit text |
| Decimal.ParseIntStopsAtNonDigit | packages/web/server/queries/complex/osmosis/epochs.ts:68 | parseInt of digits followed by a non-digit ignores everything from the non-digit on |
| Decimal.ParseIntRoundTrip | packages/web/server/queries/complex/osmosis/epochs.ts:68 | the model's parse of the model's rendering of n is n, for every natural n |
| Epochs.EpochCacheConfiguration | packages/web/server/queries/complex/osmosis/epochs.ts:18-32 | both epoch caches live 30000 ms and use different keys of the shared store |
| Epochs.TruncateAtDot | packages/web/server/queries/complex/osmosis/epochs.ts:51-54 | the truncated text is a prefix without `.`, equals the input when it has no `.`, and stops right at the first `.` otherwise |
| Epochs.TruncateIdempotent | packages/web/server/queries/complex/osmosis/epochs.ts:52-53 | truncating twice is truncating once |
| Epochs.TruncateDropsFraction | packages/web/server/queries/complex/osmosis/epochs.ts:51-54 | the truncation of `whole.fraction` is `whole`, whatever the fraction holds |
| Epochs.IntFromString | packages/web/server/queries/complex/osmosis/epochs.ts:55 | the integer constructor accepts exactly non-empty digit texts, fails with the text otherwise; the value is the base-10 value of the text, leading zeros included, and renders back to a canonical text |
| Epochs.EpochProvisions | packages/web/server/queries/complex/osmosis/epochs.ts:33-56 | absent iff no answer or empty mint denomination; Unknown currency iff present but the lookup fails; the coin is provided exactly when the lookup succeeds and the truncated text is a valid integer, carrying the looked-up currency and that integer; an invalid integer fails with the truncated text |
| Epochs.AbsentIgnoresAssetLookup | packages/web/server/queries/complex/osmosis/epochs.ts:39-41 | when the result is absent, any asset lookup gives the same result: it is not consulted |
| Epochs.OnlyMintDenomLookedUp | packages/web/server/queries/complex/osmosis/epochs.ts:43-45 | two lookups that agree on the mint denomination give the same result |
| Epochs.ProvisionsTruncate | packages/web/server/queries/complex/osmosis/epochs.ts:51-55 | provisions `whole.fraction` give exactly the value of `whole` in the mint currency |
| Epochs.ProvisionsWithoutDot | packages/web/server/queries/complex/osmosis/epochs.ts:51-55 | a provisions text of digits without `.` gives the value of the whole text in the mint currency |
| Epochs.TruncationExample | packages/web/server/queries/complex/osmosis/epochs.ts:51-55 | "123.999" gives 123, not 124 and not an error |
| Epochs.FirstMatch | packages/web/server/queries/complex/osmosis/epochs.ts:63 | find yields the first position with the identifier, none exactly when no element has it |
| Epochs.ParseDuration | packages/web/server/queries/complex/osmosis/epochs.ts:68 | a duration of digits followed by `s` parses to the value of the digits |
| Epochs.DurationRoundTrip | packages/web/server/queries/complex/osmosis/epochs.ts:68 | any number of seconds rendered with an `s` suffix parses back to itself |
| Epochs.OnlyFirstSuffixRemoved | packages/web/server/queries/complex/osmosis/epochs.ts:68 | `a s b s` loses only its first `s` and parses to the value of `a b` |
| Epochs.TwoWeeksDuration | packages/web/server/queries/complex/osmosis/epochs.ts:68 | "1209600s" parses to 1209600 |
| Epochs.OneDayDuration | packages/web/server/queries/complex/osmosis/epochs.ts:68 | "86400s" parses to 86400 |
| Epochs.GetEpoch | packages/web/server/queries/complex/osmosis/epochs.ts:60-73 | NotFound(identifier) exactly when no epoch matches; otherwise the parsed duration of the first matching epoch |
| Epochs.GetEpochFirstWins | packages/web/server/queries/complex/osmosis/epochs.ts:63 | an epoch not preceded by one with the same identifier is the one returned |
| Epochs.LookupTwoWeekEpoch | packages/web/server/queries/complex/osmosis/epochs.ts:60-73 | in the list a:1209600s, b:86400s, looking up "a" gives 1209600 |
| Epochs.LookupOneDayEpoch | packages/web/server/queries/complex/osmosis/epochs.ts:60-73 | in the same list, looking up "b" gives 86400 |
| Epochs.LookupMissingEpoch | packages/web/server/queries/complex/osmosis/epochs.ts:60-73 | in the same list, looking up "z" fails with NotFound |
| PoolMarket.MetricsCacheConfiguration | packages/web/server/queries/complex/pools/market.ts:25-26 | the metrics map lives 5 minutes, 300000 ms, ten times the epoch caches' 30000 ms |
| PoolMarket.MetricsOf | packages/web/server/queries/complex/pools/market.ts:34-42 | the record stored for a row holds that row's four figures priced in the fiat currency and no 24-hour change |
| PoolMarket.BuildMetricsMap | packages/web/server/queries/complex/pools/market.ts:27-47 | the key set is exactly the set of pool ids of the rows (empty for no rows) and no entry has a 24-hour change |
| PoolMarket.LastWriteWins | packages/web/server/queries/complex/pools/market.ts:32-42 | the entry of a pool holds the four figures of the last row with its id, priced in the fiat currency |
| PoolMarket.EntriesComeFromRows | packages/web/server/queries/complex/pools/market.ts:34-42 | every entry holds all four figures of one single row carrying its id |
| PoolMarket.MetricsMapSize | packages/web/server/queries/complex/pools/market.ts:32-34 | the map has at most as many entries as rows, exactly as many iff the pool ids are distinct |
| PoolMarket.CollectMetrics | packages/web/server/queries/complex/pools/market.ts:28-46 | the forEach loop of Map.set calls computes the left fold |

## Left out

- Cache behaviour (TTL freshness, LRU eviction, coalescing of concurrent misses, not caching thrown errors) belongs to the `cachified` and `lru-cache` libraries, which are not part of this model; only the keys and TTLs passed to them are.
- `getEpochs` returns the epochs of the chain query unchanged; the cached list is an argument of `Epochs.GetEpoch`.
- The chain and indexer queries and `getAsset` are network I/O: their answers are arguments. A rejected query makes `Promise.all` and the producer throw; that pass-through is not modelled.
- `CoinPretty`, `PricePretty` and `RatePretty` are formatting types of a foreign library: a coin is an asset and a natural amount, a price a currency and an opaque figure.
- `DEFAULT_VS_CURRENCY` is defined in a file that is not part of this model; it is the parameter `vs` of the metrics builder.
- `Epochs.Asset` keeps only three fields of the asset record, as a stand-in.
- JsString.IndexOf: positions count Unicode characters (scalar values), whereas JavaScript's `indexOf` counts UTF-16 code units, and strings holding a lone surrogate cannot be written; the prefix cut at the first `.` is the same either way, because the slice uses the same unit as the search.
- Decimal.ParseInt: models base-10 `parseInt` of a leading digit run only; leading whitespace, a `+`/`-` sign and a `0x` prefix, which JavaScript accepts, are not modelled (the model gives NaN, or 0 for `0x`, there). The result is an exact natural number, whereas JavaScript returns a double: digit runs above 2^53 round (`parseInt("9007199254740993")` is 9007199254740992) and are not modelled.
- Decimal.ParseIntRoundTrip: relates the model's rendering and parse only; JavaScript's `String(n)` switches to exponent notation from 1e21, so the corresponding JavaScript round trip fails for such numbers.
- Epochs.IntFromString: the integer constructor is foreign; the model accepts exactly non-empty digit texts, so negative texts and the library's bit-length bound are not modelled.
- PoolMarket.BuildMetricsMap: a JavaScript `Map` also remembers the order in which keys were first inserted, and callers can iterate in that order; a Dafny `map` has no order, so that order is not modelled.
- The volume and fee figures are opaque: no arithmetic on them is modelled.
