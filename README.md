# triarb-detector: a Dafny model of the arbitrage-detection core

triarb-detector watches the live quote tables of several crypto exchanges and
looks for triangular (more generally, cyclic) arbitrage. A cycle starts and
ends at an anchor currency (USDT), for example USDT → BTC → ETH → USDT.
Each hop buys at the best rate any allowed exchange offers. A cycle whose
compounded, fee-adjusted product exceeds 1 is an opportunity.

This project models the three parts of the core:

- **Rotations** (`src/utils/graph.py`), module `Graph`:
  - `find_all_rotations`, modelled as a pure function.
  - The lemmas that a rotation of a simple cycle is again a simple cycle over the same edges, and that each element of a cycle with distinct elements heads exactly one rotation.
- **Quote table** (`src/utils/exchanges/exchange.py`), module `Exchange`:
  - Class `ExchangeData`, with its `symbolPrices` map and the three read-only accessors.
  - The feed write (`SetQuote`) and a whole feed (`ApplyFeed`), specified against `Replay`, a fold of map updates.
  - How a feed forms its key: the separator is removed and the result is lower-cased. This is the key the resolver looks up.
- **Cycle construction** (`get_arbitrage_cycles` in `src/triarb.py`), module `Cycles`:
  - The ticker filter (`ClassifyTicker`).
  - The graph-building loops (`BuildGraph`), specified against `GraphEdges`. The `IndexError` raised for a ticker without `/` becomes the `MissingSeparator` outcome.
  - The length filter and the anchor-rotation selection (`AnchorCycles`), specified against `AnchoredCycles`.
  - The bounded simple-cycle enumeration of networkx is an input, `raw`, constrained by a precondition.
- **Opportunity resolver** (`get_best_opportunity` in `src/triarb.py`), module `Resolver`:
  - The three nested loops (`GetBestOpportunity` → `ResolveCycle` → `ChooseLegExchange`) run over an ordered sequence of (exchange name, `ExchangeData`) pairs.
  - They are specified against pure functions of the table contents: `ChooseExchange` for one hop, `ProfitUpTo` and `CycleLegs` for one cycle, and `BestOpportunity` for the pass.
  - Rates, fees and profits are `real`.

Some behaviour of the code is easy to misread; the model follows the code:

- The `reversed` flag is reset only at the start of a hop. If a reversed offer once became the running best, the flag stays true even when a later direct bid overtakes it. So a leg can be marked reversed while its rate is a direct bid (`ReversedFlagRule`, `ReversedFlagNotCleared`). The display in `main` (src/triarb.py:180-181) prints "reversed from 1/rate" for such a leg, which assumes that its rate is the reciprocal of an ask.
- A reversed symbol whose ask is 0 or negative is not inverted: its rate is the ask itself. Since the running best starts at 0, such an offer is never chosen.
- Python's `not best_exchange` also holds for an exchange whose name is the empty string. `Unresolved` includes that case.

## Model

| member | source | states |
|---|---|---|
| Graph.FindAllRotations | src/utils/graph.py:10-12 | one rotation per position, each as long as the cycle, rotation i starting at `cycle[i]` |
| Graph.Rotate | src/utils/graph.py:12 | `cycle[i:] + cycle[:i]` keeps the length and starts at `cycle[i]` |
| Graph.RotationAt | src/utils/graph.py:12 | element j of rotation i is the element (i + j) mod n of the cycle |
| Graph.RotationZero | src/utils/graph.py:12 | rotation 0 is the cycle itself; an empty cycle has no rotations |
| Graph.RotationMultiset | src/utils/graph.py:12 | every rotation has the same elements, with the same multiplicities, as the cycle |
| Graph.RotationIsSimpleCycle | src/utils/graph.py:12 | a rotation of a simple cycle over a set of edges is a simple cycle over the same edges |
| Graph.UniqueRotationHead | src/utils/graph.py:12 | for distinct elements, rotation i starts with x iff `cycle[i] == x`; x in the cycle heads some rotation, and no two rotations share a head |
| Exchange.ExchangeData.constructor | src/utils/exchanges/exchange.py:6-16 | a fresh table has no quotes, no symbols, no currencies and a zero fee rate |
| Exchange.ExchangeData.GetSymbolAsk | src/utils/exchanges/exchange.py:18-19 | returns the stored ask of a present symbol, changing nothing |
| Exchange.ExchangeData.GetSymbolBid | src/utils/exchanges/exchange.py:21-22 | returns the stored bid of a present symbol, changing nothing |
| Exchange.ExchangeData.IsSymbolInData | src/utils/exchanges/exchange.py:24-25 | true exactly when the symbol is a key of the table |
| Exchange.ExchangeData.SetQuote | src/utils/exchanges/cryptocom.py:34-37 | after a feed write the key is present with exactly the written quote, and every other key keeps its presence and quote |
| Exchange.ExchangeData.ApplyFeed | src/utils/exchanges/cryptocom.py:29-37 | a feed's writes, applied in order, leave the table equal to `Replay` of the old table |
| Exchange.LastWriteWins | src/utils/exchanges/cryptocom.py:34-37 | the last write to a key decides whether it is present and what its quote is |
| Exchange.UnwrittenKeyUnchanged | src/utils/exchanges/cryptocom.py:34-37 | a key no write touches keeps its presence and its quote |
| Exchange.Lower | src/triarb.py:74-75 | lower-casing keeps the length, turns each upper-case letter 'A'..'Z' into its lower-case form (code point + 32), leaves no upper-case letter, and leaves every other character unchanged |
| Exchange.LowerConcat | src/triarb.py:74-75 | lower-casing `base + quote` lower-cases each part |
| Exchange.Remove | src/utils/exchanges/cryptocom.py:33 | removing the separator leaves none, never lengthens, and changes nothing if there was none |
| Exchange.RemoveConcat | src/utils/exchanges/cryptocom.py:33 | separator removal distributes over concatenation |
| Exchange.RemoveSeparator | src/utils/exchanges/cryptocom.py:33 | removing the separator from "B/Q" gives "BQ" when B and Q hold none |
| Exchange.FeedKeyMatchesLookup | src/utils/exchanges/cryptocom.py:33 | the key a feed stores market B/Q under is exactly the key the resolver looks up for the hop B → Q |
| Cycles.DollarTickerRule | src/triarb.py:38-39 | the four dollar tests reduce to three: the `/USD` suffix is covered by the `USD` suffix |
| Cycles.FirstIndex | src/triarb.py:40 | the position found holds the separator and no earlier position does |
| Cycles.Split | src/triarb.py:40 | `split` yields at least one part, at least two exactly when the separator occurs, no part contains it, and joining the parts with the separator gives back the string |
| Cycles.JoinHead | src/triarb.py:40-41 | parts joined by the separator begin with part 0, followed by the end or by the separator |
| Cycles.LeadingPair | src/triarb.py:40-42 | parts 0 and 1 with the separator between them open the joined string, followed by the end or by the separator |
| Cycles.SplitJoined | src/triarb.py:40-42 | splitting "B/Q" for separator-free B and Q gives B as part 0 and Q as part 1 |
| Cycles.ClassifyTicker | src/triarb.py:38-42 | a dollar ticker is skipped; any other ticker without '/' is malformed; any other ticker is the pair (BASE, QUOTE) of its first two parts: both are separator-free, the ticker starts with "BASE/QUOTE", and what follows is nothing or another '/' |
| Cycles.ClassifyPlainTicker | src/triarb.py:38-42 | a separator-free, non-dollar "B/Q" is the pair (B, Q) |
| Cycles.TickerEdgesRule | src/triarb.py:43-44 | one ticker adds edge a → b exactly when it is the pair (a, b) or (b, a) |
| Cycles.ListEdgesSource | src/triarb.py:36-44 | an exchange's tickers add edge a → b iff one of them is the pair (a, b) or (b, a) |
| Cycles.GraphEdgeSource | src/triarb.py:35-44 | the graph holds a → b iff some exchange lists a ticker that is the pair (a, b) or (b, a) |
| Cycles.GraphSymmetric | src/triarb.py:43-44 | the graph holds a → b iff it holds b → a |
| Cycles.AddListEdges | src/triarb.py:36-44 | one exchange's ticker loop adds `ListEdges` to the graph, or stops at a malformed ticker of that list; it fails exactly when the list has one |
| Cycles.BuildGraph | src/triarb.py:33-44 | the build succeeds iff no exchange lists a malformed ticker; on success the edge set is `GraphEdges`, otherwise the failing ticker is malformed and listed |
| Cycles.KeepAnchored | src/triarb.py:53-55 | every kept rotation is one of the rotations and starts at the anchor |
| Cycles.AppendAnchored | src/triarb.py:53-55 | the rotation loop appends exactly the anchored rotations, in rotation order |
| Cycles.AnchorCycles | src/triarb.py:46-56 | the cycle loop's output is `AnchoredCycles` of the raw cycles |
| Cycles.KeepAnchoredAbsent | src/triarb.py:53-55 | no rotation is kept from positions that do not hold the anchor |
| Cycles.KeepAnchoredPresent | src/triarb.py:53-55 | when the anchor occurs once, exactly the rotation at its position is kept |
| Cycles.AnchoredRotationsOfSimpleCycle | src/triarb.py:52-55 | a simple cycle contributes nothing if it misses the anchor, else exactly its rotation starting at the anchor |
| Cycles.ContributionShape | src/triarb.py:50-55 | every rotation one simple cycle contributes starts at the anchor, has a length within `[minCycle, maxCycle]` and is a simple cycle of the graph |
| Cycles.AnchoredCyclesShape | src/triarb.py:48-55 | every output cycle starts at the anchor, has a length within `[minCycle, maxCycle]` and is a simple cycle of the graph |
| Cycles.ContributionCount | src/triarb.py:50-55 | one raw cycle contributes one cycle if it is within bounds and passes through the anchor, else none |
| Cycles.AnchoredCyclesCount | src/triarb.py:48-55 | the output has one cycle per raw cycle within bounds through the anchor: nothing is deduplicated |
| Cycles.GetArbitrageCycles | src/triarb.py:31-56 | succeeds iff no malformed ticker is listed, and then returns `AnchoredCycles` of the enumerated cycles |
| Resolver.OfferOf | src/triarb.py:82-98 | the direct bid if the direct key is present, with the reversed key not consulted; else, if the reversed key is present, 1/ask for a positive ask and a non-positive rate otherwise; else no offer |
| Resolver.ChosenRateIsMaximum | src/triarb.py:76-98 | the chosen rate is non-negative and no exchange allowed for the hop offers more |
| Resolver.ChosenExchangeIsFirstMaximum | src/triarb.py:76-98 | no exchange is chosen iff the rate is 0; otherwise the chosen exchange is the first one offering the maximum; an end hop only ever chooses the originating exchange |
| Resolver.ReversedFlagRule | src/triarb.py:70-98 | the flag is set iff some reversed offer beat the running best at its turn |
| Resolver.ChosenReversedOfferSetsFlag | src/triarb.py:89-98 | if the chosen exchange's own offer is reversed, the flag is set |
| Resolver.ReversedRateExample | src/triarb.py:89-98 | a lone reversed symbol with ask 2.0 gives rate 0.5 with the flag set |
| Resolver.ReversedFlagNotCleared | src/triarb.py:70-98 | a reversed offer overtaken by a later direct bid leaves the flag set |
| Resolver.CycleLegs | src/triarb.py:67-106 | exactly one leg record per hop |
| Resolver.AccrueCases | src/triarb.py:99-105 | an unresolved hop or a zero running profit gives 0; a resolved hop multiplies by `rate * (1 - fee)` |
| Resolver.AccrueNonNegative | src/triarb.py:99-105 | with a fee of at most 1, one hop keeps a non-negative profit non-negative |
| Resolver.AccrueHop | src/triarb.py:99-105 | the two zeroing tests and the multiplication compute `Accrue` |
| Resolver.ProfitIsProduct | src/triarb.py:65-105 | the profit is the product of the net hop rates when every hop resolves, and 0 otherwise |
| Resolver.ResolvedProfit | src/triarb.py:65-105 | when every hop resolves, the profit is the product of the net hop rates |
| Resolver.UnresolvedProfit | src/triarb.py:65-105 | once a hop is unresolved, the profit is 0 |
| Resolver.ProfitNonNegative | src/triarb.py:65-105 | with a fee of at most 1, no cycle's profit is negative |
| Resolver.EndLegsOnOrigin | src/triarb.py:79-81 | the first and last hop are traded on the originating exchange or nowhere |
| Resolver.BestIsFirstMaximum | src/triarb.py:60-112 | the reported profit is at least 0 and at least every cycle's profit; a positive one belongs, with its legs, to the first cycle reaching it; a zero one reports no legs |
| Resolver.TablesOf | src/triarb.py:78-90 | the resolver sees each exchange's current table, in iteration order |
| Resolver.ChooseLegExchange | src/triarb.py:76-98 | the exchange loop for one hop computes `ChooseExchange` of the tables |
| Resolver.ResolveCycle | src/triarb.py:65-106 | the hop loop computes the cycle's `CycleProfit` and its `CycleLegs` |
| Resolver.GetBestOpportunity | src/triarb.py:59-118 | the pass returns `BestOpportunity` of the cycles over the current tables |
| Resolver.RescanUnchanged | src/triarb.py:59-118 | two passes over unchanged tables return the same opportunity |
| Resolver.ExampleKeys | src/triarb.py:74-75 | the example hops' keys are the lower-cased concatenations, e.g. "usdtbtc" |
| Resolver.ExampleQueries | src/triarb.py:69-81 | the example's hop queries, with the end hops restricted to the originating exchange |
| Resolver.ExampleChoices | src/triarb.py:76-98 | in the example, S1 is chosen for the end hops and S2 for the middle hop |
| Resolver.ThreeHopExample | src/triarb.py:59-118 | USDT → BTC → ETH over S1 (usdtbtc bid 0.00004, ethusdt bid 2500) and S2 (btceth bid 16): legs on S1, S2, S1, and profit 0.00004·16·2500·(1−f)³ for any fee f; at the default fee it exceeds 1 and the cycle is reported |

## Left out

- `nx.DiGraph` and `nx.simple_cycles` (src/triarb.py:33, 48) are a foreign library. The bounded simple-cycle enumeration is the input `raw`. A precondition states that each raw cycle is a simple cycle over the built edges, no longer than `maxCycle`. The order in which networkx yields cycles is not modelled.
- The `exchange_name` attribute stored on each graph edge is not modelled: nothing reads it.
- `main` (src/triarb.py:122-198) is not modelled: curses output, asyncio task creation, warm-up polling and log formatting. Only the `best_profit > 1` verdict is kept, as the predicate `IsOpportunity`.
- The `print` of empty tables at the end of `get_best_opportunity` is console output only.
- The websocket ingestion of every exchange subclass is not modelled: network handshakes, token fetch, JSON parsing and subscription lists. Only its effect enters the model, through `SetQuote` and `ApplyFeed` (a write of a quote under a key) and `FeedKey` (the key's normalisation).
- KuCoin's partial updates, which keep the old side when a message changes only one side, are not modelled. Binance's key taken from the stream name is not modelled either.
- The per-exchange `fee_rate` constants of the subclasses are left out: the resolver never uses them. src/utils/ccxt.py is not part of this model.
- Floating-point behaviour is not modelled: the `float()` parsing of price strings and IEEE rounding. Rates, fees and profits are exact `real` values.
- Concurrency between the feed tasks and the scan is not modelled. A pass reads a fixed snapshot of the tables; `RescanUnchanged` states what follows when they do not change.
- `previous_exchange` is assigned and compared, but both comparisons only `pass`, so it is not modelled.
- Exchange.Lower: only ASCII letters are lower-cased. Python's `str.lower` also folds non-ASCII letters; symbol text is ASCII.
- Exchange.ExchangeData.GetSymbolAsk: a missing key raises `KeyError` in the source. Here it is a precondition, because every caller tests `is_symbol_in_data` first. The same holds for Exchange.ExchangeData.GetSymbolBid.
- Resolver.ChooseLegExchange: the source reads the reversed ask twice (once for the test, once for the division). The model reads it once, since the table cannot change between the two reads of a fixed snapshot.
