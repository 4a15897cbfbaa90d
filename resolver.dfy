/**
 * The opportunity resolver of src/triarb.py (`get_best_opportunity`): for
 * every anchored cycle and every hop of it, the best-paying exchange is
 * chosen, the hop rates are compounded net of the flat transaction fee, and
 * the first cycle of greatest profit is reported.
 *
 * The exchanges are an ordered sequence of (name, table) pairs, in the
 * iteration order of the exchanges dictionary. The resolver only reads the
 * tables; its result is specified as a function of their contents.
 */
module Resolver {

  import opened Wrappers
  import opened Exchange
  import opened Graph

  type Table = map<string, Quote>

  /** The exchanges in iteration order, each with the contents of its table. */
  type Snapshot = seq<(string, Table)>

  /** The default of the `transaction_fee` parameter. */
  const DefaultTransactionFee: real := 0.0057

  /** The scan loop's verdict on a reported profit: above break-even. */
  predicate IsOpportunity(profit: real) {
    profit > 1.0
  }

  /** What one exchange offers for one hop. */
  datatype Offer = NoOffer | Offer(rate: real, reversed: bool)

  /**
   * The rate rule for one exchange: the bid of the direct symbol if the
   * table holds it (the reversed symbol is then not consulted); otherwise,
   * if the table holds the reversed symbol, the reciprocal of its ask when
   * that ask is positive, else the ask itself; otherwise nothing.
   */
  function OfferOf(table: Table, key: string, reversedKey: string): (o: Offer)
    ensures o.NoOffer? <==> key !in table && reversedKey !in table
    ensures o.Offer? && !o.reversed <==> key in table
    ensures key in table ==> o.rate == table[key].bid
    ensures o.Offer? && o.reversed ==> (o.rate > 0.0 <==> table[reversedKey].ask > 0.0)
    ensures o.Offer? && o.reversed && o.rate > 0.0 ==> o.rate * table[reversedKey].ask == 1.0
  {
    if key in table then Offer(table[key].bid, false)
    else if reversedKey in table then
      var ask := table[reversedKey].ask;
      Offer(if ask > 0.0 then 1.0 / ask else ask, true)
    else NoOffer
  }

  /**
   * One hop to resolve: the direct and reversed symbol keys, and whether
   * only the originating exchange may serve it (the first and last hop).
   */
  datatype LegQuery = LegQuery(key: string, reversedKey: string, originOnly: bool, origin: string)

  predicate MayServe(name: string, q: LegQuery) {
    !q.originOnly || name == q.origin
  }

  /** What exchange `k` of the snapshot offers for hop `q`; nothing if it may not serve it. */
  function OfferAt(snap: Snapshot, k: nat, q: LegQuery): Offer
    requires k < |snap|
  {
    if MayServe(snap[k].0, q) then OfferOf(snap[k].1, q.key, q.reversedKey) else NoOffer
  }

  /** The running state of the exchange loop: `best_rate`, `best_exchange` and `reversed`. */
  datatype Choice = Choice(rate: real, exchange: Option<string>, reversed: bool)

  const NoChoice: Choice := Choice(0.0, None, false)

  /**
   * One exchange considered: an offer strictly above the running best
   * replaces it; a reversed offer doing so sets `reversed`, which nothing
   * clears again.
   */
  function Consider(c: Choice, name: string, table: Table, q: LegQuery): Choice {
    if !MayServe(name, q) then c
    else
      match OfferOf(table, q.key, q.reversedKey)
      case NoOffer => c
      case Offer(rate, rev) =>
        if rate > c.rate then Choice(rate, Some(name), c.reversed || rev) else c
  }

  /** The exchange loop for one hop, over the exchanges in order. */
  function ChooseExchange(snap: Snapshot, q: LegQuery): Choice {
    if snap == [] then NoChoice
    else
      var last := snap[|snap| - 1];
      Consider(ChooseExchange(snap[..|snap| - 1], q), last.0, last.1, q)
  }

  lemma ChooseExchangeStep(snap: Snapshot, k: nat, q: LegQuery)
    requires k < |snap|
    ensures ChooseExchange(snap[..k + 1], q) == Consider(ChooseExchange(snap[..k], q), snap[k].0, snap[k].1, q)
  {
    assert snap[..k + 1][..k] == snap[..k];
  }

  /** The chosen rate is never negative and no exchange that may serve the hop offers more. */
  lemma {:induction false} ChosenRateIsMaximum(snap: Snapshot, q: LegQuery)
    ensures ChooseExchange(snap, q).rate >= 0.0
    ensures forall k :: 0 <= k < |snap| && OfferAt(snap, k, q).Offer? ==>
      OfferAt(snap, k, q).rate <= ChooseExchange(snap, q).rate
  {
    if snap != [] {
      var n := |snap|;
      var init := snap[..n - 1];
      ChosenRateIsMaximum(init, q);
      forall k | 0 <= k < n - 1
        ensures OfferAt(snap, k, q) == OfferAt(init, k, q)
      {
        assert snap[k] == init[k];
      }
    }
  }

  /**
   * Exchange `k` is where the chosen rate first appears: it may serve the
   * hop, offers exactly the chosen rate, and every exchange before it that
   * may serve the hop offers strictly less.
   */
  predicate IsFirstMaximum(snap: Snapshot, k: nat, q: LegQuery, rate: real)
    requires k < |snap|
  {
    OfferAt(snap, k, q).Offer? && OfferAt(snap, k, q).rate == rate &&
    forall j :: 0 <= j < k && OfferAt(snap, j, q).Offer? ==> OfferAt(snap, j, q).rate < rate
  }

  /**
   * An exchange is chosen exactly when the chosen rate is positive; it is
   * the first exchange in iteration order offering that rate, and on the
   * first and last hop it is the originating exchange.
   */
  lemma {:induction false} ChosenExchangeIsFirstMaximum(snap: Snapshot, q: LegQuery)
    ensures ChooseExchange(snap, q).exchange.None? <==> ChooseExchange(snap, q).rate == 0.0
    ensures ChooseExchange(snap, q).exchange.Some? ==>
      exists k :: 0 <= k < |snap| && snap[k].0 == ChooseExchange(snap, q).exchange.value &&
        IsFirstMaximum(snap, k, q, ChooseExchange(snap, q).rate)
    ensures ChooseExchange(snap, q).exchange.Some? && q.originOnly ==>
      ChooseExchange(snap, q).exchange.value == q.origin
  {
    if snap != [] {
      var n := |snap|;
      var init := snap[..n - 1];
      ChosenExchangeIsFirstMaximum(init, q);
      ChosenRateIsMaximum(init, q);
      var prev := ChooseExchange(init, q);
      var c := ChooseExchange(snap, q);
      forall k | 0 <= k < n - 1
        ensures OfferAt(snap, k, q) == OfferAt(init, k, q)
      {
        assert snap[k] == init[k];
      }
      if c != prev {
        assert OfferAt(snap, n - 1, q).Offer? && OfferAt(snap, n - 1, q).rate == c.rate;
        assert IsFirstMaximum(snap, n - 1, q, c.rate);
      } else if c.exchange.Some? {
        var k :| 0 <= k < |init| && init[k].0 == prev.exchange.value && IsFirstMaximum(init, k, q, prev.rate);
        assert snap[k].0 == c.exchange.value && IsFirstMaximum(snap, k, q, c.rate);
      }
    }
  }

  /**
   * `reversed` is set exactly when some reversed offer became the running
   * best on its turn, even if a later direct offer overtook it.
   */
  lemma {:induction false} ReversedFlagRule(snap: Snapshot, q: LegQuery)
    ensures ChooseExchange(snap, q).reversed <==>
      exists k :: 0 <= k < |snap| && OfferAt(snap, k, q).Offer? && OfferAt(snap, k, q).reversed &&
        OfferAt(snap, k, q).rate > ChooseExchange(snap[..k], q).rate
  {
    if snap != [] {
      var n := |snap|;
      var init := snap[..n - 1];
      ReversedFlagRule(init, q);
      forall k | 0 <= k < n - 1
        ensures OfferAt(snap, k, q) == OfferAt(init, k, q) && snap[..k] == init[..k]
      {
        assert snap[k] == init[k];
      }
    }
  }

  /** A chosen reversed offer always shows as a reversed hop. */
  lemma ChosenReversedOfferSetsFlag(snap: Snapshot, q: LegQuery, k: nat)
    requires k < |snap| && ChooseExchange(snap, q).exchange == Some(snap[k].0)
    requires IsFirstMaximum(snap, k, q, ChooseExchange(snap, q).rate) && OfferAt(snap, k, q).reversed
    ensures ChooseExchange(snap, q).reversed
  {
    var c := ChooseExchange(snap, q);
    var init := snap[..k];
    var prev := ChooseExchange(init, q);
    ChosenExchangeIsFirstMaximum(snap, q);
    ChosenExchangeIsFirstMaximum(init, q);
    ChosenRateIsMaximum(snap, q);
    assert c.rate > 0.0;
    if prev.exchange.Some? {
      var j :| 0 <= j < k && init[j].0 == prev.exchange.value && IsFirstMaximum(init, j, q, prev.rate);
      assert OfferAt(init, j, q) == OfferAt(snap, j, q) by { assert init[j] == snap[j]; }
    }
    assert OfferAt(snap, k, q).rate > prev.rate;
    ReversedFlagRule(snap, q);
  }

  /** The reversed-rate example: a reversed symbol asking 2.0 gives a reversed hop at 0.5. */
  lemma ReversedRateExample(name: string, key: string, reversedKey: string, bid: real)
    requires key != reversedKey
    ensures ChooseExchange([(name, map[reversedKey := Quote(2.0, bid)])], LegQuery(key, reversedKey, false, name))
      == Choice(0.5, Some(name), true)
  {
    var snap := [(name, map[reversedKey := Quote(2.0, bid)])];
    assert snap[..0] == [];
  }

  /**
   * The flag is not cleared when a direct offer overtakes a reversed one:
   * the hop is served by B's direct bid of 1.0 yet is reported as reversed.
   */
  lemma ReversedFlagNotCleared(key: string, reversedKey: string)
    requires key != reversedKey
    ensures ChooseExchange(
      [("A", map[reversedKey := Quote(2.0, 0.0)]), ("B", map[key := Quote(0.0, 1.0)])],
      LegQuery(key, reversedKey, false, "A")) == Choice(1.0, Some("B"), true)
  {
    var snap: Snapshot := [("A", map[reversedKey := Quote(2.0, 0.0)]), ("B", map[key := Quote(0.0, 1.0)])];
    var q := LegQuery(key, reversedKey, false, "A");
    ChooseExchangeStep(snap, 0, q);
    ChooseExchangeStep(snap, 1, q);
    assert snap[..0] == [] && snap[..2] == snap;
    assert ChooseExchange(snap[..1], q) == Choice(0.5, Some("A"), true);
  }

  /** Hop `i` of `cycle` goes from `cycle[i]` to the next currency, the last back to the first. */
  function LegQueryAt(cycle: seq<Currency>, i: nat, origin: string): LegQuery
    requires i < |cycle|
  {
    var base := cycle[i];
    var quote := cycle[(i + 1) % |cycle|];
    LegQuery(Lower(base + quote), Lower(quote + base), i == 0 || i == |cycle| - 1, origin)
  }

  function ChoiceAt(cycle: seq<Currency>, i: nat, origin: string, snap: Snapshot): Choice
    requires i < |cycle|
  {
    ChooseExchange(snap, LegQueryAt(cycle, i, origin))
  }

  /** A leg record: "BASE/QUOTE", the chosen rate, the chosen exchange and the `reversed` flag. */
  datatype Leg = Leg(pair: string, rate: real, exchange: Option<string>, reversed: bool)

  function LegAt(cycle: seq<Currency>, i: nat, origin: string, snap: Snapshot): Leg
    requires i < |cycle|
  {
    var c := ChoiceAt(cycle, i, origin, snap);
    Leg(cycle[i] + "/" + cycle[(i + 1) % |cycle|], c.rate, c.exchange, c.reversed)
  }

  /** The leg records of a cycle, one per hop, in hop order. */
  function CycleLegs(cycle: seq<Currency>, origin: string, snap: Snapshot): (legs: seq<Leg>)
    ensures |legs| == |cycle|
  {
    seq(|cycle|, i requires 0 <= i < |cycle| => LegAt(cycle, i, origin, snap))
  }

  lemma CycleLegsStep(cycle: seq<Currency>, i: nat, origin: string, snap: Snapshot)
    requires i < |cycle|
    ensures CycleLegs(cycle, origin, snap)[..i + 1] ==
      CycleLegs(cycle, origin, snap)[..i] + [LegAt(cycle, i, origin, snap)]
  {
    var legs := CycleLegs(cycle, origin, snap);
    assert legs[..i + 1] == legs[..i] + [legs[i]];
  }

  /**
   * `not best_exchange or best_rate == 0`: no exchange chosen (or one whose
   * name is the empty string, which is falsy too), or a zero rate.
   */
  predicate Unresolved(c: Choice) {
    c.exchange == None || c.exchange == Some("") || c.rate == 0.0
  }

  /** A hop's rate net of the transaction fee. */
  function NetRate(c: Choice, fee: real): real {
    c.rate * (1.0 - fee)
  }

  /** One hop's effect on the running profit: zeroed when unresolved, then scaled by the net rate. */
  function Accrue(p: real, c: Choice, fee: real): real {
    (if Unresolved(c) then 0.0 else p) * NetRate(c, fee)
  }

  /** The running profit after the first `n` hops. */
  function ProfitUpTo(cycle: seq<Currency>, n: nat, origin: string, snap: Snapshot, fee: real): real
    requires n <= |cycle|
  {
    if n == 0 then 1.0
    else
      Accrue(ProfitUpTo(cycle, n - 1, origin, snap, fee), ChoiceAt(cycle, n - 1, origin, snap), fee)
  }

  function CycleProfit(cycle: seq<Currency>, origin: string, snap: Snapshot, fee: real): real {
    ProfitUpTo(cycle, |cycle|, origin, snap, fee)
  }

  /** The product of the first `n` net hop rates. */
  function NetRateProduct(cycle: seq<Currency>, n: nat, origin: string, snap: Snapshot, fee: real): real
    requires n <= |cycle|
  {
    if n == 0 then 1.0
    else NetRateProduct(cycle, n - 1, origin, snap, fee) * NetRate(ChoiceAt(cycle, n - 1, origin, snap), fee)
  }

  predicate AllResolved(cycle: seq<Currency>, n: nat, origin: string, snap: Snapshot)
    requires n <= |cycle|
  {
    forall i :: 0 <= i < n ==> !Unresolved(ChoiceAt(cycle, i, origin, snap))
  }

  /**
   * The running profit is the product of the net hop rates while every hop
   * resolves; once a hop is unresolved it is 0 and stays 0.
   */
  lemma ProfitIsProduct(cycle: seq<Currency>, n: nat, origin: string, snap: Snapshot, fee: real)
    requires n <= |cycle|
    ensures ProfitUpTo(cycle, n, origin, snap, fee) ==
      if AllResolved(cycle, n, origin, snap) then NetRateProduct(cycle, n, origin, snap, fee) else 0.0
  {
    if AllResolved(cycle, n, origin, snap) {
      ResolvedProfit(cycle, n, origin, snap, fee);
    } else {
      UnresolvedProfit(cycle, n, origin, snap, fee);
    }
  }

  lemma {:induction false} ResolvedProfit(cycle: seq<Currency>, n: nat, origin: string, snap: Snapshot, fee: real)
    requires n <= |cycle| && AllResolved(cycle, n, origin, snap)
    ensures ProfitUpTo(cycle, n, origin, snap, fee) == NetRateProduct(cycle, n, origin, snap, fee)
  {
    if n > 0 {
      var c := ChoiceAt(cycle, n - 1, origin, snap);
      var p, q := ProfitUpTo(cycle, n - 1, origin, snap, fee), NetRateProduct(cycle, n - 1, origin, snap, fee);
      assert !Unresolved(c);
      assert AllResolved(cycle, n - 1, origin, snap);
      ResolvedProfit(cycle, n - 1, origin, snap, fee);
      AccrueResolved(p, q, c, fee);
    }
  }

  lemma AccrueResolved(p: real, q: real, c: Choice, fee: real)
    requires p == q && !Unresolved(c)
    ensures Accrue(p, c, fee) == q * NetRate(c, fee)
  {
  }

  lemma {:induction false} UnresolvedProfit(cycle: seq<Currency>, n: nat, origin: string, snap: Snapshot, fee: real)
    requires n <= |cycle| && !AllResolved(cycle, n, origin, snap)
    ensures ProfitUpTo(cycle, n, origin, snap, fee) == 0.0
  {
    var c := ChoiceAt(cycle, n - 1, origin, snap);
    var p := ProfitUpTo(cycle, n - 1, origin, snap, fee);
    AccrueCases(p, c, fee);
    if !Unresolved(c) {
      var i :| 0 <= i < n && Unresolved(ChoiceAt(cycle, i, origin, snap));
      assert i < n - 1;
      UnresolvedProfit(cycle, n - 1, origin, snap, fee);
    }
  }

  /** An unresolved hop or a zero running profit leaves 0; a resolved hop multiplies by its net rate. */
  lemma AccrueCases(p: real, c: Choice, fee: real)
    ensures Unresolved(c) ==> Accrue(p, c, fee) == 0.0
    ensures p == 0.0 ==> Accrue(p, c, fee) == 0.0
    ensures !Unresolved(c) ==> Accrue(p, c, fee) == p * (c.rate * (1.0 - fee))
  {
    if Unresolved(c) || p == 0.0 {
      ZeroTimes(c.rate * (1.0 - fee));
    }
  }

  lemma ZeroTimes(x: real)
    ensures 0.0 * x == 0.0
  {
  }

  lemma MulNonNegative(a: real, b: real)
    requires a >= 0.0 && b >= 0.0
    ensures a * b >= 0.0
  {
  }

  /** A hop at a non-negative rate keeps a non-negative profit non-negative when the fee is at most 100%. */
  lemma AccrueNonNegative(p: real, c: Choice, fee: real)
    requires p >= 0.0 && c.rate >= 0.0 && fee <= 1.0
    ensures Accrue(p, c, fee) >= 0.0
  {
    MulNonNegative(c.rate, 1.0 - fee);
    MulNonNegative(if Unresolved(c) then 0.0 else p, c.rate * (1.0 - fee));
  }

  /** With a fee of at most 100%, no profit is negative. */
  lemma {:induction false} ProfitNonNegative(cycle: seq<Currency>, n: nat, origin: string, snap: Snapshot, fee: real)
    requires n <= |cycle| && fee <= 1.0
    ensures ProfitUpTo(cycle, n, origin, snap, fee) >= 0.0
  {
    if n > 0 {
      ProfitNonNegative(cycle, n - 1, origin, snap, fee);
      ChosenRateIsMaximum(snap, LegQueryAt(cycle, n - 1, origin));
      AccrueNonNegative(ProfitUpTo(cycle, n - 1, origin, snap, fee), ChoiceAt(cycle, n - 1, origin, snap), fee);
    }
  }

  /** The first and last hop trade on the originating exchange, if anywhere. */
  lemma EndLegsOnOrigin(cycle: seq<Currency>, origin: string, snap: Snapshot)
    requires |cycle| > 0
    ensures CycleLegs(cycle, origin, snap)[0].exchange in {None, Some(origin)}
    ensures CycleLegs(cycle, origin, snap)[|cycle| - 1].exchange in {None, Some(origin)}
  {
    ChosenExchangeIsFirstMaximum(snap, LegQueryAt(cycle, 0, origin));
    ChosenExchangeIsFirstMaximum(snap, LegQueryAt(cycle, |cycle| - 1, origin));
  }

  /** The result of one resolver pass: the best cycle's leg records and its profit. */
  datatype Opportunity = Opportunity(legs: seq<Leg>, profit: real)

  /** The cycle loop over the first `n` cycles: a strictly greater profit replaces the best. */
  function BestUpTo(cycles: seq<seq<Currency>>, n: nat, origin: string, snap: Snapshot, fee: real): Opportunity
    requires n <= |cycles|
  {
    if n == 0 then Opportunity([], 0.0)
    else
      var prev := BestUpTo(cycles, n - 1, origin, snap, fee);
      var p := CycleProfit(cycles[n - 1], origin, snap, fee);
      if p > prev.profit then Opportunity(CycleLegs(cycles[n - 1], origin, snap), p) else prev
  }

  function BestOpportunity(cycles: seq<seq<Currency>>, origin: string, snap: Snapshot, fee: real): Opportunity {
    BestUpTo(cycles, |cycles|, origin, snap, fee)
  }

  /**
   * The reported profit is at least 0 and at least every cycle's profit;
   * when positive it and its legs are those of the first cycle reaching it,
   * and when 0 no legs are reported.
   */
  lemma {:induction false} BestIsFirstMaximum(cycles: seq<seq<Currency>>, n: nat, origin: string, snap: Snapshot, fee: real)
    requires n <= |cycles|
    ensures BestUpTo(cycles, n, origin, snap, fee).profit >= 0.0
    ensures forall k :: 0 <= k < n ==>
      CycleProfit(cycles[k], origin, snap, fee) <= BestUpTo(cycles, n, origin, snap, fee).profit
    ensures BestUpTo(cycles, n, origin, snap, fee).profit == 0.0 ==> BestUpTo(cycles, n, origin, snap, fee).legs == []
    ensures BestUpTo(cycles, n, origin, snap, fee).profit > 0.0 ==>
      exists k :: 0 <= k < n && IsFirstBestCycle(cycles, k, origin, snap, fee, BestUpTo(cycles, n, origin, snap, fee))
  {
    if n > 0 {
      BestIsFirstMaximum(cycles, n - 1, origin, snap, fee);
      var prev := BestUpTo(cycles, n - 1, origin, snap, fee);
      var best := BestUpTo(cycles, n, origin, snap, fee);
      if best != prev {
        assert IsFirstBestCycle(cycles, n - 1, origin, snap, fee, best);
      } else if best.profit > 0.0 {
        var k :| 0 <= k < n - 1 && IsFirstBestCycle(cycles, k, origin, snap, fee, prev);
        assert IsFirstBestCycle(cycles, k, origin, snap, fee, best);
      }
    }
  }

  /** Cycle `k` is reported: its profit and legs are `best`, and every earlier cycle earned strictly less. */
  predicate IsFirstBestCycle(cycles: seq<seq<Currency>>, k: nat, origin: string, snap: Snapshot, fee: real, best: Opportunity)
    requires k < |cycles|
  {
    CycleProfit(cycles[k], origin, snap, fee) == best.profit &&
    CycleLegs(cycles[k], origin, snap) == best.legs &&
    forall j :: 0 <= j < k ==> CycleProfit(cycles[j], origin, snap, fee) < best.profit
  }

  /** The contents of the exchanges' tables, in iteration order. */
  function TablesOf(exchanges: seq<(string, ExchangeData)>): (snap: Snapshot)
    reads set k | 0 <= k < |exchanges| :: exchanges[k].1
    ensures |snap| == |exchanges|
    ensures forall k :: 0 <= k < |exchanges| ==> snap[k] == (exchanges[k].0, exchanges[k].1.symbolPrices)
  {
    seq(|exchanges|, k requires 0 <= k < |exchanges| reads set j | 0 <= j < |exchanges| :: exchanges[j].1 =>
      (exchanges[k].0, exchanges[k].1.symbolPrices))
  }

  /**
   * The exchange loop for one hop: every exchange in order that may serve
   * it, keeping the first strictly best rate.
   */
  method ChooseLegExchange(
    exchanges: seq<(string, ExchangeData)>, tickerKey: string, reversedTickerKey: string,
    originOnly: bool, origin: string)
    returns (bestRate: real, bestExchange: Option<string>, reversed: bool)
    ensures Choice(bestRate, bestExchange, reversed) ==
      ChooseExchange(TablesOf(exchanges), LegQuery(tickerKey, reversedTickerKey, originOnly, origin))
  {
    ghost var snap := TablesOf(exchanges);
    ghost var q := LegQuery(tickerKey, reversedTickerKey, originOnly, origin);
    bestRate, bestExchange, reversed := 0.0, None, false;
    for k := 0 to |exchanges|
      invariant Choice(bestRate, bestExchange, reversed) == ChooseExchange(snap[..k], q)
    {
      ChooseExchangeStep(snap, k, q);
      var (name, data) := exchanges[k];
      assert snap[k] == (name, data.symbolPrices);
      if originOnly && name != origin {
        continue;
      }
      var direct := data.IsSymbolInData(tickerKey);
      if direct {
        var rate := data.GetSymbolBid(tickerKey);
        if rate > bestRate {
          bestRate, bestExchange := rate, Some(name);
        }
      } else {
        var hasReversed := data.IsSymbolInData(reversedTickerKey);
        if hasReversed {
          var rate := data.GetSymbolAsk(reversedTickerKey);
          if rate > 0.0 {
            rate := 1.0 / rate;
          }
          if rate > bestRate {
            bestRate, bestExchange, reversed := rate, Some(name), true;
          }
        }
      }
    }
    assert snap[..|exchanges|] == snap;
  }

  /** What one turn of the hop loop adds to the profit and to the leg records. */
  lemma HopStep(cycle: seq<Currency>, i: nat, origin: string, snap: Snapshot, fee: real, choice: Choice, before: real)
    requires i < |cycle|
    requires choice == ChooseExchange(snap, LegQuery(Lower(cycle[i] + cycle[(i + 1) % |cycle|]),
      Lower(cycle[(i + 1) % |cycle|] + cycle[i]), i == 0 || i == |cycle| - 1, origin))
    requires before == ProfitUpTo(cycle, i, origin, snap, fee)
    ensures ProfitUpTo(cycle, i + 1, origin, snap, fee) == Accrue(before, choice, fee)
    ensures CycleLegs(cycle, origin, snap)[..i + 1] == CycleLegs(cycle, origin, snap)[..i] +
      [Leg(cycle[i] + "/" + cycle[(i + 1) % |cycle|], choice.rate, choice.exchange, choice.reversed)]
  {
    CycleLegsStep(cycle, i, origin, snap);
  }

  /**
   * The end of one hop: the profit is zeroed when no exchange (or one with
   * a falsy name) was chosen or the rate is 0, then scaled by the net rate.
   */
  method AccrueHop(profit: real, bestRate: real, bestExchange: Option<string>, reversed: bool, fee: real)
    returns (next: real)
    ensures next == Accrue(profit, Choice(bestRate, bestExchange, reversed), fee)
  {
    next := profit;
    if bestExchange == None || bestExchange == Some("") {
      next := 0.0;
    }
    if bestRate == 0.0 {
      next := 0.0;
    }
    next := next * (bestRate * (1.0 - fee));
  }

  /** The hop loop for one cycle: one leg record per hop, and the compounded profit. */
  method ResolveCycle(cycle: seq<Currency>, origin: string, exchanges: seq<(string, ExchangeData)>, fee: real)
    returns (profit: real, cycleRates: seq<Leg>)
    ensures profit == CycleProfit(cycle, origin, TablesOf(exchanges), fee)
    ensures cycleRates == CycleLegs(cycle, origin, TablesOf(exchanges))
  {
    ghost var snap := TablesOf(exchanges);
    profit, cycleRates := 1.0, [];
    for i := 0 to |cycle|
      invariant profit == ProfitUpTo(cycle, i, origin, snap, fee)
      invariant cycleRates == CycleLegs(cycle, origin, snap)[..i]
    {
      var base := cycle[i];
      var quote := cycle[(i + 1) % |cycle|];
      var originalTickerKey := base + "/" + quote;
      var tickerKey := Lower(base + quote);
      var reversedTickerKey := Lower(quote + base);
      var originOnly := i == 0 || i == |cycle| - 1;
      var bestRate, bestExchange, reversed := ChooseLegExchange(exchanges, tickerKey, reversedTickerKey, originOnly, origin);
      HopStep(cycle, i, origin, snap, fee, Choice(bestRate, bestExchange, reversed), profit);
      profit := AccrueHop(profit, bestRate, bestExchange, reversed, fee);
      cycleRates := cycleRates + [Leg(originalTickerKey, bestRate, bestExchange, reversed)];
    }
    assert CycleLegs(cycle, origin, snap)[..|cycle|] == CycleLegs(cycle, origin, snap);
  }

  /**
   * `get_best_opportunity`: for every cycle, for every hop, for every
   * exchange, the nested loops of the resolver. It only reads the tables.
   */
  method GetBestOpportunity(
    cycles: seq<seq<Currency>>, origin: string, exchanges: seq<(string, ExchangeData)>, fee: real)
    returns (best: Opportunity)
    ensures best == BestOpportunity(cycles, origin, TablesOf(exchanges), fee)
  {
    ghost var snap := TablesOf(exchanges);
    var bestProfit: real := 0.0;
    var bestCycleRates: seq<Leg> := [];
    for c := 0 to |cycles|
      invariant Opportunity(bestCycleRates, bestProfit) == BestUpTo(cycles, c, origin, snap, fee)
    {
      var cycle := cycles[c];
      var profit, cycleRates := ResolveCycle(cycle, origin, exchanges, fee);
      if profit > bestProfit {
        bestProfit := profit;
        bestCycleRates := cycleRates;
      }
    }
    best := Opportunity(bestCycleRates, bestProfit);
  }

  /** Two passes over unchanged tables report the same opportunity. */
  method RescanUnchanged(
    cycles: seq<seq<Currency>>, origin: string, exchanges: seq<(string, ExchangeData)>, fee: real)
    returns (first: Opportunity, second: Opportunity)
    ensures first == second
    ensures first == BestOpportunity(cycles, origin, TablesOf(exchanges), fee)
  {
    first := GetBestOpportunity(cycles, origin, exchanges, fee);
    second := GetBestOpportunity(cycles, origin, exchanges, fee);
  }

  const ExampleCycle: seq<Currency> := ["USDT", "BTC", "ETH"]

  /** Two exchanges: "S1" quotes usdtbtc and ethusdt, "S2" quotes only btceth. */
  function ExampleSnapshot(ask1: real, ask2: real, ask3: real): Snapshot {
    [("S1", map["usdtbtc" := Quote(ask1, 0.00004), "ethusdt" := Quote(ask2, 2500.0)]),
     ("S2", map["btceth" := Quote(ask3, 16.0)])]
  }

  /** The symbol keys of the example hops, lower-cased as the resolver does. */
  lemma ExampleKeys()
    ensures Lower("USDT" + "BTC") == "usdtbtc" && Lower("BTC" + "USDT") == "btcusdt"
    ensures Lower("BTC" + "ETH") == "btceth" && Lower("ETH" + "BTC") == "ethbtc"
    ensures Lower("ETH" + "USDT") == "ethusdt" && Lower("USDT" + "ETH") == "usdteth"
  {
    LowerKey("USDT" + "BTC", "usdtbtc");
    LowerKey("BTC" + "USDT", "btcusdt");
    LowerKey("BTC" + "ETH", "btceth");
    LowerKey("ETH" + "BTC", "ethbtc");
    LowerKey("ETH" + "USDT", "ethusdt");
    LowerKey("USDT" + "ETH", "usdteth");
  }

  lemma LowerKey(s: string, t: string)
    requires |s| == |t| && forall i :: 0 <= i < |s| ==> LowerChar(s[i]) == t[i]
    ensures Lower(s) == t
  {
  }

  /** The hop queries of USDT -> BTC -> ETH -> USDT originating on "S1". */
  lemma ExampleQueries()
    ensures LegQueryAt(ExampleCycle, 0, "S1") == LegQuery("usdtbtc", "btcusdt", true, "S1")
    ensures LegQueryAt(ExampleCycle, 1, "S1") == LegQuery("btceth", "ethbtc", false, "S1")
    ensures LegQueryAt(ExampleCycle, 2, "S1") == LegQuery("ethusdt", "usdteth", true, "S1")
  {
    ExampleKeys();
  }

  /** The exchange loop over a two-exchange snapshot. */
  lemma ChooseOfTwo(snap: Snapshot, q: LegQuery)
    requires |snap| == 2
    ensures ChooseExchange(snap, q) ==
      Consider(Consider(NoChoice, snap[0].0, snap[0].1, q), snap[1].0, snap[1].1, q)
  {
    assert snap[..0] == [] && snap[..2] == snap;
    ChooseExchangeStep(snap, 0, q);
    ChooseExchangeStep(snap, 1, q);
  }

  /** The exchange chosen for each hop of USDT -> BTC -> ETH -> USDT originating on "S1". */
  lemma ExampleChoices(ask1: real, ask2: real, ask3: real)
    ensures var snap := ExampleSnapshot(ask1, ask2, ask3);
      var cycle := ExampleCycle;
      && ChoiceAt(cycle, 0, "S1", snap) == Choice(0.00004, Some("S1"), false)
      && ChoiceAt(cycle, 1, "S1", snap) == Choice(16.0, Some("S2"), false)
      && ChoiceAt(cycle, 2, "S1", snap) == Choice(2500.0, Some("S1"), false)
  {
    var snap := ExampleSnapshot(ask1, ask2, ask3);
    ExampleQueries();
    ChooseOfTwo(snap, LegQuery("usdtbtc", "btcusdt", true, "S1"));
    ChooseOfTwo(snap, LegQuery("btceth", "ethbtc", false, "S1"));
    ChooseOfTwo(snap, LegQuery("ethusdt", "usdteth", true, "S1"));
  }

  /**
   * A worked pass over ExampleSnapshot: the first and last hop trade on
   * "S1", the middle one on "S2", and for any fee the cycle's profit is
   * 0.00004 * 16 * 2500 net of three fees; at the default fee it is an
   * opportunity and the cycle is reported.
   */
  lemma ThreeHopExample(ask1: real, ask2: real, ask3: real, fee: real)
    ensures CycleLegs(ExampleCycle, "S1", ExampleSnapshot(ask1, ask2, ask3)) == [
      Leg("USDT/BTC", 0.00004, Some("S1"), false),
      Leg("BTC/ETH", 16.0, Some("S2"), false),
      Leg("ETH/USDT", 2500.0, Some("S1"), false)]
    ensures CycleProfit(ExampleCycle, "S1", ExampleSnapshot(ask1, ask2, ask3), fee) ==
      1.0 * (0.00004 * (1.0 - fee)) * (16.0 * (1.0 - fee)) * (2500.0 * (1.0 - fee))
    ensures fee == DefaultTransactionFee ==>
      IsOpportunity(CycleProfit(ExampleCycle, "S1", ExampleSnapshot(ask1, ask2, ask3), fee))
    ensures fee == DefaultTransactionFee ==>
      BestOpportunity([ExampleCycle], "S1", ExampleSnapshot(ask1, ask2, ask3), fee) ==
        Opportunity(CycleLegs(ExampleCycle, "S1", ExampleSnapshot(ask1, ask2, ask3)),
          CycleProfit(ExampleCycle, "S1", ExampleSnapshot(ask1, ask2, ask3), fee))
  {
    var snap := ExampleSnapshot(ask1, ask2, ask3);
    var cycle := ExampleCycle;
    ExampleChoices(ask1, ask2, ask3);
    var legs := CycleLegs(cycle, "S1", snap);
    assert legs[0] == Leg("USDT/BTC", 0.00004, Some("S1"), false);
    assert legs[1] == Leg("BTC/ETH", 16.0, Some("S2"), false);
    assert legs[2] == Leg("ETH/USDT", 2500.0, Some("S1"), false);
    assert AllResolved(cycle, 3, "S1", snap);
    ResolvedProfit(cycle, 3, "S1", snap, fee);
    assert NetRateProduct(cycle, 1, "S1", snap, fee) == 1.0 * (0.00004 * (1.0 - fee));
    assert NetRateProduct(cycle, 2, "S1", snap, fee) == 1.0 * (0.00004 * (1.0 - fee)) * (16.0 * (1.0 - fee));
    if fee == DefaultTransactionFee {
      var p := CycleProfit(cycle, "S1", snap, fee);
      assert p > 1.0;
      assert [cycle][0] == cycle && [cycle][..0] == [];
      assert BestUpTo([cycle], 0, "S1", snap, fee) == Opportunity([], 0.0);
      assert BestUpTo([cycle], 1, "S1", snap, fee) == Opportunity(legs, p);
    }
  }
}
