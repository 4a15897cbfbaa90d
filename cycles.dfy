/**
 * The currency graph builder and the cycle enumerator of src/triarb.py
 * (`get_arbitrage_cycles`): tickers quoted against the US dollar are
 * skipped, every other "BASE/QUOTE" ticker joins its two currencies in both
 * directions, and the bounded simple cycles of that graph are rotated to
 * start at the anchor currency.
 *
 * The bounded cycle search itself belongs to a graph library and is not
 * part of this model: its output is an input here, `raw`, constrained to
 * simple cycles over the built edges no longer than the length bound.
 */
module Cycles {

  import opened Graph

  type Edge = (Currency, Currency)

  predicate StartsWith(s: string, prefix: string) {
    |prefix| <= |s| && s[..|prefix|] == prefix
  }

  predicate EndsWith(s: string, suffix: string) {
    |suffix| <= |s| && s[|s| - |suffix|..] == suffix
  }

  /** The four-way test of the ticker loop: a ticker quoted against the dollar is skipped. */
  predicate IsDollarTicker(t: string) {
    EndsWith(t, "/USD") || StartsWith(t, "USD/") || EndsWith(t, "USD4") || EndsWith(t, "USD")
  }

  /** The "/USD" suffix test is subsumed by the "USD" one: three tests decide. */
  lemma DollarTickerRule(t: string)
    ensures IsDollarTicker(t) <==> StartsWith(t, "USD/") || EndsWith(t, "USD") || EndsWith(t, "USD4")
  {
    if EndsWith(t, "/USD") {
      assert t[|t| - 3..] == t[|t| - 4..][1..];
    }
  }

  /** Position of the first `c` in `s`. */
  function FirstIndex(s: string, c: char): (k: nat)
    requires c in s
    ensures k < |s| && s[k] == c && c !in s[..k]
  {
    if s[0] == c then 0 else 1 + FirstIndex(s[1..], c)
  }

  /** `sep.join(parts)`: the parts with one separator between neighbours. */
  function Join(parts: seq<string>, sep: char): string
    requires |parts| >= 1
  {
    if |parts| == 1 then parts[0] else parts[0] + [sep] + Join(parts[1..], sep)
  }

  /** `str.split(sep)`: the pieces of `s` between occurrences of `sep`, which join back to `s`. */
  function Split(s: string, sep: char): (parts: seq<string>)
    ensures |parts| >= 1
    ensures |parts| >= 2 <==> sep in s
    ensures forall i :: 0 <= i < |parts| ==> sep !in parts[i]
    ensures Join(parts, sep) == s
    decreases |s|
  {
    if sep !in s then [s]
    else
      var k := FirstIndex(s, sep);
      var rest := Split(s[k + 1..], sep);
      assert ([s[..k]] + rest)[1..] == rest;
      assert s == s[..k] + [sep] + s[k + 1..];
      [s[..k]] + rest
  }

  /** A joined string begins with its first part, followed by the end or by the separator. */
  lemma JoinHead(parts: seq<string>, sep: char)
    requires |parts| >= 1
    ensures StartsWith(Join(parts, sep), parts[0])
    ensures |Join(parts, sep)| == |parts[0]| || Join(parts, sep)[|parts[0]|] == sep
  {
    if |parts| > 1 {
      var j := Join(parts, sep);
      assert j == parts[0] + [sep] + Join(parts[1..], sep);
      assert j[..|parts[0]|] == parts[0];
    }
  }

  /** Splitting a separator-free base and quote joined by the separator gives them back. */
  lemma SplitJoined(b: string, q: string, sep: char)
    requires sep !in b && sep !in q
    ensures Split(b + [sep] + q, sep) == [b, q]
  {
    var s := b + [sep] + q;
    assert s[|b|] == sep;
    assert s[..|b|] == b;
    var k := FirstIndex(s, sep);
    assert k == |b|;
    assert s[k + 1..] == q;
  }

  /** What the ticker loop does with one ticker. */
  datatype TickerKind =
    | Skipped                              // quoted against the dollar
    | NoSeparator                          // `ticker_parts[1]` raises IndexError
    | Pair(base: Currency, quote: Currency)

  function ClassifyTicker(t: string): (k: TickerKind)
    ensures k.Skipped? <==> IsDollarTicker(t)
    ensures k.NoSeparator? <==> !IsDollarTicker(t) && '/' !in t
    ensures k.Pair? ==> '/' !in k.base && '/' !in k.quote && StartsWith(t, k.base + "/" + k.quote)
    ensures k.Pair? ==> var n := |k.base| + 1 + |k.quote|; |t| == n || t[n] == '/'
  {
    if IsDollarTicker(t) then Skipped
    else
      var parts := Split(t, '/');
      if |parts| < 2 then NoSeparator
      else
        LeadingPair(parts, '/');
        Pair(parts[0], parts[1])
  }

  /**
   * Parts joined by `sep` begin with the first two of them and `sep`
   * between, followed by the end or by `sep`.
   */
  lemma LeadingPair(parts: seq<string>, sep: char)
    requires |parts| >= 2
    ensures StartsWith(Join(parts, sep), parts[0] + [sep] + parts[1])
    ensures var n := |parts[0]| + 1 + |parts[1]|;
      |Join(parts, sep)| == n || Join(parts, sep)[n] == sep
  {
    var j := Join(parts, sep);
    var rest := Join(parts[1..], sep);
    assert j == parts[0] + [sep] + rest;
    JoinHead(parts[1..], sep);
    var n := |parts[0]| + 1 + |parts[1]|;
    assert j[..n] == parts[0] + [sep] + rest[..|parts[1]|];
    if |rest| > |parts[1]| {
      assert j[n] == rest[|parts[1]|];
    }
  }

  /** A separator-free "BASE/QUOTE" ticker not quoted against the dollar is the pair (BASE, QUOTE). */
  lemma ClassifyPlainTicker(b: Currency, q: Currency)
    requires '/' !in b && '/' !in q && !IsDollarTicker(b + "/" + q)
    ensures ClassifyTicker(b + "/" + q) == Pair(b, q)
  {
    SplitJoined(b, q, '/');
  }

  /** The two directed edges one ticker adds: both directions of its pair, or none. */
  function TickerEdges(t: string): set<Edge> {
    match ClassifyTicker(t)
    case Pair(b, q) => {(b, q), (q, b)}
    case _ => {}
  }

  /** Edges added by one exchange's tickers. */
  function ListEdges(ts: seq<string>): set<Edge> {
    if ts == [] then {} else ListEdges(ts[..|ts| - 1]) + TickerEdges(ts[|ts| - 1])
  }

  /** Edges added by every exchange's tickers, exchanges in order. */
  function GraphEdges(tickers: seq<(string, seq<string>)>): set<Edge> {
    if tickers == [] then {}
    else GraphEdges(tickers[..|tickers| - 1]) + ListEdges(tickers[|tickers| - 1].1)
  }

  predicate MalformedIn(ts: seq<string>) {
    exists j :: 0 <= j < |ts| && ClassifyTicker(ts[j]).NoSeparator?
  }

  /** Some exchange lists a ticker that is not skipped yet has no "/". */
  predicate HasMalformed(tickers: seq<(string, seq<string>)>) {
    exists i :: 0 <= i < |tickers| && MalformedIn(tickers[i].1)
  }

  /** Ticker kind `k` is the pair of `a` and `b`, in either order. */
  predicate JoinsPair(k: TickerKind, a: Currency, b: Currency) {
    k == Pair(a, b) || k == Pair(b, a)
  }

  lemma TickerEdgesRule(t: string, a: Currency, b: Currency)
    ensures (a, b) in TickerEdges(t) <==> JoinsPair(ClassifyTicker(t), a, b)
  {
  }

  lemma {:induction false} ListEdgesSource(ts: seq<string>, a: Currency, b: Currency)
    ensures (a, b) in ListEdges(ts) <==>
      exists j :: 0 <= j < |ts| && JoinsPair(ClassifyTicker(ts[j]), a, b)
  {
    if ts != [] {
      var n := |ts|;
      var init, last := ts[..n - 1], ts[n - 1];
      ListEdgesSource(init, a, b);
      TickerEdgesRule(last, a, b);
      assert ListEdges(ts) == ListEdges(init) + TickerEdges(last);
      TickerListSnoc(ts, init, a, b);
    }
  }

  /**
   * Some ticker of `ts` joins the pair exactly when one of `init`, the
   * tickers before the last, does or the last one does.
   */
  lemma TickerListSnoc(ts: seq<string>, init: seq<string>, a: Currency, b: Currency)
    requires |ts| == |init| + 1 && forall j :: 0 <= j < |init| ==> init[j] == ts[j]
    ensures (exists j :: 0 <= j < |ts| && JoinsPair(ClassifyTicker(ts[j]), a, b)) <==>
      (exists j :: 0 <= j < |init| && JoinsPair(ClassifyTicker(init[j]), a, b)) ||
      JoinsPair(ClassifyTicker(ts[|init|]), a, b)
  {
  }

  /**
   * The graph holds the edge a -> b exactly when some exchange lists a
   * ticker that is the pair (a, b) or the pair (b, a); skipped and malformed
   * tickers add nothing.
   */
  lemma {:induction false} GraphEdgeSource(tickers: seq<(string, seq<string>)>, a: Currency, b: Currency)
    ensures (a, b) in GraphEdges(tickers) <==>
      exists i, j :: 0 <= i < |tickers| && 0 <= j < |tickers[i].1| &&
        JoinsPair(ClassifyTicker(tickers[i].1[j]), a, b)
  {
    if tickers != [] {
      var n := |tickers|;
      var init, last := tickers[..n - 1], tickers[n - 1].1;
      GraphEdgeSource(init, a, b);
      ListEdgesSource(last, a, b);
      assert GraphEdges(tickers) == GraphEdges(init) + ListEdges(last);
      if (a, b) in GraphEdges(init) {
        var i, j :| 0 <= i < |init| && 0 <= j < |init[i].1| &&
          JoinsPair(ClassifyTicker(init[i].1[j]), a, b);
        assert tickers[i] == init[i];
      } else if (a, b) in ListEdges(last) {
        var j :| 0 <= j < |last| && JoinsPair(ClassifyTicker(last[j]), a, b);
        assert tickers[n - 1].1[j] == last[j];
      } else {
        forall i, j | 0 <= i < n && 0 <= j < |tickers[i].1|
          ensures !JoinsPair(ClassifyTicker(tickers[i].1[j]), a, b)
        {
          if i < n - 1 {
            assert tickers[i] == init[i];
          }
        }
      }
    }
  }

  /** Every edge is inserted with its reverse: the graph is symmetric. */
  lemma GraphSymmetric(tickers: seq<(string, seq<string>)>, a: Currency, b: Currency)
    ensures (a, b) in GraphEdges(tickers) <==> (b, a) in GraphEdges(tickers)
  {
    GraphEdgeSource(tickers, a, b);
    GraphEdgeSource(tickers, b, a);
  }

  datatype Outcome<T> =
    | Success(value: T)
    | MissingSeparator(ticker: string)   // the IndexError of `ticker_parts[1]`
  {
    predicate IsFailure() { MissingSeparator? }

    function PropagateFailure<U>(): Outcome<U>
      requires MissingSeparator?
    {
      MissingSeparator(ticker)
    }

    function Extract(): T
      requires Success?
    {
      value
    }
  }

  /**
   * The ticker loop for one exchange: two edges per usable ticker, added to
   * `graph`; a ticker that is neither skipped nor splittable stops it.
   */
  method AddListEdges(graph: set<Edge>, ts: seq<string>) returns (r: Outcome<set<Edge>>)
    ensures r.Success? <==> !MalformedIn(ts)
    ensures r.Success? ==> r.value == graph + ListEdges(ts)
    ensures r.MissingSeparator? ==> ClassifyTicker(r.ticker).NoSeparator? && r.ticker in ts
  {
    var g := graph;
    for j := 0 to |ts|
      invariant g == graph + ListEdges(ts[..j])
      invariant !MalformedIn(ts[..j])
    {
      var ticker := ts[j];
      assert ts[..j + 1][..j] == ts[..j] && ts[..j + 1][j] == ticker;
      if IsDollarTicker(ticker) {
        // skipped
      } else {
        var parts := Split(ticker, '/');
        if |parts| < 2 {
          return MissingSeparator(ticker);
        }
        var base, quote := parts[0], parts[1];
        g := g + {(base, quote)};
        g := g + {(quote, base)};
      }
      assert ListEdges(ts[..j + 1]) == ListEdges(ts[..j]) + TickerEdges(ticker);
      var done := ts[..j + 1];
      assert !MalformedIn(done) by {
        forall j' | 0 <= j' < j + 1
          ensures !ClassifyTicker(done[j']).NoSeparator?
        {
          if j' < j { assert done[j'] == ts[..j][j']; }
        }
      }
    }
    assert ts[..|ts|] == ts;
    return Success(g);
  }

  /**
   * The graph-building loops: every exchange's tickers in order, two edges
   * per usable ticker; a ticker that is neither skipped nor splittable stops
   * the build.
   */
  method BuildGraph(tickers: seq<(string, seq<string>)>) returns (r: Outcome<set<Edge>>)
    ensures r.Success? <==> !HasMalformed(tickers)
    ensures r.Success? ==> r.value == GraphEdges(tickers)
    ensures r.MissingSeparator? ==>
      ClassifyTicker(r.ticker).NoSeparator? &&
      exists i :: 0 <= i < |tickers| && r.ticker in tickers[i].1
  {
    var graph: set<Edge> := {};
    for i := 0 to |tickers|
      invariant graph == GraphEdges(tickers[..i])
      invariant !HasMalformed(tickers[..i])
    {
      var ts := tickers[i].1;
      var added := AddListEdges(graph, ts);
      if added.MissingSeparator? {
        assert MalformedIn(tickers[i].1);
        return MissingSeparator(added.ticker);
      }
      graph := added.value;
      var next := tickers[..i + 1];
      assert next[..i] == tickers[..i] && next[i] == tickers[i];
      assert GraphEdges(next) == GraphEdges(tickers[..i]) + ListEdges(ts);
      assert !HasMalformed(next) by {
        forall i' | 0 <= i' < i + 1
          ensures !MalformedIn(next[i'].1)
        {
          if i' < i { assert next[i'] == tickers[..i][i']; }
        }
      }
    }
    assert tickers[..|tickers|] == tickers;
    return Success(graph);
  }

  /** Rotations, in rotation order, whose first currency is `base`. */
  function KeepAnchored(rotations: seq<seq<Currency>>, base: Currency): (r: seq<seq<Currency>>)
    requires forall i :: 0 <= i < |rotations| ==> |rotations[i]| > 0
    ensures forall i :: 0 <= i < |r| ==> r[i] in rotations && r[i][0] == base
  {
    if rotations == [] then []
    else
      var last := rotations[|rotations| - 1];
      KeepAnchored(rotations[..|rotations| - 1], base) + (if last[0] == base then [last] else [])
  }

  lemma KeepAnchoredStep(rotations: seq<seq<Currency>>, m: nat, base: Currency)
    requires m < |rotations|
    requires forall i :: 0 <= i < |rotations| ==> |rotations[i]| > 0
    ensures KeepAnchored(rotations[..m + 1], base) ==
      KeepAnchored(rotations[..m], base) + (if rotations[m][0] == base then [rotations[m]] else [])
  {
    assert rotations[..m + 1][..m] == rotations[..m];
  }

  lemma AnchoredCyclesStep(raw: seq<seq<Currency>>, k: nat, base: Currency, minCycle: int, maxCycle: int)
    requires k < |raw|
    requires forall i :: 0 <= i < |raw| ==> |raw[i]| > 0
    ensures AnchoredCycles(raw[..k + 1], base, minCycle, maxCycle) ==
      AnchoredCycles(raw[..k], base, minCycle, maxCycle) + CycleContribution(raw[k], base, minCycle, maxCycle)
  {
    assert raw[..k + 1][..k] == raw[..k];
  }

  /** What one raw cycle contributes: nothing outside the length bounds, else its anchored rotations. */
  function CycleContribution(cycle: seq<Currency>, base: Currency, minCycle: int, maxCycle: int): seq<seq<Currency>>
    requires |cycle| > 0
  {
    if |cycle| > maxCycle || |cycle| < minCycle then []
    else KeepAnchored(FindAllRotations(cycle), base)
  }

  /** The anchored cycles of `raw`, raw cycle by raw cycle, duplicates kept. */
  function AnchoredCycles(raw: seq<seq<Currency>>, base: Currency, minCycle: int, maxCycle: int): seq<seq<Currency>>
    requires forall i :: 0 <= i < |raw| ==> |raw[i]| > 0
  {
    if raw == [] then []
    else
      AnchoredCycles(raw[..|raw| - 1], base, minCycle, maxCycle) +
      CycleContribution(raw[|raw| - 1], base, minCycle, maxCycle)
  }

  /** The rotation loop: append, in order, the rotations whose first currency is `base`. */
  method AppendAnchored(cycles: seq<seq<Currency>>, rotations: seq<seq<Currency>>, base: Currency)
    returns (r: seq<seq<Currency>>)
    requires forall i :: 0 <= i < |rotations| ==> |rotations[i]| > 0
    ensures r == cycles + KeepAnchored(rotations, base)
  {
    r := cycles;
    for m := 0 to |rotations|
      invariant r == cycles + KeepAnchored(rotations[..m], base)
    {
      KeepAnchoredStep(rotations, m, base);
      if rotations[m][0] == base {
        r := r + [rotations[m]];
      }
    }
    assert rotations[..|rotations|] == rotations;
  }

  /**
   * The cycle loop of `get_arbitrage_cycles`: for each raw cycle whose
   * length is within bounds, append those of its rotations that start at the
   * anchor `base`, in rotation order.
   */
  method AnchorCycles(raw: seq<seq<Currency>>, base: Currency, minCycle: int, maxCycle: int)
    returns (cycles: seq<seq<Currency>>)
    requires forall i :: 0 <= i < |raw| ==> |raw[i]| > 0
    ensures cycles == AnchoredCycles(raw, base, minCycle, maxCycle)
  {
    cycles := [];
    for k := 0 to |raw|
      invariant cycles == AnchoredCycles(raw[..k], base, minCycle, maxCycle)
    {
      var cycle := raw[k];
      AnchoredCyclesStep(raw, k, base, minCycle, maxCycle);
      if |cycle| > maxCycle || |cycle| < minCycle {
        continue;
      }
      var rotations := FindAllRotations(cycle);
      cycles := AppendAnchored(cycles, rotations, base);
    }
    assert raw[..|raw|] == raw;
  }

  /**
   * Among the rotations of a simple cycle, exactly the one at the anchor's
   * position is kept; a cycle without the anchor contributes nothing.
   */
  lemma AnchoredRotationsOfSimpleCycle(cycle: seq<Currency>, base: Currency)
    requires |cycle| > 0 && Distinct(cycle)
    ensures base !in cycle ==> KeepAnchored(FindAllRotations(cycle), base) == []
    ensures forall i :: 0 <= i < |cycle| && cycle[i] == base ==>
      KeepAnchored(FindAllRotations(cycle), base) == [Rotate(cycle, i)]
  {
    var rots := FindAllRotations(cycle);
    assert rots[..|cycle|] == rots && cycle[..|cycle|] == cycle;
    if base !in cycle {
      KeepAnchoredAbsent(cycle, base, |cycle|);
    }
    forall i | 0 <= i < |cycle| && cycle[i] == base
      ensures KeepAnchored(rots, base) == [Rotate(cycle, i)]
    {
      assert forall j :: 0 <= j < |cycle| && j != i ==> cycle[j] != cycle[i];
      KeepAnchoredPresent(cycle, base, |cycle|, i);
    }
  }

  /** No rotation among the first `m` starts at an anchor absent from the first `m` positions. */
  lemma {:induction false} KeepAnchoredAbsent(cycle: seq<Currency>, base: Currency, m: nat)
    requires |cycle| > 0 && m <= |cycle| && base !in cycle[..m]
    ensures KeepAnchored(FindAllRotations(cycle)[..m], base) == []
  {
    if m > 0 {
      var rots := FindAllRotations(cycle);
      assert cycle[..m] == cycle[..m - 1] + [cycle[m - 1]];
      KeepAnchoredAbsent(cycle, base, m - 1);
      KeepAnchoredStep(rots, m - 1, base);
      assert rots[m - 1][0] == cycle[m - 1];
    }
  }

  /** Among the first `m` rotations, exactly the one at the anchor's only position `i` is kept. */
  lemma {:induction false} KeepAnchoredPresent(cycle: seq<Currency>, base: Currency, m: nat, i: nat)
    requires i < m <= |cycle| && cycle[i] == base
    requires forall j :: 0 <= j < m && j != i ==> cycle[j] != base
    ensures KeepAnchored(FindAllRotations(cycle)[..m], base) == [Rotate(cycle, i)]
  {
    var rots := FindAllRotations(cycle);
    KeepAnchoredStep(rots, m - 1, base);
    assert rots[m - 1] == Rotate(cycle, m - 1) && rots[m - 1][0] == cycle[m - 1];
    if i == m - 1 {
      assert base !in cycle[..m - 1] by {
        forall j | 0 <= j < m - 1
          ensures cycle[j] != base
        {
        }
      }
      KeepAnchoredAbsent(cycle, base, m - 1);
    } else {
      KeepAnchoredPresent(cycle, base, m - 1, i);
    }
  }

  /** Every anchored cycle starts at the anchor, is within the length bounds, and is a simple cycle of the graph. */
  lemma {:induction false} AnchoredCyclesShape(
    raw: seq<seq<Currency>>, base: Currency, minCycle: int, maxCycle: int, edges: set<Edge>)
    requires forall i :: 0 <= i < |raw| ==> |raw[i]| > 0 && IsSimpleCycleIn(raw[i], edges)
    ensures forall c :: c in AnchoredCycles(raw, base, minCycle, maxCycle) ==>
      |c| > 0 && c[0] == base && minCycle <= |c| <= maxCycle && IsSimpleCycleIn(c, edges)
  {
    if raw != [] {
      var n := |raw|;
      var init, cycle := raw[..n - 1], raw[n - 1];
      assert forall i :: 0 <= i < |init| ==> init[i] == raw[i];
      AnchoredCyclesShape(init, base, minCycle, maxCycle, edges);
      ContributionShape(cycle, base, minCycle, maxCycle, edges);
      assert AnchoredCycles(raw, base, minCycle, maxCycle) ==
        AnchoredCycles(init, base, minCycle, maxCycle) + CycleContribution(cycle, base, minCycle, maxCycle);
    }
  }

  /** The rotations one simple cycle contributes start at the anchor, are within the bounds, and are simple cycles. */
  lemma ContributionShape(cycle: seq<Currency>, base: Currency, minCycle: int, maxCycle: int, edges: set<Edge>)
    requires IsSimpleCycleIn(cycle, edges)
    ensures forall c :: c in CycleContribution(cycle, base, minCycle, maxCycle) ==>
      |c| > 0 && c[0] == base && minCycle <= |c| <= maxCycle && IsSimpleCycleIn(c, edges)
  {
    var rots := FindAllRotations(cycle);
    forall c | c in CycleContribution(cycle, base, minCycle, maxCycle)
      ensures |c| > 0 && c[0] == base && minCycle <= |c| <= maxCycle && IsSimpleCycleIn(c, edges)
    {
      var i :| 0 <= i < |rots| && rots[i] == c;
      RotationIsSimpleCycle(cycle, edges, i);
    }
  }

  /** How many raw cycles are within the length bounds and pass through the anchor. */
  function CountAnchorable(raw: seq<seq<Currency>>, base: Currency, minCycle: int, maxCycle: int): nat {
    if raw == [] then 0
    else
      var c := raw[|raw| - 1];
      CountAnchorable(raw[..|raw| - 1], base, minCycle, maxCycle) +
      (if minCycle <= |c| <= maxCycle && base in c then 1 else 0)
  }

  /**
   * Each raw cycle within bounds that passes through the anchor contributes
   * exactly one anchored cycle, and no other raw cycle contributes any: the
   * output is never deduplicated.
   */
  lemma {:induction false} AnchoredCyclesCount(raw: seq<seq<Currency>>, base: Currency, minCycle: int, maxCycle: int)
    requires forall i :: 0 <= i < |raw| ==> |raw[i]| > 0 && Distinct(raw[i])
    ensures |AnchoredCycles(raw, base, minCycle, maxCycle)| == CountAnchorable(raw, base, minCycle, maxCycle)
  {
    if raw != [] {
      var n := |raw|;
      var init, c := raw[..n - 1], raw[n - 1];
      assert forall i :: 0 <= i < |init| ==> init[i] == raw[i];
      AnchoredCyclesCount(init, base, minCycle, maxCycle);
      ContributionCount(c, base, minCycle, maxCycle);
    }
  }

  /** One raw cycle contributes one anchored cycle if it is within bounds and passes through the anchor, else none. */
  lemma ContributionCount(c: seq<Currency>, base: Currency, minCycle: int, maxCycle: int)
    requires |c| > 0 && Distinct(c)
    ensures |CycleContribution(c, base, minCycle, maxCycle)| == if minCycle <= |c| <= maxCycle && base in c then 1 else 0
  {
    if minCycle <= |c| <= maxCycle {
      AnchoredRotationsOfSimpleCycle(c, base);
      if base in c {
        var i :| 0 <= i < |c| && c[i] == base;
      }
    }
  }

  /** The defaults of the `min_cycle` and `max_cycle` parameters. */
  const DefaultMinCycle: int := 3
  const DefaultMaxCycle: int := 5

  /**
   * `get_arbitrage_cycles`: build the graph, then anchor the cycles of the
   * bounded simple-cycle search over it, which `raw` stands for.
   */
  method GetArbitrageCycles(
    base: Currency, tickers: seq<(string, seq<string>)>, raw: seq<seq<Currency>>,
    minCycle: int, maxCycle: int)
    returns (r: Outcome<seq<seq<Currency>>>)
    requires forall i :: 0 <= i < |raw| ==>
      0 < |raw[i]| <= maxCycle && IsSimpleCycleIn(raw[i], GraphEdges(tickers))
    ensures r.Success? <==> !HasMalformed(tickers)
    ensures r.Success? ==> r.value == AnchoredCycles(raw, base, minCycle, maxCycle)
  {
    // On success the graph is `GraphEdges(tickers)`, the edge set `raw` ranges over.
    var graph :- BuildGraph(tickers);
    var cycles := AnchorCycles(raw, base, minCycle, maxCycle);
    return Success(cycles);
  }
}
