/**
 * The per-exchange quote table (src/utils/exchanges/exchange.py) and the
 * effect the real-time feeds have on it: each update writes the newest best
 * ask and bid of one market under a normalised symbol key.
 */
module Exchange {

  /** Best ask and best bid of one market on one exchange. */
  datatype Quote = Quote(ask: real, bid: real)

  /** ASCII lower-casing of one character. */
  function LowerChar(c: char): (d: char)
    ensures 'A' <= c <= 'Z' ==> d as int == c as int + 32
    ensures !('A' <= c <= 'Z') ==> d == c
  {
    if 'A' <= c <= 'Z' then (c as int + 32) as char else c
  }

  /** `str.lower()` on symbol text: every upper-case letter replaced by its lower-case form. */
  function Lower(s: string): (r: string)
    ensures |r| == |s|
    ensures forall i :: 0 <= i < |s| ==> !('A' <= r[i] <= 'Z')
    ensures forall i :: 0 <= i < |s| && 'A' <= s[i] <= 'Z' ==> r[i] as int == s[i] as int + 32
    ensures forall i :: 0 <= i < |s| && !('A' <= s[i] <= 'Z') ==> r[i] == s[i]
  {
    seq(|s|, i requires 0 <= i < |s| => LowerChar(s[i]))
  }

  /** Lower-casing works character by character, so it distributes over concatenation. */
  lemma LowerConcat(a: string, b: string)
    ensures Lower(a + b) == Lower(a) + Lower(b)
  {
    assert forall i :: 0 <= i < |a + b| ==> Lower(a + b)[i] == (Lower(a) + Lower(b))[i];
  }

  /** `s` with every occurrence of `sep` removed (`str.replace(sep, "")`). */
  function Remove(s: string, sep: char): (r: string)
    ensures sep !in r
    ensures |r| <= |s|
    ensures sep !in s ==> r == s
  {
    if s == [] then []
    else (if s[0] == sep then [] else [s[0]]) + Remove(s[1..], sep)
  }

  lemma {:induction false} RemoveConcat(a: string, b: string, sep: char)
    ensures Remove(a + b, sep) == Remove(a, sep) + Remove(b, sep)
  {
    if a != [] {
      assert (a + b)[1..] == a[1..] + b;
      RemoveConcat(a[1..], b, sep);
    } else {
      assert a + b == b;
    }
  }

  /**
   * The key a feed stores a market under: its exchange symbol with the
   * separator removed and lower-cased ("BTC/ETH" becomes "btceth").
   */
  function FeedKey(symbol: string, sep: char): string {
    Lower(Remove(symbol, sep))
  }

  /** Removing the separator from `b` + sep + `q` gives back `b` + `q`. */
  lemma RemoveSeparator(b: string, q: string, sep: char)
    requires sep !in b && sep !in q
    ensures Remove(b + [sep] + q, sep) == b + q
  {
    RemoveOnlySeparator(sep);
    RemoveConcat(b, [sep], sep);
    RemoveConcat(b + [sep], q, sep);
  }

  lemma RemoveOnlySeparator(sep: char)
    ensures Remove([sep], sep) == []
  {
    var sepOnly: string := [sep];
    assert sepOnly[1..] == [];
  }

  /**
   * A feed writing market `b` + sep + `q` stores it under exactly the key the
   * resolver looks up for the hop from `b` to `q`.
   */
  lemma FeedKeyMatchesLookup(b: string, q: string, sep: char)
    requires sep !in b && sep !in q
    ensures FeedKey(b + [sep] + q, sep) == Lower(b + q)
  {
    RemoveSeparator(b, q, sep);
  }

  /** The table after a sequence of feed writes, applied in order. */
  function Replay(m: map<string, Quote>, writes: seq<(string, Quote)>): map<string, Quote>
  {
    if writes == [] then m
    else Replay(m, writes[..|writes| - 1])[writes[|writes| - 1].0 := writes[|writes| - 1].1]
  }

  /** The last write to a key decides its quote. */
  lemma {:induction false} LastWriteWins(m: map<string, Quote>, writes: seq<(string, Quote)>, i: nat)
    requires i < |writes|
    requires forall j :: i < j < |writes| ==> writes[j].0 != writes[i].0
    ensures writes[i].0 in Replay(m, writes)
    ensures Replay(m, writes)[writes[i].0] == writes[i].1
  {
    var n := |writes|;
    if i < n - 1 {
      var init := writes[..n - 1];
      assert forall j :: i < j < |init| ==> init[j] == writes[j];
      LastWriteWins(m, init, i);
    }
  }

  /** A key no write touches keeps its presence and its quote. */
  lemma {:induction false} UnwrittenKeyUnchanged(m: map<string, Quote>, writes: seq<(string, Quote)>, k: string)
    requires forall j :: 0 <= j < |writes| ==> writes[j].0 != k
    ensures k in Replay(m, writes) <==> k in m
    ensures k in m ==> Replay(m, writes)[k] == m[k]
  {
    if writes != [] {
      var init := writes[..|writes| - 1];
      assert forall j :: 0 <= j < |init| ==> init[j] == writes[j];
      UnwrittenKeyUnchanged(m, init, k);
    }
  }

  /**
   * `ExchangeData`: the quote table of one exchange. `symbolPrices` maps a
   * normalised symbol to its latest quote; `allSymbols`, `currencies` and
   * `feeRate` are held but never read by the resolver.
   */
  class ExchangeData {
    var symbolPrices: map<string, Quote>
    var allSymbols: seq<string>
    var currencies: map<string, string>
    var feeRate: real

    /** A fresh table holds no quotes, no symbols, no currencies and a zero fee. */
    constructor ()
      ensures symbolPrices == map[] && allSymbols == [] && currencies == map[]
      ensures feeRate == 0.0
    {
      symbolPrices := map[];
      allSymbols := [];
      currencies := map[];
      feeRate := 0.0;
    }

    /** `get_symbol_ask`: the stored ask of a symbol the table holds. */
    method GetSymbolAsk(symbol: string) returns (ask: real)
      requires symbol in symbolPrices
      ensures ask == symbolPrices[symbol].ask
    {
      ask := symbolPrices[symbol].ask;
    }

    /** `get_symbol_bid`: the stored bid of a symbol the table holds. */
    method GetSymbolBid(symbol: string) returns (bid: real)
      requires symbol in symbolPrices
      ensures bid == symbolPrices[symbol].bid
    {
      bid := symbolPrices[symbol].bid;
    }

    /** `is_symbol_in_data`: whether the table holds a quote for `symbol`. */
    method IsSymbolInData(symbol: string) returns (present: bool)
      ensures present <==> symbol in symbolPrices
    {
      present := symbol in symbolPrices;
    }

    /**
     * One feed update: `symbol` now maps to `quote`, whether or not it was
     * present before; every other key and every other field is unchanged.
     */
    method SetQuote(symbol: string, quote: Quote)
      modifies this`symbolPrices
      ensures symbolPrices == old(symbolPrices)[symbol := quote]
      ensures symbol in symbolPrices && symbolPrices[symbol] == quote
      ensures forall k :: k != symbol ==>
        (k in symbolPrices <==> k in old(symbolPrices)) &&
        (k in symbolPrices ==> symbolPrices[k] == old(symbolPrices)[k])
    {
      symbolPrices := symbolPrices[symbol := quote];
    }

    /** The message loop of a feed: its writes land in order, the last one per key winning. */
    method ApplyFeed(writes: seq<(string, Quote)>)
      modifies this`symbolPrices
      ensures symbolPrices == Replay(old(symbolPrices), writes)
    {
      for i := 0 to |writes|
        invariant symbolPrices == Replay(old(symbolPrices), writes[..i])
      {
        assert writes[..i + 1][..i] == writes[..i];
        SetQuote(writes[i].0, writes[i].1);
      }
      assert writes[..|writes|] == writes;
    }
  }
}
