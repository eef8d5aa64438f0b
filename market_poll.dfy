/**
 * pump-n-dump/app.go: one poll of the market summaries. The results whose
 * market name contains "BTC" are collected into a map keyed by name, then
 * every entry of the map is inserted with a fresh ID.
 */
module MarketPoll {
  import Text
  import opened PumpModels

  /** One entry of the `result` array, after the type assertions on its fields. */
  datatype Item = Item(marketName: string, openBuyOrders: real, openSellOrders: real,
                       volume: real, timeStamp: string, last: real)

  /** The summary `main` stores for an item: the five fields copied, the ID still the zero value. */
  function ToSummary(it: Item): (s: Summary)
    ensures s.id == "" && s.last == it.last && s.volume == it.volume && s.timeStamp == it.timeStamp
    ensures s.openBuyOrders == it.openBuyOrders && s.openSellOrders == it.openSellOrders
  {
    Summary("", it.last, it.openBuyOrders, it.openSellOrders, it.volume, it.timeStamp)
  }

  /** The filter on the market name. */
  predicate IsBtc(it: Item)
  {
    Text.Contains(it.marketName, "BTC")
  }

  /** `markets` after the loop has seen `items`. */
  function Markets(items: seq<Item>): (r: map<string, Summary>)
    ensures forall k :: k in r ==> Text.Contains(k, "BTC") && r[k].id == ""
  {
    if items == [] then map[]
    else
      var m := Markets(items[..|items| - 1]);
      var it := items[|items| - 1];
      if IsBtc(it) then m[it.marketName := ToSummary(it)] else m
  }

  /** The `for _, v := range result` loop filling `markets`. */
  method BuildMarkets(items: seq<Item>) returns (markets: map<string, Summary>)
    ensures markets == Markets(items)
  {
    markets := map[];
    var i := 0;
    while i < |items|
      invariant 0 <= i <= |items|
      invariant markets == Markets(items[..i])
    {
      assert items[..i + 1][..i] == items[..i];
      if Text.Contains(items[i].marketName, "BTC") {
        markets := markets[items[i].marketName := ToSummary(items[i])];
      }
      i := i + 1;
    }
    assert items[..i] == items;
  }

  /** The map's names are exactly the names of the items that pass the filter. */
  lemma {:induction false} MarketsKeys(items: seq<Item>)
    ensures forall k :: k in Markets(items) <==> exists i :: 0 <= i < |items| && IsBtc(items[i]) && items[i].marketName == k
  {
    if items != [] {
      var init := items[..|items| - 1];
      MarketsKeys(init);
      assert forall i :: 0 <= i < |init| ==> init[i] == items[i];
    }
  }

  /** Every name stored contains "BTC". */
  lemma MarketsAreBtc(items: seq<Item>)
    ensures forall k :: k in Markets(items) ==> Text.Contains(k, "BTC")
  {
    MarketsKeys(items);
  }

  /** A name's entry is the summary of the last passing item with that name: later ones overwrite earlier ones. */
  lemma {:induction false} MarketsLastWins(items: seq<Item>, i: nat)
    requires i < |items| && IsBtc(items[i])
    requires forall j :: i < j < |items| ==> items[j].marketName != items[i].marketName || !IsBtc(items[j])
    ensures items[i].marketName in Markets(items)
    ensures Markets(items)[items[i].marketName] == ToSummary(items[i])
  {
    if i < |items| - 1 {
      var init := items[..|items| - 1];
      assert init[i] == items[i];
      forall j | i < j < |init| ensures init[j].marketName != init[i].marketName || !IsBtc(init[j]) {
        assert init[j] == items[j];
      }
      MarketsLastWins(init, i);
    }
  }

  /** An insertion of one market's summary. */
  datatype Insertion = Insertion(market: string, summary: Summary)

  /**
   * The `for market, summary := range markets` loop. Go visits a map in no set
   * order, so `order` is the visiting order, each name once; `ids` are the
   * IDs `bson.NewObjectId()` hands out; `fails` says which inserts return an
   * error, on which `log.Fatal` ends the process. Returns the inserts made,
   * in order, and whether one failed.
   */
  method InsertAll(markets: map<string, Summary>, order: seq<string>, ids: seq<string>, fails: Insertion -> bool)
    returns (done: seq<Insertion>, failed: bool)
    requires |order| == |markets| && forall k :: k in order ==> k in markets
    requires forall i, j :: 0 <= i < j < |order| ==> order[i] != order[j]
    requires |ids| >= |order|
    ensures |done| <= |order|
    ensures forall i, j :: 0 <= i < j < |done| ==> done[i].market != done[j].market
    ensures forall i :: 0 <= i < |done| ==> order[i] in markets && done[i] == Insertion(order[i], markets[order[i]].(id := ids[i]))
    ensures forall i :: 0 <= i < |done| - 1 ==> !fails(done[i])
    ensures failed <==> |done| >= 1 && fails(done[|done| - 1])
    ensures !failed ==> |done| == |order|
  {
    done, failed := [], false;
    var i := 0;
    while i < |order|
      invariant 0 <= i <= |order| && |done| == i
      invariant forall j :: 0 <= j < i ==> done[j] == Insertion(order[j], markets[order[j]].(id := ids[j])) && !fails(done[j])
    {
      var market := order[i];
      var summary := markets[market].(id := ids[i]);
      done := done + [Insertion(market, summary)];
      if fails(Insertion(market, summary)) {
        return done, true;
      }
      i := i + 1;
    }
  }

  /**
   * With distinct fresh IDs and a visiting order that names each market once,
   * a poll in which no insert fails inserts every stored market exactly once,
   * each with its own ID and otherwise the stored summary.
   */
  lemma OnePerMarket(markets: map<string, Summary>, order: seq<string>, ids: seq<string>, done: seq<Insertion>)
    requires |order| == |markets| && forall k :: k in order ==> k in markets
    requires forall i, j :: 0 <= i < j < |order| ==> order[i] != order[j]
    requires |ids| >= |order| && forall i, j :: 0 <= i < j < |ids| ==> ids[i] != ids[j]
    requires |done| == |order|
    requires forall i :: 0 <= i < |done| ==> done[i] == Insertion(order[i], markets[order[i]].(id := ids[i]))
    ensures forall k :: k in markets <==> exists i :: 0 <= i < |done| && done[i].market == k
    ensures forall i, j :: 0 <= i < j < |done| ==> done[i].market != done[j].market && done[i].summary.id != done[j].summary.id
  {
    OrderCovers(markets, order);
    forall k | k in markets ensures exists i :: 0 <= i < |done| && done[i].market == k {
      var i :| 0 <= i < |order| && order[i] == k;
      assert done[i].market == k;
    }
  }

  /** Distinct names, as many as the map has keys, all of them keys, name every key. */
  lemma OrderCovers(markets: map<string, Summary>, order: seq<string>)
    requires |order| == |markets| && forall k :: k in order ==> k in markets
    requires forall i, j :: 0 <= i < j < |order| ==> order[i] != order[j]
    ensures forall k :: k in markets ==> k in order
  {
    var names := set i | 0 <= i < |order| :: order[i];
    assert names <= markets.Keys;
    DistinctSize(order);
    var rest := markets.Keys - names;
    assert markets.Keys == names + rest && names * rest == {};
    assert |rest| == 0;
  }

  /** A list of distinct names has as many names as its set. */
  lemma {:induction false} DistinctSize(s: seq<string>)
    requires forall i, j :: 0 <= i < j < |s| ==> s[i] != s[j]
    ensures |set i | 0 <= i < |s| :: s[i]| == |s|
  {
    if s != [] {
      var init := s[..|s| - 1];
      DistinctSize(init);
      var a := set i | 0 <= i < |init| :: init[i];
      assert (set i | 0 <= i < |s| :: s[i]) == a + {s[|s| - 1]};
      assert s[|s| - 1] !in a;
    }
  }

  /** One poll: filter the results into `markets`, then insert every entry. */
  method Poll(items: seq<Item>, order: seq<string>, ids: seq<string>, fails: Insertion -> bool)
    returns (done: seq<Insertion>, failed: bool)
    requires |order| == |Markets(items)| && forall k :: k in order ==> k in Markets(items)
    requires forall i, j :: 0 <= i < j < |order| ==> order[i] != order[j]
    requires |ids| >= |order|
    ensures |done| <= |order|
    ensures forall i, j :: 0 <= i < j < |done| ==> done[i].market != done[j].market
    ensures forall i :: 0 <= i < |done| ==> order[i] in Markets(items) && done[i] == Insertion(order[i], Markets(items)[order[i]].(id := ids[i]))
    ensures forall i :: 0 <= i < |done| - 1 ==> !fails(done[i])
    ensures failed <==> |done| >= 1 && fails(done[|done| - 1])
    ensures !failed ==> |done| == |order|
  {
    var markets := BuildMarkets(items);
    done, failed := InsertAll(markets, order, ids, fails);
  }
}
