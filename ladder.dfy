/** The order-book ladder: each side of a snapshot aggregated into price
    levels sorted by price from highest to lowest, the best bid, best ask and
    spread derived from them, and the set of levels the user has expanded. */
module Ladder {
  import opened Wrappers
  import opened Wire
  import opened Decimal

  /** All resting orders of one side at one price. */
  datatype PriceLevel = PriceLevel(price: nat, totalQuantity: nat, orderCount: nat, orders: seq<Order>)

  // ---------------------------------------------------------------------
  // Aggregation of one side into levels
  // ---------------------------------------------------------------------

  /** A level's total quantity, summed from the first order to the last as
      the component's `reduce` does. */
  function TotalQuantity(orders: seq<Order>): (total: nat)
    ensures orders == [] ==> total == 0
    ensures forall i :: 0 <= i < |orders| ==> orders[i].quantity <= total
  {
    if orders == [] then 0
    else
      var init := orders[..|orders| - 1];
      var rest := TotalQuantity(init);
      assert forall i :: 0 <= i < |init| ==> init[i] == orders[i];
      rest + orders[|orders| - 1].quantity
  }

  /** The fold is additive over concatenation, so a level's total is the
      sum of its orders' quantities in any grouping. */
  lemma {:induction false} TotalQuantityAppend(a: seq<Order>, b: seq<Order>)
    ensures TotalQuantity(a + b) == TotalQuantity(a) + TotalQuantity(b)
    decreases |b|
  {
    if b == [] {
      assert a + b == a;
    } else {
      var b' := b[..|b| - 1];
      assert (a + b)[..|a + b| - 1] == a + b';
      TotalQuantityAppend(a, b');
    }
  }

  /** The smallest key of a non-empty key set. */
  function MinKey(keys: set<nat>): (k: nat)
    requires keys != {}
    ensures k in keys && forall j :: j in keys ==> k <= j
  {
    MinKeyExists(keys);
    var k :| k in keys && forall j :: j in keys ==> k <= j;
    k
  }

  lemma MinKeyExists(keys: set<nat>)
    requires keys != {}
    ensures exists k :: k in keys && forall j :: j in keys ==> k <= j
  {
    var k := SmallestKey(keys);
  }

  /** A smallest key, found by removing one key and comparing it with the
      smallest of the rest. */
  lemma {:induction false} SmallestKey(keys: set<nat>) returns (k: nat)
    requires keys != {}
    ensures k in keys && forall j :: j in keys ==> k <= j
    decreases |keys|
  {
    var x :| x in keys;
    var rest := keys - {x};
    k := x;
    if rest != {} {
      var m := SmallestKey(rest);
      k := if x < m then x else m;
    }
    forall j | j in keys
      ensures k <= j
    {
      if j != x {
        assert j in rest;
      }
    }
  }

  /** The keys of a side in ascending order: the order in which
      `Object.entries` lists integer-like property names. */
  function AscendingKeys(keys: set<nat>): (r: seq<nat>)
    ensures |r| == |keys|
    ensures forall i :: 0 <= i < |r| ==> r[i] in keys
    ensures forall k :: k in keys ==> k in r
    ensures forall i, j :: 0 <= i < j < |r| ==> r[i] < r[j]
    decreases keys
  {
    if keys == {} then []
    else
      var k := MinKey(keys);
      var rest := AscendingKeys(keys - {k});
      PrependSmallest(k, keys, rest, [k] + rest);
      [k] + rest
  }

  /** The step of `AscendingKeys`: the smallest key in front of the rest in
      ascending order. */
  lemma PrependSmallest(k: nat, keys: set<nat>, rest: seq<nat>, r: seq<nat>)
    requires k in keys && forall j :: j in keys ==> k <= j
    requires |rest| == |keys - {k}|
    requires forall i :: 0 <= i < |rest| ==> rest[i] in keys - {k}
    requires forall j :: j in keys - {k} ==> j in rest
    requires forall i, j :: 0 <= i < j < |rest| ==> rest[i] < rest[j]
    requires r == [k] + rest
    ensures |r| == |keys|
    ensures forall i :: 0 <= i < |r| ==> r[i] in keys
    ensures forall j :: j in keys ==> j in r
    ensures forall i, j :: 0 <= i < j < |r| ==> r[i] < r[j]
  {
    assert keys == (keys - {k}) + {k} && k !in keys - {k};
    assert |keys| == |keys - {k}| + 1;
    PrependSmallestMembers(k, keys, rest, r);
    PrependSmallestOrder(k, keys, rest, r);
  }

  lemma PrependSmallestMembers(k: nat, keys: set<nat>, rest: seq<nat>, r: seq<nat>)
    requires k in keys
    requires forall i :: 0 <= i < |rest| ==> rest[i] in keys - {k}
    requires forall j :: j in keys - {k} ==> j in rest
    requires r == [k] + rest
    ensures forall i :: 0 <= i < |r| ==> r[i] in keys
    ensures forall j :: j in keys ==> j in r
  {
    forall i | 0 <= i < |r|
      ensures r[i] in keys
    {
      if i > 0 {
        assert r[i] == rest[i - 1];
      }
    }
    forall j | j in keys
      ensures j in r
    {
      if j != k {
        assert j in keys - {k};
        var i :| 0 <= i < |rest| && rest[i] == j;
        assert r[i + 1] == j;
      }
    }
  }

  lemma PrependSmallestOrder(k: nat, keys: set<nat>, rest: seq<nat>, r: seq<nat>)
    requires forall j :: j in keys ==> k <= j
    requires forall i :: 0 <= i < |rest| ==> rest[i] in keys - {k}
    requires forall i, j :: 0 <= i < j < |rest| ==> rest[i] < rest[j]
    requires r == [k] + rest
    ensures forall i, j :: 0 <= i < j < |r| ==> r[i] < r[j]
  {
    forall i, j | 0 <= i < j < |r|
      ensures r[i] < r[j]
    {
      assert r[j] == rest[j - 1];
      assert rest[j - 1] in keys - {k};
      if i > 0 {
        assert r[i] == rest[i - 1];
      }
    }
  }

  /** The level built for one price key. */
  function ToLevel(price: nat, orders: seq<Order>): PriceLevel {
    PriceLevel(price, TotalQuantity(orders), |orders|, orders)
  }

  /** `level` is the one built for its price key of `side`: that key's
      orders unchanged, their summed quantity and their count. */
  predicate IsLevelOf(side: SideBook, level: PriceLevel) {
    && level.price in side
    && level.orders == side[level.price]
    && level.totalQuantity == TotalQuantity(level.orders)
    && level.orderCount == |level.orders|
  }

  /** The prices of a list of levels, in order. */
  function Prices(levels: seq<PriceLevel>): (ps: seq<nat>)
    ensures |ps| == |levels|
    ensures forall i :: 0 <= i < |ps| ==> ps[i] == levels[i].price
  {
    seq(|levels|, i requires 0 <= i < |levels| => levels[i].price)
  }

  /** `Object.entries(side).map(...)`: one level per price key, in entry
      order, before sorting. */
  function UnsortedLevels(side: SideBook): (r: seq<PriceLevel>)
    ensures |r| == |side|
    ensures forall i :: 0 <= i < |r| ==> IsLevelOf(side, r[i])
    ensures Prices(r) == AscendingKeys(side.Keys)
  {
    var keys := AscendingKeys(side.Keys);
    var r := seq(|keys|, i requires 0 <= i < |keys| => ToLevel(keys[i], side[keys[i]]));
    forall i | 0 <= i < |r|
      ensures IsLevelOf(side, r[i]) && r[i].price == keys[i]
    {
      assert r[i] == ToLevel(keys[i], side[keys[i]]);
      ToLevelIsLevelOf(side, keys[i]);
    }
    assert Prices(r) == keys;
    r
  }

  lemma ToLevelIsLevelOf(side: SideBook, price: nat)
    requires price in side
    ensures IsLevelOf(side, ToLevel(price, side[price])) && ToLevel(price, side[price]).price == price
  {
  }

  /** An index of `k` in `s`. */
  function IndexIn(s: seq<nat>, k: nat): (i: nat)
    requires k in s
    ensures i < |s| && s[i] == k
  {
    if s[0] == k then 0 else 1 + IndexIn(s[1..], k)
  }

  ghost predicate DescendingByPrice(levels: seq<PriceLevel>) {
    forall i, j :: 0 <= i < j < |levels| ==> levels[i].price >= levels[j].price
  }

  ghost predicate StrictlyDescendingByPrice(levels: seq<PriceLevel>) {
    forall i, j :: 0 <= i < j < |levels| ==> levels[i].price > levels[j].price
  }

  /** Insert `x` into a list sorted by descending price, in front of every
      level of equal price (so the sort below is stable). */
  function InsertByPrice(x: PriceLevel, levels: seq<PriceLevel>): (r: seq<PriceLevel>)
    requires DescendingByPrice(levels)
    ensures DescendingByPrice(r)
    ensures multiset(r) == multiset(levels) + multiset{x}
    ensures |r| == |levels| + 1
  {
    if levels == [] || x.price >= levels[0].price then [x] + levels
    else
      var rest := InsertByPrice(x, levels[1..]);
      InsertBelowHead(x, levels, rest);
      [levels[0]] + rest
  }

  /** The step of `InsertByPrice` that keeps the head in front. */
  lemma InsertBelowHead(x: PriceLevel, levels: seq<PriceLevel>, rest: seq<PriceLevel>)
    requires levels != [] && x.price < levels[0].price && DescendingByPrice(levels)
    requires DescendingByPrice(rest) && multiset(rest) == multiset(levels[1..]) + multiset{x}
    ensures DescendingByPrice([levels[0]] + rest)
    ensures multiset([levels[0]] + rest) == multiset(levels) + multiset{x}
  {
    assert levels == [levels[0]] + levels[1..];
    forall j | 0 <= j < |rest|
      ensures rest[j].price <= levels[0].price
    {
      assert rest[j] in multiset(rest);
      if rest[j] != x {
        assert rest[j] in levels[1..];
        var k :| 0 <= k < |levels[1..]| && levels[1..][k] == rest[j];
        assert levels[k + 1] == rest[j];
      }
    }
    var r := [levels[0]] + rest;
    forall i, j | 0 <= i < j < |r|
      ensures r[i].price >= r[j].price
    {
      assert r[j] == rest[j - 1];
      if i > 0 {
        assert r[i] == rest[i - 1];
      }
    }
  }

  /** `.sort((a, b) => b.price - a.price)`: highest price first. */
  function SortByPriceDescending(levels: seq<PriceLevel>): (r: seq<PriceLevel>)
    ensures DescendingByPrice(r)
    ensures multiset(r) == multiset(levels)
    ensures |r| == |levels|
  {
    if levels == [] then []
    else
      assert levels == [levels[0]] + levels[1..];
      InsertByPrice(levels[0], SortByPriceDescending(levels[1..]))
  }

  lemma {:induction false} InsertByPriceStrict(x: PriceLevel, levels: seq<PriceLevel>)
    requires StrictlyDescendingByPrice(levels)
    requires forall i :: 0 <= i < |levels| ==> levels[i].price != x.price
    ensures StrictlyDescendingByPrice(InsertByPrice(x, levels))
  {
    if levels != [] && x.price < levels[0].price {
      var tail := levels[1..];
      assert forall i :: 0 <= i < |tail| ==> tail[i] == levels[i + 1];
      InsertByPriceStrict(x, tail);
      StrictBelowHead(x, levels, InsertByPrice(x, tail));
    } else {
      var r := [x] + levels;
      forall i, j | 0 <= i < j < |r|
        ensures r[i].price > r[j].price
      {
        assert r[j] == levels[j - 1];
        if i > 0 {
          assert r[i] == levels[i - 1];
        }
      }
    }
  }

  /** The step of `InsertByPriceStrict` that keeps the head in front. */
  lemma StrictBelowHead(x: PriceLevel, levels: seq<PriceLevel>, rest: seq<PriceLevel>)
    requires levels != [] && x.price < levels[0].price && StrictlyDescendingByPrice(levels)
    requires StrictlyDescendingByPrice(rest) && multiset(rest) == multiset(levels[1..]) + multiset{x}
    ensures StrictlyDescendingByPrice([levels[0]] + rest)
  {
    forall j | 0 <= j < |rest|
      ensures rest[j].price < levels[0].price
    {
      assert rest[j] in multiset(rest);
      if rest[j] != x {
        assert rest[j] in levels[1..];
        var k :| 0 <= k < |levels[1..]| && levels[1..][k] == rest[j];
        assert levels[k + 1] == rest[j];
      }
    }
    var r := [levels[0]] + rest;
    forall i, j | 0 <= i < j < |r|
      ensures r[i].price > r[j].price
    {
      assert r[j] == rest[j - 1];
      if i > 0 {
        assert r[i] == rest[i - 1];
      }
    }
  }

  /** With distinct prices the sort is strictly descending: no two levels
      share a price. */
  lemma {:induction false} SortStrictlyDescending(levels: seq<PriceLevel>)
    requires forall i, j :: 0 <= i < j < |levels| ==> levels[i].price != levels[j].price
    ensures StrictlyDescendingByPrice(SortByPriceDescending(levels))
  {
    if levels != [] {
      var tail := levels[1..];
      SortStrictlyDescending(tail);
      var sorted := SortByPriceDescending(tail);
      forall i | 0 <= i < |sorted|
        ensures sorted[i].price != levels[0].price
      {
        assert sorted[i] in multiset(tail);
      }
      InsertByPriceStrict(levels[0], sorted);
    }
  }

  /** The levels of one side, as the ladder builds `sellLevels` and
      `buyLevels`: one level per price key, holding that key's orders
      unchanged with their summed quantity and their count, sorted by price
      from highest to lowest. */
  function Aggregate(side: SideBook): (r: seq<PriceLevel>)
    ensures |r| == |side|
    ensures StrictlyDescendingByPrice(r)
    ensures forall i :: 0 <= i < |r| ==> IsLevelOf(side, r[i])
    ensures forall k :: k in side ==> k in Prices(r)
  {
    var unsorted := UnsortedLevels(side);
    DistinctPrices(unsorted, side.Keys);
    SortStrictlyDescending(unsorted);
    var r := SortByPriceDescending(unsorted);
    PermutationKeepsLevels(side, unsorted, r);
    r
  }

  /** Levels whose prices are the ascending keys have pairwise distinct
      prices and cover every key. */
  lemma DistinctPrices(levels: seq<PriceLevel>, keys: set<nat>)
    requires Prices(levels) == AscendingKeys(keys)
    ensures forall i, j :: 0 <= i < j < |levels| ==> levels[i].price != levels[j].price
    ensures forall k :: k in keys ==> k in Prices(levels)
  {
    var ps := Prices(levels);
    forall i, j | 0 <= i < j < |levels|
      ensures levels[i].price != levels[j].price
    {
      assert ps[i] < ps[j];
    }
  }

  /** A permutation of levels of `side` holds levels of `side` and the same
      prices. */
  lemma PermutationKeepsLevels(side: SideBook, a: seq<PriceLevel>, b: seq<PriceLevel>)
    requires multiset(a) == multiset(b)
    requires forall i :: 0 <= i < |a| ==> IsLevelOf(side, a[i])
    requires forall k :: k in side ==> k in Prices(a)
    ensures forall i :: 0 <= i < |b| ==> IsLevelOf(side, b[i])
    ensures forall k :: k in side ==> k in Prices(b)
  {
    forall i | 0 <= i < |b|
      ensures IsLevelOf(side, b[i])
    {
      assert b[i] in multiset(a);
      var j :| 0 <= j < |a| && a[j] == b[i];
    }
    forall k | k in side
      ensures k in Prices(b)
    {
      var j := IndexIn(Prices(a), k);
      assert a[j] in multiset(b);
      var i :| 0 <= i < |b| && b[i] == a[j];
      assert Prices(b)[i] == k;
    }
  }

  // ---------------------------------------------------------------------
  // Best bid, best ask, spread
  // ---------------------------------------------------------------------

  /** The price of the first buy level, or 0 when there is none. */
  function BestBid(buyLevels: seq<PriceLevel>): (b: nat)
    ensures |buyLevels| == 0 ==> b == 0
    ensures DescendingByPrice(buyLevels) ==> forall i :: 0 <= i < |buyLevels| ==> buyLevels[i].price <= b
  {
    if |buyLevels| > 0 then buyLevels[0].price else 0
  }

  /** The price of the last sell level, or 0 when there is none. */
  function BestAsk(sellLevels: seq<PriceLevel>): (a: nat)
    ensures |sellLevels| == 0 ==> a == 0
    ensures DescendingByPrice(sellLevels) ==> forall i :: 0 <= i < |sellLevels| ==> a <= sellLevels[i].price
  {
    if |sellLevels| > 0 then sellLevels[|sellLevels| - 1].price else 0
  }

  /** Ask minus bid when both are present; a zero price counts as absent,
      as JavaScript's truthiness test on numbers has it. */
  function Spread(bestBid: nat, bestAsk: nat): (s: int)
    ensures bestBid == 0 || bestAsk == 0 ==> s == 0
    ensures bestBid != 0 && bestAsk != 0 ==> s == bestAsk - bestBid
  {
    if bestAsk != 0 && bestBid != 0 then bestAsk - bestBid else 0
  }

  /** The best bid is the highest buy price of the book, or 0 for an empty
      buy side. */
  lemma BestBidIsHighestBid(buy: SideBook)
    ensures |buy| == 0 ==> BestBid(Aggregate(buy)) == 0
    ensures |buy| > 0 ==> BestBid(Aggregate(buy)) in buy
    ensures forall k :: k in buy ==> k <= BestBid(Aggregate(buy))
  {
    var levels := Aggregate(buy);
    forall k | k in buy
      ensures k <= BestBid(levels)
    {
      var i := IndexIn(Prices(levels), k);
      assert i == 0 || levels[0].price > levels[i].price;
    }
  }

  /** The best ask is the lowest sell price of the book, or 0 for an empty
      sell side. */
  lemma BestAskIsLowestAsk(sell: SideBook)
    ensures |sell| == 0 ==> BestAsk(Aggregate(sell)) == 0
    ensures |sell| > 0 ==> BestAsk(Aggregate(sell)) in sell
    ensures |sell| > 0 ==> forall k :: k in sell ==> BestAsk(Aggregate(sell)) <= k
  {
    var levels := Aggregate(sell);
    forall k | k in sell
      ensures BestAsk(levels) <= k
    {
      var i := IndexIn(Prices(levels), k);
      var last := |levels| - 1;
      assert i == last || levels[i].price > levels[last].price;
    }
  }

  /** What the ladder shows for one snapshot. */
  datatype LadderView = LadderView(
    sellLevels: seq<PriceLevel>,
    buyLevels: seq<PriceLevel>,
    bestBid: nat,
    bestAsk: nat,
    spread: int)

  /** The ladder for one snapshot: each side's aggregated levels, the best
      bid (the highest buy key, or 0 with no buys), the best ask (the lowest
      sell key, or 0 with no sells), and their spread. */
  function Derive(snapshot: Snapshot): (v: LadderView)
    ensures v.sellLevels == Aggregate(snapshot.sellOrders) && v.buyLevels == Aggregate(snapshot.buyOrders)
    ensures |v.sellLevels| == |snapshot.sellOrders| && |v.buyLevels| == |snapshot.buyOrders|
    ensures |snapshot.buyOrders| == 0 ==> v.bestBid == 0
    ensures |snapshot.buyOrders| > 0 ==> v.bestBid in snapshot.buyOrders
    ensures forall k :: k in snapshot.buyOrders ==> k <= v.bestBid
    ensures |snapshot.sellOrders| == 0 ==> v.bestAsk == 0
    ensures |snapshot.sellOrders| > 0 ==> v.bestAsk in snapshot.sellOrders
    ensures forall k :: k in snapshot.sellOrders ==> v.bestAsk <= k
    ensures v.spread == Spread(v.bestBid, v.bestAsk)
  {
    BestBidIsHighestBid(snapshot.buyOrders);
    BestAskIsLowestAsk(snapshot.sellOrders);
    var sellLevels := Aggregate(snapshot.sellOrders);
    var buyLevels := Aggregate(snapshot.buyOrders);
    var bestBid := BestBid(buyLevels);
    var bestAsk := BestAsk(sellLevels);
    LadderView(sellLevels, buyLevels, bestBid, bestAsk, Spread(bestBid, bestAsk))
  }

  /** The spread of a snapshot is the lowest ask minus the highest bid when
      both sides hold a non-zero price, and 0 otherwise. */
  lemma SpreadOfSnapshot(snapshot: Snapshot)
    ensures |snapshot.buyOrders| == 0 || |snapshot.sellOrders| == 0 ==> Derive(snapshot).spread == 0
    ensures 0 !in snapshot.buyOrders && 0 !in snapshot.sellOrders && |snapshot.buyOrders| > 0 && |snapshot.sellOrders| > 0
      ==> Derive(snapshot).spread == Derive(snapshot).bestAsk - Derive(snapshot).bestBid
  {
    BestBidIsHighestBid(snapshot.buyOrders);
    BestAskIsLowestAsk(snapshot.sellOrders);
  }

  /** A book with no resting orders: no levels on either side (each side
      shows its "no orders" row) and best bid, best ask and spread all 0. */
  lemma EmptyBook(snapshot: Snapshot)
    requires |snapshot.buyOrders| == 0 && |snapshot.sellOrders| == 0
    ensures Derive(snapshot) == LadderView([], [], 0, 0, 0)
  {
  }

  /** Two sell orders of quantity 3 and 4 at 101 and one of quantity 5 at
      99 give the level at 101 (quantity 7, two orders) above the level at
      99 (quantity 5, one order), and a best ask of 99. */
  lemma TwoLevelSellSide(a: Order, b: Order, c: Order)
    requires a.quantity == 3 && b.quantity == 4 && c.quantity == 5
    ensures Aggregate(map[101 := [a, b], 99 := [c]])
         == [PriceLevel(101, 7, 2, [a, b]), PriceLevel(99, 5, 1, [c])]
    ensures BestAsk(Aggregate(map[101 := [a, b], 99 := [c]])) == 99
  {
    var side: SideBook := map[101 := [a, b], 99 := [c]];
    TwoKeyLevels(side, 101, 99);
    ScenarioTotals(a, b, c);
  }

  lemma ScenarioTotals(a: Order, b: Order, c: Order)
    requires a.quantity == 3 && b.quantity == 4 && c.quantity == 5
    ensures TotalQuantity([a, b]) == 7 && TotalQuantity([c]) == 5
  {
    assert [a, b][..1] == [a] && [a][..0] == [] && [c][..0] == [];
    assert TotalQuantity([a]) == TotalQuantity([]) + 3;
    assert TotalQuantity([a, b]) == TotalQuantity([a]) + 4;
    assert TotalQuantity([c]) == TotalQuantity([]) + 5;
  }

  /** A side with two price keys gives the higher one's level first. */
  lemma TwoKeyLevels(side: SideBook, high: nat, low: nat)
    requires side.Keys == {high, low} && high > low
    ensures Aggregate(side) == [ToLevel(high, side[high]), ToLevel(low, side[low])]
  {
    LevelsOfTwoKeys(side, high, low, Aggregate(side));
  }

  /** Two levels of a two-key side, strictly descending, are the higher
      key's level and then the lower key's. */
  lemma LevelsOfTwoKeys(side: SideBook, high: nat, low: nat, r: seq<PriceLevel>)
    requires side.Keys == {high, low} && high > low
    requires |r| == |side| && StrictlyDescendingByPrice(r)
    requires forall i :: 0 <= i < |r| ==> IsLevelOf(side, r[i])
    ensures r == [ToLevel(high, side[high]), ToLevel(low, side[low])]
  {
    assert |side.Keys| == 2;
    assert IsLevelOf(side, r[0]) && IsLevelOf(side, r[1]) && r[0].price > r[1].price;
    assert r[0].price == high && r[1].price == low;
    assert r == [r[0], r[1]];
  }

  // ---------------------------------------------------------------------
  // Level keys and the expansion set
  // ---------------------------------------------------------------------

  datatype Side = Buy | Sell

  /** `buy-${price}` / `sell-${price}`: the key a level is expanded under. */
  function LevelKey(side: Side, price: nat): (k: string)
    ensures |k| > 4 && (k[0] == 'b' <==> side == Buy)
    ensures var n := if side == Buy then 4 else 5; k[n - 1] == '-' && k[n..] == NatToDecimal(price)
  {
    (if side == Buy then "buy-" else "sell-") + NatToDecimal(price)
  }

  /** Level keys are collision-free: a key names one side and one price. */
  lemma LevelKeyInjective(side1: Side, price1: nat, side2: Side, price2: nat)
    requires LevelKey(side1, price1) == LevelKey(side2, price2)
    ensures side1 == side2 && price1 == price2
  {
    var key := LevelKey(side1, price1);
    assert (side1 == Buy <==> key[0] == 'b') && (side2 == Buy <==> key[0] == 'b');
    var n := if side1 == Buy then 4 else 5;
    assert key[n..] == NatToDecimal(price1) && key[n..] == NatToDecimal(price2);
    NatToDecimalInjective(price1, price2);
  }

  /** The expansion set with membership of `key` flipped, built as a new
      set. */
  function Toggled(expanded: set<string>, key: string): (r: set<string>)
    ensures key in r <==> key !in expanded
    ensures forall other :: other != key ==> (other in r <==> other in expanded)
  {
    if key in expanded then expanded - {key} else expanded + {key}
  }

  /** Toggling the same key twice restores the set. */
  lemma ToggleTwice(expanded: set<string>, key: string)
    ensures Toggled(Toggled(expanded, key), key) == expanded
  {
  }

  /** Toggling one level leaves every other level, on either side, as it
      was. */
  lemma ToggleLeavesOtherLevels(expanded: set<string>, side: Side, price: nat, otherSide: Side, otherPrice: nat)
    requires side != otherSide || price != otherPrice
    ensures (LevelKey(otherSide, otherPrice) in Toggled(expanded, LevelKey(side, price)))
        == (LevelKey(otherSide, otherPrice) in expanded)
  {
    if LevelKey(otherSide, otherPrice) == LevelKey(side, price) {
      LevelKeyInjective(otherSide, otherPrice, side, price);
    }
  }

  // ---------------------------------------------------------------------
  // The component's state
  // ---------------------------------------------------------------------

  /** The ladder component: the last snapshot that arrived (none before the
      first successful fetch) and the keys of the expanded levels. */
  class OrderBookLadder {
    var data: Option<Snapshot>
    var expandedPrices: set<string>

    constructor ()
      ensures data == None && expandedPrices == {}
    {
      data := None;
      expandedPrices := {};
    }

    /** One poll. `response` is the decoded snapshot, or None when the
        request or the decoding failed; a failure keeps the last snapshot. */
    method FetchData(response: Option<Snapshot>)
      modifies this`data
      ensures data == if response.Some? then response else old(data)
      ensures expandedPrices == old(expandedPrices)
    {
      if response.Some? {
        data := response;
      }
    }

    /** Flip one level's expansion by replacing the set with a changed copy. */
    method ToggleExpand(priceKey: string)
      modifies this`expandedPrices
      ensures expandedPrices == Toggled(old(expandedPrices), priceKey)
      ensures data == old(data)
    {
      var newSet := expandedPrices;
      if priceKey in newSet {
        newSet := newSet - {priceKey};
      } else {
        newSet := newSet + {priceKey};
      }
      expandedPrices := newSet;
    }

    /** Whether the level of `side` at `price` shows its orders (and the
        up arrow): its key is in the expansion set. */
    function IsExpanded(side: Side, price: nat): (r: bool)
      reads this
      ensures r <==> LevelKey(side, price) in expandedPrices
    {
      LevelKey(side, price) in expandedPrices
    }

    /** A click on a level row: toggles that level's key. The clicked level
        flips between shown and hidden, and every other level, on either
        side, stays as it was. */
    method ToggleLevel(side: Side, price: nat)
      modifies this`expandedPrices
      ensures IsExpanded(side, price) == !old(IsExpanded(side, price))
      ensures forall otherSide: Side, otherPrice: nat ::
        (otherSide != side || otherPrice != price) ==>
        IsExpanded(otherSide, otherPrice) == old(IsExpanded(otherSide, otherPrice))
      ensures data == old(data)
    {
      ToggleExpand(LevelKey(side, price));
      forall otherSide: Side, otherPrice: nat | otherSide != side || otherPrice != price
        ensures IsExpanded(otherSide, otherPrice) == old(IsExpanded(otherSide, otherPrice))
      {
        ToggleLeavesOtherLevels(old(expandedPrices), side, price, otherSide, otherPrice);
      }
    }

    /** What is rendered: None while loading, otherwise the derived ladder. */
    function View(): (v: Option<LadderView>)
      reads this
      ensures v.None? <==> data.None?
      ensures data.Some? ==> v == Some(Derive(data.value))
    {
      match data
      case None => None
      case Some(snapshot) => Some(Derive(snapshot))
    }
  }
}
