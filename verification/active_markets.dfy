/** The markets that occur in a list of orders: the map-backed loop of the web server and the
    quadratic scan of histories.c, both against one definition. */
module ActiveMarkets {
  import opened Orders
  import opened Histories

  function MarketOf(o: Order): Market { Market(o.regionId, o.typeId) }

  function Markets(orders: seq<Order>): seq<Market> {
    seq(|orders|, i requires 0 <= i < |orders| => MarketOf(orders[i]))
  }

  /** `found` followed by the elements of `s` that are new, each at its first occurrence. */
  function Distinct<T(==)>(found: seq<T>, s: seq<T>): seq<T> {
    if s == [] then found
    else
      var d := Distinct(found, s[..|s| - 1]);
      if s[|s| - 1] in d then d else d + [s[|s| - 1]]
  }

  ghost predicate NoDuplicates<T>(s: seq<T>) {
    forall i, j :: 0 <= i < j < |s| ==> s[i] != s[j]
  }

  /** The index at which `x` occurs first. */
  ghost function FirstIndex<T>(s: seq<T>, x: T): (k: nat)
    requires x in s
    ensures k < |s| && s[k] == x && x !in s[..k]
  {
    if x in s[..|s| - 1] then FirstIndex(s[..|s| - 1], x) else |s| - 1
  }

  /** Whatever was found before stays in front, duplicates stay out, nothing is left out. */
  lemma {:induction false} DistinctIsSet<T>(found: seq<T>, s: seq<T>)
    requires NoDuplicates(found)
    ensures NoDuplicates(Distinct(found, s))
    ensures found <= Distinct(found, s)
    ensures forall x <- Distinct(found, s) :: x in found + s
    ensures forall x <- found + s :: x in Distinct(found, s)
  {
    if s != [] {
      DistinctIsSet(found, s[..|s| - 1]);
      assert s == s[..|s| - 1] + [s[|s| - 1]];
    }
  }

  lemma {:induction false} DistinctHas<T>(s: seq<T>, x: T)
    ensures x in Distinct([], s) <==> x in s
  {
    DistinctIsSet([], s);
    assert [] + s == s;
  }

  lemma {:induction false} FirstIndexSplits<T>(s: seq<T>, x: T)
    requires x in s
    ensures var n := |s| - 1;
            FirstIndex(s, x) == if x in s[..n] then FirstIndex(s[..n], x) else n
  {
  }

  /** From an empty start, the order is that of the first occurrences. */
  lemma {:induction false} DistinctInFirstOccurrenceOrder<T>(s: seq<T>, i: nat, j: nat)
    requires i < j < |Distinct([], s)|
    ensures Distinct([], s)[i] in s && Distinct([], s)[j] in s
    ensures FirstIndex(s, Distinct([], s)[i]) < FirstIndex(s, Distinct([], s)[j])
  {
    hide FirstIndex;
    var before, d, e := s[..|s| - 1], Distinct([], s[..|s| - 1]), Distinct([], s);
    assert e == if s[|s| - 1] in d then d else d + [s[|s| - 1]];
    hide Distinct;
    DistinctHas(s, e[i]);
    DistinctHas(s, e[j]);
    DistinctHas(before, e[i]);
    DistinctHas(before, e[j]);
    FirstIndexSplits(s, e[i]);
    FirstIndexSplits(s, e[j]);
    assert e[i] == d[i] && d[i] in d;
    if j < |d| {
      DistinctInFirstOccurrenceOrder(before, i, j);
    }
  }

  /** Some order is of that region and that type. */
  ghost predicate Traded(orders: seq<Order>, m: Market) {
    exists i :: 0 <= i < |orders| && orders[i].regionId == m.regionId && orders[i].typeId == m.typeId
  }

  ghost predicate AreActive(ms: seq<Market>, orders: seq<Order>) {
    NoDuplicates(ms) && forall m :: m in ms <==> Traded(orders, m)
  }

  /** The distinct markets of a list of orders are the pairs of region and type its orders name, once each. */
  lemma {:induction false} ActiveExactly(orders: seq<Order>)
    ensures AreActive(Distinct([], Markets(orders)), orders)
  {
    hide Distinct;
    DistinctIsSet([], Markets(orders));
    forall m
      ensures m in Distinct([], Markets(orders)) <==> Traded(orders, m)
    {
      DistinctHas(Markets(orders), m);
      if i :| 0 <= i < |orders| && orders[i].regionId == m.regionId && orders[i].typeId == m.typeId {
        assert Markets(orders)[i] == m;
      }
    }
  }

  /** getActiveMarkets of the web server: a set of what was seen beside the list built so far. */
  method GetActiveMarkets(orders: seq<Order>) returns (activeMarkets: seq<Market>)
    ensures activeMarkets == Distinct([], Markets(orders)) && AreActive(activeMarkets, orders)
  {
    ActiveExactly(orders);
    hide AreActive;
    var activeMarketsMap: set<Market> := {};
    activeMarkets := [];
    for i := 0 to |orders|
      invariant activeMarkets == Distinct([], Markets(orders)[..i])
      invariant forall m :: m in activeMarketsMap <==> m in activeMarkets
    {
      var market := MarketOf(orders[i]);
      assert Markets(orders)[..i + 1][..i] == Markets(orders)[..i];
      if market !in activeMarketsMap {
        activeMarketsMap := activeMarketsMap + {market};
        activeMarkets := activeMarkets + [market];
      }
    }
    assert Markets(orders)[..|orders|] == Markets(orders);
  }

  /** order_fill_active_market_vec: scan the vector for every order, push when nothing matched. */
  method FillActiveMarketVec(marketVec: seq<Market>, orders: seq<Order>) returns (filled: seq<Market>)
    ensures filled == Distinct(marketVec, Markets(orders))
    ensures marketVec == [] ==> AreActive(filled, orders)
  {
    ActiveExactly(orders);
    hide AreActive;
    filled := marketVec;
    for i := 0 to |orders|
      invariant filled == Distinct(marketVec, Markets(orders)[..i])
    {
      assert Markets(orders)[..i + 1][..i] == Markets(orders)[..i];
      var j := 0;
      while j < |filled| && filled[j] != Market(orders[i].regionId, orders[i].typeId)
        invariant 0 <= j <= |filled|
        invariant MarketOf(orders[i]) !in filled[..j]
      {
        j := j + 1;
      }
      assert j == |filled| ==> filled[..j] == filled;
      if j >= |filled| {
        filled := filled + [MarketOf(orders[i])];
      }
    }
    assert Markets(orders)[..|orders|] == Markets(orders);
  }
}
