/** Depth maps of an order book: price level -> aggregate resting quantity.
    JavaScript keys the levels by the price's string form; here a level is keyed
    by the integer price itself. */
module Depth {

  type DepthMap = map<int, int>

  /** Quantity at a level, reading a missing level as zero (the source's
      `if (!depthMap[price]) depthMap[price] = 0`). */
  function Level(d: DepthMap, price: int): int
  {
    if price in d then d[price] else 0
  }

  /** Every stored level holds a strictly positive quantity. */
  predicate Positive(d: DepthMap)
  {
    forall p :: p in d ==> d[p] > 0
  }

  /** `updateDepth`: add `qty` to the level at `price` and delete the level when
      the result is zero or less. */
  function UpdateDepth(d: DepthMap, price: int, qty: int): (r: DepthMap)
    ensures price in r <==> Level(d, price) + qty > 0
    ensures Level(r, price) == if Level(d, price) + qty > 0 then Level(d, price) + qty else 0
    ensures forall p {:trigger Level(r, p)} :: p != price ==> Level(r, p) == Level(d, p)
    ensures Positive(d) ==> Positive(r)
  {
    var v := Level(d, price) + qty;
    if v <= 0 then d - {price} else d[price := v]
  }

  /** A non-empty finite set of prices has a least element. */
  lemma {:induction false} MinExists(s: set<int>)
    requires s != {}
    ensures exists m :: m in s && forall x :: x in s ==> m <= x
    decreases |s|
  {
    if forall x :: x !in s {
      assert false;
    }
    var y :| y in s;
    if s == {y} {
      assert forall x :: x in s ==> y <= x;
    } else {
      var s' := s - {y};
      MinExists(s');
      var m :| m in s' && forall x :: x in s' ==> m <= x;
      var least := if y < m then y else m;
      forall x | x in s
        ensures least <= x
      {
        if x != y {
          assert x in s';
        }
      }
    }
  }

  /** The smallest element of a non-empty finite set of prices. */
  function MinPrice(s: set<int>): (m: int)
    requires s != {}
    ensures m in s
    ensures forall x :: x in s ==> m <= x
  {
    MinExists(s);
    var m :| m in s && forall x :: x in s ==> m <= x;
    m
  }

  /** `getDepth` for one side: every stored level as a (price, quantity) pair,
      listed by ascending price, which is the order JavaScript enumerates
      integer-like object keys in. */
  function LevelsOf(d: DepthMap): (r: seq<(int, int)>)
    ensures |r| == |d|
    ensures forall i :: 0 <= i < |r| ==> r[i].0 in d && r[i].1 == d[r[i].0]
    ensures forall i, j :: 0 <= i < j < |r| ==> r[i].0 < r[j].0
    decreases |d|
  {
    if |d| == 0 then []
    else
      var p := MinPrice(d.Keys);
      var rest := d - {p};
      assert rest.Keys == d.Keys - {p};
      var tail := LevelsOf(rest);
      assert forall i :: 0 <= i < |tail| ==> p < tail[i].0;
      [(p, d[p])] + tail
  }

  /** The listing misses no stored level. */
  lemma {:induction false} LevelsOfComplete(d: DepthMap, p: int)
    requires p in d
    ensures (p, d[p]) in LevelsOf(d)
    decreases |d|
  {
    var m := MinPrice(d.Keys);
    var rest := d - {m};
    assert rest.Keys == d.Keys - {m};
    if p != m {
      LevelsOfComplete(rest, p);
    }
  }

  /** The pairs of a listing whose price is `price` (`filter(x => x[0] === price)`). */
  function AtPrice(levels: seq<(int, int)>, price: int): (r: seq<(int, int)>)
  {
    if |levels| == 0 then []
    else (if levels[0].0 == price then [levels[0]] else []) + AtPrice(levels[1..], price)
  }

  /** Looking up one price in the listing finds the stored level, or nothing when
      the level is absent. */
  lemma {:induction false} AtPriceOfLevels(d: DepthMap, price: int)
    ensures AtPrice(LevelsOf(d), price) == if price in d then [(price, d[price])] else []
  {
    AtPriceSorted(LevelsOf(d), price);
    if price in d {
      LevelsOfComplete(d, price);
    }
  }

  /** In a listing with strictly increasing prices a price occurs at most once. */
  lemma {:induction false} AtPriceSorted(levels: seq<(int, int)>, price: int)
    requires forall i, j :: 0 <= i < j < |levels| ==> levels[i].0 < levels[j].0
    ensures AtPrice(levels, price) ==
      if exists i :: 0 <= i < |levels| && levels[i].0 == price
      then [levels[IndexOf(levels, price)]] else []
    decreases |levels|
  {
    if |levels| > 0 {
      AtPriceSorted(levels[1..], price);
      if levels[0].0 == price {
        assert forall i :: 0 <= i < |levels[1..]| ==> levels[1..][i].0 != price by {
          forall i | 0 <= i < |levels[1..]|
            ensures levels[1..][i].0 != price
          {
            assert levels[1..][i] == levels[i + 1];
          }
        }
      } else {
        if exists i :: 0 <= i < |levels| && levels[i].0 == price {
          var i :| 0 <= i < |levels| && levels[i].0 == price;
          assert levels[1..][i - 1].0 == price;
        }
        if exists i :: 0 <= i < |levels[1..]| && levels[1..][i].0 == price {
          var i :| 0 <= i < |levels[1..]| && levels[1..][i].0 == price;
          assert levels[i + 1].0 == price;
        }
      }
    }
  }

  /** Position of the first pair whose price is `price`, or the length when none is. */
  function IndexOf(levels: seq<(int, int)>, price: int): (i: nat)
    ensures i <= |levels|
    ensures i < |levels| ==> levels[i].0 == price
    ensures forall j :: 0 <= j < i ==> levels[j].0 != price
  {
    if |levels| == 0 then 0
    else if levels[0].0 == price then 0
    else 1 + IndexOf(levels[1..], price)
  }
}
