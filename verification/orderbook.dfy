/** One market's order book (`Orderbook.ts`): bids and asks kept in array order,
    two depth maps, and matching of an incoming order against the opposite side.
    The JavaScript class mutates itself; here every operation returns the new
    book. */
module Orderbook {
  import opened Common
  import opened Seqs
  import opened Depth

  datatype Side = Buy | Sell

  /** A resting or incoming order. `filled` is what has been matched against it
      as a maker. */
  datatype Order = Order(price: int, quantity: int, orderId: string, filled: int, side: Side, userId: string)

  /** One match, priced at the maker's price and naming the maker. */
  datatype Fill = Fill(price: int, qty: int, tradeId: int, otherUserId: string, makerOrderId: string)

  /** The book of the market `baseAsset`_INR. The quote asset is always the base
      currency, as in the class's field initialiser. */
  datatype Book = Book(
    baseAsset: string,
    bids: seq<Order>,
    asks: seq<Order>,
    lastTradeId: int,
    currentPrice: int,
    bidsDepth: DepthMap,
    asksDepth: DepthMap)

  /** What matching or placing an order returns along with the new book. */
  datatype Placed = Placed(book: Book, executedQty: int, fills: seq<Fill>)

  /** What `cancelBid` / `cancelAsk` return along with the new book. */
  datatype Cancelled = Cancelled(book: Book, price: int)

  /** The aggregated depth of both sides, as `getDepth` lists it. */
  datatype DepthSnapshot = DepthSnapshot(bids: seq<(int, int)>, asks: seq<(int, int)>)

  predicate PositiveDepth(b: Book)
  {
    Positive(b.bidsDepth) && Positive(b.asksDepth)
  }

  predicate PositiveQuantities(orders: seq<Order>)
  {
    forall i :: 0 <= i < |orders| ==> orders[i].quantity > 0
  }

  // ---------------------------------------------------------------------------
  // Construction

  /** Reference aggregation: total `quantity` of the orders priced at `price`. */
  function QtyAt(orders: seq<Order>, price: int): int
  {
    if |orders| == 0 then 0
    else (if orders[0].price == price then orders[0].quantity else 0) + QtyAt(orders[1..], price)
  }

  /** The loop of `initializeDepth` over one side, continuing from `d`: each
      order adds its full `quantity` to its level; levels are never deleted. */
  function AccumulateDepth(d: DepthMap, orders: seq<Order>): (r: DepthMap)
    ensures forall p :: p in r <==> p in d || exists i :: 0 <= i < |orders| && orders[i].price == p
    ensures forall p :: Level(r, p) == Level(d, p) + QtyAt(orders, p)
    decreases |orders|
  {
    if |orders| == 0 then d
    else
      var o := orders[0];
      var r := AccumulateDepth(d[o.price := Level(d, o.price) + o.quantity], orders[1..]);
      assert forall i :: 0 <= i < |orders[1..]| ==> orders[1..][i] == orders[i + 1];
      r
  }

  /** `initializeDepth` for one side. */
  function InitializeDepth(orders: seq<Order>): (d: DepthMap)
    ensures forall p :: p in d <==> exists i :: 0 <= i < |orders| && orders[i].price == p
    ensures forall p :: Level(d, p) == QtyAt(orders, p)
  {
    AccumulateDepth(map[], orders)
  }

  /** The constructor: the depth maps are derived from the orders, never taken
      as given. */
  function NewBook(baseAsset: string, bids: seq<Order>, asks: seq<Order>, lastTradeId: int, currentPrice: int): (b: Book)
    ensures b.baseAsset == baseAsset && b.bids == bids && b.asks == asks
    ensures b.lastTradeId == lastTradeId && b.currentPrice == currentPrice
    ensures forall p :: Level(b.bidsDepth, p) == QtyAt(bids, p) && Level(b.asksDepth, p) == QtyAt(asks, p)
  {
    Book(baseAsset, bids, asks, lastTradeId, currentPrice, InitializeDepth(bids), InitializeDepth(asks))
  }

  lemma {:induction false} QtyAtPositive(orders: seq<Order>, p: int)
    requires PositiveQuantities(orders)
    requires exists i :: 0 <= i < |orders| && orders[i].price == p
    ensures QtyAt(orders, p) > 0
    decreases |orders|
  {
    if orders[0].price != p {
      var i :| 0 <= i < |orders| && orders[i].price == p;
      assert orders[1..][i - 1].price == p;
      QtyAtPositive(orders[1..], p);
    } else if |orders| > 1 {
      QtyAtNonNegative(orders[1..], p);
    }
  }

  lemma {:induction false} QtyAtNonNegative(orders: seq<Order>, p: int)
    requires PositiveQuantities(orders)
    ensures QtyAt(orders, p) >= 0
    decreases |orders|
  {
    if |orders| > 0 {
      QtyAtNonNegative(orders[1..], p);
    }
  }

  /** A book built from orders with positive quantities has only positive depth
      levels. */
  lemma NewBookPositive(baseAsset: string, bids: seq<Order>, asks: seq<Order>, lastTradeId: int, currentPrice: int)
    requires PositiveQuantities(bids) && PositiveQuantities(asks)
    ensures PositiveDepth(NewBook(baseAsset, bids, asks, lastTradeId, currentPrice))
  {
    var b := NewBook(baseAsset, bids, asks, lastTradeId, currentPrice);
    forall p | p in b.bidsDepth
      ensures b.bidsDepth[p] > 0
    {
      QtyAtPositive(bids, p);
    }
    forall p | p in b.asksDepth
      ensures b.asksDepth[p] > 0
    {
      QtyAtPositive(asks, p);
    }
  }

  /** `ticker()`: the market name BASE_QUOTE. */
  function Ticker(b: Book): string
  {
    b.baseAsset + "_" + BaseCurrency
  }

  // ---------------------------------------------------------------------------
  // Matching

  /** Whether a resting order at `makerPrice` can trade with an incoming order
      of side `takerSide` at `takerPrice`: a buy takes asks priced at or below
      it, a sell takes bids priced at or above it. */
  predicate Crosses(takerSide: Side, makerPrice: int, takerPrice: int)
  {
    match takerSide
    case Buy => makerPrice <= takerPrice
    case Sell => makerPrice >= takerPrice
  }

  /** `o` is `m` with possibly a different `filled`. */
  predicate SameButFilled(o: Order, m: Order)
  {
    o == m.(filled := o.filled)
  }

  /** The fill names the maker `m` and trades at its price. */
  predicate FillFrom(f: Fill, m: Order)
  {
    f.price == m.price && f.otherUserId == m.userId && f.makerOrderId == m.orderId
  }

  /** A resting order is still open unless `filled` is exactly `quantity`. */
  predicate Open(o: Order)
  {
    o.filled != o.quantity
  }

  function SumQty(fills: seq<Fill>): int
  {
    if |fills| == 0 then 0 else fills[0].qty + SumQty(fills[1..])
  }

  function SumFilled(orders: seq<Order>): int
  {
    if |orders| == 0 then 0 else orders[0].filled + SumFilled(orders[1..])
  }

  /** Depth after each fill has taken its quantity off its level, in order. */
  function ApplyFills(d: DepthMap, fills: seq<Fill>): (r: DepthMap)
    ensures Positive(d) ==> Positive(r)
    decreases |fills|
  {
    if |fills| == 0 then d
    else ApplyFills(UpdateDepth(d, fills[0].price, -fills[0].qty), fills[1..])
  }

  /** Levels no fill trades at keep their quantity. */
  lemma {:induction false} ApplyFillsFrame(d: DepthMap, fills: seq<Fill>, p: int)
    requires forall k :: 0 <= k < |fills| ==> fills[k].price != p
    ensures Level(ApplyFills(d, fills), p) == Level(d, p)
    decreases |fills|
  {
    if |fills| > 0 {
      assert forall k :: 0 <= k < |fills[1..]| ==> fills[1..][k] == fills[k + 1];
      ApplyFillsFrame(UpdateDepth(d, fills[0].price, -fills[0].qty), fills[1..], p);
    }
  }

  lemma ApplyFillsCons(d: DepthMap, f: Fill, fills: seq<Fill>)
    ensures ApplyFills(d, [f] + fills) == ApplyFills(UpdateDepth(d, f.price, -f.qty), fills)
  {
    assert ([f] + fills)[1..] == fills;
  }

  /** State of the first loop of `matchBid` / `matchAsk` after the makers. */
  datatype Walked = Walked(makers: seq<Order>, fills: seq<Fill>, executed: int, nextId: int, depth: DepthMap)

  /** Quantity the maker `m` trades with a taker that has `executed` so far. */
  function TradeQty(taker: Order, executed: int, m: Order): int
  {
    if taker.quantity - executed < m.quantity then taker.quantity - executed else m.quantity
  }

  /** Whether the walk trades with maker `m` when the taker has `executed` so far. */
  predicate Trades(side: Side, taker: Order, executed: int, m: Order)
  {
    Crosses(side, m.price, taker.price) && executed < taker.quantity
  }

  /** The first loop of `matchBid` (side `Buy`, over the asks) and `matchAsk`
      (side `Sell`, over the bids): every maker in array order that crosses,
      while the taker is not yet complete, trades `min(remaining, maker.quantity)`
      at the maker's price under the next trade id, and its depth level drops by
      that amount. */
  function Walk(side: Side, makers: seq<Order>, taker: Order, executed: int, nextId: int, depth: DepthMap): (r: Walked)
    ensures |r.makers| == |makers|
    ensures r.nextId == nextId + |r.fills|
    ensures r.executed == executed + SumQty(r.fills)
    ensures executed <= taker.quantity ==> r.executed <= taker.quantity
    decreases |makers|
  {
    if |makers| == 0 then Walked([], [], executed, nextId, depth)
    else
      var m := makers[0];
      if Trades(side, taker, executed, m) then
        var q := TradeQty(taker, executed, m);
        var rest := Walk(side, makers[1..], taker, executed + q, nextId + 1, UpdateDepth(depth, m.price, -q));
        var f := Fill(m.price, q, nextId, m.userId, m.orderId);
        SumQtyCons(f, rest.fills);
        Walked([m.(filled := m.filled + q)] + rest.makers, [f] + rest.fills, rest.executed, rest.nextId, rest.depth)
      else
        var rest := Walk(side, makers[1..], taker, executed, nextId, depth);
        rest.(makers := [m] + rest.makers)
  }

  lemma SumQtyCons(f: Fill, fills: seq<Fill>)
    ensures SumQty([f] + fills) == f.qty + SumQty(fills)
  {
    assert ([f] + fills)[1..] == fills;
  }

  lemma SumFilledCons(o: Order, orders: seq<Order>)
    ensures SumFilled([o] + orders) == o.filled + SumFilled(orders)
  {
    assert ([o] + orders)[1..] == orders;
  }

  /** The walk changes makers only in `filled` and leaves the makers that do
      not cross the taker's price exactly as they were. */
  lemma {:induction false} WalkShape(side: Side, makers: seq<Order>, taker: Order, executed: int, nextId: int, depth: DepthMap)
    ensures forall i :: 0 <= i < |makers| ==>
              SameButFilled(Walk(side, makers, taker, executed, nextId, depth).makers[i], makers[i])
    ensures forall i :: 0 <= i < |makers| && !Crosses(side, makers[i].price, taker.price) ==>
              Walk(side, makers, taker, executed, nextId, depth).makers[i] == makers[i]
    decreases |makers|
  {
    if |makers| > 0 {
      var m := makers[0];
      var e', n', d' := executed, nextId, depth;
      if Trades(side, taker, executed, m) {
        var q := TradeQty(taker, executed, m);
        e', n', d' := executed + q, nextId + 1, UpdateDepth(depth, m.price, -q);
      }
      WalkShape(side, makers[1..], taker, e', n', d');
      var r := Walk(side, makers, taker, executed, nextId, depth);
      var rest := Walk(side, makers[1..], taker, e', n', d');
      assert forall i :: 1 <= i < |makers| ==> makers[i] == makers[1..][i - 1] && r.makers[i] == rest.makers[i - 1];
    }
  }

  /** What the makers' `filled` grows by in total is exactly what the fills
      report: matching neither creates nor loses quantity on the maker side. */
  lemma {:induction false} WalkFilledSum(side: Side, makers: seq<Order>, taker: Order, executed: int, nextId: int, depth: DepthMap)
    ensures SumFilled(Walk(side, makers, taker, executed, nextId, depth).makers) ==
            SumFilled(makers) + SumQty(Walk(side, makers, taker, executed, nextId, depth).fills)
    decreases |makers|
  {
    if |makers| > 0 {
      var m := makers[0];
      var r := Walk(side, makers, taker, executed, nextId, depth);
      SumFilledCons(m, makers[1..]);
      assert [m] + makers[1..] == makers;
      if Trades(side, taker, executed, m) {
        var q := TradeQty(taker, executed, m);
        var d' := UpdateDepth(depth, m.price, -q);
        var rest := Walk(side, makers[1..], taker, executed + q, nextId + 1, d');
        WalkFilledSum(side, makers[1..], taker, executed + q, nextId + 1, d');
        SumFilledCons(m.(filled := m.filled + q), rest.makers);
        SumQtyCons(Fill(m.price, q, nextId, m.userId, m.orderId), rest.fills);
      } else {
        var rest := Walk(side, makers[1..], taker, executed, nextId, depth);
        WalkFilledSum(side, makers[1..], taker, executed, nextId, depth);
        SumFilledCons(m, rest.makers);
      }
    }
  }

  /** Fills carry consecutive trade ids from `nextId` and trade at prices that
      cross the taker's. */
  lemma {:induction false} WalkTradeIds(side: Side, makers: seq<Order>, taker: Order, executed: int, nextId: int, depth: DepthMap)
    ensures forall k :: 0 <= k < |Walk(side, makers, taker, executed, nextId, depth).fills| ==>
              Walk(side, makers, taker, executed, nextId, depth).fills[k].tradeId == nextId + k
    ensures forall k :: 0 <= k < |Walk(side, makers, taker, executed, nextId, depth).fills| ==>
              Crosses(side, Walk(side, makers, taker, executed, nextId, depth).fills[k].price, taker.price)
    decreases |makers|
  {
    if |makers| > 0 {
      var m := makers[0];
      if Trades(side, taker, executed, m) {
        var q := TradeQty(taker, executed, m);
        WalkTradeIds(side, makers[1..], taker, executed + q, nextId + 1, UpdateDepth(depth, m.price, -q));
      } else {
        WalkTradeIds(side, makers[1..], taker, executed, nextId, depth);
      }
    }
  }

  /** What a fill says about its maker: price, user id and order id. */
  datatype Source = Source(price: int, userId: string, orderId: string)

  /** The maker each fill names, fill by fill. */
  function FillSources(fills: seq<Fill>): (r: seq<Source>)
    ensures |r| == |fills|
    ensures forall k :: 0 <= k < |fills| ==> r[k] == Source(fills[k].price, fills[k].otherUserId, fills[k].makerOrderId)
  {
    seq(|fills|, k requires 0 <= k < |fills| => Source(fills[k].price, fills[k].otherUserId, fills[k].makerOrderId))
  }

  /** The makers as fills would name them, in book order. */
  function MakerSources(makers: seq<Order>): (r: seq<Source>)
    ensures |r| == |makers|
    ensures forall i :: 0 <= i < |makers| ==> r[i] == Source(makers[i].price, makers[i].userId, makers[i].orderId)
  {
    seq(|makers|, i requires 0 <= i < |makers| => Source(makers[i].price, makers[i].userId, makers[i].orderId))
  }

  /** The fills name the makers in book order, each maker at most once: the
      sequence of named makers is a subsequence of the makers walked over. */
  lemma {:induction false} WalkInOrder(side: Side, makers: seq<Order>, taker: Order, executed: int, nextId: int, depth: DepthMap)
    ensures Subsequence(FillSources(Walk(side, makers, taker, executed, nextId, depth).fills), MakerSources(makers))
    decreases |makers|
  {
    var r := Walk(side, makers, taker, executed, nextId, depth);
    var a, b := FillSources(r.fills), MakerSources(makers);
    if |makers| > 0 {
      var m := makers[0];
      var tail := makers[1..];
      assert MakerSources(tail) == b[1..];
      if Trades(side, taker, executed, m) {
        var q := TradeQty(taker, executed, m);
        var rest := Walk(side, tail, taker, executed + q, nextId + 1, UpdateDepth(depth, m.price, -q));
        WalkInOrder(side, tail, taker, executed + q, nextId + 1, UpdateDepth(depth, m.price, -q));
        assert r.fills == [r.fills[0]] + rest.fills;
        assert FillSources(rest.fills) == a[1..];
        assert a[0] == b[0];
      } else {
        WalkInOrder(side, tail, taker, executed, nextId, depth);
        assert r.fills == Walk(side, tail, taker, executed, nextId, depth).fills;
      }
    }
  }

  /** Every fill names, and trades at the price of, one of `makers`. */
  predicate FillsFrom(fills: seq<Fill>, makers: seq<Order>)
  {
    forall k :: 0 <= k < |fills| ==> exists i :: 0 <= i < |makers| && FillFrom(fills[k], makers[i])
  }

  /** Each fill comes from one of the makers walked over. */
  lemma {:induction false} WalkSources(side: Side, makers: seq<Order>, taker: Order, executed: int, nextId: int, depth: DepthMap)
    ensures FillsFrom(Walk(side, makers, taker, executed, nextId, depth).fills, makers)
    decreases |makers|
  {
    if |makers| > 0 {
      var m := makers[0];
      var r := Walk(side, makers, taker, executed, nextId, depth);
      var tail := makers[1..];
      if Trades(side, taker, executed, m) {
        var q := TradeQty(taker, executed, m);
        var rest := Walk(side, tail, taker, executed + q, nextId + 1, UpdateDepth(depth, m.price, -q));
        WalkSources(side, tail, taker, executed + q, nextId + 1, UpdateDepth(depth, m.price, -q));
        assert FillFrom(r.fills[0], makers[0]);
        forall k | 1 <= k < |r.fills|
          ensures exists i :: 0 <= i < |makers| && FillFrom(r.fills[k], makers[i])
        {
          assert r.fills[k] == rest.fills[k - 1];
          var i :| 0 <= i < |tail| && FillFrom(rest.fills[k - 1], tail[i]);
          assert tail[i] == makers[i + 1];
        }
      } else {
        var rest := Walk(side, tail, taker, executed, nextId, depth);
        WalkSources(side, tail, taker, executed, nextId, depth);
        forall k | 0 <= k < |r.fills|
          ensures exists i :: 0 <= i < |makers| && FillFrom(r.fills[k], makers[i])
        {
          var i :| 0 <= i < |tail| && FillFrom(rest.fills[k], tail[i]);
          assert tail[i] == makers[i + 1];
        }
      }
    }
  }

  /** With positive maker quantities every fill quantity is positive. */
  lemma {:induction false} WalkPositive(side: Side, makers: seq<Order>, taker: Order, executed: int, nextId: int, depth: DepthMap)
    ensures PositiveQuantities(makers) ==>
              forall k :: 0 <= k < |Walk(side, makers, taker, executed, nextId, depth).fills| ==>
                Walk(side, makers, taker, executed, nextId, depth).fills[k].qty > 0
    decreases |makers|
  {
    if |makers| > 0 {
      var m := makers[0];
      assert forall i :: 0 <= i < |makers[1..]| ==> makers[1..][i] == makers[i + 1];
      if Trades(side, taker, executed, m) {
        var q := TradeQty(taker, executed, m);
        WalkPositive(side, makers[1..], taker, executed + q, nextId + 1, UpdateDepth(depth, m.price, -q));
      } else {
        WalkPositive(side, makers[1..], taker, executed, nextId, depth);
      }
    }
  }

  /** The walk's depth is the starting depth with every fill taken off its
      level, in fill order. */
  lemma {:induction false} WalkDepth(side: Side, makers: seq<Order>, taker: Order, executed: int, nextId: int, depth: DepthMap)
    ensures Walk(side, makers, taker, executed, nextId, depth).depth ==
            ApplyFills(depth, Walk(side, makers, taker, executed, nextId, depth).fills)
    decreases |makers|
  {
    if |makers| > 0 {
      var m := makers[0];
      if Trades(side, taker, executed, m) {
        var q := TradeQty(taker, executed, m);
        var d' := UpdateDepth(depth, m.price, -q);
        var rest := Walk(side, makers[1..], taker, executed + q, nextId + 1, d');
        var f := Fill(m.price, q, nextId, m.userId, m.orderId);
        var r := Walk(side, makers, taker, executed, nextId, depth);
        assert r.fills == [f] + rest.fills && r.depth == rest.depth;
        WalkDepth(side, makers[1..], taker, executed + q, nextId + 1, d');
        ApplyFillsCons(depth, f, rest.fills);
      } else {
        var rest := Walk(side, makers[1..], taker, executed, nextId, depth);
        var r := Walk(side, makers, taker, executed, nextId, depth);
        assert r.fills == rest.fills && r.depth == rest.depth;
        WalkDepth(side, makers[1..], taker, executed, nextId, depth);
      }
    }
  }

  /** The second loop of `matchBid` / `matchAsk`: drop the makers whose `filled`
      equals their `quantity`, keeping the rest in order. */
  function Purge(makers: seq<Order>): (r: seq<Order>)
    ensures forall i :: 0 <= i < |r| ==> Open(r[i]) && r[i] in makers
    ensures forall i :: 0 <= i < |makers| && Open(makers[i]) ==> makers[i] in r
  {
    Filter(makers, Open)
  }

  /** `matchBid`: match a buy against the asks, then purge the filled asks. */
  function MatchBid(b: Book, order: Order): (r: Placed)
    ensures r.book.baseAsset == b.baseAsset && r.book.bids == b.bids && r.book.bidsDepth == b.bidsDepth
    ensures r.book.lastTradeId == b.lastTradeId + |r.fills|
    ensures forall k :: 0 <= k < |r.fills| ==> r.fills[k].tradeId == b.lastTradeId + k
    ensures r.executedQty == SumQty(r.fills)
    ensures order.quantity >= 0 ==> r.executedQty <= order.quantity
    ensures forall k :: 0 <= k < |r.fills| ==> r.fills[k].price <= order.price
  {
    var w := Walk(Buy, b.asks, order, 0, b.lastTradeId, b.asksDepth);
    WalkTradeIds(Buy, b.asks, order, 0, b.lastTradeId, b.asksDepth);
    Placed(b.(asks := Purge(w.makers), asksDepth := w.depth, lastTradeId := w.nextId), w.executed, w.fills)
  }

  /** `matchAsk`: match a sell against the bids, then purge the filled bids. */
  function MatchAsk(b: Book, order: Order): (r: Placed)
    ensures r.book.baseAsset == b.baseAsset && r.book.asks == b.asks && r.book.asksDepth == b.asksDepth
    ensures r.book.lastTradeId == b.lastTradeId + |r.fills|
    ensures forall k :: 0 <= k < |r.fills| ==> r.fills[k].tradeId == b.lastTradeId + k
    ensures r.executedQty == SumQty(r.fills)
    ensures order.quantity >= 0 ==> r.executedQty <= order.quantity
    ensures forall k :: 0 <= k < |r.fills| ==> r.fills[k].price >= order.price
  {
    var w := Walk(Sell, b.bids, order, 0, b.lastTradeId, b.bidsDepth);
    WalkTradeIds(Sell, b.bids, order, 0, b.lastTradeId, b.bidsDepth);
    Placed(b.(bids := Purge(w.makers), bidsDepth := w.depth, lastTradeId := w.nextId), w.executed, w.fills)
  }

  /** Every fill of a buy names one of the asks, and trades a positive amount
      when the asks' quantities are positive. */
  lemma MatchBidFills(b: Book, order: Order)
    ensures FillsFrom(MatchBid(b, order).fills, b.asks)
    ensures PositiveQuantities(b.asks) ==>
              forall k :: 0 <= k < |MatchBid(b, order).fills| ==> MatchBid(b, order).fills[k].qty > 0
  {
    WalkSources(Buy, b.asks, order, 0, b.lastTradeId, b.asksDepth);
    WalkPositive(Buy, b.asks, order, 0, b.lastTradeId, b.asksDepth);
  }

  /** Every fill of a sell names one of the bids, and trades a positive amount
      when the bids' quantities are positive. */
  lemma MatchAskFills(b: Book, order: Order)
    ensures FillsFrom(MatchAsk(b, order).fills, b.bids)
    ensures PositiveQuantities(b.bids) ==>
              forall k :: 0 <= k < |MatchAsk(b, order).fills| ==> MatchAsk(b, order).fills[k].qty > 0
  {
    WalkSources(Sell, b.bids, order, 0, b.lastTradeId, b.bidsDepth);
    WalkPositive(Sell, b.bids, order, 0, b.lastTradeId, b.bidsDepth);
  }

  /** After a buy, no ask left on the book is completely filled, and every open
      ask priced above the buy is still there. */
  lemma MatchBidRests(b: Book, order: Order)
    ensures forall i :: 0 <= i < |MatchBid(b, order).book.asks| ==> Open(MatchBid(b, order).book.asks[i])
    ensures forall i :: 0 <= i < |b.asks| && b.asks[i].price > order.price && Open(b.asks[i]) ==>
              b.asks[i] in MatchBid(b, order).book.asks
  {
    var w := Walk(Buy, b.asks, order, 0, b.lastTradeId, b.asksDepth);
    WalkShape(Buy, b.asks, order, 0, b.lastTradeId, b.asksDepth);
    assert forall i :: 0 <= i < |b.asks| && b.asks[i].price > order.price ==> w.makers[i] == b.asks[i];
  }

  /** After a sell, no bid left on the book is completely filled, and every open
      bid priced below the sell is still there. */
  lemma MatchAskRests(b: Book, order: Order)
    ensures forall i :: 0 <= i < |MatchAsk(b, order).book.bids| ==> Open(MatchAsk(b, order).book.bids[i])
    ensures forall i :: 0 <= i < |b.bids| && b.bids[i].price < order.price && Open(b.bids[i]) ==>
              b.bids[i] in MatchAsk(b, order).book.bids
  {
    var w := Walk(Sell, b.bids, order, 0, b.lastTradeId, b.bidsDepth);
    WalkShape(Sell, b.bids, order, 0, b.lastTradeId, b.bidsDepth);
    assert forall i :: 0 <= i < |b.bids| && b.bids[i].price < order.price ==> w.makers[i] == b.bids[i];
  }

  /** A buy keeps every ask level positive. */
  lemma MatchBidPositive(b: Book, order: Order)
    ensures Positive(b.asksDepth) ==> Positive(MatchBid(b, order).book.asksDepth)
  {
    WalkDepth(Buy, b.asks, order, 0, b.lastTradeId, b.asksDepth);
  }

  /** The order ids of `orders`, in order. */
  function Ids(orders: seq<Order>): (r: seq<string>)
    ensures |r| == |orders|
    ensures forall i :: 0 <= i < |orders| ==> r[i] == orders[i].orderId
  {
    seq(|orders|, i requires 0 <= i < |orders| => orders[i].orderId)
  }

  /** Purging keeps the surviving makers in book order. */
  lemma {:induction false} PurgeKeepsOrder(makers: seq<Order>)
    ensures Subsequence(Ids(Purge(makers)), Ids(makers))
    decreases |makers|
  {
    if |makers| > 0 {
      var m := makers[0];
      var rest := Purge(makers[1..]);
      PurgeKeepsOrder(makers[1..]);
      assert Ids(makers)[1..] == Ids(makers[1..]);
      if Open(m) {
        assert Purge(makers) == [m] + rest;
        assert Ids(Purge(makers))[1..] == Ids(rest);
      } else {
        assert Purge(makers) == rest;
      }
    }
  }

  /** After a buy the asks left on the book are in the order they were. */
  lemma MatchBidKeepsOrder(b: Book, order: Order)
    ensures Subsequence(Ids(MatchBid(b, order).book.asks), Ids(b.asks))
  {
    var w := Walk(Buy, b.asks, order, 0, b.lastTradeId, b.asksDepth);
    WalkShape(Buy, b.asks, order, 0, b.lastTradeId, b.asksDepth);
    PurgeKeepsOrder(w.makers);
    assert Ids(w.makers) == Ids(b.asks);
  }

  /** After a sell the bids left on the book are in the order they were. */
  lemma MatchAskKeepsOrder(b: Book, order: Order)
    ensures Subsequence(Ids(MatchAsk(b, order).book.bids), Ids(b.bids))
  {
    var w := Walk(Sell, b.bids, order, 0, b.lastTradeId, b.bidsDepth);
    WalkShape(Sell, b.bids, order, 0, b.lastTradeId, b.bidsDepth);
    PurgeKeepsOrder(w.makers);
    assert Ids(w.makers) == Ids(b.bids);
  }

  /** A buy changes only the ask levels it traded at. */
  lemma MatchBidDepth(b: Book, order: Order, p: int)
    requires forall k :: 0 <= k < |MatchBid(b, order).fills| ==> MatchBid(b, order).fills[k].price != p
    ensures Level(MatchBid(b, order).book.asksDepth, p) == Level(b.asksDepth, p)
  {
    var w := Walk(Buy, b.asks, order, 0, b.lastTradeId, b.asksDepth);
    assert MatchBid(b, order).fills == w.fills;
    WalkDepth(Buy, b.asks, order, 0, b.lastTradeId, b.asksDepth);
    ApplyFillsFrame(b.asksDepth, w.fills, p);
  }

  /** A sell keeps every bid level positive. */
  lemma MatchAskPositive(b: Book, order: Order)
    ensures Positive(b.bidsDepth) ==> Positive(MatchAsk(b, order).book.bidsDepth)
  {
    WalkDepth(Sell, b.bids, order, 0, b.lastTradeId, b.bidsDepth);
  }

  /** A sell changes only the bid levels it traded at. */
  lemma MatchAskDepth(b: Book, order: Order, p: int)
    requires forall k :: 0 <= k < |MatchAsk(b, order).fills| ==> MatchAsk(b, order).fills[k].price != p
    ensures Level(MatchAsk(b, order).book.bidsDepth, p) == Level(b.bidsDepth, p)
  {
    var w := Walk(Sell, b.bids, order, 0, b.lastTradeId, b.bidsDepth);
    assert MatchAsk(b, order).fills == w.fills;
    WalkDepth(Sell, b.bids, order, 0, b.lastTradeId, b.bidsDepth);
    ApplyFillsFrame(b.bidsDepth, w.fills, p);
  }

  /** `addOrder`: match, then book the order at the end of its own side unless
      it executed completely. The booked order keeps the `filled` it came with,
      and its level grows by its full `quantity`. */
  function AddOrder(b: Book, order: Order): (r: Placed)
    ensures r.book.baseAsset == b.baseAsset
    ensures r.book.lastTradeId == b.lastTradeId + |r.fills|
    ensures forall k :: 0 <= k < |r.fills| ==> r.fills[k].tradeId == b.lastTradeId + k
    ensures r.executedQty == SumQty(r.fills)
    ensures order.quantity >= 0 ==> r.executedQty <= order.quantity
    ensures forall k :: 0 <= k < |r.fills| ==> Crosses(order.side, r.fills[k].price, order.price)
    ensures order.side == Buy ==>
              r.book.bids == b.bids + (if r.executedQty == order.quantity then [] else [order])
    ensures order.side == Sell ==>
              r.book.asks == b.asks + (if r.executedQty == order.quantity then [] else [order])
    ensures order.side == Buy ==>
              Level(r.book.bidsDepth, order.price) ==
                (if r.executedQty == order.quantity then Level(b.bidsDepth, order.price)
                 else Max0(Level(b.bidsDepth, order.price) + order.quantity))
    ensures order.side == Sell ==>
              Level(r.book.asksDepth, order.price) ==
                (if r.executedQty == order.quantity then Level(b.asksDepth, order.price)
                 else Max0(Level(b.asksDepth, order.price) + order.quantity))
    ensures PositiveDepth(b) ==> PositiveDepth(r.book)
  {
    MatchBidPositive(b, order);
    MatchAskPositive(b, order);
    if order.side == Buy then
      var m := MatchBid(b, order);
      if m.executedQty == order.quantity then m
      else m.(book := m.book.(bids := m.book.bids + [order],
                              bidsDepth := UpdateDepth(m.book.bidsDepth, order.price, order.quantity)))
    else
      var m := MatchAsk(b, order);
      if m.executedQty == order.quantity then m
      else m.(book := m.book.(asks := m.book.asks + [order],
                              asksDepth := UpdateDepth(m.book.asksDepth, order.price, order.quantity)))
  }

  function Max0(x: int): int
  {
    if x > 0 then x else 0
  }

  lemma PositiveTail(orders: seq<Order>)
    requires |orders| > 0 && PositiveQuantities(orders)
    ensures PositiveQuantities(orders[1..])
  {
    assert forall i :: 0 <= i < |orders[1..]| ==> orders[1..][i] == orders[i + 1];
  }

  /** When the taker is left incomplete, every crossing maker was traded its
      whole `quantity`: matching only stops early because the taker is done. */
  lemma {:induction false} WalkExhaustive(side: Side, makers: seq<Order>, taker: Order, executed: int, nextId: int, depth: DepthMap)
    requires PositiveQuantities(makers)
    requires Walk(side, makers, taker, executed, nextId, depth).executed < taker.quantity
    ensures forall i :: 0 <= i < |makers| && Crosses(side, makers[i].price, taker.price) ==>
              Walk(side, makers, taker, executed, nextId, depth).makers[i].filled == makers[i].filled + makers[i].quantity
    decreases |makers|
  {
    if |makers| > 0 {
      var m := makers[0];
      var e', n', d' := executed, nextId, depth;
      if Trades(side, taker, executed, m) {
        var q := TradeQty(taker, executed, m);
        e', n', d' := executed + q, nextId + 1, UpdateDepth(depth, m.price, -q);
      }
      PositiveTail(makers);
      WalkPositive(side, makers[1..], taker, e', n', d');
      var rest := Walk(side, makers[1..], taker, e', n', d');
      PositiveSum(rest.fills);
      WalkExhaustive(side, makers[1..], taker, e', n', d');
      ExhaustiveShift(side, makers, taker, executed, nextId, depth, e', n', d');
    }
  }

  /** The inductive step of `WalkExhaustive` moved from the tail to the whole. */
  lemma ExhaustiveShift(side: Side, makers: seq<Order>, taker: Order, executed: int, nextId: int, depth: DepthMap,
                        e': int, n': int, d': DepthMap)
    requires |makers| > 0
    requires Trades(side, taker, executed, makers[0]) ==>
               var q := TradeQty(taker, executed, makers[0]);
               e' == executed + q && n' == nextId + 1 && d' == UpdateDepth(depth, makers[0].price, -q)
    requires !Trades(side, taker, executed, makers[0]) ==> e' == executed && n' == nextId && d' == depth
    requires forall i :: 0 <= i < |makers[1..]| && Crosses(side, makers[1..][i].price, taker.price) ==>
               Walk(side, makers[1..], taker, e', n', d').makers[i].filled == makers[1..][i].filled + makers[1..][i].quantity
    ensures forall i :: 1 <= i < |makers| && Crosses(side, makers[i].price, taker.price) ==>
              Walk(side, makers, taker, executed, nextId, depth).makers[i].filled == makers[i].filled + makers[i].quantity
  {
    var r := Walk(side, makers, taker, executed, nextId, depth);
    var rest := Walk(side, makers[1..], taker, e', n', d');
    assert forall i :: 1 <= i < |makers| ==> makers[i] == makers[1..][i - 1] && r.makers[i] == rest.makers[i - 1];
  }

  lemma {:induction false} PositiveSum(fills: seq<Fill>)
    requires forall k :: 0 <= k < |fills| ==> fills[k].qty > 0
    ensures SumQty(fills) >= 0
    decreases |fills|
  {
    if |fills| > 0 {
      PositiveSum(fills[1..]);
    }
  }

  /** A buy that is left incomplete takes every ask it crosses off the book, so
      (for fresh asks with positive quantities) all remaining asks are priced
      above it. */
  lemma MatchBidClears(b: Book, order: Order)
    requires PositiveQuantities(b.asks)
    requires forall i :: 0 <= i < |b.asks| ==> b.asks[i].filled == 0
    requires MatchBid(b, order).executedQty < order.quantity
    ensures forall i :: 0 <= i < |MatchBid(b, order).book.asks| ==> MatchBid(b, order).book.asks[i].price > order.price
  {
    var w := Walk(Buy, b.asks, order, 0, b.lastTradeId, b.asksDepth);
    WalkShape(Buy, b.asks, order, 0, b.lastTradeId, b.asksDepth);
    WalkExhaustive(Buy, b.asks, order, 0, b.lastTradeId, b.asksDepth);
    forall i | 0 <= i < |MatchBid(b, order).book.asks|
      ensures MatchBid(b, order).book.asks[i].price > order.price
    {
      var o := MatchBid(b, order).book.asks[i];
      var j :| 0 <= j < |w.makers| && w.makers[j] == o;
      assert SameButFilled(w.makers[j], b.asks[j]);
    }
  }

  /** A sell that is left incomplete takes every bid it crosses off the book,
      so (for fresh bids with positive quantities) all remaining bids are
      priced below it. */
  lemma MatchAskClears(b: Book, order: Order)
    requires PositiveQuantities(b.bids)
    requires forall i :: 0 <= i < |b.bids| ==> b.bids[i].filled == 0
    requires MatchAsk(b, order).executedQty < order.quantity
    ensures forall i :: 0 <= i < |MatchAsk(b, order).book.bids| ==> MatchAsk(b, order).book.bids[i].price < order.price
  {
    var w := Walk(Sell, b.bids, order, 0, b.lastTradeId, b.bidsDepth);
    WalkShape(Sell, b.bids, order, 0, b.lastTradeId, b.bidsDepth);
    WalkExhaustive(Sell, b.bids, order, 0, b.lastTradeId, b.bidsDepth);
    forall i | 0 <= i < |MatchAsk(b, order).book.bids|
      ensures MatchAsk(b, order).book.bids[i].price < order.price
    {
      var o := MatchAsk(b, order).book.bids[i];
      var j :| 0 <= j < |w.makers| && w.makers[j] == o;
      assert SameButFilled(w.makers[j], b.bids[j]);
    }
  }

  // ---------------------------------------------------------------------------
  // Queries and cancellation

  /** `getDepth`: both depth maps as level listings. */
  function GetDepth(b: Book): (r: DepthSnapshot)
    ensures forall p :: p in b.bidsDepth ==> (p, b.bidsDepth[p]) in r.bids
    ensures forall p :: p in b.asksDepth ==> (p, b.asksDepth[p]) in r.asks
    ensures forall i :: 0 <= i < |r.bids| ==> r.bids[i].0 in b.bidsDepth && r.bids[i].1 == b.bidsDepth[r.bids[i].0]
    ensures forall i :: 0 <= i < |r.asks| ==> r.asks[i].0 in b.asksDepth && r.asks[i].1 == b.asksDepth[r.asks[i].0]
    ensures |r.bids| == |b.bidsDepth| && |r.asks| == |b.asksDepth|
  {
    forall p | p in b.bidsDepth
      ensures (p, b.bidsDepth[p]) in LevelsOf(b.bidsDepth)
    {
      LevelsOfComplete(b.bidsDepth, p);
    }
    forall p | p in b.asksDepth
      ensures (p, b.asksDepth[p]) in LevelsOf(b.asksDepth)
    {
      LevelsOfComplete(b.asksDepth, p);
    }
    DepthSnapshot(LevelsOf(b.bidsDepth), LevelsOf(b.asksDepth))
  }

  /** `getOpenOrders`: the user's asks followed by the user's bids, each in book
      order. */
  function GetOpenOrders(b: Book, user: string): (r: seq<Order>)
    ensures forall i :: 0 <= i < |r| ==> r[i].userId == user && (r[i] in b.asks || r[i] in b.bids)
    ensures forall i :: 0 <= i < |b.asks| && b.asks[i].userId == user ==> b.asks[i] in r
    ensures forall i :: 0 <= i < |b.bids| && b.bids[i].userId == user ==> b.bids[i] in r
  {
    Filter(b.asks, (o: Order) => o.userId == user) + Filter(b.bids, (o: Order) => o.userId == user)
  }

  /** The open orders are exactly the user's orders of the asks-then-bids
      listing, in that order and with every copy, and the book is not changed
      (the function returns no book). */
  lemma GetOpenOrdersExact(b: Book, user: string, x: Order)
    ensures GetOpenOrders(b, user) == Filter(b.asks + b.bids, (o: Order) => o.userId == user)
    ensures multiset(GetOpenOrders(b, user))[x] == if x.userId == user then multiset(b.asks + b.bids)[x] else 0
    ensures Subsequence(GetOpenOrders(b, user), b.asks + b.bids)
  {
    var mine := (o: Order) => o.userId == user;
    FilterAppend(b.asks, b.bids, mine);
    FilterMultiset(b.asks + b.bids, mine, x);
    FilterSubsequence(b.asks + b.bids, mine);
  }

  /** `findIndex` by order id: the first position holding `orderId`, or the
      length when none does. */
  function FindIndex(orders: seq<Order>, orderId: string): (i: nat)
    ensures i <= |orders|
    ensures i < |orders| ==> orders[i].orderId == orderId
    ensures forall j :: 0 <= j < i ==> orders[j].orderId != orderId
  {
    if |orders| == 0 then 0
    else if orders[0].orderId == orderId then 0
    else 1 + FindIndex(orders[1..], orderId)
  }

  /** `findOrder`, which `Orderbook.ts` calls but does not define: taken to be
      the first order with that id among the bids, then among the asks. */
  function FindOrder(b: Book, orderId: string): (r: Option<Order>)
    ensures r.Some? ==> r.value.orderId == orderId && (r.value in b.bids || r.value in b.asks)
    ensures r.None? <==> ((forall i :: 0 <= i < |b.bids| ==> b.bids[i].orderId != orderId)
                          && (forall i :: 0 <= i < |b.asks| ==> b.asks[i].orderId != orderId))
  {
    var i := FindIndex(b.bids, orderId);
    if i < |b.bids| then Some(b.bids[i])
    else
      var j := FindIndex(b.asks, orderId);
      if j < |b.asks| then Some(b.asks[j]) else None
  }

  /** `splice(i, 1)`. */
  function RemoveAt(orders: seq<Order>, i: nat): (r: seq<Order>)
    requires i < |orders|
    ensures |r| == |orders| - 1
    ensures multiset(r) + multiset{orders[i]} == multiset(orders)
  {
    assert orders == orders[..i] + [orders[i]] + orders[i + 1..];
    orders[..i] + orders[i + 1..]
  }

  /** `cancelBid`: remove the first bid with the order's id, take its full
      `quantity` off its depth level, and return its price. A missing id makes
      the source index position -1 and throw. */
  function CancelBid(b: Book, orderId: string): (r: Result<Cancelled>)
    ensures r.Err? <==> forall i :: 0 <= i < |b.bids| ==> b.bids[i].orderId != orderId
    ensures r.Ok? ==>
              exists i :: && 0 <= i < |b.bids| && b.bids[i].orderId == orderId
                          && (forall j :: 0 <= j < i ==> b.bids[j].orderId != orderId)
                          && r.value.book.bids == b.bids[..i] + b.bids[i + 1..]
                          && r.value.price == b.bids[i].price
                          && Level(r.value.book.bidsDepth, r.value.price) == Max0(Level(b.bidsDepth, r.value.price) - b.bids[i].quantity)
    ensures r.Ok? ==> (r.value.book.asks == b.asks && r.value.book.asksDepth == b.asksDepth
                       && r.value.book.baseAsset == b.baseAsset && r.value.book.lastTradeId == b.lastTradeId)
    ensures r.Ok? ==> forall p :: p != r.value.price ==> Level(r.value.book.bidsDepth, p) == Level(b.bidsDepth, p)
    ensures r.Ok? && PositiveDepth(b) ==> PositiveDepth(r.value.book)
  {
    var i := FindIndex(b.bids, orderId);
    if i == |b.bids| then Err(NotOnBookSide(orderId))
    else
      var o := b.bids[i];
      Ok(Cancelled(b.(bids := RemoveAt(b.bids, i), bidsDepth := UpdateDepth(b.bidsDepth, o.price, -o.quantity)), o.price))
  }

  /** `cancelAsk`: as `cancelBid`, on the asks. */
  function CancelAsk(b: Book, orderId: string): (r: Result<Cancelled>)
    ensures r.Err? <==> forall i :: 0 <= i < |b.asks| ==> b.asks[i].orderId != orderId
    ensures r.Ok? ==>
              exists i :: && 0 <= i < |b.asks| && b.asks[i].orderId == orderId
                          && (forall j :: 0 <= j < i ==> b.asks[j].orderId != orderId)
                          && r.value.book.asks == b.asks[..i] + b.asks[i + 1..]
                          && r.value.price == b.asks[i].price
                          && Level(r.value.book.asksDepth, r.value.price) == Max0(Level(b.asksDepth, r.value.price) - b.asks[i].quantity)
    ensures r.Ok? ==> (r.value.book.bids == b.bids && r.value.book.bidsDepth == b.bidsDepth
                       && r.value.book.baseAsset == b.baseAsset && r.value.book.lastTradeId == b.lastTradeId)
    ensures r.Ok? ==> forall p :: p != r.value.price ==> Level(r.value.book.asksDepth, p) == Level(b.asksDepth, p)
    ensures r.Ok? && PositiveDepth(b) ==> PositiveDepth(r.value.book)
  {
    var i := FindIndex(b.asks, orderId);
    if i == |b.asks| then Err(NotOnBookSide(orderId))
    else
      var o := b.asks[i];
      Ok(Cancelled(b.(asks := RemoveAt(b.asks, i), asksDepth := UpdateDepth(b.asksDepth, o.price, -o.quantity)), o.price))
  }
}
