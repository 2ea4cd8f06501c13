/** The engine (`Engine.ts`): the list of order books, the balance ledger, and
    the command handlers that tie them together. A handler that throws becomes
    an ERROR reply; whatever it changed before throwing stays changed. */
module MatchingEngine {
  import opened Common
  import opened Seqs
  import opened Depth
  import opened Orderbook
  import opened Ledger

  datatype Engine = Engine(books: seq<Book>, balances: Balances)

  // ---------------------------------------------------------------------------
  // Markets and books

  /** `marketSchema`: splitting on `_` gives exactly two non-empty parts. */
  predicate ValidMarket(market: string)
  {
    var parts := Split(market, '_');
    |parts| == 2 && |parts[0]| > 0 && |parts[1]| > 0
  }

  datatype AssetPair = AssetPair(baseAsset: string, quoteAsset: string)

  /** `getAssetPair`: validate BASE_QUOTE and take it apart. */
  function GetAssetPair(market: string): (r: Result<AssetPair>)
    ensures r.Ok? <==> ValidMarket(market)
    ensures r.Err? ==> r.error == InvalidMarket(market)
    ensures r.Ok? ==> market == r.value.baseAsset + "_" + r.value.quoteAsset
    ensures r.Ok? ==> |r.value.baseAsset| > 0 && '_' !in r.value.baseAsset
    ensures r.Ok? ==> |r.value.quoteAsset| > 0 && '_' !in r.value.quoteAsset
  {
    var parts := Split(market, '_');
    if |parts| == 2 && |parts[0]| > 0 && |parts[1]| > 0 then
      JoinSplit(market, '_');
      assert Join(parts, '_') == parts[0] + "_" + parts[1];
      Ok(AssetPair(parts[0], parts[1]))
    else
      Err(InvalidMarket(market))
  }

  /** Joining two well-formed asset names and parsing the result gives them back. */
  lemma AssetPairRoundTrip(baseAsset: string, quoteAsset: string)
    requires |baseAsset| > 0 && '_' !in baseAsset
    requires |quoteAsset| > 0 && '_' !in quoteAsset
    ensures GetAssetPair(baseAsset + "_" + quoteAsset) == Ok(AssetPair(baseAsset, quoteAsset))
  {
    assert Join([baseAsset, quoteAsset], '_') == baseAsset + "_" + quoteAsset;
    SplitJoin([baseAsset, quoteAsset], '_');
  }

  /** A book's ticker parses back into its base asset and the base currency. */
  lemma TickerAssetPair(b: Book)
    requires |b.baseAsset| > 0 && '_' !in b.baseAsset
    ensures GetAssetPair(Ticker(b)) == Ok(AssetPair(b.baseAsset, BaseCurrency))
  {
    assert BaseCurrency == ['I', 'N', 'R'];
    AssetPairRoundTrip(b.baseAsset, BaseCurrency);
  }

  /** Position of the first book whose ticker is `market`, or the length. */
  function BookIndex(books: seq<Book>, market: string): (i: nat)
    ensures i <= |books|
    ensures i < |books| ==> Ticker(books[i]) == market
    ensures forall j :: 0 <= j < i ==> Ticker(books[j]) != market
  {
    if |books| == 0 then 0
    else if Ticker(books[0]) == market then 0
    else 1 + BookIndex(books[1..], market)
  }

  /** `getOrderbook`: the first book with that ticker, or an error. */
  function GetOrderbook(e: Engine, market: string): (r: Result<Book>)
    ensures r.Ok? <==> exists i :: 0 <= i < |e.books| && Ticker(e.books[i]) == market
    ensures r.Ok? ==> Ticker(r.value) == market && r.value == e.books[BookIndex(e.books, market)]
    ensures r.Err? ==> r.error == OrderbookNotFound(market)
  {
    var i := BookIndex(e.books, market);
    if i < |e.books| then Ok(e.books[i]) else Err(OrderbookNotFound(market))
  }

  predicate UniqueTickers(books: seq<Book>)
  {
    forall i, j :: 0 <= i < j < |books| ==> Ticker(books[i]) != Ticker(books[j])
  }

  /** `addOrderbook`: append a book unless its ticker is already taken. */
  function AddOrderbook(e: Engine, b: Book): (r: Result<Engine>)
    ensures r.Err? <==> exists i :: 0 <= i < |e.books| && Ticker(e.books[i]) == Ticker(b)
    ensures r.Err? ==> r.error == OrderbookExists(Ticker(b))
    ensures r.Ok? ==> r.value.books == e.books + [b] && r.value.balances == e.balances
    ensures r.Ok? && UniqueTickers(e.books) ==> UniqueTickers(r.value.books)
  {
    if BookIndex(e.books, Ticker(b)) < |e.books| then Err(OrderbookExists(Ticker(b)))
    else Ok(e.(books := e.books + [b]))
  }

  /** A book that was added is the one `getOrderbook` finds under its ticker. */
  lemma AddThenGet(e: Engine, b: Book)
    requires AddOrderbook(e, b).Ok?
    ensures GetOrderbook(AddOrderbook(e, b).value, Ticker(b)) == Ok(b)
  {
    var books := e.books + [b];
    assert Ticker(books[|e.books|]) == Ticker(b);
    assert BookIndex(books, Ticker(b)) == |e.books|;
  }

  /** Books at the same positions carry the same tickers. */
  predicate SameTickers(books: seq<Book>, books': seq<Book>)
  {
    |books| == |books'| && forall i :: 0 <= i < |books| ==> Ticker(books'[i]) == Ticker(books[i])
  }

  predicate AllPositive(books: seq<Book>)
  {
    forall i :: 0 <= i < |books| ==> PositiveDepth(books[i])
  }

  /** What the engine keeps true between commands: tickers are unique, no
      balance is negative, and every stored depth level is positive. */
  predicate Valid(e: Engine)
  {
    UniqueTickers(e.books) && NonNegative(e.balances) && AllPositive(e.books)
  }

  /** Replacing one book by a book of the same market keeps the tickers. */
  lemma ReplaceBook(books: seq<Book>, i: nat, b: Book)
    requires i < |books| && b.baseAsset == books[i].baseAsset
    ensures SameTickers(books, books[i := b])
    ensures UniqueTickers(books) ==> UniqueTickers(books[i := b])
    ensures AllPositive(books) && PositiveDepth(b) ==> AllPositive(books[i := b])
  {
  }

  // ---------------------------------------------------------------------------
  // Creating an order

  /** What `createOrder` leaves behind: the placed order's summary, or the
      error it threw together with the state as changed up to the throw. */
  datatype Creation =
    | Created(engine: Engine, orderId: string, executedQty: int, fills: seq<Fill>)
    | NotCreated(engine: Engine, error: Error)

  /** The fills as the ledger settles them. */
  function TradesOf(fills: seq<Fill>): (r: seq<Trade>)
    ensures |r| == |fills|
    ensures forall k :: 0 <= k < |fills| ==> r[k] == Trade(fills[k].otherUserId, fills[k].price, fills[k].qty)
  {
    seq(|fills|, k requires 0 <= k < |fills| => Trade(fills[k].otherUserId, fills[k].price, fills[k].qty))
  }

  /** The new order: unfilled, with the id the caller generated. */
  function NewOrder(price: int, quantity: int, side: Side, user: string, orderId: string): Order
  {
    Order(price, quantity, orderId, 0, side, user)
  }

  /** `createOrder`: find the book, parse the market, refuse NaN, lock the
      funds, place the order, settle the fills. `orderId` stands for the random
      id `generateOrderId` draws. */
  function CreateOrder(e: Engine, market: string, price: Num, quantity: Num, side: Side, user: string, orderId: string)
    : (r: Creation)
    ensures GetOrderbook(e, market).Err? ==> r == NotCreated(e, OrderbookNotFound(market))
    ensures GetOrderbook(e, market).Ok? && !ValidMarket(market) ==> r == NotCreated(e, InvalidMarket(market))
    ensures GetOrderbook(e, market).Ok? && ValidMarket(market) && (price.NaN? || quantity.NaN?) ==>
              r == NotCreated(e, InvalidPriceOrQuantity)
    ensures r.Created? ==> r.orderId == orderId && r.executedQty == SumQty(r.fills)
    ensures r.Created? && quantity.value >= 0 ==> r.executedQty <= quantity.value
    ensures r.Created? ==> forall k :: 0 <= k < |r.fills| ==> Crosses(side, r.fills[k].price, price.value)
    ensures SameTickers(e.books, r.engine.books)
    ensures Valid(e) ==> Valid(r.engine)
  {
    match GetOrderbook(e, market)
    case Err(err) => NotCreated(e, err)
    case Ok(book) =>
      match GetAssetPair(market)
      case Err(err) => NotCreated(e, err)
      case Ok(pair) =>
        if price.NaN? || quantity.NaN? then NotCreated(e, InvalidPriceOrQuantity)
        else
          var lock := CheckAndLockFunds(e.balances, pair.baseAsset, pair.quoteAsset, side == Buy, user,
                                        price.value, quantity.value);
          if lock.Failed? then NotCreated(e.(balances := lock.state), lock.error)
          else
            var i := BookIndex(e.books, market);
            var placed := AddOrder(book, NewOrder(price.value, quantity.value, side, user, orderId));
            ReplaceBook(e.books, i, placed.book);
            var settled := UpdateBalancesAfterTrade(lock.state, user, pair.baseAsset, pair.quoteAsset, side == Buy,
                                                    TradesOf(placed.fills));
            var e' := Engine(e.books[i := placed.book], settled.state);
            if settled.Failed? then NotCreated(e', settled.error)
            else Created(e', orderId, placed.executedQty, placed.fills)
  }

  /** Funds are locked before the order reaches the book: when the lock throws,
      no book has changed. */
  lemma CreateOrderLocksFirst(e: Engine, market: string, price: Num, quantity: Num, side: Side, user: string,
                              orderId: string)
    requires GetOrderbook(e, market).Ok? && ValidMarket(market) && price.Finite? && quantity.Finite?
    requires var pair := GetAssetPair(market).value;
             CheckAndLockFunds(e.balances, pair.baseAsset, pair.quoteAsset, side == Buy, user,
                               price.value, quantity.value).Failed?
    ensures CreateOrder(e, market, price, quantity, side, user, orderId).NotCreated?
    ensures CreateOrder(e, market, price, quantity, side, user, orderId).engine.books == e.books
  {
  }

  /** A part of the new order that does not execute rests, unfilled, at the end
      of its side of the market's book. */
  lemma CreateOrderRests(e: Engine, market: string, price: Num, quantity: Num, side: Side, user: string,
                         orderId: string)
    requires CreateOrder(e, market, price, quantity, side, user, orderId).Created?
    requires CreateOrder(e, market, price, quantity, side, user, orderId).executedQty != quantity.value
    ensures var b := CreateOrder(e, market, price, quantity, side, user, orderId).engine.books[BookIndex(e.books, market)];
            var o := Order(price.value, quantity.value, orderId, 0, side, user);
            (if side == Buy then |b.bids| > 0 && b.bids[|b.bids| - 1] == o
             else |b.asks| > 0 && b.asks[|b.asks| - 1] == o)
  {
  }

  /** An order that is created, and settled without a throw, moves funds
      between users but creates or destroys none. */
  lemma CreateOrderConserves(e: Engine, market: string, price: Num, quantity: Num, side: Side, user: string,
                             orderId: string, a: string)
    requires CreateOrder(e, market, price, quantity, side, user, orderId).Created?
    ensures Total(CreateOrder(e, market, price, quantity, side, user, orderId).engine.balances, a) == Total(e.balances, a)
  {
    var book := GetOrderbook(e, market).value;
    var pair := GetAssetPair(market).value;
    var lock := CheckAndLockFunds(e.balances, pair.baseAsset, pair.quoteAsset, side == Buy, user,
                                  price.value, quantity.value);
    LockConserves(e.balances, pair.baseAsset, pair.quoteAsset, side == Buy, user, price.value, quantity.value, a);
    var placed := AddOrder(book, NewOrder(price.value, quantity.value, side, user, orderId));
    SettleConserves(lock.state, user, pair.baseAsset, pair.quoteAsset, side == Buy, TradesOf(placed.fills), a);
  }

  // ---------------------------------------------------------------------------
  // Cancelling an order

  /** The `depth@market` message for one price level. */
  datatype DepthUpdate = DepthUpdate(market: string, asks: seq<(int, int)>, bids: seq<(int, int)>)

  /** `sendUpdatedDepthAt` once the book is found: the level at `price` on each
      side, or `(price, 0)` when the side has no such level. */
  function DepthAt(b: Book, price: int, market: string): (r: DepthUpdate)
    ensures r.market == market
    ensures r.asks == [(price, Level(b.asksDepth, price))]
    ensures r.bids == [(price, Level(b.bidsDepth, price))]
  {
    var depth := GetDepth(b);
    AtPriceOfLevels(b.asksDepth, price);
    AtPriceOfLevels(b.bidsDepth, price);
    var asks := AtPrice(depth.asks, price);
    var bids := AtPrice(depth.bids, price);
    DepthUpdate(market, if |asks| > 0 then asks else [(price, 0)], if |bids| > 0 then bids else [(price, 0)])
  }

  /** `sendUpdatedDepthAt`: look the book up again and report one level. */
  function SendUpdatedDepthAt(e: Engine, price: int, market: string): (r: Result<DepthUpdate>)
    ensures r.Ok? <==> GetOrderbook(e, market).Ok?
    ensures r.Ok? ==> r.value == DepthAt(GetOrderbook(e, market).value, price, market)
  {
    match GetOrderbook(e, market)
    case Err(err) => Err(err)
    case Ok(b) => Ok(DepthAt(b, price, market))
  }

  datatype Cancellation =
    | CancelDone(engine: Engine, orderId: string, executedQty: int, remainingQty: int, update: Option<DepthUpdate>)
    | CancelFailed(engine: Engine, error: Error)

  /** The asset and amount a cancel hands back: INR for a buy (what is left
      times the price), the base asset for a sell (what is left). */
  function Refund(o: Order, baseAsset: string): (string, int)
  {
    if o.side == Buy then (BaseCurrency, (o.quantity - o.filled) * o.price)
    else (baseAsset, o.quantity - o.filled)
  }

  /** Hand the unfilled part of `o` back to its owner. */
  function Release(l: Balances, o: Order, baseAsset: string): Outcome<Balances>
  {
    var (asset, amount) := Refund(o, baseAsset);
    UpdateUserBalance(l, o.userId, asset, amount, -amount)
  }

  /** A release that goes through moves funds within one balance entry only. */
  lemma ReleaseTotal(l: Balances, o: Order, baseAsset: string, a: string)
    requires Release(l, o, baseAsset).Done?
    ensures Total(Release(l, o, baseAsset).state, a) == Total(l, a)
  {
    var (asset, amount) := Refund(o, baseAsset);
    UpdateTotal(l, o.userId, asset, amount, -amount, a);
  }

  /** The part of `handleCancelOrder` after the order `o` was found in the book
      at position `i`: take it off its side, hand its unfilled part back to its
      owner, and publish the level when the price is non-zero. */
  function CancelFound(e: Engine, i: nat, baseAsset: string, o: Order, market: string): (r: Cancellation)
    requires i < |e.books|
    ensures r.CancelDone? ==> r.orderId == o.orderId && r.executedQty == o.filled && r.remainingQty == o.quantity - o.filled
    ensures r.CancelDone? ==> Release(e.balances, o, baseAsset).Done?
    ensures r.CancelDone? ==> r.engine.balances == Release(e.balances, o, baseAsset).state
    ensures SameTickers(e.books, r.engine.books)
    ensures Valid(e) ==> Valid(r.engine)
  {
    var book := e.books[i];
    var cancelled := if o.side == Buy then CancelBid(book, o.orderId) else CancelAsk(book, o.orderId);
    match cancelled
    case Err(err) => CancelFailed(e, err)
    case Ok(c) =>
      ReplaceBook(e.books, i, c.book);
      var released := Release(e.balances, o, baseAsset);
      var e' := Engine(e.books[i := c.book], released.state);
      if released.Failed? then CancelFailed(e', released.error)
      else
        CancelDone(e', o.orderId, o.filled, o.quantity - o.filled,
                   if c.price != 0 then Some(DepthAt(c.book, c.price, market)) else None)
  }

  /** `handleCancelOrder`: find the book, parse the market, find the order,
      then cancel it as `CancelFound` does. */
  function HandleCancelOrder(e: Engine, market: string, orderId: string): (r: Cancellation)
    ensures GetOrderbook(e, market).Err? ==> r == CancelFailed(e, OrderbookNotFound(market))
    ensures GetOrderbook(e, market).Ok? && !ValidMarket(market) ==> r == CancelFailed(e, InvalidMarket(market))
    ensures GetOrderbook(e, market).Ok? && ValidMarket(market) && FindOrder(GetOrderbook(e, market).value, orderId).None? ==>
              r == CancelFailed(e, OrderNotFound)
    ensures r.CancelDone? ==>
              var o := FindOrder(GetOrderbook(e, market).value, orderId).value;
              r.orderId == orderId && r.executedQty == o.filled && r.remainingQty == o.quantity - o.filled
    ensures SameTickers(e.books, r.engine.books)
    ensures Valid(e) ==> Valid(r.engine)
  {
    match GetOrderbook(e, market)
    case Err(err) => CancelFailed(e, err)
    case Ok(book) =>
      match GetAssetPair(market)
      case Err(err) => CancelFailed(e, err)
      case Ok(pair) =>
        match FindOrder(book, orderId)
        case None => CancelFailed(e, OrderNotFound)
        case Some(o) => CancelFound(e, BookIndex(e.books, market), pair.baseAsset, o, market)
  }

  /** A completed cancel moves the unfilled part back from locked to available:
      `(quantity - filled) * price` INR for a buy, `quantity - filled` of the
      base asset for a sell. */
  lemma CancelReleases(e: Engine, i: nat, baseAsset: string, o: Order, market: string)
    requires i < |e.books|
    ensures CancelFound(e, i, baseAsset, o, market).CancelDone? ==>
            var (asset, amount) := Refund(o, baseAsset);
            var before := GetUserBalance(e.balances, o.userId, asset);
            GetUserBalance(CancelFound(e, i, baseAsset, o, market).engine.balances, o.userId, asset) ==
              Balance(before.available + amount, before.locked - amount)
  {
  }

  /** A completed cancel creates or destroys no funds. */
  lemma CancelConserves(e: Engine, i: nat, baseAsset: string, o: Order, market: string, a: string)
    requires i < |e.books|
    ensures CancelFound(e, i, baseAsset, o, market).CancelDone? ==>
            Total(CancelFound(e, i, baseAsset, o, market).engine.balances, a) == Total(e.balances, a)
  {
    if CancelFound(e, i, baseAsset, o, market).CancelDone? {
      ReleaseTotal(e.balances, o, baseAsset, a);
    }
  }

  /** A completed cancel takes exactly the first order with that id off the
      side it rests on, and leaves the other side alone. */
  lemma CancelRemoves(e: Engine, i: nat, baseAsset: string, o: Order, market: string)
    requires i < |e.books|
    ensures CancelFound(e, i, baseAsset, o, market).CancelDone? ==>
            var b := e.books[i];
            var after := CancelFound(e, i, baseAsset, o, market).engine.books[i];
            var side := if o.side == Buy then b.bids else b.asks;
            var j := FindIndex(side, o.orderId);
            && j < |side|
            && (if o.side == Buy then after.asks == b.asks && after.bids == b.bids[..j] + b.bids[j + 1..]
                else after.bids == b.bids && after.asks == b.asks[..j] + b.asks[j + 1..])
  {
  }

  /** A depth update is published exactly when the cancelled order's price is
      non-zero, and it is the level the book now holds at that price. */
  lemma CancelPublishes(e: Engine, i: nat, baseAsset: string, o: Order, market: string)
    requires i < |e.books|
    ensures var r := CancelFound(e, i, baseAsset, o, market);
            var b := e.books[i];
            var side := if o.side == Buy then b.bids else b.asks;
            var k := FindIndex(side, o.orderId);
            r.CancelDone? ==>
              && k < |side|
              && (r.update.Some? <==> side[k].price != 0)
              && (r.update.Some? ==> r.update.value == DepthAt(r.engine.books[i], side[k].price, market))
  {
  }

  // ---------------------------------------------------------------------------
  // On-ramp and the command loop

  /** The commands the API sends. */
  datatype Message =
    | CreateOrderMsg(market: string, price: Num, quantity: Num, side: Side, userId: string)
    | CancelOrderMsg(market: string, orderId: string)
    | GetOpenOrdersMsg(userId: string, market: string)
    | OnRampMsg(userId: string, amount: Num)
    | GetDepthMsg(market: string)

  /** What goes back to the API client. */
  datatype Reply =
    | OrderPlaced(orderId: string, executedQty: int, fills: seq<Fill>)
    | OrderCancelled(orderId: string, executedQty: int, remainingQty: int)
    | OpenOrders(orders: seq<Order>)
    | DepthReply(market: string, bids: seq<(int, int)>, asks: seq<(int, int)>)
    | ErrorReply(error: Error)

  /** Messages leaving the engine, in order. */
  datatype Event = ToApi(clientId: string, reply: Reply) | Published(update: DepthUpdate)

  datatype Processed = Processed(engine: Engine, events: seq<Event>)

  /** `handleOnRamp` on the engine. */
  function HandleOnRampAt(e: Engine, user: string, amount: Num): (r: Result<Engine>)
    ensures r.Ok? <==> amount.Finite? && amount.value > 0
    ensures r.Ok? ==> r.value.books == e.books
    ensures r.Ok? ==> GetUserBalance(r.value.balances, user, BaseCurrency).available ==
                        GetUserBalance(e.balances, user, BaseCurrency).available + amount.value
    ensures r.Ok? && Valid(e) ==> Valid(r.value)
  {
    match HandleOnRamp(e.balances, user, amount)
    case Err(err) => Err(err)
    case Ok(l) => Ok(e.(balances := l))
  }

  /** `process`: dispatch one command; a thrown error becomes an ERROR reply.
      `freshId` is the id a new order would get. */
  function Process(e: Engine, msg: Message, clientId: string, freshId: string): (r: Processed)
    ensures (msg.GetOpenOrdersMsg? || msg.GetDepthMsg?) ==> r.engine == e && |r.events| == 1
    ensures !(msg.OnRampMsg? && msg.amount.Finite? && msg.amount.value > 0) ==>
              |r.events| >= 1 && r.events[|r.events| - 1].ToApi? && r.events[|r.events| - 1].clientId == clientId
    ensures msg.OnRampMsg? ==> (r.events == [] <==> msg.amount.Finite? && msg.amount.value > 0)
    ensures msg.OnRampMsg? && r.events != [] ==>
              r.engine == e && |r.events| == 1 && r.events[0].ToApi? && r.events[0].reply.ErrorReply?
  {
    match msg
    case CreateOrderMsg(market, price, quantity, side, user) =>
      (match CreateOrder(e, market, price, quantity, side, user, freshId)
       case Created(e', id, executed, fills) => Processed(e', [ToApi(clientId, OrderPlaced(id, executed, fills))])
       case NotCreated(e', err) => Processed(e', [ToApi(clientId, ErrorReply(err))]))
    case CancelOrderMsg(market, orderId) =>
      (match HandleCancelOrder(e, market, orderId)
       case CancelDone(e', id, executed, remaining, update) =>
         var published := if update.Some? then [Published(update.value)] else [];
         Processed(e', published + [ToApi(clientId, OrderCancelled(id, executed, remaining))])
       case CancelFailed(e', err) => Processed(e', [ToApi(clientId, ErrorReply(err))]))
    case GetOpenOrdersMsg(user, market) =>
      (match GetOrderbook(e, market)
       case Ok(b) => Processed(e, [ToApi(clientId, OpenOrders(GetOpenOrders(b, user)))])
       case Err(err) => Processed(e, [ToApi(clientId, ErrorReply(err))]))
    case OnRampMsg(user, amount) =>
      (match HandleOnRampAt(e, user, amount)
       case Ok(e') => Processed(e', [])
       case Err(err) => Processed(e, [ToApi(clientId, ErrorReply(err))]))
    case GetDepthMsg(market) =>
      (match GetOrderbook(e, market)
       case Ok(b) =>
         var depth := GetDepth(b);
         Processed(e, [ToApi(clientId, DepthReply(market, depth.bids, depth.asks))])
       case Err(err) => Processed(e, [ToApi(clientId, ErrorReply(err))]))
  }

  /** Every command keeps the engine valid and its markets where they were. */
  lemma ProcessValid(e: Engine, msg: Message, clientId: string, freshId: string)
    requires Valid(e)
    ensures Valid(Process(e, msg, clientId, freshId).engine)
    ensures SameTickers(e.books, Process(e, msg, clientId, freshId).engine.books)
  {
  }

  /** A cancel that completes creates or destroys no funds. */
  lemma HandleCancelConserves(e: Engine, market: string, orderId: string, a: string)
    ensures HandleCancelOrder(e, market, orderId).CancelDone? ==>
            Total(HandleCancelOrder(e, market, orderId).engine.balances, a) == Total(e.balances, a)
  {
    if HandleCancelOrder(e, market, orderId).CancelDone? {
      var book := GetOrderbook(e, market).value;
      var pair := GetAssetPair(market).value;
      var o := FindOrder(book, orderId).value;
      CancelConserves(e, BookIndex(e.books, market), pair.baseAsset, o, market, a);
    }
  }

  /** No event of `p` is an ERROR reply. */
  predicate NoError(p: Processed)
  {
    forall k :: 0 <= k < |p.events| ==> !(p.events[k].ToApi? && p.events[k].reply.ErrorReply?)
  }

  /** A command that ends without an ERROR reply creates no funds, except an
      on-ramp, which adds its amount of INR. */
  lemma ProcessTotals(e: Engine, msg: Message, clientId: string, freshId: string, a: string)
    ensures NoError(Process(e, msg, clientId, freshId)) ==>
            Total(Process(e, msg, clientId, freshId).engine.balances, a) ==
              Total(e.balances, a) +
              (if msg.OnRampMsg? && msg.amount.Finite? && a == BaseCurrency then msg.amount.value else 0)
  {
    var r := Process(e, msg, clientId, freshId);
    match msg
    case CreateOrderMsg(market, price, quantity, side, user) =>
      var c := CreateOrder(e, market, price, quantity, side, user, freshId);
      if c.Created? {
        CreateOrderConserves(e, market, price, quantity, side, user, freshId, a);
      } else {
        assert r.events[0].reply.ErrorReply?;
      }
    case CancelOrderMsg(market, orderId) =>
      var c := HandleCancelOrder(e, market, orderId);
      if c.CancelDone? {
        HandleCancelConserves(e, market, orderId, a);
      } else {
        assert r.events[0].reply.ErrorReply?;
      }
    case GetOpenOrdersMsg(_, _) =>
    case OnRampMsg(user, amount) =>
      if HandleOnRamp(e.balances, user, amount).Ok? {
        OnRampTotal(e.balances, user, amount.value, a);
      } else {
        assert r.events[0].reply.ErrorReply?;
      }
    case GetDepthMsg(_) =>
  }
}
