# Order-book exchange core, modelled in Dafny

This project models the matching-engine core of a crypto-style exchange backend, and the WebSocket server's subscription registry:

- **Order book** (`orderbookEngine/src/lib/Orderbook.ts`). One market holds bids and asks as arrays in insertion order. Depth maps aggregate quantity per price. A `lastTradeId` counter numbers the trades. The model covers:
  - matching a taker against the opposite side (`matchBid`/`matchAsk`);
  - booking the remainder (`addOrder`);
  - depth maintenance (`updateDepth`, `initializeDepth`);
  - depth and open-order queries;
  - cancelling a resting order.
- **Engine** (`orderbookEngine/src/lib/Engine.ts`). It owns the list of order books and the balance ledger (user → asset → available/locked). The model covers:
  - market parsing;
  - book lookup and registration;
  - the checked balance update;
  - locking funds, placing an order, settling its fills;
  - cancelling with refund and depth publication;
  - on-ramp credit;
  - the command dispatcher.
- **Subscription registry** (`webSocket/src/lib/SubscriptionManager.ts`). A forward map (user → channels) and a reverse map (channel → users). Redis SUBSCRIBE/UNSUBSCRIBE calls are returned as flags.

The model is functional: every operation takes a state and returns a new one.

JavaScript code that mutates state and then throws is modelled as an `Outcome` (`Done(state)` or `Failed(state, error)`). The state returned with an error is the state as it was at the throw, so partial effects stay visible. Examples:
- the zero balance entry `updateUserBalance` creates before its check;
- fills settled before a later one fails;
- a book change made before the refund fails.

Prices and quantities are integers in minor units. `Number(...)` parsing is modelled as `Num = NaN | Finite(int)`.

Modules, one per file:

| file | module | contents |
|---|---|---|
| `common.dfy` | `Common` | `BASE_CURRENCY`, `Option`, `Result`, `Outcome`, `Num`, the error values |
| `seqs.dfy` | `Seqs` | `filter`, `split`/`join`, subsequences, distinctness |
| `depth.dfy` | `Depth` | depth maps, `updateDepth`, the listing `getDepth` produces |
| `orderbook.dfy` | `Orderbook` | `Orderbook.ts` |
| `ledger.dfy` | `Ledger` | the balance half of `Engine.ts` |
| `engine.dfy` | `MatchingEngine` | the command half of `Engine.ts` |
| `subscriptions.dfy` | `Subscriptions` | `SubscriptionManager.ts` |

## Source behaviour kept as written

The model keeps each of these behaviours of the code, including where a reader might expect otherwise.

- **Price/quantity validation.** `createOrder` rejects only `NaN` price or quantity (Engine.ts:265-267). Zero and negative values go through.
- **Depth versus open quantity.** Depth is *not* kept equal to the open quantity (`quantity - filled`) of the resting orders:
  - `initializeDepth` and `cancelBid`/`cancelAsk` use the full `quantity`;
  - a partly matched taker is booked with `filled = 0` and its full quantity (Orderbook.ts:57-73, 189-213, 267-289).
  
  The model proves that every stored level is positive, not the sum invariant.
- **Over-filling.** A match takes `min(remaining, maker.quantity)`, ignoring what the maker already filled (Orderbook.ts:107-110, 152-155). So `filled <= quantity` is not an invariant and is not claimed.
- **Matching order.** Matching walks the opposite side in array order, not best price first (Orderbook.ts:104-127, 149-172). Purging keeps the survivors in their order.
- **Failed lock.** When a lock fails for a user with no entry for the asset, the ledger keeps the zero entry that `updateUserBalance` created (Engine.ts:128-137). Every balance *read* is unchanged.
- **`findOrder`.** Engine.ts:211 calls `orderbook.findOrder`, which Orderbook.ts does not define. The model assumes it returns the first order with that id among the bids, then among the asks (`Orderbook.FindOrder`).

## Model

| member | source | states |
|---|---|---|
| Seqs.Filter | orderbookEngine/src/lib/Orderbook.ts:255-261 | `filter` keeps exactly the elements that pass, and each kept element comes from the input |
| Seqs.FilterAppend | orderbookEngine/src/lib/Orderbook.ts:255-261 | filtering `asks ++ bids` is filtering each and concatenating, as `[...asks, ...bids]` does |
| Seqs.FilterMultiset | orderbookEngine/src/lib/Orderbook.ts:255-261 | filtering keeps every copy of a passing element and drops every copy of a failing one |
| Seqs.FilterSubsequence | orderbookEngine/src/lib/Orderbook.ts:129-135 | filtering keeps the survivors in their original relative order |
| Seqs.Split | orderbookEngine/src/lib/Engine.ts:29-35 | `split("_")` gives one more piece than there are separators, and no piece contains one |
| Seqs.JoinSplit | orderbookEngine/src/lib/Engine.ts:103-107 | joining the pieces of `split` gives back the input, so nothing is lost by splitting |
| Seqs.SplitJoin | orderbookEngine/src/lib/Engine.ts:103-107 | splitting a join of separator-free pieces gives back exactly those pieces |
| Seqs.Without | webSocket/src/lib/SubscriptionManager.ts:82-94 | `filter(x => x !== v)` removes every `v` and keeps every other element |
| Seqs.WithoutAppended | webSocket/src/lib/SubscriptionManager.ts:46-55 | removing an element just appended to a list that lacked it restores the list (also SubscriptionManager.ts lines 82-94) |
| Seqs.FilterDistinct | webSocket/src/lib/SubscriptionManager.ts:82-94 | filtering a list without repeats leaves one without repeats |
| Seqs.DistinctConstant | webSocket/src/lib/SubscriptionManager.ts:96-100 | a non-empty repeat-free list whose elements all equal `x` is `[x]` |
| Depth.UpdateDepth | orderbookEngine/src/lib/Orderbook.ts:219-229 | the level at `price` moves by `qty`; it is stored iff the result is positive; other levels do not change; all-positive maps stay all-positive |
| Depth.LevelsOf | orderbookEngine/src/lib/Orderbook.ts:235-250 | `getDepth` lists each stored level once, with its quantity, in ascending price order |
| Depth.LevelsOfComplete | orderbookEngine/src/lib/Orderbook.ts:235-250 | the listing misses no stored level |
| Depth.AtPriceOfLevels | orderbookEngine/src/lib/Engine.ts:469-474 | filtering the listing by one price gives that level alone, or nothing when it is absent |
| Orderbook.InitializeDepth | orderbookEngine/src/lib/Orderbook.ts:57-73 | each level is the sum of the quantities of the orders at that price; a level exists iff some order has that price |
| Orderbook.NewBook | orderbookEngine/src/lib/Orderbook.ts:36-73 | the constructor keeps the given orders and counters and derives both depth maps from them |
| Orderbook.NewBookPositive | orderbookEngine/src/lib/Orderbook.ts:57-73 | from orders with positive quantities the constructor derives only positive levels |
| Orderbook.Walk | orderbookEngine/src/lib/Orderbook.ts:104-127 | the matching loop advances the trade counter by one per fill, executes the sum of the fill quantities, and, for a non-negative quantity, never executes more than the taker's quantity (also Orderbook.ts lines 149-172) |
| Orderbook.WalkShape | orderbookEngine/src/lib/Orderbook.ts:106-112 | matching changes only a maker's `filled`; makers that do not cross the taker's price are untouched (also Orderbook.ts lines 151-157) |
| Orderbook.WalkFilledSum | orderbookEngine/src/lib/Orderbook.ts:107-112 | the makers' `filled` grows in total by exactly the executed quantity (also Orderbook.ts lines 152-157) |
| Orderbook.WalkTradeIds | orderbookEngine/src/lib/Orderbook.ts:118-124 | fills carry consecutive trade ids from the old counter, and every fill's price crosses the taker's price (also Orderbook.ts lines 163-169) |
| Orderbook.WalkSources | orderbookEngine/src/lib/Orderbook.ts:118-124 | each fill comes from one of the makers walked over and carries its price, user id and order id (also Orderbook.ts lines 163-169) |
| Orderbook.WalkInOrder | orderbookEngine/src/lib/Orderbook.ts:104-127 | the makers the fills name, fill by fill, form a subsequence of the makers in book order, so fills follow book order and name each maker at most once (also Orderbook.ts lines 149-172) |
| Orderbook.WalkPositive | orderbookEngine/src/lib/Orderbook.ts:107-110 | when all maker quantities are positive, every fill quantity is positive (also Orderbook.ts lines 152-155) |
| Orderbook.WalkDepth | orderbookEngine/src/lib/Orderbook.ts:115 | the depth after matching is the old depth with each fill's quantity subtracted at its price (also Orderbook.ts lines 160) |
| Orderbook.WalkExhaustive | orderbookEngine/src/lib/Orderbook.ts:104-127 | when the taker is not complete, every crossing maker was taken in full (also Orderbook.ts lines 149-172) |
| Orderbook.ApplyFillsFrame | orderbookEngine/src/lib/Orderbook.ts:115 | a level at which no fill happened keeps its quantity (also Orderbook.ts lines 160) |
| Orderbook.Purge | orderbookEngine/src/lib/Orderbook.ts:129-135 | the purge keeps exactly the makers with `filled != quantity` (also Orderbook.ts lines 174-180) |
| Orderbook.PurgeKeepsOrder | orderbookEngine/src/lib/Orderbook.ts:129-135 | the splice loop keeps the survivors in their original order (also Orderbook.ts lines 174-180) |
| Orderbook.MatchBid | orderbookEngine/src/lib/Orderbook.ts:99-138 | the bids side is untouched; the counter advances by the number of fills, whose ids are consecutive; executed = sum of fills, and ≤ quantity for a non-negative quantity; every fill price ≤ the bid price |
| Orderbook.MatchAsk | orderbookEngine/src/lib/Orderbook.ts:144-182 | mirror of `MatchBid`: the asks side is untouched; executed = sum of fills, and ≤ quantity for a non-negative quantity; every fill price ≥ the ask price |
| Orderbook.MatchBidFills | orderbookEngine/src/lib/Orderbook.ts:118-124 | every fill of a buy comes from an ask, at that ask's price, user and order id; fills are positive when ask quantities are |
| Orderbook.MatchAskFills | orderbookEngine/src/lib/Orderbook.ts:163-169 | every fill of a sell comes from a bid, at that bid's price, user and order id; fills are positive when bid quantities are |
| Orderbook.MatchBidRests | orderbookEngine/src/lib/Orderbook.ts:129-135 | afterwards no completely filled ask remains, and every open ask priced above the bid is still there |
| Orderbook.MatchAskRests | orderbookEngine/src/lib/Orderbook.ts:174-180 | afterwards no completely filled bid remains, and every open bid priced below the ask is still there |
| Orderbook.MatchBidKeepsOrder | orderbookEngine/src/lib/Orderbook.ts:99-138 | the remaining asks keep their relative order |
| Orderbook.MatchAskKeepsOrder | orderbookEngine/src/lib/Orderbook.ts:144-182 | the remaining bids keep their relative order |
| Orderbook.MatchBidPositive | orderbookEngine/src/lib/Orderbook.ts:115 | matching a buy keeps every ask level positive (also Orderbook.ts lines 219-229) |
| Orderbook.MatchAskPositive | orderbookEngine/src/lib/Orderbook.ts:160 | matching a sell keeps every bid level positive (also Orderbook.ts lines 219-229) |
| Orderbook.MatchBidDepth | orderbookEngine/src/lib/Orderbook.ts:115 | an ask level at which no fill happened keeps its quantity |
| Orderbook.MatchAskDepth | orderbookEngine/src/lib/Orderbook.ts:160 | a bid level at which no fill happened keeps its quantity |
| Orderbook.MatchBidClears | orderbookEngine/src/lib/Orderbook.ts:104-135 | in a book of fresh positive asks, a buy that is not completely executed leaves only asks priced above it |
| Orderbook.MatchAskClears | orderbookEngine/src/lib/Orderbook.ts:149-180 | in a book of fresh positive bids, a sell that is not completely executed leaves only bids priced below it |
| Orderbook.AddOrder | orderbookEngine/src/lib/Orderbook.ts:189-213 | matches on the opposite side; appends the order itself to its own side exactly when executed ≠ quantity; adds its full quantity to its level; keeps all levels positive |
| Orderbook.GetDepth | orderbookEngine/src/lib/Orderbook.ts:235-250 | the listing has exactly one pair per stored level on each side, carrying that level's quantity |
| Orderbook.GetOpenOrders | orderbookEngine/src/lib/Orderbook.ts:255-261 | exactly the user's asks and bids are returned |
| Orderbook.GetOpenOrdersExact | orderbookEngine/src/lib/Orderbook.ts:255-261 | the result is the user's asks then the user's bids, each copy kept, in book order |
| Orderbook.FindOrder | orderbookEngine/src/lib/Engine.ts:211-214 | an order is found iff some bid or ask has the id, and the found order has that id and rests in the book |
| Orderbook.RemoveAt | orderbookEngine/src/lib/Orderbook.ts:273 | `splice(index, 1)` removes exactly the one element at the index and keeps all others (also Orderbook.ts lines 287) |
| Orderbook.CancelBid | orderbookEngine/src/lib/Orderbook.ts:267-276 | fails iff no bid has the id; otherwise the first such bid is spliced out, its price returned, its full quantity taken off its level; nothing else changes |
| Orderbook.CancelAsk | orderbookEngine/src/lib/Orderbook.ts:281-289 | mirror of `CancelBid` on the asks |
| Ledger.GetUserBalance | orderbookEngine/src/lib/Engine.ts:585-593 | an unknown user or asset reads as zero available and zero locked |
| Ledger.UpdateUserBalance | orderbookEngine/src/lib/Engine.ts:117-141 | unknown user: error, nothing changed; otherwise succeeds iff both new amounts are ≥ 0, applying exactly the deltas, else `Insufficient balance` with the read balance unchanged; no other balance changes; non-negativity is preserved |
| Ledger.UpdateTotal | orderbookEngine/src/lib/Engine.ts:117-141 | the ledger's total of an asset moves by exactly the two deltas on success and not at all on failure |
| Ledger.CheckAndLockFunds | orderbookEngine/src/lib/Engine.ts:311-337 | a buy locks `quantity*price` of the quote asset, a sell `quantity` of the base asset; succeeds iff the user exists and has that much available; moves exactly that amount from available to locked; touches no other balance |
| Ledger.LockConserves | orderbookEngine/src/lib/Engine.ts:311-337 | locking never changes any asset's total |
| Ledger.FillStepsNet | orderbookEngine/src/lib/Engine.ts:347-367 | the four updates of one fill cancel out in every asset |
| Ledger.SettleBuyQuote | orderbookEngine/src/lib/Engine.ts:350-357 | for a buy between two different users on a two-asset market, the maker gains `qty*price` quote available and the taker's locked quote drops by the same |
| Ledger.SettleBuyBase | orderbookEngine/src/lib/Engine.ts:350-357 | for a buy between two different users on a two-asset market, the maker's locked base drops by `qty` and the taker gains `qty` base available |
| Ledger.SettleSellQuote | orderbookEngine/src/lib/Engine.ts:358-366 | for a sell between two different users on a two-asset market, the maker's locked quote drops by `qty*price` and the taker gains the same available |
| Ledger.SettleSellBase | orderbookEngine/src/lib/Engine.ts:358-366 | for a sell between two different users on a two-asset market, the maker gains `qty` base available and the taker's locked base drops by `qty` |
| Ledger.SettleSelfTrade | orderbookEngine/src/lib/Engine.ts:347-367 | when taker and maker are the same user (matching never compares user ids), that user's `qty*price` quote and `qty` base both move from locked to available, on either side |
| Ledger.SettleSameAsset | orderbookEngine/src/lib/Engine.ts:347-367 | on a market whose base and quote coincide, the four updates add up on the one asset: for two users, and for a self-trade |
| Ledger.Apply | orderbookEngine/src/lib/Engine.ts:347-367 | a chain of updates keeps the set of users and non-negativity |
| Ledger.ApplyAppend | orderbookEngine/src/lib/Engine.ts:347-367 | running two batches of updates back to back stops at the first batch's failure, and otherwise continues from the state it left, so a chain stops at its first failure |
| Ledger.ApplyTotal | orderbookEngine/src/lib/Engine.ts:347-367 | a chain of updates that all succeed moves each asset's total by the sum of its deltas |
| Ledger.UpdateBalancesAfterTrade | orderbookEngine/src/lib/Engine.ts:339-368 | settlement keeps the set of users and non-negativity |
| Ledger.SettleFirstFill | orderbookEngine/src/lib/Engine.ts:347-367 | fills settle in order; a failure in the first fill's updates ends settlement with the state as of that failure |
| Ledger.SettleConserves | orderbookEngine/src/lib/Engine.ts:339-368 | a settlement that completes leaves every asset's total unchanged |
| Ledger.OnRamp | orderbookEngine/src/lib/Engine.ts:525-554 | a new user gets exactly `{INR: amount available, 0 locked}`; otherwise INR available grows by the amount; nothing else changes |
| Ledger.OnRampTotal | orderbookEngine/src/lib/Engine.ts:525-554 | an on-ramp adds exactly its amount to the INR total and nothing to any other asset |
| Ledger.HandleOnRamp | orderbookEngine/src/lib/Engine.ts:383-392 | rejected iff the amount is NaN or ≤ 0; otherwise the user's INR available grows by the amount |
| MatchingEngine.GetAssetPair | orderbookEngine/src/lib/Engine.ts:29-35 | succeeds iff the market splits into exactly two non-empty parts; the market is then `base + "_" + quote`, with no `_` in either part (also Engine.ts lines 99-107) |
| MatchingEngine.AssetPairRoundTrip | orderbookEngine/src/lib/Engine.ts:103-107 | parsing `base_quote` built from two well-formed asset names gives them back |
| MatchingEngine.TickerAssetPair | orderbookEngine/src/lib/Orderbook.ts:76-78 | a book's ticker parses back into its base asset and `INR` |
| MatchingEngine.GetOrderbook | orderbookEngine/src/lib/Engine.ts:109-115 | finds a book iff some book has that ticker, and then the first one; otherwise `Orderbook not found` |
| MatchingEngine.AddOrderbook | orderbookEngine/src/lib/Engine.ts:574-583 | fails iff the ticker is taken; otherwise appends the book and keeps tickers unique |
| MatchingEngine.AddThenGet | orderbookEngine/src/lib/Engine.ts:109-115 | a book just added is what `getOrderbook` finds under its ticker (also Engine.ts lines 574-583) |
| MatchingEngine.CreateOrder | orderbookEngine/src/lib/Engine.ts:252-302 | errors come in source order (unknown book, bad market, NaN), each leaving the engine unchanged; a placed order reports executed = sum of fills (≤ quantity for a non-negative quantity), with fills crossing its price; books keep their markets; validity is preserved |
| MatchingEngine.CreateOrderLocksFirst | orderbookEngine/src/lib/Engine.ts:269-287 | when locking fails the order is rejected and no book has changed |
| MatchingEngine.CreateOrderRests | orderbookEngine/src/lib/Engine.ts:278-287 | when not completely executed, the whole order, with its full quantity, `filled` 0 and the given id, rests at the end of its side of the market's book |
| MatchingEngine.CreateOrderConserves | orderbookEngine/src/lib/Engine.ts:269-295 | a placed order leaves every asset's total unchanged |
| MatchingEngine.DepthAt | orderbookEngine/src/lib/Engine.ts:469-483 | the published asks and bids are each the single pair (price, level), zero when the level is absent |
| MatchingEngine.SendUpdatedDepthAt | orderbookEngine/src/lib/Engine.ts:469-483 | fails iff the market has no book; otherwise reports that book's level at the price |
| MatchingEngine.CancelFound | orderbookEngine/src/lib/Engine.ts:216-249 | reports `filled` as executed and `quantity - filled` as remaining; the refund went through; books keep their markets; validity is preserved |
| MatchingEngine.HandleCancelOrder | orderbookEngine/src/lib/Engine.ts:203-250 | errors come in source order (unknown book, bad market, unknown order), each leaving the engine unchanged; a completed cancel reports the found order's `filled` and `quantity - filled`; validity is preserved |
| MatchingEngine.CancelReleases | orderbookEngine/src/lib/Engine.ts:216-236 | a completed cancel moves `(quantity-filled)*price` INR (buy), or `quantity-filled` base (sell), from locked to available |
| MatchingEngine.CancelConserves | orderbookEngine/src/lib/Engine.ts:216-236 | a completed cancel leaves every asset's total unchanged |
| MatchingEngine.HandleCancelConserves | orderbookEngine/src/lib/Engine.ts:203-250 | the same, for the whole handler |
| MatchingEngine.CancelRemoves | orderbookEngine/src/lib/Engine.ts:216-229 | a completed cancel splices out the order at the first index holding that id on its own side, and leaves the other side alone |
| MatchingEngine.CancelPublishes | orderbookEngine/src/lib/Engine.ts:225-227 | a depth update is published iff the cancelled order's price is non-zero, and it is the book's new level at that price (also Engine.ts lines 237-239) |
| MatchingEngine.HandleOnRampAt | orderbookEngine/src/lib/Engine.ts:383-392 | rejected iff the amount is NaN or ≤ 0; otherwise credits INR and leaves the books alone |
| MatchingEngine.Process | orderbookEngine/src/lib/Engine.ts:143-170 | read-only commands leave the engine unchanged and send one reply; every command except a successful on-ramp ends with a reply to the sending client; a rejected on-ramp changes nothing and sends exactly one ERROR reply |
| MatchingEngine.ProcessValid | orderbookEngine/src/lib/Engine.ts:143-170 | every command keeps unique tickers, non-negative balances and positive depth levels, and every book keeps its market |
| MatchingEngine.ProcessTotals | orderbookEngine/src/lib/Engine.ts:143-170 | a command with no error reply changes no total, except that an on-ramp adds its amount of INR |
| Subscriptions.EmptyConsistent | webSocket/src/lib/SubscriptionManager.ts:11-15 | the empty registry the manager starts with is consistent |
| Subscriptions.GetSubscription | webSocket/src/lib/SubscriptionManager.ts:120-122 | an unknown user has no channels |
| Subscriptions.Subscribe | webSocket/src/lib/SubscriptionManager.ts:39-61 | an existing pair changes nothing; a new one is appended to both lists; other users and channels are untouched; Redis is subscribed iff the pair is new and the channel had no subscribers |
| Subscriptions.SubscribeConsistent | webSocket/src/lib/SubscriptionManager.ts:11-15 | subscribing keeps the two maps inverse to each other, with no empty channel entry and no repeats (also SubscriptionManager.ts lines 46-55) |
| Subscriptions.SubscribeIdempotent | webSocket/src/lib/SubscriptionManager.ts:41-43 | subscribing twice is subscribing once |
| Subscriptions.SubscribeUpstreamFirst | webSocket/src/lib/SubscriptionManager.ts:57-60 | on a consistent registry Redis is subscribed iff the channel had no entry |
| Subscriptions.Unsubscribe | webSocket/src/lib/SubscriptionManager.ts:78-102 | removes the channel from the user's list and the user from the channel's list; others are untouched; Redis is unsubscribed iff every subscriber was this user, and then the entry is gone |
| Subscriptions.UnsubscribeConsistent | webSocket/src/lib/SubscriptionManager.ts:78-102 | unsubscribing keeps the two maps inverse to each other |
| Subscriptions.UnsubscribeUpstreamLast | webSocket/src/lib/SubscriptionManager.ts:96-100 | on a consistent registry Redis is unsubscribed iff the user was the channel's only subscriber |
| Subscriptions.SubscribeThenUnsubscribe | webSocket/src/lib/SubscriptionManager.ts:39-102 | a new subscription undone restores every list, and the two Redis flags agree |
| Subscriptions.UnsubscribeAllFrame | webSocket/src/lib/SubscriptionManager.ts:108-113 | a user leaving leaves every other user's channels alone |
| Subscriptions.UnsubscribeAllConsistent | webSocket/src/lib/SubscriptionManager.ts:108-113 | a user leaving keeps the registry consistent |
| Subscriptions.UnsubscribeAllLeaves | webSocket/src/lib/SubscriptionManager.ts:108-113 | after the loop the user is on none of the listed channels, and on no channel it was not on before |
| Subscriptions.UnsubscribeAllUpstream | webSocket/src/lib/SubscriptionManager.ts:96-100 | Redis is unsubscribed only from listed channels, each left with no subscriber (also SubscriptionManager.ts lines 108-113) |
| Subscriptions.UserLeftGone | webSocket/src/lib/SubscriptionManager.ts:108-113 | after `userLeft` the user is on no channel and has no channel, other users keep theirs, and the registry stays consistent |

## Left out

- Snapshot persistence, the snapshot timer, `cleanup` and `shutdown`. These are filesystem, JSON and `setInterval`; only the depth derivation in the `Orderbook` constructor is modelled.
- Outbound messaging other than replies: Redis pub/sub and queue pushes are I/O. This covers `createDbTrades`, `updateDbOrders`, `publishWsTrades`, `publishWsDepthUpdates` and the `BALANCE_UPDATE` push in `onRamp`. Replies are modelled as `Event`s, and so is the depth update a cancel publishes.
- Redis client calls in the subscription registry: they are returned as flags. The Redis message callback and `UserManager` are not part of this model.
- Floating point: prices and quantities are integers in minor units. `Number()` parsing is reduced to "NaN or an integer", and `toString()` price keys become integer keys.
- `generateOrderId` draws random ids. The id is a parameter (`freshId`) of `Process` and `CreateOrder`, so uniqueness of order ids is the caller's responsibility.
- Depth.LevelsOf: the model lists levels by ascending integer price. JavaScript lists only array-index keys (integers from 0 to 2^32-2) in ascending order, so this matches `getDepth` only for prices in that range. Negative or larger prices are listed in insertion order in the source.
- `getMarketStatistics`, `getUserOpenOrders`, `getOrderbooks`, `validateUser`, `ensureAssetBalance` and `formatTradeData`: these are helpers outside the command path.
- `setBaseBalances` (Engine.ts:556-572), the start-up path when no snapshot loads (Engine.ts:46-54), is not modelled.
- Ledger.UpdateUserBalance: the ledger is a map of values, so no two users can share a balance record. In the source, `setBaseBalances` gives users "1", "2" and "5" shallow copies `{ ...defaultBalance }` of one object (Engine.ts:569-570). Their INR and TATA records are then the same object, and `updateUserBalance` (Engine.ts:139-140) or `onRamp` (Engine.ts:541) changes all three at once. The frame clauses, and `UpdateTotal`, `ProcessTotals` and the other conservation lemmas, describe a ledger without such sharing, not the default start-up state.
- Ledger.SettleBuyQuote: stated for two different users on a market with two different assets; self-trades are covered by `Ledger.SettleSelfTrade`, one-asset markets by `Ledger.SettleSameAsset`.
- Ledger.SettleBuyBase: stated for two different users on a market with two different assets; self-trades are covered by `Ledger.SettleSelfTrade`, one-asset markets by `Ledger.SettleSameAsset`.
- Ledger.SettleSellQuote: stated for two different users on a market with two different assets; self-trades are covered by `Ledger.SettleSelfTrade`, one-asset markets by `Ledger.SettleSameAsset`.
- Ledger.SettleSellBase: stated for two different users on a market with two different assets; self-trades are covered by `Ledger.SettleSelfTrade`, one-asset markets by `Ledger.SettleSameAsset`.
- Unknown message types are not representable in the `Message` datatype, so the `default` branch of `process` is not modelled.
- Leftover locks: a buy locks `quantity*price` but settles each fill at the maker's (lower or equal) price, and the difference stays locked. The model keeps this behaviour but states no property about it.
- Ledger.Total: it is defined with a ghost choice of user. The conservation lemmas therefore speak of totals, not of any executable sum.
- MatchingEngine.ProcessTotals: it states conservation only for commands that end without an ERROR reply. A settlement that fails partway keeps its already-applied updates, as the source does, and can leave a total changed.
- Subscriptions.UserLeftGone: it states that the user's remaining list has no member, not that the map entry is gone. The source keeps the user's (now empty) entry in the forward map.
