/** The engine's balance ledger: for every user, per asset, an amount available
    to trade and an amount locked behind open orders. All updates go through the
    checked delta update, which refuses to drive either amount negative. */
module Ledger {
  import opened Common

  datatype Balance = Balance(available: int, locked: int)

  /** One user's holdings, asset -> balance. */
  type Holdings = map<string, Balance>

  /** The whole ledger, user -> holdings. */
  type Balances = map<string, Holdings>

  const Zero: Balance := Balance(0, 0)

  /** `getUserBalance`: the stored balance, or zeros for an unknown user or asset. */
  function GetUserBalance(l: Balances, user: string, asset: string): (b: Balance)
    ensures user !in l || asset !in l[user] ==> b == Zero
    ensures user in l && asset in l[user] ==> b == l[user][asset]
  {
    if user in l && asset in l[user] then l[user][asset] else Zero
  }

  /** No stored amount is negative (the ledger's schema demands `min(0)`). */
  predicate NonNegative(l: Balances)
  {
    forall u, a :: u in l && a in l[u] ==> l[u][a].available >= 0 && l[u][a].locked >= 0
  }

  /** `updateUserBalance`: add the two deltas to a user's balance in one asset.
      An unknown user is an error that changes nothing. A missing asset entry
      is created with zeros before the check, so when the new amounts would be
      negative the ledger is left with that zero entry (and nothing else
      changed). */
  function UpdateUserBalance(l: Balances, user: string, asset: string, availableDelta: int, lockedDelta: int)
    : (r: Outcome<Balances>)
    ensures user !in l ==> r == Failed(l, UserNotFound(user))
    ensures user in l ==>
              (r.Done? <==> GetUserBalance(l, user, asset).available + availableDelta >= 0 &&
                            GetUserBalance(l, user, asset).locked + lockedDelta >= 0)
    ensures user in l && r.Failed? ==> r.error == InsufficientBalance(asset)
    ensures r.Done? ==>
              GetUserBalance(r.state, user, asset) ==
                Balance(GetUserBalance(l, user, asset).available + availableDelta,
                        GetUserBalance(l, user, asset).locked + lockedDelta)
    ensures r.Failed? ==> GetUserBalance(r.state, user, asset) == GetUserBalance(l, user, asset)
    ensures forall u, a :: (u != user || a != asset) ==> GetUserBalance(r.state, u, a) == GetUserBalance(l, u, a)
    ensures r.state.Keys == l.Keys
    ensures NonNegative(l) ==> NonNegative(r.state)
  {
    if user !in l then Failed(l, UserNotFound(user))
    else
      var current := GetUserBalance(l, user, asset);
      var available := current.available + availableDelta;
      var locked := current.locked + lockedDelta;
      if available < 0 || locked < 0 then
        Failed(l[user := l[user][asset := current]], InsufficientBalance(asset))
      else
        Done(l[user := l[user][asset := Balance(available, locked)]])
  }

  // ---------------------------------------------------------------------------
  // Ledger totals, the quantity settlement conserves

  /** A user's available plus locked amount of one asset. */
  function Held(h: Holdings, asset: string): int
  {
    if asset in h then h[asset].available + h[asset].locked else 0
  }

  /** Some user of a non-empty ledger. */
  ghost function AnyUser(l: Balances): (u: string)
    requires |l| > 0
    ensures u in l
  {
    var u :| u in l; u
  }

  /** Everything the ledger holds of `asset`, summed over all users. */
  ghost function Total(l: Balances, asset: string): int
    decreases |l|
  {
    if |l| == 0 then 0
    else
      var u := AnyUser(l);
      Held(l[u], asset) + Total(l - {u}, asset)
  }

  /** The total can be taken apart at any user, not only the one `Total` picks. */
  lemma {:induction false} TotalRemove(l: Balances, u: string, asset: string)
    requires u in l
    ensures Total(l, asset) == Held(l[u], asset) + Total(l - {u}, asset)
    decreases |l|
  {
    var v := AnyUser(l);
    if v != u {
      var lv, lu := l - {v}, l - {u};
      assert lv.Keys == l.Keys - {v} && lu.Keys == l.Keys - {u};
      assert |lv| < |l| && |lu| < |l|;
      TotalRemove(lv, u, asset);
      TotalRemove(lu, v, asset);
      assert lv[u] == l[u] && lu[v] == l[v];
      assert lv - {u} == lu - {v};
    }
  }

  /** Replacing one user's holdings changes the total by the difference. */
  lemma TotalReplace(l: Balances, u: string, h: Holdings, asset: string)
    requires u in l
    ensures Total(l[u := h], asset) == Total(l, asset) - Held(l[u], asset) + Held(h, asset)
  {
    TotalRemove(l, u, asset);
    TotalRemove(l[u := h], u, asset);
    assert l[u := h] - {u} == l - {u};
  }

  /** Adding a new user adds their holdings to the total. */
  lemma TotalInsert(l: Balances, u: string, h: Holdings, asset: string)
    requires u !in l
    ensures Total(l[u := h], asset) == Total(l, asset) + Held(h, asset)
  {
    TotalRemove(l[u := h], u, asset);
    assert l[u := h] - {u} == l;
  }

  /** A checked update moves the ledger's total of its asset by exactly the sum
      of the deltas when it succeeds, and changes no total when it fails. */
  lemma UpdateTotal(l: Balances, user: string, asset: string, availableDelta: int, lockedDelta: int, a: string)
    ensures var r := UpdateUserBalance(l, user, asset, availableDelta, lockedDelta);
            Total(r.state, a) == Total(l, a) + (if r.Done? && a == asset then availableDelta + lockedDelta else 0)
  {
    if user in l {
      var current := GetUserBalance(l, user, asset);
      var r := UpdateUserBalance(l, user, asset, availableDelta, lockedDelta);
      var h := if r.Done? then l[user][asset := Balance(current.available + availableDelta, current.locked + lockedDelta)]
               else l[user][asset := current];
      assert r.state == l[user := h];
      TotalReplace(l, user, h, a);
    }
  }

  // ---------------------------------------------------------------------------
  // Locking, settlement and on-ramp

  /** `checkAndLockFunds`: a buy locks `price * quantity` of the quote asset, a
      sell locks `quantity` of the base asset, moving it out of `available`. */
  function CheckAndLockFunds(l: Balances, baseAsset: string, quoteAsset: string, isBuy: bool,
                             user: string, price: int, quantity: int): (r: Outcome<Balances>)
    ensures var asset := if isBuy then quoteAsset else baseAsset;
            var amount := if isBuy then quantity * price else quantity;
            && (r.Done? <==> user in l && GetUserBalance(l, user, asset).available >= amount &&
                                          GetUserBalance(l, user, asset).locked + amount >= 0)
            && (r.Done? ==> GetUserBalance(r.state, user, asset) ==
                              Balance(GetUserBalance(l, user, asset).available - amount,
                                      GetUserBalance(l, user, asset).locked + amount))
            && (forall u, a :: (u != user || a != asset) ==> GetUserBalance(r.state, u, a) == GetUserBalance(l, u, a))
            && (r.Failed? ==> GetUserBalance(r.state, user, asset) == GetUserBalance(l, user, asset))
    ensures NonNegative(l) ==> NonNegative(r.state)
  {
    if isBuy then
      var required := quantity * price;
      UpdateUserBalance(l, user, quoteAsset, -required, required)
    else
      UpdateUserBalance(l, user, baseAsset, -quantity, quantity)
  }

  /** Locking moves funds between a user's two columns: no asset's total changes. */
  lemma LockConserves(l: Balances, baseAsset: string, quoteAsset: string, isBuy: bool,
                      user: string, price: int, quantity: int, a: string)
    ensures Total(CheckAndLockFunds(l, baseAsset, quoteAsset, isBuy, user, price, quantity).state, a) == Total(l, a)
  {
    if isBuy {
      UpdateTotal(l, user, quoteAsset, -(quantity * price), quantity * price, a);
    } else {
      UpdateTotal(l, user, baseAsset, -quantity, quantity, a);
    }
  }

  /** One checked update: a user, an asset and the two deltas. */
  datatype Step = Step(user: string, asset: string, availableDelta: int, lockedDelta: int)

  /** Run checked updates in order. The first thrown error ends the run and
      keeps what the earlier updates (and the failing one) already changed. */
  function Apply(l: Balances, steps: seq<Step>): (r: Outcome<Balances>)
    ensures NonNegative(l) ==> NonNegative(r.state)
    ensures r.state.Keys == l.Keys
    decreases |steps|
  {
    if |steps| == 0 then Done(l)
    else
      var s := steps[0];
      var o := UpdateUserBalance(l, s.user, s.asset, s.availableDelta, s.lockedDelta);
      if o.Failed? then o else Apply(o.state, steps[1..])
  }

  /** What the steps add to `asset`, over both columns and all users. */
  function Net(steps: seq<Step>, asset: string): int
  {
    if |steps| == 0 then 0
    else Delta(steps[0], asset) + Net(steps[1..], asset)
  }

  /** What one step adds to `asset`. */
  function Delta(s: Step, asset: string): int
  {
    if s.asset == asset then s.availableDelta + s.lockedDelta else 0
  }

  lemma NetCons(s: Step, rest: seq<Step>, a: string)
    ensures Net([s] + rest, a) == Delta(s, a) + Net(rest, a)
  {
    assert ([s] + rest)[1..] == rest;
  }

  lemma NetFour(s1: Step, s2: Step, s3: Step, s4: Step, a: string)
    ensures Net([s1, s2, s3, s4], a) == Delta(s1, a) + Delta(s2, a) + Delta(s3, a) + Delta(s4, a)
  {
    assert [s1, s2, s3, s4] == [s1] + [s2, s3, s4];
    assert [s2, s3, s4] == [s2] + [s3, s4];
    assert [s3, s4] == [s3] + [s4];
    NetCons(s1, [s2, s3, s4], a);
    NetCons(s2, [s3, s4], a);
    NetCons(s3, [s4], a);
    NetCons(s4, [], a);
    assert [s4] + [] == [s4];
  }

  lemma ApplyCons(l: Balances, s: Step, rest: seq<Step>)
    ensures var o := UpdateUserBalance(l, s.user, s.asset, s.availableDelta, s.lockedDelta);
            Apply(l, [s] + rest) == if o.Failed? then o else Apply(o.state, rest)
  {
    assert ([s] + rest)[1..] == rest;
  }

  /** A run of four steps that completes is the four updates chained. */
  lemma ApplyFour(l: Balances, s1: Step, s2: Step, s3: Step, s4: Step)
    requires Apply(l, [s1, s2, s3, s4]).Done?
    ensures var o1 := UpdateUserBalance(l, s1.user, s1.asset, s1.availableDelta, s1.lockedDelta);
            var o2 := UpdateUserBalance(o1.state, s2.user, s2.asset, s2.availableDelta, s2.lockedDelta);
            var o3 := UpdateUserBalance(o2.state, s3.user, s3.asset, s3.availableDelta, s3.lockedDelta);
            var o4 := UpdateUserBalance(o3.state, s4.user, s4.asset, s4.availableDelta, s4.lockedDelta);
            o1.Done? && o2.Done? && o3.Done? && o4.Done? && Apply(l, [s1, s2, s3, s4]) == o4
  {
    var o1 := UpdateUserBalance(l, s1.user, s1.asset, s1.availableDelta, s1.lockedDelta);
    var o2 := UpdateUserBalance(o1.state, s2.user, s2.asset, s2.availableDelta, s2.lockedDelta);
    var o3 := UpdateUserBalance(o2.state, s3.user, s3.asset, s3.availableDelta, s3.lockedDelta);
    assert [s1, s2, s3, s4] == [s1] + [s2, s3, s4];
    assert [s2, s3, s4] == [s2] + [s3, s4];
    assert [s3, s4] == [s3] + [s4];
    ApplyCons(l, s1, [s2, s3, s4]);
    ApplyCons(o1.state, s2, [s3, s4]);
    ApplyCons(o2.state, s3, [s4]);
    ApplyCons(o3.state, s4, []);
    assert [s4] + [] == [s4];
  }

  /** `b` after step `s`, as seen from user `u`'s balance in asset `a`. */
  function Shift(b: Balance, s: Step, u: string, a: string): Balance
  {
    if s.user == u && s.asset == a then Balance(b.available + s.availableDelta, b.locked + s.lockedDelta) else b
  }

  lemma StepAt(l: Balances, s: Step, u: string, a: string)
    requires UpdateUserBalance(l, s.user, s.asset, s.availableDelta, s.lockedDelta).Done?
    ensures GetUserBalance(UpdateUserBalance(l, s.user, s.asset, s.availableDelta, s.lockedDelta).state, u, a) ==
              Shift(GetUserBalance(l, u, a), s, u, a)
  {
  }

  /** Where a completed run of four steps leaves one balance. */
  lemma ApplyFourAt(l: Balances, s1: Step, s2: Step, s3: Step, s4: Step, u: string, a: string)
    requires Apply(l, [s1, s2, s3, s4]).Done?
    ensures GetUserBalance(Apply(l, [s1, s2, s3, s4]).state, u, a) ==
              Shift(Shift(Shift(Shift(GetUserBalance(l, u, a), s1, u, a), s2, u, a), s3, u, a), s4, u, a)
  {
    ApplyFour(l, s1, s2, s3, s4);
    var o1 := UpdateUserBalance(l, s1.user, s1.asset, s1.availableDelta, s1.lockedDelta);
    var o2 := UpdateUserBalance(o1.state, s2.user, s2.asset, s2.availableDelta, s2.lockedDelta);
    var o3 := UpdateUserBalance(o2.state, s3.user, s3.asset, s3.availableDelta, s3.lockedDelta);
    StepAt(l, s1, u, a);
    StepAt(o1.state, s2, u, a);
    StepAt(o2.state, s3, u, a);
    StepAt(o3.state, s4, u, a);
  }

  /** A run that completes moves each asset's total by the steps' net delta. */
  lemma {:induction false} ApplyTotal(l: Balances, steps: seq<Step>, a: string)
    requires Apply(l, steps).Done?
    ensures Total(Apply(l, steps).state, a) == Total(l, a) + Net(steps, a)
    decreases |steps|
  {
    if |steps| > 0 {
      var s := steps[0];
      var o := UpdateUserBalance(l, s.user, s.asset, s.availableDelta, s.lockedDelta);
      UpdateTotal(l, s.user, s.asset, s.availableDelta, s.lockedDelta, a);
      ApplyTotal(o.state, steps[1..], a);
    }
  }

  /** Running two batches back to back is running the first, then, unless it
      threw, the second from where the first left the ledger. */
  lemma {:induction false} ApplyAppend(l: Balances, first: seq<Step>, second: seq<Step>)
    ensures Apply(l, first + second) ==
              if Apply(l, first).Failed? then Apply(l, first) else Apply(Apply(l, first).state, second)
    decreases |first|
  {
    if |first| == 0 {
      assert first + second == second;
    } else {
      var s := first[0];
      var o := UpdateUserBalance(l, s.user, s.asset, s.availableDelta, s.lockedDelta);
      assert (first + second)[1..] == first[1..] + second;
      if o.Done? {
        ApplyAppend(o.state, first[1..], second);
      }
    }
  }

  lemma {:induction false} NetAppend(first: seq<Step>, second: seq<Step>, a: string)
    ensures Net(first + second, a) == Net(first, a) + Net(second, a)
    decreases |first|
  {
    if |first| == 0 {
      assert first + second == second;
    } else {
      assert (first + second)[1..] == first[1..] + second;
      NetAppend(first[1..], second, a);
    }
  }

  /** The four updates `updateBalancesAfterTrade` makes for one fill, in the
      source's order. For a buy the maker (seller) is credited the quote amount
      and releases locked base, then the taker (buyer) releases locked quote and
      is credited the base; for a sell the roles are mirrored. */
  function FillSteps(taker: string, maker: string, baseAsset: string, quoteAsset: string,
                     isBuy: bool, price: int, qty: int): seq<Step>
  {
    var amount := qty * price;
    if isBuy then
      [Step(maker, quoteAsset, amount, 0), Step(maker, baseAsset, 0, -qty),
       Step(taker, quoteAsset, 0, -amount), Step(taker, baseAsset, qty, 0)]
    else
      [Step(maker, quoteAsset, 0, -amount), Step(maker, baseAsset, qty, 0),
       Step(taker, quoteAsset, amount, 0), Step(taker, baseAsset, 0, -qty)]
  }

  /** A fill creates and destroys nothing: `qty * price` of the quote asset and
      `qty` of the base asset only change hands. */
  lemma FillStepsNet(taker: string, maker: string, baseAsset: string, quoteAsset: string,
                     isBuy: bool, price: int, qty: int, a: string)
    ensures Net(FillSteps(taker, maker, baseAsset, quoteAsset, isBuy, price, qty), a) == 0
  {
    var amount := qty * price;
    if isBuy {
      NetFour(Step(maker, quoteAsset, amount, 0), Step(maker, baseAsset, 0, -qty),
              Step(taker, quoteAsset, 0, -amount), Step(taker, baseAsset, qty, 0), a);
    } else {
      NetFour(Step(maker, quoteAsset, 0, -amount), Step(maker, baseAsset, qty, 0),
              Step(taker, quoteAsset, amount, 0), Step(taker, baseAsset, 0, -qty), a);
    }
  }

  /** Between two different users on a two-asset market, a completed buy fill
      moves `qty * price` of the quote asset from the buyer's (taker's) locked
      to the seller's (maker's) available ... */
  lemma SettleBuyQuote(l: Balances, taker: string, maker: string, baseAsset: string, quoteAsset: string,
                       price: int, qty: int)
    requires taker != maker && baseAsset != quoteAsset
    requires Apply(l, FillSteps(taker, maker, baseAsset, quoteAsset, true, price, qty)).Done?
    ensures var r := Apply(l, FillSteps(taker, maker, baseAsset, quoteAsset, true, price, qty)).state;
            var m, t := GetUserBalance(l, maker, quoteAsset), GetUserBalance(l, taker, quoteAsset);
            && GetUserBalance(r, maker, quoteAsset) == Balance(m.available + qty * price, m.locked)
            && GetUserBalance(r, taker, quoteAsset) == Balance(t.available, t.locked - qty * price)
  {
    var amount := qty * price;
    var s1, s2, s3, s4 := Step(maker, quoteAsset, amount, 0), Step(maker, baseAsset, 0, -qty), Step(taker, quoteAsset, 0, -amount), Step(taker, baseAsset, qty, 0);
    assert FillSteps(taker, maker, baseAsset, quoteAsset, true, price, qty) == [s1, s2, s3, s4];
    ApplyFourAt(l, s1, s2, s3, s4, maker, quoteAsset);
    ApplyFourAt(l, s1, s2, s3, s4, taker, quoteAsset);
  }

  /** ... and `qty` of the base asset from the seller's locked to the buyer's
      available. */
  lemma SettleBuyBase(l: Balances, taker: string, maker: string, baseAsset: string, quoteAsset: string,
                      price: int, qty: int)
    requires taker != maker && baseAsset != quoteAsset
    requires Apply(l, FillSteps(taker, maker, baseAsset, quoteAsset, true, price, qty)).Done?
    ensures var r := Apply(l, FillSteps(taker, maker, baseAsset, quoteAsset, true, price, qty)).state;
            var m, t := GetUserBalance(l, maker, baseAsset), GetUserBalance(l, taker, baseAsset);
            && GetUserBalance(r, maker, baseAsset) == Balance(m.available, m.locked - qty)
            && GetUserBalance(r, taker, baseAsset) == Balance(t.available + qty, t.locked)
  {
    var amount := qty * price;
    var s1, s2, s3, s4 := Step(maker, quoteAsset, amount, 0), Step(maker, baseAsset, 0, -qty), Step(taker, quoteAsset, 0, -amount), Step(taker, baseAsset, qty, 0);
    assert FillSteps(taker, maker, baseAsset, quoteAsset, true, price, qty) == [s1, s2, s3, s4];
    ApplyFourAt(l, s1, s2, s3, s4, maker, baseAsset);
    ApplyFourAt(l, s1, s2, s3, s4, taker, baseAsset);
  }

  /** For a sell the maker is the buyer: `qty * price` of the quote asset moves
      from the maker's locked to the taker's available ... */
  lemma SettleSellQuote(l: Balances, taker: string, maker: string, baseAsset: string, quoteAsset: string,
                        price: int, qty: int)
    requires taker != maker && baseAsset != quoteAsset
    requires Apply(l, FillSteps(taker, maker, baseAsset, quoteAsset, false, price, qty)).Done?
    ensures var r := Apply(l, FillSteps(taker, maker, baseAsset, quoteAsset, false, price, qty)).state;
            var m, t := GetUserBalance(l, maker, quoteAsset), GetUserBalance(l, taker, quoteAsset);
            && GetUserBalance(r, maker, quoteAsset) == Balance(m.available, m.locked - qty * price)
            && GetUserBalance(r, taker, quoteAsset) == Balance(t.available + qty * price, t.locked)
  {
    var amount := qty * price;
    var s1, s2, s3, s4 := Step(maker, quoteAsset, 0, -amount), Step(maker, baseAsset, qty, 0), Step(taker, quoteAsset, amount, 0), Step(taker, baseAsset, 0, -qty);
    assert FillSteps(taker, maker, baseAsset, quoteAsset, false, price, qty) == [s1, s2, s3, s4];
    ApplyFourAt(l, s1, s2, s3, s4, maker, quoteAsset);
    ApplyFourAt(l, s1, s2, s3, s4, taker, quoteAsset);
  }

  /** ... and `qty` of the base asset from the taker's locked to the maker's
      available. */
  lemma SettleSellBase(l: Balances, taker: string, maker: string, baseAsset: string, quoteAsset: string,
                       price: int, qty: int)
    requires taker != maker && baseAsset != quoteAsset
    requires Apply(l, FillSteps(taker, maker, baseAsset, quoteAsset, false, price, qty)).Done?
    ensures var r := Apply(l, FillSteps(taker, maker, baseAsset, quoteAsset, false, price, qty)).state;
            var m, t := GetUserBalance(l, maker, baseAsset), GetUserBalance(l, taker, baseAsset);
            && GetUserBalance(r, maker, baseAsset) == Balance(m.available + qty, m.locked)
            && GetUserBalance(r, taker, baseAsset) == Balance(t.available, t.locked - qty)
  {
    var amount := qty * price;
    var s1, s2, s3, s4 := Step(maker, quoteAsset, 0, -amount), Step(maker, baseAsset, qty, 0), Step(taker, quoteAsset, amount, 0), Step(taker, baseAsset, 0, -qty);
    assert FillSteps(taker, maker, baseAsset, quoteAsset, false, price, qty) == [s1, s2, s3, s4];
    ApplyFourAt(l, s1, s2, s3, s4, maker, baseAsset);
    ApplyFourAt(l, s1, s2, s3, s4, taker, baseAsset);
  }

  /** A self-trade (the taker is also the maker, which matching never rules
      out): on a two-asset market the user's `qty * price` of quote and `qty` of
      base both move from locked to available, whichever side the taker was on. */
  lemma SettleSelfTrade(l: Balances, u: string, baseAsset: string, quoteAsset: string,
                        isBuy: bool, price: int, qty: int)
    requires baseAsset != quoteAsset
    requires Apply(l, FillSteps(u, u, baseAsset, quoteAsset, isBuy, price, qty)).Done?
    ensures var r := Apply(l, FillSteps(u, u, baseAsset, quoteAsset, isBuy, price, qty)).state;
            var q, b := GetUserBalance(l, u, quoteAsset), GetUserBalance(l, u, baseAsset);
            && GetUserBalance(r, u, quoteAsset) == Balance(q.available + qty * price, q.locked - qty * price)
            && GetUserBalance(r, u, baseAsset) == Balance(b.available + qty, b.locked - qty)
  {
    var steps := FillSteps(u, u, baseAsset, quoteAsset, isBuy, price, qty);
    assert steps == [steps[0], steps[1], steps[2], steps[3]];
    ApplyFourAt(l, steps[0], steps[1], steps[2], steps[3], u, quoteAsset);
    ApplyFourAt(l, steps[0], steps[1], steps[2], steps[3], u, baseAsset);
  }

  /** On a market whose base and quote asset coincide (a book for the base
      currency itself), all four updates of a fill hit the same asset. */
  lemma SettleSameAsset(l: Balances, taker: string, maker: string, asset: string,
                        isBuy: bool, price: int, qty: int)
    requires Apply(l, FillSteps(taker, maker, asset, asset, isBuy, price, qty)).Done?
    ensures var r := Apply(l, FillSteps(taker, maker, asset, asset, isBuy, price, qty)).state;
            var m, t := GetUserBalance(l, maker, asset), GetUserBalance(l, taker, asset);
            var amount := qty * price;
            if taker == maker then
              GetUserBalance(r, taker, asset) == Balance(t.available + amount + qty, t.locked - amount - qty)
            else if isBuy then
              && GetUserBalance(r, maker, asset) == Balance(m.available + amount, m.locked - qty)
              && GetUserBalance(r, taker, asset) == Balance(t.available + qty, t.locked - amount)
            else
              && GetUserBalance(r, maker, asset) == Balance(m.available + qty, m.locked - amount)
              && GetUserBalance(r, taker, asset) == Balance(t.available + amount, t.locked - qty)
  {
    var steps := FillSteps(taker, maker, asset, asset, isBuy, price, qty);
    assert steps == [steps[0], steps[1], steps[2], steps[3]];
    ApplyFourAt(l, steps[0], steps[1], steps[2], steps[3], maker, asset);
    ApplyFourAt(l, steps[0], steps[1], steps[2], steps[3], taker, asset);
  }

  /** One fill as the ledger sees it: the maker's user, the price and quantity. */
  datatype Trade = Trade(maker: string, price: int, qty: int)

  /** Every fill's four updates, fill after fill. */
  function TradeSteps(taker: string, baseAsset: string, quoteAsset: string, isBuy: bool, trades: seq<Trade>): seq<Step>
    decreases |trades|
  {
    if |trades| == 0 then []
    else
      var t := trades[0];
      FillSteps(taker, t.maker, baseAsset, quoteAsset, isBuy, t.price, t.qty) +
      TradeSteps(taker, baseAsset, quoteAsset, isBuy, trades[1..])
  }

  /** `updateBalancesAfterTrade`: settle every fill in order. A thrown error
      ends the loop with the earlier fills, and the failing fill's earlier
      updates, already applied. */
  function UpdateBalancesAfterTrade(l: Balances, taker: string, baseAsset: string, quoteAsset: string, isBuy: bool,
                                    trades: seq<Trade>): (r: Outcome<Balances>)
    ensures NonNegative(l) ==> NonNegative(r.state)
    ensures r.state.Keys == l.Keys
  {
    Apply(l, TradeSteps(taker, baseAsset, quoteAsset, isBuy, trades))
  }

  /** The first fill settles first: when its four updates throw, the later
      fills are never looked at. */
  lemma SettleFirstFill(l: Balances, taker: string, baseAsset: string, quoteAsset: string, isBuy: bool,
                        t: Trade, trades: seq<Trade>)
    ensures var first := Apply(l, FillSteps(taker, t.maker, baseAsset, quoteAsset, isBuy, t.price, t.qty));
            UpdateBalancesAfterTrade(l, taker, baseAsset, quoteAsset, isBuy, [t] + trades) ==
              if first.Failed? then first
              else UpdateBalancesAfterTrade(first.state, taker, baseAsset, quoteAsset, isBuy, trades)
  {
    assert ([t] + trades)[1..] == trades;
    ApplyAppend(l, FillSteps(taker, t.maker, baseAsset, quoteAsset, isBuy, t.price, t.qty),
                TradeSteps(taker, baseAsset, quoteAsset, isBuy, trades));
  }

  lemma {:induction false} TradeStepsNet(taker: string, baseAsset: string, quoteAsset: string, isBuy: bool,
                                         trades: seq<Trade>, a: string)
    ensures Net(TradeSteps(taker, baseAsset, quoteAsset, isBuy, trades), a) == 0
    decreases |trades|
  {
    if |trades| > 0 {
      var t := trades[0];
      NetAppend(FillSteps(taker, t.maker, baseAsset, quoteAsset, isBuy, t.price, t.qty),
                TradeSteps(taker, baseAsset, quoteAsset, isBuy, trades[1..]), a);
      FillStepsNet(taker, t.maker, baseAsset, quoteAsset, isBuy, t.price, t.qty, a);
      TradeStepsNet(taker, baseAsset, quoteAsset, isBuy, trades[1..], a);
    }
  }

  /** A settlement that completes conserves every asset's ledger total. */
  lemma SettleConserves(l: Balances, taker: string, baseAsset: string, quoteAsset: string,
                        isBuy: bool, trades: seq<Trade>, a: string)
    requires UpdateBalancesAfterTrade(l, taker, baseAsset, quoteAsset, isBuy, trades).Done?
    ensures Total(UpdateBalancesAfterTrade(l, taker, baseAsset, quoteAsset, isBuy, trades).state, a) == Total(l, a)
  {
    ApplyTotal(l, TradeSteps(taker, baseAsset, quoteAsset, isBuy, trades), a);
    TradeStepsNet(taker, baseAsset, quoteAsset, isBuy, trades, a);
  }

  /** `onRamp`: credit `amount` to the user's available base currency, creating
      the user (holding only that) or the entry when missing. */
  function OnRamp(l: Balances, user: string, amount: int): (r: Balances)
    ensures r.Keys == l.Keys + {user}
    ensures user !in l ==> r[user] == map[BaseCurrency := Balance(amount, 0)]
    ensures GetUserBalance(r, user, BaseCurrency) ==
              GetUserBalance(l, user, BaseCurrency).(available := GetUserBalance(l, user, BaseCurrency).available + amount)
    ensures forall u, a :: (u != user || a != BaseCurrency) ==> GetUserBalance(r, u, a) == GetUserBalance(l, u, a)
    ensures NonNegative(l) && amount >= 0 ==> NonNegative(r)
  {
    if user !in l then l[user := map[BaseCurrency := Balance(amount, 0)]]
    else
      var current := GetUserBalance(l, user, BaseCurrency);
      l[user := l[user][BaseCurrency := current.(available := current.available + amount)]]
  }

  /** An on-ramp adds exactly `amount` to the ledger's base currency and leaves
      every other asset's total alone. */
  lemma OnRampTotal(l: Balances, user: string, amount: int, a: string)
    ensures Total(OnRamp(l, user, amount), a) == Total(l, a) + (if a == BaseCurrency then amount else 0)
  {
    if user !in l {
      TotalInsert(l, user, map[BaseCurrency := Balance(amount, 0)], a);
    } else {
      var current := GetUserBalance(l, user, BaseCurrency);
      TotalReplace(l, user, l[user][BaseCurrency := current.(available := current.available + amount)], a);
    }
  }

  /** `handleOnRamp`: a NaN or non-positive amount is refused, anything else is
      credited. */
  function HandleOnRamp(l: Balances, user: string, amount: Num): (r: Result<Balances>)
    ensures r.Err? <==> amount.NaN? || amount.value <= 0
    ensures r.Err? ==> r.error == InvalidOnRampAmount
    ensures r.Ok? ==> GetUserBalance(r.value, user, BaseCurrency).available ==
                        GetUserBalance(l, user, BaseCurrency).available + amount.value
    ensures r.Ok? && NonNegative(l) ==> NonNegative(r.value)
  {
    if amount.NaN? || amount.value <= 0 then Err(InvalidOnRampAmount)
    else Ok(OnRamp(l, user, amount.value))
  }
}
