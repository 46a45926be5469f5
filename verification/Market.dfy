/** `TickerlessMarket` trading `DemoToken` assets against a `DemoPaymentToken`. */
module Market {
  import opened Evm
  import opened DemoTokens
  import opened PaymentTokens
  import opened Pricing

  /** The market's storage, and the storage of every token deployed beside it. */
  datatype World = World(
    self: Address,
    payment: Address,
    owner: Address,
    entered: bool,
    prices: map<Address, uint256>,
    ledgers: map<Address, Ledger>,
    claimed: set<Address>)
  {
    function Price(asset: Address): uint256 {
      if asset in prices then prices[asset] else 0
    }

    function Balance(token: Address, account: Address): uint256 {
      if token in ledgers then ledgers[token].Balance(account) else 0
    }

    function Allowance(token: Address, holder: Address, spender: Address): uint256 {
      if token in ledgers then ledgers[token].Allowance(holder, spender) else 0
    }

    /** Tokens are backed, the payment token exists and is not itself listed, no call is
        in progress, and the market has never granted an allowance. */
    ghost predicate Valid() {
      && self != ZERO_ADDRESS
      && payment in ledgers
      && payment !in prices
      && !entered
      && forall token <- ledgers ::
           ledgers[token].Backed() && forall spender: Address :: ledgers[token].Allowance(self, spender) == 0
    }
  }

  // What each entry point does

  function CallToken(w: World, token: Address, caller: Address, op: Op): Outcome<World> {
    if token !in w.ledgers then Revert(NotAContract)
    else
      var l :- Apply(w.ledgers[token], caller, op);
      Ok(w.(ledgers := w.ledgers[token := l]))
  }

  /** The two token calls of a trade: take from the trader, then give. */
  function Exchange(w: World, trader: Address, taken: Address, takenAmount: uint256, given: Address, givenAmount: uint256)
    : Outcome<World>
  {
    var w' :- CallToken(w, taken, w.self, TransferFrom(trader, w.self, takenAmount));
    CallToken(w', given, w'.self, Transfer(trader, givenAmount))
  }

  function Buy(w: World, caller: Address, asset: Address, amountUsdc: uint256, minimum: uint256)
    : Outcome<(World, uint256)>
  {
    if w.entered then Revert(ReentrantCall)
    else
      var w1 := w.(entered := true);
      var tokenAmount :- Quote(w1.Price(asset), amountUsdc);
      if tokenAmount < minimum then Revert(InsufficientOutput)
      else
        var w2 :- Exchange(w1, caller, w1.payment, amountUsdc, asset, tokenAmount);
        Ok((w2.(entered := false), tokenAmount))
  }

  function Sell(w: World, caller: Address, asset: Address, tokenAmount: uint256, minimum: uint256)
    : Outcome<(World, uint256)>
  {
    if w.entered then Revert(ReentrantCall)
    else
      var w1 := w.(entered := true);
      var amountUsdc :- QuoteSell(w1.Price(asset), tokenAmount);
      if amountUsdc < minimum then Revert(InsufficientOutput)
      else
        var w2 :- Exchange(w1, caller, asset, tokenAmount, w1.payment, amountUsdc);
        Ok((w2.(entered := false), amountUsdc))
  }

  function SetAssetPrice(w: World, caller: Address, asset: Address, price: uint256): Outcome<World> {
    if caller != w.owner then Revert(Unauthorized)
    else if asset == ZERO_ADDRESS then Revert(ZeroAddress)
    else if price == 0 then Revert(InvalidPrice)
    else Ok(w.(prices := w.prices[asset := price]))
  }

  function WithdrawAsset(w: World, caller: Address, asset: Address, recipient: Address, amount: uint256)
    : Outcome<World>
  {
    if caller != w.owner then Revert(Unauthorized)
    else if recipient == ZERO_ADDRESS then Revert(ZeroAddress)
    else CallToken(w, asset, w.self, Transfer(recipient, amount))
  }

  function TransferMarket(w: World, caller: Address, newOwner: Address): Outcome<World> {
    if caller != w.owner then Revert(Unauthorized)
    else if newOwner == ZERO_ADDRESS then Revert(ZeroAddress)
    else Ok(w.(owner := newOwner))
  }

  function ClaimFaucet(w: World, caller: Address): Outcome<World> {
    if w.payment !in w.ledgers then Revert(NotAContract)
    else
      var f :- ApplyFaucet(Faucet(w.ledgers[w.payment], w.claimed), FaucetCall.Claim(caller));
      Ok(w.(ledgers := w.ledgers[w.payment := f.token], claimed := f.claimed))
  }

  // What a trade moves

  /** Exactly one ledger differs between the two worlds, by one movement. */
  ghost predicate LedgerMoved(w: World, w': World, token: Address, sender: Address, recipient: Address, amount: nat) {
    && token in w.ledgers && token in w'.ledgers
    && w'.ledgers[token].Backed()
    && Moved(w.ledgers[token], w'.ledgers[token], sender, recipient, amount)
  }

  ghost predicate OnlyLedgersChanged(w: World, w': World, tokens: set<Address>) {
    && w' == w.(ledgers := w'.ledgers)
    && w'.ledgers.Keys == w.ledgers.Keys
    && forall token <- w.ledgers :: token !in tokens ==> w'.ledgers[token] == w.ledgers[token]
  }

  /** What the holder allowed the market is used up, unless it was unlimited. */
  ghost predicate AllowanceSpent(w: World, w': World, token: Address, holder: Address, amount: nat) {
    forall h: Address, s: Address ::
      w'.Allowance(token, h, s) ==
      w.Allowance(token, h, s) -
      if h == holder && s == w.self && w.Allowance(token, h, s) != MAX_UINT256 then amount else 0
  }

  lemma BuyMoves(w: World, caller: Address, asset: Address, amountUsdc: uint256, minimum: uint256)
    requires w.Valid() && caller != w.self
    ensures Buy(w, caller, asset, amountUsdc, minimum).Ok? <==>
            && Quote(w.Price(asset), amountUsdc).Ok?
            && minimum <= Quote(w.Price(asset), amountUsdc).value <= w.Balance(asset, w.self)
            && amountUsdc <= w.Balance(w.payment, caller)
            && amountUsdc <= w.Allowance(w.payment, caller, w.self)
            && caller != ZERO_ADDRESS
    ensures match Buy(w, caller, asset, amountUsdc, minimum)
            case Revert(_) => true
            case Ok((w', t)) =>
              && Quote(w.Price(asset), amountUsdc) == Ok(t)
              && OnlyLedgersChanged(w, w', {w.payment, asset})
              && LedgerMoved(w, w', w.payment, caller, w.self, amountUsdc)
              && LedgerMoved(w, w', asset, w.self, caller, t)
              && w'.ledgers[asset].allowances == w.ledgers[asset].allowances
              && AllowanceSpent(w, w', w.payment, caller, amountUsdc)
  {
    TransferFromIsExact(w.ledgers[w.payment], w.self, caller, w.self, amountUsdc);
    var quoted := Quote(w.Price(asset), amountUsdc);
    if quoted.Ok? && asset in w.ledgers {
      MoveIsExact(w.ledgers[asset], w.self, caller, quoted.value);
    }
  }

  /** A buy either changes nothing or moves exactly the amount paid and the most it covers,
      conserving both supplies; it goes through exactly when the asset is listed, the payment
      covers at least one unit, the minimum, and no more than the market has, and the buyer
      has the funds and has allowed the market to take them. */
  lemma BuyIsExact(w: World, caller: Address, asset: Address, amountUsdc: uint256, minimum: uint256)
    requires w.Valid() && caller != w.self
    ensures var price, scaled := w.Price(asset), amountUsdc * ASSET_UNIT;
      Buy(w, caller, asset, amountUsdc, minimum).Ok? <==>
            && 0 < price <= scaled <= MAX_UINT256
            && price * minimum <= scaled < price * (w.Balance(asset, w.self) + 1)
            && amountUsdc <= w.Balance(w.payment, caller)
            && amountUsdc <= w.Allowance(w.payment, caller, w.self)
            && caller != ZERO_ADDRESS
    ensures match Buy(w, caller, asset, amountUsdc, minimum)
            case Revert(_) => true
            case Ok((w', t)) =>
              && w.Price(asset) * t <= amountUsdc * ASSET_UNIT < w.Price(asset) * (t + 1)
              && OnlyLedgersChanged(w, w', {w.payment, asset})
              && LedgerMoved(w, w', w.payment, caller, w.self, amountUsdc)
              && LedgerMoved(w, w', asset, w.self, caller, t)
              && w'.ledgers[asset].allowances == w.ledgers[asset].allowances
              && AllowanceSpent(w, w', w.payment, caller, amountUsdc)
  {
    BuyMoves(w, caller, asset, amountUsdc, minimum);
    QuoteIsExact(w.Price(asset), amountUsdc);
    QuoteBetween(w.Price(asset), amountUsdc, minimum, w.Balance(asset, w.self));
  }

  /** The reason of a refused buy, in the order of the checks. */
  lemma BuyRefusal(w: World, caller: Address, asset: Address, amountUsdc: uint256, minimum: uint256)
    requires w.Valid() && caller != w.self
    ensures var price, scaled := w.Price(asset), amountUsdc * ASSET_UNIT;
      match Buy(w, caller, asset, amountUsdc, minimum)
      case Ok(_) => true
      case Revert(e) =>
        e == (if price == 0 then UnsupportedAsset
              else if scaled > MAX_UINT256 then Overflow
              else if scaled < price then InvalidAmount
              else if scaled < price * minimum then InsufficientOutput
              else if w.Allowance(w.payment, caller, w.self) < amountUsdc then InsufficientAllowance
              else if w.Balance(w.payment, caller) < amountUsdc then InsufficientBalance
              else if asset !in w.ledgers then NotAContract
              else if caller == ZERO_ADDRESS then ZeroAddress
              else InsufficientBalance)
  {
    QuoteIsExact(w.Price(asset), amountUsdc);
    QuoteBetween(w.Price(asset), amountUsdc, minimum, MAX_UINT256);
    var quoted := Quote(w.Price(asset), amountUsdc);
    if quoted.Ok? {
      Grows(w.Price(asset), quoted.value + 1, MAX_UINT256 + 1);
      TransferFromIsExact(w.ledgers[w.payment], w.self, caller, w.self, amountUsdc);
      if asset in w.ledgers {
        TransferIsExact(w.ledgers[asset], w.self, caller, quoted.value);
      }
    }
  }

  lemma SellMoves(w: World, caller: Address, asset: Address, tokenAmount: uint256, minimum: uint256)
    requires w.Valid() && caller != w.self
    ensures Sell(w, caller, asset, tokenAmount, minimum).Ok? <==>
            && QuoteSell(w.Price(asset), tokenAmount).Ok?
            && minimum <= QuoteSell(w.Price(asset), tokenAmount).value <= w.Balance(w.payment, w.self)
            && tokenAmount <= w.Balance(asset, caller)
            && tokenAmount <= w.Allowance(asset, caller, w.self)
            && caller != ZERO_ADDRESS
    ensures match Sell(w, caller, asset, tokenAmount, minimum)
            case Revert(_) => true
            case Ok((w', x)) =>
              && QuoteSell(w.Price(asset), tokenAmount) == Ok(x)
              && OnlyLedgersChanged(w, w', {w.payment, asset})
              && LedgerMoved(w, w', asset, caller, w.self, tokenAmount)
              && LedgerMoved(w, w', w.payment, w.self, caller, x)
              && w'.ledgers[w.payment].allowances == w.ledgers[w.payment].allowances
              && AllowanceSpent(w, w', asset, caller, tokenAmount)
  {
    var quoted := QuoteSell(w.Price(asset), tokenAmount);
    if quoted.Ok? {
      MoveIsExact(w.ledgers[w.payment], w.self, caller, quoted.value);
      if asset in w.ledgers {
        TransferFromIsExact(w.ledgers[asset], w.self, caller, w.self, tokenAmount);
      }
    }
  }

  /** The same for a sale, which pays the most that the tokens are worth. */
  lemma SellIsExact(w: World, caller: Address, asset: Address, tokenAmount: uint256, minimum: uint256)
    requires w.Valid() && caller != w.self
    ensures var worth := w.Price(asset) * tokenAmount;
      Sell(w, caller, asset, tokenAmount, minimum).Ok? <==>
            && ASSET_UNIT <= worth <= MAX_UINT256
            && ASSET_UNIT * minimum <= worth < ASSET_UNIT * (w.Balance(w.payment, w.self) + 1)
            && tokenAmount <= w.Balance(asset, caller)
            && tokenAmount <= w.Allowance(asset, caller, w.self)
            && caller != ZERO_ADDRESS
    ensures match Sell(w, caller, asset, tokenAmount, minimum)
            case Revert(_) => true
            case Ok((w', x)) =>
              && ASSET_UNIT * x <= w.Price(asset) * tokenAmount < ASSET_UNIT * (x + 1)
              && OnlyLedgersChanged(w, w', {w.payment, asset})
              && LedgerMoved(w, w', asset, caller, w.self, tokenAmount)
              && LedgerMoved(w, w', w.payment, w.self, caller, x)
              && w'.ledgers[w.payment].allowances == w.ledgers[w.payment].allowances
              && AllowanceSpent(w, w', asset, caller, tokenAmount)
  {
    SellMoves(w, caller, asset, tokenAmount, minimum);
    QuoteSellIsExact(w.Price(asset), tokenAmount);
    QuoteSellBetween(w.Price(asset), tokenAmount, minimum, w.Balance(w.payment, w.self));
  }

  lemma SellRefusal(w: World, caller: Address, asset: Address, tokenAmount: uint256, minimum: uint256)
    requires w.Valid() && caller != w.self
    ensures var worth := w.Price(asset) * tokenAmount;
      match Sell(w, caller, asset, tokenAmount, minimum)
      case Ok(_) => true
      case Revert(e) =>
        e == (if w.Price(asset) == 0 then UnsupportedAsset
              else if worth > MAX_UINT256 then Overflow
              else if worth < ASSET_UNIT then InvalidAmount
              else if worth < ASSET_UNIT * minimum then InsufficientOutput
              else if asset !in w.ledgers then NotAContract
              else if w.Allowance(asset, caller, w.self) < tokenAmount then InsufficientAllowance
              else if w.Balance(asset, caller) < tokenAmount then InsufficientBalance
              else if caller == ZERO_ADDRESS then ZeroAddress
              else InsufficientBalance)
  {
    QuoteSellIsExact(w.Price(asset), tokenAmount);
    QuoteSellBetween(w.Price(asset), tokenAmount, minimum, MAX_UINT256);
    var quoted := QuoteSell(w.Price(asset), tokenAmount);
    if quoted.Ok? && asset in w.ledgers {
      TransferFromIsExact(w.ledgers[asset], w.self, caller, w.self, tokenAmount);
      TransferIsExact(w.ledgers[w.payment], w.self, caller, quoted.value);
    }
  }

  // Administration and the rest

  /** The owner alone lists an asset, at any price but zero, and no other price changes. */
  lemma SetAssetPriceIsExact(w: World, caller: Address, asset: Address, price: uint256)
    ensures match SetAssetPrice(w, caller, asset, price)
            case Ok(w') =>
              && caller == w.owner && asset != ZERO_ADDRESS && price > 0
              && w' == w.(prices := w'.prices)
              && forall a: Address :: w'.Price(a) == if a == asset then price else w.Price(a)
            case Revert(e) =>
              || (e == Unauthorized && caller != w.owner)
              || (e == ZeroAddress && caller == w.owner && asset == ZERO_ADDRESS)
              || (e == InvalidPrice && caller == w.owner && asset != ZERO_ADDRESS && price == 0)
  {
  }

  /** The owner alone hands the market over, and nothing else changes. */
  lemma TransferMarketIsExact(w: World, caller: Address, newOwner: Address)
    ensures match TransferMarket(w, caller, newOwner)
            case Ok(w') => caller == w.owner && w'.owner == newOwner != ZERO_ADDRESS && w' == w.(owner := w'.owner)
            case Revert(e) =>
              || (e == Unauthorized && caller != w.owner)
              || (e == ZeroAddress && caller == w.owner && newOwner == ZERO_ADDRESS)
  {
  }

  /** The owner alone takes tokens out, as much as the market has, and no other ledger changes. */
  lemma WithdrawAssetIsExact(w: World, caller: Address, asset: Address, recipient: Address, amount: uint256)
    requires w.Valid()
    ensures match WithdrawAsset(w, caller, asset, recipient, amount)
            case Ok(w') =>
              && caller == w.owner && amount <= w.Balance(asset, w.self)
              && OnlyLedgersChanged(w, w', {asset}) && LedgerMoved(w, w', asset, w.self, recipient, amount)
            case Revert(e) =>
              e == (if caller != w.owner then Unauthorized
                    else if recipient == ZERO_ADDRESS then ZeroAddress
                    else if asset !in w.ledgers then NotAContract
                    else InsufficientBalance)
              && (e == InsufficientBalance ==> amount > w.Balance(asset, w.self))
  {
    if asset in w.ledgers {
      TransferIsExact(w.ledgers[asset], w.self, recipient, amount);
    }
  }

  /** While a call is in progress every trade is refused as reentrant, before anything else. */
  lemma LockedTradesRevert(w: World, caller: Address, asset: Address, amount: uint256, minimum: uint256)
    requires w.entered
    ensures Buy(w, caller, asset, amount, minimum) == Revert(ReentrantCall)
    ensures Sell(w, caller, asset, amount, minimum) == Revert(ReentrantCall)
  {
  }
}
