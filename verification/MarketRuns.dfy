/** Whole runs of the market and its tokens: the value the market holds. */
module MarketRuns {
  import opened Evm
  import opened MapSums
  import opened DemoTokens
  import opened PaymentTokens
  import opened Pricing
  import opened Market

  datatype Action =
    | TokenCall(token: Address, call: Call)
    | Claim(caller: Address)
    | Buy(caller: Address, asset: Address, amountUsdc: uint256, minimum: uint256)
    | Sell(caller: Address, asset: Address, tokenAmount: uint256, minimum: uint256)
    | SetPrice(caller: Address, asset: Address, price: uint256)
    | Withdraw(caller: Address, asset: Address, recipient: Address, amount: uint256)
    | TransferMarket(caller: Address, newOwner: Address)
  {
    function Caller(): Address {
      if TokenCall? then call.caller else caller
    }
  }

  function Perform(w: World, action: Action): Outcome<World> {
    match action
    case TokenCall(token, call) => CallToken(w, token, call.caller, call.op)
    case Claim(caller) => ClaimFaucet(w, caller)
    case Buy(caller, asset, amountUsdc, minimum) =>
      var (w', _) :- Market.Buy(w, caller, asset, amountUsdc, minimum);
      Ok(w')
    case Sell(caller, asset, tokenAmount, minimum) =>
      var (w', _) :- Market.Sell(w, caller, asset, tokenAmount, minimum);
      Ok(w')
    case SetPrice(caller, asset, price) => SetAssetPrice(w, caller, asset, price)
    case Withdraw(caller, asset, recipient, amount) => WithdrawAsset(w, caller, asset, recipient, amount)
    case TransferMarket(caller, newOwner) => Market.TransferMarket(w, caller, newOwner)
  }

  function Step(w: World, action: Action): World {
    Perform(w, action).GetOr(w)
  }

  function Run(w: World, actions: seq<Action>): World
    decreases actions
  {
    if actions == [] then w else Run(Step(w, actions[0]), actions[1..])
  }

  /** The standing assumptions: only the market's own code calls from its address, and the
      owner does not list the payment token as an asset. */
  predicate Ordinary(self: Address, payment: Address, action: Action) {
    && action.Caller() != self
    && (action.SetPrice? ==> action.asset != payment)
  }

  // The value of the market

  function Worth(w: World, asset: Address): nat {
    w.Price(asset) * w.Balance(asset, w.self)
  }

  ghost function Holdings(w: World): map<Address, nat> {
    map asset <- w.prices :: Worth(w, asset)
  }

  /** In units of 1e-24 payment tokens: the payment balance plus every listed asset at its price. */
  ghost function Value(w: World): nat {
    ASSET_UNIT * w.Balance(w.payment, w.self) + Sum(Holdings(w))
  }

  /** What one unit of a token counts for in the market's value. */
  function Weight(w: World, token: Address): nat {
    if token == w.payment then ASSET_UNIT else w.Price(token)
  }

  lemma Distribute(a: int, b: int, c: int)
    ensures a * (b - c) == a * b - a * c
    ensures (b - c) * a == b * a - c * a
  {
  }

  /** When one asset's worth changes, the holdings change by the same amount. */
  lemma HoldingsOf(w: World, w': World, asset: Address)
    requires w'.prices.Keys == w.prices.Keys + {asset}
    requires forall a <- w.prices :: a != asset ==> Worth(w', a) == Worth(w, a)
    ensures Sum(Holdings(w')) == Sum(Holdings(w)) + Worth(w', asset) - Worth(w, asset)
  {
    SumUpdate(Holdings(w), asset, Worth(w', asset));
    assert Holdings(w') == Holdings(w)[asset := Worth(w', asset)];
  }

  lemma ValueOfLedger(w: World, token: Address, l: Ledger)
    requires w.payment !in w.prices && token in w.ledgers
    ensures Value(w.(ledgers := w.ledgers[token := l])) ==
            Value(w) + Weight(w, token) * (l.Balance(w.self) - w.Balance(token, w.self))
  {
    var w' := w.(ledgers := w.ledgers[token := l]);
    Distribute(Weight(w, token), l.Balance(w.self), w.Balance(token, w.self));
    if token in w.prices {
      HoldingsOf(w, w', token);
    } else {
      assert Holdings(w') == Holdings(w);
    }
  }

  lemma ValueOfPrice(w: World, asset: Address, price: uint256)
    requires asset != w.payment
    ensures Value(w.(prices := w.prices[asset := price])) ==
            Value(w) + (price - w.Price(asset)) * w.Balance(asset, w.self)
  {
    Distribute(w.Balance(asset, w.self), price, w.Price(asset));
    HoldingsOf(w, w.(prices := w.prices[asset := price]), asset);
  }

  /** What a token call adds to the market's balance in that token. */
  function MarketReceives(self: Address, caller: Address, op: Op): int {
    match op
    case Transfer(recipient, amount) => Delta(self, caller, recipient, amount)
    case TransferFrom(sender, recipient, amount) => Delta(self, sender, recipient, amount)
    case Mint(recipient, amount) => if recipient == self then amount else 0
    case _ => 0
  }

  lemma TokenCallBalance(l: Ledger, self: Address, caller: Address, op: Op)
    requires l.Backed() && Apply(l, caller, op).Ok?
    ensures Apply(l, caller, op).value.Balance(self) == l.Balance(self) + MarketReceives(self, caller, op)
  {
    match op
    case Transfer(recipient, amount) => MoveIsExact(l, caller, recipient, amount);
    case TransferFrom(sender, recipient, amount) => TransferFromIsExact(l, caller, sender, recipient, amount);
    case Mint(recipient, amount) => IssueIsExact(l, recipient, amount);
    case _ =>
  }

  /** What each successful action adds to the market's value. */
  function Gain(w: World, action: Action): int {
    if Perform(w, action).Revert? then 0
    else
      match action
      case TokenCall(token, call) => Weight(w, token) * MarketReceives(w.self, call.caller, call.op)
      case Buy(_, asset, amountUsdc, _) => BuyRemainder(w.Price(asset), amountUsdc)
      case Sell(_, asset, tokenAmount, _) => SellRemainder(w.Price(asset), tokenAmount)
      case SetPrice(_, asset, price) => (price - w.Price(asset)) * w.Balance(asset, w.self)
      case Withdraw(_, asset, recipient, amount) => Weight(w, asset) * Delta(w.self, w.self, recipient, amount)
      case _ => 0
  }

  ghost predicate Ungranting(l: Ledger, self: Address) {
    l.Backed() && forall spender: Address :: l.Allowance(self, spender) == 0
  }

  lemma ApplyKeepsUngranting(l: Ledger, self: Address, caller: Address, op: Op)
    requires Ungranting(l, self) && Apply(l, caller, op).Ok?
    requires caller != self || op.Transfer?
    ensures Ungranting(Apply(l, caller, op).value, self)
  {
    ApplyKeepsBacked(l, caller, op);
    forall spender: Address
      ensures Apply(l, caller, op).value.Allowance(self, spender) == 0
    {
      assert l.Allowance(self, spender) == 0;
      StepSpendsAllowance(l, Call(caller, op), self, spender);
    }
  }

  lemma LedgerKeepsValid(w: World, token: Address, l: Ledger)
    requires w.Valid() && token in w.ledgers && Ungranting(l, w.self)
    ensures w.(ledgers := w.ledgers[token := l]).Valid()
  {
  }

  lemma TradeKeepsValid(w: World, w': World, caller: Address, asset: Address)
    requires w.Valid() && caller != w.self && asset in w.ledgers
    requires OnlyLedgersChanged(w, w', {w.payment, asset})
    requires Ungranting(w'.ledgers[w.payment], w.self) && Ungranting(w'.ledgers[asset], w.self)
    ensures w'.Valid()
  {
    LedgerKeepsValid(w, w.payment, w'.ledgers[w.payment]);
    var w1 := w.(ledgers := w.ledgers[w.payment := w'.ledgers[w.payment]]);
    LedgerKeepsValid(w1, asset, w'.ledgers[asset]);
    assert w'.ledgers == w1.ledgers[asset := w'.ledgers[asset]];
  }

  lemma AllowanceSpentKeepsUngranting(w: World, w': World, token: Address, holder: Address, amount: nat)
    requires token in w.ledgers && token in w'.ledgers && Ungranting(w.ledgers[token], w.self)
    requires AllowanceSpent(w, w', token, holder, amount) && holder != w.self && w'.ledgers[token].Backed()
    ensures Ungranting(w'.ledgers[token], w.self)
  {
    forall spender: Address
      ensures w'.ledgers[token].Allowance(w.self, spender) == 0
    {
      assert w'.Allowance(token, w.self, spender) == w.Allowance(token, w.self, spender);
    }
  }

  lemma BuyKeepsValid(w: World, caller: Address, asset: Address, amountUsdc: uint256, minimum: uint256)
    requires w.Valid() && caller != w.self
    ensures match Market.Buy(w, caller, asset, amountUsdc, minimum)
            case Revert(_) => true
            case Ok((w', _)) => w'.Valid() && w' == w.(ledgers := w'.ledgers)
  {
    BuyMoves(w, caller, asset, amountUsdc, minimum);
    if Market.Buy(w, caller, asset, amountUsdc, minimum).Revert? {
      return;
    }
    var w' := Market.Buy(w, caller, asset, amountUsdc, minimum).value.0;
    AllowanceSpentKeepsUngranting(w, w', w.payment, caller, amountUsdc);
    SameAllowancesKeepUngranting(w.ledgers[asset], w'.ledgers[asset], w.self);
    TradeKeepsValid(w, w', caller, asset);
  }

  lemma SellKeepsValid(w: World, caller: Address, asset: Address, tokenAmount: uint256, minimum: uint256)
    requires w.Valid() && caller != w.self
    ensures match Market.Sell(w, caller, asset, tokenAmount, minimum)
            case Revert(_) => true
            case Ok((w', _)) => w'.Valid() && w' == w.(ledgers := w'.ledgers)
  {
    SellMoves(w, caller, asset, tokenAmount, minimum);
    if Market.Sell(w, caller, asset, tokenAmount, minimum).Revert? {
      return;
    }
    var w' := Market.Sell(w, caller, asset, tokenAmount, minimum).value.0;
    AllowanceSpentKeepsUngranting(w, w', asset, caller, tokenAmount);
    SameAllowancesKeepUngranting(w.ledgers[w.payment], w'.ledgers[w.payment], w.self);
    TradeKeepsValid(w, w', caller, asset);
  }

  lemma SameAllowancesKeepUngranting(l: Ledger, l': Ledger, self: Address)
    requires Ungranting(l, self) && l'.Backed() && l'.allowances == l.allowances
    ensures Ungranting(l', self)
  {
    forall spender: Address
      ensures l'.Allowance(self, spender) == 0
    {
      assert l.Allowance(self, spender) == 0;
    }
  }

  lemma StepKeepsValid(w: World, action: Action)
    requires w.Valid() && Ordinary(w.self, w.payment, action)
    ensures var w' := Step(w, action);
      w'.Valid() && w'.self == w.self && w'.payment == w.payment && (action.SetPrice? || w'.prices == w.prices)
  {
    if Perform(w, action).Ok? {
      var w' := Step(w, action);
      match action
      case TokenCall(token, call) =>
        ApplyKeepsUngranting(w.ledgers[token], w.self, call.caller, call.op);
        LedgerKeepsValid(w, token, Apply(w.ledgers[token], call.caller, call.op).value);
      case Claim(caller) =>
        IssueIsExact(w.ledgers[w.payment], caller, FAUCET_AMOUNT);
        var l := Issue(w.ledgers[w.payment], caller, FAUCET_AMOUNT).value.Log(FaucetClaimed(caller, FAUCET_AMOUNT));
        SameAllowancesKeepUngranting(w.ledgers[w.payment], l, w.self);
        LedgerKeepsValid(w, w.payment, l);
      case Buy(caller, asset, amountUsdc, minimum) =>
        BuyKeepsValid(w, caller, asset, amountUsdc, minimum);
      case Sell(caller, asset, tokenAmount, minimum) =>
        SellKeepsValid(w, caller, asset, tokenAmount, minimum);
      case Withdraw(caller, asset, recipient, amount) =>
        ApplyKeepsUngranting(w.ledgers[asset], w.self, w.self, Op.Transfer(recipient, amount));
        LedgerKeepsValid(w, asset, Apply(w.ledgers[asset], w.self, Op.Transfer(recipient, amount)).value);
      case _ =>
    }
  }

  /** A trade is two ledger updates. */
  lemma TradeValue(w: World, w': World, caller: Address, asset: Address, paid: int, given: int)
    requires w.Valid() && caller != w.self && asset != w.payment && asset in w.ledgers
    requires OnlyLedgersChanged(w, w', {w.payment, asset})
    requires w'.Balance(w.payment, w.self) == w.Balance(w.payment, w.self) + paid
    requires w'.Balance(asset, w.self) == w.Balance(asset, w.self) - given
    ensures Value(w') == Value(w) + ASSET_UNIT * paid - w.Price(asset) * given
  {
    var w1 := w.(ledgers := w.ledgers[w.payment := w'.ledgers[w.payment]]);
    ValueOfLedger(w, w.payment, w'.ledgers[w.payment]);
    ValueOfLedger(w1, asset, w'.ledgers[asset]);
    assert w' == w1.(ledgers := w1.ledgers[asset := w'.ledgers[asset]]) by {
      assert w'.ledgers == w1.ledgers[asset := w'.ledgers[asset]];
    }
    assert w.Price(asset) * (0 - given) == -(w.Price(asset) * given);
  }

  lemma TokenCallValue(w: World, token: Address, caller: Address, op: Op)
    requires w.Valid() && CallToken(w, token, caller, op).Ok?
    ensures Value(CallToken(w, token, caller, op).value) ==
            Value(w) + Weight(w, token) * MarketReceives(w.self, caller, op)
  {
    TokenCallBalance(w.ledgers[token], w.self, caller, op);
    ValueOfLedger(w, token, Apply(w.ledgers[token], caller, op).value);
  }

  lemma ClaimValue(w: World, caller: Address)
    requires w.Valid() && caller != w.self && ClaimFaucet(w, caller).Ok?
    ensures Value(ClaimFaucet(w, caller).value) == Value(w)
  {
    IssueIsExact(w.ledgers[w.payment], caller, FAUCET_AMOUNT);
    var w' := ClaimFaucet(w, caller).value;
    assert Holdings(w') == Holdings(w);
  }

  lemma BoughtValue(w: World, w': World, caller: Address, asset: Address, x: uint256, t: uint256)
    requires w.Valid() && caller != w.self && OnlyLedgersChanged(w, w', {w.payment, asset})
    requires LedgerMoved(w, w', w.payment, caller, w.self, x) && LedgerMoved(w, w', asset, w.self, caller, t)
    requires Quote(w.Price(asset), x) == Ok(t)
    ensures Value(w') == Value(w) + BuyRemainder(w.Price(asset), x)
  {
    QuoteIsFloor(w.Price(asset), x);
    TradeValue(w, w', caller, asset, x, t);
  }

  /** A buy leaves the market exactly the remainder of its floor division. */
  lemma BuyValue(w: World, caller: Address, asset: Address, amountUsdc: uint256, minimum: uint256)
    requires w.Valid() && caller != w.self
    ensures match Market.Buy(w, caller, asset, amountUsdc, minimum)
            case Revert(_) => true
            case Ok((w', _)) => Value(w') == Value(w) + BuyRemainder(w.Price(asset), amountUsdc)
  {
    BuyMoves(w, caller, asset, amountUsdc, minimum);
    if Market.Buy(w, caller, asset, amountUsdc, minimum).Revert? {
      return;
    }
    var (w', t) := Market.Buy(w, caller, asset, amountUsdc, minimum).value;
    BoughtValue(w, w', caller, asset, amountUsdc, t);
  }

  lemma SoldValue(w: World, w': World, caller: Address, asset: Address, t: uint256, x: uint256)
    requires w.Valid() && caller != w.self && OnlyLedgersChanged(w, w', {w.payment, asset})
    requires LedgerMoved(w, w', asset, caller, w.self, t) && LedgerMoved(w, w', w.payment, w.self, caller, x)
    requires QuoteSell(w.Price(asset), t) == Ok(x)
    ensures Value(w') == Value(w) + SellRemainder(w.Price(asset), t)
  {
    var paid: int, given: int := 0 - x as int, 0 - t as int;
    QuoteSellIsFloor(w.Price(asset), t);
    Distribute(w.Price(asset), 0, t);
    TradeValue(w, w', caller, asset, paid, given);
  }

  lemma SellValue(w: World, caller: Address, asset: Address, tokenAmount: uint256, minimum: uint256)
    requires w.Valid() && caller != w.self
    ensures match Market.Sell(w, caller, asset, tokenAmount, minimum)
            case Revert(_) => true
            case Ok((w', _)) => Value(w') == Value(w) + SellRemainder(w.Price(asset), tokenAmount)
  {
    SellMoves(w, caller, asset, tokenAmount, minimum);
    if Market.Sell(w, caller, asset, tokenAmount, minimum).Revert? {
      return;
    }
    var (w', x) := Market.Sell(w, caller, asset, tokenAmount, minimum).value;
    SoldValue(w, w', caller, asset, tokenAmount, x);
  }

  /** Every action changes the market's value by exactly its gain. */
  lemma StepValue(w: World, action: Action)
    requires w.Valid() && Ordinary(w.self, w.payment, action)
    ensures Value(Step(w, action)) == Value(w) + Gain(w, action)
  {
    if Perform(w, action).Ok? {
      match action
      case TokenCall(token, call) => TokenCallValue(w, token, call.caller, call.op);
      case Claim(caller) => ClaimValue(w, caller);
      case Buy(caller, asset, amountUsdc, minimum) => BuyValue(w, caller, asset, amountUsdc, minimum);
      case Sell(caller, asset, tokenAmount, minimum) => SellValue(w, caller, asset, tokenAmount, minimum);
      case SetPrice(_, asset, price) => ValueOfPrice(w, asset, price);
      case Withdraw(_, asset, recipient, amount) => TokenCallValue(w, asset, w.self, Op.Transfer(recipient, amount));
      case TransferMarket(_, _) => assert Holdings(Step(w, action)) == Holdings(w);
    }
  }

  /** Only the owner's two administrative actions can lower the value. */
  lemma GainIsNotNegative(w: World, action: Action)
    requires w.Valid() && Ordinary(w.self, w.payment, action)
    requires !action.SetPrice? && !action.Withdraw?
    ensures Gain(w, action) >= 0
  {
    if action.TokenCall? && Perform(w, action).Ok? {
      var received := MarketReceives(w.self, action.call.caller, action.call.op);
      assert received >= 0;
      assert Weight(w, action.token) * received >= 0;
    }
  }

  function GainOver(w: World, actions: seq<Action>): int
    decreases actions
  {
    if actions == [] then 0 else Gain(w, actions[0]) + GainOver(Step(w, actions[0]), actions[1..])
  }

  /** Over every run the value is the initial value plus the gains of its actions, in
      particular the exact rounding remainder of each trade. */
  lemma {:induction false} RunValue(w: World, actions: seq<Action>)
    requires w.Valid()
    requires forall action :: action in actions ==> Ordinary(w.self, w.payment, action)
    ensures Run(w, actions).Valid()
    ensures Value(Run(w, actions)) == Value(w) + GainOver(w, actions)
    decreases actions
  {
    if actions != [] {
      StepKeepsValid(w, actions[0]);
      StepValue(w, actions[0]);
      RunValue(Step(w, actions[0]), actions[1..]);
    }
  }

  /** At fixed prices and without withdrawals nobody can lower the market's value. */
  lemma {:induction false} ValueNeverDecreases(w: World, actions: seq<Action>)
    requires w.Valid()
    requires forall action :: action in actions ==>
               Ordinary(w.self, w.payment, action) && !action.SetPrice? && !action.Withdraw?
    ensures Value(w) <= Value(Run(w, actions))
    ensures Run(w, actions).prices == w.prices
    decreases actions
  {
    if actions != [] {
      StepKeepsValid(w, actions[0]);
      StepValue(w, actions[0]);
      GainIsNotNegative(w, actions[0]);
      ValueNeverDecreases(Step(w, actions[0]), actions[1..]);
    }
  }

  lemma OnlyOwnerAdministers(w: World, action: Action)
    requires action.Caller() != w.owner
    ensures Step(w, action).owner == w.owner && Step(w, action).prices == w.prices
    ensures action.SetPrice? || action.Withdraw? || action.TransferMarket? ==> Step(w, action) == w
  {
  }

  /** Whatever everybody else attempts, administration included, the owner stays the owner,
      the prices stay, and the market's value does not fall. */
  lemma {:induction false} OnlyTheOwnerLowersValue(w: World, actions: seq<Action>)
    requires w.Valid()
    requires forall action :: action in actions ==> Ordinary(w.self, w.payment, action) && action.Caller() != w.owner
    ensures Value(w) <= Value(Run(w, actions))
    ensures Run(w, actions).owner == w.owner && Run(w, actions).prices == w.prices
    decreases actions
  {
    if actions != [] {
      OnlyOwnerAdministers(w, actions[0]);
      StepKeepsValid(w, actions[0]);
      StepValue(w, actions[0]);
      if !actions[0].SetPrice? && !actions[0].Withdraw? {
        GainIsNotNegative(w, actions[0]);
      }
      OnlyTheOwnerLowersValue(Step(w, actions[0]), actions[1..]);
    }
  }

  /** Freshly deployed contracts meet every assumption, so the results hold of all their runs. */
  lemma DeployedIsValid(self: Address, payment: Address, owner: Address, deployers: map<Address, Address>)
    requires self != ZERO_ADDRESS && payment in deployers
    ensures World(self, payment, owner, false, map[],
                  map token <- deployers :: DemoTokens.Deployed(deployers[token]), {}).Valid()
  {
  }

  // Runs of the parts

  /** What the market's entry points do is what their actions do. */
  lemma EntryPoints(w: World, caller: Address, asset: Address, amount: uint256, minimum: uint256, other: Address)
    ensures Step(w, Action.Buy(caller, asset, amount, minimum)) ==
            match Market.Buy(w, caller, asset, amount, minimum) case Ok((w', _)) => w' case Revert(_) => w
    ensures Step(w, Action.Sell(caller, asset, amount, minimum)) ==
            match Market.Sell(w, caller, asset, amount, minimum) case Ok((w', _)) => w' case Revert(_) => w
    ensures Step(w, SetPrice(caller, asset, amount)) ==
            match SetAssetPrice(w, caller, asset, amount) case Ok(w') => w' case Revert(_) => w
    ensures Step(w, Withdraw(caller, asset, other, amount)) ==
            match WithdrawAsset(w, caller, asset, other, amount) case Ok(w') => w' case Revert(_) => w
    ensures Step(w, Action.TransferMarket(caller, other)) ==
            match Market.TransferMarket(w, caller, other) case Ok(w') => w' case Revert(_) => w
  {
  }

  function TokenActions(token: Address, calls: seq<Call>): seq<Action> {
    if calls == [] then [] else [TokenCall(token, calls[0])] + TokenActions(token, calls[1..])
  }

  /** Left to its holders, a token in the market's world is that token alone. */
  lemma {:induction false} TokenRun(w: World, token: Address, calls: seq<Call>)
    requires token in w.ledgers
    ensures Run(w, TokenActions(token, calls)) ==
            w.(ledgers := w.ledgers[token := DemoTokens.Run(w.ledgers[token], calls)])
    decreases calls
  {
    if calls == [] {
      assert w.ledgers[token := w.ledgers[token]] == w.ledgers;
    } else {
      var w1 := Step(w, TokenCall(token, calls[0]));
      assert TokenActions(token, calls)[1..] == TokenActions(token, calls[1..]);
      assert w1.ledgers == w.ledgers[token := DemoTokens.Step(w.ledgers[token], calls[0])];
      TokenRun(w1, token, calls[1..]);
    }
  }

  function FaucetActions(payment: Address, calls: seq<FaucetCall>): seq<Action> {
    if calls == [] then []
    else
      [match calls[0] case Inherited(call) => TokenCall(payment, call) case Claim(caller) => Action.Claim(caller)]
      + FaucetActions(payment, calls[1..])
  }

  /** The same for the payment token with its faucet. */
  lemma {:induction false} FaucetRun(w: World, calls: seq<FaucetCall>)
    requires w.payment in w.ledgers
    ensures var f := RunFaucet(Faucet(w.ledgers[w.payment], w.claimed), calls);
      Run(w, FaucetActions(w.payment, calls)) == w.(ledgers := w.ledgers[w.payment := f.token], claimed := f.claimed)
    decreases calls
  {
    if calls == [] {
      assert w.ledgers[w.payment := w.ledgers[w.payment]] == w.ledgers;
    } else {
      var f := StepFaucet(Faucet(w.ledgers[w.payment], w.claimed), calls[0]);
      var actions := FaucetActions(w.payment, calls);
      var w1 := Step(w, actions[0]);
      assert actions[1..] == FaucetActions(w.payment, calls[1..]);
      assert w1.ledgers == w.ledgers[w.payment := f.token] && w1.claimed == f.claimed;
      FaucetRun(w1, calls[1..]);
    }
  }

  // Buying and selling back

  /** The sale of what was bought, by a caller who has it and allowed it to be taken. */
  lemma SellsBack(w: World, caller: Address, asset: Address, amountUsdc: uint256, t: uint256)
    requires w.Valid() && caller != w.self && caller != ZERO_ADDRESS
    requires Quote(w.Price(asset), amountUsdc) == Ok(t) && RoundTripLoss(w.Price(asset), amountUsdc) < amountUsdc
    requires t <= w.Balance(asset, caller) && t <= w.Allowance(asset, caller, w.self)
    requires amountUsdc <= w.Balance(w.payment, w.self)
    ensures var back := amountUsdc - RoundTripLoss(w.Price(asset), amountUsdc);
      var sold := Market.Sell(w, caller, asset, t, 0);
      && sold.Ok? && sold.value.1 == back
      && forall a: Address ::
           && sold.value.0.Balance(asset, a) == w.Balance(asset, a) + Delta(a, caller, w.self, t)
           && sold.value.0.Balance(w.payment, a) == w.Balance(w.payment, a) + Delta(a, w.self, caller, back)
  {
    RoundTrip(w.Price(asset), amountUsdc);
    SellMoves(w, caller, asset, t, 0);
  }

  /** Buying, approving the output and selling it back at one price costs the buyer exactly
      the rounding loss, which the market keeps; every asset balance is restored. */
  lemma BuyThenSellBack(w: World, caller: Address, asset: Address, amountUsdc: uint256, minimum: uint256)
    requires w.Valid() && caller != w.self
    ensures var loss := RoundTripLoss(w.Price(asset), amountUsdc);
      match Market.Buy(w, caller, asset, amountUsdc, minimum)
      case Revert(_) => true
      case Ok((w1, t)) =>
        var approved := CallToken(w1, asset, caller, Approve(w.self, t));
        && approved.Ok?
        && (loss < amountUsdc ==>
              var sold := Market.Sell(approved.value, caller, asset, t, 0);
              && sold.Ok?
              && sold.value.1 == amountUsdc - loss
              && forall a: Address ::
                   && sold.value.0.Balance(asset, a) == w.Balance(asset, a)
                   && sold.value.0.Balance(w.payment, a) ==
                      w.Balance(w.payment, a) + Delta(a, caller, w.self, loss))
  {
    if Market.Buy(w, caller, asset, amountUsdc, minimum).Ok? {
      BuyMoves(w, caller, asset, amountUsdc, minimum);
      var (w1, t) := Market.Buy(w, caller, asset, amountUsdc, minimum).value;
      StepKeepsValid(w, Action.Buy(caller, asset, amountUsdc, minimum));
      StepKeepsValid(w1, Action.TokenCall(asset, Call(caller, Approve(w.self, t))));
      var w2 := CallToken(w1, asset, caller, Approve(w.self, t)).value;
      forall a: Address
        ensures w2.Balance(asset, a) == w1.Balance(asset, a)
        ensures w2.Balance(w.payment, a) == w1.Balance(w.payment, a)
      {
      }
      if RoundTripLoss(w.Price(asset), amountUsdc) < amountUsdc {
        SellsBack(w2, caller, asset, amountUsdc, t);
      }
    }
  }
}
