/** The market among demo tokens is one run of the market among arbitrary ones. */
module DemoRuns {
  import opened Evm
  import opened Pricing
  import opened Reentrancy
  import DemoTokens
  import Market

  datatype Order = Order(caller: Address, asset: Address, amountUsdc: uint256, minimum: uint256)
  {
    function Call(): Step {
      CallBuy(caller, asset, amountUsdc, minimum)
    }

    function Buy(w: Market.World): Outcome<(Market.World, uint256)> {
      Market.Buy(w, caller, asset, amountUsdc, minimum)
    }
  }

  /** The machine holds the same owner, lock and prices as the market among demo tokens. */
  ghost predicate Agree(w: Market.World, m: Machine) {
    && m.self == w.self && m.Idle()
    && m.storage.owner == w.owner && m.storage.entered == w.entered && m.storage.prices == w.prices
  }

  // What a demo token does when it is called

  /** How many events the token logs. */
  function EventsOf(l: DemoTokens.Ledger, caller: Address, op: DemoTokens.Op): (n: nat)
    ensures DemoTokens.Apply(l, caller, op).Ok? ==> |DemoTokens.Apply(l, caller, op).value.logs| == |l.logs| + n
  {
    if DemoTokens.Apply(l, caller, op).Revert? then 0
    else if op.TransferFrom? && l.Allowance(op.sender, caller) != MAX_UINT256 then 2 else 1
  }

  function Emits(emitter: Address, n: nat): seq<Step> {
    if n == 0 then [] else [Emit(emitter)] + Emits(emitter, n - 1)
  }

  function Foreigns(emitter: Address, n: nat): seq<Event> {
    if n == 0 then [] else [Foreign(emitter)] + Foreigns(emitter, n - 1)
  }

  /** The events a token call leaves in the log, as the market sees them. */
  function TokenEvents(w: Market.World, token: Address, op: DemoTokens.Op): seq<Event> {
    if token in w.ledgers then Foreigns(token, EventsOf(w.ledgers[token], w.self, op)) else []
  }

  /** The token logs its events and returns true, or fails. */
  function TokenSteps(w: Market.World, token: Address, op: DemoTokens.Op): seq<Step> {
    if Market.CallToken(w, token, w.self, op).Revert? then [Fail]
    else Emits(token, EventsOf(w.ledgers[token], w.self, op)) + [Return(true)]
  }

  function Logged(m: Machine, events: seq<Event>): Machine {
    m.(storage := m.storage.(logs := m.storage.logs + events))
  }

  lemma OneStep(m: Machine, step: Step, rest: seq<Step>)
    requires !m.Idle()
    ensures Run(m, [step] + rest) == Run(Next(m, step), rest)
    ensures Completes(m, [step] + rest) <==> Completes(Next(m, step), rest)
  {
    assert ([step] + rest)[1..] == rest;
  }

  lemma {:induction false} EmitsThen(m: Machine, emitter: Address, n: nat, rest: seq<Step>)
    requires m.Running() && emitter != m.self
    ensures Run(m, Emits(emitter, n) + rest) == Run(Logged(m, Foreigns(emitter, n)), rest)
    ensures Completes(m, Emits(emitter, n) + rest) <==> Completes(Logged(m, Foreigns(emitter, n)), rest)
    decreases n
  {
    if n == 0 {
      assert Emits(emitter, n) + rest == rest;
      assert Logged(m, []) == m by {
        assert m.storage.logs + [] == m.storage.logs;
      }
    } else {
      var m1 := Next(m, Emit(emitter));
      EmitsThen(m1, emitter, n - 1, rest);
      OneStep(m, Emit(emitter), Emits(emitter, n - 1) + rest);
      assert Emits(emitter, n) + rest == [Emit(emitter)] + (Emits(emitter, n - 1) + rest);
      LoggedMore(m, emitter, n);
    }
  }

  lemma LoggedMore(m: Machine, emitter: Address, n: nat)
    requires n > 0
    ensures Logged(Logged(m, [Foreign(emitter)]), Foreigns(emitter, n - 1)) == Logged(m, Foreigns(emitter, n))
  {
    assert m.storage.logs + [Foreign(emitter)] + Foreigns(emitter, n - 1) == m.storage.logs + Foreigns(emitter, n);
  }

  /** A token call that goes through. */
  lemma TokenReturns(w: Market.World, m: Machine, token: Address, op: DemoTokens.Op, rest: seq<Step>)
    requires m.Running() && m.self == w.self && w.self !in w.ledgers
    requires Market.CallToken(w, token, w.self, op).Ok?
    ensures var m' := Next(Logged(m, TokenEvents(w, token, op)), Return(true));
      && Run(m, TokenSteps(w, token, op) + rest) == Run(m', rest)
      && (Completes(m, TokenSteps(w, token, op) + rest) <==> Completes(m', rest))
  {
    var n := EventsOf(w.ledgers[token], w.self, op);
    assert TokenSteps(w, token, op) + rest == Emits(token, n) + ([Return(true)] + rest);
    EmitsThen(m, token, n, [Return(true)] + rest);
    OneStep(Logged(m, Foreigns(token, n)), Return(true), rest);
  }

  /** A token call that fails takes the market's call with it. */
  lemma TokenFails(m: Machine, frame: Frame, storage: Storage)
    requires m.Idle() && !frame.Code?
    ensures Run(m.Call(frame, storage), [Fail]) == m.(storage := frame.saved)
    ensures Completes(m.Call(frame, storage), [Fail])
  {
    OneStep(m.Call(frame, storage), Fail, []);
  }

  // Trades

  /** The two token calls of a trade. */
  datatype Swap = Swap(trader: Address, taken: Address, takenAmount: uint256, given: Address, givenAmount: uint256)
  {
    function Take(self: Address): DemoTokens.Op {
      DemoTokens.TransferFrom(trader, self, takenAmount)
    }

    function Give(): DemoTokens.Op {
      DemoTokens.Transfer(trader, givenAmount)
    }

    function Exchange(w: Market.World): Outcome<Market.World> {
      Market.Exchange(w, trader, taken, takenAmount, given, givenAmount)
    }
  }

  function SwapSteps(w: Market.World, x: Swap): seq<Step> {
    TokenSteps(w, x.taken, x.Take(w.self)) +
    match Market.CallToken(w, x.taken, w.self, x.Take(w.self))
    case Revert(_) => []
    case Ok(w') => TokenSteps(w', x.given, x.Give())
  }

  /** What the trade leaves in the log: the tokens' own events, then its own. */
  function SwapEvents(w: Market.World, x: Swap, event: Event): seq<Event> {
    match Market.CallToken(w, x.taken, w.self, x.Take(w.self))
    case Revert(_) => []
    case Ok(w') => TokenEvents(w, x.taken, x.Take(w.self)) + TokenEvents(w', x.given, x.Give()) + [event]
  }

  function Entered(m: Machine, event: Event): Machine {
    m.Call(Trading(m.storage, event, false), m.storage.(entered := true))
  }

  /** A trade among demo tokens, once its quote is accepted, is a run of the machine: a
      reverted one undoes everything, a successful one leaves the tokens' events and its own. */
  lemma SwapIsRun(w: Market.World, m: Machine, event: Event, x: Swap)
    requires m.Idle() && m.self == w.self && w.self !in w.ledgers && !m.storage.entered
    ensures Completes(Entered(m, event), SwapSteps(w, x))
    ensures Run(Entered(m, event), SwapSteps(w, x)) ==
            if x.Exchange(w).Revert? then m else Logged(m, SwapEvents(w, x, event))
  {
    var taken := Market.CallToken(w, x.taken, w.self, x.Take(w.self));
    if taken.Revert? {
      TokenFails(m, Trading(m.storage, event, false), m.storage.(entered := true));
      assert SwapSteps(w, x) == [Fail];
    } else {
      TokenReturns(w, Entered(m, event), x.taken, x.Take(w.self), TokenSteps(taken.value, x.given, x.Give()));
      GiveIsRun(taken.value, m, event, x.given, x.Give(), TokenEvents(w, x.taken, x.Take(w.self)));
      var given := TokenEvents(taken.value, x.given, x.Give());
      assert Logged(m, TokenEvents(w, x.taken, x.Take(w.self)) + given + [event]) == Logged(m, SwapEvents(w, x, event));
    }
  }

  /** The rest of a trade, once the first token call has returned true. */
  lemma GiveIsRun(w: Market.World, m: Machine, event: Event, token: Address, op: DemoTokens.Op, logged: seq<Event>)
    requires m.Idle() && m.self == w.self && w.self !in w.ledgers && !m.storage.entered
    ensures var m2 := Next(Logged(Entered(m, event), logged), Return(true));
      && Completes(m2, TokenSteps(w, token, op))
      && Run(m2, TokenSteps(w, token, op)) ==
         if Market.CallToken(w, token, w.self, op).Revert? then m
         else Logged(m, logged + TokenEvents(w, token, op) + [event])
  {
    var paid := m.storage.(entered := true, logs := m.storage.logs + logged);
    var frame := Trading(m.storage, event, true);
    var m2 := m.Call(frame, paid);
    assert Next(Logged(Entered(m, event), logged), Return(true)) == m2;
    if Market.CallToken(w, token, w.self, op).Revert? {
      TokenFails(m, frame, paid);
    } else {
      TokenReturns(w, m2, token, op, []);
      assert TokenSteps(w, token, op) + [] == TokenSteps(w, token, op);
      assert m.storage.logs + logged + TokenEvents(w, token, op) + [event] ==
             m.storage.logs + (logged + TokenEvents(w, token, op) + [event]);
    }
  }

  /** What the tokens do in the course of a buy; nothing when it is refused before it calls any. */
  function BuySteps(w: Market.World, order: Order): seq<Step> {
    var quoted := Quote(w.Price(order.asset), order.amountUsdc);
    if w.entered || quoted.Revert? || quoted.value < order.minimum then []
    else SwapSteps(w.(entered := true), Swap(order.caller, w.payment, order.amountUsdc, order.asset, quoted.value))
  }

  /** Every buy among demo tokens, accepted or not, is a run of the machine: one that reverts
      undoes everything, and one that goes through logs the tokens' events and its purchase. */
  lemma BuyIsRun(w: Market.World, m: Machine, order: Order)
    requires Agree(w, m) && w.self !in w.ledgers
    ensures Completes(Next(m, order.Call()), BuySteps(w, order))
    ensures var m' := Run(Next(m, order.Call()), BuySteps(w, order));
      match order.Buy(w)
      case Revert(_) => m' == m
      case Ok((w', t)) =>
        && Agree(w', m')
        && m' == Logged(m, SwapEvents(w.(entered := true), Swap(order.caller, w.payment, order.amountUsdc, order.asset, t),
                                      Purchased(order.caller, order.asset, order.amountUsdc, t)))
  {
    var quoted := Quote(w.Price(order.asset), order.amountUsdc);
    if !w.entered && quoted.Ok? && order.minimum <= quoted.value {
      var x := Swap(order.caller, w.payment, order.amountUsdc, order.asset, quoted.value);
      SwapIsRun(w.(entered := true), m, Purchased(order.caller, order.asset, order.amountUsdc, quoted.value), x);
    }
  }

  function SellSteps(w: Market.World, caller: Address, asset: Address, tokenAmount: uint256, minimum: uint256): seq<Step> {
    var quoted := QuoteSell(w.Price(asset), tokenAmount);
    if w.entered || quoted.Revert? || quoted.value < minimum then []
    else SwapSteps(w.(entered := true), Swap(caller, asset, tokenAmount, w.payment, quoted.value))
  }

  /** The same for a sale. */
  lemma SellIsRun(w: Market.World, m: Machine, caller: Address, asset: Address, tokenAmount: uint256, minimum: uint256)
    requires Agree(w, m) && w.self !in w.ledgers
    ensures var m1, steps := Next(m, CallSell(caller, asset, tokenAmount, minimum)), SellSteps(w, caller, asset, tokenAmount, minimum);
      && Completes(m1, steps)
      && match Market.Sell(w, caller, asset, tokenAmount, minimum)
         case Revert(_) => Run(m1, steps) == m
         case Ok((w', x)) =>
           && Agree(w', Run(m1, steps))
           && Run(m1, steps) == Logged(m, SwapEvents(w.(entered := true), Swap(caller, asset, tokenAmount, w.payment, x),
                                                     Sold(caller, asset, tokenAmount, x)))
  {
    var quoted := QuoteSell(w.Price(asset), tokenAmount);
    if !w.entered && quoted.Ok? && minimum <= quoted.value {
      SwapIsRun(w.(entered := true), m, Sold(caller, asset, tokenAmount, quoted.value),
                Swap(caller, asset, tokenAmount, w.payment, quoted.value));
    }
  }

  // Administration

  /** Listing an asset and handing the market over agree, and log what they did. */
  lemma AdministrationAgrees(w: Market.World, m: Machine, caller: Address, asset: Address, price: uint256, newOwner: Address)
    requires Agree(w, m)
    ensures var m' := Next(m, CallSetPrice(caller, asset, price));
      match Market.SetAssetPrice(w, caller, asset, price)
      case Revert(_) => m' == m
      case Ok(w') => Agree(w', m') && m'.storage.logs == m.storage.logs + [AssetPriceUpdated(asset, price)]
    ensures var m' := Next(m, CallTransferOwnership(caller, newOwner));
      match Market.TransferMarket(w, caller, newOwner)
      case Revert(_) => m' == m
      case Ok(w') => Agree(w', m') && m'.storage.logs == m.storage.logs + [OwnershipTransferred(w.owner, newOwner)]
  {
  }

  function WithdrawSteps(w: Market.World, caller: Address, asset: Address, recipient: Address, amount: uint256): seq<Step> {
    if caller != w.owner || recipient == ZERO_ADDRESS then []
    else TokenSteps(w, asset, DemoTokens.Transfer(recipient, amount))
  }

  /** A withdrawal is a run of the machine too; the market logs nothing for it. */
  lemma WithdrawIsRun(w: Market.World, m: Machine, caller: Address, asset: Address, recipient: Address, amount: uint256)
    requires Agree(w, m) && w.self !in w.ledgers
    ensures var m1, steps := Next(m, CallWithdraw(caller, recipient)), WithdrawSteps(w, caller, asset, recipient, amount);
      && Completes(m1, steps)
      && match Market.WithdrawAsset(w, caller, asset, recipient, amount)
         case Revert(_) => Run(m1, steps) == m
         case Ok(w') =>
           Agree(w', Run(m1, steps)) && Run(m1, steps) == Logged(m, TokenEvents(w, asset, DemoTokens.Transfer(recipient, amount)))
  {
    if caller == w.owner && recipient != ZERO_ADDRESS {
      var op := DemoTokens.Transfer(recipient, amount);
      if Market.CallToken(w, asset, w.self, op).Revert? {
        TokenFails(m, Withdrawing(m.storage), m.storage);
      } else {
        TokenReturns(w, m.Call(Withdrawing(m.storage), m.storage), asset, op, []);
        assert TokenSteps(w, asset, op) + [] == TokenSteps(w, asset, op);
      }
    }
  }

  /** A freshly deployed market agrees with the deployed machine. */
  lemma DeployedAgree(w: Market.World, deployer: Address)
    requires w.owner == deployer && !w.entered && w.prices == map[]
    ensures Agree(w, Deployed(w.self, deployer))
    ensures Deployed(w.self, deployer).storage.logs == [OwnershipTransferred(ZERO_ADDRESS, deployer)]
  {
  }
}
