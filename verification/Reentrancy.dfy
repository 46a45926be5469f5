/**
 The market among arbitrary contracts. Tokens are any code at all: while a token call is
 in progress that code may call back into the market, call other code, emit logs of its
 own, swallow a nested revert, and in the end return true, return false or fail. One step
 of the machine is one such choice, so its runs are all interleavings to any depth.
 */
module Reentrancy {
  import opened Evm
  import opened Pricing

  /** A log entry: one of the market's events, or anything another contract emits. */
  datatype Event =
    | Purchased(buyer: Address, asset: Address, amountUsdc: uint256, tokenAmount: uint256)
    | Sold(seller: Address, asset: Address, tokenAmount: uint256, amountUsdc: uint256)
    | AssetPriceUpdated(asset: Address, priceUsdc: uint256)
    | OwnershipTransferred(previousOwner: Address, newOwner: Address)
    | Foreign(emitter: Address)
  {
    predicate Trade() { Purchased? || Sold? }
  }

  /** What a revert rolls back. */
  datatype Storage = Storage(owner: Address, entered: bool, prices: map<Address, uint256>, logs: seq<Event>)
  {
    function Price(asset: Address): uint256 {
      if asset in prices then prices[asset] else 0
    }

    function Log(event: Event): Storage {
      this.(logs := logs + [event])
    }
  }

  /** An active call. A trade remembers the event it will emit and whether its first token
      call has returned; `Code` is any contract other than the market. */
  datatype Frame =
    | Trading(saved: Storage, event: Event, taken: bool)
    | Withdrawing(saved: Storage)
    | Code(saved: Storage)

  datatype Stack = Empty | Push(top: Frame, below: Stack)

  datatype Machine = Machine(self: Address, storage: Storage, stack: Stack)
  {
    predicate Idle() { stack.Empty? }

    predicate Running() { stack.Push? && stack.top.Code? }

    function Call(frame: Frame, storage': Storage): Machine {
      this.(storage := storage', stack := Push(Code(storage'), Push(frame, stack)))
    }
  }

  datatype Step =
    | CallBuy(caller: Address, asset: Address, amountUsdc: uint256, minimum: uint256)
    | CallSell(caller: Address, asset: Address, tokenAmount: uint256, minimum: uint256)
    | CallWithdraw(caller: Address, recipient: Address)
    | CallSetPrice(caller: Address, asset: Address, price: uint256)
    | CallTransferOwnership(caller: Address, newOwner: Address)
    | CallCode
    | Emit(emitter: Address)
    | Return(success: bool)
    | Fail

  function EnterTrade(m: Machine, quoted: Outcome<uint256>, minimum: uint256, event: Event): Machine {
    if m.storage.entered || quoted.Revert? || quoted.value < minimum then m
    else m.Call(Trading(m.storage, event, false), m.storage.(entered := true))
  }

  /** The top frame is done, and so is the market call waiting for it, if any. */
  function Abort(m: Machine): Machine
    requires m.Running()
  {
    var below := m.stack.below;
    if below.Empty? || below.top.Code? then m.(storage := m.stack.top.saved, stack := below)
    else m.(storage := below.top.saved, stack := below.below)
  }

  function Resume(m: Machine, success: bool): Machine
    requires m.Running()
  {
    var below := m.stack.below;
    if below.Empty? || below.top.Code? then m.(stack := below)
    else if !success then Abort(m)
    else
      match below.top
      case Trading(saved, event, taken) =>
        if !taken then m.(stack := below.below).Call(Trading(saved, event, true), m.storage)
        else m.(storage := m.storage.(entered := false).Log(event), stack := below.below)
      case _ => m.(stack := below.below)
  }

  function Next(m: Machine, step: Step): Machine {
    match step
    case CallBuy(caller, asset, amountUsdc, minimum) =>
      var quoted := Quote(m.storage.Price(asset), amountUsdc);
      EnterTrade(m, quoted, minimum, Purchased(caller, asset, amountUsdc, if quoted.Ok? then quoted.value else 0))
    case CallSell(caller, asset, tokenAmount, minimum) =>
      var quoted := QuoteSell(m.storage.Price(asset), tokenAmount);
      EnterTrade(m, quoted, minimum, Sold(caller, asset, tokenAmount, if quoted.Ok? then quoted.value else 0))
    case CallWithdraw(caller, recipient) =>
      if caller != m.storage.owner || recipient == ZERO_ADDRESS then m
      else m.Call(Withdrawing(m.storage), m.storage)
    case CallSetPrice(caller, asset, price) =>
      if caller != m.storage.owner || asset == ZERO_ADDRESS || price == 0 then m
      else m.(storage := m.storage.(prices := m.storage.prices[asset := price]).Log(AssetPriceUpdated(asset, price)))
    case CallTransferOwnership(caller, newOwner) =>
      if caller != m.storage.owner || newOwner == ZERO_ADDRESS then m
      else m.(storage := m.storage.(owner := newOwner).Log(OwnershipTransferred(m.storage.owner, newOwner)))
    case CallCode =>
      m.(stack := Push(Code(m.storage), m.stack))
    case Emit(emitter) =>
      if m.Running() && emitter != m.self then m.(storage := m.storage.Log(Foreign(emitter))) else m
    case Return(success) =>
      if m.Running() then Resume(m, success) else m
    case Fail =>
      if m.Running() then Abort(m) else m
  }

  function Run(m: Machine, steps: seq<Step>): Machine
    decreases steps
  {
    if steps == [] then m else Run(Next(m, steps[0]), steps[1..])
  }

  function Deployed(self: Address, deployer: Address): Machine {
    Machine(self, Storage(deployer, false, map[], [OwnershipTransferred(ZERO_ADDRESS, deployer)]), Empty)
  }

  // The lock

  /** How many buys and sells are in progress. */
  function LiveTrades(stack: Stack): nat {
    match stack
    case Empty => 0
    case Push(top, below) => (if top.Trading? then 1 else 0) + LiveTrades(below)
  }

  predicate AwaitsCode(stack: Stack) {
    stack.Empty? || stack.top.Code?
  }

  /** Every frame saved the lock as it stood when the frame was entered. */
  predicate Sound(stack: Stack) {
    match stack
    case Empty => true
    case Push(top, below) =>
      && Sound(below)
      && (top.saved.entered <==> LiveTrades(below) > 0)
      && (top.Trading? ==> LiveTrades(below) == 0)
      && (!top.Code? ==> AwaitsCode(below))
  }

  predicate Invariant(m: Machine) {
    && Sound(m.stack)
    && AwaitsCode(m.stack)
    && (m.storage.entered <==> LiveTrades(m.stack) > 0)
  }

  lemma CallKeepsInvariant(m: Machine, frame: Frame, storage': Storage)
    requires Sound(m.stack) && AwaitsCode(m.stack) && !frame.Code?
    requires frame.saved.entered <==> LiveTrades(m.stack) > 0
    requires if frame.Trading? then LiveTrades(m.stack) == 0 && storage'.entered else storage'.entered == frame.saved.entered
    ensures Invariant(m.Call(frame, storage'))
  {
    assert Sound(Push(frame, m.stack));
    assert LiveTrades(Push(frame, m.stack)) > 0 <==> storage'.entered;
  }

  lemma AbortKeepsInvariant(m: Machine)
    requires Invariant(m) && m.Running()
    ensures Invariant(Abort(m))
  {
    var below := m.stack.below;
    assert Sound(below);
    if below.Push? {
      assert Sound(below.below);
    }
  }

  lemma ResumeKeepsInvariant(m: Machine, success: bool)
    requires Invariant(m) && m.Running()
    ensures Invariant(Resume(m, success))
  {
    AbortKeepsInvariant(m);
    var below := m.stack.below;
    assert Sound(below);
    if below.Push? {
      assert Sound(below.below);
      if below.top.Trading? && !below.top.taken {
        CallKeepsInvariant(m.(stack := below.below), Trading(below.top.saved, below.top.event, true), m.storage);
      }
    }
  }

  lemma NextKeepsInvariant(m: Machine, step: Step)
    requires Invariant(m)
    ensures Invariant(Next(m, step)) && Next(m, step).self == m.self
  {
    match step
    case Return(success) =>
      if m.Running() {
        ResumeKeepsInvariant(m, success);
      }
    case Fail =>
      if m.Running() {
        AbortKeepsInvariant(m);
      }
    case CallBuy(caller, asset, amountUsdc, _) =>
      var quoted := Quote(m.storage.Price(asset), amountUsdc);
      if quoted.Ok? && !m.storage.entered {
        CallKeepsInvariant(m, Trading(m.storage, Purchased(caller, asset, amountUsdc, quoted.value), false),
                           m.storage.(entered := true));
      }
    case CallSell(caller, asset, tokenAmount, _) =>
      var quoted := QuoteSell(m.storage.Price(asset), tokenAmount);
      if quoted.Ok? && !m.storage.entered {
        CallKeepsInvariant(m, Trading(m.storage, Sold(caller, asset, tokenAmount, quoted.value), false),
                           m.storage.(entered := true));
      }
    case CallWithdraw(_, _) =>
      CallKeepsInvariant(m, Withdrawing(m.storage), m.storage);
    case _ =>
  }

  lemma {:induction false} RunKeepsInvariant(m: Machine, steps: seq<Step>)
    requires Invariant(m)
    ensures Invariant(Run(m, steps)) && Run(m, steps).self == m.self
    decreases steps
  {
    if steps != [] {
      NextKeepsInvariant(m, steps[0]);
      RunKeepsInvariant(Next(m, steps[0]), steps[1..]);
    }
  }

  lemma {:induction false} AtMostOne(stack: Stack)
    requires Sound(stack)
    ensures LiveTrades(stack) <= 1
  {
    if stack.Push? && !stack.top.Trading? {
      AtMostOne(stack.below);
    }
  }

  /** In every reachable state at most one trade is in progress, the lock is set exactly
      while one is, and it is open again whenever no call is active. */
  lemma LockIsExact(self: Address, deployer: Address, steps: seq<Step>)
    ensures var m := Run(Deployed(self, deployer), steps);
      && LiveTrades(m.stack) <= 1
      && (m.storage.entered <==> LiveTrades(m.stack) == 1)
      && (m.Idle() ==> !m.storage.entered)
  {
    RunKeepsInvariant(Deployed(self, deployer), steps);
    AtMostOne(Run(Deployed(self, deployer), steps).stack);
  }

  /** A buy or sell attempted while one is in progress has no effect at all, and one
      attempted otherwise is never refused on account of the lock. */
  lemma NestedTradeHasNoEffect(self: Address, deployer: Address, steps: seq<Step>, step: Step)
    requires step.CallBuy? || step.CallSell?
    ensures var m := Run(Deployed(self, deployer), steps);
      && (LiveTrades(m.stack) > 0 ==> Next(m, step) == m)
      && (LiveTrades(m.stack) == 0 ==>
            (Next(m, step) != m <==>
              match step
              case CallBuy(_, asset, amountUsdc, minimum) =>
                var price, scaled := m.storage.Price(asset), amountUsdc * ASSET_UNIT;
                0 < price <= scaled <= MAX_UINT256 && price * minimum <= scaled
              case CallSell(_, asset, tokenAmount, minimum) =>
                var worth := m.storage.Price(asset) * tokenAmount;
                ASSET_UNIT <= worth <= MAX_UINT256 && ASSET_UNIT * minimum <= worth
              case _ => false))
  {
    RunKeepsInvariant(Deployed(self, deployer), steps);
    var m := Run(Deployed(self, deployer), steps);
    if step.CallBuy? {
      BuyAccepted(m.storage.Price(step.asset), step.amountUsdc, step.minimum);
    } else {
      SellAccepted(m.storage.Price(step.asset), step.tokenAmount, step.minimum);
    }
  }

  lemma BuyAccepted(price: uint256, amountUsdc: uint256, minimum: uint256)
    ensures (Quote(price, amountUsdc).Ok? && minimum <= Quote(price, amountUsdc).value) <==>
            (0 < price <= amountUsdc * ASSET_UNIT <= MAX_UINT256 && price * minimum <= amountUsdc * ASSET_UNIT)
  {
    QuoteBetween(price, amountUsdc, minimum, MAX_UINT256);
    if price > 0 {
      Grows(MAX_UINT256 + 1, 1, price);
    }
  }

  lemma SellAccepted(price: uint256, tokenAmount: uint256, minimum: uint256)
    ensures (QuoteSell(price, tokenAmount).Ok? && minimum <= QuoteSell(price, tokenAmount).value) <==>
            (ASSET_UNIT <= price * tokenAmount <= MAX_UINT256 && ASSET_UNIT * minimum <= price * tokenAmount)
  {
    QuoteSellBetween(price, tokenAmount, minimum, MAX_UINT256);
  }

  // The log of a transaction

  /** `logs` extends `base` without recording a trade. */
  ghost predicate Quiet(base: seq<Event>, logs: seq<Event>) {
    && base <= logs
    && forall i :: |base| <= i < |logs| ==> !logs[i].Trade()
  }

  /** The outermost call is the trade that will emit `event`, and nothing saved since its
      start has recorded another. */
  ghost predicate Within(stack: Stack, start: Storage, event: Event) {
    && stack.Push?
    && (if stack.below.Empty?
        then stack.top.Trading? && stack.top.saved == start && stack.top.event == event
        else !stack.top.Trading? && Quiet(start.logs, stack.top.saved.logs) && Within(stack.below, start, event))
  }

  ghost predicate InTrade(m: Machine, start: Storage, event: Event) {
    Invariant(m) && Within(m.stack, start, event) && Quiet(start.logs, m.storage.logs)
  }

  /** The trade went through: its event is the last log entry, and no other entry
      of the transaction records a trade. */
  ghost predicate Settled(storage: Storage, start: Storage, event: Event) {
    && !storage.entered
    && |storage.logs| > |start.logs|
    && storage.logs[|storage.logs| - 1] == event
    && Quiet(start.logs, storage.logs[..|storage.logs| - 1])
  }

  lemma {:induction false} WithinIsLive(stack: Stack, start: Storage, event: Event)
    requires Within(stack, start, event)
    ensures LiveTrades(stack) > 0
  {
    if stack.below.Push? {
      WithinIsLive(stack.below, start, event);
    }
  }

  lemma AbortInTrade(m: Machine, start: Storage, event: Event)
    requires InTrade(m, start, event) && m.Running()
    ensures InTrade(Abort(m), start, event) || (Abort(m).Idle() && Abort(m).storage == start)
  {
    AbortKeepsInvariant(m);
    var below := m.stack.below;
    assert Within(below, start, event);
  }

  lemma ResumeInTrade(m: Machine, success: bool, start: Storage, event: Event)
    requires InTrade(m, start, event) && m.Running()
    ensures var m' := Resume(m, success);
      || InTrade(m', start, event)
      || (m'.Idle() && (m'.storage == start || Settled(m'.storage, start, event)))
  {
    ResumeKeepsInvariant(m, success);
    AbortInTrade(m, start, event);
    var below := m.stack.below;
    assert Within(below, start, event);
    if below.below.Empty? {
      assert m.storage.Log(event).logs[..|m.storage.logs|] == m.storage.logs;
      assert Within(Push(Trading(start, event, true), Empty), start, event);
    }
  }

  /** A step taken inside a trade stays inside it, undoes it, or completes it. */
  lemma NextInTrade(m: Machine, step: Step, start: Storage, event: Event)
    requires InTrade(m, start, event)
    ensures var m' := Next(m, step);
      || InTrade(m', start, event)
      || (m'.Idle() && (m'.storage == start || Settled(m'.storage, start, event)))
  {
    NextKeepsInvariant(m, step);
    WithinIsLive(m.stack, start, event);
    match step
    case Return(success) =>
      if m.Running() {
        ResumeInTrade(m, success, start, event);
      }
    case Fail =>
      if m.Running() {
        AbortInTrade(m, start, event);
      }
    case CallWithdraw(_, _) =>
      assert Within(Push(Withdrawing(m.storage), m.stack), start, event);
    case _ =>
  }

  /** The steps run on until no call is active any more, and no further. */
  predicate Completes(m: Machine, steps: seq<Step>)
    decreases steps
  {
    if m.Idle() then steps == [] else steps != [] && Completes(Next(m, steps[0]), steps[1..])
  }

  lemma {:induction false} TradeCompletes(m: Machine, steps: seq<Step>, start: Storage, event: Event)
    requires InTrade(m, start, event)
    requires Completes(m, steps)
    ensures var m' := Run(m, steps);
      m'.Idle() && (m'.storage == start || Settled(m'.storage, start, event))
    decreases steps
  {
    NextInTrade(m, steps[0], start, event);
    if InTrade(Next(m, steps[0]), start, event) {
      TradeCompletes(Next(m, steps[0]), steps[1..], start, event);
    }
  }

  lemma TradeTransaction(m: Machine, call: Step, event: Event, steps: seq<Step>)
    requires Invariant(m) && m.Idle()
    requires Next(m, call) == m.Call(Trading(m.storage, event, false), m.storage.(entered := true))
    requires Completes(Next(m, call), steps)
    ensures var m' := Run(Next(m, call), steps);
      m'.Idle() && (m'.storage == m.storage || Settled(m'.storage, m.storage, event))
  {
    NextKeepsInvariant(m, call);
    assert Within(Next(m, call).stack, m.storage, event);
    TradeCompletes(Next(m, call), steps, m.storage, event);
  }

  /** Whatever the tokens do, a transaction whose outermost call is an accepted `buy` ends
      either with nothing changed, or with exactly one trade in its log: that purchase. */
  lemma BuyTransaction(m: Machine, caller: Address, asset: Address, amountUsdc: uint256, minimum: uint256, steps: seq<Step>)
    requires Invariant(m) && m.Idle()
    requires var m1 := Next(m, CallBuy(caller, asset, amountUsdc, minimum)); m1 != m && Completes(m1, steps)
    ensures var quoted := Quote(m.storage.Price(asset), amountUsdc);
      var m' := Run(Next(m, CallBuy(caller, asset, amountUsdc, minimum)), steps);
      && quoted.Ok? && minimum <= quoted.value
      && m'.Idle()
      && (|| m'.storage == m.storage
          || Settled(m'.storage, m.storage, Purchased(caller, asset, amountUsdc, quoted.value)))
  {
    var quoted := Quote(m.storage.Price(asset), amountUsdc);
    TradeTransaction(m, CallBuy(caller, asset, amountUsdc, minimum), Purchased(caller, asset, amountUsdc, quoted.value), steps);
  }

  /** The same for a `sell`, which logs that sale. */
  lemma SellTransaction(m: Machine, caller: Address, asset: Address, tokenAmount: uint256, minimum: uint256, steps: seq<Step>)
    requires Invariant(m) && m.Idle()
    requires var m1 := Next(m, CallSell(caller, asset, tokenAmount, minimum)); m1 != m && Completes(m1, steps)
    ensures var quoted := QuoteSell(m.storage.Price(asset), tokenAmount);
      var m' := Run(Next(m, CallSell(caller, asset, tokenAmount, minimum)), steps);
      && quoted.Ok? && minimum <= quoted.value
      && m'.Idle()
      && (|| m'.storage == m.storage
          || Settled(m'.storage, m.storage, Sold(caller, asset, tokenAmount, quoted.value)))
  {
    var quoted := QuoteSell(m.storage.Price(asset), tokenAmount);
    TradeTransaction(m, CallSell(caller, asset, tokenAmount, minimum), Sold(caller, asset, tokenAmount, quoted.value), steps);
  }

  // Reverts

  /** The frame just above `base` was entered with this storage; it is a call of the market's
      or of other code. */
  ghost predicate EnteredWith(stack: Stack, base: Stack, storage: Storage, code: bool) {
    stack.Push?
    && if stack.below == base then stack.top.saved == storage && stack.top.Code? == code
       else EnteredWith(stack.below, base, storage, code)
  }

  /** A call reverts when it fails, and one of the market's also when the token answers false. */
  predicate Reverts(step: Step, code: bool) {
    step.Fail? || (!code && step == Return(false))
  }

  lemma {:induction false} EnteredIsDeeper(stack: Stack, base: Stack, storage: Storage, code: bool)
    requires EnteredWith(stack, base, storage, code)
    ensures Depth(stack) > Depth(base)
  {
    if stack.below != base {
      EnteredIsDeeper(stack.below, base, storage, code);
    }
  }

  function Depth(stack: Stack): nat {
    if stack.Empty? then 0 else 1 + Depth(stack.below)
  }

  /** The steps run on until the call made above `base` is over, and no further. */
  predicate Leaves(m: Machine, base: Stack, steps: seq<Step>)
    decreases steps
  {
    if m.stack == base then steps == [] else steps != [] && Leaves(Next(m, steps[0]), base, steps[1..])
  }

  lemma NextInCall(m: Machine, step: Step, base: Stack, storage: Storage, code: bool)
    requires Invariant(m) && AwaitsCode(base) && EnteredWith(m.stack, base, storage, code)
    ensures var m' := Next(m, step);
      EnteredWith(m'.stack, base, storage, code) || (m'.stack == base && (Reverts(step, code) ==> m'.storage == storage))
  {
    EnteredIsDeeper(m.stack, base, storage, code);
    match step
    case Return(success) =>
      if m.Running() {
        ReturnInCall(m, success, base, storage, code);
      }
    case Fail =>
      if m.Running() {
        ReturnInCall(m, false, base, storage, code);
      }
    case _ =>
      assert forall frame :: EnteredWith(Push(frame, m.stack), base, storage, code);
  }

  lemma ReturnInCall(m: Machine, success: bool, base: Stack, storage: Storage, code: bool)
    requires Invariant(m) && m.Running() && AwaitsCode(base) && EnteredWith(m.stack, base, storage, code)
    ensures var m' := Resume(m, success);
      EnteredWith(m'.stack, base, storage, code) || (m'.stack == base && (!code && !success ==> m'.storage == storage))
    ensures var m' := Abort(m);
      EnteredWith(m'.stack, base, storage, code) || (m'.stack == base && m'.storage == storage)
  {
    var below := m.stack.below;
    if below != base {
      assert EnteredWith(below, base, storage, code);
      if below.top.Trading? {
        assert EnteredWith(Push(Trading(below.top.saved, below.top.event, true), below.below), base, storage, code);
      }
    }
  }

  lemma {:induction false} CallLeaves(m: Machine, steps: seq<Step>, base: Stack, storage: Storage, code: bool)
    requires Invariant(m) && AwaitsCode(base) && EnteredWith(m.stack, base, storage, code)
    requires steps != [] && Leaves(m, base, steps)
    ensures Reverts(steps[|steps| - 1], code) ==> Run(m, steps) == Machine(m.self, storage, base)
    decreases steps
  {
    var m1 := Next(m, steps[0]);
    NextKeepsInvariant(m, steps[0]);
    NextInCall(m, steps[0], base, storage, code);
    if m1.stack != base {
      EnteredIsDeeper(m1.stack, base, storage, code);
      CallLeaves(m1, steps[1..], base, storage, code);
    }
  }

  /** A call that reverts undoes all that was done in it, by whomever and to any depth: the
      machine is as it was before the call. */
  lemma RevertUndoes(m: Machine, call: Step, steps: seq<Step>)
    requires Invariant(m) && (call.CallBuy? || call.CallSell? || call.CallWithdraw? || call.CallCode?)
    requires Next(m, call) != m && Leaves(Next(m, call), m.stack, steps)
    requires steps != []
    requires steps[|steps| - 1] == Fail || (!call.CallCode? && steps[|steps| - 1] == Return(false))
    ensures Run(Next(m, call), steps) == m
  {
    NextKeepsInvariant(m, call);
    var m1 := Next(m, call);
    assert m1.stack != m.stack;
    assert EnteredWith(m1.stack, m.stack, m.storage, call.CallCode?);
    CallLeaves(m1, steps, m.stack, m.storage, call.CallCode?);
  }

  // What the owner alone can do

  /** The owner and the prices are these, and no rollback brings others back. */
  predicate Governed(storage: Storage, stack: Stack, owner: Address, prices: map<Address, uint256>)
    decreases stack
  {
    && storage.owner == owner && storage.prices == prices
    && (stack.Push? ==> Governed(stack.top.saved, stack.below, owner, prices))
  }

  predicate ByOwner(step: Step, owner: Address) {
    (step.CallWithdraw? || step.CallSetPrice? || step.CallTransferOwnership?) && step.caller == owner
  }

  lemma ReturnGoverned(m: Machine, success: bool, owner: Address, prices: map<Address, uint256>)
    requires Governed(m.storage, m.stack, owner, prices) && m.Running()
    ensures var m' := Resume(m, success); Governed(m'.storage, m'.stack, owner, prices)
    ensures var m' := Abort(m); Governed(m'.storage, m'.stack, owner, prices)
  {
    var below := m.stack.below;
    assert Governed(m.stack.top.saved, below, owner, prices);
    if below.Push? {
      assert Governed(below.top.saved, below.below, owner, prices);
      assert below.below.Push? ==> Governed(below.below.top.saved, below.below.below, owner, prices);
      if below.top.Trading? {
        assert Governed(m.storage, Push(Trading(below.top.saved, below.top.event, true), below.below), owner, prices);
      }
    }
  }

  lemma NextGoverned(m: Machine, step: Step, owner: Address, prices: map<Address, uint256>)
    requires Governed(m.storage, m.stack, owner, prices) && !ByOwner(step, owner)
    ensures var m' := Next(m, step); Governed(m'.storage, m'.stack, owner, prices)
    ensures step.CallWithdraw? || step.CallSetPrice? || step.CallTransferOwnership? ==> Next(m, step) == m
  {
    assert m.stack.Push? ==> Governed(m.stack.top.saved, m.stack.below, owner, prices);
    match step
    case Return(success) =>
      if m.Running() {
        ReturnGoverned(m, success, owner, prices);
      }
    case Fail =>
      if m.Running() {
        ReturnGoverned(m, false, owner, prices);
      }
    case _ =>
  }

  /** Whatever arbitrary code does, inside trades or not, while the owner itself does not
      administer the market its owner and prices stay, and nothing is withdrawn. */
  lemma {:induction false} OnlyTheOwnerAdministers(m: Machine, steps: seq<Step>, owner: Address, prices: map<Address, uint256>)
    requires Governed(m.storage, m.stack, owner, prices)
    requires forall step :: step in steps ==> !ByOwner(step, owner)
    ensures Run(m, steps).storage.owner == owner && Run(m, steps).storage.prices == prices
    decreases steps
  {
    if steps != [] {
      NextGoverned(m, steps[0], owner, prices);
      OnlyTheOwnerAdministers(Next(m, steps[0]), steps[1..], owner, prices);
    }
  }

  // Whose logs are whose

  /** No other contract has logged anything from the market's address, nor will a rollback
      bring such a log back. */
  predicate Unforged(self: Address, storage: Storage, stack: Stack)
    decreases stack
  {
    && Foreign(self) !in storage.logs
    && (stack.Push? ==>
          (stack.top.Trading? ==> stack.top.event.Trade()) && Unforged(self, stack.top.saved, stack.below))
  }

  lemma ReturnForgesNothing(m: Machine, success: bool)
    requires Unforged(m.self, m.storage, m.stack) && m.Running()
    ensures var m' := Resume(m, success); Unforged(m'.self, m'.storage, m'.stack)
    ensures var m' := Abort(m); Unforged(m'.self, m'.storage, m'.stack)
  {
    var below := m.stack.below;
    assert Unforged(m.self, m.stack.top.saved, below);
    if below.Push? {
      assert Unforged(m.self, below.top.saved, below.below);
      assert below.below.Push? ==> Unforged(m.self, below.below.top.saved, below.below.below);
      if below.top.Trading? {
        assert Unforged(m.self, m.storage, Push(Trading(below.top.saved, below.top.event, true), below.below));
      }
    }
  }

  lemma NextForgesNothing(m: Machine, step: Step)
    requires Unforged(m.self, m.storage, m.stack)
    ensures var m' := Next(m, step); m'.self == m.self && Unforged(m'.self, m'.storage, m'.stack)
  {
    match step
    case Return(success) =>
      if m.Running() {
        ReturnForgesNothing(m, success);
      }
    case Fail =>
      if m.Running() {
        ReturnForgesNothing(m, false);
      }
    case _ =>
      assert m.stack.Push? ==> Unforged(m.self, m.stack.top.saved, m.stack.below);
  }

  lemma {:induction false} RunForgesNothing(m: Machine, steps: seq<Step>)
    requires Unforged(m.self, m.storage, m.stack)
    ensures Foreign(m.self) !in Run(m, steps).storage.logs
    decreases steps
  {
    if steps != [] {
      NextForgesNothing(m, steps[0]);
      RunForgesNothing(Next(m, steps[0]), steps[1..]);
    }
  }
}
