/** From the chain to the API: what the verifier makes of what the market did. */
module EndToEnd {
  import opened Evm
  import opened Options
  import opened Hex
  import opened Pricing
  import opened Reentrancy
  import opened Verifier
  import opened AbiEncoding
  import opened DemoRuns
  import Market
  import Relational
  import RelationalProofs

  lemma {:induction false} QuietIsUnrecognised(events: seq<Event>, last: Event, wallet: Address, asset: Address)
    requires forall i :: 0 <= i < |events| ==> !events[i].Trade()
    ensures FirstRecognised(events + [last], wallet, asset) == Recognised(last, wallet, asset)
    decreases events
  {
    if events != [] {
      QuietIsUnrecognised(events[1..], last, wallet, asset);
      assert (events + [last])[1..] == events[1..] + [last];
    }
  }

  /** What a completed transaction leaves in its receipt. */
  function Emitted(before: Storage, after: Storage): seq<Event>
    requires |before.logs| <= |after.logs|
  {
    after.logs[|before.logs|..]
  }

  /** The transaction and receipt, as the node reports them, of a buy that took the market
      from `before` to `after`; a reverted one leaves no logs. */
  ghost predicate Reported(transaction: Transaction, receipt: Receipt, self: Address, before: Storage, after: Storage,
                           topics: Topics, order: Order) {
    && |before.logs| <= |after.logs|
    && receipt.status == (if after == before then "0x0" else "0x1")
    && EncodesLogs(receipt.logs, self, Emitted(before, after), topics)
    && SpellsAddress(transaction.from, order.caller)
    && transaction.to.Some? && SpellsAddress(transaction.to.value, self)
    && EncodesBuy(transaction.input, order.asset, order.amountUsdc, order.minimum)
  }

  /** What the verifier is asked, and the remote chain's answer. */
  datatype Query = Query(chain: string, chainId: int64, txHash: string, wallet: string, market: string, asset: string)
  {
    /** The chain answers with its number, the hash is well formed, and the texts spell this
        wallet, market and asset. */
    ghost predicate Asks(w: Address, self: Address, a: Address) {
      && OnChain(Reply(chain), chainId)
      && (exists v: uint256 :: SpellsWord(txHash, v))
      && SpellsAddress(wallet, w) && SpellsAddress(market, self) && SpellsAddress(asset, a)
    }

    function Verdict(transaction: Transaction, receipt: Receipt): Verdict {
      VerifyPurchase(Reply(chain), Reply(transaction), Reply(receipt), txHash, wallet, market, asset, chainId)
    }
  }

  /** The verdict on a purchase that went through, asked for wallet `w` and asset `a`. */
  function ExpectedVerdict(event: Event, w: Address, a: Address): Verdict
    requires event.Purchased?
  {
    if w != event.buyer || a != event.asset || event.amountUsdc >= TWO_128 || event.tokenAmount >= TWO_128
    then Rejected(Mismatch)
    else if event.amountUsdc < TWO_96 && event.tokenAmount < TWO_96
    then Verified(Decimal(event.amountUsdc, 6), Decimal(event.tokenAmount, 18))
    else if event.amountUsdc >= TWO_127 || (event.amountUsdc < TWO_96 && event.tokenAmount >= TWO_127)
    then Rejected(Mismatch)
    else Panicked
  }

  /** A settled trade's own event is the last of those it emitted, and the only trade. */
  lemma SettledEmits(before: Storage, after: Storage, event: Event) returns (quiet: seq<Event>)
    requires Settled(after, before, event)
    ensures Emitted(before, after) == quiet + [event]
    ensures forall i :: 0 <= i < |quiet| ==> !quiet[i].Trade()
  {
    var logs, n := after.logs[..|after.logs| - 1], |before.logs|;
    quiet := logs[n..];
    forall i | 0 <= i < |quiet| ensures !quiet[i].Trade() {
      assert quiet[i] == logs[n + i];
    }
  }

  lemma SettledVerdict(before: Storage, after: Storage, event: Event, w: Address, a: Address)
    requires event.Purchased? && Settled(after, before, event)
    ensures AbiVerdict(true, event.buyer == w && event.asset == a, event.amountUsdc,
                       FirstRecognised(Emitted(before, after), w, a)) ==
            ExpectedVerdict(event, w, a)
  {
    var quiet := SettledEmits(before, after, event);
    QuietIsUnrecognised(quiet, event, w, a);
  }

  lemma AnsweredVerdict(q: Query, transaction: Transaction, receipt: Receipt, w: Address, self: Address, a: Address)
    requires q.Asks(w, self, a)
    ensures q.Verdict(transaction, receipt) == VerifyReceipt(transaction, receipt, q.wallet, q.market, q.asset)
  {
    NeverPending(Reply(q.chain), Reply(transaction), Reply(receipt), q.txHash, q.wallet, q.market, q.asset, q.chainId);
  }

  /** Whatever the tokens do, a transaction whose outermost call is a buy is verified exactly
      when the buy settled, for its own wallet and asset and no other, with the amount paid and
      the amount quoted, when both fit a decimal; a buy that was refused or reverted is not. */
  lemma BuyIsVerified(m: Machine, order: Order, steps: seq<Step>,
                      transaction: Transaction, receipt: Receipt, topics: Topics, q: Query, w: Address, a: Address)
    requires Invariant(m) && m.Idle() && topics.Distinct() && q.Asks(w, m.self, a)
    requires Completes(Next(m, order.Call()), steps)
    requires Reported(transaction, receipt, m.self, m.storage, Run(Next(m, order.Call()), steps).storage, topics, order)
    ensures var m' := Run(Next(m, order.Call()), steps);
      var quoted := Quote(m.storage.Price(order.asset), order.amountUsdc);
      && (m'.storage != m.storage ==> quoted.Ok? && order.minimum <= quoted.value)
      && q.Verdict(transaction, receipt) ==
         if m'.storage == m.storage then Rejected(Reverted)
         else ExpectedVerdict(Purchased(order.caller, order.asset, order.amountUsdc, quoted.value), w, a)
  {
    AnsweredVerdict(q, transaction, receipt, w, m.self, a);
    var m1 := Next(m, order.Call());
    var m' := Run(m1, steps);
    if m1 != m {
      BuyTransaction(m, order.caller, order.asset, order.amountUsdc, order.minimum, steps);
    }
    if m'.storage != m.storage {
      var t := Quote(m.storage.Price(order.asset), order.amountUsdc).value;
      SettledVerdict(m.storage, m'.storage, Purchased(order.caller, order.asset, order.amountUsdc, t), w, a);
      VerdictOnBuy(transaction, receipt, m.self, Emitted(m.storage, m'.storage), topics,
                   order.caller, m.self, order.asset, order.amountUsdc, order.minimum, q.wallet, q.market, q.asset, w, a);
    }
  }

  // Among demo tokens

  /** What moved on the ledgers when a buy went through. */
  ghost predicate Paid(w: Market.World, w': Market.World, order: Order, tokenAmount: uint256) {
    && Market.OnlyLedgersChanged(w, w', {w.payment, order.asset})
    && Market.LedgerMoved(w, w', w.payment, order.caller, w.self, order.amountUsdc)
    && Market.LedgerMoved(w, w', order.asset, w.self, order.caller, tokenAmount)
  }

  /** From ledgers to verdict: a buy among demo tokens, reported with all that the tokens log,
      is verified exactly when it moved the verified amounts between the wallet and the market
      on the two ledgers. */
  lemma LedgersAreVerified(world: Market.World, m: Machine, order: Order,
                           transaction: Transaction, receipt: Receipt, topics: Topics, q: Query, w: Address, a: Address)
    requires world.Valid() && world.self !in world.ledgers && order.caller != world.self
    requires Agree(world, m) && topics.Distinct() && q.Asks(w, m.self, a)
    requires Reported(transaction, receipt, m.self, m.storage,
                      Run(Next(m, order.Call()), BuySteps(world, order)).storage, topics, order)
    ensures match order.Buy(world)
            case Revert(_) => q.Verdict(transaction, receipt) == Rejected(Reverted)
            case Ok((world', t)) =>
              && Paid(world, world', order, t)
              && q.Verdict(transaction, receipt) ==
                 ExpectedVerdict(Purchased(order.caller, order.asset, order.amountUsdc, t), w, a)
  {
    BuyIsRun(world, m, order);
    Market.BuyIsExact(world, order.caller, order.asset, order.amountUsdc, order.minimum);
    BuyIsVerified(m, order, BuySteps(world, order), transaction, receipt, topics, q, w, a);
  }

  // Into the database

  /** The row's amounts, at the scales that the columns have. */
  function PurchaseOf(verdict: Verdict): Relational.Purchase
    requires verdict.Verified?
  {
    Relational.Purchase(verdict.amountUsdc.mantissa, verdict.tokenAmount.mantissa)
  }

  /** Recording answers no more than: no instrument, the discovery, a duplicate, or done. */
  ghost predicate RecordedOrNot(r: Relational.Registry, t: Relational.Tables, input: Relational.Submission,
                                newUser: Relational.Id, newId: Relational.Id,
                                answer: Relational.Result<Relational.Id, Relational.DbError>) {
    if forall asset <- r.assets :: !RelationalProofs.InstrumentOf(r, asset, input.companySlug)
    then answer == Relational.Err(Relational.DbError.Database)
    else
      exists asset <- r.assets ::
        && RelationalProofs.InstrumentOf(r, asset, input.companySlug)
        && answer == if input.discovery.Some?
                        && !RelationalProofs.Claimable(t, input.discovery.value,
                                                       RelationalProofs.Buyer(t, input.wallet, newUser), asset.company)
                     then Relational.Err(Relational.DiscoveryMismatch)
                     else if RelationalProofs.Recorded(t, input.txHash) then Relational.Err(Relational.Duplicate)
                     else Relational.Ok(newId)
  }

  lemma SmallIsRecorded(r: Relational.Registry, t: Relational.Tables, input: Relational.Submission,
                        purchase: Relational.Purchase, newUser: Relational.Id, newId: Relational.Id)
    requires RelationalProofs.FreshIds(t, newUser, newId)
    requires 0 < purchase.amountUsdc < TWO_96 && 0 <= purchase.tokenAmount < TWO_96
    ensures RecordedOrNot(r, t, input, newUser, newId,
                          Relational.RecordTransaction(r, t, input, purchase, newUser, newId).0)
  {
    RelationalProofs.FitsDigits(purchase);
    RelationalProofs.RecordIsExact(r, t, input, purchase, newUser, newId);
  }

  /** A verified purchase always fits the columns it is recorded in, so recording it fails only
      for want of an instrument, for the discovery it names, or because it was recorded before. */
  lemma VerifiedIsRecorded(m: Machine, order: Order, steps: seq<Step>,
                           transaction: Transaction, receipt: Receipt, topics: Topics, q: Query, w: Address, a: Address,
                           r: Relational.Registry, t: Relational.Tables, input: Relational.Submission,
                           newUser: Relational.Id, newId: Relational.Id)
    requires Invariant(m) && m.Idle() && topics.Distinct() && q.Asks(w, m.self, a)
    requires Completes(Next(m, order.Call()), steps)
    requires Reported(transaction, receipt, m.self, m.storage, Run(Next(m, order.Call()), steps).storage, topics, order)
    requires RelationalProofs.FreshIds(t, newUser, newId)
    ensures var verdict := q.Verdict(transaction, receipt);
      verdict.Verified? ==>
        RecordedOrNot(r, t, input, newUser, newId,
                      Relational.RecordTransaction(r, t, input, PurchaseOf(verdict), newUser, newId).0)
  {
    BuyIsVerified(m, order, steps, transaction, receipt, topics, q, w, a);
    var verdict := q.Verdict(transaction, receipt);
    if verdict.Verified? {
      QuoteIsFloor(m.storage.Price(order.asset), order.amountUsdc);
      SmallIsRecorded(r, t, input, PurchaseOf(verdict), newUser, newId);
    }
  }

  // Reports exist

  function EncodeLogs(self: Address, events: seq<Event>, topics: Topics): seq<Log> {
    seq(|events|, i requires 0 <= i < |events| => EncodeLog(self, events[i], topics, Log("", [], "")))
  }

  function EncodeTransaction(self: Address, order: Order): Transaction {
    Transaction(EncodeAddress(order.caller), Some(EncodeAddress(self)),
                EncodeBuy(order.asset, order.amountUsdc, order.minimum))
  }

  function EncodeReceipt(self: Address, before: Storage, after: Storage, topics: Topics): Receipt
    requires |before.logs| <= |after.logs|
  {
    Receipt(if after == before then "0x0" else "0x1", EncodeLogs(self, Emitted(before, after), topics))
  }

  lemma EncodedIsReported(self: Address, before: Storage, after: Storage, topics: Topics, order: Order)
    requires |before.logs| <= |after.logs| && Foreign(self) !in after.logs
    ensures Reported(EncodeTransaction(self, order), EncodeReceipt(self, before, after, topics), self, before, after, topics, order)
  {
    EncodeAddressSpells(order.caller);
    EncodeAddressSpells(self);
    EncodeBuyEncodes(order.asset, order.amountUsdc, order.minimum);
    var events := Emitted(before, after);
    forall i | 0 <= i < |events| ensures EncodesLog(EncodeLogs(self, events, topics)[i], self, events[i], topics) {
      assert events[i] in after.logs;
      EncodeLogEncodes(self, events[i], topics, Log("", [], ""));
    }
  }

  function EncodeQuery(hash: uint256, wallet: Address, market: Address, asset: Address): Query {
    Query("0x1", 1, "0x" + EncodeWord(hash), EncodeAddress(wallet), EncodeAddress(market), EncodeAddress(asset))
  }

  lemma EncodedQueryAsks(hash: uint256, wallet: Address, market: Address, asset: Address)
    ensures EncodeQuery(hash, wallet, market, asset).Asks(wallet, market, asset)
    ensures SpellsWord(EncodeQuery(hash, wallet, market, asset).txHash, hash)
  {
    assert "0x1"[2..] == "1" && Value("1"[..0]) == 0 && Value("1") == 1;
    assert Parses("0x1"[2..], 1 % TWO_128);
    assert OnChain(Reply("0x1"), 1);
    EncodeWordSpells(hash);
    assert ("0x" + EncodeWord(hash))[2..] == EncodeWord(hash);
    assert SpellsWord(EncodeQuery(hash, wallet, market, asset).txHash, hash);
    EncodeAddressSpells(wallet);
    EncodeAddressSpells(market);
    EncodeAddressSpells(asset);
  }

  /** Every buy has a report, and there is a query for its own wallet and asset, so what is
      said of all reports and queries is said of some. */
  lemma EveryBuyIsReported(m: Machine, order: Order, steps: seq<Step>, topics: Topics, hash: uint256)
    returns (transaction: Transaction, receipt: Receipt, q: Query)
    requires Invariant(m) && m.Idle() && Foreign(m.self) !in m.storage.logs
    requires Completes(Next(m, order.Call()), steps)
    ensures Reported(transaction, receipt, m.self, m.storage, Run(Next(m, order.Call()), steps).storage, topics, order)
    ensures q.Asks(order.caller, m.self, order.asset) && SpellsWord(q.txHash, hash)
  {
    var after := Run(Next(m, order.Call()), steps).storage;
    if Next(m, order.Call()) != m {
      BuyTransaction(m, order.caller, order.asset, order.amountUsdc, order.minimum, steps);
    }
    RunForgesNothing(m, [order.Call()] + steps);
    assert ([order.Call()] + steps)[1..] == steps;
    transaction, receipt := EncodeTransaction(m.self, order), EncodeReceipt(m.self, m.storage, after, topics);
    EncodedIsReported(m.self, m.storage, after, topics, order);
    q := EncodeQuery(hash, order.caller, m.self, order.asset);
    EncodedQueryAsks(hash, order.caller, m.self, order.asset);
  }

  lemma QuoteAtUnitPrice(x: uint256)
    requires 0 < x < TWO_127
    ensures Quote(ASSET_UNIT, x) == Ok(x)
  {
    QuoteIsFloor(ASSET_UNIT, x);
  }

  /** A market that sells `asset` at one payment unit for each of its units. */
  function UnitMarket(self: Address, asset: Address): Machine {
    Machine(self, Storage(self, false, map[asset := ASSET_UNIT], []), Empty)
  }

  lemma UnitBuy(m: Machine, order: Order)
    requires m == UnitMarket(m.self, order.asset) && 0 < order.amountUsdc < TWO_127 && order.minimum == 0
    ensures var m1 := Next(m, order.Call());
      var event := Purchased(order.caller, order.asset, order.amountUsdc, order.amountUsdc);
      && Completes(m1, [Return(true), Return(true)])
      && Run(m1, [Return(true), Return(true)]).storage == m.storage.Log(event)
  {
    QuoteAtUnitPrice(order.amountUsdc);
    var m1 := Next(m, order.Call());
    OneStep(m1, Return(true), [Return(true)]);
    OneStep(Next(m1, Return(true)), Return(true), []);
  }

  /** The inputs on which the decimal conversion fails: for every amount from 2^96 up to 2^127
      here is a purchase of that amount on which the verifier panics. */
  lemma WideAmountPanics(self: Address, caller: Address, asset: Address, x: uint256, topics: Topics, hash: uint256)
    returns (m: Machine, order: Order, steps: seq<Step>, transaction: Transaction, receipt: Receipt, q: Query)
    requires TWO_96 <= x < TWO_127 && topics.Distinct()
    ensures m == UnitMarket(self, asset) && order == Order(caller, asset, x, 0)
    ensures Completes(Next(m, order.Call()), steps)
    ensures Reported(transaction, receipt, self, m.storage, Run(Next(m, order.Call()), steps).storage, topics, order)
    ensures q.Asks(caller, self, asset)
    ensures q.Verdict(transaction, receipt) == Panicked
  {
    m, order, steps := UnitMarket(self, asset), Order(caller, asset, x, 0), [Return(true), Return(true)];
    UnitBuy(m, order);
    QuoteAtUnitPrice(x);
    transaction, receipt, q := EveryBuyIsReported(m, order, steps, topics, hash);
    BuyIsVerified(m, order, steps, transaction, receipt, topics, q, caller, asset);
  }
}
