/** The market contract itself, calling deployed tokens and rolling back on a revert. */
module MarketContract {
  import opened Evm
  import opened DemoTokens
  import opened PaymentTokens
  import opened Pricing
  import opened Market

  function Claimed(faucet: DemoPaymentToken?): set<Address>
    reads faucet
  {
    if faucet == null then {} else faucet.claimed
  }

  class TickerlessMarket {
    const self: Address
    const paymentToken: Address
    /** The tokens deployed at each address, and the payment token's faucet if it has one. */
    const faucet: DemoPaymentToken?
    const contracts: map<Address, DemoToken>
    var owner: Address
    var entered: bool
    var priceUsdc: map<Address, uint256>

    /** No two addresses share a contract. */
    ghost predicate Deployed() {
      forall a <- contracts, b <- contracts :: contracts[a] == contracts[b] ==> a == b
    }

    ghost function Ledgers(): map<Address, Ledger>
      reads contracts.Values
    {
      map token <- contracts :: contracts[token].State()
    }

    ghost function State(): World
      reads this, faucet, contracts.Values
    {
      World(self, paymentToken, owner, entered, priceUsdc, Ledgers(), Claimed(faucet))
    }

    function Price(asset: Address): uint256
      reads this
    {
      if asset in priceUsdc then priceUsdc[asset] else 0
    }

    constructor (msgSender: Address, self: Address, paymentToken: Address,
                 faucet: DemoPaymentToken?, contracts: map<Address, DemoToken>)
      requires paymentToken != ZERO_ADDRESS
      requires forall a <- contracts, b <- contracts :: contracts[a] == contracts[b] ==> a == b
      ensures Deployed()
      ensures State() == World(self, paymentToken, msgSender, false, map[],
                               map token <- contracts :: contracts[token].State(), Claimed(faucet))
      ensures this.contracts == contracts && this.faucet == faucet
    {
      this.self := self;
      this.paymentToken := paymentToken;
      this.faucet := faucet;
      this.contracts := contracts;
      owner := msgSender;
      entered := false;
      priceUsdc := map[];
    }

    /** Deployment reverts for the zero address only: nothing else is asked of the payment token. */
    static method Deploy(msgSender: Address, self: Address, paymentToken: Address,
                         faucet: DemoPaymentToken?, contracts: map<Address, DemoToken>)
      returns (r: Outcome<TickerlessMarket>)
      requires forall a <- contracts, b <- contracts :: contracts[a] == contracts[b] ==> a == b
      ensures if paymentToken == ZERO_ADDRESS then r == Revert(ZeroAddress)
              else
                && r.Ok? && fresh(r.value) && r.value.Deployed()
                && r.value.State() == World(self, paymentToken, msgSender, false, map[],
                                            map token <- contracts :: contracts[token].State(), Claimed(faucet))
    {
      if paymentToken == ZERO_ADDRESS {
        return Revert(ZeroAddress);
      }
      var market := new TickerlessMarket(msgSender, self, paymentToken, faucet, contracts);
      return Ok(market);
    }

    // Calls out to a token

    method TokenTransfer(token: Address, recipient: Address, amount: uint256) returns (r: Outcome<bool>)
      requires Deployed()
      modifies contracts.Values
      ensures match CallToken(old(State()), token, self, Op.Transfer(recipient, amount))
              case Ok(w') => r == Ok(true) && State() == w'
              case Revert(e) => r == Revert(e) && State() == old(State())
    {
      if token !in contracts {
        return Revert(NotAContract);
      }
      r := contracts[token].Transfer(self, recipient, amount);
      assert Ledgers() == old(Ledgers())[token := contracts[token].State()];
    }

    method TokenTransferFrom(token: Address, sender: Address, recipient: Address, amount: uint256)
      returns (r: Outcome<bool>)
      requires Deployed()
      modifies contracts.Values
      ensures match CallToken(old(State()), token, self, Op.TransferFrom(sender, recipient, amount))
              case Ok(w') => r == Ok(true) && State() == w'
              case Revert(e) => r == Revert(e) && State() == old(State())
    {
      if token !in contracts {
        return Revert(NotAContract);
      }
      r := contracts[token].TransferFrom(self, sender, recipient, amount);
      assert Ledgers() == old(Ledgers())[token := contracts[token].State()];
    }

    /** The EVM's rollback of one token's storage. */
    method RestoreToken(token: Address, checkpoint: Ledger)
      requires Deployed() && token in contracts
      modifies contracts[token]
      ensures State() == old(State()).(ledgers := old(State()).ledgers[token := checkpoint])
    {
      contracts[token].Restore(checkpoint);
      assert Ledgers() == old(Ledgers())[token := checkpoint];
    }

    /** The second token call of a trade; when it fails the first one is undone. */
    method Give(trader: Address, given: Address, givenAmount: uint256, taken: Address, checkpoint: Ledger)
      returns (r: Outcome<()>)
      requires Deployed() && taken in contracts
      modifies contracts.Values
      ensures match CallToken(old(State()), given, self, Op.Transfer(trader, givenAmount))
              case Ok(w') => r == Ok(()) && State() == w'
              case Revert(e) =>
                r == Revert(e) && State() == old(State()).(ledgers := old(State()).ledgers[taken := checkpoint])
    {
      var delivered := TokenTransfer(given, trader, givenAmount);
      if delivered.Revert? || !delivered.value {
        RestoreToken(taken, checkpoint);
        return Revert(if delivered.Revert? then delivered.error else TokenTransferFailed);
      }
      return Ok(());
    }

    /** Takes from the trader, then gives. */
    method Exchange(trader: Address, taken: Address, takenAmount: uint256, given: Address, givenAmount: uint256)
      returns (r: Outcome<()>)
      requires Deployed()
      modifies contracts.Values
      ensures match Market.Exchange(old(State()), trader, taken, takenAmount, given, givenAmount)
              case Ok(w') => r == Ok(()) && State() == w'
              case Revert(e) => r == Revert(e) && State() == old(State())
    {
      if taken !in contracts {
        return Revert(NotAContract);
      }
      var checkpoint := contracts[taken].State();
      var received := TokenTransferFrom(taken, trader, self, takenAmount);
      if received.Revert? || !received.value {
        return Revert(if received.Revert? then received.error else TokenTransferFailed);
      }
      assert State().ledgers[taken := checkpoint] == old(State()).ledgers;
      r := Give(trader, given, givenAmount, taken, checkpoint);
    }

    // Entry points

    method Buy(msgSender: Address, asset: Address, amountUsdc: uint256, minimumTokenAmount: uint256)
      returns (r: Outcome<uint256>)
      requires Deployed()
      modifies this, contracts.Values
      ensures match Market.Buy(old(State()), msgSender, asset, amountUsdc, minimumTokenAmount)
              case Ok((w', tokenAmount)) => r == Ok(tokenAmount) && State() == w'
              case Revert(e) => r == Revert(e) && State() == old(State())
    {
      if entered {
        return Revert(ReentrantCall);
      }
      entered := true;
      r := Quote(Price(asset), amountUsdc);
      if r.Ok? {
        if r.value < minimumTokenAmount {
          r := Revert(InsufficientOutput);
        } else {
          var exchanged := Exchange(msgSender, paymentToken, amountUsdc, asset, r.value);
          r := if exchanged.Revert? then Revert(exchanged.error) else r;
        }
      }
      entered := false;
    }

    method Sell(msgSender: Address, asset: Address, tokenAmount: uint256, minimumUsdcAmount: uint256)
      returns (r: Outcome<uint256>)
      requires Deployed()
      modifies this, contracts.Values
      ensures match Market.Sell(old(State()), msgSender, asset, tokenAmount, minimumUsdcAmount)
              case Ok((w', amountUsdc)) => r == Ok(amountUsdc) && State() == w'
              case Revert(e) => r == Revert(e) && State() == old(State())
    {
      if entered {
        return Revert(ReentrantCall);
      }
      entered := true;
      r := QuoteSell(Price(asset), tokenAmount);
      if r.Ok? {
        if r.value < minimumUsdcAmount {
          r := Revert(InsufficientOutput);
        } else {
          var exchanged := Exchange(msgSender, asset, tokenAmount, paymentToken, r.value);
          r := if exchanged.Revert? then Revert(exchanged.error) else r;
        }
      }
      entered := false;
    }

    method SetAssetPrice(msgSender: Address, asset: Address, price: uint256) returns (r: Outcome<()>)
      modifies this`priceUsdc
      ensures match Market.SetAssetPrice(old(State()), msgSender, asset, price)
              case Ok(w') => r == Ok(()) && State() == w'
              case Revert(e) => r == Revert(e) && State() == old(State())
    {
      if msgSender != owner {
        return Revert(Unauthorized);
      }
      if asset == ZERO_ADDRESS {
        return Revert(ZeroAddress);
      }
      if price == 0 {
        return Revert(InvalidPrice);
      }
      priceUsdc := priceUsdc[asset := price];
      return Ok(());
    }

    method WithdrawAsset(msgSender: Address, asset: Address, recipient: Address, amount: uint256)
      returns (r: Outcome<()>)
      requires Deployed()
      modifies contracts.Values
      ensures match Market.WithdrawAsset(old(State()), msgSender, asset, recipient, amount)
              case Ok(w') => r == Ok(()) && State() == w'
              case Revert(e) => r == Revert(e) && State() == old(State())
    {
      if msgSender != owner {
        return Revert(Unauthorized);
      }
      if recipient == ZERO_ADDRESS {
        return Revert(ZeroAddress);
      }
      var moved := TokenTransfer(asset, recipient, amount);
      if moved.Revert? || !moved.value {
        return Revert(if moved.Revert? then moved.error else TokenTransferFailed);
      }
      return Ok(());
    }

    method TransferOwnership(msgSender: Address, newOwner: Address) returns (r: Outcome<()>)
      modifies this`owner
      ensures match Market.TransferMarket(old(State()), msgSender, newOwner)
              case Ok(w') => r == Ok(()) && State() == w'
              case Revert(e) => r == Revert(e) && State() == old(State())
    {
      if msgSender != owner {
        return Revert(Unauthorized);
      }
      if newOwner == ZERO_ADDRESS {
        return Revert(ZeroAddress);
      }
      owner := newOwner;
      return Ok(());
    }
  }
}
