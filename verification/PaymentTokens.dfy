/** `DemoPaymentToken`: a `DemoToken` from which every address may claim once. */
module PaymentTokens {
  import opened Evm
  import opened DemoTokens

  const FAUCET_AMOUNT: uint256 := 1_000_000_000

  datatype Faucet = Faucet(token: Ledger, claimed: set<Address>)

  datatype FaucetCall = Inherited(call: Call) | Claim(caller: Address)

  function ApplyFaucet(f: Faucet, call: FaucetCall): Outcome<Faucet> {
    match call
    case Inherited(c) =>
      var l :- Apply(f.token, c.caller, c.op);
      Ok(f.(token := l))
    case Claim(caller) =>
      if caller in f.claimed then Revert(AlreadyClaimed)
      else
        var l :- Issue(f.token, caller, FAUCET_AMOUNT);
        Ok(Faucet(l.Log(FaucetClaimed(caller, FAUCET_AMOUNT)), f.claimed + {caller}))
  }

  function StepFaucet(f: Faucet, call: FaucetCall): Faucet {
    ApplyFaucet(f, call).GetOr(f)
  }

  function RunFaucet(f: Faucet, calls: seq<FaucetCall>): Faucet
    decreases calls
  {
    if calls == [] then f else RunFaucet(StepFaucet(f, calls[0]), calls[1..])
  }

  /** What the owner mints in one call. */
  function MintedBy(f: Faucet, call: FaucetCall): nat {
    if call.Inherited? && call.call.op.Mint? && ApplyFaucet(f, call).Ok? then call.call.op.amount else 0
  }

  function MintedOver(f: Faucet, calls: seq<FaucetCall>): nat
    decreases calls
  {
    if calls == [] then 0 else MintedBy(f, calls[0]) + MintedOver(StepFaucet(f, calls[0]), calls[1..])
  }

  lemma StepSupply(f: Faucet, call: FaucetCall)
    requires f.token.Backed()
    ensures var f' := StepFaucet(f, call);
      && f'.token.Backed()
      && f.claimed <= f'.claimed
      && f'.token.totalSupply == f.token.totalSupply + MintedBy(f, call) + FAUCET_AMOUNT * (|f'.claimed| - |f.claimed|)
  {
    match call
    case Inherited(c) =>
      ApplyKeepsBacked(f.token, c.caller, c.op);
      if c.op.Mint? {
        IssueIsExact(f.token, c.op.recipient, c.op.amount);
      }
    case Claim(caller) =>
      IssueIsExact(f.token, caller, FAUCET_AMOUNT);
  }

  /** Over every run the supply is what it was, plus what the owner minted, plus one
      allocation for each address that claimed during the run. */
  lemma {:induction false} SupplyAccounting(f: Faucet, calls: seq<FaucetCall>)
    requires f.token.Backed()
    ensures var f' := RunFaucet(f, calls);
      && f'.token.Backed()
      && f.claimed <= f'.claimed
      && f'.token.totalSupply == f.token.totalSupply + MintedOver(f, calls) + FAUCET_AMOUNT * (|f'.claimed| - |f.claimed|)
    decreases calls
  {
    if calls != [] {
      StepSupply(f, calls[0]);
      SupplyAccounting(StepFaucet(f, calls[0]), calls[1..]);
    }
  }

  /** A claim goes through for an address that has not claimed, short of overflow, and gives
      a thousand tokens of six decimals to that address alone. */
  lemma ClaimIsExact(f: Faucet, caller: Address)
    requires f.token.Backed()
    ensures ApplyFaucet(f, Claim(caller)).Ok? <==>
            caller !in f.claimed && caller != ZERO_ADDRESS && f.token.totalSupply + 1_000 * 1_000_000 <= MAX_UINT256
    ensures match ApplyFaucet(f, Claim(caller))
            case Revert(e) =>
              e == (if caller in f.claimed then AlreadyClaimed else if caller == ZERO_ADDRESS then ZeroAddress else Overflow)
            case Ok(f') =>
              && f'.claimed == f.claimed + {caller}
              && f'.token.totalSupply == f.token.totalSupply + 1_000 * 1_000_000
              && f'.token.owner == f.token.owner && f'.token.allowances == f.token.allowances
              && forall a: Address :: f'.token.Balance(a) == f.token.Balance(a) + if a == caller then 1_000 * 1_000_000 else 0
  {
    IssueIsExact(f.token, caller, FAUCET_AMOUNT);
  }

  /** An address that has claimed gets nothing from claiming again, whatever happened since. */
  lemma ClaimsOnce(f: Faucet, calls: seq<FaucetCall>, caller: Address)
    requires f.token.Backed() && caller in f.claimed
    ensures ApplyFaucet(RunFaucet(f, calls), Claim(caller)) == Revert(AlreadyClaimed)
  {
    SupplyAccounting(f, calls);
  }

  /** Apart from claims the faucet is the token: it performs the same calls in the same way. */
  lemma {:induction false} WithoutClaims(f: Faucet, calls: seq<Call>)
    ensures RunFaucet(f, Inheriting(calls)) == f.(token := Run(f.token, calls))
    decreases calls
  {
    if calls != [] {
      assert Inheriting(calls)[1..] == Inheriting(calls[1..]);
      WithoutClaims(StepFaucet(f, Inherited(calls[0])), calls[1..]);
    }
  }

  function Inheriting(calls: seq<Call>): seq<FaucetCall> {
    if calls == [] then [] else [Inherited(calls[0])] + Inheriting(calls[1..])
  }

  lemma OnlyAClaimAdds(f: Faucet, call: FaucetCall)
    requires f.token.Backed() && (call.Inherited? ==> call.call.caller != f.token.owner)
    ensures var f' := StepFaucet(f, call);
      && f'.token.Backed() && f'.token.owner == f.token.owner
      && f'.token.totalSupply == f.token.totalSupply + 1_000 * 1_000_000 * (|f'.claimed| - |f.claimed|)
  {
    StepSupply(f, call);
    match call
    case Inherited(c) =>
      OwnershipIsExact(f.token, c.caller, c.op);
      if c.op.Mint? {
        MintIsExact(f.token, c.caller, c.op.recipient, c.op.amount);
      }
    case Claim(caller) =>
      ClaimIsExact(f, caller);
  }

  /** While the owner does not act, only claims add to the supply. */
  lemma {:induction false} OnlyClaimsAdd(f: Faucet, calls: seq<FaucetCall>)
    requires f.token.Backed()
    requires forall call :: call in calls && call.Inherited? ==> call.call.caller != f.token.owner
    ensures var f' := RunFaucet(f, calls);
      && f'.token.owner == f.token.owner
      && f'.token.totalSupply == f.token.totalSupply + 1_000 * 1_000_000 * (|f'.claimed| - |f.claimed|)
    decreases calls
  {
    if calls != [] {
      assert calls[0] in calls;
      OnlyAClaimAdds(f, calls[0]);
      OnlyClaimsAdd(StepFaucet(f, calls[0]), calls[1..]);
    }
  }

  lemma ClaimKeepsTold(f: Faucet, caller: Address)
    requires f.token.Backed() && Told(f.token) && ApplyFaucet(f, Claim(caller)).Ok?
    ensures Told(ApplyFaucet(f, Claim(caller)).value.token)
    ensures ApplyFaucet(f, Claim(caller)).value.token.logs ==
            f.token.logs + [Transferred(ZERO_ADDRESS, caller, FAUCET_AMOUNT)] + [FaucetClaimed(caller, FAUCET_AMOUNT)]
  {
    IssueKeepsTold(f.token, caller, FAUCET_AMOUNT);
    var l, event := Issue(f.token, caller, FAUCET_AMOUNT).value, FaucetClaimed(caller, FAUCET_AMOUNT);
    BalancesStayTold(l, l.Log(event), event);
    AllowancesStayTold(l, l.Log(event), event);
    NetOfMore(l.logs, event, ZERO_ADDRESS);
  }

  /** The addresses that the log says have claimed. */
  function LoggedClaims(logs: seq<TokenEvent>): set<Address> {
    if logs == [] then {}
    else
      var last := logs[|logs| - 1];
      LoggedClaims(logs[..|logs| - 1]) + if last.FaucetClaimed? then {last.recipient} else {}
  }

  lemma ClaimsOfMore(logs: seq<TokenEvent>, event: TokenEvent)
    ensures LoggedClaims(logs + [event]) == LoggedClaims(logs) + if event.FaucetClaimed? then {event.recipient} else {}
  {
    assert (logs + [event])[..|logs|] == logs;
  }

  /** A call of the token logs at most two events, and none of them a claim. */
  lemma TokenLogsNoClaim(l: Ledger, caller: Address, op: Op)
    requires Apply(l, caller, op).Ok?
    ensures LoggedClaims(Apply(l, caller, op).value.logs) == LoggedClaims(l.logs)
  {
    var logs := Apply(l, caller, op).value.logs;
    if op.TransferFrom? && l.Allowance(op.sender, caller) != MAX_UINT256 {
      ClaimsOfMore(l.logs, logs[|l.logs|]);
      ClaimsOfMore(l.logs + [logs[|l.logs|]], logs[|l.logs| + 1]);
      assert logs == l.logs + [logs[|l.logs|]] + [logs[|l.logs| + 1]];
    } else {
      ClaimsOfMore(l.logs, logs[|l.logs|]);
    }
  }

  lemma ClaimIsLogged(logs: seq<TokenEvent>, caller: Address)
    ensures LoggedClaims(logs + [Transferred(ZERO_ADDRESS, caller, FAUCET_AMOUNT)] + [FaucetClaimed(caller, FAUCET_AMOUNT)]) ==
            LoggedClaims(logs) + {caller}
  {
    var issued := Transferred(ZERO_ADDRESS, caller, FAUCET_AMOUNT);
    ClaimsOfMore(logs, issued);
    ClaimsOfMore(logs + [issued], FaucetClaimed(caller, FAUCET_AMOUNT));
  }

  lemma StepKeepsTold(f: Faucet, call: FaucetCall)
    requires f.token.Backed() && Told(f.token) && f.claimed == LoggedClaims(f.token.logs)
    ensures var f' := StepFaucet(f, call); Told(f'.token) && f'.claimed == LoggedClaims(f'.token.logs)
  {
    if ApplyFaucet(f, call).Ok? {
      match call
      case Inherited(c) =>
        ApplyKeepsTold(f.token, c.caller, c.op);
        TokenLogsNoClaim(f.token, c.caller, c.op);
      case Claim(caller) =>
        ClaimKeepsTold(f, caller);
        ClaimIsLogged(f.token.logs, caller);
    }
  }

  /** The payment token's events tell all of its state too, who has claimed included. */
  lemma {:induction false} FaucetIsTold(f: Faucet, calls: seq<FaucetCall>)
    requires f.token.Backed() && Told(f.token) && f.claimed == LoggedClaims(f.token.logs)
    ensures var f' := RunFaucet(f, calls); Told(f'.token) && f'.claimed == LoggedClaims(f'.token.logs)
    decreases calls
  {
    if calls != [] {
      StepSupply(f, calls[0]);
      StepKeepsTold(f, calls[0]);
      FaucetIsTold(StepFaucet(f, calls[0]), calls[1..]);
    }
  }

  lemma DeployedFaucetIsTold(deployer: Address, calls: seq<FaucetCall>)
    ensures var f := RunFaucet(Faucet(Deployed(deployer), {}), calls); Told(f.token) && f.claimed == LoggedClaims(f.token.logs)
  {
    DeployedIsTold(deployer, []);
    assert Deployed(deployer).logs[..0] == [];
    FaucetIsTold(Faucet(Deployed(deployer), {}), calls);
  }

  class DemoPaymentToken {
    const token: DemoToken
    var claimed: set<Address>

    function State(): Faucet
      reads this, token
    {
      Faucet(token.State(), claimed)
    }

    constructor (msgSender: Address)
      ensures fresh(token)
      ensures State() == Faucet(Deployed(msgSender), {})
    {
      token := new DemoToken(msgSender);
      claimed := {};
    }

    method Claim(msgSender: Address) returns (r: Outcome<()>)
      modifies this, token
      ensures match ApplyFaucet(old(State()), FaucetCall.Claim(msgSender))
              case Ok(f') => r == Ok(()) && State() == f'
              case Revert(e) => r == Revert(e) && State() == old(State())
    {
      if msgSender in claimed {
        return Revert(AlreadyClaimed);
      }
      var checkpoint := State();
      claimed := claimed + {msgSender};
      r := token.MintBalance(msgSender, FAUCET_AMOUNT);
      if r.Revert? {
        claimed := checkpoint.claimed;
        token.Restore(checkpoint.token);
      } else {
        token.Emit(FaucetClaimed(msgSender, FAUCET_AMOUNT));
      }
    }
  }
}
