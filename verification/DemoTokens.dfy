/** The ERC-20 ledger of `DemoToken`, with the faucet of `DemoPaymentToken` on top. */
module DemoTokens {
  import opened Evm
  import opened MapSums

  datatype TokenEvent =
    | Approval(holder: Address, spender: Address, amount: uint256)
    | Transferred(sender: Address, recipient: Address, amount: uint256)
    | OwnershipTransferred(previousOwner: Address, newOwner: Address)
    | FaucetClaimed(recipient: Address, amount: uint256)

  /** A token's storage, and what it has logged: a revert undoes both. An address without an
      entry holds, or is allowed, nothing. */
  datatype Ledger = Ledger(
    balances: map<Address, uint256>,
    allowances: map<(Address, Address), uint256>,
    totalSupply: uint256,
    owner: Address,
    logs: seq<TokenEvent>)
  {
    function Log(event: TokenEvent): Ledger {
      this.(logs := logs + [event])
    }

    function Balance(account: Address): uint256 {
      if account in balances then balances[account] else 0
    }

    function Allowance(holder: Address, spender: Address): uint256 {
      if (holder, spender) in allowances then allowances[(holder, spender)] else 0
    }

    /** The balances add up to the supply. */
    ghost predicate Backed() {
      Sum(balances) == totalSupply
    }
  }

  datatype Op =
    | Approve(spender: Address, amount: uint256)
    | Transfer(recipient: Address, amount: uint256)
    | TransferFrom(sender: Address, recipient: Address, amount: uint256)
    | Mint(recipient: Address, amount: uint256)
    | TransferOwnership(newOwner: Address)

  datatype Call = Call(caller: Address, op: Op)

  function Move(l: Ledger, sender: Address, recipient: Address, amount: uint256): Outcome<Ledger> {
    if recipient == ZERO_ADDRESS then Revert(ZeroAddress)
    else if l.Balance(sender) < amount then Revert(InsufficientBalance)
    else
      var debited := l.(balances := l.balances[sender := UncheckedSub(l.Balance(sender), amount)]);
      var credit :- CheckedAdd(debited.Balance(recipient), amount);
      Ok(debited.(balances := debited.balances[recipient := credit]).Log(Transferred(sender, recipient, amount)))
  }

  function Issue(l: Ledger, recipient: Address, amount: uint256): Outcome<Ledger> {
    if recipient == ZERO_ADDRESS then Revert(ZeroAddress)
    else
      var supply :- CheckedAdd(l.totalSupply, amount);
      var credit :- CheckedAdd(l.Balance(recipient), amount);
      Ok(l.(totalSupply := supply, balances := l.balances[recipient := credit])
         .Log(Transferred(ZERO_ADDRESS, recipient, amount)))
  }

  function Spent(l: Ledger, holder: Address, spender: Address, amount: uint256): Ledger {
    var left := UncheckedSub(l.Allowance(holder, spender), amount);
    l.(allowances := l.allowances[(holder, spender) := left]).Log(Approval(holder, spender, left))
  }

  /** What one call does to the ledger. */
  function Apply(l: Ledger, caller: Address, op: Op): Outcome<Ledger> {
    match op
    case Approve(spender, amount) =>
      Ok(l.(allowances := l.allowances[(caller, spender) := amount]).Log(Approval(caller, spender, amount)))
    case Transfer(recipient, amount) =>
      Move(l, caller, recipient, amount)
    case TransferFrom(sender, recipient, amount) =>
      var permitted := l.Allowance(sender, caller);
      if permitted == MAX_UINT256 then Move(l, sender, recipient, amount)
      else if permitted < amount then Revert(InsufficientAllowance)
      else
        Move(Spent(l, sender, caller, amount), sender, recipient, amount)
    case Mint(recipient, amount) =>
      if caller != l.owner then Revert(Unauthorized) else Issue(l, recipient, amount)
    case TransferOwnership(newOwner) =>
      if caller != l.owner then Revert(Unauthorized)
      else if newOwner == ZERO_ADDRESS then Revert(ZeroAddress)
      else Ok(l.(owner := newOwner).Log(OwnershipTransferred(l.owner, newOwner)))
  }

  function Step(l: Ledger, call: Call): Ledger {
    Apply(l, call.caller, call.op).GetOr(l)
  }

  function Run(l: Ledger, calls: seq<Call>): Ledger
    decreases calls
  {
    if calls == [] then l else Run(Step(l, calls[0]), calls[1..])
  }

  /** What a deployed token starts from. */
  function Deployed(deployer: Address): Ledger {
    Ledger(map[], map[], 0, deployer, [OwnershipTransferred(ZERO_ADDRESS, deployer)])
  }

  // Transfers and mints

  /** What a movement of `amount` adds to an account; a self-transfer adds nothing. */
  function Delta(account: Address, sender: Address, recipient: Address, amount: nat): int {
    (if account == recipient then amount else 0) - (if account == sender then amount else 0)
  }

  /** `after` is `before` with exactly `amount` moved, allowances aside. */
  ghost predicate Moved(before: Ledger, after: Ledger, sender: Address, recipient: Address, amount: nat) {
    && (forall a: Address :: after.Balance(a) == before.Balance(a) + Delta(a, sender, recipient, amount))
    && after.totalSupply == before.totalSupply
    && after.owner == before.owner
  }

  /** In a backed ledger a transfer fails for its two stated reasons only, so the debit
      never wraps and the credit never overflows; otherwise it moves exactly `amount`. */
  lemma MoveIsExact(l: Ledger, sender: Address, recipient: Address, amount: uint256)
    requires l.Backed()
    ensures Move(l, sender, recipient, amount).Revert? <==>
            recipient == ZERO_ADDRESS || l.Balance(sender) < amount
    ensures match Move(l, sender, recipient, amount)
            case Revert(e) => e == if recipient == ZERO_ADDRESS then ZeroAddress else InsufficientBalance
            case Ok(l') => l'.Backed() && Moved(l, l', sender, recipient, amount) && l'.allowances == l.allowances
  {
    if recipient != ZERO_ADDRESS && l.Balance(sender) >= amount {
      var debit := l.Balance(sender) - amount;
      var debited := l.balances[sender := debit];
      assert UncheckedSub(l.Balance(sender), amount) == debit;
      SumUpdate(l.balances, sender, debit);
      SumAtLeast(debited, recipient);
      SumUpdate(debited, recipient, Get(debited, recipient) + amount);
    }
  }

  /** A mint fails only when the supply itself would overflow. */
  lemma IssueIsExact(l: Ledger, recipient: Address, amount: uint256)
    requires l.Backed()
    ensures Issue(l, recipient, amount).Revert? <==>
            recipient == ZERO_ADDRESS || l.totalSupply + amount > MAX_UINT256
    ensures match Issue(l, recipient, amount)
            case Revert(_) => true
            case Ok(l') =>
              && l'.Backed()
              && l'.totalSupply == l.totalSupply + amount
              && l'.owner == l.owner && l'.allowances == l.allowances
              && forall a: Address :: l'.Balance(a) == l.Balance(a) + if a == recipient then amount else 0
  {
    SumAtLeast(l.balances, recipient);
    if l.Balance(recipient) + amount <= MAX_UINT256 {
      SumUpdate(l.balances, recipient, l.Balance(recipient) + amount);
    }
  }

  lemma ApplyKeepsBacked(l: Ledger, caller: Address, op: Op)
    requires l.Backed()
    ensures match Apply(l, caller, op)
            case Revert(_) => true
            case Ok(l') => l'.Backed() && (op.Mint? || l'.totalSupply == l.totalSupply)
  {
    match op
    case Approve(_, _) =>
    case Transfer(recipient, amount) =>
      MoveIsExact(l, caller, recipient, amount);
    case TransferFrom(sender, recipient, amount) =>
      MoveIsExact(l, sender, recipient, amount);
      var permitted := l.Allowance(sender, caller);
      if permitted != MAX_UINT256 && permitted >= amount {
        MoveIsExact(Spent(l, sender, caller, amount), sender, recipient, amount);
      }
    case Mint(recipient, amount) =>
      IssueIsExact(l, recipient, amount);
    case TransferOwnership(_) =>
  }

  /** In every reachable state of a token the balances add up to the supply. */
  lemma {:induction false} ReachableIsBacked(l: Ledger, calls: seq<Call>)
    requires l.Backed()
    ensures Run(l, calls).Backed()
    decreases calls
  {
    if calls != [] {
      ApplyKeepsBacked(l, calls[0].caller, calls[0].op);
      ReachableIsBacked(Step(l, calls[0]), calls[1..]);
    }
  }

  lemma DeployedIsBacked(deployer: Address, calls: seq<Call>)
    ensures Run(Deployed(deployer), calls).Backed()
  {
    ReachableIsBacked(Deployed(deployer), calls);
  }

  // Allowances

  ghost predicate Reapproves(call: Call, holder: Address, spender: Address) {
    call.caller == holder && call.op.Approve? && call.op.spender == spender
  }

  /** How much of the holder's balance the call moves on the spender's authority. */
  function SpentBy(l: Ledger, call: Call, holder: Address, spender: Address): nat {
    if call.caller == spender && call.op.TransferFrom? && call.op.sender == holder
       && Apply(l, call.caller, call.op).Ok?
    then call.op.amount else 0
  }

  function SpentOver(l: Ledger, calls: seq<Call>, holder: Address, spender: Address): nat
    decreases calls
  {
    if calls == [] then 0
    else SpentBy(l, calls[0], holder, spender) + SpentOver(Step(l, calls[0]), calls[1..], holder, spender)
  }

  /** An approval sets one allowance and touches nothing else. */
  lemma ApproveIsExact(l: Ledger, holder: Address, spender: Address, amount: uint256)
    ensures Apply(l, holder, Approve(spender, amount)).Ok?
    ensures var l' := Apply(l, holder, Approve(spender, amount)).value;
      && l' == l.(allowances := l'.allowances, logs := l'.logs)
      && forall h: Address, s: Address ::
           l'.Allowance(h, s) == if h == holder && s == spender then amount else l.Allowance(h, s)
  {
  }

  lemma StepSpendsAllowance(l: Ledger, call: Call, holder: Address, spender: Address)
    requires !Reapproves(call, holder, spender)
    ensures Step(l, call).Allowance(holder, spender) ==
            if l.Allowance(holder, spender) == MAX_UINT256 then MAX_UINT256
            else l.Allowance(holder, spender) - SpentBy(l, call, holder, spender)
  {
    if call.op.TransferFrom? && Apply(l, call.caller, call.op).Ok? {
      var op := call.op;
      var l' := if l.Allowance(op.sender, call.caller) == MAX_UINT256 then l else Spent(l, op.sender, call.caller, op.amount);
      assert Step(l, call).allowances == l'.allowances;
    }
  }

  /** Until the holder approves again, a finite allowance plus everything moved under it
      is what was approved, and the maximal allowance is never reduced. */
  lemma {:induction false} AllowanceAccounting(l: Ledger, calls: seq<Call>, holder: Address, spender: Address)
    requires forall call :: call in calls ==> !Reapproves(call, holder, spender)
    ensures Run(l, calls).Allowance(holder, spender) ==
            if l.Allowance(holder, spender) == MAX_UINT256 then MAX_UINT256
            else l.Allowance(holder, spender) - SpentOver(l, calls, holder, spender)
    decreases calls
  {
    if calls != [] {
      StepSpendsAllowance(l, calls[0], holder, spender);
      AllowanceAccounting(Step(l, calls[0]), calls[1..], holder, spender);
    }
  }

  /** Of all allowances only the spender's own is used, and only when it is finite. */
  ghost predicate AllowanceUsed(l: Ledger, l': Ledger, holder: Address, spender: Address, amount: nat) {
    forall h: Address, s: Address ::
      l'.Allowance(h, s) ==
      l.Allowance(h, s) - if h == holder && s == spender && l.Allowance(h, s) != MAX_UINT256 then amount else 0
  }

  /** When `transferFrom` goes through, why it reverts otherwise, and what it moves. */
  lemma TransferFromIsExact(l: Ledger, caller: Address, sender: Address, recipient: Address, amount: uint256)
    requires l.Backed()
    ensures Apply(l, caller, TransferFrom(sender, recipient, amount)).Ok? <==>
            recipient != ZERO_ADDRESS && amount <= l.Balance(sender) && amount <= l.Allowance(sender, caller)
    ensures match Apply(l, caller, TransferFrom(sender, recipient, amount))
            case Revert(e) =>
              e == (if l.Allowance(sender, caller) < amount then InsufficientAllowance
                    else if recipient == ZERO_ADDRESS then ZeroAddress else InsufficientBalance)
            case Ok(l') => l'.Backed() && Moved(l, l', sender, recipient, amount) && AllowanceUsed(l, l', sender, caller, amount)
  {
    MoveIsExact(l, sender, recipient, amount);
    if l.Allowance(sender, caller) != MAX_UINT256 && l.Allowance(sender, caller) >= amount {
      MoveIsExact(Spent(l, sender, caller, amount), sender, recipient, amount);
    }
  }

  /** The same for `transfer`, which uses no allowance. */
  lemma TransferIsExact(l: Ledger, caller: Address, recipient: Address, amount: uint256)
    requires l.Backed()
    ensures Apply(l, caller, Transfer(recipient, amount)).Ok? <==>
            recipient != ZERO_ADDRESS && amount <= l.Balance(caller)
    ensures match Apply(l, caller, Transfer(recipient, amount))
            case Revert(e) => e == if recipient == ZERO_ADDRESS then ZeroAddress else InsufficientBalance
            case Ok(l') => l'.Backed() && Moved(l, l', caller, recipient, amount) && l'.allowances == l.allowances
  {
    MoveIsExact(l, caller, recipient, amount);
  }

  // What the owner alone can do

  /** A mint goes through for the owner only, short of a supply overflow. */
  lemma MintIsExact(l: Ledger, caller: Address, recipient: Address, amount: uint256)
    requires l.Backed()
    ensures Apply(l, caller, Mint(recipient, amount)).Ok? <==>
            caller == l.owner && recipient != ZERO_ADDRESS && l.totalSupply + amount <= MAX_UINT256
    ensures match Apply(l, caller, Mint(recipient, amount))
            case Revert(e) =>
              e == (if caller != l.owner then Unauthorized else if recipient == ZERO_ADDRESS then ZeroAddress else Overflow)
            case Ok(l') =>
              && l'.totalSupply == l.totalSupply + amount
              && l'.owner == l.owner && l'.allowances == l.allowances
              && forall a: Address :: l'.Balance(a) == l.Balance(a) + if a == recipient then amount else 0
  {
    IssueIsExact(l, recipient, amount);
  }

  /** Ownership changes hands by the owner's own call only, and never to the zero address. */
  lemma OwnershipIsExact(l: Ledger, caller: Address, op: Op)
    ensures match Apply(l, caller, op)
            case Revert(e) =>
              op.TransferOwnership? ==>
                (caller != l.owner && e == Unauthorized) || (caller == l.owner && op.newOwner == ZERO_ADDRESS && e == ZeroAddress)
            case Ok(l') =>
              if op.TransferOwnership? then
                && caller == l.owner && op.newOwner != ZERO_ADDRESS && l'.owner == op.newOwner
                && l' == l.(owner := l'.owner, logs := l'.logs)
              else l'.owner == l.owner
  {
  }

  /** Whatever everybody else does, the supply and the owner stay. */
  lemma {:induction false} OnlyTheOwnerMints(l: Ledger, calls: seq<Call>)
    requires l.Backed() && forall call :: call in calls ==> call.caller != l.owner
    ensures Run(l, calls).totalSupply == l.totalSupply && Run(l, calls).owner == l.owner
    decreases calls
  {
    if calls != [] {
      var call := calls[0];
      ApplyKeepsBacked(l, call.caller, call.op);
      OwnershipIsExact(l, call.caller, call.op);
      if call.op.Mint? {
        MintIsExact(l, call.caller, call.op.recipient, call.op.amount);
      }
      OnlyTheOwnerMints(Step(l, call), calls[1..]);
    }
  }

  // What the log tells

  /** What an account received less what it sent. */
  function Net(logs: seq<TokenEvent>, account: Address): int {
    if logs == [] then 0
    else
      Net(logs[..|logs| - 1], account) +
      match logs[|logs| - 1]
      case Transferred(sender, recipient, amount) => Delta(account, sender, recipient, amount)
      case _ => 0
  }

  /** The amount last approved, or left over from it. */
  function LastApproval(logs: seq<TokenEvent>, holder: Address, spender: Address): nat {
    if logs == [] then 0
    else
      var last := logs[|logs| - 1];
      if last.Approval? && last.holder == holder && last.spender == spender then last.amount
      else LastApproval(logs[..|logs| - 1], holder, spender)
  }

  function LastOwner(logs: seq<TokenEvent>): Address {
    if logs == [] then ZERO_ADDRESS
    else
      var last := logs[|logs| - 1];
      if last.OwnershipTransferred? then last.newOwner else LastOwner(logs[..|logs| - 1])
  }

  ghost predicate BalancesTold(l: Ledger) {
    && (forall a: Address :: a != ZERO_ADDRESS ==> l.Balance(a) == Net(l.logs, a))
    && l.Balance(ZERO_ADDRESS) == 0 && l.totalSupply == -Net(l.logs, ZERO_ADDRESS)
  }

  ghost predicate AllowancesTold(l: Ledger) {
    forall h: Address, s: Address :: l.Allowance(h, s) == LastApproval(l.logs, h, s)
  }

  /** The log alone determines the ledger: mints are transfers from the zero address. */
  ghost predicate Told(l: Ledger) {
    BalancesTold(l) && AllowancesTold(l) && l.owner == LastOwner(l.logs)
  }

  lemma NetOfMore(logs: seq<TokenEvent>, event: TokenEvent, a: Address)
    ensures Net(logs + [event], a) ==
            Net(logs, a) + if event.Transferred? then Delta(a, event.sender, event.recipient, event.amount) else 0
    ensures LastOwner(logs + [event]) == if event.OwnershipTransferred? then event.newOwner else LastOwner(logs)
  {
    assert (logs + [event])[..|logs|] == logs;
  }

  lemma LastOfMore(logs: seq<TokenEvent>, event: TokenEvent, h: Address, s: Address)
    ensures LastApproval(logs + [event], h, s) ==
            if event.Approval? && event.holder == h && event.spender == s then event.amount else LastApproval(logs, h, s)
  {
    assert (logs + [event])[..|logs|] == logs;
  }

  /** A transfer, or a mint from the zero address, as its event tells it. */
  lemma TransferIsTold(l: Ledger, l': Ledger, sender: Address, recipient: Address, amount: uint256, event: TokenEvent)
    requires BalancesTold(l) && recipient != ZERO_ADDRESS
    requires event == Transferred(sender, recipient, amount) && l'.logs == l.logs + [event]
    requires forall a: Address :: a != ZERO_ADDRESS ==> l'.Balance(a) == l.Balance(a) + Delta(a, sender, recipient, amount)
    requires l'.Balance(ZERO_ADDRESS) == 0
    requires l'.totalSupply == l.totalSupply + if sender == ZERO_ADDRESS then amount else 0
    ensures BalancesTold(l')
  {
    forall a: Address | a != ZERO_ADDRESS ensures l'.Balance(a) == Net(l'.logs, a) {
      NetOfMore(l.logs, event, a);
    }
    NetOfMore(l.logs, event, ZERO_ADDRESS);
  }

  /** An event that is no transfer tells nothing about balances. */
  lemma BalancesStayTold(l: Ledger, l': Ledger, event: TokenEvent)
    requires BalancesTold(l) && !event.Transferred? && l'.logs == l.logs + [event]
    requires l'.balances == l.balances && l'.totalSupply == l.totalSupply
    ensures BalancesTold(l')
  {
    forall a: Address ensures Net(l'.logs, a) == Net(l.logs, a) && l'.Balance(a) == l.Balance(a) {
      NetOfMore(l.logs, event, a);
    }
  }

  lemma AllowancesStayTold(l: Ledger, l': Ledger, event: TokenEvent)
    requires AllowancesTold(l) && l'.logs == l.logs + [event]
    requires forall h: Address, s: Address ::
               l'.Allowance(h, s) ==
               if event.Approval? && event.holder == h && event.spender == s then event.amount else l.Allowance(h, s)
    ensures AllowancesTold(l')
  {
    forall h: Address, s: Address ensures l'.Allowance(h, s) == LastApproval(l'.logs, h, s) {
      LastOfMore(l.logs, event, h, s);
    }
  }

  lemma MoveKeepsTold(l: Ledger, sender: Address, recipient: Address, amount: uint256)
    requires l.Backed() && Told(l) && Move(l, sender, recipient, amount).Ok?
    ensures Told(Move(l, sender, recipient, amount).value)
  {
    MoveIsExact(l, sender, recipient, amount);
    var l', event := Move(l, sender, recipient, amount).value, Transferred(sender, recipient, amount);
    TransferIsTold(l, l', sender, recipient, amount, event);
    AllowancesStayTold(l, l', event);
    NetOfMore(l.logs, event, ZERO_ADDRESS);
  }

  lemma IssueKeepsTold(l: Ledger, recipient: Address, amount: uint256)
    requires l.Backed() && Told(l) && Issue(l, recipient, amount).Ok?
    ensures Told(Issue(l, recipient, amount).value)
  {
    IssueIsExact(l, recipient, amount);
    var l', event := Issue(l, recipient, amount).value, Transferred(ZERO_ADDRESS, recipient, amount);
    TransferIsTold(l, l', ZERO_ADDRESS, recipient, amount, event);
    AllowancesStayTold(l, l', event);
    NetOfMore(l.logs, event, ZERO_ADDRESS);
  }

  /** An approval, by the holder or left over from a transfer. */
  lemma ApprovalKeepsTold(l: Ledger, holder: Address, spender: Address, amount: uint256)
    requires Told(l)
    ensures Told(l.(allowances := l.allowances[(holder, spender) := amount]).Log(Approval(holder, spender, amount)))
  {
    var event := Approval(holder, spender, amount);
    var l' := l.(allowances := l.allowances[(holder, spender) := amount]).Log(event);
    BalancesStayTold(l, l', event);
    AllowancesStayTold(l, l', event);
    NetOfMore(l.logs, event, ZERO_ADDRESS);
  }

  lemma HandoverKeepsTold(l: Ledger, newOwner: Address)
    requires Told(l)
    ensures Told(l.(owner := newOwner).Log(OwnershipTransferred(l.owner, newOwner)))
  {
    var event := OwnershipTransferred(l.owner, newOwner);
    var l' := l.(owner := newOwner).Log(event);
    BalancesStayTold(l, l', event);
    AllowancesStayTold(l, l', event);
    NetOfMore(l.logs, event, ZERO_ADDRESS);
  }

  lemma ApplyKeepsTold(l: Ledger, caller: Address, op: Op)
    requires l.Backed() && Told(l) && Apply(l, caller, op).Ok?
    ensures Told(Apply(l, caller, op).value)
  {
    match op
    case Approve(spender, amount) =>
      ApprovalKeepsTold(l, caller, spender, amount);
    case Transfer(recipient, amount) =>
      MoveKeepsTold(l, caller, recipient, amount);
    case TransferFrom(sender, recipient, amount) =>
      if l.Allowance(sender, caller) == MAX_UINT256 {
        MoveKeepsTold(l, sender, recipient, amount);
      } else {
        ApprovalKeepsTold(l, sender, caller, UncheckedSub(l.Allowance(sender, caller), amount));
        MoveKeepsTold(Spent(l, sender, caller, amount), sender, recipient, amount);
      }
    case Mint(recipient, amount) =>
      IssueKeepsTold(l, recipient, amount);
    case TransferOwnership(newOwner) =>
      HandoverKeepsTold(l, newOwner);
  }

  lemma {:induction false} RunKeepsTold(l: Ledger, calls: seq<Call>)
    requires l.Backed() && Told(l)
    ensures Told(Run(l, calls))
    decreases calls
  {
    if calls != [] {
      ApplyKeepsBacked(l, calls[0].caller, calls[0].op);
      if Apply(l, calls[0].caller, calls[0].op).Ok? {
        ApplyKeepsTold(l, calls[0].caller, calls[0].op);
      }
      RunKeepsTold(Step(l, calls[0]), calls[1..]);
    }
  }

  /** Over every run from deployment the events alone tell every balance, allowance, the
      supply and the owner. */
  lemma DeployedIsTold(deployer: Address, calls: seq<Call>)
    ensures Told(Run(Deployed(deployer), calls))
  {
    var l := Deployed(deployer);
    assert l.logs[..0] == [];
    assert forall a: Address :: Net(l.logs, a) == 0;
    assert forall h: Address, s: Address :: LastApproval(l.logs, h, s) == 0;
    RunKeepsTold(l, calls);
  }

  // The contract

  /** The call's result and the contract's state after it are those `Apply` gives. */
  ghost predicate Performs<T>(before: Ledger, caller: Address, op: Op, r: Outcome<T>, value: T, after: Ledger) {
    match Apply(before, caller, op)
    case Ok(l') => r == Ok(value) && after == l'
    case Revert(e) => r == Revert(e) && after == before
  }

  class DemoToken {
    var totalSupply: uint256
    var owner: Address
    var balanceOf: map<Address, uint256>
    var allowance: map<(Address, Address), uint256>
    var logs: seq<TokenEvent>

    function State(): Ledger
      reads this
    {
      Ledger(balanceOf, allowance, totalSupply, owner, logs)
    }

    constructor (msgSender: Address)
      ensures State() == Deployed(msgSender)
      ensures totalSupply == 0 && owner == msgSender && balanceOf == map[] && allowance == map[]
    {
      totalSupply := 0;
      owner := msgSender;
      balanceOf := map[];
      allowance := map[];
      logs := [OwnershipTransferred(ZERO_ADDRESS, msgSender)];
    }

    /** The EVM's rollback of this contract's storage. */
    method Restore(checkpoint: Ledger)
      modifies this
      ensures State() == checkpoint
    {
      totalSupply := checkpoint.totalSupply;
      owner := checkpoint.owner;
      balanceOf := checkpoint.balances;
      allowance := checkpoint.allowances;
      logs := checkpoint.logs;
    }

    /** Logs an event of an inheriting contract. */
    method Emit(event: TokenEvent)
      modifies this
      ensures State() == old(State()).Log(event)
    {
      logs := logs + [event];
    }

    method Approve(msgSender: Address, spender: Address, amount: uint256) returns (r: Outcome<bool>)
      modifies this
      ensures Performs(old(State()), msgSender, Op.Approve(spender, amount), r, true, State())
    {
      allowance := allowance[(msgSender, spender) := amount];
      logs := logs + [Approval(msgSender, spender, amount)];
      return Ok(true);
    }

    method Transfer(msgSender: Address, recipient: Address, amount: uint256) returns (r: Outcome<bool>)
      modifies this
      ensures Performs(old(State()), msgSender, Op.Transfer(recipient, amount), r, true, State())
    {
      var checkpoint := State();
      var moved := MoveBalance(msgSender, recipient, amount);
      if moved.Revert? {
        Restore(checkpoint);
        return Revert(moved.error);
      }
      return Ok(true);
    }

    method TransferFrom(msgSender: Address, sender: Address, recipient: Address, amount: uint256)
      returns (r: Outcome<bool>)
      modifies this
      ensures Performs(old(State()), msgSender, Op.TransferFrom(sender, recipient, amount), r, true, State())
    {
      var checkpoint := State();
      var permitted := State().Allowance(sender, msgSender);
      if permitted != MAX_UINT256 {
        if permitted < amount {
          return Revert(InsufficientAllowance);
        }
        allowance := allowance[(sender, msgSender) := UncheckedSub(permitted, amount)];
        logs := logs + [Approval(sender, msgSender, allowance[(sender, msgSender)])];
      }
      var moved := MoveBalance(sender, recipient, amount);
      if moved.Revert? {
        Restore(checkpoint);
        return Revert(moved.error);
      }
      return Ok(true);
    }

    method Mint(msgSender: Address, recipient: Address, amount: uint256) returns (r: Outcome<()>)
      modifies this
      ensures Performs(old(State()), msgSender, Op.Mint(recipient, amount), r, (), State())
    {
      if msgSender != owner {
        return Revert(Unauthorized);
      }
      var checkpoint := State();
      r := MintBalance(recipient, amount);
      if r.Revert? {
        Restore(checkpoint);
      }
    }

    method TransferOwnership(msgSender: Address, newOwner: Address) returns (r: Outcome<()>)
      modifies this
      ensures Performs(old(State()), msgSender, Op.TransferOwnership(newOwner), r, (), State())
    {
      if msgSender != owner {
        return Revert(Unauthorized);
      }
      if newOwner == ZERO_ADDRESS {
        return Revert(ZeroAddress);
      }
      logs := logs + [TokenEvent.OwnershipTransferred(owner, newOwner)];
      owner := newOwner;
      return Ok(());
    }

    /** Internal: a revert may leave the debit behind, for the caller to roll back. */
    method MoveBalance(sender: Address, recipient: Address, amount: uint256) returns (r: Outcome<()>)
      modifies this
      ensures match Move(old(State()), sender, recipient, amount)
              case Ok(l') => r == Ok(()) && State() == l'
              case Revert(e) => r == Revert(e)
    {
      if recipient == ZERO_ADDRESS {
        return Revert(ZeroAddress);
      }
      var balance := State().Balance(sender);
      if balance < amount {
        return Revert(InsufficientBalance);
      }
      balanceOf := balanceOf[sender := UncheckedSub(balance, amount)];
      var credit :- CheckedAdd(State().Balance(recipient), amount);
      balanceOf := balanceOf[recipient := credit];
      logs := logs + [Transferred(sender, recipient, amount)];
      return Ok(());
    }

    /** Internal: a revert may leave the new supply behind, for the caller to roll back. */
    method MintBalance(recipient: Address, amount: uint256) returns (r: Outcome<()>)
      modifies this
      ensures match Issue(old(State()), recipient, amount)
              case Ok(l') => r == Ok(()) && State() == l'
              case Revert(e) => r == Revert(e)
    {
      if recipient == ZERO_ADDRESS {
        return Revert(ZeroAddress);
      }
      totalSupply :- CheckedAdd(totalSupply, amount);
      var credit :- CheckedAdd(State().Balance(recipient), amount);
      balanceOf := balanceOf[recipient := credit];
      logs := logs + [Transferred(ZERO_ADDRESS, recipient, amount)];
      return Ok(());
    }
  }
}
