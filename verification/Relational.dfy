/**
 The relational state behind the API and what each database function does to it. A table
 is the sequence of its rows in insertion order; each function is one transaction, which
 commits or leaves every table as it was.
 */
module Relational {
  import opened Options
  import opened Trimming

  type Id = nat

  datatype Method = BySearch | ByLens | ByLink

  datatype User = User(id: Id, email: Option<string>, passwordHash: Option<string>, wallet: Option<string>)
  datatype Identity = Identity(subject: string, user: Id)
  datatype Discovery = Discovery(id: Id, user: Option<Id>, company: Id, how: Method, source: string, explanation: string)

  /** Amounts are in units of the columns' last decimal place: 1e-6 and 1e-18. */
  datatype Purchase = Purchase(amountUsdc: int, tokenAmount: int)
  datatype Transaction = Transaction(
    id: Id, user: Id, company: Id, discovery: Option<Id>, asset: Id, txHash: string, purchase: Purchase, network: string)

  datatype Tables = Tables(
    users: seq<User>, identities: seq<Identity>, discoveries: seq<Discovery>, transactions: seq<Transaction>)

  datatype Company = Company(id: Id, slug: string, name: string, ticker: string)
  datatype Asset = Asset(id: Id, company: Id, symbol: string, network: string, environment: string, active: bool)

  /** What only migrations change, the database's case folding of emails, and the characters
      that trimming strips. */
  datatype Registry = Registry(
    companies: seq<Company>, assets: seq<Asset>, lower: string -> string, whitespace: char -> bool)

  datatype Result<+T, +E> = Ok(value: T) | Err(error: E)

  /** The answer to a created discovery. */
  datatype Found = Found(
    id: Id, companySlug: string, companyName: string, ticker: string, how: Method, source: string, explanation: string)

  datatype AuthUser = AuthUser(id: Id, email: string, wallet: Option<string>)

  /** `Database` stands for any failure that has no variant of its own. */
  datatype DbError =
    | EmailExists | AddressInUse | WalletMismatch | CompanyNotFound
    | DiscoveryMismatch | Duplicate | Database

  datatype Submission = Submission(wallet: string, companySlug: string, discovery: Option<Id>, txHash: string)

  /** The first row that satisfies a condition. */
  function Find<T>(rows: seq<T>, p: T -> bool): (r: Option<nat>)
    ensures match r
            case Some(i) => i < |rows| && p(rows[i]) && forall j :: 0 <= j < i ==> !p(rows[j])
            case None => forall j :: 0 <= j < |rows| ==> !p(rows[j])
  {
    if rows == [] then None
    else if p(rows[0]) then Some(0)
    else match Find(rows[1..], p) case None => None case Some(i) => Some(i + 1)
  }

  predicate Exists<T>(rows: seq<T>, p: T -> bool) {
    Find(rows, p).Some?
  }

  function UserById(t: Tables, id: Id): Option<nat> {
    Find(t.users, (u: User) => u.id == id)
  }

  function CompanyById(r: Registry, id: Id): Option<nat> {
    Find(r.companies, (c: Company) => c.id == id)
  }

  function UserByWallet(t: Tables, wallet: string): Option<nat> {
    Find(t.users, (u: User) => u.wallet == Some(wallet))
  }

  function UserByEmail(r: Registry, t: Tables, email: string): Option<nat> {
    Find(t.users, (u: User) => u.email.Some? && r.lower(u.email.value) == r.lower(email))
  }

  /** Decoding a row whose email is null fails. */
  function AsAuthUser(u: User): Result<AuthUser, DbError> {
    if u.email.None? then Err(Database) else Ok(AuthUser(u.id, u.email.value, u.wallet))
  }

  // The functions

  function GoogleUser(r: Registry, t: Tables, subject: string, email: string, newId: Id): (Result<AuthUser, DbError>, Tables)
  {
    match Find(t.identities, (i: Identity) => i.subject == subject)
    case Some(i) =>
      var found := UserById(t, t.identities[i].user);
      (if found.None? then Err(Database) else AsAuthUser(t.users[found.value]), t)
    case None =>
      if UserByEmail(r, t, email).Some? then (Err(EmailExists), t)
      else if UserById(t, newId).Some? then (Err(Database), t)
      else
        (Ok(AuthUser(newId, email, None)),
         t.(users := t.users + [User(newId, Some(email), None, None)],
            identities := t.identities + [Identity(subject, newId)]))
  }

  function RegisterEmailUser(r: Registry, t: Tables, email: string, passwordHash: string, newId: Id)
    : (Result<AuthUser, DbError>, Tables)
  {
    if UserById(t, newId).Some? then (Err(Database), t)
    else if UserByEmail(r, t, email).Some? then (Err(EmailExists), t)
    else
      (Ok(AuthUser(newId, email, None)), t.(users := t.users + [User(newId, Some(email), Some(passwordHash), None)]))
  }

  function BindWallet(t: Tables, user: Id, wallet: string): (Result<AuthUser, DbError>, Tables) {
    match UserById(t, user)
    case None => (Err(WalletMismatch), t)
    case Some(i) =>
      var row := t.users[i];
      if row.wallet.Some? && row.wallet.value != wallet then (Err(WalletMismatch), t)
      else
        var holder := UserByWallet(t, wallet);
        if holder.Some? && holder.value != i then (Err(AddressInUse), t)
        else
          var row' := row.(wallet := Some(wallet));
          (AsAuthUser(row'), t.(users := t.users[i := row']))
  }

  function CreateDiscovery(r: Registry, t: Tables, slug: string, how: Method, source: string, explanation: string, newId: Id)
    : (Result<Found, DbError>, Tables)
  {
    match Find(r.companies, (c: Company) => c.slug == slug)
    case None => (Err(CompanyNotFound), t)
    case Some(i) =>
      if Exists(t.discoveries, (d: Discovery) => d.id == newId) then (Err(Database), t)
      else
        var company, source, explanation := r.companies[i], Trim(r.whitespace, source), Trim(r.whitespace, explanation);
        (Ok(Found(newId, slug, company.name, company.ticker, how, source, explanation)),
         t.(discoveries := t.discoveries + [Discovery(newId, None, company.id, how, source, explanation)]))
  }

  /** The first active asset on Solana mainnet of a company with this slug. */
  function Instrument(r: Registry, slug: string): Option<Asset> {
    var asset :- Find(r.assets, (a: Asset) =>
      && a.active && a.network == "Solana" && a.environment == "mainnet"
      && Exists(r.companies, (c: Company) => c.id == a.company && c.slug == slug));
    Some(r.assets[asset])
  }

  /** The insert that returns the existing row on a conflict. */
  function UpsertWallet(t: Tables, wallet: string, newId: Id): Option<(Id, Tables)> {
    match UserByWallet(t, wallet)
    case Some(i) => Some((t.users[i].id, t))
    case None =>
      if UserById(t, newId).Some? then None
      else Some((newId, t.(users := t.users + [User(newId, None, None, Some(wallet))])))
  }

  function LinkDiscovery(t: Tables, discovery: Option<Id>, user: Id, company: Id): Option<Tables> {
    if discovery.None? then Some(t)
    else
      var i :- Find(t.discoveries, (d: Discovery) =>
        d.id == discovery.value && d.company == company && (d.user.None? || d.user == Some(user)));
      Some(t.(discoveries := t.discoveries[i := t.discoveries[i].(user := Some(user))]))
  }

  /** The columns are NUMERIC(30, 6) and NUMERIC(38, 18). */
  predicate FitsColumns(p: Purchase) {
    0 < p.amountUsdc < 1_000_000_000_000_000_000_000_000_000_000
    && 0 <= p.tokenAmount < 100_000_000_000_000_000_000_000_000_000_000_000_000
  }

  function InsertTransaction(t: Tables, row: Transaction): Result<Tables, DbError> {
    if !FitsColumns(row.purchase) || Exists(t.transactions, (x: Transaction) => x.id == row.id) then Err(Database)
    else if Exists(t.transactions, (x: Transaction) => x.txHash == row.txHash) then Err(Duplicate)
    else Ok(t.(transactions := t.transactions + [row]))
  }

  function RecordTransaction(r: Registry, t: Tables, input: Submission, purchase: Purchase, newUser: Id, newId: Id)
    : (Result<Id, DbError>, Tables)
  {
    match Instrument(r, input.companySlug)
    case None => (Err(Database), t)
    case Some(asset) =>
      match UpsertWallet(t, input.wallet, newUser)
      case None => (Err(Database), t)
      case Some((user, t1)) =>
        match LinkDiscovery(t1, input.discovery, user, asset.company)
        case None => (Err(DiscoveryMismatch), t)
        case Some(t2) =>
          match InsertTransaction(t2, Transaction(newId, user, asset.company, input.discovery, asset.id, input.txHash, purchase, asset.network))
          case Err(e) => (Err(e), t)
          case Ok(t3) => (Ok(newId), t3)
  }

  // Runs

  datatype Request =
    | Google(subject: string, email: string, newId: Id)
    | Register(email: string, passwordHash: string, newId: Id)
    | Bind(user: Id, wallet: string)
    | Discover(slug: string, how: Method, source: string, explanation: string, newId: Id)
    | Record(input: Submission, purchase: Purchase, newUser: Id, newId: Id)

  function Step(r: Registry, t: Tables, q: Request): Tables {
    match q
    case Google(subject, email, newId) => GoogleUser(r, t, subject, email, newId).1
    case Register(email, passwordHash, newId) => RegisterEmailUser(r, t, email, passwordHash, newId).1
    case Bind(user, wallet) => BindWallet(t, user, wallet).1
    case Discover(slug, how, source, explanation, newId) => CreateDiscovery(r, t, slug, how, source, explanation, newId).1
    case Record(input, purchase, newUser, newId) => RecordTransaction(r, t, input, purchase, newUser, newId).1
  }

  predicate Rejected(r: Registry, t: Tables, q: Request) {
    match q
    case Google(subject, email, newId) => GoogleUser(r, t, subject, email, newId).0.Err?
    case Register(email, passwordHash, newId) => RegisterEmailUser(r, t, email, passwordHash, newId).0.Err?
    case Bind(user, wallet) => BindWallet(t, user, wallet).0.Err?
    case Discover(slug, how, source, explanation, newId) => CreateDiscovery(r, t, slug, how, source, explanation, newId).0.Err?
    case Record(input, purchase, newUser, newId) => RecordTransaction(r, t, input, purchase, newUser, newId).0.Err?
  }

  function Run(r: Registry, t: Tables, requests: seq<Request>): Tables
    decreases requests
  {
    if requests == [] then t else Run(r, Step(r, t, requests[0]), requests[1..])
  }

  // What always holds

  ghost predicate UsersSound(r: Registry, users: seq<User>) {
    && (forall i, j :: 0 <= i < j < |users| ==> users[i].id != users[j].id)
    && (forall i, j :: 0 <= i < j < |users| && users[i].wallet.Some? ==> users[i].wallet != users[j].wallet)
    && (forall i, j :: 0 <= i < j < |users| && users[i].email.Some? && users[j].email.Some? ==>
          r.lower(users[i].email.value) != r.lower(users[j].email.value))
    && (forall i :: 0 <= i < |users| ==> users[i].wallet.Some? || users[i].email.Some?)
    && (forall i :: 0 <= i < |users| && users[i].passwordHash.Some? ==> users[i].email.Some?)
  }

  ghost predicate IsUser(users: seq<User>, id: Id) {
    exists i :: 0 <= i < |users| && users[i].id == id
  }

  ghost predicate IsAccount(users: seq<User>, id: Id) {
    exists i :: 0 <= i < |users| && users[i].id == id && users[i].email.Some?
  }

  ghost predicate IdentitiesSound(users: seq<User>, identities: seq<Identity>) {
    && (forall i, j :: 0 <= i < j < |identities| ==>
          identities[i].subject != identities[j].subject && identities[i].user != identities[j].user)
    && (forall i :: 0 <= i < |identities| ==> IsAccount(users, identities[i].user))
  }

  predicate IsCompany(r: Registry, id: Id) {
    CompanyById(r, id).Some?
  }

  ghost predicate DiscoveriesSound(r: Registry, users: seq<User>, discoveries: seq<Discovery>) {
    && (forall i, j :: 0 <= i < j < |discoveries| ==> discoveries[i].id != discoveries[j].id)
    && (forall i :: 0 <= i < |discoveries| && discoveries[i].user.Some? ==> IsUser(users, discoveries[i].user.value))
    && (forall i :: 0 <= i < |discoveries| ==> IsCompany(r, discoveries[i].company))
  }

  /** The discovery exists, and belongs to this user and company. */
  ghost predicate Owned(discoveries: seq<Discovery>, discovery: Id, user: Id, company: Id) {
    exists i :: 0 <= i < |discoveries| && discoveries[i].id == discovery
                && discoveries[i].user == Some(user) && discoveries[i].company == company
  }

  /** An active asset of a registered company, on Solana mainnet. */
  ghost predicate IsInstrument(r: Registry, a: Asset) {
    a in r.assets && a.active && a.network == "Solana" && a.environment == "mainnet"
    && exists c <- r.companies :: c.id == a.company
  }

  /** The company of a transaction is in the registry, and it bought an instrument of the
      company's on the network it names. */
  ghost predicate Registered(r: Registry, x: Transaction) {
    exists a <- r.assets :: a.id == x.asset && a.company == x.company && a.network == x.network && IsInstrument(r, a)
  }

  ghost predicate TransactionsSound(r: Registry, users: seq<User>, discoveries: seq<Discovery>, transactions: seq<Transaction>) {
    && (forall i, j :: 0 <= i < j < |transactions| ==>
          transactions[i].id != transactions[j].id && transactions[i].txHash != transactions[j].txHash)
    && (forall i :: 0 <= i < |transactions| ==>
          && IsUser(users, transactions[i].user)
          && FitsColumns(transactions[i].purchase)
          && Registered(r, transactions[i])
          && (transactions[i].discovery.Some? ==>
                Owned(discoveries, transactions[i].discovery.value, transactions[i].user, transactions[i].company)))
  }

  ghost predicate Sound(r: Registry, t: Tables) {
    && UsersSound(r, t.users)
    && IdentitiesSound(t.users, t.identities)
    && DiscoveriesSound(r, t.users, t.discoveries)
    && TransactionsSound(r, t.users, t.discoveries, t.transactions)
  }

  const EMPTY: Tables := Tables([], [], [], [])

  // What never changes again

  ghost predicate UsersKept(before: seq<User>, after: seq<User>) {
    && |before| <= |after|
    && forall i :: 0 <= i < |before| ==>
         && after[i].id == before[i].id && after[i].email == before[i].email
         && after[i].passwordHash == before[i].passwordHash
         && (before[i].wallet.Some? ==> after[i].wallet == before[i].wallet)
  }

  ghost predicate DiscoveriesKept(before: seq<Discovery>, after: seq<Discovery>) {
    && |before| <= |after|
    && forall i :: 0 <= i < |before| ==>
         && after[i].(user := before[i].user) == before[i]
         && (before[i].user.Some? ==> after[i].user == before[i].user)
  }

  /** Identities added on the way belong to accounts added on the way. */
  ghost predicate NewIdentitiesAreNewUsers(before: Tables, after: Tables) {
    && before.identities <= after.identities
    && forall i :: |before.identities| <= i < |after.identities| ==> !IsUser(before.users, after.identities[i].user)
  }

  /** Accounts, wallets, discovery owners and transactions are kept for ever once set. */
  ghost predicate Kept(before: Tables, after: Tables) {
    && UsersKept(before.users, after.users)
    && NewIdentitiesAreNewUsers(before, after)
    && DiscoveriesKept(before.discoveries, after.discoveries)
    && before.transactions <= after.transactions
  }
}
