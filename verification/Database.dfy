/** The database functions as transactions over mutable tables, rolled back on failure. */
module Database {
  import opened Options
  import opened Trimming
  import opened Relational

  class Connection {
    const registry: Registry
    var users: seq<User>
    var identities: seq<Identity>
    var discoveries: seq<Discovery>
    var transactions: seq<Transaction>

    function State(): Tables
      reads this
    {
      Tables(users, identities, discoveries, transactions)
    }

    constructor (registry: Registry)
      ensures State() == EMPTY && this.registry == registry
    {
      this.registry := registry;
      users, identities, discoveries, transactions := [], [], [], [];
    }

    method Rollback(checkpoint: Tables)
      modifies this
      ensures State() == checkpoint
    {
      users := checkpoint.users;
      identities := checkpoint.identities;
      discoveries := checkpoint.discoveries;
      transactions := checkpoint.transactions;
    }

    method GoogleUser(subject: string, email: string, newId: Id) returns (r: Result<AuthUser, DbError>)
      modifies this
      ensures (r, State()) == Relational.GoogleUser(registry, old(State()), subject, email, newId)
    {
      var identity := Find(identities, (i: Identity) => i.subject == subject);
      if identity.Some? {
        var user := UserById(State(), identities[identity.value].user);
        return if user.None? then Err(DbError.Database) else AsAuthUser(users[user.value]);
      }
      if UserByEmail(registry, State(), email).Some? {
        return Err(EmailExists);
      }
      if UserById(State(), newId).Some? {
        return Err(DbError.Database);
      }
      users := users + [User(newId, Some(email), None, None)];
      identities := identities + [Identity(subject, newId)];
      return Ok(AuthUser(newId, email, None));
    }

    method RegisterEmailUser(email: string, passwordHash: string, newId: Id) returns (r: Result<AuthUser, DbError>)
      modifies this
      ensures (r, State()) == Relational.RegisterEmailUser(registry, old(State()), email, passwordHash, newId)
    {
      if UserById(State(), newId).Some? {
        return Err(DbError.Database);
      }
      if UserByEmail(registry, State(), email).Some? {
        return Err(EmailExists);
      }
      users := users + [User(newId, Some(email), Some(passwordHash), None)];
      return Ok(AuthUser(newId, email, None));
    }

    method BindWallet(user: Id, wallet: string) returns (r: Result<AuthUser, DbError>)
      modifies this
      ensures (r, State()) == Relational.BindWallet(old(State()), user, wallet)
    {
      var row := UserById(State(), user);
      if row.None? || (users[row.value].wallet.Some? && users[row.value].wallet.value != wallet) {
        return Err(WalletMismatch);
      }
      var holder := UserByWallet(State(), wallet);
      if holder.Some? && holder.value != row.value {
        return Err(AddressInUse);
      }
      users := users[row.value := users[row.value].(wallet := Some(wallet))];
      return AsAuthUser(users[row.value]);
    }

    method CreateDiscovery(slug: string, how: Method, source: string, explanation: string, newId: Id)
      returns (r: Result<Found, DbError>)
      modifies this
      ensures (r, State()) == Relational.CreateDiscovery(registry, old(State()), slug, how, source, explanation, newId)
    {
      var row := Find(registry.companies, (c: Company) => c.slug == slug);
      if row.None? {
        return Err(CompanyNotFound);
      }
      var company := registry.companies[row.value];
      if Exists(discoveries, (d: Discovery) => d.id == newId) {
        return Err(DbError.Database);
      }
      var trimmedSource, trimmedExplanation := Trim(registry.whitespace, source), Trim(registry.whitespace, explanation);
      discoveries := discoveries + [Discovery(newId, None, company.id, how, trimmedSource, trimmedExplanation)];
      return Ok(Found(newId, slug, company.name, company.ticker, how, trimmedSource, trimmedExplanation));
    }

    method UpsertWallet(wallet: string, newUser: Id) returns (r: Option<Id>)
      modifies this`users
      ensures match Relational.UpsertWallet(old(State()), wallet, newUser)
              case Some((user, t')) => r == Some(user) && State() == t'
              case None => r == None && State() == old(State())
    {
      var holder := UserByWallet(State(), wallet);
      if holder.Some? {
        return Some(users[holder.value].id);
      }
      if UserById(State(), newUser).Some? {
        return None;
      }
      users := users + [User(newUser, None, None, Some(wallet))];
      return Some(newUser);
    }

    /** Whether exactly one row was updated. */
    method LinkDiscovery(discovery: Id, user: Id, company: Id) returns (linked: bool)
      modifies this`discoveries
      ensures match Relational.LinkDiscovery(old(State()), Some(discovery), user, company)
              case Some(t') => linked && State() == t'
              case None => !linked && State() == old(State())
    {
      var row := Find(discoveries, (d: Discovery) =>
        d.id == discovery && d.company == company && (d.user.None? || d.user == Some(user)));
      if row.None? {
        return false;
      }
      discoveries := discoveries[row.value := discoveries[row.value].(user := Some(user))];
      return true;
    }

    method RecordTransaction(input: Submission, purchase: Purchase, newUser: Id, newId: Id) returns (r: Result<Id, DbError>)
      modifies this
      ensures (r, State()) == Relational.RecordTransaction(registry, old(State()), input, purchase, newUser, newId)
    {
      var checkpoint := State();
      var asset := Instrument(registry, input.companySlug);
      if asset.None? {
        return Err(DbError.Database);
      }
      var user := UpsertWallet(input.wallet, newUser);
      if user.None? {
        return Err(DbError.Database);
      }
      if input.discovery.Some? {
        var linked := LinkDiscovery(input.discovery.value, user.value, asset.value.company);
        if !linked {
          Rollback(checkpoint);
          return Err(DiscoveryMismatch);
        }
      }
      var row := Transaction(newId, user.value, asset.value.company, input.discovery, asset.value.id,
                             input.txHash, purchase, asset.value.network);
      var inserted := InsertTransaction(State(), row);
      if inserted.Err? {
        Rollback(checkpoint);
        return Err(inserted.error);
      }
      transactions := transactions + [row];
      return Ok(newId);
    }
  }
}
