/** What every run of database functions keeps. */
module RelationalProofs {
  import opened Options
  import opened Trimming
  import opened Relational

  lemma AddUserKeepsSound(r: Registry, t: Tables, user: User)
    requires Sound(r, t)
    requires UserById(t, user.id).None?
    requires user.wallet.Some? ==> UserByWallet(t, user.wallet.value).None?
    requires user.email.Some? ==> UserByEmail(r, t, user.email.value).None?
    requires user.wallet.Some? || user.email.Some?
    requires user.passwordHash.Some? ==> user.email.Some?
    ensures var t' := t.(users := t.users + [user]); Sound(r, t') && Kept(t, t') && IsUser(t'.users, user.id)
  {
    UsersGrow(r, t, t.users + [user]);
    assert (t.users + [user])[|t.users|].id == user.id;
  }

  /** References to users survive as long as the users do. */
  lemma UsersGrow(r: Registry, t: Tables, users: seq<User>)
    requires IdentitiesSound(t.users, t.identities)
    requires DiscoveriesSound(r, t.users, t.discoveries)
    requires TransactionsSound(r, t.users, t.discoveries, t.transactions)
    requires UsersKept(t.users, users)
    ensures IdentitiesSound(users, t.identities)
    ensures DiscoveriesSound(r, users, t.discoveries)
    ensures TransactionsSound(r, users, t.discoveries, t.transactions)
  {
    forall id | IsUser(t.users, id) ensures IsUser(users, id) {
      var i :| 0 <= i < |t.users| && t.users[i].id == id;
      assert users[i].id == id;
    }
    forall id | IsAccount(t.users, id) ensures IsAccount(users, id) {
      var i :| 0 <= i < |t.users| && t.users[i].id == id && t.users[i].email.Some?;
      assert users[i].id == id && users[i].email.Some?;
    }
  }

  lemma IdentitiesGrow(r: Registry, t: Tables, identity: Identity)
    requires Sound(r, t) && IsAccount(t.users, identity.user)
    requires forall i :: 0 <= i < |t.identities| ==>
               t.identities[i].subject != identity.subject && t.identities[i].user != identity.user
    ensures Sound(r, t.(identities := t.identities + [identity]))
  {
  }

  lemma GoogleKeepsSound(r: Registry, t: Tables, subject: string, email: string, newId: Id)
    requires Sound(r, t)
    ensures var t' := GoogleUser(r, t, subject, email, newId).1; Sound(r, t') && Kept(t, t')
  {
    var found := Find(t.identities, (i: Identity) => i.subject == subject);
    if found.None? && UserByEmail(r, t, email).None? && UserById(t, newId).None? {
      var user := User(newId, Some(email), None, None);
      var t1 := t.(users := t.users + [user]);
      AddUserKeepsSound(r, t, user);
      assert t1.users[|t.users|].id == newId && IsAccount(t1.users, newId);
      assert !IsUser(t.users, newId);
      forall i | 0 <= i < |t.identities| ensures t.identities[i].user != newId {
        assert IsAccount(t.users, t.identities[i].user);
      }
      IdentitiesGrow(r, t1, Identity(subject, newId));
    }
  }

  lemma WalletIsBound(r: Registry, users: seq<User>, i: nat, wallet: string)
    requires UsersSound(r, users) && i < |users|
    requires users[i].wallet.None? || users[i].wallet == Some(wallet)
    requires users[i].wallet.None? ==> forall j :: 0 <= j < |users| ==> users[j].wallet != Some(wallet)
    ensures var users' := users[i := users[i].(wallet := Some(wallet))]; UsersSound(r, users') && UsersKept(users, users')
  {
  }

  lemma BindKeepsSound(r: Registry, t: Tables, user: Id, wallet: string)
    requires Sound(r, t)
    ensures var t' := BindWallet(t, user, wallet).1; Sound(r, t') && Kept(t, t')
  {
    if UserById(t, user).Some? {
      var i := UserById(t, user).value;
      var holder := UserByWallet(t, wallet);
      if (t.users[i].wallet.None? || t.users[i].wallet.value == wallet) && (holder.None? || holder.value == i) {
        WalletIsBound(r, t.users, i, wallet);
        UsersGrow(r, t, t.users[i := t.users[i].(wallet := Some(wallet))]);
      }
    }
  }

  lemma UpsertKeepsSound(r: Registry, t: Tables, wallet: string, newId: Id)
    requires Sound(r, t) && UpsertWallet(t, wallet, newId).Some?
    ensures var (user, t') := UpsertWallet(t, wallet, newId).value;
      Sound(r, t') && Kept(t, t') && IsUser(t'.users, user) && t' == t.(users := t'.users)
  {
    if UserByWallet(t, wallet).None? {
      AddUserKeepsSound(r, t, User(newId, None, None, Some(wallet)));
    }
  }

  /** Changing discoveries in a way that keeps owners disturbs no recorded transaction. */
  lemma OwnersKept(before: seq<Discovery>, after: seq<Discovery>, d: Id, u: Id, c: Id)
    requires DiscoveriesKept(before, after) && Owned(before, d, u, c)
    ensures Owned(after, d, u, c)
  {
    var i :| 0 <= i < |before| && before[i].id == d && before[i].user == Some(u) && before[i].company == c;
    assert after[i].user == Some(u) && after[i].(user := before[i].user) == before[i];
  }

  lemma DiscoveriesGrow(r: Registry, t: Tables, discoveries: seq<Discovery>)
    requires Sound(r, t) && DiscoveriesKept(t.discoveries, discoveries) && DiscoveriesSound(r, t.users, discoveries)
    ensures Sound(r, t.(discoveries := discoveries)) && Kept(t, t.(discoveries := discoveries))
  {
    forall d: Id, u: Id, c: Id | Owned(t.discoveries, d, u, c) ensures Owned(discoveries, d, u, c) {
      OwnersKept(t.discoveries, discoveries, d, u, c);
    }
  }

  /** One discovery of this company, free or the user's already, is now the user's. */
  ghost predicate Linked(before: seq<Discovery>, after: seq<Discovery>, discovery: Id, user: Id, company: Id) {
    exists i :: 0 <= i < |before| && before[i].id == discovery && before[i].company == company
                && (before[i].user.None? || before[i].user == Some(user))
                && after == before[i := before[i].(user := Some(user))]
  }

  lemma LinkLinks(t: Tables, discovery: Id, user: Id, company: Id)
    requires LinkDiscovery(t, Some(discovery), user, company).Some?
    ensures var t' := LinkDiscovery(t, Some(discovery), user, company).value;
      t' == t.(discoveries := t'.discoveries) && Linked(t.discoveries, t'.discoveries, discovery, user, company)
  {
    var i := Find(t.discoveries, (d: Discovery) =>
      d.id == discovery && d.company == company && (d.user.None? || d.user == Some(user))).value;
    assert t.discoveries[i].id == discovery;
  }

  lemma LinkedIsOwned(before: seq<Discovery>, after: seq<Discovery>, discovery: Id, user: Id, company: Id)
    requires Linked(before, after, discovery, user, company)
    ensures Owned(after, discovery, user, company) && DiscoveriesKept(before, after)
  {
    var i :| 0 <= i < |before| && before[i].id == discovery && before[i].company == company
             && (before[i].user.None? || before[i].user == Some(user))
             && after == before[i := before[i].(user := Some(user))];
    assert after[i].id == discovery;
  }

  /** Claiming a free discovery, or one's own again, makes it one's own. */
  lemma LinkKeepsSound(r: Registry, t: Tables, discovery: Option<Id>, user: Id, company: Id)
    requires Sound(r, t) && IsUser(t.users, user) && LinkDiscovery(t, discovery, user, company).Some?
    ensures var t' := LinkDiscovery(t, discovery, user, company).value;
      && Sound(r, t') && Kept(t, t')
      && t' == t.(discoveries := t'.discoveries)
      && (discovery.Some? ==> Owned(t'.discoveries, discovery.value, user, company))
  {
    if discovery.Some? {
      var discoveries := LinkDiscovery(t, discovery, user, company).value.discoveries;
      LinkLinks(t, discovery.value, user, company);
      LinkedIsOwned(t.discoveries, discoveries, discovery.value, user, company);
      DiscoveriesGrow(r, t, discoveries);
    }
  }

  lemma KeptIsTransitive(a: Tables, b: Tables, c: Tables)
    requires Kept(a, b) && Kept(b, c)
    ensures Kept(a, c)
  {
    forall i | |a.identities| <= i < |c.identities| ensures !IsUser(a.users, c.identities[i].user) {
      if i < |b.identities| {
        assert c.identities[i] == b.identities[i];
      } else {
        assert forall j :: 0 <= j < |a.users| ==> a.users[j].id == b.users[j].id;
      }
    }
  }

  lemma InsertKeepsSound(r: Registry, t: Tables, row: Transaction)
    requires Sound(r, t) && IsUser(t.users, row.user)
    requires row.discovery.Some? ==> Owned(t.discoveries, row.discovery.value, row.user, row.company)
    requires Registered(r, row) && InsertTransaction(t, row).Ok?
    ensures Sound(r, InsertTransaction(t, row).value) && Kept(t, InsertTransaction(t, row).value)
  {
  }

  /** The asset can be bought under this slug. */
  ghost predicate InstrumentOf(r: Registry, a: Asset, slug: string) {
    a in r.assets && a.active && a.network == "Solana" && a.environment == "mainnet"
    && exists c <- r.companies :: c.id == a.company && c.slug == slug
  }

  /** There is an instrument exactly when an active Solana mainnet asset of a company with
      the slug exists, and then it is such an asset. */
  lemma InstrumentIsExact(r: Registry, slug: string)
    ensures match Instrument(r, slug)
            case None => forall a <- r.assets :: !InstrumentOf(r, a, slug)
            case Some(asset) => InstrumentOf(r, asset, slug)
  {
    forall a | a in r.assets
      ensures Exists(r.companies, (c: Company) => c.id == a.company && c.slug == slug) <==>
              exists c <- r.companies :: c.id == a.company && c.slug == slug
    {
      var found := Find(r.companies, (c: Company) => c.id == a.company && c.slug == slug);
      if found.Some? {
        assert r.companies[found.value] in r.companies;
      }
    }
  }

  lemma InstrumentIsRegistered(r: Registry, slug: string, row: Transaction)
    requires Instrument(r, slug).Some?
    requires var a := Instrument(r, slug).value; row.company == a.company && row.asset == a.id && row.network == a.network
    ensures Registered(r, row)
  {
    InstrumentIsExact(r, slug);
    assert IsInstrument(r, Instrument(r, slug).value);
  }

  /** The four stages of a recorded purchase. */
  lemma RecordStages(r: Registry, t: Tables, input: Submission, purchase: Purchase, newUser: Id, newId: Id)
    returns (asset: Asset, user: Id, t1: Tables, t2: Tables, row: Transaction)
    requires RecordTransaction(r, t, input, purchase, newUser, newId).0.Ok?
    ensures Instrument(r, input.companySlug) == Some(asset)
    ensures UpsertWallet(t, input.wallet, newUser) == Some((user, t1))
    ensures LinkDiscovery(t1, input.discovery, user, asset.company) == Some(t2)
    ensures row == Transaction(newId, user, asset.company, input.discovery, asset.id, input.txHash, purchase, asset.network)
    ensures InsertTransaction(t2, row) == Ok(RecordTransaction(r, t, input, purchase, newUser, newId).1)
  {
    asset := Instrument(r, input.companySlug).value;
    user, t1 := UpsertWallet(t, input.wallet, newUser).value.0, UpsertWallet(t, input.wallet, newUser).value.1;
    t2 := LinkDiscovery(t1, input.discovery, user, asset.company).value;
    row := Transaction(newId, user, asset.company, input.discovery, asset.id, input.txHash, purchase, asset.network);
  }

  lemma UpsertAndLinkKeepSound(r: Registry, t: Tables, wallet: string, newUser: Id, discovery: Option<Id>, company: Id)
    returns (user: Id, t2: Tables)
    requires Sound(r, t) && UpsertWallet(t, wallet, newUser).Some?
    requires var (user, t1) := UpsertWallet(t, wallet, newUser).value; LinkDiscovery(t1, discovery, user, company).Some?
    ensures var (u, t1) := UpsertWallet(t, wallet, newUser).value;
      u == user && LinkDiscovery(t1, discovery, user, company) == Some(t2)
    ensures Sound(r, t2) && Kept(t, t2) && IsUser(t2.users, user)
    ensures discovery.Some? ==> Owned(t2.discoveries, discovery.value, user, company)
  {
    UpsertKeepsSound(r, t, wallet, newUser);
    var t1;
    user, t1 := UpsertWallet(t, wallet, newUser).value.0, UpsertWallet(t, wallet, newUser).value.1;
    LinkKeepsSound(r, t1, discovery, user, company);
    t2 := LinkDiscovery(t1, discovery, user, company).value;
    KeptIsTransitive(t, t1, t2);
  }

  lemma RecordKeepsSound(r: Registry, t: Tables, input: Submission, purchase: Purchase, newUser: Id, newId: Id)
    requires Sound(r, t)
    ensures var t' := RecordTransaction(r, t, input, purchase, newUser, newId).1; Sound(r, t') && Kept(t, t')
  {
    if RecordTransaction(r, t, input, purchase, newUser, newId).0.Ok? {
      var asset, user, _, t2, row := RecordStages(r, t, input, purchase, newUser, newId);
      var _, _ := UpsertAndLinkKeepSound(r, t, input.wallet, newUser, input.discovery, asset.company);
      InstrumentIsRegistered(r, input.companySlug, row);
      InsertKeepsSound(r, t2, row);
      KeptIsTransitive(t, t2, InsertTransaction(t2, row).value);
    }
  }

  lemma StepKeepsSound(r: Registry, t: Tables, q: Request)
    requires Sound(r, t)
    ensures Sound(r, Step(r, t, q)) && Kept(t, Step(r, t, q))
  {
    match q
    case Google(subject, email, newId) => GoogleKeepsSound(r, t, subject, email, newId);
    case Register(email, passwordHash, newId) =>
      if UserByEmail(r, t, email).None? && UserById(t, newId).None? {
        AddUserKeepsSound(r, t, User(newId, Some(email), Some(passwordHash), None));
      }
    case Bind(user, wallet) => BindKeepsSound(r, t, user, wallet);
    case Discover(_, _, _, _, _) => DiscoverKeepsSound(r, t, q);
    case Record(input, purchase, newUser, newId) => RecordKeepsSound(r, t, input, purchase, newUser, newId);
  }

  lemma DiscoverKeepsSound(r: Registry, t: Tables, q: Request)
    requires Sound(r, t) && q.Discover?
    ensures Sound(r, Step(r, t, q)) && Kept(t, Step(r, t, q))
  {
    var found := Find(r.companies, (c: Company) => c.slug == q.slug);
    if found.Some? && !Exists(t.discoveries, (d: Discovery) => d.id == q.newId) {
      assert IsCompany(r, r.companies[found.value].id);
      DiscoveriesGrow(r, t, Step(r, t, q).discoveries);
    }
  }

  /** Over every run the constraints hold and nothing once set changes: wallets and emails
      belong to one user each, a discovery's owner moves only from none to one user, every
      transaction agrees with the discovery it names, and hashes are stored once. */
  lemma {:induction false} RunKeepsSound(r: Registry, t: Tables, requests: seq<Request>)
    requires Sound(r, t)
    ensures Sound(r, Run(r, t, requests)) && Kept(t, Run(r, t, requests))
    decreases requests
  {
    if requests != [] {
      var t1 := Step(r, t, requests[0]);
      StepKeepsSound(r, t, requests[0]);
      RunKeepsSound(r, t1, requests[1..]);
      KeptIsTransitive(t, t1, Run(r, t1, requests[1..]));
    }
  }

  /** In particular from empty tables. */
  lemma ReachableIsSound(r: Registry, requests: seq<Request>)
    ensures Sound(r, Run(r, EMPTY, requests))
  {
    RunKeepsSound(r, EMPTY, requests);
  }

  /** A step of a run is the call that it names. */
  lemma StepsAreCalls(r: Registry, t: Tables, email: string, text: string, other: string, id: Id, newId: Id,
                      how: Method, input: Submission, purchase: Purchase)
    ensures Step(r, t, Google(text, email, newId)) == GoogleUser(r, t, text, email, newId).1
    ensures Step(r, t, Register(email, text, newId)) == RegisterEmailUser(r, t, email, text, newId).1
    ensures Step(r, t, Bind(id, text)) == BindWallet(t, id, text).1
    ensures Step(r, t, Discover(email, how, text, other, newId)) == CreateDiscovery(r, t, email, how, text, other, newId).1
    ensures Step(r, t, Record(input, purchase, id, newId)) == RecordTransaction(r, t, input, purchase, id, newId).1
  {
  }

  /** A rejected request leaves every table as it was, the upserted user included. */
  lemma RejectedChangesNothing(r: Registry, t: Tables, q: Request)
    requires Sound(r, t) && Rejected(r, t, q)
    ensures Step(r, t, q) == t
  {
    if q.Bind? && UserById(t, q.user).Some? {
      var i := UserById(t, q.user).value;
      assert t.users[i].email.None? ==> t.users[i].wallet.Some?;
      assert t.users[i := t.users[i]] == t.users;
    }
  }

  // Identities

  lemma FindUnique<T>(rows: seq<T>, p: T -> bool, i: nat)
    requires i < |rows| && p(rows[i])
    requires forall j :: 0 <= j < |rows| && p(rows[j]) ==> j == i
    ensures Find(rows, p) == Some(i)
  {
  }

  /** Once a Google subject has an account it resolves to that account for ever, whatever
      email it presents, and resolving it changes nothing. */
  lemma SubjectIsStable(r: Registry, t: Tables, requests: seq<Request>, i: nat, email: string, newId: Id)
    requires Sound(r, t) && i < |t.identities|
    ensures var t' := Run(r, t, requests);
      var (answer, after) := GoogleUser(r, t', t.identities[i].subject, email, newId);
      && after == t' && |t.users| <= |t'.users|
      && exists j :: 0 <= j < |t.users| && t.users[j].id == t.identities[i].user && t.users[j].email.Some?
                     && answer == Ok(AuthUser(t.users[j].id, t.users[j].email.value, t'.users[j].wallet))
  {
    RunKeepsSound(r, t, requests);
    var t' := Run(r, t, requests);
    assert t'.identities[i] == t.identities[i];
    FindUnique(t'.identities, (x: Identity) => x.subject == t.identities[i].subject, i);
    var user := t.identities[i].user;
    assert IsAccount(t.users, user);
    var j :| 0 <= j < |t.users| && t.users[j].id == user && t.users[j].email.Some?;
    assert t'.users[j].id == user && t'.users[j].email == t.users[j].email;
    FindUnique(t'.users, (u: User) => u.id == user, j);
  }

  /** Signing in with Google for the first time is refused exactly when the email is taken
      in any letter case, so it never takes over an account. */
  lemma GoogleNeverTakesOver(r: Registry, t: Tables, subject: string, email: string, newId: Id)
    requires Sound(r, t) && !IsUser(t.users, newId)
    requires forall i :: 0 <= i < |t.identities| ==> t.identities[i].subject != subject
    ensures var (answer, t') := GoogleUser(r, t, subject, email, newId);
      && (answer == Err(EmailExists) <==>
            exists i :: 0 <= i < |t.users| && t.users[i].email.Some? && r.lower(t.users[i].email.value) == r.lower(email))
      && (answer != Err(EmailExists) ==>
            && answer == Ok(AuthUser(newId, email, None))
            && t' == t.(users := t.users + [User(newId, Some(email), None, None)],
                        identities := t.identities + [Identity(subject, newId)]))
  {
  }

  /** An email that an account holds stays taken, in any letter case: after any run nobody
      can register it, and nobody new can sign in with it. */
  lemma EmailIsForGood(r: Registry, t: Tables, requests: seq<Request>, i: nat,
                       email: string, passwordHash: string, subject: string, newId: Id)
    requires Sound(r, t) && i < |t.users| && t.users[i].email.Some?
    requires r.lower(email) == r.lower(t.users[i].email.value)
    ensures var t' := Run(r, t, requests);
      && UserByEmail(r, t', email) == Some(i)
      && (!IsUser(t'.users, newId) ==> RegisterEmailUser(r, t', email, passwordHash, newId) == (Err(EmailExists), t'))
      && ((forall j :: 0 <= j < |t'.identities| ==> t'.identities[j].subject != subject) ==>
            GoogleUser(r, t', subject, email, newId) == (Err(EmailExists), t'))
  {
    RunKeepsSound(r, t, requests);
    var t' := Run(r, t, requests);
    assert t'.users[i].email == t.users[i].email;
    FindUnique(t'.users, (u: User) => u.email.Some? && r.lower(u.email.value) == r.lower(email), i);
  }

  /** Registering by email is refused exactly when the email is taken in any letter case. */
  lemma RegisterIsExact(r: Registry, t: Tables, email: string, passwordHash: string, newId: Id)
    requires Sound(r, t) && !IsUser(t.users, newId)
    ensures var (answer, t') := RegisterEmailUser(r, t, email, passwordHash, newId);
      && (answer == Err(EmailExists) <==>
            exists i :: 0 <= i < |t.users| && t.users[i].email.Some? && r.lower(t.users[i].email.value) == r.lower(email))
      && (answer != Err(EmailExists) ==>
            && answer == Ok(AuthUser(newId, email, None))
            && t' == t.(users := t.users + [User(newId, Some(email), Some(passwordHash), None)]))
  {
  }

  ghost predicate HeldByOther(users: seq<User>, i: nat, wallet: string) {
    exists j :: 0 <= j < |users| && j != i && users[j].wallet == Some(wallet)
  }

  /** An account can bind a wallet exactly when it holds none or this one, and nobody else
      holds it; then it holds the wallet and nothing else has changed. A user without an email
      has no account to answer with. */
  lemma BindIsExact(r: Registry, t: Tables, i: nat, wallet: string)
    requires Sound(r, t) && i < |t.users|
    ensures var row := t.users[i];
      BindWallet(t, row.id, wallet) ==
      if row.wallet.Some? && row.wallet != Some(wallet) then (Err(WalletMismatch), t)
      else if HeldByOther(t.users, i, wallet) then (Err(AddressInUse), t)
      else
        (if row.email.None? then Err(Database) else Ok(AuthUser(row.id, row.email.value, Some(wallet))),
         t.(users := t.users[i := row.(wallet := Some(wallet))]))
    ensures forall user :: !IsUser(t.users, user) ==> BindWallet(t, user, wallet) == (Err(WalletMismatch), t)
  {
    FindUnique(t.users, (u: User) => u.id == t.users[i].id, i);
    var holder := UserByWallet(t, wallet);
    if holder.Some? && t.users[i].wallet.Some? && t.users[i].wallet.value == wallet {
      assert holder.value == i;
    }
  }

  /** A new discovery belongs to nobody, is of the company that was asked for, and keeps its
      texts without the whitespace around them. */
  lemma DiscoveryStartsFree(r: Registry, t: Tables, slug: string, how: Method, source: string, explanation: string, newId: Id)
    requires forall i :: 0 <= i < |t.discoveries| ==> t.discoveries[i].id != newId
    ensures var (answer, t') := CreateDiscovery(r, t, slug, how, source, explanation, newId);
      && (answer == Err(CompanyNotFound) <==> forall i :: 0 <= i < |r.companies| ==> r.companies[i].slug != slug)
      && (answer != Err(CompanyNotFound) ==>
            && answer.Ok? && answer.value.id == newId && answer.value.companySlug == slug && answer.value.how == how
            && Trimmed(r.whitespace, source, answer.value.source) && Trimmed(r.whitespace, explanation, answer.value.explanation)
            && exists i :: 0 <= i < |r.companies| && r.companies[i].slug == slug
                           && answer.value.companyName == r.companies[i].name && answer.value.ticker == r.companies[i].ticker
                           && t' == t.(discoveries := t.discoveries + [
                              Discovery(newId, None, r.companies[i].id, how, answer.value.source, answer.value.explanation)]))
  {
    TrimIsExact(r.whitespace, source);
    TrimIsExact(r.whitespace, explanation);
  }

  /** A wallet that a user holds stays that user's: after any run it is found there, and no
      other account can bind it. */
  lemma WalletIsForGood(r: Registry, t: Tables, requests: seq<Request>, i: nat, other: Id)
    requires Sound(r, t) && i < |t.users| && t.users[i].wallet.Some? && other != t.users[i].id
    ensures var t' := Run(r, t, requests);
      var wallet := t.users[i].wallet.value;
      var (answer, after) := BindWallet(t', other, wallet);
      && UserByWallet(t', wallet) == Some(i) && t'.users[i].id == t.users[i].id
      && after == t'
      && answer == Err(if IsUser(t'.users, other) && t'.users[UserById(t', other).value].wallet.None?
                       then AddressInUse else WalletMismatch)
  {
    RunKeepsSound(r, t, requests);
    var t' := Run(r, t, requests);
    var wallet := t.users[i].wallet.value;
    FindUnique(t'.users, (u: User) => u.wallet == Some(wallet), i);
    var row := UserById(t', other);
    if row.Some? {
      assert t'.users[row.value].wallet != Some(wallet);
    }
  }

  // Recording

  /** The user a purchase is recorded for. */
  function Buyer(t: Tables, wallet: string, newUser: Id): Id {
    var holder := UserByWallet(t, wallet);
    if holder.Some? then t.users[holder.value].id else newUser
  }

  /** The discovery is free or already the buyer's, and of the purchased company. */
  ghost predicate Claimable(t: Tables, discovery: Id, user: Id, company: Id) {
    exists i :: 0 <= i < |t.discoveries| && t.discoveries[i].id == discovery && t.discoveries[i].company == company
                && (t.discoveries[i].user.None? || t.discoveries[i].user == Some(user))
  }

  ghost predicate Recorded(t: Tables, txHash: string) {
    exists i :: 0 <= i < |t.transactions| && t.transactions[i].txHash == txHash
  }

  lemma LinkIsExact(t: Tables, discovery: Id, user: Id, company: Id)
    ensures LinkDiscovery(t, Some(discovery), user, company).Some? <==> Claimable(t, discovery, user, company)
  {
  }

  lemma InsertIsExact(t: Tables, row: Transaction)
    requires forall i :: 0 <= i < |t.transactions| ==> t.transactions[i].id != row.id
    ensures InsertTransaction(t, row) ==
            if !FitsColumns(row.purchase) then Err(Database)
            else if Recorded(t, row.txHash) then Err(Duplicate)
            else Ok(t.(transactions := t.transactions + [row]))
  {
  }

  ghost predicate FreshIds(t: Tables, newUser: Id, newId: Id) {
    !IsUser(t.users, newUser) && forall i :: 0 <= i < |t.transactions| ==> t.transactions[i].id != newId
  }

  function Pow10(n: nat): nat {
    if n == 0 then 1 else 10 * Pow10(n - 1)
  }

  lemma {:induction false} Pow10Sum(a: nat, b: nat)
    ensures Pow10(a + b) == Pow10(a) * Pow10(b)
  {
    if a > 0 {
      Pow10Sum(a - 1, b);
    }
  }

  /** Amounts fit when they have at most 30 and 38 digits, the payment is positive, and the
      tokens are not negative. */
  lemma FitsDigits(p: Purchase)
    ensures FitsColumns(p) <==> 0 < p.amountUsdc < Pow10(30) && 0 <= p.tokenAmount < Pow10(38)
  {
    assert Pow10(2) == 100;
    assert Pow10(4) == 10_000;
    Pow10Sum(4, 4);
    Pow10Sum(2, 8);
    Pow10Sum(10, 10);
    Pow10Sum(20, 10);
    Pow10Sum(30, 8);
  }

  /** What recording answers for a company, in the order of the checks: the discovery must be
      the company's and free or the buyer's, the amounts must fit, the hash must be new. */
  ghost function Outcome(t: Tables, input: Submission, purchase: Purchase, newUser: Id, newId: Id, company: Id)
    : Result<Id, DbError>
  {
    if input.discovery.Some? && !Claimable(t, input.discovery.value, Buyer(t, input.wallet, newUser), company)
    then Err(DiscoveryMismatch)
    else if !(0 < purchase.amountUsdc < Pow10(30) && 0 <= purchase.tokenAmount < Pow10(38)) then Err(Database)
    else if Recorded(t, input.txHash) then Err(Duplicate)
    else Ok(newId)
  }

  /** Exactly when a purchase is recorded, and why it is refused otherwise. */
  lemma RecordIsExact(r: Registry, t: Tables, input: Submission, purchase: Purchase, newUser: Id, newId: Id)
    requires FreshIds(t, newUser, newId)
    ensures var answer := RecordTransaction(r, t, input, purchase, newUser, newId).0;
      if forall a <- r.assets :: !InstrumentOf(r, a, input.companySlug) then answer == Err(Database)
      else
        exists a <- r.assets ::
          InstrumentOf(r, a, input.companySlug) && answer == Outcome(t, input, purchase, newUser, newId, a.company)
  {
    InstrumentIsExact(r, input.companySlug);
    if Instrument(r, input.companySlug).Some? {
      OutcomeOfInstrument(r, t, input, purchase, newUser, newId);
    }
  }

  lemma OutcomeOfInstrument(r: Registry, t: Tables, input: Submission, purchase: Purchase, newUser: Id, newId: Id)
    requires FreshIds(t, newUser, newId) && Instrument(r, input.companySlug).Some?
    ensures RecordTransaction(r, t, input, purchase, newUser, newId).0 ==
            Outcome(t, input, purchase, newUser, newId, Instrument(r, input.companySlug).value.company)
  {
    FitsDigits(purchase);
    var asset := Instrument(r, input.companySlug).value;
    assert UserById(t, newUser).None?;
    var (user, t1) := UpsertWallet(t, input.wallet, newUser).value;
    assert user == Buyer(t, input.wallet, newUser) && t1.discoveries == t.discoveries;
    if input.discovery.Some? {
      LinkIsExact(t1, input.discovery.value, user, asset.company);
    }
    var linked := LinkDiscovery(t1, input.discovery, user, asset.company);
    if linked.Some? {
      var row := Transaction(newId, user, asset.company, input.discovery, asset.id, input.txHash, purchase, asset.network);
      assert linked.value.transactions == t.transactions;
      InsertIsExact(linked.value, row);
    }
  }

  /** A recorded purchase is one new row, for the user who holds the wallet, and the one
      discovery it names is now that user's; nothing else changes. */
  lemma RecordedPurchase(r: Registry, t: Tables, input: Submission, purchase: Purchase, newUser: Id, newId: Id)
    requires RecordTransaction(r, t, input, purchase, newUser, newId).0.Ok?
    ensures var t' := RecordTransaction(r, t, input, purchase, newUser, newId).1;
      exists asset <- r.assets ::
        InstrumentOf(r, asset, input.companySlug) && PurchaseRecorded(t, t', input, purchase, newUser, newId, asset)
  {
    var asset, user, t1, t2, row := RecordStages(r, t, input, purchase, newUser, newId);
    InstrumentIsExact(r, input.companySlug);
    if input.discovery.Some? {
      LinkLinks(t1, input.discovery.value, user, asset.company);
    }
    assert PurchaseRecorded(t, InsertTransaction(t2, row).value, input, purchase, newUser, newId, asset);
  }

  ghost predicate PurchaseRecorded(t: Tables, t': Tables, input: Submission, purchase: Purchase,
                                   newUser: Id, newId: Id, asset: Asset) {
    var user := Buyer(t, input.wallet, newUser);
    && t'.transactions == t.transactions +
       [Transaction(newId, user, asset.company, input.discovery, asset.id, input.txHash, purchase, asset.network)]
    && t'.identities == t.identities
    && t'.users == (if exists i :: 0 <= i < |t.users| && t.users[i].wallet == Some(input.wallet) then t.users
                    else t.users + [User(newUser, None, None, Some(input.wallet))])
    && (if input.discovery.None? then t'.discoveries == t.discoveries
        else Linked(t.discoveries, t'.discoveries, input.discovery.value, user, asset.company))
  }

  // Every owned discovery was bought

  ghost predicate BoughtFrom(transactions: seq<Transaction>, d: Discovery) {
    exists j :: 0 <= j < |transactions| && transactions[j].discovery == Some(d.id)
                && Some(transactions[j].user) == d.user && transactions[j].company == d.company
  }

  /** A discovery that has an owner led that owner to a purchase from its company. */
  ghost predicate OwnersBought(t: Tables) {
    forall i :: 0 <= i < |t.discoveries| && t.discoveries[i].user.Some? ==> BoughtFrom(t.transactions, t.discoveries[i])
  }

  lemma LinkedAt(before: seq<Discovery>, after: seq<Discovery>, discovery: Id, user: Id, company: Id, i: nat)
    requires Linked(before, after, discovery, user, company) && i < |after|
    ensures i < |before|
    ensures after[i] == before[i]
            || (after[i].id == discovery && after[i].user == Some(user) && after[i].company == company)
  {
  }

  lemma MoreWasBought(transactions: seq<Transaction>, row: Transaction, d: Discovery)
    ensures BoughtFrom(transactions, d) ==> BoughtFrom(transactions + [row], d)
    ensures Some(row.user) == d.user && row.company == d.company && row.discovery == Some(d.id) ==>
              BoughtFrom(transactions + [row], d)
  {
    assert (transactions + [row])[|transactions|] == row;
    if BoughtFrom(transactions, d) {
      var j :| 0 <= j < |transactions| && transactions[j].discovery == Some(d.id)
               && Some(transactions[j].user) == d.user && transactions[j].company == d.company;
      assert (transactions + [row])[j] == transactions[j];
    }
  }

  lemma RecordKeepsBought(r: Registry, t: Tables, input: Submission, purchase: Purchase, newUser: Id, newId: Id)
    requires OwnersBought(t) && RecordTransaction(r, t, input, purchase, newUser, newId).0.Ok?
    ensures OwnersBought(RecordTransaction(r, t, input, purchase, newUser, newId).1)
  {
    RecordedPurchase(r, t, input, purchase, newUser, newId);
    var t' := RecordTransaction(r, t, input, purchase, newUser, newId).1;
    var asset :| asset in r.assets && PurchaseRecorded(t, t', input, purchase, newUser, newId, asset);
    var row := t'.transactions[|t.transactions|];
    forall i | 0 <= i < |t'.discoveries| && t'.discoveries[i].user.Some?
      ensures BoughtFrom(t'.transactions, t'.discoveries[i])
    {
      if input.discovery.Some? {
        LinkedAt(t.discoveries, t'.discoveries, input.discovery.value, row.user, row.company, i);
      }
      MoreWasBought(t.transactions, row, t'.discoveries[i]);
    }
  }

  lemma StepKeepsBought(r: Registry, t: Tables, q: Request)
    requires Sound(r, t) && OwnersBought(t)
    ensures OwnersBought(Step(r, t, q))
  {
    if Rejected(r, t, q) {
      RejectedChangesNothing(r, t, q);
    } else if q.Record? {
      RecordKeepsBought(r, t, q.input, q.purchase, q.newUser, q.newId);
    } else {
      assert Step(r, t, q).transactions == t.transactions;
    }
  }

  /** Over every run, from empty tables in particular: whoever owns a discovery has bought
      from its company through it. */
  lemma {:induction false} RunKeepsBought(r: Registry, t: Tables, requests: seq<Request>)
    requires Sound(r, t) && OwnersBought(t)
    ensures OwnersBought(Run(r, t, requests))
    decreases requests
  {
    if requests != [] {
      StepKeepsSound(r, t, requests[0]);
      StepKeepsBought(r, t, requests[0]);
      RunKeepsBought(r, Step(r, t, requests[0]), requests[1..]);
    }
  }
}
