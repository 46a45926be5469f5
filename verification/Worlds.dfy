/** A wallet's summary: what it holds, company by company, and how it found each. */
module Worlds {
  import opened Options
  import opened Relational
  import opened RelationalProofs

  datatype Key = Key(slug: string, name: string, ticker: string, symbol: string)
  datatype Holding = Holding(key: Key, purchase: Purchase)
  datatype Row = Row(key: Key, investedUsdc: int, tokenAmount: int)
  datatype Context = Context(slug: string, how: Method, source: string)
  datatype Position = Position(row: Row, discoveries: seq<Context>)
  datatype Summary = Summary(totalOwnedUsdc: int, companyCount: nat, discoveryCount: nat, companies: seq<Position>)

  // The two queries

  predicate OwnedByWallet(t: Tables, user: Id, wallet: string) {
    var i := UserById(t, user);
    i.Some? && t.users[i.value].wallet == Some(wallet)
  }

  /** The joins of the first query: the wallet's transactions with their company and asset. */
  function Holdings(r: Registry, t: Tables, wallet: string, transactions: seq<Transaction>): seq<Holding> {
    if transactions == [] then []
    else
      var x, rest := transactions[0], Holdings(r, t, wallet, transactions[1..]);
      var company := CompanyById(r, x.company);
      var asset := Find(r.assets, (a: Asset) => a.id == x.asset);
      if OwnedByWallet(t, x.user, wallet) && company.Some? && asset.Some? then
        var c, a := r.companies[company.value], r.assets[asset.value];
        [Holding(Key(c.slug, c.name, c.ticker, a.symbol), x.purchase)] + rest
      else rest
  }

  /** What is added up: the payments, or the tokens bought. */
  datatype Measure = Usdc | Tokens
  {
    function Of(p: Purchase): int {
      if Usdc? then p.amountUsdc else p.tokenAmount
    }

    function In(row: Row): int {
      if Usdc? then row.investedUsdc else row.tokenAmount
    }
  }

  function SumOf(m: Measure, holdings: seq<Holding>, key: Key): int {
    if holdings == [] then 0
    else (if holdings[0].key == key then m.Of(holdings[0].purchase) else 0) + SumOf(m, holdings[1..], key)
  }

  ghost predicate HasRow(rows: seq<Row>, key: Key) {
    exists i :: 0 <= i < |rows| && rows[i].key == key
  }

  /** An answer to the grouping query: one row per key that occurs, with its sums, in falling
      order of the amount invested; equal amounts come in any order. */
  ghost predicate Grouped(holdings: seq<Holding>, rows: seq<Row>) {
    && (forall i, j :: 0 <= i < j < |rows| ==> rows[i].key != rows[j].key && rows[i].investedUsdc >= rows[j].investedUsdc)
    && (forall i :: 0 <= i < |rows| ==>
          && rows[i].investedUsdc == SumOf(Usdc, holdings, rows[i].key)
          && rows[i].tokenAmount == SumOf(Tokens, holdings, rows[i].key)
          && exists j :: 0 <= j < |holdings| && holdings[j].key == rows[i].key)
    && (forall j :: 0 <= j < |holdings| ==> HasRow(rows, holdings[j].key))
  }

  /** The second query: where the wallet's discoveries came from. */
  function Contexts(r: Registry, t: Tables, wallet: string, discoveries: seq<Discovery>): seq<Context> {
    if discoveries == [] then []
    else
      var d, rest := discoveries[0], Contexts(r, t, wallet, discoveries[1..]);
      var company := CompanyById(r, d.company);
      if d.user.Some? && OwnedByWallet(t, d.user.value, wallet) && company.Some? then
        [Context(r.companies[company.value].slug, d.how, d.source)] + rest
      else rest
  }

  // The summary

  function ContextsOf(contexts: seq<Context>, slug: string): seq<Context> {
    if contexts == [] then []
    else
      var last := contexts[|contexts| - 1];
      ContextsOf(contexts[..|contexts| - 1], slug) + if last.slug == slug then [last] else []
  }

  /** One of the first `n` rows is the company's. */
  predicate Mentioned(rows: seq<Row>, n: nat, slug: string)
    requires n <= |rows|
  {
    exists i :: 0 <= i < n && rows[i].key.slug == slug
  }

  function Sum(m: Measure, rows: seq<Row>): int {
    if rows == [] then 0 else m.In(rows[0]) + Sum(m, rows[1..])
  }

  /** The first row of a company gets all its contexts, in order; later ones get none. */
  function ContextsAt(rows: seq<Row>, contexts: seq<Context>, i: nat): seq<Context>
    requires i < |rows|
  {
    if Mentioned(rows, i, rows[i].key.slug) then [] else ContextsOf(contexts, rows[i].key.slug)
  }

  predicate ContextsPlaced(rows: seq<Row>, contexts: seq<Context>, positions: seq<Position>) {
    && |positions| <= |rows|
    && forall i :: 0 <= i < |positions| ==>
         positions[i].row == rows[i] && positions[i].discoveries == ContextsAt(rows, contexts, i)
  }

  /** What the map holds after some contexts have been filed under their companies. */
  ghost predicate Filed(contexts: seq<Context>, byCompany: map<string, seq<Context>>) {
    forall slug ::
      if slug in byCompany then byCompany[slug] == ContextsOf(contexts, slug) else ContextsOf(contexts, slug) == []
  }

  /** What is left of the map after the first `n` rows have taken their contexts out. */
  ghost predicate Drained(contexts: seq<Context>, rows: seq<Row>, n: nat, byCompany: map<string, seq<Context>>)
    requires n <= |rows|
  {
    forall slug ::
      if slug in byCompany then !Mentioned(rows, n, slug) && byCompany[slug] == ContextsOf(contexts, slug)
      else Mentioned(rows, n, slug) || ContextsOf(contexts, slug) == []
  }

  method FileContexts(contexts: seq<Context>) returns (byCompany: map<string, seq<Context>>)
    ensures Filed(contexts, byCompany)
  {
    byCompany := map[];
    for i := 0 to |contexts|
      invariant Filed(contexts[..i], byCompany)
    {
      var c := contexts[i];
      assert contexts[..i + 1][..i] == contexts[..i];
      var before := if c.slug in byCompany then byCompany[c.slug] else [];
      byCompany := byCompany[c.slug := before + [c]];
    }
    assert contexts[..|contexts|] == contexts;
  }

  method PlaceContexts(rows: seq<Row>, ghost contexts: seq<Context>, filed: map<string, seq<Context>>)
    returns (positions: seq<Position>)
    requires Filed(contexts, filed)
    ensures |positions| == |rows| && ContextsPlaced(rows, contexts, positions)
  {
    var byCompany := filed;
    positions := [];
    for i := 0 to |rows|
      invariant |positions| == i && ContextsPlaced(rows, contexts, positions)
      invariant Drained(contexts, rows, i, byCompany)
    {
      var slug := rows[i].key.slug;
      var discoveries := if slug in byCompany then byCompany[slug] else [];
      assert discoveries == ContextsAt(rows, contexts, i);
      PlacedNext(rows, contexts, positions);
      positions := positions + [Position(rows[i], discoveries)];
      DrainedNext(contexts, rows, i, byCompany);
      byCompany := byCompany - {slug};
    }
  }

  lemma PlacedNext(rows: seq<Row>, contexts: seq<Context>, positions: seq<Position>)
    requires ContextsPlaced(rows, contexts, positions) && |positions| < |rows|
    ensures var i := |positions|;
      ContextsPlaced(rows, contexts, positions + [Position(rows[i], ContextsAt(rows, contexts, i))])
  {
    var n := |positions|;
    var next := positions + [Position(rows[n], ContextsAt(rows, contexts, n))];
    assert forall i :: 0 <= i < n ==> next[i] == positions[i];
  }

  lemma DrainedNext(contexts: seq<Context>, rows: seq<Row>, i: nat, byCompany: map<string, seq<Context>>)
    requires i < |rows| && Drained(contexts, rows, i, byCompany)
    ensures Drained(contexts, rows, i + 1, byCompany - {rows[i].key.slug})
  {
    MentionedNext(rows, i);
  }

  /** `rows` and `contexts` are what the two queries answered. The total is all that the
      wallet's holder ever spent, and the rows' tokens are all that it ever bought. */
  method World(r: Registry, t: Tables, wallet: string, rows: seq<Row>, contexts: seq<Context>) returns (s: Summary)
    requires Sound(r, t)
    requires Grouped(Holdings(r, t, wallet, t.transactions), rows)
    requires multiset(contexts) == multiset(Contexts(r, t, wallet, t.discoveries))
    ensures s.totalOwnedUsdc == Bought(Usdc, t, wallet, t.transactions)
    ensures Sum(Tokens, rows) == Bought(Tokens, t, wallet, t.transactions)
    ensures s.companyCount == |rows| && s.discoveryCount == |Contexts(r, t, wallet, t.discoveries)|
    ensures |s.companies| == |rows| && ContextsPlaced(rows, contexts, s.companies)
  {
    var byCompany := FileContexts(contexts);
    var positions := PlaceContexts(rows, contexts, byCompany);
    RowsConserve(Usdc, r, t, wallet, rows);
    RowsConserve(Tokens, r, t, wallet, rows);
    assert |contexts| == |multiset(contexts)|;
    return Summary(Sum(Usdc, rows), |positions|, |contexts|, positions);
  }

  lemma MentionedNext(rows: seq<Row>, i: nat)
    requires i < |rows|
    ensures forall slug :: Mentioned(rows, i + 1, slug) <==> Mentioned(rows, i, slug) || slug == rows[i].key.slug
  {
    forall slug | Mentioned(rows, i, slug) || slug == rows[i].key.slug ensures Mentioned(rows, i + 1, slug) {
      var j :| 0 <= j <= i && rows[j].key.slug == slug;
    }
  }

  // Money

  /** The user holds the wallet. */
  ghost predicate Holds(t: Tables, user: Id, wallet: string) {
    exists i :: 0 <= i < |t.users| && t.users[i].id == user && t.users[i].wallet == Some(wallet)
  }

  lemma OwnedIsHeld(r: Registry, t: Tables, user: Id, wallet: string)
    requires Sound(r, t)
    ensures OwnedByWallet(t, user, wallet) <==> Holds(t, user, wallet)
  {
  }

  /** All that the wallet's holder ever paid, or bought. */
  ghost function Bought(m: Measure, t: Tables, wallet: string, transactions: seq<Transaction>): int {
    if transactions == [] then 0
    else
      (if Holds(t, transactions[0].user, wallet) then m.Of(transactions[0].purchase) else 0)
      + Bought(m, t, wallet, transactions[1..])
  }

  function Total(m: Measure, holdings: seq<Holding>): int {
    if holdings == [] then 0 else m.Of(holdings[0].purchase) + Total(m, holdings[1..])
  }

  /** A transaction of the wallet's holder is one holding, under its company and asset; the
      others are none. */
  lemma HoldingOfOne(r: Registry, t: Tables, wallet: string, x: Transaction)
    requires Sound(r, t) && Registered(r, x)
    ensures var holdings := Holdings(r, t, wallet, [x]);
      if Holds(t, x.user, wallet) then
        && |holdings| == 1 && holdings[0].purchase == x.purchase
        && exists c <- r.companies, a <- r.assets ::
             c.id == x.company && a.id == x.asset && holdings[0].key == Key(c.slug, c.name, c.ticker, a.symbol)
      else holdings == []
  {
    OwnedIsHeld(r, t, x.user, wallet);
    FoundInRegistry(r, x);
    var c, a := r.companies[CompanyById(r, x.company).value], r.assets[Find(r.assets, (a: Asset) => a.id == x.asset).value];
    assert [x][1..] == [];
    assert c in r.companies && a in r.assets;
  }

  lemma FoundInRegistry(r: Registry, x: Transaction)
    requires Registered(r, x)
    ensures CompanyById(r, x.company).Some? && Find(r.assets, (a: Asset) => a.id == x.asset).Some?
  {
    var a :| a in r.assets && a.id == x.asset && a.company == x.company && a.network == x.network && IsInstrument(r, a);
    var c :| c in r.companies && c.id == a.company;
  }

  lemma {:induction false} HoldingsOfConcat(r: Registry, t: Tables, wallet: string, xs: seq<Transaction>, ys: seq<Transaction>)
    ensures Holdings(r, t, wallet, xs + ys) == Holdings(r, t, wallet, xs) + Holdings(r, t, wallet, ys)
  {
    if xs == [] {
      assert xs + ys == ys;
    } else {
      assert (xs + ys)[1..] == xs[1..] + ys;
      HoldingsOfConcat(r, t, wallet, xs[1..], ys);
    }
  }

  /** The joins drop no transaction of the wallet. */
  lemma {:induction false} HoldingsConserve(m: Measure, r: Registry, t: Tables, wallet: string, transactions: seq<Transaction>)
    requires Sound(r, t) && forall i :: 0 <= i < |transactions| ==> Registered(r, transactions[i])
    ensures Total(m, Holdings(r, t, wallet, transactions)) == Bought(m, t, wallet, transactions)
  {
    if transactions != [] {
      var x, rest := transactions[0], transactions[1..];
      HoldingsConserve(m, r, t, wallet, rest);
      assert Registered(r, x);
      HoldingOfOne(r, t, wallet, x);
      HoldingsOfConcat(r, t, wallet, [x], rest);
      assert transactions == [x] + rest;
      TotalOfConcat(m, Holdings(r, t, wallet, [x]), Holdings(r, t, wallet, rest));
    }
  }

  lemma TotalOfConcat(m: Measure, first: seq<Holding>, holdings: seq<Holding>)
    requires |first| <= 1
    ensures Total(m, first + holdings) == (if first == [] then 0 else m.Of(first[0].purchase)) + Total(m, holdings)
  {
    if first == [] {
      assert first + holdings == holdings;
    } else {
      assert (first + holdings)[1..] == holdings;
    }
  }

  function Without(holdings: seq<Holding>, key: Key): seq<Holding> {
    if holdings == [] then []
    else
      var rest := Without(holdings[1..], key);
      if holdings[0].key == key then rest else [holdings[0]] + rest
  }

  lemma {:induction false} TotalWithout(m: Measure, holdings: seq<Holding>, key: Key)
    ensures Total(m, holdings) == SumOf(m, holdings, key) + Total(m, Without(holdings, key))
  {
    if holdings != [] {
      TotalWithout(m, holdings[1..], key);
    }
  }

  lemma {:induction false} SumWithout(m: Measure, holdings: seq<Holding>, key: Key, other: Key)
    requires other != key
    ensures SumOf(m, Without(holdings, key), other) == SumOf(m, holdings, other)
  {
    if holdings != [] {
      SumWithout(m, holdings[1..], key, other);
    }
  }

  lemma {:induction false} WithoutKey(holdings: seq<Holding>, key: Key)
    ensures |Without(holdings, key)| <= |holdings|
    ensures forall h :: h in Without(holdings, key) <==> h in holdings && h.key != key
  {
    if holdings != [] {
      WithoutKey(holdings[1..], key);
    }
  }

  /** Rows with distinct keys that cover all holdings add up to all of them. */
  lemma {:induction false} CoveringRowsConserve(m: Measure, holdings: seq<Holding>, rows: seq<Row>)
    requires forall i, j :: 0 <= i < j < |rows| ==> rows[i].key != rows[j].key
    requires forall i :: 0 <= i < |rows| ==> m.In(rows[i]) == SumOf(m, holdings, rows[i].key)
    requires forall j :: 0 <= j < |holdings| ==> HasRow(rows, holdings[j].key)
    ensures Sum(m, rows) == Total(m, holdings)
    decreases rows
  {
    if rows != [] {
      var rest := Without(holdings, rows[0].key);
      WithoutKey(holdings, rows[0].key);
      TotalWithout(m, holdings, rows[0].key);
      forall i | 0 <= i < |rows| - 1 ensures m.In(rows[1..][i]) == SumOf(m, rest, rows[1..][i].key) {
        SumWithout(m, holdings, rows[0].key, rows[i + 1].key);
      }
      forall j | 0 <= j < |rest| ensures HasRow(rows[1..], rest[j].key) {
        assert rest[j] in holdings && HasRow(rows, rest[j].key);
        var i :| 0 <= i < |rows| && rows[i].key == rest[j].key;
        assert rows[1..][i - 1].key == rest[j].key;
      }
      CoveringRowsConserve(m, rest, rows[1..]);
    }
  }

  /** The rows of the summary add up to all that the wallet's holder ever paid and bought. */
  lemma RowsConserve(m: Measure, r: Registry, t: Tables, wallet: string, rows: seq<Row>)
    requires Sound(r, t) && Grouped(Holdings(r, t, wallet, t.transactions), rows)
    ensures Sum(m, rows) == Bought(m, t, wallet, t.transactions)
  {
    var holdings := Holdings(r, t, wallet, t.transactions);
    forall i | 0 <= i < |rows| ensures m.In(rows[i]) == SumOf(m, holdings, rows[i].key) {
      assert rows[i].investedUsdc == SumOf(Usdc, holdings, rows[i].key);
    }
    CoveringRowsConserve(m, holdings, rows);
    HoldingsConserve(m, r, t, wallet, t.transactions);
  }

  // An answer to the grouping query

  function RowOf(holdings: seq<Holding>, key: Key): (row: Row)
    ensures row.key == key
  {
    Row(key, SumOf(Usdc, holdings, key), SumOf(Tokens, holdings, key))
  }

  ghost predicate Falling(rows: seq<Row>) {
    forall i, j :: 0 <= i < j < |rows| ==> rows[i].key != rows[j].key && rows[i].investedUsdc >= rows[j].investedUsdc
  }

  function Insert(row: Row, rows: seq<Row>): seq<Row> {
    if rows == [] || row.investedUsdc >= rows[0].investedUsdc then [row] + rows
    else [rows[0]] + Insert(row, rows[1..])
  }

  lemma {:induction false} InsertKeepsFalling(row: Row, rows: seq<Row>)
    requires Falling(rows) && forall x :: x in rows ==> x.key != row.key
    ensures Falling(Insert(row, rows))
    ensures forall x :: x in Insert(row, rows) <==> x == row || x in rows
  {
    if rows != [] && row.investedUsdc < rows[0].investedUsdc {
      InsertKeepsFalling(row, rows[1..]);
      var rest := Insert(row, rows[1..]);
      forall j | 0 <= j < |rest| ensures rest[j].key != rows[0].key && rest[j].investedUsdc <= rows[0].investedUsdc {
        assert rest[j] in rest;
      }
    }
  }

  /** The grouping query has an answer for whatever is held. */
  lemma {:induction false} GroupedExists(holdings: seq<Holding>) returns (rows: seq<Row>)
    ensures Grouped(holdings, rows)
    decreases |holdings|
  {
    rows := [];
    if holdings != [] {
      var key := holdings[0].key;
      var rest := Without(holdings, key);
      WithoutKey(holdings, key);
      WithoutKey(holdings[1..], key);
      var others := GroupedExists(rest);
      GroupedNext(holdings, key, rest, others);
      rows := Insert(RowOf(holdings, key), others);
    }
  }

  lemma KeyHasRow(holdings: seq<Holding>, key: Key, others: seq<Row>, rows: seq<Row>, h: Holding)
    requires h in holdings && (forall x :: x in others ==> x in rows) && exists x :: x in rows && x.key == key
    requires forall j :: 0 <= j < |Without(holdings, key)| ==> HasRow(others, Without(holdings, key)[j].key)
    ensures HasRow(rows, h.key)
  {
    WithoutKey(holdings, key);
    if h.key == key {
      var x :| x in rows && x.key == key;
    } else {
      var k :| 0 <= k < |Without(holdings, key)| && Without(holdings, key)[k] == h;
      assert HasRow(others, h.key);
      var i :| 0 <= i < |others| && others[i].key == h.key;
      assert others[i] in rows;
    }
  }

  lemma GroupedNext(holdings: seq<Holding>, key: Key, rest: seq<Holding>, others: seq<Row>)
    requires holdings != [] && key == holdings[0].key && rest == Without(holdings, key) && Grouped(rest, others)
    ensures Grouped(holdings, Insert(RowOf(holdings, key), others))
  {
    var row := RowOf(holdings, key);
    var rows := Insert(row, others);
    WithoutKey(holdings, key);
    forall x | x in others
      ensures x.key != key && x == RowOf(holdings, x.key)
      ensures exists h :: h in holdings && h.key == x.key
    {
      var i :| 0 <= i < |others| && others[i] == x;
      var j :| 0 <= j < |rest| && rest[j].key == others[i].key;
      assert rest[j] in rest;
      SumWithout(Usdc, holdings, key, x.key);
      SumWithout(Tokens, holdings, key, x.key);
    }
    InsertKeepsFalling(row, others);
    assert row in rows;
    forall i | 0 <= i < |rows|
      ensures rows[i] == RowOf(holdings, rows[i].key)
      ensures exists j :: 0 <= j < |holdings| && holdings[j].key == rows[i].key
    {
      assert rows[i] in rows;
    }
    forall j | 0 <= j < |holdings| ensures HasRow(rows, holdings[j].key) {
      KeyHasRow(holdings, key, others, rows, holdings[j]);
    }
  }

  // Contexts

  lemma {:induction false} FiledInOrder(xs: seq<Context>, ys: seq<Context>, slug: string)
    ensures ContextsOf(xs + ys, slug) == ContextsOf(xs, slug) + ContextsOf(ys, slug)
  {
    if ys == [] {
      assert xs + ys == xs;
    } else {
      var n := |ys| - 1;
      assert (xs + ys)[..|xs| + n] == xs + ys[..n];
      FiledInOrder(xs, ys[..n], slug);
    }
  }

  /** A discovery of the wallet's holder is one context, under its company; the others are none. */
  lemma ContextOfOne(r: Registry, t: Tables, wallet: string, d: Discovery)
    requires Sound(r, t) && IsCompany(r, d.company)
    ensures var contexts := Contexts(r, t, wallet, [d]);
      if d.user.Some? && Holds(t, d.user.value, wallet) then
        exists c <- r.companies :: c.id == d.company && contexts == [Context(c.slug, d.how, d.source)]
      else contexts == []
  {
    if d.user.Some? {
      OwnedIsHeld(r, t, d.user.value, wallet);
    }
    assert [d][1..] == [];
    assert r.companies[CompanyById(r, d.company).value] in r.companies;
  }

  lemma {:induction false} ContextsOfConcat(r: Registry, t: Tables, wallet: string, xs: seq<Discovery>, ys: seq<Discovery>)
    ensures Contexts(r, t, wallet, xs + ys) == Contexts(r, t, wallet, xs) + Contexts(r, t, wallet, ys)
  {
    if xs == [] {
      assert xs + ys == ys;
    } else {
      assert (xs + ys)[1..] == xs[1..] + ys;
      ContextsOfConcat(r, t, wallet, xs[1..], ys);
    }
  }

  /** All contexts that the positions show, row by row. */
  function Shown(positions: seq<Position>): seq<Context> {
    if positions == [] then []
    else Shown(positions[..|positions| - 1]) + positions[|positions| - 1].discoveries
  }

  /** The contexts whose company has one of the first `n` rows. */
  function Showable(contexts: seq<Context>, rows: seq<Row>, n: nat): seq<Context>
    requires n <= |rows|
  {
    if contexts == [] then []
    else
      var last := contexts[|contexts| - 1];
      Showable(contexts[..|contexts| - 1], rows, n) + if Mentioned(rows, n, last.slug) then [last] else []
  }

  lemma {:induction false} ShowableNext(contexts: seq<Context>, rows: seq<Row>, i: nat)
    requires i < |rows|
    ensures multiset(Showable(contexts, rows, i + 1)) ==
            multiset(Showable(contexts, rows, i)) + multiset(ContextsAt(rows, contexts, i))
    decreases contexts
  {
    if contexts != [] {
      ShowableNext(contexts[..|contexts| - 1], rows, i);
      MentionedNext(rows, i);
    }
  }

  lemma {:induction false} NothingShowable(contexts: seq<Context>, rows: seq<Row>)
    ensures Showable(contexts, rows, 0) == []
  {
    if contexts != [] {
      NothingShowable(contexts[..|contexts| - 1], rows);
    }
  }

  lemma {:induction false} AllShowable(contexts: seq<Context>, rows: seq<Row>)
    requires forall k :: 0 <= k < |contexts| ==> Mentioned(rows, |rows|, contexts[k].slug)
    ensures Showable(contexts, rows, |rows|) == contexts
  {
    if contexts != [] {
      var n := |contexts| - 1;
      var before := contexts[..n];
      AllShowable(before, rows);
      assert Mentioned(rows, |rows|, contexts[n].slug);
      assert contexts == before + [contexts[n]];
    }
  }

  /** Between them the rows show every context whose company has a row exactly as often as it
      was found, and no other. */
  lemma {:induction false} ContextsShownOnce(rows: seq<Row>, contexts: seq<Context>, positions: seq<Position>)
    requires ContextsPlaced(rows, contexts, positions)
    ensures multiset(Shown(positions)) == multiset(Showable(contexts, rows, |positions|))
    decreases positions
  {
    if positions == [] {
      NothingShowable(contexts, rows);
    } else {
      var n := |positions| - 1;
      ContextsShownOnce(rows, contexts, positions[..n]);
      ShowableNext(contexts, rows, n);
    }
  }

  lemma {:induction false} ContextsOfCompany(contexts: seq<Context>, slug: string)
    ensures forall c :: c in ContextsOf(contexts, slug) ==> c.slug == slug
  {
    if contexts != [] {
      ContextsOfCompany(contexts[..|contexts| - 1], slug);
    }
  }

  /** No two rows show contexts of one company, let alone the same context. */
  lemma RowsShareNoContext(rows: seq<Row>, contexts: seq<Context>, positions: seq<Position>, i: nat, j: nat)
    requires ContextsPlaced(rows, contexts, positions) && i < j < |positions|
    ensures forall c, d :: c in positions[i].discoveries && d in positions[j].discoveries ==> c.slug != d.slug
  {
    ContextsOfCompany(contexts, rows[i].key.slug);
    ContextsOfCompany(contexts, rows[j].key.slug);
  }

  // Every discovery of the wallet is shown

  /** A context comes from a discovery that a user of this wallet owns. */
  lemma {:induction false} ContextComesFrom(r: Registry, t: Tables, wallet: string, discoveries: seq<Discovery>, c: Context)
    returns (i: nat)
    requires c in Contexts(r, t, wallet, discoveries)
    ensures i < |discoveries| && discoveries[i].user.Some? && OwnedByWallet(t, discoveries[i].user.value, wallet)
    ensures var company := CompanyById(r, discoveries[i].company); company.Some? && r.companies[company.value].slug == c.slug
  {
    var rest := Contexts(r, t, wallet, discoveries[1..]);
    if c in rest {
      var k := ContextComesFrom(r, t, wallet, discoveries[1..], c);
      i := k + 1;
    } else {
      i := 0;
    }
  }

  /** A purchase of the wallet is among its holdings, under its company. */
  lemma {:induction false} PurchaseIsHeld(r: Registry, t: Tables, wallet: string, transactions: seq<Transaction>, j: nat)
    returns (h: nat)
    requires j < |transactions| && Registered(r, transactions[j]) && OwnedByWallet(t, transactions[j].user, wallet)
    ensures var holdings := Holdings(r, t, wallet, transactions);
      && h < |holdings|
      && holdings[h].key.slug == r.companies[CompanyById(r, transactions[j].company).value].slug
  {
    if j == 0 {
      h := 0;
    } else {
      var k := PurchaseIsHeld(r, t, wallet, transactions[1..], j - 1);
      var n := |Holdings(r, t, wallet, transactions)| - |Holdings(r, t, wallet, transactions[1..])|;
      h := k + n;
    }
  }

  lemma ContextHasRow(r: Registry, t: Tables, wallet: string, rows: seq<Row>, c: Context)
    requires Sound(r, t) && OwnersBought(t) && Grouped(Holdings(r, t, wallet, t.transactions), rows)
    requires c in Contexts(r, t, wallet, t.discoveries)
    ensures Mentioned(rows, |rows|, c.slug)
  {
    var i := ContextComesFrom(r, t, wallet, t.discoveries, c);
    var d := t.discoveries[i];
    assert BoughtFrom(t.transactions, d);
    var j :| 0 <= j < |t.transactions| && t.transactions[j].discovery == Some(d.id)
             && Some(t.transactions[j].user) == d.user && t.transactions[j].company == d.company;
    var h := PurchaseIsHeld(r, t, wallet, t.transactions, j);
    assert HasRow(rows, Holdings(r, t, wallet, t.transactions)[h].key);
  }

  /** In every state reachable from empty tables, a wallet's summary shows all its
      discoveries, each as often as it was made: none is counted without being shown. */
  lemma EveryDiscoveryIsShown(r: Registry, requests: seq<Request>, wallet: string,
                              rows: seq<Row>, contexts: seq<Context>, positions: seq<Position>)
    requires var t := Run(r, EMPTY, requests);
      && Grouped(Holdings(r, t, wallet, t.transactions), rows)
      && multiset(contexts) == multiset(Contexts(r, t, wallet, t.discoveries))
    requires |positions| == |rows| && ContextsPlaced(rows, contexts, positions)
    ensures multiset(Shown(positions)) == multiset(contexts)
  {
    var t := Run(r, EMPTY, requests);
    RunKeepsSound(r, EMPTY, requests);
    RunKeepsBought(r, EMPTY, requests);
    forall k | 0 <= k < |contexts| ensures Mentioned(rows, |rows|, contexts[k].slug) {
      assert contexts[k] in multiset(contexts);
      ContextHasRow(r, t, wallet, rows, contexts[k]);
    }
    AllShowable(contexts, rows);
    ContextsShownOnce(rows, contexts, positions);
  }
}
