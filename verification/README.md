# Tickerless, modelled and proved

A Dafny model of the parts of Tickerless that move value or decide who owns what, with proofs
about all their inputs and all their runs.

- **Market and tokens** (`Evm`, `DemoTokens`, `PaymentTokens`, `Pricing`, `Market`, `MarketRuns`,
  `MarketContract`). The ERC-20 ledgers with their unchecked subtraction and their events, the
  one-time faucet and the fixed-price market. Each contract is a class whose methods change its
  fields step by step and roll back on a revert; each method is proved equal to a function on the
  contract's storage, and the results are lemmas about runs of those functions.
- **The market among arbitrary tokens** (`Reentrancy`, `DemoRuns`). A machine in which a token
  call is any code: it may call back to any depth, swallow reverts, emit logs, fail. A revert
  restores the storage, logs included. Every buy among demo tokens is one of its runs, the
  tokens' own events included.
- **The purchase verifier** (`Hex`, `Verifier`, `AbiEncoding`, `EndToEnd`). The API's decoding of
  calldata and logs, the Solidity Contract ABI Specification's encodings (sections "Formal
  Specification of the Encoding" and "Events"), and all of it composed: from what moved on the
  ledgers, through the receipt's text, to the verdict and the row it is recorded in.
- **Company resolution** (`Text`, `Catalog`, `Roles`, `Lens`, `Link`). Normalisation, phrase
  matching, scoring, the stable search, query expansion from camera labels, and link merging.
- **The database** (`Relational`, `RelationalProofs`, `Database`, `Worlds`). Users, wallets,
  Google identities, discoveries and transactions under their constraints, each function one
  transaction, and the wallet summary.
- **The masonry layout** (`Masonry`), over reals.

`dafny verify dfyconfig.toml` checks the whole project.

## Assumptions

- Only the market's own code calls from the market's address, no token lives there, and the owner
  does not list the payment token as an asset. The value results are about `DemoToken` behaviour;
  the reentrancy and verification results are about any token.
- Strings in the verifier are ASCII. The event topics are distinct hashes; only the `Purchased`
  topic and the `buy` selector are concrete.
- Letters, digits and whitespace are any classes in which ASCII letters are alphanumeric, the
  space is whitespace and nothing is both.
- Database functions are atomic. Fresh identifiers are inputs; one that is already in use is a
  primary-key failure. Case folding of emails is any function.
- RPC answers, the title and text of a page, and the rows PostgreSQL returns are inputs. Of the
  rows only what the query means is assumed, so equal sums may come in any order.

## Where the code differs from its intent

- `VerifyError::Pending` is never returned. A null result for a transaction that is not mined is
  consumed by the response's own optional field, so the answer is `Rpc` (`AbiEncoding.NeverPending`).
- Amounts from 2^96 up to 2^127 make the decimal conversion panic instead of being refused.
  `EndToEnd.WideAmountPanics` gives a purchase for every such amount; `EndToEnd.BuyIsVerified`
  proves the verdict for all amounts, so exactly when it panics.
- A phrase that normalises to nothing matches exactly the text that normalises to nothing
  (`Catalog.MentionsIsPhrase`).

## Model

| member | source | states |
|---|---|---|
| DemoTokens.DeployedIsTold | contracts/src/DemoToken.sol:19-21 | over every run from deployment the events alone determine every balance, every allowance, the supply and the owner |
| DemoTokens.OnlyTheOwnerMints | contracts/src/DemoToken.sol:31-34 | whatever everybody but the owner does, the supply and the owner stay |
| DemoTokens.MoveIsExact | contracts/src/DemoToken.sol:80-89 | in a backed ledger a transfer fails exactly for the zero recipient or a short balance, so the unchecked debit never wraps and the credit never overflows; otherwise it moves exactly the amount, self-transfers included |
| DemoTokens.IssueIsExact | contracts/src/DemoToken.sol:67-72 | a mint fails exactly for the zero recipient or a supply overflow and credits the recipient alone |
| DemoTokens.TransferFromIsExact | contracts/src/DemoToken.sol:47-61 | `transferFrom` succeeds exactly with enough balance, enough allowance and a recipient, moves the amount and uses only the spender's own finite allowance; otherwise it reverts for the first reason in the source's order |
| DemoTokens.TransferIsExact | contracts/src/DemoToken.sol:42-45 | the same for `transfer`, which uses no allowance |
| DemoTokens.MintIsExact | contracts/src/DemoToken.sol:63-72 | a mint succeeds exactly for the owner, to a non-zero address, short of a supply overflow, and credits the recipient alone; each failure has its reason |
| DemoTokens.OwnershipIsExact | contracts/src/DemoToken.sol:74-78 | the owner changes by the owner's own handover only, never to the zero address |
| DemoTokens.ApplyKeepsBacked | contracts/src/DemoToken.sol:36-89 | every call keeps the balances adding up to the supply, and only a mint changes the supply |
| DemoTokens.DeployedIsBacked | contracts/src/DemoToken.sol:8-12 | in every state reachable from deployment the balances add up to the supply |
| DemoTokens.AllowanceAccounting | contracts/src/DemoToken.sol:36-61 | over any run until the next approval, a finite allowance plus everything moved under it is the amount approved, and the maximal allowance is never reduced |
| DemoTokens.DemoToken.Transfer | contracts/src/DemoToken.sol:42-45 | performs the ledger's transfer, rolling back on a revert |
| DemoTokens.DemoToken.TransferFrom | contracts/src/DemoToken.sol:47-61 | performs the ledger's `transferFrom`, the allowance write rolled back when the transfer reverts |
| DemoTokens.DemoToken.Approve | contracts/src/DemoToken.sol:36-40 | performs the ledger's approval |
| DemoTokens.DemoToken.Mint | contracts/src/DemoToken.sol:63-65 | mints for the owner only, rolling back on overflow |
| DemoTokens.DemoToken.TransferOwnership | contracts/src/DemoToken.sol:74-78 | hands over ownership, by the owner only and never to the zero address |
| DemoTokens.DemoToken.MoveBalance | contracts/src/DemoToken.sol:80-89 | the internal transfer, debit before credit |
| DemoTokens.DemoToken.MintBalance | contracts/src/DemoToken.sol:67-72 | the internal mint, supply before balance |
| DemoTokens.DemoToken.constructor | contracts/src/DemoToken.sol:23-29 | a deployed token has no supply, balances or allowances and belongs to its deployer |
| PaymentTokens.SupplyAccounting | contracts/src/DemoPaymentToken.sol:18-23 | over every run the supply is what it was, plus the owner's mints, plus 1000e6 for each address that claimed meanwhile |
| PaymentTokens.DeployedFaucetIsTold | contracts/src/DemoPaymentToken.sol:14-23 | over every run from deployment the payment token's events alone determine its ledger and who has claimed |
| PaymentTokens.OnlyClaimsAdd | contracts/src/DemoPaymentToken.sol:18-23 | while the owner does not act, the supply grows by exactly 1000e6 for each address that claims |
| PaymentTokens.WithoutClaims | contracts/src/DemoPaymentToken.sol:6-14 | apart from claims the faucet performs the token's calls as the token does |
| PaymentTokens.ClaimIsExact | contracts/src/DemoPaymentToken.sol:18-23 | a claim succeeds exactly for a non-zero address that has not claimed, short of overflow, and credits it alone with 1000e6; each failure has its reason |
| PaymentTokens.ClaimsOnce | contracts/src/DemoPaymentToken.sol:19 | after a claim, no run makes a second one succeed |
| PaymentTokens.DemoPaymentToken.Claim | contracts/src/DemoPaymentToken.sol:18-23 | performs the faucet's claim, the claimed mark rolled back when the mint reverts |
| Pricing.QuoteIsExact | contracts/src/TickerlessMarket.sol:59-65 | a payment is quoted exactly when the asset is listed, the scaled payment does not overflow and covers one unit; each failure has its reason, and the quote is the floor |
| Pricing.QuoteSellIsExact | contracts/src/TickerlessMarket.sol:67-77 | the same for a sale |
| Pricing.QuoteIsFloor | contracts/src/TickerlessMarket.sol:59-65 | the quote is the largest amount the payment covers, with the remainder named |
| Pricing.QuoteSellIsFloor | contracts/src/TickerlessMarket.sol:67-77 | the sale quote is the largest payment the tokens are worth, with the remainder named |
| Pricing.RoundTrip | contracts/src/TickerlessMarket.sol:59-77 | selling the whole output back returns the payment less exactly the rounded-up remainder, and reverts exactly when that leaves nothing |
| Pricing.RoundTripLossIsSmall | contracts/src/TickerlessMarket.sol:59-77 | the loss is at most one unit at prices up to 1e18, and zero exactly when the price divides the scaled payment |
| Pricing.SplitQuote | contracts/src/TickerlessMarket.sol:59-65 | quoting n parts gives at most the quote of the whole and at least that less n - 1; the whole is quotable unless it overflows |
| Market.BuyIsExact | contracts/src/TickerlessMarket.sol:79-91 | exactly when a buy succeeds, in terms of price, payment, minimum, inventory, funds and allowance; it then moves the payment and the most it covers in two backed ledgers and spends only the buyer's allowance |
| Market.BuyRefusal | contracts/src/TickerlessMarket.sol:79-91 | the reason of every refused buy, in the order of the checks |
| Market.SellIsExact | contracts/src/TickerlessMarket.sol:93-105 | the same for a sale |
| Market.SellRefusal | contracts/src/TickerlessMarket.sol:93-105 | the reason of every refused sale |
| Market.LockedTradesRevert | contracts/src/TickerlessMarket.sol:45-50 | while a call is in progress every trade is refused as reentrant before anything else |
| Market.SetAssetPriceIsExact | contracts/src/TickerlessMarket.sol:52-57 | the owner alone sets one price, to anything but zero; each failure has its reason |
| Market.WithdrawAssetIsExact | contracts/src/TickerlessMarket.sol:107-110 | the owner alone moves tokens out, up to the market's balance, in one ledger; each failure has its reason |
| Market.TransferMarketIsExact | contracts/src/TickerlessMarket.sol:112-116 | the owner alone hands the market over, never to the zero address |
| MarketRuns.BuyValue | contracts/src/TickerlessMarket.sol:79-91 | a buy raises the market's value by exactly the remainder of its floor division |
| MarketRuns.SellValue | contracts/src/TickerlessMarket.sol:93-105 | a sale raises it by exactly the remainder of its own |
| MarketRuns.StepValue | contracts/src/TickerlessMarket.sol:52-115 | every action, token calls and administration included, changes the value by exactly its gain |
| MarketRuns.StepKeepsValid | contracts/src/TickerlessMarket.sol:45-115 | every action keeps all ledgers backed, the lock open, and the market without granted allowances |
| MarketRuns.RunValue | contracts/src/TickerlessMarket.sol:52-115 | over every run the value is the initial one plus the gains |
| MarketRuns.ValueNeverDecreases | contracts/src/TickerlessMarket.sol:59-105 | at fixed prices and without withdrawals no run lowers the value |
| MarketRuns.OnlyTheOwnerLowersValue | contracts/src/TickerlessMarket.sol:40-57 | while the owner does not act, whatever others attempt, owner and prices stay and the value does not fall |
| MarketRuns.BuyThenSellBack | contracts/src/TickerlessMarket.sol:79-105 | on the ledgers: buy, approve the output, sell it back; it succeeds, costs the buyer exactly the rounding loss, which the market keeps, and restores every asset balance |
| MarketRuns.TokenRun | contracts/src/DemoToken.sol:36-78 | in the market's world, runs of calls to one token are that token's runs and change nothing else |
| MarketRuns.FaucetRun | contracts/src/DemoPaymentToken.sol:18-23 | the same for the payment token with its faucet |
| MarketContract.TickerlessMarket.Buy | contracts/src/TickerlessMarket.sol:79-91 | the method performs the market's buy on all storages, or leaves them as they were |
| MarketContract.TickerlessMarket.Sell | contracts/src/TickerlessMarket.sol:93-105 | the method performs the market's sale, or leaves all storages as they were |
| MarketContract.TickerlessMarket.Exchange | contracts/src/TickerlessMarket.sol:86-89 | the two token calls of a trade; both happen or neither does |
| MarketContract.TickerlessMarket.SetAssetPrice | contracts/src/TickerlessMarket.sol:52-57 | sets one non-zero price, for the owner only |
| MarketContract.TickerlessMarket.WithdrawAsset | contracts/src/TickerlessMarket.sol:107-110 | transfers a token out, for the owner only, or changes nothing |
| MarketContract.TickerlessMarket.TransferOwnership | contracts/src/TickerlessMarket.sol:112-116 | hands over the market, by its owner only and never to the zero address |
| MarketContract.TickerlessMarket.Deploy | contracts/src/TickerlessMarket.sol:33-38 | deployment reverts for the zero address only; a deployed market lists nothing and belongs to its deployer |
| Reentrancy.LockIsExact | contracts/src/TickerlessMarket.sol:45-50 | in every reachable state at most one trade is in progress, the lock is set exactly while one is, and it is open whenever no call is active |
| Reentrancy.NestedTradeHasNoEffect | contracts/src/TickerlessMarket.sol:45-50 | a buy or sale attempted inside a trade changes nothing; outside one it is refused by its quote and minimum only |
| Reentrancy.BuyTransaction | contracts/src/TickerlessMarket.sol:79-91 | whatever the tokens do, a transaction whose outermost call is an accepted buy changes nothing, or logs exactly one trade, its own, last |
| Reentrancy.SellTransaction | contracts/src/TickerlessMarket.sol:93-105 | the same for a sale |
| Reentrancy.RevertUndoes | contracts/src/TickerlessMarket.sol:79-110 | a call that fails, or whose token answers false, undoes everything done in it, by whomever and to any depth |
| Reentrancy.OnlyTheOwnerAdministers | contracts/src/TickerlessMarket.sol:40-57 | whatever arbitrary code does, inside trades or not, owner and prices change by the owner's own calls only |
| Reentrancy.RunForgesNothing | contracts/src/TickerlessMarket.sol:90 | in no run does a log from the market's address come from other code, rollbacks included |
| DemoRuns.BuyIsRun | contracts/src/DemoToken.sol:42-61 | every buy among demo tokens is a run of the machine: the tokens log as many events as their ledgers do, a revert undoes everything, and a success agrees with the ledgers and logs its purchase last |
| DemoRuns.SellIsRun | contracts/src/TickerlessMarket.sol:93-105 | the same for a sale |
| DemoRuns.WithdrawIsRun | contracts/src/TickerlessMarket.sol:107-110 | the same for a withdrawal, for which the market logs nothing |
| DemoRuns.AdministrationAgrees | contracts/src/TickerlessMarket.sol:52-57 | listing and handover agree between the two models, and log what they did |
| Hex.ParserReads | crates/tickerless-api/src/chain.rs:193-195 | the parser reads a number exactly from hex digits, at least one, after an optional plus sign, when their value fits 128 bits |
| Hex.SameValueSameText | crates/tickerless-api/src/chain.rs:154-156 | equally long hex strings are equal ignoring case exactly when they denote the same number |
| AbiEncoding.ReceiptVerdictIsExact | crates/tickerless-api/src/chain.rs:94-121 | for any transaction and receipt texts, which are verified and with which amounts, which are refused and why, and which panic |
| AbiEncoding.NeverPending | crates/tickerless-api/src/chain.rs:69-93 | the verdict before the receipt: malformed hash, chain answer, chain mismatch, missing replies, in that order; a null transaction or receipt is answered `Rpc`, and `Pending` is never answered |
| AbiEncoding.ValidHashIsWord | crates/tickerless-api/src/chain.rs:148-152 | a hash is accepted exactly when it is the text of some 32-byte word |
| AbiEncoding.EncodeBuyEncodes | crates/tickerless-api/src/chain.rs:158-167 | every buy has an ABI encoding |
| AbiEncoding.EncodeLogEncodes | crates/tickerless-api/src/chain.rs:169-186 | every market event has an ABI encoding |
| AbiEncoding.OneEncodingOfBuy | crates/tickerless-api/src/chain.rs:158-167 | two encodings of one call differ in letter case only |
| AbiEncoding.DecodeBuyInverts | crates/tickerless-api/src/chain.rs:158-167 | decoding inverts any spelling of the encoding for amounts below 2^128 and refuses larger ones |
| AbiEncoding.TopicIsAddress | crates/tickerless-api/src/chain.rs:188-191 | an address topic is recognised exactly when it is the expected address |
| AbiEncoding.DecodePurchaseInverts | crates/tickerless-api/src/chain.rs:169-186 | of all logs of the market and of others, exactly the market's purchases of the asset by the wallet decode, to their own amounts |
| AbiEncoding.FindPurchaseFinds | crates/tickerless-api/src/chain.rs:110-114 | the search over receipt logs finds the first such purchase |
| AbiEncoding.VerifiedWasPurchased | crates/tickerless-api/src/chain.rs:69-122 | for any calldata, a verified purchase was logged by the market for that wallet and asset with exactly the verified amounts |
| AbiEncoding.VerdictOnBuy | crates/tickerless-api/src/chain.rs:94-121 | the verdict on strings is the verdict on the numbers they spell |
| EndToEnd.BuyIsVerified | crates/tickerless-api/src/chain.rs:69-122 | with arbitrary tokens, a buy is verified exactly when it settled, for its own wallet and asset and no other, with the amounts paid and quoted below 2^96; the verdict for larger amounts and for refused and reverted buys is stated too |
| EndToEnd.LedgersAreVerified | crates/tickerless-api/src/chain.rs:69-122 | a buy among demo tokens, reported with all the tokens log, gets its verdict on exactly the amounts that moved between the wallet and the market on the two ledgers; a reverted one is refused |
| EndToEnd.EveryBuyIsReported | crates/tickerless-api/src/chain.rs:69-122 | every buy among arbitrary tokens has a transaction and receipt that encode it, and a query about it |
| EndToEnd.WideAmountPanics | crates/tickerless-api/src/chain.rs:197-199 | for every amount from 2^96 up to 2^127, a market and a purchase of that amount on which the conversion panics |
| EndToEnd.VerifiedIsRecorded | crates/tickerless-api/src/database.rs:428-456 | a verified purchase always fits the database's columns, so recording it fails only for want of an instrument, on its discovery, or as a duplicate |
| Text.WordsKeepLetters | crates/tickerless-api/src/catalog.rs:107-121 | the words of a text hold its letters and digits in lower case, in order, and nothing else |
| Text.NormalizeIgnoresCase | crates/tickerless-api/src/catalog.rs:107-121 | texts that differ in ASCII case have one normal form |
| Text.NormalizeIsIdempotent | crates/tickerless-api/src/catalog.rs:107-121 | normalising keeps the words and is idempotent |
| Text.WordsOfConcat | crates/tickerless-api/src/catalog.rs:107-121 | the words of two texts joined by a space are those of the one, then of the other |
| Catalog.MentionsIsPhrase | crates/tickerless-api/src/catalog.rs:123-125 | padded substring search on normal forms holds exactly when the words occur consecutively, an empty phrase matching empty text only |
| Text.PhraseIsBounded | crates/tickerless-api/src/lens.rs:120-122 | on any text it holds exactly when the phrase occurs with a space, or an end of the text, on both sides |
| Catalog.ScoreIsTier | crates/tickerless-api/src/catalog.rs:39-95 | scoring strings computes the tier of the word lists, themes matching word by word in singular or plural |
| Catalog.MatchExplains | crates/tickerless-api/src/catalog.rs:57-95 | when a match can be acted on, and the reason it gives: the first mentioned alias, or all touched themes in order |
| Catalog.EquivalentIsSame | crates/tickerless-api/src/catalog.rs:97-105 | two words are equivalent exactly when they are equal or one is the other with an "s", short stems excepted |
| Catalog.Utf8LengthIsLeast | crates/tickerless-api/src/catalog.rs:101-105 | stems are measured in bytes of UTF-8 |
| Catalog.TierOfLongerText | crates/tickerless-api/src/catalog.rs:57-77 | more words never lose a match and lower the confidence only from direct match to direct reference |
| Catalog.StableSortIsTiers | crates/tickerless-api/src/catalog.rs:31 | a stable descending arrangement of scored matches is unique: the tiers in turn, each in its original order |
| Catalog.SearchIsTiers | crates/tickerless-api/src/catalog.rs:24-36 | a search lists the 1.0, 0.98, 0.95 and 0.75 tiers in turn, each holding the catalogue's matches of that confidence in catalogue order |
| Catalog.SearchFindsScored | crates/tickerless-api/src/catalog.rs:24-36 | a search finds exactly the companies that score, with their scores |
| Roles.AssignRoles | crates/tickerless-api/src/lens.rs:113-115 | the first match is primary, the others mentioned, and nothing else changes |
| Lens.Resolve | crates/tickerless-api/src/lens.rs:59-117 | the limits, the empty answer, the collected signals and the expanded search with roles |
| Lens.SignalsAreDistinct | crates/tickerless-api/src/lens.rs:76-92 | signals are distinct ignoring case, the text first, every label that says anything represented, and nothing else |
| Lens.SignalsGrow | crates/tickerless-api/src/lens.rs:82-92 | further labels add signals at the end only, so each is there in its first spelling |
| Lens.QueryIsExact | crates/tickerless-api/src/lens.rs:97-112 | the words searched for are those of the signals, then those of exactly the products whose labels occur, in the table's order |
| Lens.ExpansionLosesNothing | crates/tickerless-api/src/lens.rs:97-112 | in any catalogue, whatever the signals alone match the expanded query matches, with no less confidence except 1.0 to 0.98 |
| Lens.ResolutionKeepsMatches | crates/tickerless-api/src/lens.rs:97-112 | the same for the search results with the product table |
| Lens.HintReachesCompany | crates/tickerless-api/src/lens.rs:97-112 | when a recognition label occurs in the signals, every company with the hinted product as an alias matches with at least 0.95 |
| Link.Resolve | crates/tickerless-api/src/link.rs:88-102 | the merging loop gives the title's matches and then each new company of the text, with roles |
| Link.MergeIsOrderedUnion | crates/tickerless-api/src/link.rs:88-99 | with unique slugs the merge is the union without repetition, the title's matches in their order and then the text's others in theirs |
| RelationalProofs.RunKeepsSound | crates/tickerless-api/src/database.rs:379-476 | over every run the constraints hold, and accounts, wallets, discovery owners and transactions never change once set; new identities belong to new accounts |
| RelationalProofs.ReachableIsSound | migrations/0001_initial_schema.sql:44-73 | all states reachable from empty tables meet the keys, unique, check and reference constraints of users, identities, discoveries and transactions as migrated, and every transaction bought an active Solana mainnet asset of its company |
| RelationalProofs.RunKeepsBought | crates/tickerless-api/src/database.rs:405-456 | over every run, whoever owns a discovery has a recorded purchase from its company through it |
| RelationalProofs.RejectedChangesNothing | crates/tickerless-api/src/database.rs:418-456 | a rejected request changes no table, the upserted user included |
| RelationalProofs.RecordIsExact | crates/tickerless-api/src/database.rs:379-476 | exactly when a purchase is recorded, or refused: for want of an active Solana mainnet asset of a company with the slug, as mismatched, out of the columns' 30 and 38 digits, or as a duplicate, in that order |
| RelationalProofs.InstrumentIsExact | crates/tickerless-api/src/database.rs:388-396 | the instrument is an active Solana mainnet asset of a company with the slug, and missing exactly when there is none |
| RelationalProofs.RecordedPurchase | crates/tickerless-api/src/database.rs:397-456 | a recorded purchase is one new row for the holder of the wallet, with such an asset and its network; the one discovery it names becomes that user's, and nothing else changes |
| RelationalProofs.SubjectIsStable | crates/tickerless-api/src/database.rs:33-48 | after any run a known Google subject resolves to the same account, with its first email and its present wallet, and changes nothing |
| RelationalProofs.EmailIsForGood | crates/tickerless-api/src/database.rs:49-106 | after any run an account's email is taken in any letter case, for registration and for a first Google sign-in |
| RelationalProofs.BindIsExact | crates/tickerless-api/src/database.rs:180-206 | what binding a wallet answers and changes for every user, known or not |
| RelationalProofs.WalletIsForGood | crates/tickerless-api/src/database.rs:180-206 | after any run a held wallet is its holder's and no other account can bind it |
| Database.Connection.GoogleUser | crates/tickerless-api/src/database.rs:27-80 | the transaction on mutable tables performs the relational function |
| Database.Connection.RegisterEmailUser | crates/tickerless-api/src/database.rs:82-106 | likewise |
| Database.Connection.BindWallet | crates/tickerless-api/src/database.rs:180-206 | likewise |
| Database.Connection.CreateDiscovery | crates/tickerless-api/src/database.rs:317-353 | likewise |
| Database.Connection.RecordTransaction | crates/tickerless-api/src/database.rs:379-476 | likewise, rolled back on a mismatch, a duplicate or a failed insert |
| Worlds.World | crates/tickerless-api/src/database.rs:488-538 | the total is everything the wallet's holder ever spent, the rows' tokens everything it bought, and each company's contexts go to its first row |
| Worlds.CoveringRowsConserve | crates/tickerless-api/src/database.rs:489-500 | rows with distinct keys that cover all holdings add up to all of them |
| Worlds.HoldingOfOne | crates/tickerless-api/src/database.rs:489-500 | a transaction of the wallet's holder is one holding under its company and asset, and the others are none |
| Worlds.ContextOfOne | crates/tickerless-api/src/database.rs:501-508 | the same for discoveries |
| Worlds.EveryDiscoveryIsShown | crates/tickerless-api/src/database.rs:488-538 | in every reachable state the rows of a wallet's summary show all its discoveries, each as often as it was made |
| Worlds.ContextsShownOnce | crates/tickerless-api/src/database.rs:510-530 | as multisets, the contexts shown over all rows are the contexts whose company has a row |
| Worlds.RowsShareNoContext | crates/tickerless-api/src/database.rs:517-530 | no two rows show contexts of one company |
| Worlds.GroupedExists | crates/tickerless-api/src/database.rs:489-500 | the grouping query has an answer with distinct keys, exact sums and falling amounts, whatever is held |
| Masonry.Layout | apps/mobile/lib/features/home/presentation/widgets/masonry_grid.dart:27-42 | every item goes under the column that was no taller; the columns partition the items in order, each drawn at its own height, the tracked heights are the items' with a gutter each, and after every item they differ by at most the largest placed |
| Masonry.Place | apps/mobile/lib/features/home/presentation/widgets/masonry_grid.dart:35-40 | a column that showed its items shows one more: below a gap of one gutter unless it is the first |
| Masonry.HeightIsExtent | apps/mobile/lib/features/home/presentation/widgets/masonry_grid.dart:41 | the tracked height of a column is that of its boxes and one gutter more |
| Masonry.PlacedStays | apps/mobile/lib/features/home/presentation/widgets/masonry_grid.dart:31-42 | an item never moves: the columns of fewer items are the beginnings of the columns of more |
| Masonry.PlacedNext | apps/mobile/lib/features/home/presentation/widgets/masonry_grid.dart:33-41 | the next item goes under the column that is no taller, left on a tie, and makes it taller by its height and a gutter |
| Masonry.MeasuredIsExact | apps/mobile/lib/features/home/presentation/widgets/masonry_grid.dart:28-32 | two columns and the gutter fill the width, and every item keeps its aspect ratio |
| DemoTokens.ApproveIsExact | contracts/src/DemoToken.sol:36-40 | an approval sets one allowance and nothing else |
| MarketRuns.DeployedIsValid | contracts/src/TickerlessMarket.sol:33-38 | freshly deployed contracts meet the standing assumptions |
| RelationalProofs.GoogleNeverTakesOver | crates/tickerless-api/src/database.rs:49-79 | a first Google sign-in is refused exactly when the email is taken in any case, and otherwise creates a new account |
| RelationalProofs.RegisterIsExact | crates/tickerless-api/src/database.rs:82-106 | registering is refused exactly when the email is taken in any case |
| RelationalProofs.DiscoveryStartsFree | crates/tickerless-api/src/database.rs:317-353 | a new discovery belongs to nobody, is of the requested company, and keeps its texts trimmed; the answer is the record, and the only refusal is an unknown company |
| Trimming.TrimIsExact | crates/tickerless-api/src/database.rs:337-338 | a trimmed text is the given one without the whitespace at its ends |

## Left out

- Masonry.Layout: over reals, with positive aspect ratios; the bound on the heights is for a non-negative gutter and a width of at least one gutter.
- Worlds.World: the two queries' answers are inputs constrained by what the queries mean; the order of contexts by creation time is not modelled.
- RelationalProofs.RecordIsExact: amounts are given at the columns' own scales, as the verifier produces them, so rounding to a column's scale is not modelled.
- Database.Connection.CreateDiscovery: the creation time in its answer is not modelled.
- Database.Connection.RecordTransaction: of the record it answers with only the new identifier; the rest repeats the inputs and the instrument.
- Token metadata.
- Reentrancy.BuyTransaction: what other contracts log is anything; only their addresses are part of the machine's log.
- Deployment of further tokens during a run: the set of tokens is any, but fixed.
- Strings outside ASCII in the verifier, where slicing could panic.
- Sessions, passwords, token verification, and the cryptography they use.
- HTTP routing and status codes, fetching pages, redirects and address checks, HTML extraction, and issuer prices.
- Isolation levels and concurrent transactions, timestamps, and UUID generation.
- The catalogue's contents and loading it: the results hold for any catalogue.
- The mobile application apart from the masonry loop.
