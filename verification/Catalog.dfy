/** Scoring companies against a query, and searching the catalogue. */
module Catalog {
  import opened Options
  import opened Text

  datatype Asset = Asset(
    network: string,
    contractAddress: Option<string>,
    marketAddress: Option<string>,
    paymentTokenAddress: Option<string>,
    chainId: Option<int>)

  datatype Company = Company(
    slug: string, name: string, ticker: string,
    aliases: seq<string>, themes: seq<string>,
    asset: Option<Asset>)

  datatype Match = Match(company: Company, reason: string, confidence: real, actionable: bool, role: Option<string>)

  // Scoring

  function Utf8Length(s: string): nat {
    if s == "" then 0
    else
      var c := s[0] as int;
      (if c < 0x80 then 1 else if c < 0x800 then 2 else if c < 0x10000 then 3 else 4) + Utf8Length(s[1..])
  }

  /** Drops a final "s" from words whose stem is longer than two bytes. */
  function Singular(word: string): string {
    if word != "" && word[|word| - 1] == 's' && Utf8Length(word[..|word| - 1]) > 2 then word[..|word| - 1] else word
  }

  predicate EquivalentWord(left: string, right: string) {
    left == right || Singular(left) == Singular(right)
  }

  predicate Covers(query: seq<string>, theme: seq<string>) {
    forall word <- theme :: exists item <- query :: EquivalentWord(item, word)
  }

  function MatchingThemes(k: Classes, themes: seq<string>, query: string): seq<string> {
    if themes == [] then []
    else
      var rest := MatchingThemes(k, themes[1..], query);
      if Covers(SplitWhitespace(k, query), SplitWhitespace(k, Normalize(k, themes[0]))) then [themes[0]] + rest else rest
  }

  function FirstAlias(k: Classes, aliases: seq<string>, query: string): Option<string> {
    if aliases == [] then None
    else if Phrase(query, Normalize(k, aliases[0])) then Some(aliases[0])
    else FirstAlias(k, aliases[1..], query)
  }

  predicate Actionable(asset: Option<Asset>) {
    asset.Some? &&
    var a := asset.value;
    var verifiedSolanaDeployment := a.network == "Solana" && a.contractAddress.Some? && a.paymentTokenAddress.Some?;
    var completeEvmDeployment :=
      a.contractAddress.Some? && a.marketAddress.Some? && a.paymentTokenAddress.Some? && a.chainId.Some?;
    verifiedSolanaDeployment || completeEvmDeployment
  }

  /** `query` is normalised already. */
  function Score(k: Classes, company: Company, query: string): Option<Match> {
    var name, ticker := Normalize(k, company.name), Normalize(k, company.ticker);
    var alias := FirstAlias(k, company.aliases, query);
    var themes := MatchingThemes(k, company.themes, query);
    var (confidence, reason) :-
      if query == name || query == ticker then
        Some((1.0, "Direct match for " + company.name + "."))
      else if Phrase(query, name) || Phrase(query, ticker) then
        Some((0.98, "The content directly references " + company.name + "."))
      else if alias.Some? then
        Some((0.95, alias.value + " is associated with " + company.name + "."))
      else if themes != [] then
        Some((0.75, company.name + " is active in " + JoinWith(themes, ", ") + "."))
      else None;
    Some(Match(company, reason, confidence, Actionable(company.asset), None))
  }

  // What the score means, in words

  ghost predicate Mentions(text: seq<string>, phrase: seq<string>) {
    if phrase == [] then text == [] else exists before, after :: text == before + phrase + after
  }

  /** `plural` is `word` with an "s", and neither is short for a further stem. */
  predicate Pluralises(word: string, plural: string) {
    && plural == word + "s" && Utf8Length(word) > 2
    && (word[|word| - 1] == 's' ==> Utf8Length(word[..|word| - 1]) <= 2)
  }

  predicate SameWord(a: string, b: string) {
    a == b || Pluralises(a, b) || Pluralises(b, a)
  }

  /** Every word of the theme occurs in the text, in the singular or the plural. */
  predicate Touches(text: seq<string>, theme: seq<string>) {
    forall word <- theme :: exists item <- text :: SameWord(item, word)
  }

  /** How well a text, as a list of words, matches a company. */
  ghost function Tier(k: Classes, company: Company, text: seq<string>): Option<real> {
    if text == Words(k, company.name) || text == Words(k, company.ticker) then Some(1.0)
    else if Mentions(text, Words(k, company.name)) || Mentions(text, Words(k, company.ticker)) then Some(0.98)
    else if exists alias <- company.aliases :: Mentions(text, Words(k, alias)) then Some(0.95)
    else if exists theme <- company.themes :: Touches(text, Words(k, theme)) then Some(0.75)
    else None
  }

  /** Two words are equivalent exactly when they are the same, or one is the plural of the other. */
  lemma EquivalentIsSame(a: string, b: string)
    ensures EquivalentWord(a, b) <==> SameWord(a, b)
  {
    if |a| > 0 && |b| > 0 {
      assert a == a[..|a| - 1] + [a[|a| - 1]] && b == b[..|b| - 1] + [b[|b| - 1]];
    }
    if Pluralises(a, b) {
      assert b[..|b| - 1] == a;
    }
    if Pluralises(b, a) {
      assert a[..|a| - 1] == b;
    }
  }

  /** How many characters `n` bytes of UTF-8 can tell apart (section 3 of RFC 3629): seven
      bits in one byte, otherwise six in each byte but the first, and `7 - n` in that. */
  function Capacity(n: nat): nat {
    match n
    case 0 => 0
    case 1 => Power(2, 7)
    case _ => if n <= 4 then Power(2, (7 - n) + 6 * (n - 1)) else 0
  }

  function Power(b: nat, e: nat): nat {
    if e == 0 then 1 else b * Power(b, e - 1)
  }

  lemma {:induction false} Utf8LengthIsLeast(c: char, s: string)
    ensures var n := Utf8Length([c]); 1 <= n <= 4 && Capacity(n - 1) <= c as int < Capacity(n)
    ensures Utf8Length([c] + s) == Utf8Length([c]) + Utf8Length(s)
  {
    assert Power(2, 4) == 16;
    assert Power(2, 7) == 0x80;
    assert Power(2, 11) == 0x800;
    assert Power(2, 16) == 0x10000;
    assert Power(2, 21) == 0x200000;
    assert [c][1..] == "" && ([c] + s)[1..] == s;
  }

  lemma SameNormalForm(k: Classes, a: string, b: string)
    ensures Normalize(k, a) == Normalize(k, b) <==> Words(k, a) == Words(k, b)
  {
    WordsAreWords(k, a);
    WordsAreWords(k, b);
    SplitOfJoin(k, Words(k, a));
    SplitOfJoin(k, Words(k, b));
  }

  lemma MentionsIsPhrase(k: Classes, text: string, phrase: string)
    ensures Phrase(Normalize(k, text), Normalize(k, phrase)) <==> Mentions(Words(k, text), Words(k, phrase))
  {
    NormalizedPhrase(k, text, phrase);
    var hay, needle := Words(k, text), Words(k, phrase);
    if needle != [] {
      if Contains(hay, needle) {
        var i :| 0 <= i <= |hay| && OccursAt(hay, needle, i);
        assert hay == hay[..i] + needle + hay[i + |needle|..];
      }
      if before, after :| hay == before + needle + after {
        assert OccursAt(hay, needle, |before|);
      }
    }
  }

  /** The first alias that the text mentions. */
  lemma {:induction false} AliasMeaning(k: Classes, aliases: seq<string>, text: string)
    ensures match FirstAlias(k, aliases, Normalize(k, text))
            case None => forall alias <- aliases :: !Mentions(Words(k, text), Words(k, alias))
            case Some(found) =>
              exists i :: 0 <= i < |aliases| && aliases[i] == found && Mentions(Words(k, text), Words(k, found))
                          && forall j :: 0 <= j < i ==> !Mentions(Words(k, text), Words(k, aliases[j]))
  {
    if aliases != [] {
      MentionsIsPhrase(k, text, aliases[0]);
      if !Mentions(Words(k, text), Words(k, aliases[0])) {
        var rest := aliases[1..];
        AliasMeaning(k, rest, text);
        var found := FirstAlias(k, rest, Normalize(k, text));
        if found.Some? {
          var i :| 0 <= i < |rest| && rest[i] == found.value
                   && forall j :: 0 <= j < i ==> !Mentions(Words(k, text), Words(k, rest[j]));
          assert aliases[i + 1] == found.value;
          assert forall j :: 0 < j < i + 1 ==> aliases[j] == rest[j - 1];
        } else {
          assert aliases == [aliases[0]] + rest;
        }
      }
    }
  }

  /** The themes that the text touches, in their order. */
  function Touched(k: Classes, themes: seq<string>, text: seq<string>): seq<string> {
    if themes == [] then []
    else
      var last := themes[|themes| - 1];
      Touched(k, themes[..|themes| - 1], text) + if Touches(text, Words(k, last)) then [last] else []
  }

  lemma {:induction false} TouchedAll(k: Classes, themes: seq<string>, text: seq<string>)
    ensures forall theme :: theme in Touched(k, themes, text) <==> theme in themes && Touches(text, Words(k, theme))
  {
    if themes != [] {
      TouchedAll(k, themes[..|themes| - 1], text);
      assert themes == themes[..|themes| - 1] + [themes[|themes| - 1]];
    }
  }

  lemma {:induction false} TouchedOfCons(k: Classes, theme: string, themes: seq<string>, text: seq<string>)
    ensures Touched(k, [theme] + themes, text) ==
            (if Touches(text, Words(k, theme)) then [theme] else []) + Touched(k, themes, text)
  {
    var all := [theme] + themes;
    if themes == [] {
      assert all[..0] == [] && all[0] == theme;
    } else {
      var n := |themes| - 1;
      assert all[..|all| - 1] == [theme] + themes[..n];
      TouchedOfCons(k, theme, themes[..n], text);
    }
  }

  lemma CoversIsTouches(query: seq<string>, theme: seq<string>)
    ensures Covers(query, theme) <==> Touches(query, theme)
  {
    forall a: string, b: string ensures EquivalentWord(a, b) <==> SameWord(a, b) {
      EquivalentIsSame(a, b);
    }
  }

  lemma {:induction false} ThemeMeaning(k: Classes, themes: seq<string>, text: string)
    ensures MatchingThemes(k, themes, Normalize(k, text)) == Touched(k, themes, Words(k, text))
  {
    if themes != [] {
      NormalizeIsIdempotent(k, text);
      NormalizeIsIdempotent(k, themes[0]);
      CoversIsTouches(Words(k, text), Words(k, themes[0]));
      ThemeMeaning(k, themes[1..], text);
      TouchedOfCons(k, themes[0], themes[1..], Words(k, text));
      assert themes == [themes[0]] + themes[1..];
    }
  }

  /** Scoring the normalised strings computes the tier of the word lists. */
  lemma ScoreIsTier(k: Classes, company: Company, text: string)
    ensures match Score(k, company, Normalize(k, text))
            case None => Tier(k, company, Words(k, text)) == None
            case Some(m) => Tier(k, company, Words(k, text)) == Some(m.confidence) && m.company == company && m.role == None
  {
    SameNormalForm(k, text, company.name);
    SameNormalForm(k, text, company.ticker);
    MentionsIsPhrase(k, text, company.name);
    MentionsIsPhrase(k, text, company.ticker);
    AliasMeaning(k, company.aliases, text);
    ThemeMeaning(k, company.themes, text);
    TouchedAll(k, company.themes, Words(k, text));
    var alias := FirstAlias(k, company.aliases, Normalize(k, text));
    if alias.Some? {
      assert alias.value in company.aliases && Mentions(Words(k, text), Words(k, alias.value));
    }
    var touched := Touched(k, company.themes, Words(k, text));
    if touched != [] {
      assert touched[0] in touched;
    }
  }

  /** A match can be acted on when its asset has a contract and a payment token, and is on
      Solana or also has a market and a chain; the reason names what was recognised. */
  lemma MatchExplains(k: Classes, company: Company, text: string)
    ensures match Score(k, company, Normalize(k, text))
            case None => true
            case Some(m) =>
              && (m.actionable <==>
                    && company.asset.Some?
                    && company.asset.value.contractAddress.Some? && company.asset.value.paymentTokenAddress.Some?
                    && (company.asset.value.network == "Solana"
                        || (company.asset.value.marketAddress.Some? && company.asset.value.chainId.Some?)))
              && (m.confidence == 1.0 ==> m.reason == "Direct match for " + company.name + ".")
              && (m.confidence == 0.98 ==> m.reason == "The content directly references " + company.name + ".")
              && (m.confidence == 0.95 ==>
                    exists i :: 0 <= i < |company.aliases| && Mentions(Words(k, text), Words(k, company.aliases[i]))
                                && (forall j :: 0 <= j < i ==> !Mentions(Words(k, text), Words(k, company.aliases[j])))
                                && m.reason == company.aliases[i] + " is associated with " + company.name + ".")
              && (m.confidence == 0.75 ==>
                    m.reason == company.name + " is active in "
                                + JoinWith(Touched(k, company.themes, Words(k, text)), ", ") + ".")
  {
    AliasMeaning(k, company.aliases, text);
    ThemeMeaning(k, company.themes, text);
  }

  lemma MentionsMore(text: seq<string>, extra: seq<string>, phrase: seq<string>)
    requires text != [] && Mentions(text, phrase)
    ensures Mentions(text + extra, phrase)
  {
    if phrase != [] {
      var before, after :| text == before + phrase + after;
      assert text + extra == before + phrase + (after + extra);
    }
  }

  /** Appending words to a text never loses a match; at most a direct match becomes a mention. */
  lemma TierOfLongerText(k: Classes, company: Company, text: seq<string>, extra: seq<string>)
    requires text != [] && Tier(k, company, text).Some?
    ensures var (before, after) := (Tier(k, company, text), Tier(k, company, text + extra));
      after.Some? && (after.value >= before.value || (before.value == 1.0 && after.value == 0.98))
  {
    forall phrase | Mentions(text, phrase) ensures Mentions(text + extra, phrase) {
      MentionsMore(text, extra, phrase);
    }
    if text == Words(k, company.name) || text == Words(k, company.ticker) {
      assert text == [] + text + [];
      assert Mentions(text, text);
    } else if theme :| theme in company.themes && Touches(text, Words(k, theme)) {
      assert Touches(text + extra, Words(k, theme));
    }
  }

  // Searching

  function Scored(k: Classes, companies: seq<Company>, query: string): seq<Match> {
    if companies == [] then []
    else
      var rest := Scored(k, companies[1..], query);
      match Score(k, companies[0], query)
      case None => rest
      case Some(m) => [m] + rest
  }

  /** Before everything of no higher confidence: among equals the earlier one stays first. */
  function Insert(m: Match, sorted: seq<Match>): seq<Match> {
    if sorted == [] || sorted[0].confidence <= m.confidence then [m] + sorted
    else [sorted[0]] + Insert(m, sorted[1..])
  }

  /** A stable sort by falling confidence, as the standard library's `sort_by` is. */
  function SortByConfidence(matches: seq<Match>): seq<Match> {
    if matches == [] then [] else Insert(matches[0], SortByConfidence(matches[1..]))
  }

  function Search(k: Classes, companies: seq<Company>, query: string): seq<Match> {
    SortByConfidence(Scored(k, companies, Normalize(k, query)))
  }

  function WithConfidence(matches: seq<Match>, confidence: real): seq<Match> {
    if matches == [] then []
    else
      var rest := WithConfidence(matches[1..], confidence);
      if matches[0].confidence == confidence then [matches[0]] + rest else rest
  }

  predicate Descending(matches: seq<Match>) {
    forall i, j :: 0 <= i < j < |matches| ==> matches[i].confidence >= matches[j].confidence
  }

  /** Any stable descending arrangement: nothing is added or lost, and equals keep their order. */
  ghost predicate StablySorted(before: seq<Match>, after: seq<Match>) {
    Descending(after) && forall c: real :: WithConfidence(after, c) == WithConfidence(before, c)
  }

  lemma {:induction false} InsertKeepsTiers(m: Match, sorted: seq<Match>, c: real)
    ensures WithConfidence(Insert(m, sorted), c) == WithConfidence([m], c) + WithConfidence(sorted, c)
  {
    if sorted == [] || sorted[0].confidence <= m.confidence {
      assert ([m] + sorted)[1..] == sorted && [m][1..] == [];
    } else {
      InsertKeepsTiers(m, sorted[1..], c);
      assert Insert(m, sorted)[1..] == Insert(m, sorted[1..]);
      assert [m][1..] == [];
    }
  }

  lemma {:induction false} InsertKeepsOrder(m: Match, sorted: seq<Match>)
    requires Descending(sorted)
    ensures Descending(Insert(m, sorted))
    ensures forall x <- Insert(m, sorted) :: x == m || x in sorted
  {
    if sorted != [] && sorted[0].confidence > m.confidence {
      InsertKeepsOrder(m, sorted[1..]);
      assert forall x <- Insert(m, sorted[1..]) :: x.confidence <= sorted[0].confidence;
    }
  }

  lemma {:induction false} SortIsStable(matches: seq<Match>)
    ensures StablySorted(matches, SortByConfidence(matches))
  {
    if matches != [] {
      SortIsStable(matches[1..]);
      var sorted := SortByConfidence(matches[1..]);
      InsertKeepsOrder(matches[0], sorted);
      forall c: real
        ensures WithConfidence(SortByConfidence(matches), c) == WithConfidence(matches, c)
      {
        InsertKeepsTiers(matches[0], sorted, c);
        assert [matches[0]][1..] == [];
      }
    }
  }

  predicate IsTier(c: real) {
    c == 1.0 || c == 0.98 || c == 0.95 || c == 0.75
  }

  function Tiers(matches: seq<Match>): seq<Match> {
    WithConfidence(matches, 1.0) + WithConfidence(matches, 0.98)
    + WithConfidence(matches, 0.95) + WithConfidence(matches, 0.75)
  }

  lemma {:induction false} NoneAbove(matches: seq<Match>, bound: real, c: real)
    requires forall m <- matches :: m.confidence <= bound
    requires bound < c
    ensures WithConfidence(matches, c) == []
  {
    if matches != [] {
      NoneAbove(matches[1..], bound, c);
    }
  }

  lemma {:induction false} DescendingIsTiers(matches: seq<Match>)
    requires Descending(matches) && forall m <- matches :: IsTier(m.confidence)
    ensures matches == Tiers(matches)
  {
    if matches != [] {
      var rest := matches[1..];
      assert forall m <- rest :: m.confidence <= matches[0].confidence;
      DescendingIsTiers(rest);
      TiersOfCons(matches[0], rest);
      assert matches == [matches[0]] + rest;
    }
  }

  lemma {:induction false} TiersOfCons(top: Match, rest: seq<Match>)
    requires IsTier(top.confidence) && forall m <- rest :: m.confidence <= top.confidence
    ensures Tiers([top] + rest) == [top] + Tiers(rest)
  {
    var a, b := WithConfidence(rest, 1.0), WithConfidence(rest, 0.98);
    var c, d := WithConfidence(rest, 0.95), WithConfidence(rest, 0.75);
    assert ([top] + rest)[1..] == rest;
    if top.confidence == 1.0 {
      assert Tiers([top] + rest) == [top] + a + b + c + d;
    } else if top.confidence == 0.98 {
      NoneAbove(rest, 0.98, 1.0);
      assert Tiers([top] + rest) == a + ([top] + b) + c + d;
    } else if top.confidence == 0.95 {
      NoneAbove(rest, 0.95, 1.0);
      NoneAbove(rest, 0.95, 0.98);
      assert Tiers([top] + rest) == a + b + ([top] + c) + d;
    } else {
      NoneAbove(rest, 0.75, 1.0);
      NoneAbove(rest, 0.75, 0.98);
      NoneAbove(rest, 0.75, 0.95);
      assert Tiers([top] + rest) == a + b + c + ([top] + d);
    }
  }

  lemma {:induction false} FromTiers(before: seq<Match>, after: seq<Match>)
    requires StablySorted(before, after) && forall m <- before :: IsTier(m.confidence)
    ensures forall m <- after :: IsTier(m.confidence)
  {
    forall m | m in after ensures IsTier(m.confidence) {
      InItsTier(after, m);
      InTier(before, m, m.confidence);
    }
  }

  lemma {:induction false} InItsTier(matches: seq<Match>, m: Match)
    requires m in matches
    ensures m in WithConfidence(matches, m.confidence)
  {
    if m != matches[0] {
      InItsTier(matches[1..], m);
    }
  }

  lemma {:induction false} InTier(matches: seq<Match>, m: Match, c: real)
    requires m in WithConfidence(matches, c)
    ensures m in matches && m.confidence == c
  {
    if !(matches[0].confidence == c && m == matches[0]) {
      InTier(matches[1..], m, c);
    }
  }

  /** There is only one stable descending arrangement: the tiers in turn, each in its
      original order. */
  lemma StableSortIsTiers(before: seq<Match>, after: seq<Match>)
    requires StablySorted(before, after) && forall m <- before :: IsTier(m.confidence)
    ensures after == Tiers(before)
  {
    FromTiers(before, after);
    DescendingIsTiers(after);
  }

  lemma {:induction false} ScoredMatches(k: Classes, companies: seq<Company>, query: string)
    ensures forall m <- Scored(k, companies, query) :: IsTier(m.confidence) && Score(k, m.company, query) == Some(m)
    ensures forall m :: m in Scored(k, companies, query) <==> m.company in companies && Score(k, m.company, query) == Some(m)
  {
    if companies != [] {
      ScoredMatches(k, companies[1..], query);
      assert companies == [companies[0]] + companies[1..];
    }
  }

  /** The company's match, if it has this confidence. */
  function MatchAt(k: Classes, company: Company, query: string, c: real): seq<Match> {
    var m := Score(k, company, query);
    if m.Some? && m.value.confidence == c then [m.value] else []
  }

  /** The matches of one confidence, in catalogue order. */
  function InCatalogueOrder(k: Classes, companies: seq<Company>, query: string, c: real): seq<Match> {
    if companies == [] then []
    else
      InCatalogueOrder(k, companies[..|companies| - 1], query, c)
      + MatchAt(k, companies[|companies| - 1], query, c)
  }

  lemma {:induction false} InOrderOfCons(k: Classes, company: Company, companies: seq<Company>, query: string, c: real)
    ensures InCatalogueOrder(k, [company] + companies, query, c) ==
            MatchAt(k, company, query, c) + InCatalogueOrder(k, companies, query, c)
  {
    var all := [company] + companies;
    if companies == [] {
      assert all[..0] == [] && all[0] == company;
    } else {
      var n := |companies| - 1;
      assert all[..|all| - 1] == [company] + companies[..n];
      InOrderOfCons(k, company, companies[..n], query, c);
    }
  }

  lemma ScoredOfCons(k: Classes, companies: seq<Company>, query: string, c: real)
    requires companies != []
    ensures WithConfidence(Scored(k, companies, query), c) ==
            MatchAt(k, companies[0], query, c) + WithConfidence(Scored(k, companies[1..], query), c)
  {
    var m, rest := Score(k, companies[0], query), Scored(k, companies[1..], query);
    if m.Some? {
      assert ([m.value] + rest)[1..] == rest;
    }
  }

  lemma {:induction false} ScoredInOrder(k: Classes, companies: seq<Company>, query: string, c: real)
    ensures WithConfidence(Scored(k, companies, query), c) == InCatalogueOrder(k, companies, query, c)
  {
    if companies != [] {
      ScoredInOrder(k, companies[1..], query, c);
      ScoredOfCons(k, companies, query, c);
      InOrderOfCons(k, companies[0], companies[1..], query, c);
      assert companies == [companies[0]] + companies[1..];
    }
  }

  /** A search lists its matches tier by tier, each tier in catalogue order. */
  lemma SearchIsTiers(k: Classes, companies: seq<Company>, query: string)
    ensures var q := Normalize(k, query);
      Search(k, companies, query) ==
      InCatalogueOrder(k, companies, q, 1.0) + InCatalogueOrder(k, companies, q, 0.98)
      + InCatalogueOrder(k, companies, q, 0.95) + InCatalogueOrder(k, companies, q, 0.75)
  {
    SearchIsSorted(k, companies, query);
    ScoredInOrder(k, companies, Normalize(k, query), 1.0);
    ScoredInOrder(k, companies, Normalize(k, query), 0.98);
    ScoredInOrder(k, companies, Normalize(k, query), 0.95);
    ScoredInOrder(k, companies, Normalize(k, query), 0.75);
  }

  lemma SearchIsSorted(k: Classes, companies: seq<Company>, query: string)
    ensures Search(k, companies, query) == Tiers(Scored(k, companies, Normalize(k, query)))
  {
    var scored := Scored(k, companies, Normalize(k, query));
    ScoredMatches(k, companies, Normalize(k, query));
    SortIsStable(scored);
    StableSortIsTiers(scored, SortByConfidence(scored));
  }

  /** A search finds exactly the companies that score, with their scores. */
  lemma SearchFindsScored(k: Classes, companies: seq<Company>, query: string, m: Match)
    ensures m in Search(k, companies, query) <==>
            m.company in companies && Score(k, m.company, Normalize(k, query)) == Some(m)
  {
    var scored := Scored(k, companies, Normalize(k, query));
    ScoredMatches(k, companies, Normalize(k, query));
    SearchIsSorted(k, companies, query);
    if m in scored {
      InItsTier(scored, m);
      assert IsTier(m.confidence);
    }
    if m in Tiers(scored) {
      var c :| IsTier(c) && m in WithConfidence(scored, c);
      InTier(scored, m, c);
    }
  }
}
