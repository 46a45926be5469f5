/** Resolving a page: the matches of its title, then those of its text. */
module Link {
  import opened Options
  import opened Text
  import opened Catalog
  import opened Roles

  predicate HasSlug(matches: seq<Match>, slug: string) {
    exists existing <- matches :: existing.company.slug == slug
  }

  /** The loop's result: each item is added unless its company is there already. */
  function Merge(matches: seq<Match>, items: seq<Match>): seq<Match>
    decreases items
  {
    if items == [] then matches
    else
      Merge(if HasSlug(matches, items[0].company.slug) then matches else matches + [items[0]], items[1..])
  }

  function TitleMatches(k: Classes, companies: seq<Company>, title: Option<string>): seq<Match> {
    if title.Some? then Search(k, companies, title.value) else []
  }

  method Resolve(k: Classes, companies: seq<Company>, title: Option<string>, content: string)
    returns (matches: seq<Match>)
    ensures var first := if title.Some? then Search(k, companies, title.value) else [];
      HaveRoles(Merge(first, Search(k, companies, content)), matches)
  {
    matches := TitleMatches(k, companies, title);
    var items := Search(k, companies, content);
    for i := 0 to |items|
      invariant Merge(matches, items[i..]) == Merge(TitleMatches(k, companies, title), items)
    {
      if !HasSlug(matches, items[i].company.slug) {
        matches := matches + [items[i]];
      }
    }
    matches := AssignRoles(matches);
  }

  predicate UniqueSlugs(companies: seq<Company>) {
    forall i, j :: 0 <= i < j < |companies| ==> companies[i].slug != companies[j].slug
  }

  predicate DistinctMatches(matches: seq<Match>) {
    forall i, j :: 0 <= i < j < |matches| ==> matches[i].company.slug != matches[j].company.slug
  }

  /** Those items whose company is not among the matches, in their own order. */
  function Others(matches: seq<Match>, items: seq<Match>): seq<Match> {
    if items == [] then []
    else
      var rest := Others(matches, items[1..]);
      if exists m <- matches :: m.company.slug == items[0].company.slug then rest else [items[0]] + rest
  }

  lemma {:induction false} OthersIgnoreMore(matches: seq<Match>, more: Match, items: seq<Match>)
    requires forall item <- items :: item.company.slug != more.company.slug
    ensures Others(matches + [more], items) == Others(matches, items)
  {
    if items != [] {
      OthersIgnoreMore(matches, more, items[1..]);
      assert HasSlug(matches + [more], items[0].company.slug) <==> HasSlug(matches, items[0].company.slug) by {
        assert forall m :: m in matches ==> m in matches + [more];
      }
    }
  }

  lemma {:induction false} MergeAppends(matches: seq<Match>, items: seq<Match>)
    requires DistinctMatches(items)
    ensures Merge(matches, items) == matches + Others(matches, items)
    decreases items
  {
    if items != [] {
      var added := if HasSlug(matches, items[0].company.slug) then matches else matches + [items[0]];
      MergeAppends(added, items[1..]);
      if !HasSlug(matches, items[0].company.slug) {
        OthersIgnoreMore(matches, items[0], items[1..]);
      }
    }
  }

  lemma {:induction false} OthersAreNew(matches: seq<Match>, items: seq<Match>)
    requires DistinctMatches(items)
    ensures DistinctMatches(Others(matches, items))
    ensures forall m :: m in Others(matches, items) <==>
              m in items && forall other <- matches :: other.company.slug != m.company.slug
  {
    if items != [] {
      OthersAreNew(matches, items[1..]);
      assert items == [items[0]] + items[1..];
    }
  }

  lemma {:induction false} InsertKeepsDistinct(m: Match, sorted: seq<Match>)
    requires DistinctMatches(sorted) && !HasSlug(sorted, m.company.slug)
    ensures DistinctMatches(Insert(m, sorted))
    ensures forall x :: x in Insert(m, sorted) <==> x == m || x in sorted
  {
    if sorted != [] && sorted[0].confidence > m.confidence {
      InsertKeepsDistinct(m, sorted[1..]);
      assert sorted == [sorted[0]] + sorted[1..];
      assert forall x <- Insert(m, sorted[1..]) :: x.company.slug != sorted[0].company.slug;
    }
  }

  lemma {:induction false} SortKeepsDistinct(matches: seq<Match>)
    requires DistinctMatches(matches)
    ensures DistinctMatches(SortByConfidence(matches))
    ensures forall x :: x in SortByConfidence(matches) <==> x in matches
  {
    if matches != [] {
      SortKeepsDistinct(matches[1..]);
      assert matches == [matches[0]] + matches[1..];
      InsertKeepsDistinct(matches[0], SortByConfidence(matches[1..]));
    }
  }

  lemma {:induction false} ScoredIsDistinct(k: Classes, companies: seq<Company>, query: string)
    requires UniqueSlugs(companies)
    ensures DistinctMatches(Scored(k, companies, query))
  {
    if companies != [] {
      ScoredIsDistinct(k, companies[1..], query);
      ScoredMatches(k, companies[1..], query);
    }
  }

  lemma SearchIsDistinct(k: Classes, companies: seq<Company>, query: string)
    requires UniqueSlugs(companies)
    ensures DistinctMatches(Search(k, companies, query))
  {
    ScoredIsDistinct(k, companies, Normalize(k, query));
    SortKeepsDistinct(Scored(k, companies, Normalize(k, query)));
  }

  /** Over a catalogue with unique slugs, merging gives the title's matches in their order,
      then the text's other matches in theirs: the union, with no company repeated. */
  lemma MergeIsOrderedUnion(k: Classes, companies: seq<Company>, title: Option<string>, content: string)
    requires UniqueSlugs(companies)
    ensures var first := if title.Some? then Search(k, companies, title.value) else [];
      var second := Search(k, companies, content);
      var merged := Merge(first, second);
      && merged == first + Others(first, second)
      && DistinctMatches(merged)
      && forall m :: m in merged <==>
           m in first || (m in second && forall other <- first :: other.company.slug != m.company.slug)
  {
    var first, second := TitleMatches(k, companies, title), Search(k, companies, content);
    if title.Some? {
      SearchIsDistinct(k, companies, title.value);
    }
    SearchIsDistinct(k, companies, content);
    MergeAppends(first, second);
    OthersAreNew(first, second);
  }
}
