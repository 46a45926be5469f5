/** Marking the matches of a resolution. */
module Roles {
  import opened Options
  import opened Catalog

  /** The first match is the primary one, and nothing but the roles is set. */
  predicate HaveRoles(before: seq<Match>, after: seq<Match>) {
    && |after| == |before|
    && forall i :: 0 <= i < |after| ==> after[i] == before[i].(role := Some(if i == 0 then "primary" else "mentioned"))
  }

  method AssignRoles(found: seq<Match>) returns (matches: seq<Match>)
    ensures HaveRoles(found, matches)
  {
    matches := found;
    for index := 0 to |matches|
      invariant |matches| == |found|
      invariant HaveRoles(found[..index], matches[..index])
      invariant matches[index..] == found[index..]
    {
      assert matches[index] == found[index];
      var role := Some(if index == 0 then "primary" else "mentioned");
      matches := matches[index := matches[index].(role := role)];
    }
  }
}

/** Resolving what a camera recognised: text and labels, with hints from labels to products. */
module Lens {
  import opened Options
  import opened Ascii
  import opened Text
  import opened Catalog
  import opened Roles
  import opened Trimming

  const MAX_TEXT_CHARS := 10_000
  const MAX_LABELS := 50
  const MAX_LABEL_CHARS := 100

  predicate StartsWithLetter(s: string) {
    s != "" && 'a' <= s[0] <= 'z'
  }

  /** A recognition label: every one in the table starts with a letter. */
  type Tag = s: string | StartsWithLetter(s) witness "a"

  datatype Hint = Hint(labels: seq<Tag>, company: string)

  const OBJECT_HINTS: seq<Hint> := [
    Hint(["cellular telephone", "mobile phone", "smartphone"], "iPhone"),
    Hint(["laptop computer", "notebook computer"], "MacBook"),
    Hint(["earbud", "wireless earphone"], "AirPods"),
    Hint(["smartwatch", "watch computer"], "Apple Watch"),
    Hint(["head mounted display", "virtual reality headset", "vr headset"], "Meta Quest"),
    Hint(["social networking", "social media app"], "Instagram Facebook")
  ]

  const COMPUTING_HINTS: seq<Hint> := [
    Hint(["graphics card", "graphics processing unit", "gpu", "video card"], "GeForce RTX"),
    Hint(["ai accelerator", "compute accelerator"], "NVIDIA CUDA"),
    Hint(["search engine", "web search"], "Google"),
    Hint(["video sharing", "video platform"], "YouTube"),
    Hint(["android phone", "pixel phone"], "Google Pixel")
  ]

  const LOGO_HINTS: seq<Hint> := [
    Hint(["apple logo", "apple symbol"], "Apple"),
    Hint(["nvidia logo"], "NVIDIA"),
    Hint(["google logo"], "Google"),
    Hint(["meta logo"], "Meta")
  ]

  const MICROSOFT_HINTS: seq<Hint> := [
    Hint(["microsoft logo", "windows logo"], "Microsoft"),
    Hint(["surface computer", "surface tablet"], "Microsoft Surface"),
    Hint(["windows computer", "windows laptop"], "Microsoft Windows"),
    Hint(["game console", "gaming console"], "Microsoft Xbox")
  ]

  const PRODUCT_HINTS: seq<Hint> := OBJECT_HINTS + COMPUTING_HINTS + LOGO_HINTS + MICROSOFT_HINTS

  datatype LensResult =
    | Resolved(signals: seq<string>, matches: seq<Match>)
    | EmptyInput
    | InputTooLarge

  predicate TooLarge(text: Option<string>, labels: seq<string>) {
    || (text.Some? && |text.value| > MAX_TEXT_CHARS)
    || |labels| > MAX_LABELS
    || exists tag <- labels :: |tag| > MAX_LABEL_CHARS
  }

  predicate Known(signals: seq<string>, tag: string) {
    exists existing <- signals :: EqIgnoreAsciiCase(existing, tag)
  }

  function Signals(k: Classes, signals: seq<string>, labels: seq<string>): seq<string>
    decreases labels
  {
    if labels == [] then signals
    else
      var tag := Trim(k.whitespace, labels[0]);
      Signals(k, if tag != "" && !Known(signals, tag) then signals + [tag] else signals, labels[1..])
  }

  function TextSignals(k: Classes, text: Option<string>): seq<string> {
    if text.Some? && Trim(k.whitespace, text.value) != "" then [Trim(k.whitespace, text.value)] else []
  }

  /** Lower case, with every hyphen a space. */
  function Plain(s: string): string {
    if s == "" then "" else [if s[0] == '-' then ' ' else LowerChar(s[0])] + Plain(s[1..])
  }

  predicate Suggests(hint: Hint, signals: string) {
    exists tag <- hint.labels :: Phrase(signals, tag)
  }

  function Inferred(hints: seq<Hint>, signals: string): seq<string> {
    if hints == [] then []
    else
      var rest := Inferred(hints[1..], signals);
      if Suggests(hints[0], signals) then [hints[0].company] + rest else rest
  }

  function Query(hints: seq<Hint>, signals: seq<string>): string {
    var inferred := Inferred(hints, Plain(Join(signals)));
    if inferred == [] then Join(signals) else Join(signals) + " " + Join(inferred)
  }

  method Resolve(k: Classes, companies: seq<Company>, text: Option<string>, labels: seq<string>)
    returns (r: LensResult)
    ensures r.InputTooLarge? <==>
            (text.Some? && |text.value| > 10_000) || |labels| > 50 || exists tag <- labels :: |tag| > 100
    ensures var first := if text.Some? && Trim(k.whitespace, text.value) != "" then [Trim(k.whitespace, text.value)] else [];
      !r.InputTooLarge? ==>
        && (r.EmptyInput? <==> Signals(k, first, labels) == [])
        && (r.Resolved? ==>
              && r.signals == Signals(k, first, labels)
              && HaveRoles(Search(k, companies, Query(PRODUCT_HINTS, r.signals)), r.matches))
  {
    if TooLarge(text, labels) {
      return InputTooLarge;
    }
    var signals := [];
    if text.Some? {
      var trimmed := Trim(k.whitespace, text.value);
      if trimmed != "" {
        signals := signals + [trimmed];
      }
    }
    assert signals == TextSignals(k, text) && labels[0..] == labels;
    for i := 0 to |labels|
      invariant Signals(k, signals, labels[i..]) == Signals(k, TextSignals(k, text), labels)
    {
      var tag := Trim(k.whitespace, labels[i]);
      if tag != "" && !Known(signals, tag) {
        signals := signals + [tag];
      }
    }
    if signals == [] {
      return EmptyInput;
    }
    var matches := AssignRoles(Search(k, companies, Query(PRODUCT_HINTS, signals)));
    return Resolved(signals, matches);
  }

  // The signals

  predicate Distinct(signals: seq<string>) {
    forall i, j :: 0 <= i < j < |signals| ==> !EqIgnoreAsciiCase(signals[i], signals[j])
  }

  /** Signals are distinct ignoring case; the text comes first, and every label that says
      anything is represented, in a spelling that was given. */
  lemma {:induction false} SignalsAreDistinct(k: Classes, signals: seq<string>, labels: seq<string>)
    requires Distinct(signals)
    ensures var all := Signals(k, signals, labels);
      && Distinct(all)
      && signals <= all
      && (forall tag <- labels :: Trim(k.whitespace, tag) != "" ==> exists s <- all :: EqIgnoreAsciiCase(s, Trim(k.whitespace, tag)))
      && (forall s <- all :: s in signals || (s != "" && exists tag <- labels :: s == Trim(k.whitespace, tag)))
    decreases labels
  {
    if labels != [] {
      var tag := Trim(k.whitespace, labels[0]);
      var next := if tag != "" && !Known(signals, tag) then signals + [tag] else signals;
      SignalsAreDistinct(k, next, labels[1..]);
      if tag != "" && !Known(signals, tag) {
        assert EqIgnoreAsciiCase(tag, tag) && tag in next;
        assert Known(next, tag);
      }
      assert labels == [labels[0]] + labels[1..];
    }
  }

  /** Further labels only add signals at the end: each is there in its first spelling. */
  lemma {:induction false} SignalsGrow(k: Classes, signals: seq<string>, labels: seq<string>, more: seq<string>)
    ensures Signals(k, signals, labels + more) == Signals(k, Signals(k, signals, labels), more)
    ensures Signals(k, signals, labels) <= Signals(k, signals, labels + more)
    decreases labels
  {
    if labels == [] {
      assert labels + more == more;
      SignalsExtend(k, signals, more);
    } else {
      var tag := Trim(k.whitespace, labels[0]);
      assert (labels + more)[1..] == labels[1..] + more;
      SignalsGrow(k, if tag != "" && !Known(signals, tag) then signals + [tag] else signals, labels[1..], more);
    }
  }

  lemma {:induction false} SignalsExtend(k: Classes, signals: seq<string>, labels: seq<string>)
    ensures signals <= Signals(k, signals, labels)
    decreases labels
  {
    if labels != [] {
      var tag := Trim(k.whitespace, labels[0]);
      SignalsExtend(k, if tag != "" && !Known(signals, tag) then signals + [tag] else signals, labels[1..]);
    }
  }

  // The hints

  /** One of the hint's labels occurs in the text with a space, or an end, on both sides. */
  ghost predicate Occurs(hint: Hint, text: string) {
    exists tag <- hint.labels ::
      exists before, after :: text == before + tag + after && EndsWord(before) && StartsWord(after)
  }

  /** The products of the hints that occur, in the table's order. */
  ghost function Suggested(hints: seq<Hint>, text: string): seq<string> {
    if hints == [] then []
    else
      var last := hints[|hints| - 1];
      Suggested(hints[..|hints| - 1], text) + if Occurs(last, text) then [last.company] else []
  }

  lemma {:induction false} SuggestedOfCons(hint: Hint, hints: seq<Hint>, text: string)
    ensures Suggested([hint] + hints, text) == (if Occurs(hint, text) then [hint.company] else []) + Suggested(hints, text)
  {
    var all := [hint] + hints;
    if hints == [] {
      assert all[..0] == [] && all[0] == hint;
    } else {
      var n := |hints| - 1;
      assert all[..|all| - 1] == [hint] + hints[..n];
      SuggestedOfCons(hint, hints[..n], text);
    }
  }

  /** Exactly the products whose labels occur are inferred, in the table's order. */
  lemma {:induction false} InferredIsSuggested(hints: seq<Hint>, text: string)
    ensures Inferred(hints, text) == Suggested(hints, text)
  {
    if hints != [] {
      forall tag | tag in hints[0].labels
        ensures Phrase(text, tag) <==>
                exists before, after :: text == before + tag + after && EndsWord(before) && StartsWord(after)
      {
        PhraseIsBounded(text, tag);
      }
      InferredIsSuggested(hints[1..], text);
      SuggestedOfCons(hints[0], hints[1..], text);
      assert hints == [hints[0]] + hints[1..];
    }
  }

  /** The words of several texts, one after the other. */
  function WordsOfAll(k: Classes, texts: seq<string>): seq<string> {
    if texts == [] then [] else Words(k, texts[0]) + WordsOfAll(k, texts[1..])
  }

  lemma {:induction false} WordsOfJoin(k: Classes, texts: seq<string>)
    ensures Words(k, Join(texts)) == WordsOfAll(k, texts)
  {
    if |texts| == 1 {
      assert WordsOfAll(k, texts[1..]) == [];
    } else if |texts| > 1 {
      WordsOfJoin(k, texts[1..]);
      WordsOfConcat(k, texts[0], Join(texts[1..]));
      assert Join(texts) == texts[0] + " " + Join(texts[1..]);
    }
  }

  /** What is searched for: the words of the signals, then of the products that their labels
      suggest, and nothing else. Letter case and hyphens of the signals do not matter. */
  lemma QueryIsExact(k: Classes, hints: seq<Hint>, signals: seq<string>)
    ensures Words(k, Query(hints, signals)) ==
            WordsOfAll(k, signals) + WordsOfAll(k, Suggested(hints, Plain(Join(signals))))
  {
    var text := Join(signals);
    var inferred := Inferred(hints, Plain(text));
    InferredIsSuggested(hints, Plain(text));
    WordsOfJoin(k, signals);
    WordsOfJoin(k, inferred);
    if inferred != [] {
      WordsOfConcat(k, text, Join(inferred));
    }
  }

  lemma {:induction false} PlainAt(s: string, i: nat)
    requires i < |s|
    ensures |Plain(s)| == |s| && Plain(s)[i] == if s[i] == '-' then ' ' else LowerChar(s[i])
  {
    if |s| > 1 {
      PlainAt(s[1..], if i == 0 then 0 else i - 1);
    }
  }

  lemma {:induction false} LetterMakesWord(k: Classes, s: string, i: nat)
    requires i < |s| && k.alphanumeric(s[i]) && ('a' <= s[i] <= 'z' || 'A' <= s[i] <= 'Z')
    ensures Words(k, s) != []
  {
    var c := LowerChar(s[i]);
    assert k.alphanumeric(c) && !k.whitespace(c);
    if i > 0 {
      LetterMakesWord(k, s[1..], i - 1);
    }
  }

  lemma {:induction false} InferredFromHint(hints: seq<Hint>, signals: string)
    ensures Inferred(hints, signals) != [] ==> exists hint <- hints :: Suggests(hint, signals)
  {
    if hints != [] {
      InferredFromHint(hints[1..], signals);
    }
  }

  /** A label that occurs in the signals shows a letter in them. */
  lemma PhraseShowsLetter(k: Classes, text: string, tag: string)
    requires StartsWithLetter(tag) && Phrase(Plain(text), tag)
    ensures Words(k, text) != []
  {
    var padded, wanted := " " + Plain(text) + " ", " " + tag + " ";
    var i :| 0 <= i <= |padded| && OccursAt(padded, wanted, i);
    assert padded[i + 1] == wanted[1] == tag[0];
    assert text != "";
    PlainAt(text, 0);
    assert padded[i + 1] == Plain(text)[i];
    PlainAt(text, i);
    LetterMakesWord(k, text, i);
  }

  /** Expanding the signals with hints never loses a company, in any catalogue: whatever the
      signals alone match, the expanded query matches too, and the confidence never drops,
      except that a direct match may become a direct reference. */
  lemma ExpansionLosesNothing(k: Classes, hints: seq<Hint>, signals: seq<string>, company: Company)
    requires Score(k, company, Normalize(k, Join(signals))).Some?
    ensures var before := Score(k, company, Normalize(k, Join(signals))).value.confidence;
      var expanded := Score(k, company, Normalize(k, Query(hints, signals)));
      && expanded.Some?
      && (expanded.value.confidence >= before || (before == 1.0 && expanded.value.confidence == 0.98))
  {
    var text := Join(signals);
    var inferred := Inferred(hints, Plain(text));
    if inferred != [] {
      InferredFromHint(hints, Plain(text));
      var hint :| hint in hints && Suggests(hint, Plain(text));
      var tag :| tag in hint.labels && Phrase(Plain(text), tag);
      PhraseShowsLetter(k, text, tag);
      WordsOfConcat(k, text, Join(inferred));
      ScoreIsTier(k, company, text);
      ScoreIsTier(k, company, Query(hints, signals));
      TierOfLongerText(k, company, Words(k, text), Words(k, Join(inferred)));
    }
  }

  /** So every match of the signals alone is there in the resolution. */
  lemma ResolutionKeepsMatches(k: Classes, companies: seq<Company>, signals: seq<string>, m: Match)
    requires m in Search(k, companies, Join(signals))
    ensures exists m' <- Search(k, companies, Query(PRODUCT_HINTS, signals)) ::
              && m'.company == m.company
              && (m'.confidence >= m.confidence || (m.confidence == 1.0 && m'.confidence == 0.98))
  {
    SearchFindsScored(k, companies, Join(signals), m);
    ExpansionLosesNothing(k, PRODUCT_HINTS, signals, m.company);
    var expanded := Query(PRODUCT_HINTS, signals);
    var m' := Score(k, m.company, Normalize(k, expanded)).value;
    ScoreIsTier(k, m.company, expanded);
    SearchFindsScored(k, companies, expanded, m');
  }

  // What the hints add

  lemma {:induction false} OccurringIsSuggested(hints: seq<Hint>, text: string, hint: Hint)
    requires hint in hints && Occurs(hint, text)
    ensures hint.company in Suggested(hints, text)
  {
    var n := |hints| - 1;
    if hint != hints[n] {
      assert hints == hints[..n] + [hints[n]];
      OccurringIsSuggested(hints[..n], text, hint);
    }
  }

  /** The words of each text stand together among those of all. */
  lemma {:induction false} WordsOfOne(k: Classes, texts: seq<string>, text: string) returns (before: seq<string>, after: seq<string>)
    requires text in texts
    ensures WordsOfAll(k, texts) == before + Words(k, text) + after
  {
    if text == texts[0] {
      before, after := [], WordsOfAll(k, texts[1..]);
    } else {
      var b, c := WordsOfOne(k, texts[1..], text);
      before, after := Words(k, texts[0]) + b, c;
    }
  }

  /** A hint reaches its company: when a recognition label occurs in the signals, every
      company that has the hinted product among its aliases matches the expanded query, with
      at least the confidence of an alias. */
  lemma HintReachesCompany(k: Classes, hints: seq<Hint>, signals: seq<string>, hint: Hint, company: Company, alias: string)
    requires hint in hints && Occurs(hint, Plain(Join(signals)))
    requires alias in company.aliases && Words(k, alias) != [] && Mentions(Words(k, hint.company), Words(k, alias))
    ensures var m := Score(k, company, Normalize(k, Query(hints, signals)));
      m.Some? && m.value.confidence >= 0.95
  {
    QueryMentions(k, hints, signals, hint, Words(k, alias));
    AliasScores(k, company, Query(hints, signals), alias);
  }

  lemma QueryMentions(k: Classes, hints: seq<Hint>, signals: seq<string>, hint: Hint, words: seq<string>)
    requires hint in hints && Occurs(hint, Plain(Join(signals)))
    requires words != [] && Mentions(Words(k, hint.company), words)
    ensures Mentions(Words(k, Query(hints, signals)), words)
  {
    var text := Plain(Join(signals));
    QueryIsExact(k, hints, signals);
    OccurringIsSuggested(hints, text, hint);
    var b, c := WordsOfOne(k, Suggested(hints, text), hint.company);
    MentionedWithin(WordsOfAll(k, signals), b, Words(k, hint.company), c, words);
  }

  lemma AliasScores(k: Classes, company: Company, text: string, alias: string)
    requires alias in company.aliases && Mentions(Words(k, text), Words(k, alias))
    ensures var m := Score(k, company, Normalize(k, text)); m.Some? && m.value.confidence >= 0.95
  {
    ScoreIsTier(k, company, text);
  }

  lemma MentionedWithin(a: seq<string>, b: seq<string>, text: seq<string>, c: seq<string>, words: seq<string>)
    requires words != [] && Mentions(text, words)
    ensures Mentions(a + (b + text + c), words)
  {
    var before, after :| text == before + words + after;
    assert a + (b + text + c) == (a + b + before) + words + (after + c);
  }
}
