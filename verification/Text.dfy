/** Normalised text and phrase matching: padded substring search stands for words. */
module Text {
  import opened Ascii

  /** The character classes of the text. Nothing is assumed of them beyond `Valid`. */
  datatype CharClasses = CharClasses(alphanumeric: char -> bool, whitespace: char -> bool)
  {
    ghost predicate Valid() {
      && whitespace(' ')
      && (forall c :: alphanumeric(c) ==> !whitespace(c))
      && (forall c :: 'a' <= c <= 'z' || 'A' <= c <= 'Z' ==> alphanumeric(c))
    }
  }

  type Classes = k: CharClasses | k.Valid()
    witness CharClasses(c => 'a' <= c <= 'z' || 'A' <= c <= 'Z', c => c == ' ')

  /** Letters and digits in lower case, anything else a space. */
  function MapChars(k: Classes, s: string): string {
    if s == "" then "" else [MapChar(k, s[0])] + MapChars(k, s[1..])
  }

  function MapChar(k: Classes, c: char): char {
    if k.alphanumeric(c) then LowerChar(c) else ' '
  }

  function SplitWhitespace(k: Classes, s: string): (words: seq<string>)
    ensures s != "" && !k.whitespace(s[0]) ==> words != []
  {
    if s == "" then []
    else
      var rest := SplitWhitespace(k, s[1..]);
      if k.whitespace(s[0]) then rest
      else if |s| == 1 || k.whitespace(s[1]) then [[s[0]]] + rest
      else [[s[0]] + rest[0]] + rest[1..]
  }

  function JoinWith(words: seq<string>, separator: string): string {
    if words == [] then ""
    else if |words| == 1 then words[0]
    else words[0] + separator + JoinWith(words[1..], separator)
  }

  function Join(words: seq<string>): string {
    JoinWith(words, " ")
  }

  function Words(k: Classes, s: string): seq<string> {
    SplitWhitespace(k, MapChars(k, s))
  }

  function Normalize(k: Classes, s: string): string {
    Join(Words(k, s))
  }

  predicate OccursAt<T(==)>(s: seq<T>, t: seq<T>, i: nat) {
    i + |t| <= |s| && s[i..i + |t|] == t
  }

  predicate Contains<T(==)>(s: seq<T>, t: seq<T>) {
    exists i | 0 <= i <= |s| :: OccursAt(s, t, i)
  }

  predicate Phrase(haystack: string, needle: string) {
    Contains(" " + haystack + " ", " " + needle + " ")
  }

  // Words and their normal form

  /** A word of normalised text. */
  predicate IsWord(k: Classes, w: string) {
    w != "" && forall i :: 0 <= i < |w| ==> k.alphanumeric(w[i]) && LowerChar(w[i]) == w[i]
  }

  predicate AllWords(k: Classes, words: seq<string>) {
    forall i :: 0 <= i < |words| ==> IsWord(k, words[i])
  }

  predicate NormalChars(k: Classes, s: string) {
    forall i :: 0 <= i < |s| ==> s[i] == ' ' || (k.alphanumeric(s[i]) && LowerChar(s[i]) == s[i])
  }

  lemma {:induction false} SplitGivesWords(k: Classes, s: string)
    requires NormalChars(k, s)
    ensures AllWords(k, SplitWhitespace(k, s))
  {
    if s != "" {
      SplitGivesWords(k, s[1..]);
    }
  }

  lemma {:induction false} MapIsNormal(k: Classes, s: string)
    ensures NormalChars(k, MapChars(k, s))
    ensures NormalChars(k, s) ==> MapChars(k, s) == s
  {
    if s != "" {
      MapIsNormal(k, s[1..]);
      assert NormalChars(k, s) ==> NormalChars(k, s[1..]);
    }
  }

  lemma WordsAreWords(k: Classes, s: string)
    ensures AllWords(k, Words(k, s))
  {
    MapIsNormal(k, s);
    SplitGivesWords(k, MapChars(k, s));
  }

  /** One more character in front of a text whose words are known. */
  function Prepend(k: Classes, c: char, s: string, words: seq<string>): seq<string>
    requires s != "" && !k.whitespace(s[0]) ==> words != []
  {
    if k.whitespace(c) then words
    else if s == "" || k.whitespace(s[0]) then [[c]] + words
    else [[c] + words[0]] + words[1..]
  }

  lemma SplitOfCons(k: Classes, c: char, s: string)
    ensures SplitWhitespace(k, [c] + s) == Prepend(k, c, s, SplitWhitespace(k, s))
  {
    assert ([c] + s)[1..] == s;
  }

  /** Splitting a concatenation at a space splits both sides. */
  lemma {:induction false} SplitOfConcat(k: Classes, a: string, b: string)
    requires b != "" ==> k.whitespace(b[0])
    ensures SplitWhitespace(k, a + b) == SplitWhitespace(k, a) + SplitWhitespace(k, b)
  {
    if a == "" {
      assert a + b == b;
    } else {
      var rest := a[1..];
      SplitOfConcat(k, rest, b);
      SplitOfCons(k, a[0], rest);
      SplitOfCons(k, a[0], rest + b);
      assert a == [a[0]] + rest && a + b == [a[0]] + (rest + b);
      PrependToConcat(k, a[0], rest, b, SplitWhitespace(k, rest), SplitWhitespace(k, b));
    }
  }

  lemma PrependToConcat(k: Classes, c: char, s: string, b: string, words: seq<string>, more: seq<string>)
    requires b != "" ==> k.whitespace(b[0])
    requires s != "" && !k.whitespace(s[0]) ==> words != []
    ensures Prepend(k, c, s + b, words + more) == Prepend(k, c, s, words) + more
  {
    if s == "" {
      assert s + b == b;
    } else if !k.whitespace(s[0]) {
      assert (words + more)[1..] == words[1..] + more;
    }
  }

  lemma {:induction false} SplitOfWord(k: Classes, w: string)
    requires IsWord(k, w)
    ensures SplitWhitespace(k, w) == [w]
  {
    if |w| > 1 {
      SplitOfWord(k, w[1..]);
      assert k.alphanumeric(w[1]);
      assert [w[0]] + w[1..] == w;
    } else {
      assert w == [w[0]] && SplitWhitespace(k, w[1..]) == [];
    }
  }

  lemma {:induction false} SplitOfJoin(k: Classes, words: seq<string>)
    requires AllWords(k, words)
    ensures SplitWhitespace(k, Join(words)) == words
    ensures NormalChars(k, Join(words))
  {
    if words != [] {
      SplitOfWord(k, words[0]);
      if |words| > 1 {
        SplitOfJoin(k, words[1..]);
        var tail := " " + Join(words[1..]);
        assert Join(words) == words[0] + tail;
        SplitOfConcat(k, words[0], tail);
        assert tail[1..] == Join(words[1..]);
      } else {
        assert words == [words[0]];
      }
    }
  }

  /** Normalising keeps the words, and normalised text is its own normal form. */
  lemma NormalizeIsIdempotent(k: Classes, s: string)
    ensures SplitWhitespace(k, Normalize(k, s)) == Words(k, s)
    ensures Words(k, Normalize(k, s)) == Words(k, s)
    ensures Normalize(k, Normalize(k, s)) == Normalize(k, s)
  {
    WordsAreWords(k, s);
    SplitOfJoin(k, Words(k, s));
    MapIsNormal(k, Normalize(k, s));
  }

  lemma {:induction false} MapOfConcat(k: Classes, a: string, b: string)
    ensures MapChars(k, a + b) == MapChars(k, a) + MapChars(k, b)
  {
    if a == "" {
      assert a + b == b;
    } else {
      MapOfConcat(k, a[1..], b);
      assert (a + b)[1..] == a[1..] + b;
    }
  }

  /** The words of two texts put together are the words of the one, then of the other. */
  lemma {:induction false} WordsOfConcat(k: Classes, a: string, b: string)
    ensures Words(k, a + " " + b) == Words(k, a) + Words(k, b)
  {
    MapOfConcat(k, a + " ", b);
    MapOfConcat(k, a, " ");
    var m, n := MapChars(k, a), MapChars(k, b);
    assert MapChars(k, " ") == " ";
    assert m + " " + n == m + (" " + n);
    SplitOfConcat(k, m, " " + n);
    assert (" " + n)[1..] == n;
  }

  function Concat(words: seq<string>): string {
    if words == [] then "" else words[0] + Concat(words[1..])
  }

  /** The letters and digits of a text, in lower case. */
  function Letters(k: Classes, s: string): string {
    if s == "" then ""
    else (if k.alphanumeric(s[0]) then [LowerChar(s[0])] else "") + Letters(k, s[1..])
  }

  lemma LowerIsNotSpace(k: Classes, c: char)
    requires k.alphanumeric(c)
    ensures k.alphanumeric(LowerChar(c)) && !k.whitespace(LowerChar(c))
  {
  }

  lemma {:induction false} ConcatOfPrepend(k: Classes, c: char, s: string, words: seq<string>)
    requires s != "" && !k.whitespace(s[0]) ==> words != []
    ensures Concat(Prepend(k, c, s, words)) == (if k.whitespace(c) then "" else [c]) + Concat(words)
  {
    var prepended := Prepend(k, c, s, words);
    if k.whitespace(c) {
    } else if s == "" || k.whitespace(s[0]) {
      assert prepended[1..] == words;
    } else {
      assert prepended[1..] == words[1..];
      assert prepended[0] + Concat(words[1..]) == [c] + (words[0] + Concat(words[1..]));
    }
  }

  /** The words of a text hold its letters and digits, each in lower case, in order, and
      nothing else. */
  lemma {:induction false} WordsKeepLetters(k: Classes, s: string)
    ensures Concat(Words(k, s)) == Letters(k, s)
  {
    if s != "" {
      WordsKeepLetters(k, s[1..]);
      SplitOfCons(k, MapChar(k, s[0]), MapChars(k, s[1..]));
      ConcatOfPrepend(k, MapChar(k, s[0]), MapChars(k, s[1..]), Words(k, s[1..]));
      if k.alphanumeric(s[0]) {
        LowerIsNotSpace(k, s[0]);
      }
    }
  }

  /** Texts that differ in ASCII letter case only have the same normal form. */
  lemma {:induction false} NormalizeIgnoresCase(k: Classes, a: string, b: string)
    requires EqIgnoreAsciiCase(a, b)
    ensures MapChars(k, a) == MapChars(k, b)
    ensures Normalize(k, a) == Normalize(k, b)
  {
    if a != "" {
      assert LowerChar(a[0]) == LowerChar(b[0]);
      assert MapChar(k, a[0]) == MapChar(k, b[0]);
      NormalizeIgnoresCase(k, a[1..], b[1..]);
    }
  }

  // Phrases

  /** Each word followed by a space. */
  function Flat(words: seq<string>): string {
    if words == [] then "" else words[0] + " " + Flat(words[1..])
  }

  predicate Spaceless(words: seq<string>) {
    forall i :: 0 <= i < |words| ==> words[i] != "" && ' ' !in words[i]
  }

  lemma {:induction false} JoinIsFlat(words: seq<string>)
    requires words != []
    ensures Join(words) + " " == Flat(words)
  {
    if |words| > 1 {
      JoinIsFlat(words[1..]);
      assert Join(words) + " " == words[0] + " " + (Join(words[1..]) + " ");
    } else {
      assert Flat(words[1..]) == "";
    }
  }

  lemma {:induction false} FlatOfConcat(a: seq<string>, b: seq<string>)
    ensures Flat(a + b) == Flat(a) + Flat(b)
  {
    if a == [] {
      assert a + b == b;
    } else {
      FlatOfConcat(a[1..], b);
      assert (a + b)[1..] == a[1..] + b;
    }
  }

  lemma {:induction false} FlatEndsInSpace(words: seq<string>)
    ensures (" " + Flat(words))[|Flat(words)|] == ' '
  {
    if words != [] {
      FlatEndsInSpace(words[1..]);
      var tail := " " + Flat(words[1..]);
      assert Flat(words) == words[0] + tail;
    }
  }

  /** A space in the padded text is where some word starts, or where the text ends. */
  lemma {:induction false} SpaceIsBoundary(words: seq<string>, i: nat) returns (j: nat)
    requires Spaceless(words) && i <= |Flat(words)| && (" " + Flat(words))[i] == ' '
    ensures j <= |words| && (" " + Flat(words))[i + 1..] == Flat(words[j..])
  {
    if i == 0 {
      j := 0;
    } else {
      var w, tail := words[0], " " + Flat(words[1..]);
      assert Flat(words) == w + tail;
      assert forall p :: 0 <= p < |w| ==> w[p] != ' ';
      var j' := SpaceIsBoundary(words[1..], i - 1 - |w|);
      j := j' + 1;
      assert words[j..] == words[1..][j'..];
      assert (" " + Flat(words))[i + 1..] == tail[i - |w|..];
    }
  }

  /** Flat text determines its words. */
  lemma {:induction false} FlatPrefix(a: seq<string>, b: seq<string>)
    requires Spaceless(a) && Spaceless(b) && Flat(a) <= Flat(b)
    ensures a <= b
  {
    if a != [] {
      assert b != [];
      var v, w := a[0], b[0];
      var s, t := Flat(a), Flat(b);
      assert s == v + (" " + Flat(a[1..])) && t == w + (" " + Flat(b[1..]));
      assert forall p :: 0 <= p < |v| ==> v[p] == s[p] != ' ';
      assert forall p :: 0 <= p < |w| ==> w[p] == t[p] != ' ';
      assert s[|v|] == ' ' && t[|w|] == ' ';
      assert |v| == |w|;
      assert v == s[..|v|] == t[..|v|] == w;
      assert Flat(a[1..]) == s[|v| + 1..] && Flat(b[1..]) == t[|v| + 1..];
      FlatPrefix(a[1..], b[1..]);
    }
  }

  lemma SpacedPrefix(a: string, b: string, rest: string)
    requires (" " + a)[|a|] == ' '
    ensures OccursAt(" " + (a + b + rest), " " + b, |a|)
  {
    var s := " " + (a + b + rest);
    assert s == (" " + a) + b + rest;
    assert s[|a|] == ' ';
    assert s[|a| + 1..|a| + 1 + |b|] == b;
  }

  lemma {:induction false} BlockIsPhrase(hay: seq<string>, needle: seq<string>, j: nat)
    requires needle != [] && OccursAt(hay, needle, j)
    ensures Phrase(Join(hay), Join(needle))
  {
    JoinIsFlat(hay);
    JoinIsFlat(needle);
    var a, b := hay[..j], hay[j + |needle|..];
    assert hay == a + needle + b;
    FlatOfConcat(a + needle, b);
    FlatOfConcat(a, needle);
    FlatEndsInSpace(a);
    SpacedPrefix(Flat(a), Flat(needle), Flat(b));
    assert " " + Join(hay) + " " == " " + Flat(hay);
    assert " " + Join(needle) + " " == " " + Flat(needle);
  }

  lemma {:induction false} PhraseIsBlock(hay: seq<string>, needle: seq<string>)
    requires Spaceless(hay) && Spaceless(needle) && hay != [] && needle != []
    requires Phrase(Join(hay), Join(needle))
    ensures Contains(hay, needle)
  {
    JoinIsFlat(hay);
    JoinIsFlat(needle);
    var padded, wanted := " " + Join(hay) + " ", " " + Join(needle) + " ";
    assert padded == " " + Flat(hay) && wanted == " " + Flat(needle);
    var i :| 0 <= i <= |padded| && OccursAt(padded, wanted, i);
    assert padded[i] == wanted[0] == ' ';
    var j := SpaceIsBoundary(hay, i);
    assert Flat(needle) == wanted[1..] == padded[i + 1..i + |wanted|];
    assert Flat(needle) <= Flat(hay[j..]);
    FlatPrefix(needle, hay[j..]);
    assert OccursAt(hay, needle, j);
  }

  /** The empty phrase occurs in the empty text only: words are never two spaces apart. */
  lemma {:induction false} EmptyPhrase(hay: seq<string>)
    requires Spaceless(hay)
    ensures Phrase(Join(hay), "") <==> hay == []
  {
    var padded, wanted := " " + Join(hay) + " ", " " + "" + " ";
    if hay == [] {
      assert OccursAt(padded, wanted, 0);
    } else if Phrase(Join(hay), "") {
      JoinIsFlat(hay);
      assert padded == " " + Flat(hay);
      var i :| 0 <= i <= |padded| && OccursAt(padded, wanted, i);
      assert padded[i] == wanted[0] && padded[i + 1] == wanted[1];
      var j := SpaceIsBoundary(hay, i);
    }
  }

  lemma WordsAreSpaceless(k: Classes, words: seq<string>)
    requires AllWords(k, words)
    ensures Spaceless(words)
  {
  }

  /** Phrase matching on normalised text is exactly matching of consecutive words, except
      that an empty phrase matches empty text only. */
  lemma {:induction false} PhraseMeaning(k: Classes, hay: seq<string>, needle: seq<string>)
    requires AllWords(k, hay) && AllWords(k, needle)
    ensures Phrase(Join(hay), Join(needle)) <==> if needle == [] then hay == [] else Contains(hay, needle)
  {
    WordsAreSpaceless(k, hay);
    WordsAreSpaceless(k, needle);
    if needle == [] {
      EmptyPhrase(hay);
    } else if hay == [] {
      assert |Join(needle)| > 0 by { JoinIsFlat(needle); assert Flat(needle)[0] == needle[0][0]; }
    } else {
      if Contains(hay, needle) {
        var j :| 0 <= j <= |hay| && OccursAt(hay, needle, j);
        BlockIsPhrase(hay, needle, j);
      }
      if Phrase(Join(hay), Join(needle)) {
        PhraseIsBlock(hay, needle);
      }
    }
  }

  /** The same for any two texts and their normal forms. */
  lemma {:induction false} NormalizedPhrase(k: Classes, text: string, phrase: string)
    ensures Phrase(Normalize(k, text), Normalize(k, phrase)) <==>
            if Words(k, phrase) == [] then Words(k, text) == [] else Contains(Words(k, text), Words(k, phrase))
  {
    WordsAreWords(k, text);
    WordsAreWords(k, phrase);
    PhraseMeaning(k, Words(k, text), Words(k, phrase));
  }

  /** A text ends in a space, or is empty. */
  predicate EndsWord(before: string) {
    before == "" || before[|before| - 1] == ' '
  }

  predicate StartsWord(after: string) {
    after == "" || after[0] == ' '
  }

  /** Padded search on any text at all: the phrase occurs with a space, or an end of the text,
      on both sides. */
  lemma PhraseIsBounded(text: string, phrase: string)
    ensures Phrase(text, phrase) <==>
            exists before, after :: text == before + phrase + after && EndsWord(before) && StartsWord(after)
  {
    if Phrase(text, phrase) {
      var i :| 0 <= i <= |" " + text + " "| && OccursAt(" " + text + " ", " " + phrase + " ", i);
      FoundInPadding(text, phrase, i);
    }
    if before, after :| text == before + phrase + after && EndsWord(before) && StartsWord(after) {
      FoundBetween(before, phrase, after);
    }
  }

  lemma FoundInPadding(text: string, phrase: string, i: nat)
    requires OccursAt(" " + text + " ", " " + phrase + " ", i)
    ensures var j := i + |phrase|;
      j <= |text| && text == text[..i] + phrase + text[j..] && EndsWord(text[..i]) && StartsWord(text[j..])
  {
    var padded, wanted, n := " " + text + " ", " " + phrase + " ", |phrase|;
    assert padded[i] == wanted[0] && padded[i + n + 1] == wanted[n + 1];
    forall k | 0 <= k < n ensures text[i + k] == phrase[k] {
      assert padded[i..i + n + 2][k + 1] == wanted[k + 1];
    }
    assert text[i..i + n] == phrase;
  }

  lemma FoundBetween(before: string, phrase: string, after: string)
    requires EndsWord(before) && StartsWord(after)
    ensures Phrase(before + phrase + after, phrase)
  {
    var text, i := before + phrase + after, |before|;
    var padded, wanted := " " + text + " ", " " + phrase + " ";
    assert padded[i] == ' ' && padded[i + |phrase| + 1] == ' ';
    assert padded[i + 1..i + 1 + |phrase|] == phrase;
    assert padded[i..i + |wanted|] == wanted;
    assert OccursAt(padded, wanted, i);
  }

  lemma {:induction false} JoinOfMore(words: seq<string>, word: string, separator: string)
    ensures JoinWith(words + [word], separator) == if words == [] then word else JoinWith(words, separator) + separator + word
  {
    if words != [] {
      JoinOfMore(words[1..], word, separator);
      assert (words + [word])[1..] == words[1..] + [word];
    }
  }
}
