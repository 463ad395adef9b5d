/** `FlashcardGenerator`: vocabulary cards with a translation and a short example
    sentence, high-priority words first. */
module Flashcard {
  import opened Wrappers
  import opened Text
  import opened Seqs
  import VocabularyExtractor
  import SentenceExtractor
  import GeminiHelper

  type VocabEntry = VocabularyExtractor.VocabEntry

  const MaxCards: nat := 4
  const MaxExample: nat := 150
  const Simple: set<string> := {"very", "good", "nice", "bad", "fine"}
  /** The character class of the sentence splitter `[.!?]+`. */
  const Enders: set<char> := {'.', '!', '?'}

  datatype Card = Card(word: string, translation: string, exampleSentence: string, category: string, difficulty: string)

  // ------------------------------------------------------------ priority order

  predicate High(e: VocabEntry) { e.priority == "high" }
  predicate Low(e: VocabEntry) { e.priority != "high" }

  /** `sorted(vocabulary, key=1 if priority == 'high' else 2)`: Python's sort is stable,
      so this is the high-priority entries in their order, then the others in theirs. */
  function ByPriority(vocab: seq<VocabEntry>): (r: seq<VocabEntry>)
    ensures multiset(r) == multiset(vocab)
    ensures forall i, j :: 0 <= i < j < |r| && High(r[j]) ==> High(r[i])
    ensures Filter(r, High) == Filter(vocab, High) && Filter(r, Low) == Filter(vocab, Low)
  {
    var hi := Filter(vocab, High);
    var lo := Filter(vocab, Low);
    FilterSplit(vocab, High, Low);
    HighFirst(hi, lo);
    FiltersOfParts(hi, lo);
    hi + lo
  }

  /** High entries followed by low ones put every high entry before every low one. */
  lemma HighFirst(hi: seq<VocabEntry>, lo: seq<VocabEntry>)
    requires forall x :: x in hi ==> High(x)
    requires forall x :: x in lo ==> Low(x)
    ensures forall i, j :: 0 <= i < j < |hi + lo| && High((hi + lo)[j]) ==> High((hi + lo)[i])
  {
    forall i, j | 0 <= i < j < |hi + lo| && High((hi + lo)[j])
      ensures High((hi + lo)[i])
    {
      ConcatIndex(hi, lo, i);
      ConcatIndex(hi, lo, j);
    }
  }

  /** Each element of a concatenation comes from the part its index falls in. */
  lemma ConcatIndex(hi: seq<VocabEntry>, lo: seq<VocabEntry>, k: nat)
    requires k < |hi + lo|
    ensures k < |hi| ==> (hi + lo)[k] in hi
    ensures k >= |hi| ==> (hi + lo)[k] in lo
  {
    if k < |hi| {
      assert (hi + lo)[k] == hi[k];
    } else {
      assert (hi + lo)[k] == lo[k - |hi|];
    }
  }

  /** Filtering the high entries followed by the low ones gives back each part. */
  lemma FiltersOfParts(hi: seq<VocabEntry>, lo: seq<VocabEntry>)
    requires forall x :: x in hi ==> High(x)
    requires forall x :: x in lo ==> Low(x)
    ensures Filter(hi + lo, High) == hi && Filter(hi + lo, Low) == lo
  {
    FilterAppend(hi, lo, High);
    FilterAppend(hi, lo, Low);
    FilterAll(hi, High);
    FilterNone(lo, High);
    FilterAll(lo, Low);
    FilterNone(hi, Low);
  }

  // ------------------------------------------------------------ short example

  /** Length of the leading run of characters outside `cs`. */
  function FreeLen(s: string, cs: set<char>): (n: nat)
    ensures n <= |s|
    ensures forall k :: 0 <= k < n ==> s[k] !in cs
    ensures n < |s| ==> s[n] in cs
    decreases |s|
  {
    if |s| > 0 && s[0] !in cs then 1 + FreeLen(s[1..], cs) else 0
  }

  /** `re.split('[' + cs + ']+', s)`: the pieces between maximal runs of `cs` characters,
      with an empty piece before a leading run and after a trailing one. */
  function SplitRuns(s: string, cs: set<char>): (r: seq<string>)
    ensures |r| > 0
    ensures forall k :: 0 <= k < |r| ==> NoneIn(r[k], cs)
    decreases |s|
  {
    var i := FreeLen(s, cs);
    if i == |s| then [s]
    else
      var j := i + LeadLen(s[i..], cs);
      [s[..i]] + SplitRuns(s[j..], cs)
  }

  /** `s` with every character of `cs` removed. */
  function Without(s: string, cs: set<char>): (r: string)
    ensures NoneIn(r, cs)
    decreases |s|
  {
    if |s| == 0 then "" else if s[0] in cs then Without(s[1..], cs) else [s[0]] + Without(s[1..], cs)
  }

  lemma {:induction false} WithoutAppend(a: string, b: string, cs: set<char>)
    ensures Without(a + b, cs) == Without(a, cs) + Without(b, cs)
    decreases |a|
  {
    if |a| > 0 {
      assert (a + b)[0] == a[0];
      assert (a + b)[1..] == a[1..] + b;
      WithoutAppend(a[1..], b, cs);
    } else {
      assert a + b == b;
    }
  }

  lemma {:induction false} WithoutFree(s: string, cs: set<char>)
    requires NoneIn(s, cs)
    ensures Without(s, cs) == s
    decreases |s|
  {
    if |s| > 0 {
      WithoutFree(s[1..], cs);
    }
  }

  lemma {:induction false} WithoutRun(s: string, cs: set<char>)
    requires forall k :: 0 <= k < |s| ==> s[k] in cs
    ensures Without(s, cs) == ""
    decreases |s|
  {
    if |s| > 0 {
      WithoutRun(s[1..], cs);
    }
  }

  lemma WithoutThree(s: string, i: nat, j: nat, cs: set<char>)
    requires i <= j <= |s|
    requires NoneIn(s[..i], cs)
    requires forall k :: i <= k < j ==> s[k] in cs
    ensures Without(s, cs) == s[..i] + Without(s[j..], cs)
  {
    assert s == s[..i] + (s[i..j] + s[j..]);
    WithoutAppend(s[..i], s[i..j] + s[j..], cs);
    WithoutAppend(s[i..j], s[j..], cs);
    WithoutFree(s[..i], cs);
    WithoutRun(s[i..j], cs);
  }

  /** The splitter loses exactly the separator characters: joining the pieces gives the
      text with every `cs` character removed. */
  lemma {:induction false} SplitRunsJoin(s: string, cs: set<char>)
    ensures Concat(SplitRuns(s, cs)) == Without(s, cs)
    decreases |s|
  {
    var i := FreeLen(s, cs);
    if i == |s| {
      WithoutFree(s, cs);
      assert Concat([s]) == s + Concat([]);
    } else {
      var j := i + LeadLen(s[i..], cs);
      var rest := SplitRuns(s[j..], cs);
      assert SplitRuns(s, cs) == [s[..i]] + rest;
      assert Concat([s[..i]] + rest) == s[..i] + Concat(rest) by {
        assert ([s[..i]] + rest)[1..] == rest;
      }
      SplitRunsJoin(s[j..], cs);
      WithoutThree(s, i, j, cs);
    }
  }

  /** A piece qualifies as the example: it holds the word (ignoring case) and has more
      than 10 characters once stripped. */
  predicate Qualifies(word: string, sent: string)
  {
    Contains(Lower(sent), Lower(word)) && |Strip(sent)| > 10
  }

  /** The first qualifying piece of `context` split at sentence ends. */
  function FirstExample(word: string, context: string): (r: Option<string>)
  {
    FirstWhere(SplitRuns(context, Enders), sent => Qualifies(word, sent))
  }

  /** `s[:147] + '...'` when `s` is longer than 150 characters. */
  function Shorten(s: string): (r: string)
    ensures |r| <= MaxExample
    ensures |s| <= MaxExample ==> r == s
    ensures |s| > MaxExample ==> EndsWith(r, "...") && StartsWith(s, r[..|r| - 3])
  {
    if |s| > MaxExample then s[..MaxExample - 3] + "..." else s
  }

  /** `_extract_short_example(word, context)`. */
  function ShortExample(word: string, context: string): (r: string)
    ensures |r| <= MaxExample
    ensures FirstExample(word, context).Some? ==>
      r == Shorten(Strip(FirstExample(word, context).value))
    ensures FirstExample(word, context).None? && |context| > MaxExample ==>
      EndsWith(r, "...") && r[..|r| - 3] == Strip(context[..MaxExample - 3])
    ensures FirstExample(word, context).None? && |context| <= MaxExample ==>
      r == Strip(context)
  {
    match FirstExample(word, context)
    case Some(sent) => Shorten(Strip(sent))
    case None =>
      if |context| > MaxExample then Strip(context[..MaxExample - 3]) + "..." else Strip(context)
  }

  /** An example sentence that was not cut short contains the word, when the word
      neither starts nor ends with whitespace. */
  lemma ExampleHasWord(word: string, context: string)
    requires word != "" && Trimmed(word, Whitespace)
    requires FirstExample(word, context).Some?
    requires |Strip(FirstExample(word, context).value)| <= MaxExample
    ensures Contains(Lower(ShortExample(word, context)), Lower(word))
  {
    var sent := FirstExample(word, context).value;
    assert Qualifies(word, sent);
    WhitespaceHasNoLetters();
    StripSetKeepsOccurrence(sent, word, Whitespace);
    assert ShortExample(word, context) == Strip(sent);
  }

  // ------------------------------------------------------------ generate

  /** The card for one vocabulary entry. */
  function CardOf(e: VocabEntry): (c: Card)
    ensures c.word == e.word && c.category == e.category && c.difficulty == "beginner"
    ensures c.translation == GeminiHelper.TranslatePhrase(e.word) && c.translation != ""
    ensures |c.exampleSentence| <= MaxExample
  {
    Card(e.word, GeminiHelper.TranslatePhrase(e.word), ShortExample(e.word, e.context), e.category, "beginner")
  }

  function Keys(items: seq<VocabEntry>): (r: seq<string>)
    ensures |r| == |items| && forall k :: 0 <= k < |r| ==> r[k] == Lower(items[k].word)
  {
    seq(|items|, k requires 0 <= k < |items| => Lower(items[k].word))
  }

  /** The card each entry would make: none for the five simple words. */
  function Made(items: seq<VocabEntry>): (r: seq<Option<Card>>)
    ensures |r| == |items|
    ensures forall k :: 0 <= k < |r| ==> (r[k].None? <==> Lower(items[k].word) in Simple)
    ensures forall k :: 0 <= k < |r| && r[k].Some? ==> r[k].value == CardOf(items[k])
  {
    seq(|items|, k requires 0 <= k < |items| => if Lower(items[k].word) in Simple then None else Some(CardOf(items[k])))
  }

  /** A card made from some entry of `vocab` whose word is not a simple word. */
  predicate Carded(vocab: seq<VocabEntry>, c: Card)
  {
    Lower(c.word) !in Simple && exists e :: e in vocab && c == CardOf(e)
  }

  lemma PickedCard(vocab: seq<VocabEntry>, p: (string, Card))
    requires Picked(Keys(ByPriority(vocab)), Made(ByPriority(vocab)), p)
    ensures Carded(vocab, p.1) && p.0 == Lower(p.1.word)
  {
    var items := ByPriority(vocab);
    var j :| 0 <= j < |Keys(items)| && j < |Made(items)| && Keys(items)[j] == p.0 && Made(items)[j] == Some(p.1);
    assert items[j] in multiset(vocab) by { assert items[j] in multiset(items); }
  }

  lemma PickedCards(vocab: seq<VocabEntry>, p: seq<(string, Card)>)
    requires forall k :: 0 <= k < |p| ==> Picked(Keys(ByPriority(vocab)), Made(ByPriority(vocab)), p[k])
    ensures forall k :: 0 <= k < |p| ==> Carded(vocab, p[k].1) && p[k].0 == Lower(p[k].1.word)
  {
    forall k | 0 <= k < |p|
      ensures Carded(vocab, p[k].1) && p[k].0 == Lower(p[k].1.word)
    {
      PickedCard(vocab, p[k]);
    }
  }

  /** The keyed cards the generator's loop keeps, in priority order. */
  function Picks(vocab: seq<VocabEntry>): (p: seq<(string, Card)>)
    ensures |p| <= MaxCards && NoDup(Firsts(p))
    ensures forall k :: 0 <= k < |p| ==> Carded(vocab, p[k].1) && p[k].0 == Lower(p[k].1.word)
  {
    var items := ByPriority(vocab);
    var p := Collect(Keys(items), Made(items), {}, MaxCards);
    PickedCards(vocab, p);
    p
  }

  /** The lower-cased words of some cards, the keys the generator deduplicates on. */
  function CardKeys(cards: seq<Card>): (r: seq<string>)
    ensures |r| == |cards| && forall k :: 0 <= k < |r| ==> r[k] == Lower(cards[k].word)
  {
    seq(|cards|, k requires 0 <= k < |cards| => Lower(cards[k].word))
  }

  /** Keyed by their lower-cased words, the cards' words are the keys. */
  lemma KeyedCards(p: seq<(string, Card)>)
    requires forall k :: 0 <= k < |p| ==> p[k].0 == Lower(p[k].1.word)
    ensures CardKeys(Seconds(p)) == Firsts(p)
  {
  }

  /** `FlashcardGenerator.generate(vocabulary, sentences)`: the sentence list plays no part. */
  function Generate(vocab: seq<VocabEntry>, sentences: seq<SentenceExtractor.PracticeSentence>): (r: seq<Card>)
    ensures |r| <= MaxCards
    ensures NoDup(CardKeys(r))
    ensures forall k :: 0 <= k < |r| ==> Carded(vocab, r[k])
  {
    var p := Picks(vocab);
    KeyedCards(p);
    Seconds(p)
  }

  /** Fewer than `max_cards` cards means every non-simple vocabulary word got a card:
      the generator only stops early when it runs out of entries. */
  lemma GenerateComplete(vocab: seq<VocabEntry>, sentences: seq<SentenceExtractor.PracticeSentence>, e: VocabEntry)
    requires e in vocab && Lower(e.word) !in Simple
    requires |Generate(vocab, sentences)| < MaxCards
    ensures Lower(e.word) in CardKeys(Generate(vocab, sentences))
  {
    PicksComplete(vocab, e);
    KeyedCards(Picks(vocab));
  }

  /** The loop's keys include every non-simple word when it kept fewer than `max_cards`. */
  lemma PicksComplete(vocab: seq<VocabEntry>, e: VocabEntry)
    requires e in vocab && Lower(e.word) !in Simple
    requires |Picks(vocab)| < MaxCards
    ensures Lower(e.word) in Firsts(Picks(vocab))
  {
    var items := ByPriority(vocab);
    assert e in multiset(items);
    var j :| 0 <= j < |items| && items[j] == e;
    CollectComplete(Keys(items), Made(items), {}, MaxCards, j);
  }
}
