/** The validator the lesson processor runs on its three exercise lists, and the tracker
    of sentences and words already used across exercise types. Validation clears its
    message lists on every call, so here it is a function of the three lists alone. */
module QualityChecker {
  import opened Text
  import opened Seqs
  import FillInBlank
  import Flashcard
  import Spelling

  type FillBlank = FillInBlank.FillBlank
  type Card = Flashcard.Card
  type SpellingWord = Spelling.SpellingWord

  /** The messages one validation run records. */
  datatype Report = Report(errors: seq<string>, warnings: seq<string>)

  /** `validate_exercises`: the verdict and the messages left on the checker. */
  datatype Outcome = Outcome(passed: bool, report: Report)

  const Blank := FillInBlank.Blank
  const AnswerLetters: seq<string> := ["A", "B", "C", "D"]
  const MinTotal := 8
  const MaxTotal := 12

  /** One report followed by another. */
  function Then(a: Report, b: Report): Report
  {
    Report(a.errors + b.errors, a.warnings + b.warnings)
  }

  /** The message list a single check contributes: its message when it fires. */
  function When(fires: bool, msg: string): (r: seq<string>)
    ensures |r| <= 1
    ensures r == [] <==> !fires
  {
    if fires then [msg] else []
  }

  /** The prefix of every message about the `n`-th exercise (counted from 1). */
  function Label(kind: string, n: nat): string
  {
    kind + " " + NatToString(n) + ": "
  }

  /** Every element satisfies `p` exactly when the first one and every later one do. */
  lemma AllTail<T>(xs: seq<T>, p: T -> bool)
    requires |xs| > 0
    ensures (forall k :: 0 <= k < |xs| ==> p(xs[k])) <==> p(xs[0]) && forall k :: 0 <= k < |xs[1..]| ==> p(xs[1..][k])
  {
    assert forall k :: 1 <= k < |xs| ==> xs[1..][k - 1] == xs[k];
  }

  // ------------------------------------------------------------ fill in the blank

  /** `sum(1 for opt in options if not opt)` */
  function CountEmpty(opts: seq<string>): (n: nat)
    ensures n <= |opts|
    ensures n == 0 <==> forall k :: 0 <= k < |opts| ==> opts[k] != ""
  {
    if |opts| == 0 then 0 else (if opts[0] == "" then 1 else 0) + CountEmpty(opts[1..])
  }

  /** `[opt for opt in options if opt]` */
  function NonEmpty(opts: seq<string>): (r: seq<string>)
    ensures forall o :: o in r <==> o in opts && o != ""
  {
    Filter(opts, o => o != "")
  }

  /** `len(set(xs)) < len(xs)`. */
  predicate HasRepeats<T(==,!new)>(xs: seq<T>)
  {
    |Elems(xs)| < |xs|
  }

  /** Fewer distinct elements than entries means some entry repeats, and back. */
  lemma {:induction false} RepeatsMeans<T(!new)>(xs: seq<T>)
    ensures HasRepeats(xs) <==> !NoDup(xs)
    ensures |Elems(xs)| <= |xs|
  {
    if |xs| > 0 {
      RepeatsMeans(xs[1..]);
      ElemsCons(xs);
      if xs[0] in xs[1..] {
        RepeatsOld(xs);
      } else {
        RepeatsNew(xs);
      }
    }
  }

  lemma ElemsCons<T(!new)>(xs: seq<T>)
    requires |xs| > 0
    ensures Elems(xs) == {xs[0]} + Elems(xs[1..])
  {
    assert xs == [xs[0]] + xs[1..];
  }

  /** A first element seen again later is a repeat, and adds no distinct element. */
  lemma RepeatsOld<T(!new)>(xs: seq<T>)
    requires |xs| > 0 && xs[0] in xs[1..] && Elems(xs) == {xs[0]} + Elems(xs[1..])
    ensures Elems(xs) == Elems(xs[1..]) && !NoDup(xs)
  {
    var j :| 0 <= j < |xs[1..]| && xs[1..][j] == xs[0];
    assert xs[0] == xs[j + 1];
  }

  /** A first element not seen again adds one distinct element and no repeat. */
  lemma RepeatsNew<T(!new)>(xs: seq<T>)
    requires |xs| > 0 && xs[0] !in xs[1..] && Elems(xs) == {xs[0]} + Elems(xs[1..])
    ensures |Elems(xs)| == |Elems(xs[1..])| + 1
    ensures NoDup(xs) <==> NoDup(xs[1..])
  {
    var rest := xs[1..];
    if !NoDup(rest) {
      var i, j :| 0 <= i < j < |rest| && rest[i] == rest[j];
      assert xs[i + 1] == xs[j + 1];
    }
    if !NoDup(xs) {
      var i, j :| 0 <= i < j < |xs| && xs[i] == xs[j];
      assert rest[j - 1] == xs[j];
      assert rest[i - 1] == rest[j - 1];
    }
  }

  /** An exercise raises no error: it has a blank, four non-empty options, an answer
      letter A to D, and its correct word, when it has one, among the options. */
  predicate FillSound(e: FillBlank)
  {
    && Contains(e.sentence, Blank)
    && (forall k :: 0 <= k < 4 ==> FillInBlank.Options(e)[k] != "")
    && e.correctAnswer in AnswerLetters
    && (e.correctWord == "" || e.correctWord in FillInBlank.Options(e))
  }

  /** The checks on the `n`-th fill-in-the-blank exercise. */
  function FillReport(e: FillBlank, n: nat): (r: Report)
    ensures r.errors == [] <==> FillSound(e)
    ensures |r.warnings| <= 2
    ensures (|r.warnings| == 2 || (|r.warnings| == 1 && r.warnings[0] == Label("Fill-blank", n) + "Duplicate options detected"))
      <==> !NoDup(NonEmpty(FillInBlank.Options(e)))
  {
    var opts := FillInBlank.Options(e);
    var empty := CountEmpty(opts);
    var tag := Label("Fill-blank", n);
    RepeatsMeans(NonEmpty(opts));
    Report(
      When(!Contains(e.sentence, Blank), tag + "No blank marker")
        + When(empty > 0, tag + NatToString(empty) + " empty options")
        + When(e.correctAnswer !in AnswerLetters, tag + "Invalid answer format")
        + When(e.correctWord != "" && e.correctWord !in opts, tag + "Correct word not in options"),
      When(HasRepeats(NonEmpty(opts)), tag + "Duplicate options detected")
        + When(|Words(e.sentence)| < 4, tag + "Sentence too short"))
  }

  /** `_check_fill_in_blank`, numbering exercises after `before`. */
  function CheckFill(es: seq<FillBlank>, before: nat): (r: Report)
    ensures r.errors == [] <==> forall k :: 0 <= k < |es| ==> FillSound(es[k])
    decreases |es|
  {
    if |es| == 0 then Report([], [])
    else
      var rest := CheckFill(es[1..], before + 1);
      AllTail(es, FillSound);
      Then(FillReport(es[0], before + 1), rest)
  }

  // ------------------------------------------------------------ flashcards

  /** A card raises no error: it has a word and a translation. */
  predicate CardSound(c: Card)
  {
    c.word != "" && c.translation != ""
  }

  /** The checks on the `n`-th card, given the lowered words of the cards before it. */
  function CardReport(c: Card, n: nat, seen: set<string>): (r: Report)
    ensures r.errors == [] <==> CardSound(c)
    ensures Lower(c.word) in seen <==> |r.warnings| > 0 && r.warnings[0] == Label("Flashcard", n) + "Duplicate word '" + c.word + "'"
  {
    var tag := Label("Flashcard", n);
    var dup := tag + "Duplicate word '" + c.word + "'";
    var missing := tag + "Missing example sentence";
    var absent := tag + "Example doesn't contain word";
    assert dup != missing && dup != absent by {
      assert dup[|tag|] == 'D' && missing[|tag|] == 'M' && absent[|tag|] == 'E';
    }
    Report(
      When(c.word == "", tag + "Missing word") + When(c.translation == "", tag + "Missing translation"),
      When(Lower(c.word) in seen, dup)
        + When(c.exampleSentence == "", missing)
        + When(c.word != "" && c.exampleSentence != "" && !Contains(Lower(c.exampleSentence), Lower(c.word)), absent))
  }

  /** `_check_flashcards`: every card's lowered word joins `seen`, whether or not it is empty. */
  function CheckCards(cs: seq<Card>, before: nat, seen: set<string>): (r: Report)
    ensures r.errors == [] <==> forall k :: 0 <= k < |cs| ==> CardSound(cs[k])
    decreases |cs|
  {
    if |cs| == 0 then Report([], [])
    else
      var rest := CheckCards(cs[1..], before + 1, seen + {Lower(cs[0].word)});
      AllTail(cs, CardSound);
      Then(CardReport(cs[0], before + 1, seen), rest)
  }

  // ------------------------------------------------------------ spelling

  /** No entry has an empty word, and no two words are equal ignoring case. */
  predicate DistinctWords(ws: seq<SpellingWord>)
  {
    && (forall k :: 0 <= k < |ws| ==> ws[k].word != "")
    && (forall i, j :: 0 <= i < j < |ws| ==> Lower(ws[i].word) != Lower(ws[j].word))
  }

  /** The checks on the `n`-th spelling entry once its word is known to be non-empty. */
  function SpellingReport(x: SpellingWord, n: nat, seen: set<string>): (r: Report)
    requires x.word != ""
    ensures r.errors == [] <==> Lower(x.word) !in seen
  {
    var tag := Label("Spelling", n);
    Report(
      When(Lower(x.word) in seen, tag + "Duplicate word '" + x.word + "'"),
      When(x.sampleSentence == "", tag + "Missing sample sentence")
        + When(|x.word| < 4, tag + "Word '" + x.word + "' too simple")
        + When(x.sampleSentence != "" && !Contains(Lower(x.sampleSentence), Lower(x.word)),
               tag + "Sample doesn't contain word"))
  }

  /** `_check_spelling`: an entry without a word is reported and skipped, so its word never
      joins `seen`; a word seen before, ignoring case, is an error. */
  function CheckSpelling(ws: seq<SpellingWord>, before: nat, seen: set<string>): (r: Report)
    ensures r.errors == [] <==> DistinctWords(ws) && forall k :: 0 <= k < |ws| ==> Lower(ws[k].word) !in seen
    decreases |ws|
  {
    if |ws| == 0 then Report([], [])
    else if ws[0].word == "" then
      Then(Report([Label("Spelling", before + 1) + "Missing word"], []), CheckSpelling(ws[1..], before + 1, seen))
    else
      var rest := CheckSpelling(ws[1..], before + 1, seen + {Lower(ws[0].word)});
      SpellingStep(ws, seen);
      Then(SpellingReport(ws[0], before + 1, seen), rest)
  }

  /** The condition on the whole list splits into the first word's and the rest's. */
  lemma SpellingStep(ws: seq<SpellingWord>, seen: set<string>)
    requires |ws| > 0 && ws[0].word != ""
    ensures (DistinctWords(ws) && forall k :: 0 <= k < |ws| ==> Lower(ws[k].word) !in seen)
      <==> (Lower(ws[0].word) !in seen
            && DistinctWords(ws[1..])
            && forall k :: 0 <= k < |ws[1..]| ==> Lower(ws[1..][k].word) !in seen + {Lower(ws[0].word)})
  {
    var rest := ws[1..];
    assert forall k :: 1 <= k < |ws| ==> rest[k - 1] == ws[k];
    if DistinctWords(rest) && forall k :: 0 <= k < |rest| ==> Lower(rest[k].word) !in seen + {Lower(ws[0].word)} {
      forall i, j | 0 <= i < j < |ws|
        ensures Lower(ws[i].word) != Lower(ws[j].word)
      {
        if i > 0 {
          assert Lower(rest[i - 1].word) != Lower(rest[j - 1].word);
        } else {
          assert Lower(rest[j - 1].word) !in seen + {Lower(ws[0].word)};
        }
      }
    }
  }

  // ------------------------------------------------------------ the whole run

  /** The warning the total count adds, if any. */
  function TotalWarning(total: nat): (r: seq<string>)
    ensures r == [] <==> MinTotal <= total <= MaxTotal
  {
    if total < MinTotal then ["Total exercises (" + NatToString(total) + ") below minimum (8)"]
    else if total > MaxTotal then ["Total exercises (" + NatToString(total) + ") above maximum (12)"]
    else []
  }

  /** `validate_exercises`: the lists are checked in order fill-in-the-blank, flashcards,
      spelling; the run passes exactly when no check recorded an error. */
  function Validate(fill: seq<FillBlank>, cards: seq<Card>, spelling: seq<SpellingWord>): (r: Outcome)
    ensures r.passed <==> r.report.errors == []
    ensures r.passed <==>
      && (forall k :: 0 <= k < |fill| ==> FillSound(fill[k]))
      && (forall k :: 0 <= k < |cards| ==> CardSound(cards[k]))
      && DistinctWords(spelling)
  {
    var checks := Then(Then(CheckFill(fill, 0), CheckCards(cards, 0, {})), CheckSpelling(spelling, 0, {}));
    var report := Report(checks.errors, checks.warnings + TotalWarning(|fill| + |cards| + |spelling|));
    Outcome(report.errors == [], report)
  }

  /** The total count only ever warns: adding a sound exercise of any kind leaves the
      verdict as it was, whatever the new total. */
  lemma VerdictIgnoresTotal(fill: seq<FillBlank>, cards: seq<Card>, spelling: seq<SpellingWord>, e: FillBlank, c: Card)
    requires FillSound(e) && CardSound(c)
    ensures Validate(fill + [e], cards, spelling).passed == Validate(fill, cards, spelling).passed
    ensures Validate(fill, cards + [c], spelling).passed == Validate(fill, cards, spelling).passed
  {
    AllSoundAppend(fill, e, FillSound);
    AllSoundAppend(cards, c, CardSound);
  }

  /** Appending an element that satisfies `p` keeps "every element satisfies `p`" as it was. */
  lemma AllSoundAppend<T>(xs: seq<T>, x: T, p: T -> bool)
    requires p(x)
    ensures (forall k :: 0 <= k < |xs + [x]| ==> p((xs + [x])[k])) <==> (forall k :: 0 <= k < |xs| ==> p(xs[k]))
  {
    assert forall k :: 0 <= k < |xs| ==> (xs + [x])[k] == xs[k];
  }

  /** A total outside 8 to 12 ends the warnings with the total message; inside it, the
      warnings are the per-exercise ones alone. */
  lemma TotalWarns(fill: seq<FillBlank>, cards: seq<Card>, spelling: seq<SpellingWord>)
    ensures var total := |fill| + |cards| + |spelling|;
      var w := Validate(fill, cards, spelling).report.warnings;
      && (total < MinTotal ==> |w| > 0 && w[|w| - 1] == "Total exercises (" + NatToString(total) + ") below minimum (8)")
      && (total > MaxTotal ==> |w| > 0 && w[|w| - 1] == "Total exercises (" + NatToString(total) + ") above maximum (12)")
      && (MinTotal <= total <= MaxTotal ==>
            w == CheckFill(fill, 0).warnings + CheckCards(cards, 0, {}).warnings + CheckSpelling(spelling, 0, {}).warnings)
  {
  }

  /** The checker's own examples: a well-formed exercise passes, while one with the
      answer letter Z, or one whose sentence has no blank, fails. */
  lemma FillExamples(e: FillBlank)
    requires e.sentence == "I _____ up at 7 AM." && e.correctWord == "wake"
    requires FillInBlank.Options(e) == ["wake", "sleep", "work", "rest"]
    ensures e.correctAnswer == "A" ==> Validate([e], [], []).passed
    ensures e.correctAnswer == "Z" ==> !Validate([e], [], []).passed
  {
    ExampleSound(e);
    OneFill(e);
  }

  lemma ExampleSound(e: FillBlank)
    requires e.sentence == "I _____ up at 7 AM." && e.correctWord == "wake"
    requires FillInBlank.Options(e) == ["wake", "sleep", "work", "rest"]
    ensures FillSound(e) <==> e.correctAnswer in AnswerLetters
  {
    assert OccursAt(e.sentence, Blank, 2);
    assert e.correctWord == FillInBlank.Options(e)[0];
  }

  /** A single exercise passes exactly when it is sound. */
  lemma OneFill(e: FillBlank)
    ensures Validate([e], [], []).passed <==> FillSound(e)
  {
    assert [e][0] == e;
  }

  lemma MissingBlankExample(e: FillBlank)
    requires e.sentence == "I wake up at 7 AM."
    ensures !Validate([e], [], []).passed
  {
    NoBlankIn(e.sentence);
    OneFill(e);
  }

  lemma NoBlankIn(s: string)
    requires s == "I wake up at 7 AM."
    ensures !Contains(s, Blank)
  {
    forall i | 0 <= i <= |s| - |Blank|
      ensures !OccursAt(s, Blank, i)
    {
      assert s[i..i + |Blank|][0] == s[i] != '_' == Blank[0];
    }
  }

  /** Two spelling entries with the same word, up to case, fail validation. */
  lemma DuplicateSpellingFails(x: SpellingWord, y: SpellingWord)
    requires Lower(x.word) == Lower(y.word)
    ensures !Validate([], [], [x, y]).passed
  {
    assert [x, y][0] == x && [x, y][1] == y;
  }

  /** Two flashcards with the same word only warn. */
  lemma DuplicateCardsWarn(c: Card)
    requires CardSound(c)
    ensures Validate([], [c, c], []).passed
  {
    assert forall k :: 0 <= k < 2 ==> [c, c][k] == c;
  }

  // ------------------------------------------------------------ GlobalDeduplicator

  /** The tracker's state: cleaned sentences already used, a word set nothing ever fills,
      and, per exercise type, the sentences it used as given. */
  datatype Tracker = Tracker(usedSentences: set<string>, usedWords: set<string>, usedIn: map<string, seq<string>>)

  /** A tracker that has seen nothing: the state after construction and after `reset`. */
  const Fresh := Tracker({}, {}, map[])

  /** `s.lower().strip()` */
  function Clean(s: string): string
  {
    Strip(Lower(s))
  }

  /** `can_use_sentence`: the exercise type plays no part. */
  predicate CanUseSentence(t: Tracker, sentence: string, exerciseType: string)
  {
    Clean(sentence) !in t.usedSentences
  }

  /** `mark_sentence_used` */
  function MarkSentenceUsed(t: Tracker, sentence: string, exerciseType: string): (r: Tracker)
    ensures Clean(sentence) in r.usedSentences
    ensures exerciseType in r.usedIn && |r.usedIn[exerciseType]| > 0
    ensures r.usedIn[exerciseType][|r.usedIn[exerciseType]| - 1] == sentence
    ensures forall u :: u in t.usedIn ==> u in r.usedIn && |t.usedIn[u]| <= |r.usedIn[u]| && r.usedIn[u][..|t.usedIn[u]|] == t.usedIn[u]
    ensures forall u :: u in r.usedIn && u != exerciseType ==> u in t.usedIn && r.usedIn[u] == t.usedIn[u]
  {
    var earlier := if exerciseType in t.usedIn then t.usedIn[exerciseType] else [];
    Tracker(t.usedSentences + {Clean(sentence)}, t.usedWords, t.usedIn[exerciseType := earlier + [sentence]])
  }

  /** Marks a run of (sentence, exercise type) pairs in order. */
  function MarkAll(t: Tracker, marks: seq<(string, string)>): Tracker
    decreases |marks|
  {
    if |marks| == 0 then t else MarkAll(MarkSentenceUsed(t, marks[0].0, marks[0].1), marks[1..])
  }

  /** The exercise types whose used sentences contain the cleaned word, ignoring case. */
  function TypesUsing(t: Tracker, word: string): set<string>
  {
    set u | u in t.usedIn && exists s :: s in t.usedIn[u] && Contains(Lower(s), Clean(word))
  }

  /** `can_use_word`: a word may appear in sentences of at most two exercise types. */
  predicate CanUseWord(t: Tracker, word: string, exerciseType: string)
  {
    |TypesUsing(t, word)| < 2
  }

  /** `reset`: back to the fresh state, whatever was tracked. */
  function Reset(t: Tracker): (r: Tracker)
    ensures r.usedSentences == {} && r.usedWords == {} && r.usedIn == map[]
  {
    Fresh
  }

  /** After a reset every sentence and every word is usable again. */
  lemma ResetClears(t: Tracker, sentence: string, word: string, exerciseType: string)
    ensures CanUseSentence(Reset(t), sentence, exerciseType)
    ensures CanUseWord(Reset(t), word, exerciseType)
  {
    assert TypesUsing(Reset(t), word) == {};
  }

  /** Marking a sentence rejects exactly the sentences equal to it after lowering and
      stripping, on top of those rejected before, for every exercise type. */
  lemma MarkRejects(t: Tracker, sentence: string, exerciseType: string, other: string, otherType: string)
    ensures CanUseSentence(MarkSentenceUsed(t, sentence, exerciseType), other, otherType)
      <==> CanUseSentence(t, other, otherType) && Clean(other) != Clean(sentence)
  {
  }

  /** From a fresh tracker, a sentence is usable exactly when no marked sentence cleans
      to the same text. */
  lemma {:induction false} MarkAllRejects(t: Tracker, marks: seq<(string, string)>, sentence: string, exerciseType: string)
    ensures CanUseSentence(MarkAll(t, marks), sentence, exerciseType)
      <==> CanUseSentence(t, sentence, exerciseType) && forall k :: 0 <= k < |marks| ==> Clean(marks[k].0) != Clean(sentence)
    decreases |marks|
  {
    if |marks| > 0 {
      var next := MarkSentenceUsed(t, marks[0].0, marks[0].1);
      MarkAllRejects(next, marks[1..], sentence, exerciseType);
      MarkRejects(t, marks[0].0, marks[0].1, sentence, exerciseType);
      assert forall k :: 1 <= k < |marks| ==> marks[1..][k - 1] == marks[k];
    }
  }

  /** Marking never makes a word usable again: the types using it only grow. */
  lemma MarkKeepsWordLimit(t: Tracker, sentence: string, exerciseType: string, word: string, otherType: string)
    requires !CanUseWord(t, word, otherType)
    ensures !CanUseWord(MarkSentenceUsed(t, sentence, exerciseType), word, otherType)
  {
    var r := MarkSentenceUsed(t, sentence, exerciseType);
    forall u | u in TypesUsing(t, word)
      ensures u in TypesUsing(r, word)
    {
      UsingGrows(t, sentence, exerciseType, word, u);
    }
    SubsetCard(TypesUsing(t, word), TypesUsing(r, word));
  }

  lemma SubsetCard<T>(a: set<T>, b: set<T>)
    requires a <= b
    ensures |a| <= |b|
  {
    assert b == a + (b - a);
  }

  /** Once sentences containing a word are marked under two different exercise types,
      the word is no longer usable. */
  lemma TwoTypesExhaustWord(t: Tracker, s1: string, type1: string, s2: string, type2: string, word: string, otherType: string)
    requires type1 != type2
    requires Contains(Lower(s1), Clean(word)) && Contains(Lower(s2), Clean(word))
    ensures !CanUseWord(MarkSentenceUsed(MarkSentenceUsed(t, s1, type1), s2, type2), word, otherType)
  {
    var m := MarkSentenceUsed(t, s1, type1);
    var r := MarkSentenceUsed(m, s2, type2);
    LastUsed(m, type1, word);
    UsingGrows(m, s2, type2, word, type1);
    LastUsed(r, type2, word);
    TwoUsers(r, type1, type2, word, otherType);
  }

  /** Two distinct types using a word use it up. */
  lemma TwoUsers(t: Tracker, type1: string, type2: string, word: string, otherType: string)
    requires type1 != type2 && type1 in TypesUsing(t, word) && type2 in TypesUsing(t, word)
    ensures !CanUseWord(t, word, otherType)
  {
    SubsetCard({type1, type2}, TypesUsing(t, word));
  }

  /** A type whose last used sentence contains the word uses it. */
  lemma LastUsed(t: Tracker, u: string, word: string)
    requires u in t.usedIn && |t.usedIn[u]| > 0
    requires Contains(Lower(t.usedIn[u][|t.usedIn[u]| - 1]), Clean(word))
    ensures u in TypesUsing(t, word)
  {
    var s := t.usedIn[u][|t.usedIn[u]| - 1];
    assert s in t.usedIn[u];
  }

  /** A type that uses a word still uses it after another mark. */
  lemma UsingGrows(t: Tracker, sentence: string, exerciseType: string, word: string, u: string)
    requires u in TypesUsing(t, word)
    ensures u in TypesUsing(MarkSentenceUsed(t, sentence, exerciseType), word)
  {
    var r := MarkSentenceUsed(t, sentence, exerciseType);
    var s :| s in t.usedIn[u] && Contains(Lower(s), Clean(word));
    var i :| 0 <= i < |t.usedIn[u]| && t.usedIn[u][i] == s;
    assert r.usedIn[u][..|t.usedIn[u]|][i] == s;
    assert s in r.usedIn[u];
  }
}
