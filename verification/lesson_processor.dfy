/** `LessonProcessor.process_lesson`: extract from a transcript, generate the three
    exercise lists, trim the total down to at most twelve, and validate. */
module LessonProcessor {
  import opened Text
  import opened Seqs
  import VocabularyExtractor
  import MistakeExtractor
  import SentenceExtractor
  import FillInBlank
  import Flashcard
  import Spelling
  import QualityChecker

  /** The dictionary `process_lesson` returns. */
  datatype Lists<F, C, S> = Lists(fill: seq<F>, cards: seq<C>, spelling: seq<S>)

  type Exercises = Lists<FillInBlank.FillBlank, Flashcard.Card, Spelling.SpellingWord>

  const NoExercises: Exercises := Lists([], [], [])

  /** The lengths trimming stops at, per list. */
  const SpellingFloor: nat := 2
  const CardFloor: nat := 3
  const FillFloor: nat := 3

  function Total<F, C, S>(x: Lists<F, C, S>): nat
  {
    |x.fill| + |x.cards| + |x.spelling|
  }

  /** The lengths of the three lists. A pass of the trimming loop pops the last entry of
      one list, so a list after trimming is the prefix of the original its length says. */
  datatype Sizes = Sizes(fill: nat, cards: nat, spelling: nat)

  function SizesOf<F, C, S>(x: Lists<F, C, S>): (z: Sizes)
    ensures Sum(z) == Total(x)
  {
    Sizes(|x.fill|, |x.cards|, |x.spelling|)
  }

  function Sum(z: Sizes): nat
  {
    z.fill + z.cards + z.spelling
  }

  /** How far a list of length `n` may shrink before reaching `floor`. */
  function Excess(n: nat, floor: nat): (e: nat)
    ensures e <= n && e >= n - floor
    ensures e == 0 <==> n <= floor
  {
    if n > floor then n - floor else 0
  }

  /** The number of entries trimming may remove in all. */
  function Room(z: Sizes): (n: nat)
    ensures n + SpellingFloor + CardFloor + FillFloor >= Sum(z)
  {
    Excess(z.spelling, SpellingFloor) + Excess(z.cards, CardFloor) + Excess(z.fill, FillFloor)
  }

  /** One pass of the trimming loop: the last spelling word while there are more than two,
      else the last card while there are more than three, else the last fill-in-the-blank.
      Above the ceiling one of the three always applies. */
  function TrimStep(z: Sizes): (r: Sizes)
    requires Sum(z) > QualityChecker.MaxTotal
    ensures Sum(r) == Sum(z) - 1
  {
    if z.spelling > SpellingFloor then z.(spelling := z.spelling - 1)
    else if z.cards > CardFloor then z.(cards := z.cards - 1)
    else if z.fill > FillFloor then z.(fill := z.fill - 1)
    else assert false; z
  }

  /** The lengths after `k` entries are removed in priority order, in closed form: spelling
      gives up what it can first, then flashcards, then fill-in-the-blank. */
  function CutSizes(z: Sizes, k: nat): (r: Sizes)
    requires k <= Room(z)
    ensures Sum(r) == Sum(z) - k
    ensures r.fill <= z.fill && r.cards <= z.cards && r.spelling <= z.spelling
  {
    var s := Min(k, Excess(z.spelling, SpellingFloor));
    var c := Min(k - s, Excess(z.cards, CardFloor));
    Sizes(z.fill - (k - s - c), z.cards - c, z.spelling - s)
  }

  /** The lists cut down to the given lengths. */
  function Keep<F, C, S>(x: Lists<F, C, S>, z: Sizes): (r: Lists<F, C, S>)
    requires z.fill <= |x.fill| && z.cards <= |x.cards| && z.spelling <= |x.spelling|
    ensures SizesOf(r) == z
  {
    Lists(x.fill[..z.fill], x.cards[..z.cards], x.spelling[..z.spelling])
  }

  /** The lengths cut by exactly what exceeds the ceiling. */
  function TargetSizes(z: Sizes): (r: Sizes)
    ensures r.fill <= z.fill && r.cards <= z.cards && r.spelling <= z.spelling
    ensures Sum(r) == Min(Sum(z), QualityChecker.MaxTotal)
  {
    if Sum(z) > QualityChecker.MaxTotal then CutSizes(z, Sum(z) - QualityChecker.MaxTotal) else CutSizes(z, 0)
  }

  /** The loop's reference: the lists cut to the target lengths. */
  function Trimmed<F, C, S>(x: Lists<F, C, S>): (r: Lists<F, C, S>)
    ensures Total(r) == Min(Total(x), QualityChecker.MaxTotal)
  {
    Keep(x, TargetSizes(SizesOf(x)))
  }

  /** One pass takes the closed form one entry further. */
  lemma CutStep(z: Sizes, k: nat)
    requires k <= Room(z) && Sum(z) - k > QualityChecker.MaxTotal
    ensures k + 1 <= Room(z)
    ensures TrimStep(CutSizes(z, k)) == CutSizes(z, k + 1)
  {
    assert Room(z) + QualityChecker.MaxTotal >= Sum(z) by {
      assert SpellingFloor + CardFloor + FillFloor <= QualityChecker.MaxTotal;
    }
  }

  /** The trimming loop of `process_lesson`, run on the lengths it pops from, computes the
      reference. */
  method Balance<F, C, S>(x: Lists<F, C, S>) returns (r: Lists<F, C, S>)
    ensures r == Trimmed(x)
  {
    var z := SizesOf(x);
    ghost var k: nat := 0;
    CutNothing(z);
    while Sum(z) > QualityChecker.MaxTotal
      invariant k <= Room(SizesOf(x)) && z == CutSizes(SizesOf(x), k)
      invariant k == 0 || Total(x) - k >= QualityChecker.MaxTotal
      decreases Sum(z)
    {
      CutStep(SizesOf(x), k);
      z := TrimStep(z);
      k := k + 1;
    }
    LoopExit(SizesOf(x), k);
    r := Keep(x, z);
  }

  lemma CutNothing(z: Sizes)
    ensures CutSizes(z, 0) == z
  {
  }

  /** Where the loop stops, the closed form is the reference. */
  lemma LoopExit(z: Sizes, k: nat)
    requires k <= Room(z)
    requires (k == 0 && Sum(z) <= QualityChecker.MaxTotal) || Sum(z) - k == QualityChecker.MaxTotal
    ensures CutSizes(z, k) == TargetSizes(z)
  {
    CutNothing(z);
  }

  /** Totals of twelve or less, the shortfall included, pass through untouched; larger
      totals come down to exactly twelve. */
  lemma TrimmedSmall<F, C, S>(x: Lists<F, C, S>)
    ensures Total(x) <= QualityChecker.MaxTotal ==> Trimmed(x) == x
    ensures Total(x) > QualityChecker.MaxTotal ==> Total(Trimmed(x)) == QualityChecker.MaxTotal
  {
    CutNothing(SizesOf(x));
  }

  /** Trimming only removes entries from the ends, and a list is cut only once the lists
      before it in priority order are at their floors. */
  lemma TrimmedKeepsOrder<F, C, S>(x: Lists<F, C, S>)
    ensures var r := Trimmed(x);
      && |r.spelling| <= |x.spelling| && r.spelling == x.spelling[..|r.spelling|]
      && |r.cards| <= |x.cards| && r.cards == x.cards[..|r.cards|]
      && |r.fill| <= |x.fill| && r.fill == x.fill[..|r.fill|]
      && (|r.cards| < |x.cards| ==> |r.spelling| == Min(|x.spelling|, SpellingFloor))
      && (|r.fill| < |x.fill| ==> |r.spelling| == Min(|x.spelling|, SpellingFloor) && |r.cards| == Min(|x.cards|, CardFloor))
  {
  }

  /** `process_lesson`. A transcript that is empty or only whitespace gives three empty
      lists; otherwise the lists are generated from what the extractors find, trimmed and
      validated. */
  method ProcessLesson(transcript: string, mistakeDraws: seq<FillInBlank.Draws>, sentenceDraws: seq<FillInBlank.Draws>)
    returns (r: Exercises)
    ensures Strip(transcript) == "" ==> r == NoExercises
    ensures Strip(transcript) != "" ==> r == Generated(Extract(transcript), mistakeDraws, sentenceDraws)
    ensures Total(r) <= QualityChecker.MaxTotal
  {
    if Strip(transcript) == "" {
      return NoExercises;
    }
    var passed;
    r, passed := Produce(Extract(transcript), mistakeDraws, sentenceDraws);
  }

  /** The steps after extraction. Balancing leaves the generated lists as they are; the
      verdict is only reported, and the lists are returned whatever it is. */
  method Produce(e: Extraction, mistakeDraws: seq<FillInBlank.Draws>, sentenceDraws: seq<FillInBlank.Draws>)
    returns (r: Exercises, passed: bool)
    ensures r == Generated(e, mistakeDraws, sentenceDraws)
    ensures passed <==> QualityChecker.Validate(r.fill, r.cards, r.spelling).passed
  {
    var generated := Generated(e, mistakeDraws, sentenceDraws);
    r := Balance(generated);
    TrimmedSmall(generated);
    passed := QualityChecker.Validate(r.fill, r.cards, r.spelling).passed;
  }

  /** What the three extractors find in a transcript. */
  datatype Extraction = Extraction(vocabulary: seq<VocabularyExtractor.VocabEntry>,
                                   mistakes: seq<MistakeExtractor.Mistake>,
                                   sentences: seq<SentenceExtractor.PracticeSentence>)

  function Extract(transcript: string): Extraction
  {
    Extraction(VocabularyExtractor.Extract(transcript), MistakeExtractor.Extract(transcript),
               SentenceExtractor.Extract(transcript))
  }

  /** The three generators run on the extractions, each capped at four. Their sum never
      exceeds twelve, so the trimming loop has nothing to do on their output. */
  function Generated(e: Extraction, mistakeDraws: seq<FillInBlank.Draws>, sentenceDraws: seq<FillInBlank.Draws>): (r: Exercises)
    ensures |r.fill| <= FillInBlank.MaxExercises && |r.cards| <= Flashcard.MaxCards && |r.spelling| <= Spelling.MaxWords
    ensures Total(r) <= QualityChecker.MaxTotal
  {
    Lists(FillInBlank.Generate(e.vocabulary, e.mistakes, e.sentences, mistakeDraws, sentenceDraws),
              Flashcard.Generate(e.vocabulary, e.sentences),
              Spelling.Generate(e.vocabulary, e.mistakes))
  }

  /** `meets_requirements` in the summary table. */
  function MeetsRequirements(x: Exercises): (r: string)
    ensures r == "Yes" || r == "No"
  {
    if QualityChecker.MinTotal <= Total(x) <= QualityChecker.MaxTotal then "Yes" else "No"
  }

  /** The summary says "Yes" exactly when the validator adds no warning about the total. */
  lemma SummaryAgreesWithChecker(x: Exercises)
    ensures MeetsRequirements(x) == "Yes" <==> QualityChecker.TotalWarning(Total(x)) == []
  {
  }
}
