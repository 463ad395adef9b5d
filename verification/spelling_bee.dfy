/** The spelling-bee service: starting a practice session over a word list, and the
    per-word statistics and session counters one attempt updates. */
module SpellingBee {
  import opened Wrappers
  import GameSessions
  import Seqs

  const ListMissing := "Word list not found or access denied"
  const NoWords := "No words found in this list"

  /** `start_session`: the list must belong to the user and hold words (the selected ones,
      when a selection is given; `words` is what that fetch returned). With `shuffle`, the
      default, the words are shuffled, `draws` standing for the random choices; without
      it they keep the fetched order. */
  function StartSession<W>(owned: bool, words: seq<W>, shuffle: bool, draws: seq<nat>): (r: Result<GameSessions.Session<W>>)
    ensures r.Ok? <==> owned && words != []
    ensures !owned ==> r == Err(ListMissing)
    ensures owned && words == [] ==> r == Err(NoWords)
    ensures r.Ok? ==> multiset(r.value.items) == multiset(words) && GameSessions.Consistent(r.value.progress)
                      && r.value.progress.current == 0 && r.value.progress.total == |words|
    ensures r.Ok? && !shuffle ==> r.value.items == words
  {
    if !owned then Err(ListMissing)
    else if words == [] then Err(NoWords)
    else Ok(GameSessions.Start(if shuffle then Seqs.Shuffle(words, draws) else words))
  }

  // ------------------------------------------------------------ rounding

  /** Python's `round` applied to the exact quotient `num / den`: the nearest integer,
      a tie going to the even neighbour. */
  function RoundHalfEven(num: int, den: int): (q: int)
    requires den > 0
    ensures Nearest(q, num, den)
  {
    DivParts(num, den);
    var f := num / den;
    var rem := num % den;
    if 2 * rem < den then f
    else if 2 * rem > den then f + 1
    else if f % 2 == 0 then f
    else f + 1
  }

  /** Euclidean division, spelled out for the rounding proof. */
  lemma DivParts(num: int, den: int)
    requires den > 0
    ensures num == (num / den) * den + num % den && 0 <= num % den < den
    ensures (num / den + 1) * den == (num / den) * den + den
  {
  }

  /** `q` is the integer closest to `num / den`, and even if two are equally close. */
  predicate Nearest(q: int, num: int, den: int)
    requires den > 0
  {
    && -den <= 2 * (q * den - num) <= den
    && (2 * (q * den - num) == den || 2 * (q * den - num) == -den ==> q % 2 == 0)
  }

  /** A product with a positive factor keeps the other factor's sign. */
  lemma FactorSign(x: int, den: int)
    requires den > 0
    ensures x * den >= 0 ==> x >= 0
    ensures x * den > 0 ==> x > 0
  {
  }

  /** Only one integer is nearest, so the rounding is the reference definition's only
      answer. */
  lemma NearestUnique(q: int, q': int, num: int, den: int)
    requires den > 0 && Nearest(q, num, den) && Nearest(q', num, den)
    ensures q == q'
  {
    var a := q * den - num;
    var b := q' * den - num;
    assert (1 - (q' - q)) * den == den - b + a;
    assert (1 + (q' - q)) * den == den + b - a;
    FactorSign(1 - (q' - q), den);
    FactorSign(1 + (q' - q), den);
  }

  /** The nearest integer to a quotient lying between two whole numbers lies between
      them too. */
  lemma NearestBetween(q: int, num: int, den: int, lo: int, hi: int)
    requires den > 0 && Nearest(q, num, den) && lo * den <= num <= hi * den
    ensures lo <= q <= hi
  {
    assert (q - lo + 1) * den == q * den - lo * den + den;
    assert (hi + 1 - q) * den == hi * den + den - q * den;
    FactorSign(q - lo + 1, den);
    FactorSign(hi + 1 - q, den);
  }

  /** The word accuracy of `record_result`: the rounded percentage of correct attempts,
      0 when nothing has been practised. */
  function Accuracy(correct: int, practice: int): (a: int)
    ensures practice > 0 ==> Nearest(a, 100 * correct, practice)
    ensures practice <= 0 ==> a == 0
  {
    if practice > 0 then RoundHalfEven(100 * correct, practice) else 0
  }

  /** With no more correct attempts than attempts, the accuracy is a percentage, all
      correct gives 100 and none gives 0. */
  lemma AccuracyBounds(correct: int, practice: int)
    requires 0 <= correct <= practice
    ensures 0 <= Accuracy(correct, practice) <= 100
    ensures practice > 0 && correct == practice ==> Accuracy(correct, practice) == 100
    ensures correct == 0 ==> Accuracy(correct, practice) == 0
  {
    if practice > 0 {
      var a := Accuracy(correct, practice);
      assert 0 * practice <= 100 * correct <= 100 * practice;
      NearestBetween(a, 100 * correct, practice, 0, 100);
      if correct == practice {
        assert Nearest(100, 100 * correct, practice);
        NearestUnique(a, 100, 100 * correct, practice);
      }
      if correct == 0 {
        assert Nearest(0, 100 * correct, practice);
        NearestUnique(a, 0, 100 * correct, practice);
      }
    }
  }

  /** One correct attempt in eight is 12.5%, which rounds to 12, not 13. */
  lemma TieGoesToEven()
    ensures Accuracy(1, 8) == 12
    ensures Accuracy(3, 8) == 38
  {
  }

  /** 199 of 200 is 99.5%, which the tie rule rounds up to a perfect 100. */
  lemma NearlyPerfectShowsHundred()
    ensures Accuracy(199, 200) == 100
  {
  }

  // ------------------------------------------------------------ word statistics

  /** The statistics columns of a `words` row. */
  datatype WordStats = WordStats(practiceCount: int, correctCount: int, accuracy: int)

  /** Counts that make sense: no more correct attempts than attempts, none negative. */
  predicate WellCounted(w: WordStats)
  {
    0 <= w.correctCount <= w.practiceCount && 0 <= w.accuracy <= 100
  }

  /** The word update of `record_result`: one more attempt, one more correct one exactly
      when the answer was right, and the accuracy recomputed from the new counts. A word
      that is not found is left alone. */
  function UpdateWord(word: Option<WordStats>, isCorrect: bool): (r: Option<WordStats>)
    ensures r.None? <==> word.None?
    ensures r.Some? ==> r.value.practiceCount == word.value.practiceCount + 1
    ensures r.Some? ==> (isCorrect <==> r.value.correctCount == word.value.correctCount + 1)
    ensures r.Some? ==> (!isCorrect <==> r.value.correctCount == word.value.correctCount)
    ensures r.Some? ==> r.value.accuracy == Accuracy(r.value.correctCount, r.value.practiceCount)
  {
    match word
    case None => None
    case Some(w) =>
      var practice := w.practiceCount + 1;
      var correct := w.correctCount + (if isCorrect then 1 else 0);
      Some(WordStats(practice, correct, Accuracy(correct, practice)))
  }

  /** The update keeps sensible counts sensible. */
  lemma UpdateKeepsCounts(w: WordStats, isCorrect: bool)
    requires WellCounted(w)
    ensures WellCounted(UpdateWord(Some(w), isCorrect).value)
  {
    var r := UpdateWord(Some(w), isCorrect).value;
    AccuracyBounds(r.correctCount, r.practiceCount);
  }

  /** The mistake type a wrong spelling is filed under. */
  const SpellingError := "spelling_error"

  /** `record_result`: refused without the user's session; otherwise the word's statistics
      and the session's counters both move by one attempt, and a wrong answer is filed as
      a spelling error. */
  function RecordResult(session: Option<GameSessions.Progress>, word: Option<WordStats>, isCorrect: bool)
    : (r: Result<(GameSessions.Recorded, Option<WordStats>)>)
    ensures r.Err? <==> session.None?
    ensures r.Err? ==> r.message == GameSessions.SessionMissing
    ensures r.Ok? ==> r.value.0.progress == GameSessions.Answer(session.value, isCorrect)
    ensures r.Ok? ==> (r.value.0.mistake == Some(SpellingError) <==> !isCorrect)
    ensures r.Ok? ==> (r.value.0.mistake == None <==> isCorrect)
    ensures r.Ok? ==> r.value.1 == UpdateWord(word, isCorrect)
  {
    var recorded :- GameSessions.Record(session, isCorrect, SpellingError);
    Ok((recorded, UpdateWord(word, isCorrect)))
  }

  /** The word and the session see the same attempt: from matching counts, the word's
      correct count and the session's stay in step. */
  lemma WordAndSessionAgree(p: GameSessions.Progress, w: WordStats, isCorrect: bool)
    requires p.correct == w.correctCount
    ensures var r := RecordResult(Some(p), Some(w), isCorrect).value;
      r.0.progress.correct == r.1.value.correctCount
  {
  }
}
