/** The sentence-builder game service: its mode check, the classification of a wrong
    arrangement, and what recording an arrangement writes. */
module SentenceBuilderGame {
  import opened Wrappers
  import GameSessions

  const NoItems := "No items available for this session"
  const TopicMissing := "topic_id required for topic mode"
  const SelectionMissing := "selected_item_ids required for custom mode"

  /** `start_session`: a topic session needs a topic id, a lesson session a lesson id, a
      custom session selected item ids; then the items the mode fetched must not be
      empty, and they are shuffled, `draws` standing for the random choices. */
  function StartSession<T>(mode: string, topicId: string, lessonId: string, selectedIds: seq<string>,
                           fetched: seq<T>, draws: seq<nat>): (r: Result<GameSessions.Session<T>>)
    ensures r.Ok? <==> mode in GameSessions.Modes && fetched != []
                       && !(mode == "topic" && topicId == "") && !(mode == "lesson" && lessonId == "")
                       && !(mode == "custom" && selectedIds == [])
    ensures r.Ok? ==> multiset(r.value.items) == multiset(fetched) && GameSessions.Consistent(r.value.progress)
                      && r.value.progress.current == 0 && r.value.progress.total == |fetched|
    ensures mode == "topic" && topicId == "" ==> r == Err(TopicMissing)
    ensures mode == "lesson" && lessonId == "" ==> r == Err(GameSessions.LessonMissing)
    ensures mode == "custom" && selectedIds == [] ==> r == Err(SelectionMissing)
  {
    GameSessions.Open(mode, topicId, lessonId, selectedIds, TopicMissing, SelectionMissing, fetched, NoItems, draws)
  }

  /** `_classify_error`: too few tokens, too many, or, for as many tokens as the answer,
      a word-order error whatever the tokens are. */
  function ClassifyError(user: seq<string>, correct: seq<string>): (r: string)
    ensures r == "missing_words" <==> |user| < |correct|
    ensures r == "extra_words" <==> |user| > |correct|
    ensures r == "word_order" <==> |user| == |correct|
  {
    if |user| < |correct| then "missing_words"
    else if |user| > |correct| then "extra_words"
    else "word_order"
  }

  /** The classification reads only the two lengths: the set comparison in the source
      leads to "word_order" on both of its branches. */
  lemma ClassifyReadsLengths(user: seq<string>, correct: seq<string>, user': seq<string>, correct': seq<string>)
    requires |user| == |user'| && |correct| == |correct'|
    ensures ClassifyError(user, correct) == ClassifyError(user', correct')
  {
  }

  /** Swapping two words and replacing a word are both word-order errors. */
  lemma SameLengthExamples()
    ensures ClassifyError(["world", "hello"], ["hello", "world"]) == "word_order"
    ensures ClassifyError(["hello", "there"], ["hello", "world"]) == "word_order"
    ensures ClassifyError(["hello"], ["hello", "world"]) == "missing_words"
  {
  }

  /** The mistake type stored for a wrong arrangement: the given one, or "word_order" when
      none (or an empty one) is given. */
  function MistakeType(errorType: Option<string>): (r: string)
    ensures r != ""
    ensures errorType.Some? && errorType.value != "" ==> r == errorType.value
    ensures errorType.None? ==> r == "word_order"
  {
    match errorType
    case Some(t) => if t != "" then t else "word_order"
    case None => "word_order"
  }

  /** `record_result`: one more item done, exactly one of the right and wrong counters up
      by one, and for a wrong arrangement a mistake row of the given or default type. */
  function RecordResult(session: Option<GameSessions.Progress>, isCorrect: bool, errorType: Option<string>)
    : (r: Result<GameSessions.Recorded>)
    ensures r.Err? <==> session.None?
    ensures r.Ok? ==> r.value.progress.current == session.value.current + 1
    ensures r.Ok? ==> r.value.progress == GameSessions.Answer(session.value, isCorrect)
    ensures r.Ok? ==> (isCorrect <==> r.value.progress.correct == session.value.correct + 1)
    ensures r.Ok? ==> (!isCorrect <==> r.value.progress.incorrect == session.value.incorrect + 1)
    ensures r.Ok? ==> (r.value.mistake.Some? <==> !isCorrect)
    ensures r.Ok? && !isCorrect ==> r.value.mistake == Some(MistakeType(errorType))
  {
    GameSessions.Record(session, isCorrect, MistakeType(errorType))
  }

  /** A wrong arrangement recorded with its own classification is filed under that
      classification. */
  lemma ClassifiedMistakeFiled(p: GameSessions.Progress, user: seq<string>, correct: seq<string>)
    ensures RecordResult(Some(p), false, Some(ClassifyError(user, correct))).value.mistake
            == Some(ClassifyError(user, correct))
  {
  }
}
