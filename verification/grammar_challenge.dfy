/** The grammar-challenge service: starting a session in one of its modes, and recording,
    skipping and completing its questions. */
module GrammarChallenge {
  import opened Wrappers
  import GameSessions

  const NoQuestions := "No questions available for this session"
  const CategoryMissing := "category_id required for topic mode"
  const SelectionMissing := "selected_question_ids required for custom mode"

  /** The mistake type every wrong grammar answer is filed under. */
  const IncorrectAnswer := "incorrect_answer"

  /** `start_session`: a topic session needs a category id, a lesson session a lesson id,
      a custom session selected question ids; then the questions the mode fetched must not
      be empty, and they are shuffled, `draws` standing for the random choices. */
  function StartSession<Q>(mode: string, categoryId: string, lessonId: string, selectedIds: seq<string>,
                           fetched: seq<Q>, draws: seq<nat>): (r: Result<GameSessions.Session<Q>>)
    ensures r.Ok? <==> mode in GameSessions.Modes && fetched != []
                       && !(mode == "topic" && categoryId == "") && !(mode == "lesson" && lessonId == "")
                       && !(mode == "custom" && selectedIds == [])
    ensures r.Ok? ==> multiset(r.value.items) == multiset(fetched) && GameSessions.Consistent(r.value.progress)
                      && r.value.progress.current == 0 && r.value.progress.total == |fetched|
    ensures mode == "topic" && categoryId == "" ==> r == Err(CategoryMissing)
    ensures mode == "custom" && selectedIds == [] ==> r == Err(SelectionMissing)
    ensures mode == "lesson" && lessonId == "" ==> r == Err(GameSessions.LessonMissing)
    ensures r.Err? && r != Err(CategoryMissing) && r != Err(GameSessions.LessonMissing) && r != Err(SelectionMissing)
            ==> r == Err(NoQuestions)
  {
    GameSessions.Open(mode, categoryId, lessonId, selectedIds, CategoryMissing, SelectionMissing,
                      fetched, NoQuestions, draws)
  }

  /** A mode the service does not know passes the mode check but fetches nothing, so it is
      refused for having no questions. */
  lemma UnknownModeHasNoQuestions<Q>(fetched: seq<Q>, draws: seq<nat>)
    ensures StartSession("daily", "", "", [], fetched, draws) == Err(NoQuestions)
  {
  }

  /** `record_result`: one more question done, and a mistake row only for a wrong
      answer. */
  function RecordResult(session: Option<GameSessions.Progress>, isCorrect: bool): (r: Result<GameSessions.Recorded>)
    ensures r.Err? <==> session.None?
    ensures r.Ok? ==> r.value.progress.correct + r.value.progress.incorrect
                      == session.value.correct + session.value.incorrect + 1
    ensures r.Ok? ==> r.value.progress.current == session.value.current + 1
    ensures r.Ok? ==> (r.value.mistake == Some(IncorrectAnswer) <==> !isCorrect)
    ensures r.Ok? ==> (r.value.mistake.None? <==> isCorrect)
  {
    GameSessions.Record(session, isCorrect, IncorrectAnswer)
  }

  /** A skipped question moves the counters exactly as a wrong answer does, though no
      mistake row is written for it. */
  lemma SkipLikeWrongAnswer(p: GameSessions.Progress)
    ensures GameSessions.SkipQuestion(Some(p)).value == RecordResult(Some(p), false).value.progress
  {
    GameSessions.SkipIsWrongAnswer(p);
  }

  /** A session run from its start through any answers and skips, then completed without
      an override, ends with right plus wrong equal to the number done. */
  lemma PlayedSessionConsistent(n: nat, steps: seq<Option<bool>>)
    ensures var p := GameSessions.Replay(GameSessions.Progress(0, n, 0, 0), steps);
      GameSessions.Complete(Some(p), None) == Ok(p) && GameSessions.Consistent(p) && p.current == |steps|
  {
    GameSessions.ReplayConsistent(GameSessions.Progress(0, n, 0, 0), steps);
  }
}
