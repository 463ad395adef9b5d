/** The session bookkeeping the game services share: the progress counters of a
    `game_sessions` row, how starting, answering, skipping and completing change them,
    and the mistake row a wrong answer leaves behind. */
module GameSessions {
  import opened Wrappers
  import opened Seqs

  /** The four counters of a session row. They are plain integers: the override a client
      may send at completion can put any number in them. */
  datatype Progress = Progress(current: int, total: int, correct: int, incorrect: int)

  /** Every item done so far was counted once, as right or as wrong. */
  predicate Consistent(p: Progress)
  {
    0 <= p.correct && 0 <= p.incorrect && p.correct + p.incorrect == p.current
  }

  /** The modes a session can be started in; any other mode fetches nothing. */
  const Modes: seq<string> := ["topic", "lesson", "custom", "mistakes"]

  const SessionMissing := "Session not found or access denied"
  const LessonMissing := "lesson_id required for lesson mode"

  /** A started session: its items, in the order the service hands them out, and its
      counters. */
  datatype Session<T> = Session(items: seq<T>, progress: Progress)

  /** The mode check at the top of `start_session`. A topic session needs its topic id, a
      lesson session its lesson id, a custom session a non-empty selection; Python's `not`
      treats a missing id like "", so a missing one is "" here. Each service words its own
      messages for the topic and custom cases. */
  function CheckMode(mode: string, topicId: string, lessonId: string, selected: seq<string>,
                     topicMessage: string, selectionMessage: string): (r: Result<()>)
    ensures r.Err? <==> (mode == "topic" && topicId == "") || (mode == "lesson" && lessonId == "")
                        || (mode == "custom" && selected == [])
    ensures mode !in ["topic", "lesson", "custom"] ==> r.Ok?
    ensures r.Err? && mode == "topic" ==> r.message == topicMessage
    ensures r.Err? && mode == "lesson" ==> r.message == LessonMissing
    ensures r.Err? && mode == "custom" ==> r.message == selectionMessage
  {
    if mode == "topic" && topicId == "" then Err(topicMessage)
    else if mode == "lesson" && lessonId == "" then Err(LessonMissing)
    else if mode == "custom" && selected == [] then Err(selectionMessage)
    else Ok(())
  }

  /** `start_session` of the grammar and sentence-builder services: the mode check, then
      the items the mode fetched (nothing for an unknown mode), refused when there are
      none, and otherwise handed out in the order `random.shuffle` gives them under
      `draws`. A new session has done nothing yet and has as many items to do as it
      holds. */
  function Open<T>(mode: string, topicId: string, lessonId: string, selected: seq<string>,
                   topicMessage: string, selectionMessage: string, fetched: seq<T>, emptyMessage: string,
                   draws: seq<nat>)
    : (r: Result<Session<T>>)
    ensures r.Ok? <==> CheckMode(mode, topicId, lessonId, selected, topicMessage, selectionMessage).Ok?
                       && mode in Modes && fetched != []
    ensures CheckMode(mode, topicId, lessonId, selected, topicMessage, selectionMessage).Err? ==>
              r == Err(CheckMode(mode, topicId, lessonId, selected, topicMessage, selectionMessage).message)
    ensures r.Ok? ==> r.value.items == Shuffle(fetched, draws) && multiset(r.value.items) == multiset(fetched)
    ensures r.Ok? ==> Consistent(r.value.progress) && r.value.progress.current == 0
                      && r.value.progress.total == |fetched|
    ensures mode !in Modes ==> r.Err?
  {
    var _ :- CheckMode(mode, topicId, lessonId, selected, topicMessage, selectionMessage);
    var items := if mode in Modes then fetched else [];
    if items == [] then Err(emptyMessage) else Ok(Start(Shuffle(items, draws)))
  }

  /** A session that has done nothing yet over `items`. */
  function Start<T>(items: seq<T>): (s: Session<T>)
    ensures s.items == items && Consistent(s.progress)
    ensures s.progress.current == 0 && s.progress.total == |items|
  {
    Session(items, Progress(0, |items|, 0, 0))
  }

  /** The session update of `record_result`: one more item done, counted as right or as
      wrong, and nothing else changed. */
  function Answer(p: Progress, isCorrect: bool): (r: Progress)
    ensures r.current == p.current + 1 && r.total == p.total
    ensures r.correct + r.incorrect == p.correct + p.incorrect + 1
    ensures isCorrect <==> r.correct == p.correct + 1
    ensures isCorrect <==> r.incorrect == p.incorrect
    ensures Consistent(p) ==> Consistent(r)
  {
    p.(current := p.current + 1, correct := p.correct + (if isCorrect then 1 else 0),
       incorrect := p.incorrect + (if isCorrect then 0 else 1))
  }

  /** `skip_question`: one more item done, and it counts as wrong. */
  function Skip(p: Progress): (r: Progress)
    ensures r.current == p.current + 1 && r.incorrect == p.incorrect + 1
    ensures r.correct == p.correct && r.total == p.total
  {
    p.(current := p.current + 1, incorrect := p.incorrect + 1)
  }

  /** A skip is a wrong answer as far as the counters go. */
  lemma SkipIsWrongAnswer(p: Progress)
    ensures Skip(p) == Answer(p, false)
  {
  }

  /** What recording an answer writes besides the result row: the new counters and, for
      a wrong answer only, the `last_error_type` of the upserted mistake row. */
  datatype Recorded = Recorded(progress: Progress, mistake: Option<string>)

  /** `record_result` against the session looked up for the user (None when there is no
      such session or it belongs to someone else). */
  function Record(session: Option<Progress>, isCorrect: bool, errorType: string): (r: Result<Recorded>)
    ensures r.Err? <==> session.None?
    ensures r.Err? ==> r.message == SessionMissing
    ensures r.Ok? ==> r.value.progress == Answer(session.value, isCorrect)
    ensures r.Ok? ==> (r.value.mistake.Some? <==> !isCorrect)
    ensures r.Ok? && !isCorrect ==> r.value.mistake == Some(errorType)
  {
    match session
    case None => Err(SessionMissing)
    case Some(p) => Ok(Recorded(Answer(p, isCorrect), if isCorrect then None else Some(errorType)))
  }

  /** `skip_question` against the looked-up session. */
  function SkipQuestion(session: Option<Progress>): (r: Result<Progress>)
    ensures r.Err? <==> session.None?
    ensures r.Err? ==> r.message == SessionMissing
    ensures r.Ok? ==> Consistent(session.value) ==> Consistent(r.value)
  {
    match session
    case None => Err(SessionMissing)
    case Some(p) =>
      SkipIsWrongAnswer(p);
      Ok(Skip(p))
  }

  /** The counter override a client may send at completion: JSON keys to numbers. */
  type Override = map<string, int>

  function Pick(o: Override, key: string, default: int): int
  {
    if key in o then o[key] else default
  }

  /** `complete_session`'s counters: when an override is given and not empty, each of
      "current", "correct" and "incorrect" is taken from it where present and kept
      otherwise. The total is never overridden. */
  function Complete(session: Option<Progress>, final: Option<Override>): (r: Result<Progress>)
    ensures r.Err? <==> session.None?
    ensures r.Err? ==> r.message == SessionMissing
    ensures r.Ok? ==> r.value.total == session.value.total
    ensures r.Ok? && (final.None? || final == Some(map[])) ==> r.value == session.value
    ensures r.Ok? && final.Some? ==>
      && ("current" in final.value ==> r.value.current == final.value["current"])
      && ("correct" in final.value ==> r.value.correct == final.value["correct"])
      && ("incorrect" in final.value ==> r.value.incorrect == final.value["incorrect"])
    ensures r.Ok? ==>
      && (final.None? || "current" !in final.value ==> r.value.current == session.value.current)
      && (final.None? || "correct" !in final.value ==> r.value.correct == session.value.correct)
      && (final.None? || "incorrect" !in final.value ==> r.value.incorrect == session.value.incorrect)
  {
    match session
    case None => Err(SessionMissing)
    case Some(p) =>
      if final.Some? && final.value != map[] then
        Ok(p.(current := Pick(final.value, "current", p.current),
              correct := Pick(final.value, "correct", p.correct),
              incorrect := Pick(final.value, "incorrect", p.incorrect)))
      else Ok(p)
  }

  /** The emptiness test in `complete_session` changes nothing: an override naming none of
      the three counters leaves them as they are, empty or not. */
  lemma UnrelatedOverrideKeepsCounters(p: Progress, o: Override)
    requires "current" !in o && "correct" !in o && "incorrect" !in o
    ensures Complete(Some(p), Some(o)) == Ok(p)
  {
  }

  /** Completing again with the same override changes nothing more. */
  lemma CompleteIdempotent(p: Progress, final: Option<Override>)
    ensures Complete(Some(Complete(Some(p), final).value), final) == Complete(Some(p), final)
  {
  }

  /** An override naming all three counters decides them whatever the session held. */
  lemma FullOverrideDecides(p: Progress, q: Progress, o: Override)
    requires "current" in o && "correct" in o && "incorrect" in o && p.total == q.total
    ensures Complete(Some(p), Some(o)) == Complete(Some(q), Some(o))
  {
  }

  /** A session answered item by item from its start stays consistent: after any run of
      answers and skips, right plus wrong is the number done. */
  function Replay(p: Progress, steps: seq<Option<bool>>): (r: Progress)
    ensures r.total == p.total && r.current == p.current + |steps|
    decreases |steps|
  {
    if steps == [] then p
    else
      var next := match steps[0] case None => Skip(p) case Some(ok) => Answer(p, ok);
      Replay(next, steps[1..])
  }

  lemma {:induction false} ReplayConsistent(p: Progress, steps: seq<Option<bool>>)
    requires Consistent(p)
    ensures Consistent(Replay(p, steps))
    decreases |steps|
  {
    if steps != [] {
      var next := match steps[0] case None => Skip(p) case Some(ok) => Answer(p, ok);
      assert Consistent(next);
      ReplayConsistent(next, steps[1..]);
    }
  }

  /** The window of rows a page asks for: `range(offset, offset + limit - 1)`, both ends
      included, with `offset = (page - 1) * limit`. */
  datatype Window = Window(first: int, last: int)

  function PageWindow(page: int, limit: int): (w: Window)
    ensures w.last - w.first + 1 == limit
  {
    var offset := (page - 1) * limit;
    Window(offset, offset + limit - 1)
  }

  /** Consecutive pages leave no gap and no overlap between them. */
  lemma PagesTile(page: int, limit: int)
    ensures PageWindow(page + 1, limit).first == PageWindow(page, limit).last + 1
  {
  }

  /** With a positive page size, every row from the first on lies in exactly one page's
      window: the page numbered `row / limit + 1`. */
  lemma RowPage(row: nat, page: int, limit: int)
    requires limit > 0 && page >= 1
    ensures PageWindow(page, limit).first <= row <= PageWindow(page, limit).last <==> page == row / limit + 1
  {
    var q := row / limit;
    var d := page - 1 - q;
    var w := PageWindow(page, limit);
    assert row == q * limit + row % limit && 0 <= row % limit < limit;
    assert w.first == q * limit + d * limit by {
      assert (page - 1) * limit == (q + d) * limit;
    }
    assert (1 - d) * limit == limit - d * limit;
    assert (d + 1) * limit == d * limit + limit;
    PositiveFactor(1 - d, limit);
    PositiveFactor(d + 1, limit);
  }

  /** A product with a positive factor is positive only if the other factor is. */
  lemma PositiveFactor(x: int, limit: int)
    requires limit > 0
    ensures x * limit > 0 ==> x > 0
  {
  }
}
