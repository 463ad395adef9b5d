/** `GrammarQuestionGenerator`: four-option grammar questions built from the student's
    grammar mistakes, padded from a small pattern bank when fewer than two result. */
module GrammarQuestion {
  import opened Wrappers
  import opened Text
  import opened Seqs
  import MistakeExtractor

  type Mistake = MistakeExtractor.Mistake

  const MinQuestions: nat := 2
  const MaxQuestions: nat := 4
  const Blank: string := "____"

  datatype Question = Question(
    id: string, categoryId: string, lessonId: string, difficulty: string,
    prompt: string, options: seq<string>, correctIndex: nat, explanation: string)

  // ------------------------------------------------------------ the prompt

  predicate HoldsFocus(focus: string, w: string)
  {
    Contains(Lower(w), Lower(focus))
  }

  const BeVerbs: set<string> := {"is", "are", "was", "were", "have", "has", "had"}

  /** A token that looks like a verb: -ed, -ing, or a form of be/have once cleaned. */
  predicate VerbLike(w: string)
  {
    var c := CleanWord(w);
    EndsWith(c, "ed") || EndsWith(c, "ing") || c in BeVerbs
  }

  /** The position to blank: the first token holding the focus word (case-insensitive),
      else the first verb-like token. */
  function BlankIndex(words: seq<string>, focus: string): (r: Option<nat>)
    ensures r.Some? ==> r.value < |words|
    ensures focus != "" && (exists i :: 0 <= i < |words| && HoldsFocus(focus, words[i])) ==>
      (r.Some? && HoldsFocus(focus, words[r.value]) && forall m :: 0 <= m < r.value ==> !HoldsFocus(focus, words[m]))
    ensures focus == "" || (forall i :: 0 <= i < |words| ==> !HoldsFocus(focus, words[i])) ==>
      ((r.None? <==> forall i :: 0 <= i < |words| ==> !VerbLike(words[i]))
       && (r.Some? ==> VerbLike(words[r.value]) && forall m :: 0 <= m < r.value ==> !VerbLike(words[m])))
  {
    var f := if focus != "" then FirstIndexWhere(words, w => HoldsFocus(focus, w)) else None;
    if f.Some? then f else FirstIndexWhere(words, VerbLike)
  }

  /** `_create_prompt_with_blank`: the sentence's tokens joined by single spaces, with the
      chosen token replaced by "____"; None when no token is chosen. */
  function Prompt(sentence: string, focus: string): (r: Option<string>)
    ensures r.None? <==> BlankIndex(Words(sentence), focus).None?
  {
    var words := Words(sentence);
    match BlankIndex(words, focus)
    case None => None
    case Some(i) => Some(Join(" ", words[i := Blank]))
  }

  /** The prompt differs from the sentence in exactly one whitespace token, the chosen
      one, which became the blank. */
  lemma PromptBlanksOneToken(sentence: string, focus: string)
    requires Prompt(sentence, focus).Some?
    ensures var i := BlankIndex(Words(sentence), focus).value;
      var ws := Words(Prompt(sentence, focus).value);
      |ws| == |Words(sentence)| && ws[i] == Blank
      && forall k :: 0 <= k < |ws| && k != i ==> ws[k] == Words(sentence)[k]
  {
    var words := Words(sentence);
    var i := BlankIndex(words, focus).value;
    assert IsToken(Blank);
    WordsJoin(words[i := Blank]);
  }

  // ------------------------------------------------------------ the options

  /** First position where the zipped token lists differ, ignoring case. */
  function FirstDiff(inc: seq<string>, cor: seq<string>): (r: Option<nat>)
    ensures r.Some? ==> r.value < |inc| && r.value < |cor| && Lower(inc[r.value]) != Lower(cor[r.value])
    ensures forall m :: 0 <= m < |inc| && m < |cor| && (r.None? || m < r.value) ==> Lower(inc[m]) == Lower(cor[m])
    decreases |inc|
  {
    if |inc| == 0 || |cor| == 0 then None
    else if Lower(inc[0]) != Lower(cor[0]) then Some(0)
    else
      var r := FirstDiff(inc[1..], cor[1..]);
      assert forall m :: 1 <= m < |inc| ==> inc[1..][m - 1] == inc[m];
      assert forall m :: 1 <= m < |cor| ==> cor[1..][m - 1] == cor[m];
      match r
      case None => None
      case Some(i) => Some(i + 1)
  }

  /** The word the question asks for, with the word it replaced when the two sentences
      differ position-wise: the first differing correct token, else the first correct
      token absent from the incorrect side, else the first token, else "correct". */
  function CorrectWord(incorrect: string, correct: string): (r: (string, Option<string>))
    ensures r.0 in Words(correct) || (Words(correct) == [] && r.0 == "correct")
    ensures r.1.Some? <==> FirstDiff(Words(incorrect), Words(correct)).Some?
    ensures r.1.Some? ==> var i := FirstDiff(Words(incorrect), Words(correct)).value;
      r.0 == Words(correct)[i] && r.1.value == Words(incorrect)[i]
    ensures r.1.None? && FirstWhere(Words(correct), w => Lower(w) !in LowerAll(Words(incorrect))).Some? ==>
      r.0 == FirstWhere(Words(correct), w => Lower(w) !in LowerAll(Words(incorrect))).value
  {
    var iw := Words(incorrect);
    var cw := Words(correct);
    match FirstDiff(iw, cw)
    case Some(i) => (cw[i], Some(iw[i]))
    case None =>
      match FirstWhere(cw, w => Lower(w) !in LowerAll(iw))
      case Some(w) => (w, None)
      case None => (if |cw| > 0 then cw[0] else "correct", None)
  }

  const Irregular: seq<(string, seq<string>)> := [
    ("went", ["go", "goes", "going"]),
    ("bought", ["buy", "buys", "buying"]),
    ("ate", ["eat", "eats", "eating"]),
    ("wrote", ["write", "writes", "writing"]),
    ("spoke", ["speak", "speaks", "speaking"])]

  const AgreementVerbs: seq<string> := ["is", "are", "was", "were"]
  const Articles: seq<string> := ["a", "an", "the", ""]
  const Prepositions: seq<string> := ["in", "on", "at", "to", "for", "with", "by", "from"]

  lemma AgreementVerbsDistinct()
    ensures NoDup(AgreementVerbs)
  {
    assert AgreementVerbs[0][0] != AgreementVerbs[1][0] && AgreementVerbs[0][0] != AgreementVerbs[3][0];
    assert |AgreementVerbs[0]| != |AgreementVerbs[2]|;
    assert AgreementVerbs[1][0] != AgreementVerbs[2][0] && AgreementVerbs[1][0] != AgreementVerbs[3][0];
    assert |AgreementVerbs[2]| != |AgreementVerbs[3]|;
  }

  lemma ArticlesDistinct()
    ensures NoDup(Articles)
  {
    assert |Articles[0]| != |Articles[1]| && |Articles[0]| != |Articles[2]| && |Articles[0]| != |Articles[3]|;
    assert |Articles[1]| != |Articles[2]| && |Articles[1]| != |Articles[3]| && |Articles[2]| != |Articles[3]|;
  }

  /** The branches whose distractors leave out the cleaned correct word. */
  predicate Excluding(errorType: string)
  {
    !Contains(errorType, "past_tense") && !Contains(errorType, "verb_tense")
    && (Contains(errorType, "subject_verb") || Contains(errorType, "agreement")
        || Contains(errorType, "article") || Contains(errorType, "preposition"))
  }

  /** Agreement distractors: the other forms of be, or -s stripped/added variants. */
  function AgreementRaw(clean: string): (r: seq<string>)
    ensures clean !in r
  {
    if clean in AgreementVerbs then
      AgreementVerbsDistinct();
      RemoveFirst(AgreementVerbs, clean)
    else if EndsWith(clean, "s") then
      var base := clean[..|clean| - 1];
      assert |base + "es"| != |clean| && |base + "ed"| != |clean|;
      [base, base + "es", base + "ed"]
    else
      assert |clean + "s"| != |clean| && |clean + "es"| != |clean| && |clean + "ed"| != |clean|;
      [clean + "s", clean + "es", clean + "ed"]
  }

  /** Past-tense distractors: the bare, -ing and -s forms of an -ed word, the irregular
      table's forms, or variants of the word itself. */
  function PastRaw(clean: string): (r: seq<string>)
    ensures |r| == 3
  {
    if EndsWith(clean, "ed") then
      var base := clean[..|clean| - 2];
      [base, base + "ing", base + "s"]
    else
      var forms := Lookup(Irregular, clean).GetOr([clean + "s", clean + "ing", "have " + clean]);
      assert forall e :: e in Irregular ==> |e.1| == 3;
      forms
  }

  /** Verb-tense distractors: the other tenses of an -ing or -ed word, else suffixed forms. */
  function TenseRaw(clean: string): (r: seq<string>)
    ensures |r| == 3
  {
    if EndsWith(clean, "ing") then
      var base := clean[..|clean| - 3];
      [base, base + "ed", base + "s"]
    else if EndsWith(clean, "ed") then
      var base := clean[..|clean| - 2];
      [base, base + "ing", base + "s"]
    else [clean + "ed", clean + "ing", clean + "s"]
  }

  /** Article distractors: the other articles, the empty one included. */
  function ArticleRaw(clean: string): (r: seq<string>)
    ensures clean !in r
    ensures forall x :: x != clean ==> (x in r <==> x in Articles)
  {
    ArticlesDistinct();
    RemoveFirst(Articles, clean)
  }

  /** Preposition distractors: the first three listed prepositions other than the word. */
  function PrepositionRaw(clean: string): (r: seq<string>)
    ensures |r| <= 3 && clean !in r
    ensures forall x :: x in r ==> x in Prepositions
  {
    var f := Filter(Prepositions, p => p != clean);
    assert forall x :: x in Take(f, 3) ==> x in f;
    Take(f, 3)
  }

  /** Distractors for other grammar types: the cleaned incorrect word, then suffixed forms. */
  function GenericRaw(clean: string, incorrect: Option<string>): (r: seq<string>)
    ensures |r| == if incorrect.Some? then 4 else 3
    ensures incorrect.Some? ==> r[0] == CleanWord(incorrect.value)
  {
    (if incorrect.Some? then [CleanWord(incorrect.value)] else []) + [clean + "s", clean + "ed", clean + "ing"]
  }

  /** The distractor list of each error-type branch, before de-duplication. */
  function RawDistractors(clean: string, incorrect: Option<string>, errorType: string): (r: seq<string>)
    ensures Excluding(errorType) ==> clean !in r
  {
    if Contains(errorType, "past_tense") then PastRaw(clean)
    else if Contains(errorType, "verb_tense") then TenseRaw(clean)
    else if Contains(errorType, "subject_verb") || Contains(errorType, "agreement") then AgreementRaw(clean)
    else if Contains(errorType, "article") then ArticleRaw(clean)
    else if Contains(errorType, "preposition") then PrepositionRaw(clean)
    else GenericRaw(clean, incorrect)
  }

  /** `_generate_distractors_by_type`: the branch's list, de-duplicated in order, first three. */
  function TypeDistractors(correct: string, incorrect: Option<string>, errorType: string): (r: seq<string>)
    ensures |r| <= 3 && NoDup(r)
    ensures forall x :: x in r ==> x in RawDistractors(CleanWord(correct), incorrect, errorType)
    ensures Excluding(errorType) ==> CleanWord(correct) !in r
  {
    var d := Dedup(RawDistractors(CleanWord(correct), incorrect, errorType));
    var r := Take(d, 3);
    assert forall x :: x in r ==> x in d;
    assert NoDup(r) by {
      assert forall i, j :: 0 <= i < j < |r| ==> r[i] == d[i] && r[j] == d[j];
    }
    r
  }

  /** `xs` padded with `filler` up to four entries. */
  function Pad4(xs: seq<string>, filler: string): (r: seq<string>)
    ensures |r| == if |xs| < 4 then 4 else |xs|
    ensures r[..|xs|] == xs
    ensures forall k :: |xs| <= k < |r| ==> r[k] == filler
  {
    if |xs| < 4 then xs + seq(4 - |xs|, _ => filler) else xs
  }

  /** `_generate_options_from_mistake` after the word is chosen: the word, its distractors
      and "<word>s" padding, shuffled; the index is the word's first position. */
  function BuildOptions(word: string, distractors: seq<string>, draws: seq<nat>): (r: (seq<string>, nat))
    requires |distractors| <= 3
    ensures |r.0| == 4 && r.1 < 4
    ensures r.0[r.1] == word && word !in r.0[..r.1]
    ensures multiset(r.0) == multiset(Pad4([word] + distractors, word + "s"))
  {
    var opts := Shuffle(Pad4([word] + distractors, word + "s"), draws);
    assert word in multiset(opts) by { assert Pad4([word] + distractors, word + "s")[0] == word; }
    (opts, FirstIndex(opts, word))
  }

  // ------------------------------------------------------------ explanation, difficulty

  /** Text around the quoted sentence, per error type. */
  const Explanations: seq<(string, (string, string))> := [
    ("grammar_past_tense", ("Use past tense when describing completed actions. ", " is the correct past tense form.")),
    ("grammar_verb_tense", ("The verb tense should match the time reference. ", " is the appropriate tense here.")),
    ("grammar_subject_verb", ("The verb must agree with the subject. ", " is the correct form for subject-verb agreement.")),
    ("grammar_article", ("The correct article usage is ", " in this context.")),
    ("grammar_preposition", ("The correct preposition is ", " when used with this verb/noun.")),
    ("grammar_pronoun", ("", " is the appropriate pronoun in this context.")),
    ("grammar_word_order", ("The correct word order is ", ".")),
    ("grammar_plural", ("", " is the correct singular/plural form."))]

  /** `_generate_explanation`: the error type's sentence, quoting the corrected sentence. */
  function Explanation(correct: string, errorType: string): (r: string)
    ensures Contains(r, "'" + correct + "'")
  {
    var around := Lookup(Explanations, errorType).GetOr(("The correct form is ", "."));
    var r := around.0 + ("'" + correct + "'") + around.1;
    assert OccursAt(r, "'" + correct + "'", |around.0|) by {
      assert r[|around.0|..|around.0| + |"'" + correct + "'"|] == "'" + correct + "'";
    }
    ContainsAt(r, "'" + correct + "'", |around.0|);
    r
  }

  /** `_assess_difficulty` */
  function Difficulty(errorType: string, severity: string): (r: string)
    ensures r == "easy" <==> Contains(errorType, "past_tense") || Contains(errorType, "article")
    ensures r == "hard" <==> (!Contains(errorType, "past_tense") && !Contains(errorType, "article")
      && !Contains(errorType, "subject_verb") && !Contains(errorType, "preposition") && severity == "high")
    ensures r in {"easy", "medium", "hard"}
  {
    if Contains(errorType, "past_tense") || Contains(errorType, "article") then "easy"
    else if Contains(errorType, "subject_verb") || Contains(errorType, "preposition") then "medium"
    else if severity == "high" then "hard" else "medium"
  }

  /** For a record of the mistake extractor, whose severity is high exactly for grammar
      types, a grammar question is hard exactly when no easy or medium rule applies. */
  lemma ExtractedDifficulty(m: Mistake)
    requires m.severity == MistakeExtractor.Severity(m.errorType)
    requires Contains(m.errorType, "grammar")
    ensures Difficulty(m.errorType, m.severity) == "hard" <==>
      !Contains(m.errorType, "past_tense") && !Contains(m.errorType, "article")
      && !Contains(m.errorType, "subject_verb") && !Contains(m.errorType, "preposition")
  {
  }

  // ------------------------------------------------------------ questions from mistakes

  /** `_create_question_from_mistake`, with the id and the category and lesson fields left
      for the caller. */
  function MakeQuestion(m: Mistake, draws: seq<nat>): (r: Option<Question>)
    ensures r.None? <==> m.incorrect == "" || m.correct == "" || Prompt(m.correct, m.focusWord).None?
    ensures r.Some? ==> Asks(m, r.value)
  {
    if m.incorrect == "" || m.correct == "" then None
    else
      match Prompt(m.correct, m.focusWord)
      case None => None
      case Some(p) =>
        var cw := CorrectWord(m.incorrect, m.correct);
        var opts := BuildOptions(cw.0, TypeDistractors(cw.0, cw.1, m.errorType), draws);
        Some(Question("", "", "", Difficulty(m.errorType, m.severity), p, opts.0, opts.1,
          Explanation(m.correct, m.errorType)))
  }

  /** `q` is a question about mistake `m`: its prompt blanks `m`'s corrected sentence, its
      four options hold the chosen word at the correct index, and its difficulty and
      explanation follow `m`'s error type. */
  predicate Asks(m: Mistake, q: Question)
  {
    Prompt(m.correct, m.focusWord) == Some(q.prompt)
    && |q.options| == 4 && q.correctIndex < 4
    && q.options[q.correctIndex] == CorrectWord(m.incorrect, m.correct).0
    && q.difficulty == Difficulty(m.errorType, m.severity)
    && Contains(q.explanation, "'" + m.correct + "'")
  }

  predicate IsGrammar(m: Mistake) { Contains(m.errorType, "grammar") }

  /** `q` asks about one of the grammar mistakes in `ms`. */
  predicate FromGrammar(ms: seq<Mistake>, q: Question)
  {
    exists m :: m in ms && IsGrammar(m) && Asks(m, q)
  }

  function QuestionId(lessonId: string, n: nat): string
  {
    "gc_" + lessonId + "_q" + NatToString(n)
  }

  /** The prompts, lower-cased: the key under which duplicates are dropped. */
  function PromptKeys(qs: seq<Question>): (r: seq<string>)
    ensures |r| == |qs| && forall k :: 0 <= k < |r| ==> r[k] == Lower(qs[k].prompt)
  {
    seq(|qs|, k requires 0 <= k < |qs| => Lower(qs[k].prompt))
  }

  /** The questions built from grammar mistakes: at most `max_questions`, no two with the
      same prompt ignoring case, numbered q1, q2, … in order. */
  function MistakeQuestions(mistakes: seq<Mistake>, categoryId: string, lessonId: string, draws: seq<seq<nat>>): (r: seq<Question>)
    ensures |r| <= MaxQuestions
    ensures NoDup(PromptKeys(r))
    ensures forall k :: 0 <= k < |r| ==>
      r[k].id == QuestionId(lessonId, k + 1) && r[k].categoryId == categoryId && r[k].lessonId == lessonId
    ensures forall k :: 0 <= k < |r| ==> FromGrammar(mistakes, r[k])
  {
    var gm := Filter(mistakes, IsGrammar);
    var made := Made(gm, draws);
    var keys := MadeKeys(made);
    var p := Collect(keys, made, {}, MaxQuestions);
    PickedQuestions(mistakes, gm, made, keys, p);
    RenumberAll(p, mistakes, categoryId, lessonId);
    Number(p, categoryId, lessonId)
  }

  /** The question each grammar mistake yields, with its own draws. */
  function Made(gm: seq<Mistake>, draws: seq<seq<nat>>): (r: seq<Option<Question>>)
    ensures |r| == |gm|
    ensures forall k :: 0 <= k < |r| ==> r[k] == MakeQuestion(gm[k], if k < |draws| then draws[k] else [])
  {
    seq(|gm|, k requires 0 <= k < |gm| => MakeQuestion(gm[k], if k < |draws| then draws[k] else []))
  }

  /** The lower-cased prompt of each question made, "" where none was. */
  function MadeKeys(made: seq<Option<Question>>): (r: seq<string>)
    ensures |r| == |made|
    ensures forall k :: 0 <= k < |r| ==> r[k] == if made[k].Some? then Lower(made[k].value.prompt) else ""
  {
    seq(|made|, k requires 0 <= k < |made| => if made[k].Some? then Lower(made[k].value.prompt) else "")
  }

  lemma AsksPrompt(m: Mistake, q: Question)
    requires Asks(m, q)
    ensures Prompt(m.correct, m.focusWord) == Some(q.prompt)
  {
  }

  /** `MistakeQuestions` numbers what the loop over grammar mistakes keeps. */
  lemma MistakeQuestionsRun(mistakes: seq<Mistake>, categoryId: string, lessonId: string, draws: seq<seq<nat>>)
    ensures var made := Made(Filter(mistakes, IsGrammar), draws);
      var p := Collect(MadeKeys(made), made, {}, MaxQuestions);
      NoDup(Firsts(p)) && (forall k :: 0 <= k < |p| ==> p[k].0 == Lower(p[k].1.prompt))
      && MistakeQuestions(mistakes, categoryId, lessonId, draws) == Number(p, categoryId, lessonId)
  {
    var gm := Filter(mistakes, IsGrammar);
    PickedQuestions(mistakes, gm, Made(gm, draws), MadeKeys(Made(gm, draws)), Collect(MadeKeys(Made(gm, draws)), Made(gm, draws), {}, MaxQuestions));
  }

  /** The loop stops early only at `max_questions`: with fewer questions, every grammar
      mistake that can be asked about has its prompt asked, ignoring case. */
  lemma MistakeQuestionsComplete(mistakes: seq<Mistake>, categoryId: string, lessonId: string, draws: seq<seq<nat>>, m: Mistake)
    requires m in mistakes && IsGrammar(m)
    requires m.incorrect != "" && m.correct != "" && Prompt(m.correct, m.focusWord).Some?
    requires |MistakeQuestions(mistakes, categoryId, lessonId, draws)| < MaxQuestions
    ensures Lower(Prompt(m.correct, m.focusWord).value) in PromptKeys(MistakeQuestions(mistakes, categoryId, lessonId, draws))
  {
    hide *;
    var gm := Filter(mistakes, IsGrammar);
    var made := Made(gm, draws);
    var keys := MadeKeys(made);
    var p := Collect(keys, made, {}, MaxQuestions);
    PickedQuestions(mistakes, gm, made, keys, p);
    var r := Number(p, categoryId, lessonId);
    MistakeQuestionsRun(mistakes, categoryId, lessonId, draws);
    assert m in gm;
    var j :| 0 <= j < |gm| && gm[j] == m;
    AsksPrompt(m, made[j].value);
    CollectComplete(keys, made, {}, MaxQuestions, j);
  }

  lemma PickedQuestions(mistakes: seq<Mistake>, gm: seq<Mistake>, made: seq<Option<Question>>, keys: seq<string>, p: seq<(string, Question)>)
    requires gm == Filter(mistakes, IsGrammar)
    requires |made| == |gm| == |keys|
    requires forall k :: 0 <= k < |gm| ==> made[k].Some? ==> Asks(gm[k], made[k].value)
    requires forall k :: 0 <= k < |gm| ==> made[k].Some? ==> keys[k] == Lower(made[k].value.prompt)
    requires forall k :: 0 <= k < |p| ==> Picked(keys, made, p[k])
    ensures forall k :: 0 <= k < |p| ==> p[k].0 == Lower(p[k].1.prompt)
    ensures AllFromGrammar(mistakes, p)
  {
    forall k | 0 <= k < |p|
      ensures p[k].0 == Lower(p[k].1.prompt) && FromGrammar(mistakes, p[k].1)
    {
      assert Picked(keys, made, p[k]);
      var j :| 0 <= j < |keys| && j < |made| && keys[j] == p[k].0 && made[j] == Some(p[k].1);
      assert gm[j] in gm;
    }
  }

  /** Asking about a mistake does not depend on the id, category or lesson fields. */
  lemma RenumberKeeps(ms: seq<Mistake>, q: Question, id: string, categoryId: string, lessonId: string)
    requires FromGrammar(ms, q)
    ensures FromGrammar(ms, q.(id := id, categoryId := categoryId, lessonId := lessonId))
  {
    var m :| m in ms && IsGrammar(m) && Asks(m, q);
    assert Asks(m, q.(id := id, categoryId := categoryId, lessonId := lessonId));
  }

  function Renumber(q: Question, n: nat, categoryId: string, lessonId: string): Question
  {
    q.(id := QuestionId(lessonId, n), categoryId := categoryId, lessonId := lessonId)
  }

  /** Renumbering keeps the prompts, so the key list is the kept keys. */
  lemma RenumberedKeys(p: seq<(string, Question)>, r: seq<Question>)
    requires |r| == |p|
    requires forall k :: 0 <= k < |p| ==> p[k].0 == Lower(p[k].1.prompt) && r[k].prompt == p[k].1.prompt
    ensures PromptKeys(r) == Firsts(p)
  {
  }

  /** The kept questions numbered in order, with the category and lesson filled in. */
  function Number(p: seq<(string, Question)>, categoryId: string, lessonId: string): (r: seq<Question>)
    requires NoDup(Firsts(p))
    requires forall k :: 0 <= k < |p| ==> p[k].0 == Lower(p[k].1.prompt)
    ensures |r| == |p|
    ensures NoDup(PromptKeys(r)) && PromptKeys(r) == Firsts(p)
    ensures forall k :: 0 <= k < |r| ==> r[k] == Renumber(p[k].1, k + 1, categoryId, lessonId)
  {
    var r := seq(|p|, k requires 0 <= k < |p| => Renumber(p[k].1, k + 1, categoryId, lessonId));
    RenumberedKeys(p, r);
    r
  }

  /** Every kept question asks about a grammar mistake of `ms`. */
  predicate AllFromGrammar(ms: seq<Mistake>, p: seq<(string, Question)>)
  {
    forall k :: 0 <= k < |p| ==> FromGrammar(ms, p[k].1)
  }

  lemma RenumberAll(p: seq<(string, Question)>, mistakes: seq<Mistake>, categoryId: string, lessonId: string)
    requires AllFromGrammar(mistakes, p)
    ensures forall k :: 0 <= k < |p| ==> FromGrammar(mistakes, Renumber(p[k].1, k + 1, categoryId, lessonId))
  {
    forall k | 0 <= k < |p|
      ensures FromGrammar(mistakes, Renumber(p[k].1, k + 1, categoryId, lessonId))
    {
      RenumberKeeps(mistakes, p[k].1, QuestionId(lessonId, k + 1), categoryId, lessonId);
    }
  }

  // ------------------------------------------------------------ pattern bank

  datatype Pattern = Pattern(prompt: string, options: seq<string>, correctIndex: nat, explanation: string, difficulty: string)

  /** Every pattern has four options and an index among them. */
  predicate ValidPattern(p: Pattern)
  {
    |p.options| == 4 && p.correctIndex < 4
  }

  /** The category-to-patterns table of `_generate_pattern_questions`. The generator
      takes it as a parameter; `DefaultBank` builds the table itself. */
  type PatternBank = seq<(string, seq<Pattern>)>

  /** The tense patterns: two, each with four options and an index among them. */
  method TensePatterns() returns (r: seq<Pattern>)
    ensures |r| == 2 && ValidPattern(r[0]) && ValidPattern(r[1])
  {
    var yesterday := Pattern("Yesterday, I ____ to the store.", ["go", "went", "going", "gone"], 1,
      "Use past tense \"went\" with time marker \"yesterday\".", "easy");
    var working := Pattern("She ____ working here for five years.", ["is", "has been", "was", "will be"], 1,
      "Use present perfect continuous for actions continuing from past to present.", "medium");
    r := [yesterday, working];
  }

  /** The agreement pattern, alone in its category. */
  method AgreementPatterns() returns (r: seq<Pattern>)
    ensures |r| == 1 && ValidPattern(r[0])
  {
    r := [Pattern("The team ____ ready for the match.", ["is", "are", "were", "be"], 0,
      "Collective nouns like \"team\" take singular verbs.", "medium")];
  }

  /** The article pattern, alone in its category. */
  method ArticlePatterns() returns (r: seq<Pattern>)
    ensures |r| == 1 && ValidPattern(r[0])
  {
    r := [Pattern("I need ____ umbrella because it is raining.", ["a", "an", "the", ""], 1,
      "Use \"an\" before words starting with vowel sounds.", "easy")];
  }

  /** The table has the tense, agreement and articles categories with two, one and one
      patterns, each with four options and an index among them. */
  method DefaultBank() returns (b: PatternBank)
    ensures BankValid(b)
    ensures Firsts(b) == ["tense", "agreement", "articles"]
    ensures |b[0].1| == 2 && |b[1].1| == 1 && |b[2].1| == 1
  {
    var tense := TensePatterns();
    var agreement := AgreementPatterns();
    var articles := ArticlePatterns();
    b := [("tense", tense), ("agreement", agreement), ("articles", articles)];
  }

  /** The category's patterns; an unknown category gets the tense ones. */
  function PatternsFor(bank: PatternBank, categoryId: string): (r: seq<Pattern>)
    ensures Lookup(bank, categoryId).Some? ==> r == Lookup(bank, categoryId).value
    ensures Lookup(bank, categoryId).None? ==> r == Lookup(bank, "tense").GetOr([])
  {
    Lookup(bank, categoryId).GetOr(Lookup(bank, "tense").GetOr([]))
  }

  predicate BankValid(bank: PatternBank)
  {
    forall i, k :: 0 <= i < |bank| && 0 <= k < |bank[i].1| ==> ValidPattern(bank[i].1[k])
  }

  /** In a table shaped like the default one, the agreement category has one pattern and
      an unknown category gets the two tense ones. */
  lemma DefaultShape(bank: PatternBank, categoryId: string)
    requires Firsts(bank) == ["tense", "agreement", "articles"]
    requires |bank[0].1| == 2 && |bank[1].1| == 1 && |bank[2].1| == 1
    ensures |PatternsFor(bank, "agreement")| == 1
    ensures categoryId !in Firsts(bank) ==> |PatternsFor(bank, categoryId)| == 2
  {
    assert bank[0].0 == "tense" && bank[1].0 == "agreement";
    assert bank[0].0 != "agreement" by { assert |bank[0].0| != |"agreement"|; }
    assert Lookup(bank, "tense") == Some(bank[0].1);
  }

  /** `_generate_pattern_questions`: the category's patterns, at most two, numbered
      pattern1, pattern2, with the category and lesson filled in. */
  function PatternQuestions(bank: PatternBank, categoryId: string, lessonId: string): (r: seq<Question>)
    ensures |r| == Min(2, |PatternsFor(bank, categoryId)|)
    ensures forall k :: 0 <= k < |r| ==>
      var p := PatternsFor(bank, categoryId)[k];
      (r[k].id == "gc_" + lessonId + "_pattern" + NatToString(k + 1)
       && r[k].categoryId == categoryId && r[k].lessonId == lessonId
       && r[k].prompt == p.prompt && r[k].options == p.options && r[k].correctIndex == p.correctIndex)
  {
    var ps := Take(PatternsFor(bank, categoryId), 2);
    seq(|ps|, k requires 0 <= k < |ps| =>
      Question("gc_" + lessonId + "_pattern" + NatToString(k + 1), categoryId, lessonId, ps[k].difficulty,
        ps[k].prompt, ps[k].options, ps[k].correctIndex, ps[k].explanation))
  }

  // ------------------------------------------------------------ generate

  /** `GrammarQuestionGenerator.generate(mistakes, category_id, lesson_id)`: the mistake
      questions, then pattern questions only while fewer than `min_questions`. */
  function Generate(mistakes: seq<Mistake>, categoryId: string, lessonId: string, draws: seq<seq<nat>>, bank: PatternBank): (r: seq<Question>)
    ensures |r| <= MaxQuestions
    ensures var mq := MistakeQuestions(mistakes, categoryId, lessonId, draws);
      |mq| <= |r| && r[..|mq|] == mq
      && (|mq| >= MinQuestions ==> r == mq)
      && (|r| > |mq| ==> |r| <= MinQuestions)
      && r[|mq|..] == Take(PatternQuestions(bank, categoryId, lessonId), |r| - |mq|)
  {
    var mq := MistakeQuestions(mistakes, categoryId, lessonId, draws);
    if |mq| < MinQuestions then
      var pad := Take(PatternQuestions(bank, categoryId, lessonId), MinQuestions - |mq|);
      assert (mq + pad)[..|mq|] == mq;
      mq + pad
    else mq
  }

  /** With fewer than `max_questions` questions, every grammar mistake that can be asked
      about is asked about, under its prompt up to case. */
  lemma GenerateAsksEveryMistake(mistakes: seq<Mistake>, categoryId: string, lessonId: string, draws: seq<seq<nat>>,
                                 bank: PatternBank, m: Mistake)
    requires m in mistakes && IsGrammar(m)
    requires m.incorrect != "" && m.correct != "" && Prompt(m.correct, m.focusWord).Some?
    requires |Generate(mistakes, categoryId, lessonId, draws, bank)| < MaxQuestions
    ensures var r := Generate(mistakes, categoryId, lessonId, draws, bank);
      exists k :: 0 <= k < |r| && Lower(r[k].prompt) == Lower(Prompt(m.correct, m.focusWord).value)
  {
    var mq := MistakeQuestions(mistakes, categoryId, lessonId, draws);
    var r := Generate(mistakes, categoryId, lessonId, draws, bank);
    MistakeQuestionsComplete(mistakes, categoryId, lessonId, draws, m);
    var k :| 0 <= k < |mq| && PromptKeys(mq)[k] == Lower(Prompt(m.correct, m.focusWord).value);
    assert r[..|mq|][k] == r[k];
  }

  /** With fewer than two usable mistakes the result reaches `min_questions` exactly when
      the category has enough patterns. */
  lemma PaddingReachesMinimum(mistakes: seq<Mistake>, categoryId: string, lessonId: string, draws: seq<seq<nat>>, bank: PatternBank)
    requires |MistakeQuestions(mistakes, categoryId, lessonId, draws)| < MinQuestions
    ensures var n := |MistakeQuestions(mistakes, categoryId, lessonId, draws)|;
      |Generate(mistakes, categoryId, lessonId, draws, bank)| == MinQuestions
      <==> n + |PatternsFor(bank, categoryId)| >= MinQuestions
  {
  }

  /** Reaching `min_questions` is not guaranteed: with no grammar mistakes, the agreement
      category has a single pattern, so one question results. */
  lemma AgreementFallsShort(lessonId: string, draws: seq<seq<nat>>, bank: PatternBank)
    requires Firsts(bank) == ["tense", "agreement", "articles"]
    requires |bank[0].1| == 2 && |bank[1].1| == 1 && |bank[2].1| == 1
    ensures |Generate([], "agreement", lessonId, draws, bank)| == 1
  {
    DefaultShape(bank, "agreement");
    assert |MistakeQuestions([], "agreement", lessonId, draws)| == 0;
  }
}
