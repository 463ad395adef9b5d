/** `FillInBlankGenerator`: sentences with one whole word blanked out and four lettered
    options, taken first from the corrected sides of mistakes, then from practice sentences. */
module FillInBlank {
  import opened Wrappers
  import opened Text
  import opened Seqs
  import MistakeExtractor
  import SentenceExtractor
  import VocabularyExtractor
  import GeminiHelper

  const MaxExercises: nat := 4
  const Blank: string := "_____"

  datatype FillBlank = FillBlank(
    exerciseId: string, sentence: string,
    optionA: string, optionB: string, optionC: string, optionD: string,
    correctAnswer: string, correctWord: string, difficulty: string, contextType: string)

  function Options(e: FillBlank): seq<string>
  {
    [e.optionA, e.optionB, e.optionC, e.optionD]
  }

  /** The random choices one candidate consumes: the target word, the shuffle of a
      table hit among the distractors, and the shuffle of the options. */
  datatype Draws = Draws(choice: nat, pool: seq<nat>, order: seq<nat>)

  function DrawAt(ds: seq<Draws>, k: nat): Draws
  {
    if k < |ds| then ds[k] else Draws(0, [], [])
  }

  // ------------------------------------------------------------ the blank

  /** `\b` + `re.escape(t)` + `\b` with `re.IGNORECASE` matches at `i`. */
  predicate WholeWordAt(s: string, t: string, i: nat)
    requires i <= |s|
  {
    i + |t| <= |s| && Lower(s[i..i + |t|]) == Lower(t) && Boundary(s, i) && Boundary(s, i + |t|)
  }

  /** `pattern.search(s)` from `i`: the leftmost whole-word match. */
  function FindWord(s: string, t: string, i: nat): (r: Option<nat>)
    requires i <= |s| + 1
    ensures r.Some? ==> i <= r.value <= |s| && WholeWordAt(s, t, r.value)
    ensures r.Some? ==> forall j :: i <= j < r.value ==> !WholeWordAt(s, t, j)
    ensures r.None? ==> forall j :: i <= j <= |s| ==> !WholeWordAt(s, t, j)
    decreases |s| + 1 - i
  {
    if i > |s| then None
    else if WholeWordAt(s, t, i) then Some(i)
    else FindWord(s, t, i + 1)
  }

  /** `b` is `s` with the leftmost whole-word match of `t` replaced by the blank. */
  predicate BlankedAtFirst(b: string, s: string, t: string)
  {
    exists i :: 0 <= i <= |s| && WholeWordAt(s, t, i)
      && (forall j :: 0 <= j < i ==> !WholeWordAt(s, t, j))
      && b == s[..i] + Blank + s[i + |t|..]
  }

  /** `chr(65 + k)` */
  function Letter(k: nat): (r: string)
    requires k < 4
    ensures |r| == 1 && 'A' <= r[0] <= 'D'
  {
    [(65 + k) as char]
  }

  /** `while len(options) < 4: options.append('')` */
  function Pad(xs: seq<string>): (r: seq<string>)
    ensures |r| == (if |xs| < 4 then 4 else |xs|) && r[..|xs|] == xs
    ensures forall k :: |xs| <= k < |r| ==> r[k] == ""
    ensures |xs| >= 4 ==> r == xs
    decreases 4 - |xs|
  {
    if |xs| < 4 then Pad(xs + [""]) else xs
  }

  /** `sentence.strip().strip('"')` */
  function CleanSentence(s: string): string
  {
    StripSet(Strip(s), {'"'})
  }

  /** `target_word.strip('.,!?"')` */
  function CleanTarget(t: string): string
  {
    StripSet(t, {'.', ',', '!', '?', '"'})
  }

  /** An exercise as `_create_exercise` shapes it: the blank is in the sentence, the
      correct word is among the four options, and the answer letter names its first
      position. */
  predicate WellShaped(e: FillBlank)
  {
    && Contains(e.sentence, Blank)
    && e.correctWord in Options(e)
    && |e.correctAnswer| == 1 && 'A' <= e.correctAnswer[0] <= 'D'
    && Options(e)[e.correctAnswer[0] as int - 65] == e.correctWord
    && (forall k :: 0 <= k < e.correctAnswer[0] as int - 65 ==> Options(e)[k] != e.correctWord)
    && e.difficulty == "beginner"
  }

  /** `pattern.sub('_____', s, count=1)` after a successful `pattern.search(s)`. */
  function BlankOut(s: string, t: string): (r: Option<string>)
    ensures r.None? <==> forall i :: 0 <= i <= |s| ==> !WholeWordAt(s, t, i)
    ensures r.Some? ==> BlankedAtFirst(r.value, s, t) && Contains(r.value, Blank)
  {
    match FindWord(s, t, 0)
    case None => None
    case Some(i) =>
      var blanked := s[..i] + Blank + s[i + |t|..];
      assert blanked[i..i + |Blank|] == Blank;
      ContainsAt(blanked, Blank, i);
      Some(blanked)
  }

  /** The exercise record for a blanked sentence: the word and its distractors shuffled,
      padded to four, and the letter of the word's first position. */
  function MakeExercise(blanked: string, t: string, distractors: seq<string>, order: seq<nat>, context: string): (e: FillBlank)
    requires |distractors| <= 3 && Contains(blanked, Blank)
    ensures WellShaped(e)
    ensures e.sentence == blanked && e.correctWord == t && e.contextType == context
    ensures e.exerciseId == "FB_" + NatToString(|blanked|)
    ensures |distractors| == 3 ==> multiset(Options(e)) == multiset([t] + distractors)
  {
    var shuffled := Shuffle([t] + distractors, order);
    assert t in multiset(shuffled);
    var options := Pad(shuffled);
    assert t in options by { assert options[..|shuffled|] == shuffled; }
    ExerciseOf(blanked, t, options, context)
  }

  /** The record for four options holding the word. */
  function ExerciseOf(blanked: string, t: string, options: seq<string>, context: string): (e: FillBlank)
    requires |options| == 4 && t in options && Contains(blanked, Blank)
    ensures WellShaped(e) && Options(e) == options
    ensures e.sentence == blanked && e.correctWord == t && e.contextType == context
    ensures e.exerciseId == "FB_" + NatToString(|blanked|)
  {
    var k := FirstIndex(options, t);
    var e := FillBlank("FB_" + NatToString(|blanked|), blanked, options[0], options[1], options[2], options[3],
      Letter(k), t, "beginner", context);
    assert Options(e) == options;
    assert e.correctAnswer[0] as int - 65 == k;
    e
  }

  /** `_create_exercise(sentence, target_word, context)`. */
  function CreateExercise(sentence: string, target: string, context: string, d: Draws): (r: Option<FillBlank>)
    ensures r.None? <==> forall i :: 0 <= i <= |CleanSentence(sentence)| ==>
      !WholeWordAt(CleanSentence(sentence), CleanTarget(target), i)
    ensures r.Some? ==> WellShaped(r.value)
    ensures r.Some? ==> BlankedAtFirst(r.value.sentence, CleanSentence(sentence), CleanTarget(target))
    ensures r.Some? ==> r.value.correctWord == CleanTarget(target) && r.value.contextType == context
    ensures r.Some? ==> r.value.exerciseId == "FB_" + NatToString(|r.value.sentence|)
    ensures r.Some? ==> (multiset(Options(r.value)) ==
      multiset([CleanTarget(target)] + GeminiHelper.GenerateDistractors(CleanTarget(target), CleanSentence(sentence), 3, d.pool)))
  {
    var s := CleanSentence(sentence);
    var t := CleanTarget(target);
    var blanked :- BlankOut(s, t);
    Some(MakeExercise(blanked, t, GeminiHelper.GenerateDistractors(t, s, 3, d.pool), d.order, context))
  }

  /** The options are never padded: the distractor helper always supplies three. */
  lemma NoPadding(target: string, sentence: string, d: Draws)
    ensures |Shuffle([CleanTarget(target)] + GeminiHelper.GenerateDistractors(CleanTarget(target), CleanSentence(sentence), 3, d.pool), d.order)| == 4
  {
  }

  // ---------------------------------------------------------------- generate

  /** One source sentence with the word to blank, if there is one. */
  datatype Candidate = Candidate(sentence: string, target: Option<string>, context: string)

  /** The exercise a candidate yields: none without a (non-empty) target. */
  function Attempt(c: Candidate, d: Draws): (r: Option<FillBlank>)
    ensures r.Some? ==> WellShaped(r.value) && r.value.contextType == c.context
    ensures r.Some? ==> BlankedAtFirst(r.value.sentence, CleanSentence(c.sentence), r.value.correctWord)
  {
    if c.target.None? || c.target.value == "" then None
    else CreateExercise(c.sentence, c.target.value, c.context, d)
  }

  function Attempts(cands: seq<Candidate>, draws: seq<Draws>): (r: seq<Option<FillBlank>>)
    ensures |r| == |cands|
    ensures forall k :: 0 <= k < |r| && r[k].Some? ==>
      WellShaped(r[k].value) && r[k].value.contextType == cands[k].context
  {
    seq(|cands|, k requires 0 <= k < |cands| => Attempt(cands[k], DrawAt(draws, k)))
  }

  function Keys(cands: seq<Candidate>): (r: seq<string>)
    ensures |r| == |cands| && forall k :: 0 <= k < |r| ==> r[k] == cands[k].sentence
  {
    seq(|cands|, k requires 0 <= k < |cands| => cands[k].sentence)
  }

  /** The corrected sentence of each mistake, with its focus word as the target. */
  function MistakeCandidates(ms: seq<MistakeExtractor.Mistake>): (r: seq<Candidate>)
    ensures |r| == |ms|
    ensures forall k :: 0 <= k < |r| ==> r[k].sentence == ms[k].correct && r[k].context == "correction"
  {
    seq(|ms|, k requires 0 <= k < |ms| => Candidate(ms[k].correct, Some(ms[k].focusWord), "correction"))
  }

  /** `[w for w in sentence.split() if len(w) > 3 and w.isalpha()]` */
  function PracticeWords(sentence: string): (r: seq<string>)
    ensures forall w :: w in r ==> |w| > 3 && IsAlpha(w)
  {
    Filter(Words(sentence), w => |w| > 3 && IsAlpha(w))
  }

  /** A practice sentence, with `random.choice(words[:3])` as the target when it has a
      long alphabetic word. */
  function SentenceCandidate(s: SentenceExtractor.PracticeSentence, d: Draws): (c: Candidate)
    ensures c.sentence == s.sentence && c.context == "practice"
    ensures c.target.Some? ==> c.target.value in PracticeWords(s.sentence)[..Min(3, |PracticeWords(s.sentence)|)]
  {
    var words := PracticeWords(s.sentence);
    Candidate(s.sentence, if words == [] then None else Some(Choice(Take(words, 3), d.choice)), "practice")
  }

  function SentenceCandidates(ss: seq<SentenceExtractor.PracticeSentence>, draws: seq<Draws>): (r: seq<Candidate>)
    ensures |r| == |ss|
    ensures forall k :: 0 <= k < |r| ==> r[k].sentence == ss[k].sentence && r[k].context == "practice"
  {
    seq(|ss|, k requires 0 <= k < |ss| => SentenceCandidate(ss[k], DrawAt(draws, k)))
  }

  /** Exercises paired with the sentence each was made from: first from the first
      `max_exercises` mistakes, then from practice sentences, never two from the same
      sentence, at most `max_exercises` in all. */
  function GenerateSourced(mistakes: seq<MistakeExtractor.Mistake>, sentences: seq<SentenceExtractor.PracticeSentence>,
                           mistakeDraws: seq<Draws>, sentenceDraws: seq<Draws>): (r: seq<(string, FillBlank)>)
    ensures |r| <= MaxExercises
    ensures NoDup(Firsts(r))
    ensures forall k :: 0 <= k < |r| ==> FromMistake(Take(mistakes, MaxExercises), r[k]) || FromSentence(sentences, r[k])
    ensures forall i, j :: 0 <= i < j < |r| && FromMistake(Take(mistakes, MaxExercises), r[j]) ==>
      FromMistake(Take(mistakes, MaxExercises), r[i])
  {
    var first := MistakeRun(mistakes, mistakeDraws);
    var second := SentenceRun(sentences, sentenceDraws, Elems(Firsts(first)), MaxExercises - |first|);
    Join2(first, second, Take(mistakes, MaxExercises), sentences)
  }

  /** The first loop: exercises from the corrected sentences of the first
      `max_exercises` mistakes, one per sentence. */
  function MistakeRun(mistakes: seq<MistakeExtractor.Mistake>, mistakeDraws: seq<Draws>): (r: seq<(string, FillBlank)>)
    ensures |r| <= MaxExercises && NoDup(Firsts(r))
    ensures forall k :: 0 <= k < |r| ==> FromMistake(Take(mistakes, MaxExercises), r[k])
  {
    var mc := MistakeCandidates(Take(mistakes, MaxExercises));
    var first := Collect(Keys(mc), Attempts(mc, mistakeDraws), {}, MaxExercises);
    MistakesPicked(mc, mistakeDraws, Take(mistakes, MaxExercises), first);
    first
  }

  /** The second loop: exercises from practice sentences not in `used`, at most `room`. */
  function SentenceRun(sentences: seq<SentenceExtractor.PracticeSentence>, sentenceDraws: seq<Draws>, used: set<string>, room: nat)
    : (r: seq<(string, FillBlank)>)
    ensures |r| <= room && NoDup(Firsts(r))
    ensures forall k :: 0 <= k < |r| ==> r[k].0 !in used && FromSentence(sentences, r[k])
  {
    var sc := SentenceCandidates(sentences, sentenceDraws);
    var second := Collect(Keys(sc), Attempts(sc, sentenceDraws), used, room);
    SentencesPicked(sc, sentenceDraws, sentences, second);
    second
  }

  /** An exercise made from the corrected side of one of `ms`. */
  predicate FromMistake(ms: seq<MistakeExtractor.Mistake>, x: (string, FillBlank))
  {
    WellShaped(x.1) && x.1.contextType == "correction" && exists m :: m in ms && m.correct == x.0
  }

  /** An exercise made from one of the practice sentences `ss`. */
  predicate FromSentence(ss: seq<SentenceExtractor.PracticeSentence>, x: (string, FillBlank))
  {
    WellShaped(x.1) && x.1.contextType == "practice" && exists s :: s in ss && s.sentence == x.0
  }

  lemma MistakePicked(mc: seq<Candidate>, md: seq<Draws>, ms: seq<MistakeExtractor.Mistake>, x: (string, FillBlank))
    requires |mc| == |ms| && forall k :: 0 <= k < |mc| ==> mc[k].sentence == ms[k].correct && mc[k].context == "correction"
    requires Picked(Keys(mc), Attempts(mc, md), x)
    ensures FromMistake(ms, x)
  {
    var j :| 0 <= j < |Keys(mc)| && j < |Attempts(mc, md)| && Keys(mc)[j] == x.0 && Attempts(mc, md)[j] == Some(x.1);
    assert ms[j] in ms;
  }

  lemma SentencePicked(sc: seq<Candidate>, sd: seq<Draws>, ss: seq<SentenceExtractor.PracticeSentence>, x: (string, FillBlank))
    requires |sc| == |ss| && forall k :: 0 <= k < |sc| ==> sc[k].sentence == ss[k].sentence && sc[k].context == "practice"
    requires Picked(Keys(sc), Attempts(sc, sd), x)
    ensures FromSentence(ss, x)
  {
    var j :| 0 <= j < |Keys(sc)| && j < |Attempts(sc, sd)| && Keys(sc)[j] == x.0 && Attempts(sc, sd)[j] == Some(x.1);
    assert ss[j] in ss;
  }

  lemma MistakesPicked(mc: seq<Candidate>, md: seq<Draws>, ms: seq<MistakeExtractor.Mistake>, xs: seq<(string, FillBlank)>)
    requires |mc| == |ms| && forall k :: 0 <= k < |mc| ==> mc[k].sentence == ms[k].correct && mc[k].context == "correction"
    requires forall k :: 0 <= k < |xs| ==> Picked(Keys(mc), Attempts(mc, md), xs[k])
    ensures forall k :: 0 <= k < |xs| ==> FromMistake(ms, xs[k])
  {
    forall k | 0 <= k < |xs|
      ensures FromMistake(ms, xs[k])
    {
      MistakePicked(mc, md, ms, xs[k]);
    }
  }

  lemma SentencesPicked(sc: seq<Candidate>, sd: seq<Draws>, ss: seq<SentenceExtractor.PracticeSentence>, xs: seq<(string, FillBlank)>)
    requires |sc| == |ss| && forall k :: 0 <= k < |sc| ==> sc[k].sentence == ss[k].sentence && sc[k].context == "practice"
    requires forall k :: 0 <= k < |xs| ==> Picked(Keys(sc), Attempts(sc, sd), xs[k])
    ensures forall k :: 0 <= k < |xs| ==> FromSentence(ss, xs[k])
  {
    forall k | 0 <= k < |xs|
      ensures FromSentence(ss, xs[k])
    {
      SentencePicked(sc, sd, ss, xs[k]);
    }
  }

  /** The two runs of `GenerateSourced` joined: mistake exercises, then sentence ones. */
  function Join2(first: seq<(string, FillBlank)>, second: seq<(string, FillBlank)>,
                 ms: seq<MistakeExtractor.Mistake>, ss: seq<SentenceExtractor.PracticeSentence>): (r: seq<(string, FillBlank)>)
    requires NoDup(Firsts(first)) && NoDup(Firsts(second))
    requires forall k :: 0 <= k < |second| ==> second[k].0 !in Firsts(first)
    requires forall k :: 0 <= k < |first| ==> FromMistake(ms, first[k])
    requires forall k :: 0 <= k < |second| ==> FromSentence(ss, second[k])
    ensures |r| == |first| + |second|
    ensures NoDup(Firsts(r))
    ensures forall k :: 0 <= k < |r| ==> FromMistake(ms, r[k]) || FromSentence(ss, r[k])
    ensures forall i, j :: 0 <= i < j < |r| && FromMistake(ms, r[j]) ==> FromMistake(ms, r[i])
  {
    var r := first + second;
    assert Firsts(r) == Firsts(first) + Firsts(second);
    NoDupConcat(Firsts(first), Firsts(second));
    assert forall k :: |first| <= k < |r| ==> r[k] == second[k - |first|];
    assert forall j :: |first| <= j < |r| ==> !FromMistake(ms, r[j]) by {
      forall j | |first| <= j < |r|
        ensures !FromMistake(ms, r[j])
      {
        assert FromSentence(ss, r[j]);
      }
    }
    r
  }

  /** `FillInBlankGenerator.generate(vocabulary, mistakes, sentences)`: the vocabulary
      list plays no part. */
  function Generate(vocabulary: seq<VocabularyExtractor.VocabEntry>, mistakes: seq<MistakeExtractor.Mistake>,
                    sentences: seq<SentenceExtractor.PracticeSentence>,
                    mistakeDraws: seq<Draws>, sentenceDraws: seq<Draws>): (r: seq<FillBlank>)
    ensures |r| <= MaxExercises
    ensures forall k :: 0 <= k < |r| ==> WellShaped(r[k])
    ensures forall i, j :: 0 <= i < j < |r| && r[j].contextType == "correction" ==> r[i].contextType == "correction"
  {
    Exercises(GenerateSourced(mistakes, sentences, mistakeDraws, sentenceDraws))
  }

  /** A candidate yields an exercise exactly when it has a non-empty target that occurs
      as a whole word in its cleaned sentence (`UsableAttempt`). */
  predicate Usable(c: Candidate)
  {
    && c.target.Some? && c.target.value != ""
    && exists i :: 0 <= i <= |CleanSentence(c.sentence)| && WholeWordAt(CleanSentence(c.sentence), CleanTarget(c.target.value), i)
  }

  lemma UsableAttempt(c: Candidate, d: Draws)
    ensures Usable(c) <==> Attempt(c, d).Some?
  {
  }

  /** The exercise of a sourced pair blanks the first whole-word occurrence of its word
      in its source sentence, cleaned. */
  predicate BlanksKey(x: (string, FillBlank))
  {
    BlankedAtFirst(x.1.sentence, CleanSentence(x.0), x.1.correctWord)
  }

  lemma AttemptsBlankKeys(cands: seq<Candidate>, draws: seq<Draws>)
    ensures forall j :: 0 <= j < |Keys(cands)| && Attempts(cands, draws)[j].Some? ==>
      BlanksKey((Keys(cands)[j], Attempts(cands, draws)[j].value))
  {
  }

  /** `GenerateSourced` is the mistake run followed by the sentence run over the rest. */
  lemma SourcedRuns(mistakes: seq<MistakeExtractor.Mistake>, sentences: seq<SentenceExtractor.PracticeSentence>,
                    mistakeDraws: seq<Draws>, sentenceDraws: seq<Draws>)
    ensures var first := MistakeRun(mistakes, mistakeDraws);
      GenerateSourced(mistakes, sentences, mistakeDraws, sentenceDraws)
        == first + SentenceRun(sentences, sentenceDraws, Elems(Firsts(first)), MaxExercises - |first|)
  {
  }

  /** Every exercise of either run blanks its source sentence. */
  lemma RunsBlankKeys(mistakes: seq<MistakeExtractor.Mistake>, sentences: seq<SentenceExtractor.PracticeSentence>,
                      mistakeDraws: seq<Draws>, sentenceDraws: seq<Draws>, used: set<string>, room: nat)
    ensures forall k :: 0 <= k < |MistakeRun(mistakes, mistakeDraws)| ==> BlanksKey(MistakeRun(mistakes, mistakeDraws)[k])
    ensures forall k :: 0 <= k < |SentenceRun(sentences, sentenceDraws, used, room)| ==>
      BlanksKey(SentenceRun(sentences, sentenceDraws, used, room)[k])
  {
    var mc := MistakeCandidates(Take(mistakes, MaxExercises));
    var sc := SentenceCandidates(sentences, sentenceDraws);
    AttemptsBlankKeys(mc, mistakeDraws);
    AttemptsBlankKeys(sc, sentenceDraws);
    CollectKeeps(Keys(mc), Attempts(mc, mistakeDraws), {}, MaxExercises, BlanksKey);
    CollectKeeps(Keys(sc), Attempts(sc, sentenceDraws), used, room, BlanksKey);
  }

  /** Every exercise `GenerateSourced` keeps blanks its source sentence. */
  lemma SourcedBlankKeys(mistakes: seq<MistakeExtractor.Mistake>, sentences: seq<SentenceExtractor.PracticeSentence>,
                         mistakeDraws: seq<Draws>, sentenceDraws: seq<Draws>)
    ensures var r := GenerateSourced(mistakes, sentences, mistakeDraws, sentenceDraws);
      forall k :: 0 <= k < |r| ==> BlanksKey(r[k])
  {
    hide *;
    var first := MistakeRun(mistakes, mistakeDraws);
    var second := SentenceRun(sentences, sentenceDraws, Elems(Firsts(first)), MaxExercises - |first|);
    SourcedRuns(mistakes, sentences, mistakeDraws, sentenceDraws);
    RunsBlankKeys(mistakes, sentences, mistakeDraws, sentenceDraws, Elems(Firsts(first)), MaxExercises - |first|);
    ConcatAll(GenerateSourced(mistakes, sentences, mistakeDraws, sentenceDraws), first, second, BlanksKey);
  }

  /** The mistake run stops early only when it has four exercises: with fewer, each of
      the first `max_exercises` mistakes whose exercise can be built has its corrected
      sentence among the run's keys. */
  lemma MistakeRunComplete(mistakes: seq<MistakeExtractor.Mistake>, mistakeDraws: seq<Draws>, j: nat)
    requires j < |mistakes| && j < MaxExercises
    requires Usable(Candidate(mistakes[j].correct, Some(mistakes[j].focusWord), "correction"))
    requires |MistakeRun(mistakes, mistakeDraws)| < MaxExercises
    ensures mistakes[j].correct in Firsts(MistakeRun(mistakes, mistakeDraws))
  {
    var ms := Take(mistakes, MaxExercises);
    var mc := MistakeCandidates(ms);
    assert ms[j] == mistakes[j];
    UsableAttempt(mc[j], DrawAt(mistakeDraws, j));
    assert Attempts(mc, mistakeDraws)[j] == Attempt(mc[j], DrawAt(mistakeDraws, j));
    CollectComplete(Keys(mc), Attempts(mc, mistakeDraws), {}, MaxExercises, j);
  }

  /** The sentence run stops early only when its room is full: with fewer, every
      practice sentence whose exercise can be built is among its keys unless it was
      already used. */
  lemma SentenceRunComplete(sentences: seq<SentenceExtractor.PracticeSentence>, sentenceDraws: seq<Draws>,
                            used: set<string>, room: nat, j: nat)
    requires j < |sentences|
    requires Usable(SentenceCandidate(sentences[j], DrawAt(sentenceDraws, j)))
    requires |SentenceRun(sentences, sentenceDraws, used, room)| < room
    ensures sentences[j].sentence in used || sentences[j].sentence in Firsts(SentenceRun(sentences, sentenceDraws, used, room))
  {
    if sentences[j].sentence !in used {
      var sc := SentenceCandidates(sentences, sentenceDraws);
      UsableAttempt(sc[j], DrawAt(sentenceDraws, j));
      assert Attempts(sc, sentenceDraws)[j] == Attempt(sc[j], DrawAt(sentenceDraws, j));
      CollectComplete(Keys(sc), Attempts(sc, sentenceDraws), used, room, j);
    }
  }

  /** With fewer than four exercises in all, each of the first `max_exercises` mistakes
      whose exercise can be built is the source of a correction exercise. */
  lemma GenerateSourcedMistakes(mistakes: seq<MistakeExtractor.Mistake>, sentences: seq<SentenceExtractor.PracticeSentence>,
                                mistakeDraws: seq<Draws>, sentenceDraws: seq<Draws>, j: nat)
    requires j < |mistakes| && j < MaxExercises
    requires Usable(Candidate(mistakes[j].correct, Some(mistakes[j].focusWord), "correction"))
    requires |GenerateSourced(mistakes, sentences, mistakeDraws, sentenceDraws)| < MaxExercises
    ensures var r := GenerateSourced(mistakes, sentences, mistakeDraws, sentenceDraws);
      exists k :: 0 <= k < |r| && r[k].0 == mistakes[j].correct && FromMistake(Take(mistakes, MaxExercises), r[k])
  {
    hide *;
    var first := MistakeRun(mistakes, mistakeDraws);
    var second := SentenceRun(sentences, sentenceDraws, Elems(Firsts(first)), MaxExercises - |first|);
    SourcedRuns(mistakes, sentences, mistakeDraws, sentenceDraws);
    MistakeRunComplete(mistakes, mistakeDraws, j);
    ConcatKeyFirst(GenerateSourced(mistakes, sentences, mistakeDraws, sentenceDraws), first, second, mistakes[j].correct,
                   x => FromMistake(Take(mistakes, MaxExercises), x));
  }

  /** With fewer than four exercises in all, every practice sentence whose exercise can
      be built is the source of one, unless a mistake exercise already took its sentence;
      either way the sentence is among the keys. */
  lemma GenerateSourcedSentences(mistakes: seq<MistakeExtractor.Mistake>, sentences: seq<SentenceExtractor.PracticeSentence>,
                                 mistakeDraws: seq<Draws>, sentenceDraws: seq<Draws>, j: nat)
    requires j < |sentences|
    requires Usable(SentenceCandidate(sentences[j], DrawAt(sentenceDraws, j)))
    requires |GenerateSourced(mistakes, sentences, mistakeDraws, sentenceDraws)| < MaxExercises
    ensures sentences[j].sentence in Firsts(GenerateSourced(mistakes, sentences, mistakeDraws, sentenceDraws))
  {
    hide *;
    var first := MistakeRun(mistakes, mistakeDraws);
    var second := SentenceRun(sentences, sentenceDraws, Elems(Firsts(first)), MaxExercises - |first|);
    SourcedRuns(mistakes, sentences, mistakeDraws, sentenceDraws);
    ConcatLength(GenerateSourced(mistakes, sentences, mistakeDraws, sentenceDraws), first, second, MaxExercises);
    SentenceRunComplete(sentences, sentenceDraws, Elems(Firsts(first)), MaxExercises - |first|, j);
    ConcatKey(GenerateSourced(mistakes, sentences, mistakeDraws, sentenceDraws), first, second, sentences[j].sentence);
  }

  /** With fewer than four exercises, each of the first `max_exercises` mistakes whose
      exercise can be built has a correction exercise blanking its corrected sentence. */
  lemma GenerateUsesMistakes(vocabulary: seq<VocabularyExtractor.VocabEntry>, mistakes: seq<MistakeExtractor.Mistake>,
                             sentences: seq<SentenceExtractor.PracticeSentence>,
                             mistakeDraws: seq<Draws>, sentenceDraws: seq<Draws>, j: nat)
    requires j < |mistakes| && j < MaxExercises
    requires Usable(Candidate(mistakes[j].correct, Some(mistakes[j].focusWord), "correction"))
    requires |Generate(vocabulary, mistakes, sentences, mistakeDraws, sentenceDraws)| < MaxExercises
    ensures var r := Generate(vocabulary, mistakes, sentences, mistakeDraws, sentenceDraws);
      exists k :: 0 <= k < |r| && r[k].contextType == "correction"
        && BlankedAtFirst(r[k].sentence, CleanSentence(mistakes[j].correct), r[k].correctWord)
  {
    var p := GenerateSourced(mistakes, sentences, mistakeDraws, sentenceDraws);
    GenerateSourcedMistakes(mistakes, sentences, mistakeDraws, sentenceDraws, j);
    SourcedBlankKeys(mistakes, sentences, mistakeDraws, sentenceDraws);
    var k :| 0 <= k < |p| && p[k].0 == mistakes[j].correct && FromMistake(Take(mistakes, MaxExercises), p[k]);
    assert BlanksKey(p[k]);
    assert Generate(vocabulary, mistakes, sentences, mistakeDraws, sentenceDraws)[k] == p[k].1;
  }

  /** With fewer than four exercises, every practice sentence whose exercise can be built
      has an exercise blanking it: its own, or the correction exercise that took it. */
  lemma GenerateUsesSentences(vocabulary: seq<VocabularyExtractor.VocabEntry>, mistakes: seq<MistakeExtractor.Mistake>,
                              sentences: seq<SentenceExtractor.PracticeSentence>,
                              mistakeDraws: seq<Draws>, sentenceDraws: seq<Draws>, j: nat)
    requires j < |sentences|
    requires Usable(SentenceCandidate(sentences[j], DrawAt(sentenceDraws, j)))
    requires |Generate(vocabulary, mistakes, sentences, mistakeDraws, sentenceDraws)| < MaxExercises
    ensures var r := Generate(vocabulary, mistakes, sentences, mistakeDraws, sentenceDraws);
      exists k :: 0 <= k < |r| && BlankedAtFirst(r[k].sentence, CleanSentence(sentences[j].sentence), r[k].correctWord)
  {
    var p := GenerateSourced(mistakes, sentences, mistakeDraws, sentenceDraws);
    GenerateSourcedSentences(mistakes, sentences, mistakeDraws, sentenceDraws, j);
    SourcedBlankKeys(mistakes, sentences, mistakeDraws, sentenceDraws);
    var k :| 0 <= k < |p| && Firsts(p)[k] == sentences[j].sentence;
    assert BlanksKey(p[k]);
    assert Generate(vocabulary, mistakes, sentences, mistakeDraws, sentenceDraws)[k] == p[k].1;
  }

  /** The exercises of sourced pairs, in order. */
  function Exercises(p: seq<(string, FillBlank)>): (r: seq<FillBlank>)
    ensures |r| == |p| && forall k :: 0 <= k < |p| ==> r[k] == p[k].1
  {
    seq(|p|, k requires 0 <= k < |p| => p[k].1)
  }
}
