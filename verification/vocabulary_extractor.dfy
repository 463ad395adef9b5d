/** `VocabularyExtractor` (src/extractors/vocabulary_extractor.py): the words of the
    corrected sentences first, then the lesson topic's words that the lesson mentions,
    never two entries with the same lowercased word. */
module VocabularyExtractor {
  import opened Wrappers
  import opened Text
  import TextProcessing

  datatype VocabEntry = VocabEntry(word: string, context: string, category: string, priority: string)

  /** The lowercased words already taken. */
  function Taken(es: seq<VocabEntry>): set<string>
  {
    set k | 0 <= k < |es| :: Lower(es[k].word)
  }

  /** No two entries share a lowercased word, and none is already in `seen`. */
  predicate Fresh(es: seq<VocabEntry>, seen: set<string>)
  {
    && (forall k :: 0 <= k < |es| ==> Lower(es[k].word) !in seen)
    && (forall i, j :: 0 <= i < j < |es| ==> Lower(es[i].word) != Lower(es[j].word))
  }

  /** Entries taken one after the other stay fresh together. */
  lemma FreshAppend(a: seq<VocabEntry>, b: seq<VocabEntry>, seen: set<string>)
    requires Fresh(a, seen) && Fresh(b, seen + Taken(a))
    ensures Fresh(a + b, seen)
    ensures Taken(a + b) == Taken(a) + Taken(b)
  {
    var ab := a + b;
    forall i, j | 0 <= i < j < |ab| ensures Lower(ab[i].word) != Lower(ab[j].word) {
      if i < |a| && j >= |a| {
        assert Lower(ab[i].word) in Taken(a);
        assert ab[j] == b[j - |a|];
      }
    }
    forall w | w in Taken(ab) ensures w in Taken(a) + Taken(b) {
      var k :| 0 <= k < |ab| && w == Lower(ab[k].word);
      if k >= |a| {
        assert ab[k] == b[k - |a|];
      }
    }
    forall w | w in Taken(b) ensures w in Taken(ab) {
      var k :| 0 <= k < |b| && w == Lower(b[k].word);
      assert ab[|a| + k] == b[k];
    }
    forall w | w in Taken(a) ensures w in Taken(ab) {
      var k :| 0 <= k < |a| && w == Lower(a[k].word);
      assert ab[k] == a[k];
    }
  }

  lemma TakenOne(e: VocabEntry)
    ensures Taken([e]) == {Lower(e.word)}
  {
    assert [e][0] == e;
  }

  /** `word.split()[0] if ' ' in word else word` */
  function Normalize(w: string): (r: string)
    ensures ' ' !in r
  {
    if ' ' in w then
      var ws := Words(w);
      if |ws| > 0 then NoSpaceInToken(ws[0]); ws[0] else ""
    else w
  }

  lemma NoSpaceInToken(t: string)
    requires IsToken(t)
    ensures ' ' !in t
  {
    assert IsSpace(' ');
  }

  /** A word without spaces is its own normal form. */
  lemma NormalizeNoSpace(w: string)
    requires ' ' !in w
    ensures Normalize(w) == w
  {
  }

  // ----------------------------------------------------- correction words

  /** The inner loop over one corrected sentence's key vocabulary. */
  function CorrectionWords(ws: seq<string>, context: string, seen: set<string>): (r: seq<VocabEntry>)
    ensures Fresh(r, seen)
    ensures forall k :: 0 <= k < |r| ==>
      r[k].context == context && r[k].category == "corrected_usage" && r[k].priority == "high"
      && ' ' !in r[k].word
    decreases |ws|
  {
    if |ws| == 0 then []
    else
      var n := Normalize(ws[0]);
      if Lower(n) !in seen then
        var e := VocabEntry(n, context, "corrected_usage", "high");
        var rest := CorrectionWords(ws[1..], context, seen + {Lower(n)});
        TakenOne(e);
        FreshAppend([e], rest, seen);
        [e] + rest
      else CorrectionWords(ws[1..], context, seen)
  }

  /** The entries one corrected sentence contributes. */
  function SentenceEntries(correct: string, seen: set<string>): (r: seq<VocabEntry>)
    ensures Fresh(r, seen)
    ensures forall k :: 0 <= k < |r| ==>
      r[k].context == correct && r[k].category == "corrected_usage" && r[k].priority == "high"
      && ' ' !in r[k].word
  {
    CorrectionWords(TextProcessing.KeyVocabulary(correct), correct, seen)
  }

  /** The corrected sides, in order. */
  function Corrected(cs: seq<TextProcessing.Correction>): (r: seq<string>)
    ensures |r| == |cs| && forall k :: 0 <= k < |cs| ==> r[k] == cs[k].correct
  {
    seq(|cs|, k requires 0 <= k < |cs| => cs[k].correct)
  }

  /** An entry of the correction phase: a high-priority corrected-usage word without
      spaces, whose context is one of the corrected sentences. */
  predicate FromCorrection(e: VocabEntry, contexts: seq<string>)
  {
    e.category == "corrected_usage" && e.priority == "high" && ' ' !in e.word && e.context in contexts
  }

  /** The outer loop over the corrections, carrying `seen` from pair to pair. */
  function CorrectionEntries(cs: seq<TextProcessing.Correction>, seen: set<string>): (r: seq<VocabEntry>)
    ensures Fresh(r, seen)
    ensures forall k :: 0 <= k < |r| ==> FromCorrection(r[k], Corrected(cs))
    decreases |cs|
  {
    if |cs| == 0 then []
    else
      var head := SentenceEntries(cs[0].correct, seen);
      var rest := CorrectionEntries(cs[1..], seen + Taken(head));
      FreshAppend(head, rest, seen);
      CorrectionsStep(cs, head, rest);
      head + rest
  }

  lemma CorrectionsStep(cs: seq<TextProcessing.Correction>, head: seq<VocabEntry>, rest: seq<VocabEntry>)
    requires |cs| > 0
    requires forall k :: 0 <= k < |head| ==>
      head[k].context == cs[0].correct && head[k].category == "corrected_usage" && head[k].priority == "high"
      && ' ' !in head[k].word
    requires forall k :: 0 <= k < |rest| ==> FromCorrection(rest[k], Corrected(cs[1..]))
    ensures forall k :: 0 <= k < |head + rest| ==> FromCorrection((head + rest)[k], Corrected(cs))
  {
    assert Corrected(cs) == [cs[0].correct] + Corrected(cs[1..]);
  }

  // ---------------------------------------------------------- topic words

  datatype TopicWords = TopicWords(topic: string, words: seq<string>)

  /** `topic_vocab`, in the source's order. */
  const TopicVocab: seq<TopicWords> := [
    TopicWords("daily_routines", ["wake", "breakfast", "brush", "morning"]),
    TopicWords("hobbies", ["football", "music", "books", "time"]),
    TopicWords("family", ["father", "mother", "engineer", "teacher"]),
    TopicWords("past_tense", ["yesterday", "bought", "went", "cooked"]),
    TopicWords("travel", ["hotel", "comfortable", "stayed", "Delhi"])
  ]

  /** `topic_vocab[topic]` when `topic in topic_vocab`. */
  function LookupTopic(table: seq<TopicWords>, topic: string): (r: Option<seq<string>>)
    ensures r.None? <==> forall k :: 0 <= k < |table| ==> table[k].topic != topic
    ensures r.Some? ==> exists k :: 0 <= k < |table| && table[k].topic == topic && r.value == table[k].words
    decreases |table|
  {
    if |table| == 0 then None
    else if table[0].topic == topic then Some(table[0].words)
    else
      var r := LookupTopic(table[1..], topic);
      assert forall k :: 1 <= k < |table| ==> table[1..][k - 1] == table[k];
      r
  }

  /** The first line containing the word, compared lowercased, or "" when none does. */
  function FindContext(word: string, lines: seq<string>): (r: string)
    ensures r != "" ==> exists k :: 0 <= k < |lines| && r == lines[k] && Contains(Lower(lines[k]), Lower(word))
    ensures r == "" && |word| > 0 ==> forall k :: 0 <= k < |lines| ==> !Contains(Lower(lines[k]), Lower(word))
    decreases |lines|
  {
    if |lines| == 0 then ""
    else if Contains(Lower(lines[0]), Lower(word)) then lines[0]
    else
      var r := FindContext(word, lines[1..]);
      assert forall k :: 1 <= k < |lines| ==> lines[1..][k - 1] == lines[k];
      r
  }

  /** The loop over the topic's words; a word is added only when some line mentions it. */
  function TopicEntries(ws: seq<string>, lines: seq<string>, topic: string, seen: set<string>): (r: seq<VocabEntry>)
    ensures Fresh(r, seen)
    ensures forall k :: 0 <= k < |r| ==>
      r[k].category == "topic_" + topic && r[k].priority == "medium"
      && r[k].word in ws && r[k].context != ""
      && exists j :: 0 <= j < |lines| && r[k].context == lines[j] && Contains(Lower(lines[j]), Lower(r[k].word))
    decreases |ws|
  {
    if |ws| == 0 then []
    else
      var w := ws[0];
      if Lower(w) !in seen then
        var context := FindContext(w, lines);
        if context != "" then
          var e := VocabEntry(w, context, "topic_" + topic, "medium");
          var rest := TopicEntries(ws[1..], lines, topic, seen + {Lower(w)});
          TakenOne(e);
          FreshAppend([e], rest, seen);
          [e] + rest
        else TopicEntries(ws[1..], lines, topic, seen)
      else TopicEntries(ws[1..], lines, topic, seen)
  }

  /** An entry of the topic phase: a medium-priority word of the topic's list, whose context
      is the first teacher-or-student line mentioning it. */
  predicate FromTopic(e: VocabEntry, topic: string, lines: seq<string>)
  {
    && e.category == "topic_" + topic && e.priority == "medium" && ' ' !in e.word
    && LookupTopic(TopicVocab, topic).Some? && e.word in LookupTopic(TopicVocab, topic).value
    && e.context in lines && Contains(Lower(e.context), Lower(e.word))
  }

  /** No word of the topic table contains a space. */
  lemma TopicWordsNoSpace()
    ensures forall k, w :: 0 <= k < |TopicVocab| && w in TopicVocab[k].words ==> ' ' !in w
  {
  }

  /** "general" is not a key of the topic table. */
  lemma GeneralNotInTable()
    ensures LookupTopic(TopicVocab, "general").None?
  {
  }

  /** The correction phase of `extract`. */
  function CorrectionPhase(transcript: string): (r: seq<VocabEntry>)
    ensures Fresh(r, {})
    ensures forall k :: 0 <= k < |r| ==> FromCorrection(r[k], Corrected(TextProcessing.ExtractCorrections(transcript)))
  {
    CorrectionEntries(TextProcessing.ExtractCorrections(transcript), {})
  }

  /** The correction entries followed by the topic phase for `topic`. */
  function Assemble(corr: seq<VocabEntry>, contexts: seq<string>, topic: string, lines: seq<string>): (r: seq<VocabEntry>)
    requires Fresh(corr, {})
    requires forall k :: 0 <= k < |corr| ==> FromCorrection(corr[k], contexts)
    ensures Fresh(r, {})
    ensures |corr| <= |r| && r[..|corr|] == corr
    ensures forall k :: 0 <= k < |corr| ==> FromCorrection(r[k], contexts)
    ensures forall k :: |corr| <= k < |r| ==> FromTopic(r[k], topic, lines)
    ensures topic == "general" ==> r == corr
  {
    var topical := TopicPhase(topic, lines, Taken(corr));
    assert {} + Taken(corr) == Taken(corr);
    FreshAppend(corr, topical, {});
    var r := corr + topical;
    assert forall k :: |corr| <= k < |r| ==> r[k] == topical[k - |corr|];
    assert r[..|corr|] == corr;
    r
  }

  /** `VocabularyExtractor.extract`: the correction entries come first, then topic entries,
      no two entries share a lowercased word, and a "general" lesson gets no topic entries. */
  function Extract(transcript: string): (r: seq<VocabEntry>)
    ensures Fresh(r, {})
    ensures |CorrectionPhase(transcript)| <= |r| && r[..|CorrectionPhase(transcript)|] == CorrectionPhase(transcript)
    ensures forall k :: |CorrectionPhase(transcript)| <= k < |r| ==>
      FromTopic(r[k], TextProcessing.LessonTopic(transcript), Lines(transcript))
    ensures TextProcessing.LessonTopic(transcript) == "general" ==> r == CorrectionPhase(transcript)
  {
    Assemble(CorrectionPhase(transcript), Corrected(TextProcessing.ExtractCorrections(transcript)),
      TextProcessing.LessonTopic(transcript), Lines(transcript))
  }

  /** The lines searched for a context: teacher utterances, then student utterances. */
  function Lines(transcript: string): seq<string>
  {
    TextProcessing.TeacherUtterances(transcript) + TextProcessing.StudentUtterances(transcript)
  }

  /** The topic phase: nothing unless the topic is a key of the table. */
  function TopicPhase(topic: string, lines: seq<string>, seen: set<string>): (r: seq<VocabEntry>)
    ensures Fresh(r, seen)
    ensures forall k :: 0 <= k < |r| ==> FromTopic(r[k], topic, lines)
    ensures topic == "general" ==> r == []
  {
    GeneralNotInTable();
    match LookupTopic(TopicVocab, topic)
    case None => []
    case Some(ws) =>
      TopicWordsNoSpace();
      var r := TopicEntries(ws, lines, topic, seen);
      assert forall k :: 0 <= k < |r| ==> r[k].word in ws;
      r
  }
}
