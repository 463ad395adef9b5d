/** `MistakeExtractor` (src/extractors/mistake_extractor.py): one mistake record per
    teacher correction, with an error category from an ordered rule list and the
    word the correction is about. */
module MistakeExtractor {
  import opened Wrappers
  import opened Text
  import Seqs
  import TextProcessing

  // ----------------------------------------------------------- categories

  /** One alternative of a rule: `inc in inc_lower and cor in cor_lower`. */
  datatype Cue = Cue(inc: string, cor: string)

  /** A rule fires when one of its cues matches and, if `guard` is non-empty, some
      guard word occurs in the lowercased correct side. */
  datatype Rule = Rule(guard: seq<string>, cues: seq<Cue>, category: string)

  /** The decision list of `_categorize_error`, in the order it is tried. */
  const Rules: seq<Rule> := [
    Rule(["yesterday", "last"], [Cue("go", "went"), Cue("buy", "bought"), Cue("stay", "stayed")], "grammar_past_tense"),
    Rule([], [Cue("waking", "wake"), Cue("cooking", "cooked")], "grammar_verb_tense"),
    Rule([], [Cue("i eats", "i eat"), Cue("i likes", "i like"), Cue("he eat", "he eats")], "grammar_subject_verb_agreement"),
    Rule([], [Cue("is engineer", "is an engineer"), Cue("is teacher", "is a teacher"), Cue("to market", "to the market")], "grammar_articles"),
    Rule([], [Cue("egg", "eggs"), Cue("vegetable", "vegetables"), Cue("day", "days")], "grammar_plural"),
    Rule([], [Cue("listening music", "listening to music"), Cue("play football", "playing football")], "grammar_prepositions"),
    Rule([], [Cue("like play", "like playing"), Cue("enjoy to", "enjoy")], "grammar_gerund_infinitive"),
    Rule([], [Cue("comfort", "comfortable"), Cue("beauty", "beautiful")], "vocabulary_word_form"),
    Rule([], [Cue("have five people", "are five people")], "grammar_sentence_structure")
  ]

  const DefaultCategory := "grammar_general"

  /** Some word of `ws` occurs in `s`. */
  predicate AnyIn(ws: seq<string>, s: string)
  {
    exists k :: 0 <= k < |ws| && Contains(s, ws[k])
  }

  /** Some cue of `cs` matches the lowercased pair. */
  predicate CueMatches(cs: seq<Cue>, inc: string, cor: string)
  {
    exists k :: 0 <= k < |cs| && Contains(inc, cs[k].inc) && Contains(cor, cs[k].cor)
  }

  predicate Fires(r: Rule, inc: string, cor: string)
  {
    (|r.guard| == 0 || AnyIn(r.guard, cor)) && CueMatches(r.cues, inc, cor)
  }

  /** The category each rule proposes for the lowercased pair. */
  function Proposals(inc: string, cor: string): (r: seq<Option<string>>)
    ensures |r| == |Rules|
    ensures forall k :: 0 <= k < |r| ==> r[k] == if Fires(Rules[k], inc, cor) then Some(Rules[k].category) else None
  {
    seq(|Rules|, k requires 0 <= k < |Rules| => if Fires(Rules[k], inc, cor) then Some(Rules[k].category) else None)
  }

  /** `_categorize_error`: the first rule that fires decides, `grammar_general` otherwise. */
  function Categorize(incorrect: string, correct: string): (c: string)
  {
    Seqs.FirstSome(Proposals(Lower(incorrect), Lower(correct))).GetOr(DefaultCategory)
  }

  /** The decision list is ordered: the category is that of the first rule that fires,
      and the default exactly when none does. */
  lemma CategorizeFirstRule(incorrect: string, correct: string)
    ensures (forall k :: 0 <= k < |Rules| ==> !Fires(Rules[k], Lower(incorrect), Lower(correct))) ==>
      Categorize(incorrect, correct) == DefaultCategory
    ensures forall k :: 0 <= k < |Rules| ==>
      (Fires(Rules[k], Lower(incorrect), Lower(correct))
       && (forall m :: 0 <= m < k ==> !Fires(Rules[m], Lower(incorrect), Lower(correct))))
      ==> Categorize(incorrect, correct) == Rules[k].category
  {
    var xs := Proposals(Lower(incorrect), Lower(correct));
    Seqs.FirstSomeLeftmost(xs);
    forall k | 0 <= k < |Rules| && Fires(Rules[k], Lower(incorrect), Lower(correct))
      && (forall m :: 0 <= m < k ==> !Fires(Rules[m], Lower(incorrect), Lower(correct)))
      ensures Categorize(incorrect, correct) == Rules[k].category
    {
      Seqs.FirstSomeAt(xs, k);
    }
  }

  /** The past-tense rule stays silent when the correct side mentions neither time word. */
  lemma PastTenseSilent(inc: string, cor: string)
    requires !Contains(cor, "yesterday") && !Contains(cor, "last")
    ensures !Fires(Rules[0], inc, cor)
  {
    assert Rules[0].guard == ["yesterday", "last"];
  }

  lemma VerbTenseFires(inc: string, cor: string)
    requires Contains(inc, "waking") && Contains(cor, "wake")
    ensures Fires(Rules[1], inc, cor)
  {
    assert Rules[1].cues[0] == Cue("waking", "wake");
  }

  /** The source's own example: a continuous form corrected to the simple form. */
  lemma VerbTenseFirst(inc: string, cor: string)
    requires !Fires(Rules[0], Lower(inc), Lower(cor)) && Fires(Rules[1], Lower(inc), Lower(cor))
    ensures Categorize(inc, cor) == "grammar_verb_tense"
  {
    CategorizeFirstRule(inc, cor);
  }

  lemma LowerWaking()
    ensures Lower("I waking up at 7 AM.") == "i waking up at 7 am."
    ensures Lower("I wake up at 7 AM.") == "i wake up at 7 am."
  {
  }

  lemma NoYesterday()
    ensures !Contains("i wake up at 7 am.", "yesterday")
  {
    NotContainsByChar("i wake up at 7 am.", "yesterday", 0);
  }

  lemma NoLast()
    ensures !Contains("i wake up at 7 am.", "last")
  {
    NotContainsByChar("i wake up at 7 am.", "last", 0);
  }

  lemma WakingQuiet()
    ensures !Fires(Rules[0], "i waking up at 7 am.", "i wake up at 7 am.")
  {
    NoYesterday();
    NoLast();
    PastTenseSilent("i waking up at 7 am.", "i wake up at 7 am.");
  }

  lemma WakingCue()
    ensures Fires(Rules[1], "i waking up at 7 am.", "i wake up at 7 am.")
  {
    ContainsAt("i waking up at 7 am.", "waking", 2);
    ContainsAt("i wake up at 7 am.", "wake", 2);
    VerbTenseFires("i waking up at 7 am.", "i wake up at 7 am.");
  }

  lemma WakingExample()
    ensures Categorize("I waking up at 7 AM.", "I wake up at 7 AM.") == "grammar_verb_tense"
  {
    LowerWaking();
    WakingQuiet();
    WakingCue();
    VerbTenseFirst("I waking up at 7 AM.", "I wake up at 7 AM.");
  }

  /** Every category comes from the rule table or is the default. */
  lemma CategoryKnown(incorrect: string, correct: string)
    ensures Categorize(incorrect, correct) == DefaultCategory
      || exists k :: 0 <= k < |Rules| && Categorize(incorrect, correct) == Rules[k].category
  {
    var xs := Proposals(Lower(incorrect), Lower(correct));
    var r := Seqs.FirstSome(xs);
    if r.Some? {
      var k :| 0 <= k < |xs| && xs[k] == r;
      assert r.value == Rules[k].category;
    }
  }

  /** A name that begins with "grammar" contains it. */
  lemma GrammarPrefixed(name: string)
    requires StartsWith(name, "grammar")
    ensures Contains(name, "grammar")
  {
    assert OccursAt(name, "grammar", 0);
  }

  lemma WordFormNotGrammar(name: string)
    requires name == "vocabulary_word_form"
    ensures !Contains(name, "grammar")
  {
    NotContainsByChar(name, "grammar", 0);
  }

  /** Of the category names only the word-form one lacks "grammar". */
  lemma GrammarNames()
    ensures Contains(DefaultCategory, "grammar")
    ensures forall k :: 0 <= k < |Rules| ==> (Contains(Rules[k].category, "grammar") <==> k != 7)
  {
    GrammarPrefixed(DefaultCategory);
    WordFormNotGrammar(Rules[7].category);
    forall k | 0 <= k < |Rules| && k != 7 ensures Contains(Rules[k].category, "grammar") {
      GrammarPrefixed(Rules[k].category);
    }
  }

  lemma LowerYesterday()
    ensures Lower("Yesterday I go to market.") == "yesterday i go to market."
    ensures Lower("Yesterday I went to the market.") == "yesterday i went to the market."
  {
    LowerYesterdayGo();
    LowerYesterdayWent();
  }

  lemma LowerYesterdayGo()
    ensures Lower("Yesterday I go to market.") == "yesterday i go to market."
  {
  }

  lemma LowerYesterdayWent()
    ensures Lower("Yesterday I went to the market.") == "yesterday i went to the market."
  {
  }

  lemma PastTenseCue()
    ensures Fires(Rules[0], "yesterday i go to market.", "yesterday i went to the market.")
  {
    var inc := "yesterday i go to market.";
    var cor := "yesterday i went to the market.";
    ContainsAt(cor, "yesterday", 0);
    ContainsAt(inc, "go", 12);
    ContainsAt(cor, "went", 12);
    assert Rules[0].guard[0] == "yesterday" && Rules[0].cues[0] == Cue("go", "went");
  }

  /** The source's other example: a time word and a present form corrected to the past. */
  lemma YesterdayExample()
    ensures Categorize("Yesterday I go to market.", "Yesterday I went to the market.") == "grammar_past_tense"
  {
    LowerYesterday();
    PastTenseCue();
    CategorizeFirstRule("Yesterday I go to market.", "Yesterday I went to the market.");
  }

  // ----------------------------------------------------------- focus word

  /** The characters `word.strip('.,!?"')` removes. */
  const FocusStrip: set<char> := {'.', ',', '!', '?', '"'}

  function FocusClean(w: string): (r: string)
    ensures Trimmed(r, FocusStrip)
  {
    StripSet(w, FocusStrip)
  }

  /** A correct-side token that counts as added: its cleaned form is non-empty and is
      not a (raw, lowercased) incorrect-side token. */
  predicate Added(w: string, inc: set<string>)
  {
    FocusClean(w) != "" && FocusClean(w) !in inc
  }

  /** No correct-side token counts as added. */
  predicate NoneAdded(cor: seq<string>, inc: set<string>)
  {
    forall k :: 0 <= k < |cor| ==> !Added(cor[k], inc)
  }

  /** Token `k` is the first added one, and `v` is its cleaned form. */
  predicate FirstAddedAt(cor: seq<string>, inc: set<string>, k: int, v: string)
  {
    && 0 <= k < |cor| && Added(cor[k], inc) && v == FocusClean(cor[k])
    && forall m :: 0 <= m < k ==> !Added(cor[m], inc)
  }

  /** The first loop of `_identify_focus_word`: the cleaned form of the first added token. */
  function FirstAdded(cor: seq<string>, inc: set<string>): (r: Option<string>)
    ensures r.None? <==> NoneAdded(cor, inc)
    ensures r.Some? ==> exists k :: FirstAddedAt(cor, inc, k, r.value)
    decreases |cor|
  {
    if |cor| == 0 then None
    else if Added(cor[0], inc) then
      assert FirstAddedAt(cor, inc, 0, FocusClean(cor[0]));
      Some(FocusClean(cor[0]))
    else
      var r := FirstAdded(cor[1..], inc);
      NoneAddedShift(cor, inc);
      if r.Some? then
        var k :| FirstAddedAt(cor[1..], inc, k, r.value);
        FirstAddedShift(cor, inc, k, r.value);
        r
      else r
  }

  /** A first token that is not added changes nothing about whether any token is. */
  lemma NoneAddedShift(cor: seq<string>, inc: set<string>)
    requires |cor| > 0 && !Added(cor[0], inc)
    ensures NoneAdded(cor, inc) <==> NoneAdded(cor[1..], inc)
  {
    if !NoneAdded(cor, inc) {
      var k :| 0 <= k < |cor| && Added(cor[k], inc);
      assert cor[1..][k - 1] == cor[k];
    }
    if !NoneAdded(cor[1..], inc) {
      var k :| 0 <= k < |cor[1..]| && Added(cor[1..][k], inc);
      assert cor[k + 1] == cor[1..][k];
    }
  }

  /** Past a token that is not added, the first added token is one further on. */
  lemma FirstAddedShift(cor: seq<string>, inc: set<string>, k: int, v: string)
    requires |cor| > 0 && !Added(cor[0], inc)
    requires FirstAddedAt(cor[1..], inc, k, v)
    ensures FirstAddedAt(cor, inc, k + 1, v)
  {
    Seqs.FirstPastHead(cor, w => Added(w, inc), k);
  }

  /** The second loop: the cleaned form of the first correct-side token that differs from
      the incorrect-side token at the same position. */
  function FirstChanged(cor: seq<string>, inc: seq<string>): (r: Option<string>)
    ensures r.None? <==> forall k :: 0 <= k < |cor| && k < |inc| ==> cor[k] == inc[k]
    ensures r.Some? ==> exists k :: (0 <= k < |cor| && k < |inc| && cor[k] != inc[k] && r.value == FocusClean(cor[k])
      && forall m :: 0 <= m < k ==> cor[m] == inc[m])
    decreases |cor|
  {
    if |cor| == 0 || |inc| == 0 then None
    else if cor[0] != inc[0] then Some(FocusClean(cor[0]))
    else
      var r := FirstChanged(cor[1..], inc[1..]);
      FirstChangedShift(cor, inc, r);
      r
  }

  /** The first changed position after an unchanged first token is the first changed
      position. */
  lemma FirstChangedShift(cor: seq<string>, inc: seq<string>, r: Option<string>)
    requires |cor| > 0 && |inc| > 0 && cor[0] == inc[0]
    requires r.None? <==> forall k :: 0 <= k < |cor[1..]| && k < |inc[1..]| ==> cor[1..][k] == inc[1..][k]
    requires r.Some? ==> exists k :: (0 <= k < |cor[1..]| && k < |inc[1..]| && cor[1..][k] != inc[1..][k]
      && r.value == FocusClean(cor[1..][k]) && forall m :: 0 <= m < k ==> cor[1..][m] == inc[1..][m])
    ensures r.None? <==> forall k :: 0 <= k < |cor| && k < |inc| ==> cor[k] == inc[k]
    ensures r.Some? ==> exists k :: (0 <= k < |cor| && k < |inc| && cor[k] != inc[k] && r.value == FocusClean(cor[k])
      && forall m :: 0 <= m < k ==> cor[m] == inc[m])
  {
    assert forall k :: 1 <= k < |cor| && k < |inc| ==> cor[1..][k - 1] == cor[k] && inc[1..][k - 1] == inc[k];
    if r.Some? {
      var k :| 0 <= k < |cor[1..]| && k < |inc[1..]| && cor[1..][k] != inc[1..][k]
        && r.value == FocusClean(cor[1..][k]) && forall m :: 0 <= m < k ==> cor[1..][m] == inc[1..][m];
      assert cor[k + 1] != inc[k + 1] && r.value == FocusClean(cor[k + 1]);
    }
  }

  /** `_identify_focus_word`: the first added word, else the first changed word, else the
      first word, each cleaned; "" only when there is no tier to fall back to. */
  function FocusWord(incorrect: string, correct: string): (r: string)
    ensures r != "" ==> exists w :: w in Words(Lower(correct)) && r == FocusClean(w)
    ensures |Words(Lower(correct))| == 0 ==> r == ""
  {
    var incWords := Words(Lower(incorrect));
    var corWords := Words(Lower(correct));
    var incSet := set w | w in incWords;
    match FirstAdded(corWords, incSet)
    case Some(w) => w
    case None =>
      match FirstChanged(corWords, incWords)
      case Some(w) => w
      case None => if |corWords| > 0 then FocusClean(corWords[0]) else ""
  }

  /** The focus word is the first added word whenever there is one. */
  lemma FocusWordAdded(incorrect: string, correct: string, inc: seq<string>, cor: seq<string>, w: string)
    requires Words(Lower(incorrect)) == inc && Words(Lower(correct)) == cor
    requires FirstAdded(cor, set x | x in inc) == Some(w)
    ensures FocusWord(incorrect, correct) == w
  {
  }

  /** With no added word, the focus word is the first changed word when there is one. */
  lemma FocusWordChanged(incorrect: string, correct: string, inc: seq<string>, cor: seq<string>, w: string)
    requires Words(Lower(incorrect)) == inc && Words(Lower(correct)) == cor
    requires FirstAdded(cor, set x | x in inc).None?
    requires FirstChanged(cor, inc) == Some(w)
    ensures FocusWord(incorrect, correct) == w
  {
  }

  /** With neither an added nor a changed word, the focus word is the first correct-side
      word, cleaned. */
  lemma FocusWordFirst(incorrect: string, correct: string, inc: seq<string>, cor: seq<string>)
    requires Words(Lower(incorrect)) == inc && Words(Lower(correct)) == cor
    requires FirstAdded(cor, set x | x in inc).None? && FirstChanged(cor, inc).None?
    requires cor != []
    ensures FocusWord(incorrect, correct) == FocusClean(cor[0])
  {
  }

  lemma EatsLower()
    ensures Lower("I eats bread.") == "i" + " " + "eats" + " " + "bread."
    ensures Lower("I eat bread.") == "i" + " " + "eat" + " " + "bread."
  {
  }

  lemma EatsAdded(cor: seq<string>, inc: seq<string>)
    requires cor == ["i", "eat", "bread."] && inc == ["i", "eats", "bread."]
    ensures FirstAdded(cor, set x | x in inc) == Some("eat")
  {
    var added := set x | x in inc;
    assert added == {"i", "eats", "bread."};
    EatsTokens(added);
    assert cor[1..] == ["eat", "bread."];
  }

  /** "i" is on both sides; "eat" is new. */
  lemma EatsTokens(added: set<string>)
    requires added == {"i", "eats", "bread."}
    ensures !Added("i", added) && Added("eat", added) && FocusClean("eat") == "eat"
  {
    CleanKeeps();
    assert "i" in added;
    assert "eat" != "eats" && "eat" != "bread." && "eat" != "i" by {
      assert |"eat"| == 3 && |"eats"| == 4 && |"bread."| == 6 && |"i"| == 1;
    }
  }

  /** Tokens with no punctuation at either end clean to themselves. */
  lemma CleanKeeps()
    ensures FocusClean("i") == "i" && FocusClean("eat") == "eat"
  {
    StripSetTrimmed("i", FocusStrip);
    StripSetTrimmed("eat", FocusStrip);
  }

  /** The example in the source's tests: the verb form the teacher supplied. */
  lemma EatsExample()
    ensures FocusWord("I eats bread.", "I eat bread.") == "eat"
  {
    EatsLower();
    WordsOfThree("i", "eats", "bread.");
    WordsOfThree("i", "eat", "bread.");
    EatsAdded(["i", "eat", "bread."], ["i", "eats", "bread."]);
    FocusWordAdded("I eats bread.", "I eat bread.", ["i", "eats", "bread."], ["i", "eat", "bread."], "eat");
  }

  // -------------------------------------------------------------- records

  /** One mistake record of `extract`. */
  datatype Mistake = Mistake(incorrect: string, correct: string, errorType: string, focusWord: string, severity: string)

  /** `'high' if 'grammar' in error_type else 'medium'` */
  function Severity(errorType: string): string
  {
    if Contains(errorType, "grammar") then "high" else "medium"
  }

  /** The records for a list of pairs; pairs with an empty side are skipped. */
  function MistakesOf(cs: seq<TextProcessing.Correction>): (r: seq<Mistake>)
    ensures |r| <= |cs|
    ensures forall k :: 0 <= k < |r| ==> r[k].severity == Severity(r[k].errorType)
    decreases |cs|
  {
    if |cs| == 0 then []
    else
      var c := cs[0];
      var rest := MistakesOf(cs[1..]);
      if c.incorrect != "" && c.correct != "" then
        var kind := Categorize(c.incorrect, c.correct);
        [Mistake(c.incorrect, c.correct, kind, FocusWord(c.incorrect, c.correct), Severity(kind))] + rest
      else rest
  }

  /** `MistakeExtractor.extract` */
  function Extract(transcript: string): seq<Mistake>
  {
    MistakesOf(TextProcessing.ExtractCorrections(transcript))
  }

  /** `m` is the record of pair `c`: its texts copied, with the pair's category and focus word. */
  predicate RecordOf(c: TextProcessing.Correction, m: Mistake)
  {
    && m.incorrect == c.incorrect && m.correct == c.correct
    && m.errorType == Categorize(c.incorrect, c.correct)
    && m.focusWord == FocusWord(c.incorrect, c.correct)
  }

  predicate BothSides(c: TextProcessing.Correction)
  {
    c.incorrect != "" && c.correct != ""
  }

  /** When every pair has both sides there is exactly one record per pair, in order. */
  lemma {:induction false} OnePerPair(cs: seq<TextProcessing.Correction>)
    requires forall k :: 0 <= k < |cs| ==> BothSides(cs[k])
    ensures |MistakesOf(cs)| == |cs|
    ensures forall k :: 0 <= k < |cs| ==> RecordOf(cs[k], MistakesOf(cs)[k])
    decreases |cs|
  {
    if |cs| > 0 {
      OnePerPair(cs[1..]);
      MistakesOfStep(cs);
      Seqs.PairwiseCons(cs, MistakesOf(cs), (c: TextProcessing.Correction, m: Mistake) => RecordOf(c, m));
    }
  }

  /** A pair with both sides gives the first record, ahead of the records of the rest. */
  lemma MistakesOfStep(cs: seq<TextProcessing.Correction>)
    requires |cs| > 0 && BothSides(cs[0])
    ensures |MistakesOf(cs)| == |MistakesOf(cs[1..])| + 1
    ensures RecordOf(cs[0], MistakesOf(cs)[0]) && MistakesOf(cs)[1..] == MistakesOf(cs[1..])
  {
  }

  /** Extracted pairs always have both sides, so `extract` yields one record per pair. */
  lemma ExtractOnePerPair(transcript: string)
    ensures |Extract(transcript)| == |TextProcessing.ExtractCorrections(transcript)|
    ensures forall k :: 0 <= k < |Extract(transcript)| ==>
      RecordOf(TextProcessing.ExtractCorrections(transcript)[k], Extract(transcript)[k])
  {
    var cs := TextProcessing.ExtractCorrections(transcript);
    assert forall k :: 0 <= k < |cs| ==> BothSides(cs[k]);
    OnePerPair(cs);
  }

  /** Severity is "high" for every category except the word-form one. */
  lemma SeverityByCategory(incorrect: string, correct: string)
    ensures Severity(Categorize(incorrect, correct)) == "high" <==> Categorize(incorrect, correct) != Rules[7].category
  {
    CategoryKnown(incorrect, correct);
    GrammarNames();
  }
}
