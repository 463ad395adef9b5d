/** `AdvancedClozeGenerator`: multi-blank cloze items from quality sentences, topped up
    with single-blank items when fewer than two result. The distractors for each blank
    come from `ClozeDistractors`. */
module AdvancedCloze {
  import opened Wrappers
  import opened Text
  import opened Seqs
  import opened ClozeDistractors
  import VocabularyExtractor
  import SentenceRecords

  type VocabEntry = VocabularyExtractor.VocabEntry

  const MinItems: nat := 2
  const MaxItems: nat := 4

  /** `word[0].isupper()` */
  predicate Capitalised(word: string) { |word| > 0 && IsUpperChar(word[0]) }

  // ------------------------------------------------------------ quality filter

  /** One of the modal cues the filter looks for in the lower-cased text. */
  predicate HasCue(t: string)
  {
    Contains(t, "should") || Contains(t, "must") || Contains(t, "need to") || Contains(t, "have to")
  }

  /** `_filter_quality_sentences`' test: 8 to 30 words, and a modal cue or at least 12 words. */
  predicate Quality(text: string)
  {
    var n := |Words(text)|;
    8 <= n <= 30 && (HasCue(Lower(text)) || n >= 12)
  }

  /** `_filter_quality_sentences` */
  function QualityTexts(texts: seq<string>): (r: seq<string>)
    ensures forall t :: t in r <==> t in texts && Quality(t)
    ensures forall k :: 0 <= k < |r| ==> 8 <= |Words(r[k])| <= 30
  {
    var r := Filter(texts, Quality);
    assert forall k :: 0 <= k < |r| ==> r[k] in r;
    r
  }

  // ------------------------------------------------------------ key words

  /** `{v['word'].lower() for v in vocabulary}` */
  function VocabWords(vocabulary: seq<VocabEntry>): (r: set<string>)
    ensures forall v :: v in vocabulary ==> Lower(v.word) in r
    ensures forall w :: w in r ==> exists v :: v in vocabulary && Lower(v.word) == w
  {
    set v | v in vocabulary :: Lower(v.word)
  }

  /** A word worth blanking: not a skip word, four or more characters once cleaned, and
      either a vocabulary word or a lower-case word of six or more characters. */
  predicate KeyWord(word: string, vocab: set<string>, skip: set<string>)
  {
    var clean := CleanWord(word);
    clean !in skip && |clean| >= 4 && (clean in vocab || (|clean| >= 6 && !Capitalised(word)))
  }

  predicate Ascending(xs: seq<nat>)
  {
    forall i, j :: 0 <= i < j < |xs| ==> xs[i] < xs[j]
  }

  /** `_identify_key_word_indices`, from position `from` on: exactly the positions of the
      key words, in ascending order. */
  function KeyIndices(words: seq<string>, vocab: set<string>, skip: set<string>, from: nat): (r: seq<nat>)
    requires from <= |words|
    ensures Ascending(r)
    ensures forall k :: 0 <= k < |r| ==> from <= r[k] < |words| && KeyWord(words[r[k]], vocab, skip)
    ensures forall i :: from <= i < |words| && KeyWord(words[i], vocab, skip) ==> i in r
    decreases |words| - from
  {
    if from == |words| then []
    else if KeyWord(words[from], vocab, skip) then [from] + KeyIndices(words, vocab, skip, from + 1)
    else KeyIndices(words, vocab, skip, from + 1)
  }

  // ------------------------------------------------------------ text parts

  function Space(b: bool): string { if b then " " else "" }

  /** The text of the words `ws` around blanks: a space in front when a blank precedes
      (`lead`), one behind when a blank follows (`trail`), and a lone space between two
      adjacent blanks. */
  function Segment(ws: seq<string>, lead: bool, trail: bool): string
  {
    var b := Join(" ", ws);
    if b == "" then Space(lead && trail) else Space(lead) + b + Space(trail)
  }

  /** Blank positions that lie in `words[cur..]`, in ascending order. */
  predicate ValidKeys(words: seq<string>, keys: seq<nat>, cur: nat)
  {
    cur <= |words| && Ascending(keys) && forall k :: 0 <= k < |keys| ==> cur <= keys[k] < |words|
  }

  /** The text parts of `_create_multi_blank_cloze` as written: every part before a blank
      ends in a space, only the last part starts with one. */
  function PartsAsWritten(words: seq<string>, keys: seq<nat>, cur: nat): (r: seq<string>)
    requires ValidKeys(words, keys, cur)
    ensures |r| == |keys| + 1
    decreases |keys|
  {
    if |keys| == 0 then [Segment(words[cur..], true, false)]
    else [Segment(words[cur..keys[0]], false, true)] + PartsAsWritten(words, keys[1..], keys[0] + 1)
  }

  /** The text parts with a space on each side of every blank; `lead` says whether a blank
      precedes `words[cur..]`. */
  function Parts(words: seq<string>, keys: seq<nat>, cur: nat, lead: bool): (r: seq<string>)
    requires ValidKeys(words, keys, cur)
    ensures |r| == |keys| + 1
    decreases |keys|
  {
    if |keys| == 0 then [Segment(words[cur..], lead, false)]
    else [Segment(words[cur..keys[0]], lead, true)] + Parts(words, keys[1..], keys[0] + 1, true)
  }

  /** The words at the blank positions. */
  function At(words: seq<string>, keys: seq<nat>): (r: seq<string>)
    requires forall k :: 0 <= k < |keys| ==> keys[k] < |words|
    ensures |r| == |keys| && forall k :: 0 <= k < |keys| ==> r[k] == words[keys[k]]
  {
    seq(|keys|, k requires 0 <= k < |keys| => words[keys[k]])
  }

  /** The text a learner sees with the blanks filled in by `fills`. */
  function Weave(parts: seq<string>, fills: seq<string>): string
    requires |parts| == |fills| + 1
    decreases |fills|
  {
    if |fills| == 0 then parts[0] else parts[0] + fills[0] + Weave(parts[1..], fills[1..])
  }

  predicate AllTokens(words: seq<string>)
  {
    forall k :: 0 <= k < |words| ==> IsToken(words[k])
  }

  /** Filling the blanks with the words taken out gives back the words, joined by spaces. */
  lemma {:induction false} PartsReassemble(words: seq<string>, keys: seq<nat>, cur: nat, lead: bool)
    requires ValidKeys(words, keys, cur) && AllTokens(words)
    ensures Weave(Parts(words, keys, cur, lead), At(words, keys))
      == Space(lead && cur < |words|) + Join(" ", words[cur..])
    decreases |keys|
  {
    if |keys| == 0 {
      TokensSlice(words, cur, |words|);
      JoinTokensEmpty(words[cur..]);
    } else {
      PartsStep(words, keys, cur, lead);
      PartsReassemble(words, keys[1..], keys[0] + 1, true);
      ReassembleStep(words, keys, cur, lead);
    }
  }

  /** The step of the reassembly: from the text after the first blank to the whole. */
  lemma ReassembleStep(words: seq<string>, keys: seq<nat>, cur: nat, lead: bool)
    requires ValidKeys(words, keys, cur) && AllTokens(words) && |keys| > 0
    requires ValidKeys(words, keys[1..], keys[0] + 1)
    requires Weave(Parts(words, keys[1..], keys[0] + 1, true), At(words, keys[1..]))
      == Space(true && keys[0] + 1 < |words|) + Join(" ", words[keys[0] + 1..])
    ensures Weave(Parts(words, keys, cur, lead), At(words, keys))
      == Space(lead && cur < |words|) + Join(" ", words[cur..])
  {
    WeaveFirst(words, keys, cur, lead);
    JoinAround(words, cur, keys[0], lead);
  }

  /** The filled-in text opens with the part before the first blank and that blank's word. */
  lemma WeaveFirst(words: seq<string>, keys: seq<nat>, cur: nat, lead: bool)
    requires ValidKeys(words, keys, cur) && |keys| > 0
    ensures ValidKeys(words, keys[1..], keys[0] + 1)
    ensures Weave(Parts(words, keys, cur, lead), At(words, keys))
      == Segment(words[cur..keys[0]], lead, true) + words[keys[0]]
         + Weave(Parts(words, keys[1..], keys[0] + 1, true), At(words, keys[1..]))
  {
    PartsStep(words, keys, cur, lead);
    AtStep(words, keys);
    WeaveStep(Parts(words, keys, cur, lead), At(words, keys), Segment(words[cur..keys[0]], lead, true),
      Parts(words, keys[1..], keys[0] + 1, true), At(words, keys[1..]));
  }

  /** The words from `cur` on, joined, are the part before word `k`, that word, and the
      words after it. */
  lemma JoinAround(words: seq<string>, cur: nat, k: nat, lead: bool)
    requires AllTokens(words) && cur <= k < |words|
    ensures Segment(words[cur..k], lead, true) + words[k] + (Space(k + 1 < |words|) + Join(" ", words[k + 1..]))
      == Space(lead && cur < |words|) + Join(" ", words[cur..])
  {
    var after := words[k + 1..];
    TokensSlice(words, cur, k);
    TokensSlice(words, k + 1, |words|);
    assert |after| > 0 <==> k + 1 < |words|;
    SegmentJoin(words[cur..k], lead, words[k], after);
    SliceAround(words, cur, k);
  }

  lemma PartsStep(words: seq<string>, keys: seq<nat>, cur: nat, lead: bool)
    requires ValidKeys(words, keys, cur) && |keys| > 0
    ensures ValidKeys(words, keys[1..], keys[0] + 1)
    ensures Parts(words, keys, cur, lead)
      == [Segment(words[cur..keys[0]], lead, true)] + Parts(words, keys[1..], keys[0] + 1, true)
  {
  }

  lemma AtStep(words: seq<string>, keys: seq<nat>)
    requires forall k :: 0 <= k < |keys| ==> keys[k] < |words|
    requires |keys| > 0
    ensures At(words, keys)[1..] == At(words, keys[1..])
    ensures At(words, keys)[0] == words[keys[0]]
  {
  }

  lemma WeaveStep(parts: seq<string>, fills: seq<string>, first: string, rest: seq<string>, restFills: seq<string>)
    requires |fills| > 0 && parts == [first] + rest && fills[1..] == restFills && |rest| == |restFills| + 1
    ensures Weave(parts, fills) == first + fills[0] + Weave(rest, restFills)
  {
    assert parts[1..] == rest;
  }

  lemma TokensSlice(words: seq<string>, a: nat, b: nat)
    requires AllTokens(words) && a <= b <= |words|
    ensures AllTokens(words[a..b])
  {
  }

  lemma SliceAround<T>(xs: seq<T>, a: nat, k: nat)
    requires a <= k < |xs|
    ensures xs[a..] == xs[a..k] + [xs[k]] + xs[k + 1..]
  {
  }

  /** One step of the reassembly: the part before a blank, the blank's word and the rest. */
  lemma SegmentJoin(before: seq<string>, lead: bool, w: string, after: seq<string>)
    requires AllTokens(before) && IsToken(w) && AllTokens(after)
    ensures Segment(before, lead, true) + w + (Space(|after| > 0) + Join(" ", after))
      == Space(lead) + Join(" ", before + [w] + after)
  {
    JoinFront(w, after);
    if |before| == 0 {
      SegmentJoinFirst(before, lead, w, after);
    } else {
      SegmentJoinLater(before, lead, w, after);
    }
  }

  lemma SegmentJoinFirst(before: seq<string>, lead: bool, w: string, after: seq<string>)
    requires |before| == 0
    requires Join(" ", [w] + after) == w + (Space(|after| > 0) + Join(" ", after))
    ensures Segment(before, lead, true) + w + (Space(|after| > 0) + Join(" ", after))
      == Space(lead) + Join(" ", before + [w] + after)
  {
    var t := Space(|after| > 0) + Join(" ", after);
    assert Segment(before, lead, true) == Space(lead);
    assert before + [w] + after == [w] + after;
    Assoc3(Space(lead), w, t);
  }

  lemma SegmentJoinLater(before: seq<string>, lead: bool, w: string, after: seq<string>)
    requires AllTokens(before) && |before| > 0
    requires Join(" ", [w] + after) == w + (Space(|after| > 0) + Join(" ", after))
    ensures Segment(before, lead, true) + w + (Space(|after| > 0) + Join(" ", after))
      == Space(lead) + Join(" ", before + [w] + after)
  {
    JoinTokensEmpty(before);
    var t := Space(|after| > 0) + Join(" ", after);
    var from := [w] + after;
    var jb := Join(" ", before);
    assert before + [w] + after == before + from;
    JoinAppend(" ", before, from);
    assert Segment(before, lead, true) == Space(lead) + jb + " ";
    Assoc5(Space(lead), jb, " ", w, t);
  }

  lemma JoinFront(w: string, after: seq<string>)
    ensures Join(" ", [w] + after) == w + (Space(|after| > 0) + Join(" ", after))
  {
    if |after| > 0 {
      assert ([w] + after)[1..] == after;
    }
  }

  /** The sentence split `sentence.split()`, with the blank parts joined back: same words. */
  lemma WeaveSplits(words: seq<string>, keys: seq<nat>)
    requires ValidKeys(words, keys, 0) && AllTokens(words)
    ensures Words(Weave(Parts(words, keys, 0, false), At(words, keys))) == words
  {
    PartsReassemble(words, keys, 0, false);
    assert words[0..] == words;
    assert Space(false && 0 < |words|) + Join(" ", words) == Join(" ", words);
    WordsJoin(words);
  }

  lemma IsTokenOfChar(c: char)
    requires !IsSpace(c)
    ensures IsToken([c])
  {
  }

  /** As written, a part between two blanks has no leading space, so the filled-in blank
      runs into the word after it: blanks at "b" and "d" of "a b c d e" read back as
      "a bc d e". */
  lemma PartsAsWrittenMerge()
    ensures Words(Weave(PartsAsWritten(Sample, [1, 3], 0), At(Sample, [1, 3]))) == ["a", "bc", "d", "e"]
  {
    SampleParts();
    SampleFills();
    var parts := ["a ", "c ", " e"];
    var fills := ["b", "d"];
    WeaveStep(parts, fills, "a ", parts[1..], fills[1..]);
    WeaveStep(parts[1..], fills[1..], "c ", parts[2..], fills[2..]);
    assert Weave(parts, fills) == "a" + " " + ("bc" + " " + ("d" + " " + "e"));
    SampleWords();
  }

  const Sample: seq<string> := ["a", "b", "c", "d", "e"]

  lemma SampleParts()
    ensures ValidKeys(Sample, [1, 3], 0)
    ensures PartsAsWritten(Sample, [1, 3], 0) == ["a ", "c ", " e"]
  {
    var ws := Sample;
    assert ws[0..1] == ["a"] && ws[2..3] == ["c"] && ws[4..] == ["e"];
    PartsAsWrittenStep(ws, [1, 3], 0);
    assert [1, 3][1..] == [3];
    PartsAsWrittenStep(ws, [3], 2);
    assert [3][1..] == [];
    PartsAsWrittenStep(ws, [], 4);
    SegmentOne("a", false, true);
    SegmentOne("c", false, true);
    SegmentOne("e", true, false);
    assert Space(false) + "a" + Space(true) == "a ";
    assert Space(false) + "c" + Space(true) == "c ";
    assert Space(true) + "e" + Space(false) == " e";
  }

  lemma SampleFills()
    ensures At(Sample, [1, 3]) == ["b", "d"]
  {
  }

  lemma SampleWords()
    ensures Words("a" + " " + ("bc" + " " + ("d" + " " + "e"))) == ["a", "bc", "d", "e"]
  {
    WordsOfLastThree();
    IsTokenOfChar('a');
    WordsCons("a", "bc" + " " + ("d" + " " + "e"));
  }

  lemma WordsOfLastThree()
    ensures Words("bc" + " " + ("d" + " " + "e")) == ["bc", "d", "e"]
  {
    IsTokenOfChar('d');
    IsTokenOfChar('e');
    assert IsToken("bc");
    WordsOfThree("bc", "d", "e");
    SpacedAssoc("bc", "d", "e");
  }

  lemma SegmentOne(w: string, lead: bool, trail: bool)
    requires |w| > 0
    ensures Segment([w], lead, trail) == Space(lead) + w + Space(trail)
  {
    assert Join(" ", [w]) == w;
  }

  lemma PartsAsWrittenStep(words: seq<string>, keys: seq<nat>, cur: nat)
    requires ValidKeys(words, keys, cur)
    ensures |keys| > 0 ==> ValidKeys(words, keys[1..], keys[0] + 1)
    ensures |keys| > 0 ==> (PartsAsWritten(words, keys, cur)
      == [Segment(words[cur..keys[0]], false, true)] + PartsAsWritten(words, keys[1..], keys[0] + 1))
    ensures |keys| == 0 ==> PartsAsWritten(words, keys, cur) == [Segment(words[cur..], true, false)]
  {
  }

  // ------------------------------------------------------------ explanation

  function Quote(w: string): string { "'" + w + "'" }

  /** The words quoted and separated by ", ": `"', '".join(ws)` inside quotes. */
  function QuoteList(ws: seq<string>): string
  {
    "'" + Join("', '", ws) + "'"
  }

  lemma ContainsSelf(s: string)
    ensures Contains(s, s)
  {
    assert OccursAt(s, s, 0);
  }

  /** Every word appears quoted in the list. */
  lemma {:induction false} QuoteListHas(ws: seq<string>, k: nat)
    requires k < |ws|
    ensures Contains(QuoteList(ws), Quote(ws[k]))
    decreases |ws|
  {
    if |ws| == 1 {
      assert QuoteList(ws) == Quote(ws[0]);
      ContainsSelf(Quote(ws[0]));
    } else {
      var rest := QuoteList(ws[1..]);
      assert QuoteList(ws) == "" + Quote(ws[0]) + (", " + rest);
      if k == 0 {
        ContainsSelf(Quote(ws[0]));
        ContainsWithin("", Quote(ws[0]), ", " + rest, Quote(ws[0]));
      } else {
        QuoteListHas(ws[1..], k - 1);
        assert QuoteList(ws) == Quote(ws[0]) + ", " + rest + "";
        ContainsWithin(Quote(ws[0]) + ", ", rest, "", Quote(ws[k]));
      }
    }
  }

  /** The explanation up to the last answer's quote: "The correct word is ", or the
      other answers quoted and followed by " and " (two answers) or ", and " (more). */
  function ExplanationHead(correct: seq<string>): string
    requires |correct| > 0
  {
    var n := |correct|;
    if n == 1 then "The correct word is "
    else if n == 2 then "The correct words are " + Quote(correct[0]) + " and "
    else "The correct words are " + QuoteList(correct[..n - 1]) + ", and "
  }

  /** `_generate_explanation` as written: with three or more words the closing quote of
      the last word is doubled. */
  function ExplanationAsWritten(correct: seq<string>): (r: string)
    requires |correct| > 0
    ensures |correct| < 3 ==> r == Explanation(correct)
    ensures |correct| >= 3 ==> EndsWith(r, Quote(correct[|correct| - 1]) + "'.")
  {
    if |correct| < 3 then Explanation(correct)
    else
      var tail := Quote(correct[|correct| - 1]) + "'.";
      EndsWithAppended(ExplanationHead(correct), tail);
      ExplanationHead(correct) + tail
  }

  /** `_generate_explanation` with each word quoted once: every answer appears quoted, and
      the text closes with the last answer's quote and a full stop. */
  function Explanation(correct: seq<string>): (r: string)
    requires |correct| > 0
    ensures forall k :: 0 <= k < |correct| ==> Contains(r, Quote(correct[k]))
    ensures EndsWith(r, Quote(correct[|correct| - 1]) + ".")
  {
    var tail := Quote(correct[|correct| - 1]) + ".";
    ExplanationHas(correct);
    EndsWithAppended(ExplanationHead(correct), tail);
    ExplanationHead(correct) + tail
  }

  lemma ExplanationHas(correct: seq<string>)
    requires |correct| > 0
    ensures forall k :: 0 <= k < |correct| ==>
      Contains(ExplanationHead(correct) + (Quote(correct[|correct| - 1]) + "."), Quote(correct[k]))
  {
    var head := ExplanationHead(correct);
    var last := Quote(correct[|correct| - 1]);
    forall k | 0 <= k < |correct|
      ensures Contains(head + (last + "."), Quote(correct[k]))
    {
      if k < |correct| - 1 {
        HeadHas(correct, k);
        ContainsWithin("", head, last + ".", Quote(correct[k]));
        assert "" + head + (last + ".") == head + (last + ".");
      } else {
        ContainsSelf(last);
        ContainsWithin(head, last, ".", last);
        assert head + last + "." == head + (last + ".");
      }
    }
  }

  /** Every answer but the last appears quoted before the last one. */
  lemma HeadHas(correct: seq<string>, k: nat)
    requires k < |correct| - 1
    ensures Contains(ExplanationHead(correct), Quote(correct[k]))
  {
    var n := |correct|;
    ContainsSelf(Quote(correct[k]));
    if n == 2 {
      ContainsWithin("The correct words are ", Quote(correct[0]), " and ", Quote(correct[0]));
    } else {
      QuoteListHas(correct[..n - 1], k);
      ContainsWithin("The correct words are ", QuoteList(correct[..n - 1]), ", and ", Quote(correct[k]));
    }
  }

  // ------------------------------------------------------------ difficulty

  function TotalLength(ws: seq<string>): nat
    decreases |ws|
  {
    if |ws| == 0 then 0 else |ws[0]| + TotalLength(ws[1..])
  }

  /** `_assess_difficulty`: hard for three answers or an average answer length of 8 or more;
      medium for 15 or more words or an average of 6 or more; otherwise easy. The averages
      are stated here without division. */
  function Difficulty(sentence: string, correct: seq<string>): (r: string)
    requires |correct| > 0
    ensures r == "hard" <==> |correct| >= 3 || TotalLength(correct) >= 8 * |correct|
    ensures r == "medium" <==> (!(|correct| >= 3 || TotalLength(correct) >= 8 * |correct|)
      && (|Words(sentence)| >= 15 || TotalLength(correct) >= 6 * |correct|))
    ensures r == "easy" || r == "medium" || r == "hard"
  {
    var n := |correct| as real;
    var avg := (TotalLength(correct) as real) / n;
    AverageAtLeast(TotalLength(correct), |correct|, 8);
    AverageAtLeast(TotalLength(correct), |correct|, 6);
    if |correct| >= 3 || avg >= 8.0 then "hard"
    else if |Words(sentence)| >= 15 || avg >= 6.0 then "medium"
    else "easy"
  }

  /** Rated on the raw tokens, as `generate` does, trailing punctuation counts: the key
      words "meetings," and "morning." average 8.5 characters and make a short sentence
      hard, while their cleaned forms average 7.5 and make it medium. */
  lemma RawAnswersRateHarder(sentence: string)
    requires |Words(sentence)| < 15
    ensures Difficulty(sentence, ["meetings,", "morning."]) == "hard"
    ensures Difficulty(sentence, ["meetings", "morning"]) == "medium"
  {
    assert TotalLength(["meetings,", "morning."]) == 17;
    assert TotalLength(["meetings", "morning"]) == 15;
  }

  // ------------------------------------------------------------ blanks

  /** What `_create_multi_blank_cloze` and `_create_single_blank_cloze` return: the text
      parts, one option list per blank, the answers and the explanation. */
  datatype Blanks = Blanks(textParts: seq<string>, options: seq<seq<string>>, correct: seq<string>, explanation: string)

  /** The random choices of one `_generate_distractors` call: the arbitrary order in
      which its set of distractors is listed, and the final shuffle. */
  datatype Shuffles = Shuffles(order: seq<nat>, draws: seq<nat>)

  /** The choices of the `k`-th call; none are left past the end of the list. */
  function ShufflesAt(s: seq<Shuffles>, k: nat): Shuffles
  {
    if k < |s| then s[k] else Shuffles([], [])
  }

  /** The choices of the calls for the blanks of the `k`-th sentence. */
  function BlankShuffles(md: seq<seq<Shuffles>>, k: nat): seq<Shuffles>
  {
    if k < |md| then md[k] else []
  }

  /** The options for each blanked token: its cleaned form among its distractors. */
  function Options(tokens: seq<string>, t: WordTables, bd: seq<Shuffles>): (r: seq<seq<string>>)
    requires TablesClean(t)
    ensures |r| == |tokens|
    ensures forall k :: 0 <= k < |r| ==> CleanWord(tokens[k]) in r[k] && 1 <= |r[k]| <= 4
    ensures forall k, x :: 0 <= k < |r| && x in r[k] ==> IsCleanWord(x)
  {
    seq(|tokens|, k requires 0 <= k < |tokens| => Distractors(tokens[k], t, ShufflesAt(bd, k).order, ShufflesAt(bd, k).draws))
  }

  /** Each blank's options are shuffled on their own: any rearrangement of one blank's
      options is reached by changing that blank's choices alone, and every other blank
      keeps its options. */
  lemma OptionsShuffledApart(tokens: seq<string>, t: WordTables, bd: seq<Shuffles>, k: nat, ys: seq<string>)
    returns (bd': seq<Shuffles>)
    requires TablesClean(t) && k < |tokens| && k < |bd|
    requires multiset(ys) == multiset(Options(tokens, t, bd)[k])
    ensures |bd'| == |bd|
    ensures Options(tokens, t, bd')[k] == ys
    ensures forall i :: 0 <= i < |tokens| && i != k ==> Options(tokens, t, bd')[i] == Options(tokens, t, bd)[i]
  {
    hide *;
    var clean := CleanWord(tokens[k]);
    var s := ShufflesAt(bd, k);
    var listed := [clean] + Take(Shuffle(Fill(Seeds(clean, t.confusables), clean, t.generic), s.order), 3);
    OptionsAt(tokens, t, bd, k);
    var draws := ShuffleReaches(listed, ys);
    bd' := bd[k := Shuffles(s.order, draws)];
    OptionsAt(tokens, t, bd', k);
    ShufflesAtUpdate(bd, k, Shuffles(s.order, draws), k);
    forall i | 0 <= i < |tokens| && i != k
      ensures Options(tokens, t, bd')[i] == Options(tokens, t, bd)[i]
    {
      OptionsAt(tokens, t, bd, i);
      OptionsAt(tokens, t, bd', i);
      ShufflesAtUpdate(bd, k, Shuffles(s.order, draws), i);
    }
  }

  lemma ShufflesAtUpdate(s: seq<Shuffles>, k: nat, x: Shuffles, i: nat)
    requires k < |s|
    ensures |s[k := x]| == |s|
    ensures ShufflesAt(s[k := x], i) == if i == k then x else ShufflesAt(s, i)
  {
  }

  /** The options of blank `k`: its word among three distractors, listed in the blank's
      own order and shuffled by its own draws. */
  lemma OptionsAt(tokens: seq<string>, t: WordTables, bd: seq<Shuffles>, k: nat)
    requires TablesClean(t) && k < |tokens|
    ensures var clean := CleanWord(tokens[k]); var s := ShufflesAt(bd, k);
      Options(tokens, t, bd)[k] == Shuffle([clean] + Take(Shuffle(Fill(Seeds(clean, t.confusables), clean, t.generic), s.order), 3), s.draws)
  {
  }

  /** The blanks and answers fit together: one part more than blanks, one option list per
      blank, and each answer among its options. */
  predicate Fits(b: Blanks)
  {
    Shaped(b) && forall k :: 0 <= k < |b.correct| ==> b.correct[k] in b.options[k]
  }

  /** One part more than blanks and one option list per blank. */
  predicate Shaped(b: Blanks)
  {
    |b.textParts| == |b.correct| + 1 && |b.options| == |b.correct|
  }

  /** The blank positions `_create_multi_blank_cloze` chooses: the first three key words. */
  function Chosen(words: seq<string>, vocab: set<string>, skip: set<string>): (r: seq<nat>)
    ensures ValidKeys(words, r, 0) && |r| <= 3
    ensures r == Take(KeyIndices(words, vocab, skip, 0), 3)
  {
    Take(KeyIndices(words, vocab, skip, 0), 3)
  }

  /** `_create_multi_blank_cloze`: the answers are the raw tokens, with their punctuation
      and capitals, the text parts as `PartsAsWritten` builds them, each blank's options
      made from its token's cleaned form, and the explanation as written. `generate` uses
      this one. */
  function MultiBlankAsWritten(sentence: string, vocab: set<string>, t: WordTables, bd: seq<Shuffles>): (r: Option<Blanks>)
    requires TablesClean(t)
    ensures r.None? <==> |KeyIndices(Words(sentence), vocab, t.skip, 0)| < 2
    ensures r.Some? ==> r.value.correct == At(Words(sentence), Chosen(Words(sentence), vocab, t.skip))
    ensures r.Some? ==> Shaped(r.value) && 2 <= |r.value.correct| <= 3
    ensures r.Some? ==> r.value.textParts == PartsAsWritten(Words(sentence), Chosen(Words(sentence), vocab, t.skip), 0)
    ensures r.Some? ==> forall k :: 0 <= k < |r.value.correct| ==> CleanWord(r.value.correct[k]) in r.value.options[k]
    ensures r.Some? ==> r.value.explanation == ExplanationAsWritten(r.value.correct)
  {
    var words := Words(sentence);
    var keys := KeyIndices(words, vocab, t.skip, 0);
    if |keys| < 2 then None
    else
      var chosen := Chosen(words, vocab, t.skip);
      var tokens := At(words, chosen);
      Some(Blanks(PartsAsWritten(words, chosen, 0), Options(tokens, t, bd), tokens,
                  ExplanationAsWritten(tokens)))
  }

  /** As written, a raw answer is among its own options exactly when it is already a clean
      word, so a token such as "meetings," or "Schedule" can never be chosen correctly. */
  lemma AsWrittenAnswerOffered(sentence: string, vocab: set<string>, t: WordTables, bd: seq<Shuffles>, k: nat)
    requires TablesClean(t)
    requires MultiBlankAsWritten(sentence, vocab, t, bd).Some?
    requires k < |MultiBlankAsWritten(sentence, vocab, t, bd).value.correct|
    ensures var b := MultiBlankAsWritten(sentence, vocab, t, bd).value;
      b.correct[k] in b.options[k] <==> IsCleanWord(b.correct[k])
  {
    var b := MultiBlankAsWritten(sentence, vocab, t, bd).value;
    if IsCleanWord(b.correct[k]) {
      CleanWordFixed(b.correct[k]);
    }
  }

  /** The cleaned form of each token. */
  function Cleaned(tokens: seq<string>): (r: seq<string>)
    ensures |r| == |tokens| && forall k :: 0 <= k < |r| ==> r[k] == CleanWord(tokens[k])
  {
    seq(|tokens|, k requires 0 <= k < |tokens| => CleanWord(tokens[k]))
  }

  /** The cleaned answers are among the options made for their tokens. */
  lemma CleanedFit(parts: seq<string>, tokens: seq<string>, t: WordTables, bd: seq<Shuffles>, e: string)
    requires TablesClean(t) && |parts| == |tokens| + 1
    ensures Fits(Blanks(parts, Options(tokens, t, bd), Cleaned(tokens), e))
  {
  }

  /** `_create_multi_blank_cloze` as evidently intended: the cleaned words as answers,
      matching the options, a space on each side of every blank, and each answer quoted
      once in the explanation. */
  function MultiBlank(sentence: string, vocab: set<string>, t: WordTables, bd: seq<Shuffles>): (r: Option<Blanks>)
    requires TablesClean(t)
    ensures r.None? <==> |KeyIndices(Words(sentence), vocab, t.skip, 0)| < 2
    ensures r.Some? ==> Fits(r.value) && 2 <= |r.value.correct| <= 3
    ensures r.Some? ==> var words := Words(sentence); var chosen := Chosen(words, vocab, t.skip);
      |r.value.correct| == |chosen| && forall k :: 0 <= k < |chosen| ==> r.value.correct[k] == CleanWord(words[chosen[k]])
    ensures r.Some? ==> forall k, x :: 0 <= k < |r.value.options| && x in r.value.options[k] ==> IsCleanWord(x)
    ensures r.Some? ==> r.value.explanation == Explanation(r.value.correct)
    ensures r.Some? ==> r.value.textParts == Parts(Words(sentence), Chosen(Words(sentence), vocab, t.skip), 0, false)
  {
    var words := Words(sentence);
    var keys := KeyIndices(words, vocab, t.skip, 0);
    if |keys| < 2 then None
    else Some(IntendedBlanks(words, Chosen(words, vocab, t.skip), t, bd))
  }

  /** The intended blanks at the positions `chosen`. */
  function IntendedBlanks(words: seq<string>, chosen: seq<nat>, t: WordTables, bd: seq<Shuffles>): (b: Blanks)
    requires TablesClean(t) && ValidKeys(words, chosen, 0) && |chosen| > 0
    ensures Fits(b) && |b.correct| == |chosen|
    ensures forall k :: 0 <= k < |chosen| ==> b.correct[k] == CleanWord(words[chosen[k]])
    ensures forall k, x :: 0 <= k < |b.options| && x in b.options[k] ==> IsCleanWord(x)
    ensures b.explanation == Explanation(b.correct)
    ensures b.textParts == Parts(words, chosen, 0, false)
  {
    var tokens := At(words, chosen);
    var parts := Parts(words, chosen, 0, false);
    var e := Explanation(Cleaned(tokens));
    CleanedFit(parts, tokens, t, bd, e);
    Blanks(parts, Options(tokens, t, bd), Cleaned(tokens), e)
  }

  /** Filling the blanks with the tokens they replaced gives back the sentence's words. */
  lemma MultiBlankReassembles(sentence: string, vocab: set<string>, t: WordTables, bd: seq<Shuffles>)
    requires TablesClean(t)
    requires MultiBlank(sentence, vocab, t, bd).Some?
    ensures var words := Words(sentence);
      Words(Weave(MultiBlank(sentence, vocab, t, bd).value.textParts, At(words, Chosen(words, vocab, t.skip)))) == words
  {
    var words := Words(sentence);
    WeaveSplits(words, Chosen(words, vocab, t.skip));
  }

  /** The fallback's test for a word to blank. */
  predicate SingleCandidate(word: string, skip: set<string>)
  {
    var clean := CleanWord(word);
    |clean| > 4 && clean !in skip && !Capitalised(word)
  }

  function SingleTest(skip: set<string>): string -> bool
  {
    w => SingleCandidate(w, skip)
  }

  /** `_create_single_blank_cloze`: the first candidate word becomes the one blank. */
  function SingleBlank(sentence: string, t: WordTables, s: Shuffles): (r: Option<Blanks>)
    requires TablesClean(t)
    ensures r.None? ==> forall k :: 0 <= k < |Words(sentence)| ==> !SingleCandidate(Words(sentence)[k], t.skip)
    ensures r.Some? ==> exists k :: 0 <= k < |Words(sentence)| && SingleCandidate(Words(sentence)[k], t.skip)
    ensures r.Some? ==> Fits(r.value) && |r.value.correct| == 1
    ensures r.Some? ==> var i := FirstIndexWhere(Words(sentence), SingleTest(t.skip)).value;
      r.value.correct[0] == CleanWord(Words(sentence)[i]) && |r.value.correct[0]| > 4
  {
    var words := Words(sentence);
    SingleFound(words, t.skip);
    match FirstIndexWhere(words, SingleTest(t.skip))
    case None => None
    case Some(i) => Some(SingleAt(words, i, t, s))
  }

  /** The search for the word to blank, read through the candidate test. */
  lemma SingleFound(words: seq<string>, skip: set<string>)
    ensures FirstIndexWhere(words, SingleTest(skip)).None? ==>
      forall k :: 0 <= k < |words| ==> !SingleCandidate(words[k], skip)
    ensures FirstIndexWhere(words, SingleTest(skip)).Some? ==>
      var i := FirstIndexWhere(words, SingleTest(skip)).value;
      i < |words| && SingleCandidate(words[i], skip)
  {
    assert forall w :: SingleTest(skip)(w) == SingleCandidate(w, skip);
  }

  /** The single blank at word `i`: the words before it and after it around the blank,
      and the cleaned word as the answer among its distractors. */
  function SingleAt(words: seq<string>, i: nat, t: WordTables, s: Shuffles): (b: Blanks)
    requires TablesClean(t) && i < |words| && SingleCandidate(words[i], t.skip)
    ensures Fits(b) && |b.correct| == 1
    ensures b.correct[0] == CleanWord(words[i]) && |b.correct[0]| > 4
    ensures b.explanation == WordIs(b.correct[0])
  {
    var clean := CleanWord(words[i]);
    CleanWordFixed(clean);
    OneBlank(Join(" ", words[..i]), Join(" ", words[i + 1..]), clean, Distractors(clean, t, s.order, s.draws))
  }

  /** One blank between `before` and `after`, a space on each side, answered by `w`. */
  function OneBlank(before: string, after: string, w: string, opts: seq<string>): (b: Blanks)
    requires w in opts
    ensures Fits(b) && b.correct == [w] && b.explanation == WordIs(w)
    ensures b.textParts == [before + " ", " " + after]
  {
    Blanks([before + " ", " " + after], [opts], [w], WordIs(w))
  }

  /** The fallback's explanation, `f"The correct word is '{clean_word}'."`. */
  function WordIs(w: string): string
  {
    "The correct word is " + Quote(w) + "."
  }

  /** The fallback words its explanation as the multi-blank explanation of one answer
      would be, with or without the doubled quote. */
  lemma WordIsExplanation(w: string)
    ensures WordIs(w) == Explanation([w]) == ExplanationAsWritten([w])
  {
  }

  /** Filling the single blank with the token it replaced gives back the sentence's words. */
  lemma SingleBlankReassembles(sentence: string, t: WordTables, s: Shuffles)
    requires TablesClean(t)
    requires SingleBlank(sentence, t, s).Some?
    ensures var words := Words(sentence);
      var i := FirstIndexWhere(words, SingleTest(t.skip)).value;
      var parts := SingleBlank(sentence, t, s).value.textParts;
      Words(parts[0] + words[i] + parts[1]) == words
  {
    var words := Words(sentence);
    var i := FirstIndexWhere(words, SingleTest(t.skip)).value;
    TokensSlice(words, 0, i);
    TokensSlice(words, i + 1, |words|);
    WordsAround(words[..i], words[i], words[i + 1..]);
    SliceAround(words, 0, i);
  }

  // ------------------------------------------------------------ items

  /** An item before numbering: the sentence it was made from, its difficulty and its
      blanks. */
  datatype Draft = Draft(sentence: string, difficulty: string, blanks: Blanks)

  /** A cloze item as `generate` stores it; the blanks carry its text parts, options,
      answers and explanation. */
  datatype Item = Item(id: string, topicId: string, lessonId: string, difficulty: string, blanks: Blanks)

  /** A first-pass item: the multi-blank cloze of a non-empty sentence, rated by `Difficulty`. */
  predicate IsMulti(d: Draft, vocab: set<string>, t: WordTables, bd: seq<Shuffles>)
    requires TablesClean(t)
  {
    d.sentence != "" && MultiBlankAsWritten(d.sentence, vocab, t, bd) == Some(d.blanks)
    && d.difficulty == Difficulty(d.sentence, d.blanks.correct)
  }

  /** A fallback item: the single-blank cloze of a sentence, always easy. */
  predicate IsSingle(d: Draft, t: WordTables, s: Shuffles)
    requires TablesClean(t)
  {
    SingleBlank(d.sentence, t, s) == Some(d.blanks) && d.difficulty == "easy"
  }

  /** `d` is the multi-blank item of a quality sentence, made with the choices of that
      sentence's blanks. */
  predicate MultiOf(d: Draft, q: seq<string>, vocab: set<string>, t: WordTables, md: seq<seq<Shuffles>>)
    requires TablesClean(t)
  {
    exists k :: 0 <= k < |q| && q[k] == d.sentence && IsMulti(d, vocab, t, BlankShuffles(md, k))
  }

  /** `d` is the single-blank item of one of the first five quality sentences, made with
      the choices of that sentence's one blank. */
  predicate SingleOf(d: Draft, q: seq<string>, t: WordTables, sd: seq<Shuffles>)
    requires TablesClean(t)
  {
    exists k :: 0 <= k < |q| && k < 5 && q[k] == d.sentence && IsSingle(d, t, ShufflesAt(sd, k))
  }

  /** What the first pass makes of each sentence: nothing for an empty sentence, else its
      multi-blank cloze when there is one. */
  function MultiAttempts(q: seq<string>, vocab: set<string>, t: WordTables, md: seq<seq<Shuffles>>): (r: seq<Option<Draft>>)
    requires TablesClean(t)
    ensures |r| == |q|
  {
    seq(|q|, k requires 0 <= k < |q| =>
      if q[k] == "" then None
      else match MultiBlankAsWritten(q[k], vocab, t, BlankShuffles(md, k))
        case None => None
        case Some(b) => Some(Draft(q[k], Difficulty(q[k], b.correct), b)))
  }

  /** What the fallback makes of each sentence: its single-blank cloze when there is one. */
  function SingleAttempts(q: seq<string>, t: WordTables, sd: seq<Shuffles>): (r: seq<Option<Draft>>)
    requires TablesClean(t)
    ensures |r| == |q|
  {
    seq(|q|, k requires 0 <= k < |q| =>
      match SingleBlank(q[k], t, ShufflesAt(sd, k))
      case None => None
      case Some(b) => Some(Draft(q[k], "easy", b)))
  }

  /** A first-loop item paired with its lower-cased sentence, one of the quality sentences `q`. */
  predicate FirstKept(x: (string, Draft), q: seq<string>, vocab: set<string>, t: WordTables, md: seq<seq<Shuffles>>)
    requires TablesClean(t)
  {
    x.0 == Lower(x.1.sentence) && MultiOf(x.1, q, vocab, t, md)
  }

  /** A fallback item paired with its lower-cased sentence, one of the first five of `q`. */
  predicate FallbackKept(x: (string, Draft), q: seq<string>, t: WordTables, sd: seq<Shuffles>)
    requires TablesClean(t)
  {
    x.0 == Lower(x.1.sentence) && SingleOf(x.1, q, t, sd)
  }

  /** The first loop makes an item of a sentence exactly when it is non-empty and has a
      multi-blank cloze, and the item is that cloze. */
  lemma MultiAttemptsMade(q: seq<string>, vocab: set<string>, t: WordTables, md: seq<seq<Shuffles>>)
    requires TablesClean(t)
    ensures var r := MultiAttempts(q, vocab, t, md);
      (forall k :: 0 <= k < |q| && r[k].Some? ==> r[k].value.sentence == q[k] && IsMulti(r[k].value, vocab, t, BlankShuffles(md, k)))
      && forall k :: 0 <= k < |q| ==> (r[k].Some? <==> q[k] != "" && MultiBlankAsWritten(q[k], vocab, t, BlankShuffles(md, k)).Some?)
  {
  }

  /** The fallback makes an item of a sentence exactly when it has a single-blank cloze,
      and the item is that cloze. */
  lemma SingleAttemptsMade(q: seq<string>, t: WordTables, sd: seq<Shuffles>)
    requires TablesClean(t)
    ensures var r := SingleAttempts(q, t, sd);
      (forall k :: 0 <= k < |q| && r[k].Some? ==> r[k].value.sentence == q[k] && IsSingle(r[k].value, t, ShufflesAt(sd, k)))
      && forall k :: 0 <= k < |q| ==> (r[k].Some? <==> SingleBlank(q[k], t, ShufflesAt(sd, k)).Some?)
  {
  }

  /** The first loop of `generate`: multi-blank items from the quality sentences in order,
      skipping a sentence already used (compared lower-cased), until four are made. Each
      item is paired with its lower-cased sentence. */
  function FirstPass(q: seq<string>, vocab: set<string>, t: WordTables, md: seq<seq<Shuffles>>): (r: seq<(string, Draft)>)
    requires TablesClean(t)
  {
    Collect(LowerAll(q), MultiAttempts(q, vocab, t, md), {}, MaxItems)
  }

  /** The first loop keeps multi-blank items of quality sentences, keyed by their sentence. */
  lemma FirstPassKept(q: seq<string>, vocab: set<string>, t: WordTables, md: seq<seq<Shuffles>>)
    requires TablesClean(t)
    ensures var r := FirstPass(q, vocab, t, md);
      forall k :: 0 <= k < |r| ==> FirstKept(r[k], q, vocab, t, md)
  {
    MultiAttemptsMade(q, vocab, t, md);
    CollectKeeps(LowerAll(q), MultiAttempts(q, vocab, t, md), {}, MaxItems,
      x => TablesClean(t) && FirstKept(x, q, vocab, t, md));
  }

  /** The fallback loop of `generate`: only when the first loop made fewer than two items,
      single-blank items from the first five quality sentences whose lower-cased form the
      first loop did not use, until there are two items in all. */
  function Fallback(q: seq<string>, first: seq<(string, Draft)>, t: WordTables, sd: seq<Shuffles>): (r: seq<(string, Draft)>)
    requires TablesClean(t)
  {
    if |first| < MinItems && |q| > 0 then
      Collect(LowerAll(Take(q, 5)), SingleAttempts(Take(q, 5), t, sd), Elems(Firsts(first)), MinItems - |first|)
    else []
  }

  /** The fallback keeps single-blank items of the first five quality sentences, under
      keys the first loop did not use, and only tops the count up to two. */
  lemma FallbackKeeps(q: seq<string>, first: seq<(string, Draft)>, t: WordTables, sd: seq<Shuffles>)
    requires TablesClean(t)
    ensures var r := Fallback(q, first, t, sd);
      (|r| > 0 ==> |first| < MinItems && |first| + |r| <= MinItems)
      && NoDup(Firsts(r))
      && forall k :: 0 <= k < |r| ==> r[k].0 !in Firsts(first) && FallbackKept(r[k], q, t, sd)
  {
    if |first| < MinItems && |q| > 0 {
      var q5 := Take(q, 5);
      SingleAttemptsMade(q5, t, sd);
      CollectKeeps(LowerAll(q5), SingleAttempts(q5, t, sd), Elems(Firsts(first)), MinItems - |first|,
        x => TablesClean(t) && FallbackKept(x, q, t, sd));
    }
  }

  function Values(ps: seq<(string, Draft)>): (r: seq<Draft>)
    ensures |r| == |ps| && forall k :: 0 <= k < |ps| ==> r[k] == ps[k].1
  {
    seq(|ps|, k requires 0 <= k < |ps| => ps[k].1)
  }

  /** `generate` before numbering: the items of both loops, in order, made from the
      sentences `texts` the generator reads. */
  function Drafts(texts: seq<string>, vocabulary: seq<VocabEntry>, t: WordTables, md: seq<seq<Shuffles>>, sd: seq<Shuffles>): (r: seq<Draft>)
    requires TablesClean(t)
  {
    var q := QualityTexts(texts);
    var first := FirstPass(q, VocabWords(vocabulary), t, md);
    Values(first) + Values(Fallback(q, first, t, sd))
  }

  /** At most four items, the multi-blank ones first; when a single-blank item is among
      them, at most two. */
  lemma DraftsCount(texts: seq<string>, vocabulary: seq<VocabEntry>, t: WordTables, md: seq<seq<Shuffles>>, sd: seq<Shuffles>)
    requires TablesClean(t)
    ensures var r := Drafts(texts, vocabulary, t, md, sd);
      |r| <= MaxItems
      && (forall k :: 0 <= k < |r| && |r[k].blanks.correct| == 1 ==> |r| <= MinItems)
      && (forall i, j :: 0 <= i < j < |r| && |r[j].blanks.correct| >= 2 ==> |r[i].blanks.correct| >= 2)
  {
    var q := QualityTexts(texts);
    var vocab := VocabWords(vocabulary);
    var first := FirstPass(q, vocab, t, md);
    FirstShapes(q, vocab, t, md);
    FallbackShapes(q, first, t, sd);
    Passes(first, Fallback(q, first, t, sd));
  }

  /** The first loop keeps at most four items, each with two or more blanks. */
  lemma FirstShapes(q: seq<string>, vocab: set<string>, t: WordTables, md: seq<seq<Shuffles>>)
    requires TablesClean(t)
    ensures var r := FirstPass(q, vocab, t, md);
      |r| <= MaxItems && forall k :: 0 <= k < |r| ==> |r[k].1.blanks.correct| >= 2
  {
    FirstPassKept(q, vocab, t, md);
  }

  /** The fallback keeps single-blank items, and only to top the first loop up to two. */
  lemma FallbackShapes(q: seq<string>, first: seq<(string, Draft)>, t: WordTables, sd: seq<Shuffles>)
    requires TablesClean(t)
    ensures var r := Fallback(q, first, t, sd);
      (|r| > 0 ==> |first| < MinItems && |first| + |r| <= MinItems)
      && forall k :: 0 <= k < |r| ==> |r[k].1.blanks.correct| == 1
  {
    FallbackKeeps(q, first, t, sd);
  }

  /** Both loops key their items by the lower-cased sentence; the fallback's keys are
      distinct and unused by the first loop. */
  lemma PassKeys(q: seq<string>, vocab: set<string>, t: WordTables, md: seq<seq<Shuffles>>, sd: seq<Shuffles>)
    requires TablesClean(t)
    ensures var first := FirstPass(q, vocab, t, md); var second := Fallback(q, first, t, sd);
      && NoDup(Firsts(first)) && NoDup(Firsts(second))
      && (forall k :: 0 <= k < |first| ==> first[k].0 == Lower(first[k].1.sentence))
      && (forall k :: 0 <= k < |second| ==> second[k].0 == Lower(second[k].1.sentence))
      && (forall k :: 0 <= k < |second| ==> second[k].0 !in Firsts(first))
  {
    FirstPassKept(q, vocab, t, md);
    FallbackKeeps(q, FirstPass(q, vocab, t, md), t, sd);
  }

  /** The two loops' items joined: the multi-blank ones first, and no more than two when
      a single-blank one is among them. */
  lemma Passes(first: seq<(string, Draft)>, second: seq<(string, Draft)>)
    requires |first| <= MaxItems
    requires forall k :: 0 <= k < |first| ==> |first[k].1.blanks.correct| >= 2
    requires |second| > 0 ==> |first| < MinItems && |first| + |second| <= MinItems
    requires forall k :: 0 <= k < |second| ==> |second[k].1.blanks.correct| == 1
    ensures var r := Values(first) + Values(second);
      |r| <= MaxItems
      && (forall k :: 0 <= k < |r| && |r[k].blanks.correct| == 1 ==> |r| <= MinItems)
      && (forall i, j :: 0 <= i < j < |r| && |r[j].blanks.correct| >= 2 ==> |r[i].blanks.correct| >= 2)
  {
    var r := Values(first) + Values(second);
    assert forall k :: 0 <= k < |first| ==> r[k] == first[k].1;
    assert forall k :: |first| <= k < |r| ==> r[k] == second[k - |first|].1;
  }

  /** Every item is the multi-blank cloze of a quality sentence, or the easy single-blank
      cloze of one of the first five. */
  lemma DraftsFrom(texts: seq<string>, vocabulary: seq<VocabEntry>, t: WordTables, md: seq<seq<Shuffles>>, sd: seq<Shuffles>)
    requires TablesClean(t)
    ensures var r := Drafts(texts, vocabulary, t, md, sd); var q := QualityTexts(texts);
      forall k :: 0 <= k < |r| ==>
        MultiOf(r[k], q, VocabWords(vocabulary), t, md) || SingleOf(r[k], q, t, sd)
  {
    var q := QualityTexts(texts);
    var vocab := VocabWords(vocabulary);
    var first := FirstPass(q, vocab, t, md);
    FirstValues(q, vocab, t, md);
    FallbackValues(q, first, t, sd);
    JoinEither(Values(first), Values(Fallback(q, first, t, sd)),
      (d: Draft) => TablesClean(t) && MultiOf(d, q, vocab, t, md),
      (d: Draft) => TablesClean(t) && SingleOf(d, q, t, sd));
  }

  /** The first loop's drafts are multi-blank clozes of quality sentences. */
  lemma FirstValues(q: seq<string>, vocab: set<string>, t: WordTables, md: seq<seq<Shuffles>>)
    requires TablesClean(t)
    ensures var r := Values(FirstPass(q, vocab, t, md));
      forall k :: 0 <= k < |r| ==> TablesClean(t) && MultiOf(r[k], q, vocab, t, md)
  {
    FirstPassKept(q, vocab, t, md);
  }

  /** The fallback's drafts are single-blank clozes of the first five quality sentences. */
  lemma FallbackValues(q: seq<string>, first: seq<(string, Draft)>, t: WordTables, sd: seq<Shuffles>)
    requires TablesClean(t)
    ensures var r := Values(Fallback(q, first, t, sd));
      forall k :: 0 <= k < |r| ==> TablesClean(t) && SingleOf(r[k], q, t, sd)
  {
    FallbackKeeps(q, first, t, sd);
  }

  /** No two items come from the same sentence, compared lower-cased. */
  lemma DraftsDistinct(texts: seq<string>, vocabulary: seq<VocabEntry>, t: WordTables, md: seq<seq<Shuffles>>, sd: seq<Shuffles>)
    requires TablesClean(t)
    ensures var r := Drafts(texts, vocabulary, t, md, sd);
      forall i, j :: 0 <= i < j < |r| ==> Lower(r[i].sentence) != Lower(r[j].sentence)
  {
    var q := QualityTexts(texts);
    var vocab := VocabWords(vocabulary);
    var first := FirstPass(q, vocab, t, md);
    PassKeys(q, vocab, t, md, sd);
    KeyedDistinct(first, Fallback(q, first, t, sd));
  }

  /** Items keyed by their lower-cased sentence, keys distinct within and across the runs,
      have distinct lower-cased sentences. */
  lemma KeyedDistinct(first: seq<(string, Draft)>, second: seq<(string, Draft)>)
    requires NoDup(Firsts(first)) && NoDup(Firsts(second))
    requires forall k :: 0 <= k < |first| ==> first[k].0 == Lower(first[k].1.sentence)
    requires forall k :: 0 <= k < |second| ==> second[k].0 == Lower(second[k].1.sentence)
    requires forall k :: 0 <= k < |second| ==> second[k].0 !in Firsts(first)
    ensures var r := Values(first) + Values(second);
      forall i, j :: 0 <= i < j < |r| ==> Lower(r[i].sentence) != Lower(r[j].sentence)
  {
    var all := first + second;
    JoinKeys(first, second);
    var r := Values(first) + Values(second);
    assert forall k :: 0 <= k < |r| ==> r[k] == all[k].1 && all[k].0 == Lower(all[k].1.sentence);
    forall i, j | 0 <= i < j < |r|
      ensures Lower(r[i].sentence) != Lower(r[j].sentence)
    {
      assert Firsts(all)[i] != Firsts(all)[j];
    }
  }

  /** The first loop stops early only when it has four items: with fewer items in all,
      every non-empty quality sentence that has a multi-blank cloze is the source of one. */
  lemma DraftsComplete(texts: seq<string>, vocabulary: seq<VocabEntry>, t: WordTables, md: seq<seq<Shuffles>>, sd: seq<Shuffles>, j: nat)
    requires TablesClean(t)
    requires j < |QualityTexts(texts)| && QualityTexts(texts)[j] != ""
    requires MultiBlankAsWritten(QualityTexts(texts)[j], VocabWords(vocabulary), t, BlankShuffles(md, j)).Some?
    requires |Drafts(texts, vocabulary, t, md, sd)| < MaxItems
    ensures var r := Drafts(texts, vocabulary, t, md, sd);
      exists k :: 0 <= k < |r| && Lower(r[k].sentence) == Lower(QualityTexts(texts)[j])
  {
    var q := QualityTexts(texts);
    var vocab := VocabWords(vocabulary);
    var first := FirstPass(q, vocab, t, md);
    FirstPassComplete(q, vocab, t, md, j);
    PassKeys(q, vocab, t, md, sd);
    KeyFound(first, Values(Fallback(q, first, t, sd)), Lower(q[j]));
  }

  /** The first loop, when it keeps fewer than four items, keeps the key of every
      non-empty quality sentence that has a multi-blank cloze. */
  lemma FirstPassComplete(q: seq<string>, vocab: set<string>, t: WordTables, md: seq<seq<Shuffles>>, j: nat)
    requires TablesClean(t)
    requires j < |q| && q[j] != "" && MultiBlankAsWritten(q[j], vocab, t, BlankShuffles(md, j)).Some?
    requires |FirstPass(q, vocab, t, md)| < MaxItems
    ensures Lower(q[j]) in Firsts(FirstPass(q, vocab, t, md))
  {
    MultiAttemptsMade(q, vocab, t, md);
    CollectComplete(LowerAll(q), MultiAttempts(q, vocab, t, md), {}, MaxItems, j);
  }

  /** A key of the first run, when every key is its item's lower-cased sentence, is the
      lower-cased sentence of an item of the joined values. */
  lemma KeyFound(first: seq<(string, Draft)>, rest: seq<Draft>, key: string)
    requires key in Firsts(first)
    requires forall k :: 0 <= k < |first| ==> first[k].0 == Lower(first[k].1.sentence)
    ensures var r := Values(first) + rest; exists k :: 0 <= k < |r| && Lower(r[k].sentence) == key
  {
    var i :| 0 <= i < |first| && Firsts(first)[i] == key;
    assert (Values(first) + rest)[i] == first[i].1;
  }

  /** The id of the `n`-th item: "ac_<lesson>_<n>". */
  function ItemId(lessonId: string, n: nat): string
  {
    "ac_" + lessonId + "_" + NatToString(n)
  }

  /** Different numbers give different ids within a lesson. */
  lemma ItemIdInjective(lessonId: string, m: nat, n: nat)
    requires m != n
    ensures ItemId(lessonId, m) != ItemId(lessonId, n)
  {
    var p := "ac_" + lessonId + "_";
    NatToStringInjective(m, n);
    assert ItemId(lessonId, m)[|p|..] == NatToString(m);
    assert ItemId(lessonId, n)[|p|..] == NatToString(n);
  }

  /** The drafts numbered from 1 under the topic and lesson. */
  function Number(d: seq<Draft>, topicId: string, lessonId: string): (r: seq<Item>)
    ensures |r| == |d|
    ensures forall k :: 0 <= k < |r| ==>
      r[k] == Item(ItemId(lessonId, k + 1), topicId, lessonId, d[k].difficulty, d[k].blanks)
  {
    seq(|d|, k requires 0 <= k < |d| => Item(ItemId(lessonId, k + 1), topicId, lessonId, d[k].difficulty, d[k].blanks))
  }

  /** `generate`: at most four items with distinct ids, each carrying a draft's difficulty
      and blanks under the topic and lesson. */
  function Generate(texts: seq<string>, vocabulary: seq<VocabEntry>, topicId: string, lessonId: string,
                    t: WordTables, md: seq<seq<Shuffles>>, sd: seq<Shuffles>): (r: seq<Item>)
    requires TablesClean(t)
    ensures |r| <= MaxItems
    ensures forall i, j :: 0 <= i < j < |r| ==> r[i].id != r[j].id
    ensures forall k :: 0 <= k < |r| ==> r[k].topicId == topicId && r[k].lessonId == lessonId
  {
    var d := Drafts(texts, vocabulary, t, md, sd);
    DraftsCount(texts, vocabulary, t, md, sd);
    NumberedIdsDistinct(d, topicId, lessonId);
    Number(d, topicId, lessonId)
  }

  /** Numbering gives every item its own id. */
  lemma NumberedIdsDistinct(d: seq<Draft>, topicId: string, lessonId: string)
    ensures var r := Number(d, topicId, lessonId); forall i, j :: 0 <= i < j < |r| ==> r[i].id != r[j].id
  {
    var r := Number(d, topicId, lessonId);
    forall i, j | 0 <= i < j < |r|
      ensures r[i].id != r[j].id
    {
      ItemIdInjective(lessonId, i + 1, j + 1);
    }
  }

  /** As written, `generate` reads the "text" field of the extractor's sentence records,
      which have none: every sentence is "", none passes the quality filter, and no item
      is made. */
  lemma ExtractorRecordsMakeNothing(ps: seq<SentenceRecords.PracticeSentence>, vocabulary: seq<VocabEntry>,
                                    t: WordTables, md: seq<seq<Shuffles>>, sd: seq<Shuffles>)
    requires TablesClean(t)
    ensures Drafts(SentenceRecords.TextsAsWritten(ps), vocabulary, t, md, sd) == []
  {
    NoQualityInEmpty(SentenceRecords.TextsAsWritten(ps));
  }

  /** Empty sentences pass no quality test. */
  lemma NoQualityInEmpty(texts: seq<string>)
    requires forall k :: 0 <= k < |texts| ==> texts[k] == ""
    ensures QualityTexts(texts) == []
  {
    var q := QualityTexts(texts);
    assert Words("") == [];
    assert forall x :: x in texts ==> x == "";
    FirstMember(q);
  }

  /** Read through the "sentence" field, every item comes from one of the extractor's
      practice sentences. */
  lemma ExtractorRecordsFeedItems(ps: seq<SentenceRecords.PracticeSentence>, vocabulary: seq<VocabEntry>,
                                  t: WordTables, md: seq<seq<Shuffles>>, sd: seq<Shuffles>)
    requires TablesClean(t)
    ensures var r := Drafts(SentenceRecords.Texts(ps), vocabulary, t, md, sd);
      forall k :: 0 <= k < |r| ==> exists j :: 0 <= j < |ps| && ps[j].sentence == r[k].sentence
  {
    var texts := SentenceRecords.Texts(ps);
    var r := Drafts(texts, vocabulary, t, md, sd);
    DraftSentences(texts, vocabulary, t, md, sd);
    forall k | 0 <= k < |r|
      ensures exists j :: 0 <= j < |ps| && ps[j].sentence == r[k].sentence
    {
      var j :| 0 <= j < |texts| && texts[j] == r[k].sentence;
      assert ps[j].sentence == r[k].sentence;
    }
  }

  /** Every item's sentence is one of the texts read. */
  lemma DraftSentences(texts: seq<string>, vocabulary: seq<VocabEntry>, t: WordTables, md: seq<seq<Shuffles>>, sd: seq<Shuffles>)
    requires TablesClean(t)
    ensures var r := Drafts(texts, vocabulary, t, md, sd);
      forall k :: 0 <= k < |r| ==> r[k].sentence in texts
  {
    var q := QualityTexts(texts);
    var vocab := VocabWords(vocabulary);
    var first := FirstPass(q, vocab, t, md);
    FirstFrom(q, vocab, t, md);
    FallbackFrom(q, first, t, sd);
    SentencesWithin(Values(first), Values(Fallback(q, first, t, sd)), q, texts);
  }

  /** The first loop's drafts come from the quality sentences. */
  lemma FirstFrom(q: seq<string>, vocab: set<string>, t: WordTables, md: seq<seq<Shuffles>>)
    requires TablesClean(t)
    ensures var r := Values(FirstPass(q, vocab, t, md)); forall k :: 0 <= k < |r| ==> r[k].sentence in q
  {
    MultiAttemptsFrom(q, vocab, t, md);
    PassFrom(LowerAll(q), MultiAttempts(q, vocab, t, md), q, {}, MaxItems);
  }

  /** The fallback's drafts come from the quality sentences. */
  lemma FallbackFrom(q: seq<string>, first: seq<(string, Draft)>, t: WordTables, sd: seq<Shuffles>)
    requires TablesClean(t)
    ensures var r := Values(Fallback(q, first, t, sd)); forall k :: 0 <= k < |r| ==> r[k].sentence in q
  {
    if |first| < MinItems && |q| > 0 {
      var q5 := Take(q, 5);
      SingleAttemptsFrom(q5, t, sd);
      PassFrom(LowerAll(q5), SingleAttempts(q5, t, sd), q5, Elems(Firsts(first)), MinItems - |first|);
      forall x | x in q5 ensures x in q { TakeIn(q, 5, x); }
    }
  }

  /** The first loop's attempt at a sentence is made from that sentence. */
  lemma MultiAttemptsFrom(q: seq<string>, vocab: set<string>, t: WordTables, md: seq<seq<Shuffles>>)
    requires TablesClean(t)
    ensures var r := MultiAttempts(q, vocab, t, md);
      forall k :: 0 <= k < |q| && r[k].Some? ==> r[k].value.sentence == q[k]
  {
  }

  /** The fallback's attempt at a sentence is made from that sentence. */
  lemma SingleAttemptsFrom(q: seq<string>, t: WordTables, sd: seq<Shuffles>)
    requires TablesClean(t)
    ensures var r := SingleAttempts(q, t, sd);
      forall k :: 0 <= k < |q| && r[k].Some? ==> r[k].value.sentence == q[k]
  {
  }

  /** Drafts collected from attempts made from the sentences `q` come from `q`. */
  lemma PassFrom(keys: seq<string>, made: seq<Option<Draft>>, q: seq<string>, used: set<string>, room: nat)
    requires |keys| == |made| == |q|
    requires forall k :: 0 <= k < |q| && made[k].Some? ==> made[k].value.sentence == q[k]
    ensures var r := Collect(keys, made, used, room); forall k :: 0 <= k < |r| ==> r[k].1.sentence in q
  {
    CollectKeeps(keys, made, used, room, (x: (string, Draft)) => x.1.sentence in q);
  }

  /** Drafts whose sentences lie among `q`, itself among `texts`, come from `texts`. */
  lemma SentencesWithin(a: seq<Draft>, b: seq<Draft>, q: seq<string>, texts: seq<string>)
    requires forall k :: 0 <= k < |a| ==> a[k].sentence in q
    requires forall k :: 0 <= k < |b| ==> b[k].sentence in q
    requires forall x :: x in q ==> x in texts
    ensures forall k :: 0 <= k < |a + b| ==> (a + b)[k].sentence in texts
  {
    JoinEither(a, b, (d: Draft) => d.sentence in q, (d: Draft) => d.sentence in q);
  }
}
