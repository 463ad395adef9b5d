/** `SpellingGenerator`: words to practise spelling, taken first from the focus words of
    the student's mistakes, then from a fixed set of hard words in the vocabulary, then
    from any longer vocabulary word. */
module Spelling {
  import opened Wrappers
  import opened Text
  import opened Seqs
  import MistakeExtractor
  import VocabularyExtractor

  type Mistake = MistakeExtractor.Mistake
  type VocabEntry = VocabularyExtractor.VocabEntry

  const MaxWords: nat := 4
  const Challenging: set<string> := {
    "comfortable", "vegetables", "breakfast", "yesterday",
    "engineer", "sometimes", "listening", "bought", "stayed" }

  datatype SpellingWord = SpellingWord(word: string, sampleSentence: string, difficulty: string, source: string)

  // ------------------------------------------------------------ the three passes

  /** Priority 1: each mistake's focus word longer than 2 characters, with the corrected sentence. */
  function MistakeMade(ms: seq<Mistake>): (r: seq<Option<SpellingWord>>)
    ensures |r| == |ms|
    ensures forall k :: 0 <= k < |r| ==> (r[k].Some? <==> |ms[k].focusWord| > 2)
    ensures forall k :: 0 <= k < |r| && r[k].Some? ==>
      r[k].value == SpellingWord(ms[k].focusWord, ms[k].correct, "medium", "student_mistake")
  {
    seq(|ms|, k requires 0 <= k < |ms| =>
      if |ms[k].focusWord| > 2 then Some(SpellingWord(ms[k].focusWord, ms[k].correct, "medium", "student_mistake"))
      else None)
  }

  /** Priority 2: vocabulary words in the challenging set, with their context. */
  function ChallengingMade(vs: seq<VocabEntry>): (r: seq<Option<SpellingWord>>)
    ensures |r| == |vs|
    ensures forall k :: 0 <= k < |r| ==> (r[k].Some? <==> Lower(vs[k].word) in Challenging)
    ensures forall k :: 0 <= k < |r| && r[k].Some? ==>
      r[k].value == SpellingWord(vs[k].word, vs[k].context, "medium", "vocabulary")
  {
    seq(|vs|, k requires 0 <= k < |vs| =>
      if Lower(vs[k].word) in Challenging then Some(SpellingWord(vs[k].word, vs[k].context, "medium", "vocabulary"))
      else None)
  }

  /** Priority 3: any vocabulary word longer than 4 characters, with its context. */
  function LongMade(vs: seq<VocabEntry>): (r: seq<Option<SpellingWord>>)
    ensures |r| == |vs|
    ensures forall k :: 0 <= k < |r| ==> (r[k].Some? <==> |vs[k].word| > 4)
    ensures forall k :: 0 <= k < |r| && r[k].Some? ==>
      r[k].value == SpellingWord(vs[k].word, vs[k].context, "easy", "vocabulary")
  {
    seq(|vs|, k requires 0 <= k < |vs| =>
      if |vs[k].word| > 4 then Some(SpellingWord(vs[k].word, vs[k].context, "easy", "vocabulary"))
      else None)
  }

  function MistakeKeys(ms: seq<Mistake>): (r: seq<string>)
    ensures |r| == |ms| && forall k :: 0 <= k < |r| ==> r[k] == Lower(ms[k].focusWord)
  {
    seq(|ms|, k requires 0 <= k < |ms| => Lower(ms[k].focusWord))
  }

  function VocabKeys(vs: seq<VocabEntry>): (r: seq<string>)
    ensures |r| == |vs| && forall k :: 0 <= k < |r| ==> r[k] == Lower(vs[k].word)
  {
    seq(|vs|, k requires 0 <= k < |vs| => Lower(vs[k].word))
  }

  /** The rank of an entry in the output order: mistakes, hard words, other words. */
  function Tier(x: SpellingWord): nat
  {
    if x.source == "student_mistake" then 0 else if x.difficulty == "medium" then 1 else 2
  }

  /** A priority-1 entry: a mistake's focus word longer than 2 characters, sampled with
      that mistake's corrected sentence. */
  predicate FromMistake(ms: seq<Mistake>, x: SpellingWord)
  {
    x.source == "student_mistake" && x.difficulty == "medium" && |x.word| > 2
    && exists m :: m in ms && m.focusWord == x.word && m.correct == x.sampleSentence
  }

  /** A priority-2 entry: a challenging vocabulary word, sampled with its context. */
  predicate FromChallenging(vs: seq<VocabEntry>, x: SpellingWord)
  {
    x.source == "vocabulary" && x.difficulty == "medium" && Lower(x.word) in Challenging
    && exists v :: v in vs && v.word == x.word && v.context == x.sampleSentence
  }

  /** A priority-3 entry: a vocabulary word longer than 4 characters, sampled with its context. */
  predicate FromLong(vs: seq<VocabEntry>, x: SpellingWord)
  {
    x.source == "vocabulary" && x.difficulty == "easy" && |x.word| > 4
    && exists v :: v in vs && v.word == x.word && v.context == x.sampleSentence
  }

  /** Every entry comes from one of the three passes. */
  predicate Sourced(ms: seq<Mistake>, vs: seq<VocabEntry>, x: SpellingWord)
  {
    FromMistake(ms, x) || FromChallenging(vs, x) || FromLong(vs, x)
  }

  lemma MistakesPicked(ms: seq<Mistake>, p: seq<(string, SpellingWord)>)
    requires forall k :: 0 <= k < |p| ==> Picked(MistakeKeys(ms), MistakeMade(ms), p[k])
    ensures forall k :: 0 <= k < |p| ==> FromMistake(ms, p[k].1) && p[k].0 == Lower(p[k].1.word)
  {
    forall k | 0 <= k < |p|
      ensures FromMistake(ms, p[k].1) && p[k].0 == Lower(p[k].1.word)
    {
      assert Picked(MistakeKeys(ms), MistakeMade(ms), p[k]);
      var j :| 0 <= j < |MistakeKeys(ms)| && j < |MistakeMade(ms)| && MistakeKeys(ms)[j] == p[k].0
        && MistakeMade(ms)[j] == Some(p[k].1);
      assert ms[j] in ms;
    }
  }

  lemma ChallengingPicked(vs: seq<VocabEntry>, p: seq<(string, SpellingWord)>)
    requires forall k :: 0 <= k < |p| ==> Picked(VocabKeys(vs), ChallengingMade(vs), p[k])
    ensures forall k :: 0 <= k < |p| ==> FromChallenging(vs, p[k].1) && p[k].0 == Lower(p[k].1.word)
  {
    forall k | 0 <= k < |p|
      ensures FromChallenging(vs, p[k].1) && p[k].0 == Lower(p[k].1.word)
    {
      assert Picked(VocabKeys(vs), ChallengingMade(vs), p[k]);
      var j :| 0 <= j < |VocabKeys(vs)| && j < |ChallengingMade(vs)| && VocabKeys(vs)[j] == p[k].0
        && ChallengingMade(vs)[j] == Some(p[k].1);
      assert vs[j] in vs;
    }
  }

  lemma LongPicked(vs: seq<VocabEntry>, p: seq<(string, SpellingWord)>)
    requires forall k :: 0 <= k < |p| ==> Picked(VocabKeys(vs), LongMade(vs), p[k])
    ensures forall k :: 0 <= k < |p| ==> FromLong(vs, p[k].1) && p[k].0 == Lower(p[k].1.word)
  {
    forall k | 0 <= k < |p|
      ensures FromLong(vs, p[k].1) && p[k].0 == Lower(p[k].1.word)
    {
      assert Picked(VocabKeys(vs), LongMade(vs), p[k]);
      var j :| 0 <= j < |VocabKeys(vs)| && j < |LongMade(vs)| && VocabKeys(vs)[j] == p[k].0
        && LongMade(vs)[j] == Some(p[k].1);
      assert vs[j] in vs;
    }
  }

  /** Room left under the cap once `n` words are taken. */
  function Room(n: nat): nat
  {
    if n < MaxWords then MaxWords - n else 0
  }

  /** Priority 1 has no cap: room for every mistake. */
  function MistakePass(ms: seq<Mistake>): (r: seq<(string, SpellingWord)>)
    ensures NoDup(Firsts(r)) && |r| <= |ms|
    ensures forall k :: 0 <= k < |r| ==> Picked(MistakeKeys(ms), MistakeMade(ms), r[k])
  {
    Collect(MistakeKeys(ms), MistakeMade(ms), {}, |ms| + 1)
  }

  /** Every focus word longer than 2 characters is taken by the first pass. */
  lemma MistakeWordsTaken(ms: seq<Mistake>, m: Mistake)
    requires m in ms && |m.focusWord| > 2
    ensures Lower(m.focusWord) in Firsts(MistakePass(ms))
  {
    var j :| 0 <= j < |ms| && ms[j] == m;
    CollectComplete(MistakeKeys(ms), MistakeMade(ms), {}, |ms| + 1, j);
  }

  /** The three passes in order, each pair keyed by its lowercased word. */
  function Passes(ms: seq<Mistake>, vs: seq<VocabEntry>): (r: seq<(string, SpellingWord)>)
    ensures NoDup(Firsts(r))
    ensures forall k :: 0 <= k < |r| ==> r[k].0 == Lower(r[k].1.word) && Sourced(ms, vs, r[k].1)
    ensures forall i, j :: 0 <= i < j < |r| ==> Tier(r[i].1) <= Tier(r[j].1)
  {
    var p1 := MistakePass(ms);
    var p2 := Collect(VocabKeys(vs), ChallengingMade(vs), Elems(Firsts(p1)), Room(|p1|));
    var p3 := Collect(VocabKeys(vs), LongMade(vs), Elems(Firsts(p1 + p2)), Room(|p1 + p2|));
    MistakesPicked(ms, p1);
    ChallengingPicked(vs, p2);
    LongPicked(vs, p3);
    Join3(ms, vs, p1, p2, p3)
  }

  /** The passes joined: keys stay distinct and tiers ascend. */
  function Join3(ms: seq<Mistake>, vs: seq<VocabEntry>, p1: seq<(string, SpellingWord)>,
                 p2: seq<(string, SpellingWord)>, p3: seq<(string, SpellingWord)>): (r: seq<(string, SpellingWord)>)
    requires NoDup(Firsts(p1)) && NoDup(Firsts(p2)) && NoDup(Firsts(p3))
    requires forall k :: 0 <= k < |p2| ==> p2[k].0 !in Firsts(p1)
    requires forall k :: 0 <= k < |p3| ==> p3[k].0 !in Firsts(p1 + p2)
    requires forall k :: 0 <= k < |p1| ==> FromMistake(ms, p1[k].1) && p1[k].0 == Lower(p1[k].1.word)
    requires forall k :: 0 <= k < |p2| ==> FromChallenging(vs, p2[k].1) && p2[k].0 == Lower(p2[k].1.word)
    requires forall k :: 0 <= k < |p3| ==> FromLong(vs, p3[k].1) && p3[k].0 == Lower(p3[k].1.word)
    ensures r == p1 + p2 + p3
    ensures NoDup(Firsts(r))
    ensures forall k :: 0 <= k < |r| ==> r[k].0 == Lower(r[k].1.word) && Sourced(ms, vs, r[k].1)
    ensures forall i, j :: 0 <= i < j < |r| ==> Tier(r[i].1) <= Tier(r[j].1)
  {
    var a := p1 + p2;
    JoinKeys(p1, p2);
    JoinKeys(a, p3);
    TiersAscend(ms, vs, p1, p2, p3);
    a + p3
  }

  /** The student's focus words all come before any vocabulary word: each one longer
      than 2 characters is in the first pass, whose entries have the lowest tier. */
  lemma MistakeWordsFirst(ms: seq<Mistake>, vs: seq<VocabEntry>, m: Mistake)
    requires m in ms && |m.focusWord| > 2
    ensures exists k :: (0 <= k < |MistakePass(ms)| && Passes(ms, vs)[k].0 == Lower(m.focusWord)
      && Tier(Passes(ms, vs)[k].1) == 0)
  {
    MistakeWordsTaken(ms, m);
    var p1 := MistakePass(ms);
    var k :| 0 <= k < |p1| && Firsts(p1)[k] == Lower(m.focusWord);
    MistakesPicked(ms, p1);
    assert Passes(ms, vs)[k] == p1[k];
    assert "vocabulary"[0] != "student_mistake"[0];
  }

  lemma TiersAscend(ms: seq<Mistake>, vs: seq<VocabEntry>, p1: seq<(string, SpellingWord)>,
                    p2: seq<(string, SpellingWord)>, p3: seq<(string, SpellingWord)>)
    requires forall k :: 0 <= k < |p1| ==> FromMistake(ms, p1[k].1) && p1[k].0 == Lower(p1[k].1.word)
    requires forall k :: 0 <= k < |p2| ==> FromChallenging(vs, p2[k].1) && p2[k].0 == Lower(p2[k].1.word)
    requires forall k :: 0 <= k < |p3| ==> FromLong(vs, p3[k].1) && p3[k].0 == Lower(p3[k].1.word)
    ensures forall k :: 0 <= k < |p1 + p2 + p3| ==>
      (p1 + p2 + p3)[k].0 == Lower((p1 + p2 + p3)[k].1.word) && Sourced(ms, vs, (p1 + p2 + p3)[k].1)
    ensures forall i, j :: 0 <= i < j < |p1 + p2 + p3| ==> Tier((p1 + p2 + p3)[i].1) <= Tier((p1 + p2 + p3)[j].1)
  {
    var r := p1 + p2 + p3;
    assert "vocabulary"[0] != "student_mistake"[0] && "easy"[0] != "medium"[0];
    forall k | 0 <= k < |r|
      ensures r[k].0 == Lower(r[k].1.word) && Sourced(ms, vs, r[k].1)
      ensures Tier(r[k].1) == if k < |p1| then 0 else if k < |p1| + |p2| then 1 else 2
    {
      if k < |p1| {
        assert r[k] == p1[k];
      } else if k < |p1| + |p2| {
        assert r[k] == p2[k - |p1|];
      } else {
        assert r[k] == p3[k - |p1| - |p2|];
      }
    }
  }

  /** The lower-cased words of some entries, the keys the passes deduplicate on. */
  function WordKeys(ws: seq<SpellingWord>): (r: seq<string>)
    ensures |r| == |ws| && forall k :: 0 <= k < |r| ==> r[k] == Lower(ws[k].word)
  {
    seq(|ws|, k requires 0 <= k < |ws| => Lower(ws[k].word))
  }

  /** Keyed by their lower-cased words, the entries' words are the keys. */
  lemma KeyedWords(p: seq<(string, SpellingWord)>)
    requires forall k :: 0 <= k < |p| ==> p[k].0 == Lower(p[k].1.word)
    ensures WordKeys(Seconds(p)) == Firsts(p)
  {
  }

  /** `SpellingGenerator.generate(vocabulary, mistakes)`. */
  function Generate(vocab: seq<VocabEntry>, mistakes: seq<Mistake>): (r: seq<SpellingWord>)
    ensures |r| <= MaxWords
    ensures NoDup(WordKeys(r))
    ensures forall k :: 0 <= k < |r| ==> Sourced(mistakes, vocab, r[k])
    ensures forall i, j :: 0 <= i < j < |r| ==> Tier(r[i]) <= Tier(r[j])
  {
    var all := Passes(mistakes, vocab);
    var p := Take(all, MaxWords);
    TakeKeys(all, MaxWords);
    KeyedWords(p);
    Seconds(p)
  }
}
