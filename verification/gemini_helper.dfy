/** The rule-based paths of `GeminiHelper`: distractors for a word (a fixed table, then
    suffix rules, then word groups, then commonly confused words) and the phrase
    translation table. The language-model client is never consulted on these paths. */
module GeminiHelper {
  import opened Wrappers
  import opened Text
  import opened Seqs

  /** The distractor table, keyed by lowercased word. */
  const Pool: seq<(string, seq<string>)> := [
    ("wake", ["wakes", "waking", "woken"]),
    ("wake up", ["wakes up", "waking up", "woke up"]),
    ("eat", ["eats", "eating", "eaten"]),
    ("brush", ["brushes", "brushing", "brushed"]),
    ("read", ["reads", "reading", "readed"]),
    ("play", ["plays", "playing", "played"]),
    ("like", ["likes", "liking", "liked"]),
    ("went", ["go", "goes", "gone"]),
    ("bought", ["buy", "buys", "buyed"]),
    ("stayed", ["stay", "stays", "staying"]),
    ("cooked", ["cook", "cooks", "cooking"]),
    ("playing", ["play", "plays", "played"]),
    ("listening", ["listen", "listens", "listened"]),
    ("reading", ["read", "reads", "readed"]),
    ("waking", ["wake", "wakes", "woken"]),
    ("cooking", ["cook", "cooks", "cooked"]),
    ("eggs", ["egg", "egges", "an egg"]),
    ("teeth", ["tooth", "teeths", "tooths"]),
    ("vegetables", ["vegetable", "vegitable", "vegitables"]),
    ("days", ["day", "daies", "daily"]),
    ("people", ["person", "peoples", "persons"]),
    ("books", ["book", "bookes", "booking"]),
    ("fruits", ["fruit", "fruites", "fruity"]),
    ("a", ["an", "the", "some"]),
    ("an", ["a", "the", "any"]),
    ("the", ["a", "an", "this"]),
    ("to", ["at", "in", "for"]),
    ("at", ["in", "on", "to"]),
    ("in", ["at", "on", "into"]),
    ("for", ["to", "at", "since"]),
    ("with", ["by", "from", "along"]),
    ("comfortable", ["comfort", "comfortably", "comforted"]),
    ("sometimes", ["sometime", "some time", "always"]),
    ("yesterday", ["tomorrow", "today", "last day"]),
    ("morning", ["evening", "afternoon", "mornings"]),
    ("five", ["four", "fives", "fifth"]),
    ("three", ["two", "third", "threes"])
  ]

  /** Every table entry lists three distractors. */
  lemma PoolEntriesHaveThree()
    ensures ThreeEach(Pool)
  {
  }

  /** The word groups, in the order they are searched. */
  const Groups: seq<seq<string>> := [
    ["always", "never", "often", "sometimes", "usually"],
    ["many", "few", "some", "all", "most"],
    ["good", "bad", "nice", "great", "fine"],
    ["do", "make", "take", "get", "have"]
  ]

  const Confusions: seq<string> :=
    ["then", "than", "there", "their", "were", "where", "your", "you're", "its", "it's", "to", "too"]

  /** `s[:-n]` for a suffix of length `n` that `s` ends with. */
  function DropLast(s: string, n: nat): (r: string)
    requires n <= |s|
    ensures |r| == |s| - n
  {
    s[..|s| - n]
  }

  /** The suffix rules, tried in priority order: -ed, -ing, -s (longer than three letters),
      -ly. Each yields a base and two inflections of it; nothing when none applies. */
  function SuffixRule(w: string): (r: seq<string>)
    ensures r == [] <==>
      !EndsWith(w, "ed") && !EndsWith(w, "ing") && !(EndsWith(w, "s") && |w| > 3) && !EndsWith(w, "ly")
    ensures r != [] ==> |r| == 3
    ensures forall k :: 0 <= k < |r| ==> r[k] != w
  {
    if EndsWith(w, "ed") then
      var base := if EndsWith(w, "ied") then DropLast(w, 3) + "y" else DropLast(w, 2);
      [base, base + "s", base + "ing"]
    else if EndsWith(w, "ing") then
      var base := if EndsWith(w, "ying") then DropLast(w, 4) + "y" else DropLast(w, 3);
      [base, base + "s", base + "ed"]
    else if EndsWith(w, "s") && |w| > 3 then
      var base := if EndsWith(w, "es") then DropLast(w, 2) else DropLast(w, 1);
      assert w[|w| - 1] == "s"[0];
      assert (base + "ed")[|base + "ed"| - 1] == 'd';
      [base, base + "ing", base + "ed"]
    else if EndsWith(w, "ly") then
      var base := DropLast(w, 2);
      [base, base + "ful", base + "ness"]
    else []
  }

  /** The base each suffix rule produces rebuilds the word when the rule's ending is put
      back (with 'y' turned back into 'ied'/'ying' and the 'e' of '-es' restored). */
  lemma StemRebuilds(w: string)
    ensures EndsWith(w, "ed") && !EndsWith(w, "ied") ==> SuffixRule(w)[0] + "ed" == w
    ensures EndsWith(w, "ied") ==> DropLast(SuffixRule(w)[0], 1) + "ied" == w
    ensures !EndsWith(w, "ed") && EndsWith(w, "ing") && !EndsWith(w, "ying") ==> SuffixRule(w)[0] + "ing" == w
    ensures !EndsWith(w, "ed") && EndsWith(w, "ying") ==> DropLast(SuffixRule(w)[0], 1) + "ying" == w
    ensures !EndsWith(w, "ed") && !EndsWith(w, "ing") && |w| > 3 && EndsWith(w, "es") ==>
      SuffixRule(w)[0] + "es" == w
    ensures !EndsWith(w, "ed") && !EndsWith(w, "ing") && |w| > 3 && EndsWith(w, "s") && !EndsWith(w, "es") ==>
      SuffixRule(w)[0] + "s" == w
    ensures !EndsWith(w, "ed") && !EndsWith(w, "ing") && !(EndsWith(w, "s") && |w| > 3) && EndsWith(w, "ly") ==>
      SuffixRule(w)[0] + "ly" == w
  {
    if EndsWith(w, "ied") {
      IedStem(w);
    } else if EndsWith(w, "ed") {
      EdStem(w);
    } else if EndsWith(w, "ying") {
      YingStem(w);
    } else if EndsWith(w, "ing") {
      IngStem(w);
    } else if |w| > 3 && EndsWith(w, "es") {
      EsStem(w);
    } else if |w| > 3 && EndsWith(w, "s") {
      SStem(w);
    } else if EndsWith(w, "ly") {
      LyStem(w);
    }
  }

  /** A word is what is left after dropping its last `n` letters, followed by them. */
  lemma Rejoin(w: string, n: nat)
    requires n <= |w|
    ensures DropLast(w, n) + w[|w| - n..] == w
  {
  }

  lemma IedStem(w: string)
    requires EndsWith(w, "ied")
    ensures EndsWith(w, "ed") && DropLast(SuffixRule(w)[0], 1) + "ied" == w
  {
    assert EndsWith(w, "ed") by { assert w[|w| - 2..] == w[|w| - 3..][1..]; }
    assert DropLast(SuffixRule(w)[0], 1) == DropLast(w, 3);
    Rejoin(w, 3);
  }

  lemma EdStem(w: string)
    requires EndsWith(w, "ed") && !EndsWith(w, "ied")
    ensures SuffixRule(w)[0] + "ed" == w
  {
    Rejoin(w, 2);
  }

  lemma YingStem(w: string)
    requires !EndsWith(w, "ed") && EndsWith(w, "ying")
    ensures EndsWith(w, "ing") && DropLast(SuffixRule(w)[0], 1) + "ying" == w
  {
    assert EndsWith(w, "ing") by { assert w[|w| - 3..] == w[|w| - 4..][1..]; }
    assert DropLast(SuffixRule(w)[0], 1) == DropLast(w, 4);
    Rejoin(w, 4);
  }

  lemma IngStem(w: string)
    requires !EndsWith(w, "ed") && EndsWith(w, "ing") && !EndsWith(w, "ying")
    ensures SuffixRule(w)[0] + "ing" == w
  {
    Rejoin(w, 3);
  }

  lemma EsStem(w: string)
    requires !EndsWith(w, "ed") && !EndsWith(w, "ing") && |w| > 3 && EndsWith(w, "es")
    ensures EndsWith(w, "s") && SuffixRule(w)[0] + "es" == w
  {
    assert EndsWith(w, "s") by { assert w[|w| - 1..] == w[|w| - 2..][1..]; }
    Rejoin(w, 2);
  }

  lemma SStem(w: string)
    requires !EndsWith(w, "ed") && !EndsWith(w, "ing") && |w| > 3 && EndsWith(w, "s") && !EndsWith(w, "es")
    ensures SuffixRule(w)[0] + "s" == w
  {
    Rejoin(w, 1);
  }

  lemma LyStem(w: string)
    requires !EndsWith(w, "ed") && !EndsWith(w, "ing") && !(EndsWith(w, "s") && |w| > 3) && EndsWith(w, "ly")
    ensures SuffixRule(w)[0] + "ly" == w
  {
    Rejoin(w, 2);
  }

  /** The predicate `x != w` of the comprehensions that leave the word out. */
  function Other(w: string): string -> bool
  {
    x => x != w
  }

  /** Each group lists five different words. */
  predicate FiveDistinct(groups: seq<seq<string>>)
  {
    forall i :: 0 <= i < |groups| ==> |groups[i]| == 5 && NoDup(groups[i])
  }

  lemma GroupsDistinct()
    ensures FiveDistinct(Groups)
  {
  }

  /** The words of the first group holding `w`, other than `w`, cut to `count`; nothing
      when no group holds `w`. */
  function GroupRule(groups: seq<seq<string>>, w: string, count: nat): (r: seq<string>)
    requires FiveDistinct(groups)
    ensures |r| <= count
    ensures r != [] && count <= 4 ==> |r| == count
    ensures r == [] <==> count == 0 || forall i :: 0 <= i < |groups| ==> w !in groups[i]
    ensures forall k :: 0 <= k < |r| ==> r[k] != w
    decreases |groups|
  {
    if |groups| == 0 then []
    else if w in groups[0] then
      FilterDropsOne(groups[0], w);
      OtherLeavesOut(groups[0], w);
      Take(Filter(groups[0], Other(w)), count)
    else GroupRule(groups[1..], w, count)
  }

  /** The comprehension `[x for x in xs if x != w]` holds no `w`. */
  lemma OtherLeavesOut(xs: seq<string>, w: string)
    ensures forall k :: 0 <= k < |Filter(xs, Other(w))| ==> Filter(xs, Other(w))[k] != w
  {
    var f := Filter(xs, Other(w));
    forall k | 0 <= k < |f| ensures f[k] != w {
      assert f[k] in f;
      assert Other(w)(f[k]);
    }
  }

  /** Leaving one value out of a duplicate-free list removes at most one element. */
  lemma {:induction false} FilterDropsOne(xs: seq<string>, w: string)
    requires NoDup(xs)
    ensures |Filter(xs, Other(w))| >= |xs| - 1
    decreases |xs|
  {
    if |xs| > 0 {
      assert NoDup(xs[1..]) by {
        forall i, j | 0 <= i < j < |xs[1..]| ensures xs[1..][i] != xs[1..][j] {
          assert xs[1..][i] == xs[i + 1] && xs[1..][j] == xs[j + 1];
        }
      }
      if xs[0] == w {
        assert forall x :: x in xs[1..] ==> Other(w)(x) by {
          forall x | x in xs[1..] ensures x != w {
            var j :| 0 <= j < |xs[1..]| && xs[1..][j] == x;
            assert xs[j + 1] == x;
          }
        }
        FilterAll(xs[1..], Other(w));
      } else {
        FilterDropsOne(xs[1..], w);
      }
    }
  }

  /** The rules for a word the table does not know: the suffix rule, else the word's
      group, else the commonly confused words, leaving `w` itself out and cut to `count`. */
  function RuleBased(w: string, count: nat): (r: seq<string>)
    ensures |r| <= count
    ensures count <= 3 ==> |r| == count
    ensures forall k :: 0 <= k < |r| ==> r[k] != w
  {
    GroupsDistinct();
    ConfusionsDistinct();
    RuleBasedWith(Groups, Confusions, w, count)
  }

  function RuleBasedWith(groups: seq<seq<string>>, confusions: seq<string>, w: string, count: nat): (r: seq<string>)
    requires FiveDistinct(groups) && NoDup(confusions) && |confusions| >= 4
    ensures |r| <= count
    ensures count <= 3 ==> |r| == count
    ensures forall k :: 0 <= k < |r| ==> r[k] != w
  {
    var generated := SuffixRule(w);
    var generated := if generated == [] then GroupRule(groups, w, count) else generated;
    if generated == [] then
      FilterDropsOne(confusions, w);
      OtherLeavesOut(confusions, w);
      Take(Filter(confusions, Other(w)), count)
    else Take(generated, count)
  }

  /** Every entry of a distractor table lists three distractors. */
  predicate ThreeEach(pool: seq<(string, seq<string>)>)
  {
    forall k :: 0 <= k < |pool| ==> |pool[k].1| == 3
  }

  /** `_fallback_distractors(correct_word, count)`; `draws` drives the shuffle of a table hit. */
  function Fallback(word: string, count: nat, draws: seq<nat>): (r: seq<string>)
    ensures |r| <= count
    ensures count <= 3 ==> |r| == count
    ensures Lookup(Pool, Lower(word)).Some? ==>
      multiset(r) == multiset(Take(Lookup(Pool, Lower(word)).value, count))
    ensures Lookup(Pool, Lower(word)).None? ==> Lower(word) !in r
  {
    PoolEntriesHaveThree();
    FallbackWith(Pool, word, count, draws)
  }

  function FallbackWith(pool: seq<(string, seq<string>)>, word: string, count: nat, draws: seq<nat>): (r: seq<string>)
    requires ThreeEach(pool)
    ensures |r| <= count
    ensures count <= 3 ==> |r| == count
    ensures Lookup(pool, Lower(word)).Some? ==>
      multiset(r) == multiset(Take(Lookup(pool, Lower(word)).value, count))
    ensures Lookup(pool, Lower(word)).None? ==> Lower(word) !in r
  {
    match Lookup(pool, Lower(word))
    case Some(entry) => Shuffle(Take(entry, count), draws)
    case None => RuleBased(Lower(word), count)
  }

  lemma ConfusionsDistinct()
    ensures NoDup(Confusions)
  {
  }

  /** `generate_distractors(correct_word, context, count)`: the context plays no part. */
  function GenerateDistractors(word: string, context: string, count: nat, draws: seq<nat>): (r: seq<string>)
    ensures |r| <= count
    ensures count <= 3 ==> |r| == count
    ensures Lookup(Pool, Lower(word)).None? ==> Lower(word) !in r
  {
    Fallback(word, count, draws)
  }

  /** The same word gives the same distractors whatever its context. */
  lemma ContextIgnored(word: string, c1: string, c2: string, count: nat, draws: seq<nat>)
    ensures GenerateDistractors(word, c1, count, draws) == GenerateDistractors(word, c2, count, draws)
  {
  }

  /** The translation table, keyed by lowercased phrase. */
  const Translations: seq<(string, string)> := [
    ("wake up", "जागना (jaagna)"),
    ("breakfast", "नाश्ता (naashta)"),
    ("bread", "रोटी (roti)"),
    ("eggs", "अंडे (ande)"),
    ("teeth", "दांत (daant)"),
    ("football", "फुटबॉल"),
    ("music", "संगीत (sangeet)"),
    ("books", "किताबें (kitaaben)"),
    ("family", "परिवार (parivaar)"),
    ("father", "पिता (pita)"),
    ("mother", "माता (maata)"),
    ("engineer", "इंजीनियर"),
    ("teacher", "शिक्षक (shikshak)"),
    ("market", "बाज़ार (bazaar)"),
    ("vegetables", "सब्जियां (sabziyaan)"),
    ("fruits", "फल (phal)"),
    ("yesterday", "कल (kal)"),
    ("hotel", "होटल"),
    ("comfortable", "आरामदायक (aaraamdaayak)"),
    ("sometimes", "कभी-कभी (kabhi-kabhi)")
  ]

  lemma TranslationsNonEmpty()
    ensures forall k :: 0 <= k < |Translations| ==> Translations[k].1 != ""
  {
  }

  /** `translate_phrase(phrase)` over a table: the entry for the lowercased phrase, else
      the phrase in square brackets. */
  function TranslateWith(phrase: string, table: seq<(string, string)>): (r: string)
    ensures Lookup(table, Lower(phrase)).None? ==> r == "[" + phrase + "]"
    ensures (forall k :: 0 <= k < |table| ==> table[k].1 != "") ==> r != ""
  {
    Lookup(table, Lower(phrase)).GetOr("[" + phrase + "]")
  }

  /** `translate_phrase(phrase)` over the source's table: never empty. */
  function TranslatePhrase(phrase: string): (r: string)
    ensures r != ""
    ensures Lookup(Translations, Lower(phrase)).None? ==> r == "[" + phrase + "]"
  {
    TranslationsNonEmpty();
    TranslateWith(phrase, Translations)
  }

  /** Lookup ignores case: phrases that differ only in letter case translate alike when
      the table knows them. */
  lemma TranslateIgnoresCase(p: string, q: string)
    requires Lower(p) == Lower(q) && Lookup(Translations, Lower(p)).Some?
    ensures TranslatePhrase(p) == TranslatePhrase(q)
  {
  }
}
