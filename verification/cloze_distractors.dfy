/** `AdvancedClozeGenerator._generate_distractors`: three distractors for a blanked word,
    from suffix variants, a small table of confusable words and a generic top-up list. */
module ClozeDistractors {
  import opened Wrappers
  import opened Text
  import opened Seqs

  // ------------------------------------------------------------ distractors

  /** `set.add`, with the set kept as a duplicate-free sequence in insertion order. */
  function Add(d: seq<string>, x: string): (r: seq<string>)
    ensures x in r && forall y :: y in r <==> y in d || y == x
    ensures NoDup(d) ==> NoDup(r)
    ensures |r| == if x in d then |d| else |d| + 1
    ensures x in d ==> r == d
  {
    if x in d then d else d + [x]
  }

  /** `set.update(xs)` */
  function AddAll(d: seq<string>, xs: seq<string>): (r: seq<string>)
    ensures forall y :: y in r <==> y in d || y in xs
    ensures NoDup(d) ==> NoDup(r)
    ensures |r| <= |d| + |xs|
    decreases |xs|
  {
    if |xs| == 0 then d else AddAll(Add(d, xs[0]), xs[1..])
  }

  /** The suffix rule for cleaned words of six or more characters. */
  function SuffixForms(clean: string): (r: seq<string>)
    ensures |r| <= 2 && NoDup(r) && clean !in r
  {
    if |clean| < 6 then []
    else if EndsWith(clean, "ing") then
      var stem := clean[..|clean| - 3];
      assert (stem + "ed") != (stem + "ion") by { assert |stem + "ed"| != |stem + "ion"|; }
      assert (stem + "ion") != clean by { assert (stem + "ion")[|clean| - 1] != clean[|clean| - 1]; }
      [stem + "ed", stem + "ion"]
    else if EndsWith(clean, "ed") then [clean[..|clean| - 2] + "ing"]
    else if EndsWith(clean, "tion") then [clean[..|clean| - 4] + "te"]
    else []
  }

  /** The confusable table; each entry's forms sit in a constant of their own. */
  const Confusables: seq<(string, seq<string>)> := [
    ("affect", AffectForms), ("accept", AcceptForms), ("advice", AdviceForms),
    ("complement", ComplementForms), ("principal", PrincipalForms)]
  const AffectForms: seq<string> := ["effect", "infect", "defect"]
  const AcceptForms: seq<string> := ["except", "expect", "adapt"]
  const AdviceForms: seq<string> := ["advise", "device", "devise"]
  const ComplementForms: seq<string> := ["compliment", "implement", "supplement"]
  const PrincipalForms: seq<string> := ["principle", "practical", "essential"]

  const Generic: seq<string> := ["complete", "consider", "continue", "develop", "establish",
    "maintain", "provide", "require", "support", "understand"]

  /** `skip_words`: words never blanked. */
  const SkipWords: set<string> := {"the", "a", "an", "is", "are", "was", "were", "be", "been",
    "have", "has", "had", "do", "does", "did", "will", "would",
    "can", "could", "should", "may", "might", "must", "i", "you",
    "he", "she", "it", "we", "they", "this", "that", "these", "those"}

  /** The generator's word lists: the two `_generate_distractors` draws on and the words it
      never blanks. The generator's own lists are `SourceTables`; the rest of the model takes
      them as a parameter, so that proofs about items need not carry the lists' contents. */
  datatype WordTables = WordTables(confusables: seq<(string, seq<string>)>, generic: seq<string>, skip: set<string>)

  const SourceTables: WordTables := WordTables(Confusables, Generic, SkipWords)

  predicate AllClean(ws: seq<string>)
  {
    forall g :: g in ws ==> IsCleanWord(g)
  }

  /** Every confusable form is clean and differs from its key. */
  predicate ConfusablesClean(cs: seq<(string, seq<string>)>)
  {
    forall k, x :: 0 <= k < |cs| && x in cs[k].1 ==> IsCleanWord(x) && x != cs[k].0
  }

  predicate TablesClean(t: WordTables)
  {
    AllClean(t.generic) && ConfusablesClean(t.confusables)
  }

  /** The generator's lists hold clean words only. */
  lemma SourceTablesClean()
    ensures TablesClean(SourceTables)
  {
    GenericListClean();
    forall k, x | 0 <= k < |Confusables| && x in Confusables[k].1
      ensures IsCleanWord(x) && x != Confusables[k].0
    {
      ConfusableForm(k, x);
    }
  }

  /** The distractors present before the generic top-up: suffix forms, then the first two
      confusables of a listed word. */
  function Seeds(clean: string, cs: seq<(string, seq<string>)>): (r: seq<string>)
    ensures NoDup(r)
    ensures forall y :: y in r <==> (y in SuffixForms(clean)
      || (Lookup(cs, clean).Some? && y in Take(Lookup(cs, clean).value, 2)))
  {
    match Lookup(cs, clean)
    case None => AddAll(SuffixForms(clean), [])
    case Some(c) => AddAll(SuffixForms(clean), Take(c, 2))
  }

  /** A generic word usable for `clean`: different, and at most two characters shorter. */
  predicate Usable(g: string, clean: string) { g != clean && |g| >= |clean| - 2 }

  /** One pass of the `for g in generic` loop, which stops once three distractors exist. */
  function FillPass(d: seq<string>, clean: string, gs: seq<string>): (r: seq<string>)
    ensures forall y :: y in d ==> y in r
    ensures forall y :: y in r ==> y in d || (y in gs && Usable(y, clean))
    ensures NoDup(d) ==> NoDup(r)
    ensures |d| <= |r| && (|d| < 3 ==> |r| <= 3)
    decreases |gs|
  {
    if |gs| == 0 then d
    else if Usable(gs[0], clean) then
      var d2 := Add(d, gs[0]);
      if |d2| >= 3 then d2 else FillPass(d2, clean, gs[1..])
    else FillPass(d, clean, gs[1..])
  }

  /** A pass that ends below three never met its break, so it added every usable word. */
  lemma {:induction false} FillPassCovers(d: seq<string>, clean: string, gs: seq<string>)
    requires |FillPass(d, clean, gs)| < 3
    ensures forall g :: g in gs && Usable(g, clean) ==> g in FillPass(d, clean, gs)
    decreases |gs|
  {
    if |gs| > 0 {
      if Usable(gs[0], clean) {
        FillPassCovers(Add(d, gs[0]), clean, gs[1..]);
      } else {
        FillPassCovers(d, clean, gs[1..]);
      }
    }
  }

  /** A pass over words that are all present already changes nothing while below three. */
  lemma {:induction false} FillPassStable(e: seq<string>, clean: string, gs: seq<string>)
    requires |e| < 3
    requires forall g :: g in gs && Usable(g, clean) ==> g in e
    ensures FillPass(e, clean, gs) == e
    decreases |gs|
  {
    if |gs| > 0 {
      FillPassStable(e, clean, gs[1..]);
    }
  }

  /** The `while len(distractors) < 3` loop as written over the generic words `gs`, run
      for at most `fuel` passes: None when it has not finished by then. */
  function FillLoop(d: seq<string>, clean: string, gs: seq<string>, fuel: nat): (r: Option<seq<string>>)
    decreases fuel
  {
    if |d| >= 3 then Some(d)
    else if fuel == 0 then None
    else FillLoop(FillPass(d, clean, gs), clean, gs, fuel - 1)
  }

  /** The top-up as evidently intended: at most one pass over the generic words. */
  function Fill(d: seq<string>, clean: string, gs: seq<string>): (r: seq<string>)
    ensures forall y :: y in d ==> y in r
    ensures forall y :: y in r ==> y in d || (y in gs && Usable(y, clean))
    ensures NoDup(d) ==> NoDup(r)
    ensures |d| < 3 ==> |r| <= 3
  {
    if |d| >= 3 then d else FillPass(d, clean, gs)
  }

  /** Whenever the loop as written finishes, it gives the single-pass result. */
  lemma FillLoopAgrees(d: seq<string>, clean: string, gs: seq<string>, fuel: nat)
    requires FillLoop(d, clean, gs, fuel).Some?
    ensures FillLoop(d, clean, gs, fuel).value == Fill(d, clean, gs)
  {
    if |d| < 3 {
      var e := FillPass(d, clean, gs);
      if |e| < 3 {
        FillPassCovers(d, clean, gs);
        FillLoopStuck(e, clean, gs, fuel - 1);
      }
    }
  }

  /** Below three after a pass, the loop as written never finishes. */
  lemma {:induction false} FillLoopStuck(e: seq<string>, clean: string, gs: seq<string>, fuel: nat)
    requires |e| < 3
    requires forall g :: g in gs && Usable(g, clean) ==> g in e
    ensures FillLoop(e, clean, gs, fuel) == None
    decreases fuel
  {
    if fuel > 0 {
      FillPassStable(e, clean, gs);
      FillLoopStuck(e, clean, gs, fuel - 1);
    }
  }

  /** When one pass stays below three, the loop as written never finishes. */
  lemma FillLoopHangs(d: seq<string>, clean: string, gs: seq<string>, fuel: nat)
    requires |Fill(d, clean, gs)| < 3
    ensures FillLoop(d, clean, gs, fuel) == None
  {
    var e := FillPass(d, clean, gs);
    FillPassCovers(d, clean, gs);
    if fuel > 0 {
      FillLoopStuck(e, clean, gs, fuel - 1);
    }
  }

  /** "comfortable" has no suffix or confusable distractors, and only "establish" and
      "understand" are long enough: the loop as written never ends for it. */
  lemma ComfortableHangs(fuel: nat)
    ensures Seeds("comfortable", Confusables) == []
    ensures FillLoop([], "comfortable", Generic, fuel) == None
  {
    ComfortableNoSeeds();
    ComfortableFillShort();
    FillLoopHangs([], "comfortable", Generic, fuel);
  }

  lemma ComfortableNoSeeds()
    ensures Seeds("comfortable", Confusables) == []
  {
    var w := "comfortable";
    assert !EndsWith(w, "ing") && !EndsWith(w, "ed") && !EndsWith(w, "tion");
    assert Lookup(Confusables, w) == None by {
      assert forall k :: 0 <= k < |Confusables| ==> |Confusables[k].0| != |w|;
    }
  }

  lemma ComfortableFillShort()
    ensures |Fill([], "comfortable", Generic)| < 3
  {
    var e := Fill([], "comfortable", Generic);
    forall y | y in e
      ensures y == "establish" || y == "understand"
    {
      LongGeneric(y);
    }
    AtMostTwo(e, "establish", "understand");
  }

  lemma LongGeneric(g: string)
    requires g in Generic && |g| >= 9
    ensures g == "establish" || g == "understand"
  {
  }

  lemma AtMostTwo(xs: seq<string>, a: string, b: string)
    requires NoDup(xs) && forall x :: x in xs ==> x == a || x == b
    ensures |xs| <= 2
  {
    FirstThree(xs);
  }

  lemma FirstThree(xs: seq<string>)
    ensures |xs| > 2 ==> xs[0] in xs && xs[1] in xs && xs[2] in xs
  {
  }

  /** Suffix forms are clean words: a piece of the cleaned word and a lower-case ending. */
  lemma SuffixFormsClean(clean: string)
    requires IsCleanWord(clean)
    ensures forall x :: x in SuffixForms(clean) ==> IsCleanWord(x)
  {
    LettersAreClean("ed");
    LettersAreClean("ion");
    LettersAreClean("ing");
    LettersAreClean("te");
  }

  /** The confusable forms are clean words, none equal to its key. */
  lemma ConfusableForm(k: nat, x: string)
    requires k < |Confusables| && x in Confusables[k].1
    ensures IsCleanWord(x) && x != Confusables[k].0
  {
    if k == 0 { AffectForm(x); }
    else if k == 1 { AcceptForm(x); }
    else if k == 2 { AdviceForm(x); }
    else if k == 3 { ComplementForm(x); }
    else { PrincipalForm(x); }
  }

  lemma AffectForm(x: string) requires x in AffectForms ensures IsCleanWord(x) && x != "affect" {}
  lemma AcceptForm(x: string) requires x in AcceptForms ensures IsCleanWord(x) && x != "accept" {}
  lemma AdviceForm(x: string) requires x in AdviceForms ensures IsCleanWord(x) && x != "advice" {}
  lemma ComplementForm(x: string) requires x in ComplementForms ensures IsCleanWord(x) && x != "complement" {}
  lemma PrincipalForm(x: string) requires x in PrincipalForms ensures IsCleanWord(x) && x != "principal" {}

  lemma GenericWord(g: string)
    requires g in Generic
    ensures IsCleanWord(g)
  {
  }

  /** The seeds are clean words other than the word itself. */
  lemma SeedsClean(clean: string, cs: seq<(string, seq<string>)>)
    requires IsCleanWord(clean) && ConfusablesClean(cs)
    ensures clean !in Seeds(clean, cs)
    ensures forall x :: x in Seeds(clean, cs) ==> IsCleanWord(x)
  {
    SuffixFormsClean(clean);
    match Lookup(cs, clean)
    case None =>
    case Some(c) =>
      var k :| 0 <= k < |cs| && cs[k].0 == clean && c == cs[k].1;
      forall x | x in Take(c, 2)
        ensures IsCleanWord(x) && x != clean
      {
        assert x in cs[k].1;
      }
  }

  lemma GenericListClean()
    ensures AllClean(Generic)
  {
    forall g | g in Generic
      ensures IsCleanWord(g)
    {
      GenericWord(g);
    }
  }

  /** Over clean lists, the top-up keeps clean distractors, none equal to the word. */
  lemma FillClean(clean: string, t: WordTables)
    requires IsCleanWord(clean) && TablesClean(t)
    ensures clean !in Fill(Seeds(clean, t.confusables), clean, t.generic)
    ensures forall x :: x in Fill(Seeds(clean, t.confusables), clean, t.generic) ==> IsCleanWord(x)
  {
    SeedsClean(clean, t.confusables);
  }

  /** `_generate_distractors`: the cleaned word and at most three of its distractors, in
      the set's arbitrary order `order`, shuffled by `draws`. */
  function Distractors(word: string, t: WordTables, order: seq<nat>, draws: seq<nat>): (r: seq<string>)
    requires TablesClean(t)
    ensures CleanWord(word) in r
    ensures 1 <= |r| <= 4
    ensures var clean := CleanWord(word); var d := Fill(Seeds(clean, t.confusables), clean, t.generic);
      NoDup([clean] + d) && forall x :: x in r ==> x == clean || x in d
    ensures forall x :: x in r ==> IsCleanWord(x)
  {
    var clean := CleanWord(word);
    var d := Fill(Seeds(clean, t.confusables), clean, t.generic);
    FillClean(clean, t);
    Pick(clean, d, order, draws);
    Shuffle([clean] + Take(Shuffle(d, order), 3), draws)
  }

  /** The word among three of its distractors, shuffled. */
  lemma Pick(clean: string, d: seq<string>, order: seq<nat>, draws: seq<nat>)
    requires clean !in d && NoDup(d)
    ensures NoDup([clean] + d)
    ensures var r := Shuffle([clean] + Take(Shuffle(d, order), 3), draws);
      clean in r && 1 <= |r| <= 4 && forall x :: x in r ==> x == clean || x in d
  {
    TopThree(d, order);
    ShuffledOptions(clean, Take(Shuffle(d, order), 3), draws);
    NoDupConcat([clean], d);
  }

  /** The first three of a shuffled list are members of it. */
  lemma TopThree(d: seq<string>, order: seq<nat>)
    ensures |Take(Shuffle(d, order), 3)| <= 3
    ensures forall x :: x in Take(Shuffle(d, order), 3) ==> x in d
  {
    ShuffleMembers(d, order);
  }

  /** A word shuffled in among some listed options. */
  lemma ShuffledOptions(clean: string, listed: seq<string>, draws: seq<nat>)
    ensures var r := Shuffle([clean] + listed, draws);
      clean in r && 1 <= |r| == |listed| + 1 && forall x :: x in r ==> x == clean || x in listed
  {
    ShuffleMembers([clean] + listed, draws);
  }
}
