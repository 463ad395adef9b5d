/** `SentenceExtractor.extract`: practice sentences from three sources in priority order —
    the correct sides of correction pairs, standalone teacher corrections, and student lines
    that were not corrected — with exact-text de-duplication through one `seen` set. */
module SentenceExtractor {
  import opened Wrappers
  import opened Text
  import opened Seqs
  import opened TextProcessing

  // ------------------------------------------------------ standalone patterns

  /** The straight quotes of the class `["']`. */
  const Quotes: set<char> := {'"', '\''}

  /** The four standalone-correction patterns, in the order they are tried. */
  datatype StandalonePattern =
    | QuotedCorrection   // [Cc]orrect(?:ion)?[:]?\s*["']([^"']+)["']
    | TrailingCorrection // [Cc]orrect(?:ion)?:\s*([^.]+)\.?$
    | QuotedSentenceIs   // The correct sentence is\s*["']([^"']+)["']
    | QuotedBetter       // [Bb]etter:\s*["']([^"']+)["']

  const StandalonePatterns: seq<StandalonePattern> :=
    [QuotedCorrection, TrailingCorrection, QuotedSentenceIs, QuotedBetter]

  /** `\s*["']([^"']+)["']` from `j`: the group is the whole run of non-quote characters
      after the opening quote, and it must be closed by a quote. Backtracking cannot give
      another group: a shorter run would be followed by a non-quote character. */
  function QuotedGroup(t: string, j: nat): (r: Option<string>)
    requires j <= |t|
    ensures r.Some? ==> r.value != "" && NoneIn(r.value, Quotes)
  {
    var q := j + Span(t, j, Whitespace, true);
    if q < |t| && t[q] in Quotes then
      var n := Span(t, q + 1, Quotes, false);
      if n > 0 && q + 1 + n < |t| then Some(t[q + 1..q + 1 + n]) else None
    else None
  }

  /** The part of `t[j..]` that `\s*([^.]+)\.?$` has to cover with `\s*([^.]+)`: the rest of
      the text without one final '.'. */
  function TrailingBody(t: string, j: nat): (x: string)
    requires j <= |t|
  {
    if j < |t| && t[|t| - 1] == '.' then t[j..|t| - 1] else t[j..]
  }

  /** `\s*([^.]+)\.?$` from `j`. It matches exactly when the body is non-empty and free of
      '.'; the greedy `\s*` leaves the group everything after the leading whitespace, or
      gives back its last whitespace character when nothing else is left. */
  function TrailingGroup(t: string, j: nat): (r: Option<string>)
    requires j <= |t|
    ensures r.Some? <==> TrailingBody(t, j) != "" && '.' !in TrailingBody(t, j)
    ensures r.Some? ==> r.value != "" && '.' !in r.value
  {
    var x := TrailingBody(t, j);
    if x == "" || '.' in x then None
    else
      var w := LeadLen(x, Whitespace);
      if w < |x| then Some(x[w..]) else Some(x[|x| - 1..])
  }

  /** `[Cc]orrect` at `i`: the index after it. */
  function CorrectWord(t: string, i: nat): (r: Option<nat>)
    requires i <= |t|
    ensures r.Some? ==> i < r.value <= |t|
  {
    if i < |t| && t[i] in {'C', 'c'} then Lit(t, i + 1, "orrect") else None
  }

  /** The capture group of pattern `p` when its match starts at `i`. */
  function GroupAt(p: StandalonePattern, t: string, i: nat): (r: Option<string>)
    requires i <= |t|
    ensures r.Some? ==> r.value != ""
  {
    match p
    case QuotedCorrection =>
      var j :- CorrectWord(t, i);
      QuotedGroup(t, OptLit(t, OptLit(t, j, "ion"), ":"))
    case TrailingCorrection =>
      var j :- CorrectWord(t, i);
      var k :- Lit(t, OptLit(t, j, "ion"), ":");
      TrailingGroup(t, k)
    case QuotedSentenceIs =>
      var j :- Lit(t, i, "The correct sentence is");
      QuotedGroup(t, j)
    case QuotedBetter =>
      if i < |t| && t[i] in {'B', 'b'} then
        var j :- Lit(t, i + 1, "etter:");
        QuotedGroup(t, j)
      else None
  }

  /** `re.search(p, t).group(1)`: the group of the leftmost matching start. */
  function SearchGroup(p: StandalonePattern, t: string): (r: Option<string>)
    ensures r.Some? ==> r.value != ""
  {
    FirstSome(seq(|t| + 1, i requires 0 <= i <= |t| => GroupAt(p, t, i)))
  }

  /** The pattern loop with its `break`: the stripped group of the first pattern that
      matches, even when that group strips to nothing. */
  function Standalone(line: string): (r: Option<string>)
    ensures r.Some? ==> Trimmed(r.value, Whitespace)
  {
    var found :- FirstSome(seq(|StandalonePatterns|, k requires 0 <= k < |StandalonePatterns| =>
      SearchGroup(StandalonePatterns[k], line)));
    Some(Strip(found))
  }

  /** The trailing pattern at a start: it matches exactly when `[Cc]orrect(?:ion)?:` is there
      and the rest, without one final '.', is non-empty and free of '.'; the sentence it
      yields is that rest, stripped. */
  lemma TrailingMeaning(t: string, i: nat)
    requires i <= |t|
    ensures GroupAt(TrailingCorrection, t, i).Some? <==>
      (CorrectWord(t, i).Some? && Lit(t, OptLit(t, CorrectWord(t, i).value, "ion"), ":").Some?
        && var k := Lit(t, OptLit(t, CorrectWord(t, i).value, "ion"), ":").value;
        TrailingBody(t, k) != "" && '.' !in TrailingBody(t, k))
    ensures GroupAt(TrailingCorrection, t, i).Some? ==>
      var k := Lit(t, OptLit(t, CorrectWord(t, i).value, "ion"), ":").value;
      Strip(GroupAt(TrailingCorrection, t, i).value) == Strip(TrailingBody(t, k))
  {
    if GroupAt(TrailingCorrection, t, i).Some? {
      var k := Lit(t, OptLit(t, CorrectWord(t, i).value, "ion"), ":").value;
      StripOfTrailing(TrailingBody(t, k));
    }
  }

  /** Stripping the group `TrailingGroup` picks out of a body equals stripping the body. */
  lemma StripOfTrailing(x: string)
    requires x != ""
    ensures var w := LeadLen(x, Whitespace);
      Strip(if w < |x| then x[w..] else x[|x| - 1..]) == Strip(x)
  {
    var w := LeadLen(x, Whitespace);
    if w < |x| {
      StripDropsLead(x, w);
    } else {
      AllSpaceStrips(x);
      AllSpaceStrips(x[|x| - 1..]);
    }
  }

  lemma StripDropsLead(x: string, w: nat)
    requires w == LeadLen(x, Whitespace) && w < |x|
    ensures Strip(x[w..]) == Strip(x)
  {
    StripSetDropsLead(x, Whitespace, w);
  }

  lemma StripSetDropsLead(x: string, cs: set<char>, w: nat)
    requires w == LeadLen(x, cs) && w < |x|
    ensures StripSet(x[w..], cs) == StripSet(x, cs)
  {
    var y := x[w..];
    assert LeadLen(y, cs) == 0;
    assert y[0..] == y;
    var b := TrailLen(y, cs);
    assert y[..|y| - b] == x[w..|x| - b];
  }

  lemma {:induction false} LeadLenSkip(x: string, w: nat)
    requires w <= |x|
    requires forall k :: 0 <= k < w ==> x[k] in Whitespace
    ensures LeadLen(x, Whitespace) == w + LeadLen(x[w..], Whitespace)
    decreases w
  {
    if w > 0 {
      assert x[1..][w - 1..] == x[w..];
      LeadLenSkip(x[1..], w - 1);
    } else {
      assert x[0..] == x;
    }
  }

  /** A string of whitespace strips to nothing. */
  lemma AllSpaceStrips(x: string)
    requires forall k :: 0 <= k < |x| ==> x[k] in Whitespace
    ensures Strip(x) == ""
  {
    LeadLenSkip(x, |x|);
  }

  /** Inverse of writing a correction in quotes: `Correction: "s"` gives back `s`, stripped,
      for every non-empty `s` without a quote character. */
  lemma QuotedRoundTrip(s: string)
    requires s != "" && NoneIn(s, Quotes)
    ensures Standalone("Correction: \"" + s + "\"") == Some(Strip(s))
  {
    var t := "Correction: \"" + s + "\"";
    QuotedHead(s);
    QuotedBody(s);
    assert GroupAt(QuotedCorrection, t, 0) == Some(s);
    SearchAtStart(QuotedCorrection, t, s);
    FirstPatternDecides(t, s);
  }

  /** `Correction:` opens the text, and the optional literals take it up to index 11. */
  lemma QuotedHead(s: string)
    ensures var t := "Correction: \"" + s + "\"";
      CorrectWord(t, 0) == Some(7) && OptLit(t, OptLit(t, 7, "ion"), ":") == 11
  {
    var t := "Correction: \"" + s + "\"";
    var head := "Correction: \"";
    assert t[..|head|] == head;
    assert t[1..7] == head[1..7] == "orrect";
    assert t[7..10] == head[7..10] == "ion";
    assert t[10..11] == head[10..11] == ":";
  }

  /** After the colon, one blank and the opening quote, the group is `s` up to the closing
      quote. */
  lemma QuotedBody(s: string)
    requires s != "" && NoneIn(s, Quotes)
    ensures var t := "Correction: \"" + s + "\"";
      QuotedGroup(t, 11) == Some(s)
  {
    var t := "Correction: \"" + s + "\"";
    assert t[11] == ' ' && t[12] == '"';
    assert Span(t, 12, Whitespace, true) == 0;
    assert Span(t, 11, Whitespace, true) == 1;
    SpanOverRun(t, 13, s);
    assert t[13..13 + |s|] == s;
  }

  /** A pattern matching at the very start is the first match of the search. */
  lemma SearchAtStart(p: StandalonePattern, t: string, g: string)
    requires GroupAt(p, t, 0) == Some(g)
    ensures SearchGroup(p, t) == Some(g)
  {
    var attempts := seq(|t| + 1, i requires 0 <= i <= |t| => GroupAt(p, t, i));
    assert attempts[0] == Some(g);
  }

  /** When the first pattern matches, its stripped group is the standalone correction. */
  lemma FirstPatternDecides(t: string, g: string)
    requires SearchGroup(QuotedCorrection, t) == Some(g)
    ensures Standalone(t) == Some(Strip(g))
  {
    var found := seq(|StandalonePatterns|, k requires 0 <= k < |StandalonePatterns| =>
      SearchGroup(StandalonePatterns[k], t));
    assert found[0] == Some(g);
  }

  /** The run of non-quote characters from `j` covers `s` exactly when `s` is laid out there
      and followed by a quote. */
  lemma {:induction false} SpanOverRun(t: string, j: nat, s: string)
    requires j + |s| < |t| && t[j..j + |s|] == s && NoneIn(s, Quotes) && t[j + |s|] in Quotes
    ensures Span(t, j, Quotes, false) == |s|
    decreases |s|
  {
    if |s| > 0 {
      assert t[j + 1..j + 1 + |s[1..]|] == s[1..];
      SpanOverRun(t, j + 1, s[1..]);
    }
  }

  // ---------------------------------------------------------------- phases

  /** A practice sentence; the text lives under the key `sentence`. */
  datatype PracticeSentence = PracticeSentence(sentence: string, source: string, qualityScore: nat, difficulty: string)

  /** The `seen`-set loop: each candidate not yet seen is emitted and becomes seen. */
  function Emit(xs: seq<string>, seen: set<string>): (r: seq<string>)
    ensures NoDup(r)
    ensures forall x :: x in r <==> x in xs && x !in seen
    decreases |xs|
  {
    if |xs| == 0 then []
    else if xs[0] in seen then Emit(xs[1..], seen)
    else [xs[0]] + Emit(xs[1..], seen + {xs[0]})
  }

  /** Phase 1 candidates: the correct side of every pair, in order. */
  function CorrectSides(cs: seq<Correction>): (r: seq<string>)
    ensures |r| == |cs| && forall k :: 0 <= k < |cs| ==> r[k] == cs[k].correct
  {
    seq(|cs|, k requires 0 <= k < |cs| => cs[k].correct)
  }

  /** Phase 1 pre-filter of phase 2: the incorrect side of every pair. */
  function IncorrectSides(cs: seq<Correction>): (r: seq<string>)
    ensures |r| == |cs| && forall k :: 0 <= k < |cs| ==> r[k] == cs[k].incorrect
  {
    seq(|cs|, k requires 0 <= k < |cs| => cs[k].incorrect)
  }

  /** Phase 1.5 candidates: the non-empty standalone corrections of the teacher lines. */
  function StandaloneCandidates(lines: seq<string>): (r: seq<string>)
    ensures forall x :: x in r ==> x != "" && exists k :: 0 <= k < |lines| && Standalone(lines[k]) == Some(x)
    decreases |lines|
  {
    if |lines| == 0 then []
    else
      var rest := StandaloneCandidates(lines[1..]);
      assert forall x :: x in rest ==> exists k :: 0 <= k < |lines| && Standalone(lines[k]) == Some(x) by {
        forall x | x in rest
          ensures exists k :: 0 <= k < |lines| && Standalone(lines[k]) == Some(x)
        {
          var k :| 0 <= k < |lines[1..]| && Standalone(lines[1..][k]) == Some(x);
          assert Standalone(lines[k + 1]) == Some(x);
        }
      }
      match Standalone(lines[0])
      case Some(c) => if c != "" then [c] + rest else rest
      case None => rest
  }

  /** Phase 2 candidates: student lines that are not the incorrect side of any pair. */
  function StudentCandidates(lines: seq<string>, incorrect: seq<string>): (r: seq<string>)
    ensures forall x :: x in r <==> x in lines && x !in incorrect
    decreases |lines|
  {
    if |lines| == 0 then []
    else if lines[0] !in incorrect then [lines[0]] + StudentCandidates(lines[1..], incorrect)
    else StudentCandidates(lines[1..], incorrect)
  }

  /** The records of one source. */
  function Tag(xs: seq<string>, source: string, score: nat): (r: seq<PracticeSentence>)
    ensures |r| == |xs|
    ensures forall k :: 0 <= k < |r| ==> r[k] == PracticeSentence(xs[k], source, score, "beginner")
  {
    seq(|xs|, k requires 0 <= k < |xs| => PracticeSentence(xs[k], source, score, "beginner"))
  }

  /** The three emitted runs: correction pairs, then standalone corrections, then student lines. */
  datatype Runs = Runs(pairs: seq<string>, standalone: seq<string>, students: seq<string>)

  function Phases(transcript: string): (p: Runs)
    ensures NoDup(p.pairs) && NoDup(p.standalone) && NoDup(p.students)
    ensures forall x :: x in p.pairs <==> x in CorrectSides(ExtractCorrections(transcript))
    ensures forall x :: x in p.standalone ==> x !in p.pairs
    ensures forall x :: x in p.students ==> x !in p.pairs && x !in p.standalone
    ensures forall x :: x in p.students <==>
      x in StudentUtterances(transcript) && x !in IncorrectSides(ExtractCorrections(transcript))
        && x !in CorrectSides(ExtractCorrections(transcript)) && x !in p.standalone
  {
    var cs := ExtractCorrections(transcript);
    var a := Emit(CorrectSides(cs), {});
    var b := Emit(StandaloneCandidates(TeacherUtterances(transcript)), Elems(a));
    var c := Emit(StudentCandidates(StudentUtterances(transcript), IncorrectSides(cs)), Elems(a) + Elems(b));
    Runs(a, b, c)
  }

  /** Concatenating runs that are each duplicate-free and pairwise disjoint keeps the
      whole free of duplicates. */
  function Assemble(p: Runs): (r: seq<PracticeSentence>)
    requires NoDup(p.pairs) && NoDup(p.standalone) && NoDup(p.students)
    requires forall x :: x in p.standalone ==> x !in p.pairs
    requires forall x :: x in p.students ==> x !in p.pairs && x !in p.standalone
    ensures |r| == |p.pairs| + |p.standalone| + |p.students|
    ensures forall i, j :: 0 <= i < j < |r| ==> r[i].sentence != r[j].sentence
    ensures forall k :: 0 <= k < |r| ==> r[k].difficulty == "beginner"
    ensures forall k :: 0 <= k < |p.pairs| + |p.standalone| ==>
      r[k].source == "correction" && r[k].qualityScore == 10
    ensures forall k :: |p.pairs| + |p.standalone| <= k < |r| ==>
      r[k].source == "student_correct" && r[k].qualityScore == 8 && r[k].sentence in p.students
    ensures forall k :: 0 <= k < |p.pairs| ==> r[k].sentence == p.pairs[k]
    ensures forall k :: 0 <= k < |p.standalone| ==> r[|p.pairs| + k].sentence == p.standalone[k]
  {
    var r := Tag(p.pairs, "correction", 10) + Tag(p.standalone, "correction", 10)
      + Tag(p.students, "student_correct", 8);
    var all := p.pairs + p.standalone + p.students;
    assert forall k :: 0 <= k < |r| ==> r[k].sentence == all[k];
    NoDupConcat(p.pairs, p.standalone);
    NoDupConcat(p.pairs + p.standalone, p.students);
    r
  }

  /** `SentenceExtractor.extract`. */
  function Extract(transcript: string): (r: seq<PracticeSentence>)
    ensures forall i, j :: 0 <= i < j < |r| ==> r[i].sentence != r[j].sentence
    ensures forall k :: 0 <= k < |r| ==> r[k].difficulty == "beginner"
    ensures forall k :: 0 <= k < |r| ==>
      (r[k].source == "correction" && r[k].qualityScore == 10)
        || (r[k].source == "student_correct" && r[k].qualityScore == 8)
    ensures forall i, j :: 0 <= i < j < |r| && r[j].source == "correction" ==> r[i].source == "correction"
    ensures forall k :: 0 <= k < |r| && r[k].source == "student_correct" ==>
      r[k].sentence in StudentUtterances(transcript)
        && r[k].sentence !in IncorrectSides(ExtractCorrections(transcript))
  {
    var p := Phases(transcript);
    Assemble(p)
  }

  /** Every pair's correct side is emitted, as a correction and before anything from the
      other two sources. */
  lemma PairsFirst(transcript: string)
    ensures var cs := ExtractCorrections(transcript);
      var n := |Phases(transcript).pairs|;
      && n <= |Extract(transcript)|
      && (forall c :: c in cs ==> exists k :: 0 <= k < n && Extract(transcript)[k].sentence == c.correct)
      && (forall k :: 0 <= k < n ==> Extract(transcript)[k].sentence in CorrectSides(cs))
  {
    var cs := ExtractCorrections(transcript);
    var p := Phases(transcript);
    var r := Extract(transcript);
    forall c | c in cs
      ensures exists k :: 0 <= k < |p.pairs| && r[k].sentence == c.correct
    {
      var i :| 0 <= i < |cs| && cs[i] == c;
      assert c.correct in CorrectSides(cs);
      var k :| 0 <= k < |p.pairs| && p.pairs[k] == c.correct;
      assert r[k].sentence == c.correct;
    }
  }

  /** `line` is emitted with the given source. */
  predicate Emitted(r: seq<PracticeSentence>, line: string, source: string)
  {
    exists k :: 0 <= k < |r| && r[k].sentence == line && r[k].source == source
  }

  /** A student line is emitted exactly when it is neither the mistake nor the correction
      of a pair and no standalone correction produced the same text. */
  lemma StudentLinesExactly(transcript: string, line: string)
    ensures var cs := ExtractCorrections(transcript);
      Emitted(Extract(transcript), line, "student_correct") <==>
        (line in StudentUtterances(transcript) && line !in IncorrectSides(cs) && line !in CorrectSides(cs)
          && line !in Phases(transcript).standalone)
  {
    var p := Phases(transcript);
    assert Extract(transcript) == Assemble(p);
    AssembleStudents(p, line);
  }

  /** In the assembled list a text appears as a student line exactly when it is one of the
      emitted student lines. */
  lemma AssembleStudents(p: Runs, line: string)
    requires NoDup(p.pairs) && NoDup(p.standalone) && NoDup(p.students)
    requires forall x :: x in p.standalone ==> x !in p.pairs
    requires forall x :: x in p.students ==> x !in p.pairs && x !in p.standalone
    ensures Emitted(Assemble(p), line, "student_correct") <==> line in p.students
  {
    var r := Assemble(p);
    var base := |p.pairs| + |p.standalone|;
    if line in p.students {
      var m :| 0 <= m < |p.students| && p.students[m] == line;
      assert r[base + m] == PracticeSentence(line, "student_correct", 8, "beginner");
    }
  }
}
