/** `TextProcessor` (src/utils/text_processing.py): speaker lines, teacher
    corrections, key vocabulary and the lesson topic.

    The regular expressions of the source are written out as predicates. Each
    correction pattern is "lead-in, separator run, clause"; because the separator
    class never contains the character that must follow it (a capital letter or a
    quote), the regex engine's backtracking has only one way to succeed at a
    given start, and the functions below compute that way directly. */
module TextProcessing {
  import opened Wrappers
  import opened Text
  import Seqs

  // ---------------------------------------------------------------- lines

  /** A "Teacher:" or "Student:" marker begins at index `i` of `s`. */
  predicate MarkerAt(s: string, i: nat)
    requires i <= |s|
  {
    StartsWith(s[i..], "Teacher:") || StartsWith(s[i..], "Student:")
  }

  /** The first marker position at or after `i`, or `|s|` when there is none. */
  function NextMarker(s: string, i: nat): (j: nat)
    requires i <= |s|
    ensures i <= j <= |s|
    ensures j < |s| ==> MarkerAt(s, j)
    ensures forall k :: i <= k < j ==> !MarkerAt(s, k)
    decreases |s| - i
  {
    if i == |s| then |s| else if MarkerAt(s, i) then i else NextMarker(s, i + 1)
  }

  /** `re.split(r'(?=(?:Teacher|Student):)', s)` minus the empty first piece that
      a marker at index 0 produces (blank pieces are dropped afterwards anyway). */
  function SplitBeforeMarkers(s: string): (r: seq<string>)
    ensures |r| >= 1
    ensures MarkerAt(s, 0) ==> MarkerAt(r[0], 0)
    ensures forall k :: 1 <= k < |r| ==> MarkerAt(r[k], 0)
    ensures forall k, i :: 0 <= k < |r| && 1 <= i <= |r[k]| ==> !MarkerAt(r[k], i)
    decreases |s|
  {
    var j := if |s| == 0 then 0 else NextMarker(s, 1);
    HeadPieceMarker(s, j);
    if j == 0 || j == |s| then
      assert forall i :: 1 <= i <= |s| ==> !MarkerAt(s, i) by {
        forall i | 1 <= i <= |s| ensures !MarkerAt(s, i) {
          if i == |s| { assert s[i..] == []; }
        }
      }
      [s]
    else
      var rest := SplitBeforeMarkers(s[j..]);
      assert MarkerAt(s[j..], 0) by { assert s[j..][0..] == s[j..]; }
      assert forall i :: 1 <= i <= j ==> !MarkerAt(s[..j], i) by {
        forall i | 1 <= i <= j ensures !MarkerAt(s[..j], i) {
          if i < j && MarkerAt(s[..j], i) {
            PrefixMarker(s, j, i);
          }
        }
      }
      [s[..j]] + rest
  }

  /** Markers cannot overlap: none starts within the eight characters of another. */
  lemma MarkersApart(s: string, p: nat)
    requires MarkerAt(s, 0) && 1 <= p < 8 && p <= |s|
    ensures !MarkerAt(s, p)
  {
    assert s[0..] == s;
    var w := s[..8];
    assert w == "Teacher:" || w == "Student:";
    assert s[p] == w[p];
    assert w[p] != 'T' && w[p] != 'S';
    assert s[p..][0] == s[p];
  }

  lemma HeadPieceMarker(s: string, j: nat)
    requires j == if |s| == 0 then 0 else NextMarker(s, 1)
    ensures MarkerAt(s, 0) && 0 < j ==> MarkerAt(s[..j], 0)
  {
    if MarkerAt(s, 0) && j > 0 {
      if j < 8 {
        MarkersApart(s, j);
      }
      assert s[..j][0..][..8] == s[0..][..8];
    }
  }

  lemma PrefixMarker(s: string, j: nat, i: nat)
    requires i <= j <= |s| && MarkerAt(s[..j], i)
    ensures MarkerAt(s, i)
  {
    var t := s[..j][i..];
    var w := if StartsWith(t, "Teacher:") then "Teacher:" else "Student:";
    assert StartsWith(t, w) && |w| <= |t| == j - i;
    assert forall k :: 0 <= k < |w| ==> s[i..][k] == t[k] == w[k];
    assert s[i..][..|w|] == w;
  }

  /** The pieces of `SplitBeforeMarkers` put back together are the input. */
  lemma {:induction false} SplitBeforeMarkersConcat(s: string)
    ensures Concat(SplitBeforeMarkers(s)) == s
    decreases |s|
  {
    var j := if |s| == 0 then 0 else NextMarker(s, 1);
    if j != 0 && j != |s| {
      SplitBeforeMarkersConcat(s[j..]);
      assert s == s[..j] + s[j..];
    }
  }

  /** `[p.strip() for p in ps if p.strip()]` */
  function NonBlankStripped(ps: seq<string>): (r: seq<string>)
    ensures |r| <= |ps|
    ensures forall k :: 0 <= k < |r| ==> r[k] != "" && Trimmed(r[k], Whitespace)
    decreases |ps|
  {
    if |ps| == 0 then []
    else
      var line := Strip(ps[0]);
      if line == "" then NonBlankStripped(ps[1..]) else [line] + NonBlankStripped(ps[1..])
  }

  /** The lines `extract_corrections` walks: the stripped transcript split on
      newlines, or, for a one-line transcript, split before every speaker marker. */
  function TranscriptLines(transcript: string): (lines: seq<string>)
    ensures '\n' !in transcript ==> forall k :: 0 <= k < |lines| ==> lines[k] != "" && Trimmed(lines[k], Whitespace)
  {
    if '\n' in transcript then SplitOn(Strip(transcript), '\n')
    else NonBlankStripped(SplitBeforeMarkers(Strip(transcript)))
  }

  /** `[l.replace(marker, "").strip() for l in transcript.split("\n") if l.startswith(marker)]` */
  function Utterances(lines: seq<string>, marker: string): (r: seq<string>)
    requires |marker| > 0
    ensures |r| <= |lines|
    ensures forall k :: 0 <= k < |r| ==> Trimmed(r[k], Whitespace)
    decreases |lines|
  {
    if |lines| == 0 then []
    else if StartsWith(lines[0], marker) then [Strip(RemoveAll(lines[0], marker))] + Utterances(lines[1..], marker)
    else Utterances(lines[1..], marker)
  }

  /** Some line starts with the marker. */
  predicate AnyMarked(lines: seq<string>, marker: string)
  {
    exists i :: 0 <= i < |lines| && StartsWith(lines[i], marker)
  }

  /** Line `i` is the first to start with the marker, and `u` is its utterance. */
  predicate FirstMarkedAt(lines: seq<string>, marker: string, i: int, u: string)
  {
    if |marker| == 0 then false
    else
      && 0 <= i < |lines| && StartsWith(lines[i], marker)
      && (forall m :: 0 <= m < i ==> !StartsWith(lines[m], marker))
      && u == Strip(RemoveAll(lines[i], marker))
  }

  /** One utterance per marked line: an utterance exists exactly when some line starts with the marker,
      and the first one comes from the first such line. */
  lemma {:induction false} UtterancesFirst(lines: seq<string>, marker: string)
    requires |marker| > 0
    ensures |Utterances(lines, marker)| > 0 <==> AnyMarked(lines, marker)
    ensures |Utterances(lines, marker)| > 0 ==>
      exists i :: FirstMarkedAt(lines, marker, i, Utterances(lines, marker)[0])
    decreases |lines|
  {
    if |lines| > 0 && !StartsWith(lines[0], marker) {
      UtterancesFirst(lines[1..], marker);
      AnyMarkedShift(lines, marker);
      assert Utterances(lines, marker) == Utterances(lines[1..], marker);
      if |Utterances(lines, marker)| > 0 {
        var i :| FirstMarkedAt(lines[1..], marker, i, Utterances(lines[1..], marker)[0]);
        MarkedShift(lines, marker, i, Utterances(lines[1..], marker)[0]);
      }
    } else if |lines| > 0 {
      assert FirstMarkedAt(lines, marker, 0, Utterances(lines, marker)[0]);
    }
  }

  /** An unmarked first line changes nothing about whether some line is marked. */
  lemma AnyMarkedShift(lines: seq<string>, marker: string)
    requires |lines| > 0 && !StartsWith(lines[0], marker)
    ensures AnyMarked(lines, marker) <==> AnyMarked(lines[1..], marker)
  {
    if AnyMarked(lines, marker) {
      var i :| 0 <= i < |lines| && StartsWith(lines[i], marker);
      assert lines[1..][i - 1] == lines[i];
    }
    if AnyMarked(lines[1..], marker) {
      var i :| 0 <= i < |lines[1..]| && StartsWith(lines[1..][i], marker);
      assert lines[i + 1] == lines[1..][i];
    }
  }

  /** Past an unmarked first line, the first marked line is one further on. */
  lemma MarkedShift(lines: seq<string>, marker: string, i: int, u: string)
    requires |lines| > 0 && !StartsWith(lines[0], marker)
    requires FirstMarkedAt(lines[1..], marker, i, u)
    ensures FirstMarkedAt(lines, marker, i + 1, u)
  {
    forall m | 0 <= m < i + 1
      ensures !StartsWith(lines[m], marker)
    {
      if m > 0 {
        assert lines[m] == lines[1..][m - 1];
      }
    }
    assert lines[i + 1] == lines[1..][i];
  }

  function StudentUtterances(transcript: string): seq<string>
  {
    Utterances(SplitOn(transcript, '\n'), "Student:")
  }

  function TeacherUtterances(transcript: string): seq<string>
  {
    Utterances(SplitOn(transcript, '\n'), "Teacher:")
  }

  // ---------------------------------------------------------- corrections

  const Terminators: set<char> := {'.', '!', '?'}

  /** The characters `.strip('"“”\' ')` removes. */
  const QuoteStripChars: set<char> := {'"', '\U{201C}', '\U{201D}', '\'', ' '}

  /** Opening quotes the corrected patterns accept in front of the clause. */
  const OpeningQuotes: set<char> := {'"', '\U{201C}', '\U{201D}', '\''}

  /** The regex class `[:\s]`. */
  const ColonOrSpace: set<char> := Whitespace + {':'}

  /** Length of the longest run from `j` of characters whose membership in `cs` is `inside`. */
  function Span(t: string, j: nat, cs: set<char>, inside: bool): (n: nat)
    requires j <= |t|
    ensures j + n <= |t|
    ensures forall k :: j <= k < j + n ==> (t[k] in cs) == inside
    ensures j + n < |t| ==> (t[j + n] in cs) != inside
    decreases |t| - j
  {
    if j == |t| || (t[j] in cs) != inside then 0 else 1 + Span(t, j + 1, cs, inside)
  }

  /** A run that ends where membership changes has exactly the run's length. */
  lemma SpanTo(t: string, j: nat, e: nat, cs: set<char>, inside: bool)
    requires j <= e < |t|
    requires forall k :: j <= k < e ==> (t[k] in cs) == inside
    requires (t[e] in cs) != inside
    ensures Span(t, j, cs, inside) == e - j
  {
  }

  /** The literal `w` at `j`: the index just after it. */
  function Lit(t: string, j: nat, w: string): (r: Option<nat>)
    requires j <= |t|
    ensures r.Some? ==> r.value == j + |w| <= |t| && t[j..r.value] == w
  {
    if j + |w| <= |t| && t[j..j + |w|] == w then Some(j + |w|) else None
  }

  /** The optional literal `(?:w)?`, taken when present. */
  function OptLit(t: string, j: nat, w: string): (k: nat)
    requires j <= |t|
    ensures j <= k <= |t|
  {
    if j + |w| <= |t| && t[j..j + |w|] == w then j + |w| else j
  }

  /** `[cs]+` taken as far as it goes: the index after the run. */
  function Run1(t: string, j: nat, cs: set<char>): (r: Option<nat>)
    requires j <= |t|
    ensures r.Some? ==> j < r.value <= |t|
  {
    var n := Span(t, j, cs, true);
    if n > 0 then Some(j + n) else None
  }

  /** A clause as the capture group `([A-Z][^.!?]+)` delivers it. */
  predicate IsClause(c: string)
  {
    |c| >= 2 && IsUpperChar(c[0]) && NoneIn(c, Terminators)
  }

  /** `([A-Z][^.!?]+)` at `k`: a capital, then every following character up to a terminator. */
  function ClauseAt(t: string, k: nat): (r: Option<string>)
    requires k <= |t|
    ensures r.Some? ==> IsClause(r.value)
    ensures r.Some? <==> k + 1 < |t| && IsUpperChar(t[k]) && t[k + 1] !in Terminators
  {
    if k + 1 < |t| && IsUpperChar(t[k]) && t[k + 1] !in Terminators then
      Some(t[k..k + 1 + Span(t, k + 1, Terminators, false)])
    else None
  }

  /** The five correction patterns, in the order they are tried. */
  datatype CorrectionPattern =
    | CorrectionColon   // [Cc]orrect(?:ion)?[:]?\s+
    | SentenceIs        // The correct sentence is[:\s]+
    | ShouldBe          // (?:It\s+)?should\s+be[:\s]+
    | Better            // [Bb]etter[:\s]+
    | CorrectSep        // [Cc]orrect[:\s]+

  const CorrectionPatterns: seq<CorrectionPattern> := [CorrectionColon, SentenceIs, ShouldBe, Better, CorrectSep]

  /** Where the clause starts when the lead-in of `p` matches at `i`. The optional
      `(?:It\s+)?` of `ShouldBe` only moves the start of the match, never the clause,
      so the search for "should" finds the same clause. */
  function LeadIn(p: CorrectionPattern, t: string, i: nat): (r: Option<nat>)
    requires i <= |t|
    ensures r.Some? ==> i < r.value <= |t|
  {
    match p
    case CorrectionColon =>
      if i < |t| && t[i] in {'C', 'c'} then
        var j :- Lit(t, i + 1, "orrect");
        Run1(t, OptLit(t, OptLit(t, j, "ion"), ":"), Whitespace)
      else None
    case SentenceIs =>
      var j :- Lit(t, i, "The correct sentence is");
      Run1(t, j, ColonOrSpace)
    case ShouldBe =>
      var j :- Lit(t, i, "should");
      var k :- Run1(t, j, Whitespace);
      var m :- Lit(t, k, "be");
      Run1(t, m, ColonOrSpace)
    case Better =>
      if i < |t| && t[i] in {'B', 'b'} then
        var j :- Lit(t, i + 1, "etter");
        Run1(t, j, ColonOrSpace)
      else None
    case CorrectSep =>
      if i < |t| && t[i] in {'C', 'c'} then
        var j :- Lit(t, i + 1, "orrect");
        Run1(t, j, ColonOrSpace)
      else None
  }

  /** The clause pattern `p` captures when its match starts at `i`. With `quoted`, an
      optional opening quote may stand between the separator and the clause. */
  function MatchAt(p: CorrectionPattern, t: string, i: nat, quoted: bool): (r: Option<string>)
    requires i <= |t|
    ensures r.Some? ==> IsClause(r.value)
  {
    var k :- LeadIn(p, t, i);
    var c := if quoted && k < |t| && t[k] in OpeningQuotes then k + 1 else k;
    ClauseAt(t, c)
  }

  /** The outcome of trying `p` at every start index of `t`, in order. */
  function Attempts(p: CorrectionPattern, t: string, quoted: bool): (r: seq<Option<string>>)
    ensures |r| == |t| + 1
    ensures forall i :: 0 <= i <= |t| ==> r[i] == MatchAt(p, t, i, quoted)
  {
    seq(|t| + 1, i requires 0 <= i <= |t| => MatchAt(p, t, i, quoted))
  }

  /** `re.search(p, t)`: the clause of the leftmost match. */
  function Search(p: CorrectionPattern, t: string, quoted: bool): (r: Option<string>)
    ensures r.Some? ==> IsClause(r.value)
  {
    Seqs.FirstSome(Attempts(p, t, quoted))
  }

  /** The search finds nothing exactly when no start index matches, and otherwise
      returns the clause of the leftmost matching start. */
  lemma SearchLeftmost(p: CorrectionPattern, t: string, quoted: bool)
    ensures Search(p, t, quoted).None? <==> forall i :: 0 <= i <= |t| ==> MatchAt(p, t, i, quoted).None?
    ensures Search(p, t, quoted).Some? ==>
      exists i :: 0 <= i <= |t| && Search(p, t, quoted) == MatchAt(p, t, i, quoted)
        && forall m :: 0 <= m < i ==> MatchAt(p, t, m, quoted).None?
  {
    var xs := Attempts(p, t, quoted);
    Seqs.FirstSomeLeftmost(xs);
    if Search(p, t, quoted).Some? {
      var i :| 0 <= i < |xs| && Seqs.FirstSome(xs) == xs[i] && forall m :: 0 <= m < i ==> xs[m].None?;
      assert Search(p, t, quoted) == MatchAt(p, t, i, quoted);
    }
  }

  /** The search result of every pattern, in the order they are tried. */
  function PatternResults(t: string, quoted: bool): (r: seq<Option<string>>)
    ensures |r| == |CorrectionPatterns|
    ensures forall k :: 0 <= k < |r| ==> r[k] == Search(CorrectionPatterns[k], t, quoted)
  {
    seq(|CorrectionPatterns|, k requires 0 <= k < |CorrectionPatterns| => Search(CorrectionPatterns[k], t, quoted))
  }

  /** The loop over the patterns with its `break`: the first pattern that matches decides. */
  function FirstMatch(t: string, quoted: bool): (r: Option<string>)
    ensures r.Some? ==> IsClause(r.value)
  {
    Seqs.FirstSome(PatternResults(t, quoted))
  }

  /** First match wins: the clause comes from the first pattern that finds anything,
      whatever later patterns would find, and nothing comes back only if no pattern matches. */
  lemma FirstMatchWins(t: string, quoted: bool)
    ensures FirstMatch(t, quoted).None? <==>
      forall k :: 0 <= k < |CorrectionPatterns| ==> Search(CorrectionPatterns[k], t, quoted).None?
    ensures FirstMatch(t, quoted).Some? ==>
      exists k :: 0 <= k < |CorrectionPatterns| && FirstMatch(t, quoted) == Search(CorrectionPatterns[k], t, quoted)
        && forall m :: 0 <= m < k ==> Search(CorrectionPatterns[m], t, quoted).None?
  {
    var xs := PatternResults(t, quoted);
    Seqs.FirstSomeLeftmost(xs);
    if FirstMatch(t, quoted).Some? {
      var k :| 0 <= k < |xs| && Seqs.FirstSome(xs) == xs[k] && forall m :: 0 <= m < k ==> xs[m].None?;
      assert FirstMatch(t, quoted) == Search(CorrectionPatterns[k], t, quoted);
    }
  }

  /** Without the quote tolerance a clause must begin right after the separator: when the
      lead-in is followed by a quote, the pattern does not match at that start. */
  lemma QuoteBlocksAsWritten(p: CorrectionPattern, t: string, i: nat)
    requires i <= |t|
    requires LeadIn(p, t, i).Some? && LeadIn(p, t, i).value < |t| && t[LeadIn(p, t, i).value] in OpeningQuotes
    ensures MatchAt(p, t, i, false).None?
  {
  }

  /** A (student mistake, teacher correction) pair. */
  datatype Correction = Correction(incorrect: string, correct: string)

  /** `s.strip().strip('"“”\' ')` */
  function Clean(s: string): (r: string)
    ensures Trimmed(r, QuoteStripChars)
  {
    StripSet(Strip(s), QuoteStripChars)
  }

  /** The text after the teacher marker: `line.replace("Teacher:", "").strip()`. */
  function TeacherText(line: string): string
  {
    Strip(RemoveAll(line, "Teacher:"))
  }

  /** A pair as the extraction delivers it: both sides non-empty, neither with a quote or
      space at its ends, and the correct side a capitalised clause without '.', '!' or '?'. */
  predicate WellFormed(c: Correction)
  {
    && c.incorrect != "" && c.correct != ""
    && Trimmed(c.incorrect, QuoteStripChars) && Trimmed(c.correct, QuoteStripChars)
    && IsUpperChar(c.correct[0]) && NoneIn(c.correct, Terminators)
  }

  /** Cleaning a clause keeps its capital in front and adds no terminator. */
  lemma CleanClause(clause: string)
    requires IsClause(clause)
    ensures Clean(clause) != "" && IsUpperChar(Clean(clause)[0]) && NoneIn(Clean(clause), Terminators)
  {
    assert clause[0] !in Whitespace;
    StripSetKeepsHead(clause, Whitespace);
    var a := Strip(clause);
    assert a[0] !in QuoteStripChars;
    StripSetKeepsHead(a, QuoteStripChars);
    StripSetNoneIn(clause, Whitespace, Terminators);
    StripSetNoneIn(a, QuoteStripChars, Terminators);
  }

  /** The pair a teacher line at index `i` contributes: its first matching pattern's
      clause, with the preceding line as the mistake when that line is the student's. */
  function CorrectionAt(lines: seq<string>, i: nat, quoted: bool): (r: Option<Correction>)
    requires i < |lines|
    ensures r.Some? ==> WellFormed(r.value)
    ensures r.Some? ==> 0 < i && Contains(lines[i], "Teacher:") && Contains(lines[i - 1], "Student:")
  {
    if !Contains(lines[i], "Teacher:") then None
    else match FirstMatch(TeacherText(lines[i]), quoted)
      case None => None
      case Some(clause) =>
        CleanClause(clause);
        var correct := Clean(clause);
        if i > 0 && Contains(lines[i - 1], "Student:") then
          var incorrect := Clean(RemoveAll(lines[i - 1], "Student:"));
          if incorrect != "" then Some(Correction(incorrect, correct)) else None
        else None
  }

  /** The pairs of lines `i..`, in line order. */
  function CorrectionsFrom(lines: seq<string>, i: nat, quoted: bool): (r: seq<Correction>)
    requires i <= |lines|
    ensures |r| <= |lines| - i
    ensures forall c :: c in r ==> WellFormed(c)
    decreases |lines| - i
  {
    if i == |lines| then []
    else
      var rest := CorrectionsFrom(lines, i + 1, quoted);
      match CorrectionAt(lines, i, quoted)
      case Some(c) => [c] + rest
      case None => rest
  }

  /** `c` is the pair of some line at index `i` or later. */
  predicate FromLine(lines: seq<string>, i: nat, quoted: bool, c: Correction)
  {
    exists j :: i <= j < |lines| && CorrectionAt(lines, j, quoted) == Some(c)
  }

  /** Every emitted pair is the pair of some teacher line (so at most one per line) whose
      preceding line is a student line. */
  lemma {:induction false} CorrectionsFromSource(lines: seq<string>, i: nat, quoted: bool)
    requires i <= |lines|
    ensures forall k :: 0 <= k < |CorrectionsFrom(lines, i, quoted)| ==>
      FromLine(lines, i, quoted, CorrectionsFrom(lines, i, quoted)[k])
    decreases |lines| - i
  {
    if i < |lines| {
      CorrectionsFromSource(lines, i + 1, quoted);
      var rest := CorrectionsFrom(lines, i + 1, quoted);
      WidenAll(lines, i, quoted, rest);
      var head := LinePair(lines, i, quoted);
      CorrectionsFromStep(lines, i, quoted);
      Seqs.JoinEither(head, rest, (x: Correction) => FromLine(lines, i, quoted, x),
                      (x: Correction) => FromLine(lines, i, quoted, x));
    }
  }

  /** The pair of line `i`, as a list of none or one. */
  function LinePair(lines: seq<string>, i: nat, quoted: bool): (r: seq<Correction>)
    requires i < |lines|
    ensures forall k :: 0 <= k < |r| ==> FromLine(lines, i, quoted, r[k])
  {
    match CorrectionAt(lines, i, quoted)
    case Some(c) => [c]
    case None => []
  }

  lemma CorrectionsFromStep(lines: seq<string>, i: nat, quoted: bool)
    requires i < |lines|
    ensures CorrectionsFrom(lines, i, quoted) == LinePair(lines, i, quoted) + CorrectionsFrom(lines, i + 1, quoted)
  {
  }

  /** A pair from a later line is a pair from line `i` or later. */
  lemma WidenAll(lines: seq<string>, i: nat, quoted: bool, rest: seq<Correction>)
    requires forall k :: 0 <= k < |rest| ==> FromLine(lines, i + 1, quoted, rest[k])
    ensures forall k :: 0 <= k < |rest| ==> FromLine(lines, i, quoted, rest[k])
  {
    forall k | 0 <= k < |rest|
      ensures FromLine(lines, i, quoted, rest[k])
    {
      var j :| i + 1 <= j < |lines| && CorrectionAt(lines, j, quoted) == Some(rest[k]);
    }
  }

  /** `extract_corrections`: the pair of every teacher line whose text one of the five
      patterns matches, the clause starting right after the separator, so a quoted
      correction is never captured. The rest of the model uses this one. */
  function ExtractCorrections(transcript: string): (r: seq<Correction>)
    ensures |r| <= |TranscriptLines(transcript)|
    ensures forall k :: 0 <= k < |r| ==> WellFormed(r[k])
  {
    CorrectionsFrom(TranscriptLines(transcript), 0, false)
  }

  /** The quote-tolerant extraction the docstring and the pattern comment describe ("covers
      quoted and unquoted corrections"): an opening quote may precede the clause. The
      clause still ends at the first '.', '!' or '?', so a quoted "I wake up at 7 AM."
      gives "I wake up at 7 AM", without the period. */
  function ExtractCorrectionsQuoted(transcript: string): (r: seq<Correction>)
    ensures |r| <= |TranscriptLines(transcript)|
    ensures forall k :: 0 <= k < |r| ==> WellFormed(r[k])
  {
    CorrectionsFrom(TranscriptLines(transcript), 0, true)
  }

  /** With the quote tolerance, a lead-in followed by a quote and a capitalised clause
      captures that clause. */
  lemma QuotedClauseFound(p: CorrectionPattern, t: string, i: nat, k: nat)
    requires i <= |t| && LeadIn(p, t, i) == Some(k)
    requires k + 2 < |t| && t[k] in OpeningQuotes && IsUpperChar(t[k + 1]) && t[k + 2] !in Terminators
    ensures MatchAt(p, t, i, true) == ClauseAt(t, k + 1) && MatchAt(p, t, i, true).Some?
  {
  }

  /** The test's quoted correction: the pattern as written finds nothing at the cue word,
      the quote-tolerant one finds the clause up to the period. */
  lemma QuotedCorrectionExample(t: string)
    requires t == "Correction: \"I wake up at 7 AM.\""
    ensures MatchAt(CorrectionColon, t, 0, false).None?
    ensures MatchAt(CorrectionColon, t, 0, true) == Some("I wake up at 7 AM")
  {
    QuotedLeadIn(t);
    QuoteBlocksAsWritten(CorrectionColon, t, 0);
    QuotedClauseFound(CorrectionColon, t, 0, 12);
    QuotedClause(t);
  }

  lemma QuotedLeadIn(t: string)
    requires t == "Correction: \"I wake up at 7 AM.\""
    ensures LeadIn(CorrectionColon, t, 0) == Some(12)
  {
    QuotedCue(t);
    QuotedSeparator(t);
  }

  lemma QuotedCue(t: string)
    requires t == "Correction: \"I wake up at 7 AM.\""
    ensures Lit(t, 1, "orrect") == Some(7) && OptLit(t, 7, "ion") == 10 && OptLit(t, 10, ":") == 11
  {
    assert t[1..7] == "orrect" by { assert forall k :: 1 <= k < 7 ==> t[k] == "orrect"[k - 1]; }
    assert t[7..10] == "ion" by { assert forall k :: 7 <= k < 10 ==> t[k] == "ion"[k - 7]; }
    assert t[10..11] == ":";
  }

  lemma QuotedSeparator(t: string)
    requires t == "Correction: \"I wake up at 7 AM.\""
    ensures Run1(t, 11, Whitespace) == Some(12)
  {
    assert t[12] !in Whitespace;
    assert t[11] in Whitespace by { assert IsSpace(' '); }
    SpanTo(t, 11, 12, Whitespace, true);
  }

  lemma QuotedClause(t: string)
    requires t == "Correction: \"I wake up at 7 AM.\""
    ensures ClauseAt(t, 13) == Some("I wake up at 7 AM")
  {
    assert forall k :: 14 <= k < 30 ==> t[k] !in Terminators;
    SpanTo(t, 14, 30, Terminators, false);
    assert t[13..30] == "I wake up at 7 AM";
  }

  // ----------------------------------------------------------- vocabulary

  /** The stop list, kept as three smaller sets so that membership facts stay cheap to prove. */
  const StopWords: set<string> := StopWordsA + StopWordsB + StopWordsC

  const StopWordsA: set<string> := {
    "i", "you", "he", "she", "it", "we", "they", "am", "is", "are", "was", "were", "be", "been",
    "being", "have", "has", "had", "a", "an", "the", "and", "or", "but", "if"
  }

  const StopWordsB: set<string> := {
    "because", "as", "until", "while", "to", "in", "on", "at", "for", "with", "by", "from", "of",
    "about", "my", "your", "his", "her", "its", "our", "their", "what", "when", "where", "why"
  }

  const StopWordsC: set<string> := {
    "how", "which", "who", "whom", "this", "that", "these", "those", "also", "very", "then", "nice",
    "good", "try", "well", "can", "could", "will", "would", "should", "may", "might", "must"
  }

  /** Length of the run of `\w` characters at the start of `s`. */
  function WordRunLen(s: string): (n: nat)
    ensures n <= |s|
    ensures forall k :: 0 <= k < n ==> IsWordChar(s[k])
    ensures n < |s| ==> !IsWordChar(s[n])
    decreases |s|
  {
    if |s| == 0 || !IsWordChar(s[0]) then 0 else 1 + WordRunLen(s[1..])
  }

  /** `re.findall(r"\b[a-zA-Z]+\b", s)`: a match must start and end on a word boundary,
      so it is exactly a maximal run of word characters made of letters only. */
  function LetterWords(s: string): (r: seq<string>)
    ensures forall k :: 0 <= k < |r| ==> IsAlpha(r[k])
    ensures IsLowercase(s) ==> forall k :: 0 <= k < |r| ==> IsLowercase(r[k])
    decreases |s|
  {
    if |s| == 0 then []
    else if !IsWordChar(s[0]) then LetterWords(s[1..])
    else
      var n := WordRunLen(s);
      var rest := LetterWords(s[n..]);
      if IsAlpha(s[..n]) then [s[..n]] + rest else rest
  }

  /** The words `ws` at `i`, separated by whitespace runs, the last one ending on a boundary. */
  predicate WordsFrom(s: string, i: nat, ws: seq<string>)
    requires i <= |s|
    decreases |ws|
  {
    if |ws| == 0 then false
    else match Lit(s, i, ws[0])
      case None => false
      case Some(j) =>
        if |ws| == 1 then Boundary(s, j)
        else match Run1(s, j, Whitespace)
          case None => false
          case Some(k) => WordsFrom(s, k, ws[1..])
  }

  /** Some spelling in `forms` matches at `i`, starting on a word boundary. */
  predicate FormAt(s: string, i: nat, forms: seq<seq<string>>)
    requires i <= |s|
  {
    Boundary(s, i) && exists f :: f in forms && WordsFrom(s, i, f)
  }

  /** `re.search(...)` for a phrase: some index has a matching spelling. */
  predicate PhraseIn(s: string, forms: seq<seq<string>>)
  {
    exists i :: 0 <= i <= |s| && FormAt(s, i, forms)
  }

  /** A key phrase, its spellings (the alternatives its regex allows) and its head word,
      which is what `w.split()[0]` keeps of it. */
  datatype KeyPhrase = KeyPhrase(head: string, forms: seq<seq<string>>)

  const KeyPhrases: seq<KeyPhrase> := [
    KeyPhrase("wake", [["wake", "up"]]),
    KeyPhrase("brush", [["brush", "teeth"], ["brushing", "teeth"], ["brush", "my", "teeth"], ["brushing", "my", "teeth"]]),
    KeyPhrase("free", [["free", "time"]]),
    KeyPhrase("last", [["last", "year"]])
  ]

  /** A vocabulary word: more than two characters and not a stop word. */
  predicate IsVocabWord(w: string)
  {
    w !in StopWords && |w| > 2
  }

  /** A key-vocabulary item: a single lowercase vocabulary word of letters. */
  predicate IsVocabItem(w: string)
  {
    IsVocabWord(w) && IsAlpha(w) && IsLowercase(w)
  }

  /** `[w for w in words if w not in stop_words and len(w) > 2]` */
  function VocabWords(ws: seq<string>): (r: seq<string>)
    ensures forall k :: 0 <= k < |r| ==> IsVocabWord(r[k]) && r[k] in ws
    ensures forall w :: w in ws && IsVocabWord(w) ==> w in r
    decreases |ws|
  {
    if |ws| == 0 then []
    else if IsVocabWord(ws[0]) then [ws[0]] + VocabWords(ws[1..])
    else VocabWords(ws[1..])
  }

  /** The heads of the phrases found in `s`, in table order. */
  function FoundHeads(s: string, ps: seq<KeyPhrase>): (r: seq<string>)
    ensures forall k :: 0 <= k < |r| ==> exists m :: 0 <= m < |ps| && r[k] == ps[m].head
    decreases |ps|
  {
    if |ps| == 0 then []
    else if PhraseIn(s, ps[0].forms) then [ps[0].head] + FoundHeads(s, ps[1..])
    else FoundHeads(s, ps[1..])
  }

  lemma StopWordHeads()
    ensures "wake" !in StopWords && "brush" !in StopWords && "free" !in StopWords && "last" !in StopWords
  {
    HeadsNotInA();
    HeadsNotInB();
    HeadsNotInC();
  }

  lemma HeadsNotInA()
    ensures "wake" !in StopWordsA && "brush" !in StopWordsA && "free" !in StopWordsA && "last" !in StopWordsA
  {
  }

  lemma HeadsNotInB()
    ensures "wake" !in StopWordsB && "brush" !in StopWordsB && "free" !in StopWordsB && "last" !in StopWordsB
  {
  }

  lemma HeadsNotInC()
    ensures "wake" !in StopWordsC && "brush" !in StopWordsC && "free" !in StopWordsC && "last" !in StopWordsC
  {
  }

  lemma PhraseHeadsAreItems()
    ensures forall m :: 0 <= m < |KeyPhrases| ==> IsVocabItem(KeyPhrases[m].head)
  {
    FourHeadsAreItems();
    HeadsListed();
  }

  lemma FourHeadsAreItems()
    ensures IsVocabItem("wake") && IsVocabItem("brush") && IsVocabItem("free") && IsVocabItem("last")
  {
    StopWordHeads();
    HeadItem("wake");
    HeadItem("brush");
    HeadItem("free");
    HeadItem("last");
  }

  lemma HeadItem(w: string)
    requires LowerLetters(w) && IsVocabWord(w)
    ensures IsVocabItem(w)
  {
    LowerLettersMeans(w);
  }

  lemma HeadsListed()
    ensures forall m :: 0 <= m < |KeyPhrases| ==> KeyPhrases[m].head in ["wake", "brush", "free", "last"]
  {
  }

  /** The candidates before de-duplication: the sentence's vocabulary words, then phrase heads. */
  function VocabCandidates(sentence: string): (r: seq<string>)
    ensures forall k :: 0 <= k < |r| ==> IsVocabItem(r[k])
    ensures forall w :: w in LetterWords(Lower(sentence)) && IsVocabWord(w) ==> w in r
  {
    var low := Lower(sentence);
    var words := VocabWords(LetterWords(low));
    var heads := FoundHeads(low, KeyPhrases);
    PhraseHeadsAreItems();
    assert forall k :: 0 <= k < |heads| ==> IsVocabItem(heads[k]);
    words + heads
  }

  /** `extract_key_vocabulary`: at most five distinct single lowercase words, each longer
      than two letters and not a stop word. */
  function KeyVocabulary(sentence: string): (r: seq<string>)
    ensures |r| <= 5
    ensures Seqs.NoDup(r)
    ensures forall k :: 0 <= k < |r| ==> IsVocabItem(r[k])
  {
    var cands := VocabCandidates(sentence);
    var d := Seqs.Dedup(cands);
    assert forall k :: 0 <= k < |d| ==> IsVocabItem(d[k]) by {
      forall k | 0 <= k < |d| ensures IsVocabItem(d[k]) {
        assert d[k] in cands;
      }
    }
    Seqs.Take(d, 5)
  }

  /** The items are the first five distinct candidates, in first-occurrence order; when
      fewer than five come back, every vocabulary word of the sentence is among them. */
  lemma KeyVocabularyComplete(sentence: string)
    ensures KeyVocabulary(sentence) == Seqs.Dedup(VocabCandidates(sentence))[..|KeyVocabulary(sentence)|]
    ensures |KeyVocabulary(sentence)| < 5 ==>
      forall w :: w in LetterWords(Lower(sentence)) && IsVocabWord(w) ==> w in KeyVocabulary(sentence)
  {
  }

  // ---------------------------------------------------------------- topic

  datatype TopicRule = TopicRule(name: string, keywords: seq<string>)

  const Topics: seq<TopicRule> := [
    TopicRule("daily_routines", ["routine", "wake up", "morning", "breakfast", "teeth"]),
    TopicRule("hobbies", ["hobbies", "free time", "football", "music"]),
    TopicRule("family", ["family", "father", "mother"]),
    TopicRule("past_tense", ["yesterday", "did you", "describe yesterday", "what did"]),
    TopicRule("travel", ["travel", "city", "hotel", "stayed", "visited"])
  ]

  /** `sum(k in first for k in kws)` */
  function KeywordScore(first: string, kws: seq<string>): (n: nat)
    ensures n <= |kws|
    decreases |kws|
  {
    if |kws| == 0 then 0 else (if Contains(first, kws[0]) then 1 else 0) + KeywordScore(first, kws[1..])
  }

  function Scores(first: string): (sc: seq<nat>)
    ensures |sc| == |Topics|
  {
    seq(|Topics|, i requires 0 <= i < |Topics| => KeywordScore(first, Topics[i].keywords))
  }

  /** Index of the first maximum: `max(d, key=d.get)` over an insertion-ordered dict. */
  function ArgMaxFirst(s: seq<nat>): (r: nat)
    requires |s| > 0
    ensures r < |s|
    ensures forall k :: 0 <= k < |s| ==> s[k] <= s[r]
    ensures forall k :: 0 <= k < r ==> s[k] < s[r]
    decreases |s|
  {
    if |s| == 1 then 0
    else
      var m := ArgMaxFirst(s[..|s| - 1]);
      if s[|s| - 1] > s[m] then |s| - 1 else m
  }

  /** The winning topic's index, or None for "general". */
  function TopicIndex(transcript: string): (r: Option<nat>)
    ensures r.None? <==>
      |TeacherUtterances(transcript)| == 0
      || forall k :: 0 <= k < |Topics| ==> Scores(Lower(TeacherUtterances(transcript)[0]))[k] == 0
    ensures r.Some? ==>
      var sc := Scores(Lower(TeacherUtterances(transcript)[0]));
      && r.value < |Topics|
      && sc[r.value] > 0
      && (forall k :: 0 <= k < |Topics| ==> sc[k] <= sc[r.value])
      && (forall k :: 0 <= k < r.value ==> sc[k] < sc[r.value])
  {
    var teachers := TeacherUtterances(transcript);
    if |teachers| == 0 then None
    else
      var sc := Scores(Lower(teachers[0]));
      if forall k :: 0 <= k < |sc| ==> sc[k] == 0 then None
      else
        var m := ArgMaxFirst(sc);
        Some(m)
  }

  /** `identify_lesson_topic` */
  function LessonTopic(transcript: string): (r: string)
  {
    match TopicIndex(transcript)
    case None => "general"
    case Some(i) => Topics[i].name
  }
}
