/** The helpers of the web API: clock-time parsing and the time-window test used to
    pick meetings, the choice of a recording file, caption cleaning, and the rules the
    lesson endpoint applies around `process_lesson`. */
module Api {
  import opened Wrappers
  import opened Text
  import opened Seqs
  import opened Recordings
  import LessonProcessor
  import QualityChecker

  // ------------------------------------------------------------ clock times

  const MinutesPerDay := 1440

  /** The hour alternatives of the pattern `[01]?[0-9]|2[0-3]`. */
  predicate IsHourText(h: string)
  {
    || (|h| == 1 && IsDigitChar(h[0]))
    || (|h| == 2 && (h[0] == '0' || h[0] == '1') && IsDigitChar(h[1]))
    || (|h| == 2 && h[0] == '2' && '0' <= h[1] <= '3')
  }

  /** The minute part `[0-5][0-9]`. */
  predicate IsMinuteText(m: string)
  {
    |m| == 2 && '0' <= m[0] <= '5' && IsDigitChar(m[1])
  }

  /** The text a match anchored by `$` has to cover: `$` also matches just before a
      final newline. */
  function Anchored(s: string): (r: string)
    ensures |r| <= |s| && r == s[..|r|]
  {
    if |s| > 0 && s[|s| - 1] == '\n' then s[..|s| - 1] else s
  }

  /** `re.match(r'^([01]?[0-9]|2[0-3]):([0-5][0-9])$', s)` and the two `int` conversions. */
  function ParseTime(s: string): (r: Option<(nat, nat)>)
    ensures r.Some? ==> r.value.0 < 24 && r.value.1 < 60
  {
    var b := Anchored(s);
    var i := IndexOf(b, ':');
    if i < |b| && IsHourText(b[..i]) && IsMinuteText(b[i + 1..]) then
      HourValue(b[..i]);
      MinuteValue(b[i + 1..]);
      Some((DigitsValue(b[..i]), DigitsValue(b[i + 1..])))
    else None
  }

  /** The value of one or two digits. */
  lemma ShortDigits(s: string)
    requires 1 <= |s| <= 2 && IsDigits(s)
    ensures |s| == 1 ==> DigitsValue(s) == s[0] as int - '0' as int
    ensures |s| == 2 ==> DigitsValue(s) == 10 * (s[0] as int - '0' as int) + (s[1] as int - '0' as int)
  {
    if |s| == 2 {
      assert s[..1] == [s[0]];
    }
  }

  lemma HourValue(h: string)
    requires IsHourText(h)
    ensures IsDigits(h) && DigitsValue(h) < 24
  {
    ShortDigits(h);
  }

  lemma MinuteValue(m: string)
    requires IsMinuteText(m)
    ensures IsDigits(m) && DigitsValue(m) < 60
  {
    ShortDigits(m);
  }

  function Digit(d: nat): (c: char)
    requires d < 10
    ensures IsDigitChar(c)
  {
    ('0' as int + d) as char
  }

  /** `f"{n:02d}"` for a number below 100. */
  function Pad2(n: nat): (r: string)
    requires n < 100
    ensures |r| == 2 && IsDigits(r) && DigitsValue(r) == n
  {
    var r := [Digit(n / 10), Digit(n % 10)];
    ShortDigits(r);
    r
  }

  /** `f"{hours:02d}:{minutes:02d}"` */
  function FormatTime(h: nat, m: nat): (r: string)
    requires h < 100 && m < 100
    ensures |r| == 5 && r[2] == ':'
  {
    Pad2(h) + ":" + Pad2(m)
  }

  /** A zero-padded `HH:MM` with an hour below 24 and a minute below 60. */
  predicate IsClockTime(t: string)
  {
    && |t| == 5 && t[2] == ':' && IsDigits(t[..2]) && IsDigits(t[3..])
    && DigitsValue(t[..2]) < 24 && DigitsValue(t[3..]) < 60
  }

  /** Formatting a valid hour and minute and parsing the text gives them back. */
  lemma FormatParses(h: nat, m: nat)
    requires h < 24 && m < 60
    ensures ParseTime(FormatTime(h, m)) == Some((h, m))
    ensures IsClockTime(FormatTime(h, m))
  {
    var t := FormatTime(h, m);
    assert Anchored(t) == t;
    assert t[..2] == Pad2(h) && t[3..] == Pad2(m);
    assert IndexOf(t, ':') == 2;
  }

  /** `validate_time`: `Ok(None)` for the empty string, the zero-padded time when the
      pattern matches, and an error (the source's `ValueError`) otherwise. */
  function ValidateTime(s: string): (r: Result<Option<string>>)
    ensures s == "" <==> r == Ok(None)
    ensures s != "" ==> (r.Err? <==> ParseTime(s).None?)
    ensures r.Ok? && r.value.Some? ==> IsClockTime(r.value.value)
  {
    if s == "" then Ok(None)
    else
      match ParseTime(s)
      case Some((h, m)) => FormatParses(h, m); Ok(Some(FormatTime(h, m)))
      case None => Err("Invalid time format: " + s + ". Use HH:MM format.")
  }

  /** Validating a validated time gives it back unchanged. */
  lemma ValidateTimeIdempotent(s: string)
    requires ValidateTime(s).Ok? && ValidateTime(s).value.Some?
    ensures ValidateTime(ValidateTime(s).value.value) == ValidateTime(s)
  {
    var p := ParseTime(s).value;
    FormatParses(p.0, p.1);
  }

  /** A single-digit hour is padded. */
  lemma PadsSingleDigitHour()
    ensures ValidateTime("7:30") == Ok(Some("07:30"))
  {
    ParsesSevenThirty();
    assert Digit(0) == '0' && Digit(7) == '7' && Digit(3) == '3';
    assert FormatTime(7, 30) == "07:30";
  }

  lemma ParsesSevenThirty()
    ensures ParseTime("7:30") == Some((7, 30))
  {
    assert Anchored("7:30") == "7" + ":" + "30";
    SevenThirtyParts();
    ParseParts("7:30", "7", "30");
  }

  lemma SevenThirtyParts()
    ensures IsHourText("7") && IsMinuteText("30") && ':' !in "7"
    ensures DigitsValue("7") == 7 && DigitsValue("30") == 30
  {
    ShortDigits("7");
    ShortDigits("30");
  }

  /** A text whose anchored part is an hour, a colon and a minute parses to their values. */
  lemma ParseParts(s: string, h: string, m: string)
    requires Anchored(s) == h + ":" + m && ':' !in h
    requires IsHourText(h) && IsMinuteText(m)
    ensures ParseTime(s) == Some((DigitsValue(h), DigitsValue(m)))
  {
    var b := Anchored(s);
    IndexOfAfter(h, ':', m);
    assert b[..|h|] == h && b[|h| + 1..] == m;
  }

  /** Parsing reads only the anchored part. */
  lemma ParseReadsAnchored(s: string, t: string)
    requires Anchored(s) == Anchored(t)
    ensures ParseTime(s) == ParseTime(t)
  {
  }

  /** The final newline `$` tolerates. */
  lemma ToleratesFinalNewline()
    ensures ValidateTime("7:30\n") == ValidateTime("7:30")
  {
    assert Anchored("7:30\n") == "7:30" == Anchored("7:30");
    ParseReadsAnchored("7:30\n", "7:30");
    ParsesSevenThirty();
  }

  /** The hour 24 is refused. */
  lemma RefusesHour24()
    ensures ValidateTime("24:00").Err?
  {
    assert IndexOf("24:00", ':') == 2;
    assert "24:00"[..2] == "24";
  }

  /** A one-digit minute is refused. */
  lemma RefusesShortMinute()
    ensures ValidateTime("7:5").Err?
  {
    assert IndexOf("7:5", ':') == 1;
    assert "7:5"[2..] == "5";
  }

  /** `time_to_minutes`: `Ok(None)` for the empty string, hours times 60 plus minutes for
      two groups of ASCII digits around one colon, and an error for every other text.
      Python's `int` also takes surrounding blanks, a sign and underscores between
      digits (" 7", "+7", "-1", "1_0"); those groups are errors here. */
  function TimeToMinutes(t: string): (r: Result<Option<nat>>)
    ensures t == "" <==> r == Ok(None)
  {
    if t == "" then Ok(None)
    else
      var parts := SplitOn(t, ':');
      if |parts| == 2 && IsDigits(parts[0]) && IsDigits(parts[1]) then
        Ok(Some(DigitsValue(parts[0]) * 60 + DigitsValue(parts[1])))
      else Err("invalid literal for int()")
  }

  /** The minute of the day a validated time names. */
  function MinuteOfDay(t: string): (n: nat)
    requires IsClockTime(t)
    ensures n < MinutesPerDay
  {
    DigitsValue(t[..2]) * 60 + DigitsValue(t[3..])
  }

  /** A validated time converts to its minute of the day, which lies in [0, 1439]. */
  lemma MinutesOfClockTime(t: string)
    requires IsClockTime(t)
    ensures TimeToMinutes(t) == Ok(Some(MinuteOfDay(t)))
  {
    assert IndexOf(t, ':') == 2;
    var rest := t[3..];
    assert IndexOf(rest, ':') == |rest|;
    assert SplitOn(t, ':') == [t[..2], rest];
  }

  /** The window test of `is_time_in_range` on minutes of the day: half-open `[start, end)`
      when the end is not before the start, and wrapping past midnight when it is. */
  predicate InWindow(m: int, start: int, end: int)
  {
    if end < start then m >= start || m < end else start <= m < end
  }

  /** The window read around the clock: a minute is inside exactly when it comes fewer
      minutes after the start than the end does. An equal start and end is an empty
      window. */
  lemma InWindowCircular(m: int, start: int, end: int)
    requires 0 <= m < MinutesPerDay && 0 <= start < MinutesPerDay && 0 <= end < MinutesPerDay
    ensures InWindow(m, start, end) <==> (m - start) % MinutesPerDay < (end - start) % MinutesPerDay
    ensures start == end ==> !InWindow(m, start, end)
  {
  }

  /** `is_time_in_range`, given the meeting's `HH:MM` start (None when its timestamp could
      not be parsed): true when either bound is missing, false without a meeting time,
      the window test otherwise. */
  function IsTimeInRange(meetingTime: Option<string>, startTime: Option<string>, endTime: Option<string>): (r: Result<bool>)
    ensures startTime.None? || startTime == Some("") || endTime.None? || endTime == Some("") ==> r == Ok(true)
    ensures startTime.Some? && startTime.value != "" && endTime.Some? && endTime.value != "" && (meetingTime.None? || meetingTime == Some(""))
      ==> r == Ok(false)
  {
    if startTime.None? || startTime.value == "" || endTime.None? || endTime.value == "" then Ok(true)
    else if meetingTime.None? || meetingTime.value == "" then Ok(false)
    else
      var mm :- TimeToMinutes(meetingTime.value);
      var sm :- TimeToMinutes(startTime.value);
      var em :- TimeToMinutes(endTime.value);
      if mm.None? || sm.None? || em.None? then Ok(false)
      else Ok(InWindow(mm.value, sm.value, em.value))
  }

  /** For validated times the range test is the window test on their minutes of the day. */
  lemma RangeOfClockTimes(meeting: string, start: string, end: string)
    requires IsClockTime(meeting) && IsClockTime(start) && IsClockTime(end)
    ensures IsTimeInRange(Some(meeting), Some(start), Some(end))
      == Ok(InWindow(MinuteOfDay(meeting), MinuteOfDay(start), MinuteOfDay(end)))
  {
    MinutesOfClockTime(meeting);
    MinutesOfClockTime(start);
    MinutesOfClockTime(end);
  }

  // ------------------------------------------------------------ recording files

  /** The file is `f` and no earlier file passes `p`. */
  predicate FirstPassing(files: seq<RecordingFile>, p: RecordingFile -> bool, f: RecordingFile)
  {
    exists k :: 0 <= k < |files| && files[k] == f && p(f) && forall j :: 0 <= j < k ==> !p(files[j])
  }

  /** `has_audio_transcript`: the first file that is a transcript. */
  function HasAudioTranscript(files: seq<RecordingFile>): (r: Option<RecordingFile>)
    ensures r.None? <==> forall k :: 0 <= k < |files| ==> !IsTranscriptFile(files[k])
    ensures r.Some? ==> FirstPassing(files, IsTranscriptFile, r.value)
  {
    if |files| == 0 then None else FirstWhere(files, IsTranscriptFile)
  }

  /** Audio formats `has_audio_files` accepts by extension. */
  const AudioTypes: seq<string> := ["m4a", "mp3", "wav", "aac", "ogg"]

  /** Recording types accepted when the file is under 100 MiB. */
  const MixedTypes: seq<string> := ["audio_interpretation", "shared_screen_with_speaker_view"]

  const SizeLimit := 100 * 1024 * 1024

  /** The audio test of `has_audio_files`. */
  predicate IsAudioFile(f: RecordingFile)
  {
    || f.recordingType == "audio_only"
    || Lower(f.fileType) in AudioTypes
    || (f.recordingType in MixedTypes && f.fileSize < SizeLimit)
  }

  /** `has_audio_files`: the first file that is audio. */
  function HasAudioFiles(files: seq<RecordingFile>): (r: Option<RecordingFile>)
    ensures r.None? <==> forall k :: 0 <= k < |files| ==> !IsAudioFile(files[k])
    ensures r.Some? ==> FirstPassing(files, IsAudioFile, r.value)
  {
    if |files| == 0 then None else FirstWhere(files, IsAudioFile)
  }

  // ------------------------------------------------------------ captions

  /** A stripped caption line the API keeps. */
  predicate KeepsLine(line: string)
  {
    line != "" && !IsCaptionNoise(line) && !StartsWith(line, "Kind:") && !StartsWith(line, "Language:")
  }

  /** The stripped lines the API keeps, in order. */
  function CaptionLines(content: string): (r: seq<string>)
    ensures forall x :: x in r <==> x in StrippedLines(content) && KeepsLine(x)
  {
    Filter(StrippedLines(content), KeepsLine)
  }

  /** `clean_vtt_transcript` in the API: text that has neither a WEBVTT header nor a cue
      timing arrow is returned as it is; otherwise the kept lines are joined by single
      spaces, and the final strip finds nothing left to remove. */
  function CleanVttTranscript(content: string): (r: string)
    ensures !Contains(content, "WEBVTT") && !Contains(content, "-->") ==> r == content
    ensures Contains(content, "WEBVTT") || Contains(content, "-->") ==> r == Join(" ", CaptionLines(content))
  {
    if !Contains(content, "WEBVTT") && !Contains(content, "-->") then content
    else
      var lines := CaptionLines(content);
      CaptionLinesShape(content);
      JoinTrimmed(" ", lines);
      StripSetTrimmed(Join(" ", lines), Whitespace);
      Strip(Join(" ", lines))
  }

  /** Every kept line is non-empty, stripped and free of newlines. */
  lemma CaptionLinesShape(content: string)
    ensures forall k :: 0 <= k < |CaptionLines(content)| ==>
      CaptionLines(content)[k] != "" && Trimmed(CaptionLines(content)[k], Whitespace) && '\n' !in CaptionLines(content)[k]
  {
    var lines := CaptionLines(content);
    var all := StrippedLines(content);
    forall k | 0 <= k < |lines|
      ensures lines[k] != "" && Trimmed(lines[k], Whitespace) && '\n' !in lines[k]
    {
      assert lines[k] in lines;
      var j :| 0 <= j < |all| && all[j] == lines[k];
    }
  }

  /** Pieces that are non-empty and trimmed, joined by a separator of whitespace, form a
      trimmed text: its ends are the first piece's first and the last piece's last
      character. */
  lemma {:induction false} JoinTrimmed(sep: string, xs: seq<string>)
    requires forall k :: 0 <= k < |xs| ==> xs[k] != "" && Trimmed(xs[k], Whitespace)
    ensures Trimmed(Join(sep, xs), Whitespace)
    ensures |xs| > 0 ==> |Join(sep, xs)| > 0 && Join(sep, xs)[0] == xs[0][0]
    ensures |xs| > 0 ==> Join(sep, xs)[|Join(sep, xs)| - 1] == xs[|xs| - 1][|xs[|xs| - 1]| - 1]
    decreases |xs|
  {
    if |xs| > 1 {
      JoinTrimmed(sep, xs[1..]);
      assert forall k :: 1 <= k < |xs| ==> xs[1..][k - 1] == xs[k];
    }
  }

  // ------------------------------------------------------------ the lesson endpoint

  const MinTranscript := 10
  const MaxTranscript := 5000
  const KeptPrefix := 3000

  /** A transcript over 5000 characters is cut to its first 3000 and "...". */
  function Truncate(t: string): (r: string)
    ensures |r| <= MaxTranscript
    ensures |t| <= MaxTranscript ==> r == t
    ensures |t| > MaxTranscript ==> |r| == KeptPrefix + 3 && r[..KeptPrefix] == t[..KeptPrefix]
  {
    if |t| > MaxTranscript then t[..KeptPrefix] + "..." else t
  }

  /** Truncating twice is truncating once. */
  lemma TruncateIdempotent(t: string)
    ensures Truncate(Truncate(t)) == Truncate(t)
  {
  }

  /** The transcript the endpoint hands to `process_lesson`: refused when it is empty or
      has fewer than 10 characters after stripping, truncated otherwise. What it hands
      over is never blank, so the processor's empty-transcript guard does not fire. */
  function PrepareTranscript(t: string): (r: Result<string>)
    ensures r.Err? <==> |Strip(t)| < MinTranscript
    ensures r.Ok? ==> r.value == Truncate(t) && Strip(r.value) != ""
  {
    if t == "" || |Strip(t)| < MinTranscript then Err("Transcript is empty or too short to process")
    else
      PreparedNotBlank(t);
      Ok(Truncate(t))
  }

  lemma PreparedNotBlank(t: string)
    requires |Strip(t)| >= MinTranscript
    ensures Strip(Truncate(t)) != ""
  {
    StripSetEmpty(t, Whitespace);
    var i :| 0 <= i < |t| && t[i] !in Whitespace;
    var r := Truncate(t);
    if |t| > MaxTranscript {
      assert r[|r| - 1] == '.';
      assert !IsSpace('.');
      StripSetEmpty(r, Whitespace);
    } else {
      StripSetEmpty(r, Whitespace);
    }
  }

  /** `quality_passed` in the endpoint's response. */
  predicate QualityPassed(x: LessonProcessor.Exercises)
  {
    QualityChecker.MinTotal <= LessonProcessor.Total(x) <= QualityChecker.MaxTotal
  }

  /** The endpoint's verdict, the summary's "Yes" and the checker's silence about the total
      all say the same thing. */
  lemma QualityPassedAgrees(x: LessonProcessor.Exercises)
    ensures QualityPassed(x) <==> LessonProcessor.MeetsRequirements(x) == "Yes"
    ensures QualityPassed(x) <==> QualityChecker.TotalWarning(LessonProcessor.Total(x)) == []
  {
    LessonProcessor.SummaryAgreesWithChecker(x);
  }
}
