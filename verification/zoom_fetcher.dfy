/** The Zoom worker's pure steps: caption cleaning, the teacher id taken from an email
    address, and the choice of the file a recording is transcribed from. */
module ZoomFetcher {
  import opened Wrappers
  import opened Text
  import opened Seqs
  import opened Recordings
  import Api

  // ------------------------------------------------------------ captions

  /** A stripped caption line the worker keeps. Unlike the API it keeps "Kind:" and
      "Language:" lines. */
  predicate KeepsLine(line: string)
  {
    line != "" && !IsCaptionNoise(line)
  }

  /** The stripped lines the worker keeps, in order. */
  function KeptLines(content: string): (r: seq<string>)
    ensures forall k :: 0 <= k < |r| ==> KeepsLine(r[k]) && Trimmed(r[k], Whitespace) && '\n' !in r[k]
  {
    var r := Filter(StrippedLines(content), KeepsLine);
    FilteredShape(StrippedLines(content), r);
    r
  }

  lemma FilteredShape(all: seq<string>, r: seq<string>)
    requires forall k :: 0 <= k < |all| ==> Trimmed(all[k], Whitespace) && '\n' !in all[k]
    requires r == Filter(all, KeepsLine)
    ensures forall k :: 0 <= k < |r| ==> KeepsLine(r[k]) && Trimmed(r[k], Whitespace) && '\n' !in r[k]
  {
    forall k | 0 <= k < |r|
      ensures KeepsLine(r[k]) && Trimmed(r[k], Whitespace) && '\n' !in r[k]
    {
      assert r[k] in r;
      var j :| 0 <= j < |all| && all[j] == r[k];
    }
  }

  /** `clean_vtt_transcript` in the worker: applied to any text, it keeps the stripped
      lines that are neither blank nor caption noise and joins them with newlines. */
  function CleanVttTranscript(content: string): (r: string)
    ensures |KeptLines(content)| == 0 <==> r == ""
  {
    JoinNonEmpty("\n", KeptLines(content));
    Join("\n", KeptLines(content))
  }

  /** A join is empty exactly when there is nothing to join, if no piece is empty. */
  lemma JoinNonEmpty(sep: string, xs: seq<string>)
    requires forall k :: 0 <= k < |xs| ==> xs[k] != ""
    ensures Join(sep, xs) == "" <==> |xs| == 0
  {
    if |xs| > 1 {
      assert Join(sep, xs) == xs[0] + sep + Join(sep, xs[1..]);
    }
  }

  /** The lines of the cleaned text are exactly the kept lines: every one stripped,
      non-empty, and free of WEBVTT and NOTE headers, cue timings and cue numbers. */
  lemma CleanedLines(content: string)
    requires CleanVttTranscript(content) != ""
    ensures SplitOn(CleanVttTranscript(content), '\n') == KeptLines(content)
    ensures forall k :: 0 <= k < |KeptLines(content)| ==>
      var line := KeptLines(content)[k];
      line != "" && Strip(line) == line && !IsCaptionNoise(line)
  {
    var lines := KeptLines(content);
    JoinSplitOn(lines, '\n');
    forall k | 0 <= k < |lines|
      ensures Strip(lines[k]) == lines[k]
    {
      StripSetTrimmed(lines[k], Whitespace);
    }
  }

  /** Cleaning cleaned text changes nothing. */
  lemma CleanIdempotent(content: string)
    ensures CleanVttTranscript(CleanVttTranscript(content)) == CleanVttTranscript(content)
  {
    var r := CleanVttTranscript(content);
    if r != "" {
      CleanedLines(content);
      KeptAgain(KeptLines(content), r);
    } else {
      assert SplitOn(r, '\n') == [""];
      assert StrippedLines(r) == [Strip("")];
      StripSetTrimmed("", Whitespace);
      assert KeptLines(r) == [];
    }
  }

  /** Lines that are already stripped and kept come through a second pass unchanged. */
  lemma KeptAgain(lines: seq<string>, r: string)
    requires SplitOn(r, '\n') == lines
    requires forall k :: 0 <= k < |lines| ==> lines[k] != "" && Strip(lines[k]) == lines[k] && !IsCaptionNoise(lines[k])
    ensures KeptLines(r) == lines
  {
    assert StrippedLines(r) == lines;
    FilterAll(lines, KeepsLine);
  }

  /** The worker cleans text the API would return untouched: surrounding blanks on a
      caption-free line are stripped. */
  lemma CleaningDiffers()
    ensures Api.CleanVttTranscript(" hello ") == " hello "
    ensures CleanVttTranscript(" hello ") == "hello"
  {
    ApiKeepsHello();
    WorkerStripsHello();
  }

  lemma ApiKeepsHello()
    ensures Api.CleanVttTranscript(" hello ") == " hello "
  {
    var s := " hello ";
    NoArrow(s);
    NoHeader(s);
  }

  lemma WorkerStripsHello()
    ensures CleanVttTranscript(" hello ") == "hello"
  {
    HelloLines();
    HelloKept();
    assert KeptLines(" hello ") == ["hello"];
  }

  lemma HelloLines()
    ensures StrippedLines(" hello ") == ["hello"]
  {
    var s := " hello ";
    assert IndexOf(s, '\n') == |s|;
    assert SplitOn(s, '\n') == [s];
    StripHello(s);
  }

  lemma HelloKept()
    ensures KeepsLine("hello")
  {
    assert !StartsWith("hello", "WEBVTT");
    assert !StartsWith("hello", "NOTE") by { assert "hello"[..4][0] == 'h' != "NOTE"[0]; }
    assert !IsDigits("hello") by { assert !IsDigitChar('h'); }
    NoArrow("hello");
  }

  lemma StripHello(s: string)
    requires s == " hello "
    ensures Strip(s) == "hello"
  {
    assert ' ' in Whitespace by { assert IsSpace(' '); }
    assert 'h' !in Whitespace && 'o' !in Whitespace;
    assert LeadLen(s, Whitespace) == 1;
    assert TrailLen(s[1..], Whitespace) == 1;
  }

  lemma NoArrow(s: string)
    requires s == " hello " || s == "hello"
    ensures !Contains(s, "-->")
  {
    forall i | 0 <= i <= |s| - 3
      ensures !OccursAt(s, "-->", i)
    {
      assert s[i] != '-';
    }
  }

  lemma NoHeader(s: string)
    requires s == " hello "
    ensures !Contains(s, "WEBVTT")
  {
    forall i | 0 <= i <= |s| - 6
      ensures !OccursAt(s, "WEBVTT", i)
    {
      assert s[i] != 'W';
    }
  }

  // ------------------------------------------------------------ teacher id

  /** `extract_teacher_id`: `email.split('@')[0]`, the text before the first '@', or the
      whole address when it has none. */
  function ExtractTeacherId(email: string): (r: string)
    ensures '@' !in r
    ensures |r| <= |email| && r == email[..|r|]
    ensures |r| < |email| ==> email[|r|] == '@'
    ensures '@' !in email ==> r == email
  {
    var i := IndexOf(email, '@');
    assert SplitOn(email, '@')[0] == email[..i];
    SplitOn(email, '@')[0]
  }

  // ------------------------------------------------------------ the file to transcribe

  /** The transcript file the worker looks for first: the first file that is a transcript. */
  function TranscriptFile(files: seq<RecordingFile>): (r: Option<RecordingFile>)
    ensures r.None? <==> forall k :: 0 <= k < |files| ==> !IsTranscriptFile(files[k])
    ensures r.Some? ==> Api.FirstPassing(files, IsTranscriptFile, r.value)
  {
    FirstWhere(files, IsTranscriptFile)
  }

  /** The worker and the API choose the same transcript file. */
  lemma SameTranscriptChoice(files: seq<RecordingFile>)
    ensures TranscriptFile(files) == Api.HasAudioTranscript(files)
  {
  }

  /** Audio formats the worker accepts by extension: no "ogg", and no size rule. */
  const AudioTypes: seq<string> := ["m4a", "mp3", "wav", "aac"]

  predicate IsAudioFile(f: RecordingFile)
  {
    f.recordingType == "audio_only" || Lower(f.fileType) in AudioTypes
  }

  /** The audio file the worker falls back to when there is no transcript. */
  function AudioFile(files: seq<RecordingFile>): (r: Option<RecordingFile>)
    ensures r.None? <==> forall k :: 0 <= k < |files| ==> !IsAudioFile(files[k])
    ensures r.Some? ==> Api.FirstPassing(files, IsAudioFile, r.value)
  {
    FirstWhere(files, IsAudioFile)
  }

  /** Whatever the worker accepts as audio the API accepts too, but not the other way:
      an "ogg" file is audio only to the API. */
  lemma AudioNarrowerThanApi(files: seq<RecordingFile>, f: RecordingFile)
    ensures AudioFile(files).Some? ==> Api.HasAudioFiles(files).Some?
    ensures Lower(f.fileType) == "ogg" ==> Api.IsAudioFile(f) && (IsAudioFile(f) <==> f.recordingType == "audio_only")
  {
    if AudioFile(files).Some? {
      var k :| 0 <= k < |files| && files[k] == AudioFile(files).value && IsAudioFile(files[k]);
      assert Api.IsAudioFile(files[k]);
    }
    if Lower(f.fileType) == "ogg" {
      assert Lower(f.fileType) == Api.AudioTypes[4];
      assert forall k :: 0 <= k < |AudioTypes| ==> AudioTypes[k][0] != 'o';
    }
  }

  /** Where a recording's text comes from. */
  datatype Source = NativeTranscript(file: RecordingFile) | AudioTrack(file: RecordingFile) | NoSource

  /** The choice `process_recording` makes: the native transcript when there is one,
      otherwise the first audio file; nothing for a meeting without files. */
  function ChooseSource(files: seq<RecordingFile>): (r: Source)
    ensures r.NativeTranscript? <==> exists k :: 0 <= k < |files| && IsTranscriptFile(files[k])
    ensures r.AudioTrack? ==> (forall k :: 0 <= k < |files| ==> !IsTranscriptFile(files[k])) && IsAudioFile(r.file) && r.file in files
    ensures r.NoSource? <==> forall k :: 0 <= k < |files| ==> !IsTranscriptFile(files[k]) && !IsAudioFile(files[k])
  {
    if |files| == 0 then NoSource
    else
      match TranscriptFile(files)
      case Some(f) => NativeTranscript(f)
      case None =>
        match AudioFile(files)
        case Some(f) => AudioTrack(f)
        case None => NoSource
  }
}
