/** Zoom recording files and WebVTT caption text, as the API and the Zoom worker both
    read them. */
module Recordings {
  import opened Text
  import opened Seqs

  /** One entry of a meeting's `recording_files`. An absent field is "" here (size 0),
      the default both readers give `.get`. A null file type is "" as well, since both
      readers apply `or ''` to it; a null recording type behaves as "" in every test
      below, as None equals none of the strings compared against it. A null size is
      not modelled: `has_audio_files` would raise comparing it with the size limit. */
  datatype RecordingFile = RecordingFile(recordingType: string, fileType: string, fileSize: int, downloadUrl: string)

  /** The transcript test both readers apply: a recording type mentioning a transcript,
      or a caption or text file type, compared in lower case. */
  predicate IsTranscriptFile(f: RecordingFile)
  {
    || Contains(Lower(f.recordingType), "audio_transcript")
    || Contains(Lower(f.recordingType), "transcript")
    || Lower(f.fileType) in ["vtt", "txt"]
  }

  /** The "audio_transcript" test adds nothing: that type already mentions "transcript". */
  lemma TranscriptTestSimplifies(f: RecordingFile)
    ensures IsTranscriptFile(f) <==> Contains(Lower(f.recordingType), "transcript") || Lower(f.fileType) in ["vtt", "txt"]
  {
    if Contains(Lower(f.recordingType), "audio_transcript") {
      var i :| 0 <= i <= |Lower(f.recordingType)| && OccursAt(Lower(f.recordingType), "audio_transcript", i);
      assert OccursAt(Lower(f.recordingType), "transcript", i + 6);
    }
  }

  /** The lines of a caption file, each stripped: `[l.strip() for l in s.split('\n')]`. */
  function StrippedLines(content: string): (r: seq<string>)
    ensures |r| >= 1
    ensures forall k :: 0 <= k < |r| ==> Trimmed(r[k], Whitespace) && '\n' !in r[k]
  {
    var lines := SplitOn(content, '\n');
    seq(|lines|, k requires 0 <= k < |lines| => StripKeeps(lines[k], '\n'); Strip(lines[k]))
  }

  /** Stripping never brings in a character. */
  lemma StripKeeps(s: string, c: char)
    requires c !in s
    ensures c !in Strip(s)
  {
    StripSetNoneIn(s, Whitespace, {c});
  }

  /** The caption-header lines both readers drop, besides blank ones. */
  predicate IsCaptionNoise(line: string)
  {
    StartsWith(line, "WEBVTT") || StartsWith(line, "NOTE") || Contains(line, "-->") || IsDigits(line)
  }
}
