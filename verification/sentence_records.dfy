/** The dictionary form in which practice sentences reach the newer generators, and the
    field those generators read from it. */
module SentenceRecords {
  import opened Wrappers
  import opened Text
  import opened Seqs
  import SentenceExtractor

  type PracticeSentence = SentenceExtractor.PracticeSentence

  /** A record as a dictionary: field name to value, in insertion order. */
  type Record = seq<(string, string)>

  /** The dictionary `SentenceExtractor.extract` appends for a sentence: the text sits
      under "sentence". */
  function AsRecord(p: PracticeSentence): (r: Record)
    ensures Firsts(r) == ["sentence", "source", "quality_score", "difficulty"]
  {
    [("sentence", p.sentence), ("source", p.source),
     ("quality_score", NatToString(p.qualityScore)), ("difficulty", p.difficulty)]
  }

  /** `sent.get('text', '')`, the read in the sentence-builder and cloze generators. */
  function TextAsWritten(rec: Record): (r: string)
    ensures "text" !in Firsts(rec) ==> r == ""
  {
    Lookup(rec, "text").GetOr("")
  }

  /** An extractor record has no "text" field, so the generators read "" from every one. */
  lemma ExtractorRecordReadsEmpty(p: PracticeSentence)
    ensures TextAsWritten(AsRecord(p)) == ""
  {
    var r := AsRecord(p);
    assert |r[0].0| != 4 && |r[1].0| != 4 && |r[2].0| != 4 && |r[3].0| != 4;
    assert "text" !in Firsts(r);
  }

  /** The read the generators evidently intend: the "text" field when present, else the
      extractor's "sentence" field. */
  function SentenceText(rec: Record): (r: string)
    ensures "text" in Firsts(rec) ==> r == TextAsWritten(rec)
    ensures "text" !in Firsts(rec) && Lookup(rec, "sentence").Some? ==> r == Lookup(rec, "sentence").value
  {
    match Lookup(rec, "text")
    case Some(t) => t
    case None => Lookup(rec, "sentence").GetOr("")
  }

  /** Reading an extractor record this way gives back its sentence. */
  lemma ExtractorRecordReadsSentence(p: PracticeSentence)
    ensures SentenceText(AsRecord(p)) == p.sentence
  {
    ExtractorRecordReadsEmpty(p);
    assert Lookup(AsRecord(p), "sentence") == Some(p.sentence);
  }

  /** The sentences the generators read from the extractor's output. */
  function Texts(ps: seq<PracticeSentence>): (r: seq<string>)
    ensures |r| == |ps| && forall k :: 0 <= k < |r| ==> r[k] == ps[k].sentence
  {
    seq(|ps|, k requires 0 <= k < |ps| => ExtractorRecordReadsSentence(ps[k]); SentenceText(AsRecord(ps[k])))
  }

  /** What the generators read from the extractor's output as written: "" throughout. */
  function TextsAsWritten(ps: seq<PracticeSentence>): (r: seq<string>)
    ensures |r| == |ps| && forall k :: 0 <= k < |r| ==> r[k] == ""
  {
    seq(|ps|, k requires 0 <= k < |ps| => ExtractorRecordReadsEmpty(ps[k]); TextAsWritten(AsRecord(ps[k])))
  }
}
