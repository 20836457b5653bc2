/**
 * `transcribeAndParse` after the speech-to-text call: the transcript is
 * trimmed, the records are extracted, and a new checklist is built from them.
 */
module Pipeline {
  import opened Options
  import opened Text
  import opened Units
  import opened Patterns
  import opened Sheets
  import opened Transcription
  import opened Checklist

  /** The records parsed from a transcript, which is trimmed first. */
  function ParseTranscript(transcript: string): (rs: seq<Record>)
    ensures forall i :: 0 <= i < |rs| ==> IsPartId(rs[i].part) && IsDecimal(rs[i].measured)
    ensures forall i :: 0 <= i < |rs| ==> rs[i].unit == "" || rs[i].unit in CanonicalCodes
  {
    Extract(Trim(transcript))
  }

  /**
   * The checklist built from a transcript: below the header row, one row per
   * parsed record, each with a part identifier, a decimal number and a
   * canonical unit code or an empty unit.
   */
  function TranscribeAndParse(transcript: string): (s: Sheet)
    ensures RowCount(s) == |ParseTranscript(transcript)| + 1
    ensures forall r :: 2 <= r <= RowCount(s) ==>
      && Get(s, r, 1).Some? && IsPartId(Get(s, r, 1).value)
      && Get(s, r, 2).Some? && IsDecimal(Get(s, r, 2).value)
      && Get(s, r, 3).Some? && (Get(s, r, 3).value == "" || Get(s, r, 3).value in CanonicalCodes)
  {
    var rs := ParseTranscript(transcript);
    var s := CreateChecklist(rs);
    assert forall r :: 2 <= r <= RowCount(s) ==> Get(s, r, 1) == Some(rs[r - 2].part);
    s
  }

  /** Reading the generated checklist back gives exactly the parsed records, in transcript order. */
  lemma TranscribeAndParseRecords(transcript: string)
    ensures ReadRecords(TranscribeAndParse(transcript)) == ParseTranscript(transcript)
  {
    CreateReadRoundTrip(ParseTranscript(transcript));
  }

}
