/** How the stages fit together (main.py:182-262 feeding main.py:284-391):
    a vocals transcript in time order, matched against a corpus whose rows
    do not end before they start, gives replacements that the assembler
    can plan, both as written and as corrected, in time order. */
module Pipeline {
  import opened Records
  import Transcripts
  import Matching
  import ClipList

  lemma MatchedTranscriptIsPlannable(ws: seq<Transcripts.WhisperWord>, corpus: seq<InputWord>,
                                     replaced: seq<ReplacedWord>)
    requires Transcripts.InTimeOrder(ws)
    requires forall r :: r in corpus ==> r.start <= r.end
    requires Matching.WellTimed(Transcripts.SongWordsFrom(ws), corpus)
    requires Matching.Outcome(Transcripts.SongWordsFrom(ws), corpus, replaced)
    ensures ClipList.FactorsPositive(replaced)
    ensures ClipList.PlannedFactorsPositive(replaced)
    ensures Matching.Chronological(Matching.SongWordsOf(replaced))
  {
    var songWords := Transcripts.SongWordsFrom(ws);
    Transcripts.CleanedInTimeOrder(ws);
    Matching.OutcomeFactorsPositive(songWords, corpus, replaced);
    Matching.OutcomeChronological(songWords, corpus, replaced);
  }
}
