/** The two loops that feed the normalizer with Whisper's output: the corpus
    build (main.py:109-131), which inserts one row per accepted word of every
    prepared input file, and the cleaning of the vocals transcript
    (main.py:182-197), which keeps one song word per accepted word. Whisper
    itself is not modelled: its segments and timed words are inputs. */
module Transcripts {
  import opened Wrappers
  import opened Normalizer
  import opened Records
  import Matching

  /** One timed word of a Whisper segment (`w["word"]`, `w["start"]`, `w["end"]`). */
  datatype WhisperWord = WhisperWord(text: string, start: real, end: real)

  /** A prepared input file and Whisper's segments for it. */
  datatype FileTranscript = FileTranscript(path: string, segments: seq<seq<WhisperWord>>)

  /** The words of all segments, in order. */
  function Flatten(segments: seq<seq<WhisperWord>>): seq<WhisperWord>
    decreases |segments|
  {
    if segments == [] then []
    else Flatten(segments[..|segments| - 1]) + segments[|segments| - 1]
  }

  /** The song words kept from a run of Whisper words. */
  function SongWordsFrom(ws: seq<WhisperWord>): seq<SongWord>
    decreases |ws|
  {
    if ws == [] then []
    else
      var w := ws[|ws| - 1];
      SongWordsFrom(ws[..|ws| - 1])
        + match Normalize(w.text)
          case None => []
          case Some(word) => [SongWord(word, w.start, w.end)]
  }

  /** The corpus rows inserted for a run of Whisper words of one file. */
  function CorpusRowsFrom(filePath: string, ws: seq<WhisperWord>): seq<InputWord>
    decreases |ws|
  {
    if ws == [] then []
    else
      var w := ws[|ws| - 1];
      CorpusRowsFrom(filePath, ws[..|ws| - 1])
        + match Normalize(w.text)
          case None => []
          case Some(word) => [InputWord(word, filePath, w.start, w.end)]
  }

  /** The whole table after the build: the database starts empty
      (main.py:44-49) and every file's rows follow those of the files before. */
  function CorpusOf(files: seq<FileTranscript>): seq<InputWord>
    decreases |files|
  {
    if files == [] then []
    else
      var f := files[|files| - 1];
      CorpusOf(files[..|files| - 1]) + CorpusRowsFrom(f.path, Flatten(f.segments))
  }

  lemma SongWordsAppend(ws: seq<WhisperWord>, w: WhisperWord)
    ensures SongWordsFrom(ws + [w]) == SongWordsFrom(ws)
      + match Normalize(w.text)
        case None => []
        case Some(word) => [SongWord(word, w.start, w.end)]
  {
    assert (ws + [w])[..|ws|] == ws;
  }

  lemma CorpusRowsAppend(filePath: string, ws: seq<WhisperWord>, w: WhisperWord)
    ensures CorpusRowsFrom(filePath, ws + [w]) == CorpusRowsFrom(filePath, ws)
      + match Normalize(w.text)
        case None => []
        case Some(word) => [InputWord(word, filePath, w.start, w.end)]
  {
    assert (ws + [w])[..|ws|] == ws;
  }

  lemma ExtendPrefix(done: seq<WhisperWord>, segment: seq<WhisperWord>, j: nat)
    requires j < |segment|
    ensures done + segment[..j + 1] == (done + segment[..j]) + [segment[j]]
  {
    assert segment[..j + 1] == segment[..j] + [segment[j]];
  }

  lemma FlattenStep(segments: seq<seq<WhisperWord>>, s: nat)
    requires s < |segments|
    ensures Flatten(segments[..s + 1]) == Flatten(segments[..s]) + segments[s][..|segments[s]|]
  {
    assert segments[..s + 1][..s] == segments[..s];
    assert segments[s][..|segments[s]|] == segments[s];
  }

  /** main.py:182-197. */
  method CleanVocalsTranscript(segments: seq<seq<WhisperWord>>) returns (songWords: seq<SongWord>)
    ensures songWords == SongWordsFrom(Flatten(segments))
  {
    songWords := [];
    for s := 0 to |segments|
      invariant songWords == SongWordsFrom(Flatten(segments[..s]))
    {
      var segment := segments[s];
      ghost var done := Flatten(segments[..s]);
      assert done + segment[..0] == done;
      for j := 0 to |segment|
        invariant songWords == SongWordsFrom(done + segment[..j])
      {
        var w := segment[j];
        ExtendPrefix(done, segment, j);
        SongWordsAppend(done + segment[..j], w);
        var normalized := Normalize(w.text);
        if normalized.None? {
          continue;
        }
        var word := normalized.value;
        songWords := songWords + [SongWord(word, w.start, w.end)];
      }
      FlattenStep(segments, s);
    }
    assert segments[..|segments|] == segments;
  }

  /** main.py:117-131 for one file: the rows inserted for its accepted words. */
  method TranscriptRows(filePath: string, segments: seq<seq<WhisperWord>>)
    returns (rows: seq<InputWord>)
    ensures rows == CorpusRowsFrom(filePath, Flatten(segments))
  {
    rows := [];
    for s := 0 to |segments|
      invariant rows == CorpusRowsFrom(filePath, Flatten(segments[..s]))
    {
      var segment := segments[s];
      ghost var done := Flatten(segments[..s]);
      assert done + segment[..0] == done;
      for j := 0 to |segment|
        invariant rows == CorpusRowsFrom(filePath, done + segment[..j])
      {
        var w := segment[j];
        ExtendPrefix(done, segment, j);
        CorpusRowsAppend(filePath, done + segment[..j], w);
        var normalized := Normalize(w.text);
        if normalized.None? {
          continue;
        }
        var word := normalized.value;
        rows := rows + [InputWord(word, filePath, w.start, w.end)];
      }
      FlattenStep(segments, s);
    }
    assert segments[..|segments|] == segments;
  }

  /** main.py:109-131: transcribe every prepared file into a fresh table. */
  method BuildCorpus(files: seq<FileTranscript>) returns (corpus: seq<InputWord>)
    ensures corpus == CorpusOf(files)
  {
    corpus := [];
    for i := 0 to |files|
      invariant corpus == CorpusOf(files[..i])
    {
      var rows := TranscriptRows(files[i].path, files[i].segments);
      corpus := corpus + rows;
      assert files[..i + 1][..i] == files[..i];
    }
    assert files[..|files|] == files;
  }

  /** Each song word is a normal word and comes from some Whisper word that
      normalizes to it, with that word's timestamps. */
  lemma {:induction false} SongWordsCharacterized(ws: seq<WhisperWord>)
    ensures var r := SongWordsFrom(ws);
      && |r| <= |ws|
      && forall k :: 0 <= k < |r| ==>
           IsNormalWord(r[k].word)
           && exists j :: 0 <= j < |ws| && Normalize(ws[j].text) == Some(r[k].word)
                && ws[j].start == r[k].start && ws[j].end == r[k].end
    decreases |ws|
  {
    if ws != [] {
      var n := |ws| - 1;
      var w := ws[n];
      var earlier := ws[..n];
      SongWordsCharacterized(earlier);
      var r0 := SongWordsFrom(earlier);
      var r := SongWordsFrom(ws);
      assert forall j :: 0 <= j < n ==> earlier[j] == ws[j];
      match Normalize(w.text)
      case None =>
        assert r == r0;
      case Some(word) =>
        AcceptedIsNormal(w.text);
        assert r == r0 + [SongWord(word, w.start, w.end)];
        forall k | 0 <= k < |r|
          ensures exists j :: 0 <= j < |ws| && Normalize(ws[j].text) == Some(r[k].word)
                    && ws[j].start == r[k].start && ws[j].end == r[k].end
        {
          if k == |r0| {
            assert Normalize(ws[n].text) == Some(r[k].word);
          } else {
            assert r[k] == r0[k];
          }
        }
    }
  }

  /** Conversely, every accepted Whisper word is kept as a song word. */
  lemma AcceptedWordsKept(ws: seq<WhisperWord>)
    ensures forall j :: 0 <= j < |ws| && Normalize(ws[j].text).Some? ==>
      SongWord(Normalize(ws[j].text).value, ws[j].start, ws[j].end) in SongWordsFrom(ws)
  {
    forall j | 0 <= j < |ws| && Normalize(ws[j].text).Some?
      ensures SongWord(Normalize(ws[j].text).value, ws[j].start, ws[j].end) in SongWordsFrom(ws)
    {
      AcceptedWordKept(ws, j);
    }
  }

  lemma {:induction false} AcceptedWordKept(ws: seq<WhisperWord>, j: nat)
    requires j < |ws| && Normalize(ws[j].text).Some?
    ensures SongWord(Normalize(ws[j].text).value, ws[j].start, ws[j].end) in SongWordsFrom(ws)
    decreases |ws|
  {
    if j == |ws| - 1 {
      LastAcceptedKept(ws);
    } else {
      var earlier := ws[..|ws| - 1];
      assert earlier[j] == ws[j];
      AcceptedWordKept(earlier, j);
      EarlierSongWordsKept(ws, SongWord(Normalize(ws[j].text).value, ws[j].start, ws[j].end));
    }
  }

  /** The last Whisper word, when accepted, is the last song word. */
  lemma LastAcceptedKept(ws: seq<WhisperWord>)
    requires ws != [] && Normalize(ws[|ws| - 1].text).Some?
    ensures var w := ws[|ws| - 1];
      SongWord(Normalize(w.text).value, w.start, w.end) in SongWordsFrom(ws)
  {
  }

  /** Appending a Whisper word keeps every song word found before. */
  lemma EarlierSongWordsKept(ws: seq<WhisperWord>, x: SongWord)
    requires ws != [] && x in SongWordsFrom(ws[..|ws| - 1])
    ensures x in SongWordsFrom(ws)
  {
    var r0 := SongWordsFrom(ws[..|ws| - 1]);
    assert SongWordsFrom(ws)[..|r0|] == r0;
  }

  /** Corpus rows and song words go through the same transform: from the
      same Whisper words, one file's rows carry exactly the song words'
      words and timestamps, position by position. */
  lemma {:induction false} SameTransformForCorpusAndSong(filePath: string, ws: seq<WhisperWord>)
    ensures var rows := CorpusRowsFrom(filePath, ws);
      var songs := SongWordsFrom(ws);
      && |rows| == |songs|
      && forall k :: 0 <= k < |rows| ==>
           rows[k] == InputWord(songs[k].word, filePath, songs[k].start, songs[k].end)
    decreases |ws|
  {
    if ws != [] {
      SameTransformForCorpusAndSong(filePath, ws[..|ws| - 1]);
    }
  }

  /** Every row of the built corpus holds a normal word. */
  lemma {:induction false} CorpusWordsNormal(files: seq<FileTranscript>)
    ensures forall r :: r in CorpusOf(files) ==> IsNormalWord(r.word)
    decreases |files|
  {
    if files != [] {
      var f := files[|files| - 1];
      CorpusWordsNormal(files[..|files| - 1]);
      var ws := Flatten(f.segments);
      SameTransformForCorpusAndSong(f.path, ws);
      SongWordsCharacterized(ws);
      var rows := CorpusRowsFrom(f.path, ws);
      forall r | r in rows ensures IsNormalWord(r.word) {
        var k :| 0 <= k < |rows| && rows[k] == r;
      }
    }
  }

  /** Whisper's words in time order: each starts at or after zero, does not
      end before it starts, and does not overlap a later one. */
  predicate InTimeOrder(ws: seq<WhisperWord>)
  {
    && (forall i :: 0 <= i < |ws| ==> 0.0 <= ws[i].start <= ws[i].end)
    && (forall i, j :: 0 <= i < j < |ws| ==> ws[i].end <= ws[j].start)
  }

  /** Cleaning a transcript in time order gives chronological song words,
      the shape the clip list relies on. */
  lemma {:induction false} CleanedInTimeOrder(ws: seq<WhisperWord>)
    requires InTimeOrder(ws)
    ensures Matching.Chronological(SongWordsFrom(ws))
    decreases |ws|
  {
    if ws != [] {
      var n := |ws| - 1;
      var w := ws[n];
      var earlier := ws[..n];
      assert forall j :: 0 <= j < n ==> earlier[j] == ws[j];
      CleanedInTimeOrder(earlier);
      SongWordsCharacterized(earlier);
      var r0 := SongWordsFrom(earlier);
      match Normalize(w.text)
      case None =>
      case Some(word) =>
        var r := r0 + [SongWord(word, w.start, w.end)];
        assert SongWordsFrom(ws) == r;
        forall i | 0 <= i < |r0| ensures r0[i].end <= w.start {
          var j :| 0 <= j < |earlier| && Normalize(earlier[j].text) == Some(r0[i].word)
            && earlier[j].start == r0[i].start && earlier[j].end == r0[i].end;
        }
        Matching.ChronologicalAppend(r0, SongWord(word, w.start, w.end));
    }
  }
}
