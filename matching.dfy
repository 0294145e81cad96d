/** The word matcher (main.py:227-262): for every song word, in order, look
    up the corpus rows with the same word, skip the word when there are none,
    pick one of them at random, and keep the pair unless its speed factor is
    zero. `random.choice` is modelled as an arbitrary member of the candidate
    list, so the matcher is specified by the relation `Outcome` between its
    inputs and every result it may produce. */
module Matching {
  import opened Wrappers
  import opened Records

  /** Every song word that has a corpus row has a slot of non-zero length.
      A word without rows is skipped before the division (main.py:238-241);
      one with rows and a zero-length slot makes the division at main.py:249
      raise `ZeroDivisionError`. */
  predicate WellTimed(songWords: seq<SongWord>, corpus: seq<InputWord>)
  {
    forall i :: 0 <= i < |songWords| && Lookup(corpus, songWords[i].word) != [] ==>
      songWords[i].end != songWords[i].start
  }

  /** A song word the matcher may drop: no row has its word, or some row it
      may pick has zero length (speed factor 0, main.py:254-256). */
  predicate Skippable(w: SongWord, corpus: seq<InputWord>)
  {
    var candidates := Lookup(corpus, w.word);
    || candidates == []
    || (w.end != w.start && exists d :: d in candidates && SpeedFactor(d, w) == 0.0)
  }

  /** A replacement the matcher may record: a row found for the song word,
      with the song word's own speed factor, which is not zero. */
  predicate IsReplacement(r: ReplacedWord, corpus: seq<InputWord>)
  {
    && r.songWord.end != r.songWord.start
    && r.inputWord in Lookup(corpus, r.songWord.word)
    && r.speedFactor == SpeedFactor(r.inputWord, r.songWord)
    && r.speedFactor != 0.0
  }

  /** `replaced` is a list the loop of main.py:227-262 can produce from
      `songWords`: each song word, in order, is either dropped because it is
      skippable or contributes one replacement. */
  ghost predicate Outcome(songWords: seq<SongWord>, corpus: seq<InputWord>, replaced: seq<ReplacedWord>)
    requires WellTimed(songWords, corpus)
    decreases |songWords|
  {
    if songWords == [] then replaced == []
    else
      var n := |songWords| - 1;
      var w := songWords[n];
      var earlier := songWords[..n];
      || (Outcome(earlier, corpus, replaced) && Skippable(w, corpus))
      || (&& replaced != []
          && Outcome(earlier, corpus, replaced[..|replaced| - 1])
          && replaced[|replaced| - 1].songWord == w
          && IsReplacement(replaced[|replaced| - 1], corpus))
  }

  /** The matching loop. It crashes exactly when some song word with corpus
      rows has a zero-length slot; otherwise its list is an outcome. The `inf`
      test of main.py:251 cannot succeed on exact reals and is not modelled. */
  method MatchWords(songWords: seq<SongWord>, corpus: seq<InputWord>) returns (r: Result<seq<ReplacedWord>>)
    ensures r.Crashed? <==> !WellTimed(songWords, corpus)
    ensures r.Crashed? ==> r.error == ZeroDivisionError
    ensures r.Ok? ==> Outcome(songWords, corpus, r.value)
  {
    var replaced := [];
    for i := 0 to |songWords|
      invariant WellTimed(songWords[..i], corpus)
      invariant Outcome(songWords[..i], corpus, replaced)
    {
      var sw := songWords[i];
      assert songWords[..i + 1][..i] == songWords[..i];
      var results := Lookup(corpus, sw.word);
      if |results| == 0 {
        continue;
      }
      if sw.end - sw.start == 0.0 {
        assert songWords[i] == sw;
        return Crashed(ZeroDivisionError);
      }
      assert results[0] in results;
      var result :| result in results;
      var speedFactor := SpeedFactor(result, sw);
      if speedFactor == 0.0 {
        continue;
      }
      var iw := InputWord(result.word, result.file, result.start, result.end);
      ghost var before := replaced;
      replaced := replaced + [ReplacedWord(sw, iw, speedFactor)];
      assert replaced[..|replaced| - 1] == before;
    }
    assert songWords[..|songWords|] == songWords;
    r := Ok(replaced);
  }

  /** Every recorded replacement pairs a song word with a corpus row of the
      same word, and carries that pair's non-zero speed factor. */
  lemma {:induction false} OutcomeEntries(songWords: seq<SongWord>, corpus: seq<InputWord>, replaced: seq<ReplacedWord>)
    requires WellTimed(songWords, corpus) && Outcome(songWords, corpus, replaced)
    ensures forall k :: 0 <= k < |replaced| ==>
      && replaced[k].songWord in songWords
      && replaced[k].inputWord in corpus
      && replaced[k].inputWord.word == replaced[k].songWord.word
      && replaced[k].speedFactor
           == (replaced[k].inputWord.end - replaced[k].inputWord.start)
              / (replaced[k].songWord.end - replaced[k].songWord.start)
      && replaced[k].speedFactor != 0.0
    decreases |songWords|
  {
    if songWords != [] {
      var n := |songWords| - 1;
      var earlier := songWords[..n];
      assert forall w :: w in earlier ==> w in songWords;
      if Outcome(earlier, corpus, replaced) && Skippable(songWords[n], corpus) {
        OutcomeEntries(earlier, corpus, replaced);
      } else {
        var prefix := replaced[..|replaced| - 1];
        OutcomeEntries(earlier, corpus, prefix);
        assert forall k :: 0 <= k < |prefix| ==> replaced[k] == prefix[k];
      }
    }
  }

  /** Matching preserves the order of the song words: the replacements come
      from strictly increasing positions `idx` of `songWords`, and every
      position left out holds a skippable word. */
  lemma {:induction false} OutcomeInOrder(songWords: seq<SongWord>, corpus: seq<InputWord>, replaced: seq<ReplacedWord>)
    returns (idx: seq<nat>)
    requires WellTimed(songWords, corpus) && Outcome(songWords, corpus, replaced)
    ensures |idx| == |replaced|
    ensures forall k :: 0 <= k < |idx| ==> idx[k] < |songWords| && replaced[k].songWord == songWords[idx[k]]
    ensures forall k, l :: 0 <= k < l < |idx| ==> idx[k] < idx[l]
    ensures forall j :: 0 <= j < |songWords| && j !in idx ==> Skippable(songWords[j], corpus)
    decreases |songWords|
  {
    if songWords == [] {
      idx := [];
    } else {
      var n := |songWords| - 1;
      var earlier := songWords[..n];
      if Outcome(earlier, corpus, replaced) && Skippable(songWords[n], corpus) {
        idx := OutcomeInOrder(earlier, corpus, replaced);
      } else {
        var prefix := replaced[..|replaced| - 1];
        var first := OutcomeInOrder(earlier, corpus, prefix);
        idx := first + [n];
        assert forall k :: 0 <= k < |prefix| ==> replaced[k] == prefix[k];
        forall j | 0 <= j < |songWords| && j !in idx
          ensures Skippable(songWords[j], corpus)
        {
          assert j != n && j !in first;
          assert songWords[j] == earlier[j];
        }
      }
    }
  }

  /** When no song word is skippable, every song word is replaced, in order. */
  lemma {:induction false} OutcomeComplete(songWords: seq<SongWord>, corpus: seq<InputWord>, replaced: seq<ReplacedWord>)
    requires WellTimed(songWords, corpus) && Outcome(songWords, corpus, replaced)
    requires forall j :: 0 <= j < |songWords| ==> !Skippable(songWords[j], corpus)
    ensures |replaced| == |songWords|
    ensures forall k :: 0 <= k < |replaced| ==> replaced[k].songWord == songWords[k]
    decreases |songWords|
  {
    if songWords != [] {
      var n := |songWords| - 1;
      var earlier := songWords[..n];
      assert !Skippable(songWords[n], corpus);
      var prefix := replaced[..|replaced| - 1];
      assert forall j :: 0 <= j < |earlier| ==> earlier[j] == songWords[j];
      OutcomeComplete(earlier, corpus, prefix);
      assert forall k :: 0 <= k < |prefix| ==> replaced[k] == prefix[k];
    }
  }

  /** Song slots that start at or after zero, have a non-negative length and
      follow one another without overlap, as a transcript delivers them. */
  predicate Chronological(songWords: seq<SongWord>)
  {
    && (forall i :: 0 <= i < |songWords| ==> 0.0 <= songWords[i].start <= songWords[i].end)
    && (forall i, j :: 0 <= i < j < |songWords| ==> songWords[i].end <= songWords[j].start)
  }

  /** A slot that starts no earlier than every slot before it ends extends
      a chronological list. */
  lemma ChronologicalAppend(songWords: seq<SongWord>, w: SongWord)
    requires Chronological(songWords) && 0.0 <= w.start <= w.end
    requires forall i :: 0 <= i < |songWords| ==> songWords[i].end <= w.start
    ensures Chronological(songWords + [w])
  {
    var r := songWords + [w];
    assert forall i :: 0 <= i < |songWords| ==> r[i] == songWords[i];
  }

  /** The song words of a list of replacements. */
  function SongWordsOf(replaced: seq<ReplacedWord>): (ws: seq<SongWord>)
    ensures |ws| == |replaced|
    ensures forall k :: 0 <= k < |replaced| ==> ws[k] == replaced[k].songWord
  {
    seq(|replaced|, k requires 0 <= k < |replaced| => replaced[k].songWord)
  }

  /** Matching a chronological transcript yields chronological replacements. */
  lemma OutcomeChronological(songWords: seq<SongWord>, corpus: seq<InputWord>, replaced: seq<ReplacedWord>)
    requires WellTimed(songWords, corpus) && Outcome(songWords, corpus, replaced)
    requires Chronological(songWords)
    ensures Chronological(SongWordsOf(replaced))
  {
    var idx := OutcomeInOrder(songWords, corpus, replaced);
    var ws := SongWordsOf(replaced);
    forall i, j | 0 <= i < j < |ws| ensures ws[i].end <= ws[j].start {
      assert idx[i] < idx[j];
    }
  }

  /** With song slots and corpus rows whose end is not before their start,
      every recorded speed factor is positive: a replacement never has a
      zero-length slot or a zero-length donor. */
  lemma OutcomeFactorsPositive(songWords: seq<SongWord>, corpus: seq<InputWord>, replaced: seq<ReplacedWord>)
    requires WellTimed(songWords, corpus) && Outcome(songWords, corpus, replaced)
    requires forall i :: 0 <= i < |songWords| ==> songWords[i].start <= songWords[i].end
    requires forall r :: r in corpus ==> r.start <= r.end
    ensures forall k :: 0 <= k < |replaced| ==> replaced[k].speedFactor > 0.0
  {
    OutcomeEntries(songWords, corpus, replaced);
    forall k | 0 <= k < |replaced| ensures replaced[k].speedFactor > 0.0 {
      var r := replaced[k];
      assert r.songWord in songWords;
      SpeedFactorZeroIff(r.inputWord, r.songWord);
      assert r.songWord.start < r.songWord.end;
      assert r.inputWord.start < r.inputWord.end;
      SpeedFactorPositive(r.inputWord, r.songWord);
    }
  }
}
