/** The matcher and the clip list on a three-word song, "hi there
    world", whose corpus holds a donor of exactly the right length for "hi"
    and for "world" and none for "there". */
module Example {
  import opened Wrappers
  import opened Records
  import Matching
  import opened Atempo
  import opened ClipList

  function Song(): seq<SongWord>
  {
    [SongWord("hi", 0.0, 0.3), SongWord("there", 0.3, 0.6), SongWord("world", 0.6, 1.0)]
  }

  function Corpus(): seq<InputWord>
  {
    [InputWord("hi", "hi.wav", 2.0, 2.3), InputWord("world", "world.wav", 1.0, 1.4)]
  }

  /** Whatever the matcher chooses, it drops "there" and pairs "hi" and
      "world" with their donors at factor 1.0. */
  lemma OnlyOutcome(replaced: seq<ReplacedWord>)
    requires Matching.WellTimed(Song(), Corpus())
    requires Matching.Outcome(Song(), Corpus(), replaced)
    ensures replaced == [ReplacedWord(Song()[0], Corpus()[0], 1.0),
                         ReplacedWord(Song()[2], Corpus()[1], 1.0)]
  {
    var s := Song();
    var c := Corpus();
    assert Lookup(c, "hi") == [c[0]];
    assert Lookup(c, "there") == [];
    assert Lookup(c, "world") == [c[1]];
    assert s[..2] == [s[0], s[1]] && s[..2][..1] == [s[0]] && s[..1][..0] == [];
    assert SpeedFactor(c[0], s[0]) == 1.0;
    assert SpeedFactor(c[1], s[2]) == 1.0;
    assert !Matching.Skippable(s[2], c);
    assert !Matching.Skippable(s[0], c);
    // "world" is kept: the last entry is its pair, the rest an outcome of "hi there".
    var rHiThere := replaced[..|replaced| - 1];
    assert Matching.Outcome(s[..2], c, rHiThere);
    assert replaced == rHiThere + [replaced[|replaced| - 1]];
    assert replaced[|replaced| - 1] == ReplacedWord(s[2], c[1], 1.0);
    // "there" has no donor and is dropped.
    assert s[..2][1] == s[1] && s[..2][..1] == s[..1];
    assert Lookup(c, s[..2][1].word) == [];
    assert Matching.Outcome(s[..1], c, rHiThere);
    // "hi" is kept.
    assert rHiThere != [] && Matching.Outcome(s[..1][..0], c, rHiThere[..|rHiThere| - 1]);
    assert rHiThere[|rHiThere| - 1] == ReplacedWord(s[0], c[0], 1.0);
    assert rHiThere == rHiThere[..|rHiThere| - 1] + [rHiThere[|rHiThere| - 1]];
  }

  /** The list the script writes for it: vocals up to "hi", the "hi" donor,
      the vocals of "there", the "world" donor, the vocals after "world". */
  lemma ExampleClipList(replaced: seq<ReplacedWord>, produced: nat -> bool)
    requires forall c: nat :: produced(c)
    requires Matching.WellTimed(Song(), Corpus())
    requires Matching.Outcome(Song(), Corpus(), replaced)
    ensures PlannedFactorsPositive(replaced)
    ensures ClipList.ClipList(replaced, produced)
      == Ok([Entry(0, VocalSlice(0.0, At(0.0))),
             Entry(1, DonorClip("hi.wav", 2.0, 2.3, [1.0])),
             Entry(2, VocalSlice(0.3, At(0.6))),
             Entry(3, DonorClip("world.wav", 1.0, 1.4, [1.0])),
             Entry(4, VocalSlice(1.0, TrackEnd))])
  {
    OnlyOutcome(replaced);
    PlanOfOne();
    assert LeadIn(replaced) == Entry(0, VocalSlice(0.0, At(0.0)));
    assert Tail(replaced)
      == [Entry(3, DonorClip("world.wav", 1.0, 1.4, [1.0])), Entry(4, VocalSlice(1.0, TrackEnd))];
    assert LoopEntries(replaced, 1, produced) == PairEntries(replaced, 0, produced);
    assert PairEntries(replaced, 0, produced)
      == [Entry(1, DonorClip("hi.wav", 2.0, 2.3, [1.0])), Entry(2, VocalSlice(0.3, At(0.6)))];
    var lines := [Entry(0, VocalSlice(0.0, At(0.0)))]
      + [Entry(1, DonorClip("hi.wav", 2.0, 2.3, [1.0])), Entry(2, VocalSlice(0.3, At(0.6)))]
      + [Entry(3, DonorClip("world.wav", 1.0, 1.4, [1.0])), Entry(4, VocalSlice(1.0, TrackEnd))];
    assert lines == [Entry(0, VocalSlice(0.0, At(0.0))),
                     Entry(1, DonorClip("hi.wav", 2.0, 2.3, [1.0])),
                     Entry(2, VocalSlice(0.3, At(0.6))),
                     Entry(3, DonorClip("world.wav", 1.0, 1.4, [1.0])),
                     Entry(4, VocalSlice(1.0, TrackEnd))];
  }

  /** A zero-length slot is harmless for a word without corpus rows, which
      is skipped before the division, and fatal for a word with rows: "there"
      of length 0 leaves the matcher with nothing, "hi" of length 0 makes it
      raise `ZeroDivisionError`. */
  lemma ZeroLengthSlots()
    ensures Matching.WellTimed([SongWord("there", 0.3, 0.3)], Corpus())
    ensures Matching.Outcome([SongWord("there", 0.3, 0.3)], Corpus(), [])
    ensures !Matching.WellTimed([SongWord("hi", 0.3, 0.3)], Corpus())
  {
    var c := Corpus();
    assert Lookup(c, "there") == [];
    assert Lookup(c, "hi") == [c[0]];
    assert [SongWord("there", 0.3, 0.3)][..0] == [];
    var hi := [SongWord("hi", 0.3, 0.3)];
    assert Lookup(c, hi[0].word) != [] && hi[0].end == hi[0].start;
  }
}
