/** The value records of main.py:206-221 and the corpus table they are read
    from. The SQLite `words` table (main.py:27-35) becomes a sequence of
    `InputWord` rows in insertion order; the timestamps, stored there as
    text and read back with `float`, are kept as `real`. */
module Records {

  /** A word recognised in the song's vocals, with its time slot in seconds. */
  datatype SongWord = SongWord(word: string, start: real, end: real)

  /** A corpus row: a word spoken in a prepared input file, with its slot. */
  datatype InputWord = InputWord(word: string, file: string, start: real, end: real)

  /** A song word paired with the donor row chosen for it. */
  datatype ReplacedWord = ReplacedWord(songWord: SongWord, inputWord: InputWord, speedFactor: real)

  /** `SELECT * FROM words WHERE word = ?` (main.py:235): every row whose word
      is exactly `word`, in table order. */
  function Lookup(corpus: seq<InputWord>, word: string): (rows: seq<InputWord>)
    ensures |rows| <= |corpus|
    ensures forall r :: r in rows <==> r in corpus && r.word == word
  {
    if corpus == [] then []
    else if corpus[0].word == word then [corpus[0]] + Lookup(corpus[1..], word)
    else Lookup(corpus[1..], word)
  }

  /** main.py:247-249: the donor's length over the song slot's length. */
  function SpeedFactor(donor: InputWord, song: SongWord): (f: real)
    requires song.end != song.start
    ensures f * (song.end - song.start) == donor.end - donor.start
  {
    (donor.end - donor.start) / (song.end - song.start)
  }

  /** A zero speed factor is exactly a zero-length donor. */
  lemma SpeedFactorZeroIff(donor: InputWord, song: SongWord)
    requires song.end != song.start
    ensures SpeedFactor(donor, song) == 0.0 <==> donor.end == donor.start
  {
    var d := song.end - song.start;
    assert SpeedFactor(donor, song) * d == donor.end - donor.start;
  }

  /** A donor of positive length in a slot of positive length gives a
      positive factor: the planner's loops then terminate. */
  lemma SpeedFactorPositive(donor: InputWord, song: SongWord)
    requires song.start < song.end && donor.start < donor.end
    ensures SpeedFactor(donor, song) > 0.0
  {
  }
}
