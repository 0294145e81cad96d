# ParodyGenerator core, modelled in Dafny

ParodyGenerator rebuilds the vocals of a song from words spoken in other
recordings. Whisper transcribes every prepared input file into a table of
timed words (the corpus). It also transcribes the song's vocals. Each song
word is matched to a corpus row with the same word, and every donor clip but
the last is time-stretched with a chain of ffmpeg `atempo` steps to fit the
song word's slot; the last is planned with the factor of the match before
it (see "Findings"). A concat list then interleaves the donor clips with the
original vocals between them.

This project models the sequential logic of `main.py` and proves properties
of it:

- `normalizer.dfy`, module `Normalizer`: the token normalizer (strip
  punctuation, reject all-caps tokens, lower-case).
- `transcripts.dfy`, module `Transcripts`: the corpus build loop and the
  loop that cleans the vocals transcript, which feed Whisper's words
  through the normalizer.
- `records.dfy`, module `Records`: the `SongWord`, `InputWord` and
  `ReplacedWord` records, the corpus lookup and the speed factor.
- `matching.dfy`, module `Matching`: the word matcher. `random.choice` is an
  arbitrary member of the candidate list, so the matcher is specified by a
  relation, `Outcome`, that every result satisfies.
- `atempo.dfy`, module `Atempo`: the atempo step planner, as a loop method
  proved against a recursive specification function.
- `cliplist.dfy`, module `ClipList`: the clip-list assembler, as a loop method
  with the counter `clip_i`, proved against a function. The module also holds
  the corrected list described under "Findings".
- `pipeline.dfy`, module `Pipeline`: how the cleaned transcript, the matcher
  and the assembler fit together.
- `example.dfy`, module `Example`: the matcher and the assembler on a
  three-word song.
- `wrappers.dfy`, module `Wrappers`: `Option`, and `Result`, which is a value or
  the exception that ends the script.

Durations and factors are `real`, so halving, doubling and division are
exact. Whether ffmpeg wrote a donor clip is an input predicate `produced`
over clip numbers. Whisper's output is an input (segments of timed words).
The SQLite table is a sequence of rows in insertion order.

The model keeps the code's own choices, some of which differ from what a
tool of this kind might be expected to do:

- The all-caps test runs after punctuation is stripped, not on the raw token.
  `Normalizer.AllCapsCheckIgnoresPunctuation` proves that the two give the
  same answer.
- The planner uses `if`/`elif`, so only one of its two loops runs. It emits
  the residual whenever it is positive, so a factor of 1.0 yields `[1.0]`,
  not an empty plan. The upper step bound is 2.0.
- The matcher picks a random candidate. It does not rank candidates by
  closeness to 1.0, and it has no minimum-duration floor.
- The vocals between matched words are copied through, not replaced by
  silence. A loop donor clip that ffmpeg failed to write is left out of the
  list, and no silence is substituted for it (main.py:343). The last donor
  line is written regardless (main.py:382).
- The loudness equalizer does not exist in this code.
- Zero-length song slots and negative factors are not filtered out. A
  zero-length slot is harmless for a word without corpus rows, which is
  skipped before the division, but raises `ZeroDivisionError` for a word
  with rows; the matcher returns that crash. A negative factor makes the
  planner's doubling loop run forever, so the planner requires a positive
  factor.

## Model

| member | source | states |
|---|---|---|
| Normalizer.StripPunctuation | main.py:120 | the result keeps exactly the characters of the token that are not punctuation, and is never longer |
| Normalizer.Upper | main.py:122 | upper-casing keeps the length and maps each character through the ASCII upper-case map |
| Normalizer.Lower | main.py:125 | lower-casing keeps the length and maps each character through the ASCII lower-case map |
| Normalizer.Normalize | main.py:119-126 | a token is rejected exactly when its stripped form has no lower-case letter; an accepted word is as long as the stripped form and holds neither punctuation nor capitals |
| Normalizer.LowerOfStrippedIsClean | main.py:120-125 | lower-casing a token without punctuation leaves neither punctuation nor capitals |
| Normalizer.AllCapsIffNoLower | main.py:122 | a string equals its upper-case form exactly when it holds no lower-case letter |
| Normalizer.RejectedIffNoLowerCase | main.py:119-123 | a token is rejected if and only if it has no lower-case letter; this covers all-caps words, the empty string, digit-only tokens and "I" |
| Normalizer.AllCapsCheckIgnoresPunctuation | main.py:120-122 | testing for all-caps before or after stripping punctuation gives the same answer |
| Normalizer.AcceptedIsNormal | main.py:119-125 | every accepted token comes out non-empty, with no punctuation and no capital, and with at least one lower-case letter |
| Normalizer.NormalWordIsFixedPoint | main.py:119-125 | normalizing such a normal word accepts it and returns it unchanged |
| Normalizer.NormalizeIdempotent | main.py:119-125 | normalizing an accepted word again gives the same result |
| Normalizer.NoPunctuationStripsToSelf | main.py:120 | stripping a token without punctuation returns it unchanged |
| Normalizer.StripConcat | main.py:120 | stripping a concatenation strips each part |
| Normalizer.StripsSurrounding | main.py:120 | the leading space and trailing comma that Whisper attaches to a word are removed |
| Normalizer.RejectsApplause | main.py:122-123 | "APPLAUSE" is rejected |
| Normalizer.RejectsNonLexical | main.py:119-123 | "", " I" and " 1999." are rejected |
| Normalizer.AcceptsWord | main.py:119-125 | " Hello," normalizes to "hello" |
| Transcripts.TranscriptRows | main.py:117-131 | the rows inserted for one file are, in order, one row per accepted Whisper word, carrying that file's path and the word's times |
| Transcripts.BuildCorpus | main.py:109-131 | the corpus is the rows of every file in turn, starting from an empty table |
| Transcripts.CleanVocalsTranscript | main.py:182-197 | the song words are, in order, one per accepted Whisper word, carrying the word's times |
| Transcripts.SongWordsCharacterized | main.py:182-197 | there are no more song words than Whisper words; each is a normal word that some Whisper word normalizes to, with that word's start and end |
| Transcripts.AcceptedWordsKept | main.py:182-197 | conversely, every Whisper word the normalizer accepts appears as a song word with its times |
| Transcripts.AcceptedWordKept | main.py:182-197 | the song word of an accepted Whisper word at position j is found among the song words, with its word and times |
| Transcripts.SameTransformForCorpusAndSong | main.py:119-128 | from the same Whisper words, a file's rows and the song words agree position by position in word and times |
| Transcripts.CorpusWordsNormal | main.py:109-131 | every row of the built corpus holds a normal word |
| Transcripts.CleanedInTimeOrder | main.py:182-197 | cleaning a transcript whose words are in time order gives song words in time order |
| Records.Lookup | main.py:235 | the rows found are exactly the corpus rows with that word, and there are no more of them than rows |
| Records.SpeedFactor | main.py:247-249 | the factor is the ratio that scales the song slot's length to the donor's length |
| Records.SpeedFactorZeroIff | main.py:247-256 | the speed factor is zero exactly when the donor has zero length |
| Records.SpeedFactorPositive | main.py:247-249 | a donor and a song slot of positive length give a positive factor |
| Matching.MatchWords | main.py:227-262 | the loop raises `ZeroDivisionError` exactly when some song word with corpus rows has a zero-length slot; otherwise its result is one of the outcomes the relation allows: each song word in order is either skipped, when it has no candidate or a candidate of factor 0, or contributes one replacement |
| Matching.OutcomeEntries | main.py:235-262 | every replacement pairs a song word with a corpus row of the same word, and its factor is the donor's length over the slot's length and non-zero |
| Matching.OutcomeInOrder | main.py:227-262 | replacements come from strictly increasing positions of the song words, and every position left out holds a skippable word |
| Matching.OutcomeComplete | main.py:227-262 | when no song word is skippable, every song word is replaced, in order |
| Matching.OutcomeChronological | main.py:227-262 | matching song words in time order gives replacements whose slots are in time order |
| Matching.ChronologicalAppend | main.py:227-262 | a slot that starts no earlier than every earlier slot ends keeps a time-ordered list in time order |
| Matching.OutcomeFactorsPositive | main.py:247-256 | with song slots and rows whose end is not before their start, every recorded factor is positive |
| Atempo.HalvingDecreases | main.py:315-317 | halving a factor above 2.0 lowers the loop's measure, so the loop ends |
| Atempo.DoublingDecreases | main.py:319-321 | doubling a factor below 0.5 lowers the loop's measure, so the loop ends |
| Atempo.NonPositiveFactorNeverLeavesLoop | main.py:314-321 | a factor of zero or below takes the doubling branch and still satisfies its loop guard after any number of rounds |
| Atempo.AtempoStepsSound | main.py:312-324 | for a positive factor, the steps are never empty; each lies in [0.5, 2.0]; their product is the factor. A factor in [0.5, 2.0] is the only step. Above 2.0 all steps before the residual are 2.0 and the residual lies in (1.0, 2.0]. Below 0.5 they are 0.5 and the residual lies in [0.5, 1.0) |
| Atempo.PlanAtempo | main.py:312-324 | the planner loop emits exactly the specified steps |
| Atempo.PlanOfOne | main.py:322-323 | a factor of 1.0 yields the single step 1.0 |
| Atempo.PlanOfFive | main.py:314-323 | 5.0 yields 2.0, 2.0, 1.25 |
| Atempo.PlanOfOneFifth | main.py:318-323 | 0.2 yields 0.5, 0.5, 0.8 |
| ClipList.AssembleClipList | main.py:284-391 | the assembler, with its clip counter, returns the specified list, or the crash the script hits |
| ClipList.WritePair | main.py:303-354 | one loop iteration appends the donor line of clip 2i+1 when its file exists, then the vocals line of clip 2i+2, and advances the counter by two |
| ClipList.WriteLastPair | main.py:358-391 | after the loop, the script crashes with `NameError` when the loop never ran; otherwise it appends the last donor line, planned with the leftover `replace`, and the vocals to the end of the track, which gives the specified list |
| ClipList.LoopEntriesSegments | main.py:303-354 | every line the loop writes has a clip number in 1..2i and holds that clip's segment: a donor clip for odd numbers, the vocals between two matches for even ones |
| ClipList.LoopEntriesIncreasing | main.py:303-354 | the loop's lines come in strictly increasing clip order |
| ClipList.LoopEntriesCover | main.py:343-354 | a loop clip gets a line exactly when it is a vocals clip or a donor clip whose file exists |
| ClipList.PairClips | main.py:303-354 | one iteration writes its vocals clip 2i+2, and its donor clip 2i+1 exactly when that file exists, and no other clip |
| ClipList.LeadAndTailClips | main.py:284-391 | the lead-in holds clip 0 only, and the two lines after the loop hold clips 2n-1 and 2n only |
| ClipList.LoopEntriesComplete | main.py:303-354 | with every donor file present, the loop writes clips 1..2i, one line each |
| ClipList.ClipListSegments | main.py:284-391 | with two or more matches the list opens with clip 0 and closes with clip 2n, and every line holds the segment of its clip number |
| ClipList.ClipListIncreasing | main.py:284-391 | clip numbers strictly increase along the list |
| ClipList.ClipListListed | main.py:343-391 | a clip in 0..2n has a line exactly when it is a vocals clip, the last donor clip, or a loop donor clip whose file exists |
| ClipList.ClipListComplete | main.py:284-391 | with n >= 2 matches and every file present, the list has 2n+1 lines numbered 0..2n. It opens with vocals [0, first start]. Then, for each consecutive pair, it holds the first one's donor clip and the vocals between them. It closes with the last donor clip and the vocals from the last end to the end of the track |
| ClipList.HasClipConcat | main.py:284-391 | a concatenation of lines holds a clip exactly when one of its parts does |
| ClipList.ClipListNumbered | main.py:284-391 | with every donor file present, the list has 2n+1 lines and line k holds clip k |
| ClipList.PairSegments | main.py:303-354 | clip 2i+1 is the donor of match i at its planned steps, and clip 2i+2 is the vocals between matches i and i+1 |
| ClipList.VocalSlicesInOrder | main.py:284-391 | for matches in time order, every vocals slice starts at or after 0 and does not stop before it starts |
| ClipList.ClipListDonorSteps | main.py:310-382 | every donor line cuts the donor row of its replacement. Its steps lie in [0.5, 2.0] and multiply to the factor of the replacement they were planned for, which for the last donor clip is the one before it |
| ClipList.LastDonorUsesPenultimateFactor | main.py:365 | for factors 1.0 and 4.0, the last donor clip gets the plan [1.0], whose product is not its own factor |
| ClipList.SingleMatchCrashes | main.py:365 | with one match the script dies on the unbound `replace` |
| ClipList.FixedClipList | main.py:284-391 | the corrected list crashes with `IndexError` exactly when there is no match; otherwise it has at least three lines, opening with vocals up to the first word and closing with clip 2n, the vocals after the last word |
| ClipList.FixedDonorsComposeToOwnFactor | main.py:359-382 | in the corrected list, every donor clip's steps multiply to its own replacement's factor, each within [0.5, 2.0], whenever there is at least one match |
| ClipList.FixedSingleMatch | main.py:359-391 | with one match the corrected list is vocals up to the word, its donor clip at its own factor, then the vocals after it |
| ClipList.FixedAgreesExceptLastSteps | main.py:359-382 | with two or more matches, the correction changes nothing but the steps of the last donor clip |
| Pipeline.MatchedTranscriptIsPlannable | main.py:182-262 | a vocals transcript in time order, matched against rows that do not end before they start, gives replacements with positive factors in time order, so both the written and the corrected assembler can plan every donor clip |
| Example.OnlyOutcome | main.py:227-262 | for "hi there world" with donors for "hi" and "world" only, every outcome drops "there" and pairs the other two with their donors at factor 1.0 |
| Example.ExampleClipList | main.py:284-391 | that outcome gives lead-in, "hi", the vocals of "there", "world", trail-out |
| Example.ZeroLengthSlots | main.py:238-249 | a zero-length "there", which has no rows, is dropped without a crash; a zero-length "hi", which has a row, makes the matcher crash |

## Left out

- Whisper, Spleeter under Docker, ffmpeg, `cp`, `rm` and the folder handling are external tools. Their results are inputs: Whisper's timed words, and the `produced` predicate for donor files. The command strings are not modelled.
- SQLite is a sequence of rows. Storing the times as text and reading them back with `float` is taken to be exact.
- Floating point is modelled as exact reals. So a factor that is infinite or that falls just short of a bound through rounding is not modelled, and the `inf` test of main.py:251 cannot succeed.
- Atempo.PlanAtempo: requires a positive factor, because the source's doubling loop never ends on a factor of zero or below.
- ClipList.AssembleClipList: requires positive factors for every replacement but the last, for the same reason; the last factor is never planned.
- Case mapping covers ASCII letters only. Python's `upper` and `lower` are Unicode-aware, so a token made only of non-ASCII lower-case letters is accepted by the source and rejected here. Non-ASCII capitals also survive lower-casing here: "École" normalizes to "École", where Python gives "école".
- `word.strip()` at main.py:126 and main.py:195 discards its result, so it is not modelled.
- The randomness of `random.choice` is not modelled: any candidate may be chosen.
- Progress bars, prints, the `file '...'` text of the concat list and the final concatenation and mix (main.py:395-431) are left out.
- The last donor command quotes its filter chain inside the argument (main.py:379). What ffmpeg does with those quotes is outside the model; the line is written regardless.

## Findings

| source | as written | input that shows it | evidently intended | confidence | as-written member | corrected member |
|---|---|---|---|---|---|---|
| main.py:365 | the last donor clip is planned with `replace.speed_factor`, the factor of the match before it | two matches with factors 1.0 and 4.0: the last clip is played at tempo 1.0 | plan it with `last_replace.speed_factor` | high, not executed | ClipList.LastDonorUsesPenultimateFactor | ClipList.FixedDonorsComposeToOwnFactor |
| main.py:365 | with exactly one match the loop never binds `replace`, and the script raises `NameError` | any single match | one match gives lead-in, its donor clip and trail-out | high, not executed | ClipList.SingleMatchCrashes | ClipList.FixedSingleMatch |
