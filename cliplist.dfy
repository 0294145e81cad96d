/** The clip list behind the output voice track (main.py:284-391). Each
    entry is one `file '<clip>.wav'` line of the concat list: a slice of the
    song's vocals or a donor clip cut from a prepared input file and passed
    through a chain of `atempo` steps. The original vocals are copied through
    between the matched words. Whether ffmpeg managed to write a donor clip
    is the input predicate `produced`, over the clip's number. */
module ClipList {
  import opened Wrappers
  import opened Records
  import opened Atempo
  import Matching

  /** Where a vocals slice stops: at a time, or at the end of the track. */
  datatype SliceEnd = At(time: real) | TrackEnd

  datatype Segment =
    | VocalSlice(start: real, stop: SliceEnd)
    | DonorClip(file: string, start: real, end: real, steps: seq<real>)

  /** One line of the concat list: the clip's number and what it holds. */
  datatype Entry = Entry(clip: nat, segment: Segment)

  /** The source plans steps for every replacement but the last; the
      planner's loops would never end on a factor of zero or below. */
  predicate PlannedFactorsPositive(replaced: seq<ReplacedWord>)
  {
    forall i :: 0 <= i < |replaced| - 1 ==> replaced[i].speedFactor > 0.0
  }

  function Donor(r: ReplacedWord, steps: seq<real>): Segment
  {
    DonorClip(r.inputWord.file, r.inputWord.start, r.inputWord.end, steps)
  }

  /** The vocals between the song slots of replacements `i` and `i + 1`. */
  function Gap(replaced: seq<ReplacedWord>, i: nat): Segment
    requires i + 1 < |replaced|
  {
    VocalSlice(replaced[i].songWord.end, At(replaced[i + 1].songWord.start))
  }

  /** The lines written by iteration `i` of the loop (main.py:304-354): the
      donor clip `2i+1` when its file exists, then the vocals clip `2i+2`. */
  function PairEntries(replaced: seq<ReplacedWord>, i: nat, produced: nat -> bool): seq<Entry>
    requires i + 1 < |replaced| && PlannedFactorsPositive(replaced)
  {
    (if produced(2 * i + 1)
     then [Entry(2 * i + 1, Donor(replaced[i], AtempoSteps(replaced[i].speedFactor)))]
     else [])
    + [Entry(2 * i + 2, Gap(replaced, i))]
  }

  /** The lines written by the first `i` iterations of the loop. */
  function LoopEntries(replaced: seq<ReplacedWord>, i: nat, produced: nat -> bool): seq<Entry>
    requires i < |replaced| && PlannedFactorsPositive(replaced)
    decreases i
  {
    if i == 0 then []
    else LoopEntries(replaced, i - 1, produced) + PairEntries(replaced, i - 1, produced)
  }

  function LeadIn(replaced: seq<ReplacedWord>): Entry
    requires replaced != []
  {
    Entry(0, VocalSlice(0.0, At(replaced[0].songWord.start)))
  }

  /** The two lines after the loop (main.py:358-391): the last donor clip,
      planned with the factor of `replace`, the loop's last value, i.e.
      `replaced_words[n - 2]`, not with its own; then the vocals to the end. */
  function Tail(replaced: seq<ReplacedWord>): seq<Entry>
    requires 2 <= |replaced| && PlannedFactorsPositive(replaced)
  {
    var n := |replaced|;
    [Entry(2 * n - 1, Donor(replaced[n - 1], AtempoSteps(replaced[n - 2].speedFactor))),
     Entry(2 * n, VocalSlice(replaced[n - 1].songWord.end, TrackEnd))]
  }

  /** The concat list as the script writes it. */
  function ClipList(replaced: seq<ReplacedWord>, produced: nat -> bool): Result<seq<Entry>>
    requires PlannedFactorsPositive(replaced)
  {
    var n := |replaced|;
    if n == 0 then Crashed(IndexError)
    else if n == 1 then Crashed(NameError)
    else Ok([LeadIn(replaced)] + LoopEntries(replaced, n - 1, produced) + Tail(replaced))
  }

  /** One iteration of the loop of main.py:303-354: plan and write donor
      clip `clip` when its file exists, then write vocals clip `clip + 1`. */
  method WritePair(replaced: seq<ReplacedWord>, i: nat, produced: nat -> bool, entries: seq<Entry>, clip: nat)
    returns (entries': seq<Entry>, clip': nat)
    requires i + 1 < |replaced| && PlannedFactorsPositive(replaced) && clip == 2 * i + 1
    requires entries == [LeadIn(replaced)] + LoopEntries(replaced, i, produced)
    ensures entries' == entries + PairEntries(replaced, i, produced)
    ensures entries' == [LeadIn(replaced)] + LoopEntries(replaced, i + 1, produced)
    ensures clip' == clip + 2
  {
    var current := replaced[i];
    var donorClip := clip;
    clip' := clip + 1;
    var steps := PlanAtempo(current.speedFactor);
    entries' := entries;
    if produced(donorClip) {
      entries' := entries' + [Entry(donorClip, Donor(current, steps))];
    }
    var gapClip := clip';
    clip' := clip' + 1;
    entries' := entries' + [Entry(gapClip, Gap(replaced, i))];
  }

  /** main.py:284-391, with the counter `clip_i` and the leftover loop
      variable `replace` (None while unbound). */
  method AssembleClipList(replaced: seq<ReplacedWord>, produced: nat -> bool) returns (r: Result<seq<Entry>>)
    requires PlannedFactorsPositive(replaced)
    ensures r == ClipList(replaced, produced)
  {
    if |replaced| == 0 {
      return Crashed(IndexError);
    }
    var clip: nat := 0;
    var first := replaced[0];
    var entries := [Entry(clip, VocalSlice(0.0, At(first.songWord.start)))];
    clip := clip + 1;
    var replace: Option<ReplacedWord> := None;
    var i := 0;
    while i < |replaced| - 1
      invariant 0 <= i <= |replaced| - 1
      invariant clip == 2 * i + 1
      invariant replace == if i == 0 then None else Some(replaced[i - 1])
      invariant entries == [LeadIn(replaced)] + LoopEntries(replaced, i, produced)
    {
      replace := Some(replaced[i]);
      entries, clip := WritePair(replaced, i, produced, entries, clip);
      i := i + 1;
    }
    r := WriteLastPair(replaced, produced, entries, clip, replace);
  }

  /** main.py:358-391, after the loop: the last donor clip, planned with the
      factor of the leftover `replace`, then the vocals to the end. */
  method WriteLastPair(replaced: seq<ReplacedWord>, produced: nat -> bool, entries: seq<Entry>, clip: nat,
                       replace: Option<ReplacedWord>)
    returns (r: Result<seq<Entry>>)
    requires replaced != [] && PlannedFactorsPositive(replaced)
    requires clip == 2 * |replaced| - 1
    requires replace == if |replaced| == 1 then None else Some(replaced[|replaced| - 2])
    requires entries == [LeadIn(replaced)] + LoopEntries(replaced, |replaced| - 1, produced)
    ensures r == ClipList(replaced, produced)
  {
    var last := replaced[|replaced| - 1];
    var lastClip := clip;
    var trailClip := clip + 1;
    if replace.None? {
      return Crashed(NameError);
    }
    var steps := PlanAtempo(replace.value.speedFactor);
    var lines := entries + [Entry(lastClip, Donor(last, steps))];
    lines := lines + [Entry(trailClip, VocalSlice(last.songWord.end, TrackEnd))];
    assert lines == entries + [Entry(lastClip, Donor(last, steps)), Entry(trailClip, VocalSlice(last.songWord.end, TrackEnd))];
    r := Ok(lines);
  }

  /** What loop clip `c` holds (1 <= c <= 2n-2): odd numbers are the donor
      clips, planned with their own factor; even numbers are the vocals
      between two matched words. */
  function LoopSegment(replaced: seq<ReplacedWord>, c: nat): Segment
    requires 1 <= c <= 2 * |replaced| - 2 && PlannedFactorsPositive(replaced)
  {
    if c % 2 == 1 then Donor(replaced[c / 2], AtempoSteps(replaced[c / 2].speedFactor))
    else Gap(replaced, c / 2 - 1)
  }

  /** What clip number `c` of the whole list holds, read off by position. */
  function SegmentOf(replaced: seq<ReplacedWord>, c: nat): Segment
    requires 2 <= |replaced| && c <= 2 * |replaced| && PlannedFactorsPositive(replaced)
  {
    var n := |replaced|;
    if c == 0 then VocalSlice(0.0, At(replaced[0].songWord.start))
    else if c == 2 * n then VocalSlice(replaced[n - 1].songWord.end, TrackEnd)
    else if c == 2 * n - 1 then Donor(replaced[n - 1], AtempoSteps(replaced[n - 2].speedFactor))
    else LoopSegment(replaced, c)
  }

  /** Whether clip number `c` gets a line: every vocals clip and the last
      donor clip do, a loop donor clip only when its file exists. */
  predicate Listed(n: nat, c: nat, produced: nat -> bool)
  {
    c % 2 == 0 || c == 2 * n - 1 || produced(c)
  }

  lemma PairFacts(replaced: seq<ReplacedWord>, i: nat, produced: nat -> bool)
    requires i + 1 < |replaced| && PlannedFactorsPositive(replaced)
    ensures var pair := PairEntries(replaced, i, produced);
      && |pair| == (if produced(2 * i + 1) then 2 else 1)
      && pair[|pair| - 1] == Entry(2 * i + 2, LoopSegment(replaced, 2 * i + 2))
      && (produced(2 * i + 1) ==> pair[0] == Entry(2 * i + 1, LoopSegment(replaced, 2 * i + 1)))
  {
    assert (2 * i + 1) % 2 == 1 && (2 * i + 1) / 2 == i;
    assert (2 * i + 2) % 2 == 0 && (2 * i + 2) / 2 - 1 == i;
  }

  /** Every loop line has a clip number in 1..2i and holds that clip's segment. */
  lemma {:induction false} LoopEntriesSegments(replaced: seq<ReplacedWord>, i: nat, produced: nat -> bool)
    requires i < |replaced| && PlannedFactorsPositive(replaced)
    ensures forall k :: 0 <= k < |LoopEntries(replaced, i, produced)| ==>
      1 <= LoopEntries(replaced, i, produced)[k].clip <= 2 * i
      && LoopEntries(replaced, i, produced)[k].segment
         == LoopSegment(replaced, LoopEntries(replaced, i, produced)[k].clip)
    decreases i
  {
    if i > 0 {
      var t0 := LoopEntries(replaced, i - 1, produced);
      var pair := PairEntries(replaced, i - 1, produced);
      LoopEntriesSegments(replaced, i - 1, produced);
      PairFacts(replaced, i - 1, produced);
      var t := t0 + pair;
      forall k | 0 <= k < |t|
        ensures 1 <= t[k].clip <= 2 * i && t[k].segment == LoopSegment(replaced, t[k].clip)
      {
        if k < |t0| {
          assert t[k] == t0[k];
          assert 1 <= t0[k].clip <= 2 * (i - 1);
          assert 1 <= t[k].clip <= 2 * i;
          assert t[k].segment == LoopSegment(replaced, t[k].clip);
        } else if k == |t| - 1 {
          assert t[k] == pair[|pair| - 1];
          assert 1 <= t[k].clip <= 2 * i;
          assert t[k].segment == LoopSegment(replaced, t[k].clip);
        } else {
          assert t[k] == pair[0];
          assert 1 <= t[k].clip <= 2 * i;
          assert t[k].segment == LoopSegment(replaced, t[k].clip);
        }
      }
    }
  }

  /** Loop lines come in strictly increasing clip order. */
  lemma {:induction false} LoopEntriesIncreasing(replaced: seq<ReplacedWord>, i: nat, produced: nat -> bool)
    requires i < |replaced| && PlannedFactorsPositive(replaced)
    ensures forall k, l :: 0 <= k < l < |LoopEntries(replaced, i, produced)| ==>
      LoopEntries(replaced, i, produced)[k].clip < LoopEntries(replaced, i, produced)[l].clip
    decreases i
  {
    if i > 0 {
      var t0 := LoopEntries(replaced, i - 1, produced);
      var pair := PairEntries(replaced, i - 1, produced);
      LoopEntriesIncreasing(replaced, i - 1, produced);
      LoopEntriesSegments(replaced, i - 1, produced);
      PairFacts(replaced, i - 1, produced);
      var t := t0 + pair;
      forall k, l | 0 <= k < l < |t| ensures t[k].clip < t[l].clip {
        if l < |t0| {
          assert t[k] == t0[k] && t[l] == t0[l];
        } else if k < |t0| {
          assert t[k] == t0[k];
          if l == |t| - 1 {
            assert t[l] == pair[|pair| - 1];
          } else {
            assert t[l] == pair[0];
          }
        } else {
          assert t[k] == pair[0] && t[l] == pair[1];
        }
      }
    }
  }

  /** Clip `c` of the loop has a line exactly when it is a vocals clip or a
      donor clip whose file exists. */
  lemma {:induction false} LoopEntriesCover(replaced: seq<ReplacedWord>, i: nat, produced: nat -> bool, c: nat)
    requires i < |replaced| && PlannedFactorsPositive(replaced)
    requires 1 <= c <= 2 * i
    ensures HasClip(LoopEntries(replaced, i, produced), c) <==> (c % 2 == 0 || produced(c))
    decreases i
  {
    var t0 := LoopEntries(replaced, i - 1, produced);
    var pair := PairEntries(replaced, i - 1, produced);
    assert LoopEntries(replaced, i, produced) == t0 + pair;
    HasClipConcat(t0, pair, c);
    PairClips(replaced, i - 1, produced, c);
    if c <= 2 * i - 2 {
      LoopEntriesCover(replaced, i - 1, produced, c);
    } else {
      LoopEntriesSegments(replaced, i - 1, produced);
      assert !HasClip(t0, c);
    }
  }

  /** One iteration's lines hold its vocals clip 2i+2, and its donor clip
      2i+1 exactly when that file exists. */
  lemma PairClips(replaced: seq<ReplacedWord>, i: nat, produced: nat -> bool, c: nat)
    requires i + 1 < |replaced| && PlannedFactorsPositive(replaced)
    ensures HasClip(PairEntries(replaced, i, produced), c)
      <==> c == 2 * i + 2 || (c == 2 * i + 1 && produced(c))
  {
    var pair := PairEntries(replaced, i, produced);
    PairFacts(replaced, i, produced);
    if c == 2 * i + 2 {
      assert pair[|pair| - 1].clip == c;
    } else if c == 2 * i + 1 && produced(c) {
      assert pair[0].clip == c;
    }
  }

  /** For two or more matches the list opens with clip 0, closes with clip
      2n, and every line holds the segment of its clip number: vocals up to
      the first word, per match its donor clip and the vocals up to the next
      match, then the last donor clip and the vocals to the end of the track. */
  lemma ClipListSegments(replaced: seq<ReplacedWord>, produced: nat -> bool)
    requires 2 <= |replaced| && PlannedFactorsPositive(replaced)
    ensures ClipList(replaced, produced).Ok?
    ensures var t := ClipList(replaced, produced).value;
      var n := |replaced|;
      && t[0].clip == 0 && t[|t| - 1].clip == 2 * n
      && forall k :: 0 <= k < |t| ==>
           t[k].clip <= 2 * n && t[k].segment == SegmentOf(replaced, t[k].clip)
  {
    var n := |replaced|;
    var body := LoopEntries(replaced, n - 1, produced);
    LoopEntriesSegments(replaced, n - 1, produced);
    var tail := Tail(replaced);
    var t := [LeadIn(replaced)] + body + tail;
    forall k | 0 <= k < |t|
      ensures t[k].clip <= 2 * n && t[k].segment == SegmentOf(replaced, t[k].clip)
    {
      if 1 <= k <= |body| {
        assert t[k] == body[k - 1];
      } else if k > |body| {
        assert t[k] == tail[k - 1 - |body|];
      }
    }
  }

  /** The lines come in strictly increasing clip order. */
  lemma ClipListIncreasing(replaced: seq<ReplacedWord>, produced: nat -> bool)
    requires 2 <= |replaced| && PlannedFactorsPositive(replaced)
    ensures ClipList(replaced, produced).Ok?
    ensures var t := ClipList(replaced, produced).value;
      forall k, l :: 0 <= k < l < |t| ==> t[k].clip < t[l].clip
  {
    var n := |replaced|;
    var body := LoopEntries(replaced, n - 1, produced);
    LoopEntriesSegments(replaced, n - 1, produced);
    LoopEntriesIncreasing(replaced, n - 1, produced);
    var tail := Tail(replaced);
    var t := [LeadIn(replaced)] + body + tail;
    forall k, l | 0 <= k < l < |t| ensures t[k].clip < t[l].clip {
      if 1 <= l <= |body| {
        assert t[l] == body[l - 1];
        if 1 <= k {
          assert t[k] == body[k - 1];
        }
      } else if l > |body| {
        assert t[l] == tail[l - 1 - |body|];
        if 1 <= k <= |body| {
          assert t[k] == body[k - 1];
        } else if k > |body| {
          assert t[k] == tail[k - 1 - |body|];
        }
      }
    }
  }

  /** Some line of `t` is clip `c`. */
  predicate HasClip(t: seq<Entry>, c: nat)
  {
    exists k :: 0 <= k < |t| && t[k].clip == c
  }

  lemma HasClipConcat(a: seq<Entry>, b: seq<Entry>, c: nat)
    ensures HasClip(a + b, c) <==> HasClip(a, c) || HasClip(b, c)
  {
    if HasClip(a + b, c) {
      var k :| 0 <= k < |a + b| && (a + b)[k].clip == c;
      if k >= |a| {
        assert b[k - |a|] == (a + b)[k];
      }
    }
    if HasClip(a, c) {
      var k :| 0 <= k < |a| && a[k].clip == c;
      assert (a + b)[k] == a[k];
    }
    if HasClip(b, c) {
      var k :| 0 <= k < |b| && b[k].clip == c;
      assert (a + b)[|a| + k] == b[k];
    }
  }

  /** Clip `c` of 0..2n has a line exactly when it is a vocals clip, the
      last donor clip, or a loop donor clip whose file exists. */
  lemma ClipListListed(replaced: seq<ReplacedWord>, produced: nat -> bool, c: nat)
    requires 2 <= |replaced| && PlannedFactorsPositive(replaced)
    requires c <= 2 * |replaced|
    ensures ClipList(replaced, produced).Ok?
    ensures HasClip(ClipList(replaced, produced).value, c) <==> Listed(|replaced|, c, produced)
  {
    var n := |replaced|;
    var lead := [LeadIn(replaced)];
    var body := LoopEntries(replaced, n - 1, produced);
    var tail := Tail(replaced);
    HasClipConcat(lead + body, tail, c);
    HasClipConcat(lead, body, c);
    LeadAndTailClips(replaced, c);
    LoopClips(replaced, produced, c);
  }

  /** The lead-in holds clip 0 and the tail holds clips 2n-1 and 2n. */
  lemma LeadAndTailClips(replaced: seq<ReplacedWord>, c: nat)
    requires 2 <= |replaced| && PlannedFactorsPositive(replaced)
    ensures HasClip([LeadIn(replaced)], c) <==> c == 0
    ensures HasClip(Tail(replaced), c) <==> c == 2 * |replaced| - 1 || c == 2 * |replaced|
  {
    var n := |replaced|;
    var tail := Tail(replaced);
    if c == 0 {
      assert [LeadIn(replaced)][0].clip == 0;
    }
    if c == 2 * n - 1 {
      assert tail[0].clip == c;
    } else if c == 2 * n {
      assert tail[1].clip == c;
    }
  }

  /** The loop holds the clips 1..2n-2 that are vocals clips or donor clips
      whose file exists, and no other. */
  lemma LoopClips(replaced: seq<ReplacedWord>, produced: nat -> bool, c: nat)
    requires 2 <= |replaced| && PlannedFactorsPositive(replaced)
    ensures HasClip(LoopEntries(replaced, |replaced| - 1, produced), c)
      <==> 1 <= c <= 2 * |replaced| - 2 && (c % 2 == 0 || produced(c))
  {
    var n := |replaced|;
    if 1 <= c <= 2 * n - 2 {
      LoopEntriesCover(replaced, n - 1, produced, c);
    } else {
      LoopClipsOutside(replaced, produced, c);
    }
  }

  /** The loop holds no clip outside 1..2n-2. */
  lemma LoopClipsOutside(replaced: seq<ReplacedWord>, produced: nat -> bool, c: nat)
    requires 2 <= |replaced| && PlannedFactorsPositive(replaced)
    requires c == 0 || c > 2 * |replaced| - 2
    ensures !HasClip(LoopEntries(replaced, |replaced| - 1, produced), c)
  {
    LoopEntriesSegments(replaced, |replaced| - 1, produced);
  }

  /** With every donor file present, the loop writes clips 1..2i, one line each. */
  lemma {:induction false} LoopEntriesComplete(replaced: seq<ReplacedWord>, i: nat, produced: nat -> bool)
    requires i < |replaced| && PlannedFactorsPositive(replaced)
    requires forall c: nat :: produced(c)
    ensures |LoopEntries(replaced, i, produced)| == 2 * i
    ensures forall k :: 0 <= k < 2 * i ==> LoopEntries(replaced, i, produced)[k].clip == k + 1
    decreases i
  {
    if i > 0 {
      var t0 := LoopEntries(replaced, i - 1, produced);
      LoopEntriesComplete(replaced, i - 1, produced);
      PairFacts(replaced, i - 1, produced);
      var pair := PairEntries(replaced, i - 1, produced);
      var t := t0 + pair;
      assert LoopEntries(replaced, i, produced) == t;
      forall k | 0 <= k < 2 * i ensures t[k].clip == k + 1 {
        if k < |t0| {
          assert t[k] == t0[k];
        } else {
          assert t[k] == pair[k - |t0|];
        }
      }
    }
  }

  /** With n >= 2 matches and every donor file present, line `k` is clip `k`. */
  lemma ClipListNumbered(replaced: seq<ReplacedWord>, produced: nat -> bool)
    requires 2 <= |replaced| && PlannedFactorsPositive(replaced)
    requires forall c: nat :: produced(c)
    ensures ClipList(replaced, produced).Ok?
    ensures var t := ClipList(replaced, produced).value;
      |t| == 2 * |replaced| + 1 && forall k :: 0 <= k < |t| ==> t[k].clip == k
  {
    var n := |replaced|;
    var body := LoopEntries(replaced, n - 1, produced);
    LoopEntriesComplete(replaced, n - 1, produced);
    var tail := Tail(replaced);
    var t := [LeadIn(replaced)] + body + tail;
    forall k | 0 <= k < |t| ensures t[k].clip == k {
      if 1 <= k <= |body| {
        assert t[k] == body[k - 1];
      } else if k > |body| {
        assert t[k] == tail[k - 1 - |body|];
      }
    }
  }

  /** With n >= 2 matches and every donor file present, the list has 2n+1
      lines numbered 0..2n: vocals up to the first word, then for each
      consecutive pair the donor clip of the first and the vocals between
      them, then the last donor clip and the vocals from the last word on. */
  lemma ClipListComplete(replaced: seq<ReplacedWord>, produced: nat -> bool)
    requires 2 <= |replaced| && PlannedFactorsPositive(replaced)
    requires forall c: nat :: produced(c)
    ensures ClipList(replaced, produced).Ok?
    ensures var t := ClipList(replaced, produced).value;
      var n := |replaced|;
      && |t| == 2 * n + 1
      && (forall k :: 0 <= k < |t| ==> t[k].clip == k)
      && t[0].segment == VocalSlice(0.0, At(replaced[0].songWord.start))
      && (forall i :: 0 <= i < n - 1 ==>
            && t[2 * i + 1].segment == Donor(replaced[i], AtempoSteps(replaced[i].speedFactor))
            && t[2 * i + 2].segment
               == VocalSlice(replaced[i].songWord.end, At(replaced[i + 1].songWord.start)))
      && t[2 * n - 1].segment == Donor(replaced[n - 1], AtempoSteps(replaced[n - 2].speedFactor))
      && t[2 * n].segment == VocalSlice(replaced[n - 1].songWord.end, TrackEnd)
  {
    var n := |replaced|;
    ClipListNumbered(replaced, produced);
    ClipListSegments(replaced, produced);
    var t := ClipList(replaced, produced).value;
    forall i | 0 <= i < n - 1
      ensures t[2 * i + 1].segment == Donor(replaced[i], AtempoSteps(replaced[i].speedFactor))
      ensures t[2 * i + 2].segment
              == VocalSlice(replaced[i].songWord.end, At(replaced[i + 1].songWord.start))
    {
      assert t[2 * i + 1].clip == 2 * i + 1 && t[2 * i + 2].clip == 2 * i + 2;
      PairSegments(replaced, i);
    }
    assert t[2 * n - 1].clip == 2 * n - 1 && t[2 * n].clip == 2 * n;
  }

  lemma PairSegments(replaced: seq<ReplacedWord>, i: nat)
    requires i + 1 < |replaced| && PlannedFactorsPositive(replaced)
    ensures SegmentOf(replaced, 2 * i + 1) == Donor(replaced[i], AtempoSteps(replaced[i].speedFactor))
    ensures SegmentOf(replaced, 2 * i + 2) == Gap(replaced, i)
  {
    assert (2 * i + 1) % 2 == 1 && (2 * i + 1) / 2 == i;
    assert (2 * i + 2) % 2 == 0 && (2 * i + 2) / 2 - 1 == i;
  }

  /** For chronological matches every vocals slice starts at or after zero
      and, unless it runs to the end of the track, does not stop before it
      starts. */
  lemma VocalSlicesInOrder(replaced: seq<ReplacedWord>, produced: nat -> bool)
    requires 2 <= |replaced| && PlannedFactorsPositive(replaced)
    requires Matching.Chronological(Matching.SongWordsOf(replaced))
    ensures ClipList(replaced, produced).Ok?
    ensures var t := ClipList(replaced, produced).value;
      forall k :: 0 <= k < |t| && t[k].segment.VocalSlice? ==>
        0.0 <= t[k].segment.start
        && (t[k].segment.stop.At? ==> t[k].segment.start <= t[k].segment.stop.time)
  {
    var n := |replaced|;
    var ws := Matching.SongWordsOf(replaced);
    ClipListSegments(replaced, produced);
    var t := ClipList(replaced, produced).value;
    forall k | 0 <= k < |t| && t[k].segment.VocalSlice?
      ensures 0.0 <= t[k].segment.start
      ensures t[k].segment.stop.At? ==> t[k].segment.start <= t[k].segment.stop.time
    {
      var c := t[k].clip;
      if c == 0 {
        assert ws[0] == replaced[0].songWord;
      } else if c == 2 * n {
        assert ws[n - 1] == replaced[n - 1].songWord;
      } else if c != 2 * n - 1 && c % 2 == 0 {
        var j := c / 2 - 1;
        assert ws[j] == replaced[j].songWord && ws[j + 1] == replaced[j + 1].songWord;
      }
    }
  }

  /** The replacement a donor clip's steps were planned for: its own, except
      for the last donor clip, which gets the one before it. */
  function PlannedFor(n: nat, c: nat): nat
    requires 2 <= n
  {
    if c == 2 * n - 1 then n - 2 else c / 2
  }

  /** Every donor line cuts the slot of its replacement's donor row,
      `replaced[c / 2]` for clip `c`, and its steps each lie in [0.5, 2.0] and
      compose to the speed factor of `replaced[PlannedFor(n, c)]`. */
  lemma ClipListDonorSteps(replaced: seq<ReplacedWord>, produced: nat -> bool)
    requires 2 <= |replaced| && PlannedFactorsPositive(replaced)
    ensures ClipList(replaced, produced).Ok?
    ensures var t := ClipList(replaced, produced).value;
      var n := |replaced|;
      forall k :: 0 <= k < |t| && t[k].segment.DonorClip? ==>
        && t[k].clip / 2 < n
        && t[k].segment == Donor(replaced[t[k].clip / 2], t[k].segment.steps)
        && PlannedFor(n, t[k].clip) < n
        && Product(t[k].segment.steps) == replaced[PlannedFor(n, t[k].clip)].speedFactor
        && (forall j :: 0 <= j < |t[k].segment.steps| ==> 0.5 <= t[k].segment.steps[j] <= 2.0)
  {
    var n := |replaced|;
    ClipListSegments(replaced, produced);
    var t := ClipList(replaced, produced).value;
    forall k | 0 <= k < |t| && t[k].segment.DonorClip?
      ensures t[k].clip / 2 < n
      ensures t[k].segment == Donor(replaced[t[k].clip / 2], t[k].segment.steps)
      ensures PlannedFor(n, t[k].clip) < n
      ensures Product(t[k].segment.steps) == replaced[PlannedFor(n, t[k].clip)].speedFactor
      ensures forall j :: 0 <= j < |t[k].segment.steps| ==> 0.5 <= t[k].segment.steps[j] <= 2.0
    {
      var c := t[k].clip;
      var i := PlannedFor(n, c);
      assert c % 2 == 1 && c != 2 * n;
      assert replaced[i].speedFactor > 0.0;
      AtempoStepsSound(replaced[i].speedFactor);
    }
  }

  /** main.py:365 plans the last donor clip with `replace`, so its steps
      belong to the match before it. Two matches with factors 1.0 and 4.0 end
      on a donor clip played at tempo 1.0 instead of 4.0. */
  lemma LastDonorUsesPenultimateFactor()
    ensures var first := ReplacedWord(SongWord("hi", 1.0, 2.0), InputWord("hi", "a.wav", 0.0, 1.0), 1.0);
      var second := ReplacedWord(SongWord("there", 3.0, 3.25), InputWord("there", "b.wav", 5.0, 6.0), 4.0);
      var replaced := [first, second];
      var t := ClipList(replaced, _ => true);
      && t.Ok? && |t.value| == 5
      && t.value[3].segment.steps == [1.0]
      && Product(t.value[3].segment.steps) != replaced[1].speedFactor
  {
    PlanOfOne();
  }

  /** With a single match the loop runs no iteration and `replace` is
      unbound when line 365 reads it. */
  lemma SingleMatchCrashes(replaced: seq<ReplacedWord>, produced: nat -> bool)
    requires |replaced| == 1 && PlannedFactorsPositive(replaced)
    ensures ClipList(replaced, produced) == Crashed(NameError)
  {
  }

  /** Every speed factor is positive, the last included: the corrected list
      plans every donor clip. */
  predicate FactorsPositive(replaced: seq<ReplacedWord>)
  {
    forall i :: 0 <= i < |replaced| ==> replaced[i].speedFactor > 0.0
  }

  /** The two lines after the loop as evidently intended: the last donor
      clip planned with its own factor (`last_replace`). */
  function FixedTail(replaced: seq<ReplacedWord>): seq<Entry>
    requires replaced != [] && FactorsPositive(replaced)
  {
    var n := |replaced|;
    [Entry(2 * n - 1, Donor(replaced[n - 1], AtempoSteps(replaced[n - 1].speedFactor))),
     Entry(2 * n, VocalSlice(replaced[n - 1].songWord.end, TrackEnd))]
  }

  /** The clip list as evidently intended: the last donor clip is planned
      with its own factor, so one match suffices. */
  function FixedClipList(replaced: seq<ReplacedWord>, produced: nat -> bool): (r: Result<seq<Entry>>)
    requires FactorsPositive(replaced)
    ensures r.Crashed? <==> replaced == []
    ensures r.Crashed? ==> r.error == IndexError
    ensures r.Ok? ==>
      && |r.value| >= 3
      && r.value[0] == Entry(0, VocalSlice(0.0, At(replaced[0].songWord.start)))
      && r.value[|r.value| - 1]
         == Entry(2 * |replaced|, VocalSlice(replaced[|replaced| - 1].songWord.end, TrackEnd))
  {
    var n := |replaced|;
    if n == 0 then Crashed(IndexError)
    else Ok([LeadIn(replaced)] + LoopEntries(replaced, n - 1, produced) + FixedTail(replaced))
  }

  /** In the corrected list every donor line, of clip `c`, cuts the donor row
      of `replaced[c / 2]` and its steps compose to that replacement's own
      speed factor, each within [0.5, 2.0]; one match is enough. */
  lemma FixedDonorsComposeToOwnFactor(replaced: seq<ReplacedWord>, produced: nat -> bool)
    requires 1 <= |replaced| && FactorsPositive(replaced)
    ensures FixedClipList(replaced, produced).Ok?
    ensures var t := FixedClipList(replaced, produced).value;
      forall k :: 0 <= k < |t| && t[k].segment.DonorClip? ==>
        && t[k].clip / 2 < |replaced|
        && t[k].segment
           == Donor(replaced[t[k].clip / 2], AtempoSteps(replaced[t[k].clip / 2].speedFactor))
        && Product(t[k].segment.steps) == replaced[t[k].clip / 2].speedFactor
        && (forall j :: 0 <= j < |t[k].segment.steps| ==> 0.5 <= t[k].segment.steps[j] <= 2.0)
  {
    var n := |replaced|;
    var body := LoopEntries(replaced, n - 1, produced);
    LoopEntriesSegments(replaced, n - 1, produced);
    var tail := FixedTail(replaced);
    var t := [LeadIn(replaced)] + body + tail;
    assert FixedClipList(replaced, produced).value == t;
    forall k | 0 <= k < |t| && t[k].segment.DonorClip?
      ensures t[k].clip / 2 < n
      ensures t[k].segment
              == Donor(replaced[t[k].clip / 2], AtempoSteps(replaced[t[k].clip / 2].speedFactor))
      ensures Product(t[k].segment.steps) == replaced[t[k].clip / 2].speedFactor
      ensures forall j :: 0 <= j < |t[k].segment.steps| ==> 0.5 <= t[k].segment.steps[j] <= 2.0
    {
      if 1 <= k <= |body| {
        assert t[k] == body[k - 1];
        assert t[k].clip % 2 == 1;
      } else {
        assert k == |t| - 2;
        assert t[k] == tail[0];
      }
      AtempoStepsSound(replaced[t[k].clip / 2].speedFactor);
    }
  }

  /** With a single match the corrected list is the three clips: vocals up
      to the word, its donor clip at its own factor, the vocals after it. */
  lemma FixedSingleMatch(replaced: seq<ReplacedWord>, produced: nat -> bool)
    requires |replaced| == 1 && FactorsPositive(replaced)
    ensures var r := replaced[0];
      && FixedClipList(replaced, produced).Ok?
      && FixedClipList(replaced, produced).value
         == [Entry(0, VocalSlice(0.0, At(r.songWord.start))),
             Entry(1, Donor(r, AtempoSteps(r.speedFactor))),
             Entry(2, VocalSlice(r.songWord.end, TrackEnd))]
      && Product(AtempoSteps(r.speedFactor)) == r.speedFactor
  {
    AtempoStepsSound(replaced[0].speedFactor);
  }

  /** The correction changes nothing but the steps of the last donor clip. */
  lemma FixedAgreesExceptLastSteps(replaced: seq<ReplacedWord>, produced: nat -> bool)
    requires 2 <= |replaced| && FactorsPositive(replaced)
    ensures ClipList(replaced, produced).Ok? && FixedClipList(replaced, produced).Ok?
    ensures var t := ClipList(replaced, produced).value;
      var u := FixedClipList(replaced, produced).value;
      var n := |replaced|;
      && |t| == |u| && u[|u| - 2].clip == 2 * n - 1
      && u[|u| - 2].segment == t[|t| - 2].segment.(steps := AtempoSteps(replaced[n - 1].speedFactor))
      && forall k :: 0 <= k < |t| && k != |t| - 2 ==> t[k] == u[k]
  {
  }
}
