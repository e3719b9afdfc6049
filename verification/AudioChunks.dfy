/**
 Splitting speech audio at silences, after apps/renderer/media/extract_audio.py. Times are whole
 milliseconds; a share of the audio is kept exact by comparing multiples of 10 * chunks.
 */
module AudioChunks {
  import opened Wrappers
  import opened Numbers
  import opened Selections
  import Ffmpeg

  const MAX_AUDIO_CHUNKS := 32
  const SILENCE_MIN_MS := 300

  datatype Error = WrongChunkCount | BadRange(cause: Ffmpeg.Error) | NoAudio

  /** An edge the silence detector printed. */
  datatype Edge = Start(time: int) | End(time: int)

  datatype Gap = Gap(start: int, end: int) {
    function Length(): int { end - start }

    /** Twice the middle. */
    function Middle2(): int { start + end }
  }

  // ---------------------------------------------------------------------------
  // Silences
  // ---------------------------------------------------------------------------

  /** The silences a report names: each start edge directly followed by an end edge. */
  function Adjacent(edges: seq<Edge>): seq<Gap> {
    if |edges| < 2 then []
    else
      var before, last := edges[|edges| - 2], edges[|edges| - 1];
      Adjacent(edges[..|edges| - 1])
      + if before.Start? && last.End? then [Gap(before.time, last.time)] else []
  }

  /** Each edge with the one before it. */
  function Neighbours(edges: seq<Edge>): seq<(Edge, Edge)> {
    if |edges| < 2 then [] else Neighbours(edges[..|edges| - 1]) + [(edges[|edges| - 2], edges[|edges| - 1])]
  }

  function StartThenEnd(): ((Edge, Edge)) -> bool {
    (pair: (Edge, Edge)) => pair.0.Start? && pair.1.End?
  }

  predicate Bounds(pair: (Edge, Edge), gap: Gap) {
    gap.start == pair.0.time && gap.end == pair.1.time
  }

  /** The silences are the pairs of a start and the end right after it, all of them, in order. */
  lemma {:induction false} SilencesAreAdjacent(edges: seq<Edge>)
    ensures Selects(Neighbours(edges), StartThenEnd(), Bounds, Adjacent(edges))
  {
    if |edges| < 2 {
      SelectsNone(StartThenEnd(), Bounds);
    } else {
      var before, last := edges[|edges| - 2], edges[|edges| - 1];
      var pairs, gaps := Neighbours(edges[..|edges| - 1]), Adjacent(edges[..|edges| - 1]);
      SilencesAreAdjacent(edges[..|edges| - 1]);
      hide Selects;
      assert gaps + [] == gaps;
      if before.Start? && last.End? {
        SelectsOne(pairs, (before, last), StartThenEnd(), Bounds, gaps, Gap(before.time, last.time));
      } else {
        SelectsOn(pairs, (before, last), StartThenEnd(), Bounds, gaps);
      }
    }
  }

  method Silences(edges: seq<Edge>) returns (silences: seq<Gap>)
    ensures silences == Adjacent(edges)
    // All the pairs of a start and the end right after it, and no other, in order.
    ensures Selects(Neighbours(edges), StartThenEnd(), Bounds, silences)
  {
    SilencesAreAdjacent(edges);
    hide Selects;
    var pending: Option<int> := None;
    silences := [];
    for i := 0 to |edges|
      invariant silences == Adjacent(edges[..i])
      invariant pending == if i > 0 && edges[i - 1].Start? then Some(edges[i - 1].time) else None
    {
      assert edges[..i + 1][..i] == edges[..i];
      if edges[i].Start? {
        pending := Some(edges[i].time);
      } else if pending.Some? {
        silences := silences + [Gap(pending.value, edges[i].time)];
        pending := None;
      }
    }
    assert edges[..|edges|] == edges;
  }

  function EdgesOf(gaps: seq<Gap>): seq<Edge> {
    if gaps == [] then []
    else
      var last := |gaps| - 1;
      EdgesOf(gaps[..last]) + [Start(gaps[last].start), End(gaps[last].end)]
  }

  /** Reading back printed silences gives them, whatever silence is still open at the end. */
  lemma {:induction false} SilencesReadBack(gaps: seq<Gap>, open: Option<int>)
    ensures Adjacent(EdgesOf(gaps)) == gaps
    ensures EdgesOf(gaps) != [] ==> EdgesOf(gaps)[|EdgesOf(gaps)| - 1].End?
    ensures open.Some? ==> Adjacent(EdgesOf(gaps) + [Start(open.value)]) == gaps
  {
    if gaps != [] {
      var last := |gaps| - 1;
      SilencesReadBack(gaps[..last], Some(gaps[last].start));
      var front := EdgesOf(gaps[..last]) + [Start(gaps[last].start)];
      assert EdgesOf(gaps) == front + [End(gaps[last].end)];
      assert EdgesOf(gaps)[..|front|] == front;
    }
    if open.Some? {
      assert (EdgesOf(gaps) + [Start(open.value)])[..|EdgesOf(gaps)|] == EdgesOf(gaps);
    }
  }

  // ---------------------------------------------------------------------------
  // Bounds
  // ---------------------------------------------------------------------------

  predicate NearMiddle(duration: nat, chunks: nat, i: nat, twice: int) {
    -1 * duration <= 5 * (chunks * twice) - 10 * (duration * i) <= duration
  }

  /** The middle of a silence is at most a tenth of a share from the end of share i. */
  predicate Near(duration: nat, chunks: nat, i: nat, gap: Gap) {
    NearMiddle(duration, chunks, i, gap.Middle2())
  }

  /** The first of the longest silences near the end of share i. */
  ghost predicate LongestNear(duration: nat, chunks: nat, i: nat, silences: seq<Gap>, k: nat) {
    && k < |silences|
    && Near(duration, chunks, i, silences[k])
    && (forall j :: 0 <= j < |silences| && Near(duration, chunks, i, silences[j]) ==>
          silences[j].Length() < silences[k].Length() || (silences[j].Length() == silences[k].Length() && k <= j))
  }

  /** A split is the middle of the longest silence near its share's end, or that end itself. */
  ghost predicate SplitAt(duration: nat, chunks: nat, i: nat, silences: seq<Gap>, bound: int)
    requires chunks > 0
  {
    if exists k: nat :: LongestNear(duration, chunks, i, silences, k) then
      exists k: nat :: LongestNear(duration, chunks, i, silences, k) && bound == silences[k].Middle2() / 2
    else
      bound == RoundHalfEven(duration * i, chunks)
  }

  method Nearest(duration: nat, chunks: nat, i: nat, silences: seq<Gap>) returns (nearby: Option<nat>)
    ensures nearby.Some? ==> LongestNear(duration, chunks, i, silences, nearby.value)
    ensures nearby.None? ==> forall j :: 0 <= j < |silences| ==> !Near(duration, chunks, i, silences[j])
  {
    nearby := None;
    for j := 0 to |silences|
      invariant nearby.Some? ==> LongestNear(duration, chunks, i, silences[..j], nearby.value)
      invariant nearby.None? ==> forall m :: 0 <= m < j ==> !Near(duration, chunks, i, silences[m])
    {
      assert forall m :: 0 <= m < j ==> silences[..j + 1][m] == silences[..j][m];
      if Near(duration, chunks, i, silences[j])
         && (nearby.None? || silences[j].Length() > silences[nearby.value].Length()) {
        nearby := Some(j);
      }
    }
    assert silences[..|silences|] == silences;
  }

  method ChunkBounds(duration: nat, chunks: nat, silences: seq<Gap>) returns (bounds: seq<int>)
    requires chunks > 0
    ensures |bounds| == chunks - 1
    ensures forall i :: 0 <= i < |bounds| ==> SplitAt(duration, chunks, i + 1, silences, bounds[i])
  {
    bounds := [];
    for i := 1 to chunks
      invariant |bounds| == i - 1
      invariant forall j :: 0 <= j < |bounds| ==> SplitAt(duration, chunks, j + 1, silences, bounds[j])
    {
      var nearby := Nearest(duration, chunks, i, silences);
      if nearby.Some? {
        bounds := bounds + [silences[nearby.value].Middle2() / 2];
      } else {
        bounds := bounds + [RoundHalfEven(duration * i, chunks)];
      }
    }
  }

  /**
   A time strays from the end of share i by a tenth of a share or half a millisecond, and before it by
   half a millisecond more.
   */
  ghost predicate Close(duration: nat, chunks: nat, i: nat, time: int) {
    -1 * duration - 5 * chunks <= 10 * (chunks * time) - 10 * (duration * i) <= Max(duration, 5 * chunks)
  }

  lemma FloorOfHalf(chunks: nat, twice: int)
    ensures chunks * twice - chunks <= 2 * (chunks * (twice / 2)) <= chunks * twice
  {
    var half, odd := twice / 2, twice % 2;
    assert chunks * (2 * half + odd) == 2 * (chunks * half) + chunks * odd;
  }

  lemma MiddleIsClose(duration: nat, chunks: nat, i: nat, gap: Gap)
    requires Near(duration, chunks, i, gap)
    ensures Close(duration, chunks, i, gap.Middle2() / 2)
  {
    FloorOfHalf(chunks, gap.Middle2());
  }

  lemma RoundedIsClose(duration: nat, chunks: nat, i: nat)
    requires chunks > 0
    ensures Close(duration, chunks, i, RoundHalfEven(duration * i, chunks))
  {
    hide RoundHalfEven;
    var time := RoundHalfEven(duration * i, chunks);
    assert time * chunks == chunks * time;
  }

  /** A silence is near when its middle is within a tenth of a share of the share's end. */
  lemma NearIff(duration: nat, chunks: nat, i: nat, gap: Gap)
    requires chunks > 0
    ensures var share := duration as real / chunks as real;
            var middle := (gap.start as real + gap.end as real) / 2.0;
            Near(duration, chunks, i, gap) <==> -0.1 * share <= middle - share * i as real <= 0.1 * share
  {
    var n, share, middle := chunks as real, duration as real / chunks as real, (gap.start + gap.end) as real / 2.0;
    var off := middle - share * i as real;
    assert share * n == duration as real;
    assert off * n == middle * n - share * n * i as real;
  }

  /** Silence k is near, none that is near is longer, and none before it that is near is as long. */
  predicate FirstOfTheLongest(duration: nat, chunks: nat, i: nat, silences: seq<Gap>, k: nat) {
    && k < |silences| && Near(duration, chunks, i, silences[k])
    && (forall j :: 0 <= j < |silences| && Near(duration, chunks, i, silences[j]) ==>
          silences[j].end - silences[j].start <= silences[k].end - silences[k].start)
    && (forall j :: 0 <= j < k && Near(duration, chunks, i, silences[j]) ==>
          silences[j].end - silences[j].start < silences[k].end - silences[k].start)
  }

  /** If any silence is near, one of them is the first of the longest. */
  lemma {:induction false} SomeIsLongest(duration: nat, chunks: nat, i: nat, silences: seq<Gap>, j: nat)
    returns (k: nat)
    requires j < |silences| && Near(duration, chunks, i, silences[j])
    ensures LongestNear(duration, chunks, i, silences, k)
    decreases |silences|
  {
    var last := |silences| - 1;
    var front := silences[..last];
    if m :| 0 <= m < last && Near(duration, chunks, i, front[m]) {
      k := SomeIsLongest(duration, chunks, i, front, m);
      if Near(duration, chunks, i, silences[last]) && silences[last].Length() > silences[k].Length() {
        k := last;
      }
    } else {
      k := last;
    }
    assert forall m :: 0 <= m < last ==> silences[m] == front[m];
  }

  lemma LongestIsFirst(duration: nat, chunks: nat, i: nat, silences: seq<Gap>, k: nat)
    ensures LongestNear(duration, chunks, i, silences, k) <==> FirstOfTheLongest(duration, chunks, i, silences, k)
  {
    hide Near;
  }

  /**
   A split is the middle, to half a millisecond, of the first of the longest silences near its share's end,
   or if none is near, the millisecond nearest to that end.
   */
  lemma SplitIsMiddle(duration: nat, chunks: nat, i: nat, silences: seq<Gap>, bound: int)
    requires chunks > 0 && SplitAt(duration, chunks, i, silences, bound)
    ensures if exists j :: 0 <= j < |silences| && Near(duration, chunks, i, silences[j]) then
              exists k: nat :: FirstOfTheLongest(duration, chunks, i, silences, k)
                               && 0 <= (silences[k].end - bound) - (bound - silences[k].start) <= 1
            else Numbers.Nearest(duration * i, chunks, bound)
  {
    hide Near, RoundHalfEven;
    if j :| 0 <= j < |silences| && Near(duration, chunks, i, silences[j]) {
      var m := SomeIsLongest(duration, chunks, i, silences, j);
      var k: nat :| LongestNear(duration, chunks, i, silences, k) && bound == silences[k].Middle2() / 2;
      LongestIsFirst(duration, chunks, i, silences, k);
      hide LongestNear, FirstOfTheLongest;
    }
  }

  lemma SplitIsClose(duration: nat, chunks: nat, i: nat, silences: seq<Gap>, bound: int)
    requires chunks > 0 && SplitAt(duration, chunks, i, silences, bound)
    ensures Close(duration, chunks, i, bound)
  {
    hide Close, Near, RoundHalfEven;
    if k: nat :| LongestNear(duration, chunks, i, silences, k) && bound == silences[k].Middle2() / 2 {
      MiddleIsClose(duration, chunks, i, silences[k]);
    } else {
      RoundedIsClose(duration, chunks, i);
    }
  }

  /** The splits of a run between its two ends. */
  ghost predicate Splits(duration: nat, chunks: nat, silences: seq<Gap>, bounds: seq<int>) {
    && 0 < chunks == |bounds| - 1
    && bounds[0] == 0 && bounds[chunks] == duration
    && (forall i :: 0 < i < chunks ==> SplitAt(duration, chunks, i, silences, bounds[i]))
  }

  lemma BoundIsClose(duration: nat, chunks: nat, silences: seq<Gap>, bounds: seq<int>, i: nat)
    requires Splits(duration, chunks, silences, bounds) && i <= chunks
    ensures Close(duration, chunks, i, bounds[i])
  {
    if 0 < i < chunks {
      hide Close, SplitAt;
      SplitIsClose(duration, chunks, i, silences, bounds[i]);
    } else {
      hide SplitAt;
      assert i == chunks ==> chunks * bounds[i] == duration * i;
    }
  }

  /**
   A chunk lasts at most 1.2 shares and a millisecond, and at least the lesser of 0.8 of a share less
   half a millisecond and 0.9 of a share less a millisecond.
   */
  ghost predicate NearlyAShare(duration: nat, chunks: nat, length: int) {
    Min(8 * duration - 5 * chunks, 9 * duration - 10 * chunks)
    <= 10 * (chunks * length)
    <= 12 * duration + 10 * chunks
  }

  lemma Apart(factor: int, a: int, b: int)
    ensures factor * (b - a) == factor * b - factor * a
  {
  }

  lemma BetweenClose(duration: nat, chunks: nat, i: nat, from: int, to: int)
    requires Close(duration, chunks, i, from) && Close(duration, chunks, i + 1, to)
    ensures NearlyAShare(duration, chunks, to - from)
  {
    Apart(chunks, from, to);
    Apart(duration, i, i + 1);
  }

  /** Every chunk is nearly a share, however the silences fall. */
  lemma ChunksAreNearlyEqual(duration: nat, chunks: nat, silences: seq<Gap>, bounds: seq<int>, i: nat)
    requires Splits(duration, chunks, silences, bounds) && i < chunks
    ensures NearlyAShare(duration, chunks, bounds[i + 1] - bounds[i])
  {
    hide Close, NearlyAShare, SplitAt;
    BoundIsClose(duration, chunks, silences, bounds, i);
    BoundIsClose(duration, chunks, silences, bounds, i + 1);
    BetweenClose(duration, chunks, i, bounds[i], bounds[i + 1]);
  }

  /** With more than 10/9 of a millisecond a chunk, every chunk has some time. */
  lemma NearlyAShareIsSome(duration: nat, chunks: nat, length: int)
    requires NearlyAShare(duration, chunks, length) && 9 * duration > 10 * chunks
    ensures length > 0
  {
    if length <= 0 {
      ScaleAscends(length, 0, chunks);
    }
  }

  // ---------------------------------------------------------------------------
  // Which audio never has an empty chunk
  // ---------------------------------------------------------------------------

  /** Twice the first and the last middle that are near the end of share i, if any middle is. */
  function FirstMiddle(duration: nat, chunks: nat, i: nat): int
    requires chunks > 0
  {
    Ceiling(10 * (duration * i) - duration, 5 * chunks)
  }

  function LastMiddle(duration: nat, chunks: nat, i: nat): int
    requires chunks > 0
  {
    (10 * (duration * i) + duration) / (5 * chunks)
  }

  predicate SomeMiddle(duration: nat, chunks: nat, i: nat)
    requires chunks > 0
  {
    FirstMiddle(duration, chunks, i) <= LastMiddle(duration, chunks, i)
  }

  /** The earliest bound that some silences give at the end of share i. */
  function Lowest(duration: nat, chunks: nat, i: nat): int
    requires 0 < chunks && i <= chunks
  {
    if i == 0 then 0
    else if i == chunks then duration
    else
      var rounded := RoundHalfEven(duration * i, chunks);
      if SomeMiddle(duration, chunks, i) then Min(rounded, FirstMiddle(duration, chunks, i) / 2) else rounded
  }

  /** The latest. */
  function Highest(duration: nat, chunks: nat, i: nat): int
    requires 0 < chunks && i <= chunks
  {
    if i == 0 then 0
    else if i == chunks then duration
    else
      var rounded := RoundHalfEven(duration * i, chunks);
      if SomeMiddle(duration, chunks, i) then Max(rounded, LastMiddle(duration, chunks, i) / 2) else rounded
  }

  predicate Ascends(duration: nat, chunks: nat, i: nat)
    requires i < chunks
  {
    Highest(duration, chunks, i) < Lowest(duration, chunks, i + 1)
  }

  /** The latest bound of every share's end is before the earliest bound of the next one's. */
  predicate NeverEmpty(duration: nat, chunks: nat)
    requires chunks > 0
  {
    forall i :: 0 <= i < chunks ==> Ascends(duration, chunks, i)
  }

  lemma MiddlesBetween(duration: nat, chunks: nat, i: nat, twice: int)
    requires chunks > 0
    ensures NearMiddle(duration, chunks, i, twice)
            <==> FirstMiddle(duration, chunks, i) <= twice <= LastMiddle(duration, chunks, i)
  {
    hide Ceiling;
    CeilingIff(10 * (duration * i) - duration, 5 * chunks, twice);
    FloorIff(10 * (duration * i) + duration, 5 * chunks, twice);
    assert twice * (5 * chunks) == 5 * (chunks * twice);
  }

  /** A bound lies between the earliest and the latest. */
  lemma BoundBetween(duration: nat, chunks: nat, silences: seq<Gap>, bounds: seq<int>, i: nat)
    requires Splits(duration, chunks, silences, bounds) && i <= chunks
    ensures Lowest(duration, chunks, i) <= bounds[i] <= Highest(duration, chunks, i)
  {
    hide RoundHalfEven, NearMiddle, FirstMiddle, LastMiddle;
    if 0 < i < chunks {
      if k: nat :| LongestNear(duration, chunks, i, silences, k) && bounds[i] == silences[k].Middle2() / 2 {
        MiddlesBetween(duration, chunks, i, silences[k].Middle2());
      }
    }
  }

  /** A silence with a given middle. */
  function Around(twice: int): (gap: Gap)
    ensures gap.Middle2() == twice
  {
    Gap(twice / 2, twice - twice / 2)
  }

  /** Silences that give share i's end a bound, with nothing near the other shares' ends. */
  ghost predicate Gives(duration: nat, chunks: nat, i: nat, silences: seq<Gap>, bound: int)
    requires chunks > 0
  {
    || (silences == [] && bound == RoundHalfEven(duration * i, chunks))
    || (|silences| == 1 && Near(duration, chunks, i, silences[0]) && bound == silences[0].Middle2() / 2)
  }

  lemma HighestIsGiven(duration: nat, chunks: nat, i: nat) returns (silences: seq<Gap>)
    requires 0 < i < chunks
    ensures Gives(duration, chunks, i, silences, Highest(duration, chunks, i))
  {
    hide RoundHalfEven, NearMiddle, FirstMiddle, LastMiddle;
    var last := LastMiddle(duration, chunks, i);
    MiddlesBetween(duration, chunks, i, last);
    silences := if Highest(duration, chunks, i) == RoundHalfEven(duration * i, chunks) then [] else [Around(last)];
  }

  lemma LowestIsGiven(duration: nat, chunks: nat, i: nat) returns (silences: seq<Gap>)
    requires 0 < i < chunks
    ensures Gives(duration, chunks, i, silences, Lowest(duration, chunks, i))
  {
    hide RoundHalfEven, NearMiddle, FirstMiddle, LastMiddle;
    var first := FirstMiddle(duration, chunks, i);
    MiddlesBetween(duration, chunks, i, first);
    silences := if Lowest(duration, chunks, i) == RoundHalfEven(duration * i, chunks) then [] else [Around(first)];
  }

  /** A silence is near the ends of two shares in turn only if there is no audio at all. */
  lemma NearOneEnd(duration: nat, chunks: nat, i: nat, gap: Gap)
    requires duration > 0
    ensures !(Near(duration, chunks, i, gap) && Near(duration, chunks, i + 1, gap))
  {
    assert duration * (i + 1) == duration * i + duration;
  }

  lemma GivenIsSplit(duration: nat, chunks: nat, i: nat, silences: seq<Gap>, more: seq<Gap>, bound: int)
    requires chunks > 0 && Gives(duration, chunks, i, silences, bound)
    requires forall j :: 0 <= j < |more| ==> !Near(duration, chunks, i, more[j])
    ensures SplitAt(duration, chunks, i, silences + more, bound)
    ensures SplitAt(duration, chunks, i, more + silences, bound)
  {
    hide RoundHalfEven, Near;
    if |silences| == 1 {
      assert (silences + more)[0] == silences[0] && (more + silences)[|more|] == silences[0];
      assert LongestNear(duration, chunks, i, silences + more, 0);
      assert LongestNear(duration, chunks, i, more + silences, |more|);
    }
  }

  /** The bound chosen for any silences, so that every list has its splits. */
  lemma SomeSplit(duration: nat, chunks: nat, i: nat, silences: seq<Gap>) returns (bound: int)
    requires chunks > 0
    ensures SplitAt(duration, chunks, i, silences, bound)
  {
    if k: nat :| LongestNear(duration, chunks, i, silences, k) {
      bound := silences[k].Middle2() / 2;
    } else {
      bound := RoundHalfEven(duration * i, chunks);
    }
  }

  /** Every list of silences has its splits, and two given ones may be among them. */
  lemma SomeSplits(duration: nat, chunks: nat, silences: seq<Gap>, i: nat, from: int, to: int)
    returns (bounds: seq<int>)
    requires i < chunks
    requires if i == 0 then from == 0 else SplitAt(duration, chunks, i, silences, from)
    requires if i + 1 == chunks then to == duration else SplitAt(duration, chunks, i + 1, silences, to)
    ensures Splits(duration, chunks, silences, bounds) && bounds[i] == from && bounds[i + 1] == to
  {
    hide SplitAt;
    bounds := [0];
    for j := 1 to chunks
      invariant |bounds| == j && bounds[0] == 0
      invariant forall k :: 0 < k < j ==> SplitAt(duration, chunks, k, silences, bounds[k])
      invariant i < j ==> bounds[i] == from
      invariant i + 1 < j ==> bounds[i + 1] == to
    {
      var bound := SomeSplit(duration, chunks, j, silences);
      bounds := bounds + [if j == i then from else if j == i + 1 then to else bound];
    }
    bounds := bounds + [duration];
  }

  lemma EndsAreFixed(duration: nat, chunks: nat, i: nat)
    requires i < chunks
    ensures i == 0 ==> Highest(duration, chunks, i) == 0
    ensures i + 1 == chunks ==> Lowest(duration, chunks, i + 1) == duration
  {
  }

  /** Where the latest bound of a share's end isn't before the earliest of the next, some silences empty a chunk. */
  lemma EmptyChunk(duration: nat, chunks: nat, i: nat) returns (silences: seq<Gap>, bounds: seq<int>)
    requires duration > 0 && i < chunks && !Ascends(duration, chunks, i)
    ensures Splits(duration, chunks, silences, bounds) && bounds[i] >= bounds[i + 1]
  {
    var from, to := Highest(duration, chunks, i), Lowest(duration, chunks, i + 1);
    hide RoundHalfEven, Near, SplitAt, FirstMiddle, LastMiddle, Highest, Lowest;
    var before, after := [], [];
    if i > 0 {
      before := HighestIsGiven(duration, chunks, i);
    }
    if i + 1 < chunks {
      after := LowestIsGiven(duration, chunks, i + 1);
    }
    silences := before + after;
    if i > 0 {
      if after != [] {
        NearOneEnd(duration, chunks, i, after[0]);
      }
      GivenIsSplit(duration, chunks, i, before, after, from);
    }
    if i + 1 < chunks {
      if before != [] {
        NearOneEnd(duration, chunks, i, before[0]);
      }
      GivenIsSplit(duration, chunks, i + 1, after, before, to);
    }
    EndsAreFixed(duration, chunks, i);
    bounds := SomeSplits(duration, chunks, silences, i, from, to);
  }

  /** However the silences fall, every chunk has some time. */
  ghost predicate AlwaysAscends(duration: nat, chunks: nat) {
    forall silences, bounds, i ::
      Splits(duration, chunks, silences, bounds) && 0 <= i < chunks ==> bounds[i] < bounds[i + 1]
  }

  /** Without audio every bound is 0. */
  lemma NothingToSplit(chunks: nat, i: nat)
    requires i <= chunks && chunks > 0
    ensures Lowest(0, chunks, i) == Highest(0, chunks, i) == 0
  {
    assert 0 * i == 0;
  }

  lemma BoundsAscend(duration: nat, chunks: nat, silences: seq<Gap>, bounds: seq<int>, i: nat)
    requires Splits(duration, chunks, silences, bounds) && i < chunks && Ascends(duration, chunks, i)
    ensures bounds[i] < bounds[i + 1]
  {
    hide Lowest, Highest, SplitAt;
    BoundBetween(duration, chunks, silences, bounds, i);
    BoundBetween(duration, chunks, silences, bounds, i + 1);
  }

  lemma SomeEmptyChunk(duration: nat, chunks: nat, i: nat) returns (silences: seq<Gap>, bounds: seq<int>)
    requires i < chunks && !Ascends(duration, chunks, i)
    ensures Splits(duration, chunks, silences, bounds) && bounds[i] >= bounds[i + 1]
  {
    hide Ascends, Lowest, Highest, SplitAt;
    if duration > 0 {
      silences, bounds := EmptyChunk(duration, chunks, i);
    } else {
      silences := [];
      var from, to := 0, 0;
      if i > 0 {
        from := SomeSplit(duration, chunks, i, silences);
      }
      if i + 1 < chunks {
        to := SomeSplit(duration, chunks, i + 1, silences);
      }
      bounds := SomeSplits(duration, chunks, silences, i, from, to);
      BoundBetween(duration, chunks, silences, bounds, i);
      BoundBetween(duration, chunks, silences, bounds, i + 1);
      NothingToSplit(chunks, i);
      NothingToSplit(chunks, i + 1);
    }
  }

  /** Whether a chunk can be left empty depends on the duration and the chunk count exactly so. */
  lemma NeverEmptyIff(duration: nat, chunks: nat)
    requires chunks > 0
    ensures NeverEmpty(duration, chunks) <==> AlwaysAscends(duration, chunks)
  {
    hide Ascends, Lowest, Highest, SplitAt;
    if NeverEmpty(duration, chunks) {
      forall silences, bounds, i | Splits(duration, chunks, silences, bounds) && 0 <= i < chunks
        ensures bounds[i] < bounds[i + 1]
      {
        BoundsAscend(duration, chunks, silences, bounds, i);
      }
    } else if i :| 0 <= i < chunks && !Ascends(duration, chunks, i) {
      var silences, bounds := SomeEmptyChunk(duration, chunks, i);
      assert Splits(duration, chunks, silences, bounds) && bounds[i] >= bounds[i + 1];
    }
  }

  /** More than 10/9 of a millisecond a chunk is enough, so two milliseconds are. */
  lemma TenNinthsIsEnough(duration: nat, chunks: nat)
    requires chunks > 0 && 9 * duration > 10 * chunks
    ensures NeverEmpty(duration, chunks)
  {
    hide Ascends, Lowest, Highest, SplitAt, NearlyAShare;
    forall i | 0 <= i < chunks
      ensures Ascends(duration, chunks, i)
    {
      if !Ascends(duration, chunks, i) {
        var silences, bounds := EmptyChunk(duration, chunks, i);
        ChunksAreNearlyEqual(duration, chunks, silences, bounds, i);
        NearlyAShareIsSome(duration, chunks, bounds[i + 1] - bounds[i]);
      }
    }
  }

  lemma WholeMiddle(chunks: nat, i: nat, twice: int)
    requires chunks > 0
    ensures FirstMiddle(chunks, chunks, i) <= twice <= LastMiddle(chunks, chunks, i) <==> twice == 2 * i
  {
    hide FirstMiddle, LastMiddle;
    MiddlesBetween(chunks, chunks, i, twice);
    var off := twice - 2 * i;
    assert 5 * (chunks * twice) - 10 * (chunks * i) == 5 * (chunks * off);
    if off > 0 {
      ScaleAscends(1, off, chunks);
    } else if off < 0 {
      ScaleAscends(off, -1, chunks);
    }
  }

  lemma WholeIsNearest(i: int, d: int, r: int)
    requires d > 0 && -d <= 2 * (r * d - d * i) <= d
    ensures r == i
  {
    var off := r - i;
    assert off * d == r * d - d * i;
    if off > 0 {
      ScaleAscends(1, off, d);
    } else if off < 0 {
      ScaleAscends(off, -1, d);
    }
  }

  lemma RoundedWhole(i: nat, d: nat)
    requires d > 0
    ensures RoundHalfEven(d * i, d) == i
  {
    hide RoundHalfEven;
    WholeIsNearest(i, d, RoundHalfEven(d * i, d));
  }

  lemma OneEach(chunks: nat, i: nat)
    requires 0 < chunks && i <= chunks
    ensures Lowest(chunks, chunks, i) == Highest(chunks, chunks, i) == i
  {
    RoundedWhole(i, chunks);
    hide RoundHalfEven, NearMiddle, FirstMiddle, LastMiddle;
    WholeMiddle(chunks, i, 2 * i - 1);
    WholeMiddle(chunks, i, 2 * i);
    WholeMiddle(chunks, i, 2 * i + 1);
  }

  /** So is exactly one millisecond a chunk. */
  lemma OneEachIsEnough(chunks: nat)
    requires chunks > 0
    ensures NeverEmpty(chunks, chunks)
  {
    forall i | 0 <= i < chunks
      ensures Ascends(chunks, chunks, i)
    {
      OneEach(chunks, i);
      OneEach(chunks, i + 1);
    }
  }

  lemma LowestFirst(duration: nat, chunks: nat, i: nat)
    requires 0 < chunks && i <= chunks
    ensures Lowest(duration, chunks, i) <= Highest(duration, chunks, i)
  {
  }

  /** Less than one millisecond a chunk never is: some chunk can be left empty. */
  lemma BelowOneIsNotEnough(duration: nat, chunks: nat)
    requires duration < chunks
    ensures !NeverEmpty(duration, chunks)
  {
    hide RoundHalfEven, FirstMiddle, LastMiddle;
    if NeverEmpty(duration, chunks) {
      for i := 0 to chunks
        invariant Highest(duration, chunks, i) >= i
      {
        assert Ascends(duration, chunks, i);
        LowestFirst(duration, chunks, i + 1);
      }
    }
  }

  lemma NearlyAShareIsNotNegative(duration: nat, chunks: nat, length: int)
    requires NearlyAShare(duration, chunks, length) && duration > 0
    ensures length >= 0
  {
    if length < 0 {
      ScaleAscends(length, -1, chunks);
    }
  }

  /** No chunk ends before it starts. */
  lemma ChunksNeverGoBack(duration: nat, chunks: nat, silences: seq<Gap>, bounds: seq<int>, i: nat)
    requires Splits(duration, chunks, silences, bounds) && i < chunks
    ensures bounds[i] <= bounds[i + 1]
  {
    hide SplitAt, Lowest, Highest;
    if duration > 0 {
      ChunksAreNearlyEqual(duration, chunks, silences, bounds, i);
      NearlyAShareIsNotNegative(duration, chunks, bounds[i + 1] - bounds[i]);
    } else {
      BoundBetween(duration, chunks, silences, bounds, i);
      BoundBetween(duration, chunks, silences, bounds, i + 1);
      NothingToSplit(chunks, i);
      NothingToSplit(chunks, i + 1);
    }
  }

  /** At 11/10 of a millisecond a chunk, a silence can leave a chunk with no time at all. */
  lemma TooShortCanBeEmpty(bounds: seq<int>)
    requires Splits(11, 10, [Gap(6, 7)], bounds)
    ensures bounds[5] == bounds[6] == 6
    ensures !NeverEmpty(11, 10)
  {
    hide Ascends, Lowest, Highest, Close;
    var silences := [Gap(6, 7)];
    assert LongestNear(11, 10, 6, silences, 0);
    assert SplitAt(11, 10, 6, silences, bounds[6]);
    assert SplitAt(11, 10, 5, silences, bounds[5]);
    if NeverEmpty(11, 10) {
      BoundsAscend(11, 10, silences, bounds, 5);
    }
  }

  // ---------------------------------------------------------------------------
  // Silences the detector prints
  // ---------------------------------------------------------------------------

  /** Silences inside the audio and of the detector's least length, but for what rounding to milliseconds takes. */
  ghost predicate Detected(duration: nat, silences: seq<Gap>) {
    forall i :: 0 <= i < |silences| ==>
      0 <= silences[i].start && silences[i].end <= duration && silences[i].Length() >= SILENCE_MIN_MS - 1
  }

  /** Without silences a bound is half a millisecond from its share's end. */
  lemma RoundedBound(duration: nat, chunks: nat, bounds: seq<int>, i: nat)
    requires Splits(duration, chunks, [], bounds) && i <= chunks
    ensures -1 * chunks <= 2 * (bounds[i] * chunks - duration * i) <= chunks
  {
    hide RoundHalfEven;
    if 0 < i < chunks {
      assert SplitAt(duration, chunks, i, [], bounds[i]);
    }
  }

  lemma RoundedAscend(duration: nat, chunks: nat, bounds: seq<int>, i: nat)
    requires Splits(duration, chunks, [], bounds) && i < chunks <= duration
    ensures bounds[i] < bounds[i + 1]
  {
    hide SplitAt, Ascends;
    if duration == chunks {
      OneEachIsEnough(chunks);
      BoundsAscend(duration, chunks, [], bounds, i);
    } else {
      RoundedBound(duration, chunks, bounds, i);
      RoundedBound(duration, chunks, bounds, i + 1);
      assert duration * (i + 1) == duration * i + duration;
      if bounds[i + 1] <= bounds[i] {
        ScaleAscends(bounds[i + 1], bounds[i], chunks);
      }
    }
  }

  /** Bounds that ascend need a millisecond for each chunk. */
  lemma {:induction false} AscendingReach(bounds: seq<int>, i: nat)
    requires i < |bounds| && bounds[0] == 0 && forall k :: 0 <= k < |bounds| - 1 ==> bounds[k] < bounds[k + 1]
    ensures bounds[i] >= i
  {
    if i > 0 {
      AscendingReach(bounds, i - 1);
      var k := i - 1;
      assert bounds[k] < bounds[k + 1];
    }
  }

  /** For any silences the detector prints, no chunk is empty exactly when there is a millisecond for each. */
  lemma DetectedNeverEmptyIff(duration: nat, chunks: nat, silences: seq<Gap>, bounds: seq<int>)
    requires Splits(duration, chunks, silences, bounds) && Detected(duration, silences) && chunks <= MAX_AUDIO_CHUNKS
    ensures (forall i :: 0 <= i < chunks ==> bounds[i] < bounds[i + 1]) <==> duration >= chunks
  {
    hide SplitAt, NearlyAShare;
    if duration >= chunks {
      forall i | 0 <= i < chunks
        ensures bounds[i] < bounds[i + 1]
      {
        if silences == [] {
          RoundedAscend(duration, chunks, bounds, i);
        } else {
          assert silences[0].Length() <= duration;
          ChunksAreNearlyEqual(duration, chunks, silences, bounds, i);
          NearlyAShareIsSome(duration, chunks, bounds[i + 1] - bounds[i]);
        }
      }
    } else if forall i :: 0 <= i < chunks ==> bounds[i] < bounds[i + 1] {
      AscendingReach(bounds, chunks);
    }
  }

  // ---------------------------------------------------------------------------
  // The operation
  // ---------------------------------------------------------------------------

  function Validate(start: Option<int>, end: Option<int>, chunks: int): (r: Result<(), Error>)
    ensures r.Success? <==> 1 <= chunks <= MAX_AUDIO_CHUNKS && Ffmpeg.CheckRange(start, end).Success?
    ensures !(1 <= chunks <= MAX_AUDIO_CHUNKS) ==> r == Failure(WrongChunkCount)
    ensures 1 <= chunks <= MAX_AUDIO_CHUNKS && r.Failure? ==> r.error.BadRange?
  {
    if !(1 <= chunks <= MAX_AUDIO_CHUNKS) then Failure(WrongChunkCount)
    else
      match Ffmpeg.CheckRange(start, end)
      case Success(_) => Success(())
      case Failure(cause) => Failure(BadRange(cause))
  }

  /** The chunk ranges lie end to end from one time to another. */
  ghost predicate Tile(ranges: seq<(int, int)>, from: int, to: int) {
    && ranges != [] && ranges[0].0 == from && ranges[|ranges| - 1].1 == to
    && (forall i :: 0 < i < |ranges| ==> ranges[i].0 == ranges[i - 1].1)
  }

  function Ranges(bounds: seq<int>, offset: int): seq<(int, int)>
    requires bounds != []
  {
    seq(|bounds| - 1, i requires 0 <= i < |bounds| - 1 => (offset + bounds[i], offset + bounds[i + 1]))
  }

  /**
   Ranges that tile the audio, each nearly a share, none backward, and none empty if the duration and the
   chunk count are such that none ever is; they meet at the splits.
   */
  ghost predicate Chunked(duration: nat, chunks: nat, silences: seq<Gap>, offset: int, ranges: seq<(int, int)>) {
    && |ranges| == chunks
    && Tile(ranges, offset, offset + duration)
    && (forall i :: 0 <= i < chunks ==> NearlyAShare(duration, chunks, ranges[i].1 - ranges[i].0))
    && (forall i :: 0 <= i < chunks ==> ranges[i].0 <= ranges[i].1)
    && (chunks > 0 && NeverEmpty(duration, chunks) ==> forall i :: 0 <= i < chunks ==> ranges[i].0 < ranges[i].1)
    && (forall i :: 0 < i < chunks ==> SplitAt(duration, chunks, i, silences, ranges[i].0 - offset))
  }

  lemma RangesAreChunks(duration: nat, chunks: nat, silences: seq<Gap>, bounds: seq<int>, offset: int)
    requires Splits(duration, chunks, silences, bounds)
    ensures Chunked(duration, chunks, silences, offset, Ranges(bounds, offset))
  {
    hide SplitAt, NearlyAShare, Ascends;
    var ranges := Ranges(bounds, offset);
    forall i | 0 <= i < chunks
      ensures NearlyAShare(duration, chunks, ranges[i].1 - ranges[i].0)
      ensures ranges[i].0 <= ranges[i].1
      ensures NeverEmpty(duration, chunks) ==> ranges[i].0 < ranges[i].1
    {
      ChunksAreNearlyEqual(duration, chunks, silences, bounds, i);
      ChunksNeverGoBack(duration, chunks, silences, bounds, i);
      if NeverEmpty(duration, chunks) {
        BoundsAscend(duration, chunks, silences, bounds, i);
      }
    }
    forall i | 0 < i < chunks
      ensures SplitAt(duration, chunks, i, silences, ranges[i].0 - offset)
    {
      assert ranges[i].0 - offset == bounds[i];
    }
  }

  /**
   The chunk ranges reported for a checked request. The duration is that of the audio already cut to
   the range, and the edges are its silence report.
   */
  method ExtractAudio(start: Option<int>, end: Option<int>, chunks: nat, hasAudio: bool, videoDuration: int,
                      duration: nat, edges: seq<Edge>)
    returns (result: Result<seq<(int, int)>, Error>)
    requires Validate(start, end, chunks).Success?
    ensures result == Failure(NoAudio) <==> !hasAudio
    ensures result.Success? <==> hasAudio && (start.None? || start.value < videoDuration)
    ensures hasAudio && result.Failure? ==> result == Failure(BadRange(Ffmpeg.StartPastEnd))
    ensures result.Success? ==>
              var offset := if start.Some? then start.value else 0;
              Chunked(duration, chunks, Adjacent(edges), offset, result.value)
  {
    hide SplitAt, NearlyAShare;
    if !hasAudio {
      return Failure(NoAudio);
    }
    var range := Ffmpeg.ClampRange(videoDuration, start, end);
    if range.Failure? {
      return Failure(BadRange(range.error));
    }
    var silences := Silences(edges);
    var middle := ChunkBounds(duration, chunks, silences);
    var bounds := [0] + middle + [duration];
    assert Splits(duration, chunks, silences, bounds);
    var offset := if start.Some? then start.value else 0;
    RangesAreChunks(duration, chunks, silences, bounds, offset);
    result := Success(Ranges(bounds, offset));
  }
}
