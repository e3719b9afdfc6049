/**
 Keep ranges: the frames of a segment that survive, apps/renderer/media/cut.py.

 select and aselect keep a cell when any range covers its frame, so a frame two ranges covered would
 be kept once but counted twice. Validation orders the ranges; this module proves that ordered ranges
 keep exactly their slices, and exactly when the kept length is the length passed on to join.
 */
module Keep {
  import opened Wrappers
  import opened Numbers
  import opened Selections
  import opened Ffmpeg
  import opened FilterGraph

  const MAX_KEEP_RANGES := 500

  datatype Segment = Segment(input: int, start: int, end: int)

  datatype KeepRange = KeepRange(position: int, first: int, end: int)

  function FrameCount(durationMs: int, fps: int): int {
    Ceiling(durationMs * fps, 1000)
  }

  // ---------------------------------------------------------------------------
  // Validation
  // ---------------------------------------------------------------------------

  /** Python's order on pairs. */
  predicate Precedes(a: (int, int), b: (int, int)) {
    a.0 < b.0 || (a.0 == b.0 && a.1 < b.1)
  }

  predicate InOrder(keep: seq<KeepRange>, i: nat, segments: nat)
    requires i < |keep|
  {
    var previous := if i == 0 then (-1, 0) else (keep[i - 1].position, keep[i - 1].end);
    0 <= keep[i].position < segments && !Precedes((keep[i].position, keep[i].first), previous)
  }

  predicate InsideSegment(range: KeepRange, segments: seq<Segment>, fps: int)
    requires 0 <= range.position < |segments|
  {
    var segment := segments[range.position];
    0 <= range.first < range.end <= FrameCount(segment.end - segment.start, fps)
  }

  predicate ValidRange(keep: seq<KeepRange>, i: nat, segments: seq<Segment>, fps: int)
    requires i < |keep|
  {
    InOrder(keep, i, |segments|) && InsideSegment(keep[i], segments, fps)
  }

  predicate ValidKeep(keep: seq<KeepRange>, segments: seq<Segment>, fps: int) {
    && |keep| <= MAX_KEEP_RANGES
    && forall i :: 0 <= i < |keep| ==> ValidRange(keep, i, segments, fps)
  }

  /** Ranges must come in segment order, without overlap, and inside their segment. */
  method ValidateKeep(keep: seq<KeepRange>, segments: seq<Segment>, fps: int) returns (fault: Option<Error>)
    ensures fault.None? <==> ValidKeep(keep, segments, fps)
    ensures fault == Some(TooManyKeepRanges) <==> |keep| > MAX_KEEP_RANGES
    ensures |keep| <= MAX_KEEP_RANGES ==>
              forall i :: 0 <= i < |keep| && !ValidRange(keep, i, segments, fps)
                          && (forall j :: 0 <= j < i ==> ValidRange(keep, j, segments, fps)) ==>
                            fault == Some(if InOrder(keep, i, |segments|) then KeepOutsideSegment else KeepOutOfOrder)
  {
    if |keep| > MAX_KEEP_RANGES {
      return Some(TooManyKeepRanges);
    }
    var previous := (-1, 0);
    for i := 0 to |keep|
      invariant previous == if i == 0 then (-1, 0) else (keep[i - 1].position, keep[i - 1].end)
      invariant forall j :: 0 <= j < i ==> ValidRange(keep, j, segments, fps)
    {
      var KeepRange(position, first, end) := keep[i];
      if !(0 <= position < |segments|) || Precedes((position, first), previous) {
        assert !ValidRange(keep, i, segments, fps);
        return Some(KeepOutOfOrder);
      }
      var segment := segments[position];
      if !(0 <= first < end <= FrameCount(segment.end - segment.start, fps)) {
        assert !ValidRange(keep, i, segments, fps);
        return Some(KeepOutsideSegment);
      }
      previous := (position, end);
    }
    return None;
  }

  /** Entry i stands before entry j: its segment does, or it is over before the other begins. */
  predicate StandsBefore(a: KeepRange, b: KeepRange) {
    a.position < b.position || (a.position == b.position && a.end <= b.first)
  }

  predicate StandsInside(k: KeepRange, segments: seq<Segment>, fps: int) {
    && 0 <= k.position < |segments| && 0 <= k.first < k.end
    && 1000 * (k.end - 1) < (segments[k.position].end - segments[k.position].start) * fps
  }

  lemma {:induction false} ValidKeepStands(keep: seq<KeepRange>, segments: seq<Segment>, fps: int, i: nat, j: nat)
    requires ValidKeep(keep, segments, fps) && i < j < |keep|
    ensures StandsBefore(keep[i], keep[j])
    decreases j
  {
    assert ValidRange(keep, i, segments, fps) && ValidRange(keep, j - 1, segments, fps);
    assert ValidRange(keep, j, segments, fps);
    hide FrameCount;
    if i < j - 1 {
      ValidKeepStands(keep, segments, fps, i, j - 1);
    }
  }

  lemma InsideIff(k: KeepRange, segments: seq<Segment>, fps: int)
    requires 0 <= k.position < |segments|
    ensures InsideSegment(k, segments, fps) <==> StandsInside(k, segments, fps)
  {
    var segment := segments[k.position];
    CeilingIff((segment.end - segment.start) * fps, 1000, k.end - 1);
  }

  /** Comparing with the one before is enough: the ranges valid are those inside their segments that all stand apart. */
  lemma ValidKeepIff(keep: seq<KeepRange>, segments: seq<Segment>, fps: int)
    ensures ValidKeep(keep, segments, fps) <==>
              && |keep| <= 500
              && (forall i :: 0 <= i < |keep| ==> StandsInside(keep[i], segments, fps))
              && (forall i, j :: 0 <= i < j < |keep| ==> StandsBefore(keep[i], keep[j]))
  {
    if ValidKeep(keep, segments, fps) {
      forall i | 0 <= i < |keep|
        ensures StandsInside(keep[i], segments, fps)
      {
        assert ValidRange(keep, i, segments, fps);
        InsideIff(keep[i], segments, fps);
      }
      forall i, j | 0 <= i < j < |keep|
        ensures StandsBefore(keep[i], keep[j])
      {
        ValidKeepStands(keep, segments, fps, i, j);
      }
    } else if |keep| <= 500 {
      var i :| 0 <= i < |keep| && !ValidRange(keep, i, segments, fps);
      if StandsInside(keep[i], segments, fps) {
        InsideIff(keep[i], segments, fps);
        assert i > 0 && !StandsBefore(keep[i - 1], keep[i]);
      }
    }
  }

  // ---------------------------------------------------------------------------
  // The ranges of one segment
  // ---------------------------------------------------------------------------

  /** The ranges listed for one segment, in the order they come: keep[position] in the source. */
  function RangesOf(keep: seq<KeepRange>, position: int): seq<Range> {
    if keep == [] then []
    else
      var last := keep[|keep| - 1];
      RangesOf(keep[..|keep| - 1], position)
      + if last.position == position && 0 <= last.first && 0 <= last.end then [Range(last.first, last.end)] else []
  }

  /** What is wanted of the list for one segment, and the range an entry makes. */
  function ForSegment(position: int): KeepRange -> bool {
    (k: KeepRange) => k.position == position
  }

  predicate Makes(k: KeepRange, range: Range) {
    range.first == k.first && range.end == k.end
  }

  predicate Counted(keep: seq<KeepRange>) {
    forall i :: 0 <= i < |keep| ==> 0 <= keep[i].first && 0 <= keep[i].end
  }

  lemma EntriesAreCounted(keep: seq<KeepRange>, segments: seq<Segment>, fps: int)
    requires ValidKeep(keep, segments, fps)
    ensures Counted(keep)
  {
    forall i | 0 <= i < |keep|
      ensures 0 <= keep[i].first && 0 <= keep[i].end
    {
      assert ValidRange(keep, i, segments, fps);
    }
  }

  /** The ranges of a segment are its entries: all of them and no other, in the order listed. */
  lemma {:induction false} RangesAreEntries(keep: seq<KeepRange>, position: int)
    requires Counted(keep)
    ensures Selects(keep, ForSegment(position), Makes, RangesOf(keep, position))
  {
    if keep == [] {
      SelectsNone(ForSegment(position), Makes);
    } else {
      var k := |keep| - 1;
      var front, last := keep[..k], keep[k];
      var earlier := RangesOf(front, position);
      RangesAreEntries(front, position);
      hide Selects;
      assert front + [last] == keep && earlier + [] == earlier;
      if last.position == position {
        SelectsOne(front, last, ForSegment(position), Makes, earlier, Range(last.first, last.end));
      } else {
        SelectsOn(front, last, ForSegment(position), Makes, earlier);
      }
    }
  }

  /** Some entry asks for frame f of the segment. */
  predicate Asked(keep: seq<KeepRange>, position: int, f: int) {
    exists i :: 0 <= i < |keep| && keep[i].position == position && keep[i].first <= f < keep[i].end
  }

  lemma GroupedAreEntries(keep: seq<KeepRange>, grouped: map<int, seq<Range>>)
    requires Counted(keep) && forall p :: RangesOf(keep, p) == if p in grouped then grouped[p] else []
    ensures forall p :: Selects(keep, ForSegment(p), Makes, if p in grouped then grouped[p] else [])
  {
    hide Selects, RangesOf;
    forall p
      ensures Selects(keep, ForSegment(p), Makes, if p in grouped then grouped[p] else [])
    {
      RangesAreEntries(keep, p);
    }
  }

  /** Some entry is for the segment. */
  predicate HasEntry(keep: seq<KeepRange>, position: int) {
    exists i :: 0 <= i < |keep| && keep[i].position == position
  }

  lemma ListedIffRanges(keep: seq<KeepRange>, position: int)
    requires Counted(keep)
    ensures HasEntry(keep, position) <==> RangesOf(keep, position) != []
  {
    RangesAreEntries(keep, position);
    hide RangesOf, Makes;
    var ranges := RangesOf(keep, position);
    var places :| SelectsAt(keep, ForSegment(position), Makes, ranges, places);
    if i :| 0 <= i < |keep| && keep[i].position == position {
      assert ForSegment(position)(keep[i]);
    }
    if ranges != [] {
      assert places[0] in places && ForSegment(position)(keep[places[0]]);
    }
  }

  /** Its ranges choose exactly the frames its entries ask for. */
  lemma ChosenIffAsked(keep: seq<KeepRange>, position: int, f: nat)
    requires Counted(keep)
    ensures Chosen(RangesOf(keep, position), f) <==> Asked(keep, position, f)
  {
    RangesAreEntries(keep, position);
    var ranges := RangesOf(keep, position);
    var places :| SelectsAt(keep, ForSegment(position), Makes, ranges, places);
    if i :| 0 <= i < |keep| && keep[i].position == position && keep[i].first <= f < keep[i].end {
      assert ForSegment(position)(keep[i]);
      var j :| 0 <= j < |places| && places[j] == i;
      assert Makes(keep[i], ranges[j]);
    }
    if j :| 0 <= j < |ranges| && ranges[j].first <= f < ranges[j].end {
      assert places[j] in places && ForSegment(position)(keep[places[j]]);
      assert Makes(keep[places[j]], ranges[j]);
    }
  }

  /** The frames the entries of a segment ask for, counted entry by entry. */
  function FramesAsked(keep: seq<KeepRange>, position: int): int {
    if keep == [] then 0
    else
      var last := keep[|keep| - 1];
      FramesAsked(keep[..|keep| - 1], position) + if last.position == position then last.end - last.first else 0
  }

  function Span(ranges: seq<Range>): int {
    if ranges == [] then 0
    else Span(ranges[..|ranges| - 1]) + ranges[|ranges| - 1].end - ranges[|ranges| - 1].first
  }

  lemma {:induction false} SpanIsAsked(keep: seq<KeepRange>, position: int)
    requires Counted(keep)
    ensures Span(RangesOf(keep, position)) == FramesAsked(keep, position)
  {
    if keep != [] {
      var last := keep[|keep| - 1];
      var earlier := RangesOf(keep[..|keep| - 1], position);
      SpanIsAsked(keep[..|keep| - 1], position);
      assert earlier + [] == earlier;
      if last.position == position {
        assert (earlier + [Range(last.first, last.end)])[..|earlier|] == earlier;
      }
    }
  }

  lemma NothingListed()
    ensures forall p :: RangesOf([], p) == []
  {
  }

  lemma RangesNext(keep: seq<KeepRange>, i: nat, p: int)
    requires i < |keep| && 0 <= keep[i].first && 0 <= keep[i].end
    ensures RangesOf(keep[..i + 1], p) ==
            if keep[i].position == p then RangesOf(keep[..i], p) + [Range(keep[i].first, keep[i].end)]
            else RangesOf(keep[..i], p)
  {
    assert keep[..i + 1][..i] == keep[..i];
    assert RangesOf(keep[..i], p) + [] == RangesOf(keep[..i], p);
  }

  method GroupKeep(keep: seq<KeepRange>, segments: seq<Segment>, fps: int) returns (grouped: map<int, seq<Range>>)
    requires ValidKeep(keep, segments, fps)
    ensures forall p :: RangesOf(keep, p) == if p in grouped then grouped[p] else []
    // Each segment gets its entries, all of them and no other, in the order listed.
    ensures forall p :: Selects(keep, ForSegment(p), Makes, if p in grouped then grouped[p] else [])
  {
    hide Selects, RangesOf;
    grouped := map[];
    NothingListed();
    for i := 0 to |keep|
      invariant forall p :: RangesOf(keep[..i], p) == if p in grouped then grouped[p] else []
    {
      assert ValidRange(keep, i, segments, fps);
      forall p
        ensures RangesOf(keep[..i + 1], p) ==
                if keep[i].position == p then RangesOf(keep[..i], p) + [Range(keep[i].first, keep[i].end)]
                else RangesOf(keep[..i], p)
      {
        RangesNext(keep, i, p);
      }
      var KeepRange(position, first, end) := keep[i];
      var earlier := if position in grouped then grouped[position] else [];
      grouped := grouped[position := earlier + [Range(first, end)]];
    }
    assert keep[..|keep|] == keep;
    EntriesAreCounted(keep, segments, fps);
    GroupedAreEntries(keep, grouped);
  }

  /** Non-empty, disjoint and ascending. */
  predicate Ordered(ranges: seq<Range>) {
    && (forall i :: 0 <= i < |ranges| ==> ranges[i].first < ranges[i].end)
    && (forall i, j :: 0 <= i < j < |ranges| ==> ranges[i].end <= ranges[j].first)
  }

  predicate EndBy(ranges: seq<Range>, limit: int) {
    forall i :: 0 <= i < |ranges| ==> ranges[i].end <= limit
  }

  /** Validation makes every segment's ranges disjoint, ascending, and inside the segment as requested. */
  lemma {:induction false} ValidKeepIsOrdered(keep: seq<KeepRange>, segments: seq<Segment>, fps: int, n: nat,
                                              position: int)
    requires ValidKeep(keep, segments, fps) && n <= |keep| && 0 <= position < |segments|
    ensures var ranges := RangesOf(keep[..n], position);
            && Ordered(ranges)
            && EndBy(ranges, FrameCount(segments[position].end - segments[position].start, fps))
            && (n == 0 ==> ranges == [])
            && (n > 0 && keep[n - 1].position < position ==> ranges == [])
            && (n > 0 && keep[n - 1].position == position ==> EndBy(ranges, keep[n - 1].end))
  {
    if n > 0 {
      hide FrameCount;
      ValidKeepIsOrdered(keep, segments, fps, n - 1, position);
      assert keep[..n][..n - 1] == keep[..n - 1];
      assert ValidRange(keep, n - 1, segments, fps);
      if n > 1 {
        assert ValidRange(keep, n - 2, segments, fps);
      }
    }
  }

  // ---------------------------------------------------------------------------
  // What select keeps
  // ---------------------------------------------------------------------------

  /** The cells from a to b, among the first n. */
  function Part(s: Stream, a: nat, b: nat, n: nat): Stream
    requires a <= b && n <= |s|
  {
    s[Min(a, n)..Min(b, n)]
  }

  /** Where frame f starts, a frame being `piece` cells long. */
  function Cells(f: nat, piece: nat): nat {
    f * piece
  }

  /** The slices of the first n cells the ranges name, a frame being `piece` cells long. */
  function Slices(s: Stream, piece: nat, ranges: seq<Range>, n: nat): Stream
    requires Ordered(ranges) && n <= |s|
  {
    if ranges == [] then []
    else
      var last := ranges[|ranges| - 1];
      ScaleAscends(last.first, last.end, piece);
      Slices(s, piece, ranges[..|ranges| - 1], n) + Part(s, Cells(last.first, piece), Cells(last.end, piece), n)
  }

  /** Cell n belongs to frame f. */
  ghost predicate InFrame(n: nat, f: nat, piece: nat) {
    forall g: nat :: f < g <==> n < Cells(g, piece)
  }

  lemma FrameOf(n: nat, piece: nat)
    requires piece > 0
    ensures InFrame(n, n / piece, piece)
  {
    forall g: nat
      ensures n / piece < g <==> n < Cells(g, piece)
    {
      PieceOf(n, piece, g);
    }
  }

  lemma ChosenByLast(ranges: seq<Range>, f: nat)
    requires Ordered(ranges) && ranges != []
    ensures var front, last := ranges[..|ranges| - 1], ranges[|ranges| - 1];
            && (Chosen(ranges, f) <==> Chosen(front, f) || last.first <= f < last.end)
            && (last.first <= f ==> !Chosen(front, f))
  {
    var k := |ranges| - 1;
    var front, last := ranges[..k], ranges[k];
    if Chosen(front, f) {
      var i :| 0 <= i < k && front[i].first <= f < front[i].end;
      assert ranges[i].first <= f < ranges[i].end;
    }
    if last.first <= f < last.end {
      assert ranges[k].first <= f < ranges[k].end;
    }
    if Chosen(ranges, f) && !(last.first <= f < last.end) {
      var i :| 0 <= i <= k && ranges[i].first <= f < ranges[i].end;
      assert front[i].first <= f < front[i].end;
    }
  }

  lemma PartGrow(s: Stream, a: nat, b: nat, n: nat)
    requires a <= b && n < |s|
    ensures Part(s, a, b, n + 1) == Part(s, a, b, n) + if a <= n < b then [s[n]] else []
  {
  }

  /** One more cell adds itself to the slices exactly when its frame is chosen. */
  lemma {:induction false} SlicesGrow(s: Stream, piece: nat, ranges: seq<Range>, n: nat, f: nat)
    requires Ordered(ranges) && n < |s| && InFrame(n, f, piece)
    ensures Slices(s, piece, ranges, n + 1) ==
            Slices(s, piece, ranges, n) + if Chosen(ranges, f) then [s[n]] else []
    decreases |ranges|
  {
    if ranges != [] {
      var last := ranges[|ranges| - 1];
      var a, b := Cells(last.first, piece), Cells(last.end, piece);
      ScaleAscends(last.first, last.end, piece);
      SlicesGrow(s, piece, ranges[..|ranges| - 1], n, f);
      ChosenByLast(ranges, f);
      PartGrow(s, a, b, n);
      hide Cells, Chosen, Part, Ordered;
      assert Slices(s, piece, ranges, n) == Slices(s, piece, ranges[..|ranges| - 1], n) + Part(s, a, b, n);
      assert Slices(s, piece, ranges, n + 1) == Slices(s, piece, ranges[..|ranges| - 1], n + 1) + Part(s, a, b, n + 1);
    }
  }

  lemma {:induction false} NoSlices(s: Stream, piece: nat, ranges: seq<Range>)
    requires Ordered(ranges)
    ensures Slices(s, piece, ranges, 0) == []
    decreases |ranges|
  {
    if ranges != [] {
      NoSlices(s, piece, ranges[..|ranges| - 1]);
    }
  }

  /** select keeps exactly the slices its ordered ranges name, in order and each once. */
  lemma {:induction false} SelectKeepsSlices(s: Stream, piece: nat, ranges: seq<Range>, n: nat)
    requires Ordered(ranges) && n <= |s| && piece > 0
    ensures Kept(s, piece, ranges, n) == Slices(s, piece, ranges, n)
  {
    if n == 0 {
      NoSlices(s, piece, ranges);
    } else {
      SelectKeepsSlices(s, piece, ranges, n - 1);
      FrameOf(n - 1, piece);
      SlicesGrow(s, piece, ranges, n - 1, (n - 1) / piece);
    }
  }

  /** The frames a segment of `frames` frames keeps. */
  function KeptFrames(ranges: seq<Range>, frames: nat): int {
    if ranges == [] then 0
    else
      var last := ranges[|ranges| - 1];
      KeptFrames(ranges[..|ranges| - 1], frames) + Min(last.end, frames) - Min(last.first, frames)
  }

  lemma PartLength(s: Stream, piece: nat, first: nat, end: nat, frames: nat)
    requires |s| == frames * piece && first <= end
    ensures Cells(first, piece) <= Cells(end, piece)
    ensures |Part(s, Cells(first, piece), Cells(end, piece), |s|)| ==
            Min(end, frames) * piece - Min(first, frames) * piece
  {
    ScaleAscends(first, end, piece);
    MinScales(first, frames, piece);
    MinScales(end, frames, piece);
  }

  function KeptBy(range: Range, n: nat): int {
    Min(range.end, n) - Min(range.first, n)
  }

  lemma KeptByLast(ranges: seq<Range>, n: nat)
    requires ranges != []
    ensures KeptFrames(ranges, n) == KeptFrames(ranges[..|ranges| - 1], n) + KeptBy(ranges[|ranges| - 1], n)
  {
  }

  lemma SlicesByLast(s: Stream, piece: nat, ranges: seq<Range>)
    requires Ordered(ranges) && ranges != []
    ensures var last := ranges[|ranges| - 1];
            && Cells(last.first, piece) <= Cells(last.end, piece)
            && |Slices(s, piece, ranges, |s|)| == |Slices(s, piece, ranges[..|ranges| - 1], |s|)|
                                                  + |Part(s, Cells(last.first, piece), Cells(last.end, piece), |s|)|
  {
    ScaleAscends(ranges[|ranges| - 1].first, ranges[|ranges| - 1].end, piece);
    hide Part, Cells;
  }

  /** Picture and sound keep the same frames, `piece` samples to each. */
  lemma {:induction false} SlicesLength(s: Stream, piece: nat, ranges: seq<Range>, frames: nat)
    requires Ordered(ranges) && |s| == frames * piece
    ensures |Slices(s, piece, ranges, |s|)| == KeptFrames(ranges, frames) * piece
    decreases |ranges|
  {
    if ranges != [] {
      var k := |ranges| - 1;
      SlicesLength(s, piece, ranges[..k], frames);
      SlicesByLast(s, piece, ranges);
      KeptByLast(ranges, frames);
      hide Cells, Part, Ordered, Slices, KeptFrames;
      PartLength(s, piece, ranges[k].first, ranges[k].end, frames);
      ScaleSplits(KeptFrames(ranges[..k], frames), Min(ranges[k].end, frames), Min(ranges[k].first, frames), piece);
    }
  }

  /** Kept frames number the sum passed to join exactly when every range ends inside the segment. */
  lemma {:induction false} SpanKeptIffInside(ranges: seq<Range>, frames: nat)
    requires Ordered(ranges)
    ensures 0 <= KeptFrames(ranges, frames) <= Span(ranges)
    ensures ranges != [] ==> Span(ranges) > 0
    ensures KeptFrames(ranges, frames) == Span(ranges) <==> EndBy(ranges, frames)
    decreases |ranges|
  {
    if ranges != [] {
      var k := |ranges| - 1;
      SpanKeptIffInside(ranges[..k], frames);
      assert EndBy(ranges, frames) <==> EndBy(ranges[..k], frames) && ranges[k].end <= frames;
    }
  }

  /** What a range keeps of `frames` frames it keeps of the first n of them. */
  predicate Covers(range: Range, n: nat, frames: nat) {
    Min(range.end, frames) <= Max(n, Min(range.first, frames))
  }

  lemma CoversIff(range: Range, n: nat, frames: nat)
    requires range.first < range.end && n <= frames
    ensures KeptBy(range, n) <= KeptBy(range, frames)
    ensures KeptBy(range, n) == KeptBy(range, frames) <==> Covers(range, n, frames)
  {
  }

  /** Of fewer frames ranges keep no more, and as many exactly when those they keep are among the first. */
  lemma {:induction false} KeptWhenShort(ranges: seq<Range>, n: nat, frames: nat)
    requires Ordered(ranges) && n <= frames
    ensures KeptFrames(ranges, n) <= KeptFrames(ranges, frames)
    ensures KeptFrames(ranges, n) == KeptFrames(ranges, frames)
            <==> forall i :: 0 <= i < |ranges| ==> Covers(ranges[i], n, frames)
    decreases |ranges|
  {
    if ranges != [] {
      var k := |ranges| - 1;
      KeptWhenShort(ranges[..k], n, frames);
      CoversIff(ranges[k], n, frames);
      KeptByLast(ranges, n);
      KeptByLast(ranges, frames);
      hide Covers, KeptBy, KeptFrames;
      assert forall i :: 0 <= i < k ==> ranges[..k][i] == ranges[i];
    }
  }

  // ---------------------------------------------------------------------------
  // Why the order is checked
  // ---------------------------------------------------------------------------

  predicate Lists(range: Range, f: nat) {
    range.first <= f < range.end
  }

  /** How many of the ranges list a frame. */
  function Listed(ranges: seq<Range>, f: nat): nat {
    if ranges == [] then 0
    else Listed(ranges[..|ranges| - 1], f) + if Lists(ranges[|ranges| - 1], f) then 1 else 0
  }

  ghost predicate Proper(ranges: seq<Range>) {
    forall i :: 0 <= i < |ranges| ==> ranges[i].first < ranges[i].end
  }

  /** No frame is in two of the ranges, whatever their order. */
  ghost predicate Disjoint(ranges: seq<Range>) {
    forall i, j :: 0 <= i < j < |ranges| ==> ranges[i].end <= ranges[j].first || ranges[j].end <= ranges[i].first
  }

  lemma {:induction false} ListedIsChosen(ranges: seq<Range>, f: nat)
    ensures Listed(ranges, f) > 0 <==> exists i :: 0 <= i < |ranges| && Lists(ranges[i], f)
  {
    if ranges != [] {
      var k := |ranges| - 1;
      ListedIsChosen(ranges[..k], f);
      if i :| 0 <= i < |ranges| && Lists(ranges[i], f) {
        assert i < k ==> Lists(ranges[..k][i], f);
      }
    }
  }

  lemma {:induction false} ListedTwice(ranges: seq<Range>, f: nat)
    ensures Listed(ranges, f) > 1 <==>
            exists i, j :: 0 <= i < j < |ranges| && Lists(ranges[i], f) && Lists(ranges[j], f)
  {
    if ranges != [] {
      var k := |ranges| - 1;
      ListedTwice(ranges[..k], f);
      ListedIsChosen(ranges[..k], f);
      hide Lists;
      if i, j :| 0 <= i < j < |ranges| && Lists(ranges[i], f) && Lists(ranges[j], f) {
        assert Lists(ranges[..k][i], f);
        assert j < k ==> Lists(ranges[..k][j], f);
      }
      if Listed(ranges, f) > 1 && Listed(ranges[..k], f) <= 1 {
        var i :| 0 <= i < k && Lists(ranges[..k][i], f);
        assert Lists(ranges[i], f) && Lists(ranges[k], f);
      }
    }
  }

  /** One more frame adds as many to the sum of the ranges as list it. */
  lemma {:induction false} KeptFramesGrow(ranges: seq<Range>, n: nat)
    requires Proper(ranges)
    ensures KeptFrames(ranges, n + 1) == KeptFrames(ranges, n) + Listed(ranges, n)
    decreases |ranges|
  {
    if ranges != [] {
      KeptFramesGrow(ranges[..|ranges| - 1], n);
    }
  }

  lemma {:induction false} KeptFramesEnds(ranges: seq<Range>, n: nat)
    requires Proper(ranges)
    ensures KeptFrames(ranges, 0) == 0
    ensures EndBy(ranges, n) ==> KeptFrames(ranges, n) == Span(ranges)
    decreases |ranges|
  {
    if ranges != [] {
      KeptFramesEnds(ranges[..|ranges| - 1], n);
    }
  }

  /** select keeps at most the frames the ranges add up to, and as many only if it lists none twice. */
  lemma {:induction false} KeptAtMostListed(s: Stream, ranges: seq<Range>, n: nat)
    requires Proper(ranges) && n <= |s|
    ensures |Kept(s, 1, ranges, n)| <= KeptFrames(ranges, n)
    ensures |Kept(s, 1, ranges, n)| == KeptFrames(ranges, n) <==> forall f :: 0 <= f < n ==> Listed(ranges, f) <= 1
  {
    if n == 0 {
      KeptFramesEnds(ranges, 0);
    } else {
      KeptAtMostListed(s, ranges, n - 1);
      KeptFramesGrow(ranges, n - 1);
      ListedIsChosen(ranges, n - 1);
      hide KeptFrames, Listed;
    }
  }

  /** The sum passed to join would overstate ranges in any order exactly when two of them overlap. */
  lemma OverstatedIffOverlapping(s: Stream, ranges: seq<Range>)
    requires Proper(ranges) && EndBy(ranges, |s|)
    ensures |Kept(s, 1, ranges, |s|)| <= Span(ranges)
    ensures |Kept(s, 1, ranges, |s|)| == Span(ranges) <==> Disjoint(ranges)
  {
    hide Kept, KeptFrames, Span, Listed;
    KeptFramesEnds(ranges, |s|);
    KeptAtMostListed(s, ranges, |s|);
    if Disjoint(ranges) {
      forall f | 0 <= f < |s|
        ensures Listed(ranges, f) <= 1
      {
        ListedTwice(ranges, f);
      }
    } else {
      var i, j :| 0 <= i < j < |ranges| && !(ranges[i].end <= ranges[j].first || ranges[j].end <= ranges[i].first);
      var f := Max(ranges[i].first, ranges[j].first);
      assert Lists(ranges[i], f) && Lists(ranges[j], f);
      ListedTwice(ranges, f);
    }
  }
}
