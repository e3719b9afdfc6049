/** The cut operation: validation, lengths, and the filter graph run_cut assembles. */
module Cut {
  import opened Wrappers
  import opened Numbers
  import opened Ffmpeg
  import opened FilterGraph
  import opened Timeline
  import opened Transitions
  import opened Keep

  const MAX_SEGMENTS := 10
  const MIN_OUTPUT_FPS := 24
  const MAX_OUTPUT_FPS := 60
  const END_PAD_SECONDS := 1

  datatype Arguments = Arguments(
    segments: seq<Segment>,
    fps: int,
    keep: seq<KeepRange>,
    captions: bool,
    transitions: seq<Transition>,
    fadeIn: int,
    fadeOut: int)

  /** What probing reports of one input. */
  datatype Summary = Summary(duration: int, hasAudio: bool)

  // ---------------------------------------------------------------------------
  // Validation
  // ---------------------------------------------------------------------------

  function Inputs(segments: seq<Segment>): set<int> {
    set i | 0 <= i < |segments| :: segments[i].input
  }

  function Numbered(n: nat): (numbers: set<int>)
    ensures forall i :: i in numbers <==> 0 <= i < n
  {
    if n == 0 then {} else Numbered(n - 1) + {n - 1}
  }

  predicate ValidSegments(segments: seq<Segment>) {
    && 1 <= |segments| <= MAX_SEGMENTS
    && (forall i :: 0 <= i < |segments| ==> 0 <= segments[i].start < segments[i].end)
    && Inputs(segments) == Numbered(|Inputs(segments)|)
  }

  /** Why a segment's own range is refused, if it is. */
  function RangeFault(segment: Segment): Option<Error> {
    match CheckRange(Some(segment.start), Some(segment.end))
    case Success(_) => None
    case Failure(error) => Some(error)
  }

  /** One to ten non-empty ranges that use every input from 0; the first fault is reported. */
  method ValidateSegments(segments: seq<Segment>) returns (fault: Option<Error>)
    ensures fault.None? <==> ValidSegments(segments)
    ensures fault == Some(WrongSegmentCount) <==> !(1 <= |segments| <= MAX_SEGMENTS)
    ensures 1 <= |segments| <= MAX_SEGMENTS ==>
              forall i :: 0 <= i < |segments| && RangeFault(segments[i]).Some?
                          && (forall j :: 0 <= j < i ==> RangeFault(segments[j]).None?) ==>
                            fault == RangeFault(segments[i])
    ensures (&& 1 <= |segments| <= MAX_SEGMENTS
             && (forall i :: 0 <= i < |segments| ==> RangeFault(segments[i]).None?)
             && Inputs(segments) != Numbered(|Inputs(segments)|)) ==> fault == Some(UnusedInput)
  {
    if !(1 <= |segments| <= MAX_SEGMENTS) {
      return Some(WrongSegmentCount);
    }
    for i := 0 to |segments|
      invariant forall j :: 0 <= j < i ==> RangeFault(segments[j]).None?
    {
      match CheckRange(Some(segments[i].start), Some(segments[i].end)) {
        case Failure(error) => return Some(error);
        case Success(_) =>
      }
    }
    var inputs := Inputs(segments);
    if inputs != Numbered(|inputs|) {
      return Some(UnusedInput);
    }
    return None;
  }

  predicate ValidCut(arguments: Arguments, offered: Offered) {
    && ValidSegments(arguments.segments)
    && MIN_OUTPUT_FPS <= arguments.fps <= MAX_OUTPUT_FPS
    && ValidKeep(arguments.keep, arguments.segments, arguments.fps)
    && ValidTransitions(arguments.transitions, |arguments.segments|, arguments.fadeIn, arguments.fadeOut, offered)
  }

  /** One summary per input, each of a video that lasts. */
  predicate Probed(arguments: Arguments, summaries: seq<Summary>) {
    && |summaries| == |Inputs(arguments.segments)|
    && forall i :: 0 <= i < |summaries| ==> summaries[i].duration > 0
  }

  /** Every segment names a probed input. */
  predicate Indexed(arguments: Arguments, summaries: seq<Summary>) {
    forall p :: 0 <= p < |arguments.segments| ==> 0 <= arguments.segments[p].input < |summaries|
  }

  lemma ProbedIsIndexed(arguments: Arguments, summaries: seq<Summary>)
    requires ValidSegments(arguments.segments) && Probed(arguments, summaries)
    ensures Indexed(arguments, summaries)
  {
    forall p | 0 <= p < |arguments.segments|
      ensures 0 <= arguments.segments[p].input < |summaries|
    {
      assert arguments.segments[p].input in Inputs(arguments.segments);
    }
  }

  /** What the assembly may rely on: a validated request, with every input probed. */
  ghost predicate Accepted(arguments: Arguments, summaries: seq<Summary>): (accepted: bool)
    ensures accepted ==> Indexed(arguments, summaries)
  {
    && (exists offered :: ValidCut(arguments, offered))
    && Probed(arguments, summaries)
    && (ProbedIsIndexed(arguments, summaries); true)
  }

  // ---------------------------------------------------------------------------
  // Lengths
  // ---------------------------------------------------------------------------

  /** What the graph needs to know of a segment: its frames once trimmed to the source, and its keep ranges. */
  datatype Shot = Shot(hasAudio: bool, frames: nat, ranges: seq<Range>) {
    /** The length passed to join: the kept frames, or all of them when no range is listed. */
    function Length(): nat {
      if Span(ranges) > 0 then Span(ranges) else frames
    }
  }

  predicate Starts(arguments: Arguments, summaries: seq<Summary>, p: nat)
    requires Indexed(arguments, summaries) && p < |arguments.segments|
  {
    arguments.segments[p].start < summaries[arguments.segments[p].input].duration
  }

  predicate AllStart(arguments: Arguments, summaries: seq<Summary>)
    requires Indexed(arguments, summaries)
  {
    forall p :: 0 <= p < |arguments.segments| ==> Starts(arguments, summaries, p)
  }

  function ShotOf(arguments: Arguments, summaries: seq<Summary>, p: nat): Shot
    requires Indexed(arguments, summaries) && p < |arguments.segments|
  {
    var segment := arguments.segments[p];
    var summary := summaries[segment.input];
    Shot(summary.hasAudio,
         Max(0, FrameCount(Min(segment.end, summary.duration) - segment.start, arguments.fps)),
         RangesOf(arguments.keep, p))
  }

  function Shots(arguments: Arguments, summaries: seq<Summary>): seq<Shot>
    requires Indexed(arguments, summaries)
  {
    seq(|arguments.segments|, p requires 0 <= p < |arguments.segments| => ShotOf(arguments, summaries, p))
  }

  function ShotLengths(shots: seq<Shot>): seq<nat> {
    seq(|shots|, p requires 0 <= p < |shots| => shots[p].Length())
  }

  lemma FramesPositive(durationMs: int, fps: int)
    requires durationMs > 0 && fps > 0
    ensures FrameCount(durationMs, fps) > 0
  {
    assert durationMs * fps > 0;
  }

  lemma RangesAreProper(keep: seq<KeepRange>, segments: seq<Segment>, fps: int, p: nat)
    requires ValidKeep(keep, segments, fps) && p < |segments|
    ensures var ranges, segment := RangesOf(keep, p), segments[p];
            && Ordered(ranges)
            && EndBy(ranges, FrameCount(segment.end - segment.start, fps))
            && (ranges == [] <==> Span(ranges) == 0) && Span(ranges) >= 0
  {
    hide FrameCount, Ordered, EndBy, ValidKeep;
    assert keep[..|keep|] == keep;
    ValidKeepIsOrdered(keep, segments, fps, |keep|, p);
    SpanKeptIffInside(RangesOf(keep, p), 0);
  }

  /** A segment that starts inside its source has a frame, and its ranges are in order. */
  lemma ShotIsProper(arguments: Arguments, summaries: seq<Summary>, p: nat)
    requires Accepted(arguments, summaries)
    requires p < |arguments.segments| && Starts(arguments, summaries, p)
    ensures var shot, segment := ShotOf(arguments, summaries, p), arguments.segments[p];
            && Ordered(shot.ranges)
            && EndBy(shot.ranges, FrameCount(segment.end - segment.start, arguments.fps))
            && shot.frames == FrameCount(Min(segment.end, summaries[segment.input].duration) - segment.start,
                                         arguments.fps) > 0
            && (shot.ranges == [] <==> Span(shot.ranges) == 0) && Span(shot.ranges) >= 0
  {
    hide FrameCount, Ordered, EndBy, RangesOf, Span, KeptFrames, ValidKeep, Inputs, Numbered;
    var segment := arguments.segments[p];
    FramesPositive(Min(segment.end, summaries[segment.input].duration) - segment.start, arguments.fps);
    RangesAreProper(arguments.keep, arguments.segments, arguments.fps, p);
  }

  // ---------------------------------------------------------------------------
  // Filters
  // ---------------------------------------------------------------------------

  function VideoNodes(frames: nat, ranges: seq<Range>, fps: nat): seq<Node> {
    [Tpad(fps * END_PAD_SECONDS), Trim(frames)] + if ranges == [] then [] else [Select(1, ranges)]
  }

  function AudioNodes(frames: nat, ranges: seq<Range>, samples: nat): seq<Node> {
    [PadTrim(frames * samples)] + if ranges == [] then [] else [Select(samples, ranges)]
  }

  /** [vN] and [aN]; an input without sound gets silence. */
  function SegmentFilters(p: nat, shot: Shot, fps: nat, samples: nat): seq<Filter> {
    [Filter([InVideo(p)], Chain(VideoNodes(shot.frames, shot.ranges, fps)), [Video(p)]),
     Filter(if shot.hasAudio then [InAudio(p)] else [], Chain(AudioNodes(shot.frames, shot.ranges, samples)),
            [Audio(p)])]
  }

  /** The filters of the first n segments. */
  function SegmentsFilters(shots: seq<Shot>, fps: nat, samples: nat, n: nat): seq<Filter>
    requires n <= |shots|
  {
    if n == 0 then []
    else SegmentsFilters(shots, fps, samples, n - 1) + SegmentFilters(n - 1, shots[n - 1], fps, samples)
  }

  function FinishFilters(captions: bool, fadeIn: nat, fadeOut: nat, total: nat, samples: nat): seq<Filter>
    requires fadeOut <= total
  {
    if captions then
      [Filter([Joined], Chain([Ass]), [CaptionedVideo])]
      + FadeFilters(CaptionedVideo, fadeIn, fadeOut, total, samples)
    else FadeFilters(Joined, fadeIn, fadeOut, total, samples)
  }

  function ClipTotal(shots: seq<Shot>, transitions: seq<Transition>, fps: int): int
    requires |shots| > 0 && FitsJunctions(transitions, |shots|)
  {
    Sum(ShotLengths(shots)) - Sum(ClipOverlaps(|shots|, transitions, fps))
  }

  /** The whole graph. */
  function Graph(shots: seq<Shot>, transitions: seq<Transition>, captions: bool, fadeIn: nat, fadeOut: nat, fps: int)
    : seq<Filter>
    requires |shots| > 0 && FitsJunctions(transitions, |shots|) && fps > 0
    requires fadeOut <= ClipTotal(shots, transitions, fps)
  {
    SegmentsFilters(shots, fps, SamplesPerFrame(fps), |shots|)
    + JoinFilters(ShotLengths(shots), transitions, fps)
    + FinishFilters(captions, fadeIn, fadeOut, ClipTotal(shots, transitions, fps), SamplesPerFrame(fps))
  }

  // ---------------------------------------------------------------------------
  // Assembly
  // ---------------------------------------------------------------------------

  /** One round of the loop of run_cut: a segment's two filters, and the length it adds to the clip. */
  method AssembleSegment(filters: FilterList, arguments: Arguments, summaries: seq<Summary>, p: nat, ranges: seq<Range>)
    returns (result: Result<nat, Error>)
    requires Accepted(arguments, summaries) && p < |arguments.segments|
    requires ranges == RangesOf(arguments.keep, p)
    modifies filters
    ensures result.Success? <==> Starts(arguments, summaries, p)
    ensures result.Success? ==>
              && result.value == ShotOf(arguments, summaries, p).Length()
              && filters.items == old(filters.items)
                 + SegmentFilters(p, ShotOf(arguments, summaries, p), arguments.fps, SamplesPerFrame(arguments.fps))
    ensures result.Failure? ==> result.error == StartPastEnd
  {
    hide RangesOf, Span, ValidKeep, RoundHalfEven, Ceiling;
    var fps := arguments.fps;
    var segment := arguments.segments[p];
    var summary := summaries[segment.input];
    var clamped := ClampRange(summary.duration, Some(segment.start), Some(segment.end));
    if clamped.Failure? {
      return Failure(clamped.error);
    }
    ShotIsProper(arguments, summaries, p);
    var frames := FrameCount(clamped.value.1.value - segment.start, fps);
    filters.Append(Filter([InVideo(p)], Chain(VideoNodes(frames, ranges, fps)), [Video(p)]));
    filters.Append(Filter(if summary.hasAudio then [InAudio(p)] else [],
                          Chain(AudioNodes(frames, ranges, SamplesPerFrame(fps))), [Audio(p)]));
    var span := Span(ranges);
    return Success(if span != 0 then span else frames);
  }

  /** The first p segments are assembled: their lengths are listed and their filters follow what was there. */
  predicate Assembled(shots: seq<Shot>, fps: nat, samples: nat, p: nat, lengths: seq<nat>, was: seq<Filter>,
                      now: seq<Filter>) {
    p <= |shots| && lengths == ShotLengths(shots)[..p] && now == was + SegmentsFilters(shots, fps, samples, p)
  }

  lemma AssembledNext(shots: seq<Shot>, fps: nat, samples: nat, p: nat, lengths: seq<nat>, was: seq<Filter>,
                      now: seq<Filter>)
    requires p < |shots| && Assembled(shots, fps, samples, p, lengths, was, now)
    ensures Assembled(shots, fps, samples, p + 1, lengths + [shots[p].Length()],
                      was, now + SegmentFilters(p, shots[p], fps, samples))
  {
  }

  predicate StartBefore(arguments: Arguments, summaries: seq<Summary>, n: nat)
    requires Indexed(arguments, summaries) && n <= |arguments.segments|
  {
    forall q :: 0 <= q < n ==> Starts(arguments, summaries, q)
  }

  lemma StartNext(arguments: Arguments, summaries: seq<Summary>, p: nat)
    requires Indexed(arguments, summaries) && p < |arguments.segments| && StartBefore(arguments, summaries, p)
    ensures Starts(arguments, summaries, p) ==> StartBefore(arguments, summaries, p + 1)
    ensures !Starts(arguments, summaries, p) ==> !AllStart(arguments, summaries)
  {
  }

  /** The loop of run_cut over the segments. */
  method AssembleSegments(filters: FilterList, arguments: Arguments, summaries: seq<Summary>)
    returns (result: Result<seq<nat>, Error>)
    requires Accepted(arguments, summaries)
    modifies filters
    ensures result.Success? <==> AllStart(arguments, summaries)
    ensures result.Success? ==>
              && result.value == ShotLengths(Shots(arguments, summaries))
              && filters.items == old(filters.items)
                 + SegmentsFilters(Shots(arguments, summaries), arguments.fps, SamplesPerFrame(arguments.fps),
                                   |arguments.segments|)
    ensures result.Failure? ==> result.error == StartPastEnd
  {
    var fps, samples := arguments.fps, SamplesPerFrame(arguments.fps);
    ghost var shots := Shots(arguments, summaries);
    var keep := GroupKeep(arguments.keep, arguments.segments, fps);
    var lengths: seq<nat> := [];
    hide ValidKeep, RangesOf, SegmentFilters, RoundHalfEven;
    for p := 0 to |arguments.segments|
      invariant StartBefore(arguments, summaries, p)
      invariant Assembled(shots, fps, samples, p, lengths, old(filters.items), filters.items)
    {
      ghost var before := filters.items;
      hide Assembled, ShotOf, Starts, StartBefore;
      StartNext(arguments, summaries, p);
      var length := AssembleSegment(filters, arguments, summaries, p, if p in keep then keep[p] else []);
      if length.Failure? {
        return Failure(length.error);
      }
      AssembledNext(shots, fps, samples, p, lengths, old(filters.items), before);
      lengths := lengths + [length.value];
    }
    return Success(lengths);
  }

  lemma FadesNotNegative(arguments: Arguments, fps: int)
    requires arguments.fadeIn >= 0 && arguments.fadeOut >= 0 && fps > 0
    ensures FadeFrames(arguments.fadeIn, fps) >= 0 && FadeFrames(arguments.fadeOut, fps) >= 0
  {
  }

  /** The end of run_cut: captions, then fades. */
  method AssembleFinish(arguments: Arguments, total: nat) returns (result: Result<seq<Filter>, Error>)
    requires arguments.fadeIn >= 0 && arguments.fadeOut >= 0 && 0 < arguments.fps <= OUTPUT_AUDIO_RATE
    ensures var fps := arguments.fps;
            var fadeIn, fadeOut := FadeFrames(arguments.fadeIn, fps), FadeFrames(arguments.fadeOut, fps);
            && fadeIn >= 0 && fadeOut >= 0
            && (fadeIn + fadeOut > total ==> result == Failure(FadesTooLong))
            && (fadeIn + fadeOut <= total ==>
                  result == Success(FinishFilters(arguments.captions, fadeIn, fadeOut, total,
                                                  SamplesPerFrame(arguments.fps))))
  {
    hide RoundHalfEven, VideoFades, AudioFades;
    var filters: seq<Filter>, video := [], Joined;
    if arguments.captions {
      filters := [Filter([video], Chain([Ass]), [CaptionedVideo])];
      video := CaptionedVideo;
    }
    FadesNotNegative(arguments, arguments.fps);
    var fades := Fades(video, arguments.fadeIn, arguments.fadeOut, total, arguments.fps);
    if fades.Failure? {
      return Failure(fades.error);
    }
    assert [] + fades.value == fades.value;
    return Success(filters + fades.value);
  }

  /** The first reason not to assemble the graph, if there is one. */
  function CutFault(arguments: Arguments, summaries: seq<Summary>): Option<Error>
    requires Indexed(arguments, summaries)
    requires |arguments.segments| > 0 && FitsJunctions(arguments.transitions, |arguments.segments|)
  {
    var shots, transitions, fps := Shots(arguments, summaries), arguments.transitions, arguments.fps;
    if !AllStart(arguments, summaries) then Some(StartPastEnd)
    else if !Fits(ShotLengths(shots), ClipOverlaps(|shots|, transitions, fps)) then Some(TransitionTooLong)
    else if FadeFrames(arguments.fadeIn, fps) + FadeFrames(arguments.fadeOut, fps) > ClipTotal(shots, transitions, fps)
      then Some(FadesTooLong)
    else None
  }

  /** The graph of a request with no such reason. */
  ghost function CutGraphOf(arguments: Arguments, summaries: seq<Summary>): seq<Filter>
    requires Accepted(arguments, summaries) && CutFault(arguments, summaries).None?
  {
    FadesNotNegative(arguments, arguments.fps);
    Graph(Shots(arguments, summaries), arguments.transitions, arguments.captions,
          FadeFrames(arguments.fadeIn, arguments.fps), FadeFrames(arguments.fadeOut, arguments.fps), arguments.fps)
  }

  lemma GraphParts(arguments: Arguments, summaries: seq<Summary>, segments: seq<Filter>, joined: seq<Filter>,
                   finish: seq<Filter>)
    requires Accepted(arguments, summaries)
    requires var shots, fps := Shots(arguments, summaries), arguments.fps;
             var total := ClipTotal(shots, arguments.transitions, fps);
             var fadeIn, fadeOut := FadeFrames(arguments.fadeIn, fps), FadeFrames(arguments.fadeOut, fps);
             && fadeIn >= 0 && 0 <= fadeOut <= total
             && segments == SegmentsFilters(shots, fps, SamplesPerFrame(fps), |shots|)
             && joined == JoinFilters(ShotLengths(shots), arguments.transitions, fps)
             && finish == FinishFilters(arguments.captions, fadeIn, fadeOut, total, SamplesPerFrame(fps))
    ensures segments + joined + finish ==
            Graph(Shots(arguments, summaries), arguments.transitions, arguments.captions,
                  FadeFrames(arguments.fadeIn, arguments.fps), FadeFrames(arguments.fadeOut, arguments.fps),
                      arguments.fps)
  {
  }

  lemma TotalPositive(lengths: seq<nat>, overlaps: seq<nat>)
    requires |lengths| > 0 && Fits(lengths, overlaps)
    ensures Sum(lengths) - Sum(overlaps) >= 0
  {
    EndIsTotal(lengths, overlaps);
    PlacesAscend(lengths, overlaps, 0, |lengths| - 1);
  }

  /**
   What the request asks of its segments, read off its own lists: as many frames as its range holds inside
   the source, rounded up, the frames its entries ask for, and that many of them, or all when it has none.
   */
  ghost predicate ShotAsAsked(arguments: Arguments, summaries: seq<Summary>, p: nat, shot: Shot)
    requires Indexed(arguments, summaries) && p < |arguments.segments|
  {
    var segment := arguments.segments[p];
    var summary := summaries[segment.input];
    var duration := Min(segment.end, summary.duration) - segment.start;
    && shot.hasAudio == summary.hasAudio
    && 1000 * (shot.frames - 1) < duration * arguments.fps <= 1000 * shot.frames
    && (forall f: nat :: Chosen(shot.ranges, f) <==> Asked(arguments.keep, p, f))
    && shot.Length() == if HasEntry(arguments.keep, p) then FramesAsked(arguments.keep, p) else shot.frames
  }

  lemma AcceptedShotIsAsAsked(arguments: Arguments, summaries: seq<Summary>, p: nat)
    requires Accepted(arguments, summaries) && p < |arguments.segments| && Starts(arguments, summaries, p)
    ensures ShotAsAsked(arguments, summaries, p, ShotOf(arguments, summaries, p))
  {
    var ranges := RangesOf(arguments.keep, p);
    ShotIsProper(arguments, summaries, p);
    EntriesAreCounted(arguments.keep, arguments.segments, arguments.fps);
    SpanIsAsked(arguments.keep, p);
    ListedIffRanges(arguments.keep, p);
    forall f: nat
      ensures Chosen(ranges, f) <==> Asked(arguments.keep, p, f)
    {
      ChosenIffAsked(arguments.keep, p, f);
    }
  }

  /** The whole request: each segment as asked, and each junction overlapping what its transition asks for. */
  ghost predicate AsAsked(arguments: Arguments, summaries: seq<Summary>, shots: seq<Shot>, overlaps: seq<nat>)
    requires Indexed(arguments, summaries)
  {
    && |shots| == |arguments.segments|
    && (forall p :: 0 <= p < |shots| ==> ShotAsAsked(arguments, summaries, p, shots[p]))
    && OverlapsAsAsked(arguments.transitions, arguments.fps, overlaps)
  }

  lemma AcceptedIsAsAsked(arguments: Arguments, summaries: seq<Summary>)
    requires Accepted(arguments, summaries) && AllStart(arguments, summaries)
    ensures |arguments.segments| > 0 && FitsJunctions(arguments.transitions, |arguments.segments|)
    ensures AsAsked(arguments, summaries, Shots(arguments, summaries),
                    ClipOverlaps(|arguments.segments|, arguments.transitions, arguments.fps))
  {
    var shots := Shots(arguments, summaries);
    forall p | 0 <= p < |shots|
      ensures ShotAsAsked(arguments, summaries, p, shots[p])
    {
      AcceptedShotIsAsAsked(arguments, summaries, p);
    }
    ClipOverlapsAsAsked(|shots|, arguments.transitions, arguments.fps);
  }

  /** The graph run_cut hands to ffmpeg, or the reason there is none. */
  method AssembleCut(arguments: Arguments, summaries: seq<Summary>) returns (result: Result<seq<Filter>, Error>)
    requires Accepted(arguments, summaries)
    ensures result == match CutFault(arguments, summaries)
                      case Some(fault) => Failure(fault)
                      case None => Success(CutGraphOf(arguments, summaries))
    // The graph is that of the frames and overlaps the request asks for.
    ensures result.Success? ==>
              AsAsked(arguments, summaries, Shots(arguments, summaries),
                      ClipOverlaps(|arguments.segments|, arguments.transitions, arguments.fps))
  {
    hide AllStart, SegmentsFilters, JoinFilters, Sum, Fits, ClipOverlaps, FinishFilters, RoundHalfEven, ValidKeep,
         ShotOf;
    FadesNotNegative(arguments, arguments.fps);
    var filters := new FilterList();
    var lengths := AssembleSegments(filters, arguments, summaries);
    if lengths.Failure? {
      return Failure(lengths.error);
    }
    ghost var segments := filters.items;
    assert segments == [] + segments;
    var total := Join(filters, lengths.value, arguments.transitions, arguments.fps);
    if total.Failure? {
      return Failure(total.error);
    }
    TotalPositive(lengths.value, ClipOverlaps(|lengths.value|, arguments.transitions, arguments.fps));
    var finish := AssembleFinish(arguments, total.value);
    if finish.Failure? {
      return Failure(finish.error);
    }
    GraphParts(arguments, summaries, segments, filters.items[|segments|..], finish.value);
    AcceptedIsAsAsked(arguments, summaries);
    return Success(filters.items + finish.value);
  }
}
