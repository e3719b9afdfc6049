/**
 Running the whole cut graph: every label is consumed once, the clip is as long as join said, and the
 sound stays aligned with the picture through trimming, keeping, joining and fading.
 */
module CutGraph {
  import opened Wrappers
  import opened Numbers
  import opened Ffmpeg
  import opened FilterGraph
  import opened Timeline
  import opened Transitions
  import opened Keep
  import opened Cut
  import opened JoinGraph

  /** One segment's input pads: the framed picture at the output rate, and the resampled sound. */
  datatype Source = Source(video: Stream, audio: Stream)

  function SegmentVideo(source: Source, shot: Shot, fps: nat): Stream {
    ApplyAll(VideoNodes(shot.frames, shot.ranges, fps), source.video)
  }

  function SegmentAudio(source: Source, shot: Shot, samples: nat): Stream {
    ApplyAll(AudioNodes(shot.frames, shot.ranges, samples), if shot.hasAudio then source.audio else [])
  }

  /** The frames of the trimmed segment its picture has: the decoder's, and as many more as tpad repeats. */
  function Pictured(source: Source, shot: Shot, fps: nat): nat {
    if source.video == [] then 0 else Min(shot.frames, |source.video| + fps * END_PAD_SECONDS)
  }

  /** What ranges keep of so many frames; all of them when none is listed. */
  function KeptOf(ranges: seq<Range>, frames: nat): nat
    requires Ordered(ranges)
  {
    SpanKeptIffInside(ranges, frames);
    if ranges == [] then frames else KeptFrames(ranges, frames)
  }

  /** The frames [aN] really has, and [vN] as well if its picture is long enough. */
  function RealLength(shot: Shot): nat
    requires Ordered(shot.ranges)
  {
    KeptOf(shot.ranges, shot.frames)
  }

  /** Every frame kept of the trimmed segment is one its picture has. */
  predicate Supplied(source: Source, shot: Shot, fps: nat) {
    var n := Pictured(source, shot, fps);
    if shot.ranges == [] then shot.frames <= n
    else forall i :: 0 <= i < |shot.ranges| ==> Covers(shot.ranges[i], n, shot.frames)
  }

  lemma ApplyFirst(node: Node, rest: seq<Node>, s: Stream)
    ensures ApplyAll([node] + rest, s) == ApplyAll(rest, Apply(node, s))
  {
    assert ([node] + rest)[1..] == rest;
  }

  /** What the last node of a segment's chain leaves of so many frames. */
  lemma KeptLength(s: Stream, ranges: seq<Range>, frames: nat, piece: nat)
    requires Ordered(ranges) && piece > 0 && |s| == frames * piece
    ensures |ApplyAll(if ranges == [] then [] else [Select(piece, ranges)], s)| == KeptOf(ranges, frames) * piece
  {
    if ranges != [] {
      ApplyFirst(Select(piece, ranges), [], s);
      assert [Select(piece, ranges)] + [] == [Select(piece, ranges)];
      SelectKeepsSlices(s, piece, ranges, |s|);
      SlicesLength(s, piece, ranges, frames);
    }
  }

  lemma AudioLength(source: Source, shot: Shot, samples: nat)
    requires Ordered(shot.ranges) && samples > 0
    ensures |SegmentAudio(source, shot, samples)| == RealLength(shot) * samples
  {
    var sound := if shot.hasAudio then source.audio else [];
    var kept: seq<Node> := if shot.ranges == [] then [] else [Select(samples, shot.ranges)];
    var trimmed := Apply(PadTrim(shot.frames * samples), sound);
    assert |trimmed| == shot.frames * samples;
    ApplyFirst(PadTrim(shot.frames * samples), kept, sound);
    KeptLength(trimmed, shot.ranges, shot.frames, samples);
  }

  lemma VideoLength(source: Source, shot: Shot, fps: nat)
    requires Ordered(shot.ranges)
    ensures |SegmentVideo(source, shot, fps)| == KeptOf(shot.ranges, Pictured(source, shot, fps))
  {
    var kept: seq<Node> := if shot.ranges == [] then [] else [Select(1, shot.ranges)];
    var padded := Apply(Tpad(fps * END_PAD_SECONDS), source.video);
    var trimmed := Apply(Trim(shot.frames), padded);
    assert |trimmed| == Pictured(source, shot, fps) * 1;
    ApplyFirst(Tpad(fps * END_PAD_SECONDS), [Trim(shot.frames)] + kept, source.video);
    ApplyFirst(Trim(shot.frames), kept, padded);
    assert VideoNodes(shot.frames, shot.ranges, fps) == [Tpad(fps * END_PAD_SECONDS)] + ([Trim(shot.frames)] + kept);
    KeptLength(trimmed, shot.ranges, Pictured(source, shot, fps), 1);
  }

  /**
   The sound of a segment lasts the frames kept of it, and its picture those of them it has: the two are as
   long exactly when the picture has them all, and join was told no less.
   */
  lemma SegmentLengths(source: Source, shot: Shot, fps: nat, samples: nat)
    requires Ordered(shot.ranges) && samples > 0
    ensures |SegmentAudio(source, shot, samples)| == RealLength(shot) * samples
    ensures |SegmentVideo(source, shot, fps)| <= RealLength(shot) <= shot.Length()
    ensures |SegmentVideo(source, shot, fps)| == RealLength(shot) <==> Supplied(source, shot, fps)
  {
    AudioLength(source, shot, samples);
    VideoLength(source, shot, fps);
    SpanKeptIffInside(shot.ranges, shot.frames);
    KeptWhenShort(shot.ranges, Pictured(source, shot, fps), shot.frames);
  }

  /** Picture and sound of a segment are in step exactly when its picture has every frame kept. */
  lemma SegmentInStepIff(source: Source, shot: Shot, fps: nat, samples: nat)
    requires Ordered(shot.ranges) && samples > 0
    ensures |SegmentAudio(source, shot, samples)| == |SegmentVideo(source, shot, fps)| * samples
            <==> Supplied(source, shot, fps)
  {
    SegmentLengths(source, shot, fps, samples);
    ScaleOrder(|SegmentVideo(source, shot, fps)|, RealLength(shot), samples);
  }

  /**
   The length passed to join is the length of [vN] exactly when every keep range ends inside the
   trimmed segment: a range validated against a request that runs past its source overstates it.
   */
  lemma JoinLengthIsRealIff(shot: Shot)
    requires Ordered(shot.ranges)
    ensures shot.Length() == RealLength(shot) <==> EndBy(shot.ranges, shot.frames)
  {
    SpanKeptIffInside(shot.ranges, shot.frames);
  }

  /** Two seconds of a source that lasts one, at 24 frames a second, all of them kept. */
  const CLAMPED := Arguments([Segment(0, 0, 2000)], 24, [KeepRange(0, 0, 48)], false, [], 0, 0)

  lemma ClampedIsAccepted()
    ensures Accepted(CLAMPED, [Summary(1000, true)])
  {
    assert Inputs(CLAMPED.segments) == {0} by {
      assert CLAMPED.segments[0].input == 0;
    }
    assert Numbered(1) == {0};
    assert FrameCount(2000, 24) == 48;
    assert ValidRange(CLAMPED.keep, 0, CLAMPED.segments, 24);
    assert ValidCut(CLAMPED, Offered({}, {}));
  }

  /** A request validation accepts whose second half is kept though the source ends before it. */
  lemma ClampedKeepOverstates()
    ensures Accepted(CLAMPED, [Summary(1000, true)])
    ensures var shot := ShotOf(CLAMPED, [Summary(1000, true)], 0);
            Ordered(shot.ranges) && RealLength(shot) == 24 < 48 == shot.Length()
  {
    ClampedIsAccepted();
    var keep := CLAMPED.keep;
    assert FrameCount(2000, 24) == 48 && FrameCount(1000, 24) == 24;
    assert keep[..0] == [];
    var ranges := RangesOf(keep, 0);
    assert ranges == [Range(0, 48)];
    assert ranges[..0] == [];
    assert KeptFrames(ranges, 24) == 24 && Span(ranges) == 48;
  }

  /** When the segments lie inside their sources, validated ranges do too. */
  lemma InsideSourcesKeepsFit(arguments: Arguments, summaries: seq<Summary>, p: nat)
    requires Accepted(arguments, summaries) && p < |arguments.segments|
    requires arguments.segments[p].end <= summaries[arguments.segments[p].input].duration
    ensures Starts(arguments, summaries, p)
    ensures EndBy(ShotOf(arguments, summaries, p).ranges, ShotOf(arguments, summaries, p).frames)
  {
    ShotIsProper(arguments, summaries, p);
  }

  // ---------------------------------------------------------------------------
  // The segments' filters
  // ---------------------------------------------------------------------------

  function Videos(shots: seq<Shot>, sources: seq<Source>, fps: nat): seq<Stream>
    requires |sources| == |shots|
  {
    seq(|shots|, p requires 0 <= p < |shots| => SegmentVideo(sources[p], shots[p], fps))
  }

  function Audios(shots: seq<Shot>, sources: seq<Source>, samples: nat): seq<Stream>
    requires |sources| == |shots|
  {
    seq(|shots|, p requires 0 <= p < |shots| => SegmentAudio(sources[p], shots[p], samples))
  }

  /** The input pads of segments n and on: every picture, and the sound of inputs that have one. */
  predicate Pad(l: Label, shots: seq<Shot>, n: nat) {
    match l
    case InVideo(p) => n <= p < |shots|
    case InAudio(p) => n <= p < |shots| && shots[p].hasAudio
    case _ => false
  }

  predicate SegmentMade(l: Label, n: nat) {
    (l.Video? || l.Audio?) && l.position < n
  }

  /** The pads from n on still wait, and the segments before n have made their labels. */
  ghost predicate Labelled(st: State, shots: seq<Shot>, n: nat) {
    && (forall l :: l in st.live <==> Pad(l, shots, n) || SegmentMade(l, n))
    && (forall l :: l in st.made ==> SegmentMade(l, n))
  }

  /** The pads from n on hold the sources, and the segments before n have their streams. */
  ghost predicate Prepared(st: State, shots: seq<Shot>, sources: seq<Source>, fps: nat, samples: nat, n: nat)
    requires |sources| == |shots|
  {
    && Labelled(st, shots, n)
    && (forall p :: n <= p < |shots| ==> InVideo(p) in st.live && st.live[InVideo(p)] == sources[p].video)
    && (forall p :: n <= p < |shots| && shots[p].hasAudio ==>
          InAudio(p) in st.live && st.live[InAudio(p)] == sources[p].audio)
    && (forall p :: 0 <= p < n && p < |shots| ==>
          && Video(p) in st.live && st.live[Video(p)] == SegmentVideo(sources[p], shots[p], fps)
          && Audio(p) in st.live && st.live[Audio(p)] == SegmentAudio(sources[p], shots[p], samples))
  }

  lemma LabelledNext(st: State, next: State, shots: seq<Shot>, p: nat)
    requires p < |shots| && Labelled(st, shots, p)
    requires next.made == st.made + {Video(p), Audio(p)}
    requires next.live.Keys == st.live.Keys - {InVideo(p), InAudio(p)} + {Video(p), Audio(p)}
    ensures Labelled(next, shots, p + 1)
  {
  }

  lemma PreparedNext(st: State, next: State, shots: seq<Shot>, sources: seq<Source>, fps: nat, samples: nat, p: nat)
    requires |sources| == |shots| && p < |shots| && Prepared(st, shots, sources, fps, samples, p)
    requires next.made == st.made + {Video(p), Audio(p)}
    requires next.live == ((st.live - {InVideo(p)})[Video(p) := SegmentVideo(sources[p], shots[p], fps)]
                           - {InAudio(p)})[Audio(p) := SegmentAudio(sources[p], shots[p], samples)]
    ensures Prepared(next, shots, sources, fps, samples, p + 1)
  {
    hide SegmentVideo, SegmentAudio;
    LabelledNext(st, next, shots, p);
    hide Labelled, Pad, SegmentMade;
  }

  /** Segment p's two filters turn its pads into its streams. */
  lemma SegmentRuns(st: State, shots: seq<Shot>, sources: seq<Source>, fps: nat, samples: nat, p: nat)
    returns (next: State)
    requires |sources| == |shots| && p < |shots| && Prepared(st, shots, sources, fps, samples, p)
    ensures Run(st, SegmentFilters(p, shots[p], fps, samples)) == Some(next)
    ensures Prepared(next, shots, sources, fps, samples, p + 1)
  {
    hide ApplyAll, Step, Run, VideoNodes, AudioNodes;
    var shot := shots[p];
    var videoNodes, audioNodes := VideoNodes(shot.frames, shot.ranges, fps),
        AudioNodes(shot.frames, shot.ranges, samples);
    assert InVideo(p) in st.live;
    ChainRuns(st, InVideo(p), videoNodes, Video(p));
    var f := Filter([InVideo(p)], Chain(videoNodes), [Video(p)]);
    var mid := Step(st, f).value;
    if shot.hasAudio {
      assert InAudio(p) in mid.live;
      ChainRuns(mid, InAudio(p), audioNodes, Audio(p));
    } else {
      assert InAudio(p) !in mid.live;
      SilenceRuns(mid, audioNodes, Audio(p));
    }
    hide Prepared;
    var g := Filter(if shot.hasAudio then [InAudio(p)] else [], Chain(audioNodes), [Audio(p)]);
    next := Step(mid, g).value;
    RunTwo(st, f, g, mid, next);
    PreparedNext(st, next, shots, sources, fps, samples, p);
  }

  lemma RunBoth(st: State, first: seq<Filter>, mid: State, second: seq<Filter>, next: State)
    requires Run(st, first) == Some(mid) && Run(mid, second) == Some(next)
    ensures Run(st, first + second) == Some(next)
  {
    RunAppend(st, first, second);
  }

  lemma SegmentNext(st: State, mid: State, shots: seq<Shot>, sources: seq<Source>, fps: nat, samples: nat, n: nat)
    returns (next: State)
    requires |sources| == |shots| && 0 < n <= |shots| && Prepared(mid, shots, sources, fps, samples, n - 1)
    requires Run(st, SegmentsFilters(shots, fps, samples, n - 1)) == Some(mid)
    ensures Run(st, SegmentsFilters(shots, fps, samples, n)) == Some(next)
    ensures Prepared(next, shots, sources, fps, samples, n)
  {
    hide Run, Prepared, SegmentFilters;
    next := SegmentRuns(mid, shots, sources, fps, samples, n - 1);
    RunBoth(st, SegmentsFilters(shots, fps, samples, n - 1), mid,
            SegmentFilters(n - 1, shots[n - 1], fps, samples), next);
  }

  lemma {:induction false} SegmentsRun(st: State, shots: seq<Shot>, sources: seq<Source>, fps: nat, samples: nat,
                                       n: nat)
    returns (next: State)
    requires |sources| == |shots| && n <= |shots| && Prepared(st, shots, sources, fps, samples, 0)
    ensures Run(st, SegmentsFilters(shots, fps, samples, n)) == Some(next)
    ensures Prepared(next, shots, sources, fps, samples, n)
  {
    if n == 0 {
      next := st;
    } else {
      hide Run, Prepared, SegmentsFilters;
      var mid := SegmentsRun(st, shots, sources, fps, samples, n - 1);
      next := SegmentNext(st, mid, shots, sources, fps, samples, n);
    }
  }

  // ---------------------------------------------------------------------------
  // The whole graph
  // ---------------------------------------------------------------------------

  /** What captions and fades make of the joined picture and sound. */
  function Finished(captions: bool, video: Stream, fades: seq<Node>): Stream {
    ApplyAll(fades, if captions then Apply(Ass, video) else video)
  }

  lemma AssOnly(video: Stream)
    ensures ApplyAll([Ass], video) == Apply(Ass, video)
  {
    assert [Ass][1..] == [];
  }

  lemma RunFirst(st: State, f: Filter, mid: State, rest: seq<Filter>)
    requires Step(st, f) == Some(mid)
    ensures Run(st, [f] + rest) == Run(mid, rest)
  {
    hide Step;
    assert ([f] + rest)[1..] == rest;
  }

  lemma FadesRun(st: State, source: Label, fadeIn: nat, fadeOut: nat, total: nat, samples: nat,
                 video: Stream, audio: Stream) returns (next: State)
    requires fadeOut <= total && (source == Joined || source == CaptionedVideo)
    requires st.live == map[source := video, Mixed := audio]
    requires OutVideo !in st.made && OutAudio !in st.made
    ensures Run(st, FadeFilters(source, fadeIn, fadeOut, total, samples)) == Some(next)
    ensures next.live == map[OutVideo := ApplyAll(VideoFades(fadeIn, fadeOut, total), video),
                             OutAudio := ApplyAll(AudioFades(fadeIn, fadeOut, total, samples), audio)]
  {
    hide ApplyAll, Step, Run, VideoFades, AudioFades;
    var videoFades, audioFades := VideoFades(fadeIn, fadeOut, total), AudioFades(fadeIn, fadeOut, total, samples);
    ChainRuns(st, source, videoFades, OutVideo);
    var f, g := Filter([source], Chain(videoFades), [OutVideo]), Filter([Mixed], Chain(audioFades), [OutAudio]);
    var mid := Step(st, f).value;
    ChainRuns(mid, Mixed, audioFades, OutAudio);
    next := Step(mid, g).value;
    RunTwo(st, f, g, mid, next);
  }

  /** Captions and fades consume [joined] and [mixed] and leave [v] and [a]. */
  lemma FinishRuns(st: State, captions: bool, fadeIn: nat, fadeOut: nat, total: nat, samples: nat,
                   video: Stream, audio: Stream) returns (next: State)
    requires fadeOut <= total
    requires st.live == map[Joined := video, Mixed := audio]
    requires CaptionedVideo !in st.made && OutVideo !in st.made && OutAudio !in st.made
    ensures Run(st, FinishFilters(captions, fadeIn, fadeOut, total, samples)) == Some(next)
    ensures next.live == map[OutVideo := Finished(captions, video, VideoFades(fadeIn, fadeOut, total)),
                             OutAudio := ApplyAll(AudioFades(fadeIn, fadeOut, total, samples), audio)]
  {
    if captions {
      var f := Filter([Joined], Chain([Ass]), [CaptionedVideo]);
      var fades := FadeFilters(CaptionedVideo, fadeIn, fadeOut, total, samples);
      ChainRuns(st, Joined, [Ass], CaptionedVideo);
      AssOnly(video);
      hide Apply, ApplyAll, Step, Run, FadeFilters, VideoFades, AudioFades;
      var mid := Step(st, f).value;
      next := FadesRun(mid, CaptionedVideo, fadeIn, fadeOut, total, samples, Apply(Ass, video), audio);
      RunFirst(st, f, mid, fades);
    } else {
      next := FadesRun(st, Joined, fadeIn, fadeOut, total, samples, video, audio);
    }
  }

  /** Captions and fades change no length. */
  lemma {:induction false} FadesKeepLength(fadeIn: nat, fadeOut: nat, total: nat, s: Stream)
    requires fadeOut <= total
    ensures |ApplyAll(VideoFades(fadeIn, fadeOut, total), s)| == |s|
  {
    var ins: seq<Node> := if fadeIn > 0 then [FadeIn(fadeIn)] else [];
    var outs: seq<Node> := if fadeOut > 0 then [FadeOut(total - fadeOut, fadeOut)] else [];
    var faded := if fadeIn > 0 then Apply(FadeIn(fadeIn), s) else s;
    assert ApplyAll(ins + outs, s) == ApplyAll(outs, faded) by {
      if fadeIn > 0 {
        ApplyFirst(FadeIn(fadeIn), outs, s);
      } else {
        assert ins + outs == outs;
      }
    }
    if fadeOut > 0 {
      ApplyFirst(FadeOut(total - fadeOut, fadeOut), [], faded);
      assert [FadeOut(total - fadeOut, fadeOut)] + [] == outs;
    }
  }

  /** A source for each segment, and ordered ranges. */
  ghost predicate Steady(shots: seq<Shot>, sources: seq<Source>) {
    |sources| == |shots| > 0 && forall p :: 0 <= p < |shots| ==> Ordered(shots[p].ranges)
  }

  /** Every keep range ends inside its trimmed segment. */
  predicate RangesFit(shots: seq<Shot>) {
    forall p :: 0 <= p < |shots| ==> EndBy(shots[p].ranges, shots[p].frames)
  }

  /** Every segment's picture has all the frames kept of it. */
  predicate AllSupplied(shots: seq<Shot>, sources: seq<Source>, fps: nat)
    requires |sources| == |shots|
  {
    forall p :: 0 <= p < |shots| ==> Supplied(sources[p], shots[p], fps)
  }

  /** The segments are as long as join was told, in picture and sound. */
  ghost predicate AsTold(shots: seq<Shot>, sources: seq<Source>, fps: nat) {
    Steady(shots, sources) && RangesFit(shots) && AllSupplied(shots, sources, fps)
  }

  ghost predicate SegmentWithin(shots: seq<Shot>, sources: seq<Source>, fps: nat, samples: nat, p: nat)
    requires |sources| == |shots| && p < |shots|
  {
    && |Videos(shots, sources, fps)[p]| <= ShotLengths(shots)[p]
    && |Videos(shots, sources, fps)[p]| * samples <= |Audios(shots, sources, samples)[p]|
    && |Audios(shots, sources, samples)[p]| <= ShotLengths(shots)[p] * samples
  }

  lemma SegmentNumbers(shots: seq<Shot>, sources: seq<Source>, fps: nat, samples: nat, p: nat)
    requires Steady(shots, sources) && samples > 0 && p < |shots|
    ensures SegmentWithin(shots, sources, fps, samples, p)
    ensures var video, audio := |Videos(shots, sources, fps)[p]|, |Audios(shots, sources, samples)[p]|;
            var told, fits := ShotLengths(shots)[p], EndBy(shots[p].ranges, shots[p].frames);
            && (audio == video * samples <==> Supplied(sources[p], shots[p], fps))
            && (video == told <==> fits && Supplied(sources[p], shots[p], fps))
            && (audio == told * samples <==> fits)
  {
    var shot := shots[p];
    SegmentLengths(sources[p], shot, fps, samples);
    JoinLengthIsRealIff(shot);
    hide SegmentVideo, SegmentAudio, EndBy, Ordered, Supplied, RealLength, Shot.Length;
    ScaleOrder(|SegmentVideo(sources[p], shot, fps)|, RealLength(shot), samples);
    ScaleOrder(RealLength(shot), shot.Length(), samples);
  }

  /**
   No [vN] is longer than its [aN] lasts, nor that than join was told: they are aligned exactly when every
   picture has the frames kept, and as told exactly when the ranges fit as well.
   */
  lemma SegmentsAligned(shots: seq<Shot>, sources: seq<Source>, fps: nat, samples: nat)
    requires Steady(shots, sources) && samples > 0
    ensures forall p :: 0 <= p < |shots| ==> SegmentWithin(shots, sources, fps, samples, p)
    ensures Aligned(Videos(shots, sources, fps), Audios(shots, sources, samples), samples)
            <==> AllSupplied(shots, sources, fps)
    ensures Lengths(Videos(shots, sources, fps)) == ShotLengths(shots)
            <==> RangesFit(shots) && AllSupplied(shots, sources, fps)
    ensures Lengths(Audios(shots, sources, samples)) == Scaled(ShotLengths(shots), samples) <==> RangesFit(shots)
  {
    var videos, audios, told := Videos(shots, sources, fps), Audios(shots, sources, samples), ShotLengths(shots);
    forall p | 0 <= p < |shots|
      ensures SegmentWithin(shots, sources, fps, samples, p)
      ensures |audios[p]| == |videos[p]| * samples <==> Supplied(sources[p], shots[p], fps)
      ensures |videos[p]| == told[p] <==> EndBy(shots[p].ranges, shots[p].frames) && Supplied(sources[p], shots[p], fps)
      ensures |audios[p]| == told[p] * samples <==> EndBy(shots[p].ranges, shots[p].frames)
    {
      SegmentNumbers(shots, sources, fps, samples, p);
    }
    hide SegmentVideo, SegmentAudio, EndBy, Ordered, Supplied, SegmentWithin;
    assert forall p :: 0 <= p < |shots| ==> Lengths(audios)[p] == |audios[p]| && Lengths(videos)[p] == |videos[p]|;
    if Aligned(videos, audios, samples) {
      assert forall p :: 0 <= p < |shots| ==> |audios[p]| == Lengths(audios)[p] == |videos[p]| * samples;
    }
    if Lengths(audios) == Scaled(told, samples) {
      assert forall p :: 0 <= p < |shots| ==> |audios[p]| == Lengths(audios)[p] == told[p] * samples;
    }
  }

  /** The prepared segments are what join expects to find. */
  lemma PreparedIsReady(st: State, shots: seq<Shot>, sources: seq<Source>, fps: nat, samples: nat)
    requires |sources| == |shots| > 0 && Prepared(st, shots, sources, fps, samples, |shots|)
    ensures Ready(st, Videos(shots, sources, fps), Audios(shots, sources, samples))
    ensures Without(st.live, |shots| - 1) == map[]
  {
    hide SegmentVideo, SegmentAudio;
  }

  /** What [v] and [a] hold: the captioned and faded timeline of the segments as they really are. */
  ghost predicate Delivers(live: map<Label, Stream>, videos: seq<Stream>, audios: seq<Stream>,
                           transitions: seq<Transition>,
                           captions: bool, fadeIn: nat, fadeOut: nat, total: nat, fps: int)
    requires fps > 0 && FitsJunctions(transitions, |videos|) && fadeOut <= total
  {
    var samples := SamplesPerFrame(fps);
    && |videos| == |audios| > 0
    && Fits(Lengths(videos), ClipOverlaps(|videos|, transitions, fps))
    && Fits(Lengths(audios), Scaled(ClipOverlaps(|audios|, transitions, fps), samples))
    && live == map[
         OutVideo := Finished(captions, ClipVideo(videos, transitions, fps), VideoFades(fadeIn, fadeOut, total)),
         OutAudio := ApplyAll(AudioFades(fadeIn, fadeOut, total, samples),
                              ClipAudio(audios, transitions, fps, samples))]
    && |live[OutVideo]| == Sum(Lengths(videos)) - Sum(ClipOverlaps(|videos|, transitions, fps))
    && |live[OutAudio]| == Sum(Lengths(audios)) - Sum(Scaled(ClipOverlaps(|audios|, transitions, fps), samples))
  }

  lemma DeliversLengths(live: map<Label, Stream>, videos: seq<Stream>, audios: seq<Stream>,
                        transitions: seq<Transition>, captions: bool, fadeIn: nat, fadeOut: nat, total: nat, fps: int)
    requires fps > 0 && FitsJunctions(transitions, |videos|) && fadeOut <= total
    requires Delivers(live, videos, audios, transitions, captions, fadeIn, fadeOut, total, fps)
    ensures live.Keys == {OutVideo, OutAudio} && |videos| == |audios| > 0
    ensures |live[OutVideo]| == Sum(Lengths(videos)) - Sum(ClipOverlaps(|videos|, transitions, fps))
    ensures |live[OutAudio]| ==
            Sum(Lengths(audios)) - Sum(Scaled(ClipOverlaps(|audios|, transitions, fps), SamplesPerFrame(fps)))
  {
  }

  lemma JoinedFresh(prepared: State, joined: State, shots: seq<Shot>, sources: seq<Source>, fps: nat, samples: nat)
    requires |sources| == |shots| && Prepared(prepared, shots, sources, fps, samples, |shots|)
    requires forall l :: l in joined.made ==> l in prepared.made || JoinLabel(l)
    ensures CaptionedVideo !in joined.made && OutVideo !in joined.made && OutAudio !in joined.made
  {
  }

  lemma ComposeRuns(st: State, a: State, b: State, c: State, f: seq<Filter>, g: seq<Filter>, h: seq<Filter>)
    requires Run(st, f) == Some(a) && Run(a, g) == Some(b) && Run(b, h) == Some(c)
    ensures Run(st, f + g + h) == Some(c)
  {
    RunBoth(st, f, a, g, b);
    RunBoth(st, f + g, b, h, c);
  }

  lemma ClipLengths(videos: seq<Stream>, audios: seq<Stream>, transitions: seq<Transition>, fps: int)
    requires fps > 0 && |videos| == |audios| > 0 && FitsJunctions(transitions, |videos|)
    requires Fits(Lengths(videos), ClipOverlaps(|videos|, transitions, fps))
    requires Fits(Lengths(audios), Scaled(ClipOverlaps(|videos|, transitions, fps), SamplesPerFrame(fps)))
    ensures |ClipVideo(videos, transitions, fps)| ==
            Sum(Lengths(videos)) - Sum(ClipOverlaps(|videos|, transitions, fps))
    ensures |ClipAudio(audios, transitions, fps, SamplesPerFrame(fps))| ==
            Sum(Lengths(audios)) - Sum(Scaled(ClipOverlaps(|videos|, transitions, fps), SamplesPerFrame(fps)))
  {
    var overlaps := ClipOverlaps(|videos|, transitions, fps);
    EndIsTotal(Lengths(videos), overlaps);
    EndIsTotal(Lengths(audios), Scaled(overlaps, SamplesPerFrame(fps)));
  }

  lemma FinishedLengths(captions: bool, video: Stream, audio: Stream, fadeIn: nat, fadeOut: nat, total: nat,
                        samples: nat)
    requires fadeOut <= total
    ensures |Finished(captions, video, VideoFades(fadeIn, fadeOut, total))| == |video|
    ensures |ApplyAll(AudioFades(fadeIn, fadeOut, total, samples), audio)| == |audio|
  {
    FadesKeepLength(fadeIn, fadeOut, total, if captions then Apply(Ass, video) else video);
    ScaleAscends(fadeOut, total, samples);
    FadesKeepLength(fadeIn * samples, fadeOut * samples, total * samples, audio);
  }

  /** The graph runs if the segments, however long they really are, can be joined as the graph says. */
  lemma PartsRun(st: State, shots: seq<Shot>, sources: seq<Source>, transitions: seq<Transition>,
                 captions: bool, fadeIn: nat, fadeOut: nat, fps: int) returns (next: State)
    requires 0 < fps <= OUTPUT_AUDIO_RATE && |sources| == |shots| > 0 && FitsJunctions(transitions, |shots|)
    requires Prepared(st, shots, sources, fps, SamplesPerFrame(fps), 0)
    requires fadeOut <= ClipTotal(shots, transitions, fps)
    requires var lengths, overlaps := Lengths(Videos(shots, sources, fps)), ClipOverlaps(|shots|, transitions, fps);
             && Fits(lengths, overlaps)
             && Fits(Lengths(Audios(shots, sources, SamplesPerFrame(fps))), Scaled(overlaps, SamplesPerFrame(fps)))
             && JoinFilters(lengths, transitions, fps) == JoinFilters(ShotLengths(shots), transitions, fps)
    ensures Run(st, Graph(shots, transitions, captions, fadeIn, fadeOut, fps)) == Some(next)
    ensures Delivers(next.live, Videos(shots, sources, fps), Audios(shots, sources, SamplesPerFrame(fps)), transitions,
                     captions, fadeIn, fadeOut, ClipTotal(shots, transitions, fps), fps)
  {
    hide Prepared, Run, Blended, ClipVideo, ClipAudio, Fits, RoundHalfEven, Finished, FinishFilters,
         JoinFilters, SegmentsFilters, VideoFades, AudioFades, ApplyAll, Ready, ClipOverlaps;
    var samples := SamplesPerFrame(fps);
    SamplesPositive(fps);
    var videos, audios := Videos(shots, sources, fps), Audios(shots, sources, samples);
    var total := ClipTotal(shots, transitions, fps);
    var prepared := SegmentsRun(st, shots, sources, fps, samples, |shots|);
    PreparedIsReady(prepared, shots, sources, fps, samples);
    var joined := JoinRuns(prepared, videos, audios, transitions, fps);
    var video, audio := ClipVideo(videos, transitions, fps), ClipAudio(audios, transitions, fps, samples);
    JoinedFresh(prepared, joined, shots, sources, fps, samples);
    next := FinishRuns(joined, captions, fadeIn, fadeOut, total, samples, video, audio);
    ComposeRuns(st, prepared, joined, next, SegmentsFilters(shots, fps, samples, |shots|),
                JoinFilters(ShotLengths(shots), transitions, fps),
                FinishFilters(captions, fadeIn, fadeOut, total, samples));
    ClipLengths(videos, audios, transitions, fps);
    FinishedLengths(captions, video, audio, fadeIn, fadeOut, total, samples);
  }

  lemma TotalScales(lengths: seq<nat>, overlaps: seq<nat>, samples: nat)
    ensures Sum(Scaled(lengths, samples)) - Sum(Scaled(overlaps, samples)) == (Sum(lengths) - Sum(overlaps)) * samples
  {
    SumScales(lengths, samples);
    SumScales(overlaps, samples);
    ScaleSplits(Sum(lengths), 0, Sum(overlaps), samples);
  }

  /**
   The graph run_cut assembles, from the input pads alone, uses every label once and leaves only [v] and
   [a]: the captioned and faded timeline of the segments, exactly as long as join reported, with
   `samples` samples of sound to each frame.
   */
  lemma CutGraphRuns(st: State, shots: seq<Shot>, sources: seq<Source>, transitions: seq<Transition>,
                     captions: bool, fadeIn: nat, fadeOut: nat, fps: int) returns (next: State)
    requires 0 < fps <= OUTPUT_AUDIO_RATE && AsTold(shots, sources, fps) && FitsJunctions(transitions, |shots|)
    requires Prepared(st, shots, sources, fps, SamplesPerFrame(fps), 0)
    requires Fits(ShotLengths(shots), ClipOverlaps(|shots|, transitions, fps))
    requires fadeOut <= ClipTotal(shots, transitions, fps)
    ensures Run(st, Graph(shots, transitions, captions, fadeIn, fadeOut, fps)) == Some(next)
    ensures Delivers(next.live, Videos(shots, sources, fps), Audios(shots, sources, SamplesPerFrame(fps)), transitions,
                     captions, fadeIn, fadeOut, ClipTotal(shots, transitions, fps), fps)
    ensures |next.live[OutVideo]| == ClipTotal(shots, transitions, fps)
    ensures |next.live[OutAudio]| == ClipTotal(shots, transitions, fps) * SamplesPerFrame(fps)
  {
    hide Prepared, Run, Fits, RoundHalfEven, JoinFilters, ClipOverlaps, RangesFit, AllSupplied, SegmentWithin,
         Ordered, Delivers;
    var told, overlaps, samples := ShotLengths(shots), ClipOverlaps(|shots|, transitions, fps), SamplesPerFrame(fps);
    SamplesPositive(fps);
    SegmentsAligned(shots, sources, fps, samples);
    FitsScaled(told, overlaps, samples);
    next := PartsRun(st, shots, sources, transitions, captions, fadeIn, fadeOut, fps);
    DeliversLengths(next.live, Videos(shots, sources, fps), Audios(shots, sources, samples), transitions,
                    captions, fadeIn, fadeOut, ClipTotal(shots, transitions, fps), fps);
    TotalScales(told, overlaps, samples);
  }
}
