/**
 Joining a clip's segments and fading the clip: apps/renderer/media/transitions.py.

 Filters are records rather than text, and the times printed as seconds are the exact counts of
 frames or samples they stand for.
 */
module Transitions {
  import opened Wrappers
  import opened Numbers
  import opened Ffmpeg
  import opened FilterGraph
  import opened Timeline

  const NO_TRANSITION := "none"
  const MIN_TRANSITION_MS := 100
  const MAX_TRANSITION_MS := 3000
  const MAX_FADE_MS := 3000

  datatype Transition = Transition(style: string, duration: int, curve: string)

  /** The transition styles and crossfade curves ffmpeg offers by name. */
  datatype Offered = Offered(styles: set<string>, curves: set<string>)

  // ---------------------------------------------------------------------------
  // Validation
  // ---------------------------------------------------------------------------

  function Fault(t: Transition, offered: Offered): (fault: Option<Error>)
    // A hard cut has no duration, and any other transition offered lasts a tenth of a second to three.
    ensures fault.None? <==>
              && t.curve in offered.curves
              && ((t.style == "none" && t.duration == 0)
                  || (t.style != "none" && t.style in offered.styles && 100 <= t.duration <= 3000))
    ensures fault == Some(UnknownTransition) <==>
              t.curve !in offered.curves || (t.style != "none" && t.style !in offered.styles)
    ensures fault == Some(CutWithDuration) ==> t.style == "none"
  {
    if t.style !in offered.styles + {NO_TRANSITION} || t.curve !in offered.curves then Some(UnknownTransition)
    else if t.style == NO_TRANSITION then if t.duration != 0 then Some(CutWithDuration) else None
    else if MIN_TRANSITION_MS <= t.duration <= MAX_TRANSITION_MS then None
    else Some(WrongTransitionDuration)
  }

  predicate FitsJunctions(transitions: seq<Transition>, segments: nat) {
    transitions == [] || |transitions| == segments - 1
  }

  /** Nothing is wrong with the first n. */
  predicate Faultless(transitions: seq<Transition>, offered: Offered, n: nat)
    requires n <= |transitions|
  {
    forall i :: 0 <= i < n ==> Fault(transitions[i], offered).None?
  }

  predicate ValidTransitions(transitions: seq<Transition>, segments: nat, fadeIn: int, fadeOut: int, offered: Offered) {
    && FitsJunctions(transitions, segments)
    && Faultless(transitions, offered, |transitions|)
    && 0 <= fadeIn <= MAX_FADE_MS
    && 0 <= fadeOut <= MAX_FADE_MS
  }

  /** One transition per junction, each offered and of an allowed length; the first fault is reported. */
  method ValidateTransitions(transitions: seq<Transition>, segments: nat, fadeIn: int, fadeOut: int, offered: Offered)
    returns (fault: Option<Error>)
    ensures fault.None? <==> ValidTransitions(transitions, segments, fadeIn, fadeOut, offered)
    ensures fault == Some(WrongTransitionCount) <==> transitions != [] && |transitions| != segments - 1
    ensures FitsJunctions(transitions, segments) ==>
              forall i :: 0 <= i < |transitions| && Faultless(transitions, offered, i)
                          && Fault(transitions[i], offered).Some? ==>
                            fault == Fault(transitions[i], offered)
    ensures FitsJunctions(transitions, segments) && Faultless(transitions, offered, |transitions|) ==>
              && (fault == Some(WrongFadeIn) <==> !(0 <= fadeIn <= 3000))
              && (fault == Some(WrongFadeOut) <==> 0 <= fadeIn <= 3000 && !(0 <= fadeOut <= 3000))
  {
    if transitions != [] && |transitions| != segments - 1 {
      return Some(WrongTransitionCount);
    }
    for i := 0 to |transitions|
      invariant Faultless(transitions, offered, i)
    {
      var Transition(style, duration, curve) := transitions[i];
      if style !in offered.styles + {NO_TRANSITION} || curve !in offered.curves {
        return Some(UnknownTransition);
      }
      if style == NO_TRANSITION {
        if duration != 0 {
          return Some(CutWithDuration);
        }
      } else if !(MIN_TRANSITION_MS <= duration <= MAX_TRANSITION_MS) {
        return Some(WrongTransitionDuration);
      }
    }
    if !(0 <= fadeIn <= MAX_FADE_MS) {
      return Some(WrongFadeIn);
    }
    if !(0 <= fadeOut <= MAX_FADE_MS) {
      return Some(WrongFadeOut);
    }
    return None;
  }

  // ---------------------------------------------------------------------------
  // The filters join emits
  // ---------------------------------------------------------------------------

  predicate HardCuts(transitions: seq<Transition>) {
    forall i :: 0 <= i < |transitions| ==> transitions[i].style == NO_TRANSITION
  }

  function Overlap(t: Transition, fps: int): nat {
    if t.style == NO_TRANSITION then 0 else Max(1, RoundHalfEven(t.duration * fps, 1000))
  }

  /** The frames nearest to what the transition asks for, but one at least; a cut overlaps none. */
  predicate LastsAsAsked(t: Transition, fps: int, frames: nat) {
    if t.style == "none" then frames == 0
    else if t.duration * fps > 500 then Nearest(t.duration * fps, 1000, frames)
    else frames == 1
  }

  lemma OverlapLasts(t: Transition, fps: int)
    ensures LastsAsAsked(t, fps, Overlap(t, fps))
  {
  }

  function Overlaps(transitions: seq<Transition>, fps: int): seq<nat> {
    seq(|transitions|, i requires 0 <= i < |transitions| => Overlap(transitions[i], fps))
  }

  /** The frames each junction of the clip overlaps: no transition at all is a cut everywhere. */
  function ClipOverlaps(count: nat, transitions: seq<Transition>, fps: int): seq<nat>
    requires count > 0 && FitsJunctions(transitions, count)
  {
    if transitions == [] then seq(count - 1, _ => 0) else Overlaps(transitions, fps)
  }

  function ClipStyles(count: nat, transitions: seq<Transition>): seq<string>
    requires count > 0 && FitsJunctions(transitions, count)
  {
    if transitions == [] then seq(count - 1, _ => NO_TRANSITION)
    else seq(|transitions|, i requires 0 <= i < |transitions| => transitions[i].style)
  }

  function ClipCurves(count: nat, transitions: seq<Transition>): seq<string>
    requires count > 0 && FitsJunctions(transitions, count)
  {
    if transitions == [] then seq(count - 1, _ => NO_TRANSITION)
    else seq(|transitions|, i requires 0 <= i < |transitions| => transitions[i].curve)
  }

  function Scaled(counts: seq<nat>, factor: nat): seq<nat> {
    seq(|counts|, i requires 0 <= i < |counts| => counts[i] * factor)
  }

  lemma {:induction false} SumScales(counts: seq<nat>, factor: nat)
    ensures Sum(Scaled(counts, factor)) == Sum(counts) * factor
  {
    if counts != [] {
      SumScales(counts[1..], factor);
      assert Scaled(counts, factor)[1..] == Scaled(counts[1..], factor);
      ScaleSplits(counts[0], Sum(counts[1..]), 0, factor);
    }
  }

  function Pairs(count: nat): seq<Label> {
    seq(2 * count, i requires 0 <= i < 2 * count => if i % 2 == 0 then Video(i / 2) else Audio(i / 2))
  }

  /** The label of the clip's video after a junction, `count` segments being joined in all. */
  function VideoAfter(p: nat, count: nat): Label {
    if p == 0 then Video(0) else if p == count - 1 then Joined else JoinedVideo(p)
  }

  function AudioAfter(p: nat, count: nat): Label {
    if p == 0 then Audio(0) else if p == count - 1 then Mixed else JoinedAudio(p)
  }

  /** The filters of junction p, `elapsed` frames into the clip. */
  function Junction(count: nat, p: nat, t: Transition, overlap: nat, elapsed: int, samples: nat): seq<Filter>
    requires 0 < p < count
  {
    var video, audio := VideoAfter(p - 1, count), AudioAfter(p - 1, count);
    var joinedVideo, joinedAudio := VideoAfter(p, count), AudioAfter(p, count);
    if overlap == 0 then
      [Filter([video, audio, Video(p), Audio(p)], Concat(2), [joinedVideo, joinedAudio])]
    else
      [Filter([video, Video(p)], XFade(t.style, overlap, elapsed - overlap), [joinedVideo]),
       Filter([audio, Audio(p)], ACrossfade(t.curve, overlap * samples), [joinedAudio])]
  }

  /** The filters of junctions 1 to `upTo`, each entering segment p at its place. */
  function Junctions(lengths: seq<nat>, transitions: seq<Transition>, overlaps: seq<nat>, samples: nat,
                     upTo: nat): seq<Filter>
    requires upTo < |lengths| && |transitions| == |overlaps| == |lengths| - 1
  {
    if upTo == 0 then []
    else
      Junctions(lengths, transitions, overlaps, samples, upTo - 1)
      + Junction(|lengths|, upTo, transitions[upTo - 1], overlaps[upTo - 1],
                 Place(lengths, overlaps, upTo) + overlaps[upTo - 1], samples)
  }

  function JoinFilters(lengths: seq<nat>, transitions: seq<Transition>, fps: int): seq<Filter>
    requires |lengths| > 0 && FitsJunctions(transitions, |lengths|) && fps > 0
  {
    if HardCuts(transitions) then [Filter(Pairs(|lengths|), Concat(|lengths|), [Joined, Mixed])]
    else Junctions(lengths, transitions, Overlaps(transitions, fps), SamplesPerFrame(fps), |lengths| - 1)
  }

  /** The two filters of a transition into segment p: of its style and curve, as long as asked, in step. */
  predicate MixesInto(video: Filter, audio: Filter, p: nat, t: Transition, fps: int)
    requires fps > 0
  {
    && video.op.XFade? && video.op.style == t.style && LastsAsAsked(t, fps, video.op.duration)
    && audio.op.ACrossfade? && audio.op.curve == t.curve
    && audio.op.count == video.op.duration * SamplesPerFrame(fps)
    && |video.inputs| == 2 && video.inputs[1] == Video(p) && |audio.inputs| == 2 && audio.inputs[1] == Audio(p)
  }

  predicate Mixes(filters: seq<Filter>, p: nat, t: Transition, fps: int)
    requires fps > 0
  {
    exists i :: 0 < i < |filters| && MixesInto(filters[i - 1], filters[i], p, t, fps)
  }

  lemma MixesOn(filters: seq<Filter>, more: seq<Filter>, p: nat, t: Transition, fps: int)
    requires fps > 0 && (Mixes(filters, p, t, fps) || Mixes(more, p, t, fps))
    ensures Mixes(filters + more, p, t, fps)
  {
    var all := filters + more;
    if i :| 0 < i < |filters| && MixesInto(filters[i - 1], filters[i], p, t, fps) {
      assert MixesInto(all[i - 1], all[i], p, t, fps);
    } else {
      var i :| 0 < i < |more| && MixesInto(more[i - 1], more[i], p, t, fps);
      var k := |filters| + i;
      assert MixesInto(all[k - 1], all[k], p, t, fps);
    }
  }

  /** Every transition is mixed as long as it asks. */
  lemma {:induction false} JunctionsMix(lengths: seq<nat>, transitions: seq<Transition>, fps: int, upTo: nat, p: nat)
    requires 0 < p <= upTo < |lengths| && |transitions| == |lengths| - 1 && fps > 0
    requires transitions[p - 1].style != NO_TRANSITION
    ensures Mixes(Junctions(lengths, transitions, Overlaps(transitions, fps), SamplesPerFrame(fps), upTo), p,
                  transitions[p - 1], fps)
  {
    var overlaps, samples := Overlaps(transitions, fps), SamplesPerFrame(fps);
    var earlier := Junctions(lengths, transitions, overlaps, samples, upTo - 1);
    var t := transitions[upTo - 1];
    var elapsed := Place(lengths, overlaps, upTo) + overlaps[upTo - 1];
    var last := Junction(|lengths|, upTo, t, overlaps[upTo - 1], elapsed, samples);
    if p < upTo {
      JunctionsMix(lengths, transitions, fps, upTo - 1, p);
    } else {
      OverlapLasts(t, fps);
      hide Overlap;
      assert MixesInto(last[0], last[1], p, t, fps);
      assert Mixes(last, p, t, fps);
    }
    MixesOn(earlier, last, p, transitions[p - 1], fps);
  }

  /** Each junction of the clip overlaps what its transition asks for. */
  ghost predicate OverlapsAsAsked(transitions: seq<Transition>, fps: int, overlaps: seq<nat>) {
    if transitions == [] then forall i :: 0 <= i < |overlaps| ==> overlaps[i] == 0
    else
      && |overlaps| == |transitions|
      && forall i :: 0 <= i < |overlaps| ==> LastsAsAsked(transitions[i], fps, overlaps[i])
  }

  lemma ClipOverlapsAsAsked(count: nat, transitions: seq<Transition>, fps: int)
    requires count > 0 && FitsJunctions(transitions, count)
    ensures OverlapsAsAsked(transitions, fps, ClipOverlaps(count, transitions, fps))
  {
    forall i | 0 <= i < |transitions|
      ensures LastsAsAsked(transitions[i], fps, Overlap(transitions[i], fps))
    {
      OverlapLasts(transitions[i], fps);
    }
  }

  predicate MixesAll(filters: seq<Filter>, transitions: seq<Transition>, fps: int)
    requires fps > 0
  {
    forall i :: 0 <= i < |transitions| && transitions[i].style != NO_TRANSITION ==>
      Mixes(filters, i + 1, transitions[i], fps)
  }

  /** The filters of join mix each transition as it asks. */
  lemma JoinMixes(lengths: seq<nat>, transitions: seq<Transition>, fps: int)
    requires |lengths| > 0 && FitsJunctions(transitions, |lengths|) && fps > 0
    ensures MixesAll(JoinFilters(lengths, transitions, fps), transitions, fps)
  {
    forall i | 0 <= i < |transitions| && transitions[i].style != NO_TRANSITION
      ensures Mixes(JoinFilters(lengths, transitions, fps), i + 1, transitions[i], fps)
    {
      JunctionsMix(lengths, transitions, fps, |lengths| - 1, i + 1);
    }
  }

  /** The source's check: some segment is shorter than the overlaps at its two ends. */
  predicate TooLong(lengths: seq<nat>, overlaps: seq<nat>) {
    exists p :: 0 <= p < |lengths| && Edge(overlaps, p) + Edge(overlaps, p + 1) > lengths[p]
  }

  /** Segment p is shorter than the overlaps with its two neighbours together. */
  predicate TooShort(lengths: seq<nat>, overlaps: seq<nat>, p: nat)
    requires |lengths| == |overlaps| + 1 && p < |lengths|
  {
    lengths[p] < (if p > 0 then overlaps[p - 1] else 0) + (if p < |overlaps| then overlaps[p] else 0)
  }

  lemma FitsIff(lengths: seq<nat>, overlaps: seq<nat>)
    requires |lengths| == |overlaps| + 1
    ensures Fits(lengths, overlaps) <==> forall p :: 0 <= p < |lengths| ==> !TooShort(lengths, overlaps, p)
  {
    if forall p :: 0 <= p < |lengths| ==> !TooShort(lengths, overlaps, p) {
      forall k | 0 <= k < |lengths|
        ensures Edge(overlaps, k) + Edge(overlaps, k + 1) <= lengths[k]
      {
        assert !TooShort(lengths, overlaps, k);
      }
    } else {
      var p :| 0 <= p < |lengths| && TooShort(lengths, overlaps, p);
      assert Edge(overlaps, p) + Edge(overlaps, p + 1) > lengths[p];
    }
  }

  lemma JunctionsNext(lengths: seq<nat>, transitions: seq<Transition>, overlaps: seq<nat>, samples: nat, p: nat)
    requires 0 < p < |lengths| && |transitions| == |overlaps| == |lengths| - 1
    ensures var elapsed := End(lengths, overlaps, p - 1);
            && End(lengths, overlaps, p) == elapsed + lengths[p] - overlaps[p - 1]
            && Junctions(lengths, transitions, overlaps, samples, p) ==
               Junctions(lengths, transitions, overlaps, samples, p - 1)
               + Junction(|lengths|, p, transitions[p - 1], overlaps[p - 1], elapsed, samples)
  {
    hide Junction;
  }

  /** The loop of join over the junctions. */
  method JoinJunctions(filters: FilterList, lengths: seq<nat>, transitions: seq<Transition>, overlaps: seq<nat>,
                       samples: nat)
    returns (elapsed: int)
    requires |lengths| > 0 && |transitions| == |overlaps| == |lengths| - 1
    modifies filters
    ensures elapsed == End(lengths, overlaps, |lengths| - 1)
    ensures filters.items == old(filters.items) + Junctions(lengths, transitions, overlaps, samples, |lengths| - 1)
  {
    var count := |lengths|;
    var video, audio := Video(0), Audio(0);
    elapsed := lengths[0];
    for position := 1 to count
      invariant video == VideoAfter(position - 1, count) && audio == AudioAfter(position - 1, count)
      invariant elapsed == End(lengths, overlaps, position - 1)
      invariant filters.items == old(filters.items) + Junctions(lengths, transitions, overlaps, samples, position - 1)
    {
      JunctionsNext(lengths, transitions, overlaps, samples, position);
      hide Junctions, End;
      var overlap, t := overlaps[position - 1], transitions[position - 1];
      var last := position == count - 1;
      var joinedVideo := if last then Joined else JoinedVideo(position);
      var joinedAudio := if last then Mixed else JoinedAudio(position);
      ghost var before := filters.items;
      assert elapsed == End(lengths, overlaps, position - 1);
      if overlap == 0 {
        filters.Append(Filter([video, audio, Video(position), Audio(position)], Concat(2), [joinedVideo, joinedAudio]));
      } else {
        filters.Append(Filter([video, Video(position)], XFade(t.style, overlap, elapsed - overlap), [joinedVideo]));
        filters.Append(Filter([audio, Audio(position)], ACrossfade(t.curve, overlap * samples), [joinedAudio]));
      }
      assert filters.items == before + Junction(count, position, t, overlap, elapsed, samples);
      video, audio := joinedVideo, joinedAudio;
      elapsed := elapsed + lengths[position] - overlap;
    }
  }

  lemma {:induction false} ZeroSum(counts: seq<nat>)
    requires forall i :: 0 <= i < |counts| ==> counts[i] == 0
    ensures Sum(counts) == 0
  {
    if counts != [] {
      ZeroSum(counts[1..]);
    }
  }

  lemma HardCutsFit(lengths: seq<nat>, transitions: seq<Transition>, fps: int)
    requires |lengths| > 0 && FitsJunctions(transitions, |lengths|) && HardCuts(transitions)
    ensures var overlaps := ClipOverlaps(|lengths|, transitions, fps);
            && Fits(lengths, overlaps)
            && Sum(overlaps) == 0
            && forall i :: 0 <= i < |overlaps| ==> overlaps[i] == 0
  {
    ZeroSum(ClipOverlaps(|lengths|, transitions, fps));
  }

  /**
   Appends the filters that join [vN][aN] into [joined] and [mixed], and returns the clip's length.
   It is refused, with nothing appended, exactly when a segment can't hold its overlaps.
   */
  method Join(filters: FilterList, lengths: seq<nat>, transitions: seq<Transition>, fps: int)
    returns (result: Result<int, Error>)
    requires |lengths| > 0 && FitsJunctions(transitions, |lengths|) && fps > 0
    modifies filters
    ensures result.Success? <==> Fits(lengths, ClipOverlaps(|lengths|, transitions, fps))
    ensures result.Success? ==>
              && result.value == Sum(lengths) - Sum(ClipOverlaps(|lengths|, transitions, fps))
              && filters.items == old(filters.items) + JoinFilters(lengths, transitions, fps)
    ensures result.Failure? ==> result.error == TransitionTooLong && filters.items == old(filters.items)
    // Refused means that some segment is shorter than the overlaps at its two ends.
    ensures result.Failure? <==>
              exists p :: 0 <= p < |lengths| && TooShort(lengths, ClipOverlaps(|lengths|, transitions, fps), p)
    // Each transition overlaps, in the filters and in the length returned, what it asks for.
    ensures OverlapsAsAsked(transitions, fps, ClipOverlaps(|lengths|, transitions, fps))
    ensures result.Success? ==> MixesAll(filters.items[|old(filters.items)|..], transitions, fps)
  {
    ClipOverlapsAsAsked(|lengths|, transitions, fps);
    JoinMixes(lengths, transitions, fps);
    FitsIff(lengths, ClipOverlaps(|lengths|, transitions, fps));
    hide MixesAll, OverlapsAsAsked, TooShort;
    var count := |lengths|;
    if HardCuts(transitions) {
      HardCutsFit(lengths, transitions, fps);
      filters.Append(Filter(Pairs(count), Concat(count), [Joined, Mixed]));
      return Success(Sum(lengths));
    }
    var overlaps := Overlaps(transitions, fps);
    if TooLong(lengths, overlaps) {
      return Failure(TransitionTooLong);
    }
    var elapsed := JoinJunctions(filters, lengths, transitions, overlaps, SamplesPerFrame(fps));
    EndIsTotal(lengths, overlaps);
    return Success(elapsed);
  }

  // ---------------------------------------------------------------------------
  // Fades
  // ---------------------------------------------------------------------------

  function FadeFrames(ms: int, fps: int): (frames: int)
    // A fade lasts what was asked to half a frame.
    ensures Nearest(ms * fps, 1000, frames)
  {
    RoundHalfEven(ms * fps, 1000)
  }

  function VideoFades(fadeIn: nat, fadeOut: nat, total: nat): seq<Node>
    requires fadeOut <= total
  {
    (if fadeIn > 0 then [FadeIn(fadeIn)] else []) + (if fadeOut > 0 then [FadeOut(total - fadeOut, fadeOut)] else [])
  }

  function AudioFades(fadeIn: nat, fadeOut: nat, total: nat, samples: nat): seq<Node>
    requires fadeOut <= total
  {
    assert 0 <= (total - fadeOut) * samples == total * samples - fadeOut * samples;
    VideoFades(fadeIn * samples, fadeOut * samples, total * samples)
  }

  function FadeFilters(video: Label, fadeIn: nat, fadeOut: nat, total: nat, samples: nat): seq<Filter>
    requires fadeOut <= total
  {
    [Filter([video], Chain(VideoFades(fadeIn, fadeOut, total)), [OutVideo]),
     Filter([Mixed], Chain(AudioFades(fadeIn, fadeOut, total, samples)), [OutAudio])]
  }

  /** The fades of the sound start and last `samples` times as many cells as those of the picture. */
  lemma AudioFadesScale(fadeIn: nat, fadeOut: nat, total: nat, samples: nat)
    requires fadeOut <= total && samples > 0
    ensures fadeOut * samples <= total * samples
    ensures AudioFades(fadeIn, fadeOut, total, samples) ==
            (if fadeIn > 0 then [FadeIn(fadeIn * samples)] else [])
            + (if fadeOut > 0 then [FadeOut((total - fadeOut) * samples, fadeOut * samples)] else [])
  {
    assert (total - fadeOut) * samples == total * samples - fadeOut * samples;
    assert fadeIn > 0 ==> fadeIn * samples > 0;
    assert fadeOut > 0 ==> fadeOut * samples > 0;
  }

  /** The part of fades that builds the two chains. */
  method FadeChains(video: Label, fadeIn: nat, fadeOut: nat, total: nat, samples: nat) returns (filters: seq<Filter>)
    requires fadeOut <= total && samples > 0
    ensures filters == FadeFilters(video, fadeIn, fadeOut, total, samples)
  {
    var videoFades, audioFades := [], [];
    AudioFadesScale(fadeIn, fadeOut, total, samples);
    if fadeIn != 0 {
      videoFades := videoFades + [FadeIn(fadeIn)];
      audioFades := audioFades + [FadeIn(fadeIn * samples)];
    }
    if fadeOut != 0 {
      videoFades := videoFades + [FadeOut(total - fadeOut, fadeOut)];
      audioFades := audioFades + [FadeOut((total - fadeOut) * samples, fadeOut * samples)];
    }
    assert videoFades == VideoFades(fadeIn, fadeOut, total);
    assert audioFades == AudioFades(fadeIn, fadeOut, total, samples);
    filters := [Filter([video], Chain(videoFades), [OutVideo]), Filter([Mixed], Chain(audioFades), [OutAudio])];
  }

  lemma PositiveFactor(r: int, d: int)
    requires d > 0 && r * d > 0
    ensures r > 0
  {
  }

  lemma SamplesPositive(fps: int)
    requires 0 < fps <= OUTPUT_AUDIO_RATE
    ensures SamplesPerFrame(fps) > 0
  {
    PositiveFactor(SamplesPerFrame(fps), fps);
  }

  /** The fades at both ends of the clip, ending at [v] and [a]; refused exactly when they would meet. */
  method Fades(video: Label, fadeInMs: nat, fadeOutMs: nat, total: nat, fps: int)
    returns (result: Result<seq<Filter>, Error>)
    requires 0 < fps <= OUTPUT_AUDIO_RATE
    ensures result.Success? <==> FadeFrames(fadeInMs, fps) + FadeFrames(fadeOutMs, fps) <= total
    ensures result.Success? ==>
              && FadeFrames(fadeInMs, fps) >= 0 && FadeFrames(fadeOutMs, fps) >= 0
              && result.value == FadeFilters(video, FadeFrames(fadeInMs, fps), FadeFrames(fadeOutMs, fps),
                                             total, SamplesPerFrame(fps))
    ensures result.Failure? ==> result.error == FadesTooLong
  {
    var fadeIn, fadeOut := FadeFrames(fadeInMs, fps), FadeFrames(fadeOutMs, fps);
    if fadeIn + fadeOut > total {
      return Failure(FadesTooLong);
    }
    SamplesPositive(fps);
    var filters := FadeChains(video, fadeIn, fadeOut, total, SamplesPerFrame(fps));
    return Success(filters);
  }
}
