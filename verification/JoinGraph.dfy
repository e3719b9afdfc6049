/** Running the filters join emits: the clip they make is the timeline of the segments. */
module JoinGraph {
  import opened Wrappers
  import opened Ffmpeg
  import opened FilterGraph
  import opened Timeline
  import opened Transitions

  /** Segment streams ready to be joined: the sound `samples` times as long as the picture. */
  predicate Aligned(videos: seq<Stream>, audios: seq<Stream>, samples: nat) {
    && |videos| == |audios| > 0
    && Lengths(audios) == Scaled(Lengths(videos), samples)
  }

  function ClipVideo(videos: seq<Stream>, transitions: seq<Transition>, fps: int): Stream
    requires |videos| > 0 && FitsJunctions(transitions, |videos|)
    requires Fits(Lengths(videos), ClipOverlaps(|videos|, transitions, fps))
  {
    Blended(videos, ClipOverlaps(|videos|, transitions, fps), ClipStyles(|videos|, transitions), |videos| - 1)
  }

  function ClipAudio(audios: seq<Stream>, transitions: seq<Transition>, fps: int, samples: nat): Stream
    requires |audios| > 0 && FitsJunctions(transitions, |audios|)
    requires Fits(Lengths(audios), Scaled(ClipOverlaps(|audios|, transitions, fps), samples))
  {
    Blended(audios, Scaled(ClipOverlaps(|audios|, transitions, fps), samples),
            ClipCurves(|audios|, transitions), |audios| - 1)
  }

  lemma FitsScaled(lengths: seq<nat>, overlaps: seq<nat>, samples: nat)
    requires Fits(lengths, overlaps)
    ensures Fits(Scaled(lengths, samples), Scaled(overlaps, samples))
  {
    var wide, wideOverlaps := Scaled(lengths, samples), Scaled(overlaps, samples);
    forall k | 0 <= k < |lengths|
      ensures Edge(wideOverlaps, k) + Edge(wideOverlaps, k + 1) <= wide[k]
    {
      var a, b := Edge(overlaps, k), Edge(overlaps, k + 1);
      assert a + b <= lengths[k];
      assert Edge(wideOverlaps, k) == a * samples && Edge(wideOverlaps, k + 1) == b * samples;
      assert (a + b) * samples <= lengths[k] * samples;
    }
  }

  /** A segment's sound is placed exactly where its picture is. */
  lemma {:induction false} PlaceScales(lengths: seq<nat>, overlaps: seq<nat>, samples: nat, k: nat)
    requires |overlaps| == |lengths| - 1 && k < |lengths|
    ensures Place(Scaled(lengths, samples), Scaled(overlaps, samples), k) == Place(lengths, overlaps, k) * samples
  {
    if k > 0 {
      PlaceScales(lengths, overlaps, samples, k - 1);
      var a, b, c := Place(lengths, overlaps, k - 1), lengths[k - 1], overlaps[k - 1];
      assert (a + b - c) * samples == a * samples + b * samples - c * samples;
    }
  }

  // ---------------------------------------------------------------------------
  // Label discipline and meaning, junction by junction
  // ---------------------------------------------------------------------------

  predicate JoinLabel(l: Label) {
    l.JoinedVideo? || l.JoinedAudio? || l.Joined? || l.Mixed?
  }

  /** The labels made by junctions 1 to p. */
  predicate MadeBy(l: Label, p: nat, count: nat) {
    match l
    case JoinedVideo(q) => q <= p
    case JoinedAudio(q) => q <= p
    case Joined => 0 < p == count - 1
    case Mixed => 0 < p == count - 1
    case _ => false
  }

  predicate SegmentLabel(l: Label, p: nat) {
    (l.Video? || l.Audio?) && l.position <= p
  }

  /** No join label is in use yet, and every segment's two streams wait to be consumed. */
  ghost predicate Ready(st: State, videos: seq<Stream>, audios: seq<Stream>) {
    && |videos| == |audios| > 0
    && (forall l :: l in st.made || l in st.live ==> !JoinLabel(l))
    && (forall k :: 0 <= k < |videos| ==>
          && Video(k) in st.live && st.live[Video(k)] == videos[k]
          && Audio(k) in st.live && st.live[Audio(k)] == audios[k])
  }

  /** The streams left when segments 0 to p are consumed. */
  function Without(live: map<Label, Stream>, p: nat): map<Label, Stream> {
    map l | l in live && !SegmentLabel(l, p) :: live[l]
  }

  function LiveAfter(live: map<Label, Stream>, p: nat, count: nat, video: Stream, audio: Stream): map<Label, Stream> {
    Without(live, p)[VideoAfter(p, count) := video][AudioAfter(p, count) := audio]
  }

  /** Segments 0 to p are consumed and the clip so far waits under the labels of junction p. */
  ghost predicate After(before: State, st: State, p: nat, count: nat, video: Stream, audio: Stream) {
    && st.live == LiveAfter(before.live, p, count, video, audio)
    && forall l :: l in st.made ==> l in before.made || MadeBy(l, p, count)
  }

  ghost predicate RunsTo(before: State, st: State, filters: seq<Filter>, p: nat, count: nat, video: Stream,
                         audio: Stream) {
    Run(st, filters).Some? && After(before, Run(st, filters).value, p, count, video, audio)
  }

  /** Consuming the clip so far and segment p, in one filter or in two, leaves the same streams. */
  lemma LiveStep(live: map<Label, Stream>, p: nat, count: nat, video: Stream, audio: Stream,
                 nextVideo: Stream, nextAudio: Stream)
    requires 0 < p < count && forall l :: l in live ==> !JoinLabel(l)
    ensures var va, aa, vb, ab :=
              VideoAfter(p - 1, count), AudioAfter(p - 1, count), VideoAfter(p, count), AudioAfter(p, count);
            var was, now := LiveAfter(live, p - 1, count, video, audio),
                LiveAfter(live, p, count, nextVideo, nextAudio);
            && (was - {va, aa, Video(p), Audio(p)})[vb := nextVideo][ab := nextAudio] == now
            && ((was - {va, Video(p)})[vb := nextVideo] - {aa, Audio(p)})[ab := nextAudio] == now
  {
  }

  /** What junction p needs: the clip so far and segment p are waiting, and its labels are new. */
  lemma JunctionInputs(before: State, st: State, p: nat, videos: seq<Stream>, audios: seq<Stream>, video: Stream,
                       audio: Stream)
    requires Ready(before, videos, audios) && 0 < p < |videos|
    requires After(before, st, p - 1, |videos|, video, audio)
    ensures var va, aa := VideoAfter(p - 1, |videos|), AudioAfter(p - 1, |videos|);
            && va in st.live && aa in st.live && Video(p) in st.live && Audio(p) in st.live
            && st.live[va] == video && st.live[aa] == audio
            && st.live[Video(p)] == videos[p] && st.live[Audio(p)] == audios[p]
    ensures VideoAfter(p, |videos|) !in st.made && AudioAfter(p, |videos|) !in st.made
  {
    assert Video(p) in before.live && Audio(p) in before.live;
  }

  lemma EndToEndTwo(a: Stream, b: Stream)
    ensures EndToEnd([a, b]) == a + b
  {
    assert [a, b][..1] == [a] && [a][..0] == [];
    assert EndToEnd([a]) == [] + a == a;
  }

  /** A hard cut puts the next segment after the clip so far. */
  lemma CutRuns(before: State, st: State, p: nat, videos: seq<Stream>, audios: seq<Stream>,
                video: Stream, audio: Stream, t: Transition, elapsed: int, samples: nat)
    requires Ready(before, videos, audios) && 0 < p < |videos|
    requires After(before, st, p - 1, |videos|, video, audio)
    ensures RunsTo(before, st, Junction(|videos|, p, t, 0, elapsed, samples), p, |videos|,
                   video + videos[p], audio + audios[p])
  {
    hide Step, Apply, ApplyAll, Put;
    var count := |videos|;
    var f := Junction(count, p, t, 0, elapsed, samples)[0];
    var ins := [video, audio, videos[p], audios[p]];
    JunctionInputs(before, st, p, videos, audios, video, audio);
    LiveStep(before.live, p, count, video, audio, video + videos[p], audio + audios[p]);
    hide Ready, LiveAfter, JoinLabel, SegmentLabel;
    assert Take(st.live, f.inputs) == ins;
    assert EveryOther(ins, 0, 2) == [video, videos[p]] && EveryOther(ins, 1, 2) == [audio, audios[p]];
    EndToEndTwo(video, videos[p]);
    EndToEndTwo(audio, audios[p]);
    StepTwo(st, f, video + videos[p], audio + audios[p]);
    assert LabelSet(f.inputs) == {f.inputs[0], f.inputs[1], f.inputs[2], f.inputs[3]};
    hide Take, LabelSet, Distinct;
    var next := Step(st, f).value;
    assert Run(next, [f][1..]) == Some(next);
  }

  /** A transition overlaps the next segment with the end of the clip so far. */
  lemma MixRuns(before: State, st: State, p: nat, videos: seq<Stream>, audios: seq<Stream>,
                video: Stream, audio: Stream, t: Transition, n: nat, m: nat, elapsed: int, samples: nat)
    requires Ready(before, videos, audios) && 0 < p < |videos|
    requires After(before, st, p - 1, |videos|, video, audio)
    requires 0 < n <= |video| == elapsed && n <= |videos[p]|
    requires m == n * samples <= |audio| && m <= |audios[p]|
    ensures RunsTo(before, st, Junction(|videos|, p, t, n, elapsed, samples), p, |videos|,
                   Overlay(video, videos[p], n, t.style), Overlay(audio, audios[p], m, t.curve))
  {
    hide Step, Apply, ApplyAll, Put, JoinLabel;
    var count := |videos|;
    var filters := Junction(count, p, t, n, elapsed, samples);
    var f, g := filters[0], filters[1];
    var nextVideo, nextAudio := Overlay(video, videos[p], n, t.style), Overlay(audio, audios[p], m, t.curve);
    JunctionInputs(before, st, p, videos, audios, video, audio);
    assert Take(st.live, f.inputs) == [video, videos[p]] && video[..elapsed] == video;
    StepOne(st, f, nextVideo);
    assert LabelSet(f.inputs) == {f.inputs[0], f.inputs[1]};
    var mid := Step(st, f).value;
    assert Take(mid.live, g.inputs) == [audio, audios[p]];
    StepOne(mid, g, nextAudio);
    assert LabelSet(g.inputs) == {g.inputs[0], g.inputs[1]};
    LiveStep(before.live, p, count, video, audio, nextVideo, nextAudio);
    hide LiveAfter, Ready, Meaning, Distinct, LabelSet, Take;
    var next := Step(mid, g).value;
    assert filters[1..] == [g] && [g][1..] == [];
    assert Run(st, filters) == Run(mid, [g]) == Run(next, []) == Some(next);
  }

  /** What junctions overlap and mix, in frames and in samples. */
  datatype Plan = Plan(overlaps: seq<nat>, wide: seq<nat>, styles: seq<string>, curves: seq<string>)

  predicate PlanFits(videos: seq<Stream>, audios: seq<Stream>, plan: Plan) {
    && |videos| == |audios|
    && Fits(Lengths(videos), plan.overlaps) && Fits(Lengths(audios), plan.wide)
    && |plan.styles| == |plan.curves| == |plan.overlaps|
  }

  /** The state after junction p: the timeline of segments 0 to p, in picture and sound. */
  ghost predicate Blends(before: State, st: State, p: nat, videos: seq<Stream>, audios: seq<Stream>, plan: Plan)
    requires PlanFits(videos, audios, plan) && p < |videos|
  {
    After(before, st, p, |videos|, Blended(videos, plan.overlaps, plan.styles, p),
          Blended(audios, plan.wide, plan.curves, p))
  }

  ghost predicate BlendsBy(before: State, st: State, filters: seq<Filter>, p: nat,
                           videos: seq<Stream>, audios: seq<Stream>, plan: Plan)
    requires PlanFits(videos, audios, plan) && p < |videos|
  {
    RunsTo(before, st, filters, p, |videos|, Blended(videos, plan.overlaps, plan.styles, p),
           Blended(audios, plan.wide, plan.curves, p))
  }

  lemma NoOverlay(a: Stream, b: Stream, style: string)
    ensures Overlay(a, b, 0, style) == a + b
  {
  }

  lemma JunctionRuns(before: State, st: State, p: nat, videos: seq<Stream>, audios: seq<Stream>, plan: Plan,
                     t: Transition, samples: nat)
    requires Ready(before, videos, audios) && 0 < p < |videos|
    requires PlanFits(videos, audios, plan)
    requires plan.styles[p - 1] == t.style && plan.curves[p - 1] == t.curve
    requires plan.wide[p - 1] == plan.overlaps[p - 1] * samples
    requires Blends(before, st, p - 1, videos, audios, plan)
    ensures BlendsBy(before, st, Junction(|videos|, p, t, plan.overlaps[p - 1],
                                          Place(Lengths(videos), plan.overlaps, p) + plan.overlaps[p - 1], samples),
                     p, videos, audios, plan)
  {
    hide Run, Ready, After, Junction;
    var n, m := plan.overlaps[p - 1], plan.wide[p - 1];
    var video := Blended(videos, plan.overlaps, plan.styles, p - 1);
    var audio := Blended(audios, plan.wide, plan.curves, p - 1);
    var elapsed := Place(Lengths(videos), plan.overlaps, p) + n;
    OverlapFits(Lengths(videos), plan.overlaps, p - 1);
    OverlapFits(Lengths(audios), plan.wide, p - 1);
    hide Fits, Edge, Overlay, Place;
    if n == 0 {
      CutRuns(before, st, p, videos, audios, video, audio, t, elapsed, samples);
      NoOverlay(video, videos[p], t.style);
      NoOverlay(audio, audios[p], t.curve);
    } else {
      MixRuns(before, st, p, videos, audios, video, audio, t, n, m, elapsed, samples);
    }
  }

  lemma StartBlends(st: State, videos: seq<Stream>, audios: seq<Stream>, plan: Plan)
    requires Ready(st, videos, audios) && PlanFits(videos, audios, plan)
    ensures Blends(st, st, 0, videos, audios, plan)
  {
    hide Fits, Run, PlanFits;
    assert LiveAfter(st.live, 0, |videos|, videos[0], audios[0]) == st.live;
  }

  predicate PlanFor(plan: Plan, transitions: seq<Transition>, samples: nat) {
    && |plan.overlaps| == |plan.wide| == |plan.styles| == |plan.curves| == |transitions|
    && forall i :: 0 <= i < |transitions| ==>
         && plan.wide[i] == plan.overlaps[i] * samples
         && plan.styles[i] == transitions[i].style && plan.curves[i] == transitions[i].curve
  }

  lemma {:induction false} JunctionsRun(st: State, videos: seq<Stream>, audios: seq<Stream>,
                                        transitions: seq<Transition>, plan: Plan, samples: nat, p: nat)
    requires p < |videos| && PlanFor(plan, transitions, samples) && PlanFits(videos, audios, plan)
    requires Ready(st, videos, audios)
    ensures BlendsBy(st, st, Junctions(Lengths(videos), transitions, plan.overlaps, samples, p), p, videos, audios,
                     plan)
  {
    if p == 0 {
      StartBlends(st, videos, audios, plan);
    } else {
      hide Ready, Run, Blended, After, Blends, Junction;
      JunctionsRun(st, videos, audios, transitions, plan, samples, p - 1);
      var earlier := Junctions(Lengths(videos), transitions, plan.overlaps, samples, p - 1);
      var t, n := transitions[p - 1], plan.overlaps[p - 1];
      JunctionRuns(st, Run(st, earlier).value, p, videos, audios, plan, t, samples);
      RunAppend(st, earlier, Junction(|videos|, p, t, n, Place(Lengths(videos), plan.overlaps, p) + n, samples));
    }
  }

  /** End to end is the timeline with no overlaps. */
  lemma {:induction false} CutsBlend(streams: seq<Stream>, overlaps: seq<nat>, styles: seq<string>, p: nat)
    requires Fits(Lengths(streams), overlaps) && |styles| == |overlaps| && p < |streams|
    requires forall i :: 0 <= i < |overlaps| ==> overlaps[i] == 0
    ensures Blended(streams, overlaps, styles, p) == EndToEnd(streams[..p + 1])
  {
    assert streams[..p + 1][..p] == streams[..p];
    if p == 0 {
      assert EndToEnd(streams[..1]) == [] + streams[0] == streams[0];
    } else {
      CutsBlend(streams, overlaps, styles, p - 1);
      var before := Blended(streams, overlaps, styles, p - 1);
      assert Overlay(before, streams[p], 0, styles[p - 1]) == before + streams[p];
    }
  }

  lemma AllCutsBlend(streams: seq<Stream>, overlaps: seq<nat>, styles: seq<string>)
    requires Fits(Lengths(streams), overlaps) && |styles| == |overlaps|
    requires forall i :: 0 <= i < |overlaps| ==> overlaps[i] == 0
    ensures Blended(streams, overlaps, styles, |streams| - 1) == EndToEnd(streams)
  {
    CutsBlend(streams, overlaps, styles, |streams| - 1);
    assert streams[..|streams|] == streams;
  }

  lemma PairsTaken(st: State, videos: seq<Stream>, audios: seq<Stream>)
    requires Ready(st, videos, audios)
    requires forall i :: 0 <= i < |Pairs(|videos|)| ==> Pairs(|videos|)[i] in st.live
    ensures |Take(st.live, Pairs(|videos|))| == 2 * |videos|
    ensures EveryOther(Take(st.live, Pairs(|videos|)), 0, |videos|) == videos
    ensures EveryOther(Take(st.live, Pairs(|videos|)), 1, |videos|) == audios
  {
    var ins := Take(st.live, Pairs(|videos|));
    forall k | 0 <= k < |videos|
      ensures EveryOther(ins, 0, |videos|)[k] == videos[k] && EveryOther(ins, 1, |videos|)[k] == audios[k]
    {
      assert Pairs(|videos|)[2 * k] == Video(k) && Pairs(|videos|)[2 * k + 1] == Audio(k);
    }
  }

  lemma ConcatMeaning(st: State, videos: seq<Stream>, audios: seq<Stream>, plan: Plan)
    requires Ready(st, videos, audios) && PlanFits(videos, audios, plan)
    requires forall i :: 0 <= i < |plan.overlaps| ==> plan.overlaps[i] == plan.wide[i] == 0
    requires forall i :: 0 <= i < |Pairs(|videos|)| ==> Pairs(|videos|)[i] in st.live
    ensures Meaning(Concat(|videos|), Take(st.live, Pairs(|videos|))) ==
            Some([Blended(videos, plan.overlaps, plan.styles, |videos| - 1),
                  Blended(audios, plan.wide, plan.curves, |videos| - 1)])
  {
    hide Apply, ApplyAll;
    var count := |videos|;
    PairsTaken(st, videos, audios);
    AllCutsBlend(videos, plan.overlaps, plan.styles);
    AllCutsBlend(audios, plan.wide, plan.curves);
    hide EveryOther, EndToEnd, Blended, Fits, Pairs, Take, Ready;
    var ins := Take(st.live, Pairs(count));
    assert |ins| == 2 * count;
  }

  lemma PairsConsumed(st: State, videos: seq<Stream>, audios: seq<Stream>)
    requires Ready(st, videos, audios)
    ensures var pairs := Pairs(|videos|);
            && Distinct(pairs)
            && (forall i :: 0 <= i < |pairs| ==> pairs[i] in st.live)
            && st.live - LabelSet(pairs) == Without(st.live, |videos| - 1)
  {
    var pairs := Pairs(|videos|);
    assert forall i :: 0 <= i < |pairs| ==> i / 2 < |videos|;
    forall l
      ensures l in LabelSet(pairs) <==> SegmentLabel(l, |videos| - 1)
    {
      if SegmentLabel(l, |videos| - 1) {
        var i := 2 * l.position + if l.Video? then 0 else 1;
        assert pairs[i] == l;
      }
    }
  }

  /** The one concat filter of a clip with hard cuts only. */
  lemma ConcatRuns(st: State, videos: seq<Stream>, audios: seq<Stream>, plan: Plan)
    requires Ready(st, videos, audios) && PlanFits(videos, audios, plan)
    requires forall i :: 0 <= i < |plan.overlaps| ==> plan.overlaps[i] == plan.wide[i] == 0
    ensures Run(st, [Filter(Pairs(|videos|), Concat(|videos|), [Joined, Mixed])]) ==
            Some(State(Without(st.live, |videos| - 1)
                         [Joined := Blended(videos, plan.overlaps, plan.styles, |videos| - 1)]
                         [Mixed := Blended(audios, plan.wide, plan.curves, |videos| - 1)],
                       st.made + {Joined, Mixed}))
  {
    hide Meaning, Put, Step, Blended, EveryOther, Without;
    var f := Filter(Pairs(|videos|), Concat(|videos|), [Joined, Mixed]);
    PairsConsumed(st, videos, audios);
    ConcatMeaning(st, videos, audios, plan);
    StepTwo(st, f, Blended(videos, plan.overlaps, plan.styles, |videos| - 1),
            Blended(audios, plan.wide, plan.curves, |videos| - 1));
    assert Run(Step(st, f).value, [f][1..]) == Some(Step(st, f).value);
  }

  /**
   Running what join emits consumes every [vN] and [aN] once and makes [joined] and [mixed]: the
   timeline of the segments, in picture and in sound.
   */
  lemma JoinRuns(st: State, videos: seq<Stream>, audios: seq<Stream>, transitions: seq<Transition>, fps: int)
    returns (next: State)
    requires 0 < fps <= OUTPUT_AUDIO_RATE && FitsJunctions(transitions, |videos|)
    requires Ready(st, videos, audios)
    requires Fits(Lengths(videos), ClipOverlaps(|videos|, transitions, fps))
    requires Fits(Lengths(audios), Scaled(ClipOverlaps(|videos|, transitions, fps), SamplesPerFrame(fps)))
    ensures Run(st, JoinFilters(Lengths(videos), transitions, fps)) == Some(next)
    ensures next.live == Without(st.live, |videos| - 1)
                           [Joined := ClipVideo(videos, transitions, fps)]
                           [Mixed := ClipAudio(audios, transitions, fps, SamplesPerFrame(fps))]
    ensures forall l :: l in next.made ==> l in st.made || JoinLabel(l)
  {
    hide Run, Ready, Blended;
    var lengths, samples := Lengths(videos), SamplesPerFrame(fps);
    var overlaps := ClipOverlaps(|videos|, transitions, fps);
    var plan := Plan(overlaps, Scaled(overlaps, samples), ClipStyles(|videos|, transitions),
                     ClipCurves(|videos|, transitions));
    if HardCuts(transitions) {
      HardCutsFit(lengths, transitions, fps);
      ConcatRuns(st, videos, audios, plan);
    } else {
      JunctionsRun(st, videos, audios, transitions, plan, samples, |videos| - 1);
    }
    next := Run(st, JoinFilters(lengths, transitions, fps)).value;
  }
}
