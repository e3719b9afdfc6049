/**
 What becomes of accepted requests: which graphs run, when the sound is in step with the picture, and when
 the clip has the length join counted on, also for keep ranges and pictures that fall short.
 */
module ClipOutcome {
  import opened Wrappers
  import opened Numbers
  import opened Ffmpeg
  import opened FilterGraph
  import opened Timeline
  import opened Transitions
  import opened Keep
  import opened Cut
  import opened JoinGraph
  import opened CutGraph
  import opened GraphLabels

  // ---------------------------------------------------------------------------
  // Lengths
  // ---------------------------------------------------------------------------

  lemma {:induction false} SumsAgree(a: seq<nat>, b: seq<nat>)
    requires |a| == |b| && forall i :: 0 <= i < |a| ==> a[i] <= b[i]
    ensures Sum(a) <= Sum(b)
    ensures Sum(a) == Sum(b) <==> a == b
  {
    if a != [] {
      SumsAgree(a[1..], b[1..]);
      assert a == [a[0]] + a[1..] && b == [b[0]] + b[1..];
    }
  }

  /** The first n counts are the same. */
  predicate Agree(a: seq<nat>, b: seq<nat>, n: nat)
    requires n <= |a| == |b|
  {
    forall k :: 0 <= k < n ==> a[k] == b[k]
  }

  /** A timeline of shorter segments ends no later, and as late only if they are all as long. */
  lemma {:induction false} EndsAgree(a: seq<nat>, b: seq<nat>, overlaps: seq<nat>, p: nat)
    requires |a| == |b| == |overlaps| + 1 && p < |a| && forall k :: 0 <= k < |a| ==> a[k] <= b[k]
    ensures End(a, overlaps, p) <= End(b, overlaps, p)
    ensures End(a, overlaps, p) == End(b, overlaps, p) <==> Agree(a, b, p + 1)
  {
    if p > 0 {
      EndsAgree(a, b, overlaps, p - 1);
    }
  }

  /** If every sound lasts as long as its picture, so does the timeline of the sounds. */
  lemma {:induction false} SoundLasts(lengths: seq<nat>, sounds: seq<nat>, overlaps: seq<nat>, samples: nat, p: nat)
    requires |lengths| == |sounds| == |overlaps| + 1 && p < |lengths|
    requires forall k :: 0 <= k < |lengths| ==> lengths[k] * samples <= sounds[k]
    ensures End(lengths, overlaps, p) * samples <= End(sounds, Scaled(overlaps, samples), p)
  {
    if p > 0 {
      SoundLasts(lengths, sounds, overlaps, samples, p - 1);
      ScaleSplits(End(lengths, overlaps, p - 1), lengths[p], overlaps[p - 1], samples);
    }
  }

  /** Whole lengths that agree have parts that agree. */
  lemma NumbersTell(lengths: seq<nat>, told: seq<nat>, sounds: seq<nat>, overlaps: seq<nat>, samples: nat)
    requires |lengths| == |sounds| == |told| && samples > 0
    requires forall k :: 0 <= k < |told| ==> lengths[k] <= told[k]
    requires forall k :: 0 <= k < |told| ==> lengths[k] * samples <= sounds[k] <= told[k] * samples
    ensures var video, audio := Sum(lengths) - Sum(overlaps), Sum(sounds) - Sum(Scaled(overlaps, samples));
            var total := Sum(told) - Sum(overlaps);
            && (audio == video * samples <==> sounds == Scaled(lengths, samples))
            && (video == total <==> lengths == told)
            && (audio == total * samples <==> sounds == Scaled(told, samples))
  {
    hide Sum;
    SumsAgree(lengths, told);
    SumsAgree(Scaled(lengths, samples), sounds);
    SumsAgree(sounds, Scaled(told, samples));
    TotalScales(lengths, overlaps, samples);
    TotalScales(told, overlaps, samples);
  }

  lemma SegmentsWithin(shots: seq<Shot>, sources: seq<Source>, fps: nat, samples: nat)
    requires Steady(shots, sources) && samples > 0
    ensures var lengths, told := Lengths(Videos(shots, sources, fps)), ShotLengths(shots);
            var sounds := Lengths(Audios(shots, sources, samples));
            && |lengths| == |sounds| == |told|
            && (forall k :: 0 <= k < |told| ==> lengths[k] <= told[k])
            && (forall k :: 0 <= k < |told| ==> lengths[k] * samples <= sounds[k] <= told[k] * samples)
  {
    var lengths, told := Lengths(Videos(shots, sources, fps)), ShotLengths(shots);
    var sounds := Lengths(Audios(shots, sources, samples));
    forall k | 0 <= k < |told|
      ensures lengths[k] <= told[k] && lengths[k] * samples <= sounds[k] <= told[k] * samples
    {
      SegmentNumbers(shots, sources, fps, samples, k);
      hide SegmentVideo, SegmentAudio, Ordered, EndBy, Supplied, Shot.Length;
    }
  }

  /** What the lengths of the whole clip say of its segments. */
  lemma LengthsTell(shots: seq<Shot>, sources: seq<Source>, overlaps: seq<nat>, fps: nat, samples: nat)
    requires Steady(shots, sources) && samples > 0
    ensures var video := Sum(Lengths(Videos(shots, sources, fps))) - Sum(overlaps);
            var audio := Sum(Lengths(Audios(shots, sources, samples))) - Sum(Scaled(overlaps, samples));
            var total := Sum(ShotLengths(shots)) - Sum(overlaps);
            && (audio == video * samples <==> AllSupplied(shots, sources, fps))
            && (video == total <==> RangesFit(shots) && AllSupplied(shots, sources, fps))
            && (audio == total * samples <==> RangesFit(shots))
  {
    hide Sum, RangesFit, AllSupplied, SegmentWithin, Ordered, Lengths, ShotLengths, Scaled;
    SegmentsAligned(shots, sources, fps, samples);
    SegmentsWithin(shots, sources, fps, samples);
    NumbersTell(Lengths(Videos(shots, sources, fps)), ShotLengths(shots), Lengths(Audios(shots, sources, samples)),
                overlaps, samples);
  }

  // ---------------------------------------------------------------------------
  // Filters that run
  // ---------------------------------------------------------------------------

  function LabelsOf(st: State): Labels {
    Labels(st.live.Keys, st.made)
  }

  /** The state after any filter that makes one stream. */
  lemma OneMade(st: State, f: Filter)
    requires |f.outputs| == 1 && Step(st, f).Some?
    ensures Meaning(f.op, Take(st.live, f.inputs)).Some? && |Meaning(f.op, Take(st.live, f.inputs)).value| == 1
    ensures Step(st, f).value.live ==
            (st.live - LabelSet(f.inputs))[f.outputs[0] := Meaning(f.op, Take(st.live, f.inputs)).value[0]]
  {
    hide Meaning, Take, LabelSet, Put;
    var streams := Meaning(f.op, Take(st.live, f.inputs)).value;
    assert streams == [streams[0]];
    StepOne(st, f, streams[0]);
  }

  /** The state after any filter that makes two. */
  lemma TwoMade(st: State, f: Filter)
    requires |f.outputs| == 2 && Step(st, f).Some?
    ensures Meaning(f.op, Take(st.live, f.inputs)).Some? && |Meaning(f.op, Take(st.live, f.inputs)).value| == 2
    ensures var streams := Meaning(f.op, Take(st.live, f.inputs)).value;
            Step(st, f).value.live ==
                (st.live - LabelSet(f.inputs))[f.outputs[0] := streams[0]][f.outputs[1] := streams[1]]
  {
    hide Meaning, Take, LabelSet, Put;
    var streams := Meaning(f.op, Take(st.live, f.inputs)).value;
    assert f.outputs[0] != f.outputs[1];
    assert streams == [streams[0], streams[1]];
    StepTwo(st, f, streams[0], streams[1]);
  }

  lemma MixMakes(video: Stream, next: Stream, n: nat, offset: int, style: string)
    requires Meaning(XFade(style, n, offset), [video, next]).Some?
    ensures offset + n <= |video|
    ensures var streams := Meaning(XFade(style, n, offset), [video, next]).value;
            |streams| == 1 && |streams[0]| == offset + |next|
  {
  }

  /** A filter whose labels are in order runs exactly when its inputs have a meaning. */
  lemma UsableRunsIff(st: State, f: Filter)
    requires Use(LabelsOf(st), f).Some?
    ensures forall i :: 0 <= i < |f.inputs| ==> f.inputs[i] in st.live
    ensures var meaning := Meaning(f.op, Take(st.live, f.inputs));
            Step(st, f).Some? <==> meaning.Some? && |meaning.value| == |f.outputs|
    ensures Step(st, f).Some? ==> Use(LabelsOf(st), f) == Some(LabelsOf(Step(st, f).value))
  {
    hide Meaning, Put;
    forall i | 0 <= i < |f.inputs|
      ensures f.inputs[i] in st.live
    {
      assert f.inputs[i] in LabelSet(f.inputs);
    }
    forall i | 0 <= i < |f.outputs|
      ensures f.outputs[i] !in st.made
    {
      assert f.outputs[i] in LabelSet(f.outputs);
    }
    if Step(st, f).Some? {
      StepUses(st, f);
    }
  }

  /** A graph that runs on streams runs on their labels. */
  lemma {:induction false} RunUses(st: State, filters: seq<Filter>)
    requires Run(st, filters).Some?
    ensures UseAll(LabelsOf(st), filters) == Some(LabelsOf(Run(st, filters).value))
    decreases |filters|
  {
    if filters != [] {
      var next := Step(st, filters[0]).value;
      RunUses(next, filters[1..]);
      hide Step, Use;
      StepUses(st, filters[0]);
      UseOne(LabelsOf(st), filters[0]);
      UseAppend(LabelsOf(st), [filters[0]], filters[1..]);
      assert filters == [filters[0]] + filters[1..];
    }
  }

  // ---------------------------------------------------------------------------
  // Junctions
  // ---------------------------------------------------------------------------

  predicate Waits(live: map<Label, Stream>, videos: seq<Stream>, audios: seq<Stream>, q: nat)
    requires q < |videos| == |audios|
  {
    Video(q) in live && live[Video(q)] == videos[q] && Audio(q) in live && live[Audio(q)] == audios[q]
  }

  /** After junction p the clip so far lasts as long as its segments do, and the segments to come still wait. */
  ghost predicate Follows(live: map<Label, Stream>, videos: seq<Stream>, audios: seq<Stream>, overlaps: seq<nat>,
                          samples: nat, p: nat)
    requires |videos| == |audios| == |overlaps| + 1 && p < |videos|
  {
    var video, audio := VideoAfter(p, |videos|), AudioAfter(p, |videos|);
    && video in live && |live[video]| == End(Lengths(videos), overlaps, p)
    && audio in live && |live[audio]| == End(Lengths(audios), Scaled(overlaps, samples), p)
    && (forall q :: p < q < |videos| ==> Waits(live, videos, audios, q))
  }

  lemma CutMeans(live: map<Label, Stream>, f: Filter, videos: seq<Stream>, audios: seq<Stream>, p: nat)
    requires |videos| == |audios| && 0 < p < |videos| && Waits(live, videos, audios, p) && |f.inputs| == 4
    requires f.op == Concat(2) && f.inputs[0] in live && f.inputs[1] in live && f.inputs[2..] == [Video(p), Audio(p)]
    ensures forall i :: 0 <= i < 4 ==> f.inputs[i] in live
    ensures var meaning := Meaning(f.op, Take(live, f.inputs));
            && meaning.Some? && |meaning.value| == 2
            && |meaning.value[0]| == |live[f.inputs[0]]| + |videos[p]|
            && |meaning.value[1]| == |live[f.inputs[1]]| + |audios[p]|
  {
    hide Apply, ApplyAll;
    assert f.inputs[2] == Video(p) && f.inputs[3] == Audio(p);
    var video, audio, ins := live[f.inputs[0]], live[f.inputs[1]], Take(live, f.inputs);
    assert ins == [video, audio, videos[p], audios[p]];
    assert EveryOther(ins, 0, 2) == [video, videos[p]] && EveryOther(ins, 1, 2) == [audio, audios[p]];
    EndToEndTwo(video, videos[p]);
    EndToEndTwo(audio, audios[p]);
  }

  lemma OneRuns(st: State, f: Filter)
    ensures Run(st, [f]) == Step(st, f)
  {
    hide Step;
    assert [f][1..] == [];
  }

  predicate Later(l: Label, p: nat) {
    (l.Video? || l.Audio?) && l.position > p
  }

  /** A junction leaves the segments after it waiting. */
  lemma WaitOn(st: State, f: Filter, videos: seq<Stream>, audios: seq<Stream>, p: nat)
    requires |videos| == |audios| && 0 < p < |videos|
    requires forall q :: p < q < |videos| ==> Waits(st.live, videos, audios, q)
    requires forall i :: 0 <= i < |f.inputs| ==> !Later(f.inputs[i], p)
    requires forall i :: 0 <= i < |f.outputs| ==> !Later(f.outputs[i], p)
    requires Step(st, f).Some? && 1 <= |f.outputs| <= 2
    ensures forall q :: p < q < |videos| ==> Waits(Step(st, f).value.live, videos, audios, q)
  {
    hide Meaning, Take, Put, Step;
    if |f.outputs| == 1 {
      OneMade(st, f);
    } else {
      TwoMade(st, f);
    }
    forall q | p < q < |videos|
      ensures Waits(Step(st, f).value.live, videos, audios, q)
    {
      assert Waits(st.live, videos, audios, q);
      assert Later(Video(q), p) && Later(Audio(q), p);
    }
  }

  lemma EndNext(lengths: seq<nat>, overlaps: seq<nat>, p: nat)
    requires |lengths| == |overlaps| + 1 && 0 < p < |lengths|
    ensures End(lengths, overlaps, p) == End(lengths, overlaps, p - 1) - overlaps[p - 1] + lengths[p]
  {
  }

  /** A hard cut always runs. */
  lemma CutFollows(st: State, videos: seq<Stream>, audios: seq<Stream>, overlaps: seq<nat>, samples: nat, p: nat,
                   t: Transition, elapsed: int)
    requires |videos| == |audios| == |overlaps| + 1 && 0 < p < |videos| && overlaps[p - 1] == 0
    requires Follows(st.live, videos, audios, overlaps, samples, p - 1)
    requires Use(LabelsOf(st), Junction(|videos|, p, t, 0, elapsed, samples)[0]).Some?
    ensures Run(st, Junction(|videos|, p, t, 0, elapsed, samples)).Some?
    ensures Follows(Run(st, Junction(|videos|, p, t, 0, elapsed, samples)).value.live, videos, audios, overlaps,
                    samples, p)
  {
    hide Step, Run, Apply, ApplyAll, EndToEnd, Use, Place, End;
    var f := Junction(|videos|, p, t, 0, elapsed, samples)[0];
    UsableRunsIff(st, f);
    CutMeans(st.live, f, videos, audios, p);
    EndNext(Lengths(videos), overlaps, p);
    EndNext(Lengths(audios), Scaled(overlaps, samples), p);
    OneRuns(st, f);
    TwoMade(st, f);
    WaitOn(st, f, videos, audios, p);
    hide Meaning, LabelSet, Waits, Take;
  }

  /** What a transition needs: the clip before it as long as counted on, and a segment that holds the overlap. */
  predicate Meets(told: seq<nat>, lengths: seq<nat>, overlaps: seq<nat>, p: nat)
    requires |told| == |lengths| == |overlaps| + 1 && 0 < p < |told|
  {
    Agree(lengths, told, p) && overlaps[p - 1] <= lengths[p]
  }

  /** The counts of a clip's segments: what join is told, and what pictures and sounds last. */
  ghost predicate Counts(told: seq<nat>, videos: seq<Stream>, audios: seq<Stream>, overlaps: seq<nat>, samples: nat) {
    && |told| == |videos| == |audios| == |overlaps| + 1 && samples > 0 && Fits(told, overlaps)
    && (forall k :: 0 <= k < |told| ==> |videos[k]| <= told[k] && |videos[k]| * samples <= |audios[k]|)
  }

  /** Where junction p enters its segment. */
  lemma OffsetIs(told: seq<nat>, overlaps: seq<nat>, p: nat)
    requires Fits(told, overlaps) && 0 < p < |told|
    ensures 0 <= Place(told, overlaps, p) && Place(told, overlaps, p) + overlaps[p - 1] == End(told, overlaps, p - 1)
  {
    PlacesAscend(told, overlaps, 0, p);
  }

  /** The numbers a crossfade of pictures compares. */
  lemma PictureMeets(told: seq<nat>, videos: seq<Stream>, audios: seq<Stream>, overlaps: seq<nat>, samples: nat, p: nat)
    requires Counts(told, videos, audios, overlaps, samples) && 0 < p < |told|
    ensures var n, reached := overlaps[p - 1], End(Lengths(videos), overlaps, p - 1);
            && 0 <= Place(told, overlaps, p) && Place(told, overlaps, p) + n == End(told, overlaps, p - 1)
            && reached <= End(told, overlaps, p - 1)
            && (reached == End(told, overlaps, p - 1) && n <= |videos[p]| <==>
                Meets(told, Lengths(videos), overlaps, p))
  {
    hide Fits, Place, End, Agree;
    OffsetIs(told, overlaps, p);
    var lengths := Lengths(videos);
    assert forall k :: 0 <= k < |told| ==> lengths[k] == |videos[k]| <= told[k];
    EndsAgree(lengths, told, overlaps, p - 1);
  }

  lemma Within(n: nat, length: int, samples: nat, sound: int)
    requires n <= length && length * samples <= sound
    ensures n * samples <= sound
  {
    ScaleAscends(n, length, samples);
  }

  /** A crossfade of sounds has what it needs if that of the pictures has. */
  lemma SoundMeets(told: seq<nat>, videos: seq<Stream>, audios: seq<Stream>, overlaps: seq<nat>, samples: nat, p: nat)
    requires Counts(told, videos, audios, overlaps, samples) && 0 < p < |told|
    requires overlaps[p - 1] <= End(Lengths(videos), overlaps, p - 1) && overlaps[p - 1] <= |videos[p]|
    ensures overlaps[p - 1] * samples <= End(Lengths(audios), Scaled(overlaps, samples), p - 1)
    ensures overlaps[p - 1] * samples <= |audios[p]|
  {
    hide Fits, Place, End;
    SoundLasts(Lengths(videos), Lengths(audios), overlaps, samples, p - 1);
    Within(overlaps[p - 1], End(Lengths(videos), overlaps, p - 1), samples,
           End(Lengths(audios), Scaled(overlaps, samples), p - 1));
    Within(overlaps[p - 1], |videos[p]|, samples, |audios[p]|);
  }

  function Mixing(told: seq<nat>, overlaps: seq<nat>, samples: nat, p: nat, t: Transition): seq<Filter>
    requires |told| == |overlaps| + 1 && 0 < p < |told|
  {
    var n := overlaps[p - 1];
    Junction(|told|, p, t, n, Place(told, overlaps, p) + n, samples)
  }

  lemma RunsTwo(st: State, f: Filter, g: Filter)
    ensures Run(st, [f, g]) == match Step(st, f) { case None => None case Some(mid) => Step(mid, g) }
  {
    hide Step;
    assert [f, g][1..] == [g] && [g][1..] == [];
    match Step(st, f) {
      case None =>
      case Some(mid) => OneRuns(mid, g);
    }
  }

  /** Between the two crossfades of a junction the new picture is there, and the sounds still wait. */
  ghost predicate HalfFollows(was: map<Label, Stream>, live: map<Label, Stream>, videos: seq<Stream>,
                              audios: seq<Stream>, overlaps: seq<nat>, p: nat)
    requires |videos| == |audios| == |overlaps| + 1 && 0 < p < |videos|
  {
    var video, audio := VideoAfter(p, |videos|), AudioAfter(p - 1, |videos|);
    && video in live && |live[video]| == End(Lengths(videos), overlaps, p)
    && audio in was && audio in live && live[audio] == was[audio]
    && Audio(p) in live && live[Audio(p)] == audios[p]
    && (forall q :: p < q < |videos| ==> Waits(live, videos, audios, q))
  }

  /** The crossfade of the pictures runs exactly when it meets the clip join counted on. */
  lemma PictureMixes(st: State, told: seq<nat>, videos: seq<Stream>, audios: seq<Stream>, overlaps: seq<nat>,
                     samples: nat, p: nat, t: Transition)
    requires Counts(told, videos, audios, overlaps, samples) && 0 < p < |told| && overlaps[p - 1] > 0
    requires Follows(st.live, videos, audios, overlaps, samples, p - 1)
    requires Use(LabelsOf(st), Mixing(told, overlaps, samples, p, t)[0]).Some?
    ensures var step := Step(st, Mixing(told, overlaps, samples, p, t)[0]);
            && (step.Some? <==> Meets(told, Lengths(videos), overlaps, p))
            && (step.Some? ==> HalfFollows(st.live, step.value.live, videos, audios, overlaps, p))
  {
    var f, n, offset := Mixing(told, overlaps, samples, p, t)[0], overlaps[p - 1], Place(told, overlaps, p);
    var video := st.live[VideoAfter(p - 1, |told|)];
    PictureMeets(told, videos, audios, overlaps, samples, p);
    EndNext(Lengths(videos), overlaps, p);
    UsableRunsIff(st, f);
    assert Waits(st.live, videos, audios, p);
    assert Take(st.live, f.inputs) == [video, videos[p]];
    hide Step, Use, Apply, ApplyAll, Counts, Place, End;
    if Step(st, f).Some? {
      OneMade(st, f);
      MixMakes(video, videos[p], n, offset, t.style);
      WaitOn(st, f, videos, audios, p);
    }
  }

  /** Then the crossfade of the sounds runs too. */
  lemma SoundMixes(st: State, mid: State, told: seq<nat>, videos: seq<Stream>, audios: seq<Stream>, overlaps: seq<nat>,
                   samples: nat, p: nat, t: Transition)
    requires Counts(told, videos, audios, overlaps, samples) && 0 < p < |told| && overlaps[p - 1] > 0
    requires Follows(st.live, videos, audios, overlaps, samples, p - 1) && Meets(told, Lengths(videos), overlaps, p)
    requires HalfFollows(st.live, mid.live, videos, audios, overlaps, p)
    requires Use(LabelsOf(mid), Mixing(told, overlaps, samples, p, t)[1]).Some?
    ensures var step := Step(mid, Mixing(told, overlaps, samples, p, t)[1]);
            step.Some? && Follows(step.value.live, videos, audios, overlaps, samples, p)
  {
    var g, n := Mixing(told, overlaps, samples, p, t)[1], overlaps[p - 1];
    var audio := st.live[AudioAfter(p - 1, |told|)];
    PictureMeets(told, videos, audios, overlaps, samples, p);
    SoundMeets(told, videos, audios, overlaps, samples, p);
    EndNext(Lengths(audios), Scaled(overlaps, samples), p);
    UsableRunsIff(mid, g);
    assert Take(mid.live, g.inputs) == [audio, audios[p]];
    hide Step, Use, Apply, ApplyAll, Counts, Place, End;
    OneMade(mid, g);
    WaitOn(mid, g, videos, audios, p);
  }

  lemma TwoFilters(told: seq<nat>, overlaps: seq<nat>, samples: nat, p: nat, t: Transition)
    requires |told| == |overlaps| + 1 && 0 < p < |told| && overlaps[p - 1] > 0
    ensures var filters := Mixing(told, overlaps, samples, p, t);
            |filters| == 2 && filters == [filters[0], filters[1]]
  {
  }

  /** A transition runs exactly when it meets the clip join counted on. */
  lemma MixFollows(st: State, told: seq<nat>, videos: seq<Stream>, audios: seq<Stream>, overlaps: seq<nat>,
                   samples: nat, p: nat, t: Transition)
    requires Counts(told, videos, audios, overlaps, samples) && 0 < p < |told| && overlaps[p - 1] > 0
    requires Follows(st.live, videos, audios, overlaps, samples, p - 1)
    requires UseAll(LabelsOf(st), Mixing(told, overlaps, samples, p, t)).Some?
    ensures var run := Run(st, Mixing(told, overlaps, samples, p, t));
            && (run.Some? <==> Meets(told, Lengths(videos), overlaps, p))
            && (run.Some? ==> Follows(run.value.live, videos, audios, overlaps, samples, p))
  {
    hide Step, Run, Use, UseAll, Fits, Follows, HalfFollows, Meets, Junction;
    var filters := Mixing(told, overlaps, samples, p, t);
    TwoFilters(told, overlaps, samples, p, t);
    var f, g := filters[0], filters[1];
    UseTwo(LabelsOf(st), f, g);
    RunsTwo(st, f, g);
    PictureMixes(st, told, videos, audios, overlaps, samples, p, t);
    if Step(st, f).Some? {
      UsableRunsIff(st, f);
      SoundMixes(st, Step(st, f).value, told, videos, audios, overlaps, samples, p, t);
    }
  }

  /** Every junction up to p with a transition meets the clip join counted on. */
  ghost predicate MeetsTo(told: seq<nat>, lengths: seq<nat>, overlaps: seq<nat>, p: nat)
    requires |told| == |lengths| == |overlaps| + 1 && p < |told|
  {
    forall k :: 0 < k <= p && overlaps[k - 1] > 0 ==> Meets(told, lengths, overlaps, k)
  }

  /** What is known of a run up to junction p: whether it got there, and with what. */
  ghost predicate RunsUpTo(st: State, filters: seq<Filter>, told: seq<nat>, videos: seq<Stream>, audios: seq<Stream>,
                         overlaps: seq<nat>, samples: nat, p: nat)
    requires |told| == |videos| == |audios| == |overlaps| + 1 && p < |told|
  {
    && (Run(st, filters).Some? <==> MeetsTo(told, Lengths(videos), overlaps, p))
    && (Run(st, filters).Some? ==>
          && Follows(Run(st, filters).value.live, videos, audios, overlaps, samples, p)
          && JoinedTo(LabelsOf(Run(st, filters).value), |told|, p))
  }

  lemma OneFilter(told: seq<nat>, overlaps: seq<nat>, samples: nat, p: nat, t: Transition)
    requires |told| == |overlaps| + 1 && 0 < p < |told| && overlaps[p - 1] == 0
    ensures var filters := Mixing(told, overlaps, samples, p, t);
            |filters| == 1 && filters == [filters[0]]
  {
  }

  /** One junction runs exactly when it is a cut, or a transition that meets the clip. */
  lemma JunctionFollows(st: State, told: seq<nat>, transitions: seq<Transition>, videos: seq<Stream>,
                        audios: seq<Stream>, overlaps: seq<nat>, samples: nat, p: nat)
    requires Counts(told, videos, audios, overlaps, samples) && |transitions| == |overlaps| && 0 < p < |told|
    requires Follows(st.live, videos, audios, overlaps, samples, p - 1) && JoinedTo(LabelsOf(st), |told|, p - 1)
    ensures var run := Run(st, Mixing(told, overlaps, samples, p, transitions[p - 1]));
            && (run.Some? <==> (overlaps[p - 1] > 0 ==> Meets(told, Lengths(videos), overlaps, p)))
            && (run.Some? ==> Follows(run.value.live, videos, audios, overlaps, samples, p))
            && (run.Some? ==> JoinedTo(LabelsOf(run.value), |told|, p))
  {
    hide Run, Use, UseAll, Fits, Follows, JoinedTo, Meets, Place;
    var t, n := transitions[p - 1], overlaps[p - 1];
    var next := JunctionUses(LabelsOf(st), |told|, p, t, n, Place(told, overlaps, p) + n, samples);
    var filters := Mixing(told, overlaps, samples, p, t);
    if n == 0 {
      OneFilter(told, overlaps, samples, p, t);
      UseOne(LabelsOf(st), filters[0]);
      CutFollows(st, videos, audios, overlaps, samples, p, t, Place(told, overlaps, p) + n);
    } else {
      MixFollows(st, told, videos, audios, overlaps, samples, p, t);
    }
    if Run(st, filters).Some? {
      RunUses(st, filters);
    }
  }

  lemma MeetsNext(told: seq<nat>, lengths: seq<nat>, overlaps: seq<nat>, p: nat)
    requires |told| == |lengths| == |overlaps| + 1 && 0 < p < |told|
    ensures MeetsTo(told, lengths, overlaps, p) <==>
              MeetsTo(told, lengths, overlaps, p - 1) && (overlaps[p - 1] > 0 ==> Meets(told, lengths, overlaps, p))
  {
    hide Meets;
  }

  lemma JunctionNext(st: State, told: seq<nat>, transitions: seq<Transition>, videos: seq<Stream>,
                     audios: seq<Stream>, overlaps: seq<nat>, samples: nat, p: nat)
    requires Counts(told, videos, audios, overlaps, samples) && |transitions| == |overlaps| && 0 < p < |told|
    requires RunsUpTo(st, Junctions(told, transitions, overlaps, samples, p - 1), told, videos, audios, overlaps,
                      samples, p - 1)
    ensures RunsUpTo(st, Junctions(told, transitions, overlaps, samples, p), told, videos, audios, overlaps, samples, p)
  {
    hide Run, Fits, Follows, JoinedTo, Meets, MeetsTo, Place, Junction, LabelsOf;
    var earlier := Junctions(told, transitions, overlaps, samples, p - 1);
    RunAppend(st, earlier, Mixing(told, overlaps, samples, p, transitions[p - 1]));
    MeetsNext(told, Lengths(videos), overlaps, p);
    if Run(st, earlier).Some? {
      JunctionFollows(Run(st, earlier).value, told, transitions, videos, audios, overlaps, samples, p);
    }
  }

  lemma NoneFollow(st: State, told: seq<nat>, transitions: seq<Transition>, videos: seq<Stream>, audios: seq<Stream>,
                   overlaps: seq<nat>, samples: nat)
    requires |told| == |videos| == |audios| == |overlaps| + 1 && |transitions| == |overlaps|
    requires Follows(st.live, videos, audios, overlaps, samples, 0) && JoinedTo(LabelsOf(st), |told|, 0)
    ensures RunsUpTo(st, Junctions(told, transitions, overlaps, samples, 0), told, videos, audios, overlaps, samples, 0)
  {
    hide Follows, JoinedTo;
  }

  /** The junctions run exactly as far as every transition meets the clip join counted on. */
  lemma {:induction false} JunctionsFollow(st: State, told: seq<nat>, transitions: seq<Transition>, videos: seq<Stream>,
                                           audios: seq<Stream>, overlaps: seq<nat>, samples: nat, p: nat)
    requires Counts(told, videos, audios, overlaps, samples) && |transitions| == |overlaps| && p < |told|
    requires Follows(st.live, videos, audios, overlaps, samples, 0) && JoinedTo(LabelsOf(st), |told|, 0)
    ensures RunsUpTo(st, Junctions(told, transitions, overlaps, samples, p), told, videos, audios, overlaps, samples, p)
  {
    hide RunsUpTo, Fits, Follows, JoinedTo, Junctions, Lengths;
    if p == 0 {
      NoneFollow(st, told, transitions, videos, audios, overlaps, samples);
    } else {
      JunctionsFollow(st, told, transitions, videos, audios, overlaps, samples, p - 1);
      JunctionNext(st, told, transitions, videos, audios, overlaps, samples, p);
    }
  }

  // ---------------------------------------------------------------------------
  // Whole graphs
  // ---------------------------------------------------------------------------

  /** The clip lasts as long as its segments do, less what they overlap, in picture and in sound. */
  ghost predicate Lasts(live: map<Label, Stream>, shots: seq<Shot>, sources: seq<Source>, transitions: seq<Transition>,
                        fps: nat)
    requires |sources| == |shots| > 0 && FitsJunctions(transitions, |shots|) && fps > 0
  {
    var samples, overlaps := SamplesPerFrame(fps), ClipOverlaps(|shots|, transitions, fps);
    && OutVideo in live && OutAudio in live
    && |live[OutVideo]| == Sum(Lengths(Videos(shots, sources, fps))) - Sum(overlaps)
    && |live[OutAudio]| == Sum(Lengths(Audios(shots, sources, samples))) - Sum(Scaled(overlaps, samples))
  }

  /** Before each transition the clip is as long as counted on, and each such overlap fits its second picture. */
  ghost predicate Joinable(shots: seq<Shot>, sources: seq<Source>, transitions: seq<Transition>, fps: nat)
    requires |sources| == |shots| > 0 && FitsJunctions(transitions, |shots|) && fps > 0
  {
    MeetsTo(ShotLengths(shots), Lengths(Videos(shots, sources, fps)), ClipOverlaps(|shots|, transitions, fps),
            |shots| - 1)
  }

  lemma HardCutsFitScaled(lengths: seq<nat>, transitions: seq<Transition>, fps: int, samples: nat)
    requires |lengths| > 0 && FitsJunctions(transitions, |lengths|) && HardCuts(transitions)
    ensures Fits(lengths, Scaled(ClipOverlaps(|lengths|, transitions, fps), samples))
  {
    HardCutsFit(lengths, transitions, fps);
    var overlaps := ClipOverlaps(|lengths|, transitions, fps);
    assert forall i :: 0 <= i < |overlaps| ==> Scaled(overlaps, samples)[i] == 0;
  }

  /** Joined by hard cuts the clip always runs. */
  lemma HardCutsRun(st: State, shots: seq<Shot>, sources: seq<Source>, transitions: seq<Transition>,
                    captions: bool, fadeIn: nat, fadeOut: nat, fps: int) returns (next: State)
    requires 0 < fps <= OUTPUT_AUDIO_RATE && |sources| == |shots| > 0
    requires FitsJunctions(transitions, |shots|) && HardCuts(transitions)
    requires Prepared(st, shots, sources, fps, SamplesPerFrame(fps), 0)
    requires fadeOut <= ClipTotal(shots, transitions, fps)
    ensures Run(st, Graph(shots, transitions, captions, fadeIn, fadeOut, fps)) == Some(next)
    ensures Delivers(next.live, Videos(shots, sources, fps), Audios(shots, sources, SamplesPerFrame(fps)), transitions,
                     captions, fadeIn, fadeOut, ClipTotal(shots, transitions, fps), fps)
    ensures Lasts(next.live, shots, sources, transitions, fps)
  {
    hide Prepared, Run, Fits, ClipOverlaps, Sum, Delivers;
    SamplesPositive(fps);
    var videos, audios := Videos(shots, sources, fps), Audios(shots, sources, SamplesPerFrame(fps));
    HardCutsFit(Lengths(videos), transitions, fps);
    HardCutsFitScaled(Lengths(audios), transitions, fps, SamplesPerFrame(fps));
    next := PartsRun(st, shots, sources, transitions, captions, fadeIn, fadeOut, fps);
    DeliversLengths(next.live, videos, audios, transitions, captions, fadeIn, fadeOut,
                    ClipTotal(shots, transitions, fps), fps);
  }

  /** Captions and fades always run once [joined] and [mixed] are there, and change no length. */
  lemma FinishOn(st: State, captions: bool, fadeIn: nat, fadeOut: nat, total: nat, samples: nat) returns (next: State)
    requires fadeOut <= total && OnlyJoined(LabelsOf(st))
    ensures Run(st, FinishFilters(captions, fadeIn, fadeOut, total, samples)) == Some(next)
    ensures OutVideo in next.live && |next.live[OutVideo]| == |st.live[Joined]|
    ensures OutAudio in next.live && |next.live[OutAudio]| == |st.live[Mixed]|
  {
    hide Run, FinishFilters, VideoFades, AudioFades, ApplyAll, Finished;
    assert Joined in st.live.Keys && Mixed in st.live.Keys;
    var video, audio := st.live[Joined], st.live[Mixed];
    assert st.live == map[Joined := video, Mixed := audio];
    next := FinishRuns(st, captions, fadeIn, fadeOut, total, samples, video, audio);
    FinishedLengths(captions, video, audio, fadeIn, fadeOut, total, samples);
  }

  lemma StartFollows(st: State, shots: seq<Shot>, sources: seq<Source>, overlaps: seq<nat>, fps: nat, samples: nat)
    requires |sources| == |shots| == |overlaps| + 1 && Prepared(st, shots, sources, fps, samples, |shots|)
    ensures Follows(st.live, Videos(shots, sources, fps), Audios(shots, sources, samples), overlaps, samples, 0)
  {
    hide SegmentVideo, SegmentAudio, Labelled;
    var videos, audios := Videos(shots, sources, fps), Audios(shots, sources, samples);
    assert Video(0) in st.live && Audio(0) in st.live;
    assert forall q :: 0 < q < |shots| ==> Video(q) in st.live && Waits(st.live, videos, audios, q);
  }

  lemma StartSegmented(st: State, shots: seq<Shot>, sources: seq<Source>, fps: nat, samples: nat)
    requires |sources| == |shots| && Prepared(st, shots, sources, fps, samples, 0)
    ensures Segmented(LabelsOf(st), shots, 0)
  {
  }

  /** The segments run, and the junctions find them waiting. */
  lemma SegmentsWait(st: State, shots: seq<Shot>, sources: seq<Source>, overlaps: seq<nat>, fps: nat, samples: nat)
    returns (prepared: State)
    requires |sources| == |shots| == |overlaps| + 1
    requires Prepared(st, shots, sources, fps, samples, 0)
    ensures Run(st, SegmentsFilters(shots, fps, samples, |shots|)) == Some(prepared)
    ensures Follows(prepared.live, Videos(shots, sources, fps), Audios(shots, sources, samples), overlaps, samples, 0)
    ensures JoinedTo(LabelsOf(prepared), |shots|, 0)
  {
    prepared := SegmentsRun(st, shots, sources, fps, samples, |shots|);
    StartFollows(prepared, shots, sources, overlaps, fps, samples);
    StartSegmented(st, shots, sources, fps, samples);
    hide Run, Prepared, Segmented, Follows, JoinedTo, SegmentsFilters, LabelsOf;
    var labels := SegmentsUse(LabelsOf(st), shots, fps, samples, |shots|);
    RunUses(st, SegmentsFilters(shots, fps, samples, |shots|));
    StartsJoined(labels, shots);
  }

  lemma SegmentCounts(shots: seq<Shot>, sources: seq<Source>, overlaps: seq<nat>, fps: nat, samples: nat)
    requires Steady(shots, sources) && samples > 0 && Fits(ShotLengths(shots), overlaps)
    ensures Counts(ShotLengths(shots), Videos(shots, sources, fps), Audios(shots, sources, samples), overlaps, samples)
  {
    SegmentsWithin(shots, sources, fps, samples);
    hide Fits, SegmentVideo, SegmentAudio, Shot.Length, Ordered;
    var videos, audios := Videos(shots, sources, fps), Audios(shots, sources, samples);
    assert forall k :: 0 <= k < |shots| ==> Lengths(videos)[k] == |videos[k]| && Lengths(audios)[k] == |audios[k]|;
  }

  lemma JoinedLasts(joined: State, videos: seq<Stream>, audios: seq<Stream>, overlaps: seq<nat>, samples: nat)
    requires |videos| == |audios| == |overlaps| + 1 > 1
    requires Follows(joined.live, videos, audios, overlaps, samples, |videos| - 1)
    ensures Joined in joined.live && Mixed in joined.live
    ensures |joined.live[Joined]| == Sum(Lengths(videos)) - Sum(overlaps)
    ensures |joined.live[Mixed]| == Sum(Lengths(audios)) - Sum(Scaled(overlaps, samples))
  {
    EndIsTotal(Lengths(videos), overlaps);
    EndIsTotal(Lengths(audios), Scaled(overlaps, samples));
  }

  /** With a transition the graph runs exactly if every transition meets the clip join counted on. */
  lemma MixedOutcome(st: State, shots: seq<Shot>, sources: seq<Source>, transitions: seq<Transition>,
                     captions: bool, fadeIn: nat, fadeOut: nat, fps: int)
    requires 0 < fps <= OUTPUT_AUDIO_RATE && Steady(shots, sources)
    requires FitsJunctions(transitions, |shots|) && !HardCuts(transitions)
    requires Prepared(st, shots, sources, fps, SamplesPerFrame(fps), 0)
    requires Fits(ShotLengths(shots), ClipOverlaps(|shots|, transitions, fps))
    requires fadeOut <= ClipTotal(shots, transitions, fps)
    ensures var run := Run(st, Graph(shots, transitions, captions, fadeIn, fadeOut, fps));
            && (run.Some? <==> Joinable(shots, sources, transitions, fps))
            && (run.Some? ==> Lasts(run.value.live, shots, sources, transitions, fps))
  {
    hide Prepared, Run, Fits, Ordered, Follows, JoinedTo, SegmentsFilters, Junctions, FinishFilters, LabelsOf, MeetsTo,
         Sum, Place, End, Counts, RoundHalfEven;
    SamplesPositive(fps);
    var samples, told, last := SamplesPerFrame(fps), ShotLengths(shots), |shots| - 1;
    var total, overlaps := ClipTotal(shots, transitions, fps), Overlaps(transitions, fps);
    var videos, audios := Videos(shots, sources, fps), Audios(shots, sources, samples);
    var segments := SegmentsFilters(shots, fps, samples, |shots|);
    var junctions := Junctions(told, transitions, overlaps, samples, last);
    var finish := FinishFilters(captions, fadeIn, fadeOut, total, samples);
    SegmentCounts(shots, sources, overlaps, fps, samples);
    var prepared := SegmentsWait(st, shots, sources, overlaps, fps, samples);
    JunctionsFollow(prepared, told, transitions, videos, audios, overlaps, samples, last);
    RunAppend(st, segments, junctions);
    RunAppend(st, segments + junctions, finish);
    if Run(prepared, junctions).Some? {
      var joined := Run(prepared, junctions).value;
      EndsJoined(LabelsOf(joined), |shots|);
      var next := FinishOn(joined, captions, fadeIn, fadeOut, total, samples);
      JoinedLasts(joined, videos, audios, overlaps, samples);
    }
  }

  /** Which graphs run, and how long what they give lasts. */
  lemma RunsIff(st: State, shots: seq<Shot>, sources: seq<Source>, transitions: seq<Transition>,
                captions: bool, fadeIn: nat, fadeOut: nat, fps: int)
    requires 0 < fps <= OUTPUT_AUDIO_RATE && Steady(shots, sources) && FitsJunctions(transitions, |shots|)
    requires Prepared(st, shots, sources, fps, SamplesPerFrame(fps), 0)
    requires Fits(ShotLengths(shots), ClipOverlaps(|shots|, transitions, fps))
    requires fadeOut <= ClipTotal(shots, transitions, fps)
    ensures var run := Run(st, Graph(shots, transitions, captions, fadeIn, fadeOut, fps));
            && (run.Some? <==> Joinable(shots, sources, transitions, fps))
            && (run.Some? ==> Lasts(run.value.live, shots, sources, transitions, fps))
  {
    if HardCuts(transitions) {
      var next := HardCutsRun(st, shots, sources, transitions, captions, fadeIn, fadeOut, fps);
      HardCutsFit(ShotLengths(shots), transitions, fps);
      hide Lasts, Run, Graph, Prepared, Meets, Fits, Sum, ClipOverlaps;
    } else {
      hide Lasts, Run, Graph, Prepared, Fits, Joinable;
      MixedOutcome(st, shots, sources, transitions, captions, fadeIn, fadeOut, fps);
    }
  }

  /**
   Whenever the graph runs, its sound is in step with its picture exactly if every picture has the frames kept
   of its segment, it lasts as long as counted on exactly if the ranges fit as well, and its sound does so
   exactly if the ranges fit.
   */
  lemma InStepIff(st: State, shots: seq<Shot>, sources: seq<Source>, transitions: seq<Transition>,
                  captions: bool, fadeIn: nat, fadeOut: nat, fps: int)
    requires 0 < fps <= OUTPUT_AUDIO_RATE && Steady(shots, sources) && FitsJunctions(transitions, |shots|)
    requires Prepared(st, shots, sources, fps, SamplesPerFrame(fps), 0)
    requires Fits(ShotLengths(shots), ClipOverlaps(|shots|, transitions, fps))
    requires fadeOut <= ClipTotal(shots, transitions, fps)
    requires Run(st, Graph(shots, transitions, captions, fadeIn, fadeOut, fps)).Some?
    ensures var live := Run(st, Graph(shots, transitions, captions, fadeIn, fadeOut, fps)).value.live;
            var samples, total := SamplesPerFrame(fps), ClipTotal(shots, transitions, fps);
            && OutVideo in live && OutAudio in live
            && (|live[OutAudio]| == |live[OutVideo]| * samples <==> AllSupplied(shots, sources, fps))
            && (|live[OutVideo]| == total <==> RangesFit(shots) && AllSupplied(shots, sources, fps))
            && (|live[OutAudio]| == total * samples <==> RangesFit(shots))
  {
    hide Run, Graph, Prepared, Fits, Sum, RangesFit, AllSupplied, ClipOverlaps, Ordered, Joinable, RoundHalfEven;
    SamplesPositive(fps);
    RunsIff(st, shots, sources, transitions, captions, fadeIn, fadeOut, fps);
    LengthsTell(shots, sources, ClipOverlaps(|shots|, transitions, fps), fps, SamplesPerFrame(fps));
  }

  /** The run gives a picture as long as the timeline join counted on. */
  ghost predicate RunsToTotal(st: State, graph: seq<Filter>, total: int) {
    && Run(st, graph).Some?
    && OutVideo in Run(st, graph).value.live
    && |Run(st, graph).value.live[OutVideo]| == total
  }

  /** The clip has the length join counted on exactly when the ranges fit and every picture has the frames kept. */
  lemma TotalIff(st: State, shots: seq<Shot>, sources: seq<Source>, transitions: seq<Transition>,
                 captions: bool, fadeIn: nat, fadeOut: nat, fps: int)
    requires 0 < fps <= OUTPUT_AUDIO_RATE && Steady(shots, sources) && FitsJunctions(transitions, |shots|)
    requires Prepared(st, shots, sources, fps, SamplesPerFrame(fps), 0)
    requires Fits(ShotLengths(shots), ClipOverlaps(|shots|, transitions, fps))
    requires fadeOut <= ClipTotal(shots, transitions, fps)
    ensures RangesFit(shots) && AllSupplied(shots, sources, fps) <==>
              RunsToTotal(st, Graph(shots, transitions, captions, fadeIn, fadeOut, fps),
                          ClipTotal(shots, transitions, fps))
  {
    hide Run, Graph, Prepared, Fits, RangesFit, AllSupplied, ClipOverlaps, ClipTotal, Ordered, ShotLengths;
    if Run(st, Graph(shots, transitions, captions, fadeIn, fadeOut, fps)).Some? {
      InStepIff(st, shots, sources, transitions, captions, fadeIn, fadeOut, fps);
    } else if RangesFit(shots) && AllSupplied(shots, sources, fps) {
      var next := CutGraphRuns(st, shots, sources, transitions, captions, fadeIn, fadeOut, fps);
    }
  }

  // ---------------------------------------------------------------------------
  // Accepted requests
  // ---------------------------------------------------------------------------

  /** The input pads and nothing else. */
  function Pads(shots: seq<Shot>, sources: seq<Source>): State
    requires |sources| == |shots|
  {
    var pads := (set p | 0 <= p < |shots| :: InVideo(p))
                + (set p | 0 <= p < |shots| && shots[p].hasAudio :: InAudio(p));
    State(map l | l in pads && (l.InVideo? || l.InAudio?) && l.position < |sources| ::
            if l.InVideo? then sources[l.position].video else sources[l.position].audio, {})
  }

  lemma PadsArePrepared(shots: seq<Shot>, sources: seq<Source>, fps: nat, samples: nat)
    requires |sources| == |shots|
    ensures Prepared(Pads(shots, sources), shots, sources, fps, samples, 0)
  {
    hide SegmentVideo, SegmentAudio;
  }

  /** Every segment ends inside its source. */
  predicate InsideSources(arguments: Arguments, summaries: seq<Summary>)
    requires Indexed(arguments, summaries)
  {
    forall p :: 0 <= p < |arguments.segments| ==>
      arguments.segments[p].end <= summaries[arguments.segments[p].input].duration
  }

  /** The segments of an accepted request that start inside their sources have ordered ranges. */
  lemma AcceptedIsSteady(arguments: Arguments, summaries: seq<Summary>, sources: seq<Source>)
    requires Accepted(arguments, summaries) && AllStart(arguments, summaries)
    requires |sources| == |arguments.segments|
    ensures Steady(Shots(arguments, summaries), sources)
  {
    var shots := Shots(arguments, summaries);
    forall p | 0 <= p < |shots|
      ensures Ordered(shots[p].ranges)
    {
      ShotIsProper(arguments, summaries, p);
    }
  }

  /** Inside their sources the segments of an accepted request all start, and their ranges all fit. */
  lemma InsideFits(arguments: Arguments, summaries: seq<Summary>)
    requires Accepted(arguments, summaries) && InsideSources(arguments, summaries)
    ensures AllStart(arguments, summaries) && RangesFit(Shots(arguments, summaries))
  {
    var shots := Shots(arguments, summaries);
    forall p | 0 <= p < |shots|
      ensures Starts(arguments, summaries, p) && EndBy(shots[p].ranges, shots[p].frames)
    {
      InsideSourcesKeepsFit(arguments, summaries, p);
    }
  }

  /** What the sources of an assembled request must have for the clip to be whole. */
  ghost predicate Whole(arguments: Arguments, summaries: seq<Summary>, sources: seq<Source>)
    requires Accepted(arguments, summaries) && |sources| == |arguments.segments|
  {
    var shots := Shots(arguments, summaries);
    RangesFit(shots) && AllSupplied(shots, sources, arguments.fps)
  }

  /**
   The graph run_cut assembles for an accepted request gives, from the input pads alone, a clip as long
   as counted on exactly when every keep range ends inside its trimmed segment and every picture has the
   frames kept of it; whenever it runs at all, its sound is in step exactly when every picture has them.
   */
  lemma AcceptedOutcome(arguments: Arguments, summaries: seq<Summary>, sources: seq<Source>)
    requires Accepted(arguments, summaries) && |sources| == |arguments.segments|
    requires CutFault(arguments, summaries).None?
    ensures var shots, fps := Shots(arguments, summaries), arguments.fps;
            var total := ClipTotal(shots, arguments.transitions, fps);
            var run := Run(Pads(shots, sources), CutGraphOf(arguments, summaries));
            && (Whole(arguments, summaries, sources) <==>
                  RunsToTotal(Pads(shots, sources), CutGraphOf(arguments, summaries), total))
            && (run.Some? <==> Joinable(shots, sources, arguments.transitions, fps))
            && (run.Some? ==> OutVideo in run.value.live && OutAudio in run.value.live)
            && (run.Some? ==> (|run.value.live[OutAudio]| == |run.value.live[OutVideo]| * SamplesPerFrame(fps)
                               <==> AllSupplied(shots, sources, fps)))
            // These are the segments, the overlaps and the length the request asks for.
            && (var overlaps := ClipOverlaps(|shots|, arguments.transitions, fps);
                AsAsked(arguments, summaries, shots, overlaps) && total == Sum(ShotLengths(shots)) - Sum(overlaps))
  {
    var shots, fps := Shots(arguments, summaries), arguments.fps;
    AcceptedIsSteady(arguments, summaries, sources);
    AcceptedIsAsAsked(arguments, summaries);
    PadsArePrepared(shots, sources, fps, SamplesPerFrame(fps));
    FadesNotNegative(arguments, fps);
    assert ClipTotal(shots, arguments.transitions, fps)
        == Sum(ShotLengths(shots)) - Sum(ClipOverlaps(|shots|, arguments.transitions, fps));
    hide Prepared, RangesFit, AllSupplied, Fits, ClipTotal, ClipOverlaps, FadeFrames, Graph, RunsToTotal, AllStart, Run,
         Joinable, Steady, AsAsked;
    var fadeIn, fadeOut := FadeFrames(arguments.fadeIn, fps), FadeFrames(arguments.fadeOut, fps);
    TotalIff(Pads(shots, sources), shots, sources, arguments.transitions, arguments.captions, fadeIn, fadeOut, fps);
    RunsIff(Pads(shots, sources), shots, sources, arguments.transitions, arguments.captions, fadeIn, fadeOut, fps);
    if Run(Pads(shots, sources), CutGraphOf(arguments, summaries)).Some? {
      InStepIff(Pads(shots, sources), shots, sources, arguments.transitions, arguments.captions, fadeIn, fadeOut, fps);
    }
  }

  /** A request whose segments end inside their sources, and whose pictures last, gives the whole clip, in step. */
  lemma AcceptedClipRuns(arguments: Arguments, summaries: seq<Summary>, sources: seq<Source>) returns (next: State)
    requires Accepted(arguments, summaries) && |sources| == |arguments.segments|
    requires InsideSources(arguments, summaries) && CutFault(arguments, summaries).None?
    requires AllSupplied(Shots(arguments, summaries), sources, arguments.fps)
    ensures Run(Pads(Shots(arguments, summaries), sources), CutGraphOf(arguments, summaries)) == Some(next)
    ensures var shots, fps := Shots(arguments, summaries), arguments.fps;
            var total := ClipTotal(shots, arguments.transitions, fps);
            var fadeIn, fadeOut := FadeFrames(arguments.fadeIn, fps), FadeFrames(arguments.fadeOut, fps);
            && SamplesPerFrame(fps) > 0 && fadeIn >= 0 && 0 <= fadeOut <= total
            && Delivers(next.live, Videos(shots, sources, fps), Audios(shots, sources, SamplesPerFrame(fps)),
                        arguments.transitions, arguments.captions, fadeIn, fadeOut, total, fps)
            && |next.live[OutVideo]| == total && |next.live[OutAudio]| == total * SamplesPerFrame(fps)
  {
    var shots, fps := Shots(arguments, summaries), arguments.fps;
    InsideFits(arguments, summaries);
    AcceptedIsSteady(arguments, summaries, sources);
    PadsArePrepared(shots, sources, fps, SamplesPerFrame(fps));
    FadesNotNegative(arguments, fps);
    SamplesPositive(fps);
    hide Prepared, RangesFit, AllSupplied, Fits, ClipTotal, ClipOverlaps, FadeFrames, Graph, AllStart,
         ClipVideo, ClipAudio, Finished, Run, Steady;
    next := CutGraphRuns(Pads(shots, sources), shots, sources, arguments.transitions, arguments.captions,
                         FadeFrames(arguments.fadeIn, fps), FadeFrames(arguments.fadeOut, fps), fps);
  }

  // ---------------------------------------------------------------------------
  // Accepted requests whose clips fall short
  // ---------------------------------------------------------------------------

  /** So many frames and no sound. */
  function Film(frames: nat): seq<Source> {
    [Source(seq(frames, i requires 0 <= i < frames => Raw(0, i)), [])]
  }

  /** One segment is assembled whatever it keeps. */
  lemma OneIsAssembled(arguments: Arguments, summaries: seq<Summary>)
    requires Accepted(arguments, summaries) && |arguments.segments| == 1 && arguments.transitions == []
    requires arguments.fadeIn == arguments.fadeOut == 0 && Starts(arguments, summaries, 0)
    ensures CutFault(arguments, summaries).None?
    ensures ClipTotal(Shots(arguments, summaries), [], arguments.fps) == ShotOf(arguments, summaries, 0).Length()
  {
    var lengths := ShotLengths(Shots(arguments, summaries));
    assert lengths == [ShotOf(arguments, summaries, 0).Length()];
    assert Sum(lengths[1..]) == 0;
  }

  /** The request whose source ends before its keep range does is assembled, and gives less than it counts on. */
  lemma ClampedClipIsShort()
    ensures Accepted(CLAMPED, [Summary(1000, true)]) && CutFault(CLAMPED, [Summary(1000, true)]).None?
    ensures var shots := Shots(CLAMPED, [Summary(1000, true)]);
            !RunsToTotal(Pads(shots, Film(24)), CutGraphOf(CLAMPED, [Summary(1000, true)]),
                         ClipTotal(shots, [], CLAMPED.fps))
  {
    ClampedKeepOverstates();
    var shots := Shots(CLAMPED, [Summary(1000, true)]);
    OneIsAssembled(CLAMPED, [Summary(1000, true)]);
    JoinLengthIsRealIff(shots[0]);
    hide Accepted, CutFault, RunsToTotal, CutGraphOf, ClipTotal, Joinable, Run, Supplied, EndBy, RealLength,
         Shot.Length;
    AcceptedOutcome(CLAMPED, [Summary(1000, true)], Film(24));
  }

  /** Ten seconds of a source whose sound lasts that long and whose picture lasts five, at 24 frames a second. */
  const OUTLASTED := Arguments([Segment(0, 0, 10000)], 24, [], false, [], 0, 0)

  lemma OutlastedIsAccepted()
    ensures Accepted(OUTLASTED, [Summary(10000, true)]) && InsideSources(OUTLASTED, [Summary(10000, true)])
  {
    assert Inputs(OUTLASTED.segments) == {0} by {
      assert OUTLASTED.segments[0].input == 0;
    }
    assert Numbered(1) == {0};
    assert ValidCut(OUTLASTED, Offered({}, {}));
  }

  lemma OutlastedLengths(shot: Shot)
    requires shot == Shot(true, 240, [])
    ensures |SegmentVideo(Film(120)[0], shot, 24)| == 144 && |SegmentAudio(Film(120)[0], shot, 2000)| == 240 * 2000
    ensures !Supplied(Film(120)[0], shot, 24)
  {
    VideoLength(Film(120)[0], shot, 24);
    AudioLength(Film(120)[0], shot, 2000);
  }

  /**
   It is inside its source and assembled, and its picture falls four seconds short of its sound: tpad adds no
   more than one.
   */
  lemma OutlastedClipIsOutOfStep()
    ensures Accepted(OUTLASTED, [Summary(10000, true)]) && InsideSources(OUTLASTED, [Summary(10000, true)])
    ensures CutFault(OUTLASTED, [Summary(10000, true)]).None?
    ensures var shots := Shots(OUTLASTED, [Summary(10000, true)]);
            var run := Run(Pads(shots, Film(120)), CutGraphOf(OUTLASTED, [Summary(10000, true)]));
            && RangesFit(shots)
            && |SegmentVideo(Film(120)[0], shots[0], 24)| == 144
            && |SegmentAudio(Film(120)[0], shots[0], 2000)| == 240 * 2000
            && run.Some? && OutVideo in run.value.live && OutAudio in run.value.live
            && |run.value.live[OutAudio]| != |run.value.live[OutVideo]| * SamplesPerFrame(24)
            && !RunsToTotal(Pads(shots, Film(120)), CutGraphOf(OUTLASTED, [Summary(10000, true)]),
                            ClipTotal(shots, [], OUTLASTED.fps))
  {
    OutlastedIsAccepted();
    InsideFits(OUTLASTED, [Summary(10000, true)]);
    OneIsAssembled(OUTLASTED, [Summary(10000, true)]);
    var shots := Shots(OUTLASTED, [Summary(10000, true)]);
    OutlastedLengths(shots[0]);
    hide Accepted, CutFault, RunsToTotal, CutGraphOf, ClipTotal, Run, Supplied, EndBy, Ordered, SegmentVideo,
         SegmentAudio;
    AcceptedOutcome(OUTLASTED, [Summary(10000, true)], Film(120));
  }
}
