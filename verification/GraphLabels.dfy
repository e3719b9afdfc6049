/**
 The label discipline of the filter graph alone, whatever the streams behind the labels hold: it also
 covers the requests whose keep ranges or sources fall short.
 */
module GraphLabels {
  import opened Wrappers
  import opened Ffmpeg
  import opened FilterGraph
  import opened Timeline
  import opened Transitions
  import opened Cut
  import CutGraph

  /** The labels waiting to be consumed, and every label produced so far. */
  datatype Labels = Labels(waiting: set<Label>, made: set<Label>)

  function Use(labels: Labels, f: Filter): Option<Labels> {
    if !(LabelSet(f.inputs) <= labels.waiting) || !(LabelSet(f.outputs) !! labels.made) then None
    else if !Distinct(f.inputs) || !Distinct(f.outputs) then None
    else Some(Labels(labels.waiting - LabelSet(f.inputs) + LabelSet(f.outputs), labels.made + LabelSet(f.outputs)))
  }

  function UseAll(labels: Labels, filters: seq<Filter>): Option<Labels> {
    if filters == [] then Some(labels)
    else
      match UseAll(labels, filters[..|filters| - 1])
      case None => None
      case Some(before) => Use(before, filters[|filters| - 1])
  }

  // ---------------------------------------------------------------------------
  // Runs of filters
  // ---------------------------------------------------------------------------

  lemma {:induction false} UseAppend(labels: Labels, first: seq<Filter>, second: seq<Filter>)
    ensures UseAll(labels, first + second) ==
            match UseAll(labels, first) { case None => None case Some(mid) => UseAll(mid, second) }
  {
    if second == [] {
      assert first + second == first;
    } else {
      var last := |second| - 1;
      UseAppend(labels, first, second[..last]);
      assert (first + second)[..|first + second| - 1] == first + second[..last];
    }
  }

  lemma UseBoth(labels: Labels, first: seq<Filter>, mid: Labels, second: seq<Filter>, next: Labels)
    requires UseAll(labels, first) == Some(mid) && UseAll(mid, second) == Some(next)
    ensures UseAll(labels, first + second) == Some(next)
  {
    UseAppend(labels, first, second);
  }

  lemma UseOne(labels: Labels, f: Filter)
    ensures UseAll(labels, [f]) == Use(labels, f)
  {
    assert [f][..0] == [];
  }

  lemma UseTwo(labels: Labels, f: Filter, g: Filter)
    ensures UseAll(labels, [f, g]) == match Use(labels, f) { case None => None case Some(mid) => Use(mid, g) }
  {
    UseOne(labels, f);
    assert [f, g][..1] == [f];
  }

  lemma OneLabel(l: Label)
    ensures LabelSet([l]) == {l} && Distinct([l])
  {
    assert [l][0] == l;
  }

  lemma TwoLabels(k: Label, l: Label)
    ensures LabelSet([k, l]) == {k, l} && (k != l ==> Distinct([k, l]))
  {
    assert [k, l][0] == k && [k, l][1] == l;
  }

  lemma FourLabels(a: Label, b: Label, c: Label, d: Label)
    requires a != b && a != c && a != d && b != c && b != d && c != d
    ensures LabelSet([a, b, c, d]) == {a, b, c, d} && Distinct([a, b, c, d])
  {
    var s := [a, b, c, d];
    assert s[0] == a && s[1] == b && s[2] == c && s[3] == d;
  }

  lemma {:induction false} PutKeys(live: map<Label, Stream>, labels: seq<Label>, streams: seq<Stream>)
    requires |labels| == |streams|
    ensures Put(live, labels, streams).Keys == live.Keys + LabelSet(labels)
    decreases |labels|
  {
    if labels != [] {
      PutKeys(live[labels[0] := streams[0]], labels[1..], streams[1..]);
      assert labels == [labels[0]] + labels[1..];
      assert LabelSet(labels) == {labels[0]} + LabelSet(labels[1..]) by {
        forall l | l in LabelSet(labels)
          ensures l in {labels[0]} + LabelSet(labels[1..])
        {
          var i :| 0 <= i < |labels| && labels[i] == l;
          assert i > 0 ==> labels[1..][i - 1] == l;
        }
        assert forall i :: 0 <= i < |labels| - 1 ==> labels[1..][i] == labels[i + 1];
      }
    }
  }

  /** Whatever a graph does with streams, it does with their labels. */
  lemma StepUses(st: State, f: Filter)
    requires Step(st, f).Some?
    ensures var next := Step(st, f).value;
            Use(Labels(st.live.Keys, st.made), f) == Some(Labels(next.live.Keys, next.made))
  {
    var streams := Meaning(f.op, Take(st.live, f.inputs)).value;
    PutKeys(st.live - LabelSet(f.inputs), f.outputs, streams);
  }

  // ---------------------------------------------------------------------------
  // The parts of the graph
  // ---------------------------------------------------------------------------

  /** The pads from n on still wait, and the segments before n have made their labels. */
  ghost predicate Segmented(labels: Labels, shots: seq<Shot>, n: nat) {
    && (forall l :: l in labels.waiting <==> CutGraph.Pad(l, shots, n) || CutGraph.SegmentMade(l, n))
    && (forall l :: l in labels.made <==> CutGraph.SegmentMade(l, n))
  }

  lemma SegmentUses(labels: Labels, shots: seq<Shot>, fps: nat, samples: nat, p: nat) returns (next: Labels)
    requires p < |shots| && Segmented(labels, shots, p)
    ensures UseAll(labels, SegmentFilters(p, shots[p], fps, samples)) == Some(next)
    ensures Segmented(next, shots, p + 1)
  {
    hide VideoNodes, AudioNodes, UseAll;
    var filters := SegmentFilters(p, shots[p], fps, samples);
    UseTwo(labels, filters[0], filters[1]);
    OneLabel(InVideo(p));
    OneLabel(InAudio(p));
    OneLabel(Video(p));
    OneLabel(Audio(p));
    assert InVideo(p) in labels.waiting;
    var mid := Use(labels, filters[0]).value;
    assert shots[p].hasAudio ==> InAudio(p) in mid.waiting;
    next := Use(mid, filters[1]).value;
  }

  lemma {:induction false} SegmentsUse(labels: Labels, shots: seq<Shot>, fps: nat, samples: nat, n: nat)
    returns (next: Labels)
    requires n <= |shots| && Segmented(labels, shots, 0)
    ensures UseAll(labels, SegmentsFilters(shots, fps, samples, n)) == Some(next)
    ensures Segmented(next, shots, n)
  {
    if n == 0 {
      next := labels;
    } else {
      hide UseAll, Segmented, SegmentFilters;
      var mid := SegmentsUse(labels, shots, fps, samples, n - 1);
      next := SegmentUses(mid, shots, fps, samples, n - 1);
      UseBoth(labels, SegmentsFilters(shots, fps, samples, n - 1), mid,
              SegmentFilters(n - 1, shots[n - 1], fps, samples), next);
    }
  }

  predicate JunctionMade(l: Label, count: nat, p: nat) {
    || ((l.JoinedVideo? || l.JoinedAudio?) && 0 < l.position <= p && l.position < count - 1)
    || ((l.Joined? || l.Mixed?) && 0 < p == count - 1)
  }

  /** After junction p the clip so far waits, with the segments still to come. */
  ghost predicate JoinedTo(labels: Labels, count: nat, p: nat) {
    && (forall l :: l in labels.waiting <==>
          || l == VideoAfter(p, count) || l == AudioAfter(p, count)
          || ((l.Video? || l.Audio?) && p < l.position < count))
    && (forall l :: l in labels.made <==> CutGraph.SegmentMade(l, count) || JunctionMade(l, count, p))
  }

  lemma JoinedNext(labels: Labels, next: Labels, count: nat, p: nat)
    requires 0 < p < count && JoinedTo(labels, count, p - 1)
    requires next.waiting == labels.waiting - {VideoAfter(p - 1, count), AudioAfter(p - 1, count), Video(p), Audio(p)}
                             + {VideoAfter(p, count), AudioAfter(p, count)}
    requires next.made == labels.made + {VideoAfter(p, count), AudioAfter(p, count)}
    ensures JoinedTo(next, count, p)
  {
  }

  /** What junction p consumes waits, and what it makes is new. */
  lemma JunctionLabels(labels: Labels, count: nat, p: nat)
    requires 0 < p < count && JoinedTo(labels, count, p - 1)
    ensures {VideoAfter(p - 1, count), AudioAfter(p - 1, count), Video(p), Audio(p)} <= labels.waiting
    ensures {VideoAfter(p, count), AudioAfter(p, count)} !! labels.made
    ensures {VideoAfter(p, count), AudioAfter(p, count)} !! labels.waiting
    ensures VideoAfter(p, count) != AudioAfter(p, count)
    ensures VideoAfter(p - 1, count) != AudioAfter(p - 1, count)
    ensures {VideoAfter(p - 1, count), AudioAfter(p - 1, count)} !! {Video(p), Audio(p)}
  {
  }

  lemma MixUses(labels: Labels, f: Filter, g: Filter, next: Labels)
    requires Distinct(f.inputs) && Distinct(f.outputs) && Distinct(g.inputs) && Distinct(g.outputs)
    requires LabelSet(f.inputs) + LabelSet(g.inputs) <= labels.waiting && LabelSet(f.inputs) !! LabelSet(g.inputs)
    requires LabelSet(f.outputs) !! LabelSet(g.outputs)
    requires LabelSet(f.outputs) + LabelSet(g.outputs) !! labels.made
    requires LabelSet(f.outputs) + LabelSet(g.outputs) !! labels.waiting
    requires next.waiting == labels.waiting - (LabelSet(f.inputs) + LabelSet(g.inputs))
                             + (LabelSet(f.outputs) + LabelSet(g.outputs))
    requires next.made == labels.made + (LabelSet(f.outputs) + LabelSet(g.outputs))
    ensures Use(labels, f).Some? && Use(Use(labels, f).value, g) == Some(next)
  {
    hide Distinct, LabelSet;
    var mid := Use(labels, f).value;
    assert mid.waiting - LabelSet(g.inputs) + LabelSet(g.outputs) == next.waiting;
    assert mid.made + LabelSet(g.outputs) == next.made;
  }

  lemma JunctionUses(labels: Labels, count: nat, p: nat, t: Transition, overlap: nat, elapsed: int, samples: nat)
    returns (next: Labels)
    requires 0 < p < count && JoinedTo(labels, count, p - 1)
    ensures UseAll(labels, Junction(count, p, t, overlap, elapsed, samples)) == Some(next)
    ensures JoinedTo(next, count, p)
  {
    hide UseAll, JoinedTo, VideoAfter, AudioAfter;
    var filters := Junction(count, p, t, overlap, elapsed, samples);
    var video, audio := VideoAfter(p - 1, count), AudioAfter(p - 1, count);
    var joinedVideo, joinedAudio := VideoAfter(p, count), AudioAfter(p, count);
    JunctionLabels(labels, count, p);
    next := Labels(labels.waiting - {video, audio, Video(p), Audio(p)} + {joinedVideo, joinedAudio},
                   labels.made + {joinedVideo, joinedAudio});
    JoinedNext(labels, next, count, p);
    if overlap == 0 {
      TwoLabels(joinedVideo, joinedAudio);
      FourLabels(video, audio, Video(p), Audio(p));
      UseOne(labels, filters[0]);
    } else {
      TwoLabels(video, Video(p));
      TwoLabels(audio, Audio(p));
      OneLabel(joinedVideo);
      OneLabel(joinedAudio);
      UseTwo(labels, filters[0], filters[1]);
      MixUses(labels, filters[0], filters[1], next);
    }
  }

  lemma NextJunctionUses(labels: Labels, mid: Labels, lengths: seq<nat>, transitions: seq<Transition>,
                         overlaps: seq<nat>, samples: nat, p: nat) returns (next: Labels)
    requires 0 < p < |lengths| && |transitions| == |overlaps| == |lengths| - 1 && JoinedTo(mid, |lengths|, p - 1)
    requires UseAll(labels, Junctions(lengths, transitions, overlaps, samples, p - 1)) == Some(mid)
    ensures UseAll(labels, Junctions(lengths, transitions, overlaps, samples, p)) == Some(next)
    ensures JoinedTo(next, |lengths|, p)
  {
    hide UseAll, JoinedTo, Junction, Junctions, End, Place;
    JunctionsNext(lengths, transitions, overlaps, samples, p);
    var t, overlap, elapsed := transitions[p - 1], overlaps[p - 1], End(lengths, overlaps, p - 1);
    next := JunctionUses(mid, |lengths|, p, t, overlap, elapsed, samples);
    UseBoth(labels, Junctions(lengths, transitions, overlaps, samples, p - 1), mid,
            Junction(|lengths|, p, t, overlap, elapsed, samples), next);
  }

  lemma {:induction false} JunctionsUse(labels: Labels, lengths: seq<nat>, transitions: seq<Transition>,
                                        overlaps: seq<nat>, samples: nat, p: nat) returns (next: Labels)
    requires p < |lengths| && |transitions| == |overlaps| == |lengths| - 1 && JoinedTo(labels, |lengths|, 0)
    ensures UseAll(labels, Junctions(lengths, transitions, overlaps, samples, p)) == Some(next)
    ensures JoinedTo(next, |lengths|, p)
  {
    if p == 0 {
      next := labels;
    } else {
      hide UseAll, JoinedTo, Junctions;
      var mid := JunctionsUse(labels, lengths, transitions, overlaps, samples, p - 1);
      next := NextJunctionUses(labels, mid, lengths, transitions, overlaps, samples, p);
    }
  }

  /** Only [joined] and [mixed] wait, and the labels of the end are still new. */
  ghost predicate OnlyJoined(labels: Labels) {
    && labels.waiting == {Joined, Mixed}
    && labels.made !! {CaptionedVideo, OutVideo, OutAudio}
  }

  lemma PairLabels(count: nat)
    ensures Distinct(Pairs(count))
    ensures forall l :: l in LabelSet(Pairs(count)) <==> CutGraph.SegmentMade(l, count)
  {
    forall l | CutGraph.SegmentMade(l, count)
      ensures l in LabelSet(Pairs(count))
    {
      var i := 2 * l.position + if l.Video? then 0 else 1;
      assert Pairs(count)[i] == l;
    }
  }

  lemma ConcatUses(labels: Labels, shots: seq<Shot>) returns (next: Labels)
    requires |shots| > 0 && Segmented(labels, shots, |shots|)
    ensures UseAll(labels, [Filter(Pairs(|shots|), Concat(|shots|), [Joined, Mixed])]) == Some(next)
    ensures OnlyJoined(next)
  {
    hide UseAll, Pairs;
    var f := Filter(Pairs(|shots|), Concat(|shots|), [Joined, Mixed]);
    UseOne(labels, f);
    PairLabels(|shots|);
    TwoLabels(Joined, Mixed);
    next := Use(labels, f).value;
  }

  lemma StartsJoined(labels: Labels, shots: seq<Shot>)
    requires |shots| > 0 && Segmented(labels, shots, |shots|)
    ensures JoinedTo(labels, |shots|, 0)
  {
  }

  lemma EndsJoined(labels: Labels, count: nat)
    requires count > 1 && JoinedTo(labels, count, count - 1)
    ensures OnlyJoined(labels)
  {
  }

  lemma JoinUses(labels: Labels, shots: seq<Shot>, lengths: seq<nat>, transitions: seq<Transition>, fps: int)
    returns (next: Labels)
    requires |shots| == |lengths| > 0 && FitsJunctions(transitions, |lengths|) && fps > 0
    requires Segmented(labels, shots, |shots|)
    ensures UseAll(labels, JoinFilters(lengths, transitions, fps)) == Some(next)
    ensures OnlyJoined(next)
  {
    hide UseAll;
    if HardCuts(transitions) {
      next := ConcatUses(labels, shots);
    } else {
      hide Junctions, VideoAfter, AudioAfter, JoinedTo, Segmented;
      StartsJoined(labels, shots);
      next := JunctionsUse(labels, lengths, transitions, Overlaps(transitions, fps), SamplesPerFrame(fps), |shots| - 1);
      EndsJoined(next, |shots|);
    }
  }

  lemma FinishUses(labels: Labels, captions: bool, fadeIn: nat, fadeOut: nat, total: nat, samples: nat)
    returns (next: Labels)
    requires fadeOut <= total && OnlyJoined(labels)
    ensures UseAll(labels, FinishFilters(captions, fadeIn, fadeOut, total, samples)) == Some(next)
    ensures next.waiting == {OutVideo, OutAudio}
  {
    hide UseAll, VideoFades, AudioFades;
    OneLabel(Joined);
    OneLabel(Mixed);
    OneLabel(CaptionedVideo);
    OneLabel(OutVideo);
    OneLabel(OutAudio);
    var video, mid := Joined, labels;
    if captions {
      var f := Filter([Joined], Chain([Ass]), [CaptionedVideo]);
      UseOne(labels, f);
      UseAppend(labels, [f], FadeFilters(CaptionedVideo, fadeIn, fadeOut, total, samples));
      video, mid := CaptionedVideo, Use(labels, f).value;
    }
    var fades := FadeFilters(video, fadeIn, fadeOut, total, samples);
    UseTwo(mid, fades[0], fades[1]);
    next := Use(Use(mid, fades[0]).value, fades[1]).value;
  }

  /**
   The graph of any request, from the input pads alone, makes every label once before using it and uses
   it once, and leaves only [v] and [a], however long the streams really are.
   */
  lemma LabelsUsedOnce(labels: Labels, shots: seq<Shot>, transitions: seq<Transition>, captions: bool,
                       fadeIn: nat, fadeOut: nat, fps: int) returns (next: Labels)
    requires fps > 0 && |shots| > 0 && FitsJunctions(transitions, |shots|)
    requires fadeOut <= ClipTotal(shots, transitions, fps)
    requires Segmented(labels, shots, 0)
    ensures UseAll(labels, Graph(shots, transitions, captions, fadeIn, fadeOut, fps)) == Some(next)
    ensures next.waiting == {OutVideo, OutAudio}
  {
    hide UseAll, Segmented, OnlyJoined, ClipTotal, SegmentsFilters, JoinFilters, FinishFilters;
    var samples, total := SamplesPerFrame(fps), ClipTotal(shots, transitions, fps);
    var segments := SegmentsFilters(shots, fps, samples, |shots|);
    var joins := JoinFilters(ShotLengths(shots), transitions, fps);
    var made := SegmentsUse(labels, shots, fps, samples, |shots|);
    var joined := JoinUses(made, shots, ShotLengths(shots), transitions, fps);
    next := FinishUses(joined, captions, fadeIn, fadeOut, total, samples);
    UseBoth(labels, segments, made, joins, joined);
    UseBoth(labels, segments + joins, joined, FinishFilters(captions, fadeIn, fadeOut, total, samples), next);
  }
}
