/** What the streams of the clip show: the same source frame in picture and in sound, and the fades around them. */
module ClipContent {
  import opened Wrappers
  import opened Numbers
  import opened Ffmpeg
  import opened FilterGraph
  import opened Timeline
  import opened Transitions
  import opened Keep
  import opened Cut
  import opened JoinGraph
  import opened CutGraph
  import opened ClipOutcome

  /** The frames among the first n that the ranges choose. */
  function ChosenFrames(ranges: seq<Range>, n: nat): (r: seq<nat>)
    ensures forall k :: 0 <= k < |r| ==> r[k] < n && Chosen(ranges, r[k])
    ensures forall k, m :: 0 <= k < m < |r| ==> r[k] < r[m]
  {
    if n == 0 then []
    else ChosenFrames(ranges, n - 1) + if Chosen(ranges, n - 1) then [n - 1] else []
  }

  /** The frames shown of the first n: those the ranges choose, or every one. */
  function ShownFrames(ranges: seq<Range>, n: nat): (r: seq<nat>)
    ensures forall k :: 0 <= k < |r| ==> r[k] < n
  {
    if ranges == [] then seq(n, i => i) else ChosenFrames(ranges, n)
  }

  lemma {:induction false} ChosenFramesAre(ranges: seq<Range>, n: nat, f: nat)
    ensures f in ChosenFrames(ranges, n) <==> f < n && Chosen(ranges, f)
  {
    if n > 0 {
      ChosenFramesAre(ranges, n - 1, f);
    }
  }

  /** Of fewer frames the first ones are shown. */
  lemma {:induction false} ShownIsPrefix(ranges: seq<Range>, n: nat, m: nat)
    requires n <= m
    ensures ShownFrames(ranges, n) <= ShownFrames(ranges, m)
    decreases m
  {
    if n < m && ranges != [] {
      ShownIsPrefix(ranges, n, m - 1);
    }
  }

  predicate SameCell(a: Stream, b: Stream, frames: seq<nat>, piece: nat, k: nat, j: nat)
    requires k < |frames|
  {
    var to, from := Cells(k, piece) + j, Cells(frames[k], piece) + j;
    to < |a| && from < |b| && a[to] == b[from]
  }

  /** Cells k * piece and on of a are cells frames[k] * piece and on of b. */
  ghost predicate Pieces(a: Stream, b: Stream, frames: seq<nat>, piece: nat) {
    && |a| == Cells(|frames|, piece)
    && forall k, j :: 0 <= k < |frames| && 0 <= j < piece ==> SameCell(a, b, frames, piece, k, j)
  }

  lemma CellsNext(f: nat, piece: nat)
    ensures Cells(f + 1, piece) == Cells(f, piece) + piece
  {
  }

  lemma CellsAscend(f: nat, g: nat, piece: nat)
    requires f <= g
    ensures Cells(f, piece) <= Cells(g, piece)
  {
    ScaleAscends(f, g, piece);
  }

  /** Cell j of a piece is in the piece's frame. */
  lemma CellIsInFrame(f: nat, j: nat, piece: nat)
    requires j < piece
    ensures (Cells(f, piece) + j) / piece == f
  {
    PieceOf(Cells(f, piece) + j, piece, f);
    PieceOf(Cells(f, piece) + j, piece, f + 1);
    CellsNext(f, piece);
  }

  /** Within one frame, all cells are kept or none is. */
  lemma {:induction false} KeptWithinFrame(s: Stream, piece: nat, ranges: seq<Range>, f: nat, j: nat)
    requires piece > 0 && j <= piece && Cells(f, piece) + j <= |s|
    ensures Kept(s, piece, ranges, Cells(f, piece) + j) ==
            Kept(s, piece, ranges, Cells(f, piece))
            + if Chosen(ranges, f) then s[Cells(f, piece)..Cells(f, piece) + j] else []
  {
    if j > 0 {
      KeptWithinFrame(s, piece, ranges, f, j - 1);
      CellIsInFrame(f, j - 1, piece);
      var start := Cells(f, piece);
      assert s[start..start + j] == s[start..start + (j - 1)] + [s[start + (j - 1)]];
      hide Cells, Chosen;
    }
  }

  lemma PiecesNext(a: Stream, b: Stream, frames: seq<nat>, piece: nat, f: nat)
    requires Pieces(a, b, frames, piece) && Cells(f, piece) + piece <= |b|
    ensures Pieces(a + b[Cells(f, piece)..Cells(f, piece) + piece], b, frames + [f], piece)
  {
    var longer, more := a + b[Cells(f, piece)..Cells(f, piece) + piece], frames + [f];
    CellsNext(|frames|, piece);
    forall k, j | 0 <= k < |more| && 0 <= j < piece
      ensures SameCell(longer, b, more, piece, k, j)
    {
      if k < |frames| {
        assert SameCell(a, b, frames, piece, k, j);
        hide Cells;
      } else {
        hide Cells;
      }
    }
  }

  lemma KeptPiecesNext(s: Stream, piece: nat, ranges: seq<Range>, f: nat)
    requires piece > 0 && Cells(f, piece) + piece == Cells(f + 1, piece) <= |s|
    requires Pieces(Kept(s, piece, ranges, Cells(f, piece)), s, ChosenFrames(ranges, f), piece)
    ensures Pieces(Kept(s, piece, ranges, Cells(f + 1, piece)), s, ChosenFrames(ranges, f + 1), piece)
  {
    hide Kept, Pieces, Cells, Chosen;
    var kept := Kept(s, piece, ranges, Cells(f, piece));
    KeptWithinFrame(s, piece, ranges, f, piece);
    if Chosen(ranges, f) {
      PiecesNext(kept, s, ChosenFrames(ranges, f), piece, f);
    } else {
      assert kept + [] == kept;
      assert ChosenFrames(ranges, f) + [] == ChosenFrames(ranges, f);
    }
  }

  /** select and aselect keep the same frames, whole, in order. */
  lemma {:induction false} KeptPieces(s: Stream, piece: nat, ranges: seq<Range>, n: nat)
    requires piece > 0 && Cells(n, piece) <= |s|
    ensures Pieces(Kept(s, piece, ranges, Cells(n, piece)), s, ChosenFrames(ranges, n), piece)
  {
    if n == 0 {
      assert ChosenFrames(ranges, 0) == [];
    } else {
      CellsNext(n - 1, piece);
      KeptPieces(s, piece, ranges, n - 1);
      KeptPiecesNext(s, piece, ranges, n - 1);
    }
  }

  // ---------------------------------------------------------------------------
  // Segments
  // ---------------------------------------------------------------------------

  /** The frames the picture of the trimmed segment has: the source's, its last one repeated for at most a second. */
  function Picture(source: Source, shot: Shot, fps: nat): Stream {
    var n := Pictured(source, shot, fps);
    seq(n, i requires 0 <= i < n => source.video[Min(i, |source.video| - 1)])
  }

  /** The samples of the trimmed segment: the source's, silent past their end. */
  function Samples(source: Source, shot: Shot, samples: nat): Stream {
    seq(Cells(shot.frames, samples), i requires 0 <= i < Cells(shot.frames, samples) =>
      if shot.hasAudio && i < |source.audio| then source.audio[i] else Silence)
  }

  lemma AllPieces(s: Stream, frames: nat, piece: nat)
    requires |s| == Cells(frames, piece)
    ensures Pieces(s, s, seq(frames, i => i), piece)
  {
    var all := seq(frames, i => i);
    forall k, j | 0 <= k < frames && 0 <= j < piece
      ensures SameCell(s, s, all, piece, k, j)
    {
      CellsNext(k, piece);
      CellsAscend(k + 1, frames, piece);
    }
  }

  /** What the last node of a segment's chain shows of so many frames. */
  lemma KeptShows(s: Stream, ranges: seq<Range>, frames: nat, piece: nat)
    requires piece > 0 && |s| == Cells(frames, piece)
    ensures var kept := ApplyAll(if ranges == [] then [] else [Select(piece, ranges)], s);
            Pieces(kept, s, ShownFrames(ranges, frames), piece)
  {
    if ranges == [] {
      AllPieces(s, frames, piece);
    } else {
      assert [Select(piece, ranges)][1..] == [];
      assert ApplyAll([Select(piece, ranges)], s) == Kept(s, piece, ranges, |s|);
      KeptPieces(s, piece, ranges, frames);
    }
  }

  lemma PictureShows(source: Source, shot: Shot, fps: nat)
    ensures Pieces(SegmentVideo(source, shot, fps), Picture(source, shot, fps),
                   ShownFrames(shot.ranges, Pictured(source, shot, fps)), 1)
  {
    var kept: seq<Node> := if shot.ranges == [] then [] else [Select(1, shot.ranges)];
    var padded := Apply(Tpad(fps * END_PAD_SECONDS), source.video);
    var trimmed := Apply(Trim(shot.frames), padded);
    ApplyFirst(Tpad(fps * END_PAD_SECONDS), [Trim(shot.frames)] + kept, source.video);
    ApplyFirst(Trim(shot.frames), kept, padded);
    assert VideoNodes(shot.frames, shot.ranges, fps) == [Tpad(fps * END_PAD_SECONDS)] + ([Trim(shot.frames)] + kept);
    assert trimmed == Picture(source, shot, fps);
    KeptShows(trimmed, shot.ranges, Pictured(source, shot, fps), 1);
  }

  lemma SoundShows(source: Source, shot: Shot, samples: nat)
    requires samples > 0
    ensures Pieces(SegmentAudio(source, shot, samples), Samples(source, shot, samples),
                   ShownFrames(shot.ranges, shot.frames), samples)
  {
    var sound := if shot.hasAudio then source.audio else [];
    var kept: seq<Node> := if shot.ranges == [] then [] else [Select(samples, shot.ranges)];
    var trimmed := Apply(PadTrim(shot.frames * samples), sound);
    ApplyFirst(PadTrim(shot.frames * samples), kept, sound);
    assert trimmed == Samples(source, shot, samples);
    KeptShows(trimmed, shot.ranges, shot.frames, samples);
  }

  /**
   Frame k of [vN] and the k-th `samples` samples of [aN] are those of the same frame of the segment, for any
   ranges, also ones past the end of the source, and as far as the picture lasts.
   */
  lemma PictureAndSoundInStep(source: Source, shot: Shot, fps: nat, samples: nat)
    requires samples > 0
    ensures Pieces(SegmentVideo(source, shot, fps), Picture(source, shot, fps),
                   ShownFrames(shot.ranges, Pictured(source, shot, fps)), 1)
    ensures Pieces(SegmentAudio(source, shot, samples), Samples(source, shot, samples),
                   ShownFrames(shot.ranges, shot.frames), samples)
    ensures ShownFrames(shot.ranges, Pictured(source, shot, fps)) <= ShownFrames(shot.ranges, shot.frames)
  {
    PictureShows(source, shot, fps);
    SoundShows(source, shot, samples);
    hide Pieces, SegmentVideo, SegmentAudio, Picture, Samples, ShownFrames;
    ShownIsPrefix(shot.ranges, Pictured(source, shot, fps), shot.frames);
  }

  // ---------------------------------------------------------------------------
  // Fades
  // ---------------------------------------------------------------------------

  /** Cell t of `total`: the first ones fade in from nothing, the last ones out to it, the rest are untouched. */
  function FadedCell(cell: Cell, t: nat, fadeIn: nat, fadeOut: nat, total: nat): Cell
    requires fadeOut <= total
  {
    if t < fadeIn then FadedIn(t, fadeIn, cell)
    else if t >= total - fadeOut then FadedOut(t - (total - fadeOut), fadeOut, cell)
    else cell
  }

  predicate ShowsFades(s: Stream, faded: Stream, fadeIn: nat, fadeOut: nat) {
    |faded| == |s| >= fadeOut && forall i :: 0 <= i < |s| ==> faded[i] == FadedCell(s[i], i, fadeIn, fadeOut, |s|)
  }

  function Faded(s: Stream, fadeIn: nat, fadeOut: nat): Stream
    requires fadeOut <= |s|
  {
    var begun := if fadeIn > 0 then Apply(FadeIn(fadeIn), s) else s;
    if fadeOut > 0 then Apply(FadeOut(|s| - fadeOut, fadeOut), begun) else begun
  }

  lemma FadesAre(s: Stream, fadeIn: nat, fadeOut: nat)
    requires fadeOut <= |s|
    ensures ApplyAll(VideoFades(fadeIn, fadeOut, |s|), s) == Faded(s, fadeIn, fadeOut)
  {
    var begun := if fadeIn > 0 then Apply(FadeIn(fadeIn), s) else s;
    var ins: seq<Node> := if fadeIn > 0 then [FadeIn(fadeIn)] else [];
    var outs: seq<Node> := if fadeOut > 0 then [FadeOut(|s| - fadeOut, fadeOut)] else [];
    hide Apply;
    if fadeIn > 0 {
      ApplyFirst(FadeIn(fadeIn), outs, s);
    } else {
      assert ins + outs == outs;
    }
    if fadeOut > 0 {
      ApplyFirst(FadeOut(|s| - fadeOut, fadeOut), [], begun);
      assert [FadeOut(|s| - fadeOut, fadeOut)] + [] == outs;
    }
  }

  lemma FadeInShows(s: Stream, count: nat)
    ensures var r := Apply(FadeIn(count), s);
            |r| == |s| && forall i :: 0 <= i < |s| ==> r[i] == if i < count then FadedIn(i, count, s[i]) else s[i]
  {
  }

  lemma FadeOutShows(s: Stream, start: nat, count: nat)
    requires |s| == start + count
    ensures var r := Apply(FadeOut(start, count), s);
            |r| == |s| && forall i :: 0 <= i < |s| ==>
              r[i] == if i < start then s[i] else FadedOut(i - start, count, s[i])
  {
    var r := Apply(FadeOut(start, count), s);
    assert |r| == |s|;
    forall i | 0 <= i < |s|
      ensures r[i] == if i < start then s[i] else FadedOut(i - start, count, s[i])
    {
      assert i >= start ==> Min(i - start, count) == i - start;
    }
  }

  lemma FadesShow(s: Stream, fadeIn: nat, fadeOut: nat)
    requires fadeIn + fadeOut <= |s|
    ensures ShowsFades(s, ApplyAll(VideoFades(fadeIn, fadeOut, |s|), s), fadeIn, fadeOut)
  {
    hide ApplyAll, VideoFades, Apply;
    FadesAre(s, fadeIn, fadeOut);
    FadeInShows(s, fadeIn);
    var begun := if fadeIn > 0 then Apply(FadeIn(fadeIn), s) else s;
    FadeOutShows(begun, |s| - fadeOut, fadeOut);
  }

  /** The sound fades over exactly the samples of the frames the picture fades over. */
  lemma SoundFadesShow(s: Stream, fadeIn: nat, fadeOut: nat, total: nat, samples: nat)
    requires fadeIn + fadeOut <= total && |s| == total * samples
    ensures ShowsFades(s, ApplyAll(AudioFades(fadeIn, fadeOut, total, samples), s), fadeIn * samples, fadeOut * samples)
  {
    hide ShowsFades, ApplyAll, VideoFades;
    ScaleAscends(fadeIn + fadeOut, total, samples);
    FadesShow(s, fadeIn * samples, fadeOut * samples);
  }

  // ---------------------------------------------------------------------------
  // The whole clip
  // ---------------------------------------------------------------------------

  /** What frame k of segment p is in the timeline of the segments: itself, or a step of a mix with its neighbour. */
  ghost function PictureOf(videos: seq<Stream>, transitions: seq<Transition>, fps: int, p: nat, k: nat): Cell
    requires fps > 0 && p < |videos| && k < |videos[p]| && FitsJunctions(transitions, |videos|)
    requires Fits(Lengths(videos), ClipOverlaps(|videos|, transitions, fps))
  {
    Expected(videos, ClipOverlaps(|videos|, transitions, fps), ClipStyles(|videos|, transitions), |videos| - 1, p, k)
  }

  ghost function SoundOf(audios: seq<Stream>, transitions: seq<Transition>, fps: int, samples: nat,
                         p: nat, k: nat): Cell
    requires fps > 0 && p < |audios| && k < |audios[p]| && FitsJunctions(transitions, |audios|)
    requires Fits(Lengths(audios), Scaled(ClipOverlaps(|audios|, transitions, fps), samples))
  {
    Expected(audios, Scaled(ClipOverlaps(|audios|, transitions, fps), samples), ClipCurves(|audios|, transitions),
             |audios| - 1, p, k)
  }

  /** Where frame k of segment p stands in the clip. */
  ghost function At(videos: seq<Stream>, transitions: seq<Transition>, fps: int, p: nat, k: nat): int
    requires fps > 0 && p < |videos| && FitsJunctions(transitions, |videos|)
  {
    Place(Lengths(videos), ClipOverlaps(|videos|, transitions, fps), p) + k
  }

  function Scale(t: int, samples: nat): int { t * samples }

  lemma PictureStands(videos: seq<Stream>, transitions: seq<Transition>, fps: int, p: nat, k: nat)
    requires fps > 0 && p < |videos| && k < |videos[p]| && FitsJunctions(transitions, |videos|)
    requires Fits(Lengths(videos), ClipOverlaps(|videos|, transitions, fps))
    ensures var clip, t := ClipVideo(videos, transitions, fps), At(videos, transitions, fps, p, k);
            0 <= t < |clip| && clip[t] == PictureOf(videos, transitions, fps, p, k)
  {
    hide Fits, Blended, Expected, Place;
    ShowsExpected(videos, ClipOverlaps(|videos|, transitions, fps), ClipStyles(|videos|, transitions),
                  |videos| - 1, p, k);
  }

  lemma SoundStands(videos: seq<Stream>, audios: seq<Stream>, transitions: seq<Transition>, fps: int, samples: nat,
                    p: nat, k: nat, j: nat)
    requires fps > 0 && |videos| == |audios| && p < |audios| && FitsJunctions(transitions, |audios|)
    requires Aligned(videos, audios, samples) && Cells(k, samples) + j < |audios[p]|
    requires Fits(Lengths(audios), Scaled(ClipOverlaps(|audios|, transitions, fps), samples))
    ensures var clip := ClipAudio(audios, transitions, fps, samples);
            var t := Scale(At(videos, transitions, fps, p, k), samples) + j;
            0 <= t < |clip| && clip[t] == SoundOf(audios, transitions, fps, samples, p, Cells(k, samples) + j)
  {
    hide Fits, Blended, Expected, Place;
    var overlaps := ClipOverlaps(|audios|, transitions, fps);
    ShowsExpected(audios, Scaled(overlaps, samples), ClipCurves(|audios|, transitions), |audios| - 1, p,
                  Cells(k, samples) + j);
    PlaceScales(Lengths(videos), overlaps, samples, p);
    ScaleSplits(Place(Lengths(videos), overlaps, p), k, 0, samples);
  }

  /** Frame k of segment p in the clip's picture: mixed with a neighbour or not, captioned, at its step of the fades. */
  ghost predicate PictureCell(picture: Stream, videos: seq<Stream>, transitions: seq<Transition>, captions: bool,
                              fadeIn: nat, fadeOut: nat, fps: int, p: nat, k: nat)
    requires fps > 0 && FitsJunctions(transitions, |videos|)
  {
    && p < |videos| && k < |videos[p]| && fadeOut <= |picture|
    && Fits(Lengths(videos), ClipOverlaps(|videos|, transitions, fps))
    && var t, cell := At(videos, transitions, fps, p, k), PictureOf(videos, transitions, fps, p, k);
       && 0 <= t < |picture|
       && picture[t] == FadedCell(if captions then Captioned(cell) else cell, t, fadeIn, fadeOut, |picture|)
  }

  /** Sample j of that frame in the clip's sound. */
  ghost predicate SoundCell(sound: Stream, videos: seq<Stream>, audios: seq<Stream>, transitions: seq<Transition>,
                            fadeIn: nat, fadeOut: nat, fps: int, samples: nat, p: nat, k: nat, j: nat)
    requires fps > 0 && FitsJunctions(transitions, |videos|)
  {
    && p < |videos| == |audios| && Cells(k, samples) + j < |audios[p]| && fadeOut <= |sound|
    && Fits(Lengths(audios), Scaled(ClipOverlaps(|audios|, transitions, fps), samples))
    && var t := Scale(At(videos, transitions, fps, p, k), samples) + j;
       var cell := SoundOf(audios, transitions, fps, samples, p, Cells(k, samples) + j);
       && 0 <= t < |sound|
       && sound[t] == FadedCell(cell, t, fadeIn, fadeOut, |sound|)
  }

  /** The picture the graph delivers, frame by frame. */
  lemma PictureOfClip(live: map<Label, Stream>, videos: seq<Stream>, audios: seq<Stream>, transitions: seq<Transition>,
                      captions: bool, fadeIn: nat, fadeOut: nat, total: nat, fps: int, p: nat, k: nat)
    requires fps > 0 && FitsJunctions(transitions, |videos|) && fadeIn + fadeOut <= total
    requires Delivers(live, videos, audios, transitions, captions, fadeIn, fadeOut, total, fps)
    requires |live[OutVideo]| == total && p < |videos| && k < |videos[p]|
    ensures OutVideo in live && PictureCell(live[OutVideo], videos, transitions, captions, fadeIn, fadeOut, fps, p, k)
  {
    var clip := ClipVideo(videos, transitions, fps);
    var shown := if captions then Apply(Ass, clip) else clip;
    PictureStands(videos, transitions, fps, p, k);
    FadesKeepLength(fadeIn, fadeOut, total, shown);
    hide ClipVideo, PictureOf, At, ApplyAll, VideoFades, ClipAudio, AudioFades, Fits, Sum, ClipOverlaps;
    FadesShow(shown, fadeIn, fadeOut);
  }

  lemma DeliversSound(live: map<Label, Stream>, videos: seq<Stream>, audios: seq<Stream>, transitions: seq<Transition>,
                      captions: bool, fadeIn: nat, fadeOut: nat, total: nat, fps: int)
    requires fps > 0 && FitsJunctions(transitions, |videos|) && fadeIn + fadeOut <= total
    requires Delivers(live, videos, audios, transitions, captions, fadeIn, fadeOut, total, fps)
    ensures OutAudio in live && |videos| == |audios| > 0
    ensures var samples := SamplesPerFrame(fps);
            && Fits(Lengths(audios), Scaled(ClipOverlaps(|audios|, transitions, fps), samples))
            && fadeOut * samples <= total * samples
            && live[OutAudio]
               == ApplyAll(AudioFades(fadeIn, fadeOut, total, samples), ClipAudio(audios, transitions, fps, samples))
            && |live[OutAudio]| == |ClipAudio(audios, transitions, fps, samples)|
  {
    var samples := SamplesPerFrame(fps);
    ScaleAscends(fadeOut, total, samples);
    hide ClipVideo, ClipAudio, ApplyAll, VideoFades, AudioFades, Fits, Sum, ClipOverlaps, Finished;
    FinishedLengths(captions, [], ClipAudio(audios, transitions, fps, samples), fadeIn, fadeOut, total, samples);
  }

  /** And its sound, sample by sample. */
  lemma SoundOfClip(live: map<Label, Stream>, videos: seq<Stream>, audios: seq<Stream>, transitions: seq<Transition>,
                    captions: bool, fadeIn: nat, fadeOut: nat, total: nat, fps: int, p: nat, k: nat, j: nat)
    requires fps > 0 && FitsJunctions(transitions, |videos|) && fadeIn + fadeOut <= total
    requires Delivers(live, videos, audios, transitions, captions, fadeIn, fadeOut, total, fps)
    requires var samples := SamplesPerFrame(fps);
             && Aligned(videos, audios, samples) && |live[OutAudio]| == total * samples
             && p < |audios| && Cells(k, samples) + j < |audios[p]|
    ensures OutAudio in live
    ensures var samples := SamplesPerFrame(fps);
            SoundCell(live[OutAudio], videos, audios, transitions, Cells(fadeIn, samples), Cells(fadeOut, samples), fps,
                      samples, p, k, j)
  {
    var samples := SamplesPerFrame(fps);
    DeliversSound(live, videos, audios, transitions, captions, fadeIn, fadeOut, total, fps);
    hide Delivers, ClipAudio, SoundOf, At, ApplyAll, AudioFades, Fits, ClipOverlaps, FadedCell;
    SoundStands(videos, audios, transitions, fps, samples, p, k, j);
    hide Aligned, Scaled;
    SoundFadesShow(ClipAudio(audios, transitions, fps, samples), fadeIn, fadeOut, total, samples);
  }

  /** Frame k of [vN] and its samples of [aN] are those of one frame of the source. */
  ghost predicate FromFrame(source: Source, shot: Shot, fps: nat, samples: nat, k: nat, j: nat, f: nat) {
    var video, audio := SegmentVideo(source, shot, fps), SegmentAudio(source, shot, samples);
    var picture, sound := Picture(source, shot, fps), Samples(source, shot, samples);
    && k < |video| && f < |picture| && video[k] == picture[f]
    && Cells(k, samples) + j < |audio| && Cells(f, samples) + j < |sound|
    && audio[Cells(k, samples) + j] == sound[Cells(f, samples) + j]
  }

  /** Frame k of a picture, and sample j of piece k of a sound, when the frames of one are the first of the other's. */
  lemma FromPieces(video: Stream, picture: Stream, pictured: seq<nat>, audio: Stream, sound: Stream, frames: seq<nat>,
                   samples: nat, k: nat, j: nat)
    requires Pieces(video, picture, pictured, 1) && Pieces(audio, sound, frames, samples) && pictured <= frames
    requires k < |video| && j < samples
    ensures k < |frames| && frames[k] < |picture| && video[k] == picture[frames[k]]
    ensures Cells(k, samples) + j < |audio| && Cells(frames[k], samples) + j < |sound|
    ensures audio[Cells(k, samples) + j] == sound[Cells(frames[k], samples) + j]
  {
    assert SameCell(video, picture, pictured, 1, k, 0);
    assert SameCell(audio, sound, frames, samples, k, j);
    assert pictured[k] == frames[k];
  }

  lemma SegmentFromFrame(source: Source, shot: Shot, fps: nat, samples: nat, k: nat, j: nat) returns (f: nat)
    requires samples > 0 && j < samples && k < |SegmentVideo(source, shot, fps)|
    ensures k < |ShownFrames(shot.ranges, shot.frames)| && f == ShownFrames(shot.ranges, shot.frames)[k]
    ensures FromFrame(source, shot, fps, samples, k, j, f)
  {
    PictureAndSoundInStep(source, shot, fps, samples);
    hide SegmentVideo, SegmentAudio, Picture, Samples, ShownFrames, Pieces, Cells, Pictured;
    var frames := ShownFrames(shot.ranges, shot.frames);
    FromPieces(SegmentVideo(source, shot, fps), Picture(source, shot, fps),
               ShownFrames(shot.ranges, Pictured(source, shot, fps)),
               SegmentAudio(source, shot, samples), Samples(source, shot, samples), frames, samples, k, j);
    f := frames[k];
  }

  ghost predicate ClipCell(live: map<Label, Stream>, videos: seq<Stream>, audios: seq<Stream>,
                           transitions: seq<Transition>, captions: bool, fadeIn: nat, fadeOut: nat, fps: int,
                           p: nat, k: nat, j: nat)
    requires fps > 0 && FitsJunctions(transitions, |videos|)
  {
    var samples := SamplesPerFrame(fps);
    && OutVideo in live && PictureCell(live[OutVideo], videos, transitions, captions, fadeIn, fadeOut, fps, p, k)
    && OutAudio in live && SoundCell(live[OutAudio], videos, audios, transitions, Cells(fadeIn, samples),
                                     Cells(fadeOut, samples), fps, samples, p, k, j)
  }

  lemma CellInside(videos: seq<Stream>, audios: seq<Stream>, samples: nat, p: nat, k: nat, j: nat)
    requires Aligned(videos, audios, samples) && p < |videos| && k < |videos[p]| && j < samples
    ensures Cells(k, samples) + j < |audios[p]|
  {
    assert Lengths(audios)[p] == Scaled(Lengths(videos), samples)[p];
    ScaleAscends(k + 1, |videos[p]|, samples);
  }

  /**
   The whole graph, frame by frame and sample by sample: where frame k of segment p and each of its samples
   stand, from which frame of the source both come, mixed with which neighbour and at which step of the fades.
   */
  lemma ClipShows(st: State, shots: seq<Shot>, sources: seq<Source>, transitions: seq<Transition>, captions: bool,
                  fadeIn: nat, fadeOut: nat, fps: int, p: nat, k: nat, j: nat) returns (next: State, f: nat)
    requires 0 < fps <= OUTPUT_AUDIO_RATE && AsTold(shots, sources, fps) && FitsJunctions(transitions, |shots|)
    requires Prepared(st, shots, sources, fps, SamplesPerFrame(fps), 0)
    requires Fits(ShotLengths(shots), ClipOverlaps(|shots|, transitions, fps))
    requires fadeIn + fadeOut <= ClipTotal(shots, transitions, fps)
    requires p < |shots| && k < ShotLengths(shots)[p] && j < SamplesPerFrame(fps)
    ensures Run(st, Graph(shots, transitions, captions, fadeIn, fadeOut, fps)) == Some(next)
    ensures k < |ShownFrames(shots[p].ranges, shots[p].frames)| && f == ShownFrames(shots[p].ranges, shots[p].frames)[k]
    ensures FromFrame(sources[p], shots[p], fps, SamplesPerFrame(fps), k, j, f)
    ensures ClipCell(next.live, Videos(shots, sources, fps), Audios(shots, sources, SamplesPerFrame(fps)), transitions,
                     captions, fadeIn, fadeOut, fps, p, k, j)
  {
    hide Prepared, Run, Fits, Delivers, RangesFit, AllSupplied, Ordered, SegmentWithin, FromFrame, PictureCell,
         SoundCell, ClipOverlaps, ShownFrames, SegmentVideo, SegmentAudio, ClipTotal;
    var samples, total := SamplesPerFrame(fps), ClipTotal(shots, transitions, fps);
    var videos, audios := Videos(shots, sources, fps), Audios(shots, sources, samples);
    SamplesPositive(fps);
    next := CutGraphRuns(st, shots, sources, transitions, captions, fadeIn, fadeOut, fps);
    SegmentsAligned(shots, sources, fps, samples);
    assert Lengths(videos)[p] == ShotLengths(shots)[p];
    f := SegmentFromFrame(sources[p], shots[p], fps, samples, k, j);
    CellInside(videos, audios, samples, p, k, j);
    hide Aligned, Lengths, ShotLengths;
    PictureOfClip(next.live, videos, audios, transitions, captions, fadeIn, fadeOut, total, fps, p, k);
    SoundOfClip(next.live, videos, audios, transitions, captions, fadeIn, fadeOut, total, fps, p, k, j);
  }

  /** The frames shown of an accepted segment are those its entries ask for, or all, each once and in order. */
  lemma ShownAreAsked(arguments: Arguments, summaries: seq<Summary>, p: nat)
    requires Accepted(arguments, summaries) && p < |arguments.segments| && Starts(arguments, summaries, p)
    ensures var shot := ShotOf(arguments, summaries, p);
            var shown := ShownFrames(shot.ranges, shot.frames);
            && (forall f: nat :: f in shown <==>
                  f < shot.frames && (HasEntry(arguments.keep, p) ==> Asked(arguments.keep, p, f)))
            && (forall k, m :: 0 <= k < m < |shown| ==> shown[k] < shown[m])
  {
    var shot := ShotOf(arguments, summaries, p);
    EntriesAreCounted(arguments.keep, arguments.segments, arguments.fps);
    ListedIffRanges(arguments.keep, p);
    var shown := ShownFrames(shot.ranges, shot.frames);
    forall f: nat
      ensures f in shown <==> f < shot.frames && (HasEntry(arguments.keep, p) ==> Asked(arguments.keep, p, f))
    {
      ChosenIffAsked(arguments.keep, p, f);
      if shot.ranges == [] {
        assert f < shot.frames ==> shown[f] == f;
      } else {
        ChosenFramesAre(shot.ranges, shot.frames, f);
      }
    }
  }

  /** What the graph of an accepted request shows, frame by frame and sample by sample, from the input pads. */
  lemma AcceptedClipShows(arguments: Arguments, summaries: seq<Summary>, sources: seq<Source>, p: nat, k: nat, j: nat)
    returns (next: State, f: nat)
    requires Accepted(arguments, summaries) && |sources| == |arguments.segments|
    requires InsideSources(arguments, summaries) && CutFault(arguments, summaries).None?
    requires AllSupplied(Shots(arguments, summaries), sources, arguments.fps)
    requires p < |sources| && k < ShotLengths(Shots(arguments, summaries))[p] && j < SamplesPerFrame(arguments.fps)
    ensures Run(Pads(Shots(arguments, summaries), sources), CutGraphOf(arguments, summaries)) == Some(next)
    ensures var shot := ShotOf(arguments, summaries, p);
            var shown := ShownFrames(shot.ranges, shot.frames);
            && k < |shown| && f == shown[k]
            && FromFrame(sources[p], shot, arguments.fps, SamplesPerFrame(arguments.fps), k, j, f)
    ensures var shots, fps := Shots(arguments, summaries), arguments.fps;
            var fadeIn, fadeOut := FadeFrames(arguments.fadeIn, fps), FadeFrames(arguments.fadeOut, fps);
            && fadeIn >= 0 && fadeOut >= 0 && SamplesPerFrame(fps) >= 0
            && ClipCell(next.live, Videos(shots, sources, fps), Audios(shots, sources, SamplesPerFrame(fps)),
                        arguments.transitions, arguments.captions, fadeIn, fadeOut, fps, p, k, j)
  {
    var shots, fps := Shots(arguments, summaries), arguments.fps;
    InsideFits(arguments, summaries);
    AcceptedIsSteady(arguments, summaries, sources);
    PadsArePrepared(shots, sources, fps, SamplesPerFrame(fps));
    FadesNotNegative(arguments, fps);
    SamplesPositive(fps);
    hide Prepared, RangesFit, AllSupplied, Fits, ClipTotal, ClipOverlaps, FadeFrames, Graph, AllStart, Run, Steady,
         FromFrame, ClipCell, ShownFrames, ShotLengths, RoundHalfEven, ClampRange;
    next, f := ClipShows(Pads(shots, sources), shots, sources, arguments.transitions, arguments.captions,
                         FadeFrames(arguments.fadeIn, fps), FadeFrames(arguments.fadeOut, fps), fps, p, k, j);
  }
}
