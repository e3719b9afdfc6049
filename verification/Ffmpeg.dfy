/** The shared range checks and sample arithmetic of apps/renderer/media/ffmpeg.py. */
module Ffmpeg {
  import opened Wrappers
  import opened Numbers

  /** The requests the renderer refuses, one constructor per message. */
  datatype Error =
    | NegativeStart
    | EndBeforeStart
    | StartPastEnd
    | WrongTransitionCount
    | UnknownTransition
    | CutWithDuration
    | WrongTransitionDuration
    | WrongFadeIn
    | WrongFadeOut
    | TransitionTooLong
    | FadesTooLong
    | WrongSegmentCount
    | UnusedInput
    | TooManyKeepRanges
    | KeepOutOfOrder
    | KeepOutsideSegment

  const OUTPUT_AUDIO_RATE := 48000

  function SamplesPerFrame(fps: int): int
    requires fps > 0
  {
    RoundHalfEven(OUTPUT_AUDIO_RATE, fps)
  }

  lemma NoDriftIff(fps: int)
    requires fps > 0
    ensures SamplesPerFrame(fps) * fps == OUTPUT_AUDIO_RATE <==> OUTPUT_AUDIO_RATE % fps == 0
  {
    var samples, q := SamplesPerFrame(fps), OUTPUT_AUDIO_RATE / fps;
    assert OUTPUT_AUDIO_RATE == q * fps + OUTPUT_AUDIO_RATE % fps;
    if samples * fps == OUTPUT_AUDIO_RATE {
      FloorIff(OUTPUT_AUDIO_RATE, fps, samples);
      FloorIff(OUTPUT_AUDIO_RATE, fps, samples + 1);
    }
  }

  /**
   Over n frames the sound strays from the picture by at most n / 2 samples, counted in parts of 1 / fps
   of a sample; it doesn't stray exactly when the frame rate divides the sample rate.
   */
  lemma SoundDrift(fps: int, n: nat)
    requires fps > 0
    ensures -1 * (n * fps) <= 2 * (n * (SamplesPerFrame(fps) * fps - OUTPUT_AUDIO_RATE)) <= n * fps
    ensures n > 0 ==>
              (n * (SamplesPerFrame(fps) * fps - OUTPUT_AUDIO_RATE) == 0 <==> OUTPUT_AUDIO_RATE % fps == 0)
  {
    var drift := SamplesPerFrame(fps) * fps - OUTPUT_AUDIO_RATE;
    assert -fps <= 2 * drift <= fps;
    ScaleAscends(-fps, 2 * drift, n);
    ScaleAscends(2 * drift, fps, n);
    assert drift * n == n * drift && 2 * drift * n == 2 * (n * drift);
    NoDriftIff(fps);
  }

  function CheckRange(start: Option<int>, end: Option<int>): (r: Result<(Option<int>, Option<int>), Error>)
    ensures r.Success? ==> r.value == (start, end)
    ensures r.Success? <==>
              && (start.Some? ==> start.value >= 0)
              && (end.Some? ==> end.value > if start.Some? then start.value else 0)
    ensures r.Failure? ==> r.error == if start.Some? && start.value < 0 then NegativeStart else EndBeforeStart
  {
    if start.Some? && start.value < 0 then Failure(NegativeStart)
    else if end.Some? && end.value <= (if start.Some? then start.value else 0) then Failure(EndBeforeStart)
    else Success((start, end))
  }

  /** Trims the end of a range to the video, and refuses a start past it. */
  function ClampRange(duration: int, start: Option<int>, end: Option<int>)
    : (r: Result<(Option<int>, Option<int>), Error>)
    ensures r.Success? <==> start.None? || start.value < duration
    ensures r.Failure? ==> r.error == StartPastEnd
    ensures r.Success? ==> r.value.0 == start && (end.None? <==> r.value.1.None?)
    ensures r.Success? && end.Some? ==> r.value.1.value == Min(end.value, duration)
    // A checked range stays a non-empty range, now inside the video.
    ensures r.Success? && start.Some? && end.Some? && start.value < end.value ==>
              start.value < r.value.1.value <= duration
  {
    if start.Some? && start.value >= duration then Failure(StartPastEnd)
    else Success((start, if end.None? then None else Some(Min(end.value, duration))))
  }
}
