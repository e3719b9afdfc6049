/**
 The crop planner of apps/renderer/media/reframe.py: a plan of moves for one segment.

 Positions and shares are real numbers and times are whole milliseconds.
 */
module Reframe {
  import opened Numbers
  import opened Wrappers

  const SAMPLE_INTERVAL_MS := 500
  const PAN_MS := 400
  const CUT_GUARD_MS := 100
  const CENTRE := 0.5

  /** A face in detection pixels. */
  datatype Face = Face(x: real, y: real, width: real, height: real) {
    function Area(): real { width * height }

    function Start(axis: nat): real { if axis == 0 then x else y }

    function Extent(axis: nat): real { if axis == 0 then width else height }
  }

  datatype Move = Move(start: int, end: int, position: real)

  datatype Track = Track(initial: real, moves: seq<Move>)

  /** A time at which the subject's centre was seen. */
  datatype Sighting = Sighting(time: int, centre: real)

  /** What the planner is told of a segment. */
  datatype Segment = Segment(
    samples: seq<seq<Face>>, axis: nat, extent: real, share: real, cuts: seq<int>, duration: int)
  {
    predicate Valid() {
      && 0.0 < share < 1.0 && extent > 0.0 && duration > 0
      && (forall i :: 0 <= i < |cuts| ==> 0 < cuts[i] < duration)
      && (forall i, j :: 0 <= i < j < |cuts| ==> cuts[i] < cuts[j])
    }

    /** The edges of the shots: the segment's start, the cuts, and its end. */
    function Edges(): (edges: seq<int>)
      ensures |edges| == |cuts| + 2
    {
      [0] + cuts + [duration]
    }
  }

  function MinReal(a: real, b: real): real { if a <= b then a else b }

  function MaxReal(a: real, b: real): real { if a >= b then a else b }

  function AbsReal(a: real): real { if a >= 0.0 then a else -a }

  // ---------------------------------------------------------------------------
  // Framing one centre
  // ---------------------------------------------------------------------------

  /** The share of the source's width and height a crop of the output's shape keeps. */
  function CropShare(sourceWidth: real, sourceHeight: real, outputWidth: real, outputHeight: real)
    : (shares: (real, real))
    requires sourceWidth > 0.0 && sourceHeight > 0.0 && outputWidth > 0.0 && outputHeight > 0.0
  {
    var source, output := sourceWidth / sourceHeight, outputWidth / outputHeight;
    if source > output then (output / source, 1.0) else (1.0, source / output)
  }

  lemma RatioOf(a: real, b: real)
    requires a > 0.0 && b > 0.0
    ensures (a / b) * b == a && a / b > 0.0
  {
  }

  lemma RatioBelowOne(a: real, b: real)
    requires 0.0 < a <= b
    ensures a / b <= 1.0
  {
  }

  /** The crop has the output's shape, fits the frame, and touches it on one axis. */
  lemma CropHasOutputShape(sourceWidth: real, sourceHeight: real, outputWidth: real, outputHeight: real)
    requires sourceWidth > 0.0 && sourceHeight > 0.0 && outputWidth > 0.0 && outputHeight > 0.0
    ensures var (across, down) := CropShare(sourceWidth, sourceHeight, outputWidth, outputHeight);
            && 0.0 < across <= 1.0 && 0.0 < down <= 1.0 && (across == 1.0 || down == 1.0)
            && (across * sourceWidth) * outputHeight == (down * sourceHeight) * outputWidth
  {
    var source, output := sourceWidth / sourceHeight, outputWidth / outputHeight;
    RatioOf(sourceWidth, sourceHeight);
    RatioOf(outputWidth, outputHeight);
    if source > output {
      RatioOf(output, source);
      RatioBelowOne(output, source);
      var share := output / source;
      assert share * (source * sourceHeight) == (share * source) * sourceHeight;
      assert (output * sourceHeight) * outputHeight == sourceHeight * (output * outputHeight);
    } else {
      RatioOf(source, output);
      RatioBelowOne(source, output);
      var share := source / output;
      assert (share * sourceHeight) * (output * outputHeight) == ((share * output) * sourceHeight) * outputHeight;
    }
  }

  /** The position that puts the crop's centre on the subject, kept inside the frame. */
  function Position(centre: real, share: real): (p: real)
    requires share < 1.0
    ensures 0.0 <= p <= 1.0
  {
    MinReal(1.0, MaxReal(0.0, (centre - share / 2.0) / (1.0 - share)))
  }

  function CropCentre(position: real, share: real): real {
    position * (1.0 - share) + share / 2.0
  }

  /** The crop may stay: the subject is in its middle third, or it could get no nearer. */
  predicate Stays(position: real, centre: real, share: real)
    requires share < 1.0
  {
    AbsReal(centre - CropCentre(position, share)) <= share / 6.0 || Position(centre, share) == position
  }

  lemma Ascends(a: real, b: real, factor: real)
    requires a <= b && factor > 0.0
    ensures a * factor <= b * factor
  {
  }

  /** A crop in the centre leaves as much of the frame on one side as on the other. */
  lemma CentreIsHalfway(share: real)
    ensures var left := CENTRE * (1.0 - share); left == 1.0 - (left + share)
  {
  }

  lemma NegativeProduct(a: real, b: real)
    requires a < 0.0 && b > 0.0
    ensures a * b < 0.0
  {
  }

  /** No place for the crop inside the frame puts its middle nearer the subject than the position does. */
  lemma PositionIsNearest(centre: real, share: real, other: real)
    requires 0.0 < share < 1.0 && 0.0 <= other <= 1.0
    ensures var left, otherLeft := Position(centre, share) * (1.0 - share), other * (1.0 - share);
            AbsReal(centre - (left + (left + share)) / 2.0) <= AbsReal(centre - (otherLeft + (otherLeft + share)) / 2.0)
  {
    var room := 1.0 - share;
    var best := (centre - share / 2.0) / room;
    assert best * room == centre - share / 2.0;
    var p := Position(centre, share);
    if best < 0.0 {
      assert p == 0.0;
      NegativeProduct(best, room);
      Ascends(p, other, room);
    } else if best > 1.0 {
      assert p == 1.0;
      NegativeProduct(1.0 - best, room);
      Ascends(other, p, room);
    } else {
      assert p == best;
    }
  }

  /** The crop begins `position` of the way along the room it has. */
  predicate InMiddleThird(position: real, centre: real, share: real) {
    var left := position * (1.0 - share);
    left + share / 3.0 <= centre <= left + 2.0 * share / 3.0
  }

  /** The crop stays for a subject in its middle third, or when it is already where the subject asks. */
  lemma StaysInMiddleThird(position: real, centre: real, share: real)
    requires 0.0 < share < 1.0
    ensures Stays(position, centre, share) <==>
              InMiddleThird(position, centre, share) || Position(centre, share) == position
  {
  }

  /** A framed subject is inside the crop. */
  lemma FramedIsInside(position: real, centre: real, share: real)
    requires 0.0 < share < 1.0 && 0.0 <= centre <= 1.0 && Stays(position, centre, share)
    ensures position * (1.0 - share) <= centre <= position * (1.0 - share) + share
  {
    if Position(centre, share) == position {
      var room := 1.0 - share;
      var best := (centre - share / 2.0) / room;
      assert best * room == centre - share / 2.0;
      if best < 0.0 {
        NegativeProduct(best, room);
        assert position == 0.0;
      } else if best > 1.0 {
        NegativeProduct(1.0 - best, room);
        assert position == 1.0;
      }
    }
  }

  // ---------------------------------------------------------------------------
  // Sightings
  // ---------------------------------------------------------------------------

  /** The first face of the greatest area among the first n. */
  function Largest(faces: seq<Face>, n: nat): (best: nat)
    requires 0 < n <= |faces|
    ensures best < n
    ensures forall i :: 0 <= i < n ==> faces[i].Area() <= faces[best].Area()
    ensures forall i :: 0 <= i < best ==> faces[i].Area() < faces[best].Area()
  {
    if n == 1 then 0
    else
      var best := Largest(faces, n - 1);
      if faces[n - 1].Area() > faces[best].Area() then n - 1 else best
  }

  function SubjectCentre(faces: seq<Face>, axis: nat, extent: real): Option<real>
    requires extent > 0.0
  {
    if faces == [] then None
    else
      var face := faces[Largest(faces, |faces|)];
      Some((face.Start(axis) + face.Extent(axis) / 2.0) / extent)
  }

  /** No face is larger, and the ones before are smaller. */
  predicate FirstLargest(faces: seq<Face>, i: nat)
    requires i < |faces|
  {
    && (forall j :: 0 <= j < |faces| ==> faces[j].width * faces[j].height <= faces[i].width * faces[i].height)
    && (forall j :: 0 <= j < i ==> faces[j].width * faces[j].height < faces[i].width * faces[i].height)
  }

  /** So many parts of the frame's extent along, a point lies midway between the face's two edges. */
  predicate Midway(face: Face, axis: nat, extent: real, centre: real) {
    if axis == 0 then centre * extent - face.x == face.x + face.width - centre * extent
    else centre * extent - face.y == face.y + face.height - centre * extent
  }

  lemma Quotient(a: real, b: real)
    requires b > 0.0
    ensures a / b * b == a
  {
  }

  /** The subject is the first of the largest faces, and its centre lies midway between that face's edges. */
  lemma SubjectIsMidway(faces: seq<Face>, axis: nat, extent: real)
    requires extent > 0.0
    ensures SubjectCentre(faces, axis, extent).None? <==> faces == []
    ensures faces != [] ==>
              exists i :: 0 <= i < |faces| && FirstLargest(faces, i)
                          && Midway(faces[i], axis, extent, SubjectCentre(faces, axis, extent).value)
  {
    if faces != [] {
      var i := Largest(faces, |faces|);
      assert FirstLargest(faces, i);
      hide Largest, FirstLargest;
      Quotient(faces[i].Start(axis) + faces[i].Extent(axis) / 2.0, extent);
      assert Midway(faces[i], axis, extent, SubjectCentre(faces, axis, extent).value);
    }
  }

  /** The sightings among the first n samples. */
  function Detected(s: Segment, n: nat): seq<Sighting>
    requires s.Valid() && n <= |s.samples|
  {
    if n == 0 then []
    else
      Detected(s, n - 1)
      + match SubjectCentre(s.samples[n - 1], s.axis, s.extent)
        case None => []
        case Some(centre) => [Sighting((n - 1) * SAMPLE_INTERVAL_MS, centre)]
  }

  function Within(sightings: seq<Sighting>, first: int, last: int): seq<Sighting> {
    if sightings == [] then []
    else
      var k := |sightings| - 1;
      Within(sightings[..k], first, last) + if first <= sightings[k].time < last then [sightings[k]] else []
  }

  /** The sightings of one shot: those not so near a cut that they may belong to another. */
  function Found(s: Segment, shot: nat): seq<Sighting>
    requires s.Valid() && shot <= |s.cuts|
  {
    var start, end := s.Edges()[shot], s.Edges()[shot + 1];
    var first := if start != 0 then start + CUT_GUARD_MS else 0;
    var last := if end < s.duration then end - CUT_GUARD_MS else end;
    Within(Detected(s, |s.samples|), first, last)
  }

  // ---------------------------------------------------------------------------
  // The plan
  // ---------------------------------------------------------------------------

  /** The crop's position once the first k + 1 sightings of a shot are considered. */
  function PositionAfter(found: seq<Sighting>, k: nat, share: real): (p: real)
    requires share < 1.0 && (k < |found| || k == 0)
    ensures 0.0 <= p <= 1.0
  {
    if found == [] then CENTRE
    else if k == 0 then Position(found[0].centre, share)
    else
      var p := PositionAfter(found, k - 1, share);
      if Stays(p, found[k].centre, share) then p else Position(found[k].centre, share)
  }

  /** The pans for sightings 1 to k. */
  function Pans(found: seq<Sighting>, k: nat, end: int, share: real): seq<Move>
    requires share < 1.0 && (k < |found| || k == 0)
  {
    if k == 0 then []
    else
      Pans(found, k - 1, end, share)
      + if Stays(PositionAfter(found, k - 1, share), found[k].centre, share) then []
        else [Move(found[k].time, Min(found[k].time + PAN_MS, end), Position(found[k].centre, share))]
  }

  function LastIndex(found: seq<Sighting>): nat {
    if found == [] then 0 else |found| - 1
  }

  /** A shot's moves: a jump at its start, unless it is the first, then its pans. */
  function ShotMoves(s: Segment, shot: nat): seq<Move>
    requires s.Valid() && shot <= |s.cuts|
  {
    var found, start, end := Found(s, shot), s.Edges()[shot], s.Edges()[shot + 1];
    (if shot == 0 then [] else [Move(start, start, PositionAfter(found, 0, s.share))])
    + Pans(found, LastIndex(found), end, s.share)
  }

  /** The moves of the first n shots. */
  function MovesBefore(s: Segment, n: nat): seq<Move>
    requires s.Valid() && n <= |s.cuts| + 1
  {
    if n == 0 then [] else MovesBefore(s, n - 1) + ShotMoves(s, n - 1)
  }

  function Plan(s: Segment): Track
    requires s.Valid()
  {
    Track(PositionAfter(Found(s, 0), 0, s.share), MovesBefore(s, |s.cuts| + 1))
  }

  // ---------------------------------------------------------------------------
  // The planner's loops
  // ---------------------------------------------------------------------------

  /** The inner loop: the sightings of one shot after the first. */
  method PlanShot(found: seq<Sighting>, start: real, end: int, share: real, moves0: seq<Move>)
    returns (moves: seq<Move>)
    requires share < 1.0 && start == PositionAfter(found, 0, share)
    ensures moves == moves0 + Pans(found, LastIndex(found), end, share)
  {
    hide Position;
    var position := start;
    moves := moves0;
    var k := 1;
    while k < |found|
      invariant 1 <= k && (found != [] ==> k <= |found|)
      invariant found != [] ==> position == PositionAfter(found, k - 1, share)
      invariant moves == moves0 + Pans(found, if found == [] then 0 else k - 1, end, share)
    {
      var Sighting(time, centre) := found[k];
      var cropCentre := CropCentre(position, share);
      var target := Position(centre, share);
      ghost var earlier := Pans(found, k - 1, end, share);
      assert earlier + [] == earlier;
      if !(AbsReal(centre - cropCentre) <= share / 6.0 || target == position) {
        position := target;
        moves := moves + [Move(time, Min(time + PAN_MS, end), position)];
      }
      k := k + 1;
    }
  }

  lemma FoundIs(s: Segment, shot: nat)
    requires s.Valid() && shot <= |s.cuts|
    ensures var start, end := s.Edges()[shot], s.Edges()[shot + 1];
            Found(s, shot) == Within(Detected(s, |s.samples|), if start != 0 then start + CUT_GUARD_MS else 0,
                                     if end < s.duration then end - CUT_GUARD_MS else end)
  {
    hide Within, Detected;
  }

  lemma FirstPosition(found: seq<Sighting>, share: real)
    requires share < 1.0
    ensures PositionAfter(found, 0, share) == if found != [] then Position(found[0].centre, share) else CENTRE
  {
    hide Position;
  }

  lemma NoMovesYet(s: Segment)
    requires s.Valid()
    ensures MovesBefore(s, 0) == []
  {
  }

  lemma MovesNext(s: Segment, shot: nat)
    requires s.Valid() && shot <= |s.cuts|
    ensures MovesBefore(s, shot + 1) == MovesBefore(s, shot) + ShotMoves(s, shot)
  {
    hide ShotMoves;
  }

  /** The loop over the shots. */
  method PlanShots(s: Segment) returns (track: Track)
    requires s.Valid()
    ensures track == Plan(s)
  {
    hide Within, Detected, Found, PositionAfter, Position, Pans, MovesBefore, Stays;
    var edges, detected := s.Edges(), Detected(s, |s.samples|);
    var initial: Option<real>, moves: seq<Move> := None, [];
    NoMovesYet(s);
    for shot := 0 to |s.cuts| + 1
      invariant moves == MovesBefore(s, shot)
      invariant initial == if shot == 0 then None else Some(PositionAfter(Found(s, 0), 0, s.share))
    {
      var start, end := edges[shot], edges[shot + 1];
      var first := if start != 0 then start + CUT_GUARD_MS else 0;
      var last := if end < s.duration then end - CUT_GUARD_MS else end;
      var found := Within(detected, first, last);
      var position := if found != [] then Position(found[0].centre, s.share) else CENTRE;
      FoundIs(s, shot);
      FirstPosition(found, s.share);
      MovesNext(s, shot);
      ghost var before := moves;
      if initial.None? {
        initial := Some(position);
      } else {
        moves := moves + [Move(start, start, position)];
      }
      ghost var jumped := moves;
      moves := PlanShot(found, position, end, s.share, moves);
      assert moves == before + ShotMoves(s, shot);
    }
    track := Track(if initial.None? then CENTRE else initial.value, moves);
  }

  // ---------------------------------------------------------------------------
  // The cuts given to the planner
  // ---------------------------------------------------------------------------

  predicate Ascending(times: seq<int>) {
    forall i, j :: 0 <= i < j < |times| ==> times[i] < times[j]
  }

  lemma HeadIsLeast(times: seq<int>, t: int, rest: seq<int>)
    requires times != [] && Ascending(times) && times[0] < t
    requires forall x :: x in rest <==> x in times[1..] || x == t
    ensures forall i :: 0 <= i < |rest| ==> times[0] < rest[i]
  {
    forall i | 0 <= i < |rest|
      ensures times[0] < rest[i]
    {
      var x := rest[i];
      assert x in rest;
      if x != t {
        var j :| 0 <= j < |times[1..]| && times[1..][j] == x;
        assert times[j + 1] == x;
      }
    }
  }

  /** A time added to an ascending list, unless it is there. */
  function Insert(times: seq<int>, t: int): (r: seq<int>)
    requires Ascending(times)
    ensures Ascending(r) && forall x :: x in r <==> x in times || x == t
  {
    if times == [] then [t]
    else if t < times[0] then [t] + times
    else if t == times[0] then times
    else
      var rest := Insert(times[1..], t);
      HeadIsLeast(times, t, rest);
      [times[0]] + rest
  }

  /** The cuts strictly inside the segment, each once, in time order. */
  function CutsInside(times: seq<int>, duration: int): (cuts: seq<int>)
    ensures Ascending(cuts) && forall x :: x in cuts <==> x in times && 0 < x < duration
  {
    if times == [] then []
    else
      var k := |times| - 1;
      var cuts := CutsInside(times[..k], duration);
      assert times == times[..k] + [times[k]];
      if 0 < times[k] < duration then Insert(cuts, times[k]) else cuts
  }

  /** The planner as it is called: cuts in any order, repeated, and some outside the segment. */
  method SubjectTrack(samples: seq<seq<Face>>, axis: nat, extent: real, share: real, shotCuts: seq<int>, duration: int)
    returns (track: Track)
    requires 0.0 < share < 1.0 && extent > 0.0 && duration > 0
    ensures Segment(samples, axis, extent, share, CutsInside(shotCuts, duration), duration).Valid()
    ensures track == Plan(Segment(samples, axis, extent, share, CutsInside(shotCuts, duration), duration))
  {
    var cuts := CutsInside(shotCuts, duration);
    assert forall i :: 0 <= i < |cuts| ==> cuts[i] in cuts;
    track := PlanShots(Segment(samples, axis, extent, share, cuts, duration));
  }
}
