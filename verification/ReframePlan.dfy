/**
 What the crop plan promises: moves in time order that never overlap, and a crop that keeps the subject
 framed between the sightings.
 */
module ReframePlan {
  import opened Numbers
  import opened Wrappers
  import opened Reframe

  // ---------------------------------------------------------------------------
  // Where a plan puts the crop
  // ---------------------------------------------------------------------------

  /** How far a move has got, from 0 to 1, `t` milliseconds into the segment. */
  function Progress(move: Move, t: real): (r: real)
    ensures 0.0 <= r <= 1.0
  {
    if move.end <= move.start then if t >= move.start as real then 1.0 else 0.0
    else MinReal(1.0, MaxReal(0.0, (t - move.start as real) / (move.end - move.start) as real))
  }

  function LastPosition(initial: real, moves: seq<Move>): real {
    if moves == [] then initial else moves[|moves| - 1].position
  }

  /** The position the plan means at time t: the last move begun decides, from where the one before it led. */
  function PlanAt(initial: real, moves: seq<Move>, t: real): real {
    if moves == [] then initial
    else
      var front, last := moves[..|moves| - 1], moves[|moves| - 1];
      if t < last.start as real then PlanAt(initial, front, t)
      else
        var before := LastPosition(initial, front);
        before + (last.position - before) * Progress(last, t)
  }

  // ---------------------------------------------------------------------------
  // Time order
  // ---------------------------------------------------------------------------

  /** Moves come in time order, each over before the next starts. */
  predicate InTurn(moves: seq<Move>) {
    && (forall i :: 0 <= i < |moves| ==> moves[i].start <= moves[i].end)
    && (forall i, j :: 0 <= i < j < |moves| ==> moves[i].end <= moves[j].start)
  }

  predicate Between(moves: seq<Move>, from: int, to: int) {
    forall i :: 0 <= i < |moves| ==> from <= moves[i].start <= moves[i].end <= to
  }

  predicate Positions(moves: seq<Move>) {
    forall i :: 0 <= i < |moves| ==> 0.0 <= moves[i].position <= 1.0
  }

  /** Sightings are at least one sample interval apart, and not before the segment. */
  predicate Spaced(found: seq<Sighting>) {
    && (forall i :: 0 <= i < |found| ==> found[i].time >= 0)
    && (forall i, j :: 0 <= i < j < |found| ==> found[i].time + SAMPLE_INTERVAL_MS <= found[j].time)
  }

  lemma {:induction false} DetectedSpaced(s: Segment, n: nat)
    requires s.Valid() && n <= |s.samples|
    ensures Spaced(Detected(s, n))
    ensures forall i :: 0 <= i < |Detected(s, n)| ==> Detected(s, n)[i].time <= (n - 1) * SAMPLE_INTERVAL_MS
  {
    if n > 0 {
      DetectedSpaced(s, n - 1);
    }
  }

  predicate InTime(found: seq<Sighting>, first: int, last: int, until: int) {
    && Spaced(found)
    && (forall i :: 0 <= i < |found| ==> first <= found[i].time < last && found[i].time <= until)
  }

  lemma InTimeAppend(found: seq<Sighting>, first: int, last: int, until: int, x: Sighting)
    requires InTime(found, first, last, until) && until + SAMPLE_INTERVAL_MS <= x.time && x.time >= 0
    ensures InTime(found, first, last, x.time)
    ensures first <= x.time < last ==> InTime(found + [x], first, last, x.time)
  {
  }

  lemma OneInTime(x: Sighting, first: int, last: int)
    requires x.time >= 0
    ensures InTime([], first, last, x.time)
    ensures first <= x.time < last ==> InTime([x], first, last, x.time)
  {
  }

  lemma SpacedLast(sightings: seq<Sighting>)
    requires Spaced(sightings) && sightings != []
    ensures var k := |sightings| - 1;
            && Spaced(sightings[..k]) && sightings[k].time >= 0
            && (k > 0 ==> sightings[..k][k - 1].time + SAMPLE_INTERVAL_MS <= sightings[k].time)
  {
  }

  lemma WithinLast(sightings: seq<Sighting>, first: int, last: int)
    requires sightings != []
    ensures var k := |sightings| - 1;
            Within(sightings, first, last) ==
            if first <= sightings[k].time < last then Within(sightings[..k], first, last) + [sightings[k]]
            else Within(sightings[..k], first, last)
  {
  }

  lemma {:induction false} WithinSpaced(sightings: seq<Sighting>, first: int, last: int)
    requires Spaced(sightings)
    ensures sightings == [] ==> Within(sightings, first, last) == []
    ensures sightings != [] ==>
              InTime(Within(sightings, first, last), first, last, sightings[|sightings| - 1].time)
  {
    if sightings != [] {
      hide Spaced, Within, InTime;
      var k := |sightings| - 1;
      var front, x := sightings[..k], sightings[k];
      SpacedLast(sightings);
      WithinLast(sightings, first, last);
      WithinSpaced(front, first, last);
      if k > 0 {
        InTimeAppend(Within(front, first, last), first, last, front[k - 1].time, x);
      } else {
        OneInTime(x, first, last);
        assert [] + [x] == [x];
      }
    }
  }

  /** The sightings of a shot are inside it. */
  predicate InShot(found: seq<Sighting>, start: int, end: int) {
    Spaced(found) && forall i :: 0 <= i < |found| ==> start <= found[i].time < end
  }

  lemma EdgesAscend(s: Segment, shot: nat)
    requires s.Valid() && shot <= |s.cuts|
    ensures 0 <= s.Edges()[shot] < s.Edges()[shot + 1] <= s.duration
    ensures s.Edges()[shot] > 0 <==> shot > 0
    ensures shot > 0 ==> s.Edges()[shot] in s.cuts
  {
    var edges := s.Edges();
    assert shot > 0 ==> edges[shot] == s.cuts[shot - 1];
    assert shot < |s.cuts| ==> edges[shot + 1] == s.cuts[shot];
  }

  lemma EdgeIs(s: Segment, shot: nat)
    requires shot <= |s.cuts|
    ensures s.Edges()[shot] == if shot == 0 then 0 else s.cuts[shot - 1]
    ensures s.Edges()[shot + 1] == if shot == |s.cuts| then s.duration else s.cuts[shot]
  {
  }

  lemma NoneInShot(start: int, end: int)
    ensures InShot([], start, end)
  {
  }

  lemma InTimeInShot(found: seq<Sighting>, first: int, last: int, until: int, start: int, end: int)
    requires InTime(found, first, last, until) && start <= first && last <= end
    ensures InShot(found, start, end)
  {
    hide Spaced;
  }

  lemma FoundInShot(s: Segment, shot: nat)
    requires s.Valid() && shot <= |s.cuts|
    ensures InShot(Found(s, shot), s.Edges()[shot], s.Edges()[shot + 1])
  {
    hide Found, Spaced, Detected, Within, Segment.Edges, InTime, InShot;
    EdgesAscend(s, shot);
    DetectedSpaced(s, |s.samples|);
    FoundIs(s, shot);
    var start, end := s.Edges()[shot], s.Edges()[shot + 1];
    var first := if start != 0 then start + CUT_GUARD_MS else 0;
    var last := if end < s.duration then end - CUT_GUARD_MS else end;
    var detected := Detected(s, |s.samples|);
    WithinSpaced(detected, first, last);
    if detected == [] {
      NoneInShot(start, end);
    } else {
      InTimeInShot(Found(s, shot), first, last, detected[|detected| - 1].time, start, end);
    }
  }

  /** Each move takes time and starts after the shot does. */
  predicate TakesTime(pans: seq<Move>, start: int) {
    forall i :: 0 <= i < |pans| ==> start < pans[i].start < pans[i].end
  }

  predicate EndBefore(moves: seq<Move>, limit: int) {
    forall i :: 0 <= i < |moves| ==> moves[i].end <= limit
  }

  /** A shot's pans take time, in turn and inside the shot. */
  predicate PansOrderly(pans: seq<Move>, start: int, end: int) {
    InTurn(pans) && Positions(pans) && Between(pans, start, end) && TakesTime(pans, start)
  }

  lemma PansOrderlyAppend(pans: seq<Move>, start: int, end: int, last: int, next: Move)
    requires PansOrderly(pans, start, end) && EndBefore(pans, last) && last <= next.start
    requires start < next.start < next.end <= end && 0.0 <= next.position <= 1.0
    ensures PansOrderly(pans + [next], start, end)
    ensures next.end <= next.start + PAN_MS ==> EndBefore(pans + [next], next.start + PAN_MS)
  {
  }

  /** Each pan ends before the next sighting, and within its shot. */
  lemma {:induction false} PansInTurn(found: seq<Sighting>, k: nat, start: int, end: int, share: real)
    requires share < 1.0 && InShot(found, start, end) && (k < |found| || k == 0)
    ensures PansOrderly(Pans(found, k, end, share), start, end)
    ensures found != [] ==> EndBefore(Pans(found, k, end, share), found[k].time + PAN_MS)
    ensures LastPosition(PositionAfter(found, 0, share), Pans(found, k, end, share)) == PositionAfter(found, k, share)
  {
    if k > 0 {
      PansInTurn(found, k - 1, start, end, share);
      assert found[k - 1].time + SAMPLE_INTERVAL_MS <= found[k].time;
      assert start <= found[k - 1].time < found[k].time < end;
      hide Position, Stays, PansOrderly, Spaced, InShot;
      var earlier := Pans(found, k - 1, end, share);
      if Stays(PositionAfter(found, k - 1, share), found[k].centre, share) {
        assert earlier + [] == earlier;
      } else {
        var next := Move(found[k].time, Min(found[k].time + PAN_MS, end), Position(found[k].centre, share));
        PansOrderlyAppend(earlier, start, end, found[k - 1].time + PAN_MS, next);
      }
    }
  }

  /** As long as the subject stays in the middle third of the crop, the crop holds still: no pan is planned. */
  lemma {:induction false} CropHoldsStill(found: seq<Sighting>, from: nat, k: nat, end: int, share: real)
    requires 0.0 < share < 1.0 && from <= k < |found|
    requires forall i :: from < i <= k ==> InMiddleThird(PositionAfter(found, from, share), found[i].centre, share)
    ensures PositionAfter(found, k, share) == PositionAfter(found, from, share)
    ensures Pans(found, k, end, share) == Pans(found, from, end, share)
  {
    if from < k {
      CropHoldsStill(found, from, k - 1, end, share);
      StaysInMiddleThird(PositionAfter(found, from, share), found[k].centre, share);
      hide Stays, Position, InMiddleThird;
      assert Pans(found, k - 1, end, share) + [] == Pans(found, k - 1, end, share);
    }
  }

  /** A shot's moves: at most one jump, at its start and only after a cut, then pans that take time. */
  lemma ShotInTurn(s: Segment, shot: nat)
    requires s.Valid() && shot <= |s.cuts|
    ensures var moves, start, end := ShotMoves(s, shot), s.Edges()[shot], s.Edges()[shot + 1];
            && InTurn(moves) && Positions(moves) && Between(moves, start, end)
            && (forall i :: 0 <= i < |moves| ==>
                  (moves[i].start == moves[i].end <==> i == 0 && shot > 0))
            && (shot > 0 ==> |moves| > 0 && moves[0].start == start)
  {
    var found, start, end := Found(s, shot), s.Edges()[shot], s.Edges()[shot + 1];
    EdgesAscend(s, shot);
    FoundInShot(s, shot);
    hide Found, Segment.Edges, Pans;
    PansInTurn(found, LastIndex(found), start, end, s.share);
  }

  lemma InTurnAppend(a: seq<Move>, b: seq<Move>, from: int, mid: int, to: int)
    requires InTurn(a) && InTurn(b) && Between(a, from, mid) && Between(b, mid, to) && from <= mid <= to
    ensures InTurn(a + b) && Between(a + b, from, to)
  {
  }

  /** A move that takes no time, a jump, is at a cut. */
  predicate JumpsAtCuts(moves: seq<Move>, cuts: seq<int>) {
    forall i :: 0 <= i < |moves| && moves[i].start == moves[i].end ==> moves[i].start in cuts
  }

  /** The moves of the first n shots are in turn, before the next shot, and jump only at cuts. */
  lemma {:induction false} MovesInTurn(s: Segment, n: nat)
    requires s.Valid() && n <= |s.cuts| + 1
    ensures var moves := MovesBefore(s, n);
            && InTurn(moves) && Positions(moves) && Between(moves, 0, s.Edges()[n]) && JumpsAtCuts(moves, s.cuts)
            && s.Edges()[n] >= 0
  {
    if n > 0 {
      var earlier, more := MovesBefore(s, n - 1), ShotMoves(s, n - 1);
      MovesInTurn(s, n - 1);
      ShotInTurn(s, n - 1);
      EdgesAscend(s, n - 1);
      assert n > 1 ==> s.Edges()[n - 1] == s.cuts[n - 2];
      assert MovesBefore(s, n) == earlier + more;
      hide ShotMoves, Segment.Edges, MovesBefore, Segment.Valid;
      InTurnAppend(earlier, more, 0, s.Edges()[n - 1], s.Edges()[n]);
      hide InTurn, Positions, Between;
    }
  }

  /**
   The plan of any segment: every position is in the frame, moves come in time order without overlap and
   inside the segment, and only jumps at cuts take no time.
   */
  lemma PlanIsOrderly(s: Segment)
    requires s.Valid()
    ensures var track := Plan(s);
            && 0.0 <= track.initial <= 1.0 && Positions(track.moves)
            && InTurn(track.moves) && Between(track.moves, 0, s.duration) && JumpsAtCuts(track.moves, s.cuts)
  {
    MovesInTurn(s, |s.cuts| + 1);
  }

  // ---------------------------------------------------------------------------
  // Framing over time
  // ---------------------------------------------------------------------------

  predicate StartAfter(moves: seq<Move>, t: real) {
    forall i :: 0 <= i < |moves| ==> t < moves[i].start as real
  }

  predicate OverBy(moves: seq<Move>, t: real) {
    forall i :: 0 <= i < |moves| ==> moves[i].start as real <= t && moves[i].end as real <= t
  }

  /** Moves still to come don't matter yet. */
  lemma {:induction false} LaterMovesWait(initial: real, a: seq<Move>, b: seq<Move>, t: real)
    requires StartAfter(b, t)
    ensures PlanAt(initial, a + b, t) == PlanAt(initial, a, t)
    decreases |b|
  {
    if b == [] {
      assert a + b == a;
    } else {
      var front := b[..|b| - 1];
      LaterMovesWait(initial, a, front, t);
      assert (a + b)[..|a + b| - 1] == a + front;
    }
  }

  lemma ProgressDone(a: real, b: real)
    requires a >= b > 0.0
    ensures a / b >= 1.0
  {
  }

  /** Once every move is over, the crop is where the last one led. */
  lemma MovesSettle(initial: real, moves: seq<Move>, t: real)
    requires OverBy(moves, t)
    ensures PlanAt(initial, moves, t) == LastPosition(initial, moves)
  {
    if moves != [] {
      var last := moves[|moves| - 1];
      if last.end > last.start {
        ProgressDone(t - last.start as real, (last.end - last.start) as real);
      }
      var before := LastPosition(initial, moves[..|moves| - 1]);
      assert before + (last.position - before) * 1.0 == last.position;
    }
  }

  predicate StartFrom(moves: seq<Move>, at: int) {
    forall i :: 0 <= i < |moves| ==> moves[i].start >= at
  }

  /** The pans after sighting k start no earlier than the next sighting. */
  lemma {:induction false} PansSplit(found: seq<Sighting>, k: nat, n: nat, end: int, share: real)
    returns (later: seq<Move>)
    requires share < 1.0 && k <= n < |found| && Spaced(found)
    ensures Pans(found, n, end, share) == Pans(found, k, end, share) + later
    ensures k + 1 == |found| ==> later == []
    ensures k + 1 < |found| ==> StartFrom(later, found[k + 1].time)
    decreases n
  {
    hide Position, Stays;
    if k == n {
      later := [];
    } else {
      var earlier := PansSplit(found, k, n - 1, end, share);
      var more := if Stays(PositionAfter(found, n - 1, share), found[n].centre, share) then []
                  else [Move(found[n].time, Min(found[n].time + PAN_MS, end), Position(found[n].centre, share))];
      later := earlier + more;
      assert found[k + 1].time <= found[n].time;
    }
  }

  lemma ShotStartsFrom(s: Segment, shot: nat, at: int)
    requires s.Valid() && shot <= |s.cuts| && at <= s.Edges()[shot]
    ensures StartFrom(ShotMoves(s, shot), at)
  {
    ShotInTurn(s, shot);
  }

  lemma StartFromAppend(a: seq<Move>, b: seq<Move>, at: int)
    requires StartFrom(a, at) && StartFrom(b, at)
    ensures StartFrom(a + b, at)
  {
  }

  lemma StartFromNone(at: int)
    ensures StartFrom([], at)
  {
  }

  /** The moves of the shots after one start no earlier than it ends. */
  lemma {:induction false} ShotsSplit(s: Segment, shot: nat, n: nat) returns (later: seq<Move>)
    requires s.Valid() && shot < n <= |s.cuts| + 1
    ensures MovesBefore(s, n) == MovesBefore(s, shot + 1) + later
    ensures StartFrom(later, s.Edges()[shot + 1])
    ensures s.Edges()[shot + 1] <= s.Edges()[n]
    decreases n
  {
    hide ShotMoves, Segment.Edges, StartFrom, Segment.Valid;
    if n == shot + 1 {
      later := [];
      assert StartFrom([], s.Edges()[shot + 1]) by {
        StartFromNone(s.Edges()[shot + 1]);
      }
    } else {
      var earlier := ShotsSplit(s, shot, n - 1);
      EdgesAscend(s, n - 1);
      ShotStartsFrom(s, n - 1, s.Edges()[shot + 1]);
      StartFromAppend(earlier, ShotMoves(s, n - 1), s.Edges()[shot + 1]);
      later := earlier + ShotMoves(s, n - 1);
    }
  }

  /** What has been planned by sighting k of a shot: all earlier shots, the shot's jump, and its pans so far. */
  function PlannedBy(s: Segment, shot: nat, k: nat): seq<Move>
    requires s.Valid() && shot <= |s.cuts| && k < |Found(s, shot)|
  {
    MovesBefore(s, shot)
    + (if shot == 0 then [] else [Move(s.Edges()[shot], s.Edges()[shot], PositionAfter(Found(s, shot), 0, s.share))])
    + Pans(Found(s, shot), k, s.Edges()[shot + 1], s.share)
  }

  /**
   The time from which the crop is meant to have reached its place for sighting k: at once if it was there,
   or once its pan is over; and until when.
   */
  function SettledFrom(s: Segment, shot: nat, k: nat): int
    requires s.Valid() && shot <= |s.cuts| && k < |Found(s, shot)|
  {
    var found := Found(s, shot);
    if k == 0 then s.Edges()[shot]
    else if Stays(PositionAfter(found, k - 1, s.share), found[k].centre, s.share) then found[k].time
    else Min(found[k].time + PAN_MS, s.Edges()[shot + 1])
  }

  function SettledUntil(s: Segment, shot: nat, k: nat): int
    requires s.Valid() && shot <= |s.cuts| && k < |Found(s, shot)|
  {
    if k + 1 < |Found(s, shot)| then Found(s, shot)[k + 1].time else s.Edges()[shot + 1]
  }

  lemma OverByAppend(a: seq<Move>, b: seq<Move>, t: real)
    requires OverBy(a, t) && OverBy(b, t)
    ensures OverBy(a + b, t)
  {
  }

  lemma OverByTime(moves: seq<Move>, from: int, to: int, t: real)
    requires Between(moves, from, to) && to as real <= t
    ensures OverBy(moves, t)
  {
  }

  /** The pans for sightings 1 to k are over when the last of them is, or at sighting k if it needs none. */
  lemma PansEnd(found: seq<Sighting>, k: nat, start: int, end: int, share: real)
    requires share < 1.0 && InShot(found, start, end) && 0 < k < |found|
    ensures var stays := Stays(PositionAfter(found, k - 1, share), found[k].centre, share);
            var over := if stays then found[k].time else Min(found[k].time + PAN_MS, end);
            var pans := Pans(found, k, end, share);
            start <= over && forall i :: 0 <= i < |pans| ==> pans[i].end <= over
  {
    PansInTurn(found, k - 1, start, end, share);
    hide Stays, Position, PositionAfter;
    assert found[k - 1].time + SAMPLE_INTERVAL_MS <= found[k].time;
  }

  /** The shot's pans up to sighting k are over by the time it is settled. */
  lemma PansOver(s: Segment, shot: nat, k: nat, t: real)
    requires s.Valid() && shot <= |s.cuts| && k < |Found(s, shot)|
    requires SettledFrom(s, shot, k) as real <= t
    ensures OverBy(Pans(Found(s, shot), k, s.Edges()[shot + 1], s.share), t)
    ensures s.Edges()[shot] as real <= t
    ensures LastPosition(PositionAfter(Found(s, shot), 0, s.share),
                         Pans(Found(s, shot), k, s.Edges()[shot + 1], s.share)) ==
            PositionAfter(Found(s, shot), k, s.share)
  {
    var found, start, end := Found(s, shot), s.Edges()[shot], s.Edges()[shot + 1];
    EdgesAscend(s, shot);
    FoundInShot(s, shot);
    PansInTurn(found, k, start, end, s.share);
    if k > 0 {
      PansEnd(found, k, start, end, s.share);
    }
    hide Found, Segment.Edges, Position, Stays, PositionAfter, Pans;
  }

  lemma NothingBefore(s: Segment)
    requires s.Valid()
    ensures MovesBefore(s, 0) == []
  {
  }

  /** By then everything planned is over, and the last of it led where sighting k asks. */
  lemma PlannedIsOver(s: Segment, shot: nat, k: nat, t: real)
    requires s.Valid() && shot <= |s.cuts| && k < |Found(s, shot)|
    requires SettledFrom(s, shot, k) as real <= t
    ensures OverBy(PlannedBy(s, shot, k), t)
    ensures LastPosition(Plan(s).initial, PlannedBy(s, shot, k)) == PositionAfter(Found(s, shot), k, s.share)
  {
    PansOver(s, shot, k, t);
    MovesInTurn(s, shot);
    hide MovesBefore, Found, Segment.Edges, PositionAfter, Pans, InTurn, Positions, JumpsAtCuts, SettledFrom,
         Segment.Valid;
    var before, start := MovesBefore(s, shot), s.Edges()[shot];
    var pans := Pans(Found(s, shot), k, s.Edges()[shot + 1], s.share);
    OverByTime(before, 0, start, t);
    if shot == 0 {
      NothingBefore(s);
      assert PlannedBy(s, shot, k) == [] + [] + pans == pans;
    } else {
      var jump := [Move(start, start, PositionAfter(Found(s, shot), 0, s.share))];
      OverByAppend(before, jump, t);
      OverByAppend(before + jump, pans, t);
      assert PlannedBy(s, shot, k) == before + jump + pans;
    }
  }

  lemma Regroup(a: seq<Move>, b: seq<Move>, c: seq<Move>, d: seq<Move>, e: seq<Move>)
    ensures (a + (b + (c + d))) + e == (a + b + c) + (d + e)
  {
  }

  lemma ShotIsJumpAndPans(s: Segment, shot: nat, jump: seq<Move>)
    requires s.Valid() && shot <= |s.cuts|
    requires jump ==
             if shot == 0 then []
             else [Move(s.Edges()[shot], s.Edges()[shot], PositionAfter(Found(s, shot), 0, s.share))]
    ensures ShotMoves(s, shot) == jump + Pans(Found(s, shot), LastIndex(Found(s, shot)), s.Edges()[shot + 1], s.share)
  {
  }

  lemma LaterEdge(s: Segment, shot: nat, k: nat)
    requires s.Valid() && shot <= |s.cuts| && k + 1 < |Found(s, shot)|
    ensures Found(s, shot)[k + 1].time <= s.Edges()[shot + 1]
  {
    FoundInShot(s, shot);
  }

  lemma LaterStarts(a: seq<Move>, b: seq<Move>, at: int, later: int)
    requires StartFrom(a, at) && StartFrom(b, later) && at <= later
    ensures StartFrom(a + b, at)
  {
  }

  /** The rest of the plan starts when sighting k no longer decides. */
  lemma PlanSplit(s: Segment, shot: nat, k: nat) returns (later: seq<Move>)
    requires s.Valid() && shot <= |s.cuts| && k < |Found(s, shot)|
    ensures Plan(s).moves == PlannedBy(s, shot, k) + later
    ensures StartFrom(later, SettledUntil(s, shot, k))
  {
    hide Found, Segment.Edges, Pans, PositionAfter, Spaced;
    var found, end := Found(s, shot), s.Edges()[shot + 1];
    FoundInShot(s, shot);
    var laterPans := PansSplit(found, k, |found| - 1, end, s.share);
    var laterShots := ShotsSplit(s, shot, |s.cuts| + 1);
    hide Segment.Valid;
    later := laterPans + laterShots;
    var jump: seq<Move> :=
      if shot == 0 then [] else [Move(s.Edges()[shot], s.Edges()[shot], PositionAfter(found, 0, s.share))];
    hide StartFrom, ShotMoves;
    Regroup(MovesBefore(s, shot), jump, Pans(found, k, end, s.share), laterPans, laterShots);
    ShotIsJumpAndPans(s, shot, jump);
    if k + 1 < |found| {
      LaterEdge(s, shot, k);
      LaterStarts(laterPans, laterShots, found[k + 1].time, end);
    } else {
      assert later == laterShots;
    }
  }

  /** Having considered a sighting, the crop may stay for it. */
  lemma FramedAfter(found: seq<Sighting>, k: nat, share: real)
    requires share < 1.0 && k < |found|
    ensures Stays(PositionAfter(found, k, share), found[k].centre, share)
  {
  }

  /**
   Between the sightings the crop stands still where the last one asked: from the shot's start, from the
   sighting if it asked for no pan, or from the end of its pan, until the next sighting or the shot's end,
   the subject is in the crop's middle third or the crop could get no nearer.
   */
  lemma CropStaysFramed(s: Segment, shot: nat, k: nat, t: real)
    requires s.Valid() && shot <= |s.cuts| && k < |Found(s, shot)|
    requires SettledFrom(s, shot, k) as real <= t < SettledUntil(s, shot, k) as real
    ensures PlanAt(Plan(s).initial, Plan(s).moves, t) == PositionAfter(Found(s, shot), k, s.share)
    ensures Stays(PlanAt(Plan(s).initial, Plan(s).moves, t), Found(s, shot)[k].centre, s.share)
  {
    var later := PlanSplit(s, shot, k);
    hide Found, Segment.Edges, Position, Pans, PlanAt, SettledFrom, SettledUntil, Segment.Valid, PlannedBy;
    FramedAfter(Found(s, shot), k, s.share);
    LaterMovesWait(Plan(s).initial, PlannedBy(s, shot, k), later, t);
    PlannedIsOver(s, shot, k, t);
    MovesSettle(Plan(s).initial, PlannedBy(s, shot, k), t);
  }

  /** So a subject seen inside the frame is inside the crop for as long. */
  lemma SubjectStaysInside(s: Segment, shot: nat, k: nat, t: real)
    requires s.Valid() && shot <= |s.cuts| && k < |Found(s, shot)|
    requires SettledFrom(s, shot, k) as real <= t < SettledUntil(s, shot, k) as real
    requires 0.0 <= Found(s, shot)[k].centre <= 1.0
    ensures var p := PlanAt(Plan(s).initial, Plan(s).moves, t);
            p * (1.0 - s.share) <= Found(s, shot)[k].centre <= p * (1.0 - s.share) + s.share
  {
    hide PlanAt, Plan, Stays, Found, SettledFrom, SettledUntil, Segment.Edges, PositionAfter;
    CropStaysFramed(s, shot, k, t);
    FramedIsInside(PlanAt(Plan(s).initial, Plan(s).moves, t), Found(s, shot)[k].centre, s.share);
  }

  // ---------------------------------------------------------------------------
  // Which samples decide
  // ---------------------------------------------------------------------------

  /** Sample i has a face centred there. */
  predicate SeenAt(s: Segment, i: nat, x: Sighting)
    requires s.Valid() && i < |s.samples|
  {
    x.time == i * SAMPLE_INTERVAL_MS && SubjectCentre(s.samples[i], s.axis, s.extent) == Some(x.centre)
  }

  lemma {:induction false} DetectedAre(s: Segment, n: nat, x: Sighting)
    requires s.Valid() && n <= |s.samples|
    ensures x in Detected(s, n) <==> exists i :: 0 <= i < n && SeenAt(s, i, x)
  {
    if n > 0 {
      DetectedAre(s, n - 1, x);
      hide SubjectCentre;
      assert x in Detected(s, n) <==> x in Detected(s, n - 1) || SeenAt(s, n - 1, x);
    }
  }

  lemma {:induction false} WithinAre(sightings: seq<Sighting>, first: int, last: int, x: Sighting)
    ensures x in Within(sightings, first, last) <==> x in sightings && first <= x.time < last
  {
    if sightings != [] {
      var k := |sightings| - 1;
      WithinAre(sightings[..k], first, last, x);
      assert sightings == sightings[..k] + [sightings[k]];
    }
  }

  /** A shot's sightings are exactly its samples with a face that no cut is within the guard of. */
  lemma FoundAre(s: Segment, shot: nat, x: Sighting)
    requires s.Valid() && shot <= |s.cuts|
    ensures x in Found(s, shot) <==>
              && (exists i :: 0 <= i < |s.samples| && SeenAt(s, i, x))
              && (if shot == 0 then 0 <= x.time else s.cuts[shot - 1] + CUT_GUARD_MS <= x.time)
              && (if shot == |s.cuts| then x.time < s.duration else x.time < s.cuts[shot] - CUT_GUARD_MS)
  {
    hide Found, Detected, Within, SeenAt, Segment.Edges;
    EdgeIs(s, shot);
    EdgesAscend(s, shot);
    if shot < |s.cuts| {
      EdgesAscend(s, shot + 1);
    }
    FoundIs(s, shot);
    DetectedAre(s, |s.samples|, x);
    var start, end := s.Edges()[shot], s.Edges()[shot + 1];
    WithinAre(Detected(s, |s.samples|), if start != 0 then start + CUT_GUARD_MS else 0,
              if end < s.duration then end - CUT_GUARD_MS else end, x);
  }

  /** A shot in which no face was found is centred throughout. */
  lemma EmptyShotIsCentred(s: Segment, shot: nat, t: real)
    requires s.Valid() && shot <= |s.cuts| && Found(s, shot) == []
    requires s.Edges()[shot] as real <= t < s.Edges()[shot + 1] as real
    ensures PlanAt(Plan(s).initial, Plan(s).moves, t) == CENTRE
  {
    var later := ShotsSplit(s, shot, |s.cuts| + 1);
    var before, start := MovesBefore(s, shot), s.Edges()[shot];
    var jump: seq<Move> := if shot == 0 then [] else [Move(start, start, CENTRE)];
    assert ShotMoves(s, shot) == jump;
    MovesInTurn(s, shot);
    NothingBefore(s);
    hide Found, Segment.Edges, MovesBefore, ShotMoves, PlanAt, InTurn, Positions, JumpsAtCuts, Segment.Valid;
    OverByTime(before, 0, start, t);
    OverByAppend(before, jump, t);
    LaterMovesWait(Plan(s).initial, before + jump, later, t);
    MovesSettle(Plan(s).initial, before + jump, t);
  }
}
