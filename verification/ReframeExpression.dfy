/**
 The crop expression of apps/renderer/media/reframe.py: a printed sum of ramps that stands for a plan.

 The printed numbers are exact: changes are rounded to four decimals, half to even, and times in seconds
 have all the three decimals whole milliseconds need.
 */
module ReframeExpression {
  import opened Reframe
  import opened ReframePlan

  const SMALLEST_CHANGE := 0.0001

  datatype Term =
    | Constant(value: real)
    | Jump(change: real, start: real)                  // (change)*gte(t,start)
    | Ramp(change: real, start: real, length: real)    // (change)*clip((t-start)/length,0,1)

  // ---------------------------------------------------------------------------
  // Printing
  // ---------------------------------------------------------------------------

  function RoundReal(x: real): (r: int)
    ensures -0.5 <= r as real - x <= 0.5
  {
    var below := x.Floor;
    var rest := x - below as real;
    if rest < 0.5 || (rest == 0.5 && below % 2 == 0) then below else below + 1
  }

  /** A number printed with four decimals. */
  function Round4(x: real): (r: real)
    ensures -0.00005 <= r - x <= 0.00005
  {
    RoundReal(x * 10000.0) as real / 10000.0
  }

  function Seconds(milliseconds: int): real {
    milliseconds as real / 1000.0
  }

  /** The term of one move, unless it changes too little to print. */
  function TermOf(move: Move, previous: real): seq<Term> {
    var change := move.position - previous;
    if AbsReal(change) < SMALLEST_CHANGE then []
    else if move.end <= move.start then [Jump(Round4(change), Seconds(move.start))]
    else [Ramp(Round4(change), Seconds(move.start), Seconds(move.end - move.start))]
  }

  /** A change is printed exactly when it is a ten-thousandth or more. */
  lemma PrintedIff(move: Move, previous: real)
    ensures TermOf(move, previous) == [] <==> -0.0001 < move.position - previous < 0.0001
    ensures |TermOf(move, previous)| <= 1
  {
  }

  /** A printed number has four decimals, rounded half to even. */
  lemma FourDecimals(x: real)
    ensures var n := Round4(x) * 10000.0;
            && n == n.Floor as real && -0.5 <= n - x * 10000.0 <= 0.5
            && ((n - x * 10000.0 == 0.5 || n - x * 10000.0 == -0.5) ==> n.Floor % 2 == 0)
  {
    var scaled := x * 10000.0;
    assert (RoundReal(scaled) as real).Floor == RoundReal(scaled);
  }

  function MoveTerms(initial: real, moves: seq<Move>): seq<Term> {
    if moves == [] then []
    else
      var front, last := moves[..|moves| - 1], moves[|moves| - 1];
      MoveTerms(initial, front) + TermOf(last, LastPosition(initial, front))
  }

  function Expression(track: Track): seq<Term> {
    [Constant(Round4(track.initial))] + MoveTerms(track.initial, track.moves)
  }

  method CropExpression(track: Track) returns (terms: seq<Term>)
    ensures terms == Expression(track)
  {
    terms := [Constant(Round4(track.initial))];
    var previous := track.initial;
    for i := 0 to |track.moves|
      invariant previous == LastPosition(track.initial, track.moves[..i])
      invariant terms == [Constant(Round4(track.initial))] + MoveTerms(track.initial, track.moves[..i])
    {
      assert track.moves[..i + 1][..i] == track.moves[..i];
      var move := track.moves[i];
      ghost var printed := TermOf(move, previous);
      ghost var before := terms;
      var change := move.position - previous;
      previous := move.position;
      if AbsReal(change) < SMALLEST_CHANGE {
        assert before == before + printed;
        continue;
      }
      var start := Seconds(move.start);
      if move.end <= move.start {
        terms := terms + [Jump(Round4(change), start)];
      } else {
        terms := terms + [Ramp(Round4(change), start, Seconds(move.end - move.start))];
      }
      assert terms == before + printed;
    }
    assert track.moves[..|track.moves|] == track.moves;
  }

  // ---------------------------------------------------------------------------
  // Evaluation
  // ---------------------------------------------------------------------------

  function Clip(x: real): real {
    MinReal(1.0, MaxReal(0.0, x))
  }

  /** The value of a term `t` seconds into the segment. */
  function Evaluate(term: Term, t: real): real {
    match term
    case Constant(value) => value
    case Jump(change, start) => change * (if t >= start then 1.0 else 0.0)
    case Ramp(change, start, length) => if length == 0.0 then 0.0 else change * Clip((t - start) / length)
  }

  function Sum(terms: seq<Term>, t: real): real {
    if terms == [] then 0.0 else Sum(terms[..|terms| - 1], t) + Evaluate(terms[|terms| - 1], t)
  }

  lemma {:induction false} SumAppend(a: seq<Term>, b: seq<Term>, t: real)
    ensures Sum(a + b, t) == Sum(a, t) + Sum(b, t)
  {
    if b == [] {
      assert a + b == a;
    } else {
      SumAppend(a, b[..|b| - 1], t);
      assert (a + b)[..|a + b| - 1] == a + b[..|b| - 1];
    }
  }

  // ---------------------------------------------------------------------------
  // The sum of ramps is the plan
  // ---------------------------------------------------------------------------

  /** The unrounded sum: each move adds its change, as far as it has got. */
  function Ramps(initial: real, moves: seq<Move>, t: real): real {
    if moves == [] then initial
    else
      var front, last := moves[..|moves| - 1], moves[|moves| - 1];
      Ramps(initial, front, t) + (last.position - LastPosition(initial, front)) * Progress(last, t)
  }

  /** Once every move is over, the changes add up to the last position. */
  lemma {:induction false} RampsSettle(initial: real, moves: seq<Move>, t: real)
    requires OverBy(moves, t)
    ensures Ramps(initial, moves, t) == LastPosition(initial, moves)
  {
    if moves != [] {
      var last := moves[|moves| - 1];
      RampsSettle(initial, moves[..|moves| - 1], t);
      if last.end > last.start {
        ProgressDone(t - last.start as real, (last.end - last.start) as real);
      }
      assert Progress(last, t) == 1.0;
    }
  }

  lemma NegativeRatio(a: real, b: real)
    requires a < 0.0 < b
    ensures a / b < 0.0
  {
  }

  /** A move that has not begun has got nowhere. */
  lemma NotBegun(move: Move, t: real)
    requires t < move.start as real
    ensures Progress(move, t) == 0.0
  {
    if move.end > move.start {
      NegativeRatio(t - move.start as real, (move.end - move.start) as real);
    }
  }

  /** Because moves never overlap, the sum of ramps is the piecewise-linear plan at every time. */
  lemma {:induction false} RampsArePlan(initial: real, moves: seq<Move>, t: real)
    requires InTurn(moves)
    ensures Ramps(initial, moves, t) == PlanAt(initial, moves, t)
  {
    if moves != [] {
      var front, last := moves[..|moves| - 1], moves[|moves| - 1];
      if t < last.start as real {
        RampsArePlan(initial, front, t);
        NotBegun(last, t);
      } else {
        assert forall i :: 0 <= i < |front| ==> front[i].end <= last.start;
        RampsSettle(initial, front, t);
      }
    }
  }

  // ---------------------------------------------------------------------------
  // Rounding
  // ---------------------------------------------------------------------------

  lemma ScaledRatio(a: real, b: real)
    requires b > 0.0
    ensures (a / 1000.0) / (b / 1000.0) == a / b
  {
    var r := a / b;
    assert r * b == a;
    assert r * (b / 1000.0) == a / 1000.0;
  }

  /** The printed ramp, in seconds, is the move's progress in milliseconds. */
  lemma RampIsProgress(move: Move, t: real)
    requires move.end > move.start
    ensures Clip((t - Seconds(move.start)) / Seconds(move.end - move.start)) == Progress(move, 1000.0 * t)
  {
    var a, b := 1000.0 * t - move.start as real, (move.end - move.start) as real;
    assert t - Seconds(move.start) == a / 1000.0;
    ScaledRatio(a, b);
  }

  lemma SmallProduct(a: real, r: real, bound: real)
    requires 0.0 <= r <= 1.0 && -bound <= a <= bound
    ensures -bound <= a * r <= bound
  {
    if a >= 0.0 {
      assert a * r <= a * 1.0;
    } else {
      assert a * r >= a * 1.0;
    }
  }

  lemma NothingPrinted(move: Move, previous: real, t: real)
    requires AbsReal(move.position - previous) < SMALLEST_CHANGE
    ensures Sum(TermOf(move, previous), t) == 0.0
  {
  }

  lemma PrintedTerm(move: Move, previous: real, t: real)
    requires AbsReal(move.position - previous) >= SMALLEST_CHANGE
    ensures Sum(TermOf(move, previous), t) == Round4(move.position - previous) * Progress(move, 1000.0 * t)
  {
    hide Round4;
    var terms := TermOf(move, previous);
    assert terms[..0] == [];
    assert Sum(terms, t) == Evaluate(terms[0], t);
    if move.end > move.start {
      RampIsProgress(move, t);
      hide Clip, Progress;
    }
  }

  lemma Spread(a: real, b: real, r: real)
    ensures (a - b) * r == a * r - b * r
  {
  }

  /** The change of the last move, as far as it has got. */
  function Gained(last: Move, previous: real, t: real): real {
    (last.position - previous) * Progress(last, t)
  }

  /** One move's printed term is off by no more than the smallest change, whether rounded or dropped. */
  lemma TermError(move: Move, previous: real, t: real)
    ensures -SMALLEST_CHANGE
            <= Sum(TermOf(move, previous), t) - Gained(move, previous, 1000.0 * t)
            <= SMALLEST_CHANGE
  {
    hide Round4, Progress, Sum, Evaluate;
    var change, r := move.position - previous, Progress(move, 1000.0 * t);
    var terms := TermOf(move, previous);
    if AbsReal(change) < SMALLEST_CHANGE {
      NothingPrinted(move, previous, t);
      SmallProduct(change, r, SMALLEST_CHANGE);
    } else {
      PrintedTerm(move, previous, t);
      SmallProduct(Round4(change) - change, r, 0.00005);
      Spread(Round4(change), change, r);
    }
  }

  function Tolerance(moves: nat): real {
    SMALLEST_CHANGE * (moves + 1) as real
  }

  lemma OneMoreMove(n: nat)
    ensures Tolerance(n + 1) == Tolerance(n) + SMALLEST_CHANGE
    ensures Tolerance(n) >= SMALLEST_CHANGE
  {
  }

  lemma LastRamp(initial: real, moves: seq<Move>, t: real)
    requires moves != []
    ensures var front, last := moves[..|moves| - 1], moves[|moves| - 1];
            Ramps(initial, moves, t) == Ramps(initial, front, t) + Gained(last, LastPosition(initial, front), t)
  {
  }

  lemma {:induction false} TermsError(initial: real, moves: seq<Move>, t: real)
    ensures -Tolerance(|moves|)
            <= Round4(initial) + Sum(MoveTerms(initial, moves), t) - Ramps(initial, moves, 1000.0 * t)
            <= Tolerance(|moves|)
  {
    hide Progress, TermOf, Round4, Evaluate, LastPosition, Gained, Tolerance;
    if moves == [] {
      OneMoreMove(0);
    } else {
      var front, last := moves[..|moves| - 1], moves[|moves| - 1];
      var previous := LastPosition(initial, front);
      TermsError(initial, front, t);
      TermError(last, previous, t);
      SumAppend(MoveTerms(initial, front), TermOf(last, previous), t);
      OneMoreMove(|front|);
      LastRamp(initial, moves, 1000.0 * t);
      hide Ramps, Sum;
    }
  }

  /** Evaluating what is printed gives the plan, up to one ten-thousandth for each move and one more. */
  lemma PrintedIsPlanned(track: Track, t: real)
    requires InTurn(track.moves)
    ensures -Tolerance(|track.moves|)
            <= Sum(Expression(track), t) - PlanAt(track.initial, track.moves, 1000.0 * t)
            <= Tolerance(|track.moves|)
  {
    TermsError(track.initial, track.moves, t);
    RampsArePlan(track.initial, track.moves, 1000.0 * t);
    var first := [Constant(Round4(track.initial))];
    SumAppend(first, MoveTerms(track.initial, track.moves), t);
    assert first[..0] == [];
  }

  // ---------------------------------------------------------------------------
  // The whole of it
  // ---------------------------------------------------------------------------

  function Product(a: real, b: real): real { a * b }

  lemma NotNegative(a: real, b: real)
    requires a >= 0.0 && b >= 0.0
    ensures a * b >= 0.0
  {
  }

  lemma UnitProduct(a: real, b: real)
    requires 0.0 <= a <= 1.0 && b >= 0.0
    ensures 0.0 <= Product(a, b) <= b
  {
    NotNegative(a, b);
    NotNegative(1.0 - a, b);
    assert (1.0 - a) * b == b - a * b;
  }

  /** Part of the way from one number to another, read from either end. */
  lemma PartWay(a: real, b: real, r: real)
    ensures a + (b - a) * r == a + Product(r, b - a) == a - Product(r, a - b)
  {
  }

  lemma Between01(a: real, b: real, r: real)
    requires 0.0 <= a <= 1.0 && 0.0 <= b <= 1.0 && 0.0 <= r <= 1.0
    ensures 0.0 <= a + (b - a) * r <= 1.0
  {
    hide Product;
    PartWay(a, b, r);
    if a <= b {
      UnitProduct(r, b - a);
    } else {
      UnitProduct(r, a - b);
    }
  }

  /** A plan between positions in the frame stays in the frame. */
  lemma {:induction false} PlanInFrame(initial: real, moves: seq<Move>, t: real)
    requires 0.0 <= initial <= 1.0 && Positions(moves)
    ensures 0.0 <= LastPosition(initial, moves) <= 1.0
    ensures 0.0 <= PlanAt(initial, moves, t) <= 1.0
  {
    if moves != [] {
      var front, last := moves[..|moves| - 1], moves[|moves| - 1];
      PlanInFrame(initial, front, t);
      Between01(LastPosition(initial, front), last.position, Progress(last, t));
    }
  }

  /**
   For every segment, the expression printed for its plan follows the plan, and so puts the crop inside
   the frame, up to the tolerance.
   */
  lemma ExpressionFollowsPlan(s: Segment, t: real)
    requires s.Valid()
    ensures var track := Plan(s);
            var printed, planned := Sum(Expression(track), t), PlanAt(track.initial, track.moves, 1000.0 * t);
            && -Tolerance(|track.moves|) <= printed - planned <= Tolerance(|track.moves|)
            && -Tolerance(|track.moves|) <= printed <= 1.0 + Tolerance(|track.moves|)
  {
    hide Plan, Sum, Expression, PlanAt, Tolerance, Segment.Valid, InTurn, Positions, Between, JumpsAtCuts;
    PlanIsOrderly(s);
    PrintedIsPlanned(Plan(s), t);
    PlanInFrame(Plan(s).initial, Plan(s).moves, 1000.0 * t);
  }
}
