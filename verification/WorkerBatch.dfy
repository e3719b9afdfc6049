/**
 The shared-slot worker batch of apps/api/workers/concurrency.py.

 Any number of batches, each with its lanes, draw slots from one semaphore. A state is what the lanes
 hold and how far each batch's counter is; an event is one lane going from one await to the next, in
 any order. The results are stated over every sequence of events.
 */
module WorkerBatch {
  import opened Numbers
  import opened Selections

  /** Why a lane ended. */
  datatype Ending =
    | OnShutdown
    | OnExhausted
    | OnFalse
    | OnError(error: nat)
    | OnCancel(inItem: bool)

  /** Each lane counts the items that returned True. */
  datatype Lane =
    | Waiting(completed: nat)     // for a slot
    | Holding(completed: nat)     // a slot, before its checks
    | Running(completed: nat)     // an item, holding a slot
    | Ended(completed: nat, ending: Ending)

  /** `trues` is the number of items of the batch that returned True so far. */
  datatype Batch = Batch(maxItems: int, nextItem: nat, shutdown: bool, lanes: seq<Lane>, trues: nat)

  datatype State = State(free: nat, batches: seq<Batch>)

  datatype Action = Acquire | Check | FinishTrue | FinishFalse | FinishError(error: nat) | Cancel

  datatype Event = LaneEvent(batch: nat, lane: nat, action: Action) | Shutdown(batch: nat)

  // ---------------------------------------------------------------------------
  // Events
  // ---------------------------------------------------------------------------

  predicate LaneEnabled(lane: Lane, action: Action, free: nat) {
    match action
    case Acquire => lane.Waiting? && free > 0
    case Check => lane.Holding?
    case FinishTrue => lane.Running?
    case FinishFalse => lane.Running?
    case FinishError(_) => lane.Running?
    case Cancel => !lane.Ended?
  }

  predicate Enabled(s: State, e: Event) {
    e.batch < |s.batches|
    && (e.LaneEvent? ==>
          e.lane < |s.batches[e.batch].lanes| && LaneEnabled(s.batches[e.batch].lanes[e.lane], e.action, s.free))
  }

  /** Whether the checks after a slot is taken let the lane start an item. */
  predicate Starts(batch: Batch) {
    !batch.shutdown && batch.nextItem < batch.maxItems
  }

  function NextLane(batch: Batch, lane: Lane, action: Action): Lane {
    match action
    case Acquire => Holding(lane.completed)
    case Check =>
      if batch.shutdown then Ended(lane.completed, OnShutdown)
      else if batch.nextItem >= batch.maxItems then Ended(lane.completed, OnExhausted)
      else Running(lane.completed)
    case FinishTrue => Waiting(lane.completed + 1)
    case FinishFalse => Ended(lane.completed, OnFalse)
    case FinishError(error) => Ended(lane.completed, OnError(error))
    case Cancel => Ended(lane.completed, OnCancel(lane.Running?))
  }

  function NextBatch(batch: Batch, i: nat, action: Action): Batch
    requires i < |batch.lanes|
  {
    batch.(
      nextItem := batch.nextItem + if action.Check? && Starts(batch) then 1 else 0,
      trues := batch.trues + if action.FinishTrue? then 1 else 0,
      lanes := batch.lanes[i := NextLane(batch, batch.lanes[i], action)])
  }

  /** The slots a lane holds. */
  function Slots(lane: Lane): int {
    if lane.Holding? || lane.Running? then 1 else 0
  }

  /** One event; a slot is taken when a lane starts to hold and given back when it stops. */
  function Do(s: State, e: Event): State
    requires Enabled(s, e)
  {
    var batch := s.batches[e.batch];
    match e
    case Shutdown(b) => s.(batches := s.batches[b := batch.(shutdown := true)])
    case LaneEvent(b, i, action) =>
      var next := NextBatch(batch, i, action);
      State(s.free + Slots(batch.lanes[i]) - Slots(next.lanes[i]), s.batches[b := next])
  }

  predicate Runs(s: State, events: seq<Event>)
    decreases |events|
  {
    events == [] || (Enabled(s, events[0]) && Runs(Do(s, events[0]), events[1..]))
  }

  function DoAll(s: State, events: seq<Event>): State
    requires Runs(s, events)
    decreases |events|
  {
    if events == [] then s else DoAll(Do(s, events[0]), events[1..])
  }

  /** min(max_items, limit) lanes, or none. */
  function LaneCount(maxItems: int, limit: nat): nat {
    Max(0, Min(maxItems, limit))
  }

  predicate Fresh(batch: Batch, limit: nat) {
    && batch.nextItem == 0 && batch.trues == 0 && !batch.shutdown
    && |batch.lanes| == LaneCount(batch.maxItems, limit)
    && forall i :: 0 <= i < |batch.lanes| ==> batch.lanes[i] == Waiting(0)
  }

  predicate Initial(s: State, limit: nat) {
    s.free == limit && forall b :: 0 <= b < |s.batches| ==> Fresh(s.batches[b], limit)
  }

  // ---------------------------------------------------------------------------
  // Sums
  // ---------------------------------------------------------------------------

  function Total<T>(f: T -> int, s: seq<T>): int {
    if s == [] then 0 else Total(f, s[..|s| - 1]) + f(s[|s| - 1])
  }

  lemma {:induction false} TotalUpdate<T>(f: T -> int, s: seq<T>, i: nat, x: T)
    requires i < |s|
    ensures Total(f, s[i := x]) == Total(f, s) - f(s[i]) + f(x)
    decreases |s|
  {
    var k := |s| - 1;
    if i == k {
      assert s[i := x][..k] == s[..k];
    } else {
      TotalUpdate(f, s[..k], i, x);
      assert s[i := x][..k] == s[..k][i := x];
    }
  }

  lemma {:induction false} TotalSame<T>(f: T -> int, s: seq<T>, value: int)
    requires forall i :: 0 <= i < |s| ==> f(s[i]) == value
    ensures Total(f, s) == |s| * value
  {
    if s != [] {
      var k := |s| - 1;
      TotalSame(f, s[..k], value);
      assert (k + 1) * value == k * value + value;
    }
  }

  lemma {:induction false} TotalNotNegative<T>(f: T -> int, s: seq<T>)
    requires forall i :: 0 <= i < |s| ==> f(s[i]) >= 0
    ensures Total(f, s) >= 0
    ensures forall i :: 0 <= i < |s| ==> f(s[i]) <= Total(f, s)
  {
    if s != [] {
      var k := |s| - 1;
      TotalNotNegative(f, s[..k]);
      forall i | 0 <= i < |s|
        ensures f(s[i]) <= Total(f, s)
      {
        if i < k {
          assert s[..k][i] == s[i];
        }
      }
    }
  }

  // ---------------------------------------------------------------------------
  // The invariant
  // ---------------------------------------------------------------------------

  function Completed(lane: Lane): int {
    lane.completed
  }

  /** The items a lane started: those that returned True, and one that runs, returned False or failed. */
  function Started(lane: Lane): int {
    lane.completed
    + match lane
      case Running(_) => 1
      case Ended(_, OnFalse) => 1
      case Ended(_, OnError(_)) => 1
      case Ended(_, OnCancel(inItem)) => if inItem then 1 else 0
      case _ => 0
  }

  function BatchSlots(batch: Batch): int {
    Total(Slots, batch.lanes)
  }

  predicate LaneOk(batch: Batch, lane: Lane) {
    lane.Ended? ==>
      && (lane.ending == OnExhausted ==> batch.nextItem >= batch.maxItems)
      && (lane.ending == OnShutdown ==> batch.shutdown)
  }

  /** A batch never starts more than its items, and every item it started is some lane's. */
  predicate BatchOk(batch: Batch, limit: nat) {
    && |batch.lanes| == LaneCount(batch.maxItems, limit)
    && batch.nextItem <= Max(0, batch.maxItems)
    && Total(Completed, batch.lanes) == batch.trues
    && Total(Started, batch.lanes) == batch.nextItem
    && forall i :: 0 <= i < |batch.lanes| ==> LaneOk(batch, batch.lanes[i])
  }

  /** Slots are conserved: those held by lanes and those free make up the limit. */
  predicate Ok(s: State, limit: nat) {
    && s.free + Total(BatchSlots, s.batches) == limit
    && forall b :: 0 <= b < |s.batches| ==> BatchOk(s.batches[b], limit)
  }

  lemma InitialIsOk(s: State, limit: nat)
    requires Initial(s, limit)
    ensures Ok(s, limit)
  {
    forall b | 0 <= b < |s.batches|
      ensures BatchOk(s.batches[b], limit) && BatchSlots(s.batches[b]) == 0
    {
      var lanes := s.batches[b].lanes;
      assert Fresh(s.batches[b], limit);
      TotalSame(Slots, lanes, 0);
      TotalSame(Completed, lanes, 0);
      TotalSame(Started, lanes, 0);
    }
    TotalSame(BatchSlots, s.batches, 0);
  }

  lemma BatchKeepsOk(batch: Batch, i: nat, action: Action, free: nat, limit: nat)
    requires BatchOk(batch, limit) && i < |batch.lanes| && LaneEnabled(batch.lanes[i], action, free)
    ensures BatchOk(NextBatch(batch, i, action), limit)
    ensures BatchSlots(NextBatch(batch, i, action)) ==
            BatchSlots(batch) - Slots(batch.lanes[i]) + Slots(NextLane(batch, batch.lanes[i], action))
  {
    var next := NextLane(batch, batch.lanes[i], action);
    TotalUpdate(Slots, batch.lanes, i, next);
    TotalUpdate(Completed, batch.lanes, i, next);
    TotalUpdate(Started, batch.lanes, i, next);
    var now := NextBatch(batch, i, action);
    forall j | 0 <= j < |now.lanes|
      ensures LaneOk(now, now.lanes[j])
    {
      assert LaneOk(batch, batch.lanes[j]);
    }
  }

  lemma DoKeepsOk(s: State, e: Event, limit: nat)
    requires Ok(s, limit) && Enabled(s, e)
    ensures Ok(Do(s, e), limit)
  {
    var batch := s.batches[e.batch];
    match e {
      case Shutdown(b) =>
        var next := batch.(shutdown := true);
        assert forall i :: 0 <= i < |batch.lanes| ==> LaneOk(batch, batch.lanes[i]) ==> LaneOk(next, batch.lanes[i]);
        TotalUpdate(BatchSlots, s.batches, b, next);
      case LaneEvent(b, i, action) =>
        BatchKeepsOk(batch, i, action, s.free, limit);
        TotalUpdate(BatchSlots, s.batches, b, NextBatch(batch, i, action));
    }
  }

  lemma {:induction false} RunKeepsOk(s: State, events: seq<Event>, limit: nat)
    requires Ok(s, limit) && Runs(s, events)
    ensures Ok(DoAll(s, events), limit)
    decreases |events|
  {
    if events != [] {
      DoKeepsOk(s, events[0], limit);
      RunKeepsOk(Do(s, events[0]), events[1..], limit);
    }
  }

  // ---------------------------------------------------------------------------
  // Safety, over every run
  // ---------------------------------------------------------------------------

  function IsRunning(lane: Lane): int {
    if lane.Running? then 1 else 0
  }

  function BatchRunning(batch: Batch): int {
    Total(IsRunning, batch.lanes)
  }

  lemma {:induction false} RunningOf(lanes: seq<Lane>, k: nat)
    requires k <= |lanes| && forall i :: 0 <= i < |lanes| ==> (lanes[i].Running? <==> i < k)
    ensures Total(IsRunning, lanes) == k
  {
    if lanes != [] {
      var n := |lanes| - 1;
      RunningOf(lanes[..n], Min(k, n));
    }
  }

  lemma {:induction false} TotalBelow<T>(f: T -> int, g: T -> int, s: seq<T>)
    requires forall i :: 0 <= i < |s| ==> f(s[i]) <= g(s[i])
    ensures Total(f, s) <= Total(g, s)
  {
    if s != [] {
      TotalBelow(f, g, s[..|s| - 1]);
    }
  }

  /** In every run from the start, the items running in all batches together stay within the slot limit. */
  lemma RunningWithinLimit(s: State, events: seq<Event>, limit: nat)
    requires Initial(s, limit) && Runs(s, events)
    ensures Total(BatchRunning, DoAll(s, events).batches) <= limit
  {
    InitialIsOk(s, limit);
    RunKeepsOk(s, events, limit);
    var batches := DoAll(s, events).batches;
    forall b | 0 <= b < |batches|
      ensures BatchRunning(batches[b]) <= BatchSlots(batches[b])
    {
      TotalBelow(IsRunning, Slots, batches[b].lanes);
    }
    TotalBelow(BatchRunning, BatchSlots, batches);
  }

  lemma {:induction false} RunKeepsShape(s: State, events: seq<Event>, b: nat)
    requires Runs(s, events) && b < |s.batches|
    ensures |DoAll(s, events).batches| == |s.batches|
    ensures DoAll(s, events).batches[b].maxItems == s.batches[b].maxItems
    decreases |events|
  {
    if events != [] {
      RunKeepsShape(Do(s, events[0]), events[1..], b);
    }
  }

  /** In every run, no batch starts more calls than its items, each started call is one lane's, and none is lost. */
  lemma StartsAreCounted(s: State, events: seq<Event>, limit: nat, b: nat)
    requires Initial(s, limit) && Runs(s, events) && b < |s.batches|
    ensures |DoAll(s, events).batches| == |s.batches|
    ensures var batch := DoAll(s, events).batches[b];
            && batch.maxItems == s.batches[b].maxItems
            && |batch.lanes| == (if batch.maxItems <= 0 then 0 else if batch.maxItems <= limit then batch.maxItems
                                 else limit)
            && batch.nextItem <= Max(0, batch.maxItems)
            && Total(Started, batch.lanes) == batch.nextItem
            && Total(Completed, batch.lanes) == batch.trues
  {
    InitialIsOk(s, limit);
    RunKeepsOk(s, events, limit);
    RunKeepsShape(s, events, b);
  }

  /** Once its shutdown is set, a batch starts nothing more, whatever follows. */
  lemma {:induction false} NoneStartsAfterShutdown(s: State, events: seq<Event>, b: nat)
    requires Runs(s, events) && b < |s.batches| && s.batches[b].shutdown
    ensures |DoAll(s, events).batches| == |s.batches|
    ensures DoAll(s, events).batches[b].shutdown
    ensures DoAll(s, events).batches[b].nextItem == s.batches[b].nextItem
    decreases |events|
  {
    if events != [] {
      NoneStartsAfterShutdown(Do(s, events[0]), events[1..], b);
    }
  }

  // ---------------------------------------------------------------------------
  // The batch's result
  // ---------------------------------------------------------------------------

  datatype LaneResult = Count(n: int) | Error(error: nat) | Cancelled

  datatype Outcome = Finished(completed: int) | Failed(errors: seq<nat>) | WasCancelled

  function ResultOf(lane: Lane): LaneResult
    requires lane.Ended?
  {
    match lane.ending
    case OnError(error) => Error(error)
    case OnCancel(_) => Cancelled
    case _ => Count(lane.completed)
  }

  predicate AllEnded(batch: Batch) {
    forall i :: 0 <= i < |batch.lanes| ==> batch.lanes[i].Ended?
  }

  /** What gather returns, in lane order. */
  function Results(batch: Batch): seq<LaneResult>
    requires AllEnded(batch)
  {
    seq(|batch.lanes|, i requires 0 <= i < |batch.lanes| => ResultOf(batch.lanes[i]))
  }

  function Counted(result: LaneResult): int {
    if result.Count? then result.n else 0
  }

  function Errors(results: seq<LaneResult>): seq<nat> {
    if results == [] then []
    else
      Errors(results[..|results| - 1])
      + if results[|results| - 1].Error? then [results[|results| - 1].error] else []
  }

  function IsError(): LaneResult -> bool {
    (result: LaneResult) => result.Error?
  }

  predicate Raises(result: LaneResult, error: nat) {
    result == Error(error)
  }

  /** The errors are those of the failed lanes, all of them and in lane order. */
  lemma {:induction false} ErrorsAreRaised(results: seq<LaneResult>)
    ensures Selects(results, IsError(), Raises, Errors(results))
  {
    if results == [] {
      SelectsNone(IsError(), Raises);
    } else {
      var k := |results| - 1;
      var front, last := results[..k], results[k];
      ErrorsAreRaised(front);
      assert front + [last] == results && Errors(front) + [] == Errors(front);
      if last.Error? {
        SelectsOne(front, last, IsError(), Raises, Errors(front), last.error);
      } else {
        SelectsOn(front, last, IsError(), Raises, Errors(front));
      }
    }
  }

  /** What run_worker_batch makes of the lanes' results. */
  function Collected(results: seq<LaneResult>): Outcome {
    if Cancelled in results then WasCancelled
    else if Errors(results) != [] then Failed(Errors(results))
    else Finished(Total(Counted, results))
  }

  /** The loop over the lanes' results: a cancelled lane is raised at once, then errors, else the counts add up. */
  method CollectResults(results: seq<LaneResult>) returns (outcome: Outcome)
    ensures outcome == Collected(results)
    ensures outcome.WasCancelled? <==> Cancelled in results
    ensures outcome.Failed? ==> outcome.errors != [] && Selects(results, IsError(), Raises, outcome.errors)
    ensures outcome.Finished? ==> forall i :: 0 <= i < |results| ==> results[i].Count?
  {
    ErrorsAreRaised(results);
    hide Selects, IsError;
    var errors, completed := [], 0;
    for i := 0 to |results|
      invariant Cancelled !in results[..i]
      invariant errors == Errors(results[..i]) && completed == Total(Counted, results[..i])
      invariant errors == [] ==> forall j :: 0 <= j < i ==> results[j].Count?
    {
      assert results[..i + 1][..i] == results[..i];
      assert errors + [] == errors;
      match results[i] {
        case Cancelled => return WasCancelled;
        case Error(error) => errors := errors + [error];
        case Count(n) => completed := completed + n;
      }
    }
    assert results[..|results|] == results;
    if errors != [] {
      return Failed(errors);
    }
    return Finished(completed);
  }

  function HasFailed(): Lane -> bool {
    (lane: Lane) => lane.Ended? && lane.ending.OnError?
  }

  predicate FailedWith(lane: Lane, error: nat) {
    lane.Ended? && lane.ending == OnError(error)
  }

  lemma LaneAlike(lane: Lane)
    requires lane.Ended?
    ensures IsError()(ResultOf(lane)) <==> HasFailed()(lane)
    ensures forall error :: Raises(ResultOf(lane), error) <==> FailedWith(lane, error)
  {
  }

  /** The errors raised are those of the failed lanes, all of them and in lane order. */
  lemma ErrorsOfLanes(batch: Batch)
    requires AllEnded(batch)
    ensures Selects(batch.lanes, HasFailed(), FailedWith, Errors(Results(batch)))
  {
    hide Errors, Selects, IsError, HasFailed, Raises, FailedWith, ResultOf;
    ErrorsAreRaised(Results(batch));
    forall i | 0 <= i < |batch.lanes|
      ensures IsError()(Results(batch)[i]) <==> HasFailed()(batch.lanes[i])
    {
      LaneAlike(batch.lanes[i]);
    }
    forall i, error | 0 <= i < |batch.lanes| && Raises(Results(batch)[i], error)
      ensures FailedWith(batch.lanes[i], error)
    {
      LaneAlike(batch.lanes[i]);
    }
    SelectsAlike(Results(batch), IsError(), Raises, batch.lanes, HasFailed(), FailedWith, Errors(Results(batch)));
  }

  lemma {:induction false} NoErrorsIff(results: seq<LaneResult>)
    ensures Errors(results) == [] <==> forall i :: 0 <= i < |results| ==> !results[i].Error?
  {
    if results != [] {
      NoErrorsIff(results[..|results| - 1]);
    }
  }

  /** What the lanes of an ended batch come to: cancelled if one was, else all errors in lane order, else a count. */
  lemma OutcomeOfLanes(batch: Batch)
    requires AllEnded(batch)
    ensures var outcome := Collected(Results(batch));
            && (outcome.WasCancelled? <==> exists i :: 0 <= i < |batch.lanes| && batch.lanes[i].ending.OnCancel?)
            && (outcome.Failed? ==>
                  outcome.errors != [] && Selects(batch.lanes, HasFailed(), FailedWith, outcome.errors))
            && (outcome.Finished? ==> forall i :: 0 <= i < |batch.lanes| ==> !batch.lanes[i].ending.OnError?)
  {
    var results := Results(batch);
    ErrorsOfLanes(batch);
    NoErrorsIff(results);
    hide Errors, Selects, Total;
    forall i | 0 <= i < |batch.lanes|
      ensures batch.lanes[i].ending.OnCancel? <==> results[i] == Cancelled
      ensures batch.lanes[i].ending.OnError? <==> results[i].Error?
    {
    }
    if Cancelled in results {
      var i :| 0 <= i < |results| && results[i] == Cancelled;
      assert batch.lanes[i].ending.OnCancel?;
    }
  }

  /** The calls of batch b that returned True in a run. */
  function TrueCalls(events: seq<Event>, b: nat): nat {
    if events == [] then 0
    else
      (if events[0].LaneEvent? && events[0].batch == b && events[0].action.FinishTrue? then 1 else 0)
      + TrueCalls(events[1..], b)
  }

  lemma {:induction false} TruesAreCalls(s: State, events: seq<Event>, b: nat)
    requires Runs(s, events) && b < |s.batches|
    ensures |DoAll(s, events).batches| == |s.batches|
    ensures DoAll(s, events).batches[b].trues == s.batches[b].trues + TrueCalls(events, b)
    decreases |events|
  {
    if events != [] {
      TruesAreCalls(Do(s, events[0]), events[1..], b);
    }
  }

  /** No lane failed or was cancelled. */
  predicate Clean(batch: Batch) {
    forall i :: 0 <= i < |batch.lanes| ==>
      batch.lanes[i].Ended? && !batch.lanes[i].ending.OnError? && !batch.lanes[i].ending.OnCancel?
  }

  lemma {:induction false} CleanCounts(batch: Batch, k: nat)
    requires Clean(batch) && k <= |batch.lanes|
    ensures Errors(Results(batch)[..k]) == []
    ensures Total(Counted, Results(batch)[..k]) == Total(Completed, batch.lanes[..k])
    ensures Cancelled !in Results(batch)[..k]
  {
    if k > 0 {
      CleanCounts(batch, k - 1);
      assert Results(batch)[..k][..k - 1] == Results(batch)[..k - 1];
      assert batch.lanes[..k][..k - 1] == batch.lanes[..k - 1];
    }
  }

  /** A batch that ends without errors returns exactly the number of its calls that returned True. */
  lemma CleanBatchReturnsTrues(s: State, events: seq<Event>, limit: nat, b: nat)
    requires Initial(s, limit) && Runs(s, events) && b < |DoAll(s, events).batches| == |s.batches|
    requires Clean(DoAll(s, events).batches[b])
    ensures Collected(Results(DoAll(s, events).batches[b])) == Finished(TrueCalls(events, b))
  {
    InitialIsOk(s, limit);
    TruesAreCalls(s, events, b);
    assert Fresh(s.batches[b], limit);
    RunKeepsOk(s, events, limit);
    var batch := DoAll(s, events).batches[b];
    CleanCounts(batch, |batch.lanes|);
    assert Results(batch)[..|batch.lanes|] == Results(batch);
    assert batch.lanes[..|batch.lanes|] == batch.lanes;
  }

  /** The calls of batch b that returned False in a run. */
  function FalseCalls(events: seq<Event>, b: nat): nat {
    if events == [] then 0
    else
      (if events[0].LaneEvent? && events[0].batch == b && events[0].action.FinishFalse? then 1 else 0)
      + FalseCalls(events[1..], b)
  }

  function StoppedByFalse(lane: Lane): int {
    if lane.Ended? && lane.ending == OnFalse then 1 else 0
  }

  lemma FalseStops(s: State, e: Event, b: nat)
    requires Enabled(s, e) && b < |s.batches|
    ensures |Do(s, e).batches| == |s.batches|
    ensures Total(StoppedByFalse, Do(s, e).batches[b].lanes) ==
            Total(StoppedByFalse, s.batches[b].lanes) + FalseCalls([e], b)
  {
    assert [e][1..] == [];
    if e.LaneEvent? && e.batch == b {
      var lanes := s.batches[b].lanes;
      TotalUpdate(StoppedByFalse, lanes, e.lane, NextLane(s.batches[b], lanes[e.lane], e.action));
    }
  }

  /** Each call that returns False ends one lane. */
  lemma {:induction false} FalsesAreStops(s: State, events: seq<Event>, b: nat)
    requires Runs(s, events) && b < |s.batches|
    ensures |DoAll(s, events).batches| == |s.batches|
    ensures Total(StoppedByFalse, DoAll(s, events).batches[b].lanes) ==
            Total(StoppedByFalse, s.batches[b].lanes) + FalseCalls(events, b)
    decreases |events|
  {
    if events != [] {
      FalseStops(s, events[0], b);
      assert [events[0]][1..] == [];
      FalsesAreStops(Do(s, events[0]), events[1..], b);
    }
  }

  /**
   Without errors or shutdown, a finished batch started all its items, or as many of its calls returned
   False as it has items or there are slots, whichever are fewer.
   */
  lemma CleanBatchDidAll(s: State, events: seq<Event>, limit: nat, b: nat)
    requires Initial(s, limit) && Runs(s, events) && b < |DoAll(s, events).batches| == |s.batches|
    requires Clean(DoAll(s, events).batches[b]) && !DoAll(s, events).batches[b].shutdown
    ensures var batch := DoAll(s, events).batches[b];
            || batch.nextItem == Max(0, s.batches[b].maxItems)
            || FalseCalls(events, b) == Min(s.batches[b].maxItems, limit)
  {
    InitialIsOk(s, limit);
    RunKeepsOk(s, events, limit);
    RunKeepsShape(s, events, b);
    FalsesAreStops(s, events, b);
    var batch := DoAll(s, events).batches[b];
    if i :| 0 <= i < |batch.lanes| && batch.lanes[i].ending != OnFalse {
      assert LaneOk(batch, batch.lanes[i]);
    } else {
      assert Fresh(s.batches[b], limit);
      TotalSame(StoppedByFalse, s.batches[b].lanes, 0);
      TotalSame(StoppedByFalse, batch.lanes, 1);
    }
  }

  // ---------------------------------------------------------------------------
  // As many items at once as there may be
  // ---------------------------------------------------------------------------

  /** The first k lanes of the batch run an item each, the others wait, and no other slot is taken. */
  ghost predicate Underway(s: State, limit: nat, b: nat, k: nat) {
    && b < |s.batches| && k <= |s.batches[b].lanes| && s.free + k == limit
    && !s.batches[b].shutdown && s.batches[b].nextItem == k
    && forall i :: 0 <= i < |s.batches[b].lanes| ==> s.batches[b].lanes[i] == if i < k then Running(0) else Waiting(0)
  }

  lemma {:induction false} RunOn(s: State, first: seq<Event>, second: seq<Event>)
    requires Runs(s, first) && Runs(DoAll(s, first), second)
    ensures Runs(s, first + second) && DoAll(s, first + second) == DoAll(DoAll(s, first), second)
    decreases |first|
  {
    if first == [] {
      assert first + second == second;
    } else {
      assert (first + second)[0] == first[0] && (first + second)[1..] == first[1..] + second;
      RunOn(Do(s, first[0]), first[1..], second);
    }
  }

  lemma RunsOne(s: State, e: Event)
    requires Enabled(s, e)
    ensures Runs(s, [e]) && DoAll(s, [e]) == Do(s, e)
  {
    hide Do, Enabled;
    assert [e][1..] == [];
  }

  lemma RunsTwo(s: State, first: Event, second: Event)
    requires Enabled(s, first) && Enabled(Do(s, first), second)
    ensures Runs(s, [first, second]) && DoAll(s, [first, second]) == Do(Do(s, first), second)
  {
    hide Do, Enabled;
    RunsOne(Do(s, first), second);
    assert [first, second][1..] == [second];
  }

  lemma OneMoreUnderway(s: State, limit: nat, b: nat, k: nat) returns (events: seq<Event>)
    requires Underway(s, limit, b, k) && k < |s.batches[b].lanes| && k < limit && k < s.batches[b].maxItems
    ensures Runs(s, events) && Underway(DoAll(s, events), limit, b, k + 1)
    ensures DoAll(s, events).batches[b].maxItems == s.batches[b].maxItems
    ensures |DoAll(s, events).batches[b].lanes| == |s.batches[b].lanes|
  {
    var take, start := LaneEvent(b, k, Acquire), LaneEvent(b, k, Check);
    events := [take, start];
    assert Do(s, take).batches[b].lanes[k] == Holding(0);
    RunsTwo(s, take, start);
  }

  /** From the start, some run has as many items of a batch running at once as it has items or there are slots. */
  lemma {:induction false} AllSlotsAreUsed(s: State, limit: nat, b: nat, k: nat) returns (events: seq<Event>)
    requires Initial(s, limit) && b < |s.batches| && k <= Min(s.batches[b].maxItems, limit)
    ensures Runs(s, events) && Underway(DoAll(s, events), limit, b, k)
    ensures DoAll(s, events).batches[b].maxItems == s.batches[b].maxItems
    ensures |DoAll(s, events).batches[b].lanes| == |s.batches[b].lanes| == Min(s.batches[b].maxItems, limit)
    ensures BatchRunning(DoAll(s, events).batches[b]) == k
    decreases k
  {
    assert Fresh(s.batches[b], limit);
    if k == 0 {
      events := [];
    } else {
      var earlier := AllSlotsAreUsed(s, limit, b, k - 1);
      var more := OneMoreUnderway(DoAll(s, earlier), limit, b, k - 1);
      RunOn(s, earlier, more);
      events := earlier + more;
    }
    RunningOf(DoAll(s, events).batches[b].lanes, k);
  }

  // ---------------------------------------------------------------------------
  // Every batch ends
  // ---------------------------------------------------------------------------

  function Rank(lane: Lane): int {
    match lane
    case Waiting(_) => 2
    case Holding(_) => 1
    case Running(_) => 3
    case Ended(_, _) => 0
  }

  /** The steps a batch may still take: a started item is worth three. */
  function BatchMeasure(batch: Batch): int {
    3 * (Max(0, batch.maxItems) - batch.nextItem) + Total(Rank, batch.lanes)
  }

  function Measure(s: State): int {
    Total(BatchMeasure, s.batches)
  }

  lemma MeasureNotNegative(s: State, limit: nat)
    requires Ok(s, limit)
    ensures Measure(s) >= 0
  {
    forall b | 0 <= b < |s.batches|
      ensures BatchMeasure(s.batches[b]) >= 0
    {
      TotalNotNegative(Rank, s.batches[b].lanes);
    }
    TotalNotNegative(BatchMeasure, s.batches);
  }

  /** Every event of a lane, started, checked, finished or cancelled, brings the end nearer. */
  lemma EventsDecrease(s: State, e: Event, limit: nat)
    requires Ok(s, limit) && Enabled(s, e)
    ensures Measure(Do(s, e)) <= Measure(s) - if e.LaneEvent? then 1 else 0
  {
    var batch := s.batches[e.batch];
    match e {
      case Shutdown(b) => TotalUpdate(BatchMeasure, s.batches, b, batch.(shutdown := true));
      case LaneEvent(b, i, action) =>
        TotalUpdate(Rank, batch.lanes, i, NextLane(batch, batch.lanes[i], action));
        TotalUpdate(BatchMeasure, s.batches, b, NextBatch(batch, i, action));
    }
  }

  function LaneEvents(events: seq<Event>): nat {
    if events == [] then 0 else (if events[0].LaneEvent? then 1 else 0) + LaneEvents(events[1..])
  }

  /** No run has more lane events than the measure of its start. */
  lemma {:induction false} RunsAreBounded(s: State, events: seq<Event>, limit: nat)
    requires Ok(s, limit) && Runs(s, events)
    ensures LaneEvents(events) <= Measure(s) - Measure(DoAll(s, events)) <= Measure(s)
    decreases |events|
  {
    RunKeepsOk(s, events, limit);
    MeasureNotNegative(DoAll(s, events), limit);
    if events != [] {
      DoKeepsOk(s, events[0], limit);
      EventsDecrease(s, events[0], limit);
      RunsAreBounded(Do(s, events[0]), events[1..], limit);
    }
  }

  /**
   No run is stuck: while some lane has not ended, a lane can take a slot, check, or (its call
   finishing) go on. With the bound above, every run that keeps going ends all its lanes.
   */
  lemma NeverStuck(s: State, limit: nat, b: nat, i: nat) returns (e: Event)
    requires Ok(s, limit) && b < |s.batches| && i < |s.batches[b].lanes| && !s.batches[b].lanes[i].Ended?
    ensures e.LaneEvent? && !e.action.Cancel? && Enabled(s, e)
  {
    if c, j :| 0 <= c < |s.batches| && 0 <= j < |s.batches[c].lanes| && Slots(s.batches[c].lanes[j]) > 0 {
      e := LaneEvent(c, j, if s.batches[c].lanes[j].Holding? then Check else FinishTrue);
    } else {
      forall c | 0 <= c < |s.batches|
        ensures BatchSlots(s.batches[c]) == 0
      {
        TotalSame(Slots, s.batches[c].lanes, 0);
      }
      TotalSame(BatchSlots, s.batches, 0);
      assert BatchOk(s.batches[b], limit);
      e := LaneEvent(b, i, Acquire);
    }
  }
}
