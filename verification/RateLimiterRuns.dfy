/**
 Whole runs of the in-memory limiter: the bounded table against an unbounded counter for every key and
 window, under a clock that never goes back.
 */
module RateLimiterRuns {
  import opened Numbers
  import opened Selections
  import opened RateLimiter

  /** A call that reaches the table. */
  datatype Call = Call(key: Key, now: nat)

  /** The table after a run. */
  function Run(limits: Limits, calls: seq<Call>): Table {
    if calls == [] then Table([], map[])
    else
      var last := |calls| - 1;
      Consume(limits, Run(limits, calls[..last]), calls[last].key, calls[last].now)
  }

  ghost predicate Clocked(calls: seq<Call>) {
    forall i, j :: 0 <= i < j < |calls| ==> calls[i].now <= calls[j].now
  }

  predicate In(limits: Limits, call: Call, key: Key, start: int) {
    call.key == key && WindowStart(call.now, Window(limits, key)) == start
  }

  /** The unbounded counter: the calls a key made in a window. */
  function Count(limits: Limits, calls: seq<Call>, key: Key, start: int): nat {
    if calls == [] then 0
    else
      var last := |calls| - 1;
      Count(limits, calls[..last], key, start) + if In(limits, calls[last], key, start) then 1 else 0
  }

  /** Some call evicted the key within the window. */
  predicate EvictedIn(limits: Limits, calls: seq<Call>, key: Key, start: int) {
    calls != []
    && var last := |calls| - 1;
       || EvictedIn(limits, calls[..last], key, start)
       || (&& key in Evicted(limits, Run(limits, calls[..last]), calls[last].key, calls[last].now)
           && WindowStart(calls[last].now, Window(limits, key)) == start)
  }

  /** The attempt number the last call is answered with. */
  function LastAttempts(limits: Limits, calls: seq<Call>): nat
    requires calls != []
  {
    var last := |calls| - 1;
    Counted(limits, Run(limits, calls[..last]), calls[last].key, calls[last].now).attempts
  }

  /** The last call is a key's, and is allowed. */
  predicate LastAdmits(limits: Limits, calls: seq<Call>, key: Key) {
    && calls != []
    && calls[|calls| - 1].key == key
    && key.limitType in limits
    && LastAttempts(limits, calls) <= limits[key.limitType].limit
  }

  /** The calls of a key allowed in a window. */
  function AdmittedIn(limits: Limits, calls: seq<Call>, key: Key, start: int): nat {
    if calls == [] then 0
    else
      var last := |calls| - 1;
      AdmittedIn(limits, calls[..last], key, start)
      + if LastAdmits(limits, calls, key) && In(limits, calls[last], key, start) then 1 else 0
  }

  /** The calls of a key allowed from one clock reading until just before another. */
  function AdmittedBetween(limits: Limits, calls: seq<Call>, key: Key, from: nat, until: nat): nat {
    if calls == [] then 0
    else
      var last := |calls| - 1;
      AdmittedBetween(limits, calls[..last], key, from, until)
      + if LastAdmits(limits, calls, key) && from <= calls[last].now < until then 1 else 0
  }

  // ---------------------------------------------------------------------------
  // Windows
  // ---------------------------------------------------------------------------

  lemma WindowHolds(now: nat, window: nat)
    requires window > 0
    ensures WindowStart(now, window) * MICROSECONDS <= now < (WindowStart(now, window) + window) * MICROSECONDS
  {
    var seconds := now / MICROSECONDS;
    assert seconds == seconds / window * window + seconds % window;
  }

  lemma DivisionAscends(a: nat, b: nat, d: nat)
    requires a <= b && d > 0
    ensures a / d <= b / d
  {
    PieceOf(b, d, b / d + 1);
    PieceOf(a, d, b / d + 1);
  }

  lemma WindowsAscend(now: nat, later: nat, window: nat)
    requires now <= later
    ensures WindowStart(now, window) <= WindowStart(later, window)
  {
    if window > 0 {
      DivisionAscends(now, later, MICROSECONDS);
      DivisionAscends(now / MICROSECONDS, later / MICROSECONDS, window);
      ScaleAscends(now / MICROSECONDS / window, later / MICROSECONDS / window, window);
    }
  }

  /** A window starts at or after another's end exactly when its instants come no sooner. */
  lemma LaterWindow(now: nat, later: nat, window: nat)
    requires window > 0
    ensures WindowStart(later, window) >= WindowStart(now, window) + window
            <==> later >= (WindowStart(now, window) + window) * MICROSECONDS
  {
    WindowHolds(later, window);
    var q, p := now / MICROSECONDS / window, later / MICROSECONDS / window;
    assert WindowStart(now, window) == q * window && WindowStart(later, window) == p * window;
    assert (q + 1) * window == q * window + window && (p + 1) * window == p * window + window;
    if p >= q + 1 {
      ScaleAscends(q + 1, p, window);
    } else {
      ScaleAscends(p + 1, q + 1, window);
    }
  }

  /** The seconds a refused caller is told to wait are the fewest that reach a later window. */
  lemma RetryAfterIsExact(now: nat, window: nat, seconds: nat)
    requires window > 0
    ensures WindowStart(now + seconds * MICROSECONDS, window) >= WindowStart(now, window) + window
            <==> seconds >= SecondsUntil(WindowStart(now, window) + window, now)
  {
    WindowHolds(now, window);
    LaterWindow(now, now + seconds * MICROSECONDS, window);
  }

  // ---------------------------------------------------------------------------
  // One call
  // ---------------------------------------------------------------------------

  lemma {:induction false} WithoutAll(order: seq<Key>, gone: set<Key>)
    requires forall k :: k in order ==> k in gone
    ensures Without(order, gone) == []
  {
    if order != [] {
      WithoutAll(order[..|order| - 1], gone);
    }
  }

  lemma {:induction false} WithoutPrefix(order: seq<Key>, n: nat, gone: set<Key>)
    requires Distinct(order) && n <= |order|
    requires gone == set i | 0 <= i < n :: order[i]
    ensures Without(order, gone) == order[n..]
  {
    if n == |order| {
      WithoutAll(order, gone);
    } else {
      var k := |order| - 1;
      assert order[k] !in gone;
      assert gone == set i | 0 <= i < n :: order[..k][i];
      WithoutPrefix(order[..k], n, gone);
      assert order[..k][n..] + [order[k]] == order[n..];
    }
  }

  lemma OldestDropped(t: Table)
    requires Ok(t)
    ensures Drop(t, Oldest(t)).order == t.order[Overflow(|t.order|)..]
    ensures |Drop(t, Oldest(t)).order| <= BUCKET_LIMIT
    ensures t.order != [] ==> t.order[|t.order| - 1] !in Oldest(t)
  {
    var n := Overflow(|t.order|);
    assert Oldest(t) == set i | 0 <= i < n :: t.order[i];
    WithoutPrefix(t.order, n, Oldest(t));
  }

  function Staying(gone: set<Key>): Key -> bool {
    (k: Key) => k !in gone
  }

  predicate Same(a: Key, b: Key) { a == b }

  /** What stays keeps its order. */
  lemma {:induction false} WithoutSelects(order: seq<Key>, gone: set<Key>)
    ensures Selects(order, Staying(gone), Same, Without(order, gone))
  {
    if order == [] {
      SelectsNone(Staying(gone), Same);
    } else {
      var k := |order| - 1;
      var front, last := order[..k], order[k];
      WithoutSelects(front, gone);
      hide Selects;
      assert front + [last] == order && Without(front, gone) + [] == Without(front, gone);
      if last in gone {
        SelectsOn(front, last, Staying(gone), Same, Without(front, gone));
      } else {
        SelectsOne(front, last, Staying(gone), Same, Without(front, gone), last);
      }
    }
  }

  lemma ExpiredAreOver(limits: Limits, t: Table, now: nat, k: Key)
    ensures k in ExpiredKeys(limits, t, now) <==>
              k in t.buckets && (t.buckets[k].start + Window(limits, k)) * 1_000_000 <= now
  {
    hide Window;
  }

  lemma PruneOrder(limits: Limits, t: Table, now: nat)
    requires Ok(t)
    ensures var live := Without(t.order, ExpiredKeys(limits, t, now));
            Prune(limits, t, now).order == if |live| > 20_000 then live[|live| - 18_000..] else live
  {
    hide ExpiredKeys, Oldest, Distinct, Without;
    var live := Drop(t, ExpiredKeys(limits, t, now));
    DropKeepsOk(t, ExpiredKeys(limits, t, now));
    OldestDropped(live);
  }

  /**
   Pruning lets go of the buckets whose window is over by now. If more than 20,000 are left, it keeps only
   the 18,000 keys that came last.
   */
  lemma PruningLeaves(limits: Limits, t: Table, now: nat) returns (over: set<Key>, live: seq<Key>)
    requires Ok(t)
    ensures forall k :: k in over <==> k in t.buckets && (t.buckets[k].start + Window(limits, k)) * 1_000_000 <= now
    ensures Selects(t.order, Staying(over), Same, live)
    ensures Prune(limits, t, now).order == if |live| > 20_000 then live[|live| - 18_000..] else live
  {
    hide Selects, Distinct, ExpiredKeys, Prune, Window, Without;
    over := ExpiredKeys(limits, t, now);
    live := Without(t.order, over);
    forall k
      ensures k in over <==> k in t.buckets && (t.buckets[k].start + Window(limits, k)) * 1_000_000 <= now
    {
      ExpiredAreOver(limits, t, now, k);
    }
    WithoutSelects(t.order, over);
    PruneOrder(limits, t, now);
  }

  /** A key keeps the place in the order that its first use gave it, and a new one comes last. */
  lemma CallKeepsOrder(limits: Limits, t: Table, key: Key, now: nat)
    ensures var order := if key in t.buckets then t.order else t.order + [key];
            var counted := Table(order, t.buckets[key := Counted(limits, t, key, now)]);
            Consume(limits, t, key, now) == if |order| > 20_000 then Prune(limits, counted, now) else counted
  {
  }

  /** What stays and what goes when one key's call meets a table within its cap. */
  ghost predicate Served(limits: Limits, t: Table, key: Key, now: nat) {
    var after := Consume(limits, t, key, now);
    && Ok(after) && |after.order| <= BUCKET_LIMIT
    && key in after.buckets && after.buckets[key] == Counted(limits, t, key, now)
    && key !in Evicted(limits, t, key, now)
    && (forall k :: k in after.buckets && k != key ==> k in t.buckets && after.buckets[k] == t.buckets[k])
    && (forall k :: k in t.buckets && k !in after.buckets ==>
          Expired(limits, k, t.buckets[k], now) || k in Evicted(limits, t, key, now))
  }

  /** What pruning keeps of a table whose newest key has not expired. */
  ghost predicate Pruned(limits: Limits, t: Table, key: Key, now: nat) {
    var after := Prune(limits, t, now);
    var evicted := Oldest(Drop(t, ExpiredKeys(limits, t, now)));
    && Ok(after) && |after.order| <= BUCKET_LIMIT
    && key in after.buckets && key !in evicted
    && (forall k :: k in after.buckets ==> k in t.buckets && after.buckets[k] == t.buckets[k])
    && (forall k :: k in t.buckets && k !in after.buckets ==>
          Expired(limits, k, t.buckets[k], now) || k in evicted)
  }

  lemma PruningKeepsTheNewest(limits: Limits, t: Table, key: Key, now: nat)
    requires Ok(t) && t.order != [] && t.order[|t.order| - 1] == key
    requires !Expired(limits, key, t.buckets[key], now)
    ensures Pruned(limits, t, key, now)
  {
    hide Oldest, Expired, Distinct, Overflow;
    var gone := ExpiredKeys(limits, t, now);
    var live := Drop(t, gone);
    DropKeepsOk(t, gone);
    assert live.order[|live.order| - 1] == key;
    OldestDropped(live);
    DropKeepsOk(live, Oldest(live));
  }

  lemma CallIsServed(limits: Limits, t: Table, key: Key, now: nat)
    requires Ok(t) && |t.order| <= BUCKET_LIMIT && Window(limits, key) > 0
    ensures Served(limits, t, key, now)
  {
    hide Prune, Oldest, Drop, ExpiredKeys, Overflow;
    var counted := Put(t, key, Counted(limits, t, key, now));
    PutKeepsOk(t, key, Counted(limits, t, key, now));
    if |counted.order| > BUCKET_LIMIT {
      WindowHolds(now, Window(limits, key));
      PruningKeepsTheNewest(limits, counted, key, now);
    }
  }

  // ---------------------------------------------------------------------------
  // Runs
  // ---------------------------------------------------------------------------

  /** The bucket of a key agrees with the counter, or counts less after an eviction in its window. */
  ghost predicate Agrees(limits: Limits, calls: seq<Call>, key: Key, bucket: Bucket) {
    && bucket.attempts <= Count(limits, calls, key, bucket.start)
    && (!EvictedIn(limits, calls, key, bucket.start) ==>
          bucket.attempts == Count(limits, calls, key, bucket.start))
  }

  /** What the table says of a key at a clock reading not before any call of the run. */
  ghost predicate Tracks(limits: Limits, calls: seq<Call>, t: Table, key: Key, now: nat) {
    var start := WindowStart(now, Window(limits, key));
    && (forall v :: v > start ==> Count(limits, calls, key, v) == 0)
    && if key in t.buckets then
         && t.buckets[key].start <= start
         && Agrees(limits, calls, key, t.buckets[key])
         && (forall v :: v > t.buckets[key].start ==> Count(limits, calls, key, v) == 0)
       else
         !EvictedIn(limits, calls, key, start) ==> Count(limits, calls, key, start) == 0
  }

  lemma TracksLater(limits: Limits, calls: seq<Call>, t: Table, key: Key, now: nat, later: nat)
    requires Tracks(limits, calls, t, key, now) && now <= later
    ensures Tracks(limits, calls, t, key, later)
  {
    WindowsAscend(now, later, Window(limits, key));
  }

  lemma CountNext(limits: Limits, calls: seq<Call>, call: Call, key: Key)
    ensures forall v :: Count(limits, calls + [call], key, v)
                        == Count(limits, calls, key, v) + if In(limits, call, key, v) then 1 else 0
  {
    assert (calls + [call])[..|calls + [call]| - 1] == calls;
  }

  lemma EvictedNext(limits: Limits, calls: seq<Call>, call: Call, key: Key)
    ensures forall v :: EvictedIn(limits, calls + [call], key, v)
                        <==> || EvictedIn(limits, calls, key, v)
                             || (&& key in Evicted(limits, Run(limits, calls), call.key, call.now)
                                 && WindowStart(call.now, Window(limits, key)) == v)
  {
    hide Evicted, Run;
    assert (calls + [call])[..|calls + [call]| - 1] == calls;
  }

  lemma CallTracks(limits: Limits, calls: seq<Call>, t: Table, call: Call, key: Key)
    requires t == Run(limits, calls) && Tracks(limits, calls, t, key, call.now)
    requires Served(limits, t, call.key, call.now) && Window(limits, key) > 0
    ensures Tracks(limits, calls + [call], Consume(limits, t, call.key, call.now), key, call.now)
  {
    hide Consume, Evicted, EvictedIn, Count;
    CountNext(limits, calls, call, key);
    EvictedNext(limits, calls, call, key);
    if key in t.buckets && Expired(limits, key, t.buckets[key], call.now) {
      WindowHolds(call.now, Window(limits, key));
    }
  }

  /** The table stays within its cap. */
  lemma {:induction false} RunKeepsCap(limits: Limits, calls: seq<Call>)
    requires ValidLimits(limits)
    ensures Ok(Run(limits, calls)) && |Run(limits, calls).order| <= BUCKET_LIMIT
  {
    if calls != [] {
      hide Consume, Distinct, Counted, Evicted;
      var before, call := calls[..|calls| - 1], calls[|calls| - 1];
      RunKeepsCap(limits, before);
      CallIsServed(limits, Run(limits, before), call.key, call.now);
    }
  }

  lemma LastTracks(limits: Limits, calls: seq<Call>, key: Key)
    requires ValidLimits(limits) && calls != []
    requires var before, call := calls[..|calls| - 1], calls[|calls| - 1];
             Tracks(limits, before, Run(limits, before), key, call.now)
    ensures Tracks(limits, calls, Run(limits, calls), key, calls[|calls| - 1].now)
  {
    hide Consume, Tracks, Served, Ok;
    var before, call := calls[..|calls| - 1], calls[|calls| - 1];
    RunKeepsCap(limits, before);
    CallIsServed(limits, Run(limits, before), call.key, call.now);
    CallTracks(limits, before, Run(limits, before), call, key);
    assert before + [call] == calls;
  }

  /** The buckets agree with the counter. */
  lemma {:induction false} RunTracks(limits: Limits, calls: seq<Call>, key: Key, now: nat)
    requires ValidLimits(limits) && Clocked(calls)
    requires calls != [] ==> calls[|calls| - 1].now <= now
    ensures Tracks(limits, calls, Run(limits, calls), key, now)
  {
    if calls != [] {
      hide Consume, Run, Tracks;
      var last := |calls| - 1;
      RunTracks(limits, calls[..last], key, calls[last].now);
      LastTracks(limits, calls, key);
      TracksLater(limits, calls, Run(limits, calls), key, calls[last].now, now);
    }
  }

  /** The attempt number a call is answered with is the counter's, unless the key was evicted in this window. */
  lemma AttemptsAreCounted(limits: Limits, calls: seq<Call>)
    requires ValidLimits(limits) && Clocked(calls) && calls != []
    ensures var Call(key, now) := calls[|calls| - 1];
            var start := WindowStart(now, Window(limits, key));
            && LastAttempts(limits, calls) <= Count(limits, calls, key, start)
            && (!EvictedIn(limits, calls, key, start) ==>
                  LastAttempts(limits, calls) == Count(limits, calls, key, start))
  {
    var last := |calls| - 1;
    RunTracks(limits, calls[..last], calls[last].key, calls[last].now);
    hide Consume, Evicted;
  }

  /** After every call the table is within its cap and holds the key just used. */
  lemma UsedKeyIsKept(limits: Limits, calls: seq<Call>)
    requires ValidLimits(limits) && calls != []
    ensures var Call(key, now) := calls[|calls| - 1];
            && |Run(limits, calls).order| <= BUCKET_LIMIT
            && key in Run(limits, calls).buckets
            && Run(limits, calls).buckets[key]
               == Bucket(WindowStart(now, Window(limits, key)), LastAttempts(limits, calls))
  {
    var last := |calls| - 1;
    RunKeepsCap(limits, calls[..last]);
    CallIsServed(limits, Run(limits, calls[..last]), calls[last].key, calls[last].now);
    hide Consume;
  }

  // ---------------------------------------------------------------------------
  // What is admitted
  // ---------------------------------------------------------------------------

  /** In each window an unevicted key is allowed its first calls, up to its limit. */
  lemma {:induction false} WindowAdmitsItsLimit(limits: Limits, calls: seq<Call>, key: Key, start: int)
    requires ValidLimits(limits) && Clocked(calls) && key.limitType in limits
    requires !EvictedIn(limits, calls, key, start)
    ensures AdmittedIn(limits, calls, key, start)
            == Min(Count(limits, calls, key, start), limits[key.limitType].limit)
  {
    if calls != [] {
      WindowAdmitsItsLimit(limits, calls[..|calls| - 1], key, start);
      AttemptsAreCounted(limits, calls);
      hide LastAttempts, Evicted, Run;
    }
  }

  lemma StartIs(now: nat, window: nat)
    requires window > 0
    ensures WindowStart(now, window) == now / MICROSECONDS / window * window
  {
  }

  lemma NextMultiple(q: nat, p: nat, window: nat)
    requires window > 0 && q * window <= p * window < q * window + 2 * window
    ensures p * window in {q * window, q * window + window}
  {
    if p < q {
      ScaleAscends(p + 1, q, window);
    } else if p > q + 1 {
      ScaleAscends(q + 2, p, window);
    }
  }

  /** A clock reading within a window's length of another falls in its window or the next. */
  lemma TwoWindows(from: nat, now: nat, window: nat)
    requires window > 0 && from <= now < from + window * MICROSECONDS
    ensures WindowStart(now, window) in {WindowStart(from, window), WindowStart(from, window) + window}
  {
    hide WindowStart;
    var q, p := from / MICROSECONDS / window, now / MICROSECONDS / window;
    WindowsAscend(from, now, window);
    WindowHolds(from, window);
    WindowHolds(now, window);
    StartIs(from, window);
    StartIs(now, window);
    NextMultiple(q, p, window);
  }

  lemma {:induction false} IntervalWithinTwoWindows(limits: Limits, calls: seq<Call>, key: Key, from: nat)
    requires ValidLimits(limits) && Clocked(calls) && key.limitType in limits
    ensures var window := limits[key.limitType].window;
            var start := WindowStart(from, window);
            AdmittedBetween(limits, calls, key, from, from + window * MICROSECONDS)
            <= AdmittedIn(limits, calls, key, start) + AdmittedIn(limits, calls, key, start + window)
  {
    hide LastAttempts, WindowStart;
    if calls != [] {
      var window := limits[key.limitType].window;
      var last := |calls| - 1;
      IntervalWithinTwoWindows(limits, calls[..last], key, from);
      if from <= calls[last].now < from + window * MICROSECONDS {
        TwoWindows(from, calls[last].now, window);
      }
    }
  }

  /** A key evicted in neither window an interval meets is allowed at most twice its limit within it. */
  lemma AtMostTwiceTheLimit(limits: Limits, calls: seq<Call>, key: Key, from: nat)
    requires ValidLimits(limits) && Clocked(calls) && key.limitType in limits
    requires var window := limits[key.limitType].window;
             var start := WindowStart(from, window);
             !EvictedIn(limits, calls, key, start) && !EvictedIn(limits, calls, key, start + window)
    ensures var Limit(limit, window) := limits[key.limitType];
            AdmittedBetween(limits, calls, key, from, from + window * MICROSECONDS) <= 2 * limit
  {
    var Limit(limit, window) := limits[key.limitType];
    var start := WindowStart(from, window);
    IntervalWithinTwoWindows(limits, calls, key, from);
    WindowAdmitsItsLimit(limits, calls, key, start);
    WindowAdmitsItsLimit(limits, calls, key, start + window);
  }

  // ---------------------------------------------------------------------------
  // When nothing is evicted
  // ---------------------------------------------------------------------------

  ghost predicate Uses(calls: seq<Call>, keys: set<Key>) {
    forall i :: 0 <= i < |calls| ==> calls[i].key in keys
  }

  lemma {:induction false} DistinctFit(order: seq<Key>, keys: set<Key>)
    requires Distinct(order) && forall k :: k in order ==> k in keys
    ensures |order| <= |keys|
  {
    if order != [] {
      var k := |order| - 1;
      DistinctFit(order[..k], keys - {order[k]});
    }
  }

  /** A run over no more keys than the table holds evicts none of them. */
  lemma {:induction false} FewKeysNeverEvict(limits: Limits, calls: seq<Call>, keys: set<Key>)
    requires ValidLimits(limits) && Clocked(calls) && Uses(calls, keys) && |keys| <= BUCKET_LIMIT
    ensures forall k, start :: !EvictedIn(limits, calls, k, start)
    ensures forall k :: k in Run(limits, calls).buckets ==> k in keys
  {
    if calls != [] {
      var last := |calls| - 1;
      var t := Run(limits, calls[..last]);
      var Call(key, now) := calls[last];
      FewKeysNeverEvict(limits, calls[..last], keys);
      RunKeepsCap(limits, calls[..last]);
      CallIsServed(limits, t, key, now);
      var counted := Put(t, key, Counted(limits, t, key, now));
      PutKeepsOk(t, key, Counted(limits, t, key, now));
      DistinctFit(counted.order, keys);
    }
  }

  /** So then every call is answered with its exact number in its window. */
  lemma FewKeysAreExact(limits: Limits, calls: seq<Call>, keys: set<Key>)
    requires ValidLimits(limits) && Clocked(calls) && Uses(calls, keys) && |keys| <= BUCKET_LIMIT
    requires calls != []
    ensures var Call(key, now) := calls[|calls| - 1];
            LastAttempts(limits, calls) == Count(limits, calls, key, WindowStart(now, Window(limits, key)))
  {
    FewKeysNeverEvict(limits, calls, keys);
    AttemptsAreCounted(limits, calls);
  }
}
