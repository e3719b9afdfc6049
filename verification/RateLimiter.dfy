/**
 The in-memory request limiter of apps/api/core/rate_limiting.py: fixed windows in a bounded table whose
 keys keep the order they were first used in.

 Clock readings are microseconds since 1970; window starts are whole seconds.
 */
module RateLimiter {
  import opened Wrappers
  import opened Numbers

  const BUCKET_LIMIT := 20_000
  const MICROSECONDS := 1_000_000

  datatype Key = Key(ip: string, endpoint: string, limitType: string)

  datatype Bucket = Bucket(start: int, attempts: nat)

  datatype Limit = Limit(limit: nat, window: nat)

  type Limits = map<string, Limit>

  /** A dict: its entries, and its keys in the order they were inserted. */
  datatype Table = Table(order: seq<Key>, buckets: map<Key, Bucket>)

  ghost predicate ValidLimits(limits: Limits) {
    forall t :: t in limits ==> limits[t].window > 0
  }

  function Window(limits: Limits, key: Key): nat {
    if key.limitType in limits then limits[key.limitType].window else 1
  }

  /** The start of the window a clock reading falls in. */
  function WindowStart(now: nat, window: nat): int {
    if window == 0 then 0 else now / MICROSECONDS / window * window
  }

  function SecondsUntil(reset: int, now: nat): int {
    Max(1, Ceiling(reset * MICROSECONDS - now, MICROSECONDS))
  }

  predicate Expired(limits: Limits, key: Key, bucket: Bucket, now: nat) {
    (bucket.start + Window(limits, key)) * MICROSECONDS <= now
  }

  // ---------------------------------------------------------------------------
  // The table
  // ---------------------------------------------------------------------------

  ghost predicate Distinct(order: seq<Key>) {
    forall i, j :: 0 <= i < j < |order| ==> order[i] != order[j]
  }

  ghost predicate Ok(t: Table) {
    && Distinct(t.order)
    && (forall k :: k in t.buckets <==> k in t.order)
  }

  function Put(t: Table, key: Key, bucket: Bucket): Table {
    Table(if key in t.buckets then t.order else t.order + [key], t.buckets[key := bucket])
  }

  function Without(order: seq<Key>, gone: set<Key>): seq<Key> {
    if order == [] then []
    else
      var k := |order| - 1;
      Without(order[..k], gone) + if order[k] in gone then [] else [order[k]]
  }

  function Drop(t: Table, gone: set<Key>): Table {
    Table(Without(t.order, gone), t.buckets - gone)
  }

  function ExpiredKeys(limits: Limits, t: Table, now: nat): set<Key> {
    set k | k in t.buckets && Expired(limits, k, t.buckets[k], now)
  }

  ghost function Among(keys: seq<Key>, chosen: set<Key>): set<Key> {
    set k | k in keys && k in chosen
  }

  /** The buckets to evict so that a full table is left nine tenths full. */
  function Overflow(size: nat): nat {
    if size > BUCKET_LIMIT then size - BUCKET_LIMIT * 9 / 10 else 0
  }

  function Oldest(t: Table): set<Key> {
    var n := Overflow(|t.order|);
    set i | 0 <= i < n && i < |t.order| :: t.order[i]
  }

  function Prune(limits: Limits, t: Table, now: nat): Table {
    var live := Drop(t, ExpiredKeys(limits, t, now));
    Drop(live, Oldest(live))
  }

  /** The bucket a call leaves for its key. */
  function Counted(limits: Limits, t: Table, key: Key, now: nat): Bucket {
    var start := WindowStart(now, Window(limits, key));
    var attempts := if key in t.buckets && t.buckets[key].start == start then t.buckets[key].attempts + 1 else 1;
    Bucket(start, attempts)
  }

  /** The table after one call. */
  function Consume(limits: Limits, t: Table, key: Key, now: nat): Table {
    var counted := Put(t, key, Counted(limits, t, key, now));
    if |counted.order| > BUCKET_LIMIT then Prune(limits, counted, now) else counted
  }

  /** The keys a call evicts though their window has not passed. */
  function Evicted(limits: Limits, t: Table, key: Key, now: nat): set<Key> {
    var counted := Put(t, key, Counted(limits, t, key, now));
    if |counted.order| > BUCKET_LIMIT then Oldest(Drop(counted, ExpiredKeys(limits, counted, now))) else {}
  }

  // ---------------------------------------------------------------------------
  // Lemmas on the table
  // ---------------------------------------------------------------------------

  lemma {:induction false} WithoutKeeps(order: seq<Key>, gone: set<Key>)
    requires Distinct(order)
    ensures Distinct(Without(order, gone))
    ensures forall k :: k in Without(order, gone) <==> k in order && k !in gone
    ensures |Without(order, gone)| <= |order|
  {
    if order != [] {
      var k := |order| - 1;
      WithoutKeeps(order[..k], gone);
      assert order == order[..k] + [order[k]];
    }
  }

  lemma DropKeepsOk(t: Table, gone: set<Key>)
    requires Ok(t)
    ensures Ok(Drop(t, gone)) && |Drop(t, gone).order| <= |t.order|
  {
    WithoutKeeps(t.order, gone);
  }

  lemma PutKeepsOk(t: Table, key: Key, bucket: Bucket)
    requires Ok(t)
    ensures Ok(Put(t, key, bucket))
  {
  }

  lemma {:induction false} WithoutTwice(order: seq<Key>, a: set<Key>, b: set<Key>)
    ensures Without(Without(order, a), b) == Without(order, a + b)
  {
    if order != [] {
      var k := |order| - 1;
      WithoutTwice(order[..k], a, b);
      var front := Without(order[..k], a);
      if order[k] in a {
        assert front + [] == front;
      } else {
        assert (front + [order[k]])[..|front|] == front;
      }
    }
  }

  lemma DropTwice(t: Table, a: set<Key>, b: set<Key>)
    ensures Drop(Drop(t, a), b) == Drop(t, a + b)
  {
    WithoutTwice(t.order, a, b);
  }

  lemma {:induction false} WithoutNothing(order: seq<Key>)
    ensures Without(order, {}) == order
  {
    if order != [] {
      WithoutNothing(order[..|order| - 1]);
    }
  }

  lemma DropNothing(t: Table)
    ensures Drop(t, {}) == t
  {
    WithoutNothing(t.order);
  }

  lemma AmongNext(keys: seq<Key>, chosen: set<Key>, i: nat)
    requires i < |keys|
    ensures Among(keys[..i + 1], chosen)
            == Among(keys[..i], chosen) + if keys[i] in chosen then {keys[i]} else {}
  {
    assert keys[..i + 1] == keys[..i] + [keys[i]];
  }

  lemma AmongAll(keys: seq<Key>, chosen: set<Key>)
    requires forall k :: k in chosen ==> k in keys
    ensures Among(keys[..|keys|], chosen) == chosen
  {
    assert keys[..|keys|] == keys;
  }

  lemma KeptUntilReached(t: Table, gone: set<Key>, i: nat)
    requires Ok(t) && i < |t.order| && gone <= Among(t.order[..i], gone)
    ensures t.order[i] in Drop(t, gone).buckets
    ensures Drop(t, gone).buckets[t.order[i]] == t.buckets[t.order[i]]
  {
  }

  // ---------------------------------------------------------------------------
  // The limiter
  // ---------------------------------------------------------------------------

  datatype Answer =
    | UnknownLimitType
    | Answer(allowed: bool, attempts: nat, limit: Option<nat>, window: nat, reset: int, retryAfter: Option<int>)

  class Limiter {
    const enabled: bool
    const limits: Limits
    var order: seq<Key>
    var buckets: map<Key, Bucket>

    constructor (enabled: bool, limits: Limits)
      requires ValidLimits(limits)
      ensures this.enabled == enabled && this.limits == limits
      ensures Valid() && Current() == Table([], map[])
    {
      this.enabled, this.limits := enabled, limits;
      order, buckets := [], map[];
    }

    ghost predicate Valid()
      reads this
    {
      && ValidLimits(limits)
      && Ok(Table(order, buckets))
      && (forall k :: k in buckets ==> k.limitType in limits)
    }

    function Current(): Table
      reads this
    {
      Table(order, buckets)
    }

    /** Removes one key and its bucket. */
    method Delete(key: Key)
      requires Valid()
      modifies this
      ensures Valid()
      ensures Current() == Drop(old(Current()), {key})
    {
      DropKeepsOk(Current(), {key});
      order := Without(order, {key});
      buckets := buckets - {key};
    }

    /** Removes what has expired, and if the table is still too full, what was used first longest ago. */
    method PruneMemoryBuckets(now: nat)
      requires Valid()
      modifies this
      ensures Valid()
      ensures Current() == Prune(limits, old(Current()), now)
    {
      ghost var was := Current();
      var keys := order;
      DropNothing(was);
      assert Among(keys[..0], ExpiredKeys(limits, was, now)) == {};
      for i := 0 to |keys|
        invariant Valid() && Current() == Drop(was, Among(keys[..i], ExpiredKeys(limits, was, now)))
      {
        ghost var gone := Among(keys[..i], ExpiredKeys(limits, was, now));
        AmongNext(keys, ExpiredKeys(limits, was, now), i);
        KeptUntilReached(was, gone, i);
        if Expired(limits, keys[i], buckets[keys[i]], now) {
          DropTwice(was, gone, {keys[i]});
          Delete(keys[i]);
        } else {
          assert gone + {} == gone;
        }
      }
      AmongAll(keys, ExpiredKeys(limits, was, now));
      PruneOldest();
    }

    /** The second half of the pruning. */
    method PruneOldest()
      requires Valid()
      modifies this
      ensures Valid()
      ensures Current() == Drop(old(Current()), Oldest(old(Current())))
    {
      ghost var was := Current();
      DropNothing(was);
      if |order| <= BUCKET_LIMIT {
        assert Oldest(was) == {};
        return;
      }
      var keys := order[..|order| - BUCKET_LIMIT * 9 / 10];
      assert Among(keys[..0], Oldest(was)) == {};
      for i := 0 to |keys|
        invariant Valid() && Current() == Drop(was, Among(keys[..i], Oldest(was)))
      {
        AmongNext(keys, Oldest(was), i);
        DropTwice(was, Among(keys[..i], Oldest(was)), {keys[i]});
        Delete(keys[i]);
      }
      AmongAll(keys, Oldest(was));
    }

    /** Consumes one attempt; an invalid address is always refused, and a disabled limiter never refuses. */
    method CheckMemoryRateLimit(key: Key, validAddress: bool, now: nat) returns (answer: Answer)
      requires Valid()
      modifies this
      ensures Valid()
      ensures !enabled || !validAddress || key.limitType !in limits ==> Current() == old(Current())
      ensures !enabled ==> answer == Answer(true, 0, None, 0, now / MICROSECONDS, None)
      ensures enabled && !validAddress ==>
                answer == Answer(false, 999, Some(1), 3600, now / MICROSECONDS + 3600, Some(3600))
      ensures enabled && validAddress && key.limitType !in limits ==> answer == UnknownLimitType
      ensures enabled && validAddress && key.limitType in limits ==>
                var Limit(limit, window) := limits[key.limitType];
                var bucket := Counted(limits, old(Current()), key, now);
                && Current() == Consume(limits, old(Current()), key, now)
                && answer == Answer(bucket.attempts <= limit, bucket.attempts, Some(limit), window,
                                    bucket.start + window,
                                    if bucket.attempts <= limit then None
                                    else Some(SecondsUntil(bucket.start + window, now)))
    {
      hide Prune, WindowStart, SecondsUntil, Distinct;
      if !enabled {
        return Answer(true, 0, None, 0, now / MICROSECONDS, None);
      }
      if !validAddress {
        return Answer(false, 999, Some(1), 3600, now / MICROSECONDS + 3600, Some(3600));
      }
      if key.limitType !in limits {
        return UnknownLimitType;
      }
      var Limit(limit, window) := limits[key.limitType];
      var start := WindowStart(now, window);
      var Bucket(bucketStart, before) := if key in buckets then buckets[key] else Bucket(start, 0);
      var attempts := if bucketStart == start then before + 1 else 1;
      PutKeepsOk(Current(), key, Bucket(start, attempts));
      if key !in buckets {
        order := order + [key];
      }
      buckets := buckets[key := Bucket(start, attempts)];
      if |order| > BUCKET_LIMIT {
        PruneMemoryBuckets(now);
      }
      var reset := start + window;
      var allowed := attempts <= limit;
      answer := Answer(allowed, attempts, Some(limit), window, reset,
                       if allowed then None else Some(SecondsUntil(reset, now)));
    }
  }
}
